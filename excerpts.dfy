/** `readFiles(files, maxLines)`: the first `maxLines` lines of the
    readable files of a list, read in list order and joined with `\n`. */
module Excerpts {
  import opened Wrappers
  import opened Text

  /** The first `n` elements of `s`, or all of it when it is shorter
      (`s.slice(0, n)` for `n >= 0`). */
  function Take<T>(s: seq<T>, n: nat): (r: seq<T>)
    ensures |r| <= n && |r| <= |s| && r == s[..|r|]
    ensures |s| >= n ==> |r| == n
    ensures |s| < n ==> r == s
  {
    if |s| <= n then s else s[..n]
  }

  /** Appending to a list and then taking `n` takes from the list first and
      from the appended part only what room is left. */
  lemma TakeAppend<T>(a: seq<T>, c: seq<T>, n: nat)
    ensures Take(a + c, n) == Take(a, n) + Take(c, n - |Take(a, n)|)
  {
    if |a| >= n {
      assert (a + c)[..n] == a[..n];
    } else if |a + c| > n {
      assert (a + c)[..n] == a + c[..n - |a|];
    }
  }

  /** The lines of one file as `split(/\r?\n/)` gives them; nothing when the
      read throws. */
  function FileLines(contents: Option<string>): seq<string>
  {
    match contents
    case None => []
    case Some(text) => SplitLines(text)
  }

  /** Every line of every readable file of `files`, in list order.
      `read` stands for `fs.readFileSync(file, 'utf8')`, `None` when it
      throws. */
  function AllLines(files: seq<string>, read: string -> Option<string>): seq<string>
  {
    if files == [] then []
    else AllLines(files[..|files| - 1], read) + FileLines(read(files[|files| - 1]))
  }

  lemma {:induction false} AllLinesAppend(a: seq<string>, b: seq<string>, read: string -> Option<string>)
    ensures AllLines(a + b, read) == AllLines(a, read) + AllLines(b, read)
    decreases |b|
  {
    if b == [] {
      assert a + b == a;
    } else {
      var init, last := b[..|b| - 1], b[|b| - 1];
      assert (a + b)[..|a + b| - 1] == a + init;
      assert (a + b)[|a + b| - 1] == last;
      assert AllLines(a + b, read) == AllLines(a + init, read) + FileLines(read(last));
      AllLinesAppend(a, init, read);
      AppendAssoc(AllLines(a, read), AllLines(init, read), FileLines(read(last)));
    }
  }

  /** The lines of the first `i + 1` files: those of the first `i`, then
      those of file `i`. */
  lemma AllLinesSnoc(files: seq<string>, i: nat, read: string -> Option<string>)
    requires i < |files|
    ensures AllLines(files[..i + 1], read) == AllLines(files[..i], read) + FileLines(read(files[i]))
  {
    assert files[..i + 1][..i] == files[..i];
  }

  /** The excerpt of the first `i + 1` files: that of the first `i`, then
      as many lines of file `i` as there is room for. */
  lemma ExcerptStep(files: seq<string>, i: nat, read: string -> Option<string>, maxLines: nat)
    requires i < |files|
    ensures var before := Take(AllLines(files[..i], read), maxLines);
            Take(AllLines(files[..i + 1], read), maxLines)
            == before + Take(FileLines(read(files[i])), maxLines - |before|)
  {
    AllLinesSnoc(files, i, read);
    TakeAppend(AllLines(files[..i], read), FileLines(read(files[i])), maxLines);
  }

  /** Once the first `i` files fill the excerpt, the files after them
      change nothing. */
  lemma FullExcerpt(files: seq<string>, i: nat, read: string -> Option<string>, maxLines: nat)
    requires i <= |files|
    requires |Take(AllLines(files[..i], read), maxLines)| >= maxLines
    ensures Take(AllLines(files[..i], read), maxLines) == ExcerptLines(files, read, maxLines)
  {
    SplitAt(files, i);
    AllLinesAppend(files[..i], files[i..], read);
    TakeFull(AllLines(files[..i], read), AllLines(files[i..], read), maxLines);
  }

  lemma AppendNothing<T>(s: seq<T>)
    ensures s + [] == s
  {
  }

  lemma AllOf<T>(s: seq<T>)
    ensures s[..|s|] == s
  {
  }

  /** Taking `n` from a list of at least `n` ignores what follows it. */
  lemma TakeFull<T>(a: seq<T>, b: seq<T>, n: nat)
    requires |a| >= n
    ensures Take(a + b, n) == Take(a, n)
  {
    assert (a + b)[..n] == a[..n];
  }

  /** The lines an excerpt keeps: the first `maxLines` of all lines. */
  function ExcerptLines(files: seq<string>, read: string -> Option<string>, maxLines: nat): seq<string>
  {
    Take(AllLines(files, read), maxLines)
  }

  /** `readFiles(files, maxLines)`. The loop stops as soon as the excerpt is
      full, which leaves it as it would have been had the loop gone on. */
  method ReadFiles(files: seq<string>, read: string -> Option<string>, maxLines: nat) returns (excerpt: string)
    ensures excerpt == JoinLines(ExcerptLines(files, read, maxLines))
  {
    var lines: seq<string> := [];
    var i := 0;
    while i < |files|
      invariant i <= |files|
      invariant lines == Take(AllLines(files[..i], read), maxLines)
    {
      ExcerptStep(files, i, read, maxLines);
      var full;
      lines, full := ReadInto(lines, files[i], read, maxLines);
      if full {
        FullExcerpt(files, i + 1, read, maxLines);
        break;
      }
      i := i + 1;
    }
    if i == |files| {
      AllOf(files);
    }
    excerpt := JoinLines(lines);
  }

  /** One turn of the loop of `readFiles`: the lines of `file` that fit,
      nothing when the read throws; `full` when a read file leaves the
      excerpt at `maxLines` lines or more, which ends the loop. */
  method ReadInto(lines: seq<string>, file: string, read: string -> Option<string>, maxLines: nat)
    returns (next: seq<string>, full: bool)
    requires |lines| <= maxLines
    ensures next == lines + Take(FileLines(read(file)), maxLines - |lines|)
    ensures full <==> read(file).Some? && |next| >= maxLines
  {
    match read(file) {
      case None =>
        next, full := lines, false;
        AppendNothing(lines);
      case Some(text) =>
        next := lines + Take(SplitLines(text), maxLines - |lines|);
        full := |next| >= maxLines;
    }
  }

  /** An excerpt keeps at most `maxLines` lines, and they are the first lines
      of the readable files in list order: a prefix of their lines. */
  lemma ExcerptIsBoundedPrefix(files: seq<string>, read: string -> Option<string>, maxLines: nat)
    ensures |ExcerptLines(files, read, maxLines)| <= maxLines
    ensures ExcerptLines(files, read, maxLines) == AllLines(files, read)[..|ExcerptLines(files, read, maxLines)|]
    ensures |AllLines(files, read)| >= maxLines ==> |ExcerptLines(files, read, maxLines)| == maxLines
  {
  }

  /** A file that cannot be read contributes nothing, wherever it stands. */
  lemma UnreadableSkipped(before: seq<string>, file: string, after: seq<string>, read: string -> Option<string>)
    requires read(file).None?
    ensures AllLines(before + [file] + after, read) == AllLines(before + after, read)
  {
    AllLinesAppend(before + [file], after, read);
    AllLinesAppend(before, [file], read);
    AllLinesAppend(before, after, read);
    assert AllLines([file], read) == [] by {
      assert [file][..0] == [];
    }
    assert AllLines(before + [file], read) == AllLines(before, read);
  }

  /** Joining `k` lines that hold no line break gives a text with `k - 1`
      line breaks. */
  lemma {:induction false} JoinLinesBreaks(lines: seq<string>)
    requires lines != []
    requires forall k :: 0 <= k < |lines| ==> '\n' !in lines[k]
    ensures CountChar(JoinLines(lines), '\n') == |lines| - 1
  {
    if |lines| > 1 {
      JoinLinesBreaks(lines[1..]);
      CountCharAppend(lines[0] + "\n", JoinLines(lines[1..]), '\n');
      CountCharAppend(lines[0], "\n", '\n');
      NoCharNoCount(lines[0], '\n');
    } else {
      NoCharNoCount(lines[0], '\n');
    }
  }

  lemma {:induction false} CountCharAppend(a: string, b: string, c: char)
    ensures CountChar(a + b, c) == CountChar(a, c) + CountChar(b, c)
  {
    if a == [] {
      assert a + b == b;
    } else {
      assert (a + b)[1..] == a[1..] + b;
      CountCharAppend(a[1..], b, c);
    }
  }

  lemma {:induction false} NoCharNoCount(s: string, c: char)
    requires c !in s
    ensures CountChar(s, c) == 0
  {
    if s != [] {
      assert c !in s[1..];
      NoCharNoCount(s[1..], c);
    }
  }

  /** Every line `SplitLines` yields for a file is free of `\n`. */
  lemma {:induction false} AllLinesUnbroken(files: seq<string>, read: string -> Option<string>)
    ensures forall k :: 0 <= k < |AllLines(files, read)| ==> '\n' !in AllLines(files, read)[k]
  {
    if files != [] {
      var init := files[..|files| - 1];
      AllLinesUnbroken(init, read);
      var a := AllLines(init, read);
      var b := FileLines(read(files[|files| - 1]));
      forall k | 0 <= k < |a + b| ensures '\n' !in (a + b)[k] {
        if k >= |a| { assert (a + b)[k] == b[k - |a|]; }
      }
    }
  }

  /** Read back with `split(/\r?\n/)`, an excerpt counts at most `maxLines`
      lines (one, the empty line, when nothing was read). */
  lemma ExcerptLineCount(files: seq<string>, read: string -> Option<string>, maxLines: nat)
    ensures var lines := ExcerptLines(files, read, maxLines);
            1 + CountChar(JoinLines(lines), '\n') == if lines == [] then 1 else |lines|
  {
    var lines := ExcerptLines(files, read, maxLines);
    if lines != [] {
      AllLinesUnbroken(files, read);
      var all := AllLines(files, read);
      forall k | 0 <= k < |lines| ensures '\n' !in lines[k] {
        assert lines[k] == all[k];
      }
      JoinLinesBreaks(lines);
    }
  }

  /** `archSummary`: the backend excerpt and the frontend excerpt, 500 lines
      each, joined by a `---` line. */
  function ArchSummary(backendExcerpt: string, frontendExcerpt: string): string
  {
    backendExcerpt + "\n---\n" + frontendExcerpt
  }

  /** The lines `split(/\r?\n/)` gives back for the join of `lines`: the
      lines themselves, or one empty line when there are none. */
  function LinesBack(lines: seq<string>): (r: seq<string>)
    ensures r != [] && JoinLines(r) == JoinLines(lines)
  {
    if lines == [] then [""] else lines
  }

  /** No line holds a line break or a carriage return. */
  predicate Unbroken(lines: seq<string>)
  {
    forall k :: 0 <= k < |lines| ==> '\n' !in lines[k] && '\r' !in lines[k]
  }

  /** Read back line by line, the architecture excerpt is the backend
      lines, one `---` line, then the frontend lines, when no line holds a
      carriage return. An empty excerpt reads back as one empty line. */
  lemma ArchSummaryLines(backend: seq<string>, frontend: seq<string>)
    requires Unbroken(backend) && Unbroken(frontend)
    ensures SplitLines(ArchSummary(JoinLines(backend), JoinLines(frontend)))
         == LinesBack(backend) + ["---"] + LinesBack(frontend)
  {
    var b, f := LinesBack(backend), LinesBack(frontend);
    ArchSummaryJoin(b, f);
    UnbrokenAround(b, f);
    SplitJoinLines(b + ["---"] + f);
  }

  /** The architecture excerpt of two joins is the join of the two runs of
      lines around a `---` line. */
  lemma ArchSummaryJoin(b: seq<string>, f: seq<string>)
    requires b != [] && f != []
    ensures ArchSummary(JoinLines(b), JoinLines(f)) == JoinLines(b + ["---"] + f)
  {
    JoinLinesAppend(b, ["---"]);
    JoinLinesAppend(b + ["---"], f);
    assert JoinLines(["---"]) == "---";
  }

  lemma UnbrokenAround(b: seq<string>, f: seq<string>)
    requires Unbroken(b) && Unbroken(f)
    ensures Unbroken(b + ["---"] + f)
  {
    var all := b + ["---"] + f;
    forall k | 0 <= k < |all| ensures '\n' !in all[k] && '\r' !in all[k] {
      if k < |b| {
        assert all[k] == b[k];
      } else if k > |b| {
        assert all[k] == f[k - |b| - 1];
      } else {
        assert all[k] == "---";
      }
    }
  }
}
