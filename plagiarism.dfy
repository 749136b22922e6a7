/** The plagiarism check of `extractCodeSummaries`: at most the first ten
    code files, each read and put to the text-generation service; a file
    whose read or request throws is left out and the loop goes on. */
module Plagiarism {
  import opened Wrappers
  import opened Text
  import opened Excerpts

  /** How many code files are checked at most. */
  const FileLimit: nat := 10

  /** How many characters of a file the question quotes at most. */
  const QuoteLimit: nat := 1200

  /** One entry of `plagiarismResults`. */
  datatype Finding = Finding(file: string, result: string)

  /** The fixed opening of the question. */
  const Question: string :=
    "Does the following code appear to be copied from StackOverflow, GitHub, or a well-known open source contract? "
    + "If so, name the likely source and rate the similarity (0-100). If it is a common smart contract (like OpenZeppelin), say so."

  /** The question put to the service for one file (the user part of the
      request; the model name and the system instruction are fixed). */
  function Prompt(file: string, code: string): string
  {
    Question + "\n\nFile: " + file + "\n\nCode:\n" + Take(code, QuoteLimit) + "\n"
  }

  /** The entry for one file, or nothing when reading it or asking about it
      throws. `generate` stands for the service call: the text of its answer,
      `None` when the call rejects. */
  function Check(file: string, read: string -> Option<string>, generate: string -> Option<string>): Option<Finding>
  {
    match read(file)
    case None => None
    case Some(code) =>
      match generate(Prompt(file, code))
      case None => None
      case Some(answer) => Some(Finding(file, answer))
  }

  /** The entries one file adds: its own, or none. */
  function Reported(file: string, read: string -> Option<string>, generate: string -> Option<string>): seq<Finding>
  {
    match Check(file, read, generate)
    case None => []
    case Some(f) => [f]
  }

  /** The entries for the files `files`, in order. */
  function Findings(files: seq<string>, read: string -> Option<string>, generate: string -> Option<string>): seq<Finding>
  {
    if files == [] then []
    else Findings(files[..|files| - 1], read, generate) + Reported(files[|files| - 1], read, generate)
  }

  /** The files among `files` a question is put about, in order: those that
      can be read. Each gets its request whether or not the service
      answers it. */
  function Requested(files: seq<string>, read: string -> Option<string>): (r: seq<string>)
    ensures |r| <= |files|
    ensures forall x :: x in r <==> x in files && read(x).Some?
  {
    if files == [] then []
    else
      var init, last := files[..|files| - 1], files[|files| - 1];
      assert files == init + [last];
      Requested(init, read) + (if read(last).Some? then [last] else [])
  }

  /** The plagiarism loop over `allCodeFiles.slice(0, 10)`: the entries, and
      the files put to the service, in the order of the requests. */
  method CheckPlagiarism(allCodeFiles: seq<string>, read: string -> Option<string>, generate: string -> Option<string>)
    returns (results: seq<Finding>, asked: seq<string>)
    ensures results == Findings(Take(allCodeFiles, FileLimit), read, generate)
    ensures asked == Requested(Take(allCodeFiles, FileLimit), read)
  {
    var files := Take(allCodeFiles, FileLimit);
    results, asked := [], [];
    for i := 0 to |files|
      invariant results == Findings(files[..i], read, generate)
      invariant asked == Requested(files[..i], read)
    {
      assert files[..i + 1][..i] == files[..i];
      var code := read(files[i]);
      if code.Some? {
        asked := asked + [files[i]];
        var response := generate(Prompt(files[i], code.value));
        if response.Some? {
          results := results + [Finding(files[i], response.value)];
        }
      }
    }
    assert files[..|files|] == files;
  }

  /** Every reported file was put to the service. */
  lemma ReportedWereRequested(files: seq<string>, read: string -> Option<string>, generate: string -> Option<string>, f: Finding)
    requires f in Findings(files, read, generate)
    ensures f.file in Requested(files, read)
  {
    FindingExact(files, read, generate, f);
  }

  /** The files of a list of entries. */
  function FilesOf(findings: seq<Finding>): (r: seq<string>)
    ensures |r| == |findings|
    ensures forall k :: 0 <= k < |r| ==> r[k] == findings[k].file
  {
    if findings == [] then [] else [findings[0].file] + FilesOf(findings[1..])
  }

  lemma {:induction false} FilesOfAppend(a: seq<Finding>, b: seq<Finding>)
    ensures FilesOf(a + b) == FilesOf(a) + FilesOf(b)
  {
  }

  /** The entries name some of the files, in their order, each at most once
      per occurrence: the entry files are a subsequence of the files. There
      are never more entries than files. */
  lemma {:induction false} FindingsFollowFiles(files: seq<string>, read: string -> Option<string>, generate: string -> Option<string>)
    ensures IsSubsequence(FilesOf(Findings(files, read, generate)), files)
    ensures |Findings(files, read, generate)| <= |files|
  {
    if files != [] {
      var init := files[..|files| - 1];
      var last := files[|files| - 1];
      assert files == init + [last];
      FindingsFollowFiles(init, read, generate);
      FindingsSnoc(init, last, read, generate);
      ReportedShape(last, read, generate);
      FindingsStep(Findings(init, read, generate), Reported(last, read, generate), init, last);
    }
  }

  lemma FindingsSnoc(init: seq<string>, last: string, read: string -> Option<string>, generate: string -> Option<string>)
    ensures Findings(init + [last], read, generate) == Findings(init, read, generate) + Reported(last, read, generate)
  {
    assert (init + [last])[..|init|] == init;
  }

  /** A file is reported at most once, under its own name. */
  lemma ReportedShape(file: string, read: string -> Option<string>, generate: string -> Option<string>)
    ensures var r := Reported(file, read, generate);
            r == [] || (|r| == 1 && r[0].file == file)
  {
  }

  /** One more file keeps the entry files a subsequence of the files. */
  lemma FindingsStep(before: seq<Finding>, added: seq<Finding>, init: seq<string>, last: string)
    requires IsSubsequence(FilesOf(before), init)
    requires added == [] || (|added| == 1 && added[0].file == last)
    ensures IsSubsequence(FilesOf(before + added), init + [last])
  {
    assert FilesOf(added) == [] || FilesOf(added) == [last];
    FilesOfAppend(before, added);
    SubsequenceSnoc(FilesOf(before), init, last, FilesOf(added));
  }

  /** Extending a list by one element keeps a subsequence a subsequence, with
      that element or without it. */
  lemma {:induction false} SubsequenceSnoc(sub: seq<string>, s: seq<string>, x: string, tail: seq<string>)
    requires IsSubsequence(sub, s)
    requires tail == [] || tail == [x]
    ensures IsSubsequence(sub + tail, s + [x])
    decreases |s|
  {
    if s == [] {
      assert sub == [];
      assert sub + tail == tail;
      if tail != [] {
        assert [x][1..] == [] && tail[1..] == [];
      }
    } else if sub != [] && sub[0] == s[0] && IsSubsequence(sub[1..], s[1..]) {
      SubsequenceSnoc(sub[1..], s[1..], x, tail);
      assert (sub + tail)[1..] == sub[1..] + tail;
      assert (s + [x])[1..] == s[1..] + [x];
    } else if sub == [] {
      SubsequenceSnoc(sub, s[1..], x, tail);
      assert sub + tail == tail;
      assert (s + [x])[1..] == s[1..] + [x];
    } else {
      SubsequenceSnoc(sub, s[1..], x, tail);
      assert (s + [x])[1..] == s[1..] + [x];
    }
  }

  /** `plagiarismResults` has at most ten entries, their files are drawn in
      order from the first ten code files, and no file appears twice when the
      code list holds no path twice. */
  lemma PlagiarismResultsBounded(allCodeFiles: seq<string>, read: string -> Option<string>, generate: string -> Option<string>)
    ensures var results := Findings(Take(allCodeFiles, FileLimit), read, generate);
            |results| <= FileLimit
            && IsSubsequence(FilesOf(results), Take(allCodeFiles, FileLimit))
            && (NoDuplicates(allCodeFiles) ==> NoDuplicates(FilesOf(results)))
  {
    var files := Take(allCodeFiles, FileLimit);
    FindingsFollowFiles(files, read, generate);
    var results := Findings(files, read, generate);
    if NoDuplicates(allCodeFiles) {
      assert NoDuplicates(files);
      SubsequenceNoDuplicates(FilesOf(results), files);
    }
  }

  /** A file is reported exactly when it can be read and the service answers
      the question about it; the entry carries that answer. */
  lemma {:induction false} FindingExact(files: seq<string>, read: string -> Option<string>, generate: string -> Option<string>, f: Finding)
    ensures f in Findings(files, read, generate) <==>
            f.file in files && read(f.file).Some? && generate(Prompt(f.file, read(f.file).value)) == Some(f.result)
  {
    if files != [] {
      var init := files[..|files| - 1];
      FindingExact(init, read, generate, f);
      assert files == init + [files[|files| - 1]];
    }
  }

  /** The question quotes at most the first 1200 characters: two files that
      agree on those get the same question. */
  lemma PromptIgnoresTail(file: string, code1: string, code2: string)
    requires |code1| >= QuoteLimit && |code2| >= QuoteLimit
    requires code1[..QuoteLimit] == code2[..QuoteLimit]
    ensures Prompt(file, code1) == Prompt(file, code2)
  {
  }
}
