/** `parseSections(text)` of the repository page: a scan over the lines of
    the summary text that cuts it into sections at `---` rules, `#` headings
    and numbered lines `N. `, keyed by a slug of the heading. */
module Sections {
  import opened Wrappers
  import opened Text

  /** `/^---+$/.test(line.trim())`: the trimmed line is three or more `-`. */
  predicate IsRule(line: string)
  {
    var t := Trim(line);
    |t| >= 3 && forall k :: 0 <= k < |t| ==> t[k] == '-'
  }

  /** `/^#+\s*(.+)/.test(line)` as the regular expression reads: one or more
      `#` (up to `a`), white space (up to `b`), then a character `.` matches. */
  ghost predicate HeadingPattern(line: string)
  {
    exists a: nat, b: nat :: HeadingSplit(line, a, b)
  }

  predicate HeadingSplit(line: string, a: nat, b: nat)
  {
    && 1 <= a <= b < |line|
    && (forall k :: 0 <= k < a ==> line[k] == '#')
    && (forall k :: a <= k < b ==> IsSpace(line[k]))
    && !IsLineTerminator(line[b])
  }

  /** The same test, as the scan performs it: a `#` first and a character
      other than a line terminator somewhere after it. */
  predicate IsHeading(line: string)
  {
    |line| >= 2 && line[0] == '#' && exists j :: 1 <= j < |line| && !IsLineTerminator(line[j])
  }

  /** The number of decimal digits at the start of `s`. */
  function LeadingDigits(s: string): (n: nat)
    ensures n <= |s|
    ensures forall k :: 0 <= k < n ==> IsDigit(s[k])
    ensures n < |s| ==> !IsDigit(s[n])
  {
    if s != [] && IsDigit(s[0]) then 1 + LeadingDigits(s[1..]) else 0
  }

  /** `/^\d+\.\s+/.test(line)` */
  predicate IsNumbered(line: string)
  {
    var d := LeadingDigits(line);
    1 <= d && d + 1 < |line| && line[d] == '.' && IsSpace(line[d + 1])
  }

  /** `s` without its leading `#` characters. */
  function DropHashes(s: string): (r: string)
    ensures |r| <= |s| && r == s[|s| - |r|..]
    ensures r == [] || r[0] != '#'
    ensures forall k :: 0 <= k < |s| - |r| ==> s[k] == '#'
  {
    if s != [] && s[0] == '#' then
      var r := DropHashes(s[1..]);
      assert s[1..][|s| - 1 - |r|..] == s[|s| - |r|..];
      assert forall k :: 1 <= k < |s| - |r| ==> s[k] == s[1..][k - 1];
      r
    else s
  }

  /** A heading line with the pattern `^#+\s*` replaced by nothing: the
      leading `#` characters and the white space after them removed. */
  function HeadingTitle(line: string): string
  {
    TrimStart(DropHashes(line))
  }

  /** `line.replace(/^\d+\.\s+/, "")` for a numbered line. */
  function NumberedTitle(line: string): string
    requires IsNumbered(line)
  {
    TrimStart(line[LeadingDigits(line) + 1..])
  }

  /** `s` without the characters outside `[a-z0-9]` it starts with. */
  function SkipRun(s: string): (r: string)
    ensures |r| <= |s| && r == s[|s| - |r|..]
    ensures r == [] || IsSlugChar(r[0])
    ensures forall k :: 0 <= k < |s| - |r| ==> !IsSlugChar(s[k])
  {
    if s != [] && !IsSlugChar(s[0]) then
      var r := SkipRun(s[1..]);
      assert s[1..][|s| - 1 - |r|..] == s[|s| - |r|..];
      assert forall k :: 1 <= k < |s| - |r| ==> s[k] == s[1..][k - 1];
      r
    else s
  }

  /** `s.replace(/[^a-z0-9]+/g, "-")`: every run of characters outside
      `[a-z0-9]` becomes one `-`. */
  function Collapse(s: string): (r: string)
    ensures s == [] <==> r == []
    ensures s != [] && IsSlugChar(s[0]) ==> r[0] == s[0]
    ensures s != [] && !IsSlugChar(s[0]) ==> r[0] == '-'
    decreases |s|
  {
    if s == [] then []
    else if IsSlugChar(s[0]) then [s[0]] + Collapse(s[1..])
    else "-" + Collapse(SkipRun(s[1..]))
  }

  /** The key a heading title becomes: lower-cased, then collapsed. */
  function Slug(title: string): string
  {
    Collapse(Lower(title))
  }

  /** Text made of `a-z`, `0-9` and `-` only. */
  predicate IsSlugText(s: string)
  {
    forall k :: 0 <= k < |s| ==> IsSlugChar(s[k]) || s[k] == '-'
  }

  /** Text in which no `-` follows another. */
  predicate NoDoubleDash(s: string)
  {
    forall k :: 0 <= k < |s| - 1 ==> !(s[k] == '-' && s[k + 1] == '-')
  }

  /** The characters of `s` in `[a-z0-9]`, in order. */
  function SlugChars(s: string): string
  {
    if s == [] then []
    else (if IsSlugChar(s[0]) then [s[0]] else []) + SlugChars(s[1..])
  }

  /** The state of the scan: `sections`, `current` (`None` for `null`) and
      `buffer`. */
  datatype Scan = Scan(sections: map<string, string>, current: Option<string>, buffer: seq<string>)

  /** Whether `current` is truthy: set, and not the empty string. */
  predicate Truthy(current: Option<string>)
  {
    current.Some? && current.value != ""
  }

  /** The property name `sections[current]` writes: `null` becomes `"null"`. */
  function KeyOf(current: Option<string>): string
  {
    match current
    case None => "null"
    case Some(key) => key
  }

  /** `sections[key] = buffer.join("\n").trim()` */
  function Store(sections: map<string, string>, key: string, buffer: seq<string>): map<string, string>
  {
    sections[key := Trim(JoinLines(buffer))]
  }

  /** `if (buffer.length && current) { sections[current] = ...; buffer = []; }` */
  function Settle(sc: Scan): Scan
  {
    if sc.buffer != [] && Truthy(sc.current) then Scan(Store(sc.sections, sc.current.value, sc.buffer), sc.current, [])
    else sc
  }

  /** What the loop body takes a line for, the tests applied in the
      source's order; a heading or numbered line comes with the key it
      makes. */
  datatype LineKind = RuleLine | HeadingLine(key: string) | NumberedLine(key: string) | TextLine

  function Classify(line: string): LineKind
  {
    if IsRule(line) then RuleLine
    else if IsHeading(line) then HeadingLine(Slug(HeadingTitle(line)))
    else if IsNumbered(line) then NumberedLine(Slug(NumberedTitle(line)))
    else TextLine
  }

  /** One turn of the loop body. */
  function Step(sc: Scan, line: string): Scan
  {
    match Classify(line)
    case RuleLine =>
      Scan(if sc.buffer != [] then Store(sc.sections, KeyOf(sc.current), sc.buffer) else sc.sections, None, [])
    case HeadingLine(key) =>
      Settle(sc).(current := Some(key))
    case NumberedLine(key) =>
      var settled := Settle(sc);
      settled.(current := Some(key), buffer := settled.buffer + [line])
    case TextLine =>
      sc.(buffer := sc.buffer + [line])
  }

  /** The state before the first line: `current = "summary"`. */
  const Start: Scan := Scan(map[], Some("summary"), [])

  /** The state after the lines of `lines` from index `i` on, from the
      state `sc`. */
  function ScanFrom(sc: Scan, lines: seq<string>, i: nat): Scan
    decreases |lines| - i
  {
    if i >= |lines| then sc else ScanFrom(Step(sc, lines[i]), lines, i + 1)
  }

  /** The sections of a text with lines `lines`: the scan, then the last
      flush after the loop. */
  function SectionsOfLines(lines: seq<string>): map<string, string>
  {
    Settle(ScanFrom(Start, lines, 0)).sections
  }

  /** What `parseSections(text)` returns; `None` stands for `null` or
      `undefined`. */
  function SectionsOf(text: Option<string>): map<string, string>
  {
    if text.None? || text.value == "" then map[]
    else SectionsOfLines(SplitLines(text.value))
  }

  /** `parseSections(text)` */
  method ParseSections(text: Option<string>) returns (sections: map<string, string>)
    ensures sections == SectionsOf(text)
  {
    if text.None? || text.value == "" {
      return map[];
    }
    sections := map[];
    var current: Option<string> := Some("summary");
    var buffer: seq<string> := [];
    var lines := SplitLines(text.value);
    for i := 0 to |lines|
      invariant ScanFrom(Scan(sections, current, buffer), lines, i) == ScanFrom(Start, lines, 0)
    {
      var line := lines[i];
      ghost var before := Scan(sections, current, buffer);
      assert ScanFrom(before, lines, i) == ScanFrom(Step(before, line), lines, i + 1);
      if IsRule(line) {
        StepRule(before, line);
        if |buffer| > 0 {
          sections := sections[KeyOf(current) := Trim(JoinLines(buffer))];
          buffer := [];
        }
        current := None;
      } else if IsHeading(line) {
        StepHeading(before, line);
        if |buffer| > 0 && Truthy(current) {
          sections := sections[current.value := Trim(JoinLines(buffer))];
          buffer := [];
        }
        current := Some(Slug(HeadingTitle(line)));
      } else if IsNumbered(line) {
        StepNumbered(before, line);
        if |buffer| > 0 && Truthy(current) {
          sections := sections[current.value := Trim(JoinLines(buffer))];
          buffer := [];
        }
        current := Some(Slug(NumberedTitle(line)));
        buffer := buffer + [line];
      } else {
        StepText(before, line);
        buffer := buffer + [line];
      }
      assert Scan(sections, current, buffer) == Step(before, line);
    }
    if |buffer| > 0 && Truthy(current) {
      sections := sections[current.value := Trim(JoinLines(buffer))];
    }
  }

  /** The first index from `i` on whose character a `.` matches. */
  function FirstVisible(line: string, i: nat): (j: nat)
    requires exists j :: i <= j < |line| && !IsLineTerminator(line[j])
    ensures i <= j < |line| && !IsLineTerminator(line[j])
    ensures forall k :: i <= k < j ==> IsLineTerminator(line[k])
    decreases |line| - i
  {
    if !IsLineTerminator(line[i]) then i else FirstVisible(line, i + 1)
  }

  /** The heading test of the scan is the regular expression's: the white
      space `\s*` may take the line terminators before the first character
      `.` matches, so only a `#` first and such a character after it count. */
  lemma HeadingTest(line: string)
    ensures HeadingPattern(line) <==> IsHeading(line)
  {
    if HeadingPattern(line) {
      var a: nat, b: nat :| HeadingSplit(line, a, b);
      assert 1 <= b < |line| && !IsLineTerminator(line[b]);
    }
    if IsHeading(line) {
      var b := FirstVisible(line, 1);
      forall k | 1 <= k < b ensures IsSpace(line[k]) {
        LineTerminatorIsSpace(line[k]);
      }
      assert HeadingSplit(line, 1, b);
    }
  }

  /** `/^\d+\.\s+/` as the regular expression reads: digits up to `d`, a
      `.`, and at least one white-space character. */
  predicate NumberedSplit(line: string, d: nat)
  {
    && 1 <= d && d + 1 < |line|
    && (forall k :: 0 <= k < d ==> IsDigit(line[k]))
    && line[d] == '.' && IsSpace(line[d + 1])
  }

  /** The numbered test of the scan is the regular expression's: the digits
      before the `.` are exactly the leading digits. */
  lemma NumberedTest(line: string)
    ensures IsNumbered(line) <==> exists d: nat :: NumberedSplit(line, d)
  {
    if exists d: nat :: NumberedSplit(line, d) {
      var d: nat :| NumberedSplit(line, d);
      var n := LeadingDigits(line);
      if d < n {
        assert IsDigit(line[d]);
      }
    }
    if IsNumbered(line) {
      assert NumberedSplit(line, LeadingDigits(line));
    }
  }

  /** A key a heading or numbered line makes holds only `a-z`, `0-9` and
      `-`, and never two `-` in a row. */
  lemma {:induction false} CollapseShape(s: string)
    ensures IsSlugText(Collapse(s)) && NoDoubleDash(Collapse(s))
    decreases |s|
  {
    if s != [] {
      if IsSlugChar(s[0]) {
        CollapseShape(s[1..]);
      } else {
        var rest := SkipRun(s[1..]);
        CollapseShape(rest);
        var r := Collapse(s);
        assert r == "-" + Collapse(rest);
        forall k | 0 <= k < |r| - 1 ensures !(r[k] == '-' && r[k + 1] == '-') {
          if k == 0 {
            assert r[1] == Collapse(rest)[0];
          } else {
            assert r[k] == Collapse(rest)[k - 1] && r[k + 1] == Collapse(rest)[k];
          }
        }
      }
    }
  }

  lemma {:induction false} SlugCharsAppend(a: string, b: string)
    ensures SlugChars(a + b) == SlugChars(a) + SlugChars(b)
  {
    if a != [] {
      assert (a + b)[1..] == a[1..] + b;
      SlugCharsAppend(a[1..], b);
    } else {
      assert a + b == b;
    }
  }

  lemma {:induction false} SkipRunKeepsSlugChars(s: string)
    ensures SlugChars(SkipRun(s)) == SlugChars(s)
  {
    if s != [] && !IsSlugChar(s[0]) {
      SkipRunKeepsSlugChars(s[1..]);
    }
  }

  /** Collapsing loses none of the characters in `[a-z0-9]` and adds none:
      only the other characters are replaced. */
  lemma {:induction false} CollapseKeepsSlugChars(s: string)
    ensures SlugChars(Collapse(s)) == SlugChars(s)
    decreases |s|
  {
    if s != [] {
      if IsSlugChar(s[0]) {
        CollapseKeepsSlugChars(s[1..]);
        SlugCharsAppend([s[0]], Collapse(s[1..]));
      } else {
        var rest := SkipRun(s[1..]);
        CollapseKeepsSlugChars(rest);
        SkipRunKeepsSlugChars(s[1..]);
        SlugCharsAppend("-", Collapse(rest));
      }
    }
  }

  /** Text that is already a key stays as it is. */
  lemma {:induction false} CollapseFixes(s: string)
    requires IsSlugText(s) && NoDoubleDash(s)
    ensures Collapse(s) == s
    decreases |s|
  {
    if s != [] {
      assert IsSlugText(s[1..]) && NoDoubleDash(s[1..]) by {
        assert forall k :: 0 <= k < |s[1..]| ==> s[1..][k] == s[k + 1];
      }
      CollapseFixes(s[1..]);
      if !IsSlugChar(s[0]) {
        assert s[1..] == [] || IsSlugChar(s[1]);
        assert SkipRun(s[1..]) == s[1..];
      }
    }
  }

  /** Collapsing twice is collapsing once. */
  lemma CollapseIdempotent(s: string)
    ensures Collapse(Collapse(s)) == Collapse(s)
  {
    CollapseShape(s);
    CollapseFixes(Collapse(s));
  }

  /** Skipping from the start of a run of characters outside `[a-z0-9]`
      stops exactly where the run ends. */
  lemma {:induction false} SkipRunOver(run: string, s: string)
    requires forall k :: 0 <= k < |run| ==> !IsSlugChar(run[k])
    requires s == [] || IsSlugChar(s[0])
    ensures SkipRun(run + s) == s
    decreases |run|
  {
    if run == [] {
      assert run + s == s;
    } else {
      assert (run + s)[0] == run[0] && (run + s)[1..] == run[1..] + s;
      SkipRunOver(run[1..], s);
    }
  }

  /** A run of characters outside `[a-z0-9]`, however long, at the start
      becomes one `-`. */
  lemma CollapseRun(run: string, s: string)
    requires run != [] && forall k :: 0 <= k < |run| ==> !IsSlugChar(run[k])
    requires s == [] || IsSlugChar(s[0])
    ensures Collapse(run + s) == "-" + Collapse(s)
  {
    SkipRunOver(run, s);
    CollapseAfterRun(run + s, s);
  }

  /** One unfolding of the replacement at a character outside `[a-z0-9]`. */
  lemma CollapseAfterRun(t: string, s: string)
    requires t != [] && !IsSlugChar(t[0]) && SkipRun(t) == s
    ensures Collapse(t) == "-" + Collapse(s)
  {
  }

  /** One unfolding of the replacement at a character of `[a-z0-9]`. */
  lemma CollapseAfterSlugChar(t: string)
    requires t != [] && IsSlugChar(t[0])
    ensures Collapse(t) == [t[0]] + Collapse(t[1..])
  {
  }

  /** A word of `[a-z0-9]` characters at the start is kept as it is. */
  lemma {:induction false} CollapseKeepsWord(w: string, u: string)
    requires forall k :: 0 <= k < |w| ==> IsSlugChar(w[k])
    ensures Collapse(w + u) == w + Collapse(u)
    decreases |w|
  {
    if w == [] {
      assert w + u == u;
    } else {
      var t := w + u;
      assert t[0] == w[0] && t[1..] == w[1..] + u;
      CollapseAfterSlugChar(t);
      CollapseKeepsWord(w[1..], u);
      assert [w[0]] + (w[1..] + Collapse(u)) == w + Collapse(u);
    }
  }

  /** The replacement works word by word: a word of `[a-z0-9]` characters is
      kept as it is, and the whole run of other characters after it, however
      long, becomes one `-` in its place. */
  lemma CollapseWordRun(w: string, run: string, s: string)
    requires forall k :: 0 <= k < |w| ==> IsSlugChar(w[k])
    requires run != [] && forall k :: 0 <= k < |run| ==> !IsSlugChar(run[k])
    requires s == [] || IsSlugChar(s[0])
    ensures Collapse(w + run + s) == w + "-" + Collapse(s)
  {
    assert w + run + s == w + (run + s);
    CollapseKeepsWord(w, run + s);
    CollapseRun(run, s);
    assert w + ("-" + Collapse(s)) == w + "-" + Collapse(s);
  }

  /** Lines that go into a stored value: at least one, each a line of the
      text and neither a `---` rule nor a heading. */
  predicate BodyOf(body: seq<string>, lines: seq<string>)
  {
    body != [] && forall i :: 0 <= i < |body| ==> body[i] in lines && !IsRule(body[i]) && !IsHeading(body[i])
  }

  /** A stored value: the trimmed join of some body lines. */
  ghost predicate FromBody(value: string, lines: seq<string>)
  {
    exists body :: BodyOf(body, lines) && value == Trim(JoinLines(body))
  }

  /** What holds of the scan state after the lines `lines` of `all`. */
  ghost predicate Sound(sc: Scan, all: seq<string>)
  {
    && (forall k :: k in sc.sections ==> IsSlugText(k) && NoDoubleDash(k) && FromBody(sc.sections[k], all))
    && (sc.current.Some? ==> IsSlugText(sc.current.value) && NoDoubleDash(sc.current.value))
    && (forall i :: 0 <= i < |sc.buffer| ==> sc.buffer[i] in all && !IsRule(sc.buffer[i]) && !IsHeading(sc.buffer[i]))
  }

  lemma SoundStore(sc: Scan, key: string, all: seq<string>)
    requires Sound(sc, all) && sc.buffer != []
    requires IsSlugText(key) && NoDoubleDash(key)
    ensures Sound(Scan(Store(sc.sections, key, sc.buffer), sc.current, []), all)
  {
    var stored := Store(sc.sections, key, sc.buffer);
    forall k | k in stored ensures IsSlugText(k) && NoDoubleDash(k) && FromBody(stored[k], all) {
      if k == key {
        assert BodyOf(sc.buffer, all) && stored[k] == Trim(JoinLines(sc.buffer));
      } else {
        assert stored[k] == sc.sections[k];
      }
    }
  }

  lemma SlugShape(title: string)
    ensures IsSlugText(Slug(title)) && NoDoubleDash(Slug(title))
  {
    CollapseShape(Lower(title));
  }

  lemma SettleSound(sc: Scan, all: seq<string>)
    requires Sound(sc, all)
    ensures Sound(Settle(sc), all)
  {
    if sc.buffer != [] && Truthy(sc.current) {
      SoundStore(sc, sc.current.value, all);
    }
  }

  lemma SoundAppend(sc: Scan, line: string, all: seq<string>)
    requires Sound(sc, all) && line in all && !IsRule(line) && !IsHeading(line)
    ensures Sound(sc.(buffer := sc.buffer + [line]), all)
  {
    var b := sc.buffer + [line];
    forall i | 0 <= i < |b| ensures b[i] in all && !IsRule(b[i]) && !IsHeading(b[i]) {
      if i < |sc.buffer| {
        assert b[i] == sc.buffer[i];
      }
    }
  }

  lemma StepSound(sc: Scan, line: string, all: seq<string>)
    requires Sound(sc, all) && line in all
    ensures Sound(Step(sc, line), all)
  {
    if IsRule(line) {
      RuleSound(sc, line, all);
    } else if IsHeading(line) {
      HeadingSound(sc, line, all);
    } else if IsNumbered(line) {
      NumberedSound(sc, line, all);
    } else {
      StepText(sc, line);
      SoundAppend(sc, line, all);
    }
  }

  lemma RuleSound(sc: Scan, line: string, all: seq<string>)
    requires Sound(sc, all) && IsRule(line)
    ensures Sound(Step(sc, line), all)
  {
    StepRule(sc, line);
    if sc.buffer != [] {
      KeyOfShape(sc.current);
      SoundStore(sc, KeyOf(sc.current), all);
      assert Step(sc, line) == Scan(Store(sc.sections, KeyOf(sc.current), sc.buffer), sc.current, []).(current := None);
    } else {
      assert Step(sc, line) == sc.(current := None);
    }
  }

  /** The key a `---` stores under is a slug: `current`, or `"null"`. */
  lemma KeyOfShape(current: Option<string>)
    requires current.Some? ==> IsSlugText(current.value) && NoDoubleDash(current.value)
    ensures IsSlugText(KeyOf(current)) && NoDoubleDash(KeyOf(current))
  {
    if current.None? {
      var n := "null";
      assert n[0] == 'n' && n[1] == 'u' && n[2] == 'l' && n[3] == 'l' && |n| == 4;
    }
  }

  lemma HeadingSound(sc: Scan, line: string, all: seq<string>)
    requires Sound(sc, all) && !IsRule(line) && IsHeading(line)
    ensures Sound(Step(sc, line), all)
  {
    StepHeading(sc, line);
    SettleSound(sc, all);
    SlugShape(HeadingTitle(line));
  }

  lemma NumberedSound(sc: Scan, line: string, all: seq<string>)
    requires Sound(sc, all) && line in all && !IsRule(line) && !IsHeading(line) && IsNumbered(line)
    ensures Sound(Step(sc, line), all)
  {
    StepNumbered(sc, line);
    SettleSound(sc, all);
    SlugShape(NumberedTitle(line));
    SoundAppend(Settle(sc).(current := Some(Slug(NumberedTitle(line)))), line, all);
  }

  // The four branches of the loop body, each in the source's order.

  lemma StepRule(sc: Scan, line: string)
    requires IsRule(line)
    ensures Step(sc, line) == Scan(if sc.buffer != [] then Store(sc.sections, KeyOf(sc.current), sc.buffer) else sc.sections, None, [])
  {
  }

  lemma StepHeading(sc: Scan, line: string)
    requires !IsRule(line) && IsHeading(line)
    ensures Step(sc, line) == Settle(sc).(current := Some(Slug(HeadingTitle(line))))
  {
  }

  lemma StepNumbered(sc: Scan, line: string)
    requires !IsRule(line) && !IsHeading(line) && IsNumbered(line)
    ensures Step(sc, line) == Settle(sc).(current := Some(Slug(NumberedTitle(line))), buffer := Settle(sc).buffer + [line])
  {
  }

  lemma StepText(sc: Scan, line: string)
    requires !IsRule(line) && !IsHeading(line) && !IsNumbered(line)
    ensures Step(sc, line) == sc.(buffer := sc.buffer + [line])
  {
  }

  lemma {:induction false} ScanFromSound(sc: Scan, lines: seq<string>, i: nat)
    requires Sound(sc, lines)
    ensures Sound(ScanFrom(sc, lines, i), lines)
    decreases |lines| - i
  {
    if i < |lines| {
      StepSound(sc, lines[i], lines);
      ScanFromSound(Step(sc, lines[i]), lines, i + 1);
    }
  }

  /** Every key `parseSections` returns holds only `a-z`, `0-9` and `-`,
      with no two `-` in a row, and every value is the trimmed join of at
      least one line of the text, none of them a `---` rule or a heading:
      an empty buffer stores nothing, and marker lines other than numbered
      ones are never part of a section. */
  lemma SectionsShape(text: string)
    ensures forall k :: k in SectionsOf(Some(text)) ==>
              IsSlugText(k) && NoDoubleDash(k) && FromBody(SectionsOf(Some(text))[k], SplitLines(text))
  {
    if text != "" {
      ScanSound(SplitLines(text));
    }
  }

  lemma ScanSound(lines: seq<string>)
    ensures Sound(Settle(ScanFrom(Start, lines, 0)), lines)
  {
    assert IsSlugText("summary") && NoDoubleDash("summary");
    assert Sound(Start, lines);
    ScanFromSound(Start, lines, 0);
    SettleSound(ScanFrom(Start, lines, 0), lines);
  }

  /** Stored values carry no leading or trailing white space. */
  lemma ValuesTrimmed(text: Option<string>)
    ensures forall k :: k in SectionsOf(text) ==>
              SectionsOf(text)[k] == [] || (!IsSpace(SectionsOf(text)[k][0]) && !IsSpace(SectionsOf(text)[k][|SectionsOf(text)[k]| - 1]))
  {
    if text.Some? && text.value != "" {
      SectionsShape(text.value);
      forall k | k in SectionsOf(text)
        ensures SectionsOf(text)[k] == [] || (!IsSpace(SectionsOf(text)[k][0]) && !IsSpace(SectionsOf(text)[k][|SectionsOf(text)[k]| - 1]))
      {
        var body :| BodyOf(body, SplitLines(text.value)) && SectionsOf(text)[k] == Trim(JoinLines(body));
      }
    }
  }

  /** A line that is no marker. */
  predicate Plain(line: string)
  {
    !IsRule(line) && !IsHeading(line) && !IsNumbered(line)
  }

  lemma SliceCons<T>(s: seq<T>, i: nat)
    requires i < |s|
    ensures [s[i]] + s[i + 1..] == s[i..]
  {
  }

  lemma {:induction false} PlainScanned(sc: Scan, lines: seq<string>, i: nat)
    requires i <= |lines|
    requires forall k :: i <= k < |lines| ==> Plain(lines[k])
    ensures ScanFrom(sc, lines, i) == sc.(buffer := sc.buffer + lines[i..])
    decreases |lines| - i
  {
    if i < |lines| {
      assert Plain(lines[i]);
      var next := sc.(buffer := sc.buffer + [lines[i]]);
      assert Step(sc, lines[i]) == next;
      PlainScanned(next, lines, i + 1);
      SliceCons(lines, i);
      AppendAssoc(sc.buffer, [lines[i]], lines[i + 1..]);
    } else {
      assert sc.buffer + lines[i..] == sc.buffer;
    }
  }

  /** Reading more lines at the end goes on from where the shorter scan
      stopped. */
  lemma {:induction false} ScanFromSnoc(sc: Scan, lines: seq<string>, line: string, i: nat)
    requires i <= |lines|
    ensures ScanFrom(sc, lines + [line], i) == ScanFrom(ScanFrom(sc, lines, i), lines + [line], |lines|)
    decreases |lines| - i
  {
    var longer := lines + [line];
    if i < |lines| {
      assert longer[i] == lines[i];
      ScanFromUnfold(sc, longer, i);
      ScanFromUnfold(sc, lines, i);
      ScanFromSnoc(Step(sc, lines[i]), lines, line, i + 1);
    }
  }

  /** The last line is one turn of the loop. */
  lemma ScanFromLast(sc: Scan, lines: seq<string>)
    requires lines != []
    ensures ScanFrom(sc, lines, |lines| - 1) == Step(sc, lines[|lines| - 1])
  {
    ScanFromUnfold(sc, lines, |lines| - 1);
  }

  /** One turn of the loop, then the rest. */
  lemma ScanFromUnfold(sc: Scan, lines: seq<string>, i: nat)
    requires i < |lines|
    ensures ScanFrom(sc, lines, i) == ScanFrom(Step(sc, lines[i]), lines, i + 1)
  {
  }

  /** The lines before the first marker, when there are any, are stored
      under `"summary"` as soon as that marker is read. */
  lemma SummaryBeforeFirstMarker(before: seq<string>, marker: string)
    requires before != []
    requires forall k :: 0 <= k < |before| ==> Plain(before[k])
    requires !Plain(marker)
    ensures "summary" in ScanFrom(Start, before + [marker], 0).sections
    ensures ScanFrom(Start, before + [marker], 0).sections["summary"] == Trim(JoinLines(before))
  {
    ScanFromSnoc(Start, before, marker, 0);
    PlainScanned(Start, before, 0);
    StartBuffered(before);
    ScanFromLast(Scan(map[], Some("summary"), before), before + [marker]);
    MarkerStoresSummary(before, marker);
  }

  /** A marker read with the summary's lines in the buffer stores them. */
  lemma MarkerStoresSummary(buffer: seq<string>, marker: string)
    requires buffer != [] && !Plain(marker)
    ensures "summary" in Step(Scan(map[], Some("summary"), buffer), marker).sections
    ensures Step(Scan(map[], Some("summary"), buffer), marker).sections["summary"] == Trim(JoinLines(buffer))
  {
    var held := Scan(map[], Some("summary"), buffer);
    assert Truthy(held.current);
    if IsRule(marker) {
      StepRule(held, marker);
    } else if IsHeading(marker) {
      StepHeading(held, marker);
    } else {
      StepNumbered(held, marker);
    }
  }

  /** Lines read while there is no current key (after a rule) stay in the
      buffer across a heading, which only sets the new key: they end up
      stored under the heading's key with its own lines. */
  lemma OrphanLinesCarryOver(sc: Scan, orphans: seq<string>, heading: string)
    requires sc.current.None?
    requires forall k :: 0 <= k < |orphans| ==> Plain(orphans[k])
    requires !IsRule(heading) && IsHeading(heading)
    ensures ScanFrom(sc, orphans + [heading], 0)
            == Scan(sc.sections, Some(Slug(HeadingTitle(heading))), sc.buffer + orphans)
  {
    ScanFromSnoc(sc, orphans, heading, 0);
    PlainScanned(sc, orphans, 0);
    assert orphans[0..] == orphans;
    var held := sc.(buffer := sc.buffer + orphans);
    ScanFromLast(held, orphans + [heading]);
    StepHeading(held, heading);
    assert Settle(held) == held;
  }

  /** A non-empty text without marker lines is all summary: its lines joined
      with `\n` and trimmed, which is the trimmed text itself when it holds
      no carriage return. */
  lemma PlainTextIsSummary(text: string)
    requires text != ""
    requires forall i :: 0 <= i < |SplitLines(text)| ==> Plain(SplitLines(text)[i])
    ensures SectionsOf(Some(text)) == map["summary" := Trim(JoinLines(SplitLines(text)))]
    ensures '\r' !in text ==> SectionsOf(Some(text)) == map["summary" := Trim(text)]
  {
    PlainLinesAreSummary(SplitLines(text));
    if '\r' !in text {
      JoinSplitLines(text);
    }
  }

  /** Lines without markers all go into the buffer, which the final flush
      stores under `"summary"`. */
  lemma PlainLinesAreSummary(lines: seq<string>)
    requires lines != []
    requires forall i :: 0 <= i < |lines| ==> Plain(lines[i])
    ensures SectionsOfLines(lines) == map["summary" := Trim(JoinLines(lines))]
  {
    PlainScanned(Start, lines, 0);
    StartBuffered(lines);
    SettleSome(map[], "summary", lines);
  }

  lemma StartBuffered(lines: seq<string>)
    ensures Start.(buffer := Start.buffer + lines[0..]) == Scan(map[], Some("summary"), lines)
  {
    assert [] + lines[0..] == lines;
  }

  /** The final flush under a non-empty key. */
  lemma SettleSome(m: map<string, string>, key: string, buffer: seq<string>)
    requires key != "" && buffer != []
    ensures Settle(Scan(m, Some(key), buffer)).sections == m[key := Trim(JoinLines(buffer))]
  {
    assert Truthy(Some(key));
    assert Settle(Scan(m, Some(key), buffer)) == Scan(Store(m, key, buffer), Some(key), []);
  }

  /** Falsy text gives no sections. */
  lemma FalsyTextNoSections(text: Option<string>)
    requires text.None? || text == Some("")
    ensures SectionsOf(text) == map[]
  {
  }

  /** The sections of a text written line by line are those of its lines. */
  lemma SectionsOfJoinedLines(lines: seq<string>)
    requires lines != [] && JoinLines(lines) != ""
    requires forall k :: 0 <= k < |lines| ==> '\n' !in lines[k] && '\r' !in lines[k]
    ensures SectionsOf(Some(JoinLines(lines))) == SectionsOfLines(lines)
  {
    SplitJoinLines(lines);
  }

  lemma HeadingNotRule(line: string)
    requires IsHeading(line)
    ensures !IsRule(line)
  {
    assert TrimStart(line) == line;
    if TrimEnd(line) != [] {
      assert Trim(line)[0] == '#';
    }
  }

  lemma NumberedNotRuleOrHeading(line: string)
    requires IsNumbered(line)
    ensures !IsRule(line) && !IsHeading(line)
  {
    assert IsDigit(line[0]);
    assert TrimStart(line) == line;
    if TrimEnd(line) != [] {
      assert Trim(line)[0] == line[0];
    }
  }

}
