/** Worked runs of `parseSections` over a few lines whose kinds are given:
    how lines after a `---` travel, what `"null"` holds, what is dropped and
    what a repeated key keeps. Each run is taken one line at a time, through
    the step lemmas at the end of the module. */
module SectionRuns {
  import opened Wrappers
  import opened Text
  import opened Sections

  /** Lines after a `---` are not flushed by the next heading: they become
      the start of the heading's section. */
  lemma OrphanLinesJoinNextSection(intro: string, rule: string, notes: string, heading: string, body: string, key: string)
    requires Classify(intro) == TextLine && Classify(rule) == RuleLine && Classify(notes) == TextLine
    requires Classify(heading) == HeadingLine(key) && Classify(body) == TextLine
    requires key != ""
    ensures SectionsOfLines([intro, rule, notes, heading, body])
            == map["summary" := Trim(intro), key := Trim(notes + "\n" + body)]
  {
    var m := map["summary" := Trim(intro)];
    var s1 := Scan(map[], Some("summary"), [intro]);
    var s2 := Scan(m, None, []);
    var s3 := Scan(m, None, [notes]);
    var s4 := Scan(m, Some(key), [notes]);
    var s5 := Scan(m, Some(key), [notes] + [body]);
    FirstOfBuffer(Start, intro);
    RuleFlushOne(map[], Some("summary"), intro, rule);
    FirstOfBuffer(s2, notes);
    HeadingHeld(m, [notes], heading, key);
    NextOfBuffer(s4, body);
    ScanFive(intro, rule, notes, heading, body, s1, s2, s3, s4, s5);
    SettleTwo(m, key, notes, body);
  }

  /** Lines gathered after a `---` and flushed by another `---` are stored
      under the key `"null"`. */
  lemma OrphanLinesStoredUnderNull(intro: string, rule1: string, notes: string, rule2: string)
    requires Classify(intro) == TextLine && Classify(rule1) == RuleLine
    requires Classify(notes) == TextLine && Classify(rule2) == RuleLine
    ensures SectionsOfLines([intro, rule1, notes, rule2]) == map["summary" := Trim(intro), "null" := Trim(notes)]
  {
    var m := map["summary" := Trim(intro)];
    var s1 := Scan(map[], Some("summary"), [intro]);
    var s2 := Scan(m, None, []);
    var s3 := Scan(m, None, [notes]);
    var s4 := Scan(m["null" := Trim(notes)], None, []);
    FirstOfBuffer(Start, intro);
    RuleFlushOne(map[], Some("summary"), intro, rule1);
    FirstOfBuffer(s2, notes);
    RuleFlushOne(m, None, notes, rule2);
    ScanFour(intro, rule1, notes, rule2, s1, s2, s3, s4);
  }

  /** Lines after the last `---` that no heading or numbered line follows
      are dropped: the final flush needs a truthy `current`. */
  lemma LinesAfterLastRuleDropped(intro: string, rule: string, tail: string)
    requires Classify(intro) == TextLine && Classify(rule) == RuleLine && Classify(tail) == TextLine
    ensures SectionsOfLines([intro, rule, tail]) == map["summary" := Trim(intro)]
  {
    var m := map["summary" := Trim(intro)];
    var s1 := Scan(map[], Some("summary"), [intro]);
    var s2 := Scan(m, None, []);
    var s3 := Scan(m, None, [tail]);
    FirstOfBuffer(Start, intro);
    RuleFlushOne(map[], Some("summary"), intro, rule);
    FirstOfBuffer(s2, tail);
    ScanThree(intro, rule, tail, s1, s2, s3);
  }

  /** A second section with the same key replaces the first; a text that
      starts with a heading has no `"summary"`. */
  lemma RepeatedKeyOverwrites(h1: string, x: string, h2: string, y: string, key: string)
    requires Classify(h1) == HeadingLine(key) && Classify(x) == TextLine
    requires Classify(h2) == HeadingLine(key) && Classify(y) == TextLine
    requires key != ""
    ensures SectionsOfLines([h1, x, h2, y]) == map[key := Trim(y)]
  {
    var m := map[key := Trim(x)];
    var s1 := Scan(map[], Some(key), []);
    var s2 := Scan(map[], Some(key), [x]);
    var s3 := Scan(m, Some(key), []);
    var s4 := Scan(m, Some(key), [y]);
    OpeningHeading(h1, key);
    FirstOfBuffer(s1, x);
    HeadingFlushOne(map[], key, x, h2, key);
    FirstOfBuffer(s3, y);
    ScanFour(h1, x, h2, y, s1, s2, s3, s4);
    SettleSome(m, key, [y]);
    assert JoinLines([y]) == y;
    MapOverwrite(map[], key, Trim(x), Trim(y));
  }

  /** A numbered line opens its section and is kept as its first line. */
  lemma NumberedLineOpensSection(intro: string, n: string, x: string, key: string)
    requires Classify(intro) == TextLine && Classify(n) == NumberedLine(key) && Classify(x) == TextLine
    requires key != ""
    ensures SectionsOfLines([intro, n, x]) == map["summary" := Trim(intro), key := Trim(n + "\n" + x)]
  {
    var m := map["summary" := Trim(intro)];
    var s1 := Scan(map[], Some("summary"), [intro]);
    var s2 := Scan(m, Some(key), [n]);
    var s3 := Scan(m, Some(key), [n] + [x]);
    FirstOfBuffer(Start, intro);
    NumberedFlushOne(map[], "summary", intro, n, key);
    NextOfBuffer(s2, x);
    ScanThree(intro, n, x, s1, s2, s3);
    SettleTwo(m, key, n, x);
  }

  /** A heading whose key is empty (a line of `#` characters followed only
      by white space, such as `# ` or `##`) is falsy: nothing is stored under
      it, and the lines under it that end the text are dropped. */
  lemma EmptyKeyLosesLines(h: string, x: string)
    requires Classify(h) == HeadingLine("") && Classify(x) == TextLine
    ensures SectionsOfLines([h, x]) == map[]
  {
    var s1 := Scan(map[], Some(""), []);
    var s2 := Scan(map[], Some(""), [x]);
    OpeningHeading(h, "");
    FirstOfBuffer(s1, x);
    ScanTwo(h, x, s1, s2);
  }

  // One line at a time.

  /** A heading as the first line only sets the key. */
  lemma OpeningHeading(line: string, key: string)
    requires Classify(line) == HeadingLine(key)
    ensures Step(Start, line) == Scan(map[], Some(key), [])
  {
    assert Settle(Start) == Start;
  }

  /** A line of text starts an empty buffer. */
  lemma FirstOfBuffer(sc: Scan, line: string)
    requires Classify(line) == TextLine && sc.buffer == []
    ensures Step(sc, line) == sc.(buffer := [line])
  {
    assert sc.buffer + [line] == [line];
  }

  /** A line of text joins the buffer. */
  lemma NextOfBuffer(sc: Scan, line: string)
    requires Classify(line) == TextLine
    ensures Step(sc, line) == sc.(buffer := sc.buffer + [line])
  {
  }

  /** A `---` stores a one-line buffer under the key of `current` and
      clears `current`. */
  lemma RuleFlushOne(m: map<string, string>, current: Option<string>, pending: string, line: string)
    requires Classify(line) == RuleLine
    ensures Step(Scan(m, current, [pending]), line) == Scan(m[KeyOf(current) := Trim(pending)], None, [])
  {
    assert JoinLines([pending]) == pending;
  }

  /** A heading after a `---` sets the key and keeps the buffer. */
  lemma HeadingHeld(m: map<string, string>, buffer: seq<string>, line: string, key: string)
    requires Classify(line) == HeadingLine(key)
    ensures Step(Scan(m, None, buffer), line) == Scan(m, Some(key), buffer)
  {
  }

  /** A heading stores a one-line buffer under a non-empty key. */
  lemma HeadingFlushOne(m: map<string, string>, current: string, pending: string, line: string, key: string)
    requires Classify(line) == HeadingLine(key) && current != ""
    ensures Step(Scan(m, Some(current), [pending]), line) == Scan(m[current := Trim(pending)], Some(key), [])
  {
    assert JoinLines([pending]) == pending;
  }

  /** A numbered line stores a one-line buffer under a non-empty key and
      starts the new buffer with itself. */
  lemma NumberedFlushOne(m: map<string, string>, current: string, pending: string, line: string, key: string)
    requires Classify(line) == NumberedLine(key) && current != ""
    ensures Step(Scan(m, Some(current), [pending]), line) == Scan(m[current := Trim(pending)], Some(key), [line])
  {
    assert JoinLines([pending]) == pending;
    assert [] + [line] == [line];
  }

  /** The final flush of a two-line buffer under a non-empty key. */
  lemma SettleTwo(m: map<string, string>, key: string, a: string, b: string)
    requires key != ""
    ensures Settle(Scan(m, Some(key), [a] + [b])).sections == m[key := Trim(a + "\n" + b)]
  {
    SettleSome(m, key, [a] + [b]);
    JoinTwo(a, b);
  }

  lemma JoinTwo(a: string, b: string)
    ensures JoinLines([a] + [b]) == a + "\n" + b
  {
    assert ([a] + [b])[1..] == [b];
  }

  lemma MapOverwrite<K, V>(m: map<K, V>, k: K, v1: V, v2: V)
    ensures m[k := v1][k := v2] == m[k := v2]
  {
  }

  lemma Advance(sc: Scan, lines: seq<string>, i: nat)
    requires i < |lines|
    ensures ScanFrom(sc, lines, i) == ScanFrom(Step(sc, lines[i]), lines, i + 1)
  {
  }

  // Runs of two to five lines through the states of their steps.

  lemma ScanTwo(l0: string, l1: string, s1: Scan, s2: Scan)
    requires Step(Start, l0) == s1 && Step(s1, l1) == s2
    ensures ScanFrom(Start, [l0, l1], 0) == s2
  {
    var lines := [l0, l1];
    Advance(Start, lines, 0);
    Advance(s1, lines, 1);
    assert ScanFrom(s2, lines, 2) == s2;
  }

  lemma ScanThree(l0: string, l1: string, l2: string, s1: Scan, s2: Scan, s3: Scan)
    requires Step(Start, l0) == s1 && Step(s1, l1) == s2 && Step(s2, l2) == s3
    ensures ScanFrom(Start, [l0, l1, l2], 0) == s3
  {
    var lines := [l0, l1, l2];
    Advance(Start, lines, 0);
    Advance(s1, lines, 1);
    Advance(s2, lines, 2);
    assert ScanFrom(s3, lines, 3) == s3;
  }

  lemma ScanFour(l0: string, l1: string, l2: string, l3: string, s1: Scan, s2: Scan, s3: Scan, s4: Scan)
    requires Step(Start, l0) == s1 && Step(s1, l1) == s2
    requires Step(s2, l2) == s3 && Step(s3, l3) == s4
    ensures ScanFrom(Start, [l0, l1, l2, l3], 0) == s4
  {
    var lines := [l0, l1, l2, l3];
    Advance(Start, lines, 0);
    Advance(s1, lines, 1);
    Advance(s2, lines, 2);
    Advance(s3, lines, 3);
    assert ScanFrom(s4, lines, 4) == s4;
  }

  lemma ScanFive(l0: string, l1: string, l2: string, l3: string, l4: string,
                 s1: Scan, s2: Scan, s3: Scan, s4: Scan, s5: Scan)
    requires Step(Start, l0) == s1 && Step(s1, l1) == s2
    requires Step(s2, l2) == s3 && Step(s3, l3) == s4 && Step(s4, l4) == s5
    ensures ScanFrom(Start, [l0, l1, l2, l3, l4], 0) == s5
  {
    var lines := [l0, l1, l2, l3, l4];
    Advance(Start, lines, 0);
    Advance(s1, lines, 1);
    Advance(s2, lines, 2);
    Advance(s3, lines, 3);
    Advance(s4, lines, 4);
    assert ScanFrom(s5, lines, 5) == s5;
  }
}
