/** `analyzeRepo`: one walk over the clone that fills the per-language line
    table, the set of recognised folder names and the set of detected
    frameworks. The walk's callback is the body of the loop in
    `AnalyzeRepo`; `AnalyzeVisits` states what the calls so far have built. */
module Analyzer {
  import opened Wrappers
  import opened Text
  import opened FileTree
  import opened Language

  /** The recognised folder names, compared with a directory's lower-cased
      base name. */
  const FolderNames: seq<string> := ["contracts", "src", "docs", "test", "lib", "public", "build", "dist"]

  /** Substring tests on a `package.json` dependency name and the framework
      each one reveals, in the order the code applies them. */
  const PackagePatterns: seq<(string, string)> :=
    [("react", "React"), ("hardhat", "Hardhat"), ("next", "Next.js"), ("vue", "Vue.js"), ("express", "Express")]

  /** Substring tests on the whole text of `requirements.txt`. */
  const RequirementsPatterns: seq<(string, string)> := [("flask", "Flask"), ("django", "Django")]

  /** The value `analyzeRepo` returns; the two sets are kept as the arrays
      `Array.from` makes of them, in insertion order. */
  datatype Analysis = Analysis(langStats: map<string, nat>, keyFolders: seq<string>, frameworks: seq<string>)

  /** `Set.prototype.add` on a set kept in insertion order. */
  function AddUnique(s: seq<string>, x: string): (r: seq<string>)
    ensures x in r && forall y :: y in r <==> y in s || y == x
    ensures NoDuplicates(s) ==> NoDuplicates(r)
  {
    if x in s then s else s + [x]
  }

  /** The framework names a table of patterns reveals in `text`. */
  ghost predicate Reveals(patterns: seq<(string, string)>, framework: string, text: string)
  {
    exists k :: 0 <= k < |patterns| && patterns[k].1 == framework && ContainsCI(text, patterns[k].0)
  }

  /** Applying a table of substring tests to one text, in order. */
  function AddMatches(frameworks: seq<string>, text: string, patterns: seq<(string, string)>): seq<string>
    decreases |patterns|
  {
    if patterns == [] then frameworks
    else
      var next := if ContainsCI(text, patterns[0].0) then AddUnique(frameworks, patterns[0].1) else frameworks;
      AddMatches(next, text, patterns[1..])
  }

  /** A table adds the frameworks whose test the text passes, each once. */
  lemma {:induction false} AddMatchesExact(frameworks: seq<string>, text: string, patterns: seq<(string, string)>)
    ensures NoDuplicates(frameworks) ==> NoDuplicates(AddMatches(frameworks, text, patterns))
    ensures forall f :: f in AddMatches(frameworks, text, patterns) <==> f in frameworks || Reveals(patterns, f, text)
    decreases |patterns|
  {
    if patterns != [] {
      var next := if ContainsCI(text, patterns[0].0) then AddUnique(frameworks, patterns[0].1) else frameworks;
      AddMatchesExact(next, text, patterns[1..]);
      forall f ensures Reveals(patterns, f, text) <==>
          (ContainsCI(text, patterns[0].0) && f == patterns[0].1) || Reveals(patterns[1..], f, text) {
        if Reveals(patterns, f, text) {
          var k :| 0 <= k < |patterns| && patterns[k].1 == f && ContainsCI(text, patterns[k].0);
          if k > 0 { assert patterns[1..][k - 1] == patterns[k]; }
        }
        if Reveals(patterns[1..], f, text) {
          var k :| 0 <= k < |patterns[1..]| && patterns[1..][k].1 == f && ContainsCI(text, patterns[1..][k].0);
          assert patterns[k + 1] == patterns[1..][k];
        }
      }
    }
  }

  /** The `Object.keys(deps).forEach` loop: every dependency name, in
      order, through the five package tests. */
  function AddDependencies(frameworks: seq<string>, deps: seq<string>): seq<string>
  {
    if deps == [] then frameworks
    else AddMatches(AddDependencies(frameworks, deps[..|deps| - 1]), deps[|deps| - 1], PackagePatterns)
  }

  /** The dependency loop adds the frameworks some dependency name reveals. */
  lemma {:induction false} AddDependenciesExact(frameworks: seq<string>, deps: seq<string>)
    ensures NoDuplicates(frameworks) ==> NoDuplicates(AddDependencies(frameworks, deps))
    ensures forall f :: f in AddDependencies(frameworks, deps) <==>
              f in frameworks || exists d :: d in deps && Reveals(PackagePatterns, f, d)
  {
    if deps != [] {
      var last := deps[|deps| - 1];
      AddDependenciesExact(frameworks, deps[..|deps| - 1]);
      AddMatchesExact(AddDependencies(frameworks, deps[..|deps| - 1]), last, PackagePatterns);
      assert deps == deps[..|deps| - 1] + [last];
    }
  }

  /** The framework detection of one file: a file named exactly
      `package.json` whose text parses, or one named `requirements.txt`
      whose text can be read. Anything that throws adds nothing. */
  function DetectFrameworks(frameworks: seq<string>, name: string, contents: Option<string>,
                            parseDeps: string -> Option<seq<string>>): seq<string>
  {
    match contents
    case None => frameworks
    case Some(text) =>
      if name == "package.json" then
        match parseDeps(text)
        case None => frameworks
        case Some(deps) => AddDependencies(frameworks, deps)
      else if name == "requirements.txt" then AddMatches(frameworks, text, RequirementsPatterns)
      else frameworks
  }

  /** The language bucket of a file. */
  function LanguageOf(v: Visit): string
  {
    GetLanguageFromExt(ExtName(v.name))
  }

  /** Adds `lines` to bucket `key`, a missing bucket counting 0. */
  function AddToBucket(stats: map<string, nat>, key: string, lines: nat): (r: map<string, nat>)
    ensures key in r && r[key] == (if key in stats then stats[key] else 0) + lines
    ensures forall k :: k != key ==> (k in r <==> k in stats) && (k in stats ==> r[k] == stats[k])
  {
    stats[key := (if key in stats then stats[key] else 0) + lines]
  }

  /** The line table after the callback calls `visits` when each file's
      lines go to the bucket `label` names for it; directories add nothing. */
  function LinesPerLabel(visits: seq<Visit>, labelOf: Visit -> string): map<string, nat>
  {
    if visits == [] then map[]
    else
      var stats := LinesPerLabel(visits[..|visits| - 1], labelOf);
      var v := visits[|visits| - 1];
      if v.DirVisit? then stats
      else AddToBucket(stats, labelOf(v), CountLines(v.contents))
  }

  /** One more call of the callback on the line table. */
  lemma LinesPerLabelStep(visits: seq<Visit>, i: nat, labelOf: Visit -> string)
    requires i < |visits|
    ensures var stats := LinesPerLabel(visits[..i], labelOf);
            LinesPerLabel(visits[..i + 1], labelOf)
            == if visits[i].DirVisit? then stats
               else AddToBucket(stats, labelOf(visits[i]), CountLines(visits[i].contents))
  {
    assert visits[..i + 1][..i] == visits[..i];
  }

  /** `langStats` after the callback calls `visits`: buckets by language. */
  function LangStatsOf(visits: seq<Visit>): map<string, nat>
  {
    LinesPerLabel(visits, LanguageOf)
  }

  /** One more call of the callback on `langStats`. */
  lemma LangStatsStep(visits: seq<Visit>, i: nat)
    requires i < |visits|
    ensures visits[i].DirVisit? ==> LangStatsOf(visits[..i + 1]) == LangStatsOf(visits[..i])
    ensures visits[i].FileVisit? ==>
              LangStatsOf(visits[..i + 1]) == AddToBucket(LangStatsOf(visits[..i]), LanguageOf(visits[i]), CountLines(visits[i].contents))
  {
    LinesPerLabelStep(visits, i, LanguageOf);
  }

  /** The key folders after the calls `visits`: a directory whose
      lower-cased name is recognised is added, a file adds nothing. */
  function KeyFoldersOf(visits: seq<Visit>): seq<string>
  {
    if visits == [] then []
    else
      var folders := KeyFoldersOf(visits[..|visits| - 1]);
      var v := visits[|visits| - 1];
      if v.DirVisit? && Lower(v.name) in FolderNames then AddUnique(folders, Lower(v.name)) else folders
  }

  /** One more call of the callback on the key folders. */
  lemma KeyFoldersStep(visits: seq<Visit>, i: nat)
    requires i < |visits|
    ensures var folders := KeyFoldersOf(visits[..i]);
            var v := visits[i];
            KeyFoldersOf(visits[..i + 1])
            == if v.DirVisit? && Lower(v.name) in FolderNames then AddUnique(folders, Lower(v.name)) else folders
  {
    assert visits[..i + 1][..i] == visits[..i];
  }

  /** The frameworks after the calls `visits`. */
  function FrameworksOf(visits: seq<Visit>, parseDeps: string -> Option<seq<string>>): seq<string>
  {
    if visits == [] then []
    else
      var frameworks := FrameworksOf(visits[..|visits| - 1], parseDeps);
      var v := visits[|visits| - 1];
      if v.DirVisit? then frameworks else DetectFrameworks(frameworks, v.name, v.contents, parseDeps)
  }

  /** One more call of the callback on the frameworks. */
  lemma FrameworksStep(visits: seq<Visit>, i: nat, parseDeps: string -> Option<seq<string>>)
    requires i < |visits|
    ensures var frameworks := FrameworksOf(visits[..i], parseDeps);
            var v := visits[i];
            FrameworksOf(visits[..i + 1], parseDeps)
            == if v.DirVisit? then frameworks else DetectFrameworks(frameworks, v.name, v.contents, parseDeps)
  {
    assert visits[..i + 1][..i] == visits[..i];
  }

  /** What the callback has built after the calls `visits`. */
  function AnalyzeVisits(visits: seq<Visit>, parseDeps: string -> Option<seq<string>>): Analysis
  {
    Analysis(LangStatsOf(visits), KeyFoldersOf(visits), FrameworksOf(visits, parseDeps))
  }

  /** The five `if` statements of the dependency loop are the package table. */
  lemma PackageTestsUnrolled(frameworks: seq<string>, dep: string)
    ensures AddMatches(frameworks, dep, PackagePatterns)
         == var f1 := if ContainsCI(dep, "react") then AddUnique(frameworks, "React") else frameworks;
            var f2 := if ContainsCI(dep, "hardhat") then AddUnique(f1, "Hardhat") else f1;
            var f3 := if ContainsCI(dep, "next") then AddUnique(f2, "Next.js") else f2;
            var f4 := if ContainsCI(dep, "vue") then AddUnique(f3, "Vue.js") else f3;
            if ContainsCI(dep, "express") then AddUnique(f4, "Express") else f4
  {
    var p := PackagePatterns;
    assert p[1..][1..][1..][1..][1..] == [];
  }

  /** The two `if` statements on `requirements.txt` are the requirements table. */
  lemma RequirementsTestsUnrolled(frameworks: seq<string>, text: string)
    ensures AddMatches(frameworks, text, RequirementsPatterns)
         == var f1 := if ContainsCI(text, "flask") then AddUnique(frameworks, "Flask") else frameworks;
            if ContainsCI(text, "django") then AddUnique(f1, "Django") else f1
  {
    var p := RequirementsPatterns;
    assert p[1..][1..] == [];
  }

  /** The framework detection in the callback, for one file. */
  method DetectFrameworksIn(frameworks: seq<string>, name: string, contents: Option<string>,
                            parseDeps: string -> Option<seq<string>>)
    returns (detected: seq<string>)
    ensures detected == DetectFrameworks(frameworks, name, contents, parseDeps)
  {
    detected := frameworks;
    if name == "package.json" && contents.Some? {
      var parsed := parseDeps(contents.value);
      if parsed.Some? {
        detected := AddDependenciesIn(detected, parsed.value);
      }
    }
    if name == "requirements.txt" && contents.Some? {
      var reqs := contents.value;
      RequirementsTestsUnrolled(detected, reqs);
      if ContainsCI(reqs, "flask") { detected := AddUnique(detected, "Flask"); }
      if ContainsCI(reqs, "django") { detected := AddUnique(detected, "Django"); }
    }
  }

  /** `Object.keys(deps).forEach(...)`: the five package tests on every
      dependency name, in order. */
  method AddDependenciesIn(frameworks: seq<string>, deps: seq<string>) returns (detected: seq<string>)
    ensures detected == AddDependencies(frameworks, deps)
  {
    detected := frameworks;
    for k := 0 to |deps|
      invariant detected == AddDependencies(frameworks, deps[..k])
    {
      assert deps[..k + 1][..k] == deps[..k];
      detected := PackageTests(detected, deps[k]);
    }
    assert deps[..|deps|] == deps;
  }

  /** The `forEach` callback: the five package tests on one dependency name. */
  method PackageTests(frameworks: seq<string>, dep: string) returns (detected: seq<string>)
    ensures detected == AddMatches(frameworks, dep, PackagePatterns)
  {
    PackageTestsUnrolled(frameworks, dep);
    detected := frameworks;
    if ContainsCI(dep, "react") { detected := AddUnique(detected, "React"); }
    if ContainsCI(dep, "hardhat") { detected := AddUnique(detected, "Hardhat"); }
    if ContainsCI(dep, "next") { detected := AddUnique(detected, "Next.js"); }
    if ContainsCI(dep, "vue") { detected := AddUnique(detected, "Vue.js"); }
    if ContainsCI(dep, "express") { detected := AddUnique(detected, "Express"); }
  }

  /** The callback's update of `langStats` for one file: a missing or zero
      bucket is set to 0, then the file's lines are added to it. */
  method AddFileLines(langStats: map<string, nat>, lang: string, lines: nat) returns (updated: map<string, nat>)
    ensures updated == AddToBucket(langStats, lang, lines)
  {
    updated := langStats;
    if lang !in updated || updated[lang] == 0 {
      updated := updated[lang := 0];
    }
    updated := updated[lang := updated[lang] + lines];
  }

  /** `analyzeRepo(dir)` over a clone whose top-level entries are `tree`.
      `parseDeps` stands for `JSON.parse` of a `package.json` followed by the
      keys of `{...dependencies, ...devDependencies}`; `None` when it throws. */
  method AnalyzeRepo(dir: string, tree: seq<Node>, parseDeps: string -> Option<seq<string>>)
    returns (analysis: Analysis)
    ensures analysis == AnalyzeVisits(Walk(dir, tree), parseDeps)
  {
    var langStats: map<string, nat> := map[];
    var keyFolders: seq<string> := [];
    var frameworks: seq<string> := [];
    var visits := Walk(dir, tree);
    for i := 0 to |visits|
      invariant langStats == LangStatsOf(visits[..i])
      invariant keyFolders == KeyFoldersOf(visits[..i])
      invariant frameworks == FrameworksOf(visits[..i], parseDeps)
    {
      LangStatsStep(visits, i);
      KeyFoldersStep(visits, i);
      FrameworksStep(visits, i, parseDeps);
      match visits[i]
      case DirVisit(_, name) =>
        var base := Lower(name);
        if base in FolderNames && base !in keyFolders {
          keyFolders := keyFolders + [base];
        }
      case FileVisit(_, name, contents) =>
        var lang := GetLanguageFromExt(ExtName(name));
        assert lang == LanguageOf(visits[i]);
        langStats := AddFileLines(langStats, lang, CountLines(contents));
        frameworks := DetectFrameworksIn(frameworks, name, contents, parseDeps);
    }
    assert visits[..|visits|] == visits;
    analysis := Analysis(langStats, keyFolders, frameworks);
  }

  // ----- Line accounting -----

  /** The sum of the values of a table. */
  ghost function SumValues(m: map<string, nat>): nat
    decreases |m|
  {
    if m == map[] then 0
    else
      var k :| k in m;
      assert |m.Keys - {k}| == |m.Keys| - 1;
      m[k] + SumValues(m - {k})
  }

  lemma {:induction false} SumValuesRemove(m: map<string, nat>, k: string)
    requires k in m
    ensures SumValues(m) == m[k] + SumValues(m - {k})
    decreases |m|
  {
    var j :| j in m && SumValues(m) == m[j] + SumValues(m - {j});
    if j != k {
      assert |(m - {j}).Keys| == |m.Keys| - 1;
      SumValuesRemove(m - {j}, k);
      SumValuesRemove(m - {k}, j);
      assert (m - {j}) - {k} == (m - {k}) - {j};
    }
  }

  /** Adding `n` to one bucket adds `n` to the sum. */
  lemma SumValuesAdd(m: map<string, nat>, k: string, n: nat)
    ensures SumValues(AddToBucket(m, k, n)) == SumValues(m) + n
  {
    var m' := AddToBucket(m, k, n);
    SumValuesRemove(m', k);
    assert m' - {k} == m - {k};
    if k in m {
      SumValuesRemove(m, k);
    } else {
      assert m - {k} == m;
    }
  }

  /** The lines of every file reported, unreadable ones counting 0. */
  function TotalLines(visits: seq<Visit>): nat
  {
    if visits == [] then 0
    else
      var v := visits[|visits| - 1];
      TotalLines(visits[..|visits| - 1]) + (if v.FileVisit? then CountLines(v.contents) else 0)
  }

  /** The lines of the files reported whose label is `lang`. */
  function LinesIn(visits: seq<Visit>, labelOf: Visit -> string, lang: string): nat
  {
    if visits == [] then 0
    else
      var v := visits[|visits| - 1];
      LinesIn(visits[..|visits| - 1], labelOf, lang) + (if v.FileVisit? && labelOf(v) == lang then CountLines(v.contents) else 0)
  }

  /** Whatever the labelling, the buckets together hold the lines of all
      files: every file adds its count to one bucket and to no other. */
  lemma {:induction false} LabelTotalsSum(visits: seq<Visit>, labelOf: Visit -> string)
    ensures SumValues(LinesPerLabel(visits, labelOf)) == TotalLines(visits)
  {
    if visits != [] {
      var init := visits[..|visits| - 1];
      LabelTotalsSum(init, labelOf);
      var v := visits[|visits| - 1];
      var stats := LinesPerLabel(init, labelOf);
      if v.FileVisit? {
        assert LinesPerLabel(visits, labelOf) == AddToBucket(stats, labelOf(v), CountLines(v.contents));
        assert TotalLines(visits) == TotalLines(init) + CountLines(v.contents);
        SumValuesAdd(stats, labelOf(v), CountLines(v.contents));
      } else {
        assert LinesPerLabel(visits, labelOf) == stats;
        assert TotalLines(visits) == TotalLines(init);
      }
    }
  }

  /** Whatever the labelling, the buckets are exactly the labels of the
      files reported, and bucket `lang` holds the lines of the files
      labelled `lang`. */
  lemma {:induction false} LabelBuckets(visits: seq<Visit>, labelOf: Visit -> string, lang: string)
    ensures lang in LinesPerLabel(visits, labelOf) <==>
            exists i :: 0 <= i < |visits| && visits[i].FileVisit? && labelOf(visits[i]) == lang
    ensures lang in LinesPerLabel(visits, labelOf) ==>
            LinesPerLabel(visits, labelOf)[lang] == LinesIn(visits, labelOf, lang)
  {
    if visits != [] {
      var init := visits[..|visits| - 1];
      LabelBuckets(init, labelOf, lang);
      if lang !in LinesPerLabel(init, labelOf) {
        NoFileNoLines(init, labelOf, lang);
      }
      forall i | 0 <= i < |init| ensures visits[i] == init[i] { }
    }
  }

  lemma {:induction false} NoFileNoLines(visits: seq<Visit>, labelOf: Visit -> string, lang: string)
    requires forall i :: 0 <= i < |visits| ==> !(visits[i].FileVisit? && labelOf(visits[i]) == lang)
    ensures LinesIn(visits, labelOf, lang) == 0
  {
    if visits != [] {
      NoFileNoLines(visits[..|visits| - 1], labelOf, lang);
    }
  }

  /** `langStats` sums to the lines of all files of the clone, unreadable
      files counting 0. */
  lemma LanguageTotalsSum(visits: seq<Visit>)
    ensures SumValues(LangStatsOf(visits)) == TotalLines(visits)
  {
    LabelTotalsSum(visits, LanguageOf);
  }

  /** A `langStats` key is the language of some file, every file's language
      is a key, and its value is the lines of the files of that language. */
  lemma LanguageBuckets(visits: seq<Visit>, lang: string)
    ensures lang in LangStatsOf(visits) <==>
            exists i :: 0 <= i < |visits| && visits[i].FileVisit? && LanguageOf(visits[i]) == lang
    ensures lang in LangStatsOf(visits) ==> LangStatsOf(visits)[lang] == LinesIn(visits, LanguageOf, lang)
  {
    LabelBuckets(visits, LanguageOf, lang);
  }

  // ----- Key folders -----

  /** Some directory among `visits` has `x` as its lower-cased base name. */
  ghost predicate Named(visits: seq<Visit>, x: string)
  {
    exists i :: 0 <= i < |visits| && visits[i].DirVisit? && Lower(visits[i].name) == x
  }

  lemma NamedSnoc(visits: seq<Visit>, x: string)
    requires visits != []
    ensures var v := visits[|visits| - 1];
            Named(visits, x) <==> Named(visits[..|visits| - 1], x) || (v.DirVisit? && Lower(v.name) == x)
  {
    var init := visits[..|visits| - 1];
    if Named(visits, x) {
      var i :| 0 <= i < |visits| && visits[i].DirVisit? && Lower(visits[i].name) == x;
      if i < |init| { assert init[i] == visits[i]; }
    }
    if Named(init, x) {
      var i :| 0 <= i < |init| && init[i].DirVisit? && Lower(init[i].name) == x;
      assert init[i] == visits[i];
    }
  }

  /** The key folders are recognised names, without repeats, and a name is
      there exactly when some directory (never a file) has it as its
      lower-cased base name. */
  lemma {:induction false} KeyFoldersExact(visits: seq<Visit>)
    ensures NoDuplicates(KeyFoldersOf(visits))
    ensures forall x :: x in KeyFoldersOf(visits) <==> x in FolderNames && Named(visits, x)
  {
    if visits != [] {
      var init := visits[..|visits| - 1];
      var v := visits[|visits| - 1];
      KeyFoldersExact(init);
      var folders := KeyFoldersOf(init);
      if v.DirVisit? && Lower(v.name) in FolderNames {
        assert KeyFoldersOf(visits) == AddUnique(folders, Lower(v.name));
      } else {
        assert KeyFoldersOf(visits) == folders;
      }
      forall x ensures x in KeyFoldersOf(visits) <==> x in FolderNames && Named(visits, x) {
        NamedSnoc(visits, x);
      }
    }
  }

  // ----- Frameworks -----

  /** What one file reveals: a dependency name of a readable, parseable
      `package.json`, or the text of a readable `requirements.txt`. */
  ghost predicate FileReveals(v: Visit, framework: string, parseDeps: string -> Option<seq<string>>)
  {
    && v.FileVisit? && v.contents.Some?
    && ( || (v.name == "package.json" && parseDeps(v.contents.value).Some?
             && exists d :: d in parseDeps(v.contents.value).value && Reveals(PackagePatterns, framework, d))
         || (v.name == "requirements.txt" && Reveals(RequirementsPatterns, framework, v.contents.value)))
  }

  /** The detection of one file adds what that file reveals. */
  lemma DetectFrameworksExact(frameworks: seq<string>, v: Visit, parseDeps: string -> Option<seq<string>>)
    requires v.FileVisit?
    ensures NoDuplicates(frameworks) ==> NoDuplicates(DetectFrameworks(frameworks, v.name, v.contents, parseDeps))
    ensures forall f :: f in DetectFrameworks(frameworks, v.name, v.contents, parseDeps) <==>
              f in frameworks || FileReveals(v, f, parseDeps)
  {
    if v.contents.Some? {
      var text := v.contents.value;
      if v.name == "package.json" {
        if parseDeps(text).Some? {
          AddDependenciesExact(frameworks, parseDeps(text).value);
        }
      } else if v.name == "requirements.txt" {
        AddMatchesExact(frameworks, text, RequirementsPatterns);
      }
    }
  }

  /** Some file among `visits` reveals `framework`. */
  ghost predicate Revealed(visits: seq<Visit>, framework: string, parseDeps: string -> Option<seq<string>>)
  {
    exists i :: 0 <= i < |visits| && FileReveals(visits[i], framework, parseDeps)
  }

  lemma RevealedSnoc(visits: seq<Visit>, framework: string, parseDeps: string -> Option<seq<string>>)
    requires visits != []
    ensures Revealed(visits, framework, parseDeps) <==>
            Revealed(visits[..|visits| - 1], framework, parseDeps) || FileReveals(visits[|visits| - 1], framework, parseDeps)
  {
    var init := visits[..|visits| - 1];
    if Revealed(visits, framework, parseDeps) {
      var i :| 0 <= i < |visits| && FileReveals(visits[i], framework, parseDeps);
      if i < |init| { assert init[i] == visits[i]; }
    }
    if Revealed(init, framework, parseDeps) {
      var i :| 0 <= i < |init| && FileReveals(init[i], framework, parseDeps);
      assert init[i] == visits[i];
    }
  }

  /** A framework is detected exactly when some file reveals it, and is
      listed once. An unreadable or unparseable manifest reveals nothing. */
  lemma {:induction false} FrameworksExact(visits: seq<Visit>, parseDeps: string -> Option<seq<string>>)
    ensures NoDuplicates(FrameworksOf(visits, parseDeps))
    ensures forall f :: f in FrameworksOf(visits, parseDeps) <==> Revealed(visits, f, parseDeps)
  {
    if visits != [] {
      var init := visits[..|visits| - 1];
      var v := visits[|visits| - 1];
      FrameworksExact(init, parseDeps);
      if v.FileVisit? {
        DetectFrameworksExact(FrameworksOf(init, parseDeps), v, parseDeps);
      }
      forall f ensures f in FrameworksOf(visits, parseDeps) <==> Revealed(visits, f, parseDeps) {
        RevealedSnoc(visits, f, parseDeps);
      }
    }
  }

  /** Every detected framework is one of the seven names. */
  lemma FrameworksKnown(visits: seq<Visit>, parseDeps: string -> Option<seq<string>>)
    ensures forall f :: f in FrameworksOf(visits, parseDeps) ==> f in KnownFrameworks
  {
    FrameworksExact(visits, parseDeps);
    forall f | f in FrameworksOf(visits, parseDeps) ensures f in KnownFrameworks {
      var i :| 0 <= i < |visits| && FileReveals(visits[i], f, parseDeps);
      FileRevealsKnown(visits[i], f, parseDeps);
    }
  }

  /** The seven framework names the tables can reveal. */
  const KnownFrameworks: set<string> := {"React", "Hardhat", "Next.js", "Vue.js", "Express", "Flask", "Django"}

  lemma FileRevealsKnown(v: Visit, f: string, parseDeps: string -> Option<seq<string>>)
    requires FileReveals(v, f, parseDeps)
    ensures f in KnownFrameworks
  {
    if v.name == "package.json" && parseDeps(v.contents.value).Some?
       && exists d :: d in parseDeps(v.contents.value).value && Reveals(PackagePatterns, f, d) {
      var d :| d in parseDeps(v.contents.value).value && Reveals(PackagePatterns, f, d);
      TableKnown(PackagePatterns, f, d);
    } else {
      TableKnown(RequirementsPatterns, f, v.contents.value);
    }
  }

  /** A table reveals only its own names. */
  lemma TableKnown(patterns: seq<(string, string)>, f: string, text: string)
    requires patterns == PackagePatterns || patterns == RequirementsPatterns
    requires Reveals(patterns, f, text)
    ensures f in KnownFrameworks
  {
    var k :| 0 <= k < |patterns| && patterns[k].1 == f && ContainsCI(text, patterns[k].0);
  }
}
