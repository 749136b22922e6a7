/** `collectFiles`: the recursion over the clone that pushes each file's
    full path onto the code list and onto the contract, API, backend and
    frontend lists whose test it passes. `Selected` says, for a walk, which
    paths each list receives and in which order. */
module Classifier {
  import opened Wrappers
  import opened Text
  import opened FileTree

  /** The lower-case extensions of code files. */
  const CodeExts: seq<string> := [".js", ".ts", ".sol", ".py", ".java", ".c", ".cpp", ".cs", ".rb", ".go", ".php", ".rs"]

  /** The extensions whose path is also tested for API, backend and frontend hints. */
  const ScriptExts: seq<string> := [".js", ".ts"]

  /** The alternatives of the three case-insensitive path tests. */
  const ApiWords: seq<string> := ["api", "routes", "controller", "server", "app"]
  const BackendWords: seq<string> := ["backend", "server", "api"]
  const FrontendWords: seq<string> := ["frontend", "src", "components", "pages", "client"]

  /** The five lists `collectFiles` fills. */
  datatype Category = AllCode | Contract | Api | Backend | Frontend

  /** A case-insensitive test `/w1|w2|.../i` on a path: some alternative
      occurs in it. */
  predicate MentionsAny(path: string, words: seq<string>)
  {
    exists k :: 0 <= k < |words| && ContainsCI(path, words[k])
  }

  /** Whether a file with full path `path` and base name `name` goes to list
      `cat`. `path.extname` of the full path is that of the base name,
      which holds no separator. */
  predicate Belongs(cat: Category, path: string, name: string)
  {
    var ext := Lower(ExtName(name));
    match cat
    case AllCode => ext in CodeExts
    case Contract => ext == ".sol"
    case Api => ext in ScriptExts && MentionsAny(path, ApiWords)
    case Backend => ext in ScriptExts && MentionsAny(path, BackendWords)
    case Frontend => ext in ScriptExts && MentionsAny(path, FrontendWords)
  }

  /** What a file with full path `path` and base name `name` adds to list
      `cat`: its path when it passes the list's test. */
  function Passing(cat: Category, path: string, name: string): seq<string>
  {
    if Belongs(cat, path, name) then [path] else []
  }

  /** What one visit adds to list `cat`; a directory is recursed into and
      never pushed. */
  function Contribution(v: Visit, cat: Category): seq<string>
  {
    if v.FileVisit? then Passing(cat, v.path, v.name) else []
  }

  /** The paths list `cat` receives from the walk `visits`, in walk order. */
  function Selected(visits: seq<Visit>, cat: Category): seq<string>
  {
    if visits == [] then []
    else Contribution(visits[0], cat) + Selected(visits[1..], cat)
  }

  lemma {:induction false} SelectedAppend(a: seq<Visit>, b: seq<Visit>, cat: Category)
    ensures Selected(a + b, cat) == Selected(a, cat) + Selected(b, cat)
  {
    if a == [] {
      assert a + b == b;
    } else {
      assert (a + b)[0] == a[0];
      assert (a + b)[1..] == a[1..] + b;
      SelectedAppend(a[1..], b, cat);
    }
  }

  /** Walking one more entry of a listing adds what that entry contributes. */
  lemma SelectedStep(dir: string, children: seq<Node>, k: nat)
    requires k < |children|
    ensures forall cat :: Selected(Walk(dir, children[..k + 1]), cat)
                          == Selected(Walk(dir, children[..k]), cat) + Selected(WalkOne(dir, children[k]), cat)
  {
    assert children[..k + 1] == children[..k] + [children[k]];
    WalkAppend(dir, children[..k], [children[k]]);
    forall cat {
      SelectedAppend(Walk(dir, children[..k]), Walk(dir, [children[k]]), cat);
    }
  }

  /** A directory contributes the paths under it, never its own. */
  lemma SelectedDir(dir: string, name: string, sub: seq<Node>)
    ensures forall cat :: Selected(WalkOne(dir, Dir(name, sub)), cat) == Selected(Walk(JoinPath(dir, name), sub), cat)
  {
    var v := DirVisit(JoinPath(dir, name), name);
    var rest := Walk(JoinPath(dir, name), sub);
    var one := [Dir(name, sub)];
    assert one[0] == Dir(name, sub) && one[1..] == [];
    assert Walk(dir, one) == [v] + rest + Walk(dir, one[1..]);
    assert WalkOne(dir, Dir(name, sub)) == [v] + rest;
    assert ([v] + rest)[1..] == rest;
  }

  /** A file contributes its own path to the lists whose test it passes. */
  lemma SelectedFile(dir: string, name: string, contents: Option<string>)
    ensures forall cat :: Selected(WalkOne(dir, File(name, contents)), cat)
                          == Passing(cat, JoinPath(dir, name), name)
  {
    var v := FileVisit(JoinPath(dir, name), name, contents);
    var one := [File(name, contents)];
    assert one[0] == File(name, contents) && one[1..] == [];
    assert Walk(dir, one) == [v] + Walk(dir, one[1..]);
    assert WalkOne(dir, File(name, contents)) == [v];
    assert [v][1..] == [];
  }

  /** The arrays `collectFiles` pushes onto. */
  class CodeFiles {
    var allCodeFiles: seq<string>
    var contractFiles: seq<string>
    var apiFiles: seq<string>
    var backendFiles: seq<string>
    var frontendFiles: seq<string>

    /** The five arrays start empty. */
    constructor ()
      ensures allCodeFiles == [] && contractFiles == [] && apiFiles == []
      ensures backendFiles == [] && frontendFiles == []
    {
      allCodeFiles := [];
      contractFiles := [];
      apiFiles := [];
      backendFiles := [];
      frontendFiles := [];
    }

    /** The array that list `cat` is kept in. */
    function List(cat: Category): seq<string>
      reads this
    {
      match cat
      case AllCode => allCodeFiles
      case Contract => contractFiles
      case Api => apiFiles
      case Backend => backendFiles
      case Frontend => frontendFiles
    }

    /** The non-directory branch of `collectFiles`: the full path is pushed
        onto every array whose test it passes. */
    method PushFile(fullPath: string, name: string)
      modifies this
      ensures forall cat :: List(cat) == old(List(cat)) + Passing(cat, fullPath, name)
    {
      var ext := Lower(ExtName(name));
      if ext in CodeExts {
        allCodeFiles := allCodeFiles + [fullPath];
      }
      assert allCodeFiles == old(allCodeFiles) + Passing(AllCode, fullPath, name);
      if ext == ".sol" {
        contractFiles := contractFiles + [fullPath];
      }
      assert contractFiles == old(contractFiles) + Passing(Contract, fullPath, name);
      if ext in ScriptExts {
        if MentionsAny(fullPath, ApiWords) {
          apiFiles := apiFiles + [fullPath];
        }
        if MentionsAny(fullPath, BackendWords) {
          backendFiles := backendFiles + [fullPath];
        }
        if MentionsAny(fullPath, FrontendWords) {
          frontendFiles := frontendFiles + [fullPath];
        }
      }
      assert apiFiles == old(apiFiles) + Passing(Api, fullPath, name);
      assert backendFiles == old(backendFiles) + Passing(Backend, fullPath, name);
      assert frontendFiles == old(frontendFiles) + Passing(Frontend, fullPath, name);
      forall cat ensures List(cat) == old(List(cat)) + Passing(cat, fullPath, name) {
        match cat
        case AllCode =>
        case Contract =>
        case Api =>
        case Backend =>
        case Frontend =>
      }
    }

    /** `collectFiles(dir)` for a directory whose entries are `children`:
        every array grows by the paths of its category, in walk order. */
    method CollectFiles(dir: string, children: seq<Node>)
      modifies this
      decreases children
      ensures forall cat :: List(cat) == old(List(cat)) + Selected(Walk(dir, children), cat)
    {
      for k := 0 to |children|
        invariant forall cat :: List(cat) == old(List(cat)) + Selected(Walk(dir, children[..k]), cat)
      {
        SelectedStep(dir, children, k);
        match children[k]
        case Dir(name, sub) =>
          SelectedDir(dir, name, sub);
          CollectFiles(JoinPath(dir, name), sub);
        case File(name, contents) =>
          SelectedFile(dir, name, contents);
          PushFile(JoinPath(dir, name), name);
      }
      assert children[..|children|] == children;
    }
  }
}

module ClassifierFacts {
  import opened Wrappers
  import opened Text
  import opened FileTree
  import opened Classifier

  /** A path is on list `cat` exactly when some file the walk reports has
      that path and passes the list's test. */
  lemma SelectedExact(visits: seq<Visit>, cat: Category, p: string)
    ensures p in Selected(visits, cat) <==>
            exists i :: 0 <= i < |visits| && visits[i].FileVisit? && visits[i].path == p && Belongs(cat, p, visits[i].name)
  {
    if p in Selected(visits, cat) {
      SelectedFrom(visits, cat, p);
    }
    if exists i :: 0 <= i < |visits| && visits[i].FileVisit? && visits[i].path == p && Belongs(cat, p, visits[i].name) {
      var i :| 0 <= i < |visits| && visits[i].FileVisit? && visits[i].path == p && Belongs(cat, p, visits[i].name);
      InSelected(visits, cat, i);
    }
  }

  /** Every path on a list comes from a file of the walk that passes the
      list's test. */
  lemma {:induction false} SelectedFrom(visits: seq<Visit>, cat: Category, p: string)
    requires p in Selected(visits, cat)
    ensures exists i :: 0 <= i < |visits| && visits[i].FileVisit? && visits[i].path == p && Belongs(cat, p, visits[i].name)
  {
    var rest := visits[1..];
    assert Selected(visits, cat) == Contribution(visits[0], cat) + Selected(rest, cat);
    if p in Contribution(visits[0], cat) {
      assert visits[0].FileVisit? && visits[0].path == p && Belongs(cat, p, visits[0].name);
    } else {
      SelectedFrom(rest, cat, p);
      var j :| 0 <= j < |rest| && rest[j].FileVisit? && rest[j].path == p && Belongs(cat, p, rest[j].name);
      assert visits[j + 1] == rest[j];
    }
  }

  /** Every file of the walk that passes a list's test is on that list. */
  lemma {:induction false} InSelected(visits: seq<Visit>, cat: Category, i: nat)
    requires i < |visits| && visits[i].FileVisit? && Belongs(cat, visits[i].path, visits[i].name)
    ensures visits[i].path in Selected(visits, cat)
  {
    var rest := visits[1..];
    if i == 0 {
      assert Contribution(visits[0], cat) == [visits[0].path];
    } else {
      assert rest[i - 1] == visits[i];
      InSelected(rest, cat, i - 1);
    }
    assert Selected(visits, cat) == Contribution(visits[0], cat) + Selected(rest, cat);
  }

  /** Every contract, API, backend or frontend file is also a code file. */
  lemma HintImpliesCode(cat: Category, path: string, name: string)
    requires Belongs(cat, path, name)
    ensures Belongs(AllCode, path, name)
  {
  }

  /** The contract, API, backend and frontend lists are subsequences of the
      code list: same paths, same relative order. */
  lemma {:induction false} ListsWithinCode(visits: seq<Visit>, cat: Category)
    ensures IsSubsequence(Selected(visits, cat), Selected(visits, AllCode))
  {
    if visits != [] {
      ListsWithinCode(visits[1..], cat);
      var v := visits[0];
      var sub := Selected(visits[1..], cat);
      var code := Selected(visits[1..], AllCode);
      if v.FileVisit? && Belongs(cat, v.path, v.name) {
        HintImpliesCode(cat, v.path, v.name);
        assert Selected(visits, cat) == [v.path] + sub;
        assert Selected(visits, AllCode) == [v.path] + code;
        assert ([v.path] + sub)[1..] == sub;
        assert ([v.path] + code)[1..] == code;
      } else if v.FileVisit? && Belongs(AllCode, v.path, v.name) {
        assert Selected(visits, cat) == sub;
        assert Selected(visits, AllCode) == [v.path] + code;
        assert ([v.path] + code)[1..] == code;
      } else {
        assert Selected(visits, cat) == sub;
        assert Selected(visits, AllCode) == code;
      }
    }
  }

  /** The code list holds each path once when the walk reports each path
      once. */
  lemma {:induction false} SelectedNoDuplicates(visits: seq<Visit>, cat: Category)
    requires forall i, j :: 0 <= i < j < |visits| ==> visits[i].path != visits[j].path
    ensures NoDuplicates(Selected(visits, cat))
  {
    if visits != [] {
      var rest := visits[1..];
      forall i, j | 0 <= i < j < |rest| ensures rest[i].path != rest[j].path {
        assert rest[i] == visits[i + 1] && rest[j] == visits[j + 1];
      }
      SelectedNoDuplicates(rest, cat);
      var tail := Selected(rest, cat);
      assert Selected(visits, cat) == Contribution(visits[0], cat) + tail;
      if visits[0].FileVisit? && Belongs(cat, visits[0].path, visits[0].name) {
        var p := visits[0].path;
        forall j | 0 <= j < |rest| ensures rest[j].path != p {
          assert rest[j] == visits[j + 1];
        }
        if p in tail {
          SelectedFrom(rest, cat, p);
        }
        ConsNoDuplicates(p, tail);
      } else {
        assert Selected(visits, cat) == tail;
      }
    }
  }

  /** The three hint lists are not a partition: a script file whose path
      mentions `server` is both an API file and a backend file. */
  lemma ServerScriptIsApiAndBackend(path: string, name: string)
    requires Lower(ExtName(name)) in ScriptExts
    requires ContainsCI(path, "server")
    ensures Belongs(Api, path, name) && Belongs(Backend, path, name)
  {
    assert ApiWords[3] == "server";
    assert BackendWords[1] == "server";
  }

  /** The tests look at the whole path, temporary directory included: when
      that directory mentions `app` in any case (as a Windows `TEMP` under
      `AppData` does), every script file of the clone is an API file. */
  lemma AppInTempDirMakesEveryScriptAnApiFile(tempDir: string, tree: seq<Node>, i: nat)
    requires ContainsCI(tempDir, "app")
    requires i < |Walk(tempDir, tree)|
    requires Walk(tempDir, tree)[i].FileVisit? && Lower(ExtName(Walk(tempDir, tree)[i].name)) in ScriptExts
    ensures Walk(tempDir, tree)[i].path in Selected(Walk(tempDir, tree), Api)
  {
    var visits := Walk(tempDir, tree);
    WalkUnder(tempDir, tree);
    assert visits[i] in visits;
    PrefixMentionsApp(tempDir, visits[i].path);
    SelectedExact(visits, Api, visits[i].path);
  }

  /** A path under a directory that mentions `app` mentions it too. */
  lemma PrefixMentionsApp(tempDir: string, path: string)
    requires ContainsCI(tempDir, "app")
    requires StartsWith(path, tempDir + "/")
    ensures MentionsAny(path, ApiWords)
  {
    var rest := path[|tempDir|..];
    assert path == tempDir + rest;
    LowerAppend(tempDir, rest);
    ContainsLeft(Lower(tempDir), Lower(rest), "app");
    assert ApiWords[4] == "app";
  }
}
