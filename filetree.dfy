/** The cloned repository as the analyzer sees it through `fs` and `path`:
    a tree of directories and files, and the walk over it (`walkDir`). */
module FileTree {
  import opened Wrappers
  import opened Text

  /** One directory entry. The children of a directory are in the order
      `readdirSync` lists them; a file's contents are `None` when reading
      it as UTF-8 throws. */
  datatype Node =
    | Dir(name: string, children: seq<Node>)
    | File(name: string, contents: Option<string>)

  /** One call of the walk's callback: the full path, whether it is a
      directory, and (for the callback's own reads) the base name and the
      contents of a file. */
  datatype Visit =
    | DirVisit(path: string, name: string)
    | FileVisit(path: string, name: string, contents: Option<string>)

  /** `path.join(dir, name)` for a normalised `dir` and a directory-entry
      name, which never holds a separator. */
  function JoinPath(dir: string, name: string): string
  {
    dir + "/" + name
  }

  /** `walkDir(dir, callback)`: the callback calls in the order the
      recursion makes them, a directory reported before its contents. */
  function Walk(dir: string, children: seq<Node>): seq<Visit>
    decreases children
  {
    if children == [] then []
    else
      (match children[0]
       case File(name, contents) => [FileVisit(JoinPath(dir, name), name, contents)]
       case Dir(name, sub) => [DirVisit(JoinPath(dir, name), name)] + Walk(JoinPath(dir, name), sub))
      + Walk(dir, children[1..])
  }

  /** The calls for one entry. */
  function WalkOne(dir: string, n: Node): seq<Visit>
  {
    Walk(dir, [n])
  }

  /** Walking a listing in two parts walks the first part, then the second. */
  lemma {:induction false} WalkAppend(dir: string, a: seq<Node>, b: seq<Node>)
    ensures Walk(dir, a + b) == Walk(dir, a) + Walk(dir, b)
    decreases a
  {
    if a == [] {
      assert a + b == b;
    } else {
      assert (a + b)[0] == a[0];
      assert (a + b)[1..] == a[1..] + b;
      WalkAppend(dir, a[1..], b);
    }
  }

  /** Pre-order: the walk of a listing reports the entries before entry
      `i`, then directory `i` itself, then everything inside it, then the
      entries after it. */
  lemma DirectoryBeforeContents(dir: string, children: seq<Node>, i: nat)
    requires i < |children| && children[i].Dir?
    ensures Walk(dir, children)
         == Walk(dir, children[..i])
          + [DirVisit(JoinPath(dir, children[i].name), children[i].name)]
          + Walk(JoinPath(dir, children[i].name), children[i].children)
          + Walk(dir, children[i + 1..])
  {
    assert children == children[..i] + [children[i]] + children[i + 1..];
    WalkAppend(dir, children[..i] + [children[i]], children[i + 1..]);
    WalkAppend(dir, children[..i], [children[i]]);
    assert [children[i]][1..] == [];
  }

  /** Every path the walk reports lies under the directory walked. */
  lemma {:induction false} WalkUnder(dir: string, children: seq<Node>)
    ensures forall v :: v in Walk(dir, children) ==> StartsWith(v.path, dir + "/")
    decreases children
  {
    if children != [] {
      WalkUnder(dir, children[1..]);
      match children[0]
      case File(name, contents) =>
      case Dir(name, sub) =>
        WalkUnder(JoinPath(dir, name), sub);
        forall v | v in Walk(JoinPath(dir, name), sub) ensures StartsWith(v.path, dir + "/") {
          assert StartsWith(v.path, JoinPath(dir, name) + "/");
          assert v.path[..|dir + "/"|] == (JoinPath(dir, name) + "/")[..|dir + "/"|];
        }
    }
  }

  /** The contents `fs.readFileSync(path, 'utf8')` yields in a snapshot
      whose walk is `visits`: `None` when it throws (no such file, a
      directory, or an unreadable file). */
  function ReadFile(visits: seq<Visit>, path: string): (r: Option<string>)
    ensures r.Some? ==> exists v :: v in visits && v.FileVisit? && v.path == path && v.contents == r
    ensures forall i :: 0 <= i < |visits| && FirstFileAt(visits, path, i) ==> r == visits[i].contents
  {
    if visits == [] then None
    else if visits[0].FileVisit? && visits[0].path == path then visits[0].contents
    else
      assert forall i :: 1 <= i < |visits| && FirstFileAt(visits, path, i) ==> FirstFileAt(visits[1..], path, i - 1);
      ReadFile(visits[1..], path)
  }

  /** Visit `i` is the first file the walk reports under `path`. */
  predicate FirstFileAt(visits: seq<Visit>, path: string, i: nat)
  {
    && i < |visits| && visits[i].FileVisit? && visits[i].path == path
    && forall j :: 0 <= j < i ==> !(visits[j].FileVisit? && visits[j].path == path)
  }

  /** Index of the last `c` in `s`, or -1. */
  function LastIndexOf(s: string, c: char): (k: int)
    ensures -1 <= k < |s|
    ensures k >= 0 ==> s[k] == c
    ensures forall j :: k < j < |s| ==> s[j] != c
  {
    if s == [] then -1
    else if s[|s| - 1] == c then |s| - 1
    else LastIndexOf(s[..|s| - 1], c)
  }

  /** `path.extname` of an entry: from the last `.` to the end, or `""`
      when there is no dot, the only dot starts the name (`.gitignore`) or
      the name is `..`. */
  function ExtName(name: string): (ext: string)
    ensures ext == "" || (|ext| < |name| && ext == name[|name| - |ext|..] && ext[0] == '.')
    ensures forall j :: 0 < j < |ext| ==> ext[j] != '.'
    ensures ext == "" <==> name == ".." || forall j :: 0 < j < |name| ==> name[j] != '.'
  {
    var d := LastIndexOf(name, '.');
    if d <= 0 || name == ".." then "" else name[d..]
  }
}
