/**
 A directory tree as the administrator's backup code sees it (src/bk/admin_data.py): paths below a root, and the walk
 that lists them.
 */
module DataTree {

  /** Components below the root; the root itself is the empty path and is not listed. */
  type Path = seq<string>

  type Bytes = seq<bv8>

  /** `Special` is a symbolic link, a file with several links or a device: everything the code refuses to copy. */
  datatype Entry = Dir(mode: int) | File(mode: int, data: Bytes) | Special

  type Tree = map<Path, Entry>

  function Parent(p: Path): Path
    requires |p| > 0
  {
    p[..|p| - 1]
  }

  predicate SafePath(p: Path) {
    |p| > 0 && forall i | 0 <= i < |p| :: p[i] != "" && p[i] != "." && p[i] != ".."
  }

  /** A tree a file system can hold: proper names, and every entry inside a directory. */
  ghost predicate Rooted(t: Tree) {
    && (forall p | p in t :: SafePath(p))
    && forall p {:trigger Housed(t, p)} | p in t :: Housed(t, p)
  }

  predicate Housed(t: Tree, p: Path) {
    |p| <= 1 || (Parent(p) in t && t[Parent(p)].Dir?)
  }

  predicate Distinct(s: seq<Path>) {
    forall i, j | 0 <= i < j < |s| :: s[i] != s[j]
  }

  predicate ParentsFirst(s: seq<Path>) {
    forall i | 0 <= i < |s| :: AfterParent(s, i)
  }

  predicate AfterParent(s: seq<Path>, i: nat)
    requires i < |s|
  {
    |s[i]| > 1 ==> Parent(s[i]) in s[..i]
  }

  /** Each path of the tree once, none before its parent. */
  ghost predicate WalkOf(t: Tree, s: seq<Path>) {
    Distinct(s) && ParentsFirst(s) && forall p :: p in s <==> p in t
  }

  // ---------------------------------------------------------------- listing a directory

  ghost predicate Lists(s: seq<Path>, all: set<Path>) {
    Distinct(s) && forall p :: p in s <==> p in all
  }

  /** Any fixed order for the names of a directory; the code takes the order of the strings. */
  ghost predicate Arranges(arrange: set<Path> -> seq<Path>) {
    forall all :: Lists(arrange(all), all)
  }

  function Kids(t: Tree, d: Path, dirs: bool): set<Path> {
    set p | p in t && |p| > 0 && Parent(p) == d && t[p].Dir? == dirs
  }

  /** The paths so far are the entries of the directories listed so far. */
  ghost predicate EntriesOf(t: Tree, paths: seq<Path>, listed: set<Path>) {
    && Distinct(paths) && ParentsFirst(paths)
    && forall p :: p in paths <==> p in t && |p| > 0 && Parent(p) in listed
  }

  /** The directories among the paths, and the root, are listed or waiting, never both. */
  ghost predicate Frontier(t: Tree, paths: seq<Path>, pending: seq<Path>, listed: set<Path>) {
    && Distinct(pending)
    && (forall d | d in pending :: d !in listed)
    && (forall d :: d in pending || d in listed <==> d == [] || (d in paths && d in t && t[d].Dir?))
  }

  lemma DistinctJoin(a: seq<Path>, b: seq<Path>)
    requires Distinct(a) && Distinct(b) && forall p | p in a :: p !in b
    ensures Distinct(a + b)
  {
    forall i, j | 0 <= i < j < |a + b| ensures (a + b)[i] != (a + b)[j] {
      if i < |a| <= j { assert a[i] in a && b[j - |a|] in b; }
    }
  }

  lemma ParentsFirstJoin(paths: seq<Path>, kids: seq<Path>, d: Path)
    requires ParentsFirst(paths) && (d == [] || d in paths)
    requires forall p | p in kids :: |p| > 0 && Parent(p) == d
    ensures ParentsFirst(paths + kids)
  {
    var s := paths + kids;
    forall i | 0 <= i < |s| ensures AfterParent(s, i) {
      if i < |paths| {
        assert AfterParent(paths, i) && s[..i] == paths[..i];
      } else {
        assert s[i] in kids;
        assert s[..i] == paths + kids[..i - |paths|];
      }
    }
  }

  lemma EntriesGrow(t: Tree, paths: seq<Path>, listed: set<Path>, d: Path, kids: seq<Path>)
    requires EntriesOf(t, paths, listed) && d !in listed && (d == [] || d in paths)
    requires Distinct(kids) && forall p :: p in kids <==> p in t && |p| > 0 && Parent(p) == d
    ensures EntriesOf(t, paths + kids, listed + {d})
  {
    DistinctJoin(paths, kids);
    ParentsFirstJoin(paths, kids, d);
  }

  lemma FrontierMoves(
      t: Tree, paths: seq<Path>, pending: seq<Path>, listed: set<Path>, dirs: seq<Path>, kids: seq<Path>)
    requires |pending| > 0 && Frontier(t, paths, pending, listed) && EntriesOf(t, paths, listed)
    requires Lists(dirs, Kids(t, pending[0], true))
    requires forall p :: p in kids <==> p in t && |p| > 0 && Parent(p) == pending[0]
    ensures Frontier(t, paths + kids, dirs + pending[1..], listed + {pending[0]})
  {
    var d, rest := pending[0], pending[1..];
    assert pending == [d] + rest;
    assert d !in listed;
    forall p | p in dirs ensures p !in rest && p !in listed && p != d {
      assert Parent(p) == d;
      assert p !in paths;
    }
    DistinctJoin(dirs, rest);
  }

  lemma {:induction false} NoneForgotten(t: Tree, paths: seq<Path>, listed: set<Path>, p: Path)
    requires Rooted(t) && EntriesOf(t, paths, listed) && Frontier(t, paths, [], listed) && p in t
    ensures p in paths
    decreases |p|
  {
    assert Housed(t, p);
    if |p| > 1 { NoneForgotten(t, paths, listed, Parent(p)); }
  }

  /** One directory's entries, sub-directories in front. */
  method ListDirectory(t: Tree, d: Path, arrange: set<Path> -> seq<Path>) returns (dirs: seq<Path>, kids: seq<Path>)
    requires Arranges(arrange)
    ensures Lists(dirs, Kids(t, d, true))
    ensures Distinct(kids) && forall p :: p in kids <==> p in t && |p| > 0 && Parent(p) == d
  {
    dirs := arrange(Kids(t, d, true));
    var files := arrange(Kids(t, d, false));
    kids := dirs + files;
    assert Lists(dirs, Kids(t, d, true)) && Lists(files, Kids(t, d, false));
    DistinctJoin(dirs, files);
  }

  lemma Shrinks(all: set<Path>, listed: set<Path>, d: Path)
    requires d in all && d !in listed
    ensures |all - (listed + {d})| < |all - listed|
  {
    assert all - (listed + {d}) == (all - listed) - {d};
  }

  lemma WalkBegins(t: Tree, pending: seq<Path>)
    requires pending == [[]]
    ensures EntriesOf(t, [], {}) && Frontier(t, [], pending, {})
  {
  }

  lemma WalkEnds(t: Tree, paths: seq<Path>, listed: set<Path>)
    requires Rooted(t) && EntriesOf(t, paths, listed) && Frontier(t, paths, [], listed)
    ensures WalkOf(t, paths)
  {
    forall p | p in t ensures p in paths {
      NoneForgotten(t, paths, listed, p);
    }
  }

  /** `os.walk` from the top: list a directory's own entries, then go on with its sub-directories. */
  method WalkTree(t: Tree, arrange: set<Path> -> seq<Path>) returns (paths: seq<Path>)
    requires Rooted(t) && Arranges(arrange)
    ensures WalkOf(t, paths)
  {
    paths := [];
    var root: Path := [];
    var pending := [root];
    ghost var all, listed: set<Path> := t.Keys + {root}, {};
    WalkBegins(t, pending);
    while pending != []
      invariant EntriesOf(t, paths, listed) && Frontier(t, paths, pending, listed)
      decreases |all - listed|
    {
      var d := pending[0];
      assert d in pending;
      var dirs, kids := ListDirectory(t, d, arrange);
      FrontierMoves(t, paths, pending, listed, dirs, kids);
      EntriesGrow(t, paths, listed, d, kids);
      Shrinks(all, listed, d);
      paths := paths + kids;
      pending := dirs + pending[1..];
      listed := listed + {d};
    }
    WalkEnds(t, paths, listed);
  }
}
