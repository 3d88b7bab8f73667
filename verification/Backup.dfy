/**
 Data backups (src/bk/admin_data.py): creating one from a data tree, verifying one, and rebuilding the tree from it.
 `hash` is the content digest; its values are of an arbitrary type D.
 */
module Backup {
  import opened Options
  import opened Basics
  import opened DataTree

  const DIR_MODE := 448
  const FILE_MODE := 384
  const MAX_MODE := 511

  datatype Kind = FileKind | DirectoryKind | OtherKind

  /** An entry of the manifest; `digest` is absent when the field is not a 64-character string. */
  datatype Record<+D> = Record(path: Path, kind: Kind, mode: int, size: int, digest: Option<D>)

  datatype Manifest<+D> = Manifest(configDigest: D, records: seq<Record<D>>)

  /** A backup directory: its three entries, each absent when missing or unreadable, and the names of any others. */
  datatype Stored<+D> = Stored(
    manifest: Option<Manifest<D>>, config: Option<Bytes>, data: Option<Tree>, others: set<string>)

  // ---------------------------------------------------------------- creating

  /** What a backup accepts to copy. */
  ghost predicate Clean(t: Tree) {
    forall p | p in t :: !t[p].Special? && 0 <= t[p].mode <= MAX_MODE
  }

  function RecordOf<D>(hash: Bytes -> D, p: Path, e: Entry): Record<D>
    requires !e.Special?
  {
    if e.Dir? then Record(p, DirectoryKind, e.mode, 0, None)
    else Record(p, FileKind, e.mode, |e.data|, Some(hash(e.data)))
  }

  function Copied(e: Entry): Entry {
    match e
    case Dir(_) => Dir(DIR_MODE)
    case File(_, data) => File(FILE_MODE, data)
    case Special => Special
  }

  /** A file or directory can be created at `p`. */
  predicate CanPlace(t: Tree, p: Path) {
    |p| > 0 && p !in t && Housed(t, p)
  }

  /** `b` is a backup of this data and configuration, its manifest in the order of some walk. */
  ghost predicate BackupOf<D(!new)>(hash: Bytes -> D, source: Tree, config: Bytes, b: Stored<D>) {
    && b.manifest.Some? && b.data.Some? && b.config == Some(config) && b.others == {}
    && b.manifest.value.configDigest == hash(config)
    && WalkOf(source, Paths(b.manifest.value.records))
    && Describes(hash, source, b.manifest.value.records)
    && CopyOf(source, b.data.value)
  }

  ghost predicate Describes<D(!new)>(hash: Bytes -> D, source: Tree, records: seq<Record<D>>) {
    forall i | 0 <= i < |records| ::
      && records[i].path in source && !source[records[i].path].Special?
      && records[i] == RecordOf(hash, records[i].path, source[records[i].path])
  }

  ghost predicate CopyOf(source: Tree, copy: Tree) {
    copy.Keys == source.Keys && forall p | p in source :: copy[p] == Copied(source[p])
  }

  function Paths<D>(records: seq<Record<D>>): (s: seq<Path>)
    ensures |s| == |records| && forall i | 0 <= i < |s| :: s[i] == records[i].path
  {
    seq(|records|, i requires 0 <= i < |records| => records[i].path)
  }

  /** The copy holds the listed paths of the source, and nothing else. */
  ghost predicate CopyOfListed(source: Tree, listed: seq<Path>, copy: Tree) {
    && (forall p :: p in copy <==> p in listed)
    && forall p | p in copy :: p in source && copy[p] == Copied(source[p])
  }

  lemma HousedInCopy(source: Tree, copy: Tree, paths: seq<Path>, i: nat)
    requires Rooted(source) && WalkOf(source, paths) && i < |paths| && CopyOfListed(source, paths[..i], copy)
    ensures paths[i] in source && CanPlace(copy, paths[i])
  {
    assert paths[i] in source;
    assert paths[i] !in paths[..i];
    assert Housed(source, paths[i]) && AfterParent(paths, i);
  }

  lemma CopyGrows(source: Tree, copy: Tree, paths: seq<Path>, i: nat)
    requires i < |paths| && paths[i] in source && CopyOfListed(source, paths[..i], copy)
    ensures CopyOfListed(source, paths[..i + 1], copy[paths[i] := Copied(source[paths[i]])])
  {
    assert paths[..i + 1] == paths[..i] + [paths[i]];
  }

  lemma CopyDone(source: Tree, copy: Tree, paths: seq<Path>)
    requires WalkOf(source, paths) && CopyOfListed(source, paths[..|paths|], copy)
    ensures CopyOf(source, copy)
  {
    assert paths[..|paths|] == paths;
    assert forall p :: p in copy <==> p in source;
  }

  method CopySource<D(!new)>(hash: Bytes -> D, source: Tree, paths: seq<Path>)
    returns (copied: Tree, records: seq<Record<D>>)
    requires Rooted(source) && Clean(source) && WalkOf(source, paths)
    ensures Paths(records) == paths && Describes(hash, source, records) && CopyOf(source, copied)
  {
    copied, records := map[], [];
    for i := 0 to |paths|
      invariant |records| == i && forall k | 0 <= k < i :: records[k].path == paths[k]
      invariant Describes(hash, source, records)
      invariant CopyOfListed(source, paths[..i], copied)
    {
      var p := paths[i];
      HousedInCopy(source, copied, paths, i);
      var e := source[p];
      CopyGrows(source, copied, paths, i);
      assert CanPlace(copied, p);
      if e.Dir? {
        copied := copied[p := Dir(DIR_MODE)];
      } else {
        copied := copied[p := File(FILE_MODE, e.data)];
      }
      records := records + [RecordOf(hash, p, e)];
    }
    CopyDone(source, copied, paths);
  }

  /** The scan refuses links, special files and special permission bits. */
  method ScanSource(source: Tree, arrange: set<Path> -> seq<Path>) returns (r: Option<seq<Path>>)
    requires Rooted(source) && Arranges(arrange)
    ensures r.Some? <==> Clean(source)
    ensures r.Some? ==> WalkOf(source, r.value)
  {
    var paths := WalkTree(source, arrange);
    for i := 0 to |paths|
      invariant forall k | 0 <= k < i ::
        paths[k] in source && !source[paths[k]].Special? && 0 <= source[paths[k]].mode <= MAX_MODE
    {
      assert paths[i] in source;
      var e := source[paths[i]];
      if e.Special? || e.mode < 0 || e.mode > MAX_MODE {
        return None;
      }
    }
    forall p | p in source ensures !source[p].Special? && 0 <= source[p].mode <= MAX_MODE {
      assert p in paths;
    }
    r := Some(paths);
  }

  /** Directories are 0700 and files 0600. */
  ghost predicate OnlyForTheOwner(t: Tree) {
    forall p | p in t :: !t[p].Special? && t[p].mode == if t[p].Dir? then 448 else 384
  }

  method CreateBackup<D(==, !new)>(hash: Bytes -> D, source: Tree, config: Bytes, arrange: set<Path> -> seq<Path>)
    returns (r: Option<Stored<D>>)
    requires Rooted(source) && Arranges(arrange)
    ensures r.Some? <==> Clean(source)
    ensures r.Some? ==> BackupOf(hash, source, config, r.value) && Accepts(hash, r.value)
    ensures r.Some? ==> SameContent(source, r.value.data.value) && OnlyForTheOwner(r.value.data.value)
  {
    var paths := ScanSource(source, arrange);
    if paths.None? {
      return None;
    }
    var copied, records := CopySource(hash, source, paths.value);
    var b := Stored(Some(Manifest(hash(config), records)), Some(config), Some(copied), {});
    CopyIsRooted(source, copied);
    CreatedIsAccepted(hash, source, config, b);
    var ok := VerifyBackup(hash, b, arrange);
    r := if ok then Some(b) else None;
  }

  // ---------------------------------------------------------------- verifying

  predicate RecordOk<D>(r: Record<D>) {
    && SafePath(r.path)
    && !r.kind.OtherKind?
    && 0 <= r.mode <= MAX_MODE
    && (r.kind.FileKind? ==> r.size >= 0 && r.digest.Some?)
  }

  predicate Matches<D(==)>(hash: Bytes -> D, data: Tree, r: Record<D>) {
    && r.path in data
    && (r.kind.DirectoryKind? ==> data[r.path].Dir?)
    && (r.kind.FileKind? ==>
          && data[r.path].File?
          && |data[r.path].data| == r.size
          && r.digest == Some(hash(data[r.path].data)))
  }

  ghost predicate ManifestHolds<D(!new)>(hash: Bytes -> D, data: Tree, records: seq<Record<D>>) {
    && (forall i | 0 <= i < |records| :: RecordOk(records[i]) && Matches(hash, data, records[i]))
    && Distinct(Paths(records))
    && forall p :: p in Paths(records) <==> p in data
  }

  ghost predicate Accepts<D(!new)>(hash: Bytes -> D, b: Stored<D>) {
    && b.manifest.Some? && b.config.Some? && b.data.Some? && b.others == {}
    && b.manifest.value.configDigest == hash(b.config.value)
    && ManifestHolds(hash, b.data.value, b.manifest.value.records)
  }

  method CheckRecords<D(==, !new)>(hash: Bytes -> D, data: Tree, records: seq<Record<D>>)
    returns (expected: Option<set<Path>>)
    ensures expected.Some? <==>
      && (forall i | 0 <= i < |records| :: RecordOk(records[i]) && Matches(hash, data, records[i]))
      && Distinct(Paths(records))
    ensures expected.Some? ==> forall p :: p in expected.value <==> p in Paths(records)
  {
    var seen: set<Path> := {};
    for i := 0 to |records|
      invariant forall k | 0 <= k < i :: RecordOk(records[k]) && Matches(hash, data, records[k])
      invariant forall k | 0 <= k < i :: records[k].path in seen
      invariant forall p | p in seen :: exists k | 0 <= k < i :: records[k].path == p
      invariant forall j, k | 0 <= j < k < i :: records[j].path != records[k].path
    {
      var r := records[i];
      if !RecordOk(r) || !Matches(hash, data, r) {
        return None;
      }
      if r.path in seen {
        ghost var k :| 0 <= k < i && records[k].path == r.path;
        assert Paths(records)[k] == Paths(records)[i];
        return None;
      }
      seen := seen + {r.path};
    }
    forall p | p in seen ensures p in Paths(records) {
      var k :| 0 <= k < |records| && records[k].path == p;
      assert Paths(records)[k] == p;
    }
    expected := Some(seen);
  }

  method VerifyBackup<D(==, !new)>(hash: Bytes -> D, b: Stored<D>, arrange: set<Path> -> seq<Path>) returns (ok: bool)
    requires Arranges(arrange) && (b.data.Some? ==> Rooted(b.data.value))
    ensures ok <==> Accepts(hash, b)
  {
    if b.manifest.None? || b.config.None? || b.data.None? || b.others != {} {
      return false;
    }
    if b.manifest.value.configDigest != hash(b.config.value) {
      return false;
    }
    var expected := CheckRecords(hash, b.data.value, b.manifest.value.records);
    if expected.None? {
      return false;
    }
    var walked := WalkTree(b.data.value, arrange);
    var observed := set p | p in walked;
    ok := observed == expected.value;
    assert observed == b.data.value.Keys;
  }

  lemma CopyIsRooted(source: Tree, copy: Tree)
    requires Rooted(source) && CopyOf(source, copy)
    ensures Rooted(copy)
  {
    forall p | p in copy ensures Housed(copy, p) { assert Housed(source, p); }
  }

  lemma CreatedIsAccepted<D(!new)>(hash: Bytes -> D, source: Tree, config: Bytes, b: Stored<D>)
    requires Rooted(source) && Clean(source) && BackupOf(hash, source, config, b)
    ensures Accepts(hash, b)
  {
    var records := b.manifest.value.records;
    forall i | 0 <= i < |records| ensures RecordOk(records[i]) && Matches(hash, b.data.value, records[i]) {
      assert records[i].path in source;
    }
  }

  // ---------------------------------------------------------------- what acceptance means

  function Plain(e: Entry): Entry {
    match e
    case Dir(_) => Dir(0)
    case File(_, data) => File(0, data)
    case Special => Special
  }

  /** Same paths, kinds and contents. */
  ghost predicate SameContent(a: Tree, b: Tree) {
    a.Keys == b.Keys && forall p | p in a :: Plain(a[p]) == Plain(b[p])
  }

  /** One manifest admits only one tree. */
  lemma ManifestDecides<D(!new)>(hash: Bytes -> D, records: seq<Record<D>>, a: Tree, b: Tree)
    requires CollisionFree(hash) && ManifestHolds(hash, a, records) && ManifestHolds(hash, b, records)
    ensures SameContent(a, b)
  {
    forall p ensures p in a <==> p in b { assert p in Paths(records) <==> p in a; }
    forall p | p in a ensures Plain(a[p]) == Plain(b[p]) {
      assert p in Paths(records);
      var i :| 0 <= i < |records| && Paths(records)[i] == p;
      assert records[i].path == p;
    }
  }

  /**
   A backup whose data was exchanged is accepted exactly when paths, kinds and contents are still those of the source.
   */
  lemma TamperingIsSeen<D(!new)>(hash: Bytes -> D, source: Tree, config: Bytes, b: Stored<D>, data: Tree)
    requires CollisionFree(hash) && Rooted(source) && Clean(source) && BackupOf(hash, source, config, b)
    ensures Accepts(hash, b.(data := Some(data))) <==> SameContent(source, data)
  {
    var records := b.manifest.value.records;
    CreatedIsAccepted(hash, source, config, b);
    assert SameContent(source, b.data.value);
    if ManifestHolds(hash, data, records) {
      ManifestDecides(hash, records, b.data.value, data);
    }
    if SameContent(source, data) {
      forall i | 0 <= i < |records| ensures Matches(hash, data, records[i]) {
        assert Matches(hash, b.data.value, records[i]);
        assert Plain(data[records[i].path]) == Plain(source[records[i].path]);
      }
    }
  }

  // ---------------------------------------------------------------- rebuilding

  /** One entry of the manifest put into the tree being rebuilt; `masked` is what `mkdir` makes of a mode. */
  function Placed<D(==)>(hash: Bytes -> D, masked: int -> int, source: Tree, t: Tree, r: Record<D>): Option<Tree> {
    if !RecordOk(r) || !CanPlace(t, r.path) then None
    else if r.kind.DirectoryKind? then Some(t[r.path := Dir(masked(r.mode))])
    else if Matches(hash, source, r) then Some(t[r.path := File(r.mode, source[r.path].data)])
    else None
  }

  function Built<D(==)>(hash: Bytes -> D, masked: int -> int, source: Tree, records: seq<Record<D>>): Option<Tree> {
    if |records| == 0 then Some(map[])
    else
      var t := Built(hash, masked, source, records[..|records| - 1]);
      if t.None? then None else Placed(hash, masked, source, t.value, records[|records| - 1])
  }

  /** The tree holds what one entry says. */
  ghost predicate HoldsEntry<D(!new)>(masked: int -> int, source: Tree, t: Tree, r: Record<D>) {
    && r.path in t
    && if r.kind.DirectoryKind? then t[r.path] == Dir(masked(r.mode))
       else r.path in source && source[r.path].File? && t[r.path] == File(r.mode, source[r.path].data)
  }

  /** The tree holds what the entries say, and nothing else. */
  ghost predicate Rebuilt<D(!new)>(masked: int -> int, source: Tree, records: seq<Record<D>>, t: Tree) {
    && (forall p :: p in t <==> p in Paths(records))
    && forall i | 0 <= i < |records| :: HoldsEntry(masked, source, t, records[i])
  }

  ghost predicate ListedWith<D(!new)>(hash: Bytes -> D, source: Tree, records: seq<Record<D>>) {
    && (forall i | 0 <= i < |records| :: RecordOk(records[i]) && Matches(hash, source, records[i]))
    && Distinct(Paths(records))
  }

  lemma ListedPrefix<D(!new)>(hash: Bytes -> D, source: Tree, front: seq<Record<D>>, r: Record<D>)
    requires ListedWith(hash, source, front + [r])
    ensures ListedWith(hash, source, front) && RecordOk(r) && Matches(hash, source, r)
    ensures Paths(front + [r]) == Paths(front) + [r.path] && r.path !in Paths(front)
  {
    var records := front + [r];
    assert records[|front|] == r;
    assert forall i | 0 <= i < |front| :: front[i] == records[i] && Paths(front)[i] == Paths(records)[i];
    assert Paths(records)[|front|] == r.path;
  }

  /** The next entry can be placed when its parent directory stands in front of it. */
  lemma NextPlaced<D(!new)>(
      hash: Bytes -> D, masked: int -> int, source: Tree, front: seq<Record<D>>, r: Record<D>, t: Tree)
    requires Rooted(source) && ListedWith(hash, source, front) && RecordOk(r) && Matches(hash, source, r)
    requires Rebuilt(masked, source, front, t) && r.path !in Paths(front)
    ensures CanPlace(t, r.path) <==> (|r.path| > 1 ==> Parent(r.path) in Paths(front))
  {
    var p := r.path;
    assert Housed(source, p);
    if |p| > 1 && Parent(p) in Paths(front) {
      var j :| 0 <= j < |front| && Paths(front)[j] == Parent(p);
      assert Matches(hash, source, front[j]) && HoldsEntry(masked, source, t, front[j]);
    }
  }

  lemma NextRebuilt<D(!new)>(
      hash: Bytes -> D, masked: int -> int, source: Tree, front: seq<Record<D>>, r: Record<D>, t: Tree)
    requires RecordOk(r) && Matches(hash, source, r) && CanPlace(t, r.path)
    requires Rebuilt(masked, source, front, t)
    ensures Placed(hash, masked, source, t, r).Some?
    ensures Rebuilt(masked, source, front + [r], Placed(hash, masked, source, t, r).value)
  {
    var u := Placed(hash, masked, source, t, r).value;
    assert Paths(front + [r]) == Paths(front) + [r.path];
    assert HoldsEntry(masked, source, u, r);
    forall i | 0 <= i < |front| ensures HoldsEntry(masked, source, u, front[i]) {
      assert HoldsEntry(masked, source, t, front[i]);
    }
  }

  lemma NextStep<D(!new)>(
      hash: Bytes -> D, masked: int -> int, source: Tree, front: seq<Record<D>>, r: Record<D>, t: Tree)
    requires Rooted(source) && ListedWith(hash, source, front) && RecordOk(r) && Matches(hash, source, r)
    requires Rebuilt(masked, source, front, t) && r.path !in Paths(front)
    ensures Placed(hash, masked, source, t, r).Some? <==> (|r.path| > 1 ==> Parent(r.path) in Paths(front))
    ensures Placed(hash, masked, source, t, r).Some? ==>
      Rebuilt(masked, source, front + [r], Placed(hash, masked, source, t, r).value)
  {
    NextPlaced(hash, masked, source, front, r, t);
    if CanPlace(t, r.path) { NextRebuilt(hash, masked, source, front, r, t); }
  }

  /** Rebuilding from what verification accepted fails only on a manifest that lists a child before its parent. */
  lemma {:induction false} RebuildsIff<D(!new)>(
      hash: Bytes -> D, masked: int -> int, source: Tree, records: seq<Record<D>>)
    requires Rooted(source) && ListedWith(hash, source, records)
    ensures Built(hash, masked, source, records).Some? <==> ParentsFirst(Paths(records))
    ensures Built(hash, masked, source, records).Some? ==>
      Rebuilt(masked, source, records, Built(hash, masked, source, records).value)
  {
    if |records| > 0 {
      var front, r := records[..|records| - 1], records[|records| - 1];
      assert records == front + [r];
      ListedPrefix(hash, source, front, r);
      RebuildsIff(hash, masked, source, front);
      ParentsFirstGrows(Paths(front), r.path);
      var t := Built(hash, masked, source, front);
      if t.Some? { NextStep(hash, masked, source, front, r, t.value); }
    }
  }

  lemma ParentsFirstGrows(s: seq<Path>, p: Path)
    ensures ParentsFirst(s + [p]) <==> ParentsFirst(s) && (|p| > 1 ==> Parent(p) in s)
  {
    var longer := s + [p];
    forall i | 0 <= i < |s| ensures AfterParent(longer, i) <==> AfterParent(s, i) {
      assert longer[..i] == s[..i];
    }
    assert longer[..|s|] == s;
    assert AfterParent(longer, |s|) <==> (|p| > 1 ==> Parent(p) in s);
  }

  /** What is rebuilt stays inside the directory and has no special entries or permission bits. */
  lemma RebuiltIsTame<D(!new)>(
      hash: Bytes -> D, masked: int -> int, source: Tree, records: seq<Record<D>>, t: Tree)
    requires ListedWith(hash, source, records) && Rebuilt(masked, source, records, t)
    ensures forall p | p in t :: SafePath(p) && !t[p].Special? && (t[p].File? ==> 0 <= t[p].mode <= 511)
  {
    forall p | p in t ensures SafePath(p) && !t[p].Special? && (t[p].File? ==> 0 <= t[p].mode <= 511) {
      assert p in Paths(records);
      var i :| 0 <= i < |records| && Paths(records)[i] == p;
      assert HoldsEntry(masked, source, t, records[i]) && RecordOk(records[i]);
    }
  }

  /** Same paths and kinds, and files with the same contents and mode. */
  ghost predicate SameUpToDirectoryModes(a: Tree, b: Tree) {
    && a.Keys == b.Keys
    && forall p | p in a :: if a[p].Dir? then b[p].Dir? else b[p] == a[p]
  }

  /** A backup rebuilds to the tree it was made from. */
  lemma BackupRoundTrip<D(!new)>(hash: Bytes -> D, masked: int -> int, source: Tree, config: Bytes, b: Stored<D>)
    requires Rooted(source) && Clean(source) && BackupOf(hash, source, config, b)
    ensures Built(hash, masked, b.data.value, b.manifest.value.records).Some?
    ensures SameUpToDirectoryModes(source, Built(hash, masked, b.data.value, b.manifest.value.records).value)
  {
    var records, copy := b.manifest.value.records, b.data.value;
    CreatedIsAccepted(hash, source, config, b);
    CopyIsRooted(source, copy);
    RebuildsIff(hash, masked, copy, records);
    var t := Built(hash, masked, copy, records).value;
    forall p ensures p in t <==> p in source { assert p in Paths(records) <==> p in source; }
    forall p | p in source ensures if source[p].Dir? then t[p].Dir? else t[p] == source[p] {
      var i :| 0 <= i < |records| && Paths(records)[i] == p;
      assert HoldsEntry(masked, copy, t, records[i]);
    }
  }

  /** A directory with one file in it, and a manifest that lists the file first. */
  function ChildFirst<D>(hash: Bytes -> D): Stored<D> {
    Stored(
      Some(Manifest(hash([]), [Record(["d", "f"], FileKind, FILE_MODE, 0, Some(hash([]))),
                               Record(["d"], DirectoryKind, DIR_MODE, 0, None)])),
      Some([]),
      Some(map[["d"] := Dir(DIR_MODE), ["d", "f"] := File(FILE_MODE, [])]),
      {})
  }

  /** Verification accepts it, and rebuilding fails. */
  lemma AcceptedButNotRebuilt<D(!new)>(hash: Bytes -> D, masked: int -> int)
    ensures var b := ChildFirst(hash);
      && Accepts(hash, b) && Rooted(b.data.value)
      && Built(hash, masked, b.data.value, b.manifest.value.records).None?
  {
    var b := ChildFirst(hash);
    var data, records := b.data.value, b.manifest.value.records;
    assert Paths(records) == [["d", "f"], ["d"]];
    assert Parent(["d", "f"]) == ["d"] && ["d", "f"] != ["d"];
    forall p | p in data ensures SafePath(p) && Housed(data, p) {
      assert p == ["d"] || p == ["d", "f"];
    }
    assert forall p :: p in Paths(records) <==> p in data;
    assert ManifestHolds(hash, data, records);
    assert !AfterParent(Paths(records), 0);
    RebuildsIff(hash, masked, data, records);
  }
}
