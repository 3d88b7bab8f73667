/**
 Replacing the data directory by a freshly built one (src/bk/admin_data.py): build beside it, rename the old directory
 away, rename the new one in, and undo on an exception.  A step may meet any fate.
 */
module TreeReplace {
  import opened Options
  import opened Faults
  import opened DataTree
  import opened Backup

  datatype Step =
    | MakeStaging | MakeRetired | DropRetired | Prepare | Place(index: nat) | SyncTree
    | MoveOld | MoveNew | SyncMoved | BackInner | SyncInner | Discard | SyncDone
    | Sweep | BackOuter | SyncOuter

  type Fates = Step -> Fate

  predicate Raises(f: Fate) {
    f.RaiseBefore? || f.RaiseAfter?
  }

  /** At most one step raises. */
  ghost predicate OneRaise(fates: Fates) {
    forall s, t :: Raises(fates(s)) && Raises(fates(t)) ==> s == t
  }

  /** The process dies at some step. */
  ghost predicate SomeDies(fates: Fates) {
    exists s :: fates(s).Die?
  }

  /** Everything from the temporary directories to the first rename goes well, with `n` entries to place. */
  ghost predicate Ready(fates: Fates, n: nat) {
    fates(MakeStaging).Fine? && fates(MakeRetired).Fine? && fates(DropRetired).Fine? && Prepared(fates, n)
  }

  ghost predicate Prepared(fates: Fates, n: nat) {
    fates(Prepare).Fine? && (forall i: nat | i < n :: fates(Place(i)).Fine?) && fates(SyncTree).Fine?
  }

  /**
   The old directory was renamed away, the new one did not come in, and the first way back failed or was not tried.
   */
  ghost predicate Away(fates: Fates) {
    || fates(MoveOld).RaiseAfter?
    || (fates(MoveOld).Fine? && fates(MoveNew).RaiseBefore? && fates(BackInner).RaiseBefore?)
  }

  /**
   ... and the second way back failed too, or was never reached: dropping the staging directory ignores errors of the
   file system, so what it raises is an interrupt, and that ends the handler.
   */
  ghost predicate Stranded(fates: Fates) {
    Away(fates) && (Raises(fates(Sweep)) || fates(BackOuter).RaiseBefore?)
  }

  /** The new directory was renamed in, and stays: the way back is blocked by anything it holds. */
  ghost predicate Switched(fates: Fates, built: Tree) {
    && fates(MoveOld).Fine?
    && (|| (fates(MoveNew).Fine? && fates(SyncMoved).Fine?)
        || ((fates(MoveNew).RaiseAfter? || (fates(MoveNew).Fine? && Raises(fates(SyncMoved))))
            && (built != map[] || fates(BackInner).RaiseBefore?)))
  }

  /** The two renames and what follows them go well. */
  ghost predicate AllFine(fates: Fates) {
    && fates(MoveOld).Fine? && fates(MoveNew).Fine? && fates(SyncMoved).Fine?
    && fates(Discard).Fine? && fates(SyncDone).Fine?
  }

  /** What must hold at every instant: the old tree in place, the new one in place, or the old one set aside. */
  ghost predicate Safe(was: Option<Tree>, built: Option<Tree>, data: Option<Tree>, retired: Option<Tree>) {
    data == was || (built.Some? && data == built) || (data == None && retired == was)
  }

  /** What the outer handler finds. */
  ghost predicate Undoable(
      fates: Fates, was: Option<Tree>, built: Option<Tree>, n: nat, data: Option<Tree>, retired: Option<Tree>)
  {
    if was.None? then data == None && retired == None
    else if built.None? || !Prepared(fates, n) then data == was
    else if Away(fates) then data == None && retired == was
    else data == if Switched(fates, built.value) then built else was
  }

  /** A step that changes none of the three trees. */
  method Quiet(fate: Fate) returns (end: Ending)
    ensures end == (match fate case Fine => Ok case Die => Dead case _ => Raised)
  {
    end := match fate case Fine => Ok case Die => Dead case _ => Raised;
  }

  /** The data directory, the one being built, and the old one on its way out. */
  class Site {
    var data: Option<Tree>
    var staging: Option<Tree>
    var retired: Option<Tree>

    constructor (data: Option<Tree>)
      ensures this.data == data && staging == None && retired == None
    {
      this.data, staging, retired := data, None, None;
    }

    method MoveAway(fate: Fate) returns (end: Ending)
      requires retired == None
      modifies this`data, this`retired
      ensures end.Ok? <==> fate.Fine? && old(data).Some?
      ensures end.Dead? <==> fate.Die?
      ensures if fate.Fine? || fate.RaiseAfter?
        then data == None && retired == old(data)
        else data == old(data) && retired == None
    {
      if fate.Die? {
        return Dead;
      }
      if fate.RaiseBefore? || data.None? {
        return Raised;
      }
      data, retired := None, data;
      end := if fate.Fine? then Ok else Raised;
    }

    /** Renaming the built directory into the place just left. */
    method MoveNewIn(fate: Fate) returns (end: Ending)
      requires data == None && staging.Some?
      modifies this`data, this`staging
      ensures end == (match fate case Fine => Ok case Die => Dead case _ => Raised)
      ensures if fate.Fine? || fate.RaiseAfter?
        then data == old(staging) && staging == None
        else data == None && staging == old(staging)
    {
      if fate.Die? {
        return Dead;
      }
      if fate.RaiseBefore? {
        return Raised;
      }
      data, staging := staging, None;
      end := if fate.Fine? then Ok else Raised;
    }

    /** Renaming the old directory back fails by itself when a directory that holds anything is in its place. */
    method MoveBack(fate: Fate) returns (end: Ending)
      requires retired.Some?
      modifies this`data, this`retired
      ensures end.Ok? <==> fate.Fine? && (old(data) == None || old(data) == Some(map[]))
      ensures end.Dead? <==> fate.Die?
      ensures if (fate.Fine? || fate.RaiseAfter?) && (old(data) == None || old(data) == Some(map[]))
        then data == old(retired) && retired == None
        else data == old(data) && retired == old(retired)
    {
      if fate.Die? {
        return Dead;
      }
      if fate.RaiseBefore? || (data.Some? && data.value != map[]) {
        return Raised;
      }
      data, retired := retired, None;
      end := if fate.Fine? then Ok else Raised;
    }

    method Build<D(==, !new)>(fates: Fates, hash: Bytes -> D, masked: int -> int, source: Tree, records: seq<Record<D>>)
      returns (end: Ending)
      requires staging == Some(map[])
      modifies this`staging
      ensures staging.Some?
      ensures end.Ok? <==>
        (forall i: nat | i < |records| :: fates(Place(i)).Fine?) && Built(hash, masked, source, records).Some?
      ensures end.Ok? ==> staging == Built(hash, masked, source, records)
      ensures end.Dead? ==> SomeDies(fates)
    {
      for i := 0 to |records|
        invariant staging.Some? && staging == Built(hash, masked, source, records[..i])
        invariant forall k: nat | k < i :: fates(Place(k)).Fine?
      {
        assert records[..i + 1][..i] == records[..i];
        var next := Placed(hash, masked, source, staging.value, records[i]);
        if next.None? {
          BuiltPrefix(hash, masked, source, records, i + 1);
          return Raised;
        }
        match fates(Place(i)) {
          case Fine => staging := next;
          case RaiseBefore => return Raised;
          case RaiseAfter => staging := next; return Raised;
          case Die => return Dead;
        }
      }
      assert records[..|records|] == records;
      end := Ok;
    }

    /** The two renames and what follows them; `ruins` is what an interrupted removal leaves. */
    method Swap(fates: Fates, ruins: Option<Tree>) returns (end: Ending)
      requires staging.Some? && retired == None
      modifies this
      ensures end.Ok? <==> old(data).Some? && AllFine(fates)
      ensures end.Ok? ==> data == old(staging) && staging == None && retired == None
      ensures end.Raised? && old(data).None? ==> data == None && retired == None
      ensures end.Raised? && old(data).Some? ==>
        if Away(fates) then data == None && retired == old(data)
        else if Switched(fates, old(staging).value) then data == old(staging)
        else data == old(data)
      ensures end.Dead? ==> data == old(data) || data == old(staging) || (data == None && retired == old(data))
      ensures end.Dead? ==> SomeDies(fates)
    {
      end := MoveAway(fates(MoveOld));
      if !end.Ok? {
        return;
      }
      end := MoveNewIn(fates(MoveNew));
      if end.Ok? {
        end := Quiet(fates(SyncMoved));
      }
      if end.Dead? {
        return;
      }
      if end.Raised? {
        end := MoveBack(fates(BackInner));
        if end.Ok? {
          end := Quiet(fates(SyncInner));
        }
        end := if end.Dead? then Dead else Raised;
        return;
      }
      if !fates(Discard).Fine? {
        retired := ruins;
        return if fates(Discard).Die? then Dead else Raised;
      }
      retired := None;
      end := Quiet(fates(SyncDone));
    }

    /** The outer handler: drop the staging directory, and put the old one back if the data directory is missing. */
    method Undo(fates: Fates) returns (end: Ending)
      modifies this
      ensures !end.Ok?
      ensures old(data).Some? || old(retired).None? ==> data == old(data) && retired == old(retired)
      ensures old(data).None? && old(retired).Some? ==>
        (data == None && retired == old(retired)) || data == old(retired)
      ensures end.Raised? && old(data).None? && old(retired).Some? ==>
        (data == None <==> Raises(fates(Sweep)) || fates(BackOuter).RaiseBefore?)
      ensures end.Dead? ==> SomeDies(fates)
    {
      if !fates(Sweep).Fine? {
        return if fates(Sweep).Die? then Dead else Raised;
      }
      staging := None;
      if retired.Some? && data.None? {
        end := MoveBack(fates(BackOuter));
        if end.Ok? {
          end := Quiet(fates(SyncOuter));
        }
        return if end.Dead? then Dead else Raised;
      }
      end := Raised;
    }

    /** Everything inside the outer `try`. */
    method BuildAndSwap<D(==, !new)>(
        fates: Fates, hash: Bytes -> D, masked: int -> int, source: Tree, records: seq<Record<D>>, ruins: Option<Tree>)
      returns (end: Ending)
      requires staging == Some(map[]) && retired == None
      modifies this
      ensures end.Ok? <==>
        old(data).Some? && Built(hash, masked, source, records).Some? && Prepared(fates, |records|) && AllFine(fates)
      ensures end.Ok? ==> data == Built(hash, masked, source, records) && staging == None && retired == None
      ensures end.Raised? ==> Undoable(fates, old(data), Built(hash, masked, source, records), |records|, data, retired)
      ensures end.Dead? ==> SomeDies(fates) && Safe(old(data), Built(hash, masked, source, records), data, retired)
    {
      end := Quiet(fates(Prepare));
      if !end.Ok? {
        return;
      }
      end := Build(fates, hash, masked, source, records);
      if !end.Ok? {
        return;
      }
      end := Quiet(fates(SyncTree));
      if !end.Ok? {
        return;
      }
      end := Swap(fates, ruins);
    }

    /** The outer `try` with its handler. */
    method Guarded<D(==, !new)>(
        fates: Fates, hash: Bytes -> D, masked: int -> int, source: Tree, records: seq<Record<D>>, ruins: Option<Tree>)
      returns (end: Ending)
      requires staging == Some(map[]) && retired == None
      modifies this
      ensures end.Ok? <==>
        old(data).Some? && Built(hash, masked, source, records).Some? && Prepared(fates, |records|) && AllFine(fates)
      ensures end.Ok? ==> data == Built(hash, masked, source, records) && staging == None && retired == None
      ensures end.Raised? ==>
        var built := Built(hash, masked, source, records);
        if old(data).None? || built.None? || !Prepared(fates, |records|) then data == old(data)
        else if Stranded(fates) then data == None && retired == old(data)
        else if Switched(fates, built.value) then data == built
        else data == old(data)
      ensures end.Dead? ==> SomeDies(fates) && Safe(old(data), Built(hash, masked, source, records), data, retired)
    {
      end := BuildAndSwap(fates, hash, masked, source, records, ruins);
      if end.Raised? {
        end := Undo(fates);
      }
    }

    /** Replaces the data directory by what the entries describe; no entries clear it. */
    method ReplaceTree<D(==, !new)>(
        fates: Fates, hash: Bytes -> D, masked: int -> int, source: Tree, records: seq<Record<D>>, ruins: Option<Tree>)
      returns (end: Ending)
      modifies this
      ensures end.Ok? <==>
        old(data).Some? && Built(hash, masked, source, records).Some? && Ready(fates, |records|) && AllFine(fates)
      ensures end.Ok? ==> data == Built(hash, masked, source, records) && staging == None && retired == None
      ensures end.Raised? ==>
        var built := Built(hash, masked, source, records);
        if old(data).None? || built.None? || !Ready(fates, |records|) then data == old(data)
        else if Stranded(fates) then data == None && retired == old(data)
        else if Switched(fates, built.value) then data == built
        else data == old(data)
      ensures OneRaise(fates) && (end.Raised? || !SomeDies(fates)) ==>
        data == old(data) || data == Built(hash, masked, source, records)
      ensures end.Dead? ==> SomeDies(fates) && Safe(old(data), Built(hash, masked, source, records), data, retired)
    {
      staging, retired := None, None;
      end := Quiet(fates(MakeStaging));
      if !end.Ok? {
        return;
      }
      staging := Some(map[]);
      end := Quiet(fates(MakeRetired));
      if !end.Ok? {
        return;
      }
      end := Quiet(fates(DropRetired));
      if !end.Ok? {
        return;
      }
      end := Guarded(fates, hash, masked, source, records, ruins);
      if Stranded(fates) {
        StrandedNeedsTwo(fates);
      }
    }
  }

  /** Losing sight of the data directory takes two failures, and two can do it. */
  lemma StrandedNeedsTwo(fates: Fates)
    requires Stranded(fates)
    ensures !OneRaise(fates)
  {
    assert Raises(fates(Sweep)) || Raises(fates(BackOuter));
    assert Raises(fates(MoveOld)) || Raises(fates(MoveNew));
  }

  function TwoFailures(): Fates {
    s => if s == MoveOld then RaiseAfter else if s == BackOuter then RaiseBefore else Fine
  }

  lemma TwoCanStrand(n: nat)
    ensures Ready(TwoFailures(), n) && Stranded(TwoFailures())
    ensures forall s | Raises(TwoFailures()(s)) :: s == MoveOld || s == BackOuter
  {
  }

  /** The run: renaming the old directory away reports an error late, and renaming it back fails. */
  method LoseSight<D(==, !new)>(hash: Bytes -> D, masked: int -> int, t: Tree, source: Tree, records: seq<Record<D>>)
    returns (site: Site, end: Ending)
    requires Built(hash, masked, source, records).Some?
    ensures end.Raised? && site.data == None && site.retired == Some(t)
  {
    site := new Site(Some(t));
    TwoCanStrand(|records|);
    assert !SomeDies(TwoFailures());
    end := site.ReplaceTree(TwoFailures(), hash, masked, source, records, None);
  }

  /** The names a data directory may hold when a backup is restored over it. */
  predicate OnlyLocks(t: Tree) {
    forall p | p in t && |p| == 1 :: p[0] == "ledger.lock" || p[0] == "usage.lock"
  }

  method RestoreBackup<D(==, !new)>(
      site: Site, fates: Fates, hash: Bytes -> D, masked: int -> int, b: Stored<D>, arrange: set<Path> -> seq<Path>,
      ruins: Option<Tree>)
    returns (end: Ending)
    requires Arranges(arrange) && (b.data.Some? ==> Rooted(b.data.value))
    modifies site
    ensures !Accepts(hash, b) || old(site.data).None? || !OnlyLocks(old(site.data).value) ==>
      end == Raised && site.data == old(site.data)
    ensures end.Ok? ==>
      Accepts(hash, b) && site.data.Some? && Rebuilt(masked, b.data.value, b.manifest.value.records, site.data.value)
    ensures (&& Accepts(hash, b) && old(site.data).Some? && OnlyLocks(old(site.data).value)
             && forall s :: fates(s).Fine?) ==>
      (end.Ok? <==> ParentsFirst(Paths(b.manifest.value.records)))
    ensures end.Ok? ==> site.data == Built(hash, masked, b.data.value, b.manifest.value.records)
    ensures end.Ok? ==> forall p | p in site.data.value ::
      SafePath(p) && !site.data.value[p].Special? && (site.data.value[p].File? ==> 0 <= site.data.value[p].mode <= 511)
    ensures end.Dead? ==> SomeDies(fates)
    ensures OneRaise(fates) && (end.Raised? || !SomeDies(fates)) && site.data != old(site.data) ==>
      site.data.Some? && Accepts(hash, b) && Rebuilt(masked, b.data.value, b.manifest.value.records, site.data.value)
  {
    var ok := VerifyBackup(hash, b, arrange);
    if !ok || site.data.None? || !OnlyLocks(site.data.value) {
      return Raised;
    }
    var records := b.manifest.value.records;
    RebuildsIff(hash, masked, b.data.value, records);
    end := site.ReplaceTree(fates, hash, masked, b.data.value, records, ruins);
    if end.Ok? {
      RebuiltIsTame(hash, masked, b.data.value, records, site.data.value);
    }
  }

  /** Backing up a tree and restoring it over an empty data directory gives the tree back. */
  method BackupThenRestore<D(==, !new)>(
      site: Site, hash: Bytes -> D, masked: int -> int, source: Tree, config: Bytes, arrange: set<Path> -> seq<Path>)
    returns (end: Ending)
    requires Rooted(source) && Arranges(arrange)
    modifies site
    ensures end.Ok? <==> Backup.Clean(source) && old(site.data).Some? && OnlyLocks(old(site.data).value)
    ensures end.Ok? ==> site.data.Some? && SameUpToDirectoryModes(source, site.data.value)
    ensures !end.Ok? ==> site.data == old(site.data)
  {
    var b := CreateBackup(hash, source, config, arrange);
    if b.None? {
      return Raised;
    }
    CopyIsRooted(source, b.value.data.value);
    BackupRoundTrip(hash, masked, source, config, b.value);
    end := RestoreBackup(site, s => Fine, hash, masked, b.value, arrange, None);
  }

  lemma {:induction false} BuiltPrefix<D>(
      hash: Bytes -> D, masked: int -> int, source: Tree, records: seq<Record<D>>, n: nat)
    requires n <= |records| && Built(hash, masked, source, records[..n]).None?
    ensures Built(hash, masked, source, records).None?
    decreases |records|
  {
    if n < |records| {
      var front := records[..|records| - 1];
      assert front[..n] == records[..n];
      BuiltPrefix(hash, masked, source, front, n);
    } else {
      assert records[..n] == records;
    }
  }
}
