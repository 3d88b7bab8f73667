/**
 Moving GPUBK to another service account: ownership path by path over the managed tree, then the socket directory,
 the tracked unit files, the configuration and the manifest, under a journal that allows rollback and recovery.
 */
module Transfer {
  import opened Faults
  import opened Options
  import opened Basics

  datatype Owner = Owner(uid: nat, gid: nat)

  datatype Config = Config(serviceUid: nat, rest: string)

  datatype Move = Move(from: Owner, to: Owner)

  /** `services` holds the managed text of each tracked unit file, if services are tracked. */
  datatype Manifest = Manifest(
    service: Owner, configDigest: string, services: Option<map<string, string>>, moves: seq<Move>)

  datatype Journal = Journal(from: Owner, to: Owner, configBefore: Kept<Config>, manifestBefore: Kept<Manifest>)

  /** Everything a transfer touches, apart from the journal. */
  datatype Snapshot = Snapshot(
    owners: map<string, Owner>, socket: Owner, units: map<string, string>,
    config: Kept<Config>, manifest: Kept<Manifest>)

  /** The programs and the account a server runs the administrator commands with. */
  datatype Site = Site(digest: Config -> string, render: (string, Owner) -> string, gid: nat)

  function Retarget(site: Site, services: map<string, string>, to: Owner): map<string, string> {
    map name | name in services :: site.render(name, to)
  }

  function NewConfig(c: Config, to: Owner): Config {
    c.(serviceUid := to.uid)
  }

  function NewManifest(site: Site, m: Manifest, c: Config, to: Owner): Manifest {
    Manifest(
      to, site.digest(NewConfig(c, to)),
      if m.services.Some? then Some(Retarget(site, m.services.value, to)) else None,
      Last(m.moves, 31) + [Move(m.service, to)])
  }

  /** The all-new state of a transfer that starts from `s`. */
  function Moved(site: Site, s: Snapshot, to: Owner): Snapshot {
    var m := s.manifest.document;
    Snapshot(
      map p | p in s.owners :: to,
      to,
      if m.services.Some? then s.units + Retarget(site, m.services.value, to) else s.units,
      Kept(NewConfig(s.config.document, to), site.gid),
      Kept(NewManifest(site, m, s.config.document, to), site.gid))
  }

  /** What loading a transfer plan insists on: every managed thing agrees with the manifest. */
  ghost predicate Consistent(site: Site, s: Snapshot) {
    var m := s.manifest.document;
    && (forall p | p in s.owners :: s.owners[p] == m.service)
    && s.socket == m.service
    && (m.services.Some? ==> forall n | n in m.services.value :: n in s.units && s.units[n] == m.services.value[n])
    && s.config.document.serviceUid == m.service.uid
    && m.configDigest == site.digest(s.config.document)
  }

  function JournalOf(s: Snapshot, to: Owner): Journal {
    Journal(s.manifest.document.service, to, s.config, s.manifest)
  }

  /** Over the same keys, every entry is that of `a` or that of `b`. */
  ghost predicate Between<T(!new)>(s: map<string, T>, a: map<string, T>, b: map<string, T>) {
    && s.Keys == a.Keys == b.Keys
    && forall k | k in s :: s[k] == a[k] || s[k] == b[k]
  }

  /** A state some of whose parts are those of `a` and the others those of `b`, file groups apart. */
  ghost predicate Mixed(s: Snapshot, a: Snapshot, b: Snapshot) {
    && Between(s.owners, a.owners, b.owners)
    && (s.socket == a.socket || s.socket == b.socket)
    && Between(s.units, a.units, b.units)
    && (s.config.document == a.config.document || s.config.document == b.config.document)
    && (s.manifest.document == a.manifest.document || s.manifest.document == b.manifest.document)
  }

  class Server {
    const site: Site
    const weather: Weather
    var owners: map<string, Owner>
    var socket: Owner
    var units: map<string, string>
    var config: Kept<Config>
    var manifest: Kept<Manifest>
    var journal: Option<Journal>

    /** The state the pending journal, if any, goes back to; without a journal, the state itself. */
    ghost var base: Snapshot

    ghost function Now(): Snapshot
      reads this
    {
      Snapshot(owners, socket, units, config, manifest)
    }

    /** The invariant of every reachable state, between commands and after a crash in the middle of one. */
    ghost predicate Valid()
      reads this
    {
      && Consistent(site, base)
      && match journal
         case None => Now() == base
         case Some(j) => j == JournalOf(base, j.to) && Mixed(Now(), base, Moved(site, base, j.to))
    }

    constructor (site: Site, weather: Weather, s: Snapshot)
      requires Consistent(site, s)
      ensures Valid() && Now() == s && journal.None? && this.site == site && this.weather == weather
    {
      this.site, this.weather := site, weather;
      owners, socket, units, config, manifest := s.owners, s.socket, s.units, s.config, s.manifest;
      journal, base := None, s;
    }

    // ------------------------------------------------------------ the parts

    /** Give every path of the managed tree to `target`, one at a time, in some order. */
    method RetargetTree(allowed: set<Owner>, target: Owner) returns (e: Ending)
      modifies this`owners, weather
      ensures owners.Keys == old(owners).Keys
      ensures forall p | p in owners :: owners[p] == old(owners)[p] || owners[p] == target
      ensures e.Ok? ==> forall p | p in owners :: owners[p] == target
      ensures old(weather.Calm()) ==> weather.Calm()
      ensures old(weather.Calm()) && (forall p | p in owners :: old(owners)[p] in allowed) ==> e.Ok?
    {
      var f := weather.Meet();
      if f.Die? { return Dead; }
      if !f.Fine? || exists p | p in owners :: owners[p] !in allowed { return Raised; }
      var todo := owners.Keys;
      while todo != {}
        invariant todo <= owners.Keys == old(owners).Keys
        invariant forall p | p in todo :: owners[p] == old(owners)[p]
        invariant forall p | p in owners && p !in todo :: owners[p] == target
        invariant old(weather.Calm()) ==> weather.Calm()
      {
        var p :| p in todo;
        f := weather.Meet();
        if f.Die? { return Dead; }
        if f.RaiseBefore? || owners[p] !in allowed { return Raised; }
        owners := owners[p := target];
        todo := todo - {p};
        if f.RaiseAfter? { return Raised; }
      }
      f := weather.Meet();
      if f.Die? { return Dead; }
      if !f.Fine? || exists p | p in owners :: owners[p] != target { return Raised; }
      return Ok;
    }

    method RetargetSocket(allowed: set<Owner>, target: Owner) returns (e: Ending)
      modifies this`socket, weather
      ensures socket == old(socket) || socket == target
      ensures e.Ok? ==> socket == target
      ensures old(weather.Calm()) ==> weather.Calm()
      ensures old(weather.Calm()) && old(socket) in allowed ==> e.Ok?
    {
      var f := weather.Meet();
      if f.Die? { return Dead; }
      if f.RaiseBefore? || socket !in allowed { return Raised; }
      socket := target;
      return if f.RaiseAfter? then Raised else Ok;
    }

    /** Bring the tracked unit files to `target`, refusing to touch any if one holds neither `target` nor `other`. */
    method ApplyUnits(target: map<string, string>, other: map<string, string>) returns (e: Ending)
      requires target.Keys == other.Keys
      modifies this`units, weather
      ensures target.Keys <= old(units).Keys ==> units.Keys == old(units).Keys
      ensures forall n | n in old(units) && n in units ::
        units[n] == old(units)[n] || (n in target && units[n] == target[n])
      ensures e.Ok? ==> forall n | n in target :: n in units && units[n] == target[n]
      ensures forall n | n in old(units) && n !in target :: n in units && units[n] == old(units)[n]
      ensures old(weather.Calm()) ==> weather.Calm()
      ensures (&& old(weather.Calm())
               && forall n | n in target ::
                 n in old(units) && (old(units)[n] == target[n] || old(units)[n] == other[n]))
              ==> e.Ok?
    {
      var f := weather.Meet();
      if f.Die? { return Dead; }
      if !f.Fine? || exists n | n in target :: n !in units || (units[n] != target[n] && units[n] != other[n]) {
        return Raised;
      }
      var todo := target.Keys;
      while todo != {}
        invariant todo <= target.Keys <= old(units).Keys == units.Keys
        invariant forall n | n in units && (n in todo || n !in target) :: units[n] == old(units)[n]
        invariant forall n | n in target && n !in todo :: units[n] == target[n]
        invariant old(weather.Calm()) ==> weather.Calm()
      {
        var n :| n in todo;
        f := weather.Meet();
        if f.Die? { return Dead; }
        if f.RaiseBefore? { return Raised; }
        units := units[n := target[n]];
        todo := todo - {n};
        if f.RaiseAfter? { return Raised; }
      }
      return Ok;
    }

    /** Replace the configuration file in one rename. */
    method WriteConfig(document: Config) returns (e: Ending)
      modifies this`config, weather
      ensures config == old(config) || config == Kept(document, site.gid)
      ensures e.Ok? ==> config == Kept(document, site.gid)
      ensures old(weather.Calm()) ==> weather.Calm() && e.Ok?
    {
      var f := weather.Meet();
      if f.Die? { return Dead; }
      if f.RaiseBefore? { return Raised; }
      config := Kept(document, site.gid);
      return if f.RaiseAfter? then Raised else Ok;
    }

    method WriteManifest(document: Manifest) returns (e: Ending)
      modifies this`manifest, weather
      ensures manifest == old(manifest) || manifest == Kept(document, site.gid)
      ensures e.Ok? ==> manifest == Kept(document, site.gid)
      ensures old(weather.Calm()) ==> weather.Calm() && e.Ok?
    {
      var f := weather.Meet();
      if f.Die? { return Dead; }
      if f.RaiseBefore? { return Raised; }
      manifest := Kept(document, site.gid);
      return if f.RaiseAfter? then Raised else Ok;
    }

    /** Put a journalled file back: rewrite it, then give it its recorded group. */
    method RestoreConfig(before: Kept<Config>) returns (e: Ending)
      modifies this`config, weather
      ensures config.document == old(config).document || config.document == before.document
      ensures e.Ok? ==> config == before
      ensures old(weather.Calm()) ==> weather.Calm() && e.Ok?
    {
      e := WriteConfig(before.document);
      if !e.Ok? { return; }
      var f := weather.Meet();
      if f.Die? { return Dead; }
      if f.RaiseBefore? { return Raised; }
      config := before;
      return if f.RaiseAfter? then Raised else Ok;
    }

    method RestoreManifest(before: Kept<Manifest>) returns (e: Ending)
      modifies this`manifest, weather
      ensures manifest.document == old(manifest).document || manifest.document == before.document
      ensures e.Ok? ==> manifest == before
      ensures old(weather.Calm()) ==> weather.Calm() && e.Ok?
    {
      e := WriteManifest(before.document);
      if !e.Ok? { return; }
      var f := weather.Meet();
      if f.Die? { return Dead; }
      if f.RaiseBefore? { return Raised; }
      manifest := before;
      return if f.RaiseAfter? then Raised else Ok;
    }

    /** Leaving the maintenance guard can fail on its own, with every managed file already in place. */
    method LeaveGuard() returns (e: Ending)
      modifies weather
      ensures old(weather.Calm()) ==> weather.Calm() && e.Ok?
    {
      var f := weather.Meet();
      return if f.Fine? then Ok else if f.Die? then Dead else Raised;
    }

    method RemoveJournal() returns (e: Ending)
      modifies this`journal, weather
      ensures journal == old(journal) || journal.None?
      ensures e.Ok? ==> journal.None?
      ensures old(weather.Calm()) ==> weather.Calm() && e.Ok?
    {
      var f := weather.Meet();
      if f.Die? { return Dead; }
      if f.RaiseBefore? { return Raised; }
      journal := None;
      return if f.RaiseAfter? then Raised else Ok;
    }

    // ------------------------------------------------------------ the commands

    method RollbackUnits(j: Journal) returns (e: Ending)
      requires Valid() && journal == Some(j)
      modifies this`units, weather
      ensures Valid()
      ensures e.Ok? ==> units == base.units
      ensures old(weather.Calm()) ==> weather.Calm() && e.Ok?
    {
      var services := j.manifestBefore.document.services;
      if services.None? { return Ok; }
      ghost var was := units;
      UnitsAccepted(site, base, j.to, units);
      e := ApplyUnits(services.value, Retarget(site, services.value, j.to));
      UnitsBack(site, base, j.to, was, units);
    }

    method ForwardUnits(to: Owner) returns (e: Ending)
      requires Valid() && journal == Some(JournalOf(base, to)) && units == base.units && manifest == base.manifest
      modifies this`units, weather
      ensures Valid()
      ensures e.Ok? ==> units == Moved(site, base, to).units
      ensures old(weather.Calm()) ==> weather.Calm() && e.Ok?
    {
      var services := manifest.document.services;
      if services.None? { return Ok; }
      e := ApplyUnits(Retarget(site, services.value, to), services.value);
    }

    /** Give the tree and the socket directory back; a failure of one does not stop the other. */
    method RollbackOwners(j: Journal) returns (e: Ending, clean: bool)
      requires Valid() && journal == Some(j)
      modifies this`owners, this`socket, weather
      ensures Valid()
      ensures !e.Raised?
      ensures clean ==> e.Ok? && owners == base.owners && socket == base.socket
      ensures old(weather.Calm()) ==> weather.Calm() && e.Ok? && clean
    {
      var pairs := {j.from, j.to};
      e := RetargetTree(pairs, j.from);
      assert Valid() && (e.Ok? ==> owners == base.owners);
      if e.Dead? { return e, false; }
      clean := e.Ok?;
      e := RetargetSocket(pairs, j.from);
      if e.Dead? { return e, false; }
      return Ok, clean && e.Ok?;
    }

    /** Put the two journalled files back; a failure of one does not stop the other. */
    method RollbackFiles(j: Journal) returns (e: Ending, clean: bool)
      requires Valid() && journal == Some(j)
      modifies this`config, this`manifest, weather
      ensures Valid()
      ensures !e.Raised?
      ensures clean ==> e.Ok? && config == base.config && manifest == base.manifest
      ensures old(weather.Calm()) ==> weather.Calm() && e.Ok? && clean
    {
      e := RestoreConfig(j.configBefore);
      if e.Dead? { return e, false; }
      clean := e.Ok?;
      e := RestoreManifest(j.manifestBefore);
      if e.Dead? { return e, false; }
      return Ok, clean && e.Ok?;
    }

    /** Restore every part, going on to the next one when a part raises; `clean` says that none did. */
    method Rollback(j: Journal) returns (e: Ending, clean: bool)
      requires Valid() && journal == Some(j)
      modifies this`owners, this`socket, this`units, this`config, this`manifest, weather
      ensures Valid()
      ensures clean ==> e.Ok? && Now() == base
      ensures old(weather.Calm()) ==> weather.Calm() && e.Ok? && clean
    {
      var owned, files;
      e, owned := RollbackOwners(j);
      if e.Dead? { return e, false; }
      e := RollbackUnits(j);
      if e.Dead? { return e, false; }
      clean := owned && e.Ok?;
      e, files := RollbackFiles(j);
      if e.Dead? { return e, false; }
      return Ok, clean && files;
    }

    method ForwardOwners(from: Owner, to: Owner) returns (e: Ending)
      requires Valid() && journal == Some(JournalOf(base, to)) && Now() == base
      requires from == base.manifest.document.service
      modifies this`owners, this`socket, weather
      ensures Valid()
      ensures e.Ok? ==> owners == Moved(site, base, to).owners && socket == to
      ensures old(weather.Calm()) ==> weather.Calm() && e.Ok?
    {
      e := RetargetTree({from}, to);
      assert Valid() && (e.Ok? ==> owners == Moved(site, base, to).owners);
      if !e.Ok? { return; }
      e := RetargetSocket({from}, to);
    }

    method ForwardFiles(to: Owner, newConfig: Config, newManifest: Manifest) returns (e: Ending)
      requires Valid() && journal == Some(JournalOf(base, to))
      requires newConfig == NewConfig(base.config.document, to)
      requires newManifest == NewManifest(site, base.manifest.document, base.config.document, to)
      modifies this`config, this`manifest, weather
      ensures Valid()
      ensures e.Ok? ==> config == Moved(site, base, to).config && manifest == Moved(site, base, to).manifest
      ensures old(weather.Calm()) ==> weather.Calm() && e.Ok?
    {
      e := WriteConfig(newConfig);
      if !e.Ok? { return; }
      e := WriteManifest(newManifest);
    }

    /** The forward steps, after the journal is on disk. */
    method Forward(to: Owner) returns (e: Ending)
      requires Valid() && journal == Some(JournalOf(base, to)) && Now() == base
      modifies this`owners, this`socket, this`units, this`config, this`manifest, weather
      ensures Valid()
      ensures e.Ok? ==> Now() == Moved(site, base, to)
      ensures old(weather.Calm()) ==> weather.Calm() && e.Ok?
    {
      var newConfig := NewConfig(config.document, to);
      var newManifest := NewManifest(site, manifest.document, config.document, to);
      e := ForwardOwners(manifest.document.service, to);
      if !e.Ok? { return; }
      e := ForwardUnits(to);
      if !e.Ok? { return; }
      e := ForwardFiles(to, newConfig, newManifest);
    }

    /**
     Transfer to another account.  Wherever it stops, a state without a journal is wholly the old one or wholly the
     new one, and a state with a journal is one that recovery can start from.
     */
    method Apply(to: Owner) returns (e: Ending)
      requires Valid()
      modifies this, weather
      ensures Valid()
      ensures old(journal).Some? ==> e.Raised? && Now() == old(Now()) && journal == old(journal)
      ensures old(journal).None? && journal.None? ==> Now() == old(Now()) || Now() == Moved(site, old(Now()), to)
      ensures old(journal).None? && journal.Some? ==> base == old(base) && journal.value.to == to
      ensures base == old(base) || base == Moved(site, old(base), to)
      ensures base != old(base) ==> journal.None? && old(base).manifest.document.service != to
      ensures old(journal).None? && e.Ok? ==>
        && journal.None?
        && Now() == if to == old(manifest).document.service then old(Now()) else Moved(site, old(Now()), to)
      ensures old(journal).None? && old(weather.Calm()) ==> e.Ok?
    {
      if journal.Some? { return Raised; }
      if manifest.document.service == to { return Ok; }
      var f := weather.Meet();
      if f.Die? { return Dead; }
      if f.RaiseBefore? { return Raised; }
      var j := Journal(manifest.document.service, to, config, manifest);
      journal := Some(j);
      if f.RaiseAfter? { return Raised; }
      e := Forward(to);
      if e.Dead? { return; }
      if e.Raised? {
        var clean;
        e, clean := Rollback(j);
        if e.Dead? { return; }
        var left := LeaveGuard();
        if left.Dead? { return Dead; }
        if clean {
          var removed := RemoveJournal();
          if removed.Dead? { return Dead; }
        }
        return Raised;
      }
      e := LeaveGuard();
      if !e.Ok? { return; }
      e := RemoveJournal();
      if journal.None? {
        base := Now();
        MovedConsistent(site, old(Now()), to);
      }
    }

    /**
     Recover an interrupted transfer.  It goes back to the state from before the transfer, it is never blocked by what
     the transfer itself left behind, and where it is itself interrupted it can be run again.
     */
    method Recover() returns (e: Ending)
      requires Valid() && journal.Some?
      modifies this`owners, this`socket, this`units, this`config, this`manifest, this`journal, weather
      ensures Valid()
      ensures journal.None? ==> Now() == base
      ensures e.Ok? ==> journal.None?
      ensures old(weather.Calm()) ==> e.Ok?
    {
      var f := weather.Meet();
      if f.Die? { return Dead; }
      var j := journal.value;
      var pairs := {j.from, j.to};
      if !f.Fine? || socket !in pairs || exists p | p in owners :: owners[p] !in pairs { return Raised; }
      var clean;
      e, clean := Rollback(j);
      if e.Dead? { return; }
      var left := LeaveGuard();
      if left.Dead? { return Dead; }
      if !clean || left.Raised? { return Raised; }
      e := RemoveJournal();
    }

    /** One command.  `took` is the account of the transfer that took effect in it, if one did. */
    method Step(command: Command) returns (report: Report, ghost took: Option<Owner>)
      requires Valid()
      modifies this, weather
      ensures Valid() && report.pending == journal.Some?
      ensures base == if took.Some? then Moved(site, old(base), took.value) else old(base)
      ensures Explains(command, report, took, old(base).manifest.document.service)
    {
      took := None;
      var e := Raised;
      match command {
        case Transfer(to) =>
          e := Apply(to);
          assert Moved(site, old(base), to).manifest.document.service == to;
          if base != old(base) {
            took := Some(to);
          }
        case Recovery =>
          if journal.Some? {
            e := Recover();
          }
      }
      report := Report(e, journal.Some?);
    }

    /**
     Any run of transfers and recoveries, each interrupted anywhere or nowhere.  `took` lists, command by command, the
     transfer that took effect in it: the state to which the server stands or goes back is exactly what these give when
     done one after the other.
     */
    method Run(commands: seq<Command>) returns (reports: seq<Report>, ghost took: seq<Option<Owner>>)
      requires Valid()
      modifies this, weather
      ensures Valid()
      ensures Accounts(site, old(base), commands, reports, took)
      ensures base == MovedAll(site, old(base), took)
      ensures journal.None? ==>
        Now() == MovedAll(site, old(base), took) && Consistent(site, Now()) && Arrived(site, old(base), took, Now())
      ensures commands == [] ==> Now() == old(Now()) && journal == old(journal)
    {
      reports, took := [], [];
      for i := 0 to |commands|
        invariant Valid()
        invariant Accounts(site, old(base), commands[..i], reports, took)
        invariant base == MovedAll(site, old(base), took)
        invariant i == 0 ==> Now() == old(Now()) && journal == old(journal)
      {
        var report;
        ghost var last;
        report, last := Step(commands[i]);
        MovedAllGrows(site, old(base), took, last);
        AccountsGrow(site, old(base), commands[..i], reports, took, commands[i], report, last);
        assert commands[..i + 1] == commands[..i] + [commands[i]];
        reports, took := reports + [report], took + [last];
      }
      assert commands[..|commands|] == commands;
      MovedAllArrives(site, old(base), took);
    }
  }

  datatype Command = Transfer(to: Owner) | Recovery

  /**
   How what took effect in a command goes with what is seen of it, given the account before it: only a transfer to
   another account takes effect, never while a journal is pending; one that ended normally did, unless there was nothing
   to do.
   */
  ghost predicate Explains(command: Command, report: Report, took: Option<Owner>, service: Owner) {
    && (took.Some? ==> command.Transfer? && took.value == command.to != service && !report.pending)
    && (command.Transfer? && report.end.Ok? ==> !report.pending && (took.Some? || command.to == service))
    && (command.Recovery? && report.end.Ok? ==> !report.pending)
  }

  /** Each command of the run is explained by what took effect in it, after what took effect before. */
  ghost predicate Accounts(
    site: Site, start: Snapshot, commands: seq<Command>, reports: seq<Report>, took: seq<Option<Owner>>)
  {
    && |took| == |reports| == |commands|
    && forall i | 0 <= i < |commands| ::
         Explains(commands[i], reports[i], took[i], MovedAll(site, start, took[..i]).manifest.document.service)
  }

  lemma AccountsGrow(
    site: Site, start: Snapshot, commands: seq<Command>, reports: seq<Report>, took: seq<Option<Owner>>,
    command: Command, report: Report, last: Option<Owner>)
    requires Accounts(site, start, commands, reports, took)
    requires Explains(command, report, last, MovedAll(site, start, took).manifest.document.service)
    ensures Accounts(site, start, commands + [command], reports + [report], took + [last])
  {
    var longer := took + [last];
    assert longer[..|took|] == took;
    forall i | 0 <= i < |took| ensures longer[..i] == took[..i] {
    }
  }

  /** The transfers that took effect, done one after the other. */
  ghost function MovedAll(site: Site, s: Snapshot, took: seq<Option<Owner>>): Snapshot {
    if |took| == 0 then s
    else
      var before := MovedAll(site, s, took[..|took| - 1]);
      if took[|took| - 1].Some? then Moved(site, before, took[|took| - 1].value) else before
  }

  /** The moves that took effect, each from the account before it to the one after. */
  ghost function MovesOf(first: Owner, took: seq<Option<Owner>>): seq<Move> {
    if |took| == 0 then []
    else
      var n := |took| - 1;
      MovesOf(first, took[..n]) +
      if took[n].Some? then [Move(LastOwner(first, took[..n]), took[n].value)] else []
  }

  /** The account after the transfers that took effect. */
  ghost function LastOwner(first: Owner, took: seq<Option<Owner>>): Owner {
    if |took| == 0 then first
    else if took[|took| - 1].Some? then took[|took| - 1].value
    else LastOwner(first, took[..|took| - 1])
  }

  /**
   What the transfers that took effect leave, written out: every managed thing belongs to the last account; the
   configuration runs as it and keeps the rest; the manifest names it, matches the configuration, and shows the last 32
   moves; and the tracked units, no others, are rendered for it.
   */
  ghost predicate Arrived(site: Site, s: Snapshot, took: seq<Option<Owner>>, t: Snapshot) {
    var was, now := s.manifest.document, t.manifest.document;
    var to := LastOwner(was.service, took);
    if forall i | 0 <= i < |took| :: took[i].None? then t == s
    else
      && t.owners.Keys == s.owners.Keys && (forall p | p in t.owners :: t.owners[p] == to) && t.socket == to
      && t.config == Kept(Config(to.uid, s.config.document.rest), site.gid)
      && t.manifest.gid == site.gid && now.service == to
      && now.configDigest == site.digest(t.config.document)
      && now.moves == Last(was.moves + MovesOf(was.service, took), 32)
      && (now.services.Some? <==> was.services.Some?)
      && (was.services.None? ==> t.units == s.units)
      && (was.services.Some? ==>
            && now.services.value.Keys == was.services.value.Keys
            && t.units.Keys == s.units.Keys + was.services.value.Keys
            && (forall n | n in now.services.value :: now.services.value[n] == site.render(n, to))
            && forall n | n in t.units ::
                 t.units[n] == if n in was.services.value then site.render(n, to) else s.units[n])
  }

  lemma {:induction false} MovedAllArrives(site: Site, s: Snapshot, took: seq<Option<Owner>>)
    ensures Arrived(site, s, took, MovedAll(site, s, took))
  {
    if |took| > 0 {
      var front, last := took[..|took| - 1], took[|took| - 1];
      MovedAllArrives(site, s, front);
      SplitLast(took);
      MovedAllGrows(site, s, front, last);
      if last.Some? {
        OneMoreArrives(site, s, front, MovedAll(site, s, front), last.value);
      } else {
        NothingMoreArrives(site, s, front, MovedAll(site, s, front));
      }
    }
  }

  lemma ShowsOneMore(all: seq<Move>, e: Move)
    ensures Last(Last(all, 32), 31) + [e] == Last(all + [e], 32)
    ensures Last(all, 31) + [e] == Last(all + [e], 32)
  {
    if |all| >= 32 {
      assert Last(all, 32)[1..] == all[|all| - 31..];
    }
  }

  lemma NothingMoreArrives(site: Site, s: Snapshot, took: seq<Option<Owner>>, t: Snapshot)
    requires Arrived(site, s, took, t)
    ensures Arrived(site, s, took + [None], t)
  {
    assert (took + [None])[..|took|] == took;
    assert forall i | 0 <= i < |took| :: (took + [None])[i] == took[i];
  }

  lemma OneMoreArrives(site: Site, s: Snapshot, took: seq<Option<Owner>>, t: Snapshot, to: Owner)
    requires Arrived(site, s, took, t)
    ensures Arrived(site, s, took + [Some(to)], Moved(site, t, to))
  {
    var longer, first := took + [Some(to)], s.manifest.document.service;
    assert longer[..|took|] == took && longer[|took|].Some?;
    assert t.manifest.document.service == LastOwner(first, took) by { StillThere(first, took); }
    MovesAppend(s, took, t, to);
  }

  lemma {:induction false} StillThere(first: Owner, took: seq<Option<Owner>>)
    ensures (forall i | 0 <= i < |took| :: took[i].None?) ==>
      LastOwner(first, took) == first && MovesOf(first, took) == []
  {
    if |took| > 0 { StillThere(first, took[..|took| - 1]); }
  }

  lemma MovesGrow(before: seq<Move>, first: Owner, took: seq<Option<Owner>>, to: Owner)
    ensures before + MovesOf(first, took + [Some(to)]) ==
      (before + MovesOf(first, took)) + [Move(LastOwner(first, took), to)]
  {
    assert (took + [Some(to)])[..|took|] == took;
  }

  lemma MovesAppend(s: Snapshot, took: seq<Option<Owner>>, t: Snapshot, to: Owner)
    requires var was, first := s.manifest.document.moves, s.manifest.document.service;
      t.manifest.document.moves ==
        if forall i | 0 <= i < |took| :: took[i].None? then was else Last(was + MovesOf(first, took), 32)
    ensures var was, first := s.manifest.document.moves, s.manifest.document.service;
      Last(t.manifest.document.moves, 31) + [Move(LastOwner(first, took), to)] ==
        Last(was + MovesOf(first, took + [Some(to)]), 32)
  {
    var was, first := s.manifest.document.moves, s.manifest.document.service;
    StillThere(first, took);
    MovesGrow(was, first, took, to);
    ShowsOneMore(was + MovesOf(first, took), Move(LastOwner(first, took), to));
    AppendNothing(was);
  }

  lemma AppendNothing(s: seq<Move>)
    ensures s + [] == s
  {
  }

  lemma MovedAllGrows(site: Site, s: Snapshot, took: seq<Option<Owner>>, last: Option<Owner>)
    ensures MovedAll(site, s, took + [last]) ==
      if last.Some? then Moved(site, MovedAll(site, s, took), last.value) else MovedAll(site, s, took)
  {
    assert (took + [last])[..|took|] == took;
  }

  /** In a mix of old and new every tracked unit holds its old or its new text. */
  lemma UnitsAccepted(site: Site, base: Snapshot, to: Owner, units: map<string, string>)
    requires Consistent(site, base) && base.manifest.document.services.Some?
    requires Between(units, base.units, Moved(site, base, to).units)
    ensures var services := base.manifest.document.services.value;
      forall n | n in services :: n in units && (units[n] == services[n] || units[n] == site.render(n, to))
  {
  }

  /** Bringing some of the tracked units of a mix back keeps it a mix, and bringing all back restores the old units. */
  lemma UnitsBack(site: Site, base: Snapshot, to: Owner, was: map<string, string>, units: map<string, string>)
    requires Consistent(site, base) && base.manifest.document.services.Some?
    requires Between(was, base.units, Moved(site, base, to).units) && units.Keys == was.Keys
    requires var services := base.manifest.document.services.value;
      forall n | n in units :: units[n] == was[n] || (n in services && units[n] == services[n])
    ensures Between(units, base.units, Moved(site, base, to).units)
    ensures (forall n | n in base.manifest.document.services.value :: units[n] == base.units[n]) ==> units == base.units
  {
    assert forall n | n in units :: n in base.units;
  }

  lemma MovedConsistent(site: Site, s: Snapshot, to: Owner)
    requires Consistent(site, s)
    ensures Consistent(site, Moved(site, s, to))
    ensures Mixed(s, s, Moved(site, s, to)) && Mixed(Moved(site, s, to), s, Moved(site, s, to))
  {
    var t := Moved(site, s, to);
    var m := s.manifest.document;
    if m.services.Some? {
      assert t.units.Keys == s.units.Keys;
    }
  }
}
