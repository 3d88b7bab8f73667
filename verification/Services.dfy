/**
 The tracked system services: a persisted record holds, for each unit file, its state from before the first install,
 the managed state, and, while an upgrade is under way, the managed state it replaces.
 */
module Services {
  import opened Faults
  import opened Options
  import opened Basics

  /** What is at a unit path.  A readable unit always has mode 0644 and a single link. */
  datatype FileState = Absent | Present(content: string, gid: nat)

  datatype Item = Item(before: FileState, managed: FileState, previous: Option<FileState>)

  datatype Phase = Installing | Installed | Removing

  datatype Record = Record(phase: Phase, paths: string, executable: string, service: nat, files: map<string, Item>)

  /** What an install is asked for; `paths` stands for the configuration, data, socket and unit directories. */
  datatype Inputs = Inputs(paths: string, executable: Option<string>, service: nat, directoryGid: nat, force: bool)

  /** The unit templates, the digest the planner compares states by, and the interpreter a first install defaults to. */
  datatype Site = Site(
    names: set<string>,
    render: (string, string, string, nat) -> string,
    digest: string -> string,
    python: string)

  function Executable(site: Site, existing: Option<Record>, inputs: Inputs): string {
    if inputs.executable.Some? then inputs.executable.value
    else if existing.Some? then existing.value.executable
    else site.python
  }

  function Desired(site: Site, existing: Option<Record>, inputs: Inputs, name: string): FileState {
    Present(site.render(name, inputs.paths, Executable(site, existing, inputs), inputs.service), inputs.directoryGid)
  }

  function Content(s: FileState): string {
    if s.Present? then s.content else ""
  }

  /** The item a plan records: `before` is read only when nothing is tracked yet, and carried over ever after. */
  function PlanItem(site: Site, tracked: Option<Item>, current: FileState, desired: FileState): Item {
    match tracked
    case None => Item(current, desired, None)
    case Some(item) =>
      Item(item.before, desired,
           if site.digest(Content(item.managed)) != site.digest(Content(desired)) then Some(item.managed)
           else item.previous)
  }

  /** `plan_system_services_install`, up to the inspection of the files; `None` is a refusal. */
  function PlanInstall(
      site: Site, existing: Option<Record>, disk: map<string, FileState>, inputs: Inputs): Option<Record>
    requires disk.Keys == site.names
    requires existing.Some? ==> existing.value.files.Keys == site.names
  {
    if existing.Some? && (existing.value.phase.Removing? || existing.value.paths != inputs.paths) then None
    else if existing.None? && !inputs.force && exists n | n in site.names :: disk[n].Present? then None
    else
      Some(Record(
        Installing, inputs.paths, Executable(site, existing, inputs), inputs.service,
        map n | n in site.names ::
          PlanItem(site, if existing.Some? then Some(existing.value.files[n]) else None, disk[n],
                   Desired(site, existing, inputs, n))))
  }

  predicate Drifted(item: Item, current: FileState) {
    && current != item.managed
    && !(item.previous.Some? && current == item.previous.value)
    && current != item.before
  }

  predicate NoDrift(files: map<string, Item>, disk: map<string, FileState>)
    requires files.Keys == disk.Keys
  {
    forall n | n in files :: !Drifted(files[n], disk[n])
  }

  /** The record is a well-formed document about these units. */
  ghost predicate WellFormed(site: Site, r: Record) {
    && r.files.Keys == site.names
    && (forall n | n in r.files :: r.files[n].managed.Present?)
    && (r.phase.Installed? ==> forall n | n in r.files :: r.files[n].previous.None?)
  }

  /** The record once a plan is carried out. */
  function Finished(r: Record): Record {
    r.(phase := Installed, files := map n | n in r.files :: r.files[n].(previous := None))
  }

  /** The plan is not refused, and no unit counts as drifted in it. */
  predicate Accepted(site: Site, existing: Option<Record>, disk: map<string, FileState>, inputs: Inputs)
    requires disk.Keys == site.names
    requires existing.Some? ==> existing.value.files.Keys == site.names
  {
    var plan := PlanInstall(site, existing, disk, inputs);
    plan.Some? && NoDrift(plan.value.files, disk)
  }

  /** The pending install `r` was planned with these very inputs. */
  ghost predicate SameRequest(site: Site, r: Record, inputs: Inputs)
    requires r.files.Keys == site.names
  {
    && r.phase.Installing? && r.paths == inputs.paths && r.service == inputs.service
    && r.executable == Executable(site, Some(r), inputs)
    && forall n | n in site.names :: r.files[n].managed == Desired(site, Some(r), inputs, n)
  }

  lemma SameRequestAccepted(site: Site, r: Record, disk: map<string, FileState>, inputs: Inputs)
    requires disk.Keys == site.names && r.files.Keys == site.names
    requires SameRequest(site, r, inputs) && NoDrift(r.files, disk)
    ensures Accepted(site, Some(r), disk, inputs)
  {
    assert PlanInstall(site, Some(r), disk, inputs).value.files == r.files;
  }

  /**
   What an install leaves, written out: each unit rendered with the paths and the service account asked for and with the
   interpreter asked for, or else the tracked one, or else the default, in the group of the unit directory; and a record
   of the same.
   */
  ghost predicate AsAsked(
      site: Site, tracked: Option<Record>, inputs: Inputs, disk: map<string, FileState>, r: Record)
  {
    && disk.Keys == r.files.Keys == site.names
    && var executable :=
         if inputs.executable.Some? then inputs.executable.value
         else if tracked.Some? then tracked.value.executable
         else site.python;
       && (forall n | n in site.names ::
             && disk[n] == Present(site.render(n, inputs.paths, executable, inputs.service), inputs.directoryGid)
             && r.files[n].managed == disk[n] && r.files[n].previous.None?)
       && r.phase.Installed? && r.paths == inputs.paths && r.executable == executable && r.service == inputs.service
  }

  /**
   When an install is refused, written out: over a removal or other paths, over units nobody tracks unless forced, and
   where a tracked unit stands in its way.
   */
  ghost predicate MayInstall(site: Site, tracked: Option<Record>, disk: map<string, FileState>, inputs: Inputs)
    requires disk.Keys == site.names && (tracked.Some? ==> tracked.value.files.Keys == site.names)
  {
    match tracked
    case None => inputs.force || forall n | n in site.names :: disk[n].Absent?
    case Some(r) =>
      && !r.phase.Removing? && r.paths == inputs.paths
      && forall n | n in site.names ::
           !InTheWay(r.files[n], disk[n],
                     Present(site.render(n, inputs.paths,
                                         if inputs.executable.Some? then inputs.executable.value else r.executable,
                                         inputs.service),
                             inputs.directoryGid))
  }

  lemma AcceptedIff(site: Site, tracked: Option<Record>, disk: map<string, FileState>, inputs: Inputs)
    requires CollisionFree(site.digest) && disk.Keys == site.names
    requires tracked.Some? ==> WellFormed(site, tracked.value) && NoDrift(tracked.value.files, disk)
    ensures Accepted(site, tracked, disk, inputs) <==> MayInstall(site, tracked, disk, inputs)
  {
    if tracked.Some? && PlanInstall(site, tracked, disk, inputs).Some? {
      UpgradeRefusedIff(site, tracked.value, disk, inputs);
    }
  }

  lemma CarriedAsAsked(
      site: Site, tracked: Option<Record>, before: map<string, FileState>, inputs: Inputs, disk: map<string, FileState>)
    requires before.Keys == disk.Keys == site.names
    requires tracked.Some? ==> tracked.value.files.Keys == site.names
    requires PlanInstall(site, tracked, before, inputs).Some?
    requires forall n | n in site.names :: disk[n] == PlanInstall(site, tracked, before, inputs).value.files[n].managed
    ensures AsAsked(site, tracked, inputs, disk, Finished(PlanInstall(site, tracked, before, inputs).value))
  {
  }

  /** Planning again with the same inputs gives the recorded plan. */
  lemma ReplanIsSame(
      site: Site, existing: Option<Record>, disk: map<string, FileState>, inputs: Inputs, now: map<string, FileState>)
    requires disk.Keys == site.names == now.Keys
    requires existing.Some? ==> existing.value.files.Keys == site.names
    requires PlanInstall(site, existing, disk, inputs).Some?
    ensures var r := PlanInstall(site, existing, disk, inputs).value;
      && PlanInstall(site, Some(r), now, inputs) == Some(r)
      && forall n | n in site.names :: Desired(site, Some(r), inputs, n) == Desired(site, existing, inputs, n)
  {
    var r := PlanInstall(site, existing, disk, inputs).value;
    assert PlanInstall(site, Some(r), now, inputs).value.files == r.files;
  }

  /** Planning a finished install again asks for the same units, with nothing left to replace. */
  lemma ReplanFinished(
      site: Site, existing: Option<Record>, disk: map<string, FileState>, inputs: Inputs, now: map<string, FileState>)
    requires disk.Keys == site.names == now.Keys
    requires existing.Some? ==> existing.value.files.Keys == site.names
    requires PlanInstall(site, existing, disk, inputs).Some?
    ensures var r := Finished(PlanInstall(site, existing, disk, inputs).value);
      && PlanInstall(site, Some(r), now, inputs) == Some(r.(phase := Installing))
      && forall n | n in site.names :: Desired(site, Some(r), inputs, n) == Desired(site, existing, inputs, n)
  {
    var r := Finished(PlanInstall(site, existing, disk, inputs).value);
    var again := PlanInstall(site, Some(r), now, inputs).value;
    forall n | n in site.names ensures again.files[n] == r.files[n] {
      assert r.files[n].managed == Desired(site, existing, inputs, n);
    }
    assert again.files == r.files;
  }

  /** What a plan that is not refused records, item by item. */
  lemma PlanRecords(site: Site, existing: Option<Record>, disk: map<string, FileState>, inputs: Inputs)
    requires disk.Keys == site.names
    requires existing.Some? ==> existing.value.files.Keys == site.names
    requires PlanInstall(site, existing, disk, inputs).Some?
    ensures var r := PlanInstall(site, existing, disk, inputs).value;
      && WellFormed(site, r) && r.phase.Installing?
      && forall n | n in site.names ::
           && r.files[n].before == (if existing.Some? then existing.value.files[n].before else disk[n])
           && r.files[n].managed == Desired(site, existing, inputs, n)
  {
  }

  /**
   The unit stands in the way of a plan for `desired`: either an interrupted upgrade left it in the state it was
   replacing, and the plan asks for yet another content; or it is managed and the plan keeps the content, but not the
   group, because the group of the unit directory changed.
   */
  ghost predicate InTheWay(item: Item, current: FileState, desired: FileState) {
    && current != desired && current != item.before
    && if Content(item.managed) != Content(desired) then item.previous == Some(current) && current != item.managed
       else current == item.managed && item.previous != Some(current)
  }

  /** With a collision-free digest these are exactly the units an accounted-for disk can be refused for. */
  lemma DriftsIff(site: Site, item: Item, current: FileState, desired: FileState)
    requires CollisionFree(site.digest)
    requires item.managed.Present? && desired.Present? && !Drifted(item, current)
    ensures Drifted(PlanItem(site, Some(item), current, desired), current) <==> InTheWay(item, current, desired)
  {
  }

  /** A tracked plan that is not refused outright is refused as drift exactly if some unit stands in its way. */
  lemma UpgradeRefusedIff(site: Site, r: Record, disk: map<string, FileState>, inputs: Inputs)
    requires CollisionFree(site.digest) && disk.Keys == site.names
    requires WellFormed(site, r) && NoDrift(r.files, disk)
    requires PlanInstall(site, Some(r), disk, inputs).Some?
    ensures !Accepted(site, Some(r), disk, inputs) <==>
      exists n | n in site.names :: InTheWay(r.files[n], disk[n], Desired(site, Some(r), inputs, n))
  {
    forall n | n in site.names
      ensures Drifted(PlanInstall(site, Some(r), disk, inputs).value.files[n], disk[n]) <==>
        InTheWay(r.files[n], disk[n], Desired(site, Some(r), inputs, n))
    {
      DriftsIff(site, r.files[n], disk[n], Desired(site, Some(r), inputs, n));
    }
  }

  datatype Command = Install(inputs: Inputs) | Uninstall

  class Units {
    const site: Site
    const weather: Weather
    var disk: map<string, FileState>
    var record: Option<Record>

    /** The units as they were before the first install. */
    ghost const original: map<string, FileState>

    /** Every reachable state: each unit is one of the states its record names, and `before` is the original one. */
    ghost predicate Valid()
      reads this
    {
      && disk.Keys == site.names
      && match record
         case None => disk == original
         case Some(r) =>
           && WellFormed(site, r)
           && original.Keys == site.names
           && (forall n | n in site.names :: r.files[n].before == original[n])
           && NoDrift(r.files, disk)
           && (r.phase.Installed? ==> forall n | n in site.names :: disk[n] == r.files[n].managed)
    }

    constructor (site: Site, weather: Weather, disk: map<string, FileState>)
      requires disk.Keys == site.names
      ensures Valid() && record.None? && this.disk == disk && original == disk
      ensures this.site == site && this.weather == weather
    {
      this.site, this.weather, this.disk := site, weather, disk;
      record, original := None, disk;
    }

    method WriteUnit(name: string, s: FileState) returns (e: Ending)
      requires name in disk
      modifies this`disk, weather
      ensures |old(weather.fates)| > 0 && old(weather.fates)[0].Die? ==> e.Dead? && disk == old(disk)
      ensures disk == old(disk) || disk == old(disk)[name := s]
      ensures e.Ok? ==> disk == old(disk)[name := s]
      ensures old(weather.Calm()) ==> weather.Calm() && e.Ok?
    {
      var f := weather.Meet();
      if f.Die? { return Dead; }
      if f.RaiseBefore? { return Raised; }
      disk := disk[name := s];
      return if f.RaiseAfter? then Raised else Ok;
    }

    method WriteRecord(r: Option<Record>) returns (e: Ending)
      modifies this`record, weather
      ensures |old(weather.fates)| > 0 && old(weather.fates)[0].Fine? ==>
        e.Ok? && weather.fates == old(weather.fates)[1..]
      ensures record == old(record) || record == r
      ensures e.Ok? ==> record == r
      ensures old(weather.Calm()) ==> weather.Calm() && e.Ok?
    {
      var f := weather.Meet();
      if f.Die? { return Dead; }
      if f.RaiseBefore? { return Raised; }
      record := r;
      return if f.RaiseAfter? then Raised else Ok;
    }

    /** Write, one after the other, every unit that is not in its goal state yet. */
    method WriteUnits(goal: map<string, FileState>) returns (e: Ending)
      requires goal.Keys == disk.Keys
      modifies this`disk, weather
      ensures disk.Keys == old(disk).Keys
      ensures forall n | n in disk :: disk[n] == old(disk)[n] || disk[n] == goal[n]
      ensures e.Ok? ==> disk == goal
      ensures old(weather.Calm()) ==> weather.Calm() && e.Ok?
      ensures |old(weather.fates)| > 0 && old(weather.fates)[0].Die? && old(disk) != goal ==>
        e.Dead? && disk == old(disk)
    {
      var todo := disk.Keys;
      while todo != {}
        invariant todo <= disk.Keys == old(disk).Keys
        invariant forall n | n in todo :: disk[n] == old(disk)[n]
        invariant forall n | n in disk && n !in todo :: disk[n] == goal[n]
        invariant old(weather.Calm()) ==> weather.Calm()
        invariant |old(weather.fates)| > 0 && old(weather.fates)[0].Die? ==>
          disk == old(disk) && weather.fates == old(weather.fates)
      {
        var n :| n in todo;
        if disk[n] != goal[n] {
          e := WriteUnit(n, goal[n]);
          if !e.Ok? { return; }
        }
        todo := todo - {n};
      }
      return Ok;
    }

    /** Write the units of the recorded plan. */
    method WritePlanned(r: Record) returns (e: Ending)
      requires Valid() && record == Some(r) && r.phase.Installing?
      modifies this`disk, weather
      ensures Valid()
      ensures e.Ok? ==> forall n | n in site.names :: disk[n] == r.files[n].managed
      ensures old(weather.Calm()) ==> weather.Calm() && e.Ok?
      ensures (&& |old(weather.fates)| > 0 && old(weather.fates)[0].Die?
               && exists n | n in site.names :: old(disk)[n] != r.files[n].managed) ==>
        e.Dead? && disk == old(disk)
    {
      e := WriteUnits(map n | n in site.names :: r.files[n].managed);
    }

    /** Persist a plan, write the units, and persist that it is finished. */
    method Carry(r: Record) returns (e: Ending)
      requires Valid() && WellFormed(site, r) && r.phase.Installing?
      requires original.Keys == site.names && forall n | n in site.names :: r.files[n].before == original[n]
      requires NoDrift(r.files, disk)
      modifies this`disk, this`record, weather
      ensures Valid()
      ensures e.Ok? ==> record == Some(Finished(r)) && forall n | n in site.names :: disk[n] == r.files[n].managed
      ensures old(weather.Calm()) ==> e.Ok?
      ensures record == old(record) || record == Some(r) || record == Some(Finished(r))
      ensures record == old(record) ==> disk == old(disk) || record == Some(r) || record == Some(Finished(r))
      ensures (&& old(weather.fates) == [Fine, Die]
               && exists n | n in site.names :: old(disk)[n] != r.files[n].managed) ==>
        e.Dead? && record == Some(r) && disk == old(disk)
    {
      e := WriteRecord(Some(r));
      if !e.Ok? { return; }
      e := WritePlanned(r);
      if !e.Ok? { return; }
      e := WriteRecord(Some(Finished(r)));
    }

    /**
     Install or upgrade.  A refused plan changes nothing; anything else keeps every unit accounted for; an install
     that meets no fault ends with every unit managed, and fails only if the plan is refused or a unit drifted.
     Inputs that were accepted stay accepted and keep asking for the same units, however the install was interrupted.
     */
    method Install(inputs: Inputs) returns (e: Ending)
      requires Valid()
      modifies this`disk, this`record, weather
      ensures Valid()
      ensures e.Ok? ==>
        && record.Some? && record.value.phase.Installed?
        && (forall n | n in site.names :: disk[n] == Desired(site, old(record), inputs, n))
        && AsAsked(site, old(record), inputs, disk, record.value)
      ensures CollisionFree(site.digest) ==>
        if MayInstall(site, old(record), old(disk), inputs) then old(weather.Calm()) ==> e.Ok?
        else e.Raised? && disk == old(disk) && record == old(record)
      ensures if !old(Accepted(site, record, disk, inputs))
        then e.Raised? && disk == old(disk) && record == old(record)
        else old(weather.Calm()) ==> e.Ok?
      ensures old(Accepted(site, record, disk, inputs)) ==>
        && Accepted(site, record, disk, inputs)
        && Executable(site, record, inputs) == Executable(site, old(record), inputs)
        && forall n | n in site.names :: Desired(site, record, inputs, n) == Desired(site, old(record), inputs, n)
      ensures old(record).Some? && SameRequest(site, old(record).value, inputs) && old(weather.Calm()) ==> e.Ok?
      ensures (&& CollisionFree(site.digest) && old(record).Some?
               && PlanInstall(site, old(record), old(disk), inputs).Some?) ==>
        (old(Accepted(site, record, disk, inputs)) <==>
         forall n | n in site.names ::
           !InTheWay(old(record).value.files[n], old(disk)[n], Desired(site, old(record), inputs, n)))
      ensures old(weather.fates) == [Fine, Die] && old(Accepted(site, record, disk, inputs))
              && (exists n | n in site.names :: old(disk)[n] != Desired(site, old(record), inputs, n)) ==>
        e.Dead? && record == PlanInstall(site, old(record), old(disk), inputs) && disk == old(disk)
    {
      ghost var r0, d0 := record, disk;
      if record.Some? && SameRequest(site, record.value, inputs) {
        SameRequestAccepted(site, record.value, disk, inputs);
      }
      if CollisionFree(site.digest) {
        AcceptedIff(site, record, disk, inputs);
        if record.Some? && PlanInstall(site, record, disk, inputs).Some? {
          UpgradeRefusedIff(site, record.value, disk, inputs);
        }
      }
      var plan := PlanInstall(site, record, disk, inputs);
      if plan.None? || !NoDrift(plan.value.files, disk) { return Raised; }
      PlanRecords(site, r0, disk, inputs);
      e := Carry(plan.value);
      ReplanIsSame(site, r0, d0, inputs, disk);
      ReplanFinished(site, r0, d0, inputs, disk);
      if e.Ok? {
        CarriedAsAsked(site, r0, d0, inputs, disk);
      }
    }

    /**
     An install that is interrupted any number of times, each time anywhere, and then repeated with the same inputs
     without a fault, ends with every unit as the first attempt asked for it.
     */
    method InstallUntilDone(inputs: Inputs, interruptions: seq<seq<Fate>>) returns (e: Ending)
      requires Valid()
      modifies this`disk, this`record, weather
      ensures Valid()
      ensures e.Ok? <==> old(Accepted(site, record, disk, inputs))
      ensures e.Ok? ==>
        && record.Some? && record.value.phase.Installed?
        && (forall n | n in site.names :: disk[n] == Desired(site, old(record), inputs, n))
        && AsAsked(site, old(record), inputs, disk, record.value)
      ensures CollisionFree(site.digest) ==> (e.Ok? <==> MayInstall(site, old(record), old(disk), inputs))
      ensures !e.Ok? ==> disk == old(disk) && record == old(record)
    {
      ghost var accepted := Accepted(site, record, disk, inputs);
      if CollisionFree(site.digest) {
        AcceptedIff(site, record, disk, inputs);
      }
      for i := 0 to |interruptions|
        invariant Valid()
        invariant accepted ==> Accepted(site, record, disk, inputs)
        invariant accepted ==>
          && Executable(site, record, inputs) == Executable(site, old(record), inputs)
          && forall n | n in site.names :: Desired(site, record, inputs, n) == Desired(site, old(record), inputs, n)
        invariant !accepted ==> disk == old(disk) && record == old(record)
      {
        weather.fates := interruptions[i];
        var _ := Install(inputs);
      }
      weather.fates := [];
      e := Install(inputs);
    }

    /**
     Uninstall.  It is never blocked by drift, wherever the lifecycle was interrupted, and where it completes the units
     are exactly what they were before the first install.
     */
    method Uninstall() returns (e: Ending)
      requires Valid()
      modifies this`disk, this`record, weather
      ensures Valid()
      ensures old(record).None? ==> e.Raised? && record.None? && disk == old(disk)
      ensures e.Ok? ==> record.None? && disk == original
      ensures old(record).Some? && old(weather.Calm()) ==> e.Ok?
    {
      if record.None? { return Raised; }
      var r := record.value.(phase := Removing);
      if !NoDrift(r.files, disk) { return Raised; }
      e := WriteRecord(Some(r));
      if !e.Ok? { return; }
      e := WriteUnits(map n | n in site.names :: r.files[n].before);
      if !e.Ok? { return; }
      e := WriteRecord(None);
    }

    /**
     Any run of installs, upgrades, refused plans and uninstalls, each interrupted anywhere or nowhere: every unit stays
     accounted for, and whenever nothing is tracked the units are those from before the run's first install.
     */
    method Run(commands: seq<Command>)
      requires Valid()
      modifies this`disk, this`record, weather
      ensures Valid()
      ensures record.None? ==> disk == original
      ensures record.Some? ==> forall n | n in site.names :: record.value.files[n].before == original[n]
    {
      for i := 0 to |commands|
        invariant Valid()
      {
        match commands[i] {
          case Install(inputs) => var _ := Install(inputs);
          case Uninstall => var _ := Uninstall();
        }
      }
    }
  }

  // ---------------------------------------------------------------- runs that end in a refusal

  const UNIT := "gpubk-broker.service"

  /** One unit whose content is the interpreter it runs with. */
  function OneUnit(): Site {
    Site({UNIT}, (name, paths, executable, service) => executable, content => content, "a")
  }

  function Asking(executable: string, gid: nat): Inputs {
    Inputs("/etc/gpubk", Some(executable), 0, gid, false)
  }

  /** A fresh machine on which one install has been completed. */
  method FirstInstall() returns (units: Units, e: Ending)
    ensures fresh(units) && fresh(units.weather) && units.Valid() && units.site == OneUnit() && e.Ok?
    ensures units.original == map[UNIT := Absent] && units.disk == map[UNIT := Present("a", 0)]
    ensures units.record.Some? && units.record.value.phase.Installed? && units.record.value.paths == "/etc/gpubk"
    ensures units.record.value.files == map[UNIT := Item(Absent, Present("a", 0), None)]
  {
    var weather := new Weather([]);
    units := new Units(OneUnit(), weather, map[UNIT := Absent]);
    assert Accepted(units.site, units.record, units.disk, Asking("a", 0));
    e := units.Install(Asking("a", 0));
    assert Accepted(units.site, units.record, units.disk, Asking("a", 0));
    assert units.record.value.files[UNIT] == Item(Absent, Present("a", 0), None);
  }

  /** The upgrade from content "a" to "b" is accepted, and its plan remembers what it replaces. */
  lemma SecondPlan(r: Record)
    requires r.phase.Installed? && r.paths == "/etc/gpubk"
    requires r.files == map[UNIT := Item(Absent, Present("a", 0), None)]
    ensures var disk := map[UNIT := Present("a", 0)];
      && Accepted(OneUnit(), Some(r), disk, Asking("b", 0))
      && PlanInstall(OneUnit(), Some(r), disk, Asking("b", 0)) == Some(Pending())
  {
    var plan := PlanInstall(OneUnit(), Some(r), map[UNIT := Present("a", 0)], Asking("b", 0)).value;
    assert plan.files == Pending().files;
  }

  /** The record of the upgrade to "b", before any unit is written. */
  function Pending(): Record {
    Record(Installing, "/etc/gpubk", "b", 0, map[UNIT := Item(Absent, Present("b", 0), Some(Present("a", 0)))])
  }

  lemma ThirdPlan()
    ensures !Accepted(OneUnit(), Some(Pending()), map[UNIT := Present("a", 0)], Asking("c", 0))
  {
    var plan := PlanInstall(OneUnit(), Some(Pending()), map[UNIT := Present("a", 0)], Asking("c", 0)).value;
    assert plan.files[UNIT] == Item(Absent, Present("c", 0), Some(Present("b", 0)));
    assert Drifted(plan.files[UNIT], Present("a", 0));
  }

  /** Install, an upgrade that dies once its record is on disk, and a third content: the third install is refused. */
  method ThirdUpgradeRefused() returns (first: Ending, second: Ending, third: Ending)
    ensures first.Ok? && second.Dead? && third.Raised?
  {
    var units;
    units, first := FirstInstall();
    SecondPlan(units.record.value);
    units.weather.fates := [Fine, Die];
    assert units.disk[UNIT] != Desired(units.site, units.record, Asking("b", 0), UNIT);
    second := units.Install(Asking("b", 0));
    ThirdPlan();
    units.weather.fates := [];
    third := units.Install(Asking("c", 0));
  }

  lemma RegroupedPlan(r: Record)
    requires r.phase.Installed? && r.paths == "/etc/gpubk"
    requires r.files == map[UNIT := Item(Absent, Present("a", 0), None)]
    ensures !Accepted(OneUnit(), Some(r), map[UNIT := Present("a", 0)], Asking("a", 1))
  {
    var plan := PlanInstall(OneUnit(), Some(r), map[UNIT := Present("a", 0)], Asking("a", 1)).value;
    assert plan.files[UNIT] == Item(Absent, Present("a", 1), None);
    assert Drifted(plan.files[UNIT], Present("a", 0));
  }

  /** Nothing interrupted and the same content, but the unit directory changed its group: the install is refused. */
  method RegroupedRefused() returns (first: Ending, second: Ending)
    ensures first.Ok? && second.Raised?
  {
    var units;
    units, first := FirstInstall();
    RegroupedPlan(units.record.value);
    second := units.Install(Asking("a", 1));
  }
}
