/**
 One server on which policy updates and service-account transfers, each with its own journal, rewrite the same
 configuration and install manifest (src/bk/admin.py).  Either refuses to start while a journal of any kind is pending.
 What a transfer does besides is in `Transfer`.
 */
module AdminHost {
  import opened Basics
  import opened Faults
  import opened Options
  import opened AdminHistory
  import Transfer
  import PolicyUpdate

  /** What the two operations use of the install manifest. */
  datatype Papers = Papers(service: Transfer.Owner, configDigest: string, updates: seq<PolicyUpdate.Entry>)

  datatype Files = Files(config: Kept<Transfer.Config>, papers: Kept<Papers>)

  datatype Kind = OfPolicy | OfTransfer

  /** Each kind of operation keeps the files from before it in a journal of its own. */
  datatype Journals = Journals(policy: Option<Files>, transfer: Option<Files>)
  {
    predicate Empty() {
      policy.None? && transfer.None?
    }

    function Of(kind: Kind): Option<Files> {
      if kind.OfPolicy? then policy else transfer
    }

    function With(kind: Kind, j: Option<Files>): Journals {
      if kind.OfPolicy? then this.(policy := j) else this.(transfer := j)
    }
  }

  datatype Command = Update(rest: string) | Move(to: Transfer.Owner) | Recover(kind: Kind)

  function NewConfig(c: Transfer.Config, e: Effect): Transfer.Config {
    AdminHistory.Apply(c, e)
  }

  /** The manifest an operation writes: an update adds an entry to the last 31, a transfer changes the account. */
  function NewPapers(digest: Transfer.Config -> string, c: Transfer.Config, p: Papers, e: Effect): Papers {
    match e
    case Policy(_) =>
      Papers(p.service, digest(NewConfig(c, e)),
             Last(p.updates, 31) + [PolicyUpdate.Entry(digest(c), digest(NewConfig(c, e)))])
    case Account(to) => Papers(to, digest(NewConfig(c, e)), p.updates)
  }

  /** Where a server begins: its configuration, its service account and its update history so far. */
  datatype Origin = Origin(config: Transfer.Config, service: Transfer.Owner, entries: seq<PolicyUpdate.Entry>)

  /** The service account after the effects, in order. */
  function ServiceAfter(first: Transfer.Owner, effects: seq<Effect>): Transfer.Owner {
    if |effects| == 0 then first
    else if effects[|effects| - 1].Account? then effects[|effects| - 1].to
    else ServiceAfter(first, effects[..|effects| - 1])
  }

  /** Configuration and manifest are those of the effects, in order. */
  ghost predicate Tells(
    digest: Transfer.Config -> string, origin: Origin, effects: seq<Effect>, c: Transfer.Config, p: Papers)
  {
    && c == After(origin.config, effects)
    && p.configDigest == digest(c)
    && p.service == ServiceAfter(origin.service, effects) && p.service.uid == c.serviceUid
    && p.updates == Shown(digest, origin.config, Last(origin.entries, 32), effects)
  }

  lemma TellsMore(
    digest: Transfer.Config -> string, origin: Origin, effects: seq<Effect>, c: Transfer.Config, p: Papers, e: Effect)
    requires Tells(digest, origin, effects, c, p)
    ensures Tells(digest, origin, effects + [e], NewConfig(c, e), NewPapers(digest, c, p, e))
  {
    assert (effects + [e])[..|effects|] == effects;
  }

  class Host {
    const digest: Transfer.Config -> string
    const gid: nat
    const weather: Weather
    var files: Files
    var journals: Journals

    ghost const origin: Origin

    /** The updates and transfers that took effect and were not taken back, oldest first. */
    ghost var effects: seq<Effect>

    /** The files the server stands at or goes back to. */
    ghost function Base(): Files
      reads this
    {
      if journals.policy.Some? then journals.policy.value
      else if journals.transfer.Some? then journals.transfer.value
      else files
    }

    ghost predicate Valid()
      reads this
    {
      && (journals.policy.None? || journals.transfer.None?)
      && Tells(digest, origin, effects, Base().config.document, Base().papers.document)
    }

    constructor (
        digest: Transfer.Config -> string, gid: nat, weather: Weather, files: Files, ghost origin: Origin)
      requires Tells(digest, origin, [], files.config.document, files.papers.document)
      ensures Valid() && journals.Empty() && effects == [] && this.origin == origin
      ensures this.files == files && this.digest == digest && this.weather == weather
    {
      this.digest, this.gid, this.weather, this.files := digest, gid, weather, files;
      journals := Journals(None, None);
      this.origin, effects := origin, [];
    }

    method WriteConfig(c: Kept<Transfer.Config>) returns (e: Ending)
      modifies this`files, weather
      ensures files == old(files) || files == old(files).(config := c)
      ensures e.Ok? ==> files == old(files).(config := c)
      ensures old(weather.Calm()) ==> weather.Calm() && e.Ok?
    {
      var f := weather.Meet();
      if f.Die? { return Dead; }
      if f.RaiseBefore? { return Raised; }
      files := files.(config := c);
      return if f.RaiseAfter? then Raised else Ok;
    }

    method WritePapers(p: Kept<Papers>) returns (e: Ending)
      modifies this`files, weather
      ensures files == old(files) || files == old(files).(papers := p)
      ensures e.Ok? ==> files == old(files).(papers := p)
      ensures old(weather.Calm()) ==> weather.Calm() && e.Ok?
    {
      var f := weather.Meet();
      if f.Die? { return Dead; }
      if f.RaiseBefore? { return Raised; }
      files := files.(papers := p);
      return if f.RaiseAfter? then Raised else Ok;
    }

    method RemoveJournal(kind: Kind) returns (e: Ending)
      modifies this`journals, weather
      ensures journals == old(journals) || journals == old(journals).With(kind, None)
      ensures e.Ok? ==> journals == old(journals).With(kind, None)
      ensures old(weather.Calm()) ==> weather.Calm() && e.Ok?
    {
      var f := weather.Meet();
      if f.Die? { return Dead; }
      if f.RaiseBefore? { return Raised; }
      journals := journals.With(kind, None);
      return if f.RaiseAfter? then Raised else Ok;
    }

    /** Put both files back, each in two writes: the content, then its recorded group. */
    method Restore(j: Files) returns (e: Ending, clean: bool)
      modifies this`files, weather
      ensures clean ==> e.Ok? && files == j
      ensures old(weather.Calm()) ==> weather.Calm() && e.Ok? && clean
    {
      e := WriteConfig(j.config.(gid := gid));
      if e.Ok? { e := WriteConfig(j.config); }
      if e.Dead? { return e, false; }
      clean := e.Ok?;
      e := WritePapers(j.papers.(gid := gid));
      if e.Ok? { e := WritePapers(j.papers); }
      if e.Dead? { return e, false; }
      return Ok, clean && e.Ok?;
    }

    /** Both writes; an update also reads them back. */
    method Forward(kind: Kind, c: Transfer.Config, p: Papers) returns (e: Ending)
      modifies this`files, weather
      ensures e.Ok? ==> files.config.document == c && files.papers.document == p
      ensures old(weather.Calm()) ==> weather.Calm() && e.Ok?
    {
      e := WriteConfig(Kept(c, gid));
      if !e.Ok? { return; }
      e := WritePapers(Kept(p, gid));
      if e.Ok? && kind.OfPolicy? {
        e := Pass();
      }
    }

    /** A step that can fail and changes nothing. */
    method Pass() returns (e: Ending)
      modifies weather
      ensures old(weather.Calm()) ==> weather.Calm() && e.Ok?
    {
      var f := weather.Meet();
      return if f.Fine? then Ok else if f.Die? then Dead else Raised;
    }

    /** A transfer leaves its guard before it removes the journal, an update afterwards. */
    method LeaveGuard(kind: Kind) returns (e: Ending)
      modifies weather
      ensures old(weather.Calm()) ==> weather.Calm() && e.Ok?
    {
      e := Ok;
      if kind.OfTransfer? {
        e := Pass();
      }
    }

    /** The operation proper, on a server without journals. */
    method Rewrite(kind: Kind, effect: Effect) returns (e: Ending)
      requires Valid() && journals.Empty()
      modifies this, weather
      ensures Valid()
      ensures effects == old(effects) || (effects == old(effects) + [effect] && journals.Empty())
      ensures effects == old(effects) && journals.Empty() ==> files == old(files)
      ensures !journals.Empty() ==> journals == Journals(None, None).With(kind, Some(old(files)))
      ensures e.Ok? ==> effects == old(effects) + [effect]
      ensures old(weather.Calm()) ==> e.Ok?
    {
      var j := files;
      var c, p := files.config.document, files.papers.document;
      var f := weather.Meet();
      if f.Die? { return Dead; }
      if f.RaiseBefore? { return Raised; }
      journals := journals.With(kind, Some(j));
      if f.RaiseAfter? { return Raised; }
      e := Forward(kind, NewConfig(c, effect), NewPapers(digest, c, p, effect));
      if e.Dead? { return; }
      if e.Raised? {
        var clean;
        e, clean := Restore(j);
        if e.Dead? { return; }
        e := LeaveGuard(kind);
        if e.Dead? { return; }
        if clean {
          e := RemoveJournal(kind);
          if e.Dead? { return; }
        }
        return Raised;
      }
      e := LeaveGuard(kind);
      if !e.Ok? { return; }
      e := RemoveJournal(kind);
      if journals.Empty() {
        TellsMore(digest, origin, effects, c, p, effect);
        effects := effects + [effect];
      }
    }

    /** Recovery of one kind takes back exactly the interrupted operation of that kind. */
    method Undo(kind: Kind) returns (e: Ending)
      requires Valid() && journals.Of(kind).Some?
      modifies this`files, this`journals, weather
      ensures Valid() && Base() == old(Base())
      ensures journals == old(journals) || journals.Empty()
      ensures e.Ok? ==> journals.Empty()
      ensures old(weather.Calm()) ==> e.Ok?
    {
      var f := weather.Meet();
      if f.Die? { return Dead; }
      if !f.Fine? { return Raised; }
      var clean;
      e, clean := Restore(journals.Of(kind).value);
      if e.Dead? { return; }
      if !clean { return Raised; }
      e := LeaveGuard(kind);
      if !e.Ok? { return; }
      e := RemoveJournal(kind);
    }

    /** One command.  `took` is what took effect in it, if anything did. */
    method Step(command: Command) returns (report: Report, ghost took: Option<Effect>)
      requires Valid()
      modifies this, weather
      ensures Valid() && report.pending == !journals.Empty()
      ensures effects == if took.Some? then old(effects) + [took.value] else old(effects)
      ensures Explains(command, report, took, origin, old(effects))
      ensures old(journals.Empty()) && old(weather.Calm()) && !command.Recover? ==> report.end.Ok?
      ensures command.Recover? && old(journals.Of(command.kind)).Some? && old(weather.Calm()) ==> report.end.Ok?
    {
      took := None;
      var e := Raised;
      if command.Recover? {
        if journals.Of(command.kind).Some? {
          e := Undo(command.kind);
        }
      } else if journals.Empty() {
        var effect := if command.Update? then Policy(command.rest) else Account(command.to);
        var idle := if command.Update? then command.rest == files.config.document.rest
                    else command.to == files.papers.document.service;
        if idle {
          e := Ok;
        } else {
          e := Rewrite(if command.Update? then OfPolicy else OfTransfer, effect);
          if effects != old(effects) {
            took := Some(effect);
          }
        }
      }
      report := Report(e, !journals.Empty());
    }

    /**
     Any run of updates, transfers and recoveries of either kind, interrupted anywhere.  Without a journal the
     configuration is that of what took effect, in order, and the manifest shows the last 32 update entries of it.
     */
    method Run(commands: seq<Command>) returns (reports: seq<Report>, ghost took: seq<Option<Effect>>)
      requires Valid()
      modifies this, weather
      ensures Valid()
      ensures Accounts(commands, reports, took, origin, old(effects))
      ensures effects == old(effects) + Taken(took)
      ensures journals.Empty() ==>
        && files.config.document == After(origin.config, effects)
        && files.papers.document.configDigest == digest(files.config.document)
        && files.papers.document.updates == Last(origin.entries + AllEntries(digest, origin.config, effects), 32)
    {
      reports, took := Steps(commands);
      ShowsTheLast(digest, origin.config, origin.entries, effects);
    }

    method Steps(commands: seq<Command>) returns (reports: seq<Report>, ghost took: seq<Option<Effect>>)
      requires Valid()
      modifies this, weather
      ensures Valid()
      ensures Accounts(commands, reports, took, origin, old(effects))
      ensures effects == old(effects) + Taken(took)
    {
      reports, took := [], [];
      for i := 0 to |commands|
        invariant Valid()
        invariant Accounts(commands[..i], reports, took, origin, old(effects))
        invariant effects == old(effects) + Taken(took)
      {
        var report;
        ghost var last;
        report, last := Step(commands[i]);
        TakenGrows(old(effects), took, last);
        AccountsGrow(commands[..i], reports, took, origin, old(effects), commands[i], report, last);
        assert commands[..i + 1] == commands[..i] + [commands[i]];
        reports, took := reports + [report], took + [last];
      }
      assert commands[..|commands|] == commands;
    }
  }

  /** What took effect over a run. */
  ghost function Taken(took: seq<Option<Effect>>): seq<Effect> {
    if |took| == 0 then []
    else Taken(took[..|took| - 1]) + if took[|took| - 1].Some? then [took[|took| - 1].value] else []
  }

  lemma TakenGrows(before: seq<Effect>, took: seq<Option<Effect>>, last: Option<Effect>)
    ensures before + Taken(took + [last]) ==
      if last.Some? then (before + Taken(took)) + [last.value] else before + Taken(took)
  {
    assert (took + [last])[..|took|] == took;
  }

  /** There is nothing to do: the policy or the account asked for is there already. */
  ghost predicate Idle(command: Command, origin: Origin, effects: seq<Effect>) {
    match command
    case Update(rest) => rest == After(origin.config, effects).rest
    case Move(to) => to == ServiceAfter(origin.service, effects)
    case Recover(_) => true
  }

  /**
   How what took effect in a command goes with what is seen of it: only the command's own effect, and only if no journal
   is left; a command that ended normally did, unless there was nothing to do.
   */
  ghost predicate Explains(
    command: Command, report: Report, took: Option<Effect>, origin: Origin, effects: seq<Effect>)
  {
    && (took.Some? ==>
          && !command.Recover? && !report.pending && !Idle(command, origin, effects)
          && took.value == if command.Update? then Policy(command.rest) else Account(command.to))
    && (report.end.Ok? ==> !report.pending && (took.Some? || Idle(command, origin, effects)))
  }

  /** Each command of the run is explained by what took effect in it, after what took effect before. */
  ghost predicate Accounts(
    commands: seq<Command>, reports: seq<Report>, took: seq<Option<Effect>>, origin: Origin, effects: seq<Effect>)
  {
    && |took| == |reports| == |commands|
    && forall i | 0 <= i < |commands| ::
         Explains(commands[i], reports[i], took[i], origin, effects + Taken(took[..i]))
  }

  lemma AccountsGrow(
    commands: seq<Command>, reports: seq<Report>, took: seq<Option<Effect>>, origin: Origin, effects: seq<Effect>,
    command: Command, report: Report, last: Option<Effect>)
    requires Accounts(commands, reports, took, origin, effects)
    requires Explains(command, report, last, origin, effects + Taken(took))
    ensures Accounts(commands + [command], reports + [report], took + [last], origin, effects)
  {
    var longer := took + [last];
    assert longer[..|took|] == took;
    forall i | 0 <= i < |took| ensures longer[..i] == took[..i] {
    }
  }
}
