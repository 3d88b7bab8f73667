/**
 GPU policy updates: the configuration and the install manifest are rewritten under a journal, and the manifest keeps
 a bounded history of the updates, linked by configuration digests.
 */
module PolicyUpdate {
  import opened Faults
  import opened Options
  import opened Basics

  /** One update in the manifest's history. */
  datatype Entry = Entry(from: string, to: string)

  datatype Manifest = Manifest(configDigest: string, updates: seq<Entry>, rest: string)

  datatype Journal = Journal(configBefore: Kept<string>, manifestBefore: Kept<Manifest>)

  /** The manifest an update writes: the last 31 entries and one more. */
  function Updated(digest: string -> string, m: Manifest, config: string, desired: string): Manifest {
    Manifest(digest(desired), Last(m.updates, 31) + [Entry(digest(config), digest(desired))], m.rest)
  }

  ghost predicate Linked(updates: seq<Entry>) {
    forall i | 0 <= i < |updates| - 1 :: updates[i].to == updates[i + 1].from
  }

  /** The two files agree, and the manifest shows the tail of the updates that took effect. */
  ghost predicate Settled(digest: string -> string, config: string, m: Manifest, survivors: seq<Entry>) {
    && m.configDigest == digest(config)
    && m.updates == Last(survivors, 32)
    && Linked(survivors)
    && (survivors != [] ==> survivors[|survivors| - 1].to == digest(config))
  }

  /** Keeping 31 of the last 32 and adding one keeps the last 32 of the longer history. */
  lemma WindowSlides(survivors: seq<Entry>, e: Entry)
    ensures Last(Last(survivors, 32), 31) + [e] == Last(survivors + [e], 32)
  {
    if |survivors| >= 32 {
      assert Last(survivors, 32)[1..] == survivors[|survivors| - 31..];
    }
  }

  lemma UpdateSettles(digest: string -> string, config: string, m: Manifest, survivors: seq<Entry>, desired: string)
    requires Settled(digest, config, m, survivors)
    ensures Settled(digest, desired, Updated(digest, m, config, desired),
                    survivors + [Entry(digest(config), digest(desired))])
  {
    WindowSlides(survivors, Entry(digest(config), digest(desired)));
  }

  /** What a reader of a settled manifest can rely on: a bounded chain of digests that ends at the configuration. */
  lemma SettledHistoryIsAChain(digest: string -> string, config: string, m: Manifest, survivors: seq<Entry>)
    requires Settled(digest, config, m, survivors)
    ensures |m.updates| <= 32 && Linked(m.updates)
    ensures m.updates != [] ==> m.updates[|m.updates| - 1].to == m.configDigest == digest(config)
    ensures |survivors| <= 32 ==> m.updates == survivors
  {
    var skipped := |survivors| - |m.updates|;
    forall i | 0 <= i < |m.updates| - 1
      ensures m.updates[i].to == m.updates[i + 1].from
    {
      assert m.updates[i] == survivors[skipped + i] && m.updates[i + 1] == survivors[skipped + i + 1];
    }
  }

  datatype Command = Update(desired: string) | Recovery

  class Server {
    const digest: string -> string
    const gid: nat
    const weather: Weather
    var config: Kept<string>
    var manifest: Kept<Manifest>
    var journal: Option<Journal>

    /** The updates that took effect and were not taken back, oldest first. */
    ghost var survivors: seq<Entry>

    ghost predicate Valid()
      reads this
    {
      match journal
      case None => Settled(digest, config.document, manifest.document, survivors)
      case Some(j) => Settled(digest, j.configBefore.document, j.manifestBefore.document, survivors)
    }

    /** The configuration the server stands at or goes back to. */
    ghost function Stands(): string
      reads this
    {
      if journal.Some? then journal.value.configBefore.document else config.document
    }

    /** The rest of the install manifest, as it stands or is gone back to. */
    ghost function Rest(): string
      reads this
    {
      if journal.Some? then journal.value.manifestBefore.document.rest else manifest.document.rest
    }

    constructor (digest: string -> string, gid: nat, weather: Weather, config: Kept<string>, manifest: Kept<Manifest>)
      requires Settled(digest, config.document, manifest.document, manifest.document.updates)
      ensures Valid() && journal.None? && survivors == manifest.document.updates
      ensures this.config == config && this.manifest == manifest && this.digest == digest && this.weather == weather
    {
      this.digest, this.gid, this.weather := digest, gid, weather;
      this.config, this.manifest, journal := config, manifest, None;
      survivors := manifest.document.updates;
    }

    method WriteConfig(file: Kept<string>) returns (e: Ending)
      modifies this`config, weather
      ensures config == old(config) || config == file
      ensures e.Ok? ==> config == file
      ensures old(weather.Calm()) ==> weather.Calm() && e.Ok?
    {
      var f := weather.Meet();
      if f.Die? { return Dead; }
      if f.RaiseBefore? { return Raised; }
      config := file;
      return if f.RaiseAfter? then Raised else Ok;
    }

    method WriteManifest(file: Kept<Manifest>) returns (e: Ending)
      modifies this`manifest, weather
      ensures manifest == old(manifest) || manifest == file
      ensures e.Ok? ==> manifest == file
      ensures old(weather.Calm()) ==> weather.Calm() && e.Ok?
    {
      var f := weather.Meet();
      if f.Die? { return Dead; }
      if f.RaiseBefore? { return Raised; }
      manifest := file;
      return if f.RaiseAfter? then Raised else Ok;
    }

    method RemoveJournal() returns (e: Ending)
      modifies this`journal, weather
      ensures journal == old(journal) || journal.None?
      ensures e.Ok? ==> journal.None?
      ensures old(weather.Calm()) ==> weather.Calm() && e.Ok?
    {
      var f := weather.Meet();
      if f.Die? { return Dead; }
      if f.RaiseBefore? { return Raised; }
      journal := None;
      return if f.RaiseAfter? then Raised else Ok;
    }

    /**
     Put both files back, each in two writes: the content, then its recorded group.  A failure does not stop the
     other.
     */
    method Restore(j: Journal) returns (e: Ending, clean: bool)
      modifies this`config, this`manifest, weather
      ensures clean ==> e.Ok? && config == j.configBefore && manifest == j.manifestBefore
      ensures old(weather.Calm()) ==> weather.Calm() && e.Ok? && clean
    {
      e := WriteConfig(j.configBefore.(gid := gid));
      if e.Ok? { e := WriteConfig(j.configBefore); }
      if e.Dead? { return e, false; }
      clean := e.Ok?;
      e := WriteManifest(j.manifestBefore.(gid := gid));
      if e.Ok? { e := WriteManifest(j.manifestBefore); }
      if e.Dead? { return e, false; }
      return Ok, clean && e.Ok?;
    }

    /** Both writes and the read-back that checks them. */
    method Forward(desired: string, updated: Manifest) returns (e: Ending)
      requires updated.configDigest == digest(desired)
      modifies this`config, this`manifest, weather
      ensures e.Ok? ==> config.document == desired && manifest.document == updated
      ensures old(weather.Calm()) ==> weather.Calm() && e.Ok?
    {
      e := WriteConfig(Kept(desired, gid));
      if !e.Ok? { return; }
      e := WriteManifest(Kept(updated, gid));
      if !e.Ok? { return; }
      var f := weather.Meet();
      if f.Die? { return Dead; }
      if !f.Fine? || config.document != desired || manifest.document.configDigest != digest(config.document) {
        return Raised;
      }
    }

    /**
     One policy update.  Wherever it stops: without a journal it either never happened or is the newest survivor, and
     with a journal the state from before it is what the journal holds.
     */
    method Apply(desired: string) returns (e: Ending)
      requires Valid()
      modifies this, weather
      ensures Valid()
      ensures old(journal).Some? ==>
        e.Raised? && journal == old(journal) && config == old(config) && manifest == old(manifest)
      ensures old(journal).Some? || journal.Some? ==> survivors == old(survivors)
      ensures old(journal).None? && journal.Some? ==>
        journal.value.configBefore == old(config) && journal.value.manifestBefore == old(manifest)
      ensures old(journal).None? && journal.None? ==>
        || (survivors == old(survivors) && config == old(config) && manifest == old(manifest))
        || (&& survivors == old(survivors) + [Entry(digest(old(config).document), digest(desired))]
            && config.document == desired && desired != old(config).document)
      ensures Rest() == old(Rest())
      ensures old(journal).None? && e.Ok? ==>
        && journal.None? && config.document == desired
        && manifest.document.configDigest == digest(desired)
        && manifest.document.rest == old(manifest).document.rest
      ensures old(journal).None? && old(weather.Calm()) ==> e.Ok?
    {
      if journal.Some? || manifest.document.configDigest != digest(config.document) { return Raised; }
      if desired == config.document { return Ok; }
      var j := Journal(config, manifest);
      var updated := Updated(digest, manifest.document, config.document, desired);
      var f := weather.Meet();
      if f.Die? { return Dead; }
      if f.RaiseBefore? { return Raised; }
      journal := Some(j);
      if f.RaiseAfter? { return Raised; }
      e := Forward(desired, updated);
      if e.Dead? { return; }
      if e.Raised? {
        var clean;
        e, clean := Restore(j);
        if e.Dead? { return; }
        if clean {
          e := RemoveJournal();
          if e.Dead? { return; }
        }
        return Raised;
      }
      e := RemoveJournal();
      if journal.None? {
        UpdateSettles(digest, j.configBefore.document, j.manifestBefore.document, survivors, desired);
        survivors := survivors + [Entry(digest(j.configBefore.document), digest(desired))];
      }
    }

    /** Recovery takes back exactly the interrupted update, and can itself be interrupted and run again. */
    method Recover() returns (e: Ending)
      requires Valid() && journal.Some?
      modifies this`config, this`manifest, this`journal, weather
      ensures Valid()
      ensures journal.None? ==>
        config == old(journal).value.configBefore && manifest == old(journal).value.manifestBefore
      ensures journal.Some? ==> journal == old(journal)
      ensures Rest() == old(Rest())
      ensures e.Ok? ==> journal.None?
      ensures old(weather.Calm()) ==> e.Ok?
    {
      var f := weather.Meet();
      if f.Die? { return Dead; }
      if !f.Fine? { return Raised; }
      var clean;
      e, clean := Restore(journal.value);
      if e.Dead? { return; }
      if !clean { return Raised; }
      e := RemoveJournal();
    }

    /** One command.  `took` is the configuration that took effect in it, if one did. */
    method Step(command: Command) returns (report: Report, ghost took: Option<string>)
      requires Valid()
      modifies this, weather
      ensures Valid() && report.pending == journal.Some?
      ensures survivors == old(survivors) + NewEntry(digest, old(Stands()), took)
      ensures Stands() == if took.Some? then took.value else old(Stands())
      ensures Explains(command, report, took, old(Stands()))
      ensures Rest() == old(Rest())
    {
      took := None;
      var e := Raised;
      match command {
        case Update(desired) =>
          e := Apply(desired);
          if survivors != old(survivors) {
            took := Some(desired);
          }
        case Recovery =>
          if journal.Some? {
            e := Recover();
          }
      }
      report := Report(e, journal.Some?);
    }

    /**
     The loop over the commands.  `took` lists, command by command, the configuration that took effect in it; the
     surviving entries are those of these configurations in order.
     */
    method Steps(commands: seq<Command>) returns (reports: seq<Report>, ghost took: seq<Option<string>>)
      requires Valid()
      modifies this, weather
      ensures Valid()
      ensures Accounts(old(Stands()), commands, reports, took)
      ensures survivors == old(survivors) + EntriesOf(digest, old(Stands()), took)
      ensures Stands() == Latest(old(Stands()), took)
      ensures Rest() == old(Rest())
      ensures commands == [] ==> config == old(config) && manifest == old(manifest) && journal == old(journal)
    {
      reports, took := [], [];
      ghost var start := Stands();
      for i := 0 to |commands|
        invariant Valid()
        invariant Accounts(start, commands[..i], reports, took)
        invariant survivors == old(survivors) + EntriesOf(digest, start, took)
        invariant Stands() == Latest(start, took)
        invariant Rest() == old(Rest())
        invariant i == 0 ==> config == old(config) && manifest == old(manifest) && journal == old(journal)
      {
        var report;
        ghost var last;
        report, last := Step(commands[i]);
        EntriesGrow(digest, start, old(survivors), took, last);
        AccountsGrow(start, commands[..i], reports, took, commands[i], report, last);
        assert commands[..i + 1] == commands[..i] + [commands[i]];
        reports, took := reports + [report], took + [last];
      }
      assert commands[..|commands|] == commands;
    }

    /**
     Any run of updates and recoveries, interrupted anywhere.  Whenever no journal is pending the configuration is the
     last one that took effect, and the manifest matches it and shows the last at most 32 surviving updates as a chain
     that ends at it.
     */
    method Run(commands: seq<Command>) returns (reports: seq<Report>, ghost took: seq<Option<string>>)
      requires Valid()
      modifies this, weather
      ensures Valid()
      ensures Accounts(old(Stands()), commands, reports, took)
      ensures survivors == old(survivors) + EntriesOf(digest, old(Stands()), took)
      ensures Stands() == Latest(old(Stands()), took)
      ensures Rest() == old(Rest())
      ensures journal.None? ==>
        && config.document == Latest(old(Stands()), took)
        && manifest.document.configDigest == digest(config.document)
        && manifest.document.rest == old(Rest())
        && manifest.document.updates == Last(survivors, 32)
        && Linked(manifest.document.updates)
        && (survivors != [] ==> survivors[|survivors| - 1].to == digest(config.document))
      ensures commands == [] ==> config == old(config) && manifest == old(manifest) && journal == old(journal)
    {
      reports, took := Steps(commands);
      if journal.None? {
        SettledHistoryIsAChain(digest, config.document, manifest.document, survivors);
      }
    }
  }

  /** The last configuration that took effect, or the one before the run if none did. */
  ghost function Latest(start: string, took: seq<Option<string>>): string {
    if |took| == 0 then start
    else if took[|took| - 1].Some? then took[|took| - 1].value
    else Latest(start, took[..|took| - 1])
  }

  /** The history entry of a configuration that took effect after `before`. */
  ghost function NewEntry(digest: string -> string, before: string, took: Option<string>): seq<Entry> {
    if took.None? then [] else [Entry(digest(before), digest(took.value))]
  }

  /** The history entries of the configurations that took effect, one after the other. */
  ghost function EntriesOf(digest: string -> string, start: string, took: seq<Option<string>>): seq<Entry> {
    if |took| == 0 then []
    else
      var n := |took| - 1;
      EntriesOf(digest, start, took[..n]) + NewEntry(digest, Latest(start, took[..n]), took[n])
  }

  lemma EntriesGrow(
    digest: string -> string, start: string, kept: seq<Entry>, took: seq<Option<string>>, last: Option<string>)
    ensures kept + EntriesOf(digest, start, took + [last]) ==
      (kept + EntriesOf(digest, start, took)) + NewEntry(digest, Latest(start, took), last)
    ensures Latest(start, took + [last]) == if last.Some? then last.value else Latest(start, took)
  {
    assert (took + [last])[..|took|] == took;
  }

  /**
   How what took effect in a command goes with what is seen of it, given the configuration before it: only an update to
   another configuration takes effect, never while a journal is pending; one that ended normally did, unless there was
   nothing to do.
   */
  ghost predicate Explains(command: Command, report: Report, took: Option<string>, stands: string) {
    && (took.Some? ==> command.Update? && took.value == command.desired != stands && !report.pending)
    && (command.Update? && report.end.Ok? ==> !report.pending && (took.Some? || command.desired == stands))
    && (command.Recovery? && report.end.Ok? ==> !report.pending)
  }

  /** Each command of the run is explained by what took effect in it, after what took effect before. */
  ghost predicate Accounts(start: string, commands: seq<Command>, reports: seq<Report>, took: seq<Option<string>>) {
    && |took| == |reports| == |commands|
    && forall i | 0 <= i < |commands| :: Explains(commands[i], reports[i], took[i], Latest(start, took[..i]))
  }

  lemma AccountsGrow(
    start: string, commands: seq<Command>, reports: seq<Report>, took: seq<Option<string>>,
    command: Command, report: Report, last: Option<string>)
    requires Accounts(start, commands, reports, took)
    requires Explains(command, report, last, Latest(start, took))
    ensures Accounts(start, commands + [command], reports + [report], took + [last])
  {
    var longer := took + [last];
    assert longer[..|took|] == took;
    forall i | 0 <= i < |took| ensures longer[..i] == took[..i] {
    }
  }
}
