/**
 The optimistic transaction protocol as a state machine: any number of clients load the ledger, run their mutators
 locally and ask the broker to commit, interleaved with each other and with arbitrary other ledger writes.
 It refines a store that runs each committed mutator atomically.
 */
module BrokerProtocol {
  import opened Basics
  import opened Json
  import opened BrokerRules
  import opened BrokerLaw
  import BrokerRuns

  const RETRIES := 8

  datatype Mutation = Mutation(ledger: Value, result: Value, logs: seq<Value>, changed: bool)

  /** The digest, what each client's mutator answers on each of its calls, and who each client is. */
  datatype World = World(
    digest: Dict -> string,
    mutate: (nat, nat, Dict) -> Mutation,
    actor: nat -> Actor)

  datatype Form = PatchForm | LegacyForm

  datatype Failure =
    | Exhausted   // every attempt of one form was refused
    | Error       // an error that left the store alone
    | Lost        // the broker committed but its answer never arrived

  /**
   One client transaction.  `start` is the number of events when it began, `used` the refused attempts in the
   current form, `calls` the mutator calls made so far and `refused` the refusals over both forms.
   */
  datatype Client =
    | Ready(start: nat, form: Form, used: nat, calls: nat, refused: nat)
    | Loaded(start: nat, form: Form, used: nat, calls: nat, refused: nat, base: Dict, readAt: nat)
    | Returned(result: Value, at: nat, call: nat, wrote: bool)
    | Failed(why: Failure, start: nat)

  datatype Event =
    | Wrote(client: nat, call: nat, transactionId: string, audit: seq<AuditEvent>)
    | Other(ledger: Dict)

  datatype State = State(ledger: Dict, log: seq<Event>, clients: map<nat, Client>)

  datatype Step =
    | Begin(c: nat)
    | Load(c: nat)
    | Ask(c: nat, now: int, transactionId: string, lost: bool)
    | Unsupported(c: nat)
    | Break(c: nat)
    | Environment(written: Dict)

  // ---------------------------------------------------------------- the protocol

  function Answer(s: State, c: nat, k: Client, m: Mutation, o: Outcome, transactionId: string, lost: bool): State
    requires k.Loaded?
  {
    match o
    case Refused =>
      var next := if k.used + 1 < RETRIES
                  then Ready(k.start, k.form, k.used + 1, k.calls + 1, k.refused + 1)
                  else Failed(Exhausted, k.start);
      s.(clients := s.clients[c := next])
    case Rejected =>
      s.(clients := s.clients[c := Failed(Error, k.start)])
    case Committed(_, audit, _) =>
      var next := if lost then Failed(Lost, k.start) else Returned(m.result, |s.log|, k.calls, true);
      State(BrokerRuns.Store(s.ledger, o, transactionId),
            s.log + [Wrote(c, k.calls, transactionId, audit)],
            s.clients[c := next])
  }

  /** What the broker makes of a client's request, in either form. */
  function Verdict(w: World, ledger: Dict, c: nat, k: Client, m: Mutation, now: int): Outcome
    requires k.Loaded?
    requires k.form.PatchForm? ==> m.ledger.Obj? && Diff(k.base, m.ledger.fields).Ok?
  {
    if k.form.PatchForm?
    then CommitPatch(w.digest, ledger, w.digest(k.base), Diff(k.base, m.ledger.fields).value,
                     m.logs, m.changed, w.actor(c), now)
    else CommitLedger(w.digest, ledger, w.digest(k.base), m.ledger, m.logs, m.changed, w.actor(c), now)
  }

  function Request(w: World, s: State, c: nat, now: int, transactionId: string, lost: bool): State
    requires c in s.clients && s.clients[c].Loaded?
  {
    var k := s.clients[c];
    var m := w.mutate(c, k.calls, k.base);
    if !m.changed && m.logs == [] then
      s.(clients := s.clients[c := Returned(m.result, k.readAt, k.calls, false)])
    else if k.form.PatchForm? && (!m.ledger.Obj? || Diff(k.base, m.ledger.fields).Err?) then
      s.(clients := s.clients[c := Failed(Error, k.start)])
    else
      Answer(s, c, k, m, Verdict(w, s.ledger, c, k, m, now), transactionId, lost)
  }

  /** A step that is not enabled leaves the state as it is. */
  function Next(w: World, s: State, step: Step): State {
    match step
    case Begin(c) =>
      if c in s.clients then s else s.(clients := s.clients[c := Ready(|s.log|, PatchForm, 0, 0, 0)])
    case Load(c) =>
      if c in s.clients && s.clients[c].Ready? then
        var k := s.clients[c];
        s.(clients := s.clients[c := Loaded(k.start, k.form, k.used, k.calls, k.refused, s.ledger, |s.log|)])
      else s
    case Ask(c, now, transactionId, lost) =>
      if c in s.clients && s.clients[c].Loaded? then Request(w, s, c, now, transactionId, lost) else s
    case Unsupported(c) =>
      if c in s.clients && s.clients[c].Loaded? && s.clients[c].form.PatchForm? then
        var k := s.clients[c];
        s.(clients := s.clients[c := Ready(k.start, LegacyForm, 0, k.calls + 1, k.refused)])
      else s
    case Break(c) =>
      if c in s.clients && (s.clients[c].Ready? || s.clients[c].Loaded?)
      then s.(clients := s.clients[c := Failed(Error, s.clients[c].start)])
      else s
    case Environment(l) => s.(ledger := l, log := s.log + [Other(l)])
  }

  function Initial(ledger: Dict): State {
    State(ledger, [], map[])
  }

  function Run(w: World, ledger: Dict, steps: seq<Step>): State {
    if |steps| == 0 then Initial(ledger)
    else Next(w, Run(w, ledger, steps[..|steps| - 1]), steps[|steps| - 1])
  }

  // ---------------------------------------------------------------- the atomic store

  /** The store's own transaction: the mutator runs on the current ledger, and a changed result is stamped and kept. */
  function Atomically(w: World, ledger: Dict, e: Event): Dict {
    match e
    case Wrote(c, call, transactionId, _) =>
      var m := w.mutate(c, call, ledger);
      if m.changed && m.ledger.Obj? then m.ledger.fields[LAST_TRANSACTION := Str(transactionId)] else ledger
    case Other(l) => l
  }

  /** The ledger after the first `n` events, run one at a time. */
  function Serial(w: World, ledger: Dict, log: seq<Event>, n: nat): Dict
    requires n <= |log|
  {
    if n == 0 then ledger else Atomically(w, Serial(w, ledger, log, n - 1), log[n - 1])
  }

  /** How many of the events from `i` up to `j` changed the ledger. */
  function Changes(w: World, ledger: Dict, log: seq<Event>, i: nat, j: nat): nat
    requires j <= |log|
    decreases j
  {
    if j <= i then 0
    else Changes(w, ledger, log, i, j - 1) +
         if Serial(w, ledger, log, j - 1) != Serial(w, ledger, log, j) then 1 else 0
  }

  ghost predicate ByClient(e: Event, c: nat) {
    e.Wrote? && e.client == c
  }

  ghost predicate NeverWrote(log: seq<Event>, c: nat) {
    forall i | 0 <= i < |log| :: !ByClient(log[i], c)
  }

  ghost predicate WroteOnlyAt(log: seq<Event>, c: nat, at: nat) {
    at < |log| && ByClient(log[at], c) && forall i | 0 <= i < |log| :: ByClient(log[i], c) ==> i == at
  }

  lemma {:induction false} SerialPrefix(w: World, ledger: Dict, log: seq<Event>, e: Event, n: nat)
    requires n <= |log|
    ensures Serial(w, ledger, log + [e], n) == Serial(w, ledger, log, n)
  {
    if n > 0 { SerialPrefix(w, ledger, log, e, n - 1); }
  }

  lemma {:induction false} ChangesPrefix(w: World, ledger: Dict, log: seq<Event>, e: Event, i: nat, j: nat)
    requires j <= |log|
    ensures Changes(w, ledger, log + [e], i, j) == Changes(w, ledger, log, i, j)
    decreases j
  {
    if j > i {
      ChangesPrefix(w, ledger, log, e, i, j - 1);
      SerialPrefix(w, ledger, log, e, j - 1);
      SerialPrefix(w, ledger, log, e, j);
    }
  }

  lemma {:induction false} ChangesGrow(w: World, ledger: Dict, log: seq<Event>, i: nat, j: nat, k: nat)
    requires i <= j <= k <= |log|
    ensures Changes(w, ledger, log, i, k) == Changes(w, ledger, log, i, j) + Changes(w, ledger, log, j, k)
    decreases k
  {
    if k > j { ChangesGrow(w, ledger, log, i, j, k - 1); }
  }

  /** Ledgers that differ have a change between them. */
  lemma {:induction false} DifferentMeansChanged(w: World, ledger: Dict, log: seq<Event>, i: nat, j: nat)
    requires i <= j <= |log|
    requires Serial(w, ledger, log, i) != Serial(w, ledger, log, j)
    ensures Changes(w, ledger, log, i, j) >= 1
    decreases j
  {
    if Serial(w, ledger, log, j - 1) == Serial(w, ledger, log, j) {
      DifferentMeansChanged(w, ledger, log, i, j - 1);
    }
  }

  // ---------------------------------------------------------------- the invariant

  ghost predicate ClientOk(w: World, ledger: Dict, log: seq<Event>, c: nat, k: Client) {
    match k
    case Ready(start, _, used, _, refused) =>
      && start <= |log| && NeverWrote(log, c)
      && used <= refused && used < RETRIES
      && Changes(w, ledger, log, start, |log|) >= refused
    case Loaded(start, _, used, _, refused, base, readAt) =>
      && start <= readAt <= |log| && NeverWrote(log, c)
      && used <= refused && used < RETRIES
      && base == Serial(w, ledger, log, readAt)
      && Changes(w, ledger, log, start, readAt) >= refused
    case Returned(result, at, call, wrote) =>
      && at <= |log|
      && var m := w.mutate(c, call, Serial(w, ledger, log, at));
         && result == m.result
         && if wrote
            then WroteOnlyAt(log, c, at) && log[at].call == call && AllLogged(log[at].audit, m.logs, w.actor(c))
            else NeverWrote(log, c) && !m.changed && m.logs == []
    case Failed(why, start) =>
      && start <= |log|
      && match why
         case Exhausted => NeverWrote(log, c) && Changes(w, ledger, log, start, |log|) >= RETRIES
         case Error => NeverWrote(log, c)
         case Lost => exists at :: WroteOnlyAt(log, c, at)
  }

  ghost predicate Invariant(w: World, ledger: Dict, s: State) {
    && s.ledger == Serial(w, ledger, s.log, |s.log|)
    && (forall c | c in s.clients :: ClientOk(w, ledger, s.log, c, s.clients[c]))
    && (forall c | c !in s.clients :: NeverWrote(s.log, c))
  }

  /** A client's part of the invariant survives an event that is not its own. */
  lemma ClientOkExtends(w: World, ledger: Dict, log: seq<Event>, e: Event, c: nat, k: Client)
    requires ClientOk(w, ledger, log, c, k) && !ByClient(e, c)
    ensures ClientOk(w, ledger, log + [e], c, k)
  {
    var longer := log + [e];
    match k
    case Ready(start, _, _, _, _) =>
      ChangesPrefix(w, ledger, log, e, start, |log|);
    case Loaded(start, _, _, _, _, _, readAt) =>
      ChangesPrefix(w, ledger, log, e, start, readAt);
      SerialPrefix(w, ledger, log, e, readAt);
    case Returned(_, at, _, wrote) =>
      SerialPrefix(w, ledger, log, e, at);
      if wrote { assert longer[at] == log[at]; }
    case Failed(why, start) =>
      ChangesPrefix(w, ledger, log, e, start, |log|);
      if why.Lost? {
        var at :| WroteOnlyAt(log, c, at);
        assert WroteOnlyAt(longer, c, at);
      }
  }

  /** A commit the broker accepts stores exactly what running the mutator on the current ledger would have stored. */
  lemma CommittedIsAtomic(
      w: World, s: State, c: nat, k: Client, m: Mutation, o: Outcome, now: int, transactionId: string)
    requires CollisionFree(w.digest)
    requires k.Loaded? && m == w.mutate(c, k.calls, k.base)
    requires k.form.PatchForm? ==> m.ledger.Obj? && Diff(k.base, m.ledger.fields).Ok?
    requires o == Verdict(w, s.ledger, c, k, m, now)
    ensures o.Refused? ==> s.ledger != k.base
    ensures o.Committed? ==> s.ledger == k.base
    ensures o.Committed? ==>
      BrokerRuns.Store(s.ledger, o, transactionId) == Atomically(w, s.ledger, Wrote(c, k.calls, transactionId, o.audit))
  {
    if o.Committed? {
      assert w.digest(s.ledger) == w.digest(k.base);
      if k.form.PatchForm? {
        PatchMeansWholeLedger(w.digest, s.ledger, m.ledger.fields, w.digest(k.base),
                              Diff(k.base, m.ledger.fields).value, m.logs, m.changed, w.actor(c), now);
      }
    }
  }

  /** What the broker commits it also records, log item by log item. */
  lemma VerdictLogs(w: World, ledger: Dict, c: nat, k: Client, m: Mutation, now: int)
    requires k.Loaded? && (k.form.PatchForm? ==> m.ledger.Obj? && Diff(k.base, m.ledger.fields).Ok?)
    ensures Verdict(w, ledger, c, k, m, now).Committed? ==>
      AllLogged(Verdict(w, ledger, c, k, m, now).audit, m.logs, w.actor(c))
  {
    var proposal := if k.form.PatchForm? then BrokerRuns.Patch(Diff(k.base, m.ledger.fields).value)
                    else BrokerRuns.Whole(m.ledger);
    var r := BrokerRuns.Request(proposal, w.digest(k.base), m.logs, m.changed, w.actor(c), now, "");
    assert Verdict(w, ledger, c, k, m, now) == BrokerRuns.Commit(w.digest, ledger, r);
    if BrokerRuns.Commit(w.digest, ledger, r).Committed? {
      CommitLogs(w.digest, ledger, r);
    }
  }

  /** A step that moves one client and leaves store and log alone. */
  lemma ClientMoves(w: World, ledger: Dict, s: State, c: nat, next: Client)
    requires Invariant(w, ledger, s) && ClientOk(w, ledger, s.log, c, next)
    ensures Invariant(w, ledger, s.(clients := s.clients[c := next]))
  {
  }

  lemma RefusedIsOk(w: World, ledger: Dict, s: State, c: nat, k: Client)
    requires k.Loaded? && ClientOk(w, ledger, s.log, c, k)
    requires s.ledger == Serial(w, ledger, s.log, |s.log|) && s.ledger != k.base
    ensures k.used + 1 < RETRIES ==>
      ClientOk(w, ledger, s.log, c, Ready(k.start, k.form, k.used + 1, k.calls + 1, k.refused + 1))
    ensures k.used + 1 >= RETRIES ==> ClientOk(w, ledger, s.log, c, Failed(Exhausted, k.start))
  {
    DifferentMeansChanged(w, ledger, s.log, k.readAt, |s.log|);
    ChangesGrow(w, ledger, s.log, k.start, k.readAt, |s.log|);
  }

  lemma AnswerKeepsInvariant(
      w: World, ledger: Dict, s: State, c: nat, m: Mutation, o: Outcome, transactionId: string, lost: bool)
    requires Invariant(w, ledger, s) && c in s.clients && s.clients[c].Loaded?
    requires m == w.mutate(c, s.clients[c].calls, s.clients[c].base)
    requires o.Refused? ==> s.ledger != s.clients[c].base
    requires o.Committed? ==>
      && s.ledger == s.clients[c].base
      && BrokerRuns.Store(s.ledger, o, transactionId) ==
        Atomically(w, s.ledger, Wrote(c, s.clients[c].calls, transactionId, o.audit))
      && AllLogged(o.audit, m.logs, w.actor(c))
    ensures Invariant(w, ledger, Answer(s, c, s.clients[c], m, o, transactionId, lost))
  {
    var k := s.clients[c];
    assert ClientOk(w, ledger, s.log, c, k);
    var next := Answer(s, c, k, m, o, transactionId, lost).clients[c];
    match o
    case Refused =>
      RefusedIsOk(w, ledger, s, c, k);
      ClientMoves(w, ledger, s, c, next);
    case Rejected =>
      ClientMoves(w, ledger, s, c, next);
    case Committed(_, audit, _) =>
      CommitKeepsInvariant(w, ledger, s, c, Wrote(c, k.calls, transactionId, audit), next, m);
  }

  lemma AskKeepsInvariant(w: World, ledger: Dict, s: State, c: nat, now: int, transactionId: string, lost: bool)
    requires CollisionFree(w.digest)
    requires Invariant(w, ledger, s)
    requires c in s.clients && s.clients[c].Loaded?
    ensures Invariant(w, ledger, Request(w, s, c, now, transactionId, lost))
  {
    var k := s.clients[c];
    var m := w.mutate(c, k.calls, k.base);
    assert ClientOk(w, ledger, s.log, c, k);
    if !m.changed && m.logs == [] {
      ClientMoves(w, ledger, s, c, Returned(m.result, k.readAt, k.calls, false));
    } else if k.form.PatchForm? && (!m.ledger.Obj? || Diff(k.base, m.ledger.fields).Err?) {
      ClientMoves(w, ledger, s, c, Failed(Error, k.start));
    } else {
      var o := Verdict(w, s.ledger, c, k, m, now);
      CommittedIsAtomic(w, s, c, k, m, o, now, transactionId);
      VerdictLogs(w, s.ledger, c, k, m, now);
      AnswerKeepsInvariant(w, ledger, s, c, m, o, transactionId, lost);
    }
  }

  /** The committing client's own event is the only one in the log that is its own. */
  lemma CommitKeepsInvariant(w: World, ledger: Dict, s: State, c: nat, e: Event, next: Client, m: Mutation)
    requires Invariant(w, ledger, s)
    requires c in s.clients && s.clients[c].Loaded? && NeverWrote(s.log, c)
    requires ByClient(e, c) && m == w.mutate(c, e.call, s.ledger) && AllLogged(e.audit, m.logs, w.actor(c))
    requires next == Returned(m.result, |s.log|, e.call, true) || next == Failed(Lost, s.clients[c].start)
    ensures Invariant(w, ledger, State(Atomically(w, s.ledger, e), s.log + [e], s.clients[c := next]))
  {
    var longer := s.log + [e];
    SerialPrefix(w, ledger, s.log, e, |s.log|);
    forall d | d in s.clients && d != c
      ensures ClientOk(w, ledger, longer, d, s.clients[d])
    {
      ClientOkExtends(w, ledger, s.log, e, d, s.clients[d]);
    }
    assert ClientOk(w, ledger, s.log, c, s.clients[c]);
    assert WroteOnlyAt(longer, c, |s.log|);
    forall d | d !in s.clients
      ensures NeverWrote(longer, d)
    {
      assert NeverWrote(s.log, d);
    }
  }

  lemma OtherKeepsInvariant(w: World, ledger: Dict, s: State, e: Event)
    requires Invariant(w, ledger, s) && e.Other?
    ensures Invariant(w, ledger, State(e.ledger, s.log + [e], s.clients))
  {
    SerialPrefix(w, ledger, s.log, e, |s.log|);
    forall d | d in s.clients
      ensures ClientOk(w, ledger, s.log + [e], d, s.clients[d])
    {
      ClientOkExtends(w, ledger, s.log, e, d, s.clients[d]);
    }
    forall d | d !in s.clients
      ensures NeverWrote(s.log + [e], d)
    {
      assert NeverWrote(s.log, d);
    }
  }

  /** Loading, falling back to the other form and breaking off move one client only. */
  lemma LocalKeepsInvariant(w: World, ledger: Dict, s: State, step: Step)
    requires Invariant(w, ledger, s) && (step.Begin? || step.Load? || step.Unsupported? || step.Break?)
    ensures Invariant(w, ledger, Next(w, s, step))
  {
    var t := Next(w, s, step);
    if step.c in s.clients {
      var k := s.clients[step.c];
      assert ClientOk(w, ledger, s.log, step.c, k);
      if step.Unsupported? && k.Loaded? {
        ChangesGrow(w, ledger, s.log, k.start, k.readAt, |s.log|);
      }
    }
    if t != s {
      ClientMoves(w, ledger, s, step.c, t.clients[step.c]);
    }
  }

  lemma NextKeepsInvariant(w: World, ledger: Dict, s: State, step: Step)
    requires CollisionFree(w.digest)
    requires Invariant(w, ledger, s)
    ensures Invariant(w, ledger, Next(w, s, step))
  {
    match step
    case Ask(c, now, transactionId, lost) =>
      if c in s.clients && s.clients[c].Loaded? {
        AskKeepsInvariant(w, ledger, s, c, now, transactionId, lost);
      }
    case Environment(l) => OtherKeepsInvariant(w, ledger, s, Other(l));
    case _ => LocalKeepsInvariant(w, ledger, s, step);
  }

  lemma {:induction false} RunKeepsInvariant(w: World, ledger: Dict, steps: seq<Step>)
    requires CollisionFree(w.digest)
    ensures Invariant(w, ledger, Run(w, ledger, steps))
  {
    if |steps| > 0 {
      RunKeepsInvariant(w, ledger, steps[..|steps| - 1]);
      NextKeepsInvariant(w, ledger, Run(w, ledger, steps[..|steps| - 1]), steps[|steps| - 1]);
    }
  }

  // ---------------------------------------------------------------- what every run satisfies

  /**
   The stored ledger is the one the committed mutators give when they are run one at a time, in commit order, among
   the other writes; and what a client returned is what its own mutator answered in that serial run: at its own
   commit, which recorded the mutator's log items, or, if it wrote nothing, at the moment it read, and then its mutator
   neither changed nor logged anything.
   */
  lemma ProtocolRefinesAtomicStore(w: World, ledger: Dict, steps: seq<Step>)
    requires CollisionFree(w.digest)
    ensures var s := Run(w, ledger, steps);
      && s.ledger == Serial(w, ledger, s.log, |s.log|)
      && forall c | c in s.clients && s.clients[c].Returned? ::
           var k := s.clients[c];
           && k.at <= |s.log|
           && var m := w.mutate(c, k.call, Serial(w, ledger, s.log, k.at));
              && k.result == m.result
              && (k.wrote ==>
                    && k.at < |s.log| && ByClient(s.log[k.at], c) && s.log[k.at].call == k.call
                    && AllLogged(s.log[k.at].audit, m.logs, w.actor(c)))
              && (!k.wrote ==> !m.changed && m.logs == [])
  {
    RunKeepsInvariant(w, ledger, steps);
    var s := Run(w, ledger, steps);
    forall c | c in s.clients
      ensures ClientOk(w, ledger, s.log, c, s.clients[c])
    {
    }
  }

  /** No client transaction has two events in the log, whatever mix of retries, fallback and lost answers it met. */
  lemma CommitsAtMostOnce(w: World, ledger: Dict, steps: seq<Step>, i: nat, j: nat)
    requires CollisionFree(w.digest)
    requires i < j < |Run(w, ledger, steps).log|
    ensures var log := Run(w, ledger, steps).log;
      log[i].Wrote? && log[j].Wrote? ==> log[i].client != log[j].client
  {
    RunKeepsInvariant(w, ledger, steps);
    var s := Run(w, ledger, steps);
    if s.log[i].Wrote? {
      var c := s.log[i].client;
      assert ByClient(s.log[i], c);
      assert c in s.clients;
      assert ClientOk(w, ledger, s.log, c, s.clients[c]);
      assert ByClient(s.log[j], c) ==> i == j;
    }
  }

  /**
   A transaction that gave up after its retries wrote nothing, and at least eight writes of others changed the ledger
   since it began; one that failed otherwise wrote nothing unless the broker's answer was lost.
   */
  lemma ExhaustionNeedsEightOtherWrites(w: World, ledger: Dict, steps: seq<Step>, c: nat)
    requires CollisionFree(w.digest)
    requires c in Run(w, ledger, steps).clients && Run(w, ledger, steps).clients[c].Failed?
    ensures var s := Run(w, ledger, steps);
      var k := s.clients[c];
      && k.start <= |s.log|
      && (k.why.Exhausted? ==> NeverWrote(s.log, c) && Changes(w, ledger, s.log, k.start, |s.log|) >= 8)
      && (k.why.Error? ==> NeverWrote(s.log, c))
      && (k.why.Lost? <==> !NeverWrote(s.log, c))
  {
    RunKeepsInvariant(w, ledger, steps);
    var s := Run(w, ledger, steps);
    assert ClientOk(w, ledger, s.log, c, s.clients[c]);
  }

  /** A refused attempt means that some write changed the ledger after this client loaded it. */
  lemma RefusalNeedsAnotherWrite(
      w: World, ledger: Dict, steps: seq<Step>, c: nat, now: int, transactionId: string, lost: bool)
    requires CollisionFree(w.digest)
    requires var s := Run(w, ledger, steps);
      && c in s.clients && s.clients[c].Loaded?
      && var t := Next(w, s, Ask(c, now, transactionId, lost)).clients[c];
         (t.Ready? || (t.Failed? && t.why.Exhausted?))
    ensures var s := Run(w, ledger, steps);
      && s.clients[c].readAt <= |s.log|
      && Changes(w, ledger, s.log, s.clients[c].readAt, |s.log|) >= 1
  {
    RunKeepsInvariant(w, ledger, steps);
    var s := Run(w, ledger, steps);
    var k := s.clients[c];
    assert ClientOk(w, ledger, s.log, c, k);
    var m := w.mutate(c, k.calls, k.base);
    assert s.ledger != k.base;
    DifferentMeansChanged(w, ledger, s.log, k.readAt, |s.log|);
  }

  /** Asking for something lawful on a ledger that did not move since it was loaded commits and returns. */
  lemma WelcomeAskReturns(w: World, s: State, c: nat, now: int, transactionId: string)
    requires c in s.clients && s.clients[c].Loaded? && s.clients[c].base == s.ledger
    requires var k := s.clients[c];
      var m := w.mutate(c, k.calls, k.base);
      && Welcome(s.ledger, m.ledger, m.logs, m.changed, w.actor(c).uid, now, k.form.PatchForm?)
      && (m.changed || m.logs != [])
    ensures var k, t := s.clients[c], Next(w, s, Ask(c, now, transactionId, false));
      var m := w.mutate(c, k.calls, k.base);
      && t.clients[c] == Returned(m.result, |s.log|, k.calls, true)
      && t.ledger == if m.changed then m.ledger.fields["last_transaction_id" := Str(transactionId)] else s.ledger
  {
    var k := s.clients[c];
    var m := w.mutate(c, k.calls, k.base);
    WelcomeIff(w.digest, s.ledger, m.ledger, m.logs, m.changed, w.actor(c), now);
    if k.form.PatchForm? {
      WelcomeHasDiff(s.ledger, m.ledger, m.logs, m.changed, w.actor(c).uid, now);
      PatchMeansWholeLedger(w.digest, s.ledger, m.ledger.fields, w.digest(s.ledger),
                            Diff(s.ledger, m.ledger.fields).value, m.logs, m.changed, w.actor(c), now);
    }
    assert Verdict(w, s.ledger, c, k, m, now).Committed?;
    assert Verdict(w, s.ledger, c, k, m, now).ledger == m.ledger.fields;
  }
}
