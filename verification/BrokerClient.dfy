/**
 The client's retry loops, run against a store that other writers reach between a load and the commit that follows it.
 */
module BrokerClient {
  import opened Basics
  import opened Json
  import opened BrokerRules
  import opened BrokerLaw
  import BrokerRuns
  import opened BrokerProtocol

  /**
   What one attempt meets: the ledgers others store after the load, when the request lands, and how it is answered.
   */
  datatype Delivery = Answered | AnswerLost | NotSupported | NotDelivered
  datatype Conditions = Conditions(others: seq<Dict>, now: int, transactionId: string, delivery: Delivery)

  datatype Reply =
    | Done(result: Value)
    | Again
    | GaveUp
    | FallBack
    | Broken(committed: bool)

  /** How many neighbours among the ledgers held from position `i` on differ. */
  ghost function Moves(held: seq<Dict>, i: nat): nat
    decreases |held| - i
  {
    if i + 1 >= |held| then 0
    else (if held[i] != held[i + 1] then 1 else 0) + Moves(held, i + 1)
  }

  lemma {:induction false} MovesAppend(held: seq<Dict>, more: seq<Dict>, i: nat)
    requires i < |held|
    ensures Moves(held + more, i) == Moves(held, i) + Moves(held + more, |held| - 1)
    decreases |held| - i
  {
    if i + 1 < |held| { MovesAppend(held, more, i + 1); }
  }

  lemma {:induction false} EndsDiffer(held: seq<Dict>, i: nat)
    requires i < |held| && held[i] != held[|held| - 1]
    ensures Moves(held, i) >= 1
    decreases |held| - i
  {
    if held[i] == held[i + 1] { EndsDiffer(held, i + 1); }
  }

  function RequestFor(
      w: World, client: nat, form: Form, base: Dict, m: Mutation, now: int, transactionId: string): BrokerRuns.Request
    requires form.PatchForm? ==> m.ledger.Obj? && Diff(base, m.ledger.fields).Ok?
  {
    var proposal := if form.PatchForm? then BrokerRuns.Patch(Diff(base, m.ledger.fields).value)
                    else BrokerRuns.Whole(m.ledger);
    BrokerRuns.Request(proposal, w.digest(base), m.logs, m.changed, w.actor(client), now, transactionId)
  }

  /**
   Nothing stands in the way of an attempt on `ledger`: nobody else writes, the answer arrives, and what the mutator
   makes of it is lawful and within the limits.
   */
  ghost predicate Smooth(w: World, client: nat, form: Form, call: nat, ledger: Dict, sky: Conditions) {
    var m := w.mutate(client, call, ledger);
    || (!m.changed && m.logs == [])
    || (&& sky.others == [] && sky.delivery.Answered?
        && Welcome(ledger, m.ledger, m.logs, m.changed, w.actor(client).uid, sky.now, form.PatchForm?))
  }

  /** The mutator has something to send, nobody else writes, and the broker does not know patches. */
  ghost predicate OldBroker(w: World, client: nat, call: nat, ledger: Dict, sky: Conditions) {
    var m := w.mutate(client, call, ledger);
    && (m.changed || m.logs != []) && sky.others == [] && sky.delivery.NotSupported?
    && m.ledger.Obj? && Diff(ledger, m.ledger.fields).Ok?
  }

  /**
   A request is refused only if the ledger is no longer the one loaded, and a commit is the mutator run on the store.
   */
  lemma SentIsAtomic(
      w: World, client: nat, form: Form, call: nat, base: Dict, m: Mutation, ledger: Dict, r: BrokerRuns.Request)
    requires CollisionFree(w.digest) && m == w.mutate(client, call, base)
    requires form.PatchForm? ==> m.ledger.Obj? && Diff(base, m.ledger.fields).Ok?
    requires r == RequestFor(w, client, form, base, m, r.now, r.transactionId)
    ensures BrokerRuns.Commit(w.digest, ledger, r).Refused? ==> ledger != base
    ensures BrokerRuns.Commit(w.digest, ledger, r).Committed? ==>
      && ledger == base
      && BrokerRuns.Execute(w.digest, ledger, r) == Atomically(w, ledger, Wrote(client, call, r.transactionId, []))
      && AllLogged(BrokerRuns.Commit(w.digest, ledger, r).audit, m.logs, w.actor(client))
    ensures (&& ledger == base
             && Welcome(ledger, m.ledger, m.logs, m.changed, w.actor(client).uid, r.now, form.PatchForm?)) ==>
      BrokerRuns.Commit(w.digest, ledger, r).Committed?
  {
    CommittedIsAtomic(w, State(ledger, [], map[]), client, Loaded(0, form, 0, call, 0, base, 0), m,
                      BrokerRuns.Commit(w.digest, ledger, r), r.now, r.transactionId);
    WelcomeIff(w.digest, ledger, m.ledger, m.logs, m.changed, w.actor(client), r.now);
    if BrokerRuns.Commit(w.digest, ledger, r).Committed? { CommitLogs(w.digest, ledger, r); }
  }

  /**
   The broker's store and the audit log it keeps.  `held` lists every ledger it has held, and `own` counts the commits
   of the client at hand.
   */
  class LedgerService {
    var ledger: Dict
    var audit: seq<AuditEvent>
    ghost var held: seq<Dict>
    ghost var own: nat

    ghost predicate Valid()
      reads this
    {
      |held| > 0 && held[|held| - 1] == ledger
    }

    constructor (initial: Dict)
      ensures Valid() && ledger == initial && held == [initial] && own == 0 && audit == []
    {
      ledger, audit, held, own := initial, [], [initial], 0;
    }

    /** Other writers store one ledger after the other. */
    method Others(written: seq<Dict>)
      requires Valid()
      modifies this
      ensures Valid() && own == old(own) && held == old(held) + written && audit == old(audit)
    {
      for i := 0 to |written|
        invariant Valid() && own == old(own) && held == old(held) + written[..i] && audit == old(audit)
      {
        ledger := written[i];
        held := held + [written[i]];
        assert written[..i + 1] == written[..i] + [written[i]];
      }
      assert written[..|written|] == written;
    }

    /** The broker handles one commit request as a single transaction of its store. */
    method Commit(request: BrokerRuns.Request, digest: Dict -> string) returns (o: Outcome)
      requires Valid()
      modifies this
      ensures Valid()
      ensures o == BrokerRuns.Commit(digest, old(ledger), request)
      ensures ledger == BrokerRuns.Execute(digest, old(ledger), request)
      ensures own == if o.Committed? then old(own) + 1 else old(own)
      ensures held == if o.Committed? then old(held) + [ledger] else old(held)
      ensures audit == if o.Committed? then old(audit) + o.audit else old(audit)
    {
      o := BrokerRuns.Commit(digest, ledger, request);
      if o.Committed? {
        ledger := BrokerRuns.Store(ledger, o, request.transactionId);
        own := own + 1;
        held := held + [ledger];
        audit := audit + o.audit;
      }
    }

    /**
     What a transaction's end promises about the store: at most one commit, to which the result belongs and which
     recorded the mutator's log items last; and a result without a commit is that of a mutator that neither changed nor
     logged anything.
     */
    ghost predicate Ends(w: World, client: nat, call: nat, r: Reply)
      reads this
    {
      && Valid() && own <= 1
      && match r
         case Done(result) =>
           if own == 0 then
             var m := w.mutate(client, call, ledger);
             result == m.result && !m.changed && m.logs == []
           else
             && |held| >= 2 && OwnCommit(w, client, call, result, held[|held| - 2], ledger)
             && EndsWith(audit, w.mutate(client, call, held[|held| - 2]).logs, w.actor(client))
         case Broken(committed) => own == if committed then 1 else 0
         case _ => own == 0
    }

    /** One request as the client sees it. */
    method Ask(
        w: World, client: nat, form: Form, ghost call: nat, base: Dict, m: Mutation, now: int, transactionId: string)
      returns (o: Outcome)
      requires Valid() && CollisionFree(w.digest) && m == w.mutate(client, call, base)
      requires form.PatchForm? ==> m.ledger.Obj? && Diff(base, m.ledger.fields).Ok?
      modifies this
      ensures Valid()
      ensures !o.Committed? ==> ledger == old(ledger) && held == old(held) && own == old(own) && audit == old(audit)
      ensures o.Refused? ==> ledger != base
      ensures (&& old(ledger) == base
               && Welcome(base, m.ledger, m.logs, m.changed, w.actor(client).uid, now, form.PatchForm?)) ==>
        o.Committed?
      ensures o.Committed? ==>
        && old(ledger) == base && own == old(own) + 1 && held == old(held) + [ledger]
        && ledger == Atomically(w, base, Wrote(client, call, transactionId, []))
        && audit == old(audit) + o.audit && AllLogged(o.audit, m.logs, w.actor(client))
    {
      var request := RequestFor(w, client, form, base, m, now, transactionId);
      SentIsAtomic(w, client, form, call, base, m, ledger, request);
      o := Commit(request, w.digest);
    }

    /** Send one request, after others had their turn. */
    method Send(w: World, client: nat, form: Form, call: nat, base: Dict, m: Mutation, sky: Conditions)
      returns (r: Reply)
      requires Valid() && own == 0 && CollisionFree(w.digest)
      requires base == ledger && m == w.mutate(client, call, base)
      requires form.PatchForm? ==> m.ledger.Obj? && Diff(base, m.ledger.fields).Ok?
      modifies this
      ensures old(held) <= held
      ensures r.Again? ==> Valid() && own == 0 && Moves(held, |old(held)| - 1) >= 1
      ensures r.Done? ==> own == 1
      ensures !r.Again? ==> !r.GaveUp? && !r.FallBack? && Ends(w, client, call, r)
      ensures (&& sky.others == [] && sky.delivery.Answered?
               && Welcome(base, m.ledger, m.logs, m.changed, w.actor(client).uid, sky.now, form.PatchForm?)) ==>
        r == Done(m.result)
    {
      Others(sky.others);
      if sky.delivery.NotDelivered? {
        return Broken(false);
      }
      ghost var before, trail := ledger, audit;
      var o := Ask(w, client, form, call, base, m, sky.now, sky.transactionId);
      if o.Refused? {
        EndsDiffer(held, |old(held)| - 1);
        return Again;
      }
      if o.Rejected? {
        return Broken(false);
      }
      assert held[|held| - 2] == before == base;
      assert OwnCommit(w, client, call, m.result, before, ledger);
      EndsWithAdded(trail, o.audit, m.logs, w.actor(client));
      return if sky.delivery.AnswerLost? then Broken(true) else Done(m.result);
    }

    /** One round of the loop: load, run the mutator, and send what it proposes, if anything. */
    method Attempt(w: World, client: nat, form: Form, call: nat, sky: Conditions) returns (r: Reply)
      requires Valid() && own == 0 && CollisionFree(w.digest)
      modifies this
      ensures old(held) <= held
      ensures r.Again? ==> Valid() && own == 0 && Moves(held, |old(held)| - 1) >= 1
      ensures !r.Again? ==> !r.GaveUp? && Ends(w, client, call, r)
      ensures r.FallBack? ==> form.PatchForm?
      ensures Smooth(w, client, form, call, old(ledger), sky) ==> r == Done(w.mutate(client, call, old(ledger)).result)
      ensures form.PatchForm? && OldBroker(w, client, call, old(ledger), sky) ==> r.FallBack? && ledger == old(ledger)
    {
      var base := ledger;
      var m := w.mutate(client, call, base);
      if !m.changed && m.logs == [] {
        return Done(m.result);
      }
      WelcomeOrNot(w, client, form, base, m, sky);
      if form.PatchForm? && (!m.ledger.Obj? || Diff(base, m.ledger.fields).Err?) {
        return Broken(false);
      }
      if sky.delivery.NotSupported? {
        Others(sky.others);
        return if form.PatchForm? then FallBack else Broken(false);
      }
      r := Send(w, client, form, call, base, m, sky);
    }

    /**
     Up to eight attempts in one form.  A client that gives up saw its ledger move under it in every attempt and
     committed nothing.
     */
    method Attempts(w: World, client: nat, form: Form, first: nat, skies: nat -> Conditions)
      returns (r: Reply, call: nat)
      requires Valid() && own == 0 && CollisionFree(w.digest)
      modifies this
      ensures old(held) <= held
      ensures !r.Again? && Ends(w, client, call, r)
      ensures r.FallBack? ==> form.PatchForm?
      ensures r.GaveUp? ==> Moves(held, |old(held)| - 1) >= RETRIES
      ensures Smooth(w, client, form, first, old(ledger), skies(first)) ==>
        call == first && r == Done(w.mutate(client, first, old(ledger)).result)
      ensures form.PatchForm? && OldBroker(w, client, first, old(ledger), skies(first)) ==>
        r.FallBack? && call == first + 1 && ledger == old(ledger)
    {
      ghost var smooth := Smooth(w, client, form, first, ledger, skies(first));
      ghost var dated := form.PatchForm? && OldBroker(w, client, first, ledger, skies(first));
      call := first;
      for attempt := 0 to RETRIES
        invariant Valid() && own == 0
        invariant old(held) <= held
        invariant Moves(held, |old(held)| - 1) >= attempt
        invariant attempt == 0 ==> call == first && ledger == old(ledger)
        invariant attempt > 0 ==> !smooth && !dated
      {
        ghost var loaded := held;
        r := Attempt(w, client, form, call, skies(call));
        if !r.Again? {
          return r, if r.FallBack? then call + 1 else call;
        }
        assert held == loaded + held[|loaded|..];
        MovesAppend(loaded, held[|loaded|..], |old(held)| - 1);
        call := call + 1;
      }
      return GaveUp, call;
    }

    /**
     A whole transaction: attempts with patches, and, if the broker does not know patches, attempts with whole ledgers.
     It commits at most once, and giving up means that others changed the ledger at least eight times meanwhile;
     an attempt with nothing in its way succeeds at once, and so does one that first learns that the broker is old.
     */
    method Transaction(w: World, client: nat, skies: nat -> Conditions) returns (r: Reply, call: nat)
      requires Valid() && own == 0 && CollisionFree(w.digest)
      modifies this
      ensures old(held) <= held
      ensures !r.Again? && !r.FallBack? && Ends(w, client, call, r)
      ensures r.GaveUp? ==> own == 0 && Moves(held, |old(held)| - 1) >= RETRIES
      ensures Smooth(w, client, PatchForm, 0, old(ledger), skies(0)) ==>
        r == Done(w.mutate(client, 0, old(ledger)).result)
      ensures (&& OldBroker(w, client, 0, old(ledger), skies(0))
               && Smooth(w, client, LegacyForm, 1, old(ledger), skies(1))) ==>
        r == Done(w.mutate(client, 1, old(ledger)).result)
    {
      r, call := Attempts(w, client, PatchForm, 0, skies);
      if r.FallBack? {
        ghost var middle := held;
        r, call := Attempts(w, client, LegacyForm, call, skies);
        assert held == middle + held[|middle|..];
        MovesAppend(middle, held[|middle|..], |old(held)| - 1);
      }
    }
  }

  /** The result and the new ledger are what running the mutator atomically on the replaced ledger gives. */
  ghost predicate OwnCommit(w: World, client: nat, call: nat, result: Value, replaced: Dict, ledger: Dict) {
    && result == w.mutate(client, call, replaced).result
    && exists tx :: ledger == Atomically(w, replaced, Wrote(client, call, tx, []))
  }

  /** The last events are those of the log items. */
  ghost predicate EndsWith(audit: seq<AuditEvent>, logs: seq<Value>, actor: Actor) {
    |audit| >= |logs| && AllLogged(audit[|audit| - |logs|..], logs, actor)
  }

  lemma EndsWithAdded(trail: seq<AuditEvent>, added: seq<AuditEvent>, logs: seq<Value>, actor: Actor)
    requires AllLogged(added, logs, actor)
    ensures EndsWith(trail + added, logs, actor)
  {
    assert (trail + added)[|trail|..] == added;
  }

  lemma WelcomeOrNot(w: World, client: nat, form: Form, base: Dict, m: Mutation, sky: Conditions)
    ensures (&& form.PatchForm?
             && Welcome(base, m.ledger, m.logs, m.changed, w.actor(client).uid, sky.now, form.PatchForm?)) ==>
      m.ledger.Obj? && Diff(base, m.ledger.fields).Ok?
  {
    if Welcome(base, m.ledger, m.logs, m.changed, w.actor(client).uid, sky.now, true) {
      WelcomeHasDiff(base, m.ledger, m.logs, m.changed, w.actor(client).uid, sky.now);
    }
  }
}
