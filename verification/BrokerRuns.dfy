/**
 Whole runs of job commits by any mix of actors: what stays fixed in every reservation,
 who can have changed it, and how its status can move.
 */
module BrokerRuns {
  import opened Json
  import opened BrokerRules

  datatype Proposal = Whole(ledger: Value) | Patch(changes: seq<Change>)

  /** One request as the broker receives it, with the moment it is handled and the id the store would stamp. */
  datatype Request = Request(
    proposal: Proposal, base: string, logs: seq<Value>, changed: bool,
    actor: Actor, now: int, transactionId: string)

  function Commit(digest: Dict -> string, current: Dict, r: Request): Outcome {
    match r.proposal
    case Whole(l) => CommitLedger(digest, current, r.base, l, r.logs, r.changed, r.actor, r.now)
    case Patch(c) => CommitPatch(digest, current, r.base, c, r.logs, r.changed, r.actor, r.now)
  }

  /** The ledger the store keeps: a changed one is stamped with its transaction id, any other is left alone. */
  function Store(current: Dict, o: Outcome, transactionId: string): Dict {
    if o.Committed? && o.changed then o.ledger[LAST_TRANSACTION := Str(transactionId)] else current
  }

  function Execute(digest: Dict -> string, current: Dict, r: Request): Dict {
    Store(current, Commit(digest, current, r), r.transactionId)
  }

  function RunFrom(digest: Dict -> string, current: Dict, requests: seq<Request>): Dict {
    if |requests| == 0 then current
    else
      var n := |requests| - 1;
      Execute(digest, RunFrom(digest, current, requests[..n]), requests[n])
  }

  // ---------------------------------------------------------------- one commit

  /** How a reservation may differ from what it was: a reflexive and transitive relation. */
  ghost predicate Evolves(before: Value, after: Value) {
    before == after ||
    (&& before.Obj? && after.Obj?
     && AgreeOutside(before.fields, after.fields, RESERVATION_MUTABLE)
     && OwnerOf(before.fields) == OwnerOf(after.fields)
     && JobChangeOk(Get(before.fields, "job"), Get(after.fields, "job"))
     && (Get(after.fields, "status") == Get(before.fields, "status")
         || (Get(before.fields, "status") == ACTIVE && Get(after.fields, "status") == EXPIRED)))
  }

  /** By `moment` the reservation has ended, as the broker reads its end. */
  ghost predicate EndedBy(r: Value, moment: int) {
    r.Obj? && Get(r.fields, "end_at").Instant? && Get(r.fields, "end_at").at <= moment
  }

  ghost predicate StatusMoved(before: Value, after: Value) {
    before.Obj? && after.Obj? && Get(before.fields, "status") != Get(after.fields, "status")
  }

  ghost predicate OwnedBy(r: Value, uid: nat) {
    r.Obj? && OwnerOf(r.fields) == Ok(uid)
  }

  lemma EvolvesTransitive(a: Value, b: Value, c: Value)
    requires Evolves(a, b) && Evolves(b, c)
    ensures Evolves(a, c)
  {
    if a != b && b != c {
      AgreeOutsideTransitive(a.fields, b.fields, c.fields, RESERVATION_MUTABLE);
      var ja, jb, jc := Get(a.fields, "job"), Get(b.fields, "job"), Get(c.fields, "job");
      if ja.Obj? && jb.Obj? && jc.Obj? {
        AgreeOutsideTransitive(ja.fields, jb.fields, jc.fields, JOB_MUTABLE);
      }
    }
  }

  /** An evolved reservation keeps its end, so an expiry that was due stays due. */
  lemma EvolvesKeepsEnd(a: Value, b: Value, moment: int)
    requires Evolves(a, b)
    ensures EndedBy(a, moment) <==> EndedBy(b, moment)
  {
    if a != b {
      AgreeOutsideAt(a.fields, b.fields, RESERVATION_MUTABLE, "end_at");
    }
  }

  /** The owner of a reservation the actor may change is an integer, so the look-up pins it exactly. */
  lemma AcceptedChangeEvolves(before: Value, after: Value, uid: nat, now: int)
    requires ReservationChangeOk(before, after, uid, now)
    ensures Evolves(before, after)
    ensures before != after ==> OwnedBy(before, uid)
    ensures StatusMoved(before, after) ==> EndedBy(before, now)
  {
    if before != after {
      AgreeOutsideAt(before.fields, after.fields, RESERVATION_MUTABLE, "uid");
    }
  }

  /** What one request does, whatever it holds, to the reservation at each position. */
  lemma ExecuteEvolves(digest: Dict -> string, current: Dict, r: Request)
    ensures var next := Execute(digest, current, r);
      && |Reservations(next)| == |Reservations(current)|
      && forall i | 0 <= i < |Reservations(current)| ::
           var before, after := Reservations(current)[i], Reservations(next)[i];
           && Evolves(before, after)
           && (before != after ==> OwnedBy(before, r.actor.uid))
           && (StatusMoved(before, after) ==> EndedBy(before, r.now))
  {
    var o := Commit(digest, current, r);
    if o.Committed? {
      assert FrameOk(current, o.ledger);
      var before, after := Reservations(current), Reservations(o.ledger);
      forall i | 0 <= i < |before|
        ensures Evolves(before[i], after[i])
        ensures before[i] != after[i] ==> OwnedBy(before[i], r.actor.uid)
        ensures StatusMoved(before[i], after[i]) ==> EndedBy(before[i], r.now)
      {
        assert ReservationChangeOk(before[i], after[i], r.actor.uid, r.now);
        AcceptedChangeEvolves(before[i], after[i], r.actor.uid, r.now);
      }
      assert Reservations(Store(current, o, r.transactionId)) ==
             if o.changed then after else before;
    }
  }

  // ---------------------------------------------------------------- runs

  /** The reservation at position `i` once the first `k` requests are handled. */
  ghost function At(digest: Dict -> string, start: Dict, requests: seq<Request>, k: nat, i: nat): Value
    requires k <= |requests|
  {
    var all := Reservations(RunFrom(digest, start, requests[..k]));
    if i < |all| then all[i] else Null
  }

  /** Request `k` is of the reservation's owner and changes it. */
  ghost predicate OwnerChanges(digest: Dict -> string, start: Dict, requests: seq<Request>, k: nat, i: nat)
    requires k < |requests|
  {
    && At(digest, start, requests, k, i) != At(digest, start, requests, k + 1, i)
    && OwnedBy(At(digest, start, requests, 0, i), requests[k].actor.uid)
  }

  lemma AtPrefix(digest: Dict -> string, start: Dict, requests: seq<Request>, n: nat, k: nat, i: nat)
    requires k <= n <= |requests|
    ensures At(digest, start, requests[..n], k, i) == At(digest, start, requests, k, i)
  {
    assert requests[..n][..k] == requests[..k];
  }

  lemma AtEnds(digest: Dict -> string, start: Dict, requests: seq<Request>, i: nat)
    requires i < |Reservations(start)|
    ensures |Reservations(RunFrom(digest, start, requests))| == |Reservations(start)| ==>
      At(digest, start, requests, |requests|, i) == Reservations(RunFrom(digest, start, requests))[i]
    ensures At(digest, start, requests, 0, i) == Reservations(start)[i]
  {
    assert requests[..|requests|] == requests;
  }

  /**
   Over every run of requests the number and order of the reservations are fixed, each one evolves only as far as
   `Evolves` allows, and one that differs at the end was changed by a request of its own owner.
   */
  lemma {:induction false} RunEvolves(digest: Dict -> string, start: Dict, requests: seq<Request>, i: nat)
    requires i < |Reservations(start)|
    ensures |Reservations(RunFrom(digest, start, requests))| == |Reservations(start)|
    ensures Evolves(Reservations(start)[i], Reservations(RunFrom(digest, start, requests))[i])
    ensures Reservations(start)[i] != Reservations(RunFrom(digest, start, requests))[i] ==>
      exists k | 0 <= k < |requests| :: OwnerChanges(digest, start, requests, k, i)
  {
    if |requests| > 0 {
      var n := |requests| - 1;
      RunEvolves(digest, start, requests[..n], i);
      var mid := RunFrom(digest, start, requests[..n]);
      ExecuteEvolves(digest, mid, requests[n]);
      var a, b, c := Reservations(start)[i], Reservations(mid)[i], Reservations(Execute(digest, mid, requests[n]))[i];
      assert Evolves(b, c) && Evolves(a, b);
      EvolvesTransitive(a, b, c);
      AtEnds(digest, start, requests, i);
      if a != b {
        var k :| 0 <= k < n && OwnerChanges(digest, start, requests[..n], k, i);
        OwnerChangesLater(digest, start, requests, n, k, i);
      } else if b != c {
        assert OwnerChanges(digest, start, requests, n, i);
      }
    }
  }

  lemma OwnerChangesLater(digest: Dict -> string, start: Dict, requests: seq<Request>, n: nat, k: nat, i: nat)
    requires k < n <= |requests| && OwnerChanges(digest, start, requests[..n], k, i)
    ensures OwnerChanges(digest, start, requests, k, i)
  {
    AtPrefix(digest, start, requests, n, 0, i);
    AtPrefix(digest, start, requests, n, k, i);
    AtPrefix(digest, start, requests, n, k + 1, i);
  }

  /** Every binding field of a job differs from every mutable one: their first letters or lengths tell them apart. */
  lemma BindingIsImmutable(k: string)
    requires k in JOB_BINDING
    ensures k !in JOB_MUTABLE
  {
    assert k[0] == 's' || k[0] == 'd';
    assert |"started_at"| == 10 && |"status"| == 6;
    assert "spec_id"[1] == 'p' && "digest"[0] == 'd' && "summary"[1] == 'u' && "submitted_at"[1] == 'u';
  }

  /** Id, owner and every field but status, update time and job read as before; so do the job's binding fields. */
  ghost predicate SameIdentity(before: Dict, after: Dict) {
    && Get(after, "id") == Get(before, "id")
    && OwnerOf(after) == OwnerOf(before)
    && (forall k | k !in RESERVATION_MUTABLE :: Get(after, k) == Get(before, k))
    && (Get(after, "job").Obj? <==> Get(before, "job").Obj?)
    && (Get(before, "job").Obj? ==> SameBinding(Get(before, "job").fields, Get(after, "job").fields))
  }

  ghost predicate SameBinding(before: Dict, after: Dict) {
    forall k | k in JOB_BINDING :: Get(after, k) == Get(before, k)
  }

  lemma JobKeepsBinding(before: Dict, after: Dict)
    requires AgreeOutside(before, after, JOB_MUTABLE)
    ensures SameBinding(before, after)
  {
    forall k | k in JOB_BINDING
      ensures Get(after, k) == Get(before, k)
    {
      BindingIsImmutable(k);
      AgreeOutsideAt(before, after, JOB_MUTABLE, k);
    }
  }

  lemma EvolvesKeepsIdentity(before: Value, after: Value)
    requires before.Obj? && Evolves(before, after)
    ensures after.Obj? && SameIdentity(before.fields, after.fields)
  {
    if before != after {
      forall k | k !in RESERVATION_MUTABLE
        ensures Get(after.fields, k) == Get(before.fields, k)
      {
        AgreeOutsideAt(before.fields, after.fields, RESERVATION_MUTABLE, k);
      }
      var was, becomes := Get(before.fields, "job"), Get(after.fields, "job");
      if was.Obj? && becomes.Obj? {
        JobKeepsBinding(was.fields, becomes.fields);
      }
    }
  }

  /** Over every run the identity of every reservation is fixed. */
  lemma RunKeepsIdentity(digest: Dict -> string, start: Dict, requests: seq<Request>, i: nat)
    requires i < |Reservations(start)|
    requires Reservations(start)[i].Obj?
    ensures |Reservations(RunFrom(digest, start, requests))| == |Reservations(start)|
    ensures Reservations(RunFrom(digest, start, requests))[i].Obj?
    ensures SameIdentity(Reservations(start)[i].fields, Reservations(RunFrom(digest, start, requests))[i].fields)
  {
    RunEvolves(digest, start, requests, i);
    EvolvesKeepsIdentity(Reservations(start)[i], Reservations(RunFrom(digest, start, requests))[i]);
  }

  /**
   A status moves only from active to expired, and the request that moves it is one of the reservation's own owner and
   finds, at its own moment, that the reservation has ended.
   */
  lemma {:induction false} RunExpiresByOwner(digest: Dict -> string, start: Dict, requests: seq<Request>, i: nat)
    requires i < |Reservations(start)|
    ensures |Reservations(RunFrom(digest, start, requests))| == |Reservations(start)|
    ensures StatusMoved(Reservations(start)[i], Reservations(RunFrom(digest, start, requests))[i]) ==>
      && Get(Reservations(start)[i].fields, "status") == ACTIVE
      && Get(Reservations(RunFrom(digest, start, requests))[i].fields, "status") == EXPIRED
      && exists k | 0 <= k < |requests| :: OwnerExpires(digest, start, requests, k, i)
  {
    RunEvolves(digest, start, requests, i);
    if |requests| > 0 {
      var n := |requests| - 1;
      var earlier := requests[..n];
      RunExpiresByOwner(digest, start, earlier, i);
      RunEvolves(digest, start, earlier, i);
      var mid := RunFrom(digest, start, earlier);
      ExecuteEvolves(digest, mid, requests[n]);
      var a, b, c := Reservations(start)[i], Reservations(mid)[i], Reservations(Execute(digest, mid, requests[n]))[i];
      EvolvesKeepsEnd(a, b, requests[n].now);
      AtEnds(digest, start, requests, i);
      if StatusMoved(a, b) {
        var k :| 0 <= k < n && OwnerExpires(digest, start, earlier, k, i);
        OwnerExpiresLater(digest, start, requests, n, k, i);
      } else if StatusMoved(a, c) {
        assert StatusMoved(b, c) && Evolves(a, b);
        assert OwnerExpires(digest, start, requests, n, i);
      }
    }
  }

  /** Request `k` is the owner's, moves the status, and the reservation has ended when it is handled. */
  ghost predicate OwnerExpires(digest: Dict -> string, start: Dict, requests: seq<Request>, k: nat, i: nat)
    requires k < |requests|
  {
    && StatusMoved(At(digest, start, requests, k, i), At(digest, start, requests, k + 1, i))
    && OwnedBy(At(digest, start, requests, 0, i), requests[k].actor.uid)
    && EndedBy(At(digest, start, requests, 0, i), requests[k].now)
  }

  lemma OwnerExpiresLater(digest: Dict -> string, start: Dict, requests: seq<Request>, n: nat, k: nat, i: nat)
    requires k < n <= |requests| && OwnerExpires(digest, start, requests[..n], k, i)
    ensures OwnerExpires(digest, start, requests, k, i)
  {
    AtPrefix(digest, start, requests, n, 0, i);
    AtPrefix(digest, start, requests, n, k, i);
    AtPrefix(digest, start, requests, n, k + 1, i);
  }

  ghost predicate Monotone(requests: seq<Request>) {
    forall j, k | 0 <= j <= k < |requests| :: requests[j].now <= requests[k].now
  }

  /** Under a clock that never goes back, a reservation that expired in the run had ended by the last request. */
  lemma RunExpiresOnlyAfterEnd(digest: Dict -> string, start: Dict, requests: seq<Request>, i: nat)
    requires i < |Reservations(start)|
    requires Monotone(requests)
    ensures |Reservations(RunFrom(digest, start, requests))| == |Reservations(start)|
    ensures StatusMoved(Reservations(start)[i], Reservations(RunFrom(digest, start, requests))[i]) ==>
      && Get(Reservations(start)[i].fields, "status") == ACTIVE
      && Get(Reservations(RunFrom(digest, start, requests))[i].fields, "status") == EXPIRED
      && |requests| > 0
      && EndedBy(Reservations(start)[i], requests[|requests| - 1].now)
  {
    RunExpiresByOwner(digest, start, requests, i);
    if StatusMoved(Reservations(start)[i], Reservations(RunFrom(digest, start, requests))[i]) {
      var k :| 0 <= k < |requests| && OwnerExpires(digest, start, requests, k, i);
      AtEnds(digest, start, requests, i);
      assert requests[k].now <= requests[|requests| - 1].now;
    }
  }

  // ---------------------------------------------------------------- audit events

  /**
   The event is the actor's own, about its own reservation, and repeats that reservation's schedule as the ledger
   holds it before the commit; an explicit null for the GPUs and a missing key count as the same.
   */
  ghost predicate Attests(e: AuditEvent, actor: Actor, now: int, before: Value) {
    && OwnedBy(before, actor.uid) && e.uid == actor.uid && e.username == actor.username && e.ts == now
    && e.reservationId == Text(Get(before.fields, "id"))
    && e.startAt == Get(before.fields, "start_at") && e.endAt == Get(before.fields, "end_at")
    && e.mode == Get(before.fields, "mode") && e.opId == Get(before.fields, "op_id")
    && (Get(before.fields, "gpus") != Null ==> e.gpus == Get(before.fields, "gpus"))
    && "job-" <= e.action && |e.action| <= 64 && |e.message| <= 1000
  }

  lemma {:induction false} OwnedComesFrom(before: seq<Value>, after: seq<Value>, uid: nat, id: string)
    requires |before| == |after| && id in Owned(before, after, uid)
    ensures exists i | 0 <= i < |before| :: Backs(before[i], after[i], uid, id, Owned(before, after, uid)[id])
  {
    var n := |before| - 1;
    var rest := Owned(before[..n], after[..n], uid);
    if !Backs(before[n], after[n], uid, id, Owned(before, after, uid)[id]) {
      OwnedComesFrom(before[..n], after[..n], uid, id);
      var i :| 0 <= i < n && Backs(before[..n][i], after[..n][i], uid, id, rest[id]);
      assert Backs(before[i], after[i], uid, id, rest[id]);
    }
  }

  ghost predicate Backs(before: Value, after: Value, uid: nat, id: string, fields: Dict) {
    && OwnedBy(before, uid) && after == Obj(fields)
    && Text(Get(before.fields, "id")) == id
  }

  lemma {:induction false} SanitizedOneByOne(logs: seq<Value>, owned: map<string, Dict>, actor: Actor, now: int, k: nat)
    requires SanitizeAll(logs, owned, actor, now).Ok? && k < |logs|
    ensures |SanitizeAll(logs, owned, actor, now).value| == |logs|
    ensures Sanitize(logs[k], owned, actor, now) == Ok(SanitizeAll(logs, owned, actor, now).value[k])
  {
    var n := |logs| - 1;
    if k < n {
      SanitizedOneByOne(logs[..n], owned, actor, now, k);
    } else if n > 0 {
      SanitizedOneByOne(logs[..n], owned, actor, now, n - 1);
    }
  }

  /** The schedule fields of a reservation are none of the mutable ones. */
  lemma ScheduleIsImmutable(before: Dict, after: Dict)
    requires AgreeOutside(before, after, RESERVATION_MUTABLE)
    ensures Get(after, "start_at") == Get(before, "start_at") && Get(after, "end_at") == Get(before, "end_at")
    ensures Get(after, "mode") == Get(before, "mode") && Get(after, "op_id") == Get(before, "op_id")
    ensures Get(after, "gpus") == Get(before, "gpus")
  {
    AgreeOutsideAt(before, after, RESERVATION_MUTABLE, "start_at");
    AgreeOutsideAt(before, after, RESERVATION_MUTABLE, "end_at");
    AgreeOutsideAt(before, after, RESERVATION_MUTABLE, "mode");
    AgreeOutsideAt(before, after, RESERVATION_MUTABLE, "op_id");
    AgreeOutsideAt(before, after, RESERVATION_MUTABLE, "gpus");
  }

  lemma SanitizedAttests(raw: Value, owned: map<string, Dict>, actor: Actor, now: int, before: Value)
    requires Sanitize(raw, owned, actor, now).Ok?
    requires var id := Sanitize(raw, owned, actor, now).value.reservationId;
      && id in owned && Backs(before, Obj(owned[id]), actor.uid, id, owned[id])
      && AgreeOutside(before.fields, owned[id], RESERVATION_MUTABLE)
    ensures Attests(Sanitize(raw, owned, actor, now).value, actor, now, before)
  {
    ScheduleIsImmutable(before.fields, owned[Sanitize(raw, owned, actor, now).value.reservationId]);
  }

  /**
   A commit writes one audit event per log item, and each is about a reservation the actor owns, with its stored
   schedule.
   */
  lemma AuditIsTruthful(digest: Dict -> string, current: Dict, r: Request, k: nat)
    requires Commit(digest, current, r).Committed? && k < |r.logs|
    ensures |Commit(digest, current, r).audit| == |r.logs|
    ensures exists i | 0 <= i < |Reservations(current)| ::
      Attests(Commit(digest, current, r).audit[k], r.actor, r.now, Reservations(current)[i])
  {
    var o := Commit(digest, current, r);
    var before, after := Reservations(current), Reservations(o.ledger);
    var owned := Owned(before, after, r.actor.uid);
    assert FrameOk(current, o.ledger);
    assert SanitizeAll(r.logs, owned, r.actor, r.now) == Ok(o.audit);
    SanitizedOneByOne(r.logs, owned, r.actor, r.now, k);
    var id := o.audit[k].reservationId;
    OwnedComesFrom(before, after, r.actor.uid, id);
    var i :| 0 <= i < |before| && Backs(before[i], after[i], r.actor.uid, id, owned[id]);
    assert ReservationChangeOk(before[i], after[i], r.actor.uid, r.now);
    SanitizedAttests(r.logs[k], owned, r.actor, r.now, before[i]);
  }
}
