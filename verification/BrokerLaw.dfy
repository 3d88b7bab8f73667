/**
 What a client may do to the ledger, said without the broker's own checks: when a commit is accepted, what it leaves
 alone, and what it records (src/bk/broker.py).
 */
module BrokerLaw {
  import opened Json
  import opened BrokerRules
  import opened BrokerRuns

  // ---------------------------------------------------------------- lawful changes

  /** The reservation belongs to `uid`; one without the field belongs to nobody, which reads as -1. */
  ghost predicate BelongsTo(r: Dict, uid: int) {
    if "uid" !in r then uid == -1
    else r["uid"] == Num(uid) || (r["uid"] == Bool(true) && uid == 1) || (r["uid"] == Bool(false) && uid == 0)
  }

  /** The two documents read the same at every key but these. */
  ghost predicate ReadSame(a: Dict, b: Dict, except: set<string>) {
    forall k | k !in except :: Get(a, k) == Get(b, k)
  }

  /** What the owner may do: report on the job, and expire a reservation that has ended. */
  ghost predicate OwnerMay(before: Dict, after: Dict, now: int) {
    && ReadSame(before, after, {"status", "updated_at", "job"})
    && (|| Get(after, "status") == Get(before, "status")
        || (&& Get(before, "status") == Str("active") && Get(after, "status") == Str("expired")
            && Get(before, "end_at").Instant? && Get(before, "end_at").at <= now))
    && var was, becomes := Get(before, "job"), Get(after, "job");
       if was.Obj? && becomes.Obj? then ReadSame(was.fields, becomes.fields, JOB_MUTABLE) else was == becomes
  }

  ghost predicate MayBecome(before: Value, after: Value, uid: nat, now: int) {
    && before.Obj? && after.Obj? && Get(before.fields, "id") == Get(after.fields, "id")
    && (exists owner :: BelongsTo(before.fields, owner))
    && if BelongsTo(before.fields, uid) then OwnerMay(before.fields, after.fields, now) else after == before
  }

  /** Some reservation of the actor's carries this id. */
  ghost predicate Owns(reservations: seq<Value>, uid: nat, id: string) {
    exists i | 0 <= i < |reservations| ::
      reservations[i].Obj? && BelongsTo(reservations[i].fields, uid) && Text(Get(reservations[i].fields, "id")) == id
  }

  /** A log item names one of the actor's reservations and an action of the form job-... */
  ghost predicate LogLawful(raw: Value, reservations: seq<Value>, uid: nat) {
    && raw.Obj?
    && IsText(Get(raw.fields, "reservation_id"))
    && Owns(reservations, uid, Text(Get(raw.fields, "reservation_id")))
    && Get(raw.fields, "action").Str?
    && var action := Get(raw.fields, "action").s;
       && 4 <= |action| <= 64 && action[..4] == "job-"
       && forall i | 0 <= i < |action| :: 'a' <= action[i] <= 'z' || action[i] == '-'
  }

  /** Apart from the reservations the two ledgers are the same, and they have as many reservations. */
  ghost predicate SameFrame(current: Dict, proposed: Dict) {
    && proposed.Keys == current.Keys
    && (forall k | k in current && k != "reservations" :: proposed[k] == current[k])
    && "reservations" in current && current["reservations"].Arr? && proposed["reservations"].Arr?
    && |current["reservations"].items| == |proposed["reservations"].items|
  }

  ghost predicate Lawful(current: Dict, proposed: Dict, logs: seq<Value>, uid: nat, now: int) {
    && SameFrame(current, proposed)
    && var before, after := current["reservations"].items, proposed["reservations"].items;
       && (forall i | 0 <= i < |before| :: MayBecome(before[i], after[i], uid, now))
       && forall k | 0 <= k < |logs| :: LogLawful(logs[k], before, uid)
  }

  lemma FrameIff(current: Dict, proposed: Dict)
    ensures FrameOk(current, proposed) <==> SameFrame(current, proposed)
  {
    if FrameOk(current, proposed) {
      forall k | k in current && k != "reservations" ensures proposed[k] == current[k] {
        assert Get(proposed, k) == Get(current, k);
      }
    }
  }

  lemma AgreeIff(a: Dict, b: Dict, free: set<string>)
    ensures AgreeOutside(a, b, free) <==> ReadSame(a, b, free)
  {
    if AgreeOutside(a, b, free) {
      forall k | k !in free ensures Get(a, k) == Get(b, k) { AgreeOutsideAt(a, b, free, k); }
    }
  }

  lemma OwnerIff(r: Dict, uid: int)
    ensures OwnerOf(r) == Ok(uid) <==> BelongsTo(r, uid)
    ensures OwnerOf(r).Ok? <==> exists owner :: BelongsTo(r, owner)
  {
    if OwnerOf(r).Ok? { assert BelongsTo(r, OwnerOf(r).value); }
  }

  lemma OwnedChangeIff(before: Dict, after: Dict, now: int)
    ensures OwnedChangeOk(before, after, now) <==> OwnerMay(before, after, now)
  {
    AgreeIff(before, after, RESERVATION_MUTABLE);
    var was, becomes := Get(before, "job"), Get(after, "job");
    if was.Obj? && becomes.Obj? { AgreeIff(was.fields, becomes.fields, JOB_MUTABLE); }
  }

  lemma ChangeIff(before: Value, after: Value, uid: nat, now: int)
    ensures ReservationChangeOk(before, after, uid, now) <==> MayBecome(before, after, uid, now)
  {
    if before.Obj? && after.Obj? {
      OwnerIff(before.fields, uid);
      OwnedChangeIff(before.fields, after.fields, now);
    }
  }

  lemma {:induction false} OwnedIff(before: seq<Value>, after: seq<Value>, uid: nat, id: string)
    requires |before| == |after| && forall i | 0 <= i < |before| :: before[i].Obj? && after[i].Obj?
    ensures id in Owned(before, after, uid) <==> Owns(before, uid, id)
  {
    if |before| > 0 {
      var n := |before| - 1;
      OwnedIff(before[..n], after[..n], uid, id);
      OwnerIff(before[n].fields, uid);
      OwnsGrows(before[..n], before[n], uid, id);
      assert before == before[..n] + [before[n]];
    }
  }

  lemma OwnsGrows(reservations: seq<Value>, r: Value, uid: nat, id: string)
    ensures Owns(reservations + [r], uid, id) <==>
      Owns(reservations, uid, id) || (r.Obj? && BelongsTo(r.fields, uid) && Text(Get(r.fields, "id")) == id)
  {
    var longer := reservations + [r];
    assert longer[|reservations|] == r;
    if Owns(reservations, uid, id) {
      var i :| 0 <= i < |reservations| && reservations[i].Obj? && BelongsTo(reservations[i].fields, uid)
               && Text(Get(reservations[i].fields, "id")) == id;
      assert longer[i] == reservations[i];
    }
  }

  lemma ActionIff(action: Value)
    ensures ActionOk(action) <==>
      && action.Str? && 4 <= |action.s| <= 64 && action.s[..4] == "job-"
      && forall i | 0 <= i < |action.s| :: 'a' <= action.s[i] <= 'z' || action.s[i] == '-'
  {
  }

  lemma LogIff(raw: Value, before: seq<Value>, after: seq<Value>, actor: Actor, now: int)
    requires |before| == |after| && forall i | 0 <= i < |before| :: before[i].Obj? && after[i].Obj?
    ensures Sanitize(raw, Owned(before, after, actor.uid), actor, now).Ok? <==> LogLawful(raw, before, actor.uid)
  {
    if raw.Obj? {
      OwnedIff(before, after, actor.uid, Text(Get(raw.fields, "reservation_id")));
      ActionIff(Get(raw.fields, "action"));
    }
  }

  lemma {:induction false} AllSanitizedIff(logs: seq<Value>, owned: map<string, Dict>, actor: Actor, now: int)
    ensures SanitizeAll(logs, owned, actor, now).Ok? <==>
      forall k | 0 <= k < |logs| :: Sanitize(logs[k], owned, actor, now).Ok?
  {
    if |logs| > 0 {
      var n := |logs| - 1;
      AllSanitizedIff(logs[..n], owned, actor, now);
      assert forall k | 0 <= k < n :: logs[..n][k] == logs[k];
    }
  }

  /** The broker accepts exactly the lawful proposals. */
  lemma ValidIff(current: Dict, proposed: Dict, logs: seq<Value>, actor: Actor, now: int)
    ensures Validate(current, proposed, logs, actor, now).Ok? <==> Lawful(current, proposed, logs, actor.uid, now)
  {
    FrameIff(current, proposed);
    if SameFrame(current, proposed) {
      var before, after := Reservations(current), Reservations(proposed);
      forall i | 0 <= i < |before|
        ensures ReservationChangeOk(before[i], after[i], actor.uid, now) <==>
          MayBecome(before[i], after[i], actor.uid, now)
      {
        ChangeIff(before[i], after[i], actor.uid, now);
      }
      if forall i | 0 <= i < |before| :: MayBecome(before[i], after[i], actor.uid, now) {
        var owned := Owned(before, after, actor.uid);
        AllSanitizedIff(logs, owned, actor, now);
        forall k | 0 <= k < |logs|
          ensures Sanitize(logs[k], owned, actor, now).Ok? <==> LogLawful(logs[k], before, actor.uid)
        {
          LogIff(logs[k], before, after, actor, now);
        }
      }
    }
  }

  /** A whole-ledger request is committed exactly if its base is current, it is lawful, and its changed flag is true. */
  lemma WholeCommittedIff(digest: Dict -> string, current: Dict, r: Request)
    requires r.proposal.Whole?
    ensures Commit(digest, current, r).Committed? <==>
      && |r.logs| <= 256 && digest(current) == r.base && r.proposal.ledger.Obj?
      && Lawful(current, r.proposal.ledger.fields, r.logs, r.actor.uid, r.now)
      && (r.changed <==> r.proposal.ledger.fields != current)
    ensures Commit(digest, current, r).Committed? ==> Commit(digest, current, r).ledger == r.proposal.ledger.fields
  {
    if r.proposal.ledger.Obj? { ValidIff(current, r.proposal.ledger.fields, r.logs, r.actor, r.now); }
  }

  /** A patch request is committed exactly if its indexes are sound and the ledger it describes is lawful. */
  lemma PatchCommittedIff(digest: Dict -> string, current: Dict, r: Request, patched: Dict)
    requires r.proposal.Patch?
    requires var changes := r.proposal.changes;
      "reservations" in current && current["reservations"].Arr? && PatchOk(|current["reservations"].items|, changes) ==>
        patched == current["reservations" := Arr(ApplyChanges(current["reservations"].items, changes))]
    ensures Commit(digest, current, r).Committed? <==>
      && |r.proposal.changes| <= 256 && |r.logs| <= 256 && digest(current) == r.base
      && "reservations" in current && current["reservations"].Arr?
      && PatchOk(|current["reservations"].items|, r.proposal.changes)
      && Lawful(current, patched, r.logs, r.actor.uid, r.now)
      && (r.changed <==> patched != current)
    ensures Commit(digest, current, r).Committed? ==> Commit(digest, current, r).ledger == patched
  {
    ValidIff(current, patched, r.logs, r.actor, r.now);
  }

  // ---------------------------------------------------------------- what stays

  /** Every field but the reservations and the transaction stamp is there as before. */
  ghost predicate RestKept(before: Dict, after: Dict) {
    forall k | k != "reservations" && k != "last_transaction_id" ::
      (k in after <==> k in before) && (k in before ==> after[k] == before[k])
  }

  lemma ExecuteKeepsRest(digest: Dict -> string, current: Dict, r: Request)
    ensures RestKept(current, Execute(digest, current, r))
    ensures "reservations" in Execute(digest, current, r) <==> "reservations" in current
    ensures "last_transaction_id" in current ==> "last_transaction_id" in Execute(digest, current, r)
  {
    var o := Commit(digest, current, r);
    if o.Committed? {
      ValidIff(current, o.ledger, r.logs, r.actor, r.now);
      assert SameFrame(current, o.ledger);
    }
  }

  /** Over every run the ledger apart from its reservations and its transaction stamp reads as at the start. */
  lemma {:induction false} RunKeepsRest(digest: Dict -> string, start: Dict, requests: seq<Request>)
    ensures RestKept(start, RunFrom(digest, start, requests))
    ensures "reservations" in RunFrom(digest, start, requests) <==> "reservations" in start
  {
    if |requests| > 0 {
      var n := |requests| - 1;
      RunKeepsRest(digest, start, requests[..n]);
      ExecuteKeepsRest(digest, RunFrom(digest, start, requests[..n]), requests[n]);
    }
  }

  // ---------------------------------------------------------------- what is recorded

  /** The event is the actor's and says what the log item says. */
  ghost predicate Logged(e: AuditEvent, raw: Value, actor: Actor) {
    && raw.Obj? && e.uid == actor.uid && e.username == actor.username
    && Get(raw.fields, "action") == Str(e.action)
    && Text(Get(raw.fields, "reservation_id")) == e.reservationId
    && var message := Text(Get(raw.fields, "message"));
       e.message <= message && |e.message| == if |message| <= 1000 then |message| else 1000
  }

  ghost predicate AllLogged(audit: seq<AuditEvent>, logs: seq<Value>, actor: Actor) {
    |audit| == |logs| && forall k | 0 <= k < |logs| :: Logged(audit[k], logs[k], actor)
  }

  /** The result of an event is the status of the job that the commit stores for that reservation. */
  ghost predicate ResultOf(e: AuditEvent, stored: Value) {
    && stored.Obj? && Text(Get(stored.fields, "id")) == e.reservationId && BelongsTo(stored.fields, e.uid)
    && var job := Get(stored.fields, "job");
       e.result == if job.Obj? then Get(job.fields, "status") else Null
  }

  lemma {:induction false} NothingLogged(logs: seq<Value>, owned: map<string, Dict>, actor: Actor, now: int)
    requires SanitizeAll(logs, owned, actor, now).Ok?
    ensures |SanitizeAll(logs, owned, actor, now).value| == |logs|
  {
    if |logs| > 0 { NothingLogged(logs[..|logs| - 1], owned, actor, now); }
  }

  /** Every accepted proposal records its log items, one by one. */
  lemma FinishLogs(current: Dict, proposed: Dict, logs: seq<Value>, changed: bool, actor: Actor, now: int)
    requires Finish(current, proposed, logs, changed, actor, now).Committed?
    ensures AllLogged(Finish(current, proposed, logs, changed, actor, now).audit, logs, actor)
  {
    var audit := Finish(current, proposed, logs, changed, actor, now).audit;
    var owned := Owned(Reservations(current), Reservations(proposed), actor.uid);
    NothingLogged(logs, owned, actor, now);
    forall k | 0 <= k < |logs| ensures Logged(audit[k], logs[k], actor) {
      SanitizedOneByOne(logs, owned, actor, now, k);
    }
  }

  lemma CommitLogs(digest: Dict -> string, current: Dict, r: Request)
    requires Commit(digest, current, r).Committed?
    ensures AllLogged(Commit(digest, current, r).audit, r.logs, r.actor)
  {
    FinishLogs(current, Commit(digest, current, r).ledger, r.logs, r.changed, r.actor, r.now);
  }

  /** The owner of a reservation is the same before and after an accepted change. */
  lemma BelongsAfter(before: Dict, after: Dict, uid: nat)
    requires AgreeOutside(before, after, RESERVATION_MUTABLE) && BelongsTo(before, uid)
    ensures BelongsTo(after, uid) && Get(after, "id") == Get(before, "id")
  {
    AgreeOutsideAt(before, after, RESERVATION_MUTABLE, "uid");
    AgreeOutsideAt(before, after, RESERVATION_MUTABLE, "id");
  }

  /** The result an event carries is the one the commit stores. */
  lemma AuditTellsResult(digest: Dict -> string, current: Dict, r: Request, k: nat)
    requires Commit(digest, current, r).Committed? && k < |r.logs|
    ensures |Commit(digest, current, r).audit| == |r.logs|
    ensures exists i | 0 <= i < |Reservations(Commit(digest, current, r).ledger)| ::
      ResultOf(Commit(digest, current, r).audit[k], Reservations(Commit(digest, current, r).ledger)[i])
  {
    var o := Commit(digest, current, r);
    var before, after := Reservations(current), Reservations(o.ledger);
    var owned := Owned(before, after, r.actor.uid);
    assert FrameOk(current, o.ledger);
    SanitizedOneByOne(r.logs, owned, r.actor, r.now, k);
    var id := o.audit[k].reservationId;
    OwnedComesFrom(before, after, r.actor.uid, id);
    var i :| 0 <= i < |before| && Backs(before[i], after[i], r.actor.uid, id, owned[id]);
    assert ReservationChangeOk(before[i], after[i], r.actor.uid, r.now);
    OwnerIff(before[i].fields, r.actor.uid);
    BelongsAfter(before[i].fields, after[i].fields, r.actor.uid);
    assert ResultOf(o.audit[k], after[i]);
  }

  // ---------------------------------------------------------------- what the client's diff accepts

  /** The positions at which the two lists differ. */
  ghost function Differing(before: seq<Value>, after: seq<Value>): set<int> {
    set i | 0 <= i < |before| && i < |after| && before[i] != after[i]
  }

  lemma DifferingGrows(before: seq<Value>, after: seq<Value>)
    requires |before| == |after| > 0
    ensures var n := |before| - 1;
      Differing(before, after) == Differing(before[..n], after[..n]) + if before[n] != after[n] then {n} else {}
  {
  }

  lemma {:induction false} DiffCounts(before: seq<Value>, after: seq<Value>, n: nat)
    requires n <= |before| == |after|
    ensures |DiffFrom(before, after, n)| == |Differing(before[..n], after[..n])|
  {
    if n > 0 {
      DiffCounts(before, after, n - 1);
      DifferingGrows(before[..n], after[..n]);
      assert before[..n][..n - 1] == before[..n - 1] && after[..n][..n - 1] == after[..n - 1];
    }
  }

  /** A diff exists exactly if only reservations differ, none moved, and at most 256 of them changed. */
  lemma DiffIff(current: Dict, proposed: Dict)
    ensures Diff(current, proposed).Ok? <==>
      && SameFrame(current, proposed)
      && var before, after := current["reservations"].items, proposed["reservations"].items;
         && (forall i | 0 <= i < |before| ::
               before[i].Obj? && after[i].Obj? && Get(before[i].fields, "id") == Get(after[i].fields, "id"))
         && |Differing(before, after)| <= 256
  {
    FrameIff(current, proposed);
    if SameFrame(current, proposed) {
      var before, after := Reservations(current), Reservations(proposed);
      DiffCounts(before, after, |before|);
      assert before[..|before|] == before && after[..|after|] == after;
    }
  }

  /** The broker takes this proposal on this ledger. */
  ghost predicate Welcome(
    ledger: Dict, proposed: Value, logs: seq<Value>, changed: bool, uid: nat, now: int, patched: bool)
  {
    && |logs| <= 256 && proposed.Obj?
    && Lawful(ledger, proposed.fields, logs, uid, now)
    && (changed <==> proposed.fields != ledger)
    && (patched ==> |Differing(ledger["reservations"].items, proposed.fields["reservations"].items)| <= 256)
  }

  /** A proposal sent in either form for the ledger as it is is committed exactly if it is welcome. */
  lemma WelcomeIff(
    digest: Dict -> string, ledger: Dict, proposed: Value, logs: seq<Value>, changed: bool, actor: Actor, now: int)
    ensures CommitLedger(digest, ledger, digest(ledger), proposed, logs, changed, actor, now).Committed? <==>
      Welcome(ledger, proposed, logs, changed, actor.uid, now, false)
    ensures proposed.Obj? && Diff(ledger, proposed.fields).Ok? ==>
      (CommitPatch(digest, ledger, digest(ledger), Diff(ledger, proposed.fields).value, logs, changed, actor,
                   now).Committed? <==>
       Welcome(ledger, proposed, logs, changed, actor.uid, now, true))
  {
    if proposed.Obj? {
      ValidIff(ledger, proposed.fields, logs, actor, now);
      DiffIff(ledger, proposed.fields);
      if Diff(ledger, proposed.fields).Ok? {
        PatchMeansWholeLedger(digest, ledger, proposed.fields, digest(ledger), Diff(ledger, proposed.fields).value,
                              logs, changed, actor, now);
      }
    }
  }

  /** What is welcome as a patch has a diff. */
  lemma WelcomeHasDiff(ledger: Dict, proposed: Value, logs: seq<Value>, changed: bool, uid: nat, now: int)
    requires Welcome(ledger, proposed, logs, changed, uid, now, true)
    ensures Diff(ledger, proposed.fields).Ok?
  {
    DiffIff(ledger, proposed.fields);
  }
}
