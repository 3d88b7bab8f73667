/**
 The broker's rules for job transactions: who may change what in the ledger, how a client
 cuts its proposal into an indexed patch, and how the broker commits a patch or a whole ledger.
 */
module BrokerRules {
  import opened Json

  const MAX_CHANGES := 256
  const RESERVATIONS := "reservations"
  const LAST_TRANSACTION := "last_transaction_id"

  const RESERVATION_MUTABLE: set<string> := {"status", "updated_at", "job"}
  const JOB_BINDING: set<string> := {"spec_id", "digest", "summary", "submitted_at"}
  const JOB_MUTABLE: set<string> := {
    "cancel_requested_at", "claim_token", "claimed_at", "exit_code", "finished_at",
    "launch_guard_key", "launch_guard_state", "log_rotated", "log_warning", "message",
    "recovered_at", "recovery_state", "recovery_worker_id", "runner_host", "runner_pid",
    "started_at", "status", "waiting_since", "worker_id", "worker_lease_id"
  }

  const ACTIVE := Str("active")
  const EXPIRED := Str("expired")

  /** The kernel reports a peer's UID; a negative one is refused before any request is read. */
  datatype Actor = Actor(uid: nat, username: string)

  datatype Change = Change(index: int, reservation: Value)

  datatype AuditEvent = AuditEvent(
    ts: int, uid: nat, username: string, action: string, reservationId: string,
    opId: Value, gpus: Value, mode: Value, startAt: Value, endAt: Value,
    result: Value, message: string)

  /** What a commit request comes back with: the ledger moved on, the request was an error, or it took. */
  datatype Outcome =
    | Refused
    | Rejected
    | Committed(ledger: Dict, audit: seq<AuditEvent>, changed: bool)

  // ---------------------------------------------------------------- validation

  /** `int(before.get("uid", -1))`, with a value that has no integer as an error. */
  function OwnerOf(r: Dict): Result<int> {
    if "uid" !in r then Ok(-1)
    else match r["uid"]
      case Num(n) => Ok(n)
      case Bool(b) => Ok(if b then 1 else 0)
      case _ => Err
  }

  predicate IsText(v: Value) {
    v.Str? || v.Instant?
  }

  function Text(v: Value): string {
    match v
    case Str(s) => s
    case Instant(t, _) => t
    case _ => ""
  }

  /** A scheduled job may neither appear nor vanish, and only its mutable fields may change. */
  predicate JobChangeOk(before: Value, after: Value) {
    if before.Obj? && after.Obj? then AgreeOutside(before.fields, after.fields, JOB_MUTABLE)
    else before == after
  }

  /** A status may change only from active to expired, and then only once the end has passed. */
  predicate StatusChangeOk(before: Dict, after: Dict, now: int) {
    var was, becomes := Get(before, "status"), Get(after, "status");
    && (becomes != was ==> was == ACTIVE && becomes == EXPIRED)
    && (becomes == EXPIRED && was != EXPIRED ==>
          Get(before, "end_at").Instant? && Get(before, "end_at").at <= now)
  }

  predicate OwnedChangeOk(before: Dict, after: Dict, now: int) {
    && AgreeOutside(before, after, RESERVATION_MUTABLE)
    && StatusChangeOk(before, after, now)
    && JobChangeOk(Get(before, "job"), Get(after, "job"))
  }

  predicate ReservationChangeOk(before: Value, after: Value, uid: nat, now: int) {
    && before.Obj? && after.Obj?
    && Get(before.fields, "id") == Get(after.fields, "id")
    && OwnerOf(before.fields).Ok?
    && if OwnerOf(before.fields).value != uid then after == before
       else OwnedChangeOk(before.fields, after.fields, now)
  }

  /** The ledger-level frame: same fields, same values but for the reservations, as many of them. */
  predicate FrameOk(current: Dict, proposed: Dict) {
    && current.Keys == proposed.Keys
    && (forall k | k in current :: k != RESERVATIONS ==> Get(proposed, k) == Get(current, k))
    && Get(current, RESERVATIONS).Arr? && Get(proposed, RESERVATIONS).Arr?
    && |Reservations(current)| == |Reservations(proposed)|
  }

  function Reservations(ledger: Dict): seq<Value> {
    var r := Get(ledger, RESERVATIONS);
    if r.Arr? then r.items else []
  }

  /** The actor's reservations by id, as proposed; a later one replaces an earlier one of the same id. */
  function Owned(before: seq<Value>, after: seq<Value>, uid: nat): map<string, Dict>
    requires |before| == |after|
  {
    if |before| == 0 then map[]
    else
      var n := |before| - 1;
      var rest := Owned(before[..n], after[..n], uid);
      if before[n].Obj? && after[n].Obj? && OwnerOf(before[n].fields) == Ok(uid)
      then rest[Text(Get(before[n].fields, "id")) := after[n].fields]
      else rest
  }

  predicate ActionOk(action: Value) {
    && action.Str?
    && "job-" <= action.s
    && |action.s| <= 64
    && forall i | 0 <= i < |action.s| :: 'a' <= action.s[i] <= 'z' || action.s[i] == '-'
  }

  function Sanitize(raw: Value, owned: map<string, Dict>, actor: Actor, now: int): Result<AuditEvent> {
    if !raw.Obj? then Err
    else
      var id, action := Get(raw.fields, "reservation_id"), Get(raw.fields, "action");
      if !IsText(id) || Text(id) !in owned || !ActionOk(action) then Err
      else
        var r := owned[Text(id)];
        var message := Text(Get(raw.fields, "message"));
        var job := Get(r, "job");
        Ok(AuditEvent(
          now, actor.uid, actor.username, action.s, Text(id),
          Get(r, "op_id"), if "gpus" in r then r["gpus"] else Arr([]), Get(r, "mode"),
          Get(r, "start_at"), Get(r, "end_at"),
          if job.Obj? then Get(job.fields, "status") else Null,
          if |message| > 1000 then message[..1000] else message))
  }

  function SanitizeAll(logs: seq<Value>, owned: map<string, Dict>, actor: Actor, now: int): Result<seq<AuditEvent>> {
    if |logs| == 0 then Ok([])
    else
      var n := |logs| - 1;
      var rest := SanitizeAll(logs[..n], owned, actor, now);
      var last := Sanitize(logs[n], owned, actor, now);
      if rest.Err? || last.Err? then Err else Ok(rest.value + [last.value])
  }

  function Validate(current: Dict, proposed: Dict, logs: seq<Value>, actor: Actor, now: int): Result<seq<AuditEvent>> {
    if !FrameOk(current, proposed) then Err
    else
      var before, after := Reservations(current), Reservations(proposed);
      if exists i | 0 <= i < |before| :: !ReservationChangeOk(before[i], after[i], actor.uid, now) then Err
      else SanitizeAll(logs, Owned(before, after, actor.uid), actor, now)
  }

  // ---------------------------------------------------------------- commit

  /** The tail both commit forms share: re-validate, and insist that the changed flag is truthful. */
  function Finish(current: Dict, proposed: Dict, logs: seq<Value>, changed: bool, actor: Actor, now: int): Outcome {
    var audit := Validate(current, proposed, logs, actor, now);
    if audit.Err? || changed != (proposed != current) then Rejected
    else Committed(proposed, audit.value, changed)
  }

  function CommitLedger(
    digest: Dict -> string, current: Dict, base: string, proposed: Value,
    logs: seq<Value>, changed: bool, actor: Actor, now: int): Outcome
  {
    if !proposed.Obj? || |logs| > MAX_CHANGES then Rejected
    else if digest(current) != base then Refused
    else Finish(current, proposed.fields, logs, changed, actor, now)
  }

  /** What the patch loop insists on: indexes in range and distinct, replacements that are objects. */
  predicate PatchOk(n: nat, changes: seq<Change>) {
    && (forall k | 0 <= k < |changes| :: 0 <= changes[k].index < n && changes[k].reservation.Obj?)
    && (forall j, k | 0 <= j < k < |changes| :: changes[j].index != changes[k].index)
  }

  /** The reservations after the changes have been stored one after the other. */
  function ApplyChanges(reservations: seq<Value>, changes: seq<Change>): (r: seq<Value>)
    requires forall k | 0 <= k < |changes| :: 0 <= changes[k].index < |reservations|
    ensures |r| == |reservations|
  {
    if |changes| == 0 then reservations
    else
      var n := |changes| - 1;
      ApplyChanges(reservations, changes[..n])[changes[n].index := changes[n].reservation]
  }

  function CommitPatch(
    digest: Dict -> string, current: Dict, base: string, changes: seq<Change>,
    logs: seq<Value>, changed: bool, actor: Actor, now: int): Outcome
  {
    if |changes| > MAX_CHANGES || |logs| > MAX_CHANGES then Rejected
    else if digest(current) != base then Refused
    else if !Get(current, RESERVATIONS).Arr? || !PatchOk(|Reservations(current)|, changes) then Rejected
    else
      var proposed := current[RESERVATIONS := Arr(ApplyChanges(Reservations(current), changes))];
      Finish(current, proposed, logs, changed, actor, now)
  }

  /**
   The broker's patch loop, over the list it copied from the current ledger.  It stops at the first bad change,
   and otherwise returns the list with exactly the named positions replaced.
   */
  method ApplyPatch(reservations: seq<Value>, changes: seq<Change>) returns (r: Result<seq<Value>>)
    ensures r.Ok? <==> PatchOk(|reservations|, changes)
    ensures r.Ok? ==> r.value == ApplyChanges(reservations, changes)
    ensures r.Ok? ==> forall k | 0 <= k < |changes| :: r.value[changes[k].index] == changes[k].reservation
    ensures r.Ok? ==>
      forall i | 0 <= i < |reservations| && (forall k | 0 <= k < |changes| :: changes[k].index != i) ::
        r.value[i] == reservations[i]
  {
    var proposed := reservations;
    var seen: set<int> := {};
    for n := 0 to |changes|
      invariant PatchOk(|reservations|, changes[..n])
      invariant forall i :: i in seen <==> exists k | 0 <= k < n :: changes[k].index == i
      invariant proposed == ApplyChanges(reservations, changes[..n])
    {
      var change := changes[n];
      if change.index < 0 || change.index >= |reservations| || change.index in seen || !change.reservation.Obj? {
        return Err;
      }
      PatchOkExtends(|reservations|, changes, n);
      seen := seen + {change.index};
      proposed := proposed[change.index := change.reservation];
      assert changes[..n + 1][..n] == changes[..n];
    }
    assert changes[..|changes|] == changes;
    ApplyChangesAt(reservations, changes);
    return Ok(proposed);
  }

  lemma PatchOkExtends(size: nat, changes: seq<Change>, n: nat)
    requires n < |changes| && PatchOk(size, changes[..n])
    requires 0 <= changes[n].index < size && changes[n].reservation.Obj?
    requires forall k | 0 <= k < n :: changes[k].index != changes[n].index
    ensures PatchOk(size, changes[..n + 1])
  {
    var longer := changes[..n + 1];
    forall k | 0 <= k < |longer|
      ensures 0 <= longer[k].index < size && longer[k].reservation.Obj?
    {
      if k < n { assert longer[k] == changes[..n][k]; }
    }
    forall j, k | 0 <= j < k < |longer|
      ensures longer[j].index != longer[k].index
    {
      if k < n { assert longer[j] == changes[..n][j] && longer[k] == changes[..n][k]; }
    }
  }

  // ---------------------------------------------------------------- the client's diff

  function DiffFrom(before: seq<Value>, after: seq<Value>, n: nat): seq<Change>
    requires n <= |before| == |after|
  {
    if n == 0 then []
    else
      var rest := DiffFrom(before, after, n - 1);
      if before[n - 1] == after[n - 1] then rest else rest + [Change(n - 1, after[n - 1])]
  }

  /** `_job_transaction_changes`: the changed positions, or an error the mutator's caller sees. */
  function Diff(current: Dict, proposed: Dict): Result<seq<Change>> {
    if !FrameOk(current, proposed) then Err
    else
      var before, after := Reservations(current), Reservations(proposed);
      if exists i | 0 <= i < |before| ::
           !(before[i].Obj? && after[i].Obj? && Get(before[i].fields, "id") == Get(after[i].fields, "id"))
      then Err
      else
        var changes := DiffFrom(before, after, |before|);
        if |changes| > MAX_CHANGES then Err else Ok(changes)
  }

  // ---------------------------------------------------------------- diff then apply

  /** The diff names exactly the positions that differ, in increasing order, each with its new value. */
  lemma {:induction false} DiffFromExact(before: seq<Value>, after: seq<Value>, n: nat)
    requires n <= |before| == |after|
    ensures var d := DiffFrom(before, after, n);
      && (forall k | 0 <= k < |d| ::
            0 <= d[k].index < n && before[d[k].index] != after[d[k].index] && d[k].reservation == after[d[k].index])
      && (forall j, k | 0 <= j < k < |d| :: d[j].index < d[k].index)
      && (forall i | 0 <= i < n && before[i] != after[i] :: Change(i, after[i]) in d)
  {
    if n > 0 {
      DiffFromExact(before, after, n - 1);
    }
  }

  lemma {:induction false} ApplyChangesAt(reservations: seq<Value>, changes: seq<Change>)
    requires PatchOk(|reservations|, changes)
    ensures var r := ApplyChanges(reservations, changes);
      && (forall k | 0 <= k < |changes| :: r[changes[k].index] == changes[k].reservation)
      && (forall i | 0 <= i < |r| && (forall k | 0 <= k < |changes| :: changes[k].index != i) ::
            r[i] == reservations[i])
  {
    if |changes| > 0 {
      var n := |changes| - 1;
      var rest := changes[..n];
      ApplyChangesAt(reservations, rest);
      var p, r := ApplyChanges(reservations, rest), ApplyChanges(reservations, changes);
      forall k | 0 <= k < |changes|
        ensures r[changes[k].index] == changes[k].reservation
      {
        if k < n { assert rest[k] == changes[k]; }
      }
      forall i | 0 <= i < |r| && (forall k | 0 <= k < |changes| :: changes[k].index != i)
        ensures r[i] == reservations[i]
      {
        assert forall k | 0 <= k < |rest| :: rest[k].index != i by {
          forall k | 0 <= k < |rest| ensures rest[k].index != i { assert rest[k] == changes[k]; }
        }
        assert changes[n].index != i;
      }
    }
  }

  /** A list in which some element stands at two places holds it at least twice. */
  lemma RepeatedCountsTwice(s: seq<Change>, j: nat, k: nat)
    requires j < k < |s| && s[j] == s[k]
    ensures multiset(s)[s[j]] >= 2
  {
    assert s == s[..k] + s[k..];
    assert s[..k][j] == s[j];
    assert s[k..][0] == s[j];
    assert multiset(s) == multiset(s[..k]) + multiset(s[k..]);
    assert s[j] in multiset(s[..k]) && s[j] in multiset(s[k..]);
  }

  /** A list whose indexes increase holds nothing twice. */
  lemma {:induction false} IncreasingCountsOnce(s: seq<Change>, c: Change)
    requires forall j, k | 0 <= j < k < |s| :: s[j].index < s[k].index
    ensures multiset(s)[c] <= 1
  {
    if |s| > 0 {
      var n := |s| - 1;
      assert s == s[..n] + [s[n]];
      IncreasingCountsOnce(s[..n], c);
      assert forall j | 0 <= j < n :: s[..n][j] != s[n];
    }
  }

  /** A rearrangement of a list with increasing indexes still has distinct indexes. */
  lemma RearrangedDistinct(d: seq<Change>, changes: seq<Change>, j: nat, k: nat)
    requires forall a, b | 0 <= a < b < |d| :: d[a].index < d[b].index
    requires multiset(changes) == multiset(d)
    requires j < k < |changes|
    ensures changes[j].index != changes[k].index
  {
    if changes[j].index == changes[k].index {
      assert changes[j] in multiset(d) && changes[k] in multiset(d);
      assert changes[j] in d && changes[k] in d;
      RepeatedCountsTwice(changes, j, k);
      IncreasingCountsOnce(d, changes[j]);
    }
  }

  /** Any rearrangement of the diff passes the patch loop's checks and rebuilds the proposal's reservations. */
  lemma DiffThenApply(before: seq<Value>, after: seq<Value>, changes: seq<Change>)
    requires |before| == |after|
    requires forall i | 0 <= i < |after| :: after[i].Obj?
    requires multiset(changes) == multiset(DiffFrom(before, after, |before|))
    ensures PatchOk(|before|, changes)
    ensures ApplyChanges(before, changes) == after
  {
    var d := DiffFrom(before, after, |before|);
    DiffFromExact(before, after, |before|);
    forall k | 0 <= k < |changes|
      ensures changes[k] in d
    {
      assert changes[k] in multiset(d);
    }
    forall j, k | 0 <= j < k < |changes|
      ensures changes[j].index != changes[k].index
    {
      RearrangedDistinct(d, changes, j, k);
    }
    assert forall c | c in d :: c in multiset(changes);
    RebuiltFrom(before, after, changes);
  }

  /** A patch that names exactly the differing positions, with their new values, rebuilds the new list. */
  lemma RebuiltFrom(before: seq<Value>, after: seq<Value>, changes: seq<Change>)
    requires |before| == |after| && PatchOk(|before|, changes)
    requires forall k | 0 <= k < |changes| :: changes[k].reservation == after[changes[k].index]
    requires forall i | 0 <= i < |before| && before[i] != after[i] :: Change(i, after[i]) in changes
    ensures ApplyChanges(before, changes) == after
  {
    ApplyChangesAt(before, changes);
    var r := ApplyChanges(before, changes);
    forall i | 0 <= i < |r|
      ensures r[i] == after[i]
    {
      if before[i] != after[i] {
        var k :| 0 <= k < |changes| && changes[k] == Change(i, after[i]);
        assert r[changes[k].index] == after[i];
      } else if k :| 0 <= k < |changes| && changes[k].index == i {
        assert r[changes[k].index] == after[i];
      }
    }
  }

  /**
   For every proposal the client's diff accepts, sending its changes in any order has the same outcome,
   ledger and audit list included, as sending the whole proposed ledger.
   */
  lemma PatchMeansWholeLedger(
    digest: Dict -> string, current: Dict, proposed: Dict, base: string, changes: seq<Change>,
    logs: seq<Value>, changed: bool, actor: Actor, now: int)
    requires Diff(current, proposed).Ok?
    requires multiset(changes) == multiset(Diff(current, proposed).value)
    ensures CommitPatch(digest, current, base, changes, logs, changed, actor, now)
         == CommitLedger(digest, current, base, Obj(proposed), logs, changed, actor, now)
  {
    var before, after := Reservations(current), Reservations(proposed);
    DiffThenApply(before, after, changes);
    assert |changes| == |multiset(changes)|;
    assert |Diff(current, proposed).value| == |multiset(Diff(current, proposed).value)|;
    var rebuilt := current[RESERVATIONS := Arr(ApplyChanges(before, changes))];
    assert rebuilt == proposed by {
      assert RESERVATIONS in current && RESERVATIONS in proposed;
      forall k | k in rebuilt ensures rebuilt[k] == proposed[k] {
        if k != RESERVATIONS { assert Get(proposed, k) == Get(current, k); }
      }
    }
  }
}
