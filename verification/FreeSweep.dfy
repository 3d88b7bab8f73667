/**
 The sweep for the next instant at which a GPU carries no reservation (src/bk/cli.py).
 */
module FreeSweep {
  import opened Options
  import opened Ranges

  /** What the sweep reads of a reservation; `gpus` may be missing from the document. */
  datatype Reservation = Reservation(gpus: Option<seq<int>>, span: Range)

  predicate Uses(item: Reservation, gpu: int) {
    item.gpus.Some? && gpu in item.gpus.value
  }

  ghost predicate Busy(active: seq<Reservation>, gpu: int, t: int) {
    exists i | 0 <= i < |active| :: Uses(active[i], gpu) && Holds(active[i].span, t)
  }

  /** The earliest instant from `start` on at which the GPU is not busy. */
  ghost predicate FirstFree(active: seq<Reservation>, gpu: int, start: int, t: int) {
    && start <= t
    && !Busy(active, gpu, t)
    && forall u | start <= u < t :: Busy(active, gpu, u)
  }

  /** There is only one such instant, so the order in which reservations are listed does not matter. */
  lemma FirstFreeIgnoresOrder(active: seq<Reservation>, listed: seq<Reservation>, gpu: int, start: int, t: int, u: int)
    requires multiset(active) == multiset(listed)
    requires FirstFree(active, gpu, start, t) && FirstFree(listed, gpu, start, u)
    ensures t == u
  {
    SameBusy(active, listed, gpu, if t < u then t else u);
  }

  lemma SameBusy(active: seq<Reservation>, listed: seq<Reservation>, gpu: int, t: int)
    requires multiset(active) == multiset(listed)
    ensures Busy(active, gpu, t) <==> Busy(listed, gpu, t)
  {
    assert forall i | 0 <= i < |active| :: active[i] in multiset(listed);
    assert forall i | 0 <= i < |listed| :: listed[i] in multiset(active);
  }

  /** The spans of the GPU's reservations that end after `start`. */
  function Pending(active: seq<Reservation>, gpu: int, start: int): seq<Range> {
    if |active| == 0 then []
    else
      var n := |active| - 1;
      Pending(active[..n], gpu, start) +
      if Uses(active[n], gpu) && active[n].span.end > start then [active[n].span] else []
  }

  lemma {:induction false} PendingHolds(active: seq<Reservation>, gpu: int, start: int, span: Range)
    ensures span in Pending(active, gpu, start) <==>
      span.end > start && exists i | 0 <= i < |active| :: Uses(active[i], gpu) && active[i].span == span
  {
    if |active| > 0 {
      var n := |active| - 1;
      var front := active[..n];
      PendingHolds(front, gpu, start, span);
      if i :| 0 <= i < n && Uses(front[i], gpu) && front[i].span == span {
        assert Uses(active[i], gpu) && active[i].span == span;
      }
      if i :| 0 <= i < |active| && Uses(active[i], gpu) && active[i].span == span {
        assert i < n ==> Uses(front[i], gpu) && front[i].span == span;
      }
    }
  }

  ghost predicate Held(intervals: seq<Range>, t: int) {
    exists i | 0 <= i < |intervals| :: Holds(intervals[i], t)
  }

  /** From `start` on, the pending spans in any order say when the GPU is busy. */
  lemma BusyIsHeld(active: seq<Reservation>, gpu: int, start: int, intervals: seq<Range>, t: int)
    requires multiset(intervals) == multiset(Pending(active, gpu, start)) && start <= t
    ensures Busy(active, gpu, t) <==> Held(intervals, t)
  {
    var pending := Pending(active, gpu, start);
    forall s ensures s in pending <==> s in multiset(intervals) { assert s in multiset(pending) <==> s in pending; }
    if Busy(active, gpu, t) {
      var i :| 0 <= i < |active| && Uses(active[i], gpu) && Holds(active[i].span, t);
      PendingHolds(active, gpu, start, active[i].span);
      assert active[i].span in multiset(intervals);
    }
    if Held(intervals, t) {
      var j :| 0 <= j < |intervals| && Holds(intervals[j], t);
      assert intervals[j] in multiset(intervals);
      PendingHolds(active, gpu, start, intervals[j]);
    }
  }

  /** Once a sorted list has passed an instant, nothing behind holds it. */
  lemma RestIsLater(intervals: seq<Range>, k: nat, t: int)
    requires Sorted(intervals) && k <= |intervals| && (k < |intervals| ==> intervals[k].start > t)
    requires forall i | 0 <= i < k :: intervals[i].end <= t
    ensures !Held(intervals, t)
  {
    forall j | 0 <= j < |intervals|
      ensures !Holds(intervals[j], t)
    {
      assert j < k || j == k || Leq(intervals[k], intervals[j]);
    }
  }

  lemma HeldDecides(active: seq<Reservation>, gpu: int, start: int, intervals: seq<Range>, t: int)
    requires multiset(intervals) == multiset(Pending(active, gpu, start))
    requires start <= t && !Held(intervals, t) && forall u | start <= u < t :: Held(intervals, u)
    ensures FirstFree(active, gpu, start, t)
  {
    forall u | start <= u <= t
      ensures Busy(active, gpu, u) <==> Held(intervals, u)
    {
      BusyIsHeld(active, gpu, start, intervals, u);
    }
  }

  /** The cursor moves through the sorted intervals until one lies ahead of it. */
  method Sweep(intervals: seq<Range>, start: int) returns (cursor: int)
    requires Sorted(intervals)
    ensures start <= cursor && !Held(intervals, cursor)
    ensures forall u | start <= u < cursor :: Held(intervals, u)
  {
    cursor := start;
    var k := 0;
    while k < |intervals|
      invariant 0 <= k <= |intervals|
      invariant start <= cursor
      invariant forall i | 0 <= i < k :: intervals[i].end <= cursor
      invariant forall u | start <= u < cursor :: Held(intervals, u)
    {
      var interval := intervals[k];
      if interval.end > cursor {
        if interval.start > cursor {
          break;
        }
        assert forall u | cursor <= u < interval.end :: Holds(intervals[k], u);
        cursor := if cursor < interval.end then interval.end else cursor;
      }
      k := k + 1;
    }
    RestIsLater(intervals, k, cursor);
  }

  method NextExclusiveFree(active: seq<Reservation>, gpu: int, start: int) returns (cursor: int)
    ensures FirstFree(active, gpu, start, cursor)
  {
    var pending := Pending(active, gpu, start);
    SortSorts(pending);
    var intervals := Sort(pending);
    cursor := Sweep(intervals, start);
    HeldDecides(active, gpu, start, intervals, cursor);
  }
}
