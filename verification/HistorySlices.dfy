/**
 Cutting one batch of usage samples into UTC days.  Instants are whole seconds; day d begins at d * DAY.
 */
module HistorySlices {
  import opened Options
  import opened Basics
  import opened Ranges

  datatype Sample = Sample(start: int, end: int, data: string)

  function DayOf(s: Sample): int {
    s.start / DAY
  }

  /** The sample starts in day d and does not reach beyond it. */
  predicate InDay(s: Sample, d: int) {
    d * DAY <= s.start < (d + 1) * DAY && s.end <= (d + 1) * DAY
  }

  /** Every sample lies within a single day of the batch, and the days never go back. */
  ghost predicate Sliceable(first: int, last: int, records: seq<Sample>) {
    && (forall k | 0 <= k < |records| :: first <= DayOf(records[k]) < last && InDay(records[k], DayOf(records[k])))
    && (forall j, k | 0 <= j <= k < |records| :: DayOf(records[j]) <= DayOf(records[k]))
  }

  /** Each slice holds samples of its own day only. */
  ghost predicate DayByDay(first: int, slices: seq<seq<Sample>>) {
    forall i | 0 <= i < |slices| :: AllInDay(slices[i], first + i)
  }

  ghost predicate AllInDay(slice: seq<Sample>, d: int) {
    forall k | 0 <= k < |slice| :: InDay(slice[k], d)
  }

  /** The samples of day d from position `from` on, as far as the next sample that starts later. */
  method TakeDay(records: seq<Sample>, from: nat, d: int) returns (daily: seq<Sample>, next: nat, ok: bool)
    requires from <= |records|
    ensures from <= next <= |records|
    ensures daily == records[from..next] && AllInDay(daily, d)
    ensures ok ==> next < |records| ==> DayOf(records[next]) > d
    ensures !ok ==> next < |records| && DayOf(records[next]) <= d && !InDay(records[next], d)
  {
    daily, next := [], from;
    while next < |records|
      invariant from <= next <= |records|
      invariant daily == records[from..next] && AllInDay(daily, d)
    {
      var record := records[next];
      if record.start >= (d + 1) * DAY {
        break;
      }
      if record.start < d * DAY || record.end > (d + 1) * DAY {
        return daily, next, false;
      }
      daily := daily + [record];
      next := next + 1;
    }
    return daily, next, true;
  }

  /**
   The exporter's cursor loop.  It succeeds exactly when the batch is sliceable; then the slices are one per day, each
   sample is in the slice of its own day, and joined in order the slices give back the batch.
   */
  method SliceDays(first: int, last: int, records: seq<Sample>) returns (r: Option<seq<seq<Sample>>>)
    requires first <= last
    ensures r.Some? <==> Sliceable(first, last, records)
    ensures r.Some? ==> |r.value| == last - first && DayByDay(first, r.value) && Flatten(r.value) == records
  {
    var slices: seq<seq<Sample>> := [];
    var taken: nat := 0;
    for d := first to last
      invariant taken <= |records| && |slices| == d - first
      invariant Flatten(slices) == records[..taken]
      invariant DayByDay(first, slices)
      invariant Sliceable(first, d, records[..taken])
      invariant d > first && taken < |records| ==> DayOf(records[taken]) >= d
    {
      var daily, next, ok := TakeDay(records, taken, d);
      if !ok {
        NotSliceable(first, last, records, taken, next, d);
        return None;
      }
      FlattenAppend(slices, daily);
      assert records[..next] == records[..taken] + daily;
      SliceableGrows(first, d, records, taken, next);
      slices := slices + [daily];
      taken := next;
    }
    if taken != |records| {
      LeftOver(first, last, records, taken);
      return None;
    }
    assert records[..|records|] == records;
    return Some(slices);
  }

  /** A sample left over after the last day is outside the batch. */
  lemma LeftOver(first: int, last: int, records: seq<Sample>, taken: nat)
    requires first <= last && taken < |records|
    requires last > first ==> DayOf(records[taken]) >= last
    ensures !Sliceable(first, last, records)
  {
    var left := records[taken];
    assert Sliceable(first, last, records) ==> first <= DayOf(left) < last;
  }

  lemma SliceableGrows(first: int, d: int, records: seq<Sample>, taken: nat, next: nat)
    requires first <= d && taken <= next <= |records|
    requires Sliceable(first, d, records[..taken])
    requires AllInDay(records[taken..next], d)
    ensures Sliceable(first, d + 1, records[..next])
  {
    var longer := records[..next];
    forall k | 0 <= k < |longer|
      ensures first <= DayOf(longer[k]) < d + 1 && InDay(longer[k], DayOf(longer[k]))
      ensures k < taken ==> DayOf(longer[k]) < d
      ensures k >= taken ==> DayOf(longer[k]) == d
    {
      if k < taken {
        assert longer[k] == records[..taken][k];
      } else {
        assert longer[k] == records[taken..next][k - taken];
      }
    }
    forall j, k | 0 <= j <= k < |longer|
      ensures DayOf(longer[j]) <= DayOf(longer[k])
    {
      if k < taken { assert longer[j] == records[..taken][j] && longer[k] == records[..taken][k]; }
    }
  }

  /** A sample the day loop trips over shows that the batch cannot be sliced at all. */
  lemma NotSliceable(first: int, last: int, records: seq<Sample>, taken: nat, next: nat, d: int)
    requires first <= d < last && taken <= next < |records|
    requires d > first ==> DayOf(records[taken]) >= d
    requires AllInDay(records[taken..next], d)
    requires DayOf(records[next]) <= d && !InDay(records[next], d)
    ensures !Sliceable(first, last, records)
  {
    if next > taken {
      assert records[taken..next][next - 1 - taken] == records[next - 1];
      assert InDay(records[next - 1], d);
    }
    var bad := records[next];
    assert Sliceable(first, last, records) ==> InDay(bad, DayOf(bad));
  }

  // ---------------------------------------------------------------- the samples of one day

  /** The samples that start in day d, in order. */
  function OfDay(records: seq<Sample>, d: int): seq<Sample> {
    if |records| == 0 then []
    else
      var n := |records| - 1;
      OfDay(records[..n], d) + if DayOf(records[n]) == d then [records[n]] else []
  }

  lemma {:induction false} OfDayJoin(a: seq<Sample>, b: seq<Sample>, d: int)
    ensures OfDay(a + b, d) == OfDay(a, d) + OfDay(b, d)
  {
    if |b| == 0 {
      assert a + b == a;
    } else {
      var n := |b| - 1;
      OfDayJoin(a, b[..n], d);
      assert (a + b)[..|a + b| - 1] == a + b[..n];
    }
  }

  /** A slice of day d holds nothing of any other day. */
  lemma {:induction false} OfDaySlice(slice: seq<Sample>, d: int, e: int)
    requires AllInDay(slice, d)
    ensures OfDay(slice, e) == if e == d then slice else []
  {
    if |slice| > 0 {
      var n := |slice| - 1;
      OfDaySlice(slice[..n], d, e);
      assert InDay(slice[n], d);
      assert DayOf(slice[n]) == d;
      SplitLast(slice);
    }
  }

  /** The slices give back, day by day, the samples they were cut from. */
  lemma {:induction false} SliceIsOfDay(first: int, slices: seq<seq<Sample>>, d: int)
    requires DayByDay(first, slices)
    ensures OfDay(Flatten(slices), d) == if first <= d < first + |slices| then slices[d - first] else []
  {
    if |slices| > 0 {
      var n := |slices| - 1;
      SliceIsOfDay(first, slices[..n], d);
      assert AllInDay(slices[n], first + n);
      OfDaySlice(slices[n], first + n, d);
      OfDayJoin(Flatten(slices[..n]), slices[n], d);
    }
  }
}
