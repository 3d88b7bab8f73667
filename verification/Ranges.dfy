/**
 Half-open ranges of instants: sorting them, counting how many hold an instant, and the runs of whole days.
 */
module Ranges {
  import opened Basics

  const DAY := 86400

  datatype Range = Range(start: int, end: int)

  predicate Leq(a: Range, b: Range) {
    a.start < b.start || (a.start == b.start && a.end <= b.end)
  }

  predicate Sorted(s: seq<Range>) {
    forall i, j | 0 <= i < j < |s| :: Leq(s[i], s[j])
  }

  function Insert(x: Range, s: seq<Range>): seq<Range> {
    if |s| == 0 || Leq(s[|s| - 1], x) then s + [x]
    else Insert(x, s[..|s| - 1]) + [s[|s| - 1]]
  }

  /** Python's `sorted` on pairs. */
  function Sort(s: seq<Range>): seq<Range> {
    if |s| == 0 then [] else Insert(s[|s| - 1], Sort(s[..|s| - 1]))
  }

  lemma {:induction false} InsertKeeps(x: Range, s: seq<Range>)
    ensures multiset(Insert(x, s)) == multiset(s) + multiset{x}
  {
    if |s| > 0 && !Leq(s[|s| - 1], x) {
      InsertKeeps(x, s[..|s| - 1]);
      SplitLast(s);
    }
  }

  lemma {:induction false} InsertSorts(x: Range, s: seq<Range>)
    requires Sorted(s)
    ensures Sorted(Insert(x, s))
  {
    if |s| > 0 {
      var n := |s| - 1;
      if !Leq(s[n], x) {
        InsertSorts(x, s[..n]);
        InsertKeeps(x, s[..n]);
        var inner := Insert(x, s[..n]);
        forall i | 0 <= i < |inner|
          ensures Leq(inner[i], s[n])
        {
          assert inner[i] in multiset(s[..n]) + multiset{x};
          assert inner[i] in s[..n] || inner[i] == x;
        }
      }
    }
  }

  lemma {:induction false} SortSorts(s: seq<Range>)
    ensures Sorted(Sort(s)) && multiset(Sort(s)) == multiset(s)
  {
    if |s| > 0 {
      var n := |s| - 1;
      assert s == s[..n] + [s[n]];
      SortSorts(s[..n]);
      InsertSorts(s[n], Sort(s[..n]));
      InsertKeeps(s[n], Sort(s[..n]));
    }
  }

  /** Nothing a sorted list holds comes after its last element. */
  lemma LastIsLargest(a: seq<Range>, x: Range)
    requires Sorted(a) && x in a
    ensures x == a[|a| - 1] || Leq(x, a[|a| - 1])
  {
    var i :| 0 <= i < |a| && a[i] == x;
  }

  lemma FrontHolds(a: seq<Range>)
    requires |a| > 0
    ensures multiset(a[..|a| - 1]) == multiset(a) - multiset{a[|a| - 1]}
    ensures a == a[..|a| - 1] + [a[|a| - 1]]
  {
    var n := |a| - 1;
    assert a == a[..n] + [a[n]];
    assert multiset(a) == multiset(a[..n]) + multiset{a[n]};
  }

  lemma SameLast(a: seq<Range>, b: seq<Range>)
    requires Sorted(a) && Sorted(b) && |a| > 0 && |b| > 0
    requires a[|a| - 1] in b && b[|b| - 1] in a
    ensures a[|a| - 1] == b[|b| - 1]
  {
    LastIsLargest(a, b[|b| - 1]);
    LastIsLargest(b, a[|a| - 1]);
  }

  lemma FrontsMatch(a: seq<Range>, b: seq<Range>)
    requires Sorted(a) && Sorted(b) && multiset(a) == multiset(b) && |a| == |b| > 0
    ensures a[|a| - 1] == b[|b| - 1] && multiset(a[..|a| - 1]) == multiset(b[..|b| - 1])
  {
    assert a[|a| - 1] in multiset(a) && b[|b| - 1] in multiset(b);
    SameLast(a, b);
    FrontHolds(a);
    FrontHolds(b);
  }

  /** A sorted list is determined by what it holds. */
  lemma {:induction false} SortedUnique(a: seq<Range>, b: seq<Range>)
    requires Sorted(a) && Sorted(b) && multiset(a) == multiset(b)
    ensures a == b
  {
    assert |a| == |multiset(a)| == |multiset(b)| == |b|;
    if |a| > 0 {
      FrontsMatch(a, b);
      SortedUnique(a[..|a| - 1], b[..|b| - 1]);
      assert a == a[..|a| - 1] + [a[|a| - 1]] && b == b[..|b| - 1] + [b[|b| - 1]];
    }
  }

  // ---------------------------------------------------------------- counting

  predicate Holds(r: Range, t: int) {
    r.start <= t < r.end
  }

  /** How many of the ranges hold the instant. */
  function Cover(s: seq<Range>, t: int): nat {
    if |s| == 0 then 0
    else Cover(s[..|s| - 1], t) + if Holds(s[|s| - 1], t) then 1 else 0
  }

  lemma {:induction false} CoverInsert(x: Range, s: seq<Range>, t: int)
    ensures Cover(Insert(x, s), t) == Cover(s, t) + if Holds(x, t) then 1 else 0
  {
    var n := |s| - 1;
    if n >= 0 && !Leq(s[n], x) {
      CoverInsert(x, s[..n], t);
      assert (Insert(x, s[..n]) + [s[n]])[..|Insert(x, s[..n])|] == Insert(x, s[..n]);
    } else {
      assert (s + [x])[..|s|] == s;
    }
  }

  lemma {:induction false} CoverSort(s: seq<Range>, t: int)
    ensures Cover(Sort(s), t) == Cover(s, t)
  {
    if |s| > 0 {
      CoverSort(s[..|s| - 1], t);
      CoverInsert(s[|s| - 1], Sort(s[..|s| - 1]), t);
    }
  }

  lemma {:induction false} CoverPositive(s: seq<Range>, i: nat, t: int)
    requires i < |s| && Holds(s[i], t)
    ensures Cover(s, t) >= 1
  {
    if i < |s| - 1 {
      assert s[..|s| - 1][i] == s[i];
      CoverPositive(s[..|s| - 1], i, t);
    }
  }

  lemma {:induction false} CoverTwice(s: seq<Range>, i: nat, j: nat, t: int)
    requires i < j < |s| && Holds(s[i], t) && Holds(s[j], t)
    ensures Cover(s, t) >= 2
  {
    var n := |s| - 1;
    assert s[..n][i] == s[i];
    if j == n {
      CoverPositive(s[..n], i, t);
    } else {
      assert s[..n][j] == s[j];
      CoverTwice(s[..n], i, j, t);
    }
  }

  lemma {:induction false} CoverZero(s: seq<Range>, t: int)
    requires forall i | 0 <= i < |s| :: !Holds(s[i], t)
    ensures Cover(s, t) == 0
  {
    if |s| > 0 {
      var front := s[..|s| - 1];
      forall i | 0 <= i < |front| ensures !Holds(front[i], t) { assert front[i] == s[i]; }
      CoverZero(front, t);
    }
  }

  // ---------------------------------------------------------------- neighbours

  /** No range begins before the one in front of it has ended. */
  predicate NeighboursApart(s: seq<Range>) {
    forall i | 0 <= i < |s| - 1 :: s[i].end <= s[i + 1].start
  }

  ghost predicate NonEmpty(s: seq<Range>) {
    forall i | 0 <= i < |s| :: s[i].start < s[i].end
  }

  lemma {:induction false} AllApart(s: seq<Range>, i: nat, j: nat)
    requires NeighboursApart(s) && NonEmpty(s) && i < j < |s|
    ensures s[i].end <= s[j].start
    decreases j
  {
    if i + 1 < j { AllApart(s, i, j - 1); }
    assert s[j - 1].end <= s[j - 1 + 1].start;
  }

  lemma SortedNonEmpty(s: seq<Range>)
    requires NonEmpty(s)
    ensures Sorted(Sort(s)) && NonEmpty(Sort(s))
  {
    var o := Sort(s);
    SortSorts(s);
    forall i | 0 <= i < |o| ensures o[i].start < o[i].end { assert o[i] in multiset(s); assert o[i] in s; }
  }

  lemma OverlapCoversTwice(o: seq<Range>)
    requires Sorted(o) && NonEmpty(o) && !NeighboursApart(o)
    ensures exists t :: Cover(o, t) >= 2
  {
    var i :| 0 <= i < |o| - 1 && o[i].end > o[i + 1].start;
    assert Leq(o[i], o[i + 1]);
    CoverTwice(o, i, i + 1, o[i + 1].start);
  }

  /** Comparing neighbours of the sorted list decides, for any list, whether some instant is held twice. */
  lemma NeighboursDecide(s: seq<Range>)
    requires NonEmpty(s)
    ensures NeighboursApart(Sort(s)) <==> forall t :: Cover(s, t) <= 1
  {
    var o := Sort(s);
    SortedNonEmpty(s);
    if NeighboursApart(o) {
      forall t ensures Cover(s, t) <= 1 {
        CoverSort(s, t);
        ApartCoversOnce(o, t);
      }
    } else {
      OverlapCoversTwice(o);
      var t :| Cover(o, t) >= 2;
      CoverSort(s, t);
    }
  }

  lemma ApartCoversOnce(o: seq<Range>, t: int)
    requires NeighboursApart(o) && NonEmpty(o)
    ensures Cover(o, t) <= 1
  {
    if |o| > 0 {
      var n := |o| - 1;
      var front := o[..n];
      assert NeighboursApart(front) && NonEmpty(front) by {
        forall i | 0 <= i < |front| - 1 ensures front[i].end <= front[i + 1].start {
          assert front[i] == o[i] && front[i + 1] == o[i + 1];
        }
      }
      ApartCoversOnce(front, t);
      if Holds(o[n], t) {
        forall i | 0 <= i < |front| ensures !Holds(front[i], t) {
          AllApart(o, i, n);
        }
        CoverZero(front, t);
      }
    }
  }

  // ---------------------------------------------------------------- days

  /** `n` whole days from `start` on. */
  function DayTiles(start: int, n: nat): seq<Range> {
    seq(n, i => Range(start + i * DAY, start + (i + 1) * DAY))
  }

  lemma DayTilesSorted(start: int, n: nat)
    ensures Sorted(DayTiles(start, n))
  {
  }

  /** Each day of the run is there exactly once, and nothing else is. */
  lemma {:induction false} DayTilesCount(start: int, n: nat, t: int)
    requires start % DAY == 0 && t % DAY == 0
    ensures multiset(DayTiles(start, n))[Range(t, t + DAY)] == if start <= t < start + n * DAY then 1 else 0
  {
    if n > 0 {
      DayTilesCount(start, n - 1, t);
      var all, front := DayTiles(start, n), DayTiles(start, n - 1);
      assert all == front + [all[n - 1]];
      assert all[n - 1] == Range(start + (n - 1) * DAY, start + n * DAY);
    }
  }
}
