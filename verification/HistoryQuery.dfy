/**
 Asking the usage API for a history window: month-sized queries, split in halves while their answers are truncated.
 Windows are counted in UTC days, since every window the exporter builds starts and ends on a day boundary.
 */
module HistoryQuery {
  import opened Options

  const MONTH := 30

  datatype Window = Window(start: int, end: int)

  function Days(w: Window): int {
    w.end - w.start
  }

  function OneDay(d: int): Window {
    Window(d, d + 1)
  }

  /** The windows follow one another without gap or overlap from `from` to `to`, and none is empty. */
  ghost predicate Tiles(ws: seq<Window>, from: int, to: int) {
    if |ws| == 0 then from == to
    else ws[0].start == from && ws[0].start < ws[0].end && Tiles(ws[1..], ws[0].end, to)
  }

  /** Where a truncated window is cut. */
  function Cut(w: Window): int {
    w.start + if Days(w) / 2 < 1 then 1 else Days(w) / 2
  }

  /** The reference: the untruncated windows a query ends up with, or none if a single day is still too much. */
  function Leaves(truncated: Window -> bool, w: Window): Option<seq<Window>>
    decreases Days(w)
  {
    if !truncated(w) then Some([w])
    else if Days(w) <= 1 then None
    else
      var left := Leaves(truncated, Window(w.start, Cut(w)));
      var right := Leaves(truncated, Window(Cut(w), w.end));
      if left.None? || right.None? then None else Some(left.value + right.value)
  }

  function AllLeaves(truncated: Window -> bool, ws: seq<Window>): Option<seq<Window>> {
    if |ws| == 0 then Some([])
    else
      var first := Leaves(truncated, ws[0]);
      var rest := AllLeaves(truncated, ws[1..]);
      if first.None? || rest.None? then None else Some(first.value + rest.value)
  }

  /** The months a window is first cut into, the last one possibly short. */
  function Months(start: int, end: int): seq<Window>
    decreases end - start
  {
    if start >= end then []
    else
      var stop := if start + MONTH < end then start + MONTH else end;
      [Window(start, stop)] + Months(stop, end)
  }

  /**
   The queries a list of windows can cost at most: a window of n days has at most n leaves and n - 1 cuts above them.
   */
  ghost function Budget(ws: seq<Window>): int {
    if |ws| == 0 then 0 else 2 * Days(ws[0]) - 1 + Budget(ws[1..])
  }

  lemma {:induction false} MonthsTile(start: int, end: int)
    requires start <= end
    ensures Tiles(Months(start, end), start, end)
    ensures forall i | 0 <= i < |Months(start, end)| :: Days(Months(start, end)[i]) <= MONTH
    ensures |Months(start, end)| == (end - start + MONTH - 1) / MONTH
    ensures Budget(Months(start, end)) == 2 * (end - start) - (end - start + MONTH - 1) / MONTH
    decreases end - start
  {
    if start < end {
      var stop := if start + MONTH < end then start + MONTH else end;
      MonthsTile(stop, end);
      assert Months(start, end)[1..] == Months(stop, end);
    }
  }

  lemma {:induction false} TilesJoin(a: seq<Window>, b: seq<Window>, from: int, mid: int, to: int)
    requires Tiles(a, from, mid) && Tiles(b, mid, to)
    ensures Tiles(a + b, from, to)
  {
    if |a| == 0 {
      assert a + b == b;
    } else {
      assert (a + b)[1..] == a[1..] + b;
      TilesJoin(a[1..], b, a[0].end, mid, to);
    }
  }

  /** The reference leaves tile their window, are untruncated and no longer than it. */
  lemma {:induction false} LeavesTile(truncated: Window -> bool, w: Window)
    requires w.start < w.end
    ensures Leaves(truncated, w).Some? ==>
      && Tiles(Leaves(truncated, w).value, w.start, w.end)
      && forall i | 0 <= i < |Leaves(truncated, w).value| ::
           !truncated(Leaves(truncated, w).value[i]) && Days(Leaves(truncated, w).value[i]) <= Days(w)
    ensures Leaves(truncated, w).None? ==>
      exists d | w.start <= d < w.end :: truncated(OneDay(d))
    decreases Days(w)
  {
    if !truncated(w) {
      assert Tiles([], w.end, w.end);
      assert [w][1..] == [];
    } else if Days(w) <= 1 {
      assert w == OneDay(w.start);
    } else {
      var left, right := Window(w.start, Cut(w)), Window(Cut(w), w.end);
      LeavesTile(truncated, left);
      LeavesTile(truncated, right);
      if Leaves(truncated, left).Some? && Leaves(truncated, right).Some? {
        TilesJoin(Leaves(truncated, left).value, Leaves(truncated, right).value, w.start, Cut(w), w.end);
      }
    }
  }

  lemma {:induction false} AllLeavesTile(truncated: Window -> bool, ws: seq<Window>, from: int, to: int)
    requires Tiles(ws, from, to)
    requires forall i | 0 <= i < |ws| :: Days(ws[i]) <= MONTH
    ensures AllLeaves(truncated, ws).Some? ==>
      && Tiles(AllLeaves(truncated, ws).value, from, to)
      && forall i | 0 <= i < |AllLeaves(truncated, ws).value| ::
           !truncated(AllLeaves(truncated, ws).value[i]) && Days(AllLeaves(truncated, ws).value[i]) <= MONTH
    ensures AllLeaves(truncated, ws).None? ==> exists d | from <= d < to :: truncated(OneDay(d))
  {
    if |ws| > 0 {
      TilesForward(ws[1..], ws[0].end, to);
      LeavesTile(truncated, ws[0]);
      AllLeavesTile(truncated, ws[1..], ws[0].end, to);
      if AllLeaves(truncated, ws).Some? {
        TilesJoin(Leaves(truncated, ws[0]).value, AllLeaves(truncated, ws[1..]).value, from, ws[0].end, to);
      }
    }
  }

  lemma {:induction false} TilesForward(ws: seq<Window>, from: int, to: int)
    requires Tiles(ws, from, to)
    ensures from <= to
  {
    if |ws| > 0 { TilesForward(ws[1..], ws[0].end, to); }
  }

  lemma BudgetCons(w: Window, ws: seq<Window>)
    ensures Budget([w] + ws) == 2 * Days(w) - 1 + Budget(ws)
  {
    assert ([w] + ws)[1..] == ws;
  }

  lemma {:induction false} BudgetNonNegative(ws: seq<Window>, from: int, to: int)
    requires Tiles(ws, from, to)
    ensures Budget(ws) >= 0
  {
    if |ws| > 0 { BudgetNonNegative(ws[1..], ws[0].end, to); }
  }

  lemma AllLeavesCons(truncated: Window -> bool, w: Window, ws: seq<Window>)
    ensures AllLeaves(truncated, [w] + ws) ==
      if Leaves(truncated, w).None? || AllLeaves(truncated, ws).None? then None
      else Some(Leaves(truncated, w).value + AllLeaves(truncated, ws).value)
  {
    assert ([w] + ws)[1..] == ws;
  }

  /** The month list is built front to back. */
  method FirstWindows(start: int, end: int) returns (pending: seq<Window>)
    ensures pending == Months(start, end)
  {
    pending := [];
    var cursor := start;
    while cursor < end
      invariant pending + Months(cursor, end) == Months(start, end)
    {
      var stop := if cursor + MONTH < end then cursor + MONTH else end;
      assert pending + ([Window(cursor, stop)] + Months(stop, end)) ==
        (pending + [Window(cursor, stop)]) + Months(stop, end);
      pending := pending + [Window(cursor, stop)];
      cursor := stop;
    }
    assert pending + [] == pending;
  }

  function Split(w: Window, rest: seq<Window>): seq<Window> {
    [Window(w.start, Cut(w)), Window(Cut(w), w.end)] + rest
  }

  lemma SplitIsCons(w: Window, rest: seq<Window>)
    ensures Split(w, rest) == [Window(w.start, Cut(w))] + ([Window(Cut(w), w.end)] + rest)
  {
  }

  lemma SplitTiles(w: Window, rest: seq<Window>, to: int)
    requires Days(w) >= 2 && Tiles(rest, w.end, to)
    ensures Tiles(Split(w, rest), w.start, to)
  {
    var right := [Window(Cut(w), w.end)] + rest;
    SplitIsCons(w, rest);
    assert right[1..] == rest && Split(w, rest)[1..] == right;
  }

  lemma SplitBudget(w: Window, rest: seq<Window>)
    requires Days(w) >= 2
    ensures Budget(Split(w, rest)) == Budget([w] + rest) - 1
  {
    var left, right := Window(w.start, Cut(w)), Window(Cut(w), w.end);
    SplitIsCons(w, rest);
    BudgetCons(w, rest);
    BudgetCons(right, rest);
    BudgetCons(left, [right] + rest);
  }

  lemma SplitLeaves(truncated: Window -> bool, w: Window, rest: seq<Window>)
    requires truncated(w) && Days(w) >= 2
    ensures AllLeaves(truncated, Split(w, rest)) == AllLeaves(truncated, [w] + rest)
  {
    var left, right := Window(w.start, Cut(w)), Window(Cut(w), w.end);
    SplitIsCons(w, rest);
    AllLeavesCons(truncated, w, rest);
    AllLeavesCons(truncated, right, rest);
    AllLeavesCons(truncated, left, [right] + rest);
    if Leaves(truncated, left).Some? && Leaves(truncated, right).Some? && AllLeaves(truncated, rest).Some? {
      var a, b, c := Leaves(truncated, left).value, Leaves(truncated, right).value, AllLeaves(truncated, rest).value;
      assert a + (b + c) == (a + b) + c;
    }
  }

  /** Splitting the first pending window moves one query from the budget to the bill and does not change the leaves. */
  lemma SplitStep(truncated: Window -> bool, w: Window, rest: seq<Window>, to: int)
    requires truncated(w) && Days(w) >= 2 && Tiles(rest, w.end, to)
    ensures Tiles(Split(w, rest), w.start, to)
    ensures Budget(Split(w, rest)) == Budget([w] + rest) - 1
    ensures AllLeaves(truncated, Split(w, rest)) == AllLeaves(truncated, [w] + rest)
    ensures 0 <= Days(Split(w, rest)[1]) - Days(Split(w, rest)[0]) <= 1
  {
    SplitTiles(w, rest, to);
    SplitBudget(w, rest);
    SplitLeaves(truncated, w, rest);
  }

  /** What is delivered and what the pending windows will give make up the goal. */
  ghost predicate OnTheWay(
    truncated: Window -> bool, goal: Option<seq<Window>>, batches: seq<Window>, pending: seq<Window>)
  {
    var rest := AllLeaves(truncated, pending);
    (goal.Some? <==> rest.Some?) && (goal.Some? ==> goal.value == batches + rest.value)
  }

  lemma Delivered(
      truncated: Window -> bool, goal: Option<seq<Window>>, batches: seq<Window>, w: Window, rest: seq<Window>)
    requires OnTheWay(truncated, goal, batches, [w] + rest) && !truncated(w)
    ensures OnTheWay(truncated, goal, batches + [w], rest)
  {
    AllLeavesCons(truncated, w, rest);
    if goal.Some? {
      var c := AllLeaves(truncated, rest).value;
      assert batches + ([w] + c) == (batches + [w]) + c;
    }
  }

  lemma NothingToDeliver(
      truncated: Window -> bool, goal: Option<seq<Window>>, batches: seq<Window>, w: Window, rest: seq<Window>)
    requires OnTheWay(truncated, goal, batches, [w] + rest) && truncated(w) && Days(w) <= 1
    ensures goal.None?
  {
    AllLeavesCons(truncated, w, rest);
  }

  /** The worklist itself, on any windows that follow one another. */
  method WorkOff(windows: seq<Window>, start: int, end: int, truncated: Window -> bool)
    returns (batches: seq<Window>, calls: nat, ok: bool)
    requires Tiles(windows, start, end)
    ensures calls <= Budget(windows)
    ensures ok <==> AllLeaves(truncated, windows).Some?
    ensures ok ==> batches == AllLeaves(truncated, windows).value
  {
    var pending := windows;
    batches, calls := [], 0;
    ghost var cursor := start;
    ghost var goal := AllLeaves(truncated, windows);
    BudgetNonNegative(pending, start, end);
    while |pending| > 0
      invariant Tiles(pending, cursor, end)
      invariant calls + Budget(pending) <= Budget(windows)
      invariant Budget(pending) >= 0
      invariant OnTheWay(truncated, goal, batches, pending)
      decreases Budget(pending)
    {
      var w, rest := pending[0], pending[1..];
      assert pending == [w] + rest;
      BudgetCons(w, rest);
      BudgetNonNegative(rest, w.end, end);
      calls := calls + 1;
      if truncated(w) {
        if Days(w) <= 1 {
          NothingToDeliver(truncated, goal, batches, w, rest);
          return batches, calls, false;
        }
        SplitStep(truncated, w, rest, end);
        pending := [Window(w.start, Cut(w)), Window(Cut(w), w.end)] + rest;
        BudgetNonNegative(pending, cursor, end);
      } else {
        Delivered(truncated, goal, batches, w, rest);
        batches := batches + [w];
        pending := rest;
        cursor := w.end;
      }
    }
    assert batches + [] == batches;
    return batches, calls, true;
  }

  /**
   `_query_sample_batches`: it makes at most 2 * days - ceil(days / 30) queries; it delivers exactly the reference
   leaves, which tile the window in order with untruncated batches of at most a month; and it fails exactly when the
   reference does, which takes a single day whose answer is truncated.
   */
  method QueryBatches(start: int, end: int, truncated: Window -> bool)
    returns (batches: seq<Window>, calls: nat, ok: bool)
    requires start <= end
    ensures calls <= 2 * (end - start) - (end - start + MONTH - 1) / MONTH
    ensures ok <==> AllLeaves(truncated, Months(start, end)).Some?
    ensures ok ==> batches == AllLeaves(truncated, Months(start, end)).value
    ensures ok ==> Tiles(batches, start, end)
    ensures ok ==> forall i | 0 <= i < |batches| :: !truncated(batches[i]) && Days(batches[i]) <= MONTH
    ensures !ok ==> exists d | start <= d < end :: truncated(OneDay(d))
  {
    var pending := FirstWindows(start, end);
    MonthsTile(start, end);
    AllLeavesTile(truncated, pending, start, end);
    batches, calls, ok := WorkOff(pending, start, end, truncated);
  }
}
