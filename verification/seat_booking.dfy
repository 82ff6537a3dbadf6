/**
 * The seat allocator of the booking widget: a fixed seating chart of seven
 * numbered rows, the request "book `count` adjacent seats for one party", and
 * the full reset.
 *
 * The widget keeps the chart as state and replaces it wholesale; here the
 * chart is a value and every operation returns the new chart. A failed
 * allocation (the widget's alert) is `ok == false` with the chart unchanged.
 */
module SeatBooking {
  import opened Rows

  /** A row of the chart: its number as shown to the user, and its seats left to right. */
  datatype Row = Row(rowNumber: int, seats: seq<bool>)

  /** The chart: its rows in display order. */
  type Chart = seq<Row>

  /** The outcome of an allocation request: the new chart and whether seats were booked. */
  datatype Booking = Booking(rows: Chart, ok: bool)

  /** Where a block of seats starts: a row index of the chart and a seat index in that row. */
  datatype Place = Place(row: nat, start: nat)

  /** Index in the chart of row 7, the short row that the three-seat rule looks at first. */
  const RowSeven: nat := 6

  /** Seats in row `rowNumber` of the fixed layout: rows 1 to 6 have 7, row 7 has 3. */
  function SeatsInRow(rowNumber: int): nat
  {
    if rowNumber == 7 then 3 else 7
  }

  /** The fixed layout: rows numbered 1 to 7 in order, each with its number of seats. */
  predicate Layout(chart: Chart)
  {
    && |chart| == 7
    && forall r :: 0 <= r < |chart| ==>
         chart[r].rowNumber == r + 1 && |chart[r].seats| == SeatsInRow(r + 1)
  }

  /** Every seat of the chart is available. */
  predicate AllFree(chart: Chart)
  {
    forall r, j :: 0 <= r < |chart| && 0 <= j < |chart[r].seats| ==> !chart[r].seats[j]
  }

  /** Same rows, same row numbers and same number of seats in each row. */
  predicate SameShape(a: Chart, b: Chart)
  {
    && |a| == |b|
    && forall r :: 0 <= r < |a| ==>
         a[r].rowNumber == b[r].rowNumber && |a[r].seats| == |b[r].seats|
  }

  /** `b` has the shape of `a` and every seat occupied in `a` is still occupied in `b`. */
  predicate Grows(a: Chart, b: Chart)
  {
    && SameShape(a, b)
    && forall r, j :: 0 <= r < |a| && 0 <= j < |a[r].seats| && a[r].seats[j] ==> b[r].seats[j]
  }

  /** Number of available seats in the whole chart. */
  function TotalFree(chart: Chart): nat
  {
    if chart == [] then 0
    else TotalFree(chart[..|chart| - 1]) + FreeCount(chart[|chart| - 1].seats)
  }

  /** `chart` with the seats of row index `r` replaced by `seats`. */
  function Reseat(chart: Chart, r: nat, seats: seq<bool>): Chart
    requires r < |chart|
  {
    chart[r := chart[r].(seats := seats)]
  }

  // ---------------------------------------------------------------------------
  // Initial chart and reset

  /** Builds the chart the widget starts with: six rows of 7 seats, then row 7 with 3, all available. */
  method InitialRows() returns (rows: Chart)
    ensures Layout(rows) && AllFree(rows)
  {
    rows := [];
    for row := 1 to 7
      invariant |rows| == row - 1
      invariant forall r :: 0 <= r < |rows| ==> rows[r] == Row(r + 1, Vacant(7))
    {
      rows := rows + [Row(row, Vacant(7))];
    }
    rows := rows + [Row(7, Vacant(3))];
  }

  /** The chart `rows` with the same row numbers and seat counts and every seat available. */
  function Reset(rows: Chart): (cleared: Chart)
    ensures SameShape(rows, cleared) && AllFree(cleared)
  {
    seq(|rows|, r requires 0 <= r < |rows| => Row(rows[r].rowNumber, Vacant(|rows[r].seats|)))
  }

  /** Resetting twice gives the chart that resetting once gives. */
  lemma ResetIdempotent(rows: Chart)
    ensures Reset(Reset(rows)) == Reset(rows)
  {
  }

  /**
   * Reset looks only at the shape of the chart, never at which seats are taken:
   * resetting the initial rows and resetting any chart of the same shape agree.
   */
  lemma ResetIgnoresOccupancy(a: Chart, b: Chart)
    requires SameShape(a, b)
    ensures Reset(a) == Reset(b)
  {
  }

  /** A freshly built chart is its own reset. */
  lemma FreshChartIsReset(chart: Chart)
    requires Layout(chart) && AllFree(chart)
    ensures Reset(chart) == chart
  {
    forall r | 0 <= r < |chart| ensures Reset(chart)[r] == chart[r] {
      assert chart[r].seats == Vacant(|chart[r].seats|);
    }
  }

  /** A freshly built chart has 45 available seats: six rows of 7 and one of 3. */
  lemma FreshChartHasFortyFiveSeats(chart: Chart)
    requires Layout(chart) && AllFree(chart)
    ensures TotalFree(chart) == 45
  {
    FreshRowFree(chart, 0);
    FreshRowFree(chart, 1);
    FreshRowFree(chart, 2);
    FreshRowFree(chart, 3);
    FreshRowFree(chart, 4);
    FreshRowFree(chart, 5);
    FreshRowFree(chart, 6);
    assert chart[..7] == chart;
  }

  /** In a fresh chart, the first `r + 1` rows have all their seats available. */
  lemma FreshRowFree(chart: Chart, r: nat)
    requires Layout(chart) && AllFree(chart) && r < 7
    ensures TotalFree(chart[..r + 1]) == TotalFree(chart[..r]) + SeatsInRow(r + 1)
  {
    assert chart[r].seats == Vacant(SeatsInRow(r + 1));
    FreeCountVacant(SeatsInRow(r + 1));
    TotalFreeStep(chart, r);
  }

  /** Adding one row to a prefix of the chart adds that row's available seats. */
  lemma TotalFreeStep(chart: Chart, k: nat)
    requires k < |chart|
    ensures TotalFree(chart[..k + 1]) == TotalFree(chart[..k]) + FreeCount(chart[k].seats)
  {
    assert chart[..k + 1][..k] == chart[..k];
  }

  /** Charts of the same shape as a chart with the layout have the layout too. */
  lemma SameShapeKeepsLayout(a: Chart, b: Chart)
    requires Layout(a) && SameShape(a, b)
    ensures Layout(b)
  {
  }

  // ---------------------------------------------------------------------------
  // Allocation: specification

  /** The three-seat rule applies: three seats asked for and row 7 has at least three available. */
  predicate RowSevenApplies(chart: Chart, count: int)
  {
    count == 3 && RowSeven < |chart| && FreeCount(chart[RowSeven].seats) >= 3
  }

  /**
   * The first place, scanning rows from index `from` in order and seats left to
   * right, where `count` adjacent seats are available.
   */
  function FirstFitFrom(chart: Chart, count: int, from: nat): (p: Option<Place>)
    decreases |chart| - from
    ensures p.Some? ==> from <= p.value.row < |chart|
    ensures p.Some? ==> FreeRun(chart[p.value.row].seats, p.value.start, count)
    ensures p.Some? ==> forall t :: 0 <= t < p.value.start ==> !FreeRun(chart[p.value.row].seats, t, count)
    ensures p.Some? ==> forall q, t :: from <= q < p.value.row ==> !FreeRun(chart[q].seats, t, count)
    ensures p.None? ==> forall q, t :: from <= q < |chart| ==> !FreeRun(chart[q].seats, t, count)
  {
    if from >= |chart| then None
    else match FirstRunFrom(chart[from].seats, count, 0)
      case Some(s) => Some(Place(from, s))
      case None => FirstFitFrom(chart, count, from + 1)
  }

  /**
   * What an allocation request does: the three-seat rule for row 7 first, then
   * the first block of `count` adjacent available seats, otherwise nothing.
   */
  function Allocation(chart: Chart, count: int): Booking
    requires count == 3 ==> RowSeven < |chart|
  {
    if RowSevenApplies(chart, count) then
      Booking(Reseat(chart, RowSeven, OccupyFirstFree(chart[RowSeven].seats, 3)), true)
    else match FirstFitFrom(chart, count, 0)
      case Some(p) => Booking(Reseat(chart, p.row, OccupyRun(chart[p.row].seats, p.start, count)), true)
      case None => Booking(chart, false)
  }

  /** Every seat before seat `j` of row index `q`, in reading order, is occupied, and that seat is available. */
  predicate EarliestFree(chart: Chart, q: int, j: int)
  {
    && 0 <= q < |chart|
    && 0 <= j < |chart[q].seats|
    && !chart[q].seats[j]
    && (forall q', j' :: 0 <= q' < q && 0 <= j' < |chart[q'].seats| ==> chart[q'].seats[j'])
    && (forall j' :: 0 <= j' < j ==> chart[q].seats[j'])
  }

  /** Some seat of the chart is available. */
  predicate SomeSeatFree(chart: Chart)
  {
    exists q, j :: 0 <= q < |chart| && 0 <= j < |chart[q].seats| && !chart[q].seats[j]
  }

  // ---------------------------------------------------------------------------
  // Allocation: the procedure

  /**
   * Books the first available seat of the chart, scanning rows in order and
   * seats left to right; fails, leaving the chart as it is, when every seat is taken.
   */
  method BookFirstFreeSeat(rows: Chart) returns (newRows: Chart, ok: bool)
    ensures ok <==> SomeSeatFree(rows)
    ensures !ok ==> newRows == rows
    ensures ok ==> exists q, j :: EarliestFree(rows, q, j) && newRows == Reseat(rows, q, rows[q].seats[j := true])
  {
    newRows := rows;
    var r := 0;
    while r < |rows|
      invariant 0 <= r <= |rows|
      invariant forall q, j :: 0 <= q < r && 0 <= j < |rows[q].seats| ==> rows[q].seats[j]
    {
      var seats := rows[r].seats;
      var i := 0;
      while i < |seats|
        invariant 0 <= i <= |seats|
        invariant forall j :: 0 <= j < i ==> seats[j]
      {
        if !seats[i] {
          assert EarliestFree(rows, r, i);
          newRows := Reseat(rows, r, seats[i := true]);
          ok := true;
          return;
        }
        i := i + 1;
      }
      r := r + 1;
    }
    ok := false;
  }

  /**
   * The three-seat rule's loop: walks row 7 left to right, occupying each
   * available seat until three have been booked.
   */
  method BookFirstThreeFree(row: seq<bool>) returns (seats: seq<bool>)
    ensures seats == OccupyFirstFree(row, 3)
  {
    seats := row;
    var booked := 0;
    var i := 0;
    while i < |seats| && booked < 3
      invariant 0 <= i <= |seats| == |row|
      invariant booked == FreeCount(row[..i]) <= 3
      invariant forall j :: 0 <= j < i ==> seats[j] == OccupyFirstFree(row, 3)[j]
      invariant forall j :: i <= j < |seats| ==> seats[j] == row[j]
    {
      FreeCountStep(row, i);
      if !seats[i] {
        seats := seats[i := true];
        booked := booked + 1;
      }
      i := i + 1;
    }
    forall j | i <= j < |seats| ensures seats[j] == OccupyFirstFree(row, 3)[j] {
      FreeCountPrefixMono(row, i, j);
    }
  }

  /**
   * The scan of one row: counts the available seats of the current run
   * (`consecutiveAvailable`, starting at `startIndex`), and stops at the first
   * run that reaches `count`. Yields -1 when the row has no such run.
   */
  method FindRun(seats: seq<bool>, count: int) returns (startIndex: int)
    ensures startIndex == -1 ==> forall t :: !FreeRun(seats, t, count)
    ensures startIndex != -1 ==> FreeRun(seats, startIndex, count)
    ensures startIndex != -1 ==> forall t :: 0 <= t < startIndex ==> !FreeRun(seats, t, count)
  {
    var consecutiveAvailable := 0;
    startIndex := -1;
    var i := 0;
    while i < |seats|
      invariant 0 <= i <= |seats|
      invariant 0 <= consecutiveAvailable <= i
      invariant 1 <= count ==> consecutiveAvailable < count
      invariant forall j :: i - consecutiveAvailable <= j < i ==> !seats[j]
      invariant consecutiveAvailable < i ==> seats[i - consecutiveAvailable - 1]
      invariant startIndex == if consecutiveAvailable == 0 then -1 else i - consecutiveAvailable
      invariant forall t :: t + count <= i ==> !FreeRun(seats, t, count)
    {
      if !seats[i] {
        if startIndex == -1 {
          startIndex := i;
        }
        consecutiveAvailable := consecutiveAvailable + 1;
        if consecutiveAvailable == count {
          return;
        }
        if 0 <= i + 1 - count {
          assert !FreeRun(seats, i + 1 - count, count) by {
            if consecutiveAvailable < i + 1 {
              assert seats[i - consecutiveAvailable];
            }
          }
        }
      } else {
        if 0 <= i + 1 - count {
          assert !FreeRun(seats, i + 1 - count, count) by {
            assert seats[i];
          }
        }
        consecutiveAvailable := 0;
        startIndex := -1;
      }
      i := i + 1;
    }
    startIndex := -1;
  }

  /** The booking loop: occupies seats `start .. start + count - 1` one by one. */
  method BookBlock(seats: seq<bool>, start: nat, count: int) returns (booked: seq<bool>)
    requires start + count <= |seats|
    ensures booked == OccupyRun(seats, start, count)
  {
    booked := seats;
    var j := start;
    while j < start + count
      invariant |booked| == |seats|
      invariant start <= j <= start + count || (count <= 0 && j == start)
      invariant forall k :: 0 <= k < |seats| ==> booked[k] == (seats[k] || start <= k < j)
    {
      booked := booked[j := true];
      j := j + 1;
    }
  }

  /**
   * Allocates `count` seats for one party. With `count == 3`, row 7 is tried first
   * and its first three available seats are taken, adjacent or not; otherwise the
   * rows are scanned in order for the first run of `count` adjacent available
   * seats, which is booked. The single-seat rescan for `count == 1` comes last.
   * Nothing is changed on failure.
   */
  method AllocateSeats(rows: Chart, count: int) returns (newRows: Chart, ok: bool)
    requires count == 3 ==> RowSeven < |rows|
    ensures Booking(newRows, ok) == Allocation(rows, count)
  {
    newRows := rows;

    if count == 3 {
      var row7 := newRows[RowSeven];
      var availableSeats := FreeCount(row7.seats);
      if availableSeats >= 3 {
        var seats := BookFirstThreeFree(row7.seats);
        newRows := Reseat(newRows, RowSeven, seats);
        ok := true;
        return;
      }
    }

    var r := 0;
    while r < |newRows|
      invariant 0 <= r <= |newRows|
      invariant newRows == rows
      invariant forall q, t :: 0 <= q < r ==> !FreeRun(rows[q].seats, t, count)
    {
      var startIndex := FindRun(newRows[r].seats, count);
      if startIndex != -1 {
        var booked := BookBlock(newRows[r].seats, startIndex, count);
        FirstFitUnique(rows, count, r, startIndex);
        newRows := Reseat(newRows, r, booked);
        ok := true;
        return;
      }
      r := r + 1;
    }

    if count == 1 {
      FallbackUnreachable(rows);
      newRows, ok := BookFirstFreeSeat(newRows);
    } else {
      ok := false;
    }
  }

  // ---------------------------------------------------------------------------
  // Properties of allocation

  /**
   * The search picks a block by its position alone: a free block in row index `q`
   * starting at `s`, with no free block of that size in an earlier row nor further
   * left in the same row, is the one found.
   */
  lemma FirstFitUnique(chart: Chart, count: int, q: nat, s: nat)
    requires q < |chart| && FreeRun(chart[q].seats, s, count)
    requires forall q', t :: 0 <= q' < q ==> !FreeRun(chart[q'].seats, t, count)
    requires forall t :: 0 <= t < s ==> !FreeRun(chart[q].seats, t, count)
    ensures FirstFitFrom(chart, count, 0) == Some(Place(q, s))
  {
  }

  /**
   * With no block of one free seat anywhere the chart is full, so the single-seat
   * rescan that follows the general search can never book anything.
   */
  lemma FallbackUnreachable(chart: Chart)
    requires forall q, t :: 0 <= q < |chart| ==> !FreeRun(chart[q].seats, t, 1)
    ensures !SomeSeatFree(chart)
  {
    forall q, j | 0 <= q < |chart| && 0 <= j < |chart[q].seats| ensures chart[q].seats[j] {
      assert !FreeRun(chart[q].seats, j, 1);
    }
  }

  /**
   * Row 7 first: with three seats asked for and at least three available in row 7,
   * the first three available seats of row 7 are taken, whatever the other rows
   * hold, and no other row changes.
   */
  lemma RowSevenRule(chart: Chart)
    requires RowSeven < |chart| && FreeCount(chart[RowSeven].seats) >= 3
    ensures var b := Allocation(chart, 3);
      && b.ok
      && |b.rows| == |chart|
      && (forall r :: 0 <= r < |chart| && r != RowSeven ==> b.rows[r] == chart[r])
      && b.rows[RowSeven].rowNumber == chart[RowSeven].rowNumber
      && |b.rows[RowSeven].seats| == |chart[RowSeven].seats|
      && (forall j :: 0 <= j < |chart[RowSeven].seats| ==>
            b.rows[RowSeven].seats[j] == (chart[RowSeven].seats[j] || FreeCount(chart[RowSeven].seats[..j]) < 3))
      && FreeCount(b.rows[RowSeven].seats) == FreeCount(chart[RowSeven].seats) - 3
  {
    OccupyFirstFreeCount(chart[RowSeven].seats, 3);
  }

  /**
   * The general search: when the three-seat rule does not apply and the first free
   * block of `count` seats (lowest row, then leftmost) starts at seat `s` of row
   * index `q`, exactly those seats are taken and nothing else changes.
   */
  lemma GeneralSearchTakesFirstFit(chart: Chart, count: int, q: nat, s: nat)
    requires count == 3 ==> RowSeven < |chart|
    requires !RowSevenApplies(chart, count)
    requires q < |chart| && FreeRun(chart[q].seats, s, count)
    requires forall q', t :: 0 <= q' < q ==> !FreeRun(chart[q'].seats, t, count)
    requires forall t :: 0 <= t < s ==> !FreeRun(chart[q].seats, t, count)
    ensures var b := Allocation(chart, count);
      && b.ok
      && |b.rows| == |chart|
      && (forall r :: 0 <= r < |chart| && r != q ==> b.rows[r] == chart[r])
      && b.rows[q].rowNumber == chart[q].rowNumber
      && |b.rows[q].seats| == |chart[q].seats|
      && (forall j :: 0 <= j < |chart[q].seats| ==>
            b.rows[q].seats[j] == (chart[q].seats[j] || s <= j < s + count))
  {
  }

  /**
   * An allocation succeeds exactly when the three-seat rule applies or some row
   * holds `count` adjacent available seats; seats scattered over a row never do.
   */
  lemma AllocationSucceedsIff(chart: Chart, count: int)
    requires count == 3 ==> RowSeven < |chart|
    ensures Allocation(chart, count).ok <==>
      RowSevenApplies(chart, count) || exists q, t :: 0 <= q < |chart| && FreeRun(chart[q].seats, t, count)
  {
  }

  /** A single seat is booked exactly when some seat is available. */
  lemma SingleSeatIffSomeFree(chart: Chart)
    ensures Allocation(chart, 1).ok <==> SomeSeatFree(chart)
  {
    AllocationSucceedsIff(chart, 1);
    if SomeSeatFree(chart) {
      var q, j :| 0 <= q < |chart| && 0 <= j < |chart[q].seats| && !chart[q].seats[j];
      assert FreeRun(chart[q].seats, j, 1);
    }
    forall q, t | 0 <= q < |chart| && FreeRun(chart[q].seats, t, 1) ensures SomeSeatFree(chart) {
      assert !chart[q].seats[t];
    }
  }

  /** Replacing the seats of one row changes the chart's count of available seats by that row's difference. */
  lemma {:induction false} TotalFreeReseat(chart: Chart, r: nat, seats: seq<bool>)
    requires r < |chart|
    ensures TotalFree(Reseat(chart, r, seats)) == TotalFree(chart) - FreeCount(chart[r].seats) + FreeCount(seats)
  {
    var n := |chart| - 1;
    var c := Reseat(chart, r, seats);
    if r < n {
      assert c[..n] == Reseat(chart[..n], r, seats);
      TotalFreeReseat(chart[..n], r, seats);
    } else {
      assert c[..n] == chart[..n];
    }
  }

  /**
   * Allocation is all or nothing: on success the chart keeps its shape, no seat is
   * released and exactly `count` available seats become occupied; on failure the
   * chart is exactly what it was.
   */
  lemma AllocationAtomic(chart: Chart, count: int)
    requires count == 3 ==> RowSeven < |chart|
    ensures var b := Allocation(chart, count);
      && (b.ok ==> Grows(chart, b.rows) && TotalFree(b.rows) == TotalFree(chart) - count)
      && (!b.ok ==> b.rows == chart)
  {
    if RowSevenApplies(chart, count) {
      var s := chart[RowSeven].seats;
      OccupyFirstFreeCount(s, 3);
      ReseatTakes(chart, RowSeven, OccupyFirstFree(s, 3), 3);
    } else {
      var p := FirstFitFrom(chart, count, 0);
      if p.Some? {
        var s := chart[p.value.row].seats;
        OccupyRunCount(s, p.value.start, count);
        ReseatTakes(chart, p.value.row, OccupyRun(s, p.value.start, count), count);
      }
    }
  }

  /**
   * Replacing one row by a row of the same length that keeps every occupied seat
   * and has `k` fewer available seats takes exactly `k` seats from the chart.
   */
  lemma ReseatTakes(chart: Chart, r: nat, seats: seq<bool>, k: int)
    requires r < |chart| && |seats| == |chart[r].seats|
    requires forall j :: 0 <= j < |seats| && chart[r].seats[j] ==> seats[j]
    requires FreeCount(seats) == FreeCount(chart[r].seats) - k
    ensures Grows(chart, Reseat(chart, r, seats))
    ensures TotalFree(Reseat(chart, r, seats)) == TotalFree(chart) - k
  {
    TotalFreeReseat(chart, r, seats);
  }

  /** An allocation on a chart with the fixed layout leaves the layout as it was. */
  lemma AllocationKeepsLayout(chart: Chart, count: int)
    requires Layout(chart)
    ensures Layout(Allocation(chart, count).rows)
  {
  }

  // ---------------------------------------------------------------------------
  // Scenarios on the fixed layout

  /** On a fresh chart, three seats go to row 7, which becomes full. */
  lemma FreshChartThreeSeats(chart: Chart)
    requires Layout(chart) && AllFree(chart)
    ensures Allocation(chart, 3) == Booking(chart[RowSeven := Row(7, [true, true, true])], true)
  {
    var s := chart[RowSeven].seats;
    assert s == Vacant(3);
    FreeCountVacant(3);
    FreeCountVacant(0);
    FreeCountVacant(1);
    FreeCountVacant(2);
    assert s[..0] == Vacant(0) && s[..1] == Vacant(1) && s[..2] == Vacant(2);
    assert OccupyFirstFree(s, 3) == [true, true, true];
  }

  /** On a fresh chart, seven seats fill row 1. */
  lemma FreshChartSevenSeats(chart: Chart)
    requires Layout(chart) && AllFree(chart)
    ensures Allocation(chart, 7) == Booking(chart[0 := Row(1, [true, true, true, true, true, true, true])], true)
  {
    assert FreeRun(chart[0].seats, 0, 7);
    GeneralSearchTakesFirstFit(chart, 7, 0, 0);
    assert OccupyRun(chart[0].seats, 0, 7) == [true, true, true, true, true, true, true];
  }

  /**
   * Scattered seats do not make a block: with row 7 and every other row full
   * except seats 2, 4 and 6 of row 3, three seats cannot be booked.
   */
  lemma ScatteredSeatsRefused(chart: Chart)
    requires Layout(chart)
    requires forall r, j :: 0 <= r < |chart| && r != 2 && 0 <= j < |chart[r].seats| ==> chart[r].seats[j]
    requires chart[2].seats == [true, false, true, false, true, false, true]
    ensures Allocation(chart, 3) == Booking(chart, false)
  {
    assert FreeCount(chart[RowSeven].seats) == 0;
    forall q, t | 0 <= q < |chart| ensures !FreeRun(chart[q].seats, t, 3) {
      if 0 <= t && t + 1 < |chart[q].seats| {
        assert chart[q].seats[t] || chart[q].seats[t + 1];
      }
    }
    AllocationSucceedsIff(chart, 3);
  }
}
