# Seat allocator of the seat-booking widget

This project models the seat allocator of a small booking widget. The widget has a
fixed seating chart of seven numbered rows. Rows 1 to 6 have 7 seats each and
row 7 has 3, so the chart has 45 seats. Each seat is a flag, and `false` means the
seat is available. The user asks for a number of seats for one party. The allocator
then applies three rules in order:

1. If the party has 3 people and row 7 has at least three available seats, it takes
   the first three available seats of row 7. They do not need to be adjacent.
2. Otherwise it scans the rows in order and each row's seats left to right. It
   counts the length of the current run of available seats (`consecutiveAvailable`,
   starting at `startIndex`). It books the first run that reaches the party size.
3. If that scan finds nothing and the party has 1 person, it scans again for any
   available seat.

When no rule books anything, the chart stays as it was and the user sees an alert.
"Reset All" rebuilds the chart with the same rows and every seat available.

The model is in two modules:

- `Rows` (`rows.dfy`) works on one row of seats. It counts the available seats,
  defines a free block of adjacent seats and the leftmost such block, and describes
  a row after a block, or its first `k` available seats, have been occupied.
- `SeatBooking` (`seat_booking.dfy`) works on the whole chart. It has the row
  datatype, the fixed layout and the construction of the initial chart. `Reset` is
  a function. `Allocation` is the specification of an allocation request.
  `AllocateSeats` is the allocation procedure, a method built from the source's
  loops and proved equal to `Allocation`. The lemmas state what the allocator
  promises.

The widget keeps the chart as React state. It deep-copies the chart, mutates the
copy and stores it. Here the chart is a value (`seq<Row>`), and each operation
returns the new chart. An allocation returns the pair `(newRows, ok)`, and
`ok == false` stands for the alert.

## Model

| member | source | states |
|---|---|---|
| `SeatBooking.InitialRows` | src/components/SeatBooking.js:5-17 | The initial chart has 7 rows numbered 1 to 7 in order. Rows 1 to 6 have 7 seats, row 7 has 3, and every seat is available. |
| `SeatBooking.FreshChartHasFortyFiveSeats` | src/components/SeatBooking.js:5-17 | A freshly built chart has exactly 45 available seats. |
| `SeatBooking.Reset` | src/components/SeatBooking.js:86-91 | A reset keeps the number of rows, every row number and every row's seat count, and makes every seat available. |
| `SeatBooking.ResetIdempotent` | src/components/SeatBooking.js:86-91 | Resetting twice gives the same chart as resetting once. |
| `SeatBooking.ResetIgnoresOccupancy` | src/components/SeatBooking.js:86-91 | Two charts of the same shape reset to the same chart. So resetting the initial rows, as the source does, equals resetting the current chart. |
| `SeatBooking.FreshChartIsReset` | src/components/SeatBooking.js:86-91 | A chart with the fixed layout and all seats available is unchanged by a reset. |
| `SeatBooking.SameShapeKeepsLayout` | src/components/SeatBooking.js:5-17 | A chart with the shape of a chart that has the fixed layout also has that layout. |
| `Rows.FreeCount` | src/components/SeatBooking.js:29 | The number of available seats in a row is at most the row's length. It is zero exactly when every seat is occupied. |
| `Rows.FirstRunFrom` | src/components/SeatBooking.js:50-62 | The start it returns begins a block of `count` adjacent available seats, and no block starts further left. When it returns nothing, the row has no such block. |
| `Rows.OccupyFirstFreeCount` | src/components/SeatBooking.js:33-39 | Occupying the first `k` available seats takes `k` available seats, or all of them when fewer than `k` remain. |
| `Rows.OccupyRunCount` | src/components/SeatBooking.js:57-59 | Occupying a free block of `count` seats takes exactly `count` available seats. |
| `SeatBooking.FirstFitFrom` | src/components/SeatBooking.js:46-68 | The place it returns holds a free block of `count` seats. No earlier row has such a block, and no block in that row starts further left. When it returns nothing, no row has such a block. |
| `SeatBooking.BookFirstThreeFree` | src/components/SeatBooking.js:33-39 | The loop over row 7 with the counter `booked` occupies exactly the first three available seats, scanning left to right. |
| `SeatBooking.FindRun` | src/components/SeatBooking.js:47-66 | The scan with `consecutiveAvailable` and `startIndex` stops at the leftmost block of `count` adjacent available seats. When it yields -1, the row has no such block. |
| `SeatBooking.BookBlock` | src/components/SeatBooking.js:57-59 | The booking loop occupies seats `startIndex .. startIndex + count - 1` and changes no other seat. |
| `SeatBooking.BookFirstFreeSeat` | src/components/SeatBooking.js:71-81 | The single-seat rescan succeeds exactly when some seat is available. It then books the first available seat in reading order. On failure it leaves the chart unchanged. |
| `SeatBooking.AllocateSeats` | src/components/SeatBooking.js:22-84 | The allocation procedure returns exactly the chart and success flag that the specification `Allocation` gives. |
| `SeatBooking.FirstFitUnique` | src/components/SeatBooking.js:46-62 | A free block in the lowest row that has one, and leftmost in that row, is the place the search finds. |
| `SeatBooking.RowSevenRule` | src/components/SeatBooking.js:27-42 | For 3 seats with at least three available in row 7, the request succeeds even if an earlier row has a free block. Exactly the first three available seats of row 7 become occupied, and every other row is unchanged. |
| `SeatBooking.GeneralSearchTakesFirstFit` | src/components/SeatBooking.js:46-62 | When the row-7 rule does not apply, the request books exactly the seats `s .. s + count - 1` of the first fitting row. These were free before and are adjacent, and all other seats keep their state. |
| `SeatBooking.AllocationSucceedsIff` | src/components/SeatBooking.js:27-83 | A request succeeds if and only if the row-7 rule applies or some row holds `count` adjacent available seats. Scattered available seats are not enough. |
| `SeatBooking.SingleSeatIffSomeFree` | src/components/SeatBooking.js:46-81 | A one-seat request succeeds if and only if some seat is available. |
| `SeatBooking.FallbackUnreachable` | src/components/SeatBooking.js:71-81 | If the general search finds no block of one seat, every seat is occupied. The single-seat rescan then books nothing. |
| `SeatBooking.AllocationAtomic` | src/components/SeatBooking.js:24-83 | On success, the shape is kept, no seat is released and exactly `count` available seats become occupied. On failure, the chart is identical to the input. |
| `SeatBooking.AllocationKeepsLayout` | src/components/SeatBooking.js:24-61 | An allocation on a chart with the fixed layout keeps the layout: the same row numbers and the same seat counts. |
| `SeatBooking.FreshChartThreeSeats` | src/components/SeatBooking.js:27-42 | On a fresh chart, a request for 3 seats fills row 7 and leaves every other row unchanged. |
| `SeatBooking.FreshChartSevenSeats` | src/components/SeatBooking.js:46-62 | On a fresh chart, a request for 7 seats fills row 1 and leaves every other row unchanged. |
| `SeatBooking.ScatteredSeatsRefused` | src/components/SeatBooking.js:46-83 | Take a chart where only seats 2, 4 and 6 of row 3 are available. A request for 3 seats fails and the chart is unchanged. |

## Left out

- React state (`useState`, `setRows`, `setPassengerCount`) is not modelled. Operations return the new chart instead of storing it.
- The `alert` call is not modelled. A failed allocation returns `ok == false` with the chart unchanged.
- The JSON deep copy is value semantics. The chart is a `seq` of datatype values, so mutating the copy cannot affect the caller's chart, and aliasing does not arise.
- The `parseInt` of the select control's value is not modelled. `count` is an integer input of any value, including values outside 1 to 7. Such values fall through to failure, as in the source.
- `AllocateSeats` requires row 7 to exist when `count == 3`. The source reads `newRows[6]` in that case and would throw on a shorter chart.
- In the source the three loops of `allocateSeats` are written inline. Here they are the methods `BookFirstThreeFree`, `FindRun` and `BookBlock`, called by `AllocateSeats` at the same points and with the same counters.
- The single-seat rescan is called only when `count == 1`, as in the source. `AllocateSeats` proves that it books nothing there.
- The JSX rendering, the CSS import and src/index.js (the React DOM bootstrap) are not modelled. They are user interface only.
