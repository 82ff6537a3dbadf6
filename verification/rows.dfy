/**
 * One row of the seating chart, seen as a sequence of occupancy flags:
 * `false` means the seat is available, `true` that it is occupied.
 * The allocator in module SeatBooking is built on the notions defined here:
 * how many seats of a row are available, where a block of adjacent available
 * seats starts, and what a row looks like once some of its seats are taken.
 */
module Rows {

  datatype Option<T> = None | Some(value: T)

  /** Number of available seats in `s` (the length of `s.filter(seat => !seat)`). */
  function FreeCount(s: seq<bool>): (n: nat)
    ensures n <= |s|
    ensures n == 0 <==> forall j :: 0 <= j < |s| ==> s[j]
  {
    if s == [] then 0
    else FreeCount(s[..|s| - 1]) + (if s[|s| - 1] then 0 else 1)
  }

  /** Seats `start .. start + count - 1` exist, are at least one, and are all available. */
  predicate FreeRun(s: seq<bool>, start: int, count: int)
  {
    && 1 <= count
    && 0 <= start
    && start + count <= |s|
    && forall j :: start <= j < start + count ==> !s[j]
  }

  /** The leftmost start, at or after `from`, of `count` adjacent available seats. */
  function FirstRunFrom(s: seq<bool>, count: int, from: nat): (r: Option<nat>)
    decreases |s| - from
    ensures r.Some? ==> from <= r.value && FreeRun(s, r.value, count)
    ensures r.Some? ==> forall t :: from <= t < r.value ==> !FreeRun(s, t, count)
    ensures r.None? ==> forall t :: from <= t ==> !FreeRun(s, t, count)
  {
    if count < 1 || from + count > |s| then None
    else if FreeRun(s, from, count) then Some(from)
    else FirstRunFrom(s, count, from + 1)
  }

  /** `s` with seats `start .. start + count - 1` occupied and every other seat as it was. */
  function OccupyRun(s: seq<bool>, start: int, count: int): seq<bool>
  {
    seq(|s|, j requires 0 <= j < |s| => s[j] || (start <= j < start + count))
  }

  /**
   * `s` with its first `k` available seats, scanning left to right, occupied:
   * seat `j` is taken exactly when fewer than `k` seats before it were available.
   */
  function OccupyFirstFree(s: seq<bool>, k: int): seq<bool>
  {
    seq(|s|, j requires 0 <= j < |s| => s[j] || FreeCount(s[..j]) < k)
  }

  /** A row of `n` available seats (`Array(n).fill(false)`). */
  function Vacant(n: nat): (s: seq<bool>)
    ensures |s| == n && forall j :: 0 <= j < n ==> !s[j]
  {
    seq(n, _ => false)
  }

  // ---------------------------------------------------------------------------
  // Counting available seats

  /** Extending a prefix by one seat adds one to the count exactly when that seat is available. */
  lemma FreeCountStep(s: seq<bool>, i: nat)
    requires i < |s|
    ensures FreeCount(s[..i + 1]) == FreeCount(s[..i]) + (if s[i] then 0 else 1)
  {
    assert s[..i + 1][..i] == s[..i];
  }

  /** A longer prefix never has fewer available seats. */
  lemma {:induction false} FreeCountPrefixMono(s: seq<bool>, i: nat, j: nat)
    requires i <= j <= |s|
    ensures FreeCount(s[..i]) <= FreeCount(s[..j])
  {
    if i < j {
      FreeCountPrefixMono(s, i, j - 1);
      FreeCountStep(s, j - 1);
    }
  }

  /** A row of available seats has all of them available. */
  lemma {:induction false} FreeCountVacant(n: nat)
    ensures FreeCount(Vacant(n)) == n
  {
    if n > 0 {
      FreeCountVacant(n - 1);
      assert Vacant(n)[..n - 1] == Vacant(n - 1);
    }
  }

  /**
   * Occupying the first `k` available seats takes `k` of them, or all of them
   * when fewer than `k` are available.
   */
  lemma {:induction false} OccupyFirstFreeCount(s: seq<bool>, k: nat)
    ensures FreeCount(OccupyFirstFree(s, k)) == if FreeCount(s) <= k then 0 else FreeCount(s) - k
  {
    if s != [] {
      var n := |s| - 1;
      var p := s[..n];
      var o := OccupyFirstFree(s, k);
      forall j | 0 <= j < n ensures o[..n][j] == OccupyFirstFree(p, k)[j] {
        assert s[..j] == p[..j];
      }
      assert o[..n] == OccupyFirstFree(p, k);
      OccupyFirstFreeCount(p, k);
    }
  }

  /**
   * Occupying a block whose seats (as far as the row reaches) are all available
   * takes exactly the seats of the block that lie inside the row.
   */
  lemma {:induction false} OccupyRunPrefixCount(s: seq<bool>, start: nat, count: nat)
    requires forall j :: start <= j < start + count && j < |s| ==> !s[j]
    ensures FreeCount(OccupyRun(s, start, count)) ==
            FreeCount(s) - (if |s| <= start then 0 else if |s| <= start + count then |s| - start else count)
  {
    if s != [] {
      var n := |s| - 1;
      var p := s[..n];
      assert OccupyRun(s, start, count)[..n] == OccupyRun(p, start, count);
      OccupyRunPrefixCount(p, start, count);
    }
  }

  /** Occupying a free block of `count` seats takes exactly `count` available seats. */
  lemma OccupyRunCount(s: seq<bool>, start: int, count: int)
    requires FreeRun(s, start, count)
    ensures FreeCount(OccupyRun(s, start, count)) == FreeCount(s) - count
  {
    OccupyRunPrefixCount(s, start, count);
  }
}
