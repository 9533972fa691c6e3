/**
 Expiry times of gps/utils/LocTimer.cpp: how start() computes them, and that the ranking of the
 timer heap is their order as long as the boot time stays in range.
 */
module TimerOrder {
  import HT = HeapTree

  datatype Timespec = Timespec(sec: int, nsec: int)

  const ZERO := Timespec(0, 0)
  const NANOS := 1_000_000_000
  const TWO_31 := 0x8000_0000
  const TWO_32 := 0x1_0000_0000

  // A delay is a 32-bit number of milliseconds; the boot time up to which every delay stays in range.
  const LATEST_START := TWO_31 - 4294968

  predicate Normal(t: Timespec) { 0 <= t.sec && 0 <= t.nsec < NANOS }

  // The times that the ranking tells apart; a timerfd takes ZERO for "disarm".
  predicate Usable(t: Timespec) { Normal(t) && t.sec < TWO_31 && t != ZERO }

  predicate Earlier(a: Timespec, b: Timespec) { a.sec < b.sec || (a.sec == b.sec && a.nsec < b.nsec) }

  function Nanos(t: Timespec): int { t.sec * NANOS + t.nsec }

  // The conversion of a long to int.
  function ToInt32(x: int): int { (x + TWO_31) % TWO_32 - TWO_31 }

  // a.ranks(b): a larger time ranks lower.
  function Ranks(a: Timespec, b: Timespec): int {
    var rank := ToInt32(b.sec - a.sec);
    if rank == 0 then ToInt32(b.nsec - a.nsec) else rank
  }

  lemma RanksIsOrder(a: Timespec, b: Timespec)
    requires Usable(a) && Usable(b)
    ensures Ranks(a, b) > 0 <==> Earlier(a, b)
    ensures Ranks(a, b) == 0 <==> a == b
  {
    SmallIsItself(b.sec - a.sec);
    SmallIsItself(b.nsec - a.nsec);
  }

  lemma SmallIsItself(x: int)
    requires -TWO_31 <= x < TWO_31
    ensures ToInt32(x) == x
  {
  }

  // The bound cannot be raised: a difference of 2^31 seconds turns the ranking round.
  lemma RanksTurnsRound(s: int, n: int)
    ensures Earlier(Timespec(s, n), Timespec(s + TWO_31, n)) && Ranks(Timespec(s, n), Timespec(s + TWO_31, n)) < 0
  {
  }

  function FutureTime(now: Timespec, timeOutInMs: nat): Timespec {
    var sec, nsec := now.sec + timeOutInMs / 1000, now.nsec + (timeOutInMs % 1000) * 1_000_000;
    if nsec >= NANOS then Timespec(sec + nsec / NANOS, nsec % NANOS) else Timespec(sec, nsec)
  }

  // start() adds the delay exactly, and what it computes can be ranked.
  lemma FutureTimeIsExact(now: Timespec, timeOutInMs: nat)
    requires Normal(now) && now != ZERO && now.sec < LATEST_START && timeOutInMs < TWO_32
    ensures Nanos(FutureTime(now, timeOutInMs)) == Nanos(now) + timeOutInMs * 1_000_000
    ensures Usable(FutureTime(now, timeOutInMs)) && !Earlier(FutureTime(now, timeOutInMs), now)
  {
    assert timeOutInMs == timeOutInMs / 1000 * 1000 + timeOutInMs % 1000;
    var nsec := now.nsec + (timeOutInMs % 1000) * 1_000_000;
    assert nsec < 2 * NANOS;
  }

  // ---------- Timers in the heap ----------

  datatype Delegate = Delegate(id: nat, time: Timespec)

  type Timer = t: Delegate | Usable(t.time) witness Delegate(0, Timespec(1, 0))

  predicate OutRanks(a: Timer, b: Timer) { Ranks(a.time, b.time) > 0 }

  // What LocHeap assumes of its ranking holds of timers.
  lemma TimersRankConsistently()
    ensures HT.RanksConsistently<Timer>(OutRanks)
  {
    forall x: Timer, y: Timer ensures OutRanks(x, y) ==> !OutRanks(y, x) {
      RanksIsOrder(x.time, y.time);
      RanksIsOrder(y.time, x.time);
    }
    forall x: Timer, y: Timer, z: Timer | !OutRanks(x, y) && !OutRanks(y, z) ensures !OutRanks(x, z) {
      RanksIsOrder(x.time, y.time);
      RanksIsOrder(y.time, z.time);
      RanksIsOrder(x.time, z.time);
    }
  }
}
