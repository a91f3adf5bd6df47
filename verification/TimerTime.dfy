/**
 The time arithmetic of gps/utils/LocTimer.cpp: LocTimer::start() and LocTimerDelegate::ranks().
 The clock never goes negative. tv_sec may have 32 or 64 bits; the timer service is modelled for a
 clock whose times, with any timeout added, fit 31 bits.
 */
module TimerTime {

  import opened Wrappers

  const NSEC_PER_SEC := 1_000_000_000
  const MAX_TIMEOUT_SEC := 4_294_968

  datatype RawTime = Time(sec: int, nsec: int)

  predicate Normalised(t: RawTime) {
    0 <= t.nsec < NSEC_PER_SEC
  }

  /** A normalised time whose seconds fit 31 bits. */
  type Timespec = t: RawTime | Normalised(t) && 0 <= t.sec < TWO_TO_THE_31 witness Time(0, 0)

  /** What the boot clock shows: short of 68 years, so that every due time is a Timespec. */
  type Clock = t: Timespec | t.sec < TWO_TO_THE_31 - MAX_TIMEOUT_SEC witness Time(0, 0)

  type Uint32 = x: int | 0 <= x < TWO_TO_THE_32

  function Nanos(t: RawTime): int {
    t.sec * NSEC_PER_SEC + t.nsec
  }

  /** Before, in lexicographic order. */
  predicate Earlier(a: RawTime, b: RawTime) {
    a.sec < b.sec || (a.sec == b.sec && a.nsec < b.nsec)
  }

  /** The value that remains when a wider integer is stored in an int. */
  function Int32(x: int): (r: int)
    ensures -TWO_TO_THE_31 <= r < TWO_TO_THE_31
    ensures -TWO_TO_THE_31 <= x < TWO_TO_THE_31 ==> r == x
  {
    (x + TWO_TO_THE_31) % TWO_TO_THE_32 - TWO_TO_THE_31
  }

  /** a.ranks(b): the earlier time ranks higher. */
  function RankTimes(a: RawTime, b: RawTime): int {
    var rank := Int32(b.sec - a.sec);
    if rank == 0 then Int32(b.nsec - a.nsec) else rank
  }

  /** While the seconds are less than 2^31 apart, ranks() is exactly the reversed time order. */
  lemma RanksIsTimeOrder(a: RawTime, b: RawTime)
    requires Normalised(a) && Normalised(b)
    requires -TWO_TO_THE_31 < b.sec - a.sec < TWO_TO_THE_31
    ensures RankTimes(a, b) > 0 <==> Earlier(a, b)
    ensures RankTimes(a, b) == 0 <==> a == b
    ensures Earlier(a, b) <==> Nanos(a) < Nanos(b)
  {
    assert -TWO_TO_THE_31 <= b.nsec - a.nsec < TWO_TO_THE_31;
  }

  /**
   With a 64-bit tv_sec the difference of the seconds is cut to 32 bits. ranks() is right if and
   only if that leaves its sign, or leaves 0 and the nanoseconds happen to agree.
   */
  lemma RanksRightExactly(a: RawTime, b: RawTime)
    requires Normalised(a) && Normalised(b)
    ensures var d := b.sec - a.sec; var r := Int32(d);
      (RankTimes(a, b) > 0 <==> Earlier(a, b)) && (RankTimes(a, b) == 0 <==> a == b)
      <==>
      || d == 0
      || (d > 0 && (r > 0 || (r == 0 && a.nsec < b.nsec)))
      || (d < 0 && (r < 0 || (r == 0 && b.nsec < a.nsec)))
  {
    assert Int32(b.nsec - a.nsec) == b.nsec - a.nsec;
  }

  /** At 2^31 seconds the earlier time ranks lower, at 2^32 the two rank the same. */
  lemma RanksWrongFarApart()
    ensures Earlier(Time(0, 0), Time(TWO_TO_THE_31, 0)) && RankTimes(Time(0, 0), Time(TWO_TO_THE_31, 0)) < 0
    ensures Earlier(Time(0, 0), Time(TWO_TO_THE_32, 0)) && RankTimes(Time(0, 0), Time(TWO_TO_THE_32, 0)) == 0
  {
  }

  function OfNanos(n: nat): (t: RawTime)
    ensures Normalised(t) && Nanos(t) == n && t.sec >= 0
  {
    Time(n / NSEC_PER_SEC, n % NSEC_PER_SEC)
  }

  /** The only normalised time with that many nanoseconds. */
  lemma NanosInjective(a: RawTime, b: RawTime)
    requires Normalised(a) && Normalised(b) && Nanos(a) == Nanos(b)
    ensures a == b
  {
  }

  /** The moment a timer started at `now` with a timeout of ms milliseconds is due. */
  function DueTime(now: RawTime, ms: Uint32): (t: RawTime)
    requires Normalised(now) && now.sec >= 0
    ensures Normalised(t) && Nanos(t) == Nanos(now) + ms * 1_000_000
    ensures now.sec <= t.sec <= now.sec + MAX_TIMEOUT_SEC
  {
    OfNanos(Nanos(now) + ms * 1_000_000)
  }

  /** The statements of start() that compute futureTime; no intermediate tv_nsec leaves 32 bits. */
  method FutureTime(now: RawTime, timeOutInMs: Uint32) returns (futureTime: RawTime)
    requires Normalised(now) && now.sec >= 0
    ensures futureTime == DueTime(now, timeOutInMs)
  {
    futureTime := now;
    futureTime := futureTime.(sec := futureTime.sec + timeOutInMs / 1000);
    futureTime := futureTime.(nsec := futureTime.nsec + (timeOutInMs % 1000) * 1_000_000);
    assert 0 <= futureTime.nsec < TWO_TO_THE_31;
    assert Nanos(futureTime) == Nanos(now) + timeOutInMs * 1_000_000;
    if futureTime.nsec >= NSEC_PER_SEC {
      futureTime := futureTime.(sec := futureTime.sec + futureTime.nsec / NSEC_PER_SEC);
      futureTime := futureTime.(nsec := futureTime.nsec % NSEC_PER_SEC);
    }
    NanosInjective(futureTime, DueTime(now, timeOutInMs));
  }
}
