/** The kernel's clock, and how long kmt_sleep_for really sleeps. */
module Timer {
  import opened Bits

  const NS_PER_SECOND: nat := 1_000_000_000
  const NS_PER_MS: nat := 1_000_000
  const MS_WRAP: nat := 0x1_0000_0000   // time_ms_t has 32 bits

  /** timer_time_since_init_ns: whole seconds first, so that the product stays small. */
  function TimeNs(ticks: nat, hz: nat): nat
    requires hz > 0
  {
    (ticks / hz) * NS_PER_SECOND + ((ticks % hz) * NS_PER_SECOND) / hz
  }

  lemma SplitDivision(q: nat, r: nat, hz: nat, n: nat)
    requires hz > 0
    ensures ((q * hz + r) * n) / hz == q * n + (r * n) / hz
  {
    var x, a := r * n, (r * n) / hz;
    assert x == a * hz + x % hz;
    assert (q * hz + r) * n == (q * n) * hz + x by {
      Distribute(q, hz, r, n);
    }
    assert (q * hz + r) * n == (q * n + a) * hz + x % hz by {
      Factor(q * n, a, hz);
    }
    DivModUnique((q * hz + r) * n, q * n + a, x % hz, hz);
  }

  lemma Distribute(q: nat, hz: nat, r: nat, n: nat)
    ensures (q * hz + r) * n == (q * n) * hz + r * n
  {
    assert (q * hz + r) * n == (q * hz) * n + r * n;
    assert (q * hz) * n == (q * n) * hz;
  }

  lemma Factor(a: nat, b: nat, c: nat)
    ensures (a + b) * c == a * c + b * c
  {
  }

  /** The clock is exactly the tick count over the frequency, rounded down once. */
  lemma TimeIsFloor(ticks: nat, hz: nat)
    requires hz > 0
    ensures TimeNs(ticks, hz) == (ticks * NS_PER_SECOND) / hz
  {
    SplitDivision(ticks / hz, ticks % hz, hz, NS_PER_SECOND);
    assert ticks == (ticks / hz) * hz + ticks % hz;
  }

  /** It never runs backwards. */
  lemma TimeMonotone(a: nat, b: nat, hz: nat)
    requires hz > 0 && a <= b
    ensures TimeNs(a, hz) <= TimeNs(b, hz)
  {
    TimeIsFloor(a, hz);
    TimeIsFloor(b, hz);
    var x, y := a * NS_PER_SECOND, b * NS_PER_SECOND;
    DivideMono(x, y, hz);
  }

  lemma DivideMono(x: nat, y: nat, d: nat)
    requires d > 0 && x <= y
    ensures x / d <= y / d
  {
    var q, p := x / d, y / d;
    assert x == q * d + x % d && y == p * d + y % d;
    assert (p - q) * d == p * d - q * d;
    NegativeMultiple(p - q, d);
  }

  lemma NegativeMultiple(e: int, d: nat)
    ensures e < 0 ==> e * d + d <= 0
  {
  }

  /** div_ceil */
  function Ceil(ns: nat): nat { (ns + NS_PER_MS - 1) / NS_PER_MS }

  /** The wake-up time kmt_sleep_for asks for, a 32-bit number of milliseconds. */
  function WakeTime(ns: nat, duration: nat): nat { (Ceil(ns) + duration) % MS_WRAP }

  /** The timer handler's reading of the clock. */
  function NowMs(ns: nat): nat { (ns / NS_PER_MS) % MS_WRAP }

  /** As long as it fits, the wake-up time is not before the end of the sleep. */
  lemma WakeTimeIsLate(start: nat, duration: nat)
    requires Ceil(start) + duration < MS_WRAP
    ensures WakeTime(start, duration) * NS_PER_MS >= start + duration * NS_PER_MS
  {
  }

  /**
   It is the first whole millisecond at or after the end of the sleep, so the thread does not sleep longer than
   that; if it does not fit it is 2^32 milliseconds too early.
   */
  lemma WakeTimeExact(start: nat, duration: nat)
    requires duration < 0x1_0000_0000
    ensures var end, wrap := start + duration * 1_000_000, 0x1_0000_0000;
      var first := (end + 999_999) / 1_000_000;
      && first * 1_000_000 >= end && (first == 0 || (first - 1) * 1_000_000 < end)
      && (first < wrap ==> WakeTime(start, duration) == first)
      && (wrap <= first < 2 * wrap ==> WakeTime(start, duration) == first - wrap)
  {
    var end := start + duration * 1_000_000;
    assert (end + 999_999) / 1_000_000 == (start + 999_999) / 1_000_000 + duration by {
      DivModUnique(end + 999_999, (start + 999_999) / 1_000_000 + duration, (start + 999_999) % 1_000_000, 1_000_000);
    }
  }

  /** The handler's clock is the time in whole milliseconds, rounded down, of 32 bits. */
  lemma NowExact(ns: nat)
    ensures exists wraps: nat :: (NowMs(ns) + wraps * 0x1_0000_0000) * 1_000_000 <= ns < (NowMs(ns) + wraps * 0x1_0000_0000 + 1) * 1_000_000
    ensures NowMs(ns) < 0x1_0000_0000
  {
    var ms := ns / 1_000_000;
    var wraps := ms / 0x1_0000_0000;
    assert NowMs(ns) + wraps * 0x1_0000_0000 == ms;
  }

  lemma NowIsPast(ns: nat, time: nat)
    requires NowMs(ns) >= time
    ensures ns >= time * NS_PER_MS
  {
  }

  /**
   kmt_sleep_for, called at `start`, may go on at `at`: at once, when kmt_sleep_until finds the
   time past at its own reading of the clock, or at a tick that finds it due.
   */
  predicate Resumes(start: nat, duration: nat, read: nat, at: nat) {
    var time := WakeTime(start, duration);
    start <= read && if read >= time * NS_PER_MS then at == read else read <= at && time <= NowMs(at)
  }

  /**
   The sleep never ends early, exactly when the wake-up time still fits 32 bits; past that the call
   does not sleep at all.
   */
  lemma NeverEarlyExact(start: nat, duration: nat)
    requires 0 < duration < MS_WRAP
    ensures (forall read: nat, at: nat | Resumes(start, duration, read, at) :: at >= start + duration * NS_PER_MS)
            <==> Ceil(start) + duration < MS_WRAP
  {
    var time := WakeTime(start, duration);
    if Ceil(start) + duration < MS_WRAP {
      forall read: nat, at: nat | Resumes(start, duration, read, at) ensures at >= start + duration * NS_PER_MS {
        assert time == Ceil(start) + duration;
        assert Ceil(start) * NS_PER_MS >= start;
        assert at >= time * NS_PER_MS;
      }
    } else {
      assert time < Ceil(start);
      assert Resumes(start, duration, start, start);
    }
  }
}
