/** The countdown timer that an intersection owns: `update` counts the
    remaining green time down to zero and `isGreenPhaseOver` reports an
    expired phase and starts the next one. */
module TrafficLights {

  /** Remaining green time after one `update`: one less while positive,
      unchanged at zero (or below). */
  function Countdown(remaining: int): int {
    if remaining > 0 then remaining - 1 else remaining
  }

  /** Remaining green time after `k` calls of `update`. */
  function CountdownTimes(remaining: int, k: nat): int
    decreases k
  {
    if k == 0 then remaining else CountdownTimes(Countdown(remaining), k - 1)
  }

  /** The field values of a traffic light. */
  datatype Signal = Signal(remaining: int, duration: int) {
    /** The invariant of the light: the remaining time lies in [0, duration]. */
    predicate InRange() {
      0 <= remaining <= duration
    }
  }

  /** What an intersection does with its light in one tick: `update`, then
      `isGreenPhaseOver`, which resets an expired light to the full duration. */
  function Cycle(s: Signal): (r: (bool, Signal)) {
    var counted := Countdown(s.remaining);
    if counted == 0 then (true, Signal(s.duration, s.duration)) else (false, Signal(counted, s.duration))
  }

  /** The light `k` ticks after the start of a phase (full remaining time). */
  function SignalAfter(duration: int, k: nat): Signal
    decreases k
  {
    if k == 0 then Signal(duration, duration) else Cycle(SignalAfter(duration, k - 1)).1
  }

  /** Whether the `k`-th tick (counting from 1) of a fresh light ends its green phase. */
  function ExpiresAt(duration: int, k: nat): bool
    requires k >= 1
  {
    Cycle(SignalAfter(duration, k - 1)).0
  }

  /** Starting from a full light, `k <= duration` updates leave `duration - k`. */
  lemma {:induction false} CountdownFromFull(remaining: int, k: nat)
    requires k <= remaining
    ensures CountdownTimes(remaining, k) == remaining - k
    decreases k
  {
    if k > 0 {
      CountdownFromFull(remaining - 1, k - 1);
    }
  }

  /** A remaining time that is not negative never becomes negative. */
  lemma {:induction false} CountdownNeverNegative(remaining: int, k: nat)
    requires remaining >= 0
    ensures 0 <= CountdownTimes(remaining, k) <= remaining
    decreases k
  {
    if k > 0 {
      CountdownNeverNegative(Countdown(remaining), k - 1);
    }
  }

  /** One intersection tick keeps the light in range. */
  lemma CycleInRange(s: Signal)
    requires s.InRange()
    ensures Cycle(s).1.InRange() && Cycle(s).1.duration == s.duration
  {
  }

  /** A product of a positive and a factor of at least one is at least the first. */
  lemma ProductAtLeast(m: int, d: int)
    requires m >= 1 && d >= 1
    ensures m * d >= d
  {
  }

  /** The remainder is the unique r in [0, d) with x == q * d + r. */
  lemma ModUnique(x: int, q: int, r: int, d: int)
    requires d >= 1 && 0 <= r < d && x == q * d + r
    ensures x % d == r
  {
    var q', r' := x / d, x % d;
    assert (q - q') * d == r' - r;
    if q - q' >= 1 {
      ProductAtLeast(q - q', d);
    } else if q' - q >= 1 {
      ProductAtLeast(q' - q, d);
    }
  }

  lemma DivisionStep(duration: int, k: nat)
    requires duration >= 1
    ensures (k + 1) % duration == if k % duration == duration - 1 then 0 else k % duration + 1
  {
    var q, r := k / duration, k % duration;
    if r == duration - 1 {
      assert k + 1 == (q + 1) * duration + 0;
      ModUnique(k + 1, q + 1, 0, duration);
    } else {
      ModUnique(k + 1, q, r + 1, duration);
    }
  }

  /** With duration d >= 1 the remaining time after k ticks is d - (k mod d). */
  lemma {:induction false} SignalAfterFormula(duration: int, k: nat)
    requires duration >= 1
    ensures SignalAfter(duration, k) == Signal(duration - k % duration, duration)
    decreases k
  {
    if k > 0 {
      SignalAfterFormula(duration, k - 1);
      DivisionStep(duration, k - 1);
    }
  }

  /** With duration d >= 1 the green phase ends exactly on ticks d, 2d, 3d, ... */
  lemma ExpiresOnMultiples(duration: int, k: nat)
    requires duration >= 1 && k >= 1
    ensures ExpiresAt(duration, k) <==> k % duration == 0
  {
    SignalAfterFormula(duration, k - 1);
    DivisionStep(duration, k - 1);
  }

  class TrafficLight {
    var remainingGreenTime: int
    const greenPhaseDuration: int

    /** The light's field values. */
    function Value(): Signal
      reads this
    {
      Signal(remainingGreenTime, greenPhaseDuration)
    }

    ghost predicate Valid()
      reads this
    {
      Value().InRange()
    }

    constructor (greenPhaseDuration: int)
      ensures this.greenPhaseDuration == greenPhaseDuration
      ensures remainingGreenTime == greenPhaseDuration
      ensures greenPhaseDuration >= 0 ==> Valid()
    {
      this.remainingGreenTime := greenPhaseDuration;
      this.greenPhaseDuration := greenPhaseDuration;
    }

    /** Reports whether the green phase has run out; if so, starts the next one. */
    method IsGreenPhaseOver() returns (over: bool)
      modifies this
      ensures over <==> old(remainingGreenTime) == 0
      ensures remainingGreenTime == if over then greenPhaseDuration else old(remainingGreenTime)
      ensures old(Valid()) ==> Valid()
    {
      if remainingGreenTime == 0 {
        ResetRemainingGreenTime();
        return true;
      }
      return false;
    }

    method Update()
      modifies this
      ensures remainingGreenTime == Countdown(old(remainingGreenTime))
      ensures old(remainingGreenTime) > 0 ==> remainingGreenTime == old(remainingGreenTime) - 1
      ensures old(Valid()) ==> Valid()
    {
      if remainingGreenTime > 0 {
        remainingGreenTime := remainingGreenTime - 1;
      }
    }

    method ResetRemainingGreenTime()
      modifies this
      ensures remainingGreenTime == greenPhaseDuration
    {
      remainingGreenTime := greenPhaseDuration;
    }
  }
}
