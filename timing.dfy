/**
 * The animation timing controller: option defaulting, easing curves, the
 * delays derived from them, the loop-continuation rule, and a pausable clock.
 *
 * Numbers are exact rationals (`real`) rather than IEEE doubles; loop counts
 * and clock readings are integers. The clock reading Date.now() is a
 * parameter `now` of the operations that read it.
 */
module Timing {
  import opened Wrappers

  /** The options a controller is created with; None is an absent property. */
  datatype TimingOptions = TimingOptions(
    duration: Option<real>,
    delay: Option<real>,
    fps: Option<real>,
    loop: Option<int>,
    charDelay: Option<real>,
    lineDelay: Option<real>,
    easing: Option<string>)

  const NoOptions := TimingOptions(None, None, None, None, None, None, None)

  /** `x || d` for a number: `d` when x is absent or 0. */
  function OrReal(x: Option<real>, d: real): (r: real)
    ensures r == d || (x == Some(r) && r != 0.0)
    ensures x.Some? && x.value != 0.0 ==> r == x.value
  {
    if x.Some? && x.value != 0.0 then x.value else d
  }

  function OrInt(x: Option<int>, d: int): (r: int)
    ensures r == d || (x == Some(r) && r != 0)
    ensures x.Some? && x.value != 0 ==> r == x.value
  {
    if x.Some? && x.value != 0 then x.value else d
  }

  /** `x || d` for a string: `d` when x is absent or empty. */
  function OrString(x: Option<string>, d: string): string {
    if x.Some? && x.value != "" then x.value else d
  }

  /**
   * The options the constructor keeps: duration, delay, fps, loop and easing
   * with their defaults (a falsy value counts as absent); charDelay and
   * lineDelay are not copied.
   */
  function Defaulted(o: TimingOptions): TimingOptions {
    TimingOptions(
      Some(OrReal(o.duration, 1000.0)),
      Some(OrReal(o.delay, 0.0)),
      Some(OrReal(o.fps, 30.0)),
      Some(OrInt(o.loop, 1)),
      None,
      None,
      Some(OrString(o.easing, "linear")))
  }

  /** The easing curves; any other name (bounce, elastic, ...) is linear. */
  function Ease(easing: string, t: real): real {
    if easing == "ease-in" then t * t
    else if easing == "ease-out" then 1.0 - (1.0 - t) * (1.0 - t)
    else if easing == "ease-in-out" then
      if t < 0.5 then 2.0 * t * t else 1.0 - (-2.0 * t + 2.0) * (-2.0 * t + 2.0) / 2.0
    else if easing == "cubic-bezier" then t * (2.0 * (1.0 - t) * 0.4 + t * 0.2)
    else t
  }

  /** Every curve starts at 0; every curve but cubic-bezier ends at 1, which ends at 0.2; ease-in-out passes through (1/2, 1/2). */
  lemma EaseEndpoints(easing: string)
    ensures Ease(easing, 0.0) == 0.0
    ensures easing != "cubic-bezier" ==> Ease(easing, 1.0) == 1.0
    ensures Ease("cubic-bezier", 1.0) == 0.2
    ensures Ease("ease-in-out", 0.5) == 0.5
  {
  }

  /** On [0, 1] every curve stays within [0, 1]. */
  lemma EaseBounded(easing: string, t: real)
    requires 0.0 <= t <= 1.0
    ensures 0.0 <= Ease(easing, t) <= 1.0
  {
    if easing == "ease-in" {
      SquareBounded(t);
    } else if easing == "ease-out" {
      SquareBounded(1.0 - t);
    } else if easing == "ease-in-out" {
      if t < 0.5 {
        SquareBounded(2.0 * t);
        assert 2.0 * t * t == (2.0 * t) * (2.0 * t) / 2.0;
      } else {
        SquareBounded(-2.0 * t + 2.0);
      }
    } else if easing == "cubic-bezier" {
      CubicBounded(t);
    }
  }

  lemma SquareBounded(u: real)
    requires 0.0 <= u <= 1.0
    ensures 0.0 <= u * u <= u
  {
    assert u * (1.0 - u) >= 0.0;
  }

  lemma CubicBounded(t: real)
    requires 0.0 <= t <= 1.0
    ensures 0.0 <= t * (2.0 * (1.0 - t) * 0.4 + t * 0.2) <= 0.8
  {
    var f := 2.0 * (1.0 - t) * 0.4 + t * 0.2;
    assert f == 0.8 - 0.6 * t;
    ProductNonnegative(t, f);
    ProductNonnegative(t, 0.8 - f);
    ProductNonnegative(1.0 - t, 0.8);
  }

  lemma ProductNonnegative(a: real, b: real)
    requires a >= 0.0 && b >= 0.0
    ensures a * b >= 0.0
  {
  }


  /** Every curve but cubic-bezier is non-decreasing on [0, 1]. */
  lemma EaseMonotone(easing: string, s: real, t: real)
    requires 0.0 <= s <= t <= 1.0 && easing != "cubic-bezier"
    ensures Ease(easing, s) <= Ease(easing, t)
  {
    if easing == "ease-in" {
      SquareMonotone(s, t);
    } else if easing == "ease-out" {
      SquareMonotone(1.0 - t, 1.0 - s);
    } else if easing == "ease-in-out" {
      if t < 0.5 {
        SquareMonotone(s, t);
      } else if s >= 0.5 {
        SquareMonotone(-2.0 * t + 2.0, -2.0 * s + 2.0);
      } else {
        var v := -2.0 * t + 2.0;
        assert 2.0 * s * s <= 2.0 * s * 0.5;
        assert v * v <= v * 1.0;
      }
    }
  }

  lemma SquareMonotone(a: real, b: real)
    requires 0.0 <= a <= b
    ensures a * a <= b * b
  {
    assert a * a <= a * b;
    assert a * b <= b * b;
  }

  /** cubic-bezier overshoots: it is higher at 2/3 than at 1, so it is not monotone. */
  lemma CubicBezierNotMonotone()
    ensures Ease("cubic-bezier", 2.0 / 3.0) > Ease("cubic-bezier", 1.0)
  {
    assert Ease("cubic-bezier", 2.0 / 3.0) == 4.0 / 15.0;
  }

  /** The clock part of a controller: when it started, when it was paused, whether it is paused. */
  datatype Clock = Clock(startTime: int, pausedTime: int, isPaused: bool)

  function Started(c: Clock, now: int): Clock {
    c.(startTime := now, isPaused := false)
  }

  function Paused(c: Clock, now: int): Clock {
    if c.isPaused then c else c.(pausedTime := now, isPaused := true)
  }

  function Resumed(c: Clock, now: int): Clock {
    if c.isPaused then c.(startTime := c.startTime + (now - c.pausedTime), isPaused := false) else c
  }

  function ElapsedAt(c: Clock, now: int): int {
    if c.isPaused then c.pausedTime - c.startTime else now - c.startTime
  }

  /** Pausing a paused clock, or resuming a running one, changes nothing. */
  lemma PauseResumeNoops(c: Clock, t1: int, t2: int)
    ensures Paused(Paused(c, t1), t2) == Paused(c, t1)
    ensures !c.isPaused ==> Resumed(c, t1) == c
  {
  }

  /** While paused the elapsed time does not move, whatever the clock says. */
  lemma ElapsedFrozen(c: Clock, t1: int, t: int, t': int)
    ensures ElapsedAt(Paused(c, t1), t) == ElapsedAt(Paused(c, t1), t')
  {
  }

  /**
   * A pause from t1 to t2 is left out of the elapsed time: afterwards the
   * clock reads as if it had been started t2 - t1 later. So the elapsed time
   * after resuming never drops below the time shown while paused.
   */
  lemma PauseExcluded(c: Clock, t1: int, t2: int, t: int)
    requires !c.isPaused && t1 <= t2 <= t
    ensures ElapsedAt(Resumed(Paused(c, t1), t2), t) == ElapsedAt(c, t) - (t2 - t1)
    ensures ElapsedAt(Resumed(Paused(c, t1), t2), t) >= ElapsedAt(Paused(c, t1), t)
  {
  }

  class TimingController {
    const options: TimingOptions
    var startTime: int
    var pausedTime: int
    var isPaused: bool

    constructor(given: TimingOptions)
      ensures options == Defaulted(given)
      ensures State() == Clock(0, 0, false)
      ensures CharDelay() == 50.0 && LineDelay() == 100.0
    {
      options := Defaulted(given);
      startTime := 0;
      pausedTime := 0;
      isPaused := false;
    }

    function State(): Clock
      reads this
    {
      Clock(startTime, pausedTime, isPaused)
    }

    function ApplyEasing(progress: real): real {
      if options.easing.Some? then Ease(options.easing.value, progress) else progress
    }

    /** calculateDelay: no delay for fewer than two steps, else the eased progress times the duration. */
    function CalculateDelay(index: real, total: real): real {
      if total <= 1.0 then 0.0
      else ApplyEasing(index / (total - 1.0)) * OrReal(options.duration, 1000.0)
    }

    function FrameDelay(): real {
      1000.0 / OrReal(options.fps, 30.0)
    }

    function CharDelay(): real {
      OrReal(options.charDelay, 50.0)
    }

    function LineDelay(): real {
      OrReal(options.lineDelay, 100.0)
    }

    /** shouldContinueLoop: -1 loops for ever, otherwise pass k runs while k is below the loop count. */
    predicate ShouldContinueLoop(currentLoop: int) {
      var maxLoops := OrInt(options.loop, 1);
      maxLoops == -1 || currentLoop < maxLoops
    }

    method Start(now: int)
      modifies this
      ensures State() == Started(old(State()), now)
    {
      startTime := now;
      isPaused := false;
    }

    method Pause(now: int)
      modifies this
      ensures State() == Paused(old(State()), now)
    {
      if !isPaused {
        pausedTime := now;
        isPaused := true;
      }
    }

    method Resume(now: int)
      modifies this
      ensures State() == Resumed(old(State()), now)
    {
      if isPaused {
        var pauseDuration := now - pausedTime;
        startTime := startTime + pauseDuration;
        isPaused := false;
      }
    }

    method GetElapsed(now: int) returns (e: int)
      ensures e == ElapsedAt(State(), now)
    {
      if isPaused {
        return pausedTime - startTime;
      }
      return now - startTime;
    }

    method Reset()
      modifies this
      ensures State() == Clock(0, 0, false)
    {
      startTime := 0;
      pausedTime := 0;
      isPaused := false;
    }
  }

  /**
   * With at least two steps, the first delay is 0 and the last is the whole
   * duration, except under cubic-bezier, where it is a fifth of it.
   */
  lemma DelayEndpoints(c: TimingController, total: real)
    requires total > 1.0
    ensures c.CalculateDelay(0.0, total) == 0.0
    ensures c.options.easing != Some("cubic-bezier") ==>
      c.CalculateDelay(total - 1.0, total) == OrReal(c.options.duration, 1000.0)
    ensures c.options.easing == Some("cubic-bezier") ==>
      c.CalculateDelay(total - 1.0, total) == 0.2 * OrReal(c.options.duration, 1000.0)
  {
    var d := total - 1.0;
    assert d / d == 1.0 by {
      assert (d / d) * d == d;
    }
    if c.options.easing.Some? {
      EaseEndpoints(c.options.easing.value);
    }
  }

  /** Under linear easing with duration 1000, ten steps are spaced 1000/9 apart. */
  lemma LinearDelays(c: TimingController)
    requires c.options.easing == Some("linear") && c.options.duration == Some(1000.0)
    ensures c.CalculateDelay(0.0, 10.0) == 0.0
    ensures c.CalculateDelay(5.0, 10.0) == 5000.0 / 9.0
    ensures c.CalculateDelay(9.0, 10.0) == 1000.0
  {
  }

  /**
   * The constructor keeps the frame rate (30 when absent or 0) and drops
   * charDelay and lineDelay: whatever was given, the character delay is 50
   * and the line delay 100.
   */
  lemma ConstructedDelays(given: TimingOptions)
    ensures Defaulted(given).charDelay.None? && Defaulted(given).lineDelay.None?
    ensures OrReal(Defaulted(given).fps, 30.0) == OrReal(given.fps, 30.0)
    ensures given.fps.None? ==> OrReal(Defaulted(given).fps, 30.0) == 30.0
  {
  }

  /**
   * The loop rule for a constructed controller counting passes from 0: loop
   * -1 runs for ever, an absent or 0 loop runs once, n > 0 runs n times, and
   * any other negative count runs no pass at all.
   */
  lemma LoopPasses(c: TimingController, given: TimingOptions, k: nat)
    requires c.options == Defaulted(given)
    ensures given.loop == Some(-1) ==> c.ShouldContinueLoop(k)
    ensures given.loop.None? || given.loop == Some(0) ==> (c.ShouldContinueLoop(k) <==> k == 0)
    ensures given.loop.Some? && given.loop.value > 0 ==> (c.ShouldContinueLoop(k) <==> k < given.loop.value)
    ensures given.loop.Some? && given.loop.value < -1 ==> !c.ShouldContinueLoop(k)
  {
  }
}
