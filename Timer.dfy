/**
 * The per-question countdown: a number of seconds left, an interval that
 * ticks once a second while the timer is not paused, and a callback that
 * fires on the tick that reaches zero. The interval is modelled by explicit
 * `Tick` events; the colour of the progress bar is a pure function of the
 * seconds left.
 */
module Timer {
  import opened Constants

  /** What a tick sees and changes: the seconds left and whether the interval is active. */
  datatype Countdown = Countdown(timeLeft: nat, running: bool)

  /**
   * One interval tick: nothing without an active interval; otherwise, from
   * one second or less the count drops to zero, the interval is cleared and
   * the time-up callback fires; from more it drops by one.
   */
  function TickStep(c: Countdown): (r: (Countdown, bool))
    ensures !c.running ==> r == (c, false)
    ensures r.1 <==> c.running && c.timeLeft <= 1
    ensures r.0.timeLeft <= c.timeLeft
    ensures r.0.running <==> c.running && c.timeLeft > 1
    ensures c.running && c.timeLeft > 1 ==> r.0.timeLeft == c.timeLeft - 1
  {
    if !c.running then (c, false)
    else if c.timeLeft <= 1 then (Countdown(0, false), true)
    else (Countdown(c.timeLeft - 1, true), false)
  }

  /** The countdown after `k` ticks. */
  function After(c: Countdown, k: nat): Countdown
    decreases k
  {
    if k == 0 then c else After(TickStep(c).0, k - 1)
  }

  /** Whether tick number `k + 1`, counted from `c`, fires the callback. */
  predicate FiresOnTick(c: Countdown, k: nat) {
    TickStep(After(c, k)).1
  }

  /** Ticking never raises the count, so it never goes below zero nor above where it started. */
  lemma {:induction false} AfterNeverRises(c: Countdown, k: nat)
    ensures After(c, k).timeLeft <= c.timeLeft
    decreases k
  {
    if k > 0 {
      AfterNeverRises(TickStep(c).0, k - 1);
    }
  }

  /**
   * Started with `n` seconds and not paused, the countdown reads `n - k`
   * after `k < n` ticks and is still running.
   */
  lemma {:induction false} CountsDown(n: nat, k: nat)
    requires k < n
    ensures After(Countdown(n, true), k) == Countdown(n - k, true)
  {
    if k > 0 {
      assert TickStep(Countdown(n, true)).0 == Countdown(n - 1, true);
      CountsDown(n - 1, k - 1);
    }
  }

  /** A stopped countdown never changes and never fires again. */
  lemma {:induction false} StoppedStaysStopped(c: Countdown, k: nat)
    requires !c.running
    ensures After(c, k) == c && !FiresOnTick(c, k)
  {
    if k > 0 {
      StoppedStaysStopped(c, k - 1);
      assert After(c, k) == After(TickStep(c).0, k - 1);
    }
  }

  /** `After` can be split at any tick. */
  lemma {:induction false} AfterAdd(c: Countdown, j: nat, k: nat)
    ensures After(c, j + k) == After(After(c, j), k)
    decreases j
  {
    if j > 0 {
      AfterAdd(TickStep(c).0, j - 1, k);
    }
  }

  /**
   * Started with `n` seconds and never paused, the callback fires exactly
   * once: on tick number `n` (on the first tick when `n` is zero), and on
   * no other tick.
   */
  lemma FiresExactlyOnce(n: nat, k: nat)
    ensures FiresOnTick(Countdown(n, true), k) <==> k + 1 == if n == 0 then 1 else n
  {
    var c := Countdown(n, true);
    var last: nat := if n == 0 then 0 else n - 1;
    if k < last {
      CountsDown(n, k);
    } else if k == last {
      if n > 0 {
        CountsDown(n, k);
      }
    } else {
      if n > 0 {
        CountsDown(n, last);
      }
      assert After(c, last + 1) == Countdown(0, false) by {
        AfterAdd(c, last, 1);
      }
      AfterAdd(c, last + 1, k - last - 1);
      StoppedStaysStopped(Countdown(0, false), k - last - 1);
    }
  }

  /** The bar colours, from calm to urgent. */
  datatype BarColor = Indigo | Yellow | Red

  function Urgency(b: BarColor): nat {
    match b
    case Indigo => 0
    case Yellow => 1
    case Red => 2
  }

  /**
   * The bar colour for `timeLeft` seconds out of `duration`: the share
   * `timeLeft / duration` is compared with 50% and then 25%, written here
   * as integer comparisons of `timeLeft * 100` with `duration * 50` and
   * `duration * 25`.
   */
  function BarColorOf(timeLeft: nat, duration: nat): (b: BarColor)
    ensures b == Red <==> timeLeft * 100 < duration * 25
    ensures b == Yellow <==> duration * 25 <= timeLeft * 100 < duration * 50
    ensures b == Indigo <==> duration * 50 <= timeLeft * 100
  {
    if timeLeft * 100 < duration * 25 then Red
    else if timeLeft * 100 < duration * 50 then Yellow
    else Indigo
  }

  /** As the seconds run out the bar only becomes more urgent. */
  lemma UrgencyGrowsAsTimeRunsOut(t1: nat, t2: nat, duration: nat)
    requires t1 <= t2
    ensures Urgency(BarColorOf(t1, duration)) >= Urgency(BarColorOf(t2, duration))
  {
  }

  /** With the quiz's fifteen seconds: red from 3 seconds down, yellow from 7 to 4. */
  lemma QuizBarThresholds(t: nat)
    requires t <= TimerDuration
    ensures BarColorOf(t, TimerDuration) == Red <==> t <= 3
    ensures BarColorOf(t, TimerDuration) == Yellow <==> 4 <= t <= 7
    ensures BarColorOf(t, TimerDuration) == Indigo <==> t >= 8
  {
  }

  /** The countdown component: its seconds left, its interval and its paused flag. */
  class CountdownTimer {
    const duration: nat
    var timeLeft: nat
    var running: bool
    var paused: bool

    predicate Valid()
      reads this
    {
      timeLeft <= duration && (running ==> !paused)
    }

    function State(): Countdown
      reads this
    {
      Countdown(timeLeft, running)
    }

    /** Mounting: the count starts at `duration`; the interval starts unless paused. */
    constructor(duration: nat, isPaused: bool)
      ensures Valid()
      ensures this.duration == duration && timeLeft == duration
      ensures paused == isPaused && running == !isPaused
    {
      this.duration := duration;
      timeLeft := duration;
      paused := isPaused;
      running := !isPaused;
    }

    /**
     * A change of the paused flag: pausing clears the interval, unpausing
     * starts a new one; the seconds left are kept. Setting the flag to the
     * value it has changes nothing.
     */
    method SetPaused(p: bool)
      requires Valid()
      modifies this
      ensures Valid()
      ensures paused == p && timeLeft == old(timeLeft)
      ensures running == if p == old(paused) then old(running) else !p
    {
      if p != paused {
        paused := p;
        running := !p;
      }
    }

    /** One second elapses; `timeUp` reports whether the time-up callback fired. */
    method Tick() returns (timeUp: bool)
      requires Valid()
      modifies this
      ensures Valid()
      ensures (State(), timeUp) == TickStep(old(State()))
      ensures paused == old(paused)
      ensures old(paused) ==> !timeUp && timeLeft == old(timeLeft)
    {
      if !running {
        return false;
      }
      if timeLeft <= 1 {
        timeLeft := 0;
        running := false;
        timeUp := true;
      } else {
        timeLeft := timeLeft - 1;
        timeUp := false;
      }
    }

    /**
     * The bar colour now: a full bar is indigo, and over the quiz's fifteen
     * seconds it turns yellow at 7 seconds and red at 3.
     */
    function Color(): (b: BarColor)
      reads this
      ensures duration > 0 && timeLeft == duration ==> b == Indigo
      ensures duration == TimerDuration && timeLeft <= duration ==>
                (b == Red <==> timeLeft <= 3) && (b == Yellow <==> 4 <= timeLeft <= 7)
                && (b == Indigo <==> timeLeft >= 8)
    {
      BarColorOf(timeLeft, duration)
    }
  }
}
