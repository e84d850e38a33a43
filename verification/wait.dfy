/**
How long does `waitForCache` poll?  The retry loop and its exponential backoff: an interval that
grows by a multiplier up to a maximum, sleeps drawn around it, and a budget of elapsed time.
*/
module Wait {
  datatype Stop = NotStopped | Deadline | Cancel

  /** What one Get gives; an error other than a miss may wrap the end of the caller's context. */
  datatype Reply<+V> = Hit(value: V) | Miss | OtherError(cause: Stop)

  /** One turn of the retry loop, as the environment plays it. */
  datatype Attempt<+V> = Attempt(
    reply: Reply<V>,
    took: nat,        // duration of the Get
    random: real,     // the draw in [0, 1) behind the sleep
    late: nat,        // how much the timer oversleeps
    ended: Stop,      // the caller's context has ended by the time the Get returns
    woken: Stop)      // the caller's context ends during the sleep

  datatype Config = Config(initial: nat, maxInterval: nat, maxWait: nat, multiplier: real)

  datatype WaitError = NotFoundInTime | Failed | TimedOut | Cancelled

  datatype WaitResult<+V> = Found(value: V) | GaveUp(error: WaitError) | StillWaiting

  predicate ValidAttempt<V>(a: Attempt<V>) {
    0.0 <= a.random < 1.0
  }

  predicate ValidConfig(cfg: Config) {
    cfg.multiplier > 0.0
  }

  /** The interval never shrinks. */
  predicate Growing(cfg: Config) {
    cfg.multiplier >= 1.0
  }

  function Grow(cfg: Config, current: nat): nat
    requires ValidConfig(cfg)
  {
    if current as real >= cfg.maxInterval as real / cfg.multiplier then cfg.maxInterval
    else GrowTo(current, cfg.multiplier)
  }

  function GrowTo(current: nat, multiplier: real): (r: nat)
    requires multiplier > 0.0
    ensures multiplier >= 1.0 ==> r >= current
  {
    ScaleUp(current as real, multiplier);
    (current as real * multiplier).Floor
  }

  lemma ScaleUp(x: real, factor: real)
    requires x >= 0.0 && factor > 0.0
    ensures x * factor >= 0.0
    ensures factor >= 1.0 ==> x * factor >= x
  {
    if factor >= 1.0 {
      assert x * factor == x + x * (factor - 1.0);
    }
  }

  lemma ScaleDown(random: real, spread: real)
    requires 0.0 <= random < 1.0 && spread > 0.0
    ensures 0.0 <= random * spread < spread
  {
    assert (1.0 - random) * spread > 0.0;
  }

  /** A draw between half the interval and one and a half times the interval plus one. */
  function Draw(current: nat, random: real): (x: real)
    requires 0.0 <= random < 1.0
    ensures current as real <= 2.0 * x < 3.0 * current as real + 2.0
  {
    var spread := current as real + 1.0;
    ScaleDown(random, spread);
    current as real / 2.0 + random * spread
  }

  lemma FloorInRange(x: real, lo: int, hi: int)
    requires lo as real <= 2.0 * x < hi as real
    ensures lo - 1 <= 2 * x.Floor < hi
  {
    assert x.Floor as real <= x < x.Floor as real + 1.0;
    assert (2 * x.Floor) as real == 2.0 * x.Floor as real;
  }

  /** The sleep before the next poll, rounded down as the backoff library does. */
  function Sleep(current: nat, random: real): (s: nat)
    requires 0.0 <= random < 1.0
    ensures current - 1 <= 2 * s < 3 * current + 2
  {
    FloorInRange(Draw(current, random), current, 3 * current + 2);
    Draw(current, random).Floor
  }

  /** The interval behind the sleep after poll `n`. */
  function Interval(cfg: Config, n: nat): nat
    requires ValidConfig(cfg)
  {
    if n == 0 then cfg.initial else Grow(cfg, Interval(cfg, n - 1))
  }

  predicate ValidScript<V>(script: seq<Attempt<V>>) {
    forall i | 0 <= i < |script| :: ValidAttempt(script[i])
  }

  function SleepAfter<V>(cfg: Config, script: seq<Attempt<V>>, n: nat): nat
    requires ValidConfig(cfg) && ValidScript(script) && n < |script|
  {
    Sleep(Interval(cfg, n), script[n].random)
  }

  /** Elapsed time when poll `n` starts. */
  function StartOf<V>(cfg: Config, script: seq<Attempt<V>>, n: nat): nat
    requires ValidConfig(cfg) && ValidScript(script) && n <= |script|
  {
    if n == 0 then 0
    else StartOf(cfg, script, n - 1) + script[n - 1].took + SleepAfter(cfg, script, n - 1) + script[n - 1].late
  }

  predicate BudgetAllows<V>(cfg: Config, script: seq<Attempt<V>>, n: nat)
    requires ValidConfig(cfg) && ValidScript(script) && n < |script|
  {
    cfg.maxWait == 0 || StartOf(cfg, script, n) + script[n].took + SleepAfter(cfg, script, n) <= cfg.maxWait
  }

  /** Poll `n` misses and is followed by another one. */
  predicate Retries<V>(cfg: Config, script: seq<Attempt<V>>, n: nat)
    requires ValidConfig(cfg) && ValidScript(script) && n < |script|
  {
    && script[n].reply.Miss? && script[n].ended.NotStopped? && script[n].woken.NotStopped?
    && BudgetAllows(cfg, script, n)
  }

  function ErrorOf<V>(stop: Stop, other: WaitResult<V>): WaitResult<V> {
    match stop
    case Deadline => GaveUp(TimedOut)
    case Cancel => GaveUp(Cancelled)
    case NotStopped => other
  }

  /** What the caller gets when poll `n` is the last one. */
  function LastPoll<V>(cfg: Config, script: seq<Attempt<V>>, n: nat): WaitResult<V>
    requires ValidConfig(cfg) && ValidScript(script) && n < |script|
  {
    match script[n].reply
    case Hit(value) => Found(value)
    case OtherError(cause) => ErrorOf(cause, GaveUp(Failed))
    case Miss =>
      if !script[n].ended.NotStopped? then ErrorOf(script[n].ended, StillWaiting)
      else if !BudgetAllows(cfg, script, n) then GaveUp(NotFoundInTime)
      else ErrorOf(script[n].woken, StillWaiting)
  }

  /** What a wait of that many polls is: every poll but the last is followed by another, the last one decides. */
  ghost predicate Waited<V>(cfg: Config, script: seq<Attempt<V>>, result: WaitResult<V>, polls: nat)
    requires ValidConfig(cfg) && ValidScript(script)
  {
    && polls <= |script|
    && (forall i | 0 <= i < polls - 1 :: Retries(cfg, script, i))
    && (result.StillWaiting? <==> forall i | 0 <= i < |script| :: Retries(cfg, script, i))
    && (result.StillWaiting? ==> polls == |script|)
    && (!result.StillWaiting? ==> polls > 0 && !Retries(cfg, script, polls - 1) && result == LastPoll(cfg, script, polls - 1))
  }

  /** The retry loop; `polls` counts the Gets that were started. */
  method WaitForCache<V>(cfg: Config, script: seq<Attempt<V>>) returns (result: WaitResult<V>, polls: nat)
    requires ValidConfig(cfg) && ValidScript(script)
    ensures Waited(cfg, script, result, polls)
  {
    polls := 0;
    var elapsed, current := 0, cfg.initial;
    while polls < |script|
      invariant polls <= |script|
      invariant elapsed == StartOf(cfg, script, polls) && current == Interval(cfg, polls)
      invariant forall i | 0 <= i < polls :: Retries(cfg, script, i)
    {
      var a := script[polls];
      polls := polls + 1;
      ghost var more := Retries(cfg, script, polls - 1);
      if a.reply.Hit? {
        assert !more;
        return Found(a.reply.value), polls;
      }
      if a.reply.OtherError? {
        assert !more;
        return ErrorOf(a.reply.cause, GaveUp(Failed)), polls;
      }
      elapsed := elapsed + a.took;
      var next := Sleep(current, a.random);
      current := Grow(cfg, current);
      if !a.ended.NotStopped? {
        assert !more;
        return ErrorOf(a.ended, StillWaiting), polls;
      }
      if cfg.maxWait != 0 && elapsed + next > cfg.maxWait {
        assert !more;
        return GaveUp(NotFoundInTime), polls;
      }
      if !a.woken.NotStopped? {
        assert !more;
        return ErrorOf(a.woken, StillWaiting), polls;
      }
      elapsed := elapsed + next + a.late;
    }
    result := StillWaiting;
  }

  // ----- What a wait answers -----

  /** All polls before this one miss and are followed by another; this one hits. */
  predicate EndsInHit<V>(cfg: Config, script: seq<Attempt<V>>, n: nat)
    requires ValidConfig(cfg) && ValidScript(script) && n < |script|
  {
    script[n].reply.Hit? && forall i | 0 <= i < n :: Retries(cfg, script, i)
  }

  lemma LastIsFirstEnd<V>(cfg: Config, script: seq<Attempt<V>>, result: WaitResult<V>, polls: nat, n: nat)
    requires ValidConfig(cfg) && ValidScript(script) && Waited(cfg, script, result, polls) && n < |script|
    requires !Retries(cfg, script, n) && forall i | 0 <= i < n :: Retries(cfg, script, i)
    ensures polls == n + 1 && !result.StillWaiting?
  {
  }

  /** The first hit ends the wait at once, and is the answer. */
  lemma HitStops<V>(cfg: Config, script: seq<Attempt<V>>, result: WaitResult<V>, polls: nat, n: nat)
    requires ValidConfig(cfg) && ValidScript(script) && Waited(cfg, script, result, polls) && n < |script|
    requires EndsInHit(cfg, script, n)
    ensures result == Found(script[n].reply.value) && polls == n + 1
  {
    LastIsFirstEnd(cfg, script, result, polls, n);
  }

  /** A value is only ever the answer when the last poll hit it. */
  lemma FoundWasHit<V>(cfg: Config, script: seq<Attempt<V>>, result: WaitResult<V>, polls: nat)
    requires ValidConfig(cfg) && ValidScript(script) && Waited(cfg, script, result, polls) && result.Found?
    ensures 0 < polls <= |script| && script[polls - 1].reply == Hit(result.value)
  {
  }

  /** The first error other than a miss ends the wait at once; it is a time-out or a cancellation if it wraps one. */
  lemma ErrorStops<V>(cfg: Config, script: seq<Attempt<V>>, result: WaitResult<V>, polls: nat, n: nat)
    requires ValidConfig(cfg) && ValidScript(script) && Waited(cfg, script, result, polls) && n < |script|
    requires script[n].reply.OtherError? && forall i | 0 <= i < n :: Retries(cfg, script, i)
    ensures polls == n + 1
    ensures
      match script[n].reply.cause
      case NotStopped => result == GaveUp(Failed)
      case Deadline => result == GaveUp(TimedOut)
      case Cancel => result == GaveUp(Cancelled)
  {
    LastIsFirstEnd(cfg, script, result, polls, n);
  }

  /** The time from the start of a miss to the start of the poll after it, but for the oversleep. */
  function Pause<V>(cfg: Config, script: seq<Attempt<V>>, n: nat): nat
    requires ValidConfig(cfg) && ValidScript(script) && n < |script|
  {
    script[n].took + SleepAfter(cfg, script, n)
  }

  /**
  What follows the n-th poll when it misses: the context's own end while the Get runs, a lack of budget
  for the sleep, the context's end during the sleep, or another poll, in this order.
  */
  lemma MissIsFollowed<V>(cfg: Config, script: seq<Attempt<V>>, result: WaitResult<V>, polls: nat, n: nat)
    requires ValidConfig(cfg) && ValidScript(script) && Waited(cfg, script, result, polls) && n < |script|
    requires script[n].reply.Miss? && forall i | 0 <= i < n :: Retries(cfg, script, i)
    ensures
      if script[n].ended.Deadline? then result == GaveUp(TimedOut) && polls == n + 1
      else if script[n].ended.Cancel? then result == GaveUp(Cancelled) && polls == n + 1
      else if cfg.maxWait > 0 && StartOf(cfg, script, n) + Pause(cfg, script, n) > cfg.maxWait
      then result == GaveUp(NotFoundInTime) && polls == n + 1
      else if script[n].woken.Deadline? then result == GaveUp(TimedOut) && polls == n + 1
      else if script[n].woken.Cancel? then result == GaveUp(Cancelled) && polls == n + 1
      else
        && StartOf(cfg, script, n + 1) == StartOf(cfg, script, n) + Pause(cfg, script, n) + script[n].late
        && (if n + 1 < |script| then polls > n + 1 else result.StillWaiting?)
  {
    if !Retries(cfg, script, n) {
      LastIsFirstEnd(cfg, script, result, polls, n);
    }
  }

  /** The interval is multiplied after each poll, up to the maximum. */
  lemma IntervalGrows(cfg: Config, n: nat)
    requires ValidConfig(cfg)
    ensures Interval(cfg, 0) == cfg.initial
    ensures
      var next := (Interval(cfg, n) as real * cfg.multiplier).Floor;
      Interval(cfg, n + 1) == if next < cfg.maxInterval then next else cfg.maxInterval
  {
    hide Grow;
    GrowExactly(cfg, Interval(cfg, n));
  }

  lemma GrowExactly(cfg: Config, current: nat)
    requires ValidConfig(cfg)
    ensures
      var next := (current as real * cfg.multiplier).Floor;
      Grow(cfg, current) == if next < cfg.maxInterval then next else cfg.maxInterval
  {
    QuotientCompares(current as real, cfg.maxInterval as real, cfg.multiplier);
  }

  lemma QuotientCompares(c: real, max: real, m: real)
    requires m > 0.0
    ensures c >= max / m <==> c * m >= max
  {
    var q := max / m;
    assert q * m == max;
    Scale(c, q, m);
    Scale(q, c, m);
  }

  lemma Scale(x: real, y: real, factor: real)
    requires factor > 0.0
    ensures x < y ==> x * factor < y * factor
    ensures x <= y ==> x * factor <= y * factor
  {
    var gap := y - x;
    assert y * factor == x * factor + gap * factor;
    if gap > 0.0 { assert gap * factor > 0.0; }
  }

  /** Every whole number from half the interval to one and a half times the interval can be the sleep. */
  lemma EverySleepPossible(current: nat, s: nat) returns (random: real)
    requires current <= 2 * s <= 3 * current
    ensures 0.0 <= random < 1.0 && Sleep(current, random) == s
  {
    random := Fraction(s as real - current as real / 2.0, current as real + 1.0);
    assert Draw(current, random) == s as real;
  }

  lemma Fraction(x: real, y: real) returns (r: real)
    requires 0.0 <= x < y
    ensures 0.0 <= r < 1.0 && r * y == x
  {
    r := x / y;
    QuotientBelow(0.0, x, y);
    QuotientBelow(1.0, x, y);
    assert r * y == x;
  }

  lemma QuotientBelow(c: real, max: real, m: real)
    requires m > 0.0
    ensures c <= max / m <==> c * m <= max
  {
    var q := max / m;
    assert q * m == max;
    Scale(c, q, m);
    Scale(q, c, m);
  }

  // ----- The budget -----

  function Min(a: nat, b: nat): nat {
    if a < b then a else b
  }

  lemma {:induction false} IntervalAtLeast(cfg: Config, n: nat)
    requires ValidConfig(cfg) && Growing(cfg)
    ensures Interval(cfg, n) >= Min(cfg.initial, cfg.maxInterval)
  {
    if n > 0 {
      IntervalAtLeast(cfg, n - 1);
    }
  }

  /** The shortest sleep: half of the smaller of the two configured intervals. */
  function ShortestSleep(cfg: Config): nat {
    Min(cfg.initial, cfg.maxInterval) / 2
  }

  lemma {:induction false} StartAtLeast<V>(cfg: Config, script: seq<Attempt<V>>, n: nat)
    requires ValidConfig(cfg) && Growing(cfg) && ValidScript(script) && n <= |script|
    ensures StartOf(cfg, script, n) >= n * ShortestSleep(cfg)
  {
    if n > 0 {
      StartAtLeast(cfg, script, n - 1);
      IntervalAtLeast(cfg, n - 1);
      assert n * ShortestSleep(cfg) == (n - 1) * ShortestSleep(cfg) + ShortestSleep(cfg);
    }
  }

  /** Every poll that a wait makes starts within the budget, but for the oversleep of its own timer. */
  lemma PollsStartInTime<V>(cfg: Config, script: seq<Attempt<V>>, result: WaitResult<V>, polls: nat, n: nat)
    requires ValidConfig(cfg) && ValidScript(script) && cfg.maxWait > 0
    requires Waited(cfg, script, result, polls) && 0 < n < polls
    ensures StartOf(cfg, script, n) <= cfg.maxWait + script[n - 1].late
  {
    assert Retries(cfg, script, n - 1);
  }

  /** Polls <= 1 + budget / shortest sleep. */
  lemma PollsBounded<V>(cfg: Config, script: seq<Attempt<V>>, result: WaitResult<V>, polls: nat)
    requires ValidConfig(cfg) && Growing(cfg) && ValidScript(script) && cfg.maxWait > 0 && ShortestSleep(cfg) > 0
    requires Waited(cfg, script, result, polls)
    ensures polls <= 1 + cfg.maxWait / ShortestSleep(cfg)
  {
    if polls > 1 {
      var n, h := polls - 2, ShortestSleep(cfg);
      assert Retries(cfg, script, n);
      StartAtLeast(cfg, script, n);
      IntervalAtLeast(cfg, n);
      assert (n + 1) * h == n * h + h;
      DivideBound(n + 1, h, cfg.maxWait);
    }
  }

  lemma {:induction false} ProductGrows(a: nat, b: nat, h: nat)
    requires a <= b
    ensures a * h <= b * h
  {
  }

  lemma DivideBound(n: nat, h: nat, total: nat)
    requires h > 0 && n * h <= total
    ensures n <= total / h
  {
    var q := total / h;
    assert total < (q + 1) * h;
    if n >= q + 1 {
      ProductGrows(q + 1, n, h);
    }
  }

  ghost predicate AlwaysRetries<V>(cfg: Config, script: seq<Attempt<V>>)
    requires ValidConfig(cfg)
  {
    ValidScript(script) && forall i | 0 <= i < |script| :: Retries(cfg, script, i)
  }

  ghost predicate BoundedBy(cfg: Config, bound: nat)
    requires ValidConfig(cfg)
  {
    forall script: seq<Attempt<bool>> | AlwaysRetries(cfg, script) :: |script| <= bound
  }

  /** The number of polls is bounded exactly when the budget is not zero: zero means no limit at all. */
  lemma WaitingBoundedExactly(cfg: Config)
    requires ValidConfig(cfg) && Growing(cfg) && ShortestSleep(cfg) > 0
    ensures (exists bound: nat :: BoundedBy(cfg, bound)) <==> cfg.maxWait > 0
  {
    if cfg.maxWait > 0 {
      var bound := 1 + cfg.maxWait / ShortestSleep(cfg);
      forall script: seq<Attempt<bool>> | AlwaysRetries(cfg, script)
        ensures |script| <= bound
      {
        if script != [] {
          PollsBounded(cfg, script, StillWaiting, |script|);
        }
      }
      assert BoundedBy(cfg, bound);
    } else {
      forall bound: nat
        ensures !BoundedBy(cfg, bound)
      {
        var script: seq<Attempt<bool>> := seq(bound + 1, _ => Attempt(Miss, 0, 0.0, 0, NotStopped, NotStopped));
        assert AlwaysRetries(cfg, script);
      }
    }
  }
}
