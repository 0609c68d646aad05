/** `setTimer` of src/utils.ts as a state machine over integer milliseconds. The clock
    readings `Date.now()` are parameters, and `setTimeout(action, d)` issued at time t is the
    pending due time t + d at which `action` fires next. */
module Timer {
  import opened Values

  /** How many times the callback runs for a given `repeat`: `repeat` times, and never when
      `repeat <= 0`. */
  function Callbacks(repeat: int): nat
  {
    Max(0, repeat)
  }

  /** The k-th target time (counting from 0) of a timer started at `origin`. */
  function Target(origin: int, begin: int, interval: int, k: nat): int
  {
    origin + begin + k * interval
  }

  /** The rescheduling delay `Math.max(0, interval - dt)`, where `dt = now - target` is how
      late the tick whose target was `target` is when the clock reads `now`. It is never
      negative, and it makes the next tick due at the later of `now` and the next target. */
  function Delay(now: int, target: int, interval: int): (d: int)
    ensures d >= 0
    ensures now + d == Max(now, target + interval)
    ensures now <= target + interval ==> now + d == target + interval
  {
    Max(0, interval - (now - target))
  }

  /** The closure state of one `setTimer` call. */
  class Timer {
    const repeat: int
    const interval: int
    const begin: int
    /** The clock reading taken when the timer was started. */
    ghost const origin: int
    /** `count`: bumped by every `count++ < repeat` test. */
    var count: int
    /** `next`: the target time of the next tick. */
    var next: int
    /** The due time of the pending `setTimeout`; None once the promise has resolved. */
    var pending: Option<int>
    /** How many times the callback has run. */
    ghost var calls: nat

    /** The invariant between ticks: one test has been spent before the first callback, the
        target moves from target to target, and a tick is pending exactly while fewer than
        `repeat` callbacks have run. */
    ghost predicate Valid()
      reads this
    {
      count == calls + 1 &&
      next == Target(origin, begin, interval, calls) &&
      (pending.Some? <==> calls < repeat) &&
      calls <= Callbacks(repeat)
    }

    /** Starting the timer with the clock reading `now`: the first tick is due `begin` ms
        later (a negative `setTimeout` delay counts as 0), or the promise resolves at once
        when `repeat <= 0`. */
    constructor (repeat: int, interval: int, begin: int, now: int)
      ensures Valid()
      ensures this.repeat == repeat && this.interval == interval && this.begin == begin
      ensures origin == now && calls == 0
      ensures next == now + begin
      ensures pending == if 0 < repeat then Some(now + Max(0, begin)) else None
    {
      this.repeat := repeat;
      this.interval := interval;
      this.begin := begin;
      origin := now;
      calls := 0;
      next := now + begin;
      var c := 0;
      count := c + 1;
      if c < repeat {
        pending := Some(now + Max(0, begin));
      } else {
        pending := None;
      }
    }

    /** One firing of `action`: the callback runs, then the clock reads `now`. The target
        advances by `interval` from the previous target, and either the next tick is
        scheduled, shortened by this tick's lateness, or the promise resolves. */
    method Action(now: int)
      requires Valid() && pending.Some?
      modifies this
      ensures Valid()
      ensures calls == old(calls) + 1
      ensures next == old(next) + interval
      ensures pending == if old(count) < repeat then Some(now + Delay(now, old(next), interval)) else None
      ensures pending.Some? ==> pending.value == Max(now, next)
      ensures pending.None? <==> calls == Callbacks(repeat)
    {
      calls := calls + 1;
      var dt := now - next;
      next := next + interval;
      var c := count;
      count := c + 1;
      if c < repeat {
        pending := Some(now + Max(0, interval - dt));
      } else {
        pending := None;
      }
    }
  }
}
