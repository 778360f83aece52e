/** The fixed-window rate limiter: one shared counter that restarts when a window has passed.

    Instants and durations are whole nanoseconds. Instant 0 is Go's zero time, which the limiter
    uses to mean "no window yet"; durations are 64-bit and wrap around or saturate as Go's do. */
module RateLimit {

  const SECOND: int := 1_000_000_000
  const INT64_LIMIT: int := 0x8000_0000_0000_0000

  function Wrap64(n: int): int {
    (n + INT64_LIMIT) % (2 * INT64_LIMIT) - INT64_LIMIT
  }

  // Go's integer division truncates toward zero.
  function TruncDiv(a: int, b: int): int
    requires b > 0
  {
    if a >= 0 then a / b else -((-a) / b)
  }

  // time.Time.Sub saturates instead of wrapping around.
  function Since(later: int, earlier: int): int {
    var d := later - earlier;
    if d >= INT64_LIMIT then INT64_LIMIT - 1 else if d < -INT64_LIMIT then -INT64_LIMIT else d
  }

  function RetryAfterSeconds(duration: int): int {
    if duration <= 0 then 0
    else TruncDiv(Wrap64(Wrap64(duration + SECOND) - 1), SECOND)
  }

  datatype Window = Window(start: int, count: int)
  datatype Decision = Admitted | Refused(retryAfter: int)

  const NO_WINDOW := Window(0, 0)

  function Step(limit: int, window: int, w: Window, now: int): (Window, Decision) {
    var current := if w.start == 0 || now >= w.start + window then Window(now, 0) else w;
    if current.count < limit then (current.(count := current.count + 1), Admitted)
    else (current, Refused(RetryAfterSeconds(Since(current.start + window, now))))
  }

  /** The limiter's state after requests arrived at the given instants, in order. */
  function After(limit: int, window: int, times: seq<int>): Window {
    if times == [] then NO_WINDOW
    else Step(limit, window, After(limit, window, times[..|times| - 1]), times[|times| - 1]).0
  }

  /** What request i of the run is told. */
  function DecisionAt(limit: int, window: int, times: seq<int>, i: nat): Decision
    requires i < |times|
  {
    Step(limit, window, After(limit, window, times[..i]), times[i]).1
  }

  /** How many requests of the run were admitted at an instant in [lo, hi). */
  function Admissions(limit: int, window: int, times: seq<int>, lo: int, hi: int): nat {
    if times == [] then 0
    else
      var n := |times| - 1;
      Admissions(limit, window, times[..n], lo, hi)
      + if lo <= times[n] < hi && DecisionAt(limit, window, times, n).Admitted? then 1 else 0
  }

  /** The clock never runs backwards and never shows Go's zero time. */
  ghost predicate Clock(times: seq<int>) {
    && (forall i :: 0 <= i < |times| ==> times[i] != 0)
    && (forall i, j :: 0 <= i < j < |times| ==> times[i] <= times[j])
  }

  lemma {:induction false} NoneBefore(limit: int, window: int, times: seq<int>, lo: int, hi: int)
    requires forall i :: 0 <= i < |times| ==> times[i] < lo
    ensures Admissions(limit, window, times, lo, hi) == 0
  {
    if times != [] {
      NoneBefore(limit, window, times[..|times| - 1], lo, hi);
    }
  }

  /** The counter is exactly the number of admissions since the current window began. */
  lemma {:induction false} CounterIsExact(limit: int, window: int, times: seq<int>, hi: int)
    requires limit > 0 && window > 0 && Clock(times) && times != []
    requires hi > times[|times| - 1]
    ensures
      var w := After(limit, window, times);
      && w.start != 0
      && 1 <= w.count <= limit
      && w.start <= times[|times| - 1] < w.start + window
      && Admissions(limit, window, times, w.start, hi) == w.count
  {
    var n := |times| - 1;
    var before := times[..n];
    var w := After(limit, window, times);
    if before != [] {
      CounterIsExact(limit, window, before, hi);
    }
    if w.start == times[n] && w != After(limit, window, before) {
      var p := After(limit, window, before);
      if before == [] || times[n] >= p.start + window {
        forall i | 0 <= i < n ensures before[i] < times[n] {
          assert before[i] <= before[n - 1];
        }
        NoneBefore(limit, window, before, w.start, hi);
      }
    }
  }

  /** While the current window began before the interval, the interval holds all but its first
      admission; when it began inside, the only other window reaching into the interval adds at
      most limit - 1. */
  lemma {:induction false} BoundByWindow(limit: int, window: int, times: seq<int>, a: int)
    requires limit > 0 && window > 0 && Clock(times) && times != []
    ensures
      var w := After(limit, window, times);
      var seen := Admissions(limit, window, times, a, a + window);
      && (w.start < a ==> seen <= w.count - 1)
      && (a <= w.start < a + window ==> seen <= limit - 1 + w.count)
      && seen <= 2 * limit - 1
  {
    var n := |times| - 1;
    CounterIsExact(limit, window, times, times[n] + 1);
    if times[n] < a {
      NoneBefore(limit, window, times, a, a + window);
    } else if n > 0 {
      BoundByWindow(limit, window, times[..n], a);
      CounterIsExact(limit, window, times[..n], times[n] + 1);
    } else {
      assert times[..n] == [];
    }
  }

  /** Over a whole run, no half-open interval as long as the window admits 2 * limit requests. */
  lemma {:induction false} SlidingBound(limit: int, window: int, times: seq<int>, a: int)
    requires limit > 0 && window > 0 && Clock(times)
    ensures Admissions(limit, window, times, a, a + window) <= 2 * limit - 1
  {
    if times != [] {
      BoundByWindow(limit, window, times, a);
    }
  }

  function Repeat(t: int, k: nat): (r: seq<int>)
    ensures |r| == k && forall i :: 0 <= i < k ==> r[i] == t
  {
    seq(k, i => t)
  }

  lemma {:induction false} Burst(limit: int, window: int, times: seq<int>, t: int, k: nat, lo: int, hi: int)
    requires limit > 0 && window > 0
    requires
      var w := After(limit, window, times);
      w.start != 0 && t < w.start + window && w.count + k <= limit
    ensures
      var w := After(limit, window, times);
      && After(limit, window, times + Repeat(t, k)) == w.(count := w.count + k)
      && Admissions(limit, window, times + Repeat(t, k), lo, hi)
         == Admissions(limit, window, times, lo, hi) + if lo <= t < hi then k else 0
  {
    if k == 0 {
      assert times + Repeat(t, k) == times;
    } else {
      Burst(limit, window, times, t, k - 1, lo, hi);
      var all := times + Repeat(t, k);
      assert all[..|all| - 1] == times + Repeat(t, k - 1);
    }
  }

  lemma OpeningRequest(limit: int, window: int, t: int, lo: int, hi: int)
    requires limit > 0 && window > 0
    ensures After(limit, window, [t]) == Window(t, 1)
    ensures Admissions(limit, window, [t], lo, hi) == if lo <= t < hi then 1 else 0
  {
    assert [t][..0] == [];
  }

  lemma NextWindow(limit: int, window: int, times: seq<int>, t: int, lo: int, hi: int)
    requires limit > 0 && window > 0 && t >= After(limit, window, times).start + window
    ensures After(limit, window, times + [t]) == Window(t, 1)
    ensures Admissions(limit, window, times + [t], lo, hi)
            == Admissions(limit, window, times, lo, hi) + if lo <= t < hi then 1 else 0
  {
    var all := times + [t];
    assert all[..|times|] == times;
  }

  /** The bound is reached: one request opens a window, the rest of its quota arrives at the end of
      that window, and a full quota follows just after it. */
  lemma BoundIsReached(limit: int, window: int) returns (times: seq<int>)
    requires limit > 0 && window > 1
    ensures Clock(times)
    ensures Admissions(limit, window, times, window, 2 * window) == 2 * limit - 1
  {
    hide After, Admissions;
    OpeningRequest(limit, window, 1, window, 2 * window);
    var first := [1] + Repeat(window, limit - 1);
    Burst(limit, window, [1], window, limit - 1, window, 2 * window);
    NextWindow(limit, window, first, window + 1, window, 2 * window);
    Burst(limit, window, first + [window + 1], window + 1, limit - 1, window, 2 * window);
    times := first + [window + 1] + Repeat(window + 1, limit - 1);
  }

  /** A window of one nanosecond restarts at every instant, so an interval of that length, which is one
      instant, admits no more than the limit. */
  lemma {:induction false} OneTickBound(limit: int, times: seq<int>, a: int)
    requires limit > 0 && Clock(times)
    ensures Admissions(limit, 1, times, a, a + 1) <= limit
    ensures times != [] && times[|times| - 1] == a ==>
              Admissions(limit, 1, times, a, a + 1) <= After(limit, 1, times).count
  {
    if times != [] {
      var n := |times| - 1;
      OneTickBound(limit, times[..n], a);
      CounterIsExact(limit, 1, times, times[n] + 1);
      if n == 0 {
        assert times[..n] == [];
      } else if times[n - 1] != a == times[n] {
        NoneBefore(limit, 1, times[..n], a, a + 1);
      }
    }
  }

  /** A request is refused exactly when its window has not passed and limit requests were already
      admitted in it. */
  lemma {:induction false} RefusedIffWindowFull(limit: int, window: int, times: seq<int>, now: int)
    requires limit > 0 && window > 0 && Clock(times + [now])
    ensures
      var w := After(limit, window, times);
      DecisionAt(limit, window, times + [now], |times|).Refused?
      <==> times != [] && now < w.start + window
           && Admissions(limit, window, times, w.start, now + 1) == limit
  {
    var all := times + [now];
    assert all[..|times|] == times;
    if times != [] {
      assert forall i :: 0 <= i < |times| ==> times[i] == all[i];
      assert times[|times| - 1] == all[|times| - 1] <= all[|times|] == now;
      CounterIsExact(limit, window, times, now + 1);
    }
  }

  ghost predicate IsCeiling(seconds: int, duration: int) {
    (seconds - 1) * SECOND < duration <= seconds * SECOND
  }

  /** Rounding up to whole seconds is right exactly when adding a second less a nanosecond stays
      within 64 bits. */
  lemma RetryAfterRoundsUp(duration: int)
    requires 0 < duration < INT64_LIMIT
    ensures IsCeiling(RetryAfterSeconds(duration), duration) <==> duration <= INT64_LIMIT - SECOND
  {
    if duration <= INT64_LIMIT - SECOND {
      assert Wrap64(Wrap64(duration + SECOND) - 1) == duration + SECOND - 1;
    } else {
      assert Wrap64(Wrap64(duration + SECOND) - 1) < 0;
      assert RetryAfterSeconds(duration) <= 0;
    }
  }

  /** A refused request is told the least number of whole seconds after which the next request, with
      nothing in between, is admitted, exactly when the time left is at most 2^63 - 10^9 ns. Above that
      the addition overflows and the wait comes out as no wait at all. */
  lemma RetryAfterIsLeastIff(limit: int, window: int, times: seq<int>, now: int)
    requires limit > 0 && 0 < window < INT64_LIMIT && Clock(times + [now])
    requires DecisionAt(limit, window, times + [now], |times|).Refused?
    ensures
      var wait := DecisionAt(limit, window, times + [now], |times|).retryAfter;
      var left := After(limit, window, times).start + window - now;
      && (left <= INT64_LIMIT - SECOND <==> IsLeastDelay(limit, window, times, now, wait))
      && (left > INT64_LIMIT - SECOND ==>
            wait <= 0 && DecisionAt(limit, window, times + [now, now], |times| + 1).Refused?)
  {
    hide After, RetryAfterSeconds;
    var left := After(limit, window, times).start + window - now;
    RefusalTellsTimeLeft(limit, window, times, now);
    RetryAfterRoundsUp(left);
    if left <= INT64_LIMIT - SECOND {
      CeilingIsLeast(limit, window, times, now, RetryAfterSeconds(left));
    } else {
      OverflowIsNegative(left);
      AfterRefusal(limit, window, times, now, 0);
    }
  }

  lemma CeilingIsLeast(limit: int, window: int, times: seq<int>, now: int, wait: int)
    requires limit > 0 && 0 < window < INT64_LIMIT && Clock(times + [now])
    requires DecisionAt(limit, window, times + [now], |times|).Refused?
    requires
      var left := After(limit, window, times).start + window - now;
      left > 0 && IsCeiling(wait, left)
    ensures IsLeastDelay(limit, window, times, now, wait)
  {
    hide After, DecisionAt;
    var left := After(limit, window, times).start + window - now;
    forall d: nat | now + d * SECOND != 0
      ensures DecisionAt(limit, window, times + [now, now + d * SECOND], |times| + 1).Admitted? <==> d >= wait
    {
      AfterRefusal(limit, window, times, now, d * SECOND);
    }
  }

  lemma OverflowIsNegative(duration: int)
    requires INT64_LIMIT - SECOND < duration < INT64_LIMIT
    ensures RetryAfterSeconds(duration) <= 0
  {
    assert Wrap64(Wrap64(duration + SECOND) - 1) < 0;
  }

  lemma RefusalTellsTimeLeft(limit: int, window: int, times: seq<int>, now: int)
    requires limit > 0 && 0 < window < INT64_LIMIT && Clock(times + [now])
    requires DecisionAt(limit, window, times + [now], |times|).Refused?
    ensures
      var left := After(limit, window, times).start + window - now;
      && 0 < left <= window
      && DecisionAt(limit, window, times + [now], |times|).retryAfter == RetryAfterSeconds(left)
  {
    hide RetryAfterSeconds;
    assert (times + [now])[..|times|] == times;
    TimeLeft(limit, window, times, now);
  }

  /** wait is the first delay in whole seconds at which the next request is admitted. The one delay that
      would show the clock as Go's zero time is left out. */
  ghost predicate IsLeastDelay(limit: int, window: int, times: seq<int>, now: int, wait: int) {
    && wait >= 1
    && forall d: nat {:trigger now + d * SECOND} | now + d * SECOND != 0 ::
         DecisionAt(limit, window, times + [now, now + d * SECOND], |times| + 1).Admitted? <==> d >= wait
  }

  /** A refusal leaves the window as it was, with time left in it. */
  lemma TimeLeft(limit: int, window: int, times: seq<int>, now: int)
    requires limit > 0 && 0 < window < INT64_LIMIT && Clock(times + [now])
    requires DecisionAt(limit, window, times + [now], |times|).Refused?
    ensures
      var w := After(limit, window, times);
      && w.start != 0 && w.count == limit && 0 < w.start + window - now <= window
      && After(limit, window, times + [now]) == w
  {
    var all := times + [now];
    assert all[..|times|] == times;
    if times != [] {
      assert forall i :: 0 <= i < |times| ==> times[i] == all[i];
      assert times[|times| - 1] == all[|times| - 1] <= all[|times|] == now;
      CounterIsExact(limit, window, times, now + 1);
    }
  }

  lemma AfterRefusal(limit: int, window: int, times: seq<int>, now: int, delay: nat)
    requires limit > 0 && 0 < window < INT64_LIMIT && Clock(times + [now])
    requires DecisionAt(limit, window, times + [now], |times|).Refused?
    ensures
      var left := After(limit, window, times).start + window - now;
      DecisionAt(limit, window, times + [now, now + delay], |times| + 1).Admitted? <==> delay >= left
  {
    TimeLeft(limit, window, times, now);
    var next := times + [now, now + delay];
    assert next[..|times| + 1] == times + [now];
  }

  /** With a window of 2^63 - 1 ns the second of two requests at one instant is refused and told a
      negative delay of about 292 years. */
  lemma LongWindowAdvertisesNoDelay()
    ensures DecisionAt(1, INT64_LIMIT - 1, [1, 1], 1) == Refused(-9_223_372_035)
  {
    assert [1, 1][..1] == [1] && [1][..0] == [];
    assert After(1, INT64_LIMIT - 1, [1]) == Window(1, 1);
  }

  lemma {:induction false} ZeroClockLeavesNoWindow(limit: int, window: int, times: seq<int>)
    requires forall k :: 0 <= k < |times| ==> times[k] == 0
    ensures After(limit, window, times).start == 0
  {
    if times != [] {
      ZeroClockLeavesNoWindow(limit, window, times[..|times| - 1]);
    }
  }

  /** A clock stuck at Go's zero time restarts the window on every call, so nothing is refused. */
  lemma {:induction false} ZeroClockNeverRefuses(limit: int, window: int, times: seq<int>, i: nat)
    requires limit > 0 && i < |times|
    requires forall k :: 0 <= k < |times| ==> times[k] == 0
    ensures DecisionAt(limit, window, times, i).Admitted?
  {
    ZeroClockLeavesNoWindow(limit, window, times[..i]);
  }

  /** The limiter itself; the mutex makes every call one atomic step. */
  class FixedWindowLimiter {
    const limit: int
    const window: int
    var windowStart: int
    var count: int
    ghost var history: seq<int>

    ghost predicate Valid()
      reads this
    {
      limit > 0 && window > 0 && Window(windowStart, count) == After(limit, window, history)
    }

    constructor (limit: int, window: int)
      requires limit > 0 && window > 0
      ensures Valid() && history == [] && this.limit == limit && this.window == window
    {
      this.limit := limit;
      this.window := window;
      windowStart := 0;
      count := 0;
      history := [];
    }

    method Allow(now: int) returns (allowed: bool, retryAfter: int)
      requires Valid()
      modifies this
      ensures Valid() && history == old(history) + [now]
      ensures
        match DecisionAt(limit, window, history, |history| - 1)
        case Admitted => allowed && retryAfter == 0
        case Refused(s) => !allowed && retryAfter == s
    {
      history := history + [now];
      assert history[..|history| - 1] == old(history);
      if windowStart == 0 || !(now < windowStart + window) {
        windowStart := now;
        count := 0;
      }
      if count < limit {
        count := count + 1;
        return true, 0;
      }
      return false, RetryAfterSeconds(Since(windowStart + window, now));
    }
  }

  datatype Verdict = Next | TooManyRequests(retryAfter: int)

  /** The middleware: a non-positive limit or window switches limiting off. */
  class Middleware {
    const limiter: FixedWindowLimiter?

    constructor (limit: int, window: int)
      ensures limiter == null <==> limit <= 0 || window <= 0
      ensures limiter != null ==>
                && fresh(limiter) && limiter.Valid() && limiter.history == []
                && limiter.limit == limit && limiter.window == window
    {
      if limit <= 0 || window <= 0 {
        limiter := null;
      } else {
        limiter := new FixedWindowLimiter(limit, window);
      }
    }

    method Serve(now: int) returns (v: Verdict)
      requires limiter != null ==> limiter.Valid()
      modifies limiter
      ensures limiter == null ==> v == Next
      ensures limiter != null ==>
                && limiter.Valid() && limiter.history == old(limiter.history) + [now]
                && var d := DecisionAt(limiter.limit, limiter.window, limiter.history, |limiter.history| - 1);
                   v == if d.Admitted? then Next else TooManyRequests(d.retryAfter)
    {
      if limiter == null {
        return Next;
      }
      var allowed, retryAfter := limiter.Allow(now);
      v := if allowed then Next else TooManyRequests(retryAfter);
    }
  }
}
