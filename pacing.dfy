/** Request pacing: `randomDelay` (gmbrankingscrapping.ts:1247-1251) and the
    `SessionManager` class (1267-1292). The clock and the random draws are
    parameters: `now` and `resumedAt` are readings of `Date.now()`, a draw
    `floor(Math.random() * n)` is an integer in `[0, n)`, and the jitter
    `Math.random() * 0.3 * b - 0.15 * b` is a real in `[-0.15 b, 0.15 b)`. */
module Pacing {

  function MaxReal(a: real, b: real): real {
    if a >= b then a else b
  }

  /** The values `floor(Math.random() * (max - min + 1) + min)` can take: the
      range `[min, max]`, or, when `min` exceeds `max`, the range
      `[max + 1, min]` the negative span reaches down to. */
  predicate BaseDraw(min: int, max: int, base: int) {
    if min <= max then min <= base <= max else max + 1 <= base <= min
  }

  /** `randomDelay(min, max)` for non-negative bounds: the drawn base plus
      the jitter, and never less than 400 ms. */
  function RandomDelay(min: int, max: int, base: int, jitter: real): (ms: real)
    requires 0 <= min && 0 <= max && BaseDraw(min, max, base)
    requires -0.15 * base as real <= jitter < 0.15 * base as real
    ensures ms >= 400.0 && ms >= base as real + jitter
    ensures min <= max ==> ms >= 0.85 * min as real
    ensures min <= max ==> ms <= MaxReal(400.0, 1.15 * max as real)
    ensures ms == 400.0 || base as real + jitter == ms
  {
    MaxReal(400.0, base as real + jitter)
  }

  /** `Math.min(2000, Math.floor(count * 150))`. */
  function Extra(count: int): (r: int)
    ensures r <= 2000 && (count >= 14 ==> r == 2000)
    ensures 0 <= count <= 13 ==> r == 150 * count
  {
    if 150 * count < 2000 then 150 * count else 2000
  }

  /** The target interval for the `count`-th request with the base draw
      `baseDraw` (`1200 + floor(Math.random() * 800)`). */
  function TargetInterval(count: int, baseDraw: int): (r: int)
    requires 0 <= baseDraw < 800
    ensures count >= 0 ==> 1200 <= r <= 3999
    ensures r - (1200 + baseDraw) == Extra(count)
  {
    1200 + baseDraw + Extra(count)
  }

  /** With the same base draw the target interval never shrinks as the
      request count grows, and stops growing from the fourteenth request. */
  lemma TargetIntervalMonotone(c1: int, c2: int, baseDraw: int)
    requires 0 <= baseDraw < 800 && c1 <= c2
    ensures TargetInterval(c1, baseDraw) <= TargetInterval(c2, baseDraw)
    ensures c1 >= 14 ==> TargetInterval(c1, baseDraw) == TargetInterval(c2, baseDraw)
  {
  }

  class SessionManager {
    var requestCount: nat
    var sessionStartTime: int
    var lastRequestTime: int

    /** `new SessionManager()` at time `now`. */
    constructor(now: int)
      ensures requestCount == 0 && sessionStartTime == now && lastRequestTime == 0
    {
      requestCount := 0;
      sessionStartTime := now;
      lastRequestTime := 0;
    }

    /** `paceRequest`: count the request; wait only when less than the target
      interval has passed since the last request, for `randomDelay(target -
      elapsed, target + 800)`; then record when the request goes out. The
      result is the timer duration, 0 when there is no wait. */
    method PaceRequest(now: int, baseDraw: int, delayBase: int, jitter: real, resumedAt: int)
      returns (wait: real)
      modifies this
      requires 0 <= baseDraw < 800
      requires var target := TargetInterval(requestCount + 1, baseDraw);
        now - lastRequestTime < target ==>
          && BaseDraw(target - (now - lastRequestTime), target + 800, delayBase)
          && -0.15 * delayBase as real <= jitter < 0.15 * delayBase as real
      ensures requestCount == old(requestCount) + 1
      ensures sessionStartTime == old(sessionStartTime)
      ensures lastRequestTime == resumedAt
      ensures var target := TargetInterval(requestCount, baseDraw);
        var elapsed := now - old(lastRequestTime);
        && (elapsed >= target ==> wait == 0.0)
        && (elapsed < target ==>
              && wait == RandomDelay(target - elapsed, target + 800, delayBase, jitter)
              && wait >= 400.0)
        && (0 <= elapsed < target ==>
              && wait >= 0.85 * (target - elapsed) as real
              && elapsed as real + wait >= 0.85 * target as real
              && wait <= MaxReal(400.0, 1.15 * (target + 800) as real))
    {
      requestCount := requestCount + 1;
      var timeSinceLastRequest := now - lastRequestTime;
      var targetInterval := 1200 + baseDraw + Extra(requestCount);
      wait := 0.0;
      if timeSinceLastRequest < targetInterval {
        wait := RandomDelay(targetInterval - timeSinceLastRequest, targetInterval + 800, delayBase, jitter);
      }
      lastRequestTime := resumedAt;
    }

    /** `shouldTakeBreak`: more than twenty minutes into the session and more
        than five requests made. */
    predicate ShouldTakeBreak(now: int)
      reads this
    {
      now - sessionStartTime > 20 * 60 * 1000 && requestCount > 5
    }
  }

  /** Both conditions are needed: the first five requests never call for a
      break, however long the session, and neither does the first twenty
      minutes, however many requests. */
  lemma BreakNeedsBoth(m: SessionManager, now: int)
    ensures m.ShouldTakeBreak(now) <==> now - m.sessionStartTime > 1200000 && m.requestCount >= 6
  {
  }

  /** A new session's first request at any time after the epoch's first
      four seconds goes out at once: `lastRequestTime` starts at 0. */
  method FirstRequestNeverWaits(start: int, now: int, baseDraw: int, delayBase: int, jitter: real, resumedAt: int)
    returns (wait: real)
    requires 0 <= baseDraw < 800 && now > 3999
    ensures wait == 0.0
  {
    var m := new SessionManager(start);
    wait := m.PaceRequest(now, baseDraw, delayBase, jitter, resumedAt);
  }

  /** The jitter can make a wait shorter than the time still missing: exactly
      when both the jittered base and the 400 ms floor fall short of it, as
      with nothing elapsed, a target of 2000 ms and the smallest draw and
      jitter, where the request goes out after 1700 ms. */
  lemma WaitCanUndershootTarget(min: int, max: int, base: int, jitter: real)
    requires 0 <= min && 0 <= max && BaseDraw(min, max, base)
    requires -0.15 * base as real <= jitter < 0.15 * base as real
    ensures RandomDelay(min, max, base, jitter) < min as real
        <==> base as real + jitter < min as real && 400.0 < min as real
    ensures RandomDelay(2000, 2800, 2000, -300.0) == 1700.0
  {
  }
}
