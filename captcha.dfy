/** Captcha handling: the interstitial classifier `isCaptchaInterstitial`
    (gmbrankingscrapping.ts:1180-1188) and the backoff schedule of
    `mitigateCaptcha` (1105-1178). The page is replaced by `present(p)`,
    the answer of the p-th captcha probe, and `Math.floor(Math.random() *
    20000)` of round i by `jitter[i]`. */
module Captcha {
  import opened Wrappers
  import opened Text

  /** `isCaptchaInterstitial`: a `/sorry/` or interstitial URL, or page text
      (lower-cased) with one of Google's block messages. */
  predicate IsCaptchaInterstitial(url: string, html: string) {
    || Contains(url, "/sorry/") || Contains(url, "/interstitial") || Contains(url, "sorry/index")
    || BlockText(Lower(html))
  }

  predicate BlockText(h: string) {
    || Contains(h, "unusual traffic")
    || Contains(h, "i'm not a robot")
    || Contains(h, "recaptcha")
    || Contains(h, "having trouble accessing google search")
  }

  lemma LowerIdempotent(s: string)
    ensures Lower(Lower(s)) == Lower(s)
  {
    assert forall i :: 0 <= i < |s| ==> Lower(Lower(s))[i] == Lower(s)[i];
  }

  /** The page-text test ignores case: lower-casing the page first changes
      nothing. */
  lemma ClassifierIgnoresCase(url: string, html: string)
    ensures IsCaptchaInterstitial(url, Lower(html)) == IsCaptchaInterstitial(url, html)
  {
    LowerIdempotent(html);
  }

  /** The URL test is case-sensitive and wins whatever the page says. */
  lemma SorryUrlIsInterstitial(url: string, html: string)
    requires Contains(url, "/sorry/")
    ensures IsCaptchaInterstitial(url, html)
  {
  }

  /** Any page whose text holds a block message is an interstitial, whatever
      the URL, and the message may be in any ASCII case. */
  lemma BlockMessageIsInterstitial(url: string, html: string, pre: string, m: string, post: string)
    requires html == pre + m + post && Lower(m) == "unusual traffic"
    ensures IsCaptchaInterstitial(url, html)
  {
    LowerAppend(pre + m, post);
    LowerAppend(pre, m);
    ContainsMiddle(Lower(pre), "unusual traffic", Lower(post));
  }

  /** The retry strategy after an unsuccessful wait. */
  datatype Strategy = Reload | ViaHomepage | ClearState

  /** Round 0 reloads, round 1 goes through the homepage, later rounds clear
      cookies and cache first. */
  function StrategyFor(i: nat): (s: Strategy)
    ensures i == 0 <==> s == Reload
    ensures i == 1 <==> s == ViaHomepage
    ensures i >= 2 <==> s == ClearState
  {
    if i == 0 then Reload else if i == 1 then ViaHomepage else ClearState
  }

  /** `baseDelay` of round i: 20 s, 35 s, 50 s, ... */
  function BaseDelay(i: nat): (d: int)
    ensures d >= 20000
  {
    20000 + i * 15000
  }

  /** The number of 5-second wait steps a delay is cut into. */
  function WaitSteps(delay: int): (n: int)
    ensures 5000 * n <= delay < 5000 * n + 5000
  {
    delay / 5000
  }

  /** Later rounds wait strictly longer before any jitter, and at least as
      many steps whatever the jitter: round i takes between 3i+4 and 3i+7
      steps. */
  lemma BackoffGrows(i: nat, j: nat, jitter: int)
    requires 0 <= jitter < 20000
    ensures i < j ==> BaseDelay(i) < BaseDelay(j)
    ensures 3 * i + 4 <= WaitSteps(BaseDelay(i) + jitter) <= 3 * i + 7
  {
  }

  /** One round of the mitigation: its number, its delay, how many 5 s waits
      it slept, and the retry strategy it ended with (`None` when a probe
      during the wait found the captcha gone). */
  datatype Round = Round(index: nat, delay: int, sleeps: nat, retry: Option<Strategy>)

  /** What a wait observed: whether a probe found the captcha gone, the
      waits slept and the next probe's number. */
  datatype WaitResult = WaitResult(cleared: bool, sleeps: nat, probes: nat)

  /** The rounds run, whether a probe found the captcha gone, and how many
      probes were made. */
  datatype Trace = Trace(resolved: bool, rounds: seq<Round>, probes: nat)

  /** `steps` waits of 5 s, each followed by probe `probe`, `probe + 1`, ...,
      stopping at the first probe that finds no captcha. */
  function Wait(present: nat -> bool, probe: nat, steps: int): WaitResult
    decreases steps
  {
    if steps <= 0 then WaitResult(false, 0, probe)
    else if !present(probe) then WaitResult(true, 1, probe + 1)
    else
      var w := Wait(present, probe + 1, steps - 1);
      WaitResult(w.cleared, w.sleeps + 1, w.probes)
  }

  predicate JitterOk(attempts: int, jitter: seq<int>) {
    attempts <= |jitter| && forall k :: 0 <= k < |jitter| ==> 0 <= jitter[k] < 20000
  }

  /** Rounds `i..attempts-1`, the first probe of round i being `probe`: a
      clear probe ends it at once; otherwise the round's backoff wait and, if
      that did not see the captcha go, its retry strategy and the next round. */
  function RoundsFrom(attempts: int, jitter: seq<int>, present: nat -> bool, i: nat, probe: nat): Trace
    requires JitterOk(attempts, jitter)
    decreases attempts - i
  {
    if i >= attempts then Trace(false, [], probe)
    else if !present(probe) then Trace(true, [], probe + 1)
    else
      var delay := BaseDelay(i) + jitter[i];
      var w := Wait(present, probe + 1, WaitSteps(delay));
      if w.cleared then Trace(true, [Round(i, delay, w.sleeps, None)], w.probes)
      else
        var rest := RoundsFrom(attempts, jitter, present, i + 1, w.probes);
        Trace(rest.resolved, [Round(i, delay, w.sleeps, Some(StrategyFor(i)))] + rest.rounds, rest.probes)
  }

  /** The `waitSteps` loop: sleep 5 s, then probe, until a probe finds the
      captcha gone or the steps run out. */
  method WaitOut(present: nat -> bool, probe0: nat, waitSteps: int)
    returns (cleared: bool, sleeps: nat, probe: nat)
    ensures WaitResult(cleared, sleeps, probe) == Wait(present, probe0, waitSteps)
  {
    sleeps := 0;
    probe := probe0;
    var step := 0;
    while step < waitSteps
      invariant step <= waitSteps || waitSteps <= 0
      invariant probe == probe0 + step && sleeps == step
      invariant var w := Wait(present, probe, waitSteps - step);
        WaitResult(w.cleared, w.sleeps + sleeps, w.probes) == Wait(present, probe0, waitSteps)
      decreases waitSteps - step
    {
      sleeps := sleeps + 1;
      if !present(probe) {
        return true, sleeps, probe + 1;
      }
      probe := probe + 1;
      step := step + 1;
    }
    return false, sleeps, probe;
  }

  /** `mitigateCaptcha(page, url, attempts)`, returning whether it stopped
      because the captcha was gone, and the rounds it ran. */
  method MitigateCaptcha(attempts: int, jitter: seq<int>, present: nat -> bool)
    returns (resolved: bool, rounds: seq<Round>)
    requires JitterOk(attempts, jitter)
    ensures resolved == RoundsFrom(attempts, jitter, present, 0, 0).resolved
    ensures rounds == RoundsFrom(attempts, jitter, present, 0, 0).rounds
  {
    ghost var whole := RoundsFrom(attempts, jitter, present, 0, 0);
    rounds := [];
    var probe: nat := 0;
    var i: nat := 0;
    while i < attempts
      invariant Resumes(attempts, jitter, present, rounds, i, probe, whole)
      decreases attempts - i
    {
      if !present(probe) {
        RoundsNoCaptcha(attempts, jitter, present, rounds, i, probe, whole);
        return true, rounds;
      }
      var baseDelay := BaseDelay(i);
      var delay := baseDelay + jitter[i];
      var waitSteps := WaitSteps(delay);
      var cleared, sleeps, next := WaitOut(present, probe + 1, waitSteps);
      if cleared {
        RoundsCleared(attempts, jitter, present, rounds, i, probe, sleeps, next, whole);
        return true, rounds + [Round(i, delay, sleeps, None)];
      }
      RoundsGoOn(attempts, jitter, present, rounds, i, probe, sleeps, next, whole);
      rounds := rounds + [Round(i, delay, sleeps, Some(StrategyFor(i)))];
      probe := next;
      i := i + 1;
    }
    RoundsDone(attempts, jitter, present, rounds, i, probe, whole);
    return false, rounds;
  }

  /** The run `whole` continues, after `rounds`, with the rounds from round
      `i` whose first probe is `probe`. */
  ghost predicate Resumes(attempts: int, jitter: seq<int>, present: nat -> bool,
                          rounds: seq<Round>, i: nat, probe: nat, whole: Trace)
    requires JitterOk(attempts, jitter)
  {
    var t := RoundsFrom(attempts, jitter, present, i, probe);
    t.resolved == whole.resolved && rounds + t.rounds == whole.rounds
  }

  /** Past the last round the run has given up. */
  lemma RoundsDone(attempts: int, jitter: seq<int>, present: nat -> bool,
                   rounds: seq<Round>, i: nat, probe: nat, whole: Trace)
    requires JitterOk(attempts, jitter) && i >= attempts
    requires Resumes(attempts, jitter, present, rounds, i, probe, whole)
    ensures !whole.resolved && rounds == whole.rounds
  {
  }

  /** A round whose first probe finds no captcha ends the run, resolved. */
  lemma RoundsNoCaptcha(attempts: int, jitter: seq<int>, present: nat -> bool,
                        rounds: seq<Round>, i: nat, probe: nat, whole: Trace)
    requires JitterOk(attempts, jitter) && i < attempts && !present(probe)
    requires Resumes(attempts, jitter, present, rounds, i, probe, whole)
    ensures whole.resolved && rounds == whole.rounds
  {
  }

  /** A round whose wait sees the captcha go is the last one, resolved. */
  lemma RoundsCleared(attempts: int, jitter: seq<int>, present: nat -> bool,
                      rounds: seq<Round>, i: nat, probe: nat, sleeps: nat, next: nat, whole: Trace)
    requires JitterOk(attempts, jitter) && i < attempts && present(probe)
    requires Wait(present, probe + 1, WaitSteps(BaseDelay(i) + jitter[i])) == WaitResult(true, sleeps, next)
    requires Resumes(attempts, jitter, present, rounds, i, probe, whole)
    ensures whole.resolved && rounds + [Round(i, BaseDelay(i) + jitter[i], sleeps, None)] == whole.rounds
  {
  }

  /** A round whose wait runs out retries and hands over to the next round. */
  lemma RoundsGoOn(attempts: int, jitter: seq<int>, present: nat -> bool,
                   rounds: seq<Round>, i: nat, probe: nat, sleeps: nat, next: nat, whole: Trace)
    requires JitterOk(attempts, jitter) && i < attempts && present(probe)
    requires Wait(present, probe + 1, WaitSteps(BaseDelay(i) + jitter[i])) == WaitResult(false, sleeps, next)
    requires Resumes(attempts, jitter, present, rounds, i, probe, whole)
    ensures Resumes(attempts, jitter, present,
                    rounds + [Round(i, BaseDelay(i) + jitter[i], sleeps, Some(StrategyFor(i)))], i + 1, next, whole)
  {
    var r := Round(i, BaseDelay(i) + jitter[i], sleeps, Some(StrategyFor(i)));
    var rest := RoundsFrom(attempts, jitter, present, i + 1, next);
    assert RoundsFrom(attempts, jitter, present, i, probe) == Trace(rest.resolved, [r] + rest.rounds, rest.probes);
    assert rounds + ([r] + rest.rounds) == (rounds + [r]) + rest.rounds;
  }

  /** Every probe from `lo` up to, not including, `hi` found a captcha. */
  predicate PresentFrom(present: nat -> bool, lo: nat, hi: int) {
    forall p :: lo <= p < hi ==> present(p)
  }

  /** The probes `lo .. hi - 1` of a run that made its last probe before
      `hi` and stopped (`stopped`) only at a clear one: all but the last
      found a captcha, and the last found none when it stopped. */
  predicate ProbesOk(present: nat -> bool, lo: nat, hi: nat, stopped: bool) {
    && lo <= hi
    && (stopped ==> lo < hi && !present(hi - 1))
    && PresentFrom(present, lo, if stopped then hi - 1 else hi)
  }

  /** A probe that found a captcha in front of a run keeps the run's
      probes in order. */
  lemma ProbesCons(present: nat -> bool, lo: nat, mid: nat, hi: nat, stopped: bool)
    requires present(lo) && mid == lo + 1 && ProbesOk(present, mid, hi, stopped)
    ensures ProbesOk(present, lo, hi, stopped)
  {
  }

  /** Two runs of probes back to back, the first one not stopped. */
  lemma ProbesJoin(present: nat -> bool, lo: nat, mid: nat, hi: nat, stopped: bool)
    requires ProbesOk(present, lo, mid, false) && ProbesOk(present, mid, hi, stopped)
    ensures ProbesOk(present, lo, hi, stopped)
  {
  }

  /** The probes of a wait: it is cleared exactly when its last probe found
      no captcha, and every earlier probe (every probe, when it is not
      cleared) found one; it sleeps once per probe, at most `steps` times,
      and exactly `steps` times when no probe saw the captcha go. */
  lemma {:induction false} WaitProbes(present: nat -> bool, probe: nat, steps: int)
    ensures var w := Wait(present, probe, steps);
      && ProbesOk(present, probe, w.probes, w.cleared)
      && w.sleeps == w.probes - probe <= (if steps <= 0 then 0 else steps)
      && (!w.cleared ==> w.sleeps == (if steps <= 0 then 0 else steps))
    decreases steps
  {
    if steps > 0 && present(probe) {
      var w := Wait(present, probe + 1, steps - 1);
      WaitProbes(present, probe + 1, steps - 1);
      ProbesCons(present, probe, probe + 1, w.probes, w.cleared);
    }
  }

  lemma {:induction false} RoundsProbes(attempts: int, jitter: seq<int>, present: nat -> bool, i: nat, probe: nat)
    requires JitterOk(attempts, jitter)
    ensures var t := RoundsFrom(attempts, jitter, present, i, probe);
      ProbesOk(present, probe, t.probes, t.resolved)
    decreases attempts - i
  {
    if i < attempts && present(probe) {
      var delay := BaseDelay(i) + jitter[i];
      var w := Wait(present, probe + 1, WaitSteps(delay));
      WaitProbes(present, probe + 1, WaitSteps(delay));
      ProbesCons(present, probe, probe + 1, w.probes, w.cleared);
      if !w.cleared {
        var rest := RoundsFrom(attempts, jitter, present, i + 1, w.probes);
        RoundsProbes(attempts, jitter, present, i + 1, w.probes);
        ProbesJoin(present, probe, w.probes, rest.probes, rest.resolved);
      }
    }
  }

  /** It returns as soon as a probe shows the captcha gone: it stops
      resolved exactly when some probe found no captcha, that probe is the
      last one made, and it gives up only after every probe found one. */
  lemma MitigationStopsAtFirstClearProbe(attempts: int, jitter: seq<int>, present: nat -> bool)
    requires JitterOk(attempts, jitter)
    ensures var t := RoundsFrom(attempts, jitter, present, 0, 0);
      && (t.resolved ==> t.probes > 0 && !present(t.probes - 1) && forall p :: 0 <= p < t.probes - 1 ==> present(p))
      && (!t.resolved ==> forall p :: 0 <= p < t.probes ==> present(p))
  {
    RoundsProbes(attempts, jitter, present, 0, 0);
  }

  /** No captcha at the first probe: nothing is done at all. */
  lemma NoCaptchaNoAction(attempts: int, jitter: seq<int>, present: nat -> bool)
    requires JitterOk(attempts, jitter) && attempts > 0 && !present(0)
    ensures RoundsFrom(attempts, jitter, present, 0, 0) == Trace(true, [], 1)
  {
  }

  /** Rounds `rs` are rounds `i`, `i + 1`, ... with their delays, and no
      more than `attempts - i` of them. */
  predicate InOrder(rs: seq<Round>, attempts: int, jitter: seq<int>, i: nat)
    requires attempts <= |jitter|
  {
    && (i <= attempts ==> |rs| <= attempts - i)
    && forall k :: 0 <= k < |rs| ==>
         rs[k].index == i + k && i + k < attempts && rs[k].delay == BaseDelay(i + k) + jitter[i + k]
  }

  /** Round i in front of rounds from i + 1 on keeps them in order. */
  lemma InOrderCons(rs: seq<Round>, rest: seq<Round>, r: Round, attempts: int, jitter: seq<int>, i: nat, j: nat)
    requires attempts <= |jitter| && j == i + 1 && i < attempts
    requires rs == [r] + rest && r.index == i && r.delay == BaseDelay(i) + jitter[i]
    requires InOrder(rest, attempts, jitter, j)
    ensures InOrder(rs, attempts, jitter, i)
  {
    forall k | 0 <= k < |rs|
      ensures rs[k].index == i + k && i + k < attempts && rs[k].delay == BaseDelay(i + k) + jitter[i + k]
    {
      if k > 0 {
        assert rs[k] == rest[k - 1];
      }
    }
  }

  /** Round k of the run from round i is round i + k, with that round's
      delay, and no more than `attempts - i` rounds run. */
  lemma {:induction false} RoundsInOrder(attempts: int, jitter: seq<int>, present: nat -> bool, i: nat, probe: nat)
    requires JitterOk(attempts, jitter)
    ensures InOrder(RoundsFrom(attempts, jitter, present, i, probe).rounds, attempts, jitter, i)
    decreases attempts - i
  {
    if i < attempts && present(probe) {
      var delay := BaseDelay(i) + jitter[i];
      var w := Wait(present, probe + 1, WaitSteps(delay));
      if !w.cleared {
        RoundsInOrder(attempts, jitter, present, i + 1, w.probes);
        InOrderCons(RoundsFrom(attempts, jitter, present, i, probe).rounds,
                    RoundsFrom(attempts, jitter, present, i + 1, w.probes).rounds,
                    Round(i, delay, w.sleeps, Some(StrategyFor(i))), attempts, jitter, i, i + 1);
      }
    }
  }

  /** Round k of a trace that starts at round i sleeps at most its number of
      steps and ends with the strategy for its number, after sleeping all its
      steps, except a last round whose wait saw the captcha go. */
  predicate RoundOk(t: Trace, i: nat, k: nat)
    requires k < |t.rounds|
  {
    && t.rounds[k].sleeps <= WaitSteps(t.rounds[k].delay)
    && (t.rounds[k].retry.Some? ==> t.rounds[k].sleeps == WaitSteps(t.rounds[k].delay))
    && (t.rounds[k].retry.Some? ==> t.rounds[k].retry.value == StrategyFor(i + k))
    && (t.rounds[k].retry.None? ==> k == |t.rounds| - 1 && t.resolved)
  }

  predicate AllRoundsOk(t: Trace, i: nat) {
    forall k :: 0 <= k < |t.rounds| ==> RoundOk(t, i, k)
  }

  /** Each round sleeps at most its number of steps; a round that retries
      slept all `floor(delay / 5000)` of them and retries with the strategy
      for its number; only a last round whose wait saw the captcha go does
      not retry. */
  lemma {:induction false} RoundsRetry(attempts: int, jitter: seq<int>, present: nat -> bool, i: nat, probe: nat)
    requires JitterOk(attempts, jitter)
    ensures AllRoundsOk(RoundsFrom(attempts, jitter, present, i, probe), i)
    decreases attempts - i
  {
    if i < attempts && present(probe) {
      var delay := BaseDelay(i) + jitter[i];
      var w := Wait(present, probe + 1, WaitSteps(delay));
      WaitProbes(present, probe + 1, WaitSteps(delay));
      if !w.cleared {
        RoundsRetry(attempts, jitter, present, i + 1, w.probes);
        RoundOkCons(RoundsFrom(attempts, jitter, present, i, probe), RoundsFrom(attempts, jitter, present, i + 1, w.probes),
                    Round(i, delay, w.sleeps, Some(StrategyFor(i))), i, i + 1);
      }
    }
  }

  /** A retrying round in front of a trace whose rounds are all in order
      keeps them all in order. */
  lemma RoundOkCons(t: Trace, rest: Trace, r: Round, i: nat, j: nat)
    requires j == i + 1
    requires t.rounds == [r] + rest.rounds && t.resolved == rest.resolved
    requires r.sleeps == WaitSteps(r.delay) && r.retry == Some(StrategyFor(i))
    requires AllRoundsOk(rest, j)
    ensures AllRoundsOk(t, i)
  {
    forall k | 0 <= k < |t.rounds| ensures RoundOk(t, i, k) {
      if k > 0 {
        assert t.rounds[k] == rest.rounds[k - 1];
        assert RoundOk(rest, j, k - 1);
      }
    }
  }

  /** The schedule of a whole run: at most `attempts` rounds, numbered from
      0; the delay of round k is its base delay plus less than 20 s of
      jitter; every round sleeps at most `floor(delay / 5000)` times; and a
      round that retries slept all of them and uses the strategy for its
      number (round 0 reloads, round 1 goes via the homepage, later rounds
      clear the browser state, as `StrategyFor` states). */
  lemma MitigationSchedule(attempts: int, jitter: seq<int>, present: nat -> bool)
    requires JitterOk(attempts, jitter) && attempts >= 0
    ensures var rs := RoundsFrom(attempts, jitter, present, 0, 0).rounds;
      && |rs| <= attempts
      && forall k :: 0 <= k < |rs| ==>
           && rs[k].index == k
           && BaseDelay(k) <= rs[k].delay < BaseDelay(k) + 20000
           && rs[k].sleeps <= WaitSteps(rs[k].delay)
           && (rs[k].retry.Some? ==> rs[k].retry.value == StrategyFor(k) && rs[k].sleeps == WaitSteps(rs[k].delay))
  {
    var t := RoundsFrom(attempts, jitter, present, 0, 0);
    RoundsInOrder(attempts, jitter, present, 0, 0);
    RoundsRetry(attempts, jitter, present, 0, 0);
    assert AllRoundsOk(t, 0);
    forall k | 0 <= k < |t.rounds|
      ensures t.rounds[k].index == k
      ensures BaseDelay(k) <= t.rounds[k].delay < BaseDelay(k) + 20000
      ensures t.rounds[k].sleeps <= WaitSteps(t.rounds[k].delay)
      ensures t.rounds[k].retry.Some? ==> t.rounds[k].retry.value == StrategyFor(k) && t.rounds[k].sleeps == WaitSteps(t.rounds[k].delay)
    {
      assert RoundOk(t, 0, k);
      assert jitter[k] < 20000;
    }
  }
}
