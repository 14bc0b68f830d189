/** Extended discovery in the Local Finder list, `scanLocalFinderForBusiness`
    (gmbrankingscrapping.ts:1296-1607). The browser is replaced by what the
    loop observes: for every pass, the titles `checkScript` sees before and
    after scrolling, the heading of the detail pane that opens when the
    candidate is clicked, and the card count; and the titles of the final
    scan after the loop. */
module Discovery {
  import opened Wrappers
  import opened Text
  import opened Matcher

  /** The titles `checkScript` reads, and the detail-pane heading
      (`rhsName`) shown after clicking the candidate it returns. */
  datatype Snapshot = Snapshot(titles: seq<string>, detailName: string)

  /** One pass of the scroll loop: the check before scrolling, the check
      after it, and `countNow`, the number of cards loaded. */
  datatype Pass = Pass(before: Snapshot, after: Snapshot, cardCount: nat)

  /** Why the scan ended: the core prefix was too short, a candidate was
      confirmed before or after a scroll, the card count stopped changing,
      or the pass budget ran out. */
  datatype Exit = Refused | VerifiedBefore | VerifiedAfter | Settled | Budget

  datatype Outcome = Outcome(foundIndex: int, foundTitle: Option<string>, passes: nat, exit: Exit)

  /** The detail heading, normalised, contains the core prefix. */
  predicate Verified(detailName: string, core: string) {
    |core| >= 4 && Contains(Normalize(detailName), core)
  }

  /** `res.title`: the card title at a 1-based index, null for -1. */
  function TitleAt(titles: seq<string>, idx: int): Option<string> {
    if 0 < idx <= |titles| then Some(titles[idx - 1]) else None
  }

  /** `finalRes`: the matcher on the final titles, with no verification. */
  function FinalScan(sigTokens: seq<string>, core: string, finalTitles: seq<string>, passes: nat, exit: Exit): Outcome {
    var r := FirstMatch(finalTitles, sigTokens, core);
    Outcome(r, TitleAt(finalTitles, r), passes, exit)
  }

  /** A pass in which neither check led to a confirmed candidate. */
  predicate Unconfirmed(p: Pass, sigTokens: seq<string>, core: string) {
    !(FirstMatch(p.before.titles, sigTokens, core) > 0 && Verified(p.before.detailName, core))
    && !(FirstMatch(p.after.titles, sigTokens, core) > 0 && Verified(p.after.detailName, core))
  }

  /** What the two checks of one pass decide: a confirmed candidate (found
      before or after the scroll), or nothing. */
  datatype Side = Before | After

  datatype Verdict = Accept(index: int, title: Option<string>, side: Side) | Reject

  /** The exit a confirmation on that side of the scroll leads to. */
  function ExitOf(side: Side): Exit {
    if side == Before then VerifiedBefore else VerifiedAfter
  }

  function Judge(p: Pass, sigTokens: seq<string>, core: string): (v: Verdict)
    ensures v == Reject <==> Unconfirmed(p, sigTokens, core)
    ensures v.Accept? && v.side == Before ==>
      v.index == FirstMatch(p.before.titles, sigTokens, core) > 0
      && v.title == TitleAt(p.before.titles, v.index) && Verified(p.before.detailName, core)
    ensures v.Accept? && v.side == After ==>
      v.index == FirstMatch(p.after.titles, sigTokens, core) > 0
      && v.title == TitleAt(p.after.titles, v.index) && Verified(p.after.detailName, core)
  {
    var r1 := FirstMatch(p.before.titles, sigTokens, core);
    if r1 > 0 && Verified(p.before.detailName, core) then Accept(r1, TitleAt(p.before.titles, r1), Before)
    else
      var r2 := FirstMatch(p.after.titles, sigTokens, core);
      if r2 > 0 && Verified(p.after.detailName, core) then Accept(r2, TitleAt(p.after.titles, r2), After)
      else Reject
  }

  function Verdicts(passes: seq<Pass>, sigTokens: seq<string>, core: string): (vs: seq<Verdict>)
    ensures |vs| == |passes|
    ensures forall k :: 0 <= k < |passes| ==> vs[k] == Judge(passes[k], sigTokens, core)
  {
    seq(|passes|, k requires 0 <= k < |passes| => Judge(passes[k], sigTokens, core))
  }

  /** Where the scroll loop stops: after how many passes, why, and for a
      confirmed candidate its index and title. */
  datatype LoopEnd = LoopEnd(passes: nat, exit: Exit, index: int, title: Option<string>)

  /** The scroll loop from pass `attempt` on, given each pass's verdict,
      with the stability counter `stable` and the previous card count
      `lastCount`. */
  function Loop(verdicts: seq<Verdict>, passes: seq<Pass>, maxScrolls: int,
                attempt: nat, lastCount: int, stable: nat): LoopEnd
    requires |verdicts| == |passes| >= maxScrolls
    decreases maxScrolls - attempt
  {
    if attempt >= maxScrolls then LoopEnd(attempt, Budget, -1, None)
    else match verdicts[attempt]
      case Accept(i, t, side) => LoopEnd(attempt + 1, ExitOf(side), i, t)
      case Reject =>
        var count := passes[attempt].cardCount;
        var stable' := if count == lastCount then stable + 1 else 0;
        if stable' >= 3 then LoopEnd(attempt + 1, Settled, -1, None)
        else Loop(verdicts, passes, maxScrolls, attempt + 1, count, stable')
  }

  /** The whole scan: refused for a core prefix shorter than four
      characters; otherwise the loop from `lastCount = -1`, `stable = 0`,
      and, unless a pass confirmed a candidate, the final scan. */
  function Scan(sigTokens: seq<string>, core: string, maxScrolls: int, passes: seq<Pass>,
                finalTitles: seq<string>): Outcome
    requires |passes| >= maxScrolls
  {
    if |core| < 4 then Outcome(-1, None, 0, Refused)
    else
      var e := Loop(Verdicts(passes, sigTokens, core), passes, maxScrolls, 0, -1, 0);
      if e.exit == Settled || e.exit == Budget then FinalScan(sigTokens, core, finalTitles, e.passes, e.exit)
      else Outcome(e.index, e.title, e.passes, e.exit)
  }

  /** `scanLocalFinderForBusiness`, returning `foundIndex` and `foundTitle`. */
  method ScanLocalFinder(sigTokens: seq<string>, corePrefixNorm: string, maxScrolls: int,
                         passes: seq<Pass>, finalTitles: seq<string>)
    returns (foundIndex: int, foundTitle: Option<string>)
    requires |passes| >= maxScrolls
    ensures foundIndex == Scan(sigTokens, corePrefixNorm, maxScrolls, passes, finalTitles).foundIndex
    ensures foundTitle == Scan(sigTokens, corePrefixNorm, maxScrolls, passes, finalTitles).foundTitle
  {
    if |corePrefixNorm| < 4 {
      return -1, None;
    }
    ghost var vs := Verdicts(passes, sigTokens, corePrefixNorm);
    ghost var whole := Loop(vs, passes, maxScrolls, 0, -1, 0);
    var lastCount: int := -1;
    var stable: nat := 0;
    var attempt: nat := 0;
    while attempt < maxScrolls
      invariant Loop(vs, passes, maxScrolls, attempt, lastCount, stable) == whole
      decreases maxScrolls - attempt
    {
      var p := passes[attempt];
      var v := CheckPass(sigTokens, corePrefixNorm, p);
      assert vs[attempt] == v;
      if v.Accept? {
        LoopAccept(vs, passes, maxScrolls, attempt, lastCount, stable);
        return v.index, v.title;
      }
      LoopReject(vs, passes, maxScrolls, attempt, lastCount, stable);
      var countNow := p.cardCount;
      if countNow == lastCount {
        stable := stable + 1;
      } else {
        stable := 0;
      }
      if stable >= 3 {
        break;
      }
      lastCount := countNow;
      attempt := attempt + 1;
    }
    foundIndex, foundTitle := CheckScript(sigTokens, corePrefixNorm, finalTitles);
  }

  /** One pass of the scan: `checkScript` on the cards, the detail heading
      checked against the core prefix, and, unless that confirmed a
      candidate, the same again after the scroll. */
  method CheckPass(sigTokens: seq<string>, corePrefixNorm: string, p: Pass) returns (v: Verdict)
    ensures v == Judge(p, sigTokens, corePrefixNorm)
  {
    var res, resTitle := CheckScript(sigTokens, corePrefixNorm, p.before.titles);
    if res > 0 {
      var nameNorm := Normalize(p.before.detailName);
      if |corePrefixNorm| >= 4 && Contains(nameNorm, corePrefixNorm) {
        JudgeBefore(p, sigTokens, corePrefixNorm);
        return Accept(res, resTitle, Before);
      }
    }
    var after, afterTitle := CheckScript(sigTokens, corePrefixNorm, p.after.titles);
    if after > 0 {
      var nameNorm2 := Normalize(p.after.detailName);
      if |corePrefixNorm| >= 4 && Contains(nameNorm2, corePrefixNorm) {
        JudgeAfter(p, sigTokens, corePrefixNorm);
        return Accept(after, afterTitle, After);
      }
    }
    JudgeReject(p, sigTokens, corePrefixNorm);
    return Reject;
  }

  /** The verdict on a pass whose first check is confirmed. */
  lemma JudgeBefore(p: Pass, sigTokens: seq<string>, core: string)
    requires FirstMatch(p.before.titles, sigTokens, core) > 0 && Verified(p.before.detailName, core)
    ensures var r := FirstMatch(p.before.titles, sigTokens, core);
      Judge(p, sigTokens, core) == Accept(r, TitleAt(p.before.titles, r), Before)
  {
  }

  /** The verdict on a pass where only the check after the scroll is confirmed. */
  lemma JudgeAfter(p: Pass, sigTokens: seq<string>, core: string)
    requires !(FirstMatch(p.before.titles, sigTokens, core) > 0 && Verified(p.before.detailName, core))
    requires FirstMatch(p.after.titles, sigTokens, core) > 0 && Verified(p.after.detailName, core)
    ensures var r := FirstMatch(p.after.titles, sigTokens, core);
      Judge(p, sigTokens, core) == Accept(r, TitleAt(p.after.titles, r), After)
  {
  }

  /** The verdict on a pass where neither check is confirmed. */
  lemma JudgeReject(p: Pass, sigTokens: seq<string>, core: string)
    requires !(FirstMatch(p.before.titles, sigTokens, core) > 0 && Verified(p.before.detailName, core))
    requires !(FirstMatch(p.after.titles, sigTokens, core) > 0 && Verified(p.after.detailName, core))
    ensures Judge(p, sigTokens, core) == Reject
  {
  }

  /** The loop stops at a pass whose verdict confirms a candidate. */
  lemma LoopAccept(verdicts: seq<Verdict>, passes: seq<Pass>, maxScrolls: int,
                   attempt: nat, lastCount: int, stable: nat)
    requires |verdicts| == |passes| >= maxScrolls && attempt < maxScrolls && verdicts[attempt].Accept?
    ensures var v := verdicts[attempt];
      Loop(verdicts, passes, maxScrolls, attempt, lastCount, stable) == LoopEnd(attempt + 1, ExitOf(v.side), v.index, v.title)
  {
  }

  /** After a rejected pass the loop settles or goes on with the new count. */
  lemma LoopReject(verdicts: seq<Verdict>, passes: seq<Pass>, maxScrolls: int,
                   attempt: nat, lastCount: int, stable: nat)
    requires |verdicts| == |passes| >= maxScrolls && attempt < maxScrolls && verdicts[attempt] == Reject
    ensures var count := passes[attempt].cardCount;
      var stable' := if count == lastCount then stable + 1 else 0;
      Loop(verdicts, passes, maxScrolls, attempt, lastCount, stable)
        == if stable' >= 3 then LoopEnd(attempt + 1, Settled, -1, None)
           else Loop(verdicts, passes, maxScrolls, attempt + 1, count, stable')
  {
  }

  /** With a core prefix shorter than four characters the scan never finds
      anything. */
  lemma ScanRefusesShortCore(sigTokens: seq<string>, core: string, maxScrolls: int,
                             passes: seq<Pass>, finalTitles: seq<string>)
    requires |passes| >= maxScrolls && |core| < 4
    ensures Scan(sigTokens, core, maxScrolls, passes, finalTitles).foundIndex == -1
  {
  }

  function Max(a: int, b: int): int {
    if a >= b then a else b
  }

  /** The loop's end in terms of the verdicts: how many passes ran, and that
      every pass before the last one (every pass, when nothing was
      confirmed) rejected. */
  lemma {:induction false} LoopShape(verdicts: seq<Verdict>, passes: seq<Pass>, maxScrolls: int,
                                     attempt: nat, lastCount: int, stable: nat)
    requires |verdicts| == |passes| >= maxScrolls
    ensures var e := Loop(verdicts, passes, maxScrolls, attempt, lastCount, stable);
      && attempt <= e.passes <= Max(attempt, maxScrolls)
      && (e.exit == Budget ==> e.passes == Max(attempt, maxScrolls))
      && (e.exit != Budget ==> attempt < e.passes <= maxScrolls)
      && (e.exit == Settled || e.exit == Budget || e.exit == VerifiedBefore || e.exit == VerifiedAfter)
      && (e.exit == Settled || e.exit == Budget ==> forall k :: attempt <= k < e.passes ==> verdicts[k] == Reject)
      && (e.exit == VerifiedBefore || e.exit == VerifiedAfter ==>
            verdicts[e.passes - 1].Accept? && ExitOf(verdicts[e.passes - 1].side) == e.exit
            && verdicts[e.passes - 1].index == e.index && verdicts[e.passes - 1].title == e.title
            && forall k :: attempt <= k < e.passes - 1 ==> verdicts[k] == Reject)
    decreases maxScrolls - attempt
  {
    if attempt < maxScrolls && verdicts[attempt] == Reject {
      var count := passes[attempt].cardCount;
      var stable' := if count == lastCount then stable + 1 else 0;
      if stable' < 3 {
        LoopShape(verdicts, passes, maxScrolls, attempt + 1, count, stable');
      }
    }
  }

  /** A loop that stops on a confirmation stops at the first pass whose
      verdict accepts, within the budget, and takes its index and side. */
  lemma {:induction false} LoopConfirmed(verdicts: seq<Verdict>, passes: seq<Pass>, maxScrolls: int,
                                         attempt: nat, lastCount: int, stable: nat)
    requires |verdicts| == |passes| >= maxScrolls
    ensures var e := Loop(verdicts, passes, maxScrolls, attempt, lastCount, stable);
      (e.exit == VerifiedBefore || e.exit == VerifiedAfter) ==>
        && attempt < e.passes <= maxScrolls
        && verdicts[e.passes - 1].Accept? && ExitOf(verdicts[e.passes - 1].side) == e.exit
        && verdicts[e.passes - 1].index == e.index
        && forall k :: attempt <= k < e.passes - 1 ==> verdicts[k] == Reject
    decreases maxScrolls - attempt
  {
    if attempt < maxScrolls && verdicts[attempt] == Reject {
      var count := passes[attempt].cardCount;
      var stable' := if count == lastCount then stable + 1 else 0;
      if stable' < 3 {
        LoopConfirmed(verdicts, passes, maxScrolls, attempt + 1, count, stable');
      }
    }
  }

  /** The loop runs at most `maxScrolls` passes (and none when the core is
      refused), whatever the page keeps loading. */
  lemma ScanWithinBudget(sigTokens: seq<string>, core: string, maxScrolls: int,
                         passes: seq<Pass>, finalTitles: seq<string>)
    requires |passes| >= maxScrolls
    ensures Scan(sigTokens, core, maxScrolls, passes, finalTitles).passes <= Max(0, maxScrolls)
  {
    if |core| >= 4 {
      LoopShape(Verdicts(passes, sigTokens, core), passes, maxScrolls, 0, -1, 0);
    }
  }

  /** A match returned from inside the loop was confirmed: the matcher
      accepted it on that pass's titles and the detail heading contains the
      core prefix; no earlier pass had a confirmed candidate. */
  lemma ScanInLoopMatchIsVerified(sigTokens: seq<string>, core: string, maxScrolls: int,
                                  passes: seq<Pass>, finalTitles: seq<string>)
    requires |passes| >= maxScrolls
    ensures var o := Scan(sigTokens, core, maxScrolls, passes, finalTitles);
      (o.exit == VerifiedBefore || o.exit == VerifiedAfter) ==>
        ConfirmedAt(passes, sigTokens, core, maxScrolls, o.passes, o.exit, o.foundIndex)
  {
    var o := Scan(sigTokens, core, maxScrolls, passes, finalTitles);
    if o.exit == VerifiedBefore || o.exit == VerifiedAfter {
      var e := Loop(Verdicts(passes, sigTokens, core), passes, maxScrolls, 0, -1, 0);
      ScanVerifiedIsLoop(sigTokens, core, maxScrolls, passes, finalTitles);
      LoopMatchIsVerified(sigTokens, core, maxScrolls, passes, e);
    }
  }

  /** A scan that ends with a confirmation ends where the scroll loop does. */
  lemma ScanVerifiedIsLoop(sigTokens: seq<string>, core: string, maxScrolls: int,
                           passes: seq<Pass>, finalTitles: seq<string>)
    requires |passes| >= maxScrolls
    ensures var o := Scan(sigTokens, core, maxScrolls, passes, finalTitles);
      var e := Loop(Verdicts(passes, sigTokens, core), passes, maxScrolls, 0, -1, 0);
      (o.exit == VerifiedBefore || o.exit == VerifiedAfter) ==>
        |core| >= 4 && o == Outcome(e.index, e.title, e.passes, e.exit)
  {
  }

  /** Pass `n` (1-based, within the budget) confirmed `index`: it is the
      matcher's first accepted title on the side `exit` names, that title
      qualifies, and the detail heading contains the core prefix; and no
      earlier pass had a confirmed candidate. */
  predicate ConfirmedAt(passes: seq<Pass>, sigTokens: seq<string>, core: string, maxScrolls: int,
                        n: nat, exit: Exit, index: int)
  {
    && 1 <= n <= maxScrolls && n <= |passes|
    && (var p := passes[n - 1];
        var s := if exit == VerifiedBefore then p.before else p.after;
        && index == FirstMatch(s.titles, sigTokens, core) > 0
        && Qualifies(s.titles, sigTokens, core, index - 1)
        && Verified(s.detailName, core))
    && forall k :: 0 <= k < n - 1 ==> Unconfirmed(passes[k], sigTokens, core)
  }

  /** The same, for where the scroll loop stops. */
  lemma LoopMatchIsVerified(sigTokens: seq<string>, core: string, maxScrolls: int, passes: seq<Pass>, e: LoopEnd)
    requires |passes| >= maxScrolls
    requires e == Loop(Verdicts(passes, sigTokens, core), passes, maxScrolls, 0, -1, 0)
    requires e.exit == VerifiedBefore || e.exit == VerifiedAfter
    ensures ConfirmedAt(passes, sigTokens, core, maxScrolls, e.passes, e.exit, e.index)
  {
    var vs := Verdicts(passes, sigTokens, core);
    LoopConfirmed(vs, passes, maxScrolls, 0, -1, 0);
    ConfirmedByVerdicts(vs, passes, sigTokens, core, maxScrolls, e.passes, e.exit, e.index);
  }

  /** Pass `n` confirmed `index` when its verdict accepts it on the side
      `exit` names and every earlier verdict rejects. */
  lemma ConfirmedByVerdicts(vs: seq<Verdict>, passes: seq<Pass>, sigTokens: seq<string>, core: string,
                            maxScrolls: int, n: nat, exit: Exit, index: int)
    requires vs == Verdicts(passes, sigTokens, core) && 1 <= n <= maxScrolls && n <= |passes|
    requires vs[n - 1].Accept? && ExitOf(vs[n - 1].side) == exit && vs[n - 1].index == index
    requires forall k :: 0 <= k < n - 1 ==> vs[k] == Reject
    ensures ConfirmedAt(passes, sigTokens, core, maxScrolls, n, exit, index)
  {
    AcceptedPass(passes[n - 1], vs[n - 1], sigTokens, core, exit, index);
    RejectedPasses(vs, passes, sigTokens, core, n - 1);
  }

  /** A pass whose verdict is a confirmation confirms the matcher's first
      accepted title on the side the verdict names. */
  lemma AcceptedPass(p: Pass, v: Verdict, sigTokens: seq<string>, core: string, exit: Exit, index: int)
    requires v == Judge(p, sigTokens, core) && v.Accept? && ExitOf(v.side) == exit && v.index == index
    ensures var s := if exit == VerifiedBefore then p.before else p.after;
      && index == FirstMatch(s.titles, sigTokens, core) > 0
      && Qualifies(s.titles, sigTokens, core, index - 1)
      && Verified(s.detailName, core)
  {
    AcceptIsConfirmed(p, sigTokens, core);
  }

  /** Passes whose verdicts are all rejections confirmed nothing. */
  lemma RejectedPasses(vs: seq<Verdict>, passes: seq<Pass>, sigTokens: seq<string>, core: string, n: nat)
    requires vs == Verdicts(passes, sigTokens, core) && n <= |passes|
    requires forall k :: 0 <= k < n ==> vs[k] == Reject
    ensures forall k :: 0 <= k < n ==> Unconfirmed(passes[k], sigTokens, core)
  {
    forall j | 0 <= j < n ensures Unconfirmed(passes[j], sigTokens, core) {
      assert vs[j] == Judge(passes[j], sigTokens, core);
    }
  }

  /** The snapshot on one side of the scroll. */
  function SnapshotOn(p: Pass, side: Side): Snapshot {
    if side == Before then p.before else p.after
  }

  /** A pass that confirms a candidate confirms the matcher's first accepted
      title on that side of the scroll. */
  lemma AcceptIsConfirmed(p: Pass, sigTokens: seq<string>, core: string)
    ensures var v := Judge(p, sigTokens, core);
      v.Accept? ==>
        var s := SnapshotOn(p, v.side);
        && v.index == FirstMatch(s.titles, sigTokens, core) > 0
        && Qualifies(s.titles, sigTokens, core, v.index - 1)
        && Verified(s.detailName, core)
  {
    var v := Judge(p, sigTokens, core);
    if v.Accept? {
      FirstMatchSpec(SnapshotOn(p, v.side).titles, sigTokens, core);
    }
  }

  /** When the loop ends without a confirmed candidate, the final scan's
      match is returned without any verification step. */
  lemma ScanFinalMatchIsUnverified(sigTokens: seq<string>, core: string, maxScrolls: int,
                                   passes: seq<Pass>, finalTitles: seq<string>)
    requires |passes| >= maxScrolls && |core| >= 4
    ensures var o := Scan(sigTokens, core, maxScrolls, passes, finalTitles);
      && o.exit != Refused
      && ((o.exit == Settled || o.exit == Budget) ==>
            && o.foundIndex == FirstMatch(finalTitles, sigTokens, core)
            && o.foundTitle == TitleAt(finalTitles, o.foundIndex)
            && o.passes <= Max(0, maxScrolls)
            && forall k :: 0 <= k < o.passes ==> Unconfirmed(passes[k], sigTokens, core))
  {
    var vs := Verdicts(passes, sigTokens, core);
    LoopShape(vs, passes, maxScrolls, 0, -1, 0);
  }

  /** What the stability counter means at the head of pass `attempt`:
      `lastCount` is the previous pass's card count and the last
      `stable + 1` passes all reported it. */
  ghost predicate Stalled(passes: seq<Pass>, attempt: nat, lastCount: int, stable: nat) {
    if attempt == 0 then lastCount == -1 && stable == 0
    else
      && attempt <= |passes|
      && lastCount == passes[attempt - 1].cardCount
      && stable <= attempt - 1
      && forall j :: attempt - 1 - stable <= j < attempt ==> passes[j].cardCount == lastCount
  }

  lemma {:induction false} LoopSettled(verdicts: seq<Verdict>, passes: seq<Pass>, maxScrolls: int,
                                       attempt: nat, lastCount: int, stable: nat)
    requires |verdicts| == |passes| >= maxScrolls && Stalled(passes, attempt, lastCount, stable) && stable < 3
    ensures var e := Loop(verdicts, passes, maxScrolls, attempt, lastCount, stable);
      e.exit == Settled ==>
        4 <= e.passes <= |passes|
        && forall j :: e.passes - 4 <= j < e.passes ==> passes[j].cardCount == passes[e.passes - 1].cardCount
    decreases maxScrolls - attempt
  {
    if attempt < maxScrolls && verdicts[attempt] == Reject {
      var count := passes[attempt].cardCount;
      var stable' := if count == lastCount then stable + 1 else 0;
      if stable' < 3 {
        assert Stalled(passes, attempt + 1, count, stable');
        LoopSettled(verdicts, passes, maxScrolls, attempt + 1, count, stable');
      }
    }
  }

  /** The scan stops for stability only once the card count has been the
      same on four consecutive passes (three unchanged comparisons, the
      first pass being compared with -1), so never before the fourth pass. */
  lemma ScanSettlesAfterFourEqualCounts(sigTokens: seq<string>, core: string, maxScrolls: int,
                                        passes: seq<Pass>, finalTitles: seq<string>)
    requires |passes| >= maxScrolls
    ensures var o := Scan(sigTokens, core, maxScrolls, passes, finalTitles);
      o.exit == Settled ==>
        4 <= o.passes <= |passes|
        && forall j :: o.passes - 4 <= j < o.passes ==> passes[j].cardCount == passes[o.passes - 1].cardCount
  {
    if |core| >= 4 {
      LoopSettled(Verdicts(passes, sigTokens, core), passes, maxScrolls, 0, -1, 0);
    }
  }
}
