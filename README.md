# GMB ranking scraper: decision logic

`gmbrankingscrapping.ts` drives a headless browser. It searches Google for a
list of keywords, finds where one Google Business Profile ranks in the local
results, and records the best-placed competitor. Most of the file is browser
automation. This project models the decisions that automation feeds, with every
page observation, clock reading and random draw turned into a plain input:

- **Text** (`text.dfy`): the JavaScript string operations the logic is built on.
  These are ASCII `toLowerCase`, `normalize` (lower-case, keep `[a-z0-9]`),
  `trim` over the JavaScript white-space set, `includes`, `indexOf`, `split`,
  and the tokenizer behind the signature tokens.
- **Identity** (`identity.dfy`): the target's identity. It holds the user
  stop-word set, the signature tokens of the business name, and `extractCore`.
  That is the trimmed head before the first `: - | ( )`; when the first
  separator is at index 0 the whole name is kept, trimmed. The canonical page
  name is preferred over the business name.
- **Matcher** (`matcher.dfy`): `checkScript`, the identity matcher over one
  list of result titles.
  - It builds document frequencies, the rare signature tokens and the core-hit
    count.
  - It returns the first qualifying title: one with a core hit and, when the
    core is common, a rare token.
  - Its loops are methods proved equal to the specification functions.
- **Discovery** (`discovery.dfy`): the Local Finder loop of
  `scanLocalFinderForBusiness`.
  - The page is a sequence of passes. Each pass has a snapshot before and after
    the scroll (titles plus the opened detail heading) and a card count.
  - An in-loop match is accepted only when the detail heading contains the
    core.
  - The `lastCount`/`stable` counter stops the loop on a stalled list, and the
    loop runs at most `maxScrolls` passes.
  - After the loop a final, unverified scan runs over the final titles.
- **Ranking** (`ranking.dfy`): the per-keyword table. For each keyword it takes
  the maps-preferred result list, finds the first core hit (our rank), falls
  back to the Local Finder, and picks the first non-core record as competitor.
  The competitor state lives outside the keyword loop, so it is carried from
  keyword to keyword exactly as the source does it.
- **Pacing** (`pacing.dfy`): `randomDelay` with its 400 ms floor, and the
  `SessionManager` class with its request counter and clock fields.
- **Captcha** (`captcha.dfy`):
  - `isCaptchaInterstitial`, the interstitial classifier;
  - `mitigateCaptcha`, the back-off schedule. Round `i` waits `20000 + 15000 i`
    ms plus jitter in 5 s steps, rechecking the page after each step. It then
    retries by reloading, then via the homepage, then by clearing state.
- **Query**, **Keywords**, **Place**, **Args**, **Html**: the small helpers.
  These are:
  - the "Best … in <city>" search-query builder;
  - the case-insensitive keyword de-duplication capped at five;
  - name and city from a `/place/` path;
  - the `--key=value` argument parser;
  - the report's HTML escaping.
- **Wrappers** (`wrappers.dfy`): the `Option` type.

Inputs that stand for I/O:

- The page as the browser saw it: result records, Local Finder passes and
  final titles, and one "captcha still present" answer per probe.
- `Date.now()` readings.
- `Math.random()` draws, as integers or reals in their documented ranges.
- The `GMB_STOPWORDS` value.
- `process.argv`.

Notes:
- `shouldTakeBreak` requires both a session longer than twenty minutes and
  more than five requests (`&&`), although the comment on the same line (1290)
  says "or". The model follows the code.
- `topCompetitor`/`competitorRank` are never reset between keywords. A keyword
  whose results are all core hits therefore reports the previous keyword's
  competitor. The model reproduces this (`Ranking.StaleCompetitorCarriesOver`).
- `lastRequestTime` is read from the clock after the wait, so `paceRequest`
  takes a second clock reading, `resumedAt`.
- The `randomDelay` jitter is modelled as a real in `[-0.15 b, 0.15 b)`.

## Model

| member | source | states |
|---|---|---|
| Text.Lower | gmbrankingscrapping.ts:3002 | lower-casing keeps the length and maps each character on its own (upper-case ASCII to lower-case, everything else unchanged) |
| Text.LowerAppend | gmbrankingscrapping.ts:3002 | lower-casing distributes over concatenation |
| Text.Normalize | gmbrankingscrapping.ts:3002 | `normalize` never lengthens a string and leaves only `[a-z0-9]` characters |
| Text.NormalizeAppend | gmbrankingscrapping.ts:3002 | `normalize` distributes over concatenation |
| Text.NormalizeFixesAlnum | gmbrankingscrapping.ts:3002 | a string that is already all `[a-z0-9]` is left unchanged |
| Text.NormalizeIdempotent | gmbrankingscrapping.ts:3002 | normalising twice is normalising once |
| Text.TrimStart | gmbrankingscrapping.ts:3053 | the result starts with a non-space and everything it dropped was white space |
| Text.TrimEnd | gmbrankingscrapping.ts:3028 | the result ends with a non-space and everything it dropped was white space |
| Text.TrimStartSlice | gmbrankingscrapping.ts:3053 | the left-trimmed string is a suffix of the input |
| Text.TrimEndSlice | gmbrankingscrapping.ts:3028 | the right-trimmed string is a prefix of the input |
| Text.Trim | gmbrankingscrapping.ts:3028 | `trim` leaves no white space at either end and is empty exactly when the input is all white space |
| Text.TrimSlice | gmbrankingscrapping.ts:3028 | the trimmed string occurs in the input, and is empty iff the input is all white space |
| Text.TrimContained | gmbrankingscrapping.ts:3028 | `trim` returns a substring of its input |
| Text.TrimStartNoop | gmbrankingscrapping.ts:3053 | a string starting with a non-space is unchanged by a left trim |
| Text.TrimEndNoop | gmbrankingscrapping.ts:3028 | a string ending with a non-space is unchanged by a right trim |
| Text.TrimAfterTrimStart | gmbrankingscrapping.ts:3053 | trimming after a left trim (the query rewrite) is the same as one trim |
| Text.TrimIdempotent | gmbrankingscrapping.ts:3028 | trimming twice is trimming once |
| Text.ContainsAt | gmbrankingscrapping.ts:1363 | a substring found at some position is `includes`-contained |
| Text.ContainsWitness | gmbrankingscrapping.ts:1363 | containment yields a position where the substring occurs |
| Text.ContainsMiddle | gmbrankingscrapping.ts:3055 | the middle of a concatenation is contained in it |
| Text.ContainsIff | gmbrankingscrapping.ts:1363 | `includes` holds iff the substring occurs at some position |
| Text.ContainsChars | gmbrankingscrapping.ts:1363 | every character of a contained string occurs in the container |
| Text.ContainsTransitive | gmbrankingscrapping.ts:1363 | containment is transitive |
| Text.ContainsLength | gmbrankingscrapping.ts:1363 | a contained string is no longer than its container |
| Text.IndexOf | gmbrankingscrapping.ts:1237 | the result is -1 exactly when the character is absent, otherwise the position of its first occurrence |
| Text.IndexOfIs | gmbrankingscrapping.ts:1237 | a position holding the first occurrence is what `indexOf` returns |
| Text.Split | gmbrankingscrapping.ts:1237 | `split` gives at least one piece and no piece holds the separator |
| Text.JoinSplit | gmbrankingscrapping.ts:1237 | joining the pieces of a split with the separator gives the input back |
| Text.SplitAt | gmbrankingscrapping.ts:3008 | splitting `w`, the separator and `t`, with `w` free of the separator, gives `w` and then the pieces of `t` |
| Text.SplitJoin | gmbrankingscrapping.ts:3008 | splitting the join of separator-free pieces gives the pieces back |
| Text.LowerJoin | gmbrankingscrapping.ts:3007-3008 | lower-case pieces joined by a comma stay lower-case |
| Text.JoinAvoids | gmbrankingscrapping.ts:2684-2685 | a character in no piece, other than the separator, is not in the join |
| Text.Tokenize | gmbrankingscrapping.ts:3013-3015 | every token is a non-empty run of `[a-z0-9]`; with `TokenizeCut` and `TokenizeRun` the tokens are exactly the maximal runs, in order |
| Text.WordsFromCut | gmbrankingscrapping.ts:3014-3015 | a character outside `[a-z0-9]` closes the run in progress, and what follows is tokenised afresh |
| Text.WordsFromRun | gmbrankingscrapping.ts:3014-3015 | a run of `[a-z0-9]` extends the run in progress into a single word |
| Text.TokenizeCut | gmbrankingscrapping.ts:3013-3015 | a name cut by a character that lower-cases to something outside `[a-z0-9]` has the tokens of both sides, in order |
| Text.TokenizeRun | gmbrankingscrapping.ts:3013-3015 | a non-empty name of letters and digits is exactly one token, itself lower-cased |
| Identity.StopWords | gmbrankingscrapping.ts:3006-3011 | the stop words are exactly the non-blank trimmed comma pieces of the lower-cased value: each such piece is one, and each one is such a piece; they are non-empty, comma-free and trimmed |
| Identity.StopWordsOfList | gmbrankingscrapping.ts:3006-3011 | a comma-separated list of lower-case, trimmed words is read back as exactly the set of those words |
| Identity.StopWordsIgnoreCase | gmbrankingscrapping.ts:3007 | the case of the variable's value does not matter |
| Identity.KeepSignificant | gmbrankingscrapping.ts:3016 | a token is kept iff it has at least three characters and is not a stop word |
| Identity.SigTokens | gmbrankingscrapping.ts:3012-3016 | a string is a signature token iff it is a token of the business name, at least three long, and not a stop word |
| Identity.FirstSeparator | gmbrankingscrapping.ts:3026 | `search` finds the first of `: - \| ( )`, or -1 when there is none |
| Identity.ExtractCore | gmbrankingscrapping.ts:3025-3029 | the core occurs in the input and is trimmed; unless the input starts with a separator, it holds no separator; `ExtractCoreCuts`, `ExtractCoreWhole` and `ExtractCoreLeadingSeparator` say which piece it is |
| Identity.ExtractCoreCuts | gmbrankingscrapping.ts:3026-3028 | a name whose first separator follows a non-empty head gives that head, trimmed |
| Identity.ExtractCoreWhole | gmbrankingscrapping.ts:3026-3028 | a name without a separator is kept whole, trimmed |
| Identity.ExtractCoreLeadingSeparator | gmbrankingscrapping.ts:3026-3028 | a name that starts with a separator is kept whole, trimmed (the `idx > 0` test) |
| Identity.HeadFacts | gmbrankingscrapping.ts:3026-3028 | the trimmed head occurs in the input and holds no separator, unless the separator is at index 0 |
| Identity.PieceNoSeparator | gmbrankingscrapping.ts:3027 | a piece of a separator-free head is separator-free |
| Identity.TargetCore | gmbrankingscrapping.ts:3030 | the core comes from the page name when there is one, else from the business name |
| Identity.TargetCoreIsCore | gmbrankingscrapping.ts:3030 | the target core is `extractCore` of the preferred name |
| Identity.ExtractCoreIdempotent | gmbrankingscrapping.ts:3025-3030 | extracting the core of a core changes nothing, so the outer `trim` at line 3030 is a no-op |
| Identity.CorePrefixNorm | gmbrankingscrapping.ts:3030-3031 | the normalised core of the page name, or of the business name when that is empty, made of `[a-z0-9]` only |
| Matcher.Norms | gmbrankingscrapping.ts:1347 | each title is normalised, position by position |
| Matcher.CoreCount | gmbrankingscrapping.ts:1348 | no more titles hit the core than there are titles |
| Matcher.DocFreq | gmbrankingscrapping.ts:1349-1353 | no word occurs in more titles than there are |
| Matcher.CountDocuments | gmbrankingscrapping.ts:1349-1353 | the `freq` map built word set by word set gives, for every word, the number of titles it occurs in |
| Matcher.SelectRare | gmbrankingscrapping.ts:1354-1359 | a token is rare iff it is a normalised signature token of at least five characters occurring in at most two titles |
| Matcher.RareTokens | gmbrankingscrapping.ts:1349-1359 | the rare set the loops build is the specified rare set |
| Matcher.RareSetIs | gmbrankingscrapping.ts:1354-1359 | the rare set is determined by the token set and the document frequencies |
| Matcher.AnyOccurs | gmbrankingscrapping.ts:1366 | `Array.from(rareSet).some(...)` holds iff some rare token occurs in the title |
| Matcher.Accepts | gmbrankingscrapping.ts:1362-1369 | the loop body accepts a title iff it qualifies, and only titles of four or more characters |
| Matcher.QualifiesIff | gmbrankingscrapping.ts:1362-1369 | a title qualifies iff it has a core hit with a core of four or more characters and, when at least three titles hit the core, also holds a rare token |
| Matcher.FirstMatchFromSpec | gmbrankingscrapping.ts:1361-1370 | the scan from k is -1 iff no title from k qualifies; otherwise it is the first qualifying one |
| Matcher.FirstMatch | gmbrankingscrapping.ts:1362-1371 | the match is -1 or a 1-based title index; `FirstMatchSpec` says which |
| Matcher.FirstMatchSpec | gmbrankingscrapping.ts:1361-1372 | the result is -1 iff no title qualifies; otherwise it is the smallest 1-based index of a qualifying title |
| Matcher.CheckScript | gmbrankingscrapping.ts:1321-1373 | `checkScript` returns the first qualifying index and the title there (at least four characters long), or -1 and no title; being a function of its inputs, a rerun answers the same |
| Matcher.ShortCoreNeverMatches | gmbrankingscrapping.ts:1363 | with a core shorter than four characters nothing ever matches |
| Matcher.CommonCoreNeedsRareToken | gmbrankingscrapping.ts:1360-1367 | when at least three titles hit the core, the returned title holds a signature token of five or more characters found in at most two titles |
| Matcher.RareCoreFirstHitWins | gmbrankingscrapping.ts:1360-1369 | when fewer than three titles hit the core, the first core hit is returned, and -1 only when there is none |
| Matcher.CrowdedCoreSingleRare | gmbrankingscrapping.ts:1360-1369 | with a common core, the one title with both a core hit and a rare token is the answer |
| Discovery.Judge | gmbrankingscrapping.ts:1378-1401 | a pass is rejected iff neither snapshot has a match verified by its detail heading; an accepted pass reports the first match of the snapshot it accepted and that snapshot's title |
| Discovery.Verdicts | gmbrankingscrapping.ts:1377-1499 | the verdicts are the judgements of the passes, one per pass |
| Discovery.CheckPass | gmbrankingscrapping.ts:1378-1499 | the per-pass checks before and after the scroll compute the verdict `Judge` specifies |
| Discovery.JudgeBefore | gmbrankingscrapping.ts:1378-1401 | a verified match before the scroll is accepted at once, with that index and title |
| Discovery.JudgeAfter | gmbrankingscrapping.ts:1478-1499 | failing that, a verified match after the scroll is accepted |
| Discovery.JudgeReject | gmbrankingscrapping.ts:1378-1499 | a pass without a verified match on either side is rejected |
| Discovery.AcceptedPass | gmbrankingscrapping.ts:1378-1499 | an accepted pass's index is the first qualifying title of the accepted snapshot, verified by its detail heading |
| Discovery.AcceptIsConfirmed | gmbrankingscrapping.ts:1378-1499 | any accepted verdict is confirmed: first qualifying title, and heading containing the core |
| Discovery.LoopAccept | gmbrankingscrapping.ts:1378-1499 | an accepted pass ends the loop with its index, title and side |
| Discovery.LoopReject | gmbrankingscrapping.ts:1501-1512 | after a rejected pass `stable` counts one up when the card count is unchanged and resets to 0 otherwise; the loop stops once it reaches three |
| Discovery.LoopShape | gmbrankingscrapping.ts:1377-1512 | the loop runs at most `maxScrolls` passes; it ends stalled, out of budget, or verified; every pass before a stop without a match was rejected; a verified exit reports the verdict of the last pass |
| Discovery.LoopConfirmed | gmbrankingscrapping.ts:1377-1512 | a verified exit happens within the budget, on an accepted pass whose side and index it reports, with every earlier pass rejected |
| Discovery.RejectedPasses | gmbrankingscrapping.ts:1378-1499 | a rejected pass had no verified match on either side |
| Discovery.ConfirmedByVerdicts | gmbrankingscrapping.ts:1377-1512 | an accepted last pass after rejected ones gives the confirmation the in-loop exit promises |
| Discovery.LoopMatchIsVerified | gmbrankingscrapping.ts:1377-1512 | a verified loop exit is confirmed: the reported index is the first qualifying title of a snapshot whose heading holds the core, and all earlier passes were unconfirmed |
| Discovery.ScanVerifiedIsLoop | gmbrankingscrapping.ts:1316-1512 | a verified outcome comes from the loop, past the short-core guard |
| Discovery.ScanInLoopMatchIsVerified | gmbrankingscrapping.ts:1296-1607 | an in-loop match is returned only after its detail heading contained the core |
| Discovery.ScanLocalFinder | gmbrankingscrapping.ts:1296-1607 | the method with the loop, its counters and early returns computes the specified outcome's index and title |
| Discovery.ScanRefusesShortCore | gmbrankingscrapping.ts:1316-1319 | a normalised core shorter than four characters always gives -1 |
| Discovery.ScanWithinBudget | gmbrankingscrapping.ts:1377 | at most `maxScrolls` passes are made |
| Discovery.ScanFinalMatchIsUnverified | gmbrankingscrapping.ts:1548-1606 | when the loop ends without a verified match, the result is the first qualifying final title, unverified, and every pass made was unconfirmed |
| Discovery.LoopSettled | gmbrankingscrapping.ts:1375-1512 | a stalled exit is reached after at least four passes whose last four card counts are equal |
| Discovery.ScanSettlesAfterFourEqualCounts | gmbrankingscrapping.ts:1375-1512 | since `lastCount` starts at -1, the stability exit comes on the fourth pass at the earliest, after four equal card counts |
| Ranking.LocalPackIs | gmbrankingscrapping.ts:3161-3162 | the local pack is no longer than the results and holds exactly the records whose URL holds `google.com/maps` |
| Ranking.LocalPackAppend | gmbrankingscrapping.ts:3161-3162 | the local pack of two lists is the local pack of the first followed by that of the second, so order and repeats are kept |
| Ranking.LocalPackOne | gmbrankingscrapping.ts:3161-3162 | one record is kept exactly when its URL holds `google.com/maps` |
| Ranking.PrimarySourcePrefersMaps | gmbrankingscrapping.ts:3161-3163 | with any maps record, the primary list is the local pack itself (the maps records, in order); with none, it is all records |
| Ranking.FirstRankHitFrom | gmbrankingscrapping.ts:3165-3174 | the scan from k is -1 iff no later record is a core hit, else the first such |
| Ranking.FirstRankHit | gmbrankingscrapping.ts:3165-3174 | our rank is -1 iff no record has the core (of four or more characters) in its normalised title or lower-cased URL; otherwise it is the first such 1-based index |
| Ranking.PrimaryRank | gmbrankingscrapping.ts:3165-3174 | the `for`/`break` loop computes that rank |
| Ranking.FirstNonSkipFrom | gmbrankingscrapping.ts:3256-3267 | the scan from k is -1 iff every later record mentions the core, else the first that does not |
| Ranking.FirstNonSkip | gmbrankingscrapping.ts:3256-3267 | the competitor rank is the first record not mentioning a non-empty core; every earlier record mentions it |
| Ranking.SelectCompetitor | gmbrankingscrapping.ts:3256-3267 | the loop sets the competitor and its rank to the first non-skipped record, and leaves the previous values when there is none |
| Ranking.RankHitIsSkipped | gmbrankingscrapping.ts:3165-3267 | a primary-rank hit is always skipped as a competitor |
| Ranking.CompetitorNotAtPrimaryRank | gmbrankingscrapping.ts:3165-3267 | the competitor rank never equals our primary rank |
| Ranking.EmptyCoreCompetitorIsFirst | gmbrankingscrapping.ts:3259 | with an empty core nothing is skipped, so the competitor is record 1 |
| Ranking.ShortCoreStillSkips | gmbrankingscrapping.ts:3165-3267 | a core of one to three characters never ranks us but still skips mentioning records, because the skip has no length guard |
| Ranking.OurRank | gmbrankingscrapping.ts:3177-3244 | the primary rank is kept when found; otherwise it is the Local Finder rank when that is positive, and -1 when it is not |
| Ranking.PrimaryRankWins | gmbrankingscrapping.ts:3165-3267 | a primary hit is never overridden by the Local Finder, and the competitor rank differs from it |
| Ranking.FinderRankOnlyAsFallback | gmbrankingscrapping.ts:3177-3244 | the rank differs from the primary rank only when there was no primary hit and the Local Finder scan found a positive index |
| Ranking.KeywordRank | gmbrankingscrapping.ts:3161-3244 | a keyword's rank is the primary rank with the Local Finder fallback |
| Ranking.ResolveKeyword | gmbrankingscrapping.ts:3127-3267 | a keyword with no results gives the no-results row and leaves the competitor state alone; otherwise the row holds our rank and the updated competitor state |
| Ranking.Rows | gmbrankingscrapping.ts:3127-3267 | one row per keyword, each determined by that keyword and the competitor state carried from the keywords before it |
| Ranking.ResolveKeywords | gmbrankingscrapping.ts:3034-3267 | the keyword loop produces exactly the specified rows, the competitor carried across keywords |
| Ranking.StaleCompetitorCarriesOver | gmbrankingscrapping.ts:3034-3267 | when every result of a keyword is skipped, its row shows the competitor state left by the earlier keywords |
| Ranking.NoCompetitorYet | gmbrankingscrapping.ts:3034-3035 | until some keyword yields a competitor, the state is `null`/-1 |
| Ranking.FreshCompetitorIsFirstNonSkip | gmbrankingscrapping.ts:3256-3267 | a keyword with a non-skipped record reports the first such record as competitor, every earlier one having been skipped |
| Pacing.RandomDelay | gmbrankingscrapping.ts:1247-1251 | the delay is never below 400 ms nor below the drawn base plus jitter; for `min <= max` it lies within the jitter band of `[min, max]`; it is the 400 ms floor or the base plus jitter |
| Pacing.Extra | gmbrankingscrapping.ts:1280 | the extra interval is `150 * count`, capped at 2000 from the fourteenth request |
| Pacing.TargetInterval | gmbrankingscrapping.ts:1279-1281 | the target lies between 1200 and 3999 ms and exceeds the base draw by the capped extra |
| Pacing.TargetIntervalMonotone | gmbrankingscrapping.ts:1279-1281 | for a fixed base draw the target never shrinks as requests accumulate, and is constant from the fourteenth request |
| Pacing.SessionManager.constructor | gmbrankingscrapping.ts:1268-1270 | a new session has no requests, starts now, and has a last request time of 0 |
| Pacing.SessionManager.PaceRequest | gmbrankingscrapping.ts:1272-1286 | the count grows by exactly one; there is no wait when the target has elapsed, else the wait is `randomDelay(target - elapsed, target + 800)` for the given draws, at least 400 ms and, when the clock has not gone back, at least 85 percent of what is missing and covering 85 percent of the target; the last request time becomes the post-wait reading; the start time is unchanged |
| Pacing.BreakNeedsBoth | gmbrankingscrapping.ts:1288-1291 | a break is due iff the session is over 1,200,000 ms old and more than five requests were made |
| Pacing.FirstRequestNeverWaits | gmbrankingscrapping.ts:1268-1284 | a new session's first `paceRequest` at any time after the epoch's first four seconds does not wait |
| Pacing.WaitCanUndershootTarget | gmbrankingscrapping.ts:1249-1250 | a wait is shorter than the time still missing exactly when both the jittered base and the 400 ms floor are; with a 2000 ms target and the smallest draws it is 1700 ms |
| Captcha.LowerIdempotent | gmbrankingscrapping.ts:1183 | lower-casing twice is lower-casing once |
| Captcha.ClassifierIgnoresCase | gmbrankingscrapping.ts:1180-1188 | the classifier gives the same answer on the lower-cased page |
| Captcha.SorryUrlIsInterstitial | gmbrankingscrapping.ts:1182 | a URL with `/sorry/` is always an interstitial |
| Captcha.BlockMessageIsInterstitial | gmbrankingscrapping.ts:1183-1187 | a page holding the "unusual traffic" message, in any mix of cases, is an interstitial |
| Captcha.StrategyFor | gmbrankingscrapping.ts:1153-1171 | round 0 reloads, round 1 goes via the homepage, later rounds clear cookies and cache |
| Captcha.BaseDelay | gmbrankingscrapping.ts:1111 | a round's base delay is at least 20 s |
| Captcha.WaitSteps | gmbrankingscrapping.ts:1117 | the number of five-second steps is `floor(delay / 5000)` |
| Captcha.BackoffGrows | gmbrankingscrapping.ts:1111-1118 | base delays strictly grow with the round, and round `i` waits between `3i + 4` and `3i + 7` five-second steps |
| Captcha.WaitOut | gmbrankingscrapping.ts:1117-1147 | the step loop sleeps and rechecks until the captcha clears or the steps run out, as `Wait` specifies |
| Captcha.MitigateCaptcha | gmbrankingscrapping.ts:1105-1178 | the nested round and step loops compute the specified outcome and round log |
| Captcha.RoundsDone | gmbrankingscrapping.ts:1106-1177 | running out of rounds means giving up and carrying on, with every round logged |
| Captcha.RoundsNoCaptcha | gmbrankingscrapping.ts:1107-1108 | a probe without a captcha returns success at once |
| Captcha.RoundsCleared | gmbrankingscrapping.ts:1143-1147 | a recheck that finds the captcha gone during the wait ends in success, with that round logged without a retry |
| Captcha.RoundsGoOn | gmbrankingscrapping.ts:1117-1171 | a round whose wait does not clear the captcha logs its retry strategy and goes on to the next round |
| Captcha.ProbesCons | gmbrankingscrapping.ts:1143-1147 | a present probe in front of a valid probe run gives a valid run |
| Captcha.ProbesJoin | gmbrankingscrapping.ts:1106-1147 | two valid probe runs concatenate |
| Captcha.WaitProbes | gmbrankingscrapping.ts:1117-1147 | the wait probes the page once per sleep, never more often than its steps, and sleeps all of them unless a probe clears the captcha; all probes found the captcha except possibly the last, which clears it |
| Captcha.RoundsProbes | gmbrankingscrapping.ts:1105-1178 | the whole mitigation probes consecutive checks, all present except a clearing last one |
| Captcha.MitigationStopsAtFirstClearProbe | gmbrankingscrapping.ts:1107-1147 | success is declared on the first check that finds no captcha, and the mitigation gives up only if every check found one |
| Captcha.NoCaptchaNoAction | gmbrankingscrapping.ts:1107-1108 | when the first check finds no captcha, nothing is waited or retried |
| Captcha.InOrderCons | gmbrankingscrapping.ts:1106-1112 | a round with the next index and its delay extends an ordered log |
| Captcha.RoundsInOrder | gmbrankingscrapping.ts:1106-1112 | rounds run in index order, each with its base delay plus jitter |
| Captcha.RoundsRetry | gmbrankingscrapping.ts:1117-1171 | every logged round slept at most its wait steps, and each retried round slept all of them and used its round's strategy |
| Captcha.RoundOkCons | gmbrankingscrapping.ts:1117-1171 | a round that slept all its steps and retries with its strategy, in front of a valid log, gives a valid log |
| Captcha.MitigationSchedule | gmbrankingscrapping.ts:1105-1178 | at most `attempts` rounds; round `k` waits its base delay plus less than 20 s of jitter, sleeps at most `floor(delay / 5000)` steps, and, when it retries, sleeps all of them and retries with strategy `k` |
| Query.StripBest | gmbrankingscrapping.ts:3053 | a leading "best" and white space are dropped, and anything else is left alone |
| Query.StripLeadingBest | gmbrankingscrapping.ts:3053 | a "best " prefix in any case is removed along with the white space after it |
| Query.WithCityMentionsCity | gmbrankingscrapping.ts:3055-3056 | the city clause is appended only when missing, keeps the query as a prefix, and always leaves the city mentioned |
| Query.BuildQueryMentionsCity | gmbrankingscrapping.ts:3051-3056 | the query always starts with "Best " and always mentions " in <city>"; it is left as is exactly when it already did |
| Query.LeadingBestIgnored | gmbrankingscrapping.ts:3051-3056 | a query the user already prefixed with "best " gives the same search as the bare query |
| Keywords.Prepare | gmbrankingscrapping.ts:2752-2755 | keyword and query are trimmed, and an item is usable iff both are non-empty before and after trimming |
| Keywords.PreparedAt | gmbrankingscrapping.ts:2751-2755 | candidate `k` is item `k` prepared |
| Keywords.SelectStep | gmbrankingscrapping.ts:2755-2759 | an unseen usable candidate is kept and its lower-cased keyword marked seen; otherwise it is skipped |
| Keywords.Select | gmbrankingscrapping.ts:2755-2759 | never more ideas than there is room for; `SelectSnoc` fixes which are kept and in what order, `SelectComplete` and `SelectFirstSpelling` state the consequences |
| Keywords.SelectFrom | gmbrankingscrapping.ts:2751-2759 | every kept idea is an unseen, usable candidate |
| Keywords.SelectDistinct | gmbrankingscrapping.ts:2755-2757 | kept keywords are pairwise distinct ignoring case |
| Keywords.DedupeKeywords | gmbrankingscrapping.ts:2748-2762 | the loop with its `seen` set and `break` at five computes the specified list |
| Keywords.Dedupe | gmbrankingscrapping.ts:2748-2762 | at most five ideas; `DedupeSnoc` fixes which are kept and in what order, `DedupeComplete` and `DedupeFirstSpelling` state the consequences |
| Keywords.DedupeFromItems | gmbrankingscrapping.ts:2751-2757 | every kept idea is the trimmed form of some input item with non-empty fields |
| Keywords.DedupeDistinct | gmbrankingscrapping.ts:2748-2762 | at most five ideas, pairwise distinct ignoring case |
| Keywords.KeptIsClean | gmbrankingscrapping.ts:2753-2755 | kept keywords and queries are non-empty and already trimmed |
| Keywords.PrepareClean | gmbrankingscrapping.ts:2753-2755 | a clean idea is prepared as itself |
| Keywords.SelectKeepsClean | gmbrankingscrapping.ts:2751-2759 | clean, unseen, distinct candidates that fit are all kept, in order |
| Keywords.SelectComplete | gmbrankingscrapping.ts:2755-2759 | while fewer ideas than the room allows are kept, every qualifying candidate's lower-cased keyword was seen before or belongs to a kept idea |
| Keywords.SelectFirstSpelling | gmbrankingscrapping.ts:2755-2759 | a kept idea is the first qualifying candidate with its lower-cased keyword |
| Keywords.DedupeComplete | gmbrankingscrapping.ts:2751-2759 | while fewer than five ideas are kept, every usable item's trimmed keyword is, lower-cased, the keyword of a kept idea |
| Keywords.DedupeFirstSpelling | gmbrankingscrapping.ts:2751-2759 | a kept idea is the trimmed form of the first usable item with its lower-cased keyword |
| Keywords.SelectSnoc | gmbrankingscrapping.ts:2751-2759 | one more candidate at the end is appended to the kept ideas exactly when there is room, it qualifies and its lower-cased keyword is neither seen nor kept; otherwise nothing changes, so the first qualifying new keywords are kept in input order |
| Keywords.PreparedSnoc | gmbrankingscrapping.ts:2752-2755 | checking one more item at the end adds its check at the end |
| Keywords.DedupeSnoc | gmbrankingscrapping.ts:2748-2762 | one more item at the end is kept, trimmed, exactly when fewer than five ideas are kept, it is usable and its lower-cased keyword is new; otherwise the kept ideas stay as they were |
| Keywords.DedupeIdempotent | gmbrankingscrapping.ts:2748-2762 | de-duplicating an already de-duplicated list changes nothing |
| Place.IndexOfSubFrom | gmbrankingscrapping.ts:2682-2683 | the search finds the first occurrence of `/place/` from k, or -1 when there is none |
| Place.Clean | gmbrankingscrapping.ts:2685 | the cleaned piece is no longer than the piece and keeps only letters, digits and white space |
| Place.CleanAppend | gmbrankingscrapping.ts:2685 | cleaning works piece by piece, keeping the order |
| Place.CleanOne | gmbrankingscrapping.ts:2685 | one character is kept exactly when it is a letter, a digit or white space |
| Place.CleanKeepsName | gmbrankingscrapping.ts:2685 | a piece of name characters only is kept whole |
| Place.NameParts | gmbrankingscrapping.ts:2685 | there are never more parts than pieces |
| Place.NamePartsAppend | gmbrankingscrapping.ts:2685 | the parts of two lists of pieces are the parts of the first followed by those of the second |
| Place.NamePartsOne | gmbrankingscrapping.ts:2685 | one piece gives its cleaned, trimmed text, or nothing when that is empty |
| Place.NamePartsClean | gmbrankingscrapping.ts:2685 | pieces that are already clean names are all kept, as they are |
| Place.CleanTrimChars | gmbrankingscrapping.ts:2685 | a cleaned and trimmed piece holds only name characters |
| Place.NamePartsFrom | gmbrankingscrapping.ts:2685 | every part is non-empty and is the cleaned, trimmed form of some piece |
| Place.TrimmedPart | gmbrankingscrapping.ts:2685 | every part is non-empty, trimmed and made of name characters |
| Place.NoPlaceKeepsDefaults | gmbrankingscrapping.ts:2682 | a path without `/place/` keeps the given business and city |
| Place.PickShape | gmbrankingscrapping.ts:2686-2691 | a replaced business or city is a clean, non-empty part |
| Place.PlaceNameCityShape | gmbrankingscrapping.ts:2682-2691 | whatever the path, a business or city it sets is a clean, non-empty part |
| Place.PlaceRoundTrip | gmbrankingscrapping.ts:2682-2691 | a path whose first `/place/` is followed by clean names joined with `+`, up to a `/` or the end, sets the business to the first name and, when there are two or more, the city to the last |
| Place.PlaceOfPath | gmbrankingscrapping.ts:2682-2691 | the business and city come from the `+` pieces of the segment right after the first `/place/` |
| Place.FirstPlaceAt | gmbrankingscrapping.ts:2683 | the search finds the first `/place/` |
| Place.PlacePiecesOf | gmbrankingscrapping.ts:2683-2685 | the pieces are those of the first `/`-segment after `/place/` |
| Place.FirstSegment | gmbrankingscrapping.ts:2684 | the first `/`-segment of a slash-free text followed by a `/` or nothing is that text |
| Place.CleanNamesJoin | gmbrankingscrapping.ts:2685 | clean names joined with `+` hold no `/` and split back into the names |
| Html.Esc | gmbrankingscrapping.ts:233 | escaped text holds no `<` or `>` and is never shorter than the input |
| Html.UnescapeEscChar | gmbrankingscrapping.ts:233 | decoding an escaped character gives it back, whatever follows |
| Html.UnescapeEsc | gmbrankingscrapping.ts:233 | escaping loses nothing: decoding the escaped text restores the input |
| Args.DropDashes | gmbrankingscrapping.ts:1238-1240 | a leading `--` is dropped and anything else is kept |
| Args.ParseArgs | gmbrankingscrapping.ts:1231-1244 | the loop computes the specified options map, cutting each argument with `split('=')` as written |
| Args.ParsedKeysAreOptions | gmbrankingscrapping.ts:1235-1240 | every parsed key is the key of some `--` argument |
| Args.ParsedKeysStay | gmbrankingscrapping.ts:1235-1241 | a key once parsed is never dropped |
| Args.OptionsAreParsed | gmbrankingscrapping.ts:1235-1241 | the key of every `--` argument is parsed: an option is never taken as the value of the one before it |
| Args.OptionTakesNextValue | gmbrankingscrapping.ts:1239-1240 | `--name value` sets the string value, and a trailing `--name` sets the flag |
| Args.ValueCutAtSecondEquals | gmbrankingscrapping.ts:1237 | as written, a value that holds `=` is cut at it |
| Args.ParseCutsValue | gmbrankingscrapping.ts:1231-1244 | as written, `--name=v1=v2` sets `name` to `v1` only |
| Args.KeyValueAtFirstRoundTrip | gmbrankingscrapping.ts:1237 | split at the first `=`, `--name=value` gives back exactly the name and the whole value |
| Args.ParseKeepsValue | gmbrankingscrapping.ts:1231-1244 | with the split at the first `=`, `--name=value` sets `name` to the whole value |
| Args.KeyValueAgrees | gmbrankingscrapping.ts:1237 | for an argument with at most one `=` the corrected split agrees with `split('=')` |

The specification functions and predicates below carry no contract of their
own; what they mean is stated by the members named beside them.

- `Captcha.IsCaptchaInterstitial` and `Captcha.BlockText` (1180-1188):
  `SorryUrlIsInterstitial`, `BlockMessageIsInterstitial`,
  `ClassifierIgnoresCase`.
- `Captcha.Wait` and `Captcha.RoundsFrom` (1105-1178): `WaitOut`,
  `MitigateCaptcha`, `WaitProbes`, `RoundsProbes`, `RoundsRetry`,
  `MitigationSchedule`.
- `Query.LeadingBest`, `Query.WithCity` and `Query.BuildQuery` (3051-3056):
  `StripLeadingBest`, `WithCityMentionsCity`, `BuildQueryMentionsCity`,
  `LeadingBestIgnored`.
- `Place.PlacePieces`, `Place.PickNameCity` and `Place.PlaceNameCity`
  (2682-2691): `PlaceRoundTrip`, `PlaceOfPath`, `PickShape`,
  `PlaceNameCityShape`, `NoPlaceKeepsDefaults`.
- `Discovery.Loop` and `Discovery.Scan` (1296-1607): the `Loop*` and `Scan*`
  lemmas and `ScanLocalFinder`.
- `Ranking.LocalPack` and `Ranking.PrimarySource` (3161-3163): `LocalPackIs`,
  `LocalPackAppend`, `LocalPackOne`, `PrimarySourcePrefersMaps`.
- `Ranking.CompetitorStep` and `Ranking.StateAt` (3034-3267):
  `SelectCompetitor`, `ResolveKeywords`, `StaleCompetitorCarriesOver`,
  `NoCompetitorYet`, `FreshCompetitorIsFirstNonSkip`.
- `Args.KeyValue`, `Args.KeyValueAtFirst` and `Args.ParseFrom` (1231-1244):
  `ValueCutAtSecondEquals`, `KeyValueAtFirstRoundTrip`, `KeyValueAgrees`,
  `ParseArgs`, `ParsedKeysAreOptions`, `ParsedKeysStay`, `OptionsAreParsed`.

## Left out

- Browser I/O is not modelled: puppeteer, DOM selectors and the selector
  fallback loops, clicks, scrolling, popups, `waitFor*`, consent and fingerprint
  handling, and the human-like scrolling and mouse movement inside
  `mitigateCaptcha`. The page is replaced by what it showed: result records,
  Local Finder passes, final titles and the captcha answers.
- Timers, `setTimeout` and `Date.now` are not modelled; clock readings are
  parameters.
- `Math.random` is not modelled; each draw is a parameter whose range is a
  precondition.
- `fetch`, the AI calls and `JSON.parse` of their output, report generation,
  persistence, `process.exit` and `main` are not modelled. The keyword list
  coming out of the parsed reply is an input.
- `intelligentDelay` (1254-1264) is left out: it is an integer table lookup
  of `[min, max]` per action type that only feeds `randomDelay`, and it is not
  part of the decision logic.
- Review-count parsing and `getRandomCoordinates` are left out because they
  are floating-point.
- `try`/`catch` failure paths are left out. A Local Finder that could not be
  opened or that threw is modelled as no Local Finder observation.
- `toLowerCase` is modelled on ASCII only.
- `String(...)` coercion of non-strings and `new URL` parsing are not
  modelled. The model is given `urlObj.pathname` as the URL object holds it,
  still percent-encoded; the source does not decode it either, and the
  cleaning at 2685 drops the `%` signs with every other character outside
  `[a-zA-Z0-9\s]`.
- The rendering of rows as strings (3994-3998) is not modelled, for example "N/A"
  for a missing competitor. The row datatype keeps the values instead.
- Captcha.MitigateCaptcha: the jitter `floor(Math.random() * 20000)` is a
  parameter, one integer per round.
- Args.ParseArgs: the options object is modelled as a map. In the source it
  is a plain object (1233), where assigning the key `__proto__` goes to the
  prototype setter and adds no key. So `--__proto__=x` and a bare
  `--__proto__` leave the source's object unchanged, while the model's map
  holds `__proto__`. Other keys are unaffected.
- Pacing.SessionManager.ShouldTakeBreak: the predicate has no `ensures`. Its
  meaning is stated by `Pacing.BreakNeedsBoth`.

## Findings

| source | as written | input that shows it | evidently intended | confidence | as-written member | corrected member |
|---|---|---|---|---|---|---|
| gmbrankingscrapping.ts:1237 | `const [key, val] = a.split('=')` keeps only the text up to a second `=` | `--gmbUrl=https://maps.google.com/?cid=123` sets `gmbUrl` to `https://maps.google.com/?cid` | everything after the first `=` is the value | medium, not executed | Args.ParseCutsValue | Args.ParseKeepsValue |

`Args.ParseFrom` takes the way an argument is cut at `=` as a parameter.
`Args.ParseArgs`, the loop, uses the split as written (`Args.KeyValue`), and
`Args.ParseCutsValue` shows the value it loses. Passing the corrected split
(`Args.KeyValueAtFirst`) keeps the whole value (`Args.ParseKeepsValue`,
`Args.KeyValueAtFirstRoundTrip`). `Args.KeyValueAgrees` shows that the two
splits agree on arguments with at most one `=`. The lemmas about keys
(`ParsedKeysAreOptions`, `ParsedKeysStay`, `OptionsAreParsed`) hold for
either split.
