/** The per-keyword ranking (gmbrankingscrapping.ts:3126-3267, row fields
    3994-3998): which records the rank is read from, the rank of the target
    business, the Local Finder fallback and the top competitor. A result
    record is its title and URL; a missing URL is the empty string, which
    is what `r.url || ''` makes of it. */
module Ranking {
  import opened Wrappers
  import opened Text
  import opened Matcher
  import opened Discovery

  datatype Record = Record(title: string, url: string)

  /** A local-pack record links to Google Maps. */
  predicate IsMapsRecord(r: Record) {
    Contains(r.url, "google.com/maps")
  }

  /** `localPack`: the Maps records, in their original order. */
  function LocalPack(results: seq<Record>): seq<Record> {
    if results == [] then []
    else (if IsMapsRecord(results[0]) then [results[0]] else []) + LocalPack(results[1..])
  }

  /** `primarySource`: the local pack when it is not empty, else every
      record. */
  function PrimarySource(results: seq<Record>): seq<Record> {
    var lp := LocalPack(results);
    if |lp| > 0 then lp else results
  }

  lemma {:induction false} LocalPackIs(results: seq<Record>)
    ensures |LocalPack(results)| <= |results|
    ensures forall x :: x in LocalPack(results) <==> x in results && IsMapsRecord(x)
  {
    if results != [] {
      LocalPackIs(results[1..]);
      assert results == [results[0]] + results[1..];
    }
  }

  /** Lemma: filtering works piece by piece, so the local pack keeps every
      Maps record of either part, in order, with its repetitions. */
  lemma {:induction false} LocalPackAppend(a: seq<Record>, b: seq<Record>)
    ensures LocalPack(a + b) == LocalPack(a) + LocalPack(b)
  {
    if a != [] {
      assert (a + b)[0] == a[0] && (a + b)[1..] == a[1..] + b;
      LocalPackAppend(a[1..], b);
    } else {
      assert a + b == b;
    }
  }

  /** Lemma: one record is kept exactly when it links to Maps. */
  lemma LocalPackOne(x: Record)
    ensures LocalPack([x]) == if IsMapsRecord(x) then [x] else []
  {
    assert [x][1..] == [];
  }

  /** The rank is read from the Maps records whenever there is one; only a
      list with no Maps record at all is used as it is. */
  lemma PrimarySourcePrefersMaps(results: seq<Record>)
    ensures (exists x :: x in results && IsMapsRecord(x)) ==>
      PrimarySource(results) == LocalPack(results)
    ensures (exists x :: x in results && IsMapsRecord(x)) ==>
      forall x :: x in PrimarySource(results) <==> x in results && IsMapsRecord(x)
    ensures (forall x :: x in results ==> !IsMapsRecord(x)) ==> PrimarySource(results) == results
  {
    LocalPackIs(results);
    var lp := LocalPack(results);
    if |lp| > 0 {
      assert lp[0] in lp;
    }
  }

  /** The core prefix appears in the normalised title or in the lower-cased
      (not normalised) URL. The source also tests that each side is not
      empty; for a non-empty core, which both uses below demand, that test
      changes nothing. */
  predicate Mentions(r: Record, core: string) {
    Contains(Normalize(r.title), core) || Contains(Lower(r.url), core)
  }

  /** The rank test: a core prefix of at least four characters is mentioned. */
  predicate RankHit(r: Record, core: string) {
    |core| >= 4 && Mentions(r, core)
  }

  /** The competitor skip: any non-empty core prefix that is mentioned; there
      is no length guard here. */
  predicate CompetitorSkip(r: Record, core: string) {
    core != [] && Mentions(r, core)
  }

  function FirstRankHitFrom(src: seq<Record>, core: string, k: nat): (r: int)
    requires k <= |src|
    ensures r == -1 || k + 1 <= r <= |src|
    ensures r == -1 <==> forall i :: k <= i < |src| ==> !RankHit(src[i], core)
    ensures r > 0 ==> RankHit(src[r - 1], core) && forall i :: k <= i < r - 1 ==> !RankHit(src[i], core)
    decreases |src| - k
  {
    if k == |src| then -1
    else if RankHit(src[k], core) then k + 1
    else FirstRankHitFrom(src, core, k + 1)
  }

  /** The 1-based position of the first record the rank test accepts, or -1. */
  function FirstRankHit(src: seq<Record>, core: string): (r: int)
    ensures r == -1 || 1 <= r <= |src|
    ensures r == -1 <==> forall i :: 0 <= i < |src| ==> !RankHit(src[i], core)
    ensures r > 0 ==> RankHit(src[r - 1], core) && forall i :: 0 <= i < r - 1 ==> !RankHit(src[i], core)
  {
    FirstRankHitFrom(src, core, 0)
  }

  function FirstNonSkipFrom(src: seq<Record>, core: string, k: nat): (r: int)
    requires k <= |src|
    ensures r == -1 || k + 1 <= r <= |src|
    ensures r == -1 <==> forall i :: k <= i < |src| ==> CompetitorSkip(src[i], core)
    ensures r > 0 ==> !CompetitorSkip(src[r - 1], core) && forall i :: k <= i < r - 1 ==> CompetitorSkip(src[i], core)
    decreases |src| - k
  {
    if k == |src| then -1
    else if !CompetitorSkip(src[k], core) then k + 1
    else FirstNonSkipFrom(src, core, k + 1)
  }

  /** The 1-based position of the first record that is not skipped as the
      target itself, or -1. */
  function FirstNonSkip(src: seq<Record>, core: string): (r: int)
    ensures r == -1 || 1 <= r <= |src|
    ensures r == -1 <==> forall i :: 0 <= i < |src| ==> CompetitorSkip(src[i], core)
    ensures r > 0 ==> !CompetitorSkip(src[r - 1], core) && forall i :: 0 <= i < r - 1 ==> CompetitorSkip(src[i], core)
  {
    FirstNonSkipFrom(src, core, 0)
  }

  /** The `ourRank` loop. */
  method PrimaryRank(src: seq<Record>, corePrefixNorm: string) returns (ourRank: int)
    ensures ourRank == FirstRankHit(src, corePrefixNorm)
  {
    ourRank := -1;
    var i := 0;
    while i < |src|
      invariant 0 <= i <= |src|
      invariant FirstRankHitFrom(src, corePrefixNorm, i) == FirstRankHit(src, corePrefixNorm)
    {
      var r := src[i];
      var normTitle := Normalize(r.title);
      var normUrl := Lower(r.url);
      if corePrefixNorm != [] && |corePrefixNorm| >= 4
         && ((normTitle != [] && Contains(normTitle, corePrefixNorm)) || (normUrl != [] && Contains(normUrl, corePrefixNorm))) {
        ourRank := i + 1;
        break;
      }
      i := i + 1;
    }
  }

  /** The competitor loop. `topCompetitor` and `competitorRank` live outside
      the keyword loop, so when every record is skipped they keep what an
      earlier keyword left in them. */
  method SelectCompetitor(src: seq<Record>, corePrefixNorm: string, top: Option<Record>, rank: int)
    returns (topCompetitor: Option<Record>, competitorRank: int)
    ensures var k := FirstNonSkip(src, corePrefixNorm);
      && (k == -1 ==> topCompetitor == top && competitorRank == rank)
      && (k > 0 ==> topCompetitor == Some(src[k - 1]) && competitorRank == k)
  {
    topCompetitor, competitorRank := top, rank;
    for i := 0 to |src|
      invariant FirstNonSkipFrom(src, corePrefixNorm, i) == FirstNonSkip(src, corePrefixNorm)
    {
      var r := src[i];
      var normTitle := Normalize(r.title);
      var normUrl := Lower(r.url);
      if corePrefixNorm != []
         && ((normTitle != [] && Contains(normTitle, corePrefixNorm)) || (normUrl != [] && Contains(normUrl, corePrefixNorm))) {
        continue;
      }
      topCompetitor := Some(r);
      competitorRank := i + 1;
      break;
    }
  }

  /** The rank test implies the skip: a record that ranks is never the
      competitor. */
  lemma RankHitIsSkipped(r: Record, core: string)
    requires RankHit(r, core)
    ensures CompetitorSkip(r, core)
  {
  }

  /** The competitor chosen on a keyword is never at the primary rank. */
  lemma CompetitorNotAtPrimaryRank(src: seq<Record>, core: string)
    requires FirstRankHit(src, core) > 0
    ensures FirstNonSkip(src, core) != FirstRankHit(src, core)
  {
    RankHitIsSkipped(src[FirstRankHit(src, core) - 1], core);
  }

  /** With an empty core prefix nothing is skipped: the competitor is the
      first record. */
  lemma EmptyCoreCompetitorIsFirst(src: seq<Record>)
    requires src != []
    ensures FirstNonSkip(src, []) == 1
  {
  }

  /** A core prefix of one to three characters never ranks the target, yet
      it still makes the competitor loop skip the records that mention it:
      the competitor mentions it not, and every record before it does. */
  lemma ShortCoreStillSkips(src: seq<Record>, core: string)
    requires 1 <= |core| < 4
    ensures FirstRankHit(src, core) == -1
    ensures var k := FirstNonSkip(src, core);
      k > 0 ==> !Mentions(src[k - 1], core) && forall i :: 0 <= i < k - 1 ==> Mentions(src[i], core)
  {
  }

  /** What one keyword observes besides the result list: whether the Local
      Finder was opened (`clicked`), and if so what its scan saw. */
  datatype FinderObs = FinderObs(passes: seq<Pass>, finalTitles: seq<string>)

  datatype KeywordObs = KeywordObs(results: seq<Record>, finder: Option<FinderObs>)

  /** The fields of a ranking row that come from this logic: our rank (-1 for
      "Not Ranked in Top 20"), the competitor (`None` for "N/A") and its
      rank; or the row written when there are no results at all. */
  datatype Row = NoResults | Ranked(ourRank: int, competitor: Option<Record>, competitorRank: int)

  /** The pass budget `maxScrolls: 20` the Local Finder scan is run with. */
  const FinderScrolls := 20

  predicate WellObserved(obs: seq<KeywordObs>) {
    forall k :: 0 <= k < |obs| ==> obs[k].finder.Some? ==> |obs[k].finder.value.passes| >= FinderScrolls
  }

  /** The Local Finder scan's `foundIndex` for a keyword, -1 when the list
      was not opened. */
  function FinderRank(sigTokens: seq<string>, core: string, o: KeywordObs): int
    requires o.finder.Some? ==> |o.finder.value.passes| >= FinderScrolls
  {
    if o.finder.Some? then Scan(sigTokens, core, FinderScrolls, o.finder.value.passes, o.finder.value.finalTitles).foundIndex
    else -1
  }

  function FinderRanks(sigTokens: seq<string>, core: string, obs: seq<KeywordObs>): (r: seq<int>)
    requires WellObserved(obs)
    ensures |r| == |obs|
    ensures forall k :: 0 <= k < |obs| ==> r[k] == FinderRank(sigTokens, core, obs[k])
  {
    seq(|obs|, k requires 0 <= k < |obs| => FinderRank(sigTokens, core, obs[k]))
  }

  /** Our rank: the primary rank, or, when that is -1, a positive Local
      Finder rank; -1 stands for "Not Ranked in Top 20". */
  function OurRank(primary: int, finder: int): (r: int)
    ensures primary != -1 ==> r == primary
    ensures primary == -1 && finder > 0 ==> r == finder
    ensures primary == -1 && finder <= 0 ==> r == -1
  {
    if primary == -1 && finder > 0 then finder else primary
  }

  /** The competitor state a keyword leaves: a fresh competitor when some
      record of its primary source is not skipped, else the old state (and
      the old state too when there are no results, since that keyword
      `continue`s before the competitor loop). */
  function CompetitorStep(core: string, results: seq<Record>, top: Option<Record>, rank: int): (Option<Record>, int) {
    if results == [] then (top, rank)
    else
      var src := PrimarySource(results);
      var k := FirstNonSkip(src, core);
      if k > 0 then (Some(src[k - 1]), k) else (top, rank)
  }

  /** The competitor state after the first `k` keywords, starting from `null`
      and -1. */
  function StateAt(core: string, obs: seq<KeywordObs>, k: nat): (Option<Record>, int)
    requires k <= |obs|
  {
    if k == 0 then (None, -1)
    else
      var prev := StateAt(core, obs, k - 1);
      CompetitorStep(core, obs[k - 1].results, prev.0, prev.1)
  }

  /** Row `k`, given every keyword's Local Finder rank. */
  function RowAt(core: string, obs: seq<KeywordObs>, finder: seq<int>, k: nat): Row
    requires k < |obs| == |finder|
  {
    if obs[k].results == [] then NoResults
    else
      var st := StateAt(core, obs, k + 1);
      Ranked(OurRank(FirstRankHit(PrimarySource(obs[k].results), core), finder[k]), st.0, st.1)
  }

  /** The rows of all keywords, given every keyword's Local Finder rank. */
  function Rows(core: string, obs: seq<KeywordObs>, finder: seq<int>): (r: seq<Row>)
    requires |obs| == |finder|
    ensures |r| == |obs|
    ensures forall k :: 0 <= k < |obs| ==> r[k] == RowAt(core, obs, finder, k)
  {
    seq(|obs|, k requires 0 <= k < |obs| => RowAt(core, obs, finder, k))
  }

  /** Our rank for one keyword: the primary loop, then the Local Finder
      fallback when it found nothing. */
  method KeywordRank(sigTokens: seq<string>, corePrefixNorm: string, o: KeywordObs) returns (ourRank: int)
    requires o.finder.Some? ==> |o.finder.value.passes| >= FinderScrolls
    ensures ourRank == OurRank(FirstRankHit(PrimarySource(o.results), corePrefixNorm), FinderRank(sigTokens, corePrefixNorm, o))
  {
    ourRank := PrimaryRank(PrimarySource(o.results), corePrefixNorm);
    if ourRank == -1 && o.finder.Some? {
      var found, foundTitle := ScanLocalFinder(sigTokens, corePrefixNorm, FinderScrolls,
                                               o.finder.value.passes, o.finder.value.finalTitles);
      if found > 0 {
        ourRank := found;
      }
    }
  }

  /** The keyword loop, for the rows' rank and competitor fields. */
  method ResolveKeywords(sigTokens: seq<string>, corePrefixNorm: string, obs: seq<KeywordObs>)
    returns (rows: seq<Row>)
    requires WellObserved(obs)
    ensures rows == Rows(corePrefixNorm, obs, FinderRanks(sigTokens, corePrefixNorm, obs))
  {
    ghost var finder := FinderRanks(sigTokens, corePrefixNorm, obs);
    var topCompetitor: Option<Record> := None;
    var competitorRank := -1;
    rows := [];
    for i := 0 to |obs|
      invariant Resolved(corePrefixNorm, obs, finder, rows, topCompetitor, competitorRank, i)
    {
      var row, top, rank := ResolveNext(sigTokens, corePrefixNorm, obs, finder, rows, topCompetitor, competitorRank, i);
      rows := rows + [row];
      topCompetitor, competitorRank := top, rank;
    }
    ResolveDone(corePrefixNorm, obs, finder, rows, topCompetitor, competitorRank);
  }

  /** One pass of the keyword loop: the no-results row, or our rank and the
      competitor state this keyword leaves. */
  method ResolveKeyword(sigTokens: seq<string>, corePrefixNorm: string, o: KeywordObs,
                        topCompetitor: Option<Record>, competitorRank: int)
    returns (row: Row, top: Option<Record>, rank: int)
    requires o.finder.Some? ==> |o.finder.value.passes| >= FinderScrolls
    ensures (top, rank) == CompetitorStep(corePrefixNorm, o.results, topCompetitor, competitorRank)
    ensures o.results == [] ==> row == NoResults
    ensures o.results != [] ==>
      row == Ranked(OurRank(FirstRankHit(PrimarySource(o.results), corePrefixNorm),
                            FinderRank(sigTokens, corePrefixNorm, o)), top, rank)
  {
    if o.results == [] {
      return NoResults, topCompetitor, competitorRank;
    }
    var src := PrimarySource(o.results);
    var ourRank := KeywordRank(sigTokens, corePrefixNorm, o);
    top, rank := SelectCompetitor(src, corePrefixNorm, topCompetitor, competitorRank);
    row := Ranked(ourRank, top, rank);
  }

  /** Keyword `i` of the loop: its row and competitor state carry the
      loop's account of the keywords so far over to keyword `i + 1`. */
  method ResolveNext(sigTokens: seq<string>, corePrefixNorm: string, obs: seq<KeywordObs>, ghost finder: seq<int>,
                     ghost rows: seq<Row>, topCompetitor: Option<Record>, competitorRank: int, i: nat)
    returns (row: Row, top: Option<Record>, rank: int)
    requires WellObserved(obs) && finder == FinderRanks(sigTokens, corePrefixNorm, obs) && i < |obs|
    requires Resolved(corePrefixNorm, obs, finder, rows, topCompetitor, competitorRank, i)
    ensures Resolved(corePrefixNorm, obs, finder, rows + [row], top, rank, i + 1)
  {
    row, top, rank := ResolveKeyword(sigTokens, corePrefixNorm, obs[i], topCompetitor, competitorRank);
    ResolveStep(sigTokens, corePrefixNorm, obs, finder, rows, topCompetitor, competitorRank, i, row, top, rank);
  }

  /** A keyword's row and competitor state extend the rows and state of the
      keywords before it. */
  lemma ResolveStep(sigTokens: seq<string>, core: string, obs: seq<KeywordObs>, finder: seq<int>,
                    rows: seq<Row>, top: Option<Record>, rank: int, i: nat,
                    row: Row, top': Option<Record>, rank': int)
    requires WellObserved(obs) && finder == FinderRanks(sigTokens, core, obs) && i < |obs|
    requires Resolved(core, obs, finder, rows, top, rank, i)
    requires (top', rank') == CompetitorStep(core, obs[i].results, top, rank)
    requires obs[i].results == [] ==> row == NoResults
    requires obs[i].results != [] ==>
      row == Ranked(OurRank(FirstRankHit(PrimarySource(obs[i].results), core),
                            FinderRank(sigTokens, core, obs[i])), top', rank')
    ensures Resolved(core, obs, finder, rows + [row], top', rank', i + 1)
  {
    RowAtStep(sigTokens, core, obs, finder, top, rank, i, row, top', rank');
    RowsExtend(core, obs, finder, rows, i, row);
  }

  /** Row `i` and the state after keyword `i`, from the state before it. */
  lemma RowAtStep(sigTokens: seq<string>, core: string, obs: seq<KeywordObs>, finder: seq<int>,
                  top: Option<Record>, rank: int, i: nat,
                  row: Row, top': Option<Record>, rank': int)
    requires WellObserved(obs) && finder == FinderRanks(sigTokens, core, obs) && i < |obs|
    requires (top, rank) == StateAt(core, obs, i)
    requires (top', rank') == CompetitorStep(core, obs[i].results, top, rank)
    requires obs[i].results == [] ==> row == NoResults
    requires obs[i].results != [] ==>
      row == Ranked(OurRank(FirstRankHit(PrimarySource(obs[i].results), core),
                            FinderRank(sigTokens, core, obs[i])), top', rank')
    ensures StateAt(core, obs, i + 1) == (top', rank')
    ensures RowAt(core, obs, finder, i) == row
  {
    assert finder[i] == FinderRank(sigTokens, core, obs[i]);
  }

  /** The first `i` rows followed by row `i` are the first `i + 1` rows. */
  lemma RowsExtend(core: string, obs: seq<KeywordObs>, finder: seq<int>, rows: seq<Row>, i: nat, row: Row)
    requires |obs| == |finder| && i < |obs|
    requires rows == Rows(core, obs, finder)[..i] && row == RowAt(core, obs, finder, i)
    ensures rows + [row] == Rows(core, obs, finder)[..i + 1]
  {
    var want := Rows(core, obs, finder);
    assert want[..i + 1] == want[..i] + [want[i]];
  }

  /** After `i` keywords: the rows so far are the first `i` rows, and the
      competitor state is the one the first `i` keywords leave. */
  ghost predicate Resolved(core: string, obs: seq<KeywordObs>, finder: seq<int>,
                           rows: seq<Row>, top: Option<Record>, rank: int, i: nat)
    requires |obs| == |finder|
  {
    && i <= |obs|
    && rows == Rows(core, obs, finder)[..i]
    && (top, rank) == StateAt(core, obs, i)
  }

  /** After the last keyword the rows are all the rows. */
  lemma ResolveDone(core: string, obs: seq<KeywordObs>, finder: seq<int>,
                    rows: seq<Row>, top: Option<Record>, rank: int)
    requires |obs| == |finder|
    requires Resolved(core, obs, finder, rows, top, rank, |obs|)
    ensures rows == Rows(core, obs, finder)
  {
    var want := Rows(core, obs, finder);
    assert want[..|obs|] == want;
  }

  /** The carried-over competitor: on a keyword whose records all mention a
      non-empty core prefix, the row reports the competitor and rank an
      earlier keyword left (none and -1 if no earlier keyword set one). */
  lemma StaleCompetitorCarriesOver(core: string, obs: seq<KeywordObs>, finder: seq<int>, k: nat)
    requires k < |obs| == |finder|
    requires obs[k].results != []
    requires forall x :: x in PrimarySource(obs[k].results) ==> CompetitorSkip(x, core)
    ensures var row := RowAt(core, obs, finder, k);
      var t := StateAt(core, obs, k);
      row.Ranked? && row.competitor == t.0 && row.competitorRank == t.1
  {
    var src := PrimarySource(obs[k].results);
    assert forall i :: 0 <= i < |src| ==> CompetitorSkip(src[i], core) by {
      forall i | 0 <= i < |src| ensures CompetitorSkip(src[i], core) {
        assert src[i] in src;
      }
    }
  }

  /** If every keyword so far has had all its records skipped, the row still
      carries no competitor: the report shows "N/A" for it. */
  lemma {:induction false} NoCompetitorYet(core: string, obs: seq<KeywordObs>, k: nat)
    requires k <= |obs|
    requires forall j :: 0 <= j < k ==> FirstNonSkip(PrimarySource(obs[j].results), core) == -1
    ensures StateAt(core, obs, k) == (None, -1)
  {
    if k > 0 {
      NoCompetitorYet(core, obs, k - 1);
    }
  }

  /** A keyword with a record that does not mention the core prefix gets a
      fresh competitor: the first such record of its own primary source. */
  lemma FreshCompetitorIsFirstNonSkip(core: string, obs: seq<KeywordObs>, finder: seq<int>, k: nat)
    requires k < |obs| == |finder|
    requires exists x :: x in PrimarySource(obs[k].results) && !CompetitorSkip(x, core)
    ensures var row := RowAt(core, obs, finder, k);
      var src := PrimarySource(obs[k].results);
      var c := FirstNonSkip(src, core);
      && row.Ranked? && c > 0 && row.competitor == Some(src[c - 1]) && row.competitorRank == c
      && forall i :: 0 <= i < c - 1 ==> CompetitorSkip(src[i], core)
  {
    var src := PrimarySource(obs[k].results);
    var x :| x in src && !CompetitorSkip(x, core);
    var i :| 0 <= i < |src| && src[i] == x;
  }

  /** When the primary scan ranks the target, the row's rank is that rank
      whatever the Local Finder would say, and a fresh competitor is never at
      it. */
  lemma PrimaryRankWins(core: string, results: seq<Record>, finder: int)
    requires FirstRankHit(PrimarySource(results), core) > 0
    ensures OurRank(FirstRankHit(PrimarySource(results), core), finder) == FirstRankHit(PrimarySource(results), core)
    ensures FirstNonSkip(PrimarySource(results), core) != OurRank(FirstRankHit(PrimarySource(results), core), finder)
  {
    CompetitorNotAtPrimaryRank(PrimarySource(results), core);
  }

  /** A rank from the Local Finder is reported only when the primary scan
      found nothing and the list was opened, and then it is the scan's
      positive `foundIndex`. */
  lemma FinderRankOnlyAsFallback(sigTokens: seq<string>, core: string, o: KeywordObs)
    requires o.finder.Some? ==> |o.finder.value.passes| >= FinderScrolls
    requires var r := OurRank(FirstRankHit(PrimarySource(o.results), core), FinderRank(sigTokens, core, o));
      r != FirstRankHit(PrimarySource(o.results), core)
    ensures FirstRankHit(PrimarySource(o.results), core) == -1 && o.finder.Some?
    ensures OurRank(FirstRankHit(PrimarySource(o.results), core), FinderRank(sigTokens, core, o))
            == Scan(sigTokens, core, FinderScrolls, o.finder.value.passes, o.finder.value.finalTitles).foundIndex > 0
  {
  }
}
