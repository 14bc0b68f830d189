/** The identity matcher `checkScript` (gmbrankingscrapping.ts:1321-1373),
    run over the titles of the result cards on one page. The same algorithm
    is repeated in the final scan of the Local Finder (1548-1604), which the
    Discovery module models by calling it again. */
module Matcher {
  import opened Wrappers
  import opened Text

  /** `norms`: the normal form of every title. */
  function Norms(titles: seq<string>): (r: seq<string>)
    ensures |r| == |titles|
    ensures forall i :: 0 <= i < |titles| ==> r[i] == Normalize(titles[i])
  {
    seq(|titles|, i requires 0 <= i < |titles| => Normalize(titles[i]))
  }

  /** `coreHit`: a core prefix of at least four characters occurs in the
      normalised title. */
  predicate CoreHit(n: string, core: string) {
    |core| >= 4 && Contains(n, core)
  }

  /** `coreCount`: how many titles are core hits. */
  function CoreCount(titles: seq<string>, core: string): (r: nat)
    ensures r <= |titles|
  {
    if titles == [] then 0
    else
      var last := if CoreHit(Normalize(titles[|titles| - 1]), core) then 1 else 0;
      CoreCount(titles[..|titles| - 1], core) + last
  }

  /** Document frequency of `w`: the number of titles whose token set holds
      `w` (each title counts once however often it repeats the word). */
  function DocFreq(titles: seq<string>, w: string): (r: nat)
    ensures r <= |titles|
  {
    if titles == [] then 0
    else
      var last := if w in Tokenize(titles[|titles| - 1]) then 1 else 0;
      DocFreq(titles[..|titles| - 1], w) + last
  }

  /** `busSet`: the normalised signature tokens. */
  function BusSet(sigTokens: seq<string>): set<string> {
    set t | t in sigTokens :: Normalize(t)
  }

  /** A signature token is rare when it is at least five characters long and
      occurs in at most two titles. */
  predicate IsRare(tk: string, titles: seq<string>) {
    |tk| >= 5 && DocFreq(titles, tk) <= 2
  }

  function RareSet(sigTokens: seq<string>, titles: seq<string>): set<string> {
    set tk | tk in BusSet(sigTokens) && IsRare(tk, titles)
  }

  /** `needsRare`: the core prefix is common in this list. */
  predicate NeedsRare(titles: seq<string>, core: string) {
    CoreCount(titles, core) >= 3
  }

  predicate HasRareToken(n: string, sigTokens: seq<string>, titles: seq<string>) {
    exists tk :: tk in RareSet(sigTokens, titles) && Contains(n, tk)
  }

  /** Title `i` is accepted: a core hit and, when the core is common, one of
      the rare signature tokens occurs in its normal form too. */
  predicate Qualifies(titles: seq<string>, sigTokens: seq<string>, core: string, i: int)
    requires 0 <= i < |titles|
  {
    CoreHit(Normalize(titles[i]), core)
    && (NeedsRare(titles, core) ==> HasRareToken(Normalize(titles[i]), sigTokens, titles))
  }

  /** The 1-based position of the first accepted title at or after `k`,
      or -1. */
  function FirstMatchFrom(titles: seq<string>, sigTokens: seq<string>, core: string, k: nat): (r: int)
    requires k <= |titles|
    ensures r == -1 || k + 1 <= r <= |titles|
    decreases |titles| - k
  {
    if k == |titles| then -1
    else if Qualifies(titles, sigTokens, core, k) then k + 1
    else FirstMatchFrom(titles, sigTokens, core, k + 1)
  }

  /** `FirstMatchFrom` finds the first accepted title: -1 exactly when none
      qualifies, and otherwise a qualifying title with none before it. */
  lemma {:induction false} FirstMatchFromSpec(titles: seq<string>, sigTokens: seq<string>, core: string, k: nat)
    requires k <= |titles|
    ensures var r := FirstMatchFrom(titles, sigTokens, core, k);
      && (r == -1 <==> forall i :: k <= i < |titles| ==> !Qualifies(titles, sigTokens, core, i))
      && (r > 0 ==> Qualifies(titles, sigTokens, core, r - 1))
      && (r > 0 ==> forall i :: k <= i < r - 1 ==> !Qualifies(titles, sigTokens, core, i))
    decreases |titles| - k
  {
    if k < |titles| && !Qualifies(titles, sigTokens, core, k) {
      FirstMatchFromSpec(titles, sigTokens, core, k + 1);
    }
  }

  /** The 1-based position of the first accepted title, or -1. */
  function FirstMatch(titles: seq<string>, sigTokens: seq<string>, core: string): (r: int)
    ensures r == -1 || 1 <= r <= |titles|
  {
    FirstMatchFrom(titles, sigTokens, core, 0)
  }

  /** `FirstMatch` over the whole list. */
  lemma FirstMatchSpec(titles: seq<string>, sigTokens: seq<string>, core: string)
    ensures var r := FirstMatch(titles, sigTokens, core);
      && (r == -1 <==> forall i :: 0 <= i < |titles| ==> !Qualifies(titles, sigTokens, core, i))
      && (r > 0 ==> Qualifies(titles, sigTokens, core, r - 1))
      && (r > 0 ==> forall i :: 0 <= i < r - 1 ==> !Qualifies(titles, sigTokens, core, i))
  {
    FirstMatchFromSpec(titles, sigTokens, core, 0);
  }

  /** `freq.get(w) || 0`. */
  function Count(freq: map<string, nat>, w: string): nat {
    if w in freq then freq[w] else 0
  }

  /** The `freq` loop: for each title, every word of its token set adds one. */
  method CountDocuments(titles: seq<string>) returns (freq: map<string, nat>)
    ensures forall w :: Count(freq, w) == DocFreq(titles, w)
  {
    freq := map[];
    for i := 0 to |titles|
      invariant forall w :: Count(freq, w) == DocFreq(titles[..i], w)
    {
      var ws := set w | w in Tokenize(titles[i]);
      var rest := ws;
      while rest != {}
        invariant rest <= ws
        invariant forall w :: Count(freq, w) == DocFreq(titles[..i], w) + (if w in ws - rest then 1 else 0)
        decreases rest
      {
        var w :| w in rest;
        freq := freq[w := Count(freq, w) + 1];
        rest := rest - {w};
      }
      assert titles[..i + 1][..i] == titles[..i];
    }
    assert titles[..|titles|] == titles;
  }

  /** The `rareSet` loop over `busSet`. */
  method SelectRare(busSet: set<string>, freq: map<string, nat>) returns (rareSet: set<string>)
    ensures forall tk :: tk in rareSet <==> tk in busSet && |tk| >= 5 && Count(freq, tk) <= 2
  {
    rareSet := {};
    var rest := busSet;
    while rest != {}
      invariant rest <= busSet
      invariant forall tk :: tk in rareSet <==> tk in busSet - rest && |tk| >= 5 && Count(freq, tk) <= 2
      decreases rest
    {
      var tk :| tk in rest;
      rest := rest - {tk};
      if |tk| < 5 {
        continue;
      }
      var f := Count(freq, tk);
      if f <= 2 {
        rareSet := rareSet + {tk};
      }
    }
  }

  /** The `rareHits` loop: does some token of `tokens` occur in `n`? */
  method AnyOccurs(n: string, tokens: set<string>) returns (hit: bool)
    ensures hit <==> exists tk :: tk in tokens && Contains(n, tk)
  {
    var rest := tokens;
    while rest != {}
      invariant rest <= tokens
      invariant forall tk :: tk in tokens - rest ==> !Contains(n, tk)
      decreases rest
    {
      var tk :| tk in rest;
      if Contains(n, tk) {
        return true;
      }
      rest := rest - {tk};
    }
    return false;
  }

  /** `checkScript`: the first accepted title, as a 1-based index and the
      title itself, or -1 and null. */
  method CheckScript(sigTokens: seq<string>, corePrefix: string, titles: seq<string>)
    returns (foundIndex: int, title: Option<string>)
    ensures foundIndex == FirstMatch(titles, sigTokens, corePrefix)
    ensures foundIndex > 0 ==> title == Some(titles[foundIndex - 1]) && |titles[foundIndex - 1]| >= 4
    ensures foundIndex <= 0 ==> title == None
  {
    var norms := Norms(titles);
    var coreCount := CoreCount(titles, corePrefix);
    var rareSet := RareTokens(sigTokens, titles);
    var needsRare := coreCount >= 3;
    for i := 0 to |norms|
      invariant FirstMatchFrom(titles, sigTokens, corePrefix, i) == FirstMatch(titles, sigTokens, corePrefix)
    {
      var accepted := Accepts(titles, sigTokens, corePrefix, i, norms[i], needsRare, rareSet);
      if accepted {
        return i + 1, Some(titles[i]);
      }
    }
    return -1, None;
  }

  /** `busSet`, the `freq` loop and the `rareSet` loop: the rare signature
      tokens of this list of titles. */
  method RareTokens(sigTokens: seq<string>, titles: seq<string>) returns (rareSet: set<string>)
    ensures rareSet == RareSet(sigTokens, titles)
  {
    var busSet := set t | t in sigTokens :: Normalize(t);
    var freq := CountDocuments(titles);
    rareSet := SelectRare(busSet, freq);
    RareSetIs(sigTokens, titles, busSet, freq, rareSet);
  }

  /** One pass of the `norms` loop: whether title `i`, with normal form `n`,
      is a core hit and, when the core is common, holds a rare token. */
  method Accepts(titles: seq<string>, sigTokens: seq<string>, corePrefix: string, i: nat,
                 n: string, needsRare: bool, rareSet: set<string>)
    returns (accepted: bool)
    requires i < |titles| && n == Normalize(titles[i])
    requires needsRare == NeedsRare(titles, corePrefix) && rareSet == RareSet(sigTokens, titles)
    ensures accepted == Qualifies(titles, sigTokens, corePrefix, i)
    ensures accepted ==> |titles[i]| >= 4
  {
    QualifiesIff(titles, sigTokens, corePrefix, i, rareSet);
    var coreHit := |corePrefix| >= 4 && Contains(n, corePrefix);
    if !coreHit {
      return false;
    }
    if needsRare {
      var rareHit := AnyOccurs(n, rareSet);
      if !rareHit {
        return false;
      }
    }
    ContainsLength(n, corePrefix);
    return true;
  }

  lemma QualifiesIff(titles: seq<string>, sigTokens: seq<string>, core: string, i: nat, rareSet: set<string>)
    requires i < |titles| && rareSet == RareSet(sigTokens, titles)
    ensures Qualifies(titles, sigTokens, core, i)
       <==> (|core| >= 4 && Contains(Normalize(titles[i]), core))
            && (CoreCount(titles, core) >= 3 ==> exists tk :: tk in rareSet && Contains(Normalize(titles[i]), tk))
  {
  }

  /** The sets the loops build are the ones the specification names. */
  lemma RareSetIs(sigTokens: seq<string>, titles: seq<string>, busSet: set<string>,
                  freq: map<string, nat>, rareSet: set<string>)
    requires busSet == set t | t in sigTokens :: Normalize(t)
    requires forall w :: Count(freq, w) == DocFreq(titles, w)
    requires forall tk :: tk in rareSet <==> tk in busSet && |tk| >= 5 && Count(freq, tk) <= 2
    ensures rareSet == RareSet(sigTokens, titles)
  {
  }

  /** The guard: with a core prefix shorter than four characters nothing
      is ever accepted, whatever the titles and tokens. */
  lemma ShortCoreNeverMatches(titles: seq<string>, sigTokens: seq<string>, core: string)
    requires |core| < 4
    ensures FirstMatch(titles, sigTokens, core) == -1
  {
    FirstMatchSpec(titles, sigTokens, core);
  }

  /** When the core prefix is common (three or more core hits), the title
      returned holds a signature token of five or more characters that occurs
      in at most two titles. */
  lemma CommonCoreNeedsRareToken(titles: seq<string>, sigTokens: seq<string>, core: string)
    requires CoreCount(titles, core) >= 3
    requires FirstMatch(titles, sigTokens, core) > 0
    ensures var n := Normalize(titles[FirstMatch(titles, sigTokens, core) - 1]);
      exists tk :: tk in BusSet(sigTokens) && |tk| >= 5 && DocFreq(titles, tk) <= 2 && Contains(n, tk)
  {
    var r := FirstMatch(titles, sigTokens, core);
    FirstMatchSpec(titles, sigTokens, core);
    var tk :| tk in RareSet(sigTokens, titles) && Contains(Normalize(titles[r - 1]), tk);
  }

  /** When the core prefix is rare (fewer than three core hits), the first
      core hit is returned and a missing core hit means -1. */
  lemma RareCoreFirstHitWins(titles: seq<string>, sigTokens: seq<string>, core: string)
    requires CoreCount(titles, core) < 3
    ensures var r := FirstMatch(titles, sigTokens, core);
      (r == -1 <==> forall i :: 0 <= i < |titles| ==> !CoreHit(Normalize(titles[i]), core))
      && (r > 0 ==>
            CoreHit(Normalize(titles[r - 1]), core)
            && forall i :: 0 <= i < r - 1 ==> !CoreHit(Normalize(titles[i]), core))
  {
    var r := FirstMatch(titles, sigTokens, core);
    FirstMatchSpec(titles, sigTokens, core);
    forall i | 0 <= i < |titles| ensures Qualifies(titles, sigTokens, core, i) <==> CoreHit(Normalize(titles[i]), core) {
    }
  }

  /** Rarity refinement picks out the one business among crowded core hits:
      if the core is common and exactly title `j` combines a core hit with a
      rare token, `j` is what is returned. */
  lemma CrowdedCoreSingleRare(titles: seq<string>, sigTokens: seq<string>, core: string, j: nat)
    requires j < |titles| && CoreCount(titles, core) >= 3
    requires CoreHit(Normalize(titles[j]), core) && HasRareToken(Normalize(titles[j]), sigTokens, titles)
    requires forall i :: 0 <= i < |titles| && i != j ==>
      !(CoreHit(Normalize(titles[i]), core) && HasRareToken(Normalize(titles[i]), sigTokens, titles))
    ensures FirstMatch(titles, sigTokens, core) == j + 1
  {
    assert Qualifies(titles, sigTokens, core, j);
    FirstMatchSpec(titles, sigTokens, core);
  }
}
