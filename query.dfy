/** The Maps search query built from a keyword idea
    (gmbrankingscrapping.ts:3051-3056). */
module Query {
  import opened Text

  /** The query opens with `best` in any case followed by white space. */
  predicate LeadingBest(s: string) {
    |s| >= 5 && Lower(s[..4]) == "best" && IsJsSpace(s[4])
  }

  /** `s.replace(/^best\s+/i, '')`: the greedy `\s+` takes every white-space
      character after the word. */
  function StripBest(s: string): (r: string)
    ensures LeadingBest(s) ==> r == TrimStart(s[4..]) && |r| < |s|
    ensures !LeadingBest(s) ==> r == s
  {
    if LeadingBest(s) then TrimStart(s[4..]) else s
  }

  /** The city suffix: ` in ` and the city are appended unless the
      lower-cased query already names the city after ` in `. */
  function WithCity(q: string, city: string): string {
    if Contains(Lower(q), " in " + Lower(city)) then q else q + " in " + city
  }

  /** The Maps query for keyword query `query` in `city`: a single leading
      `Best `, then the city suffix. */
  function BuildQuery(query: string, city: string): string {
    WithCity("Best " + Trim(StripBest(query)), city)
  }

  /** The suffixed query extends the query and, lower-cased, names the city
      after ` in `; the suffix is added exactly when it was missing. */
  lemma WithCityMentionsCity(q: string, city: string)
    ensures |q| <= |WithCity(q, city)| && WithCity(q, city)[..|q|] == q
    ensures Contains(Lower(WithCity(q, city)), " in " + Lower(city))
    ensures WithCity(q, city) == q <==> Contains(Lower(q), " in " + Lower(city))
  {
    if !Contains(Lower(q), " in " + Lower(city)) {
      LowerAppend(q, " in " + city);
      LowerAppend(" in ", city);
      assert Lower(" in ") == " in ";
      ContainsAt(Lower(q + " in " + city), " in " + Lower(city), |q|);
    }
  }

  /** Every built query starts with `Best ` and, lower-cased, names the
      city after ` in `; the suffix is added exactly when it was missing. */
  lemma {:induction false} BuildQueryMentionsCity(query: string, city: string)
    ensures StartsWith(BuildQuery(query, city), "Best ")
    ensures Contains(Lower(BuildQuery(query, city)), " in " + Lower(city))
    ensures var q := "Best " + Trim(StripBest(query));
      BuildQuery(query, city) == q <==> Contains(Lower(q), " in " + Lower(city))
  {
    var q := "Best " + Trim(StripBest(query));
    WithCityMentionsCity(q, city);
    var r := WithCity(q, city);
    assert r[..5] == q[..5];
  }

  /** A `best` and white space in front of an unprefixed query: stripping
      leaves the query with its leading white space trimmed. */
  lemma {:induction false} StripLeadingBest(p: string, query: string)
    requires |p| == 5 && Lower(p[..4]) == "best" && IsJsSpace(p[4])
    ensures StripBest(p + query) == TrimStart(query)
  {
    var s := p + query;
    assert s[..4] == p[..4] && s[4] == p[4];
    assert LeadingBest(s);
    assert s[4..] == [p[4]] + query;
  }

  /** A leading `best ` (any case, any run of white space) makes no
      difference to the query sent: the query comes out with one `Best`. */
  lemma {:induction false} LeadingBestIgnored(p: string, query: string, city: string)
    requires |p| == 5 && Lower(p[..4]) == "best" && IsJsSpace(p[4])
    requires !LeadingBest(query)
    ensures BuildQuery(p + query, city) == BuildQuery(query, city)
  {
    StripLeadingBest(p, query);
    TrimAfterTrimStart(query);
  }
}
