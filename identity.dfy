/** The identity of the target business (gmbrankingscrapping.ts:3002-3031):
    the caller's stop words, the signature tokens of the business name and
    the core prefix every match is anchored on. */
module Identity {
  import opened Text

  /** `GMB_STOPWORDS`: lower-cased, split on commas, each piece trimmed,
      empty pieces dropped. */
  function StopWords(env: string): (r: set<string>)
    ensures forall w :: w in r ==> w != [] && ',' !in w && !IsJsSpace(w[0]) && !IsJsSpace(w[|w| - 1])
    ensures forall p :: p in Split(Lower(env), ',') && Trim(p) != [] ==> Trim(p) in r
    ensures forall w :: w in r ==> exists p :: p in Split(Lower(env), ',') && Trim(p) == w
  {
    var parts := Split(Lower(env), ',');
    var r := set p | p in parts && Trim(p) != [] :: Trim(p);
    assert forall w :: w in r ==> ',' !in w by {
      forall w | w in r ensures ',' !in w {
        var p :| p in parts && Trim(p) != [] && Trim(p) == w;
        TrimContained(p);
        if ',' in w {
          ContainsChars(p, w, ',');
        }
      }
    }
    r
  }

  /** A stop word needs no trimming. */
  predicate IsStopWord(w: string) {
    && w != [] && ',' !in w && Lower(w) == w
    && !IsJsSpace(w[0]) && !IsJsSpace(w[|w| - 1])
  }

  /** Lemma: a comma-separated list of lower-case, trimmed words is read back
      as exactly the set of those words. */
  lemma StopWordsOfList(ws: seq<string>)
    requires |ws| >= 1 && forall i :: 0 <= i < |ws| ==> IsStopWord(ws[i])
    ensures StopWords(Join(ws, ',')) == set w | w in ws
  {
    var env := Join(ws, ',');
    LowerJoin(ws, ',');
    SplitJoin(ws, ',');
    assert Split(Lower(env), ',') == ws;
    forall w | w in ws ensures Trim(w) == w && Trim(w) != [] {
      TrimStartNoop(w);
      TrimEndNoop(w);
    }
  }

  /** Lemma: upper-case letters in the variable do not matter. */
  lemma StopWordsIgnoreCase(env: string)
    ensures StopWords(Lower(env)) == StopWords(env)
  {
    assert Lower(Lower(env)) == Lower(env);
  }

  /** The tokens of the business name that are at least three characters
      long and not stop words, in the order they occur. */
  function SigTokens(businessName: string, stops: set<string>): (r: seq<string>)
    ensures forall t :: t in r <==> t in Tokenize(businessName) && |t| >= 3 && t !in stops
  {
    KeepSignificant(Tokenize(businessName), stops)
  }

  function KeepSignificant(ws: seq<string>, stops: set<string>): (r: seq<string>)
    ensures forall t :: t in r <==> t in ws && |t| >= 3 && t !in stops
  {
    if ws == [] then []
    else (if |ws[0]| >= 3 && ws[0] !in stops then [ws[0]] else []) + KeepSignificant(ws[1..], stops)
  }

  /** The separator class `[:\-|()]` of `extractCore`. */
  predicate IsSeparator(c: char) {
    c == ':' || c == '-' || c == '|' || c == '(' || c == ')'
  }

  /** `s.search(/[:\-|()]/)`. */
  function FirstSeparator(s: string): (r: int)
    ensures -1 <= r < |s|
    ensures r == -1 <==> forall i :: 0 <= i < |s| ==> !IsSeparator(s[i])
    ensures r >= 0 ==> IsSeparator(s[r]) && forall i :: 0 <= i < r ==> !IsSeparator(s[i])
  {
    if s == [] then -1
    else if IsSeparator(s[0]) then 0
    else var k := FirstSeparator(s[1..]);
      if k == -1 then -1 else k + 1
  }

  predicate NoSeparator(s: string) {
    forall i :: 0 <= i < |s| ==> !IsSeparator(s[i])
  }

  /** `extractCore`: the trimmed head before the first separator, where a
      separator at index 0 does not cut (the whole name is kept). */
  function ExtractCore(s: string): (r: string)
    ensures Contains(s, r)
    ensures r == [] || (!IsJsSpace(r[0]) && !IsJsSpace(r[|r| - 1]))
    ensures FirstSeparator(s) != 0 ==> NoSeparator(r)
  {
    var idx := FirstSeparator(s);
    var head := if idx > 0 then s[..idx] else s;
    HeadFacts(s, idx, head);
    Trim(head)
  }

  lemma HeadFacts(s: string, idx: int, head: string)
    requires idx == FirstSeparator(s) && head == if idx > 0 then s[..idx] else s
    ensures Contains(s, Trim(head))
    ensures idx != 0 ==> NoSeparator(Trim(head))
  {
    var r := Trim(head);
    TrimContained(head);
    ContainsAt(s, head, 0);
    ContainsTransitive(s, head, r);
    if idx != 0 {
      assert NoSeparator(head);
      PieceNoSeparator(head, r);
    }
  }

  lemma PieceNoSeparator(head: string, r: string)
    requires NoSeparator(head) && Contains(head, r)
    ensures NoSeparator(r)
  {
    var i0 := ContainsWitness(head, r);
    forall i | 0 <= i < |r| ensures !IsSeparator(r[i]) {
      assert r[i] == head[i0 + i];
    }
  }

  /** Lemma: a name cut by a separator after a non-empty head without one
      keeps the trimmed head. */
  lemma ExtractCoreCuts(p: string, c: char, q: string)
    requires p != [] && NoSeparator(p) && IsSeparator(c)
    ensures ExtractCore(p + [c] + q) == Trim(p)
  {
    var s := p + [c] + q;
    var idx := FirstSeparator(s);
    assert s[|p|] == c;
    assert s[..|p|] == p;
    assert idx == |p|;
  }

  /** Lemma: a name without a separator is kept whole, trimmed. */
  lemma ExtractCoreWhole(s: string)
    requires NoSeparator(s)
    ensures ExtractCore(s) == Trim(s)
  {
  }

  /** Lemma: a name that starts with a separator is kept whole, trimmed. */
  lemma ExtractCoreLeadingSeparator(c: char, q: string)
    requires IsSeparator(c)
    ensures ExtractCore([c] + q) == Trim([c] + q)
  {
    assert ([c] + q)[0] == c;
  }

  /** The core prefix: the canonical page name `targetName` wins over the
      caller's `businessName` unless it is empty (`targetName || businessName`). */
  function TargetCore(targetName: string, businessName: string): (r: string)
    ensures targetName != [] ==> Contains(targetName, r)
    ensures targetName == [] ==> Contains(businessName, r)
  {
    var name := if targetName != [] then targetName else businessName;
    var core := ExtractCore(name);
    TrimContained(core);
    ContainsTransitive(name, core, Trim(core));
    Trim(core)
  }

  /** `corePrefixNorm`: the normal form of the core of the name in use. */
  function CorePrefixNorm(targetName: string, businessName: string): (r: string)
    ensures r == Normalize(ExtractCore(if targetName != [] then targetName else businessName))
    ensures forall i :: 0 <= i < |r| ==> IsAlnum(r[i])
  {
    TargetCoreIsCore(targetName, businessName);
    Normalize(TargetCore(targetName, businessName))
  }

  /** The extra `.trim()` after `extractCore` changes nothing. */
  lemma TargetCoreIsCore(targetName: string, businessName: string)
    ensures TargetCore(targetName, businessName)
         == ExtractCore(if targetName != [] then targetName else businessName)
  {
    var s := if targetName != [] then targetName else businessName;
    TrimStartNoop(ExtractCore(s));
    TrimEndNoop(ExtractCore(s));
  }

  /** Cutting the head off a name that has already been cut changes nothing. */
  lemma ExtractCoreIdempotent(s: string)
    ensures ExtractCore(ExtractCore(s)) == ExtractCore(s)
  {
    var r := ExtractCore(s);
    if FirstSeparator(s) == 0 {
      TrimStartNoop(s);
      TrimEndSlice(s);
      assert r == TrimEnd(s);
      assert r != [];
      assert r[0] == s[0];
      assert FirstSeparator(r) == 0;
    } else {
      assert FirstSeparator(r) == -1;
    }
    TrimStartNoop(r);
    TrimEndNoop(r);
  }
}
