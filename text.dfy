/** String operations the scraper relies on: ASCII lower-casing, the
    `[^a-z0-9]` normalisation, JavaScript's `trim`, `includes`, splitting on
    one character and the whitespace tokeniser. */
module Text {

  /** `toLowerCase` on one character, restricted to ASCII A-Z. */
  function LowerChar(c: char): (r: char)
    ensures 'A' <= c <= 'Z' ==> 'a' <= r <= 'z'
    ensures !('A' <= c <= 'Z') ==> r == c
  {
    if 'A' <= c <= 'Z' then (c as int + 32) as char else c
  }

  function Lower(s: string): (r: string)
    ensures |r| == |s|
    ensures forall i :: 0 <= i < |s| ==> r[i] == LowerChar(s[i])
  {
    seq(|s|, i requires 0 <= i < |s| => LowerChar(s[i]))
  }

  /** Lower-casing works character by character. */
  lemma LowerAppend(a: string, b: string)
    ensures Lower(a + b) == Lower(a) + Lower(b)
  {
  }

  /** The character class `[a-z0-9]`. */
  predicate IsAlnum(c: char) {
    'a' <= c <= 'z' || '0' <= c <= '9'
  }

  /** `s.toLowerCase().replace(/[^a-z0-9]/g, '')`. */
  function Normalize(s: string): (r: string)
    ensures |r| <= |s|
    ensures forall i :: 0 <= i < |r| ==> IsAlnum(r[i])
  {
    if s == [] then []
    else (if IsAlnum(LowerChar(s[0])) then [LowerChar(s[0])] else []) + Normalize(s[1..])
  }

  lemma {:induction false} NormalizeAppend(a: string, b: string)
    ensures Normalize(a + b) == Normalize(a) + Normalize(b)
  {
    if a != [] {
      assert (a + b)[1..] == a[1..] + b;
      NormalizeAppend(a[1..], b);
    } else {
      assert a + b == b;
    }
  }

  /** A string made of `[a-z0-9]` only is its own normal form. */
  lemma {:induction false} NormalizeFixesAlnum(s: string)
    requires forall i :: 0 <= i < |s| ==> IsAlnum(s[i])
    ensures Normalize(s) == s
  {
    if s != [] {
      NormalizeFixesAlnum(s[1..]);
    }
  }

  lemma NormalizeIdempotent(s: string)
    ensures Normalize(Normalize(s)) == Normalize(s)
  {
    NormalizeFixesAlnum(Normalize(s));
  }

  /** The characters `\s` and `trim` treat as white space in JavaScript. */
  predicate IsJsSpace(c: char) {
    var n := c as int;
    (9 <= n <= 13) || n == 32 || n == 0xA0 || n == 0x1680 || (0x2000 <= n <= 0x200A)
    || n == 0x2028 || n == 0x2029 || n == 0x202F || n == 0x205F || n == 0x3000 || n == 0xFEFF
  }

  function TrimStart(s: string): (r: string)
    ensures |r| <= |s|
    ensures r == [] || !IsJsSpace(r[0])
    ensures forall i :: 0 <= i < |s| - |r| ==> IsJsSpace(s[i])
  {
    if s != [] && IsJsSpace(s[0]) then TrimStart(s[1..]) else s
  }

  function TrimEnd(s: string): (r: string)
    ensures |r| <= |s|
    ensures r == [] || !IsJsSpace(r[|r| - 1])
    ensures forall i :: |r| <= i < |s| ==> IsJsSpace(s[i])
  {
    if s != [] && IsJsSpace(s[|s| - 1]) then TrimEnd(s[..|s| - 1]) else s
  }

  /** What `TrimStart` leaves is a suffix of the string. */
  lemma {:induction false} TrimStartSlice(s: string)
    ensures TrimStart(s) == s[|s| - |TrimStart(s)|..]
  {
    if s != [] && IsJsSpace(s[0]) {
      TrimStartSlice(s[1..]);
    }
  }

  /** What `TrimEnd` leaves is a prefix of the string. */
  lemma {:induction false} TrimEndSlice(s: string)
    ensures TrimEnd(s) == s[..|TrimEnd(s)|]
  {
    if s != [] && IsJsSpace(s[|s| - 1]) {
      TrimEndSlice(s[..|s| - 1]);
    }
  }

  /** `String.prototype.trim`: a piece of `s` with no white space at either
      end, empty exactly when `s` is all white space. */
  function Trim(s: string): (r: string)
    ensures r == [] || (!IsJsSpace(r[0]) && !IsJsSpace(r[|r| - 1]))
    ensures r == [] <==> forall i :: 0 <= i < |s| ==> IsJsSpace(s[i])
  {
    TrimSlice(s);
    TrimEndSlice(TrimStart(s));
    TrimEnd(TrimStart(s))
  }

  /** The trimmed string is a piece of the original. */
  lemma TrimContained(s: string)
    ensures Contains(s, Trim(s))
  {
    TrimSlice(s);
  }

  lemma {:induction false} TrimSlice(s: string)
    ensures Contains(s, TrimEnd(TrimStart(s)))
    ensures TrimEnd(TrimStart(s)) == [] <==> forall i :: 0 <= i < |s| ==> IsJsSpace(s[i])
  {
    var t := TrimStart(s);
    var r := TrimEnd(t);
    var a := |s| - |t|;
    TrimStartSlice(s);
    TrimEndSlice(t);
    assert r == s[a..a + |r|];
    ContainsAt(s, r, a);
    if t != [] {
      assert t[0] == s[a];
    }
    if r == [] {
      assert t == [];
    }
  }

  lemma {:induction false} TrimStartNoop(s: string)
    requires s == [] || !IsJsSpace(s[0])
    ensures TrimStart(s) == s
  {
  }

  lemma {:induction false} TrimEndNoop(s: string)
    requires s == [] || !IsJsSpace(s[|s| - 1])
    ensures TrimEnd(s) == s
  {
  }

  /** Trimming the front first changes nothing. */
  lemma {:induction false} TrimAfterTrimStart(s: string)
    ensures Trim(TrimStart(s)) == Trim(s)
  {
    TrimStartNoop(TrimStart(s));
  }

  /** Trimming twice is trimming once. */
  lemma TrimIdempotent(s: string)
    ensures Trim(Trim(s)) == Trim(s)
  {
    var t := Trim(s);
    TrimStartNoop(t);
    TrimEndNoop(t);
  }

  predicate StartsWith(s: string, p: string) {
    |p| <= |s| && s[..|p|] == p
  }

  /** `s.includes(sub)`. */
  predicate Contains(s: string, sub: string)
    decreases |s|
  {
    StartsWith(s, sub) || (s != [] && Contains(s[1..], sub))
  }

  lemma {:induction false} ContainsAt(s: string, sub: string, i: nat)
    requires i + |sub| <= |s| && s[i..i + |sub|] == sub
    ensures Contains(s, sub)
    decreases i
  {
    if i > 0 {
      assert s[1..][i - 1..i - 1 + |sub|] == s[i..i + |sub|];
      ContainsAt(s[1..], sub, i - 1);
    } else {
      assert s[..|sub|] == sub;
    }
  }

  lemma {:induction false} ContainsWitness(s: string, sub: string) returns (i: nat)
    requires Contains(s, sub)
    ensures i + |sub| <= |s| && s[i..i + |sub|] == sub
    decreases |s|
  {
    if StartsWith(s, sub) {
      i := 0;
    } else {
      var j := ContainsWitness(s[1..], sub);
      assert s[1..][j..j + |sub|] == s[j + 1..j + 1 + |sub|];
      i := j + 1;
    }
  }

  /** A string contains every piece it is built around. */
  lemma ContainsMiddle(a: string, m: string, b: string)
    ensures Contains(a + m + b, m)
  {
    var s := a + m + b;
    assert s[|a|..|a| + |m|] == m;
    ContainsAt(s, m, |a|);
  }

  /** `sub` occurs in `s` at offset `i`. */
  predicate OccursAt(s: string, sub: string, i: nat) {
    i + |sub| <= |s| && s[i..i + |sub|] == sub
  }

  /** `includes` is exactly "occurs at some offset". */
  lemma ContainsIff(s: string, sub: string)
    ensures Contains(s, sub) <==> exists i: nat :: OccursAt(s, sub, i)
  {
    if Contains(s, sub) {
      var i := ContainsWitness(s, sub);
      assert OccursAt(s, sub, i);
    }
    if exists i: nat :: OccursAt(s, sub, i) {
      var i: nat :| OccursAt(s, sub, i);
      ContainsAt(s, sub, i);
    }
  }

  /** Every character of a piece of `s` is a character of `s`. */
  lemma ContainsChars(s: string, sub: string, c: char)
    requires Contains(s, sub) && c in sub
    ensures c in s
  {
    var i := ContainsWitness(s, sub);
    var j :| 0 <= j < |sub| && sub[j] == c;
    assert s[i + j] == sub[j];
  }

  /** A piece of a piece of `s` is a piece of `s`. */
  lemma ContainsTransitive(s: string, mid: string, sub: string)
    requires Contains(s, mid) && Contains(mid, sub)
    ensures Contains(s, sub)
  {
    var i := ContainsWitness(s, mid);
    var j := ContainsWitness(mid, sub);
    assert mid == s[i..i + |mid|];
    forall k | 0 <= k < |sub| ensures s[i + j + k] == sub[k] {
      assert sub[k] == mid[j + k];
    }
    assert s[i + j..i + j + |sub|] == sub;
    ContainsAt(s, sub, i + j);
  }

  /** Any string containing `sub` is at least as long as `sub`. */
  lemma ContainsLength(s: string, sub: string)
    requires Contains(s, sub)
    ensures |sub| <= |s|
  {
    var i := ContainsWitness(s, sub);
  }

  /** Index of the first `sep` in `s`, or -1 (`indexOf`). */
  function IndexOf(s: string, sep: char): (r: int)
    ensures -1 <= r < |s|
    ensures r == -1 <==> sep !in s
    ensures r >= 0 ==> s[r] == sep && sep !in s[..r]
  {
    if s == [] then -1
    else if s[0] == sep then 0
    else var k := IndexOf(s[1..], sep);
      assert s[1..][..if k >= 0 then k else 0] == s[1..if k >= 0 then k + 1 else 1];
      if k == -1 then -1 else k + 1
  }

  /** `indexOf` finds the first occurrence. */
  lemma IndexOfIs(s: string, sep: char, k: nat)
    requires k < |s| && s[k] == sep && sep !in s[..k]
    ensures IndexOf(s, sep) == k
  {
    var r := IndexOf(s, sep);
    assert s[k] in s;
    assert forall i :: 0 <= i < k ==> s[i] != sep by {
      forall i | 0 <= i < k ensures s[i] != sep {
        assert s[..k][i] == s[i];
      }
    }
    assert forall i :: 0 <= i < r ==> s[i] != sep by {
      forall i | 0 <= i < r ensures s[i] != sep {
        assert s[..r][i] == s[i];
      }
    }
  }

  /** `s.split(sep)` for a one-character separator. */
  function Split(s: string, sep: char): (r: seq<string>)
    ensures |r| >= 1
    ensures forall i :: 0 <= i < |r| ==> sep !in r[i]
    decreases |s|
  {
    var k := IndexOf(s, sep);
    if k == -1 then [s] else [s[..k]] + Split(s[k + 1..], sep)
  }

  function Join(parts: seq<string>, sep: char): string {
    if |parts| <= 1 then (if parts == [] then "" else parts[0])
    else parts[0] + [sep] + Join(parts[1..], sep)
  }

  /** Splitting loses nothing: joining the parts with the separator gives the
      original string back. */
  lemma {:induction false} JoinSplit(s: string, sep: char)
    ensures Join(Split(s, sep), sep) == s
    decreases |s|
  {
    var k := IndexOf(s, sep);
    if k != -1 {
      var tail := Split(s[k + 1..], sep);
      JoinSplit(s[k + 1..], sep);
      JoinCons(s[..k], tail, sep);
      Reassemble(s, k);
    }
  }

  /** Joining pieces free of the separator and splitting again gives the
      pieces back. */
  lemma {:induction false} SplitJoin(ws: seq<string>, sep: char)
    requires |ws| >= 1
    requires forall i :: 0 <= i < |ws| ==> sep !in ws[i]
    ensures Split(Join(ws, sep), sep) == ws
  {
    if |ws| == 1 {
      assert Join(ws, sep) == ws[0];
      assert sep !in ws[0];
    } else {
      var w, t := ws[0], Join(ws[1..], sep);
      var s := w + [sep] + t;
      assert Join(ws, sep) == s;
      SplitAt(w, sep, t);
      SplitJoin(ws[1..], sep);
      assert ws == [w] + ws[1..];
    }
  }

  lemma SplitAt(w: string, sep: char, t: string)
    requires sep !in w
    ensures Split(w + [sep] + t, sep) == [w] + Split(t, sep)
  {
    var s := w + [sep] + t;
    assert s[..|w|] == w;
    IndexOfIs(s, sep, |w|);
    assert s[|w| + 1..] == t;
  }

  /** A character in none of the pieces, other than the separator, is not in
      their join. */
  lemma {:induction false} JoinAvoids(ws: seq<string>, sep: char, c: char)
    requires c != sep && forall i :: 0 <= i < |ws| ==> c !in ws[i]
    ensures c !in Join(ws, sep)
  {
    if |ws| > 1 {
      JoinAvoids(ws[1..], sep, c);
    }
  }

  /** Joining lower-case pieces with a character that is not a capital gives
      a lower-case string. */
  lemma {:induction false} LowerJoin(ws: seq<string>, sep: char)
    requires !('A' <= sep <= 'Z')
    requires forall i :: 0 <= i < |ws| ==> Lower(ws[i]) == ws[i]
    ensures Lower(Join(ws, sep)) == Join(ws, sep)
  {
    if |ws| > 1 {
      LowerJoin(ws[1..], sep);
      LowerAppend(ws[0] + [sep], Join(ws[1..], sep));
      LowerAppend(ws[0], [sep]);
    }
  }

  lemma JoinCons(p: string, tail: seq<string>, sep: char)
    requires |tail| >= 1
    ensures Join([p] + tail, sep) == p + [sep] + Join(tail, sep)
  {
    assert ([p] + tail)[1..] == tail;
  }

  lemma Reassemble(s: string, k: nat)
    requires k < |s|
    ensures s[..k] + [s[k]] + s[k + 1..] == s
  {
  }

  /** The maximal runs of `[a-z0-9]` in `s`, `cur` being the run in progress. */
  function WordsFrom(s: string, cur: string): (r: seq<string>)
    requires forall i :: 0 <= i < |cur| ==> IsAlnum(cur[i])
    ensures forall k :: 0 <= k < |r| ==> r[k] != [] && forall i :: 0 <= i < |r[k]| ==> IsAlnum(r[k][i])
    decreases |s|
  {
    if s == [] then (if cur == [] then [] else [cur])
    else if IsAlnum(s[0]) then WordsFrom(s[1..], cur + [s[0]])
    else (if cur == [] then [] else [cur]) + WordsFrom(s[1..], [])
  }

  /** `s.toLowerCase().replace(/[^a-z0-9\s]/g, ' ').split(/\s+/).filter(Boolean)`:
      after the replacement every character outside `[a-z0-9]` is white space,
      so the non-empty pieces are the maximal runs of `[a-z0-9]`. */
  function Tokenize(s: string): (r: seq<string>)
    ensures forall k :: 0 <= k < |r| ==> r[k] != [] && forall i :: 0 <= i < |r[k]| ==> IsAlnum(r[k][i])
  {
    WordsFrom(Lower(s), [])
  }

  /** A character outside `[a-z0-9]` closes the run in progress; what
      follows it is tokenised afresh. */
  lemma {:induction false} WordsFromCut(x: string, c: char, y: string, cur: string)
    requires forall i :: 0 <= i < |cur| ==> IsAlnum(cur[i])
    requires !IsAlnum(c)
    ensures WordsFrom(x + [c] + y, cur) == WordsFrom(x, cur) + WordsFrom(y, [])
    decreases |x|
  {
    var s := x + [c] + y;
    if x == [] {
      assert s[0] == c && s[1..] == y;
    } else {
      assert s[0] == x[0] && s[1..] == x[1..] + [c] + y;
      if IsAlnum(x[0]) {
        WordsFromCut(x[1..], c, y, cur + [x[0]]);
      } else {
        WordsFromCut(x[1..], c, y, []);
      }
    }
  }

  /** A run of `[a-z0-9]` extends the run in progress into one word. */
  lemma {:induction false} WordsFromRun(w: string, cur: string)
    requires forall i :: 0 <= i < |cur| ==> IsAlnum(cur[i])
    requires forall i :: 0 <= i < |w| ==> IsAlnum(w[i])
    ensures WordsFrom(w, cur) == if cur + w == [] then [] else [cur + w]
    decreases |w|
  {
    if w == [] {
      assert cur + w == cur;
    } else {
      assert cur + w == (cur + [w[0]]) + w[1..];
      WordsFromRun(w[1..], cur + [w[0]]);
    }
  }

  /** The tokens of a name cut by a character that lower-cases to something
      outside `[a-z0-9]` are the tokens of either side, in order. */
  lemma TokenizeCut(a: string, c: char, b: string)
    requires !IsAlnum(LowerChar(c))
    ensures Tokenize(a + [c] + b) == Tokenize(a) + Tokenize(b)
  {
    LowerAppend(a + [c], b);
    LowerAppend(a, [c]);
    assert Lower([c]) == [LowerChar(c)];
    WordsFromCut(Lower(a), LowerChar(c), Lower(b), []);
  }

  /** A non-empty run of letters and digits is one token, lower-cased. */
  lemma TokenizeRun(w: string)
    requires w != [] && forall i :: 0 <= i < |w| ==> IsAlnum(LowerChar(w[i]))
    ensures Tokenize(w) == [Lower(w)]
  {
    WordsFromRun(Lower(w), []);
    assert [] + Lower(w) == Lower(w);
  }
}
