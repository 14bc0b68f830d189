/** The business name and city read off a Google Maps `/place/` path
    (gmbrankingscrapping.ts:2682-2692). */
module Place {
  import opened Text

  /** Offset of the first occurrence of `sub` in `s` at or after `k`, or -1. */
  function IndexOfSubFrom(s: string, sub: string, k: nat): (r: int)
    requires k <= |s|
    ensures r == -1 || k <= r <= |s| - |sub|
    ensures r >= 0 ==> OccursAt(s, sub, r) && forall i :: k <= i < r ==> !OccursAt(s, sub, i)
    ensures r == -1 ==> forall i :: k <= i <= |s| ==> !OccursAt(s, sub, i)
    decreases |s| - k
  {
    if OccursAt(s, sub, k) then k
    else if k == |s| then -1
    else IndexOfSubFrom(s, sub, k + 1)
  }

  /** The character class `[a-zA-Z0-9\s]`. */
  predicate IsNameChar(c: char) {
    'a' <= c <= 'z' || 'A' <= c <= 'Z' || '0' <= c <= '9' || IsJsSpace(c)
  }

  /** `p.replace(/[^a-zA-Z0-9\s]/g, '')`. */
  function Clean(p: string): (r: string)
    ensures |r| <= |p|
    ensures forall i :: 0 <= i < |r| ==> IsNameChar(r[i])
  {
    if p == [] then []
    else (if IsNameChar(p[0]) then [p[0]] else []) + Clean(p[1..])
  }

  /** Lemma: cleaning works character by character. */
  lemma {:induction false} CleanAppend(a: string, b: string)
    ensures Clean(a + b) == Clean(a) + Clean(b)
  {
    if a != [] {
      assert (a + b)[0] == a[0] && (a + b)[1..] == a[1..] + b;
      CleanAppend(a[1..], b);
    } else {
      assert a + b == b;
    }
  }

  /** Lemma: one character is kept exactly when it is a letter, a digit or
      white space. */
  lemma CleanOne(c: char)
    ensures Clean([c]) == if IsNameChar(c) then [c] else []
  {
    assert [c][1..] == [];
  }

  /** Lemma: a string of name characters is left as it is. */
  lemma {:induction false} CleanKeepsName(p: string)
    requires forall i :: 0 <= i < |p| ==> IsNameChar(p[i])
    ensures Clean(p) == p
  {
    if p != [] {
      CleanKeepsName(p[1..]);
    }
  }

  /** `pieces.map(p => clean(p).trim()).filter(Boolean)`. */
  function NameParts(pieces: seq<string>): (r: seq<string>)
    ensures |r| <= |pieces|
  {
    if pieces == [] then []
    else
      var p := Trim(Clean(pieces[0]));
      if p == [] then NameParts(pieces[1..]) else [p] + NameParts(pieces[1..])
  }

  /** Lemma: the parts of a list of pieces are the parts of either half, in
      order. */
  lemma {:induction false} NamePartsAppend(a: seq<string>, b: seq<string>)
    ensures NameParts(a + b) == NameParts(a) + NameParts(b)
  {
    if a != [] {
      assert (a + b)[0] == a[0] && (a + b)[1..] == a[1..] + b;
      NamePartsAppend(a[1..], b);
    } else {
      assert a + b == b;
    }
  }

  /** Lemma: one piece gives its cleaned, trimmed text, or nothing when that
      is empty. */
  lemma NamePartsOne(p: string)
    ensures NameParts([p]) == if Trim(Clean(p)) == [] then [] else [Trim(Clean(p))]
  {
    assert [p][1..] == [];
  }

  /** Lemma: pieces that are already clean names are kept, all of them. */
  lemma {:induction false} NamePartsClean(ws: seq<string>)
    requires forall i :: 0 <= i < |ws| ==> CleanName(ws[i])
    ensures NameParts(ws) == ws
  {
    if ws != [] {
      CleanKeepsName(ws[0]);
      NamePartsClean(ws[1..]);
      assert ws == [ws[0]] + ws[1..];
    }
  }

  lemma CleanTrimChars(p: string)
    ensures forall i :: 0 <= i < |Trim(Clean(p))| ==> IsNameChar(Trim(Clean(p))[i])
  {
    var c := Clean(p);
    var t := Trim(c);
    TrimContained(c);
    forall i | 0 <= i < |t| ensures IsNameChar(t[i]) {
      ContainsChars(c, t, t[i]);
    }
  }

  /** The piece of the path between the first `/place/` and the next `/`,
      split at `+`: `pathname.split('/place/')[1].split('/')[0].split('+')`. */
  function PlacePieces(pathname: string, at: nat): (r: seq<string>)
    requires OccursAt(pathname, "/place/", at)
  {
    var rest := pathname[at + 7..];
    var next := IndexOfSubFrom(rest, "/place/", 0);
    var placePart := if next == -1 then rest else rest[..next];
    Split(Split(placePart, '/')[0], '+')
  }

  /** The first and last cleaned pieces, each defaulting when missing. */
  function PickNameCity(parts: seq<string>, business: string, city: string): (string, string) {
    (if |parts| > 0 then parts[0] else business,
     if |parts| > 1 then parts[|parts| - 1] else city)
  }

  /** The business name and city detected so far are replaced by the first
      and, when there are at least two, the last cleaned piece of the name in
      a `/place/` path. */
  function PlaceNameCity(pathname: string, business: string, city: string): (r: (string, string))
  {
    var at := IndexOfSubFrom(pathname, "/place/", 0);
    if at == -1 then (business, city)
    else
      PickNameCity(NameParts(PlacePieces(pathname, at)), business, city)
  }

  /** Without a `/place/` segment both defaults stay. */
  lemma NoPlaceKeepsDefaults(pathname: string, business: string, city: string)
    requires !Contains(pathname, "/place/")
    ensures PlaceNameCity(pathname, business, city) == (business, city)
  {
    var at := IndexOfSubFrom(pathname, "/place/", 0);
    if at != -1 {
      ContainsAt(pathname, "/place/", at);
    }
  }

  /** A trimmed, non-empty run of letters, digits and white space. */
  predicate CleanName(b: string) {
    b != [] && Trim(b) == b && forall i :: 0 <= i < |b| ==> IsNameChar(b[i])
  }

  lemma PickShape(pieces: seq<string>, business: string, city: string)
    ensures var (b, c) := PickNameCity(NameParts(pieces), business, city);
      (b != business ==> CleanName(b)) && (c != city ==> CleanName(c))
  {
    var parts := NameParts(pieces);
    if |parts| > 0 {
      TrimmedPart(pieces, parts, 0);
      TrimmedPart(pieces, parts, |parts| - 1);
    }
  }

  /** A name or city taken from a `/place/` path is a non-empty run of
      letters, digits and white space that is already trimmed. */
  lemma PlaceNameCityShape(pathname: string, business: string, city: string)
    ensures var (b, c) := PlaceNameCity(pathname, business, city);
      (b != business ==> CleanName(b)) && (c != city ==> CleanName(c))
  {
    var at := IndexOfSubFrom(pathname, "/place/", 0);
    if at != -1 {
      PickShape(PlacePieces(pathname, at), business, city);
    }
  }

  /** Lemma: a path whose first `/place/` is followed by clean names joined
      with `+`, up to a `/` or the end, yields the first name as the business
      and, when there are two or more, the last as the city. */
  lemma PlaceRoundTrip(pre: string, ws: seq<string>, post: string, business: string, city: string)
    requires |ws| >= 1 && forall i :: 0 <= i < |ws| ==> CleanName(ws[i])
    requires post == [] || post[0] == '/'
    requires forall i :: 0 <= i < |pre| ==> !OccursAt(pre + "/place/" + Join(ws, '+') + post, "/place/", i)
    ensures PlaceNameCity(pre + "/place/" + Join(ws, '+') + post, business, city)
         == (ws[0], if |ws| > 1 then ws[|ws| - 1] else city)
  {
    CleanNamesJoin(ws);
    PlaceOfPath(pre, Join(ws, '+'), post, business, city);
    NamePartsClean(ws);
  }

  lemma PlaceOfPath(pre: string, j: string, post: string, business: string, city: string)
    requires '/' !in j && (post == [] || post[0] == '/')
    requires forall i :: 0 <= i < |pre| ==> !OccursAt(pre + "/place/" + j + post, "/place/", i)
    ensures PlaceNameCity(pre + "/place/" + j + post, business, city)
         == PickNameCity(NameParts(Split(j, '+')), business, city)
  {
    var path := pre + "/place/" + j + post;
    assert path == pre + "/place/" + (j + post);
    FirstPlaceAt(pre, j + post);
    PlacePiecesOf(path, |pre|, j, post);
  }

  lemma CleanNamesJoin(ws: seq<string>)
    requires |ws| >= 1 && forall i :: 0 <= i < |ws| ==> CleanName(ws[i])
    ensures '/' !in Join(ws, '+') && Split(Join(ws, '+'), '+') == ws
  {
    forall i | 0 <= i < |ws| ensures '/' !in ws[i] && '+' !in ws[i] {
      assert !IsNameChar('/') && !IsNameChar('+');
    }
    JoinAvoids(ws, '+', '/');
    SplitJoin(ws, '+');
  }

  lemma FirstPlaceAt(pre: string, x: string)
    requires forall i :: 0 <= i < |pre| ==> !OccursAt(pre + "/place/" + x, "/place/", i)
    ensures IndexOfSubFrom(pre + "/place/" + x, "/place/", 0) == |pre|
  {
    var path := pre + "/place/" + x;
    assert path[|pre|..|pre| + 7] == "/place/";
    assert OccursAt(path, "/place/", |pre|);
  }

  lemma PlacePiecesOf(path: string, at: nat, j: string, post: string)
    requires OccursAt(path, "/place/", at) && path[at + 7..] == j + post
    requires '/' !in j && (post == [] || post[0] == '/')
    ensures PlacePieces(path, at) == Split(j, '+')
  {
    var rest := j + post;
    var next := IndexOfSubFrom(rest, "/place/", 0);
    forall i | 0 <= i < |j| ensures !OccursAt(rest, "/place/", i) {
      assert rest[i] == j[i] != '/';
    }
    var placePart := if next == -1 then rest else rest[..next];
    assert placePart == j + placePart[|j|..];
    FirstSegment(j, placePart[|j|..]);
  }

  lemma FirstSegment(j: string, tail: string)
    requires '/' !in j && (tail == [] || tail[0] == '/')
    ensures Split(j + tail, '/')[0] == j
  {
    if tail == [] {
      assert j + tail == j;
    } else {
      assert (j + tail)[..|j|] == j;
      IndexOfIs(j + tail, '/', |j|);
    }
  }

  lemma {:induction false} NamePartsFrom(pieces: seq<string>, k: nat)
    requires k < |NameParts(pieces)|
    ensures NameParts(pieces)[k] != []
    ensures exists j :: 0 <= j < |pieces| && NameParts(pieces)[k] == Trim(Clean(pieces[j]))
    decreases |pieces|
  {
    var p := Trim(Clean(pieces[0]));
    if p == [] || k > 0 {
      var k' := if p == [] then k else k - 1;
      NamePartsFrom(pieces[1..], k');
      var j :| 0 <= j < |pieces[1..]| && NameParts(pieces[1..])[k'] == Trim(Clean(pieces[1..][j]));
      assert pieces[1..][j] == pieces[j + 1];
    }
  }

  lemma TrimmedPart(pieces: seq<string>, parts: seq<string>, k: nat)
    requires parts == NameParts(pieces) && k < |parts|
    ensures parts[k] != [] && Trim(parts[k]) == parts[k]
    ensures forall i :: 0 <= i < |parts[k]| ==> IsNameChar(parts[k][i])
  {
    NamePartsFrom(pieces, k);
    var j :| 0 <= j < |pieces| && parts[k] == Trim(Clean(pieces[j]));
    TrimIdempotent(Clean(pieces[j]));
    CleanTrimChars(pieces[j]);
  }
}
