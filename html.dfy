/** The HTML escaper `esc` (gmbrankingscrapping.ts:233). */
module Html {
  import opened Text

  function EscChar(c: char): (r: string)
  {
    if c == '&' then "&amp;" else if c == '<' then "&lt;" else if c == '>' then "&gt;" else [c]
  }

  /** `esc`: `&`, `<` and `>` replaced by their entity references. The three
      `replace` calls run in that order, so an `&` introduced by the later
      two is not escaped again. */
  function Esc(s: string): (r: string)
    ensures '<' !in r && '>' !in r
    ensures |r| >= |s|
  {
    if s == [] then [] else EscChar(s[0]) + Esc(s[1..])
  }

  /** `s` opens with the entity reference `&ab;`. */
  predicate Ref2(s: string, a: char, b: char) {
    |s| >= 4 && s[0] == '&' && s[1] == a && s[2] == b && s[3] == ';'
  }

  /** `s` opens with the entity reference `&abc;`. */
  predicate Ref3(s: string, a: char, b: char, c: char) {
    |s| >= 5 && s[0] == '&' && s[1] == a && s[2] == b && s[3] == c && s[4] == ';'
  }

  /** Reading the references back. */
  function Unescape(s: string): string
  {
    if s == [] then []
    else if Ref3(s, 'a', 'm', 'p') then "&" + Unescape(s[5..])
    else if Ref2(s, 'l', 't') then "<" + Unescape(s[4..])
    else if Ref2(s, 'g', 't') then ">" + Unescape(s[4..])
    else [s[0]] + Unescape(s[1..])
  }

  /** Unescaping undoes one escaped character in front of any text. */
  lemma UnescapeEscChar(c: char, t: string)
    ensures Unescape(EscChar(c) + t) == [c] + Unescape(t)
  {
    var e := EscChar(c) + t;
    if c == '&' {
      assert Ref3(e, 'a', 'm', 'p') && e[5..] == t;
    } else if c == '<' {
      assert !Ref3(e, 'a', 'm', 'p') && Ref2(e, 'l', 't') && e[4..] == t;
    } else if c == '>' {
      assert !Ref3(e, 'a', 'm', 'p') && !Ref2(e, 'l', 't') && Ref2(e, 'g', 't') && e[4..] == t;
    } else {
      assert e[0] == c && e[1..] == t;
    }
  }

  /** Escaping loses nothing: unescaping gives the text back. */
  lemma {:induction false} UnescapeEsc(s: string)
    ensures Unescape(Esc(s)) == s
  {
    if s != [] {
      UnescapeEsc(s[1..]);
      UnescapeEscChar(s[0], Esc(s[1..]));
      assert s == [s[0]] + s[1..];
    }
  }
}
