/** The de-duplication of the generated keyword ideas
    (gmbrankingscrapping.ts:2748-2762). */
module Keywords {
  import opened Text

  /** At most this many ideas are kept. */
  const MaxIdeas := 5

  /** One `{keyword, query}` item of the generated idea list, with a
      missing or falsy field as the empty string. */
  datatype RawIdea = RawIdea(keyword: string, query: string)

  /** A `KeywordIdea` kept for ranking. */
  datatype Idea = Idea(keyword: string, query: string)

  /** An item as the loop sees it: whether it qualifies (both fields present
      and non-empty after trimming) and its trimmed fields. */
  datatype Candidate = Candidate(ok: bool, keyword: string, query: string)

  function Prepare(it: RawIdea): (c: Candidate)
    ensures c.keyword == Trim(it.keyword) && c.query == Trim(it.query)
    ensures c.ok <==> it.keyword != [] && it.query != [] && c.keyword != [] && c.query != []
  {
    var keyword := Trim(it.keyword);
    var query := Trim(it.query);
    Candidate(it.keyword != [] && it.query != [] && keyword != [] && query != [], keyword, query)
  }

  function Prepared(items: seq<RawIdea>): (cs: seq<Candidate>)
    ensures |cs| == |items|
  {
    if items == [] then [] else [Prepare(items[0])] + Prepared(items[1..])
  }

  /** `Prepared` works item by item. */
  lemma {:induction false} PreparedAt(items: seq<RawIdea>, k: nat)
    requires k < |items|
    ensures Prepared(items)[k] == Prepare(items[k])
  {
    if k > 0 {
      PreparedAt(items[1..], k - 1);
    }
  }

  /** The candidates kept from `cs`, `seen` holding the lower-cased keywords
      already taken and `room` how many more may be taken: a qualifying
      candidate is kept when its lower-cased keyword is new. */
  function Select(cs: seq<Candidate>, seen: set<string>, room: nat): (r: seq<Idea>)
    ensures |r| <= room
    decreases |cs|
  {
    if cs == [] || room == 0 then []
    else if cs[0].ok && Lower(cs[0].keyword) !in seen then
      [Idea(cs[0].keyword, cs[0].query)] + Select(cs[1..], seen + {Lower(cs[0].keyword)}, room - 1)
    else
      Select(cs[1..], seen, room)
  }

  /** The ideas kept from the generated list. */
  function Dedupe(items: seq<RawIdea>): (r: seq<Idea>)
    ensures |r| <= MaxIdeas
  {
    Select(Prepared(items), {}, MaxIdeas)
  }

  /** One step of `Select` at offset `i` of `cs`. */
  lemma SelectStep(cs: seq<Candidate>, i: nat, seen: set<string>, room: nat)
    requires i < |cs| && room > 0
    ensures Select(cs[i..], seen, room) ==
      if cs[i].ok && Lower(cs[i].keyword) !in seen then
        [Idea(cs[i].keyword, cs[i].query)] + Select(cs[i + 1..], seen + {Lower(cs[i].keyword)}, room - 1)
      else Select(cs[i + 1..], seen, room)
  {
    assert cs[i..][0] == cs[i];
    assert cs[i..][1..] == cs[i + 1..];
  }

  /** A kept idea is a qualifying candidate whose lower-cased keyword was not
      seen before. */
  lemma {:induction false} SelectFrom(cs: seq<Candidate>, seen: set<string>, room: nat, k: nat)
    requires k < |Select(cs, seen, room)|
    ensures var x := Select(cs, seen, room)[k];
      && Lower(x.keyword) !in seen
      && exists j :: 0 <= j < |cs| && cs[j].ok && x == Idea(cs[j].keyword, cs[j].query)
    decreases |cs|
  {
    var c := cs[0];
    var taken := c.ok && Lower(c.keyword) !in seen;
    if !taken || k > 0 {
      var seen' := if taken then seen + {Lower(c.keyword)} else seen;
      var room' := if taken then room - 1 else room;
      var k' := if taken then k - 1 else k;
      assert Select(cs, seen, room)[k] == Select(cs[1..], seen', room')[k'];
      SelectFrom(cs[1..], seen', room', k');
      var j :| 0 <= j < |cs[1..]| && cs[1..][j].ok
        && Select(cs[1..], seen', room')[k'] == Idea(cs[1..][j].keyword, cs[1..][j].query);
      assert cs[1..][j] == cs[j + 1];
    }
  }

  /** No two ideas share a keyword once lower-cased. */
  predicate DistinctKeys(r: seq<Idea>) {
    forall a, b :: 0 <= a < b < |r| ==> Lower(r[a].keyword) != Lower(r[b].keyword)
  }

  /** The kept keywords are distinct once lower-cased. */
  lemma {:induction false} SelectDistinct(cs: seq<Candidate>, seen: set<string>, room: nat)
    ensures DistinctKeys(Select(cs, seen, room))
    decreases |cs|
  {
    if cs != [] && room != 0 {
      var c := cs[0];
      if c.ok && Lower(c.keyword) !in seen {
        var seen' := seen + {Lower(c.keyword)};
        var rest := Select(cs[1..], seen', room - 1);
        SelectDistinct(cs[1..], seen', room - 1);
        forall b | 0 <= b < |rest| ensures Lower(rest[b].keyword) != Lower(c.keyword) {
          SelectFrom(cs[1..], seen', room - 1, b);
        }
        var r := Select(cs, seen, room);
        assert r == [Idea(c.keyword, c.query)] + rest;
        forall a, b | 0 <= a < b < |r| ensures Lower(r[a].keyword) != Lower(r[b].keyword) {
          assert r[b] == rest[b - 1];
          if a > 0 {
            assert r[a] == rest[a - 1];
            assert Lower(rest[a - 1].keyword) != Lower(rest[b - 1].keyword);
          } else {
            assert r[a] == Idea(c.keyword, c.query);
            assert Lower(rest[b - 1].keyword) != Lower(c.keyword);
          }
        }
      } else {
        SelectDistinct(cs[1..], seen, room);
      }
    }
  }

  /** The lower-cased keywords of some ideas. */
  function Keys(r: seq<Idea>): set<string> {
    set x | x in r :: Lower(x.keyword)
  }

  /** Nothing usable is lost while there is room: when fewer ideas than the
      room allows are kept, the lower-cased keyword of every qualifying
      candidate was seen before or is the keyword of a kept idea. */
  lemma {:induction false} SelectComplete(cs: seq<Candidate>, seen: set<string>, room: nat, j: nat)
    requires j < |cs| && cs[j].ok && |Select(cs, seen, room)| < room
    ensures Lower(cs[j].keyword) in seen + Keys(Select(cs, seen, room))
    decreases |cs|
  {
    var c := cs[0];
    var r := Select(cs, seen, room);
    if c.ok && Lower(c.keyword) !in seen {
      var seen' := seen + {Lower(c.keyword)};
      var rest := Select(cs[1..], seen', room - 1);
      assert r == [Idea(c.keyword, c.query)] + rest;
      assert Idea(c.keyword, c.query) in r;
      if j > 0 {
        SelectComplete(cs[1..], seen', room - 1, j - 1);
        assert cs[1..][j - 1] == cs[j];
        forall w | w in Keys(rest) ensures w in Keys(r) {
          var x :| x in rest && Lower(x.keyword) == w;
          assert x in r;
        }
      }
    } else if j > 0 {
      SelectComplete(cs[1..], seen, room, j - 1);
      assert cs[1..][j - 1] == cs[j];
    }
  }

  /** The first spelling is kept: a kept idea is the first qualifying
      candidate with its lower-cased keyword. */
  lemma {:induction false} SelectFirstSpelling(cs: seq<Candidate>, seen: set<string>, room: nat, k: nat)
    requires k < |Select(cs, seen, room)|
    ensures var x := Select(cs, seen, room)[k];
      exists j :: 0 <= j < |cs| && cs[j].ok && x == Idea(cs[j].keyword, cs[j].query)
        && forall i :: 0 <= i < j ==> !(cs[i].ok && Lower(cs[i].keyword) == Lower(x.keyword))
    decreases |cs|
  {
    var c := cs[0];
    var x := Select(cs, seen, room)[k];
    var taken := c.ok && Lower(c.keyword) !in seen;
    if taken && k == 0 {
      assert x == Idea(cs[0].keyword, cs[0].query);
    } else {
      var seen' := if taken then seen + {Lower(c.keyword)} else seen;
      var room' := if taken then room - 1 else room;
      var k' := if taken then k - 1 else k;
      assert x == Select(cs[1..], seen', room')[k'];
      SelectFrom(cs[1..], seen', room', k');
      SelectFirstSpelling(cs[1..], seen', room', k');
      var j :| 0 <= j < |cs[1..]| && cs[1..][j].ok && x == Idea(cs[1..][j].keyword, cs[1..][j].query)
        && forall i :: 0 <= i < j ==> !(cs[1..][i].ok && Lower(cs[1..][i].keyword) == Lower(x.keyword));
      assert Lower(c.keyword) != Lower(x.keyword) || !c.ok;
      forall i | 0 <= i < j + 1 ensures !(cs[i].ok && Lower(cs[i].keyword) == Lower(x.keyword)) {
        if i > 0 {
          assert cs[i] == cs[1..][i - 1];
        }
      }
      assert cs[j + 1] == cs[1..][j];
    }
  }

  /** While fewer than five ideas are kept, the keyword of every usable item
      is, lower-cased, the keyword of a kept idea. */
  lemma DedupeComplete(items: seq<RawIdea>, j: nat)
    requires j < |items| && Prepare(items[j]).ok && |Dedupe(items)| < MaxIdeas
    ensures Lower(Trim(items[j].keyword)) in Keys(Dedupe(items))
  {
    PreparedAt(items, j);
    SelectComplete(Prepared(items), {}, MaxIdeas, j);
  }

  /** The kept spelling of a keyword is that of the first usable item with
      it, trimmed. */
  lemma DedupeFirstSpelling(items: seq<RawIdea>, k: nat)
    requires k < |Dedupe(items)|
    ensures var x := Dedupe(items)[k];
      exists j :: 0 <= j < |items| && Prepare(items[j]).ok
        && x == Idea(Trim(items[j].keyword), Trim(items[j].query))
        && forall i :: 0 <= i < j ==> !(Prepare(items[i]).ok && Lower(Trim(items[i].keyword)) == Lower(x.keyword))
  {
    var cs := Prepared(items);
    var x := Dedupe(items)[k];
    SelectFirstSpelling(cs, {}, MaxIdeas, k);
    var j :| 0 <= j < |cs| && cs[j].ok && x == Idea(cs[j].keyword, cs[j].query)
      && forall i :: 0 <= i < j ==> !(cs[i].ok && Lower(cs[i].keyword) == Lower(x.keyword));
    PreparedAt(items, j);
    forall i | 0 <= i < j ensures !(Prepare(items[i]).ok && Lower(Trim(items[i].keyword)) == Lower(x.keyword)) {
      PreparedAt(items, i);
    }
  }

  /** The run of `Select` one candidate at a time: with one more candidate
      at the end, the ideas kept are the ideas kept before, followed by the
      new one exactly when there is still room, it qualifies and its
      lower-cased keyword is neither seen nor kept. So the first ideas of the
      input that qualify are kept, in input order. */
  lemma {:induction false} SelectSnoc(cs: seq<Candidate>, c: Candidate, seen: set<string>, room: nat)
    ensures var r := Select(cs, seen, room);
      Select(cs + [c], seen, room) ==
        r + (if |r| < room && c.ok && Lower(c.keyword) !in seen + Keys(r) then [Idea(c.keyword, c.query)] else [])
    decreases |cs|
  {
    var r := Select(cs, seen, room);
    if cs == [] {
      assert cs + [c] == [c];
      assert [c][1..] == [];
    } else if room > 0 {
      var x := cs[0];
      assert (cs + [c])[0] == x && (cs + [c])[1..] == cs[1..] + [c];
      if x.ok && Lower(x.keyword) !in seen {
        var seen' := seen + {Lower(x.keyword)};
        SelectSnoc(cs[1..], c, seen', room - 1);
        var rest := Select(cs[1..], seen', room - 1);
        assert r == [Idea(x.keyword, x.query)] + rest;
        KeysCons(Idea(x.keyword, x.query), rest);
        assert seen + Keys(r) == seen' + Keys(rest);
      } else {
        SelectSnoc(cs[1..], c, seen, room);
      }
    }
  }

  /** The keys of an idea in front of others. */
  lemma KeysCons(x: Idea, rest: seq<Idea>)
    ensures Keys([x] + rest) == {Lower(x.keyword)} + Keys(rest)
  {
    var r := [x] + rest;
    forall w | w in Keys(r) ensures w in {Lower(x.keyword)} + Keys(rest) {
      var y :| y in r && Lower(y.keyword) == w;
      if y != x { assert y in rest; }
    }
    forall w | w in Keys(rest) ensures w in Keys(r) {
      var y :| y in rest && Lower(y.keyword) == w;
      assert y in r;
    }
    assert x in r;
  }

  /** `Prepared` extends item by item. */
  lemma {:induction false} PreparedSnoc(items: seq<RawIdea>, it: RawIdea)
    ensures Prepared(items + [it]) == Prepared(items) + [Prepare(it)]
  {
    if items == [] {
      assert items + [it] == [it];
      assert [it][1..] == [];
    } else {
      assert (items + [it])[0] == items[0] && (items + [it])[1..] == items[1..] + [it];
      PreparedSnoc(items[1..], it);
    }
  }

  /** One more item at the end of the generated list: it is kept, trimmed,
      exactly when fewer than five ideas are kept, it is usable and its
      lower-cased keyword is new; otherwise the ideas stay as they were. */
  lemma DedupeSnoc(items: seq<RawIdea>, it: RawIdea)
    ensures var r := Dedupe(items); var c := Prepare(it);
      Dedupe(items + [it]) ==
        r + (if |r| < MaxIdeas && c.ok && Lower(c.keyword) !in Keys(r) then [Idea(c.keyword, c.query)] else [])
  {
    PreparedSnoc(items, it);
    SelectSnoc(Prepared(items), Prepare(it), {}, MaxIdeas);
    assert {} + Keys(Dedupe(items)) == Keys(Dedupe(items));
  }

  /** Every kept idea comes from an item with both fields present: its
      fields are that item's fields trimmed, and they are non-empty. */
  lemma DedupeFromItems(items: seq<RawIdea>, k: nat)
    requires k < |Dedupe(items)|
    ensures var x := Dedupe(items)[k];
      && x.keyword != [] && x.query != []
      && exists j :: 0 <= j < |items| && items[j].keyword != [] && items[j].query != []
           && x == Idea(Trim(items[j].keyword), Trim(items[j].query))
  {
    var cs := Prepared(items);
    SelectFrom(cs, {}, MaxIdeas, k);
    var j :| 0 <= j < |cs| && cs[j].ok && Dedupe(items)[k] == Idea(cs[j].keyword, cs[j].query);
    PreparedAt(items, j);
  }

  /** At most five ideas, with keywords distinct once lower-cased. */
  lemma DedupeDistinct(items: seq<RawIdea>)
    ensures |Dedupe(items)| <= 5 && DistinctKeys(Dedupe(items))
  {
    SelectDistinct(Prepared(items), {}, MaxIdeas);
  }

  /** The loop over `obj.keywords`: at most five ideas, case-insensitively
      distinct keywords, first spelling kept. */
  method DedupeKeywords(items: seq<RawIdea>) returns (keywords: seq<Idea>)
    ensures keywords == Dedupe(items)
  {
    var seen: set<string> := {};
    keywords := [];
    var i := 0;
    while i < |items|
      invariant Deduping(items, keywords, seen, i)
      decreases |items| - i
    {
      var item := items[i];
      if item.keyword != [] && item.query != [] {
        var keyword := Trim(item.keyword);
        var query := Trim(item.query);
        if keyword != [] && query != [] && Lower(keyword) !in seen {
          DedupeTake(items, keywords, seen, i);
          seen := seen + {Lower(keyword)};
          keywords := keywords + [Idea(keyword, query)];
          if |keywords| >= MaxIdeas {
            return;
          }
          i := i + 1;
          continue;
        }
      }
      DedupeSkip(items, keywords, seen, i);
      i := i + 1;
    }
    DedupeDone(items, keywords, seen);
  }

  /** After item `i`: the ideas kept so far, followed by what `Select` keeps
      from the rest with the keywords seen and the room left, are the ideas
      kept from the whole list. */
  ghost predicate Deduping(items: seq<RawIdea>, keywords: seq<Idea>, seen: set<string>, i: nat) {
    && i <= |items| && |keywords| < MaxIdeas
    && keywords + Select(Prepared(items)[i..], seen, MaxIdeas - |keywords|) == Dedupe(items)
  }

  /** An item that does not qualify, or whose keyword was seen, is passed
      over. */
  lemma DedupeSkip(items: seq<RawIdea>, keywords: seq<Idea>, seen: set<string>, i: nat)
    requires i < |items| && Deduping(items, keywords, seen, i)
    requires var c := Prepare(items[i]); !(c.ok && Lower(c.keyword) !in seen)
    ensures Deduping(items, keywords, seen, i + 1)
  {
    var cs := Prepared(items);
    PreparedAt(items, i);
    SelectStep(cs, i, seen, MaxIdeas - |keywords|);
  }

  /** A qualifying item with a new keyword is kept; with the fifth idea the
      loop is done. */
  lemma DedupeTake(items: seq<RawIdea>, keywords: seq<Idea>, seen: set<string>, i: nat)
    requires i < |items| && Deduping(items, keywords, seen, i)
    requires var c := Prepare(items[i]); c.ok && Lower(c.keyword) !in seen
    ensures var c := Prepare(items[i]);
      var kept := keywords + [Idea(c.keyword, c.query)];
      && (|kept| >= MaxIdeas ==> kept == Dedupe(items))
      && (|kept| < MaxIdeas ==> Deduping(items, kept, seen + {Lower(c.keyword)}, i + 1))
  {
    var cs := Prepared(items);
    PreparedAt(items, i);
    TakeStep(cs, keywords, seen, i, Dedupe(items));
  }

  /** Taking candidate `i` moves it from what `Select` keeps of the rest to
      the ideas kept so far. */
  lemma TakeStep(cs: seq<Candidate>, keywords: seq<Idea>, seen: set<string>, i: nat, want: seq<Idea>)
    requires i < |cs| && cs[i].ok && Lower(cs[i].keyword) !in seen && |keywords| < MaxIdeas
    requires keywords + Select(cs[i..], seen, MaxIdeas - |keywords|) == want
    ensures var kept := keywords + [Idea(cs[i].keyword, cs[i].query)];
      kept + Select(cs[i + 1..], seen + {Lower(cs[i].keyword)}, MaxIdeas - |kept|) == want
  {
    var x := Idea(cs[i].keyword, cs[i].query);
    SelectStep(cs, i, seen, MaxIdeas - |keywords|);
    var rest := Select(cs[i + 1..], seen + {Lower(cs[i].keyword)}, MaxIdeas - |keywords| - 1);
    assert keywords + ([x] + rest) == (keywords + [x]) + rest;
  }

  /** Once every item is seen, the ideas kept are all there are. */
  lemma DedupeDone(items: seq<RawIdea>, keywords: seq<Idea>, seen: set<string>)
    requires Deduping(items, keywords, seen, |items|)
    ensures keywords == Dedupe(items)
  {
    assert Prepared(items)[|items|..] == [];
  }

  /** The ideas as items of a new list. */
  function AsRaw(ideas: seq<Idea>): (r: seq<RawIdea>)
    ensures |r| == |ideas|
    ensures forall k :: 0 <= k < |ideas| ==> r[k] == RawIdea(ideas[k].keyword, ideas[k].query)
  {
    seq(|ideas|, k requires 0 <= k < |ideas| => RawIdea(ideas[k].keyword, ideas[k].query))
  }

  /** A clean idea, fed back in, is a qualifying candidate with the same
      fields. */
  lemma PrepareClean(x: Idea)
    requires x.keyword != [] && x.query != []
    requires Trim(x.keyword) == x.keyword && Trim(x.query) == x.query
    ensures Prepare(RawIdea(x.keyword, x.query)) == Candidate(true, x.keyword, x.query)
  {
  }

  /** Candidates that all qualify, with new and distinct lower-cased
      keywords, are all kept as they are. */
  lemma {:induction false} SelectKeepsClean(cs: seq<Candidate>, seen: set<string>, room: nat)
    requires |cs| <= room
    requires forall k :: 0 <= k < |cs| ==> cs[k].ok && Lower(cs[k].keyword) !in seen
    requires forall a, b :: 0 <= a < b < |cs| ==> Lower(cs[a].keyword) != Lower(cs[b].keyword)
    ensures Select(cs, seen, room) == seq(|cs|, k requires 0 <= k < |cs| => Idea(cs[k].keyword, cs[k].query))
    decreases |cs|
  {
    if cs != [] {
      var c := cs[0];
      SelectKeepsClean(cs[1..], seen + {Lower(c.keyword)}, room - 1);
    }
  }

  /** A kept idea has trimmed, non-empty fields. */
  lemma KeptIsClean(items: seq<RawIdea>, k: nat)
    requires k < |Dedupe(items)|
    ensures var x := Dedupe(items)[k];
      x.keyword != [] && x.query != [] && Trim(x.keyword) == x.keyword && Trim(x.query) == x.query
  {
    DedupeFromItems(items, k);
    var j :| 0 <= j < |items| && Dedupe(items)[k] == Idea(Trim(items[j].keyword), Trim(items[j].query));
    TrimIdempotent(items[j].keyword);
    TrimIdempotent(items[j].query);
  }

  /** De-duplicating the kept ideas again changes nothing. */
  lemma DedupeIdempotent(items: seq<RawIdea>)
    ensures Dedupe(AsRaw(Dedupe(items))) == Dedupe(items)
  {
    var r := Dedupe(items);
    var cs := Prepared(AsRaw(r));
    forall k | 0 <= k < |r| ensures cs[k] == Candidate(true, r[k].keyword, r[k].query) {
      KeptIsClean(items, k);
      PrepareClean(r[k]);
      PreparedAt(AsRaw(r), k);
    }
    DedupeDistinct(items);
    SelectKeepsClean(cs, {}, MaxIdeas);
    assert Select(cs, {}, MaxIdeas) == r;
  }
}
