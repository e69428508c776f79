/** The frequency mapping of `WordCounter`: a map from word to count, read
    with a default of 0 as `dict.get(word, 0)` reads it, and bumped once per
    token. */
module Frequency {

  /** `counts.get(w, 0)`. */
  function Get(counts: map<string, nat>, w: string): nat {
    if w in counts then counts[w] else 0
  }

  /** The mapping after the loop `for word in words: counts[word] =
      counts.get(word, 0) + 1` has run over `ws`, starting from `counts`:
      one increment per word, in order. */
  function Tally(counts: map<string, nat>, ws: seq<string>): map<string, nat>
    decreases |ws|
  {
    if ws == [] then counts
    else
      var before := Tally(counts, ws[..|ws| - 1]);
      before[ws[|ws| - 1] := Get(before, ws[|ws| - 1]) + 1]
  }

  /** Each word's count grows by the number of times it occurs in `ws`; a
      word that was absent counts as 0 before. */
  lemma {:induction false} TallyCounts(counts: map<string, nat>, ws: seq<string>, w: string)
    ensures Get(Tally(counts, ws), w) == Get(counts, w) + multiset(ws)[w]
    decreases |ws|
  {
    if ws != [] {
      var init, last := ws[..|ws| - 1], ws[|ws| - 1];
      assert ws == init + [last];
      TallyCounts(counts, init, w);
    }
  }

  /** Counting adds the counted words as keys and removes no key. */
  lemma {:induction false} TallyKeys(counts: map<string, nat>, ws: seq<string>)
    ensures Tally(counts, ws).Keys == counts.Keys + (set w | w in ws)
    decreases |ws|
  {
    if ws != [] {
      var init, last := ws[..|ws| - 1], ws[|ws| - 1];
      assert ws == init + [last];
      TallyKeys(counts, init);
    }
  }

  /** Counting one more word is one more increment. */
  lemma TallySnoc(counts: map<string, nat>, ws: seq<string>, w: string)
    ensures Tally(counts, ws + [w]) == Tally(counts, ws)[w := Get(Tally(counts, ws), w) + 1]
  {
    assert (ws + [w])[..|ws|] == ws;
  }

  /** The sum of all counts in the mapping. */
  ghost function Total(counts: map<string, nat>): nat
    decreases |counts|
  {
    if counts == map[] then 0
    else
      var w :| w in counts;
      assert |counts - {w}| < |counts| by {
        assert (counts - {w}).Keys == counts.Keys - {w};
      }
      counts[w] + Total(counts - {w})
  }

  /** `Total` may take the keys in any order: any key can be the first. */
  lemma {:induction false} TotalRemove(counts: map<string, nat>, w: string)
    requires w in counts
    ensures Total(counts) == counts[w] + Total(counts - {w})
    decreases |counts|
  {
    var v :| v in counts && Total(counts) == counts[v] + Total(counts - {v});
    if v != w {
      var both := counts - {v} - {w};
      assert |counts - {v}| < |counts| by {
        assert (counts - {v}).Keys == counts.Keys - {v};
      }
      assert |counts - {w}| < |counts| by {
        assert (counts - {w}).Keys == counts.Keys - {w};
      }
      TotalRemove(counts - {v}, w);
      TotalRemove(counts - {w}, v);
      assert counts - {v} - {w} == counts - {w} - {v};
    }
  }

  /** One increment adds exactly one to the total. */
  lemma TotalBump(counts: map<string, nat>, w: string)
    ensures Total(counts[w := Get(counts, w) + 1]) == Total(counts) + 1
  {
    var bumped := counts[w := Get(counts, w) + 1];
    TotalRemove(bumped, w);
    assert bumped - {w} == counts - {w};
    if w in counts {
      TotalRemove(counts, w);
    } else {
      assert counts - {w} == counts;
    }
  }

  /** The sum invariant: counting `ws` adds exactly `|ws|` to the total. */
  lemma {:induction false} TallyTotal(counts: map<string, nat>, ws: seq<string>)
    ensures Total(Tally(counts, ws)) == Total(counts) + |ws|
    decreases |ws|
  {
    if ws != [] {
      var init, last := ws[..|ws| - 1], ws[|ws| - 1];
      var before := Tally(counts, init);
      assert Tally(counts, ws) == before[last := Get(before, last) + 1];
      TallyTotal(counts, init);
      TotalBump(before, last);
    }
  }
}
