/**
 * Literal, non-overlapping substring search shared by the library and document
 * search services: `indexOf` stepping past each match, and a quoted `Pattern`
 * with `matcher.find()`, both find the leftmost match, then resume at its end.
 */
module TextMatching {
  import opened Wrappers
  import opened JavaText

  /** The text compared: as given when case-sensitive, ASCII-lowercased otherwise. */
  function Fold(s: string, caseSensitive: bool): (r: string)
    ensures |r| == |s|
  {
    if caseSensitive then s else Lower(s)
  }

  /** Folding commutes with slicing, so a slice of the folded text is the folded slice. */
  lemma FoldSlice(s: string, caseSensitive: bool, i: nat, j: nat)
    requires i <= j <= |s|
    ensures Fold(s, caseSensitive)[i..j] == Fold(s[i..j], caseSensitive)
  {
  }

  /** `query == null || query.trim().isEmpty()` */
  predicate NoQuery(query: Option<string>) {
    query.None? || IsTrimEmpty(query.value)
  }

  /** A query that is not blank after trimming is not empty. */
  lemma QueryNonEmpty(query: Option<string>)
    requires !NoQuery(query)
    ensures |query.value| > 0
  {
  }

  /** The start of every match of `q` in `s` at or after `from`, leftmost first, each resuming after the last. */
  function Occurrences(s: string, q: string, from: nat): seq<nat>
    requires |q| > 0
    decreases |s| - from
  {
    var i := IndexOf(s, q, from);
    if i < 0 then [] else [i] + Occurrences(s, q, i + |q|)
  }

  /** Every start in `r` is a match of `q` in `s` at or after `from`. */
  predicate MatchesFrom(s: string, q: string, from: nat, r: seq<nat>) {
    forall k :: 0 <= k < |r| ==> from <= r[k] && MatchAt(s, q, r[k])
  }

  /** Matches of length `len` starting at `r` are disjoint and in increasing order. */
  predicate NonOverlapping(r: seq<nat>, len: nat) {
    forall k, l :: 0 <= k < l < |r| ==> r[k] + len <= r[l]
  }

  /** Every reported start is a match at or after `from`, and each match ends before the next begins. */
  lemma {:induction false} OccurrencesSound(s: string, q: string, from: nat)
    requires |q| > 0
    ensures MatchesFrom(s, q, from, Occurrences(s, q, from))
    ensures NonOverlapping(Occurrences(s, q, from), |q|)
    decreases |s| - from
  {
    var i := IndexOf(s, q, from);
    if i >= 0 {
      OccurrencesSound(s, q, i + |q|);
      ConsMatches(s, q, from, i, Occurrences(s, q, i + |q|));
    }
  }

  /** A match followed by matches that start after its end keeps both properties. */
  lemma ConsMatches(s: string, q: string, from: nat, i: nat, t: seq<nat>)
    requires from <= i && MatchAt(s, q, i)
    requires MatchesFrom(s, q, i + |q|, t) && NonOverlapping(t, |q|)
    ensures MatchesFrom(s, q, from, [i] + t) && NonOverlapping([i] + t, |q|)
  {
    var r := [i] + t;
    forall k, l | 0 <= k < l < |r| ensures r[k] + |q| <= r[l] {
      assert r[l] == t[l - 1];
      if k > 0 {
        assert r[k] == t[k - 1];
      }
    }
  }

  /** Position `m` lies inside one of the matches of length `len` starting at `starts`. */
  predicate Covered(starts: seq<nat>, len: nat, m: nat) {
    exists k :: 0 <= k < |starts| && starts[k] <= m < starts[k] + len
  }

  /** One step of the search: the next occurrence, then the search resumed after it. */
  lemma OccurrencesStep(s: string, q: string, from: nat)
    requires |q| > 0
    ensures IndexOf(s, q, from) == -1 ==> Occurrences(s, q, from) == []
    ensures IndexOf(s, q, from) >= 0 ==>
      Occurrences(s, q, from) == [IndexOf(s, q, from)] + Occurrences(s, q, IndexOf(s, q, from) + |q|)
  {
  }

  /**
   * No match is missed: every position where `q` occurs is either reported or lies
   * inside a reported match (where a non-overlapping search cannot report it).
   */
  lemma {:induction false} OccurrencesCover(s: string, q: string, from: nat, m: nat)
    requires |q| > 0 && from <= m && MatchAt(s, q, m)
    ensures Covered(Occurrences(s, q, from), |q|, m)
    decreases |s| - from
  {
    var i := IndexOf(s, q, from);
    var r := Occurrences(s, q, from);
    IndexOfFirst(s, q, from, m);
    if m >= i + |q| {
      OccurrencesCover(s, q, i + |q|, m);
      var t := Occurrences(s, q, i + |q|);
      assert r == [i] + t;
      var k :| 0 <= k < |t| && t[k] <= m < t[k] + |q|;
      assert r[k + 1] == t[k] && r[k + 1] <= m < r[k + 1] + |q|;
    } else {
      assert r[0] == i && r[0] <= m < r[0] + |q|;
    }
  }

  /** Text without a single position where `q` fits has no occurrence, in particular the empty text. */
  lemma NoRoomNoOccurrence(s: string, q: string, from: nat)
    requires |q| > 0 && from + |q| > |s|
    ensures Occurrences(s, q, from) == []
  {
  }

  /** Folded texts: a reported match is the query up to ASCII case. */
  lemma MatchedUpToCase(text: string, query: string, caseSensitive: bool, i: nat)
    requires |query| > 0
    requires MatchAt(Fold(text, caseSensitive), Fold(query, caseSensitive), i)
    ensures i + |query| <= |text|
    ensures Fold(text[i..i + |query|], caseSensitive) == Fold(query, caseSensitive)
  {
    FoldSlice(text, caseSensitive, i, i + |query|);
  }

  /**
   * What a search loop collects from `from` on: the value `at` builds for each
   * leftmost, non-overlapping match of `q` in `s`, in order.
   */
  function HitsOf<T>(s: string, q: string, at: nat --> T, from: nat): seq<T>
    requires |q| > 0
    requires forall i :: MatchAt(s, q, i) ==> at.requires(i)
    decreases |s| - from
  {
    var found := IndexOf(s, q, from);
    if found == -1 then [] else [at(found)] + HitsOf(s, q, at, found + |q|)
  }

  /** The values collected are those built at the occurrences, one for one and in order. */
  lemma {:induction false} HitsOfOccurrences<T>(s: string, q: string, at: nat --> T, from: nat)
    requires |q| > 0
    requires forall i :: MatchAt(s, q, i) ==> at.requires(i)
    ensures var r := HitsOf(s, q, at, from);
      var starts := Occurrences(s, q, from);
      |r| == |starts|
      && forall k :: 0 <= k < |r| ==> MatchAt(s, q, starts[k]) && r[k] == at(starts[k])
    decreases |s| - from
  {
    var found := IndexOf(s, q, from);
    if found != -1 {
      var next := found + |q|;
      HitsOfOccurrences(s, q, at, next);
      var r := HitsOf(s, q, at, from);
      var starts := Occurrences(s, q, from);
      var rest := HitsOf(s, q, at, next);
      var later := Occurrences(s, q, next);
      assert r == [at(found)] + rest;
      assert starts == [found] + later;
      forall k | 0 <= k < |r| ensures MatchAt(s, q, starts[k]) && r[k] == at(starts[k]) {
        if k > 0 {
          assert r[k] == rest[k - 1] && starts[k] == later[k - 1];
        }
      }
    }
  }

  /** One turn of a search loop: with nothing found the values collected are complete, else one more. */
  lemma HitsOfStep<T>(s: string, q: string, at: nat --> T, from: nat, done: seq<T>)
    requires |q| > 0
    requires forall i :: MatchAt(s, q, i) ==> at.requires(i)
    requires done + HitsOf(s, q, at, from) == HitsOf(s, q, at, 0)
    ensures IndexOf(s, q, from) == -1 ==> done == HitsOf(s, q, at, 0)
    ensures var found := IndexOf(s, q, from);
      found != -1 ==>
        (from < found + |q| <= |s|
         && (done + [at(found)]) + HitsOf(s, q, at, found + |q|) == HitsOf(s, q, at, 0))
  {
    var found := IndexOf(s, q, from);
    if found == -1 {
      assert done + [] == done;
    } else {
      assert done + ([at(found)] + HitsOf(s, q, at, found + |q|))
        == (done + [at(found)]) + HitsOf(s, q, at, found + |q|);
    }
  }

  /**
   * The search loop of both services: find the next match from `index`, build its
   * value, resume after the match, until there is none. When `throws` holds, building
   * a value throws, so the loop ends at the first match with nothing (`None`).
   */
  method CollectMatches<T>(s: string, q: string, at: nat --> T, throws: bool) returns (r: Option<seq<T>>)
    requires |q| > 0
    requires forall i :: MatchAt(s, q, i) ==> at.requires(i)
    ensures r.None? <==> throws && |HitsOf(s, q, at, 0)| > 0
    ensures r.Some? ==> r.value == HitsOf(s, q, at, 0)
  {
    var results := [];
    var index: nat := 0;
    assert [] + HitsOf(s, q, at, 0) == HitsOf(s, q, at, 0);
    while true
      invariant results + HitsOf(s, q, at, index) == HitsOf(s, q, at, 0)
      invariant throws ==> results == []
      decreases |s| - index
    {
      var found := IndexOf(s, q, index);
      HitsOfStep(s, q, at, index, results);
      if found == -1 {
        break;
      }
      if throws {
        return None;
      }
      results := results + [at(found)];
      index := found + |q|;
    }
    return Some(results);
  }
}
