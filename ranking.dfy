/**
 * Stable sorting and truncation, as `List.sort`, `Stream.sorted` and `Stream.limit`
 * perform them. An ordering is given by a key per element, compared lexicographically;
 * a stable sort is described by the permutation of positions it applies.
 */
module Ranking {
  import opened Wrappers

  /** A sort key: `major` first, then `minor`, then `least`. Descending orders negate. */
  datatype Key = Key(major: real, minor: real, least: real)

  predicate KeyLess(a: Key, b: Key) {
    a.major < b.major
    || (a.major == b.major && (a.minor < b.minor || (a.minor == b.minor && a.least < b.least)))
  }

  /** Position `a` comes before position `b` in a stable sort: smaller key, or same key and earlier. */
  predicate Precedes(keys: seq<Key>, a: nat, b: nat)
    requires a < |keys| && b < |keys|
  {
    KeyLess(keys[a], keys[b]) || (keys[a] == keys[b] && a < b)
  }

  function Range(n: nat): (r: seq<nat>)
    ensures |r| == n
    ensures forall i :: 0 <= i < n ==> r[i] == i
  {
    seq(n, i requires 0 <= i < n => i)
  }

  /**
   * `p` lists every position of `keys` once, and in the order a stable sort leaves
   * them: by key, and by original position among equal keys.
   */
  predicate StableOrder(keys: seq<Key>, p: seq<nat>) {
    (forall i :: 0 <= i < |p| ==> p[i] < |keys|)
    && multiset(p) == multiset(Range(|keys|))
    && (forall i, j :: 0 <= i < j < |p| ==> Precedes(keys, p[i], p[j]))
  }

  /** The elements of `s` in the order of positions `p`. */
  function Arrange<T>(s: seq<T>, p: seq<nat>): (r: seq<T>)
    requires forall i :: 0 <= i < |p| ==> p[i] < |s|
    ensures |r| == |p|
    ensures forall i :: 0 <= i < |p| ==> r[i] == s[p[i]]
  {
    seq(|p|, i requires 0 <= i < |p| => s[p[i]])
  }

  function KeysOf<T>(s: seq<T>, keyOf: T -> Key): (r: seq<Key>)
    ensures |r| == |s|
    ensures forall i :: 0 <= i < |s| ==> r[i] == keyOf(s[i])
  {
    seq(|s|, i requires 0 <= i < |s| => keyOf(s[i]))
  }

  /** Where a stable insertion puts position `n`: before the first strictly greater key. */
  function InsertionPoint(keys: seq<Key>, q: seq<nat>, n: nat, from: nat): (j: nat)
    requires n < |keys| && from <= |q|
    requires forall i :: 0 <= i < |q| ==> q[i] < |keys|
    ensures from <= j <= |q|
    ensures forall i :: from <= i < j ==> !KeyLess(keys[n], keys[q[i]])
    ensures j < |q| ==> KeyLess(keys[n], keys[q[j]])
    decreases |q| - from
  {
    if from == |q| || KeyLess(keys[n], keys[q[from]]) then from
    else InsertionPoint(keys, q, n, from + 1)
  }

  /** `q` with `n` inserted at position `j`. */
  function InsertAt(q: seq<nat>, j: nat, n: nat): (r: seq<nat>)
    requires j <= |q|
    ensures |r| == |q| + 1 && r[j] == n
    ensures forall i :: 0 <= i < j ==> r[i] == q[i]
    ensures forall i :: j < i < |r| ==> r[i] == q[i - 1]
    ensures multiset(r) == multiset(q) + multiset{n}
  {
    assert q == q[..j] + q[j..];
    q[..j] + [n] + q[j..]
  }

  /** The positions of `keys` in stable sorted order (insertion sort, last position inserted last). */
  function StableSort(keys: seq<Key>): (p: seq<nat>)
    ensures |p| == |keys|
    ensures StableOrder(keys, p)
    decreases |keys|
  {
    if |keys| == 0 then []
    else
      var n := |keys| - 1;
      var q := StableSort(keys[..n]);
      var j := InsertionPoint(keys, q, n, 0);
      InsertKeepsOrder(keys, q, j);
      InsertAt(q, j, n)
  }

  /** Every entry of a permutation of `0..n-1` is below `n`. */
  lemma InRange(n: nat, x: nat)
    requires x in multiset(Range(n))
    ensures x < n
  {
    assert x in Range(n);
  }

  /** Inserting the last position at its insertion point extends a stable order by one. */
  lemma InsertKeepsOrder(keys: seq<Key>, q: seq<nat>, j: nat)
    requires |keys| > 0
    requires StableOrder(keys[..|keys| - 1], q)
    requires j <= |q|
    requires forall i :: 0 <= i < j ==> !KeyLess(keys[|keys| - 1], keys[q[i]])
    requires j < |q| ==> KeyLess(keys[|keys| - 1], keys[q[j]])
    ensures StableOrder(keys, InsertAt(q, j, |keys| - 1))
  {
    var n := |keys| - 1;
    var r := InsertAt(q, j, n);
    assert |keys[..n]| == n;
    BelowRange(q, n);
    assert forall i :: 0 <= i < |r| ==> r[i] < |keys| by {
      forall i | 0 <= i < |r| ensures r[i] < |keys| {
        if i < j {
          assert r[i] == q[i];
        } else if i > j {
          assert r[i] == q[i - 1];
        }
      }
    }
    assert multiset(r) == multiset(Range(|keys|)) by {
      RangeGrows(n);
    }
    assert forall a, b :: 0 <= a < b < |r| ==> Precedes(keys, r[a], r[b]) by {
      PrecedesInPrefix(keys, q);
      InsertedInOrder(keys, q, j);
    }
  }

  /** An order over all but the last key is the same order over all the keys. */
  lemma PrecedesInPrefix(keys: seq<Key>, q: seq<nat>)
    requires |keys| > 0
    requires forall i :: 0 <= i < |q| ==> q[i] < |keys| - 1
    requires forall a, b :: 0 <= a < b < |q| ==> Precedes(keys[..|keys| - 1], q[a], q[b])
    ensures forall a, b :: 0 <= a < b < |q| ==> Precedes(keys, q[a], q[b])
  {
    forall a, b | 0 <= a < b < |q|
      ensures Precedes(keys, q[a], q[b])
    {
      assert Precedes(keys[..|keys| - 1], q[a], q[b]);
    }
  }

  /** The ordering half of `InsertKeepsOrder`, with the shorter order restated over `keys`. */
  lemma InsertedInOrder(keys: seq<Key>, q: seq<nat>, j: nat)
    requires |keys| > 0 && j <= |q|
    requires forall i :: 0 <= i < |q| ==> q[i] < |keys| - 1
    requires forall a, b :: 0 <= a < b < |q| ==> Precedes(keys, q[a], q[b])
    requires forall i :: 0 <= i < j ==> !KeyLess(keys[|keys| - 1], keys[q[i]])
    requires j < |q| ==> KeyLess(keys[|keys| - 1], keys[q[j]])
    ensures var r := InsertAt(q, j, |keys| - 1);
      forall a, b :: 0 <= a < b < |r| ==> Precedes(keys, r[a], r[b])
  {
    var n := |keys| - 1;
    var r := InsertAt(q, j, n);
    forall a, b | 0 <= a < b < |r|
      ensures Precedes(keys, r[a], r[b])
    {
      if b < j {
        assert r[a] == q[a] && r[b] == q[b];
      } else if b == j {
        assert r[a] == q[a] && r[b] == n;
      } else if a < j {
        assert r[a] == q[a] && r[b] == q[b - 1];
      } else if a == j {
        assert r[a] == n && r[b] == q[b - 1];
        if b - 1 > j {
          assert Precedes(keys, q[j], q[b - 1]);
        }
      } else {
        assert r[a] == q[a - 1] && r[b] == q[b - 1];
      }
    }
  }

  /** The stable order of a key sequence is unique. */
  lemma StableOrderUnique(keys: seq<Key>, p: seq<nat>, q: seq<nat>)
    requires StableOrder(keys, p) && StableOrder(keys, q)
    ensures p == q
  {
    assert |p| == |multiset(Range(|keys|))| == |q|;
    PrefixAgree(keys, p, q, |p|);
    assert p == p[..|p|] && q == q[..|q|];
  }

  lemma {:induction false} PrefixAgree(keys: seq<Key>, p: seq<nat>, q: seq<nat>, i: nat)
    requires StableOrder(keys, p) && StableOrder(keys, q)
    requires |p| == |q| && i <= |p|
    ensures p[..i] == q[..i]
    decreases i
  {
    if i > 0 {
      PrefixAgree(keys, p, q, i - 1);
      NextAgrees(keys, p, q, i - 1);
      assert p[..i] == p[..i - 1] + [p[i - 1]];
      assert q[..i] == q[..i - 1] + [q[i - 1]];
    }
  }

  /** Two stable orders that agree before position `i` agree at `i`. */
  lemma NextAgrees(keys: seq<Key>, p: seq<nat>, q: seq<nat>, i: nat)
    requires StableOrder(keys, p) && StableOrder(keys, q)
    requires |p| == |q| && i < |p| && p[..i] == q[..i]
    ensures p[i] == q[i]
  {
    var x, y := p[i], q[i];
    FindAfter(keys, p, q, i);
    FindAfter(keys, q, p, i);
    var jx :| i <= jx < |q| && q[jx] == x;
    var jy :| i <= jy < |p| && p[jy] == y;
    if jx > i {
      assert Precedes(keys, y, x);
    }
    if jy > i {
      assert Precedes(keys, x, y);
    }
  }

  /** The element at `i` of one stable order sits at or after `i` in the other. */
  lemma FindAfter(keys: seq<Key>, p: seq<nat>, q: seq<nat>, i: nat)
    requires StableOrder(keys, p) && StableOrder(keys, q)
    requires |p| == |q| && i < |p| && p[..i] == q[..i]
    ensures exists k :: i <= k < |q| && q[k] == p[i]
  {
    var x := p[i];
    assert x in multiset(q) by { assert x in multiset(p); }
    assert x !in multiset(q[..i]) by {
      forall k | 0 <= k < i ensures q[k] != x {
        assert q[k] == p[k];
        assert Precedes(keys, p[k], p[i]);
      }
    }
    assert q == q[..i] + q[i..];
    assert x in multiset(q[i..]);
    var k :| 0 <= k < |q[i..]| && q[i..][k] == x;
    assert q[i + k] == x;
  }

  /** Rearranging by a permutation of the positions keeps the same elements. */
  lemma {:induction false} ArrangePermutes<T>(s: seq<T>, p: seq<nat>)
    requires forall i :: 0 <= i < |p| ==> p[i] < |s|
    requires multiset(p) == multiset(Range(|s|))
    ensures multiset(Arrange(s, p)) == multiset(s)
    decreases |s|
  {
    if |s| > 0 {
      var n := |s| - 1;
      var j, q := DropLast(p, n);
      ArrangePermutes(s[..n], q);
      ArrangeLast(s, p, j, q);
    }
  }

  /** The step of `ArrangePermutes`: the last element goes back in where `p` puts it. */
  lemma ArrangeLast<T>(s: seq<T>, p: seq<nat>, j: nat, q: seq<nat>)
    requires |s| > 0 && j < |p| && p[j] == |s| - 1 && q == p[..j] + p[j + 1..]
    requires forall i :: 0 <= i < |p| ==> p[i] < |s|
    requires forall i :: 0 <= i < |q| ==> q[i] < |s| - 1
    requires multiset(Arrange(s[..|s| - 1], q)) == multiset(s[..|s| - 1])
    ensures multiset(Arrange(s, p)) == multiset(s)
  {
    var n := |s| - 1;
    var b := Arrange(s[..n], q);
    ArrangeSplit(s, p, j, q);
    InsertedOnce(Arrange(s, p), b, s[n], j);
    InsertedOnce(s, s[..n], s[n], n);
  }

  /** A sequence with `x` inserted into `b` holds one more `x` than `b`. */
  lemma InsertedOnce<T>(a: seq<T>, b: seq<T>, x: T, j: nat)
    requires j <= |b| && a == b[..j] + [x] + b[j..]
    ensures multiset(a) == multiset(b) + multiset{x}
  {
    assert b == b[..j] + b[j..];
  }

  /** Taking the largest position out of a permutation of `0..n` leaves one of `0..n-1`. */
  lemma DropLast(p: seq<nat>, n: nat) returns (j: nat, q: seq<nat>)
    requires multiset(p) == multiset(Range(n + 1))
    ensures j < |p| && p[j] == n && q == p[..j] + p[j + 1..]
    ensures multiset(q) == multiset(Range(n))
    ensures forall i :: 0 <= i < |q| ==> q[i] < n
  {
    RangeGrows(n);
    assert n in multiset(p);
    j :| 0 <= j < |p| && p[j] == n;
    q := p[..j] + p[j + 1..];
    RemoveAt(p, j);
    BelowRange(q, n);
  }

  /** `0..n` is `0..n-1` and `n`. */
  lemma RangeGrows(n: nat)
    ensures multiset(Range(n + 1)) == multiset(Range(n)) + multiset{n}
  {
    assert Range(n + 1) == Range(n) + [n];
  }

  /** Removing the element at `j` removes one copy of it. */
  lemma RemoveAt(p: seq<nat>, j: nat)
    requires j < |p|
    ensures multiset(p[..j] + p[j + 1..]) == multiset(p) - multiset{p[j]}
  {
    assert p == p[..j] + [p[j]] + p[j + 1..];
  }

  /** The elements of a permutation of `0..n-1` lie below `n`. */
  lemma BelowRange(q: seq<nat>, n: nat)
    requires multiset(q) == multiset(Range(n))
    ensures forall i :: 0 <= i < |q| ==> q[i] < n
  {
    forall i | 0 <= i < |q| ensures q[i] < n {
      assert q[i] in multiset(q);
      InRange(n, q[i]);
    }
  }

  lemma ArrangeSplit<T>(s: seq<T>, p: seq<nat>, j: nat, q: seq<nat>)
    requires |s| > 0 && j < |p| && p[j] == |s| - 1 && q == p[..j] + p[j + 1..]
    requires forall i :: 0 <= i < |p| ==> p[i] < |s|
    requires forall i :: 0 <= i < |q| ==> q[i] < |s| - 1
    ensures Arrange(s, p)
      == Arrange(s[..|s| - 1], q)[..j] + [s[|s| - 1]] + Arrange(s[..|s| - 1], q)[j..]
  {
    var b := Arrange(s[..|s| - 1], q);
    var c := b[..j] + [s[|s| - 1]] + b[j..];
    forall i | 0 <= i < |p| ensures Arrange(s, p)[i] == c[i] {
      if i < j {
        assert q[i] == p[i];
      } else if i > j {
        assert q[i - 1] == p[i];
      }
    }
  }

  /** `list.sort(comparing(keyOf))`: a stable sort by key. */
  function SortBy<T>(s: seq<T>, keyOf: T -> Key): (r: seq<T>)
    ensures multiset(r) == multiset(s)
    ensures forall i, j :: 0 <= i < j < |r| ==> !KeyLess(keyOf(r[j]), keyOf(r[i]))
    ensures r == Arrange(s, StableSort(KeysOf(s, keyOf)))
  {
    var keys := KeysOf(s, keyOf);
    var p := StableSort(keys);
    ArrangePermutes(s, p);
    var r := Arrange(s, p);
    assert forall i, j :: 0 <= i < j < |r| ==> Precedes(keys, p[i], p[j]);
    r
  }

  /** Sorting a sequence whose keys are all equal leaves it as it is. */
  lemma EqualKeysKeepOrder<T>(s: seq<T>, keyOf: T -> Key)
    requires forall i, j :: 0 <= i < j < |s| ==> keyOf(s[i]) == keyOf(s[j])
    ensures SortBy(s, keyOf) == s
  {
    var keys := KeysOf(s, keyOf);
    var id := Range(|s|);
    assert StableOrder(keys, id);
    StableOrderUnique(keys, StableSort(keys), id);
    assert Arrange(s, id) == s;
  }

  /** The first `n` elements (all of them when there are fewer). */
  function Take<T>(s: seq<T>, n: nat): (r: seq<T>)
    ensures |r| == Min(n, |s|)
    ensures r == s[..|r|]
  {
    if n < |s| then s[..n] else s
  }

  /** `Stream.limit(n)`: a negative `n` is an IllegalArgumentException. */
  function Limit<T>(s: seq<T>, n: int): (r: Result<seq<T>>)
    ensures r.Err? <==> n < 0
    ensures r.Ok? ==> |r.value| == Min(n, |s|) && r.value == s[..|r.value|]
  {
    if n < 0 then Err(NegativeLimit) else Ok(Take(s, n))
  }
}
