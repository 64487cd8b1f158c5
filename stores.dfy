/**
 * What the reader's keyed stores share: enumerating the entries of a hash map.
 * `ConcurrentHashMap.values()` yields every entry once, in an order nobody may rely
 * on; the model picks that order freely and records it as the list of keys visited.
 */
module Stores {

  /** No element of `s` occurs twice. */
  predicate Distinct<T(==)>(s: seq<T>) {
    forall i, j :: 0 <= i < j < |s| ==> s[i] != s[j]
  }

  /** `keys` visits, once each, exactly the keys of `m` whose value `keep` accepts. */
  ghost predicate Visits<V>(m: map<string, V>, keep: V -> bool, keys: seq<string>) {
    Distinct(keys) && forall k :: k in keys <==> k in m && keep(m[k])
  }

  /** The values found under `keys`, in the order of `keys`. */
  function ValuesAt<V>(m: map<string, V>, keys: seq<string>): (r: seq<V>)
    requires forall i :: 0 <= i < |keys| ==> keys[i] in m
    ensures |r| == |keys|
    ensures forall i :: 0 <= i < |keys| ==> r[i] == m[keys[i]]
  {
    seq(|keys|, i requires 0 <= i < |keys| => m[keys[i]])
  }

  /** The keys of the entries of `m` that `keep` accepts. */
  function Matching<V>(m: map<string, V>, keep: V -> bool): set<string> {
    set k | k in m.Keys && keep(m[k])
  }

  /** How many entries of `m` `keep` accepts. */
  function CountWhere<V>(m: map<string, V>, keep: V -> bool): nat {
    |Matching(m, keep)|
  }

  /** Taking a part out of a set leaves the rest: the sizes add up. */
  lemma PartSize(all: set<string>, part: set<string>)
    requires part <= all
    ensures |all| == |part| + |all - part|
  {
    assert all == part + (all - part);
  }

  /**
   * `map.values().stream().filter(keep)`: the accepted values, one per key, in an
   * order chosen here (the hash map's own iteration order is not modelled).
   */
  method Select<V>(m: map<string, V>, keep: V -> bool) returns (ghost keys: seq<string>, r: seq<V>)
    ensures Visits(m, keep, keys)
    ensures forall i :: 0 <= i < |keys| ==> keys[i] in m
    ensures r == ValuesAt(m, keys)
    ensures |r| == CountWhere(m, keep)
  {
    var left := m.Keys;
    keys, r := [], [];
    while left != {}
      invariant left <= m.Keys
      invariant Distinct(keys)
      invariant forall k :: k in keys <==> k in m && k !in left && keep(m[k])
      invariant |r| == |keys| && forall i :: 0 <= i < |keys| ==> r[i] == m[keys[i]]
      decreases left
    {
      var k :| k in left;
      if keep(m[k]) {
        keys, r := keys + [k], r + [m[k]];
      }
      left := left - {k};
    }
    VisitCount(m, keep, keys);
  }

  /** The values found under a visiting list are exactly the accepted values of `m`. */
  lemma VisitedValues<V>(m: map<string, V>, keep: V -> bool, keys: seq<string>)
    requires Visits(m, keep, keys)
    requires forall i :: 0 <= i < |keys| ==> keys[i] in m
    ensures forall v :: v in ValuesAt(m, keys) <==> v in m.Values && keep(v)
  {
    var r := ValuesAt(m, keys);
    forall v ensures v in r <==> v in m.Values && keep(v) {
      if v in r {
        var i :| 0 <= i < |r| && r[i] == v;
        assert keys[i] in keys;
      }
      if v in m.Values && keep(v) {
        var k :| k in m && m[k] == v;
        var i :| 0 <= i < |keys| && keys[i] == k;
        assert r[i] == v;
      }
    }
  }

  /** A list visiting exactly the accepted keys, once each, is as long as their number. */
  lemma VisitCount<V>(m: map<string, V>, keep: V -> bool, keys: seq<string>)
    requires Visits(m, keep, keys)
    ensures |keys| == CountWhere(m, keep)
  {
    assert Matching(m, keep) == (set k | k in keys);
    DistinctSize(keys);
  }

  /** The set of a duplicate-free sequence has as many elements as the sequence. */
  lemma {:induction false} DistinctSize<T>(s: seq<T>)
    requires Distinct(s)
    ensures |set x | x in s| == |s|
  {
    if |s| > 0 {
      var init := s[..|s| - 1];
      assert Distinct(init);
      DistinctSize(init);
      assert (set x | x in s) == (set x | x in init) + {s[|s| - 1]};
      assert s[|s| - 1] !in init;
    }
  }
}
