/**
 Grouped counting: the `$group` stage of a MongoDB aggregation that counts
 documents per key (`count: { $sum: 1 }`). The result is a map from key to a
 positive count; a key with no documents has no entry.
 */
module Tally {

  /** The sum of the values of `m` over the keys in `keys`. */
  ghost function SumOver(m: map<string, nat>, keys: set<string>): nat
    requires keys <= m.Keys
    decreases keys
  {
    if keys == {} then 0
    else
      var k :| k in keys;
      m[k] + SumOver(m, keys - {k})
  }

  /** The sum of all values of `m`. */
  ghost function MapSum(m: map<string, nat>): nat
  {
    SumOver(m, m.Keys)
  }

  /** Any key may be taken out of the sum first, whichever one `SumOver`
      happens to pick. */
  lemma {:induction false} SumOverRemove(m: map<string, nat>, keys: set<string>, k: string)
    requires keys <= m.Keys && k in keys
    ensures SumOver(m, keys) == m[k] + SumOver(m, keys - {k})
    decreases keys
  {
    var j :| j in keys && SumOver(m, keys) == m[j] + SumOver(m, keys - {j});
    if j != k {
      SumOverRemove(m, keys - {j}, k);
      SumOverRemove(m, keys - {k}, j);
      assert keys - {j} - {k} == keys - {k} - {j};
    }
  }

  /** Two maps agreeing on `keys` have the same sum over `keys`. */
  lemma {:induction false} SumOverAgree(m1: map<string, nat>, m2: map<string, nat>, keys: set<string>)
    requires keys <= m1.Keys && keys <= m2.Keys
    requires forall k :: k in keys ==> m1[k] == m2[k]
    ensures SumOver(m1, keys) == SumOver(m2, keys)
    decreases keys
  {
    if keys != {} {
      var k :| k in keys && SumOver(m1, keys) == m1[k] + SumOver(m1, keys - {k});
      SumOverRemove(m2, keys, k);
      SumOverAgree(m1, m2, keys - {k});
    }
  }

  /** Dropping a key takes its value out of the total. */
  lemma MapSumWithout(m: map<string, nat>, k: string)
    ensures MapSum(m - {k}) + (if k in m then m[k] else 0) == MapSum(m)
  {
    var r := m - {k};
    assert r.Keys == m.Keys - {k};
    if k in m {
      SumOverRemove(m, m.Keys, k);
      SumOverAgree(r, m, m.Keys - {k});
    } else {
      assert r == m;
    }
  }

  /** The count of `k` raised by one; a missing key starts at zero. */
  function Bump(m: map<string, nat>, k: string): (r: map<string, nat>)
    ensures r.Keys == m.Keys + {k}
    ensures r[k] == (if k in m then m[k] else 0) + 1
    ensures forall j :: j in m && j != k ==> r[j] == m[j]
  {
    m[k := (if k in m then m[k] else 0) + 1]
  }

  /** Bumping one count raises the total by exactly one. */
  lemma MapSumBump(m: map<string, nat>, k: string)
    ensures MapSum(Bump(m, k)) == MapSum(m) + 1
  {
    var r := Bump(m, k);
    SumOverRemove(r, r.Keys, k);
    SumOverAgree(r, m, m.Keys - {k});
    if k in m {
      SumOverRemove(m, m.Keys, k);
      assert r.Keys - {k} == m.Keys - {k};
    } else {
      assert r.Keys - {k} == m.Keys;
      assert m.Keys - {k} == m.Keys;
      assert SumOver(r, m.Keys) == SumOver(m, m.Keys);
    }
  }

  /** Counts the occurrences of every key in `s`: a key is present exactly when
      it occurs in `s`, its value is its number of occurrences, and the values
      add up to the length of `s`. */
  function Count(s: seq<string>): (m: map<string, nat>)
    ensures forall k :: k in m <==> k in s
    ensures forall k :: k in m ==> m[k] == multiset(s)[k] && m[k] > 0
    ensures MapSum(m) == |s|
  {
    if s == [] then map[]
    else
      var init := s[..|s| - 1];
      var last := s[|s| - 1];
      assert s == init + [last];
      var m := Count(init);
      MapSumBump(m, last);
      Bump(m, last)
  }

  /** The sum over a set of keys splits into the value at one key (zero when it
      is not among `keys`) and the sum over the others. */
  lemma SumOverPeel(m: map<string, nat>, keys: set<string>, k: string)
    requires keys <= m.Keys
    ensures SumOver(m, keys) == (if k in keys then m[k] else 0) + SumOver(m, keys - {k})
  {
    if k in keys {
      SumOverRemove(m, keys, k);
    } else {
      assert keys - {k} == keys;
    }
  }
}
