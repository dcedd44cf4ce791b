/**
 Sequence filtering as JavaScript's `Array.prototype.filter` and MongoDB's
 `find` with an equality filter perform it: keep the elements that satisfy a
 predicate, in their original order.
 */
module Seqs {

  /** `idx` lists, in strictly increasing order, the positions in `b` at which
      the elements of `a` are found. */
  ghost predicate EmbedsBy<T>(a: seq<T>, b: seq<T>, idx: seq<nat>)
  {
    && |idx| == |a|
    && (forall k :: 0 <= k < |idx| ==> idx[k] < |b| && a[k] == b[idx[k]])
    && (forall k, l :: 0 <= k < l < |idx| ==> idx[k] < idx[l])
  }

  /** `a` is obtained from `b` by deleting elements, relative order kept. */
  ghost predicate IsSubsequence<T>(a: seq<T>, b: seq<T>)
  {
    exists idx: seq<nat> :: EmbedsBy(a, b, idx)
  }

  /** `Array.prototype.filter`: the elements of `s` satisfying `p`, in
      order. */
  function Filter<T>(p: T -> bool, s: seq<T>): (r: seq<T>)
    ensures |r| <= |s|
  {
    if s == [] then []
    else
      var rest := Filter(p, s[1..]);
      if p(s[0]) then [s[0]] + rest else rest
  }

  /** Every survivor of the filter is an element of `s` satisfying `p`, and
      every such element survives. */
  lemma {:induction false} FilterMembers<T>(p: T -> bool, s: seq<T>)
    ensures forall x :: x in Filter(p, s) ==> x in s && p(x)
    ensures forall x :: x in s && p(x) ==> x in Filter(p, s)
  {
    if s != [] {
      FilterMembers(p, s[1..]);
      assert forall x :: x in s ==> x == s[0] || x in s[1..];
    }
  }

  /** Each value occurs in the filtered sequence exactly as often as in `s`
      when it satisfies `p`, and not at all otherwise. */
  lemma {:induction false} FilterMultiplicity<T>(p: T -> bool, s: seq<T>, x: T)
    ensures multiset(Filter(p, s))[x] == if p(x) then multiset(s)[x] else 0
  {
    if s != [] {
      FilterMultiplicity(p, s[1..], x);
      assert s == [s[0]] + s[1..];
    }
  }

  /** Every position in `idx` moved one to the right. */
  function Shift(idx: seq<nat>): (r: seq<nat>)
    ensures |r| == |idx|
    ensures forall k :: 0 <= k < |idx| ==> r[k] == idx[k] + 1
  {
    seq(|idx|, k requires 0 <= k < |idx| => idx[k] + 1)
  }

  /** An embedding into the tail of `b` is an embedding into `b` once shifted,
      and it extends to one of `[b[0]] + a` by prepending position 0. */
  lemma EmbedsIntoCons<T>(a: seq<T>, b: seq<T>, idx: seq<nat>)
    requires b != [] && EmbedsBy(a, b[1..], idx)
    ensures EmbedsBy(a, b, Shift(idx))
    ensures EmbedsBy([b[0]] + a, b, [0] + Shift(idx))
  {
    var sh := Shift(idx);
    forall k | 0 <= k < |sh|
      ensures sh[k] < |b| && a[k] == b[sh[k]]
    {
      assert a[k] == b[1..][idx[k]];
    }
    var a', sh' := [b[0]] + a, [0] + sh;
    forall k | 0 <= k < |sh'|
      ensures sh'[k] < |b| && a'[k] == b[sh'[k]]
    {
      if k > 0 {
        assert sh'[k] == sh[k - 1] && a'[k] == a[k - 1];
      }
    }
  }

  /** The filter deletes elements without reordering the survivors. */
  lemma {:induction false} FilterIsSubsequence<T>(p: T -> bool, s: seq<T>)
    ensures IsSubsequence(Filter(p, s), s)
  {
    if s == [] {
      assert EmbedsBy<T>([], [], []);
    } else {
      FilterIsSubsequence(p, s[1..]);
      var rest := Filter(p, s[1..]);
      var idx: seq<nat> :| EmbedsBy(rest, s[1..], idx);
      EmbedsIntoCons(rest, s, idx);
      if p(s[0]) {
        assert EmbedsBy(Filter(p, s), s, [0] + Shift(idx));
      } else {
        assert EmbedsBy(Filter(p, s), s, Shift(idx));
      }
    }
  }

  /** Filtering with a predicate that holds everywhere changes nothing. */
  lemma {:induction false} FilterAll<T>(p: T -> bool, s: seq<T>)
    requires forall x :: x in s ==> p(x)
    ensures Filter(p, s) == s
  {
    if s != [] {
      FilterAll(p, s[1..]);
    }
  }

  /** Filtering with a predicate that holds nowhere leaves nothing. */
  lemma {:induction false} FilterNone<T>(p: T -> bool, s: seq<T>)
    requires forall x :: x in s ==> !p(x)
    ensures Filter(p, s) == []
  {
    if s != [] {
      FilterNone(p, s[1..]);
    }
  }

  /** Two predicates that agree on `s` filter `s` identically. */
  lemma {:induction false} FilterCongruent<T>(p: T -> bool, q: T -> bool, s: seq<T>)
    requires forall x :: x in s ==> p(x) == q(x)
    ensures Filter(p, s) == Filter(q, s)
  {
    if s != [] {
      FilterCongruent(p, q, s[1..]);
    }
  }

  /** One step of the filter: the head, when kept, followed by the filtered
      tail. */
  lemma FilterStep<T>(p: T -> bool, s: seq<T>)
    requires s != []
    ensures Filter(p, s) == (if p(s[0]) then [s[0]] else []) + Filter(p, s[1..])
  {
  }

  /** Filtering distributes over concatenation. */
  lemma {:induction false} FilterConcat<T>(p: T -> bool, a: seq<T>, b: seq<T>)
    ensures Filter(p, a + b) == Filter(p, a) + Filter(p, b)
  {
    if a == [] {
      assert a + b == b;
    } else {
      assert (a + b)[0] == a[0] && (a + b)[1..] == a[1..] + b;
      FilterConcat(p, a[1..], b);
    }
  }

  /** A sequence is what comes before position `i`, the element there, and
      what comes after. */
  lemma SplitAt<T>(s: seq<T>, i: nat)
    requires i < |s|
    ensures s == (s[..i] + [s[i]]) + s[i + 1..]
  {
    var t := (s[..i] + [s[i]]) + s[i + 1..];
    assert |t| == |s|;
    forall k | 0 <= k < |s| ensures t[k] == s[k] {
      if k < i {
        assert t[k] == s[..i][k];
      } else if k > i {
        assert t[k] == s[i + 1..][k - i - 1];
      }
    }
  }

  /** The filter of a single element. */
  lemma FilterSingleton<T>(p: T -> bool, x: T)
    ensures Filter(p, [x]) == if p(x) then [x] else []
  {
    FilterStep(p, [x]);
    assert [x][1..] == [];
  }

  /** The filter of `s` around position `i`: what comes before, the element
      at `i` when it is kept, and what comes after. */
  lemma FilterAround<T>(p: T -> bool, s: seq<T>, i: nat)
    requires i < |s|
    ensures Filter(p, s) == Filter(p, s[..i]) + Filter(p, [s[i]]) + Filter(p, s[i + 1..])
    ensures Filter(p, [s[i]]) == if p(s[i]) then [s[i]] else []
  {
    var a, h, b := s[..i], [s[i]], s[i + 1..];
    assert Filter(p, s) == Filter(p, a + h) + Filter(p, b) by {
      SplitAt(s, i);
      FilterConcat(p, a + h, b);
    }
    assert Filter(p, a + h) == Filter(p, a) + Filter(p, h) by {
      FilterConcat(p, a, h);
    }
    FilterSingleton(p, s[i]);
  }

  /** Removing position `i` removes the element there from the filter's
      result when it is kept, and changes nothing otherwise. */
  lemma FilterRemove<T>(p: T -> bool, s: seq<T>, i: nat)
    requires i < |s|
    ensures Filter(p, s) == Filter(p, s[..i]) + Filter(p, [s[i]]) + Filter(p, s[i + 1..])
    ensures Filter(p, s[..i] + s[i + 1..]) == Filter(p, s[..i]) + Filter(p, s[i + 1..])
    ensures Filter(p, [s[i]]) == if p(s[i]) then [s[i]] else []
  {
    FilterAround(p, s, i);
    FilterConcat(p, s[..i], s[i + 1..]);
  }

  /** Replacing an element the filter drops by another it drops leaves the
      filtered sequence unchanged. */
  lemma FilterReplaceHidden<T>(p: T -> bool, s: seq<T>, i: nat, x: T)
    requires i < |s| && !p(s[i]) && !p(x)
    ensures Filter(p, s[i := x]) == Filter(p, s)
  {
    var t := s[i := x];
    assert t[..i] == s[..i] && t[i + 1..] == s[i + 1..];
    FilterAround(p, s, i);
    FilterAround(p, t, i);
  }

  /** Removing an element the filter drops leaves the filtered sequence
      unchanged. */
  lemma FilterRemoveHidden<T>(p: T -> bool, s: seq<T>, i: nat)
    requires i < |s| && !p(s[i])
    ensures Filter(p, s[..i] + s[i + 1..]) == Filter(p, s)
  {
    FilterRemove(p, s, i);
  }
}
