/** Facts about Python lists seen as Dafny sequences: duplicates, the set of their
    elements, order-preserving filters and `list.remove`. */
module Seqs {

  /** No element occurs twice (the keys of a dict, the result of `list(set(...))`). */
  predicate Distinct<T(==)>(s: seq<T>) {
    s == [] || (s[0] !in s[1..] && Distinct(s[1..]))
  }

  /** A concatenation has no duplicates exactly when neither part has and they share nothing. */
  lemma {:induction false} DistinctAppend<T>(a: seq<T>, b: seq<T>)
    ensures Distinct(a + b) <==> Distinct(a) && Distinct(b) && Elems(a) !! Elems(b)
  {
    if a == [] {
      assert a + b == b;
    } else {
      assert (a + b)[0] == a[0] && (a + b)[1..] == a[1..] + b;
      assert Elems(a) == {a[0]} + Elems(a[1..]);
      assert a[0] in a[1..] + b <==> a[0] in a[1..] || a[0] in b;
      DistinctAppend(a[1..], b);
    }
  }

  /** Two positions of a list with no duplicates hold different elements. */
  lemma DistinctAt<T>(s: seq<T>, i: int, j: int)
    requires Distinct(s) && 0 <= i < j < |s|
    ensures s[i] != s[j]
  {
    assert s == s[..j] + s[j..];
    DistinctAppend(s[..j], s[j..]);
    assert s[i] in Elems(s[..j]) && s[j] in Elems(s[j..]);
  }

  /** Python's `set(s)`. */
  function Elems<T(==)>(s: seq<T>): set<T> {
    set x | x in s
  }

  /** A set never has more elements than the list it was built from. */
  lemma {:induction false} ElemsSize<T>(s: seq<T>)
    ensures |Elems(s)| <= |s|
  {
    if s != [] {
      ElemsSize(s[1..]);
      assert Elems(s) == Elems(s[1..]) + {s[0]};
    }
  }

  /** The elements of `s` that are in `p` (when `keep`) or not in `p` (otherwise), in the order of `s`. */
  function Filter<T(==)>(s: seq<T>, p: set<T>, keep: bool): (r: seq<T>)
    ensures |r| <= |s|
  {
    if s == [] then []
    else (if (s[0] in p) == keep then [s[0]] else []) + Filter(s[1..], p, keep)
  }

  /** The filter keeps exactly the elements of `s` in `p` (or exactly those outside `p`). */
  lemma {:induction false} FilterElems<T>(s: seq<T>, p: set<T>, keep: bool)
    ensures Elems(Filter(s, p, keep)) == if keep then Elems(s) * p else Elems(s) - p
  {
    if s != [] {
      FilterElems(s[1..], p, keep);
      assert Elems(s) == {s[0]} + Elems(s[1..]);
      var h := if (s[0] in p) == keep then [s[0]] else [];
      assert Elems(h + Filter(s[1..], p, keep)) == Elems(h) + Elems(Filter(s[1..], p, keep));
    }
  }

  /** Filtering a concatenation filters each part. */
  lemma {:induction false} FilterAppend<T>(a: seq<T>, b: seq<T>, p: set<T>, keep: bool)
    ensures Filter(a + b, p, keep) == Filter(a, p, keep) + Filter(b, p, keep)
  {
    if a == [] {
      assert a + b == b;
    } else {
      var h := if (a[0] in p) == keep then [a[0]] else [];
      assert a + b != [] && (a + b)[0] == a[0] && (a + b)[1..] == a[1..] + b;
      assert Filter(a + b, p, keep) == h + Filter(a[1..] + b, p, keep);
      assert Filter(a[1..] + b, p, keep) == Filter(a[1..], p, keep) + Filter(b, p, keep) by {
        FilterAppend(a[1..], b, p, keep);
      }
      AppendAssociative(h, Filter(a[1..], p, keep), Filter(b, p, keep));
    }
  }

  /** Only the members of `p` that occur in `s` matter to the filter. */
  lemma {:induction false} FilterRelevant<T>(s: seq<T>, p: set<T>, q: set<T>, keep: bool)
    requires forall x :: x in s ==> (x in p <==> x in q)
    ensures Filter(s, p, keep) == Filter(s, q, keep)
  {
    if s != [] {
      assert forall x :: x in s[1..] ==> x in s;
      FilterRelevant(s[1..], p, q, keep);
    }
  }

  /** Filtering out `a` and then `b` is filtering out both at once. */
  lemma {:induction false} FilterTwice<T>(s: seq<T>, a: set<T>, b: set<T>)
    ensures Filter(Filter(s, a, false), b, false) == Filter(s, a + b, false)
  {
    if s != [] {
      var h := if s[0] in a then [] else [s[0]];
      FilterAppend(h, Filter(s[1..], a, false), b, false);
      FilterTwice(s[1..], a, b);
    }
  }

  /** Keeping `b` after dropping a set `a` disjoint from it keeps exactly `b`. */
  lemma {:induction false} KeepAfterDrop<T>(s: seq<T>, a: set<T>, b: set<T>)
    requires a !! b
    ensures Filter(Filter(s, a, false), b, true) == Filter(s, b, true)
  {
    if s != [] {
      var h := if s[0] in a then [] else [s[0]];
      FilterAppend(h, Filter(s[1..], a, false), b, true);
      KeepAfterDrop(s[1..], a, b);
    }
  }

  /** A filtered list has no duplicates when the original has none. */
  lemma {:induction false} FilterDistinct<T>(s: seq<T>, p: set<T>, keep: bool)
    requires Distinct(s)
    ensures Distinct(Filter(s, p, keep))
  {
    if s != [] {
      FilterDistinct(s[1..], p, keep);
      var h := if (s[0] in p) == keep then [s[0]] else [];
      var t := Filter(s[1..], p, keep);
      assert s[0] !in Elems(t) by {
        FilterElems(s[1..], p, keep);
      }
      DistinctAppend(h, t);
    }
  }

  /** In a list with no duplicates, the element at `k` occurs neither before nor after `k`. */
  lemma DistinctSplitAt<T>(s: seq<T>, k: int)
    requires Distinct(s) && 0 <= k < |s|
    ensures s[k] !in Elems(s[..k]) && s[k] !in Elems(s[k + 1..])
  {
    var front := s[..k] + [s[k]];
    assert Distinct(front) && Elems(front) !! Elems(s[k + 1..]) by {
      assert s == front + s[k + 1..];
      DistinctAppend(front, s[k + 1..]);
    }
    assert s[k] in Elems(front);
    assert s[k] !in Elems(s[..k]) by {
      DistinctAppend(s[..k], [s[k]]);
      assert s[k] in Elems([s[k]]);
    }
  }

  /** Filtering a list with a set that holds all of its elements keeps every entry, in order: nothing changes. */
  lemma {:induction false} KeepAll<T>(s: seq<T>, p: set<T>)
    requires Elems(s) <= p
    ensures Filter(s, p, true) == s
  {
    if s != [] {
      KeepAll(s[1..], p);
    }
  }

  /** Dropping nothing keeps the whole list. */
  lemma {:induction false} DropNone<T>(s: seq<T>)
    ensures Filter(s, {}, false) == s
  {
    if s != [] {
      DropNone(s[1..]);
    }
  }

  /** Concatenation is associative. */
  lemma AppendAssociative<T>(a: seq<T>, b: seq<T>, c: seq<T>)
    ensures a + (b + c) == (a + b) + c
  {
  }

  /** The lists of `ss` one after the other (`[x for s in ss for x in s]`). */
  function Concat<T>(ss: seq<seq<T>>): seq<T> {
    if ss == [] then [] else ss[0] + Concat(ss[1..])
  }

  /** Splitting a list of lists splits its concatenation. */
  lemma {:induction false} ConcatAppend<T>(a: seq<seq<T>>, b: seq<seq<T>>)
    ensures Concat(a + b) == Concat(a) + Concat(b)
  {
    if a == [] {
      assert a + b == b;
    } else {
      assert (a + b)[1..] == a[1..] + b;
      ConcatAppend(a[1..], b);
    }
  }

  /** The first `i` lists of `[x] + ss`, concatenated, are `x` followed by the first `i - 1` of `ss`. */
  lemma ConcatConsPrefix<T>(x: seq<T>, ss: seq<seq<T>>, i: int)
    requires 1 <= i <= |ss| + 1
    ensures Concat(([x] + ss)[..i]) == x + Concat(ss[..i - 1])
  {
    var front := ([x] + ss)[..i];
    assert front == [x] + ss[..i - 1];
    assert front[1..] == ss[..i - 1];
  }

  /** The elements of a concatenation are those of either part. */
  lemma ElemsAppend<T>(a: seq<T>, b: seq<T>)
    ensures Elems(a + b) == Elems(a) + Elems(b)
  {
  }

  /** The concatenation of the first `n` lists is that of the first `n - 1` followed by list `n - 1`. */
  lemma ConcatSnoc<T>(ss: seq<seq<T>>, n: int)
    requires 0 < n <= |ss|
    ensures Concat(ss[..n]) == Concat(ss[..n - 1]) + ss[n - 1]
  {
    assert ss[..n] == ss[..n - 1] + [ss[n - 1]];
    ConcatAppend(ss[..n - 1], [ss[n - 1]]);
    assert Concat([ss[n - 1]]) == ss[n - 1] + Concat([ss[n - 1]][1..]);
    assert [ss[n - 1]][1..] == [];
  }

  /** Each list of `ss` is part of the concatenation. */
  lemma {:induction false} ConcatHas<T>(ss: seq<seq<T>>, i: int)
    requires 0 <= i < |ss|
    ensures Elems(ss[i]) <= Elems(Concat(ss))
  {
    if i > 0 {
      ConcatHas(ss[1..], i - 1);
    }
  }

  /** The first `m` entries of the suffix of `s` from `i` are the infix `s[i..i + m]`. */
  lemma InfixOfSuffix<T>(s: seq<T>, i: int, m: int)
    requires 0 <= i <= |s| && 0 <= m <= |s| - i
    ensures s[i..][..m] == s[i..i + m]
  {
  }

  /** Python's `s.remove(x)`: drop the first occurrence of `x` (a ValueError when there is none). */
  function RemoveFirst<T(==)>(s: seq<T>, x: T): (r: seq<T>)
    requires x in s
    ensures |r| == |s| - 1
  {
    assert s == [s[0]] + s[1..];
    if s[0] == x then s[1..] else [s[0]] + RemoveFirst(s[1..], x)
  }

  /** Removing an element that does not occur before its position `|a|` removes exactly that position. */
  lemma {:induction false} RemoveFirstAfter<T>(a: seq<T>, x: T, b: seq<T>)
    requires x !in a
    ensures RemoveFirst(a + [x] + b, x) == a + b
  {
    if a == [] {
      assert a + [x] + b == [x] + b;
    } else {
      assert (a + [x] + b)[1..] == a[1..] + [x] + b;
      RemoveFirstAfter(a[1..], x, b);
      assert a == [a[0]] + a[1..];
    }
  }
}
