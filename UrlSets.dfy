/** Ranked URL lists of search results, their truncation and their overlap. */
module UrlSets {
  import opened Wrappers
  import opened Seqs

  /** An entry of a ranked URL list: `Some(address)`, or `None` for a search result whose
      `url` is JSON null. Python keeps such a None like any other value, so it takes a place
      in the list and two lists that both hold it share it. */
  type Url = Option<string>

  /** Python's slice `s[:n]`: the first `n` entries, or all but the last `-n` when `n` is negative. */
  function Head<T>(s: seq<T>, n: int): (r: seq<T>)
    ensures r <= s
    ensures n >= 0 ==> |r| == if n < |s| then n else |s|
    ensures n < 0 ==> |r| == if |s| + n > 0 then |s| + n else 0
  {
    var k := if n >= 0 then n else |s| + n;
    if k <= 0 then [] else if k < |s| then s[..k] else s
  }

  /** How many distinct URLs of `urls` belong to `seen`: `len(seen.intersection(set(urls)))`,
      counted along `urls`, each URL of `seen` at its first occurrence. */
  function CountIn(seen: set<Url>, urls: seq<Url>): (n: nat)
    ensures n <= |urls|
  {
    if urls == [] then 0
    else if urls[0] in seen then 1 + CountIn(seen - {urls[0]}, urls[1..])
    else CountIn(seen, urls[1..])
  }

  /** The count is the size of the intersection of `seen` with the set of `urls`. */
  lemma {:induction false} CountInIsIntersection(seen: set<Url>, urls: seq<Url>)
    ensures CountIn(seen, urls) == |seen * Elems(urls)|
  {
    if urls != [] {
      var u := urls[0];
      var rest := urls[1..];
      assert Elems(urls) == {u} + Elems(rest) by {
        assert urls == [u] + rest;
      }
      if u in seen {
        CountInIsIntersection(seen - {u}, rest);
        IntersectWithTaken(seen, Elems(rest), u);
      } else {
        CountInIsIntersection(seen, rest);
        assert seen * ({u} + Elems(rest)) == seen * Elems(rest);
      }
    }
  }

  /** Taking a member `u` of `seen` out of it and into the other side adds exactly one to the
      size of their intersection. */
  lemma IntersectWithTaken<T>(seen: set<T>, others: set<T>, u: T)
    requires u in seen
    ensures |seen * ({u} + others)| == |(seen - {u}) * others| + 1
  {
    assert seen * ({u} + others) == (seen - {u}) * others + {u};
    assert u !in (seen - {u}) * others;
  }

  /** The number of URLs two ranked lists share, compared as sets:
      `len(set(a).intersection(set(b)))`. */
  function Overlap(a: seq<Url>, b: seq<Url>): nat {
    CountIn(Elems(a), b)
  }

  /** The overlap does not depend on which keyword is compared with which. */
  lemma OverlapSymmetric(a: seq<Url>, b: seq<Url>)
    ensures Overlap(a, b) == Overlap(b, a)
  {
    CountInIsIntersection(Elems(a), b);
    CountInIsIntersection(Elems(b), a);
    assert Elems(a) * Elems(b) == Elems(b) * Elems(a);
  }

  /** The overlap never exceeds the length of either list, so never the truncation length. */
  lemma OverlapBounded(a: seq<Url>, b: seq<Url>)
    ensures Overlap(a, b) <= |a| && Overlap(a, b) <= |b|
  {
    CountInIsIntersection(Elems(a), b);
    ElemsSize(a);
    assert Elems(a) * Elems(b) <= Elems(a);
    SubsetSize(Elems(a) * Elems(b), Elems(a));
  }

  lemma SubsetSize<T>(a: set<T>, b: set<T>)
    requires a <= b
    ensures |a| <= |b|
  {
    assert b == a + (b - a);
  }
}
