/** The SERP-overlap clustering engine: keywords whose top search results share enough
    URLs with a seed keyword are grouped with it. A seed is the first keyword not yet
    clustered; every later unclustered keyword is checked once against the seed alone,
    with a bar that depends on how large the cluster would become. */
module SerpClustering {
  import opened Seqs
  import opened UrlSets

  type Keyword = string

  /** A value of the input dictionary: a list of URLs, or anything that is not a list
      (which the engine treats as an empty list). */
  datatype SerpValue = UrlList(urls: seq<Url>) | NotAList

  /** The URLs of one keyword that take part in comparisons:
      `x[:urls_to_check] if isinstance(x, list) else []`. */
  function Truncate(v: SerpValue, urlsToCheck: int): (r: seq<Url>)
    ensures v.NotAList? ==> r == []
    ensures v.UrlList? ==> r <= v.urls
    ensures v.UrlList? && urlsToCheck >= 0 ==> |r| == if urlsToCheck < |v.urls| then urlsToCheck else |v.urls|
    ensures v.UrlList? && urlsToCheck < 0 ==> |r| == if |v.urls| + urlsToCheck > 0 then |v.urls| + urlsToCheck else 0
    ensures v.UrlList? && urlsToCheck >= |v.urls| ==> r == v.urls
    ensures urlsToCheck >= 0 ==> |r| <= urlsToCheck
  {
    match v
    case UrlList(urls) => Head(urls, urlsToCheck)
    case NotAList => []
  }

  /** The input is a dictionary: no keyword occurs twice. */
  predicate DistinctKeys(data: seq<(Keyword, SerpValue)>) {
    Distinct(KeysOf(data))
  }

  /** The keywords of the input, in the dictionary's order. */
  function KeysOf(data: seq<(Keyword, SerpValue)>): (keys: seq<Keyword>)
    ensures |keys| == |data|
  {
    if data == [] then [] else [data[0].0] + KeysOf(data[1..])
  }

  /** The `urls` column of the engine's table after truncation, looked up by keyword; the
      first row with a keyword is the one a lookup finds (`.iloc[0]`). */
  function UrlTable(data: seq<(Keyword, SerpValue)>, urlsToCheck: int): map<Keyword, seq<Url>> {
    if data == [] then map[]
    else UrlTable(data[1..], urlsToCheck)[data[0].0 := Truncate(data[0].1, urlsToCheck)]
  }

  /** The table has a row for every input keyword, holding its truncated URLs. */
  lemma {:induction false} UrlTableRows(data: seq<(Keyword, SerpValue)>, urlsToCheck: int, i: int)
    requires DistinctKeys(data) && 0 <= i < |data|
    ensures data[i].0 in UrlTable(data, urlsToCheck)
    ensures UrlTable(data, urlsToCheck)[data[i].0] == Truncate(data[i].1, urlsToCheck)
  {
    if i > 0 {
      UrlTableRows(data[1..], urlsToCheck, i - 1);
      assert KeysOf(data)[i] == data[i].0 by { KeysOfAt(data, i); }
      DistinctAt(KeysOf(data), 0, i);
    }
  }

  lemma {:induction false} KeysOfAt(data: seq<(Keyword, SerpValue)>, i: int)
    requires 0 <= i < |data|
    ensures KeysOf(data)[i] == data[i].0
  {
    if i > 0 {
      KeysOfAt(data[1..], i - 1);
    }
  }

  /** The row of the table for keyword `k`. The engine only looks up keywords of the input,
      which all have a row (`UrlTableRows`); the empty list stands for the
      lookup error Python would raise otherwise. */
  function UrlsOf(urls: map<Keyword, seq<Url>>, k: Keyword): seq<Url> {
    if k in urls then urls[k] else []
  }

  /** The fixed number of shared URLs a cluster that would have `size` members requires. */
  function Threshold(size: int): int {
    if 2 <= size <= 5 then 8
    else if 6 <= size <= 10 then 6
    else 4
  }

  /** The two-stage test a candidate sharing `shared` URLs with the seed must pass to join
      a cluster that would then have `size` members. */
  predicate Admits(shared: int, minIntersections: int, size: int) {
    shared >= minIntersections && shared >= Threshold(size)
  }

  /** The number of URLs keyword `k` shares with `seed` once both are truncated:
      `len(seed_urls.intersection(set(candidate_urls)))`. */
  function Shared(urls: map<Keyword, seq<Url>>, seed: Keyword, k: Keyword): nat {
    Overlap(UrlsOf(urls, seed), UrlsOf(urls, k))
  }

  /** One pass of the candidate loop for a seed over the first `n` keywords of the snapshot
      `cands` against `seed`, with the URLs of each keyword in `urls`: the
      keywords that joined, in the order they joined, and the ones left unclustered, in
      their order. The keyword at position `n - 1` is decided last, against the cluster
      the first `n - 1` keywords produced. */
  function Pass(urls: map<Keyword, seq<Url>>, seed: Keyword, minIntersections: int, cands: seq<Keyword>, n: int)
    : (r: (seq<Keyword>, seq<Keyword>))
    requires 0 <= n <= |cands|
    ensures |r.0| + |r.1| == n
    decreases n
  {
    if n == 0 then ([], [])
    else
      var p := Pass(urls, seed, minIntersections, cands, n - 1);
      var c := cands[n - 1];
      if Admits(Shared(urls, seed, c), minIntersections, |p.0| + 2) then (p.0 + [c], p.1)
      else (p.0, p.1 + [c])
  }

  /** The clusters formed from the unclustered keywords `pool`, in the order their seeds
      were taken, where `Shared(urls, seed, k)` is the number of URLs `k` shares with `seed`. */
  function Clusters(urls: map<Keyword, seq<Url>>, minIntersections: int, pool: seq<Keyword>)
    : (r: seq<seq<Keyword>>)
    ensures |r| <= |pool|
    decreases |pool|
  {
    if pool == [] then []
    else
      var p := Pass(urls, pool[0], minIntersections, pool[1..], |pool[1..]|);
      [[pool[0]] + p.0] + Clusters(urls, minIntersections, p.1)
  }

  /** The result of `perform_serp_clustering(data, minIntersections, urlsToCheck)`. */
  function SerpClusters(data: seq<(Keyword, SerpValue)>, minIntersections: int, urlsToCheck: int)
    : seq<seq<Keyword>>
    requires DistinctKeys(data)
  {
    Clusters(UrlTable(data, urlsToCheck), minIntersections, KeysOf(data))
  }

  /** The engine: a seed loop that pops the first unclustered keyword and grows a cluster
      around it with `SeedPass`. */
  method PerformSerpClustering(data: seq<(Keyword, SerpValue)>, minIntersections: int, urlsToCheck: int)
    returns (clusters: seq<seq<Keyword>>)
    requires DistinctKeys(data)
    ensures clusters == SerpClusters(data, minIntersections, urlsToCheck)
  {
    var urls := UrlTable(data, urlsToCheck);
    var unclustered := KeysOf(data);
    ghost var all := unclustered;
    clusters := [];
    while unclustered != []
      invariant Distinct(unclustered)
      invariant clusters + Clusters(urls, minIntersections, unclustered)
             == Clusters(urls, minIntersections, all)
      decreases |unclustered|
    {
      ghost var pool := unclustered;
      var seed := unclustered[0];
      var newCluster;
      newCluster, unclustered := SeedPass(urls, minIntersections, seed, unclustered[1..]);
      SeedStep(urls, minIntersections, all, clusters, pool, newCluster, unclustered);
      clusters := clusters + [newCluster];
    }
  }

  /** One iteration of the seed loop: the cluster grown around the first unclustered keyword
      is the next cluster, and what it leaves is the pool of the remaining clusters. */
  lemma SeedStep(urls: map<Keyword, seq<Url>>, minIntersections: int, all: seq<Keyword>, clusters: seq<seq<Keyword>>,
                 pool: seq<Keyword>, newCluster: seq<Keyword>, unclustered: seq<Keyword>)
    requires pool != [] && clusters + Clusters(urls, minIntersections, pool) == Clusters(urls, minIntersections, all)
    requires newCluster == [pool[0]] + Pass(urls, pool[0], minIntersections, pool[1..], |pool[1..]|).0
    requires unclustered == Pass(urls, pool[0], minIntersections, pool[1..], |pool[1..]|).1
    ensures (clusters + [newCluster]) + Clusters(urls, minIntersections, unclustered) == Clusters(urls, minIntersections, all)
  {
    ClustersUnfold(urls, minIntersections, pool);
    AppendAssociative(clusters, [newCluster], Clusters(urls, minIntersections, unclustered));
  }

  /** The first cluster of a non-empty pool is its first keyword with what joins it. */
  lemma ClustersUnfold(urls: map<Keyword, seq<Url>>, minIntersections: int, pool: seq<Keyword>)
    requires pool != []
    ensures var p := Pass(urls, pool[0], minIntersections, pool[1..], |pool[1..]|);
            Clusters(urls, minIntersections, pool) == [[pool[0]] + p.0] + Clusters(urls, minIntersections, p.1)
            && |p.1| < |pool|
  {
  }

  /** The candidate loop for one seed: every keyword of the snapshot `candidates` is checked
      once against the seed, in order; a keyword that passes joins the cluster and is
      removed from the unclustered list. */
  method SeedPass(urls: map<Keyword, seq<Url>>, minIntersections: int, seed: Keyword, candidates: seq<Keyword>)
    returns (newCluster: seq<Keyword>, unclustered: seq<Keyword>)
    requires Distinct(candidates)
    ensures newCluster == [seed] + Pass(urls, seed, minIntersections, candidates, |candidates|).0
    ensures unclustered == Pass(urls, seed, minIntersections, candidates, |candidates|).1
    ensures Distinct(unclustered)
  {
    unclustered := candidates;
    newCluster := [seed];
    var seedUrls := Elems(UrlsOf(urls, seed));
    assert candidates[0..] == candidates;
    for i := 0 to |candidates|
      invariant newCluster == [seed] + Pass(urls, seed, minIntersections, candidates, i).0
      invariant unclustered == Pass(urls, seed, minIntersections, candidates, i).1 + candidates[i..]
    {
      var candidate := candidates[i];
      var intersections := CountIn(seedUrls, UrlsOf(urls, candidate));
      if intersections >= minIntersections {
        var potentialSize := |newCluster| + 1;
        var threshold := Threshold(potentialSize);
        if intersections >= threshold {
          JoinStep(urls, minIntersections, seed, candidates, i, intersections, newCluster, unclustered);
          newCluster := newCluster + [candidate];
          unclustered := RemoveFirst(unclustered, candidate);
        } else {
          StayStep(urls, minIntersections, seed, candidates, i, intersections, newCluster, unclustered);
        }
      } else {
        StayStep(urls, minIntersections, seed, candidates, i, intersections, newCluster, unclustered);
      }
    }
    PassDistinct(urls, seed, minIntersections, candidates);
  }

  /** An iteration of the candidate loop in which the candidate at position `i` joins:
      appending it to the cluster and removing it from the unclustered list gives the state
      the pass over one more keyword describes. */
  lemma JoinStep(urls: map<Keyword, seq<Url>>, minIntersections: int, seed: Keyword, cands: seq<Keyword>, i: int,
                 intersections: int, newCluster: seq<Keyword>, unclustered: seq<Keyword>)
    requires Distinct(cands) && 0 <= i < |cands|
    requires newCluster == [seed] + Pass(urls, seed, minIntersections, cands, i).0
    requires unclustered == Pass(urls, seed, minIntersections, cands, i).1 + cands[i..]
    requires intersections == CountIn(Elems(UrlsOf(urls, seed)), UrlsOf(urls, cands[i]))
    requires intersections >= minIntersections && intersections >= Threshold(|newCluster| + 1)
    ensures newCluster + [cands[i]] == [seed] + Pass(urls, seed, minIntersections, cands, i + 1).0
    ensures cands[i] in unclustered
    ensures RemoveFirst(unclustered, cands[i]) == Pass(urls, seed, minIntersections, cands, i + 1).1 + cands[i + 1..]
  {
    assert Admits(Shared(urls, seed, cands[i]), minIntersections, |newCluster| + 1);
    JoinAppend(urls, minIntersections, seed, cands, i, newCluster);
    JoinRemove(urls, minIntersections, seed, cands, i, unclustered);
  }

  /** Appending the candidate that joins gives the cluster the pass over one more keyword describes. */
  lemma JoinAppend(urls: map<Keyword, seq<Url>>, minIntersections: int, seed: Keyword, cands: seq<Keyword>, i: int,
                   newCluster: seq<Keyword>)
    requires 0 <= i < |cands|
    requires newCluster == [seed] + Pass(urls, seed, minIntersections, cands, i).0
    requires Admits(Shared(urls, seed, cands[i]), minIntersections, |newCluster| + 1)
    ensures newCluster + [cands[i]] == [seed] + Pass(urls, seed, minIntersections, cands, i + 1).0
  {
    AppendAssociative([seed], Pass(urls, seed, minIntersections, cands, i).0, [cands[i]]);
  }

  /** Removing the candidate that joins from the unclustered list gives the list the pass over
      one more keyword leaves: the candidate occurs there once, at the head of the keywords
      not yet looked at. */
  lemma JoinRemove(urls: map<Keyword, seq<Url>>, minIntersections: int, seed: Keyword, cands: seq<Keyword>, i: int,
                   unclustered: seq<Keyword>)
    requires Distinct(cands) && 0 <= i < |cands|
    requires unclustered == Pass(urls, seed, minIntersections, cands, i).1 + cands[i..]
    requires Admits(Shared(urls, seed, cands[i]), minIntersections, |Pass(urls, seed, minIntersections, cands, i).0| + 2)
    ensures cands[i] in unclustered
    ensures RemoveFirst(unclustered, cands[i]) == Pass(urls, seed, minIntersections, cands, i + 1).1 + cands[i + 1..]
  {
    var before := Pass(urls, seed, minIntersections, cands, i);
    var left := before.1;
    assert Pass(urls, seed, minIntersections, cands, i + 1).1 == left;
    assert cands[i..] == [cands[i]] + cands[i + 1..];
    assert unclustered == left + [cands[i]] + cands[i + 1..] by {
      AppendAssociative(left, [cands[i]], cands[i + 1..]);
    }
    assert cands[i] !in Elems(left) by {
      DistinctSplitAt(cands, i);
      PassElems(urls, seed, minIntersections, cands, i);
    }
    RemoveFirstAfter(left, cands[i], cands[i + 1..]);
  }

  /** An iteration of the candidate loop in which the candidate at position `i` does not join:
      the unchanged cluster and unclustered list are the state the pass over one more keyword describes. */
  lemma StayStep(urls: map<Keyword, seq<Url>>, minIntersections: int, seed: Keyword, cands: seq<Keyword>, i: int,
                 intersections: int, newCluster: seq<Keyword>, unclustered: seq<Keyword>)
    requires 0 <= i < |cands|
    requires newCluster == [seed] + Pass(urls, seed, minIntersections, cands, i).0
    requires unclustered == Pass(urls, seed, minIntersections, cands, i).1 + cands[i..]
    requires intersections == CountIn(Elems(UrlsOf(urls, seed)), UrlsOf(urls, cands[i]))
    requires intersections < minIntersections || intersections < Threshold(|newCluster| + 1)
    ensures newCluster == [seed] + Pass(urls, seed, minIntersections, cands, i + 1).0
    ensures unclustered == Pass(urls, seed, minIntersections, cands, i + 1).1 + cands[i + 1..]
  {
    var before := Pass(urls, seed, minIntersections, cands, i);
    assert !Admits(Shared(urls, seed, cands[i]), minIntersections, |before.0| + 2);
    assert Pass(urls, seed, minIntersections, cands, i + 1) == (before.0, before.1 + [cands[i]]);
    assert cands[i..] == [cands[i]] + cands[i + 1..];
    AppendAssociative(before.1, [cands[i]], cands[i + 1..]);
  }

  /** A pass loses and invents nothing: every keyword it has looked at either joined or was left. */
  lemma {:induction false} PassElems(urls: map<Keyword, seq<Url>>, seed: Keyword, minIntersections: int, cands: seq<Keyword>, n: int)
    requires 0 <= n <= |cands|
    ensures var r := Pass(urls, seed, minIntersections, cands, n);
            Elems(r.0) + Elems(r.1) == Elems(cands[..n])
    decreases n
  {
    if n > 0 {
      var p := Pass(urls, seed, minIntersections, cands, n - 1);
      var c := cands[n - 1];
      PassElems(urls, seed, minIntersections, cands, n - 1);
      assert Elems(cands[..n]) == Elems(cands[..n - 1]) + {c} by {
        assert cands[..n] == cands[..n - 1] + [c];
      }
      assert Elems(p.0 + [c]) == Elems(p.0) + {c};
      assert Elems(p.1 + [c]) == Elems(p.1) + {c};
    }
  }

  /** What a pass leaves unclustered has no duplicates when the snapshot has none. */
  lemma PassDistinct(urls: map<Keyword, seq<Url>>, seed: Keyword, minIntersections: int, cands: seq<Keyword>)
    requires Distinct(cands)
    ensures Distinct(Pass(urls, seed, minIntersections, cands, |cands|).1)
  {
    var r := Pass(urls, seed, minIntersections, cands, |cands|);
    PassSplit(urls, seed, minIntersections, cands, |cands|);
    assert cands[..|cands|] == cands;
    FilterDistinct(cands, Elems(r.0), false);
  }

  /** A pass splits what it has looked at in two: the keywords that joined and the ones left
      unclustered, each in snapshot order, with nothing lost or duplicated. */
  lemma PassSplit(urls: map<Keyword, seq<Url>>, seed: Keyword, minIntersections: int, cands: seq<Keyword>, n: int)
    requires Distinct(cands) && 0 <= n <= |cands|
    ensures var r := Pass(urls, seed, minIntersections, cands, n);
            r.0 == Filter(cands[..n], Elems(r.0), true) && r.1 == Filter(cands[..n], Elems(r.0), false)
  {
    PassJoinedInOrder(urls, seed, minIntersections, cands, n);
    PassLeftInOrder(urls, seed, minIntersections, cands, n);
  }

  /** The keyword decided last is new to the snapshot's prefix and to the keywords that
      joined before it, and it is appended to the joined part or to the unclustered part. */
  lemma PassStep(urls: map<Keyword, seq<Url>>, seed: Keyword, minIntersections: int, cands: seq<Keyword>, n: int)
    requires Distinct(cands) && 0 < n <= |cands|
    ensures var p := Pass(urls, seed, minIntersections, cands, n - 1);
            var r := Pass(urls, seed, minIntersections, cands, n);
            var c := cands[n - 1];
            c !in Elems(cands[..n - 1]) && c !in Elems(p.0) && cands[..n] == cands[..n - 1] + [c]
            && if Admits(Shared(urls, seed, c), minIntersections, |p.0| + 2) then r == (p.0 + [c], p.1)
               else r == (p.0, p.1 + [c])
  {
    var p := Pass(urls, seed, minIntersections, cands, n - 1);
    var c := cands[n - 1];
    assert c !in Elems(cands[..n - 1]) by {
      DistinctSplitAt(cands, n - 1);
    }
    assert c !in Elems(p.0) by {
      PassElems(urls, seed, minIntersections, cands, n - 1);
    }
  }

  /** The keywords that joined are the snapshot's prefix restricted to them, in snapshot order. */
  lemma {:induction false} PassJoinedInOrder(urls: map<Keyword, seq<Url>>, seed: Keyword, minIntersections: int, cands: seq<Keyword>, n: int)
    requires Distinct(cands) && 0 <= n <= |cands|
    ensures var r := Pass(urls, seed, minIntersections, cands, n);
            r.0 == Filter(cands[..n], Elems(r.0), true)
    decreases n
  {
    if n > 0 {
      var p := Pass(urls, seed, minIntersections, cands, n - 1);
      var c := cands[n - 1];
      PassJoinedInOrder(urls, seed, minIntersections, cands, n - 1);
      PassStep(urls, seed, minIntersections, cands, n);
      JoinedStep(cands[..n - 1], c, p.0, Pass(urls, seed, minIntersections, cands, n).0,
                 Admits(Shared(urls, seed, c), minIntersections, |p.0| + 2));
    }
  }

  /** The candidate decided last is appended to the joined part when it joins and leaves it
      as it was otherwise; either way the joined part stays in snapshot order. */
  lemma JoinedStep(prefix: seq<Keyword>, c: Keyword, joined: seq<Keyword>, r: seq<Keyword>, joins: bool)
    requires c !in Elems(prefix) && c !in Elems(joined)
    requires joined == Filter(prefix, Elems(joined), true)
    requires r == if joins then joined + [c] else joined
    ensures r == Filter(prefix + [c], Elems(r), true)
  {
    if joins {
      JoinKeeps(prefix, c, joined);
    } else {
      StayKeeps(prefix, c, joined);
    }
  }

  /** The keywords left unclustered are the snapshot's prefix without the joined ones, in snapshot order. */
  lemma {:induction false} PassLeftInOrder(urls: map<Keyword, seq<Url>>, seed: Keyword, minIntersections: int, cands: seq<Keyword>, n: int)
    requires Distinct(cands) && 0 <= n <= |cands|
    ensures var r := Pass(urls, seed, minIntersections, cands, n);
            r.1 == Filter(cands[..n], Elems(r.0), false)
    decreases n
  {
    if n > 0 {
      var p := Pass(urls, seed, minIntersections, cands, n - 1);
      var r := Pass(urls, seed, minIntersections, cands, n);
      var c := cands[n - 1];
      PassLeftInOrder(urls, seed, minIntersections, cands, n - 1);
      PassStep(urls, seed, minIntersections, cands, n);
      LeftStep(cands[..n - 1], c, p.0, p.1, r.0, r.1, Admits(Shared(urls, seed, c), minIntersections, |p.0| + 2));
    }
  }

  /** The candidate decided last leaves the unclustered part as it was when it joins and is
      appended to it otherwise; either way the unclustered part stays in snapshot order. */
  lemma LeftStep(prefix: seq<Keyword>, c: Keyword, joined: seq<Keyword>, left: seq<Keyword>,
                 joinedAfter: seq<Keyword>, leftAfter: seq<Keyword>, joins: bool)
    requires c !in Elems(prefix) && c !in Elems(joined)
    requires left == Filter(prefix, Elems(joined), false)
    requires if joins then joinedAfter == joined + [c] && leftAfter == left
             else joinedAfter == joined && leftAfter == left + [c]
    ensures leftAfter == Filter(prefix + [c], Elems(joinedAfter), false)
  {
    if joins {
      JoinLeaves(prefix, c, joined, left);
    } else {
      StayLeaves(prefix, c, joined, left);
    }
  }

  /** A keyword that joins is appended to the joined part, which stays in snapshot order. */
  lemma JoinKeeps(prefix: seq<Keyword>, c: Keyword, joined: seq<Keyword>)
    requires c !in Elems(prefix) && c !in Elems(joined)
    requires joined == Filter(prefix, Elems(joined), true)
    ensures joined + [c] == Filter(prefix + [c], Elems(joined + [c]), true)
  {
    var a := Elems(joined + [c]);
    assert a == Elems(joined) + {c};
    FilterAppend(prefix, [c], a, true);
    FilterRelevant(prefix, a, Elems(joined), true);
  }

  /** A keyword that joins leaves the unclustered part as it was. */
  lemma JoinLeaves(prefix: seq<Keyword>, c: Keyword, joined: seq<Keyword>, left: seq<Keyword>)
    requires c !in Elems(prefix)
    requires left == Filter(prefix, Elems(joined), false)
    ensures left == Filter(prefix + [c], Elems(joined + [c]), false)
  {
    var a := Elems(joined + [c]);
    assert a == Elems(joined) + {c};
    FilterAppend(prefix, [c], a, false);
    FilterRelevant(prefix, a, Elems(joined), false);
  }

  /** A keyword that stays leaves the joined part as it was. */
  lemma StayKeeps(prefix: seq<Keyword>, c: Keyword, joined: seq<Keyword>)
    requires c !in Elems(joined)
    requires joined == Filter(prefix, Elems(joined), true)
    ensures joined == Filter(prefix + [c], Elems(joined), true)
  {
    FilterAppend(prefix, [c], Elems(joined), true);
  }

  /** A keyword that stays is appended to the unclustered part, which stays in snapshot order. */
  lemma StayLeaves(prefix: seq<Keyword>, c: Keyword, joined: seq<Keyword>, left: seq<Keyword>)
    requires c !in Elems(joined)
    requires left == Filter(prefix, Elems(joined), false)
    ensures left + [c] == Filter(prefix + [c], Elems(joined), false)
  {
    FilterAppend(prefix, [c], Elems(joined), false);
  }

  /** Once the pass has decided the keyword at position `k`, later keywords never change
      whether it is in the cluster: they are different keywords, and joining only appends. */
  lemma {:induction false} PassKeeps(urls: map<Keyword, seq<Url>>, seed: Keyword, minIntersections: int, cands: seq<Keyword>, k: int, n: int)
    requires Distinct(cands) && 0 <= k < n <= |cands|
    ensures cands[k] in Pass(urls, seed, minIntersections, cands, n).0
        <==> cands[k] in Pass(urls, seed, minIntersections, cands, k + 1).0
    decreases n
  {
    if n > k + 1 {
      assert cands[k] != cands[n - 1] by {
        DistinctAt(cands, k, n - 1);
      }
      assert cands[k] in Pass(urls, seed, minIntersections, cands, n - 1).0
         <==> cands[k] in Pass(urls, seed, minIntersections, cands, k + 1).0 by {
        PassKeeps(urls, seed, minIntersections, cands, k, n - 1);
      }
    }
  }

  /** Every keyword that joins passed both tests with the size the cluster had when it
      joined: the `j`-th to join made the cluster `j + 2` keywords long. */
  lemma {:induction false} PassJoinedAdmitted(urls: map<Keyword, seq<Url>>, seed: Keyword, minIntersections: int, cands: seq<Keyword>, n: int, j: int)
    requires 0 <= n <= |cands| && 0 <= j < |Pass(urls, seed, minIntersections, cands, n).0|
    ensures Admits(Shared(urls, seed, Pass(urls, seed, minIntersections, cands, n).0[j]), minIntersections, j + 2)
    decreases n
  {
    var p := Pass(urls, seed, minIntersections, cands, n - 1);
    if j < |p.0| {
      PassJoinedAdmitted(urls, seed, minIntersections, cands, n - 1, j);
    }
  }

  /** The decision on the candidate at position `k` of a snapshot without duplicates: it ends
      up in the cluster exactly when it passes both tests against the seed, with the size the
      cluster would have counting the seed, the keywords that joined before it and itself. */
  lemma PassDecision(urls: map<Keyword, seq<Url>>, seed: Keyword, minIntersections: int, cands: seq<Keyword>, k: int)
    requires Distinct(cands) && 0 <= k < |cands|
    ensures cands[k] in Pass(urls, seed, minIntersections, cands, |cands|).0
        <==> Admits(Shared(urls, seed, cands[k]), minIntersections, |Pass(urls, seed, minIntersections, cands, k).0| + 2)
  {
    assert cands[k] !in Pass(urls, seed, minIntersections, cands, k).0 by {
      DistinctSplitAt(cands, k);
      PassElems(urls, seed, minIntersections, cands, k);
    }
    PassKeeps(urls, seed, minIntersections, cands, k, |cands|);
  }

  /** The keywords a pass adds to the seed, with the seed, and the ones it leaves are
      together the pool the seed was taken from. */
  lemma ClusterStepCover(urls: map<Keyword, seq<Url>>, minIntersections: int, pool: seq<Keyword>)
    requires pool != []
    ensures var p := Pass(urls, pool[0], minIntersections, pool[1..], |pool[1..]|);
            Elems([pool[0]] + p.0) + Elems(p.1) == Elems(pool)
  {
    assert pool[1..][..|pool[1..]|] == pool[1..];
    PassElems(urls, pool[0], minIntersections, pool[1..], |pool[1..]|);
    assert pool == [pool[0]] + pool[1..];
    assert Elems(pool) == {pool[0]} + Elems(pool[1..]);
    var p := Pass(urls, pool[0], minIntersections, pool[1..], |pool[1..]|);
    assert Elems([pool[0]] + p.0) == {pool[0]} + Elems(p.0);
  }

  /** In a pool without duplicates, the cluster grown around the first keyword has no
      duplicates, and what it leaves is the pool without the cluster's keywords, in pool order. */
  lemma ClusterStep(urls: map<Keyword, seq<Url>>, minIntersections: int, pool: seq<Keyword>)
    requires Distinct(pool) && pool != []
    ensures var p := Pass(urls, pool[0], minIntersections, pool[1..], |pool[1..]|);
            Distinct([pool[0]] + p.0) && Distinct(p.1) && Elems([pool[0]] + p.0) !! Elems(p.1)
            && [pool[0]] + p.0 == Filter(pool, Elems([pool[0]] + p.0), true)
            && p.1 == Filter(pool, Elems([pool[0]] + p.0), false)
  {
    var p := Pass(urls, pool[0], minIntersections, pool[1..], |pool[1..]|);
    var first := Elems([pool[0]] + p.0);
    assert Distinct(pool[1..]) && pool[0] !in Elems(pool[1..]) by {
      assert pool == [pool[0]] + pool[1..];
      DistinctAppend([pool[0]], pool[1..]);
      assert pool[0] in Elems([pool[0]]);
    }
    assert p.0 == Filter(pool[1..], Elems(p.0), true) && p.1 == Filter(pool[1..], Elems(p.0), false) by {
      PassSplit(urls, pool[0], minIntersections, pool[1..], |pool[1..]|);
      assert pool[1..][..|pool[1..]|] == pool[1..];
    }
    assert Distinct(p.0) && Distinct(p.1) by {
      FilterDistinct(pool[1..], Elems(p.0), true);
      FilterDistinct(pool[1..], Elems(p.0), false);
    }
    assert first == {pool[0]} + Elems(p.0);
    assert first !! Elems(p.1) by {
      FilterElems(pool[1..], Elems(p.0), false);
    }
    assert Distinct([pool[0]] + p.0) by {
      FilterElems(pool[1..], Elems(p.0), true);
      DistinctAppend([pool[0]], p.0);
    }
    assert p.1 == Filter(pool, first, false) by {
      assert pool == [pool[0]] + pool[1..];
      FilterAppend([pool[0]], pool[1..], first, false);
      FilterRelevant(pool[1..], first, Elems(p.0), false);
    }
    assert [pool[0]] + p.0 == Filter(pool, first, true) by {
      assert pool == [pool[0]] + pool[1..];
      FilterAppend([pool[0]], pool[1..], first, true);
      FilterRelevant(pool[1..], first, Elems(p.0), true);
    }
  }

  /** No cluster is empty: each holds at least its seed. */
  lemma {:induction false} ClustersNonEmpty(urls: map<Keyword, seq<Url>>, minIntersections: int, pool: seq<Keyword>)
    ensures [] !in Clusters(urls, minIntersections, pool)
    decreases |pool|
  {
    if pool != [] {
      var p := Pass(urls, pool[0], minIntersections, pool[1..], |pool[1..]|);
      ClustersNonEmpty(urls, minIntersections, p.1);
    }
  }

  /** Concatenated, the clusters hold exactly the keywords of the pool. */
  lemma {:induction false} ClustersCover(urls: map<Keyword, seq<Url>>, minIntersections: int, pool: seq<Keyword>)
    ensures Elems(Concat(Clusters(urls, minIntersections, pool))) == Elems(pool)
    decreases |pool|
  {
    if pool != [] {
      var p := Pass(urls, pool[0], minIntersections, pool[1..], |pool[1..]|);
      var c := [pool[0]] + p.0;
      var rest := Clusters(urls, minIntersections, p.1);
      assert Concat(Clusters(urls, minIntersections, pool)) == c + Concat(rest) by {
        assert Clusters(urls, minIntersections, pool) == [c] + rest;
      }
      assert Elems(Concat(rest)) == Elems(p.1) by {
        ClustersCover(urls, minIntersections, p.1);
      }
      assert Elems(c) + Elems(p.1) == Elems(pool) by {
        ClusterStepCover(urls, minIntersections, pool);
      }
      assert Elems(c + Concat(rest)) == Elems(c) + Elems(Concat(rest));
    }
  }

  /** In a pool without duplicates, no keyword lands in two clusters or twice in one. */
  lemma {:induction false} ClustersDistinct(urls: map<Keyword, seq<Url>>, minIntersections: int, pool: seq<Keyword>)
    requires Distinct(pool)
    ensures Distinct(Concat(Clusters(urls, minIntersections, pool)))
    decreases |pool|
  {
    if pool != [] {
      var p := Pass(urls, pool[0], minIntersections, pool[1..], |pool[1..]|);
      var c := [pool[0]] + p.0;
      var rest := Clusters(urls, minIntersections, p.1);
      assert Concat(Clusters(urls, minIntersections, pool)) == c + Concat(rest) by {
        assert Clusters(urls, minIntersections, pool) == [c] + rest;
      }
      assert Distinct(c) && Distinct(p.1) && Elems(c) !! Elems(p.1) by {
        ClusterStep(urls, minIntersections, pool);
      }
      assert Distinct(Concat(rest)) by {
        ClustersDistinct(urls, minIntersections, p.1);
      }
      assert Elems(Concat(rest)) == Elems(p.1) by {
        ClustersCover(urls, minIntersections, p.1);
      }
      DistinctAppend(c, Concat(rest));
    }
  }

  /** The `i`-th cluster is the pass of its seed over what the earlier clusters left: its
      seed is the first keyword, in input order, that no earlier cluster holds. */
  lemma {:induction false} ClusterFromRemaining(urls: map<Keyword, seq<Url>>, minIntersections: int, pool: seq<Keyword>, i: int)
    requires Distinct(pool) && 0 <= i < |Clusters(urls, minIntersections, pool)|
    ensures var r := Clusters(urls, minIntersections, pool);
            var remaining := Filter(pool, Elems(Concat(r[..i])), false);
            remaining != [] && r[i] == [remaining[0]] + Pass(urls, remaining[0], minIntersections, remaining[1..], |remaining[1..]|).0
    decreases |pool|
  {
    var r := Clusters(urls, minIntersections, pool);
    var seed := pool[0];
    var p := Pass(urls, seed, minIntersections, pool[1..], |pool[1..]|);
    var rest := Clusters(urls, minIntersections, p.1);
    assert r == [[seed] + p.0] + rest;
    if i == 0 {
      assert r[..0] == [];
      assert Elems(Concat(r[..0])) == {};
      DropNone(pool);
    } else {
      var x := Elems(Concat(rest[..i - 1]));
      var first := Elems([seed] + p.0);
      assert Distinct(p.1) && p.1 == Filter(pool, first, false) by {
        ClusterStep(urls, minIntersections, pool);
      }
      assert r[i] == rest[i - 1];
      assert Elems(Concat(r[..i])) == first + x by {
        ConcatConsPrefix([seed] + p.0, rest, i);
        ElemsAppend([seed] + p.0, Concat(rest[..i - 1]));
      }
      var remaining := Filter(p.1, x, false);
      assert Filter(pool, first + x, false) == remaining by {
        FilterTwice(pool, first, x);
      }
      assert remaining != [] && rest[i - 1] == [remaining[0]] + Pass(urls, remaining[0], minIntersections, remaining[1..], |remaining[1..]|).0 by {
        ClusterFromRemaining(urls, minIntersections, p.1, i - 1);
      }
    }
  }

  /** Every cluster keeps the input order: it is the input order restricted to its members. */
  lemma ClusterInOrder(urls: map<Keyword, seq<Url>>, minIntersections: int, pool: seq<Keyword>, i: int)
    requires Distinct(pool) && 0 <= i < |Clusters(urls, minIntersections, pool)|
    ensures var r := Clusters(urls, minIntersections, pool);
            r[i] == Filter(pool, Elems(r[i]), true)
  {
    var r := Clusters(urls, minIntersections, pool);
    var earlier := Elems(Concat(r[..i]));
    var remaining := Filter(pool, earlier, false);
    assert remaining != [] && r[i] == [remaining[0]] + Pass(urls, remaining[0], minIntersections, remaining[1..], |remaining[1..]|).0 by {
      ClusterFromRemaining(urls, minIntersections, pool, i);
    }
    assert Distinct(remaining) by {
      FilterDistinct(pool, earlier, false);
    }
    assert r[i] == Filter(remaining, Elems(r[i]), true) by {
      ClusterStep(urls, minIntersections, remaining);
    }
    assert Elems(r[i]) <= Elems(remaining) by {
      ClusterStepCover(urls, minIntersections, remaining);
    }
    assert earlier !! Elems(remaining) by {
      FilterElems(pool, earlier, false);
    }
    KeepAfterDrop(pool, earlier, Elems(r[i]));
  }

  /** Every member after the seed passed both tests against the seed with the size the
      cluster reached when it joined: member `j` (the seed is member 0) made it `j + 1` long. */
  lemma ClusterMembersAdmitted(urls: map<Keyword, seq<Url>>, minIntersections: int, pool: seq<Keyword>, i: int, j: int)
    requires Distinct(pool) && 0 <= i < |Clusters(urls, minIntersections, pool)|
    requires 1 <= j < |Clusters(urls, minIntersections, pool)[i]|
    ensures var c := Clusters(urls, minIntersections, pool)[i];
            Admits(Shared(urls, c[0], c[j]), minIntersections, j + 1)
  {
    var r := Clusters(urls, minIntersections, pool);
    var remaining := Filter(pool, Elems(Concat(r[..i])), false);
    assert remaining != [] && r[i] == [remaining[0]] + Pass(urls, remaining[0], minIntersections, remaining[1..], |remaining[1..]|).0 by {
      ClusterFromRemaining(urls, minIntersections, pool, i);
    }
    SeedMembersAdmitted(urls, minIntersections, remaining, r[i], j);
  }

  /** The same for a cluster grown around the first keyword of `pool`. */
  lemma SeedMembersAdmitted(urls: map<Keyword, seq<Url>>, minIntersections: int, pool: seq<Keyword>, c: seq<Keyword>, j: int)
    requires pool != [] && c == [pool[0]] + Pass(urls, pool[0], minIntersections, pool[1..], |pool[1..]|).0
    requires 1 <= j < |c|
    ensures Admits(Shared(urls, c[0], c[j]), minIntersections, j + 1)
  {
    PassJoinedAdmitted(urls, pool[0], minIntersections, pool[1..], |pool[1..]|, j - 1);
  }

  /** The members of every cluster of the engine's result passed both tests on the first
      `urlsToCheck` URLs of their own and of their seed's list, compared as sets. */
  lemma SerpMembersAdmitted(data: seq<(Keyword, SerpValue)>, minIntersections: int, urlsToCheck: int, i: int, j: int)
    requires DistinctKeys(data) && 0 <= i < |SerpClusters(data, minIntersections, urlsToCheck)|
    requires 1 <= j < |SerpClusters(data, minIntersections, urlsToCheck)[i]|
    ensures var c := SerpClusters(data, minIntersections, urlsToCheck)[i];
            var urls := UrlTable(data, urlsToCheck);
            Admits(Overlap(UrlsOf(urls, c[0]), UrlsOf(urls, c[j])), minIntersections, j + 1)
  {
    ClusterMembersAdmitted(UrlTable(data, urlsToCheck), minIntersections, KeysOf(data), i, j);
  }

  /** The size-dependent threshold never rises as a cluster grows. */
  lemma ThresholdNonIncreasing(small: int, large: int)
    requires 2 <= small <= large
    ensures Threshold(large) <= Threshold(small) <= 8
  {
  }

  /** When every candidate shares fewer URLs with the seed than `max(8, minIntersections)`,
      so that it misses at least one of the two bars, nobody joins. */
  lemma {:induction false} PassNoneJoin(urls: map<Keyword, seq<Url>>, seed: Keyword, minIntersections: int, cands: seq<Keyword>, n: int)
    requires forall c :: c in cands ==> Shared(urls, seed, c) < minIntersections || Shared(urls, seed, c) < 8
    requires 0 <= n <= |cands|
    ensures Pass(urls, seed, minIntersections, cands, n).0 == []
    decreases n
  {
    if n > 0 {
      PassNoneJoin(urls, seed, minIntersections, cands, n - 1);
    }
  }

  /** Every row of the table holds at most `urlsToCheck` URLs when that is not negative. */
  lemma {:induction false} UrlTableBounded(data: seq<(Keyword, SerpValue)>, urlsToCheck: int, k: Keyword)
    requires urlsToCheck >= 0
    ensures |UrlsOf(UrlTable(data, urlsToCheck), k)| <= urlsToCheck
  {
    if data != [] {
      UrlTableBounded(data[1..], urlsToCheck, k);
    }
  }

  /** When fewer URLs are compared than `max(minIntersections, 8)`, no keyword can share
      enough with a seed and every cluster is a single keyword. */
  lemma {:induction false} SerpSingletons(data: seq<(Keyword, SerpValue)>, minIntersections: int, urlsToCheck: int)
    requires DistinctKeys(data)
    requires 0 <= urlsToCheck && (urlsToCheck < minIntersections || urlsToCheck < 8)
    ensures forall c :: c in SerpClusters(data, minIntersections, urlsToCheck) ==> |c| == 1
  {
    var urls := UrlTable(data, urlsToCheck);
    forall seed: Keyword, pool: seq<Keyword>, n: int | 0 <= n <= |pool|
      ensures Pass(urls, seed, minIntersections, pool, n).0 == []
    {
      forall c | c in pool
        ensures Shared(urls, seed, c) < minIntersections || Shared(urls, seed, c) < 8
      {
        UrlTableBounded(data, urlsToCheck, seed);
        OverlapBounded(UrlsOf(urls, seed), UrlsOf(urls, c));
      }
      PassNoneJoin(urls, seed, minIntersections, pool, n);
    }
    AllSingletons(urls, minIntersections, KeysOf(data));
  }

  lemma {:induction false} AllSingletons(urls: map<Keyword, seq<Url>>, minIntersections: int, pool: seq<Keyword>)
    requires forall seed: Keyword, cands: seq<Keyword>, n: int :: 0 <= n <= |cands| ==> Pass(urls, seed, minIntersections, cands, n).0 == []
    ensures forall c :: c in Clusters(urls, minIntersections, pool) ==> |c| == 1
    decreases |pool|
  {
    if pool != [] {
      var p := Pass(urls, pool[0], minIntersections, pool[1..], |pool[1..]|);
      AllSingletons(urls, minIntersections, p.1);
    }
  }
}
