/** The data-gathering loop of the SERP clustering tab: for every keyword to cluster, the
    cached SERP, volume, difficulty and intent responses are looked up and condensed into
    one record per keyword; keywords without a usable cached SERP are reported as missing,
    and the URL lists of the others become the input of the clustering engine. */
module SerpCache {
  import opened Wrappers
  import opened Seqs
  import opened UrlSets
  import opened SerpClustering

  /** A value read with `dict.get`: the key is absent, present with `None`, or holds a value. */
  datatype Field<T> = Absent | Null | Value(v: T)

  /** An entry of a response's `items` list, reduced to the keys the tab reads: its `url`
      (absent, null or a string), its `keyword_difficulty` (None when missing or
      null) and its `keyword_intent` (None when missing or falsy, otherwise its `label`,
      None when that is missing or null). */
  datatype Item = Item(url: Field<string>, keywordDifficulty: Option<int>, keywordIntent: Option<Option<string>>)

  /** An entry of a task's `result` list: its `items` (empty when the key is missing), and
      its `search_volume` and `cpc` (None when missing or null). */
  datatype Entry = Entry(items: seq<Item>, searchVolume: Option<int>, cpc: Option<int>)

  /** A task of a cached response; `result` is empty when it is missing, null or empty. */
  datatype Task = Task(result: seq<Entry>)

  /** A cached response; `tasks` is empty when it is missing or empty, or when the cached
      document itself is empty. */
  datatype Response = Response(tasks: seq<Task>)

  /** The four caches the tab reads, one per kind of request, by keyword (the location,
      language and device parts of the cache key are fixed). A keyword without an entry is
      a cache miss. */
  datatype Caches = Caches(serp: map<Keyword, Response>, volume: map<Keyword, Response>,
                           kd: map<Keyword, Response>, intent: map<Keyword, Response>)

  /** What the tab holds for one keyword, `keyword_data_map[kw]`; a key it never wrote is
      `None` (for `urls`) or `Absent`. */
  datatype KeywordData = KeywordData(urls: Option<seq<Url>>, volume: Field<int>, cpc: Field<int>,
                                     kd: Field<int>, intent: Field<string>)

  /** The first entry of the first task's result of the cached response for `kw`, when the
      response passes the tab's guard `data and data.get('tasks') and data['tasks'][0].get('result')`. */
  function FirstEntry(cache: map<Keyword, Response>, kw: Keyword): Option<Entry> {
    if kw in cache && cache[kw].tasks != [] && cache[kw].tasks[0].result != [] then
      Some(cache[kw].tasks[0].result[0])
    else None
  }

  /** A JSON value read with `result.get(key)`: None when missing or null. */
  function FromJson<T>(o: Option<T>): Field<T> {
    match o
    case Some(v) => Value(v)
    case None => Null
  }

  /** Item `item` carries `u` under its `url` key: a null `url` is the URL None, and an item
      without the key carries nothing. */
  predicate Carries(item: Item, u: Url) {
    match item.url
    case Absent => false
    case Null => u == None
    case Value(address) => u == Some(address)
  }

  /** `[item['url'] for item in items if 'url' in item]`: the test is on the key, so a null
      `url` is kept as None. */
  function ItemUrls(items: seq<Item>): seq<Url> {
    if items == [] then []
    else
      var first := match items[0].url
                   case Absent => []
                   case Null => [None]
                   case Value(address) => [Some(address)];
      first + ItemUrls(items[1..])
  }

  /** The URLs are collected item after item: the URLs of a list of items are those of its
      first part followed by those of the rest, so they keep the items' rank order. */
  lemma {:induction false} ItemUrlsAppend(a: seq<Item>, b: seq<Item>)
    ensures ItemUrls(a + b) == ItemUrls(a) + ItemUrls(b)
  {
    if a == [] {
      assert a + b == b;
    } else {
      assert (a + b)[1..] == a[1..] + b;
      ItemUrlsAppend(a[1..], b);
    }
  }

  /** The URLs collected are exactly the URLs of the items that have one. */
  lemma {:induction false} ItemUrlsMembers(items: seq<Item>, u: Url)
    ensures u in ItemUrls(items) <==> exists i :: 0 <= i < |items| && Carries(items[i], u)
  {
    if items != [] {
      ItemUrlsMembers(items[1..], u);
      if exists i :: 0 <= i < |items[1..]| && Carries(items[1..][i], u) {
        var i :| 0 <= i < |items[1..]| && Carries(items[1..][i], u);
        assert Carries(items[i + 1], u);
      }
      if exists i :: 0 <= i < |items| && Carries(items[i], u) {
        var i :| 0 <= i < |items| && Carries(items[i], u);
        if i > 0 {
          assert Carries(items[1..][i - 1], u);
        }
      }
    }
  }

  /** The URL list the tab keeps for a keyword: the URLs of its SERP items, cut to the first
      `urlsToCheck` (`[...][:urls_to_check]`). */
  function ExtractUrls(items: seq<Item>, urlsToCheck: int): seq<Url> {
    Head(ItemUrls(items), urlsToCheck)
  }

  /** The kept URLs are the leading URLs of the items in rank order, at most `urlsToCheck`
      of them, every one the URL of some item; items without a URL are skipped. */
  lemma ExtractUrlsSpec(items: seq<Item>, urlsToCheck: int)
    ensures var r := ExtractUrls(items, urlsToCheck);
            r <= ItemUrls(items)
            && (urlsToCheck >= 0 ==> |r| == if urlsToCheck < |ItemUrls(items)| then urlsToCheck else |ItemUrls(items)|)
            && forall u :: u in r ==> exists i :: 0 <= i < |items| && Carries(items[i], u)
  {
    var r := ExtractUrls(items, urlsToCheck);
    forall u | u in r
      ensures exists i :: 0 <= i < |items| && Carries(items[i], u)
    {
      assert u in ItemUrls(items);
      ItemUrlsMembers(items, u);
    }
  }

  /** A null `url` is kept, and it takes one of the `urlsToCheck` places: of the items
      `[{"url": null}, {"url": address}]`, checking one URL keeps None alone, and two keywords
      whose lists hold None share it. */
  lemma NullUrlKept(address: string)
    ensures ExtractUrls([Item(Null, None, None), Item(Value(address), None, None)], 1) == [None]
    ensures var none: Url := None; Overlap([none], [none]) == 1
  {
    var items := [Item(Null, None, None), Item(Value(address), None, None)];
    assert ItemUrls(items[1..][1..]) == [];
    assert ItemUrls(items) == [None, Some(address)];
    var none: Url := None;
    assert Elems([none]) == {none};
  }

  /** Two URL lists that both hold None, each from an item whose `url` is null, share at
      least that one URL. */
  lemma NullUrlsShared(a: seq<Url>, b: seq<Url>)
    requires None in a && None in b
    ensures Overlap(a, b) >= 1
  {
    CountInIsIntersection(Elems(a), b);
    assert None in Elems(a) * Elems(b);
  }

  /** Whether the SERP of `kw` is cached in a usable form. */
  predicate HasSerp(c: Caches, kw: Keyword) {
    FirstEntry(c.serp, kw).Some?
  }

  /** The record the loop builds for `kw`: nothing but an empty record when its SERP is
      missing (the loop moves on to the next keyword), otherwise its URLs, then volume and
      cpc, difficulty and intent, each only when the matching response passes its guard. */
  function Record(c: Caches, kw: Keyword, urlsToCheck: int): KeywordData {
    var serp := FirstEntry(c.serp, kw);
    if serp.None? then KeywordData(None, Absent, Absent, Absent, Absent)
    else
      var vol := FirstEntry(c.volume, kw);
      var kd := FirstEntry(c.kd, kw);
      var intent := FirstEntry(c.intent, kw);
      KeywordData(
        Some(ExtractUrls(serp.value.items, urlsToCheck)),
        if vol.Some? then FromJson(vol.value.searchVolume) else Absent,
        if vol.Some? then FromJson(vol.value.cpc) else Absent,
        if kd.Some? && kd.value.items != [] then FromJson(kd.value.items[0].keywordDifficulty) else Absent,
        if intent.Some? && intent.value.items != [] && intent.value.items[0].keywordIntent.Some?
        then FromJson(intent.value.items[0].keywordIntent.value)
        else Absent)
  }

  /** A record has URLs exactly when the keyword's SERP is usable, and then at most
      `urlsToCheck` of them. */
  lemma RecordUrls(c: Caches, kw: Keyword, urlsToCheck: int)
    ensures Record(c, kw, urlsToCheck).urls.Some? <==> HasSerp(c, kw)
    ensures HasSerp(c, kw) && urlsToCheck >= 0 ==> |Record(c, kw, urlsToCheck).urls.value| <= urlsToCheck
  {
  }

  /** Without a usable SERP a keyword's record stays empty. With one, volume and cpc are
      written exactly when the volume response passes its guard, and then hold its
      `search_volume` and `cpc` (null when missing); difficulty is written exactly when the
      difficulty response passes its guard and has an item, and then holds that item's
      `keyword_difficulty`; intent is written exactly when the intent response passes its
      guard and its first item has a truthy `keyword_intent`, and then holds its `label`. */
  lemma RecordMetrics(c: Caches, kw: Keyword, urlsToCheck: int)
    ensures !HasSerp(c, kw) ==> Record(c, kw, urlsToCheck) == KeywordData(None, Absent, Absent, Absent, Absent)
    ensures var r := Record(c, kw, urlsToCheck);
            var vol := FirstEntry(c.volume, kw);
            HasSerp(c, kw) ==>
              (r.volume != Absent <==> vol.Some?) && (r.cpc != Absent <==> vol.Some?)
              && (vol.Some? ==> r.volume == FromJson(vol.value.searchVolume) && r.cpc == FromJson(vol.value.cpc))
    ensures var r := Record(c, kw, urlsToCheck);
            var kd := FirstEntry(c.kd, kw);
            HasSerp(c, kw) ==>
              (r.kd != Absent <==> kd.Some? && kd.value.items != [])
              && (kd.Some? && kd.value.items != [] ==> r.kd == FromJson(kd.value.items[0].keywordDifficulty))
    ensures var r := Record(c, kw, urlsToCheck);
            var intent := FirstEntry(c.intent, kw);
            var found := intent.Some? && intent.value.items != [] && intent.value.items[0].keywordIntent.Some?;
            HasSerp(c, kw) ==>
              (r.intent != Absent <==> found)
              && (found ==> r.intent == FromJson(intent.value.items[0].keywordIntent.value))
  {
  }

  /** `keyword_data_map` after the loop has handled the first `n` keywords. */
  function Gathered(c: Caches, keywords: seq<Keyword>, urlsToCheck: int, n: int): map<Keyword, KeywordData>
    requires 0 <= n <= |keywords|
  {
    if n == 0 then map[]
    else Gathered(c, keywords, urlsToCheck, n - 1)[keywords[n - 1] := Record(c, keywords[n - 1], urlsToCheck)]
  }

  /** `missing_keywords` after the loop has handled the first `n` keywords. */
  function Missing(c: Caches, keywords: seq<Keyword>, n: int): seq<string>
    requires 0 <= n <= |keywords|
  {
    if n == 0 then []
    else Missing(c, keywords, n - 1) + if HasSerp(c, keywords[n - 1]) then [] else [keywords[n - 1] + " (SERP)"]
  }

  /** The cache-verification loop of the tab. */
  method CollectSerpData(c: Caches, keywords: seq<Keyword>, urlsToCheck: int)
    returns (data: map<Keyword, KeywordData>, missing: seq<string>)
    ensures data == Gathered(c, keywords, urlsToCheck, |keywords|)
    ensures missing == Missing(c, keywords, |keywords|)
  {
    data := map[];
    missing := [];
    for i := 0 to |keywords|
      invariant data == Gathered(c, keywords, urlsToCheck, i)
      invariant missing == Missing(c, keywords, i)
    {
      var kw := keywords[i];
      var record := KeywordData(None, Absent, Absent, Absent, Absent);
      var serp := FirstEntry(c.serp, kw);
      if serp.Some? {
        record := record.(urls := Some(ExtractUrls(serp.value.items, urlsToCheck)));
        var vol := FirstEntry(c.volume, kw);
        if vol.Some? {
          record := record.(volume := FromJson(vol.value.searchVolume), cpc := FromJson(vol.value.cpc));
        }
        var kd := FirstEntry(c.kd, kw);
        if kd.Some? && kd.value.items != [] {
          record := record.(kd := FromJson(kd.value.items[0].keywordDifficulty));
        }
        var intent := FirstEntry(c.intent, kw);
        if intent.Some? && intent.value.items != [] && intent.value.items[0].keywordIntent.Some? {
          record := record.(intent := FromJson(intent.value.items[0].keywordIntent.value));
        }
      } else {
        missing := missing + [kw + " (SERP)"];
      }
      assert record == Record(c, kw, urlsToCheck);
      data := data[kw := record];
    }
  }

  /** After `n` keywords the map holds exactly those keywords, each with its own record. */
  lemma {:induction false} GatheredAt(c: Caches, keywords: seq<Keyword>, urlsToCheck: int, n: int, kw: Keyword)
    requires 0 <= n <= |keywords|
    ensures kw in Gathered(c, keywords, urlsToCheck, n) <==> kw in keywords[..n]
    ensures kw in keywords[..n] ==> Gathered(c, keywords, urlsToCheck, n)[kw] == Record(c, kw, urlsToCheck)
  {
    if n > 0 {
      GatheredAt(c, keywords, urlsToCheck, n - 1, kw);
      assert keywords[..n] == keywords[..n - 1] + [keywords[n - 1]];
    }
  }

  /** A keyword is reported missing exactly when its SERP is not usable; every report names
      such a keyword. */
  lemma {:induction false} MissingReports(c: Caches, keywords: seq<Keyword>, n: int, m: string)
    requires 0 <= n <= |keywords|
    ensures m in Missing(c, keywords, n) <==>
            exists i :: 0 <= i < n && !HasSerp(c, keywords[i]) && m == keywords[i] + " (SERP)"
  {
    if n > 0 {
      MissingReports(c, keywords, n - 1, m);
    }
  }

  /** Nothing is reported missing exactly when every keyword has a usable SERP, which is
      when the tab goes on to cluster. */
  lemma {:induction false} NothingMissing(c: Caches, keywords: seq<Keyword>, n: int)
    requires 0 <= n <= |keywords|
    ensures Missing(c, keywords, n) == [] <==> forall i :: 0 <= i < n ==> HasSerp(c, keywords[i])
  {
    if n > 0 {
      NothingMissing(c, keywords, n - 1);
    }
  }

  /** `{kw: data['urls'] for kw, data in keyword_data_map.items() if 'urls' in data}`, with
      the map's keys in the order `order` they were inserted. */
  function ClusterInput(order: seq<Keyword>, data: map<Keyword, KeywordData>): seq<(Keyword, SerpValue)> {
    if order == [] then []
    else
      (if order[0] in data && data[order[0]].urls.Some? then [(order[0], UrlList(data[order[0]].urls.value))] else [])
      + ClusterInput(order[1..], data)
  }

  /** When every keyword in `order` has URLs, the engine gets every keyword, in that order,
      with its URLs. */
  lemma {:induction false} ClusterInputAll(order: seq<Keyword>, data: map<Keyword, KeywordData>)
    requires forall i :: 0 <= i < |order| ==> order[i] in data && data[order[i]].urls.Some?
    ensures var input := ClusterInput(order, data);
            KeysOf(input) == order
            && forall i :: 0 <= i < |input| ==> input[i].1 == UrlList(data[order[i]].urls.value)
  {
    if order != [] {
      assert forall i :: 0 <= i < |order[1..]| ==> order[1..][i] == order[i + 1];
      ClusterInputAll(order[1..], data);
    }
  }

  /** When nothing is missing, every keyword has its record in the map, with URLs. */
  lemma GatheredAll(c: Caches, keywords: seq<Keyword>, urlsToCheck: int)
    requires Missing(c, keywords, |keywords|) == []
    ensures var data := Gathered(c, keywords, urlsToCheck, |keywords|);
            forall i :: 0 <= i < |keywords| ==>
              keywords[i] in data && data[keywords[i]] == Record(c, keywords[i], urlsToCheck) && data[keywords[i]].urls.Some?
  {
    var data := Gathered(c, keywords, urlsToCheck, |keywords|);
    NothingMissing(c, keywords, |keywords|);
    assert keywords[..|keywords|] == keywords;
    forall i | 0 <= i < |keywords|
      ensures keywords[i] in data && data[keywords[i]] == Record(c, keywords[i], urlsToCheck)
      ensures data[keywords[i]].urls.Some?
    {
      GatheredAt(c, keywords, urlsToCheck, |keywords|, keywords[i]);
      RecordUrls(c, keywords[i], urlsToCheck);
    }
  }

  /** When nothing is missing, the engine is handed every keyword to cluster, in input
      order, with no keyword twice. */
  lemma ClusterInputKeys(c: Caches, keywords: seq<Keyword>, urlsToCheck: int)
    requires Distinct(keywords)
    requires Missing(c, keywords, |keywords|) == []
    ensures var input := ClusterInput(keywords, Gathered(c, keywords, urlsToCheck, |keywords|));
            KeysOf(input) == keywords && DistinctKeys(input)
  {
    GatheredAll(c, keywords, urlsToCheck);
    ClusterInputAll(keywords, Gathered(c, keywords, urlsToCheck, |keywords|));
  }

  /** When nothing is missing, each keyword reaches the engine with the URLs of its cached
      SERP, cut to `urlsToCheck`. */
  lemma ClusterInputUrls(c: Caches, keywords: seq<Keyword>, urlsToCheck: int, i: int)
    requires Missing(c, keywords, |keywords|) == [] && 0 <= i < |keywords|
    ensures var input := ClusterInput(keywords, Gathered(c, keywords, urlsToCheck, |keywords|));
            i < |input| && input[i].1.UrlList? && Some(input[i].1.urls) == Record(c, keywords[i], urlsToCheck).urls
            && (urlsToCheck >= 0 ==> |input[i].1.urls| <= urlsToCheck)
  {
    GatheredAll(c, keywords, urlsToCheck);
    ClusterInputAll(keywords, Gathered(c, keywords, urlsToCheck, |keywords|));
    RecordUrls(c, keywords[i], urlsToCheck);
  }
}
