/** The report the SERP clustering tab builds from the engine's clusters: metric defaults,
    the choice of each cluster's main keyword under the volume or cpc strategy, and one row
    per clustered keyword with the number of URLs it shares with its main keyword. */
module SerpReport {
  import opened Wrappers
  import opened Seqs
  import opened UrlSets
  import opened SerpClustering
  import opened SerpCache

  /** The record of a keyword the tab knows nothing about (`keyword_data_map.get(k, {})`). */
  const NoData := KeywordData(None, Absent, Absent, Absent, Absent)

  /** `keyword_data_map.get(k, {})`. */
  function Lookup(data: map<Keyword, KeywordData>, k: Keyword): KeywordData {
    if k in data then data[k] else NoData
  }

  /** `d.get(key, default) or default` for a numeric value: a missing, null or zero value
      gives `default`. */
  function OrDefault(f: Field<int>, default: int): int {
    if f.Value? && f.v != 0 then f.v else default
  }

  /** The metrics prepared for the engine (`keyword_metrics[kw]`). */
  datatype Metrics = Metrics(volume: int, cpc: int, kd: int)

  /** The metrics of a keyword: volume and cpc default to 0, difficulty to 101, whenever the
      stored value is missing, null or zero. */
  function MetricsOf(d: KeywordData): (m: Metrics)
    ensures m.volume == 0 <==> !(d.volume.Value? && d.volume.v != 0)
    ensures d.volume.Value? && d.volume.v != 0 ==> m.volume == d.volume.v
    ensures m.cpc == 0 <==> !(d.cpc.Value? && d.cpc.v != 0)
    ensures d.cpc.Value? && d.cpc.v != 0 ==> m.cpc == d.cpc.v
    ensures m.kd != 0
    ensures m.kd == 101 <==> !(d.kd.Value? && d.kd.v != 0) || d.kd.v == 101
    ensures d.kd.Value? && d.kd.v != 0 ==> m.kd == d.kd.v
  {
    Metrics(OrDefault(d.volume, 0), OrDefault(d.cpc, 0), OrDefault(d.kd, 101))
  }

  /** How the main keyword of a cluster is chosen: `"cpc"`, or anything else (volume). */
  datatype Strategy = ByVolume | ByCpc

  /** The sort key of keyword `k`: (cpc, volume) under the cpc strategy, (volume, -kd) under
      the volume strategy, with the tab's defaults. */
  function Rank(data: map<Keyword, KeywordData>, strategy: Strategy, k: Keyword): (int, int) {
    var d := Lookup(data, k);
    match strategy
    case ByCpc => (OrDefault(d.cpc, 0), OrDefault(d.volume, 0))
    case ByVolume => (OrDefault(d.volume, 0), -OrDefault(d.kd, 101))
  }

  /** The ranking key uses the same defaults as the metrics prepared for the engine. */
  lemma RankUsesMetrics(data: map<Keyword, KeywordData>, strategy: Strategy, k: Keyword)
    ensures var m := MetricsOf(Lookup(data, k));
            Rank(data, strategy, k) == if strategy.ByCpc? then (m.cpc, m.volume) else (m.volume, -m.kd)
  {
  }

  /** Python's tuple comparison `a < b`. */
  predicate Below(a: (int, int), b: (int, int)) {
    a.0 < b.0 || (a.0 == b.0 && a.1 < b.1)
  }

  /** The position of the main keyword, `sorted(cluster, key=rank, reverse=True)[0]`: the
      sort is stable, so among members with the greatest key the first one wins. */
  function MainIndex(data: map<Keyword, KeywordData>, strategy: Strategy, cluster: seq<Keyword>): (i: nat)
    requires cluster != []
    ensures i < |cluster|
  {
    if |cluster| == 1 then 0
    else
      var j := 1 + MainIndex(data, strategy, cluster[1..]);
      if Below(Rank(data, strategy, cluster[0]), Rank(data, strategy, cluster[j])) then j else 0
  }

  /** The main keyword of a non-empty cluster. */
  function MainKeyword(data: map<Keyword, KeywordData>, strategy: Strategy, cluster: seq<Keyword>): (m: Keyword)
    requires cluster != []
    ensures m in cluster
  {
    cluster[MainIndex(data, strategy, cluster)]
  }

  /** Member `i` of `cluster` has the greatest key and every member before it a smaller one. */
  predicate FirstGreatest(data: map<Keyword, KeywordData>, strategy: Strategy, cluster: seq<Keyword>, i: int) {
    0 <= i < |cluster|
    && (forall j :: 0 <= j < |cluster| ==> !Below(Rank(data, strategy, cluster[i]), Rank(data, strategy, cluster[j])))
    && (forall j :: 0 <= j < i ==> Below(Rank(data, strategy, cluster[j]), Rank(data, strategy, cluster[i])))
  }

  /** The main keyword has the greatest key of its cluster, and it is the first member that does. */
  lemma {:induction false} MainIndexFirstGreatest(data: map<Keyword, KeywordData>, strategy: Strategy, cluster: seq<Keyword>)
    requires cluster != []
    ensures FirstGreatest(data, strategy, cluster, MainIndex(data, strategy, cluster))
  {
    if |cluster| > 1 {
      var rest := cluster[1..];
      var k := MainIndex(data, strategy, rest);
      MainIndexFirstGreatest(data, strategy, rest);
      assert forall j :: 0 <= j < |rest| ==> rest[j] == cluster[j + 1];
      var top := Rank(data, strategy, cluster[k + 1]);
      forall j | 1 <= j < |cluster|
        ensures !Below(top, Rank(data, strategy, cluster[j]))
      {
        assert cluster[j] == rest[j - 1];
      }
      forall j | 1 <= j < k + 1
        ensures Below(Rank(data, strategy, cluster[j]), top)
      {
        assert cluster[j] == rest[j - 1];
      }
    }
  }

  /** Only one member is the first with the greatest key, so the main keyword is fully
      determined by the two properties above. */
  lemma MainIndexUnique(data: map<Keyword, KeywordData>, strategy: Strategy, cluster: seq<Keyword>, i: int)
    requires cluster != [] && FirstGreatest(data, strategy, cluster, i)
    ensures i == MainIndex(data, strategy, cluster)
  {
    MainIndexFirstGreatest(data, strategy, cluster);
  }

  /** Under the cpc strategy no member has a higher cpc than the main keyword, and one with
      the same cpc has no higher volume; under the volume strategy no member has a higher
      volume, and one with the same volume has no lower difficulty. */
  lemma MainKeywordBest(data: map<Keyword, KeywordData>, strategy: Strategy, cluster: seq<Keyword>, k: Keyword)
    requires cluster != [] && k in cluster
    ensures var m := MetricsOf(Lookup(data, MainKeyword(data, strategy, cluster)));
            var o := MetricsOf(Lookup(data, k));
            match strategy
            case ByCpc => o.cpc < m.cpc || (o.cpc == m.cpc && o.volume <= m.volume)
            case ByVolume => o.volume < m.volume || (o.volume == m.volume && o.kd >= m.kd)
  {
    MainIndexFirstGreatest(data, strategy, cluster);
    var j :| 0 <= j < |cluster| && cluster[j] == k;
    RankUsesMetrics(data, strategy, k);
    RankUsesMetrics(data, strategy, MainKeyword(data, strategy, cluster));
  }

  /** One row of the detailed report. The metric columns show `data.get(key, default)`
      without `or`: a stored null shows as None (here `None`), a missing key as the default. */
  datatype Row = Row(main: Keyword, keyword: Keyword, intersections: nat,
                     volume: Option<int>, cpc: Option<int>, kd: Option<int>, intent: Option<string>)

  /** `data.get(key, default)`. */
  function Shown<T>(f: Field<T>, default: T): Option<T> {
    match f
    case Absent => Some(default)
    case Null => None
    case Value(v) => Some(v)
  }

  /** The URLs the tab holds for `k`, `keyword_data_map.get(k, {}).get('urls', [])`. */
  function UrlsIn(data: map<Keyword, KeywordData>, k: Keyword): seq<Url> {
    Lookup(data, k).urls.GetOr([])
  }

  /** The row of member `k` in a cluster whose main keyword is `main`. */
  function RowFor(data: map<Keyword, KeywordData>, main: Keyword, k: Keyword): Row {
    var d := Lookup(data, k);
    Row(main, k, Overlap(UrlsIn(data, main), UrlsIn(data, k)),
        Shown(d.volume, 0), Shown(d.cpc, 0), Shown(d.kd, 101), Shown(d.intent, "N/A"))
  }

  /** The rows of the first `n` members of a cluster whose main keyword is `main`. */
  function MemberRows(data: map<Keyword, KeywordData>, main: Keyword, members: seq<Keyword>, n: int): (rows: seq<Row>)
    requires 0 <= n <= |members|
    ensures |rows| == n
  {
    if n == 0 then [] else MemberRows(data, main, members, n - 1) + [RowFor(data, main, members[n - 1])]
  }

  /** The rows of one cluster: none for an empty cluster. */
  function ClusterRows(data: map<Keyword, KeywordData>, strategy: Strategy, cluster: seq<Keyword>): (rows: seq<Row>)
    ensures |rows| == |cluster|
  {
    if cluster == [] then [] else MemberRows(data, MainKeyword(data, strategy, cluster), cluster, |cluster|)
  }

  /** The rows of the first `n` clusters. */
  function ReportRows(data: map<Keyword, KeywordData>, strategy: Strategy, clusters: seq<seq<Keyword>>, n: int): seq<Row>
    requires 0 <= n <= |clusters|
  {
    if n == 0 then [] else ReportRows(data, strategy, clusters, n - 1) + ClusterRows(data, strategy, clusters[n - 1])
  }

  /** The report loop of the tab: for every non-empty cluster, its main keyword and then a
      row per member. */
  method BuildRows(data: map<Keyword, KeywordData>, strategy: Strategy, clusters: seq<seq<Keyword>>)
    returns (rows: seq<Row>)
    ensures rows == ReportRows(data, strategy, clusters, |clusters|)
  {
    rows := [];
    for i := 0 to |clusters|
      invariant rows == ReportRows(data, strategy, clusters, i)
    {
      var cluster := clusters[i];
      var before := rows;
      if cluster != [] {
        var main := MainKeyword(data, strategy, cluster);
        rows := AppendMemberRows(data, main, cluster, rows);
        assert rows == before + ClusterRows(data, strategy, cluster);
      } else {
        assert rows == before + ClusterRows(data, strategy, cluster);
      }
      assert ReportRows(data, strategy, clusters, i + 1) == before + ClusterRows(data, strategy, cluster);
    }
  }

  /** The member loop: appends one row per member of `cluster` under its main keyword. */
  method AppendMemberRows(data: map<Keyword, KeywordData>, main: Keyword, cluster: seq<Keyword>, start: seq<Row>)
    returns (rows: seq<Row>)
    ensures rows == start + MemberRows(data, main, cluster, |cluster|)
  {
    var mainUrls := Elems(UrlsIn(data, main));
    rows := start;
    for j := 0 to |cluster|
      invariant rows == start + MemberRows(data, main, cluster, j)
    {
      var keyword := cluster[j];
      var d := Lookup(data, keyword);
      var intersections := CountIn(mainUrls, UrlsIn(data, keyword));
      var row := Row(main, keyword, intersections, Shown(d.volume, 0), Shown(d.cpc, 0), Shown(d.kd, 101), Shown(d.intent, "N/A"));
      assert row == RowFor(data, main, keyword);
      AppendAssociative(start, MemberRows(data, main, cluster, j), [row]);
      rows := rows + [row];
    }
  }

  /** A cluster's member rows are one per member, in the cluster's order. */
  lemma {:induction false} MemberRowsAt(data: map<Keyword, KeywordData>, main: Keyword, members: seq<Keyword>, n: int)
    requires 0 <= n <= |members|
    ensures var rows := MemberRows(data, main, members, n);
            |rows| == n && forall j :: 0 <= j < n ==> rows[j] == RowFor(data, main, members[j])
  {
    if n > 0 {
      MemberRowsAt(data, main, members, n - 1);
    }
  }

  /** Each member of a cluster gets exactly one row, in cluster order, carrying the cluster's
      main keyword, itself a member of the cluster. */
  lemma ClusterRowsSpec(data: map<Keyword, KeywordData>, strategy: Strategy, cluster: seq<Keyword>, j: int)
    requires 0 <= j < |cluster|
    ensures var rows := ClusterRows(data, strategy, cluster);
            var main := MainKeyword(data, strategy, cluster);
            |rows| == |cluster| && rows[j].keyword == cluster[j] && rows[j].main == main && main in cluster
  {
    MemberRowsAt(data, MainKeyword(data, strategy, cluster), cluster, |cluster|);
  }

  /** Row `j` of a cluster counts the URLs its keyword shares with the main keyword. */
  lemma ClusterRowIntersections(data: map<Keyword, KeywordData>, strategy: Strategy, cluster: seq<Keyword>, j: int)
    requires 0 <= j < |cluster|
    ensures var rows := ClusterRows(data, strategy, cluster);
            var main := MainKeyword(data, strategy, cluster);
            |rows| == |cluster| && rows[j].intersections == |Elems(UrlsIn(data, main)) * Elems(UrlsIn(data, cluster[j]))|
  {
    var main := MainKeyword(data, strategy, cluster);
    MemberRowsAt(data, main, cluster, |cluster|);
    CountInIsIntersection(Elems(UrlsIn(data, main)), UrlsIn(data, cluster[j]));
  }

  /** Row `j` of a cluster shows its keyword's stored volume, cpc, difficulty and intent as
      `data.get(key, default)` does; a keyword the tab holds nothing for shows the defaults. */
  lemma ClusterRowMetrics(data: map<Keyword, KeywordData>, strategy: Strategy, cluster: seq<Keyword>, j: int)
    requires 0 <= j < |cluster|
    ensures var row := ClusterRows(data, strategy, cluster)[j];
            var d := Lookup(data, cluster[j]);
            row.volume == Shown(d.volume, 0) && row.cpc == Shown(d.cpc, 0)
            && row.kd == Shown(d.kd, 101) && row.intent == Shown(d.intent, "N/A")
    ensures var row := ClusterRows(data, strategy, cluster)[j];
            cluster[j] !in data ==> row.volume == Some(0) && row.cpc == Some(0) && row.kd == Some(101) && row.intent == Some("N/A")
  {
    MemberRowsAt(data, MainKeyword(data, strategy, cluster), cluster, |cluster|);
  }

  /** The keyword column of a list of rows. */
  function RowKeywords(rows: seq<Row>): seq<Keyword> {
    if rows == [] then [] else RowKeywords(rows[..|rows| - 1]) + [rows[|rows| - 1].keyword]
  }

  lemma {:induction false} RowKeywordsAppend(a: seq<Row>, b: seq<Row>)
    ensures RowKeywords(a + b) == RowKeywords(a) + RowKeywords(b)
    decreases |b|
  {
    if b == [] {
      assert a + b == a;
    } else {
      var c := b[..|b| - 1];
      assert (a + b)[..|a + b| - 1] == a + c;
      RowKeywordsAppend(a, c);
      AppendAssociative(RowKeywords(a), RowKeywords(c), [b[|b| - 1].keyword]);
    }
  }

  /** The keyword column of a cluster's member rows lists its first `n` members. */
  lemma {:induction false} MemberRowKeywords(data: map<Keyword, KeywordData>, main: Keyword, members: seq<Keyword>, n: int)
    requires 0 <= n <= |members|
    ensures RowKeywords(MemberRows(data, main, members, n)) == members[..n]
  {
    if n > 0 {
      var prev := MemberRows(data, main, members, n - 1);
      var row := RowFor(data, main, members[n - 1]);
      assert MemberRows(data, main, members, n) == prev + [row];
      assert RowKeywords(prev) == members[..n - 1] by {
        MemberRowKeywords(data, main, members, n - 1);
      }
      RowKeywordsPush(prev, row);
      assert members[..n] == members[..n - 1] + [members[n - 1]];
    }
  }

  /** Adding a row adds its keyword. */
  lemma RowKeywordsPush(rows: seq<Row>, row: Row)
    ensures RowKeywords(rows + [row]) == RowKeywords(rows) + [row.keyword]
  {
    assert (rows + [row])[..|rows|] == rows;
  }

  /** Appending the rows of list `n - 1` of `ks` to rows that list the first `n - 1` lists
      gives rows that list the first `n`. */
  lemma RowKeywordsSnoc(before: seq<Row>, rows: seq<Row>, ks: seq<seq<Keyword>>, n: int)
    requires 0 < n <= |ks|
    requires RowKeywords(before) == Concat(ks[..n - 1]) && RowKeywords(rows) == ks[n - 1]
    ensures RowKeywords(before + rows) == Concat(ks[..n])
  {
    RowKeywordsAppend(before, rows);
    ConcatSnoc(ks, n);
  }

  /** The keyword column of a cluster's rows lists its members, in order. */
  lemma {:induction false} ClusterRowKeywords(data: map<Keyword, KeywordData>, strategy: Strategy, cluster: seq<Keyword>)
    ensures RowKeywords(ClusterRows(data, strategy, cluster)) == cluster
  {
    if cluster != [] {
      var main := MainKeyword(data, strategy, cluster);
      assert ClusterRows(data, strategy, cluster) == MemberRows(data, main, cluster, |cluster|);
      MemberRowKeywords(data, main, cluster, |cluster|);
      assert cluster[..|cluster|] == cluster;
    }
  }

  /** The keyword column of the report lists every clustered keyword once, cluster after
      cluster and in each cluster's order: one row per member, none for an empty cluster. */
  lemma {:induction false} ReportKeywords(data: map<Keyword, KeywordData>, strategy: Strategy, clusters: seq<seq<Keyword>>, n: int)
    requires 0 <= n <= |clusters|
    ensures RowKeywords(ReportRows(data, strategy, clusters, n)) == Concat(clusters[..n])
  {
    if n > 0 {
      var before := ReportRows(data, strategy, clusters, n - 1);
      var rows := ClusterRows(data, strategy, clusters[n - 1]);
      assert ReportRows(data, strategy, clusters, n) == before + rows;
      assert RowKeywords(before) == Concat(clusters[..n - 1]) by {
        ReportKeywords(data, strategy, clusters, n - 1);
      }
      assert RowKeywords(rows) == clusters[n - 1] by {
        ClusterRowKeywords(data, strategy, clusters[n - 1]);
      }
      RowKeywordsSnoc(before, rows, clusters, n);
    }
  }

  /** Every row of the report belongs to a non-empty cluster: its keyword is a member and
      its main keyword is that cluster's main keyword. */
  lemma {:induction false} ReportRowOrigin(data: map<Keyword, KeywordData>, strategy: Strategy, clusters: seq<seq<Keyword>>, n: int, r: int)
    requires 0 <= n <= |clusters| && 0 <= r < |ReportRows(data, strategy, clusters, n)|
    ensures exists i :: 0 <= i < n && RowOfCluster(data, strategy, clusters[i], ReportRows(data, strategy, clusters, n)[r])
  {
    var before := ReportRows(data, strategy, clusters, n - 1);
    var rows := ClusterRows(data, strategy, clusters[n - 1]);
    assert ReportRows(data, strategy, clusters, n) == before + rows;
    if r < |before| {
      ReportRowOrigin(data, strategy, clusters, n - 1, r);
      var i :| 0 <= i < n - 1 && RowOfCluster(data, strategy, clusters[i], before[r]);
      assert ReportRows(data, strategy, clusters, n)[r] == before[r];
      assert RowOfCluster(data, strategy, clusters[i], ReportRows(data, strategy, clusters, n)[r]);
    } else {
      var j := r - |before|;
      ClusterRowsSpec(data, strategy, clusters[n - 1], j);
      assert ReportRows(data, strategy, clusters, n)[r] == rows[j];
      assert RowOfCluster(data, strategy, clusters[n - 1], ReportRows(data, strategy, clusters, n)[r]);
    }
  }

  /** `row` belongs to the non-empty `cluster`: its keyword is a member and its main keyword is
      the cluster's. */
  predicate RowOfCluster(data: map<Keyword, KeywordData>, strategy: Strategy, cluster: seq<Keyword>, row: Row) {
    cluster != [] && row.keyword in cluster && row.main == MainKeyword(data, strategy, cluster)
  }

  /** The count of shared URLs does not depend on which of the two keywords is the main one. */
  lemma RowIntersectionsSymmetric(data: map<Keyword, KeywordData>, a: Keyword, b: Keyword)
    ensures RowFor(data, a, b).intersections == RowFor(data, b, a).intersections
  {
    OverlapSymmetric(UrlsIn(data, a), UrlsIn(data, b));
  }

  /** The main keyword's own row counts all its distinct URLs. */
  lemma MainRowIntersections(data: map<Keyword, KeywordData>, main: Keyword)
    ensures RowFor(data, main, main).intersections == |Elems(UrlsIn(data, main))|
  {
    var u := UrlsIn(data, main);
    CountInIsIntersection(Elems(u), u);
    assert Elems(u) * Elems(u) == Elems(u);
  }

  /** With the data the tab gathered, no row counts more shared URLs than `urlsToCheck`. */
  lemma GatheredRowBounded(c: Caches, keywords: seq<Keyword>, urlsToCheck: int, main: Keyword, k: Keyword)
    requires urlsToCheck >= 0
    ensures RowFor(Gathered(c, keywords, urlsToCheck, |keywords|), main, k).intersections <= urlsToCheck
  {
    var data := Gathered(c, keywords, urlsToCheck, |keywords|);
    assert |UrlsIn(data, main)| <= urlsToCheck by {
      GatheredAt(c, keywords, urlsToCheck, |keywords|, main);
      RecordUrls(c, main, urlsToCheck);
    }
    OverlapBounded(UrlsIn(data, main), UrlsIn(data, k));
  }
}
