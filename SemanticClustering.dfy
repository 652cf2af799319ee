/** The table the semantic clustering engine makes of its clusters: clusters arrive as lists
    of positions in the keyword list, and every member of a non-empty cluster becomes a row
    naming the cluster's parent keyword (the one at its lowest position), the member itself
    and the cluster's size. */
module SemanticClustering {
  import opened Wrappers
  import opened Seqs

  /** One row of the table: parent keyword, child keyword and cluster size. */
  datatype ParentRow = ParentRow(parent: string, child: string, size: nat)

  /** A table: its column names and its rows. */
  datatype Table = Table(columns: seq<string>, rows: seq<ParentRow>)

  /** The three columns of the table, in order. */
  const Columns: seq<string> := ["Parent Keyword", "Child Keyword", "Cluster Size"]

  /** Python's `min(cluster)`. */
  function MinOf(cluster: seq<int>): (m: int)
    requires cluster != []
    ensures m in cluster
    ensures forall i :: 0 <= i < |cluster| ==> m <= cluster[i]
  {
    if |cluster| == 1 then cluster[0]
    else
      var rest := MinOf(cluster[1..]);
      assert forall i :: 1 <= i < |cluster| ==> cluster[i] == cluster[1..][i - 1];
      if cluster[0] <= rest then cluster[0] else rest
  }

  /** Every position in `cluster` names a keyword: `keyword_map[i]` raises a KeyError
      otherwise. */
  predicate ValidCluster(keywords: seq<string>, cluster: seq<int>) {
    forall j :: 0 <= j < |cluster| ==> 0 <= cluster[j] < |keywords|
  }

  /** Every one of the first `n` clusters names keywords only. */
  predicate ValidClusters(keywords: seq<string>, clusters: seq<seq<int>>, n: int) {
    forall i :: 0 <= i < n && i < |clusters| ==> ValidCluster(keywords, clusters[i])
  }

  /** The first `m` positions of `cluster` name keywords. */
  predicate ValidPrefix(keywords: seq<string>, cluster: seq<int>, m: int) {
    forall j :: 0 <= j < m && j < |cluster| ==> 0 <= cluster[j] < |keywords|
  }

  /** The rows of the first `m` members of `cluster`, under parent keyword `parent`. */
  function ChildRows(keywords: seq<string>, cluster: seq<int>, parent: string, m: int): (rows: seq<ParentRow>)
    requires 0 <= m <= |cluster| && ValidPrefix(keywords, cluster, m)
    ensures |rows| == m
  {
    if m == 0 then []
    else ChildRows(keywords, cluster, parent, m - 1) + [ParentRow(parent, keywords[cluster[m - 1]], |cluster|)]
  }

  /** The rows of one cluster: none for an empty one. */
  function ClusterRows(keywords: seq<string>, cluster: seq<int>): (rows: seq<ParentRow>)
    requires ValidCluster(keywords, cluster)
    ensures |rows| == |cluster|
  {
    if cluster == [] then [] else ChildRows(keywords, cluster, keywords[MinOf(cluster)], |cluster|)
  }

  /** The rows of the first `n` clusters. */
  function Rows(keywords: seq<string>, clusters: seq<seq<int>>, n: int): seq<ParentRow>
    requires 0 <= n <= |clusters| && ValidClusters(keywords, clusters, n)
  {
    if n == 0 then [] else Rows(keywords, clusters, n - 1) + ClusterRows(keywords, clusters[n - 1])
  }

  /** `format_clusters`: the table of all clusters, or None where Python raises a KeyError
      because a position names no keyword. */
  method FormatClusters(keywords: seq<string>, clusters: seq<seq<int>>) returns (r: Option<Table>)
    ensures r.Some? <==> ValidClusters(keywords, clusters, |clusters|)
    ensures r.Some? ==> r.value == Table(Columns, Rows(keywords, clusters, |clusters|))
  {
    var outputRows := [];
    for i := 0 to |clusters|
      invariant Formatted(keywords, clusters, i, outputRows)
    {
      var extended := AppendClusterRows(keywords, clusters[i], outputRows);
      if extended.None? {
        FormatFails(keywords, clusters, i);
        return None;
      }
      FormatStep(keywords, clusters, i, outputRows, extended.value);
      outputRows := extended.value;
    }
    return Some(Table(Columns, outputRows));
  }

  /** The state of the cluster loop after `i` clusters: they all name keywords, and `rows`
      holds their rows. */
  predicate Formatted(keywords: seq<string>, clusters: seq<seq<int>>, i: int, rows: seq<ParentRow>) {
    0 <= i <= |clusters| && ValidClusters(keywords, clusters, i) && rows == Rows(keywords, clusters, i)
  }

  /** One iteration of the cluster loop: the rows of cluster `i` follow those of the
      clusters before it. */
  lemma FormatStep(keywords: seq<string>, clusters: seq<seq<int>>, i: int, before: seq<ParentRow>, after: seq<ParentRow>)
    requires i < |clusters| && Formatted(keywords, clusters, i, before) && ValidCluster(keywords, clusters[i])
    requires after == before + ClusterRows(keywords, clusters[i])
    ensures Formatted(keywords, clusters, i + 1, after)
  {
  }

  /** A cluster naming no keyword makes the whole table fail. */
  lemma FormatFails(keywords: seq<string>, clusters: seq<seq<int>>, i: int)
    requires 0 <= i < |clusters| && !ValidCluster(keywords, clusters[i])
    ensures !ValidClusters(keywords, clusters, |clusters|)
  {
  }

  /** The body of the cluster loop: nothing for an empty cluster; otherwise the parent at
      the cluster's lowest position and a row per member, or None where a position names no
      keyword. */
  method AppendClusterRows(keywords: seq<string>, cluster: seq<int>, start: seq<ParentRow>)
    returns (r: Option<seq<ParentRow>>)
    ensures r.Some? <==> ValidCluster(keywords, cluster)
    ensures r.Some? ==> r.value == start + ClusterRows(keywords, cluster)
  {
    if cluster == [] {
      return Some(start);
    }
    var parentIndex := MinOf(cluster);
    if !(0 <= parentIndex < |keywords|) {
      return None;
    }
    r := AppendChildRows(keywords, cluster, keywords[parentIndex], start);
  }

  /** The member loop of one cluster: appends a row per member under `parent`, or gives None
      at the first position that names no keyword. */
  method AppendChildRows(keywords: seq<string>, cluster: seq<int>, parent: string, start: seq<ParentRow>)
    returns (r: Option<seq<ParentRow>>)
    ensures r.Some? <==> ValidCluster(keywords, cluster)
    ensures r.Some? ==> r.value == start + ChildRows(keywords, cluster, parent, |cluster|)
  {
    var rows := start;
    for j := 0 to |cluster|
      invariant ValidPrefix(keywords, cluster, j)
      invariant rows == start + ChildRows(keywords, cluster, parent, j)
    {
      var keywordIndex := cluster[j];
      if !(0 <= keywordIndex < |keywords|) {
        return None;
      }
      var row := ParentRow(parent, keywords[keywordIndex], |cluster|);
      assert ValidPrefix(keywords, cluster, j + 1);
      assert ChildRows(keywords, cluster, parent, j + 1) == ChildRows(keywords, cluster, parent, j) + [row];
      AppendAssociative(start, ChildRows(keywords, cluster, parent, j), [row]);
      rows := rows + [row];
    }
    return Some(rows);
  }

  /** Row `k` of a cluster's first `m` rows is member `k` under the given parent. */
  lemma {:induction false} ChildRowsAt(keywords: seq<string>, cluster: seq<int>, parent: string, m: int, k: int)
    requires 0 <= m <= |cluster| && ValidPrefix(keywords, cluster, m) && 0 <= k < m
    ensures ChildRows(keywords, cluster, parent, m)[k] == ParentRow(parent, keywords[cluster[k]], |cluster|)
  {
    if k < m - 1 {
      ChildRowsAt(keywords, cluster, parent, m - 1, k);
    }
  }

  /** One row per member, in the cluster's order: row `k` names the keyword at the cluster's
      lowest position as parent, member `k` as child and the cluster's length as size. */
  lemma ClusterRowsSpec(keywords: seq<string>, cluster: seq<int>, k: int)
    requires ValidCluster(keywords, cluster) && 0 <= k < |cluster|
    ensures ClusterRows(keywords, cluster)[k] == ParentRow(keywords[MinOf(cluster)], keywords[cluster[k]], |cluster|)
  {
    ChildRowsAt(keywords, cluster, keywords[MinOf(cluster)], |cluster|, k);
  }

  /** The parent keyword of a non-empty cluster is also the child of one of its rows. */
  lemma ParentIsChild(keywords: seq<string>, cluster: seq<int>)
    requires ValidCluster(keywords, cluster) && cluster != []
    ensures var rows := ClusterRows(keywords, cluster);
            exists k :: 0 <= k < |rows| && rows[k].child == rows[k].parent
  {
    var k :| 0 <= k < |cluster| && cluster[k] == MinOf(cluster);
    ClusterRowsSpec(keywords, cluster, k);
  }

  /** The summed lengths of the first `n` clusters. */
  function TotalSize(clusters: seq<seq<int>>, n: int): nat
    requires 0 <= n <= |clusters|
  {
    if n == 0 then 0 else TotalSize(clusters, n - 1) + |clusters[n - 1]|
  }

  /** The table has one row per position in the clusters, empty clusters adding none. */
  lemma {:induction false} RowsCount(keywords: seq<string>, clusters: seq<seq<int>>, n: int)
    requires 0 <= n <= |clusters| && ValidClusters(keywords, clusters, n)
    ensures |Rows(keywords, clusters, n)| == TotalSize(clusters, n)
  {
    if n > 0 {
      RowsCount(keywords, clusters, n - 1);
    }
  }

  /** When every cluster is empty the table has no rows. */
  lemma {:induction false} EmptyClustersNoRows(keywords: seq<string>, clusters: seq<seq<int>>, n: int)
    requires 0 <= n <= |clusters| && forall i :: 0 <= i < |clusters| ==> clusters[i] == []
    ensures ValidClusters(keywords, clusters, n) && Rows(keywords, clusters, n) == []
  {
    if n > 0 {
      EmptyClustersNoRows(keywords, clusters, n - 1);
    }
  }

  /** Every row of the table comes from some cluster and one of its members. */
  lemma {:induction false} RowOrigin(keywords: seq<string>, clusters: seq<seq<int>>, n: int, r: int)
    requires 0 <= n <= |clusters| && ValidClusters(keywords, clusters, n)
    requires 0 <= r < |Rows(keywords, clusters, n)|
    ensures exists i, j :: 0 <= i < n && 0 <= j < |clusters[i]|
              && Rows(keywords, clusters, n)[r] == ParentRow(keywords[MinOf(clusters[i])], keywords[clusters[i][j]], |clusters[i]|)
  {
    var before := Rows(keywords, clusters, n - 1);
    var rows := ClusterRows(keywords, clusters[n - 1]);
    assert Rows(keywords, clusters, n) == before + rows;
    if r < |before| {
      RowOrigin(keywords, clusters, n - 1, r);
      var i, j :| 0 <= i < n - 1 && 0 <= j < |clusters[i]|
                  && before[r] == ParentRow(keywords[MinOf(clusters[i])], keywords[clusters[i][j]], |clusters[i]|);
      assert Rows(keywords, clusters, n)[r] == before[r];
    } else {
      var j := r - |before|;
      ClusterRowsSpec(keywords, clusters[n - 1], j);
      assert Rows(keywords, clusters, n)[r] == rows[j];
    }
  }

}
