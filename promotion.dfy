/**
 * Promotion of registered models to the Production or Staging stage
 * (`load_prod_model.load_production_model`).
 *
 * The experiment tracker's runs are plain data here: each run is the map from
 * a metric column (`"metrics.<name>-best_score"`) to the value that run logged.
 * The registry is a `Registry` object whose stage map the promotion updates
 * one model version at a time.
 */
module Promotion {
  import opened Wrappers
  import opened Text
  import ModelUtils

  /** The clustering model's registered name; it never gets a metric column. */
  const KMeans: string := ModelUtils.KMeans
  const MetricPrefix: string := "metrics."
  const MetricSuffix: string := "-best_score"

  /** The exceptions promotion can raise before it touches the registry. */
  datatype Fault =
    | MissingMetricColumn(column: string)  // `runs[cols]`: KeyError, no run logged that metric
    | NoColumnForCluster(cluster: nat)     // `max([])`: ValueError
    | NoDotInColumn(column: string)        // `split(".")[1]`: IndexError

  type Run = map<string, real>

  function MetricColumn(model: string): string {
    MetricPrefix + model + MetricSuffix
  }

  lemma MetricColumnInjective(a: string, b: string)
    requires MetricColumn(a) == MetricColumn(b)
    ensures a == b
  {
    var ca, cb := MetricColumn(a), MetricColumn(b);
    assert |a| == |b|;
    assert a == ca[|MetricPrefix|..|MetricPrefix| + |a|];
    assert b == cb[|MetricPrefix|..|MetricPrefix| + |b|];
  }

  /** `["metrics." + m + "-best_score" for m in names if m != "KMeans"]`. */
  function MetricColumns(names: seq<string>): (cols: seq<string>)
    decreases |names|
  {
    if |names| == 0 then []
    else if names[0] == KMeans then MetricColumns(names[1..])
    else [MetricColumn(names[0])] + MetricColumns(names[1..])
  }

  /** How many times "KMeans" is registered. */
  function KMeansCount(names: seq<string>): nat
    decreases |names|
  {
    if |names| == 0 then 0 else (if names[0] == KMeans then 1 else 0) + KMeansCount(names[1..])
  }

  /**
   * Every column is the metric column of a registered name other than KMeans,
   * every such name has its column, KMeans never has one, and there is one
   * column per non-KMeans name.
   */
  lemma {:induction false} MetricColumnsExact(names: seq<string>)
    ensures |MetricColumns(names)| == |names| - KMeansCount(names)
    ensures forall c :: c in MetricColumns(names) ==>
      exists m :: m in names && m != KMeans && c == MetricColumn(m)
    ensures forall m :: m in names ==> (MetricColumn(m) in MetricColumns(names) <==> m != KMeans)
    decreases |names|
  {
    if |names| > 0 {
      MetricColumnsExact(names[1..]);
      var cols := MetricColumns(names);
      assert forall m :: m in names ==> m == names[0] || m in names[1..];
      forall m | m in names && MetricColumn(m) in cols
        ensures m != KMeans
      {
        if m == KMeans {
          var n :| n in names && n != KMeans && MetricColumn(m) == MetricColumn(n)
            by {
              if names[0] != KMeans && MetricColumn(m) == MetricColumn(names[0]) {
              } else {
                assert MetricColumn(m) in MetricColumns(names[1..]);
              }
            }
          MetricColumnInjective(m, n);
        }
      }
    }
  }

  /** The metric columns keep the registry's order: the k-th column belongs to the k-th non-KMeans name. */
  lemma {:induction false} MetricColumnsOrder(names: seq<string>, i: nat, j: nat)
    requires i < j < |names| && names[i] != KMeans && names[j] != KMeans
    ensures exists p, q :: (0 <= p < q < |MetricColumns(names)|
      && MetricColumns(names)[p] == MetricColumn(names[i])
      && MetricColumns(names)[q] == MetricColumn(names[j]))
    decreases |names|
  {
    var cols := MetricColumns(names);
    var tail := MetricColumns(names[1..]);
    if i == 0 {
      MetricColumnsExact(names[1..]);
      assert names[j] == names[1..][j - 1];
      assert names[j] in names[1..];
      assert MetricColumn(names[j]) in tail;
      var q :| 0 <= q < |tail| && tail[q] == MetricColumn(names[j]);
      assert cols[0] == MetricColumn(names[0]) && cols[q + 1] == tail[q];
    } else {
      MetricColumnsOrder(names[1..], i - 1, j - 1);
      var p, q :| 0 <= p < q < |tail| && tail[p] == MetricColumn(names[i]) && tail[q] == MetricColumn(names[j]);
      if names[0] == KMeans {
        assert cols == tail;
      } else {
        assert cols[p + 1] == tail[p] && cols[q + 1] == tail[q];
      }
    }
  }

  /** Whether some run logged `col`: only then does `runs[cols]` find the column. */
  predicate Logged(col: string, runs: seq<Run>) {
    exists k :: 0 <= k < |runs| && col in runs[k]
  }

  /** `runs[col].max()`: the largest value any run logged for `col` (runs without it are skipped). */
  function ColumnMax(col: string, runs: seq<Run>): (r: real)
    requires Logged(col, runs)
    ensures exists k :: 0 <= k < |runs| && col in runs[k] && runs[k][col] == r
    ensures forall k :: 0 <= k < |runs| && col in runs[k] ==> runs[k][col] <= r
    decreases |runs|
  {
    if !Logged(col, runs[1..]) then
      assert forall k :: 1 <= k < |runs| ==> col !in runs[k] by {
        forall k | 1 <= k < |runs| ensures col !in runs[k] {
          assert runs[k] == runs[1..][k - 1];
        }
      }
      runs[0][col]
    else
      var rest := ColumnMax(col, runs[1..]);
      var k :| 0 <= k < |runs| - 1 && col in runs[1..][k] && runs[1..][k][col] == rest;
      assert runs[k + 1] == runs[1..][k];
      forall j | 1 <= j < |runs| && col in runs[j] ensures runs[j][col] <= rest {
        assert runs[j] == runs[1..][j - 1];
      }
      if col in runs[0] && runs[0][col] > rest then runs[0][col] else rest
  }

  /** Scores sorted from highest to lowest, as `sort_values(ascending=False)` leaves them. */
  predicate SortedDescending(d: seq<(string, real)>) {
    forall i, j :: 0 <= i < j < |d| ==> d[i].1 >= d[j].1
  }

  function InsertDescending(x: (string, real), d: seq<(string, real)>): (r: seq<(string, real)>)
    requires SortedDescending(d)
    ensures SortedDescending(r)
    ensures multiset(r) == multiset(d) + multiset{x}
    decreases |d|
  {
    if |d| == 0 then [x]
    else if x.1 >= d[0].1 then [x] + d
    else
      var rest := InsertDescending(x, d[1..]);
      HeadAboveInserted(x, d, rest);
      [d[0]] + rest
  }

  /** The head of a sorted list scores at least as high as its tail with a lower-scoring entry added. */
  lemma HeadAboveInserted(x: (string, real), d: seq<(string, real)>, rest: seq<(string, real)>)
    requires SortedDescending(d) && |d| > 0 && x.1 < d[0].1
    requires SortedDescending(rest) && multiset(rest) == multiset(d[1..]) + multiset{x}
    ensures SortedDescending([d[0]] + rest)
    ensures multiset([d[0]] + rest) == multiset(d) + multiset{x}
  {
    assert d == [d[0]] + d[1..];
    forall j | 0 <= j < |rest| ensures d[0].1 >= rest[j].1 {
      assert rest[j] in multiset(rest);
      if rest[j] != x {
        assert rest[j] in multiset(d[1..]);
        var k :| 0 <= k < |d[1..]| && d[1..][k] == rest[j];
        assert d[k + 1] == rest[j];
      }
    }
  }

  /** One order `sort_values(ascending=False)` may produce (ties may come out in any order). */
  function SortDescending(d: seq<(string, real)>): (r: seq<(string, real)>)
    ensures SortedDescending(r)
    ensures multiset(r) == multiset(d)
    decreases |d|
  {
    if |d| == 0 then []
    else
      assert d == [d[0]] + d[1..];
      InsertDescending(d[0], SortDescending(d[1..]))
  }

  function PairsWithMax(cols: seq<string>, runs: seq<Run>): seq<(string, real)>
    requires forall c :: c in cols ==> Logged(c, runs)
  {
    seq(|cols|, k requires 0 <= k < |cols| => (cols[k], ColumnMax(cols[k], runs)))
  }

  /**
   * `runs[cols].max().sort_values(ascending=False).to_dict()`, as the list of
   * its entries in the dictionary's order.
   */
  function MetricsDict(cols: seq<string>, runs: seq<Run>): (r: Result<seq<(string, real)>, Fault>)
  {
    match FirstUnlogged(cols, runs)
    case Some(c) => Fail(MissingMetricColumn(c))
    case None => Ok(SortDescending(PairsWithMax(cols, runs)))
  }

  /** The first column no run logged: the one `runs[cols]` reports. */
  function FirstUnlogged(cols: seq<string>, runs: seq<Run>): (r: Option<string>)
    ensures r.None? <==> forall c :: c in cols ==> Logged(c, runs)
    ensures r.Some? ==> r.value in cols && !Logged(r.value, runs)
    decreases |cols|
  {
    if |cols| == 0 then None
    else if !Logged(cols[0], runs) then Some(cols[0])
    else
      assert forall c :: c in cols <==> c == cols[0] || c in cols[1..];
      FirstUnlogged(cols[1..], runs)
  }

  /** The dictionary lists each column once per occurrence in `cols`, with that column's maximum, highest first. */
  lemma MetricsDictShape(cols: seq<string>, runs: seq<Run>)
    ensures MetricsDict(cols, runs).Fail? <==> exists c :: c in cols && !Logged(c, runs)
    ensures MetricsDict(cols, runs).Ok? ==>
      var d := MetricsDict(cols, runs).value;
      && SortedDescending(d)
      && |d| == |cols|
      && (forall e :: e in d ==> e.0 in cols && Logged(e.0, runs) && e.1 == ColumnMax(e.0, runs))
      && (forall c :: c in cols ==> exists e :: e in d && e.0 == c)
  {
    if MetricsDict(cols, runs).Ok? {
      var pairs := PairsWithMax(cols, runs);
      var d := MetricsDict(cols, runs).value;
      assert multiset(d) == multiset(pairs);
      assert |d| == |multiset(d)| == |multiset(pairs)| == |pairs|;
      forall e | e in d ensures e.0 in cols && Logged(e.0, runs) && e.1 == ColumnMax(e.0, runs) {
        assert e in multiset(pairs);
      }
      forall c | c in cols ensures exists e :: e in d && e.0 == c {
        var k :| 0 <= k < |cols| && cols[k] == c;
        assert pairs[k] in multiset(d);
      }
    }
  }

  /** The dictionary's keys that contain `str(i)`: `[file for file in metrics_dict if str(i) in file]`. */
  function MatchingColumns(keys: seq<string>, token: string): (r: seq<string>)
    ensures forall k :: k in r <==> k in keys && Contains(k, token)
    decreases |keys|
  {
    if |keys| == 0 then []
    else
      var rest := MatchingColumns(keys[1..], token);
      assert forall k :: k in keys <==> k == keys[0] || k in keys[1..];
      if Contains(keys[0], token) then [keys[0]] + rest else rest
  }

  function Keys(d: seq<(string, real)>): (ks: seq<string>)
    ensures |ks| == |d|
    ensures forall k :: k in ks <==> exists e :: e in d && e.0 == k
  {
    var ks := seq(|d|, i requires 0 <= i < |d| => d[i].0);
    assert forall e :: e in d ==> ks[IndexOf(d, e)] == e.0;
    ks
  }

  function IndexOf<T(==)>(s: seq<T>, x: T): (i: nat)
    requires x in s
    ensures i < |s| && s[i] == x
  {
    if s[0] == x then 0 else 1 + IndexOf(s[1..], x)
  }

  /**
   * `max([(file, metrics_dict[file])[0] for file in metrics_dict if str(i) in file])`:
   * the tuple's first component is the column name, so `max` ranks names.
   */
  function BestColumn(i: nat, d: seq<(string, real)>): Result<string, Fault> {
    var matching := MatchingColumns(Keys(d), NatToString(i));
    if |matching| == 0 then Fail(NoColumnForCluster(i)) else Ok(MaxString(matching))
  }

  /**
   * The pick for cluster `i` fails exactly when no column name contains
   * `str(i)`; otherwise it is the lexicographically greatest such name.
   */
  lemma BestColumnSpec(i: nat, d: seq<(string, real)>)
    ensures BestColumn(i, d).Fail? <==> forall e :: e in d ==> !Contains(e.0, NatToString(i))
    ensures BestColumn(i, d).Ok? ==>
      var c := BestColumn(i, d).value;
      && (exists e :: e in d && e.0 == c)
      && Contains(c, NatToString(i))
      && forall e :: e in d && Contains(e.0, NatToString(i)) ==> LexLe(e.0, c)
  {
    var matching := MatchingColumns(Keys(d), NatToString(i));
    if |matching| == 0 {
      forall e | e in d ensures !Contains(e.0, NatToString(i)) {
        assert e.0 in Keys(d);
      }
    } else {
      var m := matching[0];
      assert m in matching;
      forall e | e in d && Contains(e.0, NatToString(i)) ensures LexLe(e.0, MaxString(matching)) {
        assert e.0 in Keys(d);
      }
    }
  }

  /** Scores never influence the pick: dictionaries with the same column names pick the same column. */
  lemma PickIgnoresScores(i: nat, d1: seq<(string, real)>, d2: seq<(string, real)>)
    requires forall c :: c in Keys(d1) <==> c in Keys(d2)
    ensures BestColumn(i, d1) == BestColumn(i, d2)
  {
    var t := NatToString(i);
    var m1 := MatchingColumns(Keys(d1), t);
    var m2 := MatchingColumns(Keys(d2), t);
    assert forall k :: k in m1 <==> k in m2;
    if |m1| > 0 {
      assert m1[0] in m2;
      MaxStringBySet(m1, m2);
    }
  }

  /**
   * A list comprehension over picks that may raise: evaluated left to right,
   * the first failing pick's fault, else every pick's value in order.
   */
  function Collect(picks: seq<Result<string, Fault>>): Result<seq<string>, Fault>
    decreases |picks|
  {
    if |picks| == 0 then Ok([])
    else
      match Collect(picks[..|picks| - 1])
      case Fail(e) => Fail(e)
      case Ok(prev) =>
        match picks[|picks| - 1]
        case Fail(e) => Fail(e)
        case Ok(c) => Ok(prev + [c])
  }

  /**
   * The comprehension succeeds exactly when every pick does, and then holds
   * the picks' values in order; otherwise it raises the first failure.
   */
  lemma {:induction false} CollectSpec(picks: seq<Result<string, Fault>>)
    ensures Collect(picks).Ok? <==> forall i :: 0 <= i < |picks| ==> picks[i].Ok?
    ensures Collect(picks).Ok? ==>
      |Collect(picks).value| == |picks| && forall i :: 0 <= i < |picks| ==> picks[i] == Ok(Collect(picks).value[i])
    ensures Collect(picks).Fail? ==>
      exists i :: 0 <= i < |picks| && picks[i].Fail? && Collect(picks) == Fail(picks[i].error) && forall j :: 0 <= j < i ==> picks[j].Ok?
    decreases |picks|
  {
    if |picks| > 0 {
      var n := |picks| - 1;
      var init := picks[..n];
      CollectSpec(init);
      assert forall i :: 0 <= i < n ==> init[i] == picks[i];
      if Collect(init).Ok? && picks[n].Ok? {
        var prev := Collect(init).value;
        var cs := prev + [picks[n].value];
        assert Collect(picks) == Ok(cs);
        forall i | 0 <= i <= n ensures picks[i] == Ok(cs[i]) {
          if i < n { assert cs[i] == prev[i]; }
        }
      } else if Collect(init).Ok? {
        assert Collect(picks) == Fail(picks[n].error);
      } else {
        assert Collect(picks) == Collect(init);
        var i :| 0 <= i < n && init[i].Fail? && Collect(init) == Fail(init[i].error) && forall j :: 0 <= j < i ==> init[j].Ok?;
        assert picks[i] == init[i];
      }
    }
  }

  /** `[max(...) for i in range(0, num_clusters)]`: the first cluster without a column raises. */
  function BestColumns(numClusters: nat, d: seq<(string, real)>): (r: Result<seq<string>, Fault>)
  {
    Collect(ClusterPicks(numClusters, d))
  }

  /** Each cluster's pick, in cluster order. */
  function ClusterPicks(numClusters: nat, d: seq<(string, real)>): (picks: seq<Result<string, Fault>>)
    ensures |picks| == numClusters && forall i :: 0 <= i < numClusters ==> picks[i] == BestColumn(i, d)
  {
    seq(numClusters, i requires 0 <= i < numClusters => BestColumn(i, d))
  }

  /**
   * Selection succeeds exactly when every cluster index below `numClusters`
   * occurs in some column name, and then the i-th entry is cluster i's pick.
   */
  lemma BestColumnsSpec(numClusters: nat, d: seq<(string, real)>)
    ensures BestColumns(numClusters, d).Ok? <==> forall i :: 0 <= i < numClusters ==> BestColumn(i, d).Ok?
    ensures BestColumns(numClusters, d).Ok? ==>
      var cs := BestColumns(numClusters, d).value;
      && |cs| == numClusters
      && forall i :: 0 <= i < numClusters ==> BestColumn(i, d) == Ok(cs[i])
  {
    CollectSpec(ClusterPicks(numClusters, d));
  }

  /** `mn.split(".")[1].split("-")[0]`. */
  function ModelNameOf(column: string): Result<string, Fault> {
    var parts := Split(column, '.');
    if |parts| < 2 then Fail(NoDotInColumn(column)) else Ok(Split(parts[1], '-')[0])
  }

  /** The extraction undoes `MetricColumn` for any name without `.` or `-`. */
  lemma ModelNameRoundTrip(m: string)
    requires '.' !in m && '-' !in m
    ensures ModelNameOf(MetricColumn(m)) == Ok(m)
  {
    var rest := m + MetricSuffix;
    assert MetricColumn(m) == "metrics" + ['.'] + rest;
    SplitAtFirst("metrics", '.', rest);
    assert '.' !in rest by {
      forall k | 0 <= k < |rest| ensures rest[k] != '.' {
        if k < |m| { assert rest[k] == m[k]; } else { assert rest[k] == MetricSuffix[k - |m|]; }
      }
    }
    SplitNoSeparator(rest, '.');
    assert rest == m + ['-'] + "best_score";
    SplitAtFirst(m, '-', "best_score");
  }

  /** `top_mn_lst`: the model name extracted from each cluster's column, in cluster order. */
  function ModelNames(columns: seq<string>): Result<seq<string>, Fault>
    decreases |columns|
  {
    if |columns| == 0 then Ok([])
    else
      match ModelNameOf(columns[0])
      case Fail(e) => Fail(e)
      case Ok(n) =>
        match ModelNames(columns[1..])
        case Fail(e) => Fail(e)
        case Ok(rest) => Ok([n] + rest)
  }

  lemma {:induction false} ModelNamesOfMetricColumns(columns: seq<string>, models: seq<string>)
    requires |columns| == |models|
    requires forall k :: 0 <= k < |columns| ==> columns[k] == MetricColumn(models[k])
    requires forall k :: 0 <= k < |models| ==> '.' !in models[k] && '-' !in models[k]
    ensures ModelNames(columns) == Ok(models)
    decreases |columns|
  {
    if |columns| > 0 {
      ModelNameRoundTrip(models[0]);
      ModelNamesOfMetricColumns(columns[1..], models[1..]);
      assert models == [models[0]] + models[1..];
    }
  }

  /** Everything `load_production_model` computes before the first registry call. */
  function TopModelNames(registered: seq<string>, runs: seq<Run>, numClusters: nat): Result<seq<string>, Fault> {
    match MetricsDict(MetricColumns(registered), runs)
    case Fail(e) => Fail(e)
    case Ok(d) =>
      match BestColumns(numClusters, d)
      case Fail(e) => Fail(e)
      case Ok(cs) => ModelNames(cs)
  }

  /**
   * `m` wins cluster `i` as the source decides it: its column contains `str(i)`
   * and no other registered column containing `str(i)` has a greater name.
   */
  ghost predicate ClusterWinner(i: nat, registered: seq<string>, m: string) {
    && m in registered && m != KMeans
    && Contains(MetricColumn(m), NatToString(i))
    && forall n :: n in registered && n != KMeans && Contains(MetricColumn(n), NatToString(i)) ==>
         LexLe(MetricColumn(n), MetricColumn(m))
  }

  /** Some registered column other than KMeans's contains `str(i)`. */
  ghost predicate ClusterCovered(i: nat, registered: seq<string>) {
    exists n :: n in registered && n != KMeans && Contains(MetricColumn(n), NatToString(i))
  }

  /** The dictionary's keys are exactly the metric columns of the registered models other than KMeans. */
  ghost predicate KeysAreColumns(d: seq<(string, real)>, registered: seq<string>) {
    forall c :: c in Keys(d) <==> exists m :: m in registered && m != KMeans && c == MetricColumn(m)
  }

  /** Every entry of the dictionary is a logged column with its best score. */
  ghost predicate ScoresAreMaxima(d: seq<(string, real)>, runs: seq<Run>) {
    forall e :: e in d ==> Logged(e.0, runs) && e.1 == ColumnMax(e.0, runs)
  }

  /** When every registered column was logged, the dictionary's keys are exactly those columns. */
  lemma DictOfRegistered(registered: seq<string>, runs: seq<Run>) returns (d: seq<(string, real)>)
    requires forall m :: m in registered && m != KMeans ==> Logged(MetricColumn(m), runs)
    ensures MetricsDict(MetricColumns(registered), runs) == Ok(d)
    ensures KeysAreColumns(d, registered)
    ensures ScoresAreMaxima(d, runs)
  {
    var cols := MetricColumns(registered);
    MetricColumnsExact(registered);
    MetricsDictShape(cols, runs);
    d := MetricsDict(cols, runs).value;
  }

  lemma WinnerOfCluster(i: nat, registered: seq<string>, d: seq<(string, real)>) returns (m: string)
    requires KeysAreColumns(d, registered)
    requires ClusterCovered(i, registered)
    ensures BestColumn(i, d) == Ok(MetricColumn(m))
    ensures ClusterWinner(i, registered, m)
  {
    BestColumnSpec(i, d);
    var n :| n in registered && n != KMeans && Contains(MetricColumn(n), NatToString(i));
    assert MetricColumn(n) in Keys(d);
    var c := BestColumn(i, d).value;
    assert c in Keys(d);
    m :| m in registered && m != KMeans && c == MetricColumn(m);
    forall n | n in registered && n != KMeans && Contains(MetricColumn(n), NatToString(i))
      ensures LexLe(MetricColumn(n), MetricColumn(m))
    {
      assert MetricColumn(n) in Keys(d);
    }
  }

  lemma {:induction false} WinnersOfClusters(numClusters: nat, registered: seq<string>, d: seq<(string, real)>)
    returns (models: seq<string>)
    requires KeysAreColumns(d, registered)
    requires forall i :: 0 <= i < numClusters ==> ClusterCovered(i, registered)
    ensures |models| == numClusters
    ensures forall i :: 0 <= i < numClusters ==>
      BestColumn(i, d) == Ok(MetricColumn(models[i])) && ClusterWinner(i, registered, models[i])
    decreases numClusters
  {
    if numClusters == 0 {
      models := [];
    } else {
      var n := numClusters - 1;
      var prev := WinnersOfClusters(n, registered, d);
      assert ClusterCovered(n, registered);
      var m := WinnerOfCluster(n, registered, d);
      models := prev + [m];
      forall i | 0 <= i < numClusters
        ensures BestColumn(i, d) == Ok(MetricColumn(models[i])) && ClusterWinner(i, registered, models[i])
      {
        if i < n { assert models[i] == prev[i]; }
      }
    }
  }

  /**
   * With names free of `.` and `-`, every registered column logged by some
   * run, and each cluster index occurring in some column, promotion's top list
   * holds, for each cluster, the registered name whose column is the greatest
   * name containing that index.
   */
  lemma TopModelNamesSpec(registered: seq<string>, runs: seq<Run>, numClusters: nat)
    requires forall m :: m in registered ==> '.' !in m && '-' !in m
    requires forall m :: m in registered && m != KMeans ==> Logged(MetricColumn(m), runs)
    requires forall i :: 0 <= i < numClusters ==> ClusterCovered(i, registered)
    ensures TopModelNames(registered, runs, numClusters).Ok?
    ensures var top := TopModelNames(registered, runs, numClusters).value;
      |top| == numClusters && forall i :: 0 <= i < numClusters ==> ClusterWinner(i, registered, top[i])
  {
    var d := DictOfRegistered(registered, runs);
    var models := WinnersOfClusters(numClusters, registered, d);
    BestColumnsSpec(numClusters, d);
    var cs := BestColumns(numClusters, d).value;
    ModelNamesOfMetricColumns(cs, models);
  }

  /** Promotion gets past the selection exactly when every cluster index occurs in some registered column. */
  lemma TopModelNamesFails(registered: seq<string>, runs: seq<Run>, numClusters: nat)
    requires forall m :: m in registered ==> '.' !in m && '-' !in m
    requires forall m :: m in registered && m != KMeans ==> Logged(MetricColumn(m), runs)
    ensures TopModelNames(registered, runs, numClusters).Ok? <==>
      forall i :: 0 <= i < numClusters ==> ClusterCovered(i, registered)
  {
    if forall i :: 0 <= i < numClusters ==> ClusterCovered(i, registered) {
      TopModelNamesSpec(registered, runs, numClusters);
    } else {
      var i :| 0 <= i < numClusters && !ClusterCovered(i, registered);
      var d := DictOfRegistered(registered, runs);
      BestColumnsSpec(numClusters, d);
      UncoveredFails(i, registered, d);
    }
  }

  /** A cluster index no registered column contains has no pick. */
  lemma UncoveredFails(i: nat, registered: seq<string>, d: seq<(string, real)>)
    requires KeysAreColumns(d, registered) && !ClusterCovered(i, registered)
    ensures BestColumn(i, d).Fail?
  {
    BestColumnSpec(i, d);
    forall e | e in d ensures !Contains(e.0, NatToString(i)) {
      assert e.0 in Keys(d);
    }
  }

  /** A cluster has at most one winner. */
  lemma WinnerUnique(i: nat, registered: seq<string>, m1: string, m2: string)
    requires ClusterWinner(i, registered, m1) && ClusterWinner(i, registered, m2)
    ensures m1 == m2
  {
    LexLeAntisymmetric(MetricColumn(m1), MetricColumn(m2));
    MetricColumnInjective(m1, m2);
  }

  /** A model name's occurrences carry over to its metric column. */
  lemma ContainsInColumn(m: string, t: string)
    requires Contains(m, t)
    ensures Contains(MetricColumn(m), t)
  {
    var j := ContainsWitness(m, t);
    var c := MetricColumn(m);
    assert c[|MetricPrefix| + j..|MetricPrefix| + j + |t|] == m[j..j + |t|];
    ContainsAt(c, t, |MetricPrefix| + j);
  }

  /** Metric columns are ordered by their model names' first difference. */
  lemma ColumnsOrderedAt(a: string, b: string, k: nat)
    requires k < |a| && k < |b| && a[..k] == b[..k] && a[k] < b[k]
    ensures LexLe(MetricColumn(a), MetricColumn(b)) && !LexLe(MetricColumn(b), MetricColumn(a))
  {
    var ca, cb := MetricColumn(a), MetricColumn(b);
    var p := |MetricPrefix|;
    assert ca[..p + k] == MetricPrefix + a[..k];
    assert cb[..p + k] == MetricPrefix + b[..k];
    LexLeAt(ca, cb, p + k);
  }

  /**
   * A name extended by a character above `-` has the greater column: the
   * column of `m` continues with `-best_score` where the longer one continues
   * with that character.
   */
  lemma ExtendedNameSortsLater(m: string, c: char)
    requires c > '-'
    ensures LexLe(MetricColumn(m), MetricColumn(m + [c])) && !LexLe(MetricColumn(m + [c]), MetricColumn(m))
  {
    var ca, cb := MetricColumn(m), MetricColumn(m + [c]);
    var k := |MetricPrefix| + |m|;
    assert ca[..k] == MetricPrefix + m == cb[..k];
    assert ca[k] == '-' && cb[k] == c;
    LexLeAt(ca, cb, k);
  }

  /**
   * Substring matching lets a two-digit cluster's model win a one-digit
   * cluster: with a family's models for clusters 1 and 10 registered, the
   * column of `<family>10` also contains "1" and sorts after the column of
   * `<family>1`, so both clusters 0 and 1 pick `<family>10` and the cluster-1
   * model is staged rather than promoted.
   */
  lemma SubstringMatchHazard(family: string, runs: seq<Run>)
    requires '0' !in family && '.' !in family && '-' !in family && family + "1" != KMeans
    requires Logged(MetricColumn(family + "1"), runs) && Logged(MetricColumn(family + "10"), runs)
    ensures var top := [family + "10", family + "10"];
      && TopModelNames([KMeans, family + "1", family + "10"], runs, 2) == Ok(top)
      && StageFor(family + "1", top) == Staging
  {
    var one, ten := family + "1", family + "10";
    HazardTop(family, runs);
    assert |one| != |ten|;
    assert one !in [ten, ten];
  }

  /** The top list of the hazard: `<family>10` for both clusters. */
  lemma HazardTop(family: string, runs: seq<Run>)
    requires '0' !in family && '.' !in family && '-' !in family && family + "1" != KMeans
    requires Logged(MetricColumn(family + "1"), runs) && Logged(MetricColumn(family + "10"), runs)
    ensures TopModelNames([KMeans, family + "1", family + "10"], runs, 2) == Ok([family + "10", family + "10"])
  {
    var ten := family + "10";
    var registered := [KMeans, family + "1", ten];
    TenWinsBoth(family);
    HazardPremises(family, runs);
    TopModelNamesSpec(registered, runs, 2);
    var top := TopModelNames(registered, runs, 2).value;
    TwoWinners(registered, ten, top);
  }

  /** The hazard meets the conditions of `TopModelNamesSpec` for two clusters. */
  lemma HazardPremises(family: string, runs: seq<Run>)
    requires '.' !in family && '-' !in family
    requires ClusterWinner(0, [KMeans, family + "1", family + "10"], family + "10")
    requires ClusterWinner(1, [KMeans, family + "1", family + "10"], family + "10")
    requires Logged(MetricColumn(family + "1"), runs) && Logged(MetricColumn(family + "10"), runs)
    ensures var registered := [KMeans, family + "1", family + "10"];
      && (forall m :: m in registered ==> '.' !in m && '-' !in m)
      && (forall m :: m in registered && m != KMeans ==> Logged(MetricColumn(m), runs))
      && (forall i :: 0 <= i < 2 ==> ClusterCovered(i, registered))
  {
    var registered := [KMeans, family + "1", family + "10"];
    HazardNames(family);
    assert forall m :: m in registered ==> m == KMeans || m == family + "1" || m == family + "10";
    assert ClusterCovered(0, registered) && ClusterCovered(1, registered);
  }

  /** When one model wins both clusters, the two-cluster top list names it twice. */
  lemma TwoWinners(registered: seq<string>, m: string, top: seq<string>)
    requires ClusterWinner(0, registered, m) && ClusterWinner(1, registered, m)
    requires |top| == 2 && forall i :: 0 <= i < 2 ==> ClusterWinner(i, registered, top[i])
    ensures top == [m, m]
  {
    assert ClusterWinner(0, registered, top[0]) && ClusterWinner(1, registered, top[1]);
    WinnerUnique(0, registered, top[0], m);
    WinnerUnique(1, registered, top[1], m);
  }

  /** The hazard's registered names hold no `.` or `-`. */
  lemma HazardNames(family: string)
    requires '.' !in family && '-' !in family
    ensures forall m :: m in [KMeans, family + "1", family + "10"] ==> '.' !in m && '-' !in m
  {
    assert forall m :: m in [KMeans, family + "1", family + "10"] ==> m == KMeans || m == family + "1" || m == family + "10";
  }

  lemma TenWinsBoth(family: string)
    requires '0' !in family && family + "1" != KMeans
    ensures ClusterWinner(0, [KMeans, family + "1", family + "10"], family + "10")
    ensures ClusterWinner(1, [KMeans, family + "1", family + "10"], family + "10")
  {
    var one, ten := family + "1", family + "10";
    var registered := [KMeans, one, ten];
    assert ten == one + ['0'];
    assert ten != KMeans by {
      assert |ten| != |KMeans| || ten[|ten| - 1] != KMeans[|KMeans| - 1];
    }
    assert ten in registered && registered[2] == ten;
    assert forall n :: n in registered ==> n == KMeans || n == one || n == ten;
    TenColumnContains(family);
    OneColumnLacksZero(family);
    ExtendedNameSortsLater(one, '0');
    LexLeReflexive(MetricColumn(ten));
  }

  lemma TenColumnContains(family: string)
    ensures Contains(MetricColumn(family + "10"), NatToString(0))
    ensures Contains(MetricColumn(family + "10"), NatToString(1))
  {
    var ten := family + "10";
    assert NatToString(0) == "0" && NatToString(1) == "1";
    assert ten[|family|..|family| + 1] == "1" && ten[|family| + 1..|family| + 2] == "0";
    ContainsAt(ten, "1", |family|);
    ContainsAt(ten, "0", |family| + 1);
    ContainsInColumn(ten, "1");
    ContainsInColumn(ten, "0");
  }

  lemma OneColumnLacksZero(family: string)
    requires '0' !in family
    ensures !Contains(MetricColumn(family + "1"), NatToString(0))
  {
    var c := MetricColumn(family + "1");
    assert NatToString(0) == "0";
    assert c == MetricPrefix + family + "1" + MetricSuffix;
    assert forall k :: 0 <= k < |c| ==> c[k] != '0';
    NotContainsChar(c, "0");
  }

  /**
   * As written, `max` compares column names, so between two models matching
   * cluster `i` the one whose name sorts later wins whatever the scores: with
   * `a` scoring higher, `b` is still picked.
   */
  lemma NameRankingCounterexample(i: nat, a: string, b: string, sa: real, sb: real)
    requires Contains(a, NatToString(i)) && Contains(b, NatToString(i))
    requires |a| > 0 && |b| > 0 && a[0] < b[0]
    ensures BestColumn(i, [(MetricColumn(a), sa), (MetricColumn(b), sb)]) == Ok(MetricColumn(b))
  {
    var d := [(MetricColumn(a), sa), (MetricColumn(b), sb)];
    ContainsInColumn(b, NatToString(i));
    assert d[1] in d;
    BestColumnSpec(i, d);
    ColumnsOrderedAt(a, b, 0);
    var c := BestColumn(i, d).value;
    var e :| e in d && e.0 == c;
  }

  /** The boosted model scoring 0.9 on cluster 0 loses to the random forest scoring 0.3. */
  lemma NameRankingExample(a: string, b: string)
    requires a == "AdaBoostClassifier0" && b == "RandomForestClassifier0"
    ensures BestColumn(0, [(MetricColumn(a), 0.9), (MetricColumn(b), 0.3)]) == Ok(MetricColumn(b))
  {
    assert NatToString(0) == "0";
    ContainsAt(a, "0", 18);
    ContainsAt(b, "0", 22);
    NameRankingCounterexample(0, a, b, 0.9, 0.3);
  }

  /**
   * The evidently intended pick: among the entries whose column contains
   * `str(i)`, one with the highest score.
   */
  function BestScoringColumn(i: nat, d: seq<(string, real)>): (r: Result<string, Fault>)
    ensures r.Fail? <==> forall e :: e in d ==> !Contains(e.0, NatToString(i))
    ensures r.Ok? ==> exists e :: (e in d && e.0 == r.value && Contains(e.0, NatToString(i))
      && forall f :: f in d && Contains(f.0, NatToString(i)) ==> f.1 <= e.1)
  {
    match HighestMatching(d, NatToString(i))
    case None => Fail(NoColumnForCluster(i))
    case Some(e) => Ok(e.0)
  }

  function HighestMatching(d: seq<(string, real)>, token: string): (r: Option<(string, real)>)
    ensures r.None? <==> forall e :: e in d ==> !Contains(e.0, token)
    ensures r.Some? ==> (r.value in d && Contains(r.value.0, token)
      && forall f :: f in d && Contains(f.0, token) ==> f.1 <= r.value.1)
    decreases |d|
  {
    if |d| == 0 then None
    else
      var rest := HighestMatching(d[1..], token);
      assert forall e :: e in d <==> e == d[0] || e in d[1..];
      if !Contains(d[0].0, token) then rest
      else if rest.Some? && rest.value.1 > d[0].1 then rest
      else Some(d[0])
  }

  /** The intended pick takes the better-scoring model whatever the names. */
  lemma BestScoringColumnPrefersScore(i: nat, a: string, b: string, sa: real, sb: real)
    requires Contains(a, NatToString(i)) && Contains(b, NatToString(i)) && sa > sb
    ensures BestScoringColumn(i, [(MetricColumn(a), sa), (MetricColumn(b), sb)]) == Ok(MetricColumn(a))
  {
    var d := [(MetricColumn(a), sa), (MetricColumn(b), sb)];
    ContainsInColumn(a, NatToString(i));
    assert d[0] in d;
  }

  /** The selection with the intended per-cluster pick. */
  function BestScoringColumns(numClusters: nat, d: seq<(string, real)>): (r: Result<seq<string>, Fault>)
    ensures r.Ok? <==> forall i :: 0 <= i < numClusters ==> BestScoringColumn(i, d).Ok?
    ensures r.Ok? ==> (|r.value| == numClusters
      && forall i :: 0 <= i < numClusters ==> BestScoringColumn(i, d) == Ok(r.value[i]))
  {
    var picks := ScoringPicks(numClusters, d);
    CollectSpec(picks);
    Collect(picks)
  }

  /** Each cluster's intended pick, in cluster order. */
  function ScoringPicks(numClusters: nat, d: seq<(string, real)>): (picks: seq<Result<string, Fault>>)
    ensures |picks| == numClusters && forall i :: 0 <= i < numClusters ==> picks[i] == BestScoringColumn(i, d)
  {
    seq(numClusters, i requires 0 <= i < numClusters => BestScoringColumn(i, d))
  }

  /** `TopModelNames` with the intended pick. */
  function TopModelNamesByScore(registered: seq<string>, runs: seq<Run>, numClusters: nat): Result<seq<string>, Fault> {
    match MetricsDict(MetricColumns(registered), runs)
    case Fail(e) => Fail(e)
    case Ok(d) =>
      match BestScoringColumns(numClusters, d)
      case Fail(e) => Fail(e)
      case Ok(cs) => ModelNames(cs)
  }

  /**
   * `m` wins cluster `i` as intended: its column contains `str(i)` and no
   * other registered column containing `str(i)` has a higher best score.
   */
  ghost predicate ScoreWinner(i: nat, registered: seq<string>, runs: seq<Run>, m: string)
    requires forall n :: n in registered && n != KMeans ==> Logged(MetricColumn(n), runs)
  {
    && m in registered && m != KMeans
    && Contains(MetricColumn(m), NatToString(i))
    && forall n :: n in registered && n != KMeans && Contains(MetricColumn(n), NatToString(i)) ==>
         ColumnMax(MetricColumn(n), runs) <= ColumnMax(MetricColumn(m), runs)
  }

  lemma ScoreWinnerOfCluster(i: nat, registered: seq<string>, runs: seq<Run>, d: seq<(string, real)>) returns (m: string)
    requires forall n :: n in registered && n != KMeans ==> Logged(MetricColumn(n), runs)
    requires KeysAreColumns(d, registered)
    requires ScoresAreMaxima(d, runs)
    requires ClusterCovered(i, registered)
    ensures BestScoringColumn(i, d) == Ok(MetricColumn(m))
    ensures ScoreWinner(i, registered, runs, m)
  {
    var n :| n in registered && n != KMeans && Contains(MetricColumn(n), NatToString(i));
    assert MetricColumn(n) in Keys(d);
    var c := BestScoringColumn(i, d).value;
    var e :| e in d && e.0 == c && Contains(e.0, NatToString(i))
      && forall f :: f in d && Contains(f.0, NatToString(i)) ==> f.1 <= e.1;
    assert c in Keys(d);
    m :| m in registered && m != KMeans && c == MetricColumn(m);
    forall n | n in registered && n != KMeans && Contains(MetricColumn(n), NatToString(i))
      ensures ColumnMax(MetricColumn(n), runs) <= ColumnMax(MetricColumn(m), runs)
    {
      assert MetricColumn(n) in Keys(d);
      var f :| f in d && f.0 == MetricColumn(n);
    }
  }

  lemma {:induction false} ScoreWinnersOfClusters(numClusters: nat, registered: seq<string>, runs: seq<Run>, d: seq<(string, real)>)
    returns (models: seq<string>)
    requires forall n :: n in registered && n != KMeans ==> Logged(MetricColumn(n), runs)
    requires KeysAreColumns(d, registered)
    requires ScoresAreMaxima(d, runs)
    requires forall i :: 0 <= i < numClusters ==> ClusterCovered(i, registered)
    ensures |models| == numClusters
    ensures forall i :: 0 <= i < numClusters ==>
      BestScoringColumn(i, d) == Ok(MetricColumn(models[i])) && ScoreWinner(i, registered, runs, models[i])
    decreases numClusters
  {
    if numClusters == 0 {
      models := [];
    } else {
      var n := numClusters - 1;
      var prev := ScoreWinnersOfClusters(n, registered, runs, d);
      assert ClusterCovered(n, registered);
      var m := ScoreWinnerOfCluster(n, registered, runs, d);
      models := prev + [m];
      forall i | 0 <= i < numClusters
        ensures BestScoringColumn(i, d) == Ok(MetricColumn(models[i])) && ScoreWinner(i, registered, runs, models[i])
      {
        if i < n { assert models[i] == prev[i]; }
      }
    }
  }

  /**
   * The corrected selection: under the same conditions as `TopModelNamesSpec`,
   * each cluster's entry is a registered model with the highest best score
   * among those whose column contains the cluster index.
   */
  lemma TopModelNamesByScoreSpec(registered: seq<string>, runs: seq<Run>, numClusters: nat)
    requires forall m :: m in registered ==> '.' !in m && '-' !in m
    requires forall m :: m in registered && m != KMeans ==> Logged(MetricColumn(m), runs)
    requires forall i :: 0 <= i < numClusters ==> ClusterCovered(i, registered)
    ensures TopModelNamesByScore(registered, runs, numClusters).Ok?
    ensures var top := TopModelNamesByScore(registered, runs, numClusters).value;
      |top| == numClusters && forall i :: 0 <= i < numClusters ==> ScoreWinner(i, registered, runs, top[i])
  {
    var d := DictOfRegistered(registered, runs);
    var models := ScoreWinnersOfClusters(numClusters, registered, runs, d);
    var cs := BestScoringColumns(numClusters, d).value;
    assert forall i :: 0 <= i < numClusters ==> cs[i] == MetricColumn(models[i]);
    ModelNamesOfMetricColumns(cs, models);
  }

  datatype Stage = Production | Staging

  datatype ModelVersion = ModelVersion(name: string, version: string)

  /** One entry of `search_mlflow_models`: a registered model and its latest versions. */
  datatype RegisteredModel = RegisteredModel(name: string, latestVersions: seq<ModelVersion>)

  /** One call of `transition_mlflow_model`. */
  datatype Transition = Transition(name: string, version: string, stage: Stage)

  /** The stage a version is moved to: Production for a top name or KMeans, Staging otherwise. */
  function StageFor(name: string, top: seq<string>): (s: Stage) {
    if name in top then Production
    else if name == KMeans then Production
    else Staging
  }

  lemma StageForSpec(name: string, top: seq<string>)
    ensures StageFor(name, top) == Production <==> name in top || name == KMeans
    ensures StageFor(name, top) == Staging <==> name !in top && name != KMeans
  {
  }

  /** The versions in the order the nested `for res` / `for mv` loops visit them. */
  function Versions(results: seq<RegisteredModel>): seq<ModelVersion>
    decreases |results|
  {
    if |results| == 0 then [] else results[0].latestVersions + Versions(results[1..])
  }

  function TransitionOf(v: ModelVersion, top: seq<string>): Transition {
    Transition(v.name, v.version, StageFor(v.name, top))
  }

  /** The transitions the loops issue, in order. */
  function Transitions(results: seq<RegisteredModel>, top: seq<string>): (ts: seq<Transition>)
    ensures |ts| == |Versions(results)|
  {
    VersionTransitions(Versions(results), top)
  }

  /**
   * Every latest version of every registered model gets exactly one
   * transition, at its own position in visiting order, to the stage its name
   * calls for.
   */
  lemma {:induction false} VersionsComplete(results: seq<RegisteredModel>)
    ensures forall v :: v in Versions(results) <==> exists r :: r in results && v in r.latestVersions
    decreases |results|
  {
    if |results| > 0 {
      VersionsComplete(results[1..]);
      assert forall r :: r in results <==> r == results[0] || r in results[1..];
    }
  }

  lemma OneTransitionPerVersion(results: seq<RegisteredModel>, top: seq<string>, k: nat)
    requires k < |Versions(results)|
    ensures var t := Transitions(results, top)[k];
      var v := Versions(results)[k];
      t.name == v.name && t.version == v.version && t.stage == StageFor(v.name, top)
  {
  }

  type StageMap = map<(string, string), Stage>

  /** The registry's stages after a sequence of transitions. */
  function Apply(stages: StageMap, ts: seq<Transition>): StageMap
    decreases |ts|
  {
    if |ts| == 0 then stages
    else Apply(stages[(ts[0].name, ts[0].version) := ts[0].stage], ts[1..])
  }

  /** A version's stage after the transitions is the stage its name calls for; other entries stay. */
  lemma ApplyTransitions(stages: StageMap, vs: seq<ModelVersion>, top: seq<string>)
    ensures var after := Apply(stages, VersionTransitions(vs, top));
      && after.Keys == stages.Keys + (set v | v in vs :: (v.name, v.version))
      && (forall v :: v in vs ==> after[(v.name, v.version)] == StageFor(v.name, top))
      && (forall key :: key in stages && (forall v :: v in vs ==> (v.name, v.version) != key) ==> after[key] == stages[key])
  {
    ApplyKeys(stages, vs, top);
    ApplySets(stages, vs, top);
    ApplyKeeps(stages, vs, top);
  }

  /** The transitions of all but the first version are the tail of the transitions. */
  lemma VersionTransitionsTail(vs: seq<ModelVersion>, top: seq<string>)
    requires |vs| > 0
    ensures VersionTransitions(vs, top) == [TransitionOf(vs[0], top)] + VersionTransitions(vs[1..], top)
  {
  }

  /** The registry afterwards knows exactly the entries it knew and the visited versions. */
  lemma {:induction false} ApplyKeys(stages: StageMap, vs: seq<ModelVersion>, top: seq<string>)
    ensures Apply(stages, VersionTransitions(vs, top)).Keys == stages.Keys + (set v | v in vs :: (v.name, v.version))
    decreases |vs|
  {
    if |vs| > 0 {
      var v0 := vs[0];
      var s1 := stages[(v0.name, v0.version) := StageFor(v0.name, top)];
      VersionTransitionsTail(vs, top);
      ApplyKeys(s1, vs[1..], top);
      assert (set v | v in vs :: (v.name, v.version)) == {(v0.name, v0.version)} + (set v | v in vs[1..] :: (v.name, v.version)) by {
        assert forall v :: v in vs <==> v == v0 || v in vs[1..];
      }
    } else {
      assert (set v | v in vs :: (v.name, v.version)) == {};
    }
  }

  /** Every visited version ends at the stage its name calls for. */
  lemma {:induction false} ApplySets(stages: StageMap, vs: seq<ModelVersion>, top: seq<string>)
    ensures var after := Apply(stages, VersionTransitions(vs, top));
      forall v :: v in vs ==> (v.name, v.version) in after && after[(v.name, v.version)] == StageFor(v.name, top)
    decreases |vs|
  {
    if |vs| > 0 {
      var v0 := vs[0];
      var s1 := stages[(v0.name, v0.version) := StageFor(v0.name, top)];
      VersionTransitionsTail(vs, top);
      var after := Apply(s1, VersionTransitions(vs[1..], top));
      assert Apply(stages, VersionTransitions(vs, top)) == after;
      ApplySets(s1, vs[1..], top);
      if v0 !in vs[1..] {
        ApplyKeeps(s1, vs[1..], top);
        ApplyKeys(s1, vs[1..], top);
      }
      forall v | v in vs ensures (v.name, v.version) in after && after[(v.name, v.version)] == StageFor(v.name, top) {
        if v != v0 { assert v in vs[1..]; }
      }
    }
  }

  /** An entry no visited version names keeps its stage. */
  lemma {:induction false} ApplyKeeps(stages: StageMap, vs: seq<ModelVersion>, top: seq<string>)
    ensures var after := Apply(stages, VersionTransitions(vs, top));
      forall key :: key in stages && (forall v :: v in vs ==> (v.name, v.version) != key) ==>
        key in after && after[key] == stages[key]
    decreases |vs|
  {
    if |vs| > 0 {
      var v0 := vs[0];
      var s1 := stages[(v0.name, v0.version) := StageFor(v0.name, top)];
      VersionTransitionsTail(vs, top);
      ApplyKeeps(s1, vs[1..], top);
      var after := Apply(s1, VersionTransitions(vs[1..], top));
      assert Apply(stages, VersionTransitions(vs, top)) == after;
      forall key | key in stages && (forall v :: v in vs ==> (v.name, v.version) != key)
        ensures key in after && after[key] == stages[key]
      {
        assert (v0.name, v0.version) != key;
        assert forall v :: v in vs[1..] ==> v in vs;
      }
    }
  }

  /**
   * The stage a version ends in depends only on its name and the top list,
   * never on its previous stage: promoting twice on unchanged data changes
   * nothing the second time.
   */
  lemma PromotionIdempotent(stages: StageMap, results: seq<RegisteredModel>, top: seq<string>)
    ensures var ts := Transitions(results, top);
      Apply(Apply(stages, ts), ts) == Apply(stages, ts)
  {
    var vs := Versions(results);
    var ts := Transitions(results, top);
    var once := Apply(stages, ts);
    ApplyTransitions(stages, vs, top);
    ApplyTransitions(once, vs, top);
    var twice := Apply(once, ts);
    forall key | key in twice ensures key in once && twice[key] == once[key] {
      if exists v :: v in vs && (v.name, v.version) == key {
        var v :| v in vs && (v.name, v.version) == key;
      }
    }
  }

  /** The registry: each model version's stage, changed one transition at a time. */
  class Registry {
    var stages: StageMap

    constructor (initial: StageMap)
      ensures stages == initial
    {
      stages := initial;
    }

    /** One `transition_mlflow_model` call. */
    method TransitionModel(t: Transition)
      modifies this
      ensures stages == old(stages)[(t.name, t.version) := t.stage]
    {
      stages := stages[(t.name, t.version) := t.stage];
    }

    /** The nested loops over `results` and `res.latest_versions` (lines 155-182). */
    method TransitionAll(results: seq<RegisteredModel>, top: seq<string>) returns (issued: seq<Transition>)
      modifies this
      ensures issued == Transitions(results, top)
      ensures stages == Apply(old(stages), issued)
    {
      issued := [];
      ghost var start := stages;
      for r := 0 to |results|
        invariant issued == Transitions(results[..r], top)
        invariant stages == Apply(start, issued)
      {
        var versions := results[r].latestVersions;
        for j := 0 to |versions|
          invariant issued == Transitions(results[..r], top) + VersionTransitions(versions[..j], top)
          invariant stages == Apply(start, issued)
        {
          var t := TransitionOf(versions[j], top);
          ApplyAppend(start, issued, t);
          TransitionModel(t);
          assert versions[..j + 1] == versions[..j] + [versions[j]];
          issued := issued + [t];
        }
        assert versions[..|versions|] == versions;
        TransitionsAppend(results[..r], results[r], top);
        assert results[..r + 1] == results[..r] + [results[r]];
      }
      assert results[..|results|] == results;
    }

    /**
     * `load_production_model` as written: compute the name-ranked top list,
     * then issue one transition per latest version. Any fault raises before
     * the registry is touched.
     */
    method LoadProductionModelByName(registered: seq<string>, runs: seq<Run>, numClusters: nat, results: seq<RegisteredModel>)
      returns (outcome: Result<seq<string>, Fault>)
      modifies this
      ensures outcome == TopModelNames(registered, runs, numClusters)
      ensures outcome.Fail? ==> stages == old(stages)
      ensures outcome.Ok? ==> stages == Apply(old(stages), Transitions(results, outcome.value))
    {
      outcome := TopModelNames(registered, runs, numClusters);
      if outcome.Ok? {
        var _ := TransitionAll(results, outcome.value);
      }
    }

    /**
     * `load_production_model` with the intended pick: each cluster's
     * best-scoring model is promoted, then one transition is issued per
     * latest version. Any fault raises before the registry is touched.
     */
    method LoadProductionModel(registered: seq<string>, runs: seq<Run>, numClusters: nat, results: seq<RegisteredModel>)
      returns (outcome: Result<seq<string>, Fault>)
      modifies this
      ensures outcome == TopModelNamesByScore(registered, runs, numClusters)
      ensures outcome.Fail? ==> stages == old(stages)
      ensures outcome.Ok? ==> stages == Apply(old(stages), Transitions(results, outcome.value))
    {
      outcome := TopModelNamesByScore(registered, runs, numClusters);
      if outcome.Ok? {
        var _ := TransitionAll(results, outcome.value);
      }
    }
  }

  function VersionTransitions(vs: seq<ModelVersion>, top: seq<string>): seq<Transition> {
    seq(|vs|, k requires 0 <= k < |vs| => TransitionOf(vs[k], top))
  }

  lemma ApplyAppend(stages: StageMap, ts: seq<Transition>, t: Transition)
    ensures Apply(stages, ts + [t]) == Apply(stages, ts)[(t.name, t.version) := t.stage]
    decreases |ts|
  {
    if |ts| > 0 {
      assert (ts + [t])[1..] == ts[1..] + [t];
      ApplyAppend(stages[(ts[0].name, ts[0].version) := ts[0].stage], ts[1..], t);
    }
  }

  lemma {:induction false} VersionsAppend(results: seq<RegisteredModel>, r: RegisteredModel)
    ensures Versions(results + [r]) == Versions(results) + r.latestVersions
    decreases |results|
  {
    if |results| == 0 {
      assert Versions([r]) == r.latestVersions + Versions([]);
    } else {
      assert (results + [r])[1..] == results[1..] + [r];
      VersionsAppend(results[1..], r);
    }
  }

  lemma TransitionsAppend(results: seq<RegisteredModel>, r: RegisteredModel, top: seq<string>)
    ensures Transitions(results + [r], top) == Transitions(results, top) + VersionTransitions(r.latestVersions, top)
  {
    VersionsAppend(results, r);
  }
}
