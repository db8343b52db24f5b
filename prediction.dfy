/**
 * Prediction from the production models (`Prediction`): find each cluster's
 * model file by substring search, run the cluster loop, and upload every
 * cluster's results to the same output file.
 *
 * The table arrives already preprocessed as its `scania` ids and its feature
 * rows; a fitted model enters only through `classify`, one prediction per
 * row, and the clustering model through `assign`, one cluster per row.
 */
module Prediction {
  import opened Wrappers
  import opened Text
  import opened Storage
  import ModelUtils
  import opened BlobStorage

  /** Why `predict_from_model` raises. */
  datatype PredFault =
    | LoadFault(fault: Fault)   // `load_model` of a missing or unreadable blob
    | NoModelFile(cluster: nat) // `model_name` unbound: no listed file mentions the cluster
    | NoResult                  // `result` unbound: the table has no row, so the loop never ran

  /** `delete_pred_file`: delete the previous output file when it exists, else change nothing. */
  method DeletePredFile(input: Container, name: string)
    modifies input
    ensures input.blobs == old(input.blobs) - {name}
  {
    if name in input.blobs {
      var _ := input.DeleteFile(name);
    }
  }

  /** The last of `files` that contains `t`, as the loop that keeps overwriting `model_name` leaves it. */
  function LastMatch(files: seq<string>, t: string): Option<string>
    decreases |files|
  {
    if |files| == 0 then None
    else if Contains(files[|files| - 1], t) then Some(files[|files| - 1])
    else LastMatch(files[..|files| - 1], t)
  }

  /**
   * No match exactly when no file contains `t`; otherwise the match is a
   * file containing `t` that no later file containing `t` follows.
   */
  lemma {:induction false} LastMatchSpec(files: seq<string>, t: string)
    ensures LastMatch(files, t).None? <==> forall k :: 0 <= k < |files| ==> !Contains(files[k], t)
    ensures LastMatch(files, t).Some? ==>
      exists i :: 0 <= i < |files| && files[i] == LastMatch(files, t).value && Contains(files[i], t)
        && forall j :: i < j < |files| ==> !Contains(files[j], t)
    decreases |files|
  {
    if |files| > 0 {
      var n := |files| - 1;
      if !Contains(files[n], t) {
        var front := files[..n];
        LastMatchSpec(front, t);
        assert forall k :: 0 <= k < n ==> files[k] == front[k];
        if LastMatch(front, t).Some? {
          var i :| 0 <= i < n && front[i] == LastMatch(front, t).value && Contains(front[i], t)
            && forall j :: i < j < n ==> !Contains(front[j], t);
          assert files[i] == LastMatch(files, t).value;
        }
      }
    }
  }

  /**
   * `find_correct_model_file`: list the production folder, keep the last
   * file whose name contains `str(cluster)` (a file without it raises inside
   * `index` and is skipped), and return its name before the first `.`.
   */
  method FindCorrectModelFile(models: Container, prodDir: string, cluster: nat)
    returns (listed: seq<string>, r: Result<string, PredFault>)
    ensures Distinct(listed) && forall n :: n in listed <==> n in models.InFolder(prodDir)
    ensures r == match LastMatch(listed, NatToString(cluster))
      case None => Fail(NoModelFile(cluster))
      case Some(f) => Ok(FirstSegment(f, '.'))
  {
    listed := models.GetFilesFromFolder(prodDir);
    var needle := NatToString(cluster);
    var modelName: Option<string> := None;
    for k := 0 to |listed|
      invariant modelName == LastMatch(listed[..k], needle)
    {
      assert listed[..k + 1][..k] == listed[..k];
      if Contains(listed[k], needle) {
        modelName := Some(listed[k]);
      }
    }
    assert listed[..|listed|] == listed;
    if modelName.None? {
      return listed, Fail(NoModelFile(cluster));
    }
    r := Ok(FirstSegment(modelName.value, '.'));
  }

  /**
   * Cluster 1's model is looked up by the substring "1", so a later file of
   * cluster 10 wins over cluster 1's own file.
   */
  lemma SubstringMatchTakesClusterTen(dir: string)
    requires '1' !in dir
    ensures var files := [dir + "/XGBoost1.sav", dir + "/XGBoost10.sav"];
      LastMatch(files, NatToString(1)) == Some(dir + "/XGBoost10.sav")
  {
    var ten := dir + "/XGBoost10.sav";
    assert NatToString(1) == "1";
    assert ten[|dir| + 8..|dir| + 9] == "1";
    ContainsAt(ten, "1", |dir| + 8);
  }

  /**
   * The name found keeps the folder prefix, and `load_model` puts the folder
   * in front again: for a non-empty folder the blob it asks for is never the
   * one `save_model` wrote.
   */
  lemma FoundNameNeverLoads(dir: string, stem: string, ext: string)
    requires |dir| > 0 && '.' !in dir && '.' !in stem
    ensures var found := FirstSegment(dir + "/" + stem + "." + ext, '.');
      && found == dir + "/" + stem
      && LoadPath(Some(dir), found, "." + ext) != SavePath(Some(dir), stem + "." + ext)
  {
    var a := dir + "/" + stem;
    assert '.' !in a by {
      assert forall k :: 0 <= k < |a| ==> a[k] == (if k < |dir| then dir[k] else if k == |dir| then '/' else stem[k - |dir| - 1]);
    }
    assert dir + "/" + stem + "." + ext == a + ['.'] + ext;
    SplitAtFirst(a, '.', ext);
    assert |LoadPath(Some(dir), a, "." + ext)| == |SavePath(Some(dir), stem + "." + ext)| + |dir|;
  }

  /** `data["clusters"].unique()`: each label once, in order of first appearance. */
  function Unique(labels: seq<nat>): (u: seq<nat>)
    ensures Distinct(u)
    ensures forall x :: x in u <==> x in labels
    decreases |labels|
  {
    if |labels| == 0 then []
    else
      var n := |labels| - 1;
      var front := Unique(labels[..n]);
      assert labels == labels[..n] + [labels[n]];
      if labels[n] in front then front else front + [labels[n]]
  }

  /** The indices of the rows of cluster `c`, in table order: `data[data["clusters"] == c]`. */
  function Positions(labels: seq<nat>, c: nat): (p: seq<nat>)
    ensures |p| <= |labels|
    ensures forall j :: 0 <= j < |p| ==> p[j] < |labels| && labels[p[j]] == c
    ensures forall i, j :: 0 <= i < j < |p| ==> p[i] < p[j]
    ensures forall i :: 0 <= i < |labels| && labels[i] == c ==> i in p
    decreases |labels|
  {
    if |labels| == 0 then []
    else
      var n := |labels| - 1;
      Positions(labels[..n], c) + (if labels[n] == c then [n] else [])
  }

  /** The entries of `xs` at the indices `p`. */
  function Picked<T>(xs: seq<T>, p: seq<nat>): (ys: seq<T>)
    requires forall j :: 0 <= j < |p| ==> p[j] < |xs|
    ensures |ys| == |p| && forall j :: 0 <= j < |p| ==> ys[j] == xs[p[j]]
  {
    seq(|p|, j requires 0 <= j < |p| => xs[p[j]])
  }

  /** `list(model.predict(rows))`: one prediction per row. */
  function Predictions<X>(m: Model, rows: seq<X>, classify: (Model, X) -> string): (preds: seq<string>)
    ensures |preds| == |rows| && forall j :: 0 <= j < |rows| ==> preds[j] == classify(m, rows[j])
  {
    seq(|rows|, j requires 0 <= j < |rows| => classify(m, rows[j]))
  }

  /** `pd.DataFrame(list(zip(ids, preds)), columns=["scania", "prediction"])`: the pairs stop with the shorter list. */
  function ResultFrame(ids: seq<string>, preds: seq<string>): (f: Frame)
    ensures f.names == ["scania", "prediction"] && |f.columns| == 2
    ensures var n := if |ids| <= |preds| then |ids| else |preds|;
      && |f.columns[0]| == n && |f.columns[1]| == n
      && forall j :: 0 <= j < n ==> f.columns[0][j] == Value(ids[j]) && f.columns[1][j] == Value(preds[j])
  {
    var n := if |ids| <= |preds| then |ids| else |preds|;
    Frame(["scania", "prediction"],
          [seq(n, j requires 0 <= j < n => Value(ids[j])), seq(n, j requires 0 <= j < n => Value(preds[j]))])
  }

  /**
   * One cluster's results as the loop computes them: the cluster's ids,
   * zipped with the predictions for the whole table, because `cluster_data`
   * is rebuilt from `data` before predicting.
   */
  function ClusterFrame<X>(ids: seq<string>, rows: seq<X>, labels: seq<nat>, c: nat, m: Model,
                           classify: (Model, X) -> string): Frame
    requires |ids| == |rows| == |labels|
  {
    ResultFrame(Picked(ids, Positions(labels, c)), Predictions(m, rows, classify))
  }

  /** One cluster's results as intended: each of the cluster's ids with the prediction for its own row. */
  function IntendedClusterFrame<X>(ids: seq<string>, rows: seq<X>, labels: seq<nat>, c: nat, m: Model,
                                   classify: (Model, X) -> string): Frame
    requires |ids| == |rows| == |labels|
  {
    var p := Positions(labels, c);
    ResultFrame(Picked(ids, p), Predictions(m, Picked(rows, p), classify))
  }

  /**
   * As written, the output has one row per row of the cluster, and its
   * `j`-th row pairs the cluster's `j`-th id with the prediction for the
   * `j`-th row of the whole table.
   */
  lemma ClusterFrameSpec<X>(ids: seq<string>, rows: seq<X>, labels: seq<nat>, c: nat, m: Model,
                            classify: (Model, X) -> string)
    requires |ids| == |rows| == |labels|
    ensures var f, p := ClusterFrame(ids, rows, labels, c, m, classify), Positions(labels, c);
      && |f.columns[0]| == |p| && |f.columns[1]| == |p|
      && forall j :: 0 <= j < |p| ==>
           f.columns[0][j] == Value(ids[p[j]]) && f.columns[1][j] == Value(classify(m, rows[j]))
  {
  }

  /**
   * As intended, every row of the cluster appears in the output, with its
   * own id beside the prediction for its own features, and nothing else
   * does: `preds` are the model's predictions for the whole table.
   */
  lemma IntendedClusterFrameSpec<X>(ids: seq<string>, rows: seq<X>, labels: seq<nat>, c: nat, m: Model,
                                    classify: (Model, X) -> string)
    requires |ids| == |rows| == |labels|
    ensures var f, preds := IntendedClusterFrame(ids, rows, labels, c, m, classify), Predictions(m, rows, classify);
      && |f.columns[0]| == |f.columns[1]|
      && OwnRowsOnly(f, ids, preds, labels, c)
      && AllOwnRows(f, ids, preds, labels, c)
  {
    var f, p := IntendedClusterFrame(ids, rows, labels, c, m, classify), Positions(labels, c);
    var preds := Predictions(m, rows, classify);
    assert |f.columns[0]| == |p|;
    forall j | 0 <= j < |f.columns[0]|
      ensures RowOfCluster(f, ids, preds, labels, c, j)
    {
      var i := p[j];
      assert 0 <= i < |labels| && labels[i] == c;
      assert f.columns[0][j] == Value(ids[i]) && f.columns[1][j] == Value(preds[i]);
    }
    forall i | 0 <= i < |labels| && labels[i] == c
      ensures RowShown(f, ids, preds, i)
    {
      var j :| 0 <= j < |p| && p[j] == i;
      assert f.columns[0][j] == Value(ids[i]) && f.columns[1][j] == Value(preds[i]);
    }
  }

  /** Row `i` of the table appears in `f` as its id beside its prediction. */
  ghost predicate RowShown(f: Frame, ids: seq<string>, preds: seq<string>, i: nat)
    requires i < |ids| && i < |preds| && |f.columns| == 2
  {
    exists j :: 0 <= j < |f.columns[0]| && j < |f.columns[1]|
      && f.columns[0][j] == Value(ids[i]) && f.columns[1][j] == Value(preds[i])
  }

  /** Output row `j` is some row of cluster `c`: its id beside its own prediction. */
  ghost predicate RowOfCluster(f: Frame, ids: seq<string>, preds: seq<string>, labels: seq<nat>, c: nat, j: nat)
    requires |ids| == |preds| == |labels| && |f.columns| == 2 && j < |f.columns[0]| && j < |f.columns[1]|
  {
    exists i :: 0 <= i < |labels| && labels[i] == c
      && f.columns[0][j] == Value(ids[i]) && f.columns[1][j] == Value(preds[i])
  }

  /** Every output row is a row of cluster `c`. */
  ghost predicate OwnRowsOnly(f: Frame, ids: seq<string>, preds: seq<string>, labels: seq<nat>, c: nat)
    requires |ids| == |preds| == |labels| && |f.columns| == 2 && |f.columns[0]| == |f.columns[1]|
  {
    forall j :: 0 <= j < |f.columns[0]| ==> RowOfCluster(f, ids, preds, labels, c, j)
  }

  /** Every row of cluster `c` is shown. */
  ghost predicate AllOwnRows(f: Frame, ids: seq<string>, preds: seq<string>, labels: seq<nat>, c: nat)
    requires |ids| == |preds| == |labels| && |f.columns| == 2
  {
    forall i :: 0 <= i < |labels| && labels[i] == c ==> RowShown(f, ids, preds, i)
  }

  /**
   * Two rows in two clusters: as written, cluster 1's only id `b` is paired
   * with the prediction for row `a`'s features; as intended, with its own.
   */
  lemma ClusterFrameMisaligned(m: Model)
    ensures ClusterFrame(["a", "b"], ["xa", "xb"], [0, 1], 1, m, Echo).columns == [[Value("b")], [Value("xa")]]
    ensures IntendedClusterFrame(["a", "b"], ["xa", "xb"], [0, 1], 1, m, Echo).columns == [[Value("b")], [Value("xb")]]
  {
    AsWrittenPairsA(m);
    IntendedPairsB(m);
  }

  /** A stand-in model that predicts a row's own features, so a prediction names its row. */
  function Echo(model: Model, x: string): string {
    x
  }

  lemma AsWrittenPairsA(m: Model)
    ensures ClusterFrame(["a", "b"], ["xa", "xb"], [0, 1], 1, m, Echo).columns == [[Value("b")], [Value("xa")]]
  {
    var ids, rows, labels: seq<nat> := ["a", "b"], ["xa", "xb"], [0, 1];
    SecondRowOnly();
    ClusterFrameSpec(ids, rows, labels, 1, m, Echo);
    var f := ClusterFrame(ids, rows, labels, 1, m, Echo);
    assert f.columns[0] == [Value("b")];
    assert f.columns[1] == [Value("xa")];
  }

  lemma IntendedPairsB(m: Model)
    ensures IntendedClusterFrame(["a", "b"], ["xa", "xb"], [0, 1], 1, m, Echo).columns == [[Value("b")], [Value("xb")]]
  {
    var ids, rows, labels: seq<nat> := ["a", "b"], ["xa", "xb"], [0, 1];
    SecondRowOnly();
    var picked := Picked(rows, [1]);
    assert picked == ["xb"];
    var g := IntendedClusterFrame(ids, rows, labels, 1, m, Echo);
    assert g == ResultFrame(Picked(ids, [1]), Predictions(m, picked, Echo));
    assert g.columns[0] == [Value("b")];
    assert g.columns[1] == [Value("xb")];
  }

  /** With labels `[0, 1]`, cluster 1 is the second row alone. */
  lemma SecondRowOnly()
    ensures Positions([0, 1], 1) == [1]
  {
    var labels: seq<nat> := [0, 1];
    assert labels[..1] == [0];
    assert Positions([0], 1) == [];
  }

  /**
   * `kmeans.predict(...)`: the cluster of each row. The same row-wise map
   * as `Predictions`, kept apart because the clustering model yields
   * cluster numbers where the per-cluster models yield class names.
   */
  function Labels<X>(kmeans: Model, rows: seq<X>, assign: (Model, X) -> nat): (labels: seq<nat>)
    ensures |labels| == |rows| && forall j :: 0 <= j < |rows| ==> labels[j] == assign(kmeans, rows[j])
  {
    seq(|rows|, j requires 0 <= j < |rows| => assign(kmeans, rows[j]))
  }

  /** Which results the cluster loop uploads: the source's pairing (`ClusterFrame`) or the corrected one. */
  datatype Pairing = AsWritten | Intended

  /** One cluster's results under `pairing`, predicted with `m`. */
  function PairedFrame<X>(pairing: Pairing, ids: seq<string>, rows: seq<X>, labels: seq<nat>, c: nat, m: Model,
                          classify: (Model, X) -> string): Frame
    requires |ids| == |rows| == |labels|
  {
    match pairing
    case AsWritten => ClusterFrame(ids, rows, labels, c, m, classify)
    case Intended => IntendedClusterFrame(ids, rows, labels, c, m, classify)
  }

  /** The results the cluster loop builds for a cluster from its loaded model. */
  function Results<X>(pairing: Pairing, ids: seq<string>, rows: seq<X>, labels: seq<nat>,
                      classify: (Model, X) -> string): (results: (nat, Model) -> Frame)
    requires |ids| == |rows| == |labels|
    ensures forall c, m :: results(c, m) == PairedFrame(pairing, ids, rows, labels, c, m, classify)
  {
    (c: nat, m: Model) => PairedFrame(pairing, ids, rows, labels, c, m, classify)
  }

  /** `listed` is a listing of the folder holding `names`: every one of them, each once. */
  ghost predicate IsListing(listed: seq<string>, names: set<string>) {
    Distinct(listed) && forall n :: n in listed <==> n in names
  }

  /** Every one of `listings` is a listing of the folder holding `names`. */
  ghost predicate AllListings(listings: seq<seq<string>>, names: set<string>) {
    forall k :: 0 <= k < |listings| ==> IsListing(listings[k], names)
  }

  /** One more listing of the folder keeps every listing a listing of it. */
  lemma AllListingsSnoc(listings: seq<seq<string>>, listed: seq<string>, names: set<string>)
    requires AllListings(listings, names) && IsListing(listed, names)
    ensures AllListings(listings + [listed], names)
  {
    var ext := listings + [listed];
    forall k | 0 <= k < |ext|
      ensures IsListing(ext[k], names)
    {
      if k < |listings| {
        assert ext[k] == listings[k];
      }
    }
  }

  /**
   * The model one pass of the cluster loop loads from a model container
   * holding `blobs`, saved with extension `format`, when the production
   * folder was listed as `listed`: the last listed file that mentions `c`,
   * cut at its first `.` and loaded from the production folder.
   */
  function ClusterModel(blobs: map<string, Blob>, format: string, prodDir: string, listed: seq<string>, c: nat)
    : Result<Model, PredFault>
  {
    match LastMatch(listed, NatToString(c))
    case None => Fail(NoModelFile(c))
    case Some(f) =>
      match ModelAt(blobs, LoadPath(Some(prodDir), FirstSegment(f, '.'), format))
      case Fail(e) => Fail(LoadFault(e))
      case Ok(m) => Ok(m)
  }

  /** Every pass of the loop, the `k`-th over `listings[k]` for `clusters[k]`, found and loaded its model. */
  ghost predicate PassesOk(blobs: map<string, Blob>, format: string, prodDir: string, listings: seq<seq<string>>,
                           clusters: seq<nat>)
    requires |listings| <= |clusters|
  {
    forall k :: 0 <= k < |listings| ==> ClusterModel(blobs, format, prodDir, listings[k], clusters[k]).Ok?
  }

  /** The results pass `k` uploads, built from the model it loaded. */
  function PassFrame(blobs: map<string, Blob>, format: string, prodDir: string, clusters: seq<nat>,
                     results: (nat, Model) -> Frame, listings: seq<seq<string>>, k: nat): Frame
    requires k < |listings| <= |clusters|
    requires ClusterModel(blobs, format, prodDir, listings[k], clusters[k]).Ok?
  {
    results(clusters[k], ClusterModel(blobs, format, prodDir, listings[k], clusters[k]).value)
  }

  /**
   * The state after the passes over `listings`, from the output container
   * `before` and the local files `beforeDisk`: every pass loaded its model,
   * and the output holds the last pass's results (or nothing changed when
   * no pass ran), with the temporary file removed.
   */
  ghost predicate Done(blobs: map<string, Blob>, format: string, prodDir: string, output: string, clusters: seq<nat>,
                       results: (nat, Model) -> Frame, listings: seq<seq<string>>,
                       before: map<string, Blob>, beforeDisk: map<string, Blob>,
                       after: map<string, Blob>, afterDisk: map<string, Blob>)
    requires |listings| <= |clusters|
  {
    && PassesOk(blobs, format, prodDir, listings, clusters)
    && if |listings| == 0 then after == before && afterDisk == beforeDisk
       else
         && after == before[output := Csv(PassFrame(blobs, format, prodDir, clusters, results, listings, |listings| - 1))]
         && afterDisk == beforeDisk - {output}
  }

  /** A further pass that loads its model and overwrites the output extends the passes done. */
  lemma DoneStep(blobs: map<string, Blob>, format: string, prodDir: string, output: string, clusters: seq<nat>,
                 results: (nat, Model) -> Frame, listings: seq<seq<string>>, listed: seq<string>,
                 before: map<string, Blob>, beforeDisk: map<string, Blob>,
                 mid: map<string, Blob>, midDisk: map<string, Blob>,
                 after: map<string, Blob>, afterDisk: map<string, Blob>)
    requires |listings| < |clusters|
    requires Done(blobs, format, prodDir, output, clusters, results, listings, before, beforeDisk, mid, midDisk)
    requires ClusterModel(blobs, format, prodDir, listed, clusters[|listings|]).Ok?
    requires after == mid[output := Csv(results(clusters[|listings|],
                                                ClusterModel(blobs, format, prodDir, listed, clusters[|listings|]).value))]
    requires afterDisk == midDisk - {output}
    ensures Done(blobs, format, prodDir, output, clusters, results, listings + [listed], before, beforeDisk, after, afterDisk)
  {
    var ext := listings + [listed];
    forall k | 0 <= k < |listings|
      ensures ext[k] == listings[k]
    {
    }
    assert ext[|listings|] == listed;
  }

  /**
   * What the cluster loop over `clusters` leaves, having worked from
   * `listings`: with no cluster it returns `NoResult` and changes nothing;
   * when it succeeds every cluster had its pass, every pass loaded its
   * model, and the output holds the last pass's results, which are
   * returned; when it fails, the last pass recorded is the one that failed,
   * with that pass's fault, and the passes before it are done.
   */
  ghost predicate Outcome(blobs: map<string, Blob>, format: string, prodDir: string, output: string, clusters: seq<nat>,
                          results: (nat, Model) -> Frame, listings: seq<seq<string>>, r: Result<Frame, PredFault>,
                          before: map<string, Blob>, beforeDisk: map<string, Blob>,
                          after: map<string, Blob>, afterDisk: map<string, Blob>)
  {
    && |listings| <= |clusters|
    && (|clusters| == 0 ==> r == Fail(NoResult) && after == before && afterDisk == beforeDisk)
    && (r.Ok? ==>
          && |listings| == |clusters| > 0
          && Done(blobs, format, prodDir, output, clusters, results, listings, before, beforeDisk, after, afterDisk)
          && r.value == PassFrame(blobs, format, prodDir, clusters, results, listings, |listings| - 1))
    && (r.Fail? && |clusters| > 0 ==>
          var n := |listings|;
          && n > 0
          && Done(blobs, format, prodDir, output, clusters, results, listings[..n - 1], before, beforeDisk, after, afterDisk)
          && ClusterModel(blobs, format, prodDir, listings[n - 1], clusters[n - 1]).Fail?
          && r.error == ClusterModel(blobs, format, prodDir, listings[n - 1], clusters[n - 1]).error)
  }

  /**
   * One pass of the cluster loop: find and load the cluster's model, then
   * upload the results built from it over the output file. The pass
   * succeeds exactly when some listed file mentions the cluster and the
   * name found loads. A failure changes nothing.
   */
  method PredictCluster(models: Container, input: Container, disk: LocalDisk, prodDir: string, output: string,
                        c: nat, results: (nat, Model) -> Frame)
    returns (listed: seq<string>, r: Result<Frame, PredFault>)
    requires models != input
    modifies input, disk
    ensures IsListing(listed, models.InFolder(prodDir))
    ensures var found := LastMatch(listed, NatToString(c));
      r.Ok? <==> found.Some? && models.LoadModel(FirstSegment(found.value, '.'), Some(prodDir)).Ok?
    ensures var found := LastMatch(listed, NatToString(c));
      r.Ok? ==> r.value == results(c, models.LoadModel(FirstSegment(found.value, '.'), Some(prodDir)).value)
    ensures var m := ClusterModel(models.blobs, models.saveFormat, prodDir, listed, c);
      && (r.Ok? <==> m.Ok?)
      && (r.Ok? ==> r.value == results(c, m.value))
      && (r.Fail? ==> r.error == m.error)
    ensures r.Fail? ==> input.blobs == old(input.blobs) && disk.files == old(disk.files)
    ensures r.Ok? ==> input.blobs == old(input.blobs)[output := Csv(r.value)] && disk.files == old(disk.files) - {output}
  {
    var found;
    listed, found := FindCorrectModelFile(models, prodDir, c);
    if found.Fail? {
      return listed, Fail(found.error);
    }
    var model := models.LoadModel(found.value, Some(prodDir));
    if model.Fail? {
      return listed, Fail(LoadFault(model.error));
    }
    var frame := results(c, model.value);
    input.UploadDfAsCsv(disk, frame, output, output);
    r := Ok(frame);
  }

  /**
   * The cluster loop: `listings[k]` is the listing pass `k` worked from. The
   * loop stops at the first pass that fails, and then the output holds the
   * previous pass's results (or is untouched after a failing first pass).
   * When every pass succeeds, every pass has overwritten the output, which
   * holds the results of the last cluster alone.
   */
  method PredictClusters(models: Container, input: Container, disk: LocalDisk, prodDir: string, output: string,
                         clusters: seq<nat>, results: (nat, Model) -> Frame)
    returns (listings: seq<seq<string>>, r: Result<Frame, PredFault>)
    requires models != input
    modifies input, disk
    ensures |listings| <= |clusters|
    ensures AllListings(listings, models.InFolder(prodDir))
    ensures Outcome(models.blobs, models.saveFormat, prodDir, output, clusters, results, listings, r,
                    old(input.blobs), old(disk.files), input.blobs, disk.files)
  {
    ghost var blobs, format, folder := models.blobs, models.saveFormat, models.InFolder(prodDir);
    listings := [];
    var last: Option<Frame> := None;
    for k := 0 to |clusters|
      invariant |listings| == k
      invariant models.blobs == blobs
      invariant AllListings(listings, folder)
      invariant Done(blobs, format, prodDir, output, clusters, results, listings,
                     old(input.blobs), old(disk.files), input.blobs, disk.files)
      invariant last.None? <==> k == 0
      invariant last.Some? ==> last.value == PassFrame(blobs, format, prodDir, clusters, results, listings, k - 1)
    {
      ghost var mid, midDisk := input.blobs, disk.files;
      var listed, frame := PredictCluster(models, input, disk, prodDir, output, clusters[k], results);
      AllListingsSnoc(listings, listed, folder);
      if frame.Fail? {
        assert (listings + [listed])[..k] == listings;
        return listings + [listed], Fail(frame.error);
      }
      DoneStep(blobs, format, prodDir, output, clusters, results, listings, listed,
               old(input.blobs), old(disk.files), mid, midDisk, input.blobs, disk.files);
      listings := listings + [listed];
      last := Some(frame.value);
    }
    if last.None? {
      return listings, Fail(NoResult);
    }
    r := Ok(last.value);
  }

  /**
   * `predict_from_model`: delete the old output file, load the clustering
   * model, label every row, then run the cluster loop over the labels in
   * order of first appearance. With `AsWritten` the loop uploads the
   * source's results (`ClusterFrame`); with `Intended` each id is paired
   * with its own row's prediction. The return value is the last cluster's
   * results, whose head the source returns. The run succeeds exactly when
   * the clustering model loads, the table has a row and every cluster's
   * pass succeeds; it stops at the first pass that fails.
   */
  method PredictFromModel<X>(models: Container, input: Container, disk: LocalDisk, prodDir: string, output: string,
                             pairing: Pairing, ids: seq<string>, rows: seq<X>, assign: (Model, X) -> nat,
                             classify: (Model, X) -> string)
    returns (listings: seq<seq<string>>, r: Result<Frame, PredFault>)
    requires |ids| == |rows|
    requires models != input
    modifies input, disk
    ensures var kmeans := models.LoadModel(ModelUtils.KMeans, Some(prodDir));
      kmeans.Fail? ==>
        && r == Fail(LoadFault(kmeans.error)) && listings == []
        && input.blobs == old(input.blobs) - {output} && disk.files == old(disk.files)
    ensures var kmeans := models.LoadModel(ModelUtils.KMeans, Some(prodDir));
      kmeans.Ok? ==>
        var labels := Labels(kmeans.value, rows, assign);
        var clusters := Unique(labels);
        var results := Results(pairing, ids, rows, labels, classify);
        && AllListings(listings, models.InFolder(prodDir))
        && (|rows| > 0 <==> |clusters| > 0)
        && Outcome(models.blobs, models.saveFormat, prodDir, output, clusters, results, listings, r,
                   old(input.blobs) - {output}, old(disk.files), input.blobs, disk.files)
        && (r.Ok? ==> input.blobs == old(input.blobs)[output := Csv(r.value)])
  {
    ghost var before := input.blobs;
    DeletePredFile(input, output);
    var kmeans := models.LoadModel(ModelUtils.KMeans, Some(prodDir));
    if kmeans.Fail? {
      return [], Fail(LoadFault(kmeans.error));
    }
    var labels := Labels(kmeans.value, rows, assign);
    var clusters := Unique(labels);
    if |rows| > 0 {
      assert labels[0] in clusters;
      assert |clusters| > 0;
    } else {
      assert labels == [] && clusters == [];
    }
    var results := Results(pairing, ids, rows, labels, classify);
    listings, r := PredictClusters(models, input, disk, prodDir, output, clusters, results);
    assert models.LoadModel(ModelUtils.KMeans, Some(prodDir)) == kmeans;
    if r.Ok? {
      OverwriteDeleted(before, output, Csv(r.value));
    }
  }

  /** Uploading over a file deleted before leaves what uploading over the original leaves. */
  lemma OverwriteDeleted<V>(m: map<string, V>, k: string, v: V)
    ensures (m - {k})[k := v] == m[k := v]
  {
  }
}
