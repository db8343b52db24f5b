/**
 * The model helpers of `Model_Utils`: a model's name, the parameter grid
 * copied from the configuration, and the choice of score metric.
 *
 * Fitting, predicting, accuracy and ROC AUC are scikit-learn's; they enter
 * as function parameters.
 */
module ModelUtils {
  import opened Wrappers
  import opened Storage

  /** The clustering model's class name: it is saved without a cluster index and never gets a metric column. */
  const KMeans: string := "KMeans"

  /** `model.__class__.__name__`: the name a model is saved and registered under. */
  function ModelName(model: Model): string
  {
    model.className
  }

  /** `config["model_params"][key]` is a `KeyError` when the key is missing. */
  datatype ConfigFault = MissingModelParams(key: string)

  /**
   * `get_model_param_grid`: a new dictionary filled entry by entry from the
   * model's configured parameters.
   */
  method GetModelParamGrid<V>(modelParams: map<string, map<string, V>>, key: string)
    returns (r: Result<map<string, V>, ConfigFault>)
    ensures key !in modelParams ==> r == Fail(MissingModelParams(key))
    ensures key in modelParams ==> (r.Ok? && r.value.Keys == modelParams[key].Keys
      && forall p :: p in r.value ==> r.value[p] == modelParams[key][p])
  {
    if key !in modelParams {
      return Fail(MissingModelParams(key));
    }
    var params := modelParams[key];
    var grid: map<string, V> := map[];
    var remaining := params.Keys;
    while remaining != {}
      invariant remaining <= params.Keys
      invariant grid.Keys == params.Keys - remaining
      invariant forall p :: p in grid ==> grid[p] == params[p]
      decreases remaining
    {
      var p :| p in remaining;
      grid := grid[p := params[p]];
      remaining := remaining - {p};
    }
    r := Ok(grid);
  }

  datatype Metric = Accuracy | RocAuc

  /** `len(test_y.unique()) == 1` picks accuracy; no label or several distinct labels pick ROC AUC. */
  function ScoreMetric<L(==)>(testY: seq<L>): (m: Metric)
    ensures m == Accuracy <==> |testY| > 0 && forall k :: 0 <= k < |testY| ==> testY[k] == testY[0]
  {
    SingleLabel(testY);
    if |set y | y in testY| == 1 then Accuracy else RocAuc
  }

  /** A list has exactly one distinct value when it is non-empty and constant. */
  lemma SingleLabel<L>(testY: seq<L>)
    ensures |set y | y in testY| == 1 <==> |testY| > 0 && forall k :: 0 <= k < |testY| ==> testY[k] == testY[0]
  {
    var labels := set y | y in testY;
    if |testY| > 0 && forall k :: 0 <= k < |testY| ==> testY[k] == testY[0] {
      assert labels == {testY[0]};
    } else if |labels| == 1 {
      var x :| x in labels;
      forall y | y in labels ensures y == x {
        var rest := labels - {x};
        assert |rest| == |labels| - 1 == 0;
        assert y !in rest;
      }
      assert forall k :: 0 <= k < |testY| ==> testY[k] in labels;
    }
  }

  /**
   * `get_model_score`: predict once, then score the predictions with the
   * metric `ScoreMetric` picks.
   */
  function ModelScore<X, L(==)>(predict: X -> seq<L>, testX: X, testY: seq<L>,
                                accuracy: (seq<L>, seq<L>) -> real, rocAuc: (seq<L>, seq<L>) -> real): (score: real)
    ensures ScoreMetric(testY) == Accuracy ==> score == accuracy(testY, predict(testX))
    ensures ScoreMetric(testY) == RocAuc ==> score == rocAuc(testY, predict(testX))
  {
    var preds := predict(testX);
    match ScoreMetric(testY)
    case Accuracy => accuracy(testY, preds)
    case RocAuc => rocAuc(testY, preds)
  }
}
