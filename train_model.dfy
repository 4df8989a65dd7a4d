/**
 * The bookkeeping of the training script: the label encoding, the loop that
 * trains every defined model, saves it under a file name derived from its
 * display name and keeps the most accurate one.
 *
 * Fitting and scoring are library numerics: `evaluate` gives the metrics a
 * model reaches on the held-out split.
 */
module Training {
  import opened Wrappers
  import opened Strings
  import Config
  import Pipeline

  /** The keys of the `models` dictionary, in order. */
  const DefinedModels: seq<string> := ["SVM", "Naive Bayes", "Random Forest", "Logistic Regression"]

  /** The label column's mapping: spam is 0, ham is 1, any other value is unmapped. */
  function LabelCode(target: string): (r: Option<nat>)
    ensures r.Some? ==> r.value <= 1
  {
    if target == "spam" || target == "Spam" then Some(0)
    else if target == "ham" || target == "Ham" then Some(1)
    else None
  }

  /** The encoding agrees with the prediction side: a model that predicts a training code is read back as the label it encodes. */
  lemma LabelRoundTrip(target: string)
    ensures LabelCode(target).Some? <==> target in ["spam", "Spam", "ham", "Ham"]
    ensures LabelCode(target).Some? ==>
      (Pipeline.Label(NatToString(LabelCode(target).value)) == "Spam" <==> target == "spam" || target == "Spam")
  {
    assert NatToString(0) == "0";
    assert NatToString(1) == "1";
  }

  /** The name a model is saved under: `name.replace(" ", "_")`, which changes each space and nothing else. */
  function SafeName(name: string): string {
    seq(|name|, i requires 0 <= i < |name| => if name[i] == ' ' then '_' else name[i])
  }

  function SavedFileName(name: string): string {
    Pipeline.ModelFileName(SafeName(name))
  }

  /** The saved files are exactly the files the prediction pipeline loads, in the same order. */
  lemma SavedNamesMatchConfig()
    ensures |DefinedModels| == |Config.AvailableModels|
    ensures forall i :: 0 <= i < |DefinedModels| ==> SafeName(DefinedModels[i]) == Config.AvailableModels[i]
    ensures forall i :: 0 <= i < |DefinedModels| ==>
      SavedFileName(DefinedModels[i]) == Pipeline.ModelFileName(Config.AvailableModels[i])
  {
  }

  /** What `evaluate` reports for one model. */
  datatype Metrics = Metrics(accuracy: real, precision: real, recall: real, f1: real)

  /** The model loop of `train_and_evaluate`: records each model's metrics, saves it, and keeps the first model with the highest accuracy above 0. */
  method TrainAll(names: seq<string>, evaluate: string -> Metrics)
    returns (results: seq<(string, Metrics)>, saved: seq<string>, bestName: string, bestAccuracy: real, best: Option<nat>)
    requires forall i, j :: 0 <= i < j < |names| ==> names[i] != names[j]
    ensures |results| == |names| && forall i :: 0 <= i < |names| ==> results[i] == (names[i], evaluate(names[i]))
    ensures |saved| == |names| && forall i :: 0 <= i < |names| ==> saved[i] == SavedFileName(names[i])
    ensures best.None? <==> forall i :: 0 <= i < |names| ==> evaluate(names[i]).accuracy <= 0.0
    ensures best.None? ==> bestName == "" && bestAccuracy == 0.0
    ensures best.Some? ==>
      && best.value < |names|
      && bestName == names[best.value]
      && bestAccuracy == evaluate(names[best.value]).accuracy > 0.0
      && (forall i :: 0 <= i < |names| ==> evaluate(names[i]).accuracy <= bestAccuracy)
      && (forall i :: 0 <= i < best.value ==> evaluate(names[i]).accuracy < bestAccuracy)
  {
    results := [];
    saved := [];
    bestName := "";
    bestAccuracy := 0.0;
    best := None;
    for k := 0 to |names|
      invariant |results| == k && forall i :: 0 <= i < k ==> results[i] == (names[i], evaluate(names[i]))
      invariant |saved| == k && forall i :: 0 <= i < k ==> saved[i] == SavedFileName(names[i])
      invariant best.None? <==> forall i :: 0 <= i < k ==> evaluate(names[i]).accuracy <= 0.0
      invariant best.None? ==> bestName == "" && bestAccuracy == 0.0
      invariant best.Some? ==>
        && best.value < k
        && bestName == names[best.value]
        && bestAccuracy == evaluate(names[best.value]).accuracy > 0.0
        && (forall i :: 0 <= i < k ==> evaluate(names[i]).accuracy <= bestAccuracy)
        && (forall i :: 0 <= i < best.value ==> evaluate(names[i]).accuracy < bestAccuracy)
    {
      var name := names[k];
      var metrics := evaluate(name);
      var acc := metrics.accuracy;
      results := results + [(name, metrics)];
      if acc > bestAccuracy {
        bestAccuracy := acc;
        bestName := name;
        best := Some(k);
      }
      saved := saved + [SavedFileName(name)];
    }
  }
}
