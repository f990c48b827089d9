/**
 * Top-1 selection of the image classifier (`predict` in backend/app/classifier.py).
 *
 * The model's output vector is taken as an input: only the ordering of its
 * scores matters, so they are modelled as `real`. The label catalog is the
 * ordered list of English class names (`CLASS_NAMES_EN`) and the map from
 * English to Korean names (`CLASS_NAMES_KO`).
 */
module Classifier {
  import opened Wrappers

  datatype Catalog = Catalog(namesEn: seq<string>, namesKo: map<string, string>)

  /** What `predict` returns: English name, Korean name, top-1 probability. */
  datatype Prediction = Prediction(enName: string, koName: string, probability: real)

  datatype PredictError =
    /** The model's output length is neither the catalog length nor one more (a `ValueError`). */
    | LengthMismatch(modelClasses: nat, labelClasses: nat)
    /** `np.argmax` of an empty vector (an empty catalog) raises. */
    | EmptyScores

  /**
   * Aligns the model's output with a catalog of `numLabels` classes: a vector
   * one longer loses its trailing entry, one of equal length is kept as is,
   * any other length is a mismatch.
   */
  function Reconcile(probs: seq<real>, numLabels: nat): (r: Result<seq<real>, PredictError>)
    ensures r.Success? <==> |probs| == numLabels || |probs| == numLabels + 1
    ensures r.Success? ==> |r.value| == numLabels && r.value <= probs
    ensures r.Success? && |probs| == numLabels ==> r.value == probs
    ensures r.Failure? ==> r.error == LengthMismatch(|probs|, numLabels)
  {
    if |probs| == numLabels + 1 then Success(probs[..numLabels])
    else if |probs| != numLabels then Failure(LengthMismatch(|probs|, numLabels))
    else Success(probs)
  }

  /** `i` is the lowest index holding the largest score of `s`. */
  ghost predicate IsFirstMax(s: seq<real>, i: int) {
    && 0 <= i < |s|
    && (forall j :: 0 <= j < |s| ==> s[j] <= s[i])
    && (forall j :: 0 <= j < i ==> s[j] < s[i])
  }

  /** The first maximal index in `s` (`np.argmax`), scanning left to right. */
  function ArgMax(s: seq<real>): (k: nat)
    requires |s| > 0
    ensures IsFirstMax(s, k)
    decreases |s|
  {
    if |s| == 1 then 0
    else
      var k := ArgMax(s[..|s| - 1]);
      if s[|s| - 1] > s[k] then |s| - 1 else k
  }

  /** The first maximal index is unique: IsFirstMax pins down one index. */
  lemma FirstMaxUnique(s: seq<real>, i: int, j: int)
    requires IsFirstMax(s, i) && IsFirstMax(s, j)
    ensures i == j
  {
    assert s[j] <= s[i] && s[i] <= s[j];
  }

  /** `CLASS_NAMES_KO.get(en_name, en_name)`. */
  function DisplayName(catalog: Catalog, enName: string): (r: string)
    ensures enName in catalog.namesKo ==> r == catalog.namesKo[enName]
    ensures enName !in catalog.namesKo ==> r == enName
  {
    if enName in catalog.namesKo then catalog.namesKo[enName] else enName
  }

  /**
   * `predict` after inference: reconcile the output length, pick the first
   * maximal score, and resolve its English and Korean names.
   */
  function Predict(probs: seq<real>, catalog: Catalog): (r: Result<Prediction, PredictError>)
    ensures r.Failure? && r.error.LengthMismatch? <==>
      |probs| != |catalog.namesEn| && |probs| != |catalog.namesEn| + 1
    ensures r == Failure(EmptyScores) <==> |catalog.namesEn| == 0 && |probs| <= 1
    ensures r.Success? ==>
      exists i :: IsFirstMax(probs[..|catalog.namesEn|], i) &&
        r.value == Prediction(catalog.namesEn[i], DisplayName(catalog, catalog.namesEn[i]), probs[i])
  {
    var numLabels := |catalog.namesEn|;
    match Reconcile(probs, numLabels)
    case Failure(e) => Failure(e)
    case Success(scores) =>
      if scores == [] then Failure(EmptyScores)
      else
        var topIdx := ArgMax(scores);
        assert IsFirstMax(probs[..numLabels], topIdx) by {
          assert scores == probs[..numLabels];
        }
        var enName := catalog.namesEn[topIdx];
        Success(Prediction(enName, DisplayName(catalog, enName), scores[topIdx]))
  }

  /**
   * Whenever the lengths reconcile and the catalog is not empty, the result is
   * the class at the lowest maximal index of the first L scores, with that
   * score as its probability; in particular, of two equal maximal scores the
   * earlier one wins.
   */
  lemma PredictSelectsFirstMax(probs: seq<real>, catalog: Catalog, i: int)
    requires |probs| == |catalog.namesEn| || |probs| == |catalog.namesEn| + 1
    requires IsFirstMax(probs[..|catalog.namesEn|], i)
    ensures Predict(probs, catalog) ==
      Success(Prediction(catalog.namesEn[i], DisplayName(catalog, catalog.namesEn[i]), probs[i]))
  {
    var r := Predict(probs, catalog);
    var j :| IsFirstMax(probs[..|catalog.namesEn|], j) &&
      r.value == Prediction(catalog.namesEn[j], DisplayName(catalog, catalog.namesEn[j]), probs[j]);
    FirstMaxUnique(probs[..|catalog.namesEn|], i, j);
  }

  /**
   * When the model emits one extra score, that trailing score never influences
   * the outcome: replacing it by any value, or dropping it, gives the same result.
   */
  lemma PredictIgnoresTrailingScore(probs: seq<real>, catalog: Catalog, x: real)
    requires |probs| == |catalog.namesEn| + 1
    ensures Predict(probs[|catalog.namesEn| := x], catalog) == Predict(probs, catalog)
    ensures Predict(probs[..|catalog.namesEn|], catalog) == Predict(probs, catalog)
  {
    var n := |catalog.namesEn|;
    assert probs[n := x][..n] == probs[..n];
    assert probs[..n][..n] == probs[..n];
  }
}
