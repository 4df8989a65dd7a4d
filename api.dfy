/**
 * The `/predict` endpoint: maps what the pipeline returns, or the exception
 * it raises, to a `PredictionResponse` or an HTTP error.
 */
module Api {
  import opened Wrappers
  import Pipeline
  import EmailClean

  /** The dictionary the endpoint reads; `None` marks a missing key. */
  datatype ResultDict = ResultDict(
    prediction: Option<string>,
    confidence: Option<real>,
    detailedResults: Option<seq<(string, Pipeline.ModelResult)>>,
    spamScore: Option<string>)

  /** A call of `predict_single_email`: it returns a dictionary or raises an exception whose text is given. */
  datatype PipelineOutcome = Returned(result: ResultDict) | Raised(message: string)

  /** The response body. */
  datatype PredictionResponse = PredictionResponse(
    prediction: string,
    confidence: real,
    isSpam: bool,
    spamScore: string,
    detailedResults: seq<(string, Pipeline.ModelResult)>)

  datatype HttpOutcome = Ok(response: PredictionResponse) | HttpError(status: nat, detail: string)

  const NotInitialized: string := "Model pipeline not initialized"

  /** `str(KeyError('prediction'))`. */
  const MissingPrediction: string := "'prediction'"

  /** Builds the response from the dictionary: `prediction` is required, the other keys fall back to defaults. */
  function ToResponse(d: ResultDict): (h: HttpOutcome)
    ensures d.prediction.None? <==> h == HttpError(500, MissingPrediction)
    ensures h.Ok? ==> h.response.prediction == d.prediction.value
    ensures h.Ok? ==> (h.response.isSpam <==> d.prediction.value == "Spam")
    ensures h.Ok? ==> h.response.confidence == (if d.confidence.Some? then d.confidence.value else 0.0)
    ensures h.Ok? ==> h.response.spamScore == (if d.spamScore.Some? then d.spamScore.value else "N/A")
    ensures h.Ok? ==> h.response.detailedResults == (if d.detailedResults.Some? then d.detailedResults.value else [])
  {
    if d.prediction.None? then HttpError(500, MissingPrediction)
    else
      var p := d.prediction.value;
      Ok(PredictionResponse(p, d.confidence.GetOr(0.0), p == "Spam", d.spamScore.GetOr("N/A"), d.detailedResults.GetOr([])))
  }

  /** `predict_email`: 503 without a pipeline, 500 with the exception text when prediction raises, else the mapped response. */
  function PredictEmail(pipeline: Option<string -> PipelineOutcome>, content: string): (h: HttpOutcome)
    ensures pipeline.None? ==> h == HttpError(503, NotInitialized)
    ensures pipeline.Some? && pipeline.value(content).Raised? ==> h == HttpError(500, pipeline.value(content).message)
    ensures pipeline.Some? && pipeline.value(content).Returned? ==> h == ToResponse(pipeline.value(content).result)
  {
    match pipeline
    case None => HttpError(503, NotInitialized)
    case Some(predict) =>
      match predict(content)
      case Raised(message) => HttpError(500, message)
      case Returned(d) => ToResponse(d)
  }

  /** The dictionary `predict_single_email` builds, with every key present. */
  function AsDict(p: Pipeline.Prediction): ResultDict {
    ResultDict(Some(p.prediction), Some(p.confidence), Some(p.detailedResults), Some(p.spamScore))
  }

  /** A call of `predict_single_email` on a pipeline holding `models` and `transformer`, with the files it would reload from. */
  function Predictor(models: seq<(string, Pipeline.Classifier)>, transformer: Option<Pipeline.Vectorizer>,
                     vectorizerFile: Result<Pipeline.Vectorizer>, store: string -> Option<Pipeline.Classifier>)
    : string -> PipelineOutcome
  {
    content => Answer(models, transformer, vectorizerFile, store, content)
  }

  /** One call of `predict_single_email`: the exception it raises, or the dictionary it returns. */
  function Answer(models: seq<(string, Pipeline.Classifier)>, transformer: Option<Pipeline.Vectorizer>,
                  vectorizerFile: Result<Pipeline.Vectorizer>, store: string -> Option<Pipeline.Classifier>, content: string)
    : PipelineOutcome
  {
    match Pipeline.Predict(models, transformer, vectorizerFile, store, content)
    case Failure(e) => Raised(e)
    case Success(p) => Returned(AsDict(p))
  }

  /** A complete dictionary is copied into the response field by field; `is_spam` is whether the prediction is exactly `Spam`. */
  lemma CompleteDictCopied(predict: string -> PipelineOutcome, content: string, p: Pipeline.Prediction)
    requires predict(content) == Returned(AsDict(p))
    ensures PredictEmail(Some(predict), content)
         == Ok(PredictionResponse(p.prediction, p.confidence, p.prediction == "Spam", p.spamScore, p.detailedResults))
  {
  }

  /** A pipeline that answers with the consensus of `models` on some features gets a spam answer exactly on a strict majority of spam votes. */
  lemma SpamAnswerIffMajority(predict: string -> PipelineOutcome, models: seq<(string, Pipeline.Classifier)>,
                              features: Pipeline.Features, content: string)
    requires predict(content) == Returned(AsDict(Pipeline.Consensus(Pipeline.Run(models, features))))
    ensures var runs := Pipeline.Run(models, features);
      && PredictEmail(Some(predict), content).Ok?
      && (PredictEmail(Some(predict), content).response.isSpam <==> 2 * Pipeline.SpamVotes(runs) > |models|)
  {
    var runs := Pipeline.Run(models, features);
    CompleteDictCopied(predict, content, Pipeline.Consensus(runs));
    Pipeline.MajorityRule(runs);
  }

  /**
   * End to end: a failing reload or a failing `transform` is a 500 carrying
   * the exception's text; otherwise the answer is spam exactly when strictly
   * more than half of the models in use label the features of the cleaned
   * text Spam.
   */
  lemma IsSpamIffMajority(models: seq<(string, Pipeline.Classifier)>, transformer: Option<Pipeline.Vectorizer>,
                          vectorizerFile: Result<Pipeline.Vectorizer>, store: string -> Option<Pipeline.Classifier>,
                          content: string)
    ensures var h := PredictEmail(Some(Predictor(models, transformer, vectorizerFile, store)), content);
      match Pipeline.Reload(models, transformer, vectorizerFile, store)
      case Failure(e) => h == HttpError(500, e)
      case Success(loaded) =>
        match loaded.1(EmailClean.CleanString(content))
        case Failure(e) => h == HttpError(500, e)
        case Success(features) =>
          h.Ok? && (h.response.isSpam <==> 2 * Pipeline.SpamVotes(Pipeline.Run(loaded.0, features)) > |loaded.0|)
  {
    var predict := Predictor(models, transformer, vectorizerFile, store);
    var r := Pipeline.Predict(models, transformer, vectorizerFile, store, content);
    match Pipeline.Reload(models, transformer, vectorizerFile, store)
    case Failure(e) =>
      assert r == Failure(e);
    case Success(loaded) =>
      match loaded.1(EmailClean.CleanString(content))
      case Failure(e) =>
        assert r == Failure(e);
      case Success(features) =>
        assert r == Success(Pipeline.Consensus(Pipeline.Run(loaded.0, features)));
        SpamAnswerIffMajority(predict, loaded.0, features, content);
  }
}
