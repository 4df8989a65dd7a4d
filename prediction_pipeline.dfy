/**
 * `PredictionPipeline`: loads the per-model classifiers, runs every loaded
 * model on a cleaned e-mail and combines their votes, and turns a mailbox
 * into one record per message.
 *
 * The shared TF-IDF vectoriser is a `Vectorizer`: the feature row it
 * computes for a cleaned text, or the exception it raises. A loaded model is
 * a `Classifier`: what its `predict` and `predict_proba` together yield for
 * a feature row. Loading from disk is a `store` from file name to classifier
 * (`None` when the file is missing or unpickling fails) and, for the
 * vectoriser, the result of unpickling its file; opening an mbox file is a
 * function from path to the messages it holds.
 */
module Pipeline {
  import opened Wrappers
  import opened Strings
  import opened Config
  import opened Mail
  import EmailClean
  import EmailBody
  import EmailRecipients
  import opened Mailbox

  /** What one model yields on one text: `predict` raised, returned no rows, or returned a first label together with the first row of `predict_proba` (`None` when the model has no `predict_proba`, it raised, or it returned no rows). */
  datatype Outcome = Failed | Empty | Pred(raw: string, proba: Option<seq<real>>)

  /** The features of one text: the single row of `transform([text]).toarray()`. */
  type Features = seq<real>

  type Classifier = Features -> Outcome

  /** `feature_transformer.transform` on one text: its features, or the exception it raises. */
  type Vectorizer = string -> Result<Features>

  /** One entry of `detailed_results`. */
  datatype ModelResult = ModelResult(prediction: string, confidence: real)

  /** The dictionary `predict_single_email` returns. */
  datatype Prediction = Prediction(
    prediction: string,
    confidence: real,
    detailedResults: seq<(string, ModelResult)>,
    spamScore: string)

  // ---------------------------------------------------------------------------
  // One model's result
  // ---------------------------------------------------------------------------

  /** The label of a raw prediction: the training data codes spam as 0. */
  function Label(raw: string): (r: string)
    ensures r == "Spam" <==> raw == "0"
    ensures r == "Spam" || r == "Ham"
  {
    if raw == "0" then "Spam" else "Ham"
  }

  /** `max(xs)`. */
  function MaxOf(xs: seq<real>): (m: real)
    requires |xs| > 0
    ensures m in xs
    ensures forall x :: x in xs ==> x <= m
  {
    if |xs| == 1 then xs[0]
    else
      var rest := MaxOf(xs[1..]);
      assert forall x :: x in xs ==> x == xs[0] || x in xs[1..];
      if xs[0] >= rest then xs[0] else rest
  }

  /** The confidence of a successful prediction: 100 times the largest class probability, or 0 without probabilities. */
  function Confidence(proba: Option<seq<real>>): real {
    if proba.Some? && |proba.value| > 0 then MaxOf(proba.value) * 100.0 else 0.0
  }

  /** What `predict_single_email` records for one model. */
  function Record(o: Outcome): ModelResult {
    match o
    case Failed => ModelResult("Error", 0.0)
    case Empty => ModelResult("Error", 0.0)
    case Pred(raw, proba) => ModelResult(Label(raw), Confidence(proba))
  }

  /** Probabilities as a classifier reports them: each between 0 and 1. */
  predicate ProbabilitiesInRange(o: Outcome) {
    o.Pred? && o.proba.Some? ==> forall x :: x in o.proba.value ==> 0.0 <= x <= 1.0
  }

  /** With probabilities in [0, 1] every recorded confidence lies in [0, 100]. */
  lemma RecordConfidenceInRange(o: Outcome)
    requires ProbabilitiesInRange(o)
    ensures 0.0 <= Record(o).confidence <= 100.0
  {
    if o.Pred? && o.proba.Some? && |o.proba.value| > 0 {
      var m := MaxOf(o.proba.value);
      assert 0.0 <= m <= 1.0;
    }
  }

  // ---------------------------------------------------------------------------
  // Running every model and combining the votes
  // ---------------------------------------------------------------------------

  /** Names of a dictionary's keys, in insertion order. */
  function Names<T>(xs: seq<(string, T)>): seq<string> {
    seq(|xs|, i requires 0 <= i < |xs| => xs[i].0)
  }

  /** Dictionary keys are distinct. */
  predicate DistinctNames<T>(xs: seq<(string, T)>) {
    forall i, j :: 0 <= i < j < |xs| ==> xs[i].0 != xs[j].0
  }

  /** Every loaded model applied to the same features, in insertion order. */
  function Run(models: seq<(string, Classifier)>, features: Features): seq<(string, Outcome)> {
    seq(|models|, i requires 0 <= i < |models| => (models[i].0, models[i].1(features)))
  }

  /** The `results` dictionary: one entry per model, keyed by its name. */
  function Details(runs: seq<(string, Outcome)>): seq<(string, ModelResult)> {
    seq(|runs|, i requires 0 <= i < |runs| => (runs[i].0, Record(runs[i].1)))
  }

  /** Whether a model's outcome counts as a spam vote. */
  predicate IsSpamVote(o: Outcome) {
    o.Pred? && Label(o.raw) == "Spam"
  }

  /** `spam_votes`: the number of models that returned a prediction labelled Spam. */
  function SpamVotes(runs: seq<(string, Outcome)>): (k: nat)
    ensures k <= |runs|
  {
    if runs == [] then 0 else SpamVotes(runs[..|runs| - 1]) + (if IsSpamVote(runs[|runs| - 1].1) then 1 else 0)
  }

  /** The number of recorded results carrying `tag`. */
  function CountLabel(details: seq<(string, ModelResult)>, tag: string): (k: nat)
    ensures k <= |details|
  {
    if details == [] then 0
    else CountLabel(details[..|details| - 1], tag) + (if details[|details| - 1].1.prediction == tag then 1 else 0)
  }

  /** The first entry for key `k`: `results.get(k)`. */
  function Lookup(details: seq<(string, ModelResult)>, k: string): Option<ModelResult> {
    if details == [] then None
    else if details[0].0 == k then Some(details[0].1)
    else Lookup(details[1..], k)
  }

  /** `f"{k}/{n} Models"`. */
  function ScoreText(k: nat, n: nat): string {
    NatToString(k) + ("/" + (NatToString(n) + " Models"))
  }

  /** The vote counts back from a `spam_score` string. */
  function ParseScore(s: string): Option<(nat, nat)> {
    var i := DigitRun(s);
    if 0 < i < |s| && s[i] == '/' then
      var t := s[i + 1..];
      var j := DigitRun(t);
      if 0 < j && t[j..] == " Models" then Some((DecimalValue(s[..i]), DecimalValue(t[..j]))) else None
    else None
  }

  /** The file name a model is stored under. */
  function ModelFileName(name: string): string {
    name + "_model.pkl"
  }

  /** The headline model: `SVM` when loaded, otherwise the first model loaded. */
  function PrimaryName(names: seq<string>): string
    requires |names| > 0
  {
    if "SVM" in names then "SVM" else names[0]
  }

  /** The dictionary `predict_single_email` builds from the models' outcomes. */
  function Consensus(runs: seq<(string, Outcome)>): Prediction {
    if |runs| == 0 then Prediction("Error", 0.0, [], "0/0 Models")
    else
      var k := SpamVotes(runs);
      var details := Details(runs);
      var primary := Lookup(details, PrimaryName(Names(runs)));
      Prediction(
        if 2 * k > |runs| then "Spam" else "Ham",
        if primary.Some? then primary.value.confidence else 0.0,
        details,
        ScoreText(k, |runs|))
  }

  // ---------------------------------------------------------------------------
  // Properties of the consensus
  // ---------------------------------------------------------------------------

  /** `detailed_results` has one entry per loaded model, in load order, including the models that failed. */
  lemma OneEntryPerModel(models: seq<(string, Classifier)>, features: Features)
    ensures Names(Consensus(Run(models, features)).detailedResults) == Names(models)
  {
    var runs := Run(models, features);
    var d := Consensus(runs).detailedResults;
    assert |d| == |models|;
    assert forall i :: 0 <= i < |d| ==> d[i].0 == runs[i].0 == models[i].0;
  }

  /** A model that raised or returned nothing is recorded as `Error` with confidence 0 and is no spam vote. */
  lemma FailedModelRecorded(runs: seq<(string, Outcome)>, i: nat)
    requires i < |runs| && !runs[i].1.Pred?
    ensures Consensus(runs).detailedResults[i] == (runs[i].0, ModelResult("Error", 0.0))
    ensures !IsSpamVote(runs[i].1)
  {
  }

  /** The vote counter equals the number of results labelled Spam. */
  lemma {:induction false} SpamVotesCounted(runs: seq<(string, Outcome)>)
    ensures SpamVotes(runs) == CountLabel(Details(runs), "Spam")
    decreases |runs|
  {
    if runs != [] {
      var init := runs[..|runs| - 1];
      SpamVotesCounted(init);
      assert Details(runs)[..|runs| - 1] == Details(init);
    }
  }

  /** Every result is Spam, Ham or Error. */
  lemma {:induction false} VotePartition(runs: seq<(string, Outcome)>)
    ensures CountLabel(Details(runs), "Spam") + CountLabel(Details(runs), "Ham") + CountLabel(Details(runs), "Error") == |runs|
    decreases |runs|
  {
    if runs != [] {
      var init := runs[..|runs| - 1];
      VotePartition(init);
      assert Details(runs)[..|runs| - 1] == Details(init);
    }
  }

  /** The verdict: Error with no model, Spam on a strict majority of all loaded models, Ham otherwise (two votes of four is Ham). */
  lemma MajorityRule(runs: seq<(string, Outcome)>)
    ensures Consensus(runs).prediction == "Error" <==> |runs| == 0
    ensures Consensus(runs).prediction == "Spam" <==> |runs| > 0 && 2 * SpamVotes(runs) > |runs|
    ensures Consensus(runs).prediction == "Ham" <==> |runs| > 0 && 2 * SpamVotes(runs) <= |runs|
  {
  }

  /** Two non-empty digit strings laid out as `a/b Models` read back as their values. */
  lemma ParseScoreLayout(a: string, b: string)
    requires |a| > 0 && AllDigits(a) && |b| > 0 && AllDigits(b)
    ensures ParseScore(a + ("/" + (b + " Models"))) == Some((DecimalValue(a), DecimalValue(b)))
  {
    var rest := "/" + (b + " Models");
    var s := a + rest;
    DigitRunWhole(a, rest);
    assert s[..|a|] == a && s[|a|] == '/';
    var t := s[|a| + 1..];
    assert t == b + " Models";
    DigitRunWhole(b, " Models");
    assert t[..|b|] == b && t[|b|..] == " Models";
  }

  /** The score string reads back as the spam votes and the number of models. */
  lemma ScoreRoundTrip(k: nat, n: nat)
    ensures ParseScore(ScoreText(k, n)) == Some((k, n))
  {
    ParseScoreLayout(NatToString(k), NatToString(n));
    DecimalRoundTrip(k);
    DecimalRoundTrip(n);
  }

  /** With no model the score `0/0 Models` reads back as no votes of no models. */
  lemma ZeroScore()
    ensures ParseScore("0/0 Models") == Some((0, 0))
  {
    assert NatToString(0) == "0";
    assert ScoreText(0, 0) == "0/0 Models";
    ScoreRoundTrip(0, 0);
  }

  /** `spam_score` spells the spam votes over the number of models; with no model it is `0/0 Models`. */
  lemma ScoreCounts(runs: seq<(string, Outcome)>)
    ensures ParseScore(Consensus(runs).spamScore) == Some((SpamVotes(runs), |runs|))
    ensures SpamVotes(runs) <= |runs|
  {
    if |runs| == 0 {
      ZeroScore();
    } else {
      ScoreRoundTrip(SpamVotes(runs), |runs|);
    }
  }

  lemma {:induction false} LookupAt(d: seq<(string, ModelResult)>, i: nat)
    requires DistinctNames(d) && i < |d|
    ensures Lookup(d, d[i].0) == Some(d[i].1)
    decreases i
  {
    if i > 0 {
      assert d[0].0 != d[i].0;
      assert d[1..][i - 1] == d[i];
      LookupAt(d[1..], i - 1);
    }
  }

  /** The headline confidence is that of the SVM entry if SVM is loaded, else that of the first model. */
  lemma HeadlineConfidence(runs: seq<(string, Outcome)>)
    requires |runs| > 0 && DistinctNames(runs)
    ensures forall i :: 0 <= i < |runs| && runs[i].0 == "SVM" ==> Consensus(runs).confidence == Record(runs[i].1).confidence
    ensures (forall i :: 0 <= i < |runs| ==> runs[i].0 != "SVM") ==> Consensus(runs).confidence == Record(runs[0].1).confidence
  {
    var d := Details(runs);
    assert DistinctNames(d);
    forall i | 0 <= i < |runs| && runs[i].0 == "SVM"
      ensures Consensus(runs).confidence == Record(runs[i].1).confidence
    {
      assert Names(runs)[i] == "SVM";
      LookupAt(d, i);
    }
    if forall i :: 0 <= i < |runs| ==> runs[i].0 != "SVM" {
      assert "SVM" !in Names(runs);
      LookupAt(d, 0);
    }
  }

  /** With probabilities in [0, 1], every confidence in the result lies in [0, 100]. */
  lemma ConfidenceInRange(runs: seq<(string, Outcome)>)
    requires forall i :: 0 <= i < |runs| ==> ProbabilitiesInRange(runs[i].1)
    ensures 0.0 <= Consensus(runs).confidence <= 100.0
    ensures forall i :: 0 <= i < |runs| ==> 0.0 <= Consensus(runs).detailedResults[i].1.confidence <= 100.0
  {
    forall i | 0 <= i < |runs|
      ensures 0.0 <= Details(runs)[i].1.confidence <= 100.0
    {
      RecordConfidenceInRange(runs[i].1);
    }
    if |runs| > 0 {
      LookupInRange(Details(runs), PrimaryName(Names(runs)));
    }
  }

  lemma {:induction false} LookupInRange(d: seq<(string, ModelResult)>, k: string)
    requires forall i :: 0 <= i < |d| ==> 0.0 <= d[i].1.confidence <= 100.0
    ensures Lookup(d, k).Some? ==> 0.0 <= Lookup(d, k).value.confidence <= 100.0
    decreases |d|
  {
    if d != [] && d[0].0 != k {
      LookupInRange(d[1..], k);
    }
  }

  // ---------------------------------------------------------------------------
  // Loading the models
  // ---------------------------------------------------------------------------

  /** `models[name] = c`: an existing key keeps its place and gets the new value, a new key goes last. */
  function Insert(models: seq<(string, Classifier)>, name: string, c: Classifier): seq<(string, Classifier)> {
    if models == [] then [(name, c)]
    else if models[0].0 == name then [(name, c)] + models[1..]
    else [models[0]] + Insert(models[1..], name, c)
  }

  /** The models dictionary after trying each name in turn: a name whose file loads is inserted, any other is skipped. */
  function LoadAll(models: seq<(string, Classifier)>, names: seq<string>, store: string -> Option<Classifier>): seq<(string, Classifier)> {
    if names == [] then models
    else
      var before := LoadAll(models, names[..|names| - 1], store);
      var name := names[|names| - 1];
      match store(ModelFileName(name))
      case None => before
      case Some(c) => Insert(before, name, c)
  }

  /** The names whose file loads, each with its classifier, in the order given. */
  function Loadable(names: seq<string>, store: string -> Option<Classifier>): seq<(string, Classifier)> {
    if names == [] then []
    else
      var name := names[|names| - 1];
      Loadable(names[..|names| - 1], store) + (match store(ModelFileName(name)) case None => [] case Some(c) => [(name, c)])
  }

  lemma {:induction false} InsertNew(models: seq<(string, Classifier)>, name: string, c: Classifier)
    requires name !in Names(models)
    ensures Insert(models, name, c) == models + [(name, c)]
    decreases |models|
  {
    if models != [] {
      assert Names(models)[0] == models[0].0;
      assert Names(models[1..]) == Names(models)[1..];
      InsertNew(models[1..], name, c);
    }
  }

  lemma {:induction false} LoadableNames(names: seq<string>, store: string -> Option<Classifier>)
    ensures forall x :: x in Names(Loadable(names, store)) ==> x in names
    decreases |names|
  {
    if names != [] {
      var init := names[..|names| - 1];
      LoadableNames(init, store);
      var l := Loadable(init, store);
      var name := names[|names| - 1];
      var tail: seq<(string, Classifier)> := match store(ModelFileName(name)) case None => [] case Some(c) => [(name, c)];
      assert Loadable(names, store) == l + tail;
      assert Names(l + tail) == Names(l) + Names(tail);
    }
  }

  /** Loading distinct names into a dictionary that holds none of them appends exactly the loadable ones, in order. */
  lemma {:induction false} LoadAllAppends(models: seq<(string, Classifier)>, names: seq<string>, store: string -> Option<Classifier>)
    requires forall i, j :: 0 <= i < j < |names| ==> names[i] != names[j]
    requires forall x :: x in names ==> x !in Names(models)
    ensures LoadAll(models, names, store) == models + Loadable(names, store)
    decreases |names|
  {
    if names != [] {
      var init := names[..|names| - 1];
      var name := names[|names| - 1];
      LoadAllAppends(models, init, store);
      var before := models + Loadable(init, store);
      if store(ModelFileName(name)).Some? {
        LoadableNames(init, store);
        assert Names(before) == Names(models) + Names(Loadable(init, store));
        assert name !in Names(before);
        InsertNew(before, name, store(ModelFileName(name)).value);
      }
    }
  }

  /** From an empty dictionary, `_load_models` keeps exactly the available models whose file loads, in the configured order. */
  lemma LoadFromEmpty(store: string -> Option<Classifier>)
    ensures LoadAll([], AvailableModels, store) == Loadable(AvailableModels, store)
  {
    LoadAllAppends([], AvailableModels, store);
  }

  /** Inserting keeps the order of the keys and adds a new key at the end. */
  lemma {:induction false} InsertNames(models: seq<(string, Classifier)>, name: string, c: Classifier)
    ensures Names(Insert(models, name, c)) == if name in Names(models) then Names(models) else Names(models) + [name]
    decreases |models|
  {
    if models != [] {
      var tail := models[1..];
      assert Names(models) == [models[0].0] + Names(tail);
      if models[0].0 != name {
        InsertNames(tail, name, c);
        assert Names([models[0]] + Insert(tail, name, c)) == [models[0].0] + Names(Insert(tail, name, c));
      } else {
        assert Names([(name, c)] + tail) == [name] + Names(tail);
      }
    }
  }

  lemma InsertDistinct(models: seq<(string, Classifier)>, name: string, c: Classifier)
    requires DistinctNames(models)
    ensures DistinctNames(Insert(models, name, c))
  {
    InsertNames(models, name, c);
    var r := Insert(models, name, c);
    assert forall i :: 0 <= i < |r| ==> r[i].0 == Names(r)[i];
  }

  /** Loading keeps the dictionary's keys distinct. */
  lemma {:induction false} LoadAllDistinct(models: seq<(string, Classifier)>, names: seq<string>, store: string -> Option<Classifier>)
    requires DistinctNames(models)
    ensures DistinctNames(LoadAll(models, names, store))
    decreases |names|
  {
    if names != [] {
      var init := names[..|names| - 1];
      LoadAllDistinct(models, init, store);
      var name := names[|names| - 1];
      if store(ModelFileName(name)).Some? {
        InsertDistinct(LoadAll(models, init, store), name, store(ModelFileName(name)).value);
      }
    }
  }

  // ---------------------------------------------------------------------------
  // One prediction, with the reload that precedes it
  // ---------------------------------------------------------------------------

  /**
   * The models and vectoriser a prediction works with. A pipeline with a
   * model and a vectoriser uses them; otherwise `_load_models` runs first,
   * and it raises when the vectoriser file does not load.
   */
  function Reload(models: seq<(string, Classifier)>, transformer: Option<Vectorizer>,
                  vectorizerFile: Result<Vectorizer>, store: string -> Option<Classifier>)
    : Result<(seq<(string, Classifier)>, Vectorizer)>
  {
    if models != [] && transformer.Some? then Success((models, transformer.value))
    else
      match vectorizerFile
      case Failure(e) => Failure(e)
      case Success(v) => Success((LoadAll(models, AvailableModels, store), v))
  }

  /** What `predict_single_email` returns, or the exception it raises: from the reload or from the vectoriser. */
  function Predict(models: seq<(string, Classifier)>, transformer: Option<Vectorizer>,
                   vectorizerFile: Result<Vectorizer>, store: string -> Option<Classifier>, emailBody: string)
    : Result<Prediction>
  {
    match Reload(models, transformer, vectorizerFile, store)
    case Failure(e) => Failure(e)
    case Success(loaded) =>
      match loaded.1(EmailClean.CleanString(emailBody))
      case Failure(e) => Failure(e)
      case Success(features) => Success(Consensus(Run(loaded.0, features)))
  }

  /** A pipeline that needs a reload and cannot load its vectoriser raises that loading error, whatever the text. */
  lemma ReloadFailureRaises(models: seq<(string, Classifier)>, transformer: Option<Vectorizer>,
                            vectorizerFile: Result<Vectorizer>, store: string -> Option<Classifier>, emailBody: string)
    requires models == [] || transformer.None?
    requires vectorizerFile.Failure?
    ensures Predict(models, transformer, vectorizerFile, store, emailBody) == Failure(vectorizerFile.error)
  {
  }

  /**
   * A pipeline holding a model and a vectoriser does not reload: the files
   * play no part, the call raises exactly when the vectoriser raises on the
   * cleaned text, and otherwise it answers with the consensus of its models.
   */
  lemma LoadedPipelinePredicts(models: seq<(string, Classifier)>, v: Vectorizer,
                               vectorizerFile: Result<Vectorizer>, store: string -> Option<Classifier>, emailBody: string)
    requires models != []
    ensures var r := Predict(models, Some(v), vectorizerFile, store, emailBody);
      && (r.Failure? <==> v(EmailClean.CleanString(emailBody)).Failure?)
      && (r.Failure? ==> r.error == v(EmailClean.CleanString(emailBody)).error)
      && (r.Success? ==> r.value == Consensus(Run(models, v(EmailClean.CleanString(emailBody)).value)))
  {
  }

  /** A pipeline built without models loads from empty on its first prediction: the models are then exactly the loadable available ones. */
  lemma FirstPredictionLoads(vectorizerFile: Result<Vectorizer>, store: string -> Option<Classifier>)
    requires vectorizerFile.Success?
    ensures Reload([], None, vectorizerFile, store) == Success((Loadable(AvailableModels, store), vectorizerFile.value))
  {
    LoadFromEmpty(store);
  }

  /** The body of the mailbox loop for one message. */
  method ProcessMessage(message: Message) returns (r: Result<MailRecord>)
    ensures r == MessageRecord(message)
  {
    var labels := LabelHeader(message.gmailLabels);
    var category := Category(labels);
    if category.Failure? {
      return Failure(category.error);
    }
    var time := message.date.GetOr(EmailClean.Str(""));
    var recipients := EmailRecipients.AllRecipients(message);
    var subject := EmailClean.CleanText(message.subject.GetOr(EmailClean.Str("")));
    var body := EmailBody.ExtractBody(message.body);
    var direction := Direction(labels);
    r := Success(MailRecord(time, EmailClean.CleanString(recipients), subject, EmailClean.CleanString(body),
                            category.value, direction.value));
  }

  /** The mailbox loop: one record per message, in mailbox order, until a message raises. */
  method ProcessMessages(msgs: seq<Message>) returns (r: Result<seq<MailRecord>>)
    ensures r == MapResults(msgs, MessageRecord)
  {
    var data := [];
    for i := 0 to |msgs|
      invariant MapResults(msgs[..i], MessageRecord) == Success(data)
    {
      var row := ProcessMessage(msgs[i]);
      if row.Failure? {
        MapResultsStop(msgs, i, MessageRecord, data);
        return Failure(row.error);
      }
      MapResultsStep(msgs, i, MessageRecord, data);
      data := data + [row.value];
    }
    assert msgs[..|msgs|] == msgs;
    r := Success(data);
  }

  // ---------------------------------------------------------------------------
  // The pipeline object
  // ---------------------------------------------------------------------------

  class PredictionPipeline {
    /** The models dictionary, in insertion order. */
    var models: seq<(string, Classifier)>
    /** The loaded mailbox, if any. */
    var mailbox: Option<seq<Message>>
    /** Whether the mailbox's file has been closed. */
    var mailboxClosed: bool
    /** The shared vectoriser, once loaded. */
    var transformer: Option<Vectorizer>

    /** The models dictionary has distinct keys, and models are only loaded after the vectoriser. */
    predicate Valid()
      reads this
    {
      DistinctNames(models) && (models != [] ==> transformer.Some?)
    }

    /** `PredictionPipeline(load_models=False)`: no models, no vectoriser, no mailbox. */
    constructor ()
      ensures Valid()
      ensures models == [] && transformer == None
      ensures mailbox == None && !mailboxClosed
    {
      models := [];
      mailbox := None;
      mailboxClosed := false;
      transformer := None;
    }

    /** `PredictionPipeline(load_models)`: with `load_models`, a vectoriser file that fails to load makes `__init__` raise, and no pipeline exists. */
    static method Create(loadModels: bool, vectorizerFile: Result<Vectorizer>, store: string -> Option<Classifier>)
      returns (r: Result<PredictionPipeline>)
      ensures loadModels && vectorizerFile.Failure? ==> r == Failure(vectorizerFile.error)
      ensures !loadModels || vectorizerFile.Success? ==> r.Success?
      ensures r.Success? ==> fresh(r.value) && r.value.Valid()
      ensures r.Success? ==> r.value.mailbox == None && !r.value.mailboxClosed
      ensures r.Success? ==> r.value.models == (if loadModels then Loadable(AvailableModels, store) else [])
      ensures r.Success? ==> r.value.transformer == (if loadModels then Some(vectorizerFile.value) else None)
    {
      var pipeline := new PredictionPipeline();
      if loadModels {
        var loaded := pipeline.LoadModels(vectorizerFile, store);
        if loaded.Failure? {
          return Failure(loaded.error);
        }
        LoadFromEmpty(store);
      }
      r := Success(pipeline);
    }

    /** `_load_models`: loads the vectoriser, raising when its file does not load, then tries every available model's file and inserts the ones that load. */
    method LoadModels(vectorizerFile: Result<Vectorizer>, store: string -> Option<Classifier>) returns (r: Result<()>)
      requires Valid()
      modifies this
      ensures Valid()
      ensures vectorizerFile.Failure? ==> r == Failure(vectorizerFile.error) && models == old(models) && transformer == old(transformer)
      ensures vectorizerFile.Success? ==> r == Success(())
      ensures vectorizerFile.Success? ==> transformer == Some(vectorizerFile.value) && models == LoadAll(old(models), AvailableModels, store)
      ensures mailbox == old(mailbox) && mailboxClosed == old(mailboxClosed)
    {
      if vectorizerFile.Failure? {
        return Failure(vectorizerFile.error);
      }
      transformer := Some(vectorizerFile.value);
      ghost var start := models;
      for i := 0 to |AvailableModels|
        invariant models == LoadAll(start, AvailableModels[..i], store)
        invariant transformer == Some(vectorizerFile.value)
        invariant mailbox == old(mailbox) && mailboxClosed == old(mailboxClosed)
      {
        var name := AvailableModels[i];
        assert AvailableModels[..i + 1][..i] == AvailableModels[..i];
        match store(ModelFileName(name)) {
          case None =>
          case Some(c) =>
            models := Insert(models, name, c);
        }
      }
      assert AvailableModels[..|AvailableModels|] == AvailableModels;
      LoadAllDistinct(start, AvailableModels, store);
      r := Success(());
    }

    /**
     * `predict_single_email`: loads the models first when none is loaded or
     * the vectoriser is missing, then cleans the text, computes its features,
     * runs every model, records each result and counts the spam votes. A
     * failing vectoriser load or `transform` raises out of the call.
     */
    method PredictSingleEmail(emailBody: string, vectorizerFile: Result<Vectorizer>, store: string -> Option<Classifier>)
      returns (r: Result<Prediction>)
      requires Valid()
      modifies this
      ensures Valid()
      ensures r == Predict(old(models), old(transformer), vectorizerFile, store, emailBody)
      ensures var loaded := Reload(old(models), old(transformer), vectorizerFile, store);
        if loaded.Success? then models == loaded.value.0 && transformer == Some(loaded.value.1)
        else models == old(models) && transformer == old(transformer)
      ensures mailbox == old(mailbox) && mailboxClosed == old(mailboxClosed)
    {
      if models == [] || transformer.None? {
        var loaded := LoadModels(vectorizerFile, store);
        if loaded.Failure? {
          return Failure(loaded.error);
        }
      }
      var cleaned := EmailClean.CleanString(emailBody);
      var features := transformer.value(cleaned);
      match features {
        case Failure(e) =>
          r := Failure(e);
        case Success(f) =>
          var p := Vote(models, f);
          r := Success(p);
      }
    }

    /** Everything after the features are computed: run the models, then build the verdict, headline confidence and score. */
    static method Vote(models: seq<(string, Classifier)>, features: Features) returns (p: Prediction)
      ensures p == Consensus(Run(models, features))
    {
      ghost var runs := Run(models, features);
      var results, spamVotes := RunModels(models, features);
      var voteCount := |models|;
      var consensus := if 2 * spamVotes > voteCount then "Spam" else "Ham";
      if |results| == 0 {
        return Prediction("Error", 0.0, [], "0/0 Models");
      }
      assert Names(models) == Names(runs);
      var primaryName := if "SVM" in Names(models) then "SVM" else models[0].0;
      var primary := Lookup(results, primaryName);
      var confidence := if primary.Some? then primary.value.confidence else 0.0;
      p := Prediction(consensus, confidence, results, ScoreText(spamVotes, voteCount));
    }

    /** The prediction loop: every model in order, its recorded result and the running count of spam votes. */
    static method RunModels(models: seq<(string, Classifier)>, features: Features) returns (results: seq<(string, ModelResult)>, spamVotes: nat)
      ensures results == Details(Run(models, features))
      ensures spamVotes == SpamVotes(Run(models, features))
    {
      ghost var runs := Run(models, features);
      results := [];
      spamVotes := 0;
      for i := 0 to |models|
        invariant results == Details(runs[..i])
        invariant spamVotes == SpamVotes(runs[..i])
      {
        assert runs[..i + 1][..i] == runs[..i];
        assert runs[i] == (models[i].0, models[i].1(features));
        var entry, vote := RecordModel(models[i].0, models[i].1(features));
        results := results + [entry];
        if vote {
          spamVotes := spamVotes + 1;
        }
      }
      assert runs[..|models|] == runs;
    }

    /** The body of the prediction loop for one model: its recorded result and whether it is a spam vote. */
    static method RecordModel(name: string, outcome: Outcome) returns (entry: (string, ModelResult), vote: bool)
      ensures entry == (name, Record(outcome))
      ensures vote == IsSpamVote(outcome)
    {
      match outcome {
        case Failed =>
          entry, vote := (name, ModelResult("Error", 0.0)), false;
        case Empty =>
          entry, vote := (name, ModelResult("Error", 0.0)), false;
        case Pred(raw, proba) =>
          var verdict := if raw == "0" then "Spam" else "Ham";
          var confidence := 0.0;
          if proba.Some? && |proba.value| > 0 {
            confidence := MaxOf(proba.value) * 100.0;
          }
          entry := (name, ModelResult(verdict, confidence));
          vote := verdict == "Spam";
      }
    }

    /** `load_mailbox`: opens the file; the new mailbox is open. */
    method LoadMailbox(path: string, open: string -> seq<Message>)
      modifies this
      ensures mailbox == Some(open(path)) && !mailboxClosed
      ensures models == old(models) && transformer == old(transformer)
    {
      mailbox := Some(open(path));
      mailboxClosed := false;
    }

    /**
     * `process_mailbox`: loads the mailbox when given a non-empty path, fails
     * without one, and otherwise emits one record per message and closes the
     * file. A message that raises ends the call before the file is closed.
     * Reading a message of a closed file raises, so a second call without a
     * path fails on a non-empty mailbox.
     */
    method ProcessMailbox(path: Option<string>, open: string -> seq<Message>) returns (r: Result<seq<MailRecord>>)
      modifies this
      ensures mailbox == (if Reopens(path) then Some(open(path.value)) else old(mailbox))
      ensures models == old(models) && transformer == old(transformer)
      ensures mailbox.None? ==> r == Failure(NoMailboxMessage) && mailboxClosed == old(mailboxClosed)
      ensures mailbox.Some? && (Reopens(path) || !old(mailboxClosed) || mailbox.value == [])
          ==> r == MapResults(mailbox.value, MessageRecord)
      ensures mailbox.Some? && !Reopens(path) && old(mailboxClosed) && mailbox.value != []
          ==> r == Failure(ClosedFileMessage)
      ensures mailbox.Some? ==> mailboxClosed == (r.Success? || (!Reopens(path) && old(mailboxClosed)))
    {
      if Reopens(path) {
        LoadMailbox(path.value, open);
      }
      if mailbox.None? {
        return Failure(NoMailboxMessage);
      }
      if mailboxClosed && mailbox.value != [] {
        return Failure(ClosedFileMessage);
      }
      r := ProcessMessages(mailbox.value);
      if r.Success? {
        mailboxClosed := true;
      }
    }
  }
}
