# Spam e-mail detection backend: a Dafny model

This project models the Python backend of a spam e-mail detector. The backend has four parts:

- **Text cleaning** (`clean_text`). It makes a string safe for a spreadsheet cell. Currency signs become words. Numbers of three or more digits become the token `num`. Control and zero-width characters are removed. The text is cut to 32767 characters. A leading `=`, `+`, `-` or `@` gets an apostrophe in front.
- **Message extraction** (`extract_body`, `all_recipients`). `extract_body` joins the plain-text and HTML parts of a message and normalises their whitespace. `all_recipients` builds the sorted, duplicate-free list of the addresses in `From`, `To`, `Cc` and `Bcc`.
- **The prediction pipeline** (`PredictionPipeline`). It loads the configured models (`SVM`, `Naive_Bayes`, `Random_Forest`, `Logistic_Regression`) from `<name>_model.pkl`. It runs every loaded model on a cleaned e-mail and combines their answers:
  - a strict majority of Spam votes gives `Spam`;
  - otherwise the answer is `Ham`;
  - with no model loaded the answer is `Error`.

  The headline confidence comes from SVM when SVM is loaded, otherwise from the first model. The vote count is reported as `"k/n Models"`. The pipeline also turns an mbox mailbox into one record per message, with a category and a direction.
- **The HTTP endpoint** (`POST /predict`) and **the training script**. The endpoint maps the pipeline's dictionary to a response, or to a 503 or 500 error. The training script encodes spam as 0 and ham as 1, trains the four models, saves each one under a file name derived from its display name and keeps the most accurate.

Files:

- `wrappers.dfy`: `Option` and `Result`.
- `strings.dfy`: the parts of Python's `str` that the code relies on.
- `config.dfy`: the list of available models.
- `mail.dfy`: a parsed message.
- `email_clean.dfy`, `email_body.dfy`, `email_recipients.dfy`: `email_utils.py`.
- `mailbox.dfy`: the records `process_mailbox` builds.
- `prediction_pipeline.dfy`: the pipeline class.
- `api.dfy`: `main.py`.
- `train_model.dfy`: the training bookkeeping.

How the environment is represented:

- The shared TF-IDF vectoriser is a `Vectorizer`. It maps a cleaned text to its feature row, or to the exception that `transform` raises.
- A loaded model is a `Classifier`. It maps a feature row to what `predict` and `predict_proba` yield together: an exception, an empty prediction, or a first label with an optional first row of probabilities.
- The model files are a `store`. It maps a file name to a classifier, or to `None` when the file is missing or fails to load. The vectoriser file is a `Result`: the vectoriser, or the exception its unpickling raises.
- Opening an mbox file is a function from a path to its messages.
- The metrics of a trained model are a function `evaluate`.

## Model

| member | source | states |
|---|---|---|
| Strings.Contains | backend/src/pipeline/prediction_pipeline.py:141-151 | `sub in s`; its meaning is stated by Strings.ContainsAt. |
| Strings.ContainsAt | backend/src/pipeline/prediction_pipeline.py:141-151 | `sub in s` holds exactly when `sub` occurs at some position of `s`. |
| Strings.Lower | backend/src/pipeline/prediction_pipeline.py:139 | `lower()` keeps the length and lower-cases each character independently. |
| Strings.NatToString | backend/src/pipeline/prediction_pipeline.py:118 | An integer prints as a non-empty run of digits. It has no leading zero unless the value is 0. |
| Strings.DecimalRoundTrip | backend/src/pipeline/prediction_pipeline.py:118 | Reading a printed count back gives the count. |
| Strings.NatToStringInjective | backend/src/pipeline/prediction_pipeline.py:118 | Different counts print differently. |
| Strings.Below | backend/src/utils/email_utils.py:41 | Python's `<` on strings: code points compared left to right, a proper prefix first. Its order laws are the four lemmas below. |
| Strings.BelowIrreflexive | backend/src/utils/email_utils.py:41 | The string order that `sorted` uses is irreflexive. |
| Strings.BelowTransitive | backend/src/utils/email_utils.py:41 | The string order is transitive. |
| Strings.BelowTotal | backend/src/utils/email_utils.py:41 | Any two different strings are ordered one way or the other. |
| Strings.BelowAsymmetric | backend/src/utils/email_utils.py:41 | The string order is asymmetric. |
| Strings.ReplaceChar | backend/src/utils/email_utils.py:51-53 | Replacing a character by a text that lacks it leaves no occurrence of it. |
| Strings.ReplaceCharChars | backend/src/utils/email_utils.py:51-53 | Replacement writes only characters of the input or of the replacement. |
| Strings.ReplaceCharAbsent | backend/src/utils/email_utils.py:51-53 | Text without the character is unchanged. |
| Strings.ReplaceCharAppend | backend/src/utils/email_utils.py:51-53 | Replacement distributes over concatenation. |
| Strings.ReplaceCharSingle | backend/src/utils/email_utils.py:51-53 | One character is replaced exactly when it is the target. |
| Strings.Filter | backend/src/utils/email_utils.py:59 | Removing a character class never lengthens the text. |
| Strings.FilterAppend | backend/src/utils/email_utils.py:59 | Removing a character class distributes over concatenation. |
| Strings.FilterChars | backend/src/utils/email_utils.py:59 | Removal keeps only input characters, and none of the class. |
| Strings.FilterNone | backend/src/utils/email_utils.py:59 | Text with no character of the class is unchanged. |
| Strings.FilterAll | backend/src/utils/email_utils.py:59 | Text made only of the class becomes empty. |
| Strings.JoinWith | backend/src/utils/email_utils.py:41 | Joining no items gives `""`. Joining one item gives that item. |
| Strings.JoinWithEmpty | backend/src/utils/email_utils.py:41 | With a non-empty separator, the join is empty exactly for no items or for one empty item. |
| Strings.SpanLength | backend/src/utils/email_utils.py:29-31 | A character-class run at the start of a text is maximal. |
| Strings.DigitRun | backend/src/utils/email_utils.py:57 | The run of ASCII digits at the start of a text is maximal. |
| EmailClean.ReplaceCurrency | backend/src/utils/email_utils.py:51-53 | No `$`, `£` or `€` is left after the currency pass. |
| EmailClean.ReplaceCurrencyAbsent | backend/src/utils/email_utils.py:51-53 | Text without currency signs passes unchanged. |
| EmailClean.CurrencyAppend | backend/src/utils/email_utils.py:51-53 | The currency pass works character by character. |
| EmailClean.CurrencyWords | backend/src/utils/email_utils.py:51-53 | `$`, `£` and `€` become `" dollar "`, `" pound "` and `" euro "`. Every other character is kept. |
| EmailClean.IsWordChar | backend/src/utils/email_utils.py:57 | The ASCII `\w` class that decides `\b`; EmailClean.NumberTokenReplaced and EmailClean.RunKept state the replacement in its terms. |
| EmailClean.ReplaceNumbers | backend/src/utils/email_utils.py:57 | The `\b\d{3,}\b` pass, scanning runs of digits left to right. Its behaviour is stated by EmailClean.NumberTokenReplaced, EmailClean.RunKept, EmailClean.ReplaceNumbersAppend and EmailClean.ReplaceNumbersIdentity. |
| EmailClean.ReplaceNumbersNonDigitStart | backend/src/utils/email_utils.py:57 | Text that does not start with a digit is rewritten the same whatever precedes it. |
| EmailClean.ReplaceNumbersAppend | backend/src/utils/email_utils.py:57 | The number pass is compositional at a boundary that cuts no digit run. |
| EmailClean.ReplaceNumbersChars | backend/src/utils/email_utils.py:57 | The number pass writes only input characters or characters of `" num "`. |
| EmailClean.NumberTokenReplaced | backend/src/utils/email_utils.py:57 | A run of 3 or more digits between word boundaries becomes `" num "`. |
| EmailClean.RunKept | backend/src/utils/email_utils.py:57 | A digit run that is shorter than 3, or is glued to a word character, is copied unchanged. |
| EmailClean.ReplaceNumbersIdentity | backend/src/utils/email_utils.py:57 | Text without three consecutive digits is unchanged. |
| EmailClean.IsControl | backend/src/utils/email_utils.py:59 | The character class of line 59: U+0000-U+0008, U+000B-U+000C, U+000E-U+001F, U+200B-U+200F and U+FEFF. |
| EmailClean.StripControls | backend/src/utils/email_utils.py:59 | Removes that class. Its behaviour is stated by EmailClean.StripControlsChars, EmailClean.StripControlsAppend and EmailClean.StripControlsIdentity. |
| EmailClean.StripControlsChars | backend/src/utils/email_utils.py:59 | The result holds no removed character, only input characters, and is no longer than the input. |
| EmailClean.StripControlsAppend | backend/src/utils/email_utils.py:59 | The removal works character by character. |
| EmailClean.StripControlsIdentity | backend/src/utils/email_utils.py:59 | Text without those characters (tab, LF and CR are kept) is unchanged. |
| EmailClean.IsFormulaStart | backend/src/utils/email_utils.py:62 | The four leading characters `=`, `+`, `-` and `@`; EmailClean.GuardFormula and EmailClean.CleanString state the guard in its terms. |
| EmailClean.GuardFormula | backend/src/utils/email_utils.py:62-63 | An apostrophe is prefixed exactly when the text starts with `=`, `+`, `-` or `@`. The result never starts with one of those. |
| EmailClean.CleanString | backend/src/utils/email_utils.py:50-64 | A cleaned string has no currency sign and no removed character. It holds at most 32767 characters plus the guard. It never starts with a formula sign. |
| EmailClean.CleanText | backend/src/utils/email_utils.py:46-64 | A non-string is returned as is. A string gives exactly the cleaned string of its text, with every property EmailClean.CleanString states. |
| EmailClean.CleanStringPlain | backend/src/utils/email_utils.py:46-64 | Plain text is returned unchanged. Plain means no currency sign, no 3-digit run, no removed character, no leading formula sign and at most 32767 characters. |
| EmailClean.CleanHelloWorld | backend/src/utils/email_utils.py:46-64 | `clean_text("Hello World")` is `"Hello World"`. |
| EmailBody.IsSpace | backend/src/utils/email_utils.py:31-32 | The `str.isspace` set behind `\s` and `strip()`; EmailBody.CollapseNoAdjacent, EmailBody.Strip and EmailBody.NormalizeBody state the passes in its terms. |
| EmailBody.Collapse | backend/src/utils/email_utils.py:29-31 | `re.sub(r'[..]+', ' ')` for a class: each maximal run becomes one space. Its behaviour is stated by the Collapse lemmas below and EmailBody.WordsCollapse. |
| EmailBody.CollapseChars | backend/src/utils/email_utils.py:29-31 | Each `re.sub(r'[..]+', ' ')` pass writes only spaces and input characters outside the class. |
| EmailBody.CollapseNoAdjacent | backend/src/utils/email_utils.py:31 | After the whitespace pass, no two whitespace characters are adjacent. |
| EmailBody.CollapseIdentity | backend/src/utils/email_utils.py:29-31 | Text without characters of the class is unchanged. |
| EmailBody.CollapseSpacesIdentity | backend/src/utils/email_utils.py:31 | Text whose whitespace is isolated single spaces is unchanged by the whitespace pass. |
| EmailBody.CollapseVisible | backend/src/utils/email_utils.py:29-31 | Collapsing separators keeps every other character, in order. |
| EmailBody.TrailingSpaces | backend/src/utils/email_utils.py:32 | Counts exactly the maximal whitespace suffix. |
| EmailBody.Strip | backend/src/utils/email_utils.py:32 | `strip()` leaves no whitespace at either end and never lengthens the text. |
| EmailBody.StripSlices | backend/src/utils/email_utils.py:32 | `strip()` removes whitespace only, and only at the two ends. |
| EmailBody.StripKeepsWords | backend/src/utils/email_utils.py:32 | `strip()` keeps every non-separator character, in order. |
| EmailBody.StripKeepsChars | backend/src/utils/email_utils.py:32 | `strip()` only drops characters. |
| EmailBody.StripKeepsNoAdjacent | backend/src/utils/email_utils.py:32 | `strip()` keeps "no adjacent whitespace". |
| EmailBody.StripIdentity | backend/src/utils/email_utils.py:32 | Text with non-space ends is unchanged by `strip()`. |
| EmailBody.NormalizeBody | backend/src/utils/email_utils.py:28-32 | A normalised body is empty for no parts. Its only separator is the single space. It has no two adjacent whitespace characters and no whitespace at either end. |
| EmailBody.NormalizeBodyKeepsWords | backend/src/utils/email_utils.py:28-32 | Normalisation keeps every non-separator character of the joined parts, in order. |
| EmailBody.NormalizedUnchanged | backend/src/utils/email_utils.py:28-32 | Text already in normal form is a fixed point. |
| EmailBody.NormalizeBodyIdempotent | backend/src/utils/email_utils.py:28-32 | Normalising twice equals normalising once. |
| EmailBody.Words | backend/src/utils/email_utils.py:28-32 | The maximal runs of non-separator characters, in order; at least one when the text starts with a word character. |
| EmailBody.WordsShape | backend/src/utils/email_utils.py:28-32 | Every word is non-empty and holds no separator. |
| EmailBody.WordsVisible | backend/src/utils/email_utils.py:28-32 | The words run together are exactly the non-separator characters. |
| EmailBody.WordsCollapse | backend/src/utils/email_utils.py:29-31 | Each collapsing pass keeps the words. |
| EmailBody.WordsStrip | backend/src/utils/email_utils.py:32 | `strip()` keeps the words. |
| EmailBody.NormalizedIsJoinedWords | backend/src/utils/email_utils.py:28-32 | Text in normal form is its words joined by single spaces. |
| EmailBody.NormalizeBodyWords | backend/src/utils/email_utils.py:28-32 | The normalised body is exactly the words of the joined parts, joined by single spaces. |
| EmailBody.Selected | backend/src/utils/email_utils.py:14-16 | A part is kept when it is `text/plain` or `text/html` with a non-empty payload; stated by EmailBody.SelectedTextsSingle and EmailBody.SelectedTextsMembers. |
| EmailBody.SelectedTexts | backend/src/utils/email_utils.py:12-20 | At most one text per part is kept. |
| EmailBody.SelectedTextsSingle | backend/src/utils/email_utils.py:14-20 | One part yields its text exactly when it is `text/plain` or `text/html` with a non-empty payload. |
| EmailBody.SelectedTextsAppend | backend/src/utils/email_utils.py:12-20 | Choosing works part by part in `walk()` order: the texts of two consecutive stretches of parts are those of the first followed by those of the second. |
| EmailBody.SelectedTextsMembers | backend/src/utils/email_utils.py:12-20 | A text is kept exactly when some `text/plain` or `text/html` part with a non-empty payload carries it. |
| EmailBody.BodyTexts | backend/src/utils/email_utils.py:12-26 | The texts that are joined: the selected parts of a multipart message, or a single part's non-empty payload; stated by EmailBody.SinglePartAnyType and EmailBody.SelectedTextsAppend. |
| EmailBody.SinglePartAnyType | backend/src/utils/email_utils.py:12-26 | A single-part message keeps its non-empty payload whatever its content type. The same part inside a multipart message is kept only when it is plain text or HTML. |
| EmailBody.ExtractBody | backend/src/utils/email_utils.py:9-32 | The loop result equals the normalisation of the selected texts, and it is in normal form. |
| EmailRecipients.HeaderPairs | backend/src/utils/email_utils.py:40 | `getaddresses([msg.get(h, "")])`: an absent header gives no pairs; used by EmailRecipients.RecipientListSpec. |
| EmailRecipients.Fields | backend/src/utils/email_utils.py:38-40 | The `extend` loop over `From`, `To`, `Cc` and `Bcc`, in that order; stated by EmailRecipients.RecipientListSpec and EmailRecipients.AllRecipients. |
| EmailRecipients.Addresses | backend/src/utils/email_utils.py:41 | Only non-empty addresses are listed. |
| EmailRecipients.AddressesMembers | backend/src/utils/email_utils.py:41 | An address is listed exactly when it is non-empty and some header pair carries it. |
| EmailRecipients.InsertSorted | backend/src/utils/email_utils.py:41 | Inserts into a strictly sorted list; stated by EmailRecipients.InsertSortedKeeps. |
| EmailRecipients.InsertSortedKeeps | backend/src/utils/email_utils.py:41 | Sorted insertion keeps the list strictly sorted. Its elements are the old ones plus the new one. |
| EmailRecipients.SortedSet | backend/src/utils/email_utils.py:41 | `sorted(set(xs))`; stated by EmailRecipients.SortedSetSpec and EmailRecipients.StrictlySortedUnique. |
| EmailRecipients.SortedSetSpec | backend/src/utils/email_utils.py:41 | `sorted(set(xs))` is strictly ascending with exactly the elements of `xs`. |
| EmailRecipients.StrictlySortedUnique | backend/src/utils/email_utils.py:41 | Two strictly sorted lists with the same elements are equal, so the order `sorted` gives is determined. |
| EmailRecipients.RecipientList | backend/src/utils/email_utils.py:38-41 | The sorted unique addresses; stated by EmailRecipients.RecipientListSpec. |
| EmailRecipients.RecipientListSpec | backend/src/utils/email_utils.py:38-41 | The list is strictly sorted. It holds exactly the non-empty addresses of `From`, `To`, `Cc` and `Bcc`. |
| EmailRecipients.AllRecipients | backend/src/utils/email_utils.py:37-41 | The loop result is the `", "` join of that list. It is empty exactly when no header carries a non-empty address. |
| Pipeline.Label | backend/src/pipeline/prediction_pipeline.py:68 | The label is `Spam` exactly when the raw prediction prints as `0`, else `Ham`. |
| Pipeline.MaxOf | backend/src/pipeline/prediction_pipeline.py:75 | `max` returns an element that is at least every element. |
| Pipeline.Confidence | backend/src/pipeline/prediction_pipeline.py:70-77 | 100 times the largest probability of the first row, or 0 without one. |
| Pipeline.Run | backend/src/pipeline/prediction_pipeline.py:60-91 | Each loaded model applied to the same features, in insertion order; stated by Pipeline.OneEntryPerModel and Pipeline.PredictionPipeline.RunModels. |
| Pipeline.Details | backend/src/pipeline/prediction_pipeline.py:60-91 | The `results` dictionary built by the loop; stated by Pipeline.OneEntryPerModel, Pipeline.FailedModelRecorded and Pipeline.SpamVotesCounted. |
| Pipeline.Record | backend/src/pipeline/prediction_pipeline.py:61-91 | The entry for one model's outcome; stated by Pipeline.FailedModelRecorded, Pipeline.RecordConfidenceInRange and Pipeline.PredictionPipeline.RecordModel. |
| Pipeline.RecordConfidenceInRange | backend/src/pipeline/prediction_pipeline.py:70-77 | With probabilities in [0, 1], a model's confidence lies in [0, 100]. |
| Pipeline.IsSpamVote | backend/src/pipeline/prediction_pipeline.py:84-85 | A vote is counted exactly when the model returned a prediction labelled `Spam`; stated by Pipeline.SpamVotesCounted. |
| Pipeline.SpamVotes | backend/src/pipeline/prediction_pipeline.py:84-85 | There are never more spam votes than models. |
| Pipeline.OneEntryPerModel | backend/src/pipeline/prediction_pipeline.py:55-91 | `detailed_results` has exactly the loaded models' names, in load order, failed models included. |
| Pipeline.FailedModelRecorded | backend/src/pipeline/prediction_pipeline.py:60-91 | A model that raises or returns nothing is recorded as `Error` with confidence 0. It is not a spam vote. |
| Pipeline.SpamVotesCounted | backend/src/pipeline/prediction_pipeline.py:79-85 | The vote counter equals the number of results labelled `Spam`. |
| Pipeline.VotePartition | backend/src/pipeline/prediction_pipeline.py:60-91 | Every result is `Spam`, `Ham` or `Error`. |
| Pipeline.PrimaryName | backend/src/pipeline/prediction_pipeline.py:111 | `SVM` when loaded, else the first model; stated by Pipeline.HeadlineConfidence. |
| Pipeline.Lookup | backend/src/pipeline/prediction_pipeline.py:112 | `results.get(primary_model)`; stated by Pipeline.HeadlineConfidence. |
| Pipeline.ScoreText | backend/src/pipeline/prediction_pipeline.py:118 | `f"{spam_votes}/{vote_count} Models"`; stated by Pipeline.ScoreRoundTrip. |
| Pipeline.Consensus | backend/src/pipeline/prediction_pipeline.py:93-119 | The dictionary built from the outcomes; stated by Pipeline.MajorityRule, Pipeline.ScoreCounts, Pipeline.HeadlineConfidence, Pipeline.OneEntryPerModel and Pipeline.SpamVotesCounted. |
| Pipeline.MajorityRule | backend/src/pipeline/prediction_pipeline.py:98-108 | The verdict is `Error` iff no model is loaded. It is `Spam` iff spam votes exceed half of the loaded models. It is `Ham` otherwise. |
| Pipeline.ScoreRoundTrip | backend/src/pipeline/prediction_pipeline.py:118 | A `"k/n Models"` score parses back to `(k, n)`. |
| Pipeline.ParseScoreLayout | backend/src/pipeline/prediction_pipeline.py:118 | Any two non-empty digit strings written as `a/b Models` parse back to their decimal values, which is the layout step of the score round trip. |
| Pipeline.ZeroScore | backend/src/pipeline/prediction_pipeline.py:107 | `"0/0 Models"` parses back to `(0, 0)`. |
| Pipeline.ScoreCounts | backend/src/pipeline/prediction_pipeline.py:102-118 | `spam_score` always spells the spam votes over the number of models. |
| Pipeline.HeadlineConfidence | backend/src/pipeline/prediction_pipeline.py:111-116 | The headline confidence is SVM's when SVM is loaded, otherwise the first loaded model's. |
| Pipeline.ConfidenceInRange | backend/src/pipeline/prediction_pipeline.py:70-116 | With probabilities in [0, 1], the headline and every detailed confidence lie in [0, 100]. |
| Pipeline.ModelFileName | backend/src/pipeline/prediction_pipeline.py:34 | `f"{model_name}_model.pkl"`; stated by Pipeline.LoadAllAppends and Training.SavedNamesMatchConfig. |
| Pipeline.Insert | backend/src/pipeline/prediction_pipeline.py:36 | Dictionary assignment; stated by Pipeline.InsertNew, Pipeline.InsertNames and Pipeline.InsertDistinct. |
| Pipeline.InsertNew | backend/src/pipeline/prediction_pipeline.py:36 | Assigning a new dictionary key appends the entry. |
| Pipeline.InsertNames | backend/src/pipeline/prediction_pipeline.py:36 | Assigning a key keeps the key order. A new key goes last. |
| Pipeline.InsertDistinct | backend/src/pipeline/prediction_pipeline.py:36 | Assigning a key keeps the keys distinct. |
| Pipeline.LoadAll | backend/src/pipeline/prediction_pipeline.py:32-41 | The dictionary after the loading loop; stated by Pipeline.LoadAllAppends, Pipeline.LoadFromEmpty and Pipeline.LoadAllDistinct. |
| Pipeline.Loadable | backend/src/pipeline/prediction_pipeline.py:32-41 | The available names whose file loads, in order; stated by Pipeline.LoadableNames and Pipeline.LoadFromEmpty. |
| Pipeline.LoadableNames | backend/src/pipeline/prediction_pipeline.py:32-41 | Only configured names are loaded. |
| Pipeline.LoadAllAppends | backend/src/pipeline/prediction_pipeline.py:32-41 | Loading fresh names appends exactly those whose file loads, in configured order. |
| Pipeline.LoadFromEmpty | backend/src/pipeline/prediction_pipeline.py:24-41 | From an empty pipeline, the models are exactly the loadable available models, in configured order. |
| Pipeline.LoadAllDistinct | backend/src/pipeline/prediction_pipeline.py:32-41 | Loading keeps the model names distinct. |
| Pipeline.Reload | backend/src/pipeline/prediction_pipeline.py:49-50 | A pipeline with a model and a vectoriser keeps them; otherwise `_load_models` runs, and its vectoriser error is raised. |
| Pipeline.Predict | backend/src/pipeline/prediction_pipeline.py:48-119 | The call's answer or exception; stated by Pipeline.ReloadFailureRaises, Pipeline.LoadedPipelinePredicts and Pipeline.FirstPredictionLoads. |
| Pipeline.ReloadFailureRaises | backend/src/pipeline/prediction_pipeline.py:29-53 | When a reload is needed and the vectoriser file fails to load, the call raises that error, whatever the text. |
| Pipeline.LoadedPipelinePredicts | backend/src/pipeline/prediction_pipeline.py:49-119 | A pipeline with a model and a vectoriser does not reload. It raises exactly when `transform` raises. Otherwise it answers with the consensus of its models on the features. |
| Pipeline.FirstPredictionLoads | backend/src/pipeline/prediction_pipeline.py:24-50 | A pipeline made without models loads exactly the loadable available models on its first prediction. |
| Mailbox.LabelHeader | backend/src/pipeline/prediction_pipeline.py:139 | `message.get("X-Gmail-Labels") or ""`: an absent header gives `""`, anything else is kept as read. |
| Mailbox.FirstMatch | backend/src/pipeline/prediction_pipeline.py:140-146 | The first matching rule's category, else `Inbox`; stated by Mailbox.CategoryPriority. |
| Mailbox.Category | backend/src/pipeline/prediction_pipeline.py:139-146 | Fails, with the `AttributeError` text of `lower()`, exactly when the labels header is not a `str`. Otherwise it is the category of the labels, stated by Mailbox.CategoryPriority. |
| Mailbox.CategoryPriority | backend/src/pipeline/prediction_pipeline.py:139-146 | The category is the first of spam, promotions, social and updates found in the lower-cased labels, else `Inbox`. Each case is stated as an if-and-only-if. |
| Mailbox.Direction | backend/src/pipeline/prediction_pipeline.py:151 | Fails, with the `TypeError` text of `in`, exactly when the labels header is not a `str`. Otherwise it is `Sent` exactly when the raw labels contain `Sent`, matched case-sensitively, and `Received` otherwise. |
| Mailbox.MessageRecord | backend/src/pipeline/prediction_pipeline.py:138-160 | Fails exactly when the labels header is not a `str`, with the error of `lower()`. Otherwise its `Time` is the `Date` header as read (a `str` or not) or `""`, and its subject is `clean_text` of the subject header. |
| Mailbox.MapResultsEach | backend/src/pipeline/prediction_pipeline.py:137-160 | Without a failing element, one output per input in order. Otherwise the error is that of the first element that fails. |
| Mailbox.MapResults | backend/src/pipeline/prediction_pipeline.py:136-160 | The `data.append` loop, stopping at the first message that raises; stated by Mailbox.MapResultsEach. |
| Mailbox.MailboxRecords | backend/src/pipeline/prediction_pipeline.py:136-160 | The mailbox yields one record per message, in order, exactly when no labels header is read as a non-`str`. Otherwise the loop raises the error of `lower()`. |
| Mailbox.Reopens | backend/src/pipeline/prediction_pipeline.py:129 | `if mailbox_path:`: a given, non-empty path; used by Pipeline.PredictionPipeline.ProcessMailbox. |
| Pipeline.PredictionPipeline.constructor | backend/src/pipeline/prediction_pipeline.py:17-25 | With `load_models=False`: no models, no vectoriser, no mailbox. |
| Pipeline.PredictionPipeline.Create | backend/src/pipeline/prediction_pipeline.py:17-29 | With `load_models`, a vectoriser file that fails to load raises and no pipeline exists. Otherwise the pipeline holds the vectoriser and exactly the loadable available models, or nothing when not asked to load. |
| Pipeline.PredictionPipeline.LoadModels | backend/src/pipeline/prediction_pipeline.py:27-46 | A vectoriser file that fails to load raises before any model is tried, and nothing changes. Otherwise the loop inserts each loadable model and skips the rest, keeping names distinct. |
| Pipeline.PredictionPipeline.PredictSingleEmail | backend/src/pipeline/prediction_pipeline.py:48-119 | It reloads first when no model or no vectoriser is loaded. The answer, or the exception from the reload or from `transform`, is exactly Pipeline.Predict of the old state. |
| Pipeline.PredictionPipeline.Vote | backend/src/pipeline/prediction_pipeline.py:55-119 | The result built from the loop equals the consensus on the features. |
| Pipeline.PredictionPipeline.RunModels | backend/src/pipeline/prediction_pipeline.py:55-91 | The loop's results equal one recorded entry per model. The counter equals the spam votes. |
| Pipeline.PredictionPipeline.RecordModel | backend/src/pipeline/prediction_pipeline.py:61-91 | One iteration records the model's label and confidence, or `Error` with 0. It votes exactly on a Spam label. |
| Pipeline.ProcessMessage | backend/src/pipeline/prediction_pipeline.py:138-160 | The loop body for one message equals Mailbox.MessageRecord, raising where it fails. |
| Pipeline.ProcessMessages | backend/src/pipeline/prediction_pipeline.py:136-160 | The loop equals Mailbox.MapResults of Mailbox.MessageRecord over the messages. |
| Pipeline.PredictionPipeline.LoadMailbox | backend/src/pipeline/prediction_pipeline.py:121-126 | The mailbox becomes the opened file, which is open. The models and the vectoriser are unchanged. |
| Pipeline.PredictionPipeline.ProcessMailbox | backend/src/pipeline/prediction_pipeline.py:128-165 | A non-empty path loads a mailbox first. With no mailbox the result is the `ValueError` message. A closed, non-empty mailbox fails on its first message. Otherwise the result is the mailbox's records as stated by Mailbox.MailboxRecords. The file is closed only when every message gave a record. |
| Api.ToResponse | backend/main.py:63-69 | A missing `prediction` gives 500 with `'prediction'`. Otherwise each field is copied or defaulted (0.0, `"N/A"`, `{}`), and `is_spam` is true iff the prediction is `Spam`. |
| Api.PredictEmail | backend/main.py:58-71 | With no pipeline the answer is 503. An exception gives 500 with its text. Otherwise the dictionary is mapped. |
| Api.AsDict | backend/main.py:62 | The dictionary `predict_single_email` returns, with every key present; stated by Api.CompleteDictCopied. |
| Api.Answer | backend/main.py:62 | One call of `predict_single_email`: the exception it raises or the dictionary it returns; stated by Api.IsSpamIffMajority. |
| Api.Predictor | backend/main.py:62 | The `pipeline` object as the endpoint calls it; stated by Api.IsSpamIffMajority. |
| Api.CompleteDictCopied | backend/main.py:61-69 | A complete dictionary is copied into the response field by field. |
| Api.SpamAnswerIffMajority | backend/main.py:66 | For a pipeline that answers with a consensus, the answer succeeds, and `is_spam` holds iff spam votes are a strict majority. |
| Api.IsSpamIffMajority | backend/main.py:61-71 | End to end: a failing reload or `transform` gives 500 with the exception text. Otherwise `is_spam` holds iff more than half of the models label the features of the cleaned text Spam. |
| Training.LabelCode | backend/train_model.py:39 | Codes are 0 or 1. |
| Training.LabelRoundTrip | backend/train_model.py:39 | Exactly the four spellings are mapped. A model predicting a spam row's code is read back as `Spam`, and a ham row's code as `Ham`. |
| Training.SafeName | backend/train_model.py:93 | `name.replace(" ", "_")`; stated by Training.SavedNamesMatchConfig. |
| Training.SavedFileName | backend/train_model.py:95 | `f"{safe_name}_model.pkl"`; stated by Training.SavedNamesMatchConfig. |
| Training.SavedNamesMatchConfig | backend/train_model.py:93-95 | The saved file names (spaces replaced by `_`) are exactly the files the pipeline loads, in the same order. |
| Training.TrainAll | backend/train_model.py:59-95 | Each model's metrics and file name are recorded. The best model is the first with the highest accuracy above 0. Without one, the name is `""` and the accuracy 0. |

## Left out

- `\d`, `\w`, `\b` and `lower()` are modelled for ASCII only. Python applies them to all Unicode digits, letters and cased characters.
- The UTF-16 round trip with `surrogatepass` (`email_utils.py:60`) is the identity here. A Dafny `char` is a Unicode scalar value, so a lone surrogate, the only thing the round trip drops, cannot occur.
- MIME decoding, `payload.decode(errors="ignore")`, `html.unescape`, BeautifulSoup's `get_text(" ")` and `getaddresses` are library parsers. A parsed message carries their results: each part's content type, whether its payload is non-empty and its text, and the address pairs per header. A missing header yields no pairs. The `Subject`, `Date` and `X-Gmail-Labels` headers are each a `str` or another object (an `email.header.Header` for a raw header that is not ASCII). The recipient headers are taken as parsed pairs, so a `Header` object there is not modelled.
- The numerics of the TF-IDF vectoriser and of every model's `predict` and `predict_proba` are inside the `Vectorizer` and `Classifier` functions. Floats are modelled as reals.
- `main.py` builds the pipeline at import time. When `__init__` raises, the pipeline is `None`, which `Api.PredictEmail` answers with 503. The model relates the two only in prose: `Pipeline.PredictionPipeline.Create` returns the failure, and `Api.PredictEmail` takes the absent pipeline.
- The `os.path.join` with the models directory is omitted. The `store` is keyed by file name.
- Logging, writing CSV or JSON, and the plots of the training script are left out. They are I/O with no effect on the modelled results.
- Closing the mailbox is modelled as a flag. Reading from the closed file raises `ValueError`, modelled with the text `seek of closed file` that Python's buffered file objects give; the message text itself is not used by any caller.
- `run_prediction`, `predict_mbox_file` and `run_legacy_pipeline` are left out. They call `self.model`, which `__init__` never assigns, so each raises `AttributeError` before any prediction.
- `read_root` and the FastAPI and CORS set-up are left out, since they are static configuration.
- Api.ToResponse: pydantic's validation of the response is not modelled. An integer confidence of 0 is coerced to `0.0`, and the model writes `0.0` directly.
- Training.TrainAll: when no model reaches an accuracy above 0, the source later fails on `best_model.predict`. That crash is after the modelled loop and is not modelled.
- Training.TrainAll: the dataset load, the column renaming and the train/test split are not modelled. Rows whose label is none of the four spellings become `NaN` in the source, and the model reports them as `None`.

