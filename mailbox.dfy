/**
 * The records `process_mailbox` builds: one row per message with its
 * category and direction, and the mailbox loop as a whole.
 */
module Mailbox {
  import opened Wrappers
  import opened Strings
  import opened Mail
  import EmailClean
  import EmailBody
  import EmailRecipients

  /** One row of `process_mailbox`'s output. */
  datatype MailRecord = MailRecord(
    time: EmailClean.Value,
    recipients: string,
    subject: EmailClean.Value,
    body: string,
    category: string,
    direction: string)

  /** The category rules, highest priority first: a substring of the lower-cased labels and the category it selects. */
  const CategoryRules: seq<(string, string)> := [
    ("spam", "Spam"),
    ("category_promotions", "Promotions"),
    ("category_social", "Social"),
    ("category_updates", "Updates")]

  /** The category of the first rule whose pattern occurs in `labels`, else `Inbox`. */
  function FirstMatch(rules: seq<(string, string)>, labels: string): string {
    if rules == [] then "Inbox"
    else if Contains(labels, rules[0].0) then rules[0].1
    else FirstMatch(rules[1..], labels)
  }

  /** `message.get("X-Gmail-Labels") or ""`: an absent or empty header gives `""`; a `Header` object is truthy and is kept. */
  function LabelHeader(h: Option<EmailClean.Value>): (r: EmailClean.Value)
    ensures h.None? ==> r == EmailClean.Str("")
    ensures h.Some? ==> r == h.value
  {
    match h
    case None => EmailClean.Str("")
    case Some(v) => v
  }

  /** The `AttributeError` text of calling `lower()` on a `Header`. */
  const NoLowerMessage: string := "'Header' object has no attribute 'lower'"

  /** The `TypeError` text of testing `in` against a `Header`. */
  const NotIterableMessage: string := "argument of type 'Header' is not iterable"

  /** The category of the labels header; a header that is not a `str` has no `lower()`. */
  function Category(labels: EmailClean.Value): (r: Result<string>)
    ensures r.Failure? <==> labels.NonStr?
    ensures r.Failure? ==> r.error == NoLowerMessage
  {
    match labels
    case Str(s) => Success(FirstMatch(CategoryRules, Lower(s)))
    case NonStr(_) => Failure(NoLowerMessage)
  }

  /** The category is the first of the four patterns found in the lower-cased labels, and `Inbox` when none is. */
  lemma CategoryPriority(labels: string)
    ensures var l := Lower(labels);
      var c := Category(EmailClean.Str(labels)).value;
      && (c == "Spam" <==> Contains(l, "spam"))
      && (c == "Promotions" <==> !Contains(l, "spam") && Contains(l, "category_promotions"))
      && (c == "Social" <==>
            !Contains(l, "spam") && !Contains(l, "category_promotions") && Contains(l, "category_social"))
      && (c == "Updates" <==>
            !Contains(l, "spam") && !Contains(l, "category_promotions") && !Contains(l, "category_social")
            && Contains(l, "category_updates"))
      && (c == "Inbox" <==>
            !Contains(l, "spam") && !Contains(l, "category_promotions") && !Contains(l, "category_social")
            && !Contains(l, "category_updates"))
  {
    var l := Lower(labels);
    var rest1 := CategoryRules[1..];
    assert rest1 == [("category_promotions", "Promotions"), ("category_social", "Social"), ("category_updates", "Updates")];
    var rest2 := rest1[1..];
    assert rest2 == [("category_social", "Social"), ("category_updates", "Updates")];
    var rest3 := rest2[1..];
    assert rest3 == [("category_updates", "Updates")];
    assert rest3[1..] == [];
    assert FirstMatch(rest3, l) == if Contains(l, "category_updates") then "Updates" else "Inbox";
    assert FirstMatch(rest2, l) == if Contains(l, "category_social") then "Social" else FirstMatch(rest3, l);
    assert FirstMatch(rest1, l) == if Contains(l, "category_promotions") then "Promotions" else FirstMatch(rest2, l);
    assert FirstMatch(CategoryRules, l) == if Contains(l, "spam") then "Spam" else FirstMatch(rest1, l);
  }

  /** `Sent` when the raw labels contain `Sent`, matched case-sensitively, `Received` otherwise; a `Header` cannot be searched. */
  function Direction(labels: EmailClean.Value): (r: Result<string>)
    ensures r.Failure? <==> labels.NonStr?
    ensures r.Failure? ==> r.error == NotIterableMessage
    ensures labels.Str? ==> (r.value == "Sent" <==> Contains(labels.text, "Sent"))
    ensures labels.Str? ==> (r.value == "Received" <==> !Contains(labels.text, "Sent"))
  {
    match labels
    case Str(s) => Success(if Contains(s, "Sent") then "Sent" else "Received")
    case NonStr(_) => Failure(NotIterableMessage)
  }

  /**
   * The record for one message: its date header as read, cleaned recipients,
   * subject and body, with its category and direction. The category is
   * computed first, so a labels header that is not a `str` raises from there.
   */
  function MessageRecord(m: Message): (r: Result<MailRecord>)
    ensures r.Failure? <==> UnreadableLabels(m)
    ensures r.Failure? ==> r.error == NoLowerMessage
    ensures r.Success? ==> r.value.time == m.date.GetOr(EmailClean.Str(""))
    ensures r.Success? ==> r.value.subject == EmailClean.CleanText(m.subject.GetOr(EmailClean.Str("")))
  {
    var labels := LabelHeader(m.gmailLabels);
    match Category(labels)
    case Failure(e) => Failure(e)
    case Success(category) =>
      Success(MailRecord(
        m.date.GetOr(EmailClean.Str("")),
        EmailClean.CleanString(JoinWith(", ", EmailRecipients.RecipientList(m))),
        EmailClean.CleanText(m.subject.GetOr(EmailClean.Str(""))),
        EmailClean.CleanString(EmailBody.NormalizeBody(EmailBody.BodyTexts(m.body))),
        category,
        Direction(labels).value))
  }

  /** `f` applied to each element front to back, as a loop appending to a list would, stopping at the first failure. */
  function MapResults<A, B>(xs: seq<A>, f: A -> Result<B>): Result<seq<B>> {
    if xs == [] then Success([])
    else
      match MapResults(xs[..|xs| - 1], f)
      case Failure(e) => Failure(e)
      case Success(ys) =>
        match f(xs[|xs| - 1])
        case Failure(e) => Failure(e)
        case Success(y) => Success(ys + [y])
  }

  /** One more element that succeeds: its output is appended. */
  lemma MapResultsStep<A, B>(xs: seq<A>, i: nat, f: A -> Result<B>, ys: seq<B>)
    requires i < |xs| && MapResults(xs[..i], f) == Success(ys) && f(xs[i]).Success?
    ensures MapResults(xs[..i + 1], f) == Success(ys + [f(xs[i]).value])
  {
    assert xs[..i + 1][..i] == xs[..i];
  }

  /** Once an element fails after a prefix that succeeds, the whole sequence fails with its error. */
  lemma MapResultsStop<A, B>(xs: seq<A>, i: nat, f: A -> Result<B>, ys: seq<B>)
    requires i < |xs| && MapResults(xs[..i], f) == Success(ys) && f(xs[i]).Failure?
    ensures MapResults(xs, f) == Failure(f(xs[i]).error)
  {
    assert xs[..i + 1][..i] == xs[..i];
    MapResultsFailed(xs, i + 1, f);
  }

  /** Once a prefix fails, the whole sequence fails with the same error. */
  lemma {:induction false} MapResultsFailed<A, B>(xs: seq<A>, k: nat, f: A -> Result<B>)
    requires k <= |xs| && MapResults(xs[..k], f).Failure?
    ensures MapResults(xs, f) == MapResults(xs[..k], f)
    decreases |xs| - k
  {
    if k < |xs| {
      var init := xs[..|xs| - 1];
      assert init[..k] == xs[..k];
      MapResultsFailed(init, k, f);
    } else {
      assert xs[..k] == xs;
    }
  }

  /**
   * Without a failing element there is one output per input, in order;
   * otherwise the error is that of the first element that fails.
   */
  lemma {:induction false} MapResultsEach<A, B>(xs: seq<A>, f: A -> Result<B>)
    ensures var r := MapResults(xs, f);
      && (r.Success? <==> forall i :: 0 <= i < |xs| ==> f(xs[i]).Success?)
      && (r.Success? ==> |r.value| == |xs| && forall i :: 0 <= i < |xs| ==> r.value[i] == f(xs[i]).value)
      && (r.Failure? ==> exists i :: 0 <= i < |xs| && f(xs[i]) == Failure(r.error)
                                     && forall j :: 0 <= j < i ==> f(xs[j]).Success?)
    decreases |xs|
  {
    if xs != [] {
      var init := xs[..|xs| - 1];
      MapResultsEach(init, f);
      assert forall i :: 0 <= i < |init| ==> init[i] == xs[i];
    }
  }

  /** A labels header that is read as a `Header` object rather than a `str`. */
  predicate UnreadableLabels(m: Message) {
    m.gmailLabels.Some? && m.gmailLabels.value.NonStr?
  }

  /**
   * The mailbox gives one record per message, in order, exactly when no
   * message carries a labels header that is not a `str`; otherwise the loop
   * raises the `AttributeError` of `lower()`.
   */
  lemma MailboxRecords(msgs: seq<Message>)
    ensures var r := MapResults(msgs, MessageRecord);
      && (r.Success? <==> forall i :: 0 <= i < |msgs| ==> !UnreadableLabels(msgs[i]))
      && (r.Success? ==> |r.value| == |msgs| && forall i :: 0 <= i < |msgs| ==> Success(r.value[i]) == MessageRecord(msgs[i]))
      && (r.Failure? ==> r.error == NoLowerMessage)
  {
    MapResultsEach(msgs, MessageRecord);
  }

  const NoMailboxMessage: string := "No mailbox loaded. Call load_mailbox() first."

  /** The `ValueError` text of seeking in a closed file. */
  const ClosedFileMessage: string := "seek of closed file"

  /** `if mailbox_path:` — a path that is given and non-empty. */
  predicate Reopens(path: Option<string>) {
    path.Some? && path.value != ""
  }
}
