// The POST /webhook handler of webhook.js: it classifies the commit message,
// builds the properties of a Notion page (its title property is named
// "Oracle Portfolio Tracking"), creates the page in the configured database
// and answers with the computed progress and status. The database call
// itself is not modelled; its outcome is an input of the handler.

module Webhook {
  import opened Text
  import opened Classifier

  datatype Option<T> = None | Some(value: T)

  /** The fields of the request body the handler reads. */
  datatype Payload = Payload(
    commitMessage: string,
    author: Option<string>,
    branch: Option<string>,
    timestamp: Option<string>)

  /**
   * The properties of the page the handler creates. The value of the Date
   * property is not modelled; only whether building it throws is.
   */
  datatype Page = Page(title: string, status: string, progress: nat, description: string)

  /** How the call creating the page ended: created, or thrown with a message. */
  datatype Outcome = Created | Rejected(message: string)

  /** The JSON reply: `{ success: true, progress, status }` or `{ error }`. */
  datatype Reply = Success(progress: nat, status: string) | Failure(error: string) {
    /** The HTTP status code sent with the reply. */
    function Code(): (c: nat)
      ensures c == 200 <==> this.Success?
      ensures c == 500 <==> this.Failure?
    {
      if this.Success? then 200 else 500
    }
  }

  /** How many characters of the message the title keeps. */
  const TitleWidth: nat := 50

  const TitlePrefix: string := "Commit: "
  const Ellipsis: string := "..."

  /** The message of the RangeError `toISOString` throws on an invalid date. */
  const InvalidTimeValue: string := "Invalid time value"

  /**
   * `v || d` on a string-valued field: the default replaces a value that is
   * absent or empty, both of which JavaScript treats as false.
   */
  function Fallback(v: Option<string>, d: string): (r: string)
    ensures v.Some? && v.value != "" ==> r == v.value
    ensures v.None? || v.value == "" ==> r == d
    ensures d != "" ==> r != ""
  {
    match v
    case None => d
    case Some(s) => if s == "" then d else s
  }

  /**
   * The title property: "Commit: ", the first 50 characters of the message,
   * then "..." whether or not anything was cut.
   */
  function Title(commitMessage: string): (t: string)
    ensures |t| == |TitlePrefix| + ClampIndex(TitleWidth, |commitMessage|) + |Ellipsis|
    ensures |t| <= 61
    ensures t[..|TitlePrefix|] == TitlePrefix
    ensures t[|t| - |Ellipsis|..] == Ellipsis
    ensures t[|TitlePrefix|..|t| - |Ellipsis|] == commitMessage[..ClampIndex(TitleWidth, |commitMessage|)]
  {
    TitlePrefix + Substring(commitMessage, 0, TitleWidth) + Ellipsis
  }

  /** The description property, with "Inconnu" and "main" as the defaults. */
  function Description(author: Option<string>, branch: Option<string>): (d: string)
    ensures var a := Fallback(author, "Inconnu");
      |d| > 8 + |a| && d[..8] == "Auteur: " && d[8..8 + |a|] == a
      && d[8 + |a|..] == ", Branche: " + Fallback(branch, "main")
  {
    "Auteur: " + Fallback(author, "Inconnu") + ", Branche: " + Fallback(branch, "main")
  }

  /**
   * Whether building the Date property throws. `timestamp || Date.now()`
   * falls back to the clock, which always gives a valid date, when the
   * timestamp is absent or empty; a present timestamp that does not parse
   * as a date makes `toISOString` throw. Date parsing is not modelled:
   * `parses` says how it came out.
   */
  function DateFails(timestamp: Option<string>, parses: bool): (f: bool)
    ensures f <==> timestamp.Some? && timestamp.value != "" && !parses
  {
    match timestamp
    case None => false
    case Some(s) => s != "" && !parses
  }

  /** The page the handler hands to the database for a payload. */
  function PageFor(p: Payload): (pg: Page)
    ensures var m := p.commitMessage;
      pg.title == TitlePrefix + m[..ClampIndex(TitleWidth, |m|)] + Ellipsis
    ensures pg.status == "En cours" || pg.status == "Terminé"
    ensures pg.status == "Terminé" <==>
      MentionsDelivery(Lower(p.commitMessage)) && !MentionsRework(Lower(p.commitMessage))
    ensures pg.progress <= ProgressCap
    ensures RawScore(p.commitMessage) <= ProgressCap ==> pg.progress == RawScore(p.commitMessage)
    ensures ProgressCap <= RawScore(p.commitMessage) ==> pg.progress == ProgressCap
    ensures pg.description ==
      "Auteur: " + Fallback(p.author, "Inconnu") + ", Branche: " + Fallback(p.branch, "main")
  {
    var t := Title(p.commitMessage);
    assert t == t[..|TitlePrefix|] + t[|TitlePrefix|..|t| - |Ellipsis|] + t[|t| - |Ellipsis|..];
    Page(t, DetermineStatus(p.commitMessage).Label(),
         Progress(p.commitMessage), Description(p.author, p.branch))
  }

  /**
   * The handler: compute progress and status and build the page. When the
   * Date property throws, the page is never handed to the database and the
   * reply is 500 with the RangeError's message. Otherwise the page is
   * created, and the reply is 200 with the progress and status, or 500
   * with the message the creation failed with.
   */
  method HandleWebhook(p: Payload, parses: bool, outcome: Outcome) returns (sent: Option<Page>, reply: Reply)
    ensures DateFails(p.timestamp, parses) ==> sent == None && reply == Failure(InvalidTimeValue)
    ensures !DateFails(p.timestamp, parses) ==> sent == Some(PageFor(p))
    ensures !DateFails(p.timestamp, parses) && outcome == Created ==>
      reply == Success(Progress(p.commitMessage), DetermineStatus(p.commitMessage).Label())
    ensures !DateFails(p.timestamp, parses) && outcome.Rejected? ==> reply == Failure(outcome.message)
    ensures reply.Code() == 200 <==> !DateFails(p.timestamp, parses) && outcome == Created
    ensures reply.Success? ==>
      sent.Some? && reply.progress == sent.value.progress && reply.status == sent.value.status
  {
    var progress := CalculateProgress(p.commitMessage);
    var status := DetermineStatus(p.commitMessage);
    if DateFails(p.timestamp, parses) {
      sent := None;
      reply := Failure(InvalidTimeValue);
    } else {
      sent := Some(Page(Title(p.commitMessage), status.Label(), progress, Description(p.author, p.branch)));
      match outcome
      case Created =>
        reply := Success(progress, status.Label());
      case Rejected(message) =>
        reply := Failure(message);
    }
  }

  // ---------------------------------------------------------------------
  // Properties of the record fields.

  /** A message of at most 50 characters appears whole, still followed by "...". */
  lemma TitleOfShortMessage(m: string)
    requires |m| <= TitleWidth
    ensures Title(m) == TitlePrefix + m + Ellipsis
  {
    var t := Title(m);
    assert t == t[..|TitlePrefix|] + t[|TitlePrefix|..|t| - |Ellipsis|] + t[|t| - |Ellipsis|..];
  }

  /** Only the first 50 characters reach the title. */
  lemma TitleTruncates(m: string)
    requires |m| > TitleWidth
    ensures Title(m) == Title(m[..TitleWidth])
    ensures |Title(m)| == 61
  {
    var t, u := Title(m), Title(m[..TitleWidth]);
    assert t == t[..|TitlePrefix|] + t[|TitlePrefix|..|t| - |Ellipsis|] + t[|t| - |Ellipsis|..];
    assert u == u[..|TitlePrefix|] + u[|TitlePrefix|..|u| - |Ellipsis|] + u[|u| - |Ellipsis|..];
  }

  /** Absent and empty author and branch both give the defaults. */
  lemma DescriptionDefaults()
    ensures Description(None, None) == "Auteur: Inconnu, Branche: main"
    ensures Description(Some(""), Some("")) == Description(None, None)
  {
  }

  /** Given author and branch names appear as they are. */
  lemma DescriptionNamed(author: string, branch: string)
    requires author != "" && branch != ""
    ensures Description(Some(author), Some(branch)) == "Auteur: " + author + ", Branche: " + branch
  {
  }
}
