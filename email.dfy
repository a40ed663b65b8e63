/**
 * The mail logic of utils/email_service.py without the SMTP exchange:
 * `send_email`'s checks, recipient lists, headers and envelope, the
 * `EmailLog` row it writes, the leave-request notification loop over its
 * recipients and the leave-status update.
 *
 * The SMTP settings are a parameter (the service reads them from the
 * environment); whether the SMTP server refuses a message is a parameter
 * too, and the rendered bodies are given, not computed.
 */
module Email {
  import opened Wrappers
  import opened Text
  import opened CivilDate

  /** `SMTP_USERNAME`, `SMTP_PASSWORD` and `FROM_EMAIL` as the caller supplies them. */
  datatype SmtpConfig = SmtpConfig(username: string, password: string, fromEmail: string)

  /** An address argument: one string, or a list of strings. */
  datatype Addresses = One(address: string) | Many(addresses: seq<string>)

  /** Python truth of a string or a list: not empty. */
  predicate Truthy(a: Addresses)
  {
    match a
    case One(s) => s != ""
    case Many(l) => |l| > 0
  }

  /** `[x] if isinstance(x, str) else x`. */
  function AsList(a: Addresses): (r: seq<string>)
    ensures a.One? ==> r == [a.address]
    ensures a.Many? ==> r == a.addresses
  {
    match a
    case One(s) => [s]
    case Many(l) => l
  }

  /** The Cc and Bcc lists: empty unless the argument is given and truthy. */
  function OptionalList(a: Option<Addresses>): (r: seq<string>)
    ensures a.None? ==> r == []
    ensures a.Some? && a.value.One? && a.value.address != "" ==> r == [a.value.address]
    ensures a.Some? && a.value.Many? ==> r == a.value.addresses
  {
    if a.Some? && Truthy(a.value) then AsList(a.value) else []
  }

  /** The recipient text of a failure log: the string itself, or the list joined with `, `. */
  function RecipientText(a: Addresses): string
  {
    match a
    case One(s) => s
    case Many(l) => Join(l, ", ")
  }

  /** Success and failure logs name the recipients the same way: the To header's text. */
  lemma {:induction false} RecipientTextIsToHeader(a: Addresses)
    ensures RecipientText(a) == Join(AsList(a), ", ")
  {
  }

  const CredentialsMessage: string :=
    "SMTP credentials not configured. Please set SMTP_USERNAME and SMTP_PASSWORD environment variables."
  const RecipientMessage: string := "Recipient email address is required."

  /** The two checks before anything is built: credentials first, then a recipient. */
  function SendCheck(config: SmtpConfig, to: Option<Addresses>): Option<string>
  {
    if config.username == "" || config.password == "" then Some(CredentialsMessage)
    else if to.None? || !Truthy(to.value) then Some(RecipientMessage)
    else None
  }

  /** A message handed to `sendmail`: its sender, headers, envelope recipients and HTML part. */
  datatype Mail = Mail(sender: string, headers: map<string, string>, envelope: seq<string>, html: string)

  /** A row of `EmailLog`. */
  datatype LogEntry = LogEntry(recipient: string, subject: string, body: string, emailType: Option<string>,
                               referenceId: Option<nat>, status: string, errorMessage: Option<string>)

  /**
   * What a call gives its caller: `(success, error)`, or an exception that
   * escapes — when the recipient is `None`, the failure path's own
   * `', '.join(to_email)` raises.
   */
  datatype SendResult = Returned(success: bool, error: Option<string>) | Raised

  /** `body[:500] if body else ''`. */
  function LogBody(body: string): (r: string)
    ensures |r| <= 500 && |r| <= |body| && r == body[..|r|]
    ensures |body| <= 500 ==> r == body
    ensures |body| > 500 ==> |r| == 500
  {
    if body == "" then "" else if |body| <= 500 then body else body[..500]
  }

  /** The message built from the normalised lists. */
  function MailOf(config: SmtpConfig, toList: seq<string>, subject: string, html: string,
                  ccList: seq<string>, bccList: seq<string>): Mail
  {
    var headers := map["From" := config.fromEmail, "To" := Join(toList, ", "), "Subject" := subject];
    var headers := if |ccList| > 0 then headers["Cc" := Join(ccList, ", ")] else headers;
    Mail(config.fromEmail, headers, toList + ccList + bccList, html)
  }

  /**
   * The headers are From, To, Subject and, only for a non-empty Cc list, Cc;
   * Bcc addresses are never in a header, only in the envelope, which lists
   * the To, then the Cc, then the Bcc addresses.
   */
  lemma {:induction false} MailOfHeaders(config: SmtpConfig, toList: seq<string>, subject: string, html: string,
                      ccList: seq<string>, bccList: seq<string>)
    ensures var m := MailOf(config, toList, subject, html, ccList, bccList);
      m.headers.Keys == {"From", "To", "Subject"} + (if |ccList| > 0 then {"Cc"} else {})
      && "Bcc" !in m.headers
      && m.headers["To"] == Join(toList, ", ") && m.headers["From"] == config.fromEmail
      && (|ccList| > 0 ==> m.headers["Cc"] == Join(ccList, ", "))
      && m.envelope[..|toList|] == toList
      && m.envelope[|toList|..|toList| + |ccList|] == ccList
      && m.envelope[|toList| + |ccList|..] == bccList
  {
    var m := MailOf(config, toList, subject, html, ccList, bccList);
    assert "Bcc" != "Cc" && "Bcc" != "From" && "Bcc" != "To" && "Bcc" != "Subject";
    assert m.envelope == toList + ccList + bccList;
  }

  /** The message `send_email` hands over, if it gets that far and the server takes it. */
  function SendMail(config: SmtpConfig, to: Option<Addresses>, subject: string, html: string,
                    cc: Option<Addresses>, bcc: Option<Addresses>, smtpFailure: Option<string>): (m: Option<Mail>)
    ensures m.Some? <==> SendCheck(config, to).None? && smtpFailure.None?
  {
    if SendCheck(config, to).Some? || smtpFailure.Some? then None
    else Some(MailOf(config, AsList(to.value), subject, html, OptionalList(cc), OptionalList(bcc)))
  }

  /** The log row `send_email` writes: `sent`, or `failed` with the error; none when it raises. */
  function SendLog(config: SmtpConfig, to: Option<Addresses>, subject: string, html: string,
                   emailType: Option<string>, referenceId: Option<nat>, smtpFailure: Option<string>): Option<LogEntry>
  {
    match SendCheck(config, to)
    case Some(msg) =>
      if to.None? then None
      else Some(LogEntry(RecipientText(to.value), subject, LogBody(html), emailType, referenceId, "failed", Some(msg)))
    case None =>
      match smtpFailure
      case Some(err) =>
        Some(LogEntry(RecipientText(to.value), subject, LogBody(html), emailType, referenceId, "failed", Some(err)))
      case None =>
        Some(LogEntry(Join(AsList(to.value), ", "), subject, LogBody(html), emailType, referenceId, "sent", None))
  }

  /** What `send_email` returns. */
  function SendOutcome(config: SmtpConfig, to: Option<Addresses>, smtpFailure: Option<string>): SendResult
  {
    match SendCheck(config, to)
    case Some(msg) => if to.None? then Raised else Returned(false, Some(msg))
    case None =>
      match smtpFailure
      case Some(err) => Returned(false, Some(err))
      case None => Returned(true, None)
  }

  /**
   * Missing credentials are reported before a missing recipient; a call
   * succeeds exactly when the message was handed over, and every call that
   * returns is logged with the same verdict and error.
   */
  lemma {:induction false} SendOutcomeAgreesWithEffects(config: SmtpConfig, to: Option<Addresses>, subject: string, html: string,
                                     emailType: Option<string>, referenceId: Option<nat>,
                                     cc: Option<Addresses>, bcc: Option<Addresses>, smtpFailure: Option<string>)
    ensures var r := SendOutcome(config, to, smtpFailure);
      var log := SendLog(config, to, subject, html, emailType, referenceId, smtpFailure);
      (config.username == "" || config.password == "" ==> r != Returned(false, Some(RecipientMessage)))
      && (r == Returned(true, None) <==> SendMail(config, to, subject, html, cc, bcc, smtpFailure).Some?)
      && (r.Raised? <==> log.None?)
      && (r.Returned? ==> log.value.status == (if r.success then "sent" else "failed")
                          && log.value.errorMessage == r.error
                          && log.value.recipient == Join(AsList(to.value), ", ")
                          && log.value.body == LogBody(html))
  {
    if to.Some? {
      RecipientTextIsToHeader(to.value);
    }
    assert CredentialsMessage != RecipientMessage by { assert |CredentialsMessage| != |RecipientMessage|; }
  }

  function OptSeq<T>(o: Option<T>): (s: seq<T>)
    ensures o.Some? ==> s == [o.value]
    ensures o.None? ==> s == []
  {
    if o.Some? then [o.value] else []
  }

  // ---------------------------------------------------------------------------
  // Leave notifications

  /** A notification recipient: its `username` and `email`, `None` where the key or attribute is missing. */
  datatype Recipient = Recipient(username: Option<string>, email: Option<string>)

  /** `getattr(recipient, 'email', 'unknown@example.com')`. */
  function RecipientEmail(r: Recipient): string { r.email.GetOr("unknown@example.com") }

  /** `getattr(recipient, 'username', 'Unknown')`. */
  function RecipientName(r: Recipient): string { r.username.GetOr("Unknown") }

  /** Recipients whose email is empty are passed over. */
  predicate Skipped(r: Recipient) { RecipientEmail(r) == "" }

  /** Only an empty email is skipped; a missing one falls back to the placeholder address and is not. */
  lemma {:induction false} SkippedExactlyWhenEmpty(r: Recipient)
    ensures Skipped(r) <==> r.email == Some("")
    ensures r.email.None? ==> RecipientEmail(r) == "unknown@example.com"
  {
  }

  /** The leave request being announced: its id, the requester's name and its dates. */
  datatype LeaveNotice = LeaveNotice(id: nat, requesterName: string, startDate: Option<Date>, endDate: Option<Date>)

  function NoticeSubject(requesterName: string): string
  {
    "Leave Request from " + requesterName + " - Action Required"
  }

  /** The refusal, if any, the SMTP server gives a message to `address`. */
  function Refusal(refused: map<string, string>, address: string): Option<string>
  {
    if address in refused then Some(refused[address]) else None
  }

  /** The addresses written to, in order: the recipients that are not skipped. */
  function Addressed(recipients: seq<Recipient>): (r: seq<string>)
    ensures |r| <= |recipients|
    ensures forall k :: 0 <= k < |r| ==> r[k] != ""
  {
    if |recipients| == 0 then []
    else
      var last := recipients[|recipients| - 1];
      Addressed(recipients[..|recipients| - 1]) + (if Skipped(last) then [] else [RecipientEmail(last)])
  }

  /** The message sent for one recipient, if any. */
  function NoticeMailOf(config: SmtpConfig, notice: LeaveNotice, r: Recipient,
                        render: string -> string, refused: map<string, string>): seq<Mail>
  {
    if Skipped(r) then []
    else
      var email := RecipientEmail(r);
      OptSeq(SendMail(config, Some(One(email)), NoticeSubject(notice.requesterName),
                      render(RecipientName(r)), None, None, Refusal(refused, email)))
  }

  /** The log row written for one recipient, if any. */
  function NoticeLogOf(config: SmtpConfig, notice: LeaveNotice, r: Recipient,
                       render: string -> string, refused: map<string, string>): seq<LogEntry>
  {
    if Skipped(r) then []
    else
      var email := RecipientEmail(r);
      OptSeq(SendLog(config, Some(One(email)), NoticeSubject(notice.requesterName),
                     render(RecipientName(r)), Some("leave_request"), Some(notice.id), Refusal(refused, email)))
  }

  /** The messages sent for the notification, recipient by recipient. */
  function NoticeMails(config: SmtpConfig, notice: LeaveNotice, recipients: seq<Recipient>,
                       render: string -> string, refused: map<string, string>): seq<Mail>
  {
    if |recipients| == 0 then []
    else
      NoticeMails(config, notice, recipients[..|recipients| - 1], render, refused)
      + NoticeMailOf(config, notice, recipients[|recipients| - 1], render, refused)
  }

  /** The log rows written for the notification, recipient by recipient. */
  function NoticeLogs(config: SmtpConfig, notice: LeaveNotice, recipients: seq<Recipient>,
                      render: string -> string, refused: map<string, string>): seq<LogEntry>
  {
    if |recipients| == 0 then []
    else
      NoticeLogs(config, notice, recipients[..|recipients| - 1], render, refused)
      + NoticeLogOf(config, notice, recipients[|recipients| - 1], render, refused)
  }

  /** One more recipient adds its own message at the end. */
  lemma {:induction false} NoticeMailsStep(config: SmtpConfig, notice: LeaveNotice, recipients: seq<Recipient>, i: nat,
                                           render: string -> string, refused: map<string, string>,
                                           sent0: seq<Mail>, sent1: seq<Mail>, sent2: seq<Mail>)
    requires i < |recipients|
    requires sent1 == sent0 + NoticeMails(config, notice, recipients[..i], render, refused)
    requires sent2 == sent1 + NoticeMailOf(config, notice, recipients[i], render, refused)
    ensures sent2 == sent0 + NoticeMails(config, notice, recipients[..i + 1], render, refused)
  {
    assert recipients[..i + 1][..i] == recipients[..i];
  }

  /** One more recipient adds its own log row at the end. */
  lemma {:induction false} NoticeLogsStep(config: SmtpConfig, notice: LeaveNotice, recipients: seq<Recipient>, i: nat,
                                          render: string -> string, refused: map<string, string>,
                                          log0: seq<LogEntry>, log1: seq<LogEntry>, log2: seq<LogEntry>)
    requires i < |recipients|
    requires log1 == log0 + NoticeLogs(config, notice, recipients[..i], render, refused)
    requires log2 == log1 + NoticeLogOf(config, notice, recipients[i], render, refused)
    ensures log2 == log0 + NoticeLogs(config, notice, recipients[..i + 1], render, refused)
  {
    assert recipients[..i + 1][..i] == recipients[..i];
  }

  /** Every recipient that is not skipped gets exactly one log row, in order, under its address. */
  lemma {:induction false} NoticeLogsFollowRecipients(config: SmtpConfig, notice: LeaveNotice, recipients: seq<Recipient>,
                                                      render: string -> string, refused: map<string, string>)
    ensures var logs, to := NoticeLogs(config, notice, recipients, render, refused), Addressed(recipients);
      |logs| == |to| && forall k :: 0 <= k < |logs| ==> logs[k].recipient == to[k]
    decreases |recipients|
  {
    if |recipients| > 0 {
      var init := recipients[..|recipients| - 1];
      NoticeLogsFollowRecipients(config, notice, init, render, refused);
      var last := recipients[|recipients| - 1];
      if !Skipped(last) {
        var email := RecipientEmail(last);
        var entry := SendLog(config, Some(One(email)), NoticeSubject(notice.requesterName),
                             render(RecipientName(last)), Some("leave_request"), Some(notice.id), Refusal(refused, email));
        assert entry.Some? && entry.value.recipient == email;
      }
    }
  }

  /**
   * Each message goes to one addressed recipient the server accepts, with
   * no Cc; without credentials nothing is sent at all.
   */
  lemma {:induction false} NoticeMailsGoToAddressed(config: SmtpConfig, notice: LeaveNotice, recipients: seq<Recipient>,
                                                    render: string -> string, refused: map<string, string>)
    ensures var mails := NoticeMails(config, notice, recipients, render, refused);
      (forall k :: 0 <= k < |mails| ==>
        |mails[k].envelope| == 1 && mails[k].envelope[0] in Addressed(recipients)
        && mails[k].envelope[0] !in refused && "Cc" !in mails[k].headers)
      && (config.username == "" || config.password == "" ==> mails == [])
    decreases |recipients|
  {
    if |recipients| > 0 {
      var init := recipients[..|recipients| - 1];
      NoticeMailsGoToAddressed(config, notice, init, render, refused);
      var last := recipients[|recipients| - 1];
      var email := RecipientEmail(last);
      var html := render(RecipientName(last));
      var subject := NoticeSubject(notice.requesterName);
      var m := SendMail(config, Some(One(email)), subject, html, None, None, Refusal(refused, email));
      if !Skipped(last) && m.Some? {
        MailOfHeaders(config, [email], subject, html, [], []);
        assert m.value.envelope == [email];
      }
    }
  }

  // ---------------------------------------------------------------------------
  // Leave status updates

  /** `status_text`: `Approved` for an approved request, `Rejected` for every other status. */
  function StatusText(status: string): (r: string)
    ensures r == "Approved" <==> status == "approved"
    ensures r == "Approved" || r == "Rejected"
  {
    if status == "approved" then "Approved" else "Rejected"
  }

  /** `status_class`: the CSS class, `approved` or `rejected` on the same test. */
  function StatusClass(status: string): (r: string)
    ensures r == "approved" <==> status == "approved"
    ensures r == "approved" || r == "rejected"
  {
    if status == "approved" then "approved" else "rejected"
  }

  function StatusSubject(status: string): string
  {
    "Your Leave Request has been " + StatusText(status)
  }

  /**
   * Only `approved` reads as approved; any other status, `pending`
   * included, is announced as a rejection. The class is the status itself
   * exactly for the two decided statuses.
   */
  lemma {:induction false} StatusMappingIsBinary(status: string)
    ensures StatusSubject(status) == (if status == "approved" then "Your Leave Request has been Approved"
                                      else "Your Leave Request has been Rejected")
    ensures StatusClass(status) == status <==> status == "approved" || status == "rejected"
    ensures status == "pending" ==> StatusText(status) == "Rejected"
  {
  }

  const StatusUpdateErrorPrefix: string := "Error sending leave status update: "

  // ---------------------------------------------------------------------------
  // The service

  /** The messages handed to the SMTP server and the `EmailLog` table. */
  class Mailer {
    const config: SmtpConfig
    var sent: seq<Mail>
    var log: seq<LogEntry>

    constructor(config: SmtpConfig)
      ensures this.config == config && sent == [] && log == []
    {
      this.config := config;
      sent := [];
      log := [];
    }

    /** `log_email`. */
    method LogEmail(recipient: string, subject: string, body: string, emailType: Option<string>,
                    referenceId: Option<nat>, status: string, errorMessage: Option<string>)
      modifies this
      ensures log == old(log) + [LogEntry(recipient, subject, LogBody(body), emailType, referenceId, status, errorMessage)]
      ensures sent == old(sent)
    {
      var stored := if body != "" then (if |body| <= 500 then body else body[..500]) else "";
      log := log + [LogEntry(recipient, subject, stored, emailType, referenceId, status, errorMessage)];
    }

    /** The `except` branch of `send_email`: log the failure, unless building the recipient text raises. */
    method Failed(to: Option<Addresses>, subject: string, html: string, emailType: Option<string>,
                  referenceId: Option<nat>, error: string) returns (r: SendResult)
      modifies this
      ensures to.None? ==> r == Raised && log == old(log)
      ensures to.Some? ==>
        r == Returned(false, Some(error))
        && log == old(log) + [LogEntry(RecipientText(to.value), subject, LogBody(html), emailType, referenceId,
                                       "failed", Some(error))]
      ensures sent == old(sent)
    {
      if to.None? {
        return Raised;
      }
      var recipientText := match to.value
        case One(s) => s
        case Many(l) => Join(l, ", ");
      LogEmail(recipientText, subject, html, emailType, referenceId, "failed", Some(error));
      return Returned(false, Some(error));
    }

    /** `send_email`: check, normalise the lists, build the headers, send, log. */
    method SendEmail(to: Option<Addresses>, subject: string, html: string, emailType: Option<string>,
                     referenceId: Option<nat>, cc: Option<Addresses>, bcc: Option<Addresses>,
                     smtpFailure: Option<string>) returns (r: SendResult)
      modifies this
      ensures r == SendOutcome(config, to, smtpFailure)
      ensures sent == old(sent) + OptSeq(SendMail(config, to, subject, html, cc, bcc, smtpFailure))
      ensures log == old(log) + OptSeq(SendLog(config, to, subject, html, emailType, referenceId, smtpFailure))
    {
      if config.username == "" || config.password == "" {
        r := Failed(to, subject, html, emailType, referenceId, CredentialsMessage);
        return;
      }
      if to.None? || !Truthy(to.value) {
        r := Failed(to, subject, html, emailType, referenceId, RecipientMessage);
        return;
      }
      var toList := if to.value.One? then [to.value.address] else to.value.addresses;
      var ccList: seq<string> := [];
      var bccList: seq<string> := [];
      if cc.Some? && Truthy(cc.value) {
        ccList := if cc.value.One? then [cc.value.address] else cc.value.addresses;
      }
      if bcc.Some? && Truthy(bcc.value) {
        bccList := if bcc.value.One? then [bcc.value.address] else bcc.value.addresses;
      }
      var headers: map<string, string> := map[];
      headers := headers["From" := config.fromEmail];
      headers := headers["To" := Join(toList, ", ")];
      headers := headers["Subject" := subject];
      if |ccList| > 0 {
        headers := headers["Cc" := Join(ccList, ", ")];
      }
      var allRecipients := toList + ccList + bccList;
      assert toList == AsList(to.value) && ccList == OptionalList(cc) && bccList == OptionalList(bcc);
      assert Mail(config.fromEmail, headers, allRecipients, html)
          == MailOf(config, AsList(to.value), subject, html, OptionalList(cc), OptionalList(bcc));
      if smtpFailure.Some? {
        r := Failed(to, subject, html, emailType, referenceId, smtpFailure.value);
        return;
      }
      sent := sent + [Mail(config.fromEmail, headers, allRecipients, html)];
      LogEmail(Join(toList, ", "), subject, html, emailType, referenceId, "sent", None);
      return Returned(true, None);
    }

    /**
     * `send_leave_request_notification`: nothing when a date is missing
     * (the day count raises first); otherwise one `send_email` per
     * recipient with an address, in order.
     */
    method SendLeaveRequestNotification(notice: LeaveNotice, recipients: seq<Recipient>,
                                        render: string -> string, refused: map<string, string>)
      modifies this
      ensures notice.startDate.None? || notice.endDate.None? ==> sent == old(sent) && log == old(log)
      ensures notice.startDate.Some? && notice.endDate.Some? ==>
        sent == old(sent) + NoticeMails(config, notice, recipients, render, refused)
        && log == old(log) + NoticeLogs(config, notice, recipients, render, refused)
    {
      if notice.startDate.None? || notice.endDate.None? {
        return;
      }
      ghost var sent0, log0 := sent, log;
      var i := 0;
      while i < |recipients|
        invariant 0 <= i <= |recipients|
        invariant sent == sent0 + NoticeMails(config, notice, recipients[..i], render, refused)
        invariant log == log0 + NoticeLogs(config, notice, recipients[..i], render, refused)
      {
        ghost var sent1, log1 := sent, log;
        Notify(notice, recipients[i], render, refused);
        NoticeMailsStep(config, notice, recipients, i, render, refused, sent0, sent1, sent);
        NoticeLogsStep(config, notice, recipients, i, render, refused, log0, log1, log);
        i := i + 1;
      }
      assert recipients[..i] == recipients;
    }

    /** One pass of the notification loop: skip an empty address, else render and send. */
    method Notify(notice: LeaveNotice, recipient: Recipient, render: string -> string, refused: map<string, string>)
      modifies this
      ensures sent == old(sent) + NoticeMailOf(config, notice, recipient, render, refused)
      ensures log == old(log) + NoticeLogOf(config, notice, recipient, render, refused)
    {
      var email := RecipientEmail(recipient);
      if email == "" {
        return;
      }
      var html := render(RecipientName(recipient));
      var outcome := SendEmail(Some(One(email)), NoticeSubject(notice.requesterName), html, Some("leave_request"),
                               Some(notice.id), None, None, Refusal(refused, email));
    }

    /**
     * `send_leave_status_update`: the status decides the subject; a user
     * without an email address makes `send_email` raise, which is caught
     * here and reported with the exception's text.
     */
    method SendLeaveStatusUpdate(email: Option<string>, status: string, html: string, leaveId: nat,
                                 smtpFailure: Option<string>, raisedText: string) returns (r: SendResult)
      modifies this
      ensures var to := if email.Some? then Some(One(email.value)) else None;
        var outcome := SendOutcome(config, to, smtpFailure);
        r == (if outcome.Raised? then Returned(false, Some(StatusUpdateErrorPrefix + raisedText)) else outcome)
        && sent == old(sent) + OptSeq(SendMail(config, to, StatusSubject(status), html, None, None, smtpFailure))
        && log == old(log) + OptSeq(SendLog(config, to, StatusSubject(status), html, Some("leave_status_update"),
                                            Some(leaveId), smtpFailure))
    {
      var statusText := if status == "approved" then "Approved" else "Rejected";
      var subject := "Your Leave Request has been " + statusText;
      var to := if email.Some? then Some(One(email.value)) else None;
      r := SendEmail(to, subject, html, Some("leave_status_update"), Some(leaveId), None, None, smtpFailure);
      if r.Raised? {
        r := Returned(false, Some(StatusUpdateErrorPrefix + raisedText));
      }
    }
  }
}
