/** The compose dialog: the fields it starts with for each mode, the validation and
    parsing done on send, and the request it hands to the send mutation. */
module ComposeEmail {
  import opened Wrappers
  import opened Strings

  datatype Mode = Compose | Reply | ReplyAll | Forward

  predicate IsReply(m: Mode) {
    m == Reply || m == ReplyAll
  }

  /** The email being answered or forwarded. The dialog reads every field through
      optional chaining, so a missing email behaves as one with every field absent
      (`NoOriginal`). */
  datatype Original = Original(
    subject: Option<string>,
    fromEmail: Option<string>,
    fromName: Option<string>,
    ccEmails: Option<seq<string>>,
    bodyHtml: Option<string>,
    bodyText: Option<string>,
    gmailMessageId: Option<string>,
    gmailThreadId: Option<string>)

  const NoOriginal: Original := Original(None, None, None, None, None, None, None, None)

  /** The editable fields of the dialog. */
  datatype Draft = Draft(to: string, cc: string, subject: string, body: string, showCc: bool)

  /** Replies are addressed to the original sender; other modes start empty. */
  function PrefillTo(mode: Mode, o: Original): (r: string)
    ensures !IsReply(mode) ==> r == ""
    ensures IsReply(mode) && o.fromEmail.Some? && o.fromEmail.value != "" ==> r == o.fromEmail.value
    ensures IsReply(mode) && (o.fromEmail.None? || o.fromEmail == Some("")) ==> r == ""
  {
    if IsReply(mode) then OrElse(o.fromEmail, "") else ""
  }

  /** Reply-all copies the original's cc list, joined with ", "; every other mode,
      and a reply-all to a message without a cc list, starts with an empty cc. */
  function PrefillCc(mode: Mode, o: Original): (r: string)
    ensures mode != ReplyAll || o.ccEmails.None? ==> r == ""
    ensures mode == ReplyAll && o.ccEmails.Some? && |o.ccEmails.value| == 1 ==> r == o.ccEmails.value[0]
  {
    if mode == ReplyAll && o.ccEmails.Some? then Join(o.ccEmails.value, ", ") else ""
  }

  /** "Re: " for replies and "Fwd: " for forwards, followed by the original subject
      (or nothing when it has none). */
  function PrefillSubject(mode: Mode, o: Original): (r: string)
    ensures mode == Compose ==> r == ""
    ensures IsReply(mode) ==> r == "Re: " + OrElse(o.subject, "")
    ensures mode == Forward ==> r == "Fwd: " + OrElse(o.subject, "")
  {
    if IsReply(mode) then "Re: " + OrElse(o.subject, "")
    else if mode == Forward then "Fwd: " + OrElse(o.subject, "")
    else ""
  }

  /** The prefix a prefilled subject starts with. */
  function SubjectPrefix(mode: Mode): string {
    if IsReply(mode) then "Re: " else if mode == Forward then "Fwd: " else ""
  }

  /** A prefilled subject is its mode's prefix followed by the original subject, so
      dropping the prefix reads the original subject back; a subject of the reply
      to a reply gains a second prefix rather than reusing the first. */
  lemma SubjectRoundTrip(mode: Mode, o: Original)
    ensures var r := PrefillSubject(mode, o);
            && StartsWith(r, SubjectPrefix(mode))
            && (mode != Compose ==> r[|SubjectPrefix(mode)|..] == OrElse(o.subject, ""))
    ensures o.subject.Some? && IsReply(mode) ==>
              PrefillSubject(mode, o.(subject := Some(PrefillSubject(mode, o)))) == "Re: Re: " + OrElse(o.subject, "")
  {
  }

  /** The attribution line above a quoted body. `stamp` stands for the current date
      in the browser's locale; a missing name or address prints as "undefined". */
  function QuoteHeader(stamp: string, o: Original): string {
    "\n\n---\nOn " + stamp + ", " + Interpolate(o.fromName) + " <" + Interpolate(o.fromEmail) + "> wrote:\n\n"
  }

  /** The quoted body: the plain text, else the HTML, else nothing. */
  function OriginalBody(o: Original): string {
    OrElse(o.bodyText, OrElse(o.bodyHtml, ""))
  }

  /** Replies and forwards start with the attribution line and the quoted body;
      a new message starts empty. */
  function PrefillBody(mode: Mode, o: Original, stamp: string): (r: string)
    ensures mode == Compose ==> r == ""
    ensures mode != Compose ==> r == QuoteHeader(stamp, o) + OriginalBody(o)
  {
    if mode == Compose then "" else QuoteHeader(stamp, o) + OriginalBody(o)
  }

  /** The dialog's initial fields; the cc row is open only for reply-all. */
  function Prefill(mode: Mode, o: Original, stamp: string): (d: Draft)
    ensures d.showCc <==> mode == ReplyAll
    ensures mode == Compose ==> d == Draft("", "", "", "", false)
  {
    Draft(PrefillTo(mode, o), PrefillCc(mode, o), PrefillSubject(mode, o), PrefillBody(mode, o, stamp), mode == ReplyAll)
  }

  /** A quoted reply or forward ends with the original text, untouched, below a
      separator line. */
  lemma QuotedBodyKeepsOriginal(mode: Mode, o: Original, stamp: string)
    requires mode != Compose
    ensures var b := Prefill(mode, o, stamp).body;
            && |OriginalBody(o)| <= |b|
            && b[|b| - |OriginalBody(o)|..] == OriginalBody(o)
            && StartsWith(b, "\n\n---\nOn ")
  {
  }

  /** The pieces `split(',').map(trim).filter(Boolean)` keeps: every piece trimmed,
      the empty ones dropped, the others in order. */
  function Tidy(parts: seq<string>): (r: seq<string>)
    ensures |r| <= |parts|
    ensures forall i :: 0 <= i < |r| ==> r[i] != "" && IsTrimmed(r[i])
  {
    if parts == [] then []
    else
      var t := Trim(parts[0]);
      (if t == "" then [] else [t]) + Tidy(parts[1..])
  }

  /** A piece that trims to something is kept in front of the rest. */
  lemma TidyCons(a: string, rest: seq<string>)
    requires Trim(a) != ""
    ensures Tidy([a] + rest) == [Trim(a)] + Tidy(rest)
  {
    assert ([a] + rest)[1..] == rest;
  }

  /** `Tidy` on a single piece. */
  lemma TidySingle(a: string)
    ensures Tidy([a]) == if Trim(a) == "" then [] else [Trim(a)]
  {
    assert [a][1..] == [];
  }

  /** A character absent from every piece is absent from every kept piece. */
  lemma {:induction false} TidyKeepsOut(parts: seq<string>, c: char)
    requires forall i :: 0 <= i < |parts| ==> c !in parts[i]
    ensures forall i :: 0 <= i < |Tidy(parts)| ==> c !in Tidy(parts)[i]
    decreases |parts|
  {
    if parts != [] {
      TrimKeepsOut(parts[0], c);
      TidyKeepsOut(parts[1..], c);
    }
  }

  /** A recipient as the send request carries it: non-empty, trimmed, no comma. */
  predicate Clean(x: string) {
    x != "" && IsTrimmed(x) && ',' !in x
  }

  /** The comma-separated recipient field parsed into addresses. */
  function SplitRecipients(s: string): (r: seq<string>)
    ensures forall i :: 0 <= i < |r| ==> Clean(r[i])
  {
    TidyKeepsOut(Split(s, ','), ',');
    Tidy(Split(s, ','))
  }

  /** Trimming adds no characters. */
  lemma TrimKeepsOut(s: string, c: char)
    requires c !in s
    ensures c !in Trim(s)
  {
    var t := Trim(s);
    var i := LeadingSpaces(s);
    assert forall k :: 0 <= k < |t| ==> t[k] == s[i + k];
  }

  /** A trimmed string behind at most one space trims back to itself. */
  lemma TrimAfterSpace(p: string, x: string)
    requires p == "" || p == " "
    requires IsTrimmed(x)
    ensures Trim(p + x) == x
  {
    if p == "" {
      assert p + x == x;
      TrimOfTrimmed(x);
    } else {
      TrimLeadingSpace(' ', x);
    }
  }

  /** The generalised round trip, for a join behind a leading space. */
  lemma {:induction false} RoundTripFrom(p: string, xs: seq<string>)
    requires p == "" || p == " "
    requires forall i :: 0 <= i < |xs| ==> Clean(xs[i])
    ensures Tidy(Split(p + Join(xs, ", "), ',')) == xs
    decreases |xs|
  {
    if |xs| == 0 {
      RoundTripNone(p, xs);
    } else if |xs| == 1 {
      RoundTripOne(p, xs);
    } else {
      RoundTripFrom(" ", xs[1..]);
      RoundTripStep(p, xs);
    }
  }

  /** An empty list joins to a blank field, which parses to nothing. */
  lemma RoundTripNone(p: string, xs: seq<string>)
    requires p == "" || p == " "
    requires xs == []
    ensures Tidy(Split(p + Join(xs, ", "), ',')) == xs
  {
    assert p + Join(xs, ", ") == p;
    assert Split(p, ',') == [p];
    assert Trim(p) == "" by { assert IsBlank(p); }
    TidySingle(p);
  }

  /** A single clean address parses to itself. */
  lemma RoundTripOne(p: string, xs: seq<string>)
    requires p == "" || p == " "
    requires |xs| == 1 && Clean(xs[0])
    ensures Tidy(Split(p + Join(xs, ", "), ',')) == xs
  {
    ParseOne(p, xs[0]);
    assert p + Join(xs, ", ") == p + xs[0];
    assert [xs[0]] == xs;
  }

  /** One more address in front of a join that parses correctly. */
  lemma RoundTripStep(p: string, xs: seq<string>)
    requires p == "" || p == " "
    requires |xs| >= 2 && Clean(xs[0])
    requires Tidy(Split(" " + Join(xs[1..], ", "), ',')) == xs[1..]
    ensures Tidy(Split(p + Join(xs, ", "), ',')) == xs
  {
    var tail := Join(xs[1..], ", ");
    ParseStep(p, xs[0], tail, xs[1..]);
    assert Join(xs, ", ") == xs[0] + ", " + tail;
    HeadTail(xs);
  }

  /** A non-empty list is its head in front of its tail. */
  lemma HeadTail(xs: seq<string>)
    requires |xs| >= 1
    ensures [xs[0]] + xs[1..] == xs
  {
  }

  /** A single clean address, behind at most one space, parses to itself. */
  lemma ParseOne(p: string, x: string)
    requires p == "" || p == " "
    requires Clean(x)
    ensures Tidy(Split(p + x, ',')) == [x]
  {
    var a := p + x;
    NoCommaAfterSpace(p, x);
    SplitWhole(a, ',');
    TrimAfterSpace(p, x);
    TidySingle(a);
  }

  /** An address and a comma in front of a parsed rest add that address. */
  lemma ParseStep(p: string, x: string, tail: string, rest: seq<string>)
    requires p == "" || p == " "
    requires Clean(x)
    requires Tidy(Split(" " + tail, ',')) == rest
    ensures Tidy(Split(p + (x + ", " + tail), ',')) == [x] + rest
  {
    var a := p + x;
    Regroup(p, x, tail);
    NoCommaAfterSpace(p, x);
    SplitAtFirst(a, ',', " " + tail);
    TrimAfterSpace(p, x);
    TidyCons(a, Split(" " + tail, ','));
  }

  /** Moving the comma of ", " to the front piece. */
  lemma Regroup(p: string, x: string, tail: string)
    ensures p + (x + ", " + tail) == (p + x) + [','] + (" " + tail)
  {
    assert ", " == [','] + " ";
    assert x + ", " + tail == x + ([','] + " ") + tail;
  }

  /** A string without the separator splits into itself. */
  lemma SplitWhole(a: string, c: char)
    requires c !in a
    ensures Split(a, c) == [a]
  {
  }

  /** Putting at most one space in front adds no comma. */
  lemma NoCommaAfterSpace(p: string, x: string)
    requires p == "" || p == " "
    requires ',' !in x
    ensures ',' !in p + x
  {
    assert forall i :: 0 <= i < |p| ==> (p + x)[i] == ' ';
    assert forall i :: |p| <= i < |p + x| ==> (p + x)[i] == x[i - |p|];
  }

  /** Parsing a list of clean addresses joined with ", " gives the list back. */
  lemma RecipientsRoundTrip(xs: seq<string>)
    requires forall i :: 0 <= i < |xs| ==> Clean(xs[i])
    ensures SplitRecipients(Join(xs, ", ")) == xs
  {
    RoundTripFrom("", xs);
    assert "" + Join(xs, ", ") == Join(xs, ", ");
  }

  /** A prefilled reply is addressed to exactly the original sender. */
  lemma ReplyAddressesSender(o: Original)
    requires o.fromEmail.Some? && Clean(o.fromEmail.value)
    ensures SplitRecipients(Prefill(Reply, o, "").to) == [o.fromEmail.value]
  {
    RecipientsRoundTrip([o.fromEmail.value]);
  }

  /** A prefilled reply-all carries exactly the original cc list. */
  lemma ReplyAllKeepsCc(o: Original)
    requires o.ccEmails.Some? && forall i :: 0 <= i < |o.ccEmails.value| ==> Clean(o.ccEmails.value[i])
    ensures SplitRecipients(Prefill(ReplyAll, o, "").cc) == o.ccEmails.value
  {
    RecipientsRoundTrip(o.ccEmails.value);
  }

  /** `body.replace(/\n/g, '<br>')`. */
  function ToHtml(body: string): (h: string)
    ensures '\n' !in h
    ensures '\n' !in body ==> h == body
  {
    ReplaceAll(body, '\n', "<br>")
  }

  /** The HTML keeps the body's lines, each line break becoming a `<br>`. */
  lemma {:induction false} ToHtmlLines(lines: seq<string>)
    requires forall i :: 0 <= i < |lines| ==> '\n' !in lines[i]
    ensures ToHtml(Join(lines, "\n")) == Join(lines, "<br>")
    decreases |lines|
  {
    if |lines| > 1 {
      var tail := Join(lines[1..], "\n");
      assert Join(lines, "\n") == lines[0] + ("\n" + tail);
      ReplaceAllAppend(lines[0], "\n" + tail, '\n', "<br>");
      ReplaceAllAppend("\n", tail, '\n', "<br>");
      assert ReplaceAll("\n", '\n', "<br>") == "<br>";
      ToHtmlLines(lines[1..]);
      assert Join(lines, "<br>") == lines[0] + "<br>" + Join(lines[1..], "<br>");
    }
  }

  /** The request handed to the send mutation. */
  datatype SendRequest = SendRequest(
    mailboxId: int,
    to: seq<string>,
    cc: Option<seq<string>>,
    subject: string,
    body: string,
    bodyHtml: string,
    inReplyTo: Option<string>,
    threadId: Option<string>)

  /** Why a send was refused before any request. */
  datatype SendError = NoMailbox | NoRecipient

  /** The request the dialog builds from a mailbox and its fields, without checks. */
  function BuildRequest(mailboxId: int, d: Draft, mode: Mode, o: Original): SendRequest {
    SendRequest(
      mailboxId,
      SplitRecipients(d.to),
      if d.cc != "" then Some(SplitRecipients(d.cc)) else None,
      OrElse(Some(d.subject), "(No subject)"),
      d.body,
      ToHtml(d.body),
      if IsReply(mode) then o.gmailMessageId else None,
      if IsReply(mode) then o.gmailThreadId else None)
  }

  /** `handleSend` AS WRITTEN: refuses a missing or zero mailbox id, then a blank
      recipient field; otherwise sends the parsed fields. */
  function HandleSend(mailboxId: Option<int>, d: Draft, mode: Mode, o: Original): (r: Result<SendRequest, SendError>)
    ensures r == Failure(NoMailbox) <==> mailboxId.None? || mailboxId == Some(0)
    ensures r == Failure(NoRecipient) <==> mailboxId.Some? && mailboxId.value != 0 && IsBlank(d.to)
    ensures r.Success? ==> && Some(r.value.mailboxId) == mailboxId
                           && r.value.to == SplitRecipients(d.to)
                           && (r.value.cc.None? <==> d.cc == "")
                           && (r.value.cc.Some? ==> r.value.cc.value == SplitRecipients(d.cc))
                           && (r.value.subject == if d.subject == "" then "(No subject)" else d.subject)
                           && r.value.body == d.body
                           && r.value.bodyHtml == ToHtml(d.body)
                           && (!IsReply(mode) ==> r.value.inReplyTo.None? && r.value.threadId.None?)
                           && (IsReply(mode) ==> r.value.inReplyTo == o.gmailMessageId && r.value.threadId == o.gmailThreadId)
  {
    if mailboxId.None? || mailboxId.value == 0 then Failure(NoMailbox)
    else if Trim(d.to) == "" then Failure(NoRecipient)
    else Success(BuildRequest(mailboxId.value, d, mode, o))
  }

  /** AS WRITTEN, a recipient field holding only commas passes the check and the
      request goes out with no recipient at all. */
  lemma CommaOnlyRecipientAccepted()
    ensures var r := HandleSend(Some(1), Draft(",", "", "Hi", "", false), Compose, NoOriginal);
            r.Success? && r.value.to == []
  {
    assert !IsBlank(",");
    assert Split(",", ',') == ["", ""] by {
      SplitAtFirst("", ',', "");
      assert "" + [','] + "" == ",";
    }
    assert Trim("") == "";
  }

  /** CORRECTED send: the recipient check is made on the parsed list, so every
      request carries at least one clean address. */
  function HandleSendFixed(mailboxId: Option<int>, d: Draft, mode: Mode, o: Original): (r: Result<SendRequest, SendError>)
    ensures r == Failure(NoMailbox) <==> mailboxId.None? || mailboxId == Some(0)
    ensures r == Failure(NoRecipient) <==> mailboxId.Some? && mailboxId.value != 0 && SplitRecipients(d.to) == []
    ensures r.Success? ==> |r.value.to| >= 1 && forall i :: 0 <= i < |r.value.to| ==> Clean(r.value.to[i])
  {
    if mailboxId.None? || mailboxId.value == 0 then Failure(NoMailbox)
    else if SplitRecipients(d.to) == [] then Failure(NoRecipient)
    else Success(BuildRequest(mailboxId.value, d, mode, o))
  }

  /** The corrected send agrees with the original on every field it accepts and
      refuses exactly the extra inputs that parse to no address. */
  lemma FixedSendAgrees(mailboxId: Option<int>, d: Draft, mode: Mode, o: Original)
    ensures HandleSendFixed(mailboxId, d, mode, o).Success? ==>
              HandleSendFixed(mailboxId, d, mode, o) == HandleSend(mailboxId, d, mode, o)
    ensures HandleSend(mailboxId, d, mode, o).Success? && HandleSendFixed(mailboxId, d, mode, o).Failure? ==>
              HandleSend(mailboxId, d, mode, o).value.to == []
  {
    if SplitRecipients(d.to) != [] && IsBlank(d.to) {
      BlankHasNoRecipient(d.to);
    }
  }

  /** A blank field parses to no address. */
  lemma BlankHasNoRecipient(s: string)
    requires IsBlank(s)
    ensures SplitRecipients(s) == []
  {
    assert ',' !in s by {
      assert !IsSpace(',');
    }
    assert Split(s, ',') == [s];
    assert Trim(s) == "";
    assert Tidy([s]) == [] + Tidy([]);
  }

  /** The dialog's heading per mode. */
  function Title(mode: Mode): (t: string)
    ensures mode == Compose <==> t == "New Message"
    ensures mode == Reply <==> t == "Reply"
    ensures mode == ReplyAll <==> t == "Reply All"
    ensures mode == Forward <==> t == "Forward"
  {
    match mode
    case Reply => "Reply"
    case ReplyAll => "Reply All"
    case Forward => "Forward"
    case Compose => "New Message"
  }
}
