/** The search results panel: which screen it shows, the relative age of each
    result, and the text of each result card. */
module SearchResults {
  import opened Wrappers
  import opened Strings
  import opened Emails

  /** The mailbox sent with a search: `selectedMailboxId || undefined`, so no
      selection and the id 0 both search every mailbox. */
  function SearchMailbox(selected: Option<int>): (r: Option<int>)
    ensures r.None? <==> selected.None? || selected == Some(0)
    ensures r.Some? ==> r == selected
  {
    if selected.Some? && selected.value != 0 then selected else None
  }

  /** One page of search results. */
  datatype SearchPage = SearchPage(items: seq<Email>, totalItems: int, totalPages: int, currentPage: int)

  /** What the panel shows. */
  datatype Screen = Spinner | ErrorPanel(message: string) | NoMatches | ResultList(page: SearchPage)

  /** Loading wins over an error, an error over an empty result; `err` is the
      message of a thrown `Error`, `None` for anything else thrown. */
  function ScreenFor(isLoading: bool, isError: bool, err: Option<string>, data: Option<SearchPage>): (s: Screen)
    ensures s == Spinner <==> isLoading
    ensures s.ErrorPanel? <==> !isLoading && isError
    ensures s.ErrorPanel? ==> s.message == err.GetOr("Please try again.")
    ensures s == NoMatches <==> !isLoading && !isError && (data.None? || data.value.items == [])
    ensures s.ResultList? ==> data == Some(s.page) && |s.page.items| > 0
  {
    if isLoading then Spinner
    else if isError then ErrorPanel(match err case Some(m) => m case None => "Please try again.")
    else if data.None? || |data.value.items| == 0 then NoMatches
    else ResultList(data.value)
  }

  const MsPerMinute: nat := 60000
  const MsPerHour: nat := 3600000
  const MsPerDay: nat := 86400000
  const MsPerWeek: nat := 604800000

  /** How long ago an email arrived, as `formatDate` buckets it. A date in the future
      gives negative minutes. */
  datatype Age = MinutesAgo(minutes: int) | HoursAgo(hours: nat) | DaysAgo(days: nat) | OnDate

  /** `formatDate` on the elapsed milliseconds. The source divides in floating point
      and floors; for a positive divisor Dafny's `/` is that floor. */
  function AgeOf(elapsedMs: int): (a: Age)
    ensures a.MinutesAgo? <==> elapsedMs < MsPerHour
    ensures a.MinutesAgo? ==> a.minutes < 60 && a.minutes * MsPerMinute <= elapsedMs < (a.minutes + 1) * MsPerMinute
    ensures a.HoursAgo? <==> MsPerHour <= elapsedMs < MsPerDay
    ensures a.HoursAgo? ==> 1 <= a.hours < 24 && a.hours * MsPerHour <= elapsedMs < (a.hours + 1) * MsPerHour
    ensures a.DaysAgo? <==> MsPerDay <= elapsedMs < MsPerWeek
    ensures a.DaysAgo? ==> 1 <= a.days < 7 && a.days * MsPerDay <= elapsedMs < (a.days + 1) * MsPerDay
    ensures a.OnDate? <==> MsPerWeek <= elapsedMs
  {
    if elapsedMs < MsPerHour then MinutesAgo(elapsedMs / MsPerMinute)
    else if elapsedMs < MsPerDay then HoursAgo(elapsedMs / MsPerHour)
    else if elapsedMs < MsPerWeek then DaysAgo(elapsedMs / MsPerDay)
    else OnDate
  }

  /** The order of the buckets, newest first. */
  function Rank(a: Age): nat {
    match a
    case MinutesAgo(_) => 0
    case HoursAgo(_) => 1
    case DaysAgo(_) => 2
    case OnDate => 3
  }

  /** An older email never shows a newer bucket, nor a smaller count in the same
      bucket. */
  lemma AgeMonotone(x: int, y: int)
    requires x <= y
    ensures Rank(AgeOf(x)) <= Rank(AgeOf(y))
    ensures AgeOf(x).MinutesAgo? && AgeOf(y).MinutesAgo? ==> AgeOf(x).minutes <= AgeOf(y).minutes
    ensures AgeOf(x).HoursAgo? && AgeOf(y).HoursAgo? ==> AgeOf(x).hours <= AgeOf(y).hours
    ensures AgeOf(x).DaysAgo? && AgeOf(y).DaysAgo? ==> AgeOf(x).days <= AgeOf(y).days
  {
  }

  /** The label shown; `calendar` stands for the locale-formatted date used after
      a week. */
  function AgeLabel(a: Age, calendar: string): string {
    match a
    case MinutesAgo(m) => IntToString(m) + "m ago"
    case HoursAgo(h) => NatToString(h) + "h ago"
    case DaysAgo(d) => NatToString(d) + "d ago"
    case OnDate => calendar
  }

  /** `formatDate`. Under an hour, including a date in the future, the label is the
      floored minute count followed by "m ago". */
  function FormatDate(elapsedMs: int, calendar: string): (shown: string)
    ensures elapsedMs >= MsPerWeek ==> shown == calendar
    ensures elapsedMs < MsPerHour ==> shown == IntToString(elapsedMs / MsPerMinute) + "m ago"
  {
    AgeLabel(AgeOf(elapsedMs), calendar)
  }

  /** Within the first week the label reads back as the count before its unit: the
      digits in front of "h ago" are the whole hours elapsed, those in front of
      "d ago" the whole days. */
  lemma FormatDateReadsBack(elapsedMs: int, calendar: string)
    requires MsPerHour <= elapsedMs < MsPerWeek
    ensures var text := FormatDate(elapsedMs, calendar);
            && |text| > 5
            && (forall i :: 0 <= i < |text| - 5 ==> '0' <= text[i] <= '9')
            && (elapsedMs < MsPerDay ==> text[|text| - 5..] == "h ago" && DigitsValue(text[..|text| - 5]) == elapsedMs / MsPerHour)
            && (elapsedMs >= MsPerDay ==> text[|text| - 5..] == "d ago" && DigitsValue(text[..|text| - 5]) == elapsedMs / MsPerDay)
  {
    var n: nat := if elapsedMs < MsPerDay then elapsedMs / MsPerHour else elapsedMs / MsPerDay;
    var digits := NatToString(n);
    var text := FormatDate(elapsedMs, calendar);
    NatToStringRoundTrip(n);
    assert text[..|text| - 5] == digits;
  }

  /** Under an hour the label reads back as minutes before "m ago": the whole minutes
      elapsed for a past date, and for a date in the future a minus sign followed
      by the minutes still to go, rounded up. */
  lemma FormatDateMinutesReadsBack(elapsedMs: int, calendar: string)
    requires elapsedMs < MsPerHour
    ensures var text := FormatDate(elapsedMs, calendar);
            && |text| > 5
            && text[|text| - 5..] == "m ago"
            && (elapsedMs >= 0 ==> DigitsValue(text[..|text| - 5]) == elapsedMs / MsPerMinute < 60)
            && (elapsedMs < 0 ==> text[0] == '-' && DigitsValue(text[1..|text| - 5]) == (MsPerMinute - 1 - elapsedMs) / MsPerMinute)
  {
    var m := elapsedMs / MsPerMinute;
    var text := FormatDate(elapsedMs, calendar);
    if elapsedMs >= 0 {
      NatToStringRoundTrip(m);
      assert text[..|text| - 5] == NatToString(m);
    } else {
      CeilingOfNegative(elapsedMs);
      NatToStringRoundTrip(-m);
      assert text[1..|text| - 5] == NatToString(-m);
    }
  }

  /** For a negative count of milliseconds, the floored minutes are minus the
      rounded-up minutes of its magnitude. */
  lemma CeilingOfNegative(elapsedMs: int)
    requires elapsedMs < 0
    ensures -(elapsedMs / MsPerMinute) == (MsPerMinute - 1 - elapsedMs) / MsPerMinute
  {
    var m := elapsedMs / MsPerMinute;
    var c := (MsPerMinute - 1 - elapsedMs) / MsPerMinute;
    assert m * MsPerMinute <= elapsedMs < (m + 1) * MsPerMinute;
    assert c * MsPerMinute <= MsPerMinute - 1 - elapsedMs < (c + 1) * MsPerMinute;
  }

  /** `totalItems === 1 ? 'email' : 'emails'`. */
  function ResultNoun(totalItems: int): (noun: string)
    ensures noun == "email" <==> totalItems == 1
    ensures noun == "emails" <==> totalItems != 1
  {
    if totalItems == 1 then "email" else "emails"
  }

  /** The sender shown on a card: the name, else the address. */
  function SenderLabel(e: Email): (r: string)
    ensures e.fromName.Some? && e.fromName.value != "" ==> r == e.fromName.value
    ensures (e.fromName.None? || e.fromName == Some("")) ==> r == e.fromEmail
  {
    OrElse(e.fromName, e.fromEmail)
  }

  /** The avatar letter: the upper-cased first character of the name, else of the
      address. With neither, indexing gives `undefined` and upper-casing it throws,
      modelled as `None`. */
  function AvatarInitial(e: Email): (r: Option<char>)
    ensures r.None? <==> (e.fromName.None? || e.fromName == Some("")) && e.fromEmail == ""
  {
    if e.fromName.Some? && e.fromName.value != "" then Some(UpperChar(e.fromName.value[0]))
    else if e.fromEmail != "" then Some(UpperChar(e.fromEmail[0]))
    else None
  }

  /** The avatar always shows the first letter of the sender printed beside it. */
  lemma AvatarMatchesSender(e: Email)
    ensures AvatarInitial(e).Some? <==> SenderLabel(e) != ""
    ensures AvatarInitial(e).Some? ==> AvatarInitial(e).value == UpperChar(SenderLabel(e)[0])
  {
  }

  /** The subject line, with a placeholder for a missing or empty subject. */
  function SubjectLine(e: Email): (r: string)
    ensures r != ""
    ensures e.subject.Some? && e.subject.value != "" ==> r == e.subject.value
    ensures (e.subject.None? || e.subject == Some("")) ==> r == "(No subject)"
  {
    OrElse(e.subject, "(No subject)")
  }

  /** The preview: the AI summary, else the snippet, else a placeholder. */
  function PreviewLine(e: Email): (r: string)
    ensures r != ""
    ensures e.aiSummary.Some? && e.aiSummary.value != "" ==> r == e.aiSummary.value
    ensures (e.aiSummary.None? || e.aiSummary == Some("")) && e.snippet.Some? && e.snippet.value != "" ==> r == e.snippet.value
    ensures (e.aiSummary.None? || e.aiSummary == Some("")) && (e.snippet.None? || e.snippet == Some("")) ==> r == "No content preview"
  {
    OrElse(e.aiSummary, OrElse(e.snippet, "No content preview"))
  }

  /** The task-status badge: hidden for "none"; otherwise the status with its FIRST
      underscore turned into a space. */
  function StatusBadge(taskStatus: string): (r: Option<string>)
    ensures r.None? <==> taskStatus == "none"
    ensures r.Some? ==> |r.value| == |taskStatus| && '_' !in taskStatus[..IndexOfOr(taskStatus)] && r.value[..IndexOfOr(taskStatus)] == taskStatus[..IndexOfOr(taskStatus)]
    ensures r.Some? && '_' in taskStatus ==>
              var k := IndexOfOr(taskStatus);
              r.value[k] == ' ' && r.value[k + 1..] == taskStatus[k + 1..]
    ensures r.Some? && '_' !in taskStatus ==> r.value == taskStatus
  {
    if taskStatus == "none" then None else Some(ReplaceFirst(taskStatus, '_', ' '))
  }

  /** Where the first underscore is, or the length when there is none. */
  function IndexOfOr(s: string): (k: nat)
    ensures k <= |s| && '_' !in s[..k]
    ensures k < |s| ==> s[k] == '_'
  {
    if '_' in s then IndexOf(s, '_') else |s|
  }

  /** The board's statuses as badges; a status with two underscores keeps the second. */
  lemma StatusBadges()
    ensures StatusBadge("none") == None
    ensures StatusBadge("todo") == Some("todo")
    ensures StatusBadge("in_progress") == Some("in progress")
    ensures StatusBadge("done") == Some("done")
    ensures StatusBadge("a_b_c") == Some("a b_c")
  {
    assert '_' !in "todo";
    assert '_' !in "done";
    InProgressBadge();
    TwoUnderscoreBadge();
  }

  lemma InProgressBadge()
    ensures StatusBadge("in_progress") == Some("in progress")
  {
    assert "in_progress"[2] == '_';
    assert IndexOf("in_progress", '_') == 2;
    assert "in_progress"[..2] + [' '] + "in_progress"[3..] == "in progress";
  }

  lemma TwoUnderscoreBadge()
    ensures StatusBadge("a_b_c") == Some("a b_c")
  {
    assert "a_b_c"[1] == '_';
    assert IndexOf("a_b_c", '_') == 1;
    assert "a_b_c"[..1] + [' '] + "a_b_c"[2..] == "a b_c";
  }

  /** "Page x of y", shown only when there is more than one page. */
  function PageInfo(p: SearchPage): (r: Option<string>)
    ensures r.Some? <==> p.totalPages > 1
    ensures r.Some? ==> StartsWith(r.value, "Page ")
  {
    if p.totalPages > 1 then Some("Page " + IntToString(p.currentPage) + " of " + IntToString(p.totalPages)) else None
  }
}
