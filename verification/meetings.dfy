/** The meeting record, the wall clock, and the card's validator
    `validateMeeting`. Dates are day numbers and times are minutes since
    midnight; an empty input is `None`. */
module Meetings {
  import opened Outcomes
  import opened Text
  import opened Email

  /** The current instant: today's day number and the milliseconds since
      midnight, the resolution of `new Date()`. */
  datatype Clock = Clock(day: int, millis: int)

  const MillisPerMinute := 60000

  /** A meeting as the backend stores it; `participants` is the
      comma-joined list of addresses. */
  datatype Meeting = Meeting(
    id: string,
    title: string,
    date: Option<int>,
    time: Option<int>,
    duration: int,
    participants: string)

  /** `isPastMeeting`: `new Date(date + "T" + time) < new Date()`. With either
      part empty the date is invalid and the comparison is false; otherwise
      it is the strict order on instants: an earlier day, or the same day
      with the start (whole minutes) before the current millisecond. */
  predicate IsPast(m: Meeting, now: Clock) {
    && m.date.Some? && m.time.Some?
    && (m.date.value < now.day
        || (m.date.value == now.day && m.time.value * MillisPerMinute < now.millis))
  }

  /** A meeting with an empty date or time is never past, and one starting
      exactly now is not yet past; one millisecond later it is. */
  lemma PastBoundary(m: Meeting, day: int, millis: int)
    ensures m.date.None? || m.time.None? ==> !IsPast(m, Clock(day, millis))
    ensures m.date == Some(day) && m.time.Some? && millis == m.time.value * MillisPerMinute ==>
      !IsPast(m, Clock(day, millis)) && IsPast(m, Clock(day, millis + 1))
  {
  }

  /** Once past, always past: a later instant keeps the meeting past. */
  lemma PastStaysPast(m: Meeting, now: Clock, later: Clock)
    requires IsPast(m, now)
    requires now.day < later.day || (now.day == later.day && now.millis <= later.millis)
    ensures IsPast(m, later)
  {
  }

  /** `validateDateInput`: the selected day is today or later. */
  predicate DateNotBeforeToday(day: int, today: int) {
    day >= today
  }

  const MaxDuration := 480

  const TitleRequired := "Meeting title is required"
  const DateInvalid := "Please select a valid future date"
  const TimeRequired := "Meeting time is required"
  const DurationInvalid := "Duration must be between 1 and 480 minutes"
  const ParticipantsRequired := "At least one participant is required"
  const EmailsInvalid := "Please enter valid email addresses"

  /** The rules of `validateMeeting`, in the order it checks them. */
  datatype Rule = TitleRule | DateRule | TimeRule | DurationRule | ParticipantsRule | EmailRule

  const Rules: seq<Rule> := [TitleRule, DateRule, TimeRule, DurationRule, ParticipantsRule, EmailRule]

  /** What each rule demands, stated independently of the validator's code. */
  predicate Passes(rule: Rule, m: Meeting, emails: seq<string>, today: int) {
    match rule
    case TitleRule => !AllSpace(m.title)
    case DateRule => m.date.Some? && DateNotBeforeToday(m.date.value, today)
    case TimeRule => m.time.Some?
    case DurationRule => 1 <= m.duration <= MaxDuration
    case ParticipantsRule => |emails| > 0
    case EmailRule => AllMatchCardPattern(emails)
  }

  function MessageOf(rule: Rule): string {
    match rule
    case TitleRule => TitleRequired
    case DateRule => DateInvalid
    case TimeRule => TimeRequired
    case DurationRule => DurationInvalid
    case ParticipantsRule => ParticipantsRequired
    case EmailRule => EmailsInvalid
  }

  /** `!emails.some(e => !validateEmail(e))`: every address passes the
      anchored pattern. */
  predicate AllMatchCardPattern(emails: seq<string>) {
    forall e :: e in emails ==> MatchesCardPattern(e)
  }

  /** Every rule holds of the record and the card's current address list. */
  predicate MeetingIsValid(m: Meeting, emails: seq<string>, today: int) {
    forall k :: 0 <= k < |Rules| ==> Passes(Rules[k], m, emails, today)
  }

  /** `validateMeeting`: the message of the first rule that fails, or ""
      when all hold. The addresses come from the card's list, not from the
      record's `participants` field. */
  function ValidateMeeting(m: Meeting, emails: seq<string>, today: int): (r: string)
    ensures r == "" <==> MeetingIsValid(m, emails, today)
  {
    if Trim(m.title) == "" then
      assert !Passes(Rules[0], m, emails, today);
      TitleRequired
    else if m.date.None? || !DateNotBeforeToday(m.date.value, today) then
      assert !Passes(Rules[1], m, emails, today);
      DateInvalid
    else if m.time.None? then
      assert !Passes(Rules[2], m, emails, today);
      TimeRequired
    else if m.duration <= 0 || m.duration > MaxDuration then
      assert !Passes(Rules[3], m, emails, today);
      DurationInvalid
    else if |emails| == 0 then
      assert !Passes(Rules[4], m, emails, today);
      ParticipantsRequired
    else if !AllMatchCardPattern(emails) then
      assert !Passes(Rules[5], m, emails, today);
      EmailsInvalid
    else
      ""
  }

  /** The result names the first failing rule: when rule `k` fails and
      every earlier one holds, the validator returns rule `k`'s message. */
  lemma ValidateReportsFirstFailure(m: Meeting, emails: seq<string>, today: int, k: nat)
    requires k < |Rules|
    requires !Passes(Rules[k], m, emails, today)
    requires forall j :: 0 <= j < k ==> Passes(Rules[j], m, emails, today)
    ensures ValidateMeeting(m, emails, today) == MessageOf(Rules[k])
  {
    if k > 0 { assert Passes(Rules[0], m, emails, today); }
    if k > 1 { assert Passes(Rules[1], m, emails, today); }
    if k > 2 { assert Passes(Rules[2], m, emails, today); }
    if k > 3 { assert Passes(Rules[3], m, emails, today); }
    if k > 4 { assert Passes(Rules[4], m, emails, today); }
  }

  /** A blank or white-space-only title is reported whatever the other
      fields hold. */
  lemma BlankTitleIsReportedFirst(m: Meeting, emails: seq<string>, today: int)
    requires AllSpace(m.title)
    ensures ValidateMeeting(m, emails, today) == TitleRequired
  {
    ValidateReportsFirstFailure(m, emails, today, 0);
  }

  /** With a usable title, a missing date or one before today is reported,
      and a date equal to today is accepted by that rule. */
  lemma DateRuleBoundary(m: Meeting, emails: seq<string>, today: int)
    requires !AllSpace(m.title)
    ensures m.date.None? || m.date.value < today ==> ValidateMeeting(m, emails, today) == DateInvalid
    ensures m.date == Some(today) ==> ValidateMeeting(m, emails, today) != DateInvalid
  {
    if m.date.None? || m.date.value < today {
      ValidateReportsFirstFailure(m, emails, today, 1);
    }
  }

  /** Once title, date and time pass, the duration message appears exactly
      when the duration is outside 1..480; so 0, -5 and 481 are rejected. */
  lemma DurationRuleBoundary(m: Meeting, emails: seq<string>, today: int)
    requires Passes(TitleRule, m, emails, today)
    requires Passes(DateRule, m, emails, today)
    requires Passes(TimeRule, m, emails, today)
    ensures ValidateMeeting(m, emails, today) == DurationInvalid <==> !(1 <= m.duration <= MaxDuration)
  {
    if !(1 <= m.duration <= MaxDuration) {
      ValidateReportsFirstFailure(m, emails, today, 3);
    }
  }

  /** With the record's own fields valid, an empty address list is reported,
      then any address failing the anchored pattern, and otherwise the
      result is "". */
  lemma ParticipantRules(m: Meeting, emails: seq<string>, today: int)
    requires forall k :: 0 <= k < 4 ==> Passes(Rules[k], m, emails, today)
    ensures emails == [] ==> ValidateMeeting(m, emails, today) == ParticipantsRequired
    ensures emails != [] && (exists e :: e in emails && !MatchesCardPattern(e))
      ==> ValidateMeeting(m, emails, today) == EmailsInvalid
    ensures emails != [] && (forall e :: e in emails ==> MatchesCardPattern(e))
      ==> ValidateMeeting(m, emails, today) == ""
  {
    if emails == [] {
      ValidateReportsFirstFailure(m, emails, today, 4);
    } else if exists e :: e in emails && !MatchesCardPattern(e) {
      ValidateReportsFirstFailure(m, emails, today, 5);
    }
  }
}
