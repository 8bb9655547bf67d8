/** The `ScheduleMeeting` form: title, date, time and duration inputs, a
    participant list built one address at a time, and a time that only
    counts once confirmed in a dialog. */
module ScheduleMeeting {
  import opened Outcomes
  import opened Text
  import opened Email
  import opened Lists

  /** The form's state. `confirmedTime` is what a submission sends as the
      time; `time` is only what the input shows. */
  datatype Form = Form(
    title: string,
    date: Option<int>,
    time: Option<int>,
    duration: int,
    participants: seq<string>,
    input: string,
    confirmedTime: Option<int>,
    error: string,
    dialogVisible: bool)

  /** What a submission hands to `onSchedule`. */
  datatype Payload = Payload(
    title: string,
    date: Option<int>,
    time: Option<int>,
    duration: int,
    participants: seq<string>)

  const DefaultDuration := 30

  const TitleMissing := "Title is required."
  const DateMissing := "Date is required."
  const TimeMissing := "Time is required."
  const ParticipantMissing := "Valid email is required."
  const InvalidEmail := "Please enter a valid email address."
  const TimeNotSelected := "Please select a time first."
  const Incomplete := "All fields must be completed, and time must be confirmed."
  const ScheduleFailed := "Failed to schedule the meeting. Please try again."

  /** The form as it opens: everything empty, duration 30, no dialog. */
  function Initial(): (f: Form)
    ensures f.title == "" && f.date == None && f.time == None && f.input == ""
    ensures f.participants == [] && f.confirmedTime == None && f.error == ""
    ensures f.duration == DefaultDuration && !f.dialogVisible
    ensures Invariant(f) && !SubmitEnabled(f)
  {
    Form("", None, None, DefaultDuration, [], "", None, "", false)
  }

  /** Every listed participant is a trimmed, non-empty string the form's
      pattern accepts. */
  predicate Invariant(f: Form) {
    forall k :: 0 <= k < |f.participants| ==> Accepted(f.participants[k])
  }

  predicate Accepted(e: string) {
    e != "" && Trimmed(e) && MatchesFormPattern(e)
  }

  /** The fields `validateField` knows; `Other` is any other input name. */
  datatype Field = TitleField | DateField | TimeField | ParticipantField | Other(name: string)

  /** The value an input reports: the title and participant inputs give
      text, the date and time inputs give a possibly empty selection. */
  datatype Value = Typed(text: string) | Picked(choice: Option<int>)

  /** `validateField`: the field's message when its value is unusable, or "".
      A title of white space alone is missing; an empty date or time is
      missing; a participant must be non-empty and match the form's pattern;
      any other field is never faulted. */
  function ValidateField(field: Field, v: Value): (r: string)
    ensures field.TitleField? && v.Typed? ==> r == (if AllSpace(v.text) then TitleMissing else "")
    ensures field.DateField? && v.Picked? ==> r == (if v.choice.None? then DateMissing else "")
    ensures field.TimeField? && v.Picked? ==> r == (if v.choice.None? then TimeMissing else "")
    ensures field.ParticipantField? && v.Typed? ==>
      r == (if v.text != "" && MatchesFormPattern(v.text) then "" else ParticipantMissing)
    ensures field.Other? ==> r == ""
    ensures r in {"", TitleMissing, DateMissing, TimeMissing, ParticipantMissing}
  {
    match field
    case TitleField => if v.Typed? && Trim(v.text) == "" then TitleMissing else ""
    case DateField => if v.Picked? && v.choice.None? then DateMissing else ""
    case TimeField => if v.Picked? && v.choice.None? then TimeMissing else ""
    case ParticipantField =>
      if v.Typed? && (v.text == "" || !MatchesFormPattern(v.text)) then ParticipantMissing else ""
    case Other(_) => ""
  }

  /** An input edit the form routes through `handleFieldChange`: only the
      title, date and time inputs carry a `name`. */
  datatype FieldEdit = SetTitle(title: string) | SetDate(date: Option<int>) | SetTime(time: Option<int>)

  /** `handleFieldChange`: store the value and show that field's message,
      replacing whatever error was shown. */
  function ChangeField(f: Form, e: FieldEdit): (r: Form)
    ensures e.SetTitle? ==>
      r == f.(title := e.title, error := if AllSpace(e.title) then TitleMissing else "")
    ensures e.SetDate? ==>
      r == f.(date := e.date, error := if e.date.None? then DateMissing else "")
    ensures e.SetTime? ==>
      r == f.(time := e.time, error := if e.time.None? then TimeMissing else "")
  {
    match e
    case SetTitle(t) => f.(title := t, error := ValidateField(TitleField, Typed(t)))
    case SetDate(d) => f.(date := d, error := ValidateField(DateField, Picked(d)))
    case SetTime(t) => f.(time := t, error := ValidateField(TimeField, Picked(t)))
  }

  /** Typing into the participant input: nothing is validated. */
  function TypeParticipant(f: Form, s: string): (r: Form)
    ensures r == f.(input := s)
    ensures r.error == f.error && r.participants == f.participants
  {
    f.(input := s)
  }

  /** `addParticipant`: a blank input or one the form's pattern rejects
      shows an error and changes nothing else; otherwise the trimmed input
      is appended, the input is cleared and so is the error. */
  function AddParticipant(f: Form): (r: Form)
    ensures AllSpace(f.input) || !MatchesFormPattern(f.input) ==>
      r == f.(error := InvalidEmail)
    ensures !AllSpace(f.input) && MatchesFormPattern(f.input) ==>
      && r.participants == f.participants + [Trim(f.input)]
      && r.input == "" && r.error == ""
    ensures r.title == f.title && r.date == f.date && r.time == f.time
    ensures r.confirmedTime == f.confirmedTime && r.duration == f.duration
    ensures r.dialogVisible == f.dialogVisible
  {
    if Trim(f.input) == "" || !MatchesFormPattern(f.input) then
      f.(error := InvalidEmail)
    else
      f.(participants := f.participants + [Trim(f.input)], input := "", error := "")
  }

  /** What `addParticipant` appends is accepted: the pattern's match lies
      inside what `trim` keeps. */
  lemma AddParticipantKeepsInvariant(f: Form)
    requires Invariant(f)
    ensures Invariant(AddParticipant(f))
  {
    if !AllSpace(f.input) && MatchesFormPattern(f.input) {
      FormPatternSurvivesTrim(f.input);
      TrimIdempotent(f.input);
      var r := AddParticipant(f);
      assert r.participants == f.participants + [Trim(f.input)];
      assert Accepted(Trim(f.input));
    }
  }

  /** `removeParticipant`: drop the entry at `index`; the error is kept. */
  function RemoveParticipant(f: Form, index: int): (r: Form)
    ensures r == f.(participants := RemoveAt(f.participants, index))
    ensures r.error == f.error && r.confirmedTime == f.confirmedTime
    ensures Invariant(f) ==> Invariant(r)
  {
    f.(participants := RemoveAt(f.participants, index))
  }

  /** `handleTimeDialog`: with no time selected, an error; otherwise the
      error is cleared and the confirmation dialog opens. */
  function OpenTimeDialog(f: Form): (r: Form)
    ensures f.time.None? ==> r == f.(error := TimeNotSelected)
    ensures f.time.Some? ==> r == f.(error := "", dialogVisible := true)
  {
    if f.time.None? then f.(error := TimeNotSelected)
    else f.(error := "", dialogVisible := true)
  }

  /** `confirmTime`: the selected time becomes the confirmed one. */
  function ConfirmTime(f: Form): (r: Form)
    ensures r.confirmedTime == f.time && !r.dialogVisible
    ensures r == f.(confirmedTime := f.time, dialogVisible := false)
  {
    f.(confirmedTime := f.time, dialogVisible := false)
  }

  /** The dialog's cancel button: closes it, nothing confirmed. */
  function CancelTimeDialog(f: Form): (r: Form)
    ensures r == f.(dialogVisible := false)
  {
    f.(dialogVisible := false)
  }

  /** The Schedule button's `disabled` condition, negated. Participants are
      not consulted. */
  predicate SubmitEnabled(f: Form) {
    f.confirmedTime.Some? && f.title != "" && f.date.Some?
  }

  /** The guard inside `handleSubmit`. */
  predicate SubmitAccepted(f: Form) {
    f.title != "" && f.date.Some? && f.confirmedTime.Some? && |f.participants| > 0
  }

  function PayloadOf(f: Form): Payload {
    Payload(f.title, f.date, f.confirmedTime, f.duration, f.participants)
  }

  /** The outcome of `handleSubmit`: the new form and the payload handed
      to `onSchedule`, if any. */
  datatype SubmitStep = SubmitStep(form: Form, sent: Option<Payload>)

  /** `handleSubmit`. `outcome` is how the `onSchedule` promise settles;
      it is consulted only when the guard passes. The form neither closes
      nor resets itself. */
  function Submit(f: Form, outcome: Reply<()>): (s: SubmitStep)
    ensures !SubmitAccepted(f) ==> s == SubmitStep(f.(error := Incomplete), None)
    ensures SubmitAccepted(f) ==>
      && s.sent == Some(PayloadOf(f)) && s.sent.value.time == f.confirmedTime
      && s.form == f.(error := if outcome.Ok? then "" else ScheduleFailed)
  {
    if !SubmitAccepted(f) then SubmitStep(f.(error := Incomplete), None)
    else
      var r := f.(error := "");
      SubmitStep(if outcome.Ok? then r else r.(error := ScheduleFailed), Some(PayloadOf(f)))
  }

  /** The handler's guard is stricter than the button: whatever it lets
      through had the button enabled, and an enabled button with an empty
      participant list is turned away by the handler. */
  lemma SubmitGuardVersusButton(f: Form, outcome: Reply<()>)
    ensures SubmitAccepted(f) ==> SubmitEnabled(f)
    ensures SubmitEnabled(f) && f.participants == [] ==>
      Submit(f, outcome).sent == None && Submit(f, outcome).form.error == Incomplete
  {
  }

  /** A title of white space alone passes both the button and the guard:
      only the empty string is refused. */
  lemma BlankTitlePassesSubmit(f: Form, outcome: Reply<()>)
    requires f.title != "" && AllSpace(f.title)
    requires f.date.Some? && f.confirmedTime.Some? && f.participants != []
    ensures Submit(f, outcome).sent.Some?
    ensures Submit(f, outcome).sent.value.title == f.title
  {
  }

  /** Changing the time after confirming does not touch the confirmed
      time: a submission still sends the time that was confirmed. */
  lemma StaleConfirmedTimeIsSent(f: Form, t: Option<int>, outcome: Reply<()>)
    requires f.time.Some? && t != f.time
    requires SubmitAccepted(ConfirmTime(f))
    ensures ChangeField(ConfirmTime(f), SetTime(t)).time == t
    ensures Submit(ChangeField(ConfirmTime(f), SetTime(t)), outcome).sent.value.time == f.time
    ensures Submit(ChangeField(ConfirmTime(f), SetTime(t)), outcome).sent.value.time != t
  {
  }

  /** Opening the dialog and confirming makes the selected time the one a
      submission sends, and leaves no dialog open; cancelling instead
      confirms nothing. */
  lemma ConfirmFlow(f: Form)
    requires f.time.Some?
    ensures ConfirmTime(OpenTimeDialog(f)).confirmedTime == f.time
    ensures !ConfirmTime(OpenTimeDialog(f)).dialogVisible
    ensures CancelTimeDialog(OpenTimeDialog(f)).confirmedTime == f.confirmedTime
    ensures !CancelTimeDialog(OpenTimeDialog(f)).dialogVisible
  {
  }

  /** Adding an address and removing the last entry gives the list back. */
  lemma AddThenRemoveRestores(f: Form)
    requires !AllSpace(f.input) && MatchesFormPattern(f.input)
    ensures RemoveParticipant(AddParticipant(f), |f.participants|).participants == f.participants
  {
    RemoveAppended(f.participants, Trim(f.input));
  }

  /** The form's pattern admits an address the card's validator refuses:
      a second '@' in front of an accepted address. Such an entry can be
      scheduled from the form and then never saved from the card. */
  lemma FormAcceptsWhatCardRejects(f: Form, address: string)
    requires Accepted(address)
    ensures !AllSpace("@" + address) && MatchesFormPattern("@" + address)
    ensures AddParticipant(f.(input := "@" + address)).participants == f.participants + ["@" + address]
    ensures !MatchesCardPattern("@" + address)
  {
    FormPatternAdmitsSecondAt(address);
    TrimmedIsFixed("@" + address);
  }

  /** One user action on the form. */
  datatype Action =
    | Edit(edit: FieldEdit)
    | TypeInput(text: string)
    | Add
    | Remove(index: int)
    | OpenDialog
    | Confirm
    | CancelDialog
    | SubmitWith(outcome: Reply<()>)

  /** One action on the rendered form. The dialog's two buttons exist only
      while the dialog is shown, and the Schedule button (or an implicit
      submission with Enter) does nothing while it is disabled. No input
      edits the duration. */
  function Apply(f: Form, a: Action): (r: Form)
    ensures a.Edit? ==> r == ChangeField(f, a.edit)
    ensures a.TypeInput? ==> r == TypeParticipant(f, a.text)
    ensures a.Add? ==> r == AddParticipant(f)
    ensures a.Remove? ==> r == RemoveParticipant(f, a.index)
    ensures a.OpenDialog? ==> r == OpenTimeDialog(f)
    ensures a.Confirm? && f.dialogVisible ==> r == ConfirmTime(f)
    ensures a.CancelDialog? && f.dialogVisible ==> r == CancelTimeDialog(f)
    ensures (a.Confirm? || a.CancelDialog?) && !f.dialogVisible ==> r == f
    ensures a.SubmitWith? && SubmitEnabled(f) ==> r == Submit(f, a.outcome).form
    ensures a.SubmitWith? && !SubmitEnabled(f) ==> r == f
    ensures r.duration == f.duration
  {
    match a
    case Edit(e) => ChangeField(f, e)
    case TypeInput(s) => TypeParticipant(f, s)
    case Add => AddParticipant(f)
    case Remove(i) => RemoveParticipant(f, i)
    case OpenDialog => OpenTimeDialog(f)
    case Confirm => if f.dialogVisible then ConfirmTime(f) else f
    case CancelDialog => if f.dialogVisible then CancelTimeDialog(f) else f
    case SubmitWith(o) => if SubmitEnabled(f) then Submit(f, o).form else f
  }

  /** The form after a sequence of actions, first to last. The duration
      the form was opened with is the one it keeps. */
  function Run(f: Form, actions: seq<Action>): (r: Form)
    ensures r.duration == f.duration
    decreases |actions|
  {
    if actions == [] then f else Run(Apply(f, actions[0]), actions[1..])
  }

  /** The gates do not block the intended path: with a time selected,
      opening the dialog and confirming makes that time the confirmed one,
      and typing an address the form accepts and pressing Add lists it. */
  lemma {:induction false} ConfirmReachable(f: Form)
    requires f.time.Some? && !f.dialogVisible
    ensures Run(f, [OpenDialog, Confirm]).confirmedTime == f.time
    ensures !Run(f, [OpenDialog, Confirm]).dialogVisible
  {
    var g := Apply(f, OpenDialog);
    assert g.dialogVisible && g.time == f.time;
    assert [OpenDialog, Confirm][1..] == [Confirm];
    assert Run(f, [OpenDialog, Confirm]) == Run(g, [Confirm]);
    assert Run(g, [Confirm]) == Run(Apply(g, Confirm), []);
  }

  lemma {:induction false} AddReachable(f: Form, s: string)
    requires !AllSpace(s) && MatchesFormPattern(s)
    ensures Run(f, [TypeInput(s), Add]).participants == f.participants + [Trim(s)]
    ensures Run(f, [TypeInput(s), Add]).input == ""
  {
    var g := Apply(f, TypeInput(s));
    assert g.input == s;
    assert [TypeInput(s), Add][1..] == [Add];
    assert Run(f, [TypeInput(s), Add]) == Run(g, [Add]);
    assert Run(g, [Add]) == Run(Apply(g, Add), []);
  }

  /** Only the dialog's Confirm button changes the confirmed time, and only
      while the dialog is shown. */
  lemma ConfirmationGate(f: Form, a: Action)
    ensures Apply(f, a).confirmedTime != f.confirmedTime ==> a == Confirm && f.dialogVisible
  {
  }

  /** The dialog appears only through the time input's Confirm button, and
      only when a time is selected. */
  lemma DialogOpensOnlyWithTime(f: Form, a: Action)
    ensures !f.dialogVisible && Apply(f, a).dialogVisible ==> a == OpenDialog && f.time.Some?
  {
  }

  /** Over any run of actions, a changed confirmed time was set by pressing
      the dialog's Confirm button at some step where the dialog was shown. */
  lemma {:induction false} ConfirmedTimeNeedsDialog(f: Form, actions: seq<Action>)
    ensures Run(f, actions).confirmedTime != f.confirmedTime ==>
      exists k :: 0 <= k < |actions| && actions[k] == Confirm && Run(f, actions[..k]).dialogVisible
    decreases |actions|
  {
    if actions != [] && Run(f, actions).confirmedTime != f.confirmedTime {
      var g := Apply(f, actions[0]);
      assert Run(f, actions) == Run(g, actions[1..]);
      ConfirmationGate(f, actions[0]);
      if g.confirmedTime != f.confirmedTime {
        assert actions[..0] == [];
        assert Run(f, actions[..0]).dialogVisible;
      } else {
        ConfirmedTimeNeedsDialog(g, actions[1..]);
        var j :| 0 <= j < |actions[1..]| && actions[1..][j] == Confirm && Run(g, actions[1..][..j]).dialogVisible;
        var pre := actions[..j + 1];
        assert pre[0] == actions[0] && pre[1..] == actions[1..][..j];
        assert Run(f, pre) == Run(g, actions[1..][..j]);
        assert actions[j + 1] == Confirm;
      }
    }
  }

  /** Every action keeps every listed participant accepted. */
  lemma ApplyKeepsInvariant(f: Form, a: Action)
    requires Invariant(f)
    ensures Invariant(Apply(f, a))
  {
    if a.Add? {
      AddParticipantKeepsInvariant(f);
    }
  }

  /** From the opening state, whatever the user does, every listed
      participant is a trimmed, non-empty string the form's pattern
      accepts, and so is every participant of a submitted payload. */
  lemma {:induction false} RunKeepsInvariant(f: Form, actions: seq<Action>)
    requires Invariant(f)
    ensures Invariant(Run(f, actions))
    decreases |actions|
  {
    if actions != [] {
      ApplyKeepsInvariant(f, actions[0]);
      RunKeepsInvariant(Apply(f, actions[0]), actions[1..]);
    }
  }

  /** Every payload submitted after any actions from the opening state
      lists only accepted addresses. */
  lemma SubmittedParticipantsAreAccepted(actions: seq<Action>, outcome: Reply<()>)
    ensures var sent := Submit(Run(Initial(), actions), outcome).sent;
      sent.Some? ==> forall k :: 0 <= k < |sent.value.participants| ==> Accepted(sent.value.participants[k])
  {
    RunKeepsInvariant(Initial(), actions);
  }
}
