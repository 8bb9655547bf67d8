/** The `MeetingCard` component: a view/edit state machine over one
    meeting, with a draft copy, an inline error and the participant list
    derived from the record's comma-joined field. */
module MeetingCard {
  import opened Outcomes
  import opened Text
  import opened Lists
  import opened Meetings

  datatype Mode = Viewing | Editing

  /** The card's state: the record it was handed (`meeting`), whether it is
      editing, the draft being edited, the error shown, and the address list. */
  datatype CardState = CardState(
    meeting: Meeting,
    mode: Mode,
    draft: Meeting,
    error: string,
    emails: seq<string>)

  const SaveFailed := "Error saving meeting"

  /** One edit through the form inputs (`handleInputChange`). */
  datatype DraftEdit =
    | EditTitle(title: string)
    | EditDate(date: Option<int>)
    | EditTime(time: Option<int>)
    | EditDuration(duration: int)

  /** The address list is the one parsed from the committed record. */
  predicate EmailsFromCommitted(c: CardState) {
    c.emails == ParseParticipants(c.meeting.participants)
  }

  /** The draft's participants field is the joined address list. */
  predicate DraftShowsEmails(c: CardState) {
    c.draft.participants == Join(c.emails, ',')
  }

  /** The state right after the card is first rendered with `m`. */
  function Mount(m: Meeting): (c: CardState)
    ensures c.meeting == m && c.draft == m
    ensures c.mode == Viewing && c.error == ""
    ensures EmailsFromCommitted(c)
  {
    CardState(m, Viewing, m, "", ParseParticipants(m.participants))
  }

  /** The effect on a new `meeting` prop: draft and address list are
      replaced by the new record whatever the mode, so an edit in progress
      is discarded. */
  function PropChange(c: CardState, m: Meeting): (r: CardState)
    ensures r.meeting == m && r.draft == m && EmailsFromCommitted(r)
    ensures r.mode == c.mode && r.error == c.error
  {
    c.(meeting := m, draft := m, emails := ParseParticipants(m.participants))
  }

  /** `handleEditClick`: blocked for a past meeting; otherwise enters
      editing with the committed record as draft and no error. The address
      list is left as it is. */
  function EditClick(c: CardState, now: Clock): (r: CardState)
    ensures IsPast(c.meeting, now) ==> r == c
    ensures !IsPast(c.meeting, now) ==>
      r.mode == Editing && r.draft == c.meeting && r.error == ""
      && r.meeting == c.meeting && r.emails == c.emails
  {
    if IsPast(c.meeting, now) then c
    else c.(mode := Editing, draft := c.meeting, error := "")
  }

  /** The draft after one input reports its value: that field alone changes. */
  function ApplyEdit(m: Meeting, e: DraftEdit): (r: Meeting)
    ensures e.EditTitle? ==> r == m.(title := e.title)
    ensures e.EditDate? ==> r == m.(date := e.date)
    ensures e.EditTime? ==> r == m.(time := e.time)
    ensures e.EditDuration? ==> r == m.(duration := e.duration)
    ensures r.id == m.id && r.participants == m.participants
  {
    match e
    case EditTitle(t) => m.(title := t)
    case EditDate(d) => m.(date := d)
    case EditTime(t) => m.(time := t)
    case EditDuration(d) => m.(duration := d)
  }

  /** `handleInputChange`: one draft field changes and the error is cleared. */
  function InputChange(c: CardState, e: DraftEdit): (r: CardState)
    ensures r == c.(draft := ApplyEdit(c.draft, e), error := "")
    ensures r.draft.id == c.draft.id && r.error == ""
  {
    c.(draft := ApplyEdit(c.draft, e), error := "")
  }

  /** `handleTimeSelect`: a preset time; the error is kept. */
  function SelectTime(c: CardState, t: int): (r: CardState)
    ensures r.draft == c.draft.(time := Some(t)) && r.error == c.error
    ensures r.meeting == c.meeting && r.mode == c.mode && r.emails == c.emails
  {
    c.(draft := c.draft.(time := Some(t)))
  }

  /** `handleDurationSelect`: a preset duration; the error is kept. */
  function SelectDuration(c: CardState, d: int): (r: CardState)
    ensures r.draft == c.draft.(duration := d) && r.error == c.error
    ensures r.meeting == c.meeting && r.mode == c.mode && r.emails == c.emails
  {
    c.(draft := c.draft.(duration := d))
  }

  /** `handleEmailAdd`: an empty address at the end. The draft's
      participants field is not rewritten. */
  function AddEmail(c: CardState): (r: CardState)
    ensures |r.emails| == |c.emails| + 1 && r.emails[|c.emails|] == ""
    ensures r.emails[..|c.emails|] == c.emails
    ensures r.draft == c.draft
    ensures r.meeting == c.meeting && r.mode == c.mode && r.error == c.error
  {
    c.(emails := c.emails + [""])
  }

  /** `handleEmailRemove`: drops the entry at `i` and writes the joined
      list into the draft. */
  function RemoveEmail(c: CardState, i: int): (r: CardState)
    ensures r.emails == RemoveAt(c.emails, i)
    ensures DraftShowsEmails(r)
    ensures r.draft == c.draft.(participants := Join(r.emails, ','))
    ensures r.meeting == c.meeting && r.mode == c.mode && r.error == c.error
  {
    var emails := RemoveAt(c.emails, i);
    c.(emails := emails, draft := c.draft.(participants := Join(emails, ',')))
  }

  /** `handleEmailChange`: replaces the entry at `i` (the card only passes
      indices of rendered entries) and writes the joined list into the draft. */
  function ChangeEmail(c: CardState, i: int, v: string): (r: CardState)
    requires 0 <= i < |c.emails|
    ensures |r.emails| == |c.emails| && r.emails[i] == v
    ensures forall k :: 0 <= k < |c.emails| && k != i ==> r.emails[k] == c.emails[k]
    ensures DraftShowsEmails(r)
    ensures r.draft == c.draft.(participants := Join(r.emails, ','))
    ensures r.meeting == c.meeting && r.mode == c.mode && r.error == c.error
  {
    var emails := c.emails[i := v];
    c.(emails := emails, draft := c.draft.(participants := Join(emails, ',')))
  }

  /** The outcome of `handleSave`: the new state and the record handed to
      `onUpdate`, if the handler got that far. */
  datatype SaveStep = SaveStep(card: CardState, sent: Option<Meeting>)

  /** `handleSave`. `reply` is what `onUpdate` settles to; it is consulted
      only when the draft passes validation. */
  function Save(c: CardState, now: Clock, reply: Reply<Meeting>): (s: SaveStep)
    ensures s.sent.Some? <==> MeetingIsValid(c.draft, c.emails, now.day)
    ensures ValidateMeeting(c.draft, c.emails, now.day) != "" ==>
      s.sent == None && s.card.mode == c.mode && s.card.draft == c.draft
      && s.card.emails == c.emails
      && s.card.error == ValidateMeeting(c.draft, c.emails, now.day)
    ensures s.sent.Some? ==>
      && MeetingIsValid(c.draft, c.emails, now.day)
      && s.sent.value.id == c.draft.id
      && s.sent.value.participants == Join(c.emails, ',')
      && s.sent.value.(participants := c.draft.participants) == c.draft
    ensures s.card.mode == Viewing <==> (s.sent.Some? && reply.Ok?) || c.mode == Viewing
    ensures s.sent.Some? && reply.Ok? ==>
      s.card.draft == reply.value && s.card.error == "" && s.card.emails == c.emails
    ensures s.sent.Some? && reply.Err? ==>
      && s.card.draft == c.draft && s.card.emails == c.emails && s.card.error != ""
      && s.card.error == (if reply.message == "" then SaveFailed else reply.message)
    ensures s.card.meeting == c.meeting
  {
    var msg := ValidateMeeting(c.draft, c.emails, now.day);
    if msg != "" then
      SaveStep(c.(error := msg), None)
    else
      var payload := c.draft.(participants := Join(c.emails, ','));
      match reply
      case Ok(updated) =>
        SaveStep(c.(draft := updated, mode := Viewing, error := ""), Some(payload))
      case Err(message) =>
        SaveStep(c.(error := if message == "" then SaveFailed else message), Some(payload))
  }

  /** `handleCancel`: back to viewing with the committed record and the
      list parsed from it, and no error. */
  function Cancel(c: CardState): (r: CardState)
    ensures r.mode == Viewing && r.error == "" && r.draft == c.meeting
    ensures EmailsFromCommitted(r) && r.meeting == c.meeting
  {
    c.(mode := Viewing, draft := c.meeting, emails := ParseParticipants(c.meeting.participants), error := "")
  }

  /** The delete button: rendered only while viewing and disabled for a
      past meeting; otherwise it asks for the committed record's id (not the
      draft's) to be deleted. */
  function DeleteClick(c: CardState, now: Clock): (r: Option<string>)
    ensures r.Some? <==> c.mode == Viewing && !IsPast(c.meeting, now)
    ensures r.Some? ==> r.value == c.meeting.id
  {
    if c.mode == Viewing && !IsPast(c.meeting, now) then Some(c.meeting.id) else None
  }

  /** Edit followed by cancel leaves a freshly synced viewing card as it was. */
  lemma EditThenCancelRestores(c: CardState, now: Clock)
    requires c.mode == Viewing && c.error == "" && c.draft == c.meeting
    requires EmailsFromCommitted(c)
    ensures Cancel(EditClick(c, now)) == c
  {
  }

  /** Appending an address and removing it again restores the list, and the
      draft then shows the original list joined. */
  lemma AddThenRemoveRestores(c: CardState)
    ensures RemoveEmail(AddEmail(c), |c.emails|).emails == c.emails
    ensures RemoveEmail(AddEmail(c), |c.emails|).draft.participants == Join(c.emails, ',')
  {
    RemoveAppended(c.emails, "");
  }

  /** Appending breaks the link between list and draft field that remove
      and change keep: the joined list gains a trailing comma the draft
      does not show. Saving still sends the joined list. */
  lemma AddLeavesDraftBehind(c: CardState)
    requires DraftShowsEmails(c) && |c.emails| >= 1
    ensures !DraftShowsEmails(AddEmail(c))
  {
    JoinAppend(c.emails, "", ',');
    assert |Join(c.emails + [""], ',')| == |Join(c.emails, ',')| + 1;
  }

  /** A prop change while editing replaces the draft with the incoming
      record: an edit in progress is lost, and the card stays in editing. */
  lemma PropChangeOverwritesEdits(c: CardState, m: Meeting)
    requires c.mode == Editing && c.draft != m
    ensures PropChange(c, m).mode == Editing
    ensures PropChange(c, m).draft == m && PropChange(c, m).draft != c.draft
  {
  }

  /** A save that the backend rejects keeps draft and list, so saving again
      sends exactly the same record. */
  lemma RetryResendsSameRecord(c: CardState, now: Clock, message: string, reply: Reply<Meeting>)
    requires Save(c, now, Err(message)).sent.Some?
    ensures Save(Save(c, now, Err(message)).card, now, reply).sent == Save(c, now, Err(message)).sent
  {
    var c1 := Save(c, now, Err(message)).card;
    assert c1.draft == c.draft && c1.emails == c.emails;
  }

  /** A past meeting cannot enter editing; and from a viewing card, a save
      that reaches the backend after entering editing means the committed
      record was valid for today together with the card's address list. */
  lemma EditThenSaveNeedsFutureAndValid(c: CardState, now: Clock, reply: Reply<Meeting>)
    requires c.mode == Viewing
    ensures IsPast(c.meeting, now) ==> EditClick(c, now).mode == Viewing
    ensures EditClick(c, now).mode == Editing && Save(EditClick(c, now), now, reply).sent.Some?
      ==> !IsPast(c.meeting, now) && MeetingIsValid(c.meeting, c.emails, now.day)
  {
  }
}
