/** The components wired together as `Dashboard` wires them: the form's
    `onSchedule`, and each card's `onUpdate`, `onDelete` and `meeting`
    prop. */
module Flows {
  import opened Outcomes
  import opened Text
  import opened Meetings
  import opened MeetingCard
  import opened ScheduleMeeting
  import opened Dashboard

  /** A form submission inside the dashboard's modal: `reply` is what the
      backend answers to the create or update call. */
  datatype Both = Both(form: Form, board: Board)

  /** The Schedule button pressed: nothing happens while it is disabled;
      otherwise `handleSubmit` runs and, if its guard passes, calls the
      dashboard's `onSchedule`. */
  function SubmitToBoard(f: Form, d: Board, reply: Reply<Meeting>): Both {
    if !SubmitEnabled(f) then Both(f, d)
    else if !SubmitAccepted(f) then Both(Submit(f, Ok(())).form, d)
    else
      var x := OnSchedule(d, PayloadOf(f), reply);
      Both(Submit(f, x.outcome).form, x.board)
  }

  /** Because `onSchedule` swallows the failure, the form never shows its
      own failure message; a backend failure shows up in the dashboard's
      banner instead, with the list unchanged and the modal still open. */
  lemma FailureShowsOnBoardNotForm(f: Form, d: Board, message: string)
    requires SubmitAccepted(f) && d.editing.None? && d.modalOpen
    ensures SubmitToBoard(f, d, Err(message)).form.error == ""
    ensures SubmitToBoard(f, d, Err(message)).board.error == CreateFailed
    ensures SubmitToBoard(f, d, Err(message)).board.meetings == d.meetings
    ensures SubmitToBoard(f, d, Err(message)).board.modalOpen
  {
  }

  /** A creation the backend accepts appends the record it returns and
      closes the modal. */
  lemma CreateAppendsAndCloses(f: Form, d: Board, m: Meeting)
    requires SubmitAccepted(f) && d.editing.None?
    ensures SubmitToBoard(f, d, Ok(m)).board.meetings == d.meetings + [m]
    ensures !SubmitToBoard(f, d, Ok(m)).board.modalOpen
    ensures SubmitToBoard(f, d, Ok(m)).form.error == ""
  {
  }

  /** An incomplete form reaches neither the backend nor the list: with
      the button disabled nothing changes at all, and a form the button
      lets through but the handler's guard refuses shows the guard's
      message. */
  lemma IncompleteFormChangesNoList(f: Form, d: Board, reply: Reply<Meeting>)
    requires !SubmitAccepted(f)
    ensures SubmitToBoard(f, d, reply).board == d
    ensures !SubmitEnabled(f) ==> SubmitToBoard(f, d, reply).form == f
    ensures SubmitEnabled(f) ==> SubmitToBoard(f, d, reply).form == f.(error := Incomplete)
  {
  }

  /** A card's save routed through `handleUpdate`, followed by the new
      `meeting` prop the dashboard renders for it on success. */
  function SaveToBoard(c: CardState, now: Clock, d: Board, reply: Reply<Meeting>): (CardState, Board) {
    var s := Save(c, now, reply);
    if s.sent.None? then (s.card, d)
    else
      var u := Update(d, s.sent.value.id, reply);
      if reply.Ok? then (PropChange(s.card, reply.value), u.board) else (s.card, u.board)
  }

  /** A valid save the backend accepts leaves the card viewing the returned
      record, with the address list parsed from it, and puts that record
      in place of every entry carrying the draft's id. */
  lemma SavedRecordReachesCardAndList(c: CardState, now: Clock, d: Board, m: Meeting)
    requires MeetingIsValid(c.draft, c.emails, now.day)
    ensures SaveToBoard(c, now, d, Ok(m)).0.mode == Viewing
    ensures SaveToBoard(c, now, d, Ok(m)).0.meeting == m
    ensures SaveToBoard(c, now, d, Ok(m)).0.draft == m
    ensures SaveToBoard(c, now, d, Ok(m)).0.emails == ParseParticipants(m.participants)
    ensures forall k :: 0 <= k < |d.meetings| && d.meetings[k].id == c.draft.id ==>
      SaveToBoard(c, now, d, Ok(m)).1.meetings[k] == m
  {
  }

  /** Changing a valid meeting's duration and saving, with a backend that
      stores what it is sent, commits the new duration in the card and in
      the list. */
  lemma DurationEditIsCommitted(c: CardState, now: Clock, d: Board, minutes: int)
    requires c.mode == Editing
    requires MeetingIsValid(c.draft.(duration := minutes), c.emails, now.day)
    ensures
      var c1 := InputChange(c, EditDuration(minutes));
      var stored := c1.draft.(participants := Join(c1.emails, ','));
      && SaveToBoard(c1, now, d, Ok(stored)).0.meeting.duration == minutes
      && (forall k :: 0 <= k < |d.meetings| && d.meetings[k].id == c.draft.id ==>
            SaveToBoard(c1, now, d, Ok(stored)).1.meetings[k].duration == minutes)
  {
  }

  /** A save the backend refuses shows an error on the card and the
      update banner on the dashboard, keeps the card editing with its
      draft, and keeps the list. */
  lemma RefusedSaveShowsBothErrors(c: CardState, now: Clock, d: Board, message: string)
    requires c.mode == Editing && MeetingIsValid(c.draft, c.emails, now.day)
    ensures SaveToBoard(c, now, d, Err(message)).0.mode == Editing
    ensures SaveToBoard(c, now, d, Err(message)).0.draft == c.draft
    ensures SaveToBoard(c, now, d, Err(message)).0.error != ""
    ensures SaveToBoard(c, now, d, Err(message)).1.meetings == d.meetings
    ensures SaveToBoard(c, now, d, Err(message)).1.error == UpdateFailed
  {
  }

  /** A card's delete button removes its record from the list only from a
      viewing card whose meeting has not started; an editing card or a past
      meeting asks for nothing. */
  lemma DeleteFromCard(c: CardState, now: Clock, d: Board, ok: Reply<()>)
    requires ok.Ok?
    ensures c.mode == Editing || IsPast(c.meeting, now) ==> DeleteClick(c, now) == None
    ensures c.mode == Viewing && !IsPast(c.meeting, now) ==>
      && DeleteClick(c, now) == Some(c.meeting.id)
      && c.meeting !in Delete(d, DeleteClick(c, now).value, ok).meetings
  {
  }
}
