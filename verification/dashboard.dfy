/** The `Dashboard` component as a controller over the list of meetings:
    every mutation is applied only after the backend call succeeds. */
module Dashboard {
  import opened Outcomes
  import opened Meetings
  import ScheduleMeeting

  /** The dashboard's state. `notice` is the success notification shown
      (its three-second timer is not modelled); `editing` is the record the
      schedule modal was opened for, if any. */
  datatype Board = Board(
    meetings: seq<Meeting>,
    error: string,
    editing: Option<Meeting>,
    modalOpen: bool,
    notice: Option<string>,
    loading: bool)

  const FetchFailed := "Failed to fetch meetings. Please try again later."
  const CreateFailed := "Failed to schedule the meeting. Please try again."
  const DeleteFailed := "Failed to delete the meeting. Please try again later."
  const UpdateFailed := "Failed to update meeting. Please try again."
  const Scheduled := "Meeting successfully scheduled"
  const Deleted := "Meeting successfully deleted"
  const Updated := "Meeting successfully updated"

  /** The state before the first fetch settles. */
  function Initial(): (d: Board)
    ensures d.meetings == [] && d.loading && !d.modalOpen && d.editing == None
    ensures d.error == "" && d.notice == None
  {
    Board([], "", None, false, None, true)
  }

  /** `prevMeetings.filter(m => m.id !== id)`. */
  function RemoveById(ms: seq<Meeting>, id: string): (r: seq<Meeting>)
    ensures |r| <= |ms|
    ensures forall m :: m in r <==> m in ms && m.id != id
  {
    if ms == [] then []
    else if ms[0].id == id then RemoveById(ms[1..], id)
    else [ms[0]] + RemoveById(ms[1..], id)
  }

  /** `prevMeetings.map(m => m.id === id ? v : m)`. */
  function ReplaceById(ms: seq<Meeting>, id: string, v: Meeting): (r: seq<Meeting>)
    ensures |r| == |ms|
    ensures forall k :: 0 <= k < |ms| && ms[k].id == id ==> r[k] == v
    ensures forall k :: 0 <= k < |ms| && ms[k].id != id ==> r[k] == ms[k]
  {
    if ms == [] then []
    else [if ms[0].id == id then v else ms[0]] + ReplaceById(ms[1..], id, v)
  }

  /** How many records carry `id`. */
  function CountId(ms: seq<Meeting>, id: string): (n: nat)
    ensures n <= |ms|
  {
    if ms == [] then 0
    else (if ms[0].id == id then 1 else 0) + CountId(ms[1..], id)
  }

  /** Filtering distributes over concatenation: the survivors keep their
      relative order. */
  lemma {:induction false} RemoveByIdAppend(a: seq<Meeting>, b: seq<Meeting>, id: string)
    ensures RemoveById(a + b, id) == RemoveById(a, id) + RemoveById(b, id)
    decreases |a|
  {
    if a == [] {
      assert a + b == b;
    } else {
      var ab := a + b;
      assert ab[0] == a[0] && ab[1..] == a[1..] + b;
      RemoveByIdAppend(a[1..], b, id);
      if a[0].id == id {
        calc {
          RemoveById(ab, id);
          RemoveById(a[1..] + b, id);
          RemoveById(a[1..], id) + RemoveById(b, id);
        }
      } else {
        calc {
          RemoveById(ab, id);
          [a[0]] + RemoveById(a[1..] + b, id);
          [a[0]] + (RemoveById(a[1..], id) + RemoveById(b, id));
          ([a[0]] + RemoveById(a[1..], id)) + RemoveById(b, id);
        }
      }
    }
  }

  /** Exactly the records carrying `id` are dropped. */
  lemma {:induction false} RemoveByIdCount(ms: seq<Meeting>, id: string)
    ensures |RemoveById(ms, id)| == |ms| - CountId(ms, id)
    decreases |ms|
  {
    if ms != [] {
      RemoveByIdCount(ms[1..], id);
    }
  }

  /** A list without the id is left as it is; filtering twice is filtering once. */
  lemma {:induction false} RemoveByIdAbsent(ms: seq<Meeting>, id: string)
    requires forall k :: 0 <= k < |ms| ==> ms[k].id != id
    ensures RemoveById(ms, id) == ms
    decreases |ms|
  {
    if ms != [] {
      RemoveByIdAbsent(ms[1..], id);
    }
  }

  lemma RemoveByIdIdempotent(ms: seq<Meeting>, id: string)
    ensures RemoveById(RemoveById(ms, id), id) == RemoveById(ms, id)
  {
    var r := RemoveById(ms, id);
    forall k | 0 <= k < |r| ensures r[k].id != id {
      assert r[k] in r;
    }
    RemoveByIdAbsent(r, id);
  }

  /** Replacing with a record that carries the same id a second time
      changes nothing more. */
  lemma ReplaceByIdIdempotent(ms: seq<Meeting>, id: string, v: Meeting)
    requires v.id == id
    ensures ReplaceById(ReplaceById(ms, id, v), id, v) == ReplaceById(ms, id, v)
  {
  }

  /** `fetchMeetings`: the banner is cleared first; success replaces the
      whole list, failure keeps it and sets the banner. */
  function Fetch(d: Board, reply: Reply<seq<Meeting>>): (r: Board)
    ensures reply.Ok? ==> r.meetings == reply.value && r.error == ""
    ensures reply.Err? ==> r.meetings == d.meetings && r.error == FetchFailed
    ensures !r.loading && r.notice == d.notice && r.editing == d.editing
    ensures r.modalOpen == d.modalOpen
  {
    var d := d.(error := "");
    match reply
    case Ok(ms) => d.(meetings := ms, loading := false)
    case Err(_) => d.(error := FetchFailed, loading := false)
  }

  /** A failed fetch leaves nothing behind once a later fetch succeeds:
      the banner is cleared and the list is the one fetched. */
  lemma FetchRetryForgetsFailure(d: Board, first: Reply<seq<Meeting>>, ms: seq<Meeting>)
    ensures Fetch(Fetch(d, first), Ok(ms)) == Fetch(d, Ok(ms))
    ensures Fetch(d, Ok(ms)).meetings == ms && Fetch(d, Ok(ms)).error == ""
  {
  }

  /** The state after a call and how the returned promise settles. */
  datatype Settled = Settled(board: Board, result: Reply<Meeting>)

  /** `handleCreateMeeting`: success appends the created record at the end
      and shows the notice, without clearing the banner; failure sets the
      banner, keeps the list and rethrows. */
  function Create(d: Board, reply: Reply<Meeting>): (s: Settled)
    ensures reply.Ok? ==>
      && s.board.meetings == d.meetings + [reply.value]
      && s.board.notice == Some(Scheduled) && s.board.error == d.error
    ensures reply.Err? ==>
      && s.board.meetings == d.meetings && s.board.error == CreateFailed
      && s.board.notice == d.notice
    ensures s.result == reply && !s.board.loading
    ensures s.board.editing == d.editing && s.board.modalOpen == d.modalOpen
  {
    match reply
    case Ok(m) => Settled(d.(meetings := d.meetings + [m], notice := Some(Scheduled), loading := false), reply)
    case Err(_) => Settled(d.(error := CreateFailed, loading := false), reply)
  }

  /** `handleDelete`: success drops every record carrying `id` and shows
      the notice; failure keeps the list and sets the banner. Nothing is
      rethrown. */
  function Delete(d: Board, id: string, reply: Reply<()>): (r: Board)
    ensures reply.Ok? ==>
      && r.meetings == RemoveById(d.meetings, id)
      && (forall m :: m in r.meetings <==> m in d.meetings && m.id != id)
      && |r.meetings| == |d.meetings| - CountId(d.meetings, id)
      && r.notice == Some(Deleted) && r.error == d.error
    ensures reply.Err? ==>
      r.meetings == d.meetings && r.error == DeleteFailed && r.notice == d.notice
    ensures !r.loading && r.editing == d.editing && r.modalOpen == d.modalOpen
  {
    match reply
    case Ok(_) =>
      RemoveByIdCount(d.meetings, id);
      d.(meetings := RemoveById(d.meetings, id), notice := Some(Deleted), loading := false)
    case Err(_) => d.(error := DeleteFailed, loading := false)
  }

  /** `handleUpdate`: success puts the returned record in place of every
      record carrying `id`, keeping length and all other entries; failure
      keeps the list, sets the banner and rethrows. */
  function Update(d: Board, id: string, reply: Reply<Meeting>): (s: Settled)
    ensures reply.Ok? ==>
      && |s.board.meetings| == |d.meetings|
      && (forall k :: 0 <= k < |d.meetings| ==>
            s.board.meetings[k] == (if d.meetings[k].id == id then reply.value else d.meetings[k]))
      && s.board.notice == Some(Updated) && s.board.error == d.error
    ensures reply.Err? ==>
      && s.board.meetings == d.meetings && s.board.error == UpdateFailed
      && s.board.notice == d.notice
    ensures s.result == reply && !s.board.loading
    ensures s.board.editing == d.editing && s.board.modalOpen == d.modalOpen
  {
    match reply
    case Ok(m) =>
      Settled(d.(meetings := ReplaceById(d.meetings, id, m), notice := Some(Updated), loading := false), reply)
    case Err(_) => Settled(d.(error := UpdateFailed, loading := false), reply)
  }

  /** The "Schedule Meeting" button. */
  function OpenScheduler(d: Board): (r: Board)
    ensures r.modalOpen && r.editing == d.editing && r.meetings == d.meetings
    ensures r.error == d.error && r.notice == d.notice && r.loading == d.loading
  {
    d.(modalOpen := true)
  }

  /** `handleEdit`: open the modal for an existing record. */
  function OpenEditor(d: Board, m: Meeting): (r: Board)
    ensures r.modalOpen && r.editing == Some(m) && r.meetings == d.meetings
    ensures r.error == d.error && r.notice == d.notice && r.loading == d.loading
  {
    d.(editing := Some(m), modalOpen := true)
  }

  /** `handleModalClose`. */
  function CloseModal(d: Board): (r: Board)
    ensures !r.modalOpen && r.editing == None && r.meetings == d.meetings
    ensures r.error == d.error && r.notice == d.notice && r.loading == d.loading
  {
    d.(modalOpen := false, editing := None)
  }

  /** Opening the modal, for a new meeting or for an existing one, and
      closing it again gives back a board whose modal was closed. */
  lemma OpenThenCloseRestores(d: Board, m: Meeting)
    requires !d.modalOpen && d.editing == None
    ensures CloseModal(OpenScheduler(d)) == d
    ensures CloseModal(OpenEditor(d, m)) == d
  {
  }

  /** The backend call `onSchedule` makes. */
  datatype Request =
    | CreateRequest(payload: ScheduleMeeting.Payload)
    | UpdateRequest(id: string, payload: ScheduleMeeting.Payload)

  /** The state after `onSchedule`, the call it made, and how its promise
      settles for the form. */
  datatype Dispatch = Dispatch(board: Board, request: Request, outcome: Reply<()>)

  /** The `onSchedule` handler given to the form: update under the edited
      record's id when the modal was opened for one, create otherwise; the
      modal closes only when that call succeeded, and the failure is
      swallowed, so the form always sees success. */
  function OnSchedule(d: Board, payload: ScheduleMeeting.Payload, reply: Reply<Meeting>): (x: Dispatch)
    ensures d.editing.Some? ==> x.request == UpdateRequest(d.editing.value.id, payload)
    ensures d.editing.None? ==> x.request == CreateRequest(payload)
    ensures reply.Ok? ==> !x.board.modalOpen && x.board.editing == None
    ensures reply.Ok? && d.editing.Some? ==>
      x.board.meetings == ReplaceById(d.meetings, d.editing.value.id, reply.value)
      && x.board.notice == Some(Updated)
    ensures reply.Ok? && d.editing.None? ==>
      x.board.meetings == d.meetings + [reply.value] && x.board.notice == Some(Scheduled)
    ensures reply.Ok? ==> x.board.error == d.error
    ensures reply.Err? ==> x.board.modalOpen == d.modalOpen && x.board.editing == d.editing
    ensures reply.Err? ==> x.board.meetings == d.meetings && x.board.notice == d.notice
    ensures reply.Err? ==> x.board.error == (if d.editing.Some? then UpdateFailed else CreateFailed)
    ensures x.outcome.Ok? && !x.board.loading
  {
    var s := match d.editing
      case Some(e) => Update(d, e.id, reply)
      case None => Create(d, reply);
    var request := match d.editing
      case Some(e) => UpdateRequest(e.id, payload)
      case None => CreateRequest(payload);
    var board := if s.result.Ok? then CloseModal(s.board) else s.board;
    Dispatch(board, request, Ok(()))
  }

  /** Creating then deleting under a fresh id restores the list. */
  lemma CreateThenDeleteRestores(d: Board, m: Meeting, ok: Reply<()>)
    requires ok.Ok?
    requires forall k :: 0 <= k < |d.meetings| ==> d.meetings[k].id != m.id
    ensures Delete(Create(d, Ok(m)).board, m.id, ok).meetings == d.meetings
  {
    RemoveByIdAppend(d.meetings, [m], m.id);
    RemoveByIdAbsent(d.meetings, m.id);
  }

  /** Deleting an id that several records share drops all of them. */
  lemma DeleteDropsEveryDuplicate(d: Board, id: string, ok: Reply<()>)
    requires ok.Ok?
    ensures forall k :: 0 <= k < |Delete(d, id, ok).meetings| ==> Delete(d, id, ok).meetings[k].id != id
  {
    var r := Delete(d, id, ok).meetings;
    forall k | 0 <= k < |r| ensures r[k].id != id {
      assert r[k] in r;
    }
  }
}
