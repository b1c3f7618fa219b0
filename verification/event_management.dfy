/**
 * The admin events panel: the event list and how a create, an update or a
 * delete changes it, given what the backend call returned.
 */
module EventManagement {
  import opened Wrappers
  import opened ApiTypes
  import opened ListUpdates

  datatype Panel = Panel(
    events: seq<Event>,
    error: Option<string>,
    showForm: bool,
    editing: Option<Event>)

  const AddError := "Error adding event"
  const UpdateError := "Error updating event"
  const DeleteError := "Error deleting event"

  /** `addEvent`: on success the created event (as the backend returned it) goes at the end and the form closes. */
  function AddEvent(p: Panel, created: ApiResult<Event>): (q: Panel)
    ensures created.Success? ==> q.events == p.events + [created.value] && !q.showForm && q.editing.None? && q.error == p.error
    ensures created.Failure? ==> q == p.(error := Some(AddError))
  {
    match created
    case Success(e) => p.(events := p.events + [e], showForm := false, editing := None)
    case Failure => p.(error := Some(AddError))
  }

  /** `editEvent`: on success every event with the id is replaced by the backend's copy and the form closes. */
  function EditEvent(p: Panel, eventId: int, updated: ApiResult<Event>): (q: Panel)
    ensures updated.Success? ==> q.events == ReplaceWhere(p.events, (e: Event) => e.id == eventId, updated.value)
                                 && !q.showForm && q.editing.None? && q.error == p.error
    ensures updated.Failure? ==> q == p.(error := Some(UpdateError))
  {
    match updated
    case Success(u) => p.(events := ReplaceWhere(p.events, (e: Event) => e.id == eventId, u), showForm := false, editing := None)
    case Failure => p.(error := Some(UpdateError))
  }

  /** `handleDeleteEvent`: nothing without confirmation; on success the events with the id are dropped. */
  function DeleteEvent(p: Panel, eventId: int, confirmed: bool, deleted: ApiResult<()>): (q: Panel)
    ensures !confirmed ==> q == p
    ensures confirmed && deleted.Success? ==> q == p.(events := RemoveWhere(p.events, (e: Event) => e.id == eventId))
    ensures confirmed && deleted.Failure? ==> q == p.(error := Some(DeleteError))
  {
    if !confirmed then p
    else match deleted
      case Success(_) => p.(events := RemoveWhere(p.events, (e: Event) => e.id == eventId))
      case Failure => p.(error := Some(DeleteError))
  }

  /** An update keeps the length and order: events with other ids stay, events with the id become the returned event. */
  lemma EditReplacesInPlace(p: Panel, eventId: int, u: Event)
    ensures var q := EditEvent(p, eventId, Success(u));
      |q.events| == |p.events|
      && (forall i :: 0 <= i < |p.events| && p.events[i].id != eventId ==> q.events[i] == p.events[i])
      && (forall i :: 0 <= i < |p.events| && p.events[i].id == eventId ==> q.events[i] == u)
  {
  }

  /** A delete leaves exactly the events with other ids, in their order. */
  lemma DeleteRemovesExactly(p: Panel, eventId: int, front: seq<Event>, back: seq<Event>)
    requires p.events == front + back
    ensures var q := DeleteEvent(p, eventId, true, Success(()));
      (forall i :: 0 <= i < |q.events| ==> q.events[i].id != eventId && q.events[i] in p.events)
      && (forall i :: 0 <= i < |p.events| && p.events[i].id != eventId ==> p.events[i] in q.events)
      && q.events == RemoveWhere(front, (e: Event) => e.id == eventId) + RemoveWhere(back, (e: Event) => e.id == eventId)
  {
    RemoveWhereAppend(front, back, (e: Event) => e.id == eventId);
  }

  /** Creating an event with a new id and then deleting it gives back the list. */
  lemma DeleteUndoesAdd(p: Panel, e: Event)
    requires forall i :: 0 <= i < |p.events| ==> p.events[i].id != e.id
    ensures DeleteEvent(AddEvent(p, Success(e)), e.id, true, Success(())).events == p.events
  {
    var matches := (x: Event) => x.id == e.id;
    RemoveWhereAppend(p.events, [e], matches);
    RemoveWhereNoMatch(p.events, matches);
    assert RemoveWhere([e], matches) == [];
  }

  /** Deleting after an update that kept the id is the same as deleting straight away. */
  lemma DeleteAfterEdit(p: Panel, eventId: int, u: Event)
    requires u.id == eventId
    ensures DeleteEvent(EditEvent(p, eventId, Success(u)), eventId, true, Success(())).events
            == DeleteEvent(p, eventId, true, Success(())).events
  {
    RemoveAfterReplace(p.events, (e: Event) => e.id == eventId, u);
  }

  /** A failed call or a declined confirmation never changes the list. */
  lemma FailuresKeepList(p: Panel, eventId: int, confirmed: bool)
    ensures AddEvent(p, Failure).events == p.events
    ensures EditEvent(p, eventId, Failure).events == p.events
    ensures DeleteEvent(p, eventId, confirmed, Failure).events == p.events
    ensures DeleteEvent(p, eventId, false, Success(())) == p
  {
  }
}
