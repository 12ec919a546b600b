/**
 * The contact list screen: the four state fields, the snapshots pushed over the socket,
 * and the delete-confirmation modal.  `Step` is the reference transition function; the
 * class `ContactListView` holds the fields and its handlers are proved to follow `Step`.
 */
module ContactList {

  import opened Wrappers
  import opened ContactSchema
  import opened ApiClient

  /** One contact of a snapshot, as the table renders it. */
  datatype Row = Row(id: int, fields: ContactFields)

  datatype ListState = ListState(
    contacts: seq<Row>,
    loading: bool,
    deleteModalOpen: bool,
    contactToDelete: Option<Row>)

  datatype DeleteOutcome = Deleted | DeleteFailed(failure: RequestFailure)

  /** What can happen to the screen: a parsed socket message, a click, or a delete request settling. */
  datatype Event =
    | Message(payload: seq<Row>)
    | DeleteClick(contact: Row)
    | ConfirmDelete
    | CancelDelete
    | DeleteSettled(outcome: DeleteOutcome)

  /** What a transition asks of the outside world. */
  datatype Effect = NoEffect | SendDelete(id: int) | SuccessToast(text: string) | ErrorToast(text: string)

  /** The modal is open exactly when a contact is selected for deletion. */
  predicate ModalConsistent(s: ListState) {
    s.deleteModalOpen <==> s.contactToDelete.Some?
  }

  /** The "No contacts yet" block. */
  predicate EmptyStateShown(s: ListState) {
    |s.contacts| == 0 && !s.loading
  }

  /** The table header and the top "Add New Contact" button. */
  predicate TableHeaderShown(s: ListState) {
    |s.contacts| > 0
  }

  /** The state before any event: no contacts, spinner on, no modal. */
  function Initial(): (s: ListState)
    ensures s.contacts == [] && s.loading
    ensures !s.deleteModalOpen && s.contactToDelete.None?
    ensures ModalConsistent(s) && !EmptyStateShown(s) && !TableHeaderShown(s)
  {
    ListState([], true, false, None)
  }

  /** The toast text of a failed delete. */
  function DeleteFailureText(f: RequestFailure): (text: string)
    ensures "Error deleting contact: " <= text
    ensures ServerMessage(f).Some? && ServerMessage(f).value != "" ==>
              text == "Error deleting contact: " + ServerMessage(f).value
    ensures ServerMessage(f).None? || ServerMessage(f).value == "" ==>
              text == "Error deleting contact: Unknown"
  {
    "Error deleting contact: " + MessageOr(f, "Unknown")
  }

  /** The next state and the effect of one event. */
  function Step(s: ListState, e: Event): (ListState, Effect) {
    match e
    case Message(rows) => (s.(contacts := rows, loading := false), NoEffect)
    case DeleteClick(c) => (s.(contactToDelete := Some(c), deleteModalOpen := true), NoEffect)
    case ConfirmDelete =>
      if s.contactToDelete.Some? then
        (s.(loading := true, deleteModalOpen := false, contactToDelete := None),
         SendDelete(s.contactToDelete.value.id))
      else
        (s, NoEffect)
    case CancelDelete => (s.(deleteModalOpen := false, contactToDelete := None), NoEffect)
    case DeleteSettled(outcome) =>
      (s.(loading := false),
       match outcome
       case Deleted => SuccessToast("Contact deleted successfully")
       case DeleteFailed(f) => ErrorToast(DeleteFailureText(f)))
  }

  /** The state after a sequence of events, the last event applied last. */
  function Run(s: ListState, events: seq<Event>): ListState
    decreases |events|
  {
    if events == [] then s else Step(Run(s, events[..|events| - 1]), events[|events| - 1]).0
  }

  /** The payload of the last socket message among `events`, if any. */
  function LastPayload(events: seq<Event>): Option<seq<Row>>
    decreases |events|
  {
    if events == [] then None
    else if events[|events| - 1].Message? then Some(events[|events| - 1].payload)
    else LastPayload(events[..|events| - 1])
  }

  // ---------------------------------------------------------------------------
  // Properties of single transitions
  // ---------------------------------------------------------------------------

  /** A message replaces the list wholesale and ends loading; the modal is untouched. */
  lemma MessageReplacesContacts(s: ListState, rows: seq<Row>)
    ensures Step(s, Message(rows)).0.contacts == rows
    ensures !Step(s, Message(rows)).0.loading
    ensures Step(s, Message(rows)).0.deleteModalOpen == s.deleteModalOpen
    ensures Step(s, Message(rows)).0.contactToDelete == s.contactToDelete
    ensures EmptyStateShown(Step(s, Message(rows)).0) <==> rows == []
  {
  }

  /** Clicking Delete on a row selects that row and opens the modal. */
  lemma DeleteClickSelects(s: ListState, c: Row)
    ensures Step(s, DeleteClick(c)).0.contactToDelete == Some(c)
    ensures Step(s, DeleteClick(c)).0.deleteModalOpen
    ensures Step(s, DeleteClick(c)).0.contacts == s.contacts
    ensures Step(s, DeleteClick(c)).1 == NoEffect
  {
  }

  /** Confirming with a selection deletes exactly the selected id, then closes and clears the modal. */
  lemma ConfirmDeletesSelected(s: ListState)
    requires s.contactToDelete.Some?
    ensures Step(s, ConfirmDelete).1 == SendDelete(s.contactToDelete.value.id)
    ensures !Step(s, ConfirmDelete).0.deleteModalOpen
    ensures Step(s, ConfirmDelete).0.contactToDelete.None?
    ensures Step(s, ConfirmDelete).0.loading
    ensures Step(s, ConfirmDelete).0.contacts == s.contacts
  {
  }

  /** Confirming without a selection does nothing at all. */
  lemma ConfirmWithoutSelectionIsNoOp(s: ListState)
    requires s.contactToDelete.None?
    ensures Step(s, ConfirmDelete) == (s, NoEffect)
  {
  }

  /** Cancelling closes and clears the modal and never deletes. */
  lemma CancelNeverDeletes(s: ListState)
    ensures Step(s, CancelDelete).1 == NoEffect
    ensures !Step(s, CancelDelete).0.deleteModalOpen
    ensures Step(s, CancelDelete).0.contactToDelete.None?
    ensures Step(s, CancelDelete).0.contacts == s.contacts
    ensures Step(s, CancelDelete).0.loading == s.loading
  {
  }

  /** Only a confirmation with a selected contact issues a delete, and it names that contact. */
  lemma OnlyConfirmDeletes(s: ListState, e: Event)
    ensures Step(s, e).1.SendDelete? <==> e == ConfirmDelete && s.contactToDelete.Some?
    ensures Step(s, e).1.SendDelete? ==> Step(s, e).1.id == s.contactToDelete.value.id
  {
  }

  /**
   * A delete, from confirmation to its settling, leaves the list as it was and ends with the
   * spinner off whatever the outcome; the toast depends only on the outcome.
   */
  lemma DeleteNeverTouchesContacts(s: ListState, outcome: DeleteOutcome)
    requires s.contactToDelete.Some?
    ensures var s1 := Step(s, ConfirmDelete).0;
            var (s2, toast) := Step(s1, DeleteSettled(outcome));
            s1.loading && !s2.loading && s2.contacts == s.contacts
            && (outcome.Deleted? ==> toast == SuccessToast("Contact deleted successfully"))
            && (outcome.DeleteFailed? ==> toast == ErrorToast(DeleteFailureText(outcome.failure)))
  {
  }

  /** The empty-state block and the table header are never shown together. */
  lemma EmptyStateExcludesHeader(s: ListState)
    ensures EmptyStateShown(s) ==> !TableHeaderShown(s)
    ensures TableHeaderShown(s) ==> !EmptyStateShown(s)
  {
  }

  // ---------------------------------------------------------------------------
  // Properties of event sequences
  // ---------------------------------------------------------------------------

  lemma RunAppend(s: ListState, events: seq<Event>, e: Event)
    ensures Run(s, events + [e]) == Step(Run(s, events), e).0
  {
    assert (events + [e])[..|events + [e]| - 1] == events;
  }

  /** The list is the payload of the last message; without a message it is never changed. */
  lemma {:induction false} LastMessageWins(s: ListState, events: seq<Event>)
    ensures LastPayload(events).Some? ==> Run(s, events).contacts == LastPayload(events).value
    ensures LastPayload(events).None? ==> Run(s, events).contacts == s.contacts
    decreases |events|
  {
    if events != [] {
      LastMessageWins(s, events[..|events| - 1]);
    }
  }

  /** Every sequence of events keeps the modal open exactly while a contact is selected. */
  lemma {:induction false} RunKeepsModalConsistent(s: ListState, events: seq<Event>)
    requires ModalConsistent(s)
    ensures ModalConsistent(Run(s, events))
    decreases |events|
  {
    if events != [] {
      RunKeepsModalConsistent(s, events[..|events| - 1]);
    }
  }

  /** A selected contact is always one the user clicked. */
  lemma {:induction false} SelectionWasClicked(events: seq<Event>)
    ensures Run(Initial(), events).contactToDelete.Some? ==>
              exists j :: 0 <= j < |events| && events[j] == DeleteClick(Run(Initial(), events).contactToDelete.value)
    decreases |events|
  {
    if events != [] {
      var prefix := events[..|events| - 1];
      SelectionWasClicked(prefix);
      var before := Run(Initial(), prefix);
      var last := events[|events| - 1];
      if Run(Initial(), events).contactToDelete.Some? && !last.DeleteClick? {
        assert Run(Initial(), events).contactToDelete == before.contactToDelete;
        var j :| 0 <= j < |prefix| && prefix[j] == DeleteClick(before.contactToDelete.value);
        assert events[j] == prefix[j];
      }
    }
  }

  /** Every delete the screen sends targets the id of a row the user clicked Delete on before. */
  lemma DeletesTargetClickedRows(events: seq<Event>, e: Event)
    requires Step(Run(Initial(), events), e).1.SendDelete?
    ensures exists j :: 0 <= j < |events| && events[j].DeleteClick?
              && events[j].contact.id == Step(Run(Initial(), events), e).1.id
  {
    SelectionWasClicked(events);
    var c := Run(Initial(), events).contactToDelete.value;
    var j :| 0 <= j < |events| && events[j] == DeleteClick(c);
    assert events[j].contact.id == c.id;
  }

  // ---------------------------------------------------------------------------
  // The component
  // ---------------------------------------------------------------------------

  class ContactListView {
    var contacts: seq<Row>
    var loading: bool
    var deleteModalOpen: bool
    var contactToDelete: Option<Row>
    /** The events handled so far. */
    ghost var events: seq<Event>

    function State(): ListState
      reads this
    {
      ListState(contacts, loading, deleteModalOpen, contactToDelete)
    }

    /** The fields are what the events handled so far produce from the initial state. */
    ghost predicate Valid()
      reads this
    {
      State() == Run(Initial(), events)
    }

    constructor ()
      ensures State() == Initial() && events == [] && Valid()
      ensures ModalConsistent(State())
    {
      contacts := [];
      loading := true;
      deleteModalOpen := false;
      contactToDelete := None;
      events := [];
    }

    /** `onmessage`: the parsed payload replaces the list. */
    method OnMessage(rows: seq<Row>)
      requires Valid()
      modifies this
      ensures Valid() && events == old(events) + [Message(rows)]
      ensures ModalConsistent(State())
      ensures State() == Step(old(State()), Message(rows)).0
    {
      RunAppend(Initial(), events, Message(rows));
      contacts := rows;
      loading := false;
      events := events + [Message(rows)];
      RunKeepsModalConsistent(Initial(), events);
    }

    /** `handleDeleteClick`. */
    method HandleDeleteClick(c: Row)
      requires Valid()
      modifies this
      ensures Valid() && events == old(events) + [DeleteClick(c)]
      ensures ModalConsistent(State())
      ensures State() == Step(old(State()), DeleteClick(c)).0
    {
      RunAppend(Initial(), events, DeleteClick(c));
      contactToDelete := Some(c);
      deleteModalOpen := true;
      events := events + [DeleteClick(c)];
      RunKeepsModalConsistent(Initial(), events);
    }

    /** `confirmDelete`, including the synchronous start of `deleteContact`. */
    method ConfirmDelete() returns (effect: Effect)
      requires Valid()
      modifies this
      ensures Valid() && events == old(events) + [Event.ConfirmDelete]
      ensures ModalConsistent(State())
      ensures (State(), effect) == Step(old(State()), Event.ConfirmDelete)
    {
      RunAppend(Initial(), events, Event.ConfirmDelete);
      effect := NoEffect;
      if contactToDelete.Some? {
        effect := SendDelete(contactToDelete.value.id);
        loading := true;
        deleteModalOpen := false;
        contactToDelete := None;
      }
      events := events + [Event.ConfirmDelete];
      RunKeepsModalConsistent(Initial(), events);
    }

    /** `cancelDelete`. */
    method CancelDelete()
      requires Valid()
      modifies this
      ensures Valid() && events == old(events) + [Event.CancelDelete]
      ensures ModalConsistent(State())
      ensures State() == Step(old(State()), Event.CancelDelete).0
    {
      RunAppend(Initial(), events, Event.CancelDelete);
      deleteModalOpen := false;
      contactToDelete := None;
      events := events + [Event.CancelDelete];
      RunKeepsModalConsistent(Initial(), events);
    }

    /** The rest of `deleteContact`: the request settled, so toast and stop loading. */
    method FinishDelete(outcome: DeleteOutcome) returns (toast: Effect)
      requires Valid()
      modifies this
      ensures Valid() && events == old(events) + [DeleteSettled(outcome)]
      ensures ModalConsistent(State())
      ensures (State(), toast) == Step(old(State()), DeleteSettled(outcome))
    {
      RunAppend(Initial(), events, DeleteSettled(outcome));
      match outcome {
        case Deleted => toast := SuccessToast("Contact deleted successfully");
        case DeleteFailed(f) => toast := ErrorToast(DeleteFailureText(f));
      }
      loading := false;
      events := events + [DeleteSettled(outcome)];
      RunKeepsModalConsistent(Initial(), events);
    }
  }
}
