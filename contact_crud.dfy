/**
 * The contact store with its audit history, as an in-memory table: each operation is a
 * function from the old store to the new one plus what the caller receives, and the class
 * `ContactStore` performs the same steps in place.  The clock readings (`now` for a new
 * contact's row, `historyNow` for a history row) and whether writing the history row
 * succeeds are parameters.  `notifications` counts the change
 * messages published on the `contact_changes` channel.
 */
module ContactCrud {

  import opened Wrappers
  import opened Sequences
  import opened ContactSchema
  import opened ContactModel
  import opened HistoryModel
  import opened HistoryQuery

  /** Why an operation failed: a 404 for a missing id, or a constraint violation at commit. */
  datatype StoreError = NotFound | IntegrityViolation(constraintName: Option<string>)

  /** The name of the unique constraint on `email`. */
  const EmailConstraint: string := "contact_email_key"

  datatype Store = Store(
    contacts: map<int, ContactRow>,
    history: seq<HistoryRow>,
    nextId: int,
    nextHistoryId: int,
    notifications: nat)

  function HistoryId(h: HistoryRow): int {
    h.id
  }

  function RowCreatedAt(c: ContactRow): int {
    c.createdAt
  }

  /**
   * The table constraints: each row is stored under its own id, below the next id to hand
   * out; emails are unique; every history row refers to a stored contact and history ids
   * grow in insertion order.
   */
  ghost predicate Valid(s: Store) {
    && 0 < s.nextId && 0 < s.nextHistoryId
    && (forall id :: id in s.contacts ==> s.contacts[id].id == id && 0 < id < s.nextId)
    && (forall a, b :: a in s.contacts && b in s.contacts && a != b ==>
          s.contacts[a].fields.email != s.contacts[b].fields.email)
    && (forall k :: 0 <= k < |s.history| ==>
          s.history[k].contactId in s.contacts && 0 < s.history[k].id < s.nextHistoryId)
    && StrictlyIncreasing(s.history, HistoryId)
  }

  /** A fresh database. */
  function Empty(): (s: Store)
    ensures Valid(s) && s.contacts == map[] && s.history == [] && s.notifications == 0
  {
    Store(map[], [], 1, 1, 0)
  }

  /** Some stored contact other than `except` already uses `email`. */
  predicate EmailTaken(m: map<int, ContactRow>, email: string, except: Option<int>) {
    exists id :: id in m && Some(id) != except && m[id].fields.email == email
  }

  /** `save_history_snapshot`: one new history row holding the snapshot of `row`. */
  function RecordSnapshot(s: Store, row: ContactRow, now: int): (r: Store)
    ensures r.contacts == s.contacts && r.notifications == s.notifications
    ensures |r.history| == |s.history| + 1 && r.history[..|s.history|] == s.history
    ensures var h := r.history[|s.history|];
            h.id == s.nextHistoryId && h.contactId == row.id && h.createdAt == now
            && h.data == SnapshotData(row.fields)
  {
    var h := HistoryRow(s.nextHistoryId, row.id, now, SnapshotData(row.fields));
    assert (s.history + [h])[..|s.history|] == s.history;
    s.(history := s.history + [h], nextHistoryId := s.nextHistoryId + 1)
  }

  /**
   * `create_contact`.  The contact row and its first history row each read the clock when
   * they are inserted: `now` and `historyNow`.
   */
  function Create(s: Store, data: ContactFields, now: int, historyNow: int, historySaved: bool): (Store, Result<ContactRow, StoreError>) {
    if EmailTaken(s.contacts, data.email, None) then
      (s, Err(IntegrityViolation(Some(EmailConstraint))))
    else
      var row := ContactRow(s.nextId, data, now);
      var committed := s.(contacts := s.contacts[s.nextId := row], nextId := s.nextId + 1,
                          notifications := s.notifications + 1);
      (if historySaved then RecordSnapshot(committed, row, historyNow) else committed, Ok(row))
  }

  /** The stored rows with ids below `n`, in id order. */
  function RowsBelow(m: map<int, ContactRow>, n: int): (r: seq<ContactRow>)
    ensures forall k :: 0 <= k < |r| ==> r[k] in m.Values
    ensures forall id :: 0 <= id < n && id in m ==> m[id] in r
    decreases n
  {
    if n <= 0 then []
    else RowsBelow(m, n - 1) + (if n - 1 in m then [m[n - 1]] else [])
  }

  /** `get_contacts`: the stored contacts, newest first (ties in id order). */
  function Contacts(s: Store): (r: seq<ContactRow>)
    ensures SortedDesc(r, RowCreatedAt)
    ensures forall k :: 0 <= k < |r| ==> r[k] in s.contacts.Values
    ensures forall id :: 0 <= id < s.nextId && id in s.contacts ==> s.contacts[id] in r
  {
    var rows := RowsBelow(s.contacts, s.nextId);
    SortDescMembers(rows, RowCreatedAt);
    SortDesc(rows, RowCreatedAt)
  }

  /** `get_contact`: the row stored under `id`, or a 404. */
  function Lookup(s: Store, id: int): (r: Result<ContactRow, StoreError>)
    ensures r.Ok? <==> id in s.contacts
    ensures r.Ok? ==> r.value == s.contacts[id]
    ensures r.Err? ==> r.error == NotFound
  {
    if id in s.contacts then Ok(s.contacts[id]) else Err(NotFound)
  }

  /** `update_contact`: a full replace of the four fields; history only when something differed. */
  function Update(s: Store, id: int, data: ContactFields, now: int, historySaved: bool): (Store, Result<ContactRow, StoreError>) {
    if id !in s.contacts then (s, Err(NotFound))
    else if EmailTaken(s.contacts, data.email, Some(id)) then
      (s, Err(IntegrityViolation(Some(EmailConstraint))))
    else
      var row := s.contacts[id].(fields := data);
      var committed := s.(contacts := s.contacts[id := row], notifications := s.notifications + 1);
      (if s.contacts[id].fields != data && historySaved then RecordSnapshot(committed, row, now) else committed,
       Ok(row))
  }

  /** `delete_contact`: the row goes, and its history rows with it. */
  function Delete(s: Store, id: int): (Store, Option<StoreError>) {
    if id !in s.contacts then (s, Some(NotFound))
    else
      (s.(contacts := s.contacts - {id},
          history := Filter(s.history, h => !BelongsTo(h, id)),
          notifications := s.notifications + 1),
       None)
  }

  // ---------------------------------------------------------------------------
  // Queries
  // ---------------------------------------------------------------------------

  /** Every stored contact is listed, and only stored contacts are. */
  lemma ContactsListsStore(s: Store)
    requires Valid(s)
    ensures forall id :: id in s.contacts ==> s.contacts[id] in Contacts(s)
    ensures forall k :: 0 <= k < |Contacts(s)| ==>
              Contacts(s)[k].id in s.contacts && s.contacts[Contacts(s)[k].id] == Contacts(s)[k]
  {
    forall k | 0 <= k < |Contacts(s)|
      ensures Contacts(s)[k].id in s.contacts && s.contacts[Contacts(s)[k].id] == Contacts(s)[k]
    {
      var id :| id in s.contacts && s.contacts[id] == Contacts(s)[k];
    }
  }

  // ---------------------------------------------------------------------------
  // The constraints are kept
  // ---------------------------------------------------------------------------

  lemma RecordSnapshotValid(s: Store, row: ContactRow, now: int)
    requires Valid(s) && row.id in s.contacts
    ensures Valid(RecordSnapshot(s, row, now))
  {
    var r := RecordSnapshot(s, row, now);
    forall i, j | 0 <= i < j < |r.history| ensures HistoryId(r.history[i]) < HistoryId(r.history[j]) {
      if j < |s.history| {
        assert r.history[i] == s.history[i] && r.history[j] == s.history[j];
      } else {
        assert r.history[i] == s.history[i];
      }
    }
    forall k | 0 <= k < |r.history|
      ensures r.history[k].contactId in r.contacts && 0 < r.history[k].id < r.nextHistoryId
    {
      if k < |s.history| { assert r.history[k] == s.history[k]; }
    }
  }

  lemma CreateKeepsValid(s: Store, data: ContactFields, now: int, historyNow: int, historySaved: bool)
    requires Valid(s)
    ensures Valid(Create(s, data, now, historyNow, historySaved).0)
  {
    if !EmailTaken(s.contacts, data.email, None) {
      var row := ContactRow(s.nextId, data, now);
      var committed := s.(contacts := s.contacts[s.nextId := row], nextId := s.nextId + 1,
                          notifications := s.notifications + 1);
      assert Valid(committed);
      if historySaved {
        RecordSnapshotValid(committed, row, historyNow);
      }
    }
  }

  lemma UpdateKeepsValid(s: Store, id: int, data: ContactFields, now: int, historySaved: bool)
    requires Valid(s)
    ensures Valid(Update(s, id, data, now, historySaved).0)
  {
    if id in s.contacts && !EmailTaken(s.contacts, data.email, Some(id)) {
      var row := s.contacts[id].(fields := data);
      var committed := s.(contacts := s.contacts[id := row], notifications := s.notifications + 1);
      assert Valid(committed);
      if s.contacts[id].fields != data && historySaved {
        RecordSnapshotValid(committed, row, now);
      }
    }
  }

  lemma DeleteKeepsValid(s: Store, id: int)
    requires Valid(s)
    ensures Valid(Delete(s, id).0)
  {
    if id in s.contacts {
      var p := (h: HistoryRow) => !BelongsTo(h, id);
      FilterIncreasing(s.history, p, HistoryId);
      var r := Delete(s, id).0;
      forall k | 0 <= k < |r.history|
        ensures r.history[k].contactId in r.contacts && 0 < r.history[k].id < r.nextHistoryId
      {
        assert r.history[k] in s.history && p(r.history[k]);
      }
    }
  }

  // ---------------------------------------------------------------------------
  // What each operation does
  // ---------------------------------------------------------------------------

  /**
   * A create with an unused email stores exactly one new contact with the given fields under
   * a fresh id, publishes one change, and leaves that contact with exactly one history row
   * holding the same fields, or none when writing history failed.
   */
  lemma CreateStoresOne(s: Store, data: ContactFields, now: int, historyNow: int, historySaved: bool)
    requires Valid(s) && !EmailTaken(s.contacts, data.email, None)
    ensures var (s', r) := Create(s, data, now, historyNow, historySaved);
            && r.Ok? && r.value.fields == data && r.value.id !in s.contacts
            && r.value.createdAt == now
            && Lookup(s', r.value.id) == r
            && s'.contacts.Keys == s.contacts.Keys + {r.value.id}
            && (forall id :: id in s.contacts ==> Lookup(s', id) == Lookup(s, id))
            && s'.notifications == s.notifications + 1
            && ContactHistory(s'.history, r.value.id)
               == if historySaved then [HistoryRow(s.nextHistoryId, r.value.id, historyNow, SnapshotData(data))] else []
  {
    var row := ContactRow(s.nextId, data, now);
    assert s.nextId !in s.contacts;
    assert Create(s, data, now, historyNow, historySaved).1 == Ok(row);
    var s' := Create(s, data, now, historyNow, historySaved).0;
    assert s'.contacts == s.contacts[s.nextId := row];
    assert s'.contacts.Keys == s.contacts.Keys + {s.nextId};
    CreateHistory(s, data, now, historyNow, historySaved);
  }

  /** The history of a new contact is its one creation snapshot, if that was written. */
  lemma CreateHistory(s: Store, data: ContactFields, now: int, historyNow: int, historySaved: bool)
    requires Valid(s) && !EmailTaken(s.contacts, data.email, None)
    ensures ContactHistory(Create(s, data, now, historyNow, historySaved).0.history, s.nextId)
            == if historySaved then [HistoryRow(s.nextHistoryId, s.nextId, historyNow, SnapshotData(data))] else []
  {
    var s' := Create(s, data, now, historyNow, historySaved).0;
    var id := s.nextId;
    var p := (h: HistoryRow) => BelongsTo(h, id);
    assert forall k :: 0 <= k < |s.history| ==> !p(s.history[k]);
    if historySaved {
      var h := HistoryRow(s.nextHistoryId, id, historyNow, SnapshotData(data));
      assert s'.history == s.history + [h];
      FilterAppendFresh(s.history, h, p);
      assert Filter(s'.history, p) == [h];
      assert SortDesc([h], CreatedAt) == [h];
    } else {
      assert ContactHistory(s'.history, id) == [];
    }
  }

  /** A create whose email is already used changes nothing and reports the email constraint. */
  lemma CreateRejectsDuplicateEmail(s: Store, data: ContactFields, now: int, historyNow: int, historySaved: bool)
    requires EmailTaken(s.contacts, data.email, None)
    ensures Create(s, data, now, historyNow, historySaved) == (s, Err(IntegrityViolation(Some(EmailConstraint))))
  {
  }

  /** Updating or deleting a missing id is a 404 and changes nothing. */
  lemma MissingIdChangesNothing(s: Store, id: int, data: ContactFields, now: int, historySaved: bool)
    requires id !in s.contacts
    ensures Update(s, id, data, now, historySaved) == (s, Err(NotFound))
    ensures Delete(s, id) == (s, Some(NotFound))
    ensures Lookup(s, id) == Err(NotFound)
  {
  }

  /**
   * An update of a stored contact that keeps emails unique overwrites all four fields and
   * nothing else: the id and creation time stay, the other contacts stay, and one change is
   * published whether or not any value differed.
   */
  lemma UpdateReplacesFields(s: Store, id: int, data: ContactFields, now: int, historySaved: bool)
    requires id in s.contacts && !EmailTaken(s.contacts, data.email, Some(id))
    ensures var (s', r) := Update(s, id, data, now, historySaved);
            && r.Ok? && r.value.id == s.contacts[id].id && r.value.fields == data
            && r.value.createdAt == s.contacts[id].createdAt
            && Lookup(s', id) == r
            && s'.contacts.Keys == s.contacts.Keys
            && (forall other :: other in s.contacts && other != id ==> Lookup(s', other) == Lookup(s, other))
            && s'.notifications == s.notifications + 1
  {
  }

  /** An update whose email another contact uses changes nothing and reports the email constraint. */
  lemma UpdateRejectsDuplicateEmail(s: Store, id: int, data: ContactFields, now: int, historySaved: bool)
    requires id in s.contacts && EmailTaken(s.contacts, data.email, Some(id))
    ensures Update(s, id, data, now, historySaved) == (s, Err(IntegrityViolation(Some(EmailConstraint))))
  {
  }

  /** A successful update grows the history exactly when some field differed (and the write succeeded). */
  lemma UpdateHistoryIffChanged(s: Store, id: int, data: ContactFields, now: int, historySaved: bool)
    requires Valid(s) && id in s.contacts && !EmailTaken(s.contacts, data.email, Some(id))
    ensures var s' := Update(s, id, data, now, historySaved).0;
            (|s'.history| > |s.history| <==> s.contacts[id].fields != data && historySaved)
            && s'.history[..|s.history|] == s.history
            && (|s'.history| > |s.history| ==>
                  s'.history == s.history + [HistoryRow(s.nextHistoryId, id, now, SnapshotData(data))])
  {
    var s' := Update(s, id, data, now, historySaved).0;
    if !(s.contacts[id].fields != data && historySaved) {
      assert s'.history == s.history;
    }
  }

  /** Sending the same update twice records history at most once: the repeat only republishes. */
  lemma {:induction false} RepeatedUpdateAddsNoHistory(s: Store, id: int, data: ContactFields,
                                                       now: int, later: int, saved: bool, savedLater: bool)
    requires Valid(s) && id in s.contacts && !EmailTaken(s.contacts, data.email, Some(id))
    ensures var s1 := Update(s, id, data, now, saved).0;
            var (s2, r2) := Update(s1, id, data, later, savedLater);
            r2.Ok? && s2.contacts == s1.contacts && s2.history == s1.history
            && s2.notifications == s1.notifications + 1
  {
    var s1 := Update(s, id, data, now, saved).0;
    assert s1.contacts == s.contacts[id := s.contacts[id].(fields := data)];
    assert !EmailTaken(s1.contacts, data.email, Some(id)) by {
      forall other | other in s1.contacts && other != id ensures s1.contacts[other].fields.email != data.email {
        assert s1.contacts[other] == s.contacts[other];
      }
    }
    assert s1.contacts[id].fields == data;
    assert s1.contacts[id := s1.contacts[id].(fields := data)] == s1.contacts;
  }

  /**
   * A delete of a stored contact removes exactly that contact and all of its history, keeps
   * every other contact and every other contact's history rows, and publishes one change.
   */
  lemma DeleteRemovesExactly(s: Store, id: int)
    requires Valid(s) && id in s.contacts
    ensures var (s', err) := Delete(s, id);
            && err.None?
            && Lookup(s', id) == Err(NotFound)
            && s'.contacts.Keys == s.contacts.Keys - {id}
            && (forall other :: other in s.contacts && other != id ==> Lookup(s', other) == Lookup(s, other))
            && ContactHistory(s'.history, id) == []
            && (forall k :: 0 <= k < |s.history| && s.history[k].contactId != id ==> s.history[k] in s'.history)
            && s'.notifications == s.notifications + 1
  {
    var s' := Delete(s, id).0;
    var p := (h: HistoryRow) => !BelongsTo(h, id);
    assert forall k :: 0 <= k < |s'.history| ==> p(s'.history[k]);
    assert forall k :: 0 <= k < |s.history| && s.history[k].contactId != id ==> p(s.history[k]);
  }

  /**
   * The loop of `update_contact`: set each field in payload order to the supplied value,
   * noting whether it differed.  The result is a full replace, and the flag says whether
   * anything changed at all.
   */
  method OverwriteFields(stored: ContactFields, data: ContactFields) returns (fields: ContactFields, hasChanges: bool)
    ensures fields == data
    ensures hasChanges <==> stored != data
  {
    fields := stored;
    hasChanges := false;
    for k := 0 to |AllFields|
      invariant hasChanges <==> exists m :: 0 <= m < k && Get(stored, AllFields[m]) != Get(data, AllFields[m])
      invariant forall m :: 0 <= m < k ==> Get(fields, AllFields[m]) == Get(data, AllFields[m])
      invariant forall m :: k <= m < |AllFields| ==> Get(fields, AllFields[m]) == Get(stored, AllFields[m])
    {
      var f := AllFields[k];
      hasChanges := hasChanges || Get(fields, f) != Get(data, f);
      fields := With(fields, f, Get(data, f));
    }
    forall f ensures Get(fields, f) == Get(data, f) {
      AllFieldsListsEvery(f);
    }
    ExtensionalEquality(fields, data);
    forall f ensures hasChanges || Get(stored, f) == Get(data, f) {
      AllFieldsListsEvery(f);
    }
    ExtensionalEquality(stored, data);
  }

  // ---------------------------------------------------------------------------
  // The store, updated in place
  // ---------------------------------------------------------------------------

  class ContactStore {
    var contacts: map<int, ContactRow>
    var history: seq<HistoryRow>
    var nextId: int
    var nextHistoryId: int
    var notifications: nat

    function State(): Store
      reads this
    {
      Store(contacts, history, nextId, nextHistoryId, notifications)
    }

    constructor ()
      ensures State() == Empty()
    {
      contacts := map[];
      history := [];
      nextId := 1;
      nextHistoryId := 1;
      notifications := 0;
    }

    /** `after_change`: the insert, update and delete hook publishes one change message. */
    method AfterChange()
      modifies this
      ensures State() == old(State()).(notifications := old(notifications) + 1)
    {
      notifications := notifications + 1;
    }

    /** `save_history_snapshot`: append the snapshot row; history writes publish nothing. */
    method SaveHistorySnapshot(row: ContactRow, now: int)
      modifies this
      ensures State() == RecordSnapshot(old(State()), row, now)
    {
      history := history + [HistoryRow(nextHistoryId, row.id, now, SnapshotData(row.fields))];
      nextHistoryId := nextHistoryId + 1;
    }

    method CreateContact(data: ContactFields, now: int, historyNow: int, historySaved: bool) returns (r: Result<ContactRow, StoreError>)
      requires Valid(State())
      modifies this
      ensures Valid(State())
      ensures (State(), r) == Create(old(State()), data, now, historyNow, historySaved)
    {
      CreateKeepsValid(State(), data, now, historyNow, historySaved);
      if EmailTaken(contacts, data.email, None) {
        return Err(IntegrityViolation(Some(EmailConstraint)));
      }
      var row := ContactRow(nextId, data, now);
      contacts := contacts[nextId := row];
      nextId := nextId + 1;
      AfterChange();
      if historySaved {
        SaveHistorySnapshot(row, historyNow);
      }
      r := Ok(row);
    }

    /** Field by field overwrite, noting whether any supplied value differed from the stored one. */
    method UpdateContact(id: int, data: ContactFields, now: int, historySaved: bool) returns (r: Result<ContactRow, StoreError>)
      requires Valid(State())
      modifies this
      ensures Valid(State())
      ensures (State(), r) == Update(old(State()), id, data, now, historySaved)
    {
      UpdateKeepsValid(State(), id, data, now, historySaved);
      if id !in contacts {
        return Err(NotFound);
      }
      var stored := contacts[id];
      var fields, hasChanges := OverwriteFields(stored.fields, data);
      if EmailTaken(contacts, data.email, Some(id)) {
        return Err(IntegrityViolation(Some(EmailConstraint)));
      }
      var row := stored.(fields := fields);
      contacts := contacts[id := row];
      AfterChange();
      if hasChanges && historySaved {
        SaveHistorySnapshot(row, now);
      }
      r := Ok(row);
    }

    method DeleteContact(id: int) returns (err: Option<StoreError>)
      requires Valid(State())
      modifies this
      ensures Valid(State())
      ensures (State(), err) == Delete(old(State()), id)
    {
      DeleteKeepsValid(State(), id);
      if id !in contacts {
        return Some(NotFound);
      }
      contacts := contacts - {id};
      history := Filter(history, h => !BelongsTo(h, id));
      AfterChange();
      err := None;
    }
  }
}
