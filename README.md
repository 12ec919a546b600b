# Contacts app: a Dafny model

This project models the core of a small CRUD contacts application. It has a React client, `contacts-app`, and a FastAPI/SQLAlchemy backend, `contacts-backend`. The model covers five pieces:

- **The add/edit form** (`ContactForm.js`), in `form_validation.dfy`, `contact_form.dfy` and `api_client.dfy`.
  - The email and phone checks are hand-written character matchers, each proved equal to a "there is a decomposition" definition of its regular expression.
  - `validateForm` maps a four-field record to a field→message map.
  - The component (`ContactFormView`) keeps `formData`, `errors` and `loading`, and decides between rejecting a submission, a PUT and a POST.
- **The contact list screen** (`ContactList.js`), in `contact_list.dfy`.
  - `Step` is a pure transition function over the four state fields. Its events are socket snapshots, the Delete click, confirm, cancel, and the delete request settling.
  - The class `ContactListView` holds the same fields. Each handler is proved to follow `Step`, and a ghost log ties the fields to `Run` over all events so far.
- **The server's WebSocket registry** (`connection_manager.py`), in `connection_manager.dfy`.
  - It is a list used as a set.
  - `Broadcast` walks the list by index while removing from it. This reproduces the element Python's `for` loop skips after a removal. The loop is proved against the recursive reference `Pass`.
- **The contact store with audit history** (`crud/contact.py`, `db/models/contact.py`, `db/models/history.py`, `crud/history.py`), in `contact_model.dfy`, `history_model.dfy`, `history_query.dfy` and `contact_crud.dfy`.
  - The store is an in-memory table: a map from id to row, a history sequence, id counters, and a count of the change notifications published.
  - Each operation is a function from the old store to the new one. The class `ContactStore` does the same steps in place.
- **The application glue** (`main.py`), in `main_handlers.dfy`.
  - The 400 response built from an integrity error, including Python's `str.title()`.
  - The test that decides whether a pub/sub message triggers a broadcast.

Shared pieces:
- `contact_schema.dfy` holds the four-field record used by form and store.
- `sequences.dfy` holds filtering, duplicate-freedom and a stable descending sort.
- `wrappers.dfy` holds `Option` and `Result`.

The outside world enters as parameters:
- the clock readings (integer timestamps): `now` for a new contact's row, and `historyNow` for its first history row, which `datetime.now` reads again when that row is inserted (`db/models/contact.py:16`, `db/models/history.py:16`);
- whether writing a history row succeeds;
- the outcome of each WebSocket send;
- the outcome of each HTTP request;
- the events the list screen receives.

History rows always hold the full four-field snapshot (`db/models/contact.py:18-32`); the accessors still return `None` for a missing key (`HistoryModel.Accessor`). History is recorded on create and on an update only when a value differed; deleting a contact deletes its history.

## Model

| member | source | states |
|---|---|---|
| FormValidation.ValidateEmail | contacts-app/src/components/ContactForm.js:49-52 | The check accepts a string exactly when it splits as non-empty local part, `@`, non-empty domain label, `.`, non-empty rest. No part contains whitespace or `@`, and the `.` may be any dot after the first domain character. |
| FormValidation.EmailCheckMeaning | contacts-app/src/components/ContactForm.js:50 | A string passes exactly when it has one single `@`, not at the start, and no whitespace. After the `@` there must be a `.` that is neither the first nor the last character of that part. |
| FormValidation.EmailExamples | contacts-app/src/components/ContactForm.js:50 | `a@b.co` passes. `bad`, `a@b.` and `a b@c.de` fail. |
| FormValidation.PhoneCheckMeaning | contacts-app/src/components/ContactForm.js:54-57 | The greedy matcher accepts a string exactly when some well-formed parse spells a prefix of it. A parse is an optional `+1`, optional space, optional `(`, three digits, optional `)`, optional separator, three digits, optional separator, then four digits. No `$` anchor means any rest may follow. |
| FormValidation.PhonePrefixClosed | contacts-app/src/components/ContactForm.js:55 | If `p` passes, then `p + x` passes for every suffix `x`. |
| FormValidation.PhoneHasTenDigits | contacts-app/src/components/ContactForm.js:55 | Every accepted string contains at least ten ASCII digits. |
| FormValidation.PhoneTenDigits | contacts-app/src/components/ContactForm.js:55 | Every string that starts with ten digits passes, whatever follows them: no `+1`, no brackets and no separators are needed. |
| FormValidation.PhoneExamplePlain | contacts-app/src/components/ContactForm.js:55 | `5551234567` passes. |
| FormValidation.PhoneExampleDashed | contacts-app/src/components/ContactForm.js:55 | `555-123-4567` passes. |
| FormValidation.PhoneExampleFull | contacts-app/src/components/ContactForm.js:55 | `+1 (555) 123-4567` passes. |
| FormValidation.PhoneExampleShort | contacts-app/src/components/ContactForm.js:55 | `555-1234` fails. |
| FormValidation.ValidateForm | contacts-app/src/components/ContactForm.js:59-77 | The error map's keys are among the four field names. The messages themselves are stated by the lemmas below. |
| FormValidation.ValidateFormEmptyIff | contacts-app/src/components/ContactForm.js:59-77 | The map is empty exactly when both names are non-empty, and email and phone are non-empty and pass their checks. |
| FormValidation.EmailMessage | contacts-app/src/components/ContactForm.js:64-68 | Email gets "Email is required" when empty, "Please enter a valid email address" when non-empty and failing, and no entry otherwise. It never gets both messages. |
| FormValidation.PhoneMessage | contacts-app/src/components/ContactForm.js:70-74 | Phone gets "Phone number is required" when empty, "Please enter a valid phone number" when non-empty and failing, and no entry otherwise. |
| FormValidation.NameMessages | contacts-app/src/components/ContactForm.js:62-63 | A name gets an entry exactly when it is the empty string, with "First name is required" or "Last name is required". |
| FormValidation.WhitespaceNamesPass | contacts-app/src/components/ContactForm.js:62-63 | Whitespace-only names are truthy and draw no error. |
| FormValidation.BadEmailReported | contacts-app/src/components/ContactForm.js:59-77 | A record whose only fault is a malformed email yields exactly the email message. |
| ApiClient.MessageOr | contacts-app/src/components/ContactForm.js:35 | The server's `message` is used when present and non-empty. Otherwise the fallback text is used. |
| ApiClient.DetailBodyGivesFallback | contacts-app/src/components/ContactForm.js:35 | A body without `message`, such as `{"detail": ...}`, gives the fallback. |
| ContactForm.ErrorText | contacts-app/src/components/ContactForm.js:35 | The global error is never empty: it is the server message, or "Unknown error". The same expression appears at lines 88 and 103. |
| ContactForm.ParseIntRoundTrip | contacts-app/src/components/ContactForm.js:118 | `parseInt` of the decimal spelling of an id yields that id. |
| ContactForm.ParseIntNaN | contacts-app/src/components/ContactForm.js:118 | `parseInt` is NaN for the empty string, for a string whose first character is not whitespace, a digit or a sign, and for a sign not followed by a digit. |
| ContactForm.ParseIntSkipsSpace | contacts-app/src/components/ContactForm.js:118 | A leading whitespace character never changes the result. |
| ContactForm.ParseIntPrefix | contacts-app/src/components/ContactForm.js:118 | Parsing stops at the first non-digit: the decimal spelling of any `n` followed by text that does not start with a digit gives `n`. |
| ContactForm.ParseIntNegative | contacts-app/src/components/ContactForm.js:118 | For every `n`, a leading `-` before its decimal spelling gives `-n` and a leading `+` gives `n`, whatever non-digit text follows. |
| ContactForm.ParseIntExample | contacts-app/src/components/ContactForm.js:118 | `" 42x"`, or `42x` after any other whitespace character, gives 42. |
| ContactForm.SubmitSendsIffAcceptable | contacts-app/src/components/ContactForm.js:109-122 | A submission sends a request exactly when validation is clean. With a route id it is a PUT of the form with `parseInt(id)`; without one it is a POST of the form. |
| ContactForm.EditTargetsRouteId | contacts-app/src/components/ContactForm.js:117-118 | On the edit screen for id `n`, a valid form is sent as a PUT for exactly `n`. |
| ContactForm.ContactFormView.constructor | contacts-app/src/components/ContactForm.js:10-18 | Starts with empty form fields, no errors and not loading. |
| ContactForm.ContactFormView.BeginGetContact | contacts-app/src/components/ContactForm.js:22-32 | On the edit screen, clears the errors, sets loading and issues the GET for the route id. Otherwise it does nothing. |
| ContactForm.ContactFormView.FinishGetContact | contacts-app/src/components/ContactForm.js:33-39 | Loads the record, or sets the global error and an error toast. Loading ends either way. |
| ContactForm.ContactFormView.HandleChange | contacts-app/src/components/ContactForm.js:42-47 | Only the named field changes. Errors and loading stay. |
| ContactForm.ContactFormView.HandleSubmit | contacts-app/src/components/ContactForm.js:109-122 | The request equals the submit decision. A rejected form sets `errors` to the validation map. A sent request clears the errors and sets loading. |
| ContactForm.ContactFormView.FinishSubmit | contacts-app/src/components/ContactForm.js:78-108 | On success it shows "Contact added successfully" or "Contact updated successfully" and navigates home. On failure it sets the global error and an error toast. Loading ends either way. |
| ContactSchema.With | contacts-app/src/components/ContactForm.js:42-47 | The updated field holds the new value. Every other field is unchanged. |
| ContactSchema.FieldName | contacts-app/src/components/ContactForm.js:10-15 | Each field has its wire name (`first_name`, `last_name`, `email`, `phone`). |
| ContactSchema.FieldNameInjective | contacts-app/src/components/ContactForm.js:10-15 | Distinct fields have distinct wire names. |
| ContactList.Initial | contacts-app/src/components/ContactList.js:11-14 | No contacts, loading, no modal and no selection. Neither the empty-state block nor the table header shows. |
| ContactList.DeleteFailureText | contacts-app/src/components/ContactList.js:66 | The text is "Error deleting contact: " followed by the server message, or by "Unknown". |
| ContactList.MessageReplacesContacts | contacts-app/src/components/ContactList.js:25-30 | A message replaces the list with its payload, with no merge, and ends loading. The modal is untouched. Afterwards the empty state shows exactly when the payload is empty. |
| ContactList.LastMessageWins | contacts-app/src/components/ContactList.js:25-30 | After any event sequence, the list is the payload of the last message. With no message, the list is unchanged. |
| ContactList.DeleteClickSelects | contacts-app/src/components/ContactList.js:47-50 | Clicking Delete selects that contact and opens the modal. |
| ContactList.ConfirmDeletesSelected | contacts-app/src/components/ContactList.js:52-60 | With a selection, confirming issues a delete of exactly the selected id. It closes the modal, clears the selection and sets loading. |
| ContactList.ConfirmWithoutSelectionIsNoOp | contacts-app/src/components/ContactList.js:52-58 | With no selection, confirming changes nothing and issues nothing. |
| ContactList.CancelNeverDeletes | contacts-app/src/components/ContactList.js:72-75 | Cancel closes the modal and clears the selection, without a delete. |
| ContactList.OnlyConfirmDeletes | contacts-app/src/components/ContactList.js:47-75 | A delete is issued exactly by a confirmation with a selection, and it names the selected id. |
| ContactList.DeleteNeverTouchesContacts | contacts-app/src/components/ContactList.js:59-70 | From confirm to settle, the list is unchanged. Loading is on while the request runs and off afterwards, whatever the outcome. The toast matches the outcome. |
| ContactList.EmptyStateExcludesHeader | contacts-app/src/components/ContactList.js:86-160 | The empty-state block and the table header never show together. |
| ContactList.RunKeepsModalConsistent | contacts-app/src/components/ContactList.js:11-75 | Every event sequence keeps the modal open exactly while a contact is selected. |
| ContactList.SelectionWasClicked | contacts-app/src/components/ContactList.js:47-58 | A selected contact is always one the user clicked Delete on. |
| ContactList.DeletesTargetClickedRows | contacts-app/src/components/ContactList.js:47-58 | Every delete sent targets the id of a row clicked earlier. |
| ContactList.ContactListView.constructor | contacts-app/src/components/ContactList.js:11-14 | The fields start in `Initial()`. The modal is open exactly when a contact is selected. |
| ContactList.ContactListView.OnMessage | contacts-app/src/components/ContactList.js:25-30 | Follows `Step` for a message, and stays tied to the event log. The modal is open exactly when a contact is selected. |
| ContactList.ContactListView.HandleDeleteClick | contacts-app/src/components/ContactList.js:47-50 | Follows `Step` for a Delete click. The modal is open exactly when a contact is selected. |
| ContactList.ContactListView.ConfirmDelete | contacts-app/src/components/ContactList.js:52-60 | Follows `Step` for confirm, returning the delete it issues. The modal is open exactly when a contact is selected. |
| ContactList.ContactListView.CancelDelete | contacts-app/src/components/ContactList.js:72-75 | Follows `Step` for cancel. The modal is open exactly when a contact is selected. |
| ContactList.ContactListView.FinishDelete | contacts-app/src/components/ContactList.js:61-70 | Follows `Step` for a settled delete, returning its toast. The modal is open exactly when a contact is selected. |
| ConnectionManager.RemoveFirst | contacts-backend/app/connection_manager.py:13-15 | `remove` behind the `in` guard: the list is unchanged when the connection is absent, and one element shorter otherwise. |
| ConnectionManager.RemoveFirstAt | contacts-backend/app/connection_manager.py:15 | It cuts out exactly the first occurrence and keeps the rest in order. |
| ConnectionManager.RemoveFirstFromSet | contacts-backend/app/connection_manager.py:13-15 | On a duplicate-free list, the connection is gone afterwards. Every other member stays, the list remains duplicate-free, and nothing new appears. |
| ConnectionManager.ConnectionManager.constructor | contacts-backend/app/connection_manager.py:5-6 | A new manager has no connections. |
| ConnectionManager.ConnectionManager.Connect | contacts-backend/app/connection_manager.py:8-11 | Appends the connection at the end if absent, and changes nothing if present. It keeps the list duplicate-free. |
| ConnectionManager.ConnectionManager.Disconnect | contacts-backend/app/connection_manager.py:13-15 | Removes the connection if present, keeping the others in their order. It keeps the list duplicate-free. |
| ConnectionManager.ConnectionManager.Broadcast | contacts-backend/app/connection_manager.py:17-22 | The index loop ends with exactly the list, the sends and the raised flag of the reference pass `Pass` over the old list. |
| ConnectionManager.PassStaysInList | contacts-backend/app/connection_manager.py:17-22 | A pass only sends to, and only keeps, members of the list. |
| ConnectionManager.PassRaisesOnlyAtEnd | contacts-backend/app/connection_manager.py:19-22 | A pass reports an escaping error exactly when its last send raised a non-disconnect error. No earlier send did. |
| ConnectionManager.PassKeepsSets | contacts-backend/app/connection_manager.py:17-22 | Each connection is sent to at most once, and the list stays duplicate-free. |
| ConnectionManager.PassRemovesExactlyDisconnected | contacts-backend/app/connection_manager.py:17-22 | A connection remains exactly when it was not sent to with a disconnect outcome. So successful sends stay, and so do skipped peers. |
| ConnectionManager.PassSkipsSuccessor | contacts-backend/app/connection_manager.py:18-22 | The successor of a connection dropped for a disconnect is not sent to in that pass. |
| ConnectionManager.ThreeDisconnectsExample | contacts-backend/app/connection_manager.py:18-22 | Take three peers that all hang up. The first and third are sent to and dropped. The second is skipped and survives. |
| ContactModel.SnapshotData | contacts-backend/app/db/models/contact.py:18-24 | The snapshot has exactly the keys `first_name`, `last_name`, `email` and `phone`, each holding the current value. |
| ContactModel.SnapshotDataInjective | contacts-backend/app/db/models/contact.py:18-24 | A snapshot determines the field values it came from. |
| ContactModel.ToDict | contacts-backend/app/db/models/contact.py:34-35 | Every column name, and no other, maps to its value: the id, the four fields and `created_at`. |
| ContactModel.ToDictInjective | contacts-backend/app/db/models/contact.py:34-35 | Distinct rows have distinct dictionaries. |
| HistoryModel.Accessor | contacts-backend/app/db/models/history.py:19-33 | Each property is the value under its key in `data`, or None when the key is absent. |
| HistoryModel.SnapshotReadsBack | contacts-backend/app/db/models/history.py:19-33 | On a row holding a snapshot, the four accessors give back the fields it was taken from. |
| HistoryModel.EmptyDataReadsNone | contacts-backend/app/db/models/history.py:19-33 | With no keys in `data`, every accessor is None. |
| HistoryQuery.ContactHistory | contacts-backend/app/crud/history.py:6-12 | The result is every row of that contact and only those, newest first. With no such row, including for an unknown id, the result is `[]` rather than an error. |
| HistoryQuery.ContactHistoryIsPermutation | contacts-backend/app/crud/history.py:7-11 | Each of the contact's rows appears exactly as often as it is stored. |
| ContactCrud.Empty | contacts-backend/app/db/models/contact.py:11-16 | A fresh database satisfies the table constraints and is empty. |
| ContactCrud.RecordSnapshot | contacts-backend/app/db/models/contact.py:26-32 | Appends exactly one history row: the next id, `contact_id` set to the row's id, `created_at` set to now, and data equal to the snapshot. Contacts and notifications are untouched. |
| ContactCrud.Contacts | contacts-backend/app/crud/contact.py:29-30 | Ordered by `created_at`, newest first. It lists only stored rows, and every stored row. |
| ContactCrud.ContactsListsStore | contacts-backend/app/crud/contact.py:29-30 | Under the constraints, every stored contact is listed, and each listed row is the one stored under its id. |
| ContactCrud.Lookup | contacts-backend/app/crud/contact.py:33-37 | Gives the stored row when the id exists, and NotFound (404 "Contact not found") otherwise. |
| ContactCrud.RecordSnapshotValid | contacts-backend/app/db/models/history.py:11-17 | A snapshot of a stored contact keeps every history row pointing at a stored contact, with ids increasing. |
| ContactCrud.CreateKeepsValid | contacts-backend/app/db/models/contact.py:11-16 | Create keeps ids fresh and emails unique. |
| ContactCrud.UpdateKeepsValid | contacts-backend/app/db/models/contact.py:11-16 | Update keeps ids, unique emails and history references intact. |
| ContactCrud.DeleteKeepsValid | contacts-backend/app/db/models/history.py:13-15 | Deleting a contact leaves no history row pointing at it: the cascade. |
| ContactCrud.CreateStoresOne | contacts-backend/app/crud/contact.py:12-26 | With an unused email, create adds exactly one contact with the given fields under a fresh id, created at `now`, and publishes one change. The new contact's history is one snapshot of those fields stamped `historyNow`, or empty if the history write failed (the contact stays). |
| ContactCrud.CreateHistory | contacts-backend/app/crud/contact.py:18-24 | The history of a newly created contact is exactly its one creation snapshot, stamped with the second clock reading, or empty when writing it failed. |
| ContactCrud.CreateRejectsDuplicateEmail | contacts-backend/app/db/models/contact.py:14 | A duplicate email changes nothing and reports the `contact_email_key` constraint. |
| ContactCrud.MissingIdChangesNothing | contacts-backend/app/crud/contact.py:33-63 | Get, update and delete of a missing id give NotFound, and update and delete change nothing. |
| ContactCrud.UpdateReplacesFields | contacts-backend/app/crud/contact.py:40-46 | Update overwrites all four fields (a full replace). The id, `created_at` and the other contacts stay. One change is published even when no value differed. |
| ContactCrud.UpdateRejectsDuplicateEmail | contacts-backend/app/db/models/contact.py:14 | An email used by another contact changes nothing and reports the constraint. |
| ContactCrud.UpdateHistoryIffChanged | contacts-backend/app/crud/contact.py:42-55 | History grows exactly when some field differed and the write succeeded, and then by exactly one snapshot of the new values. Old rows are untouched. |
| ContactCrud.RepeatedUpdateAddsNoHistory | contacts-backend/app/crud/contact.py:42-55 | Repeating an update leaves contacts and history as they were, and only publishes again. |
| ContactCrud.DeleteRemovesExactly | contacts-backend/app/crud/contact.py:60-67 | Delete removes exactly that contact and all of its history. Every other contact and every other contact's history row stay. One change is published. |
| ContactCrud.OverwriteFields | contacts-backend/app/crud/contact.py:42-45 | The field loop ends with the supplied values, and its flag is set exactly when the stored record differed. |
| ContactCrud.ContactStore.constructor | contacts-backend/app/db/models/contact.py:11-16 | Starts as the empty database. |
| ContactCrud.ContactStore.AfterChange | contacts-backend/app/db/models/contact.py:37-44 | Each insert, update and delete hook publishes one notification and changes nothing else. |
| ContactCrud.ContactStore.SaveHistorySnapshot | contacts-backend/app/db/models/contact.py:26-32 | Performs `RecordSnapshot` in place. |
| ContactCrud.ContactStore.CreateContact | contacts-backend/app/crud/contact.py:12-26 | Follows `Create` and keeps the constraints. |
| ContactCrud.ContactStore.UpdateContact | contacts-backend/app/crud/contact.py:40-57 | Follows `Update` and keeps the constraints. |
| ContactCrud.ContactStore.DeleteContact | contacts-backend/app/crud/contact.py:60-67 | Follows `Delete` and keeps the constraints. |
| MainHandlers.TitleCharacterization | contacts-backend/app/main.py:87 | `title()` keeps the length. A letter is upper-cased when it starts a run of letters and lower-cased otherwise. Other characters are unchanged. |
| MainHandlers.TitleIdempotent | contacts-backend/app/main.py:87 | Title-casing twice is title-casing once. |
| MainHandlers.TitleWord | contacts-backend/app/main.py:87 | A lower-case word gets only its first letter capitalized. |
| MainHandlers.TitleEmail | contacts-backend/app/main.py:87 | `"email".title()` is "Email". |
| MainHandlers.TitleField | contacts-backend/app/main.py:87 | `"field".title()` is "Field". |
| MainHandlers.TitlePrimaryKeyName | contacts-backend/app/main.py:87 | `"contact_pkey".title()` is "Contact_Pkey". |
| MainHandlers.IntegrityErrorResponse | contacts-backend/app/main.py:80-88 | Always status 400 with a single `message`. "contact_email_key" is shown as "email", a missing or empty name as "field", and any other name title-cased. |
| MainHandlers.EmailTakenMessage | contacts-backend/app/main.py:83-87 | The duplicate-email message is "Oops! Email already exists". |
| MainHandlers.UnnamedConstraintMessage | contacts-backend/app/main.py:82 | A missing or empty constraint name gives "Oops! Field already exists". |
| MainHandlers.ErrorResponse | contacts-backend/app/crud/contact.py:35-36 | A missing contact answers 404 with `{"detail": "Contact not found"}`. An integrity error answers with the 400 message. |
| MainHandlers.ClientErrorTexts | contacts-backend/app/main.py:80-88 | End to end: a duplicate email on create shows "Oops! Email already exists" on the form. A 404 shows "Unknown error" there, because its body has no `message`. |
| MainHandlers.ChangeMessage | contacts-backend/redis_client.py:12-13 | The published change is a data message (type `message`). |
| MainHandlers.ChangeMessageTriggers | contacts-backend/app/main.py:48-52 | The message `publish_contact_change` sends triggers a broadcast. |
| MainHandlers.OnlyChangeMessagesTrigger | contacts-backend/app/main.py:48-52 | These trigger nothing: no message, the subscription confirmation, and a data message on another channel. |

Each group of lemmas characterises one function of the model:
the `FormValidation` lemmas characterise `ValidateEmail`, `ValidatePhone` and `ValidateForm`;
the `ContactForm` lemmas characterise `ParseInt` and `SubmitDecision`;
the `ContactList` lemmas characterise `Step` and `Run`;
the `ConnectionManager` lemmas characterise `Pass`, which `Broadcast` follows;
the `ContactCrud` lemmas characterise `Create`, `Update` and `Delete`;
the `MainHandlers` lemmas characterise `Title` and `TriggersBroadcast`.

## Left out

- Transport and logging. This covers the WebSocket client setup and its open, close and error logging (`ContactList.js:21-24`, `ContactList.js:31-39`), axios, and the Redis client and `publish`. It also covers the listener's polling loop and sleep, the startup and shutdown tasks, and the socket endpoint's keep-alive loop. Only their effects and the trigger test are modelled.
- Concurrency. REST responses and pushed snapshots can interleave, and `broadcast`'s awaits can interleave with `connect`/`disconnect`. Everything here is sequential. Each React handler's batched `setState` calls are one atomic transition.
- After the broadcast loop, an error other than a disconnect propagates into the listener. The model reports it as the `raised` flag and stops the pass. What happens to the listener task afterwards is not modelled.
- `connect` awaits `websocket.accept()` first. That handshake is I/O.
- The endpoint routers, the `time.sleep(20)` in them, `utils.to_json` and `json.dumps`, `config.py` and `db/base.py`. The model stops at `to_dict`'s dictionary. The schemas appear only as the shape of the record types.
- UI concerns are not modelled:
  - rendering of the table, modal text and spinner;
  - `handleEdit` and `handleAddNewContact` navigation;
  - `App.js` routing;
  - `ContactHistory.js`;
  - the submit button disabled while loading (`ContactForm.js:199`).
- The GET response loaded into `formData` also carries `id`, and it goes back in the PUT body. The model keeps the four editable fields only; the server schema ignores extra keys.
- ContactForm.ParseInt: does not model the `0x` hexadecimal prefix or any number beyond what a JavaScript `Number` can hold exactly. The route id is decimal.
- MainHandlers.Title: treats only ASCII letters as cased. Python also cases non-ASCII letters.
- MainHandlers.TriggersBroadcast: compares the channel's bytes with the ASCII bytes of `contact_changes`. It does not model the exception `decode("utf-8")` raises on invalid UTF-8.
- The database, replaced by the in-memory store:
  - sessions, commits and rollbacks;
  - the `DateTime` type, replaced by integer timestamps;
  - the clock and the success of a history write, which are parameters;
  - the unique constraint, which is enforced as a check before the change.
- A rejected insert leaves the next id unchanged. A PostgreSQL sequence would burn one; both are fresh-id schemes.
- `ORDER BY created_at DESC` leaves ties unspecified. The model keeps equal timestamps in storage order (id order for contacts, insertion order for history), which is one of the allowed orders.
- ContactCrud.ContactsListsStore: states membership both ways and the order, but not that each stored row is listed exactly once.
- ConnectionManager.PassSkipsSuccessor: states that the successor of a dropped peer is not visited. The exact set of visited positions is given only through `Pass` itself.
