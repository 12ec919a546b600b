/** The `history` table: one snapshot of a contact's fields per recorded change. */
module HistoryModel {

  import opened Wrappers
  import opened ContactSchema
  import opened ContactModel

  /**
   * A row of the `history` table.  `contactId` is never null and refers to a stored contact
   * (kept by the store, which also deletes a contact's rows with it); `createdAt` is set when
   * the row is created.
   */
  datatype HistoryRow = HistoryRow(id: int, contactId: int, createdAt: int, data: map<string, string>)

  /** The `first_name`, `last_name`, `email` and `phone` properties: `data.get(name)`. */
  function Accessor(h: HistoryRow, f: Field): (v: Option<string>)
    ensures FieldName(f) in h.data ==> v == Some(h.data[FieldName(f)])
    ensures FieldName(f) !in h.data ==> v.None?
  {
    if FieldName(f) in h.data then Some(h.data[FieldName(f)]) else None
  }

  /** The accessors read a snapshot back: every field yields the value it was taken from. */
  lemma SnapshotReadsBack(h: HistoryRow, c: ContactFields)
    requires h.data == SnapshotData(c)
    ensures forall f :: Accessor(h, f) == Some(Get(c, f))
    ensures ContactFields(Accessor(h, FirstName).value, Accessor(h, LastName).value,
                          Accessor(h, Email).value, Accessor(h, Phone).value) == c
  {
  }

  /** A row whose data lacks every key reads as all-None. */
  lemma EmptyDataReadsNone(h: HistoryRow)
    requires h.data == map[]
    ensures forall f :: Accessor(h, f).None?
  {
  }
}
