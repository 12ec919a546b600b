/** `get_contact_history`: a contact's history rows, newest first. */
module HistoryQuery {

  import opened Sequences
  import opened HistoryModel

  function CreatedAt(h: HistoryRow): int {
    h.createdAt
  }

  predicate BelongsTo(h: HistoryRow, contactId: int) {
    h.contactId == contactId
  }

  /**
   * The rows of `contactId`, ordered by creation time, newest first.  Rows with equal
   * timestamps keep their storage order, one of the orders the query allows.
   */
  function ContactHistory(rows: seq<HistoryRow>, contactId: int): (r: seq<HistoryRow>)
    ensures SortedDesc(r, CreatedAt)
    ensures forall k :: 0 <= k < |r| ==> r[k] in rows && BelongsTo(r[k], contactId)
    ensures forall k :: 0 <= k < |rows| && BelongsTo(rows[k], contactId) ==> rows[k] in r
    ensures (forall k :: 0 <= k < |rows| ==> !BelongsTo(rows[k], contactId)) ==> r == []
  {
    var mine := Filter(rows, h => BelongsTo(h, contactId));
    SortDescMembers(mine, CreatedAt);
    SortDesc(mine, CreatedAt)
  }

  /** Sorting neither drops nor repeats a row: each row of the contact appears as often as stored. */
  lemma ContactHistoryIsPermutation(rows: seq<HistoryRow>, contactId: int)
    ensures multiset(ContactHistory(rows, contactId)) == multiset(Filter(rows, h => BelongsTo(h, contactId)))
  {
  }
}
