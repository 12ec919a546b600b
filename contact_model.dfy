/** The `contact` table's row and the pure views of it: the history snapshot and the JSON dictionary. */
module ContactModel {

  import opened ContactSchema

  /**
   * A row of the `contact` table.  The four text columns are never null; `email` is unique
   * across rows (kept by the store); `createdAt` is the insertion time as an integer.
   */
  datatype ContactRow = ContactRow(id: int, fields: ContactFields, createdAt: int)

  /** `get_snapshot_data`: the four editable fields under their column names. */
  function SnapshotData(f: ContactFields): (d: map<string, string>)
    ensures d.Keys == {"first_name", "last_name", "email", "phone"}
    ensures forall g :: FieldName(g) in d && d[FieldName(g)] == Get(f, g)
  {
    map["first_name" := f.firstName, "last_name" := f.lastName, "email" := f.email, "phone" := f.phone]
  }

  /** A snapshot determines the values it was taken from. */
  lemma SnapshotDataInjective(a: ContactFields, b: ContactFields)
    requires SnapshotData(a) == SnapshotData(b)
    ensures a == b
  {
    forall g ensures Get(a, g) == Get(b, g) {
      assert SnapshotData(a)[FieldName(g)] == SnapshotData(b)[FieldName(g)];
    }
    ExtensionalEquality(a, b);
  }

  /** A column value as the JSON encoder sees it. */
  datatype ColumnValue = IntColumn(i: int) | TextColumn(s: string) | TimeColumn(t: int)

  /** The table's columns in declaration order. */
  const ColumnNames: seq<string> := ["id", "first_name", "last_name", "email", "phone", "created_at"]

  /** `to_dict`: every column name mapped to the row's value in that column. */
  function ToDict(c: ContactRow): (d: map<string, ColumnValue>)
    ensures d.Keys == set n | n in ColumnNames
    ensures d["id"] == IntColumn(c.id) && d["created_at"] == TimeColumn(c.createdAt)
    ensures forall g :: FieldName(g) in d && d[FieldName(g)] == TextColumn(Get(c.fields, g))
  {
    map["id" := IntColumn(c.id),
        "first_name" := TextColumn(c.fields.firstName),
        "last_name" := TextColumn(c.fields.lastName),
        "email" := TextColumn(c.fields.email),
        "phone" := TextColumn(c.fields.phone),
        "created_at" := TimeColumn(c.createdAt)]
  }

  /** The dictionary loses nothing: distinct rows have distinct dictionaries. */
  lemma ToDictInjective(a: ContactRow, b: ContactRow)
    requires ToDict(a) == ToDict(b)
    ensures a == b
  {
    assert ToDict(a)["id"] == ToDict(b)["id"];
    assert ToDict(a)["created_at"] == ToDict(b)["created_at"];
    forall g ensures Get(a.fields, g) == Get(b.fields, g) {
      assert ToDict(a)[FieldName(g)] == ToDict(b)[FieldName(g)];
    }
    ExtensionalEquality(a.fields, b.fields);
  }
}
