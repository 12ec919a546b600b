/**
 * The four editable fields of a contact. The client form state and the server's
 * create/update payload have this same shape, so both tiers share it.
 */
module ContactSchema {

  /** One of the four editable fields, in the order the payload lists them. */
  datatype Field = FirstName | LastName | Email | Phone

  /** The fields in declaration order, which is also the iteration order of the payload. */
  const AllFields: seq<Field> := [FirstName, LastName, Email, Phone]

  /** Every field occurs in `AllFields`. */
  lemma AllFieldsListsEvery(f: Field)
    ensures exists m :: 0 <= m < |AllFields| && AllFields[m] == f
  {
    match f
    case FirstName => assert AllFields[0] == f;
    case LastName => assert AllFields[1] == f;
    case Email => assert AllFields[2] == f;
    case Phone => assert AllFields[3] == f;
  }

  /** A first name, last name, email and phone, every one a string. */
  datatype ContactFields = ContactFields(firstName: string, lastName: string, email: string, phone: string)

  /** The wire name of a field (the JSON key and column name). */
  function FieldName(f: Field): (name: string)
    ensures name in {"first_name", "last_name", "email", "phone"}
  {
    match f
    case FirstName => "first_name"
    case LastName => "last_name"
    case Email => "email"
    case Phone => "phone"
  }

  /** Distinct fields have distinct wire names, so a name identifies its field. */
  lemma FieldNameInjective(f: Field, g: Field)
    ensures FieldName(f) == FieldName(g) <==> f == g
  {
  }

  /** The value stored under `f`. */
  function Get(d: ContactFields, f: Field): string {
    match f
    case FirstName => d.firstName
    case LastName => d.lastName
    case Email => d.email
    case Phone => d.phone
  }

  /** `d` with the field `f` set to `v` (JavaScript `{...d, [name]: v}`, Python `setattr`). */
  function With(d: ContactFields, f: Field, v: string): (r: ContactFields)
    ensures Get(r, f) == v
    ensures forall g :: g != f ==> Get(r, g) == Get(d, g)
  {
    match f
    case FirstName => d.(firstName := v)
    case LastName => d.(lastName := v)
    case Email => d.(email := v)
    case Phone => d.(phone := v)
  }

  /** Two records are equal exactly when they agree on every field. */
  lemma {:induction false} ExtensionalEquality(d: ContactFields, e: ContactFields)
    ensures d == e <==> forall f :: Get(d, f) == Get(e, f)
  {
    if forall f :: Get(d, f) == Get(e, f) {
      assert Get(d, FirstName) == Get(e, FirstName);
      assert Get(d, LastName) == Get(e, LastName);
      assert Get(d, Email) == Get(e, Email);
      assert Get(d, Phone) == Get(e, Phone);
    }
  }
}
