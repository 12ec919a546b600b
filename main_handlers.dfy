/**
 * The application's pure glue: the 400 response built from a database integrity error, the
 * 404 raised for a missing contact, and the test that decides whether a pub/sub message
 * makes the listener broadcast a fresh snapshot.
 */
module MainHandlers {

  import opened Wrappers
  import opened ApiClient
  import opened ContactCrud
  import ContactForm
  import ContactSchema

  // ---------------------------------------------------------------------------
  // Python str.title() on ASCII text
  // ---------------------------------------------------------------------------

  predicate IsAsciiLetter(c: char) {
    'a' <= c <= 'z' || 'A' <= c <= 'Z'
  }

  function ToUpper(c: char): (u: char)
    requires IsAsciiLetter(c)
    ensures 'A' <= u <= 'Z'
  {
    if 'a' <= c <= 'z' then (c as int - 32) as char else c
  }

  function ToLower(c: char): (l: char)
    requires IsAsciiLetter(c)
    ensures 'a' <= l <= 'z'
  {
    if 'A' <= c <= 'Z' then (c as int + 32) as char else c
  }

  /** `title()` of `s`, where `afterCased` says whether the character before `s` was a letter. */
  function TitleFrom(s: string, afterCased: bool): string
    decreases |s|
  {
    if s == [] then []
    else if IsAsciiLetter(s[0]) then
      [if afterCased then ToLower(s[0]) else ToUpper(s[0])] + TitleFrom(s[1..], true)
    else
      [s[0]] + TitleFrom(s[1..], false)
  }

  /** Python `str.title()`: each run of letters starts upper-case and continues lower-case. */
  function Title(s: string): string {
    TitleFrom(s, false)
  }

  /** The character at `i` of `Title(s)`, stated without recursion. */
  predicate TitledAt(s: string, t: string, i: int)
    requires 0 <= i < |s| && |t| == |s|
  {
    if !IsAsciiLetter(s[i]) then t[i] == s[i]
    else if i > 0 && IsAsciiLetter(s[i - 1]) then t[i] == ToLower(s[i])
    else t[i] == ToUpper(s[i])
  }

  lemma {:induction false} TitleFromShape(s: string, afterCased: bool)
    ensures |TitleFrom(s, afterCased)| == |s|
    ensures s != [] && IsAsciiLetter(s[0]) ==>
              TitleFrom(s, afterCased)[0] == if afterCased then ToLower(s[0]) else ToUpper(s[0])
    ensures s != [] && !IsAsciiLetter(s[0]) ==> TitleFrom(s, afterCased)[0] == s[0]
    ensures forall i :: 1 <= i < |s| ==> TitledAt(s, TitleFrom(s, afterCased), i)
    decreases |s|
  {
    if s != [] {
      var t := TitleFrom(s, afterCased);
      var rest := TitleFrom(s[1..], IsAsciiLetter(s[0]));
      TitleFromShape(s[1..], IsAsciiLetter(s[0]));
      assert t == [t[0]] + rest;
      forall i | 1 <= i < |s| ensures TitledAt(s, t, i) {
        assert s[i] == s[1..][i - 1] && t[i] == rest[i - 1];
        if i > 1 {
          assert TitledAt(s[1..], rest, i - 1);
          assert s[i - 1] == s[1..][i - 2];
        }
      }
    }
  }

  /** Every character of `Title(s)` is as Python defines it, and the length is kept. */
  lemma TitleCharacterization(s: string)
    ensures |Title(s)| == |s|
    ensures forall i :: 0 <= i < |s| ==> TitledAt(s, Title(s), i)
  {
    TitleFromShape(s, false);
  }

  /** Title-casing twice is title-casing once. */
  lemma TitleIdempotent(s: string)
    ensures Title(Title(s)) == Title(s)
  {
    var t := Title(s);
    TitleCharacterization(s);
    TitleCharacterization(t);
    forall i | 0 <= i < |s| ensures Title(t)[i] == t[i] {
      assert TitledAt(s, t, i) && TitledAt(t, Title(t), i);
      assert IsAsciiLetter(t[i]) <==> IsAsciiLetter(s[i]);
      if i > 0 {
        assert TitledAt(s, t, i - 1);
        assert IsAsciiLetter(t[i - 1]) <==> IsAsciiLetter(s[i - 1]);
      }
    }
  }

  /** A run of lower-case letters after a letter is left as it is. */
  lemma {:induction false} TitleLowerRun(w: string)
    requires forall i :: 0 <= i < |w| ==> 'a' <= w[i] <= 'z'
    ensures TitleFrom(w, true) == w
    decreases |w|
  {
    if w != [] {
      TitleLowerRun(w[1..]);
      assert w == [w[0]] + w[1..];
    }
  }

  /** A lower-case word is title-cased by capitalizing its first letter only. */
  lemma TitleWord(w: string)
    requires w != [] && forall i :: 0 <= i < |w| ==> 'a' <= w[i] <= 'z'
    ensures Title(w) == [ToUpper(w[0])] + w[1..]
  {
    TitleLowerRun(w[1..]);
  }

  lemma TitleEmail()
    ensures Title("email") == "Email"
  {
    TitleWord("email");
  }

  lemma TitleField()
    ensures Title("field") == "Field"
  {
    TitleWord("field");
  }

  /** The primary-key constraint name: the underscore starts a new run. */
  lemma TitlePrimaryKeyName()
    ensures Title("contact_pkey") == "Contact_Pkey"
  {
    var s := "contact_pkey";
    assert s[1..] == "ontact" + "_" + "pkey";
    TitleSplitAtUncased("ontact", "_", "pkey");
    TitleWord("pkey");
    assert TitleFrom(s[1..], true) == "ontact_Pkey";
    assert ToUpper('c') == 'C';
    assert Title(s) == ['C'] + "ontact_Pkey";
    CapitalLiteral();
  }

  lemma CapitalLiteral()
    ensures ['C'] + "ontact_Pkey" == "Contact_Pkey"
  {
  }

  /** Title-casing runs on either side of an uncased character independently. */
  lemma {:induction false} TitleSplitAtUncased(a: string, sep: string, b: string)
    requires |sep| == 1 && !IsAsciiLetter(sep[0])
    requires forall i :: 0 <= i < |a| ==> 'a' <= a[i] <= 'z'
    ensures TitleFrom(a + sep + b, true) == a + sep + Title(b)
    decreases |a|
  {
    if a == [] {
      assert (sep + b)[1..] == b;
    } else {
      assert (a + sep + b)[1..] == a[1..] + sep + b;
      TitleSplitAtUncased(a[1..], sep, b);
      assert a == [a[0]] + a[1..];
    }
  }

  // ---------------------------------------------------------------------------
  // Error responses
  // ---------------------------------------------------------------------------

  datatype HttpResponse = HttpResponse(status: int, body: map<string, string>)

  /** The integrity-error handler: a 400 naming the violated constraint, or "field" when unnamed. */
  function IntegrityErrorResponse(constraintName: Option<string>): (r: HttpResponse)
    ensures r.status == 400 && r.body.Keys == {"message"}
    ensures constraintName == Some(EmailConstraint) ==>
              r.body["message"] == "Oops! " + Title("email") + " already exists"
    ensures constraintName.None? || constraintName == Some("") ==>
              r.body["message"] == "Oops! " + Title("field") + " already exists"
    ensures constraintName.Some? && constraintName.value !in {"", EmailConstraint} ==>
              r.body["message"] == "Oops! " + Title(constraintName.value) + " already exists"
  {
    var name := if constraintName.None? || constraintName.value == "" then "field" else constraintName.value;
    var shown := if name == EmailConstraint then "email" else name;
    HttpResponse(400, map["message" := "Oops! " + Title(shown) + " already exists"])
  }

  /** The message for a duplicate email. */
  lemma EmailTakenMessage()
    ensures IntegrityErrorResponse(Some(EmailConstraint)).body["message"] == "Oops! Email already exists"
  {
    TitleEmail();
    EmailTakenText();
  }

  lemma EmailTakenText()
    ensures "Oops! " + "Email" + " already exists" == "Oops! Email already exists"
  {
  }

  /** The message when the driver names no constraint. */
  lemma UnnamedConstraintMessage()
    ensures IntegrityErrorResponse(None).body["message"] == "Oops! Field already exists"
    ensures IntegrityErrorResponse(Some("")).body["message"] == "Oops! Field already exists"
  {
    TitleField();
    FieldTakenText();
  }

  lemma FieldTakenText()
    ensures "Oops! " + "Field" + " already exists" == "Oops! Field already exists"
  {
  }

  /** What a failed store operation sends: a 404 with a `detail` body, or the integrity 400. */
  function ErrorResponse(e: StoreError): (r: HttpResponse)
    ensures e.NotFound? ==> r.status == 404 && r.body == map["detail" := "Contact not found"]
    ensures e.IntegrityViolation? ==> r.status == 400 && "message" in r.body
  {
    match e
    case NotFound => HttpResponse(404, map["detail" := "Contact not found"])
    case IntegrityViolation(name) => IntegrityErrorResponse(name)
  }

  /**
   * End to end: a duplicate email on create shows the server's message on the form, while a
   * 404 body carries `detail`, not `message`, so the form shows its fallback text.
   */
  lemma ClientErrorTexts(s: Store, data: ContactSchema.ContactFields, now: int, historyNow: int, saved: bool)
    requires EmailTaken(s.contacts, data.email, None)
    ensures var r := Create(s, data, now, historyNow, saved).1;
            r.Err? && ContactForm.ErrorText(RequestFailure(Some(ErrorResponse(r.error).body)))
                      == "Oops! Email already exists"
    ensures ContactForm.ErrorText(RequestFailure(Some(ErrorResponse(NotFound).body))) == "Unknown error"
  {
    EmailTakenMessage();
  }

  // ---------------------------------------------------------------------------
  // The listener's broadcast trigger
  // ---------------------------------------------------------------------------

  newtype byte = x: int | 0 <= x < 256

  /** The bytes of an ASCII string. */
  function AsciiBytes(s: string): (b: seq<byte>)
    requires forall i :: 0 <= i < |s| ==> s[i] as int < 128
    ensures |b| == |s| && forall i :: 0 <= i < |s| ==> b[i] as int == s[i] as int
  {
    if s == [] then [] else [s[0] as int as byte] + AsciiBytes(s[1..])
  }

  const ChangeChannel: string := "contact_changes"

  /** The bytes Redis delivers as the change channel's name. */
  const ChangeChannelBytes: seq<byte> := AsciiBytes(ChangeChannel)

  /** A pub/sub message: its `type` and its raw `channel` bytes. */
  datatype PubSubMessage = PubSubMessage(kind: string, channel: seq<byte>, data: seq<byte>)

  /** The listener broadcasts for a data message on the change channel, and for nothing else. */
  predicate TriggersBroadcast(m: Option<PubSubMessage>) {
    m.Some? && m.value.kind == "message" && m.value.channel == ChangeChannelBytes
  }

  /** What the subscriber receives for `publish_contact_change`. */
  function ChangeMessage(): (m: PubSubMessage)
    ensures m.kind == "message"
  {
    PubSubMessage("message", ChangeChannelBytes, ChangeChannelBytes)
  }

  lemma ChangeMessageTriggers()
    ensures TriggersBroadcast(Some(ChangeMessage()))
  {
  }

  /** No message, the subscription confirmation, and messages of other channels trigger nothing. */
  lemma OnlyChangeMessagesTrigger(other: seq<byte>, data: seq<byte>)
    ensures !TriggersBroadcast(None)
    ensures !TriggersBroadcast(Some(PubSubMessage("subscribe", ChangeChannelBytes, data)))
    ensures other != ChangeChannelBytes ==> !TriggersBroadcast(Some(PubSubMessage("message", other, data)))
  {
  }
}
