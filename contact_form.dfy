/**
 * The add/edit form component (contacts-app ContactForm.js): its state
 * (`formData`, `errors`, `loading`) and the handlers that change it. Each request
 * the component sends is split at its `await`: one method issues it and updates the
 * state synchronously, another takes the response and finishes the handler.
 */
module ContactForm {

  import opened Wrappers
  import opened ApiClient
  import opened ContactSchema
  import opened FormValidation

  // ---------------------------------------------------------------------------
  // parseInt on the route parameter
  // ---------------------------------------------------------------------------

  /** Drops leading whitespace, as `parseInt` does before reading a number. */
  function TrimStart(s: string): (r: string)
    ensures |r| <= |s| && r == s[|s| - |r|..]
    ensures r != [] ==> !IsSpace(r[0])
  {
    if s != [] && IsSpace(s[0]) then TrimStart(s[1..]) else s
  }

  /** The longest prefix of `s` made of decimal digits. */
  function LeadingDigits(s: string): (d: string)
    ensures d <= s
    ensures forall k :: 0 <= k < |d| ==> IsDigit(d[k])
    ensures |d| < |s| ==> !IsDigit(s[|d|])
  {
    if s != [] && IsDigit(s[0]) then [s[0]] + LeadingDigits(s[1..]) else []
  }

  /** The value of one decimal digit. */
  function DigitValue(c: char): (v: nat)
    requires IsDigit(c)
    ensures v < 10
  {
    c as int - '0' as int
  }

  /** The value of a string of decimal digits, most significant first. */
  function DecimalValue(d: string): nat
    requires forall k :: 0 <= k < |d| ==> IsDigit(d[k])
  {
    if d == [] then 0 else 10 * DecimalValue(d[..|d| - 1]) + DigitValue(d[|d| - 1])
  }

  /**
   * `parseInt(s)` with the default radix: leading whitespace, an optional sign, then
   * the longest run of decimal digits; `None` stands for `NaN` (no digits at all).
   */
  function ParseInt(s: string): Option<int> {
    ParseSigned(TrimStart(s))
  }

  /** An optional sign, then the digits; a `-` negates the value. */
  function ParseSigned(t: string): Option<int> {
    if t != [] && t[0] == '-' then
      match ParseDigits(t[1..])
      case Some(v) => Some(-v)
      case None => None
    else if t != [] && t[0] == '+' then ParseDigits(t[1..])
    else ParseDigits(t)
  }

  /** The value of the leading digits, or `None` when there are none. */
  function ParseDigits(b: string): Option<int> {
    var d := LeadingDigits(b);
    if d == [] then None else Some(DecimalValue(d))
  }

  /** The decimal digit for a value below ten. */
  function DigitChar(v: nat): (c: char)
    requires v < 10
    ensures IsDigit(c) && DigitValue(c) == v
  {
    ('0' as int + v) as char
  }

  /** The decimal spelling of `n`, as the router puts an id into the URL. */
  function DecimalString(n: nat): (s: string)
    ensures s != [] && forall k :: 0 <= k < |s| ==> IsDigit(s[k])
  {
    if n < 10 then [DigitChar(n)] else DecimalString(n / 10) + [DigitChar(n % 10)]
  }

  lemma {:induction false} DecimalValueOfString(n: nat)
    ensures DecimalValue(DecimalString(n)) == n
  {
    var s := DecimalString(n);
    if n >= 10 {
      DecimalValueOfString(n / 10);
      assert s[..|s| - 1] == DecimalString(n / 10);
    }
  }

  lemma {:induction false} LeadingDigitsOfDigits(s: string)
    requires forall k :: 0 <= k < |s| ==> IsDigit(s[k])
    ensures LeadingDigits(s) == s
  {
    if s != [] {
      LeadingDigitsOfDigits(s[1..]);
    }
  }

  /** Parsing the decimal spelling of an id gives the id back. */
  lemma ParseIntRoundTrip(n: nat)
    ensures ParseInt(DecimalString(n)) == Some(n)
  {
    var s := DecimalString(n);
    assert TrimStart(s) == s by {
      assert !IsSpace(s[0]);
    }
    LeadingDigitsOfDigits(s);
    DecimalValueOfString(n);
  }

  /**
   * A string with no digit after the optional sign is `NaN`: the empty string, one that
   * starts with a character that is neither whitespace, a digit nor a sign, and a sign
   * not followed by a digit.
   */
  lemma ParseIntNaN(s: string)
    ensures ParseInt("") == None
    ensures s != [] && !IsSpace(s[0]) && !IsDigit(s[0]) && s[0] != '-' && s[0] != '+' ==> ParseInt(s) == None
    ensures s != [] && (s[0] == '-' || s[0] == '+') && (|s| == 1 || !IsDigit(s[1])) ==> ParseInt(s) == None
  {
    if s != [] && !IsSpace(s[0]) && !IsDigit(s[0]) && s[0] != '-' && s[0] != '+' {
      Unsigned(s);
    } else if s != [] && (s[0] == '-' || s[0] == '+') && (|s| == 1 || !IsDigit(s[1])) {
      assert s == [s[0]] + s[1..];
      assert LeadingDigits(s[1..]) == [];
      Signed(s[0], s[1..]);
    }
  }

  /** Leading whitespace is skipped: it does not change the result. */
  lemma ParseIntSkipsSpace(c: char, s: string)
    requires IsSpace(c)
    ensures ParseInt([c] + s) == ParseInt(s)
  {
    assert ([c] + s)[1..] == s;
  }

  /** A digit run ends where the first non-digit starts. */
  lemma {:induction false} LeadingDigitsStops(d: string, t: string)
    requires forall k :: 0 <= k < |d| ==> IsDigit(d[k])
    requires t == [] || !IsDigit(t[0])
    ensures LeadingDigits(d + t) == d
  {
    if d != [] {
      assert (d + t)[0] == d[0] && (d + t)[1..] == d[1..] + t;
      LeadingDigitsStops(d[1..], t);
    }
  }

  /** Parsing stops at the first non-digit: whatever follows the digits is ignored. */
  lemma ParseIntPrefix(n: nat, t: string)
    requires t == [] || !IsDigit(t[0])
    ensures ParseInt(DecimalString(n) + t) == Some(n)
  {
    var d := DecimalString(n);
    DigitsThenStop(d, t);
    DecimalValueOfString(n);
  }

  /** A leading `-` negates the value and a leading `+` keeps it, whatever follows the digits. */
  lemma ParseIntNegative(n: nat, t: string)
    requires t == [] || !IsDigit(t[0])
    ensures ParseInt("-" + (DecimalString(n) + t)) == Some(-(n as int))
    ensures ParseInt("+" + (DecimalString(n) + t)) == Some(n)
  {
    var d := DecimalString(n);
    DigitsThenStop(d, t);
    DecimalValueOfString(n);
    MinusValue(d + t, n);
    PlusValue(d + t, n);
  }

  /** Digits followed by a non-digit parse to the digits' value. */
  lemma DigitsThenStop(d: string, t: string)
    requires d != [] && forall k :: 0 <= k < |d| ==> IsDigit(d[k])
    requires t == [] || !IsDigit(t[0])
    ensures ParseDigits(d + t) == Some(DecimalValue(d) as int)
    ensures ParseInt(d + t) == Some(DecimalValue(d) as int)
  {
    LeadingDigitsStops(d, t);
    ParseDigitsOf(d + t, d);
    assert (d + t)[0] == d[0] && IsDigit(d[0]);
    Unsigned(d + t);
  }

  /** A `-` in front of a digit string that reads as `v` gives `-v`. */
  lemma {:induction false} MinusValue(u: string, v: int)
    requires ParseDigits(u) == Some(v)
    ensures ParseInt("-" + u) == Some(-v)
  {
    Signed('-', u);
  }

  /** A `+` in front of a digit string that reads as `v` gives `v`. */
  lemma {:induction false} PlusValue(u: string, v: int)
    requires ParseDigits(u) == Some(v)
    ensures ParseInt("+" + u) == Some(v)
  {
    Signed('+', u);
  }

  lemma ParseDigitsOf(u: string, d: string)
    requires LeadingDigits(u) == d && d != []
    requires forall k :: 0 <= k < |d| ==> IsDigit(d[k])
    ensures ParseDigits(u) == Some(DecimalValue(d) as int)
  {
  }

  /** A string that starts with neither whitespace nor a sign is read from its first character. */
  lemma Unsigned(u: string)
    requires u != [] && !IsSpace(u[0]) && u[0] != '-' && u[0] != '+'
    ensures ParseInt(u) == ParseDigits(u)
  {
    assert TrimStart(u) == u;
  }

  /** A string that starts with a sign is read from its second character. */
  lemma Signed(sign: char, u: string)
    requires sign == '-' || sign == '+'
    ensures sign == '+' ==> ParseInt([sign] + u) == ParseDigits(u)
    ensures sign == '-' ==> ParseInt([sign] + u) == match ParseDigits(u) case Some(v) => Some(-v) case None => None
  {
    var w := [sign] + u;
    SignedStart(sign, u);
    assert ParseInt(w) == ParseSigned(w);
  }

  /** A sign is not whitespace, so trimming keeps it; the digits start right after it. */
  lemma SignedStart(sign: char, u: string)
    requires sign == '-' || sign == '+'
    ensures ([sign] + u)[0] == sign && ([sign] + u)[1..] == u
    ensures TrimStart([sign] + u) == [sign] + u
  {
    assert ([sign] + u)[0] == sign && !IsSpace(sign);
  }

  /** `parseInt(" 42x")` is 42, and so is `42x` after any other whitespace character. */
  lemma ParseIntExample(c: char)
    requires IsSpace(c)
    ensures ParseInt([c] + "42x") == Some(42)
  {
    ParseIntSkipsSpace(c, "42x");
    DigitsExample();
  }

  lemma DigitsExample()
    ensures ParseInt("42x") == Some(42)
  {
    assert "42x" == "42" + "x";
    DigitsThenStop("42", "x");
    DecimalValueExample();
  }

  lemma DecimalValueExample()
    ensures DecimalValue("42") == 42
  {
    assert "42"[..1] == "4";
    assert DecimalValue("4") == 4 by {
      assert "4"[..0] == "";
    }
  }

  // ---------------------------------------------------------------------------
  // Request failures
  // ---------------------------------------------------------------------------

  /** `error.response?.data?.message || "Unknown error"`: the empty string is falsy too. */
  function ErrorText(f: RequestFailure): (text: string)
    ensures text != ""
    ensures ServerMessage(f).Some? && ServerMessage(f).value != "" ==> text == ServerMessage(f).value
    ensures ServerMessage(f).None? || ServerMessage(f).value == "" ==> text == "Unknown error"
  {
    MessageOr(f, "Unknown error")
  }

  // ---------------------------------------------------------------------------
  // Submission
  // ---------------------------------------------------------------------------

  /** The request a submission sends, if any. */
  datatype Request =
    | NoRequest
    | Put(id: Option<int>, body: ContactFields)   // `editContact({...formData, id: parseInt(id)})`
    | Post(body: ContactFields)                   // `addContact(formData)`

  /** `if (id)`: the route parameter is present and not the empty string. */
  predicate RouteIdPresent(route: Option<string>) {
    route.Some? && route.value != ""
  }

  /** What `handleSubmit` sends for the current form: nothing after a validation error, else one request. */
  function SubmitDecision(route: Option<string>, form: ContactFields): Request {
    if ValidateForm(form) != map[] then NoRequest
    else if RouteIdPresent(route) then Put(ParseInt(route.value), form)
    else Post(form)
  }

  /** A submission sends a request exactly when the record is acceptable. */
  lemma SubmitSendsIffAcceptable(route: Option<string>, form: ContactFields)
    ensures SubmitDecision(route, form) != NoRequest <==> Acceptable(form)
    ensures Acceptable(form) && RouteIdPresent(route) ==>
              SubmitDecision(route, form) == Put(ParseInt(route.value), form)
    ensures Acceptable(form) && !RouteIdPresent(route) ==> SubmitDecision(route, form) == Post(form)
  {
    ValidateFormEmptyIff(form);
  }

  /** On the edit screen of contact `n` a valid form is sent as a PUT for exactly `n`. */
  lemma EditTargetsRouteId(n: nat, form: ContactFields)
    requires Acceptable(form)
    ensures SubmitDecision(Some(DecimalString(n)), form) == Put(Some(n), form)
  {
    ValidateFormEmptyIff(form);
    ParseIntRoundTrip(n);
  }

  /** Which request a response belongs to. */
  datatype Mutation = Create | Update

  /** How a request ended. */
  datatype Outcome = Succeeded | Failed(failure: RequestFailure)

  /** How the initial GET of the edited contact ended. */
  datatype LoadOutcome = Loaded(data: ContactFields) | LoadFailed(failure: RequestFailure)

  /** A notification shown to the user. */
  datatype Toast = NoToast | SuccessToast(text: string) | ErrorToast(text: string)

  /** The form component's state. */
  class ContactFormView {
    var formData: ContactFields
    var errors: map<string, string>
    var loading: bool
    const routeId: Option<string>

    /** The initial state: an empty form, no errors, not loading. */
    constructor (routeId: Option<string>)
      ensures formData == ContactFields("", "", "", "") && errors == map[] && !loading
      ensures this.routeId == routeId
    {
      formData := ContactFields("", "", "", "");
      errors := map[];
      loading := false;
      this.routeId := routeId;
    }

    /** The mount effect: on the edit screen, `getContact(id)` clears the errors, starts loading and issues the GET. */
    method BeginGetContact() returns (fetch: Option<string>)
      modifies this
      ensures fetch == (if RouteIdPresent(routeId) then routeId else None)
      ensures RouteIdPresent(routeId) ==> loading && errors == map[]
      ensures !RouteIdPresent(routeId) ==> loading == old(loading) && errors == old(errors)
      ensures formData == old(formData)
    {
      if RouteIdPresent(routeId) {
        loading := true;
        errors := map[];
        fetch := routeId;
      } else {
        fetch := None;
      }
    }

    /** The rest of `getContact`: load the record or show the error, then stop loading. */
    method FinishGetContact(outcome: LoadOutcome) returns (toast: Toast)
      modifies this
      ensures !loading
      ensures outcome.Loaded? ==> formData == outcome.data && errors == old(errors) && toast == NoToast
      ensures outcome.LoadFailed? ==>
                && formData == old(formData)
                && errors == map["global" := ErrorText(outcome.failure)]
                && toast == ErrorToast(ErrorText(outcome.failure))
    {
      match outcome {
        case Loaded(data) =>
          formData := data;
          toast := NoToast;
        case LoadFailed(failure) =>
          errors := map["global" := ErrorText(failure)];
          toast := ErrorToast(ErrorText(failure));
      }
      loading := false;
    }

    /** `handleChange`: the named field takes the new value, the others keep theirs. */
    method HandleChange(f: Field, v: string)
      modifies this
      ensures formData == With(old(formData), f, v)
      ensures errors == old(errors) && loading == old(loading)
    {
      formData := With(formData, f, v);
    }

    /**
     * `handleSubmit`: a record that fails validation only sets `errors`; otherwise
     * `editContact` or `addContact` clears the errors, starts loading and sends one request.
     */
    method HandleSubmit() returns (req: Request)
      modifies this
      ensures req == SubmitDecision(routeId, formData)
      ensures formData == old(formData)
      ensures req == NoRequest ==> errors == ValidateForm(formData) && loading == old(loading)
      ensures req != NoRequest ==> errors == map[] && loading
    {
      var validationErrors := ValidateForm(formData);
      if validationErrors != map[] {
        errors := validationErrors;
        return NoRequest;
      }
      if RouteIdPresent(routeId) {
        req := Put(ParseInt(routeId.value), formData);
      } else {
        req := Post(formData);
      }
      loading := true;
      errors := map[];
    }

    /** The rest of `addContact`/`editContact`: toast and go home on success, else a global error; then stop loading. */
    method FinishSubmit(kind: Mutation, outcome: Outcome) returns (toast: Toast, navigateHome: bool)
      modifies this
      ensures !loading && formData == old(formData)
      ensures navigateHome <==> outcome.Succeeded?
      ensures outcome.Succeeded? ==> errors == old(errors)
      ensures outcome.Succeeded? && kind == Create ==> toast == SuccessToast("Contact added successfully")
      ensures outcome.Succeeded? && kind == Update ==> toast == SuccessToast("Contact updated successfully")
      ensures outcome.Failed? ==>
                && errors == map["global" := ErrorText(outcome.failure)]
                && toast == ErrorToast(ErrorText(outcome.failure))
    {
      match outcome {
        case Succeeded =>
          toast := SuccessToast(if kind == Create then "Contact added successfully" else "Contact updated successfully");
          navigateHome := true;
        case Failed(failure) =>
          errors := map["global" := ErrorText(failure)];
          toast := ErrorToast(ErrorText(failure));
          navigateHome := false;
      }
      loading := false;
    }
  }
}
