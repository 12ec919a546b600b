/**
 * The client's field checks (contacts-app ContactForm.js): the email and phone
 * regular expressions written out as character matchers, each proved equal to a
 * declarative description of the strings the expression accepts.
 */
module FormValidation {

  import opened ContactSchema

  /** JavaScript's `\s`: the WhiteSpace and LineTerminator code points of ECMAScript. */
  predicate IsSpace(c: char) {
    || c == '\t' || c == '\n' || c == '\U{000B}' || c == '\U{000C}' || c == '\r' || c == ' '
    || c == '\U{00A0}' || c == '\U{1680}' || ('\U{2000}' <= c <= '\U{200A}')
    || c == '\U{2028}' || c == '\U{2029}' || c == '\U{202F}' || c == '\U{205F}'
    || c == '\U{3000}' || c == '\U{FEFF}'
  }

  /** JavaScript's `\d`: an ASCII decimal digit. */
  predicate IsDigit(c: char) {
    '0' <= c <= '9'
  }

  // ---------------------------------------------------------------------------
  // Email: /^[^\s@]+@[^\s@]+\.[^\s@]+$/
  // ---------------------------------------------------------------------------

  /** The class `[^\s@]`. */
  predicate Plain(c: char) {
    !IsSpace(c) && c != '@'
  }

  /** Every character of `s` is in `[^\s@]`. */
  ghost predicate AllPlain(s: string) {
    forall k :: 0 <= k < |s| ==> Plain(s[k])
  }

  /**
   * `s` splits as `s[..i] + "@" + s[i+1..j] + "." + s[j+1..]` with all three
   * parts non-empty and made of `[^\s@]` characters.
   */
  ghost predicate EmailSplit(s: string, i: int, j: int) {
    && 0 < i && i + 1 < j && j + 1 < |s|
    && s[i] == '@' && s[j] == '.'
    && AllPlain(s[..i]) && AllPlain(s[i + 1..j]) && AllPlain(s[j + 1..])
  }

  /** The strings the email expression accepts: those with a decomposition as above. */
  ghost predicate EmailPattern(s: string) {
    exists i, j :: EmailSplit(s, i, j)
  }

  /** An email domain: `[^\s@]` characters with a `.` that is neither the first nor the last one. */
  ghost predicate DomainShape(d: string) {
    AllPlain(d) && exists k :: 1 <= k < |d| - 1 && d[k] == '.'
  }

  lemma AllPlainTail(s: string)
    requires s != []
    ensures AllPlain(s) <==> Plain(s[0]) && AllPlain(s[1..])
  {
    if Plain(s[0]) && AllPlain(s[1..]) {
      forall k | 0 < k < |s| ensures Plain(s[k]) {
        assert s[k] == s[1..][k - 1];
      }
    }
  }

  /** Matches `[^\s@]+$`. */
  function MatchTail(s: string): (r: bool)
    ensures r <==> s != [] && AllPlain(s)
  {
    if s == [] then false
    else
      AllPlainTail(s);
      Plain(s[0]) && (|s| == 1 || MatchTail(s[1..]))
  }

  /** Matches `[^\s@]*\.[^\s@]+$`, trying every `.` as the literal one (the regex backtracks). */
  function MatchDomainRest(s: string): (r: bool)
    ensures r <==> AllPlain(s) && exists k :: 0 <= k < |s| - 1 && s[k] == '.'
  {
    if s == [] then false
    else if !Plain(s[0]) then false
    else
      AllPlainTail(s);
      var r := (s[0] == '.' && MatchTail(s[1..])) || MatchDomainRest(s[1..]);
      assert (exists k :: 0 <= k < |s| - 1 && s[k] == '.')
         <==> (s[0] == '.' && |s| > 1) || (exists k :: 0 <= k < |s[1..]| - 1 && s[1..][k] == '.') by {
        if k :| 0 <= k < |s| - 1 && s[k] == '.' {
          if k > 0 {
            assert s[1..][k - 1] == '.';
          }
        }
        if k :| 0 <= k < |s[1..]| - 1 && s[1..][k] == '.' {
          assert s[k + 1] == '.';
        }
      }
      r
  }

  /** Matches the domain `[^\s@]+\.[^\s@]+$`. */
  function MatchDomain(s: string): (r: bool)
    ensures r <==> DomainShape(s)
  {
    if s == [] then false
    else
      AllPlainTail(s);
      var r := Plain(s[0]) && MatchDomainRest(s[1..]);
      assert (exists k :: 1 <= k < |s| - 1 && s[k] == '.')
         <==> (exists k :: 0 <= k < |s[1..]| - 1 && s[1..][k] == '.') by {
        if k :| 1 <= k < |s| - 1 && s[k] == '.' {
          assert s[1..][k - 1] == '.';
        }
        if k :| 0 <= k < |s[1..]| - 1 && s[1..][k] == '.' {
          assert s[k + 1] == '.';
        }
      }
      r
  }

  /** `s` is some `[^\s@]` characters, then `@`, then a domain. */
  ghost predicate LocalThenDomain(s: string) {
    exists i :: 0 <= i < |s| && s[i] == '@' && AllPlain(s[..i]) && DomainShape(s[i + 1..])
  }

  /** Matches `[^\s@]*@` followed by the domain; `[^\s@]` cannot consume the `@`, so no backtracking is needed. */
  function MatchLocalRest(s: string): (r: bool)
    ensures r <==> LocalThenDomain(s)
  {
    if s == [] then false
    else if s[0] == '@' then
      LocalAtSign(s);
      MatchDomain(s[1..])
    else
      LocalPlainStep(s);
      Plain(s[0]) && MatchLocalRest(s[1..])
  }

  /** A leading `@` ends the local part at once. */
  lemma LocalAtSign(s: string)
    requires s != [] && s[0] == '@'
    ensures LocalThenDomain(s) <==> DomainShape(s[1..])
  {
    if DomainShape(s[1..]) {
      assert AllPlain(s[..0]);
    }
    if LocalThenDomain(s) {
      var i :| 0 <= i < |s| && s[i] == '@' && AllPlain(s[..i]) && DomainShape(s[i + 1..]);
      if i > 0 {
        assert s[..i][0] == s[0];
      }
    }
  }

  /** Any other leading character belongs to the local part. */
  lemma LocalPlainStep(s: string)
    requires s != [] && s[0] != '@'
    ensures LocalThenDomain(s) <==> Plain(s[0]) && LocalThenDomain(s[1..])
  {
    if Plain(s[0]) && LocalThenDomain(s[1..]) {
      var t := s[1..];
      var i :| 0 <= i < |t| && t[i] == '@' && AllPlain(t[..i]) && DomainShape(t[i + 1..]);
      assert s[..i + 1] == [s[0]] + t[..i];
      AllPlainTail(s[..i + 1]);
      assert s[i + 1 + 1..] == t[i + 1..];
    }
    if LocalThenDomain(s) {
      var i :| 0 <= i < |s| && s[i] == '@' && AllPlain(s[..i]) && DomainShape(s[i + 1..]);
      LocalPlainStepBack(s, i);
    }
  }

  lemma LocalPlainStepBack(s: string, i: int)
    requires 0 <= i < |s| && s[0] != '@'
    requires s[i] == '@' && AllPlain(s[..i]) && DomainShape(s[i + 1..])
    ensures Plain(s[0]) && LocalThenDomain(s[1..])
  {
    assert i > 0;
    assert s[..i][0] == s[0];
    var t := s[1..];
    assert t[..i - 1] == s[..i][1..];
    AllPlainTail(s[..i]);
    assert t[i - 1 + 1..] == s[i + 1..];
    assert t[i - 1] == '@';
  }

  /** The concatenation of two plain strings is plain. */
  lemma AllPlainConcat(a: string, b: string)
    requires AllPlain(a) && AllPlain(b)
    ensures AllPlain(a + b)
  {
    forall k | 0 <= k < |a + b| ensures Plain((a + b)[k]) {
      if k >= |a| {
        assert (a + b)[k] == b[k - |a|];
      }
    }
  }

  lemma EmailSplitToStaged(s: string, i: int, j: int)
    requires EmailSplit(s, i, j)
    ensures s != [] && Plain(s[0]) && LocalThenDomain(s[1..])
  {
    assert s[..i][0] == s[0];
    AllPlainTail(s[..i]);
    assert s[1..][..i - 1] == s[..i][1..];
    var d := s[i + 1..];
    assert d == s[i + 1..j] + [s[j]] + s[j + 1..];
    assert AllPlain([s[j]]);
    AllPlainConcat(s[i + 1..j], [s[j]]);
    AllPlainConcat(s[i + 1..j] + [s[j]], s[j + 1..]);
    assert d[j - i - 1] == '.';
    assert DomainShape(d);
    assert s[1..][i - 1] == '@' && s[1..][i - 1 + 1..] == d;
  }

  lemma StagedToEmailSplit(s: string, i: int, k: int)
    requires s != [] && Plain(s[0])
    requires 0 <= i < |s[1..]| && s[1..][i] == '@' && AllPlain(s[1..][..i])
    requires DomainShape(s[1..][i + 1..])
    requires 1 <= k < |s[1..][i + 1..]| - 1 && s[1..][i + 1..][k] == '.'
    ensures EmailSplit(s, i + 1, i + 2 + k)
  {
    var t := s[1..];
    var d := t[i + 1..];
    assert s[..i + 1] == [s[0]] + t[..i];
    AllPlainTail(s[..i + 1]);
    var a, b := i + 1, i + 2 + k;
    assert d == s[a + 1..];
    assert s[a + 1..b] == d[..k];
    assert s[b + 1..] == d[k + 1..];
    assert AllPlain(d[..k]) by {
      forall m | 0 <= m < k ensures Plain(d[..k][m]) {
        assert d[..k][m] == d[m];
      }
    }
    var e := d[k + 1..];
    assert AllPlain(e) by {
      forall m | 0 <= m < |e| ensures Plain(e[m]) {
        assert e[m] == d[k + 1 + m];
      }
    }
  }

  /** The two descriptions of an accepted email agree. */
  lemma EmailSplitIff(s: string)
    ensures EmailPattern(s) <==> s != [] && Plain(s[0]) && LocalThenDomain(s[1..])
  {
    if EmailPattern(s) {
      var i, j :| EmailSplit(s, i, j);
      EmailSplitToStaged(s, i, j);
    }
    if s != [] && Plain(s[0]) && LocalThenDomain(s[1..]) {
      var t := s[1..];
      var i :| 0 <= i < |t| && t[i] == '@' && AllPlain(t[..i]) && DomainShape(t[i + 1..]);
      var k :| 1 <= k < |t[i + 1..]| - 1 && t[i + 1..][k] == '.';
      StagedToEmailSplit(s, i, k);
    }
  }

  /** `validateEmail`: the email expression written as a matcher; it accepts exactly `EmailPattern`. */
  function ValidateEmail(s: string): (r: bool)
    ensures r <==> EmailPattern(s)
  {
    EmailSplitIff(s);
    s != [] && Plain(s[0]) && MatchLocalRest(s[1..])
  }

  /**
   * What an email that passes the check looks like: exactly one `@`, at index `i`
   * and not first; no whitespace; a `.` after the `@` that is neither the first nor
   * the last character of the part after it.
   */
  ghost predicate EmailShapeAt(s: string, i: int) {
    && 0 < i < |s| && s[i] == '@'
    && (forall k :: 0 <= k < |s| && s[k] == '@' ==> k == i)
    && (forall k :: 0 <= k < |s| ==> !IsSpace(s[k]))
    && (exists j :: i + 1 < j < |s| - 1 && s[j] == '.')
  }

  /** The email check accepts exactly the strings of that shape (both directions). */
  lemma EmailCheckMeaning(s: string)
    ensures ValidateEmail(s) <==> exists i :: EmailShapeAt(s, i)
  {
    if EmailPattern(s) {
      var i, j :| EmailSplit(s, i, j);
      forall k | 0 <= k < |s| && k != i ensures Plain(s[k]) {
        if k < i {
          assert s[k] == s[..i][k];
        } else if k < j {
          assert s[k] == s[i + 1..j][k - i - 1];
        } else if k > j {
          assert s[k] == s[j + 1..][k - j - 1];
        }
      }
      assert EmailShapeAt(s, i);
    }
    if i :| EmailShapeAt(s, i) {
      var j :| i + 1 < j < |s| - 1 && s[j] == '.';
      assert forall k :: 0 <= k < |s| && k != i ==> Plain(s[k]);
      assert AllPlain(s[..i]) by {
        forall k | 0 <= k < i ensures Plain(s[..i][k]) {
          assert s[..i][k] == s[k];
        }
      }
      var m := s[i + 1..j];
      assert AllPlain(m) by {
        forall k | 0 <= k < |m| ensures Plain(m[k]) {
          assert m[k] == s[k + i + 1];
        }
      }
      var e := s[j + 1..];
      assert AllPlain(e) by {
        forall k | 0 <= k < |e| ensures Plain(e[k]) {
          assert e[k] == s[k + j + 1];
        }
      }
      assert EmailSplit(s, i, j);
    }
  }

  // ---------------------------------------------------------------------------
  // Phone: /^(?:\+1)?\s?\(?\d{3}\)?[-.\s]?\d{3}[-.\s]?\d{4}/   (no end anchor)
  // ---------------------------------------------------------------------------

  /** The single-character optional items of the phone expression. */
  datatype OptionalChar = Space | Open | Close | Separator

  /** The characters each optional item accepts: `\s`, `\(`, `\)` and `[-.\s]`. */
  predicate Accepts(item: OptionalChar, c: char) {
    match item
    case Space => IsSpace(c)
    case Open => c == '('
    case Close => c == ')'
    case Separator => c == '-' || c == '.' || IsSpace(c)
  }

  /** `(?:\+1)?`: drops a leading "+1" when there is one. */
  function SkipCountryCode(s: string): (r: string)
    ensures (|s| >= 2 && s[0] == '+' && s[1] == '1' && r == s[2..])
         || (!(|s| >= 2 && s[0] == '+' && s[1] == '1') && r == s)
  {
    if |s| >= 2 && s[0] == '+' && s[1] == '1' then s[2..] else s
  }

  /** An optional one-character item: drops the first character when the item accepts it. */
  function SkipOptional(s: string, item: OptionalChar): (r: string)
    ensures (s != [] && Accepts(item, s[0]) && r == s[1..]) || (!(s != [] && Accepts(item, s[0])) && r == s)
  {
    if s != [] && Accepts(item, s[0]) then s[1..] else s
  }

  /** `\d{n}` at the front of `s`. */
  predicate DigitsPrefix(s: string, n: nat) {
    n <= |s| && forall k :: 0 <= k < n ==> IsDigit(s[k])
  }

  /**
   * `validatePhone`: a left-to-right matcher that takes every optional item whenever
   * it can. Taking it is never wrong: in each case the item that follows cannot start
   * with the character the optional item would have consumed.
   */
  function ValidatePhone(s: string): bool {
    MatchArea(SkipOptional(SkipOptional(SkipCountryCode(s), Space), Open))
  }

  /** `\d{3}\)?[-.\s]?` and the rest of the expression. */
  function MatchArea(a: string): bool {
    DigitsPrefix(a, 3) && MatchExchange(SkipOptional(SkipOptional(a[3..], Close), Separator))
  }

  /** `\d{3}[-.\s]?\d{4}`. */
  function MatchExchange(b: string): bool {
    DigitsPrefix(b, 3) && DigitsPrefix(SkipOptional(b[3..], Separator), 4)
  }

  /** One way of reading a prefix of a string as a phone number, piece by piece. */
  datatype PhoneParse = PhoneParse(
    countryCode: bool, space: string, open: string, area: string, close: string,
    sep1: string, exchange: string, sep2: string, line: string)

  /** A piece for an optional item: empty, or one character the item accepts. */
  ghost predicate OptionalPiece(p: string, item: OptionalChar) {
    p == [] || (|p| == 1 && Accepts(item, p[0]))
  }

  /** Exactly `n` decimal digits. */
  ghost predicate DigitRun(p: string, n: nat) {
    |p| == n && forall k :: 0 <= k < n ==> IsDigit(p[k])
  }

  /** Each piece is what its item of the expression may match. */
  ghost predicate WellFormed(t: PhoneParse) {
    && OptionalPiece(t.space, Space) && OptionalPiece(t.open, Open)
    && DigitRun(t.area, 3) && OptionalPiece(t.close, Close) && OptionalPiece(t.sep1, Separator)
    && DigitRun(t.exchange, 3) && OptionalPiece(t.sep2, Separator) && DigitRun(t.line, 4)
  }

  /** The text of the optional country code. */
  function CountryText(countryCode: bool): string {
    if countryCode then "+1" else ""
  }

  /** The text the pieces spell, followed by `rest`. */
  function Spell(t: PhoneParse, rest: string): string {
    CountryText(t.countryCode) + (t.space + (t.open + SpellArea(t, rest)))
  }

  /** The strings the phone expression accepts: a decomposable prefix followed by anything. */
  ghost predicate PhonePattern(s: string) {
    exists t, rest :: WellFormed(t) && s == Spell(t, rest)
  }

  /** The character an optional item consumes at the front of `s`, if it consumes one. */
  function Taken(s: string, item: OptionalChar): string {
    if s != [] && Accepts(item, s[0]) then s[..1] else []
  }

  lemma TakenSplit(s: string, item: OptionalChar)
    ensures OptionalPiece(Taken(s, item), item)
    ensures s == Taken(s, item) + SkipOptional(s, item)
  {
    if s != [] && Accepts(item, s[0]) {
      assert s == s[..1] + s[1..];
    }
  }

  /** An optional item consumes exactly its piece when the rest does not start with a character it accepts. */
  lemma SkipPiece(p: string, r: string, item: OptionalChar)
    requires OptionalPiece(p, item)
    requires p == [] ==> r == [] || !Accepts(item, r[0])
    ensures SkipOptional(p + r, item) == r
  {
    if p != [] {
      assert (p + r)[0] == p[0];
      assert (p + r)[1..] == r;
    }
  }

  /** A run of `n` digits followed by anything is matched by `\d{n}`. */
  lemma DigitRunPrefix(p: string, r: string, n: nat)
    requires DigitRun(p, n)
    ensures DigitsPrefix(p + r, n) && (p + r)[n..] == r
  {
    assert forall k :: 0 <= k < n ==> (p + r)[k] == p[k];
  }

  /** The facts about `\s`, `[-.\s]` and the literals that make greedy matching safe. */
  lemma CharFacts(c: char)
    ensures IsDigit(c) ==> !Accepts(Separator, c) && c != ')' && c != '(' && !IsSpace(c) && c != '+'
    ensures Accepts(Separator, c) ==> c != ')'
    ensures IsSpace(c) ==> c != '+'
  {
  }

  /** The pieces from the exchange on, followed by `rest`. */
  function SpellExchange(t: PhoneParse, rest: string): string {
    t.exchange + (t.sep2 + (t.line + rest))
  }

  /** The pieces from the area code on, followed by `rest`. */
  function SpellArea(t: PhoneParse, rest: string): string {
    t.area + (t.close + (t.sep1 + SpellExchange(t, rest)))
  }

  lemma ExchangeSound(b: string) returns (t: PhoneParse, rest: string)
    requires MatchExchange(b)
    ensures DigitRun(t.exchange, 3) && OptionalPiece(t.sep2, Separator) && DigitRun(t.line, 4)
    ensures b == SpellExchange(t, rest)
  {
    var c := SkipOptional(b[3..], Separator);
    TakenSplit(b[3..], Separator);
    var exchange, sep2, line := b[..3], Taken(b[3..], Separator), c[..4];
    rest := c[4..];
    assert c == line + rest;
    assert b[3..] == sep2 + (line + rest);
    assert b == exchange + b[3..];
    assert DigitRun(exchange, 3) && DigitRun(line, 4);
    t := PhoneParse(false, "", "", "", "", "", exchange, sep2, line);
  }

  lemma AreaSound(a: string) returns (t: PhoneParse, rest: string)
    requires MatchArea(a)
    ensures DigitRun(t.area, 3) && OptionalPiece(t.close, Close) && OptionalPiece(t.sep1, Separator)
    ensures DigitRun(t.exchange, 3) && OptionalPiece(t.sep2, Separator) && DigitRun(t.line, 4)
    ensures a == SpellArea(t, rest)
  {
    var a4 := SkipOptional(a[3..], Close);
    var b := SkipOptional(a4, Separator);
    TakenSplit(a[3..], Close);
    TakenSplit(a4, Separator);
    var e;
    e, rest := ExchangeSound(b);
    t := e.(area := a[..3], close := Taken(a[3..], Close), sep1 := Taken(a4, Separator));
    assert SpellExchange(t, rest) == SpellExchange(e, rest);
    assert a == a[..3] + a[3..];
  }

  /** Every string the matcher accepts has a decomposition. */
  lemma PhoneSound(s: string)
    requires ValidatePhone(s)
    ensures PhonePattern(s)
  {
    var a1 := SkipCountryCode(s);
    var a2 := SkipOptional(a1, Space);
    var a3 := SkipOptional(a2, Open);
    TakenSplit(a1, Space);
    TakenSplit(a2, Open);
    var m, rest := AreaSound(a3);
    CountryCodeSplit(s);
    var t := m.(countryCode := a1 != s, space := Taken(a1, Space), open := Taken(a2, Open));
    assert SpellArea(t, rest) == SpellArea(m, rest);
    assert a1 == t.space + (t.open + SpellArea(t, rest));
    assert s == Spell(t, rest);
    assert WellFormed(t);
  }

  /** `(?:\+1)?` splits off exactly the country code's text. */
  lemma CountryCodeSplit(s: string)
    ensures s == CountryText(SkipCountryCode(s) != s) + SkipCountryCode(s)
  {
    if |s| >= 2 && s[0] == '+' && s[1] == '1' {
      assert |SkipCountryCode(s)| < |s|;
      assert s[..2] == "+1";
      assert s == s[..2] + s[2..];
    }
  }

  /** Greedy matching of the exchange and line. */
  lemma ExchangeComplete(t: PhoneParse, rest: string)
    requires DigitRun(t.exchange, 3) && OptionalPiece(t.sep2, Separator) && DigitRun(t.line, 4)
    ensures MatchExchange(SpellExchange(t, rest))
  {
    var u9 := t.line + rest;
    DigitRunPrefix(t.line, rest, 4);
    assert u9[0] == t.line[0];
    CharFacts(u9[0]);
    SkipPiece(t.sep2, u9, Separator);
    DigitRunPrefix(t.exchange, t.sep2 + u9, 3);
  }

  /** Greedy matching from the area code on. */
  lemma AreaComplete(t: PhoneParse, rest: string)
    requires DigitRun(t.area, 3) && OptionalPiece(t.close, Close) && OptionalPiece(t.sep1, Separator)
    requires DigitRun(t.exchange, 3) && OptionalPiece(t.sep2, Separator) && DigitRun(t.line, 4)
    ensures MatchArea(SpellArea(t, rest))
  {
    var u7 := SpellExchange(t, rest);
    ExchangeComplete(t, rest);
    assert u7[0] == t.exchange[0];
    CharFacts(u7[0]);
    SkipPiece(t.sep1, u7, Separator);
    var u6 := t.sep1 + u7;
    assert u6[0] == if t.sep1 == [] then u7[0] else t.sep1[0];
    CharFacts(u6[0]);
    SkipPiece(t.close, u6, Close);
    DigitRunPrefix(t.area, t.close + u6, 3);
  }

  /** The matcher accepts every decomposable string, whatever follows the phone number. */
  lemma PhoneComplete(t: PhoneParse, rest: string)
    requires WellFormed(t)
    ensures ValidatePhone(Spell(t, rest))
  {
    var u4 := SpellArea(t, rest);
    AreaComplete(t, rest);
    assert u4[0] == t.area[0];
    CharFacts(u4[0]);
    SkipPiece(t.open, u4, Open);
    var u3 := t.open + u4;
    assert u3[0] == if t.open == [] then u4[0] else t.open[0];
    CharFacts(u3[0]);
    SkipPiece(t.space, u3, Space);
    var u2 := t.space + u3;
    assert u2[0] == if t.space == [] then u3[0] else t.space[0];
    CharFacts(u2[0]);
    CountryCodeSkip(t.countryCode, u2);
  }

  /** `(?:\+1)?` removes the country code's text when the rest cannot start another one. */
  lemma CountryCodeSkip(countryCode: bool, u: string)
    requires u != [] ==> u[0] != '+'
    ensures SkipCountryCode(CountryText(countryCode) + u) == u
  {
    var v := CountryText(countryCode) + u;
    if countryCode {
      assert v[0] == '+' && v[1] == '1' && v[2..] == u;
    } else {
      assert v == u;
    }
  }

  /** The matcher accepts exactly the strings with a decomposable prefix (both directions). */
  lemma PhoneCheckMeaning(s: string)
    ensures ValidatePhone(s) <==> PhonePattern(s)
  {
    if ValidatePhone(s) {
      PhoneSound(s);
    }
    if PhonePattern(s) {
      var t, rest :| WellFormed(t) && s == Spell(t, rest);
      PhoneComplete(t, rest);
    }
  }

  /** Appending to the text after the phone number appends to `rest`. */
  lemma SpellAppend(t: PhoneParse, rest: string, x: string)
    ensures Spell(t, rest) + x == Spell(t, rest + x)
  {
  }

  /** There is no end anchor: anything may follow an accepted phone number. */
  lemma PhonePrefixClosed(p: string, x: string)
    requires ValidatePhone(p)
    ensures ValidatePhone(p + x)
  {
    PhoneCheckMeaning(p);
    var t, rest :| WellFormed(t) && p == Spell(t, rest);
    SpellAppend(t, rest, x);
    PhoneComplete(t, rest + x);
  }

  /** The number of decimal digits in `s`. */
  function CountDigits(s: string): nat {
    if s == [] then 0 else (if IsDigit(s[0]) then 1 else 0) + CountDigits(s[1..])
  }

  lemma {:induction false} CountDigitsAppend(a: string, b: string)
    ensures CountDigits(a + b) == CountDigits(a) + CountDigits(b)
  {
    if a != [] {
      assert (a + b)[0] == a[0] && (a + b)[1..] == a[1..] + b;
      CountDigitsAppend(a[1..], b);
    } else {
      assert a + b == b;
    }
  }

  lemma {:induction false} CountDigitRun(p: string, n: nat)
    requires DigitRun(p, n)
    ensures CountDigits(p) == n
  {
    if n > 0 {
      CountDigitRun(p[1..], n - 1);
    }
  }

  /** Every accepted phone number has at least ten decimal digits. */
  lemma PhoneHasTenDigits(s: string)
    requires ValidatePhone(s)
    ensures CountDigits(s) >= 10
  {
    PhoneCheckMeaning(s);
    var t, rest :| WellFormed(t) && s == Spell(t, rest);
    var u9 := t.line + rest;
    var u8 := t.sep2 + u9;
    var u7 := t.exchange + u8;
    var u6 := t.sep1 + u7;
    var u5 := t.close + u6;
    var u4 := t.area + u5;
    var u3 := t.open + u4;
    var u2 := t.space + u3;
    CountDigitsAppend(t.line, rest);
    CountDigitRun(t.line, 4);
    CountDigitsAppend(t.sep2, u9);
    CountDigitsAppend(t.exchange, u8);
    CountDigitRun(t.exchange, 3);
    CountDigitsAppend(t.sep1, u7);
    CountDigitsAppend(t.close, u6);
    CountDigitsAppend(t.area, u5);
    CountDigitRun(t.area, 3);
    CountDigitsAppend(t.open, u4);
    CountDigitsAppend(t.space, u3);
    CountDigitsAppend(CountryText(t.countryCode), u2);
  }

  /** Any string that starts with ten digits is accepted, whatever follows them. */
  lemma PhoneTenDigits(s: string)
    requires |s| >= 10 && forall k :: 0 <= k < 10 ==> IsDigit(s[k])
    ensures ValidatePhone(s)
  {
    var t := PhoneParse(false, "", "", s[..3], "", "", s[3..6], "", s[6..10]);
    var rest := s[10..];
    assert WellFormed(t);
    assert SpellExchange(t, rest) == s[3..];
    assert SpellArea(t, rest) == s;
    assert s == Spell(t, rest);
    PhoneComplete(t, rest);
  }

  /** Ten digits in a row are accepted. */
  lemma PhoneExamplePlain()
    ensures ValidatePhone("5551234567")
  {
    var s := "5551234567";
    PlainArea();
    assert s[0] == '5' && !IsSpace('5');
    assert SkipCountryCode(s) == s;
    assert SkipOptional(s, Space) == s;
    assert SkipOptional(s, Open) == s;
  }

  /** The undelimited form from the area code on. */
  lemma PlainArea()
    ensures MatchArea("5551234567")
  {
    var a := "5551234567";
    PlainExchange();
    assert a[3..] == "1234567";
    assert SkipOptional(a[3..], Close) == a[3..];
    assert SkipOptional(a[3..], Separator) == a[3..];
  }

  /** The undelimited exchange and line. */
  lemma PlainExchange()
    ensures MatchExchange("1234567")
  {
    var b := "1234567";
    assert b[3..] == "4567";
    assert SkipOptional(b[3..], Separator) == "4567";
  }

  /** The dashed form is accepted. */
  lemma PhoneExampleDashed()
    ensures ValidatePhone("555-123-4567")
  {
    var s := "555-123-4567";
    DashedArea();
    assert s[0] == '5' && !IsSpace('5');
    assert SkipCountryCode(s) == s;
    assert SkipOptional(s, Space) == s;
    assert SkipOptional(s, Open) == s;
  }

  /** The dashed form from the area code on. */
  lemma DashedArea()
    ensures MatchArea("555-123-4567")
  {
    var a := "555-123-4567";
    DashedExchange();
    assert a[3..] == "-123-4567";
    assert SkipOptional(a[3..], Close) == a[3..];
    assert SkipOptional(a[3..], Separator) == a[4..];
    assert a[4..] == "123-4567";
  }

  /** The dashed exchange and line. */
  lemma DashedExchange()
    ensures MatchExchange("123-4567")
  {
    var b := "123-4567";
    assert b[3..] == "-4567";
    assert SkipOptional(b[3..], Separator) == "4567";
  }

  /** The part of the full example from the area code on. */
  lemma AreaExample()
    ensures MatchArea("555) 123-4567")
  {
    var a := "555) 123-4567";
    DashedExchange();
    assert a[3..] == ") 123-4567";
    assert SkipOptional(a[3..], Close) == a[4..];
    assert a[4..] == " 123-4567";
    assert SkipOptional(a[4..], Separator) == a[5..];
    assert a[5..] == "123-4567";
  }

  /** The country code, a space and a parenthesised area code are accepted. */
  lemma PhoneExampleFull()
    ensures ValidatePhone("+1 (555) 123-4567")
  {
    AreaExample();
    FullOptionals();
    FullCountryCode();
  }

  /** The country code of the full example. */
  lemma FullCountryCode()
    ensures SkipCountryCode("+1 (555) 123-4567") == " (555) 123-4567"
  {
    var s := "+1 (555) 123-4567";
    assert s[0] == '+' && s[1] == '1';
    assert s[2..] == " (555) 123-4567";
  }

  /** The space and the parenthesis before the area code of the full example. */
  lemma FullOptionals()
    ensures SkipOptional(SkipOptional(" (555) 123-4567", Space), Open) == "555) 123-4567"
  {
    var u := " (555) 123-4567";
    assert u[0] == ' ' && u[1..] == "(555) 123-4567";
    var v := "(555) 123-4567";
    assert v[0] == '(' && v[1..] == "555) 123-4567";
  }

  /** A seven-digit number is rejected. */
  lemma PhoneExampleShort()
    ensures !ValidatePhone("555-1234")
  {
  }

  /** A plain address is accepted; no `@`, nothing after the last `.`, or a space is rejected. */
  lemma EmailExamples()
    ensures ValidateEmail("a@b.co")
    ensures !ValidateEmail("bad")
    ensures !ValidateEmail("a@b.")
    ensures !ValidateEmail("a b@c.de")
  {
    EmailAcceptedExample();
    EmailNoAtExample();
    EmailNoTopLevelExample();
    EmailSpaceExample();
  }

  lemma EmailAcceptedExample()
    ensures ValidateEmail("a@b.co")
  {
    assert !IsSpace('a') && !IsSpace('b') && !IsSpace('c') && !IsSpace('o');
    assert EmailSplit("a@b.co", 1, 3) by {
      assert "a@b.co"[..1] == "a" && "a@b.co"[2..3] == "b" && "a@b.co"[4..] == "co";
    }
  }

  lemma EmailNoAtExample()
    ensures !ValidateEmail("bad")
  {
    EmailCheckMeaning("bad");
  }

  lemma EmailNoTopLevelExample()
    ensures !ValidateEmail("a@b.")
  {
    EmailCheckMeaning("a@b.");
  }

  lemma EmailSpaceExample()
    ensures !ValidateEmail("a b@c.de")
  {
    EmailCheckMeaning("a b@c.de");
    assert IsSpace(' ');
  }

  // ---------------------------------------------------------------------------
  // validateForm
  // ---------------------------------------------------------------------------

  /**
   * `validateForm`: one message per failing field, keyed by the field's wire name.
   * An empty string is falsy in JavaScript, so it counts as missing; any other string,
   * whitespace included, is present.
   */
  function ValidateForm(f: ContactFields): (errors: map<string, string>)
    ensures errors.Keys <= {"first_name", "last_name", "email", "phone"}
  {
    NameErrors("first_name", f.firstName, "First name is required")
    + NameErrors("last_name", f.lastName, "Last name is required")
    + EmailErrors(f.email) + PhoneErrors(f.phone)
  }

  /** The entry for a name field: its message when the name is empty. */
  function NameErrors(key: string, name: string, message: string): (e: map<string, string>)
    ensures e.Keys <= {key}
  {
    if name == "" then map[key := message] else map[]
  }

  /** The entry for the email field: "required" when empty, "invalid" when the check fails. */
  function EmailErrors(email: string): (e: map<string, string>)
    ensures e.Keys <= {"email"}
  {
    if email == "" then map["email" := "Email is required"]
    else if !ValidateEmail(email) then map["email" := "Please enter a valid email address"]
    else map[]
  }

  /** The entry for the phone field: "required" when empty, "invalid" when the check fails. */
  function PhoneErrors(phone: string): (e: map<string, string>)
    ensures e.Keys <= {"phone"}
  {
    if phone == "" then map["phone" := "Phone number is required"]
    else if !ValidatePhone(phone) then map["phone" := "Please enter a valid phone number"]
    else map[]
  }

  /** The four error keys are different strings. */
  lemma ErrorKeysDistinct()
    ensures "phone" != "email" && "phone" != "first_name" && "phone" != "last_name"
    ensures "email" != "first_name" && "email" != "last_name" && "first_name" != "last_name"
  {
    assert "phone"[0] == 'p' && "email"[0] == 'e';
    assert "first_name"[0] == 'f' && "last_name"[0] == 'l';
  }

  /** A record the form accepts: both names non-empty, email and phone non-empty and of the expected shape. */
  ghost predicate Acceptable(f: ContactFields) {
    && f.firstName != "" && f.lastName != ""
    && f.email != "" && EmailPattern(f.email)
    && f.phone != "" && PhonePattern(f.phone)
  }

  /** Validation reports nothing exactly when the record is acceptable. */
  lemma ValidateFormEmptyIff(f: ContactFields)
    ensures ValidateForm(f) == map[] <==> Acceptable(f)
  {
    PhoneCheckMeaning(f.phone);
    var e := ValidateForm(f);
    if !Acceptable(f) {
      if f.firstName == "" { assert "first_name" in e; }
      else if f.lastName == "" { assert "last_name" in e; }
      else if f.email == "" || !EmailPattern(f.email) { assert "email" in e; }
      else { assert "phone" in e; }
    }
  }

  /** The email message: "required" when empty, otherwise "invalid" when the pattern fails, never both. */
  lemma EmailMessage(f: ContactFields)
    ensures "email" in ValidateForm(f) <==> f.email == "" || !EmailPattern(f.email)
    ensures f.email == "" ==> ValidateForm(f)["email"] == "Email is required"
    ensures f.email != "" && !EmailPattern(f.email) ==>
              ValidateForm(f)["email"] == "Please enter a valid email address"
  {
    ErrorKeysDistinct();
  }

  /** The phone message: "required" when empty, otherwise "invalid" when the pattern fails, never both. */
  lemma PhoneMessage(f: ContactFields)
    ensures "phone" in ValidateForm(f) <==> f.phone == "" || !PhonePattern(f.phone)
    ensures f.phone == "" ==> ValidateForm(f)["phone"] == "Phone number is required"
    ensures f.phone != "" && !PhonePattern(f.phone) ==>
              ValidateForm(f)["phone"] == "Please enter a valid phone number"
  {
    PhoneMessageByMatcher(f);
    PhoneCheckMeaning(f.phone);
  }

  /** The phone message in terms of the matcher. */
  lemma PhoneMessageByMatcher(f: ContactFields)
    ensures "phone" in ValidateForm(f) <==> f.phone == "" || !ValidatePhone(f.phone)
    ensures f.phone == "" ==> ValidateForm(f)["phone"] == "Phone number is required"
    ensures f.phone != "" && !ValidatePhone(f.phone) ==>
              ValidateForm(f)["phone"] == "Please enter a valid phone number"
  {
    ErrorKeysDistinct();
  }

  /** The name messages appear exactly for the empty names. */
  lemma NameMessages(f: ContactFields)
    ensures "first_name" in ValidateForm(f) <==> f.firstName == ""
    ensures "last_name" in ValidateForm(f) <==> f.lastName == ""
    ensures f.firstName == "" ==> ValidateForm(f)["first_name"] == "First name is required"
    ensures f.lastName == "" ==> ValidateForm(f)["last_name"] == "Last name is required"
  {
    FirstNameMessage(f);
    LastNameMessage(f);
  }

  lemma FirstNameMessage(f: ContactFields)
    ensures "first_name" in ValidateForm(f) <==> f.firstName == ""
    ensures f.firstName == "" ==> ValidateForm(f)["first_name"] == "First name is required"
  {
    ErrorKeysDistinct();
  }

  lemma LastNameMessage(f: ContactFields)
    ensures "last_name" in ValidateForm(f) <==> f.lastName == ""
    ensures f.lastName == "" ==> ValidateForm(f)["last_name"] == "Last name is required"
  {
    ErrorKeysDistinct();
  }

  /** A whitespace-only name is truthy, so it passes. */
  lemma WhitespaceNamesPass()
    ensures ValidateForm(ContactFields(" ", " ", "a@b.co", "555-123-4567")) == map[]
  {
    AcceptedEmailEntry();
    DashedPhoneEntry();
    assert NameErrors("first_name", " ", "First name is required") == map[];
    assert NameErrors("last_name", " ", "Last name is required") == map[];
  }

  /** A malformed email is the only complaint about an otherwise complete record. */
  lemma BadEmailReported()
    ensures ValidateForm(ContactFields("A", "B", "bad", "555-123-4567"))
            == map["email" := "Please enter a valid email address"]
  {
    var m := map["email" := "Please enter a valid email address"];
    BadEmailEntry();
    DashedPhoneEntry();
    assert NameErrors("first_name", "A", "First name is required") == map[];
    assert NameErrors("last_name", "B", "Last name is required") == map[];
    assert map[] + map[] + m + map[] == m;
  }

  lemma BadEmailEntry()
    ensures EmailErrors("bad") == map["email" := "Please enter a valid email address"]
  {
    EmailNoAtExample();
  }

  lemma AcceptedEmailEntry()
    ensures EmailErrors("a@b.co") == map[]
  {
    EmailAcceptedExample();
  }

  lemma DashedPhoneEntry()
    ensures PhoneErrors("555-123-4567") == map[]
  {
    PhoneExampleDashed();
  }
}
