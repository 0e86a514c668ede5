/** The behaviour script.js evidently intends where the code as written differs from it:
    a strength pattern that a good password can match, and a checkRequired that returns
    `true` exactly when every field passes. `FormValidation.Form` keeps the code as
    written; this module states the corrected rules and proves what they promise. */
module IntendedRules {
  import opened FieldRules
  import opened FormValidation

  // ---------------------------------------------------------------------------
  // The strength pattern

  /** `[A-Za-z\d@$!%*?&]`: a character a password may consist of. */
  predicate IsPasswordChar(c: char) {
    IsAsciiLetter(c) || IsAsciiDigit(c) || IsSymbol(c)
  }

  /** `^` and the four lookaheads, each written once. */
  const IntendedLookaheads: seq<Atom> :=
    [Begin, Ahead(Lower), Ahead(Upper), Ahead(Digit), Ahead(Symbol)]

  /** `/^(?=.*[a-z])(?=.*[A-Z])(?=.*\d)(?=.*[@$!%*?&])[A-Za-z\d@$!%*?&]{8,}$/.test(v)`:
      the lookaheads hold at the start position p, and from p to the end run eight or
      more password characters. The character set of the `{8,}` part is the one the
      common form of this pattern uses; the strength message itself names only the
      length and the four kinds of character, not this limit. */
  predicate IntendedStrengthPattern(v: string) {
    exists p: nat | p <= |v| ::
      AtomsHoldAt(v, IntendedLookaheads, p) && |v| - p >= 8 && AllPasswordChars(v, p)
  }

  /** Every character of v from p on is a password character. */
  predicate AllPasswordChars(v: string, p: nat) {
    forall i | p <= i < |v| :: IsPasswordChar(v[i])
  }

  /** Some character of v belongs to cls. */
  predicate Has(v: string, cls: CharClass) {
    exists i | 0 <= i < |v| :: cls.Contains(v[i])
  }

  /** A value made of password characters has no line terminator for `.*` to stop at. */
  lemma LineEndOfPasswordChars(v: string)
    requires AllPasswordChars(v, 0)
    ensures LineEnd(v, 0) == |v|
  {
  }

  /** The corrected pattern accepts exactly the values of eight or more password
      characters with a lower-case letter, an upper-case letter, a digit and a symbol. */
  lemma IntendedStrengthIff(v: string)
    ensures IntendedStrengthPattern(v) <==>
      && |v| >= 8 && AllPasswordChars(v, 0)
      && Has(v, Lower) && Has(v, Upper) && Has(v, Digit) && Has(v, Symbol)
  {
    if IntendedStrengthPattern(v) {
      var p: nat :| p <= |v| && AtomsHoldAt(v, IntendedLookaheads, p) && |v| - p >= 8 && AllPasswordChars(v, p);
      AtomsHoldEach(v, IntendedLookaheads, p, 0);
      assert p == 0;
      forall i | 1 <= i < 5
        ensures Has(v, IntendedLookaheads[i].cls)
      {
        AtomsHoldEach(v, IntendedLookaheads, 0, i);
        var k :| 0 <= k < LineEnd(v, 0) && IntendedLookaheads[i].cls.Contains(v[k]);
      }
      assert Has(v, IntendedLookaheads[1].cls) && Has(v, IntendedLookaheads[2].cls);
      assert Has(v, IntendedLookaheads[3].cls) && Has(v, IntendedLookaheads[4].cls);
    }
    if |v| >= 8 && AllPasswordChars(v, 0) && Has(v, Lower) && Has(v, Upper) && Has(v, Digit) && Has(v, Symbol) {
      LineEndOfPasswordChars(v);
      forall i | 0 <= i < |IntendedLookaheads|
        ensures AtomHolds(v, IntendedLookaheads[i], 0)
      {
        if i > 0 {
          var cls := IntendedLookaheads[i].cls;
          var k :| 0 <= k < |v| && cls.Contains(v[k]);
        }
      }
      AtomsHoldAll(v, IntendedLookaheads, 0);
    }
  }

  /** A value the corrected pattern accepts has no space, so the space rule before it
      never hides it. */
  lemma IntendedStrengthHasNoSpace(v: string)
    requires IntendedStrengthPattern(v)
    ensures ' ' !in v
  {
    IntendedStrengthIff(v);
  }

  /** A password the message describes: the corrected pattern accepts it and the pattern
      as written does not; seven characters are too few for the corrected one. */
  lemma IntendedStrengthExamples()
    ensures IntendedStrengthPattern("Abcdef1!") && !StrengthPattern("Abcdef1!")
    ensures !IntendedStrengthPattern("Abcde1!")
  {
    var v := "Abcdef1!";
    assert IsUpperAscii(v[0]) && IsLowerAscii(v[1]) && IsAsciiDigit(v[6]) && IsSymbol(v[7]);
    assert Lower.Contains(v[1]) && Upper.Contains(v[0]) && Digit.Contains(v[6]) && Symbol.Contains(v[7]);
    assert AllPasswordChars(v, 0);
    IntendedStrengthIff(v);
    StrengthPatternNeverMatches(v);
    IntendedStrengthIff("Abcde1!");
  }

  // ---------------------------------------------------------------------------
  // checkPassword and checkRequired as intended

  /** checkPassword with the corrected pattern: what it shows on the password input. */
  function IntendedPasswordVerdict(p: string, c: string): Verdict {
    if ' ' in p then Fail(PasswordHasSpaces, None)
    else if !IntendedStrengthPattern(p) then Fail(PasswordTooWeak, Some(LongerMessage))
    else if c == p then Pass
    else Fail(PasswordsDiffer, None)
  }

  /** With the corrected pattern the comparison is reachable: a password passes exactly
      when the pattern accepts it and the confirmation equals it, and a strong password
      that differs from its confirmation gets "Passwords don't match". */
  lemma IntendedPasswordPasses(p: string, c: string)
    ensures IntendedPasswordVerdict(p, c) == Pass <==> IntendedStrengthPattern(p) && c == p
    ensures IntendedStrengthPattern(p) && c != p ==>
      IntendedPasswordVerdict(p, c) == Fail(PasswordsDiffer, None)
  {
    if IntendedStrengthPattern(p) {
      IntendedStrengthHasNoSpace(p);
    }
  }

  /** What a check returns as intended: whether the field passes. Confirm-password has
      no check of its own; the password check compares it. */
  function IntendedCheck(value: Inputs, f: FieldId): bool {
    match f
    case Username => UsernameVerdict(Trim(value.username)).Pass?
    case Email => EmailPattern(Trim(value.email))
    case Password => IntendedPasswordVerdict(Trim(value.password), Trim(value.confirm)).Pass?
    case ConfirmPassword => true
  }

  /** checkRequired's flag after the first k fields, as intended: a blank field other
      than confirm-password, or a failing check, makes it `false` for good. */
  function IntendedAfter(value: Inputs, k: nat): bool
    requires k <= |Fields|
  {
    if k == 0 then true
    else
      var f := Fields[k - 1];
      IntendedAfter(value, k - 1)
      && (if Blank(value.Get(f)) then f == ConfirmPassword else IntendedCheck(value, f))
  }

  /** The corrected flag is `true` exactly when username, email and password are not
      blank and pass their checks; a blank confirm-password is skipped. */
  lemma IntendedAfterFields(value: Inputs)
    ensures IntendedAfter(value, |Fields|) <==>
      && !Blank(value.username) && IntendedCheck(value, Username)
      && !Blank(value.email) && IntendedCheck(value, Email)
      && !Blank(value.password) && IntendedCheck(value, Password)
  {
    assert IntendedAfter(value, 1) <==> !Blank(value.username) && IntendedCheck(value, Username);
    assert IntendedAfter(value, 2) <==> IntendedAfter(value, 1) && !Blank(value.email) && IntendedCheck(value, Email);
    assert IntendedAfter(value, 3) <==> IntendedAfter(value, 2) && !Blank(value.password) && IntendedCheck(value, Password);
    assert IntendedAfter(value, 4) <==> IntendedAfter(value, 3);
  }

  /** The corrected checkRequired returns `true` exactly when the username passes its
      rule chain, the email matches its pattern, the password matches the corrected
      pattern and the confirmation equals the password. */
  lemma IntendedAcceptsExactly(value: Inputs)
    ensures IntendedAfter(value, |Fields|) <==>
      && UsernameVerdict(Trim(value.username)) == Pass
      && EmailPattern(Trim(value.email))
      && IntendedStrengthPattern(Trim(value.password))
      && Trim(value.confirm) == Trim(value.password)
  {
    var u, e, p, c := Trim(value.username), Trim(value.email), Trim(value.password), Trim(value.confirm);
    IntendedAfterFields(value);
    IntendedPasswordPasses(p, c);
    if u == [] {
      assert UsernameVerdict(u) != Pass;
    }
    if e == [] {
      assert !EmailPattern(e);
    }
    if p == [] {
      IntendedStrengthIff(p);
    }
  }

  /** A registration the form should accept. */
  const Sample := Inputs("abc123", "a@b.co", "Abcdef1!", "Abcdef1!")

  lemma SampleIntended()
    ensures IntendedAfter(Sample, |Fields|)
  {
    assert Trim("abc123") == "abc123";
    assert Trim("a@b.co") == "a@b.co";
    assert Trim("Abcdef1!") == "Abcdef1!";
    UsernameExamples();
    EmailAccepted();
    IntendedStrengthExamples();
    IntendedAcceptsExactly(Sample);
  }

  lemma SampleAsWritten(d: Page)
    ensures RunPass(Sample, d).0 == Undefined
  {
    assert Trim("abc123") == "abc123";
    assert Trim("a@b.co") == "a@b.co";
    assert Trim("Abcdef1!") == "Abcdef1!";
    PassFlag(Sample, d);
  }

  /** For the sample registration the corrected checkRequired returns `true`, the code as
      written returns `undefined`. */
  lemma IntendedAcceptsWhatCodeRejects(d: Page)
    ensures IntendedAfter(Sample, |Fields|) && RunPass(Sample, d).0 == Undefined
  {
    SampleIntended();
    SampleAsWritten(d);
  }
}
