/** The validation pass of the registration form (script.js): what checkRequired,
    checkValidity, the three checks, showError and showSuccess do to the page, and the
    flag checkRequired returns. `Form` holds the page state the code updates in place;
    the functions before it say what one step and one whole pass compute, and the lemmas
    after it state what the pass guarantees. */
module FormValidation {
  import opened FieldRules

  /** The class of a field's form-group: plain `form-group`, `form-group error` or
      `form-group success`. */
  datatype Status = Neutral | Error | Success

  /** The running `isValid` of checkRequired: `true`, `false` or `undefined`. */
  datatype Flag = True | False | Undefined {
    /** `if (flag)`: only `true` is truthy here. */
    predicate Truthy() { this == True }
    /** `flag == false`: loose equality holds only for `false`; `undefined == false` is false. */
    predicate LooselyEqualsFalse() { this == False }
  }

  /** What the page shows for one field: the class of its form-group, the text of the
      group's `small`, and the classes checks have added to the input. */
  datatype FieldView = FieldView(status: Status, message: string, styles: set<Style>) {
    /** After showError(input, text). */
    function WithError(text: string): FieldView {
      this.(status := Error, message := text)
    }

    /** After showSuccess(input): the message is left as it was. */
    function WithSuccess(): FieldView {
      this.(status := Success)
    }

    /** After `input.classList.add(s)`. */
    function WithStyle(s: Style): FieldView {
      this.(styles := styles + {s})
    }

    /** After a check shows its verdict: success, or the style (if any) and then the error. */
    function Showing(v: Verdict): FieldView {
      match v
      case Pass => WithSuccess()
      case Fail(m, None) => WithError(m)
      case Fail(m, Some(s)) => WithStyle(s).WithError(m)
    }
  }

  /** `input.value` of the four fields; a pass reads them and never changes them. */
  datatype Inputs = Inputs(username: string, email: string, password: string, confirm: string) {
    function Get(f: FieldId): string {
      match f
      case Username => username
      case Email => email
      case Password => password
      case ConfirmPassword => confirm
    }
  }

  /** The page: what each of the four fields shows. */
  datatype Page = Page(username: FieldView, email: FieldView, password: FieldView, confirm: FieldView) {
    function Get(f: FieldId): FieldView {
      match f
      case Username => username
      case Email => email
      case Password => password
      case ConfirmPassword => confirm
    }

    /** The page with field f showing w and every other field as before. */
    function Set(f: FieldId, w: FieldView): (r: Page)
      ensures r.Get(f) == w
      ensures forall g :: g != f ==> r.Get(g) == Get(g)
    {
      match f
      case Username => this.(username := w)
      case Email => this.(email := w)
      case Password => this.(password := w)
      case ConfirmPassword => this.(confirm := w)
    }
  }

  /** `value.trim() === ''` */
  predicate Blank(s: string) {
    Trim(s) == []
  }

  /** What a check returns: `true` on success; otherwise it falls off its end and
      returns `undefined`. */
  function Returned(v: Verdict): Flag {
    if v.Pass? then True else Undefined
  }

  /** checkPassword on page d, for the trimmed password p and trimmed confirmation c:
      the flag it returns and the page it leaves. Once the comparison is reached it
      writes confirm-password too. */
  function PasswordStep(p: string, c: string, d: Page): (Flag, Page) {
    if ' ' in p then
      (Undefined, d.Set(Password, d.password.WithError(PasswordHasSpaces)))
    else if !StrengthPattern(p) then
      (Undefined, d.Set(Password, d.password.WithStyle(LongerMessage).WithError(PasswordTooWeak)))
    else if c == p then
      (True, d.Set(ConfirmPassword, d.confirm.WithSuccess())
               .Set(Password, d.password.WithSuccess()))
    else
      (Undefined, d.Set(Password, d.password.WithError(PasswordsDiffer))
                    .Set(ConfirmPassword, d.confirm.WithError(PasswordsDiffer)))
  }

  /** checkValidity(f) on page d: the flag it returns and the page it leaves. */
  function ValidityStep(value: Inputs, d: Page, f: FieldId): (Flag, Page) {
    match f
    case Username =>
      var v := UsernameVerdict(Trim(value.username));
      (Returned(v), d.Set(Username, d.username.Showing(v)))
    case Email =>
      var v := EmailVerdict(Trim(value.email));
      (Returned(v), d.Set(Email, d.email.Showing(v)))
    case Password =>
      PasswordStep(Trim(value.password), Trim(value.confirm), d)
    case ConfirmPassword =>
      (Undefined, d)
  }

  /** One element of checkRequired's forEach: field f, with the running flag. */
  function RequiredStep(value: Inputs, flag: Flag, d: Page, f: FieldId): (Flag, Page)
  {
    if Blank(value.Get(f)) then
      if f == ConfirmPassword then (flag, d)
      else (False, d.Set(f, d.Get(f).WithError(RequiredMessage(f))))
    else
      var step := ValidityStep(value, d, f);
      (if flag.LooselyEqualsFalse() then False else step.0, step.1)
  }

  /** The flag and the page after the first k elements of checkRequired's forEach. */
  function PassAfter(value: Inputs, d: Page, k: nat): (r: (Flag, Page))
    requires k <= |Fields|
  {
    if k == 0 then (True, d)
    else
      var before := PassAfter(value, d, k - 1);
      RequiredStep(value, before.0, before.1, Fields[k - 1])
  }

  /** checkRequired over the four fields: what it returns and the page it leaves. */
  function RunPass(value: Inputs, d: Page): (r: (Flag, Page))
  {
    PassAfter(value, d, |Fields|)
  }

  // ---------------------------------------------------------------------------
  // The page state, updated in place

  class Form {
    /** `input.value` of each field; a pass reads them and never changes them. */
    const value: Inputs
    /** What each field shows. */
    var page: Page

    /** A form whose inputs hold `value` and whose page shows `shown`. */
    constructor (value: Inputs, shown: Page)
      ensures this.value == value && page == shown
    {
      this.value := value;
      page := shown;
    }

    /** showError: f's group becomes `error` and its `small` shows the text; nothing
        else on the page changes. */
    method ShowError(f: FieldId, text: string)
      modifies this
      ensures page == old(page).Set(f, FieldView(Error, text, old(page).Get(f).styles))
    {
      page := page.Set(f, page.Get(f).WithError(text));
    }

    /** showSuccess: f's group becomes `success`; its `small` keeps its old text and
        nothing else on the page changes. */
    method ShowSuccess(f: FieldId)
      modifies this
      ensures page == old(page).Set(f, FieldView(Success, old(page).Get(f).message, old(page).Get(f).styles))
    {
      page := page.Set(f, page.Get(f).WithSuccess());
    }

    /** `input.classList.add(s)` */
    method AddStyle(f: FieldId, s: Style)
      modifies this
      ensures page == old(page).Set(f, old(page).Get(f).(styles := old(page).Get(f).styles + {s}))
    {
      page := page.Set(f, page.Get(f).WithStyle(s));
    }

    /** checkUsername */
    method CheckUsername() returns (r: Flag)
      modifies this
      ensures (r, page) == ValidityStep(value, old(page), Username)
    {
      var v := Trim(value.Get(Username));
      var hasLetters := HasLetters(v);
      var hasNumbers := HasNumbers(v);
      var hasSpecialChar := !OnlyWordChars(v);
      if ' ' in v {
        ShowError(Username, UsernameHasSpaces);
        r := Undefined;
      } else if |v| < 3 || |v| > 16 {
        AddStyle(Username, LongMessage);
        ShowError(Username, UsernameBadLength);
        r := Undefined;
      } else if hasSpecialChar {
        ShowError(Username, UsernameHasSpecial);
        r := Undefined;
      } else if !(hasLetters && hasNumbers) {
        ShowError(Username, UsernameNeedsMix);
        r := Undefined;
      } else {
        ShowSuccess(Username);
        r := True;
      }
    }

    /** checkEmail */
    method CheckEmail() returns (r: Flag)
      modifies this
      ensures (r, page) == ValidityStep(value, old(page), Email)
    {
      var v := Trim(value.Get(Email));
      if !EmailPattern(v) {
        ShowError(Email, EmailInvalid);
        r := Undefined;
      } else {
        ShowSuccess(Email);
        r := True;
      }
    }

    /** checkPassword: it also writes the confirm-password group once the comparison
        is reached. */
    method CheckPassword() returns (r: Flag)
      modifies this
      ensures (r, page) == ValidityStep(value, old(page), Password)
    {
      var v := Trim(value.Get(Password));
      if ' ' in v {
        ShowError(Password, PasswordHasSpaces);
        r := Undefined;
      } else if !StrengthPattern(v) {
        AddStyle(Password, LongerMessage);
        ShowError(Password, PasswordTooWeak);
        r := Undefined;
      } else {
        var confirmPass := Trim(value.Get(ConfirmPassword));
        if confirmPass == v {
          ShowSuccess(ConfirmPassword);
          ShowSuccess(Password);
          r := True;
        } else {
          ShowError(Password, PasswordsDiffer);
          ShowError(ConfirmPassword, PasswordsDiffer);
          r := Undefined;
        }
      }
    }

    /** checkValidity: dispatch on the field; confirm-password has no branch and gets
        `undefined`. */
    method CheckValidity(f: FieldId) returns (r: Flag)
      modifies this
      ensures (r, page) == ValidityStep(value, old(page), f)
    {
      if f == Username {
        r := CheckUsername();
        return;
      }
      if f == Email {
        r := CheckEmail();
        return;
      }
      if f == Password {
        r := CheckPassword();
        return;
      }
      r := Undefined;
    }

    /** checkRequired: the forEach over the four fields in order, keeping the running flag. */
    method CheckRequired() returns (isValid: Flag)
      modifies this
      ensures (isValid, page) == RunPass(value, old(page))
    {
      isValid := True;
      for k := 0 to |Fields|
        invariant (isValid, page) == PassAfter(value, old(page), k)
      {
        var input := Fields[k];
        if Trim(value.Get(input)) == [] {
          if input == ConfirmPassword {
            continue;
          }
          ShowError(input, RequiredMessage(input));
          isValid := False;
        } else {
          if isValid.LooselyEqualsFalse() {
            var ignored := CheckValidity(input);
            isValid := False;
          } else {
            isValid := CheckValidity(input);
          }
        }
      }
    }
  }

  // ---------------------------------------------------------------------------
  // What a pass shows, field by field

  /** The verdict a pass shows on a field other than confirm-password: "is required"
      when the field is blank, otherwise the verdict of its own check. */
  function FieldVerdict(value: Inputs, f: FieldId): Verdict
    requires f != ConfirmPassword
  {
    if Blank(value.Get(f)) then Fail(RequiredMessage(f), None)
    else match f
      case Username => UsernameVerdict(Trim(value.Get(Username)))
      case Email => EmailVerdict(Trim(value.Get(Email)))
      case Password => PasswordVerdict(Trim(value.Get(Password)), Trim(value.Get(ConfirmPassword)))
  }

  /** What a pass shows on confirm-password: only what checkPassword writes there,
      and only when the password is not blank. */
  function ConfirmEffect(value: Inputs): Option<Verdict>
  {
    if Blank(value.Get(Password)) then None
    else ConfirmVerdict(Trim(value.Get(Password)), Trim(value.Get(ConfirmPassword)))
  }

  /** One element of checkRequired's forEach writes its own field, and checkPassword
      also confirm-password; the running flag has no say in what is shown. */
  lemma StepShows(value: Inputs, flag: Flag, d: Page, f: FieldId)
    ensures var e := RequiredStep(value, flag, d, f).1;
      && (f != ConfirmPassword ==> e.Get(f) == d.Get(f).Showing(FieldVerdict(value, f)))
      && (f == ConfirmPassword ==> e == d)
      && (f == Password ==> e.Get(ConfirmPassword) == match ConfirmEffect(value)
                                                   case None => d.Get(ConfirmPassword)
                                                   case Some(w) => d.Get(ConfirmPassword).Showing(w))
      && (forall g | g != f && !(f == Password && g == ConfirmPassword) :: e.Get(g) == d.Get(g))
  {
  }

  /** After a pass every field other than confirm-password shows its own verdict, which
      depends on its own value alone (the password's also on the confirmation), and
      confirm-password shows only what checkPassword wrote there. */
  lemma PassShowsEachField(value: Inputs, d: Page)
    ensures forall f | f != ConfirmPassword ::
      RunPass(value, d).1.Get(f) == d.Get(f).Showing(FieldVerdict(value, f))
    ensures RunPass(value, d).1.Get(ConfirmPassword) == match ConfirmEffect(value)
      case None => d.Get(ConfirmPassword)
      case Some(w) => d.Get(ConfirmPassword).Showing(w)
  {
    var s0 := PassAfter(value, d, 0);
    var s1 := PassAfter(value, d, 1);
    var s2 := PassAfter(value, d, 2);
    var s3 := PassAfter(value, d, 3);
    var s4 := PassAfter(value, d, 4);
    StepShows(value, s0.0, s0.1, Username);
    StepShows(value, s1.0, s1.1, Email);
    StepShows(value, s2.0, s2.1, Password);
    StepShows(value, s3.0, s3.1, ConfirmPassword);
  }

  // ---------------------------------------------------------------------------
  // What checkRequired returns

  /** The flag bookkeeping of one element: once `false`, the flag stays `false`;
      `undefined` is no different from `true` for a field that is checked, so a later
      passing field sets it back to `true`; and the page does not depend on the flag. */
  lemma FlagBookkeeping(value: Inputs, d: Page, f: FieldId)
    ensures RequiredStep(value, False, d, f).0 == False
    ensures !Blank(value.Get(f)) ==> RequiredStep(value, Undefined, d, f) == RequiredStep(value, True, d, f)
    ensures forall flag :: RequiredStep(value, flag, d, f).1 == RequiredStep(value, True, d, f).1
  {
  }

  /** What the checks return: never `false`; `undefined` for confirm-password; `true`
      from checkPassword only for a password equal to its confirmation, and as written
      never, since the strength pattern matches nothing. */
  lemma ValidityFlag(value: Inputs, d: Page, f: FieldId)
    ensures ValidityStep(value, d, f).0 != False
    ensures f == ConfirmPassword ==> ValidityStep(value, d, f).0 == Undefined
    ensures f == Password && ValidityStep(value, d, f).0 == True
      ==> Trim(value.Get(ConfirmPassword)) == Trim(value.Get(Password))
    ensures f == Password ==> ValidityStep(value, d, f).0 == Undefined
  {
    StrengthPatternNeverMatches(Trim(value.password));
  }

  /** checkRequired returns `false` exactly when username, email or password is blank,
      and `undefined` otherwise; it never returns `true`, whatever the strength pattern
      accepts. */
  lemma PassFlag(value: Inputs, d: Page)
    ensures RunPass(value, d).0
      == if Blank(value.Get(Username)) || Blank(value.Get(Email)) || Blank(value.Get(Password)) then False
         else Undefined
  {
    var s0 := PassAfter(value, d, 0);
    var s1 := PassAfter(value, d, 1);
    var s2 := PassAfter(value, d, 2);
    var s3 := PassAfter(value, d, 3);
    ValidityFlag(value, s0.1, Username);
    ValidityFlag(value, s1.1, Email);
    ValidityFlag(value, s2.1, Password);
    ValidityFlag(value, s3.1, ConfirmPassword);
    if s3.0 != False && Blank(value.Get(ConfirmPassword)) {
      TrimEmptyIff(value.Get(Password));
      assert s3.0 != True;
    }
  }

  /** The success alert after checkRequired never fires. */
  lemma PassNeverAccepts(value: Inputs, d: Page)
    ensures !RunPass(value, d).0.Truthy()
  {
    PassFlag(value, d);
  }

  /** A failing check does not stick: a username that fails leaves `undefined`, and a
      valid email after it sets the flag back to `true`. */
  lemma LaterFieldRestoresTrue(d: Page)
    ensures var value := Inputs("ab", "a@b.co", "", "");
      PassAfter(value, d, 1).0 == Undefined && PassAfter(value, d, 2).0 == True
  {
    assert Trim("ab") == "ab";
    assert Trim("a@b.co") == "a@b.co";
    EmailAccepted();
  }

  // ---------------------------------------------------------------------------
  // Re-validation and the code as written

  /** A second pass over unchanged values shows what the first one did and returns the
      same flag: nothing of the first pass accumulates. */
  lemma PassIdempotent(value: Inputs, d: Page)
    ensures RunPass(value, RunPass(value, d).1) == RunPass(value, d)
  {
    var e1 := RunPass(value, d).1;
    var e2 := RunPass(value, e1).1;
    PassShowsEachField(value, d);
    PassShowsEachField(value, e1);
    PassFlag(value, d);
    PassFlag(value, e1);
    assert e2.Get(Username) == e1.Get(Username);
    assert e2.Get(Email) == e1.Get(Email);
    assert e2.Get(Password) == e1.Get(Password);
    assert e2.Get(ConfirmPassword) == e1.Get(ConfirmPassword);
  }

  /** As written, a pass never touches confirm-password and marks the password in error:
      "is required" when blank, otherwise the space or the strength message, the latter
      with `longer-message`. From a neutral confirm-password group, it stays neutral. */
  lemma PassAsWritten(value: Inputs, d: Page)
    ensures RunPass(value, d).1.Get(ConfirmPassword) == d.Get(ConfirmPassword)
    ensures RunPass(value, d).1.Get(Password).status == Error
    ensures !Blank(value.Get(Password)) && ' ' !in Trim(value.Get(Password)) ==>
      RunPass(value, d).1.Get(Password).message == PasswordTooWeak
      && LongerMessage in RunPass(value, d).1.Get(Password).styles
    ensures d.Get(ConfirmPassword).status == Neutral ==> RunPass(value, d).1.Get(ConfirmPassword).status == Neutral
  {
    PassShowsEachField(value, d);
    PasswordAlwaysRejected(Trim(value.Get(Password)), Trim(value.Get(ConfirmPassword)));
  }
}
