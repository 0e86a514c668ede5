/** The per-field rules of the registration form (script.js): field ids, `trim`,
    `formatFieldName`, and the three patterns the username, email and password
    checks test, written as predicates over strings. Each check's outcome for one
    field is a `Verdict`; what the checks do to the page is in FormValidation. */
module FieldRules {

  datatype Option<T> = None | Some(value: T)

  /** The four inputs, in the order the submit handler passes them to checkRequired. */
  datatype FieldId = Username | Email | Password | ConfirmPassword {
    /** The element id of the input. */
    function Id(): string {
      match this
      case Username => "username"
      case Email => "email"
      case Password => "password"
      case ConfirmPassword => "confirm-password"
    }
  }

  const Fields: seq<FieldId> := [Username, Email, Password, ConfirmPassword]

  /** The classes some failing checks add to the input's classList. */
  datatype Style = LongMessage | LongerMessage {
    function ClassName(): string {
      match this
      case LongMessage => "long-message"
      case LongerMessage => "longer-message"
    }
  }

  /** What one check decides about its own field: success, or an error message and
      possibly a style class to add to the input. */
  datatype Verdict = Pass | Fail(message: string, style: Option<Style>)

  // ---------------------------------------------------------------------------
  // Characters

  /** The characters `String.prototype.trim` strips: white space and line terminators. */
  predicate IsWhitespace(c: char) {
    c in {'\t', '\n', '\U{000B}', '\U{000C}', '\r', ' ', '\U{00A0}', '\U{1680}',
          '\U{2028}', '\U{2029}', '\U{202F}', '\U{205F}', '\U{3000}', '\U{FEFF}'}
    || ('\U{2000}' <= c <= '\U{200A}')
  }

  /** The characters `.` does not match in a pattern without the s flag. */
  predicate IsLineTerminator(c: char) {
    c in {'\n', '\r', '\U{2028}', '\U{2029}'}
  }

  predicate IsLowerAscii(c: char) { 'a' <= c <= 'z' }
  predicate IsUpperAscii(c: char) { 'A' <= c <= 'Z' }
  /** `[a-zA-Z]` */
  predicate IsAsciiLetter(c: char) { IsLowerAscii(c) || IsUpperAscii(c) }
  /** `[0-9]`, also `\d` */
  predicate IsAsciiDigit(c: char) { '0' <= c <= '9' }
  /** `[a-zA-Z0-9_]` */
  predicate IsWordChar(c: char) { IsAsciiLetter(c) || IsAsciiDigit(c) || c == '_' }
  /** `[a-zA-Z0-9._%+-]`, the local part of an address */
  predicate IsLocalChar(c: char) { IsAsciiLetter(c) || IsAsciiDigit(c) || c in {'.', '_', '%', '+', '-'} }
  /** `[a-zA-Z0-9.-]`, the domain of an address */
  predicate IsDomainChar(c: char) { IsAsciiLetter(c) || IsAsciiDigit(c) || c in {'.', '-'} }
  /** `[@$!%*?&]`, the special characters a password needs */
  predicate IsSymbol(c: char) { c in {'@', '$', '!', '%', '*', '?', '&'} }

  function ToUpperAscii(c: char): char {
    if IsLowerAscii(c) then (c as int - 32) as char else c
  }

  // ---------------------------------------------------------------------------
  // trim

  function TrimStart(s: string): (r: string)
    ensures |r| <= |s|
    ensures forall i | 0 <= i < |s| - |r| :: IsWhitespace(s[i])
    ensures r == [] || !IsWhitespace(r[0])
  {
    if s != [] && IsWhitespace(s[0]) then TrimStart(s[1..]) else s
  }

  function TrimEnd(s: string): (r: string)
    ensures |r| <= |s|
    ensures forall i | |r| <= i < |s| :: IsWhitespace(s[i])
    ensures r == [] || !IsWhitespace(r[|r| - 1])
  {
    if s != [] && IsWhitespace(s[|s| - 1]) then TrimEnd(s[..|s| - 1]) else s
  }

  /** What TrimStart keeps is a suffix of s. */
  lemma {:induction false} TrimStartIsSuffix(s: string)
    ensures TrimStart(s) == s[|s| - |TrimStart(s)|..]
  {
    if s != [] && IsWhitespace(s[0]) {
      TrimStartIsSuffix(s[1..]);
      assert s[1..][|s[1..]| - |TrimStart(s)|..] == s[|s| - |TrimStart(s)|..];
    }
  }

  /** What TrimEnd keeps is a prefix of s. */
  lemma {:induction false} TrimEndIsPrefix(s: string)
    ensures TrimEnd(s) == s[..|TrimEnd(s)|]
  {
    if s != [] && IsWhitespace(s[|s| - 1]) {
      TrimEndIsPrefix(s[..|s| - 1]);
      assert s[..|s| - 1][..|TrimEnd(s)|] == s[..|TrimEnd(s)|];
    }
  }

  /** `s.trim()`: the longest infix of s that neither starts nor ends with white space,
      once all the white space around it is dropped. */
  function Trim(s: string): string {
    TrimEnd(TrimStart(s))
  }

  /** A trimmed value is `''` exactly when the raw value is all white space. */
  lemma TrimEmptyIff(s: string)
    ensures Trim(s) == [] <==> forall i | 0 <= i < |s| :: IsWhitespace(s[i])
  {
    TrimStartIsSuffix(s);
  }

  /** A trimmed value starts and ends with a non-space, is an infix of the raw value,
      and trimming it again changes nothing. */
  lemma TrimShape(s: string)
    ensures Trim(s) == [] || (!IsWhitespace(Trim(s)[0]) && !IsWhitespace(Trim(s)[|Trim(s)| - 1]))
    ensures exists i, j | 0 <= i <= j <= |s| :: Trim(s) == s[i..j]
    ensures Trim(Trim(s)) == Trim(s)
  {
    var t := TrimStart(s);
    var r := TrimEnd(t);
    var i := |s| - |t|;
    TrimStartIsSuffix(s);
    TrimEndIsPrefix(t);
    assert r == s[i..i + |r|];
    if r != [] {
      assert r[0] == t[0];
    }
  }

  // ---------------------------------------------------------------------------
  // formatFieldName

  /** `id.charAt(0).toUpperCase() + id.slice(1)`: the id with its first letter in upper case. */
  function FormatFieldName(id: string): (r: string)
    ensures |r| == |id|
    ensures forall i | 0 < i < |id| :: r[i] == id[i]
    ensures |id| > 0 && IsLowerAscii(id[0]) ==> IsUpperAscii(r[0]) && r[0] as int == id[0] as int - 32
    ensures |id| > 0 && !IsLowerAscii(id[0]) ==> r[0] == id[0]
  {
    if id == [] then [] else [ToUpperAscii(id[0])] + id[1..]
  }

  /** The text shown for an empty required field. */
  function RequiredMessage(f: FieldId): string {
    FormatFieldName(f.Id()) + " is required"
  }

  /** The capitalised ids: "Username", "Email", "Password" and "Confirm-password". */
  lemma FieldNames(f: FieldId)
    ensures FormatFieldName(f.Id()) == match f
      case Username => "Username"
      case Email => "Email"
      case Password => "Password"
      case ConfirmPassword => "Confirm-password"
  {
    match f
    case Username => assert ToUpperAscii('u') == 'U';
    case Email => assert ToUpperAscii('e') == 'E';
    case Password => assert ToUpperAscii('p') == 'P';
    case ConfirmPassword => assert ToUpperAscii('c') == 'C';
  }

  // ---------------------------------------------------------------------------
  // checkUsername

  const UsernameHasSpaces := "Username must not contain spaces"
  const UsernameBadLength := "Username must be a minimum of 3 and maximum of 16 characters"
  const UsernameHasSpecial := "Username must not contain special characters"
  const UsernameNeedsMix := "Username must contain both letters and numbers"

  /** `/[a-zA-Z]/.test(v)` */
  predicate HasLetters(v: string) { exists i | 0 <= i < |v| :: IsAsciiLetter(v[i]) }
  /** `/[0-9]/.test(v)` */
  predicate HasNumbers(v: string) { exists i | 0 <= i < |v| :: IsAsciiDigit(v[i]) }
  /** `/^[a-zA-Z0-9_]+$/.test(v)` */
  predicate OnlyWordChars(v: string) { |v| > 0 && forall i | 0 <= i < |v| :: IsWordChar(v[i]) }

  /** The username rule chain, applied to the trimmed value: the first rule that fails decides. */
  function UsernameVerdict(v: string): Verdict {
    if ' ' in v then Fail(UsernameHasSpaces, None)
    else if |v| < 3 || |v| > 16 then Fail(UsernameBadLength, Some(LongMessage))
    else if !OnlyWordChars(v) then Fail(UsernameHasSpecial, None)
    else if !(HasLetters(v) && HasNumbers(v)) then Fail(UsernameNeedsMix, None)
    else Pass
  }

  /** Each message is given exactly when its rule is the first that fails; the value
      passes exactly when no rule fails. */
  lemma UsernameRuleOrder(v: string)
    ensures UsernameVerdict(v) == Fail(UsernameHasSpaces, None) <==> ' ' in v
    ensures UsernameVerdict(v) == Fail(UsernameBadLength, Some(LongMessage))
        <==> ' ' !in v && (|v| < 3 || |v| > 16)
    ensures UsernameVerdict(v) == Fail(UsernameHasSpecial, None)
        <==> ' ' !in v && 3 <= |v| <= 16 && exists i | 0 <= i < |v| :: !IsWordChar(v[i])
    ensures UsernameVerdict(v) == Fail(UsernameNeedsMix, None)
        <==> ' ' !in v && 3 <= |v| <= 16 && OnlyWordChars(v) && !(HasLetters(v) && HasNumbers(v))
    ensures UsernameVerdict(v) == Pass
        <==> ' ' !in v && 3 <= |v| <= 16 && OnlyWordChars(v) && HasLetters(v) && HasNumbers(v)
  {
    assert |UsernameHasSpaces| == 32 && |UsernameBadLength| == 60;
    assert |UsernameHasSpecial| == 44 && |UsernameNeedsMix| == 46;
  }

  /** Only the length rule adds `long-message`, and it does so exactly when the length is
      outside 3..16 and there is no space. */
  lemma UsernameLongMessage(v: string)
    ensures UsernameVerdict(v).Fail? && UsernameVerdict(v).style == Some(LongMessage)
        <==> ' ' !in v && (|v| < 3 || |v| > 16)
    ensures UsernameVerdict(v).Fail? && UsernameVerdict(v).style != Some(LongMessage)
        ==> UsernameVerdict(v).style == None
  {
  }

  /** The boundaries of the length rule: 3 and 16 pass it, 2 and 17 fail it. */
  lemma UsernameLengthBounds()
    ensures UsernameVerdict("abc") != Fail(UsernameBadLength, Some(LongMessage))
    ensures UsernameVerdict("abcdefghijklmnop") != Fail(UsernameBadLength, Some(LongMessage))
    ensures UsernameVerdict("ab") == Fail(UsernameBadLength, Some(LongMessage))
    ensures UsernameVerdict("abcdefghijklmnopq") == Fail(UsernameBadLength, Some(LongMessage))
  {
    UsernameRuleOrder("abc");
    UsernameRuleOrder("abcdefghijklmnop");
  }

  /** Username examples. */
  lemma UsernameExamples()
    ensures UsernameVerdict("user name") == Fail(UsernameHasSpaces, None)
    ensures UsernameVerdict("user@123") == Fail(UsernameHasSpecial, None)
    ensures UsernameVerdict("username") == Fail(UsernameNeedsMix, None)
    ensures UsernameVerdict("abc123") == Pass
  {
    var v := "user@123";
    assert !IsWordChar(v[4]);
    var u := "username";
    assert OnlyWordChars(u) && !HasNumbers(u);
    var w := "abc123";
    assert IsAsciiLetter(w[0]) && IsAsciiDigit(w[3]);
  }

  // ---------------------------------------------------------------------------
  // checkEmail

  const EmailInvalid := "Email must be valid"

  /** v is `L@D.T` with the `@` at `at` and the `.` at `dot`: L one or more of
      `[a-zA-Z0-9._%+-]`, D one or more of `[a-zA-Z0-9.-]`, T two or more letters. */
  predicate EmailMatchAt(v: string, at: int, dot: int) {
    0 < at && at + 1 < dot && dot + 2 < |v|
    && (forall k | 0 <= k < at :: IsLocalChar(v[k]))
    && v[at] == '@'
    && (forall k | at < k < dot :: IsDomainChar(v[k]))
    && v[dot] == '.'
    && (forall k | dot < k < |v| :: IsAsciiLetter(v[k]))
  }

  /** `/^[a-zA-Z0-9._%+-]+@[a-zA-Z0-9.-]+\.[a-zA-Z]{2,}$/.test(v)` */
  predicate EmailPattern(v: string) {
    exists at, dot | 0 <= at < dot < |v| :: EmailMatchAt(v, at, dot)
  }

  function EmailVerdict(v: string): Verdict {
    if EmailPattern(v) then Pass else Fail(EmailInvalid, None)
  }

  /** `s.indexOf(c)`: the first position of c, or -1. */
  function IndexOf(s: string, c: char): (r: int)
    ensures -1 <= r < |s|
    ensures r >= 0 ==> s[r] == c
    ensures forall k | 0 <= k < |s| && (r < 0 || k < r) :: s[k] != c
  {
    if s == [] then -1
    else if s[0] == c then 0
    else var r := IndexOf(s[1..], c); if r < 0 then -1 else r + 1
  }

  /** `s.lastIndexOf(c)`: the last position of c, or -1. */
  function LastIndexOf(s: string, c: char): (r: int)
    ensures -1 <= r < |s|
    ensures r >= 0 ==> s[r] == c
    ensures forall k | r < k < |s| :: s[k] != c
  {
    if s == [] then -1
    else if s[|s| - 1] == c then |s| - 1
    else LastIndexOf(s[..|s| - 1], c)
  }

  /** The split of a matching address is forced: the `@` is the only `@` in v, and the
      `.` before the top-level domain is the last `.` in v, not right after the `@`. */
  lemma EmailSplitIsForced(v: string, at: int, dot: int)
    requires EmailMatchAt(v, at, dot)
    ensures forall k | 0 <= k < |v| && k != at :: v[k] != '@'
    ensures at == IndexOf(v, '@') && dot == LastIndexOf(v, '.')
  {
    forall k | 0 <= k < |v| && k != at ensures v[k] != '@' {
      if k < at {
        assert IsLocalChar(v[k]);
      } else if k < dot {
        assert IsDomainChar(v[k]);
      } else if k > dot {
        assert IsAsciiLetter(v[k]);
      }
    }
    var i := IndexOf(v, '@');
    assert i == at;
  }

  /** The pattern accepts v exactly when v splits as `L@D.T` at its first `@` and its
      last `.`: exactly one `@`, T after the last `.`, and that `.` not right after the `@`. */
  lemma EmailPatternIff(v: string)
    ensures EmailPattern(v) <==> EmailMatchAt(v, IndexOf(v, '@'), LastIndexOf(v, '.'))
  {
    if EmailPattern(v) {
      var at, dot :| 0 <= at < dot < |v| && EmailMatchAt(v, at, dot);
      EmailSplitIsForced(v, at, dot);
    }
    if EmailMatchAt(v, IndexOf(v, '@'), LastIndexOf(v, '.')) {
      var at, dot := IndexOf(v, '@'), LastIndexOf(v, '.');
      assert 0 <= at < dot < |v| && EmailMatchAt(v, at, dot);
    }
  }

  /** Email examples the pattern accepts. */
  lemma EmailAccepted()
    ensures EmailVerdict("a@b.co") == Pass
    ensures EmailVerdict("user@example.com") == Pass
  {
    assert EmailMatchAt("a@b.co", 1, 3);
    assert EmailMatchAt("user@example.com", 4, 12);
  }

  /** An address without `@`, and one whose last `.` follows the `@` directly. */
  lemma EmailRejected()
    ensures EmailVerdict("not-an-email") == Fail(EmailInvalid, None)
    ensures EmailVerdict("a@.co") == Fail(EmailInvalid, None)
  {
    var v := "not-an-email";
    forall at, dot | 0 <= at < dot < |v| ensures !EmailMatchAt(v, at, dot) {
      assert v[at] != '@';
    }
    var w := "a@.co";
    forall at, dot | 0 <= at < dot < |w| ensures !EmailMatchAt(w, at, dot) {
      if at + 1 < dot && w[at] == '@' && w[dot] == '.' {
        assert at == 1;
      }
    }
  }

  // ---------------------------------------------------------------------------
  // checkPassword

  const PasswordHasSpaces := "Password must not contain spaces"
  const PasswordTooWeak := "Password must be 8 characters long and must have an uppercase and lowercase letter, number, and a special character"
  const PasswordsDiffer := "Passwords don't match"

  /** The character classes the password lookaheads look for. */
  datatype CharClass = Lower | Upper | Digit | Symbol {
    predicate Contains(c: char) {
      match this
      case Lower => IsLowerAscii(c)
      case Upper => IsUpperAscii(c)
      case Digit => IsAsciiDigit(c)
      case Symbol => IsSymbol(c)
    }
  }

  /** Where `.*` started at p must stop: the first line terminator at or after p, or the
      end of v. */
  function LineEnd(v: string, p: nat): (r: nat)
    requires p <= |v|
    ensures p <= r <= |v|
    ensures forall j | p <= j < r :: !IsLineTerminator(v[j])
    ensures r == |v| || IsLineTerminator(v[r])
    decreases |v| - p
  {
    if p == |v| || IsLineTerminator(v[p]) then p else LineEnd(v, p + 1)
  }

  /** `(?=.*[cls])` at position p: a character of cls at or after p and before the line
      terminator `.*` stops at. It consumes nothing. */
  predicate LookaheadAt(v: string, p: nat, cls: CharClass) {
    p <= |v| && exists k | p <= k < LineEnd(v, p) :: cls.Contains(v[k])
  }

  /** n iterations of the zero-width `(?=.*[cls])`: each starts, and ends, at p. */
  predicate LookaheadRepeated(v: string, p: nat, cls: CharClass, n: nat) {
    n == 0 || (LookaheadAt(v, p, cls) && LookaheadRepeated(v, p, cls, n - 1))
  }

  /** The atoms of a pattern that consumes no character: `^`, a lookahead `(?=.*[cls])`,
      a lookahead repeated at least `min` times, and `$`. */
  datatype Atom = Begin | Ahead(cls: CharClass) | AheadAtLeast(cls: CharClass, min: nat) | End

  /** `^(?=.*[a-z])(?=.*[A-Z])(?=.*\d)(?=.*[@$!%*?&]){8,}$`: the `{8,}` quantifies only the
      last lookahead, so no atom of the pattern consumes a character. */
  const StrengthAtoms: seq<Atom> :=
    [Begin, Ahead(Lower), Ahead(Upper), Ahead(Digit), AheadAtLeast(Symbol, 8), End]

  /** Whether a zero-width atom holds at position p. */
  predicate AtomHolds(v: string, a: Atom, p: nat) {
    match a
    case Begin => p == 0
    case Ahead(cls) => LookaheadAt(v, p, cls)
    case AheadAtLeast(cls, min) => LookaheadRepeated(v, p, cls, min)
    case End => p == |v|
  }

  /** A sequence of zero-width atoms matches at p when each holds at p in turn: none
      moves the position the next one starts from. */
  predicate AtomsHoldAt(v: string, atoms: seq<Atom>, p: nat)
    decreases |atoms|
  {
    atoms == [] || (AtomHolds(v, atoms[0], p) && AtomsHoldAt(v, atoms[1..], p))
  }

  /** `/^(?=.*[a-z])(?=.*[A-Z])(?=.*\d)(?=.*[@$!%*?&]){8,}$/.test(v)`: some start position
      at which the pattern's atoms all hold. */
  predicate StrengthPattern(v: string) {
    exists p: nat | p <= |v| :: AtomsHoldAt(v, StrengthAtoms, p)
  }

  /** When a sequence of zero-width atoms holds at p, each of its atoms holds at p ... */
  lemma {:induction false} AtomsHoldEach(v: string, atoms: seq<Atom>, p: nat, i: nat)
    requires AtomsHoldAt(v, atoms, p) && i < |atoms|
    ensures AtomHolds(v, atoms[i], p)
  {
    if i > 0 {
      AtomsHoldEach(v, atoms[1..], p, i - 1);
    }
  }

  /** ... and conversely. */
  lemma {:induction false} AtomsHoldAll(v: string, atoms: seq<Atom>, p: nat)
    requires forall i | 0 <= i < |atoms| :: AtomHolds(v, atoms[i], p)
    ensures AtomsHoldAt(v, atoms, p)
  {
    if atoms != [] {
      assert AtomHolds(v, atoms[0], p);
      forall i | 0 <= i < |atoms[1..]| ensures AtomHolds(v, atoms[1..][i], p) {
        assert atoms[1..][i] == atoms[i + 1];
      }
      AtomsHoldAll(v, atoms[1..], p);
    }
  }

  /** The strength pattern matches nothing: `^` and `$` together force the empty string,
      and the first lookahead needs a character. */
  lemma StrengthPatternNeverMatches(v: string)
    ensures !StrengthPattern(v)
  {
    if StrengthPattern(v) {
      var p: nat :| p <= |v| && AtomsHoldAt(v, StrengthAtoms, p);
      AtomsHoldEach(v, StrengthAtoms, p, 0);
      AtomsHoldEach(v, StrengthAtoms, p, 1);
      AtomsHoldEach(v, StrengthAtoms, p, 5);
      assert false;
    }
  }

  /** What checkPassword shows on the password input, for the trimmed password p and
      trimmed confirmation c. */
  function PasswordVerdict(p: string, c: string): Verdict {
    if ' ' in p then Fail(PasswordHasSpaces, None)
    else if !StrengthPattern(p) then Fail(PasswordTooWeak, Some(LongerMessage))
    else if c == p then Pass
    else Fail(PasswordsDiffer, None)
  }

  /** What checkPassword shows on the confirm-password input: nothing unless the
      comparison is reached. */
  function ConfirmVerdict(p: string, c: string): Option<Verdict> {
    if ' ' in p || !StrengthPattern(p) then None
    else if c == p then Some(Pass)
    else Some(Fail(PasswordsDiffer, None))
  }

  /** As written, every password is rejected: with a space by the space rule, otherwise
      by the strength rule with `longer-message`; the comparison with the confirmation
      is never reached, so the confirm-password input is never written. */
  lemma PasswordAlwaysRejected(p: string, c: string)
    ensures PasswordVerdict(p, c) == if ' ' in p then Fail(PasswordHasSpaces, None)
                                     else Fail(PasswordTooWeak, Some(LongerMessage))
    ensures ConfirmVerdict(p, c) == None
  {
    StrengthPatternNeverMatches(p);
  }
}
