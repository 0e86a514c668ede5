# Registration form validation, modelled in Dafny

The model covers the validation engine in `script.js`, which runs when the
registration form is submitted.

- `checkRequired` walks the four inputs in a fixed order: username, email,
  password, confirm-password. A field that is blank after `trim()` gets
  "<Id> is required". Confirm-password is the exception: a blank one is skipped.
- Every other field goes through `checkValidity`, which dispatches to
  `checkUsername`, `checkEmail` or `checkPassword`.
- The checks write each field's form-group class and message through
  `showError` and `showSuccess`. Some of them also add `long-message` or
  `longer-message` to the input's class list.
- `checkRequired` keeps a running flag `isValid`. The flag can be `true`,
  `false` or `undefined`, and the submit handler's success alert depends on it.

Three modules:

- `FieldRules` (`rules.dfy`): the pure part.
  - Field ids, `trim`, `formatFieldName` and the messages.
  - Each check's rule chain, as a `Verdict`: pass, or a message and possibly a style.
  - The three patterns, as hand-written predicates over strings.
  - The strength pattern of line 109 is encoded with its literal structure: a
    list of zero-width atoms (`^`, the lookaheads, the `{8,}`-quantified
    lookahead, `$`) that must all hold at one position.
- `FormValidation` (`form.dfy`): the imperative part.
  - Class `Form` holds the input values and the page: what each field shows
    (group status, message text and input classes).
  - Its methods `ShowError`, `ShowSuccess`, `AddStyle`, the three checks,
    `CheckValidity` and `CheckRequired` update the page in place.
  - `CheckRequired` is a loop over the four fields that keeps the three-valued flag.
  - Each method is proved against a function: `ValidityStep` for one check,
    `PassAfter`/`RunPass` for the loop.
  - Lemmas about those functions state what a pass shows and what it returns.
- `IntendedRules` (`intended.dfy`): the corrected halves of the two findings below.
  - The strength pattern the code evidently means, and a `checkRequired` flag
    that is `true` exactly when every field passes.
  - `Form` itself follows the code as written. The corrected rules are stated
    beside it and proved on their own, so the model does not hide the two defects.

The flag is the datatype `Flag = True | False | Undefined`. The source's
`isValid == false` is loose equality, which holds only for `false`: `undefined`
is not loosely equal to `false`.

## Model

| member | source | states |
|---|---|---|
| FieldRules.TrimStart | script.js:26 | the kept part is no longer than the input, everything dropped from the front is white space or a line terminator, and the result does not start with one |
| FieldRules.TrimEnd | script.js:26 | the kept part is no longer than the input, everything dropped from the back is white space or a line terminator, and the result does not end with one |
| FieldRules.Trim | script.js:26 | defines `value.trim()` as trimming the back of what trimming the front keeps; TrimShape and TrimEmptyIff state what it yields |
| FieldRules.TrimStartIsSuffix | script.js:26 | what trimming the front keeps is a suffix of the value (proved by induction) |
| FieldRules.TrimEndIsPrefix | script.js:26 | what trimming the back keeps is a prefix of the value (proved by induction) |
| FieldRules.TrimEmptyIff | script.js:26 | `value.trim() === ''` holds exactly when every character of the raw value is white space or a line terminator |
| FieldRules.TrimShape | script.js:26 | a trimmed value starts and ends with a non-space, is an infix of the raw value, and trimming it again changes nothing |
| FieldRules.FormatFieldName | script.js:40-42 | the capitalised id has the id's length, keeps every character after the first, turns a lower-case first letter into its own capital and keeps any other first character |
| FieldRules.FieldNames | script.js:40-42 | the four capitalised ids are "Username", "Email", "Password" and "Confirm-password", so these are the prefixes of the "is required" messages |
| FieldRules.UsernameVerdict | script.js:79-91 | defines the username rule chain on the trimmed value: the first failing rule's message and class, else success; UsernameRuleOrder states it rule by rule |
| FieldRules.UsernameRuleOrder | script.js:72-92 | each of the four username messages is given exactly when its rule is the first to fail, in the order space, length outside 3..16, a character outside `[A-Za-z0-9_]`, missing letter or digit; the value passes exactly when no rule fails |
| FieldRules.UsernameLongMessage | script.js:81-83 | `long-message` is added exactly when the username has no space and a length outside 3..16; every other failure adds no class |
| FieldRules.UsernameLengthBounds | script.js:81 | lengths 3 and 16 pass the length rule, 2 and 17 fail it |
| FieldRules.UsernameExamples | script.js:79-91 | "user name", "user@123" and "username" get the space, special-character and letters-and-numbers messages; "abc123" passes |
| FieldRules.EmailPattern | script.js:97 | defines the email pattern as a split `L@D.T` at some `@` and some `.`; EmailPatternIff pins the split |
| FieldRules.EmailVerdict | script.js:98-103 | defines the email check's verdict: success when the pattern matches, else "Email must be valid" |
| FieldRules.EmailSplitIsForced | script.js:97 | in an address the pattern accepts, the `@` is the only `@` and sits at the first `@`, and the `.` before the top-level domain is the last `.` |
| FieldRules.EmailPatternIff | script.js:97 | the email pattern accepts exactly `L@D.T`, split at the first `@` and the last `.`: L one or more of `[A-Za-z0-9._%+-]`, D one or more of `[A-Za-z0-9.-]`, T two or more ASCII letters |
| FieldRules.EmailAccepted | script.js:97-103 | "a@b.co" and "user@example.com" pass the email check |
| FieldRules.EmailRejected | script.js:97-103 | "not-an-email" and "a@.co" get "Email must be valid" |
| FieldRules.StrengthPattern | script.js:109 | defines the strength pattern as its literal atoms `^`, three lookaheads, the `{8,}`-repeated symbol lookahead and `$`, all holding at one start position; StrengthPatternNeverMatches states that none exists |
| FieldRules.LineEnd | script.js:109 | where `.*` must stop: no line terminator lies between the start and it, and it is the end of the value or a line terminator |
| FieldRules.AtomsHoldEach | script.js:109 | when a sequence of zero-width atoms matches at a position, each of its atoms holds there (proved by induction) |
| FieldRules.AtomsHoldAll | script.js:109 | conversely, atoms that each hold at a position match there in sequence (proved by induction) |
| FieldRules.StrengthPatternNeverMatches | script.js:109 | the strength pattern as written matches no string at all |
| FieldRules.PasswordVerdict | script.js:110-125 | defines what checkPassword shows on the password input: the space message, the strength message with `longer-message`, success or "Passwords don't match", in that order |
| FieldRules.ConfirmVerdict | script.js:116-125 | defines what checkPassword shows on confirm-password: nothing unless the comparison is reached, then success or "Passwords don't match" |
| FieldRules.PasswordAlwaysRejected | script.js:106-127 | every password is rejected: one with a space gets the space message, any other gets the strength message with `longer-message`; the confirm-password comparison is never reached |
| FormValidation.PasswordStep | script.js:106-127 | defines checkPassword's flag and page, with confirm-password written before the password on success and after it on a mismatch |
| FormValidation.ValidityStep | script.js:61-70 | defines checkValidity's flag and page for each field; ValidityFlag and StepShows state what they are |
| FormValidation.RequiredStep | script.js:25-35 | defines one element of the forEach: "is required" and `false` for a blank field other than confirm-password, nothing for a blank confirm-password, else the check, with a `false` flag kept `false` |
| FormValidation.PassAfter | script.js:22-38 | defines the flag and page after the first k elements, starting from `true`; CheckRequired's loop invariant is this |
| FormValidation.RunPass | script.js:22-38 | defines checkRequired's result and page as the four elements in order; PassFlag and PassShowsEachField state what they are |
| FormValidation.Page.Set | script.js:44-59 | writing one field's view changes that field and leaves every other field as it was |
| FormValidation.Form.ShowError | script.js:44-54 | the field's group becomes `error` and shows the given text; its classes and every other field are unchanged |
| FormValidation.Form.ShowSuccess | script.js:56-59 | the field's group becomes `success`; its message and classes and every other field are unchanged |
| FormValidation.Form.AddStyle | script.js:82 | the class is added to the field's input and nothing else changes |
| FormValidation.Form.CheckUsername | script.js:72-92 | returns the flag and leaves the page that one username step of the pass specification gives |
| FormValidation.Form.CheckEmail | script.js:94-104 | returns the flag and leaves the page that one email step of the pass specification gives |
| FormValidation.Form.CheckPassword | script.js:106-127 | returns the flag and leaves the page that one password step gives, including the write to confirm-password once the comparison is reached |
| FormValidation.Form.CheckValidity | script.js:61-70 | dispatches on the field; for confirm-password it returns `undefined` and changes nothing |
| FormValidation.Form.CheckRequired | script.js:22-38 | the loop over the four fields returns the flag and leaves the page of the whole-pass specification, and its invariant ties every prefix of the loop to that specification |
| FormValidation.StepShows | script.js:25-36 | one element of the loop writes only its own field: "is required" when blank, else its check's verdict. Checking the password may also write confirm-password. Confirm-password's own element never changes the page, and the running flag has no say in what is shown |
| FormValidation.PassShowsEachField | script.js:22-38 | after a pass, username, email and password each show their own verdict, and confirm-password shows only what the password check wrote there |
| FormValidation.FlagBookkeeping | script.js:31-34 | a flag that is `false` stays `false`; for a non-blank field `undefined` behaves like `true`; the page written does not depend on the flag |
| FormValidation.ValidityFlag | script.js:61-70 | a check never returns `false`; confirm-password's returns `undefined`; the password check returns `true` only when the confirmation equals the password, and as written always returns `undefined` |
| FormValidation.PassFlag | script.js:22-38 | `checkRequired` returns `false` exactly when username, email or password is blank, and `undefined` otherwise |
| FormValidation.PassNeverAccepts | script.js:16-18 | the flag the success alert tests is never `true`, so the alert never fires |
| FormValidation.LaterFieldRestoresTrue | script.js:31-34 | a failing username leaves the flag `undefined`, and a valid email after it sets the flag back to `true` |
| FormValidation.PassIdempotent | script.js:22-38 | a second pass over unchanged values shows the same page and returns the same flag as the first |
| FormValidation.PassAsWritten | script.js:106-127 | after a pass the password group is in error, a non-blank password without spaces shows the strength message with `longer-message`, and confirm-password is left as it was |
| IntendedRules.IntendedStrengthIff | script.js:109 | the corrected pattern accepts exactly eight or more characters of `[A-Za-z0-9@$!%*?&]` with a lower-case letter, an upper-case letter, a digit and a symbol |
| IntendedRules.IntendedStrengthHasNoSpace | script.js:110-112 | a password the corrected pattern accepts has no space, so the space rule before it never hides it |
| IntendedRules.IntendedStrengthExamples | script.js:109 | "Abcdef1!" matches the corrected pattern but not the pattern as written; the seven-character "Abcde1!" matches neither |
| IntendedRules.IntendedPasswordPasses | script.js:106-127 | with the corrected pattern a password passes exactly when the pattern accepts it and the confirmation equals it; a strong password that differs gets "Passwords don't match" |
| IntendedRules.IntendedAfterFields | script.js:22-38 | the corrected flag is `true` exactly when username, email and password are non-blank and pass their checks |
| IntendedRules.IntendedAcceptsExactly | script.js:22-38 | the corrected `checkRequired` returns `true` exactly when the username passes its rule chain, the email matches its pattern, the password matches the corrected pattern and the confirmation equals the password |
| IntendedRules.IntendedAcceptsWhatCodeRejects | script.js:16-18 | for "abc123", "a@b.co", "Abcdef1!", "Abcdef1!" the corrected flag is `true`, while the code as written returns `undefined` |

## Left out

- The DOM lookups, the submit listener, `preventDefault` and the `alert` (script.js:1-9, 18) are left out. The model covers only the flag the alert tests.
- IntendedRules.IntendedStrengthPattern: follows the common form of this regex, which limits every character to `[A-Za-z0-9@$!%*?&]`. The strength message asks only for the length and the four kinds of character, so a password such as "Abcdef1!~" meets the message but not the corrected pattern.
- The `style.marginBottom` resets (script.js:13-14) are styling and have no effect on validation.
- `clearAllErrors()` (script.js:11) is not defined in `script.js`, so it is not part of this model.
  - A pass starts from whatever page the `Form` holds.
  - No lemma assumes the classes `long-message` and `longer-message` are removed between passes.
- `trim()` strips a fixed set of characters: the ECMAScript white space and line terminators.
- `.length` is the length of the character sequence. UTF-16 surrogate pairs are not modelled.
- `toUpperCase()` in `formatFieldName` is modelled for ASCII letters only. The four field ids are all ASCII.
- There is no general regular-expression engine. The three patterns (script.js:75-77, 97, 109) are hand-written predicates that follow each pattern's structure.
- The page is a record of four field views rather than DOM nodes. Which element holds which field is fixed by the `FieldId`.

## Findings

| source | as written | input that shows it | evidently intended | confidence | as-written member | corrected member |
|---|---|---|---|---|---|---|
| script.js:109 | `{8,}` quantifies only the last zero-width lookahead, so `^` and `$` must hold at one position. Only the empty string could match, and the lookaheads reject it, so the pattern matches nothing. | "Abcdef1!" is rejected with the strength message | at least eight characters with a lower-case letter, an upper-case letter, a digit and a symbol; the corrected pattern rebuilds the common form of this regex, which also limits every character to `[A-Za-z0-9@$!%*?&]`, a limit the strength message does not state | not executed | FieldRules.StrengthPatternNeverMatches | IntendedRules.IntendedStrengthIff |
| script.js:16-38 | Failing checks return `undefined`. A non-blank confirm-password resets the flag to `undefined`, and the password check can never return `true`. So `checkRequired` never returns `true` and the success alert never fires. | "abc123", "a@b.co", "Abcdef1!", "Abcdef1!" returns `undefined` | `true` exactly when every field passes and the confirmation equals the password | not executed | FormValidation.PassNeverAccepts | IntendedRules.IntendedAcceptsExactly |
