# Conference ticket form: validation and record hand-off

This project models the submission page of a two-page conference-ticket form.
The page collects a full name, an email address, a GitHub username and an
avatar image. It checks each of them, and when every check passes it builds a
user record and writes it to the browser's persistent "userDetails" slot for
the ticket page to read.

The model has five modules:

- `Wrappers`: the `Option` type that stands for the script's `null`.
- `Text`: the string primitives the script uses. This means ECMAScript
  whitespace (the same set for `trim()` and the regular-expression class
  `\s`), `trim`, ASCII lower-casing, the UTF-16 length that `.length`
  reports, and `replace(/^@/, "")`.
- `ImageFile`: the avatar gate. A file passes when its MIME type, once
  lower-cased, is `image/jpeg`, `image/jpg` or `image/png`, and its size is at
  most 500 × 1024 = 512000 bytes. The type is checked first.
- `Validation`: the four field validators, each returning one fixed message or
  `None`. It also holds the email pattern `^[^\s@]+@[^\s@]+\.[^\s@]+$`, written
  twice: once as a predicate on how the string splits, and once as a computed
  test. A lemma proves the two agree. Last come the ordered gathering of the
  error messages and the lemmas about it.
- `Submission`: the user record, how it is built, and the invariants a stored
  record satisfies. The class `SubmissionPage` holds the page's mutable state:
  the selected file, the cached data URL and the persistent slot. Its methods
  are `ProcessFile`, the completion of the file read, and `Generate`.

Some behaviour follows from the code and is worth knowing:

- A rejected file clears the selection and the cached data URL.
- An accepted file becomes the selection, but the cached data URL is left as
  it was until the asynchronous read of the new file completes. A record built
  in that window pairs the new file's metadata with the previous file's data
  URL. `ProcessFile`'s contract states this: `dataURL == old(dataURL)` on
  acceptance.
- The email pattern is tested on the untrimmed value, so an address with a
  leading or trailing space is invalid. The record stores the trimmed value,
  which is the same string whenever the pattern matched.
- `fileDataURL || null` stores an empty data URL as `null`.

## Model

| member | source | states |
|---|---|---|
| Text.SkipForward | Form/app.js:123 | the scan `trim()` makes from the front stops at the first character that is not whitespace, and everything it passed is whitespace |
| Text.SkipBackward | Form/app.js:123 | the scan from the back stops just past the last character that is not whitespace, never below where the front scan stopped, and everything it passed is whitespace |
| Text.Trim | Form/app.js:123 | `trim()`: the run between the front scan and the back scan; `TrimIsInnerRun`, `TrimEnds`, `TrimEmptyIff` and `TrimIdempotent` state its properties |
| Text.TrimIsInnerRun | Form/app.js:123 | `trim()` keeps one contiguous run of the input and removes only whitespace on either side |
| Text.TrimEnds | Form/app.js:123 | a non-empty trimmed string neither starts nor ends with whitespace |
| Text.TrimEmptyIff | Form/app.js:123 | a value trims to the empty string exactly when every character is whitespace |
| Text.TrimIdempotent | Form/app.js:200-201 | trimming an already trimmed value changes nothing, so the stored fields are fixed points of `trim` |
| Text.Utf16Length | Form/app.js:126 | `.length` counts UTF-16 code units: between the number of characters and twice that, equal to it when every character is in the Basic Multilingual Plane, and larger when some character is outside it |
| Text.Utf16LengthOfChar | Form/app.js:126 | one character is one code unit inside the Basic Multilingual Plane and two outside it |
| Text.Utf16LengthAppend | Form/app.js:126 | the code-unit length of a concatenation is the sum of the parts' lengths, so together with the one-character case it fixes `.length` on every string |
| Text.StripLeadingAt | Form/app.js:148 | `replace(/^@/, "")` removes one '@' exactly when the value starts with one, and nothing else |
| ImageFile.IsValidImageFile | Form/app.js:59-62 | the lower-cased type is one of the three allowed types; `ImageFile.ValidTypeIffSameIgnoringCase` states what that means for the type as given |
| ImageFile.Check | Form/app.js:64-80 | the file is accepted iff its type is allowed and its size is at most 512000; a wrong type is reported first; a too-large file of an allowed type is reported as too large |
| ImageFile.ValidTypeIffSameIgnoringCase | Form/app.js:59-62 | the type check passes exactly when the type equals one of the three allowed types up to letter case |
| ImageFile.TypeExamples | Form/app.js:59-62 | "IMAGE/PNG" and "Image/JPG" pass; "image/gif" and "image/png " (trailing space) do not |
| Validation.ValidateFullName | Form/app.js:122-130 | "required" iff the name is all whitespace; "too short" iff it is not blank and its trimmed UTF-16 length is below 5; no error iff that length is at least 5 |
| Validation.FullNameIgnoresSurroundingSpace | Form/app.js:122-130 | the verdict on a name is the verdict on its trimmed form |
| Validation.MatchesEmailPattern | Form/app.js:136 | the regular expression `^[^\s@]+@[^\s@]+\.[^\s@]+$` as a predicate: some split into a plain local part, '@', a plain run, '.', and a plain run |
| Validation.MatchEmailIffPattern | Form/app.js:136-137 | the computed test (split at the first '@', then a domain with an inner '.') accepts exactly the strings that match `^[^\s@]+@[^\s@]+\.[^\s@]+$` |
| Validation.PatternHasNoWhitespace | Form/app.js:136 | a matching address has no whitespace anywhere, is not empty and is its own trim |
| Validation.ValidateEmail | Form/app.js:132-141 | "required" iff the value is all whitespace; "invalid" iff it is not blank and the untrimmed value does not match the pattern; no error iff it matches |
| Validation.SurroundingSpaceMakesEmailInvalid | Form/app.js:133-138 | a non-blank address with leading or trailing whitespace is reported invalid, because the pattern is tested before trimming |
| Validation.BadEmailInvalid | Form/app.js:136-138 | "bad-email", with no '@', is reported invalid |
| Validation.ValidateGithubUsername | Form/app.js:143-153 | as written: "required" iff the value is all whitespace; "invalid" iff the value is exactly "@"; no error otherwise |
| Validation.ValidateGithubHandle | Form/app.js:143-153 | corrected check: "required" iff blank; "invalid" iff the trimmed value is "@"; no error iff the handle that is stored (trimmed, one '@' removed) is non-empty |
| Validation.GithubCheckAdmitsEmptyHandle | Form/app.js:143-153 | "@ " passes the script's check although the handle stored for it is empty; the corrected check rejects it |
| Validation.GithubChecksDisagreeIff | Form/app.js:143-153 | the script's check and the corrected one differ exactly on values that trim to "@" but are not "@" |
| Validation.ValidateFile | Form/app.js:155-161 | "upload an avatar" iff no file is selected; no other condition is checked |
| Validation.BoTooShort | Form/app.js:122-130 | "Bo" is not blank but is shorter than five code units, so it is reported too short |
| Validation.SomesBound | Form/app.js:178-182 | gathering yields at most one message per check |
| Validation.SomesMembers | Form/app.js:178-182 | a message is gathered iff some check returned it |
| Validation.SomesOfFour | Form/app.js:178-182 | gathering four results is the first's message, then the second's, then the third's, then the fourth's, each only if present |
| Validation.Checks | Form/app.js:172-175 | the four check results in the order the handler computes them; the GitHub check is the script's (`AsWritten`) or the corrected one (`Corrected`), as the caller chooses |
| Validation.Errors | Form/app.js:172-182 | the messages of the failing checks, gathered in order, under the chosen GitHub check; `ErrorsExact`, `ErrorsInOrder` and `NoErrorsIff` state its properties |
| Validation.ErrorsExact | Form/app.js:172-182 | under either GitHub check: every check runs, there are at most four errors, and the errors are exactly the messages the four checks returned |
| Validation.ErrorsInOrder | Form/app.js:172-182 | under either GitHub check: the errors are the name's, email's, GitHub username's and avatar's messages in that order, each present only if that check failed |
| Validation.NoErrorsIff | Form/app.js:172-188 | under either GitHub check: the error list is empty iff all four checks pass |
| Validation.ShortFormChecks | Form/app.js:172-175 | the form "Bo" / "bad-email" / "" with no avatar fails all four checks, under either GitHub check |
| Validation.ShortFormReportsAll | Form/app.js:172-188 | that form reports name too short, email invalid, GitHub required and avatar required, in that order |
| Submission.CollectErrors | Form/app.js:178-182 | the `push` sequence yields exactly the gathered messages of the four checks, in order |
| Submission.BuildRecord | Form/app.js:191-203 | the record the handler builds; `RecordFromFields` states its properties |
| Submission.RecordFromFields | Form/app.js:191-203 | stored name and email are the trimmed inputs, and so have no surrounding whitespace; the handle is the trimmed input less one '@' only when that was its first character; the file metadata is copied unchanged; an empty data URL is stored as null and any other is kept as it is |
| Submission.PassingFormYieldsWellFormedRecord | Form/app.js:172-203 | under the corrected GitHub check, when every check passes and the file passed the avatar gate, the record has a trimmed name of at least 5 code units, an address matching the pattern, a non-empty handle, and an allowed type within 512000 bytes |
| Submission.Decide | Form/app.js:164-203 | what a click decides under the chosen GitHub check: blocked with the gathered errors when there are any, otherwise the record built from the selection |
| Submission.DecideSubmitsWellFormed | Form/app.js:184-203 | under the corrected check, a click that is not blocked builds the record from the current selection, and that record is well-formed |
| Submission.AsWrittenSubmitsEmptyHandle | Form/app.js:143-203 | with the script's own GitHub check, an otherwise valid form whose GitHub field is "@ " is submitted with an empty handle; the corrected check blocks it with the GitHub message alone |
| Submission.AdaNamePasses | Form/app.js:122-130 | "Ada Lovelace" passes the name check |
| Submission.AdaEmailPasses | Form/app.js:132-141 | "ada@x.com" matches the email pattern |
| Submission.AdaHandlePasses | Form/app.js:143-153 | "@ada" passes the GitHub check and is stored as "ada" |
| Submission.AdaSubmitted | Form/app.js:164-203 | "Ada Lovelace" / "ada@x.com" / "@ada" with a selected file is submitted, with the handle stored as "ada" |
| Submission.SubmissionPage.constructor | Form/app.js:11 | the page starts with no selection and no cached data URL |
| Submission.SubmissionPage.ProcessFile | Form/app.js:64-89 | returns the verdict of the gate; a rejected file clears the selection and the data URL; an accepted file becomes the selection and the data URL is untouched; only gated files are ever selected |
| Submission.SubmissionPage.DataURLLoaded | Form/app.js:100-102 | the completed read caches its data URL and keeps the page's invariant |
| Submission.SubmissionPage.Generate | Form/app.js:164-217 | the outcome is `Decide` under the corrected GitHub check: blocked with the ordered error list exactly when a check fails, and the slot is then unchanged; otherwise the built record is written to the slot, and that record is well-formed; the page's invariant is kept |

## Findings

| source | as written | input that shows it | evidently intended | confidence | as-written member | corrected member |
|---|---|---|---|---|---|---|
| Form/app.js:148 | `validateGithubUsername` removes the leading '@' from the untrimmed value, but the record (line 202) removes it from the trimmed value | GitHub username "@ " (or " @"): the check passes, and the stored `githubUsernameInput` is "" | check the handle that is actually stored: the trimmed value with one leading '@' removed must be non-empty | high; not executed | Validation.GithubCheckAdmitsEmptyHandle | Validation.ValidateGithubHandle |

`Validation.ValidateGithubUsername` models the check as written. The
gathered errors (`Validation.Errors`) and `Submission.Decide` take the GitHub
check as a parameter, `AsWritten` or `Corrected`, so both the handler as
written and the corrected handler are modelled;
`Submission.AsWrittenSubmitsEmptyHandle` shows the handler as written storing
an empty handle. `Submission.SubmissionPage.Generate` uses the corrected
`Validation.ValidateGithubHandle`. With the corrected check,
`Submission.PassingFormYieldsWellFormedRecord` proves that a record written by
`Generate` never has an empty handle.

## Left out

- Submission.SubmissionPage.Generate: uses the corrected GitHub check, not the one the script runs. The two differ only on values that trim to "@" but are not "@" (see Findings and `Validation.GithubChecksDisagreeIff`). The handler as written is `Submission.Decide` with `AsWritten`; the class does not offer that variant.
- DOM wiring (Form/app.js:1-57): the drag-over and drag-leave styling, and the drop and picker handlers. Those handlers only pass the first file of a non-empty list to `processFile`, so they are UI plumbing.
- The preview (Form/app.js:91-119): removing the old preview, creating the image element, and the asynchronous `FileReader` itself are browser I/O. Only the read's completion is kept, as `DataURLLoaded`. The data URL is an opaque string, so nothing is proved about what it encodes.
- `DataTransfer`/`FileList` construction (Form/app.js:82-85) is a browser API. It is reduced to "the accepted file becomes the selection".
- The `alert` notices (Form/app.js:67, 76, 186, 209-215), `console.log`, `JSON.stringify` and the redirect (Form/app.js:206-220) are I/O and navigation. The seven validator messages are kept in `Validation.Wording`; the two file-rejection notices, the "Please fix the following errors:" heading and the newline join are not modelled. The localStorage write is the `stored` field of `SubmissionPage`.
- The ticket page (Ticket/app.js) is not part of this model. It does a `localStorage` read, `JSON.parse`, a floating-point random ticket number and DOM writes.
- `toLowerCase` is modelled on ASCII letters only. This gives the same accept/reject decision as full Unicode lower-casing. The only non-ASCII character whose lower-case form is pure ASCII is U+212A KELVIN SIGN, which becomes 'k', and 'k' does not occur in any allowed type.
- Dafny characters are Unicode scalar values, while JavaScript strings are UTF-16 code units. Lone surrogates cannot be represented. Lengths are converted explicitly with `Text.Utf16Length`.
- Whitespace is the fixed set of ECMAScript WhiteSpace and LineTerminator code points listed in `Text.IsWhitespace`. Later Unicode versions that change the space separators are not followed.
- The script's `!value` tests on the text fields are not modelled. An input's value is always a string, so those tests add nothing to the empty-after-trim test.
