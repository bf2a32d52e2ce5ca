/**
 * The submission page's state and its two state-changing steps: accepting
 * or rejecting a candidate avatar (`processFile`), and the "generate" click
 * that runs every check, gathers the errors and, when there are none,
 * builds the user record and writes it to the persistent "userDetails"
 * slot (`handleGenerateClick`).
 */
module Submission {
  import opened Wrappers
  import opened Text
  import opened ImageFile
  import opened Validation

  /** The avatar part of the stored record (persisted as `fileInput`). */
  datatype AvatarRecord = AvatarRecord(
    name: string, size: nat, mimeType: string, lastModified: int, dataURL: Option<string>)

  /** The record written to the "userDetails" slot (persisted with the keys
      `fileInput`, `fullNameInput`, `emailInput`, `githubUsernameInput`). */
  datatype UserDetails = UserDetails(
    avatar: AvatarRecord, fullName: string, email: string, githubUsername: string)

  /** What a click on "generate" does: show the gathered errors, or store a
      record and leave for the ticket page. */
  datatype Outcome = Blocked(errors: seq<Message>) | Submitted(record: UserDetails)

  /** The record built from the trimmed fields, the handle without its one
      leading '@', the selected file's metadata and the cached data URL.
      `fileDataURL || null` turns an empty data URL into null. */
  function BuildRecord(f: FormFields, file: FileInfo, dataURL: Option<string>): UserDetails {
    UserDetails(
      AvatarRecord(file.name, file.size, file.mimeType, file.lastModified,
        if dataURL == Some([]) then None else dataURL),
      Trim(f.fullName),
      Trim(f.email),
      StripLeadingAt(Trim(f.githubUsername)))
  }

  /** The stored text fields carry no surrounding whitespace; the handle is
      the trimmed input, less one '@' only if that was its first character;
      the file's metadata is copied unchanged; and the data URL is kept
      unless it is missing or empty. */
  lemma RecordFromFields(f: FormFields, file: FileInfo, dataURL: Option<string>)
    ensures var u := BuildRecord(f, file, dataURL);
      && u.fullName == Trim(f.fullName) && u.email == Trim(f.email)
      && Trim(u.fullName) == u.fullName && Trim(u.email) == u.email
      && Trim(f.githubUsername) == (if Trim(f.githubUsername) != [] && Trim(f.githubUsername)[0] == '@'
                                    then "@" + u.githubUsername else u.githubUsername)
      && u.avatar.name == file.name && u.avatar.size == file.size
      && u.avatar.mimeType == file.mimeType && u.avatar.lastModified == file.lastModified
      && (dataURL == Some([]) ==> u.avatar.dataURL == None)
      && (dataURL != Some([]) ==> u.avatar.dataURL == dataURL)
  {
    TrimIdempotent(f.fullName);
    TrimIdempotent(f.email);
  }

  /** The invariants of a stored record: a trimmed name of at least five
      code units, an address matching the pattern, a non-empty handle, and
      an avatar of an allowed type within the size limit. */
  ghost predicate WellFormed(u: UserDetails) {
    && Trim(u.fullName) == u.fullName && Utf16Length(u.fullName) >= MinNameLength
    && MatchesEmailPattern(u.email)
    && u.githubUsername != []
    && IsValidImageFile(u.avatar.mimeType) && u.avatar.size <= MaxSize
  }

  /** A form that passes every check, with a selection that passed the
      avatar gate, yields a well-formed record. */
  lemma {:induction false} PassingFormYieldsWellFormedRecord(
    f: FormFields, file: FileInfo, dataURL: Option<string>)
    requires Acceptable(file)
    requires Errors(Corrected, f, Some(file)) == []
    ensures WellFormed(BuildRecord(f, file, dataURL))
  {
    NoErrorsIff(Corrected, f, Some(file));
    TrimIdempotent(f.fullName);
    PatternHasNoWhitespace(f.email);
    assert Trim(f.email) == f.email;
  }

  /** The `errors.push` sequence of the "generate" handler: the message of
      each failing check, in the order the checks ran. */
  method CollectErrors(nameError: Option<Message>, emailError: Option<Message>,
    githubError: Option<Message>, fileError: Option<Message>) returns (errors: seq<Message>)
    ensures errors == Somes([nameError, emailError, githubError, fileError])
  {
    errors := [];
    if nameError.Some? { errors := errors + [nameError.value]; }
    if emailError.Some? { errors := errors + [emailError.value]; }
    if githubError.Some? { errors := errors + [githubError.value]; }
    if fileError.Some? { errors := errors + [fileError.value]; }
    SomesOfFour(nameError, emailError, githubError, fileError);
  }

  /** What a click on "generate" decides, given the GitHub check in use,
      the form, the selection and the cached data URL. */
  function Decide(rule: GithubRule, f: FormFields, selection: Option<FileInfo>,
    dataURL: Option<string>): Outcome
  {
    var errors := Errors(rule, f, selection);
    if errors != [] then Blocked(errors)
    else
      NoErrorsIff(rule, f, selection);
      Submitted(BuildRecord(f, selection.value, dataURL))
  }

  /** A click that is not blocked stores the record built from the current
      selection, and that record is well-formed when the selection passed
      the avatar gate. */
  lemma {:induction false} DecideSubmitsWellFormed(
    f: FormFields, selection: Option<FileInfo>, dataURL: Option<string>)
    requires selection.Some? ==> Acceptable(selection.value)
    requires Decide(Corrected, f, selection, dataURL).Submitted?
    ensures selection.Some?
    ensures Decide(Corrected, f, selection, dataURL).record == BuildRecord(f, selection.value, dataURL)
    ensures WellFormed(Decide(Corrected, f, selection, dataURL).record)
  {
    NoErrorsIff(Corrected, f, selection);
    PassingFormYieldsWellFormedRecord(f, selection.value, dataURL);
  }

  /** Under the script's own GitHub check, a form that is otherwise valid
      and whose GitHub field is "@ " is submitted with an empty handle; the
      corrected check blocks it with the GitHub message alone. */
  lemma AsWrittenSubmitsEmptyHandle(f: FormFields, file: FileInfo, dataURL: Option<string>)
    requires ValidateFullName(f.fullName) == None && ValidateEmail(f.email) == None
    requires f.githubUsername == "@ "
    ensures Decide(AsWritten, f, Some(file), dataURL).Submitted?
    ensures Decide(AsWritten, f, Some(file), dataURL).record.githubUsername == []
    ensures Decide(Corrected, f, Some(file), dataURL) == Blocked([GithubInvalid])
  {
    GithubCheckAdmitsEmptyHandle();
    assert ValidateGithub(AsWritten, f.githubUsername) == None;
    assert ValidateGithub(Corrected, f.githubUsername) == Some(GithubInvalid);
    NoErrorsIff(AsWritten, f, Some(file));
    assert Errors(Corrected, f, Some(file)) == [GithubInvalid] by {
      ErrorsInOrder(Corrected, f, Some(file));
    }
  }

  /** "Ada Lovelace" has no surrounding space and twelve code units. */
  lemma AdaNamePasses()
    ensures ValidateFullName("Ada Lovelace") == None
  {
    TrimUntouched("Ada Lovelace");
  }

  /** "ada@x.com" splits as "ada", '@', "x", '.', "com". */
  lemma AdaEmailPasses()
    ensures ValidateEmail("ada@x.com") == None
  {
    assert EmailSplit("ada@x.com", 3, 5);
  }

  /** "@ada" passes the GitHub check and is stored as "ada". */
  lemma AdaHandlePasses()
    ensures ValidateGithubHandle("@ada") == None
    ensures StripLeadingAt(Trim("@ada")) == "ada"
  {
    TrimUntouched("@ada");
  }

  /** A complete form with a small PNG is submitted, and the handle is
      stored without its '@'. */
  lemma AdaSubmitted(f: FormFields, file: FileInfo, dataURL: Option<string>)
    requires f.fullName == "Ada Lovelace" && f.email == "ada@x.com" && f.githubUsername == "@ada"
    ensures Decide(Corrected, f, Some(file), dataURL).Submitted?
    ensures Decide(Corrected, f, Some(file), dataURL).record.githubUsername == "ada"
  {
    AdaNamePasses();
    AdaEmailPasses();
    AdaHandlePasses();
    NoErrorsIff(Corrected, f, Some(file));
  }

  /** The page's mutable state. */
  class SubmissionPage {
    /** The file held by the avatar input (`fileInput.files[0]`). */
    var selection: Option<FileInfo>
    /** The data URL cached by the last completed read (`fileDataURL`). */
    var dataURL: Option<string>
    /** The persistent "userDetails" slot. */
    var stored: Option<UserDetails>

    /** Only a file that passed the gate is ever selected. */
    ghost predicate Valid()
      reads this
    {
      selection.Some? ==> Acceptable(selection.value)
    }

    /** A fresh page: nothing selected, nothing cached; the slot keeps
        whatever an earlier submission left there. */
    constructor (previous: Option<UserDetails>)
      ensures Valid()
      ensures selection == None && dataURL == None && stored == previous
    {
      selection := None;
      dataURL := None;
      stored := previous;
    }

    /** `processFile`: a rejected file clears the selection and the cached
        data URL; an accepted one becomes the selection and the cache is left
        until its read completes. */
    method ProcessFile(file: FileInfo) returns (verdict: Verdict)
      requires Valid()
      modifies this`selection, this`dataURL
      ensures Valid()
      ensures verdict == Check(file)
      ensures verdict == Accepted ==> selection == Some(file) && dataURL == old(dataURL)
      ensures verdict != Accepted ==> selection == None && dataURL == None
    {
      if !IsValidImageFile(file.mimeType) {
        selection := None;
        dataURL := None;
        return WrongType;
      }
      if file.size > MaxSize {
        selection := None;
        dataURL := None;
        return TooLarge;
      }
      selection := Some(file);
      verdict := Accepted;
    }

    /** The completion of the asynchronous read of the selected file. */
    method DataURLLoaded(url: string)
      requires Valid()
      modifies this`dataURL
      ensures Valid()
      ensures dataURL == Some(url)
    {
      dataURL := Some(url);
    }

    /** `handleGenerateClick`: every check runs, the messages are pushed in
        order, and only an empty error list leads to a stored record. */
    method Generate(f: FormFields) returns (outcome: Outcome)
      requires Valid()
      modifies this`stored
      ensures Valid()
      ensures outcome == Decide(Corrected, f, selection, dataURL)
      ensures outcome.Submitted? ==> WellFormed(outcome.record)
      ensures stored == if outcome.Submitted? then Some(outcome.record) else old(stored)
    {
      var current := selection;
      var nameError := ValidateFullName(f.fullName);
      var emailError := ValidateEmail(f.email);
      var githubError := ValidateGithub(Corrected, f.githubUsername);
      var fileError := ValidateFile(current);

      var errors := CollectErrors(nameError, emailError, githubError, fileError);
      assert errors == Errors(Corrected, f, current);
      NoErrorsIff(Corrected, f, current);

      if |errors| > 0 {
        return Blocked(errors);
      }

      var file := current.value;
      var record := BuildRecord(f, file, dataURL);
      stored := Some(record);
      outcome := Submitted(record);
      DecideSubmitsWellFormed(f, current, dataURL);
    }
  }
}
