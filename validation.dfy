/**
 * The four field validators of the submission form and the way their
 * messages are gathered. Each validator returns one fixed message or
 * `None` (the script's `null`).
 */
module Validation {
  import opened Wrappers
  import opened Text
  import opened ImageFile

  /** The messages the validators return. */
  datatype Message =
    | NameRequired | NameTooShort
    | EmailRequired | EmailInvalid
    | GithubRequired | GithubInvalid
    | AvatarRequired

  /** The exact wording the page shows for each message. */
  function Wording(m: Message): string {
    match m
    case NameRequired => "Full name is required"
    case NameTooShort => "Full name must be at least 5 characters"
    case EmailRequired => "Email is required"
    case EmailInvalid => "Please enter a valid email address"
    case GithubRequired => "GitHub username is required"
    case GithubInvalid => "Please enter a valid GitHub username"
    case AvatarRequired => "Please upload an avatar image"
  }

  /** The shortest full name accepted, in UTF-16 code units. */
  const MinNameLength: nat := 5

  // ---------------------------------------------------------------- full name

  /** `validateFullName`. An input field's value is always a string, so the
      script's `!name` test adds nothing to the empty-after-trim test. */
  function ValidateFullName(name: string): (r: Option<Message>)
    ensures r == Some(NameRequired) <==> AllWhitespace(name)
    ensures r == Some(NameTooShort) <==>
      !AllWhitespace(name) && Utf16Length(Trim(name)) < MinNameLength
    ensures r == None <==> Utf16Length(Trim(name)) >= MinNameLength
  {
    TrimEmptyIff(name);
    var trimmed := Trim(name);
    if trimmed == [] then Some(NameRequired)
    else if Utf16Length(trimmed) < MinNameLength then Some(NameTooShort)
    else None
  }

  /** Only the trimmed name matters: surrounding whitespace never changes
      the verdict. */
  lemma FullNameIgnoresSurroundingSpace(name: string)
    ensures ValidateFullName(Trim(name)) == ValidateFullName(name)
  {
    TrimIdempotent(name);
    TrimEmptyIff(name);
    TrimEmptyIff(Trim(name));
  }

  // -------------------------------------------------------------------- email

  /** `[^\s@]`: neither whitespace nor '@'. */
  predicate IsPlain(c: char) {
    !IsWhitespace(c) && c != '@'
  }

  /** `[^\s@]+`: a non-empty run of plain characters. */
  predicate PlainRun(t: string) {
    |t| > 0 && forall i :: 0 <= i < |t| ==> IsPlain(t[i])
  }

  /** The whole string matches `^[^\s@]+@[^\s@]+\.[^\s@]+$`: a local part,
      '@', a run, a '.', and a run, each run free of whitespace and '@'. */
  ghost predicate MatchesEmailPattern(s: string) {
    exists i, k :: EmailSplit(s, i, k)
  }

  /** `s` is a local part `s[..i]`, '@' at `i`, a run, '.' at `k`, a run. */
  predicate EmailSplit(s: string, i: int, k: int) {
    0 < i < k < |s| && PlainRun(s[..i]) && s[i] == '@' &&
    PlainRun(s[i + 1..k]) && s[k] == '.' && PlainRun(s[k + 1..])
  }

  /** The position of the first `c` in `s`, or `|s|` when there is none. */
  function IndexOf(s: string, c: char): (r: nat)
    ensures r <= |s|
    ensures r < |s| ==> s[r] == c
    ensures forall j :: 0 <= j < r ==> s[j] != c
  {
    if s == [] then 0 else if s[0] == c then 0 else 1 + IndexOf(s[1..], c)
  }

  /** A domain `[^\s@]+\.[^\s@]+`: a plain run with a '.' that is neither its
      first nor its last character. */
  predicate DottedDomain(d: string) {
    PlainRun(d) && |d| >= 3 && '.' in d[1..|d| - 1]
  }

  /** The regular-expression test, computed: split at the first '@'. */
  predicate MatchEmail(s: string) {
    var at := IndexOf(s, '@');
    at < |s| && PlainRun(s[..at]) && DottedDomain(s[at + 1..])
  }

  /** The computed test agrees with the pattern on every string. */
  lemma {:induction false} MatchEmailIffPattern(s: string)
    ensures MatchEmail(s) <==> MatchesEmailPattern(s)
  {
    var at := IndexOf(s, '@');
    if MatchEmail(s) {
      var d := s[at + 1..];
      var inner := d[1..|d| - 1];
      var j :| 0 <= j < |inner| && inner[j] == '.';
      var k := at + 2 + j;
      assert s[k] == d[j + 1] == '.';
      assert s[at + 1..k] == d[..j + 1];
      assert s[k + 1..] == d[j + 2..];
      assert PlainRun(s[at + 1..k]);
      assert PlainRun(s[k + 1..]);
      assert EmailSplit(s, at, k);
    }
    if MatchesEmailPattern(s) {
      var i, k :| EmailSplit(s, i, k);
      assert at == i;
      var d := s[i + 1..];
      forall p | 0 <= p < |d| ensures IsPlain(d[p]) {
        if p < k - i - 1 {
          assert d[p] == s[i + 1..k][p];
        } else if p > k - i - 1 {
          assert d[p] == s[k + 1..][p - (k - i)];
        }
      }
      assert d[1..|d| - 1][k - i - 2] == '.';
    }
  }

  /** A matching address contains no whitespace at all, so it is its own
      trim and is not blank. */
  lemma {:induction false} PatternHasNoWhitespace(s: string)
    ensures MatchesEmailPattern(s) ==>
      (forall p :: 0 <= p < |s| ==> !IsWhitespace(s[p])) && Trim(s) == s && s != []
  {
    if MatchesEmailPattern(s) {
      var i, k :| EmailSplit(s, i, k);
      forall p | 0 <= p < |s| ensures !IsWhitespace(s[p]) {
        if p < i {
          assert s[p] == s[..i][p];
        } else if i < p < k {
          assert s[p] == s[i + 1..k][p - i - 1];
        } else if p > k {
          assert s[p] == s[k + 1..][p - k - 1];
        }
      }
      TrimUntouched(s);
    }
  }

  /** `validateEmail`: blank is "required"; otherwise the UNTRIMMED value is
      tested against the pattern. */
  function ValidateEmail(email: string): (r: Option<Message>)
    ensures r == Some(EmailRequired) <==> AllWhitespace(email)
    ensures r == Some(EmailInvalid) <==>
      !AllWhitespace(email) && !MatchesEmailPattern(email)
    ensures r == None <==> MatchesEmailPattern(email)
  {
    TrimEmptyIff(email);
    MatchEmailIffPattern(email);
    if Trim(email) == [] then Some(EmailRequired)
    else if !MatchEmail(email) then Some(EmailInvalid)
    else None
  }

  /** Because the pattern is tested before trimming, an address with a
      leading or trailing space is reported invalid. */
  lemma SurroundingSpaceMakesEmailInvalid(email: string)
    requires !AllWhitespace(email)
    requires IsWhitespace(email[0]) || IsWhitespace(email[|email| - 1])
    ensures ValidateEmail(email) == Some(EmailInvalid)
  {
    PatternHasNoWhitespace(email);
  }

  // ----------------------------------------------------------- GitHub username

  /** `validateGithubUsername` as the script has it: the blank test is on the
      trimmed value, but the '@' is stripped from the UNTRIMMED value. */
  function ValidateGithubUsername(username: string): (r: Option<Message>)
    ensures r == Some(GithubRequired) <==> AllWhitespace(username)
    ensures r == Some(GithubInvalid) <==> username == "@"
    ensures r == None <==> !AllWhitespace(username) && username != "@"
  {
    TrimEmptyIff(username);
    if Trim(username) == [] then Some(GithubRequired)
    else if StripLeadingAt(username) == [] then Some(GithubInvalid)
    else None
  }

  /** The check the record needs: the handle that is stored, the trimmed
      value with one leading '@' removed, must not be empty. */
  function ValidateGithubHandle(username: string): (r: Option<Message>)
    ensures r == Some(GithubRequired) <==> AllWhitespace(username)
    ensures r == Some(GithubInvalid) <==> Trim(username) == "@"
    ensures r == None <==> StripLeadingAt(Trim(username)) != []
  {
    TrimEmptyIff(username);
    var trimmed := Trim(username);
    if trimmed == [] then Some(GithubRequired)
    else if StripLeadingAt(trimmed) == [] then Some(GithubInvalid)
    else None
  }

  /** The script's check lets "@ " through although the handle it then
      stores, "@ " trimmed and stripped, is empty. */
  lemma GithubCheckAdmitsEmptyHandle()
    ensures ValidateGithubUsername("@ ") == None
    ensures StripLeadingAt(Trim("@ ")) == []
    ensures ValidateGithubHandle("@ ") == Some(GithubInvalid)
  {
    assert SkipForward("@ ", 0) == 0;
    assert SkipBackward("@ ", 0, 2) == 1;
    assert Trim("@ ") == "@";
    assert !AllWhitespace("@ ") by { assert !IsWhitespace("@ "[0]); }
  }

  /** The two checks differ exactly on values that trim to "@" but are not
      "@" themselves. */
  lemma GithubChecksDisagreeIff(username: string)
    ensures ValidateGithubUsername(username) != ValidateGithubHandle(username) <==>
      Trim(username) == "@" && username != "@"
  {
    TrimEmptyIff(username);
    if username == "@" {
      TrimUntouched(username);
    }
    if !AllWhitespace(username) && username != "@" && Trim(username) != "@" {
      var t := Trim(username);
      assert t != [];
      if t[0] == '@' {
        assert |t| >= 2 by { assert t != [t[0]]; }
      }
    }
  }

  // ------------------------------------------------------------------- avatar

  /** `validateFile`: only the presence of a selection is checked here; its
      type and size were checked when it was selected. */
  function ValidateFile(file: Option<FileInfo>): (r: Option<Message>)
    ensures r == Some(AvatarRequired) <==> file == None
    ensures r == None <==> file != None
  {
    if file == None then Some(AvatarRequired) else None
  }

  // -------------------------------------------------------------- aggregation

  /** The message of one check, as a list of zero or one entries. */
  function Reported(check: Option<Message>): seq<Message> {
    if check.Some? then [check.value] else []
  }

  /** The messages of the failing checks, in order, skipping the passes. */
  function Somes(xs: seq<Option<Message>>): seq<Message> {
    if xs == [] then [] else Reported(xs[0]) + Somes(xs[1..])
  }

  lemma {:induction false} SomesBound(xs: seq<Option<Message>>)
    ensures |Somes(xs)| <= |xs|
  {
    if xs != [] { SomesBound(xs[1..]); }
  }

  /** A message is gathered exactly when some check returned it. */
  lemma {:induction false} SomesMembers(xs: seq<Option<Message>>)
    ensures forall m :: m in Somes(xs) <==> Some(m) in xs
  {
    if xs != [] {
      SomesMembers(xs[1..]);
      assert xs == [xs[0]] + xs[1..];
    }
  }

  /** The values of the three text inputs when "generate" is clicked. */
  datatype FormFields = FormFields(fullName: string, email: string, githubUsername: string)

  /** Which GitHub check the page runs: the script's own, or the corrected
      one that tests the handle actually stored. */
  datatype GithubRule = AsWritten | Corrected

  function ValidateGithub(rule: GithubRule, username: string): Option<Message> {
    match rule
    case AsWritten => ValidateGithubUsername(username)
    case Corrected => ValidateGithubHandle(username)
  }

  /** The four checks in the order the page runs them. */
  function Checks(rule: GithubRule, f: FormFields, file: Option<FileInfo>): seq<Option<Message>> {
    [ValidateFullName(f.fullName), ValidateEmail(f.email),
     ValidateGithub(rule, f.githubUsername), ValidateFile(file)]
  }

  /** Every check runs; the errors are the messages of those that fail. */
  function Errors(rule: GithubRule, f: FormFields, file: Option<FileInfo>): seq<Message> {
    Somes(Checks(rule, f, file))
  }

  /** At most four errors, and a message is reported exactly when one of
      the four checks returned it. */
  lemma {:induction false} ErrorsExact(rule: GithubRule, f: FormFields, file: Option<FileInfo>)
    ensures |Errors(rule, f, file)| <= 4
    ensures forall m :: m in Errors(rule, f, file) <==> Some(m) in Checks(rule, f, file)
  {
    var cs := Checks(rule, f, file);
    SomesBound(cs);
    SomesMembers(cs);
  }

  /** "bad-email" has no '@', so it cannot match. */
  lemma BadEmailInvalid()
    ensures ValidateEmail("bad-email") == Some(EmailInvalid)
  {
    var bad := "bad-email";
    forall i, k | EmailSplit(bad, i, k) ensures false {
    }
    assert !IsWhitespace(bad[0]);
  }

  /** Gathering four results is reporting each in turn. */
  lemma SomesOfFour(a: Option<Message>, b: Option<Message>, c: Option<Message>, d: Option<Message>)
    ensures Somes([a, b, c, d]) == Reported(a) + Reported(b) + Reported(c) + Reported(d)
  {
    assert [a, b, c, d][1..] == [b, c, d];
    assert [b, c, d][1..] == [c, d];
    assert [c, d][1..] == [d];
    assert [d][1..] == [];
    assert Somes([d]) == Reported(d);
    assert Somes([c, d]) == Reported(c) + Reported(d);
    assert Somes([b, c, d]) == Reported(b) + (Reported(c) + Reported(d));
  }

  /** The errors are the name's message, then the email's, then the GitHub
      username's, then the avatar's, each present only if that check failed. */
  lemma {:induction false} ErrorsInOrder(rule: GithubRule, f: FormFields, file: Option<FileInfo>)
    ensures Errors(rule, f, file) ==
      Reported(ValidateFullName(f.fullName)) + Reported(ValidateEmail(f.email)) +
      Reported(ValidateGithub(rule, f.githubUsername)) + Reported(ValidateFile(file))
  {
    SomesOfFour(ValidateFullName(f.fullName), ValidateEmail(f.email),
      ValidateGithub(rule, f.githubUsername), ValidateFile(file));
  }

  /** No errors exactly when every check passes. */
  lemma {:induction false} NoErrorsIff(rule: GithubRule, f: FormFields, file: Option<FileInfo>)
    ensures Errors(rule, f, file) == [] <==>
      && ValidateFullName(f.fullName) == None && ValidateEmail(f.email) == None
      && ValidateGithub(rule, f.githubUsername) == None && ValidateFile(file) == None
  {
    ErrorsInOrder(rule, f, file);
  }

  /** "Bo" is not blank but has only two code units. */
  lemma BoTooShort()
    ensures ValidateFullName("Bo") == Some(NameTooShort)
  {
    assert !IsWhitespace("Bo"[0]);
  }

  /** The check results of a form with a two-letter name, an address
      without '@', an empty GitHub field and no avatar. */
  lemma ShortFormChecks(rule: GithubRule, f: FormFields)
    requires f.fullName == "Bo" && f.email == "bad-email" && f.githubUsername == ""
    ensures Checks(rule, f, None) ==
      [Some(NameTooShort), Some(EmailInvalid), Some(GithubRequired), Some(AvatarRequired)]
  {
    BoTooShort();
    BadEmailInvalid();
  }

  /** That form reports all four messages, in the page's order. */
  lemma ShortFormReportsAll(rule: GithubRule, f: FormFields)
    requires f.fullName == "Bo" && f.email == "bad-email" && f.githubUsername == ""
    ensures Errors(rule, f, None) == [NameTooShort, EmailInvalid, GithubRequired, AvatarRequired]
  {
    ShortFormChecks(rule, f);
    SomesOfFour(Some(NameTooShort), Some(EmailInvalid), Some(GithubRequired), Some(AvatarRequired));
  }
}
