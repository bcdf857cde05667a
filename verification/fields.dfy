/** Field validators: the `User`, `Club`, `Application` and `Match` model
    fields (max_length, blank, choices, the username pattern) and the password
    pattern of `PasswordForm`. Values are taken as the forms hand them over. */
module Fields {
  import opened Entities

  /** Python's `\w`, restricted to ASCII. */
  predicate IsWordChar(ch: char)
  {
    'a' <= ch <= 'z' || 'A' <= ch <= 'Z' || '0' <= ch <= '9' || ch == '_'
  }

  predicate IsUpper(ch: char) { 'A' <= ch <= 'Z' }
  predicate IsLower(ch: char) { 'a' <= ch <= 'z' }
  predicate IsDigit(ch: char) { '0' <= ch <= '9' }

  /** Python's `$` matches at the end of the text and also just before one
      final newline; this is the text `$` lets a pattern cover. */
  function DropFinalNewline(s: string): (t: string)
    ensures t == s || t + "\n" == s
    ensures t == s <==> |s| == 0 || s[|s| - 1] != '\n'
  {
    if |s| > 0 && s[|s| - 1] == '\n' then s[..|s| - 1] else s
  }

  /** A required `CharField` (`blank=False`) of the given `max_length`. */
  predicate Required(s: string, maxLength: nat)
  {
    0 < |s| <= maxLength
  }

  /** An optional `CharField` (`blank=True`) of the given `max_length`. */
  predicate Optional(s: string, maxLength: nat)
  {
    |s| <= maxLength
  }

  /** `User.username`: `RegexValidator(r'^\w{3,}$')` plus `max_length=30`. */
  predicate UsernameValid(u: string)
  {
    var body := DropFinalNewline(u);
    |u| <= 30 && |body| >= 3 && forall i | 0 <= i < |body| :: IsWordChar(body[i])
  }

  /** The username check as the regex engine runs it: count word characters
      from the left, then accept only at the end or before a final newline. */
  method MatchUsername(u: string) returns (ok: bool)
    ensures ok <==> UsernameValid(u)
  {
    var i := 0;
    while i < |u| && IsWordChar(u[i])
      invariant 0 <= i <= |u|
      invariant forall j | 0 <= j < i :: IsWordChar(u[j])
    {
      i := i + 1;
    }
    var atEnd := i == |u| || (i == |u| - 1 && u[i] == '\n');
    ok := |u| <= 30 && i >= 3 && atEnd;
    if ok {
      assert DropFinalNewline(u) == u[..i];
    } else if |u| <= 30 && i >= 3 {
      // the first non-word character is inside the text `$` must cover
      var body := DropFinalNewline(u);
      assert i < |body| && body[i] == u[i];
    }
  }

  /** `User.experience_level` choices. */
  const ExperienceLevels: set<string> := {"Beginner", "Intermediate", "Advanced"}

  /** Field validation of `User` (`full_clean` without the unique checks);
      `EmailField` validation is abstract. */
  predicate UserFieldsValid(u: User, emailValid: string -> bool)
  {
    && UsernameValid(u.username)
    && Required(u.firstName, 50)
    && Required(u.lastName, 50)
    && u.email != "" && emailValid(u.email)
    && Optional(u.bio, 520)
    && Required(u.experienceLevel, 12) && u.experienceLevel in ExperienceLevels
  }

  /** Field validation of `Club` (the unique name is checked against the table). */
  predicate ClubFieldsValid(c: Club)
  {
    Required(c.name, 30) && Required(c.location, 180) && Required(c.description, 520)
  }

  /** `Application.personal_statement`. */
  predicate StatementValid(statement: string)
  {
    Required(statement, 500)
  }

  /** `Match.location`. */
  predicate MatchLocationValid(location: string)
  {
    Required(location, 100)
  }

  /** `^(?=.*[A-Z])(?=.*[a-z])(?=.*[0-9]).*$` as Python's `re.search` reads it:
      `.` stops at a newline, so the text `$` covers must be one line holding
      an upper-case letter, a lower-case letter and a digit. */
  predicate PasswordPatternOk(p: string)
  {
    var body := DropFinalNewline(p);
    && (forall i | 0 <= i < |body| :: body[i] != '\n')
    && (exists i | 0 <= i < |body| :: IsUpper(body[i]))
    && (exists i | 0 <= i < |body| :: IsLower(body[i]))
    && (exists i | 0 <= i < |body| :: IsDigit(body[i]))
  }

  /** The password check as one left-to-right scan of the covered line. */
  method MatchPassword(p: string) returns (ok: bool)
    ensures ok <==> PasswordPatternOk(p)
  {
    var body := DropFinalNewline(p);
    var upper, lower, digit, newline := false, false, false, false;
    var i := 0;
    while i < |body|
      invariant 0 <= i <= |body|
      invariant upper <==> exists j | 0 <= j < i :: IsUpper(body[j])
      invariant lower <==> exists j | 0 <= j < i :: IsLower(body[j])
      invariant digit <==> exists j | 0 <= j < i :: IsDigit(body[j])
      invariant newline <==> exists j | 0 <= j < i :: body[j] == '\n'
    {
      var ch := body[i];
      upper := upper || IsUpper(ch);
      lower := lower || IsLower(ch);
      digit := digit || IsDigit(ch);
      newline := newline || ch == '\n';
      i := i + 1;
    }
    ok := upper && lower && digit && !newline;
  }

  /** `PasswordForm` validity: both password fields match the pattern, the
      confirmation is required but has no pattern, and `clean` demands that it
      equals the new password. */
  predicate PasswordFormValid(current: string, newPassword: string, confirmation: string)
  {
    && current != "" && PasswordPatternOk(current)
    && newPassword != "" && PasswordPatternOk(newPassword)
    && confirmation != ""
    && newPassword == confirmation
  }

  /** The pattern already rules out the empty password, and the confirmation
      passes exactly when it repeats a new password that matches the pattern. */
  lemma PasswordFormNeedsPatternOnlyOnPasswords(current: string, newPassword: string, confirmation: string)
    ensures PasswordFormValid(current, newPassword, confirmation) <==>
      PasswordPatternOk(current) && PasswordPatternOk(newPassword) && confirmation == newPassword
  {
    if PasswordPatternOk(newPassword) {
      var body := DropFinalNewline(newPassword);
      var i :| 0 <= i < |body| && IsUpper(body[i]);
      assert |newPassword| > 0;
    }
    if PasswordPatternOk(current) {
      var body := DropFinalNewline(current);
      var i :| 0 <= i < |body| && IsUpper(body[i]);
      assert |current| > 0;
    }
  }
}
