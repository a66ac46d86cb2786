/**
 * The field rules of src/utils/validation.js. Each rule returns "" for an
 * acceptable value, or the message of the first check that fails; the checks
 * run in the order the source writes them.
 *
 * Dates are (year, month, day) triples. The current date and the host's
 * `new Date(text)` parser are not observable here, so they come in as a
 * `Clock` value; time of day and time zones are not modelled.
 */
module Validation {
  import opened Js

  const EmailRequired := "Email is required"
  const InvalidEmailFormat := "Invalid email format"
  const DateOfBirthRequired := "Date of birth is required"
  const InvalidDate := "Invalid date"
  const DateInFuture := "Date of birth cannot be in the future"
  const TooYoung := "You must be at least 16 years old"
  const PasswordRequired := "Password is required"
  const PasswordTooShort := "Password must be at least 6 characters"
  const ConfirmationRequired := "Password confirmation is required"
  const PasswordsDiffer := "Passwords do not match"

  /** The youngest age, in whole years, that may register. */
  const MinimumAge := 16

  /** The fewest UTF-16 code units a password may have. */
  const MinimumPasswordLength := 6

  function NameRequired(fieldName: string): string {
    fieldName + " is required"
  }

  function NameHasSpecialCharacters(fieldName: string): string {
    fieldName + " must not contain special characters"
  }

  // ---------------------------------------------------------------------------
  // Email
  // ---------------------------------------------------------------------------

  predicate IsAsciiLetter(c: char) {
    'a' <= c <= 'z' || 'A' <= c <= 'Z'
  }

  predicate IsAsciiDigit(c: char) {
    '0' <= c <= '9'
  }

  /** The class `[a-zA-Z0-9._-]` of the part before the `@`. */
  predicate IsLocalPartChar(c: char) {
    IsAsciiLetter(c) || IsAsciiDigit(c) || c == '.' || c == '_' || c == '-'
  }

  /** The class `[a-zA-Z0-9.-]` of the part between the `@` and the final dot. */
  predicate IsDomainChar(c: char) {
    IsAsciiLetter(c) || IsAsciiDigit(c) || c == '.' || c == '-'
  }

  /**
   * `s` splits as L '@' D '.' T with L = s[..at], D = s[at + 1..dot] and
   * T = s[dot + 1..]: L a non-empty run of local-part characters, D a non-empty
   * run of domain characters and T at least two ASCII letters.
   */
  predicate EmailParts(s: string, at: int, dot: int) {
    && 0 < at && at + 1 < dot && dot + 2 < |s|
    && s[at] == '@' && s[dot] == '.'
    && (forall i | 0 <= i < at :: IsLocalPartChar(s[i]))
    && (forall i | at < i < dot :: IsDomainChar(s[i]))
    && (forall i | dot < i < |s| :: IsAsciiLetter(s[i]))
  }

  /** The position of the first `c` in `s`, if any. */
  function FirstIndexOf(s: string, c: char): Option<nat> {
    if s == [] then None
    else if s[0] == c then Some(0)
    else match FirstIndexOf(s[1..], c)
      case Some(k) => Some(k + 1)
      case None => None
  }

  /** `indexOf`: the position found holds `c` and no earlier one does; None when no position does. */
  lemma {:induction false} FirstIndexOfFinds(s: string, c: char)
    ensures var r := FirstIndexOf(s, c);
      && (r.Some? ==> r.value < |s| && s[r.value] == c && forall i | 0 <= i < r.value :: s[i] != c)
      && (r.None? ==> forall i | 0 <= i < |s| :: s[i] != c)
  {
    if s != [] && s[0] != c {
      FirstIndexOfFinds(s[1..], c);
      assert forall i | 1 <= i < |s| :: s[i] == s[1..][i - 1];
    }
  }

  /** The position of the last `c` in `s`, if any. */
  function LastIndexOf(s: string, c: char): Option<nat> {
    if s == [] then None
    else if s[|s| - 1] == c then Some(|s| - 1)
    else LastIndexOf(s[..|s| - 1], c)
  }

  /** `lastIndexOf`: the position found holds `c` and no later one does; None when no position does. */
  lemma {:induction false} LastIndexOfFinds(s: string, c: char)
    ensures var r := LastIndexOf(s, c);
      && (r.Some? ==> r.value < |s| && s[r.value] == c && forall i | r.value < i < |s| :: s[i] != c)
      && (r.None? ==> forall i | 0 <= i < |s| :: s[i] != c)
  {
    if s != [] && s[|s| - 1] != c {
      LastIndexOfFinds(s[..|s| - 1], c);
      assert forall i | 0 <= i < |s| - 1 :: s[i] == s[..|s| - 1][i];
    }
  }

  /**
   * Neither L nor T can hold the character that ends it, so the `@` of a split is
   * the first `@` of the string and its dot is the last dot.
   */
  lemma EmailPartsAreDetermined(s: string, at: int, dot: int)
    requires EmailParts(s, at, dot)
    ensures FirstIndexOf(s, '@') == Some(at) && LastIndexOf(s, '.') == Some(dot)
  {
    FirstIndexOfFinds(s, '@');
    LastIndexOfFinds(s, '.');
  }

  /**
   * `/^[a-zA-Z0-9._-]+@[a-zA-Z0-9.-]+\.[a-zA-Z]{2,}$/.test(s)`, decided by trying
   * the only split that can succeed: at the first `@` and at the last dot.
   */
  predicate MatchesEmailPattern(s: string) {
    var at := FirstIndexOf(s, '@');
    var dot := LastIndexOf(s, '.');
    at.Some? && dot.Some? && EmailParts(s, at.value, dot.value)
  }

  /** Trying the first `@` and the last dot decides the pattern: it matches exactly when some split does. */
  lemma MatchesEmailPatternExactly(s: string)
    ensures MatchesEmailPattern(s) <==> exists at, dot :: EmailParts(s, at, dot)
  {
    if exists at, dot :: EmailParts(s, at, dot) {
      var at, dot :| EmailParts(s, at, dot);
      EmailPartsAreDetermined(s, at, dot);
    }
  }

  /** validateEmail: blank first, then the pattern over the whole, untrimmed text. */
  function ValidateEmail(email: string): (message: string)
    ensures message == "" || message == EmailRequired || message == InvalidEmailFormat
    ensures message == "" ==> |email| >= 6
  {
    if IsBlank(email) then EmailRequired
    else if !MatchesEmailPattern(email) then InvalidEmailFormat
    else ""
  }

  /** An accepted e-mail contains an '@'. */
  lemma AcceptedEmailHasAt(email: string)
    requires ValidateEmail(email) == ""
    ensures '@' in email
  {
    var at := FirstIndexOf(email, '@').value;
    assert email[at] == '@';
  }

  /**
   * The verdicts of validateEmail: required exactly for a blank text, accepted
   * exactly when the whole text splits as the pattern demands, so a leading or
   * trailing space is a format error.
   */
  lemma ValidateEmailCases(email: string)
    ensures ValidateEmail(email) == EmailRequired <==> AllSpace(email)
    ensures ValidateEmail(email) == "" <==> exists at, dot :: EmailParts(email, at, dot)
    ensures ValidateEmail(email) == InvalidEmailFormat <==>
      !AllSpace(email) && !exists at, dot :: EmailParts(email, at, dot)
  {
    BlankIsAllSpace(email);
    MatchesEmailPatternExactly(email);
  }

  // ---------------------------------------------------------------------------
  // Names
  // ---------------------------------------------------------------------------

  /**
   * The class `[a-zA-Zа-яА-ЯіІїЇєЄґҐ' -]`: ASCII letters, the Cyrillic ranges
   * U+0430..U+044F and U+0410..U+042F, the Ukrainian letters і І ї Ї є Є ґ Ґ,
   * apostrophe, space and hyphen.
   */
  predicate IsNameChar(c: char) {
    || IsAsciiLetter(c)
    || ('\U{430}' <= c <= '\U{44F}')
    || ('\U{410}' <= c <= '\U{42F}')
    || c == '\U{456}' || c == '\U{406}'
    || c == '\U{457}' || c == '\U{407}'
    || c == '\U{454}' || c == '\U{404}'
    || c == '\U{491}' || c == '\U{490}'
    || c == '\'' || c == ' ' || c == '-'
  }

  /** `/^[a-zA-Zа-яА-ЯіІїЇєЄґҐ' -]+$/.test(s)`. */
  predicate MatchesNamePattern(s: string) {
    |s| > 0 && forall i | 0 <= i < |s| :: IsNameChar(s[i])
  }

  /** validateName(name, fieldName = 'Field'). */
  function ValidateName(name: string, fieldName: string := "Field"): (message: string)
    ensures message == "" || message == NameRequired(fieldName) || message == NameHasSpecialCharacters(fieldName)
    ensures message == "" ==> name != ""
  {
    if IsBlank(name) then NameRequired(fieldName)
    else if !MatchesNamePattern(name) then NameHasSpecialCharacters(fieldName)
    else ""
  }

  /**
   * The verdicts of validateName: the field's "required" message exactly for a
   * blank text, acceptance exactly when every character is in the class, and the
   * "special characters" message when some character is not.
   */
  lemma ValidateNameCases(name: string, fieldName: string)
    ensures ValidateName(name, fieldName) == NameRequired(fieldName) <==> AllSpace(name)
    ensures ValidateName(name, fieldName) == "" <==>
      !AllSpace(name) && forall i | 0 <= i < |name| :: IsNameChar(name[i])
    ensures ValidateName(name, fieldName) == NameHasSpecialCharacters(fieldName) <==>
      !AllSpace(name) && exists i | 0 <= i < |name| :: !IsNameChar(name[i])
  {
    BlankIsAllSpace(name);
  }

  // ---------------------------------------------------------------------------
  // Date of birth
  // ---------------------------------------------------------------------------

  datatype Date = Date(year: int, month: int, day: int)

  /** `a` is an earlier day than `b`. */
  predicate Precedes(a: Date, b: Date) {
    a.year < b.year
    || (a.year == b.year && (a.month < b.month || (a.month == b.month && a.day < b.day)))
  }

  /** The same month and day, `years` years earlier. */
  function YearsBefore(d: Date, years: int): Date {
    Date(d.year - years, d.month, d.day)
  }

  /** The two values validateDateOfBirth takes from its host: `new Date()` and `new Date(text)`. */
  datatype Clock = Clock(today: Date, parse: string -> Option<Date>)

  /**
   * Whole years from `birth` to `today`: the year difference, less one when
   * today's month and day come before the birth month and day. It is the `age`
   * whose birthday has come (on or before today) while the next has not.
   */
  function AgeInYears(birth: Date, today: Date): (age: int)
    ensures today.year - birth.year - 1 <= age <= today.year - birth.year
    ensures today.month == birth.month && today.day == birth.day ==> age == today.year - birth.year
  {
    var age := today.year - birth.year;
    var monthDiff := today.month - birth.month;
    if monthDiff < 0 || (monthDiff == 0 && today.day < birth.day) then age - 1 else age
  }

  /** The age is the number of birthdays that have come by `today`: the last one has, the next one has not. */
  lemma AgeInYearsCountsBirthdays(birth: Date, today: Date)
    ensures !Precedes(today, Date(birth.year + AgeInYears(birth, today), birth.month, birth.day))
    ensures Precedes(today, Date(birth.year + AgeInYears(birth, today) + 1, birth.month, birth.day))
  {
  }

  /** Someone born on `birth` is at least `years` old on `today` exactly when born on or before that day `years` years ago. */
  lemma {:induction false} AgeAtLeast(birth: Date, today: Date, years: int)
    ensures AgeInYears(birth, today) >= years <==> !Precedes(YearsBefore(today, years), birth)
  {
    var age := AgeInYears(birth, today);
    AgeInYearsCountsBirthdays(birth, today);
    if age >= years {
      assert !Precedes(today, Date(birth.year + age, birth.month, birth.day));
    } else {
      assert Precedes(today, Date(birth.year + age + 1, birth.month, birth.day));
    }
  }

  /** validateDateOfBirth(date), with `clock` standing for `new Date()` and `new Date(date)`. */
  function ValidateDateOfBirth(date: string, clock: Clock): (message: string)
    ensures message in {"", DateOfBirthRequired, InvalidDate, DateInFuture, TooYoung}
    ensures message == "" ==>
      clock.parse(date).Some? && clock.today.year - clock.parse(date).value.year >= MinimumAge
  {
    if IsBlank(date) then DateOfBirthRequired
    else match clock.parse(date)
      case None => InvalidDate
      case Some(birthDate) =>
        if Precedes(clock.today, birthDate) then DateInFuture
        else if AgeInYears(birthDate, clock.today) < MinimumAge then TooYoung
        else ""
  }

  /**
   * The verdicts of validateDateOfBirth, in the order the checks run: blank,
   * unparseable, a later day than today, and younger than 16; a date is accepted
   * exactly when it parses and falls on or before the same day 16 years ago.
   */
  lemma ValidateDateOfBirthCases(date: string, clock: Clock)
    ensures AllSpace(date) ==> ValidateDateOfBirth(date, clock) == DateOfBirthRequired
    ensures !AllSpace(date) && clock.parse(date).None? ==> ValidateDateOfBirth(date, clock) == InvalidDate
    ensures !AllSpace(date) && clock.parse(date).Some? && Precedes(clock.today, clock.parse(date).value) ==>
      ValidateDateOfBirth(date, clock) == DateInFuture
    ensures ValidateDateOfBirth(date, clock) == "" <==>
      !AllSpace(date) && clock.parse(date).Some?
      && !Precedes(YearsBefore(clock.today, MinimumAge), clock.parse(date).value)
    ensures ValidateDateOfBirth(date, clock) == TooYoung <==>
      !AllSpace(date) && clock.parse(date).Some?
      && !Precedes(clock.today, clock.parse(date).value)
      && Precedes(YearsBefore(clock.today, MinimumAge), clock.parse(date).value)
  {
    BlankIsAllSpace(date);
    if !AllSpace(date) && clock.parse(date).Some? {
      AgeAtLeast(clock.parse(date).value, clock.today, MinimumAge);
    }
  }

  // ---------------------------------------------------------------------------
  // Passwords
  // ---------------------------------------------------------------------------

  /** validatePassword: blank first, then at least six UTF-16 code units of the untrimmed text. */
  function ValidatePassword(password: string): (message: string)
    ensures message == "" || message == PasswordRequired || message == PasswordTooShort
    ensures message == "" ==> |password| >= MinimumPasswordLength / 2
  {
    if IsBlank(password) then PasswordRequired
    else if Utf16Length(password) < MinimumPasswordLength then PasswordTooShort
    else ""
  }

  /**
   * The verdicts of validatePassword: required exactly for a blank text, too short
   * for fewer than six code units counted with the surrounding spaces, and
   * accepted otherwise.
   */
  lemma ValidatePasswordCases(password: string)
    ensures ValidatePassword(password) == PasswordRequired <==> AllSpace(password)
    ensures ValidatePassword(password) == "" <==>
      !AllSpace(password) && Utf16Length(password) >= MinimumPasswordLength
    ensures ValidatePassword(password) == PasswordTooShort <==>
      !AllSpace(password) && Utf16Length(password) < MinimumPasswordLength
    ensures !AllSpace(password) && |password| >= MinimumPasswordLength ==> ValidatePassword(password) == ""
  {
    BlankIsAllSpace(password);

  }

  /** validateConfirmPassword: a blank confirmation first, then exact equality with the password. */
  function ValidateConfirmPassword(password: string, confirmPassword: string): (message: string)
    ensures message == "" || message == ConfirmationRequired || message == PasswordsDiffer
    ensures message == "" ==> confirmPassword == password && password != ""
  {
    if IsBlank(confirmPassword) then ConfirmationRequired
    else if password != confirmPassword then PasswordsDiffer
    else ""
  }

  /**
   * The verdicts of validateConfirmPassword: required exactly for a blank
   * confirmation, whatever the password; then accepted exactly when the two
   * texts are equal.
   */
  lemma ValidateConfirmPasswordCases(password: string, confirmPassword: string)
    ensures ValidateConfirmPassword(password, confirmPassword) == ConfirmationRequired <==> AllSpace(confirmPassword)
    ensures ValidateConfirmPassword(password, confirmPassword) == "" <==>
      !AllSpace(confirmPassword) && confirmPassword == password
    ensures ValidateConfirmPassword(password, confirmPassword) == PasswordsDiffer <==>
      !AllSpace(confirmPassword) && confirmPassword != password
  {
    BlankIsAllSpace(confirmPassword);
  }
}
