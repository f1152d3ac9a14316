/** The sign-in and sign-up form validators (utils/authValidation.ts): one
    validator per field, each returning its first failed check's message in a
    fixed order; the two aggregates collecting the field errors; and the
    password-strength meter. Regular expressions are stated by what they
    match. */
module AuthValidation {

  import opened Wrappers
  import opened Text
  import opened Seqs

  /** The form fields an error can name. */
  datatype Field = NameField | EmailField | PasswordField | ConfirmPasswordField

  /** The `field` string the source puts in an error. */
  function FieldName(f: Field): string {
    match f
    case NameField => "name"
    case EmailField => "email"
    case PasswordField => "password"
    case ConfirmPasswordField => "confirmPassword"
  }

  datatype ValidationError = ValidationError(field: Field, message: string)

  datatype ValidationResult = ValidationResult(isValid: bool, errors: seq<ValidationError>)

  // ---------------------------------------------------------------- email

  /** `[^\s@]`: neither white space nor `@`. */
  predicate Plain(c: char) {
    !IsSpace(c) && c != '@'
  }

  predicate AllPlain(s: string) {
    forall k :: 0 <= k < |s| ==> Plain(s[k])
  }

  /** `/^[^\s@]+@[^\s@]+\.[^\s@]+$/.test(s)`: a non-empty local part, `@`, and
      a domain with a dot that is neither its first nor its last character,
      none of the three parts holding white space or a further `@`. */
  predicate EmailPattern(s: string) {
    exists at :: 0 < at < |s| && s[at] == '@' &&
      exists dot :: at + 1 < dot < |s| - 1 && s[dot] == '.' &&
        AllPlain(s[..at]) && AllPlain(s[at + 1..dot]) && AllPlain(s[dot + 1..])
  }

  /** An address the pattern accepts holds no white space and exactly one `@`;
      in particular it is not blank, so the blank check never rejects it. */
  lemma EmailPatternShape(s: string)
    requires EmailPattern(s)
    ensures forall k :: 0 <= k < |s| ==> !IsSpace(s[k])
    ensures exists at :: 0 <= at < |s| && s[at] == '@' && forall k :: 0 <= k < |s| && s[k] == '@' ==> k == at
    ensures !IsBlank(s)
  {
    var at :| 0 < at < |s| && s[at] == '@' &&
      exists dot :: at + 1 < dot < |s| - 1 && s[dot] == '.' &&
        AllPlain(s[..at]) && AllPlain(s[at + 1..dot]) && AllPlain(s[dot + 1..]);
    var dot :| at + 1 < dot < |s| - 1 && s[dot] == '.' &&
      AllPlain(s[..at]) && AllPlain(s[at + 1..dot]) && AllPlain(s[dot + 1..]);
    forall k | 0 <= k < |s| && k != at && k != dot ensures Plain(s[k]) {
      if k < at {
        assert s[k] == s[..at][k];
      } else if k < dot {
        assert s[k] == s[at + 1..dot][k - at - 1];
      } else {
        assert s[k] == s[dot + 1..][k - dot - 1];
      }
    }
    assert !IsSpace(s[0]);
  }

  /** `validateEmail`: "Email is required" for the empty string, "Email cannot
      be empty" for white space only, then the pattern, then at most 254
      characters. */
  function ValidateEmail(email: string): (r: Option<ValidationError>)
    ensures r.None? <==> !IsBlank(email) && EmailPattern(email) && |email| <= 254
    ensures r.Some? ==> r.value.field == EmailField
    ensures email == [] ==> r == Some(ValidationError(EmailField, "Email is required"))
    ensures email != [] && IsBlank(email) ==> r == Some(ValidationError(EmailField, "Email cannot be empty"))
    ensures !IsBlank(email) && !EmailPattern(email) ==>
      r == Some(ValidationError(EmailField, "Please enter a valid email address"))
    ensures EmailPattern(email) && |email| > 254 ==> r == Some(ValidationError(EmailField, "Email is too long"))
  {
    if email == [] then Some(ValidationError(EmailField, "Email is required"))
    else if Trim(email) == [] then Some(ValidationError(EmailField, "Email cannot be empty"))
    else if !EmailPattern(email) then Some(ValidationError(EmailField, "Please enter a valid email address"))
    else if |email| > 254 then Some(ValidationError(EmailField, "Email is too long"))
    else None
  }

  // ---------------------------------------------------------------- password

  /** No line terminator from index `i` to index `j`, in either order. */
  predicate NoBreakBetween(s: string, i: int, j: int) {
    forall k :: 0 <= k < |s| && (i <= k <= j || j <= k <= i) ==> !IsLineBreak(s[k])
  }

  /** `/(?=.*[a-zA-Z])(?=.*\d)/.test(s)`: from one start position, a letter
      and a digit can each be reached without crossing a line terminator,
      that is, some line holds both a letter and a digit. */
  predicate LetterAndDigitOnOneLine(s: string) {
    exists i :: 0 <= i < |s| && IsLetter(s[i]) &&
      exists j :: 0 <= j < |s| && IsDigit(s[j]) && NoBreakBetween(s, i, j)
  }

  /** On a single line the lookahead test is "has a letter and has a digit". */
  lemma OneLineLetterAndDigit(s: string)
    requires forall k :: 0 <= k < |s| ==> !IsLineBreak(s[k])
    ensures LetterAndDigitOnOneLine(s) <==> HasChar(s, IsLetter) && HasChar(s, IsDigit)
  {
    if HasChar(s, IsLetter) && HasChar(s, IsDigit) {
      var i :| 0 <= i < |s| && IsLetter(s[i]);
      var j :| 0 <= j < |s| && IsDigit(s[j]);
      assert NoBreakBetween(s, i, j);
    }
  }

  /** `validatePassword`: required, at least 6 and at most 128 characters,
      then a letter and a digit. */
  function ValidatePassword(password: string): (r: Option<ValidationError>)
    ensures r.None? <==> 6 <= |password| <= 128 && LetterAndDigitOnOneLine(password)
    ensures r.Some? ==> r.value.field == PasswordField
    ensures password == [] ==> r == Some(ValidationError(PasswordField, "Password is required"))
    ensures 0 < |password| < 6 ==>
      r == Some(ValidationError(PasswordField, "Password must be at least 6 characters long"))
    ensures |password| > 128 ==>
      r == Some(ValidationError(PasswordField, "Password is too long (max 128 characters)"))
    ensures 6 <= |password| <= 128 && !LetterAndDigitOnOneLine(password) ==>
      r == Some(ValidationError(PasswordField, "Password must contain at least one letter and one number"))
  {
    if password == [] then Some(ValidationError(PasswordField, "Password is required"))
    else if |password| < 6 then Some(ValidationError(PasswordField, "Password must be at least 6 characters long"))
    else if |password| > 128 then Some(ValidationError(PasswordField, "Password is too long (max 128 characters)"))
    else if !LetterAndDigitOnOneLine(password) then
      Some(ValidationError(PasswordField, "Password must contain at least one letter and one number"))
    else None
  }

  // ---------------------------------------------------------------- name

  /** `[a-zA-Z\s\-']`. */
  predicate NameChar(c: char) {
    IsLetter(c) || IsSpace(c) || c == '-' || c == '\''
  }

  /** `validateName`: required, not blank, at least 2 characters once trimmed,
      at most 100 characters as given, then only letters, white space,
      hyphens and apostrophes. */
  function ValidateName(name: string): (r: Option<ValidationError>)
    ensures r.None? <==>
      !IsBlank(name) && |Trim(name)| >= 2 && |name| <= 100 && forall k :: 0 <= k < |name| ==> NameChar(name[k])
    ensures r.Some? ==> r.value.field == NameField
    ensures name == [] ==> r == Some(ValidationError(NameField, "Name is required"))
    ensures name != [] && IsBlank(name) ==> r == Some(ValidationError(NameField, "Name cannot be empty"))
    ensures !IsBlank(name) && |Trim(name)| < 2 ==>
      r == Some(ValidationError(NameField, "Name must be at least 2 characters long"))
    ensures |Trim(name)| >= 2 && |name| > 100 ==>
      r == Some(ValidationError(NameField, "Name is too long (max 100 characters)"))
    ensures |Trim(name)| >= 2 && |name| <= 100 && (exists k :: 0 <= k < |name| && !NameChar(name[k])) ==>
      r == Some(ValidationError(NameField, "Name can only contain letters, spaces, hyphens, and apostrophes"))
  {
    if name == [] then Some(ValidationError(NameField, "Name is required"))
    else if Trim(name) == [] then Some(ValidationError(NameField, "Name cannot be empty"))
    else if |Trim(name)| < 2 then Some(ValidationError(NameField, "Name must be at least 2 characters long"))
    else if |name| > 100 then Some(ValidationError(NameField, "Name is too long (max 100 characters)"))
    else if !(forall k :: 0 <= k < |name| ==> NameChar(name[k])) then
      Some(ValidationError(NameField, "Name can only contain letters, spaces, hyphens, and apostrophes"))
    else None
  }

  /** `validateConfirmPassword`: the confirmation is required, then must equal the password. */
  function ValidateConfirmPassword(password: string, confirm: string): (r: Option<ValidationError>)
    ensures r.None? <==> confirm != [] && confirm == password
    ensures r.Some? ==> r.value.field == ConfirmPasswordField
    ensures confirm == [] ==> r == Some(ValidationError(ConfirmPasswordField, "Please confirm your password"))
    ensures confirm != [] && confirm != password ==>
      r == Some(ValidationError(ConfirmPasswordField, "Passwords do not match"))
  {
    if confirm == [] then Some(ValidationError(ConfirmPasswordField, "Please confirm your password"))
    else if password != confirm then Some(ValidationError(ConfirmPasswordField, "Passwords do not match"))
    else None
  }

  // ---------------------------------------------------------------- aggregates

  /** The errors among `checks`, in order. */
  function Present(checks: seq<Option<ValidationError>>): (r: seq<ValidationError>)
    ensures |r| <= |checks|
    ensures r == [] <==> forall k :: 0 <= k < |checks| ==> checks[k].None?
  {
    if checks == [] then []
    else
      var rest := Present(checks[1..]);
      if checks[0].Some? then [checks[0].value] + rest else rest
  }

  /** The error of one check, as a list of zero or one errors. */
  function Listed(c: Option<ValidationError>): seq<ValidationError> {
    if c.Some? then [c.value] else []
  }

  /** The errors of two checks. */
  lemma PresentTwo(a: Option<ValidationError>, b: Option<ValidationError>)
    ensures Present([a, b]) == Listed(a) + Listed(b)
  {
    assert [a, b][1..] == [b];
    assert [b][1..] == [];
  }

  /** The errors of four checks. */
  lemma PresentFour(a: Option<ValidationError>, b: Option<ValidationError>,
                    c: Option<ValidationError>, d: Option<ValidationError>)
    ensures Present([a, b, c, d]) == Listed(a) + Listed(b) + Listed(c) + Listed(d)
  {
    assert [a, b, c, d][1..] == [b, c, d];
    assert [b, c, d][1..] == [c, d];
    PresentTwo(c, d);
  }

  /** Position of a field in the registration form. */
  function FieldRank(field: Field): nat {
    match field
    case NameField => 0
    case EmailField => 1
    case PasswordField => 2
    case ConfirmPasswordField => 3
  }

  /** The fields of `errors` appear in form order, each at most once. */
  predicate InFormOrder(errors: seq<ValidationError>) {
    forall i, j :: 0 <= i < j < |errors| ==> FieldRank(errors[i].field) < FieldRank(errors[j].field)
  }

  /** Every error in `errors` is for a field before position `n` of the form. */
  predicate RanksBelow(errors: seq<ValidationError>, n: nat) {
    forall x :: x in errors ==> FieldRank(x.field) < n
  }

  /** An error list built in form order stays in form order when a later field's error is pushed. */
  lemma PushKeepsOrder(errors: seq<ValidationError>, e: ValidationError)
    requires InFormOrder(errors) && RanksBelow(errors, FieldRank(e.field))
    ensures InFormOrder(errors + [e]) && RanksBelow(errors + [e], FieldRank(e.field) + 1)
  {
    var r := errors + [e];
    forall i, j | 0 <= i < j < |r| ensures FieldRank(r[i].field) < FieldRank(r[j].field) {
      if j == |errors| {
        assert r[i] in errors;
      }
    }
  }

  /** The errors of the four registration checks come in form order. */
  lemma FourInOrder(a: Option<ValidationError>, b: Option<ValidationError>,
                    c: Option<ValidationError>, d: Option<ValidationError>)
    requires a.Some? ==> a.value.field == NameField
    requires b.Some? ==> b.value.field == EmailField
    requires c.Some? ==> c.value.field == PasswordField
    requires d.Some? ==> d.value.field == ConfirmPasswordField
    ensures InFormOrder(Listed(a) + Listed(b) + Listed(c) + Listed(d))
  {
    var ab := Listed(a) + Listed(b);
    var abc := ab + Listed(c);
    if b.Some? { PushKeepsOrder(Listed(a), b.value); }
    assert InFormOrder(ab) && RanksBelow(ab, 2);
    if c.Some? { PushKeepsOrder(ab, c.value); }
    assert InFormOrder(abc) && RanksBelow(abc, 3);
    if d.Some? { PushKeepsOrder(abc, d.value); }
  }

  /** `validateLoginCredentials`: the email error, then the password error,
      each if any; valid exactly when there is none. */
  method ValidateLoginCredentials(email: string, password: string) returns (res: ValidationResult)
    ensures res.errors == Present([ValidateEmail(email), ValidatePassword(password)])
    ensures res.isValid <==> res.errors == []
    ensures res.isValid <==> ValidateEmail(email).None? && ValidatePassword(password).None?
    ensures |res.errors| <= 2 && InFormOrder(res.errors)
  {
    var errors: seq<ValidationError> := [];
    var emailError := ValidateEmail(email);
    if emailError.Some? {
      errors := errors + [emailError.value];
    }
    assert errors == Listed(emailError);
    ghost var before := errors;
    var passwordError := ValidatePassword(password);
    if passwordError.Some? {
      PushKeepsOrder(errors, passwordError.value);
      errors := errors + [passwordError.value];
    }
    assert errors == before + Listed(passwordError);
    PresentTwo(emailError, passwordError);
    res := ValidationResult(|errors| == 0, errors);
  }

  /** `validateRegistrationData`: the name, email, password and confirmation
      errors, each if any and in that order; valid exactly when there is none. */
  method ValidateRegistrationData(name: string, email: string, password: string, confirm: string)
    returns (res: ValidationResult)
    ensures res.errors == Present([ValidateName(name), ValidateEmail(email), ValidatePassword(password),
                                   ValidateConfirmPassword(password, confirm)])
    ensures res.isValid <==> res.errors == []
    ensures res.isValid <==> ValidateName(name).None? && ValidateEmail(email).None? &&
                             ValidatePassword(password).None? && ValidateConfirmPassword(password, confirm).None?
    ensures |res.errors| <= 4 && InFormOrder(res.errors)
  {
    var errors: seq<ValidationError> := [];
    var nameError := ValidateName(name);
    if nameError.Some? {
      errors := errors + [nameError.value];
    }
    assert errors == Listed(nameError);
    ghost var before := errors;
    var emailError := ValidateEmail(email);
    if emailError.Some? {
      errors := errors + [emailError.value];
    }
    assert errors == before + Listed(emailError);
    before := errors;
    var passwordError := ValidatePassword(password);
    if passwordError.Some? {
      errors := errors + [passwordError.value];
    }
    assert errors == before + Listed(passwordError);
    before := errors;
    var confirmError := ValidateConfirmPassword(password, confirm);
    if confirmError.Some? {
      errors := errors + [confirmError.value];
    }
    assert errors == before + Listed(confirmError);
    PresentFour(nameError, emailError, passwordError, confirmError);
    FourInOrder(nameError, emailError, passwordError, confirmError);
    res := ValidationResult(|errors| == 0, errors);
  }

  // ---------------------------------------------------------------- strength

  /** `[!@#$%^&*(),.?":{}|<>]`. */
  predicate IsSpecial(c: char) {
    c in "!@#$%^&*(),.?\":{}|<>"
  }

  /** The five criteria, in the order the meter checks them. */
  function Criteria(password: string): seq<bool> {
    [|password| >= 8, HasChar(password, IsLower), HasChar(password, IsUpper),
     HasChar(password, IsDigit), HasChar(password, IsSpecial)]
  }

  const Advice: seq<string> := ["Use at least 8 characters", "Add lowercase letters", "Add uppercase letters",
                                "Add numbers", "Add special characters (!@#$%^&*)"]

  /** One point for a criterion met. */
  function Point(met: bool): nat {
    if met then 1 else 0
  }

  /** The advice for a criterion, if it is missed. */
  function Hint(met: bool, advice: string): seq<string> {
    if met then [] else [advice]
  }

  /** The score: the number of criteria met. */
  function Score(password: string): (n: nat)
    ensures n <= 5
    ensures n == 5 <==> forall k :: 0 <= k < 5 ==> Criteria(password)[k]
  {
    var c := Criteria(password);
    Point(c[0]) + Point(c[1]) + Point(c[2]) + Point(c[3]) + Point(c[4])
  }

  /** The suggestions: the advice for each missed criterion, in criterion order. */
  function Suggestions(password: string): (r: seq<string>)
    ensures |r| + Score(password) == 5
    ensures forall a :: a in r ==> a in Advice
  {
    var c := Criteria(password);
    Hint(c[0], Advice[0]) + Hint(c[1], Advice[1]) + Hint(c[2], Advice[2]) + Hint(c[3], Advice[3]) +
    Hint(c[4], Advice[4])
  }

  /** The five pieces of advice are different strings. */
  lemma AdviceDistinct()
    ensures forall i, j :: 0 <= i < j < 5 ==> Advice[i] != Advice[j]
  {
    assert Advice[0][4] == 'a' && Advice[1][4] == 'l' && Advice[2][4] == 'u';
    assert Advice[3][4] == 'n' && Advice[4][4] == 's';
  }

  /** A hint placed before a subsequence of `s` gives a subsequence of its
      advice followed by `s`. */
  lemma HintBefore(met: bool, a: string, r: seq<string>, s: seq<string>)
    requires IsSubsequence(r, s)
    ensures IsSubsequence(Hint(met, a) + r, [a] + s)
  {
    assert ([a] + s)[1..] == s;
    if !met {
      assert ([a] + r)[0] == a && ([a] + r)[1..] == r;
    } else {
      assert Hint(met, a) + r == r;
    }
  }

  /** The advice for each missed criterion, in criterion order: a
      reference definition for any number of criteria. */
  function Hints(c: seq<bool>, adv: seq<string>): (r: seq<string>)
    requires |c| == |adv|
    ensures forall x :: x in r ==> x in adv
    decreases |c|
  {
    if c == [] then [] else Hint(c[0], adv[0]) + Hints(c[1..], adv[1..])
  }

  /** For five criteria the hints are the meter's five checks in a row. */
  lemma HintsFive(c: seq<bool>, adv: seq<string>)
    requires |c| == 5 && |adv| == 5
    ensures Hints(c, adv) ==
      Hint(c[0], adv[0]) + Hint(c[1], adv[1]) + Hint(c[2], adv[2]) + Hint(c[3], adv[3]) + Hint(c[4], adv[4])
  {
    var c1, a1 := c[1..], adv[1..];
    var c2, a2 := c1[1..], a1[1..];
    var c3, a3 := c2[1..], a2[1..];
    var c4, a4 := c3[1..], a3[1..];
    assert Hints(c4[1..], a4[1..]) == [];
    assert Hints(c4, a4) == Hint(c[4], adv[4]);
    assert Hints(c3, a3) == Hint(c[3], adv[3]) + Hint(c[4], adv[4]);
    assert Hints(c2, a2) == Hint(c[2], adv[2]) + (Hint(c[3], adv[3]) + Hint(c[4], adv[4]));
    assert Hints(c1, a1) == Hint(c[1], adv[1]) + (Hint(c[2], adv[2]) + (Hint(c[3], adv[3]) + Hint(c[4], adv[4])));
  }

  /** Of different pieces of advice, each is among the hints exactly when
      its criterion is missed. */
  lemma {:induction false} HintsMissed(c: seq<bool>, adv: seq<string>)
    requires |c| == |adv| && forall i, j :: 0 <= i < j < |adv| ==> adv[i] != adv[j]
    ensures forall k :: 0 <= k < |c| ==> (adv[k] in Hints(c, adv) <==> !c[k])
    decreases |c|
  {
    if c != [] {
      var rest := Hints(c[1..], adv[1..]);
      HintsMissed(c[1..], adv[1..]);
      forall k | 0 <= k < |c| ensures adv[k] in Hints(c, adv) <==> !c[k] {
        if k == 0 {
          assert adv[0] !in adv[1..];
        } else {
          assert adv[k] == adv[1..][k - 1] && adv[k] != adv[0];
        }
      }
    }
  }

  /** The hints keep the order of the advice. */
  lemma {:induction false} HintsOrdered(c: seq<bool>, adv: seq<string>)
    requires |c| == |adv|
    ensures IsSubsequence(Hints(c, adv), adv)
    decreases |c|
  {
    if c != [] {
      HintsOrdered(c[1..], adv[1..]);
      HintBefore(c[0], adv[0], Hints(c[1..], adv[1..]), adv[1..]);
      assert adv == [adv[0]] + adv[1..];
    }
  }

  /** Each piece of advice is suggested exactly when its criterion is
      missed, and the suggestions keep the order of the advice list. */
  lemma SuggestionsMissed(password: string)
    ensures forall k :: 0 <= k < 5 ==> (Advice[k] in Suggestions(password) <==> !Criteria(password)[k])
    ensures IsSubsequence(Suggestions(password), Advice)
  {
    AdviceDistinct();
    HintsFive(Criteria(password), Advice);
    HintsMissed(Criteria(password), Advice);
    HintsOrdered(Criteria(password), Advice);
  }

  /** Label and colour by score: 0 and 1 "Very Weak", then "Weak", "Fair",
      "Good" and "Strong"; any other score falls back to "Very Weak". */
  function Label(score: nat): (r: (string, string)) {
    match score
    case 2 => ("Weak", "text-orange-600")
    case 3 => ("Fair", "text-yellow-600")
    case 4 => ("Good", "text-blue-600")
    case 5 => ("Strong", "text-green-600")
    case _ => ("Very Weak", "text-red-600")
  }

  datatype Strength = Strength(score: nat, labelText: string, color: string, suggestions: seq<string>)

  /** `getPasswordStrength`: one point per criterion met, one suggestion per
      criterion missed, and the label for the score. */
  method GetPasswordStrength(password: string) returns (s: Strength)
    ensures s.score == Score(password) && s.suggestions == Suggestions(password)
    ensures s.score + |s.suggestions| == 5
    ensures (s.labelText, s.color) == Label(s.score)
    ensures s.labelText == "Strong" <==> (|password| >= 8 && HasChar(password, IsLower) &&
      HasChar(password, IsUpper) && HasChar(password, IsDigit) && HasChar(password, IsSpecial))
  {
    ghost var c := Criteria(password);
    var score := 0;
    var suggestions: seq<string> := [];
    if |password| >= 8 { score := score + 1; } else { suggestions := suggestions + [Advice[0]]; }
    assert score == Point(c[0]) && suggestions == Hint(c[0], Advice[0]);
    if HasChar(password, IsLower) { score := score + 1; } else { suggestions := suggestions + [Advice[1]]; }
    assert score == Point(c[0]) + Point(c[1]) && suggestions == Hint(c[0], Advice[0]) + Hint(c[1], Advice[1]);
    if HasChar(password, IsUpper) { score := score + 1; } else { suggestions := suggestions + [Advice[2]]; }
    assert score == Point(c[0]) + Point(c[1]) + Point(c[2]) &&
      suggestions == Hint(c[0], Advice[0]) + Hint(c[1], Advice[1]) + Hint(c[2], Advice[2]);
    if HasChar(password, IsDigit) { score := score + 1; } else { suggestions := suggestions + [Advice[3]]; }
    assert score == Point(c[0]) + Point(c[1]) + Point(c[2]) + Point(c[3]) &&
      suggestions == Hint(c[0], Advice[0]) + Hint(c[1], Advice[1]) + Hint(c[2], Advice[2]) + Hint(c[3], Advice[3]);
    if HasChar(password, IsSpecial) { score := score + 1; } else { suggestions := suggestions + [Advice[4]]; }
    var (labelText, color) := Label(score);
    s := Strength(score, labelText, color, suggestions);
  }
}
