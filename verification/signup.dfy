/** The sign-up form: its validation rule, which reports the first failing check, and the
    password-strength meter with its label. */
module Signup {
  import opened Wrappers
  import opened Text

  datatype SignupForm = SignupForm(fullName: string, email: string, password: string,
                                   confirmPassword: string, userType: string)

  /** The validation failures, in the order the checks run. */
  datatype SignupError = MissingFields | InvalidEmail | PasswordTooShort | PasswordMismatch

  const MinPasswordLength: nat := 8

  function Message(e: SignupError): string {
    match e
    case MissingFields => "Please fill in all required fields"
    case InvalidEmail => "Please enter a valid email address"
    case PasswordTooShort => "Password must be at least 8 characters long"
    case PasswordMismatch => "Passwords do not match"
  }

  /** The four fields the first check requires; the confirmation is not among them. */
  predicate RequiredFilled(f: SignupForm) {
    f.fullName != "" && f.email != "" && f.password != "" && f.userType != ""
  }

  /** A form every check accepts. */
  predicate Acceptable(f: SignupForm) {
    RequiredFilled(f) && '@' in f.email && |f.password| >= MinPasswordLength && f.password == f.confirmPassword
  }

  /** `validateForm`: the checks run in a fixed order and the first failing one decides the
      error. */
  function ValidateForm(f: SignupForm): (r: Outcome<SignupError>)
    ensures r.Pass? <==> Acceptable(f)
    ensures r == Fail(MissingFields) <==> !RequiredFilled(f)
    ensures r == Fail(InvalidEmail) <==> RequiredFilled(f) && '@' !in f.email
    ensures r == Fail(PasswordTooShort) <==> RequiredFilled(f) && '@' in f.email && |f.password| < MinPasswordLength
    ensures r == Fail(PasswordMismatch) <==> RequiredFilled(f) && '@' in f.email && |f.password| >= MinPasswordLength
                                             && f.password != f.confirmPassword
  {
    if !RequiredFilled(f) then Fail(MissingFields)
    else if '@' !in f.email then Fail(InvalidEmail)
    else if |f.password| < MinPasswordLength then Fail(PasswordTooShort)
    else if f.password != f.confirmPassword then Fail(PasswordMismatch)
    else Pass
  }

  /** Leaving the confirmation empty never hides an earlier failure: the first three checks
      do not look at it. */
  lemma EarlierChecksIgnoreConfirmation(f: SignupForm, confirm: string)
    requires ValidateForm(f).Fail? && ValidateForm(f).error != PasswordMismatch
    ensures ValidateForm(f.(confirmPassword := confirm)) == ValidateForm(f)
  {
  }

  // ---------------------------------------------------------------------------
  // Password strength

  predicate HasUpper(s: string) {
    exists i :: 0 <= i < |s| && IsUpper(s[i])
  }

  predicate HasDigit(s: string) {
    exists i :: 0 <= i < |s| && IsDigit(s[i])
  }

  predicate IsAlphanumeric(c: char) {
    IsUpper(c) || IsLower(c) || IsDigit(c)
  }

  /** `/[^A-Za-z0-9]/`: some character outside the ASCII letters and digits. */
  predicate HasSymbol(s: string) {
    exists i :: 0 <= i < |s| && !IsAlphanumeric(s[i])
  }

  function Points(b: bool): nat {
    if b then 25 else 0
  }

  function Count(b: bool): nat {
    if b then 1 else 0
  }

  /** How many of the four strength criteria (length, upper case, digit, symbol) `p` meets. */
  function CriteriaMet(p: string): (c: nat)
    ensures c <= 4
    ensures c == 4 <==> |p| >= MinPasswordLength && HasUpper(p) && HasDigit(p) && HasSymbol(p)
    ensures c == 0 <==> !(|p| >= MinPasswordLength) && !HasUpper(p) && !HasDigit(p) && !HasSymbol(p)
  {
    Count(|p| >= MinPasswordLength) + Count(HasUpper(p)) + Count(HasDigit(p)) + Count(HasSymbol(p))
  }

  /** `getPasswordStrength`: 0 for an empty password, otherwise 25 for each criterion met. */
  function PasswordStrength(p: string): (s: nat)
    ensures s == 0 || s == 25 || s == 50 || s == 75 || s == 100
    ensures p == "" ==> s == 0
    ensures p != "" ==> s == 25 * CriteriaMet(p)
    ensures s == 100 <==> |p| >= MinPasswordLength && HasUpper(p) && HasDigit(p) && HasSymbol(p)
    ensures s == 0 <==> |p| < MinPasswordLength && forall i :: 0 <= i < |p| ==> IsLower(p[i])
  {
    if p == "" then 0
    else
      Points(|p| >= MinPasswordLength) + Points(HasUpper(p)) + Points(HasDigit(p)) + Points(HasSymbol(p))
  }

  /** Typing more characters never lowers the strength: every criterion, once met, stays met. */
  lemma StrengthGrowsWithExtension(p: string, q: string)
    ensures PasswordStrength(p) <= PasswordStrength(p + q)
  {
    if p != "" {
      if HasUpper(p) {
        var i :| 0 <= i < |p| && IsUpper(p[i]);
        assert (p + q)[i] == p[i];
      }
      if HasDigit(p) {
        var i :| 0 <= i < |p| && IsDigit(p[i]);
        assert (p + q)[i] == p[i];
      }
      if HasSymbol(p) {
        var i :| 0 <= i < |p| && !IsAlphanumeric(p[i]);
        assert (p + q)[i] == p[i];
      }
    }
  }

  /** A password that passes validation is at least eight characters long, so it scores at
      least 25. */
  lemma AcceptedPasswordScores(f: SignupForm)
    requires ValidateForm(f).Pass?
    ensures PasswordStrength(f.password) >= 25
  {
  }

  datatype StrengthLabel = Weak | Fair | Good | VeryStrong

  function LabelText(l: StrengthLabel): string {
    match l
    case Weak => "Weak"
    case Fair => "Fair"
    case Good => "Good"
    case VeryStrong => "Very Strong"
  }

  function Rank(l: StrengthLabel): nat {
    match l
    case Weak => 0
    case Fair => 1
    case Good => 2
    case VeryStrong => 3
  }

  /** The meter's label: Weak up to 25, Fair up to 50, Good up to 75, Very Strong above. */
  function Label(strength: int): (l: StrengthLabel)
    ensures l == Weak <==> strength <= 25
    ensures l == VeryStrong <==> strength > 75
    ensures l == Fair <==> 25 < strength <= 50
    ensures l == Good <==> 50 < strength <= 75
  {
    if strength <= 25 then Weak
    else if strength <= 50 then Fair
    else if strength <= 75 then Good
    else VeryStrong
  }

  /** A higher strength never gets a lower label. */
  lemma LabelMonotone(s1: int, s2: int)
    requires s1 <= s2
    ensures Rank(Label(s1)) <= Rank(Label(s2))
  {
  }

  /** Each of the five possible scores gets its own label except 0 and 25, which are both
      Weak, and the meter shows that label's text. */
  lemma LabelsOfScores()
    ensures Label(0) == Weak && Label(25) == Weak && Label(50) == Fair
    ensures Label(75) == Good && Label(100) == VeryStrong
    ensures LabelText(Label(0)) == "Weak" && LabelText(Label(50)) == "Fair"
    ensures LabelText(Label(75)) == "Good" && LabelText(Label(100)) == "Very Strong"
  {
  }
}
