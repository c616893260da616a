/** The signup form: the password-strength checks and the guard chain in front of `signup`. */
module SignupPage {
  import opened Text

  /** One row of the strength checklist shown under the password field; `caption` stands for its `label` in src/app/signup/page.tsx. */
  datatype PasswordCheck = PasswordCheck(caption: string, valid: bool)

  /** `/[A-Z]/.test(s)` and its kin: some character lies in the range `lo`..`hi`. */
  predicate HasCharIn(s: string, lo: char, hi: char) {
    exists i :: 0 <= i < |s| && lo <= s[i] <= hi
  }

  predicate IsAsciiAlphanumeric(c: char) {
    ('A' <= c <= 'Z') || ('a' <= c <= 'z') || ('0' <= c <= '9')
  }

  /** `/[^A-Za-z0-9]/.test(s)`: some character is not an ASCII letter or digit. */
  predicate HasSymbol(s: string) {
    exists i :: 0 <= i < |s| && !IsAsciiAlphanumeric(s[i])
  }

  /** The five checks, in the order the form lists them. */
  function PasswordChecks(password: string): seq<PasswordCheck> {
    [ PasswordCheck("12+ characters", Utf16Length(password) >= 12),
      PasswordCheck("At least one uppercase letter", HasCharIn(password, 'A', 'Z')),
      PasswordCheck("At least one lowercase letter", HasCharIn(password, 'a', 'z')),
      PasswordCheck("At least one number", HasCharIn(password, '0', '9')),
      PasswordCheck("At least one symbol", HasSymbol(password)) ]
  }

  /** `passwordChecks.every((check) => check.valid)`. */
  predicate IsPasswordStrong(password: string) {
    var checks := PasswordChecks(password);
    forall i :: 0 <= i < |checks| ==> checks[i].valid
  }

  /** A password is strong exactly when all five character-class conditions hold. */
  lemma StrongIffAllFive(password: string)
    ensures IsPasswordStrong(password) <==>
      && Utf16Length(password) >= 12
      && HasCharIn(password, 'A', 'Z')
      && HasCharIn(password, 'a', 'z')
      && HasCharIn(password, '0', '9')
      && HasSymbol(password)
  {
    var checks := PasswordChecks(password);
    if IsPasswordStrong(password) {
      assert checks[0].valid && checks[1].valid && checks[2].valid && checks[3].valid && checks[4].valid;
    }
  }

  datatype SignupForm = SignupForm(name: string, email: string, password: string, confirmPassword: string)

  /** What reaches `signup`: the confirmation field is not passed on. */
  datatype SignupRequest = SignupRequest(name: string, email: string, password: string)

  /** A submit either stops with the inline error or calls `signup`. */
  datatype SubmitOutcome = Rejected(error: string) | Submitted(request: SignupRequest)

  const FillInError := "Fill in your name, email, and password."
  const WeakPasswordError := "Use a stronger password that meets all requirements."
  const MismatchError := "Passwords do not match."

  predicate AllFilled(form: SignupForm) {
    form.name != "" && form.email != "" && form.password != ""
  }

  /** The early-return chain of `handleSubmit`: empty fields, then strength, then confirmation. */
  function HandleSubmit(form: SignupForm): (r: SubmitOutcome)
    ensures r == Rejected(FillInError) <==> !AllFilled(form)
    ensures r == Rejected(WeakPasswordError) <==> AllFilled(form) && !IsPasswordStrong(form.password)
    ensures r == Rejected(MismatchError) <==>
      AllFilled(form) && IsPasswordStrong(form.password) && form.password != form.confirmPassword
    ensures r.Submitted? <==>
      AllFilled(form) && IsPasswordStrong(form.password) && form.password == form.confirmPassword
    ensures r.Submitted? ==> r.request == SignupRequest(form.name, form.email, form.password)
  {
    if !AllFilled(form) then Rejected(FillInError)
    else if !IsPasswordStrong(form.password) then Rejected(WeakPasswordError)
    else if form.password != form.confirmPassword then Rejected(MismatchError)
    else Submitted(SignupRequest(form.name, form.email, form.password))
  }

  /** Whatever reaches `signup` has a confirmed password of at least twelve UTF-16 units. */
  lemma SubmittedPasswordIsConfirmedAndLong(form: SignupForm)
    requires HandleSubmit(form).Submitted?
    ensures HandleSubmit(form).request.password == form.confirmPassword
    ensures Utf16Length(form.confirmPassword) >= 12
  {
    StrongIffAllFive(form.password);
  }
}
