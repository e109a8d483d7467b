/** `src/container/login/Index.tsx`: the per-field rules of the login
    form, the error map they maintain, the field updates and the guard in
    front of the `loginWithEmail` dispatch. */
module LoginScreen {

  import opened Wrappers
  import opened Text
  import opened Utils
  import RegisterScreen

  /** The keys of `LoginAuth`. */
  datatype Field = Email | Password

  datatype LoginAuth = LoginAuth(email: string, password: string)

  /** What `handleSubmit` dispatches. */
  datatype LoginRequest = LoginRequest(email: string, password: string)

  function ValueOf(form: LoginAuth, f: Field): string {
    match f
    case Email => form.email
    case Password => form.password
  }

  /** `{...prev, [field]: value}` */
  function WithValue(form: LoginAuth, f: Field, value: string): (r: LoginAuth)
    ensures ValueOf(r, f) == value
    ensures forall g :: g != f ==> ValueOf(r, g) == ValueOf(form, g)
  {
    match f
    case Email => form.(email := value)
    case Password => form.(password := value)
  }

  /** The `switch` of `validateField`: the email rule is the registration
      screen's; the password need only be non-blank. */
  function FieldError(form: LoginAuth, f: Field): Option<string> {
    match f
    case Email => RegisterScreen.EmailError(form.email)
    case Password => IsRequired(Some(form.password), "Password")
  }

  /** The password has no minimum length: any non-blank one passes, and a
      blank one is reported as required. */
  lemma PasswordRule(form: LoginAuth)
    ensures FieldError(form, Password).None? <==> !AllWhitespace(form.password)
    ensures FieldError(form, Password).Some? ==> FieldError(form, Password) == Some("Password is required.")
  {
    assert "Password" + " is required." == "Password is required.";
  }

  /** A password the registration screen accepts is accepted here too. */
  lemma PasswordWeakerThanRegister(form: LoginAuth)
    requires RegisterScreen.PasswordError(form.password).None?
    ensures FieldError(form, Password).None?
  {
    RegisterScreen.PasswordErrorIff(form.password);
    TrimEmptyIff(form.password);
  }

  /** The converse fails: a one-letter password passes here and is too
      short for registration. */
  lemma ShortPasswordPasses()
    ensures FieldError(LoginAuth("", "a"), Password).None?
    ensures RegisterScreen.PasswordError("a").Some?
  {
    assert "a"[0] == 'a' && !IsWhitespace('a');
    assert |Trim("a")| <= 1;
  }

  lemma FieldErrorNonEmpty(form: LoginAuth, f: Field)
    ensures FieldError(form, f).Some? ==> FieldError(form, f).value != ""
  {
  }

  predicate FormValid(form: LoginAuth) {
    FieldError(form, Email).None? && FieldError(form, Password).None?
  }

  /** The error map after both fields were validated in turn, finding
      `e` and `p`. */
  function Validated(errors: map<Field, string>, e: Option<string>, p: Option<string>): map<Field, string> {
    RegisterScreen.Recorded(RegisterScreen.Recorded(errors, Email, e), Password, p)
  }

  /** Validating both fields forgets what the map held before, and leaves
      exactly the failing fields with their messages. */
  lemma ValidatedEntries(errors: map<Field, string>, e: Option<string>, p: Option<string>)
    ensures Validated(errors, e, p) == Validated(map[], e, p)
    ensures var m := Validated(map[], e, p);
            && (Email in m <==> e.Some?) && (Email in m ==> m[Email] == e.value)
            && (Password in m <==> p.Some?) && (Password in m ==> m[Password] == p.value)
            && (m == map[] <==> e.None? && p.None?)
  {
    var m, m0 := Validated(errors, e, p), Validated(map[], e, p);
    forall f | true
      ensures (f in m <==> f in m0) && (f in m ==> m[f] == m0[f])
    {
      match f
      case Email =>
      case Password =>
    }
    if e.None? && p.None? {
      assert m0 == map[];
    }
  }

  /** The error map of the whole form. */
  function FormErrors(form: LoginAuth): map<Field, string> {
    Validated(map[], FieldError(form, Email), FieldError(form, Password))
  }

  /** The form's error map holds exactly the failing fields, each with its
      own message; it is empty exactly when the form is valid. */
  lemma FormErrorsEntries(form: LoginAuth, f: Field)
    ensures f in FormErrors(form) <==> FieldError(form, f).Some?
    ensures f in FormErrors(form) ==> FormErrors(form)[f] == FieldError(form, f).value
    ensures FormErrors(form) == map[] <==> FormValid(form)
  {
    ValidatedEntries(map[], FieldError(form, Email), FieldError(form, Password));
  }

  class LoginForm {

    var formData: LoginAuth
    var validationErrors: map<Field, string>

    ghost predicate Valid()
      reads this
    {
      forall f :: f in validationErrors ==> validationErrors[f] != ""
    }

    constructor ()
      ensures Valid()
      ensures formData == LoginAuth("", "") && validationErrors == map[]
    {
      formData := LoginAuth("", "");
      validationErrors := map[];
    }

    /** `updateFormData(field, value)`: sets one field and drops that
        field's error; the auth error is left alone. */
    method UpdateFormData(f: Field, value: string)
      requires Valid()
      modifies this
      ensures Valid()
      ensures formData == WithValue(old(formData), f, value)
      ensures validationErrors == old(validationErrors) - {f}
    {
      formData := WithValue(formData, f, value);
      if f in validationErrors {
        validationErrors := validationErrors - {f};
      }
    }

    /** `validateField(field)`: true exactly when the field has no error;
        records or drops that field's entry and no other. */
    method ValidateField(f: Field) returns (ok: bool)
      requires Valid()
      modifies this`validationErrors
      ensures Valid()
      ensures ok <==> FieldError(formData, f).None?
      ensures validationErrors == RegisterScreen.Recorded(old(validationErrors), f, FieldError(formData, f))
      ensures f in validationErrors <==> !ok
      ensures forall g :: g != f ==> (g in validationErrors <==> g in old(validationErrors))
      ensures forall g :: g != f && g in validationErrors ==> validationErrors[g] == old(validationErrors)[g]
    {
      var error := FieldError(formData, f);
      FieldErrorNonEmpty(formData, f);
      if error.Some? {
        validationErrors := validationErrors[f := error.value];
        return false;
      } else {
        validationErrors := validationErrors - {f};
      }
      return true;
    }

    /** `validateForm()`: validates both fields, neither skipped. */
    method ValidateForm() returns (ok: bool)
      requires Valid()
      modifies this`validationErrors
      ensures Valid()
      ensures ok <==> FormValid(formData)
      ensures validationErrors == FormErrors(formData)
    {
      var emailValid := ValidateField(Email);
      var passwordValid := ValidateField(Password);
      ok := emailValid && passwordValid;
      ValidatedEntries(old(validationErrors), FieldError(formData, Email), FieldError(formData, Password));
    }

    /** The guard of `handleSubmit()`: the login it would dispatch, or None
        when the form does not validate. */
    method HandleSubmit() returns (request: Option<LoginRequest>)
      requires Valid()
      modifies this`validationErrors
      ensures Valid()
      ensures request.Some? <==> FormValid(formData)
      ensures request.Some? ==> request.value == LoginRequest(formData.email, formData.password)
      ensures validationErrors == FormErrors(formData)
    {
      var valid := ValidateForm();
      if !valid {
        return None;
      }
      return Some(LoginRequest(formData.email, formData.password));
    }
  }
}
