/** `src/container/register/Index.tsx`: the per-field rules of the
    registration form, the error map they maintain, the field updates and
    the guard in front of the `registerUser` dispatch. */
module RegisterScreen {

  import opened Wrappers
  import opened Text
  import opened Utils
  import opened Validators
  import AuthSlice

  const MIN_NAME_LENGTH := 2
  const MIN_PASSWORD_LENGTH := 6

  const NAME_REQUIRED := "Name is required"
  const NAME_INVALID := "Name can only contain letters, spaces, apostrophes, dots, and hyphens"
  const EMAIL_INVALID := "Please enter a valid email address"

  /** The template message with `MIN_NAME_LENGTH` filled in. */
  const NAME_TOO_SHORT := "Name must be at least 2 characters"

  /** The keys of `FormDataAuth`. */
  datatype Field = Email | Password | Name

  datatype FormData = FormData(email: string, password: string, name: string)

  /** What `handleSubmit` dispatches. */
  datatype RegisterRequest = RegisterRequest(email: string, name: string, password: string)

  function ValueOf(form: FormData, f: Field): string {
    match f
    case Email => form.email
    case Password => form.password
    case Name => form.name
  }

  /** `{...prev, [field]: value}` */
  function WithValue(form: FormData, f: Field, value: string): (r: FormData)
    ensures ValueOf(r, f) == value
    ensures forall g :: g != f ==> ValueOf(r, g) == ValueOf(form, g)
  {
    match f
    case Email => form.(email := value)
    case Password => form.(password := value)
    case Name => form.(name := value)
  }

  /** The name rules, checked in order; the first that fails decides. */
  function NameError(value: string): Option<string> {
    if Trim(value) == "" then Some(NAME_REQUIRED)
    else if Utf16Length(Trim(value)) < MIN_NAME_LENGTH then Some(NAME_TOO_SHORT)
    else if !IsName(Trim(value)) then Some(NAME_INVALID)
    else None
  }

  /** The email rule, written inline in both screens: a blank value and a
      value the simple pattern refuses get the same message. */
  function EmailError(value: string): Option<string> {
    if IsRequired(Some(value), "Email").Some? || !IsSimpleEmail(value) then Some(EMAIL_INVALID) else None
  }

  /** `isRequired(value, 'Password') || minLength(value, 6, 'Password')` */
  function PasswordError(value: string): Option<string> {
    var required := IsRequired(Some(value), "Password");
    if required.Some? then required else MinLength(value, MIN_PASSWORD_LENGTH, "Password")
  }

  /** The `switch` of `validateField`. */
  function FieldError(form: FormData, f: Field): Option<string> {
    match f
    case Name => NameError(form.name)
    case Email => EmailError(form.email)
    case Password => PasswordError(form.password)
  }

  /** The error map after `validateField` found `e` for `f`; the login
      screen keeps its map the same way. */
  function Recorded<K>(errors: map<K, string>, f: K, e: Option<string>): map<K, string> {
    if e.Some? then errors[f := e.value] else errors - {f}
  }

  /** Every field passes its rule. */
  predicate FormValid(form: FormData) {
    FieldError(form, Email).None? && FieldError(form, Password).None? && FieldError(form, Name).None?
  }

  /** The error map after the three fields were validated in turn,
      finding `e`, `p` and `n`. */
  function Validated(errors: map<Field, string>, e: Option<string>, p: Option<string>, n: Option<string>): map<Field, string> {
    Recorded(Recorded(Recorded(errors, Email, e), Password, p), Name, n)
  }

  /** Validating every field forgets what the map held before. */
  lemma ValidatedForgets(errors: map<Field, string>, e: Option<string>, p: Option<string>, n: Option<string>)
    ensures Validated(errors, e, p, n) == Validated(map[], e, p, n)
  {
    var m, m0 := Validated(errors, e, p, n), Validated(map[], e, p, n);
    forall f | true
      ensures (f in m <==> f in m0) && (f in m ==> m[f] == m0[f])
    {
      match f
      case Email =>
      case Password =>
      case Name =>
    }
  }

  /** The error map of the whole form. */
  function FormErrors(form: FormData): map<Field, string> {
    Validated(map[], FieldError(form, Email), FieldError(form, Password), FieldError(form, Name))
  }

  /** The entries left by validating the three fields in turn. */
  lemma ValidatedEntries(e: Option<string>, p: Option<string>, n: Option<string>)
    ensures var m := Validated(map[], e, p, n);
            && (Email in m <==> e.Some?) && (Email in m ==> m[Email] == e.value)
            && (Password in m <==> p.Some?) && (Password in m ==> m[Password] == p.value)
            && (Name in m <==> n.Some?) && (Name in m ==> m[Name] == n.value)
            && (m == map[] <==> e.None? && p.None? && n.None?)
  {
    var m := Validated(map[], e, p, n);
    if e.None? && p.None? && n.None? {
      assert m == map[];
    }
  }

  /** The form's error map holds exactly the failing fields, each with its
      own message; it is empty exactly when the form is valid. */
  lemma FormErrorsEntries(form: FormData, f: Field)
    ensures f in FormErrors(form) <==> FieldError(form, f).Some?
    ensures f in FormErrors(form) ==> FormErrors(form)[f] == FieldError(form, f).value
    ensures FormErrors(form) == map[] <==> FormValid(form)
  {
    ValidatedEntries(FieldError(form, Email), FieldError(form, Password), FieldError(form, Name));
  }

  /** The name rules in order: blank, then too short after trimming, then
      refused by NAME on the trimmed value. */
  lemma NameErrorOrder(value: string)
    ensures NameError(value) == Some(NAME_REQUIRED) <==> AllWhitespace(value)
    ensures NameError(value) == Some(NAME_TOO_SHORT) <==> !AllWhitespace(value) && Utf16Length(Trim(value)) < MIN_NAME_LENGTH
    ensures NameError(value) == Some(NAME_INVALID) <==> Utf16Length(Trim(value)) >= MIN_NAME_LENGTH && !IsName(Trim(value))
    ensures NameError(value).None? <==> Utf16Length(Trim(value)) >= MIN_NAME_LENGTH && IsName(Trim(value))
  {
    TrimEmptyIff(value);
    assert |NAME_REQUIRED| < |NAME_TOO_SHORT| < |NAME_INVALID|;
  }

  /** A lone character beyond the Basic Multilingual Plane is long enough,
      being two code units, and is then refused by NAME. */
  lemma AstralNameInvalid(c: char)
    requires IsAstral(c)
    ensures NameError([c]) == Some(NAME_INVALID)
  {
    TrimAstral(c);
    NotNameWithoutLetterStart([c]);
  }

  /** An email passes exactly when the simple pattern accepts it; the
      pattern alone already refuses blank values. */
  lemma EmailErrorIff(value: string)
    ensures EmailError(value).None? <==> IsSimpleEmail(value)
    ensures EmailError(value).Some? ==> EmailError(value).value == EMAIL_INVALID
  {
    if IsSimpleEmail(value) {
      SimpleEmailNotBlank(value);
    }
  }

  /** A password passes exactly when its trimmed length, in UTF-16 code
      units, reaches six; a
      blank one is reported as required, a short one as too short. */
  lemma PasswordErrorIff(value: string)
    ensures PasswordError(value).None? <==> Utf16Length(Trim(value)) >= MIN_PASSWORD_LENGTH
    ensures AllWhitespace(value) ==> PasswordError(value) == Some("Password is required.")
    ensures !AllWhitespace(value) && Utf16Length(Trim(value)) < MIN_PASSWORD_LENGTH ==>
              PasswordError(value) == Some("Password must be at least " + IntToString(MIN_PASSWORD_LENGTH) + " characters.")
  {
    TrimEmptyIff(value);
    PasswordMessages();
  }

  lemma PasswordMessages()
    ensures "Password" + " is required." == "Password is required."
    ensures "Password" + " must be at least " + IntToString(MIN_PASSWORD_LENGTH) + " characters."
            == "Password must be at least " + IntToString(MIN_PASSWORD_LENGTH) + " characters."
  {
    assert "Password" + " must be at least " == "Password must be at least ";
  }

  /** Every message the rules produce is non-empty, so each is truthy. */
  lemma FieldErrorNonEmpty(form: FormData, f: Field)
    ensures FieldError(form, f).Some? ==> FieldError(form, f).value != ""
  {
  }

  /** The screen's state: the form, the per-field errors, and the shared
      auth store whose error the form clears. */
  class RegisterForm {

    var formData: FormData
    var validationErrors: map<Field, string>
    const store: AuthSlice.AuthStore

    ghost predicate Valid()
      reads this
    {
      forall f :: f in validationErrors ==> validationErrors[f] != ""
    }

    constructor (store: AuthSlice.AuthStore)
      ensures Valid() && this.store == store
      ensures formData == FormData("", "", "") && validationErrors == map[]
    {
      this.store := store;
      formData := FormData("", "", "");
      validationErrors := map[];
    }

    /** `updateFormData(field, value)`: sets one field, drops that field's
        error, and clears the auth error when one is set. */
    method UpdateFormData(f: Field, value: string)
      requires Valid()
      modifies this`formData, this`validationErrors, store
      ensures Valid()
      ensures formData == WithValue(old(formData), f, value)
      ensures validationErrors == old(validationErrors) - {f}
      ensures old(store.error).Some? ==> store.State() == AuthSlice.Reduce(old(store.State()), AuthSlice.ClearError)
      ensures old(store.error).None? ==> store.State() == old(store.State())
    {
      formData := WithValue(formData, f, value);
      if f in validationErrors {
        validationErrors := validationErrors - {f};
      }
      if store.error.Some? {
        store.Dispatch(AuthSlice.ClearError);
      }
    }

    /** `validateField(field)`: true exactly when the field has no error;
        records or drops that field's entry and no other. */
    method ValidateField(f: Field) returns (ok: bool)
      requires Valid()
      modifies this`validationErrors
      ensures Valid()
      ensures ok <==> FieldError(formData, f).None?
      ensures validationErrors == Recorded(old(validationErrors), f, FieldError(formData, f))
      ensures f in validationErrors <==> !ok
      ensures forall g :: g != f ==> (g in validationErrors <==> g in old(validationErrors))
      ensures forall g :: g != f && g in validationErrors ==> validationErrors[g] == old(validationErrors)[g]
    {
      var error := FieldError(formData, f);
      FieldErrorNonEmpty(formData, f);
      if error.Some? {
        validationErrors := validationErrors[f := error.value];
        return false;
      } else {
        validationErrors := validationErrors - {f};
      }
      return true;
    }

    /** `validateForm()`: validates all three fields, none skipped. */
    method ValidateForm() returns (ok: bool)
      requires Valid()
      modifies this`validationErrors
      ensures Valid()
      ensures ok <==> FormValid(formData)
      ensures validationErrors == FormErrors(formData)
    {
      var emailValid := ValidateField(Email);
      var passwordValid := ValidateField(Password);
      var nameValid := ValidateField(Name);
      ok := emailValid && passwordValid && nameValid;
      ValidatedForgets(old(validationErrors), FieldError(formData, Email), FieldError(formData, Password), FieldError(formData, Name));
    }

    /** The guard of `handleSubmit()`: the registration it would dispatch,
        or None when the form does not validate. */
    method HandleSubmit() returns (request: Option<RegisterRequest>)
      requires Valid()
      modifies this`validationErrors
      ensures Valid()
      ensures request.Some? <==> FormValid(formData)
      ensures request.Some? ==> request.value == RegisterRequest(formData.email, formData.name, formData.password)
      ensures validationErrors == FormErrors(formData)
    {
      var valid := ValidateForm();
      if !valid {
        return None;
      }
      return Some(RegisterRequest(formData.email, formData.name, formData.password));
    }
  }
}
