/**
 * The login form of src/components/Login/Login.jsx: its field checks, the
 * error map built on submit and the call to the AuthProvider's `login`.
 * Navigation to the dashboard after a successful login is not modelled.
 */
module LoginForm {
  import opened Js
  import opened Entities
  import opened Validation
  import opened Forms
  import opened Server
  import opened AuthContext

  /** The fields `validate` checks. */
  const LoginFields: set<string> := {"email", "password"}

  /** validateField(name, value): the email and password rules, and "" for any other field. */
  function ValidateField(name: string, value: string): (error: string)
    ensures name !in LoginFields ==> error == ""
    ensures name == "email" ==> (error == "" <==> exists at, dot :: EmailParts(value, at, dot))
    ensures name == "password" ==>
      (error == "" <==> !AllSpace(value) && Utf16Length(value) >= MinimumPasswordLength)
  {
    ValidateEmailCases(value);
    ValidatePasswordCases(value);
    if name == "email" then ValidateEmail(value)
    else if name == "password" then ValidatePassword(value)
    else ""
  }

  /** The rules `validate()` runs on `form`, in order. */
  function Checks(form: Record): seq<Check> {
    [Check("email", ValidateEmail(Field(form, "email"))), Check("password", ValidatePassword(Field(form, "password")))]
  }

  /** What `validate()` returns for the form `form`. */
  function Errors(form: Record): (errors: Record)
    ensures errors.Keys <= LoginFields
    ensures "email" in errors <==> ValidateEmail(Field(form, "email")) != ""
    ensures "email" in errors ==> errors["email"] == ValidateEmail(Field(form, "email"))
    ensures "password" in errors <==> ValidatePassword(Field(form, "password")) != ""
    ensures "password" in errors ==> errors["password"] == ValidatePassword(Field(form, "password"))
    ensures errors == map[] <==>
      ValidateEmail(Field(form, "email")) == "" && ValidatePassword(Field(form, "password")) == ""
  {
    var checks := Checks(form);
    ErrorMapAt(checks, 0);
    ErrorMapAt(checks, 1);
    ErrorMapKeys(checks, LoginFields);
    ErrorMapEmpty(checks);
    ErrorMap(checks)
  }

  /**
   * The check a field gets while it is edited gives the message `validate()`
   * reports for it, and a field it does not check never has an error.
   */
  lemma ValidateFieldAgrees(form: Record, name: string)
    ensures name in Errors(form) <==> ValidateField(name, Field(form, name)) != ""
    ensures name in Errors(form) ==> Errors(form)[name] == ValidateField(name, Field(form, name))
  {
  }

  class Login {
    /** The `formData` state: `email` and `password`. */
    var formData: Record
    /** The `errors` state. */
    var errors: Record
    /** The `generalError` state: the message of a failed login, or "". */
    var generalError: string

    constructor()
      ensures formData == map["email" := "", "password" := ""]
      ensures errors == map[] && generalError == ""
    {
      formData := map["email" := "", "password" := ""];
      errors := map[];
      generalError := "";
    }

    /** handleChange: stores the edited field and clears the general error. */
    method HandleChange(name: string, value: string)
      modifies this
      ensures formData == old(formData)[name := value]
      ensures generalError == "" && errors == old(errors)
    {
      formData := formData[name := value];
      generalError := "";
    }

    /** The debounced check that handleChange schedules: the field's own message, "" included. */
    method SettleField(name: string, value: string)
      modifies this
      ensures errors == old(errors)[name := ValidateField(name, value)]
      ensures formData == old(formData) && generalError == old(generalError)
    {
      var error := ValidateField(name, value);
      errors := errors[name := error];
    }

    /** validate: the email and password rules in order, each adding its message when it fails. */
    method Validate() returns (newErrors: Record)
      ensures newErrors == Errors(formData)
    {
      newErrors := map[];
      ghost var checks: seq<Check> := [];
      var emailError := ValidateEmail(Field(formData, "email"));
      RunCheck(checks, Check("email", emailError));
      checks := checks + [Check("email", emailError)];
      newErrors := AddError(newErrors, "email", emailError);
      var passwordError := ValidatePassword(Field(formData, "password"));
      RunCheck(checks, Check("password", passwordError));
      checks := checks + [Check("password", passwordError)];
      newErrors := AddError(newErrors, "password", passwordError);
      assert checks == Checks(formData);
    }

    /**
     * handleSubmit: with any error the errors are shown and `login` is not called;
     * otherwise a failed login shows its message and a successful one leaves the
     * general error empty.
     */
    method HandleSubmit(auth: AuthProvider, store: DataStore)
      modifies this, auth, store
      ensures unchanged(this`formData)
      ensures Errors(old(formData)) != map[] ==>
        && errors == Errors(old(formData)) && generalError == ""
        && unchanged(auth) && unchanged(store)
      ensures Errors(old(formData)) == map[] ==> unchanged(this`errors) && store.Current() == old(store.Current())
      ensures Errors(old(formData)) == map[] ==>
        var email := Field(old(formData), "email");
        var user := Authenticate(old(store.Current()).users, email, Field(old(formData), "password"));
        && (user.Some? ==> generalError == "" && auth.currentUser == user && auth.rememberedEmail == Some(email)
                           && auth.loading == old(auth.loading))
        && (user.None? ==> generalError == InvalidCredentials && unchanged(auth))
    {
      generalError := "";
      var validationErrors := Validate();
      if validationErrors != map[] {
        errors := validationErrors;
        return;
      }
      var result := auth.Login(store, Field(formData, "email"), Field(formData, "password"));
      if result.Failed? {
        generalError := result.error;
      }
    }
  }
}
