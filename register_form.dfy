/**
 * The registration form of src/components/Register/Register.jsx: six fields
 * checked by the validators, a duplicate-email check against the store, the
 * record that is saved, and the login that follows a successful registration.
 * Navigation to the dashboard is not modelled.
 */
module RegisterForm {
  import opened Js
  import opened Entities
  import opened Validation
  import opened Forms
  import opened Server
  import opened AuthContext

  const UserExists := "User with this email already exists"
  const RegistrationSucceeded := "Registration successful! Logging in..."

  /** The fields of the form, each with a check of its own. */
  const RegisterFields: set<string> := {"email", "firstName", "lastName", "dateOfBirth", "password", "confirmPassword"}

  /** The fields a stored user has: the form's fields without the confirmation. */
  const UserFields: set<string> := {"email", "firstName", "lastName", "dateOfBirth", "password"}

  /** The form as first shown: every field empty. */
  const EmptyForm: Record := map k | k in RegisterFields :: ""

  /**
   * validateField(name, value): each field's validator, the confirmation checked
   * against `password` (the form's password when the check was set up), and ""
   * for any other name. `clock` stands for the host's dates.
   */
  function ValidateField(name: string, value: string, password: string, clock: Clock): (error: string)
    ensures name !in RegisterFields ==> error == ""
  {
    match name
    case "email" => ValidateEmail(value)
    case "firstName" => ValidateName(value, "First name")
    case "lastName" => ValidateName(value, "Last name")
    case "dateOfBirth" => ValidateDateOfBirth(value, clock)
    case "password" => ValidatePassword(value)
    case "confirmPassword" => ValidateConfirmPassword(password, value)
    case _ => ""
  }

  /**
   * The check of the confirmation field passes exactly for a non-blank text equal
   * to the password it is given, whatever else the form holds.
   */
  lemma ConfirmationCheck(value: string, password: string, clock: Clock)
    ensures ValidateField("confirmPassword", value, password, clock) == "" <==> !AllSpace(value) && value == password
  {
    ValidateConfirmPasswordCases(password, value);
  }

  /** The checks `validate()` runs on `form`, in form order. */
  function Checks(form: Record, clock: Clock): seq<Check> {
    [Check("email", ValidateEmail(Field(form, "email"))),
     Check("firstName", ValidateName(Field(form, "firstName"), "First name")),
     Check("lastName", ValidateName(Field(form, "lastName"), "Last name")),
     Check("dateOfBirth", ValidateDateOfBirth(Field(form, "dateOfBirth"), clock)),
     Check("password", ValidatePassword(Field(form, "password"))),
     Check("confirmPassword", ValidateConfirmPassword(Field(form, "password"), Field(form, "confirmPassword")))]
  }

  /** What `validate()` returns: the messages of the checks that fail, under their fields. */
  function Errors(form: Record, clock: Clock): (errors: Record)
    ensures errors.Keys <= RegisterFields
  {
    ErrorMapKeys(Checks(form, clock), RegisterFields);
    ErrorMap(Checks(form, clock))
  }

  /**
   * A field is in `validate()`'s result exactly when its check fails, with the
   * message `validateField` gives for it, the confirmation being checked against
   * the form's password; no other name is ever in the result.
   */
  lemma ErrorsAreFieldChecks(form: Record, clock: Clock, name: string)
    ensures name in Errors(form, clock) ==> name in RegisterFields
    ensures name in Errors(form, clock) <==> ValidateField(name, Field(form, name), Field(form, "password"), clock) != ""
    ensures name in Errors(form, clock) ==>
      Errors(form, clock)[name] == ValidateField(name, Field(form, name), Field(form, "password"), clock)
  {
    var checks := Checks(form, clock);
    match name
    case "email" => ErrorMapAt(checks, 0);
    case "firstName" => ErrorMapAt(checks, 1);
    case "lastName" => ErrorMapAt(checks, 2);
    case "dateOfBirth" => ErrorMapAt(checks, 3);
    case "password" => ErrorMapAt(checks, 4);
    case "confirmPassword" => ErrorMapAt(checks, 5);
    case _ => ErrorMapOnlyChecked(checks, name);
  }

  /** `validate()` finds nothing exactly when every field's check passes. */
  lemma NoErrorsIffEveryCheckPasses(form: Record, clock: Clock)
    ensures Errors(form, clock) == map[] <==>
      forall name | name in RegisterFields :: ValidateField(name, Field(form, name), Field(form, "password"), clock) == ""
  {
    forall name | name in RegisterFields
      ensures name in Errors(form, clock) <==> ValidateField(name, Field(form, name), Field(form, "password"), clock) != ""
    {
      ErrorsAreFieldChecks(form, clock, name);
    }
    if Errors(form, clock) != map[] {
      var name :| name in Errors(form, clock);
      ErrorsAreFieldChecks(form, clock, name);
    }
  }

  /** The record handleSubmit saves: the five user fields copied from the form, never the confirmation. */
  function NewUser(form: Record): (user: UserRecord)
    ensures user.Keys == UserFields && "confirmPassword" !in user
    ensures forall name | name in user :: user[name] == Field(form, name)
  {
    map name | name in UserFields :: Field(form, name)
  }

  class Register {
    /** The `formData` state. */
    var formData: Record
    /** The `errors` state. */
    var errors: Record
    /** The `successMessage` state. */
    var successMessage: string

    constructor()
      ensures formData == EmptyForm && errors == map[] && successMessage == ""
    {
      formData := EmptyForm;
      errors := map[];
      successMessage := "";
    }

    /** handleChange: stores the edited field and clears the success message. */
    method HandleChange(name: string, value: string)
      modifies this
      ensures formData == old(formData)[name := value]
      ensures successMessage == ""
      ensures unchanged(this`errors)
    {
      formData := formData[name := value];
      successMessage := "";
    }

    /**
     * The debounced check that handleChange schedules: the field's own message,
     * "" included; `password` is the form's password when the change was made.
     */
    method SettleField(name: string, value: string, password: string, clock: Clock)
      modifies this
      ensures errors == old(errors)[name := ValidateField(name, value, password, clock)]
      ensures unchanged(this`formData, this`successMessage)
    {
      var error := ValidateField(name, value, password, clock);
      errors := errors[name := error];
    }

    /** validate: the six checks in form order, each adding its message when it fails. */
    method Validate(clock: Clock) returns (newErrors: Record)
      ensures newErrors == Errors(formData, clock)
    {
      newErrors := map[];
      ghost var checks: seq<Check> := [];
      var emailError := ValidateEmail(Field(formData, "email"));
      RunCheck(checks, Check("email", emailError));
      checks := checks + [Check("email", emailError)];
      newErrors := AddError(newErrors, "email", emailError);
      var firstNameError := ValidateName(Field(formData, "firstName"), "First name");
      RunCheck(checks, Check("firstName", firstNameError));
      checks := checks + [Check("firstName", firstNameError)];
      newErrors := AddError(newErrors, "firstName", firstNameError);
      var lastNameError := ValidateName(Field(formData, "lastName"), "Last name");
      RunCheck(checks, Check("lastName", lastNameError));
      checks := checks + [Check("lastName", lastNameError)];
      newErrors := AddError(newErrors, "lastName", lastNameError);
      var dobError := ValidateDateOfBirth(Field(formData, "dateOfBirth"), clock);
      RunCheck(checks, Check("dateOfBirth", dobError));
      checks := checks + [Check("dateOfBirth", dobError)];
      newErrors := AddError(newErrors, "dateOfBirth", dobError);
      var passwordError := ValidatePassword(Field(formData, "password"));
      RunCheck(checks, Check("password", passwordError));
      checks := checks + [Check("password", passwordError)];
      newErrors := AddError(newErrors, "password", passwordError);
      var confirmPasswordError := ValidateConfirmPassword(Field(formData, "password"), Field(formData, "confirmPassword"));
      RunCheck(checks, Check("confirmPassword", confirmPasswordError));
      checks := checks + [Check("confirmPassword", confirmPasswordError)];
      newErrors := AddError(newErrors, "confirmPassword", confirmPasswordError);
      assert checks == Checks(formData, clock);
    }

    /**
     * handleSubmit: with any error only the errors change; with an email that is
     * already stored the errors become the duplicate message alone; otherwise the
     * new user is appended, the success message is shown and the user is logged
     * in with the form's email and password.
     */
    method HandleSubmit(store: DataStore, auth: AuthProvider, clock: Clock)
      modifies this, store, auth
      ensures unchanged(this`formData)
      ensures Errors(old(formData), clock) != map[] ==>
        && errors == Errors(old(formData), clock) && successMessage == ""
        && unchanged(store) && unchanged(auth)
      ensures Errors(old(formData), clock) == map[] &&
              FindUser(old(store.Current()).users, Field(old(formData), "email")).Some? ==>
        && errors == map["email" := UserExists] && successMessage == ""
        && store.Current() == old(store.Current()) && unchanged(auth)
      ensures Errors(old(formData), clock) == map[] &&
              FindUser(old(store.Current()).users, Field(old(formData), "email")).None? ==>
        var d := old(store.Current());
        var user := NewUser(old(formData));
        && store.dataFile == Some(d.(users := d.users + [user]))
        && (UniqueEmails(d.users) ==> UniqueEmails(store.Current().users))
        && unchanged(this`errors) && successMessage == RegistrationSucceeded
        && auth.currentUser == Some(user) && auth.rememberedEmail == Some(Field(old(formData), "email"))
        && auth.loading == old(auth.loading)
    {
      successMessage := "";
      var validationErrors := Validate(clock);
      if validationErrors != map[] {
        errors := validationErrors;
        return;
      }
      var email := Field(formData, "email");
      var existingUser := store.GetUser(email);
      if existingUser.Some? {
        errors := map["email" := UserExists];
        return;
      }
      ghost var users := store.Current().users;
      var newUser := NewUser(formData);
      var _ := store.CreateUser(newUser);
      successMessage := RegistrationSucceeded;
      FindUserAfterAppend(users, newUser, email);
      if UniqueEmails(users) {
        AppendNewEmailKeepsUnique(users, newUser);
      }
      var _ := auth.Login(store, email, Field(formData, "password"));
    }
  }
}
