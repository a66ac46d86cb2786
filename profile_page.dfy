/**
 * The profile page of src/pages/Profile/Profile.jsx: the edit form over the
 * logged-in user's names, date of birth and an optional new password, its
 * checks, the partial update sent to the store, and the refresh of the
 * AuthProvider's user that follows a successful save.
 */
module ProfilePage {
  import opened Js
  import opened Entities
  import opened Validation
  import opened Forms
  import opened Server
  import opened AuthContext

  /** The fields of the edit form; the email is shown but cannot be edited. */
  const ProfileFields: set<string> := {"firstName", "lastName", "dateOfBirth", "password"}

  /**
   * The form filled from `user`: its names and date of birth ("" for a missing
   * one) and an empty new password. The page starts from the logged-in user,
   * or from the empty record when nobody is logged in.
   */
  function FormOf(user: UserRecord): (form: Record)
    ensures form.Keys == ProfileFields && form["password"] == ""
    ensures forall name | name in form && name != "password" :: form[name] == Field(user, name)
  {
    map["firstName" := Field(user, "firstName"), "lastName" := Field(user, "lastName"),
        "dateOfBirth" := Field(user, "dateOfBirth"), "password" := ""]
  }

  /**
   * validateField(name, value): the name and date rules, the password rule only
   * for a non-empty password, and "" for any other field.
   */
  function ValidateField(name: string, value: string, clock: Clock): (error: string)
    ensures name !in ProfileFields ==> error == ""
    ensures name == "password" && value == "" ==> error == ""
  {
    match name
    case "firstName" => ValidateName(value, "First name")
    case "lastName" => ValidateName(value, "Last name")
    case "dateOfBirth" => ValidateDateOfBirth(value, clock)
    case "password" => if value != "" then ValidatePassword(value) else ""
    case _ => ""
  }

  /**
   * The new password is optional: leaving it empty passes, and any other text
   * passes exactly when it is not all whitespace and has at least six code
   * units, so a password of spaces alone is refused as missing.
   */
  lemma NewPasswordCheck(value: string, clock: Clock)
    ensures value == "" ==> ValidateField("password", value, clock) == ""
    ensures value != "" ==>
      (ValidateField("password", value, clock) == "" <==>
       !AllSpace(value) && Utf16Length(value) >= MinimumPasswordLength)
    ensures value != "" && AllSpace(value) ==> ValidateField("password", value, clock) == PasswordRequired
  {
    ValidatePasswordCases(value);
  }

  /** The checks `validate()` runs on `form`, in form order, the password's only when one was typed. */
  function Checks(form: Record, clock: Clock): seq<Check> {
    var checks := [
      Check("firstName", ValidateName(Field(form, "firstName"), "First name")),
      Check("lastName", ValidateName(Field(form, "lastName"), "Last name")),
      Check("dateOfBirth", ValidateDateOfBirth(Field(form, "dateOfBirth"), clock))];
    if Field(form, "password") != "" then checks + [Check("password", ValidatePassword(Field(form, "password")))]
    else checks
  }

  /** What `validate()` returns: the messages of the checks that fail, under their fields. */
  function Errors(form: Record, clock: Clock): (errors: Record)
    ensures errors.Keys <= ProfileFields
    ensures Field(form, "password") == "" ==> "password" !in errors
  {
    var checks := Checks(form, clock);
    ErrorMapKeys(checks, ProfileFields);
    assert Field(form, "password") == "" ==> "password" !in ErrorMap(checks) by {
      if Field(form, "password") == "" {
        ErrorMapOnlyChecked(checks, "password");
      }
    }
    ErrorMap(checks)
  }

  /**
   * A field is in `validate()`'s result exactly when the check it gets while
   * edited fails, with that check's message; no other name is ever in the result.
   */
  lemma ErrorsAreFieldChecks(form: Record, clock: Clock, name: string)
    ensures name in Errors(form, clock) ==> name in ProfileFields
    ensures name in Errors(form, clock) <==> ValidateField(name, Field(form, name), clock) != ""
    ensures name in Errors(form, clock) ==> Errors(form, clock)[name] == ValidateField(name, Field(form, name), clock)
  {
    var checks := Checks(form, clock);
    match name
    case "firstName" => ErrorMapAt(checks, 0);
    case "lastName" => ErrorMapAt(checks, 1);
    case "dateOfBirth" => ErrorMapAt(checks, 2);
    case "password" =>
      if Field(form, "password") != "" {
        ErrorMapAt(checks, 3);
      } else {
        ErrorMapOnlyChecked(checks, name);
      }
    case _ => ErrorMapOnlyChecked(checks, name);
  }

  /** `validate()` finds nothing exactly when every field's check passes. */
  lemma NoErrorsIffEveryCheckPasses(form: Record, clock: Clock)
    ensures Errors(form, clock) == map[] <==>
      forall name | name in ProfileFields :: ValidateField(name, Field(form, name), clock) == ""
  {
    forall name | name in ProfileFields
      ensures name in Errors(form, clock) <==> ValidateField(name, Field(form, name), clock) != ""
    {
      ErrorsAreFieldChecks(form, clock, name);
    }
    if Errors(form, clock) != map[] {
      var name :| name in Errors(form, clock);
      ErrorsAreFieldChecks(form, clock, name);
    }
  }

  /**
   * The `updatedData` handleSave sends: the names and the date of birth, and the
   * password only when one was typed.
   */
  function UpdatePayload(form: Record): (payload: Record)
    ensures payload.Keys == {"firstName", "lastName", "dateOfBirth"} + (if Field(form, "password") != "" then {"password"} else {})
    ensures forall name | name in payload :: payload[name] == Field(form, name)
  {
    var fields := map["firstName" := Field(form, "firstName"), "lastName" := Field(form, "lastName"),
                      "dateOfBirth" := Field(form, "dateOfBirth")];
    if Field(form, "password") != "" then fields["password" := Field(form, "password")] else fields
  }

  /**
   * Saving never touches the email, and saving with the password left empty
   * keeps the stored password; every other field of the user is kept as well.
   */
  lemma SavingKeepsEmailAndUnsetPassword(user: UserRecord, form: Record)
    ensures "email" in user + UpdatePayload(form) <==> "email" in user
    ensures "email" in user ==> (user + UpdatePayload(form))["email"] == user["email"]
    ensures Field(form, "password") == "" ==> Field(user + UpdatePayload(form), "password") == Field(user, "password")
    ensures forall key | key in user && key !in ProfileFields :: (user + UpdatePayload(form))[key] == user[key]
  {
  }

  /** Saving the form just loaded for a user who has every field leaves that user as it was. */
  lemma SavingUneditedFormKeepsUser(user: UserRecord)
    requires "firstName" in user && "lastName" in user && "dateOfBirth" in user
    ensures user + UpdatePayload(FormOf(user)) == user
  {
    var merged := user + UpdatePayload(FormOf(user));
    assert merged.Keys == user.Keys;
    forall key | key in user
      ensures merged[key] == user[key]
    {
    }
  }

  class Profile {
    /** The `isEditing` state. */
    var isEditing: bool
    /** The `formData` state. */
    var formData: Record
    /** The `errors` state. */
    var errors: Record

    /** The page as first shown: not editing, the form filled from the logged-in user. */
    constructor(auth: AuthProvider)
      ensures !isEditing && errors == map[]
      ensures formData == FormOf(auth.currentUser.GetOr(map[]))
    {
      isEditing := false;
      formData := FormOf(auth.currentUser.GetOr(map[]));
      errors := map[];
    }

    /** handleChange: stores the edited field. */
    method HandleChange(name: string, value: string)
      modifies this
      ensures formData == old(formData)[name := value]
      ensures unchanged(this`errors, this`isEditing)
    {
      formData := formData[name := value];
    }

    /** The debounced check that handleChange schedules: the field's own message, "" included. */
    method SettleField(name: string, value: string, clock: Clock)
      modifies this
      ensures errors == old(errors)[name := ValidateField(name, value, clock)]
      ensures unchanged(this`formData, this`isEditing)
    {
      var error := ValidateField(name, value, clock);
      errors := errors[name := error];
    }

    /** validate: the checks in form order, each adding its message when it fails. */
    method Validate(clock: Clock) returns (newErrors: Record)
      ensures newErrors == Errors(formData, clock)
    {
      newErrors := map[];
      ghost var checks: seq<Check> := [];
      var firstNameError := ValidateName(Field(formData, "firstName"), "First name");
      RunCheck(checks, Check("firstName", firstNameError));
      checks := checks + [Check("firstName", firstNameError)];
      newErrors := AddError(newErrors, "firstName", firstNameError);
      var lastNameError := ValidateName(Field(formData, "lastName"), "Last name");
      RunCheck(checks, Check("lastName", lastNameError));
      checks := checks + [Check("lastName", lastNameError)];
      newErrors := AddError(newErrors, "lastName", lastNameError);
      var dobError := ValidateDateOfBirth(Field(formData, "dateOfBirth"), clock);
      RunCheck(checks, Check("dateOfBirth", dobError));
      checks := checks + [Check("dateOfBirth", dobError)];
      newErrors := AddError(newErrors, "dateOfBirth", dobError);
      var password := Field(formData, "password");
      if password != "" {
        var passwordError := ValidatePassword(password);
        RunCheck(checks, Check("password", passwordError));
        checks := checks + [Check("password", passwordError)];
        newErrors := AddError(newErrors, "password", passwordError);
      }
      assert checks == Checks(formData, clock);
    }

    /** handleEdit: refills the form from the logged-in user, clears the errors and opens the editor. */
    method HandleEdit(auth: AuthProvider)
      requires auth.currentUser.Some?
      modifies this
      ensures formData == FormOf(auth.currentUser.value)
      ensures isEditing && errors == map[]
    {
      formData := FormOf(auth.currentUser.value);
      isEditing := true;
      errors := map[];
    }

    /** handleCancel: closes the editor and clears the errors, keeping the form as typed. */
    method HandleCancel()
      modifies this
      ensures !isEditing && errors == map[]
      ensures unchanged(this`formData)
    {
      isEditing := false;
      errors := map[];
    }

    /**
     * handleSave: with any error only the errors change; otherwise the update is
     * sent as SendUpdate describes.
     */
    method HandleSave(store: DataStore, auth: AuthProvider, clock: Clock)
      requires auth.currentUser.Some?
      modifies this, store, auth
      ensures unchanged(this`formData)
      ensures Errors(old(formData), clock) != map[] ==>
        && errors == Errors(old(formData), clock) && isEditing == old(isEditing)
        && unchanged(store) && unchanged(auth)
      ensures Errors(old(formData), clock) == map[] ==> unchanged(this`errors) && Updated(old(store.Current()), store, auth, old(auth.currentUser).value, old(auth.loading), old(auth.rememberedEmail), old(formData), old(isEditing))
    {
      var validationErrors := Validate(clock);
      if validationErrors != map[] {
        errors := validationErrors;
        return;
      }
      SendUpdate(store, auth);
    }

    /**
     * The outcome of sending the form's update for `user`, the logged-in user:
     * when the store has no user with that email nothing changes; when it has
     * one, that user gets the new fields, the AuthProvider's user becomes the
     * stored record as updated, and the editor closes.
     */
    ghost predicate Updated(d: Document, store: DataStore, auth: AuthProvider, user: UserRecord,
                            loading: bool, rememberedEmail: Option<string>, form: Record, wasEditing: bool)
      reads this, store, auth
    {
      var email := AsText(user, "email");
      var i := FindUserIndex(d.users, email);
      && auth.loading == loading && auth.rememberedEmail == rememberedEmail
      && (i.None? ==> store.Current() == d && auth.currentUser == Some(user) && isEditing == wasEditing)
      && (i.Some? ==>
            var updated := d.users[i.value] + UpdatePayload(form);
            && store.dataFile == Some(d.(users := d.users[i.value := updated]))
            && (UniqueEmails(d.users) ==> UniqueEmails(store.Current().users))
            && auth.currentUser == Some(updated) && HasEmail(updated, email)
            && !isEditing)
    }

    /** The part of handleSave after the checks pass: `updateUser`, then the AuthProvider's refresh. */
    method SendUpdate(store: DataStore, auth: AuthProvider)
      requires auth.currentUser.Some?
      modifies this, store, auth
      ensures unchanged(this`formData, this`errors)
      ensures Updated(old(store.Current()), store, auth, old(auth.currentUser).value, old(auth.loading), old(auth.rememberedEmail), formData, old(isEditing))
    {
      var updatedData := UpdatePayload(formData);
      var email := AsText(auth.currentUser.value, "email");
      ghost var users := store.Current().users;
      ghost var i := FindUserIndex(users, email);
      var updated := store.UpdateUser(email, updatedData);
      if updated.Some? {
        FindUserAfterMerge(users, email, updatedData);
        if UniqueEmails(users) {
          MergeWithoutEmailKeepsUnique(users, i.value, updatedData);
        }
        auth.UpdateCurrentUser(updatedData);
        assert AsText(auth.currentUser.value, "email") == email;
        auth.RefreshCurrentUser(store);
        isEditing := false;
      }
    }
  }
}
