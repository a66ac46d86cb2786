/**
 * What the form components share: `validate()` runs each field's rule and
 * collects, one field after the other, the messages that are not empty; a
 * submission goes ahead only when `Object.keys(validationErrors).length` is 0.
 */
module Forms {
  import opened Js
  import opened Entities

  /** One rule's verdict on one field: its message, or "" when the field passes. */
  datatype Check = Check(field: string, message: string)

  /** `if (message) errors[field] = message`: a failing rule records its message under its field. */
  function AddError(errors: Record, field: string, message: string): Record {
    if message != "" then errors[field := message] else errors
  }

  /** The error object `validate()` builds by running `checks` in order. */
  function ErrorMap(checks: seq<Check>): Record {
    if checks == [] then map[]
    else
      var last := checks[|checks| - 1];
      AddError(ErrorMap(checks[..|checks| - 1]), last.field, last.message)
  }

  /** Running one more rule extends the error object of the earlier ones. */
  lemma RunCheck(checks: seq<Check>, check: Check)
    ensures ErrorMap(checks + [check]) == AddError(ErrorMap(checks), check.field, check.message)
  {
    assert (checks + [check])[..|checks|] == checks;
  }

  /**
   * A field that only the `i`th rule checks is in the error object exactly when
   * that rule fails, and then holds its message.
   */
  lemma {:induction false} ErrorMapAt(checks: seq<Check>, i: int)
    requires 0 <= i < |checks|
    requires forall j | 0 <= j < |checks| && j != i :: checks[j].field != checks[i].field
    ensures checks[i].field in ErrorMap(checks) <==> checks[i].message != ""
    ensures checks[i].field in ErrorMap(checks) ==> ErrorMap(checks)[checks[i].field] == checks[i].message
  {
    var init := checks[..|checks| - 1];
    if i < |checks| - 1 {
      ErrorMapAt(init, i);
    } else {
      ErrorMapOnlyChecked(init, checks[i].field);
    }
  }

  /** A field no rule checks never has an error. */
  lemma {:induction false} ErrorMapOnlyChecked(checks: seq<Check>, field: string)
    requires forall j | 0 <= j < |checks| :: checks[j].field != field
    ensures field !in ErrorMap(checks)
  {
    if checks != [] {
      ErrorMapOnlyChecked(checks[..|checks| - 1], field);
    }
  }

  /** Only fields some rule checks can have an error. */
  lemma {:induction false} ErrorMapKeys(checks: seq<Check>, fields: set<string>)
    requires forall i | 0 <= i < |checks| :: checks[i].field in fields
    ensures ErrorMap(checks).Keys <= fields
  {
    if checks != [] {
      ErrorMapKeys(checks[..|checks| - 1], fields);
    }
  }

  /** The error object is empty exactly when every rule passes. */
  lemma {:induction false} ErrorMapEmpty(checks: seq<Check>)
    ensures ErrorMap(checks) == map[] <==> forall i | 0 <= i < |checks| :: checks[i].message == ""
  {
    if checks != [] {
      var init := checks[..|checks| - 1];
      ErrorMapEmpty(init);
      var last := checks[|checks| - 1];
      if last.message != "" {
        assert last.field in ErrorMap(checks);
      }
    }
  }

  /** The check `if (!value.trim())`: `message` for a value that trims to nothing, otherwise "". */
  function RequireText(value: string, message: string): (m: string)
    requires message != ""
    ensures m == "" <==> !AllSpace(value)
    ensures m != "" ==> m == message
  {
    TrimEmpty(value);
    if Trim(value) == "" then message else ""
  }

  /** The check `if (!value)`: `message` for the empty text, otherwise "". */
  function RequireChoice(value: string, message: string): (m: string)
    requires message != ""
    ensures m == "" <==> value != ""
    ensures m != "" ==> m == message
  {
    if value == "" then message else ""
  }
}
