/**
 * The add/edit employee form: it holds the form values and the per-field error
 * messages, validates on submit, asks for confirmation before an edit, and
 * commits to the store, showing a store error under the email field.
 */
module EmployeeModalForm {
  import opened JsText
  import opened EmployeeStore
  import opened PhoneFormat
  import opened FormValidation

  /** The form `_resetForm` installs: every input empty. */
  const EmptyForm: EmployeeData := EmployeeData("", "", "", "", "", "", "", "")

  /** What submitting `form` would make the store throw, if anything: the store's own checks, in its order. */
  function SubmitError(employees: seq<Employee>, editing: Option<Employee>, form: EmployeeData): Option<StoreError> {
    match editing
    case Some(e) =>
      if IndexOfId(employees, e.id) == -1 then Some(NotFound)
      else if EmailTakenByOther(employees, e.id, form.email) then Some(EmailExists)
      else None
    case None =>
      if EmailTaken(employees, form.email) then Some(DuplicateEmail) else None
  }

  class EmployeeModal {
    const store: Store
    var isOpen: bool
    var employee: Option<Employee>
    var formData: EmployeeData
    var errors: map<Field, string>
    var isSubmitting: bool
    var showConfirmation: bool

    constructor (store: Store)
      ensures this.store == store
      ensures !isOpen && employee == None && !showConfirmation && !isSubmitting
      ensures formData == EmptyForm && errors == map[]
    {
      this.store := store;
      isOpen := false;
      employee := None;
      showConfirmation := false;
      isSubmitting := false;
      formData := EmptyForm;
      errors := map[];
    }

    /** `_resetForm`: empties every input and drops every error. */
    method ResetForm()
      modifies this`formData, this`errors
      ensures formData == EmptyForm && errors == map[]
    {
      formData := EmptyForm;
      errors := map[];
    }

    /**
     * Setting the `employee` property; the `updated` hook then copies the eight fields of a
     * record into the form. Clearing it leaves the form as it was.
     */
    method SetEmployee(e: Option<Employee>)
      modifies this`employee, this`formData
      ensures employee == e
      ensures formData == if e.Some? then e.value.data else old(formData)
    {
      employee := e;
      if e.Some? {
        formData := e.value.data;
      }
    }

    /**
     * `_validateForm`: builds the errors object rule by rule, installs it, and reports whether
     * it is empty. `currentYear` and `birthYear` stand for the two `getFullYear()` calls.
     */
    method ValidateForm(currentYear: int, birthYear: Option<int>) returns (valid: bool)
      modifies this`errors
      ensures errors == FormErrors(formData, currentYear, birthYear)
      ensures valid <==> errors == map[]
      ensures valid <==> AllRulesPass(formData, currentYear, birthYear)
    {
      var form := formData;
      var e1 := CheckText(map[], FirstName, form.firstName, FirstNameRequired);
      var e2 := CheckText(e1, LastName, form.lastName, LastNameRequired);
      var e3 := CheckChoice(e2, DateOfEmployment, form.dateOfEmployment, EmploymentDateRequired);
      var e4 := CheckBirthDate(e3, form.dateOfBirth, currentYear, birthYear);
      var e5 := CheckPhone(e4, form.phone);
      var e6 := CheckEmail(e5, form.email);
      var e7 := CheckChoice(e6, Department, form.department, DepartmentRequired);
      var found := CheckChoice(e7, Position, form.position, PositionRequired);
      ValidationSteps(form, currentYear, birthYear, e1, e2, e3, e4, e5, e6, e7, found);
      errors := found;
      valid := |found.Keys| == 0;
    }

    /**
     * `_submitForm`: commits the form through the store (an update when editing, an add
     * otherwise). On success the form is reset and the modal closes; when the store throws,
     * its message goes under the email field and the modal stays open with the form as typed.
     * Either way the busy flag and the confirmation end cleared. `now` is the update timestamp.
     */
    method SubmitForm(now: string)
      modifies this, store`employees
      ensures var err := SubmitError(old(store.employees), old(employee), old(formData));
        && (err.Some? ==>
              && store.employees == old(store.employees)
              && errors == old(errors)[Email := err.value.Message()]
              && formData == old(formData) && isOpen == old(isOpen))
        && (err.None? && old(employee).None? ==>
              store.employees == old(store.employees) + [Employee(|old(store.employees)| + 1, old(formData), None)])
        && (err.None? && old(employee).Some? ==>
              var i := IndexOfId(old(store.employees), old(employee).value.id);
              && 0 <= i < |old(store.employees)|
              && store.employees ==
                   old(store.employees)[i := old(store.employees)[i].(data := old(formData), updatedAt := Some(now))])
        && (err.None? ==> formData == EmptyForm && errors == map[] && !isOpen)
      ensures !isSubmitting && !showConfirmation
      ensures employee == old(employee)
    {
      isSubmitting := true;
      var outcome: Outcome;
      if employee.Some? {
        outcome := store.UpdateEmployee(employee.value.id, formData, now);
      } else {
        outcome := store.AddEmployee(formData);
      }
      if outcome.Done? {
        ResetForm();
        isOpen := false;
      } else {
        errors := errors[Email := outcome.error.Message()];
      }
      isSubmitting := false;
      showConfirmation := false;
    }

    /**
     * `_handleSubmit`: an invalid form only shows its errors; a valid edit only opens the
     * confirmation (whose confirm button then calls `SubmitForm`); a valid new record is
     * committed at once.
     */
    method HandleSubmit(currentYear: int, birthYear: Option<int>, now: string)
      modifies this, store`employees
      ensures !AllRulesPass(old(formData), currentYear, birthYear) ==>
        && errors == FormErrors(old(formData), currentYear, birthYear)
        && store.employees == old(store.employees)
        && formData == old(formData) && isOpen == old(isOpen) && showConfirmation == old(showConfirmation)
        && isSubmitting == old(isSubmitting)
      ensures AllRulesPass(old(formData), currentYear, birthYear) && old(employee).Some? ==>
        && showConfirmation && errors == map[]
        && store.employees == old(store.employees)
        && formData == old(formData) && isOpen == old(isOpen) && isSubmitting == old(isSubmitting)
      ensures AllRulesPass(old(formData), currentYear, birthYear) && old(employee).None? ==>
        var err := SubmitError(old(store.employees), None, old(formData));
        && !isSubmitting && !showConfirmation
        && (err.Some? ==>
              && store.employees == old(store.employees)
              && errors == map[Email := err.value.Message()]
              && formData == old(formData) && isOpen == old(isOpen))
        && (err.None? ==>
              && store.employees == old(store.employees) + [Employee(|old(store.employees)| + 1, old(formData), None)]
              && formData == EmptyForm && errors == map[] && !isOpen)
      ensures employee == old(employee)
    {
      var valid := ValidateForm(currentYear, birthYear);
      if !valid {
        return;
      }
      if employee.Some? {
        showConfirmation := true;
        return;
      }
      SubmitForm(now);
    }

    /** The confirmation's cancel handler: closes it without committing. */
    method CancelConfirmation()
      modifies this`showConfirmation
      ensures !showConfirmation
    {
      showConfirmation := false;
    }

    /** The cancel button and the overlay: close the modal, keeping the form as it is. */
    method Close()
      modifies this`isOpen
      ensures !isOpen
    {
      isOpen := false;
    }

    /**
     * `_handleInput`: replaces the named input's value; when that input shows an error,
     * its message is blanked. No other input and no other error changes.
     */
    method HandleInput(f: Field, v: string)
      modifies this`formData, this`errors
      ensures Value(formData, f) == v
      ensures forall g :: g != f ==> Value(formData, g) == Value(old(formData), g)
      ensures f in old(errors) && old(errors)[f] != "" ==> errors == old(errors)[f := ""]
      ensures !(f in old(errors) && old(errors)[f] != "") ==> errors == old(errors)
      ensures errors.Keys == old(errors.Keys)
    {
      formData := WithValue(formData, f, v);
      if f in errors && errors[f] != "" {
        errors := errors[f := ""];
      }
    }

    /** The phone input's own handler: stores the reformatted number and leaves the errors alone. */
    method HandlePhoneInput(typed: string)
      modifies this`formData
      ensures formData == old(formData).(phone := FormatPhoneNumber(typed))
      ensures PhonePattern(formData.phone) <==> |Digits(typed)| >= 12
    {
      formData := formData.(phone := FormatPhoneNumber(typed));
      FormatMatchesPattern(typed);
    }
  }
}
