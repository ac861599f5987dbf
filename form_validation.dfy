/**
 * The rules the employee form checks before it submits: required fields, the
 * minimum age by year, and the phone and email patterns. The two regular
 * expressions are written out as predicates on the string.
 */
module FormValidation {
  import opened JsText
  import opened EmployeeStore
  import opened PhoneFormat

  /** The form's eight inputs, by the `name` each input carries. */
  datatype Field = FirstName | LastName | DateOfEmployment | DateOfBirth | Phone | Email | Department | Position

  const Fields: set<Field> := {FirstName, LastName, DateOfEmployment, DateOfBirth, Phone, Email, Department, Position}

  const MinimumAge: int := 18

  const FirstNameRequired: string := "First name is required"
  const LastNameRequired: string := "Last name is required"
  const EmploymentDateRequired: string := "Date of employment is required"
  const BirthDateRequired: string := "Date of birth is required"
  const TooYoung: string := "Employee must be at least 18 years old"
  const PhoneRequired: string := "Phone number is required"
  const PhoneFormatWrong: string := "Phone number must be in format: +90 XXX XXX XX XX"
  const EmailRequired: string := "Email is required"
  const EmailFormatWrong: string := "Invalid email format"
  const DepartmentRequired: string := "Department is required"
  const PositionRequired: string := "Position is required"

  lemma EveryField(f: Field)
    ensures f in Fields
  {
  }

  /** The value of one input. */
  function Value(form: EmployeeData, f: Field): string {
    match f
    case FirstName => form.firstName
    case LastName => form.lastName
    case DateOfEmployment => form.dateOfEmployment
    case DateOfBirth => form.dateOfBirth
    case Phone => form.phone
    case Email => form.email
    case Department => form.department
    case Position => form.position
  }

  /** `{ ...form, [name]: value }`: the form with one input replaced. */
  function WithValue(form: EmployeeData, f: Field, v: string): (r: EmployeeData)
    ensures Value(r, f) == v
    ensures forall g :: g != f ==> Value(r, g) == Value(form, g)
  {
    match f
    case FirstName => form.(firstName := v)
    case LastName => form.(lastName := v)
    case DateOfEmployment => form.(dateOfEmployment := v)
    case DateOfBirth => form.(dateOfBirth := v)
    case Phone => form.(phone := v)
    case Email => form.(email := v)
    case Department => form.(department := v)
    case Position => form.(position := v)
  }

  /** A character of `[^\s@]`. */
  predicate EmailChar(c: char) {
    !IsSpace(c) && c != '@'
  }

  /**
   * `/^[^\s@]+@[^\s@]+\.[^\s@]+$/`: a single `@` with at least one character before it,
   * and after it a `.` that is neither the first character after the `@` nor the last one;
   * no white space anywhere.
   */
  predicate EmailPattern(s: string) {
    exists at, dot | 0 < at && at + 1 < dot && dot + 1 < |s| ::
      && s[at] == '@'
      && s[dot] == '.'
      && forall i :: 0 <= i < |s| && i != at ==> EmailChar(s[i])
  }

  /** A text input that is required: blank (empty once trimmed) records `message`. */
  function TextRule(value: string, message: string): Option<string> {
    if Blank(value) then Some(message) else None
  }

  /** A date or select input that is required: only the empty value records `message`. */
  function ChoiceRule(value: string, message: string): Option<string> {
    if value == "" then Some(message) else None
  }

  /** The date of birth: required, and the years between it and now must reach 18. */
  function BirthDateRule(value: string, currentYear: int, birthYear: Option<int>): Option<string> {
    if value == "" then Some(BirthDateRequired)
    else if birthYear.Some? && currentYear - birthYear.value < MinimumAge then Some(TooYoung)
    else None
  }

  /** The phone: required once trimmed, then the `+90 DDD DDD DD DD` pattern. */
  function PhoneRule(value: string): Option<string> {
    if Blank(value) then Some(PhoneRequired)
    else if !PhonePattern(value) then Some(PhoneFormatWrong)
    else None
  }

  /** The email: required once trimmed, then the address pattern. */
  function EmailRule(value: string): Option<string> {
    if Blank(value) then Some(EmailRequired)
    else if !EmailPattern(value) then Some(EmailFormatWrong)
    else None
  }

  /** The rule for one input: the message it records, or `None` when the input passes. */
  function FieldError(form: EmployeeData, f: Field, currentYear: int, birthYear: Option<int>): Option<string> {
    match f
    case FirstName => TextRule(form.firstName, FirstNameRequired)
    case LastName => TextRule(form.lastName, LastNameRequired)
    case DateOfEmployment => ChoiceRule(form.dateOfEmployment, EmploymentDateRequired)
    case DateOfBirth => BirthDateRule(form.dateOfBirth, currentYear, birthYear)
    case Phone => PhoneRule(form.phone)
    case Email => EmailRule(form.email)
    case Department => ChoiceRule(form.department, DepartmentRequired)
    case Position => ChoiceRule(form.position, PositionRequired)
  }

  /**
   * The errors object `_validateForm` builds: one entry per failing input. `birthYear` is
   * the year of the parsed date of birth, `None` when the date does not parse.
   */
  function FormErrors(form: EmployeeData, currentYear: int, birthYear: Option<int>): map<Field, string> {
    map f | f in Fields && FieldError(form, f, currentYear, birthYear).Some? ::
      FieldError(form, f, currentYear, birthYear).value
  }

  /** The errors object with the entry for `f` recorded when its rule fails. */
  function Record(errors: map<Field, string>, f: Field, message: Option<string>): map<Field, string> {
    if message.Some? then errors[f := message.value] else errors
  }

  /** `if (!value.trim()) errors[f] = message`. */
  method CheckText(errors: map<Field, string>, f: Field, value: string, message: string) returns (r: map<Field, string>)
    ensures r == Record(errors, f, TextRule(value, message))
  {
    r := errors;
    if Blank(value) {
      r := r[f := message];
    }
  }

  /** `if (!value) errors[f] = message`. */
  method CheckChoice(errors: map<Field, string>, f: Field, value: string, message: string) returns (r: map<Field, string>)
    ensures r == Record(errors, f, ChoiceRule(value, message))
  {
    r := errors;
    if value == "" {
      r := r[f := message];
    }
  }

  /** The date-of-birth check: required, then `currentYear - birthYear < 18` when the date parses. */
  method CheckBirthDate(errors: map<Field, string>, value: string, currentYear: int, birthYear: Option<int>)
    returns (r: map<Field, string>)
    ensures r == Record(errors, DateOfBirth, BirthDateRule(value, currentYear, birthYear))
  {
    r := errors;
    if value == "" {
      r := r[DateOfBirth := BirthDateRequired];
    } else if birthYear.Some? {
      var age := currentYear - birthYear.value;
      if age < MinimumAge {
        r := r[DateOfBirth := TooYoung];
      }
    }
  }

  /** The phone check: required once trimmed, then the pattern. */
  method CheckPhone(errors: map<Field, string>, value: string) returns (r: map<Field, string>)
    ensures r == Record(errors, Phone, PhoneRule(value))
  {
    r := errors;
    if Blank(value) {
      r := r[Phone := PhoneRequired];
    } else if !PhonePattern(value) {
      r := r[Phone := PhoneFormatWrong];
    }
  }

  /** The email check: required once trimmed, then the pattern. */
  method CheckEmail(errors: map<Field, string>, value: string) returns (r: map<Field, string>)
    ensures r == Record(errors, Email, EmailRule(value))
  {
    r := errors;
    if Blank(value) {
      r := r[Email := EmailRequired];
    } else if !EmailPattern(value) {
      r := r[Email := EmailFormatWrong];
    }
  }

  /** The errors object filled in field by field, in the order the form checks them. */
  function RecordAll(form: EmployeeData, currentYear: int, birthYear: Option<int>): map<Field, string> {
    var e0: map<Field, string> := map[];
    var e1 := Record(e0, FirstName, TextRule(form.firstName, FirstNameRequired));
    var e2 := Record(e1, LastName, TextRule(form.lastName, LastNameRequired));
    var e3 := Record(e2, DateOfEmployment, ChoiceRule(form.dateOfEmployment, EmploymentDateRequired));
    var e4 := Record(e3, DateOfBirth, BirthDateRule(form.dateOfBirth, currentYear, birthYear));
    var e5 := Record(e4, Phone, PhoneRule(form.phone));
    var e6 := Record(e5, Email, EmailRule(form.email));
    var e7 := Record(e6, Department, ChoiceRule(form.department, DepartmentRequired));
    Record(e7, Position, ChoiceRule(form.position, PositionRequired))
  }

  /** The entries of the errors object for the inputs in `checked` only. */
  function ErrorsAmong(form: EmployeeData, currentYear: int, birthYear: Option<int>, checked: set<Field>): map<Field, string> {
    map f | f in checked && FieldError(form, f, currentYear, birthYear).Some? ::
      FieldError(form, f, currentYear, birthYear).value
  }

  /** Recording one more input's rule extends the entries to that input. */
  lemma RecordStep(form: EmployeeData, currentYear: int, birthYear: Option<int>, checked: set<Field>, f: Field)
    requires f !in checked
    ensures Record(ErrorsAmong(form, currentYear, birthYear, checked), f, FieldError(form, f, currentYear, birthYear))
         == ErrorsAmong(form, currentYear, birthYear, checked + {f})
  {
    var before := ErrorsAmong(form, currentYear, birthYear, checked);
    var after := ErrorsAmong(form, currentYear, birthYear, checked + {f});
    var recorded := Record(before, f, FieldError(form, f, currentYear, birthYear));
    forall g
      ensures g in recorded <==> g in after
      ensures g in recorded ==> recorded[g] == after[g]
    {
    }
  }

  /** Filling the errors in one rule at a time gives the errors object. */
  lemma RecordAllIsFormErrors(form: EmployeeData, currentYear: int, birthYear: Option<int>)
    ensures RecordAll(form, currentYear, birthYear) == FormErrors(form, currentYear, birthYear)
  {
    var cy, year := currentYear, birthYear;
    var s1 := {FirstName};
    var s2 := s1 + {LastName};
    var s3 := s2 + {DateOfEmployment};
    var s4 := s3 + {DateOfBirth};
    var s5 := s4 + {Phone};
    var s6 := s5 + {Email};
    var s7 := s6 + {Department};
    var e0: map<Field, string> := map[];
    assert ErrorsAmong(form, cy, year, {}) == e0;
    var e1 := Record(e0, FirstName, TextRule(form.firstName, FirstNameRequired));
    RecordStep(form, cy, year, {}, FirstName);
    assert e1 == ErrorsAmong(form, cy, year, s1);
    var e2 := Record(e1, LastName, TextRule(form.lastName, LastNameRequired));
    RecordStep(form, cy, year, s1, LastName);
    assert e2 == ErrorsAmong(form, cy, year, s2);
    var e3 := Record(e2, DateOfEmployment, ChoiceRule(form.dateOfEmployment, EmploymentDateRequired));
    RecordStep(form, cy, year, s2, DateOfEmployment);
    assert e3 == ErrorsAmong(form, cy, year, s3);
    var e4 := Record(e3, DateOfBirth, BirthDateRule(form.dateOfBirth, currentYear, birthYear));
    RecordStep(form, cy, year, s3, DateOfBirth);
    assert e4 == ErrorsAmong(form, cy, year, s4);
    var e5 := Record(e4, Phone, PhoneRule(form.phone));
    RecordStep(form, cy, year, s4, Phone);
    assert e5 == ErrorsAmong(form, cy, year, s5);
    var e6 := Record(e5, Email, EmailRule(form.email));
    RecordStep(form, cy, year, s5, Email);
    assert e6 == ErrorsAmong(form, cy, year, s6);
    var e7 := Record(e6, Department, ChoiceRule(form.department, DepartmentRequired));
    RecordStep(form, cy, year, s6, Department);
    assert e7 == ErrorsAmong(form, cy, year, s7);
    RecordStep(form, cy, year, s7, Position);
    assert s7 + {Position} == Fields;
  }

  /**
   * The errors object built by recording the rules one after another, in the form's order,
   * is the errors object; it has no key exactly when every rule passes.
   */
  lemma ValidationSteps(form: EmployeeData, currentYear: int, birthYear: Option<int>,
                        e1: map<Field, string>, e2: map<Field, string>, e3: map<Field, string>,
                        e4: map<Field, string>, e5: map<Field, string>, e6: map<Field, string>,
                        e7: map<Field, string>, e8: map<Field, string>)
    requires e1 == Record(map[], FirstName, TextRule(form.firstName, FirstNameRequired))
    requires e2 == Record(e1, LastName, TextRule(form.lastName, LastNameRequired))
    requires e3 == Record(e2, DateOfEmployment, ChoiceRule(form.dateOfEmployment, EmploymentDateRequired))
    requires e4 == Record(e3, DateOfBirth, BirthDateRule(form.dateOfBirth, currentYear, birthYear))
    requires e5 == Record(e4, Phone, PhoneRule(form.phone))
    requires e6 == Record(e5, Email, EmailRule(form.email))
    requires e7 == Record(e6, Department, ChoiceRule(form.department, DepartmentRequired))
    requires e8 == Record(e7, Position, ChoiceRule(form.position, PositionRequired))
    ensures e8 == FormErrors(form, currentYear, birthYear)
    ensures |e8.Keys| == 0 <==> e8 == map[]
    ensures e8 == map[] <==> AllRulesPass(form, currentYear, birthYear)
  {
    assert e8 == RecordAll(form, currentYear, birthYear);
    RecordAllIsFormErrors(form, currentYear, birthYear);
    ValidIffAllRules(form, currentYear, birthYear);
    if |e8.Keys| == 0 {
      assert e8.Keys == {};
    }
  }

  /** Every rule, stated on the form's values, as the form promises them. */
  predicate AllRulesPass(form: EmployeeData, currentYear: int, birthYear: Option<int>) {
    && !Blank(form.firstName)
    && !Blank(form.lastName)
    && form.dateOfEmployment != ""
    && form.dateOfBirth != ""
    && (birthYear.Some? ==> currentYear - birthYear.value >= 18)
    && PhonePattern(form.phone)
    && EmailPattern(form.email)
    && form.department != ""
    && form.position != ""
  }

  /** A pattern-matching phone number is never blank. */
  lemma PhonePatternNotBlank(s: string)
    requires PhonePattern(s)
    ensures !Blank(s)
  {
    assert s[0] == Prefix[0] == '+';
  }

  /** A matching email is never blank. */
  lemma EmailPatternNotBlank(s: string)
    requires EmailPattern(s)
    ensures !Blank(s)
  {
    var at, dot :| 0 < at && at + 1 < dot && dot + 1 < |s| && s[at] == '@' && s[dot] == '.' &&
      forall i :: 0 <= i < |s| && i != at ==> EmailChar(s[i]);
    assert !IsSpace(s[0]);
  }

  /** The form is valid (no entry in the errors object) exactly when every rule passes. */
  lemma ValidIffAllRules(form: EmployeeData, currentYear: int, birthYear: Option<int>)
    ensures FormErrors(form, currentYear, birthYear) == map[] <==> AllRulesPass(form, currentYear, birthYear)
  {
    var errors := FormErrors(form, currentYear, birthYear);
    if AllRulesPass(form, currentYear, birthYear) {
      PhonePatternNotBlank(form.phone);
      EmailPatternNotBlank(form.email);
      forall f ensures f !in errors {
      }
      assert errors.Keys == {};
    } else {
      var f :| f in Fields && FieldError(form, f, currentYear, birthYear).Some?;
      assert f in errors;
    }
  }

  /** One input's entry is present exactly when its rule fails, and then holds that rule's message. */
  lemma ErrorEntry(form: EmployeeData, f: Field, currentYear: int, birthYear: Option<int>)
    ensures var errors := FormErrors(form, currentYear, birthYear);
      && (f in errors <==> FieldError(form, f, currentYear, birthYear).Some?)
      && (f in errors ==> errors[f] == FieldError(form, f, currentYear, birthYear).value)
  {
    EveryField(f);
  }

  /**
   * The date of birth fails exactly when it is empty, or when it parses and the current
   * year minus its year is below 18: only years are compared, whatever the month and day,
   * and a date that does not parse passes.
   */
  lemma BirthDateEntry(form: EmployeeData, currentYear: int, birthYear: Option<int>)
    ensures var errors := FormErrors(form, currentYear, birthYear);
      && (DateOfBirth in errors <==>
            form.dateOfBirth == "" || (birthYear.Some? && currentYear - birthYear.value < 18))
      && (form.dateOfBirth == "" ==> errors[DateOfBirth] == BirthDateRequired)
      && (form.dateOfBirth != "" && DateOfBirth in errors ==> errors[DateOfBirth] == TooYoung)
  {
    ErrorEntry(form, DateOfBirth, currentYear, birthYear);
  }

  /** Born seventeen calendar years ago fails; eighteen passes. */
  lemma AgeBoundary(form: EmployeeData, currentYear: int)
    requires form.dateOfBirth != ""
    ensures DateOfBirth in FormErrors(form, currentYear, Some(currentYear - 17))
    ensures DateOfBirth !in FormErrors(form, currentYear, Some(currentYear - 18))
  {
    BirthDateEntry(form, currentYear, Some(currentYear - 17));
    BirthDateEntry(form, currentYear, Some(currentYear - 18));
  }

  /**
   * A phone input, once reformatted as the form does on every keystroke, passes its rule
   * exactly when at least twelve digits were typed; otherwise it fails with the format
   * message, never with "required".
   */
  lemma FormattedPhoneRule(form: EmployeeData, typed: string, currentYear: int, birthYear: Option<int>)
    ensures var f := form.(phone := FormatPhoneNumber(typed));
      && (FieldError(f, Phone, currentYear, birthYear) == None <==> |Digits(typed)| >= 12)
      && (|Digits(typed)| < 12 ==> FieldError(f, Phone, currentYear, birthYear) == Some(PhoneFormatWrong))
  {
    FormatMatchesPattern(typed);
  }

  /** An address with white space anywhere, or with two `@`, is rejected. */
  lemma EmailRejects(s: string, i: int, j: int)
    requires 0 <= i < |s| && 0 <= j < |s|
    requires IsSpace(s[i]) || (i != j && s[i] == '@' && s[j] == '@')
    ensures !EmailPattern(s)
  {
  }

  /** `a@b.c` matches; `a@b`, `a@.bc` and `@b.c` do not. */
  lemma EmailExamples(ok: string, noDot: string, dotFirst: string, noLocal: string)
    requires ok == "a@b.c" && noDot == "a@b" && dotFirst == "a@.bc" && noLocal == "@b.c"
    ensures EmailPattern(ok)
    ensures !EmailPattern(noDot) && !EmailPattern(dotFirst) && !EmailPattern(noLocal)
  {
    assert ok[1] == '@' && ok[3] == '.';
    assert forall i :: 0 <= i < |ok| && i != 1 ==> EmailChar(ok[i]);
  }
}
