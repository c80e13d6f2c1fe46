/**
 * The patient registration form: field-by-field validation into an error
 * object, and the guarded write of the user record under the phone number.
 */
module Register {
  import opened Wrappers
  import opened Text
  import opened Forms
  import Base64

  datatype RegisterForm = RegisterForm(
    name: string,
    age: NumInput,
    email: string,
    phone: string,
    medicalHistory: string,
    currentWeight: NumInput,
    password: string,
    confirmPassword: string)

  /** The `errors` object of the form: the message of each failed check,
      under its field. */
  datatype Errors = Errors(
    name: Option<string>,
    age: Option<string>,
    email: Option<string>,
    phone: Option<string>,
    medicalHistory: Option<string>,
    currentWeight: Option<string>,
    password: Option<string>,
    confirmPassword: Option<string>)

  const NoErrors := Errors(None, None, None, None, None, None, None, None)

  predicate AgeInvalid(age: NumInput) {
    age.Blank? || age.value < 18.0 || age.value > 50.0
  }

  /** Every check of `validateForm` passes. */
  predicate RegisterValid(f: RegisterForm) {
    && !IsBlank(f.name)
    && !AgeInvalid(f.age)
    && HasEmailShape(f.email)
    && IsTenDigits(f.phone)
    && !IsBlank(f.medicalHistory)
    && !MissingOrBelow(f.currentWeight, 30.0)
    && |f.password| >= 6
    && f.password == f.confirmPassword
  }

  /** `{ ...formData, password: btoa(formData.password) }`: every form field
      is stored as entered, including the plain `confirmPassword`, except the
      password, which is stored encoded. */
  function StoredRecord(f: RegisterForm, encoded: string): (u: StoredUser)
    ensures u.name == f.name && u.age == f.age && u.email == f.email && u.phone == f.phone
    ensures u.medicalHistory == f.medicalHistory && u.currentWeight == f.currentWeight
    ensures u.password == encoded && u.confirmPassword == f.confirmPassword
  {
    StoredUser(f.name, f.age, f.email, f.phone, f.medicalHistory, f.currentWeight, encoded, f.confirmPassword)
  }

  class RegisterPage {
    var formData: RegisterForm
    var errors: Errors
    /** The user table of the store, by key. */
    var users: map<string, StoredUser>

    constructor (users: map<string, StoredUser>)
      ensures formData == RegisterForm("", Blank, "", "", "", Blank, "", "") && errors == NoErrors && this.users == users
    {
      formData := RegisterForm("", Blank, "", "", "", Blank, "", "");
      errors := NoErrors;
      this.users := users;
    }

    /** `validateForm`: records an error for each failed check, in order,
        and accepts exactly when none was recorded. */
    method ValidateForm() returns (isValid: bool)
      modifies this`errors
      ensures Reported(errors.name, IsBlank(formData.name), "Name is required")
      ensures Reported(errors.age, AgeInvalid(formData.age), "Age must be between 18 and 50")
      ensures Reported(errors.email, !HasEmailShape(formData.email), "Email is invalid")
      ensures Reported(errors.phone, !IsTenDigits(formData.phone), "Phone number must be 10 digits")
      ensures Reported(errors.medicalHistory, IsBlank(formData.medicalHistory), "Medical history is required")
      ensures Reported(errors.currentWeight, MissingOrBelow(formData.currentWeight, 30.0), "Please enter a valid weight")
      ensures Reported(errors.password, |formData.password| < 6, "Password must be at least 6 characters")
      ensures Reported(errors.confirmPassword, formData.password != formData.confirmPassword, "Passwords do not match")
      ensures isValid <==> errors == NoErrors
      ensures isValid <==> RegisterValid(formData)
    {
      var tempErrors := NoErrors;
      var entry: Option<string>;
      isValid := true;
      entry, isValid := Check(isValid, IsBlank(formData.name), "Name is required");
      tempErrors := tempErrors.(name := entry);
      entry, isValid := Check(isValid, AgeInvalid(formData.age), "Age must be between 18 and 50");
      tempErrors := tempErrors.(age := entry);
      entry, isValid := Check(isValid, !HasEmailShape(formData.email), "Email is invalid");
      tempErrors := tempErrors.(email := entry);
      entry, isValid := Check(isValid, !IsTenDigits(formData.phone), "Phone number must be 10 digits");
      tempErrors := tempErrors.(phone := entry);
      entry, isValid := Check(isValid, IsBlank(formData.medicalHistory), "Medical history is required");
      tempErrors := tempErrors.(medicalHistory := entry);
      entry, isValid := Check(isValid, MissingOrBelow(formData.currentWeight, 30.0), "Please enter a valid weight");
      tempErrors := tempErrors.(currentWeight := entry);
      entry, isValid := Check(isValid, |formData.password| < 6, "Password must be at least 6 characters");
      tempErrors := tempErrors.(password := entry);
      entry, isValid := Check(isValid, formData.password != formData.confirmPassword, "Passwords do not match");
      tempErrors := tempErrors.(confirmPassword := entry);
      errors := tempErrors;
    }

    /** `handleSubmit`: a valid form is written under its phone with the
        password encoded; an invalid form, a password `btoa` rejects, or a
        failed write leaves the table as it was. */
    method HandleSubmit(writeOk: bool) returns (registered: bool)
      modifies this`errors, this`users
      ensures registered <==> RegisterValid(formData) && Base64.IsLatin1(formData.password) && writeOk
      ensures !registered ==> users == old(users)
      ensures registered ==>
        users == old(users)[formData.phone := StoredRecord(formData, Base64.Btoa(formData.password).value)]
      ensures errors == NoErrors <==> RegisterValid(formData)
    {
      var isValid := ValidateForm();
      registered := false;
      if isValid {
        var encoded := Base64.Btoa(formData.password);
        if encoded.Some? && writeOk {
          users := users[formData.phone := StoredRecord(formData, encoded.value)];
          registered := true;
        }
      }
    }
  }
}
