/**
 * The login form: validation, the look-up of the user by phone, the
 * password comparison through `btoa`, and the session record handed to the
 * application.
 */
module Login {
  import opened Wrappers
  import opened Text
  import opened Forms
  import Base64
  import Register

  datatype LoginForm = LoginForm(phone: string, password: string)

  /** The `errors` object of the form: the message of each failed check,
      under its field. */
  datatype Errors = Errors(phone: Option<string>, password: Option<string>)

  const NoErrors := Errors(None, None)

  /** The outcome of `handleSubmit`, one toast each: the form was rejected
      (no look-up), no user has the phone, the password did not match, the
      look-up or `btoa` threw, or the user is signed in with this session. */
  datatype Outcome = Rejected | UserNotFound | InvalidCredentials | LoginFailed | LoggedIn(session: SessionRecord)

  predicate LoginValid(f: LoginForm) {
    IsTenDigits(f.phone) && f.password != []
  }

  /** `userDataForCookie`: six fields copied from the stored user. */
  function SessionOf(u: StoredUser): (s: SessionRecord)
    ensures s.name == u.name && s.email == u.email && s.phone == u.phone && s.age == u.age
    ensures s.medicalHistory == u.medicalHistory && s.currentWeight == u.currentWeight
  {
    SessionRecord(u.name, u.email, u.phone, u.age, u.medicalHistory, u.currentWeight)
  }

  /** A user-table record whose `phone` child equals `phone`. */
  predicate HasPhone(users: map<string, StoredUser>, k: string, phone: string) {
    k in users && users[k].phone == phone
  }

  /** The registration form stores each user under its own phone. */
  ghost predicate KeyedByPhone(users: map<string, StoredUser>) {
    forall k :: k in users ==> users[k].phone == k
  }

  class LoginPage {
    var formData: LoginForm
    var errors: Errors
    /** What `onLogin` received, if anything. */
    var session: Option<SessionRecord>

    constructor ()
      ensures formData == LoginForm("", "") && errors == NoErrors && session.None?
    {
      formData := LoginForm("", "");
      errors := NoErrors;
      session := None;
    }

    /** `validateForm`: one error per failed check; accepts exactly when
        there is none. */
    method ValidateForm() returns (isValid: bool)
      modifies this`errors
      ensures Reported(errors.phone, !IsTenDigits(formData.phone), "Phone number must be 10 digits")
      ensures Reported(errors.password, formData.password == [], "Password is required")
      ensures isValid <==> errors == NoErrors
      ensures isValid <==> LoginValid(formData)
    {
      var tempErrors := NoErrors;
      var entry: Option<string>;
      isValid := true;
      entry, isValid := Check(isValid, !IsTenDigits(formData.phone), "Phone number must be 10 digits");
      tempErrors := tempErrors.(phone := entry);
      entry, isValid := Check(isValid, formData.password == [], "Password is required");
      tempErrors := tempErrors.(password := entry);
      errors := tempErrors;
    }

    /** `handleSubmit` against the user table `users`; `readOk` is false when
        the query throws. The query returns the records whose `phone` child
        equals the typed phone, and the first of them is compared. */
    method HandleSubmit(users: map<string, StoredUser>, readOk: bool) returns (outcome: Outcome)
      modifies this`errors, this`session
      ensures errors == NoErrors <==> LoginValid(formData)
      ensures !LoginValid(formData) ==> outcome == Rejected
      ensures outcome == UserNotFound <==>
        LoginValid(formData) && readOk && forall k :: !HasPhone(users, k, formData.phone)
      ensures outcome.LoggedIn? ==>
        && LoginValid(formData) && readOk
        && exists k :: HasPhone(users, k, formData.phone) &&
             Base64.Btoa(formData.password) == Some(users[k].password) && outcome.session == SessionOf(users[k])
      ensures outcome == InvalidCredentials ==>
        exists k :: HasPhone(users, k, formData.phone) && Base64.Btoa(formData.password) != Some(users[k].password)
      ensures outcome == LoginFailed ==> !readOk || !Base64.IsLatin1(formData.password)
      ensures LoginValid(formData) && readOk && KeyedByPhone(users) && formData.phone in users ==>
        (outcome.LoggedIn? <==> Base64.Btoa(formData.password) == Some(users[formData.phone].password))
      ensures session == if outcome.LoggedIn? then Some(outcome.session) else old(session)
    {
      var isValid := ValidateForm();
      if !isValid {
        return Rejected;
      }
      if !readOk {
        return LoginFailed;
      }
      if !exists k | k in users :: HasPhone(users, k, formData.phone) {
        return UserNotFound;
      }
      var k :| k in users && HasPhone(users, k, formData.phone);
      var userData := users[k];
      var encoded := Base64.Btoa(formData.password);
      if encoded.None? {
        return LoginFailed;
      }
      if encoded.value == userData.password {
        session := Some(SessionOf(userData));
        outcome := LoggedIn(SessionOf(userData));
      } else {
        outcome := InvalidCredentials;
      }
    }
  }

  /** Against a table written by registration, the stored password of a
      user matches `btoa` of the typed password exactly when the typed
      password is the one registered. */
  lemma LoginAfterRegister(f: Register.RegisterForm, typed: string)
    requires Base64.Btoa(f.password).Some?
    ensures Base64.Btoa(typed) == Some(Register.StoredRecord(f, Base64.Btoa(f.password).value).password) <==> typed == f.password
  {
    if Base64.Btoa(typed) == Base64.Btoa(f.password) {
      Base64.BtoaInjective(f.password, typed);
    }
  }

  /** Registration keeps the table keyed by phone. */
  lemma RegisterKeepsKeyedByPhone(users: map<string, StoredUser>, f: Register.RegisterForm, encoded: string)
    requires KeyedByPhone(users)
    ensures KeyedByPhone(users[f.phone := Register.StoredRecord(f, encoded)])
  {
  }
}
