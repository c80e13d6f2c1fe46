/**
 * What the form screens share: the value of a number input, the entries
 * of the error object a validator builds, the user record of the user
 * table, and the session record kept after login.
 */
module Forms {
  import opened Wrappers

  /** The value of an `<input type="number">`: empty, or a number. */
  datatype NumInput = Blank | Number(value: real)

  /** `!x || x < min` for a number input: empty, or below `min`. */
  predicate MissingOrBelow(x: NumInput, min: real) {
    x.Blank? || x.value < min
  }

  /** An entry of a validator's `errors` object holds `message` exactly
      when the check for its field failed. */
  predicate Reported(entry: Option<string>, failed: bool, message: string) {
    (entry.Some? <==> failed) && (failed ==> entry.value == message)
  }

  /** One check of a validator, `if (failed) { tempErrors.field = message;
      isValid = false; }`: the entry for the field records the failure, and
      the verdict drops to false on failure. */
  method Check(isValid: bool, failed: bool, message: string) returns (entry: Option<string>, isValid': bool)
    ensures Reported(entry, failed, message)
    ensures isValid' == (isValid && !failed)
  {
    entry, isValid' := None, isValid;
    if failed {
      entry, isValid' := Some(message), false;
    }
  }

  /** The record the registration form stores under the user's phone:
      the form with the password Base64-encoded. */
  datatype StoredUser = StoredUser(
    name: string,
    age: NumInput,
    email: string,
    phone: string,
    medicalHistory: string,
    currentWeight: NumInput,
    password: string,
    confirmPassword: string)

  /** The session record login hands to the application (kept in the `user`
      cookie). It has no `userType`. */
  datatype SessionRecord = SessionRecord(
    name: string,
    email: string,
    phone: string,
    age: NumInput,
    medicalHistory: string,
    currentWeight: NumInput)
}
