/**
 * The exercise plan form: validation of intensity and date range, the plan
 * written under the signed-in user, the form reset, and the fetch of the
 * user's plans. Dates are instants in milliseconds.
 */
module ExercisePlan {
  import opened Wrappers
  import opened Lists
  import opened Forms

  datatype ExerciseForm = ExerciseForm(intensityLevel: string, startDate: int, endDate: int)

  /** The `errors` object of the form: the message of each failed check,
      under its field. */
  datatype Errors = Errors(intensityLevel: Option<string>, dateRange: Option<string>)

  const NoErrors := Errors(None, None)

  /** `{ ...formData, startDate, endDate, createdAt }`, instants kept as
      milliseconds rather than ISO strings. */
  datatype PlanRecord = PlanRecord(intensityLevel: string, startDate: int, endDate: int, createdAt: int)

  predicate ExerciseValid(f: ExerciseForm) {
    f.intensityLevel != [] && f.startDate < f.endDate
  }

  /** The form `resetForm` builds at instant `now`: both pickers at `now`. */
  function FreshForm(now: int): ExerciseForm {
    ExerciseForm("", now, now)
  }

  /** A freshly reset form is not submittable because it has no intensity,
      whatever instants its two date pickers read. */
  lemma FreshFormInvalid(now: int)
    ensures !ExerciseValid(FreshForm(now))
    ensures forall start: int, end: int :: !ExerciseValid(FreshForm(now).(startDate := start, endDate := end))
  {
  }

  function PlanOf(f: ExerciseForm, now: int): (p: PlanRecord)
    ensures p.intensityLevel == f.intensityLevel && p.startDate == f.startDate && p.endDate == f.endDate
    ensures p.createdAt == now
  {
    PlanRecord(f.intensityLevel, f.startDate, f.endDate, now)
  }

  class ExercisePlanPage {
    var formData: ExerciseForm
    var errors: Errors
    var exerciseDetails: seq<PlanRecord>
    /** The store's exercise plans: by user phone, then by creation instant. */
    var plans: map<string, map<int, PlanRecord>>

    constructor (now: int, plans: map<string, map<int, PlanRecord>>)
      ensures formData == FreshForm(now) && errors == NoErrors && exerciseDetails == [] && this.plans == plans
    {
      formData := FreshForm(now);
      errors := NoErrors;
      exerciseDetails := [];
      this.plans := plans;
    }

    function PlansOf(phone: string): map<int, PlanRecord>
      reads this
    {
      if phone in plans then plans[phone] else map[]
    }

    /** `fetchExerciseDetails`. Without a session nothing is set and an
        error is reported; otherwise the stored plans replace the list,
        `[]` when there are none; a failed read sets nothing. */
    method FetchExerciseDetails(sessionPhone: Option<string>, snapshot: Option<seq<(string, PlanRecord)>>, readOk: bool)
      returns (reportedError: bool)
      modifies this`exerciseDetails
      ensures reportedError <==> sessionPhone.None? || !readOk
      ensures reportedError ==> exerciseDetails == old(exerciseDetails)
      ensures !reportedError && snapshot.None? ==> exerciseDetails == []
      ensures !reportedError && snapshot.Some? ==>
        |exerciseDetails| == |snapshot.value| &&
        forall i :: 0 <= i < |exerciseDetails| ==> exerciseDetails[i] == snapshot.value[i].1
    {
      if sessionPhone.None? || !readOk {
        return true;
      }
      if snapshot.Some? {
        exerciseDetails := Values(snapshot.value);
      } else {
        exerciseDetails := [];
      }
      reportedError := false;
    }

    /** The intensity select. */
    method HandleChange(value: string)
      modifies this`formData
      ensures formData == old(formData).(intensityLevel := value)
    {
      formData := formData.(intensityLevel := value);
    }

    /** `validateForm`: equal start and end dates are rejected too. */
    method ValidateForm() returns (isValid: bool)
      modifies this`errors
      ensures Reported(errors.intensityLevel, formData.intensityLevel == [], "Please select intensity level")
      ensures Reported(errors.dateRange, formData.startDate >= formData.endDate, "End date must be after start date")
      ensures isValid <==> errors == NoErrors
      ensures isValid <==> ExerciseValid(formData)
    {
      var tempErrors := NoErrors;
      var entry: Option<string>;
      isValid := true;
      entry, isValid := Check(isValid, formData.intensityLevel == [], "Please select intensity level");
      tempErrors := tempErrors.(intensityLevel := entry);
      entry, isValid := Check(isValid, formData.startDate >= formData.endDate, "End date must be after start date");
      tempErrors := tempErrors.(dateRange := entry);
      errors := tempErrors;
    }

    /** `resetForm` at instant `now`. */
    method ResetForm(now: int)
      modifies this`formData, this`errors
      ensures formData == FreshForm(now) && errors == NoErrors
    {
      formData := FreshForm(now);
      errors := NoErrors;
    }

    /** `handleSubmit` at instant `now`: only a valid form is written, under
        the session's phone and the instant, and then the form is reset. A
        missing session cookie or a failed write writes nothing and keeps
        the form. */
    method HandleSubmit(sessionPhone: Option<string>, now: int, writeOk: bool) returns (written: bool)
      modifies this`formData, this`errors, this`plans
      ensures written <==> ExerciseValid(old(formData)) && sessionPhone.Some? && writeOk
      ensures !written ==> plans == old(plans) && formData == old(formData)
      ensures !written ==> (errors == NoErrors <==> ExerciseValid(old(formData)))
      ensures written ==>
        && plans == old(plans)[sessionPhone.value := old(PlansOf(sessionPhone.value))[now := PlanOf(old(formData), now)]]
        && formData == FreshForm(now) && errors == NoErrors
    {
      var isValid := ValidateForm();
      written := false;
      if isValid && sessionPhone.Some? && writeOk {
        var phone := sessionPhone.value;
        plans := plans[phone := PlansOf(phone)[now := PlanOf(formData, now)]];
        ResetForm(now);
        written := true;
      }
    }
  }
}
