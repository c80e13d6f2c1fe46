/**
 * The diet plan form: validation, the meal-time picker, and the plan record
 * written under the signed-in user with a 30-day span.
 */
module DietPlan {
  import opened Wrappers
  import opened Text
  import opened Forms

  datatype DietForm = DietForm(
    currentWeight: NumInput,
    bloodSugar: NumInput,
    medicalConditions: string,
    allergies: string,
    preferredMealTimes: map<string, string>)

  /** The `errors` object of the form: the message of each failed check,
      under its field. */
  datatype Errors = Errors(
    currentWeight: Option<string>,
    bloodSugar: Option<string>,
    medicalConditions: Option<string>)

  const NoErrors := Errors(None, None, None)

  const DayMs := 24 * 60 * 60 * 1000
  /** `30 * 24 * 60 * 60 * 1000`. */
  const PlanLengthMs := 30 * DayMs

  /** The UTC calendar day of an instant, counted from 1970-01-01: what
      `new Date(ms).toISOString().split('T')[0]` names. */
  function UtcDay(ms: int): int {
    ms / DayMs
  }

  /** `{ ...formData, startDate, endDate, createdAt }`, dates as UTC days. */
  datatype DietPlanRecord = DietPlanRecord(form: DietForm, startDate: int, endDate: int, createdAt: int)

  function InitialForm(): DietForm {
    DietForm(Blank, Blank, "", "", map["breakfast" := "", "lunch" := "", "dinner" := ""])
  }

  predicate BloodSugarInvalid(x: NumInput) {
    x.Blank? || x.value < 70.0 || x.value > 400.0
  }

  predicate DietValid(f: DietForm) {
    !MissingOrBelow(f.currentWeight, 30.0) && !BloodSugarInvalid(f.bloodSugar) && !IsBlank(f.medicalConditions)
  }

  /** The plan written at instant `now`. */
  function PlanRecord(f: DietForm, now: int): (r: DietPlanRecord)
    ensures r.form == f && r.createdAt == now
    ensures r.startDate == UtcDay(now) && r.endDate == r.startDate + 30
  {
    PlanEndsThirtyDaysLater(now);
    DietPlanRecord(f, UtcDay(now), UtcDay(now + PlanLengthMs), now)
  }

  /** Adding thirty days of milliseconds moves the UTC day by thirty. */
  lemma PlanEndsThirtyDaysLater(now: int)
    ensures UtcDay(now + PlanLengthMs) == UtcDay(now) + 30
  {
    assert now + PlanLengthMs == now + 30 * DayMs;
    assert (now + 30 * DayMs) / DayMs == now / DayMs + 30;
  }

  /** `handleTimeChange(meal, time)`: a copy of the form with one meal's
      time replaced. */
  function WithMealTime(f: DietForm, meal: string, time: string): (r: DietForm)
    ensures r.preferredMealTimes.Keys == f.preferredMealTimes.Keys + {meal}
    ensures r.preferredMealTimes[meal] == time
    ensures forall m :: m in f.preferredMealTimes && m != meal ==> r.preferredMealTimes[m] == f.preferredMealTimes[m]
    ensures r.currentWeight == f.currentWeight && r.bloodSugar == f.bloodSugar
    ensures r.medicalConditions == f.medicalConditions && r.allergies == f.allergies
  {
    f.(preferredMealTimes := f.preferredMealTimes[meal := time])
  }

  class DietPlanPage {
    var formData: DietForm
    var errors: Errors
    /** The plan shown after a successful submission. */
    var dietPlan: Option<DietPlanRecord>
    /** The store's diet plans: by user phone, then by creation instant. */
    var plans: map<string, map<int, DietPlanRecord>>

    constructor (plans: map<string, map<int, DietPlanRecord>>)
      ensures formData == InitialForm() && errors == NoErrors && dietPlan.None? && this.plans == plans
    {
      formData := InitialForm();
      errors := NoErrors;
      dietPlan := None;
      this.plans := plans;
    }

    function PlansOf(phone: string): map<int, DietPlanRecord>
      reads this
    {
      if phone in plans then plans[phone] else map[]
    }

    method HandleTimeChange(meal: string, time: string)
      modifies this`formData
      ensures formData == WithMealTime(old(formData), meal, time)
    {
      formData := WithMealTime(formData, meal, time);
    }

    /** `validateForm`. */
    method ValidateForm() returns (isValid: bool)
      modifies this`errors
      ensures Reported(errors.currentWeight, MissingOrBelow(formData.currentWeight, 30.0), "Please enter a valid weight")
      ensures Reported(errors.bloodSugar, BloodSugarInvalid(formData.bloodSugar), "Please enter a valid blood sugar level")
      ensures Reported(errors.medicalConditions, IsBlank(formData.medicalConditions), "Please enter any medical conditions or \"None\"")
      ensures isValid <==> errors == NoErrors
      ensures isValid <==> DietValid(formData)
    {
      var tempErrors := NoErrors;
      var entry: Option<string>;
      isValid := true;
      entry, isValid := Check(isValid, MissingOrBelow(formData.currentWeight, 30.0), "Please enter a valid weight");
      tempErrors := tempErrors.(currentWeight := entry);
      entry, isValid := Check(isValid, BloodSugarInvalid(formData.bloodSugar), "Please enter a valid blood sugar level");
      tempErrors := tempErrors.(bloodSugar := entry);
      entry, isValid := Check(isValid, IsBlank(formData.medicalConditions), "Please enter any medical conditions or \"None\"");
      tempErrors := tempErrors.(medicalConditions := entry);
      errors := tempErrors;
    }

    /** `handleSubmit` at instant `now`. Only a valid form is written, under
        the session's phone and the instant; a missing session cookie (its
        parse throws) or a failed write writes nothing. */
    method HandleSubmit(sessionPhone: Option<string>, now: int, writeOk: bool) returns (written: bool)
      modifies this`errors, this`dietPlan, this`plans
      ensures errors == NoErrors <==> DietValid(formData)
      ensures written <==> DietValid(formData) && sessionPhone.Some? && writeOk
      ensures !written ==> plans == old(plans) && dietPlan == old(dietPlan)
      ensures written ==>
        && plans == old(plans)[sessionPhone.value := old(PlansOf(sessionPhone.value))[now := PlanRecord(formData, now)]]
        && dietPlan == Some(PlanRecord(formData, now))
    {
      var isValid := ValidateForm();
      written := false;
      if isValid {
        var plan := PlanRecord(formData, now);
        if sessionPhone.Some? && writeOk {
          var phone := sessionPhone.value;
          plans := plans[phone := PlansOf(phone)[now := plan]];
          dietPlan := Some(plan);
          written := true;
        }
      }
    }
  }
}
