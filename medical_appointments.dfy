/**
 * The appointment form of a patient: validation, field edits, the write of
 * the appointment under the signed-in user, and the appointment listing.
 */
module MedicalAppointments {
  import opened Wrappers
  import opened Text
  import opened Lists
  import opened Forms

  datatype ApptForm = ApptForm(doctorName: string, location: string, date: string, time: string)

  /** The form's fields. */
  datatype Field = DoctorName | Location | Date | Time

  /** The `errors` object of the form: the message of each failed check,
      under its field. */
  datatype Errors = Errors(
    doctorName: Option<string>,
    location: Option<string>,
    date: Option<string>,
    time: Option<string>)

  const NoErrors := Errors(None, None, None, None)

  /** `{ ...formData, timestamp }`. */
  datatype Appointment = Appointment(doctorName: string, location: string, date: string, time: string, timestamp: int)

  /** `{ id: key, ...data[key] }`. */
  datatype Listed = Listed(id: string, appointment: Appointment)

  const EmptyForm := ApptForm("", "", "", "")

  function Get(f: ApptForm, field: Field): string {
    match field
    case DoctorName => f.doctorName
    case Location => f.location
    case Date => f.date
    case Time => f.time
  }

  /** `handleChange`: a copy of the form with the named field replaced. */
  function WithField(f: ApptForm, field: Field, value: string): (r: ApptForm)
    ensures Get(r, field) == value
    ensures forall g :: g != field ==> Get(r, g) == Get(f, g)
  {
    match field
    case DoctorName => f.(doctorName := value)
    case Location => f.(location := value)
    case Date => f.(date := value)
    case Time => f.(time := value)
  }

  predicate ApptValid(f: ApptForm) {
    !IsBlank(f.doctorName) && !IsBlank(f.location) && f.date != [] && f.time != []
  }

  function Stamped(f: ApptForm, now: int): (a: Appointment)
    ensures a.doctorName == f.doctorName && a.location == f.location && a.date == f.date && a.time == f.time
    ensures a.timestamp == now
  {
    Appointment(f.doctorName, f.location, f.date, f.time, now)
  }

  /** The listener on the user's appointments: no data gives `[]`, else
      every stored appointment with its key as `id`, in snapshot order. */
  function ListAppointments(data: Option<seq<(string, Appointment)>>): (r: seq<Listed>)
    ensures data.None? ==> r == []
    ensures data.Some? ==> |r| == |data.value| && forall i :: 0 <= i < |r| ==> r[i] == Listed(data.value[i].0, data.value[i].1)
  {
    if data.None? then [] else Tag(data.value)
  }

  function Tag(entries: seq<(string, Appointment)>): (r: seq<Listed>)
    ensures |r| == |entries| && forall i :: 0 <= i < |r| ==> r[i] == Listed(entries[i].0, entries[i].1)
  {
    if entries == [] then [] else [Listed(entries[0].0, entries[0].1)] + Tag(entries[1..])
  }

  /** Over a snapshot of the stored appointments, the listing holds each
      stored key once, with its own appointment. */
  lemma ListingOfTable(entries: seq<(string, Appointment)>, stored: map<string, Appointment>)
    requires Enumerates(entries, stored)
    ensures forall l :: l in ListAppointments(Some(entries)) ==> l.id in stored && stored[l.id] == l.appointment
    ensures forall k :: k in stored ==> Listed(k, stored[k]) in ListAppointments(Some(entries))
    ensures forall i, j :: 0 <= i < j < |ListAppointments(Some(entries))| ==>
      ListAppointments(Some(entries))[i].id != ListAppointments(Some(entries))[j].id
  {
    var r := ListAppointments(Some(entries));
    forall k | k in stored
      ensures Listed(k, stored[k]) in r
    {
      var i :| 0 <= i < |entries| && entries[i].0 == k;
      assert r[i] == Listed(k, stored[k]);
    }
  }

  class AppointmentsPage {
    var formData: ApptForm
    var errors: Errors
    /** The store's appointments: by user phone, then by creation instant. */
    var appointments: map<string, map<int, Appointment>>

    constructor (appointments: map<string, map<int, Appointment>>)
      ensures formData == EmptyForm && errors == NoErrors && this.appointments == appointments
    {
      formData := EmptyForm;
      errors := NoErrors;
      this.appointments := appointments;
    }

    function AppointmentsOf(phone: string): map<int, Appointment>
      reads this
    {
      if phone in appointments then appointments[phone] else map[]
    }

    method HandleChange(field: Field, value: string)
      modifies this`formData
      ensures formData == WithField(old(formData), field, value)
    {
      formData := WithField(formData, field, value);
    }

    /** `validateForm`. */
    method ValidateForm() returns (isValid: bool)
      modifies this`errors
      ensures Reported(errors.doctorName, IsBlank(formData.doctorName), "Doctor name is required")
      ensures Reported(errors.location, IsBlank(formData.location), "Location is required")
      ensures Reported(errors.date, formData.date == [], "Date is required")
      ensures Reported(errors.time, formData.time == [], "Time is required")
      ensures isValid <==> errors == NoErrors
      ensures isValid <==> ApptValid(formData)
    {
      var tempErrors := NoErrors;
      var entry: Option<string>;
      isValid := true;
      entry, isValid := Check(isValid, IsBlank(formData.doctorName), "Doctor name is required");
      tempErrors := tempErrors.(doctorName := entry);
      entry, isValid := Check(isValid, IsBlank(formData.location), "Location is required");
      tempErrors := tempErrors.(location := entry);
      entry, isValid := Check(isValid, formData.date == [], "Date is required");
      tempErrors := tempErrors.(date := entry);
      entry, isValid := Check(isValid, formData.time == [], "Time is required");
      tempErrors := tempErrors.(time := entry);
      errors := tempErrors;
    }

    /** `handleSubmit` at instant `now`: a valid form is stored under the
        session's phone and the instant, and then the form is emptied. An
        invalid form, a missing session cookie or a failed write changes
        neither the store nor the form. */
    method HandleSubmit(sessionPhone: Option<string>, now: int, writeOk: bool) returns (written: bool)
      modifies this`errors, this`formData, this`appointments
      ensures errors == NoErrors <==> ApptValid(old(formData))
      ensures written <==> ApptValid(old(formData)) && sessionPhone.Some? && writeOk
      ensures !written ==> appointments == old(appointments) && formData == old(formData)
      ensures written ==>
        && appointments == old(appointments)[sessionPhone.value :=
             old(AppointmentsOf(sessionPhone.value))[now := Stamped(old(formData), now)]]
        && formData == EmptyForm
    {
      var isValid := ValidateForm();
      written := false;
      if isValid && sessionPhone.Some? && writeOk {
        var phone := sessionPhone.value;
        appointments := appointments[phone := AppointmentsOf(phone)[now := Stamped(formData, now)]];
        formData := EmptyForm;
        written := true;
      }
    }
  }
}
