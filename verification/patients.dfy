/** The patients page: date display, age, the evaluation check boxes, the
    first-visit lookup and the save payload. */
module Patients {
  import opened Values
  import opened Lists
  import opened Text
  import opened Clock

  /** `formatDate`: `-` for an absent or empty value; a value starting with
      `YYYY-MM-DD` shows as `DD/MM/YYYY`; anything else shows unchanged. */
  function FormatDate(value: Option<string>): (r: string)
    ensures value.None? || value.value == "" ==> r == "-"
    ensures value.Some? && value.value != "" && !IsIsoDatePrefix(value.value) ==> r == value.value
    ensures value.Some? && IsIsoDatePrefix(value.value) ==> |r| == 10 && r[2] == '/' && r[5] == '/'
  {
    if value.None? || value.value == "" then "-"
    else if IsIsoDatePrefix(value.value) then
      value.value[8..10] + "/" + value.value[5..7] + "/" + value.value[..4]
    else value.value
  }

  /** Reading `DD/MM/YYYY` back as `YYYY-MM-DD`. */
  function ReadBrazilianDate(r: string): string
    requires |r| == 10
  {
    r[6..10] + "-" + r[3..5] + "-" + r[..2]
  }

  /** The displayed date is the stored date, reordered: nothing is lost. */
  lemma FormatDateReadsBack(v: string)
    requires IsIsoDatePrefix(v)
    ensures ReadBrazilianDate(FormatDate(Some(v))) == v[..10]
  {
    assert FormatDate(Some(v))[6..10] == v[..4];
    assert FormatDate(Some(v))[3..5] == v[5..7];
    assert FormatDate(Some(v))[..2] == v[8..10];
    assert v[..10] == v[..4] + "-" + v[5..7] + "-" + v[8..10];
  }

  /** Calendar order on (year, month, day). */
  predicate DateLe(a: CivilDate, b: CivilDate) {
    a.year < b.year || (a.year == b.year && (a.month < b.month || (a.month == b.month && a.day <= b.day)))
  }

  /** The `k`-th birthday. */
  function Anniversary(birth: CivilDate, k: int): CivilDate {
    CivilDate(birth.year + k, birth.month, birth.day)
  }

  /** The age inside `calculateAge`: the year difference, less one while
      this year's birthday is still ahead. It is the number of birthdays
      passed: the `age`-th has been reached and the next one has not. */
  function AgeYears(birth: CivilDate, today: CivilDate): (age: int)
    ensures DateLe(Anniversary(birth, age), today)
    ensures !DateLe(Anniversary(birth, age + 1), today)
  {
    if today.month - birth.month < 0 || (today.month - birth.month == 0 && today.day < birth.day)
    then today.year - birth.year - 1
    else today.year - birth.year
  }

  /** Those two facts pin the age down. */
  lemma AgeUnique(birth: CivilDate, today: CivilDate, k: int)
    requires DateLe(Anniversary(birth, k), today)
    requires !DateLe(Anniversary(birth, k + 1), today)
    ensures k == AgeYears(birth, today)
  {
  }

  /** A later day never gives a smaller age. */
  lemma AgeMonotone(birth: CivilDate, t1: CivilDate, t2: CivilDate)
    requires DateLe(t1, t2)
    ensures AgeYears(birth, t1) <= AgeYears(birth, t2)
  {
  }

  /** `calculateAge`: empty text, or a date JavaScript cannot read
      (`birth` absent), gives `""`; otherwise `"<age> anos"`. `birth` is
      the local calendar date of `new Date(dateString)` and `today` the
      current one. */
  function CalculateAge(dateString: string, birth: Option<CivilDate>, today: CivilDate): (r: string)
    ensures r == "" <==> dateString == "" || birth.None?
    ensures r != "" ==> r == IntToString(AgeYears(birth.value, today)) + " anos"
  {
    if dateString == "" || birth.None? then ""
    else IntToString(AgeYears(birth.value, today)) + " anos"
  }

  /** One entry of `physical_evaluation_selected`. */
  datatype Selection = Selection(evaluationId: int, selected: seq<string>)

  /** Position of the first entry for `id` (`prev.find`), or `|prev|`. */
  function FirstWithId(prev: seq<Selection>, id: int): (i: nat)
    ensures i <= |prev|
    ensures i < |prev| ==> prev[i].evaluationId == id
    ensures forall j :: 0 <= j < i ==> prev[j].evaluationId != id
  {
    if |prev| == 0 then 0
    else if prev[0].evaluationId == id then 0
    else 1 + FirstWithId(prev[1..], id)
  }

  lemma FirstWithIdIs(s: seq<Selection>, id: int, i: nat)
    requires i <= |s|
    requires i < |s| ==> s[i].evaluationId == id
    requires forall j :: 0 <= j < i ==> s[j].evaluationId != id
    ensures FirstWithId(s, id) == i
  {
  }

  /** The options ticked for an evaluation: those of its first entry, none
      when it has no entry. */
  function SelectionOf(prev: seq<Selection>, id: int): seq<string> {
    if FirstWithId(prev, id) < |prev| then prev[FirstWithId(prev, id)].selected else []
  }

  /** `prev.map(item => item.evaluation_id === id ? { ...item, selected } : item)`. */
  function SetSelected(prev: seq<Selection>, id: int, selected: seq<string>): (r: seq<Selection>)
    ensures |r| == |prev|
    ensures forall i :: 0 <= i < |prev| ==> r[i].evaluationId == prev[i].evaluationId
    ensures forall i :: 0 <= i < |prev| && prev[i].evaluationId != id ==> r[i] == prev[i]
    ensures forall i :: 0 <= i < |prev| && prev[i].evaluationId == id ==> r[i].selected == selected
  {
    seq(|prev|, i requires 0 <= i < |prev| =>
      if prev[i].evaluationId == id then prev[i].(selected := selected) else prev[i])
  }

  /** `toggleEvaluationOption`: an evaluation without an entry gets one
      holding just `option`, appended; otherwise the first entry's options
      are toggled and the result is written to every entry of that
      evaluation. */
  function ToggleEvaluationOption(prev: seq<Selection>, id: int, option: string): (r: seq<Selection>)
    ensures |r| >= |prev|
    ensures forall i :: 0 <= i < |prev| && prev[i].evaluationId != id ==> r[i] == prev[i]
    ensures FirstWithId(prev, id) == |prev| ==> r == prev + [Selection(id, [option])]
  {
    if FirstWithId(prev, id) == |prev| then prev + [Selection(id, [option])]
    else SetSelected(prev, id, Toggle(prev[FirstWithId(prev, id)].selected, option))
  }

  /** The evaluation's options gain `option` when it was not ticked and lose
      it when it was; other options stay as they were. */
  lemma ToggleEvaluationOptionFlips(prev: seq<Selection>, id: int, option: string)
    ensures option in SelectionOf(ToggleEvaluationOption(prev, id, option), id) <==> option !in SelectionOf(prev, id)
    ensures forall o :: o != option ==>
      (o in SelectionOf(ToggleEvaluationOption(prev, id, option), id) <==> o in SelectionOf(prev, id))
  {
    if FirstWithId(prev, id) == |prev| {
      FirstWithIdIs(prev + [Selection(id, [option])], id, |prev|);
    } else {
      FirstWithIdIs(ToggleEvaluationOption(prev, id, option), id, FirstWithId(prev, id));
    }
  }

  /** Every other evaluation keeps its options. */
  lemma ToggleEvaluationOptionLeavesOthers(prev: seq<Selection>, id: int, option: string, other: int)
    requires other != id
    ensures SelectionOf(ToggleEvaluationOption(prev, id, option), other) == SelectionOf(prev, other)
  {
    if FirstWithId(prev, id) == |prev| {
      if FirstWithId(prev, other) < |prev| {
        FirstWithIdIs(prev + [Selection(id, [option])], other, FirstWithId(prev, other));
      } else {
        FirstWithIdIs(prev + [Selection(id, [option])], other, |prev| + 1);
      }
    } else {
      FirstWithIdIs(ToggleEvaluationOption(prev, id, option), other, FirstWithId(prev, other));
    }
  }

  /** Ticking the same option twice restores the evaluation's options. */
  lemma ToggleEvaluationOptionTwice(prev: seq<Selection>, id: int, option: string, o: string)
    ensures o in SelectionOf(ToggleEvaluationOption(ToggleEvaluationOption(prev, id, option), id, option), id)
      <==> o in SelectionOf(prev, id)
  {
    ToggleEvaluationOptionFlips(prev, id, option);
    ToggleEvaluationOptionFlips(ToggleEvaluationOption(prev, id, option), id, option);
  }

  /** An appointment returned by the first-visit lookup; `time` is the
      instant `new Date(starts_at).getTime()` reads, in minutes. */
  datatype Visit = Visit(id: int, startsAt: string, time: int)

  /** `i` is where a stable ascending sort by time puts first: no visit is
      earlier, and none before it is as early. */
  predicate Earliest(list: seq<Visit>, i: int) {
    && 0 <= i < |list|
    && (forall j :: 0 <= j < |list| ==> list[i].time <= list[j].time)
    && (forall j :: 0 <= j < i ==> list[j].time > list[i].time)
  }

  lemma EarliestUnique(list: seq<Visit>, i: int, j: int)
    requires Earliest(list, i) && Earliest(list, j)
    ensures i == j
  {
    assert list[i].time == list[j].time;
  }

  /** `starts_at.slice(0, 10)`. */
  function DatePart(s: string): (r: string)
    ensures |s| >= 10 ==> r == s[..10]
    ensures |s| < 10 ==> r == s
  {
    if |s| < 10 then s else s[..10]
  }

  const NoVisitsMessage: string := "Paciente sem agendamentos."

  /** `useFirstAppointmentDate`: an error for an empty list, otherwise the
      date part of the earliest appointment. */
  method FirstVisitDate(list: seq<Visit>) returns (r: Result<string, string>)
    ensures r.Err? <==> |list| == 0
    ensures r.Err? ==> r.error == NoVisitsMessage
    ensures r.Ok? ==> exists i :: Earliest(list, i) && r.value == DatePart(list[i].startsAt)
  {
    if |list| == 0 {
      return Err(NoVisitsMessage);
    }
    var best := 0;
    var k := 1;
    while k < |list|
      invariant 1 <= k <= |list|
      invariant 0 <= best < k
      invariant forall j :: 0 <= j < k ==> list[best].time <= list[j].time
      invariant forall j :: 0 <= j < best ==> list[j].time > list[best].time
    {
      if list[k].time < list[best].time {
        best := k;
      }
      k := k + 1;
    }
    assert Earliest(list, best);
    return Ok(DatePart(list[best].startsAt));
  }

  /** The free-text fields of the form, as typed. */
  datatype Details = Details(
    birthDate: string, phone: string, profession: string, chiefComplaint: string,
    diagnosis: string, medicalHistory: string, firstVisitDate: string,
    billingType: string, insuranceName: string, notes: string)

  /** The same fields as sent or stored, each possibly null. */
  datatype NullableDetails = NullableDetails(
    birthDate: Option<string>, phone: Option<string>, profession: Option<string>,
    chiefComplaint: Option<string>, diagnosis: Option<string>, medicalHistory: Option<string>,
    firstVisitDate: Option<string>, billingType: Option<string>, insuranceName: Option<string>,
    notes: Option<string>)

  /** `field || null` for every field. */
  function NullBlanks(d: Details): (r: NullableDetails)
    ensures Filled(r) && Blanks(r) == d
  {
    NullableDetails(OrNull(d.birthDate), OrNull(d.phone), OrNull(d.profession),
      OrNull(d.chiefComplaint), OrNull(d.diagnosis), OrNull(d.medicalHistory),
      OrNull(d.firstVisitDate), OrNull(d.billingType), OrNull(d.insuranceName), OrNull(d.notes))
  }

  /** `field ?? ""` for every field. */
  function Blanks(n: NullableDetails): Details {
    Details(n.birthDate.GetOr(""), n.phone.GetOr(""), n.profession.GetOr(""),
      n.chiefComplaint.GetOr(""), n.diagnosis.GetOr(""), n.medicalHistory.GetOr(""),
      n.firstVisitDate.GetOr(""), n.billingType.GetOr(""), n.insuranceName.GetOr(""), n.notes.GetOr(""))
  }

  /** On records without empty-string fields, nulling blanks undoes
      reading nulls as blanks. */
  lemma NullBlanksOfBlanks(n: NullableDetails)
    requires Filled(n)
    ensures NullBlanks(Blanks(n)) == n
  {
  }

  /** No present field is the empty string. */
  predicate Filled(n: NullableDetails) {
    && n.birthDate != Some("") && n.phone != Some("") && n.profession != Some("")
    && n.chiefComplaint != Some("") && n.diagnosis != Some("") && n.medicalHistory != Some("")
    && n.firstVisitDate != Some("") && n.billingType != Some("") && n.insuranceName != Some("")
    && n.notes != Some("")
  }

  datatype Patient = Patient(
    id: int, name: string, details: NullableDetails,
    evaluations: Option<seq<Selection>>, active: Option<bool>)

  datatype PatientForm = PatientForm(
    editingId: Option<int>, name: string, details: Details,
    evaluations: seq<Selection>, active: bool)

  datatype PatientPayload = PatientPayload(
    name: string, details: NullableDetails, evaluations: Option<seq<Selection>>, active: bool)

  datatype PatientRequest = CreatePatient(payload: PatientPayload) | UpdatePatient(id: int, payload: PatientPayload)

  const NameRequiredMessage: string := "Nome e obrigatorio."

  /** `handleSubmit`: refused without a name; blank fields are sent as
      null, an empty evaluation list as null; an edit (a non-zero
      `editingId`) patches, anything else creates. */
  function SubmitPatient(f: PatientForm): (r: Result<PatientRequest, string>)
    ensures r.Err? <==> f.name == ""
    ensures r.Err? ==> r.error == NameRequiredMessage
    ensures r.Ok? ==> && r.value.payload.name == f.name
                      && Blanks(r.value.payload.details) == f.details
                      && Filled(r.value.payload.details)
                      && (r.value.payload.evaluations.None? <==> f.evaluations == [])
                      && r.value.payload.evaluations.GetOr([]) == f.evaluations
                      && r.value.payload.active == f.active
    ensures r.Ok? ==> (r.value.UpdatePatient? <==> f.editingId.Some? && f.editingId.value != 0)
  {
    if f.name == "" then Err(NameRequiredMessage)
    else
      var payload := PatientPayload(f.name, NullBlanks(f.details),
        if |f.evaluations| > 0 then Some(f.evaluations) else None, f.active);
      if f.editingId.Some? && f.editingId.value != 0 then Ok(UpdatePatient(f.editingId.value, payload))
      else Ok(CreatePatient(payload))
  }

  /** `handleEdit`: the stored record in the form, nulls as blanks, no
      evaluations as an empty list, an unknown `active` as true. */
  function EditPatient(p: Patient): (f: PatientForm)
    ensures f.editingId == Some(p.id) && f.name == p.name
  {
    PatientForm(Some(p.id), p.name, Blanks(p.details), p.evaluations.GetOr([]), p.active.GetOr(true))
  }

  /** Opening a stored patient and saving without changes sends back exactly
      what was stored, when the record has a name, no empty-string fields,
      no empty evaluation list and a known `active`. */
  lemma EditThenSaveKeepsRecord(p: Patient)
    requires p.id != 0 && p.name != ""
    requires Filled(p.details) && p.evaluations != Some([]) && p.active.Some?
    ensures SubmitPatient(EditPatient(p)) == Ok(UpdatePatient(p.id, PatientPayload(p.name, p.details, p.evaluations, p.active.value)))
  {
  }

  /** `resetForm`. */
  function ResetPatientForm(): (f: PatientForm)
    ensures f.editingId.None? && f.evaluations == [] && f.active
  {
    PatientForm(None, "", Details("", "", "", "", "", "", "", "", "", ""), [], true)
  }

  /** A freshly reset form cannot be submitted. */
  lemma ResetFormRefused()
    ensures SubmitPatient(ResetPatientForm()) == Err(NameRequiredMessage)
  {
  }
}
