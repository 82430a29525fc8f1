/** The professionals page: the save guard and payload, the weekly hours
    created in one go for a new professional, the stand-alone availability
    form, editing, and the local removals after a delete. */
module Professionals {
  import opened Values
  import opened Lists
  import opened Text

  datatype ProfessionalForm = ProfessionalForm(
    editingId: Option<int>, name: string, email: string, phone: string,
    specialty: string, notes: string, active: bool)

  /** Optional text fields go out as `null` when blank. */
  datatype ProfessionalPayload = ProfessionalPayload(
    name: string, email: Option<string>, phone: Option<string>,
    specialty: Option<string>, notes: Option<string>, active: bool)

  /** One weekly opening hour: `professional_id`, `weekday` (0 is Sunday),
      and start and end as `HH:MM` text. */
  datatype AvailabilityPost = AvailabilityPost(
    professionalId: JsNumber, weekday: JsNumber, start: string, end: string)

  /** The requests a save sends, in order. */
  datatype Request =
    | PatchProfessional(id: int, payload: ProfessionalPayload)
    | PostProfessional(payload: ProfessionalPayload)
    | PostAvailability(availability: AvailabilityPost)

  const NameRequiredMessage: string := "Nome e obrigatorio."
  const CreatedMessage: string := "Profissional cadastrado."
  const UpdatedMessage: string := "Profissional atualizado."

  /** `if (editingId)`: a non-null, non-zero id. */
  predicate Editing(editingId: Option<int>) {
    editingId.Some? && editingId.value != 0
  }

  /** The payload built from the form. */
  function ProfessionalPayloadOf(f: ProfessionalForm): (p: ProfessionalPayload)
    ensures p.name == f.name && p.active == f.active
    ensures p.email.GetOr("") == f.email && (p.email.None? <==> f.email == "")
    ensures p.phone.GetOr("") == f.phone && (p.phone.None? <==> f.phone == "")
    ensures p.specialty.GetOr("") == f.specialty && (p.specialty.None? <==> f.specialty == "")
    ensures p.notes.GetOr("") == f.notes && (p.notes.None? <==> f.notes == "")
  {
    ProfessionalPayload(f.name, OrNull(f.email), OrNull(f.phone), OrNull(f.specialty), OrNull(f.notes), f.active)
  }

  /** The check boxes of the batch: Sunday (0) to Saturday (6). */
  predicate IsWeekday(d: int) {
    0 <= d < 7
  }

  /** The batch-day state the check boxes keep: weekdays, each at most
      once. */
  predicate ValidBatch(days: seq<int>) {
    NoDuplicates(days) && forall i :: 0 <= i < |days| ==> IsWeekday(days[i])
  }

  /** Ticking a weekday box: remove the day if present, append it
      otherwise (the list is never sorted). */
  function ToggleDay(days: seq<int>, day: int): (r: seq<int>)
    requires IsWeekday(day)
    ensures day in r <==> day !in days
    ensures forall d :: d != day ==> (d in r <==> d in days)
    ensures day !in days ==> r == days + [day]
  {
    Toggle(days, day)
  }

  /** Starting from no ticked day, the check boxes only ever hold distinct
      weekdays. */
  lemma ToggleDayKeepsBatch(days: seq<int>, day: int)
    requires ValidBatch(days) && IsWeekday(day)
    ensures ValidBatch(ToggleDay(days, day))
  {
    ToggleDistinct(days, day);
    forall i | 0 <= i < |ToggleDay(days, day)|
      ensures IsWeekday(ToggleDay(days, day)[i])
    {
      assert ToggleDay(days, day)[i] in ToggleDay(days, day);
    }
  }

  /** Ticking the same box twice restores the list exactly when the day
      was not ticked before, and its contents always. */
  lemma ToggleDayTwice(days: seq<int>, day: int)
    requires IsWeekday(day)
    ensures day !in days ==> ToggleDay(ToggleDay(days, day), day) == days
    ensures forall d :: d in ToggleDay(ToggleDay(days, day), day) <==> d in days
  {
    ToggleTwice(days, day);
  }

  /** One request per ticked day for the newly created professional, all
      with the batch's start and end, in the order the days were ticked.
      Nothing is sent when no day is ticked or the created record has no
      usable id (`created?.id` falsy). */
  function BatchPosts(days: seq<int>, createdId: Option<int>, start: string, end: string): (r: seq<Request>)
    ensures createdId.None? || createdId.value == 0 ==> r == []
    ensures createdId.Some? && createdId.value != 0 ==> |r| == |days|
    ensures createdId.Some? && createdId.value != 0 ==>
      forall i :: 0 <= i < |days| ==>
        r[i] == PostAvailability(AvailabilityPost(Finite(createdId.value), Finite(days[i]), start, end))
  {
    if createdId.None? || createdId.value == 0 then
      []
    else
      seq(|days|, i requires 0 <= i < |days| =>
            PostAvailability(AvailabilityPost(Finite(createdId.value), Finite(days[i]), start, end)))
  }

  /** The page's saving state: the form and the batch section. */
  datatype Page = Page(form: ProfessionalForm, batchDays: seq<int>, batchStart: string, batchEnd: string)

  /** `handleSubmit`: the requests sent and the toast shown. `createdId` is
      the id the server returns for a new record. Only an empty name is
      refused; a blank-looking name is sent. Editing sends one update and
      no opening hours. */
  function SaveProfessional(page: Page, createdId: Option<int>): (r: Result<seq<Request>, string>)
    ensures r.Err? <==> page.form.name == ""
    ensures r.Err? ==> r.error == NameRequiredMessage
    ensures r.Ok? && Editing(page.form.editingId) ==>
      r.value == [PatchProfessional(page.form.editingId.value, ProfessionalPayloadOf(page.form))]
    ensures r.Ok? && !Editing(page.form.editingId) ==>
      && |r.value| >= 1 && r.value[0] == PostProfessional(ProfessionalPayloadOf(page.form))
      && r.value[1..] == BatchPosts(page.batchDays, createdId, page.batchStart, page.batchEnd)
  {
    if page.form.name == "" then Err(NameRequiredMessage)
    else if Editing(page.form.editingId) then
      Ok([PatchProfessional(page.form.editingId.value, ProfessionalPayloadOf(page.form))])
    else
      Ok([PostProfessional(ProfessionalPayloadOf(page.form))]
         + BatchPosts(page.batchDays, createdId, page.batchStart, page.batchEnd))
  }

  /** Weekdays without repeats number at most seven. */
  lemma {:induction false} DistinctWeekdays(days: seq<int>, n: nat)
    requires NoDuplicates(days)
    requires forall d :: d in days ==> 0 <= d < n
    ensures |days| <= n
    decreases n
  {
    if n == 0 {
      HeadIsMember(days);
    } else {
      var top := n - 1;
      RemoveDistinct(days, top);
      forall d | d in Remove(days, top)
        ensures 0 <= d < top
      {
        assert d in days;
      }
      DistinctWeekdays(Remove(days, top), top);
    }
  }

  /** Creating a professional with a batch built from the check boxes
      sends the record and one opening hour per ticked weekday: at most
      eight requests, every opening hour on a different weekday. */
  lemma NewProfessionalRequests(page: Page, id: int)
    requires ValidBatch(page.batchDays)
    requires page.form.name != "" && !Editing(page.form.editingId) && id != 0
    ensures |SaveProfessional(page, Some(id)).value| == 1 + |page.batchDays| <= 8
    ensures forall i, j :: 1 <= i < j < |SaveProfessional(page, Some(id)).value| ==>
      SaveProfessional(page, Some(id)).value[i].availability.weekday
        != SaveProfessional(page, Some(id)).value[j].availability.weekday
  {
    forall d | d in page.batchDays
      ensures 0 <= d < 7
    {
      assert page.batchDays[IndexOf(page.batchDays, d)] == d;
    }
    DistinctWeekdays(page.batchDays, 7);
  }

  /** The toast after a successful save names the kind of save the click
      started with. */
  function SavedMessage(f: ProfessionalForm): (m: string)
    ensures m == UpdatedMessage <==> Editing(f.editingId)
    ensures m == CreatedMessage <==> !Editing(f.editingId)
  {
    if Editing(f.editingId) then UpdatedMessage else CreatedMessage
  }

  /** After a successful save the form is cleared and no day is ticked;
      the batch hours stay as they were. */
  function AfterSave(page: Page): (r: Page)
    ensures !Editing(r.form.editingId) && r.form.active && r.batchDays == []
    ensures r.form.name == "" && r.form.email == "" && r.form.phone == ""
    ensures r.form.specialty == "" && r.form.notes == ""
    ensures r.batchStart == page.batchStart && r.batchEnd == page.batchEnd
    ensures SaveProfessional(r, None).Err?
  {
    Page(ProfessionalForm(None, "", "", "", "", "", true), [], page.batchStart, page.batchEnd)
  }

  /** A stored professional. */
  datatype Professional = Professional(
    id: int, name: string, email: Option<string>, phone: Option<string>,
    specialty: Option<string>, notes: Option<string>, active: Option<bool>)

  /** `handleEdit`: missing text as `""`, a missing active flag as true. */
  function EditProfessional(p: Professional): (f: ProfessionalForm)
    ensures f.editingId == Some(p.id) && f.name == p.name
    ensures f.email == p.email.GetOr("") && f.phone == p.phone.GetOr("")
    ensures f.specialty == p.specialty.GetOr("") && f.notes == p.notes.GetOr("")
    ensures f.active == p.active.GetOr(true)
  {
    ProfessionalForm(Some(p.id), p.name, p.email.GetOr(""), p.phone.GetOr(""),
      p.specialty.GetOr(""), p.notes.GetOr(""), p.active.GetOr(true))
  }

  /** A stored optional text as it comes back from the form: an empty
      text turns into `null`. */
  function NullIfEmpty(t: Option<string>): Option<string> {
    if t == Some("") then None else t
  }

  /** Opening a stored professional and saving it unchanged sends one
      update with the same fields, except that empty texts become `null`
      and a missing active flag becomes true; the batch is ignored. */
  lemma EditThenSaveKeepsProfessional(p: Professional, batchDays: seq<int>, start: string, end: string, createdId: Option<int>)
    requires p.id != 0 && p.name != ""
    ensures SaveProfessional(Page(EditProfessional(p), batchDays, start, end), createdId)
      == Ok([PatchProfessional(p.id, ProfessionalPayload(p.name, NullIfEmpty(p.email), NullIfEmpty(p.phone),
                                     NullIfEmpty(p.specialty), NullIfEmpty(p.notes), p.active.GetOr(true)))])
  {
  }

  /** The stand-alone availability form; the weekday box starts at `"1"`. */
  datatype AvailabilityForm = AvailabilityForm(professionalId: string, weekday: string, start: string, end: string)

  const AvailabilityFieldsMessage: string := "Informe profissional, inicio e fim."

  /** `handleCreateAvailability`: professional, start and end must be
      non-empty; ids and weekday go through `Number`. Start and end are not
      compared. */
  function CreateAvailability(f: AvailabilityForm): (r: Result<AvailabilityPost, string>)
    ensures r.Err? <==> f.professionalId == "" || f.start == "" || f.end == ""
    ensures r.Err? ==> r.error == AvailabilityFieldsMessage
    ensures r.Ok? ==> r.value.professionalId == ToNumber(f.professionalId) && r.value.weekday == ToNumber(f.weekday)
    ensures r.Ok? ==> r.value.start == f.start && r.value.end == f.end
  {
    if f.professionalId == "" || f.start == "" || f.end == "" then Err(AvailabilityFieldsMessage)
    else Ok(AvailabilityPost(ToNumber(f.professionalId), ToNumber(f.weekday), f.start, f.end))
  }

  /** A selected professional's id reaches the server unchanged. */
  lemma CreateAvailabilityKeepsId(id: int, weekday: int, start: string, end: string)
    requires start != "" && end != ""
    ensures CreateAvailability(AvailabilityForm(IntToString(id), IntToString(weekday), start, end))
      == Ok(AvailabilityPost(Finite(id), Finite(weekday), start, end))
  {
    ToNumberOfIntToString(id);
    ToNumberOfIntToString(weekday);
  }

  /** The form lets through an opening hour that ends before it starts. */
  lemma InvertedHoursAccepted()
    ensures CreateAvailability(AvailabilityForm("1", "1", "18:00", "08:00")).Ok?
  {
  }

  /** A stored opening hour. */
  datatype Availability = Availability(id: int, professionalId: int, weekday: int, start: string, end: string)

  /** After a delete the local list drops exactly the opening hours with
      that id, keeping the order of the rest. */
  function DropAvailability(list: seq<Availability>, id: int): (r: seq<Availability>)
    ensures forall a :: a in r <==> a in list && a.id != id
    ensures |r| <= |list|
    ensures Subsequence(r, list)
  {
    FilterInOrder(list, (a: Availability) => a.id != id);
    Filter(list, (a: Availability) => a.id != id)
  }

  /** Deleting the same id again changes nothing locally. */
  lemma DropAvailabilityTwice(list: seq<Availability>, id: int)
    ensures DropAvailability(DropAvailability(list, id), id) == DropAvailability(list, id)
  {
    FilterAll(DropAvailability(list, id), (a: Availability) => a.id != id);
  }

  /** After a delete the local list drops exactly the professionals with
      that id. */
  function DropProfessional(list: seq<Professional>, id: int): (r: seq<Professional>)
    ensures forall p :: p in r <==> p in list && p.id != id
    ensures |r| <= |list|
  {
    Filter(list, (p: Professional) => p.id != id)
  }

  /** Deleting the same id again changes nothing locally. */
  lemma DropProfessionalTwice(list: seq<Professional>, id: int)
    ensures DropProfessional(DropProfessional(list, id), id) == DropProfessional(list, id)
  {
    FilterAll(DropProfessional(list, id), (p: Professional) => p.id != id);
  }
}
