/** The agenda page: its day view of slots for the chosen professional
    and service, and its booking form. */
module Agenda {
  import opened Values
  import opened Lists
  import opened Text
  import opened Clock
  import opened Slots
  import opened Booking

  /** `services.find((item) => String(item.id) === String(serviceId))`. */
  function AgendaService(services: seq<Service>, serviceId: string): (r: Option<Service>)
    ensures r.Some? ==> r.value in services && IntToString(r.value.id) == serviceId
    ensures r.None? <==> forall i :: 0 <= i < |services| ==> IntToString(services[i].id) != serviceId
  {
    if |services| == 0 then None
    else if IntToString(services[0].id) == serviceId then Some(services[0])
    else
      var r := AgendaService(services[1..], serviceId);
      assert forall i :: 1 <= i < |services| ==> services[i] == services[1..][i - 1];
      r
  }

  /** Matching the printed id finds the same service as matching the id. */
  lemma {:induction false} AgendaServiceById(services: seq<Service>, n: int)
    ensures AgendaService(services, IntToString(n)) == FindService(services, n)
    decreases |services|
  {
    if |services| > 0 {
      if IntToString(services[0].id) == IntToString(n) {
        IntToStringInjective(services[0].id, n);
      } else {
        AgendaServiceById(services[1..], n);
      }
    }
  }

  /** The agenda's service rule: `service ? overlapping.some(...) : false`. */
  function AgendaRule(service: Option<Service>): MixRule {
    if service.Some? then AgainstService(Some(service.value.id)) else IgnoreServices
  }

  function AgendaRequest(n: int, professionalId: string, day: int, service: Option<Service>): Request {
    Request(n, professionalId, day, SlotMinutes(service), CapacityOf(service), AgendaRule(service))
  }

  /** What the agenda promises about one slot of the day `day` for the
      professional numbered `n` and written `key`: its occupants are that
      professional's overlapping appointments of the day, each once per
      listing and in input order, and their number is what the capacity
      is compared with. */
  ghost predicate AgendaSlotSpec(s: Slot, n: int, key: string, day: int, service: Option<Service>,
                                 windows: seq<Window>, appts: seq<Appointment>) {
    && s.end == s.start + SlotMinutes(service)
    && (exists w :: w in windows && w.professionalId == n && w.weekday == WeekdayOf(day)
          && OnGrid(s, w, day, SlotMinutes(service)))
    && (forall a :: a in s.occupants <==>
          && a in appts && a.start.Some? && DayOf(a.start.value) == day
          && a.professionalId.Some? && IntToString(a.professionalId.value) == key
          && Overlaps(a, s.start, s.end, SlotMinutes(service)))
    && s.occupants == Filter(appts, OccupantTest(AgendaRequest(n, key, day, service), s.start))
    && (s.available <==>
          && |s.occupants| < CapacityOf(service)
          && (service.Some? ==> forall a :: a in s.occupants ==>
                !(a.serviceId.Some? && a.serviceId.value != 0 && a.serviceId.value != service.value.id)))
  }

  lemma AgendaDaySlotsSound(n: int, key: string, day: int, service: Option<Service>,
                            windows: seq<Window>, appts: seq<Appointment>)
    requires SlotMinutes(service) > 0
    ensures forall s :: s in DaySlots(AgendaRequest(n, key, day, service), windows, appts) ==>
      AgendaSlotSpec(s, n, key, day, service, windows, appts)
  {
    var q := AgendaRequest(n, key, day, service);
    DaySlotsSound(q, windows, appts);
    forall s | s in DaySlots(q, windows, appts)
      ensures AgendaSlotSpec(s, n, key, day, service, windows, appts)
    {
      AgendaSlotMeetsSpec(s, n, key, day, service, windows, appts);
    }
  }

  /** A slot that meets the generic description for the agenda's request
      meets the agenda's own. */
  lemma AgendaSlotMeetsSpec(s: Slot, n: int, key: string, day: int, service: Option<Service>,
                            windows: seq<Window>, appts: seq<Appointment>)
    requires SlotMinutes(service) > 0
    requires s.end == s.start + SlotMinutes(service)
    requires exists w :: (w in windows && ForDay(w, AgendaRequest(n, key, day, service))
                           && OnGrid(s, w, day, SlotMinutes(service)))
    requires forall a :: a in s.occupants <==>
      (a in appts && SameDay(a, AgendaRequest(n, key, day, service)) && Overlaps(a, s.start, s.end, SlotMinutes(service)))
    requires s.occupants == Filter(appts, OccupantTest(AgendaRequest(n, key, day, service), s.start))
    requires s.available <==>
      (|s.occupants| < CapacityOf(service) && forall a :: a in s.occupants ==> !Conflicts(a, AgendaRule(service)))
    ensures AgendaSlotSpec(s, n, key, day, service, windows, appts)
  {
    var w :| w in windows && ForDay(w, AgendaRequest(n, key, day, service))
      && OnGrid(s, w, day, SlotMinutes(service));
    assert w.professionalId == n && w.weekday == WeekdayOf(day);
    assert forall a :: Conflicts(a, AgendaRule(service)) <==>
      service.Some? && a.serviceId.Some? && a.serviceId.value != 0 && a.serviceId.value != service.value.id;
  }

  /** The `slots` memo for the professional chosen as `professionalId`,
      the day `date` (none when no date is chosen) and the service the
      page resolved (`AgendaService`). A text that is not a number matches
      no availability record, since `NaN` equals nothing. */
  function AgendaSlots(professionalId: string, date: Option<int>, service: Option<Service>,
                       windows: seq<Window>, appts: seq<Appointment>): (r: seq<Slot>)
    requires professionalId != "" && date.Some? ==> SlotMinutes(service) > 0
    ensures professionalId == "" || date.None? || ToNumber(professionalId).Other? ==> r == []
    ensures forall s :: s in r ==>
      && professionalId != "" && date.Some? && ToNumber(professionalId).Finite?
      && AgendaSlotSpec(s, ToNumber(professionalId).n, professionalId, date.value, service, windows, appts)
  {
    if professionalId == "" || date.None? then []
    else
      match ToNumber(professionalId)
      case Other => []
      case Finite(n) =>
        AgendaDaySlotsSound(n, professionalId, date.value, service, windows, appts);
        DaySlots(AgendaRequest(n, professionalId, date.value, service), windows, appts)
  }

  /** The `slots` memo with the guard the loop needs: no slots when the
      chosen service's length is zero or less (a service saved with
      duration `0` keeps that length, since `?? 60` only replaces a
      missing one). Defined for every input. */
  function GuardedAgendaSlots(professionalId: string, date: Option<int>, service: Option<Service>,
                              windows: seq<Window>, appts: seq<Appointment>): (r: seq<Slot>)
    ensures SlotMinutes(service) <= 0 ==> r == []
    ensures professionalId == "" || date.None? || ToNumber(professionalId).Other? ==> r == []
    ensures forall s :: s in r ==>
      && SlotMinutes(service) > 0 && professionalId != "" && date.Some? && ToNumber(professionalId).Finite?
      && AgendaSlotSpec(s, ToNumber(professionalId).n, professionalId, date.value, service, windows, appts)
  {
    if SlotMinutes(service) <= 0 then [] else AgendaSlots(professionalId, date, service, windows, appts)
  }

  /** The agenda lists, per matching window `[s, e)`, `floor((e - s) / D)`
      slots. */
  lemma AgendaSlotCount(professionalId: string, date: Option<int>, service: Option<Service>,
                        windows: seq<Window>, appts: seq<Appointment>)
    requires professionalId != "" && date.Some? && ToNumber(professionalId).Finite?
    requires SlotMinutes(service) > 0
    ensures |AgendaSlots(professionalId, date, service, windows, appts)|
      == SlotTotal(Filter(windows, w => ForDay(w, AgendaRequest(ToNumber(professionalId).n, professionalId, date.value, service))),
                   AgendaRequest(ToNumber(professionalId).n, professionalId, date.value, service))
  {
    var q := AgendaRequest(ToNumber(professionalId).n, professionalId, date.value, service);
    DaySlotsCount(q, windows, appts);
  }

  /** With no service chosen the duration is 60 minutes and the capacity
      one, so any overlapping appointment fills the slot. */
  lemma AgendaDefaults(professionalId: string, date: Option<int>, windows: seq<Window>, appts: seq<Appointment>)
    ensures forall s :: s in AgendaSlots(professionalId, date, None, windows, appts) ==>
      s.end - s.start == 60 && (s.available <==> s.occupants == [])
  {
  }

  /** The form state `handleCreate` reads. */
  datatype AgendaForm = AgendaForm(
    patientId: string,
    professionalId: string,
    serviceId: string,
    selectedServiceIds: seq<int>,
    plan: Plan,
    totalSessions: string,
    daysOfWeek: seq<int>,
    dayOfMonth: string)

  /** `overrideStart ?? slotModalStart ?? ""`: the slot clicked, else the
      slot held by the booking dialog. */
  function StartValue(overrideStart: Option<string>, modalStart: Option<string>): (r: string)
    ensures overrideStart.Some? ==> r == overrideStart.value
    ensures overrideStart.None? && modalStart.Some? ==> r == modalStart.value
    ensures overrideStart.None? && modalStart.None? ==> r == ""
  {
    if overrideStart.Some? then overrideStart.value else modalStart.GetOr("")
  }

  /** `handleCreate` on the agenda page: the request sent, or the message
      shown instead of sending anything. */
  function CreateFromAgenda(f: AgendaForm, start: string): (r: Result<BookingPost, string>)
    ensures Incomplete(f.patientId, f.professionalId, ServiceIds(f.selectedServiceIds, f.serviceId), start)
      ==> r == Err(FillFieldsMessage)
    ensures (!Incomplete(f.patientId, f.professionalId, ServiceIds(f.selectedServiceIds, f.serviceId), start)
      && MissingDays(f.plan, f.daysOfWeek)) ==> r == Err(PickDayMessage)
    ensures r.Ok? <==>
      !Incomplete(f.patientId, f.professionalId, ServiceIds(f.selectedServiceIds, f.serviceId), start)
      && !MissingDays(f.plan, f.daysOfWeek)
    ensures r.Ok? ==> r.value.target == TargetOf(f.patientId, f.professionalId, f.selectedServiceIds, f.serviceId, start)
    ensures r.Ok? ==> (r.value.PostAppointment? <==> f.plan.Single?)
    ensures r.Ok? && r.value.PostAppointment? ==> r.value.payment.None?
    ensures r.Ok? && r.value.PostSeries? ==>
      r.value.series == SeriesOf(f.plan, f.totalSessions, f.daysOfWeek, f.dayOfMonth)
  {
    var ids := ServiceIds(f.selectedServiceIds, f.serviceId);
    if Incomplete(f.patientId, f.professionalId, ids, start) then Err(FillFieldsMessage)
    else
      var target := TargetOf(f.patientId, f.professionalId, f.selectedServiceIds, f.serviceId, start);
      if f.plan.Single? then Ok(PostAppointment(target, None))
      else if MissingDays(f.plan, f.daysOfWeek) then Err(PickDayMessage)
      else Ok(PostSeries(target, SeriesOf(f.plan, f.totalSessions, f.daysOfWeek, f.dayOfMonth)))
  }

  /** Every request sent names, as its primary service, the first of the
      services it lists. */
  lemma CreatedPrimaryIsFirst(f: AgendaForm, start: string)
    requires CreateFromAgenda(f, start).Ok?
    ensures var t := CreateFromAgenda(f, start).value.target;
      t.serviceIds != [] && t.serviceId == Some(Finite(t.serviceIds[0]))
  {
    PrimaryIsFirst(f.selectedServiceIds, f.serviceId);
  }
}
