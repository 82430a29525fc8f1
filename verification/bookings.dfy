/** The bookings page (`agendamentos`): the free hours offered for the
    chosen professional, day and service, and the booking form with its
    payment terms. */
module Bookings {
  import opened Values
  import opened Lists
  import opened Text
  import opened Clock
  import opened Slots
  import opened Booking
  import Agenda

  /** `selectedServiceIdsSafe[0]`: the first selected id, else the
      single-service choice read as a number (`NaN` matches no id). */
  function PrimaryKey(selected: seq<int>, serviceId: string): (r: Option<int>)
    ensures |selected| > 0 ==> r == Some(selected[0])
    ensures |selected| == 0 && (serviceId == "" || ToNumber(serviceId).Other?) ==> r.None?
    ensures |selected| == 0 && serviceId != "" && ToNumber(serviceId).Finite? ==> r == Some(ToNumber(serviceId).n)
  {
    if |selected| > 0 then Some(selected[0])
    else if serviceId != "" && ToNumber(serviceId).Finite? then Some(ToNumber(serviceId).n)
    else None
  }

  /** `primaryService`: the service whose id is the primary key. */
  function PrimaryService(services: seq<Service>, selected: seq<int>, serviceId: string): (r: Option<Service>)
    ensures r.Some? ==> r.value in services && Some(r.value.id) == PrimaryKey(selected, serviceId)
    ensures PrimaryKey(selected, serviceId).None? ==> r.None?
    ensures PrimaryKey(selected, serviceId).Some? ==> r == FindService(services, PrimaryKey(selected, serviceId).value)
  {
    match PrimaryKey(selected, serviceId)
    case None => None
    case Some(k) => FindService(services, k)
  }

  /** The bookings page's service rule: an occupant blocks when it carries
      a truthy service id other than the primary service's id, and when
      there is no primary service every such occupant blocks. */
  function BookingsRule(service: Option<Service>): MixRule {
    AgainstService(if service.Some? then Some(service.value.id) else None)
  }

  function BookingsRequest(n: int, professionalId: string, day: int, service: Option<Service>): Request {
    Request(n, professionalId, day, SlotMinutes(service), CapacityOf(service), BookingsRule(service))
  }

  /** The start the loop pushes for the slot at `cursor` (the page pushes
      its `HH:MM` label, `Labels` below): the time of day when no
      overlapping appointment is of another service and fewer than
      `capacity` overlap, nothing otherwise. */
  function FreeClockAt(cursor: int, q: Request, dayAppts: seq<Appointment>): (r: seq<int>)
    requires q.duration > 0
    ensures forall k :: 0 <= k < |r| ==> 0 <= r[k] < MinutesPerDay
  {
    var overlapping := Occupying(dayAppts, cursor, q.duration);
    var mixed := exists a :: a in overlapping && Conflicts(a, q.rule);
    if !mixed && |overlapping| < q.capacity then [MinuteOfDay(cursor)] else []
  }

  /** The pushes at the cursor positions `ts`, in order. */
  function FreeClocksAt(ts: seq<int>, q: Request, dayAppts: seq<Appointment>): (r: seq<int>)
    requires q.duration > 0
    ensures forall k :: 0 <= k < |r| ==> 0 <= r[k] < MinutesPerDay
  {
    if |ts| == 0 then [] else FreeClockAt(ts[0], q, dayAppts) + FreeClocksAt(ts[1..], q, dayAppts)
  }

  /** What one window `[start, end)` contributes: the loop's cursor visits
      `start, start + d, ...` while a whole slot is left, which is `Starts`. */
  function FreeClocksOfWindow(start: int, end: int, q: Request, dayAppts: seq<Appointment>): (r: seq<int>)
    requires q.duration > 0
    ensures forall k :: 0 <= k < |r| ==> 0 <= r[k] < MinutesPerDay
  {
    FreeClocksAt(Starts(start, end, q.duration), q, dayAppts)
  }

  /** What the day's windows contribute, window after window. */
  function FreeClocks(ws: seq<Window>, q: Request, dayAppts: seq<Appointment>): (r: seq<int>)
    requires q.duration > 0
    ensures forall k :: 0 <= k < |r| ==> 0 <= r[k] < MinutesPerDay
  {
    if |ws| == 0 then []
    else
      var base := DayStart(q.day);
      FreeClocksOfWindow(base + ws[0].start, base + ws[0].end, q, dayAppts) + FreeClocks(ws[1..], q, dayAppts)
  }

  /** The loop's test at one cursor is the slot engine's availability. */
  lemma FreeClockAtIsSlot(t: int, q: Request, dayAppts: seq<Appointment>)
    requires q.duration > 0
    ensures FreeClockAt(t, q, dayAppts) == if MakeSlot(t, q, dayAppts).available then [MinuteOfDay(t)] else []
  {
  }

  /** The pushes at any cursor positions are the open times of the slots
      built there, in the same order. */
  lemma {:induction false} FreeClocksAtAreSlots(ts: seq<int>, q: Request, dayAppts: seq<Appointment>)
    requires q.duration > 0
    ensures FreeClocksAt(ts, q, dayAppts) == OpenClocks(SlotsAt(ts, q, dayAppts))
    decreases |ts|
  {
    if |ts| > 0 {
      SlotsAtTail(ts, q, dayAppts);
      FreeClockAtIsSlot(ts[0], q, dayAppts);
      FreeClocksAtAreSlots(ts[1..], q, dayAppts);
    }
  }

  lemma FreeClocksStep(ws: seq<Window>, q: Request, dayAppts: seq<Appointment>)
    requires q.duration > 0 && |ws| > 0
    ensures FreeClocks(ws, q, dayAppts)
      == FreeClocksOfWindow(DayStart(q.day) + ws[0].start, DayStart(q.day) + ws[0].end, q, dayAppts)
         + FreeClocks(ws[1..], q, dayAppts)
  {
  }

  lemma WindowsSlotsStep(ws: seq<Window>, q: Request, dayAppts: seq<Appointment>)
    requires q.duration > 0 && |ws| > 0
    ensures WindowsSlots(ws, q, dayAppts) == WindowSlots(ws[0], q, dayAppts) + WindowsSlots(ws[1..], q, dayAppts)
  {
  }

  lemma FreeClocksOfWindowIsOpen(w: Window, q: Request, dayAppts: seq<Appointment>)
    requires q.duration > 0
    ensures FreeClocksOfWindow(DayStart(q.day) + w.start, DayStart(q.day) + w.end, q, dayAppts)
      == OpenClocks(WindowSlots(w, q, dayAppts))
  {
    var base := DayStart(q.day);
    WindowSlotsAreSlotsAt(w, q, dayAppts);
    FreeClocksAtAreSlots(Starts(base + w.start, base + w.end, q.duration), q, dayAppts);
  }

  lemma {:induction false} FreeClocksAreOpen(ws: seq<Window>, q: Request, dayAppts: seq<Appointment>)
    requires q.duration > 0
    ensures FreeClocks(ws, q, dayAppts) == OpenClocks(WindowsSlots(ws, q, dayAppts))
    decreases |ws|
  {
    if |ws| > 0 {
      FreeClocksAreOpen(ws[1..], q, dayAppts);
      FreeClocksOpenStep(ws, q, dayAppts);
    }
  }

  lemma FreeClocksOpenStep(ws: seq<Window>, q: Request, dayAppts: seq<Appointment>)
    requires q.duration > 0 && |ws| > 0
    requires FreeClocks(ws[1..], q, dayAppts) == OpenClocks(WindowsSlots(ws[1..], q, dayAppts))
    ensures FreeClocks(ws, q, dayAppts) == OpenClocks(WindowsSlots(ws, q, dayAppts))
  {
    FreeClocksHead(ws, q, dayAppts);
    WindowsSlotsStep(ws, q, dayAppts);
    OpenClocksConcat(WindowSlots(ws[0], q, dayAppts), WindowsSlots(ws[1..], q, dayAppts));
  }

  lemma FreeClocksHead(ws: seq<Window>, q: Request, dayAppts: seq<Appointment>)
    requires q.duration > 0 && |ws| > 0
    ensures FreeClocks(ws, q, dayAppts) == OpenClocks(WindowSlots(ws[0], q, dayAppts)) + FreeClocks(ws[1..], q, dayAppts)
  {
    var here := FreeClocksOfWindow(DayStart(q.day) + ws[0].start, DayStart(q.day) + ws[0].end, q, dayAppts);
    FreeClocksStep(ws, q, dayAppts);
    FreeClocksOfWindowIsOpen(ws[0], q, dayAppts);
    ReplaceHead(FreeClocks(ws, q, dayAppts), here, OpenClocks(WindowSlots(ws[0], q, dayAppts)), FreeClocks(ws[1..], q, dayAppts));
  }

  lemma ReplaceHead(whole: seq<int>, head: seq<int>, same: seq<int>, tail: seq<int>)
    requires whole == head + tail && head == same
    ensures whole == same + tail
  {
  }

  /** The bookings page's pushes over all the day's windows are the start
      times of the shared engine's available slots, in the same order. */
  lemma FreeClocksAreSlots(ws: seq<Window>, q: Request, dayAppts: seq<Appointment>)
    requires q.duration > 0
    ensures FreeClocks(ws, q, dayAppts) == Clocks(AvailableSlots(WindowsSlots(ws, q, dayAppts)))
  {
    FreeClocksAreOpen(ws, q, dayAppts);
    OpenClocksAreClocks(WindowsSlots(ws, q, dayAppts));
  }

  /** The `availableHours` memo for the professional chosen as
      `professionalId`, the day `date` and the primary service `service`
      (`PrimaryService`): each free `HH:MM` once, in the order first met. */
  function AvailableHours(professionalId: string, date: Option<int>, service: Option<Service>,
                          windows: seq<Window>, appts: seq<Appointment>): (r: seq<string>)
    requires professionalId != "" && date.Some? ==> SlotMinutes(service) > 0
    ensures professionalId == "" || date.None? || ToNumber(professionalId).Other? ==> r == []
    ensures NoDuplicates(r)
  {
    if professionalId == "" || date.None? then []
    else
      match ToNumber(professionalId)
      case Other => []
      case Finite(n) => Dedup(DayHours(BookingsRequest(n, professionalId, date.value, service), windows, appts))
  }

  /** An hour is offered exactly when the professional and the day are
      chosen, the professional's text reads as a number, and some
      available slot of that day carries the hour's label. */
  lemma AvailableHoursOffers(professionalId: string, date: Option<int>, service: Option<Service>,
                             windows: seq<Window>, appts: seq<Appointment>)
    requires professionalId != "" && date.Some? ==> SlotMinutes(service) > 0
    ensures forall h :: h in AvailableHours(professionalId, date, service, windows, appts) <==>
      && professionalId != "" && date.Some? && ToNumber(professionalId).Finite?
      && exists s :: s in DaySlots(BookingsRequest(ToNumber(professionalId).n, professionalId, date.value, service), windows, appts)
           && s.available && s.Time() == h
  {
    if professionalId != "" && date.Some? && ToNumber(professionalId).Finite? {
      var q := BookingsRequest(ToNumber(professionalId).n, professionalId, date.value, service);
      var r := AvailableHours(professionalId, date, service, windows, appts);
      assert r == Dedup(DayHours(q, windows, appts));
      DayHoursAreTimes(q, windows, appts);
      TimesOfAvailable(DaySlots(q, windows, appts));
      assert forall h :: h in r <==> h in Times(AvailableSlots(DaySlots(q, windows, appts)));
    }
  }

  /** The `availableHours` memo with the guard its loop needs: no hours
      when the primary service's length is zero or less. Defined for every
      input. */
  function GuardedAvailableHours(professionalId: string, date: Option<int>, service: Option<Service>,
                                 windows: seq<Window>, appts: seq<Appointment>): (r: seq<string>)
    ensures SlotMinutes(service) <= 0 ==> r == []
    ensures NoDuplicates(r)
    ensures forall h :: h in r <==>
      && SlotMinutes(service) > 0 && professionalId != "" && date.Some? && ToNumber(professionalId).Finite?
      && exists s :: s in DaySlots(BookingsRequest(ToNumber(professionalId).n, professionalId, date.value, service), windows, appts)
           && s.available && s.Time() == h
  {
    if SlotMinutes(service) <= 0 then []
    else
      AvailableHoursOffers(professionalId, date, service, windows, appts);
      AvailableHours(professionalId, date, service, windows, appts)
  }

  /** The labels the loop pushes over the day `q` asks for, repeats
      included. */
  function DayHours(q: Request, windows: seq<Window>, appts: seq<Appointment>): seq<string>
    requires q.duration > 0
  {
    Labels(FreeClocks(Filter(windows, w => ForDay(w, q)), q, Filter(appts, a => SameDay(a, q))))
  }

  /** They are the labels of the day's available slots, in slot order. */
  lemma DayHoursAreTimes(q: Request, windows: seq<Window>, appts: seq<Appointment>)
    requires q.duration > 0
    ensures DayHours(q, windows, appts) == Times(AvailableSlots(DaySlots(q, windows, appts)))
  {
    FreeClocksAreSlots(Filter(windows, w => ForDay(w, q)), q, Filter(appts, a => SameDay(a, q)));
    LabelsOfClocks(AvailableSlots(DaySlots(q, windows, appts)));
  }

  /** When both pages resolve the same service, the bookings page offers
      exactly the labels of the agenda's available slots, each once, in
      the order first met. Where the mixed-service clauses differ (no
      service resolved) the default capacity of one makes the difference
      unobservable. */
  lemma HoursAreAgendaTimes(professionalId: string, date: Option<int>, service: Option<Service>,
                            windows: seq<Window>, appts: seq<Appointment>)
    requires professionalId != "" && date.Some? ==> SlotMinutes(service) > 0
    ensures AvailableHours(professionalId, date, service, windows, appts)
      == Dedup(Times(AvailableSlots(Agenda.AgendaSlots(professionalId, date, service, windows, appts))))
  {
    if professionalId != "" && date.Some? && ToNumber(professionalId).Finite? {
      HoursAreAgendaTimesOn(professionalId, date.value, service, windows, appts, ToNumber(professionalId).n);
    }
  }

  lemma HoursAreAgendaTimesOn(professionalId: string, day: int, service: Option<Service>,
                              windows: seq<Window>, appts: seq<Appointment>, n: int)
    requires professionalId != "" && ToNumber(professionalId) == Finite(n) && SlotMinutes(service) > 0
    ensures AvailableHours(professionalId, Some(day), service, windows, appts)
      == Dedup(Times(AvailableSlots(Agenda.AgendaSlots(professionalId, Some(day), service, windows, appts))))
  {
    AvailableHoursOn(professionalId, day, service, windows, appts, n);
    AgendaSlotsOn(professionalId, day, service, windows, appts, n);
    BothPagesSameSlots(n, professionalId, day, service, windows, appts);
    DayHoursAreTimes(BookingsRequest(n, professionalId, day, service), windows, appts);
  }

  lemma AvailableHoursOn(professionalId: string, day: int, service: Option<Service>,
                         windows: seq<Window>, appts: seq<Appointment>, n: int)
    requires professionalId != "" && ToNumber(professionalId) == Finite(n) && SlotMinutes(service) > 0
    ensures AvailableHours(professionalId, Some(day), service, windows, appts)
      == Dedup(DayHours(BookingsRequest(n, professionalId, day, service), windows, appts))
  {
  }

  lemma AgendaSlotsOn(professionalId: string, day: int, service: Option<Service>,
                      windows: seq<Window>, appts: seq<Appointment>, n: int)
    requires professionalId != "" && ToNumber(professionalId) == Finite(n) && SlotMinutes(service) > 0
    ensures Agenda.AgendaSlots(professionalId, Some(day), service, windows, appts)
      == DaySlots(Agenda.AgendaRequest(n, professionalId, day, service), windows, appts)
  {
  }

  /** Both pages cut the same slots for the same professional, day and
      service. */
  lemma BothPagesSameSlots(n: int, key: string, day: int, service: Option<Service>,
                           windows: seq<Window>, appts: seq<Appointment>)
    requires SlotMinutes(service) > 0
    ensures DaySlots(BookingsRequest(n, key, day, service), windows, appts)
      == DaySlots(Agenda.AgendaRequest(n, key, day, service), windows, appts)
  {
    if service.None? {
      RuleIrrelevantAtCapacityOne(BookingsRequest(n, key, day, service), Agenda.AgendaRequest(n, key, day, service),
                                  windows, appts);
    }
  }

  // ---------------------------------------------------------------------
  // The `availableHours` memo across renders.
  // ---------------------------------------------------------------------

  /** What one render of the bookings page feeds the hour list. */
  datatype HoursInputs = HoursInputs(
    professionalId: string,
    date: Option<int>,
    service: Option<Service>,
    windows: seq<Window>,
    appts: seq<Appointment>)

  predicate Computable(i: HoursInputs) {
    i.professionalId != "" && i.date.Some? ==> SlotMinutes(i.service) > 0
  }

  function HoursNow(i: HoursInputs): seq<string>
    requires Computable(i)
  {
    AvailableHours(i.professionalId, i.date, i.service, i.windows, i.appts)
  }

  /** The dependency list as the page writes it:
      `[appointments, availabilities, capacity, professionalId, slotMinutes,
      startsDate]`. The two arrays are compared by value here; selecting a
      service keeps the same array objects, so React sees them unchanged. */
  datatype ListedDeps = ListedDeps(
    appts: seq<Appointment>,
    windows: seq<Window>,
    capacity: int,
    professionalId: string,
    slotMinutes: int,
    date: Option<int>)

  function DepsAsWritten(i: HoursInputs): ListedDeps {
    ListedDeps(i.appts, i.windows, CapacityOf(i.service), i.professionalId, SlotMinutes(i.service), i.date)
  }

  /** The listed dependencies plus `primaryService`, which the computation
      reads through its mixed-service test. */
  datatype FullDeps = FullDeps(listed: ListedDeps, service: Option<Service>)

  function DepsWithService(i: HoursInputs): (d: FullDeps)
    ensures InputsOf(d) == i
  {
    FullDeps(DepsAsWritten(i), i.service)
  }

  /** The inputs a full dependency list stands for. */
  function InputsOf(d: FullDeps): HoursInputs {
    HoursInputs(d.listed.professionalId, d.listed.date, d.service, d.listed.windows, d.listed.appts)
  }

  /** A memo cell: the dependencies of the last computation and its value. */
  datatype Memo<D> = Memo(deps: D, hours: seq<string>)

  /** `useMemo`: keep the previous value while every dependency is
      unchanged, otherwise take the fresh computation. */
  function Recall<D(==)>(prev: Option<Memo<D>>, deps: D, computed: seq<string>): (m: Memo<D>)
    ensures m.deps == deps
    ensures prev.Some? && prev.value.deps == deps ==> m == prev.value
    ensures prev.None? || prev.value.deps != deps ==> m.hours == computed
  {
    if prev.Some? && prev.value.deps == deps then prev.value else Memo(deps, computed)
  }

  /** One render with the dependency list as written. */
  function RenderAsWritten(prev: Option<Memo<ListedDeps>>, i: HoursInputs): Memo<ListedDeps>
    requires Computable(i)
  {
    Recall(prev, DepsAsWritten(i), HoursNow(i))
  }

  /** One render with the primary service among the dependencies. */
  function RenderWithService(prev: Option<Memo<FullDeps>>, i: HoursInputs): Memo<FullDeps>
    requires Computable(i)
  {
    Recall(prev, DepsWithService(i), HoursNow(i))
  }

  /** A memo cell holding the hour list of the inputs its dependencies
      stand for. */
  predicate Current(m: Memo<FullDeps>) {
    Computable(InputsOf(m.deps)) && m.hours == HoursNow(InputsOf(m.deps))
  }

  /** With the service among the dependencies, every render shows the hour
      list of its own inputs, and the cell stays current for the next one. */
  lemma RenderWithServiceIsFresh(prev: Option<Memo<FullDeps>>, i: HoursInputs)
    requires Computable(i)
    requires prev.Some? ==> Current(prev.value)
    ensures RenderWithService(prev, i).hours == HoursNow(i)
    ensures Current(RenderWithService(prev, i))
  {
    if prev.Some? && prev.value.deps == DepsWithService(i) {
      assert InputsOf(prev.value.deps) == i;
    }
  }

  /** A day whose only window holds exactly one slot and whose only
      appointment belongs to the professional and the day. */
  lemma SingleSlotDay(q: Request, w: Window, a: Appointment)
    requires q.duration > 0 && ForDay(w, q) && SameDay(a, q)
    requires w.start + q.duration <= w.end < w.start + 2 * q.duration
    ensures DaySlots(q, [w], [a]) == [MakeSlot(DayStart(q.day) + w.start, q, [a])]
  {
    var base := DayStart(q.day);
    FilterAll([w], x => ForDay(x, q));
    FilterAll([a], x => SameDay(x, q));
    StartsStep(base + w.start, base + w.end, q.duration);
    assert Starts(base + w.start + q.duration, base + w.end, q.duration) == [];
    assert WindowsSlots([w], q, [a]) == WindowSlots(w, q, [a]) + WindowsSlots([], q, [a]);
  }

  lemma SingleSlotDayHours(q: Request, w: Window, a: Appointment)
    requires q.duration > 0 && ForDay(w, q) && SameDay(a, q)
    requires w.start + q.duration <= w.end < w.start + 2 * q.duration
    ensures DayHours(q, [w], [a]) == Times(AvailableSlots([MakeSlot(DayStart(q.day) + w.start, q, [a])]))
  {
    SingleSlotDay(q, w, a);
    DayHoursOfSlots(q, [w], [a], [MakeSlot(DayStart(q.day) + w.start, q, [a])]);
  }

  lemma StartsStep(cursor: int, end: int, d: int)
    requires d > 0 && cursor + d <= end
    ensures Starts(cursor, end, d) == [cursor] + Starts(cursor + d, end, d)
  {
  }

  /** On a day with one slot, its label is offered exactly when that slot
      is available. */
  lemma OneSlotHours(i: HoursInputs, q: Request, w: Window, a: Appointment)
    requires Computable(i) && i.professionalId != "" && i.date.Some?
    requires ToNumber(i.professionalId).Finite?
    requires q == BookingsRequest(ToNumber(i.professionalId).n, i.professionalId, i.date.value, i.service)
    requires i.windows == [w] && i.appts == [a]
    requires q.duration > 0 && ForDay(w, q) && SameDay(a, q)
    requires w.start + q.duration <= w.end < w.start + 2 * q.duration
    ensures FormatHour(w.start) in HoursNow(i) <==> MakeSlot(DayStart(q.day) + w.start, q, [a]).available
  {
    HoursNowOfDay(i, q);
    OneSlotDayHours(q, w, a);
  }

  /** With a professional and a day chosen, the memo holds the day's hours
      without repeats. */
  lemma HoursNowOfDay(i: HoursInputs, q: Request)
    requires Computable(i) && i.professionalId != "" && i.date.Some?
    requires ToNumber(i.professionalId).Finite?
    requires q == BookingsRequest(ToNumber(i.professionalId).n, i.professionalId, i.date.value, i.service)
    ensures q.duration > 0 && HoursNow(i) == Dedup(DayHours(q, i.windows, i.appts))
  {
  }

  lemma OneSlotDayHours(q: Request, w: Window, a: Appointment)
    requires q.duration > 0 && ForDay(w, q) && SameDay(a, q)
    requires w.start + q.duration <= w.end < w.start + 2 * q.duration
    ensures DayHours(q, [w], [a])
      == if MakeSlot(DayStart(q.day) + w.start, q, [a]).available then [FormatHour(w.start)] else []
  {
    SlotTimeOnDay(MakeSlot(DayStart(q.day) + w.start, q, [a]), q.day, w.start);
    SingleSlotDayHours(q, w, a);
    TimesOfOne(MakeSlot(DayStart(q.day) + w.start, q, [a]), FormatHour(w.start));
  }

  lemma DayHoursOfSlots(q: Request, windows: seq<Window>, appts: seq<Appointment>, slots: seq<Slot>)
    requires q.duration > 0 && DaySlots(q, windows, appts) == slots
    ensures DayHours(q, windows, appts) == Times(AvailableSlots(slots))
  {
    DayHoursAreTimes(q, windows, appts);
  }

  /** A lone appointment of the target service with room to spare leaves
      its slot free. */
  lemma SameServiceRoom(t: int, q: Request, a: Appointment)
    requires q.duration > 0 && q.capacity >= 2 && q.rule == AgainstService(a.serviceId)
    ensures MakeSlot(t, q, [a]).available
  {
  }

  /** A lone appointment of another service blocks its slot. */
  lemma OtherServiceBlocks(t: int, q: Request, a: Appointment)
    requires q.duration > 0 && a.start == Some(t) && a.end == NoEnd
    requires a.serviceId.Some? && a.serviceId.value != 0
    requires q.rule.AgainstService? && q.rule.target != a.serviceId
    ensures !MakeSlot(t, q, [a]).available
  {
    assert a in [a] && Overlaps(a, t, t + q.duration, q.duration);
  }

  /** As written, a render whose listed dependencies equal the previous
      render's shows the previous render's hours, whatever else changed. */
  lemma ListedUnchangedKeepsHours(before: HoursInputs, after: HoursInputs)
    requires Computable(before) && Computable(after)
    requires DepsAsWritten(before) == DepsAsWritten(after)
    ensures RenderAsWritten(Some(RenderAsWritten(None, before)), after).hours == HoursNow(before)
  {
  }

  /** Two services of an hour each and capacity two; professional 7 works
      Thursdays 09:00-10:00 and already has an appointment of service 1 at
      09:00 on Thursday 1970-01-01 (day 0). Choosing service 1 and then
      service 2 leaves every listed dependency unchanged, so the memo keeps
      offering 09:00, which the hour list of service 2 does not contain. */
  lemma StaleHoursAsWritten(w: Window, a: Appointment, first: HoursInputs, second: HoursInputs)
    requires w == Window(1, 7, 4, 540, 600)
    requires a == Appointment(1, Some(540), NoEnd, Some(7), Some(1), "agendado")
    requires first == HoursInputs(IntToString(7), Some(0), Some(Service(1, Some(60), Some(2), None)), [w], [a])
    requires second == first.(service := Some(Service(2, Some(60), Some(2), None)))
    ensures Computable(first) && Computable(second)
    ensures DepsAsWritten(first) == DepsAsWritten(second)
    ensures FormatHour(540) in RenderAsWritten(Some(RenderAsWritten(None, first)), second).hours
    ensures FormatHour(540) !in HoursNow(second)
  {
    ToNumberOfIntToString(7);
    FirstOffers(first, BookingsRequest(7, first.professionalId, 0, first.service), w, a);
    SecondRefuses(second, BookingsRequest(7, second.professionalId, 0, second.service), w, a);
    ListedUnchangedKeepsHours(first, second);
  }

  lemma FirstOffers(i: HoursInputs, q: Request, w: Window, a: Appointment)
    requires w == Window(1, 7, 4, 540, 600)
    requires a == Appointment(1, Some(540), NoEnd, Some(7), Some(1), "agendado")
    requires i == HoursInputs(IntToString(7), Some(0), Some(Service(1, Some(60), Some(2), None)), [w], [a])
    requires ToNumber(i.professionalId) == Finite(7)
    requires q == BookingsRequest(7, i.professionalId, 0, i.service)
    ensures Computable(i) && FormatHour(540) in HoursNow(i)
  {
    ThursdayExample(i, q, w, a, 1);
    OneSlotHours(i, q, w, a);
    SameServiceRoom(540, q, a);
  }

  lemma SecondRefuses(i: HoursInputs, q: Request, w: Window, a: Appointment)
    requires w == Window(1, 7, 4, 540, 600)
    requires a == Appointment(1, Some(540), NoEnd, Some(7), Some(1), "agendado")
    requires i == HoursInputs(IntToString(7), Some(0), Some(Service(2, Some(60), Some(2), None)), [w], [a])
    requires ToNumber(i.professionalId) == Finite(7)
    requires q == BookingsRequest(7, i.professionalId, 0, i.service)
    ensures Computable(i) && FormatHour(540) !in HoursNow(i)
  {
    ThursdayExample(i, q, w, a, 2);
    OneSlotHours(i, q, w, a);
    OtherServiceBlocks(540, q, a);
  }

  /** The setting of the two examples above meets the conditions of
      `OneSlotHours`, whichever service is chosen. */
  lemma ThursdayExample(i: HoursInputs, q: Request, w: Window, a: Appointment, id: int)
    requires w == Window(1, 7, 4, 540, 600)
    requires a == Appointment(1, Some(540), NoEnd, Some(7), Some(1), "agendado")
    requires i == HoursInputs(IntToString(7), Some(0), Some(Service(id, Some(60), Some(2), None)), [w], [a])
    requires ToNumber(i.professionalId) == Finite(7)
    requires q == BookingsRequest(7, i.professionalId, 0, i.service)
    ensures Computable(i) && i.professionalId != "" && i.date.Some?
    ensures q == Request(7, IntToString(7), 0, 60, 2, AgainstService(Some(id)))
    ensures q.duration > 0 && ForDay(w, q) && SameDay(a, q)
    ensures w.start + q.duration <= w.end < w.start + 2 * q.duration
    ensures DayStart(q.day) + w.start == 540
  {
    assert DayOf(540) == 0;
  }

  // ---------------------------------------------------------------------
  // The booking form.
  // ---------------------------------------------------------------------

  /** The form state `handleCreate` reads on the bookings page. */
  datatype BookingsForm = BookingsForm(
    patientId: string,
    professionalId: string,
    serviceId: string,
    selectedServiceIds: seq<int>,
    plan: Plan,
    totalSessions: string,
    daysOfWeek: seq<int>,
    dayOfMonth: string,
    startsDate: string,
    startsHour: string,
    paymentMode: string,
    paymentDueDate: string)

  const UnavailableMessage: string := "Horario indisponivel para este dia."
  const DueDateMessage: string := "Informe a data de pagamento."

  /** The chosen hour is checked against the offered hours only when some
      are offered. */
  predicate HourRefused(hours: seq<string>, hour: string) {
    |hours| > 0 && hour !in hours
  }

  /** A single booking paid later needs a due date. */
  predicate DueDateMissing(f: BookingsForm) {
    f.plan.Single? && f.paymentMode == "due" && f.paymentDueDate == ""
  }

  /** `handleCreate` on the bookings page, given the hours the page
      offers: the request sent, or the message shown instead. */
  function CreateFromBookings(f: BookingsForm, hours: seq<string>): (r: Result<BookingPost, string>)
    ensures Incomplete(f.patientId, f.professionalId, ServiceIds(f.selectedServiceIds, f.serviceId), f.startsDate)
      ==> r == Err(FillFieldsMessage)
    ensures (!Incomplete(f.patientId, f.professionalId, ServiceIds(f.selectedServiceIds, f.serviceId), f.startsDate)
      && HourRefused(hours, f.startsHour)) ==> r == Err(UnavailableMessage)
    ensures (!Incomplete(f.patientId, f.professionalId, ServiceIds(f.selectedServiceIds, f.serviceId), f.startsDate)
      && !HourRefused(hours, f.startsHour) && DueDateMissing(f)) ==> r == Err(DueDateMessage)
    ensures (!Incomplete(f.patientId, f.professionalId, ServiceIds(f.selectedServiceIds, f.serviceId), f.startsDate)
      && !HourRefused(hours, f.startsHour) && MissingDays(f.plan, f.daysOfWeek)) ==> r == Err(PickDayMessage)
    ensures r.Ok? <==>
      && !Incomplete(f.patientId, f.professionalId, ServiceIds(f.selectedServiceIds, f.serviceId), f.startsDate)
      && !HourRefused(hours, f.startsHour) && !DueDateMissing(f) && !MissingDays(f.plan, f.daysOfWeek)
    ensures r.Ok? ==> r.value.target == TargetOf(f.patientId, f.professionalId, f.selectedServiceIds, f.serviceId,
                                                 f.startsDate + "T" + f.startsHour)
    ensures r.Ok? ==> (r.value.PostAppointment? <==> f.plan.Single?)
    ensures r.Ok? && r.value.PostAppointment? ==>
      && r.value.payment.Some? && r.value.payment.value.mode == f.paymentMode
      && (r.value.payment.value.dueDate.Some? <==> f.paymentMode == "due")
      && (f.paymentMode == "due" ==> r.value.payment.value.dueDate == Some(f.paymentDueDate) && f.paymentDueDate != "")
    ensures r.Ok? && r.value.PostSeries? ==>
      r.value.series == SeriesOf(f.plan, f.totalSessions, f.daysOfWeek, f.dayOfMonth)
  {
    var ids := ServiceIds(f.selectedServiceIds, f.serviceId);
    if Incomplete(f.patientId, f.professionalId, ids, f.startsDate) then Err(FillFieldsMessage)
    else if HourRefused(hours, f.startsHour) then Err(UnavailableMessage)
    else if DueDateMissing(f) then Err(DueDateMessage)
    else
      var target := TargetOf(f.patientId, f.professionalId, f.selectedServiceIds, f.serviceId,
                             f.startsDate + "T" + f.startsHour);
      if f.plan.Single? then
        Ok(PostAppointment(target, Some(Payment(f.paymentMode,
          if f.paymentMode == "due" then Some(f.paymentDueDate) else None))))
      else if MissingDays(f.plan, f.daysOfWeek) then Err(PickDayMessage)
      else Ok(PostSeries(target, SeriesOf(f.plan, f.totalSessions, f.daysOfWeek, f.dayOfMonth)))
  }

  /** The form after a booking went through: the service choice and the
      payment terms are cleared, everything else is kept. */
  function AfterBooked(f: BookingsForm): (g: BookingsForm)
    ensures g.selectedServiceIds == [] && g.serviceId == ""
    ensures g.paymentMode == "now" && g.paymentDueDate == ""
    ensures g.patientId == f.patientId && g.professionalId == f.professionalId
    ensures g.plan == f.plan && g.startsDate == f.startsDate && g.startsHour == f.startsHour
    ensures g.totalSessions == f.totalSessions && g.daysOfWeek == f.daysOfWeek && g.dayOfMonth == f.dayOfMonth
  {
    f.(selectedServiceIds := [], serviceId := "", paymentMode := "now", paymentDueDate := "")
  }

  /** Submitting again right after a booking is refused until a service is
      chosen again. */
  lemma ResubmitNeedsService(f: BookingsForm, hours: seq<string>)
    ensures CreateFromBookings(AfterBooked(f), hours) == Err(FillFieldsMessage)
  {
    assert ServiceIds([], "") == [];
  }
}
