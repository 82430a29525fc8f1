/** The slot-availability engine both scheduling pages run on the client
    (the `slots` memo of the agenda page and the `availableHours` memo of
    the bookings page): a professional's weekly availability windows are
    cut into fixed-length slots, each slot collects the appointments whose
    half-open interval overlaps it, and a slot is free while it is below
    the service's capacity and holds no appointment of another service. */
module Slots {
  import opened Values
  import opened Lists
  import opened Text
  import opened Clock

  /** A weekly availability record (`professional-availabilities`). */
  datatype Window = Window(id: int, professionalId: int, weekday: int, start: ClockMinute, end: ClockMinute)

  /** How an appointment's `ends_at` reads: absent or empty (the slot length
      is assumed), a timestamp, or text that does not parse as a date (an
      invalid `Date`, which compares false with everything). */
  datatype EndStamp = NoEnd | EndsAt(at: int) | BadEnd

  /** An appointment as listed for a day. `start` is `None` when
      `starts_at` does not parse; `professionalId` and `serviceId` are the
      ids of the nested `professional` and `service` objects, if any. */
  datatype Appointment = Appointment(
    id: int,
    start: Option<int>,
    end: EndStamp,
    professionalId: Option<int>,
    serviceId: Option<int>,
    status: string)

  /** A service; absent numeric fields are `None`. */
  datatype Service = Service(
    id: int,
    durationMinutes: Option<int>,
    capacity: Option<int>,
    priceCents: Option<int>)

  const DefaultDuration: int := 60
  const DefaultCapacity: int := 1

  /** `services.find((s) => s.id === id)`: the first service with that id. */
  function FindService(services: seq<Service>, id: int): (r: Option<Service>)
    ensures r.Some? ==> r.value in services && r.value.id == id
    ensures r.None? <==> forall i :: 0 <= i < |services| ==> services[i].id != id
    ensures r.Some? ==> exists i :: (0 <= i < |services| && services[i] == r.value
      && forall j :: 0 <= j < i ==> services[j].id != id)
  {
    if |services| == 0 then None
    else if services[0].id == id then Some(services[0])
    else
      var r := FindService(services[1..], id);
      assert r.Some? ==> exists i :: (0 <= i < |services| && services[i] == r.value
        && forall j :: 0 <= j < i ==> services[j].id != id) by {
        if r.Some? {
          var i :| 0 <= i < |services[1..]| && services[1..][i] == r.value
            && forall j :: 0 <= j < i ==> services[1..][j].id != id;
          assert services[i + 1] == r.value;
          assert forall j :: 0 <= j < i + 1 ==> services[j].id != id by {
            forall j | 0 <= j < i + 1
              ensures services[j].id != id
            {
              if j > 0 {
                assert services[j] == services[1..][j - 1];
              }
            }
          }
        }
      }
      r
  }

  /** `service?.duration_minutes ?? 60`. */
  function SlotMinutes(service: Option<Service>): (d: int)
    ensures service.None? || service.value.durationMinutes.None? ==> d == DefaultDuration
    ensures service.Some? && service.value.durationMinutes.Some? ==> d == service.value.durationMinutes.value
  {
    if service.Some? then service.value.durationMinutes.GetOr(DefaultDuration) else DefaultDuration
  }

  /** `service?.capacity ?? 1`. */
  function CapacityOf(service: Option<Service>): (c: int)
    ensures service.None? || service.value.capacity.None? ==> c == DefaultCapacity
    ensures service.Some? && service.value.capacity.Some? ==> c == service.value.capacity.value
  {
    if service.Some? then service.value.capacity.GetOr(DefaultCapacity) else DefaultCapacity
  }

  /** Which occupants block a slot on service grounds. The agenda page
      ignores services when none is selected; otherwise an occupant blocks
      when it carries a (truthy, so non-zero) service id other than the
      target's id, and with no target every such occupant blocks. */
  datatype MixRule = IgnoreServices | AgainstService(target: Option<int>)

  /** `appt.service?.id && appt.service.id !== target`. */
  predicate Conflicts(a: Appointment, rule: MixRule) {
    match rule
    case IgnoreServices => false
    case AgainstService(target) =>
      a.serviceId.Some? && a.serviceId.value != 0 && a.serviceId != target
  }

  /** What one slot computation depends on: the professional (as the number
      windows are matched against and as the text appointments are matched
      against), the selected day, the slot length, the capacity and the
      service rule. */
  datatype Request = Request(
    professionalId: int,
    professionalKey: string,
    day: int,
    duration: int,
    capacity: int,
    rule: MixRule)

  /** The availability records of the professional for the day's weekday
      (`item.professional_id === Number(professionalId)`). */
  predicate ForDay(w: Window, q: Request) {
    w.professionalId == q.professionalId && w.weekday == WeekdayOf(q.day)
  }

  /** An appointment that starts on the selected day and belongs to the
      selected professional (`dateKey(...) === selectedDate` and
      `String(item.professional?.id ?? "") === String(professionalId)`;
      the key is never empty when slots are computed, so an appointment
      without a professional never matches). */
  predicate SameDay(a: Appointment, q: Request) {
    && a.start.Some?
    && DayOf(a.start.value) == q.day
    && a.professionalId.Some?
    && IntToString(a.professionalId.value) == q.professionalKey
  }

  /** When the professional's text is the canonical decimal of its number,
      the text comparison of appointments is the id comparison. */
  lemma SameDayById(a: Appointment, q: Request)
    requires q.professionalKey == IntToString(q.professionalId)
    ensures SameDay(a, q) <==>
      a.start.Some? && DayOf(a.start.value) == q.day && a.professionalId == Some(q.professionalId)
  {
    if a.professionalId.Some? && IntToString(a.professionalId.value) == q.professionalKey {
      IntToStringInjective(a.professionalId.value, q.professionalId);
    }
  }

  /** The end an appointment is taken to have when the slot length is
      `duration`; `None` stands for an unparseable `ends_at`. */
  function EndOf(a: Appointment, duration: int): (r: Option<int>)
    requires a.start.Some?
    ensures a.end.NoEnd? ==> r == Some(a.start.value + duration)
    ensures a.end.EndsAt? ==> r == Some(a.end.at)
    ensures a.end.BadEnd? <==> r.None?
  {
    match a.end
    case NoEnd => Some(a.start.value + duration)
    case EndsAt(t) => Some(t)
    case BadEnd => None
  }

  /** Half-open overlap `apptStart < slotEnd && apptEnd > slotStart`. */
  predicate Overlaps(a: Appointment, slotStart: int, slotEnd: int, duration: int) {
    && a.start.Some?
    && a.start.value < slotEnd
    && EndOf(a, duration).Some?
    && EndOf(a, duration).value > slotStart
  }

  /** One computed slot. `occupants` lists the overlapping appointments in
      input order (the page keeps the first one for display). */
  datatype Slot = Slot(start: int, end: int, occupants: seq<Appointment>, available: bool) {

    /** The slot's label, `HH:MM` of its start. */
    function Time(): string {
      FormatHour(MinuteOfDay(start))
    }
  }

  /** The appointments overlapping the slot `[t, t + d)`, in input order. */
  function Occupying(appts: seq<Appointment>, t: int, d: int): (r: seq<Appointment>)
    ensures forall a :: a in r <==> a in appts && Overlaps(a, t, t + d, d)
    ensures |r| <= |appts|
  {
    if |appts| == 0 then []
    else
      var rest := Occupying(appts[1..], t, d);
      assert appts == [appts[0]] + appts[1..];
      if Overlaps(appts[0], t, t + d, d) then [appts[0]] + rest else rest
  }

  /** The overlap test of the slot `[t, t + d)` as a predicate on
      appointments. */
  function OverlapTest(t: int, d: int): Appointment -> bool {
    (a: Appointment) => Overlaps(a, t, t + d, d)
  }

  /** The occupants are the page's `dayAppointments.filter(...)` over the
      overlap test: every overlapping appointment, each as often as it is
      listed, in input order. So their number is the count compared with
      the capacity. */
  lemma {:induction false} OccupyingIsFilter(appts: seq<Appointment>, t: int, d: int)
    ensures Occupying(appts, t, d) == Filter(appts, OverlapTest(t, d))
    decreases |appts|
  {
    if |appts| > 0 {
      OccupyingIsFilter(appts[1..], t, d);
      assert OverlapTest(t, d)(appts[0]) == Overlaps(appts[0], t, t + d, d);
    }
  }

  /** The slot starting at `t`, over the day's appointments `dayAppts`. */
  function MakeSlot(t: int, q: Request, dayAppts: seq<Appointment>): (s: Slot)
    requires q.duration > 0
    ensures s.start == t && s.end == t + q.duration
    ensures forall a :: a in s.occupants <==> a in dayAppts && Overlaps(a, t, t + q.duration, q.duration)
    ensures |s.occupants| <= |dayAppts|
    ensures s.available <==>
      && |s.occupants| < q.capacity
      && forall a :: a in dayAppts && Overlaps(a, t, t + q.duration, q.duration) ==> !Conflicts(a, q.rule)
  {
    var end := t + q.duration;
    var occupants := Occupying(dayAppts, t, q.duration);
    var mixed := exists a :: a in occupants && Conflicts(a, q.rule);
    Slot(t, end, occupants, |occupants| < q.capacity && !mixed)
  }

  /** A slot's occupants are the overlapping appointments of the day, in
      input order. */
  lemma MakeSlotOccupants(t: int, q: Request, dayAppts: seq<Appointment>)
    requires q.duration > 0
    ensures MakeSlot(t, q, dayAppts).occupants == Filter(dayAppts, OverlapTest(t, q.duration))
  {
    OccupyingIsFilter(dayAppts, t, q.duration);
  }

  /** Slot starts `cursor, cursor + d, ...` while a whole slot still ends
      by `end` (the page's `for` loop over `cursor`). */
  function Starts(cursor: int, end: int, d: int): (r: seq<int>)
    requires d > 0
    ensures forall k :: 0 <= k < |r| ==> r[k] == cursor + k * d && r[k] + d <= end
    ensures cursor <= end ==> |r| * d <= end - cursor < (|r| + 1) * d
    ensures cursor > end ==> |r| == 0
    decreases end - cursor
  {
    if cursor + d <= end then
      StartsShift(cursor, d, Starts(cursor + d, end, d));
      [cursor] + Starts(cursor + d, end, d)
    else
      []
  }

  /** The page's `for` loop over `cursor` as written, for any slot length
      `d`, run for at most `fuel` steps: the starts it pushes, or none when
      it has not left the loop by then. */
  function LoopStarts(cursor: int, end: int, d: int, fuel: nat): Option<seq<int>>
    decreases fuel
  {
    if cursor + d > end then Some([])
    else if fuel == 0 then None
    else
      match LoopStarts(cursor + d, end, d, fuel - 1)
      case None => None
      case Some(rest) => Some([cursor] + rest)
  }

  /** With a positive slot length the loop leaves within `end - cursor`
      steps, having pushed exactly `Starts`. */
  lemma {:induction false} LoopStartsEnds(cursor: int, end: int, d: int, fuel: nat)
    requires d > 0 && fuel >= end - cursor
    ensures LoopStarts(cursor, end, d, fuel) == Some(Starts(cursor, end, d))
    decreases fuel
  {
    if cursor + d <= end {
      LoopStartsEnds(cursor + d, end, d, fuel - 1);
    }
  }

  /** As written, a slot length of zero or less never lets the loop end
      once its first test passes: the cursor does not move forward, so
      `cursor + d <= end` keeps holding, however many steps are taken. */
  lemma {:induction false} LoopNeverEndsAsWritten(cursor: int, end: int, d: int, fuel: nat)
    requires d <= 0 && cursor + d <= end
    ensures LoopStarts(cursor, end, d, fuel) == None
    decreases fuel
  {
    if fuel > 0 {
      LoopNeverEndsAsWritten(cursor + d, end, d, fuel - 1);
    }
  }

  /** Starts laid out from `cursor + d` sit `k` slot lengths after
      `cursor` at position `k - 1`. */
  lemma StartsShift(cursor: int, d: int, rest: seq<int>)
    requires forall k :: 0 <= k < |rest| ==> rest[k] == cursor + d + k * d
    ensures forall k :: 1 <= k <= |rest| ==> rest[k - 1] == cursor + k * d
    ensures (|rest| + 1) * d == |rest| * d + d
    ensures (|rest| + 2) * d == |rest| * d + 2 * d
  {
    forall k | 1 <= k <= |rest|
      ensures rest[k - 1] == cursor + k * d
    {
      assert cursor + d + (k - 1) * d == cursor + k * d;
    }
  }

  lemma {:induction false} MulMonotone(a: int, b: int, d: int)
    requires a <= b && d > 0
    ensures a * d <= b * d
    decreases b - a
  {
    if a < b {
      MulMonotone(a + 1, b, d);
    }
  }

  /** A window `[s, e)` cut into slots of length `d` yields
      `floor((e - s) / d)` slots, none when the window is empty or
      inverted. */
  lemma SlotCount(s: int, e: int, d: int)
    requires d > 0
    ensures |Starts(s, e, d)| == if s <= e then (e - s) / d else 0
  {
    if s <= e {
      assert (e - s) / d * d <= e - s < ((e - s) / d + 1) * d;
      if |Starts(s, e, d)| < (e - s) / d {
        MulMonotone(|Starts(s, e, d)| + 1, (e - s) / d, d);
      } else if (e - s) / d < |Starts(s, e, d)| {
        MulMonotone((e - s) / d + 1, |Starts(s, e, d)|, d);
      }
    }
  }

  /** The slots of one availability window on the selected day. */
  function WindowSlots(w: Window, q: Request, dayAppts: seq<Appointment>): (r: seq<Slot>)
    requires q.duration > 0
    ensures |r| == |Starts(DayStart(q.day) + w.start, DayStart(q.day) + w.end, q.duration)|
    ensures forall k :: 0 <= k < |r| ==>
      r[k] == MakeSlot(DayStart(q.day) + w.start + k * q.duration, q, dayAppts)
    ensures forall k :: 0 <= k < |r| ==> r[k].end <= DayStart(q.day) + w.end
  {
    var base := DayStart(q.day);
    var ts := Starts(base + w.start, base + w.end, q.duration);
    var r := SlotsAt(ts, q, dayAppts);
    assert forall k :: 0 <= k < |r| ==> r[k].end == ts[k] + q.duration;
    r
  }

  /** One slot per start, in order. */
  function SlotsAt(ts: seq<int>, q: Request, dayAppts: seq<Appointment>): (r: seq<Slot>)
    requires q.duration > 0
    ensures |r| == |ts|
    ensures forall k :: 0 <= k < |r| ==> r[k] == MakeSlot(ts[k], q, dayAppts)
  {
    seq(|ts|, k requires 0 <= k < |ts| => MakeSlot(ts[k], q, dayAppts))
  }

  lemma WindowSlotsAreSlotsAt(w: Window, q: Request, dayAppts: seq<Appointment>)
    requires q.duration > 0
    ensures WindowSlots(w, q, dayAppts)
      == SlotsAt(Starts(DayStart(q.day) + w.start, DayStart(q.day) + w.end, q.duration), q, dayAppts)
  {
  }

  /** The slots of several windows, window after window, without sorting
      or removing repeats. */
  function WindowsSlots(ws: seq<Window>, q: Request, dayAppts: seq<Appointment>): (r: seq<Slot>)
    requires q.duration > 0
  {
    if |ws| == 0 then [] else WindowSlots(ws[0], q, dayAppts) + WindowsSlots(ws[1..], q, dayAppts)
  }

  /** Where a slot may come from: on day `day`, a start a whole number of
      slot lengths `d` after the window's start, and an end inside it. */
  ghost predicate OnGrid(s: Slot, w: Window, day: int, d: int) {
    var base := DayStart(day);
    exists k :: 0 <= k && s.start == base + w.start + k * d && s.end <= base + w.end
  }

  /** The day's slots for a request: the professional's windows for the
      weekday, and the appointments of that professional on that day. */
  function DaySlots(q: Request, windows: seq<Window>, appts: seq<Appointment>): seq<Slot>
    requires q.duration > 0
  {
    WindowsSlots(Filter(windows, w => ForDay(w, q)), q, Filter(appts, a => SameDay(a, q)))
  }

  /** Every slot of several windows is an ordinary slot computation,
      starts in one of the windows on the slot grid, and ends inside it. */
  lemma {:induction false} WindowsSlotsShape(ws: seq<Window>, q: Request, dayAppts: seq<Appointment>)
    requires q.duration > 0
    ensures forall s :: s in WindowsSlots(ws, q, dayAppts) ==>
      s == MakeSlot(s.start, q, dayAppts) && exists w :: w in ws && OnGrid(s, w, q.day, q.duration)
  {
    if |ws| > 0 {
      WindowsSlotsShape(ws[1..], q, dayAppts);
      var first := WindowSlots(ws[0], q, dayAppts);
      forall s | s in first
        ensures s == MakeSlot(s.start, q, dayAppts) && OnGrid(s, ws[0], q.day, q.duration)
      {
        var k :| 0 <= k < |first| && first[k] == s;
        assert s.start == DayStart(q.day) + ws[0].start + k * q.duration;
      }
      forall s | s in WindowsSlots(ws[1..], q, dayAppts)
        ensures exists w :: w in ws && OnGrid(s, w, q.day, q.duration)
      {
        var w :| w in ws[1..] && OnGrid(s, w, q.day, q.duration);
        assert w in ws;
      }
    }
  }

  /** The slot list of a day: each slot lies inside one of the selected
      professional's windows for that weekday, on that window's grid; its
      occupants are exactly the same-day, same-professional appointments
      whose half-open interval meets the slot; and it is available exactly
      when fewer than `capacity` appointments overlap and none of them is
      of another service. */
  lemma DaySlotsSound(q: Request, windows: seq<Window>, appts: seq<Appointment>)
    requires q.duration > 0
    ensures forall s :: s in DaySlots(q, windows, appts) ==>
      && s.end == s.start + q.duration
      && (exists w :: w in windows && ForDay(w, q) && OnGrid(s, w, q.day, q.duration))
      && (forall a :: a in s.occupants <==>
            a in appts && SameDay(a, q) && Overlaps(a, s.start, s.end, q.duration))
      && s.occupants == Filter(appts, OccupantTest(q, s.start))
      && (s.available <==>
            |s.occupants| < q.capacity && forall a :: a in s.occupants ==> !Conflicts(a, q.rule))
  {
    var ws := Filter(windows, w => ForDay(w, q));
    var dayAppts := Filter(appts, a => SameDay(a, q));
    WindowsSlotsShape(ws, q, dayAppts);
    forall s | s in DaySlots(q, windows, appts)
      ensures s.occupants == Filter(appts, OccupantTest(q, s.start))
    {
      DaySlotOccupants(s, q, appts, dayAppts);
    }
  }

  /** Which appointments occupy the slot starting at `t` of the request's
      day: the professional's appointments of that day that overlap it. */
  function OccupantTest(q: Request, t: int): Appointment -> bool {
    (a: Appointment) => SameDay(a, q) && Overlaps(a, t, t + q.duration, q.duration)
  }

  lemma DaySlotOccupants(s: Slot, q: Request, appts: seq<Appointment>, dayAppts: seq<Appointment>)
    requires q.duration > 0 && dayAppts == Filter(appts, a => SameDay(a, q))
    requires s == MakeSlot(s.start, q, dayAppts)
    ensures s.occupants == Filter(appts, OccupantTest(q, s.start))
  {
    MakeSlotOccupants(s.start, q, dayAppts);
    FilterFilter(appts, a => SameDay(a, q), OverlapTest(s.start, q.duration), OccupantTest(q, s.start));
  }

  /** The number of slots is the sum over the day's windows of each
      window's `floor((end - start) / duration)`. */
  function SlotTotal(ws: seq<Window>, q: Request): int
    requires q.duration > 0
  {
    if |ws| == 0 then 0
    else
      (if ws[0].start <= ws[0].end then (ws[0].end - ws[0].start) / q.duration else 0)
        + SlotTotal(ws[1..], q)
  }

  lemma {:induction false} WindowsSlotsCount(ws: seq<Window>, q: Request, dayAppts: seq<Appointment>)
    requires q.duration > 0
    ensures |WindowsSlots(ws, q, dayAppts)| == SlotTotal(ws, q)
  {
    if |ws| > 0 {
      var base := DayStart(q.day);
      SlotCount(base + ws[0].start, base + ws[0].end, q.duration);
      WindowsSlotsCount(ws[1..], q, dayAppts);
    }
  }

  lemma DaySlotsCount(q: Request, windows: seq<Window>, appts: seq<Appointment>)
    requires q.duration > 0
    ensures |DaySlots(q, windows, appts)| == SlotTotal(Filter(windows, w => ForDay(w, q)), q)
  {
    WindowsSlotsCount(Filter(windows, w => ForDay(w, q)), q, Filter(appts, a => SameDay(a, q)));
  }

  /** Within one window the slots are spaced by exactly one slot length,
      so they are strictly ascending and do not overlap each other. */
  lemma WindowSlotsSpacing(w: Window, q: Request, dayAppts: seq<Appointment>)
    requires q.duration > 0
    ensures forall k :: 0 < k < |WindowSlots(w, q, dayAppts)| ==>
      WindowSlots(w, q, dayAppts)[k].start == WindowSlots(w, q, dayAppts)[k - 1].end
  {
    var r := WindowSlots(w, q, dayAppts);
    var base := DayStart(q.day);
    forall k | 0 < k < |r|
      ensures r[k].start == r[k - 1].end
    {
      assert base + w.start + (k - 1) * q.duration + q.duration == base + w.start + k * q.duration;
    }
  }

  /** The times of day at which a list of slots start. */
  function Clocks(slots: seq<Slot>): (r: seq<int>)
    ensures |r| == |slots|
    ensures forall k :: 0 <= k < |r| ==> r[k] == MinuteOfDay(slots[k].start) && 0 <= r[k] < MinutesPerDay
  {
    if |slots| == 0 then [] else [MinuteOfDay(slots[0].start)] + Clocks(slots[1..])
  }

  lemma {:induction false} ClocksConcat(a: seq<Slot>, b: seq<Slot>)
    ensures Clocks(a + b) == Clocks(a) + Clocks(b)
    decreases |a|
  {
    if |a| == 0 {
      assert a + b == b;
    } else {
      assert (a + b)[0] == a[0];
      assert (a + b)[1..] == a[1..] + b;
      ClocksConcat(a[1..], b);
    }
  }

  /** The times of day at which the available ones among `slots` start. */
  function OpenClocks(slots: seq<Slot>): (r: seq<int>)
    ensures forall k :: 0 <= k < |r| ==> 0 <= r[k] < MinutesPerDay
  {
    if |slots| == 0 then []
    else (if slots[0].available then [MinuteOfDay(slots[0].start)] else []) + OpenClocks(slots[1..])
  }

  lemma {:induction false} OpenClocksConcat(a: seq<Slot>, b: seq<Slot>)
    ensures OpenClocks(a + b) == OpenClocks(a) + OpenClocks(b)
    decreases |a|
  {
    if |a| == 0 {
      assert a + b == b;
    } else {
      assert (a + b)[0] == a[0];
      assert (a + b)[1..] == a[1..] + b;
      OpenClocksConcat(a[1..], b);
    }
  }

  /** The open times are the start times of `AvailableSlots`. */
  lemma {:induction false} OpenClocksAreClocks(slots: seq<Slot>)
    ensures OpenClocks(slots) == Clocks(AvailableSlots(slots))
    decreases |slots|
  {
    if |slots| > 0 {
      var head := if slots[0].available then [slots[0]] else [];
      OpenClocksAreClocks(slots[1..]);
      ClocksConcat(head, AvailableSlots(slots[1..]));
    }
  }

  lemma SlotsAtTail(ts: seq<int>, q: Request, dayAppts: seq<Appointment>)
    requires q.duration > 0 && |ts| > 0
    ensures SlotsAt(ts, q, dayAppts)[0] == MakeSlot(ts[0], q, dayAppts)
    ensures SlotsAt(ts, q, dayAppts)[1..] == SlotsAt(ts[1..], q, dayAppts)
  {
    var a := SlotsAt(ts, q, dayAppts)[1..];
    var b := SlotsAt(ts[1..], q, dayAppts);
    assert forall k :: 0 <= k < |a| ==> a[k] == b[k];
  }

  /** `HH:MM` labels of times of day. */
  function Labels(ms: seq<int>): (r: seq<string>)
    requires forall k :: 0 <= k < |ms| ==> 0 <= ms[k] < MinutesPerDay
    ensures |r| == |ms|
    ensures forall k :: 0 <= k < |r| ==> r[k] == FormatHour(ms[k])
  {
    seq(|ms|, k requires 0 <= k < |ms| => FormatHour(ms[k]))
  }

  /** The `HH:MM` labels of a list of slots. */
  function Times(slots: seq<Slot>): (r: seq<string>)
    ensures |r| == |slots|
    ensures forall k :: 0 <= k < |r| ==> r[k] == slots[k].Time()
  {
    if |slots| == 0 then [] else [slots[0].Time()] + Times(slots[1..])
  }

  /** Labelling the start times is labelling the slots. */
  lemma LabelsOfClocks(slots: seq<Slot>)
    ensures Labels(Clocks(slots)) == Times(slots)
  {
    assert forall k :: 0 <= k < |slots| ==> Labels(Clocks(slots))[k] == Times(slots)[k];
  }

  lemma {:induction false} TimesConcat(a: seq<Slot>, b: seq<Slot>)
    ensures Times(a + b) == Times(a) + Times(b)
    decreases |a|
  {
    if |a| == 0 {
      assert a + b == b;
    } else {
      assert (a + b)[0] == a[0];
      assert (a + b)[1..] == a[1..] + b;
      TimesConcat(a[1..], b);
    }
  }

  /** Requests that differ at most in their service rule. */
  predicate SameButRule(q1: Request, q2: Request) {
    q1 == q2.(rule := q1.rule)
  }

  /** At a capacity of at most one the service rule never decides: a slot
      with an occupant is already full, and one without has nobody to
      conflict with. So the day's slots do not depend on the rule. */
  lemma RuleIrrelevantAtCapacityOne(q1: Request, q2: Request, windows: seq<Window>, appts: seq<Appointment>)
    requires q1.duration > 0 && SameButRule(q1, q2) && q1.capacity <= 1
    ensures DaySlots(q1, windows, appts) == DaySlots(q2, windows, appts)
  {
    FilterSame(windows, w => ForDay(w, q1), w => ForDay(w, q2));
    FilterSame(appts, a => SameDay(a, q1), a => SameDay(a, q2));
    var dayAppts := Filter(appts, a => SameDay(a, q1));
    WindowsSlotsRuleFree(Filter(windows, w => ForDay(w, q1)), q1, q2, dayAppts);
  }

  lemma {:induction false} WindowsSlotsRuleFree(ws: seq<Window>, q1: Request, q2: Request, dayAppts: seq<Appointment>)
    requires q1.duration > 0 && SameButRule(q1, q2) && q1.capacity <= 1
    ensures WindowsSlots(ws, q1, dayAppts) == WindowsSlots(ws, q2, dayAppts)
    decreases |ws|
  {
    if |ws| > 0 {
      WindowsSlotsRuleFree(ws[1..], q1, q2, dayAppts);
      WindowSlotsRuleFree(ws[0], q1, q2, dayAppts);
    }
  }

  lemma WindowSlotsRuleFree(w: Window, q1: Request, q2: Request, dayAppts: seq<Appointment>)
    requires q1.duration > 0 && SameButRule(q1, q2) && q1.capacity <= 1
    ensures WindowSlots(w, q1, dayAppts) == WindowSlots(w, q2, dayAppts)
  {
    var base := DayStart(q1.day);
    assert q2.day == q1.day && q2.duration == q1.duration;
    WindowSlotsAreSlotsAt(w, q1, dayAppts);
    WindowSlotsAreSlotsAt(w, q2, dayAppts);
    SlotsAtRuleFree(Starts(base + w.start, base + w.end, q1.duration), q1, q2, dayAppts);
  }

  lemma SlotsAtRuleFree(ts: seq<int>, q1: Request, q2: Request, dayAppts: seq<Appointment>)
    requires q1.duration > 0 && SameButRule(q1, q2) && q1.capacity <= 1
    ensures SlotsAt(ts, q1, dayAppts) == SlotsAt(ts, q2, dayAppts)
  {
    forall k | 0 <= k < |ts|
      ensures MakeSlot(ts[k], q1, dayAppts) == MakeSlot(ts[k], q2, dayAppts)
    {
      MakeSlotRuleFree(ts[k], q1, q2, dayAppts);
    }
  }

  lemma MakeSlotRuleFree(t: int, q1: Request, q2: Request, dayAppts: seq<Appointment>)
    requires q1.duration > 0 && SameButRule(q1, q2) && q1.capacity <= 1
    ensures MakeSlot(t, q1, dayAppts) == MakeSlot(t, q2, dayAppts)
  {
    var s1 := MakeSlot(t, q1, dayAppts);
    if |s1.occupants| > 0 {
      assert s1.occupants[0] in s1.occupants;
    }
  }

  /** `availableSlots`: the available slots, in slot order. */
  function AvailableSlots(slots: seq<Slot>): (r: seq<Slot>)
    ensures forall s :: s in r <==> s in slots && s.available
    ensures |r| <= |slots|
  {
    if |slots| == 0 then []
    else (if slots[0].available then [slots[0]] else []) + AvailableSlots(slots[1..])
  }

  /** The available slots are the slot list's `.filter(slot => slot.available)`. */
  lemma {:induction false} AvailableSlotsIsFilter(slots: seq<Slot>)
    ensures AvailableSlots(slots) == Filter(slots, (s: Slot) => s.available)
    decreases |slots|
  {
    if |slots| > 0 {
      AvailableSlotsIsFilter(slots[1..]);
      if !slots[0].available {
        assert [] + AvailableSlots(slots[1..]) == AvailableSlots(slots[1..]);
      }
    }
  }

  /** The available slots keep the slot order, and each available slot
      appears as often as the list holds it. */
  lemma AvailableSlotsInOrder(slots: seq<Slot>)
    ensures Subsequence(AvailableSlots(slots), slots)
    ensures forall s :: multiset(AvailableSlots(slots))[s] == if s.available then multiset(slots)[s] else 0
  {
    AvailableSlotsIsFilter(slots);
    FilterInOrder(slots, (s: Slot) => s.available);
    forall s: Slot
      ensures multiset(AvailableSlots(slots))[s] == if s.available then multiset(slots)[s] else 0
    {
      FilterCounts(slots, (s: Slot) => s.available, s);
    }
  }

  lemma {:induction false} AvailableSlotsConcat(a: seq<Slot>, b: seq<Slot>)
    ensures AvailableSlots(a + b) == AvailableSlots(a) + AvailableSlots(b)
    decreases |a|
  {
    if |a| == 0 {
      assert a + b == b;
    } else {
      assert (a + b)[0] == a[0];
      assert (a + b)[1..] == a[1..] + b;
      AvailableSlotsConcat(a[1..], b);
    }
  }

  /** A slot starting `m` minutes into a day is labelled with `m`. */
  lemma SlotTimeOnDay(s: Slot, day: int, m: int)
    requires 0 <= m < MinutesPerDay && s.start == DayStart(day) + m
    ensures s.Time() == FormatHour(m)
  {
    MinuteOfDayAt(day, m);
    assert MinuteOfDay(s.start) == m;
  }

  lemma TimesOfOne(s: Slot, h: string)
    requires s.Time() == h
    ensures Times(AvailableSlots([s])) == if s.available then [h] else []
  {
    assert AvailableSlots([s]) == if s.available then [s] else [];
  }

  /** A label is among those of the available slots exactly when some
      available slot carries it. */
  lemma TimesOfAvailable(slots: seq<Slot>)
    ensures forall h :: h in Times(AvailableSlots(slots)) <==>
      exists s :: s in slots && s.available && s.Time() == h
  {
    forall h
      ensures h in Times(AvailableSlots(slots)) <==> exists s :: s in AvailableSlots(slots) && s.Time() == h
    {
      TimesMember(AvailableSlots(slots), h);
    }
  }

  /** A label is among those of some slots exactly when one of them
      carries it. */
  lemma TimesMember(slots: seq<Slot>, h: string)
    ensures h in Times(slots) <==> exists s :: s in slots && s.Time() == h
  {
    if h in Times(slots) {
      var k :| 0 <= k < |slots| && Times(slots)[k] == h;
      assert slots[k] in slots;
    }
    if exists s :: s in slots && s.Time() == h {
      var s :| s in slots && s.Time() == h;
      var k :| 0 <= k < |slots| && slots[k] == s;
      assert Times(slots)[k] == h;
    }
  }

  /** Adding an appointment never makes a full or mixed slot free:
      occupancy is monotone in the appointment list. */
  lemma MoreAppointmentsNeverFree(t: int, q: Request, dayAppts: seq<Appointment>, extra: Appointment)
    requires q.duration > 0
    requires !MakeSlot(t, q, dayAppts).available
    ensures !MakeSlot(t, q, dayAppts + [extra]).available
  {
    var before := MakeSlot(t, q, dayAppts);
    var after := MakeSlot(t, q, dayAppts + [extra]);
    if |before.occupants| >= q.capacity {
      OccupantsGrow(t, q, dayAppts, extra);
    } else {
      var a :| a in dayAppts && Overlaps(a, t, t + q.duration, q.duration) && Conflicts(a, q.rule);
      assert a in dayAppts + [extra];
    }
  }

  lemma OccupantsGrow(t: int, q: Request, dayAppts: seq<Appointment>, extra: Appointment)
    requires q.duration > 0
    ensures |MakeSlot(t, q, dayAppts).occupants| <= |MakeSlot(t, q, dayAppts + [extra]).occupants|
  {
    MakeSlotOccupants(t, q, dayAppts);
    MakeSlotOccupants(t, q, dayAppts + [extra]);
    FilterSnoc(dayAppts, extra, OverlapTest(t, q.duration));
  }
}
