/** The booking form shared by the agenda page and the bookings page: how
    the service ids are resolved, the plan and recurrence payload, the
    weekday toggle of a recurring plan, and the reaction to the server's
    capacity warning. */
module Booking {
  import opened Values
  import opened Lists
  import opened Text

  datatype Plan = Single | Weekly | Biweekly | Monthly

  /** The JavaScript truthiness of a number: `0` and `NaN` are falsy. */
  predicate Truthy(n: JsNumber) {
    n.Finite? && n.n != 0
  }

  /** `selectedServiceIds[0] ?? (serviceId ? Number(serviceId) : null)`. */
  function PrimaryServiceId(selected: seq<int>, serviceId: string): (r: Option<JsNumber>)
    ensures |selected| > 0 ==> r == Some(Finite(selected[0]))
    ensures |selected| == 0 && serviceId == "" ==> r.None?
    ensures |selected| == 0 && serviceId != "" ==> r == Some(ToNumber(serviceId))
  {
    if |selected| > 0 then Some(Finite(selected[0]))
    else if serviceId != "" then Some(ToNumber(serviceId))
    else None
  }

  /** `selectedServiceIds.length > 0 ? selectedServiceIds : primaryServiceId
      ? [primaryServiceId] : []`: the selection when there is one, else the
      single-service choice when it reads as a non-zero number. */
  function ServiceIds(selected: seq<int>, serviceId: string): (r: seq<int>)
    ensures |selected| > 0 ==> r == selected
    ensures |selected| == 0 ==>
      (|r| <= 1 && (r != [] <==> serviceId != "" && Truthy(ToNumber(serviceId))))
    ensures |selected| == 0 && r != [] ==> ToNumber(serviceId) == Finite(r[0])
  {
    if |selected| > 0 then selected
    else
      var p := PrimaryServiceId(selected, serviceId);
      if p.Some? && Truthy(p.value) then [p.value.n] else []
  }

  /** Whenever the service list is non-empty, its first id is the primary
      service id sent next to it. */
  lemma PrimaryIsFirst(selected: seq<int>, serviceId: string)
    requires ServiceIds(selected, serviceId) != []
    ensures PrimaryServiceId(selected, serviceId) == Some(Finite(ServiceIds(selected, serviceId)[0]))
  {
  }

  /** The recurrence part of the `appointment-series` payload. */
  datatype Series = Series(
    totalSessions: JsNumber,
    frequency: string,
    daysOfWeek: seq<int>,
    dayOfMonth: Option<JsNumber>)

  /** What a recurring plan sends: the frequency name, the chosen weekdays
      (none for a monthly plan) and the day of the month (only for a
      monthly plan). */
  function SeriesOf(plan: Plan, totalSessions: string, days: seq<int>, dayOfMonth: string): (r: Series)
    requires !plan.Single?
    ensures r.totalSessions == ToNumber(totalSessions)
    ensures r.frequency == (if plan.Monthly? then "monthly" else if plan.Biweekly? then "biweekly" else "weekly")
    ensures plan.Monthly? <==> r.dayOfMonth.Some?
    ensures plan.Monthly? ==> r.daysOfWeek == [] && r.dayOfMonth == Some(ToNumber(dayOfMonth))
    ensures !plan.Monthly? ==> r.daysOfWeek == days
  {
    Series(
      ToNumber(totalSessions),
      match plan
      case Monthly => "monthly"
      case Biweekly => "biweekly"
      case _ => "weekly",
      if plan.Monthly? then [] else days,
      if plan.Monthly? then Some(ToNumber(dayOfMonth)) else None)
  }

  /** The frequency names are distinct, so the plan reads back from the
      payload. */
  lemma SeriesPlanRecoverable(p1: Plan, p2: Plan, t1: string, t2: string, d1: seq<int>, d2: seq<int>, m1: string, m2: string)
    requires !p1.Single? && !p2.Single?
    requires SeriesOf(p1, t1, d1, m1).frequency == SeriesOf(p2, t2, d2, m2).frequency
    ensures p1 == p2
  {
  }

  /** The fields every booking request carries. */
  datatype Target = Target(
    patientId: JsNumber,
    professionalId: JsNumber,
    serviceId: Option<JsNumber>,
    serviceIds: seq<int>,
    startsAt: string)

  /** The payment terms of a single booking on the bookings page. */
  datatype Payment = Payment(mode: string, dueDate: Option<string>)

  /** The request a submitted form sends: one appointment (`appointments`)
      or a recurring series (`appointment-series`). */
  datatype BookingPost =
    | PostAppointment(target: Target, payment: Option<Payment>)
    | PostSeries(target: Target, series: Series)

  /** The common fields, with the service ids resolved from the form. */
  function TargetOf(patientId: string, professionalId: string, selected: seq<int>, serviceId: string, startsAt: string): (t: Target)
    ensures t.patientId == ToNumber(patientId) && t.professionalId == ToNumber(professionalId)
    ensures t.serviceIds == ServiceIds(selected, serviceId)
    ensures t.serviceId == PrimaryServiceId(selected, serviceId)
    ensures t.startsAt == startsAt
  {
    Target(ToNumber(patientId), ToNumber(professionalId),
      PrimaryServiceId(selected, serviceId), ServiceIds(selected, serviceId), startsAt)
  }

  /** The first guard of both forms: a patient, a professional, at least
      one service and a start are needed. */
  predicate Incomplete(patientId: string, professionalId: string, serviceIds: seq<int>, start: string) {
    patientId == "" || professionalId == "" || |serviceIds| == 0 || start == ""
  }

  /** A weekly or biweekly plan needs at least one weekday. */
  predicate MissingDays(plan: Plan, days: seq<int>) {
    (plan.Weekly? || plan.Biweekly?) && |days| == 0
  }

  const FillFieldsMessage: string := "Preencha paciente, profissional, servico e horario."
  const PickDayMessage: string := "Selecione pelo menos um dia da semana."

  /** A free time the server proposes along with a capacity warning. */
  datatype Suggestion = Suggestion(startsAt: string, endsAt: string)

  /** The page's warning banner and suggestion list after a single booking
      succeeded: both are cleared before the request, and a
      `capacity_full` warning fills them (`suggestions ?? []`). */
  function AfterSingleBooking(warning: Option<string>, suggestions: Option<seq<Suggestion>>): (r: (Option<string>, seq<Suggestion>))
    ensures r.0.Some? <==> warning == Some("capacity_full")
    ensures warning == Some("capacity_full") ==> r.1 == suggestions.GetOr([])
    ensures warning != Some("capacity_full") ==> r.1 == []
  {
    if warning == Some("capacity_full") then
      (Some("Capacidade da turma cheia. Vamos encaixar mesmo assim, mas veja os horarios sugeridos."),
       suggestions.GetOr([]))
    else (None, [])
  }

  // ---------------------------------------------------------------------
  // The weekday toggle of a recurring plan.
  // ---------------------------------------------------------------------

  predicate Sorted(s: seq<int>) {
    forall i, j :: 0 <= i < j < |s| ==> s[i] <= s[j]
  }

  predicate StrictlySorted(s: seq<int>) {
    forall i, j :: 0 <= i < j < |s| ==> s[i] < s[j]
  }

  /** Places `x` into an ascending sequence. */
  function Insert(s: seq<int>, x: int): (r: seq<int>)
    ensures |r| == |s| + 1
    ensures forall y :: y in r <==> y in s || y == x
    ensures Sorted(s) ==> Sorted(r)
  {
    if |s| == 0 then [x]
    else if x <= s[0] then [x] + s
    else
      var rest := Insert(s[1..], x);
      assert s == [s[0]] + s[1..];
      assert Sorted(s) ==> Sorted([s[0]] + rest) by {
        if Sorted(s) {
          assert forall j :: 0 <= j < |rest| ==> rest[j] in rest;
          assert forall y :: y in rest ==> s[0] <= y;
        }
      }
      [s[0]] + rest
  }

  lemma {:induction false} InsertPermutes(s: seq<int>, x: int)
    ensures multiset(Insert(s, x)) == multiset(s) + multiset{x}
    decreases |s|
  {
    if |s| > 0 && x > s[0] {
      InsertPermutes(s[1..], x);
      assert s == [s[0]] + s[1..];
    }
  }

  /** The numeric sort of a sequence of days (`.sort()`, which compares the
      decimal strings; for the weekdays 0 to 6 that is the numeric order). */
  function SortInts(s: seq<int>): (r: seq<int>)
    ensures |r| == |s|
    ensures forall y :: y in r <==> y in s
    ensures Sorted(r)
  {
    if |s| == 0 then []
    else
      var last := s[|s| - 1];
      assert s == s[..|s| - 1] + [last];
      Insert(SortInts(s[..|s| - 1]), last)
  }

  /** Sorting only reorders: the result is a permutation of the input. */
  lemma {:induction false} SortPermutes(s: seq<int>)
    ensures multiset(SortInts(s)) == multiset(s)
    decreases |s|
  {
    if |s| > 0 {
      var p, x := s[..|s| - 1], s[|s| - 1];
      SplitLast(s);
      SortPermutes(p);
      SortSnoc(p, x);
      InsertPermutes(SortInts(p), x);
    }
  }

  lemma SplitLast(s: seq<int>)
    requires |s| > 0
    ensures s == s[..|s| - 1] + [s[|s| - 1]]
  {
  }

  /** One step of the sort: the last value goes into the sorted prefix. */
  lemma SortSnoc(p: seq<int>, x: int)
    ensures SortInts(p + [x]) == Insert(SortInts(p), x)
  {
    assert (p + [x])[..|p|] == p;
  }

  lemma InsertStrict(s: seq<int>, x: int)
    requires StrictlySorted(s) && x !in s
    ensures StrictlySorted(Insert(s, x))
    ensures Remove(Insert(s, x), x) == s
  {
    InsertKeepsStrict(s, x);
    InsertThenRemove(s, x);
  }

  lemma {:induction false} InsertKeepsStrict(s: seq<int>, x: int)
    requires StrictlySorted(s) && x !in s
    ensures StrictlySorted(Insert(s, x))
    decreases |s|
  {
    if |s| > 0 && x > s[0] {
      var tail := s[1..];
      assert s == [s[0]] + tail;
      assert StrictlySorted(tail) && x !in tail;
      InsertKeepsStrict(tail, x);
      var rest := Insert(tail, x);
      forall y | y in rest
        ensures s[0] < y
      {
        if y != x {
          HeadBelowTail(s, y);
        }
      }
      ConsSorted(s[0], rest);
    } else if |s| > 0 {
      assert x < s[0];
      forall y | y in s
        ensures x < y
      {
        var k :| 0 <= k < |s| && s[k] == y;
        assert s[0] <= s[k];
      }
      ConsSorted(x, s);
    }
  }

  lemma {:induction false} InsertThenRemove(s: seq<int>, x: int)
    requires x !in s
    ensures Remove(Insert(s, x), x) == s
    decreases |s|
  {
    if |s| > 0 && x > s[0] {
      InsertThenRemove(s[1..], x);
      assert s == [s[0]] + s[1..];
    } else if |s| > 0 {
      RemoveUnchanged(s, x);
    }
  }

  lemma {:induction false} InsertAbove(s: seq<int>, x: int)
    requires forall i :: 0 <= i < |s| ==> s[i] < x
    ensures Insert(s, x) == s + [x]
    decreases |s|
  {
    if |s| > 0 {
      InsertAbove(s[1..], x);
      assert s == [s[0]] + s[1..];
    }
  }

  /** Sorting keeps a strictly ascending sequence as it is. */
  lemma {:induction false} SortSorted(s: seq<int>)
    requires StrictlySorted(s)
    ensures SortInts(s) == s
    decreases |s|
  {
    if |s| > 0 {
      var p, x := s[..|s| - 1], s[|s| - 1];
      SplitLast(s);
      SortSorted(p);
      SortSnoc(p, x);
      InsertAbove(p, x);
    }
  }

  /** Appending a value and sorting is inserting it into the sorted list. */
  lemma SortAppend(s: seq<int>, x: int)
    requires StrictlySorted(s)
    ensures SortInts(s + [x]) == Insert(s, x)
  {
    SortSnoc(s, x);
    SortSorted(s);
  }

  lemma {:induction false} RemoveSorted(s: seq<int>, x: int)
    requires StrictlySorted(s)
    ensures StrictlySorted(Remove(s, x))
    decreases |s|
  {
    if |s| > 0 {
      RemoveSorted(s[1..], x);
      if s[0] != x {
        forall y | y in Remove(s[1..], x)
          ensures s[0] < y
        {
          HeadBelowTail(s, y);
        }
        ConsSorted(s[0], Remove(s[1..], x));
      }
    }
  }

  lemma HeadBelowTail(s: seq<int>, y: int)
    requires StrictlySorted(s) && |s| > 0 && y in s[1..]
    ensures s[0] < y
  {
    var k :| 0 <= k < |s[1..]| && s[1..][k] == y;
    assert s[k + 1] == y;
  }

  lemma ConsSorted(a: int, t: seq<int>)
    requires StrictlySorted(t)
    requires forall y :: y in t ==> a < y
    ensures StrictlySorted([a] + t)
  {
    forall i, j | 0 <= i < j < |[a] + t|
      ensures ([a] + t)[i] < ([a] + t)[j]
    {
      assert ([a] + t)[j] == t[j - 1];
      if i == 0 {
        assert t[j - 1] in t;
      } else {
        assert ([a] + t)[i] == t[i - 1];
      }
    }
  }

  lemma {:induction false} InsertRemove(s: seq<int>, x: int)
    requires StrictlySorted(s) && x in s
    ensures Insert(Remove(s, x), x) == s
    decreases |s|
  {
    var tail := s[1..];
    assert s == [s[0]] + tail;
    if s[0] == x {
      if x in tail {
        HeadBelowTail(s, x);
      }
      RemoveUnchanged(tail, x);
      if |tail| > 0 {
        assert s[0] < s[1];
        assert tail[0] == s[1];
      }
    } else {
      assert x in tail;
      HeadBelowTail(s, x);
      var rest := Remove(tail, x);
      assert Remove(s, x) == [s[0]] + rest;
      assert ([s[0]] + rest)[1..] == rest;
      InsertRemove(tail, x);
    }
  }

  lemma RemoveUnchanged(s: seq<int>, x: int)
    requires x !in s
    ensures Remove(s, x) == s
  {
  }

  /** `toggleDay`: a chosen weekday is dropped, a new one is added and the
      list re-sorted. */
  function ToggleDay(days: seq<int>, d: int): (r: seq<int>)
    ensures d in r <==> d !in days
    ensures forall e :: e != d ==> (e in r <==> e in days)
    ensures StrictlySorted(days) ==> StrictlySorted(r)
  {
    if d in days then
      assert StrictlySorted(days) ==> StrictlySorted(Remove(days, d)) by {
        if StrictlySorted(days) {
          RemoveSorted(days, d);
        }
      }
      Remove(days, d)
    else
      assert StrictlySorted(days) ==> StrictlySorted(SortInts(days + [d])) by {
        if StrictlySorted(days) {
          SortAppend(days, d);
          InsertStrict(days, d);
        }
      }
      SortInts(days + [d])
  }

  /** Toggling the same weekday twice gives back the very same ascending
      list of weekdays. */
  lemma ToggleDayTwice(days: seq<int>, d: int)
    requires StrictlySorted(days)
    ensures ToggleDay(ToggleDay(days, d), d) == days
  {
    if d in days {
      var r := Remove(days, d);
      RemoveSorted(days, d);
      SortAppend(r, d);
      InsertRemove(days, d);
    } else {
      SortAppend(days, d);
      InsertStrict(days, d);
    }
  }
}
