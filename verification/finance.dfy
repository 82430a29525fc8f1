/** The payments page: the amount charged for the chosen services, the
    create guard and payload, the overdue / due-soon buckets and the
    pending total. Amounts are whole cents; dates are `YYYY-MM-DD` text
    compared as JavaScript compares strings. */
module Finance {
  import opened Values
  import opened Lists
  import opened Text

  /** A service as the payments page sees it; `price_cents` may be absent. */
  datatype PricedService = PricedService(id: int, priceCents: Option<int>)

  function PriceOf(s: PricedService): int {
    s.priceCents.GetOr(0)
  }

  function TotalPrice(services: seq<PricedService>): int {
    if |services| == 0 then 0 else PriceOf(services[0]) + TotalPrice(services[1..])
  }

  lemma {:induction false} TotalPriceConcat(a: seq<PricedService>, b: seq<PricedService>)
    ensures TotalPrice(a + b) == TotalPrice(a) + TotalPrice(b)
    decreases |a|
  {
    if |a| > 0 {
      assert (a + b)[0] == a[0] && (a + b)[1..] == a[1..] + b;
      TotalPriceConcat(a[1..], b);
    } else {
      assert a + b == b;
    }
  }

  /** The effect that recomputes `amountCents`: the sum of `price_cents`
      (absent counts 0) over the services whose id was selected. */
  function AmountCents(services: seq<PricedService>, selected: seq<int>): (r: int)
    ensures (forall i :: 0 <= i < |services| ==> services[i].priceCents.GetOr(0) >= 0) ==> r >= 0
  {
    AmountNonNegative(services, selected);
    TotalPrice(Filter(services, (s: PricedService) => s.id in selected))
  }

  lemma {:induction false} AmountNonNegative(services: seq<PricedService>, selected: seq<int>)
    ensures (forall i :: 0 <= i < |services| ==> services[i].priceCents.GetOr(0) >= 0) ==>
      TotalPrice(Filter(services, (s: PricedService) => s.id in selected)) >= 0
    decreases |services|
  {
    if |services| > 0 {
      AmountNonNegative(services[1..], selected);
      assert forall i :: 1 <= i < |services| ==> services[1..][i - 1] == services[i];
    }
  }

  /** The amount is a sum over the service list in which each service counts
      its price once when its id was selected and nothing otherwise. */
  function SelectedSum(services: seq<PricedService>, selected: seq<int>): int {
    if |services| == 0 then 0
    else (if services[0].id in selected then PriceOf(services[0]) else 0) + SelectedSum(services[1..], selected)
  }

  lemma {:induction false} AmountIsSelectedSum(services: seq<PricedService>, selected: seq<int>)
    ensures AmountCents(services, selected) == SelectedSum(services, selected)
    decreases |services|
  {
    if |services| > 0 {
      AmountIsSelectedSum(services[1..], selected);
      assert services == [services[0]] + services[1..];
      FilterConcat([services[0]], services[1..], (s: PricedService) => s.id in selected);
      TotalPriceConcat(Filter([services[0]], (s: PricedService) => s.id in selected),
                       Filter(services[1..], (s: PricedService) => s.id in selected));
    }
  }

  /** Only which ids are selected matters: order and repetition of the
      selection never change the amount. */
  lemma AmountDependsOnIdSet(services: seq<PricedService>, a: seq<int>, b: seq<int>)
    requires forall x :: x in a <==> x in b
    ensures AmountCents(services, a) == AmountCents(services, b)
  {
    FilterSame(services, (s: PricedService) => s.id in a, (s: PricedService) => s.id in b);
  }

  /** The "Adicionar" button: a blank choice does nothing; a chosen id is
      appended unless already selected. */
  function AddService(selected: seq<int>, serviceId: string): (r: seq<int>)
    ensures forall x :: x in r <==> x in selected || (serviceId != "" && ToNumber(serviceId) == Finite(x))
    ensures NoDuplicates(selected) ==> NoDuplicates(r)
    ensures |r| <= |selected| + 1
  {
    if serviceId == "" then selected
    else match ToNumber(serviceId)
      case Finite(n) => if n in selected then selected else selected + [n]
      case Other => selected
  }

  /** Adding a service already charged leaves the amount unchanged. */
  lemma AddSelectedAgain(services: seq<PricedService>, selected: seq<int>, id: int)
    requires id in selected
    ensures AmountCents(services, AddService(selected, IntToString(id))) == AmountCents(services, selected)
  {
    ToNumberOfIntToString(id);
  }

  /** The chip's close button drops the id; the amount loses exactly that
      service's price once for every listed service with that id. */
  lemma RemoveServiceAmount(services: seq<PricedService>, selected: seq<int>, id: int)
    ensures AmountCents(services, Remove(selected, id)) ==
      AmountCents(services, selected) - SelectedSum(Filter(services, (s: PricedService) => s.id == id), selected)
  {
    AmountIsSelectedSum(services, Remove(selected, id));
    AmountIsSelectedSum(services, selected);
    RemoveSum(services, selected, id);
  }

  lemma {:induction false} RemoveSum(services: seq<PricedService>, selected: seq<int>, id: int)
    ensures SelectedSum(services, Remove(selected, id)) ==
      SelectedSum(services, selected) - SelectedSum(Filter(services, (s: PricedService) => s.id == id), selected)
    decreases |services|
  {
    if |services| > 0 {
      RemoveSum(services[1..], selected, id);
      if services[0].id == id {
        assert Filter(services, (s: PricedService) => s.id == id)
          == [services[0]] + Filter(services[1..], (s: PricedService) => s.id == id);
        assert ([services[0]] + Filter(services[1..], (s: PricedService) => s.id == id))[1..]
          == Filter(services[1..], (s: PricedService) => s.id == id);
      } else {
        assert Filter(services, (s: PricedService) => s.id == id)
          == Filter(services[1..], (s: PricedService) => s.id == id);
      }
    }
  }

  lemma {:induction false} SelectedSumOfNone(services: seq<PricedService>)
    ensures SelectedSum(services, []) == 0
    decreases |services|
  {
    if |services| > 0 {
      SelectedSumOfNone(services[1..]);
    }
  }

  lemma {:induction false} SelectedSumConcat(a: seq<PricedService>, b: seq<PricedService>, selected: seq<int>)
    ensures SelectedSum(a + b, selected) == SelectedSum(a, selected) + SelectedSum(b, selected)
    decreases |a|
  {
    if |a| > 0 {
      assert (a + b)[0] == a[0] && (a + b)[1..] == a[1..] + b;
      SelectedSumConcat(a[1..], b, selected);
    } else {
      assert a + b == b;
    }
  }

  datatype Status = Pending | Paid | Overdue | Cancelled

  datatype Payment = Payment(id: int, amountCents: int, dueDate: string, status: Status)

  /** `a >= b` and `a <= b` on strings. */
  predicate StrAtLeast(a: string, b: string) {
    !StrLess(a, b)
  }

  predicate StrAtMost(a: string, b: string) {
    !StrLess(b, a)
  }

  /** `reminder_days ?? 0`. */
  function ReminderDays(setting: Option<int>): (r: int)
    ensures setting.None? ==> r == 0
    ensures setting.Some? ==> r == setting.value
  {
    setting.GetOr(0)
  }

  /** Pending payments due from `today` up to `limit` (both inclusive);
      `today` and `limit` are the `YYYY-MM-DD` texts the page derives from
      the clock and the reminder setting. */
  function DueSoon(payments: seq<Payment>, today: string, limit: string): (r: seq<Payment>)
    ensures forall p :: p in r <==> p in payments && p.status == Pending && StrAtLeast(p.dueDate, today) && StrAtMost(p.dueDate, limit)
    ensures |r| <= |payments|
  {
    Filter(payments, (p: Payment) => p.status == Pending && StrAtLeast(p.dueDate, today) && StrAtMost(p.dueDate, limit))
  }

  /** Pending payments due before `today`. */
  function OverdueOf(payments: seq<Payment>, today: string): (r: seq<Payment>)
    ensures forall p :: p in r <==> p in payments && p.status == Pending && StrLess(p.dueDate, today)
    ensures |r| <= |payments|
  {
    Filter(payments, (p: Payment) => p.status == Pending && StrLess(p.dueDate, today))
  }

  function DueSoonTest(today: string, limit: string): Payment -> bool {
    (p: Payment) => p.status == Pending && StrAtLeast(p.dueDate, today) && StrAtMost(p.dueDate, limit)
  }

  function OverdueTest(today: string): Payment -> bool {
    (p: Payment) => p.status == Pending && StrLess(p.dueDate, today)
  }

  /** The "Vencendo em breve" list keeps the payments' order and holds each
      qualifying payment as often as the list does, so the card's count is
      the number of qualifying entries. */
  lemma DueSoonInOrder(payments: seq<Payment>, today: string, limit: string)
    ensures Subsequence(DueSoon(payments, today, limit), payments)
    ensures forall p ::
      multiset(DueSoon(payments, today, limit))[p]
        == if p.status == Pending && StrAtLeast(p.dueDate, today) && StrAtMost(p.dueDate, limit) then multiset(payments)[p] else 0
  {
    var keep := DueSoonTest(today, limit);
    assert DueSoon(payments, today, limit) == Filter(payments, keep);
    FilterInOrder(payments, keep);
    forall p: Payment
      ensures multiset(Filter(payments, keep))[p] == if keep(p) then multiset(payments)[p] else 0
    {
      FilterCounts(payments, keep, p);
    }
  }

  /** The same for the "Em atraso" list. */
  lemma OverdueInOrder(payments: seq<Payment>, today: string)
    ensures Subsequence(OverdueOf(payments, today), payments)
    ensures forall p ::
      multiset(OverdueOf(payments, today))[p]
        == if p.status == Pending && StrLess(p.dueDate, today) then multiset(payments)[p] else 0
  {
    var keep := OverdueTest(today);
    assert OverdueOf(payments, today) == Filter(payments, keep);
    FilterInOrder(payments, keep);
    forall p: Payment
      ensures multiset(Filter(payments, keep))[p] == if keep(p) then multiset(payments)[p] else 0
    {
      FilterCounts(payments, keep, p);
    }
  }

  /** No payment is both overdue and due soon, and a payment that is not
      pending is in neither bucket. */
  lemma BucketsDisjoint(payments: seq<Payment>, today: string, limit: string, p: Payment)
    ensures !(p in OverdueOf(payments, today) && p in DueSoon(payments, today, limit))
    ensures p.status != Pending ==> p !in OverdueOf(payments, today) && p !in DueSoon(payments, today, limit)
  {
  }

  /** Every pending payment falls in exactly one of: overdue, due soon, or
      due after the limit (when the limit is not before today). */
  lemma PendingClassified(payments: seq<Payment>, today: string, limit: string, p: Payment)
    requires p in payments && p.status == Pending
    requires StrAtMost(today, limit)
    ensures p in OverdueOf(payments, today) || p in DueSoon(payments, today, limit) || StrLess(limit, p.dueDate)
    ensures StrLess(limit, p.dueDate) ==> p !in OverdueOf(payments, today) && p !in DueSoon(payments, today, limit)
  {
    StrLessTrichotomy(p.dueDate, today);
    if StrLess(limit, p.dueDate) && StrLess(p.dueDate, today) {
      StrLessTransitive(limit, p.dueDate, today);
      StrLessTrichotomy(limit, today);
    }
  }

  /** A limit before today (a negative reminder setting) leaves nothing due
      soon. */
  lemma DueSoonEmptyBeforeToday(payments: seq<Payment>, today: string, limit: string)
    requires StrLess(limit, today)
    ensures DueSoon(payments, today, limit) == []
  {
    if DueSoon(payments, today, limit) != [] {
      assert DueSoon(payments, today, limit)[0] in DueSoon(payments, today, limit);
      NotBetween(DueSoon(payments, today, limit)[0].dueDate, today, limit);
    }
  }

  lemma NotBetween(d: string, today: string, limit: string)
    requires StrLess(limit, today)
    ensures !(StrAtLeast(d, today) && StrAtMost(d, limit))
  {
    StrLessTrichotomy(d, today);
    StrLessTrichotomy(limit, today);
    if StrLess(today, d) {
      StrLessTransitive(limit, today, d);
    }
  }

  function AmountTotal(payments: seq<Payment>): int {
    if |payments| == 0 then 0 else payments[0].amountCents + AmountTotal(payments[1..])
  }

  /** The "Total pendente" card, in cents. */
  function PendingTotal(payments: seq<Payment>): int {
    AmountTotal(Filter(payments, (p: Payment) => p.status == Pending))
  }

  /** Reference: each pending payment counts its amount once, every other
      payment counts nothing. */
  function PendingSum(payments: seq<Payment>): int {
    if |payments| == 0 then 0
    else (if payments[0].status == Pending then payments[0].amountCents else 0) + PendingSum(payments[1..])
  }

  lemma {:induction false} AmountTotalConcat(a: seq<Payment>, b: seq<Payment>)
    ensures AmountTotal(a + b) == AmountTotal(a) + AmountTotal(b)
    decreases |a|
  {
    if |a| > 0 {
      assert (a + b)[0] == a[0] && (a + b)[1..] == a[1..] + b;
      AmountTotalConcat(a[1..], b);
    } else {
      assert a + b == b;
    }
  }

  lemma {:induction false} PendingTotalIsPendingSum(payments: seq<Payment>)
    ensures PendingTotal(payments) == PendingSum(payments)
    decreases |payments|
  {
    if |payments| > 0 {
      PendingTotalIsPendingSum(payments[1..]);
      assert payments == [payments[0]] + payments[1..];
      FilterConcat([payments[0]], payments[1..], (p: Payment) => p.status == Pending);
      AmountTotalConcat(Filter([payments[0]], (p: Payment) => p.status == Pending),
                        Filter(payments[1..], (p: Payment) => p.status == Pending));
    }
  }

  /** Settling one pending payment lowers the pending total by its amount. */
  lemma {:induction false} SettleLowersPending(before: seq<Payment>, p: Payment, after: seq<Payment>)
    requires p.status == Pending
    ensures PendingSum(before + [p] + after) == PendingSum(before + [p.(status := Paid)] + after) + p.amountCents
    decreases |before|
  {
    if |before| > 0 {
      assert (before + [p] + after)[1..] == before[1..] + [p] + after;
      assert (before + [p.(status := Paid)] + after)[1..] == before[1..] + [p.(status := Paid)] + after;
      SettleLowersPending(before[1..], p, after);
    } else {
      assert (before + [p] + after)[1..] == after;
      assert (before + [p.(status := Paid)] + after)[1..] == after;
    }
  }

  /** "Marcar pago" is offered for every payment not yet paid. */
  predicate CanMarkPaid(p: Payment) {
    p.status != Paid
  }

  /** `handleMarkPaid(id)` followed by the refresh, with the server applying
      the `{ status: "paid" }` patch: the payment with that id becomes paid
      and every other payment comes back unchanged. */
  function MarkPaid(payments: seq<Payment>, id: int): (r: seq<Payment>)
    ensures |r| == |payments|
    ensures forall i :: 0 <= i < |r| ==> r[i] == payments[i].(status := r[i].status)
    ensures forall i :: 0 <= i < |r| ==> if payments[i].id == id then !CanMarkPaid(r[i]) else r[i] == payments[i]
  {
    if |payments| == 0 then []
    else
      var head := if payments[0].id == id then payments[0].(status := Paid) else payments[0];
      var rest := MarkPaid(payments[1..], id);
      assert forall i :: 1 <= i < |payments| ==> ([head] + rest)[i] == rest[i - 1];
      [head] + rest
  }

  function HasId(id: int): Payment -> bool {
    (p: Payment) => p.id == id
  }

  /** Marking a payment paid takes exactly the pending amounts filed under
      that id off the "Total pendente" card. */
  lemma {:induction false} MarkPaidLowersPending(payments: seq<Payment>, id: int)
    ensures PendingSum(MarkPaid(payments, id)) == PendingSum(payments) - PendingSum(Filter(payments, HasId(id)))
    decreases |payments|
  {
    if |payments| > 0 {
      MarkPaidLowersPending(payments[1..], id);
      var kept := Filter(payments[1..], HasId(id));
      if payments[0].id == id {
        assert Filter(payments, HasId(id)) == [payments[0]] + kept;
        assert ([payments[0]] + kept)[1..] == kept;
      }
    }
  }

  /** Marking the same payment paid twice is the same as once. */
  lemma {:induction false} MarkPaidIdempotent(payments: seq<Payment>, id: int)
    ensures MarkPaid(MarkPaid(payments, id), id) == MarkPaid(payments, id)
    decreases |payments|
  {
    if |payments| > 0 {
      MarkPaidIdempotent(payments[1..], id);
    }
  }

  /** The "Novo pagamento" form. */
  datatype PaymentForm = PaymentForm(
    patientId: string, serviceId: string, selected: seq<int>, dueDate: string,
    payMethod: string, notes: string, status: Status, amountCents: int)

  datatype PaymentPost = PaymentPost(
    patientId: JsNumber, amountCents: int, dueDate: string, status: Status,
    payMethod: Option<string>, notes: Option<string>)

  const PaymentFieldsMessage: string := "Preencha paciente, vencimento e valor."

  /** `handleCreate`: refused without a patient, a due date or a positive
      amount; otherwise the payload with blank method and notes sent as
      null. */
  function CreatePayment(f: PaymentForm): (r: Result<PaymentPost, string>)
    ensures r.Err? <==> f.patientId == "" || f.dueDate == "" || f.amountCents <= 0
    ensures r.Err? ==> r.error == PaymentFieldsMessage
    ensures r.Ok? ==> && r.value.patientId == ToNumber(f.patientId)
                      && r.value.amountCents == f.amountCents > 0
                      && r.value.dueDate == f.dueDate != ""
                      && r.value.status == f.status
                      && r.value.payMethod.GetOr("") == f.payMethod && (r.value.payMethod.None? <==> f.payMethod == "")
                      && r.value.notes.GetOr("") == f.notes && (r.value.notes.None? <==> f.notes == "")
  {
    if f.patientId == "" || f.dueDate == "" || f.amountCents <= 0 then Err(PaymentFieldsMessage)
    else Ok(PaymentPost(ToNumber(f.patientId), f.amountCents, f.dueDate, f.status, OrNull(f.payMethod), OrNull(f.notes)))
  }

  /** The form after a recorded payment: the patient stays, everything else
      is cleared and the amount follows the now empty selection. */
  function AfterRecorded(f: PaymentForm, services: seq<PricedService>): (r: PaymentForm)
    ensures r.patientId == f.patientId && r.selected == [] && r.dueDate == "" && r.status == Pending
    ensures r.serviceId == "" && r.payMethod == "" && r.notes == ""
  {
    PaymentForm(f.patientId, "", [], "", "", "", Pending, AmountCents(services, []))
  }

  /** Submitting again right after a payment is recorded is refused. */
  lemma ResubmitRefused(f: PaymentForm, services: seq<PricedService>)
    ensures CreatePayment(AfterRecorded(f, services)) == Err(PaymentFieldsMessage)
    ensures AfterRecorded(f, services).amountCents == 0
  {
    AmountIsSelectedSum(services, []);
    SelectedSumOfNone(services);
  }
}
