/** The searchable drop-down used by every form: which label the closed
    box shows, which options the open list offers for a query, and how
    choosing, toggling and closing move its state. */
module SearchSelect {
  import opened Values
  import opened Lists
  import opened Text

  /** An option's `value`: text, or an integer (ids). */
  datatype ChoiceValue = TextValue(s: string) | NumberValue(n: int)

  /** `String(option.value)`. */
  function ValueText(v: ChoiceValue): (r: string)
    ensures v.TextValue? ==> r == v.s
  {
    match v
    case TextValue(s) => s
    case NumberValue(n) => IntToString(n)
  }

  datatype Choice = Choice(caption: string, value: ChoiceValue)

  /** Position of the first option whose value reads as `value`, or the
      length of the list. */
  function FirstMatch(options: seq<Choice>, value: string): (i: nat)
    ensures i <= |options|
    ensures i < |options| ==> ValueText(options[i].value) == value
    ensures forall j :: 0 <= j < i ==> ValueText(options[j].value) != value
  {
    FirstMatchFrom(options, value, 0)
  }

  /** The search from position `from` on, every earlier option having
      failed. */
  function FirstMatchFrom(options: seq<Choice>, value: string, from: nat): (i: nat)
    requires from <= |options|
    requires forall j :: 0 <= j < from ==> ValueText(options[j].value) != value
    ensures from <= i <= |options|
    ensures i < |options| ==> ValueText(options[i].value) == value
    ensures forall j :: 0 <= j < i ==> ValueText(options[j].value) != value
    decreases |options| - from
  {
    if from == |options| || ValueText(options[from].value) == value then from
    else FirstMatchFrom(options, value, from + 1)
  }

  /** `selectedLabel`: the label of the first option whose value reads as
      `value`, otherwise `""`. */
  function SelectedLabel(options: seq<Choice>, value: string): (r: string)
    ensures (forall j :: 0 <= j < |options| ==> ValueText(options[j].value) != value) ==> r == ""
    ensures forall i ::
      (0 <= i < |options| && ValueText(options[i].value) == value
       && forall j :: 0 <= j < i ==> ValueText(options[j].value) != value) ==> r == options[i].caption
  {
    if FirstMatch(options, value) < |options| then options[FirstMatch(options, value)].caption else ""
  }

  /** Option values that read alike only when they are the same option. */
  predicate DistinctValues(options: seq<Choice>) {
    forall i, j :: 0 <= i < j < |options| ==> ValueText(options[i].value) != ValueText(options[j].value)
  }

  /** `filtered`: every option when the list is not searchable or the query
      is blank; otherwise, in order, the options whose lower-cased label
      contains the lower-cased query (untrimmed). */
  function Filtered(options: seq<Choice>, query: string, searchable: bool): (r: seq<Choice>)
    ensures !searchable || AllSpace(query) ==> r == options
    ensures searchable && !AllSpace(query) ==>
      forall o :: o in r <==> o in options && Contains(Lower(o.caption), Lower(query))
    ensures |r| <= |options|
  {
    TrimBlank(query);
    if !searchable || Trim(query) == "" then options
    else Filter(options, (o: Choice) => Contains(Lower(o.caption), Lower(query)))
  }

  /** Filtering what is already filtered by the same query changes
      nothing. */
  lemma FilteredIdempotent(options: seq<Choice>, query: string, searchable: bool)
    ensures Filtered(Filtered(options, query, searchable), query, searchable) == Filtered(options, query, searchable)
  {
    if searchable && !AllSpace(query) {
      TrimBlank(query);
      FilterAll(Filter(options, (o: Choice) => Contains(Lower(o.caption), Lower(query))),
                (o: Choice) => Contains(Lower(o.caption), Lower(query)));
    }
  }

  /** A query keeps the options' order, and each matching option appears
      as often as the list holds it. */
  lemma FilteredInOrder(options: seq<Choice>, query: string, searchable: bool)
    ensures Subsequence(Filtered(options, query, searchable), options)
    ensures searchable && !AllSpace(query) ==> forall o ::
      multiset(Filtered(options, query, searchable))[o]
        == if Contains(Lower(o.caption), Lower(query)) then multiset(options)[o] else 0
  {
    var keep := (o: Choice) => Contains(Lower(o.caption), Lower(query));
    FilterInOrder(options, keep);
    SubsequenceOfSelf(options);
    forall o: Choice
      ensures multiset(Filter(options, keep))[o] == if keep(o) then multiset(options)[o] else 0
    {
      FilterCounts(options, keep, o);
    }
    TrimBlank(query);
  }

  /** The drop-down's own state. */
  datatype Picker = Picker(open: bool, query: string)

  /** What the user can do: click the box, type in the search input, pick
      an option, or click outside the open list. */
  datatype Gesture = ClickBox | TypeQuery(text: string) | Pick(option: Choice) | ClickOutside

  /** The effect that clears the query whenever the list is closed. */
  function Settle(p: Picker): (r: Picker)
    ensures r.open == p.open
    ensures !r.open ==> r.query == ""
    ensures r.open ==> r == p
  {
    if p.open then p else p.(query := "")
  }

  /** A state the effect has settled: a closed list has no query. */
  predicate Settled(p: Picker) {
    p.open || p.query == ""
  }

  /** One gesture: the new state and the value passed to `onChange`, if
      any. Clicking the box toggles the list unless disabled; typing only
      reaches the input while the list is open; picking emits the option's
      value as text and closes the list. */
  function Step(p: Picker, g: Gesture, disabled: bool): (r: (Picker, Option<string>))
    ensures Settled(r.0)
    ensures g.Pick? && p.open ==> r.1 == Some(ValueText(g.option.value)) && !r.0.open
    ensures !g.Pick? || !p.open ==> r.1.None?
    ensures g.ClickBox? && !disabled ==> r.0.open == !p.open
    ensures g.ClickBox? && disabled ==> r.0 == Settle(p)
  {
    match g
    case ClickBox => (Settle(if disabled then p else p.(open := !p.open)), None)
    case TypeQuery(text) => (Settle(if p.open then p.(query := text) else p), None)
    case Pick(option) =>
      if p.open then (Settle(p.(open := false)), Some(ValueText(option.value)))
      else (Settle(p), None)
    case ClickOutside => (Settle(p.(open := false)), None)
  }

  /** After a pick, the closed box shows the picked option's label, when
      option values are distinct. */
  lemma PickShowsLabel(options: seq<Choice>, i: int, p: Picker, disabled: bool)
    requires 0 <= i < |options| && DistinctValues(options)
    requires p.open
    ensures SelectedLabel(options, Step(p, Pick(options[i]), disabled).1.value) == options[i].caption
  {
  }

  /** Reopening after a pick offers the whole list again. */
  lemma ReopenShowsAll(options: seq<Choice>, o: Choice, p: Picker, searchable: bool)
    requires p.open
    ensures Step(Step(p, Pick(o), false).0, ClickBox, false).0.open
    ensures Filtered(options, Step(Step(p, Pick(o), false).0, ClickBox, false).0.query, searchable) == options
  {
  }
}
