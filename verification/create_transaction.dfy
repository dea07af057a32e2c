/**
 * The transaction creation page: its React state and form values, the
 * handlers that update them, the effect that derives profit for credit
 * entries, the form schema's validation, and the draft built on submit.
 *
 * The page's state is a FormState value; each handler is a function from the
 * old state to the new one. React re-runs the profit effect after any render
 * in which its dependencies changed; since the effect is idempotent
 * (ProfitEffect's last postcondition), running it after every event, as Step
 * does, gives the same states.
 */
module CreateTransaction {
  import opened Wrappers
  import opened Schema
  import opened CreditCatalog

  /** The page's `transactionType` state. */
  datatype Kind = Credit | Debit

  /** The text stored in the `type` column for each kind. */
  function KindText(k: Kind): (s: string)
    ensures s == CreditText <==> k == Credit
    ensures s == DebitText <==> k == Debit
  {
    match k
    case Credit => CreditText
    case Debit => DebitText
  }

  /**
   * A numeric form field: `Unset` is `undefined`, `NaN` what a number input
   * registered with `valueAsNumber` holds when empty or unreadable, `Num(v)` a
   * number.
   */
  datatype Input<T> = Unset | NaN | Num(v: T)

  /** The field holds a number greater than zero. */
  predicate PositiveReal(x: Input<real>) {
    x.Num? && x.v > 0.0
  }

  /** `x || 0`: undefined, NaN and zero are all falsy and give 0. */
  function RealOrZero(x: Input<real>): (r: real)
    ensures PositiveReal(x) ==> r == x.v
    ensures !x.Num? ==> r == 0.0
  {
    if x.Num? then x.v else 0.0
  }

  /** `x || 0` on an integer field. */
  function IntOrZero(x: Input<int>): (r: int)
    ensures x.Num? && x.v > 0 ==> r == x.v
    ensures !x.Num? ==> r == 0
  {
    if x.Num? then x.v else 0
  }

  /** The react-hook-form values. */
  datatype FormValues = FormValues(
    formType: Kind,
    subType: string,
    amount: Input<real>,
    rate: Input<real>,
    quantity: Input<int>,
    index: int,
    profit: real)

  /**
   * The values `useForm`'s defaults and `form.reset` put in place for a type:
   * every field the schema checks starts out rejected.
   */
  function DefaultValues(k: Kind): (v: FormValues)
    ensures v.formType == k
    ensures Errors(v) == {SubTypeField, AmountField, RateField, QuantityField}
    ensures v.index == 0 && v.profit == 0.0
  {
    FormValues(k, "", Num(0.0), Num(0.0), Num(0), 0, 0.0)
  }

  /**
   * The page's React state together with its form values, and `shown`, the
   * item the mounted type selector displays. Neither selector is given a
   * `value`, so each keeps its own pick until its form block unmounts, which
   * happens only when the type changes; it reports a pick to its handler
   * only when the pick differs from the item it displays.
   */
  datatype FormState = FormState(
    transactionType: Kind,
    selectedCreditType: Option<CreditType>,
    calculatedProfit: Option<real>,
    values: FormValues,
    shown: Option<string>)

  /** The state when the page is first shown. */
  const Initial: FormState := FormState(Credit, None, None, DefaultValues(Credit), None)

  // ---------------------------------------------------------------------
  // Profit derivation
  // ---------------------------------------------------------------------

  /** `amount - rate * index` when rate and amount are both positive numbers; no profit otherwise. */
  function DerivedProfit(rate: Input<real>, amount: Input<real>, index: int): (r: Option<real>)
    ensures r.Some? <==> PositiveReal(rate) && PositiveReal(amount)
    ensures r.Some? ==> r.value + rate.v * index as real == amount.v
  {
    if PositiveReal(rate) && PositiveReal(amount) then Some(amount.v - rate.v * index as real) else None
  }

  /**
   * For a credit entry with a selected catalog type, the displayed profit is
   * the derived one and the form's `profit` value is that profit, or 0 when
   * there is none.
   */
  predicate ProfitUpToDate(s: FormState) {
    s.transactionType == Credit && s.selectedCreditType.Some? ==>
      && s.calculatedProfit == DerivedProfit(s.values.rate, s.values.amount, s.selectedCreditType.value.index)
      && s.values.profit == s.calculatedProfit.GetOr(0.0)
  }

  /** The `useEffect` that computes profit for credit entries. */
  function ProfitEffect(s: FormState): (r: FormState)
    ensures ProfitUpToDate(r)
    ensures r.transactionType == s.transactionType && r.selectedCreditType == s.selectedCreditType
    ensures r.shown == s.shown
    ensures r.values == s.values.(profit := r.values.profit)
    ensures !(s.transactionType == Credit && s.selectedCreditType.Some?) ==> r == s
    ensures ProfitUpToDate(s) ==> r == s
  {
    if s.transactionType == Credit && s.selectedCreditType.Some? then
      var rate := s.values.rate;
      var amount := s.values.amount;
      if PositiveReal(rate) && PositiveReal(amount) then
        var profit := amount.v - rate.v * s.selectedCreditType.value.index as real;
        s.(calculatedProfit := Some(profit), values := s.values.(profit := profit))
      else
        s.(calculatedProfit := None, values := s.values.(profit := 0.0))
    else
      s
  }

  /** Running the effect twice is running it once. */
  lemma ProfitEffectIdempotent(s: FormState)
    ensures ProfitEffect(ProfitEffect(s)) == ProfitEffect(s)
  {
  }

  /** With a positive rate and amount, the profit is `amount - rate * index`, whatever its sign. */
  lemma DerivedProfitOfPositive(rate: Input<real>, amount: Input<real>, index: int)
    requires PositiveReal(rate) && PositiveReal(amount)
    ensures DerivedProfit(rate, amount, index) == Some(amount.v - rate.v * index as real)
  {
  }

  /** Profit is not clamped: a rate times index above the amount gives a negative profit. */
  lemma NegativeProfitIsKept(rate: real, amount: real, index: int)
    requires rate > 0.0 && amount > 0.0 && rate * index as real > amount
    ensures DerivedProfit(Num(rate), Num(amount), index).Some?
    ensures DerivedProfit(Num(rate), Num(amount), index).value < 0.0
  {
  }

  // ---------------------------------------------------------------------
  // Handlers
  // ---------------------------------------------------------------------

  /** `handleTransactionTypeChange`: sets the type and resets every field and the credit state. */
  function SwitchType(s: FormState, k: Kind): (r: FormState)
    ensures r.transactionType == k && r.values.formType == k
    ensures r.values == DefaultValues(k)
    ensures r.selectedCreditType == None && r.calculatedProfit == None
    ensures r.shown == s.shown
  {
    s.(transactionType := k, selectedCreditType := None, calculatedProfit := None, values := DefaultValues(k))
  }

  /** `handleCreditTypeChange`: selects the catalog entry with that selector value. */
  function PickCreditType(s: FormState, value: string): (r: FormState)
    ensures forall i :: 0 <= i < |CreditTypes| && CreditTypes[i].value == value ==>
      && r.selectedCreditType == Some(CreditTypes[i])
      && r.values.subType == CreditTypes[i].display
      && r.values.index == CreditTypes[i].index
    ensures (forall i :: 0 <= i < |CreditTypes| ==> CreditTypes[i].value != value) ==>
      r.selectedCreditType == None && r.values.subType == "" && r.values.index == 0
    ensures r.values == s.values.(subType := r.values.subType, index := r.values.index)
    ensures r.transactionType == s.transactionType && r.calculatedProfit == s.calculatedProfit
    ensures r.shown == s.shown
  {
    var ct := FindCreditType(value);
    forall i | 0 <= i < |CreditTypes| && CreditTypes[i].value == value
      ensures ct == Some(CreditTypes[i])
    {
      FindCreditTypeOfEntry(i);
    }
    s.(selectedCreditType := ct,
       values := s.values.(subType := if ct.Some? then ct.value.display else "",
                           index := if ct.Some? then ct.value.index else 0))
  }

  /** Picking a catalog entry's own value selects that entry and copies its label and index. */
  lemma PickCreditTypeOfEntry(s: FormState, i: nat)
    requires i < |CreditTypes|
    ensures PickCreditType(s, CreditTypes[i].value) ==
      s.(selectedCreditType := Some(CreditTypes[i]),
         values := s.values.(subType := CreditTypes[i].display, index := CreditTypes[i].index))
  {
  }

  /** The debit type selector writes the chosen label into `subType`. */
  function PickDebitType(s: FormState, display: string): (r: FormState)
    ensures r.values.subType == display
    ensures r == s.(values := s.values.(subType := display))
  {
    s.(values := s.values.(subType := display))
  }

  // ---------------------------------------------------------------------
  // User events
  // ---------------------------------------------------------------------

  /** What the user can do on the page. */
  datatype Event =
    | SwitchTo(kind: Kind)
    | PickCredit(value: string)
    | PickDebit(display: string)
    | EnterRate(rate: Input<real>)
    | EnterAmount(amount: Input<real>)
    | EnterQuantity(quantity: Input<int>)

  /**
   * The event reaches its handler: its control is on screen (the credit
   * selector and the rate input only for credit, the debit selector and the
   * quantity input only for debit), the selectors offer only their catalog
   * entries, and a selector reports only a pick other than the one it shows.
   */
  predicate Enabled(s: FormState, e: Event)
    ensures Enabled(s, e) && e.EnterRate? ==> HiddenField(s.transactionType) != RateField
    ensures Enabled(s, e) && e.EnterQuantity? ==> HiddenField(s.transactionType) != QuantityField
    ensures Enabled(s, e) && e.PickCredit? ==> FindCreditType(e.value).Some? && s.shown != Some(e.value)
    ensures Enabled(s, e) && e.PickDebit? ==> s.shown != Some(e.display)
  {
    match e
    case SwitchTo(_) => true
    case PickCredit(value) =>
      && s.transactionType == Credit && s.shown != Some(value)
      && exists i :: 0 <= i < |CreditTypes| && CreditTypes[i].value == value
    case PickDebit(display) =>
      && s.transactionType == Debit && s.shown != Some(display)
      && exists i :: 0 <= i < |DebitTypes| && DebitTypes[i].display == display
    case EnterRate(_) => s.transactionType == Credit
    case EnterAmount(_) => true
    case EnterQuantity(_) => s.transactionType == Debit
  }

  /**
   * The handler an event triggers, with the selector's own display: a
   * selector shows what was picked in it, and a type change remounts the
   * form block, whose new selector shows nothing.
   */
  function Handle(s: FormState, e: Event): (r: FormState)
    ensures !e.SwitchTo? ==> r.transactionType == s.transactionType && r.calculatedProfit == s.calculatedProfit
    ensures !e.SwitchTo? && !e.PickCredit? ==> r.selectedCreditType == s.selectedCreditType
    ensures e.SwitchTo? ==> r.shown == (if e.kind == s.transactionType then s.shown else None)
    ensures e.PickCredit? ==> r.shown == Some(e.value)
    ensures e.PickDebit? ==> r.shown == Some(e.display) && r.values == s.values.(subType := e.display)
    ensures e.EnterRate? ==> r.values == s.values.(rate := e.rate) && r.shown == s.shown
    ensures e.EnterAmount? ==> r.values == s.values.(amount := e.amount) && r.shown == s.shown
    ensures e.EnterQuantity? ==> r.values == s.values.(quantity := e.quantity) && r.shown == s.shown
  {
    match e
    case SwitchTo(k) => SwitchType(s, k).(shown := if k == s.transactionType then s.shown else None)
    case PickCredit(value) => PickCreditType(s, value).(shown := Some(value))
    case PickDebit(display) => PickDebitType(s, display).(shown := Some(display))
    case EnterRate(x) => s.(values := s.values.(rate := x))
    case EnterAmount(x) => s.(values := s.values.(amount := x))
    case EnterQuantity(x) => s.(values := s.values.(quantity := x))
  }

  /** An event followed by the profit effect. */
  function Step(s: FormState, e: Event): (r: FormState)
    ensures ProfitUpToDate(r)
  {
    ProfitEffect(Handle(s, e))
  }

  /** The state after a sequence of events. */
  function Run(s: FormState, es: seq<Event>): FormState
    decreases |es|
  {
    if es == [] then s else Run(Step(s, es[0]), es[1..])
  }

  /** Every event of the sequence is enabled in the state it meets. */
  predicate AllEnabled(s: FormState, es: seq<Event>)
    decreases |es|
  {
    es == [] || (Enabled(s, es[0]) && AllEnabled(Step(s, es[0]), es[1..]))
  }

  // ---------------------------------------------------------------------
  // Validation
  // ---------------------------------------------------------------------

  /** The fields `formSchema` can reject. */
  datatype Field = SubTypeField | AmountField | RateField | QuantityField

  /**
   * The fields `formSchema` rejects: an empty `subType`; an `amount` that is
   * not a positive number (undefined coerces to NaN); a `rate` or `quantity`
   * that is defined but not a positive number.
   */
  function Errors(v: FormValues): (r: set<Field>)
    ensures SubTypeField in r <==> v.subType == ""
    ensures AmountField in r <==> !PositiveReal(v.amount)
    ensures RateField in r <==> !(v.rate.Unset? || PositiveReal(v.rate))
    ensures QuantityField in r <==> !(v.quantity.Unset? || (v.quantity.Num? && v.quantity.v > 0))
  {
    (if |v.subType| < 1 then {SubTypeField} else {})
    + (if PositiveReal(v.amount) then {} else {AmountField})
    + (if v.rate.Unset? || PositiveReal(v.rate) then {} else {RateField})
    + (if v.quantity.Unset? || (v.quantity.Num? && v.quantity.v > 0) then {} else {QuantityField})
  }

  /** The field of the other type's form, which the page does not render. */
  function HiddenField(k: Kind): Field {
    match k
    case Credit => QuantityField
    case Debit => RateField
  }

  /** Validation restricted to the fields the current type's form renders. */
  function ErrorsFor(k: Kind, v: FormValues): (r: set<Field>)
    ensures r <= Errors(v)
    ensures HiddenField(k) !in r
    ensures forall f :: f != HiddenField(k) ==> (f in r <==> f in Errors(v))
  {
    Errors(v) - {HiddenField(k)}
  }

  /** The hidden field still holds the 0 that the defaults put there. */
  predicate HiddenFieldIsZero(s: FormState) {
    && (s.transactionType == Credit ==> s.values.quantity == Num(0))
    && (s.transactionType == Debit ==> s.values.rate == Num(0.0))
  }

  /** No enabled event touches the hidden field. */
  lemma StepKeepsHiddenFieldZero(s: FormState, e: Event)
    requires HiddenFieldIsZero(s) && Enabled(s, e)
    ensures HiddenFieldIsZero(Step(s, e))
  {
  }

  /** From a state whose hidden field is 0, no enabled events change that. */
  lemma {:induction false} RunKeepsHiddenFieldZero(s: FormState, es: seq<Event>)
    requires HiddenFieldIsZero(s) && AllEnabled(s, es)
    ensures HiddenFieldIsZero(Run(s, es))
    decreases |es|
  {
    if es != [] {
      StepKeepsHiddenFieldZero(s, es[0]);
      RunKeepsHiddenFieldZero(Step(s, es[0]), es[1..]);
    }
  }

  /**
   * As written, `formSchema` rejects every form the page can produce: the
   * hidden field keeps its default 0, which `.positive()` refuses.
   */
  lemma AsWrittenRejectsEveryReachableForm(es: seq<Event>)
    requires AllEnabled(Initial, es)
    ensures HiddenField(Run(Initial, es).transactionType) in Errors(Run(Initial, es).values)
  {
    RunKeepsHiddenFieldZero(Initial, es);
  }

  // ---------------------------------------------------------------------
  // Submission
  // ---------------------------------------------------------------------

  /** `onSubmit`: the draft sent to the server, shaped by the transaction type. */
  function BuildDraft(s: FormState): (d: InsertTransaction)
    requires s.values.amount.Num?
    ensures d.txType == KindText(s.transactionType)
    ensures d.subType == s.values.subType && d.amount == s.values.amount.v
    ensures s.transactionType == Debit ==>
      && d.index == None && d.rate == None && d.profit == None
      && d.quantity == Some(IntOrZero(s.values.quantity))
    ensures s.transactionType == Credit ==>
      && d.quantity == None
      && d.index == Some(if s.selectedCreditType.Some? then s.selectedCreditType.value.index else 0)
      && d.rate == Some(RealOrZero(s.values.rate))
      && d.profit == Some(s.calculatedProfit.GetOr(0.0))
  {
    var credit := s.transactionType == Credit;
    InsertTransaction(
      KindText(s.transactionType),
      s.values.subType,
      s.values.amount.v,
      if credit then Some(if s.selectedCreditType.Some? then s.selectedCreditType.value.index else 0) else None,
      if credit then Some(RealOrZero(s.values.rate)) else None,
      if credit then Some(s.calculatedProfit.GetOr(0.0)) else None,
      if credit then None else Some(IntOrZero(s.values.quantity)))
  }

  /** A credit draft carries index, rate and profit and no quantity; a debit draft the reverse. */
  predicate WellShaped(d: InsertTransaction) {
    && (d.txType == CreditText ==> d.index.Some? && d.rate.Some? && d.profit.Some? && d.quantity.None?)
    && (d.txType == DebitText ==> d.index.None? && d.rate.None? && d.profit.None? && d.quantity.Some?)
    && (d.txType == CreditText || d.txType == DebitText)
  }

  /** `form.handleSubmit(onSubmit)`, validating only the fields the current form renders. */
  function Submit(s: FormState): (r: Option<InsertTransaction>)
    ensures r.Some? <==> ErrorsFor(s.transactionType, s.values) == {}
    ensures r.Some? ==> s.values.amount.Num? && r.value == BuildDraft(s)
    ensures r.Some? ==> WellShaped(r.value) && r.value.subType != "" && r.value.amount > 0.0
  {
    if ErrorsFor(s.transactionType, s.values) == {} then
      assert AmountField !in Errors(s.values);
      Some(BuildDraft(s))
    else
      None
  }

  /**
   * For a credit draft submitted with an up-to-date profit, a selected catalog
   * entry and a positive rate, the stored profit is `amount - rate * index`.
   */
  lemma SubmittedCreditProfit(s: FormState)
    requires ProfitUpToDate(s)
    requires s.transactionType == Credit && s.selectedCreditType.Some?
    requires Submit(s).Some? && PositiveReal(s.values.rate)
    ensures Submit(s).value.profit ==
      Some(s.values.amount.v - s.values.rate.v * s.selectedCreditType.value.index as real)
    ensures Submit(s).value.index == Some(s.selectedCreditType.value.index)
  {
    assert AmountField != HiddenField(s.transactionType);
    DerivedProfitOfPositive(s.values.rate, s.values.amount, s.selectedCreditType.value.index);
    assert Submit(s) == Some(BuildDraft(s));
    assert BuildDraft(s).profit == Some(s.calculatedProfit.GetOr(0.0));
    assert s.calculatedProfit == DerivedProfit(s.values.rate, s.values.amount, s.selectedCreditType.value.index);
    assert s.calculatedProfit.GetOr(0.0) == s.values.amount.v - s.values.rate.v * s.selectedCreditType.value.index as real;
  }

  /** Four events in a row, through the states s1, s2, s3 to s4. */
  lemma RunFour(s: FormState, e0: Event, s1: FormState, e1: Event, s2: FormState, e2: Event,
                s3: FormState, e3: Event, s4: FormState)
    requires s1 == Step(s, e0) && s2 == Step(s1, e1) && s3 == Step(s2, e2) && s4 == Step(s3, e3)
    ensures Run(s, [e0, e1, e2, e3]) == s4
    ensures AllEnabled(s, [e0, e1, e2, e3]) <==> Enabled(s, e0) && Enabled(s1, e1) && Enabled(s2, e2) && Enabled(s3, e3)
  {
    var es := [e0, e1, e2, e3];
    assert es[1..] == [e1, e2, e3] && [e1, e2, e3][1..] == [e2, e3] && [e2, e3][1..] == [e3];
    assert [e3][1..] == [];
    assert Run(s3, [e3]) == s4;
    assert Run(s2, [e2, e3]) == Run(s3, [e3]);
    assert Run(s1, [e1, e2, e3]) == Run(s2, [e2, e3]);
    assert AllEnabled(s3, [e3]) <==> Enabled(s3, e3);
    assert AllEnabled(s2, [e2, e3]) <==> Enabled(s2, e2) && AllEnabled(s3, [e3]);
    assert AllEnabled(s1, [e1, e2, e3]) <==> Enabled(s1, e1) && AllEnabled(s2, [e2, e3]);
  }

  /**
   * Switching type, whatever the state, lands on the reset form of that type;
   * its selector keeps its pick only when the type did not change.
   */
  lemma SwitchToResets(s: FormState, k: Kind)
    ensures Step(s, SwitchTo(k)) ==
      FormState(k, None, None, DefaultValues(k), if k == s.transactionType then s.shown else None)
  {
  }

  /** The fresh credit form with entry `ct` selected and the rate and amount given. */
  function CreditForm(ct: CreditType, rate: real, amount: real): FormValues {
    DefaultValues(Credit).(subType := ct.display, index := ct.index, rate := Num(rate), amount := Num(amount))
  }

  /**
   * Picking an entry on the reset credit form whose selector shows `shown`:
   * the pick reaches the handler unless the selector already shows it.
   */
  lemma PickOnFreshCreditForm(i: nat, shown: Option<string>)
    requires i < |CreditTypes|
    ensures var ct := CreditTypes[i];
      var s := FormState(Credit, None, None, DefaultValues(Credit), shown);
      && (Enabled(s, PickCredit(ct.value)) <==> shown != Some(ct.value))
      && Step(s, PickCredit(ct.value)) == FormState(Credit, Some(ct), None, CreditForm(ct, 0.0, 0.0), Some(ct.value))
  {
    PickCreditTypeOfEntry(FormState(Credit, None, None, DefaultValues(Credit), shown), i);
  }

  /** Entering a positive rate while the amount is still 0 derives no profit yet. */
  lemma RateBeforeAmount(ct: CreditType, rate: real)
    requires rate > 0.0
    ensures Step(FormState(Credit, Some(ct), None, CreditForm(ct, 0.0, 0.0), Some(ct.value)), EnterRate(Num(rate)))
      == FormState(Credit, Some(ct), None, CreditForm(ct, rate, 0.0), Some(ct.value))
  {
  }

  /** Entering a positive amount after a positive rate derives `amount - rate * index`. */
  lemma AmountAfterRate(ct: CreditType, rate: real, amount: real)
    requires rate > 0.0 && amount > 0.0
    ensures var profit := amount - rate * ct.index as real;
      Step(FormState(Credit, Some(ct), None, CreditForm(ct, rate, 0.0), Some(ct.value)), EnterAmount(Num(amount)))
        == FormState(Credit, Some(ct), Some(profit), CreditForm(ct, rate, amount).(profit := profit), Some(ct.value))
  {
    var s3 := FormState(Credit, Some(ct), None, CreditForm(ct, rate, 0.0), Some(ct.value));
    var h := Handle(s3, EnterAmount(Num(amount)));
    assert h == FormState(Credit, Some(ct), None, CreditForm(ct, rate, amount), Some(ct.value));
    assert h.values.rate == Num(rate) && h.values.amount == Num(amount);
    assert h.transactionType == Credit && h.selectedCreditType == Some(ct);
    var profit := amount - rate * ct.index as real;
    assert ProfitEffect(h) == h.(calculatedProfit := Some(profit), values := h.values.(profit := profit));
  }

  /** Four events are two events followed by two more. */
  lemma RunTwoThenTwo(s: FormState, e0: Event, e1: Event, e2: Event, e3: Event)
    ensures Run(s, [e0, e1, e2, e3]) == Run(Run(s, [e0, e1]), [e2, e3])
    ensures AllEnabled(s, [e0, e1, e2, e3]) <==> AllEnabled(s, [e0, e1]) && AllEnabled(Run(s, [e0, e1]), [e2, e3])
  {
    var s1 := Step(s, e0);
    var s2 := Step(s1, e1);
    var s3 := Step(s2, e2);
    var s4 := Step(s3, e3);
    RunFour(s, e0, s1, e1, s2, e2, s3, e3, s4);
    assert [e0, e1][1..] == [e1] && [e1][1..] == [] && [e2, e3][1..] == [e3] && [e3][1..] == [];
    assert Run(s1, [e1]) == Run(s2, []) == s2;
    assert Run(s, [e0, e1]) == Run(s1, [e1]);
    assert Run(s3, [e3]) == Run(s4, []) == s4;
    assert Run(s2, [e2, e3]) == Run(s3, [e3]);
    assert AllEnabled(s1, [e1]) <==> Enabled(s1, e1);
    assert AllEnabled(s, [e0, e1]) <==> Enabled(s, e0) && AllEnabled(s1, [e1]);
    assert AllEnabled(s3, [e3]) <==> Enabled(s3, e3);
    assert AllEnabled(s2, [e2, e3]) <==> Enabled(s2, e2) && AllEnabled(s3, [e3]);
  }

  /**
   * The page is on `k` and its selector shows `v`: switching to `k` resets the
   * form but not the selector, so picking `v` again reaches no handler.
   */
  predicate ShowsPick(s: FormState, k: Kind, v: string) {
    s.transactionType == k && s.shown == Some(v)
  }

  /**
   * Switching to credit and picking a catalog entry selects it on a reset
   * form. The pick reaches the handler exactly when the page was not already
   * on credit with that entry showing in its selector.
   */
  lemma CreditSelection(s: FormState, i: nat)
    requires i < |CreditTypes|
    ensures var ct := CreditTypes[i];
      && (AllEnabled(s, [SwitchTo(Credit), PickCredit(ct.value)]) <==> !ShowsPick(s, Credit, ct.value))
      && Run(s, [SwitchTo(Credit), PickCredit(ct.value)])
         == FormState(Credit, Some(ct), None, CreditForm(ct, 0.0, 0.0), Some(ct.value))
  {
    var ct := CreditTypes[i];
    var s1 := Step(s, SwitchTo(Credit));
    var s2 := FormState(Credit, Some(ct), None, CreditForm(ct, 0.0, 0.0), Some(ct.value));
    SwitchToResets(s, Credit);
    PickOnFreshCreditForm(i, s1.shown);
    assert [SwitchTo(Credit), PickCredit(ct.value)][1..] == [PickCredit(ct.value)];
    assert [PickCredit(ct.value)][1..] == [];
    assert Run(s1, [PickCredit(ct.value)]) == s2;
    assert AllEnabled(s1, [PickCredit(ct.value)]) <==> Enabled(s1, PickCredit(ct.value));
  }

  /**
   * Switching to credit and picking a value the catalog lookup resolves to
   * `ct` selects `ct` on a reset form, unless the selector already showed it.
   */
  lemma SelectionOf(s: FormState, ct: CreditType)
    requires FindCreditType(ct.value) == Some(ct)
    ensures AllEnabled(s, [SwitchTo(Credit), PickCredit(ct.value)]) <==> !ShowsPick(s, Credit, ct.value)
    ensures Run(s, [SwitchTo(Credit), PickCredit(ct.value)])
      == FormState(Credit, Some(ct), None, CreditForm(ct, 0.0, 0.0), Some(ct.value))
    ensures ct.display != ""
  {
    var i :| 0 <= i < |CreditTypes| && CreditTypes[i] == ct;
    CreditSelection(s, i);
    EntryLabelled(i);
  }

  /** Entering a positive rate and then a positive amount for a selected entry. */
  lemma CreditEntry(ct: CreditType, rate: real, amount: real)
    requires rate > 0.0 && amount > 0.0
    ensures var s2 := FormState(Credit, Some(ct), None, CreditForm(ct, 0.0, 0.0), Some(ct.value));
      var es := [EnterRate(Num(rate)), EnterAmount(Num(amount))];
      var profit := amount - rate * ct.index as real;
      && AllEnabled(s2, es)
      && Run(s2, es) == FormState(Credit, Some(ct), Some(profit), CreditForm(ct, rate, amount).(profit := profit), Some(ct.value))
  {
    var s2 := FormState(Credit, Some(ct), None, CreditForm(ct, 0.0, 0.0), Some(ct.value));
    var s3 := FormState(Credit, Some(ct), None, CreditForm(ct, rate, 0.0), Some(ct.value));
    var profit := amount - rate * ct.index as real;
    var s4 := FormState(Credit, Some(ct), Some(profit), CreditForm(ct, rate, amount).(profit := profit), Some(ct.value));
    RateBeforeAmount(ct, rate);
    AmountAfterRate(ct, rate, amount);
    assert [EnterRate(Num(rate)), EnterAmount(Num(amount))][1..] == [EnterAmount(Num(amount))];
    assert [EnterAmount(Num(amount))][1..] == [];
    assert Run(s3, [EnterAmount(Num(amount))]) == s4;
    assert AllEnabled(s3, [EnterAmount(Num(amount))]);
  }

  /**
   * The state the credit flow of CreditFlowSubmits ends in; the flow reaches
   * every handler exactly when the selector did not already show the entry.
   */
  lemma CreditFlowState(s: FormState, ct: CreditType, rate: real, amount: real)
    requires rate > 0.0 && amount > 0.0
    requires FindCreditType(ct.value) == Some(ct)
    ensures var es := [SwitchTo(Credit), PickCredit(ct.value), EnterRate(Num(rate)), EnterAmount(Num(amount))];
      var profit := amount - rate * ct.index as real;
      && (AllEnabled(s, es) <==> !ShowsPick(s, Credit, ct.value))
      && Run(s, es) == FormState(Credit, Some(ct), Some(profit), CreditForm(ct, rate, amount).(profit := profit), Some(ct.value))
  {
    SelectionOf(s, ct);
    RunTwoThenTwo(s, SwitchTo(Credit), PickCredit(ct.value), EnterRate(Num(rate)), EnterAmount(Num(amount)));
    CreditEntry(ct, rate, amount);
  }

  /**
   * Switching to credit, picking a catalog entry `ct` and entering a positive
   * rate and amount submits a credit draft whose profit is
   * `amount - rate * index`. The user can do this unless the page is already
   * on credit with `ct` showing in the selector.
   */
  lemma CreditFlowSubmits(s: FormState, ct: CreditType, rate: real, amount: real)
    requires rate > 0.0 && amount > 0.0
    requires FindCreditType(ct.value) == Some(ct)
    ensures var es := [SwitchTo(Credit), PickCredit(ct.value), EnterRate(Num(rate)), EnterAmount(Num(amount))];
      && (AllEnabled(s, es) <==> !ShowsPick(s, Credit, ct.value))
      && Submit(Run(s, es)) == Some(InsertTransaction(
           CreditText, ct.display, amount, Some(ct.index), Some(rate), Some(amount - rate * ct.index as real), None))
  {
    CreditFlowState(s, ct, rate, amount);
    SelectionOf(s, ct);
    var profit := amount - rate * ct.index as real;
    assert ErrorsFor(Credit, CreditForm(ct, rate, amount).(profit := profit)) == {};
  }

  /**
   * Switching to debit, picking a debit type and entering a positive quantity
   * and amount submits a debit draft with no rate, index or profit. The user
   * can do this unless the page is already on debit with that type showing in
   * the selector.
   */
  lemma DebitFlowSubmits(s: FormState, i: nat, quantity: int, amount: real)
    requires i < |DebitTypes| && quantity > 0 && amount > 0.0
    ensures var es := [SwitchTo(Debit), PickDebit(DebitTypes[i].display), EnterQuantity(Num(quantity)), EnterAmount(Num(amount))];
      && (AllEnabled(s, es) <==> !ShowsPick(s, Debit, DebitTypes[i].display))
      && Submit(Run(s, es)) == Some(InsertTransaction(
           DebitText, DebitTypes[i].display, amount, None, None, None, Some(quantity)))
  {
    var dt := DebitTypes[i];
    var e0, e1, e2, e3 := SwitchTo(Debit), PickDebit(dt.display), EnterQuantity(Num(quantity)), EnterAmount(Num(amount));
    var s1 := Step(s, e0);
    var s2 := Step(s1, e1);
    var s3 := Step(s2, e2);
    var s4 := Step(s3, e3);
    RunFour(s, e0, s1, e1, s2, e2, s3, e3, s4);
    assert s4.values == FormValues(Debit, dt.display, Num(amount), Num(0.0), Num(quantity), 0, 0.0);
    assert ErrorsFor(Debit, s4.values) == {};
  }

  /** The Weekly entry (index 161) at rate 2 for an amount of 500 stores a profit of 500 - 2 * 161 = 178. */
  lemma WeeklyExample()
    ensures AllEnabled(Initial, [SwitchTo(Credit), PickCredit("161"), EnterRate(Num(2.0)), EnterAmount(Num(500.0))])
    ensures Submit(Run(Initial, [SwitchTo(Credit), PickCredit("161"), EnterRate(Num(2.0)), EnterAmount(Num(500.0))]))
      == Some(InsertTransaction(CreditText, "Weekly", 500.0, Some(161), Some(2.0), Some(178.0), None))
  {
    FindCreditTypeOfEntry(0);
    CreditFlowSubmits(Initial, Weekly, 2.0, 500.0);
  }
}
