/**
 * The record-payment page: selecting a customer by name and the submit
 * handler that lowers the selected customer's debt and records the payment.
 *
 * The page works on a snapshot of the selected customer's row (taken by the
 * search, or handed over by the page that opened it); the guard against
 * overpaying and the new debt are computed from that snapshot.
 */
module RecordPayment {
  import opened Wrappers
  import opened Text
  import opened Collections
  import opened Schema

  /** Why a submission is refused, in the order the handler checks. */
  datatype PaymentError = NoCustomer | InvalidAmount | ExceedsDebt

  /** The guard chain's verdict: the debt to write, or the reason for refusing. */
  datatype Checked = Accepted(newDebt: int) | Rejected(error: PaymentError)

  /**
   * The three guards of `handleSubmit` and the `newDebt` computation.
   * `amount` is the parsed amount field; `None` stands for `NaN`.
   */
  function CheckPayment(selected: Option<Customer>, amount: Option<int>): (r: Checked)
    ensures r == Rejected(NoCustomer) <==> selected.None?
    ensures r == Rejected(InvalidAmount) <==> selected.Some? && (amount.None? || amount.value <= 0)
    ensures r == Rejected(ExceedsDebt)
        <==> selected.Some? && amount.Some? && 0 < amount.value && selected.value.totalDebt < amount.value
    ensures r.Accepted? ==>
      && selected.Some? && amount.Some? && 0 < amount.value
      && r.newDebt + amount.value == selected.value.totalDebt
      && 0 <= r.newDebt < selected.value.totalDebt
  {
    if selected.None? then Rejected(NoCustomer)
    else if amount.None? || amount.value <= 0 then Rejected(InvalidAmount)
    else if amount.value > selected.value.totalDebt then Rejected(ExceedsDebt)
    else Accepted(selected.value.totalDebt - amount.value)
  }

  /** Paying the whole debt is accepted and leaves nothing owed. */
  lemma PayInFull(c: Customer)
    requires c.totalDebt > 0
    ensures CheckPayment(Some(c), Some(c.totalDebt)) == Accepted(0)
  {
  }

  /** Every accepted amount lies between 1 and the debt: the guards let nothing else through. */
  lemma AcceptedExactly(c: Customer, amount: int)
    ensures CheckPayment(Some(c), Some(amount)).Accepted? <==> 0 < amount <= c.totalDebt
  {
  }

  /**
   * `handleSubmit` as one atomic step: when the guards accept, the rows with
   * the selected id get the new debt and one payment of `amount` for that id
   * is appended; when they refuse, the store is unchanged.
   */
  function PaymentStep(t: Tables, selected: Option<Customer>, amount: Option<int>): (r: (Tables, Checked))
    ensures r.1 == CheckPayment(selected, amount)
    ensures r.1.Rejected? ==> r.0 == t
    ensures r.1.Accepted? ==>
      && r.0.customers == SetDebt(t.customers, selected.value.id, r.1.newDebt)
      && r.0.purchases == t.purchases
      && r.0.payments == t.payments + [Payment(t.clock, selected.value.id, amount.value, t.clock)]
      && r.0.clock == t.clock + 1
  {
    match CheckPayment(selected, amount)
    case Rejected(e) => (t, Rejected(e))
    case Accepted(debt) =>
      var id := selected.value.id;
      var updated := t.(customers := SetDebt(t.customers, id, debt));
      (updated.(payments := t.payments + [Payment(t.clock, id, amount.value, t.clock)], clock := t.clock + 1),
       Accepted(debt))
  }

  /**
   * When the snapshot is the current row at `k`, a payment lowers exactly that
   * row's debt by the amount and leaves every other customer row as it was.
   */
  lemma PaymentChargesSelected(t: Tables, k: nat, amount: int)
    requires k < |t.customers| && Ascending(t.customers, CustomerId, t.clock)
    requires 0 < amount <= t.customers[k].totalDebt
    ensures var c := t.customers[k];
      PaymentStep(t, Some(c), Some(amount)).0.customers
        == t.customers[k := c.(totalDebt := c.totalDebt - amount)]
  {
    var c := t.customers[k];
    SetDebtAt(t.customers, k, c.totalDebt - amount, t.clock);
  }

  /** A payment for a current row keeps the shape of the store. */
  lemma PaymentWellFormed(t: Tables, k: nat, amount: int)
    requires WellFormed(t) && k < |t.customers| && 0 < amount <= t.customers[k].totalDebt
    ensures WellFormed(PaymentStep(t, Some(t.customers[k]), Some(amount)).0)
  {
    var c := t.customers[k];
    PaymentChargesSelected(t, k, amount);
    CreditRowWellFormed(t, k, c.totalDebt - amount, Payment(t.clock, c.id, amount, t.clock),
                        PaymentStep(t, Some(c), Some(amount)).0);
  }

  /** A payment for a current row keeps every customer's debt equal to purchases minus payments. */
  lemma PaymentBalanced(t: Tables, k: nat, amount: int)
    requires Balanced(t) && Ascending(t.customers, CustomerId, t.clock)
    requires k < |t.customers| && 0 < amount <= t.customers[k].totalDebt
    ensures Balanced(PaymentStep(t, Some(t.customers[k]), Some(amount)).0)
  {
    var c := t.customers[k];
    PaymentChargesSelected(t, k, amount);
    CreditRowBalanced(t, k, c.totalDebt - amount, Payment(t.clock, c.id, amount, t.clock),
                      PaymentStep(t, Some(c), Some(amount)).0);
  }

  /**
   * Recording a payment keeps every customer's debt equal to purchases minus
   * payments, provided the selected snapshot is a current row of the table.
   */
  lemma PaymentPreservesValid(t: Tables, selected: Option<Customer>, amount: Option<int>)
    requires Valid(t) && (selected.Some? ==> selected.value in t.customers)
    ensures Valid(PaymentStep(t, selected, amount).0)
  {
    if CheckPayment(selected, amount).Accepted? {
      var k :| 0 <= k < |t.customers| && t.customers[k] == selected.value;
      PaymentWellFormed(t, k, amount.value);
      PaymentBalanced(t, k, amount.value);
    }
  }

  /**
   * A stale snapshot breaks the balance: if another writer changed the
   * customer's debt after the page read it, the payment writes a debt computed
   * from the old value and the row no longer matches its purchases and
   * payments.
   */
  lemma StaleSnapshotUnbalances(t: Tables, k: nat, snapshot: Customer, amount: int)
    requires Valid(t) && k < |t.customers| && snapshot.id == t.customers[k].id
    requires snapshot.totalDebt != t.customers[k].totalDebt
    requires 0 < amount <= snapshot.totalDebt
    ensures !Balanced(PaymentStep(t, Some(snapshot), Some(amount)).0)
  {
    var t' := PaymentStep(t, Some(snapshot), Some(amount)).0;
    var c := t.customers[k];
    var q := Payment(t.clock, c.id, amount, t.clock);
    SetDebtAt(t.customers, k, snapshot.totalDebt - amount, t.clock);
    var updated := t.(customers := t'.customers);
    assert t'.customers[k] == c.(totalDebt := snapshot.totalDebt - amount);
    assert t' == updated.(payments := t.payments + [q], clock := t.clock + 1);
    assert c.totalDebt == Owed(t, t.customers[k].id);
    OwedAfterPayment(updated, q, c.id);
    assert t'.customers[k].totalDebt != Owed(t', t'.customers[k].id);
  }

  /**
   * One session suffices for a stale snapshot: the payment page keeps the row
   * it was opened with, so paying twice from that row keeps the store valid
   * the first time and unbalances the customer the second time.
   */
  lemma RepeatedPaymentUnbalances(t: Tables, k: nat, amount: int)
    requires Valid(t) && k < |t.customers| && 0 < amount <= t.customers[k].totalDebt
    ensures var c := t.customers[k];
      var once := PaymentStep(t, Some(c), Some(amount)).0;
      && Valid(once)
      && !Balanced(PaymentStep(once, Some(c), Some(amount)).0)
  {
    var c := t.customers[k];
    PaymentPreservesValid(t, Some(c), Some(amount));
    PaymentChargesSelected(t, k, amount);
    var once := PaymentStep(t, Some(c), Some(amount)).0;
    StaleSnapshotUnbalances(once, k, c, amount);
  }

  /**
   * `handleSearch`: a blank query keeps the current selection; otherwise the
   * first customer whose name equals the trimmed query up to case is
   * selected, and a miss clears the selection.
   */
  function SelectCustomer(t: Tables, query: string, current: Option<Customer>): (r: Option<Customer>)
    ensures IsBlank(query) ==> r == current
    ensures !IsBlank(query) && r.Some? ==> r.value in t.customers && SameName(r.value.name, Trim(query))
    ensures !IsBlank(query) && r.Some? ==> r == Some(t.customers[FindByName(t.customers, Trim(query)).value])
    ensures !IsBlank(query) ==>
      (r.None? <==> forall i :: 0 <= i < |t.customers| ==> !SameName(t.customers[i].name, Trim(query)))
  {
    var name := Trim(query);
    if name == [] then current
    else match FindByName(t.customers, name)
      case Some(k) => Some(t.customers[k])
      case None => None
  }

  /** A selection made by a search is always a current row, so paying it keeps the balance. */
  lemma SelectedIsCurrent(t: Tables, query: string)
    ensures var s := SelectCustomer(t, query, None); s.Some? ==> s.value in t.customers
  {
  }

  /** The page's selected-customer state. */
  class PaymentForm {
    var selected: Option<Customer>

    /** The page opens with the customer handed over by the caller, or with none. */
    constructor (initial: Option<Customer>)
      ensures selected == initial
    {
      selected := initial;
    }

    /** `handleSearch` against the store's current tables. */
    method HandleSearch(t: Tables, query: string)
      modifies this
      ensures selected == SelectCustomer(t, query, old(selected))
    {
      var name := Trim(query);
      if name == [] {
        return;
      }
      var found := FindByName(t.customers, name);
      if found.Some? {
        selected := Some(t.customers[found.value]);
      } else {
        selected := None;
      }
    }

    /** The "change customer" button drops the selection. */
    method Clear()
      modifies this
      ensures selected == None
    {
      selected := None;
    }
  }
}
