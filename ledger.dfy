/**
 * The ledger as one store holding the three tables, with the pages' submit
 * and delete handlers as methods that change it in place, and the proof that
 * every store reachable from the empty one keeps each customer's debt equal
 * to their purchases minus their payments.
 */
module Ledger {
  import opened Wrappers
  import opened Text
  import opened Schema
  import NewTransaction
  import RecordPayment
  import AllCustomers
  import Dashboard

  /** The three tables, and the counter that orders their rows by creation. */
  class Store {
    var customers: seq<Customer>
    var purchases: seq<Purchase>
    var payments: seq<Payment>
    var clock: nat

    function State(): Tables
      reads this
    {
      Tables(customers, purchases, payments, clock)
    }

    ghost predicate Valid()
      reads this
    {
      Schema.Valid(State())
    }

    /** A new store has empty tables, and empty tables are balanced. */
    constructor ()
      ensures State() == Empty && Valid()
    {
      customers := [];
      purchases := [];
      payments := [];
      clock := 0;
    }

    /**
     * The new-transaction submit handler: validate, then either raise the
     * matching customer's debt or insert the customer, then insert the purchase.
     */
    method SubmitPurchase(customerName: string, items: seq<Item>) returns (outcome: NewTransaction.PurchaseOutcome)
      modifies this
      ensures (State(), outcome) == NewTransaction.PurchaseStep(old(State()), customerName, items)
      ensures old(Valid()) ==> Valid()
    {
      ghost var before := State();
      var name := Trim(customerName);
      if name == [] {
        return NewTransaction.NameMissing;
      }
      var valid := NewTransaction.ValidItems(items);
      if valid == [] {
        return NewTransaction.NoValidItems;
      }
      var total := NewTransaction.Total(items);
      var found := FindByName(customers, name);
      if found.Some? {
        var id := ChargeCustomer(found.value, valid, total);
        outcome := NewTransaction.Recorded(id, false);
        NewTransaction.PurchaseStepCharges(before, customerName, items, found.value);
      } else {
        var id := CreateCustomer(name, valid, total);
        outcome := NewTransaction.Recorded(id, true);
        NewTransaction.PurchaseStepCreates(before, customerName, items);
      }
      if Schema.Valid(before) {
        NewTransaction.PurchasePreservesValid(before, customerName, items);
      }
    }

    /** The customer at `k` exists: raise their debt by `total`, then insert the purchase. */
    method ChargeCustomer(k: nat, valid: seq<Item>, total: int) returns (id: nat)
      requires k < |customers|
      modifies this
      ensures State() == NewTransaction.ChargeExisting(old(State()), k, valid, total)
      ensures id == old(customers[k].id)
    {
      var c := customers[k];
      id := c.id;
      customers := SetDebt(customers, id, c.totalDebt + total);
      purchases := purchases + [Purchase(clock, id, valid, total, clock)];
      clock := clock + 1;
    }

    /** No customer matched: insert one owing `total`, then insert the purchase. */
    method CreateCustomer(name: string, valid: seq<Item>, total: int) returns (id: nat)
      modifies this
      ensures State() == NewTransaction.ChargeNew(old(State()), name, valid, total)
      ensures id == old(clock)
    {
      id := clock;
      customers := customers + [Customer(id, name, total, id)];
      clock := clock + 1;
      purchases := purchases + [Purchase(clock, id, valid, total, clock)];
      clock := clock + 1;
    }

    /**
     * The record-payment submit handler: run the guards on the selected
     * snapshot; when they accept, write the new debt and insert the payment.
     */
    method SubmitPayment(selected: Option<Customer>, amount: Option<int>) returns (r: RecordPayment.Checked)
      modifies this
      ensures (State(), r) == RecordPayment.PaymentStep(old(State()), selected, amount)
      ensures old(Valid()) && (selected.Some? ==> selected.value in old(customers)) ==> Valid()
    {
      ghost var before := State();
      r := RecordPayment.CheckPayment(selected, amount);
      if r.Accepted? {
        var id := selected.value.id;
        customers := SetDebt(customers, id, r.newDebt);
        payments := payments + [Payment(clock, id, amount.value, clock)];
        clock := clock + 1;
      }
      if Schema.Valid(before) && (selected.Some? ==> selected.value in before.customers) {
        RecordPayment.PaymentPreservesValid(before, selected, amount);
      }
    }

    /** The delete handler: the customer's purchases, then payments, then the customer row. */
    method DeleteCustomer(target: Option<nat>)
      modifies this
      ensures State() == AllCustomers.DeleteStep(old(State()), target)
      ensures old(Valid()) ==> Valid()
    {
      ghost var before := State();
      if target.None? {
        return;
      }
      var id := target.value;
      purchases := Collections.Disowned(purchases, PurchaseOwner, id);
      payments := Collections.Disowned(payments, PaymentOwner, id);
      customers := Collections.Disowned(customers, CustomerId, id);
      if Schema.Valid(before) {
        AllCustomers.DeletePreservesValid(before, target);
      }
    }

    /** The dashboard's figures for the current tables; in a valid store debt is purchases minus payments. */
    method Totals() returns (s: Dashboard.Stats)
      ensures s == Dashboard.FetchStats(State())
      ensures Valid() ==> s.totalDebt == s.totalPurchases - s.totalPayments
    {
      s := Dashboard.FetchStats(State());
      if Valid() {
        Dashboard.DashboardBalance(State());
      }
    }
  }

  /** One handler run to completion. A payment goes to the customer a search selects in the current store. */
  datatype Op =
    | NewPurchase(customerName: string, items: seq<Item>)
    | NewPayment(query: string, amount: Option<int>)
    | Delete(target: Option<nat>)

  function Step(t: Tables, op: Op): Tables {
    match op
    case NewPurchase(name, items) => NewTransaction.PurchaseStep(t, name, items).0
    case NewPayment(query, amount) => RecordPayment.PaymentStep(t, RecordPayment.SelectCustomer(t, query, None), amount).0
    case Delete(target) => AllCustomers.DeleteStep(t, target)
  }

  /** The store after running `ops` in order. */
  function Run(t: Tables, ops: seq<Op>): Tables
    decreases |ops|
  {
    if ops == [] then t else Run(Step(t, ops[0]), ops[1..])
  }

  /** Every handler keeps a valid store valid. */
  lemma StepValid(t: Tables, op: Op)
    requires Schema.Valid(t)
    ensures Schema.Valid(Step(t, op))
  {
    match op
    case NewPurchase(name, items) => NewTransaction.PurchasePreservesValid(t, name, items);
    case NewPayment(query, amount) =>
      RecordPayment.SelectedIsCurrent(t, query);
      RecordPayment.PaymentPreservesValid(t, RecordPayment.SelectCustomer(t, query, None), amount);
    case Delete(target) => AllCustomers.DeletePreservesValid(t, target);
  }

  /** Any sequence of handlers keeps a valid store valid. */
  lemma {:induction false} RunValid(t: Tables, ops: seq<Op>)
    requires Schema.Valid(t)
    ensures Schema.Valid(Run(t, ops))
    decreases |ops|
  {
    if ops != [] {
      StepValid(t, ops[0]);
      RunValid(Step(t, ops[0]), ops[1..]);
    }
  }

  /**
   * In every store reachable from the empty one, the dashboard's total debt
   * equals its total of purchases minus its total of payments.
   */
  lemma ReachableBalance(ops: seq<Op>)
    ensures var s := Dashboard.FetchStats(Run(Empty, ops)); s.totalDebt == s.totalPurchases - s.totalPayments
  {
    RunValid(Empty, ops);
    Dashboard.DashboardBalance(Run(Empty, ops));
  }
}
