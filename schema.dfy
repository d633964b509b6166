/**
 * The three tables of the customer ledger and the balance invariant that the
 * write handlers are meant to keep: a customer's `total_debt` equals the sum
 * of their purchase totals minus the sum of their payments.
 *
 * Money is an integer number of minor units. `created_at` is modelled by a
 * counter `clock`: every inserted row is stamped with the current value,
 * which is then advanced, so each table is kept in insertion order.
 */
module Schema {
  import opened Wrappers
  import opened Text
  import opened Collections

  /** One line of a purchase, as kept in the purchase's `items` column. */
  datatype Item = Item(name: string, price: int)

  datatype Customer = Customer(id: nat, name: string, totalDebt: int, createdAt: nat)

  datatype Purchase = Purchase(id: nat, customerId: nat, items: seq<Item>, purchaseTotal: int, createdAt: nat)

  datatype Payment = Payment(id: nat, customerId: nat, amountPaid: int, createdAt: nat)

  /** The store: the three tables in insertion order and the timestamp counter. */
  datatype Tables = Tables(customers: seq<Customer>, purchases: seq<Purchase>, payments: seq<Payment>, clock: nat)

  const Empty := Tables([], [], [], 0)

  // Column projections, passed to the generic table operations.
  function CustomerId(c: Customer): nat { c.id }
  function CustomerCreated(c: Customer): nat { c.createdAt }
  function CustomerDebt(c: Customer): int { c.totalDebt }
  function PurchaseOwner(p: Purchase): nat { p.customerId }
  function PurchaseCreated(p: Purchase): nat { p.createdAt }
  function PurchaseAmount(p: Purchase): int { p.purchaseTotal }
  function PaymentOwner(p: Payment): nat { p.customerId }
  function PaymentCreated(p: Payment): nat { p.createdAt }
  function PaymentAmount(p: Payment): int { p.amountPaid }

  /** `purchases.eq("customer_id", id)` */
  function PurchasesOf(t: Tables, id: nat): seq<Purchase> {
    OwnedBy(t.purchases, PurchaseOwner, id)
  }

  /** `payments.eq("customer_id", id)` */
  function PaymentsOf(t: Tables, id: nat): seq<Payment> {
    OwnedBy(t.payments, PaymentOwner, id)
  }

  /** What customer `id` owes according to their purchase and payment rows. */
  function Owed(t: Tables, id: nat): int {
    SumOf(PurchasesOf(t, id), PurchaseAmount) - SumOf(PaymentsOf(t, id), PaymentAmount)
  }

  function Ids(cs: seq<Customer>): set<nat> {
    set i | 0 <= i < |cs| :: cs[i].id
  }

  lemma IdsAppend(cs: seq<Customer>, c: Customer)
    ensures Ids(cs + [c]) == Ids(cs) + {c.id}
  {
    var r := cs + [c];
    assert r[|cs|] == c;
    forall k | k in Ids(cs) ensures k in Ids(r) {
      var i :| 0 <= i < |cs| && cs[i].id == k;
      assert r[i] == cs[i];
    }
  }

  /** A row's id is among the table's ids. */
  lemma InIds(cs: seq<Customer>, c: Customer)
    requires c in cs
    ensures c.id in Ids(cs)
  {
    var i :| 0 <= i < |cs| && cs[i] == c;
  }

  /** The ids of an ascending customer table are below its bound. */
  lemma IdsBelow(cs: seq<Customer>, bound: nat)
    requires Ascending(cs, CustomerId, bound)
    ensures forall id :: id in Ids(cs) ==> id < bound
  {
    forall id | id in Ids(cs) ensures id < bound {
      var i :| 0 <= i < |cs| && cs[i].id == id;
      AscendingBelow(cs, CustomerId, bound, i);
    }
  }

  /** Every row of `s` refers to a customer whose id is in `ids`. */
  ghost predicate OwnersIn<T>(s: seq<T>, owner: T -> nat, ids: set<nat>) {
    forall x :: x in s ==> owner(x) in ids
  }

  /**
   * Shape of a store the handlers can produce: customer ids are distinct,
   * every table is in creation order with stamps below the counter, and every
   * purchase and payment belongs to a customer that exists.
   */
  ghost predicate WellFormed(t: Tables) {
    && Ascending(t.customers, CustomerId, t.clock)
    && Ascending(t.customers, CustomerCreated, t.clock)
    && Ascending(t.purchases, PurchaseCreated, t.clock)
    && Ascending(t.payments, PaymentCreated, t.clock)
    && OwnersIn(t.purchases, PurchaseOwner, Ids(t.customers))
    && OwnersIn(t.payments, PaymentOwner, Ids(t.customers))
  }

  /** Per customer: `total_debt` = sum of `purchase_total` - sum of `amount_paid`. */
  ghost predicate Balanced(t: Tables) {
    forall i {:trigger Owed(t, t.customers[i].id)} ::
      0 <= i < |t.customers| ==> t.customers[i].totalDebt == Owed(t, t.customers[i].id)
  }

  ghost predicate Valid(t: Tables) {
    WellFormed(t) && Balanced(t)
  }

  /**
   * `.ilike("name", name).limit(1)`: the first customer, in table order,
   * whose name equals `name` up to case; none when no name matches.
   */
  function FindByName(cs: seq<Customer>, name: string): (r: Option<nat>)
    ensures r.Some? ==> r.value < |cs| && SameName(cs[r.value].name, name)
    ensures r.Some? ==> forall j :: 0 <= j < r.value ==> !SameName(cs[j].name, name)
    ensures r.None? <==> forall j :: 0 <= j < |cs| ==> !SameName(cs[j].name, name)
  {
    if cs == [] then None
    else if SameName(cs[0].name, name) then Some(0)
    else match FindByName(cs[1..], name)
      case Some(k) => Some(k + 1)
      case None => None
  }

  /** `.update({ total_debt: debt }).eq("id", id)`: every row with that id gets the new debt. */
  function SetDebt(cs: seq<Customer>, id: nat, debt: int): (r: seq<Customer>)
    ensures |r| == |cs|
    ensures forall i :: 0 <= i < |cs| && cs[i].id != id ==> r[i] == cs[i]
    ensures forall i :: 0 <= i < |cs| && cs[i].id == id ==> r[i] == cs[i].(totalDebt := debt)
  {
    seq(|cs|, i requires 0 <= i < |cs| => if cs[i].id == id then cs[i].(totalDebt := debt) else cs[i])
  }

  /** The update changes no id, so the set of ids is the same. */
  lemma SetDebtIds(cs: seq<Customer>, id: nat, debt: int)
    ensures Ids(SetDebt(cs, id, debt)) == Ids(cs)
  {
    var r := SetDebt(cs, id, debt);
    assert forall i :: 0 <= i < |cs| ==> r[i].id == cs[i].id;
  }

  /** With distinct ids the update touches exactly the row at `k`. */
  lemma SetDebtAt(cs: seq<Customer>, k: nat, debt: int, bound: nat)
    requires k < |cs| && Ascending(cs, CustomerId, bound)
    ensures SetDebt(cs, cs[k].id, debt) == cs[k := cs[k].(totalDebt := debt)]
  {
    var r := SetDebt(cs, cs[k].id, debt);
    forall i | 0 <= i < |cs| && i != k ensures cs[i].id != cs[k].id {
      AscendingDistinct(cs, CustomerId, bound, i, k);
    }
  }

  /** Changing one customer's debt keeps ids, stamps and the id set. */
  lemma UpdateDebtShape(cs: seq<Customer>, k: nat, debt: int, bound: nat)
    requires k < |cs| && Ascending(cs, CustomerId, bound) && Ascending(cs, CustomerCreated, bound)
    ensures var r := cs[k := cs[k].(totalDebt := debt)];
      Ascending(r, CustomerId, bound) && Ascending(r, CustomerCreated, bound) && Ids(r) == Ids(cs)
  {
    var r := cs[k := cs[k].(totalDebt := debt)];
    AscendingUpdate(cs, k, r[k], CustomerId, bound);
    AscendingUpdate(cs, k, r[k], CustomerCreated, bound);
    assert forall i :: 0 <= i < |cs| ==> r[i].id == cs[i].id;
  }

  /** Appending a purchase changes only its own customer's balance, by its total. */
  lemma OwedAfterPurchase(t: Tables, p: Purchase, id: nat)
    ensures Owed(t.(purchases := t.purchases + [p]), id)
         == Owed(t, id) + (if p.customerId == id then p.purchaseTotal else 0)
  {
    var mine := if p.customerId == id then [p] else [];
    OwnedBySnoc(t.purchases, p, PurchaseOwner, id);
    SumOfAppend(PurchasesOf(t, id), mine, PurchaseAmount);
    assert [p][1..] == [];
  }

  /** Appending a payment changes only its own customer's balance, by its amount. */
  lemma OwedAfterPayment(t: Tables, q: Payment, id: nat)
    ensures Owed(t.(payments := t.payments + [q]), id)
         == Owed(t, id) - (if q.customerId == id then q.amountPaid else 0)
  {
    var mine := if q.customerId == id then [q] else [];
    OwnedBySnoc(t.payments, q, PaymentOwner, id);
    SumOfAppend(PaymentsOf(t, id), mine, PaymentAmount);
    assert [q][1..] == [];
  }

  /**
   * Shape after a purchase by an existing customer: the row at `k` gets a new
   * debt and a purchase stamped with the counter is appended for it.
   */
  lemma ChargeRowWellFormed(t: Tables, k: nat, debt: int, p: Purchase, t': Tables)
    requires WellFormed(t) && k < |t.customers|
    requires p.createdAt == t.clock && p.customerId == t.customers[k].id
    requires t'.customers == t.customers[k := t.customers[k].(totalDebt := debt)]
    requires t'.purchases == t.purchases + [p] && t'.payments == t.payments && t'.clock == t.clock + 1
    ensures WellFormed(t')
  {
    UpdateDebtShape(t.customers, k, debt, t.clock);
    AscendingWeaken(t'.customers, CustomerId, t.clock, t'.clock);
    AscendingWeaken(t'.customers, CustomerCreated, t.clock, t'.clock);
    AppendAscending(t.purchases, p, PurchaseCreated, t.clock);
    AscendingWeaken(t.payments, PaymentCreated, t.clock, t'.clock);
    assert p.customerId in Ids(t.customers);
  }

  /**
   * Shape after a payment: the row at `k` gets a new debt and a payment
   * stamped with the counter is appended for it.
   */
  lemma CreditRowWellFormed(t: Tables, k: nat, debt: int, q: Payment, t': Tables)
    requires WellFormed(t) && k < |t.customers|
    requires q.createdAt == t.clock && q.customerId == t.customers[k].id
    requires t'.customers == t.customers[k := t.customers[k].(totalDebt := debt)]
    requires t'.purchases == t.purchases && t'.payments == t.payments + [q] && t'.clock == t.clock + 1
    ensures WellFormed(t')
  {
    UpdateDebtShape(t.customers, k, debt, t.clock);
    AscendingWeaken(t'.customers, CustomerId, t.clock, t'.clock);
    AscendingWeaken(t'.customers, CustomerCreated, t.clock, t'.clock);
    AscendingWeaken(t.purchases, PurchaseCreated, t.clock, t'.clock);
    AppendAscending(t.payments, q, PaymentCreated, t.clock);
    assert q.customerId in Ids(t.customers);
  }

  /**
   * Shape after a purchase by a new customer: a customer stamped with the
   * counter, then a purchase for it stamped with the next value.
   */
  lemma NewRowWellFormed(t: Tables, c: Customer, p: Purchase, t': Tables)
    requires WellFormed(t) && c.id == t.clock && c.createdAt == t.clock
    requires p.createdAt == t.clock + 1 && p.customerId == c.id
    requires t'.customers == t.customers + [c]
    requires t'.purchases == t.purchases + [p] && t'.payments == t.payments && t'.clock == t.clock + 2
    ensures WellFormed(t')
  {
    AppendAscending(t.customers, c, CustomerId, t.clock);
    AppendAscending(t.customers, c, CustomerCreated, t.clock);
    AscendingWeaken(t'.customers, CustomerId, t.clock + 1, t'.clock);
    AscendingWeaken(t'.customers, CustomerCreated, t.clock + 1, t'.clock);
    AscendingWeaken(t.purchases, PurchaseCreated, t.clock, t.clock + 1);
    AppendAscending(t.purchases, p, PurchaseCreated, t.clock + 1);
    AscendingWeaken(t.payments, PaymentCreated, t.clock, t'.clock);
    IdsAppend(t.customers, c);
  }

  /** Raising the debt of the row at `k` by the total of a purchase appended for it keeps every balance. */
  lemma ChargeRowBalanced(t: Tables, k: nat, debt: int, p: Purchase, t': Tables)
    requires Balanced(t) && Ascending(t.customers, CustomerId, t.clock)
    requires k < |t.customers| && p.customerId == t.customers[k].id
    requires debt == t.customers[k].totalDebt + p.purchaseTotal
    requires t'.customers == t.customers[k := t.customers[k].(totalDebt := debt)]
    requires t'.purchases == t.purchases + [p] && t'.payments == t.payments
    ensures Balanced(t')
  {
    forall i | 0 <= i < |t'.customers|
      ensures t'.customers[i].totalDebt == Owed(t', t'.customers[i].id)
    {
      OwedAfterPurchase(t, p, t.customers[i].id);
      if i != k {
        AscendingDistinct(t.customers, CustomerId, t.clock, i, k);
      }
    }
  }

  /** Lowering the debt of the row at `k` by a payment appended for it keeps every balance. */
  lemma CreditRowBalanced(t: Tables, k: nat, debt: int, q: Payment, t': Tables)
    requires Balanced(t) && Ascending(t.customers, CustomerId, t.clock)
    requires k < |t.customers| && q.customerId == t.customers[k].id
    requires debt == t.customers[k].totalDebt - q.amountPaid
    requires t'.customers == t.customers[k := t.customers[k].(totalDebt := debt)]
    requires t'.purchases == t.purchases && t'.payments == t.payments + [q]
    ensures Balanced(t')
  {
    forall i | 0 <= i < |t'.customers|
      ensures t'.customers[i].totalDebt == Owed(t', t'.customers[i].id)
    {
      OwedAfterPayment(t, q, t.customers[i].id);
      if i != k {
        AscendingDistinct(t.customers, CustomerId, t.clock, i, k);
      }
    }
  }

  /** A customer who owed nothing, created with the total of their first purchase, is balanced. */
  lemma NewRowBalanced(t: Tables, c: Customer, p: Purchase, t': Tables)
    requires Balanced(t) && Owed(t, c.id) == 0 && c.id !in Ids(t.customers)
    requires p.customerId == c.id && c.totalDebt == p.purchaseTotal
    requires t'.customers == t.customers + [c]
    requires t'.purchases == t.purchases + [p] && t'.payments == t.payments
    ensures Balanced(t')
  {
    forall i | 0 <= i < |t'.customers|
      ensures t'.customers[i].totalDebt == Owed(t', t'.customers[i].id)
    {
      OwedAfterPurchase(t, p, t'.customers[i].id);
      if i < |t.customers| {
        assert t.customers[i].id in Ids(t.customers);
      }
    }
  }

  /** No row refers to the id the counter will hand out next, so that customer owes nothing. */
  lemma OwedFresh(t: Tables)
    requires WellFormed(t)
    ensures Owed(t, t.clock) == 0
    ensures t.clock !in Ids(t.customers)
  {
    IdsBelow(t.customers, t.clock);
    OwnedByNone(t.purchases, PurchaseOwner, t.clock);
    OwnedByNone(t.payments, PaymentOwner, t.clock);
  }
}
