/**
 * The all-customers page: the listing it loads (customers newest first, each
 * with their payments newest first), the rows of its spreadsheet export, the
 * "last installment" cell, and the cascading delete of one customer.
 */
module AllCustomers {
  import opened Wrappers
  import opened Collections
  import opened Schema

  /** A customer row together with that customer's payments, newest first. */
  datatype CustomerEntry = CustomerEntry(customer: Customer, payments: seq<Payment>)

  /** One line of the export: name, debt, number of installments, sum paid, and the registration stamp. */
  datatype ExportRow = ExportRow(name: string, totalDebt: int, installments: nat, totalPaid: int, registered: nat)

  function Entry(t: Tables, c: Customer): CustomerEntry {
    CustomerEntry(c, Reverse(PaymentsOf(t, c.id)))
  }

  /**
   * `fetchAllCustomers`: the customers ordered by creation, newest first, each
   * with their own payments ordered by creation, newest first. As the tables
   * are kept in creation order, both orders are the reverse of table order.
   */
  function Listing(t: Tables): (r: seq<CustomerEntry>)
    ensures |r| == |t.customers|
    ensures forall i :: 0 <= i < |r| ==> r[i].customer == t.customers[|t.customers| - 1 - i]
  {
    var newest := Reverse(t.customers);
    seq(|newest|, i requires 0 <= i < |newest| => Entry(t, newest[i]))
  }

  /**
   * The listing holds every customer once, newest first, and each entry holds
   * exactly that customer's payments, newest first.
   */
  lemma ListingNewestFirst(t: Tables)
    requires WellFormed(t)
    ensures Descending(seq(|Listing(t)|, i requires 0 <= i < |Listing(t)| => Listing(t)[i].customer), CustomerCreated)
    ensures forall i :: 0 <= i < |Listing(t)| ==>
      var e := Listing(t)[i];
      && Descending(e.payments, PaymentCreated)
      && (forall q :: q in e.payments <==> q in t.payments && q.customerId == e.customer.id)
  {
    var l := Listing(t);
    ReverseDescending(t.customers, CustomerCreated, t.clock);
    assert seq(|l|, i requires 0 <= i < |l| => l[i].customer) == Reverse(t.customers);
    forall i | 0 <= i < |l|
      ensures Descending(l[i].payments, PaymentCreated)
      ensures forall q :: q in l[i].payments <==> q in t.payments && q.customerId == l[i].customer.id
    {
      var id := l[i].customer.id;
      OwnedByAscending(t.payments, PaymentOwner, id, PaymentCreated, t.clock);
      ReverseDescending(PaymentsOf(t, id), PaymentCreated, t.clock);
      OwnedByMembers(t.payments, PaymentOwner, id);
    }
  }

  /** `exportToExcel`: one row per listed entry, in listing order. */
  function ExportRows(entries: seq<CustomerEntry>): (r: seq<ExportRow>)
    ensures |r| == |entries|
    ensures forall i :: 0 <= i < |r| ==>
      && r[i].name == entries[i].customer.name
      && r[i].totalDebt == entries[i].customer.totalDebt
      && r[i].installments == |entries[i].payments|
      && r[i].totalPaid == SumOf(entries[i].payments, PaymentAmount)
      && r[i].registered == entries[i].customer.createdAt
  {
    seq(|entries|, i requires 0 <= i < |entries| =>
      var e := entries[i];
      ExportRow(e.customer.name, e.customer.totalDebt, |e.payments|, SumOf(e.payments, PaymentAmount), e.customer.createdAt))
  }

  /**
   * The export of the listing agrees with the store: row `i` is the `i`-th
   * newest customer, its installment count is the number of that customer's
   * payments, its total paid is the sum of their amounts, and in a balanced
   * store its debt is their purchases minus that total.
   */
  lemma ExportMatchesStore(t: Tables, i: nat)
    requires i < |t.customers|
    ensures var row := ExportRows(Listing(t))[i];
      var c := t.customers[|t.customers| - 1 - i];
      && row.name == c.name
      && row.installments == |PaymentsOf(t, c.id)|
      && row.totalPaid == SumOf(PaymentsOf(t, c.id), PaymentAmount)
      && (Balanced(t) ==> row.totalDebt == SumOf(PurchasesOf(t, c.id), PurchaseAmount) - row.totalPaid)
  {
    var c := t.customers[|t.customers| - 1 - i];
    SumOfReverse(PaymentsOf(t, c.id), PaymentAmount);
    if Balanced(t) {
      assert c.totalDebt == Owed(t, t.customers[|t.customers| - 1 - i].id);
    }
  }

  /** The "last installment" cell: the first payment of the entry, or none. */
  function LastInstallment(e: CustomerEntry): (r: Option<Payment>)
    ensures r.None? <==> e.payments == []
    ensures r.Some? ==> r.value in e.payments
  {
    if |e.payments| > 0 then Some(e.payments[0]) else None
  }

  /**
   * The cell shows the customer's most recent payment: none exactly when they
   * have paid nothing, and otherwise a payment of theirs created no earlier
   * than any other of their payments.
   */
  lemma LastInstallmentIsNewest(t: Tables, i: nat)
    requires WellFormed(t) && i < |t.customers|
    ensures var e := Listing(t)[i];
      var mine := PaymentsOf(t, e.customer.id);
      var last := LastInstallment(e);
      && (last.None? <==> mine == [])
      && (last.Some? ==> last.value in mine && forall q :: q in mine ==> q.createdAt <= last.value.createdAt)
  {
    var e := Listing(t)[i];
    var mine := PaymentsOf(t, e.customer.id);
    OwnedByAscending(t.payments, PaymentOwner, e.customer.id, PaymentCreated, t.clock);
    ReverseDescending(mine, PaymentCreated, t.clock);
    if e.payments != [] {
      forall q | q in mine ensures q.createdAt <= e.payments[0].createdAt {
        var j :| 0 <= j < |e.payments| && e.payments[j] == q;
      }
    }
  }

  /**
   * `handleDeleteCustomer`: with no customer marked nothing happens; otherwise
   * the customer's purchases, then their payments, then the customer row are
   * deleted. The other rows keep their order.
   */
  function DeleteStep(t: Tables, target: Option<nat>): (r: Tables)
    ensures target.None? ==> r == t
    ensures r.clock == t.clock
  {
    match target
    case None => t
    case Some(id) =>
      Tables(Disowned(t.customers, CustomerId, id),
             Disowned(t.purchases, PurchaseOwner, id),
             Disowned(t.payments, PaymentOwner, id),
             t.clock)
  }

  /**
   * After deleting `id`, no row of any table refers to `id`, and every row of
   * another customer is still there.
   */
  lemma DeleteRemovesCustomer(t: Tables, id: nat)
    ensures var r := DeleteStep(t, Some(id));
      && (forall c :: c in r.customers <==> c in t.customers && c.id != id)
      && (forall p :: p in r.purchases <==> p in t.purchases && p.customerId != id)
      && (forall q :: q in r.payments <==> q in t.payments && q.customerId != id)
  {
    DisownedMembers(t.customers, CustomerId, id);
    DisownedMembers(t.purchases, PurchaseOwner, id);
    DisownedMembers(t.payments, PaymentOwner, id);
  }

  /** Rows that pointed at existing customers other than `id` still do after `id` is deleted. */
  lemma OwnersAfterDelete<T(!new)>(s: seq<T>, owner: T -> nat, cs: seq<Customer>, id: nat)
    requires OwnersIn(s, owner, Ids(cs))
    ensures OwnersIn(Disowned(s, owner, id), owner, Ids(Disowned(cs, CustomerId, id)))
  {
    DisownedMembers(s, owner, id);
    DisownedMembers(cs, CustomerId, id);
    forall x | x in Disowned(s, owner, id) ensures owner(x) in Ids(Disowned(cs, CustomerId, id)) {
      var j :| 0 <= j < |cs| && cs[j].id == owner(x);
      InIds(Disowned(cs, CustomerId, id), cs[j]);
    }
  }

  /** Deleting a customer keeps the shape of the store. */
  lemma DeleteWellFormed(t: Tables, id: nat)
    requires WellFormed(t)
    ensures WellFormed(DeleteStep(t, Some(id)))
  {
    DisownedAscending(t.customers, CustomerId, id, CustomerId, t.clock);
    DisownedAscending(t.customers, CustomerId, id, CustomerCreated, t.clock);
    DisownedAscending(t.purchases, PurchaseOwner, id, PurchaseCreated, t.clock);
    DisownedAscending(t.payments, PaymentOwner, id, PaymentCreated, t.clock);
    OwnersAfterDelete(t.purchases, PurchaseOwner, t.customers, id);
    OwnersAfterDelete(t.payments, PaymentOwner, t.customers, id);
  }

  /** Deleting a customer leaves every other customer's balance as it was. */
  lemma DeleteBalanced(t: Tables, id: nat)
    requires Balanced(t)
    ensures Balanced(DeleteStep(t, Some(id)))
  {
    var r := DeleteStep(t, Some(id));
    DisownedMembers(t.customers, CustomerId, id);
    forall i | 0 <= i < |r.customers|
      ensures r.customers[i].totalDebt == Owed(r, r.customers[i].id)
    {
      var c := r.customers[i];
      assert c in r.customers;
      var j :| 0 <= j < |t.customers| && t.customers[j] == c;
      assert c.totalDebt == Owed(t, t.customers[j].id);
      OwnedByDisowned(t.purchases, PurchaseOwner, id, c.id);
      OwnedByDisowned(t.payments, PaymentOwner, id, c.id);
    }
  }

  /** Deleting keeps every remaining customer's debt equal to purchases minus payments. */
  lemma DeletePreservesValid(t: Tables, target: Option<nat>)
    requires Valid(t)
    ensures Valid(DeleteStep(t, target))
  {
    if target.Some? {
      DeleteWellFormed(t, target.value);
      DeleteBalanced(t, target.value);
    }
  }
}
