/**
 * The dashboard: the number of customers and the three sums over the tables,
 * and why, in every store the handlers produce, the total debt is the total
 * of purchases minus the total of payments.
 */
module Dashboard {
  import opened Collections
  import opened Schema

  datatype Stats = Stats(totalCustomers: nat, totalDebt: int, totalPurchases: int, totalPayments: int)

  /** What the dashboard shows before the first fetch. */
  const InitialStats := Stats(0, 0, 0, 0)

  /** `fetchStats`: the row count of customers and the sums of the three money columns. */
  function FetchStats(t: Tables): (r: Stats)
    ensures t.customers == [] ==> r.totalCustomers == 0 && r.totalDebt == 0
    ensures t.purchases == [] ==> r.totalPurchases == 0
    ensures t.payments == [] ==> r.totalPayments == 0
  {
    Stats(|t.customers|, SumOf(t.customers, CustomerDebt),
          SumOf(t.purchases, PurchaseAmount), SumOf(t.payments, PaymentAmount))
  }

  /** Empty tables give the same stats the dashboard starts with. */
  lemma EmptyStats()
    ensures FetchStats(Empty) == InitialStats
  {
  }

  /** The sum of `amount` over the rows of `s` owned by each customer of `cs` in turn. */
  function OwedBy<T(!new)>(cs: seq<Customer>, s: seq<T>, owner: T -> nat, amount: T -> int): int {
    if cs == [] then 0
    else SumOf(OwnedBy(s, owner, cs[0].id), amount) + OwedBy(cs[1..], s, owner, amount)
  }

  /** Removing the rows of a customer outside `cs` changes none of the per-customer sums. */
  lemma {:induction false} OwedByDisowned<T(!new)>(cs: seq<Customer>, s: seq<T>, owner: T -> nat, amount: T -> int, id: nat)
    requires forall i :: 0 <= i < |cs| ==> cs[i].id != id
    ensures OwedBy(cs, Disowned(s, owner, id), owner, amount) == OwedBy(cs, s, owner, amount)
  {
    if cs != [] {
      OwnedByDisowned(s, owner, id, cs[0].id);
      assert forall i :: 0 <= i < |cs[1..]| ==> cs[1..][i] == cs[i + 1];
      OwedByDisowned(cs[1..], s, owner, amount, id);
    }
  }

  /**
   * When customer ids are distinct and every row belongs to one of the
   * customers, the sum over the rows is the sum over customers of their own
   * rows' sums.
   */
  lemma {:induction false} SplitByCustomer<T(!new)>(cs: seq<Customer>, s: seq<T>, owner: T -> nat, amount: T -> int)
    requires forall i, j :: 0 <= i < j < |cs| ==> cs[i].id != cs[j].id
    requires OwnersIn(s, owner, Ids(cs))
    ensures SumOf(s, amount) == OwedBy(cs, s, owner, amount)
  {
    if cs == [] {
      assert forall x :: x in s ==> false;
      assert s == [];
    } else {
      var c := cs[0];
      var rest := cs[1..];
      var others := Disowned(s, owner, c.id);
      SumOfSplit(s, owner, c.id, amount);
      DisownedMembers(s, owner, c.id);
      forall x | x in others ensures owner(x) in Ids(rest) {
        var j :| 0 <= j < |cs| && cs[j].id == owner(x);
        assert rest[j - 1] == cs[j];
      }
      assert forall i :: 0 <= i < |rest| ==> rest[i] == cs[i + 1];
      SplitByCustomer(rest, others, owner, amount);
      OwedByDisowned(rest, s, owner, amount, c.id);
    }
  }

  /** When every customer of `cs` is balanced, their debts add up to their purchases minus their payments. */
  lemma {:induction false} DebtsArePerCustomer(t: Tables, cs: seq<Customer>)
    requires forall i :: 0 <= i < |cs| ==> cs[i].totalDebt == Owed(t, cs[i].id)
    ensures SumOf(cs, CustomerDebt)
         == OwedBy(cs, t.purchases, PurchaseOwner, PurchaseAmount) - OwedBy(cs, t.payments, PaymentOwner, PaymentAmount)
  {
    if cs != [] {
      assert forall i :: 0 <= i < |cs[1..]| ==> cs[1..][i] == cs[i + 1];
      DebtsArePerCustomer(t, cs[1..]);
    }
  }

  /** In a valid store the dashboard's total debt is its total of purchases minus its total of payments. */
  lemma DashboardBalance(t: Tables)
    requires Valid(t)
    ensures var s := FetchStats(t); s.totalDebt == s.totalPurchases - s.totalPayments
  {
    var cs := t.customers;
    forall i, j | 0 <= i < j < |cs| ensures cs[i].id != cs[j].id {
      AscendingDistinct(cs, CustomerId, t.clock, i, j);
    }
    SplitByCustomer(cs, t.purchases, PurchaseOwner, PurchaseAmount);
    SplitByCustomer(cs, t.payments, PaymentOwner, PaymentAmount);
    DebtsArePerCustomer(t, cs);
  }
}
