/**
 * The search-customer page: looking a customer up by name and showing their
 * purchases and payments, newest first.
 */
module SearchCustomer {
  import opened Wrappers
  import opened Text
  import opened Collections
  import opened Schema

  /** What the page shows: the customer found, their history, and whether a search ran. */
  datatype SearchView = SearchView(customer: Option<Customer>, purchases: seq<Purchase>, payments: seq<Payment>, searched: bool)

  /** The page before any search. */
  const InitialView := SearchView(None, [], [], false)

  /** The history of customer `id`, newest first. */
  function History(t: Tables, id: nat): (seq<Purchase>, seq<Payment>) {
    (Reverse(PurchasesOf(t, id)), Reverse(PaymentsOf(t, id)))
  }

  /**
   * `handleSearch`: a blank query changes nothing; otherwise the search is
   * marked as run, and either the first customer whose name equals the trimmed
   * query up to case is shown with that customer's purchases and payments, or
   * the customer and both lists are cleared.
   */
  function Search(t: Tables, query: string, v: SearchView): (r: SearchView)
    ensures IsBlank(query) ==> r == v
    ensures !IsBlank(query) ==> r.searched
    ensures !IsBlank(query) ==>
      (r.customer.None? <==> forall i :: 0 <= i < |t.customers| ==> !SameName(t.customers[i].name, Trim(query)))
    ensures !IsBlank(query) && r.customer.Some? ==>
      && r.customer.value in t.customers
      && SameName(r.customer.value.name, Trim(query))
      && (r.purchases, r.payments) == History(t, r.customer.value.id)
    ensures !IsBlank(query) && r.customer.None? ==> r.purchases == [] && r.payments == []
  {
    var name := Trim(query);
    if name == [] then v
    else match FindByName(t.customers, name)
      case Some(k) =>
        var (purchases, payments) := History(t, t.customers[k].id);
        SearchView(Some(t.customers[k]), purchases, payments, true)
      case None => SearchView(None, [], [], true)
  }

  /**
   * On a hit the page shows exactly the customer's own purchases and payments,
   * each list strictly newest first.
   */
  lemma SearchShowsHistory(t: Tables, query: string, v: SearchView)
    requires WellFormed(t)
    ensures var r := Search(t, query, v);
      !IsBlank(query) && r.customer.Some? ==>
        var id := r.customer.value.id;
        && (forall p :: p in r.purchases <==> p in t.purchases && p.customerId == id)
        && (forall q :: q in r.payments <==> q in t.payments && q.customerId == id)
        && Descending(r.purchases, PurchaseCreated)
        && Descending(r.payments, PaymentCreated)
  {
    var r := Search(t, query, v);
    if !IsBlank(query) && r.customer.Some? {
      var id := r.customer.value.id;
      OwnedByMembers(t.purchases, PurchaseOwner, id);
      OwnedByMembers(t.payments, PaymentOwner, id);
      OwnedByAscending(t.purchases, PurchaseOwner, id, PurchaseCreated, t.clock);
      OwnedByAscending(t.payments, PaymentOwner, id, PaymentCreated, t.clock);
      ReverseDescending(PurchasesOf(t, id), PurchaseCreated, t.clock);
      ReverseDescending(PaymentsOf(t, id), PaymentCreated, t.clock);
    }
  }

  /** The page's state, assigned field by field as the handler does. */
  class CustomerSearch {
    var customer: Option<Customer>
    var purchases: seq<Purchase>
    var payments: seq<Payment>
    var searched: bool

    function View(): SearchView
      reads this
    {
      SearchView(customer, purchases, payments, searched)
    }

    /**
     * The page opens on the name handed over by the page that linked to it,
     * and searches for it at once; an empty name leaves the initial view.
     */
    constructor (t: Tables, customerName: string)
      ensures View() == Search(t, customerName, InitialView)
    {
      customer := None;
      purchases := [];
      payments := [];
      searched := false;
      new;
      HandleSearch(t, customerName);
    }

    /** `handleSearch` against the store's current tables. */
    method HandleSearch(t: Tables, query: string)
      modifies this
      ensures View() == Search(t, query, old(View()))
    {
      var name := Trim(query);
      if name == [] {
        return;
      }
      searched := true;
      var found := FindByName(t.customers, name);
      if found.Some? {
        var c := t.customers[found.value];
        customer := Some(c);
        purchases := Reverse(PurchasesOf(t, c.id));
        payments := Reverse(PaymentsOf(t, c.id));
      } else {
        customer := None;
        purchases := [];
        payments := [];
      }
    }
  }
}
