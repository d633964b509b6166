/**
 * The new-transaction page: the editor for the list of purchase lines and the
 * submit handler that records a purchase, creating the customer on first use.
 */
module NewTransaction {
  import opened Wrappers
  import opened Text
  import opened Collections
  import opened Schema

  /** The line the editor starts with and appends: no name, price 0. */
  const BlankItem := Item("", 0)

  /** The editor's initial state: a single blank line. */
  const InitialItems := [BlankItem]

  /** One change typed into a line: `updateItem(index, "name" | "price", value)`. */
  datatype ItemUpdate = SetName(name: string) | SetPrice(price: int)

  function Price(item: Item): int { item.price }

  /** `addItem`: one blank line at the end, the existing lines kept in order. */
  function AddItem(items: seq<Item>): (r: seq<Item>)
    ensures |r| == |items| + 1 && r[..|items|] == items && r[|items|] == BlankItem
  {
    items + [BlankItem]
  }

  /** `items.filter((_, i) => i !== index)` */
  function Without(items: seq<Item>, index: int): (r: seq<Item>)
    ensures 0 <= index < |items| ==> r == items[..index] + items[index + 1..]
    ensures !(0 <= index < |items|) ==> r == items
  {
    if items == [] then []
    else
      var rest := Without(items[1..], index - 1);
      if index == 0 then rest else [items[0]] + rest
  }

  /**
   * `removeItem`: the list never becomes empty. A single line stays; otherwise
   * only the line at `index` goes and the others keep their order.
   */
  function RemoveItem(items: seq<Item>, index: int): (r: seq<Item>)
    ensures |items| <= 1 ==> r == items
    ensures |items| > 1 && 0 <= index < |items| ==> r == items[..index] + items[index + 1..]
    ensures |items| > 1 && !(0 <= index < |items|) ==> r == items
    ensures |items| >= 1 ==> |r| >= 1
  {
    if |items| > 1 then Without(items, index) else items
  }

  function Apply(item: Item, u: ItemUpdate): Item {
    match u
    case SetName(n) => item.(name := n)
    case SetPrice(p) => item.(price := p)
  }

  /**
   * `updateItem`: only the named field of the line at `index` changes; the
   * length and every other line are as they were.
   */
  function UpdateItem(items: seq<Item>, index: nat, u: ItemUpdate): (r: seq<Item>)
    requires index < |items|
    ensures |r| == |items|
    ensures forall j :: 0 <= j < |items| && j != index ==> r[j] == items[j]
    ensures u.SetName? ==> r[index] == Item(u.name, items[index].price)
    ensures u.SetPrice? ==> r[index] == Item(items[index].name, u.price)
  {
    items[index := Apply(items[index], u)]
  }

  /** `calculateTotal`: the sum of the prices of all lines. */
  function Total(items: seq<Item>): (r: int)
    ensures items == [] ==> r == 0
    ensures (forall i :: 0 <= i < |items| ==> items[i].price >= 0) ==> r >= 0
  {
    SumOfNonNegative(items, Price);
    SumOf(items, Price)
  }

  /** The running sum of `reduce`: each further line adds its price. */
  lemma TotalSnoc(items: seq<Item>, x: Item)
    ensures Total(items + [x]) == Total(items) + x.price
  {
    SumOfAppend(items, [x], Price);
    assert [x][1..] == [];
  }

  /** A line counts when its trimmed name is not empty and its price is positive. */
  predicate IsValidItem(item: Item) {
    !IsBlank(item.name) && item.price > 0
  }

  /** `items.filter((item) => item.name.trim() && item.price > 0)` */
  function ValidItems(items: seq<Item>): (r: seq<Item>)
    ensures |r| <= |items|
    ensures forall i :: 0 <= i < |r| ==> IsValidItem(r[i]) && r[i] in items
  {
    FilterMembers(items, IsValidItem);
    Filter(items, IsValidItem)
  }

  /** A line is stored exactly when it is one of the lines and it is valid. */
  lemma ValidItemsMembers(items: seq<Item>)
    ensures forall x :: x in ValidItems(items) <==> x in items && IsValidItem(x)
  {
    FilterMembers(items, IsValidItem);
  }

  /** The filter keeps the order of the lines: filtering a concatenation concatenates the filtered parts. */
  lemma ValidItemsAppend(a: seq<Item>, b: seq<Item>)
    ensures ValidItems(a + b) == ValidItems(a) + ValidItems(b)
  {
    FilterAppend(a, b, IsValidItem);
  }

  /** Nothing is stored exactly when no line has a non-blank name and a positive price. */
  lemma NothingValid(items: seq<Item>)
    ensures ValidItems(items) == [] <==> forall i :: 0 <= i < |items| ==> !IsValidItem(items[i])
  {
    FilterMembers(items, IsValidItem);
    if ValidItems(items) != [] {
      assert ValidItems(items)[0] in ValidItems(items);
    }
  }

  /** Appending a blank line does not change the total. */
  lemma AddItemTotal(items: seq<Item>)
    ensures Total(AddItem(items)) == Total(items)
  {
    SumOfAppend(items, [BlankItem], Price);
  }

  /** Removing the line at `index` lowers the total by that line's price. */
  lemma RemoveItemTotal(items: seq<Item>, index: nat)
    requires 1 < |items| && index < |items|
    ensures Total(RemoveItem(items, index)) == Total(items) - items[index].price
  {
    assert items == items[..index] + [items[index]] + items[index + 1..];
    SumOfAppend(items[..index] + [items[index]], items[index + 1..], Price);
    SumOfAppend(items[..index], [items[index]], Price);
    SumOfAppend(items[..index], items[index + 1..], Price);
  }

  /** Setting one line's price changes the total by the difference; renaming leaves it. */
  lemma UpdateItemTotal(items: seq<Item>, index: nat, u: ItemUpdate)
    requires index < |items|
    ensures Total(UpdateItem(items, index, u))
         == Total(items) - items[index].price + (if u.SetPrice? then u.price else items[index].price)
  {
    var r := UpdateItem(items, index, u);
    assert items == items[..index] + [items[index]] + items[index + 1..];
    assert r == items[..index] + [r[index]] + items[index + 1..];
    SumOfAppend(items[..index] + [items[index]], items[index + 1..], Price);
    SumOfAppend(items[..index], [items[index]], Price);
    SumOfAppend(items[..index] + [r[index]], items[index + 1..], Price);
    SumOfAppend(items[..index], [r[index]], Price);
  }

  /** Removing the line just added gives the list back. */
  lemma RemoveUndoesAdd(items: seq<Item>)
    requires items != []
    ensures RemoveItem(AddItem(items), |items|) == items
  {
  }

  /**
   * With no negative prices (the price input has `min="0"`), the stored lines
   * never sum to more than the total charged, which counts every line.
   */
  lemma {:induction false} ValidTotalAtMost(items: seq<Item>)
    requires forall i :: 0 <= i < |items| ==> items[i].price >= 0
    ensures Total(ValidItems(items)) <= Total(items)
  {
    if items != [] {
      ValidTotalAtMost(items[1..]);
      var head := if IsValidItem(items[0]) then [items[0]] else [];
      SumOfAppend(head, ValidItems(items[1..]), Price);
    }
  }

  /** A line with a blank name but a price is charged and not stored. */
  lemma ChargedButNotStored()
    ensures var items := [Item("tea", 1000), Item(" ", 500)];
      Total(items) == 1500 && ValidItems(items) == [Item("tea", 1000)]
  {
    var tea, blank := Item("tea", 1000), Item(" ", 500);
    NotBlank(tea.name, 0);
    BlankIff(blank.name);
    assert [tea, blank] == [tea] + [blank];
    FilterAppend([tea], [blank], IsValidItem);
    assert [tea][1..] == [] && [blank][1..] == [];
    SumOfAppend([tea], [blank], Price);
  }

  /** An invalid line contributes nothing to the stored lines. */
  lemma ValidItemsSkip(a: seq<Item>, x: Item, b: seq<Item>)
    requires !IsValidItem(x)
    ensures ValidItems(a + [x] + b) == ValidItems(a) + ValidItems(b)
  {
    assert [x][0] == x && [x][1..] == [];
    assert ValidItems([x]) == [] + ValidItems([]);
    ValidItemsAppend(a, [x]);
    assert ValidItems(a + [x]) == ValidItems(a);
    ValidItemsAppend(a + [x], b);
  }

  /** The total of `a + [x] + b` is the totals of the parts plus the price of `x`. */
  lemma TotalSplit(a: seq<Item>, x: Item, b: seq<Item>)
    ensures Total(a + [x] + b) == Total(a) + x.price + Total(b)
  {
    SumOfAppend(a + [x], b, Price);
    TotalSnoc(a, x);
  }

  /** A list is the lines before `i`, the line at `i` and the lines after it. */
  lemma SplitAt(items: seq<Item>, i: nat)
    requires i < |items|
    ensures items == items[..i] + [items[i]] + items[i + 1..]
  {
  }

  /** The split form of the lemma below: `x` sits between `a` and `b`. */
  lemma InvalidLineChargedSplit(a: seq<Item>, x: Item, b: seq<Item>)
    requires forall j :: 0 <= j < |a| ==> a[j].price >= 0
    requires forall j :: 0 <= j < |b| ==> b[j].price >= 0
    requires !IsValidItem(x)
    ensures Total(ValidItems(a + [x] + b)) + x.price <= Total(a + [x] + b)
  {
    ValidItemsSkip(a, x, b);
    SumOfAppend(ValidItems(a), ValidItems(b), Price);
    TotalSplit(a, x, b);
    ValidTotalAtMost(a);
    ValidTotalAtMost(b);
  }

  /**
   * Any invalid line with a positive price is charged but not stored: with no
   * negative prices, it is missing from the stored lines, and the stored lines
   * sum to at most the total less that line's price.
   */
  lemma InvalidLineCharged(items: seq<Item>, i: nat)
    requires forall j :: 0 <= j < |items| ==> items[j].price >= 0
    requires i < |items| && !IsValidItem(items[i]) && items[i].price > 0
    ensures items[i] !in ValidItems(items)
    ensures Total(ValidItems(items)) + items[i].price <= Total(items)
  {
    assert items[i] !in ValidItems(items) by {
      ValidItemsMembers(items);
    }
    var a, x, b := items[..i], items[i], items[i + 1..];
    SplitAt(items, i);
    assert forall j :: 0 <= j < |a| ==> a[j].price >= 0 by {
      assert forall j :: 0 <= j < |a| ==> a[j] == items[j];
    }
    assert forall j :: 0 <= j < |b| ==> b[j].price >= 0 by {
      assert forall j :: 0 <= j < |b| ==> b[j] == items[i + 1 + j];
    }
    InvalidLineChargedSplit(a, x, b);
  }

  /** What the submit handler reports. */
  datatype PurchaseOutcome =
    | NameMissing
    | NoValidItems
    | Recorded(customerId: nat, newCustomer: bool)

  /** Inserts a purchase row stamped with the counter. */
  function InsertPurchase(t: Tables, customerId: nat, items: seq<Item>, total: int): Tables {
    Tables(t.customers, t.purchases + [Purchase(t.clock, customerId, items, total, t.clock)], t.payments, t.clock + 1)
  }

  /** The customer at `k` exists: raise their debt by `total`, then insert the purchase. */
  function ChargeExisting(t: Tables, k: nat, valid: seq<Item>, total: int): Tables
    requires k < |t.customers|
  {
    var c := t.customers[k];
    InsertPurchase(t.(customers := SetDebt(t.customers, c.id, c.totalDebt + total)), c.id, valid, total)
  }

  /** No customer matched: insert one named `name` owing `total`, then insert the purchase. */
  function ChargeNew(t: Tables, name: string, valid: seq<Item>, total: int): Tables {
    var created := t.(customers := t.customers + [Customer(t.clock, name, total, t.clock)], clock := t.clock + 1);
    InsertPurchase(created, t.clock, valid, total)
  }

  /**
   * `handleSubmit` of the new-transaction page, as one atomic step: reject a
   * blank customer name or a list without a valid line; otherwise add the
   * total of all lines to the debt of the first customer whose name matches
   * the trimmed name up to case, or create that customer with the total as
   * debt, and then append one purchase holding the valid lines.
   */
  function PurchaseStep(t: Tables, customerName: string, items: seq<Item>): (r: (Tables, PurchaseOutcome))
    ensures IsBlank(customerName) ==> r == (t, NameMissing)
    ensures !IsBlank(customerName) && ValidItems(items) == [] ==> r == (t, NoValidItems)
    ensures r.1.Recorded? <==> !IsBlank(customerName) && ValidItems(items) != []
    ensures r.1.Recorded? ==> (r.1.newCustomer <==> FindByName(t.customers, Trim(customerName)).None?)
  {
    var name := Trim(customerName);
    if name == [] then (t, NameMissing)
    else
      var valid := ValidItems(items);
      if valid == [] then (t, NoValidItems)
      else
        var total := Total(items);
        match FindByName(t.customers, name)
        case Some(k) => (ChargeExisting(t, k, valid, total), Recorded(t.customers[k].id, false))
        case None => (ChargeNew(t, name, valid, total), Recorded(t.clock, true))
  }

  /**
   * Charging an existing customer: their debt rises by exactly the total, no
   * customer is added, no other customer row changes, and one purchase is
   * appended. Only distinct ids are needed.
   */
  lemma ChargeExistingRows(t: Tables, k: nat, valid: seq<Item>, total: int)
    requires k < |t.customers| && Ascending(t.customers, CustomerId, t.clock)
    ensures var t' := ChargeExisting(t, k, valid, total);
      && t'.customers == t.customers[k := t.customers[k].(totalDebt := t.customers[k].totalDebt + total)]
      && t'.purchases == t.purchases + [Purchase(t.clock, t.customers[k].id, valid, total, t.clock)]
      && t'.payments == t.payments
      && t'.clock == t.clock + 1
  {
    SetDebtAt(t.customers, k, t.customers[k].totalDebt + total, t.clock);
  }

  /**
   * A recorded submission appends exactly one purchase, for the resolved
   * customer, holding the valid lines and the total of all lines; it records
   * no payment, and a new customer is inserted with the trimmed name and the
   * total as debt.
   */
  lemma PurchaseStepAppends(t: Tables, customerName: string, items: seq<Item>)
    ensures var (t', out) := PurchaseStep(t, customerName, items);
      out.Recorded? ==>
        && t'.payments == t.payments
        && t'.purchases == t.purchases + [Purchase(t'.clock - 1, out.customerId, ValidItems(items), Total(items), t'.clock - 1)]
        && (out.newCustomer ==> t'.customers == t.customers + [Customer(t.clock, Trim(customerName), Total(items), t.clock)])
  {
    var name := Trim(customerName);
    var valid := ValidItems(items);
    if name != [] && valid != [] {
      match FindByName(t.customers, name)
      case Some(k) =>
        var t' := ChargeExisting(t, k, valid, Total(items));
        assert t'.purchases == t.purchases + [Purchase(t.clock, t.customers[k].id, valid, Total(items), t.clock)];
      case None =>
    }
  }

  /** A name that matches a customer up to case charges the first such customer. */
  lemma PurchaseStepCharges(t: Tables, customerName: string, items: seq<Item>, k: nat)
    requires !IsBlank(customerName) && ValidItems(items) != []
    requires FindByName(t.customers, Trim(customerName)) == Some(k)
    ensures PurchaseStep(t, customerName, items)
         == (ChargeExisting(t, k, ValidItems(items), Total(items)), Recorded(t.customers[k].id, false))
  {
  }

  /** A name that matches no customer creates one, stamped with the counter. */
  lemma PurchaseStepCreates(t: Tables, customerName: string, items: seq<Item>)
    requires !IsBlank(customerName) && ValidItems(items) != []
    requires FindByName(t.customers, Trim(customerName)).None?
    ensures PurchaseStep(t, customerName, items)
         == (ChargeNew(t, Trim(customerName), ValidItems(items), Total(items)), Recorded(t.clock, true))
  {
  }

  /** When some customer's name matches, the handler never creates a duplicate. */
  lemma PurchaseNoDuplicate(t: Tables, customerName: string, items: seq<Item>, i: nat)
    requires i < |t.customers| && SameName(t.customers[i].name, Trim(customerName))
    ensures var (t', out) := PurchaseStep(t, customerName, items);
      out.Recorded? ==> !out.newCustomer && |t'.customers| == |t.customers|
  {
  }

  /** Charging an existing customer keeps the shape of the store. */
  lemma ChargeExistingWellFormed(t: Tables, k: nat, valid: seq<Item>, total: int)
    requires WellFormed(t) && k < |t.customers|
    ensures WellFormed(ChargeExisting(t, k, valid, total))
  {
    var c := t.customers[k];
    ChargeExistingRows(t, k, valid, total);
    ChargeRowWellFormed(t, k, c.totalDebt + total, Purchase(t.clock, c.id, valid, total, t.clock),
                        ChargeExisting(t, k, valid, total));
  }

  /** Charging an existing customer keeps every customer's debt equal to purchases minus payments. */
  lemma ChargeExistingBalanced(t: Tables, k: nat, valid: seq<Item>, total: int)
    requires Balanced(t) && k < |t.customers| && Ascending(t.customers, CustomerId, t.clock)
    ensures Balanced(ChargeExisting(t, k, valid, total))
  {
    var c := t.customers[k];
    ChargeExistingRows(t, k, valid, total);
    ChargeRowBalanced(t, k, c.totalDebt + total, Purchase(t.clock, c.id, valid, total, t.clock),
                      ChargeExisting(t, k, valid, total));
  }

  lemma ChargeExistingPreservesValid(t: Tables, k: nat, valid: seq<Item>, total: int)
    requires Valid(t) && k < |t.customers|
    ensures Valid(ChargeExisting(t, k, valid, total))
  {
    ChargeExistingWellFormed(t, k, valid, total);
    ChargeExistingBalanced(t, k, valid, total);
  }

  /** Creating a customer with the purchase keeps the shape of the store. */
  lemma ChargeNewWellFormed(t: Tables, name: string, valid: seq<Item>, total: int)
    requires WellFormed(t)
    ensures WellFormed(ChargeNew(t, name, valid, total))
  {
    NewRowWellFormed(t, Customer(t.clock, name, total, t.clock), Purchase(t.clock + 1, t.clock, valid, total, t.clock + 1),
                     ChargeNew(t, name, valid, total));
  }

  /** Creating a customer with the purchase keeps the balance of every customer. */
  lemma ChargeNewBalanced(t: Tables, name: string, valid: seq<Item>, total: int)
    requires Balanced(t) && Owed(t, t.clock) == 0 && t.clock !in Ids(t.customers)
    ensures Balanced(ChargeNew(t, name, valid, total))
  {
    NewRowBalanced(t, Customer(t.clock, name, total, t.clock), Purchase(t.clock + 1, t.clock, valid, total, t.clock + 1),
                   ChargeNew(t, name, valid, total));
  }

  lemma ChargeNewPreservesValid(t: Tables, name: string, valid: seq<Item>, total: int)
    requires Valid(t)
    ensures Valid(ChargeNew(t, name, valid, total))
  {
    OwedFresh(t);
    ChargeNewWellFormed(t, name, valid, total);
    ChargeNewBalanced(t, name, valid, total);
  }

  /** Recording a purchase keeps every customer's debt equal to purchases minus payments. */
  lemma PurchasePreservesValid(t: Tables, customerName: string, items: seq<Item>)
    requires Valid(t)
    ensures Valid(PurchaseStep(t, customerName, items).0)
  {
    var name := Trim(customerName);
    var valid := ValidItems(items);
    if name != [] && valid != [] {
      match FindByName(t.customers, name)
      case Some(k) => ChargeExistingPreservesValid(t, k, valid, Total(items));
      case None => ChargeNewPreservesValid(t, name, valid, Total(items));
    }
  }
}
