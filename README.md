# Customer ledger

A model of the customer ledger behind five pages of a small shop-credit web app:

- **New transaction** records a purchase on credit. It validates the customer name and the line items. It then either raises the matching customer's debt or creates the customer, and appends a purchase row.
- **Record payment** selects a customer by name. It checks the payment amount against the selected customer's debt, lowers the debt and appends a payment row.
- **All customers** lists customers newest first, each with their payments newest first. It shows the "last installment" cell, computes the spreadsheet export rows, and deletes a customer together with their purchases and payments.
- **Search customer** looks a customer up by name and shows their purchases and payments, newest first.
- **Dashboard** shows the number of customers and three sums: total debt, total purchases and total payments.

## The model

- **Store.** The remote table store is three in-memory tables, `Schema.Tables`. The tables also carry a counter, `clock`, that stamps each inserted row with its `id` and its `created_at`.
  - Rows are kept in insertion order, so "ordered by `created_at`, descending" is the reversed table.
  - The invariant `Schema.Valid` says that:
    - customer rows are strictly ascending by id and by creation stamp, so customer ids are distinct;
    - purchase and payment rows are strictly ascending by creation stamp (their own ids are not constrained, since nothing looks them up);
    - every purchase and payment belongs to an existing customer;
    - every customer's `total_debt` equals the sum of their purchase totals minus the sum of their payments (`Schema.Balanced`).
- **Money** is an integer in minor units. A payment amount that does not parse (`NaN`) is `None`.
- **Name matching.** The store's case-insensitive name match (`ilike`, with no wildcard in the pattern) is equality under an ASCII lower-case fold (`Text.Fold`). A lookup limited to one row returns the first match in table order (`Schema.FindByName`).
- **Trimming.** `trim()` removes the JavaScript whitespace characters from both ends (`Text.Trim`).
- **Handlers as steps.** Each submit or delete handler that succeeds is one atomic step, written twice:
  - as a pure step function (`NewTransaction.PurchaseStep`, `RecordPayment.PaymentStep`, `AllCustomers.DeleteStep`);
  - as a method of the class `Ledger.Store`, which updates the store field by field as the handler does and is proved equal to the step function.
- **Reachability.** `Ledger.Run` applies any sequence of the model's handler steps (`Ledger.Op`). `Ledger.ReachableBalance` proves that in every store these steps reach from the empty one, the dashboard's total debt equals its total purchases minus its total payments. The step `Op.NewPayment` always pays a customer selected by a search in the current store. The program can also pay from older rows, and that can break the balance (see "## Left out").
- **Page state.** The selected customer of the payment page is the class `RecordPayment.PaymentForm`. The search page's state is the class `SearchCustomer.CustomerSearch`.

Three behaviours of the code are easy to mistake for something else, and the model keeps them as written:

- A new customer is inserted with the purchase total as debt in a single insert. The customer is not first created owing 0 and then charged; the end state would be the same either way.
- The purchase total is the sum of all lines, including lines dropped because they are invalid (`NewTransaction.InvalidLineCharged`). The submit handler silently drops a line with a blank name or a non-positive price rather than rejecting it. On the lines alone, the handler refuses a submission only when none of them is valid. The page's form checks refuse many such lines before the handler runs; a name made only of white space still gets through (see "## Left out").
- The pages' name search is an exact match up to case that returns at most one customer. It is not a substring search returning every match.

## Model

| member | source | states |
|---|---|---|
| Text.Trim | src/pages/NewTransaction.tsx:45 | the trimmed name is no longer than the input and starts and ends with a non-space character |
| Text.TrimStartDropsSpace | src/pages/NewTransaction.tsx:45 | every character removed from the front is white space |
| Text.TrimEndDropsSpace | src/pages/NewTransaction.tsx:45 | every character removed from the end is white space |
| Text.BlankIff | src/pages/NewTransaction.tsx:45 | a name trims to empty exactly when every character is white space |
| Schema.FindByName | src/pages/NewTransaction.tsx:62-66 | the lookup finds the first customer whose name matches up to case; it finds nothing exactly when no name matches |
| Schema.SetDebt | src/pages/NewTransaction.tsx:77-80 | the update by id writes the new debt into the rows with that id and leaves every other row unchanged |
| Schema.SetDebtIds | src/pages/RecordPayment.tsx:80-83 | updating a debt keeps the set of customer ids |
| Schema.SetDebtAt | src/pages/RecordPayment.tsx:80-83 | with distinct ids, the update by id touches exactly one row |
| Schema.OwedAfterPurchase | src/pages/NewTransaction.tsx:96-100 | appending a purchase raises the amount its owner owes by the purchase total, and nobody else's |
| Schema.OwedAfterPayment | src/pages/RecordPayment.tsx:88-91 | appending a payment lowers the amount its owner owes by the amount paid, and nobody else's |
| Schema.OwedFresh | src/pages/NewTransaction.tsx:85-89 | in a well-formed store the next id belongs to no customer and owes nothing |
| NewTransaction.AddItem | src/pages/NewTransaction.tsx:22-24 | appends exactly one blank line and keeps every existing line in order |
| NewTransaction.RemoveItem | src/pages/NewTransaction.tsx:26-30 | with one line it changes nothing; otherwise it drops exactly the line at the index and keeps the rest in order; the list never becomes empty |
| NewTransaction.UpdateItem | src/pages/NewTransaction.tsx:32-36 | only the named field of the line at the index changes; the length and every other line stay the same |
| NewTransaction.Total | src/pages/NewTransaction.tsx:38-40 | an empty list totals 0, and with no negative price the total is not negative |
| NewTransaction.ValidItems | src/pages/NewTransaction.tsx:50 | the stored lines are no more than the lines, and each is one of the lines with a non-blank name and a positive price (the converse and the order are in the next two rows) |
| NewTransaction.TotalSnoc | src/pages/NewTransaction.tsx:38-40 | the running sum: each further line adds exactly its price to the total |
| NewTransaction.ValidItemsMembers | src/pages/NewTransaction.tsx:50 | a line is stored exactly when it is one of the lines and has a non-blank name and a positive price |
| NewTransaction.ValidItemsAppend | src/pages/NewTransaction.tsx:50 | the filter keeps the lines' order: filtering two parts one after the other gives the filtered parts one after the other |
| NewTransaction.AddItemTotal | src/pages/NewTransaction.tsx:22-24 | adding a blank line leaves the total unchanged |
| NewTransaction.RemoveItemTotal | src/pages/NewTransaction.tsx:26-30 | removing a line lowers the total by that line's price |
| NewTransaction.UpdateItemTotal | src/pages/NewTransaction.tsx:32-40 | renaming a line keeps the total; repricing it shifts the total by the change in price |
| NewTransaction.RemoveUndoesAdd | src/pages/NewTransaction.tsx:22-30 | removing the line just added restores the list |
| NewTransaction.NothingValid | src/pages/NewTransaction.tsx:50-54 | no line survives the filter exactly when no line has a non-blank name and a positive price |
| NewTransaction.ValidTotalAtMost | src/pages/NewTransaction.tsx:50-59 | with non-negative prices the valid lines never sum to more than the total |
| NewTransaction.InvalidLineCharged | src/pages/NewTransaction.tsx:50-59 | with no negative prices, any invalid line with a positive price is missing from the stored lines, and the stored lines sum to at most the total less that line's price |
| NewTransaction.ChargedButNotStored | src/pages/NewTransaction.tsx:50-59 | a witness for the lemma above: for the lines `tea` at 1000 and a blank name at 500, the total is 1500 and only `tea` is stored |
| NewTransaction.PurchaseStep | src/pages/NewTransaction.tsx:42-112 | a blank name or no valid line leaves the store unchanged and reports why; otherwise a purchase is recorded, and a customer is created exactly when no name matches |
| NewTransaction.ChargeExistingRows | src/pages/NewTransaction.tsx:70-82 | an existing customer's debt rises by exactly the total, no other customer row changes, and one purchase is appended |
| NewTransaction.PurchaseStepAppends | src/pages/NewTransaction.tsx:84-100 | a recorded submission appends exactly one purchase for the resolved customer, holding the valid lines and the total; it records no payment; a created customer has the trimmed name and the total as debt |
| NewTransaction.PurchaseStepCharges | src/pages/NewTransaction.tsx:62-82 | a name matching a customer charges the first matching customer |
| NewTransaction.PurchaseStepCreates | src/pages/NewTransaction.tsx:84-93 | a name matching no customer creates one stamped with the next id |
| NewTransaction.PurchaseNoDuplicate | src/pages/NewTransaction.tsx:62-82 | when some customer's name matches up to case, no customer is created |
| NewTransaction.ChargeExistingWellFormed | src/pages/NewTransaction.tsx:70-100 | charging an existing customer keeps ids ordered and every row owned |
| NewTransaction.ChargeExistingBalanced | src/pages/NewTransaction.tsx:75-100 | charging an existing customer keeps every debt equal to purchases minus payments |
| NewTransaction.ChargeExistingPreservesValid | src/pages/NewTransaction.tsx:70-100 | charging an existing customer keeps the store valid |
| NewTransaction.ChargeNewWellFormed | src/pages/NewTransaction.tsx:84-100 | creating a customer keeps ids ordered and every row owned |
| NewTransaction.ChargeNewBalanced | src/pages/NewTransaction.tsx:87-100 | creating a customer with the total as debt keeps every debt equal to purchases minus payments |
| NewTransaction.ChargeNewPreservesValid | src/pages/NewTransaction.tsx:84-100 | creating a customer keeps the store valid |
| NewTransaction.PurchasePreservesValid | src/pages/NewTransaction.tsx:42-112 | every submission keeps a valid store valid |
| RecordPayment.CheckPayment | src/pages/RecordPayment.tsx:58-77 | rejects a missing customer, then a NaN or non-positive amount, then an amount above the debt, each exactly in its case; an accepted amount gives a new debt equal to the old debt minus the amount, between 0 and the old debt |
| RecordPayment.PayInFull | src/pages/RecordPayment.tsx:69-77 | paying exactly the debt is accepted and leaves debt 0 |
| RecordPayment.AcceptedExactly | src/pages/RecordPayment.tsx:63-72 | an amount is accepted exactly when it is positive and at most the debt |
| RecordPayment.PaymentStep | src/pages/RecordPayment.tsx:55-103 | a rejected submission leaves the store unchanged; an accepted one writes the new debt for the selected id and appends one payment of the amount for that id |
| RecordPayment.PaymentChargesSelected | src/pages/RecordPayment.tsx:77-83 | for a current row, the payment lowers exactly that row's debt by the amount and no other customer row changes |
| RecordPayment.PaymentWellFormed | src/pages/RecordPayment.tsx:80-91 | a payment for a current row keeps ids ordered and every row owned |
| RecordPayment.PaymentBalanced | src/pages/RecordPayment.tsx:77-91 | a payment for a current row keeps every debt equal to purchases minus payments |
| RecordPayment.PaymentPreservesValid | src/pages/RecordPayment.tsx:55-103 | a payment keeps a valid store valid when the selected customer is a current row |
| RecordPayment.StaleSnapshotUnbalances | src/pages/RecordPayment.tsx:69-83 | in any valid store, when the selected snapshot has a row's id but a debt different from that row's, an accepted payment leaves that row's debt no longer equal to purchases minus payments |
| RecordPayment.RepeatedPaymentUnbalances | src/pages/RecordPayment.tsx:21-96 | in a valid store, paying twice from the row the page was opened with keeps the store valid after the first payment and unbalances that customer after the second |
| RecordPayment.SelectCustomer | src/pages/RecordPayment.tsx:28-53 | a blank query keeps the selection; otherwise the customer the lookup finds (the first whose name matches the trimmed query up to case) is selected, and the selection is cleared exactly when none matches |
| RecordPayment.PaymentForm.constructor | src/pages/RecordPayment.tsx:21-23 | the page opens with the customer handed over, or none |
| RecordPayment.PaymentForm.HandleSearch | src/pages/RecordPayment.tsx:28-53 | updates the selection as the search selects |
| RecordPayment.PaymentForm.Clear | src/pages/RecordPayment.tsx:205-212 | the "change customer" button leaves no customer selected |
| AllCustomers.Listing | src/pages/AllCustomers.tsx:49-85 | one entry per customer, in reverse table order |
| AllCustomers.ListingNewestFirst | src/pages/AllCustomers.tsx:52-64 | customers are listed strictly newest first; each entry holds exactly that customer's payments, strictly newest first |
| AllCustomers.ExportRows | src/pages/AllCustomers.tsx:122-133 | one row per listed customer in list order, with the customer's name and debt, the number of the entry's payments, their sum, and the customer's creation stamp |
| AllCustomers.ExportMatchesStore | src/pages/AllCustomers.tsx:123-129 | a row's installment count and total paid are those of the customer's payments in the store; in a balanced store the row's debt is purchases minus that total |
| AllCustomers.LastInstallment | src/pages/AllCustomers.tsx:212-229 | no installment exactly when the entry has no payments; otherwise one of its payments |
| AllCustomers.LastInstallmentIsNewest | src/pages/AllCustomers.tsx:212-229 | the cell shows none exactly when the customer has paid nothing, and otherwise their most recent payment |
| AllCustomers.DeleteStep | src/pages/AllCustomers.tsx:87-120 | with no customer marked, nothing changes; deletion never moves the counter |
| AllCustomers.DeleteRemovesCustomer | src/pages/AllCustomers.tsx:92-99 | after deletion no row refers to the customer, and every row of another customer is still there |
| AllCustomers.DeleteWellFormed | src/pages/AllCustomers.tsx:92-99 | deletion keeps rows ordered and every remaining purchase and payment owned by a remaining customer |
| AllCustomers.DeleteBalanced | src/pages/AllCustomers.tsx:92-99 | deletion keeps every remaining debt equal to purchases minus payments |
| AllCustomers.DeletePreservesValid | src/pages/AllCustomers.tsx:87-120 | deletion keeps a valid store valid |
| SearchCustomer.Search | src/pages/SearchCustomer.tsx:49-97 | a blank query changes nothing; otherwise the search is marked as run, a hit shows a customer whose name matches the trimmed query up to case with that customer's history, and a miss clears the customer and both lists |
| SearchCustomer.SearchShowsHistory | src/pages/SearchCustomer.tsx:64-86 | on a hit the lists hold exactly the customer's purchases and payments, each strictly newest first |
| SearchCustomer.CustomerSearch.constructor | src/pages/SearchCustomer.tsx:34-47 | the page opens by searching for the name handed over; an empty name leaves the initial view |
| SearchCustomer.CustomerSearch.HandleSearch | src/pages/SearchCustomer.tsx:49-97 | assigns the page state as the search computes it |
| Dashboard.FetchStats | src/pages/Dashboard.tsx:16-44 | empty tables give a count and three sums of 0 |
| Dashboard.EmptyStats | src/pages/Dashboard.tsx:16-21 | the figures of the empty store are the page's initial figures |
| Dashboard.SplitByCustomer | src/pages/Dashboard.tsx:38-41 | with distinct ids and owned rows, a table's sum is the sum over customers of each customer's share |
| Dashboard.DebtsArePerCustomer | src/pages/Dashboard.tsx:36-41 | when each debt equals purchases minus payments, the debts sum to the per-customer purchases minus the per-customer payments |
| Dashboard.DashboardBalance | src/pages/Dashboard.tsx:36-41 | in a valid store the total debt equals total purchases minus total payments |
| Ledger.Store.constructor | src/pages/Dashboard.tsx:16-21 | the empty starting store, which no page creates: empty, valid tables; its dashboard figures are the page's initial zeros |
| Ledger.Store.SubmitPurchase | src/pages/NewTransaction.tsx:42-112 | the new store and the outcome are those of the purchase step, and a valid store stays valid |
| Ledger.Store.ChargeCustomer | src/pages/NewTransaction.tsx:70-100 | the new store is that of charging the existing customer, and the customer's id is returned |
| Ledger.Store.CreateCustomer | src/pages/NewTransaction.tsx:84-100 | the new store is that of creating the customer, and the new id is returned |
| Ledger.Store.SubmitPayment | src/pages/RecordPayment.tsx:55-103 | the new store and the verdict are those of the payment step; a valid store stays valid when the selection is a current row |
| Ledger.Store.DeleteCustomer | src/pages/AllCustomers.tsx:87-120 | the new store is that of the delete step, and a valid store stays valid |
| Ledger.Store.Totals | src/pages/Dashboard.tsx:28-54 | the dashboard's figures for the current store; in a valid store the total debt is purchases minus payments |
| Ledger.StepValid | src/pages/NewTransaction.tsx:42-112 | each of the three handlers keeps a valid store valid: the purchase submit here, the payment submit at src/pages/RecordPayment.tsx:55-103 and the delete at src/pages/AllCustomers.tsx:87-120 |
| Ledger.RunValid | src/pages/NewTransaction.tsx:42-112 | any sequence of the three handlers (this one, src/pages/RecordPayment.tsx:55-103 and src/pages/AllCustomers.tsx:87-120) keeps a valid store valid |
| Ledger.ReachableBalance | src/pages/Dashboard.tsx:36-41 | in every store reachable from the empty one by `Ledger.Op` steps (payments always from a selection made in the current store), the total debt equals total purchases minus total payments |

## Left out

- Browser form validation is not modelled. This covers `required` on the customer name and on each line's name and price (src/pages/NewTransaction.tsx:146, :172, :185), `min="0"` and `step="0.01"` on prices (:183-184), and `min`, `max` (the selected debt) and `step` on the payment amount (src/pages/RecordPayment.tsx:183-186). A zero price is shown as an empty box (src/pages/NewTransaction.tsx:178), so the browser refuses it as missing. The handlers are modelled on every input, including inputs the browser would refuse to submit. That is a superset of what reaches them, so every property proved here still holds for the page.

- Remote store calls: the network round-trips, their error results and the `Promise.all` parallel fetches are replaced by in-memory tables. A failed call, and the thrown error path, are not modelled.
- Partial failure: each handler issues two or three writes with no rollback. The model treats a successful handler as one atomic step and does not model a failure between the writes.
- Stale payment rows: the payment page computes the new debt from the row it holds, not from the store. That row can be out of date in one session: the search page hands its search-time row over (src/pages/SearchCustomer.tsx:234), and the browser's Back button reopens the payment page with the row it had before a payment. Another session can also change the debt meanwhile. `RecordPayment.StaleSnapshotUnbalances` shows the damage, and `RecordPayment.RepeatedPaymentUnbalances` shows it within one session. `Ledger.Op.NewPayment` covers only a selection made in the current store, so `Ledger.ReachableBalance` does not cover payments made from such rows.
- Floating-point money, `parseFloat`, `Number(...)` coercion and `.toFixed(2)`: money is an integer in minor units, and formatting is not modelled.
- Row ids are string ids assigned by the store in the source. The model stamps ids and creation times from one counter, so ids are distinct and creation order is table order.
- Dates: `created_at` is only an ordering key. Date formatting and the Arabic locale are out, so the export row's registration cell is the raw creation stamp.
- `ilike` pattern characters (`%` and `_`, the store's `*` alias for `%`, and the `\` escape inside a typed name) and Unicode case folding: matching is equality under ASCII lower-case folding.
- Row order without `ORDER BY`: a lookup limited to one row is modelled as returning the first match in table order; the store gives no such guarantee.
- Spreadsheet writing (the `XLSX` calls): only the row values are modelled.
- UI machinery: hooks, rendering, loading flags, toasts, navigation after a submission, and the delete dialog's open state and marked-customer reset are out.
- Editing or deleting a single purchase or payment, renaming a customer and substring search are not done by any of the five pages, so they are not modelled.
- NewTransaction.Total: beyond the empty list and the sign, the sum of all prices is its definition; `NewTransaction.TotalSnoc`, `NewTransaction.AddItemTotal`, `NewTransaction.RemoveItemTotal` and `NewTransaction.UpdateItemTotal` relate it to the list and the editor.
- Dashboard.FetchStats: its contract states only the empty-table case; the count and the three sums are its definition. Their relation to the rest of the store is proved in `Dashboard.DashboardBalance`.
