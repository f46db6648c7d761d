# Restaurant admin dashboard: record-collection model

This project models the page logic of a restaurant administration dashboard.
The dashboard has four pages: Orders, Menu, Customers and Staff. Each page keeps
an in-memory store of records and runs a few pure operations over it:

- a search box, sometimes combined with a category or tab, that filters the store;
- an add dialog that checks its required fields and then appends a record with
  `id = length + 1` and fixed defaults;
- a delete button (`filter(id !== x)`);
- on Customers, an edit dialog that replaces records by id (`map`);
- on Orders, a "Mark as Completed" transition;
- `switch`-based badge classifiers with a neutral default.

Each React state setter becomes "return the next state". A handler that can
raise a toast (add, edit, save, delete, status update) returns a `Ui.Step`,
which holds the next page state and the toast. The Customers dialog actions
that raise none (open, close, typing into a field) return the next `State`.

Files:

- `text.dfy` (`Text`): ASCII lower-casing and `String.prototype.includes`, and
  how the two interact.
- `collections.dfy` (`Collections`): the shared filter, delete-by-id and
  update-by-id, plus the id-by-count convention and its collision.
- `ui.dfy` (`Ui`): toasts, handler steps, badge colours, table lookup.
- `wrappers.dfy` (`Wrappers`): `Option` for the nullable fields.
- `orders.dfy`, `menu.dfy`, `customers.dfy`, `staff.dfy`: one module per page.

Each `switch` that picks a colour class (the status and performance classes of
Orders, Menu and Staff) is proved equal to a lookup in a table with a gray
default. The Customers status badge is characterised by membership in its
table: the known statuses get their table class, and exactly the others get the
outline variant. The Orders time class has no table. It is gray unless the order
is completed, and then green or red by punctuality.

Points where the code's behaviour may be unexpected, all modelled as written:

- Not every search field ignores case. Order `id` and `table` and customer
  `phone` are matched case-sensitively.
- A failed Staff add raises no notification at all.
- An order that is not completed gets `onTime = true`, not "undefined".
- The simulated service time is an integer `20 + floor(10·r)` minutes, so it
  lies in [20, 29].

The seed data also has two completed orders whose service times (33 and 15
minutes) lie outside [20, 29]. Those values could not have come from the
transition. Their `onTime` flags still follow the same rule.

## Model

| member | source | states |
|---|---|---|
| Text.ToLower | src/pages/Menu.tsx:159 | lowering keeps the length, lowers each character on its own, and leaves no upper-case ASCII letter |
| Text.ToLowerIdempotent | src/pages/Staff.tsx:110-111 | lowering an already lowered string changes nothing |
| Text.IncludesIffOccurs | src/pages/Orders.tsx:147-149 | `includes` holds exactly when the term occurs at some position of the string, in both directions |
| Text.IncludesIgnoringCaseOfIncludes | src/pages/Customers.tsx:161-163 | a term that occurs verbatim is also found by the case-insensitive search |
| Text.IgnoringCaseIgnoresTermCase | src/pages/Customers.tsx:161-162 | lower-casing the search term before the case-insensitive search does not change its answer |
| Text.EmptyTermMatches | src/pages/Staff.tsx:109-112 | the empty search term matches every field, with or without case folding |
| Collections.Filter | src/pages/Menu.tsx:158-162 | the filter result is an order-preserving subsequence holding exactly the elements that satisfy the predicate, with their multiplicities; if every element satisfies it, the result is the input |
| Collections.FilterAppend | src/pages/Menu.tsx:158-162 | filtering a concatenation gives the concatenation of the filtered parts |
| Collections.FilterIdempotent | src/pages/Staff.tsx:109-112 | filtering an already filtered list again changes nothing |
| Collections.RemoveById | src/pages/Menu.tsx:153-156 | delete-by-id keeps every record without the id, in order and with multiplicity, drops every record with it, and is a no-op for an absent id |
| Collections.RemoveByIdIdempotent | src/pages/Customers.tsx:155-158 | deleting the same id twice is the same as deleting it once |
| Collections.RemoveByIdAppend | src/pages/Staff.tsx:104-107 | deleting from a concatenation is deleting from each part |
| Collections.RemoveAppended | src/pages/Menu.tsx:138 | appending a record whose id was absent and then deleting that id gives back the original store |
| Collections.RemoveUniqueAt | src/pages/Menu.tsx:153-156 | deleting an id that only one record holds removes exactly that record |
| Collections.UpdateById | src/pages/Customers.tsx:126-128 | update-by-id keeps the length, replaces each matching record by the update of it, and leaves every other record in place |
| Collections.UpdateAbsent | src/pages/Orders.tsx:121-134 | updating an id that no record holds leaves the sequence unchanged |
| Collections.RemoveByIdIgnoresUpdated | src/pages/Customers.tsx:124-130 | two stores that differ only at records with a given id (which keep that id) are equal once that id is deleted |
| Collections.NextIdFresh | src/pages/Menu.tsx:127 | while the ids are exactly 1..n, id `n + 1` is fresh, and after appending it the ids stay unique and become 1..n+1 |
| Collections.DeleteThenAppendCollides | src/pages/Staff.tsx:87 | with ids 1..n, deleting any id except the last and then appending with id `length + 1` creates a duplicate id |
| Orders.SimulatedServiceTime | src/pages/Orders.tsx:124 | the simulated service time is `20 + floor(10·r)` and lies in [20, 29] for r in [0, 1) |
| Orders.Transition | src/pages/Orders.tsx:123-131 | the new status is set. Completed gets the clock as `endTime`, a service time in [20, 29], and `onTime` iff that time is within the expected time. Any other status clears `endTime` and `totalTime` and sets `onTime`. All other fields are kept |
| Orders.UpdateStatus | src/pages/Orders.tsx:120-138 | updating the status keeps the length, transitions exactly the orders whose id matches, leaves every other order unchanged, is a no-op for an absent id, and raises the success toast with the id and status |
| Orders.CompletedOrderOnCompletedTab | src/pages/Orders.tsx:120-160 | a completed order appears on the Completed tab, with a service time in [20, 29] and an `onTime` flag that agrees with its expected time |
| Orders.UpdateStatusKeepsIds | src/pages/Orders.tsx:121-134 | the status update never changes an order's id, so a store with unique ids keeps them unique |
| Orders.SeedOrderIdsUnique | src/pages/Orders.tsx:15-111 | the seed orders have pairwise distinct ids, so with the page having no add, every reachable order store has unique ids |
| Orders.Visible | src/pages/Orders.tsx:145-160 | visible orders are an order-preserving subsequence, each matches the search on id or table (case-sensitive) or server (ignoring case), the in-progress and completed tabs show only their status, an order is visible iff it matches both predicates, every visible order keeps its multiplicity, and with tab `all` or an unknown tab and an empty term the whole store is visible |
| Orders.TotalItems | src/pages/Orders.tsx:162-164 | the item count of a list of positive quantities is at least the number of lines |
| Orders.TotalItemsAppend | src/pages/Orders.tsx:162-164 | the item count of a concatenation is the sum of the counts |
| Orders.Subtotal | src/pages/Orders.tsx:339-346 | the sum of quantity × price is non-negative for non-negative lines |
| Orders.SubtotalAppend | src/pages/Orders.tsx:339-346 | the amount of a concatenation of item lists is the sum of the amounts |
| Orders.FinalAmount | src/pages/Orders.tsx:364-367 | the Final line is shown iff the discount is positive, and then it equals total less discount |
| Orders.StatusClass | src/pages/Orders.tsx:166-179 | the status class equals a lookup in the four-entry table with gray as default, and is gray exactly for unknown statuses |
| Orders.TimeClass | src/pages/Orders.tsx:181-184 | the time class is gray for any status other than Completed, whatever `onTime` is; for Completed it is green iff on time and red iff late |
| Orders.SeedOrdersConsistent | src/pages/Orders.tsx:15-111 | every seed total equals Σ quantity × price in cents, every seed `onTime` follows the transition's rule, and every completed seed order has an end time and a service time |
| Orders.SeedFinalAmounts | src/pages/Orders.tsx:55-71 | order 78941 (84.94, discount 5.00) shows Final 79.94 |
| Menu.AddItem | src/pages/Menu.tsx:124-151 | a draft missing name, price or prep time changes nothing and raises the error toast. Otherwise exactly one item is appended after the unchanged prefix, with id `length + 1`, rating 0, orders 0 and status Available. The form then resets to blank fields with category Main Course and the dialog closes |
| Menu.DeleteItem | src/pages/Menu.tsx:153-156 | delete keeps the others in order and with their multiplicities, removes every item with the id, is a no-op for an absent id, and leaves the form alone |
| Menu.DeleteItemIdempotent | src/pages/Menu.tsx:153-156 | deleting an id twice equals deleting it once |
| Menu.AddThenDeleteRestores | src/pages/Menu.tsx:124-156 | adding an item whose new id was unused and then deleting that id restores the store |
| Menu.AddKeepsIdsOneToN | src/pages/Menu.tsx:127 | while the ids are 1..n, an add keeps them unique and makes them 1..n+1 |
| Menu.DeleteThenAddDuplicatesId | src/pages/Menu.tsx:124-156 | with ids 1..n, deleting any item except the last and then adding produces a duplicate id |
| Menu.DeleteOneToNShrinks | src/pages/Menu.tsx:153-156 | with ids 1..n, deleting an existing id removes exactly one item |
| Menu.SeedDeleteThenAddDuplicatesId | src/pages/Menu.tsx:20-156 | on the seed menu, deleting item 3 and then adding assigns id 8, which Fresh Lemonade already holds |
| Menu.SeedIdsOneToN | src/pages/Menu.tsx:20-109 | the seed ids are exactly 1..8 |
| Menu.Visible | src/pages/Menu.tsx:158-162 | visible items are an order-preserving subsequence. Each has a name containing the term (ignoring case) and, unless the category is All, the active category. An item is visible iff it satisfies both, and every visible item keeps its multiplicity. An empty term with All shows the whole store |
| Menu.SeedDessertSearch | src/pages/Menu.tsx:158-162 | on the seed menu, category Desserts with term "choc" shows exactly the chocolate cake |
| Menu.StatusClass | src/pages/Menu.tsx:164-175 | the status class equals a lookup in the three-entry table with gray as default, and is gray exactly for unknown statuses |
| Customers.OpenAdd | src/pages/Customers.tsx:144-153 | opening the add dialog sets add mode, a blank form and open, and keeps the store and the selection |
| Customers.OpenEdit | src/pages/Customers.tsx:138-142 | opening the edit dialog sets edit mode, selects the customer and opens, and keeps the store and the add form |
| Customers.Close | src/pages/Customers.tsx:254 | cancel closes the dialog and changes nothing else |
| Customers.ChangeField | src/pages/Customers.tsx:205-247 | a keystroke edits the add form in add mode and the selected customer, keeping its id, in edit mode; the store is untouched |
| Customers.AddCustomer | src/pages/Customers.tsx:96-122 | without a name or an email, nothing changes and the error toast is raised. Otherwise one customer is appended after the unchanged prefix, with id `length + 1`, 0 visits, an empty last visit, 0 spent and status New. The form then resets and the dialog closes |
| Customers.EditCustomer | src/pages/Customers.tsx:124-136 | an invalid edit (no selection, or an empty name or email) changes nothing, so the dialog stays open, and raises the error toast. A valid edit keeps the length, replaces every customer with the selected id by the selection, leaves the others, is a no-op for an absent id, and closes the dialog |
| Customers.Save | src/pages/Customers.tsx:255 | the confirm button dispatches on the mode and keeps the mode and the selection, so the dialog stays well formed. The add form is accepted iff it has a name and an email, an edit iff the selection is present with a name and an email. A rejected form changes nothing and raises the error toast. An accepted one closes the dialog; an add grows the store by one and an edit keeps its length |
| Customers.DeleteCustomer | src/pages/Customers.tsx:155-158 | delete keeps the others in order and with their multiplicities, removes every customer with the id, is a no-op for an absent id, and leaves the dialog alone |
| Customers.EditThenDeleteIsDelete | src/pages/Customers.tsx:124-158 | saving an edit and then deleting its id equals deleting the id directly |
| Customers.EditIdempotent | src/pages/Customers.tsx:124-130 | saving the same edit twice equals saving it once |
| Customers.UnchangedEditIsIdentity | src/pages/Customers.tsx:124-142 | with unique ids, opening the editor on a stored customer and saving it unchanged leaves the store as it was |
| Customers.AddThenDeleteRestores | src/pages/Customers.tsx:96-158 | adding a customer whose new id was unused and then deleting that id restores the store |
| Customers.AddKeepsIdsOneToN | src/pages/Customers.tsx:99 | while the ids are 1..n, an add keeps them unique and makes them 1..n+1 |
| Customers.TransitionsKeepWellFormed | src/pages/Customers.tsx:86-153 | the initial state and every dialog transition keep the rule that edit mode has a selection |
| Customers.Visible | src/pages/Customers.tsx:160-164 | visible customers are an order-preserving subsequence. Each matches on name or email ignoring case, or on phone as typed. A customer is visible iff it matches, with its multiplicity. The empty term shows the whole store |
| Customers.SeedPhoneSearch | src/pages/Customers.tsx:14-25 | searching the seed for "555-123" finds Alice Johnson by her phone alone: her phone contains the term, and neither her name nor her email matches it ignoring case |
| Customers.StatusBadge | src/pages/Customers.tsx:166-177 | every status is shown as its own text. VIP, Regular and New get their table classes, and exactly the other statuses fall to the outline badge |
| Staff.AddMember | src/pages/Staff.tsx:84-102 | without a name, nothing changes and no toast is raised. Otherwise one member is appended after the unchanged prefix, with id `length + 1`, status Active, efficiency 85, 0 shifts, 100% on time and performance New. The form then resets to a blank Waiter and the dialog closes |
| Staff.DeleteMember | src/pages/Staff.tsx:104-107 | delete keeps the others in order and with their multiplicities, removes every member with the id, is a no-op for an absent id, and leaves the form alone |
| Staff.DeleteMemberIdempotent | src/pages/Staff.tsx:104-107 | deleting an id twice equals deleting it once |
| Staff.AddThenDeleteRestores | src/pages/Staff.tsx:84-107 | adding a member whose new id was unused and then deleting that id restores the store |
| Staff.AddKeepsIdsOneToN | src/pages/Staff.tsx:87 | while the ids are 1..n, an add keeps them unique and makes them 1..n+1 |
| Staff.AddToEmptyStaff | src/pages/Staff.tsx:84-97 | adding Ana as a Waiter to an empty staff gives one Active member with efficiency 85 and performance New |
| Staff.Visible | src/pages/Staff.tsx:109-112 | visible members are an order-preserving subsequence. Each matches on name or role ignoring case. A member is visible iff it matches, with its multiplicity. The empty term shows the whole store |
| Staff.PerformanceClass | src/pages/Staff.tsx:114-127 | the performance class equals a lookup in the four-entry table with gray as default, and is gray exactly for unknown ratings |
| Staff.StatusClass | src/pages/Staff.tsx:129-140 | the status class equals a lookup in the three-entry table with gray as default, and is gray exactly for unknown statuses |
| Staff.NewMemberBadges | src/pages/Staff.tsx:90-94 | a newly added member shows a green status badge and a gray performance badge |
| Staff.SeedIdsOneToN | src/pages/Staff.tsx:15-76 | the seed ids are exactly 1..6 |

## Left out

- JSX rendering, Dialog/Tabs/Select wiring and the toast library are not modelled. A toast is a returned value (`Ui.Toast`), and badge rendering is reduced to the chosen class (and variant, for Customers).
- `Math.random()` is a parameter `r` with 0 ≤ r < 1. The formatted clock string `toLocaleTimeString` is a parameter `clock`. An empty clock is falsy, and the model follows JavaScript truthiness there.
- Floating-point money and `toFixed` formatting are not modelled. Prices, totals, discounts and amounts spent are integer cents, and menu ratings are tenths.
- `parseFloat` and `parseInt` in the Menu add are not modelled. Their results are the `price` and `prepTime` parameters of `Menu.AddItem`, while validation still tests the raw draft strings, as in the code.
- Unicode `toLowerCase` is not modelled. Lowering maps only ASCII A-Z.
- The Menu and Staff form inputs are not modelled as transitions. Each input only assigns one draft field, so the draft is an input of the add handler.
- Orders `viewOrderDetails` and the detail dialog's "Mark as Completed" button (src/pages/Orders.tsx:140-143, 376-381) are not modelled separately. The first only stores the order for display; the second is `UpdateStatus` with status Completed followed by closing the dialog.
- Orders.UpdateStatus: one `r` and one `clock` serve every order whose id matches, whereas the code draws `Math.random()` and reads the clock once per matching order. The two agree whenever at most one order has the id, and `Orders.SeedOrderIdsUnique` with `Orders.UpdateStatusKeepsIds` proves that of every store the page can reach.
- Customers.ChangeField: in edit mode without a selection, the code would set the selection to a partial object; the model leaves the state unchanged. `Customers.TransitionsKeepWellFormed` proves that state unreachable.
- The Menu and Staff edit buttons are not modelled because they have no handler. There is no edit behaviour on those pages.
- The Dashboard page (constant chart data), the sidebar (route links), the layout and the not-found page are not modelled. They contain no record logic.
