/** The Customers page: the customer store, the shared add/edit dialog
    (an edit session over a draft or over the selected customer), delete,
    the search and the status badge. Amounts are integer cents. */
module Customers {

  import opened Wrappers
  import opened Text
  import opened Collections
  import opened Ui

  datatype Customer = Customer(
    id: int,
    name: string,
    email: string,
    phone: string,
    visits: int,
    lastVisit: string,
    totalSpent: int,
    status: string,
    preferences: string)

  function CustomerId(c: Customer): int
  {
    c.id
  }

  /** The add form. */
  datatype Draft = Draft(name: string, email: string, phone: string, preferences: string)

  const BlankDraft := Draft("", "", "", "")

  datatype Mode = AddMode | EditMode

  /** The page state: the store plus the dialog. In edit mode the form's
      inputs write into `selected`; in add mode into `draft`. */
  datatype State = State(customers: seq<Customer>, mode: Mode, open: bool, selected: Option<Customer>, draft: Draft)

  /** The form fields the dialog shows. */
  datatype Field = Name | Email | Phone | Preferences

  /** `openAddDialog`: add mode, blank form, dialog open. */
  function OpenAdd(st: State): (s: State)
    ensures s.mode == AddMode && s.open && s.draft == Draft("", "", "", "")
    ensures s.customers == st.customers && s.selected == st.selected
  {
    st.(mode := AddMode, draft := BlankDraft, open := true)
  }

  /** `openEditDialog(customer)`: edit mode on that customer, dialog open;
      the add form keeps whatever it held. */
  function OpenEdit(st: State, c: Customer): (s: State)
    ensures s.mode == EditMode && s.open && s.selected == Some(c)
    ensures s.customers == st.customers && s.draft == st.draft
  {
    st.(mode := EditMode, selected := Some(c), open := true)
  }

  /** The Cancel button and the dialog's own close: only `open` changes. */
  function Close(st: State): (s: State)
    ensures !s.open
    ensures s.customers == st.customers && s.mode == st.mode && s.selected == st.selected && s.draft == st.draft
  {
    st.(open := false)
  }

  function SetDraftField(d: Draft, f: Field, v: string): Draft
  {
    match f
    case Name => d.(name := v)
    case Email => d.(email := v)
    case Phone => d.(phone := v)
    case Preferences => d.(preferences := v)
  }

  function SetCustomerField(c: Customer, f: Field, v: string): Customer
  {
    match f
    case Name => c.(name := v)
    case Email => c.(email := v)
    case Phone => c.(phone := v)
    case Preferences => c.(preferences := v)
  }

  /** One keystroke in a form input: in add mode it edits the draft, in edit
      mode the selected customer (which keeps its id). An edit-mode state
      without a selection is unreachable (see `TransitionsKeepWellFormed`)
      and is left as it is. */
  function ChangeField(st: State, f: Field, v: string): (s: State)
    ensures s.customers == st.customers && s.mode == st.mode && s.open == st.open
    ensures st.mode == AddMode ==> s.draft == SetDraftField(st.draft, f, v) && s.selected == st.selected
    ensures st.mode == EditMode && st.selected.Some? ==>
      && s.draft == st.draft
      && s.selected == Some(SetCustomerField(st.selected.value, f, v))
      && s.selected.value.id == st.selected.value.id
  {
    match st.mode
    case AddMode => st.(draft := SetDraftField(st.draft, f, v))
    case EditMode =>
      if st.selected.Some? then st.(selected := Some(SetCustomerField(st.selected.value, f, v))) else st
  }

  /** `handleAddCustomer`: name and email are required. On success one
      customer with id `length + 1` and the new-customer defaults is
      appended, the form resets and the dialog closes; otherwise only the
      error toast is raised. */
  function AddCustomer(st: State): (s: Step<State>)
    ensures st.draft.name == "" || st.draft.email == "" ==>
      s.next == st && s.toast == Error("Please enter name and email")
    ensures st.draft.name != "" && st.draft.email != "" ==>
      && |s.next.customers| == |st.customers| + 1
      && s.next.customers[..|st.customers|] == st.customers
      && s.next.customers[|st.customers|] ==
         Customer(|st.customers| + 1, st.draft.name, st.draft.email, st.draft.phone, 0, "", 0, "New", st.draft.preferences)
      && s.next.draft == Draft("", "", "", "")
      && !s.next.open && s.next.mode == st.mode && s.next.selected == st.selected
      && s.toast == Success("Customer added successfully")
  {
    if st.draft.name != "" && st.draft.email != "" then
      var d := st.draft;
      var c := Customer(|st.customers| + 1, d.name, d.email, d.phone, 0, "", 0, "New", d.preferences);
      Step(st.(customers := st.customers + [c], draft := BlankDraft, open := false),
           Success("Customer added successfully"))
    else
      Step(st, Error("Please enter name and email"))
  }

  /** A selection the edit handler accepts: present, with name and email. */
  predicate ValidSelection(sel: Option<Customer>)
  {
    sel.Some? && sel.value.name != "" && sel.value.email != ""
  }

  /** `handleEditCustomer`: a valid selection replaces every customer with
      its id, in place, and closes the dialog; an invalid one changes
      nothing (the dialog stays open) and raises the error toast. */
  function EditCustomer(st: State): (s: Step<State>)
    ensures !ValidSelection(st.selected) ==> s.next == st && s.toast == Error("Please enter name and email")
    ensures ValidSelection(st.selected) ==>
      var sel := st.selected.value;
      && |s.next.customers| == |st.customers|
      && (forall i :: 0 <= i < |st.customers| && st.customers[i].id == sel.id ==> s.next.customers[i] == sel)
      && (forall i :: 0 <= i < |st.customers| && st.customers[i].id != sel.id ==> s.next.customers[i] == st.customers[i])
      && (KeyAbsent(st.customers, CustomerId, sel.id) ==> s.next.customers == st.customers)
      && !s.next.open && s.next.mode == st.mode && s.next.selected == st.selected && s.next.draft == st.draft
      && s.toast == Success("Customer updated successfully")
  {
    if ValidSelection(st.selected) then
      var sel := st.selected.value;
      Step(st.(customers := UpdateById(st.customers, CustomerId, sel.id, (c: Customer) => sel), open := false),
           Success("Customer updated successfully"))
    else
      Step(st, Error("Please enter name and email"))
  }

  /** The dialog's confirm button: add or save, by mode. It never changes
      the mode or the selection, so it keeps the dialog well formed. The
      add form is accepted iff it has a name and an email, an edit iff the
      selection is valid; a rejected form changes nothing and raises the
      error toast, an accepted one closes the dialog. */
  function Save(st: State): (s: Step<State>)
    ensures st.mode == AddMode ==> s == AddCustomer(st)
    ensures st.mode == EditMode ==> s == EditCustomer(st)
    ensures s.next.mode == st.mode && s.next.selected == st.selected
    ensures WellFormed(st) ==> WellFormed(s.next)
    ensures s.toast.Success? || s.toast.Error?
    ensures st.mode == AddMode ==> (s.toast.Success? <==> st.draft.name != "" && st.draft.email != "")
    ensures st.mode == EditMode ==> (s.toast.Success? <==> ValidSelection(st.selected))
    ensures s.toast.Error? ==> s.next == st
    ensures s.toast.Success? ==> !s.next.open
    ensures st.mode == AddMode && s.toast.Success? ==> |s.next.customers| == |st.customers| + 1
    ensures st.mode == EditMode ==> |s.next.customers| == |st.customers|
  {
    if st.mode == AddMode then AddCustomer(st) else EditCustomer(st)
  }

  /** `handleDeleteCustomer`: every customer with the id goes, the rest keep
      their order; the dialog is untouched. */
  function DeleteCustomer(st: State, id: int): (s: Step<State>)
    ensures Subsequence(s.next.customers, st.customers)
    ensures forall i :: 0 <= i < |s.next.customers| ==> s.next.customers[i].id != id
    ensures forall c :: c in s.next.customers <==> c in st.customers && c.id != id
    ensures forall c :: multiset(s.next.customers)[c] == if c.id != id then multiset(st.customers)[c] else 0
    ensures (forall i :: 0 <= i < |st.customers| ==> st.customers[i].id != id) ==> s.next.customers == st.customers
    ensures s.next.mode == st.mode && s.next.open == st.open && s.next.selected == st.selected && s.next.draft == st.draft
    ensures s.toast == Success("Customer removed successfully")
  {
    Step(st.(customers := RemoveById(st.customers, CustomerId, id)), Success("Customer removed successfully"))
  }

  /** Saving an edit and then deleting that id is the same as deleting it
      straight away. */
  lemma EditThenDeleteIsDelete(st: State)
    requires ValidSelection(st.selected)
    ensures var id := st.selected.value.id;
      DeleteCustomer(EditCustomer(st).next, id).next.customers == DeleteCustomer(st, id).next.customers
  {
    RemoveByIdIgnoresUpdated(EditCustomer(st).next.customers, st.customers, CustomerId, st.selected.value.id);
  }

  /** Saving the same edit twice is saving it once. */
  lemma EditIdempotent(st: State)
    ensures EditCustomer(EditCustomer(st).next).next.customers == EditCustomer(st).next.customers
  {
  }

  /** Opening the editor on a stored customer and saving it unchanged
      leaves the store as it was, provided ids are unique. */
  lemma UnchangedEditIsIdentity(st: State, i: int)
    requires 0 <= i < |st.customers|
    requires UniqueIds(st.customers, CustomerId)
    requires st.customers[i].name != "" && st.customers[i].email != ""
    ensures Save(OpenEdit(st, st.customers[i])).next.customers == st.customers
  {
    var next := Save(OpenEdit(st, st.customers[i])).next.customers;
    forall j | 0 <= j < |st.customers| ensures next[j] == st.customers[j] {
      if j != i {
        assert CustomerId(st.customers[j]) != CustomerId(st.customers[i]) by {
          if j < i { assert j < i; } else { assert i < j; }
        }
      }
    }
  }

  /** Adding a customer whose new id was unused and deleting that id
      restores the store. */
  lemma AddThenDeleteRestores(st: State)
    requires st.draft.name != "" && st.draft.email != ""
    requires forall i :: 0 <= i < |st.customers| ==> st.customers[i].id != |st.customers| + 1
    ensures DeleteCustomer(AddCustomer(st).next, |st.customers| + 1).next.customers == st.customers
  {
    var next := AddCustomer(st).next.customers;
    assert next == st.customers + [next[|st.customers|]];
    RemoveAppended(st.customers, next[|st.customers|], CustomerId);
  }

  /** While the ids are exactly 1..n, the id an add assigns is fresh and the
      ids stay 1..n+1. */
  lemma AddKeepsIdsOneToN(st: State)
    requires IdsAreOneToN(st.customers, CustomerId)
    ensures UniqueIds(AddCustomer(st).next.customers, CustomerId)
    ensures IdsAreOneToN(AddCustomer(st).next.customers, CustomerId)
  {
    if st.draft.name != "" && st.draft.email != "" {
      var next := AddCustomer(st).next.customers;
      assert next == st.customers + [next[|st.customers|]];
      NextIdFresh(st.customers, CustomerId, next[|st.customers|]);
    }
  }

  /** Every reachable state that is in edit mode has a selection. */
  ghost predicate WellFormed(st: State)
  {
    st.mode == EditMode ==> st.selected.Some?
  }

  /** The initial page state. */
  const Initial := State(SeedCustomers, AddMode, false, None, BlankDraft)

  /** Well-formedness holds initially and every dialog transition keeps it,
      so the edit handler's null-selection branch only guards. */
  lemma TransitionsKeepWellFormed(st: State, c: Customer, f: Field, v: string, id: int)
    requires WellFormed(st)
    ensures WellFormed(Initial)
    ensures WellFormed(OpenAdd(st)) && WellFormed(OpenEdit(st, c)) && WellFormed(Close(st))
    ensures WellFormed(ChangeField(st, f, v))
    ensures WellFormed(Save(st).next) && WellFormed(DeleteCustomer(st, id).next)
  {
  }

  /** The search: name and email ignoring case, phone as typed. */
  predicate MatchesSearch(c: Customer, term: string)
  {
    IncludesIgnoringCase(c.name, term) || IncludesIgnoringCase(c.email, term) || Includes(c.phone, term)
  }

  /** `filteredCustomers`: the matching customers, in store order. */
  function Visible(customers: seq<Customer>, term: string): (r: seq<Customer>)
    ensures Subsequence(r, customers)
    ensures forall i :: 0 <= i < |r| ==> MatchesSearch(r[i], term)
    ensures forall c :: c in r <==> c in customers && MatchesSearch(c, term)
    ensures forall c :: multiset(r)[c] == if MatchesSearch(c, term) then multiset(customers)[c] else 0
    ensures term == "" ==> r == customers
  {
    Filter(customers, (c: Customer) => MatchesSearch(c, term))
  }

  datatype Variant = Solid | Outline

  /** A status badge as rendered: its variant, its classes, and its text. */
  datatype Badge = Badge(variant: Variant, className: string, text: string)

  const BadgeTable: map<string, string> := map[
    "VIP" := "bg-purple-100 text-purple-800 hover:bg-purple-100",
    "Regular" := "bg-blue-100 text-blue-800 hover:bg-blue-100",
    "New" := "bg-green-100 text-green-800 hover:bg-green-100"]

  /** `getStatusBadge`: every status is shown as its own text; the three
      known ones get their colours, any other falls to the outline badge. */
  function StatusBadge(status: string): (b: Badge)
    ensures b.text == status
    ensures b.variant == Outline <==> status !in BadgeTable
    ensures status in BadgeTable ==> b.className == BadgeTable[status]
  {
    match status
    case "VIP" => Badge(Solid, "bg-purple-100 text-purple-800 hover:bg-purple-100", status)
    case "Regular" => Badge(Solid, "bg-blue-100 text-blue-800 hover:bg-blue-100", status)
    case "New" => Badge(Solid, "bg-green-100 text-green-800 hover:bg-green-100", status)
    case _ => Badge(Outline, "", status)
  }

  /** The first seed customer. */
  const Alice := Customer(1, "Alice Johnson", "alice.j@example.com", "555-123-4567", 12, "2025-04-20", 34875,
                          "Regular", "Vegetarian, Window seat")

  /** `customersInitialData`. */
  const SeedCustomers: seq<Customer> := [
    Alice,
    Customer(2, "Robert Smith", "robert.smith@example.com", "555-234-5678", 8, "2025-04-18", 26730, "Regular",
             "Allergic to nuts"),
    Customer(3, "Emma Davis", "emma.d@example.com", "555-345-6789", 3, "2025-04-15", 11245, "New",
             "Booth seating preferred"),
    Customer(4, "James Wilson", "jwilson@example.com", "555-456-7890", 20, "2025-04-22", 58790, "VIP",
             "Wine enthusiast, Prefers quiet corner"),
    Customer(5, "Sophia Martinez", "sophia.m@example.com", "555-567-8901", 6, "2025-04-10", 19865, "Regular",
             "Gluten-free options needed"),
    Customer(6, "Daniel Brown", "daniel.b@example.com", "555-678-9012", 15, "2025-04-21", 42310, "VIP",
             "Seafood lover, Birthday: June 15")
  ]

  /** Alice's name holds no digit 5. */
  lemma NoFiveInAliceName()
    ensures !IncludesIgnoringCase("Alice Johnson", "555-123")
  {
    var t := "555-123";
    assert t[0] == '5';
    assert '5' !in "Alice Johnson";
    UncasedFirstCharNotIncluded("Alice Johnson", t);
  }

  /** Alice's email holds no digit 5. */
  lemma NoFiveInAliceEmail()
    ensures !IncludesIgnoringCase("alice.j@example.com", "555-123")
  {
    var t := "555-123";
    assert t[0] == '5';
    assert '5' !in "alice.j@example.com";
    UncasedFirstCharNotIncluded("alice.j@example.com", t);
  }

  /** Searching the seed for "555-123" finds Alice Johnson, and by her phone
      alone: her name and email do not match. */
  lemma SeedPhoneSearch()
    ensures Alice == SeedCustomers[0]
    ensures Alice in Visible(SeedCustomers, "555-123")
    ensures Includes(Alice.phone, "555-123")
    ensures !IncludesIgnoringCase(Alice.name, "555-123") && !IncludesIgnoringCase(Alice.email, "555-123")
  {
    assert StartsWith(Alice.phone, "555-123");
    NoFiveInAliceName();
    NoFiveInAliceEmail();
    VisibleWhenMatching(SeedCustomers, 0, "555-123");
  }

  /** A stored customer that matches the term is visible. */
  lemma VisibleWhenMatching(customers: seq<Customer>, k: int, term: string)
    requires 0 <= k < |customers| && MatchesSearch(customers[k], term)
    ensures customers[k] in Visible(customers, term)
  {
  }
}
