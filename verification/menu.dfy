/** The Menu page: the item store, the add dialog's commit, delete, the
    search-and-category filter and the status badge. Prices are integer
    cents and ratings tenths of a star. */
module Menu {

  import opened Text
  import opened Collections
  import opened Ui

  datatype Item = Item(
    id: int,
    name: string,
    category: string,
    price: int,
    prepTime: int,
    rating: int,
    orders: int,
    status: string,
    description: string)

  function ItemId(m: Item): int
  {
    m.id
  }

  /** The add dialog's form, field values as typed. */
  datatype Draft = Draft(name: string, category: string, price: string, prepTime: string, description: string)

  const BlankDraft := Draft("", "Main Course", "", "", "")

  datatype State = State(items: seq<Item>, draft: Draft, dialogOpen: bool)

  /** The required fields are name, price and preparation time; a string
      passes when it is non-empty (JavaScript truthiness). */
  predicate Complete(d: Draft)
  {
    d.name != "" && d.price != "" && d.prepTime != ""
  }

  /** `handleAddItem`. `price` and `prepTime` are the already-parsed values
      of the draft's price and preparation-time fields. On a complete draft
      the store grows by exactly one item at the end, carrying id
      `length + 1` and the fixed defaults, the form resets and the dialog
      closes; otherwise nothing changes but the error toast. */
  function AddItem(st: State, price: int, prepTime: int): (s: Step<State>)
    ensures !Complete(st.draft) ==> s.next == st && s.toast == Error("Please fill in all required fields")
    ensures Complete(st.draft) ==>
      && |s.next.items| == |st.items| + 1
      && s.next.items[..|st.items|] == st.items
      && s.next.items[|st.items|] == Item(|st.items| + 1, st.draft.name, st.draft.category, price, prepTime,
                                         0, 0, "Available", st.draft.description)
      && s.next.draft == Draft("", "Main Course", "", "", "")
      && !s.next.dialogOpen
      && s.toast == Success("Menu item added successfully")
  {
    if Complete(st.draft) then
      var item := Item(|st.items| + 1, st.draft.name, st.draft.category, price, prepTime,
                       0, 0, "Available", st.draft.description);
      Step(State(st.items + [item], BlankDraft, false), Success("Menu item added successfully"))
    else
      Step(st, Error("Please fill in all required fields"))
  }

  /** `handleDeleteItem`: every item with the id goes, the rest keep their
      order; the form and dialog are untouched. */
  function DeleteItem(st: State, id: int): (s: Step<State>)
    ensures Subsequence(s.next.items, st.items)
    ensures forall i :: 0 <= i < |s.next.items| ==> s.next.items[i].id != id
    ensures forall m :: m in s.next.items <==> m in st.items && m.id != id
    ensures forall m :: multiset(s.next.items)[m] == if m.id != id then multiset(st.items)[m] else 0
    ensures (forall i :: 0 <= i < |st.items| ==> st.items[i].id != id) ==> s.next.items == st.items
    ensures s.next.draft == st.draft && s.next.dialogOpen == st.dialogOpen
    ensures s.toast == Success("Menu item removed successfully")
  {
    Step(st.(items := RemoveById(st.items, ItemId, id)), Success("Menu item removed successfully"))
  }

  /** Deleting an id twice is deleting it once. */
  lemma DeleteItemIdempotent(st: State, id: int)
    ensures DeleteItem(DeleteItem(st, id).next, id).next == DeleteItem(st, id).next
  {
    RemoveByIdIdempotent(st.items, ItemId, id);
  }

  /** Adding an item whose new id was unused and deleting that id restores
      the store. */
  lemma AddThenDeleteRestores(st: State, price: int, prepTime: int)
    requires Complete(st.draft)
    requires forall i :: 0 <= i < |st.items| ==> st.items[i].id != |st.items| + 1
    ensures DeleteItem(AddItem(st, price, prepTime).next, |st.items| + 1).next.items == st.items
  {
    var next := AddItem(st, price, prepTime).next.items;
    assert next == st.items + [next[|st.items|]];
    RemoveAppended(st.items, next[|st.items|], ItemId);
  }

  /** While the ids are exactly 1..n, the id an add assigns is fresh and the
      ids stay 1..n+1. */
  lemma AddKeepsIdsOneToN(st: State, price: int, prepTime: int)
    requires IdsAreOneToN(st.items, ItemId)
    ensures UniqueIds(AddItem(st, price, prepTime).next.items, ItemId)
    ensures IdsAreOneToN(AddItem(st, price, prepTime).next.items, ItemId)
  {
    if Complete(st.draft) {
      var next := AddItem(st, price, prepTime).next.items;
      assert next == st.items + [next[|st.items|]];
      NextIdFresh(st.items, ItemId, next[|st.items|]);
    }
  }

  /** The filter predicate: name contains the term ignoring case, and the
      category is the active one unless that is "All". */
  predicate Shown(m: Item, term: string, activeCategory: string)
  {
    IncludesIgnoringCase(m.name, term) && (activeCategory == "All" || m.category == activeCategory)
  }

  /** `filteredItems`: the shown items, in store order. */
  function Visible(items: seq<Item>, term: string, activeCategory: string): (r: seq<Item>)
    ensures Subsequence(r, items)
    ensures forall i :: 0 <= i < |r| ==> IncludesIgnoringCase(r[i].name, term)
    ensures activeCategory != "All" ==> forall i :: 0 <= i < |r| ==> r[i].category == activeCategory
    ensures forall m :: m in r <==> m in items && Shown(m, term, activeCategory)
    ensures forall m :: multiset(r)[m] == if Shown(m, term, activeCategory) then multiset(items)[m] else 0
    ensures term == "" && activeCategory == "All" ==> r == items
  {
    Filter(items, (m: Item) => Shown(m, term, activeCategory))
  }

  const StatusTable: map<string, string> := map["Available" := Green, "Seasonal" := Blue, "Out of Stock" := Red]

  /** `getStatusClass`: the three known statuses get their colours, any
      other string falls to gray. */
  function StatusClass(status: string): (c: string)
    ensures c == Lookup(StatusTable, status, Gray)
    ensures c == Gray <==> status !in StatusTable
  {
    match status
    case "Available" => Green
    case "Seasonal" => Blue
    case "Out of Stock" => Red
    case _ => Gray
  }

  /** `menuInitialData`. */
  const SeedItems: seq<Item> := [
    Item(1, "Grilled Salmon", "Main Course", 2499, 20, 48, 128, "Available",
         "Fresh salmon fillet grilled to perfection with lemon and herbs."),
    Item(2, "Chicken Alfredo", "Main Course", 1899, 18, 46, 96, "Available",
         "Fettuccine pasta with creamy Alfredo sauce and grilled chicken breast."),
    Item(3, "Caesar Salad", "Appetizers", 1299, 10, 43, 62, "Available",
         "Romaine lettuce with Caesar dressing, croutons, and parmesan cheese."),
    Item(4, "Chocolate Cake", "Desserts", 999, 5, 49, 73, "Available",
         "Rich chocolate cake with a molten center, served with vanilla ice cream."),
    Item(5, "Beef Burger", "Main Course", 1699, 15, 47, 145, "Available",
         "Juicy beef patty with lettuce, tomato, cheese, and special sauce on a brioche bun."),
    Item(6, "Seasonal Fruit Sorbet", "Desserts", 899, 5, 45, 48, "Seasonal",
         "Refreshing sorbet made with seasonal fruits, perfect for a light dessert."),
    Item(7, "Vegetable Curry", "Main Course", 1799, 22, 45, 76, "Available",
         "Assorted vegetables in a flavorful curry sauce served with basmati rice."),
    Item(8, "Fresh Lemonade", "Beverages", 499, 3, 44, 112, "Available",
         "Freshly squeezed lemonade with a hint of mint.")
  ]

  /** The seed ids are 1..8. */
  lemma SeedIdsOneToN()
    ensures IdsAreOneToN(SeedItems, ItemId)
  {
  }

  lemma ChocInCake()
    ensures IncludesIgnoringCase("Chocolate Cake", "choc")
  {
    assert StartsWith("Chocolate Cake", "Choc");
    IncludesIgnoringCaseOfIncludes("Chocolate Cake", "Choc");
    var t := ToLower("Choc");
    assert t[0] == 'c' && t[1] == 'h' && t[2] == 'o' && t[3] == 'c';
    IgnoringCaseIgnoresTermCase("Chocolate Cake", "Choc");
  }

  lemma ChocNotInSorbet()
    ensures !IncludesIgnoringCase("Seasonal Fruit Sorbet", "choc")
  {
    assert 'c' !in "Seasonal Fruit Sorbet" && 'C' !in "Seasonal Fruit Sorbet";
    MissingFirstCharNotIncluded("Seasonal Fruit Sorbet", "choc");
  }

  lemma CakeMatchesChoc()
    ensures Shown(SeedItems[3], "choc", "Desserts")
  {
    var item := SeedItems[3];
    assert item.name == "Chocolate Cake" && item.category == "Desserts";
    ChocInCake();
    assert IncludesIgnoringCase(item.name, "choc");
  }

  lemma SorbetMissesChoc()
    ensures !Shown(SeedItems[5], "choc", "Desserts")
  {
    var name := SeedItems[5].name;
    assert name == "Seasonal Fruit Sorbet";
    ChocNotInSorbet();
    assert !IncludesIgnoringCase(name, "choc");
  }

  lemma OtherCategories()
    ensures forall i :: 0 <= i < |SeedItems| && i != 3 && i != 5 ==> SeedItems[i].category != "Desserts"
  {
  }

  /** One item shown, one more in the category but not matching, and
      every other item in another category: the filter shows the one. */
  lemma VisibleSingleHit(items: seq<Item>, term: string, cat: string, k: int, j: int)
    requires cat != "All"
    requires 0 <= k < |items| && Shown(items[k], term, cat)
    requires 0 <= j < |items| && !Shown(items[j], term, cat)
    requires forall i :: 0 <= i < |items| && i != k && i != j ==> items[i].category != cat
    ensures Visible(items, term, cat) == [items[k]]
  {
    FilterSingleHit(items, (m: Item) => Shown(m, term, cat), k);
  }

  /** Filtering the seed menu on "Desserts" with the term "choc" shows
      exactly the chocolate cake. */
  lemma SeedDessertSearch()
    ensures Visible(SeedItems, "choc", "Desserts") == [SeedItems[3]]
  {
    CakeMatchesChoc();
    SorbetMissesChoc();
    OtherCategories();
    VisibleSingleHit(SeedItems, "choc", "Desserts", 3, 5);
  }

  /** The id-by-count convention collides after a delete: with ids 1..n,
      deleting any item but the last and then adding one assigns an id the
      last item already holds. */
  lemma DeleteThenAddDuplicatesId(st: State, id: int, price: int, prepTime: int)
    requires IdsAreOneToN(st.items, ItemId)
    requires 1 <= id < |st.items|
    requires Complete(st.draft)
    ensures !UniqueIds(AddItem(DeleteItem(st, id).next, price, prepTime).next.items, ItemId)
  {
    var after := DeleteItem(st, id).next;
    var added := AddItem(after, price, prepTime).next.items;
    assert added == after.items + [added[|after.items|]];
    DeleteThenAppendCollides(st.items, ItemId, id, added[|after.items|]);
  }

  /** With ids 1..n, deleting an existing id removes exactly one item. */
  lemma DeleteOneToNShrinks(st: State, id: int)
    requires IdsAreOneToN(st.items, ItemId)
    requires 1 <= id <= |st.items|
    ensures |DeleteItem(st, id).next.items| == |st.items| - 1
  {
    OneToNUnique(st.items, ItemId);
    RemoveUniqueAt(st.items, ItemId, id - 1);
  }

  /** On the seed menu: delete item 3, add an item, and the new item gets
      id 8, the id of "Fresh Lemonade". */
  lemma SeedDeleteThenAddDuplicatesId(d: Draft, price: int, prepTime: int)
    requires Complete(d)
    ensures var after := AddItem(DeleteItem(State(SeedItems, d, true), 3).next, price, prepTime).next;
            && after.items[|after.items| - 1].id == 8
            && !UniqueIds(after.items, ItemId)
  {
    var st := State(SeedItems, d, true);
    SeedIdsOneToN();
    DeleteOneToNShrinks(st, 3);
    DeleteThenAddDuplicatesId(st, 3, price, prepTime);
  }
}
