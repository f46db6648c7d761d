/** The Staff page: the staff store, the add dialog's commit, delete, the
    search, and the performance and status badges. */
module Staff {

  import opened Text
  import opened Collections
  import opened Ui

  datatype Member = Member(
    id: int,
    name: string,
    role: string,
    status: string,
    efficiency: int,
    shiftsCompleted: int,
    onTimePercentage: int,
    performance: string)

  function MemberId(m: Member): int
  {
    m.id
  }

  /** The add form. */
  datatype Draft = Draft(name: string, role: string)

  const BlankDraft := Draft("", "Waiter")

  datatype State = State(staff: seq<Member>, draft: Draft, dialogOpen: bool)

  /** `handleAddStaff`: a name is required. On success one member with id
      `length + 1` and the new-hire defaults is appended, the form resets
      to a blank waiter and the dialog closes. Without a name nothing
      happens at all: no state change and no toast. */
  function AddMember(st: State): (s: Step<State>)
    ensures st.draft.name == "" ==> s.next == st && s.toast == Silent
    ensures st.draft.name != "" ==>
      && |s.next.staff| == |st.staff| + 1
      && s.next.staff[..|st.staff|] == st.staff
      && s.next.staff[|st.staff|] == Member(|st.staff| + 1, st.draft.name, st.draft.role, "Active", 85, 0, 100, "New")
      && s.next.draft == Draft("", "Waiter")
      && !s.next.dialogOpen
      && s.toast == Success("Staff member added successfully")
  {
    if st.draft.name != "" then
      var m := Member(|st.staff| + 1, st.draft.name, st.draft.role, "Active", 85, 0, 100, "New");
      Step(State(st.staff + [m], BlankDraft, false), Success("Staff member added successfully"))
    else
      Step(st, Silent)
  }

  /** `handleDeleteStaff`: every member with the id goes, the rest keep
      their order; the form and dialog are untouched. */
  function DeleteMember(st: State, id: int): (s: Step<State>)
    ensures Subsequence(s.next.staff, st.staff)
    ensures forall i :: 0 <= i < |s.next.staff| ==> s.next.staff[i].id != id
    ensures forall m :: m in s.next.staff <==> m in st.staff && m.id != id
    ensures forall m :: multiset(s.next.staff)[m] == if m.id != id then multiset(st.staff)[m] else 0
    ensures (forall i :: 0 <= i < |st.staff| ==> st.staff[i].id != id) ==> s.next.staff == st.staff
    ensures s.next.draft == st.draft && s.next.dialogOpen == st.dialogOpen
    ensures s.toast == Success("Staff member removed successfully")
  {
    Step(st.(staff := RemoveById(st.staff, MemberId, id)), Success("Staff member removed successfully"))
  }

  /** Deleting an id twice is deleting it once. */
  lemma DeleteMemberIdempotent(st: State, id: int)
    ensures DeleteMember(DeleteMember(st, id).next, id).next == DeleteMember(st, id).next
  {
    RemoveByIdIdempotent(st.staff, MemberId, id);
  }

  /** Adding a member whose new id was unused and deleting that id restores
      the store. */
  lemma AddThenDeleteRestores(st: State)
    requires st.draft.name != ""
    requires forall i :: 0 <= i < |st.staff| ==> st.staff[i].id != |st.staff| + 1
    ensures DeleteMember(AddMember(st).next, |st.staff| + 1).next.staff == st.staff
  {
    var next := AddMember(st).next.staff;
    assert next == st.staff + [next[|st.staff|]];
    RemoveAppended(st.staff, next[|st.staff|], MemberId);
  }

  /** While the ids are exactly 1..n, the id an add assigns is fresh and the
      ids stay 1..n+1. */
  lemma AddKeepsIdsOneToN(st: State)
    requires IdsAreOneToN(st.staff, MemberId)
    ensures UniqueIds(AddMember(st).next.staff, MemberId)
    ensures IdsAreOneToN(AddMember(st).next.staff, MemberId)
  {
    if st.draft.name != "" {
      var next := AddMember(st).next.staff;
      assert next == st.staff + [next[|st.staff|]];
      NextIdFresh(st.staff, MemberId, next[|st.staff|]);
    }
  }

  /** Adding "Ana" as a waiter to an empty staff yields one active member
      with the new-hire defaults. */
  lemma AddToEmptyStaff()
    ensures AddMember(State([], Draft("Ana", "Waiter"), true)).next.staff ==
      [Member(1, "Ana", "Waiter", "Active", 85, 0, 100, "New")]
  {
  }

  /** The search: name or role, ignoring case. */
  predicate MatchesSearch(m: Member, term: string)
  {
    IncludesIgnoringCase(m.name, term) || IncludesIgnoringCase(m.role, term)
  }

  /** `filteredStaff`: the matching members, in store order. */
  function Visible(staff: seq<Member>, term: string): (r: seq<Member>)
    ensures Subsequence(r, staff)
    ensures forall i :: 0 <= i < |r| ==> MatchesSearch(r[i], term)
    ensures forall m :: m in r <==> m in staff && MatchesSearch(m, term)
    ensures forall m :: multiset(r)[m] == if MatchesSearch(m, term) then multiset(staff)[m] else 0
    ensures term == "" ==> r == staff
  {
    Filter(staff, (m: Member) => MatchesSearch(m, term))
  }

  const PerformanceTable: map<string, string> :=
    map["Excellent" := Green, "Good" := Blue, "Average" := Yellow, "Poor" := Red]

  /** `getPerformanceClass`: four known ratings, gray for anything else
      (including the "New" rating every added member starts with). */
  function PerformanceClass(performance: string): (c: string)
    ensures c == Lookup(PerformanceTable, performance, Gray)
    ensures c == Gray <==> performance !in PerformanceTable
  {
    match performance
    case "Excellent" => Green
    case "Good" => Blue
    case "Average" => Yellow
    case "Poor" => Red
    case _ => Gray
  }

  const StatusTable: map<string, string> := map["Active" := Green, "On Leave" := Yellow, "Inactive" := Red]

  /** `getStatusClass`: three known statuses, gray for anything else. */
  function StatusClass(status: string): (c: string)
    ensures c == Lookup(StatusTable, status, Gray)
    ensures c == Gray <==> status !in StatusTable
  {
    match status
    case "Active" => Green
    case "On Leave" => Yellow
    case "Inactive" => Red
    case _ => Gray
  }

  /** A newly added member shows a green status badge and a gray
      performance badge. */
  lemma NewMemberBadges(st: State)
    requires st.draft.name != ""
    ensures var m := AddMember(st).next.staff[|st.staff|];
      StatusClass(m.status) == Green && PerformanceClass(m.performance) == Gray
  {
  }

  /** `staffInitialData`. */
  const SeedStaff: seq<Member> := [
    Member(1, "John Smith", "Chef", "Active", 92, 45, 97, "Excellent"),
    Member(2, "Sarah Johnson", "Waiter", "Active", 88, 38, 95, "Good"),
    Member(3, "Michael Brown", "Chef", "Active", 95, 42, 98, "Excellent"),
    Member(4, "Emily Davis", "Waiter", "Active", 87, 40, 92, "Good"),
    Member(5, "David Wilson", "Bartender", "Active", 90, 36, 94, "Good"),
    Member(6, "Lisa Martinez", "Host", "On Leave", 89, 32, 96, "Good")
  ]

  /** The seed ids are 1..6. */
  lemma SeedIdsOneToN()
    ensures IdsAreOneToN(SeedStaff, MemberId)
  {
  }
}
