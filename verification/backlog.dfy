/**
 * The table logic of src/components/BacklogTab.tsx: the filter bar and its search, the sort
 * configuration each column header cycles, the sort itself, the value counts shown in the
 * filter drop-downs, and the backlog as the project's issues outside the current sprint.
 *
 * The six filter values and the two sort configurations are state the component updates, so
 * they are the fields of class `BacklogTab`; everything computed from them is a function.
 */
module Backlog {
  import opened Wrappers
  import opened Domain
  import Strings
  import Seqs
  import Sorting
  import TicketUtils
  import Labels

  // ---------------------------------------------------------------- labels of a ticket

  /** `getEpicName(ticket) || 'No Epic'`. */
  function EpicLabel(t: Issue): (r: string)
    ensures r != ""
    ensures r == "No Epic" <==> TicketUtils.EpicName(t).None? || TicketUtils.EpicName(t) == Some("No Epic")
  {
    TicketUtils.EpicName(t).GetOr("No Epic")
  }

  /** `ticket.fields.assignee?.displayName || 'Unassigned'`. */
  function AssigneeLabel(t: Issue): (r: string)
    ensures r != ""
    ensures t.assignee.Some? && t.assignee.value.displayName != "" ==> r == t.assignee.value.displayName
    ensures t.assignee.None? ==> r == "Unassigned"
  {
    if t.assignee.Some? && t.assignee.value.displayName != "" then t.assignee.value.displayName
    else "Unassigned"
  }

  // ---------------------------------------------------------------- filtering

  /** The values of the five drop-downs and the search box. */
  datatype Filters = Filters(status: string, priority: string, issueType: string,
                             epic: string, assignee: string, search: string)

  /** The filters after `resetFilters`: every drop-down on 'all' and an empty search. */
  const NoFilters := Filters("all", "all", "all", "all", "all", "")

  /** The seven fields the search looks in, joined by single spaces. */
  function SearchText(t: Issue): string {
    Strings.Join([t.key, t.summary, t.statusName, t.priorityName, AssigneeLabel(t), t.issueTypeName, EpicLabel(t)], " ")
  }

  /** A drop-down lets a ticket through when it is on 'all' or equals the ticket's value. */
  predicate Passes(choice: string, value: string) {
    choice == "all" || value == choice
  }

  /** A blank search lets every ticket through; otherwise the lower-cased, trimmed search
      must occur in the lower-cased search text. */
  predicate SearchMatches(search: string, t: Issue) {
    Strings.Trim(search) == "" || Strings.Contains(Strings.ToLower(SearchText(t)), Strings.Trim(Strings.ToLower(search)))
  }

  /** The test `filterTickets` applies to each ticket. Drop-downs left on 'all' let every
      ticket through, so then only the search decides. */
  function Matches(f: Filters, t: Issue): (r: bool)
    ensures f.status == "all" && f.priority == "all" && f.issueType == "all" && f.epic == "all" && f.assignee == "all"
      ==> (r <==> SearchMatches(f.search, t))
  {
    Passes(f.status, t.statusName)
    && Passes(f.priority, t.priorityName)
    && Passes(f.issueType, t.issueTypeName)
    && Passes(f.epic, EpicLabel(t))
    && Passes(f.assignee, AssigneeLabel(t))
    && SearchMatches(f.search, t)
  }

  /** `filterTickets`: the tickets that pass every filter, in their original order. */
  function FilterTickets(f: Filters, tickets: seq<Issue>): (r: seq<Issue>)
    ensures forall t :: t in r <==> t in tickets && Matches(f, t)
    ensures multiset(r) <= multiset(tickets)
  {
    Seqs.Filter(tickets, (t: Issue) => Matches(f, t))
  }

  /** Filtering keeps the relative order: filtering a concatenation filters each part. */
  lemma FilterTicketsAppend(f: Filters, a: seq<Issue>, b: seq<Issue>)
    ensures FilterTickets(f, a + b) == FilterTickets(f, a) + FilterTickets(f, b)
  {
    Seqs.FilterAppend(a, b, (t: Issue) => Matches(f, t));
  }

  lemma NoFiltersMatch(t: Issue)
    ensures Matches(NoFilters, t)
  {
    var f := NoFilters;
    assert f.search == "" && f.status == "all" && f.priority == "all";
    assert f.issueType == "all" && f.epic == "all" && f.assignee == "all";
    assert Strings.TrimStart("") == "" && Strings.TrimEnd("") == "";
    assert SearchMatches(f.search, t);
  }

  /** With the filters reset, every ticket is shown, in order. */
  lemma NoFiltersShowAll(tickets: seq<Issue>)
    ensures FilterTickets(NoFilters, tickets) == tickets
  {
    var p := (t: Issue) => Matches(NoFilters, t);
    forall t | t in tickets ensures p(t) {
      NoFiltersMatch(t);
    }
    Seqs.FilterAll(tickets, p);
  }

  /** A search of white space only filters nothing out. */
  lemma BlankSearchMatchesAll(search: string, t: Issue)
    requires forall i :: 0 <= i < |search| ==> Strings.IsJsSpace(search[i])
    ensures SearchMatches(search, t)
  {
    Strings.TrimSlice(search);
  }

  // ---------------------------------------------------------------- sort configuration

  datatype SortField = Key | Summary | Status | Priority | Assignee | Type | EpicColumn
  datatype Direction = Asc | Desc

  /** `SortConfig`: a column and a direction, both absent for "unsorted". */
  datatype SortConfig = SortConfig(field: Option<SortField>, direction: Option<Direction>) {
    /** The column is absent exactly when the direction is. */
    predicate WellFormed() {
      field.None? <==> direction.None?
    }
  }

  const Unsorted := SortConfig(None, None)

  /** The configuration after a click on the header of `field`: the same column goes
      ascending, descending, unsorted; another column starts ascending. */
  function NextSort(c: SortConfig, field: SortField): (r: SortConfig)
    ensures r.WellFormed()
    ensures r.field.Some? ==> r.field == Some(field)
    ensures c.field != Some(field) ==> r == SortConfig(Some(field), Some(Asc))
  {
    var direction :=
      if c.field == Some(field) then
        (if c.direction == Some(Asc) then Some(Desc)
         else if c.direction == Some(Desc) then None
         else Some(Asc))
      else Some(Asc);
    SortConfig(if direction.Some? then Some(field) else None, direction)
  }

  /** Three clicks on the same header go through ascending and descending and back to the
      start, from any well-formed configuration that is unsorted or sorted on that column
      ascending or descending. */
  lemma SortCycle(c: SortConfig, field: SortField)
    requires c.WellFormed() && (c.field.None? || c.field == Some(field))
    ensures NextSort(NextSort(NextSort(c, field), field), field) == c
    ensures c == Unsorted ==>
      NextSort(c, field) == SortConfig(Some(field), Some(Asc))
      && NextSort(NextSort(c, field), field) == SortConfig(Some(field), Some(Desc))
  {
    var asc, desc := SortConfig(Some(field), Some(Asc)), SortConfig(Some(field), Some(Desc));
    assert NextSort(Unsorted, field) == asc;
    assert NextSort(asc, field) == desc;
    assert NextSort(desc, field) == Unsorted;
    if c.field.Some? {
      assert c.direction.Some?;
      match c.direction.value
      case Asc => assert c == asc;
      case Desc => assert c == desc;
    }
  }

  // ---------------------------------------------------------------- component state

  class BacklogTab {
    var filters: Filters
    var sprintSort: SortConfig
    var backlogSort: SortConfig

    ghost predicate Valid()
      reads this
    {
      sprintSort.WellFormed() && backlogSort.WellFormed()
    }

    /** The initial state: no filter and both tables unsorted. */
    constructor()
      ensures Valid()
      ensures filters == NoFilters && sprintSort == Unsorted && backlogSort == Unsorted
    {
      filters := NoFilters;
      sprintSort := Unsorted;
      backlogSort := Unsorted;
    }

    /** `resetFilters`: every filter back to its initial value, the sorting untouched. */
    method ResetFilters()
      modifies this
      ensures filters == NoFilters
      ensures sprintSort == old(sprintSort) && backlogSort == old(backlogSort)
    {
      filters := NoFilters;
    }

    /** `handleSort`: a click on a column header of one of the two tables. */
    method HandleSort(field: SortField, isSprintTable: bool)
      requires Valid()
      modifies this
      ensures Valid() && filters == old(filters)
      ensures isSprintTable ==> sprintSort == NextSort(old(sprintSort), field) && backlogSort == old(backlogSort)
      ensures !isSprintTable ==> backlogSort == NextSort(old(backlogSort), field) && sprintSort == old(sprintSort)
    {
      if isSprintTable {
        sprintSort := NextSort(sprintSort, field);
      } else {
        backlogSort := NextSort(backlogSort, field);
      }
    }
  }

  // ---------------------------------------------------------------- sorting

  /**
   * The value a column sorts by. Text columns are compared with `localeCompare`, whose
   * collation depends on the locale; `collate` stands for it, as a rank whose order is the
   * collation order. The priority column sorts by the rank of the priority name.
   */
  function ColumnValue(field: SortField, t: Issue, collate: string -> int): int {
    match field
    case Key => collate(t.key)
    case Summary => collate(t.summary)
    case Status => collate(t.statusName)
    case Priority => Labels.PriorityRank(t.priorityName)
    case Assignee => collate(AssigneeLabel(t))
    case Type => collate(t.issueTypeName)
    case EpicColumn => collate(EpicLabel(t))
  }

  /** The sort key: the column value, negated for the descending direction, which is what
      negating the comparator's result does. */
  function OrderKey(field: SortField, direction: Direction, collate: string -> int): Issue -> int {
    (t: Issue) => if direction == Asc then ColumnValue(field, t, collate) else -ColumnValue(field, t, collate)
  }

  /** `sortTickets`: the input itself when unsorted, otherwise a sorted copy. */
  function SortTickets(tickets: seq<Issue>, c: SortConfig, collate: string -> int): (r: seq<Issue>)
    ensures c.field.None? || c.direction.None? ==> r == tickets
    ensures multiset(r) == multiset(tickets)
    ensures c.field.Some? && c.direction == Some(Asc) ==>
      forall i, j :: 0 <= i < j < |r| ==> ColumnValue(c.field.value, r[i], collate) <= ColumnValue(c.field.value, r[j], collate)
    ensures c.field.Some? && c.direction == Some(Desc) ==>
      forall i, j :: 0 <= i < j < |r| ==> ColumnValue(c.field.value, r[i], collate) >= ColumnValue(c.field.value, r[j], collate)
  {
    if c.field.None? || c.direction.None? then tickets
    else
      var key := OrderKey(c.field.value, c.direction.value, collate);
      var r := Sorting.SortByKey(tickets, key);
      assert forall i, j :: 0 <= i < j < |r| ==> key(r[i]) <= key(r[j]);
      r
  }

  /** Tickets that tie on the sorted column keep their input order. */
  lemma SortTicketsStable(tickets: seq<Issue>, field: SortField, direction: Direction, collate: string -> int, k: int)
    ensures var key := OrderKey(field, direction, collate);
      Sorting.WithKey(SortTickets(tickets, SortConfig(Some(field), Some(direction)), collate), key, k)
      == Sorting.WithKey(tickets, key, k)
  {
    Sorting.SortStable(tickets, OrderKey(field, direction, collate), k);
  }

  // ---------------------------------------------------------------- value counts

  /** One entry of a filter drop-down. */
  datatype Count = Count(value: string, count: int)

  /** The count recorded for `v`, 0 without an entry. */
  function CountOf(cs: seq<Count>, v: string): int {
    if cs == [] then 0
    else if cs[0].value == v then cs[0].count
    else CountOf(cs[1..], v)
  }

  function Total(cs: seq<Count>): int {
    if cs == [] then 0 else cs[0].count + Total(cs[1..])
  }

  /** No value has two entries and every count is positive. */
  ghost predicate Tallied(cs: seq<Count>) {
    (forall i, j :: 0 <= i < j < |cs| ==> cs[i].value != cs[j].value)
    && (forall i :: 0 <= i < |cs| ==> cs[i].count > 0)
  }

  /** `acc[v] = (acc[v] || 0) + 1`: a new value is added at the end with count 1. */
  function Bump(cs: seq<Count>, v: string): (r: seq<Count>)
    requires Tallied(cs)
    ensures Tallied(r)
    ensures forall w :: CountOf(r, w) == CountOf(cs, w) + (if w == v then 1 else 0)
    ensures Total(r) == Total(cs) + 1
  {
    if cs == [] then [Count(v, 1)]
    else if cs[0].value == v then
      assert CountOf(cs[1..], v) == 0 by { Absent(cs[1..], v); }
      [Count(v, cs[0].count + 1)] + cs[1..]
    else
      var rest := Bump(cs[1..], v);
      var r := [cs[0]] + rest;
      var u := cs[0].value;
      assert CountOf(rest, u) == 0 by {
        assert forall i :: 0 <= i < |cs[1..]| ==> cs[1..][i].value != u;
        Absent(cs[1..], u);
      }
      forall j | 1 <= j < |r| ensures r[j].value != u {
        EntryCount(rest, j - 1);
      }
      r
  }

  /** The count recorded for a value with an entry is that entry's count. */
  lemma {:induction false} EntryCount(cs: seq<Count>, i: int)
    requires Tallied(cs) && 0 <= i < |cs|
    ensures CountOf(cs, cs[i].value) == cs[i].count
  {
    if i > 0 {
      assert cs[0].value != cs[i].value;
      EntryCount(cs[1..], i - 1);
    }
  }

  /** A value without an entry counts 0. */
  lemma {:induction false} Absent(cs: seq<Count>, v: string)
    requires forall i :: 0 <= i < |cs| ==> cs[i].value != v
    ensures CountOf(cs, v) == 0
  {
    if cs != [] {
      Absent(cs[1..], v);
    }
  }

  /** The reduce of a `get*WithCounts` helper: the entries in the order their values are
      first seen. */
  function Tally(values: seq<string>): (r: seq<Count>)
    ensures Tallied(r)
  {
    if values == [] then []
    else Bump(Tally(values[..|values| - 1]), values[|values| - 1])
  }

  /** The tally counts every value exactly, has an entry for exactly the values present,
      and its counts add up to the number of values. */
  lemma {:induction false} TallyCounts(values: seq<string>)
    ensures forall w :: CountOf(Tally(values), w) == Seqs.Count(values, w)
    ensures Total(Tally(values)) == |values|
  {
    if values != [] {
      var init, last := values[..|values| - 1], values[|values| - 1];
      TallyCounts(init);
      assert values == init + [last];
      forall w ensures Seqs.Count(values, w) == Seqs.Count(init, w) + (if w == last then 1 else 0) {
        assert multiset(values) == multiset(init) + multiset{last};
      }
    }
  }

  /** The labels of the tickets under one column, in ticket order. */
  function Column(tickets: seq<Issue>, labelOf: Issue -> string): (r: seq<string>)
    ensures |r| == |tickets| && forall i :: 0 <= i < |tickets| ==> r[i] == labelOf(tickets[i])
  {
    seq(|tickets|, i requires 0 <= i < |tickets| => labelOf(tickets[i]))
  }

  /** `getUnique*WithCounts`: an 'all' entry with the number of tickets, then the tally. */
  function WithCounts(tickets: seq<Issue>, labelOf: Issue -> string): (r: seq<Count>)
    ensures |r| >= 1 && r[0] == Count("all", |tickets|)
  {
    [Count("all", |tickets|)] + Tally(Column(tickets, labelOf))
  }

  /** After the 'all' entry: distinct values, positive counts that add up to the number of
      tickets, and each value's count is the number of tickets carrying it. */
  lemma WithCountsSums(tickets: seq<Issue>, labelOf: Issue -> string)
    ensures var r := WithCounts(tickets, labelOf);
      Tallied(r[1..]) && Total(r[1..]) == |tickets|
      && forall w :: CountOf(r[1..], w) == Seqs.Count(Column(tickets, labelOf), w)
  {
    var r := WithCounts(tickets, labelOf);
    assert r[1..] == Tally(Column(tickets, labelOf));
    TallyCounts(Column(tickets, labelOf));
  }

  // ---------------------------------------------------------------- the backlog

  /** The ids of the current sprint's tickets. */
  function Ids(tickets: seq<Issue>): (r: set<string>)
    ensures forall id :: id in r <==> exists t :: t in tickets && t.id == id
  {
    set t | t in tickets :: t.id
  }

  /** The backlog: the project's tickets whose id is not one of the current sprint's, in
      their original order. */
  function ExcludeSprint(fetched: seq<Issue>, sprintTickets: seq<Issue>): (r: seq<Issue>)
    ensures forall t :: t in r <==> t in fetched && forall s :: s in sprintTickets ==> s.id != t.id
    ensures multiset(r) <= multiset(fetched)
  {
    var ids := Ids(sprintTickets);
    Seqs.Filter(fetched, (t: Issue) => t.id !in ids)
  }

  /** With no sprint tickets, the backlog is every fetched ticket. */
  lemma ExcludeNothing(fetched: seq<Issue>)
    ensures ExcludeSprint(fetched, []) == fetched
  {
    var ids := Ids([]);
    assert ids == {};
    Seqs.FilterAll(fetched, (t: Issue) => t.id !in ids);
  }
}
