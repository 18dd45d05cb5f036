/**
 * The member view of src/components/TeamMembersTab.tsx: the tickets mine to the chosen
 * member, ordered by priority and then by status, and the choice of a member by id.
 */
module TeamMembers {
  import opened Wrappers
  import opened Domain
  import Seqs
  import Sorting
  import Labels
  import StartSU

  /** The status names of the tie-break table, by rank. */
  const StatusNames: seq<string> := ["To Do", "In Progress", "In Review", "Done"]

  /** `statusOrder[name] ?? 5`: the rank of an exact, case-sensitive status name. */
  function StatusRank(name: string): (r: int)
    ensures 0 <= r <= 5 && r != 4
    ensures r < 4 ==> StatusNames[r] == name
    ensures r == 5 <==> name !in StatusNames
  {
    if name == "To Do" then 0
    else if name == "In Progress" then 1
    else if name == "In Review" then 2
    else if name == "Done" then 3
    else 5
  }

  function PriorityOf(t: Issue): int { Labels.PriorityRank(t.priorityName) }
  function StatusOf(t: Issue): int { StatusRank(t.statusName) }

  /** One number whose order is the comparator's: the priority rank, then the status rank.
      The comparator returns the difference of the priority ranks when they differ and of
      the status ranks otherwise, which has the sign of the difference of these keys. */
  function MemberKey(t: Issue): int {
    PriorityOf(t) * 6 + StatusOf(t)
  }

  /** The key orders lexicographically, priority first. */
  lemma MemberKeyLexicographic(a: Issue, b: Issue)
    ensures MemberKey(a) <= MemberKey(b) <==>
      PriorityOf(a) < PriorityOf(b) || (PriorityOf(a) == PriorityOf(b) && StatusOf(a) <= StatusOf(b))
  {
    var pa, pb, sa, sb := PriorityOf(a), PriorityOf(b), StatusOf(a), StatusOf(b);
    if pa < pb {
      assert pa * 6 + sa <= (pb - 1) * 6 + 5;
    } else if pa > pb {
      assert pb * 6 + sb <= (pa - 1) * 6 + 5 < pa * 6 + sa;
    }
  }

  /** `getMemberTickets`: none without a member; otherwise the member's tickets, sorted by
      priority rank and, within a priority, by status rank. */
  function MemberTickets(tickets: seq<Issue>, member: Option<Person>): (r: seq<Issue>)
    ensures member.None? ==> r == []
    ensures multiset(r) == multiset(StartSU.MemberTickets(tickets, member))
    ensures forall t :: t in r ==> member.Some? && t.assignee.Some? && t.assignee.value.accountId == member.value.accountId
    ensures forall i, j :: 0 <= i < j < |r| ==>
      PriorityOf(r[i]) < PriorityOf(r[j]) || (PriorityOf(r[i]) == PriorityOf(r[j]) && StatusOf(r[i]) <= StatusOf(r[j]))
  {
    var mine := StartSU.MemberTickets(tickets, member);
    var r := Sorting.SortByKey(mine, MemberKey);
    forall i, j | 0 <= i < j < |r|
      ensures PriorityOf(r[i]) < PriorityOf(r[j]) || (PriorityOf(r[i]) == PriorityOf(r[j]) && StatusOf(r[i]) <= StatusOf(r[j]))
    {
      MemberKeyLexicographic(r[i], r[j]);
    }
    assert forall t :: t in r ==> t in multiset(mine);
    r
  }

  /** Tickets with the same priority and status rank keep their order. */
  lemma MemberTicketsStable(tickets: seq<Issue>, member: Option<Person>, k: int)
    ensures Sorting.WithKey(MemberTickets(tickets, member), MemberKey, k)
         == Sorting.WithKey(StartSU.MemberTickets(tickets, member), MemberKey, k)
  {
    Sorting.SortStable(StartSU.MemberTickets(tickets, member), MemberKey, k);
  }

  /** `handleMemberSelect`: the first person with the id, or nobody. */
  function SelectMember(people: seq<Person>, accountId: string): (r: Option<Person>)
    ensures r.None? <==> forall p :: p in people ==> p.accountId != accountId
    ensures r.Some? ==> exists i :: 0 <= i < |people| && people[i] == r.value && r.value.accountId == accountId
                          && forall j :: 0 <= j < i ==> people[j].accountId != accountId
  {
    Seqs.Find(people, (p: Person) => p.accountId == accountId)
  }
}
