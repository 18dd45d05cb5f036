/**
 * The status helpers of src/components/utils/ticketUtils.ts: the colour and the rank of a
 * status name, the epic name of a ticket, and the sort of tickets by status rank.
 */
module TicketUtils {
  import opened Wrappers
  import opened Domain
  import Strings
  import Sorting

  /** The families the status switches group their (lower-cased) names into. */
  datatype StatusFamily = ToDo | InProgress | InReview | Testing | Done | Blocked | Other

  /** The family of a status name, compared after lower-casing. */
  function Family(statusName: string): StatusFamily {
    FamilyOf(Strings.ToLower(statusName))
  }

  /** The `case` labels of the two switches, matched against lower-cased text. */
  function FamilyOf(s: string): StatusFamily {
    if s in {"to do", "todo", "backlog", "open"} then ToDo
    else if s in {"in progress", "in-progress", "in development", "development"} then InProgress
    else if s in {"in review", "review", "code review", "peer review"} then InReview
    else if s in {"testing", "qa", "quality assurance", "test"} then Testing
    else if s in {"done", "completed", "resolved", "closed"} then Done
    else if s in {"blocked", "on hold", "waiting"} then Blocked
    else Other
  }

  const TestingColor := "bg-purple-100 text-purple-800 dark:bg-purple-900 dark:text-purple-200"
  const UnknownColor := "bg-gray-100 text-gray-800 dark:bg-gray-800 dark:text-gray-200"

  /** `getStatusColor`. The statuses that rank last are exactly those coloured purple or
      grey. */
  function StatusColor(statusName: string): (r: string)
    ensures StatusPriority(statusName) == 6 <==> r == TestingColor || r == UnknownColor
  {
    match Family(statusName)
    case ToDo => "bg-slate-100 text-slate-800 dark:bg-slate-800 dark:text-slate-200"
    case InProgress => "bg-blue-100 text-blue-800 dark:bg-blue-900 dark:text-blue-200"
    case InReview => "bg-yellow-100 text-yellow-800 dark:bg-yellow-900 dark:text-yellow-200"
    case Testing => TestingColor
    case Done => "bg-green-100 text-green-800 dark:bg-green-900 dark:text-green-200"
    case Blocked => "bg-red-100 text-red-800 dark:bg-red-900 dark:text-red-200"
    case Other => UnknownColor
  }

  /** `getStatusPriority`: the rank of a status, 1 first and 6 last. */
  function StatusPriority(statusName: string): (r: int)
    ensures 1 <= r <= 6
  {
    match Family(statusName)
    case InProgress => 1
    case InReview => 2
    case Done => 3
    case Blocked => 4
    case ToDo => 5
    case Testing => 6
    case Other => 6
  }

  /** The rank depends only on the lower-cased name. */
  lemma StatusPriorityCaseInsensitive(a: string, b: string)
    requires Strings.ToLower(a) == Strings.ToLower(b)
    ensures StatusPriority(a) == StatusPriority(b) && StatusColor(a) == StatusColor(b)
  {
  }

  /** The families are ranked in-progress < review < done < blocked < to-do, each with its
      own rank, and a rank of 6 means the status belongs to no ranked family. */
  lemma StatusRanking(name: string)
    ensures Family(name) == InProgress <==> StatusPriority(name) == 1
    ensures Family(name) == InReview <==> StatusPriority(name) == 2
    ensures Family(name) == Done <==> StatusPriority(name) == 3
    ensures Family(name) == Blocked <==> StatusPriority(name) == 4
    ensures Family(name) == ToDo <==> StatusPriority(name) == 5
    ensures StatusPriority(name) == 6 <==> Family(name) in {Testing, Other}
  {
  }

  /** Testing statuses have a colour of their own but rank last, with unknown statuses. */
  lemma TestingRanksWithUnknown(testing: string, unknown: string)
    requires Family(testing) == Testing && Family(unknown) == Other
    ensures StatusPriority(testing) == StatusPriority(unknown) == 6
    ensures StatusColor(testing) != StatusColor(unknown)
  {
  }

  /** For example, "QA" is a testing status. */
  lemma QaIsTesting()
    ensures Family("QA") == Testing
  {
    assert Strings.ToLower("QA") == "qa";
  }

  /** `getEpicName`: the epic's name when it is non-empty, else the parent's summary when it
      is non-empty, else nothing. */
  function EpicName(t: Issue): (r: Option<string>)
    ensures r.Some? ==> r.value != ""
    ensures r.Some? <==> (t.epic.Some? && t.epic.value.name != "") || (t.parentSummary.Some? && t.parentSummary.value != "")
    ensures t.epic.Some? && t.epic.value.name != "" ==> r == Some(t.epic.value.name)
    ensures r.Some? && (t.epic.None? || t.epic.value.name == "") ==> r == t.parentSummary
  {
    if t.epic.Some? && t.epic.value.name != "" then Some(t.epic.value.name)
    else if t.parentSummary.Some? && t.parentSummary.value != "" then t.parentSummary
    else None
  }

  function StatusKey(t: Issue): int {
    StatusPriority(t.statusName)
  }

  /** `sortTicketsByStatus`: a sorted copy; the input sequence is a value and is not changed. */
  function SortTicketsByStatus(tickets: seq<Issue>): (r: seq<Issue>)
    ensures Sorting.SortedBy(r, StatusKey)
    ensures multiset(r) == multiset(tickets)
  {
    Sorting.SortByKey(tickets, StatusKey)
  }

  /** Tickets of the same rank keep their input order. */
  lemma SortTicketsStable(tickets: seq<Issue>, rank: int)
    ensures Sorting.WithKey(SortTicketsByStatus(tickets), StatusKey, rank) == Sorting.WithKey(tickets, StatusKey, rank)
  {
    Sorting.SortStable(tickets, StatusKey, rank);
  }
}
