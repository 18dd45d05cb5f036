/**
 * The stand-up picker of src/components/hooks/useStartSU.ts: it draws team members at random
 * without repetition, keeps the history of draws, and moves back and forth in it.
 *
 * The hook's state variables are the fields of class `Picker`. A button that animates sets
 * `pending` to the callback its 300 ms timer will run, and `FinishAnimation` runs it. A
 * random draw `Math.floor(Math.random() * n)` is the parameter `pick`, a position below `n`.
 */
module StartSU {
  import opened Wrappers
  import opened Domain
  import Seqs
  import Sorting
  import TicketUtils

  /** No two people share an account id. */
  ghost predicate DistinctIds(ps: seq<Person>) {
    forall i, j :: 0 <= i < j < |ps| ==> ps[i].accountId != ps[j].accountId
  }

  /** `ps.filter(m => m.accountId !== id)`. */
  function Without(ps: seq<Person>, id: string): (r: seq<Person>)
    ensures |r| <= |ps|
  {
    if ps == [] then []
    else if ps[0].accountId == id then Without(ps[1..], id)
    else [ps[0]] + Without(ps[1..], id)
  }

  /** The people left are exactly those whose id differs. */
  lemma {:induction false} WithoutMembers(ps: seq<Person>, id: string, p: Person)
    ensures p in Without(ps, id) <==> p in ps && p.accountId != id
  {
    if ps != [] {
      WithoutMembers(ps[1..], id, p);
      assert ps == [ps[0]] + ps[1..];
    }
  }

  lemma {:induction false} WithoutAppend(a: seq<Person>, b: seq<Person>, id: string)
    ensures Without(a + b, id) == Without(a, id) + Without(b, id)
  {
    if a == [] {
      assert a + b == b;
    } else {
      assert (a + b)[1..] == a[1..] + b;
      WithoutAppend(a[1..], b, id);
    }
  }

  lemma {:induction false} WithoutNone(ps: seq<Person>, id: string)
    requires forall i :: 0 <= i < |ps| ==> ps[i].accountId != id
    ensures Without(ps, id) == ps
  {
    if ps != [] {
      WithoutNone(ps[1..], id);
    }
  }

  /** Removing the id of position `k` from people with distinct ids removes exactly that
      position. */
  lemma {:induction false} WithoutAt(ps: seq<Person>, k: int)
    requires DistinctIds(ps) && 0 <= k < |ps|
    ensures Without(ps, ps[k].accountId) == ps[..k] + ps[k + 1..]
    decreases k
  {
    var id := ps[k].accountId;
    var tail := ps[1..];
    assert DistinctIds(tail) by {
      forall i, j | 0 <= i < j < |tail| ensures tail[i].accountId != tail[j].accountId {
        assert tail[i] == ps[i + 1] && tail[j] == ps[j + 1];
      }
    }
    if k == 0 {
      forall i | 0 <= i < |tail| ensures tail[i].accountId != id {
        assert tail[i] == ps[i + 1];
      }
      WithoutNone(tail, id);
      assert ps[..0] + ps[1..] == tail;
    } else {
      assert ps[0].accountId != id;
      assert tail[k - 1] == ps[k];
      WithoutAt(tail, k - 1);
      assert ps[..k] == [ps[0]] + tail[..k - 1];
      assert ps[k + 1..] == tail[k..];
    }
  }

  /** With distinct ids, no person occurs twice. */
  lemma {:induction false} DistinctCount(ys: seq<Person>, x: Person)
    requires DistinctIds(ys)
    ensures multiset(ys)[x] <= 1
  {
    if ys != [] {
      assert ys == [ys[0]] + ys[1..];
      DistinctCount(ys[1..], x);
      if ys[0] == x {
        forall m | 0 <= m < |ys[1..]| ensures ys[1..][m] != x {
          assert ys[1..][m] == ys[m + 1];
        }
      }
    }
  }

  lemma Repeated(xs: seq<Person>, i: int, j: int)
    requires 0 <= i < j < |xs|
    ensures xs[i] == xs[j] ==> multiset(xs)[xs[i]] >= 2
  {
    assert xs == xs[..i] + [xs[i]] + xs[i + 1..j] + [xs[j]] + xs[j + 1..];
  }

  lemma SamePersonOnly(xs: seq<Person>, ys: seq<Person>, i: int, j: int)
    requires multiset(xs) == multiset(ys) && DistinctIds(ys)
    requires 0 <= i < |xs| && 0 <= j < |xs|
    ensures xs[i] != xs[j] ==> xs[i].accountId != xs[j].accountId
  {
    if xs[i] != xs[j] {
      assert xs[i] in multiset(ys) && xs[j] in multiset(ys);
      var k :| 0 <= k < |ys| && ys[k] == xs[i];
      var l :| 0 <= l < |ys| && ys[l] == xs[j];
      if k < l {
        assert ys[k].accountId != ys[l].accountId;
      } else {
        assert ys[l].accountId != ys[k].accountId;
      }
    }
  }

  /** A rearrangement of people with distinct ids has distinct ids. */
  lemma PermutationDistinct(xs: seq<Person>, ys: seq<Person>)
    requires multiset(xs) == multiset(ys) && DistinctIds(ys)
    ensures DistinctIds(xs)
  {
    forall i, j | 0 <= i < j < |xs| ensures xs[i].accountId != xs[j].accountId {
      DistinctCount(ys, xs[i]);
      Repeated(xs, i, j);
      SamePersonOnly(xs, ys, i, j);
    }
  }

  /** Drawing the member at position `k` of `pool` and removing its id from the pool keeps
      the drawn members and the pool together the same people. */
  lemma DrawKeepsTeam(drawn: seq<Person>, pool: seq<Person>, k: int)
    requires DistinctIds(pool) && 0 <= k < |pool|
    ensures multiset(drawn + [pool[k]] + Without(pool, pool[k].accountId)) == multiset(drawn + pool)
  {
    WithoutAt(pool, k);
    var a, b, x := pool[..k], pool[k + 1..], pool[k];
    assert pool == a + [x] + b;
    calc {
      multiset(drawn + [x] + (a + b));
      multiset(drawn) + multiset([x]) + (multiset(a) + multiset(b));
      multiset(drawn) + (multiset(a) + multiset([x]) + multiset(b));
      multiset(drawn) + multiset(a + [x] + b);
    }
  }

  /** The first draw: the drawn member and those left are the whole team. */
  lemma FirstDraw(people: seq<Person>, k: int)
    requires DistinctIds(people) && 0 <= k < |people|
    ensures multiset([people[k]] + Without(people, people[k].accountId)) == multiset(people)
  {
    DrawKeepsTeam([], people, k);
    assert [] + [people[k]] == [people[k]] && [] + people == people;
  }

  /** The members not yet drawn have distinct ids. */
  lemma PoolDistinct(drawn: seq<Person>, pool: seq<Person>, team: seq<Person>)
    requires multiset(drawn + pool) == multiset(team) && DistinctIds(team)
    ensures DistinctIds(pool)
  {
    PermutationDistinct(drawn + pool, team);
    forall i, j | 0 <= i < j < |pool| ensures pool[i].accountId != pool[j].accountId {
      assert pool[i] == (drawn + pool)[|drawn| + i];
      assert pool[j] == (drawn + pool)[|drawn| + j];
    }
  }

  /** The callback an animation's timer will run. */
  datatype Pending = Idle | Draw | MoveTo(target: int) | ResetAll

  class Picker {
    /** The team, fixed for the lifetime of the picker. */
    const people: seq<Person>
    var selected: Option<Person>
    var history: seq<Person>
    var available: seq<Person>
    var index: int
    var animating: bool
    var pending: Pending

    /** What the hook keeps true: the index points into the history and the selection is the
        entry it points at, and the history and the members still available are disjoint and
        together make up the team. */
    ghost predicate Valid()
      reads this
    {
      DistinctIds(people)
      && -1 <= index < |history|
      && (index == -1 <==> history == [])
      && selected == (if index >= 0 then Some(history[index]) else None)
      && multiset(history + available) == multiset(people)
      && (animating <==> !pending.Idle?)
      && (pending.MoveTo? ==> 0 <= pending.target < |history|)
    }

    /** The first render and the mount effect: with a non-empty team, the member at the
        drawn position is selected at once. */
    constructor(people: seq<Person>, pick: nat)
      requires DistinctIds(people) && (people != [] ==> pick < |people|)
      ensures this.people == people && Valid() && !animating
      ensures people == [] ==> history == [] && selected == None && index == -1 && available == []
      ensures people != [] ==>
        var m := people[pick];
        selected == Some(m) && history == [m] && index == 0 && available == Without(people, m.accountId)
    {
      this.people := people;
      animating := false;
      pending := Idle;
      if |people| > 0 {
        var m := people[pick];
        FirstDraw(people, pick);
        selected := Some(m);
        history := [m];
        index := 0;
        available := Without(people, m.accountId);
      } else {
        selected := None;
        history := [];
        index := -1;
        available := [];
      }
    }

    /** The effect that runs when the team, the history length or the selection change. */
    method SyncWithPeople(pick: nat)
      requires Valid() && (people != [] ==> pick < |people|)
      modifies this
      ensures Valid() && animating == old(animating) && pending == old(pending)
      ensures |people| > 0 && old(history) == [] && old(selected).None? ==>
        var m := people[pick];
        selected == Some(m) && history == [m] && index == 0 && available == Without(people, m.accountId)
      ensures !(|people| > 0 && old(history) == []) ==>
        selected == old(selected) && history == old(history) && index == old(index) && available == old(available)
    {
      if |people| > 0 && |history| == 0 && selected.None? {
        var m := people[pick];
        FirstDraw(people, pick);
        selected, history, index, available := Some(m), [m], 0, Without(people, m.accountId);
      } else if |people| > 0 && |history| == 0 {
        assert false;
      }
    }

    /** `selectNewMember`: appends the drawn member to the history, selects it and removes its
        id from the members still available; nothing happens when none is available. */
    method SelectNewMember(pick: nat)
      requires Valid() && (available != [] ==> pick < |available|)
      modifies this
      ensures Valid() && animating == old(animating) && pending == old(pending)
      ensures old(available) == [] ==>
        selected == old(selected) && history == old(history) && index == old(index) && available == old(available)
      ensures old(available) != [] ==>
        var m := old(available)[pick];
        history == old(history) + [m] && index == |history| - 1 && selected == Some(m)
        && available == Without(old(available), m.accountId)
    {
      if |available| == 0 {
        return;
      }
      var k := pick;
      var m := available[k];
      PoolDistinct(history, available, people);
      DrawKeepsTeam(history, available, k);
      history := history + [m];
      index := |history| - 1;
      selected := Some(m);
      available := Without(available, m.accountId);
    }

    /** `handleStartButton`: ignored when no member is available or an animation runs; draws
        at once when nothing is selected, and otherwise after the fade-out. */
    method Start(pick: nat)
      requires Valid() && (available != [] ==> pick < |available|)
      modifies this
      ensures Valid()
      ensures old(available) == [] || old(animating) ==>
        selected == old(selected) && history == old(history) && index == old(index)
        && available == old(available) && animating == old(animating) && pending == old(pending)
      ensures old(available) != [] && !old(animating) && old(selected).Some? ==>
        animating && pending == Draw
        && selected == old(selected) && history == old(history) && index == old(index) && available == old(available)
      ensures old(available) != [] && !old(animating) && old(selected).None? ==>
        var m := old(available)[pick];
        !animating && history == old(history) + [m] && selected == Some(m) && index == |history| - 1
        && available == Without(old(available), m.accountId)
    {
      if |available| == 0 || animating {
        return;
      }
      if selected.Some? {
        animating := true;
        pending := Draw;
      } else {
        SelectNewMember(pick);
      }
    }

    /** `handlePrevButton`: when there is an earlier entry and no animation runs, schedules
        the move to it. */
    method Prev()
      requires Valid()
      modifies this
      ensures Valid()
      ensures selected == old(selected) && history == old(history) && index == old(index) && available == old(available)
      ensures old(index) > 0 && !old(animating) ==> animating && pending == MoveTo(old(index) - 1)
      ensures !(old(index) > 0 && !old(animating)) ==> animating == old(animating) && pending == old(pending)
    {
      if index > 0 && !animating {
        animating := true;
        pending := MoveTo(index - 1);
      }
    }

    /** `handleNextButton`: when there is a later entry and no animation runs, schedules the
        move to it. */
    method Next()
      requires Valid()
      modifies this
      ensures Valid()
      ensures selected == old(selected) && history == old(history) && index == old(index) && available == old(available)
      ensures old(index) < |old(history)| - 1 && !old(animating) ==> animating && pending == MoveTo(old(index) + 1)
      ensures !(old(index) < |old(history)| - 1 && !old(animating)) ==> animating == old(animating) && pending == old(pending)
    {
      if index < |history| - 1 && !animating {
        animating := true;
        pending := MoveTo(index + 1);
      }
    }

    /** `handleResetButton`: unless an animation runs, schedules the reset. */
    method Reset()
      requires Valid()
      modifies this
      ensures Valid()
      ensures selected == old(selected) && history == old(history) && index == old(index) && available == old(available)
      ensures !old(animating) ==> animating && pending == ResetAll
      ensures old(animating) ==> animating && pending == old(pending)
    {
      if animating {
        return;
      }
      animating := true;
      pending := ResetAll;
    }

    /** The timer of the running animation fires: its callback runs and the animation ends. */
    method FinishAnimation(pick: nat)
      requires Valid() && (available != [] ==> pick < |available|)
      modifies this
      ensures Valid() && !animating && pending == Idle
      ensures old(pending) == Idle ==>
        selected == old(selected) && history == old(history) && index == old(index) && available == old(available)
      ensures old(pending) == Draw && old(available) != [] ==>
        var m := old(available)[pick];
        history == old(history) + [m] && selected == Some(m) && index == |history| - 1
        && available == Without(old(available), m.accountId)
      ensures old(pending) == Draw && old(available) == [] ==>
        selected == old(selected) && history == old(history) && index == old(index) && available == old(available)
      ensures old(pending).MoveTo? ==>
        index == old(pending).target && selected == Some(old(history)[old(pending).target])
        && history == old(history) && available == old(available)
      ensures old(pending) == ResetAll ==>
        selected == None && history == [] && index == -1 && available == people
    {
      match pending {
        case Idle =>
        case Draw =>
          SelectNewMember(pick);
        case MoveTo(target) =>
          index := target;
          selected := Some(history[target]);
        case ResetAll =>
          selected := None;
          history := [];
          index := -1;
          available := people;
      }
      animating := false;
      pending := Idle;
    }
  }

  /** The tickets shown for a member: the issues assigned to them, none without a member. */
  function MemberTickets(issues: seq<Issue>, selected: Option<Person>): (r: seq<Issue>)
    ensures selected.None? ==> r == []
    ensures selected.Some? ==>
      forall t :: t in r <==> t in issues && t.assignee.Some? && t.assignee.value.accountId == selected.value.accountId
  {
    if selected.Some? && |issues| > 0 then
      Seqs.Filter(issues, (t: Issue) => t.assignee.Some? && t.assignee.value.accountId == selected.value.accountId)
    else []
  }

  /** The list the hook exposes: the member's tickets sorted by status rank. */
  function SortedMemberTickets(issues: seq<Issue>, selected: Option<Person>): (r: seq<Issue>)
    ensures multiset(r) == multiset(MemberTickets(issues, selected))
    ensures Sorting.SortedBy(r, TicketUtils.StatusKey)
  {
    TicketUtils.SortTicketsByStatus(MemberTickets(issues, selected))
  }

  /** The sprint the hook works on: the first one whose state is "active". */
  function ActiveSprint(sprints: seq<Sprint>): (r: Option<Sprint>)
    ensures r.Some? ==> r.value in sprints && r.value.state == "active"
    ensures r.None? <==> forall s :: s in sprints ==> s.state != "active"
    ensures r.Some? ==> exists i :: 0 <= i < |sprints| && sprints[i] == r.value
                          && forall j :: 0 <= j < i ==> sprints[j].state != "active"
  {
    Seqs.Find(sprints, (s: Sprint) => s.state == "active")
  }
}
