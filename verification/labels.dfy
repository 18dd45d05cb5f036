/**
 * The keyword classifiers the ticket views share: the colour of an issue type and of a
 * priority, first match wins over the lower-cased name, and the rank of a priority name.
 *
 * `getTicketTypeColor` is the same if-chain in src/components/TicketPopover.tsx,
 * src/components/TicketCard.tsx and src/components/BacklogTab.tsx, and the text colour of a
 * priority the same in TicketPopover.tsx and TicketCard.tsx; each is defined once here.
 */
module Labels {
  import Strings

  /** The issue-type colour chain on lower-cased text. */
  function TypeColorOf(t: string): string {
    if Strings.Contains(t, "bug") then "text-red-500"
    else if Strings.Contains(t, "story") || Strings.Contains(t, "user story") then "text-blue-500"
    else if Strings.Contains(t, "task") then "text-green-500"
    else if Strings.Contains(t, "epic") then "text-purple-500"
    else if Strings.Contains(t, "improvement") || Strings.Contains(t, "enhancement") then "text-orange-500"
    else if Strings.Contains(t, "sub-task") || Strings.Contains(t, "subtask") then "text-yellow-500"
    else "text-gray-500"
  }

  /** `getTicketTypeColor`, as written. The sub-task branch of the chain is dead: no issue
      type is coloured yellow. */
  function TypeColor(issueType: string): (r: string)
    ensures r in {"text-red-500", "text-blue-500", "text-green-500", "text-purple-500", "text-orange-500", "text-gray-500"}
  {
    TaskInSubTask(Strings.ToLower(issueType));
    TypeColorOf(Strings.ToLower(issueType))
  }

  /** Both spellings of a sub-task contain "task". */
  lemma TaskInSubTask(t: string)
    ensures Strings.Contains(t, "sub-task") ==> Strings.Contains(t, "task")
    ensures Strings.Contains(t, "subtask") ==> Strings.Contains(t, "task")
  {
    assert "sub-" + "task" == "sub-task" && "sub" + "task" == "subtask";
    Strings.ContainsSuffix("sub-", "task");
    Strings.ContainsSuffix("sub", "task");
    if Strings.Contains(t, "sub-task") {
      Strings.ContainsTransitive(t, "sub-task", "task");
    }
    if Strings.Contains(t, "subtask") {
      Strings.ContainsTransitive(t, "subtask", "task");
    }
  }

  lemma SubTaskLower()
    ensures Strings.ToLower("Sub-task") == "sub-task"
  {
    var t := "sub-task";
    assert forall i :: 0 <= i < |t| ==> Strings.ToLower("Sub-task")[i] == t[i];
  }

  /** The lower-cased "sub-task" passes the bug and story tests and stops at the task test. */
  lemma SubTaskColorOf()
    ensures TypeColorOf("sub-task") == "text-green-500"
  {
    var t := "sub-task";
    assert Strings.Contains(t, "task") by {
      TaskInSubTask(t);
      Strings.ContainsSelf(t);
    }
    assert !Strings.Contains(t, "bug") by {
      Strings.MissingChar(t, "bug", 'g');
    }
    assert !Strings.Contains(t, "story") && !Strings.Contains(t, "user story") by {
      Strings.MissingChar(t, "story", 'y');
      Strings.MissingChar(t, "user story", 'y');
    }
  }

  /** For example, Jira's own "Sub-task" type is coloured as a task. */
  lemma SubTaskColoredAsTask()
    ensures TypeColor("Sub-task") == "text-green-500"
  {
    SubTaskLower();
    SubTaskColorOf();
  }

  /** The chain lower-cases first, so a name and its lower-cased form are coloured alike. */
  lemma TypeColorCaseInsensitive(issueType: string)
    ensures TypeColor(Strings.ToLower(issueType)) == TypeColor(issueType)
  {
    Strings.ToLowerIdempotent(issueType);
  }

  /** The chain with the sub-task test moved before the task test, so that sub-tasks get
      their own colour. */
  function TypeColorIntended(issueType: string): string {
    var t := Strings.ToLower(issueType);
    if Strings.Contains(t, "bug") then "text-red-500"
    else if Strings.Contains(t, "story") || Strings.Contains(t, "user story") then "text-blue-500"
    else if Strings.Contains(t, "sub-task") || Strings.Contains(t, "subtask") then "text-yellow-500"
    else if Strings.Contains(t, "task") then "text-green-500"
    else if Strings.Contains(t, "epic") then "text-purple-500"
    else if Strings.Contains(t, "improvement") || Strings.Contains(t, "enhancement") then "text-orange-500"
    else "text-gray-500"
  }

  /** The reordered chain colours every sub-task that is not a bug or story yellow, and
      differs from the chain as written on nothing else. */
  lemma TypeColorIntendedDiffers(issueType: string)
    ensures var t := Strings.ToLower(issueType);
      TypeColorIntended(issueType) == "text-yellow-500"
      <==> !Strings.Contains(t, "bug") && !Strings.Contains(t, "story") && !Strings.Contains(t, "user story")
           && (Strings.Contains(t, "sub-task") || Strings.Contains(t, "subtask"))
    ensures TypeColorIntended(issueType) != TypeColor(issueType) ==>
      TypeColor(issueType) == "text-green-500" && TypeColorIntended(issueType) == "text-yellow-500"
  {
    TaskInSubTask(Strings.ToLower(issueType));
  }

  /** The priority text-colour chain on lower-cased text. */
  function PriorityColorOf(t: string): string {
    if Strings.Contains(t, "very high") || Strings.Contains(t, "critical") then "text-red-600"
    else if Strings.Contains(t, "high") || Strings.Contains(t, "must") then "text-red-500"
    else if Strings.Contains(t, "medium") || Strings.Contains(t, "should") then "text-orange-500"
    else if Strings.Contains(t, "low") || Strings.Contains(t, "could") then "text-blue-500"
    else if Strings.Contains(t, "lowest") || Strings.Contains(t, "would") then "text-gray-500"
    else "text-gray-400"
  }

  /** `getPriorityColor` of the ticket card and popover, as written. A priority is coloured
      red, dark or light, exactly when it mentions "high", "critical" or "must". */
  function PriorityColor(priority: string): (r: string)
    ensures var t := Strings.ToLower(priority);
      r == "text-red-600" || r == "text-red-500"
      <==> Strings.Contains(t, "high") || Strings.Contains(t, "critical") || Strings.Contains(t, "must")
  {
    HighInVeryHigh(Strings.ToLower(priority));
    PriorityColorOf(Strings.ToLower(priority))
  }

  lemma HighInVeryHigh(t: string)
    ensures Strings.Contains(t, "very high") ==> Strings.Contains(t, "high")
  {
    assert "very " + "high" == "very high";
    Strings.ContainsSuffix("very ", "high");
    if Strings.Contains(t, "very high") {
      Strings.ContainsTransitive(t, "very high", "high");
    }
  }

  lemma LowInLowest(t: string)
    ensures Strings.Contains(t, "lowest") ==> Strings.Contains(t, "low")
  {
    assert "low" <= "lowest";
    if Strings.Contains(t, "lowest") {
      Strings.ContainsTransitive(t, "lowest", "low");
    }
  }

  /** "very high" is tested before "high", which it contains: a very high priority gets the
      darker red although it also mentions "high". */
  lemma VeryHighBeforeHigh(priority: string)
    requires Strings.Contains(Strings.ToLower(priority), "very high")
    ensures Strings.Contains(Strings.ToLower(priority), "high")
    ensures PriorityColor(priority) == "text-red-600"
  {
    assert "very " + "high" == "very high";
    Strings.ContainsSuffix("very ", "high");
    Strings.ContainsTransitive(Strings.ToLower(priority), "very high", "high");
  }

  /** A priority mentioning "lowest" falls into the "low" branch, so grey is reached only
      through "would". */
  lemma LowestColoredAsLow(priority: string)
    ensures var t := Strings.ToLower(priority);
      Strings.Contains(t, "lowest") ==> PriorityColor(priority) != "text-gray-500"
    ensures var t := Strings.ToLower(priority);
      PriorityColor(priority) == "text-gray-500" ==> Strings.Contains(t, "would") && !Strings.Contains(t, "lowest")
  {
    LowInLowest(Strings.ToLower(priority));
  }

  lemma LowestLower()
    ensures Strings.ToLower("Lowest") == "lowest"
  {
    var t := "lowest";
    assert forall i :: 0 <= i < |t| ==> Strings.ToLower("Lowest")[i] == t[i];
  }

  /** The lower-cased "lowest" passes every test before the one for "low". */
  lemma LowestColorOf()
    ensures PriorityColorOf("lowest") == "text-blue-500"
  {
    var t := "lowest";
    assert Strings.Contains(t, "low") by {
      LowInLowest(t);
      Strings.ContainsSelf(t);
    }
    assert !Strings.Contains(t, "very high") && !Strings.Contains(t, "critical") by {
      Strings.MissingChar(t, "very high", 'h');
      Strings.MissingChar(t, "critical", 'c');
    }
    assert !Strings.Contains(t, "high") && !Strings.Contains(t, "must") by {
      Strings.MissingChar(t, "high", 'h');
      Strings.MissingChar(t, "must", 'm');
    }
    assert !Strings.Contains(t, "medium") && !Strings.Contains(t, "should") by {
      Strings.MissingChar(t, "medium", 'm');
      Strings.MissingChar(t, "should", 'h');
    }
  }

  /** For example, Jira's own "Lowest" priority is coloured as "Low". */
  lemma LowestIsBlue()
    ensures PriorityColor("Lowest") == "text-blue-500"
  {
    LowestLower();
    LowestColorOf();
  }

  /** The chain with the "lowest" test moved before the "low" test. */
  function PriorityColorIntended(priority: string): string {
    var t := Strings.ToLower(priority);
    if Strings.Contains(t, "very high") || Strings.Contains(t, "critical") then "text-red-600"
    else if Strings.Contains(t, "high") || Strings.Contains(t, "must") then "text-red-500"
    else if Strings.Contains(t, "medium") || Strings.Contains(t, "should") then "text-orange-500"
    else if Strings.Contains(t, "lowest") || Strings.Contains(t, "would") then "text-gray-500"
    else if Strings.Contains(t, "low") || Strings.Contains(t, "could") then "text-blue-500"
    else "text-gray-400"
  }

  /** In the reordered chain "lowest" reaches grey, and the two chains differ only where
      the chain as written says blue and the reordered one grey. */
  lemma PriorityColorIntendedDiffers(priority: string)
    ensures var t := Strings.ToLower(priority);
      PriorityColorIntended(priority) == "text-gray-500"
      <==> !Strings.Contains(t, "very high") && !Strings.Contains(t, "critical") && !Strings.Contains(t, "high")
           && !Strings.Contains(t, "must") && !Strings.Contains(t, "medium") && !Strings.Contains(t, "should")
           && (Strings.Contains(t, "lowest") || Strings.Contains(t, "would"))
    ensures PriorityColorIntended(priority) != PriorityColor(priority) ==>
      PriorityColor(priority) == "text-blue-500" && PriorityColorIntended(priority) == "text-gray-500"
  {
    LowInLowest(Strings.ToLower(priority));
  }

  /** The backlog table's priority badge chain on lower-cased text. */
  function BadgeColorOf(t: string): string {
    if Strings.Contains(t, "highest") || Strings.Contains(t, "critical") then BadgeRed
    else if Strings.Contains(t, "high") || Strings.Contains(t, "major") then BadgeOrange
    else if Strings.Contains(t, "medium") || Strings.Contains(t, "normal") then
      "bg-yellow-100 text-yellow-800 dark:bg-yellow-900 dark:text-yellow-200"
    else if Strings.Contains(t, "low") || Strings.Contains(t, "minor") then
      "bg-blue-100 text-blue-800 dark:bg-blue-900 dark:text-blue-200"
    else
      "bg-gray-100 text-gray-800 dark:bg-gray-800 dark:text-gray-200"
  }

  const BadgeRed := "bg-red-100 text-red-800 dark:bg-red-900 dark:text-red-200"
  const BadgeOrange := "bg-orange-100 text-orange-800 dark:bg-orange-900 dark:text-orange-200"

  /** `getPriorityColor` of src/components/BacklogTab.tsx. A badge is red or orange exactly
      when the priority mentions "high", "critical" or "major". */
  function BadgeColor(priority: string): (r: string)
    ensures var t := Strings.ToLower(priority);
      r == BadgeRed || r == BadgeOrange
      <==> Strings.Contains(t, "high") || Strings.Contains(t, "critical") || Strings.Contains(t, "major")
  {
    HighInHighest(Strings.ToLower(priority));
    BadgeColorOf(Strings.ToLower(priority))
  }

  lemma HighInHighest(t: string)
    ensures Strings.Contains(t, "highest") ==> Strings.Contains(t, "high")
  {
    assert "high" <= "highest";
    if Strings.Contains(t, "highest") {
      Strings.ContainsTransitive(t, "highest", "high");
    }
  }

  /** Here the longer keyword comes first: "highest" contains "high" but is tested before it,
      so the highest priorities get red and not orange. */
  lemma HighestBeforeHigh(priority: string)
    requires Strings.Contains(Strings.ToLower(priority), "highest")
    ensures Strings.Contains(Strings.ToLower(priority), "high")
    ensures BadgeColor(priority) == BadgeRed
  {
    assert "high" <= "highest";
    Strings.ContainsTransitive(Strings.ToLower(priority), "highest", "high");
  }

  /** The priority names of the rank table, by rank. */
  const PriorityNames: seq<string> := ["Highest", "High", "Medium", "Low", "Lowest"]

  /** `priorityOrder[name] ?? 5`: the rank of an exact, case-sensitive priority name. */
  function PriorityRank(name: string): (r: int)
    ensures 0 <= r <= 5
    ensures r < 5 ==> PriorityNames[r] == name
    ensures r == 5 <==> name !in PriorityNames
  {
    if name == "Highest" then 0
    else if name == "High" then 1
    else if name == "Medium" then 2
    else if name == "Low" then 3
    else if name == "Lowest" then 4
    else 5
  }
}
