/**
 * The data behind a child's monthly report: the month's observations, the
 * progress of the child's goals within the month, tallies of strengths and
 * areas of development, the most frequent rating per skill, weekly
 * observation counts, engagement metrics, and the clean-up of the AI
 * service's JSON reply. The report generator keeps no state of its own; its
 * loops become methods proved equal to the functions that specify them.
 */
module Monthly {
  import opened Wrappers
  import opened Text
  import opened Sorting
  import opened MonthRange

  /** A JSON list column: absent or empty text, text that does not parse, or the parsed items. */
  datatype ListField = Missing | Malformed | Items(items: seq<string>)

  /** The columns of an observation row that the monthly report reads. */
  datatype MonthObservation = MonthObservation(
    id: string,
    studentId: string,
    date: string,
    strengths: ListField,
    areasOfDevelopment: ListField,
    themeOfDay: string,
    curiositySeed: string)

  // ---------------------------------------------------------------- month data

  /** The child's observations whose date lies in the month, in store order; a store failure gives none. */
  function MonthData(rows: seq<MonthObservation>, childId: string, year: int, month: int, up: bool): (r: seq<MonthObservation>)
    ensures forall o :: o in r <==> up && o in rows && o.studentId == childId && InMonth(o.date, year, month)
    ensures |r| <= |rows|
  {
    if !up || |rows| == 0 then []
    else
      var o := rows[0];
      (if o.studentId == childId && InMonth(o.date, year, month) then [o] else []) + MonthData(rows[1..], childId, year, month, up)
  }

  /** A row of the child dated any day of the month (four-digit year) is among the month's observations. */
  lemma MonthDataHasEveryDay(rows: seq<MonthObservation>, o: MonthObservation, childId: string, year: int, month: int, day: int)
    requires 1000 <= year <= 9998 && 1 <= month <= 12 && 1 <= day <= 31
    requires o in rows && o.studentId == childId && o.date == DateText(year, month, day)
    ensures o in MonthData(rows, childId, year, month, true)
  {
    DateInMonth(year, month, day);
  }

  // ---------------------------------------------------------------- goal progress

  /** A goal row; `status` is None when its status column is NULL. */
  datatype Goal = Goal(id: string, childId: string, goalText: string, status: Option<string>)

  datatype Alignment = Alignment(goalId: string, reportId: string, alignmentScore: int)

  datatype GoalProgress = GoalProgress(goalText: string, progressTrend: seq<int>, numObservations: nat, status: Option<string>)

  /** The date of the first observation row with this id, if any. */
  function ReportDate(rows: seq<MonthObservation>, id: string): (r: Option<string>)
    ensures r.Some? <==> exists k | 0 <= k < |rows| :: rows[k].id == id
    ensures r.Some? ==> exists k | 0 <= k < |rows| :: rows[k].id == id && rows[k].date == r.value
  {
    if |rows| == 0 then None
    else if rows[0].id == id then Some(rows[0].date)
    else
      var r := ReportDate(rows[1..], id);
      assert forall k | 1 <= k < |rows| :: rows[k] == rows[1..][k - 1];
      r
  }

  /** The alignment's report exists and is dated within the month. */
  predicate Relevant(a: Alignment, rows: seq<MonthObservation>, year: int, month: int)
  {
    ReportDate(rows, a.reportId).Some? && InMonth(ReportDate(rows, a.reportId).value, year, month)
  }

  /** The goals of a child, in store order. */
  function GoalsOf(goals: seq<Goal>, childId: string): (r: seq<Goal>)
    ensures forall g :: g in r <==> g in goals && g.childId == childId
  {
    if |goals| == 0 then []
    else (if goals[0].childId == childId then [goals[0]] else []) + GoalsOf(goals[1..], childId)
  }

  /** The alignments recorded for a goal, in store order. */
  function AlignmentsOf(alignments: seq<Alignment>, goalId: string): (r: seq<Alignment>)
    ensures forall a :: a in r <==> a in alignments && a.goalId == goalId
  {
    if |alignments| == 0 then []
    else (if alignments[0].goalId == goalId then [alignments[0]] else []) + AlignmentsOf(alignments[1..], goalId)
  }

  /** The relevant alignments, in order; built from the front as the loop builds it. */
  function RelevantOf(aligns: seq<Alignment>, rows: seq<MonthObservation>, year: int, month: int): (r: seq<Alignment>)
    ensures |r| <= |aligns|
  {
    if |aligns| == 0 then []
    else
      var last := aligns[|aligns| - 1];
      RelevantOf(aligns[..|aligns| - 1], rows, year, month) + (if Relevant(last, rows, year, month) then [last] else [])
  }

  /** The relevant alignments are exactly those of the input whose report is dated in the month. */
  lemma {:induction false} RelevantOfMembers(aligns: seq<Alignment>, rows: seq<MonthObservation>, year: int, month: int)
    ensures forall a :: a in RelevantOf(aligns, rows, year, month) <==> a in aligns && Relevant(a, rows, year, month)
  {
    if |aligns| > 0 {
      var init := aligns[..|aligns| - 1];
      RelevantOfMembers(init, rows, year, month);
      assert aligns == init + [aligns[|aligns| - 1]];
    }
  }

  function Scores(aligns: seq<Alignment>): (r: seq<int>)
    ensures |r| == |aligns| && forall k :: 0 <= k < |aligns| ==> r[k] == aligns[k].alignmentScore
  {
    seq(|aligns|, k requires 0 <= k < |aligns| => aligns[k].alignmentScore)
  }

  /**
   * The progress entry of one goal: present exactly when some alignment of
   * the goal is relevant; it counts those alignments, lists their scores in
   * order and takes the goal's status as stored. The row always has the
   * status key, so the 'active' default of `goal.get` never applies and a
   * NULL status stays None.
   */
  function ProgressFor(goal: Goal, alignments: seq<Alignment>, rows: seq<MonthObservation>, year: int, month: int): Option<GoalProgress>
  {
    var relevant := RelevantOf(AlignmentsOf(alignments, goal.id), rows, year, month);
    if |relevant| == 0 then None
    else Some(GoalProgress(goal.goalText, Scores(relevant), |relevant|, goal.status))
  }

  /**
   * A goal gets an entry exactly when one of its alignments is relevant; the
   * entry counts them, lists only their scores and keeps the stored status.
   */
  lemma ProgressForMeaning(goal: Goal, alignments: seq<Alignment>, rows: seq<MonthObservation>, year: int, month: int)
    ensures ProgressFor(goal, alignments, rows, year, month).None? <==>
      forall a :: a in alignments && a.goalId == goal.id ==> !Relevant(a, rows, year, month)
    ensures ProgressFor(goal, alignments, rows, year, month).Some? ==>
      var p := ProgressFor(goal, alignments, rows, year, month).value;
      p.goalText == goal.goalText &&
      p.numObservations == |p.progressTrend| >= 1 &&
      p.status == goal.status &&
      forall k :: 0 <= k < |p.progressTrend| ==>
        exists a :: a in alignments && a.goalId == goal.id && Relevant(a, rows, year, month) && a.alignmentScore == p.progressTrend[k]
  {
    var relevant := RelevantOf(AlignmentsOf(alignments, goal.id), rows, year, month);
    RelevantOfMembers(AlignmentsOf(alignments, goal.id), rows, year, month);
    if |relevant| > 0 {
      assert relevant[0] in relevant;
      assert forall k :: 0 <= k < |relevant| ==> relevant[k] in relevant;
    }
  }

  /** The entries of the goals that have one, in goal order. */
  function ProgressList(goals: seq<Goal>, alignments: seq<Alignment>, rows: seq<MonthObservation>, year: int, month: int): (r: seq<GoalProgress>)
    ensures |r| <= |goals|
  {
    if |goals| == 0 then []
    else
      var init := goals[..|goals| - 1];
      var entry := ProgressFor(goals[|goals| - 1], alignments, rows, year, month);
      ProgressList(init, alignments, rows, year, month) + (if entry.Some? then [entry.value] else [])
  }

  /** The month's goal progress of a child; a store failure gives none. */
  function GoalProgressOf(goals: seq<Goal>, alignments: seq<Alignment>, rows: seq<MonthObservation>,
                          childId: string, year: int, month: int, up: bool): seq<GoalProgress>
  {
    if up then ProgressList(GoalsOf(goals, childId), alignments, rows, year, month) else []
  }

  /** Every listed entry belongs to one of the goals and counts only relevant alignments of it. */
  lemma {:induction false} ProgressListEntries(goals: seq<Goal>, alignments: seq<Alignment>, rows: seq<MonthObservation>, year: int, month: int)
    ensures forall p :: p in ProgressList(goals, alignments, rows, year, month) ==>
      exists g :: g in goals && ProgressFor(g, alignments, rows, year, month) == Some(p)
  {
    if |goals| > 0 {
      var init := goals[..|goals| - 1];
      ProgressListEntries(init, alignments, rows, year, month);
      assert forall g :: g in init ==> g in goals;
      assert goals[|goals| - 1] in goals;
    }
  }

  /** A goal with at least one relevant alignment is never dropped. */
  lemma {:induction false} ProgressListComplete(goals: seq<Goal>, alignments: seq<Alignment>, rows: seq<MonthObservation>, year: int, month: int, g: Goal)
    requires g in goals && ProgressFor(g, alignments, rows, year, month).Some?
    ensures ProgressFor(g, alignments, rows, year, month).value in ProgressList(goals, alignments, rows, year, month)
  {
    var n := |goals| - 1;
    if g != goals[n] {
      var k :| 0 <= k < |goals| && goals[k] == g;
      assert goals[..n][k] == g;
      ProgressListComplete(goals[..n], alignments, rows, year, month, g);
    }
  }

  /**
   * `get_goal_progress`: for each goal of the child, the alignments whose
   * report is dated in the month are gathered and an entry is added when
   * there is at least one.
   */
  method GetGoalProgress(goals: seq<Goal>, alignments: seq<Alignment>, rows: seq<MonthObservation>,
                         childId: string, year: int, month: int, up: bool) returns (progress: seq<GoalProgress>)
    ensures progress == GoalProgressOf(goals, alignments, rows, childId, year, month, up)
  {
    if !up {
      return [];
    }
    var childGoals := GoalsOf(goals, childId);
    progress := [];
    var i := 0;
    while i < |childGoals|
      invariant 0 <= i <= |childGoals|
      invariant progress == ProgressList(childGoals[..i], alignments, rows, year, month)
    {
      ProgressListSnoc(childGoals, i, alignments, rows, year, month);
      var entry := GoalEntry(childGoals[i], alignments, rows, year, month);
      if entry.Some? {
        progress := progress + [entry.value];
      }
      i := i + 1;
    }
    assert childGoals[..i] == childGoals;
  }

  lemma ProgressListSnoc(goals: seq<Goal>, i: int, alignments: seq<Alignment>, rows: seq<MonthObservation>, year: int, month: int)
    requires 0 <= i < |goals|
    ensures var entry := ProgressFor(goals[i], alignments, rows, year, month);
      ProgressList(goals[..i + 1], alignments, rows, year, month) ==
      ProgressList(goals[..i], alignments, rows, year, month) + (if entry.Some? then [entry.value] else [])
  {
    assert goals[..i + 1][..i] == goals[..i];
  }

  /** The body of the goal loop: gather the goal's relevant alignments and build its entry when there is one. */
  method GoalEntry(goal: Goal, alignments: seq<Alignment>, rows: seq<MonthObservation>, year: int, month: int)
    returns (entry: Option<GoalProgress>)
    ensures entry == ProgressFor(goal, alignments, rows, year, month)
  {
    var relevant := RelevantAlignments(AlignmentsOf(alignments, goal.id), rows, year, month);
    if |relevant| > 0 {
      entry := Some(GoalProgress(goal.goalText, Scores(relevant), |relevant|, goal.status));
    } else {
      entry := None;
    }
  }

  /** The inner loop: keep the alignments whose report is dated in [start, end). */
  method RelevantAlignments(aligns: seq<Alignment>, rows: seq<MonthObservation>, year: int, month: int) returns (relevant: seq<Alignment>)
    ensures relevant == RelevantOf(aligns, rows, year, month)
  {
    var start, end := MonthStart(year, month), MonthEnd(year, month);
    relevant := [];
    var j := 0;
    while j < |aligns|
      invariant 0 <= j <= |aligns|
      invariant relevant == RelevantOf(aligns[..j], rows, year, month)
    {
      RelevantOfSnoc(aligns, j, rows, year, month);
      var keep := InWindow(aligns[j], rows, start, end, year, month);
      if keep {
        relevant := relevant + [aligns[j]];
      }
      j := j + 1;
    }
    assert aligns[..j] == aligns;
  }

  /** The test in the inner loop: the alignment's report exists and its date lies in [start, end). */
  method InWindow(a: Alignment, rows: seq<MonthObservation>, start: string, end: string, ghost year: int, ghost month: int)
    returns (keep: bool)
    requires start == MonthStart(year, month) && end == MonthEnd(year, month)
    ensures keep == Relevant(a, rows, year, month)
  {
    var date := ReportDate(rows, a.reportId);
    keep := date.Some? && LexLe(start, date.value) && LexLess(date.value, end);
  }

  lemma RelevantOfSnoc(aligns: seq<Alignment>, j: int, rows: seq<MonthObservation>, year: int, month: int)
    requires 0 <= j < |aligns|
    ensures RelevantOf(aligns[..j + 1], rows, year, month) ==
      RelevantOf(aligns[..j], rows, year, month) + (if Relevant(aligns[j], rows, year, month) then [aligns[j]] else [])
  {
    assert aligns[..j + 1][..j] == aligns[..j];
  }

  /** The number of entries with the given status; an entry whose status is NULL has none. */
  function CountStatus(progress: seq<GoalProgress>, status: string): (n: nat)
    ensures n <= |progress|
  {
    if |progress| == 0 then 0
    else (if progress[0].status == Some(status) then 1 else 0) + CountStatus(progress[1..], status)
  }

  /** Active goals (status 'active') and completed ones ('achieved') are disjoint, so together they are at most all entries. */
  lemma {:induction false} ActiveAndCompletedAtMostAll(progress: seq<GoalProgress>)
    ensures CountStatus(progress, "active") + CountStatus(progress, "achieved") <= |progress|
  {
    if |progress| > 0 {
      ActiveAndCompletedAtMostAll(progress[1..]);
    }
  }

  // ---------------------------------------------------------------- tallies

  /** How often `x` occurs. */
  function Occurrences(items: seq<string>, x: string): nat
  {
    if |items| == 0 then 0
    else Occurrences(items[..|items| - 1], x) + (if items[|items| - 1] == x then 1 else 0)
  }

  lemma {:induction false} OccursIff(items: seq<string>, x: string)
    ensures Occurrences(items, x) > 0 <==> x in items
  {
    if |items| > 0 {
      var init := items[..|items| - 1];
      assert items == init + [items[|items| - 1]];
      OccursIff(init, x);
    }
  }

  /** The distinct items in order of first appearance. */
  function FirstSeen(items: seq<string>): (r: seq<string>)
    ensures forall x :: x in r <==> x in items
    ensures forall i, j :: 0 <= i < j < |r| ==> r[i] != r[j]
  {
    if |items| == 0 then []
    else
      var init := items[..|items| - 1];
      var last := items[|items| - 1];
      assert items == init + [last];
      var f := FirstSeen(init);
      if last in f then f else f + [last]
  }

  /** A dictionary of counts in insertion order, as a Python dict keeps it. */
  type Counts = seq<(string, nat)>

  function Keys(d: Counts): (r: seq<string>)
    ensures |r| == |d| && forall k :: 0 <= k < |d| ==> r[k] == d[k].0
  {
    if |d| == 0 then [] else [d[0].0] + Keys(d[1..])
  }

  /** `d.get(x, 0)`. */
  function Lookup(d: Counts, x: string): nat
  {
    if |d| == 0 then 0 else if d[0].0 == x then d[0].1 else Lookup(d[1..], x)
  }

  /** `d[x] = d.get(x, 0) + 1`: an existing key keeps its place, a new one goes last. */
  function Bump(d: Counts, x: string): Counts
  {
    if |d| == 0 then [(x, 1)]
    else if d[0].0 == x then [(x, d[0].1 + 1)] + d[1..]
    else [d[0]] + Bump(d[1..], x)
  }

  lemma {:induction false} BumpKeys(d: Counts, x: string)
    ensures Keys(Bump(d, x)) == if x in Keys(d) then Keys(d) else Keys(d) + [x]
  {
    if |d| > 0 && d[0].0 != x {
      BumpKeys(d[1..], x);
      assert Bump(d, x) == [d[0]] + Bump(d[1..], x);
      assert ([d[0]] + Bump(d[1..], x))[1..] == Bump(d[1..], x);
    } else if |d| > 0 {
      assert Bump(d, x)[1..] == d[1..];
    }
  }

  lemma {:induction false} BumpLookup(d: Counts, x: string, y: string)
    ensures Lookup(Bump(d, x), y) == Lookup(d, y) + (if y == x then 1 else 0)
  {
    if |d| > 0 && d[0].0 != x {
      BumpLookup(d[1..], x, y);
    }
  }

  /** With distinct keys every entry holds its key's value. */
  lemma {:induction false} EntryIsLookup(d: Counts, k: int)
    requires forall i, j :: 0 <= i < j < |d| ==> d[i].0 != d[j].0
    requires 0 <= k < |d|
    ensures d[k].1 == Lookup(d, d[k].0)
  {
    if k > 0 {
      EntryIsLookup(d[1..], k - 1);
    }
  }

  /** The tally of a list of items, built one occurrence at a time. */
  function CountsOf(items: seq<string>): Counts
  {
    if |items| == 0 then []
    else Bump(CountsOf(items[..|items| - 1]), items[|items| - 1])
  }

  /**
   * The tally lists each distinct item once, in order of first appearance,
   * with the number of its occurrences.
   */
  lemma {:induction false} CountsOfCorrect(items: seq<string>)
    ensures Keys(CountsOf(items)) == FirstSeen(items)
    ensures forall x :: Lookup(CountsOf(items), x) == Occurrences(items, x)
    ensures forall k :: 0 <= k < |CountsOf(items)| ==>
      CountsOf(items)[k].1 == Occurrences(items, CountsOf(items)[k].0) >= 1
  {
    var c := CountsOf(items);
    CountsOfKeys(items);
    forall x ensures Lookup(c, x) == Occurrences(items, x) {
      CountsOfLookup(items, x);
    }
    forall k | 0 <= k < |c| ensures c[k].1 == Occurrences(items, c[k].0) >= 1 {
      assert Keys(c)[k] == c[k].0;
      EntryIsLookup(c, k);
      OccursIff(items, c[k].0);
    }
  }

  /** The tally's keys are the items in order of first appearance. */
  lemma {:induction false} CountsOfKeys(items: seq<string>)
    ensures Keys(CountsOf(items)) == FirstSeen(items)
  {
    if |items| > 0 {
      var init := items[..|items| - 1];
      CountsOfKeys(init);
      BumpKeys(CountsOf(init), items[|items| - 1]);
    }
  }

  /** The tally's count of an item is its number of occurrences. */
  lemma {:induction false} CountsOfLookup(items: seq<string>, x: string)
    ensures Lookup(CountsOf(items), x) == Occurrences(items, x)
  {
    if |items| > 0 {
      var init := items[..|items| - 1];
      CountsOfLookup(init, x);
      BumpLookup(CountsOf(init), items[|items| - 1], x);
    }
  }

  function EntryCount(e: (string, nat)): int
  {
    e.1
  }

  /** The items of the fields that hold a list; missing and malformed fields are skipped. */
  function AllItems(fields: seq<ListField>): seq<string>
  {
    if |fields| == 0 then []
    else
      var f := fields[|fields| - 1];
      AllItems(fields[..|fields| - 1]) + (if f.Items? then f.items else [])
  }

  /** The tally of the fields' items ordered by count, largest first. */
  function RankedCounts(fields: seq<ListField>): Counts
  {
    SortDesc(CountsOf(AllItems(fields)), EntryCount)
  }

  /**
   * The ranked tally holds every item once with its number of occurrences,
   * is ordered by count, and among equal counts keeps first-seen order.
   */
  lemma RankedCountsProperties(fields: seq<ListField>, count: int)
    ensures SortedDesc(RankedCounts(fields), EntryCount)
    ensures multiset(RankedCounts(fields)) == multiset(CountsOf(AllItems(fields)))
    ensures forall e :: e in RankedCounts(fields) ==> e.1 == Occurrences(AllItems(fields), e.0) >= 1
    ensures forall x :: x in AllItems(fields) <==> exists e :: e in RankedCounts(fields) && e.0 == x
    ensures Keys(CountsOf(AllItems(fields))) == FirstSeen(AllItems(fields))
    ensures WithKey(RankedCounts(fields), EntryCount, count) == WithKey(CountsOf(AllItems(fields)), EntryCount, count)
  {
    var items := AllItems(fields);
    CountsOfCorrect(items);
    SortDescStable(CountsOf(items), EntryCount, count);
    RankedEntries(items);
  }

  lemma RankedEntries(items: seq<string>)
    requires Keys(CountsOf(items)) == FirstSeen(items)
    requires forall k :: 0 <= k < |CountsOf(items)| ==> CountsOf(items)[k].1 == Occurrences(items, CountsOf(items)[k].0) >= 1
    ensures forall e :: e in SortDesc(CountsOf(items), EntryCount) ==> e.1 == Occurrences(items, e.0) >= 1
    ensures forall x :: x in items <==> exists e :: e in SortDesc(CountsOf(items), EntryCount) && e.0 == x
  {
    var c := CountsOf(items);
    var r := SortDesc(c, EntryCount);
    SameMembers(c, r);
    EntriesCount(items, c, r);
    EntriesCover(items, c, r);
  }

  /** A permutation has the same members. */
  lemma SameMembers(c: Counts, r: Counts)
    requires multiset(r) == multiset(c)
    ensures forall e :: e in r <==> e in c
  {
    forall e ensures e in r <==> e in c {
      assert e in r <==> e in multiset(r);
      assert e in c <==> e in multiset(c);
    }
  }

  lemma EntriesCount(items: seq<string>, c: Counts, r: Counts)
    requires forall k :: 0 <= k < |c| ==> c[k].1 == Occurrences(items, c[k].0) >= 1
    requires forall e :: e in r <==> e in c
    ensures forall e :: e in r ==> e.1 == Occurrences(items, e.0) >= 1
  {
    forall e | e in r ensures e.1 == Occurrences(items, e.0) >= 1 {
      var k :| 0 <= k < |c| && c[k] == e;
    }
  }

  lemma EntriesCover(items: seq<string>, c: Counts, r: Counts)
    requires Keys(c) == FirstSeen(items)
    requires forall e :: e in r <==> e in c
    ensures forall x :: x in items <==> exists e :: e in r && e.0 == x
  {
    forall x ensures x in items <==> exists e :: e in r && e.0 == x {
      if x in items {
        assert x in Keys(c);
        var k :| 0 <= k < |c| && Keys(c)[k] == x;
        assert c[k] in r;
      }
      if exists e :: e in r && e.0 == x {
        var e :| e in r && e.0 == x;
        var k :| 0 <= k < |c| && c[k] == e;
        assert Keys(c)[k] == x;
      }
    }
  }

  lemma AllItemsSnoc(fields: seq<ListField>, i: int)
    requires 0 <= i < |fields|
    ensures AllItems(fields[..i + 1]) == AllItems(fields[..i]) + (if fields[i].Items? then fields[i].items else [])
  {
    assert fields[..i + 1][..i] == fields[..i];
  }

  lemma CountsOfSnoc(items: seq<string>, x: string)
    ensures CountsOf(items + [x]) == Bump(CountsOf(items), x)
  {
    assert (items + [x])[..|items|] == items;
  }

  /** The counting loop shared by the strength and development tallies, followed by the sort. */
  method Tally(fields: seq<ListField>) returns (ranked: Counts)
    ensures ranked == RankedCounts(fields)
  {
    var counts: Counts := [];
    var i := 0;
    while i < |fields|
      invariant 0 <= i <= |fields|
      invariant counts == CountsOf(AllItems(fields[..i]))
    {
      if fields[i].Items? {
        counts := CountItems(counts, AllItems(fields[..i]), fields[i].items);
      } else {
        assert AllItems(fields[..i]) + [] == AllItems(fields[..i]);
      }
      AllItemsSnoc(fields, i);
      i := i + 1;
    }
    assert fields[..i] == fields;
    ranked := SortDesc(counts, EntryCount);
  }

  /** The inner loop: count each item of one field. */
  method CountItems(counts: Counts, ghost before: seq<string>, items: seq<string>) returns (after: Counts)
    requires counts == CountsOf(before)
    ensures after == CountsOf(before + items)
  {
    after := counts;
    var j := 0;
    assert before + items[..0] == before;
    while j < |items|
      invariant 0 <= j <= |items|
      invariant after == CountsOf(before + items[..j])
    {
      CountsOfSnoc(before + items[..j], items[j]);
      assert before + items[..j + 1] == before + items[..j] + [items[j]];
      after := Bump(after, items[j]);
      j := j + 1;
    }
    assert items[..j] == items;
  }

  function StrengthFields(observations: seq<MonthObservation>): seq<ListField>
  {
    seq(|observations|, k requires 0 <= k < |observations| => observations[k].strengths)
  }

  function DevelopmentFields(observations: seq<MonthObservation>): seq<ListField>
  {
    seq(|observations|, k requires 0 <= k < |observations| => observations[k].areasOfDevelopment)
  }

  /** `get_strength_areas`: the ranked tally of the observations' strengths. */
  method StrengthAreas(observations: seq<MonthObservation>) returns (ranked: Counts)
    ensures ranked == RankedCounts(StrengthFields(observations))
  {
    ranked := Tally(StrengthFields(observations));
  }

  /** `get_development_areas`: the ranked tally of the observations' areas of development. */
  method DevelopmentAreas(observations: seq<MonthObservation>) returns (ranked: Counts)
    ensures ranked == RankedCounts(DevelopmentFields(observations))
  {
    ranked := Tally(DevelopmentFields(observations));
  }

  // ---------------------------------------------------------------- most frequent ratings

  /** A candidate of maximal frequency in `values`, the first such one. */
  function BestOf(values: seq<string>, candidates: seq<string>): (r: string)
    requires |candidates| > 0
    ensures r in candidates
    ensures forall v :: v in candidates ==> Occurrences(values, v) <= Occurrences(values, r)
  {
    if |candidates| == 1 then candidates[0]
    else
      var b := BestOf(values, candidates[1..]);
      assert forall v :: v in candidates ==> v == candidates[0] || v in candidates[1..];
      if Occurrences(values, candidates[0]) >= Occurrences(values, b) then candidates[0] else b
  }

  /** The summary of a skill's extracted ratings: one of maximal frequency, or "no data" without ratings. */
  function ModeSummary(values: seq<string>): (r: string)
    ensures |values| == 0 ==> r == "no data"
    ensures |values| > 0 ==> r in values && forall v :: v in values ==> Occurrences(values, v) <= Occurrences(values, r)
  {
    if |values| == 0 then "no data" else BestOf(values, values)
  }

  datatype CommunicationSummary = CommunicationSummary(confidence: string, clarity: string, participation: string, sequencing: string)

  /** The four communication skills, each summarised from its own ratings. */
  function CommunicationSummaryOf(confidence: seq<string>, clarity: seq<string>, participation: seq<string>, sequencing: seq<string>): (r: CommunicationSummary)
    ensures r.confidence == ModeSummary(confidence) && r.clarity == ModeSummary(clarity)
    ensures r.participation == ModeSummary(participation) && r.sequencing == ModeSummary(sequencing)
  {
    CommunicationSummary(ModeSummary(confidence), ModeSummary(clarity), ModeSummary(participation), ModeSummary(sequencing))
  }

  const GrowthAreas: seq<string> := ["Intellectual", "Emotional", "Social", "Creativity", "Physical", "Character/Values", "Planning/Independence"]

  /** The seven growth areas in their fixed order, each with the summary of its ratings. */
  function GrowthSummaryOf(ratings: seq<seq<string>>): (r: seq<(string, string)>)
    requires |ratings| == |GrowthAreas|
    ensures |r| == |GrowthAreas|
    ensures forall k :: 0 <= k < |r| ==> r[k] == (GrowthAreas[k], ModeSummary(ratings[k]))
  {
    seq(|GrowthAreas|, k requires 0 <= k < |GrowthAreas| => (GrowthAreas[k], ModeSummary(ratings[k])))
  }

  // ---------------------------------------------------------------- weekly trends

  type DayOfMonth = d: int | 1 <= d <= 31 witness 1

  /** Days 1-7 are the first week, 8-14 the second, and so on; days 29-31 are the fifth. */
  function WeekIndex(d: DayOfMonth): (w: nat)
    ensures w < 5 && 7 * w + 1 <= d <= 7 * w + 7
  {
    (d - 1) / 7
  }

  /** The five weekly counts over the observations whose date parses. */
  function WeekCounts(observations: seq<MonthObservation>, parse: string -> Option<DayOfMonth>): (c: seq<nat>)
    ensures |c| == 5
  {
    if |observations| == 0 then [0, 0, 0, 0, 0]
    else
      var c := WeekCounts(observations[..|observations| - 1], parse);
      match parse(observations[|observations| - 1].date)
      case None => c
      case Some(d) => c[WeekIndex(d) := c[WeekIndex(d)] + 1]
  }

  /** The number of observations whose date parses. */
  function Parseable(observations: seq<MonthObservation>, parse: string -> Option<DayOfMonth>): nat
  {
    if |observations| == 0 then 0
    else Parseable(observations[..|observations| - 1], parse) + (if parse(observations[|observations| - 1].date).Some? then 1 else 0)
  }

  function Sum(s: seq<nat>): nat
  {
    if |s| == 0 then 0 else s[0] + Sum(s[1..])
  }

  lemma {:induction false} SumIncrement(s: seq<nat>, w: int)
    requires 0 <= w < |s|
    ensures Sum(s[w := s[w] + 1]) == Sum(s) + 1
  {
    if w > 0 {
      SumIncrement(s[1..], w - 1);
      assert s[w := s[w] + 1][1..] == s[1..][w - 1 := s[w] + 1];
    }
  }

  /** Every parseable date lands in one of the five weeks: the weekly counts add up to it. */
  lemma {:induction false} WeekCountsSum(observations: seq<MonthObservation>, parse: string -> Option<DayOfMonth>)
    ensures Sum(WeekCounts(observations, parse)) == Parseable(observations, parse)
  {
    if |observations| > 0 {
      var init := observations[..|observations| - 1];
      WeekCountsSum(init, parse);
      var c := WeekCounts(init, parse);
      var day := parse(observations[|observations| - 1].date);
      if day.Some? {
        var w := WeekIndex(day.value);
        SumIncrement(c, w);
        assert WeekCounts(observations, parse) == c[w := c[w] + 1];
        assert Parseable(observations, parse) == Parseable(init, parse) + 1;
      } else {
        assert WeekCounts(observations, parse) == c;
        assert Parseable(observations, parse) == Parseable(init, parse);
      }
    } else {
      var zeros: seq<nat> := [0, 0, 0, 0, 0];
      assert Sum(zeros[4..]) == 0;
      assert Sum(zeros[3..]) == 0 by { assert zeros[3..][1..] == zeros[4..]; }
      assert Sum(zeros[2..]) == 0 by { assert zeros[2..][1..] == zeros[3..]; }
      assert Sum(zeros[1..]) == 0 by { assert zeros[1..][1..] == zeros[2..]; }
    }
  }

  function WeekLabel(i: nat): string
  {
    "Week " + NatToString(i + 1)
  }

  /** The weeks with a positive count, labelled from "Week 1", in order. */
  function Trends(counts: seq<nat>): (r: seq<(string, nat)>)
    ensures |r| <= |counts|
    ensures forall e :: e in r ==> e.1 > 0
    ensures forall i :: 0 <= i < |counts| && counts[i] > 0 ==> (WeekLabel(i), counts[i]) in r
    ensures forall e :: e in r ==> exists i :: 0 <= i < |counts| && counts[i] > 0 && e == (WeekLabel(i), counts[i])
  {
    if |counts| == 0 then []
    else
      var n := |counts| - 1;
      var r := Trends(counts[..n]) + (if counts[n] > 0 then [(WeekLabel(n), counts[n])] else []);
      assert forall i :: 0 <= i < n ==> counts[i] == counts[..n][i];
      r
  }

  function SumCounts(entries: seq<(string, nat)>): nat
  {
    if |entries| == 0 then 0 else SumCounts(entries[..|entries| - 1]) + entries[|entries| - 1].1
  }

  lemma SumCountsAppend(a: seq<(string, nat)>, b: seq<(string, nat)>)
    requires |b| <= 1
    ensures SumCounts(a + b) == SumCounts(a) + SumCounts(b)
  {
    if |b| == 1 {
      assert (a + b)[..|a + b| - 1] == a;
      assert b[..0] == [];
    } else {
      assert a + b == a;
    }
  }

  lemma {:induction false} SumSnoc(s: seq<nat>)
    requires |s| > 0
    ensures Sum(s) == Sum(s[..|s| - 1]) + s[|s| - 1]
  {
    if |s| > 1 {
      SumSnoc(s[1..]);
      assert s[1..][..|s| - 2] == s[..|s| - 1][1..];
    }
  }

  /** Leaving out the empty weeks loses no observation. */
  lemma {:induction false} TrendsSum(counts: seq<nat>)
    ensures SumCounts(Trends(counts)) == Sum(counts)
  {
    if |counts| > 0 {
      var n := |counts| - 1;
      TrendsSum(counts[..n]);
      SumSnoc(counts);
      SumCountsAppend(Trends(counts[..n]), if counts[n] > 0 then [(WeekLabel(n), counts[n])] else []);
    }
  }

  /** The emitted weekly counts add up to the number of observations whose date parses. */
  lemma WeeklyTrendsTotal(observations: seq<MonthObservation>, parse: string -> Option<DayOfMonth>)
    ensures SumCounts(Trends(WeekCounts(observations, parse))) == Parseable(observations, parse)
  {
    TrendsSum(WeekCounts(observations, parse));
    WeekCountsSum(observations, parse);
  }

  /**
   * `_calculate_weekly_trends`: five counters incremented in place, one per
   * observation whose date parses, then the positive ones labelled.
   * `parse` stands for `strptime` with the `%Y-%m-%d` format, giving the day.
   */
  method WeeklyTrends(observations: seq<MonthObservation>, parse: string -> Option<DayOfMonth>) returns (trends: seq<(string, nat)>)
    ensures trends == Trends(WeekCounts(observations, parse))
  {
    var weekly := new nat[5](_ => 0);
    assert weekly[..] == [0, 0, 0, 0, 0];
    var i := 0;
    while i < |observations|
      invariant 0 <= i <= |observations|
      invariant weekly[..] == WeekCounts(observations[..i], parse)
    {
      assert observations[..i + 1][..i] == observations[..i];
      var day := parse(observations[i].date);
      if day.Some? {
        var w := WeekIndex(day.value);
        weekly[w] := weekly[w] + 1;
      }
      i := i + 1;
    }
    assert observations[..i] == observations;
    trends := Trends(weekly[..]);
  }

  // ---------------------------------------------------------------- learning metrics

  datatype Consistency = High | Medium | Low

  /** More than 15 sessions is high consistency, more than 8 medium, otherwise low. */
  function ConsistencyOf(sessions: nat): (c: Consistency)
    ensures c == High <==> sessions > 15
    ensures c == Medium <==> 8 < sessions <= 15
    ensures c == Low <==> sessions <= 8
  {
    if sessions > 15 then High else if sessions > 8 then Medium else Low
  }

  datatype LearningMetrics = LearningMetrics(sessionFrequency: nat, themeDiversity: nat, curiosityEngagement: nat, learningConsistency: Consistency)

  /** The non-empty themes of the day, in order. */
  function ThemesOf(observations: seq<MonthObservation>): (r: seq<string>)
    ensures |r| <= |observations|
    ensures forall t :: t in r <==> t != "" && exists o :: o in observations && o.themeOfDay == t
  {
    if |observations| == 0 then []
    else
      var init := observations[..|observations| - 1];
      var last := observations[|observations| - 1];
      assert observations == init + [last];
      ThemesOf(init) + (if last.themeOfDay != "" then [last.themeOfDay] else [])
  }

  /** The non-empty curiosity seeds, in order. */
  function SeedsOf(observations: seq<MonthObservation>): (r: seq<string>)
    ensures |r| <= |observations|
    ensures forall t :: t in r <==> t != "" && exists o :: o in observations && o.curiositySeed == t
  {
    if |observations| == 0 then []
    else
      var init := observations[..|observations| - 1];
      var last := observations[|observations| - 1];
      assert observations == init + [last];
      SeedsOf(init) + (if last.curiositySeed != "" then [last.curiositySeed] else [])
  }

  function Distinct(s: seq<string>): set<string>
  {
    set x | x in s
  }

  lemma {:induction false} DistinctAtMostLength(s: seq<string>)
    ensures |Distinct(s)| <= |s|
  {
    if |s| > 0 {
      DistinctAtMostLength(s[1..]);
      assert Distinct(s) == Distinct(s[1..]) + {s[0]};
    }
  }

  /** The metrics of a month's observations; none without observations. */
  function MetricsOf(observations: seq<MonthObservation>): Option<LearningMetrics>
  {
    if |observations| == 0 then None
    else Some(LearningMetrics(|observations|, |Distinct(ThemesOf(observations))|, |Distinct(SeedsOf(observations))|,
                              ConsistencyOf(|observations|)))
  }

  /** There are no more distinct themes or seeds than sessions. */
  lemma MetricsBounded(observations: seq<MonthObservation>)
    ensures MetricsOf(observations).None? <==> |observations| == 0
    ensures MetricsOf(observations).Some? ==>
      MetricsOf(observations).value.themeDiversity <= MetricsOf(observations).value.sessionFrequency &&
      MetricsOf(observations).value.curiosityEngagement <= MetricsOf(observations).value.sessionFrequency
  {
    DistinctAtMostLength(ThemesOf(observations));
    DistinctAtMostLength(SeedsOf(observations));
  }

  /** `_calculate_learning_metrics`: one pass collecting the present themes and seeds. */
  method CalculateLearningMetrics(observations: seq<MonthObservation>) returns (r: Option<LearningMetrics>)
    ensures r == MetricsOf(observations)
  {
    if |observations| == 0 {
      return None;
    }
    var themes: seq<string> := [];
    var seeds: seq<string> := [];
    var i := 0;
    while i < |observations|
      invariant 0 <= i <= |observations|
      invariant themes == ThemesOf(observations[..i]) && seeds == SeedsOf(observations[..i])
    {
      assert observations[..i + 1][..i] == observations[..i];
      if observations[i].themeOfDay != "" {
        themes := themes + [observations[i].themeOfDay];
      }
      if observations[i].curiositySeed != "" {
        seeds := seeds + [observations[i].curiositySeed];
      }
      i := i + 1;
    }
    assert observations[..i] == observations;
    r := Some(LearningMetrics(|observations|, |Distinct(themes)|, |Distinct(seeds)|, ConsistencyOf(|observations|)));
  }

  // ---------------------------------------------------------------- the AI reply

  const Fence := "```"
  const JsonFence := "```json"
  const InvalidJsonReply := "Error: Gemini did not return valid JSON."

  /** Strip the reply, drop a leading ```json, then a leading ```, then a trailing ```, stripping after each. */
  function CleanReply(reply: string): string
  {
    DropTrailing(DropLeading(DropLeading(Strip(reply), JsonFence), Fence), Fence)
  }

  function DropLeading(s: string, p: string): string
  {
    if StartsWith(s, p) then Strip(s[|p|..]) else s
  }

  function DropTrailing(s: string, p: string): string
  {
    if EndsWith(s, p) then Strip(s[..|s| - |p|]) else s
  }

  /** The summary text: the cleaned reply when it is valid JSON (`parses` decides), else the fixed error text. */
  function SummaryText(reply: string, parses: string -> bool): (r: string)
    ensures r == CleanReply(reply) || r == InvalidJsonReply
    ensures r == CleanReply(reply) <==> parses(CleanReply(reply)) || CleanReply(reply) == InvalidJsonReply
  {
    if parses(CleanReply(reply)) then CleanReply(reply) else InvalidJsonReply
  }

  /** A reply without fences is only stripped. */
  lemma UnfencedReply(reply: string)
    requires !StartsWith(Strip(reply), Fence) && !EndsWith(Strip(reply), Fence)
    ensures CleanReply(reply) == Strip(reply)
  {
    JsonFenceIsFenced(Strip(reply));
  }

  lemma JsonFenceIsFenced(s: string)
    ensures StartsWith(s, JsonFence) ==> StartsWith(s, Fence)
  {
    if StartsWith(s, JsonFence) {
      assert s[..3] == JsonFence[..3];
    }
  }

  lemma TrimStartIdempotent(s: string)
    ensures TrimStart(TrimStart(s)) == TrimStart(s)
  {
  }

  /** A JSON body fenced as ```json … ``` comes back as the stripped body. */
  lemma FencedReply(body: string)
    requires Strip(body) != [] && Strip(body)[0] != '`' && Strip(body)[|Strip(body)| - 1] != '`'
    ensures CleanReply(JsonFence + body + Fence) == Strip(body)
  {
    var reply := JsonFence + body + Fence;
    var t := TrimStart(body);
    StrippedHead(body);
    OpeningFence(body);
    NoSecondFence(t);
    ClosingFence(t);
    TrimStartIdempotent(body);
    CleanSteps(reply, t + Fence, Strip(body));
  }

  /** The opening fence and the blanks after it go; the closing fence stays. */
  lemma OpeningFence(body: string)
    requires TrimStart(body) != []
    ensures DropLeading(Strip(JsonFence + body + Fence), JsonFence) == TrimStart(body) + Fence
  {
    FencedKeepsBlanks(body);
    AfterTag(body);
  }

  /** Chaining the three clean-up steps. */
  lemma CleanSteps(reply: string, b: string, r: string)
    requires DropLeading(Strip(reply), JsonFence) == b
    requires DropLeading(b, Fence) == b && DropTrailing(b, Fence) == r
    ensures CleanReply(reply) == r
  {
  }

  lemma NoSecondFence(t: string)
    requires t != [] && t[0] != '`'
    ensures DropLeading(t + Fence, Fence) == t + Fence
  {
    assert (t + Fence)[0] == t[0];
    assert Fence[0] == '`';
  }

  lemma ClosingFence(t: string)
    ensures DropTrailing(t + Fence, Fence) == Strip(t)
  {
    var b := t + Fence;
    assert b[|b| - |Fence|..] == Fence && b[..|b| - |Fence|] == t;
  }

  /** The stripped body starts where the body's leading blanks end. */
  lemma StrippedHead(body: string)
    requires Strip(body) != []
    ensures TrimStart(body) != [] && TrimStart(body)[0] == Strip(body)[0]
  {
  }

  /** The fenced reply starts and ends with a backtick, so stripping keeps it. */
  lemma FencedKeepsBlanks(body: string)
    ensures Strip(JsonFence + body + Fence) == JsonFence + body + Fence
  {
    var reply := JsonFence + body + Fence;
    assert reply[0] == '`' && reply[|reply| - 1] == '`';
    StripOfStripped(reply);
  }

  /** Dropping the language tag leaves the body without its leading blanks, closing fence kept. */
  lemma AfterTag(body: string)
    requires TrimStart(body) != []
    ensures StartsWith(JsonFence + body + Fence, JsonFence)
    ensures Strip((JsonFence + body + Fence)[|JsonFence|..]) == TrimStart(body) + Fence
  {
    AfterPrefix(JsonFence, body, Fence);
    TrimStartAppend(body, Fence);
    EndsInBacktick(TrimStart(body));
  }

  lemma AfterPrefix(p: string, body: string, q: string)
    ensures StartsWith(p + body + q, p) && (p + body + q)[|p|..] == body + q
  {
    assert (p + body + q)[..|p|] == p;
  }

  lemma EndsInBacktick(t: string)
    requires t != [] && !IsSpace(t[0])
    ensures Strip(t + Fence) == t + Fence
  {
    var b := t + Fence;
    assert b[0] == t[0] && b[|b| - 1] == '`';
    StripOfStripped(b);
  }
}
