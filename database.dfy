/**
 * The scheduled-reporting part of the store layer: one recurring daily
 * time per (observer, child), the append-only processing log that guards
 * against producing two reports for a pair on one day, and the dashboard's
 * per-child schedule status.
 *
 * The table logic is written as functions over the rows; class Db holds
 * the tables and its methods change them as the store calls do. `online`
 * is false when the store raises: every read then answers its error
 * default and every write leaves the tables alone.
 */
module Database {
  import opened Wrappers
  import opened Clock
  import opened Tables

  predicate IsPair(r: ScheduledReport, observerId: string, childId: string)
  {
    r.observerId == observerId && r.childId == childId
  }

  predicate HasPair(rows: seq<ScheduledReport>, observerId: string, childId: string)
  {
    exists k | 0 <= k < |rows| :: IsPair(rows[k], observerId, childId)
  }

  /** Number of rows for the pair. */
  function CountPair(rows: seq<ScheduledReport>, observerId: string, childId: string): nat
  {
    if |rows| == 0 then 0
    else CountPair(rows[..|rows| - 1], observerId, childId) + (if IsPair(rows[|rows| - 1], observerId, childId) then 1 else 0)
  }

  /** The table invariant: at most one row per (observer, child). */
  predicate UniquePairs(rows: seq<ScheduledReport>)
  {
    forall i, j | 0 <= i < j < |rows| :: !IsPair(rows[j], rows[i].observerId, rows[i].childId)
  }

  /** Under the table invariant a pair has one row if it has any. */
  lemma {:induction false} UniqueCount(rows: seq<ScheduledReport>, observerId: string, childId: string)
    requires UniquePairs(rows)
    ensures CountPair(rows, observerId, childId) == if HasPair(rows, observerId, childId) then 1 else 0
  {
    if |rows| > 0 {
      var init := rows[..|rows| - 1];
      var last := rows[|rows| - 1];
      assert UniquePairs(init);
      UniqueCount(init, observerId, childId);
      if IsPair(last, observerId, childId) {
        assert !HasPair(init, observerId, childId);
      } else if HasPair(init, observerId, childId) {
        var k :| 0 <= k < |init| && IsPair(init[k], observerId, childId);
        assert IsPair(rows[k], observerId, childId);
      } else {
        forall k | 0 <= k < |rows| ensures !IsPair(rows[k], observerId, childId) {
          if k < |init| { assert rows[k] == init[k]; }
        }
      }
    }
  }

  /** Two tables whose rows carry the same pairs, index by index, count each pair alike. */
  lemma {:induction false} SamePairsSameCount(a: seq<ScheduledReport>, b: seq<ScheduledReport>, observerId: string, childId: string)
    requires |a| == |b|
    requires forall k :: 0 <= k < |a| ==> a[k].observerId == b[k].observerId && a[k].childId == b[k].childId
    ensures CountPair(a, observerId, childId) == CountPair(b, observerId, childId)
  {
    if |a| > 0 {
      SamePairsSameCount(a[..|a| - 1], b[..|b| - 1], observerId, childId);
    }
  }

  /** The row written for a pair that has none yet: active, with no update time. */
  function NewSchedule(observerId: string, childId: string, time: string): ScheduledReport
  {
    ScheduledReport(observerId, childId, time, true, None)
  }

  /**
   * save_scheduled_report on the table: when rows for the pair exist, each one
   * gets the new time and update stamp and nothing else changes; otherwise
   * one new row is appended.
   */
  function Upsert(rows: seq<ScheduledReport>, observerId: string, childId: string, time: string, now: int): (r: seq<ScheduledReport>)
    ensures HasPair(r, observerId, childId)
    ensures forall k :: 0 <= k < |r| && IsPair(r[k], observerId, childId) ==> r[k].scheduledTime == time
    ensures HasPair(rows, observerId, childId) ==>
      |r| == |rows| &&
      forall k :: 0 <= k < |rows| ==>
        if IsPair(rows[k], observerId, childId)
        then r[k] == rows[k].(scheduledTime := time, updatedAt := Some(now))
        else r[k] == rows[k]
    ensures !HasPair(rows, observerId, childId) ==> r == rows + [NewSchedule(observerId, childId, time)]
    ensures CountPair(r, observerId, childId) == if HasPair(rows, observerId, childId) then CountPair(rows, observerId, childId) else 1
    ensures UniquePairs(rows) ==> UniquePairs(r)
  {
    if HasPair(rows, observerId, childId) then
      var r := seq(|rows|, k requires 0 <= k < |rows| =>
        if IsPair(rows[k], observerId, childId) then rows[k].(scheduledTime := time, updatedAt := Some(now)) else rows[k]);
      SamePairsSameCount(r, rows, observerId, childId);
      var k :| 0 <= k < |rows| && IsPair(rows[k], observerId, childId);
      assert IsPair(r[k], observerId, childId);
      r
    else
      var r := rows + [NewSchedule(observerId, childId, time)];
      assert r[..|r| - 1] == rows;
      assert IsPair(r[|rows|], observerId, childId);
      UniqueCountNone(rows, observerId, childId);
      r
  }

  lemma {:induction false} UniqueCountNone(rows: seq<ScheduledReport>, observerId: string, childId: string)
    requires !HasPair(rows, observerId, childId)
    ensures CountPair(rows, observerId, childId) == 0
  {
    if |rows| > 0 {
      var init := rows[..|rows| - 1];
      forall k | 0 <= k < |init| ensures !IsPair(init[k], observerId, childId) {
        assert init[k] == rows[k];
      }
      UniqueCountNone(init, observerId, childId);
    }
  }

  /** Saving a schedule twice for the same pair leaves exactly one row for it, holding the later time. */
  lemma SaveTwiceOneRow(rows: seq<ScheduledReport>, observerId: string, childId: string, t1: string, n1: int, t2: string, n2: int)
    requires UniquePairs(rows)
    ensures var r := Upsert(Upsert(rows, observerId, childId, t1, n1), observerId, childId, t2, n2);
      CountPair(r, observerId, childId) == 1 &&
      forall k :: 0 <= k < |r| && IsPair(r[k], observerId, childId) ==> r[k].scheduledTime == t2
  {
    var r1 := Upsert(rows, observerId, childId, t1, n1);
    UniqueCount(r1, observerId, childId);
  }

  /** update_scheduled_report_status on the table: only `is_active` of the pair's rows changes. */
  function SetActive(rows: seq<ScheduledReport>, observerId: string, childId: string, active: bool): (r: seq<ScheduledReport>)
    ensures |r| == |rows|
    ensures forall k :: 0 <= k < |rows| ==>
      r[k] == (if IsPair(rows[k], observerId, childId) then rows[k].(isActive := active) else rows[k])
  {
    seq(|rows|, k requires 0 <= k < |rows| =>
      if IsPair(rows[k], observerId, childId) then rows[k].(isActive := active) else rows[k])
  }

  /** delete_scheduled_report on the table: the pair's rows go, every other row stays in order. */
  function RemovePair(rows: seq<ScheduledReport>, observerId: string, childId: string): (r: seq<ScheduledReport>)
    ensures forall x :: x in r <==> x in rows && !IsPair(x, observerId, childId)
    ensures |r| == |rows| - CountPair(rows, observerId, childId)
    ensures !HasPair(r, observerId, childId)
  {
    if |rows| == 0 then []
    else
      var init := RemovePair(rows[..|rows| - 1], observerId, childId);
      var last := rows[|rows| - 1];
      assert rows == rows[..|rows| - 1] + [last];
      if IsPair(last, observerId, childId) then init
      else
        var r := init + [last];
        assert forall k | 0 <= k < |init| :: r[k] == init[k] && init[k] in init;
        r
  }

  /** Deleting from a table is deleting from each part: the surviving rows keep their table order. */
  lemma {:induction false} RemovePairConcat(a: seq<ScheduledReport>, b: seq<ScheduledReport>, observerId: string, childId: string)
    ensures RemovePair(a + b, observerId, childId) == RemovePair(a, observerId, childId) + RemovePair(b, observerId, childId)
    decreases |b|
  {
    if |b| == 0 {
      assert a + b == a;
    } else {
      var init := b[..|b| - 1];
      assert (a + b)[..|a + b| - 1] == a + init;
      assert (a + b)[|a + b| - 1] == b[|b| - 1];
      RemovePairConcat(a, init, observerId, childId);
    }
  }

  /** The first active row for the pair, in table order (the query's `data[0]`). */
  function FirstActive(rows: seq<ScheduledReport>, childId: string, observerId: string): (r: Option<ScheduledReport>)
    ensures r.Some? ==> r.value in rows && IsPair(r.value, observerId, childId) && r.value.isActive
    ensures r.None? <==> forall k :: 0 <= k < |rows| ==> !(IsPair(rows[k], observerId, childId) && rows[k].isActive)
  {
    if |rows| == 0 then None
    else if IsPair(rows[0], observerId, childId) && rows[0].isActive then Some(rows[0])
    else
      var r := FirstActive(rows[1..], childId, observerId);
      assert forall k :: 1 <= k < |rows| ==> rows[k] == rows[1..][k - 1];
      r
  }

  /**
   * get_next_scheduled_time_for_child: no active row gives None, and so does a
   * stored time that does not parse; otherwise the next occurrence of the
   * stored time after `now`.
   */
  function NextScheduledTime(rows: seq<ScheduledReport>, childId: string, observerId: string, now: int): (r: Option<int>)
    ensures FirstActive(rows, childId, observerId).None? ==> r.None?
    ensures r.Some? <==> FirstActive(rows, childId, observerId).Some? && ParseClock(FirstActive(rows, childId, observerId).value.scheduledTime).Some?
    ensures r.Some? ==> now < r.value <= now + SecondsPerDay
    ensures r.Some? ==> r.value % SecondsPerDay == Offset(ParseClock(FirstActive(rows, childId, observerId).value.scheduledTime).value)
  {
    match FirstActive(rows, childId, observerId)
    case None => None
    case Some(row) =>
      match ParseClock(row.scheduledTime)
      case None => None
      case Some(t) => Some(NextOccurrence(now, t))
  }

  /** A log entry for the pair falls inside [today 00:00, tomorrow 00:00). */
  predicate LoggedToday(e: LogEntry, childId: string, observerId: string, now: int)
  {
    e.childId == childId && e.observerId == observerId &&
    DayStart(now) <= e.processedAt < DayStart(now) + SecondsPerDay
  }

  /** check_if_report_processed_today over the log. */
  predicate ProcessedIn(log: seq<LogEntry>, childId: string, observerId: string, now: int)
  {
    exists k | 0 <= k < |log| :: LoggedToday(log[k], childId, observerId, now)
  }

  /** The row log_report_processing appends; an empty or missing observation id is left out. */
  function LogRow(childId: string, observerId: string, observationId: Option<string>, reportType: ReportType, now: int): (e: LogEntry)
    ensures e.childId == childId && e.observerId == observerId && e.reportType == reportType && e.processedAt == now
    ensures e.observationId.Some? <==> observationId.Some? && observationId.value != ""
    ensures e.observationId.Some? ==> e.observationId == observationId
  {
    LogEntry(childId, observerId, if observationId.Some? && observationId.value != "" then observationId else None, reportType, now)
  }

  /** Appending one entry changes the guard only through that entry. */
  lemma ProcessedAfterAppend(log: seq<LogEntry>, e: LogEntry, childId: string, observerId: string, now: int)
    ensures ProcessedIn(log + [e], childId, observerId, now) <==>
            ProcessedIn(log, childId, observerId, now) || LoggedToday(e, childId, observerId, now)
  {
    var log' := log + [e];
    if LoggedToday(e, childId, observerId, now) {
      assert LoggedToday(log'[|log|], childId, observerId, now);
    }
    if ProcessedIn(log, childId, observerId, now) {
      var k :| 0 <= k < |log| && LoggedToday(log[k], childId, observerId, now);
      assert LoggedToday(log'[k], childId, observerId, now);
    }
    if ProcessedIn(log', childId, observerId, now) {
      var k :| 0 <= k < |log'| && LoggedToday(log'[k], childId, observerId, now);
      if k < |log| { assert log'[k] == log[k]; }
    }
  }

  /**
   * After a report is logged at `t`, the pair counts as processed at every
   * instant of that calendar day, and the entry does not count on any other day.
   */
  lemma ProcessedUntilMidnight(log: seq<LogEntry>, childId: string, observerId: string, observationId: Option<string>,
                               reportType: ReportType, t: int, now: int)
    ensures DayStart(now) == DayStart(t) ==>
      ProcessedIn(log + [LogRow(childId, observerId, observationId, reportType, t)], childId, observerId, now)
    ensures DayStart(now) != DayStart(t) ==>
      (ProcessedIn(log + [LogRow(childId, observerId, observationId, reportType, t)], childId, observerId, now)
       <==> ProcessedIn(log, childId, observerId, now))
  {
    var e := LogRow(childId, observerId, observationId, reportType, t);
    ProcessedAfterAppend(log, e, childId, observerId, now);
    if DayStart(now) != DayStart(t) {
      assert !LoggedToday(e, childId, observerId, now);
    }
  }

  /** The children mapped to an observer, in table order (get_observer_children). */
  function ChildrenOf(mappings: seq<ObserverChildMapping>, children: seq<Child>, observerId: string): (r: seq<Child>)
    ensures forall c :: c in r <==> c in children && exists m :: m in mappings && m.observerId == observerId && m.childId == c.id
    ensures |r| <= |children|
  {
    if |children| == 0 then []
    else
      var init := ChildrenOf(mappings, children[..|children| - 1], observerId);
      var last := children[|children| - 1];
      assert children == children[..|children| - 1] + [last];
      if exists m :: m in mappings && m.observerId == observerId && m.childId == last.id then
        var r := init + [last];
        assert forall k | 0 <= k < |init| :: r[k] == init[k] && init[k] in init;
        r
      else init
  }

  /** Listing a children table is listing each part: the observer's children keep the children table's order. */
  lemma {:induction false} ChildrenOfConcat(mappings: seq<ObserverChildMapping>, a: seq<Child>, b: seq<Child>, observerId: string)
    ensures ChildrenOf(mappings, a + b, observerId) == ChildrenOf(mappings, a, observerId) + ChildrenOf(mappings, b, observerId)
    decreases |b|
  {
    if |b| == 0 {
      assert a + b == a;
    } else {
      var init := b[..|b| - 1];
      assert (a + b)[..|a + b| - 1] == a + init;
      assert (a + b)[|a + b| - 1] == b[|b| - 1];
      ChildrenOfConcat(mappings, a, init, observerId);
    }
  }

  /** One entry of the dashboard's schedule status. */
  datatype ScheduleStatus = ScheduleStatus(
    child: Child,
    nextScheduledTime: Option<int>,
    processedToday: bool,
    isDue: bool,
    canProcess: bool)

  /**
   * The status of one child: due when a next time exists, the child was not
   * processed today and the next time is within 30 minutes of now either
   * way; processable when due and not processed.
   */
  function StatusEntry(child: Child, next: Option<int>, processed: bool, now: int): (s: ScheduleStatus)
    ensures s.child == child && s.nextScheduledTime == next && s.processedToday == processed
    ensures s.isDue <==> next.Some? && !processed && IsDue(next.value, now)
    ensures s.canProcess <==> s.isDue && !processed
  {
    var due := next.Some? && !processed && IsDue(next.value, now);
    ScheduleStatus(child, next, processed, due, due && !processed)
  }

  /**
   * Because a next time always lies after now, a child can be processed
   * exactly when its next time is at most 30 minutes ahead and it was not
   * processed today.
   */
  lemma CanProcessWithinHalfHour(rows: seq<ScheduledReport>, log: seq<LogEntry>, child: Child, observerId: string, now: int)
    ensures var next := NextScheduledTime(rows, child.id, observerId, now);
      var s := StatusEntry(child, next, ProcessedIn(log, child.id, observerId, now), now);
      s.canProcess <==>
        next.Some? && !ProcessedIn(log, child.id, observerId, now) && 0 < next.value - now <= 30 * SecondsPerMinute
  {
  }

  /** The status list the dashboard shows: one entry per mapped child, in order. */
  function StatusList(kids: seq<Child>, rows: seq<ScheduledReport>, log: seq<LogEntry>, observerId: string, now: int): (r: seq<ScheduleStatus>)
    ensures |r| == |kids|
    ensures forall i :: 0 <= i < |kids| ==> r[i].child == kids[i]
  {
    seq(|kids|, i requires 0 <= i < |kids| =>
      StatusEntry(kids[i], NextScheduledTime(rows, kids[i].id, observerId, now), ProcessedIn(log, kids[i].id, observerId, now), now))
  }

  // ---- row lookups ----

  /** The first user row with the id. */
  function FindUser(users: seq<User>, id: string): (r: Option<User>)
    ensures r.Some? ==> r.value in users && r.value.id == id
    ensures r.None? <==> forall k :: 0 <= k < |users| ==> users[k].id != id
  {
    if |users| == 0 then None
    else if users[0].id == id then Some(users[0])
    else
      var r := FindUser(users[1..], id);
      assert forall k :: 1 <= k < |users| ==> users[k] == users[1..][k - 1];
      r
  }

  /** The first child row with the id. */
  function FindChild(children: seq<Child>, id: string): (r: Option<Child>)
    ensures r.Some? ==> r.value in children && r.value.id == id
    ensures r.None? <==> forall k :: 0 <= k < |children| ==> children[k].id != id
  {
    if |children| == 0 then None
    else if children[0].id == id then Some(children[0])
    else
      var r := FindChild(children[1..], id);
      assert forall k :: 1 <= k < |children| ==> children[k] == children[1..][k - 1];
      r
  }

  /** The first observation row with the id. */
  function FindObservation(observations: seq<Observation>, id: string): (r: Option<Observation>)
    ensures r.Some? ==> r.value in observations && r.value.id == id
    ensures r.None? <==> forall k :: 0 <= k < |observations| ==> observations[k].id != id
  {
    if |observations| == 0 then None
    else if observations[0].id == id then Some(observations[0])
    else
      var r := FindObservation(observations[1..], id);
      assert forall k :: 1 <= k < |observations| ==> observations[k] == observations[1..][k - 1];
      r
  }

  /** get_due_reports_for_observer's filter: the entries with `can_process`, in order. */
  function DueOnly(status: seq<ScheduleStatus>): (r: seq<ScheduleStatus>)
    ensures forall s :: s in r <==> s in status && s.canProcess
    ensures |r| <= |status|
  {
    if |status| == 0 then []
    else
      var init := DueOnly(status[..|status| - 1]);
      var last := status[|status| - 1];
      assert status == status[..|status| - 1] + [last];
      if last.canProcess then
        var r := init + [last];
        assert forall k | 0 <= k < |init| :: r[k] == init[k] && init[k] in init;
        r
      else init
  }

  /** Filtering a status list is filtering each part: the due entries keep their order. */
  lemma {:induction false} DueOnlyConcat(a: seq<ScheduleStatus>, b: seq<ScheduleStatus>)
    ensures DueOnly(a + b) == DueOnly(a) + DueOnly(b)
    decreases |b|
  {
    if |b| == 0 {
      assert a + b == a;
    } else {
      var init := b[..|b| - 1];
      assert (a + b)[..|a + b| - 1] == a + init;
      assert (a + b)[|a + b| - 1] == b[|b| - 1];
      DueOnlyConcat(a, init);
    }
  }

  /** Every user row with this id gets the given child (or none). */
  function SetChildOf(users: seq<User>, userId: string, childId: Option<string>): (r: seq<User>)
    ensures |r| == |users|
    ensures forall k :: 0 <= k < |users| && users[k].id != userId ==> r[k] == users[k]
    ensures forall k :: 0 <= k < |users| && users[k].id == userId ==> r[k] == users[k].(childId := childId)
  {
    seq(|users|, k requires 0 <= k < |users| => if users[k].id == userId then users[k].(childId := childId) else users[k])
  }

  class Db {
    var online: bool
    var schedules: seq<ScheduledReport>
    var log: seq<LogEntry>
    var users: seq<User>
    var children: seq<Child>
    var mappings: seq<ObserverChildMapping>
    var observations: seq<Observation>
    var reviews: seq<PeerReview>
    var notifications: seq<Notification>
    var applications: seq<Application>

    ghost predicate Valid()
      reads this
    {
      UniquePairs(schedules)
    }

    constructor ()
      ensures Valid() && online
      ensures schedules == [] && log == [] && users == [] && children == [] && mappings == []
      ensures observations == [] && reviews == [] && notifications == [] && applications == []
    {
      online := true;
      schedules, log, users, children, mappings := [], [], [], [], [];
      observations, reviews, notifications, applications := [], [], [], [];
    }

    /** get_next_scheduled_time_for_child against the current tables. */
    function NextTimeFor(childId: string, observerId: string, now: int): (r: Option<int>)
      reads this
      ensures r.Some? ==> online && now < r.value <= now + SecondsPerDay
    {
      if online then NextScheduledTime(schedules, childId, observerId, now) else None
    }

    /** check_if_report_processed_today against the current tables; a store error answers false. */
    predicate ProcessedToday(childId: string, observerId: string, now: int)
      reads this
    {
      online && ProcessedIn(log, childId, observerId, now)
    }

    /** get_observer_children against the current tables; a store error answers no children. */
    function ObserverChildren(observerId: string): seq<Child>
      reads this
    {
      if online then ChildrenOf(mappings, children, observerId) else []
    }

    method SaveScheduledReport(observerId: string, childId: string, time: string, now: int) returns (ok: bool)
      requires Valid()
      modifies this`schedules
      ensures Valid()
      ensures ok == online
      ensures schedules == if online then Upsert(old(schedules), observerId, childId, time, now) else old(schedules)
    {
      if !online {
        return false;
      }
      schedules := Upsert(schedules, observerId, childId, time, now);
      ok := true;
    }

    method LogReportProcessing(childId: string, observerId: string, observationId: Option<string>, reportType: ReportType, now: int)
      returns (ok: bool)
      modifies this`log
      ensures ok == online
      ensures log == if online then old(log) + [LogRow(childId, observerId, observationId, reportType, now)] else old(log)
    {
      if !online {
        return false;
      }
      log := log + [LogRow(childId, observerId, observationId, reportType, now)];
      ok := true;
    }

    method UpdateScheduledReportStatus(observerId: string, childId: string, active: bool) returns (ok: bool)
      requires Valid()
      modifies this`schedules
      ensures Valid()
      ensures ok == online
      ensures schedules == if online then SetActive(old(schedules), observerId, childId, active) else old(schedules)
    {
      if !online {
        return false;
      }
      schedules := SetActive(schedules, observerId, childId, active);
      ok := true;
    }

    method DeleteScheduledReport(observerId: string, childId: string) returns (ok: bool)
      requires Valid()
      modifies this`schedules
      ensures Valid()
      ensures ok == online
      ensures schedules == if online then RemovePair(old(schedules), observerId, childId) else old(schedules)
    {
      if !online {
        return false;
      }
      ghost var before := schedules;
      schedules := RemovePair(schedules, observerId, childId);
      assert UniquePairs(schedules) by {
        forall i, j | 0 <= i < j < |schedules| ensures !IsPair(schedules[j], schedules[i].observerId, schedules[i].childId) {
          RemovePairOrder(before, observerId, childId, i, j);
        }
      }
      ok := true;
    }

    /** get_child_schedule_status: one status entry per mapped child, built in a loop. */
    method ChildScheduleStatus(observerId: string, now: int) returns (status: seq<ScheduleStatus>)
      ensures status == StatusList(ObserverChildren(observerId), if online then schedules else [], if online then log else [], observerId, now)
    {
      var kids := ObserverChildren(observerId);
      ghost var rows := if online then schedules else [];
      ghost var entries := if online then log else [];
      status := [];
      var i := 0;
      while i < |kids|
        invariant 0 <= i <= |kids|
        invariant status == StatusList(kids[..i], rows, entries, observerId, now)
      {
        var next := NextTimeFor(kids[i].id, observerId, now);
        var processed := ProcessedToday(kids[i].id, observerId, now);
        status := status + [StatusEntry(kids[i], next, processed, now)];
        i := i + 1;
        assert kids[..i] == kids[..i - 1] + [kids[i - 1]];
      }
      assert kids[..i] == kids;
    }

    /** get_due_reports_for_observer. */
    method DueReportsForObserver(observerId: string, now: int) returns (due: seq<ScheduleStatus>)
      ensures due == DueOnly(StatusList(ObserverChildren(observerId), if online then schedules else [], if online then log else [], observerId, now))
      ensures forall s :: s in due ==> s.canProcess && s.nextScheduledTime.Some? && !s.processedToday
    {
      var status := ChildScheduleStatus(observerId, now);
      due := DueOnly(status);
    }
  }

  /** RemovePair keeps the surviving rows in their original relative order, so distinct survivors came from distinct rows. */
  lemma {:induction false} RemovePairOrder(rows: seq<ScheduledReport>, observerId: string, childId: string, i: int, j: int)
    requires UniquePairs(rows)
    requires 0 <= i < j < |RemovePair(rows, observerId, childId)|
    ensures var r := RemovePair(rows, observerId, childId);
      !IsPair(r[j], r[i].observerId, r[i].childId)
  {
    var init := rows[..|rows| - 1];
    var last := rows[|rows| - 1];
    var ri := RemovePair(init, observerId, childId);
    assert UniquePairs(init);
    if IsPair(last, observerId, childId) || j < |ri| {
      RemovePairOrder(init, observerId, childId, i, j);
    } else {
      var r := ri + [last];
      assert r[i] in ri;
      var k :| 0 <= k < |init| && init[k] == r[i];
      assert rows[k] == r[i];
    }
  }
}
