/**
 * The reminder job of main.py: every two minutes it walks the active
 * schedules, finds each one's next session, and e-mails the observer when
 * the session is 29 to 31 minutes away and nothing has been observed for
 * that child today. The status page applies the same next-session rule
 * with a wider 25 to 35 minute flag.
 *
 * The mail transport is a class whose outbox records what was delivered;
 * which addresses the transport accepts, and whether mail is configured,
 * are its state. "Today" as the observations table writes dates is passed
 * in beside `now`.
 */
module Reminder {
  import opened Wrappers
  import opened Text
  import opened Clock
  import opened Tables
  import opened Database

  /** A reminder: the observer's address, the child's name and the session time as shown. */
  datatype Email = Email(to: string, childName: string, scheduledTime: string)
  {
    function Subject(): (s: string)
      ensures StartsWith(s, "Session Reminder: Observation for ") && EndsWith(s, childName)
    {
      var s := "Session Reminder: Observation for " + childName;
      assert s[|s| - |childName|..] == childName;
      s
    }

    function Body(): string
    {
      "Dear Observer,\n\nThis is a reminder: you have an upcoming observation session for " + childName +
      " scheduled at " + scheduledTime + " today.\nPlease submit your report after the session.\n\nThank you!"
    }
  }

  /** The hour on a 12-hour clock face (`%I`). */
  function Hour12(hour: int): (h: nat)
    requires 0 <= hour <= 23
    ensures 1 <= h <= 12
  {
    if hour % 12 == 0 then 12 else hour % 12
  }

  /** `%I:%M %p` of a time of day. */
  function TwelveHour(t: ClockTime): (s: string)
    requires ValidClock(t)
    ensures |s| == 8 && s[2] == ':' && s[5] == ' '
    ensures EndsWith(s, "AM") <==> t.hour < 12
  {
    Pad2Value(Hour12(t.hour));
    Pad2Value(t.minute);
    Pad2(Hour12(t.hour)) + ":" + Pad2(t.minute) + " " + (if t.hour < 12 then "AM" else "PM")
  }

  /** Reading the fields back recovers the time: no two times share a rendering. */
  lemma TwelveHourInjective(a: ClockTime, b: ClockTime)
    requires ValidClock(a) && ValidClock(b)
    requires TwelveHour(a) == TwelveHour(b)
    ensures a == b
  {
    Pad2Value(Hour12(a.hour));
    Pad2Value(a.minute);
    Pad2Value(Hour12(b.hour));
    Pad2Value(b.minute);
    var ha, ma, pa := Pad2(Hour12(a.hour)), Pad2(a.minute), if a.hour < 12 then "AM" else "PM";
    var hb, mb, pb := Pad2(Hour12(b.hour)), Pad2(b.minute), if b.hour < 12 then "AM" else "PM";
    ClockFields(ha, ma, pa);
    ClockFields(hb, mb, pb);
    assert ha == hb && ma == mb && pa == pb;
    assert (a.hour < 12) == (b.hour < 12) by {
      assert pa[0] == pb[0];
    }
    Hour12Injective(a.hour, b.hour);
  }

  /** The fields of an `HH:MM PP` rendering sit at fixed places. */
  lemma ClockFields(h: string, m: string, p: string)
    requires |h| == 2 && |m| == 2 && |p| == 2
    ensures var s := h + ":" + m + " " + p; s[..2] == h && s[3..5] == m && s[6..] == p
  {
  }

  /** The 12-hour face and the half of the day determine the hour. */
  lemma Hour12Injective(x: int, y: int)
    requires 0 <= x <= 23 && 0 <= y <= 23
    requires Hour12(x) == Hour12(y) && (x < 12) == (y < 12)
    ensures x == y
  {
  }

  /**
   * The mail transport. `send_reminder_email` refuses without sending when
   * mail is not configured, reports success when the message goes out, and
   * reports failure when sending raises.
   */
  class Mailer {
    var configured: bool
    var accepts: set<string>
    var outbox: seq<Email>

    constructor (configured: bool, accepts: set<string>)
      ensures this.configured == configured && this.accepts == accepts && outbox == []
    {
      this.configured := configured;
      this.accepts := accepts;
      outbox := [];
    }

    method SendReminderEmail(to: string, childName: string, scheduledTime: string) returns (ok: bool)
      modifies this`outbox
      ensures ok <==> configured && to in accepts
      ensures !configured ==> !ok && outbox == old(outbox)
      ensures outbox == if ok then old(outbox) + [Email(to, childName, scheduledTime)] else old(outbox)
    {
      if !configured {
        return false;
      }
      if to in accepts {
        outbox := outbox + [Email(to, childName, scheduledTime)];
        ok := true;
      } else {
        ok := false;
      }
    }
  }

  /** The rows the job fetches: the active schedules, in table order. */
  function ActiveSchedules(rows: seq<ScheduledReport>): (r: seq<ScheduledReport>)
    ensures |r| <= |rows|
    ensures forall k :: 0 <= k < |r| ==> r[k].isActive && r[k] in rows
    ensures forall x :: x in rows && x.isActive ==> x in r
  {
    if |rows| == 0 then []
    else
      var rest := ActiveSchedules(rows[1..]);
      assert forall x :: x in rows[1..] ==> x in rows;
      assert forall x :: x in rows ==> x == rows[0] || x in rows[1..];
      if rows[0].isActive then [rows[0]] + rest else rest
  }

  /** Fetching from a table is fetching from each part: the active schedules keep table order. */
  lemma {:induction false} ActiveSchedulesConcat(a: seq<ScheduledReport>, b: seq<ScheduledReport>)
    ensures ActiveSchedules(a + b) == ActiveSchedules(a) + ActiveSchedules(b)
  {
    if |a| == 0 {
      assert a + b == b;
    } else {
      assert (a + b)[0] == a[0];
      assert (a + b)[1..] == a[1..] + b;
      ActiveSchedulesConcat(a[1..], b);
    }
  }

  /** An observation of the child by the observer dated today exists. */
  predicate ObservedToday(observations: seq<Observation>, childId: string, observerId: string, today: string)
  {
    exists k | 0 <= k < |observations| ::
      observations[k].studentId == childId && observations[k].username == observerId && observations[k].date == today
  }

  /**
   * The one schedule step: the stored time must read back (otherwise the
   * step raises and is skipped), the next session must be 29 to 31 minutes
   * away, nothing may be observed today, and both the observer's and the
   * child's rows must exist; then the reminder goes to the observer's
   * address with the child's name and the 12-hour session time.
   */
  function ReminderFor(row: ScheduledReport, observations: seq<Observation>, users: seq<User>, children: seq<Child>,
                       now: int, today: string): Option<Email>
  {
    match ParseClock(row.scheduledTime)
    case None => None
    case Some(t) =>
      if !InReminderWindow(NextOccurrence(now, t), now) then None
      else if ObservedToday(observations, row.childId, row.observerId, today) then None
      else
        match (FindUser(users, row.observerId), FindChild(children, row.childId))
        case (Some(u), Some(c)) => Some(Email(u.email, c.name, TwelveHour(t)))
        case _ => None
  }

  /** When a schedule step produces a reminder, and to whom. */
  lemma ReminderConditions(row: ScheduledReport, observations: seq<Observation>, users: seq<User>, children: seq<Child>,
                           now: int, today: string)
    ensures var r := ReminderFor(row, observations, users, children, now, today);
      r.Some? <==>
        ParseClock(row.scheduledTime).Some? &&
        InReminderWindow(NextOccurrence(now, ParseClock(row.scheduledTime).value), now) &&
        !ObservedToday(observations, row.childId, row.observerId, today) &&
        FindUser(users, row.observerId).Some? && FindChild(children, row.childId).Some?
    ensures var r := ReminderFor(row, observations, users, children, now, today);
      r.Some? ==>
        r.value == Email(FindUser(users, row.observerId).value.email, FindChild(children, row.childId).value.name,
                                 TwelveHour(ParseClock(row.scheduledTime).value))
  {
  }

  /** The reminders one pass over the rows produces, in row order. */
  function RemindersDue(rows: seq<ScheduledReport>, observations: seq<Observation>, users: seq<User>, children: seq<Child>,
                        now: int, today: string): (r: seq<Email>)
    ensures |r| <= |rows|
  {
    if |rows| == 0 then []
    else
      var init := RemindersDue(rows[..|rows| - 1], observations, users, children, now, today);
      match ReminderFor(rows[|rows| - 1], observations, users, children, now, today)
      case Some(e) => init + [e]
      case None => init
  }

  /**
   * A pass over a list is a pass over each part, and a single schedule
   * contributes exactly its step's reminder: the reminders keep row order.
   */
  lemma {:induction false} RemindersDueConcat(a: seq<ScheduledReport>, b: seq<ScheduledReport>, observations: seq<Observation>,
                                              users: seq<User>, children: seq<Child>, now: int, today: string)
    ensures RemindersDue(a + b, observations, users, children, now, today) ==
      RemindersDue(a, observations, users, children, now, today) + RemindersDue(b, observations, users, children, now, today)
    ensures |b| == 1 ==>
      RemindersDue(b, observations, users, children, now, today) ==
        (match ReminderFor(b[0], observations, users, children, now, today) case Some(e) => [e] case None => [])
    decreases |b|
  {
    if |b| == 0 {
      assert a + b == a;
    } else {
      var init := b[..|b| - 1];
      assert (a + b)[..|a + b| - 1] == a + init;
      assert (a + b)[|a + b| - 1] == b[|b| - 1];
      RemindersDueConcat(a, init, observations, users, children, now, today);
    }
  }

  /** Every schedule whose step produces a reminder gets it into the pass. */
  lemma {:induction false} RowsReachThePass(rows: seq<ScheduledReport>, observations: seq<Observation>, users: seq<User>,
                                            children: seq<Child>, now: int, today: string, k: int, e: Email)
    requires 0 <= k < |rows| && ReminderFor(rows[k], observations, users, children, now, today) == Some(e)
    ensures e in RemindersDue(rows, observations, users, children, now, today)
  {
    var n := |rows| - 1;
    var r := ReminderFor(rows[n], observations, users, children, now, today);
    var init := RemindersDue(rows[..n], observations, users, children, now, today);
    if k < n {
      assert rows[..n][k] == rows[k];
      RowsReachThePass(rows[..n], observations, users, children, now, today, k, e);
      assert e in init;
    } else {
      assert k == n;
    }
    InSnoc(init, r, e);
    RemindersDueSnoc(rows, n, observations, users, children, now, today);
    assert rows[..n + 1] == rows;
  }

  lemma InSnoc(init: seq<Email>, r: Option<Email>, e: Email)
    requires e in init || r == Some(e)
    ensures e in init + (match r case Some(x) => [x] case None => [])
  {
  }

  /** Every reminder of a pass comes from one of the rows. */
  lemma {:induction false} RemindersComeFromRows(rows: seq<ScheduledReport>, observations: seq<Observation>, users: seq<User>,
                                                 children: seq<Child>, now: int, today: string, e: Email)
    requires e in RemindersDue(rows, observations, users, children, now, today)
    ensures exists k :: 0 <= k < |rows| && ReminderFor(rows[k], observations, users, children, now, today) == Some(e)
  {
    var init := rows[..|rows| - 1];
    var last := rows[|rows| - 1];
    if ReminderFor(last, observations, users, children, now, today) == Some(e) {
      assert ReminderFor(rows[|rows| - 1], observations, users, children, now, today) == Some(e);
    } else {
      assert e in RemindersDue(init, observations, users, children, now, today);
      RemindersComeFromRows(init, observations, users, children, now, today, e);
      var k :| 0 <= k < |init| && ReminderFor(init[k], observations, users, children, now, today) == Some(e);
      assert rows[k] == init[k];
    }
  }

  /** Once the child has an observation today, no schedule of that pair reminds. */
  lemma ObservedTodaySilences(row: ScheduledReport, observations: seq<Observation>, users: seq<User>, children: seq<Child>,
                              now: int, today: string)
    requires ObservedToday(observations, row.childId, row.observerId, today)
    ensures ReminderFor(row, observations, users, children, now, today).None?
  {
  }

  /** The reminders the transport delivers, in order. */
  function Delivered(emails: seq<Email>, configured: bool, accepts: set<string>): (r: seq<Email>)
    ensures |r| <= |emails|
    ensures !configured ==> r == []
    ensures forall k :: 0 <= k < |r| ==> r[k] in emails && r[k].to in accepts
    ensures forall e :: e in r <==> configured && e in emails && e.to in accepts
  {
    if |emails| == 0 then []
    else
      var init := Delivered(emails[..|emails| - 1], configured, accepts);
      var last := emails[|emails| - 1];
      assert forall x :: x in emails[..|emails| - 1] ==> x in emails;
      if configured && last.to in accepts then init + [last] else init
  }

  /** Delivering a list is delivering each part: the delivered reminders keep their order. */
  lemma {:induction false} DeliveredConcat(a: seq<Email>, b: seq<Email>, configured: bool, accepts: set<string>)
    ensures Delivered(a + b, configured, accepts) == Delivered(a, configured, accepts) + Delivered(b, configured, accepts)
    decreases |b|
  {
    if |b| == 0 {
      assert a + b == a;
    } else {
      var init := b[..|b| - 1];
      assert (a + b)[..|a + b| - 1] == a + init;
      assert (a + b)[|a + b| - 1] == b[|b| - 1];
      DeliveredConcat(a, init, configured, accepts);
    }
  }

  /**
   * check_and_send_observer_reminders: without a scheduler nothing happens,
   * and a store that fails the first query ends the job; otherwise every
   * active schedule is stepped in turn, a step that fails or is skipped
   * does not stop the rest, and the outbox gains exactly the delivered
   * reminders of the pass.
   */
  method ReminderTick(db: Db, mailer: Mailer, schedulerReady: bool, now: int, today: string)
    modifies mailer`outbox
    ensures !schedulerReady || !db.online ==> mailer.outbox == old(mailer.outbox)
    ensures schedulerReady && db.online ==>
      mailer.outbox == old(mailer.outbox) +
        Delivered(RemindersDue(ActiveSchedules(db.schedules), db.observations, db.users, db.children, now, today),
                  mailer.configured, mailer.accepts)
  {
    if !schedulerReady || !db.online {
      return;
    }
    var schedules := ActiveSchedules(db.schedules);
    var observations, users, children := db.observations, db.users, db.children;
    ghost var start, configured, accepts := mailer.outbox, mailer.configured, mailer.accepts;
    var i := 0;
    assert schedules[..0] == [];
    assert RemindersDue([], observations, users, children, now, today) == [];
    assert Delivered([], configured, accepts) == [];
    assert mailer.outbox == start + [];
    while i < |schedules|
      invariant 0 <= i <= |schedules|
      invariant mailer.configured == configured && mailer.accepts == accepts
      invariant mailer.outbox == start + Delivered(RemindersDue(schedules[..i], observations, users, children, now, today), configured, accepts)
    {
      ghost var due := RemindersDue(schedules[..i], observations, users, children, now, today);
      ghost var added := DeliveredOne(ReminderFor(schedules[i], observations, users, children, now, today), configured, accepts);
      RemindersDueSnoc(schedules, i, observations, users, children, now, today);
      DeliveredStep(due, ReminderFor(schedules[i], observations, users, children, now, today), configured, accepts);
      AppendAssoc(start, Delivered(due, configured, accepts), added);
      ghost var before := mailer.outbox;
      RemindOne(mailer, schedules[i], observations, users, children, now, today);
      assert mailer.outbox == before + added;
      assert mailer.outbox == start + Delivered(RemindersDue(schedules[..i + 1], observations, users, children, now, today), configured, accepts);
      i := i + 1;
    }
    assert schedules[..i] == schedules;
  }

  /** What the transport delivers of one step's reminder. */
  function DeliveredOne(r: Option<Email>, configured: bool, accepts: set<string>): seq<Email>
  {
    match r
    case Some(e) => if configured && e.to in accepts then [e] else []
    case None => []
  }

  /** One step's reminder joins the delivered ones at the end. */
  lemma DeliveredStep(due: seq<Email>, r: Option<Email>, configured: bool, accepts: set<string>)
    ensures Delivered(due + (match r case Some(e) => [e] case None => []), configured, accepts) ==
      Delivered(due, configured, accepts) + DeliveredOne(r, configured, accepts)
  {
    if r.Some? {
      DeliveredSnoc(due, r.value, configured, accepts);
    } else {
      assert due + [] == due;
    }
  }

  /**
   * The body of the job's loop for one schedule: read the time, test the
   * window and today's observations, look up both rows, and send.
   */
  method RemindOne(mailer: Mailer, sched: ScheduledReport, observations: seq<Observation>, users: seq<User>,
                   children: seq<Child>, now: int, today: string)
    modifies mailer`outbox
    ensures mailer.outbox == old(mailer.outbox) +
      DeliveredOne(ReminderFor(sched, observations, users, children, now, today), mailer.configured, mailer.accepts)
  {
    ReminderConditions(sched, observations, users, children, now, today);
    var time := ParseClock(sched.scheduledTime);
    if time.None? || !InReminderWindow(NextOccurrence(now, time.value), now) {
      return;
    }
    if ObservedToday(observations, sched.childId, sched.observerId, today) {
      return;
    }
    var observer := FindUser(users, sched.observerId);
    var child := FindChild(children, sched.childId);
    if observer.Some? && child.Some? {
      var ok := mailer.SendReminderEmail(observer.value.email, child.value.name, TwelveHour(time.value));
    }
  }

  lemma AppendAssoc<T>(a: seq<T>, b: seq<T>, c: seq<T>)
    ensures (a + b) + c == a + (b + c)
  {
  }

  /** One more row adds its reminder, if any, at the end. */
  lemma RemindersDueSnoc(rows: seq<ScheduledReport>, i: int, observations: seq<Observation>, users: seq<User>,
                         children: seq<Child>, now: int, today: string)
    requires 0 <= i < |rows|
    ensures RemindersDue(rows[..i + 1], observations, users, children, now, today) ==
      RemindersDue(rows[..i], observations, users, children, now, today) +
      (match ReminderFor(rows[i], observations, users, children, now, today) case Some(e) => [e] case None => [])
  {
    assert rows[..i + 1][..i] == rows[..i];
  }

  /** One more reminder is delivered at the end exactly when the transport delivers it. */
  lemma DeliveredSnoc(emails: seq<Email>, e: Email, configured: bool, accepts: set<string>)
    ensures Delivered(emails + [e], configured, accepts) ==
      Delivered(emails, configured, accepts) + (if configured && e.to in accepts then [e] else [])
  {
    assert (emails + [e])[..|emails|] == emails;
  }

  /** The job is scheduled every two minutes. */
  const TickSeconds: int := 2 * SecondsPerMinute

  /**
   * The window is two minutes wide with both ends included, so the two
   * ticks at 31 and 29 minutes before a session both remind.
   */
  lemma TwoTicksCanBothRemind(now: int, t: ClockTime)
    requires ValidClock(t)
    requires NextOccurrence(now, t) == now + 31 * SecondsPerMinute
    ensures InReminderWindow(NextOccurrence(now, t), now)
    ensures InReminderWindow(NextOccurrence(now + TickSeconds, t), now + TickSeconds)
  {
    NextOccurrenceUnique(now + TickSeconds, t, now + 31 * SecondsPerMinute);
  }

  /**
   * Ticks more than two minutes apart, and less than a day minus two
   * minutes apart, never both fall in a schedule's window: a schedule
   * reminds on at most two consecutive ticks a day.
   */
  lemma WindowHitsAreCloseTogether(n1: int, n2: int, t: ClockTime)
    requires ValidClock(t)
    requires n1 + TickSeconds < n2 < n1 + SecondsPerDay - TickSeconds
    ensures !(InReminderWindow(NextOccurrence(n1, t), n1) && InReminderWindow(NextOccurrence(n2, t), n2))
  {
    var x1, x2 := NextOccurrence(n1, t), NextOccurrence(n2, t);
    SameTimeOfDayApart(x1, x2);
  }

  // ---- scheduler_status ----

  /** One entry of the status page: seconds stand in for the rounded minutes. */
  datatype StatusRow = StatusRow(scheduledTime: string, secondsToSession: int, inReminderWindow: bool)

  /** The entry for a schedule whose time reads back; a row that does not is skipped. */
  function StatusRowFor(row: ScheduledReport, now: int): (r: Option<StatusRow>)
    ensures r.Some? <==> ParseClock(row.scheduledTime).Some?
    ensures r.Some? ==>
      var next := NextOccurrence(now, ParseClock(row.scheduledTime).value);
      r.value.secondsToSession == next - now && 0 < r.value.secondsToSession <= SecondsPerDay &&
      (r.value.inReminderWindow <==> InStatusWindow(next, now)) && r.value.scheduledTime == row.scheduledTime
  {
    match ParseClock(row.scheduledTime)
    case None => None
    case Some(t) =>
      var next := NextOccurrence(now, t);
      Some(StatusRow(row.scheduledTime, next - now, InStatusWindow(next, now)))
  }

  function StatusRows(rows: seq<ScheduledReport>, now: int): (r: seq<StatusRow>)
    ensures |r| <= |rows|
  {
    if |rows| == 0 then []
    else
      var init := StatusRows(rows[..|rows| - 1], now);
      match StatusRowFor(rows[|rows| - 1], now)
      case Some(s) => init + [s]
      case None => init
  }

  /**
   * Listing a table is listing each part, and a single schedule gives its
   * entry or none: the status page keeps the schedules' order.
   */
  lemma {:induction false} StatusRowsConcat(a: seq<ScheduledReport>, b: seq<ScheduledReport>, now: int)
    ensures StatusRows(a + b, now) == StatusRows(a, now) + StatusRows(b, now)
    ensures |b| == 1 ==>
      StatusRows(b, now) == (match StatusRowFor(b[0], now) case Some(s) => [s] case None => [])
    decreases |b|
  {
    if |b| == 0 {
      assert a + b == a;
    } else {
      var init := b[..|b| - 1];
      assert (a + b)[..|a + b| - 1] == a + init;
      assert (a + b)[|a + b| - 1] == b[|b| - 1];
      StatusRowsConcat(a, init, now);
    }
  }

  /** A schedule the job would remind about is flagged on the status page, though the flag is wider. */
  lemma RemindedIsFlagged(row: ScheduledReport, observations: seq<Observation>, users: seq<User>, children: seq<Child>,
                          now: int, today: string)
    requires ReminderFor(row, observations, users, children, now, today).Some?
    ensures StatusRowFor(row, now).Some? && StatusRowFor(row, now).value.inReminderWindow
  {
    var t := ParseClock(row.scheduledTime).value;
    ReminderWindowInsideStatusWindow(NextOccurrence(now, t), now);
  }

  /**
   * scheduler_status: the active schedules are counted and listed with
   * their seconds to the next session; a store failure lists none.
   */
  method SchedulerStatus(db: Db, now: int) returns (active: nat, rows: seq<StatusRow>)
    ensures !db.online ==> active == 0 && rows == []
    ensures db.online ==> active == |ActiveSchedules(db.schedules)| && rows == StatusRows(ActiveSchedules(db.schedules), now)
  {
    if !db.online {
      return 0, [];
    }
    var schedules := ActiveSchedules(db.schedules);
    active := |schedules|;
    rows := [];
    var i := 0;
    while i < |schedules|
      invariant 0 <= i <= |schedules|
      invariant rows == StatusRows(schedules[..i], now)
    {
      StatusRowsSnoc(schedules, i, now);
      var entry := StatusRowFor(schedules[i], now);
      if entry.Some? {
        rows := rows + [entry.value];
      }
      i := i + 1;
    }
    assert schedules[..i] == schedules;
  }

  lemma StatusRowsSnoc(schedules: seq<ScheduledReport>, i: int, now: int)
    requires 0 <= i < |schedules|
    ensures StatusRows(schedules[..i + 1], now) ==
      StatusRows(schedules[..i], now) + (match StatusRowFor(schedules[i], now) case Some(s) => [s] case None => [])
  {
    assert schedules[..i + 1][..i] == schedules[..i];
  }
}
