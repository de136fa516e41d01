/**
 * The observer-facing routes of routes/observer.py that carry workflow
 * logic: setting a daily schedule, starting a scheduled report, the
 * bookkeeping after an observation is saved, the audio upload checks, the
 * peer-review pool, the review page's gate, review submission and the
 * principal's notification, and the application form.
 *
 * The web session is a class whose fields are the session keys these
 * routes read and write. Services whose answers decide a branch (the store's
 * insert status, the transcription, the upload) are parameters.
 */
module Observer {
  import opened Wrappers
  import opened Text
  import opened Clock
  import opened Tables
  import opened Database
  import opened Listing
  import opened Sorting

  /** The session keys the routes use. */
  class Session {
    var userId: string
    var name: string
    var scheduledChildId: Option<string>
    var scheduledChildName: Option<string>
    var lastCustomReport: Option<string>
    var lastReport: Option<string>
    var lastReportId: Option<string>

    constructor (userId: string, name: string)
      ensures this.userId == userId && this.name == name
      ensures scheduledChildId.None? && scheduledChildName.None? && lastCustomReport.None?
      ensures lastReport.None? && lastReportId.None?
    {
      this.userId := userId;
      this.name := name;
      scheduledChildId, scheduledChildName, lastCustomReport := None, None, None;
      lastReport, lastReportId := None, None;
    }
  }

  /** A form field is given when present and non-empty. */
  predicate Given(field: Option<string>)
  {
    field.Some? && field.value != ""
  }

  // ---- set_schedule ----

  /**
   * The schedule form's time check: exactly two ':'-separated fields, both
   * integers, hour 0..23 and minute 0..59. An accepted text reads back to
   * the same time wherever a stored schedule is read.
   */
  function ScheduleTimeOf(time: string): (r: Option<ClockTime>)
    ensures r.Some? ==> ValidClock(r.value) && ParseClock(time) == r
    ensures r.Some? <==> |Split(time, ':')| == 2 && ParseClock(time).Some?
  {
    var parts := Split(time, ':');
    if |parts| != 2 then None
    else
      match (ParseInt(parts[0]), ParseInt(parts[1]))
      case (Some(h), Some(m)) => if 0 <= h <= 23 && 0 <= m <= 59 then Some(ClockTime(h, m)) else None
      case _ => None
  }

  /**
   * The form check is stricter than the reader: a time the form accepts,
   * written with seconds appended, is refused by the form, yet the reader of
   * stored schedules reads it as the same time.
   */
  lemma ScheduleTimeRejectsSeconds(time: string, seconds: string)
    requires ScheduleTimeOf(time).Some?
    requires ':' !in seconds
    ensures ScheduleTimeOf(time + ":" + seconds).None?
    ensures ParseClock(time + ":" + seconds) == ParseClock(time)
  {
    assert time + ":" + seconds == time + [':'] + seconds;
    SplitConcat(time, ':', seconds);
    SplitNoSep(seconds, ':');
    var parts := Split(time + ":" + seconds, ':');
    assert parts == Split(time, ':') + [seconds];
    assert parts[0] == Split(time, ':')[0] && parts[1] == Split(time, ':')[1];
  }

  datatype ScheduleOutcome = MissingFields | InvalidTime | Saved | SaveFailed

  /** The rejection set_schedule answers before saving, if any. */
  function ScheduleFormError(childId: Option<string>, time: Option<string>): (r: Option<ScheduleOutcome>)
    ensures r == Some(MissingFields) <==> !Given(childId) || !Given(time)
    ensures r == Some(InvalidTime) <==> Given(childId) && Given(time) && ScheduleTimeOf(time.value).None?
    ensures r.None? ==> Given(childId) && Given(time) && ParseClock(time.value).Some?
  {
    if !Given(childId) || !Given(time) then Some(MissingFields)
    else if ScheduleTimeOf(time.value).None? then Some(InvalidTime)
    else None
  }

  /** set_schedule: validate the form, then save; a rejected form saves nothing. */
  method SetSchedule(db: Db, session: Session, childId: Option<string>, time: Option<string>, now: int)
    returns (out: ScheduleOutcome)
    requires db.Valid()
    modifies db`schedules
    ensures db.Valid()
    ensures ScheduleFormError(childId, time).Some? ==>
      out == ScheduleFormError(childId, time).value && db.schedules == old(db.schedules)
    ensures ScheduleFormError(childId, time).None? ==>
      (out == Saved <==> db.online) && (out == Saved || out == SaveFailed) &&
      db.schedules == if db.online then Upsert(old(db.schedules), session.userId, childId.value, time.value, now) else old(db.schedules)
  {
    var rejection := ScheduleFormError(childId, time);
    if rejection.Some? {
      return rejection.value;
    }
    var ok := db.SaveScheduledReport(session.userId, childId.value, time.value, now);
    out := if ok then Saved else SaveFailed;
  }

  // ---- process_scheduled_report ----

  datatype StartOutcome = AlreadyProcessed | ChildNotFound | StartedScheduled(childName: string) | StartFailed

  /**
   * process_scheduled_report: a pair already processed today is refused with
   * a warning; otherwise, once the child exists, the session remembers it as
   * the scheduled child. Refusals leave the session alone.
   */
  method ProcessScheduledReport(db: Db, session: Session, childId: string, now: int) returns (out: StartOutcome)
    modifies session`scheduledChildId, session`scheduledChildName
    ensures out == AlreadyProcessed <==> db.ProcessedToday(childId, session.userId, now)
    ensures !db.ProcessedToday(childId, session.userId, now) && !db.online ==> out == StartFailed
    ensures db.online && !db.ProcessedToday(childId, session.userId, now) ==>
      match FindChild(db.children, childId)
      case None => out == ChildNotFound
      case Some(c) => out == StartedScheduled(c.name)
    ensures out.StartedScheduled? ==>
      session.scheduledChildId == Some(childId) && session.scheduledChildName == Some(out.childName)
    ensures !out.StartedScheduled? ==>
      session.scheduledChildId == old(session.scheduledChildId) && session.scheduledChildName == old(session.scheduledChildName)
  {
    if db.ProcessedToday(childId, session.userId, now) {
      return AlreadyProcessed;
    }
    if !db.online {
      return StartFailed;
    }
    var child := FindChild(db.children, childId);
    if child.None? {
      return ChildNotFound;
    }
    session.scheduledChildId := Some(childId);
    session.scheduledChildName := Some(child.value.name);
    out := StartedScheduled(child.value.name);
  }

  // ---- process_file: the record and the bookkeeping after it ----

  /** The peer-review fields every observer-produced observation starts with. */
  const InitialPeerFields: PeerFields := PeerFields(1, 0, "pending")

  /** The observation row process_file writes (OCR and audio paths alike). */
  function NewObservation(id: string, childId: string, observerId: string, studentName: string, observerName: string,
                          date: string, now: int, filename: string, fileUrl: Option<string>, fullData: FullData,
                          themeOfDay: string, curiositySeed: string): (o: Observation)
    ensures o.id == id && o.studentId == childId && o.username == observerId && o.timestamp == now
    ensures o.peer == Some(InitialPeerFields) && o.peer.value.completed == 0 && o.peer.value.required == 1
    ensures !o.processedByAdmin
  {
    Observation(id, childId, observerId, studentName, observerName, date, now, filename, fileUrl, fullData,
                themeOfDay, curiositySeed, Some(InitialPeerFields), false)
  }

  /** The log entry is 'scheduled' exactly when the session's scheduled child is this child. */
  function ReportTypeFor(scheduledChildId: Option<string>, childId: string): (r: ReportType)
    ensures r == Scheduled <==> scheduledChildId == Some(childId)
    ensures r == Manual <==> scheduledChildId != Some(childId)
  {
    if scheduledChildId == Some(childId) then Scheduled else Manual
  }

  /** How much of the report the session keeps. */
  const LastReportLimit: int := 1500

  /**
   * The tail of process_file once the report exists: insert the observation,
   * then log the processing, clear the scheduled-child keys and the cached
   * custom report, and keep at most 1500 characters of the report. A failed
   * insert ends the route with nothing logged and the session untouched.
   */
  method SaveProcessedObservation(db: Db, session: Session, obs: Observation, report: string, now: int)
    returns (ok: bool)
    requires obs.username == session.userId
    modifies db`observations, db`log
    modifies session`scheduledChildId, session`scheduledChildName, session`lastCustomReport, session`lastReport, session`lastReportId
    ensures ok == db.online
    ensures !ok ==> db.observations == old(db.observations) && db.log == old(db.log)
    ensures !ok ==> session.scheduledChildId == old(session.scheduledChildId) && session.scheduledChildName == old(session.scheduledChildName)
    ensures !ok ==> session.lastCustomReport == old(session.lastCustomReport) && session.lastReport == old(session.lastReport)
    ensures !ok ==> session.lastReportId == old(session.lastReportId)
    ensures ok ==> db.observations == old(db.observations) + [obs]
    ensures ok ==> db.log == old(db.log) + [LogRow(obs.studentId, obs.username, Some(obs.id),
                                                   ReportTypeFor(old(session.scheduledChildId), obs.studentId), now)]
    ensures ok ==> session.scheduledChildId.None? && session.scheduledChildName.None? && session.lastCustomReport.None?
    ensures ok ==> session.lastReport == Some(if |report| <= LastReportLimit then report else report[..LastReportLimit])
    ensures ok ==> session.lastReportId == Some(obs.id)
    ensures ok ==> db.ProcessedToday(obs.studentId, obs.username, now)
  {
    if !db.online {
      return false;
    }
    db.observations := db.observations + [obs];
    var kind := ReportTypeFor(session.scheduledChildId, obs.studentId);
    ghost var before := db.log;
    var logged := db.LogReportProcessing(obs.studentId, obs.username, Some(obs.id), kind, now);
    ProcessedUntilMidnight(before, obs.studentId, obs.username, Some(obs.id), kind, now, now);
    session.lastCustomReport := None;
    session.scheduledChildId := None;
    session.scheduledChildName := None;
    session.lastReport := Some(if |report| <= LastReportLimit then report else report[..LastReportLimit]);
    session.lastReportId := Some(obs.id);
    ok := true;
  }

  // ---- process_file: audio checks ----

  datatype AudioVerdict =
    | BadFormat
    | TooLarge
    | UploadFailed
    | TranscriptionFailed
    | TranscriptTooShort
    | InsufficientContent
    | AudioAccepted(transcript: string, fileUrl: Option<string>)

  const AudioSuffixes: seq<string> := [".mp3", ".wav", ".m4a", ".ogg", ".flac"]
  const MaxAudioBytes: int := 25 * 1024 * 1024

  predicate AudioName(filename: string)
  {
    exists k | 0 <= k < |AudioSuffixes| :: EndsWith(Lower(filename), AudioSuffixes[k])
  }

  /**
   * The audio path's checks, in order: the file name's suffix, the size, the
   * upload, then the transcript (None when the service failed or returned
   * nothing): non-blank and without "error" in any case, at least 10
   * characters once stripped, and then more than 10 before a report is made.
   * The upload step fails only when the call itself raises (`uploadRaised`);
   * the storage helper reports its own failures by returning no URL
   * (`fileUrl` None), which this step does not look at.
   */
  function AudioCheck(filename: string, size: int, uploadRaised: bool, fileUrl: Option<string>, transcript: Option<string>): (r: AudioVerdict)
  {
    if !AudioName(filename) then BadFormat
    else if size > MaxAudioBytes then TooLarge
    else if uploadRaised then UploadFailed
    else if transcript.None? || transcript.value == "" || Strip(transcript.value) == "" || Contains(Lower(transcript.value), "error")
    then TranscriptionFailed
    else if |Strip(transcript.value)| < 10 then TranscriptTooShort
    else if |Strip(transcript.value)| > 10 then AudioAccepted(transcript.value, fileUrl)
    else InsufficientContent
  }

  /** An audio upload is accepted exactly when every check passes, and it carries the transcript and whatever URL the upload gave. */
  lemma AudioAcceptedIff(filename: string, size: int, uploadRaised: bool, fileUrl: Option<string>, transcript: Option<string>)
    ensures AudioCheck(filename, size, uploadRaised, fileUrl, transcript).AudioAccepted? <==>
      AudioName(filename) && size <= MaxAudioBytes && !uploadRaised && transcript.Some? &&
      !Contains(Lower(transcript.value), "error") && |Strip(transcript.value)| > 10
    ensures AudioCheck(filename, size, uploadRaised, fileUrl, transcript).AudioAccepted? ==>
      AudioCheck(filename, size, uploadRaised, fileUrl, transcript) == AudioAccepted(transcript.value, fileUrl)
  {
  }

  /**
   * A storage upload that failed without raising does not stop the audio
   * path: a good transcript is still accepted, with no file URL.
   */
  lemma FailedStorageStillAccepted(filename: string, size: int, t: string)
    requires AudioName(filename) && size <= MaxAudioBytes
    requires |Strip(t)| > 10 && !Contains(Lower(t), "error")
    ensures AudioCheck(filename, size, false, None, Some(t)) == AudioAccepted(t, None)
  {
  }

  /** A stripped transcript of exactly ten characters passes the length check yet makes no report. */
  lemma TenCharacterTranscript(filename: string, size: int, t: string)
    requires AudioName(filename) && size <= MaxAudioBytes
    requires |Strip(t)| == 10 && !Contains(Lower(t), "error")
    ensures AudioCheck(filename, size, false, None, Some(t)) == InsufficientContent
  {
  }

  // ---- peer_reviews: the pool of observations to review ----

  /** The number of observations the observer has authored (the review quota). */
  function OwnCount(observations: seq<Observation>, observerId: string): (n: nat)
    ensures n <= |observations|
  {
    if |observations| == 0 then 0
    else OwnCount(observations[..|observations| - 1], observerId) + (if observations[|observations| - 1].username == observerId then 1 else 0)
  }

  /** Some review, by anyone, exists for the observation. */
  predicate Reviewed(reviews: seq<PeerReview>, observationId: string)
  {
    exists k | 0 <= k < |reviews| :: reviews[k].observationId == observationId
  }

  const Day: int := 24 * 3600

  /** The store query: other authors' observations from the last 24 hours. */
  function Recent(observations: seq<Observation>, observerId: string, now: int): (r: seq<Observation>)
    ensures forall o :: o in r <==> o in observations && o.username != observerId && o.timestamp >= now - Day
  {
    if |observations| == 0 then []
    else
      var init := Recent(observations[..|observations| - 1], observerId, now);
      var last := observations[|observations| - 1];
      assert observations == observations[..|observations| - 1] + [last];
      if last.username != observerId && last.timestamp >= now - Day then
        var r := init + [last];
        assert forall k | 0 <= k < |init| :: r[k] == init[k] && init[k] in init;
        r
      else init
  }

  /** The sort key of the pool: newest first. */
  function Timestamp(o: Observation): int
  {
    o.timestamp
  }

  /** Drop the observations that have any review. */
  function Unreviewed(candidates: seq<Observation>, reviews: seq<PeerReview>): (r: seq<Observation>)
    ensures forall o :: o in r <==> o in candidates && !Reviewed(reviews, o.id)
    ensures SortedDesc(candidates, Timestamp) ==> SortedDesc(r, Timestamp)
  {
    if |candidates| == 0 then []
    else
      var rest := Unreviewed(candidates[1..], reviews);
      assert candidates == [candidates[0]] + candidates[1..];
      if Reviewed(reviews, candidates[0].id) then rest
      else
        var r := [candidates[0]] + rest;
        assert forall k | 0 <= k < |rest| :: rest[k] in candidates[1..];
        r
  }

  /** Filtering a candidate list is filtering each part: the unreviewed candidates keep their order. */
  lemma {:induction false} UnreviewedConcat(a: seq<Observation>, b: seq<Observation>, reviews: seq<PeerReview>)
    ensures Unreviewed(a + b, reviews) == Unreviewed(a, reviews) + Unreviewed(b, reviews)
  {
    if |a| == 0 {
      assert a + b == b;
    } else {
      assert (a + b)[0] == a[0];
      assert (a + b)[1..] == a[1..] + b;
      UnreviewedConcat(a[1..], b, reviews);
    }
  }

  /** The eligible observations, newest first. */
  function Eligible(observations: seq<Observation>, reviews: seq<PeerReview>, observerId: string, now: int): seq<Observation>
  {
    Unreviewed(SortDesc(Recent(observations, observerId, now), Timestamp), reviews)
  }

  /** The first n elements, or all of them. */
  function Take<T>(s: seq<T>, n: int): (r: seq<T>)
    ensures |r| == if n <= 0 then 0 else if n <= |s| then n else |s|
    ensures r == s[..|r|]
  {
    if n <= 0 then [] else if n <= |s| then s[..n] else s
  }

  /**
   * What the pool promises: at most the quota; nothing authored by the
   * requester, older than 24 hours or reviewed by anyone; newest first; and
   * it is the quota-length prefix of ALL eligible observations, so an
   * eligible observation is left out only when the quota is used up.
   */
  lemma {:induction false} PoolProperties(observations: seq<Observation>, reviews: seq<PeerReview>, observerId: string, now: int, quota: nat)
    ensures var pool := Take(Eligible(observations, reviews, observerId, now), quota);
      |pool| <= quota &&
      (forall k :: 0 <= k < |pool| ==>
        pool[k] in observations && pool[k].username != observerId &&
        pool[k].timestamp >= now - Day && !Reviewed(reviews, pool[k].id)) &&
      (forall i, j :: 0 <= i < j < |pool| ==> pool[i].timestamp >= pool[j].timestamp) &&
      (forall o :: o in observations && o.username != observerId && o.timestamp >= now - Day && !Reviewed(reviews, o.id) ==>
        o in Eligible(observations, reviews, observerId, now)) &&
      (|Eligible(observations, reviews, observerId, now)| >= quota ==> |pool| == quota)
  {
    var key := Timestamp;
    var recent := Recent(observations, observerId, now);
    var sorted := SortDesc(recent, key);
    var el := Eligible(observations, reviews, observerId, now);
    var pool := Take(el, quota);
    assert SortedDesc(el, key);
    forall o | o in observations && o.username != observerId && o.timestamp >= now - Day && !Reviewed(reviews, o.id)
      ensures o in el
    {
      assert o in recent;
      assert o in multiset(sorted);
    }
    forall k | 0 <= k < |pool| ensures pool[k] in observations && pool[k].username != observerId &&
      pool[k].timestamp >= now - Day && !Reviewed(reviews, pool[k].id)
    {
      assert pool[k] == el[k] && el[k] in el;
      assert pool[k] in sorted;
      assert pool[k] in multiset(recent);
    }
    forall i, j | 0 <= i < j < |pool| ensures pool[i].timestamp >= pool[j].timestamp {
      assert key(el[i]) >= key(el[j]);
    }
  }

  /** The list entries of a run of observations, in order. */
  function ReviewItems(s: seq<Observation>): (r: seq<ReviewItem>)
    ensures |r| == |s|
  {
    if |s| == 0 then [] else ReviewItems(s[..|s| - 1]) + [ToReviewItem(s[|s| - 1])]
  }

  /** Each entry is built from the observation at its position. */
  lemma {:induction false} ReviewItemsAt(s: seq<Observation>, k: int)
    requires 0 <= k < |s|
    ensures ReviewItems(s)[k] == ToReviewItem(s[k])
  {
    if k < |s| - 1 {
      ReviewItemsAt(s[..|s| - 1], k);
    }
  }

  /** Cutting the entries to the quota cuts the observations to it. */
  lemma ReviewItemsTake(s: seq<Observation>, n: int)
    ensures |Take(ReviewItems(s), n)| == |Take(s, n)|
    ensures forall k :: 0 <= k < |Take(s, n)| ==> Take(ReviewItems(s), n)[k] == ToReviewItem(Take(s, n)[k])
  {
    forall k | 0 <= k < |Take(s, n)| ensures Take(ReviewItems(s), n)[k] == ToReviewItem(Take(s, n)[k]) {
      ReviewItemsAt(s, k);
    }
  }

  /**
   * peer_reviews: the quota is the requester's authored count; the
   * eligible observations are turned into list entries one by one and the
   * list is cut to the quota. A store error shows empty lists and quota 0.
   */
  method PeerReviewPool(db: Db, observerId: string, now: int) returns (pending: seq<ReviewItem>, quota: nat)
    ensures !db.online ==> pending == [] && quota == 0
    ensures db.online ==> quota == OwnCount(db.observations, observerId)
    ensures db.online ==>
      pending == Take(ReviewItems(Eligible(db.observations, db.reviews, observerId, now)), quota)
  {
    if !db.online {
      return [], 0;
    }
    quota := OwnCount(db.observations, observerId);
    var unreviewed := Eligible(db.observations, db.reviews, observerId, now);
    var processed: seq<ReviewItem> := [];
    var i := 0;
    while i < |unreviewed|
      invariant 0 <= i <= |unreviewed|
      invariant processed == ReviewItems(unreviewed[..i])
    {
      assert unreviewed[..i + 1][..i] == unreviewed[..i];
      processed := processed + [ToReviewItem(unreviewed[i])];
      i := i + 1;
    }
    assert unreviewed[..i] == unreviewed;
    pending := Take(processed, quota);
  }

  // ---- review_observation: the gate in front of the review form ----

  /** The reviewer already has a review of the observation. */
  predicate ReviewedBy(reviews: seq<PeerReview>, observationId: string, reviewerId: string)
  {
    exists k | 0 <= k < |reviews| :: reviews[k].observationId == observationId && reviews[k].reviewerId == reviewerId
  }

  datatype Gate = GateError | GateNotFound | GateOwn | GateAlreadyReviewed | GateShow(observation: Observation, formattedReport: Option<string>)

  /** The report the review page shows: whatever `formatted_report` holds when the JSON parses. */
  function ReviewPageReport(fullData: FullData): Option<string>
  {
    match fullData
    case Parsed(report) => report
    case _ => None
  }

  /** review_observation: a missing observation, one's own, or one reviewed before is refused. */
  function ReviewGate(online: bool, observations: seq<Observation>, reviews: seq<PeerReview>, reviewerId: string, observationId: string): (g: Gate)
    ensures !online ==> g == GateError
    ensures online ==>
      match FindObservation(observations, observationId)
      case None => g == GateNotFound
      case Some(o) =>
        if o.username == reviewerId then g == GateOwn
        else if ReviewedBy(reviews, observationId, reviewerId) then g == GateAlreadyReviewed
        else g == GateShow(o, ReviewPageReport(o.fullData))
  {
    if !online then GateError
    else
      match FindObservation(observations, observationId)
      case None => GateNotFound
      case Some(o) =>
        if o.username == reviewerId then GateOwn
        else if ReviewedBy(reviews, observationId, reviewerId) then GateAlreadyReviewed
        else GateShow(o, ReviewPageReport(o.fullData))
  }

  /** A shown review form is never for one's own observation nor for one reviewed before, and every such observation is shown. */
  lemma GateShowIff(online: bool, observations: seq<Observation>, reviews: seq<PeerReview>, reviewerId: string, observationId: string)
    ensures ReviewGate(online, observations, reviews, reviewerId, observationId).GateShow? <==>
      online && FindObservation(observations, observationId).Some? &&
      FindObservation(observations, observationId).value.username != reviewerId &&
      !ReviewedBy(reviews, observationId, reviewerId)
  {
  }

  // ---- submit_peer_review_route and the principal's notification ----

  /** What submission decides before the insert: refuse, or the row to insert and the observed author's organisation. */
  datatype SubmitPlan = Refuse(reason: SubmitOutcome) | InsertReview(row: PeerReview, observedOrg: Option<string>)

  datatype SubmitOutcome = SubmitMissingFields | SubmitNotFound | Submitted | SubmitFailed

  /**
   * The checks of submit_peer_review_route: score and comments must be
   * given and the observation must exist; a score that is not an integer
   * fails. Nothing checks the author or an earlier review.
   */
  function SubmitDecision(online: bool, observations: seq<Observation>, users: seq<User>, reviewerId: string, observationId: string,
                          score: Option<string>, comments: Option<string>, improvements: Option<string>, requiresChanges: bool,
                          reviewId: string, now: int): (p: SubmitPlan)
    ensures !Given(score) || !Given(comments) ==> p == Refuse(SubmitMissingFields)
    ensures Given(score) && Given(comments) && online && FindObservation(observations, observationId).None? ==> p == Refuse(SubmitNotFound)
    ensures p.InsertReview? ==>
      online && Given(score) && Given(comments) && FindObservation(observations, observationId).Some? &&
      ParseInt(score.value) == Some(p.row.reviewScore) &&
      p.row.observationId == observationId && p.row.reviewerId == reviewerId &&
      p.row.observedBy == FindObservation(observations, observationId).value.username &&
      p.row.reviewComments == comments.value && p.row.suggestedImprovements == improvements.GetOr("") &&
      p.row.requiresChanges == requiresChanges && p.row.createdAt == now
    ensures p.InsertReview? <==>
      Given(score) && Given(comments) && online && FindObservation(observations, observationId).Some? && ParseInt(score.value).Some?
    ensures p.InsertReview? ==>
      p.observedOrg == (match FindUser(users, p.row.observedBy) case Some(u) => u.organizationId case None => None)
  {
    if !Given(score) || !Given(comments) then Refuse(SubmitMissingFields)
    else if !online then Refuse(SubmitFailed)
    else
      match FindObservation(observations, observationId)
      case None => Refuse(SubmitNotFound)
      case Some(o) =>
        var org := match FindUser(users, o.username) case Some(u) => u.organizationId case None => None;
        match ParseInt(score.value)
        case None => Refuse(SubmitFailed)
        case Some(n) =>
          InsertReview(PeerReview(reviewId, observationId, reviewerId, o.username, n, comments.value,
                                  improvements.GetOr(""), requiresChanges, now), org)
  }

  /** Submission does not re-check authorship: a direct request on one's own observation yields a self-review row. */
  lemma SubmitAllowsSelfReview(observations: seq<Observation>, users: seq<User>, reviewerId: string, observationId: string,
                               score: string, comments: string, reviewId: string, now: int)
    requires FindObservation(observations, observationId).Some?
    requires FindObservation(observations, observationId).value.username == reviewerId
    requires comments != "" && ParseInt(score).Some?
    ensures var p := SubmitDecision(true, observations, users, reviewerId, observationId, Some(score), Some(comments), None, false, reviewId, now);
      p.InsertReview? && p.row.reviewerId == p.row.observedBy
  {
    assert score != "";
  }

  /** The number of reviews by the reviewer of the observation. */
  function CountReviewsBy(reviews: seq<PeerReview>, observationId: string, reviewerId: string): nat
  {
    if |reviews| == 0 then 0
    else CountReviewsBy(reviews[..|reviews| - 1], observationId, reviewerId) +
         (if reviews[|reviews| - 1].observationId == observationId && reviews[|reviews| - 1].reviewerId == reviewerId then 1 else 0)
  }

  lemma {:induction false} NotReviewedCountsZero(reviews: seq<PeerReview>, observationId: string, reviewerId: string)
    requires !ReviewedBy(reviews, observationId, reviewerId)
    ensures CountReviewsBy(reviews, observationId, reviewerId) == 0
  {
    if |reviews| > 0 {
      var init := reviews[..|reviews| - 1];
      forall k | 0 <= k < |init| ensures !(init[k].observationId == observationId && init[k].reviewerId == reviewerId) {
        assert init[k] == reviews[k];
      }
      NotReviewedCountsZero(init, observationId, reviewerId);
    }
  }

  /**
   * Through the review page, a reviewer ends with exactly one review of an
   * observation: the gate showed the form, so there was none, and the
   * submission appends one.
   */
  lemma GateThenSubmitLeavesOneReview(observations: seq<Observation>, users: seq<User>, reviews: seq<PeerReview>,
                                      reviewerId: string, observationId: string, score: Option<string>, comments: Option<string>,
                                      improvements: Option<string>, requiresChanges: bool, reviewId: string, now: int)
    requires ReviewGate(true, observations, reviews, reviewerId, observationId).GateShow?
    requires SubmitDecision(true, observations, users, reviewerId, observationId, score, comments, improvements, requiresChanges, reviewId, now).InsertReview?
    ensures var row := SubmitDecision(true, observations, users, reviewerId, observationId, score, comments, improvements, requiresChanges, reviewId, now).row;
      CountReviewsBy(reviews + [row], observationId, reviewerId) == 1 && row.reviewerId != row.observedBy
  {
    var row := SubmitDecision(true, observations, users, reviewerId, observationId, score, comments, improvements, requiresChanges, reviewId, now).row;
    NotReviewedCountsZero(reviews, observationId, reviewerId);
    assert (reviews + [row])[..|reviews|] == reviews;
  }

  /** The first Principal of the organisation. */
  function FirstPrincipal(users: seq<User>, org: string): (r: Option<User>)
    ensures r.Some? ==> r.value in users && r.value.role == "Principal" && r.value.organizationId == Some(org)
    ensures r.None? <==> forall k :: 0 <= k < |users| ==> !(users[k].role == "Principal" && users[k].organizationId == Some(org))
  {
    if |users| == 0 then None
    else if users[0].role == "Principal" && users[0].organizationId == Some(org) then Some(users[0])
    else
      var r := FirstPrincipal(users[1..], org);
      assert forall k :: 1 <= k < |users| ==> users[k] == users[1..][k - 1];
      r
  }

  /** A user's name, or the fallback when the row is missing. */
  function NameOr(users: seq<User>, id: string, fallback: string): string
  {
    match FindUser(users, id)
    case Some(u) => u.name
    case None => fallback
  }

  /**
   * The notification for a stored review: addressed to the first Principal
   * of the observed author's organisation, sent by the reviewer, of type
   * 'peer_review', unread. No principal means no notification.
   */
  function PeerReviewNotification(users: seq<User>, org: string, review: PeerReview, notificationId: string, now: int): Option<Notification>
  {
    match FirstPrincipal(users, org)
    case None => None
    case Some(p) =>
      var reviewerName := NameOr(users, review.reviewerId, "Unknown Reviewer");
      var observedName := NameOr(users, review.observedBy, "Unknown Observer");
      var message := "A peer review has been submitted by " + reviewerName + " for " + observedName +
                     "'s observation. Review Score: " + IntToString(review.reviewScore) + "/5";
      Some(Notification(notificationId, p.id, review.reviewerId, "peer_review", "Peer Review Received", message,
                        NotificationData(review.observationId, review.reviewerId, reviewerName, review.observedBy,
                                         observedName, review.reviewScore, review.requiresChanges, review.reviewComments),
                        false, now))
  }

  /**
   * A notification is built exactly when the organisation has a principal;
   * it goes to that principal, from the reviewer, unread, and carries the
   * review's observation, score and both names.
   */
  lemma PeerReviewNotificationMeaning(users: seq<User>, org: string, review: PeerReview, notificationId: string, now: int)
    ensures var r := PeerReviewNotification(users, org, review, notificationId, now);
      (r.Some? <==> FirstPrincipal(users, org).Some?) &&
      (r.Some? ==>
        r.value.recipientId == FirstPrincipal(users, org).value.id && r.value.senderId == review.reviewerId &&
        r.value.kind == "peer_review" && r.value.title == "Peer Review Received" && !r.value.read &&
        r.value.data.observationId == review.observationId && r.value.data.reviewScore == review.reviewScore &&
        r.value.data.reviewerName == NameOr(users, review.reviewerId, "Unknown Reviewer") &&
        r.value.data.observedUserName == NameOr(users, review.observedBy, "Unknown Observer"))
  {
  }

  /**
   * submit_peer_review_route: insert the planned row; the insert succeeded
   * when the store answered 201. Only then, and only when the observed
   * author has an organisation, is the principal notified; a failed
   * notification insert is swallowed. Observations are not touched, so
   * `peer_reviews_completed` keeps its initial value.
   */
  method SubmitPeerReview(db: Db, reviewerId: string, observationId: string, score: Option<string>, comments: Option<string>,
                          improvements: Option<string>, requiresChanges: bool, reviewId: string, insertStatus: int,
                          notificationId: string, notificationStored: bool, now: int)
    returns (out: SubmitOutcome)
    modifies db`reviews, db`notifications
    ensures var plan := SubmitDecision(old(db.online), db.observations, db.users, reviewerId, observationId, score, comments,
                                       improvements, requiresChanges, reviewId, now);
      (plan.Refuse? ==> out == plan.reason && db.reviews == old(db.reviews) && db.notifications == old(db.notifications)) &&
      (plan.InsertReview? ==>
        (out == Submitted <==> insertStatus == 201) && (out == Submitted || out == SubmitFailed) &&
        db.reviews == (if insertStatus == 201 then old(db.reviews) + [plan.row] else old(db.reviews)) &&
        db.notifications ==
          (if insertStatus == 201 && Given(plan.observedOrg) && notificationStored &&
              PeerReviewNotification(db.users, plan.observedOrg.value, plan.row, notificationId, now).Some?
           then old(db.notifications) + [PeerReviewNotification(db.users, plan.observedOrg.value, plan.row, notificationId, now).value]
           else old(db.notifications)))
  {
    var plan := SubmitDecision(db.online, db.observations, db.users, reviewerId, observationId, score, comments,
                               improvements, requiresChanges, reviewId, now);
    if plan.Refuse? {
      return plan.reason;
    }
    if insertStatus != 201 {
      return SubmitFailed;
    }
    db.reviews := db.reviews + [plan.row];
    if Given(plan.observedOrg) {
      NotifyPrincipal(db, plan.observedOrg.value, plan.row, notificationId, notificationStored, now);
    }
    out := Submitted;
  }

  /** send_peer_review_notification_to_principal. */
  method NotifyPrincipal(db: Db, org: string, review: PeerReview, notificationId: string, stored: bool, now: int)
    modifies db`notifications
    ensures db.notifications ==
      if stored && PeerReviewNotification(db.users, org, review, notificationId, now).Some?
      then old(db.notifications) + [PeerReviewNotification(db.users, org, review, notificationId, now).value]
      else old(db.notifications)
  {
    var n := PeerReviewNotification(db.users, org, review, notificationId, now);
    if n.Some? && stored {
      db.notifications := db.notifications + [n.value];
    }
  }

  // ---- apply ----

  datatype ApplyVerdict =
    | ApplyMissingFields
    | ApplyNotANumber
    | ApplyNegativeYears
    | ApplyValid(name: string, email: string, phone: string, qualifications: string, years: int, motivation: string, org: string)

  /**
   * The application form's checks: every field but the phone must be
   * non-empty (after stripping, except the years and organisation, which
   * are not stripped), the years must parse as an integer and be at least
   * zero. The e-mail is stripped and lower-cased.
   */
  function ValidateApplication(name: string, email: string, phone: string, qualifications: string, years: string,
                               motivation: string, org: string): (v: ApplyVerdict)
    ensures v.ApplyValid? <==>
      Strip(name) != "" && Strip(email) != "" && Strip(qualifications) != "" && years != "" &&
      Strip(motivation) != "" && org != "" && ParseInt(years).Some? && ParseInt(years).value >= 0
    ensures v.ApplyValid? ==>
      v.name == Strip(name) && v.email == Lower(Strip(email)) && v.phone == Strip(phone) &&
      v.qualifications == Strip(qualifications) && v.motivation == Strip(motivation) && v.org == org &&
      Some(v.years) == ParseInt(years) && v.years >= 0 && v.name != "" && v.email != ""
    ensures v == ApplyNegativeYears <==> (Strip(name) != "" && Strip(email) != "" && Strip(qualifications) != "" && years != "" &&
      Strip(motivation) != "" && org != "" && ParseInt(years).Some? && ParseInt(years).value < 0)
  {
    var n := Strip(name);
    var e := Lower(Strip(email));
    var q := Strip(qualifications);
    var m := Strip(motivation);
    if n == "" || e == "" || q == "" || years == "" || m == "" || org == "" then ApplyMissingFields
    else
      match ParseInt(years)
      case None => ApplyNotANumber
      case Some(y) => if y < 0 then ApplyNegativeYears else ApplyValid(n, e, Strip(phone), q, y, m, org)
  }

  /** apply: store a valid application as pending; it was stored when the insert answered 201. */
  method Apply(db: Db, name: string, email: string, phone: string, qualifications: string, years: string,
               motivation: string, org: string, id: string, insertStatus: int, now: int)
    returns (ok: bool)
    modifies db`applications
    ensures var v := ValidateApplication(name, email, phone, qualifications, years, motivation, org);
      (ok <==> v.ApplyValid? && db.online && insertStatus == 201) &&
      db.applications ==
        if ok then old(db.applications) + [Application(id, v.name, v.email, v.phone, v.qualifications, v.years, v.motivation, v.org, "pending", now)]
        else old(db.applications)
  {
    var v := ValidateApplication(name, email, phone, qualifications, years, motivation, org);
    if !v.ApplyValid? || !db.online || insertStatus != 201 {
      return false;
    }
    db.applications := db.applications + [Application(id, v.name, v.email, v.phone, v.qualifications, v.years, v.motivation, v.org, "pending", now)];
    ok := true;
  }
}
