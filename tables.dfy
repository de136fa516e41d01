/**
 * The rows of the store's tables, as the routes and the scheduler read and
 * write them. Identifiers are strings; a missing or NULL column is None;
 * timestamps are local wall-clock seconds (see module Clock).
 */
module Tables {
  import opened Wrappers

  /** A row of `scheduled_reports`: one recurring daily time per (observer, child). */
  datatype ScheduledReport = ScheduledReport(
    observerId: string,
    childId: string,
    scheduledTime: string,
    isActive: bool,
    updatedAt: Option<int>)

  datatype ReportType = Scheduled | Manual

  /** A row of the append-only `report_processing_log`. */
  datatype LogEntry = LogEntry(
    childId: string,
    observerId: string,
    observationId: Option<string>,
    reportType: ReportType,
    processedAt: int)

  /** A row of `users`; `role` is one of "Admin", "Principal", "Observer", "Parent". */
  datatype User = User(
    id: string,
    name: string,
    email: string,
    password: string,
    role: string,
    organizationId: Option<string>,
    childId: Option<string>)

  /** A row of `children`. */
  datatype Child = Child(
    id: string,
    name: string,
    birthDate: Option<string>,
    grade: Option<string>,
    organizationId: Option<string>)

  /** A row of `observer_child_mappings`. */
  datatype ObserverChildMapping = ObserverChildMapping(id: string, observerId: string, childId: string)

  /** The peer-review bookkeeping columns an observer-produced observation starts with. */
  datatype PeerFields = PeerFields(required: int, completed: int, status: string)

  /**
   * The `full_data` column as the review screens read it: absent, text that
   * does not parse as JSON, or a parsed object whose `formatted_report`
   * member may be missing.
   */
  datatype FullData = NoFullData | Unparseable | Parsed(formattedReport: Option<string>)

  /** A row of `observations`; `username` holds the authoring observer's id. */
  datatype Observation = Observation(
    id: string,
    studentId: string,
    username: string,
    studentName: string,
    observerName: string,
    date: string,
    timestamp: int,
    filename: string,
    fileUrl: Option<string>,
    fullData: FullData,
    themeOfDay: string,
    curiositySeed: string,
    peer: Option<PeerFields>,
    processedByAdmin: bool)

  /** A row of `peer_reviews`. */
  datatype PeerReview = PeerReview(
    id: string,
    observationId: string,
    reviewerId: string,
    observedBy: string,
    reviewScore: int,
    reviewComments: string,
    suggestedImprovements: string,
    requiresChanges: bool,
    createdAt: int)

  /** The structured payload of a peer-review notification. */
  datatype NotificationData = NotificationData(
    observationId: string,
    reviewerId: string,
    reviewerName: string,
    observedBy: string,
    observedUserName: string,
    reviewScore: int,
    requiresChanges: bool,
    reviewComments: string)

  /** A row of `notifications`. */
  datatype Notification = Notification(
    id: string,
    recipientId: string,
    senderId: string,
    kind: string,
    title: string,
    message: string,
    data: NotificationData,
    read: bool,
    createdAt: int)

  /** A row of `observer_applications`. */
  datatype Application = Application(
    id: string,
    applicantName: string,
    applicantEmail: string,
    applicantPhone: string,
    qualifications: string,
    experienceYears: int,
    motivationText: string,
    organizationId: string,
    status: string,
    appliedAt: int)
}
