/**
 * How an observation row is turned into an entry of a review or dashboard
 * list: the media kind guessed from its file URL and the formatted report
 * taken from its stored JSON.
 */
module Listing {
  import opened Wrappers
  import opened Text
  import opened Tables

  datatype FileKind = Audio | Image

  predicate AnyIn(s: string, exts: seq<string>)
  {
    exists k | 0 <= k < |exts| :: Contains(s, exts[k])
  }

  const AudioExtensions: seq<string> := [".mp3", ".wav", ".m4a", ".ogg"]
  const ImageExtensions: seq<string> := [".jpg", ".jpeg", ".png", ".gif", ".bmp"]

  /**
   * The media kind of a stored file: audio when the lower-cased URL contains
   * an audio extension anywhere, otherwise image when it contains an image
   * extension, otherwise unknown; no URL gives unknown.
   */
  function FileTypeOf(fileUrl: Option<string>): (r: Option<FileKind>)
    ensures fileUrl.None? ==> r.None?
    ensures fileUrl.Some? ==>
      (r == Some(Audio) <==> AnyIn(Lower(fileUrl.value), AudioExtensions)) &&
      (r == Some(Image) <==> !AnyIn(Lower(fileUrl.value), AudioExtensions) && AnyIn(Lower(fileUrl.value), ImageExtensions))
  {
    match fileUrl
    case None => None
    case Some(url) =>
      var u := Lower(url);
      if AnyIn(u, AudioExtensions) then Some(Audio)
      else if AnyIn(u, ImageExtensions) then Some(Image)
      else None
  }

  /** The test looks anywhere in the URL, so a directory named like an extension decides the kind too. */
  lemma FileTypeLooksAnywhere()
    ensures FileTypeOf(Some("https://host/x.mp3s/photo.png")) == Some(Audio)
  {
    var u := Lower("https://host/x.mp3s/photo.png");
    assert u[14..18] == ".mp3";
    assert OccursAt(u, AudioExtensions[0], 14);
  }

  /**
   * The formatted report shown beside an observation: present only when the
   * stored JSON parses and its `formatted_report` member is a non-empty text.
   */
  function FormattedReportOf(fullData: FullData): (r: Option<string>)
    ensures r.Some? <==> fullData.Parsed? && fullData.formattedReport.Some? && fullData.formattedReport.value != ""
    ensures r.Some? ==> r == fullData.formattedReport
  {
    match fullData
    case Parsed(Some(report)) => if report != "" then Some(report) else None
    case _ => None
  }

  /** One entry of a pending-review list. */
  datatype ReviewItem = ReviewItem(
    id: string,
    studentName: string,
    observerName: string,
    date: string,
    timestamp: int,
    filename: string,
    fileUrl: Option<string>,
    processedByAdmin: bool,
    hasFormattedReport: bool,
    formattedReport: Option<string>,
    fileType: Option<FileKind>)

  /** The entry built for an observation row. */
  function ToReviewItem(obs: Observation): (item: ReviewItem)
    ensures item.id == obs.id && item.timestamp == obs.timestamp
    ensures item.hasFormattedReport <==> item.formattedReport.Some?
    ensures item.formattedReport == FormattedReportOf(obs.fullData)
    ensures item.fileType == FileTypeOf(obs.fileUrl)
  {
    var report := FormattedReportOf(obs.fullData);
    ReviewItem(obs.id, obs.studentName, obs.observerName, obs.date, obs.timestamp, obs.filename,
               obs.fileUrl, obs.processedByAdmin, report.Some?, report, FileTypeOf(obs.fileUrl))
  }
}
