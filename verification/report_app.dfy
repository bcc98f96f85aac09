/** The report remote application's page (apps/report app.component.ts):
    the generation form and the request it builds, the report list's paging,
    and the download file name. */
module ReportApp {
  import opened Wrappers
  import Text
  import Pagination

  const UserActivity: string := "user_activity"
  const SystemPerformance: string := "system_performance"
  const AuditLog: string := "audit_log"
  const Custom: string := "custom"

  const IncludeInactiveKey: string := "include_inactive"
  const DetailedMetricsKey: string := "detailed_metrics"
  const LogLevelKey: string := "log_level"
  const FormatKey: string := "format"

  const Completed: string := "completed"
  const DefaultFormat: string := "csv"
  const Extensions: set<string> := {"csv", "json", "pdf", "xlsx"}

  const PageSize: nat := 10
  const LoadFailedMessage: string := "Failed to load reports"

  /** The generation form's controls; `None` is a control holding `null`. */
  datatype ReportForm = ReportForm(title: Option<string>, reportType: Option<string>,
                                   format: Option<string>, startDate: Option<string>,
                                   endDate: Option<string>, includeInactive: Option<bool>,
                                   detailedMetrics: Option<bool>, logLevel: Option<string>)

  /** A value of the `parameters` record: a check box or a text field. */
  datatype Param = Flag(checked: Option<bool>) | Text(text: string)

  datatype DateRange = DateRange(startDate: string, endDate: string)

  datatype GenerateRequest = GenerateRequest(title: string, reportType: string, format: string,
                                             parameters: map<string, Param>,
                                             dateRange: Option<DateRange>)

  /** A report as the list endpoint returns it; its `parameters` record is
      reduced to its text values. */
  datatype Report = Report(id: string, title: string, status: string,
                           parameters: map<string, string>)

  datatype Download = Download(reportId: string, format: string, filename: string)

  datatype State = State(isLoading: bool, error: string, isGenerating: bool,
                         reports: seq<Report>, totalReports: nat, currentPage: int,
                         totalPages: nat, showReportModal: bool, selected: Option<Report>,
                         form: ReportForm)

  predicate Truthy(v: Option<string>) {
    v.Some? && v.value != ""
  }

  /** `createReportForm`. */
  const NewForm: ReportForm :=
    ReportForm(Some(""), Some(""), Some(""), Some(""), Some(""), Some(false), Some(false), Some(""))

  /** Title, type and format are required; the rest are optional. */
  predicate FormValid(f: ReportForm) {
    Truthy(f.title) && Truthy(f.reportType) && Truthy(f.format)
  }

  /** `buildParameters`: one entry chosen by the report type; an audit log
      carries its level only when one was picked. */
  function BuildParameters(f: ReportForm): (r: map<string, Param>)
    ensures f.reportType == Some(UserActivity) ==>
              r == map[IncludeInactiveKey := Flag(f.includeInactive)]
    ensures f.reportType == Some(SystemPerformance) ==>
              r == map[DetailedMetricsKey := Flag(f.detailedMetrics)]
    ensures f.reportType == Some(AuditLog) && Truthy(f.logLevel) ==>
              r == map[LogLevelKey := Text(f.logLevel.value)]
    ensures f.reportType == Some(AuditLog) && !Truthy(f.logLevel) ==> r == map[]
    ensures f.reportType !in {Some(UserActivity), Some(SystemPerformance), Some(AuditLog)} ==>
              r == map[]
  {
    if f.reportType == Some(UserActivity) then
      map[IncludeInactiveKey := Flag(f.includeInactive)]
    else if f.reportType == Some(SystemPerformance) then
      map[DetailedMetricsKey := Flag(f.detailedMetrics)]
    else if f.reportType == Some(AuditLog) then
      if Truthy(f.logLevel) then map[LogLevelKey := Text(f.logLevel.value)] else map[]
    else map[]
  }

  /** The keys of the parameter record are decided by the type alone (and,
      for an audit log, by whether a level was picked): at most one key, and
      the same key for every form of that type. */
  lemma ParameterKeysFollowType(f: ReportForm, g: ReportForm)
    requires f.reportType == g.reportType
    requires f.reportType == Some(AuditLog) ==> (Truthy(f.logLevel) <==> Truthy(g.logLevel))
    ensures BuildParameters(f).Keys == BuildParameters(g).Keys
    ensures |BuildParameters(f).Keys| <= 1
    ensures BuildParameters(f).Keys <= {IncludeInactiveKey, DetailedMetricsKey, LogLevelKey}
  {
  }

  /** `buildDateRange`: a range exactly when both dates are filled in,
      holding them unchanged. */
  function BuildDateRange(f: ReportForm): (r: Option<DateRange>)
    ensures r.Some? <==> Truthy(f.startDate) && Truthy(f.endDate)
    ensures r.Some? ==> r.value.startDate == f.startDate.value && r.value.endDate == f.endDate.value
  {
    if Truthy(f.startDate) && Truthy(f.endDate) then
      Some(DateRange(f.startDate.value, f.endDate.value))
    else None
  }

  /** `generateReport`: nothing for an invalid form; otherwise generating is
      on and the request carries the form's fields, parameters and range. */
  function GenerateReport(s: State): (r: (State, Option<GenerateRequest>))
    ensures r.1.Some? <==> FormValid(s.form)
    ensures r.1.None? ==> r.0 == s
    ensures r.1.Some? ==>
              && r.0 == s.(isGenerating := true)
              && r.1.value.title == s.form.title.value
              && r.1.value.reportType == s.form.reportType.value
              && r.1.value.format == s.form.format.value
              && r.1.value.parameters == BuildParameters(s.form)
              && r.1.value.dateRange == BuildDateRange(s.form)
  {
    if !FormValid(s.form) then (s, None)
    else
      var f := s.form;
      (s.(isGenerating := true),
       Some(GenerateRequest(f.title.value, f.reportType.value, f.format.value,
                            BuildParameters(f), BuildDateRange(f))))
  }

  /** `resetForm`: every control `null`, then the two check boxes off and
      the level empty. */
  function ResetForm(): (f: ReportForm)
    ensures !FormValid(f)
    ensures f.includeInactive == Some(false) && f.detailedMetrics == Some(false)
    ensures f.logLevel == Some("") && f.startDate.None? && f.endDate.None?
  {
    ReportForm(None, None, None, None, None, Some(false), Some(false), Some(""))
  }

  /** The reply to a generation: on success the list reloads and the form is
      reset; on failure only generating ends. */
  function OnGenerated(s: State, ok: bool): (r: State)
    ensures !r.isGenerating
    ensures ok ==> r.form == ResetForm() && r.isLoading && r.error == ""
    ensures !ok ==> r == s.(isGenerating := false)
  {
    if ok then s.(isGenerating := false, isLoading := true, error := "", form := ResetForm())
    else s.(isGenerating := false)
  }

  // ---------------------------------------------------------------------
  // Report list
  // ---------------------------------------------------------------------

  /** `totalPages` is the total divided by the page size, rounded up. */
  function TotalPages(total: nat): (r: nat)
    ensures total <= r * PageSize
    ensures r > 0 ==> (r - 1) * PageSize < total
  {
    Pagination.CeilDiv(total, PageSize)
  }

  datatype ListReply = Listed(items: seq<Report>, total: nat) | ListFailed

  /** `loadReports` once its reply is in. */
  function OnReportsLoaded(s: State, reply: ListReply): (r: State)
    ensures !r.isLoading
    ensures reply.Listed? ==> r.reports == reply.items && r.totalReports == reply.total
                              && r.totalPages == TotalPages(reply.total)
    ensures reply.ListFailed? ==> r.error == LoadFailedMessage && r.reports == s.reports
    ensures r.currentPage == s.currentPage
  {
    match reply
    case Listed(items, total) =>
      s.(reports := items, totalReports := total, totalPages := TotalPages(total), isLoading := false)
    case ListFailed => s.(error := LoadFailedMessage, isLoading := false)
  }

  /** `previousPage` and `nextPage`: the new page and whether the list is
      reloaded. */
  function PreviousPage(s: State): (r: (State, bool))
    ensures s.currentPage >= 1 ==> r.0.currentPage >= 1
    ensures r.1 <==> s.currentPage > 1
    ensures r.1 ==> r.0.currentPage == s.currentPage - 1 && r.0.isLoading
    ensures !r.1 ==> r.0 == s
  {
    var (page, moved) := Pagination.PreviousPage(s.currentPage);
    if moved then (s.(currentPage := page, isLoading := true, error := ""), true) else (s, false)
  }

  function NextPage(s: State): (r: (State, bool))
    ensures r.1 <==> s.currentPage < s.totalPages
    ensures r.1 ==> r.0.currentPage == s.currentPage + 1 <= s.totalPages && r.0.isLoading
    ensures !r.1 ==> r.0 == s
  {
    var (page, moved) := Pagination.NextPage(s.currentPage, s.totalPages);
    if moved then (s.(currentPage := page, isLoading := true, error := ""), true) else (s, false)
  }

  /** After any listed reply, paging either way from a page in range stays
      between page 1 and the last page, and every page it reaches holds an
      item. */
  lemma PagingStaysWithinReports(s: State, items: seq<Report>, total: nat)
    requires 1 <= s.currentPage
    requires OnReportsLoaded(s, Listed(items, total)).currentPage <= TotalPages(total)
    ensures var loaded := OnReportsLoaded(s, Listed(items, total));
            var next := NextPage(loaded);
            1 <= next.0.currentPage <= TotalPages(total)
            && (next.0.currentPage - 1) * PageSize < total
    ensures var loaded := OnReportsLoaded(s, Listed(items, total));
            var prev := PreviousPage(loaded);
            1 <= prev.0.currentPage <= TotalPages(total)
            && (prev.0.currentPage - 1) * PageSize < total
  {
    var loaded := OnReportsLoaded(s, Listed(items, total));
    var n := NextPage(loaded).0.currentPage;
    assert 1 <= n <= TotalPages(total);
    Pagination.MulMonotone(n - 1, TotalPages(total) - 1, PageSize);
    var p := PreviousPage(loaded).0.currentPage;
    assert 1 <= p <= TotalPages(total);
    Pagination.MulMonotone(p - 1, TotalPages(total) - 1, PageSize);
  }

  /** `viewReport` and `closeReportModal`. */
  function ViewReport(s: State, report: Report): (r: State)
    ensures r.showReportModal && r.selected == Some(report)
    ensures r.reports == s.reports && r.currentPage == s.currentPage
  {
    s.(selected := Some(report), showReportModal := true)
  }

  function CloseReportModal(s: State): (r: State)
    ensures !r.showReportModal && r.selected.None?
    ensures r.reports == s.reports && r.currentPage == s.currentPage
  {
    s.(showReportModal := false, selected := None)
  }

  lemma CloseUndoesView(s: State, report: Report)
    requires !s.showReportModal && s.selected.None?
    ensures CloseReportModal(ViewReport(s, report)) == s
  {
  }

  // ---------------------------------------------------------------------
  // Labels and downloads
  // ---------------------------------------------------------------------

  /** `getFileExtension`: the four export formats name themselves; anything
      else falls back to `csv`. */
  function FileExtension(format: string): (r: string)
    ensures r in Extensions
    ensures format in Extensions ==> r == format
    ensures format !in Extensions ==> r == DefaultFormat
  {
    if format in Extensions then format else DefaultFormat
  }

  lemma FileExtensionIdempotent(format: string)
    ensures FileExtension(FileExtension(format)) == FileExtension(format)
  {
  }

  /** `formatReportType`: the four report types get labels; other strings
      come back unchanged. */
  function FormatReportType(t: string): (r: string)
    ensures t == UserActivity ==> r == "User Activity"
    ensures t == SystemPerformance ==> r == "System Performance"
    ensures t == AuditLog ==> r == "Audit Log"
    ensures t == Custom ==> r == "Custom"
    ensures t !in {UserActivity, SystemPerformance, AuditLog, Custom} ==> r == t
  {
    if t == UserActivity then "User Activity"
    else if t == SystemPerformance then "System Performance"
    else if t == AuditLog then "Audit Log"
    else if t == Custom then "Custom"
    else t
  }

  /** A string is shown unchanged exactly when it is not one of the four
      report types, and distinct types get distinct labels (a label itself, such as
      `User Activity`, is shown unchanged and so collides with its type's). */
  lemma FormatReportTypeFixedPoints(t: string, u: string)
    ensures FormatReportType(t) == t <==> t !in {UserActivity, SystemPerformance, AuditLog, Custom}
    ensures t in {UserActivity, SystemPerformance, AuditLog, Custom}
            && u in {UserActivity, SystemPerformance, AuditLog, Custom} && t != u ==>
              FormatReportType(t) != FormatReportType(u)
  {
  }

  /** The requested format: the report's `format` parameter when truthy,
      otherwise `csv`. */
  function RequestedFormat(report: Report): (r: string)
    ensures r != ""
    ensures r == DefaultFormat || (FormatKey in report.parameters && r == report.parameters[FormatKey])
    ensures FormatKey !in report.parameters ==> r == DefaultFormat
  {
    if FormatKey in report.parameters && report.parameters[FormatKey] != "" then
      report.parameters[FormatKey]
    else DefaultFormat
  }

  /** `downloadReport`: only a completed report downloads; the request uses
      the requested format as is, and the file name is the title with every
      run of white space turned into `_`, then `_`, the id, `.` and the
      extension for that format. */
  function DownloadReport(report: Report): (r: Option<Download>)
    ensures r.Some? <==> report.status == Completed
    ensures r.Some? ==>
              && r.value.reportId == report.id
              && r.value.format == RequestedFormat(report)
              && r.value.filename == Text.ReplaceSpaceRuns(report.title) + "_" + report.id
                                     + "." + FileExtension(RequestedFormat(report))
  {
    if report.status != Completed then None
    else
      var format := RequestedFormat(report);
      Some(Download(report.id, format,
                    Text.ReplaceSpaceRuns(report.title) + "_" + report.id + "." + FileExtension(format)))
  }

  predicate NoSpace(s: string) {
    forall i :: 0 <= i < |s| ==> !Text.IsSpace(s[i])
  }

  lemma NoSpaceConcat(a: string, b: string)
    requires NoSpace(a) && NoSpace(b)
    ensures NoSpace(a + b)
  {
    assert forall i :: 0 <= i < |a + b| ==> (a + b)[i] == if i < |a| then a[i] else b[i - |a|];
  }

  /** The download name holds no white space when the id holds none, and a
      title without white space appears in it verbatim. */
  lemma DownloadNameHasNoSpace(report: Report)
    requires report.status == Completed
    requires NoSpace(report.id)
    ensures NoSpace(DownloadReport(report).value.filename)
    ensures NoSpace(report.title) ==>
              var name := DownloadReport(report).value.filename;
              |report.title| <= |name| && name[..|report.title|] == report.title
  {
    var title := Text.ReplaceSpaceRuns(report.title);
    var ext := FileExtension(RequestedFormat(report));
    ExtensionHasNoSpace(ext);
    NameHasNoSpace(title, report.id, ext);
    if NoSpace(report.title) {
      Text.ReplaceSpaceRunsIdentity(report.title);
      var rest := "_" + report.id + "." + ext;
      assert title + "_" + report.id + "." + ext == report.title + rest;
      assert (report.title + rest)[..|report.title|] == report.title;
    }
  }

  lemma ExtensionHasNoSpace(ext: string)
    requires ext in Extensions
    ensures NoSpace(ext)
  {
  }

  /** `title_id.ext` holds no white space when its three parts hold none. */
  lemma NameHasNoSpace(title: string, id: string, ext: string)
    requires NoSpace(title) && NoSpace(id) && NoSpace(ext)
    ensures NoSpace(title + "_" + id + "." + ext)
  {
    assert NoSpace("_") && NoSpace(".");
    NoSpaceConcat(title, "_");
    NoSpaceConcat(title + "_", id);
    NoSpaceConcat(title + "_" + id, ".");
    NoSpaceConcat(title + "_" + id + ".", ext);
  }
}
