/**
 * The issue processors of the migration: hooks that adjust a Jira issue
 * before it is converted, and the GitHub import request before it is sent.
 */
module IssueProcessors {

  import opened Wrappers
  import opened Strings
  import opened Jira
  import opened Github
  import opened LabelHandlers
  import opened CompositeLabels
  import opened MigrationConfig
  import opened LabelRules
  import opened IssueLabels

  /** The two processors the configuration registers. */
  datatype IssueProcessor =
    | AssigneeDropping   // drops the assignee of backlog and untriaged issues
    | Spr7640            // shortens the one description too large to import

  /** The registered composite, in registration order. */
  const Processors: seq<IssueProcessor> := [AssigneeDropping, Spr7640]

  const BacklogMarker := "Backlog"
  const OversizedKey := "SPR-7640"
  const DescriptionLimit := 1000
  const Ellipsis := "..."

  // ---------------------------------------------------------------------
  // Dropping the assignee
  // ---------------------------------------------------------------------

  /**
   * When the assignee is dropped: the main fix version names a backlog, or
   * the import already carries waiting-for-triage or ideal-for-contribution.
   */
  ghost predicate DropsAssignee(issue: JiraIssue, gh: GithubIssue) {
    || (issue.fixVersion.Some? && Contains(issue.fixVersion.value.name, BacklogMarker))
    || WaitingForTriage in gh.labels
    || IdealForContribution in gh.labels
  }

  /** The import hook of the assignee-dropping processor. */
  function DropAssignee(issue: JiraIssue, req: ImportRequest): (r: ImportRequest)
    ensures r.comments == req.comments
    ensures r.issue == req.issue.(assignee := r.issue.assignee)
    ensures r.issue.assignee == (if DropsAssignee(issue, req.issue) then None else req.issue.assignee)
  {
    var gh := req.issue;
    if (issue.fixVersion.Some? && ContainsText(issue.fixVersion.value.name, BacklogMarker))
      || WaitingForTriage in gh.labels || IdealForContribution in gh.labels
    then req.(issue := gh.(assignee := None))
    else req
  }

  /** Dropping twice drops what dropping once drops. */
  lemma DropAssigneeIdempotent(issue: JiraIssue, req: ImportRequest)
    ensures DropAssignee(issue, DropAssignee(issue, req)) == DropAssignee(issue, req)
  {
  }

  // ---------------------------------------------------------------------
  // Shortening the description of SPR-7640
  // ---------------------------------------------------------------------

  /**
   * The conversion hook of the SPR-7640 processor: that issue keeps the
   * first thousand characters of its description followed by an ellipsis.
   * Taking the first thousand characters of a shorter description throws.
   */
  function ShortenDescription(issue: JiraIssue): (r: Result<JiraIssue>)
    ensures issue.key != OversizedKey ==> r == Success(issue)
    ensures issue.key == OversizedKey ==> (r.Success? <==> |issue.description| >= DescriptionLimit)
    ensures r.Success? ==> r.value.(description := issue.description) == issue
    ensures r.Success? && issue.key == OversizedKey ==>
      && |r.value.description| == DescriptionLimit + |Ellipsis|
      && r.value.description[..DescriptionLimit] == issue.description[..DescriptionLimit]
      && r.value.description[DescriptionLimit..] == Ellipsis
  {
    if issue.key != OversizedKey then Success(issue)
    else if |issue.description| < DescriptionLimit then Failure("description shorter than the substring end")
    else Success(issue.(description := issue.description[..DescriptionLimit] + Ellipsis))
  }

  /** Shortening an already shortened description changes nothing. */
  lemma ShortenDescriptionIdempotent(issue: JiraIssue)
    requires ShortenDescription(issue).Success?
    ensures ShortenDescription(ShortenDescription(issue).value) == ShortenDescription(issue)
  {
    var r := ShortenDescription(issue).value;
    if issue.key == OversizedKey {
      assert r.description[..DescriptionLimit] + Ellipsis == r.description;
    }
  }

  // ---------------------------------------------------------------------
  // The hooks, and the composite that runs them in order
  // ---------------------------------------------------------------------

  /** The conversion hook; a processor that does not override it leaves the issue alone. */
  function BeforeConversion(p: IssueProcessor, issue: JiraIssue): Result<JiraIssue> {
    match p
    case AssigneeDropping => Success(issue)
    case Spr7640 => ShortenDescription(issue)
  }

  /** The import hook; a processor that does not override it leaves the request alone. */
  function BeforeImport(p: IssueProcessor, issue: JiraIssue, req: ImportRequest): ImportRequest {
    match p
    case AssigneeDropping => DropAssignee(issue, req)
    case Spr7640 => req
  }

  /** The composite conversion hook: each processor in turn, stopping at the first failure. */
  function RunBeforeConversion(ps: seq<IssueProcessor>, issue: JiraIssue): Result<JiraIssue>
    decreases |ps|
  {
    if ps == [] then Success(issue)
    else match BeforeConversion(ps[0], issue)
      case Failure(e) => Failure(e)
      case Success(next) => RunBeforeConversion(ps[1..], next)
  }

  /** The composite import hook: each processor in turn. */
  function RunBeforeImport(ps: seq<IssueProcessor>, issue: JiraIssue, req: ImportRequest): ImportRequest
    decreases |ps|
  {
    if ps == [] then req
    else RunBeforeImport(ps[1..], issue, BeforeImport(ps[0], issue, req))
  }

  /** Whatever processors run, conversion changes the description and nothing else. */
  lemma {:induction false} ConversionChangesOnlyDescription(ps: seq<IssueProcessor>, issue: JiraIssue)
    ensures RunBeforeConversion(ps, issue).Success? ==>
      RunBeforeConversion(ps, issue).value.(description := issue.description) == issue
    decreases |ps|
  {
    if ps != [] && BeforeConversion(ps[0], issue).Success? {
      ConversionChangesOnlyDescription(ps[1..], BeforeConversion(ps[0], issue).value);
    }
  }

  /**
   * Whatever processors run, the import request keeps its comments, title,
   * body and labels, and its assignee is either kept or dropped.
   */
  lemma {:induction false} ImportOnlyDropsAssignee(ps: seq<IssueProcessor>, issue: JiraIssue, req: ImportRequest)
    ensures var r := RunBeforeImport(ps, issue, req);
      && r.comments == req.comments
      && r.issue == req.issue.(assignee := r.issue.assignee)
      && (r.issue.assignee == req.issue.assignee || r.issue.assignee.None?)
    decreases |ps|
  {
    if ps != [] {
      ImportOnlyDropsAssignee(ps[1..], issue, BeforeImport(ps[0], issue, req));
    }
  }

  /** The registered composite converts exactly as the SPR-7640 processor does. */
  lemma ConfiguredConversion(issue: JiraIssue)
    ensures RunBeforeConversion(Processors, issue) == ShortenDescription(issue)
  {
    assert Processors[1..][1..] == [];
  }

  /** The registered composite prepares the import exactly as the assignee-dropping processor does. */
  lemma ConfiguredImport(issue: JiraIssue, req: ImportRequest)
    ensures RunBeforeImport(Processors, issue, req) == DropAssignee(issue, req)
  {
    assert Processors[1..][1..] == [];
  }

  // ---------------------------------------------------------------------
  // The processors together with the label rules
  // ---------------------------------------------------------------------

  /** Conversion never changes the labels an issue receives. */
  lemma ConversionKeepsLabels(has: LabelFactory, issue: JiraIssue)
    requires RunBeforeConversion(Processors, issue).Success?
    ensures Labels(has, RunBeforeConversion(Processors, issue).value) == Labels(has, issue)
  {
    var converted := RunBeforeConversion(Processors, issue).value;
    ConversionChangesOnlyDescription(Processors, issue);
    HandlersIgnoreKeyAndDescription(converted, issue);
    ContributionsAgree(ConfiguredHandler(has).handlers, converted, issue);
  }

  /**
   * An import request labelled by the configured rules loses its assignee
   * when the issue is untriaged, or has the "Waiting for Triage" or
   * "Contributions Welcome" pseudo-version, or its main fix version names
   * a backlog; otherwise the assignee is kept.
   */
  lemma ImportDropsAssigneeOfUnownedIssues(has: LabelFactory, issue: JiraIssue, req: ImportRequest)
    requires req.issue.labels == Labels(has, issue)
    ensures RunBeforeImport(Processors, issue, req).issue.assignee.None? <==>
      || req.issue.assignee.None?
      || (issue.resolution.None? && issue.fixVersion.None?)
      || HasVersionNamed(issue, "Waiting for Triage")
      || HasVersionNamed(issue, "Contributions Welcome")
      || (issue.fixVersion.Some? && Contains(issue.fixVersion.value.name, BacklogMarker))
  {
    ConfiguredImport(issue, req);
    TriageLabel(has, issue);
    IdealForContributionLabel(has, issue);
  }

  // ---------------------------------------------------------------------
  // The processor test cases
  // ---------------------------------------------------------------------

  /** A request for an issue assigned to "jhoeller", carrying the given labels. */
  function AssignedRequest(labels: set<string>): ImportRequest {
    ImportRequest(GithubIssue("", "", Some("jhoeller"), labels), [])
  }

  /** An issue whose only fix version has the given name. */
  function IssueWithVersion(name: string): JiraIssue {
    JiraIssue("", "", "", "", None, Some(FixVersion(name)), [], [], 0)
  }

  /** An issue with no fix version. */
  function IssueWithoutVersion(): JiraIssue {
    JiraIssue("", "", "", "", None, None, [], [], 0)
  }

  /** Any main fix version whose name contains "Backlog" drops the assignee. */
  lemma BacklogVersionDropsAssignee(name: string, at: nat)
    requires OccursAt(name, BacklogMarker, at)
    ensures RunBeforeImport(Processors, IssueWithVersion(name), AssignedRequest({})).issue.assignee.None?
  {
    ConfiguredImport(IssueWithVersion(name), AssignedRequest({}));
  }

  /** The "General Backlog" test case. */
  lemma GeneralBacklogDropsAssignee()
    ensures RunBeforeImport(Processors, IssueWithVersion("General Backlog"), AssignedRequest({})).issue.assignee.None?
  {
    assert "General Backlog"[8..15] == BacklogMarker;
    BacklogVersionDropsAssignee("General Backlog", 8);
  }

  /** The "t.x Backlog" test case. */
  lemma MajorBacklogDropsAssignee()
    ensures RunBeforeImport(Processors, IssueWithVersion("t.x Backlog"), AssignedRequest({})).issue.assignee.None?
  {
    assert "t.x Backlog"[4..11] == BacklogMarker;
    BacklogVersionDropsAssignee("t.x Backlog", 4);
  }

  /** The waiting-for-triage and ideal-for-contribution labels drop the assignee. */
  lemma StatusLabelsDropAssignee()
    ensures RunBeforeImport(Processors, IssueWithoutVersion(), AssignedRequest({WaitingForTriage})).issue.assignee.None?
    ensures RunBeforeImport(Processors, IssueWithoutVersion(), AssignedRequest({IdealForContribution})).issue.assignee.None?
  {
    ConfiguredImport(IssueWithoutVersion(), AssignedRequest({WaitingForTriage}));
    ConfiguredImport(IssueWithoutVersion(), AssignedRequest({IdealForContribution}));
  }

  /** Any other request keeps its assignee. */
  lemma OtherIssuesKeepAssignee()
    ensures RunBeforeImport(Processors, IssueWithVersion("5.0 GA"), AssignedRequest({Bug})).issue.assignee == Some("jhoeller")
  {
    var issue := IssueWithVersion("5.0 GA");
    ConfiguredImport(issue, AssignedRequest({Bug}));
    assert !Contains("5.0 GA", BacklogMarker);
    assert Bug != WaitingForTriage && Bug != IdealForContribution;
  }

}
