/**
 * What the configured label rules guarantee for every Jira issue.
 */
module LabelRules {

  import opened Wrappers
  import opened Strings
  import opened Jira
  import opened LabelHandlers
  import opened CompositeLabels
  import opened MigrationConfig

  // ---------------------------------------------------------------------
  // Reference definition of the field-value mappings
  // ---------------------------------------------------------------------

  /** Issue types, grouped by the label they receive; other types get none. */
  function IssueTypeLabel(issueType: string): Option<string> {
    if issueType == "Bug" then Some("type: bug")
    else if issueType in {"New Feature", "Improvement"} then Some("type: enhancement")
    else if issueType in {"Refactoring", "Pruning", "Task", "Sub-task"} then Some("type: task")
    else if issueType == "Epic" then Some("type: epic")
    else None
  }

  /** Resolutions; "Fixed", "Complete", "Done", "Incomplete", "Cannot Reproduce" and others get none. */
  function ResolutionLabel(resolution: string): Option<string> {
    if resolution in {"Deferred", "Won't Do", "Won't Fix", "Works as Designed"} then Some("status: declined")
    else if resolution == "Duplicate" then Some("status: duplicate")
    else if resolution == "Invalid" then Some("status: invalid")
    else None
  }

  function StatusFieldLabel(status: string): Option<string> {
    if status == "Waiting for Feedback" then Some("status: waiting-for-feedback") else None
  }

  /** The two pseudo-versions that turn into status labels. */
  function VersionLabel(version: string): Option<string> {
    if version == "Waiting for Triage" then Some("status: waiting-for-triage")
    else if version == "Contributions Welcome" then Some("status: ideal-for-contribution")
    else None
  }

  function JiraLabelLabel(jiraLabel: string): Option<string> {
    if jiraLabel == "Regression" then Some("type: regression") else None
  }

  function ReferenceLabel(kind: FieldKind, value: string): Option<string> {
    match kind
    case IssueType => IssueTypeLabel(value)
    case Resolution => ResolutionLabel(value)
    case Status => StatusFieldLabel(value)
    case Version => VersionLabel(value)
    case JiraLabel => JiraLabelLabel(value)
  }

  lemma IssueTypeMappings(issueType: string)
    ensures Lookup(FieldTable(), IssueType, issueType) == IssueTypeLabel(issueType)
  {
    TypeFactoryLabels();
  }

  lemma ResolutionMappings(resolution: string)
    ensures Lookup(FieldTable(), Resolution, resolution) == ResolutionLabel(resolution)
  {
    ResolutionFactoryLabels();
  }

  lemma StatusMappings(status: string)
    ensures Lookup(FieldTable(), Status, status) == StatusFieldLabel(status)
  {
    StatusFactoryLabels();
  }

  lemma VersionMappings(version: string)
    ensures Lookup(FieldTable(), Version, version) == VersionLabel(version)
  {
    StatusFactoryLabels();
    IdealFactoryLabel();
  }

  lemma JiraLabelMappings(jiraLabel: string)
    ensures Lookup(FieldTable(), JiraLabel, jiraLabel) == JiraLabelLabel(jiraLabel)
  {
    TypeFactoryLabels();
  }

  /** The resolutions the rules deliberately leave unmapped contribute no label. */
  lemma UnmappedResolutionsGiveNothing(resolution: string)
    requires resolution in {"Fixed", "Complete", "Done", "Incomplete", "Cannot Reproduce"}
    ensures Lookup(FieldTable(), Resolution, resolution) == None
  {
    ResolutionMappings(resolution);
  }

  /** The registered table is the reference mapping: same hits, same labels, same misses. */
  lemma FieldTableMatchesReference()
    ensures forall kind, value :: Lookup(FieldTable(), kind, value) == ReferenceLabel(kind, value)
  {
    forall kind, value
      ensures Lookup(FieldTable(), kind, value) == ReferenceLabel(kind, value)
    {
      match kind
      case IssueType => IssueTypeMappings(value);
      case Resolution => ResolutionMappings(value);
      case Status => StatusMappings(value);
      case Version => VersionMappings(value);
      case JiraLabel => JiraLabelMappings(value);
    }
  }

  // ---------------------------------------------------------------------
  // Contributions
  // ---------------------------------------------------------------------

  /** Some field value of the issue maps to `l` in the reference mapping. */
  ghost predicate FieldGives(issue: JiraIssue, l: string) {
    exists key :: key in FieldValues(issue) && ReferenceLabel(key.0, key.1) == Some(l)
  }

  /** The table-driven handler yields exactly the reference labels of the issue's field values. */
  lemma FieldLabelsExact(issue: JiraIssue)
    ensures forall l :: l in FieldLabels(FieldTable(), issue) <==> FieldGives(issue, l)
  {
    var t := FieldTable();
    FieldTableMatchesReference();
    forall l | FieldGives(issue, l)
      ensures l in FieldLabels(t, issue)
    {
      var key :| key in FieldValues(issue) && ReferenceLabel(key.0, key.1) == Some(l);
      assert Lookup(t, key.0, key.1) == Some(l);
    }
    forall l | l in FieldLabels(t, issue)
      ensures FieldGives(issue, l)
    {
      var key :| key in FieldValues(issue) && key in t && t[key].Label() == l;
      assert Lookup(t, key.0, key.1) == Some(l);
    }
  }

  /** The contribution of the configured handler list, for any field table. */
  lemma HandlersContribute(table: MappingTable, has: LabelFactory, issue: JiraIssue)
    requires forall l :: l in FieldLabels(table, issue) <==> FieldGives(issue, l)
    ensures var hs := [
        FieldValueHandler(table),
        PredicateHandler(WaitingForTriage, Untriaged),
        PredicateHandler(InProgress, StatusIs("In Progress")),
        PredicateHandler(has.Apply("votes-jira"), VotesAtLeast(VotesThreshold)),
        PredicateHandler(has.Apply("backports"), HasBackports)];
      forall l :: l in Contributions(hs, issue) <==>
        || FieldGives(issue, l)
        || (l == WaitingForTriage && issue.resolution.None? && issue.fixVersion.None?)
        || (l == InProgress && issue.status == "In Progress")
        || (l == has.Apply("votes-jira") && issue.votes >= VotesThreshold)
        || (l == has.Apply("backports") && |issue.backportVersions| > 0)
  {
    var hs := [
      FieldValueHandler(table),
      PredicateHandler(WaitingForTriage, Untriaged),
      PredicateHandler(InProgress, StatusIs("In Progress")),
      PredicateHandler(has.Apply("votes-jira"), VotesAtLeast(VotesThreshold)),
      PredicateHandler(has.Apply("backports"), HasBackports)];
    assert hs[0..] == hs;
    ContributionsFrom(hs, 0, issue);
    ContributionsFrom(hs, 1, issue);
    ContributionsFrom(hs, 2, issue);
    ContributionsFrom(hs, 3, issue);
    ContributionsFrom(hs, 4, issue);
    ContributionsFrom(hs, 5, issue);
  }

  /**
   * Before resolution an issue carries the reference labels of its fields,
   * waiting-for-triage when it has neither resolution nor fix version,
   * in-progress when its status is "In Progress", the votes label from ten
   * votes on and the backports label when it has backport versions.
   */
  lemma ContributedExact(has: LabelFactory, issue: JiraIssue)
    ensures forall l :: l in Contributed(has, issue) <==>
      || FieldGives(issue, l)
      || (l == WaitingForTriage && issue.resolution.None? && issue.fixVersion.None?)
      || (l == InProgress && issue.status == "In Progress")
      || (l == has.Apply("votes-jira") && issue.votes >= VotesThreshold)
      || (l == has.Apply("backports") && |issue.backportVersions| > 0)
  {
    FieldLabelsExact(issue);
    HandlersContribute(FieldTable(), has, issue);
  }

  // ---------------------------------------------------------------------
  // Resolution
  // ---------------------------------------------------------------------

  /** Removal triggers are status labels, never type labels. */
  lemma TriggersAreStatusLabels()
    ensures forall rm :: rm in Removals ==> !StartsWith(rm.trigger, TypePrefix) && rm.trigger != Bug && rm.trigger != Regression
  {
    forall rm | rm in Removals
      ensures !StartsWith(rm.trigger, TypePrefix) && rm.trigger != Bug && rm.trigger != Regression
    {
      assert rm.trigger[0] == 's' && TypePrefix[0] == Bug[0] == Regression[0] == 't';
    }
  }

  /** No dominant label of a supersede rule is dominated by another rule. */
  lemma SupersedesDoNotChain()
    ensures NoChaining(Supersedes)
  {
  }

  /** No removal rule matches the trigger of another removal rule. */
  lemma RemovalTriggersKept()
    ensures TriggersKept(Removals)
  {
    TriggersAreStatusLabels();
  }

  /**
   * No removal trigger is the dominated label of a supersede rule, so a
   * removal is never skipped because its trigger was superseded first.
   */
  lemma TriggersNeverSuperseded()
    ensures forall rm, sp :: rm in Removals && sp in Supersedes ==> rm.trigger != sp.dominated
  {
  }

  /** Together: one supersede pass followed by one removal pass suffices. */
  lemma ConfigSinglePassSafe()
    ensures SinglePassSafe(Supersedes, Removals)
  {
    SupersedesDoNotChain();
    RemovalTriggersKept();
    TriggersNeverSuperseded();
  }

  /**
   * A stronger-looking safety condition does not hold: the triage removal
   * pattern matches the dominant labels bug and task. This is harmless,
   * because the supersede pass has already run when the removal pass drops
   * a dominant label, and the label it dominated is itself a type label the
   * same rule drops.
   */
  lemma RemovalMatchesDominants()
    ensures Matches(Removals[0].pattern, Supersedes[0].dominant)
    ensures Matches(Removals[0].pattern, Supersedes[1].dominant)
  {
    assert Supersedes[0].dominant == Bug && Supersedes[1].dominant == Task;
    assert Bug[..|TypePrefix|] == TypePrefix && Task[..|TypePrefix|] == TypePrefix;
  }

  /** The configured conflict resolution, applied to any set of contributed labels. */
  function Resolved(s: set<string>): set<string> {
    Resolve(Supersedes, Removals, s)
  }

  /** The resolved labels, label by label. */
  lemma ResolvedExact(s: set<string>)
    ensures forall l :: l in Resolved(s) <==>
      l in s && !Superseded(Supersedes, s, l) && !Removed(Removals, s, l)
  {
    ConfigSinglePassSafe();
    ResolveExact(Supersedes, Removals, s);
  }

  /** Resolving twice gives what resolving once gives. */
  lemma ResolvedIdempotent(s: set<string>)
    ensures Resolved(Resolved(s)) == Resolved(s)
  {
    ConfigSinglePassSafe();
    ResolveIdempotent(Supersedes, Removals, s);
  }

  /**
   * A label that is not a type label and not one of the two dominated status
   * labels is untouched by resolution: it is in the result exactly when present.
   */
  lemma UntouchedLabel(s: set<string>, l: string)
    requires !StartsWith(l, TypePrefix) && l != WaitingForFeedback && l != InProgress
    ensures l in Resolved(s) <==> l in s
  {
    assert StartsWith(Bug, TypePrefix) && StartsWith(Regression, TypePrefix) && StartsWith(Documentation, TypePrefix);
    ResolvedExact(s);
    assert forall sp :: sp in Supersedes ==> sp.dominated != l;
    assert forall rm :: rm in Removals ==> !Matches(rm.pattern, l);
  }

  // ---------------------------------------------------------------------
  // Supersede outcomes, for every contributed set `s`
  // ---------------------------------------------------------------------

  /**
   * Each supersede rule, read on its own: its dominant label survives the
   * pass exactly when present, and its dominated label survives exactly
   * when present without the dominant one. In particular a dominant label
   * is never dropped by its own rule.
   */
  lemma SupersedeOutcomes(s: set<string>)
    ensures forall sp :: sp in Supersedes ==>
      && (sp.dominant in ApplySupersedes(Supersedes, s) <==> sp.dominant in s)
      && (sp.dominated in ApplySupersedes(Supersedes, s) <==> sp.dominated in s && sp.dominant !in s)
  {
    SupersedesDoNotChain();
    SupersedesExact(Supersedes, s);
  }

  /** Waiting-for-triage rules out both waiting-for-feedback and in-progress. */
  lemma TriageExcludesFeedbackAndProgress(s: set<string>)
    ensures WaitingForTriage in Resolved(s) ==>
      WaitingForFeedback !in Resolved(s) && InProgress !in Resolved(s)
  {
    ResolvedExact(s);
    if WaitingForTriage in Resolved(s) {
      assert Supersedes[2] in Supersedes && Supersedes[3] in Supersedes;
      assert Superseded(Supersedes, s, WaitingForFeedback);
      assert Superseded(Supersedes, s, InProgress);
    }
  }

  /** In-progress survives exactly when present without waiting-for-triage. */
  lemma InProgressOutcome(s: set<string>)
    ensures InProgress in Resolved(s) <==> InProgress in s && WaitingForTriage !in s
  {
    ResolvedExact(s);
    assert Supersedes[3] in Supersedes;
    assert forall sp :: sp in Supersedes && sp.dominated == InProgress ==> sp.dominant == WaitingForTriage;
    assert InProgress[0] == 's' != TypePrefix[0];
    assert forall rm :: rm in Removals ==> !Matches(rm.pattern, InProgress);
  }

  /** A bug present before the removal pass means no regression label at the end. */
  lemma BugSupersedesRegression(s: set<string>)
    ensures Bug in ApplySupersedes(Supersedes, s) ==> Regression !in Resolved(s)
  {
    SupersedesDoNotChain();
    SupersedesExact(Supersedes, s);
    ResolvedExact(s);
    if Bug in ApplySupersedes(Supersedes, s) {
      assert Supersedes[0] in Supersedes;
      assert Superseded(Supersedes, s, Regression);
    }
  }

  // ---------------------------------------------------------------------
  // Removal outcomes, for every contributed set `s`
  // ---------------------------------------------------------------------

  /** Removal triggers are never removed: each is in the result exactly when present. */
  lemma TriggersNeverRemoved(s: set<string>)
    ensures forall rm :: rm in Removals ==> (rm.trigger in Resolved(s) <==> rm.trigger in s)
  {
    ResolvedExact(s);
    TriggersNeverSuperseded();
    RemovalTriggersKept();
    forall rm | rm in Removals && rm.trigger in s
      ensures rm.trigger in Resolved(s)
    {
      assert !Superseded(Supersedes, s, rm.trigger);
      assert !Removed(Removals, s, rm.trigger);
    }
  }

  /** A waiting-for-triage or invalid issue ends up with no type label at all. */
  lemma TriageOrInvalidDropsTypes(s: set<string>)
    ensures WaitingForTriage in Resolved(s) || Invalid in Resolved(s) ==>
      forall l :: l in Resolved(s) ==> !StartsWith(l, TypePrefix)
  {
    ResolvedExact(s);
    TriggersAreStatusLabels();
    assert Removals[0] in Removals && Removals[1] in Removals;
    forall l | StartsWith(l, TypePrefix) && (WaitingForTriage in Resolved(s) || Invalid in Resolved(s))
      ensures l !in Resolved(s)
    {
      assert Removed(Removals, s, l);
    }
  }

  /** A declined or duplicate issue is labelled neither bug nor regression. */
  lemma DeclinedOrDuplicateDropsBugs(s: set<string>)
    ensures Declined in Resolved(s) || Duplicate in Resolved(s) ==>
      Bug !in Resolved(s) && Regression !in Resolved(s)
  {
    ResolvedExact(s);
    TriggersAreStatusLabels();
    assert Removals[2] in Removals && Removals[3] in Removals && Removals[4] in Removals && Removals[5] in Removals;
    if Declined in Resolved(s) || Duplicate in Resolved(s) {
      assert Removed(Removals, s, Bug);
      assert Removed(Removals, s, Regression);
    }
  }

}
