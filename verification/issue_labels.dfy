/**
 * What the configured label handler gives one particular Jira issue.
 */
module IssueLabels {

  import opened Wrappers
  import opened Strings
  import opened Jira
  import opened LabelHandlers
  import opened CompositeLabels
  import opened MigrationConfig
  import opened LabelRules

  /** Every label the field-value mappings can produce. */
  const MappedLabels: set<string> := {
    Bug, "type: enhancement", Task, "type: epic", Regression,
    Declined, Duplicate, Invalid, WaitingForFeedback, WaitingForTriage, IdealForContribution
  }

  /** In-progress and the other predicate labels come from no field mapping. */
  lemma PredicateLabelsNotMapped()
    ensures InProgress !in MappedLabels
  {
  }

  lemma FieldGivesMappedLabel(issue: JiraIssue, l: string)
    requires FieldGives(issue, l)
    ensures l in MappedLabels
  {
  }

  /** The resolved labels are the configured resolution of the contributed ones. */
  lemma LabelsResolveContributions(has: LabelFactory, issue: JiraIssue)
    ensures Labels(has, issue) == Resolved(Contributed(has, issue))
  {
  }

  /** Some fix version of the issue (main or backport) has this name. */
  ghost predicate HasVersionNamed(issue: JiraIssue, name: string) {
    exists v :: v in AllVersions(issue) && v.name == name
  }

  /** Waiting-for-triage is the reference label of the "Waiting for Triage" version and of nothing else. */
  lemma TriageReference(kind: FieldKind, value: string)
    ensures ReferenceLabel(kind, value) == Some(WaitingForTriage) <==> kind == Version && value == "Waiting for Triage"
  {
  }

  /** Ideal-for-contribution is the reference label of the "Contributions Welcome" version and of nothing else. */
  lemma IdealReference(kind: FieldKind, value: string)
    ensures ReferenceLabel(kind, value) == Some(IdealForContribution) <==> kind == Version && value == "Contributions Welcome"
  {
  }

  /** Only the "Waiting for Triage" version maps to waiting-for-triage, and only "Contributions Welcome" to ideal-for-contribution. */
  lemma FieldGivesVersionLabels(issue: JiraIssue)
    ensures FieldGives(issue, WaitingForTriage) <==> HasVersionNamed(issue, "Waiting for Triage")
    ensures FieldGives(issue, IdealForContribution) <==> HasVersionNamed(issue, "Contributions Welcome")
  {
    forall kind, value ensures ReferenceLabel(kind, value) == Some(WaitingForTriage) <==> kind == Version && value == "Waiting for Triage" {
      TriageReference(kind, value);
    }
    forall kind, value ensures ReferenceLabel(kind, value) == Some(IdealForContribution) <==> kind == Version && value == "Contributions Welcome" {
      IdealReference(kind, value);
    }
    if HasVersionNamed(issue, "Waiting for Triage") {
      var v :| v in AllVersions(issue) && v.name == "Waiting for Triage";
      assert (Version, v.name) in FieldValues(issue);
    }
    if HasVersionNamed(issue, "Contributions Welcome") {
      var v :| v in AllVersions(issue) && v.name == "Contributions Welcome";
      assert (Version, v.name) in FieldValues(issue);
    }
  }

  /**
   * An issue ends up waiting for triage exactly when it has neither a
   * resolution nor a fix version, or one of its versions is the
   * "Waiting for Triage" pseudo-version.
   */
  lemma TriageLabel(has: LabelFactory, issue: JiraIssue)
    ensures WaitingForTriage in Labels(has, issue) <==>
      (issue.resolution.None? && issue.fixVersion.None?) || HasVersionNamed(issue, "Waiting for Triage")
  {
    var c := Contributed(has, issue);
    ContributedExact(has, issue);
    FieldGivesVersionLabels(issue);
    var votes, backports := has.Apply("votes-jira"), has.Apply("backports");
    assert votes[|votes| - 1] == 'a' && backports[|backports| - 1] == 's';
    assert WaitingForTriage in c <==>
      (issue.resolution.None? && issue.fixVersion.None?) || HasVersionNamed(issue, "Waiting for Triage");
    TriggersNeverRemoved(c);
    assert Removals[0] in Removals;
  }

  /** The ideal-for-contribution label comes from, and only from, the "Contributions Welcome" pseudo-version. */
  lemma IdealForContributionLabel(has: LabelFactory, issue: JiraIssue)
    ensures IdealForContribution in Labels(has, issue) <==> HasVersionNamed(issue, "Contributions Welcome")
  {
    var c := Contributed(has, issue);
    ContributedExact(has, issue);
    FieldGivesVersionLabels(issue);
    var votes, backports := has.Apply("votes-jira"), has.Apply("backports");
    assert votes[|votes| - 1] == 'a' && backports[|backports| - 1] == 's';
    assert IdealForContribution[0] == 's' != TypePrefix[0];
    UntouchedLabel(c, IdealForContribution);
  }

  /** An issue in progress keeps in-progress unless it is also waiting for triage. */
  lemma InProgressLabel(has: LabelFactory, issue: JiraIssue)
    ensures InProgress in Labels(has, issue) <==>
      issue.status == "In Progress" && WaitingForTriage !in Labels(has, issue)
  {
    var c := Contributed(has, issue);
    InProgressContributed(has, issue);
    InProgressOutcome(c);
    TriggersNeverRemoved(c);
    assert Removals[0] in Removals;
  }

  /** In-progress is contributed exactly for the "In Progress" status. */
  lemma InProgressContributed(has: LabelFactory, issue: JiraIssue)
    ensures InProgress in Contributed(has, issue) <==> issue.status == "In Progress"
  {
    var votes, backports := has.Apply("votes-jira"), has.Apply("backports");
    assert votes[|votes| - 1] == 'a' && backports[|backports| - 2 ..] == "ts";
    NotConfiguredLabel(votes);
    NotConfiguredLabel(backports);
    assert InProgress != WaitingForTriage by { assert InProgress[|InProgress| - 1] != WaitingForTriage[|WaitingForTriage| - 1]; }
    ContributedExact(has, issue);
    PredicateLabelsNotMapped();
    if FieldGives(issue, InProgress) {
      FieldGivesMappedLabel(issue, InProgress);
    }
  }

  /**
   * A "has" label is the unknown prefix followed by "votes-jira" or
   * "backports" (`LabelFactory.Apply` keeps the short name as the suffix), so
   * whatever the prefix, it ends in 'a' or "ts". No label of the table or of
   * the status handlers ends that way, so a suffix is enough to tell them apart.
   */
  lemma NotConfiguredLabel(l: string)
    requires |l| >= 2 && (l[|l| - 1] == 'a' || l[|l| - 2 .. ] == "ts")
    ensures l !in MappedLabels
    ensures l != InProgress && l != Documentation
  {
  }

  /**
   * The votes label is in the result exactly from ten votes on, provided the
   * "has" factory does not make it a type label.
   */
  lemma VotesLabel(has: LabelFactory, issue: JiraIssue)
    requires !StartsWith(has.Apply("votes-jira"), TypePrefix)
    ensures has.Apply("votes-jira") in Labels(has, issue) <==> issue.votes >= VotesThreshold
  {
    var c := Contributed(has, issue);
    var votes, backports := has.Apply("votes-jira"), has.Apply("backports");
    assert votes[|votes| - 1] == 'a';
    NotConfiguredLabel(votes);
    assert votes != backports by { assert |votes| != |backports|; }
    ContributedExact(has, issue);
    if FieldGives(issue, votes) {
      FieldGivesMappedLabel(issue, votes);
    }
    UntouchedLabel(c, votes);
  }

  /**
   * The backports label is in the result exactly when the issue has backport
   * versions, provided the "has" factory does not make it a type label.
   */
  lemma BackportsLabel(has: LabelFactory, issue: JiraIssue)
    requires !StartsWith(has.Apply("backports"), TypePrefix)
    ensures has.Apply("backports") in Labels(has, issue) <==> |issue.backportVersions| > 0
  {
    var c := Contributed(has, issue);
    var votes, backports := has.Apply("votes-jira"), has.Apply("backports");
    assert backports[|backports| - 2 ..] == "ts";
    NotConfiguredLabel(backports);
    assert votes != backports by { assert |votes| != |backports|; }
    ContributedExact(has, issue);
    if FieldGives(issue, backports) {
      FieldGivesMappedLabel(issue, backports);
    }
    UntouchedLabel(c, backports);
  }

  /**
   * No handler ever contributes `type: documentation`: no table entry names
   * it and the "has" labels end differently. So the rule that task
   * supersedes documentation never fires in this configuration.
   */
  lemma DocumentationNeverContributed(has: LabelFactory, issue: JiraIssue)
    ensures Supersedes[1].dominated !in Contributed(has, issue)
    ensures Documentation !in Labels(has, issue)
  {
    var votes, backports := has.Apply("votes-jira"), has.Apply("backports");
    assert votes[|votes| - 1] == 'a' && backports[|backports| - 2 ..] == "ts";
    NotConfiguredLabel(votes);
    NotConfiguredLabel(backports);
    ContributedExact(has, issue);
    assert Documentation !in MappedLabels;
    if FieldGives(issue, Documentation) {
      FieldGivesMappedLabel(issue, Documentation);
    }
    LabelsResolveContributions(has, issue);
  }

  /** Every pseudo-version that becomes a label is kept out of the milestones. */
  lemma LabelledVersionsAreNotMilestones(version: FixVersion)
    ensures Lookup(FieldTable(), Version, version.name).Some? ==> !AcceptsMilestone(version)
  {
    VersionMappings(version.name);
  }

  // ---------------------------------------------------------------------
  // Worked examples
  // ---------------------------------------------------------------------

  /**
   * Without votes, backports or work in progress only the field labels and,
   * for an untriaged issue, waiting-for-triage are contributed.
   */
  lemma QuietContributed(has: LabelFactory, issue: JiraIssue, fields: set<string>)
    requires issue.votes < VotesThreshold && |issue.backportVersions| == 0 && issue.status != "In Progress"
    requires forall l :: FieldGives(issue, l) <==> l in fields
    ensures Contributed(has, issue) ==
      fields + (if issue.resolution.None? && issue.fixVersion.None? then {WaitingForTriage} else {})
  {
    ContributedExact(has, issue);
  }

  /** A bug closed as "Won't Fix", with no versions, Jira labels or votes to speak of. */
  predicate IsWontFixBug(issue: JiraIssue) {
    && issue.issueType == "Bug" && issue.status == "Closed" && issue.resolution == Some("Won't Fix")
    && issue.fixVersion.None? && issue.backportVersions == [] && issue.labels == []
    && issue.votes < VotesThreshold
  }

  /** Such a bug is declined, and no longer a bug. */
  lemma WontFixBugIsDeclined(has: LabelFactory, issue: JiraIssue)
    requires IsWontFixBug(issue)
    ensures Labels(has, issue) == {Declined}
  {
    WontFixContributions(has, issue);
    WontFixOutcome();
    LabelsResolveContributions(has, issue);
  }

  lemma WontFixContributions(has: LabelFactory, issue: JiraIssue)
    requires IsWontFixBug(issue)
    ensures Contributed(has, issue) == {Bug, Declined}
  {
    WontFixFields(issue);
    QuietContributed(has, issue, {Bug, Declined});
  }

  lemma WontFixFields(issue: JiraIssue)
    requires IsWontFixBug(issue)
    ensures forall l :: FieldGives(issue, l) <==> l in {Bug, Declined}
  {
    assert AllVersions(issue) == [];
    assert FieldValues(issue) == {(IssueType, "Bug"), (Status, "Closed"), (Resolution, "Won't Fix")};
    assert ReferenceLabel(IssueType, "Bug") == Some(Bug);
    assert ReferenceLabel(Resolution, "Won't Fix") == Some(Declined);
  }

  lemma WontFixOutcome()
    ensures Resolved({Bug, Declined}) == {Declined}
  {
    var s := {Bug, Declined};
    ResolvedExact(s);
    TriggersNeverRemoved(s);
    assert Removals[2] in Removals;
    assert Removed(Removals, s, Bug);
  }

  /** An open bug tagged "Regression", with no resolution, versions or votes to speak of. */
  predicate IsUntriagedRegression(issue: JiraIssue) {
    && issue.issueType == "Bug" && issue.status == "Open" && issue.resolution.None?
    && issue.fixVersion.None? && issue.backportVersions == [] && issue.labels == ["Regression"]
    && issue.votes < VotesThreshold
  }

  /** Such an issue is waiting for triage and nothing else. */
  lemma UntriagedRegressionWaitsForTriage(has: LabelFactory, issue: JiraIssue)
    requires IsUntriagedRegression(issue)
    ensures Labels(has, issue) == {WaitingForTriage}
  {
    UntriagedRegressionContributions(has, issue);
    UntriagedRegressionOutcome();
    LabelsResolveContributions(has, issue);
  }

  lemma UntriagedRegressionContributions(has: LabelFactory, issue: JiraIssue)
    requires IsUntriagedRegression(issue)
    ensures Contributed(has, issue) == {Bug, Regression, WaitingForTriage}
  {
    UntriagedRegressionFields(issue);
    QuietContributed(has, issue, {Bug, Regression});
  }

  lemma UntriagedRegressionFields(issue: JiraIssue)
    requires IsUntriagedRegression(issue)
    ensures forall l :: FieldGives(issue, l) <==> l in {Bug, Regression}
  {
    assert AllVersions(issue) == [];
    assert FieldValues(issue) == {(IssueType, "Bug"), (Status, "Open"), (JiraLabel, "Regression")};
    assert ReferenceLabel(IssueType, "Bug") == Some(Bug);
    assert ReferenceLabel(JiraLabel, "Regression") == Some(Regression);
  }

  lemma UntriagedRegressionOutcome()
    ensures Resolved({Bug, Regression, WaitingForTriage}) == {WaitingForTriage}
  {
    var s := {Bug, Regression, WaitingForTriage};
    ResolvedExact(s);
    TriggersNeverRemoved(s);
    assert Removals[0] in Removals && Supersedes[0] in Supersedes;
    assert Bug[0] == 't' && TypePrefix == Bug[..6];
    assert Removed(Removals, s, Bug);
    assert Superseded(Supersedes, s, Regression);
  }

}
