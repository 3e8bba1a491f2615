/**
 * The rule wiring of the Spring Framework (SPR) Jira migration: the milestone
 * filter, the field-value mappings, the predicate handlers, the supersede
 * and removal rules.
 */
module MigrationConfig {

  import opened Wrappers
  import opened Strings
  import opened Jira
  import opened LabelHandlers
  import opened CompositeLabels

  // ---------------------------------------------------------------------
  // Milestone filter
  // ---------------------------------------------------------------------

  /** Administrative pseudo-versions that never become milestones. */
  const SkipVersions: seq<string> := ["Contributions Welcome", "Pending Closure", "Waiting for Triage"]

  /** The milestone filter: accepts a fix version unless its name is a pseudo-version. */
  function AcceptsMilestone(version: FixVersion): (accepted: bool)
    ensures accepted <==>
      version.name != "Contributions Welcome" && version.name != "Pending Closure" && version.name != "Waiting for Triage"
  {
    version.name !in SkipVersions
  }

  // ---------------------------------------------------------------------
  // Label names the rules refer to
  // ---------------------------------------------------------------------

  const Bug := "type: bug"
  const Regression := "type: regression"
  const Task := "type: task"
  const Documentation := "type: documentation"
  const WaitingForTriage := "status: waiting-for-triage"
  const WaitingForFeedback := "status: waiting-for-feedback"
  const InProgress := "status: in-progress"
  const Invalid := "status: invalid"
  const Declined := "status: declined"
  const Duplicate := "status: duplicate"
  const IdealForContribution := "status: ideal-for-contribution"

  /** The factories produce exactly the label names the rules spell out. */
  lemma TypeFactoryLabels()
    ensures TypeLabel.Apply("bug") == Bug
    ensures TypeLabel.Apply("enhancement") == "type: enhancement"
    ensures TypeLabel.Apply("task") == Task
    ensures TypeLabel.Apply("epic") == "type: epic"
    ensures TypeLabel.Apply("regression") == Regression
  {
  }

  lemma ResolutionFactoryLabels()
    ensures StatusLabel.Apply("declined") == Declined
    ensures StatusLabel.Apply("duplicate") == Duplicate
    ensures StatusLabel.Apply("invalid") == Invalid
  {
  }

  lemma StatusFactoryLabels()
    ensures StatusLabel.Apply("waiting-for-feedback") == WaitingForFeedback
    ensures StatusLabel.Apply("waiting-for-triage") == WaitingForTriage
  {
  }

  lemma IdealFactoryLabel()
    ensures StatusLabel.Apply("ideal-for-contribution") == IdealForContribution
  {
  }

  lemma InProgressFactoryLabel()
    ensures StatusLabel.Apply("in-progress") == InProgress
  {
  }

  /** The category prefix of every type label. */
  const TypePrefix := TypeLabel.prefix

  /** The vote count from which an issue gets the votes label. */
  const VotesThreshold := 10

  // ---------------------------------------------------------------------
  // Field-value mappings, in registration order
  // ---------------------------------------------------------------------

  function FieldTable(): MappingTable {
    var t := map[];
    var t := AddMapping(t, IssueType, "Bug", "bug");
    var t := AddMapping(t, IssueType, "New Feature", "enhancement");
    var t := AddMapping(t, IssueType, "Improvement", "enhancement");
    var t := AddMapping(t, IssueType, "Refactoring", "task");
    var t := AddMapping(t, IssueType, "Pruning", "task");
    var t := AddMapping(t, IssueType, "Task", "task");
    var t := AddMapping(t, IssueType, "Sub-task", "task");
    var t := AddMapping(t, IssueType, "Epic", "epic");
    var t := AddMapping(t, Resolution, "Deferred", "declined");
    var t := AddMapping(t, Resolution, "Won't Do", "declined");
    var t := AddMapping(t, Resolution, "Won't Fix", "declined");
    var t := AddMapping(t, Resolution, "Works as Designed", "declined");
    var t := AddMapping(t, Resolution, "Duplicate", "duplicate");
    var t := AddMapping(t, Resolution, "Invalid", "invalid");
    var t := AddMapping(t, Status, "Waiting for Feedback", "waiting-for-feedback");
    var t := AddMappingWith(t, Version, "Waiting for Triage", "waiting-for-triage", StatusLabel);
    var t := AddMappingWith(t, Version, "Contributions Welcome", "ideal-for-contribution", StatusLabel);
    var t := AddMappingWith(t, JiraLabel, "Regression", "regression", TypeLabel);
    t
  }

  // ---------------------------------------------------------------------
  // The composite label handler
  // ---------------------------------------------------------------------

  const Supersedes: seq<Supersede> := [
    Supersede(Bug, Regression),
    Supersede(Task, Documentation),
    Supersede(WaitingForTriage, WaitingForFeedback),
    Supersede(WaitingForTriage, InProgress)
  ]

  const Removals: seq<Removal> := [
    // a type picked by the reporter is not kept until the issue is triaged
    Removal(WaitingForTriage, StartsWithText(TypePrefix)),
    // an invalid issue has no type
    Removal(Invalid, StartsWithText(TypePrefix)),
    // a declined issue is neither a bug nor a regression
    Removal(Declined, EqualsText(Bug)),
    Removal(Declined, EqualsText(Regression)),
    // nor is a duplicate
    Removal(Duplicate, EqualsText(Bug)),
    Removal(Duplicate, EqualsText(Regression))
  ]

  /**
   * The label handler bean. `has` is the factory of "has" labels, whose
   * prefix is not part of this model.
   */
  function ConfiguredHandler(has: LabelFactory): CompositeHandler {
    CompositeHandler(
      [ FieldValueHandler(FieldTable()),
        PredicateHandler(WaitingForTriage, Untriaged),
        PredicateHandler(InProgress, StatusIs("In Progress")),
        PredicateHandler(has.Apply("votes-jira"), VotesAtLeast(VotesThreshold)),
        PredicateHandler(has.Apply("backports"), HasBackports) ],
      Supersedes,
      Removals)
  }

  /** The labels every handler contributes, before resolution. */
  function Contributed(has: LabelFactory, issue: JiraIssue): set<string> {
    Contributions(ConfiguredHandler(has).handlers, issue)
  }

  /** The resolved labels of one issue. */
  function Labels(has: LabelFactory, issue: JiraIssue): set<string> {
    ComputeLabels(ConfiguredHandler(has), issue)
  }

}
