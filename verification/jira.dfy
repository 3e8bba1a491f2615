/**
 * The parts of a Jira issue that the migration rules read or change.
 */
module Jira {

  import opened Wrappers

  /** A Jira fix version; only its name matters to the rules. */
  datatype FixVersion = FixVersion(name: string)

  /**
   * A Jira issue as the rules see it. `resolution` and `fixVersion` are
   * nullable in Jira; `fixVersion` is the issue's main fix version and
   * `backportVersions` its remaining fix versions.
   */
  datatype JiraIssue = JiraIssue(
    key: string,
    description: string,
    issueType: string,
    status: string,
    resolution: Option<string>,
    fixVersion: Option<FixVersion>,
    backportVersions: seq<FixVersion>,
    labels: seq<string>,
    votes: nat)

  /** Every fix version of the issue: the main one (if any) followed by the backports. */
  function AllVersions(issue: JiraIssue): (vs: seq<FixVersion>)
    ensures forall v :: v in vs <==> Some(v) == issue.fixVersion || v in issue.backportVersions
  {
    (if issue.fixVersion.Some? then [issue.fixVersion.value] else []) + issue.backportVersions
  }

}
