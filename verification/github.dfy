/**
 * The GitHub import payload built for one migrated issue.
 */
module Github {

  import opened Wrappers

  /** The issue part of an import request. */
  datatype GithubIssue = GithubIssue(
    title: string,
    body: string,
    assignee: Option<string>,
    labels: set<string>)

  /** An import request: the issue plus its comments. */
  datatype ImportRequest = ImportRequest(issue: GithubIssue, comments: seq<string>)

}
