# SPR Jira migration rules, in Dafny

This project models the decision logic of the Spring Framework (SPR) Jira
to GitHub migration configuration. The logic is all in
`Ssc327MigrationConfig`, and it covers three things:

- **The milestone filter.** Some administrative pseudo-versions never
  become GitHub milestones.
- **The label handler.** It decides which GitHub labels a migrated Jira
  issue receives, in three stages:
  - Field-value mappings keyed on (field kind, value). Examples are issue
    type "Bug" → `type: bug` and resolution "Won't Fix" → `status: declined`.
  - Predicate handlers: waiting-for-triage, in-progress, the votes label
    and the backports label.
  - Conflict resolution: four supersede rules, then six removal rules.
- **The issue processors.** They adjust an issue before conversion and the
  import request before it is sent:
  - They drop the assignee of backlog, untriaged and
    ideal-for-contribution issues.
  - They shorten the one description (SPR-7640) that is too large to
    import.

Modules, in dependency order:

| file | module | contents |
|---|---|---|
| `wrappers.dfy` | `Wrappers` | `Option` for nullable references, `Result` for steps that throw |
| `strings.dfy` | `Strings` | `startsWith`, and `contains` as an index scan with a logical definition |
| `jira.dfy`, `github.dfy` | `Jira`, `Github` | the issue, fix version and import request records |
| `label_handlers.dfy` | `LabelHandlers` | label factories, the field-value table, predicate handlers |
| `composite_labels.dfy` | `CompositeLabels` | the composite handler: union, supersede pass, removal pass |
| `migration_config.dfy` | `MigrationConfig` | the configured filter, table, handlers and rules |
| `label_rules.dfy` | `LabelRules` | a reference mapping, the static safety of the rules, outcome lemmas |
| `issue_labels.dfy` | `IssueLabels` | what the configured handler gives a single issue |
| `issue_processors.dfy` | `IssueProcessors` | the processors, the composite, and how they interact with the labels |

How the model treats the source:

- **Labels** are their names, as strings.
- **Label factories.**
  - The status and type factories prefix `status: ` and `type: `.
  - The "has" factory's prefix is not visible, so it is a parameter `has`
    of every label result.
- **The composite label handler.** Its behaviour is implied by how the
  configuration wires it:
  - the union of all handler contributions;
  - one pass over the supersede rules, in order. A rule drops the
    dominated label when both labels are present;
  - one pass over the removal rules, in order. A rule drops every other
    label matching its pattern when the trigger is present.
- **The table key for a version** is the name of any fix version of the
  issue: the main one or a backport.
- **The assignee processor** reads only the main fix version, as the
  source does.

## Model

| member | source | states |
|---|---|---|
| MigrationConfig.AcceptsMilestone | src/main/java/io/pivotal/migration/Ssc327MigrationConfig.java:37-44 | a fix version becomes a milestone exactly when its name is none of "Contributions Welcome", "Pending Closure", "Waiting for Triage" |
| IssueLabels.LabelledVersionsAreNotMilestones | src/main/java/io/pivotal/migration/Ssc327MigrationConfig.java:37-44 | every version the table turns into a label is rejected as a milestone |
| LabelRules.IssueTypeMappings | src/main/java/io/pivotal/migration/Ssc327MigrationConfig.java:51-58 | issue types: Bug → bug; New Feature and Improvement → enhancement; Refactoring, Pruning, Task and Sub-task → task; Epic → epic; every other type → no label |
| LabelRules.ResolutionMappings | src/main/java/io/pivotal/migration/Ssc327MigrationConfig.java:60-66 | Deferred, Won't Do, Won't Fix and Works as Designed → `status: declined`; Duplicate → duplicate; Invalid → invalid; every other resolution → no label |
| LabelRules.UnmappedResolutionsGiveNothing | src/main/java/io/pivotal/migration/Ssc327MigrationConfig.java:67-68 | Fixed, Complete, Done, Incomplete and Cannot Reproduce give no label |
| LabelRules.StatusMappings | src/main/java/io/pivotal/migration/Ssc327MigrationConfig.java:70-73 | only the "Waiting for Feedback" status gives a label, `status: waiting-for-feedback` |
| LabelRules.VersionMappings | src/main/java/io/pivotal/migration/Ssc327MigrationConfig.java:75-76 | the "Waiting for Triage" and "Contributions Welcome" versions map to status labels; no other version maps |
| LabelRules.JiraLabelMappings | src/main/java/io/pivotal/migration/Ssc327MigrationConfig.java:78 | the Jira label "Regression" maps to `type: regression`; no other Jira label maps |
| LabelHandlers.LabelFactory.Apply | src/main/java/io/pivotal/migration/Ssc327MigrationConfig.java:84-87 | a factory puts its category prefix in front of the short name and keeps the name as the suffix; `StatusLabel` and `TypeLabel` prefix `status: ` and `type: `, and the label constants are proved equal to what they produce |
| MigrationConfig.FieldTable | src/main/java/io/pivotal/migration/Ssc327MigrationConfig.java:49-78 | the eighteen registrations, in order; characterised for every kind and value by `LabelRules.FieldTableMatchesReference` |
| LabelHandlers.FieldValues | src/main/java/io/pivotal/migration/Ssc327MigrationConfig.java:49-78 | the (field kind, value) keys an issue offers the table: its type, status, resolution if any, every fix version name and every Jira label; used by `LabelRules.FieldLabelsExact` |
| LabelHandlers.FieldLabels | src/main/java/io/pivotal/migration/Ssc327MigrationConfig.java:49-82 | the table-driven handler: the label of every key of the issue the table maps; characterised by `LabelRules.FieldLabelsExact` |
| LabelRules.FieldTableMatchesReference | src/main/java/io/pivotal/migration/Ssc327MigrationConfig.java:49-78 | for every field kind and value, the registered table agrees with the reference mapping: the same hits with the same labels, and the same misses |
| LabelRules.FieldLabelsExact | src/main/java/io/pivotal/migration/Ssc327MigrationConfig.java:49-82 | the field-value handler yields exactly the reference labels of the issue's field values |
| IssueLabels.FieldGivesMappedLabel | src/main/java/io/pivotal/migration/Ssc327MigrationConfig.java:49-78 | a field value only ever yields one of the eleven labels the table names |
| IssueLabels.FieldGivesVersionLabels | src/main/java/io/pivotal/migration/Ssc327MigrationConfig.java:75-76 | the fields give waiting-for-triage exactly when a version is named "Waiting for Triage", and ideal-for-contribution exactly when one is named "Contributions Welcome" |
| LabelHandlers.Holds | src/main/java/io/pivotal/migration/Ssc327MigrationConfig.java:84-94 | the four predicate conditions: no resolution and no fix version, status equal to a name, votes at least a threshold, non-empty backports; characterised per label by `LabelRules.ContributedExact` |
| LabelHandlers.HandlerLabels | src/main/java/io/pivotal/migration/Ssc327MigrationConfig.java:81-94 | one handler's contribution: the table labels, or the predicate label when its condition holds; characterised by `LabelRules.ContributedExact` |
| CompositeLabels.Contributions | src/main/java/io/pivotal/migration/Ssc327MigrationConfig.java:81-94 | the union of the handlers' contributions in registration order; characterised by `CompositeLabels.ContributionsExact` |
| MigrationConfig.ConfiguredHandler | src/main/java/io/pivotal/migration/Ssc327MigrationConfig.java:81-110 | the label handler bean: the table handler, the four predicate handlers, the four supersede rules and the six removal rules; its contributions are characterised by `LabelRules.ContributedExact` and its resolution by `LabelRules.ResolvedExact` |
| MigrationConfig.Labels | src/main/java/io/pivotal/migration/Ssc327MigrationConfig.java:46-113 | the labels of one issue, the configured resolution of its contributions; characterised label by label by the `IssueLabels` lemmas |
| CompositeLabels.ContributionsExact | src/main/java/io/pivotal/migration/Ssc327MigrationConfig.java:81-94 | a label is contributed exactly when some registered handler yields it |
| CompositeLabels.ContributionsOrderFree | src/main/java/io/pivotal/migration/Ssc327MigrationConfig.java:81-94 | the order in which handlers are registered does not change the contributions |
| CompositeLabels.ContributionsAgree | src/main/java/io/pivotal/migration/Ssc327MigrationConfig.java:81-94 | two issues on which every handler agrees get the same contributions |
| LabelHandlers.HandlersIgnoreKeyAndDescription | src/main/java/io/pivotal/migration/Ssc327MigrationConfig.java:49-94 | no handler reads the key or the description of an issue |
| LabelRules.ContributedExact | src/main/java/io/pivotal/migration/Ssc327MigrationConfig.java:81-94 | before resolution, an issue carries: its field labels; waiting-for-triage iff it has no resolution and no fix version; in-progress iff its status is "In Progress"; the votes label iff it has at least 10 votes; the backports label iff it has backports. Nothing else |
| IssueLabels.QuietContributed | src/main/java/io/pivotal/migration/Ssc327MigrationConfig.java:81-94 | with under 10 votes, no backports and a status other than "In Progress", only the field labels are contributed, plus waiting-for-triage for an untriaged issue |
| IssueLabels.InProgressContributed | src/main/java/io/pivotal/migration/Ssc327MigrationConfig.java:87-88 | in-progress is contributed iff the status is "In Progress" |
| CompositeLabels.ApplySupersedes | src/main/java/io/pivotal/migration/Ssc327MigrationConfig.java:96-99 | the supersede pass only removes labels, and only dominated ones |
| CompositeLabels.SupersedesExact | src/main/java/io/pivotal/migration/Ssc327MigrationConfig.java:96-99 | when rules do not chain, a label survives the pass iff no rule with a present dominant label names it as dominated |
| CompositeLabels.ApplyRemovals | src/main/java/io/pivotal/migration/Ssc327MigrationConfig.java:101-110 | the removal pass only removes labels, each one matched by a rule whose trigger is present and differs from it |
| CompositeLabels.RemovalsExact | src/main/java/io/pivotal/migration/Ssc327MigrationConfig.java:101-110 | when triggers are kept, a label survives the pass iff no present trigger's pattern matches it |
| CompositeLabels.Resolve | src/main/java/io/pivotal/migration/Ssc327MigrationConfig.java:96-110 | resolution only deletes labels |
| CompositeLabels.ComputeLabels | src/main/java/io/pivotal/migration/Ssc327MigrationConfig.java:81-112 | the final label set is a subset of the union of the contributions |
| CompositeLabels.ResolveExact | src/main/java/io/pivotal/migration/Ssc327MigrationConfig.java:96-110 | for single-pass-safe rules, a label is in the result iff it is present, not superseded and not removed, all judged on the contributed set |
| CompositeLabels.ResolveIdempotent | src/main/java/io/pivotal/migration/Ssc327MigrationConfig.java:96-110 | for single-pass-safe rules, resolving an already resolved set changes nothing |
| LabelRules.TriggersAreStatusLabels | src/main/java/io/pivotal/migration/Ssc327MigrationConfig.java:101-110 | no removal trigger is a type label, bug or regression |
| LabelRules.SupersedesDoNotChain | src/main/java/io/pivotal/migration/Ssc327MigrationConfig.java:96-99 | no dominant label is dominated by another rule |
| LabelRules.RemovalTriggersKept | src/main/java/io/pivotal/migration/Ssc327MigrationConfig.java:101-110 | no removal pattern matches another rule's trigger |
| LabelRules.TriggersNeverSuperseded | src/main/java/io/pivotal/migration/Ssc327MigrationConfig.java:96-110 | no removal trigger is the dominated label of a supersede rule, so the supersede pass never hides a trigger from the removal pass |
| LabelRules.RemovalMatchesDominants | src/main/java/io/pivotal/migration/Ssc327MigrationConfig.java:96-102 | the triage removal pattern does match the dominant labels bug and task, so "no removal pattern matches a dominant label" is not a property of this configuration |
| IssueLabels.DocumentationNeverContributed | src/main/java/io/pivotal/migration/Ssc327MigrationConfig.java:97 | no handler contributes `type: documentation` for any issue or "has" factory, so the rule that task supersedes documentation never fires and documentation is never in the final labels |
| LabelRules.ConfigSinglePassSafe | src/main/java/io/pivotal/migration/Ssc327MigrationConfig.java:96-110 | the configured rules are single-pass safe |
| LabelRules.ResolvedExact | src/main/java/io/pivotal/migration/Ssc327MigrationConfig.java:96-110 | the configured resolution, characterised label by label on any contributed set |
| LabelRules.ResolvedIdempotent | src/main/java/io/pivotal/migration/Ssc327MigrationConfig.java:96-110 | the configured resolution is a fixed point after one application |
| LabelRules.UntouchedLabel | src/main/java/io/pivotal/migration/Ssc327MigrationConfig.java:96-110 | a label that is not a `type: ` label, not waiting-for-feedback and not in-progress survives iff present |
| LabelRules.SupersedeOutcomes | src/main/java/io/pivotal/migration/Ssc327MigrationConfig.java:96-99 | for each rule: its dominant label survives the pass iff present, so no rule removes it; its dominated label survives iff present without the dominant label |
| LabelRules.TriageExcludesFeedbackAndProgress | src/main/java/io/pivotal/migration/Ssc327MigrationConfig.java:98-99 | with waiting-for-triage in the result, neither waiting-for-feedback nor in-progress is |
| LabelRules.InProgressOutcome | src/main/java/io/pivotal/migration/Ssc327MigrationConfig.java:99 | in-progress survives iff it is present and waiting-for-triage is not |
| LabelRules.BugSupersedesRegression | src/main/java/io/pivotal/migration/Ssc327MigrationConfig.java:96 | a bug label present before the removal pass means no regression label in the result |
| LabelRules.TriggersNeverRemoved | src/main/java/io/pivotal/migration/Ssc327MigrationConfig.java:101-110 | every removal trigger is in the result iff it was contributed |
| LabelRules.TriageOrInvalidDropsTypes | src/main/java/io/pivotal/migration/Ssc327MigrationConfig.java:101-104 | with waiting-for-triage or invalid in the result, no label in the result starts with `type: ` |
| LabelRules.DeclinedOrDuplicateDropsBugs | src/main/java/io/pivotal/migration/Ssc327MigrationConfig.java:105-110 | with declined or duplicate in the result, neither bug nor regression is |
| IssueLabels.TriageLabel | src/main/java/io/pivotal/migration/Ssc327MigrationConfig.java:75-85 | an issue ends up waiting for triage iff it has neither resolution nor fix version, or one of its versions is "Waiting for Triage" |
| IssueLabels.IdealForContributionLabel | src/main/java/io/pivotal/migration/Ssc327MigrationConfig.java:76 | an issue ends up ideal-for-contribution iff one of its versions is "Contributions Welcome" |
| IssueLabels.InProgressLabel | src/main/java/io/pivotal/migration/Ssc327MigrationConfig.java:87-99 | an issue ends up in-progress iff its status is "In Progress" and it does not end up waiting for triage |
| IssueLabels.VotesLabel | src/main/java/io/pivotal/migration/Ssc327MigrationConfig.java:90-91 | the votes label is in the result iff the issue has at least 10 votes |
| IssueLabels.BackportsLabel | src/main/java/io/pivotal/migration/Ssc327MigrationConfig.java:93-94 | the backports label is in the result iff the issue has backport versions |
| IssueLabels.WontFixBugIsDeclined | src/main/java/io/pivotal/migration/Ssc327MigrationConfig.java:63 | a bug closed as "Won't Fix" (no versions, Jira labels or 10 votes) gets exactly `status: declined` |
| IssueLabels.WontFixOutcome | src/main/java/io/pivotal/migration/Ssc327MigrationConfig.java:106 | declined drops bug and is itself kept |
| IssueLabels.UntriagedRegressionWaitsForTriage | src/main/java/io/pivotal/migration/Ssc327MigrationConfig.java:78-102 | an open, unresolved bug tagged "Regression", with no versions and fewer than 10 votes, gets exactly `status: waiting-for-triage` |
| IssueLabels.UntriagedRegressionOutcome | src/main/java/io/pivotal/migration/Ssc327MigrationConfig.java:96-102 | bug supersedes regression, then triage drops bug; triage is kept |
| IssueProcessors.DropAssignee | src/main/java/io/pivotal/migration/Ssc327MigrationConfig.java:128-138 | the assignee is cleared iff the main fix version's name contains "Backlog", or the labels contain waiting-for-triage or ideal-for-contribution. Otherwise it is unchanged. Title, body, labels and comments never change |
| IssueProcessors.DropAssigneeIdempotent | src/main/java/io/pivotal/migration/Ssc327MigrationConfig.java:128-138 | running the import hook twice gives what running it once gives |
| IssueProcessors.ShortenDescription | src/main/java/io/pivotal/migration/Ssc327MigrationConfig.java:148-152 | for "SPR-7640", the description becomes its first 1000 characters plus "...", 1003 in all, and the step fails when it is shorter than 1000. Every other issue is untouched, and no other field ever changes |
| IssueProcessors.ShortenDescriptionIdempotent | src/main/java/io/pivotal/migration/Ssc327MigrationConfig.java:148-152 | shortening an already shortened issue changes nothing |
| IssueProcessors.ConversionChangesOnlyDescription | src/main/java/io/pivotal/migration/Ssc327MigrationConfig.java:115-153 | for any processor sequence, a successful conversion changes at most the description |
| IssueProcessors.ImportOnlyDropsAssignee | src/main/java/io/pivotal/migration/Ssc327MigrationConfig.java:115-138 | for any processor sequence, the import request keeps its comments, title, body and labels, and its assignee is kept or cleared |
| IssueProcessors.BeforeConversion | src/main/java/io/pivotal/migration/Ssc327MigrationConfig.java:145-153 | the conversion hook of each processor; only the SPR-7640 one acts; characterised through `IssueProcessors.ConfiguredConversion` and `IssueProcessors.ShortenDescription` |
| IssueProcessors.BeforeImport | src/main/java/io/pivotal/migration/Ssc327MigrationConfig.java:121-138 | the import hook of each processor; only the assignee-dropping one acts; characterised through `IssueProcessors.ConfiguredImport` and `IssueProcessors.DropAssignee` |
| IssueProcessors.RunBeforeConversion | src/main/java/io/pivotal/migration/Ssc327MigrationConfig.java:115-118 | the composite runs every conversion hook in order and stops at the first failure; characterised by `IssueProcessors.ConversionChangesOnlyDescription` and `IssueProcessors.ConfiguredConversion` |
| IssueProcessors.RunBeforeImport | src/main/java/io/pivotal/migration/Ssc327MigrationConfig.java:115-118 | the composite runs every import hook in order; characterised by `IssueProcessors.ImportOnlyDropsAssignee` and `IssueProcessors.ConfiguredImport` |
| IssueProcessors.ConfiguredConversion | src/main/java/io/pivotal/migration/Ssc327MigrationConfig.java:115-118 | the registered composite converts exactly as the SPR-7640 processor does |
| IssueProcessors.ConfiguredImport | src/main/java/io/pivotal/migration/Ssc327MigrationConfig.java:115-118 | the registered composite prepares the import exactly as the assignee-dropping processor does |
| IssueProcessors.ConversionKeepsLabels | src/main/java/io/pivotal/migration/Ssc327MigrationConfig.java:145-153 | the labels of an issue are the same before and after conversion |
| IssueProcessors.ImportDropsAssigneeOfUnownedIssues | src/main/java/io/pivotal/migration/Ssc327MigrationConfig.java:128-138 | when the request carries the configured labels, the assignee ends up cleared iff at least one of these holds: it already was; the issue is untriaged; it has the "Waiting for Triage" or "Contributions Welcome" version; its main fix version names a backlog |
| IssueProcessors.BacklogVersionDropsAssignee | src/test/java/io/pivotal/migration/IssueProcessorTests.java:48-69 | any main fix version whose name contains "Backlog" clears the assignee |
| IssueProcessors.GeneralBacklogDropsAssignee | src/test/java/io/pivotal/migration/IssueProcessorTests.java:37-40 | "General Backlog" clears the assignee |
| IssueProcessors.MajorBacklogDropsAssignee | src/test/java/io/pivotal/migration/IssueProcessorTests.java:42-45 | "t.x Backlog" clears the assignee |
| IssueProcessors.StatusLabelsDropAssignee | src/test/java/io/pivotal/migration/IssueProcessorTests.java:71-100 | a request labelled waiting-for-triage or ideal-for-contribution loses its assignee |
| IssueProcessors.OtherIssuesKeepAssignee | src/main/java/io/pivotal/migration/Ssc327MigrationConfig.java:132-137 | a non-backlog version with only a bug label keeps the assignee |
| Strings.IndexOf | src/main/java/io/pivotal/migration/Ssc327MigrationConfig.java:132 | the scan returns the first occurrence at or after the start, or -1 exactly when there is none |
| Strings.ContainsText | src/main/java/io/pivotal/migration/Ssc327MigrationConfig.java:132 | `contains` is true exactly when the text occurs somewhere |

## Left out

- `JiraReporter`, the `Milestone` record and `MilestoneServiceFixed` are not part of this model. They are reporting, a plain data holder, and GitHub HTTP calls.
- The Spring bean wiring is left out. The beans are the constants and functions of `MigrationConfig` and `IssueProcessors.Processors`.
- The prefix of the "has" label factory is not visible, so it is a parameter.
- IssueLabels.VotesLabel: requires that the "has" prefix does not make the votes label start with `type: `. Otherwise triage and invalid would remove it.
- IssueLabels.BackportsLabel: the same requirement, for the backports label.
- The internals of the field-value handler, the composite label handler, the label factories and the Jira and GitHub issue classes are not part of this model. They follow the semantics the configuration implies:
  - the union, then one ordered supersede pass, then one ordered removal pass;
  - a removal rule never removes its own trigger;
  - the version field covers every fix version.
- Null fields are not modelled, and neither are the null-reference failures they would cause: a null key (`getKey().equals` at line 149), a null main fix version name (`getName().contains` at line 132), a null status (`getStatus().getName()` at line 88), a null issue type, and a null description (line 151).
- Strings are sequences of Dafny characters, not UTF-16 code units. So `substring(0, 1000)` counts characters, not code units.
- GitHub labels are a set. The processor only asks whether a label is present.
- The failure of `substring` on a description shorter than 1000 characters is a `Failure` result. The conversion composite stops at the first failure, the way the exception would propagate.
