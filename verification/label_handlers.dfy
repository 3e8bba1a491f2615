/**
 * Label factories and the two kinds of label handler the migration wires
 * together: the table-driven field-value handler and the predicate handler.
 * A label is identified by its fully qualified name, so labels are strings.
 */
module LabelHandlers {

  import opened Wrappers
  import opened Strings
  import opened Jira

  /** A label factory qualifies a short name with its category prefix. */
  datatype LabelFactory = Prefixed(prefix: string) {

    function Apply(name: string): (qualified: string)
      ensures StartsWith(qualified, prefix)
      ensures |qualified| == |prefix| + |name| && qualified[|prefix|..] == name
    {
      prefix + name
    }
  }

  /** The factory for "type: ..." labels. */
  const TypeLabel := Prefixed("type: ")

  /** The factory for "status: ..." labels. */
  const StatusLabel := Prefixed("status: ")

  /** The issue fields a mapping can key on; `JiraLabel` is a free-form Jira label. */
  datatype FieldKind = IssueType | Resolution | Status | Version | JiraLabel

  /** The factory a mapping uses when its registration names none. */
  function DefaultFactory(kind: FieldKind): Option<LabelFactory> {
    match kind
    case IssueType => Some(TypeLabel)
    case Resolution => Some(StatusLabel)
    case Status => Some(StatusLabel)
    case _ => None
  }

  /** A registered mapping: the short label name and the factory that qualifies it. */
  datatype Mapping = Mapping(name: string, factory: LabelFactory) {

    function Label(): string {
      factory.Apply(name)
    }
  }

  /** At most one mapping per (field kind, field value) pair. */
  type MappingTable = map<(FieldKind, string), Mapping>

  /**
   * Registers `value` of `kind` as giving `factory.Apply(name)`; a later
   * registration for the same pair replaces the earlier one.
   */
  function AddMappingWith(table: MappingTable, kind: FieldKind, value: string, name: string, factory: LabelFactory): MappingTable {
    table[(kind, value) := Mapping(name, factory)]
  }

  /** Registers a mapping with the default factory of its field kind. */
  function AddMapping(table: MappingTable, kind: FieldKind, value: string, name: string): MappingTable
    requires DefaultFactory(kind).Some?
  {
    AddMappingWith(table, kind, value, name, DefaultFactory(kind).value)
  }

  /** The label the table assigns to one field value, if any. */
  function Lookup(table: MappingTable, kind: FieldKind, value: string): Option<string> {
    if (kind, value) in table then Some(table[(kind, value)].Label()) else None
  }

  /**
   * The (kind, value) pairs of an issue the table-driven handler consults:
   * its type, its resolution when set, its status, the name of every fix
   * version and every Jira label.
   */
  function FieldValues(issue: JiraIssue): set<(FieldKind, string)> {
    {(IssueType, issue.issueType), (Status, issue.status)}
    + (if issue.resolution.Some? then {(Resolution, issue.resolution.value)} else {})
    + (set v | v in AllVersions(issue) :: (Version, v.name))
    + (set t | t in issue.labels :: (JiraLabel, t))
  }

  /** The table-driven handler: the label of every field value that has a mapping. */
  function FieldLabels(table: MappingTable, issue: JiraIssue): set<string> {
    set key | key in FieldValues(issue) && key in table :: table[key].Label()
  }

  /** The conditions the predicate handlers test. */
  datatype Condition =
    | Untriaged                      // no resolution and no fix version
    | StatusIs(name: string)
    | VotesAtLeast(threshold: int)
    | HasBackports

  predicate Holds(condition: Condition, issue: JiraIssue) {
    match condition
    case Untriaged => issue.resolution.None? && issue.fixVersion.None?
    case StatusIs(name) => issue.status == name
    case VotesAtLeast(threshold) => issue.votes >= threshold
    case HasBackports => |issue.backportVersions| > 0
  }

  /** A label handler computes candidate labels for one issue. */
  datatype LabelHandler =
    | FieldValueHandler(table: MappingTable)
    | PredicateHandler(labelName: string, condition: Condition)

  function HandlerLabels(handler: LabelHandler, issue: JiraIssue): set<string> {
    match handler
    case FieldValueHandler(table) => FieldLabels(table, issue)
    case PredicateHandler(name, condition) => if Holds(condition, issue) then {name} else {}
  }

  /** Two issues that differ at most in key and description. */
  predicate SameButKeyAndDescription(a: JiraIssue, b: JiraIssue) {
    a.(key := b.key, description := b.description) == b
  }

  /** No handler looks at the key or the description of an issue. */
  lemma HandlersIgnoreKeyAndDescription(a: JiraIssue, b: JiraIssue)
    requires SameButKeyAndDescription(a, b)
    ensures forall h :: HandlerLabels(h, a) == HandlerLabels(h, b)
  {
    assert FieldValues(a) == FieldValues(b);
  }

}
