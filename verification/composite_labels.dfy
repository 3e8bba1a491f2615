/**
 * The composite label handler: the union of every handler's contribution,
 * then one pass over the supersede rules, then one pass over the removal
 * rules.
 */
module CompositeLabels {

  import opened Strings
  import opened Jira
  import opened LabelHandlers

  /** When both labels are present, `dominated` is dropped. */
  datatype Supersede = Supersede(dominant: string, dominated: string)

  /** The label predicates removal rules use. */
  datatype LabelPattern = StartsWithText(prefix: string) | EqualsText(text: string)

  predicate Matches(pattern: LabelPattern, l: string) {
    match pattern
    case StartsWithText(prefix) => StartsWith(l, prefix)
    case EqualsText(text) => l == text
  }

  /** When `trigger` is present, every other label matching `pattern` is dropped. */
  datatype Removal = Removal(trigger: string, pattern: LabelPattern)

  datatype CompositeHandler = CompositeHandler(
    handlers: seq<LabelHandler>,
    supersedes: seq<Supersede>,
    removals: seq<Removal>)

  // ---------------------------------------------------------------------
  // Contribution
  // ---------------------------------------------------------------------

  /** Every handler's labels, unioned in registration order. */
  function Contributions(handlers: seq<LabelHandler>, issue: JiraIssue): set<string>
    decreases |handlers|
  {
    if handlers == [] then {}
    else HandlerLabels(handlers[0], issue) + Contributions(handlers[1..], issue)
  }

  /** A label is contributed exactly when some registered handler yields it. */
  lemma {:induction false} ContributionsExact(handlers: seq<LabelHandler>, issue: JiraIssue)
    ensures forall l :: l in Contributions(handlers, issue) <==> exists h :: h in handlers && l in HandlerLabels(h, issue)
    decreases |handlers|
  {
    if handlers != [] {
      ContributionsExact(handlers[1..], issue);
      assert forall h :: h in handlers <==> h == handlers[0] || h in handlers[1..];
    }
  }

  /** Unrolls the union one handler at a time, from handler `i` on. */
  lemma ContributionsFrom(handlers: seq<LabelHandler>, i: nat, issue: JiraIssue)
    requires i <= |handlers|
    ensures Contributions(handlers[i..], issue) ==
      if i == |handlers| then {} else HandlerLabels(handlers[i], issue) + Contributions(handlers[i + 1..], issue)
  {
    if i < |handlers| {
      assert handlers[i..][1..] == handlers[i + 1..];
    }
  }

  /** Registration order does not matter: only which handlers are registered does. */
  lemma ContributionsOrderFree(hs1: seq<LabelHandler>, hs2: seq<LabelHandler>, issue: JiraIssue)
    requires forall h :: h in hs1 <==> h in hs2
    ensures Contributions(hs1, issue) == Contributions(hs2, issue)
  {
    ContributionsExact(hs1, issue);
    ContributionsExact(hs2, issue);
  }

  /** Issues on which every handler agrees get the same contributions. */
  lemma {:induction false} ContributionsAgree(handlers: seq<LabelHandler>, a: JiraIssue, b: JiraIssue)
    requires forall h :: h in handlers ==> HandlerLabels(h, a) == HandlerLabels(h, b)
    ensures Contributions(handlers, a) == Contributions(handlers, b)
    decreases |handlers|
  {
    if handlers != [] {
      assert handlers[0] in handlers;
      assert forall h :: h in handlers[1..] ==> h in handlers;
      ContributionsAgree(handlers[1..], a, b);
    }
  }

  // ---------------------------------------------------------------------
  // Supersede pass
  // ---------------------------------------------------------------------

  function SupersedeOnce(rule: Supersede, s: set<string>): set<string> {
    if rule.dominant in s && rule.dominated in s then s - {rule.dominated} else s
  }

  /** Some rule names `l` as its dominated label. */
  predicate IsDominated(rules: seq<Supersede>, l: string) {
    exists rule :: rule in rules && rule.dominated == l
  }

  /** The supersede rules, each applied once, in order. */
  function ApplySupersedes(rules: seq<Supersede>, s: set<string>): (r: set<string>)
    ensures r <= s
    ensures forall l :: l in s && l !in r ==> IsDominated(rules, l)
    decreases |rules|
  {
    if rules == [] then s
    else
      assert forall rule :: rule in rules[1..] ==> rule in rules;
      ApplySupersedes(rules[1..], SupersedeOnce(rules[0], s))
  }

  /** No dominant label of one rule is the dominated label of another, so rules never chain. */
  predicate NoChaining(rules: seq<Supersede>) {
    forall r1, r2 :: r1 in rules && r2 in rules ==> r1.dominant != r2.dominated
  }

  /** `l` is dropped by some rule whose dominant label is present in `s`. */
  ghost predicate Superseded(rules: seq<Supersede>, s: set<string>, l: string) {
    exists rule :: rule in rules && rule.dominated == l && rule.dominant in s
  }

  /**
   * Without chaining the single pass keeps exactly the labels of `s` that
   * no rule with a present dominant label supersedes.
   */
  lemma {:induction false} SupersedesExact(rules: seq<Supersede>, s: set<string>)
    requires NoChaining(rules)
    ensures forall l :: l in ApplySupersedes(rules, s) <==> l in s && !Superseded(rules, s, l)
    decreases |rules|
  {
    if rules != [] {
      var head, rest := rules[0], rules[1..];
      assert forall rule :: rule in rules <==> rule == head || rule in rest;
      var s1 := SupersedeOnce(head, s);
      SupersedesExact(rest, s1);
      forall rule | rule in rest
        ensures rule.dominant in s1 <==> rule.dominant in s
      {
        assert rule.dominant != head.dominated;
      }
      forall l
        ensures l in ApplySupersedes(rules, s) <==> l in s && !Superseded(rules, s, l)
      {
        assert Superseded(rest, s1, l) <==> Superseded(rest, s, l);
      }
    }
  }

  // ---------------------------------------------------------------------
  // Removal pass
  // ---------------------------------------------------------------------

  function RemoveOnce(rule: Removal, s: set<string>): set<string> {
    if rule.trigger in s then set l | l in s && (l == rule.trigger || !Matches(rule.pattern, l)) else s
  }

  /** The removal rules, each applied once, in order. */
  function ApplyRemovals(rules: seq<Removal>, s: set<string>): (r: set<string>)
    ensures r <= s
    ensures forall l :: l in s && l !in r ==>
      exists rule :: rule in rules && rule.trigger in s && rule.trigger != l && Matches(rule.pattern, l)
    decreases |rules|
  {
    if rules == [] then s
    else
      assert forall rule :: rule in rules[1..] ==> rule in rules;
      ApplyRemovals(rules[1..], RemoveOnce(rules[0], s))
  }

  /** No rule's pattern matches the trigger of a rule with a different trigger, so triggers survive. */
  predicate TriggersKept(rules: seq<Removal>) {
    forall r1, r2 :: r1 in rules && r2 in rules && Matches(r2.pattern, r1.trigger) ==> r2.trigger == r1.trigger
  }

  /** `l` matches some rule whose trigger is present in `s` and is not that trigger. */
  ghost predicate Removed(rules: seq<Removal>, s: set<string>, l: string) {
    exists rule :: rule in rules && rule.trigger in s && rule.trigger != l && Matches(rule.pattern, l)
  }

  /** When triggers survive, the single pass keeps exactly the labels no present trigger removes. */
  lemma {:induction false} RemovalsExact(rules: seq<Removal>, s: set<string>)
    requires TriggersKept(rules)
    ensures forall l :: l in ApplyRemovals(rules, s) <==> l in s && !Removed(rules, s, l)
    decreases |rules|
  {
    if rules != [] {
      var head, rest := rules[0], rules[1..];
      assert forall rule :: rule in rules <==> rule == head || rule in rest;
      var s1 := RemoveOnce(head, s);
      RemovalsExact(rest, s1);
      forall rule | rule in rest
        ensures rule.trigger in s1 <==> rule.trigger in s
      {
        assert Matches(head.pattern, rule.trigger) ==> head.trigger == rule.trigger;
      }
      forall l
        ensures l in ApplyRemovals(rules, s) <==> l in s && !Removed(rules, s, l)
      {
        assert Removed(rest, s1, l) <==> Removed(rest, s, l);
      }
    }
  }

  // ---------------------------------------------------------------------
  // The composite
  // ---------------------------------------------------------------------

  /** The conflict resolution: supersede pass, then removal pass. */
  function Resolve(supersedes: seq<Supersede>, removals: seq<Removal>, s: set<string>): (r: set<string>)
    ensures r <= s
  {
    ApplyRemovals(removals, ApplySupersedes(supersedes, s))
  }

  /** The final label set of one issue: only ever a subset of what the handlers contribute. */
  function ComputeLabels(c: CompositeHandler, issue: JiraIssue): (r: set<string>)
    ensures r <= Contributions(c.handlers, issue)
  {
    Resolve(c.supersedes, c.removals, Contributions(c.handlers, issue))
  }

  /**
   * The configuration property that makes one pass enough: supersede rules
   * do not chain, removal triggers survive the removal pass, and no removal
   * trigger is ever superseded.
   */
  predicate SinglePassSafe(supersedes: seq<Supersede>, removals: seq<Removal>) {
    && NoChaining(supersedes)
    && TriggersKept(removals)
    && forall rm, sp :: rm in removals && sp in supersedes ==> rm.trigger != sp.dominated
  }

  /** For single-pass-safe rules the resolution is characterised label by label. */
  lemma ResolveExact(supersedes: seq<Supersede>, removals: seq<Removal>, s: set<string>)
    requires SinglePassSafe(supersedes, removals)
    ensures forall l :: l in Resolve(supersedes, removals, s) <==>
      l in s && !Superseded(supersedes, s, l) && !Removed(removals, s, l)
  {
    var s1 := ApplySupersedes(supersedes, s);
    SupersedesExact(supersedes, s);
    RemovalsExact(removals, s1);
    forall rm | rm in removals
      ensures rm.trigger in s1 <==> rm.trigger in s
    {
    }
    forall l
      ensures Removed(removals, s1, l) <==> Removed(removals, s, l)
    {
    }
  }

  /** A single pass reaches a fixed point: resolving an already resolved set changes nothing. */
  lemma ResolveIdempotent(supersedes: seq<Supersede>, removals: seq<Removal>, s: set<string>)
    requires SinglePassSafe(supersedes, removals)
    ensures Resolve(supersedes, removals, Resolve(supersedes, removals, s)) == Resolve(supersedes, removals, s)
  {
    var r := Resolve(supersedes, removals, s);
    ResolveExact(supersedes, removals, s);
    ResolveExact(supersedes, removals, r);
    forall l | l in r
      ensures !Superseded(supersedes, r, l) && !Removed(removals, r, l)
    {
      assert !Superseded(supersedes, s, l);
      assert !Removed(removals, s, l);
    }
  }

}
