/**
  Forward and reverse RBAC lookup (`tools/rbac.py`): the joins behind
  `_render_subject_report` and `_render_rule_report`, as rows rather than rendered tables.
*/
module Rbac {
  import opened Foundations
  import opened Text

  datatype Subject = Subject(kind: string, name: string)

  /** Empty `apiGroups` means the core group, as `rule.get("apiGroups") or [""]`. */
  datatype Rule = Rule(verbs: seq<string>, resources: seq<string>, apiGroups: seq<string>)

  datatype Role = Role(kind: string, namespace: string, name: string, rules: seq<Rule>)

  datatype Binding = Binding(
    kind: string, namespace: string, name: string, roleKind: string, roleName: string, subjects: seq<Subject>)

  /** An axis that is None is not filtered on; so is an empty verb or resource. */
  datatype Query = Query(verb: Option<string>, resource: Option<string>, apiGroup: Option<string>)

  datatype Cluster = Cluster(
    clusterRoles: seq<Role>, roles: seq<Role>, clusterBindings: seq<Binding>, bindings: seq<Binding>)

  // ----- Matching ------------------------------------------------------------------------

  predicate SubjectMatches(s: Subject, needle: string)
  {
    var n := Strip(needle);
    n != "" && (s.name == n || s.kind + ":" + s.name == n)
  }

  predicate Asked(axis: Option<string>) { axis.Some? && axis.value != "" }

  predicate RuleMatches(rule: Rule, q: Query)
  {
    var groups := if rule.apiGroups == [] then [""] else rule.apiGroups;
    && (Asked(q.verb) ==> q.verb.value in rule.verbs || "*" in rule.verbs)
    && (Asked(q.resource) ==> q.resource.value in rule.resources || "*" in rule.resources)
    && (q.apiGroup.Some? ==> q.apiGroup.value in groups || "*" in groups)
  }

  function MatchingRules(rules: seq<Rule>, q: Query): seq<Rule>
  {
    if rules == [] then []
    else (if RuleMatches(rules[0], q) then [rules[0]] else []) + MatchingRules(rules[1..], q)
  }

  /** Position of the first role with this kind and name. */
  function FindRole(kind: string, name: string, roles: seq<Role>): Option<nat>
  {
    if roles == [] then None
    else if roles[0].name == name && roles[0].kind == kind && kind in ["ClusterRole", "Role"] then Some(0)
    else match FindRole(kind, name, roles[1..])
      case Some(i) => Some(i + 1)
      case None => None
  }

  // ----- Scope ------------------------------------------------------------------------------

  function InNamespace<T>(items: seq<T>, namespaceOf: T -> string, namespace: string): seq<T>
  {
    if items == [] then []
    else
      (if namespaceOf(items[0]) == namespace then [items[0]] else [])
      + InNamespace(items[1..], namespaceOf, namespace)
  }

  /**
    What `analyze_rbac` loads. An empty namespace is not None, so no cluster-scoped objects are
    added, but the client drops it from the request and lists every namespace.
  */
  function RolesInScope(c: Cluster, namespace: Option<string>): seq<Role> {
    match namespace
    case None => c.clusterRoles + c.roles
    case Some(ns) => if ns == "" then c.roles else InNamespace(c.roles, (r: Role) => r.namespace, ns)
  }

  function BindingsInScope(c: Cluster, namespace: Option<string>): seq<Binding> {
    match namespace
    case None => c.clusterBindings + c.bindings
    case Some(ns) => if ns == "" then c.bindings else InNamespace(c.bindings, (b: Binding) => b.namespace, ns)
  }

  lemma {:induction false} InNamespaceOnly<T>(items: seq<T>, namespaceOf: T -> string, namespace: string)
    ensures forall x <- InNamespace(items, namespaceOf, namespace) :: x in items && namespaceOf(x) == namespace
  {
    if items != [] { InNamespaceOnly(items[1..], namespaceOf, namespace); }
  }

  // ----- The two reports -----------------------------------------------------------------------

  /** One matched binding of the forward report, with the position of its role. */
  datatype ForwardRow = ForwardRow(binding: nat, role: Option<nat>)

  /** One edge of the reverse report: subject via binding via role, with how many rules match. */
  datatype ReverseRow = ReverseRow(subject: Subject, binding: nat, role: nat, matched: nat)

  method SubjectReport(needle: string, roles: seq<Role>, bindings: seq<Binding>) returns (rows: seq<ForwardRow>)
    ensures forall r :: r in rows <==> ForwardLists(needle, roles, bindings, r)
    ensures forall i, j | 0 <= i < j < |rows| :: rows[i].binding < rows[j].binding
  {
    rows := [];
    for b := 0 to |bindings|
      invariant forall r :: r in rows <==> r.binding < b && ForwardLists(needle, roles, bindings, r)
      invariant forall i, j | 0 <= i < j < |rows| :: rows[i].binding < rows[j].binding
      invariant forall i | 0 <= i < |rows| :: rows[i].binding < b
    {
      var hit := false;
      var s := 0;
      while s < |bindings[b].subjects| && !hit
        invariant 0 <= s <= |bindings[b].subjects|
        invariant hit <==> exists k | 0 <= k < s :: SubjectMatches(bindings[b].subjects[k], needle)
      {
        if SubjectMatches(bindings[b].subjects[s], needle) { hit := true; }
        s := s + 1;
      }
      if hit {
        var row := ForwardRow(b, FindRole(bindings[b].roleKind, bindings[b].roleName, roles));
        rows := rows + [row];
      }
    }
  }

  ghost predicate ForwardLists(needle: string, roles: seq<Role>, bindings: seq<Binding>, r: ForwardRow)
  {
    && r.binding < |bindings|
    && (exists k | 0 <= k < |bindings[r.binding].subjects| :: SubjectMatches(bindings[r.binding].subjects[k], needle))
    && r.role == FindRole(bindings[r.binding].roleKind, bindings[r.binding].roleName, roles)
  }

  ghost predicate ReverseLists(q: Query, roles: seq<Role>, bindings: seq<Binding>, namespace: Option<string>, r: ReverseRow)
  {
    && r.role < |roles| && r.binding < |bindings|
    && r.matched == |MatchingRules(roles[r.role].rules, q)| > 0
    && bindings[r.binding].roleKind == roles[r.role].kind && bindings[r.binding].roleName == roles[r.role].name
    && (namespace.Some? ==> bindings[r.binding].namespace == namespace.value)
    && r.subject in bindings[r.binding].subjects
  }

  /** How often the report shows `r`: once per mention of the subject in the binding. */
  ghost function TimesListed(q: Query, roles: seq<Role>, bindings: seq<Binding>, namespace: Option<string>, r: ReverseRow): nat {
    if ReverseLists(q, roles, bindings, namespace, r) then multiset(bindings[r.binding].subjects)[r.subject] else 0
  }

  predicate RolesThenBindings(rows: seq<ReverseRow>) {
    forall i, j | 0 <= i < j < |rows| ::
      rows[i].role < rows[j].role || (rows[i].role == rows[j].role && rows[i].binding <= rows[j].binding)
  }

  /** The binding leads to the role, in scope. */
  predicate Reaches(b: Binding, role: Role, namespace: Option<string>) {
    b.roleKind == role.kind && b.roleName == role.name && (namespace.Some? ==> b.namespace == namespace.value)
  }

  function Edges(subjects: seq<Subject>, b: nat, i: nat, matched: nat): seq<ReverseRow>
  {
    if subjects == [] then []
    else Edges(subjects[..|subjects| - 1], b, i, matched) + [ReverseRow(subjects[|subjects| - 1], b, i, matched)]
  }

  function RowsOfRole(role: Role, bindings: seq<Binding>, namespace: Option<string>, i: nat, matched: nat): seq<ReverseRow>
  {
    if bindings == [] then []
    else
      var b := |bindings| - 1;
      RowsOfRole(role, bindings[..b], namespace, i, matched)
      + if Reaches(bindings[b], role, namespace) then Edges(bindings[b].subjects, b, i, matched) else []
  }

  function RowsOfRoles(q: Query, roles: seq<Role>, bindings: seq<Binding>, namespace: Option<string>): seq<ReverseRow>
  {
    if roles == [] then []
    else
      var i := |roles| - 1;
      var matched := |MatchingRules(roles[i].rules, q)|;
      RowsOfRoles(q, roles[..i], bindings, namespace)
      + if matched == 0 then [] else RowsOfRole(roles[i], bindings, namespace, i, matched)
  }

  method RuleReport(q: Query, roles: seq<Role>, bindings: seq<Binding>, namespace: Option<string>) returns (rows: seq<ReverseRow>)
    ensures forall r :: multiset(rows)[r] == TimesListed(q, roles, bindings, namespace, r)
    ensures forall r :: r in rows <==> ReverseLists(q, roles, bindings, namespace, r)
    ensures RolesThenBindings(rows)
  {
    hide RowsOfRole, RolesThenBindings, ReverseLists, TimesListed;
    rows := [];
    for i := 0 to |roles|
      invariant rows == RowsOfRoles(q, roles[..i], bindings, namespace)
    {
      assert roles[..i + 1][..i] == roles[..i];
      var matched := MatchingRules(roles[i].rules, q);
      if |matched| > 0 {
        var found := RoleReport(roles[i], bindings, namespace, i, |matched|);
        rows := rows + found;
      }
    }
    assert roles[..|roles|] == roles;
    RowsAreListed(q, roles, bindings, namespace);
  }

  /** The loops over bindings and subjects for one role. */
  method RoleReport(role: Role, bindings: seq<Binding>, namespace: Option<string>, i: nat, matched: nat) returns (rows: seq<ReverseRow>)
    ensures rows == RowsOfRole(role, bindings, namespace, i, matched)
  {
    rows := [];
    for b := 0 to |bindings|
      invariant rows == RowsOfRole(role, bindings[..b], namespace, i, matched)
    {
      assert bindings[..b + 1][..b] == bindings[..b];
      if bindings[b].roleKind != role.kind || bindings[b].roleName != role.name { continue; }
      if namespace.Some? && bindings[b].namespace != namespace.value { continue; }
      rows := AppendEdges(rows, bindings[b].subjects, b, i, matched);
    }
    assert bindings[..|bindings|] == bindings;
  }

  method AppendEdges(before: seq<ReverseRow>, subjects: seq<Subject>, b: nat, i: nat, matched: nat) returns (rows: seq<ReverseRow>)
    ensures rows == before + Edges(subjects, b, i, matched)
  {
    rows := before;
    for s := 0 to |subjects|
      invariant rows == before + Edges(subjects[..s], b, i, matched)
    {
      assert subjects[..s + 1][..s] == subjects[..s];
      rows := rows + [ReverseRow(subjects[s], b, i, matched)];
    }
    assert subjects[..|subjects|] == subjects;
  }

  lemma RowsAreListed(q: Query, roles: seq<Role>, bindings: seq<Binding>, namespace: Option<string>)
    ensures
      var rows := RowsOfRoles(q, roles, bindings, namespace);
      && (forall r :: multiset(rows)[r] == TimesListed(q, roles, bindings, namespace, r))
      && (forall r :: r in rows <==> ReverseLists(q, roles, bindings, namespace, r))
      && RolesThenBindings(rows)
  {
    var rows := RowsOfRoles(q, roles, bindings, namespace);
    forall r ensures multiset(rows)[r] == TimesListed(q, roles, bindings, namespace, r) {
      RowsOfRolesCounted(q, roles, bindings, namespace, r);
    }
    forall r ensures r in rows <==> ReverseLists(q, roles, bindings, namespace, r) {
      assert r in rows <==> multiset(rows)[r] > 0;
    }
    RowsOfRolesOrdered(q, roles, bindings, namespace);
  }

  lemma {:induction false} EdgesOfBinding(subjects: seq<Subject>, b: nat, i: nat, matched: nat, r: ReverseRow)
    ensures multiset(Edges(subjects, b, i, matched))[r] ==
            if r == ReverseRow(r.subject, b, i, matched) then multiset(subjects)[r.subject] else 0
  {
    if subjects != [] {
      var front, last := subjects[..|subjects| - 1], subjects[|subjects| - 1];
      EdgesOfBinding(front, b, i, matched, r);
      assert subjects == front + [last];
    }
  }

  /** How often `r` comes from role `i` with `matched` matching rules. */
  ghost function TimesVia(role: Role, bindings: seq<Binding>, namespace: Option<string>, i: nat, matched: nat, r: ReverseRow): nat {
    if r == ReverseRow(r.subject, r.binding, i, matched) && r.binding < |bindings| && Reaches(bindings[r.binding], role, namespace)
    then multiset(bindings[r.binding].subjects)[r.subject]
    else 0
  }

  lemma {:induction false} RowsOfRoleCounted(
    role: Role, bindings: seq<Binding>, namespace: Option<string>, i: nat, matched: nat, r: ReverseRow)
    ensures multiset(RowsOfRole(role, bindings, namespace, i, matched))[r] == TimesVia(role, bindings, namespace, i, matched, r)
  {
    if bindings != [] {
      var b := |bindings| - 1;
      RowsOfRoleCounted(role, bindings[..b], namespace, i, matched, r);
      EdgesOfBinding(bindings[b].subjects, b, i, matched, r);
      hide Reaches, Edges;
    }
  }

  lemma {:induction false} RowsOfRolesCounted(q: Query, roles: seq<Role>, bindings: seq<Binding>, namespace: Option<string>, r: ReverseRow)
    ensures multiset(RowsOfRoles(q, roles, bindings, namespace))[r] == TimesListed(q, roles, bindings, namespace, r)
  {
    hide RowsOfRole, MatchingRules, TimesVia;
    if roles != [] {
      hide TimesListed;
      var i := |roles| - 1;
      var matched := |MatchingRules(roles[i].rules, q)|;
      RowsOfRolesCounted(q, roles[..i], bindings, namespace, r);
      RowsOfRoleCounted(roles[i], bindings, namespace, i, matched, r);
      TimesListedSplits(q, roles, bindings, namespace, r);
    }
  }

  /** An edge comes from an earlier role or from the last one. */
  lemma TimesListedSplits(q: Query, roles: seq<Role>, bindings: seq<Binding>, namespace: Option<string>, r: ReverseRow)
    requires roles != []
    ensures
      var i := |roles| - 1;
      var matched := |MatchingRules(roles[i].rules, q)|;
      TimesListed(q, roles, bindings, namespace, r) ==
        TimesListed(q, roles[..i], bindings, namespace, r)
        + if matched == 0 then 0 else TimesVia(roles[i], bindings, namespace, i, matched, r)
  {
    var i := |roles| - 1;
    hide MatchingRules;
    if r.role < i {
      assert roles[..i][r.role] == roles[r.role];
    }
  }

  lemma {:induction false} EdgesOrdered(subjects: seq<Subject>, b: nat, i: nat, matched: nat)
    ensures RolesThenBindings(Edges(subjects, b, i, matched))
    ensures forall r <- Edges(subjects, b, i, matched) :: r.role == i && r.binding == b
  {
    if subjects != [] { EdgesOrdered(subjects[..|subjects| - 1], b, i, matched); }
  }

  lemma {:induction false} RowsOfRoleOrdered(role: Role, bindings: seq<Binding>, namespace: Option<string>, i: nat, matched: nat)
    ensures RolesThenBindings(RowsOfRole(role, bindings, namespace, i, matched))
    ensures forall r <- RowsOfRole(role, bindings, namespace, i, matched) :: r.role == i && r.binding < |bindings|
  {
    if bindings != [] {
      var b := |bindings| - 1;
      RowsOfRoleOrdered(role, bindings[..b], namespace, i, matched);
      EdgesOrdered(bindings[b].subjects, b, i, matched);
      hide Edges;
    }
  }

  lemma {:induction false} RowsOfRolesOrdered(q: Query, roles: seq<Role>, bindings: seq<Binding>, namespace: Option<string>)
    ensures RolesThenBindings(RowsOfRoles(q, roles, bindings, namespace))
    ensures forall r <- RowsOfRoles(q, roles, bindings, namespace) :: r.role < |roles|
  {
    if roles != [] {
      var i := |roles| - 1;
      RowsOfRolesOrdered(q, roles[..i], bindings, namespace);
      RowsOfRoleOrdered(roles[i], bindings, namespace, i, |MatchingRules(roles[i].rules, q)|);
      hide RowsOfRole, MatchingRules;
    }
  }

  // ----- Duality ----------------------------------------------------------------------------------

  /** Roles live in a namespace, ClusterRoles do not. */
  predicate RealRole(r: Role) {
    if r.kind == "Role" then r.namespace != "" else r.kind == "ClusterRole" && r.namespace == ""
  }

  /** A ClusterRoleBinding can refer only to a ClusterRole. */
  predicate RealBinding(b: Binding) {
    if b.kind == "RoleBinding" then b.namespace != "" && b.roleKind in ["ClusterRole", "Role"]
    else b.kind == "ClusterRoleBinding" && b.namespace == "" && b.roleKind == "ClusterRole"
  }

  predicate ProperRoles(roles: seq<Role>) {
    forall i | 0 <= i < |roles| :: RealRole(roles[i])
  }

  predicate ProperBindings(bindings: seq<Binding>) {
    forall i | 0 <= i < |bindings| :: RealBinding(bindings[i])
  }

  lemma {:induction false} FindRoleIsFirst(kind: string, name: string, roles: seq<Role>)
    requires ProperRoles(roles)
    ensures
      match FindRole(kind, name, roles)
      case Some(i) =>
        && i < |roles| && roles[i].kind == kind && roles[i].name == name
        && forall k | 0 <= k < i :: !(roles[k].kind == kind && roles[k].name == name)
      case None => forall k | 0 <= k < |roles| :: !(roles[k].kind == kind && roles[k].name == name)
  {
    if roles != [] {
      assert forall i | 0 <= i < |roles[1..]| :: roles[1..][i] == roles[i + 1];
      FindRoleIsFirst(kind, name, roles[1..]);
      assert forall k | 0 < k < |roles| :: roles[k] == roles[1..][k - 1];
    }
  }

  lemma {:induction false} SomeRuleMatches(rules: seq<Rule>, q: Query)
    ensures MatchingRules(rules, q) != [] <==> exists i | 0 <= i < |rules| :: RuleMatches(rules[i], q)
  {
    if rules != [] {
      SomeRuleMatches(rules[1..], q);
      if exists i | 0 <= i < |rules| :: RuleMatches(rules[i], q) {
        var i :| 0 <= i < |rules| && RuleMatches(rules[i], q);
        assert i > 0 ==> rules[1..][i - 1] == rules[i];
      }
      if exists i | 0 <= i < |rules[1..]| :: RuleMatches(rules[1..][i], q) {
        var i :| 0 <= i < |rules[1..]| && RuleMatches(rules[1..][i], q);
        assert rules[i + 1] == rules[1..][i];
      }
    }
  }

  /** The reverse report lists subject `s` via binding `b` and role `r`. */
  ghost predicate ReverseHas(q: Query, roles: seq<Role>, bindings: seq<Binding>, namespace: Option<string>, s: Subject, b: nat, r: nat)
  {
    exists m: nat :: ReverseLists(q, roles, bindings, namespace, ReverseRow(s, b, r, m))
  }

  /** The forward report for `needle` shows `b` resolving to `r`, which has a rule matching `q`, and `b` names `s`. */
  ghost predicate ForwardHas(q: Query, needle: string, roles: seq<Role>, bindings: seq<Binding>, s: Subject, b: nat, r: nat)
  {
    && ForwardLists(needle, roles, bindings, ForwardRow(b, Some(r)))
    && r < |roles| && (exists i | 0 <= i < |roles[r].rules| :: RuleMatches(roles[r].rules[i], q))
    && s in bindings[b].subjects
  }

  /** The reverse report is asked for a verb or a resource. */
  predicate Focused(q: Query) { Asked(q.verb) || Asked(q.resource) }

  predicate Grants(rule: Rule) {
    || (exists i | 0 <= i < |rule.verbs| :: rule.verbs[i] != "")
    || (exists i | 0 <= i < |rule.resources| :: rule.resources[i] != "")
  }

  predicate GrantsAnything(role: Role) {
    exists k | 0 <= k < |role.rules| :: Grants(role.rules[k])
  }

  /** Role `j` has the kind and name of an earlier role, which `_find_role` returns instead. */
  predicate Shadowed(roles: seq<Role>, j: nat)
    requires j < |roles|
  {
    exists i | 0 <= i < j :: roles[i].kind == roles[j].kind && roles[i].name == roles[j].name
  }

  predicate NoShadowedRole(roles: seq<Role>) {
    forall j | 0 <= j < |roles| && GrantsAnything(roles[j]) :: !Shadowed(roles, j)
  }

  lemma FocusedMatchGrants(rule: Rule, q: Query)
    requires Focused(q) && RuleMatches(rule, q)
    ensures Grants(rule)
  {
    if Asked(q.verb) {
      var v := if q.verb.value in rule.verbs then q.verb.value else "*";
      var i :| 0 <= i < |rule.verbs| && rule.verbs[i] == v;
    } else {
      var v := if q.resource.value in rule.resources then q.resource.value else "*";
      var i :| 0 <= i < |rule.resources| && rule.resources[i] == v;
    }
  }

  lemma ReverseIsForward(q: Query, needle: string, roles: seq<Role>, bindings: seq<Binding>, namespace: Option<string>, s: Subject, b: nat, r: nat)
    requires ProperRoles(roles) && NoShadowedRole(roles) && Focused(q) && SubjectMatches(s, needle)
    requires b < |bindings| && r < |roles|
    requires namespace.Some? ==> bindings[b].namespace == namespace.value
    ensures ReverseHas(q, roles, bindings, namespace, s, b, r) <==> ForwardHas(q, needle, roles, bindings, s, b, r)
  {
    SomeRuleMatches(roles[r].rules, q);
    FindRoleIsFirst(bindings[b].roleKind, bindings[b].roleName, roles);
    if ReverseHas(q, roles, bindings, namespace, s, b, r) {
      var k :| 0 <= k < |bindings[b].subjects| && bindings[b].subjects[k] == s;
      assert SubjectMatches(bindings[b].subjects[k], needle);
      var i :| 0 <= i < |roles[r].rules| && RuleMatches(roles[r].rules[i], q);
      FocusedMatchGrants(roles[r].rules[i], q);
      assert GrantsAnything(roles[r]) && !Shadowed(roles, r);
    }
    if ForwardHas(q, needle, roles, bindings, s, b, r) {
      assert ReverseLists(q, roles, bindings, namespace, ReverseRow(s, b, r, |MatchingRules(roles[r].rules, q)|));
    }
  }

  function Alice(): Subject { Subject("User", "alice") }

  function AliceBinding(role: Role): Binding {
    Binding(if role.kind == "Role" then "RoleBinding" else "ClusterRoleBinding", role.namespace, "b", role.kind, role.name, [Alice()])
  }

  /** A query that a granting rule matches. */
  lemma GrantedQuery(rule: Rule) returns (q: Query)
    requires Grants(rule)
    ensures Focused(q) && RuleMatches(rule, q)
  {
    if exists i | 0 <= i < |rule.verbs| :: rule.verbs[i] != "" {
      var i :| 0 <= i < |rule.verbs| && rule.verbs[i] != "";
      q := Query(Some(rule.verbs[i]), None, None);
    } else {
      var i :| 0 <= i < |rule.resources| && rule.resources[i] != "";
      q := Query(None, Some(rule.resources[i]), None);
    }
  }

  lemma ShadowedRoleBreaksDuality(roles: seq<Role>, j: nat, namespace: Option<string>) returns (q: Query)
    requires ProperRoles(roles) && j < |roles| && GrantsAnything(roles[j]) && Shadowed(roles, j)
    requires namespace.Some? ==> roles[j].namespace == namespace.value
    ensures Focused(q)
    ensures ReverseHas(q, roles, [AliceBinding(roles[j])], namespace, Alice(), 0, j)
    ensures !ForwardHas(q, "alice", roles, [AliceBinding(roles[j])], Alice(), 0, j)
  {
    var k :| 0 <= k < |roles[j].rules| && Grants(roles[j].rules[k]);
    q := GrantedQuery(roles[j].rules[k]);
    SomeRuleMatches(roles[j].rules, q);
    var bindings := [AliceBinding(roles[j])];
    assert Alice() in bindings[0].subjects;
    assert ReverseLists(q, roles, bindings, namespace, ReverseRow(Alice(), 0, j, |MatchingRules(roles[j].rules, q)|));
    FindRoleIsFirst(roles[j].kind, roles[j].name, roles);
  }

  /** The two reports agree on every subject and query. */
  ghost predicate ReportsAgree(roles: seq<Role>, bindings: seq<Binding>, namespace: Option<string>)
  {
    forall q, needle, s, b: nat, r: nat |
      Focused(q) && SubjectMatches(s, needle) && b < |bindings| && r < |roles| ::
      ReverseHas(q, roles, bindings, namespace, s, b, r) <==> ForwardHas(q, needle, roles, bindings, s, b, r)
  }

  lemma AliceTellsThemApart(roles: seq<Role>, j: nat, namespace: Option<string>, q: Query)
    requires j < |roles| && Focused(q)
    requires ReverseHas(q, roles, [AliceBinding(roles[j])], namespace, Alice(), 0, j)
         <==> !ForwardHas(q, "alice", roles, [AliceBinding(roles[j])], Alice(), 0, j)
    ensures !ReportsAgree(roles, [AliceBinding(roles[j])], namespace)
  {
    assert SubjectMatches(Alice(), "alice");
    var bindings := [AliceBinding(roles[j])];
    hide ReverseHas, ForwardHas, SubjectMatches;
    assert |bindings| == 1;
  }

  lemma UnshadowedReportsAgree(roles: seq<Role>, bindings: seq<Binding>, namespace: Option<string>)
    requires ProperRoles(roles) && NoShadowedRole(roles)
    requires namespace.Some? ==> forall b <- bindings :: b.namespace == namespace.value
    ensures ReportsAgree(roles, bindings, namespace)
  {
    hide ReverseHas, ForwardHas;
    forall q, needle, s, b: nat, r: nat |
      Focused(q) && SubjectMatches(s, needle) && b < |bindings| && r < |roles|
      ensures ReverseHas(q, roles, bindings, namespace, s, b, r) <==> ForwardHas(q, needle, roles, bindings, s, b, r)
    {
      ReverseIsForward(q, needle, roles, bindings, namespace, s, b, r);
    }
  }

  /**
    Cluster-wide, the two reports agree on every list of bindings a cluster can hold, subject
    and query, if and only if no role that grants anything hides behind an earlier role of the
    same kind and name.
  */
  lemma DualIff(roles: seq<Role>)
    requires ProperRoles(roles)
    ensures (forall bindings | ProperBindings(bindings) :: ReportsAgree(roles, bindings, None)) <==> NoShadowedRole(roles)
  {
    if NoShadowedRole(roles) {
      forall bindings | ProperBindings(bindings) ensures ReportsAgree(roles, bindings, None) {
        UnshadowedReportsAgree(roles, bindings, None);
      }
    } else {
      var j :| 0 <= j < |roles| && GrantsAnything(roles[j]) && Shadowed(roles, j);
      var q := ShadowedRoleBreaksDuality(roles, j, None);
      AliceTellsThemApart(roles, j, None, q);
      assert RealRole(roles[j]);
      assert ProperBindings([AliceBinding(roles[j])]);
    }
  }

  // ----- What analyze_rbac loads -----------------------------------------------------------------

  predicate WellFormed(c: Cluster) {
    && ProperRoles(c.clusterRoles) && (forall i | 0 <= i < |c.clusterRoles| :: c.clusterRoles[i].kind == "ClusterRole")
    && ProperRoles(c.roles) && (forall i | 0 <= i < |c.roles| :: c.roles[i].kind == "Role")
    && ProperBindings(c.clusterBindings)
    && (forall i | 0 <= i < |c.clusterBindings| :: c.clusterBindings[i].kind == "ClusterRoleBinding")
    && ProperBindings(c.bindings) && (forall i | 0 <= i < |c.bindings| :: c.bindings[i].kind == "RoleBinding")
  }

  lemma {:induction false} ScopedRolesAreRoles(roles: seq<Role>, namespace: string)
    requires ProperRoles(roles)
    ensures ProperRoles(InNamespace(roles, (r: Role) => r.namespace, namespace))
  {
    if roles != [] {
      assert RealRole(roles[0]) && forall i | 0 <= i < |roles[1..]| :: roles[1..][i] == roles[i + 1];
      ScopedRolesAreRoles(roles[1..], namespace);
    }
  }

  lemma RolesInScopeAreProper(c: Cluster, namespace: Option<string>)
    requires WellFormed(c)
    ensures ProperRoles(RolesInScope(c, namespace))
  {
    if namespace.Some? { ScopedRolesAreRoles(c.roles, namespace.value); }
  }

  /**
    The roles on which the reports for this namespace agree: nothing that grants is shadowed or,
    for the empty namespace, everything that grants is, since the forward report then covers
    every namespace and the reverse report drops every RoleBinding.
  */
  predicate AgreementCondition(roles: seq<Role>, namespace: Option<string>) {
    if namespace == Some("") then forall j | 0 <= j < |roles| && GrantsAnything(roles[j]) :: Shadowed(roles, j)
    else NoShadowedRole(roles)
  }

  lemma EmptyNamespaceReportsAgree(roles: seq<Role>, bindings: seq<Binding>)
    requires ProperRoles(roles) && AgreementCondition(roles, Some(""))
    requires forall b <- bindings :: b.namespace != ""
    ensures ReportsAgree(roles, bindings, Some(""))
  {
    forall q, needle, s, b: nat, r: nat |
      Focused(q) && SubjectMatches(s, needle) && b < |bindings| && r < |roles|
      ensures !ReverseHas(q, roles, bindings, Some(""), s, b, r) && !ForwardHas(q, needle, roles, bindings, s, b, r)
    {
      assert bindings[b].namespace != "";
      if ForwardHas(q, needle, roles, bindings, s, b, r) {
        var i :| 0 <= i < |roles[r].rules| && RuleMatches(roles[r].rules[i], q);
        FocusedMatchGrants(roles[r].rules[i], q);
        assert GrantsAnything(roles[r]) && Shadowed(roles, r);
        FindRoleIsFirst(bindings[b].roleKind, bindings[b].roleName, roles);
      }
    }
  }

  lemma GrantBreaksEmptyNamespace(roles: seq<Role>, j: nat) returns (q: Query)
    requires ProperRoles(roles) && j < |roles| && GrantsAnything(roles[j]) && !Shadowed(roles, j) && roles[j].kind == "Role"
    ensures Focused(q)
    ensures !ReverseHas(q, roles, [AliceBinding(roles[j])], Some(""), Alice(), 0, j)
    ensures ForwardHas(q, "alice", roles, [AliceBinding(roles[j])], Alice(), 0, j)
  {
    var k :| 0 <= k < |roles[j].rules| && Grants(roles[j].rules[k]);
    q := GrantedQuery(roles[j].rules[k]);
    var bindings := [AliceBinding(roles[j])];
    assert RealRole(roles[j]);
    assert SubjectMatches(bindings[0].subjects[0], "alice");
    FindRoleIsFirst(roles[j].kind, roles[j].name, roles);
  }

  /** The reports of `analyze_rbac` agree on a cluster whose roles meet the condition. */
  lemma AnalyzeRbacIsDual(c: Cluster, namespace: Option<string>)
    requires WellFormed(c) && AgreementCondition(RolesInScope(c, namespace), namespace)
    ensures ReportsAgree(RolesInScope(c, namespace), BindingsInScope(c, namespace), namespace)
  {
    RolesInScopeAreProper(c, namespace);
    var bindings := BindingsInScope(c, namespace);
    if namespace == Some("") {
      assert forall b <- bindings :: RealBinding(b) && b.kind == "RoleBinding";
      EmptyNamespaceReportsAgree(RolesInScope(c, namespace), bindings);
    } else {
      if namespace.Some? { InNamespaceOnly(c.bindings, (b: Binding) => b.namespace, namespace.value); }
      UnshadowedReportsAgree(RolesInScope(c, namespace), bindings, namespace);
    }
  }

  /** The cluster with these roles whose only binding gives Alice the role. */
  function WithAlice(clusterRoles: seq<Role>, roles: seq<Role>, role: Role): Cluster {
    if role.kind == "Role" then Cluster(clusterRoles, roles, [], [AliceBinding(role)])
    else Cluster(clusterRoles, roles, [AliceBinding(role)], [])
  }

  lemma WithAliceInScope(clusterRoles: seq<Role>, roles: seq<Role>, namespace: Option<string>, role: Role)
    requires WellFormed(Cluster(clusterRoles, roles, [], [])) && RealRole(role)
    requires role in RolesInScope(Cluster(clusterRoles, roles, [], []), namespace)
    ensures
      var c := WithAlice(clusterRoles, roles, role);
      && WellFormed(c)
      && RolesInScope(c, namespace) == RolesInScope(Cluster(clusterRoles, roles, [], []), namespace)
      && BindingsInScope(c, namespace) == [AliceBinding(role)]
      && (namespace.Some? && namespace != Some("") ==> role.namespace == namespace.value)
      && (namespace.Some? ==> role.kind == "Role")
  {
    var c := WithAlice(clusterRoles, roles, role);
    if namespace.Some? && namespace.value != "" {
      InNamespaceOnly(roles, (r: Role) => r.namespace, namespace.value);
      assert c.bindings == [AliceBinding(role)];
      assert InNamespace(c.bindings[1..], (b: Binding) => b.namespace, namespace.value) == [];
    }
  }

  /**
    For the given roles the two reports of `analyze_rbac` agree whatever bindings the cluster
    holds if and only if the condition on the roles in scope holds.
  */
  lemma AnalyzeRbacIsDualIff(clusterRoles: seq<Role>, roles: seq<Role>, namespace: Option<string>)
    requires WellFormed(Cluster(clusterRoles, roles, [], []))
    ensures
      (forall c: Cluster | c.clusterRoles == clusterRoles && c.roles == roles && WellFormed(c) ::
         ReportsAgree(RolesInScope(c, namespace), BindingsInScope(c, namespace), namespace))
      <==> AgreementCondition(RolesInScope(Cluster(clusterRoles, roles, [], []), namespace), namespace)
  {
    var inScope := RolesInScope(Cluster(clusterRoles, roles, [], []), namespace);
    RolesInScopeAreProper(Cluster(clusterRoles, roles, [], []), namespace);
    if AgreementCondition(inScope, namespace) {
      forall c: Cluster | c.clusterRoles == clusterRoles && c.roles == roles && WellFormed(c)
        ensures ReportsAgree(RolesInScope(c, namespace), BindingsInScope(c, namespace), namespace)
      {
        assert RolesInScope(c, namespace) == inScope;
        AnalyzeRbacIsDual(c, namespace);
      }
    } else {
      var c := DisagreeingCluster(clusterRoles, roles, namespace);
    }
  }

  lemma DisagreeingCluster(clusterRoles: seq<Role>, roles: seq<Role>, namespace: Option<string>) returns (c: Cluster)
    requires WellFormed(Cluster(clusterRoles, roles, [], []))
    requires !AgreementCondition(RolesInScope(Cluster(clusterRoles, roles, [], []), namespace), namespace)
    ensures c.clusterRoles == clusterRoles && c.roles == roles && WellFormed(c)
    ensures !ReportsAgree(RolesInScope(c, namespace), BindingsInScope(c, namespace), namespace)
  {
    var inScope := RolesInScope(Cluster(clusterRoles, roles, [], []), namespace);
    RolesInScopeAreProper(Cluster(clusterRoles, roles, [], []), namespace);
    var j :| 0 <= j < |inScope| && GrantsAnything(inScope[j]) && (Shadowed(inScope, j) <==> namespace != Some(""));
    assert RealRole(inScope[j]);
    WithAliceInScope(clusterRoles, roles, namespace, inScope[j]);
    c := WithAlice(clusterRoles, roles, inScope[j]);
    hide RolesInScope, BindingsInScope, WellFormed, ReportsAgree, ReverseHas, ForwardHas;
    var q;
    if namespace == Some("") {
      q := GrantBreaksEmptyNamespace(inScope, j);
    } else {
      q := ShadowedRoleBreaksDuality(inScope, j, namespace);
    }
    AliceTellsThemApart(inScope, j, namespace, q);
  }

  /** As the apiserver guarantees: one ClusterRole per name, one Role per namespace and name. */
  predicate UniqueNames(c: Cluster) {
    && DistinctRoles(c.clusterRoles)
    && DistinctRoles(c.roles)
  }

  predicate Differs(a: Role, b: Role) {
    a.namespace != b.namespace || a.name != b.name
  }

  predicate DistinctRoles(roles: seq<Role>) {
    forall i, j | 0 <= i < j < |roles| :: Differs(roles[i], roles[j])
  }

  lemma OneMoreDistinct(r: Role, roles: seq<Role>)
    requires DistinctRoles(roles) && forall x <- roles :: Differs(r, x)
    ensures DistinctRoles([r] + roles)
  {
    hide Differs;
    assert forall k | 0 <= k < |roles| :: roles[k] in roles;
  }

  lemma {:induction false} ScopedRolesAreDistinct(roles: seq<Role>, namespace: string)
    requires DistinctRoles(roles)
    ensures DistinctRoles(InNamespace(roles, (r: Role) => r.namespace, namespace))
  {
    if roles != [] {
      hide Differs;
      assert forall i | 0 <= i < |roles[1..]| :: roles[1..][i] == roles[i + 1];
      assert forall x <- roles[1..] :: Differs(roles[0], x);
      ScopedRolesAreDistinct(roles[1..], namespace);
      InNamespaceOnly(roles[1..], (r: Role) => r.namespace, namespace);
      hide DistinctRoles;
      OneMoreDistinct(roles[0], InNamespace(roles[1..], (r: Role) => r.namespace, namespace));
      assert [] + InNamespace(roles[1..], (r: Role) => r.namespace, namespace) == InNamespace(roles[1..], (r: Role) => r.namespace, namespace);
    }
  }

  /**
    On a cluster with unique names the reports scoped to one (non-empty) namespace always agree,
    and cluster-wide only namespaced Roles can be shadowed.
  */
  lemma ScopedReportsAgree(c: Cluster, namespace: Option<string>)
    requires WellFormed(c) && UniqueNames(c)
    ensures namespace.Some? && namespace.value != "" ==>
              ReportsAgree(RolesInScope(c, namespace), BindingsInScope(c, namespace), namespace)
    ensures namespace.None? ==>
              forall j | 0 <= j < |RolesInScope(c, None)| && Shadowed(RolesInScope(c, None), j) :: RolesInScope(c, None)[j].kind == "Role"
  {
    if namespace.Some? && namespace.value != "" {
      ScopedRolesAreDistinct(c.roles, namespace.value);
      InNamespaceOnly(c.roles, (r: Role) => r.namespace, namespace.value);
      var roles := RolesInScope(c, namespace);
      assert forall i | 0 <= i < |roles| :: roles[i] in roles;
      assert NoShadowedRole(roles);
      hide NoShadowedRole, RolesInScope, BindingsInScope, ReportsAgree, WellFormed;
      AnalyzeRbacIsDual(c, namespace);
    }
  }

  // ----- The match itself, spelled out ---------------------------------------------------------------

  /** A needle, blanks around it aside, matches the subject's name or its `kind:name`; an empty one nothing. */
  lemma SubjectMatchesIff(s: Subject, needle: string, before: string, behind: string)
    requires Trimmed(needle) && Blank(before) && Blank(behind)
    ensures SubjectMatches(s, before + needle + behind) <==>
              needle != "" && (s.name == needle || s.kind + ":" + s.name == needle)
  {
    StripPadded(before, needle, behind);
    hide Strip;
  }

  /** What one axis asks of a rule that lists `values`: nothing with a `*`, otherwise that it lists the value. */
  predicate AxisAllows(asked: Option<string>, values: seq<string>) {
    asked.None? || "*" in values || asked.value in values
  }

  /** An empty verb or resource asks for nothing, an empty API group asks for the core group. */
  function NonEmpty(axis: Option<string>): Option<string> {
    if axis == Some("") then None else axis
  }

  /** A rule matches exactly when all three axes allow it; a rule without groups is one for the core group. */
  lemma RuleMatchesIff(rule: Rule, q: Query)
    ensures RuleMatches(rule, q) <==>
              && AxisAllows(NonEmpty(q.verb), rule.verbs)
              && AxisAllows(NonEmpty(q.resource), rule.resources)
              && AxisAllows(q.apiGroup, if rule.apiGroups == [] then [""] else rule.apiGroups)
  {
  }

  /** An axis on which the rule holds `*` never filters. */
  lemma WildcardNeverFilters(rule: Rule, q: Query)
    ensures "*" in rule.verbs ==> (RuleMatches(rule, q) <==> RuleMatches(rule, q.(verb := None)))
    ensures "*" in rule.resources ==> (RuleMatches(rule, q) <==> RuleMatches(rule, q.(resource := None)))
    ensures "*" in rule.apiGroups ==> (RuleMatches(rule, q) <==> RuleMatches(rule, q.(apiGroup := None)))
    ensures "*" in rule.verbs && "*" in rule.resources && "*" in rule.apiGroups ==> RuleMatches(rule, q)
  {
  }

  /** The matching rules are exactly those, in order and once each; their number is the one shown. */
  lemma {:induction false} MatchingRulesAre(rules: seq<Rule>, q: Query) returns (ps: seq<nat>)
    ensures Selects(rules, (r: Rule) => RuleMatches(r, q), (r: Rule) => r, MatchingRules(rules, q), ps)
  {
    ps := [];
    if rules != [] {
      var n := |rules| - 1;
      ps := MatchingRulesAre(rules[..n], q);
      MatchingRulesOneMore(rules[..n], rules[n], q);
      assert rules == rules[..n] + [rules[n]];
      hide RuleMatches, MatchingRules;
      SelectsOneMore(rules[..n], rules[n], (r: Rule) => RuleMatches(r, q), (r: Rule) => r, MatchingRules(rules[..n], q), ps);
      hide Selects;
      if RuleMatches(rules[n], q) { ps := ps + [n]; }
    }
  }

  lemma {:induction false} MatchingRulesOneMore(rules: seq<Rule>, rule: Rule, q: Query)
    ensures MatchingRules(rules + [rule], q) == MatchingRules(rules, q) + if RuleMatches(rule, q) then [rule] else []
  {
    hide RuleMatches;
    if rules == [] {
      assert [] + [rule] == [rule] && [rule][1..] == [];
    } else {
      assert (rules + [rule])[0] == rules[0] && (rules + [rule])[1..] == rules[1..] + [rule];
      MatchingRulesOneMore(rules[1..], rule, q);
    }
  }

  /**
    Whoever is bound to a role with an all-`*` rule is listed for every query: exactly the
    subjects of the bindings in scope that refer to such a role by kind and name.
  */
  lemma ClusterAdminIsListed(q: Query, roles: seq<Role>, bindings: seq<Binding>, namespace: Option<string>, s: Subject, b: nat, r: nat, k: nat)
    requires r < |roles| && k < |roles[r].rules| && b < |bindings|
    requires
      var rule := roles[r].rules[k];
      "*" in rule.verbs && "*" in rule.resources && "*" in rule.apiGroups
    ensures ReverseHas(q, roles, bindings, namespace, s, b, r) <==>
              && bindings[b].roleKind == roles[r].kind && bindings[b].roleName == roles[r].name
              && (namespace.Some? ==> bindings[b].namespace == namespace.value)
              && s in bindings[b].subjects
  {
    WildcardNeverFilters(roles[r].rules[k], q);
    SomeRuleMatches(roles[r].rules, q);
    hide RuleMatches, MatchingRules;
    var m := |MatchingRules(roles[r].rules, q)|;
    if bindings[b].roleKind == roles[r].kind && bindings[b].roleName == roles[r].name
       && (namespace.Some? ==> bindings[b].namespace == namespace.value) && s in bindings[b].subjects {
      assert ReverseLists(q, roles, bindings, namespace, ReverseRow(s, b, r, m));
    }
  }

  /** What is loaded: everything cluster-wide, the namespaced objects for an empty namespace, else those of the one namespace. */
  lemma ScopeIs(c: Cluster, namespace: Option<string>, r: Role, b: Binding)
    ensures namespace.None? ==>
              && (r in RolesInScope(c, namespace) <==> r in c.clusterRoles || r in c.roles)
              && (b in BindingsInScope(c, namespace) <==> b in c.clusterBindings || b in c.bindings)
    ensures namespace.Some? ==>
              && (r in RolesInScope(c, namespace) <==> r in c.roles && (namespace.value == "" || r.namespace == namespace.value))
              && (b in BindingsInScope(c, namespace) <==> b in c.bindings && (namespace.value == "" || b.namespace == namespace.value))
  {
    if namespace.Some? {
      if r in c.roles && r.namespace == namespace.value { InNamespaceKeeps(c.roles, (x: Role) => x.namespace, namespace.value, r); }
      InNamespaceOnly(c.roles, (x: Role) => x.namespace, namespace.value);
      if b in c.bindings && b.namespace == namespace.value { InNamespaceKeeps(c.bindings, (x: Binding) => x.namespace, namespace.value, b); }
      InNamespaceOnly(c.bindings, (x: Binding) => x.namespace, namespace.value);
    }
  }

  lemma {:induction false} InNamespaceKeeps<T>(items: seq<T>, namespaceOf: T -> string, namespace: string, x: T)
    requires x in items && namespaceOf(x) == namespace
    ensures x in InNamespace(items, namespaceOf, namespace)
  {
    if items[0] != x { InNamespaceKeeps(items[1..], namespaceOf, namespace, x); }
  }

  // ----- Wider queries ---------------------------------------------------------------------------------

  /** `wide` asks for no more axes than `narrow`, and the same values on those it keeps. */
  predicate Wider(wide: Query, narrow: Query) {
    && (wide.verb.None? || wide.verb == narrow.verb)
    && (wide.resource.None? || wide.resource == narrow.resource)
    && (wide.apiGroup.None? || wide.apiGroup == narrow.apiGroup)
  }

  lemma {:induction false} WiderMatchesMore(rules: seq<Rule>, wide: Query, narrow: Query)
    requires Wider(wide, narrow)
    ensures |MatchingRules(rules, narrow)| <= |MatchingRules(rules, wide)|
    ensures forall r <- MatchingRules(rules, narrow) :: r in MatchingRules(rules, wide)
  {
    if rules != [] { WiderMatchesMore(rules[1..], wide, narrow); }
  }

  /** Dropping a query axis only enlarges the answer. */
  lemma DroppingAnAxisEnlarges(wide: Query, narrow: Query, roles: seq<Role>, bindings: seq<Binding>, namespace: Option<string>, s: Subject, b: nat, r: nat)
    requires Wider(wide, narrow) && ReverseHas(narrow, roles, bindings, namespace, s, b, r)
    ensures ReverseHas(wide, roles, bindings, namespace, s, b, r)
  {
    WiderMatchesMore(roles[r].rules, wide, narrow);
    assert ReverseLists(wide, roles, bindings, namespace, ReverseRow(s, b, r, |MatchingRules(roles[r].rules, wide)|));
  }
}
