/**
 * The proxy-RBAC repository: policies with their rules, assignments of policies to roles and users, roles with their
 * members, and the markers that keep defaults from being seeded twice.
 */
module ProxyPolicies {
  import opened Contracts

  datatype Rule = Rule(policy: string, service: string, actions: seq<string>)
  datatype Assignment = Assignment(policy: string, targetType: string, target: string)
  datatype Member = Member(role: string, user: string)

  /** A rule as requested, with the id chosen for it. */
  datatype RuleInput = RuleInput(id: string, service: string, actions: seq<string>)

  datatype State = State(
    policies: map<string, Fields>,
    rules: map<string, Rule>,
    assignments: map<string, Assignment>,
    roles: map<string, Fields>,
    members: map<string, Member>,
    seeded: set<string>)

  const SEED_PROXY_POLICIES := "proxy-policies"
  const SEED_PROXY_ROLES := "proxy-roles"
  const SEED_PROXY_ASSIGNMENTS := "proxy-assignments"

  function MemberId(role: string, user: string): string { role + [':'] + user }

  ghost predicate RulesResolve(rules: map<string, Rule>, policies: set<string>) {
    forall k :: k in rules ==> rules[k].policy in policies
  }

  ghost predicate AssignmentsResolve(assignments: map<string, Assignment>, policies: set<string>) {
    forall k :: k in assignments ==> assignments[k].policy in policies
  }

  ghost predicate MembersResolve(members: map<string, Member>, roles: set<string>) {
    forall k :: k in members ==> members[k].role in roles
  }

  /** No two assignments of the same policy to the same target. */
  ghost predicate Unique(assignments: map<string, Assignment>) {
    forall j, k :: j in assignments && k in assignments && assignments[j] == assignments[k] ==> j == k
  }

  /** A membership is stored under its own id, so no pair is stored twice. */
  ghost predicate Keyed(members: map<string, Member>) {
    forall k :: k in members ==> k == MemberId(members[k].role, members[k].user)
  }

  /** References resolve, and pairs are unique. */
  ghost predicate Inv(s: State) {
    && RulesResolve(s.rules, s.policies.Keys)
    && AssignmentsResolve(s.assignments, s.policies.Keys)
    && MembersResolve(s.members, s.roles.Keys)
    && Unique(s.assignments)
    && Keyed(s.members)
  }

  // ---------------------------------------------------------------- policies and rules

  datatype Added = Added(rules: map<string, Rule>, ok: bool)

  /** Creates rules one by one; the first id already taken stops it. */
  function AddRules(rules: map<string, Rule>, policy: string, inputs: seq<RuleInput>): Added
    decreases |inputs|
  {
    if |inputs| == 0 then Added(rules, true)
    else if inputs[0].id in rules then Added(rules, false)
    else AddRules(rules[inputs[0].id := Rule(policy, inputs[0].service, inputs[0].actions)], policy, inputs[1..])
  }

  function WithoutPolicy(rules: map<string, Rule>, policy: string): map<string, Rule> {
    map k | k in rules && rules[k].policy != policy :: rules[k]
  }

  function WithoutPolicyAssignments(rows: map<string, Assignment>, policy: string): map<string, Assignment> {
    map k | k in rows && rows[k].policy != policy :: rows[k]
  }

  /** The rules of one policy. */
  function RulesOf(s: State, policy: string): map<string, Rule> {
    map k | k in s.rules && s.rules[k].policy == policy :: s.rules[k]
  }

  /** A transaction rolls back on a conflict; the in-memory store keeps what was written before it. */
  function CreatePolicy(s: State, id: string, data: Fields, inputs: seq<RuleInput>, rollback: bool): State {
    if id in s.policies then s
    else
      var added := AddRules(s.rules, id, inputs);
      if !added.ok && rollback then s else s.(policies := s.policies[id := data], rules := added.rules)
  }

  function UpdatePolicy(s: State, id: string, update: Fields, replacement: Option<seq<RuleInput>>, rollback: bool): State {
    if id !in s.policies then s
    else
      var updated := s.(policies := s.policies[id := s.policies[id] + update]);
      if replacement.None? then updated
      else
        var added := AddRules(WithoutPolicy(s.rules, id), id, replacement.value);
        if !added.ok && rollback then s else updated.(rules := added.rules)
  }

  function DeletePolicy(s: State, id: string): State {
    if id !in s.policies then s
    else s.(
      policies := s.policies - {id},
      rules := WithoutPolicy(s.rules, id),
      assignments := WithoutPolicyAssignments(s.assignments, id))
  }

  // ---------------------------------------------------------------- assignments, roles and members

  function Assign(s: State, a: Assignment, newId: string): State {
    if a.policy !in s.policies || a in s.assignments.Values || newId in s.assignments then s
    else s.(assignments := s.assignments[newId := a])
  }

  function Unassign(s: State, a: Assignment): State {
    s.(assignments := map k | k in s.assignments && s.assignments[k] != a :: s.assignments[k])
  }

  function CreateRole(s: State, id: string, data: Fields): State {
    if id in s.roles then s else s.(roles := s.roles[id := data])
  }

  function UpdateRole(s: State, id: string, update: Fields): State {
    if id in s.roles then s.(roles := s.roles[id := s.roles[id] + update]) else s
  }

  predicate TargetsRole(a: Assignment, id: string) { a.targetType == "role" && a.target == id }

  function WithoutRoleMembers(rows: map<string, Member>, id: string): map<string, Member> {
    map k | k in rows && rows[k].role != id :: rows[k]
  }

  function WithoutRoleTargets(rows: map<string, Assignment>, id: string): map<string, Assignment> {
    map k | k in rows && !TargetsRole(rows[k], id) :: rows[k]
  }

  /** Runs whether or not the role exists. */
  function DeleteRole(s: State, id: string): State {
    s.(
      roles := s.roles - {id},
      members := WithoutRoleMembers(s.members, id),
      assignments := WithoutRoleTargets(s.assignments, id))
  }

  function AddMember(s: State, m: Member): State {
    var id := MemberId(m.role, m.user);
    if m.role !in s.roles || m in s.members.Values || id in s.members then s
    else s.(members := s.members[id := m])
  }

  function RemoveMember(s: State, m: Member): State {
    s.(members := map k | k in s.members && s.members[k] != m :: s.members[k])
  }

  // ---------------------------------------------------------------- seeding

  datatype DefaultPolicy = DefaultPolicy(id: string, data: Fields, rules: seq<RuleInput>)
  datatype DefaultAssignment = DefaultAssignment(id: string, row: Assignment)
  datatype Defaults = Defaults(
    policies: seq<DefaultPolicy>, roles: seq<(string, Fields)>, assignments: seq<DefaultAssignment>)

  /** Default assignments are pairwise different. */
  predicate DistinctRows(rows: seq<DefaultAssignment>) {
    forall i, j :: 0 <= i < j < |rows| ==> rows[i].row != rows[j].row
  }

  /** seedCreate: a row whose id is taken is skipped. */
  function PutIfAbsent<V>(m: map<string, V>, k: string, v: V): map<string, V> { if k in m then m else m[k := v] }

  function SeedRules(rules: map<string, Rule>, policy: string, inputs: seq<RuleInput>): map<string, Rule>
    decreases |inputs|
  {
    if |inputs| == 0 then rules
    else SeedRules(PutIfAbsent(rules, inputs[0].id, Rule(policy, inputs[0].service, inputs[0].actions)), policy, inputs[1..])
  }

  function SeedRow(s: State, p: DefaultPolicy): State {
    s.(policies := PutIfAbsent(s.policies, p.id, p.data), rules := SeedRules(s.rules, p.id, p.rules))
  }

  function SeedPolicyRows(s: State, rows: seq<DefaultPolicy>): State {
    if |rows| == 0 then s
    else
      var before, p := SeedPolicyRows(s, rows[..|rows| - 1]), rows[|rows| - 1];
      SeedRow(before, p)
  }

  lemma {:induction false} SeedRowsStep(s: State, rows: seq<DefaultPolicy>, i: nat)
    requires i < |rows|
    ensures SeedPolicyRows(s, rows[..i + 1]) == SeedRow(SeedPolicyRows(s, rows[..i]), rows[i])
  {
    assert rows[..i + 1][..i] == rows[..i];
  }

  function SeedPolicies(s: State, d: Defaults): State {
    if SEED_PROXY_POLICIES in s.seeded then s
    else
      var marked := s.(seeded := s.seeded + {SEED_PROXY_POLICIES});
      if |s.policies| > 0 then marked else SeedPolicyRows(marked, d.policies)
  }

  function SeedRoleRows(s: State, rows: seq<(string, Fields)>): State {
    if |rows| == 0 then s
    else
      var before, r := SeedRoleRows(s, rows[..|rows| - 1]), rows[|rows| - 1];
      before.(roles := PutIfAbsent(before.roles, r.0, r.1))
  }

  function SeedRoles(s: State, d: Defaults): State {
    if SEED_PROXY_ROLES in s.seeded then s
    else
      var marked := s.(seeded := s.seeded + {SEED_PROXY_ROLES});
      if |s.roles| > 0 then marked else SeedRoleRows(marked, d.roles)
  }

  predicate Seedable(s: State, a: Assignment) {
    a.policy in s.policies && (a.targetType == "role" ==> a.target in s.roles)
  }

  function SeedAssignmentRows(s: State, rows: seq<DefaultAssignment>): State {
    if |rows| == 0 then s
    else
      var before, a := SeedAssignmentRows(s, rows[..|rows| - 1]), rows[|rows| - 1];
      if Seedable(before, a.row) then before.(assignments := PutIfAbsent(before.assignments, a.id, a.row)) else before
  }

  /** Seeds policies and roles first. */
  function SeedAssignments(s: State, d: Defaults): State {
    var ready := SeedRoles(SeedPolicies(s, d), d);
    if SEED_PROXY_ASSIGNMENTS in ready.seeded then ready
    else
      var marked := ready.(seeded := ready.seeded + {SEED_PROXY_ASSIGNMENTS});
      if |ready.assignments| > 0 then marked else SeedAssignmentRows(marked, d.assignments)
  }

  // ---------------------------------------------------------------- steps and runs

  datatype Op =
    | SeedPoliciesOp | SeedRolesOp | SeedAssignmentsOp
    | CreatePolicyOp(id: string, data: Fields, rules: seq<RuleInput>, rollback: bool)
    | UpdatePolicyOp(id: string, data: Fields, replacement: Option<seq<RuleInput>>, rollback: bool)
    | DeletePolicyOp(id: string)
    | AssignOp(a: Assignment, newId: string)
    | UnassignOp(a: Assignment)
    | CreateRoleOp(id: string, data: Fields)
    | UpdateRoleOp(id: string, data: Fields)
    | DeleteRoleOp(id: string)
    | AddMemberOp(m: Member)
    | RemoveMemberOp(m: Member)

  function Step(s: State, op: Op, d: Defaults): State {
    match op
    case SeedPoliciesOp => SeedPolicies(s, d)
    case SeedRolesOp => SeedRoles(s, d)
    case SeedAssignmentsOp => SeedAssignments(s, d)
    case CreatePolicyOp(id, data, rules, rollback) => CreatePolicy(s, id, data, rules, rollback)
    case UpdatePolicyOp(id, data, replacement, rollback) => UpdatePolicy(s, id, data, replacement, rollback)
    case DeletePolicyOp(id) => DeletePolicy(s, id)
    case AssignOp(a, newId) => Assign(s, a, newId)
    case UnassignOp(a) => Unassign(s, a)
    case CreateRoleOp(id, data) => CreateRole(s, id, data)
    case UpdateRoleOp(id, data) => UpdateRole(s, id, data)
    case DeleteRoleOp(id) => DeleteRole(s, id)
    case AddMemberOp(m) => AddMember(s, m)
    case RemoveMemberOp(m) => RemoveMember(s, m)
  }

  function Run(s: State, ops: seq<Op>, d: Defaults): State {
    if |ops| == 0 then s else Step(Run(s, ops[..|ops| - 1], d), ops[|ops| - 1], d)
  }

  const EMPTY := State(map[], map[], map[], map[], map[], {})

  // ---------------------------------------------------------------- every operation keeps the invariant

  lemma {:induction false} AddRulesFacts(rules: map<string, Rule>, policy: string, inputs: seq<RuleInput>)
    decreases |inputs|
    ensures var out := AddRules(rules, policy, inputs).rules;
      && (forall k :: k in rules ==> k in out && out[k] == rules[k])
      && (forall k :: k in out && k !in rules ==> out[k].policy == policy)
  {
    if |inputs| > 0 && inputs[0].id !in rules {
      AddRulesFacts(rules[inputs[0].id := Rule(policy, inputs[0].service, inputs[0].actions)], policy, inputs[1..]);
    }
  }

  lemma {:induction false} SeedRulesFacts(rules: map<string, Rule>, policy: string, inputs: seq<RuleInput>)
    decreases |inputs|
    ensures var out := SeedRules(rules, policy, inputs);
      && (forall k :: k in rules ==> k in out && out[k] == rules[k])
      && (forall k :: k in out && k !in rules ==> out[k].policy == policy)
  {
    if |inputs| > 0 {
      var next := PutIfAbsent(rules, inputs[0].id, Rule(policy, inputs[0].service, inputs[0].actions));
      SeedRulesFacts(next, policy, inputs[1..]);
    }
  }

  lemma {:induction false} SeedPolicyRowsKeepInv(s: State, rows: seq<DefaultPolicy>)
    requires Inv(s)
    ensures var t := SeedPolicyRows(s, rows);
      Inv(t) && t.(policies := s.policies, rules := s.rules) == s && s.policies.Keys <= t.policies.Keys
  {
    if |rows| > 0 {
      var init, p := rows[..|rows| - 1], rows[|rows| - 1];
      SeedPolicyRowsKeepInv(s, init);
      SeedRulesFacts(SeedPolicyRows(s, init).rules, p.id, p.rules);
    }
  }

  lemma {:induction false} SeedRoleRowsKeepInv(s: State, rows: seq<(string, Fields)>)
    requires Inv(s)
    ensures var t := SeedRoleRows(s, rows); Inv(t) && t.(roles := s.roles) == s
  {
    if |rows| > 0 {
      SeedRoleRowsKeepInv(s, rows[..|rows| - 1]);
    }
  }

  ghost predicate FromRows(assignments: map<string, Assignment>, rows: seq<DefaultAssignment>) {
    forall k :: k in assignments ==> exists i :: 0 <= i < |rows| && assignments[k] == rows[i].row
  }

  lemma {:induction false} PutRow(assignments: map<string, Assignment>, rows: seq<DefaultAssignment>, a: DefaultAssignment)
    requires Unique(assignments) && FromRows(assignments, rows) && DistinctRows(rows + [a])
    ensures var out := PutIfAbsent(assignments, a.id, a.row); Unique(out) && FromRows(out, rows + [a])
    ensures FromRows(assignments, rows + [a])
  {
    var all := rows + [a];
    assert all[|rows|] == a;
    forall k | k in assignments ensures assignments[k] != a.row && exists i :: 0 <= i < |all| && assignments[k] == all[i].row {
      var i :| 0 <= i < |rows| && assignments[k] == rows[i].row;
      assert all[i] == rows[i];
    }
  }

  lemma {:induction false} SeedRowKeepsInv(s: State, rows: seq<DefaultAssignment>, a: DefaultAssignment)
    requires Inv(s) && FromRows(s.assignments, rows) && DistinctRows(rows + [a]) && Seedable(s, a.row)
    ensures Inv(s.(assignments := PutIfAbsent(s.assignments, a.id, a.row)))
    ensures FromRows(PutIfAbsent(s.assignments, a.id, a.row), rows + [a])
  {
    PutRow(s.assignments, rows, a);
  }

  lemma {:induction false} SeedAssignmentRowsKeepInv(s: State, rows: seq<DefaultAssignment>)
    requires Inv(s) && |s.assignments| == 0 && DistinctRows(rows)
    ensures var t := SeedAssignmentRows(s, rows);
      Inv(t) && t.(assignments := s.assignments) == s && FromRows(t.assignments, rows)
  {
    if |rows| > 0 {
      var init, a := rows[..|rows| - 1], rows[|rows| - 1];
      assert rows == init + [a];
      SeedAssignmentRowsKeepInv(s, init);
      var before := SeedAssignmentRows(s, init);
      if Seedable(before, a.row) {
        SeedRowKeepsInv(before, init, a);
      } else {
        PutRow(before.assignments, init, a);
      }
    }
  }

  lemma {:induction false} SeedPoliciesKeepsInv(s: State, d: Defaults)
    requires Inv(s)
    ensures Inv(SeedPolicies(s, d))
  {
    SeedPolicyRowsKeepInv(s.(seeded := s.seeded + {SEED_PROXY_POLICIES}), d.policies);
  }

  lemma {:induction false} SeedRolesKeepsInv(s: State, d: Defaults)
    requires Inv(s)
    ensures Inv(SeedRoles(s, d))
  {
    SeedRoleRowsKeepInv(s.(seeded := s.seeded + {SEED_PROXY_ROLES}), d.roles);
  }

  lemma {:induction false} SeedAssignmentsKeepsInv(s: State, d: Defaults)
    requires Inv(s) && DistinctRows(d.assignments)
    ensures Inv(SeedAssignments(s, d))
  {
    SeedPoliciesKeepsInv(s, d);
    SeedRolesKeepsInv(SeedPolicies(s, d), d);
    var ready := SeedRoles(SeedPolicies(s, d), d);
    if |ready.assignments| == 0 {
      SeedAssignmentRowsKeepInv(ready.(seeded := ready.seeded + {SEED_PROXY_ASSIGNMENTS}), d.assignments);
    }
  }

  lemma {:induction false} CreatePolicyKeepsInv(s: State, id: string, data: Fields, inputs: seq<RuleInput>, rollback: bool)
    requires Inv(s)
    ensures Inv(CreatePolicy(s, id, data, inputs, rollback))
  {
    AddRulesFacts(s.rules, id, inputs);
  }

  lemma {:induction false} UpdatePolicyKeepsInv(s: State, id: string, data: Fields, rs: Option<seq<RuleInput>>, rollback: bool)
    requires Inv(s)
    ensures Inv(UpdatePolicy(s, id, data, rs, rollback))
  {
    if rs.Some? {
      AddRulesFacts(WithoutPolicy(s.rules, id), id, rs.value);
    }
    if id in s.policies {
      assert (s.policies[id := s.policies[id] + data]).Keys == s.policies.Keys;
    }
  }

  lemma {:induction false} DeletePolicyKeepsInv(s: State, id: string)
    requires Inv(s)
    ensures Inv(DeletePolicy(s, id))
  {
  }

  lemma {:induction false} UpdateRoleKeepsInv(s: State, id: string, data: Fields)
    requires Inv(s)
    ensures Inv(CreateRole(s, id, data)) && Inv(UpdateRole(s, id, data))
  {
    if id in s.roles {
      assert (s.roles[id := s.roles[id] + data]).Keys == s.roles.Keys;
    }
  }

  lemma {:induction false} DeleteRoleKeepsInv(s: State, id: string)
    requires Inv(s)
    ensures Inv(DeleteRole(s, id))
  {
  }

  lemma {:induction false} MembershipKeepsInv(s: State, m: Member)
    requires Inv(s)
    ensures Inv(AddMember(s, m)) && Inv(RemoveMember(s, m))
  {
  }

  lemma {:induction false} AssignmentKeepsInv(s: State, a: Assignment, newId: string)
    requires Inv(s)
    ensures Inv(Assign(s, a, newId)) && Inv(Unassign(s, a))
  {
  }

  lemma {:induction false} StepKeepsInv(s: State, op: Op, d: Defaults)
    requires Inv(s) && DistinctRows(d.assignments)
    ensures Inv(Step(s, op, d))
  {
    match op
    case SeedPoliciesOp => SeedPoliciesKeepsInv(s, d);
    case SeedRolesOp => SeedRolesKeepsInv(s, d);
    case SeedAssignmentsOp => SeedAssignmentsKeepsInv(s, d);
    case CreatePolicyOp(id, data, rules, rollback) => CreatePolicyKeepsInv(s, id, data, rules, rollback);
    case UpdatePolicyOp(id, data, replacement, rollback) => UpdatePolicyKeepsInv(s, id, data, replacement, rollback);
    case DeletePolicyOp(id) => DeletePolicyKeepsInv(s, id);
    case AssignOp(a, newId) => AssignmentKeepsInv(s, a, newId);
    case UnassignOp(a) => AssignmentKeepsInv(s, a, "");
    case CreateRoleOp(id, data) => UpdateRoleKeepsInv(s, id, data);
    case UpdateRoleOp(id, data) => UpdateRoleKeepsInv(s, id, data);
    case DeleteRoleOp(id) => DeleteRoleKeepsInv(s, id);
    case AddMemberOp(m) => MembershipKeepsInv(s, m);
    case RemoveMemberOp(m) => MembershipKeepsInv(s, m);
  }

  /** In every run from the empty store, references resolve and pairs are unique. */
  lemma {:induction false} RunKeepsInv(ops: seq<Op>, d: Defaults)
    requires DistinctRows(d.assignments)
    ensures Inv(Run(EMPTY, ops, d))
  {
    if |ops| > 0 {
      RunKeepsInv(ops[..|ops| - 1], d);
      StepKeepsInv(Run(EMPTY, ops[..|ops| - 1], d), ops[|ops| - 1], d);
    }
  }
}
