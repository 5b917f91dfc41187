/** The record-store repository behind the proxy-RBAC handlers, table by table and row by row. */
module ProxyRepository {
  import opened Contracts
  import opened ProxyPolicies

  /** Lists a table and deletes the rows that qualify. */
  method DeleteWhere<V>(table: map<string, V>, drop: V -> bool) returns (out: map<string, V>)
    ensures out == map k | k in table && !drop(table[k]) :: table[k]
  {
    out := table;
    var pending := table.Keys;
    while pending != {}
      invariant pending <= table.Keys
      invariant out == map k | k in table && (k in pending || !drop(table[k])) :: table[k]
      decreases |pending|
    {
      var k :| k in pending;
      if drop(table[k]) {
        out := out - {k};
      }
      pending := pending - {k};
    }
  }

  method DeletePolicyRules(rules: map<string, Rule>, id: string) returns (out: map<string, Rule>)
    ensures out == WithoutPolicy(rules, id)
  {
    out := DeleteWhere(rules, (r: Rule) => r.policy == id);
  }

  method DeletePolicyAssignments(rows: map<string, Assignment>, id: string) returns (out: map<string, Assignment>)
    ensures out == WithoutPolicyAssignments(rows, id)
  {
    out := DeleteWhere(rows, (a: Assignment) => a.policy == id);
  }

  method DeleteRoleMembers(rows: map<string, Member>, id: string) returns (out: map<string, Member>)
    ensures out == WithoutRoleMembers(rows, id)
  {
    out := DeleteWhere(rows, (m: Member) => m.role == id);
  }

  method DeleteRoleTargets(rows: map<string, Assignment>, id: string) returns (out: map<string, Assignment>)
    ensures out == WithoutRoleTargets(rows, id)
  {
    out := DeleteWhere(rows, (a: Assignment) => a.targetType == "role" && a.target == id);
  }

  /** Lists a table and returns a row with the given contents. */
  method FindRow<V(==)>(table: map<string, V>, row: V) returns (id: Option<string>)
    ensures id.Some? ==> id.value in table && table[id.value] == row
    ensures id.Some? <==> row in table.Values
  {
    var pending := table.Keys;
    while pending != {}
      invariant pending <= table.Keys
      invariant forall k :: k in table && k !in pending ==> table[k] != row
      decreases |pending|
    {
      var k :| k in pending;
      if table[k] == row {
        return Some(k);
      }
      pending := pending - {k};
    }
    return None;
  }

  /** Creates a policy's rules one by one until an id is taken. */
  method CreateRules(rules: map<string, Rule>, policy: string, inputs: seq<RuleInput>)
      returns (out: map<string, Rule>, ok: bool)
    ensures Added(out, ok) == AddRules(rules, policy, inputs)
  {
    out := rules;
    for i := 0 to |inputs|
      invariant AddRules(out, policy, inputs[i..]) == AddRules(rules, policy, inputs)
    {
      var r := inputs[i];
      assert inputs[i..][1..] == inputs[i + 1..];
      if r.id in out {
        return out, false;
      }
      out := out[r.id := Rule(policy, r.service, r.actions)];
    }
    ok := true;
  }

  method SeedRuleRows(rules: map<string, Rule>, policy: string, inputs: seq<RuleInput>) returns (out: map<string, Rule>)
    ensures out == SeedRules(rules, policy, inputs)
  {
    out := rules;
    for i := 0 to |inputs|
      invariant SeedRules(out, policy, inputs[i..]) == SeedRules(rules, policy, inputs)
    {
      var r := inputs[i];
      assert inputs[i..][1..] == inputs[i + 1..];
      if r.id !in out {
        out := out[r.id := Rule(policy, r.service, r.actions)];
      }
    }
  }

  class Repository {
    var policies: map<string, Fields>
    var rules: map<string, Rule>
    var assignments: map<string, Assignment>
    var roles: map<string, Fields>
    var members: map<string, Member>
    var seeded: set<string>

    ghost function View(): State reads this { State(policies, rules, assignments, roles, members, seeded) }

    ghost predicate Valid() reads this { Inv(View()) }

    constructor ()
      ensures View() == EMPTY && Valid()
    {
      policies, rules, assignments, roles, members, seeded := map[], map[], map[], map[], map[], {};
    }

    method EnsureDefaultProxyPolicies(d: Defaults)
      requires Valid()
      modifies this`policies, this`rules, this`seeded
      ensures View() == SeedPolicies(old(View()), d) && Valid()
    {
      SeedPoliciesKeepsInv(View(), d);
      if SEED_PROXY_POLICIES in seeded {
        return;
      }
      seeded := seeded + {SEED_PROXY_POLICIES};
      if |policies| > 0 {
        return;
      }
      SeedPolicyTable(d);
    }

    method SeedPolicyTable(d: Defaults)
      modifies this`policies, this`rules
      ensures View() == SeedPolicyRows(old(View()), d.policies)
    {
      for i := 0 to |d.policies|
        invariant View() == SeedPolicyRows(old(View()), d.policies[..i])
      {
        SeedRowsStep(old(View()), d.policies, i);
        var p := d.policies[i];
        if p.id !in policies {
          policies := policies[p.id := p.data];
        }
        rules := SeedRuleRows(rules, p.id, p.rules);
      }
      assert d.policies[..|d.policies|] == d.policies;
    }

    method EnsureDefaultProxyRoles(d: Defaults)
      requires Valid()
      modifies this`roles, this`seeded
      ensures View() == SeedRoles(old(View()), d) && Valid()
    {
      SeedRolesKeepsInv(View(), d);
      if SEED_PROXY_ROLES in seeded {
        return;
      }
      seeded := seeded + {SEED_PROXY_ROLES};
      if |roles| > 0 {
        return;
      }
      SeedRoleTable(d);
    }

    method SeedRoleTable(d: Defaults)
      modifies this`roles
      ensures View() == SeedRoleRows(old(View()), d.roles)
    {
      for i := 0 to |d.roles|
        invariant View() == SeedRoleRows(old(View()), d.roles[..i])
      {
        assert d.roles[..i + 1][..i] == d.roles[..i];
        if d.roles[i].0 !in roles {
          roles := roles[d.roles[i].0 := d.roles[i].1];
        }
      }
      assert d.roles[..|d.roles|] == d.roles;
    }

    method EnsureDefaultProxyAssignments(d: Defaults)
      requires Valid() && DistinctRows(d.assignments)
      modifies this
      ensures View() == SeedAssignments(old(View()), d) && Valid()
    {
      SeedAssignmentsKeepsInv(View(), d);
      EnsureDefaultProxyPolicies(d);
      EnsureDefaultProxyRoles(d);
      if SEED_PROXY_ASSIGNMENTS in seeded {
        return;
      }
      seeded := seeded + {SEED_PROXY_ASSIGNMENTS};
      if |assignments| > 0 {
        return;
      }
      SeedAssignmentTable(d);
    }

    method SeedAssignmentTable(d: Defaults)
      modifies this`assignments
      ensures View() == SeedAssignmentRows(old(View()), d.assignments)
    {
      for i := 0 to |d.assignments|
        invariant View() == SeedAssignmentRows(old(View()), d.assignments[..i])
      {
        assert d.assignments[..i + 1][..i] == d.assignments[..i];
        var a := d.assignments[i];
        if a.row.policy in policies && (a.row.targetType != "role" || a.row.target in roles) {
          if a.id !in assignments {
            assignments := assignments[a.id := a.row];
          }
        }
      }
      assert d.assignments[..|d.assignments|] == d.assignments;
    }

    /** CreateProxyPolicyTx. */
    method CreateProxyPolicy(id: string, data: Fields, inputs: seq<RuleInput>, rollback: bool) returns (ok: bool)
      requires Valid()
      modifies this`policies, this`rules
      ensures View() == CreatePolicy(old(View()), id, data, inputs, rollback) && Valid()
      ensures ok <==> id !in old(policies) && AddRules(old(rules), id, inputs).ok
    {
      CreatePolicyKeepsInv(View(), id, data, inputs, rollback);
      if id in policies {
        return false;
      }
      var out;
      out, ok := CreateRules(rules, id, inputs);
      if ok || !rollback {
        policies, rules := policies[id := data], out;
      }
    }

    /** UpdateProxyPolicyTx. */
    method UpdateProxyPolicy(id: string, update: Fields, replacement: Option<seq<RuleInput>>, rollback: bool)
        returns (found: bool, ok: bool)
      requires Valid()
      modifies this`policies, this`rules
      ensures View() == UpdatePolicy(old(View()), id, update, replacement, rollback) && Valid()
      ensures found <==> id in old(policies)
      ensures ok <==> found && (replacement.Some? ==> AddRules(WithoutPolicy(old(rules), id), id, replacement.value).ok)
    {
      UpdatePolicyKeepsInv(View(), id, update, replacement, rollback);
      found, ok := id in policies, id in policies;
      if !found {
        return;
      }
      if replacement.None? {
        policies := policies[id := policies[id] + update];
        return;
      }
      var kept := DeletePolicyRules(rules, id);
      var out;
      out, ok := CreateRules(kept, id, replacement.value);
      if ok || !rollback {
        policies, rules := policies[id := policies[id] + update], out;
      }
    }

    /** DeleteProxyPolicyCascadeTx: looking the policy up seeds the default policies first. */
    method DeleteProxyPolicyCascade(id: string, d: Defaults) returns (found: bool)
      requires Valid()
      modifies this`policies, this`rules, this`assignments, this`seeded
      ensures View() == DeletePolicy(SeedPolicies(old(View()), d), id) && Valid()
      ensures found == (id in SeedPolicies(old(View()), d).policies)
    {
      EnsureDefaultProxyPolicies(d);
      DeletePolicyKeepsInv(View(), id);
      found := id in policies;
      if !found {
        return;
      }
      rules := DeletePolicyRules(rules, id);
      assignments := DeletePolicyAssignments(assignments, id);
      policies := policies - {id};
    }

    /** The assign handler: seeds all defaults, checks that the policy exists, then CreatePolicyAssignmentTx. */
    method AssignPolicy(a: Assignment, newId: string, d: Defaults) returns (created: bool)
      requires Valid() && DistinctRows(d.assignments)
      modifies this
      ensures View() == Assign(SeedAssignments(old(View()), d), a, newId) && Valid()
      ensures created <==> a !in SeedAssignments(old(View()), d).assignments.Values && a in assignments.Values
    {
      EnsureDefaultProxyAssignments(d);
      AssignmentKeepsInv(View(), a, newId);
      if a.policy !in policies {
        return false;
      }
      var existing := FindRow(assignments, a);
      if existing.Some? || newId in assignments {
        return false;
      }
      assignments := assignments[newId := a];
      assert assignments[newId] == a;
      created := true;
    }

    /** UnassignPolicyTx: one row is deleted, and no other row assigns the same policy to the same target. */
    method UnassignPolicy(a: Assignment) returns (found: bool)
      requires Valid()
      modifies this`assignments
      ensures View() == Unassign(old(View()), a) && Valid()
      ensures found == (a in old(assignments).Values) && a !in assignments.Values
    {
      AssignmentKeepsInv(View(), a, "");
      var existing := FindRow(assignments, a);
      found := existing.Some?;
      ghost var kept := Unassign(View(), a).assignments;
      if found {
        assert assignments - {existing.value} == kept;
        assignments := assignments - {existing.value};
      } else {
        assert assignments == kept;
      }
    }

    method CreateProxyRole(id: string, data: Fields) returns (ok: bool)
      requires Valid()
      modifies this`roles
      ensures View() == CreateRole(old(View()), id, data) && Valid() && ok == (id !in old(roles))
    {
      UpdateRoleKeepsInv(View(), id, data);
      ok := id !in roles;
      if ok {
        roles := roles[id := data];
      }
    }

    /** UpdateProxyRoleTx. */
    method UpdateProxyRole(id: string, update: Fields) returns (ok: bool)
      requires Valid()
      modifies this`roles
      ensures View() == UpdateRole(old(View()), id, update) && Valid() && ok == (id in old(roles))
    {
      UpdateRoleKeepsInv(View(), id, update);
      ok := id in roles;
      if ok {
        roles := roles[id := roles[id] + update];
      }
    }

    /** DeleteProxyRoleCascadeTx: looking the role up seeds the default roles first; a missing role is no error. */
    method DeleteProxyRoleCascade(id: string, d: Defaults)
      requires Valid()
      modifies this`roles, this`members, this`assignments, this`seeded
      ensures View() == DeleteRole(SeedRoles(old(View()), d), id) && Valid()
    {
      EnsureDefaultProxyRoles(d);
      DeleteRoleKeepsInv(View(), id);
      members := DeleteRoleMembers(members, id);
      assignments := DeleteRoleTargets(assignments, id);
      roles := roles - {id};
    }

    /** The handler that assigns a user: seeds the default roles, checks that the role exists, then CreateRoleUserTx. */
    method AssignRoleUser(m: Member, d: Defaults) returns (created: bool)
      requires Valid()
      modifies this`roles, this`members, this`seeded
      ensures View() == AddMember(SeedRoles(old(View()), d), m) && Valid()
      ensures created <==> m !in old(members).Values && m in members.Values
    {
      EnsureDefaultProxyRoles(d);
      MembershipKeepsInv(View(), m);
      if m.role !in roles {
        return false;
      }
      var existing := FindRow(members, m);
      var id := m.role + [':'] + m.user;
      if existing.Some? || id in members {
        return false;
      }
      members := members[id := m];
      assert members[id] == m;
      created := true;
    }

    /** UnassignRoleUserTx. */
    method UnassignRoleUser(m: Member) returns (found: bool)
      requires Valid()
      modifies this`members
      ensures View() == RemoveMember(old(View()), m) && Valid()
      ensures found == (m in old(members).Values) && m !in members.Values
    {
      MembershipKeepsInv(View(), m);
      var existing := FindRow(members, m);
      found := existing.Some?;
      ghost var kept := RemoveMember(View(), m).members;
      if found {
        assert members - {existing.value} == kept;
        members := members - {existing.value};
      } else {
        assert members == kept;
      }
    }
  }
}
