/** What runs of the proxy-RBAC repository guarantee beyond its invariant. */
module ProxyPolicyRuns {
  import opened Contracts
  import opened Text
  import opened ProxyPolicies

  // ---------------------------------------------------------------- rules of one policy

  predicate FreshIds(rules: map<string, Rule>, inputs: seq<RuleInput>) {
    && (forall i :: 0 <= i < |inputs| ==> inputs[i].id !in rules)
    && forall i, j :: 0 <= i < j < |inputs| ==> inputs[i].id != inputs[j].id
  }

  /** Creating rules succeeds exactly when their ids are new and different. */
  lemma {:induction false} AddRulesIff(rules: map<string, Rule>, policy: string, inputs: seq<RuleInput>)
    ensures AddRules(rules, policy, inputs).ok <==> FreshIds(rules, inputs)
    decreases |inputs|
  {
    if |inputs| > 0 && inputs[0].id !in rules {
      var next := rules[inputs[0].id := Rule(policy, inputs[0].service, inputs[0].actions)];
      AddRulesIff(next, policy, inputs[1..]);
      if FreshIds(next, inputs[1..]) {
        assert forall j :: 1 <= j < |inputs| ==> inputs[j] == inputs[1..][j - 1];
      }
    }
  }

  /** The rows the inputs ask for, and no others. */
  ghost predicate Exactly(rules: map<string, Rule>, policy: string, inputs: seq<RuleInput>) {
    && (forall i :: 0 <= i < |inputs| ==>
          inputs[i].id in rules && rules[inputs[i].id] == Rule(policy, inputs[i].service, inputs[i].actions))
    && forall k :: k in rules ==> exists i :: 0 <= i < |inputs| && inputs[i].id == k
  }

  lemma {:induction false} AddRulesContents(rules: map<string, Rule>, policy: string, inputs: seq<RuleInput>)
    requires AddRules(rules, policy, inputs).ok
    ensures var out := AddRules(rules, policy, inputs).rules;
      && (forall k :: k in rules ==> k in out && out[k] == rules[k])
      && (forall i :: 0 <= i < |inputs| ==>
            inputs[i].id in out && out[inputs[i].id] == Rule(policy, inputs[i].service, inputs[i].actions))
      && (forall k :: k in out && k !in rules ==> exists i :: 0 <= i < |inputs| && inputs[i].id == k)
    decreases |inputs|
  {
    if |inputs| > 0 {
      var next := rules[inputs[0].id := Rule(policy, inputs[0].service, inputs[0].actions)];
      var out := AddRules(rules, policy, inputs).rules;
      AddRulesContents(next, policy, inputs[1..]);
      forall i | 0 <= i < |inputs|
        ensures inputs[i].id in out && out[inputs[i].id] == Rule(policy, inputs[i].service, inputs[i].actions)
      {
        if i > 0 { assert inputs[i] == inputs[1..][i - 1]; }
      }
      forall k | k in out && k !in rules ensures exists i :: 0 <= i < |inputs| && inputs[i].id == k {
        if k != inputs[0].id {
          var i :| 0 <= i < |inputs[1..]| && inputs[1..][i].id == k;
          assert inputs[i + 1].id == k;
        }
      }
    }
  }

  /** Adding a policy's rules to rules of others gives it exactly those and leaves the others alone. */
  lemma {:induction false} AddedAreExact(s: State, base: map<string, Rule>, id: string, inputs: seq<RuleInput>)
    requires forall k :: k in base ==> base[k].policy != id
    requires AddRules(base, id, inputs).ok
    ensures Exactly(RulesOf(s.(rules := AddRules(base, id, inputs).rules), id), id, inputs)
    ensures forall q :: q != id ==> RulesOf(s.(rules := AddRules(base, id, inputs).rules), q) == RulesOf(s.(rules := base), q)
  {
    AddRulesContents(base, id, inputs);
    AddRulesFacts(base, id, inputs);
  }

  /** A new policy has exactly the rules it was created with and no assignment, whatever its id was used for before. */
  lemma {:induction false} CreatedPolicyStartsClean(s: State, id: string, data: Fields, inputs: seq<RuleInput>, rollback: bool)
    requires Inv(s) && id !in s.policies && FreshIds(s.rules, inputs)
    ensures var t := CreatePolicy(s, id, data, inputs, rollback);
      && id in t.policies && t.policies[id] == data
      && Exactly(RulesOf(t, id), id, inputs)
      && (forall k :: k in t.assignments ==> t.assignments[k].policy != id)
      && forall q :: q != id ==> RulesOf(t, q) == RulesOf(s, q)
  {
    AddRulesIff(s.rules, id, inputs);
    AddedAreExact(s.(policies := s.policies[id := data]), s.rules, id, inputs);
  }

  /** A creation that meets a taken id changes nothing in a transaction; without one other policies are still safe. */
  lemma {:induction false} FailedCreation(s: State, id: string, data: Fields, inputs: seq<RuleInput>, rollback: bool)
    requires id in s.policies || !FreshIds(s.rules, inputs)
    ensures var t := CreatePolicy(s, id, data, inputs, rollback);
      && (id in s.policies || rollback ==> t == s)
      && (id !in s.policies && !rollback ==> t.policies == s.policies[id := data])
      && (forall q :: q != id ==> RulesOf(t, q) == RulesOf(s, q)) && t.assignments == s.assignments
  {
    AddRulesIff(s.rules, id, inputs);
    AddRulesFacts(s.rules, id, inputs);
  }

  /** Replacing one policy's rules gives exactly the new ones and leaves every other policy's rules unchanged. */
  lemma {:induction false} ReplacementIsExact(s: State, id: string, update: Fields, inputs: seq<RuleInput>, rollback: bool)
    requires id in s.policies && FreshIds(WithoutPolicy(s.rules, id), inputs)
    ensures var t := UpdatePolicy(s, id, update, Some(inputs), rollback);
      && t.policies == s.policies[id := s.policies[id] + update]
      && Exactly(RulesOf(t, id), id, inputs)
      && forall q :: q != id ==> RulesOf(t, q) == RulesOf(s, q)
  {
    var base := WithoutPolicy(s.rules, id);
    AddRulesIff(base, id, inputs);
    var updated := s.(policies := s.policies[id := s.policies[id] + update]);
    AddedAreExact(updated, base, id, inputs);
    forall q | q != id ensures RulesOf(updated.(rules := base), q) == RulesOf(s, q) {}
  }

  /** A replacement that meets a taken id changes nothing in a transaction; without one other policies are still safe. */
  lemma {:induction false} FailedReplacement(s: State, id: string, update: Fields, inputs: seq<RuleInput>, rollback: bool)
    requires id in s.policies && !FreshIds(WithoutPolicy(s.rules, id), inputs)
    ensures var t := UpdatePolicy(s, id, update, Some(inputs), rollback);
      (rollback ==> t == s) && forall q :: q != id ==> RulesOf(t, q) == RulesOf(s, q)
  {
    AddRulesIff(WithoutPolicy(s.rules, id), id, inputs);
    AddRulesFacts(WithoutPolicy(s.rules, id), id, inputs);
  }

  // ---------------------------------------------------------------- a policy no operation names

  predicate Names(op: Op, policy: string) {
    (op.CreatePolicyOp? || op.UpdatePolicyOp? || op.DeletePolicyOp?) && op.id == policy
  }

  lemma {:induction false} SeedLeavesPolicy(s: State, d: Defaults, p: string)
    requires p in s.policies
    ensures SeedPolicies(s, d).policies == s.policies && SeedPolicies(s, d).rules == s.rules
  {
    assert p in s.policies.Keys;
    assert |s.policies| == |s.policies.Keys| > 0;
  }

  lemma {:induction false} RoleRowsFrame(s: State, rows: seq<(string, Fields)>)
    ensures SeedRoleRows(s, rows).(roles := s.roles) == s
  {
    if |rows| > 0 { RoleRowsFrame(s, rows[..|rows| - 1]); }
  }

  lemma {:induction false} AssignmentRowsFrame(s: State, rows: seq<DefaultAssignment>)
    ensures SeedAssignmentRows(s, rows).(assignments := s.assignments) == s
  {
    if |rows| > 0 { AssignmentRowsFrame(s, rows[..|rows| - 1]); }
  }

  lemma {:induction false} SeedRolesFrame(s: State, d: Defaults)
    ensures var t := SeedRoles(s, d); t.(roles := s.roles, seeded := s.seeded) == s && s.seeded <= t.seeded
  {
    RoleRowsFrame(s.(seeded := s.seeded + {SEED_PROXY_ROLES}), d.roles);
  }

  lemma {:induction false} SeedAssignmentsFrame(s: State, d: Defaults)
    ensures var ready, t := SeedRoles(SeedPolicies(s, d), d), SeedAssignments(s, d);
      t.(assignments := ready.assignments, seeded := ready.seeded) == ready && ready.seeded <= t.seeded
  {
    var ready := SeedRoles(SeedPolicies(s, d), d);
    AssignmentRowsFrame(ready.(seeded := ready.seeded + {SEED_PROXY_ASSIGNMENTS}), d.assignments);
  }

  /** The policy and its rules are the same in both states. */
  ghost predicate Same(s: State, t: State, p: string) {
    p in s.policies && p in t.policies && t.policies[p] == s.policies[p] && RulesOf(t, p) == RulesOf(s, p)
  }

  lemma {:induction false} UnnamedSeed(s: State, d: Defaults, p: string)
    requires p in s.policies
    ensures Same(s, SeedPolicies(s, d), p) && Same(s, SeedRoles(s, d), p) && Same(s, SeedAssignments(s, d), p)
  {
    SeedLeavesPolicy(s, d, p);
    SeedRolesFrame(s, d);
    SeedRolesFrame(SeedPolicies(s, d), d);
    SeedAssignmentsFrame(s, d);
  }

  lemma {:induction false} OthersKept(s: State, t: State, id: string, p: string)
    requires id != p
    requires forall k :: k in s.rules ==> k in t.rules && t.rules[k] == s.rules[k]
    requires forall k :: k in t.rules && k !in s.rules ==> t.rules[k].policy == id
    ensures RulesOf(t, p) == RulesOf(s, p)
  {
  }

  lemma {:induction false} UnnamedCreate(s: State, id: string, data: Fields, rules: seq<RuleInput>, rollback: bool, p: string)
    requires p in s.policies && id != p
    ensures Same(s, CreatePolicy(s, id, data, rules, rollback), p)
  {
    AddRulesFacts(s.rules, id, rules);
    OthersKept(s, CreatePolicy(s, id, data, rules, rollback), id, p);
  }

  lemma {:induction false} UnnamedUpdate(s: State, id: string, data: Fields, rs: Option<seq<RuleInput>>, rollback: bool, p: string)
    requires p in s.policies && id != p
    ensures Same(s, UpdatePolicy(s, id, data, rs, rollback), p)
  {
    if rs.Some? {
      AddRulesFacts(WithoutPolicy(s.rules, id), id, rs.value);
    }
  }

  lemma {:induction false} UnnamedDelete(s: State, id: string, p: string)
    requires p in s.policies && id != p
    ensures Same(s, DeletePolicy(s, id), p)
  {
  }

  lemma {:induction false} UnnamedStep(s: State, op: Op, d: Defaults, p: string)
    requires p in s.policies && !Names(op, p)
    ensures Same(s, Step(s, op, d), p)
  {
    match op
    case SeedPoliciesOp => UnnamedSeed(s, d, p);
    case SeedRolesOp => UnnamedSeed(s, d, p);
    case SeedAssignmentsOp => UnnamedSeed(s, d, p);
    case CreatePolicyOp(id, data, rules, rollback) => UnnamedCreate(s, id, data, rules, rollback, p);
    case UpdatePolicyOp(id, data, rs, rollback) => UnnamedUpdate(s, id, data, rs, rollback, p);
    case DeletePolicyOp(id) => UnnamedDelete(s, id, p);
    case _ =>
  }

  /** Over any run, a policy and its rules change only through operations that name the policy. */
  lemma {:induction false} UnnamedPolicyIsUntouched(s: State, ops: seq<Op>, d: Defaults, p: string)
    requires p in s.policies && forall i :: 0 <= i < |ops| ==> !Names(ops[i], p)
    ensures Same(s, Run(s, ops, d), p)
  {
    if |ops| > 0 {
      var init := ops[..|ops| - 1];
      UnnamedPolicyIsUntouched(s, init, d, p);
      UnnamedStep(Run(s, init, d), ops[|ops| - 1], d, p);
    }
  }

  // ---------------------------------------------------------------- defaults are seeded once

  lemma {:induction false} PolicyRowsFrame(s: State, rows: seq<DefaultPolicy>)
    ensures SeedPolicyRows(s, rows).(policies := s.policies, rules := s.rules) == s
  {
    if |rows| > 0 { PolicyRowsFrame(s, rows[..|rows| - 1]); }
  }

  lemma {:induction false} SeedPoliciesFrame(s: State, d: Defaults)
    ensures var t := SeedPolicies(s, d); t.(policies := s.policies, rules := s.rules, seeded := s.seeded) == s
    ensures s.seeded <= SeedPolicies(s, d).seeded
  {
    PolicyRowsFrame(s.(seeded := s.seeded + {SEED_PROXY_POLICIES}), d.policies);
  }

  /** Markers are never removed, and every seeding leaves its marker. */
  lemma {:induction false} StepKeepsMarkers(s: State, op: Op, d: Defaults)
    ensures s.seeded <= Step(s, op, d).seeded
  {
    match op
    case SeedPoliciesOp => SeedPoliciesFrame(s, d);
    case SeedRolesOp => SeedRolesFrame(s, d);
    case SeedAssignmentsOp =>
      SeedPoliciesFrame(s, d);
      SeedRolesFrame(SeedPolicies(s, d), d);
      SeedAssignmentsFrame(s, d);
    case _ =>
  }

  lemma {:induction false} SeedingMarks(s: State, d: Defaults)
    ensures SEED_PROXY_POLICIES in SeedPolicies(s, d).seeded
    ensures SEED_PROXY_ROLES in SeedRoles(s, d).seeded
    ensures {SEED_PROXY_POLICIES, SEED_PROXY_ROLES, SEED_PROXY_ASSIGNMENTS} <= SeedAssignments(s, d).seeded
  {
    PolicyRowsFrame(s.(seeded := s.seeded + {SEED_PROXY_POLICIES}), d.policies);
    RoleRowsFrame(s.(seeded := s.seeded + {SEED_PROXY_ROLES}), d.roles);
    var t := SeedPolicies(s, d);
    SeedRolesFrame(t, d);
    RoleRowsFrame(t.(seeded := t.seeded + {SEED_PROXY_ROLES}), d.roles);
    SeedAssignmentsFrame(s, d);
    var ready := SeedRoles(t, d);
    AssignmentRowsFrame(ready.(seeded := ready.seeded + {SEED_PROXY_ASSIGNMENTS}), d.assignments);
  }

  predicate CreatesPolicy(op: Op, policy: string) { op.CreatePolicyOp? && op.id == policy }

  predicate CreatesRole(op: Op, role: string) { op.CreateRoleOp? && op.id == role }

  predicate PolicyGone(s: State, p: string) { SEED_PROXY_POLICIES in s.seeded && p !in s.policies }

  predicate RoleGone(s: State, r: string) { SEED_PROXY_ROLES in s.seeded && r !in s.roles }

  lemma {:induction false} PolicyGoneStep(s: State, op: Op, d: Defaults, p: string)
    requires PolicyGone(s, p) && !CreatesPolicy(op, p)
    ensures PolicyGone(Step(s, op, d), p)
  {
    StepKeepsMarkers(s, op, d);
    match op
    case SeedRolesOp => SeedRolesFrame(s, d);
    case SeedAssignmentsOp => SeedRolesFrame(s, d); SeedAssignmentsFrame(s, d);
    case _ =>
  }

  lemma {:induction false} RoleGoneStep(s: State, op: Op, d: Defaults, r: string)
    requires RoleGone(s, r) && !CreatesRole(op, r)
    ensures RoleGone(Step(s, op, d), r)
  {
    StepKeepsMarkers(s, op, d);
    match op
    case SeedPoliciesOp => SeedPoliciesFrame(s, d);
    case SeedAssignmentsOp => SeedPoliciesFrame(s, d); SeedAssignmentsFrame(s, d);
    case _ =>
  }

  /** Once policies were seeded, a deleted policy stays deleted until someone creates it by name. */
  lemma {:induction false} PolicyNeverReseeded(s: State, ops: seq<Op>, d: Defaults, p: string)
    requires PolicyGone(s, p) && forall i :: 0 <= i < |ops| ==> !CreatesPolicy(ops[i], p)
    ensures PolicyGone(Run(s, ops, d), p)
  {
    if |ops| > 0 {
      var init := ops[..|ops| - 1];
      PolicyNeverReseeded(s, init, d, p);
      PolicyGoneStep(Run(s, init, d), ops[|ops| - 1], d, p);
    }
  }

  /** The same for roles. */
  lemma {:induction false} RoleNeverReseeded(s: State, ops: seq<Op>, d: Defaults, r: string)
    requires RoleGone(s, r) && forall i :: 0 <= i < |ops| ==> !CreatesRole(ops[i], r)
    ensures RoleGone(Run(s, ops, d), r)
  {
    if |ops| > 0 {
      var init := ops[..|ops| - 1];
      RoleNeverReseeded(s, init, d, r);
      RoleGoneStep(Run(s, init, d), ops[|ops| - 1], d, r);
    }
  }

  predicate Holds(s: State, a: Assignment) { exists k :: k in s.assignments && s.assignments[k] == a }

  lemma {:induction false} UnassignedStep(s: State, op: Op, d: Defaults, a: Assignment)
    requires {SEED_PROXY_POLICIES, SEED_PROXY_ROLES, SEED_PROXY_ASSIGNMENTS} <= s.seeded
    requires !Holds(s, a) && !(op.AssignOp? && op.a == a)
    ensures !Holds(Step(s, op, d), a)
  {
  }

  /** The same for assignments: a default one that was removed never comes back by itself. */
  lemma {:induction false} AssignmentNeverReseeded(s: State, ops: seq<Op>, d: Defaults, a: Assignment)
    requires {SEED_PROXY_POLICIES, SEED_PROXY_ROLES, SEED_PROXY_ASSIGNMENTS} <= s.seeded
    requires !Holds(s, a) && forall i :: 0 <= i < |ops| ==> !(ops[i].AssignOp? && ops[i].a == a)
    ensures var t := Run(s, ops, d);
      {SEED_PROXY_POLICIES, SEED_PROXY_ROLES, SEED_PROXY_ASSIGNMENTS} <= t.seeded && !Holds(t, a)
  {
    if |ops| > 0 {
      var init := ops[..|ops| - 1];
      AssignmentNeverReseeded(s, init, d, a);
      StepKeepsMarkers(Run(s, init, d), ops[|ops| - 1], d);
      UnassignedStep(Run(s, init, d), ops[|ops| - 1], d, a);
    }
  }

  // ---------------------------------------------------------------- the first seeding is complete

  /** All rule ids of the default policies, in order. */
  function RuleIds(rows: seq<DefaultPolicy>): seq<string> {
    if |rows| == 0 then [] else RuleIds(rows[..|rows| - 1]) + IdsOf(rows[|rows| - 1].rules)
  }

  function IdsOf(inputs: seq<RuleInput>): (r: seq<string>)
    ensures |r| == |inputs| && forall i :: 0 <= i < |r| ==> r[i] == inputs[i].id
  {
    seq(|inputs|, i requires 0 <= i < |inputs| => inputs[i].id)
  }

  predicate Seeded(s: State, p: DefaultPolicy) {
    && p.id in s.policies && s.policies[p.id] == p.data
    && forall j :: 0 <= j < |p.rules| ==>
         p.rules[j].id in s.rules && s.rules[p.rules[j].id] == Rule(p.id, p.rules[j].service, p.rules[j].actions)
  }

  lemma {:induction false} SeedIsAdd(rules: map<string, Rule>, policy: string, inputs: seq<RuleInput>)
    requires AddRules(rules, policy, inputs).ok
    ensures SeedRules(rules, policy, inputs) == AddRules(rules, policy, inputs).rules
    decreases |inputs|
  {
    if |inputs| > 0 {
      SeedIsAdd(rules[inputs[0].id := Rule(policy, inputs[0].service, inputs[0].actions)], policy, inputs[1..]);
    }
  }

  lemma {:induction false} SeedRowSeeds(s: State, p: DefaultPolicy)
    requires p.id !in s.policies && FreshIds(s.rules, p.rules)
    ensures Seeded(SeedRow(s, p), p)
    ensures forall k :: k in SeedRow(s, p).rules ==> k in s.rules || k in IdsOf(p.rules)
  {
    AddRulesIff(s.rules, p.id, p.rules);
    AddRulesContents(s.rules, p.id, p.rules);
    SeedIsAdd(s.rules, p.id, p.rules);
    forall k | k in SeedRow(s, p).rules && k !in s.rules ensures k in IdsOf(p.rules) {
      var i :| 0 <= i < |p.rules| && p.rules[i].id == k;
      assert IdsOf(p.rules)[i] == k;
    }
  }

  lemma {:induction false} SeededStays(s: State, p: DefaultPolicy, q: DefaultPolicy)
    requires Seeded(s, q)
    ensures Seeded(SeedRow(s, p), q)
  {
    SeedRulesFacts(s.rules, p.id, p.rules);
  }

  lemma {:induction false} FreshAfter(rules: map<string, Rule>, ids: seq<string>, inputs: seq<RuleInput>)
    requires NoRepeats(ids + IdsOf(inputs)) && forall k :: k in rules ==> k in ids
    ensures FreshIds(rules, inputs) && NoRepeats(ids)
  {
    var all, n := ids + IdsOf(inputs), |ids|;
    assert forall i :: 0 <= i < n ==> all[i] == ids[i];
    assert forall i :: 0 <= i < |inputs| ==> all[n + i] == inputs[i].id;
  }

  predicate DistinctIds(rows: seq<DefaultPolicy>) { forall i, j :: 0 <= i < j < |rows| ==> rows[i].id != rows[j].id }

  /** All rows are seeded, and nothing else is in the store. */
  ghost predicate Complete(s: State, rows: seq<DefaultPolicy>) {
    && (forall i :: 0 <= i < |rows| ==> Seeded(s, rows[i]))
    && (forall k :: k in s.rules ==> k in RuleIds(rows))
    && (forall k :: k in s.policies ==> exists i :: 0 <= i < |rows| && rows[i].id == k)
  }

  lemma {:induction false} CompleteStep(s: State, rows: seq<DefaultPolicy>, p: DefaultPolicy)
    requires Complete(s, rows) && NoRepeats(RuleIds(rows) + IdsOf(p.rules)) && DistinctIds(rows + [p])
    requires RuleIds(rows + [p]) == RuleIds(rows) + IdsOf(p.rules)
    ensures Complete(SeedRow(s, p), rows + [p])
  {
    var all, t := rows + [p], SeedRow(s, p);
    FreshAfter(s.rules, RuleIds(rows), p.rules);
    assert p.id !in s.policies by { assert forall i :: 0 <= i < |rows| ==> all[i] == rows[i] && all[|rows|] == p; }
    SeedRowSeeds(s, p);
    forall i | 0 <= i < |all| ensures Seeded(t, all[i]) {
      if i < |rows| {
        SeededStays(s, p, rows[i]);
      }
    }
    forall k | k in t.policies ensures exists i :: 0 <= i < |all| && all[i].id == k {
      if k in s.policies {
        var i :| 0 <= i < |rows| && rows[i].id == k;
        assert all[i].id == k;
      } else {
        assert all[|rows|].id == k;
      }
    }
  }

  /** Seeding into a store without policies writes every default policy with all its rules. */
  lemma {:induction false} SeedRowsComplete(s: State, rows: seq<DefaultPolicy>)
    requires s.policies == map[] && s.rules == map[] && NoRepeats(RuleIds(rows)) && DistinctIds(rows)
    ensures Complete(SeedPolicyRows(s, rows), rows)
  {
    if |rows| > 0 {
      var init, p := rows[..|rows| - 1], rows[|rows| - 1];
      assert init + [p] == rows;
      FreshAfter(map[], RuleIds(init), p.rules);
      SeedRowsComplete(s, init);
      CompleteStep(SeedPolicyRows(s, init), init, p);
    }
  }

  /** On a store without policies the first seeding writes all defaults: no rule can be in its way. */
  lemma {:induction false} FirstSeedingIsComplete(s: State, d: Defaults)
    requires Inv(s) && s.policies == map[] && SEED_PROXY_POLICIES !in s.seeded
    requires NoRepeats(RuleIds(d.policies)) && DistinctIds(d.policies)
    ensures forall i :: 0 <= i < |d.policies| ==> Seeded(SeedPolicies(s, d), d.policies[i])
  {
    assert s.rules == map[];
    SeedRowsComplete(s.(seeded := s.seeded + {SEED_PROXY_POLICIES}), d.policies);
  }

  // ---------------------------------------------------------------- what each operation does, and to nothing else

  /** t has exactly the rows of s that the condition keeps, unchanged. */
  ghost predicate KeptRows<V(!new)>(s: map<string, V>, t: map<string, V>, keep: V -> bool) {
    && (forall k :: k in t ==> k in s && t[k] == s[k] && keep(s[k]))
    && forall k :: k in s && keep(s[k]) ==> k in t
  }

  /** Deleting a policy removes its row, its rules and its assignments, and nothing else. */
  lemma {:induction false} DeletePolicyIsExact(s: State, id: string)
    requires Inv(s)
    ensures var t := DeletePolicy(s, id);
      && id !in t.policies && t.policies == s.policies - {id}
      && KeptRows(s.rules, t.rules, (r: Rule) => r.policy != id)
      && KeptRows(s.assignments, t.assignments, (a: Assignment) => a.policy != id)
      && t.roles == s.roles && t.members == s.members && t.seeded == s.seeded
  {
    if id !in s.policies { assert s.policies - {id} == s.policies; }
  }

  /** Deleting a role removes its row, its memberships and the assignments that target it, and nothing else. */
  lemma {:induction false} DeleteRoleIsExact(s: State, id: string)
    ensures var t := DeleteRole(s, id);
      && id !in t.roles && t.roles == s.roles - {id}
      && KeptRows(s.members, t.members, (m: Member) => m.role != id)
      && KeptRows(s.assignments, t.assignments, (a: Assignment) => !(a.targetType == "role" && a.target == id))
      && t.policies == s.policies && t.rules == s.rules && t.seeded == s.seeded
  {
  }

  lemma {:induction false} RemovalsAreExact(s: State, a: Assignment, m: Member)
    ensures var t := Unassign(s, a);
      KeptRows(s.assignments, t.assignments, (b: Assignment) => b != a) && t == s.(assignments := t.assignments)
    ensures var t := RemoveMember(s, m);
      KeptRows(s.members, t.members, (n: Member) => n != m) && t == s.(members := t.members)
  {
  }

  /** An assignment is there afterwards exactly if it was, or its policy exists and its id is free; nothing else changes. */
  lemma {:induction false} AssignIsExact(s: State, a: Assignment, newId: string)
    ensures var t := Assign(s, a, newId);
      && (Holds(t, a) <==> Holds(s, a) || (a.policy in s.policies && newId !in s.assignments))
      && t == s.(assignments := t.assignments)
      && (forall k :: k in s.assignments ==> k in t.assignments && t.assignments[k] == s.assignments[k])
      && forall k :: k in t.assignments && k !in s.assignments ==> k == newId && t.assignments[k] == a
  {
    var t := Assign(s, a, newId);
    if a in s.assignments.Values {
      var k :| k in s.assignments && s.assignments[k] == a;
      assert Holds(s, a) && t == s;
    } else if a.policy in s.policies && newId !in s.assignments {
      assert t.assignments[newId] == a;
    }
  }

  lemma {:induction false} AddMemberTouchesOneRow(s: State, m: Member)
    ensures var t := AddMember(s, m);
      && t == s.(members := t.members)
      && (forall k :: k in s.members ==> k in t.members && t.members[k] == s.members[k])
      && forall k :: k in t.members && k !in s.members ==> t.members[k] == m && m.role in s.roles
  {
  }

  /** Creating keeps an existing row and otherwise adds one; updating merges into an existing row only. */
  lemma {:induction false} RoleWritesAreExact(s: State, id: string, data: Fields)
    ensures var t := CreateRole(s, id, data);
      t == s.(roles := t.roles) && t.roles == if id in s.roles then s.roles else s.roles[id := data]
    ensures var t := UpdateRole(s, id, data);
      && t == s.(roles := t.roles) && t.roles.Keys == s.roles.Keys
      && forall k :: k in s.roles ==> t.roles[k] == if k == id then s.roles[k] + data else s.roles[k]
  {
    if id in s.roles { assert s.roles[id := s.roles[id] + data].Keys == s.roles.Keys; }
  }

  /** Without a replacement an update merges into the policy's row and leaves all rules alone. */
  lemma {:induction false} PlainUpdateIsExact(s: State, id: string, update: Fields, rollback: bool)
    ensures var t := UpdatePolicy(s, id, update, None, rollback);
      && t == s.(policies := t.policies) && t.policies.Keys == s.policies.Keys
      && forall k :: k in s.policies ==> t.policies[k] == if k == id then s.policies[k] + update else s.policies[k]
  {
    if id in s.policies { assert s.policies[id := s.policies[id] + update].Keys == s.policies.Keys; }
  }

  // ---------------------------------------------------------------- deleted for good

  lemma {:induction false} RunFront(s: State, op: Op, ops: seq<Op>, d: Defaults)
    ensures Run(s, [op] + ops, d) == Run(Step(s, op, d), ops, d)
    decreases |ops|
  {
    var all := [op] + ops;
    if |ops| == 0 {
      assert all == [op] && all[..0] == [];
    } else {
      assert all[..|all| - 1] == [op] + ops[..|ops| - 1];
      RunFront(s, op, ops[..|ops| - 1], d);
    }
  }

  /** On a seeded store a deleted policy is gone and stays gone through any run that does not create it again. */
  lemma {:induction false} PolicyDeletedForGood(s: State, p: string, ops: seq<Op>, d: Defaults)
    requires Inv(s) && SEED_PROXY_POLICIES in s.seeded && forall i :: 0 <= i < |ops| ==> !CreatesPolicy(ops[i], p)
    ensures PolicyGone(Run(s, [DeletePolicyOp(p)] + ops, d), p)
  {
    DeletePolicyIsExact(s, p);
    RunFront(s, DeletePolicyOp(p), ops, d);
    PolicyNeverReseeded(DeletePolicy(s, p), ops, d, p);
  }

  lemma {:induction false} RoleDeletedForGood(s: State, r: string, ops: seq<Op>, d: Defaults)
    requires SEED_PROXY_ROLES in s.seeded && forall i :: 0 <= i < |ops| ==> !CreatesRole(ops[i], r)
    ensures RoleGone(Run(s, [DeleteRoleOp(r)] + ops, d), r)
  {
    DeleteRoleIsExact(s, r);
    RunFront(s, DeleteRoleOp(r), ops, d);
    RoleNeverReseeded(DeleteRole(s, r), ops, d, r);
  }

  lemma {:induction false} UnassignedForGood(s: State, a: Assignment, ops: seq<Op>, d: Defaults)
    requires {SEED_PROXY_POLICIES, SEED_PROXY_ROLES, SEED_PROXY_ASSIGNMENTS} <= s.seeded
    requires forall i :: 0 <= i < |ops| ==> !(ops[i].AssignOp? && ops[i].a == a)
    ensures !Holds(Run(s, [UnassignOp(a)] + ops, d), a)
  {
    RemovalsAreExact(s, a, Member("", ""));
    RunFront(s, UnassignOp(a), ops, d);
    AssignmentNeverReseeded(Unassign(s, a), ops, d, a);
  }

  // ---------------------------------------------------------------- the other first seedings

  lemma {:induction false} SeededRoles(s: State, rows: seq<(string, Fields)>, i: nat)
    requires i < |rows| && rows[i].0 !in s.roles && forall j :: 0 <= j < i ==> rows[j].0 != rows[i].0
    ensures var t := SeedRoleRows(s, rows); rows[i].0 in t.roles && t.roles[rows[i].0] == rows[i].1
  {
    var init := rows[..|rows| - 1];
    if i < |init| {
      SeededRoles(s, init, i);
    } else {
      RoleNotYetSeeded(s, init, rows[i].0);
    }
  }

  lemma {:induction false} RoleNotYetSeeded(s: State, rows: seq<(string, Fields)>, r: string)
    requires r !in s.roles && forall j :: 0 <= j < |rows| ==> rows[j].0 != r
    ensures r !in SeedRoleRows(s, rows).roles
  {
    if |rows| > 0 { RoleNotYetSeeded(s, rows[..|rows| - 1], r); }
  }

  /** On a store without roles the first seeding writes every default role. */
  lemma {:induction false} FirstRoleSeedingIsComplete(s: State, d: Defaults, i: nat)
    requires s.roles == map[] && SEED_PROXY_ROLES !in s.seeded
    requires i < |d.roles| && forall j :: 0 <= j < i ==> d.roles[j].0 != d.roles[i].0
    ensures var t := SeedRoles(s, d); d.roles[i].0 in t.roles && t.roles[d.roles[i].0] == d.roles[i].1
  {
    SeededRoles(s.(seeded := s.seeded + {SEED_PROXY_ROLES}), d.roles, i);
  }

  lemma {:induction false} SeededAssignments(s: State, rows: seq<DefaultAssignment>, i: nat)
    requires i < |rows| && rows[i].id !in s.assignments && forall j :: 0 <= j < i ==> rows[j].id != rows[i].id
    requires Seedable(s, rows[i].row)
    ensures var t := SeedAssignmentRows(s, rows); rows[i].id in t.assignments && t.assignments[rows[i].id] == rows[i].row
  {
    var init := rows[..|rows| - 1];
    AssignmentRowsFrame(s, init);
    if i < |init| {
      SeededAssignments(s, init, i);
    } else {
      AssignmentNotYetSeeded(s, init, rows[i].id);
    }
  }

  lemma {:induction false} AssignmentNotYetSeeded(s: State, rows: seq<DefaultAssignment>, id: string)
    requires id !in s.assignments && forall j :: 0 <= j < |rows| ==> rows[j].id != id
    ensures id !in SeedAssignmentRows(s, rows).assignments
  {
    if |rows| > 0 { AssignmentNotYetSeeded(s, rows[..|rows| - 1], id); }
  }

  /** On a store without assignments the first seeding writes every default one whose policy and role are there. */
  lemma {:induction false} FirstAssignmentSeedingIsComplete(s: State, d: Defaults, i: nat)
    requires var ready := SeedRoles(SeedPolicies(s, d), d);
      && ready.assignments == map[] && SEED_PROXY_ASSIGNMENTS !in ready.seeded
      && i < |d.assignments| && Seedable(ready, d.assignments[i].row)
    requires forall j :: 0 <= j < i ==> d.assignments[j].id != d.assignments[i].id
    ensures var t, a := SeedAssignments(s, d), d.assignments[i]; a.id in t.assignments && t.assignments[a.id] == a.row
  {
    var ready := SeedRoles(SeedPolicies(s, d), d);
    SeededAssignments(ready.(seeded := ready.seeded + {SEED_PROXY_ASSIGNMENTS}), d.assignments, i);
  }

  /** A store that already has policies or roles is only marked. */
  lemma {:induction false} SeedsOnlyIntoEmpty(s: State, d: Defaults)
    ensures s.policies != map[] ==> SeedPolicies(s, d) == s.(seeded := s.seeded + {SEED_PROXY_POLICIES})
    ensures s.roles != map[] ==> SeedRoles(s, d) == s.(seeded := s.seeded + {SEED_PROXY_ROLES})
  {
    if SEED_PROXY_POLICIES in s.seeded { assert s.seeded + {SEED_PROXY_POLICIES} == s.seeded; }
    if SEED_PROXY_ROLES in s.seeded { assert s.seeded + {SEED_PROXY_ROLES} == s.seeded; }
  }

  // ---------------------------------------------------------------- memberships

  /** Adding a member to an existing role takes effect exactly when no other pair has the same composed id. */
  lemma {:induction false} AddMemberIff(s: State, m: Member)
    requires Inv(s) && m.role in s.roles
    ensures m in AddMember(s, m).members.Values <==>
      (MemberId(m.role, m.user) in s.members ==> s.members[MemberId(m.role, m.user)] == m)
  {
    var id := MemberId(m.role, m.user);
    if m in s.members.Values {
      var k :| k in s.members && s.members[k] == m;
      assert k == id;
    } else if id !in s.members {
      assert AddMember(s, m).members[id] == m;
    } else {
      assert AddMember(s, m) == s;
    }
  }

  lemma {:induction false} MemberIdSplits(a: Member, b: Member)
    requires ':' !in a.role && ':' !in b.role && MemberId(a.role, a.user) == MemberId(b.role, b.user)
    ensures a == b
  {
    var id := MemberId(a.role, a.user);
    assert id[|a.role|] == ':' && id[|b.role|] == ':';
    assert forall i :: 0 <= i < |a.role| ==> id[i] == a.role[i];
    assert forall i :: 0 <= i < |b.role| ==> id[i] == b.role[i];
    assert |a.role| == |b.role|;
    assert id[..|a.role|] == a.role && id[..|b.role|] == b.role;
    assert id[|a.role| + 1..] == a.user && id[|b.role| + 1..] == b.user;
  }

  /** With colon-free role ids every addition takes effect. */
  lemma {:induction false} ColonFreeRolesAdd(s: State, m: Member)
    requires Inv(s) && m.role in s.roles && forall r :: r in s.roles ==> ':' !in r
    ensures m in AddMember(s, m).members.Values
  {
    AddMemberIff(s, m);
    var id := MemberId(m.role, m.user);
    if id in s.members {
      MemberIdSplits(s.members[id], m);
    }
  }

  /** A role id with a colon can keep another role's user out. */
  lemma {:induction false} MemberIdCollision()
    ensures var s := EMPTY.(roles := map["a" := map[], "a:b" := map[]], members := map["a:b:c" := Member("a:b", "c")]);
      Inv(s) && AddMember(s, Member("a", "b:c")) == s && Member("a", "b:c") !in s.members.Values
  {
    assert MemberId("a", "b:c") == "a:b:c" == MemberId("a:b", "c");
  }

  // ---------------------------------------------------------------- assignments to roles

  ghost predicate TargetsIn(rows: map<string, Assignment>, roles: set<string>) {
    forall k :: k in rows && rows[k].targetType == "role" ==> rows[k].target in roles
  }

  /** Every assignment to a role names an existing role. */
  ghost predicate TargetsResolve(s: State) { TargetsIn(s.assignments, s.roles.Keys) }

  /** An assignment to a role that does not exist, and nothing else to stop it. */
  predicate Dangles(s: State, op: Op) {
    && op.AssignOp? && op.a.targetType == "role" && op.a.target !in s.roles
    && op.a.policy in s.policies && op.a !in s.assignments.Values && op.newId !in s.assignments
  }

  lemma {:induction false} SeededRolesStay(s: State, rows: seq<(string, Fields)>)
    ensures s.roles.Keys <= SeedRoleRows(s, rows).roles.Keys
  {
    if |rows| > 0 { SeededRolesStay(s, rows[..|rows| - 1]); }
  }

  lemma {:induction false} SeedRolesResolves(s: State, d: Defaults)
    requires TargetsResolve(s)
    ensures TargetsResolve(SeedRoles(s, d))
  {
    var marked := s.(seeded := s.seeded + {SEED_PROXY_ROLES});
    RoleRowsFrame(marked, d.roles);
    SeededRolesStay(marked, d.roles);
  }

  lemma {:induction false} SeedAssignmentRowsResolve(s: State, rows: seq<DefaultAssignment>)
    requires TargetsResolve(s)
    ensures TargetsResolve(SeedAssignmentRows(s, rows))
  {
    if |rows| > 0 {
      var init := rows[..|rows| - 1];
      SeedAssignmentRowsResolve(s, init);
      AssignmentRowsFrame(s, init);
    }
  }

  lemma {:induction false} SeedAssignmentsResolves(s: State, d: Defaults)
    requires TargetsResolve(s)
    ensures TargetsResolve(SeedAssignments(s, d))
  {
    SeedPoliciesFrame(s, d);
    SeedRolesResolves(SeedPolicies(s, d), d);
    var ready := SeedRoles(SeedPolicies(s, d), d);
    SeedAssignmentRowsResolve(ready.(seeded := ready.seeded + {SEED_PROXY_ASSIGNMENTS}), d.assignments);
  }

  lemma {:induction false} AssignResolvesIff(s: State, a: Assignment, newId: string)
    requires TargetsResolve(s)
    ensures TargetsResolve(Assign(s, a, newId)) <==> !Dangles(s, AssignOp(a, newId))
  {
    var t := Assign(s, a, newId);
    if Dangles(s, AssignOp(a, newId)) { assert t.assignments[newId] == a; }
  }

  lemma {:induction false} DeleteRoleResolves(s: State, id: string)
    requires TargetsResolve(s)
    ensures TargetsResolve(DeleteRole(s, id))
  {
  }

  /** One operation keeps role targets resolved exactly when it is no assignment to a missing role. */
  lemma {:induction false} TargetsResolveIff(s: State, op: Op, d: Defaults)
    requires TargetsResolve(s)
    ensures TargetsResolve(Step(s, op, d)) <==> !Dangles(s, op)
  {
    match op
    case SeedPoliciesOp => SeedPoliciesFrame(s, d);
    case SeedRolesOp => SeedRolesResolves(s, d);
    case SeedAssignmentsOp => SeedAssignmentsResolves(s, d);
    case AssignOp(a, newId) => AssignResolvesIff(s, a, newId);
    case DeleteRoleOp(id) => DeleteRoleResolves(s, id);
    case _ =>
  }

  lemma {:induction false} RunStep(s: State, ops: seq<Op>, d: Defaults, n: nat)
    requires n < |ops|
    ensures Run(s, ops[..n + 1], d) == Step(Run(s, ops[..n], d), ops[n], d)
  {
    assert ops[..n + 1][..n] == ops[..n];
  }

  lemma {:induction false} ResolvedUpTo(ops: seq<Op>, d: Defaults, n: nat)
    requires n <= |ops| && forall i :: 0 <= i < n ==> !Dangles(Run(EMPTY, ops[..i], d), ops[i])
    ensures TargetsResolve(Run(EMPTY, ops[..n], d))
  {
    if n > 0 {
      ResolvedUpTo(ops, d, n - 1);
      RunStep(EMPTY, ops, d, n - 1);
      TargetsResolveIff(Run(EMPTY, ops[..n - 1], d), ops[n - 1], d);
    }
  }

  /** Throughout a run role targets resolve exactly when none of its operations assigns a policy to a missing role. */
  lemma {:induction false} TargetsResolveThroughoutIff(ops: seq<Op>, d: Defaults)
    ensures (forall n :: 0 <= n <= |ops| ==> TargetsResolve(Run(EMPTY, ops[..n], d))) <==>
      (forall n :: 0 <= n < |ops| ==> !Dangles(Run(EMPTY, ops[..n], d), ops[n]))
  {
    if forall n :: 0 <= n < |ops| ==> !Dangles(Run(EMPTY, ops[..n], d), ops[n]) {
      forall n | 0 <= n <= |ops| ensures TargetsResolve(Run(EMPTY, ops[..n], d)) { ResolvedUpTo(ops, d, n); }
    } else {
      var n :| 0 <= n < |ops| && Dangles(Run(EMPTY, ops[..n], d), ops[n]);
      if TargetsResolve(Run(EMPTY, ops[..n], d)) {
        RunStep(EMPTY, ops, d, n);
        TargetsResolveIff(Run(EMPTY, ops[..n], d), ops[n], d);
        assert !TargetsResolve(Run(EMPTY, ops[..n + 1], d));
      }
    }
  }

  lemma {:induction false} SeededRoleIsDefault(s: State, rows: seq<(string, Fields)>, r: string)
    requires r in SeedRoleRows(s, rows).roles
    ensures r in s.roles || exists i :: 0 <= i < |rows| && rows[i].0 == r
  {
    if |rows| > 0 && rows[|rows| - 1].0 != r {
      var init := rows[..|rows| - 1];
      SeededRoleIsDefault(s, init, r);
      if exists i :: 0 <= i < |init| && init[i].0 == r {
        var i :| 0 <= i < |init| && init[i].0 == r;
        assert rows[i].0 == r;
      }
    }
  }

  lemma {:induction false} RoleStaysMissing(d: Defaults, r: string)
    requires forall i :: 0 <= i < |d.roles| ==> d.roles[i].0 != r
    ensures r !in SeedAssignments(EMPTY, d).roles
  {
    var p := SeedPolicies(EMPTY, d);
    SeedPoliciesFrame(EMPTY, d);
    SeedAssignmentsFrame(EMPTY, d);
    if r in SeedRoles(p, d).roles {
      SeededRoleIsDefault(p.(seeded := p.seeded + {SEED_PROXY_ROLES}), d.roles, r);
    }
  }

  lemma {:induction false} NewPolicyDangles(s: State, p: string, r: string, newId: string)
    requires Inv(s) && p !in s.policies && r !in s.roles && newId !in s.assignments
    ensures Dangles(CreatePolicy(s, p, map[], [], true), AssignOp(Assignment(p, "role", r), newId))
  {
    var t := CreatePolicy(s, p, map[], [], true);
    assert t == s.(policies := s.policies[p := map[]]);
    assert Assignment(p, "role", r) !in s.assignments.Values;
  }

  lemma {:induction false} NewPolicyResolves(s: State, p: string)
    requires TargetsResolve(s)
    ensures TargetsResolve(CreatePolicy(s, p, map[], [], true))
  {
  }

  /**
   Such runs exist for every role that is not a default one: after the seeding an assign handler starts with, a new
   policy is assigned to a role nobody created.
   */
  lemma {:induction false} RoleTargetMayDangle(d: Defaults, r: string) returns (p: string, newId: string)
    requires DistinctRows(d.assignments) && forall i :: 0 <= i < |d.roles| ==> d.roles[i].0 != r
    ensures var s := CreatePolicy(SeedAssignments(EMPTY, d), p, map[], [], true);
      Dangles(s, AssignOp(Assignment(p, "role", r), newId)) && !TargetsResolve(Assign(s, Assignment(p, "role", r), newId))
  {
    var seeded := SeedAssignments(EMPTY, d);
    p := FreshName(seeded.policies.Keys);
    newId := FreshName(seeded.assignments.Keys);
    SeedAssignmentsKeepsInv(EMPTY, d);
    RoleStaysMissing(d, r);
    NewPolicyDangles(seeded, p, r, newId);
    SeedAssignmentsResolves(EMPTY, d);
    NewPolicyResolves(seeded, p);
    AssignResolvesIff(CreatePolicy(seeded, p, map[], [], true), Assignment(p, "role", r), newId);
  }
}
