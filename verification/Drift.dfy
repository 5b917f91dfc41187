/** Drift between owner rows and a read model: how it is counted, and what the count means. */
module Drift {
  import opened Contracts
  import opened ReadModel
  import opened Projectors
  import opened Text

  /** Rows by their read-model id; a later row with the same id replaces an earlier one. */
  function Index(rows: seq<Fields>, idOf: Fields -> string): map<string, Fields> {
    if |rows| == 0 then map[]
    else
      var before, row := Index(rows[..|rows| - 1], idOf), rows[|rows| - 1];
      if idOf(row) == "" then before else before[idOf(row) := row["id" := Str(idOf(row))]]
  }

  /** Row i is the last one with the id. */
  predicate LastWith(rows: seq<Fields>, idOf: Fields -> string, id: string, i: nat) {
    i < |rows| && idOf(rows[i]) == id && forall j :: i < j < |rows| ==> idOf(rows[j]) != id
  }

  /** An id is indexed iff it is not empty and some row has it; its entry is the last such row, under that id. */
  lemma {:induction false} IndexHoldsLastRow(rows: seq<Fields>, idOf: Fields -> string, id: string)
    ensures id in Index(rows, idOf) <==> id != "" && exists i: nat :: LastWith(rows, idOf, id, i)
    ensures forall i: nat :: LastWith(rows, idOf, id, i) && id != "" ==> Index(rows, idOf)[id] == rows[i]["id" := Str(id)]
  {
    if |rows| > 0 {
      var n: nat := |rows| - 1;
      var p := rows[..n];
      IndexHoldsLastRow(p, idOf, id);
      if idOf(rows[n]) == id {
        assert LastWith(rows, idOf, id, n);
      } else {
        forall i: nat ensures LastWith(rows, idOf, id, i) <==> LastWith(p, idOf, id, i) {
          assert forall j :: 0 <= j < n ==> p[j] == rows[j];
        }
      }
    }
  }

  function Lookup(m: map<string, Fields>, id: string): Option<Fields> { if id in m then Some(m[id]) else None }

  /** The ids on which the two indexed tables differ. */
  function Differing(source: map<string, Fields>, local: map<string, Fields>): set<string> {
    set id | id in source.Keys + local.Keys && Lookup(source, id) != Lookup(local, id)
  }

  datatype Report = Report(missing: seq<string>, orphan: seq<string>, stale: seq<string>)

  function Size(r: Report): nat { |r.missing| + |r.orphan| + |r.stale| }

  /** The list holds exactly the elements of the set, each once. */
  ghost predicate Lists(s: seq<string>, t: set<string>) { NoRepeats(s) && forall x :: x in s <==> x in t }

  lemma {:induction false} ListSize(s: seq<string>, t: set<string>)
    requires Lists(s, t)
    ensures |s| == |t|
  {
    if |s| == 0 {
      assert t == {};
    } else {
      var p, x := s[..|s| - 1], s[|s| - 1];
      assert s == p + [x];
      assert x in t;
      ListSize(p, t - {x});
    }
  }

  method BuildIndex(rows: seq<Fields>, idOf: Fields -> string) returns (out: map<string, Fields>)
    ensures out == Index(rows, idOf)
  {
    out := map[];
    for i := 0 to |rows|
      invariant out == Index(rows[..i], idOf)
    {
      assert rows[..i + 1][..i] == rows[..i];
      var id := idOf(rows[i]);
      if id != "" {
        out := out[id := rows[i]["id" := Str(id)]];
      }
    }
    assert rows[..|rows|] == rows;
  }

  lemma Append(s: seq<string>, t: set<string>, x: string)
    requires Lists(s, t) && x !in t
    ensures Lists(s + [x], t + {x})
  {
  }

  function Missing(ids: set<string>, local: map<string, Fields>): set<string> { ids - local.Keys }

  function Stale(ids: set<string>, source: map<string, Fields>, local: map<string, Fields>): set<string> {
    set id | id in ids && id in source && id in local && source[id] != local[id]
  }

  method AddMissingAndStale(source: map<string, Fields>, local: map<string, Fields>)
    returns (missing: seq<string>, stale: seq<string>)
    ensures Lists(missing, Missing(source.Keys, local))
    ensures Lists(stale, Stale(source.Keys, source, local))
  {
    missing, stale := [], [];
    var rest := source.Keys;
    ghost var done: set<string> := {};
    while rest != {}
      invariant done + rest == source.Keys && done !! rest
      invariant Lists(missing, Missing(done, local))
      invariant Lists(stale, Stale(done, source, local))
      decreases rest
    {
      var id :| id in rest;
      rest := rest - {id};
      if id !in local {
        Append(missing, Missing(done, local), id);
        missing := missing + [id];
        assert Missing(done + {id}, local) == Missing(done, local) + {id};
        assert Stale(done + {id}, source, local) == Stale(done, source, local);
      } else {
        assert Missing(done + {id}, local) == Missing(done, local);
        if source[id] != local[id] {
          Append(stale, Stale(done, source, local), id);
          stale := stale + [id];
          assert Stale(done + {id}, source, local) == Stale(done, source, local) + {id};
        } else {
          assert Stale(done + {id}, source, local) == Stale(done, source, local);
        }
      }
      done := done + {id};
    }
    assert done == source.Keys;
  }

  method AddOrphans(source: map<string, Fields>, local: map<string, Fields>) returns (orphan: seq<string>)
    ensures Lists(orphan, Missing(local.Keys, source))
  {
    orphan := [];
    var rest := local.Keys;
    ghost var done: set<string> := {};
    while rest != {}
      invariant done + rest == local.Keys && done !! rest
      invariant Lists(orphan, Missing(done, source))
      decreases rest
    {
      var id :| id in rest;
      rest := rest - {id};
      if id !in source {
        Append(orphan, Missing(done, source), id);
        orphan := orphan + [id];
        assert Missing(done + {id}, source) == Missing(done, source) + {id};
      } else {
        assert Missing(done + {id}, source) == Missing(done, source);
      }
      done := done + {id};
    }
    assert done == local.Keys;
  }

  /**
   Drift of one resource pair: rows missing locally, orphaned rows, and rows that differ. Each finding is
   listed once, and together they are exactly the ids on which the two indexed tables differ.
   */
  method PairDrift(sourceRows: seq<Fields>, localRows: seq<Fields>, idOf: Fields -> string) returns (r: Report)
    ensures var source, local := Index(sourceRows, idOf), Index(localRows, idOf);
            && Lists(r.missing, Missing(source.Keys, local))
            && Lists(r.orphan, Missing(local.Keys, source))
            && Lists(r.stale, Stale(source.Keys, source, local))
            && Size(r) == |Differing(source, local)|
  {
    var source := BuildIndex(sourceRows, idOf);
    var local := BuildIndex(localRows, idOf);
    var missing, stale := AddMissingAndStale(source, local);
    var orphan := AddOrphans(source, local);
    r := Report(missing, orphan, stale);
    ListSize(missing, Missing(source.Keys, local));
    ListSize(orphan, Missing(local.Keys, source));
    ListSize(stale, Stale(source.Keys, source, local));
    ThreeParts(source, local);
  }

  // ---------------------------------------------------------------- a whole family

  /** The rows of one owner resource and its local copy, with the id function of the pair. */
  datatype ResourcePair = ResourcePair(source: seq<Fields>, local: seq<Fields>, idOf: Fields -> string)

  /** A finding names its pair and its row. */
  datatype Finding = Finding(pair: nat, id: string)

  function PairDiffering(p: ResourcePair): set<string> { Differing(Index(p.source, p.idOf), Index(p.local, p.idOf)) }

  function TotalDiffering(pairs: seq<ResourcePair>): nat {
    if |pairs| == 0 then 0 else TotalDiffering(pairs[..|pairs| - 1]) + |PairDiffering(pairs[|pairs| - 1])|
  }

  function Tagged(pair: nat, ids: seq<string>): (r: seq<Finding>)
    ensures |r| == |ids|
    ensures forall id :: Finding(pair, id) in r <==> id in ids
    ensures forall f :: f in r ==> f.pair == pair
  {
    var r := seq(|ids|, i requires 0 <= i < |ids| => Finding(pair, ids[i]));
    assert forall i :: 0 <= i < |ids| ==> r[i] == Finding(pair, ids[i]);
    r
  }

  function MissingOf(p: ResourcePair): set<string> {
    Missing(Index(p.source, p.idOf).Keys, Index(p.local, p.idOf))
  }

  function OrphanOf(p: ResourcePair): set<string> {
    Missing(Index(p.local, p.idOf).Keys, Index(p.source, p.idOf))
  }

  function StaleOf(p: ResourcePair): set<string> {
    var source := Index(p.source, p.idOf);
    Stale(source.Keys, source, Index(p.local, p.idOf))
  }

  /** The findings are exactly the ids of the first n pairs that the kind asks for. */
  ghost predicate Covers(found: seq<Finding>, pairs: seq<ResourcePair>, n: nat, kind: ResourcePair -> set<string>)
    requires n <= |pairs|
  {
    && (forall f :: f in found ==> f.pair < n)
    && forall k, id :: 0 <= k < n ==> (Finding(k, id) in found <==> id in kind(pairs[k]))
  }

  lemma {:induction false} CoversNext(
    found: seq<Finding>, pairs: seq<ResourcePair>, n: nat, kind: ResourcePair -> set<string>, ids: seq<string>)
    requires n < |pairs| && Covers(found, pairs, n, kind) && forall id :: id in ids <==> id in kind(pairs[n])
    ensures Covers(found + Tagged(n, ids), pairs, n + 1, kind)
  {
    var tagged := Tagged(n, ids);
    forall k, id | 0 <= k < n + 1 ensures Finding(k, id) in found + tagged <==> id in kind(pairs[k]) {
      if k < n { assert Finding(k, id) in found <==> id in kind(pairs[k]); }
    }
  }

  /**
   projectionDrift of a family: one pair after the other. The findings of each kind are exactly those of the pairs, and
   their number is the sum of the differing ids over all pairs.
   */
  method FamilyDrift(pairs: seq<ResourcePair>)
    returns (missing: seq<Finding>, orphan: seq<Finding>, stale: seq<Finding>)
    ensures |missing| + |orphan| + |stale| == TotalDiffering(pairs)
    ensures Covers(missing, pairs, |pairs|, MissingOf)
    ensures Covers(orphan, pairs, |pairs|, OrphanOf)
    ensures Covers(stale, pairs, |pairs|, StaleOf)
  {
    missing, orphan, stale := [], [], [];
    for n := 0 to |pairs|
      invariant |missing| + |orphan| + |stale| == TotalDiffering(pairs[..n])
      invariant Covers(missing, pairs, n, MissingOf)
      invariant Covers(orphan, pairs, n, OrphanOf)
      invariant Covers(stale, pairs, n, StaleOf)
    {
      assert pairs[..n + 1][..n] == pairs[..n];
      var r := PairDrift(pairs[n].source, pairs[n].local, pairs[n].idOf);
      CoversNext(missing, pairs, n, MissingOf, r.missing);
      CoversNext(orphan, pairs, n, OrphanOf, r.orphan);
      CoversNext(stale, pairs, n, StaleOf, r.stale);
      missing, orphan, stale := missing + Tagged(n, r.missing), orphan + Tagged(n, r.orphan), stale + Tagged(n, r.stale);
    }
    assert pairs[..|pairs|] == pairs;
  }

  /** A family has no drift iff every pair of indexed tables is equal. */
  lemma {:induction false} NoFamilyDriftIff(pairs: seq<ResourcePair>)
    ensures TotalDiffering(pairs) == 0 <==>
      forall k :: 0 <= k < |pairs| ==> Index(pairs[k].source, pairs[k].idOf) == Index(pairs[k].local, pairs[k].idOf)
  {
    if |pairs| > 0 {
      var n := |pairs| - 1;
      NoFamilyDriftIff(pairs[..n]);
      NoDriftIff(Index(pairs[n].source, pairs[n].idOf), Index(pairs[n].local, pairs[n].idOf));
      assert forall k :: 0 <= k < n ==> pairs[..n][k] == pairs[k];
    }
  }

  lemma SizeOfThree(a: set<string>, b: set<string>, c: set<string>)
    requires a !! b && a !! c && b !! c
    ensures |a + b + c| == |a| + |b| + |c|
  {
    assert (a + b) !! c;
  }

  lemma DifferingIn(source: map<string, Fields>, local: map<string, Fields>, id: string)
    ensures id in Differing(source, local) <==>
            || id in Missing(source.Keys, local)
            || id in Missing(local.Keys, source)
            || id in Stale(source.Keys, source, local)
  {
  }

  lemma DifferingParts(source: map<string, Fields>, local: map<string, Fields>)
    ensures Differing(source, local)
         == Missing(source.Keys, local) + Missing(local.Keys, source) + Stale(source.Keys, source, local)
  {
    forall id ensures id in Differing(source, local) <==>
              id in Missing(source.Keys, local) + Missing(local.Keys, source) + Stale(source.Keys, source, local)
    {
      DifferingIn(source, local, id);
    }
  }

  lemma ThreeParts(source: map<string, Fields>, local: map<string, Fields>)
    ensures |Differing(source, local)|
         == |Missing(source.Keys, local)| + |Missing(local.Keys, source)| + |Stale(source.Keys, source, local)|
  {
    DifferingParts(source, local);
    SizeOfThree(Missing(source.Keys, local), Missing(local.Keys, source), Stale(source.Keys, source, local));
  }

  /** No drift means equal indexed tables. */
  lemma NoDriftIff(source: map<string, Fields>, local: map<string, Fields>)
    ensures |Differing(source, local)| == 0 <==> source == local
  {
    if |Differing(source, local)| == 0 {
      forall id ensures Lookup(source, id) == Lookup(local, id) {
        assert id !in Differing(source, local);
      }
      assert source.Keys == local.Keys by {
        forall id ensures id in source <==> id in local { assert Lookup(source, id) == Lookup(local, id); }
      }
      forall id | id in source ensures source[id] == local[id] { assert Lookup(source, id) == Lookup(local, id); }
    }
  }

  // ---------------------------------------------------------------- stored rows are indexed under their own key

  predicate Trimmed(s: string) { |s| > 0 ==> !IsSpace(s[0]) && !IsSpace(s[|s| - 1]) }

  lemma TrimSpaceTrims(s: string)
    ensures Trimmed(TrimSpace(s))
    ensures Trimmed(s) ==> TrimSpace(s) == s
  {
    var l := TrimLeft(s);
    var r := TrimRight(l);
    if |r| > 0 { assert r[0] == l[0]; }
  }

  lemma {:induction false} TextValueTrimmed(f: Family, data: Fields, keys: seq<string>)
    ensures Trimmed(TextValue(f, data, keys))
  {
    if |keys| > 0 {
      if keys[0] in data {
        match data[keys[0]]
        case Str(s) => TrimSpaceTrims(s);
        case Stringer(s) => TrimSpaceTrims(s);
        case _ =>
      }
      TextValueTrimmed(f, data, keys[1..]);
    }
  }

  lemma {:induction false} FieldTextOfStored(f: Family, data: Fields, key: string, id: string)
    requires key in data && data[key] == Str(id) && Trimmed(id)
    ensures FieldText(f, data, key) == id
  {
    TrimSpaceTrims(id);
  }

  /** The first key whose field has a text decides. */
  lemma {:induction false} FirstTextIs(f: Family, data: Fields, keys: seq<string>, id: string)
    requires |keys| > 0 && FieldText(f, data, keys[0]) == id && id != ""
    ensures TextValue(f, data, keys) == id
  {
  }

  /** A row that carries its id as a trimmed text has that id as read-model id, whatever its resource. */
  lemma {:induction false} RowIdOfStored(f: Family, resource: string, row: Fields, id: string)
    requires "id" in row && row["id"] == Str(id) && id != "" && Trimmed(id)
    ensures RowId(f, resource, row) == id
  {
    FieldTextOfStored(f, row, "id", id);
    if f.Cluster? {
      ClusterIdOfStored(resource, row, id);
    } else {
      FirstTextIs(f, row, ["id"], id);
    }
  }

  lemma {:induction false} ClusterIdOfStored(resource: string, row: Fields, id: string)
    requires FieldText(Cluster, row, "id") == id && id != ""
    ensures ClusterRowId(resource, row) == id
  {
    FirstTextIs(Cluster, row, ["id", "ID"], id);
    FirstIsFirst(
      resource,
      id,
      TextValue(Cluster, row, ["user_id", "userId", "UserID"]),
      TextValue(Cluster, row, ["project_id", "projectId", "ProjectID", "p_id", "pID", "PID"]),
      TextValue(Cluster, row, ["group_id", "groupId", "GroupID"]),
      TextValue(Cluster, row, ["role_id", "roleId", "RoleID"]),
      TextValue(Cluster, row, ["name", "Name"]));
  }

  lemma {:induction false} FirstIsFirst(
    resource: string, id: string, userId: string, projectId: string, groupId: string, roleId: string, name: string)
    requires id != ""
    ensures ClusterIdFrom(resource, id, userId, projectId, groupId, roleId, name) == id
  {
  }

  lemma {:induction false} ClusterMemberRowId(data: Fields, project: string, user: string)
    requires TextValue(Cluster, data, ["id", "ID"]) == "" && project != "" && user != ""
    requires TextValue(Cluster, data, ["project_id", "projectId", "ProjectID", "p_id", "pID", "PID"]) == project
    requires TextValue(Cluster, data, ["user_id", "userId", "UserID"]) == user
    ensures ClusterRowId(CLUSTER_MEMBERS, data) == project + ":" + user
  {
  }

  lemma {:induction false} DashboardMemberRowId(data: Fields, project: string, user: string)
    requires TextValue(Dashboard, data, ["id"]) == "" && project != "" && user != ""
    requires TextValue(Dashboard, data, ["project_id", "projectId"]) == project
    requires TextValue(Dashboard, data, ["user_id", "userId"]) == user
    ensures DashboardRowId(DASHBOARD_MEMBERS, data) == project + ":" + user
  {
  }

  /** A project member without an id of its own is the project's id, a colon and the user's. */
  lemma {:induction false} MemberRowId(f: Family, data: Fields, project: string, user: string)
    requires FieldText(f, data, "id") == "" && FieldText(f, data, "ID") == "" && project != "" && user != ""
    requires FieldText(f, data, "project_id") == project && FieldText(f, data, "user_id") == user
    ensures RowId(f, if f.Cluster? then CLUSTER_MEMBERS else DASHBOARD_MEMBERS, data) == project + ":" + user
  {
    if f.Cluster? {
      NoText(f, data, ["id", "ID"]);
      FirstTextIs(f, data, ["project_id", "projectId", "ProjectID", "p_id", "pID", "PID"], project);
      FirstTextIs(f, data, ["user_id", "userId", "UserID"], user);
      ClusterMemberRowId(data, project, user);
    } else {
      NoText(f, data, ["id"]);
      FirstTextIs(f, data, ["project_id", "projectId"], project);
      FirstTextIs(f, data, ["user_id", "userId"], user);
      DashboardMemberRowId(data, project, user);
    }
  }

  lemma {:induction false} NoText(f: Family, data: Fields, keys: seq<string>)
    requires forall i :: 0 <= i < |keys| ==> FieldText(f, data, keys[i]) == ""
    ensures TextValue(f, data, keys) == ""
  {
    if |keys| > 0 { NoText(f, data, keys[1..]); }
  }

  lemma {:induction false} GroupRowId(data: Fields, user: string, group: string)
    requires TextValue(Cluster, data, ["id", "ID"]) == "" && user != "" && group != ""
    requires TextValue(Cluster, data, ["user_id", "userId", "UserID"]) == user
    requires TextValue(Cluster, data, ["group_id", "groupId", "GroupID"]) == group
    ensures ClusterRowId(CLUSTER_GROUPS, data) == user + ":" + group
  {
  }

  lemma {:induction false} AssignmentRowId(data: Fields, user: string, role: string)
    requires TextValue(Cluster, data, ["id", "ID"]) == "" && user != "" && role != ""
    requires TextValue(Cluster, data, ["user_id", "userId", "UserID"]) == user
    requires TextValue(Cluster, data, ["role_id", "roleId", "RoleID"]) == role
    ensures ClusterRowId(CLUSTER_POLICY_ASSIGNMENTS, data) == role + ":" + user
  {
  }

  /** Group memberships and role assignments without an id compose theirs likewise. */
  lemma {:induction false} MembershipRowIds(data: Fields, user: string, group: string, role: string)
    requires FieldText(Cluster, data, "id") == "" && FieldText(Cluster, data, "ID") == ""
    requires user != "" && FieldText(Cluster, data, "user_id") == user
    ensures group != "" && FieldText(Cluster, data, "group_id") == group ==>
      ClusterRowId(CLUSTER_GROUPS, data) == user + ":" + group
    ensures role != "" && FieldText(Cluster, data, "role_id") == role ==>
      ClusterRowId(CLUSTER_POLICY_ASSIGNMENTS, data) == role + ":" + user
  {
    NoText(Cluster, data, ["id", "ID"]);
    FirstTextIs(Cluster, data, ["user_id", "userId", "UserID"], user);
    if group != "" && FieldText(Cluster, data, "group_id") == group {
      FirstTextIs(Cluster, data, ["group_id", "groupId", "GroupID"], group);
      GroupRowId(data, user, group);
    }
    if role != "" && FieldText(Cluster, data, "role_id") == role {
      FirstTextIs(Cluster, data, ["role_id", "roleId", "RoleID"], role);
      AssignmentRowId(data, user, role);
    }
  }

  lemma {:induction false} FirstNonEmptyTrimmed(values: seq<string>)
    requires forall i :: 0 <= i < |values| ==> Trimmed(values[i])
    ensures Trimmed(FirstNonEmpty(values))
  {
    if |values| > 0 { FirstNonEmptyTrimmed(values[1..]); }
  }

  lemma PairTrimmed(a: string, b: string)
    requires a != "" && b != "" && Trimmed(a) && Trimmed(b)
    ensures Trimmed(a + ":" + b)
  {
    var s := a + ":" + b;
    assert s[0] == a[0] && s[|s| - 1] == b[|b| - 1];
  }

  lemma {:induction false} ClusterIdFromTrimmed(
    resource: string, id: string, userId: string, projectId: string, groupId: string, roleId: string, name: string)
    requires Trimmed(id) && Trimmed(userId) && Trimmed(projectId) && Trimmed(groupId) && Trimmed(roleId) && Trimmed(name)
    ensures Trimmed(ClusterIdFrom(resource, id, userId, projectId, groupId, roleId, name))
  {
    PairsTrimmed(projectId, userId);
    PairsTrimmed(userId, groupId);
    PairsTrimmed(roleId, userId);
    FirstNonEmptyTrimmed([id, projectId]);
    FirstNonEmptyTrimmed([id, roleId, name, userId]);
    FirstNonEmptyTrimmed([id, userId]);
    FirstNonEmptyTrimmed([id, projectId, userId, groupId, roleId, name]);
  }

  lemma {:induction false} ClusterRowIdTrimmed(resource: string, data: Fields)
    ensures Trimmed(ClusterRowId(resource, data))
  {
    TextValueTrimmed(Cluster, data, ["id", "ID"]);
    TextValueTrimmed(Cluster, data, ["user_id", "userId", "UserID"]);
    TextValueTrimmed(Cluster, data, ["project_id", "projectId", "ProjectID", "p_id", "pID", "PID"]);
    TextValueTrimmed(Cluster, data, ["group_id", "groupId", "GroupID"]);
    TextValueTrimmed(Cluster, data, ["role_id", "roleId", "RoleID"]);
    TextValueTrimmed(Cluster, data, ["name", "Name"]);
    ClusterIdFromTrimmed(
      resource,
      TextValue(Cluster, data, ["id", "ID"]),
      TextValue(Cluster, data, ["user_id", "userId", "UserID"]),
      TextValue(Cluster, data, ["project_id", "projectId", "ProjectID", "p_id", "pID", "PID"]),
      TextValue(Cluster, data, ["group_id", "groupId", "GroupID"]),
      TextValue(Cluster, data, ["role_id", "roleId", "RoleID"]),
      TextValue(Cluster, data, ["name", "Name"]));
  }

  lemma PairsTrimmed(a: string, b: string)
    requires Trimmed(a) && Trimmed(b)
    ensures a != "" && b != "" ==> Trimmed(a + ":" + b)
  {
    if a != "" && b != "" { PairTrimmed(a, b); }
  }

  lemma DashboardRowIdTrimmed(resource: string, data: Fields)
    ensures Trimmed(DashboardRowId(resource, data))
  {
    var id := TextValue(Dashboard, data, ["id"]);
    var projectId := TextValue(Dashboard, data, ["project_id", "projectId"]);
    var userId := TextValue(Dashboard, data, ["user_id", "userId"]);
    TextValueTrimmed(Dashboard, data, ["id"]);
    TextValueTrimmed(Dashboard, data, ["project_id", "projectId"]);
    TextValueTrimmed(Dashboard, data, ["user_id", "userId"]);
    PairsTrimmed(projectId, userId);
    FirstNonEmptyTrimmed([id, userId, projectId]);
  }

  /** Every row carries its key's id, as a non-empty trimmed text. */
  ghost predicate SelfKeyed(t: Table) {
    forall k :: k in t ==> k.id != "" && Trimmed(k.id) && "id" in t[k] && t[k]["id"] == Str(k.id)
  }

  lemma {:induction false} UpsertKeepsSelfKeyed(t: Table, k: Key, row: Fields)
    requires SelfKeyed(t) && k.id != "" && Trimmed(k.id) && "id" in row && row["id"] == Str(k.id)
    ensures SelfKeyed(ApplyOp(t, Upsert(k, row)))
  {
  }

  lemma {:induction false} RemoveKeepsSelfKeyed(t: Table, k: Key)
    requires SelfKeyed(t)
    ensures SelfKeyed(ApplyOp(t, Remove(k)))
  {
  }

  lemma {:induction false} RowIdTrimmed(f: Family, resource: string, data: Fields)
    ensures Trimmed(RowId(f, resource, data))
  {
    ClusterRowIdTrimmed(resource, data);
    DashboardRowIdTrimmed(resource, data);
  }

  lemma {:induction false} OpsKeepSelfKeyed(f: Family, resource: string, data: Fields, t: Table)
    requires SelfKeyed(t)
    ensures SelfKeyed(ApplyOp(t, UpsertOp(f, resource, data))) && SelfKeyed(ApplyOp(t, DeleteOp(f, resource, data)))
  {
    var id := RowId(f, resource, data);
    RowIdTrimmed(f, resource, data);
    if id != "" {
      UpsertKeepsSelfKeyed(t, Key(resource, id), data["id" := Str(id)]);
      RemoveKeepsSelfKeyed(t, Key(resource, id));
    }
  }

  lemma {:induction false} EventKeepsSelfKeyed(f: Family, e: Event, t: Table)
    requires SelfKeyed(t)
    ensures SelfKeyed(ApplyOp(t, EventOp(f, e)))
  {
    var p := Project(f, e);
    if p.Some? {
      OpsKeepSelfKeyed(f, p.value.resource, p.value.data, t);
    }
  }

  lemma {:induction false} StreamKeepsSelfKeyed(f: Family, events: seq<Event>, t: Table)
    requires SelfKeyed(t)
    ensures SelfKeyed(Fold(OpsOf(OpOf(f), events), t))
  {
    if |events| > 0 {
      var p := events[..|events| - 1];
      StreamKeepsSelfKeyed(f, p, t);
      assert OpsOf(OpOf(f), events)[..|p|] == OpsOf(OpOf(f), p);
      EventKeepsSelfKeyed(f, events[|p|], Fold(OpsOf(OpOf(f), p), t));
    }
  }

  /** In a read model built from a stream every row is indexed for drift under its own key. */
  lemma ReadModelIndexesByKey(f: Family, events: seq<Event>, k: Key)
    ensures var t := Fold(OpsOf(OpOf(f), events), map[]);
            k in t ==> RowId(f, k.resource, t[k]) == k.id
  {
    StreamKeepsSelfKeyed(f, events, map[]);
    var t := Fold(OpsOf(OpOf(f), events), map[]);
    if k in t { RowIdOfStored(f, k.resource, t[k], k.id); }
  }
}
