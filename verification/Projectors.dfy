/** The two read-model families: which event becomes which row operation, and the handlers that carry it out. */
module Projectors {
  import opened Contracts
  import opened ReadModel
  import opened RecordStore
  import opened Text

  const SERVICE := "usage-observability-service"

  const CLUSTER_ROLES := SERVICE + ":cluster_identity_roles"
  const CLUSTER_USERS := SERVICE + ":cluster_identity_users"
  const CLUSTER_POLICY_ASSIGNMENTS := SERVICE + ":cluster_policy_role_assignments"
  const CLUSTER_POLICY_ROLES := SERVICE + ":cluster_policy_roles"
  const CLUSTER_MEMBERS := SERVICE + ":cluster_project_members"
  const CLUSTER_PROJECTS := SERVICE + ":cluster_projects"
  const CLUSTER_GROUPS := SERVICE + ":cluster_user_groups"

  const DASHBOARD_FORMS := SERVICE + ":dashboard_forms"
  const DASHBOARD_QUOTAS := SERVICE + ":dashboard_live_quotas"
  const DASHBOARD_MEMBERS := SERVICE + ":dashboard_project_members"
  const DASHBOARD_PROJECTS := SERVICE + ":dashboard_projects"
  const DASHBOARD_QUEUES := SERVICE + ":dashboard_queues"
  const DASHBOARD_USERS := SERVICE + ":dashboard_users"

  datatype Family = Cluster | Dashboard

  /** What an event asks of a read model: the resource, the row data, and whether it is a deletion. */
  datatype Projection = Projection(resource: string, data: Fields, deleted: bool)

  // ---------------------------------------------------------------- field access

  /** A field's text; only the dashboard family also accepts values that print themselves. */
  function FieldText(f: Family, data: Fields, key: string): string {
    if key !in data then ""
    else match data[key]
      case Str(s) => TrimSpace(s)
      case Stringer(s) => if f.Dashboard? then TrimSpace(s) else ""
      case _ => ""
  }

  function TextValue(f: Family, data: Fields, keys: seq<string>): string {
    if |keys| == 0 then ""
    else if FieldText(f, data, keys[0]) != "" then FieldText(f, data, keys[0])
    else TextValue(f, data, keys[1..])
  }

  function FirstNonEmpty(values: seq<string>): string {
    if |values| == 0 then "" else if values[0] != "" then values[0] else FirstNonEmpty(values[1..])
  }

  function EventData(e: Event): Fields {
    if "new" in e.data && e.data["new"].Obj? then e.data["new"].fields else e.data
  }

  // ---------------------------------------------------------------- row identity

  function ClusterRowId(resource: string, data: Fields): string {
    ClusterIdFrom(
      resource,
      TextValue(Cluster, data, ["id", "ID"]),
      TextValue(Cluster, data, ["user_id", "userId", "UserID"]),
      TextValue(Cluster, data, ["project_id", "projectId", "ProjectID", "p_id", "pID", "PID"]),
      TextValue(Cluster, data, ["group_id", "groupId", "GroupID"]),
      TextValue(Cluster, data, ["role_id", "roleId", "RoleID"]),
      TextValue(Cluster, data, ["name", "Name"]))
  }

  function ClusterIdFrom(
    resource: string, id: string, userId: string, projectId: string, groupId: string, roleId: string, name: string): string
  {
    if resource == CLUSTER_MEMBERS && id == "" && projectId != "" && userId != "" then projectId + ":" + userId
    else if resource == CLUSTER_GROUPS && id == "" && userId != "" && groupId != "" then userId + ":" + groupId
    else if resource == CLUSTER_POLICY_ASSIGNMENTS && id == "" && roleId != "" && userId != "" then
      roleId + ":" + userId
    else if resource == CLUSTER_PROJECTS then FirstNonEmpty([id, projectId])
    else if resource == CLUSTER_ROLES || resource == CLUSTER_POLICY_ROLES then
      FirstNonEmpty([id, roleId, name, userId])
    else if resource == CLUSTER_USERS then FirstNonEmpty([id, userId])
    else FirstNonEmpty([id, projectId, userId, groupId, roleId, name])
  }

  function DashboardRowId(resource: string, data: Fields): string {
    var id := TextValue(Dashboard, data, ["id"]);
    var projectId := TextValue(Dashboard, data, ["project_id", "projectId"]);
    var userId := TextValue(Dashboard, data, ["user_id", "userId"]);
    if resource == DASHBOARD_MEMBERS && id == "" && projectId != "" && userId != "" then projectId + ":" + userId
    else FirstNonEmpty([id, userId, projectId])
  }

  function RowId(f: Family, resource: string, data: Fields): string {
    if f.Cluster? then ClusterRowId(resource, data) else DashboardRowId(resource, data)
  }

  // ---------------------------------------------------------------- event dispatch

  function Stored(resource: string, e: Event): Option<Projection> {
    Some(Projection(resource, EventData(e), false))
  }

  function Deleted(resource: string, e: Event): Option<Projection> {
    Some(Projection(resource, EventData(e), true))
  }

  function ProxyPolicyProjection(e: Event): Option<Projection> {
    var action := ToLower(TextValue(Cluster, EventData(e), ["action"]));
    if action == "role_create" || action == "role_update" then Stored(CLUSTER_POLICY_ROLES, e)
    else if action == "role_delete" then Deleted(CLUSTER_POLICY_ROLES, e)
    else if action == "role_user_assign" then Stored(CLUSTER_POLICY_ASSIGNMENTS, e)
    else if action == "role_user_unassign" then Deleted(CLUSTER_POLICY_ASSIGNMENTS, e)
    else None
  }

  function GroupMembershipProjection(e: Event): Option<Projection> {
    if "new" in e.data && e.data["new"].Obj? then Stored(CLUSTER_GROUPS, e)
    else
      var action := ToLower(TextValue(Cluster, EventData(e), ["action"]));
      Some(Projection(CLUSTER_GROUPS, EventData(e), action == "delete" || action == "deleted"))
  }

  function ClusterProjection(e: Event): Option<Projection> {
    var name := ToLower(e.name);
    if name == "usercreated" || name == "userupdated" || name == "userdisabled" then Stored(CLUSTER_USERS, e)
    else if name == "userdeleted" then Deleted(CLUSTER_USERS, e)
    else if name == "rolecreated" || name == "roleupdated" then Stored(CLUSTER_ROLES, e)
    else if name == "roledeleted" then Deleted(CLUSTER_ROLES, e)
    else if name == "projectcreated" || name == "projectupdated" then Stored(CLUSTER_PROJECTS, e)
    else if name == "projectdeleted" then Deleted(CLUSTER_PROJECTS, e)
    else if name == "project_membercreated" || name == "project_memberupdated" then Stored(CLUSTER_MEMBERS, e)
    else if name == "project_memberdeleted" then Deleted(CLUSTER_MEMBERS, e)
    else if name == "groupmembershipchanged" then GroupMembershipProjection(e)
    else if name == "proxypolicychanged" then ProxyPolicyProjection(e)
    else None
  }

  function DashboardProjection(e: Event): Option<Projection> {
    var name := ToLower(e.name);
    if name == "usercreated" || name == "userupdated" || name == "userdisabled" then Stored(DASHBOARD_USERS, e)
    else if name == "userdeleted" then Deleted(DASHBOARD_USERS, e)
    else if name == "projectcreated" || name == "projectupdated" then Stored(DASHBOARD_PROJECTS, e)
    else if name == "projectdeleted" then Deleted(DASHBOARD_PROJECTS, e)
    else if name == "project_membercreated" || name == "project_memberupdated" then Stored(DASHBOARD_MEMBERS, e)
    else if name == "project_memberdeleted" then Deleted(DASHBOARD_MEMBERS, e)
    else if name == "formcreated" || name == "formupdated" then Stored(DASHBOARD_FORMS, e)
    else if name == "formdeleted" then Deleted(DASHBOARD_FORMS, e)
    else if name == "live_quotacreated" || name == "live_quotaupdated" then Stored(DASHBOARD_QUOTAS, e)
    else if name == "live_quotadeleted" then Deleted(DASHBOARD_QUOTAS, e)
    else if name == "queuecreated" || name == "queueupdated" then Stored(DASHBOARD_QUEUES, e)
    else if name == "queuedeleted" then Deleted(DASHBOARD_QUEUES, e)
    else None
  }

  function Project(f: Family, e: Event): Option<Projection> {
    if f.Cluster? then ClusterProjection(e) else DashboardProjection(e)
  }

  // ---------------------------------------------------------------- events as row operations

  function UpsertOp(f: Family, resource: string, data: Fields): RowOp {
    var id := RowId(f, resource, data);
    if id == "" then Skip else Upsert(Key(resource, id), data["id" := Str(id)])
  }

  function DeleteOp(f: Family, resource: string, data: Fields): RowOp {
    var id := RowId(f, resource, data);
    if ("deleted" in data && data["deleted"] == Bool(false)) || id == "" then Skip else Remove(Key(resource, id))
  }

  function EventOp(f: Family, e: Event): RowOp {
    match Project(f, e)
    case None => Skip
    case Some(p) => if p.deleted then DeleteOp(f, p.resource, p.data) else UpsertOp(f, p.resource, p.data)
  }

  /** The operation a family performs for an event, as a function value. */
  function OpOf(f: Family): (op: Event -> RowOp)
    ensures forall e :: op(e) == EventOp(f, e)
  {
    (e: Event) => EventOp(f, e)
  }

  /** No projected event name has 23 letters, and none of 17 letters starts with a p. */
  lemma UnprojectedName(f: Family, e: Event)
    requires |e.name| == 23 || (|e.name| == 17 && e.name[0] == 'P')
    ensures Project(f, e) == None
  {
    var name := ToLower(e.name);
    if |name| == 17 {
      assert name[0] == 'p';
      assert "live_quotacreated"[0] == 'l' && "live_quotaupdated"[0] == 'l' && "live_quotadeleted"[0] == 'l';
    }
  }

  /** The events the reconciler publishes itself touch no read model. */
  lemma ReconcilerEventsSkip(f: Family, e: Event)
    requires e.name == "ProjectionDriftDetected" || e.name == "ProjectionRebuilt"
    ensures EventOp(f, e).Skip?
  {
    assert |"ProjectionDriftDetected"| == 23 && |"ProjectionRebuilt"| == 17 && "ProjectionRebuilt"[0] == 'P';
    UnprojectedName(f, e);
  }

  // ---------------------------------------------------------------- what the event names mean

  /** The entities each family projects, and where. */
  function Entities(f: Family): map<string, string> {
    if f.Cluster? then
      map["user" := CLUSTER_USERS, "role" := CLUSTER_ROLES, "project" := CLUSTER_PROJECTS, "project_member" := CLUSTER_MEMBERS]
    else
      map["user" := DASHBOARD_USERS, "project" := DASHBOARD_PROJECTS, "project_member" := DASHBOARD_MEMBERS,
          "form" := DASHBOARD_FORMS, "live_quota" := DASHBOARD_QUOTAS, "queue" := DASHBOARD_QUEUES]
  }

  /** A created or updated entity is stored and a deleted one removed, in the resource of the entity. */
  ghost predicate FollowsName(f: Family, e: Event, entity: string, resource: string) {
    var name := ToLower(e.name);
    && (name == entity + "created" || name == entity + "updated" ==> Project(f, e) == Stored(resource, e))
    && (name == entity + "deleted" ==> Project(f, e) == Deleted(resource, e))
  }

  lemma {:induction false} UserEvents(f: Family, e: Event)
    ensures FollowsName(f, e, "user", if f.Cluster? then CLUSTER_USERS else DASHBOARD_USERS)
  {
    assert "user" + "created" == "usercreated" && "user" + "updated" == "userupdated" && "user" + "deleted" == "userdeleted";
  }

  lemma {:induction false} DisabledUserIsStored(f: Family, e: Event)
    requires ToLower(e.name) == "userdisabled"
    ensures Project(f, e) == Stored(if f.Cluster? then CLUSTER_USERS else DASHBOARD_USERS, e)
  {
  }

  lemma {:induction false} ProjectEvents(f: Family, e: Event)
    ensures FollowsName(f, e, "project", if f.Cluster? then CLUSTER_PROJECTS else DASHBOARD_PROJECTS)
  {
    assert "project" + "created" == "projectcreated" && "project" + "updated" == "projectupdated";
    assert "project" + "deleted" == "projectdeleted";
  }

  lemma {:induction false} MemberEvents(f: Family, e: Event)
    ensures FollowsName(f, e, "project_member", if f.Cluster? then CLUSTER_MEMBERS else DASHBOARD_MEMBERS)
  {
    assert "project_member" + "created" == "project_membercreated";
    assert "project_member" + "updated" == "project_memberupdated";
    assert "project_member" + "deleted" == "project_memberdeleted";
  }

  lemma {:induction false} RoleEvents(e: Event)
    ensures FollowsName(Cluster, e, "role", CLUSTER_ROLES)
  {
    assert "role" + "created" == "rolecreated" && "role" + "updated" == "roleupdated" && "role" + "deleted" == "roledeleted";
  }

  lemma {:induction false} FormEvents(e: Event)
    ensures FollowsName(Dashboard, e, "form", DASHBOARD_FORMS)
  {
    assert "form" + "created" == "formcreated" && "form" + "updated" == "formupdated" && "form" + "deleted" == "formdeleted";
  }

  lemma {:induction false} QuotaEvents(e: Event)
    ensures FollowsName(Dashboard, e, "live_quota", DASHBOARD_QUOTAS)
  {
    assert "live_quota" + "created" == "live_quotacreated" && "live_quota" + "updated" == "live_quotaupdated";
    assert "live_quota" + "deleted" == "live_quotadeleted";
  }

  lemma {:induction false} QueueStored(e: Event)
    requires ToLower(e.name) == "queuecreated" || ToLower(e.name) == "queueupdated"
    ensures Project(Dashboard, e) == Stored(DASHBOARD_QUEUES, e)
  {
  }

  lemma {:induction false} QueueDeleted(e: Event)
    requires ToLower(e.name) == "queuedeleted"
    ensures Project(Dashboard, e) == Deleted(DASHBOARD_QUEUES, e)
  {
  }

  lemma {:induction false} QueueEvents(e: Event)
    ensures FollowsName(Dashboard, e, "queue", DASHBOARD_QUEUES)
  {
    assert "queue" + "created" == "queuecreated" && "queue" + "updated" == "queueupdated" && "queue" + "deleted" == "queuedeleted";
    var name := ToLower(e.name);
    if name == "queuecreated" || name == "queueupdated" {
      QueueStored(e);
    } else if name == "queuedeleted" {
      QueueDeleted(e);
    }
  }

  /** For every entity of either family the event's name says what happens to its row. */
  lemma {:induction false} EntityEvents(f: Family, e: Event, entity: string)
    requires entity in Entities(f)
    ensures FollowsName(f, e, entity, Entities(f)[entity])
  {
    UserEvents(f, e);
    ProjectEvents(f, e);
    MemberEvents(f, e);
    RoleEvents(e);
    FormEvents(e);
    QuotaEvents(e);
    QueueEvents(e);
  }

  lemma {:induction false} ChangedNames(e: Event)
    ensures ToLower(e.name) == "proxypolicychanged" ==> Project(Cluster, e) == ProxyPolicyProjection(e)
    ensures ToLower(e.name) == "groupmembershipchanged" ==> Project(Cluster, e) == GroupMembershipProjection(e)
  {
  }

  /** Role changes of the proxy policies follow their action. */
  lemma {:induction false} PolicyActions(e: Event, action: string)
    requires action == ToLower(TextValue(Cluster, EventData(e), ["action"]))
    ensures action == "role_create" || action == "role_update" ==> ProxyPolicyProjection(e) == Stored(CLUSTER_POLICY_ROLES, e)
    ensures action == "role_delete" ==> ProxyPolicyProjection(e) == Deleted(CLUSTER_POLICY_ROLES, e)
    ensures action == "role_user_assign" ==> ProxyPolicyProjection(e) == Stored(CLUSTER_POLICY_ASSIGNMENTS, e)
    ensures action == "role_user_unassign" ==> ProxyPolicyProjection(e) == Deleted(CLUSTER_POLICY_ASSIGNMENTS, e)
  {
  }

  /** Group changes are deletions only if they carry no new state and say so. */
  lemma {:induction false} GroupActions(e: Event, action: string)
    requires action == ToLower(TextValue(Cluster, EventData(e), ["action"]))
    ensures GroupMembershipProjection(e).Some? && GroupMembershipProjection(e).value.resource == CLUSTER_GROUPS
    ensures GroupMembershipProjection(e).value.deleted <==>
      !("new" in e.data && e.data["new"].Obj?) && (action == "delete" || action == "deleted")
  {
  }

  /** An event that carries a new state is projected by that state's fields. */
  lemma {:induction false} NewStateIsProjected(resource: string, e: Event)
    requires "new" in e.data && e.data["new"].Obj?
    ensures Stored(resource, e) == Some(Projection(resource, e.data["new"].fields, false))
    ensures Deleted(resource, e) == Some(Projection(resource, e.data["new"].fields, true))
  {
  }

  /** A deletion removes the row with the event's id, unless the event says it is not deleted. */
  lemma {:induction false} DeletionRemoves(f: Family, e: Event)
    requires Project(f, e).Some? && Project(f, e).value.deleted
    ensures var p := Project(f, e).value; var id := RowId(f, p.resource, p.data);
      EventOp(f, e) ==
        if id == "" || ("deleted" in p.data && p.data["deleted"] == Bool(false)) then Skip else Remove(Key(p.resource, id))
  {
  }

  // ---------------------------------------------------------------- the handlers

  method UpsertReadModel(f: Family, store: Store, resource: string, data: Fields)
    modifies store`data
    ensures store.data == ApplyOp(old(store.data), UpsertOp(f, resource, data))
  {
    var id := RowId(f, resource, data);
    if id == "" {
      return;
    }
    var row := data["id" := Str(id)];
    var updated := store.Update(resource, id, row);
    if updated {
      return;
    }
    var created := store.Create(resource, row, "");
    assert created && row["id" := Str(id)] == row;
    assert map[] + row == row;
  }

  method DeleteReadModel(f: Family, store: Store, resource: string, data: Fields)
    modifies store`data
    ensures store.data == ApplyOp(old(store.data), DeleteOp(f, resource, data))
  {
    if "deleted" in data && data["deleted"] == Bool(false) {
      return;
    }
    var id := RowId(f, resource, data);
    if id != "" {
      var _ := store.Delete(resource, id);
    }
  }

  method ProjectEvent(f: Family, store: Store, e: Event)
    modifies store`data
    ensures store.data == ApplyOp(old(store.data), EventOp(f, e))
  {
    var p := Project(f, e);
    if p.Some? {
      if p.value.deleted {
        DeleteReadModel(f, store, p.value.resource, p.value.data);
      } else {
        UpsertReadModel(f, store, p.value.resource, p.value.data);
      }
    }
  }
}
