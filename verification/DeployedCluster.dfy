/** What a cluster owns after an attempt, resource by resource, in terms of the object's fields alone. */
module DeployedCluster {
  import opened Wrappers
  import opened Pods
  import opened Reconcile
  import opened ReconcileRuns

  /******* The deployed cluster *******/

  /** The store has this resource under this name, with the owner's labels. */
  ghost predicate Has(store: Store, owner: string, kind: Kind, name: string, m: Manifest) {
    ResourceId(kind, name) in store && store[ResourceId(kind, name)] == Object(m, owner)
  }

  ghost predicate HasBase(store: Store, owner: string, image: string) {
    && Has(store, owner, ServiceAccountKind, owner + "-serviceaccount", ServiceAccount(owner))
    && Has(store, owner, RoleBindingKind, owner + "-rolebinding", RoleBinding(owner, owner + "-serviceaccount"))
    && Has(store, owner, ServiceKind, owner, RoleService(owner, image))
  }

  /** Service, config map and stateful set of a role group, under the group's object name. */
  ghost predicate HasGroup(store: Store, owner: string, image: string, vector: Option<string>, g: GroupSpec) {
    var name, ref := owner + "-server-" + g.name, RoleGroupRef(owner, "server", g.name);
    && Has(store, owner, ServiceKind, name, GroupService(ref, image))
    && Has(store, owner, ConfigMapKind, name, ConfigMap(ref, g.config, vector))
    && Has(store, owner, StatefulSetKind, name,
           StatefulSet(ref, image, g.config, g.replicas, owner + "-serviceaccount"))
  }

  ghost predicate HasBudget(store: Store, owner: string, pdb: PdbConfig) {
    Has(store, owner, PdbKind, owner + "-server",
        Pdb(owner, "server", match pdb.maxUnavailable case Some(n) => n case None => 1))
  }

  /** One of the names under which the cluster has a resource. */
  ghost predicate IsListed(owner: string, servers: ServerRole, id: ResourceId) {
    || id == ResourceId(ServiceAccountKind, owner + "-serviceaccount")
    || id == ResourceId(RoleBindingKind, owner + "-rolebinding")
    || id == ResourceId(ServiceKind, owner)
    || (exists g :: g in servers.groups && IsOfGroup(owner, g.name, id))
    || (servers.pdb.enabled && id == ResourceId(PdbKind, owner + "-server"))
  }

  ghost predicate IsOfGroup(owner: string, group: string, id: ResourceId) {
    && id.name == owner + "-server-" + group
    && (id.kind == ServiceKind || id.kind == ConfigMapKind || id.kind == StatefulSetKind)
  }

  /** The store has the cluster's account, binding and role service, the three resources of every role group, a
      disruption budget if it is enabled, and nothing else with the owner's labels. */
  ghost predicate IsDeployed(store: Store, owner: string, image: string, servers: ServerRole, vector: Option<string>) {
    && HasBase(store, owner, image)
    && (forall g :: g in servers.groups ==> HasGroup(store, owner, image, vector, g))
    && (servers.pdb.enabled ==> HasBudget(store, owner, servers.pdb))
    && forall id :: id in store && store[id].owner == owner ==> IsListed(owner, servers, id)
  }

  lemma {:induction false} ObjectNameByParts(owner: string, group: string)
    ensures RoleGroupRef(owner, "server", group).ObjectName() == owner + "-server-" + group
  {
    assert owner + "-" + "server" + "-" == owner + "-server-";
  }

  /******* The plan, resource by resource *******/

  function ResourceCount(servers: ServerRole): nat {
    3 + 3 * |servers.groups| + if servers.pdb.enabled then 1 else 0
  }

  /** The i-th resource that an attempt applies. */
  function Resource(owner: string, image: string, servers: ServerRole, vector: Option<string>, i: nat): Manifest
    requires i < ResourceCount(servers)
  {
    if i == 0 then ServiceAccount(owner)
    else if i == 1 then RoleBinding(owner, owner + "-serviceaccount")
    else if i == 2 then RoleService(owner, image)
    else if i < 3 + 3 * |servers.groups| then
      GroupResource(owner, image, vector, servers.groups[(i - 3) / 3], (i - 3) % 3)
    else Budget(owner, servers.pdb)
  }

  function Budget(owner: string, pdb: PdbConfig): Manifest {
    Pdb(owner, "server", match pdb.maxUnavailable case Some(n) => n case None => 1)
  }

  function GroupResource(owner: string, image: string, vector: Option<string>, g: GroupSpec, j: nat): Manifest
    requires j < 3
  {
    var ref := RoleGroupRef(owner, "server", g.name);
    if j == 0 then GroupService(ref, image)
    else if j == 1 then ConfigMap(ref, g.config, vector)
    else StatefulSet(ref, image, g.config, g.replicas, owner + "-serviceaccount")
  }

  lemma {:induction false} GroupPlansAt(owner: string, image: string, vector: Option<string>, groups: seq<GroupSpec>)
    ensures |GroupPlans(owner, image, vector, groups)| == 3 * |groups|
    ensures forall i :: 0 <= i < 3 * |groups| ==>
              GroupPlans(owner, image, vector, groups)[i] == GroupResource(owner, image, vector, groups[i / 3], i % 3)
  {
    if groups != [] {
      var init, last := groups[..|groups| - 1], groups[|groups| - 1];
      GroupPlansAt(owner, image, vector, init);
      forall i | 0 <= i < 3 * |groups|
        ensures GroupPlans(owner, image, vector, groups)[i]
                == GroupResource(owner, image, vector, groups[i / 3], i % 3)
      {
        if i < 3 * |init| {
          assert groups[i / 3] == init[i / 3];
        } else {
          assert i / 3 == |init| && i % 3 == i - 3 * |init|;
        }
      }
    }
  }

  /** What an attempt applies, and in which order: account, binding, role service; service, config map and stateful set
      of one role group after the other; the budget. */
  lemma {:induction false} PlanAt(owner: string, image: string, servers: ServerRole, vector: Option<string>)
    ensures |Plan(owner, image, servers, vector)| == ResourceCount(servers)
    ensures forall i :: 0 <= i < ResourceCount(servers) ==>
              Plan(owner, image, servers, vector)[i] == Resource(owner, image, servers, vector, i)
  {
    GroupPlansAt(owner, image, vector, servers.groups);
  }

  /** The j-th call for a role group: its configuration, its builders, and the three applies. */
  function GroupCall(group: string, j: nat): Error
    requires j < 5
  {
    if j == 0 then FailedToResolveResourceConfig(group)
    else if j == 1 then BuildRoleGroup(group)
    else if j == 2 then ApplyRoleGroupService(group)
    else if j == 3 then ApplyRoleGroupConfig(group)
    else ApplyRoleGroupStatefulSet(group)
  }

  lemma {:induction false} GroupsCallsAt(groups: seq<GroupSpec>)
    ensures |GroupsCalls(groups)| == 5 * |groups|
    ensures forall i :: 0 <= i < 5 * |groups| ==> GroupsCalls(groups)[i] == GroupCall(groups[i / 5].name, i % 5)
  {
    if groups != [] {
      var init, last := groups[..|groups| - 1], groups[|groups| - 1];
      GroupsCallsAt(init);
      forall i | 0 <= i < 5 * |groups| ensures GroupsCalls(groups)[i] == GroupCall(groups[i / 5].name, i % 5) {
        if i < 5 * |init| {
          assert groups[i / 5] == init[i / 5];
        } else {
          assert i / 5 == |init| && i % 5 == i - 5 * |init|;
        }
      }
    }
  }

  /** The calls of an attempt by position: the validation, six calls for what all groups share, five for each group, two
      for the budget if it is enabled, and the status patch. */
  lemma {:induction false} CallsAt(servers: ServerRole)
    ensures var calls, n := Calls(servers), 7 + 5 * |servers.groups|;
            && |calls| == n + (if servers.pdb.enabled then 3 else 1)
            && calls[0] == InvalidProductConfig && calls[1] == BuildRbacResources
            && calls[2] == ApplyServiceAccount && calls[3] == ApplyRoleBinding
            && calls[4] == BuildRoleService && calls[5] == ApplyRoleService
            && calls[6] == ResolveVectorAggregatorAddress
            && (forall i :: 7 <= i < n ==> calls[i] == GroupCall(servers.groups[(i - 7) / 5].name, (i - 7) % 5))
            && (forall i :: n <= i < |calls| - 1 ==> calls[i] == FailedToCreatePdb)
            && calls[|calls| - 1] == ApplyStatus
  {
    GroupsCallsAt(servers.groups);
    var calls, base := Calls(servers), [InvalidProductConfig] + BaseCalls();
    assert |base| == 7 && base[0] == InvalidProductConfig;
    forall i | 7 <= i < 7 + 5 * |servers.groups| ensures calls[i] == GroupsCalls(servers.groups)[i - 7] {
    }
  }

  /** The resource is stored under its own id. */
  ghost predicate IsStored(store: Store, owner: string, m: Manifest) {
    m.Id() in store && store[m.Id()] == Object(m, owner)
  }

  lemma {:induction false} BaseStored(store: Store, owner: string, image: string)
    ensures HasBase(store, owner, image) <==>
            && IsStored(store, owner, ServiceAccount(owner))
            && IsStored(store, owner, RoleBinding(owner, owner + "-serviceaccount"))
            && IsStored(store, owner, RoleService(owner, image))
  {
  }

  lemma {:induction false} BudgetStored(store: Store, owner: string, pdb: PdbConfig)
    ensures HasBudget(store, owner, pdb) <==> IsStored(store, owner, Budget(owner, pdb))
  {
    assert owner + "-" + "server" == owner + "-server";
  }

  lemma {:induction false} GroupStored(
      store: Store, owner: string, image: string, vector: Option<string>, g: GroupSpec)
    ensures HasGroup(store, owner, image, vector, g) <==>
            && IsStored(store, owner, GroupResource(owner, image, vector, g, 0))
            && IsStored(store, owner, GroupResource(owner, image, vector, g, 1))
            && IsStored(store, owner, GroupResource(owner, image, vector, g, 2))
  {
    ObjectNameByParts(owner, g.name);
  }

  lemma {:induction false} GroupIds(owner: string, image: string, vector: Option<string>, g: GroupSpec, id: ResourceId)
    ensures IsOfGroup(owner, g.name, id) <==>
            exists j :: 0 <= j < 3 && id == GroupResource(owner, image, vector, g, j).Id()
  {
    ObjectNameByParts(owner, g.name);
    assert IsOfGroup(owner, g.name, id) <==>
           || id == GroupResource(owner, image, vector, g, 0).Id()
           || id == GroupResource(owner, image, vector, g, 1).Id()
           || id == GroupResource(owner, image, vector, g, 2).Id();
  }

  /** The members of the plan are the resources that the object's fields ask for. */
  ghost predicate IsResource(
      owner: string, image: string, servers: ServerRole, vector: Option<string>, m: Manifest)
  {
    || m == ServiceAccount(owner) || m == RoleBinding(owner, owner + "-serviceaccount")
    || m == RoleService(owner, image)
    || (exists g, j :: g in servers.groups && 0 <= j < 3 && m == GroupResource(owner, image, vector, g, j))
    || (servers.pdb.enabled && m == Budget(owner, servers.pdb))
  }

  lemma {:induction false} GroupPlanMembers(
      owner: string, image: string, vector: Option<string>, g: GroupSpec, m: Manifest)
    ensures m in GroupPlan(owner, image, vector, g) <==>
            exists j :: 0 <= j < 3 && m == GroupResource(owner, image, vector, g, j)
  {
    assert m in GroupPlan(owner, image, vector, g) <==>
           || m == GroupResource(owner, image, vector, g, 0)
           || m == GroupResource(owner, image, vector, g, 1)
           || m == GroupResource(owner, image, vector, g, 2);
  }

  lemma {:induction false} PlanMembers(
      owner: string, image: string, servers: ServerRole, vector: Option<string>, m: Manifest)
    ensures m in Plan(owner, image, servers, vector) <==> IsResource(owner, image, servers, vector, m)
  {
    GroupPlansMembers(owner, image, vector, servers.groups, m);
    forall g { GroupPlanMembers(owner, image, vector, g, m); }
  }

  /** All resources are stored, and only their ids carry the owner's labels. */
  ghost predicate IsStoredPlan(store: Store, owner: string, plan: seq<Manifest>) {
    && (forall m :: m in plan ==> IsStored(store, owner, m))
    && (forall id :: id in store && store[id].owner == owner ==> id in Ids(plan))
  }

  lemma {:induction false} ListedIds(
      owner: string, image: string, servers: ServerRole, vector: Option<string>, id: ResourceId)
    ensures id in Ids(Plan(owner, image, servers, vector)) <==> IsListed(owner, servers, id)
  {
    var plan := Plan(owner, image, servers, vector);
    if id in Ids(plan) {
      var m :| m in plan && id == m.Id();
      PlanMembers(owner, image, servers, vector, m);
      if g, j :| g in servers.groups && 0 <= j < 3 && m == GroupResource(owner, image, vector, g, j) {
        GroupIds(owner, image, vector, g, id);
      }
    }
    if IsListed(owner, servers, id) {
      var m := ListedResource(owner, image, servers, vector, id);
      PlanMembers(owner, image, servers, vector, m);
    }
  }

  lemma {:induction false} ListedResource(
      owner: string, image: string, servers: ServerRole, vector: Option<string>, id: ResourceId)
    returns (m: Manifest)
    requires IsListed(owner, servers, id)
    ensures IsResource(owner, image, servers, vector, m) && m.Id() == id
  {
    if id == ResourceId(ServiceAccountKind, owner + "-serviceaccount") {
      m := ServiceAccount(owner);
    } else if id == ResourceId(RoleBindingKind, owner + "-rolebinding") {
      m := RoleBinding(owner, owner + "-serviceaccount");
    } else if id == ResourceId(ServiceKind, owner) {
      m := RoleService(owner, image);
    } else if g :| g in servers.groups && IsOfGroup(owner, g.name, id) {
      GroupIds(owner, image, vector, g, id);
      var j :| 0 <= j < 3 && id == GroupResource(owner, image, vector, g, j).Id();
      m := GroupResource(owner, image, vector, g, j);
    } else {
      m := Budget(owner, servers.pdb);
    }
  }

  lemma {:induction false} DeployedStores(
      store: Store, owner: string, image: string, servers: ServerRole, vector: Option<string>, m: Manifest)
    requires IsDeployed(store, owner, image, servers, vector) && IsResource(owner, image, servers, vector, m)
    ensures IsStored(store, owner, m)
  {
    BaseStored(store, owner, image);
    BudgetStored(store, owner, servers.pdb);
    if g, j :| g in servers.groups && 0 <= j < 3 && m == GroupResource(owner, image, vector, g, j) {
      assert HasGroup(store, owner, image, vector, g);
      GroupStored(store, owner, image, vector, g);
      assert j == 0 || j == 1 || j == 2;
    }
  }

  lemma {:induction false} StoredPlanHas(
      store: Store, owner: string, image: string, servers: ServerRole, vector: Option<string>)
    requires forall m :: IsResource(owner, image, servers, vector, m) ==> IsStored(store, owner, m)
    ensures HasBase(store, owner, image)
    ensures forall g :: g in servers.groups ==> HasGroup(store, owner, image, vector, g)
    ensures servers.pdb.enabled ==> HasBudget(store, owner, servers.pdb)
  {
    BaseStored(store, owner, image);
    forall g | g in servers.groups ensures HasGroup(store, owner, image, vector, g) {
      GroupStored(store, owner, image, vector, g);
      forall j | 0 <= j < 3 ensures IsStored(store, owner, GroupResource(owner, image, vector, g, j)) {
        assert IsResource(owner, image, servers, vector, GroupResource(owner, image, vector, g, j));
      }
    }
    if servers.pdb.enabled {
      BudgetStored(store, owner, servers.pdb);
      assert IsResource(owner, image, servers, vector, Budget(owner, servers.pdb));
    }
  }

  lemma {:induction false} DeployedIsStoredPlan(
      store: Store, owner: string, image: string, servers: ServerRole, vector: Option<string>)
    ensures IsDeployed(store, owner, image, servers, vector) <==>
            IsStoredPlan(store, owner, Plan(owner, image, servers, vector))
  {
    var plan := Plan(owner, image, servers, vector);
    forall m { PlanMembers(owner, image, servers, vector, m); }
    forall id { ListedIds(owner, image, servers, vector, id); }
    if IsDeployed(store, owner, image, servers, vector) {
      forall m | m in plan ensures IsStored(store, owner, m) {
        DeployedStores(store, owner, image, servers, vector, m);
      }
    }
    if IsStoredPlan(store, owner, plan) {
      StoredPlanHas(store, owner, image, servers, vector);
    }
  }

  /** With distinct group names, a cluster is deployed exactly when the owner's part of the store is the desired one. */
  lemma {:induction false} DeployedIsDesired(
      store: Store, owner: string, image: string, servers: ServerRole, vector: Option<string>)
    requires DistinctGroups(servers.groups)
    ensures IsDeployed(store, owner, image, servers, vector) <==>
            OwnedPart(store, owner) == Desired(owner, Plan(owner, image, servers, vector))
  {
    var plan := Plan(owner, image, servers, vector);
    PlanIdsDistinct(owner, image, servers, vector);
    DeployedIsStoredPlan(store, owner, image, servers, vector);
    StoredPlanIsDesired(store, owner, plan);
  }

  lemma {:induction false} StoredPlanIsDesired(store: Store, owner: string, plan: seq<Manifest>)
    requires DistinctIds(plan)
    ensures IsStoredPlan(store, owner, plan) <==> OwnedPart(store, owner) == Desired(owner, plan)
  {
    var left, right := OwnedPart(store, owner), Desired(owner, plan);
    forall id { ApplyAllEntry(map[], owner, plan, id); }
    forall m | m in plan ensures m.Id() in right && right[m.Id()] == Object(m, owner) {
      DesiredHasEveryManifest(owner, plan, m);
    }
    if left == right {
      forall m | m in plan ensures IsStored(store, owner, m) {
        assert m.Id() in left && left[m.Id()] == Object(m, owner);
      }
      forall id | id in store && store[id].owner == owner ensures id in Ids(plan) {
        assert id in left;
      }
    }
    if IsStoredPlan(store, owner, plan) {
      forall id ensures (id in left <==> id in right) && (id in left ==> left[id] == right[id]) {
        if id in Ids(plan) {
          var m :| m in plan && m.Id() == id;
          assert IsStored(store, owner, m);
        }
      }
    }
  }

  /** An attempt that returns Ok has deployed the cluster, whatever was there before. */
  lemma {:induction false} OkDeploysCluster(a: Attempt)
    requires Possible(a) && a.result.Success?
    requires a.hello.Hello? && a.hello.servers.Some? ==>
               var groups := a.hello.servers.value.groups;
               forall i, j :: 0 <= i < j < |groups| ==> groups[i].name != groups[j].name
    ensures a.result == Success(AwaitChange) && a.hello.Hello? && a.hello.servers.Some?
    ensures IsDeployed(a.after, a.owner, a.hello.image, a.hello.servers.value, a.vector)
  {
    OkLeavesExactlyDesired(a);
    DeployedIsDesired(a.after, a.owner, a.hello.image, a.hello.servers.value, a.vector);
  }

  /** With a fixed valid object, from any store: from the first attempt without a failing call on, the cluster is
      deployed after every attempt. */
  lemma {:induction false} RunsDeployCluster(
      run: seq<Attempt>, owner: string, hello: Hello, vector: Option<string>, k: nat, j: nat)
    requires IsRun(run, owner) && k <= j < |run| && run[k].faultFree
    requires SameObjectThroughout(run, hello, vector)
    ensures hello.Hello? && hello.servers.Some?
    ensures IsDeployed(run[j].after, owner, hello.image, hello.servers.value, vector)
  {
    RunConverges(run, owner, hello, vector, k, j);
    assert SameUpToVisitOrder(hello, run[k].hello);
    DeployedIsDesired(run[j].after, owner, hello.image, hello.servers.value, vector);
  }

  /******* How far a failed attempt has come *******/

  ghost predicate IsGroupAt(servers: ServerRole, k: int, group: string) {
    0 <= k < |servers.groups| && servers.groups[k].name == group
  }

  /** The error belongs to a step after exactly p of the cluster's resources. */
  ghost predicate FailsAt(error: Error, servers: ServerRole, p: nat) {
    match error
    case InvalidProductConfig => p == 0
    case BuildRbacResources => p == 0
    case ApplyServiceAccount => p == 0
    case ApplyRoleBinding => p == 1
    case BuildRoleService => p == 2
    case ApplyRoleService => p == 2
    case ResolveVectorAggregatorAddress => p == 3
    case FailedToResolveResourceConfig(group) => exists k :: IsGroupAt(servers, k, group) && p == 3 + 3 * k
    case BuildRoleGroup(group) => exists k :: IsGroupAt(servers, k, group) && p == 3 + 3 * k
    case ApplyRoleGroupService(group) => exists k :: IsGroupAt(servers, k, group) && p == 3 + 3 * k
    case ApplyRoleGroupConfig(group) => exists k :: IsGroupAt(servers, k, group) && p == 3 + 3 * k + 1
    case ApplyRoleGroupStatefulSet(group) => exists k :: IsGroupAt(servers, k, group) && p == 3 + 3 * k + 2
    case FailedToCreatePdb => servers.pdb.enabled && p == 3 + 3 * |servers.groups|
    case ApplyStatus => p == ResourceCount(servers)
    case DeleteOrphanedResources => p == ResourceCount(servers)
    case _ => false
  }

  ghost predicate Untouched(before: Store, after: Store, id: ResourceId) {
    (id in before <==> id in after) && (id in before ==> after[id] == before[id])
  }

  /** The first p resources are stored, the later ones are as they were, and the p-th is one or the other. */
  ghost predicate StoredUpTo(before: Store, after: Store, owner: string, plan: seq<Manifest>, p: nat) {
    && p <= |plan|
    && (forall i :: 0 <= i < p ==> IsStored(after, owner, plan[i]))
    && (forall i :: p < i < |plan| ==> Untouched(before, after, plan[i].Id()))
    && (p < |plan| ==> IsStored(after, owner, plan[p]) || Untouched(before, after, plan[p].Id()))
  }

  lemma {:induction false} PrefixStored(before: Store, owner: string, plan: seq<Manifest>, q: nat, i: nat)
    requires DistinctIds(plan) && q <= |plan| && i < |plan|
    ensures i < q ==> IsStored(ApplyAll(before, owner, plan[..q]), owner, plan[i])
    ensures q <= i ==> Untouched(before, ApplyAll(before, owner, plan[..q]), plan[i].Id())
  {
    ApplyAllEntry(before, owner, plan[..q], plan[i].Id());
    if i < q {
      assert plan[..q][i] == plan[i];
      var stored := ApplyAll(before, owner, plan[..q])[plan[i].Id()].manifest;
      var j :| 0 <= j < q && plan[..q][j] == stored;
      assert j == i;
    } else {
      forall m | m in plan[..q] ensures m.Id() != plan[i].Id() {
        var j :| 0 <= j < q && plan[..q][j] == m;
        assert plan[j].Id() != plan[i].Id();
      }
    }
  }

  lemma {:induction false} PrefixStoredUpTo(before: Store, owner: string, plan: seq<Manifest>, q: nat, p: nat)
    requires DistinctIds(plan) && p <= q <= p + 1 && q <= |plan|
    ensures StoredUpTo(before, ApplyAll(before, owner, plan[..q]), owner, plan, p)
  {
    forall i | 0 <= i < |plan|
      ensures i < q ==> IsStored(ApplyAll(before, owner, plan[..q]), owner, plan[i])
      ensures q <= i ==> Untouched(before, ApplyAll(before, owner, plan[..q]), plan[i].Id())
    {
      PrefixStored(before, owner, plan, q, i);
    }
  }

  /** The resource at a position of the plan is of one kind, and one of the groups'. */
  lemma {:induction false} GroupPosition(
      owner: string, image: string, servers: ServerRole, vector: Option<string>, p: nat)
    requires p < ResourceCount(servers)
    ensures var m := Resource(owner, image, servers, vector, p);
            && (m.ServiceAccount? ==> p == 0) && (m.RoleBinding? ==> p == 1) && (m.RoleService? ==> p == 2)
            && (m.GroupService? ==> exists k :: IsGroupAt(servers, k, m.ref.roleGroup) && p == 3 + 3 * k)
            && (m.ConfigMap? ==> exists k :: IsGroupAt(servers, k, m.ref.roleGroup) && p == 3 + 3 * k + 1)
            && (m.StatefulSet? ==> exists k :: IsGroupAt(servers, k, m.ref.roleGroup) && p == 3 + 3 * k + 2)
            && (m.Pdb? ==> servers.pdb.enabled && p == 3 + 3 * |servers.groups|)
  {
    if 3 <= p < 3 + 3 * |servers.groups| {
      var k, j := (p - 3) / 3, (p - 3) % 3;
      assert p == 3 + 3 * k + j && IsGroupAt(servers, k, servers.groups[k].name);
    }
  }

  lemma {:induction false} FailurePosition(
      error: Error, owner: string, image: string, servers: ServerRole, vector: Option<string>, p: nat)
    requires p < ResourceCount(servers) && error == ErrorOf(Resource(owner, image, servers, vector, p))
    ensures FailsAt(error, servers, p)
  {
    GroupPosition(owner, image, servers, vector, p);
  }

  lemma {:induction false} LocalPosition(
      error: Error, owner: string, image: string, servers: ServerRole, vector: Option<string>, done: seq<Manifest>)
    requires StopsBefore(error, Plan(owner, image, servers, vector), done)
    ensures FailsAt(error, servers, |done|)
  {
    PlanAt(owner, image, servers, vector);
    if |done| < ResourceCount(servers) {
      GroupPosition(owner, image, servers, vector, |done|);
    }
  }

  /** Deleting orphans removes no resource of the plan. */
  lemma {:induction false} OrphansKeepPlan(a: Attempt, deleted: set<ResourceId>)
    requires DeletedSome(a, deleted)
    requires forall i :: 0 <= i < |PlanOf(a)| ==>
               IsStored(ApplyAll(a.before, a.owner, PlanOf(a)), a.owner, PlanOf(a)[i])
    ensures forall i :: 0 <= i < |PlanOf(a)| ==> IsStored(a.after, a.owner, PlanOf(a)[i])
  {
    forall i | 0 <= i < |PlanOf(a)| ensures IsStored(a.after, a.owner, PlanOf(a)[i]) {
      assert PlanOf(a)[i] in PlanOf(a);
      assert PlanOf(a)[i].Id() in Ids(PlanOf(a));
    }
  }

  lemma {:induction false} ProgressBetween(a: Attempt, image: string, servers: ServerRole, done: seq<Manifest>)
    returns (p: nat)
    requires a.result.Failure? && a.hello == Hello(image, Some(servers)) && DistinctIds(PlanOf(a))
    requires StoppedAfter(a.after, a.before, a.owner, PlanOf(a), a.result.error, done)
    ensures FailsAt(a.result.error, servers, p) && StoredUpTo(a.before, a.after, a.owner, PlanOf(a), p)
  {
    p := |done|;
    assert done == PlanOf(a)[..p];
    LocalPosition(a.result.error, a.owner, image, servers, a.vector, done);
    PrefixStoredUpTo(a.before, a.owner, PlanOf(a), p, p);
  }

  lemma {:induction false} NextOfPlan(plan: seq<Manifest>, done: seq<Manifest>, m: Manifest)
    requires done + [m] <= plan
    ensures plan[|done|] == m && done == plan[..|done|] && done + [m] == plan[..|done| + 1]
  {
    assert (done + [m])[|done|] == m && (done + [m])[..|done|] == done;
  }

  lemma {:induction false} ProgressAt(
      a: Attempt, image: string, servers: ServerRole, done: seq<Manifest>, m: Manifest)
    returns (p: nat)
    requires a.result.Failure? && a.hello == Hello(image, Some(servers)) && DistinctIds(PlanOf(a))
    requires StoppedAt(a.after, a.before, a.owner, PlanOf(a), a.result.error, done, m)
    ensures FailsAt(a.result.error, servers, p) && StoredUpTo(a.before, a.after, a.owner, PlanOf(a), p)
  {
    var plan := PlanOf(a);
    p := |done|;
    PlanAt(a.owner, image, servers, a.vector);
    NextOfPlan(plan, done, m);
    FailurePosition(a.result.error, a.owner, image, servers, a.vector, p);
    PrefixStoredUpTo(a.before, a.owner, plan, p, p);
    PrefixStoredUpTo(a.before, a.owner, plan, p + 1, p);
  }

  /** The status patch or the deletion of orphans failed: the whole plan is in place. */
  lemma {:induction false} ProgressAtEnd(a: Attempt, image: string, servers: ServerRole) returns (p: nat)
    requires Possible(a) && a.result.Failure? && a.hello == Hello(image, Some(servers)) && DistinctIds(PlanOf(a))
    requires !FailedWithin(a.after, a.before, a.owner, PlanOf(a), a.result.error)
    ensures FailsAt(a.result.error, servers, p) && StoredUpTo(a.before, a.after, a.owner, PlanOf(a), p)
  {
    var plan := PlanOf(a);
    p := |plan|;
    PlanAt(a.owner, image, servers, a.vector);
    assert plan[..p] == plan;
    PrefixStoredUpTo(a.before, a.owner, plan, p, p);
    if deleted :| DeletedSome(a, deleted) {
      OrphansKeepPlan(a, deleted);
    }
  }

  lemma {:induction false} ProgressOf(a: Attempt, image: string, servers: ServerRole) returns (p: nat)
    requires Possible(a) && a.result.Failure? && a.hello == Hello(image, Some(servers))
    requires DistinctIds(PlanOf(a))
    ensures FailsAt(a.result.error, servers, p) && StoredUpTo(a.before, a.after, a.owner, PlanOf(a), p)
  {
    if done :| StoppedAfter(a.after, a.before, a.owner, PlanOf(a), a.result.error, done) {
      p := ProgressBetween(a, image, servers, done);
    } else if done, m :| StoppedAt(a.after, a.before, a.owner, PlanOf(a), a.result.error, done, m) {
      p := ProgressAt(a, image, servers, done, m);
    } else {
      p := ProgressAtEnd(a, image, servers);
    }
  }

  /** The error of a failed attempt tells how far it has come: everything before the failing step is in place,
      nothing after it has been touched, and the resource of the step itself may have been applied all the same. */
  lemma {:induction false} FailureTellsProgress(a: Attempt, image: string, servers: ServerRole) returns (p: nat)
    requires Possible(a) && a.result.Failure? && a.hello == Hello(image, Some(servers))
    requires forall i, j :: 0 <= i < j < |servers.groups| ==> servers.groups[i].name != servers.groups[j].name
    ensures FailsAt(a.result.error, servers, p)
    ensures p <= ResourceCount(servers)
    ensures forall i :: 0 <= i < p ==> IsStored(a.after, a.owner, Resource(a.owner, image, servers, a.vector, i))
    ensures forall i :: p < i < ResourceCount(servers) ==>
              Untouched(a.before, a.after, Resource(a.owner, image, servers, a.vector, i).Id())
    ensures p < ResourceCount(servers) ==>
              || IsStored(a.after, a.owner, Resource(a.owner, image, servers, a.vector, p))
              || Untouched(a.before, a.after, Resource(a.owner, image, servers, a.vector, p).Id())
  {
    var plan := Plan(a.owner, image, servers, a.vector);
    PlanAt(a.owner, image, servers, a.vector);
    PlanIdsDistinct(a.owner, image, servers, a.vector);
    p := ProgressOf(a, image, servers);
  }
}
