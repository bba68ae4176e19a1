/** One attempt to reconcile a HelloCluster: apply every resource in order, patch the status, delete orphans.
    Any call may fail, with or without having taken effect. */
module Reconcile {
  import opened Wrappers
  import opened Pods

  /******* Objects and resources *******/

  datatype GroupSpec = GroupSpec(name: string, config: string, replicas: Option<u16>)

  datatype PdbConfig = PdbConfig(enabled: bool, maxUnavailable: Option<u16>)

  datatype ServerRole = ServerRole(groups: seq<GroupSpec>, pdb: PdbConfig)

  /** The watched object; one that does not deserialize is invalid. */
  datatype Hello =
    | InvalidHello
    | Hello(image: string, servers: Option<ServerRole>)

  datatype Kind = ServiceAccountKind | RoleBindingKind | ServiceKind | ConfigMapKind | StatefulSetKind | PdbKind

  datatype ResourceId = ResourceId(kind: Kind, name: string)

  /** What each builder puts into its resource. */
  datatype Manifest =
    | ServiceAccount(cluster: string)
    | RoleBinding(cluster: string, serviceAccount: string)
    | RoleService(cluster: string, image: string)
    | GroupService(ref: RoleGroupRef, image: string)
    | ConfigMap(ref: RoleGroupRef, config: string, vectorAddress: Option<string>)
    | StatefulSet(ref: RoleGroupRef, image: string, config: string, replicas: Option<u16>, serviceAccount: string)
    | Pdb(cluster: string, role: string, maxUnavailable: u16)
  {
    function Id(): ResourceId {
      match this
      case ServiceAccount(cluster) => ResourceId(ServiceAccountKind, cluster + "-serviceaccount")
      case RoleBinding(cluster, _) => ResourceId(RoleBindingKind, cluster + "-rolebinding")
      case RoleService(cluster, _) => ResourceId(ServiceKind, cluster)
      case GroupService(ref, _) => ResourceId(ServiceKind, ref.ObjectName())
      case ConfigMap(ref, _, _) => ResourceId(ConfigMapKind, ref.ObjectName())
      case StatefulSet(ref, _, _, _, _) => ResourceId(StatefulSetKind, ref.ObjectName())
      case Pdb(cluster, role, _) => ResourceId(PdbKind, cluster + "-" + role)
    }
  }

  /** A stored object carries the labels of the cluster that applied it last. */
  datatype Object = Object(manifest: Manifest, owner: string)

  type Store = map<ResourceId, Object>

  datatype Action = AwaitChange | Requeue(seconds: nat)

  datatype Error =
    | InvalidHelloCluster
    | NoServerRole
    | InvalidProductConfig
    | BuildRbacResources
    | ApplyServiceAccount
    | ApplyRoleBinding
    | BuildRoleService
    | ApplyRoleService
    | ResolveVectorAggregatorAddress
    | FailedToResolveResourceConfig(group: string)
    | BuildRoleGroup(group: string)
    | ApplyRoleGroupService(group: string)
    | ApplyRoleGroupConfig(group: string)
    | ApplyRoleGroupStatefulSet(group: string)
    | FailedToCreatePdb
    | ApplyStatus
    | DeleteOrphanedResources

  /** When a failed attempt is followed by another one without any change of the object. */
  function ErrorPolicy(error: Error): Action {
    match error
    case InvalidHelloCluster => AwaitChange
    case _ => Requeue(5)
  }

  /******* What an attempt applies *******/

  const DEFAULT_MAX_UNAVAILABLE: u16 := 1

  function GroupRef(owner: string, group: GroupSpec): RoleGroupRef {
    RoleGroupRef(owner, "server", group.name)
  }

  function BasePlan(owner: string, image: string): seq<Manifest> {
    [ServiceAccount(owner), RoleBinding(owner, owner + "-serviceaccount"), RoleService(owner, image)]
  }

  function GroupPlan(owner: string, image: string, vector: Option<string>, group: GroupSpec): seq<Manifest> {
    var ref := GroupRef(owner, group);
    [GroupService(ref, image), ConfigMap(ref, group.config, vector),
     StatefulSet(ref, image, group.config, group.replicas, owner + "-serviceaccount")]
  }

  function GroupPlans(owner: string, image: string, vector: Option<string>, groups: seq<GroupSpec>): seq<Manifest> {
    if groups == [] then []
    else GroupPlans(owner, image, vector, groups[..|groups| - 1])
         + GroupPlan(owner, image, vector, groups[|groups| - 1])
  }

  function PdbPlan(owner: string, pdb: PdbConfig): seq<Manifest> {
    if !pdb.enabled then []
    else [Pdb(owner, "server", if pdb.maxUnavailable.Some? then pdb.maxUnavailable.value else DEFAULT_MAX_UNAVAILABLE)]
  }

  /** The resources of a cluster, in the order in which they are applied. */
  function Plan(owner: string, image: string, servers: ServerRole, vector: Option<string>): seq<Manifest> {
    BasePlan(owner, image) + GroupPlans(owner, image, vector, servers.groups) + PdbPlan(owner, servers.pdb)
  }

  ghost function Ids(ms: seq<Manifest>): set<ResourceId> {
    set m | m in ms :: m.Id()
  }

  ghost function ApplyAll(store: Store, owner: string, ms: seq<Manifest>): Store {
    if ms == [] then store
    else
      var last := ms[|ms| - 1];
      ApplyAll(store, owner, ms[..|ms| - 1])[last.Id() := Object(last, owner)]
  }

  /** Objects with the owner's labels that are not among the given ids. */
  ghost function Orphans(store: Store, owner: string, ids: set<ResourceId>): set<ResourceId> {
    set id | id in store && store[id].owner == owner && id !in ids
  }

  /******* The calls of an attempt *******/

  /** The error of a failed apply. */
  ghost function ErrorOf(m: Manifest): Error {
    match m
    case ServiceAccount(_) => ApplyServiceAccount
    case RoleBinding(_, _) => ApplyRoleBinding
    case RoleService(_, _) => ApplyRoleService
    case GroupService(ref, _) => ApplyRoleGroupService(ref.roleGroup)
    case ConfigMap(ref, _, _) => ApplyRoleGroupConfig(ref.roleGroup)
    case StatefulSet(ref, _, _, _, _) => ApplyRoleGroupStatefulSet(ref.roleGroup)
    case Pdb(_, _, _) => FailedToCreatePdb
  }

  /** Before the role groups, after the configuration is validated. */
  ghost function BaseCalls(): seq<Error> {
    [BuildRbacResources, ApplyServiceAccount, ApplyRoleBinding]
    + [BuildRoleService, ApplyRoleService, ResolveVectorAggregatorAddress]
  }

  ghost function GroupCalls(group: string): seq<Error> {
    [FailedToResolveResourceConfig(group), BuildRoleGroup(group)]
    + [ApplyRoleGroupService(group), ApplyRoleGroupConfig(group), ApplyRoleGroupStatefulSet(group)]
  }

  ghost function GroupsCalls(groups: seq<GroupSpec>): seq<Error> {
    if groups == [] then []
    else GroupsCalls(groups[..|groups| - 1]) + GroupCalls(groups[|groups| - 1].name)
  }

  ghost function PdbCalls(pdb: PdbConfig): seq<Error> {
    if pdb.enabled then [FailedToCreatePdb, FailedToCreatePdb] else []
  }

  ghost function CallsBeforeStatus(servers: ServerRole): seq<Error> {
    [InvalidProductConfig] + BaseCalls() + (GroupsCalls(servers.groups) + PdbCalls(servers.pdb))
  }

  /** All calls up to the status patch, in order. */
  ghost function Calls(servers: ServerRole): seq<Error> {
    CallsBeforeStatus(servers) + [ApplyStatus]
  }

  /** One listing of the objects and n - 1 deletions. */
  ghost function Deletions(n: nat): seq<Error> {
    seq(n, _ => DeleteOrphanedResources)
  }

  /** The calls were made in this order: all of them, or those up to the one that failed. */
  ghost predicate Made(before: seq<Error>, after: seq<Error>, calls: seq<Error>, failure: Option<Error>) {
    match failure
    case None => after == before + calls
    case Some(error) => exists k :: 0 <= k < |calls| && calls[k] == error && after == before + calls[..k + 1]
  }

  lemma {:induction false} MadeUpTo(before: seq<Error>, after: seq<Error>, calls: seq<Error>, k: nat)
    requires k < |calls| && after == before + calls[..k + 1]
    ensures Made(before, after, calls, Some(calls[k]))
  {
  }

  lemma {:induction false} OneCall(before: seq<Error>, a: Error)
    ensures Made(before, before + [a], [a], Some(a))
  {
    assert [a][..1] == [a];
    MadeUpTo(before, before + [a], [a], 0);
  }

  lemma {:induction false} TwoCalls(before: seq<Error>, a: Error, b: Error)
    ensures Made(before, before + [a], [a, b], Some(a))
    ensures Made(before, before + [a] + [b], [a, b], Some(b)) && Made(before, before + [a] + [b], [a, b], None)
  {
    assert [a, b][..1] == [a] && [a, b][..2] == [a, b] && before + [a] + [b] == before + [a, b];
    MadeUpTo(before, before + [a], [a, b], 0);
    MadeUpTo(before, before + [a] + [b], [a, b], 1);
  }

  lemma {:induction false} ThreeCalls(before: seq<Error>, a: Error, b: Error, c: Error)
    ensures Made(before, before + [a], [a, b, c], Some(a))
    ensures Made(before, before + [a] + [b], [a, b, c], Some(b))
    ensures Made(before, before + [a] + [b] + [c], [a, b, c], Some(c))
    ensures Made(before, before + [a] + [b] + [c], [a, b, c], None)
  {
    var calls := [a, b, c];
    assert calls[..1] == [a] && calls[..2] == [a, b] && calls[..3] == calls;
    assert before + [a] + [b] == before + [a, b] && before + [a] + [b] + [c] == before + calls;
    MadeUpTo(before, before + [a], calls, 0);
    MadeUpTo(before, before + [a] + [b], calls, 1);
    MadeUpTo(before, before + [a] + [b] + [c], calls, 2);
  }

  lemma {:induction false} MadeThen(
      a: seq<Error>, b: seq<Error>, c: seq<Error>, first: seq<Error>, second: seq<Error>, failure: Option<Error>)
    requires Made(a, b, first, None) && Made(b, c, second, failure)
    ensures Made(a, c, first + second, failure)
  {
    if failure.Some? {
      var k :| 0 <= k < |second| && second[k] == failure.value && c == b + second[..k + 1];
      assert (first + second)[..|first| + k + 1] == first + second[..k + 1];
      assert (first + second)[|first| + k] == failure.value;
      MadeUpTo(a, c, first + second, |first| + k);
    }
  }

  lemma {:induction false} MadePart(
      a: seq<Error>, b: seq<Error>, first: seq<Error>, second: seq<Error>, failure: Option<Error>)
    requires Made(a, b, first, failure) && failure.Some?
    ensures Made(a, b, first + second, failure)
  {
    var k :| 0 <= k < |first| && first[k] == failure.value && b == a + first[..k + 1];
    assert (first + second)[..k + 1] == first[..k + 1];
    MadeUpTo(a, b, first + second, k);
  }

  lemma {:induction false} OneMoreDeletion(log: seq<Error>, n: nat)
    ensures log + Deletions(n) + [DeleteOrphanedResources] == log + Deletions(n + 1)
  {
    assert Deletions(n) + [DeleteOrphanedResources] == Deletions(n + 1);
  }

  /******* The API server and the set of applied resources *******/

  /** A call is done, or it reports an error: either rejected, or carried out all the same. */
  datatype Outcome = Done | Rejected | Unacknowledged

  class Api {
    var objects: Store
    var calls: nat
    const oracle: nat -> Outcome
    /** How many calls have reported an error so far. */
    ghost var failures: nat
    /** The calls so far, each as the error that its failure is reported as. */
    ghost var log: seq<Error>

    constructor (objects: Store, oracle: nat -> Outcome)
      ensures this.objects == objects && this.calls == 0 && this.oracle == oracle && failures == 0 && log == []
    {
      this.objects, this.calls, this.oracle, failures, log := objects, 0, oracle, 0, [];
    }

    method Call(ghost error: Error) returns (outcome: Outcome)
      modifies this`calls, this`failures, this`log
      ensures outcome == oracle(old(calls)) && calls == old(calls) + 1
      ensures failures == old(failures) + if outcome == Done then 0 else 1
      ensures log == old(log) + [error]
    {
      outcome := oracle(calls);
      log := log + [error];
      calls := calls + 1;
      failures := failures + if outcome == Done then 0 else 1;
    }

    /** A step that changes no resource: validation, building, a lookup, the status patch. */
    method Step(ghost error: Error) returns (ok: bool)
      modifies this`calls, this`failures, this`log
      ensures failures == old(failures) + if ok then 0 else 1
      ensures log == old(log) + [error]
    {
      var outcome := Call(error);
      ok := outcome == Done;
    }

    method Patch(id: ResourceId, resource: Object, ghost error: Error) returns (ok: bool)
      modifies this
      ensures failures == old(failures) + if ok then 0 else 1
      ensures log == old(log) + [error]
      ensures objects == old(objects)[id := resource] || (!ok && objects == old(objects))
    {
      var outcome := Call(error);
      if outcome != Rejected {
        objects := objects[id := resource];
      }
      ok := outcome == Done;
    }

    method Delete(id: ResourceId, ghost error: Error) returns (ok: bool)
      modifies this
      ensures failures == old(failures) + if ok then 0 else 1
      ensures log == old(log) + [error]
      ensures objects == old(objects) - {id} || (!ok && objects == old(objects))
    {
      var outcome := Call(error);
      if outcome != Rejected {
        objects := objects - {id};
      }
      ok := outcome == Done;
    }
  }

  /** Applies resources for one owner and remembers which. */
  class ClusterResources {
    const owner: string
    var ids: set<ResourceId>

    constructor (owner: string)
      ensures this.owner == owner && ids == {}
    {
      this.owner, ids := owner, {};
    }

    method Add(client: Api, manifest: Manifest) returns (ok: bool)
      modifies this, client
      ensures client.failures == old(client.failures) + if ok then 0 else 1
      ensures client.log == old(client.log) + [ErrorOf(manifest)]
      ensures ok ==> ids == old(ids) + {manifest.Id()}
      ensures var applied := old(client.objects)[manifest.Id() := Object(manifest, owner)];
              client.objects == applied || (!ok && client.objects == old(client.objects))
    {
      ok := client.Patch(manifest.Id(), Object(manifest, owner), ErrorOf(manifest));
      if ok {
        ids := ids + {manifest.Id()};
      }
    }

    /** Deletes the owner's objects that were not added, in the order of some listing; stops at an error. */
    method DeleteOrphanedResources(client: Api) returns (ok: bool)
      modifies client
      ensures client.failures == old(client.failures) + if ok then 0 else 1
      ensures var orphans := Orphans(old(client.objects), owner, ids);
              if ok then client.objects == old(client.objects) - orphans
              else exists deleted :: deleted <= orphans && client.objects == old(client.objects) - deleted
      ensures exists n :: 1 <= n && client.log == old(client.log) + Deletions(n)
    {
      ghost var before, log := client.objects, client.log;
      ok := client.Step(Error.DeleteOrphanedResources);
      assert log + Deletions(0) == log;
      OneMoreDeletion(log, 0);
      if !ok {
        assert client.objects == before - {};
        return;
      }
      var objects := client.objects;
      var remaining := set id | id in objects && objects[id].owner == owner && id !in ids;
      ghost var deleted: set<ResourceId>, n := {}, 1;
      assert before - deleted == before;
      while remaining != {}
        invariant deleted + remaining == Orphans(before, owner, ids) && deleted !! remaining
        invariant client.objects == before - deleted
        invariant client.failures == old(client.failures)
        invariant 1 <= n && client.log == log + Deletions(n)
        decreases remaining
      {
        var id :| id in remaining;
        var gone := client.Delete(id, Error.DeleteOrphanedResources);
        OneMoreDeletion(log, n);
        n := n + 1;
        assert before - deleted - {id} == before - (deleted + {id});
        if !gone {
          assert deleted <= Orphans(before, owner, ids) && deleted + {id} <= Orphans(before, owner, ids);
          return false;
        }
        deleted, remaining := deleted + {id}, remaining - {id};
      }
      ok := true;
    }
  }

  /******* One attempt *******/

  /** What happened in one attempt; `vector` is the address its lookup finds. */
  datatype Attempt = Attempt(
    owner: string, hello: Hello, vector: Option<string>,
    before: Store, after: Store, result: Result<Action, Error>, faultFree: bool)

  ghost predicate Valid(hello: Hello) {
    hello.Hello? && hello.servers.Some?
  }

  ghost function PlanOf(a: Attempt): seq<Manifest> {
    if Valid(a.hello) then Plan(a.owner, a.hello.image, a.hello.servers.value, a.vector) else []
  }

  /** Applying m failed when `done` had been applied; it may have taken effect. */
  ghost predicate StoppedAt(
      store: Store, before: Store, owner: string, plan: seq<Manifest>, error: Error, done: seq<Manifest>, m: Manifest)
  {
    && done + [m] <= plan
    && error == ErrorOf(m)
    && (store == ApplyAll(before, owner, done) || store == ApplyAll(before, owner, done + [m]))
  }

  /** Where the steps that build, validate and look up stand among the applies; they change nothing in the store. */
  ghost predicate StopsBefore(error: Error, plan: seq<Manifest>, done: seq<Manifest>) {
    && done <= plan
    && match error
       case InvalidProductConfig => done == []
       case BuildRbacResources => done == []
       case BuildRoleService => |done| == 2
       case ResolveVectorAggregatorAddress => |done| == 3
       case FailedToResolveResourceConfig(group) => IsNextGroup(plan, |done|, group)
       case BuildRoleGroup(group) => IsNextGroup(plan, |done|, group)
       case FailedToCreatePdb => |done| < |plan| && plan[|done|].Pdb?
       case _ => false
  }

  /** The i-th resource of the plan is the first one of this role group. */
  ghost predicate IsNextGroup(plan: seq<Manifest>, i: nat, group: string) {
    i < |plan| && plan[i].GroupService? && plan[i].ref.roleGroup == group
  }

  /** A step between the applies failed when `done` had been applied. */
  ghost predicate StoppedAfter(
      store: Store, before: Store, owner: string, plan: seq<Manifest>, error: Error, done: seq<Manifest>)
  {
    StopsBefore(error, plan, done) && store == ApplyAll(before, owner, done)
  }

  /** An attempt failed with this error while applying the plan. */
  ghost predicate FailedWithin(store: Store, before: Store, owner: string, plan: seq<Manifest>, error: Error) {
    || (exists done :: StoppedAfter(store, before, owner, plan, error, done))
    || (exists done, m :: StoppedAt(store, before, owner, plan, error, done, m))
  }

  ghost predicate DeletedSome(a: Attempt, deleted: set<ResourceId>) {
    var applied := ApplyAll(a.before, a.owner, PlanOf(a));
    deleted <= Orphans(applied, a.owner, Ids(PlanOf(a))) && a.after == applied - deleted
  }

  /** The ways an attempt of a valid object can fail. */
  ghost predicate FailedProperly(a: Attempt) {
    && a.result.Failure?
    && (|| FailedWithin(a.after, a.before, a.owner, PlanOf(a), a.result.error)
        || (a.result.error == ApplyStatus && a.after == ApplyAll(a.before, a.owner, PlanOf(a)))
        || (a.result.error == DeleteOrphanedResources && exists deleted :: DeletedSome(a, deleted)))
  }

  ghost predicate Possible(a: Attempt) {
    if a.hello.InvalidHello? then a.result == Failure(InvalidHelloCluster) && a.after == a.before
    else if a.hello.servers.None? then a.result == Failure(NoServerRole) && a.after == a.before
    else
      if a.faultFree then
        a.result == Success(AwaitChange)
        && a.after == ApplyAll(a.before, a.owner, PlanOf(a))
                      - Orphans(ApplyAll(a.before, a.owner, PlanOf(a)), a.owner, Ids(PlanOf(a)))
      else FailedProperly(a)
  }

  lemma {:induction false} ApplySnoc(store: Store, owner: string, done: seq<Manifest>, m: Manifest)
    ensures ApplyAll(store, owner, done + [m]) == ApplyAll(store, owner, done)[m.Id() := Object(m, owner)]
    ensures Ids(done + [m]) == Ids(done) + {m.Id()}
  {
    assert (done + [m])[..|done|] == done;
  }

  /** The manifests `done` have been applied and remembered. */
  ghost predicate Progress(client: Api, resources: ClusterResources, before: Store, done: seq<Manifest>)
    reads client, resources
  {
    client.objects == ApplyAll(before, resources.owner, done) && resources.ids == Ids(done)
  }

  method AddNext(
      client: Api, resources: ClusterResources, m: Manifest,
      ghost before: Store, ghost done: seq<Manifest>, ghost plan: seq<Manifest>)
    returns (ok: bool)
    requires Progress(client, resources, before, done) && done + [m] <= plan
    modifies client, resources
    ensures client.failures == old(client.failures) + if ok then 0 else 1
    ensures client.log == old(client.log) + [ErrorOf(m)]
    ensures ok ==> Progress(client, resources, before, done + [m])
    ensures !ok ==> FailedWithin(client.objects, before, resources.owner, plan, ErrorOf(m))
  {
    ApplySnoc(before, resources.owner, done, m);
    ok := resources.Add(client, m);
    if !ok {
      assert StoppedAt(client.objects, before, resources.owner, plan, ErrorOf(m), done, m);
    }
  }

  /** A step that builds, validates or looks something up. */
  method LocalStep(
      client: Api, resources: ClusterResources, error: Error,
      ghost before: Store, ghost done: seq<Manifest>, ghost plan: seq<Manifest>)
    returns (ok: bool)
    requires Progress(client, resources, before, done) && StopsBefore(error, plan, done)
    modifies client
    ensures client.failures == old(client.failures) + if ok then 0 else 1
    ensures client.log == old(client.log) + [error]
    ensures Progress(client, resources, before, done)
    ensures !ok ==> FailedWithin(client.objects, before, resources.owner, plan, error)
  {
    ok := client.Step(error);
    if !ok {
      assert StoppedAfter(client.objects, before, resources.owner, plan, error, done);
    }
  }

  /** Service account, role binding and role service, and the lookup of the aggregator address. */
  method ApplyBase(
      client: Api, resources: ClusterResources, image: string, ghost before: Store, ghost plan: seq<Manifest>)
    returns (failure: Option<Error>)
    requires Progress(client, resources, before, []) && BasePlan(resources.owner, image) <= plan
    modifies client, resources
    ensures Made(old(client.log), client.log, BaseCalls(), failure)
    ensures failure.None? ==> Progress(client, resources, before, BasePlan(resources.owner, image))
    ensures failure.Some? ==> FailedWithin(client.objects, before, resources.owner, plan, failure.value)
    ensures client.failures == old(client.failures) + if failure.None? then 0 else 1
  {
    var owner := resources.owner;
    var serviceAccount := ServiceAccount(owner);
    var roleBinding := RoleBinding(owner, owner + "-serviceaccount");
    ghost var withAccount := [serviceAccount];
    ghost var withBinding := withAccount + [roleBinding];
    ghost var log := client.log;
    ghost var first := [BuildRbacResources, ApplyServiceAccount, ApplyRoleBinding];
    ghost var second := [BuildRoleService, ApplyRoleService, ResolveVectorAggregatorAddress];
    ThreePrefixes([], serviceAccount, roleBinding, RoleService(owner, image), plan);
    ThreeCalls(log, BuildRbacResources, ApplyServiceAccount, ApplyRoleBinding);
    assert [] + [serviceAccount] == withAccount;
    assert withBinding + [RoleService(owner, image)] == BasePlan(owner, image);

    var ok := LocalStep(client, resources, BuildRbacResources, before, [], plan);
    if !ok { MadePart(log, client.log, first, second, Some(BuildRbacResources)); return Some(BuildRbacResources); }
    ok := AddNext(client, resources, serviceAccount, before, [], plan);
    if !ok { MadePart(log, client.log, first, second, Some(ApplyServiceAccount)); return Some(ApplyServiceAccount); }
    ok := AddNext(client, resources, roleBinding, before, withAccount, plan);
    if !ok { MadePart(log, client.log, first, second, Some(ApplyRoleBinding)); return Some(ApplyRoleBinding); }
    ghost var between := client.log;
    failure := ApplyRoleServiceAndLookup(client, resources, image, before, withBinding, plan);
    MadeThen(log, between, client.log, first, second, failure);
  }

  method ApplyRoleServiceAndLookup(
      client: Api, resources: ClusterResources, image: string,
      ghost before: Store, ghost done: seq<Manifest>, ghost plan: seq<Manifest>)
    returns (failure: Option<Error>)
    requires Progress(client, resources, before, done)
    requires |done| == 2 && done <= plan && done + [RoleService(resources.owner, image)] <= plan
    modifies client, resources
    ensures Made(old(client.log), client.log, [BuildRoleService, ApplyRoleService, ResolveVectorAggregatorAddress],
                 failure)
    ensures failure.None? ==> Progress(client, resources, before, done + [RoleService(resources.owner, image)])
    ensures failure.Some? ==> FailedWithin(client.objects, before, resources.owner, plan, failure.value)
    ensures client.failures == old(client.failures) + if failure.None? then 0 else 1
  {
    var roleService := RoleService(resources.owner, image);
    ThreeCalls(client.log, BuildRoleService, ApplyRoleService, ResolveVectorAggregatorAddress);
    var ok := LocalStep(client, resources, BuildRoleService, before, done, plan);
    if !ok { return Some(BuildRoleService); }
    ok := AddNext(client, resources, roleService, before, done, plan);
    if !ok { return Some(ApplyRoleService); }
    ok := LocalStep(client, resources, ResolveVectorAggregatorAddress, before, done + [roleService], plan);
    if !ok { return Some(ResolveVectorAggregatorAddress); }
    failure := None;
  }

  /** Configuration, service, config map and stateful set of one role group. */
  method ApplyGroup(
      client: Api, resources: ClusterResources, image: string, vector: Option<string>, group: GroupSpec,
      ghost before: Store, ghost done: seq<Manifest>, ghost plan: seq<Manifest>)
    returns (failure: Option<Error>)
    requires Progress(client, resources, before, done)
    requires done + GroupPlan(resources.owner, image, vector, group) <= plan
    modifies client, resources
    ensures Made(old(client.log), client.log, GroupCalls(group.name), failure)
    ensures failure.None? ==>
              Progress(client, resources, before, done + GroupPlan(resources.owner, image, vector, group))
    ensures failure.Some? ==> FailedWithin(client.objects, before, resources.owner, plan, failure.value)
    ensures client.failures == old(client.failures) + if failure.None? then 0 else 1
  {
    var owner := resources.owner;
    var ref := GroupRef(owner, group);
    assert done <= plan;
    assert plan[|done|] == (done + GroupPlan(owner, image, vector, group))[|done|] == GroupService(ref, image);
    ghost var log := client.log;
    failure := PrepareGroup(client, resources, group.name, before, done, plan);
    ghost var first := [FailedToResolveResourceConfig(group.name), BuildRoleGroup(group.name)];
    ghost var second := [ApplyRoleGroupService(group.name), ApplyRoleGroupConfig(group.name),
                         ApplyRoleGroupStatefulSet(group.name)];
    if failure.Some? {
      MadePart(log, client.log, first, second, failure);
      return;
    }
    ghost var between := client.log;
    failure := AddGroup(client, resources, GroupService(ref, image), ConfigMap(ref, group.config, vector),
                        StatefulSet(ref, image, group.config, group.replicas, owner + "-serviceaccount"),
                        before, done, plan);
    MadeThen(log, between, client.log, first, second, failure);
  }

  /** Merges the group's configuration and builds its resources. */
  method PrepareGroup(
      client: Api, resources: ClusterResources, group: string,
      ghost before: Store, ghost done: seq<Manifest>, ghost plan: seq<Manifest>)
    returns (failure: Option<Error>)
    requires Progress(client, resources, before, done) && done <= plan && IsNextGroup(plan, |done|, group)
    modifies client
    ensures Made(old(client.log), client.log, [FailedToResolveResourceConfig(group), BuildRoleGroup(group)], failure)
    ensures Progress(client, resources, before, done)
    ensures failure.Some? ==> FailedWithin(client.objects, before, resources.owner, plan, failure.value)
    ensures client.failures == old(client.failures) + if failure.None? then 0 else 1
  {
    TwoCalls(client.log, FailedToResolveResourceConfig(group), BuildRoleGroup(group));
    var ok := LocalStep(client, resources, FailedToResolveResourceConfig(group), before, done, plan);
    if !ok { return Some(FailedToResolveResourceConfig(group)); }
    ok := LocalStep(client, resources, BuildRoleGroup(group), before, done, plan);
    if !ok { return Some(BuildRoleGroup(group)); }
    failure := None;
  }

  /** Applies the three resources of a role group. */
  method AddGroup(
      client: Api, resources: ClusterResources, service: Manifest, configMap: Manifest, statefulSet: Manifest,
      ghost before: Store, ghost done: seq<Manifest>, ghost plan: seq<Manifest>)
    returns (failure: Option<Error>)
    requires service.GroupService? && configMap.ConfigMap? && statefulSet.StatefulSet?
    requires Progress(client, resources, before, done) && done + [service, configMap, statefulSet] <= plan
    modifies client, resources
    ensures Made(old(client.log), client.log, [ErrorOf(service), ErrorOf(configMap), ErrorOf(statefulSet)], failure)
    ensures failure.None? ==> Progress(client, resources, before, done + [service, configMap, statefulSet])
    ensures failure.Some? ==> FailedWithin(client.objects, before, resources.owner, plan, failure.value)
    ensures client.failures == old(client.failures) + if failure.None? then 0 else 1
  {
    ghost var withService := done + [service];
    ghost var withConfigMap := withService + [configMap];
    ThreePrefixes(done, service, configMap, statefulSet, plan);
    ThreeCalls(client.log, ErrorOf(service), ErrorOf(configMap), ErrorOf(statefulSet));
    var ok := AddNext(client, resources, service, before, done, plan);
    if !ok { return Some(ApplyRoleGroupService(service.ref.roleGroup)); }
    ok := AddNext(client, resources, configMap, before, withService, plan);
    if !ok { return Some(ApplyRoleGroupConfig(configMap.ref.roleGroup)); }
    ok := AddNext(client, resources, statefulSet, before, withConfigMap, plan);
    if !ok { return Some(ApplyRoleGroupStatefulSet(statefulSet.ref.roleGroup)); }
    failure := None;
  }

  lemma {:induction false} ThreePrefixes(
      done: seq<Manifest>, a: Manifest, b: Manifest, c: Manifest, plan: seq<Manifest>)
    requires done + [a, b, c] <= plan
    ensures done <= plan && done + [a] <= plan && done + [a] + [b] <= plan && done + [a] + [b] + [c] <= plan
    ensures done + [a] + [b] + [c] == done + [a, b, c]
  {
    assert done + [a] == (done + [a, b, c])[..|done| + 1];
    assert done + [a] + [b] == (done + [a, b, c])[..|done| + 2];
  }

  /** The plan up to the i-th role group, and what the group adds. */
  lemma {:induction false} PlanUpTo(owner: string, image: string, servers: ServerRole, vector: Option<string>, i: nat)
    requires i <= |servers.groups|
    ensures BasePlan(owner, image) + GroupPlans(owner, image, vector, servers.groups[..i])
            <= Plan(owner, image, servers, vector)
    ensures i < |servers.groups| ==>
              GroupPlans(owner, image, vector, servers.groups[..i + 1])
              == GroupPlans(owner, image, vector, servers.groups[..i])
                 + GroupPlan(owner, image, vector, servers.groups[i])
    decreases |servers.groups| - i
  {
    if i == |servers.groups| {
      assert servers.groups[..i] == servers.groups;
    } else {
      assert servers.groups[..i + 1][..i] == servers.groups[..i];
      PlanUpTo(owner, image, servers, vector, i + 1);
    }
  }

  /** The calls after the i-th role group, or all that are left to make when it failed. */
  lemma {:induction false} GroupsCallsUpTo(
      a: seq<Error>, b: seq<Error>, c: seq<Error>, servers: ServerRole, i: nat, failure: Option<Error>)
    requires i < |servers.groups| && Made(a, b, GroupsCalls(servers.groups[..i]), None)
    requires Made(b, c, GroupCalls(servers.groups[i].name), failure)
    ensures Made(a, c, GroupsCalls(servers.groups[..i + 1]), failure)
    ensures failure.Some? ==> Made(a, c, GroupsCalls(servers.groups) + PdbCalls(servers.pdb), failure)
  {
    assert servers.groups[..i + 1][..i] == servers.groups[..i];
    MadeThen(a, b, c, GroupsCalls(servers.groups[..i]), GroupCalls(servers.groups[i].name), failure);
    if failure.Some? {
      var rest := GroupsCallsPrefix(servers.groups, i + 1);
      MadePart(a, c, GroupsCalls(servers.groups[..i + 1]), rest, failure);
      MadePart(a, c, GroupsCalls(servers.groups), PdbCalls(servers.pdb), failure);
    }
  }

  lemma {:induction false} GroupsCallsPrefix(groups: seq<GroupSpec>, i: nat) returns (rest: seq<Error>)
    requires i <= |groups|
    ensures GroupsCalls(groups) == GroupsCalls(groups[..i]) + rest
    decreases |groups|
  {
    if i == |groups| {
      assert groups[..i] == groups;
      rest := [];
    } else {
      var init := groups[..|groups| - 1];
      rest := GroupsCallsPrefix(init, i);
      assert init[..i] == groups[..i];
      rest := rest + GroupCalls(groups[|groups| - 1].name);
    }
  }

  /** All role groups in the order of the validated configuration. */
  method ApplyRoleGroups(
      client: Api, resources: ClusterResources, image: string, servers: ServerRole, vector: Option<string>,
      ghost before: Store, ghost plan: seq<Manifest>)
    returns (failure: Option<Error>)
    requires plan == Plan(resources.owner, image, servers, vector)
    requires Progress(client, resources, before, BasePlan(resources.owner, image))
    modifies client, resources
    ensures failure.None? ==> Made(old(client.log), client.log, GroupsCalls(servers.groups), None)
    ensures failure.Some? ==>
              Made(old(client.log), client.log, GroupsCalls(servers.groups) + PdbCalls(servers.pdb), failure)
    ensures failure.None? ==>
              Progress(client, resources, before,
                       BasePlan(resources.owner, image) + GroupPlans(resources.owner, image, vector, servers.groups))
    ensures failure.Some? ==> FailedWithin(client.objects, before, resources.owner, plan, failure.value)
    ensures client.failures == old(client.failures) + if failure.None? then 0 else 1
  {
    var owner := resources.owner;
    ghost var done := BasePlan(owner, image);
    assert done + [] == done;
    ghost var log := client.log;
    assert log + GroupsCalls(servers.groups[..0]) == log;
    for i := 0 to |servers.groups|
      invariant client.failures == old(client.failures)
      invariant Made(log, client.log, GroupsCalls(servers.groups[..i]), None)
      invariant done == BasePlan(owner, image) + GroupPlans(owner, image, vector, servers.groups[..i])
      invariant Progress(client, resources, before, done)
    {
      ghost var next := done + GroupPlan(owner, image, vector, servers.groups[i]);
      NextGroupOfPlan(owner, image, servers, vector, i);
      ghost var between := client.log;
      failure := ApplyGroup(client, resources, image, vector, servers.groups[i], before, done, plan);
      GroupsCallsUpTo(log, between, client.log, servers, i, failure);
      if failure.Some? {
        return;
      }
      done := next;
    }
    assert servers.groups[..|servers.groups|] == servers.groups;
    failure := None;
  }

  lemma {:induction false} NextGroupOfPlan(
      owner: string, image: string, servers: ServerRole, vector: Option<string>, i: nat)
    requires i < |servers.groups|
    ensures var done := BasePlan(owner, image) + GroupPlans(owner, image, vector, servers.groups[..i]);
            var next := done + GroupPlan(owner, image, vector, servers.groups[i]);
            && next == BasePlan(owner, image) + GroupPlans(owner, image, vector, servers.groups[..i + 1])
            && next <= Plan(owner, image, servers, vector)
  {
    PlanUpTo(owner, image, servers, vector, i);
    PlanUpTo(owner, image, servers, vector, i + 1);
  }

  /** All role groups, then the disruption budget. */
  method ApplyGroups(
      client: Api, resources: ClusterResources, image: string, servers: ServerRole, vector: Option<string>,
      ghost before: Store)
    returns (failure: Option<Error>)
    requires Progress(client, resources, before, BasePlan(resources.owner, image))
    modifies client, resources
    ensures Made(old(client.log), client.log, GroupsCalls(servers.groups) + PdbCalls(servers.pdb), failure)
    ensures failure.None? ==> Progress(client, resources, before, Plan(resources.owner, image, servers, vector))
    ensures failure.Some? ==>
              FailedWithin(client.objects, before, resources.owner,
                           Plan(resources.owner, image, servers, vector), failure.value)
    ensures client.failures == old(client.failures) + if failure.None? then 0 else 1
  {
    ghost var plan := Plan(resources.owner, image, servers, vector);
    ghost var log := client.log;
    failure := ApplyRoleGroups(client, resources, image, servers, vector, before, plan);
    if failure.Some? {
      return;
    }
    ghost var between := client.log;
    ghost var done :=
      BasePlan(resources.owner, image) + GroupPlans(resources.owner, image, vector, servers.groups);
    failure := ApplyPdb(client, resources, servers.pdb, before, done, plan);
    MadeThen(log, between, client.log, GroupsCalls(servers.groups), PdbCalls(servers.pdb), failure);
  }

  /** The pod disruption budget, if it is enabled. */
  method ApplyPdb(
      client: Api, resources: ClusterResources, pdb: PdbConfig,
      ghost before: Store, ghost done: seq<Manifest>, ghost plan: seq<Manifest>)
    returns (failure: Option<Error>)
    requires Progress(client, resources, before, done)
    requires done + PdbPlan(resources.owner, pdb) == plan
    modifies client, resources
    ensures Made(old(client.log), client.log, PdbCalls(pdb), failure)
    ensures failure.None? ==> Progress(client, resources, before, plan)
    ensures failure.Some? ==> FailedWithin(client.objects, before, resources.owner, plan, failure.value)
    ensures client.failures == old(client.failures) + if failure.None? then 0 else 1
  {
    if !pdb.enabled {
      assert done == plan;
      return None;
    }
    var maxUnavailable := if pdb.maxUnavailable.Some? then pdb.maxUnavailable.value else DEFAULT_MAX_UNAVAILABLE;
    assert plan[|done|] == Pdb(resources.owner, "server", maxUnavailable);
    TwoCalls(client.log, FailedToCreatePdb, FailedToCreatePdb);
    var ok := LocalStep(client, resources, FailedToCreatePdb, before, done, plan);
    if !ok { return Some(FailedToCreatePdb); }
    ok := AddNext(client, resources, Pdb(resources.owner, "server", maxUnavailable), before, done, plan);
    if !ok { return Some(FailedToCreatePdb); }
    failure := None;
  }

  /** Validation, and everything the attempt applies. */
  method ApplyPlan(
      client: Api, resources: ClusterResources, image: string, servers: ServerRole, vector: Option<string>,
      ghost before: Store)
    returns (failure: Option<Error>)
    requires Progress(client, resources, before, [])
    modifies client, resources
    ensures Made(old(client.log), client.log, CallsBeforeStatus(servers), failure)
    ensures failure.None? ==> Progress(client, resources, before, Plan(resources.owner, image, servers, vector))
    ensures failure.Some? ==>
              FailedWithin(client.objects, before, resources.owner,
                           Plan(resources.owner, image, servers, vector), failure.value)
    ensures client.failures == old(client.failures) + if failure.None? then 0 else 1
  {
    ghost var plan := Plan(resources.owner, image, servers, vector);
    ghost var rest := GroupsCalls(servers.groups) + PdbCalls(servers.pdb);
    ghost var log := client.log;
    PlanUpTo(resources.owner, image, servers, vector, 0);
    assert BasePlan(resources.owner, image) <= plan && [] <= plan;
    OneCall(log, InvalidProductConfig);
    var ok := LocalStep(client, resources, InvalidProductConfig, before, [], plan);
    if !ok {
      failure := Some(InvalidProductConfig);
      MadePart(log, client.log, [InvalidProductConfig], BaseCalls(), failure);
      MadePart(log, client.log, [InvalidProductConfig] + BaseCalls(), rest, failure);
      return;
    }
    ghost var validated := client.log;
    failure := ApplyBase(client, resources, image, before, plan);
    MadeThen(log, validated, client.log, [InvalidProductConfig], BaseCalls(), failure);
    if failure.Some? {
      MadePart(log, client.log, [InvalidProductConfig] + BaseCalls(), rest, failure);
      return;
    }
    ghost var based := client.log;
    failure := ApplyGroups(client, resources, image, servers, vector, before);
    MadeThen(log, based, client.log, [InvalidProductConfig] + BaseCalls(), rest, failure);
  }

  /** All calls in order, and then those of the deletion of orphans; an attempt that fails stops at the call whose error
      it returns. An object that is invalid or lacks its role causes no call. */
  ghost predicate FollowsProtocol(before: seq<Error>, after: seq<Error>, hello: Hello, result: Result<Action, Error>) {
    if hello.InvalidHello? || hello.servers.None? then after == before
    else
      var calls := Calls(hello.servers.value);
      if result.Success? || result.error == DeleteOrphanedResources then
        exists n :: 1 <= n && after == before + calls + Deletions(n)
      else Made(before, after, calls, Some(result.error))
  }

  lemma {:induction false} AllCalls(before: seq<Error>, after: seq<Error>, servers: ServerRole)
    requires after == before + CallsBeforeStatus(servers) + [ApplyStatus]
    ensures after == before + Calls(servers) && Made(before, after, Calls(servers), Some(ApplyStatus))
  {
    var calls := Calls(servers);
    assert calls == CallsBeforeStatus(servers) + [ApplyStatus];
    assert calls[..|calls| - 1 + 1] == calls && calls[|calls| - 1] == ApplyStatus;
    MadeUpTo(before, after, calls, |calls| - 1);
  }

  lemma {:induction false} StoppedFollowsProtocol(
      before: seq<Error>, after: seq<Error>, hello: Hello, servers: ServerRole, error: Error)
    requires hello.Hello? && hello.servers == Some(servers) && error != DeleteOrphanedResources
    requires Made(before, after, CallsBeforeStatus(servers), Some(error))
    ensures FollowsProtocol(before, after, hello, Failure(error))
  {
    MadePart(before, after, CallsBeforeStatus(servers), [ApplyStatus], Some(error));
  }

  lemma {:induction false} EndedFollowsProtocol(
      before: seq<Error>, between: seq<Error>, after: seq<Error>, hello: Hello, result: Result<Action, Error>)
    requires hello.Hello? && hello.servers.Some? && between == before + Calls(hello.servers.value)
    requires exists n :: 1 <= n && after == between + Deletions(n)
    requires result.Success? || result.error == DeleteOrphanedResources
    ensures FollowsProtocol(before, after, hello, result)
  {
    var n :| 1 <= n && after == between + Deletions(n);
    assert after == before + Calls(hello.servers.value) + Deletions(n);
  }

  /** Orphans were deleted, all or some, when the plan was in place. */
  lemma {:induction false} EndedIsPossible(a: Attempt, resources: set<ResourceId>, applied: Store)
    requires Valid(a.hello) && applied == ApplyAll(a.before, a.owner, PlanOf(a)) && resources == Ids(PlanOf(a))
    requires if a.faultFree then
               && a.result == Success(AwaitChange)
               && a.after == applied - Orphans(applied, a.owner, resources)
             else
               && a.result == Failure(DeleteOrphanedResources)
               && exists deleted :: deleted <= Orphans(applied, a.owner, resources) && a.after == applied - deleted
    ensures Possible(a)
  {
    if !a.faultFree {
      var deleted :| deleted <= Orphans(applied, a.owner, resources) && a.after == applied - deleted;
      assert DeletedSome(a, deleted);
    }
  }

  /** The status patch, and the deletion of orphans. */
  method FinishAttempt(
      client: Api, resources: ClusterResources, ghost hello: Hello, ghost vector: Option<string>, ghost before: Store,
      ghost log: seq<Error>)
    returns (result: Result<Action, Error>)
    requires Valid(hello) && client.log == log + CallsBeforeStatus(hello.servers.value)
    requires Progress(client, resources, before, Plan(resources.owner, hello.image, hello.servers.value, vector))
    modifies client
    ensures Possible(Attempt(resources.owner, hello, vector, before, client.objects, result,
                             client.failures == old(client.failures)))
    ensures FollowsProtocol(log, client.log, hello, result)
  {
    var ok := client.Step(ApplyStatus);
    AllCalls(log, client.log, hello.servers.value);
    if !ok {
      return Failure(ApplyStatus);
    }
    ghost var applied, between := client.objects, client.log;
    ok := resources.DeleteOrphanedResources(client);
    result := if ok then Success(AwaitChange) else Failure(Error.DeleteOrphanedResources);
    EndedFollowsProtocol(log, between, client.log, hello, result);
    EndedIsPossible(Attempt(resources.owner, hello, vector, before, client.objects, result, ok),
                    resources.ids, applied);
  }

  /** One call of the reconciler. */
  method ReconcileHello(client: Api, owner: string, hello: Hello, vector: Option<string>)
    returns (result: Result<Action, Error>)
    modifies client
    ensures Possible(Attempt(owner, hello, vector, old(client.objects), client.objects, result,
                             client.failures == old(client.failures)))
    ensures FollowsProtocol(old(client.log), client.log, hello, result)
  {
    ghost var before, log := client.objects, client.log;
    if hello.InvalidHello? {
      return Failure(InvalidHelloCluster);
    }
    if hello.servers.None? {
      return Failure(NoServerRole);
    }
    var servers := hello.servers.value;
    var resources := new ClusterResources(owner);
    var failure := ApplyPlan(client, resources, hello.image, servers, vector, before);
    if failure.Some? {
      StoppedFollowsProtocol(log, client.log, hello, servers, failure.value);
      return Failure(failure.value);
    }
    result := FinishAttempt(client, resources, hello, vector, before, log);
  }
}
