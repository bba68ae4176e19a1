/** What the order of a reconcile attempt guarantees over all runs of failures, retries and changed objects. */
module ReconcileRuns {
  import opened Wrappers
  import opened Pods
  import opened Reconcile

  /** The objects that carry the owner's labels. */
  ghost function OwnedPart(store: Store, owner: string): Store {
    map id | id in store && store[id].owner == owner :: store[id]
  }

  /** Exactly the resources of the plan. */
  ghost function Desired(owner: string, plan: seq<Manifest>): Store {
    ApplyAll(map[], owner, plan)
  }

  /******* Applying *******/

  lemma {:induction false} ApplyAllEntry(store: Store, owner: string, ms: seq<Manifest>, id: ResourceId)
    ensures id !in Ids(ms) ==>
              (id in ApplyAll(store, owner, ms) <==> id in store)
              && (id in store ==> ApplyAll(store, owner, ms)[id] == store[id])
    ensures id in Ids(ms) ==>
              && id in ApplyAll(store, owner, ms) && id in Desired(owner, ms)
              && ApplyAll(store, owner, ms)[id] == Desired(owner, ms)[id]
              && ApplyAll(store, owner, ms)[id].owner == owner
              && ApplyAll(store, owner, ms)[id].manifest in ms
              && ApplyAll(store, owner, ms)[id].manifest.Id() == id
  {
    if ms != [] {
      var init, last := ms[..|ms| - 1], ms[|ms| - 1];
      assert ms == init + [last];
      ApplySnoc(store, owner, init, last);
      ApplySnoc(map[], owner, init, last);
      ApplyAllEntry(store, owner, init, id);
    }
  }

  /** Applying only the owner's resources commutes with looking at the owner's part. */
  lemma {:induction false} OwnedApply(store: Store, owner: string, ms: seq<Manifest>)
    ensures OwnedPart(ApplyAll(store, owner, ms), owner) == ApplyAll(OwnedPart(store, owner), owner, ms)
  {
    var left, right := OwnedPart(ApplyAll(store, owner, ms), owner), ApplyAll(OwnedPart(store, owner), owner, ms);
    forall id ensures id in left <==> id in right {
      ApplyAllEntry(store, owner, ms, id);
      ApplyAllEntry(OwnedPart(store, owner), owner, ms, id);
    }
    forall id | id in left ensures left[id] == right[id] {
      ApplyAllEntry(store, owner, ms, id);
      ApplyAllEntry(OwnedPart(store, owner), owner, ms, id);
    }
  }

  lemma {:induction false} PrefixIds(done: seq<Manifest>, plan: seq<Manifest>)
    requires done <= plan
    ensures Ids(done) <= Ids(plan)
    ensures forall m :: m in done ==> m in plan
  {
    forall m | m in done ensures m in plan {
      var i :| 0 <= i < |done| && done[i] == m;
      assert plan[i] == m;
    }
  }

  /** What an attempt did: a prefix of the plan applied, then some orphans deleted, and only at the end. */
  lemma {:induction false} Shape(a: Attempt) returns (done: seq<Manifest>, deleted: set<ResourceId>)
    requires Possible(a)
    ensures done <= PlanOf(a)
    ensures deleted <= Orphans(ApplyAll(a.before, a.owner, PlanOf(a)), a.owner, Ids(PlanOf(a)))
    ensures a.after == ApplyAll(a.before, a.owner, done) - deleted
    ensures deleted != {} ==> done == PlanOf(a) && (a.result.Success? || a.result == Failure(DeleteOrphanedResources))
    ensures a.result.Success? ==>
              done == PlanOf(a) && deleted == Orphans(ApplyAll(a.before, a.owner, done), a.owner, Ids(done))
  {
    done, deleted := [], {};
    assert ApplyAll(a.before, a.owner, []) - {} == a.before;
    if Valid(a.hello) {
      var plan := PlanOf(a);
      if a.faultFree {
        done, deleted := plan, Orphans(ApplyAll(a.before, a.owner, plan), a.owner, Ids(plan));
      } else if a.result.error == DeleteOrphanedResources && exists d :: DeletedSome(a, d) {
        done := plan;
        deleted :| DeletedSome(a, deleted);
      } else if FailedWithin(a.after, a.before, a.owner, plan, a.result.error) {
        done := AppliedPart(a.after, a.before, a.owner, plan, a.result.error);
      } else {
        done := plan;
      }
      if deleted == {} {
        assert ApplyAll(a.before, a.owner, done) - deleted == ApplyAll(a.before, a.owner, done);
      }
    }
  }

  lemma {:induction false} AppliedPart(store: Store, before: Store, owner: string, plan: seq<Manifest>, error: Error)
    returns (done: seq<Manifest>)
    requires FailedWithin(store, before, owner, plan, error)
    ensures done <= plan && store == ApplyAll(before, owner, done)
  {
    if exists d :: StoppedAfter(store, before, owner, plan, error, d) {
      done :| StoppedAfter(store, before, owner, plan, error, done);
    } else {
      var d, m :| StoppedAt(store, before, owner, plan, error, d, m);
      done := if store == ApplyAll(before, owner, d) then d else d + [m];
      assert d <= d + [m] <= plan;
    }
  }

  /******* One attempt *******/

  /** An attempt that returns Ok leaves exactly the resources its object wants, whatever was there before. */
  lemma {:induction false} OkLeavesExactlyDesired(a: Attempt)
    requires Possible(a) && a.result.Success?
    ensures OwnedPart(a.after, a.owner) == Desired(a.owner, PlanOf(a))
  {
    var plan := PlanOf(a);
    var done, deleted := Shape(a);
    var left, right := OwnedPart(a.after, a.owner), Desired(a.owner, plan);
    forall id ensures (id in left <==> id in right) && (id in left ==> left[id] == right[id]) {
      ApplyAllEntry(a.before, a.owner, plan, id);
      ApplyAllEntry(map[], a.owner, plan, id);
    }
  }

  /** An attempt that fails before the deletion of orphans deletes nothing and changes nothing it does not apply. */
  lemma {:induction false} EarlyFailureDeletesNothing(a: Attempt)
    requires Possible(a) && a.result.Failure? && a.result.error != DeleteOrphanedResources
    ensures a.before.Keys <= a.after.Keys
    ensures forall id :: id in a.before && id !in Ids(PlanOf(a)) ==> a.after[id] == a.before[id]
  {
    var done, deleted := Shape(a);
    PrefixIds(done, PlanOf(a));
    forall id | id in a.before
      ensures id in a.after && (id !in Ids(PlanOf(a)) ==> a.after[id] == a.before[id])
    {
      ApplyAllEntry(a.before, a.owner, done, id);
    }
  }

  /** No attempt deletes a resource its own object wants, or an object of another owner. */
  lemma {:induction false} NeverDeletesWantedOrForeign(a: Attempt, id: ResourceId)
    requires Possible(a) && id in a.before
    requires id in Ids(PlanOf(a)) || a.before[id].owner != a.owner
    ensures id in a.after
    ensures id !in Ids(PlanOf(a)) ==> a.after[id] == a.before[id]
  {
    var done, deleted := Shape(a);
    PrefixIds(done, PlanOf(a));
    ApplyAllEntry(a.before, a.owner, done, id);
    ApplyAllEntry(a.before, a.owner, PlanOf(a), id);
  }

  /** Whenever an attempt has deleted something, everything its object wants is in place. */
  lemma {:induction false} DeletesOnlyWhenComplete(a: Attempt, gone: ResourceId)
    requires Possible(a) && gone in a.before && gone !in a.after
    ensures forall id :: id in Ids(PlanOf(a)) ==>
              id in a.after && id in Desired(a.owner, PlanOf(a)) && a.after[id] == Desired(a.owner, PlanOf(a))[id]
  {
    var done, deleted := Shape(a);
    ApplyAllEntry(a.before, a.owner, done, gone);
    assert gone in deleted && done == PlanOf(a);
    forall id | id in Ids(PlanOf(a))
      ensures id in a.after && id in Desired(a.owner, PlanOf(a)) && a.after[id] == Desired(a.owner, PlanOf(a))[id]
    {
      ApplyAllEntry(a.before, a.owner, PlanOf(a), id);
    }
  }

  /** An attempt is repeated without a change of the object exactly when it failed and the object is valid or lacks
      its role; only an object that cannot be read waits for a change. */
  lemma {:induction false} RetriedUnlessUnreadable(a: Attempt)
    requires Possible(a) && a.result.Failure?
    ensures ErrorPolicy(a.result.error) == AwaitChange <==> a.hello.InvalidHello?
    ensures ErrorPolicy(a.result.error) != AwaitChange ==> ErrorPolicy(a.result.error) == Requeue(5)
  {
    if Valid(a.hello) && FailedWithin(a.after, a.before, a.owner, PlanOf(a), a.result.error) {
      if done :| StoppedAfter(a.after, a.before, a.owner, PlanOf(a), a.result.error, done) {
      } else {
        var done, m :| StoppedAt(a.after, a.before, a.owner, PlanOf(a), a.result.error, done, m);
      }
    }
  }

  /******* No resource of a plan overwrites another *******/

  ghost predicate DistinctGroups(groups: seq<GroupSpec>) {
    forall i, j :: 0 <= i < j < |groups| ==> groups[i].name != groups[j].name
  }

  ghost predicate DistinctIds(ms: seq<Manifest>) {
    forall i, j :: 0 <= i < j < |ms| ==> ms[i].Id() != ms[j].Id()
  }

  lemma {:induction false} DistinctConcat(s: seq<Manifest>, t: seq<Manifest>)
    requires DistinctIds(s) && DistinctIds(t) && Ids(s) !! Ids(t)
    ensures DistinctIds(s + t) && Ids(s + t) == Ids(s) + Ids(t)
  {
    forall i, j | 0 <= i < j < |s + t| ensures (s + t)[i].Id() != (s + t)[j].Id() {
      if i < |s| <= j {
        assert s[i] in s && t[j - |s|] in t;
        assert s[i].Id() in Ids(s) && t[j - |s|].Id() in Ids(t);
      }
    }
  }

  /** The ids of a group's resources: its object name under three kinds. */
  ghost predicate IsGroupId(owner: string, name: string, id: ResourceId) {
    && id.name == RoleGroupRef(owner, "server", name).ObjectName()
    && (id.kind == ServiceKind || id.kind == ConfigMapKind || id.kind == StatefulSetKind)
  }

  lemma {:induction false} GroupNamesDiffer(owner: string, g: string, h: string)
    requires g != h
    ensures RoleGroupRef(owner, "server", g).ObjectName() != RoleGroupRef(owner, "server", h).ObjectName()
  {
    if RoleGroupRef(owner, "server", g).ObjectName() == RoleGroupRef(owner, "server", h).ObjectName() {
      ObjectNameInjective(HelloCluster(owner, None, None), g, h);
    }
  }

  lemma {:induction false} LastGroupDiffers(groups: seq<GroupSpec>)
    requires DistinctGroups(groups) && groups != []
    ensures forall g :: g in groups[..|groups| - 1] ==> g.name != groups[|groups| - 1].name
  {
    var init := groups[..|groups| - 1];
    forall g | g in init ensures g.name != groups[|groups| - 1].name {
      var i :| 0 <= i < |init| && init[i] == g;
      assert groups[i] == g;
    }
  }

  lemma {:induction false} GroupPlansDistinct(
      owner: string, image: string, vector: Option<string>, groups: seq<GroupSpec>)
    requires DistinctGroups(groups)
    ensures DistinctIds(GroupPlans(owner, image, vector, groups))
    ensures forall id :: id in Ids(GroupPlans(owner, image, vector, groups)) ==>
              exists g :: g in groups && IsGroupId(owner, g.name, id)
  {
    if groups != [] {
      var init, last := groups[..|groups| - 1], groups[|groups| - 1];
      GroupPlansDistinct(owner, image, vector, init);
      var s, t := GroupPlans(owner, image, vector, init), GroupPlan(owner, image, vector, last);
      assert last in groups && forall g :: g in init ==> g in groups;
      forall id | id in Ids(t) ensures IsGroupId(owner, last.name, id) {
      }
      LastGroupDiffers(groups);
      forall id | id in Ids(s) ensures id !in Ids(t) {
        var g :| g in init && IsGroupId(owner, g.name, id);
        GroupNamesDiffer(owner, g.name, last.name);
      }
      DistinctConcat(s, t);
    }
  }

  /** Distinct group names give every resource of the plan an id of its own. */
  lemma {:induction false} PlanIdsDistinct(owner: string, image: string, servers: ServerRole, vector: Option<string>)
    requires DistinctGroups(servers.groups)
    ensures DistinctIds(Plan(owner, image, servers, vector))
  {
    var base, groups := BasePlan(owner, image), GroupPlans(owner, image, vector, servers.groups);
    var pdb := PdbPlan(owner, servers.pdb);
    GroupPlansDistinct(owner, image, vector, servers.groups);
    forall id | id in Ids(groups) ensures id !in Ids(base) {
      var g :| g in servers.groups && IsGroupId(owner, g.name, id);
      assert |id.name| > |owner|;
    }
    DistinctConcat(base, groups);
    assert forall id :: id in Ids(pdb) ==> id.kind == PdbKind;
    DistinctConcat(base + groups, pdb);
  }

  /** Every manifest of a plan without clashes is among the desired objects as it stands. */
  lemma {:induction false} DesiredHasEveryManifest(owner: string, ms: seq<Manifest>, m: Manifest)
    requires DistinctIds(ms) && m in ms
    ensures m.Id() in Desired(owner, ms) && Desired(owner, ms)[m.Id()] == Object(m, owner)
  {
    ApplyAllEntry(map[], owner, ms, m.Id());
    var stored := Desired(owner, ms)[m.Id()].manifest;
    var i :| 0 <= i < |ms| && ms[i] == m;
    var j :| 0 <= j < |ms| && ms[j] == stored;
    assert i == j;
  }

  /******* Runs *******/

  /** Attempts for one cluster in turn; between them nobody else touches the cluster's own objects. */
  ghost predicate IsRun(run: seq<Attempt>, owner: string) {
    && (forall i :: 0 <= i < |run| ==> Possible(run[i]) && run[i].owner == owner)
    && (forall i :: 0 < i < |run| ==> OwnedPart(run[i].before, owner) == OwnedPart(run[i - 1].after, owner))
  }

  /** The same valid object up to the order in which its role groups are visited. */
  ghost predicate SameUpToVisitOrder(hello: Hello, hello': Hello) {
    && Valid(hello) && Valid(hello')
    && hello.image == hello'.image && hello.servers.value.pdb == hello'.servers.value.pdb
    && DistinctGroups(hello.servers.value.groups) && DistinctGroups(hello'.servers.value.groups)
    && forall g :: g in hello.servers.value.groups <==> g in hello'.servers.value.groups
  }

  ghost function PlanFor(owner: string, hello: Hello, vector: Option<string>): seq<Manifest>
    requires Valid(hello)
  {
    Plan(owner, hello.image, hello.servers.value, vector)
  }

  lemma {:induction false} GroupPlansMembers(
      owner: string, image: string, vector: Option<string>, groups: seq<GroupSpec>, m: Manifest)
    ensures m in GroupPlans(owner, image, vector, groups) <==>
            exists g :: g in groups && m in GroupPlan(owner, image, vector, g)
  {
    if groups != [] {
      var init, last := groups[..|groups| - 1], groups[|groups| - 1];
      GroupPlansMembers(owner, image, vector, init, m);
      assert groups == init + [last] && last in groups;
    }
  }

  /** Visiting the role groups in another order applies the same resources. */
  lemma {:induction false} SamePlanMembers(
      owner: string, hello: Hello, hello': Hello, vector: Option<string>, m: Manifest)
    requires SameUpToVisitOrder(hello, hello')
    ensures m in PlanFor(owner, hello, vector) <==> m in PlanFor(owner, hello', vector)
  {
    GroupPlansMembers(owner, hello.image, vector, hello.servers.value.groups, m);
    GroupPlansMembers(owner, hello.image, vector, hello'.servers.value.groups, m);
  }

  /** Without clashes the desired objects do not depend on the order of the plan. */
  lemma {:induction false} DesiredOfSameMembers(owner: string, plan: seq<Manifest>, plan': seq<Manifest>)
    requires DistinctIds(plan) && DistinctIds(plan') && forall m :: m in plan <==> m in plan'
    ensures Desired(owner, plan) == Desired(owner, plan') && Ids(plan) == Ids(plan')
  {
    var left, right := Desired(owner, plan), Desired(owner, plan');
    assert Ids(plan) == Ids(plan');
    forall id ensures (id in left <==> id in right) && (id in left ==> left[id] == right[id]) {
      ApplyAllEntry(map[], owner, plan, id);
      ApplyAllEntry(map[], owner, plan', id);
      if id in Ids(plan) {
        DesiredHasEveryManifest(owner, plan', left[id].manifest);
      }
    }
  }

  /** The desired state of an object, whatever the order of its role groups. */
  lemma {:induction false} DesiredIgnoresVisitOrder(owner: string, hello: Hello, hello': Hello, vector: Option<string>)
    requires SameUpToVisitOrder(hello, hello')
    ensures DistinctIds(PlanFor(owner, hello, vector)) && DistinctIds(PlanFor(owner, hello', vector))
    ensures Desired(owner, PlanFor(owner, hello, vector)) == Desired(owner, PlanFor(owner, hello', vector))
  {
    PlanIdsDistinct(owner, hello.image, hello.servers.value, vector);
    PlanIdsDistinct(owner, hello'.image, hello'.servers.value, vector);
    forall m ensures m in PlanFor(owner, hello, vector) <==> m in PlanFor(owner, hello', vector) {
      SamePlanMembers(owner, hello, hello', vector, m);
    }
    DesiredOfSameMembers(owner, PlanFor(owner, hello, vector), PlanFor(owner, hello', vector));
  }

  /** Applying part of a plan again over its own result changes nothing. */
  lemma {:induction false} ReapplyingIsIdle(owner: string, plan: seq<Manifest>, done: seq<Manifest>)
    requires DistinctIds(plan) && done <= plan
    ensures ApplyAll(Desired(owner, plan), owner, done) == Desired(owner, plan)
  {
    PrefixIds(done, plan);
    var left, right := ApplyAll(Desired(owner, plan), owner, done), Desired(owner, plan);
    forall id ensures (id in left <==> id in right) && (id in left ==> left[id] == right[id]) {
      ApplyAllEntry(right, owner, done, id);
      if id in Ids(done) {
        DesiredHasEveryManifest(owner, plan, left[id].manifest);
      }
    }
  }

  /** From the desired state no attempt for the same object, failed or not and in whatever order it visits the role
      groups, changes the cluster's objects. */
  lemma {:induction false} DesiredIsStable(a: Attempt, hello: Hello)
    requires Possible(a) && SameUpToVisitOrder(hello, a.hello)
    requires OwnedPart(a.before, a.owner) == Desired(a.owner, PlanFor(a.owner, hello, a.vector))
    ensures OwnedPart(a.after, a.owner) == Desired(a.owner, PlanFor(a.owner, hello, a.vector))
  {
    DesiredIgnoresVisitOrder(a.owner, hello, a.hello, a.vector);
    var plan := PlanOf(a);
    var done, deleted := Shape(a);
    OwnedApply(a.before, a.owner, done);
    ReapplyingIsIdle(a.owner, plan, done);
    NothingOrphaned(a);
    assert a.after == ApplyAll(a.before, a.owner, done);
  }

  lemma {:induction false} NothingOrphaned(a: Attempt)
    requires OwnedPart(a.before, a.owner) == Desired(a.owner, PlanOf(a))
    ensures Orphans(ApplyAll(a.before, a.owner, PlanOf(a)), a.owner, Ids(PlanOf(a))) == {}
  {
    var plan := PlanOf(a);
    var applied := ApplyAll(a.before, a.owner, plan);
    forall id | id in applied && applied[id].owner == a.owner ensures id in Ids(plan) {
      ApplyAllEntry(a.before, a.owner, plan, id);
      ApplyAllEntry(map[], a.owner, plan, id);
      assert id in Ids(plan) || id in OwnedPart(a.before, a.owner);
    }
  }

  /** All attempts are for the same valid object and find the same address; each may visit the role groups in an
      order of its own. */
  ghost predicate SameObjectThroughout(run: seq<Attempt>, hello: Hello, vector: Option<string>) {
    forall i :: 0 <= i < |run| ==> SameUpToVisitOrder(hello, run[i].hello) && run[i].vector == vector
  }

  /** With a fixed valid object, from any store at all: an attempt in which no call fails returns Ok and reaches the
      desired state, every other attempt is followed by another one, and once reached the state is kept. */
  lemma {:induction false} RunConverges(
      run: seq<Attempt>, owner: string, hello: Hello, vector: Option<string>, k: nat, j: nat)
    requires IsRun(run, owner) && k <= j < |run| && run[k].faultFree
    requires SameObjectThroughout(run, hello, vector)
    ensures run[k].result == Success(AwaitChange)
    ensures forall i :: 0 <= i < |run| && !run[i].faultFree ==>
              run[i].result.Failure? && ErrorPolicy(run[i].result.error) == Requeue(5)
    ensures Valid(hello) && OwnedPart(run[j].after, owner) == Desired(owner, PlanFor(owner, hello, vector))
  {
    forall i | 0 <= i < |run| && !run[i].faultFree
      ensures run[i].result.Failure? && ErrorPolicy(run[i].result.error) == Requeue(5)
    {
      RetriedUnlessUnreadable(run[i]);
    }
    DesiredKeptSince(run, owner, hello, vector, k, j);
  }

  lemma {:induction false} DesiredKeptSince(
      run: seq<Attempt>, owner: string, hello: Hello, vector: Option<string>, k: nat, j: nat)
    requires IsRun(run, owner) && k <= j < |run| && run[k].faultFree
    requires SameObjectThroughout(run, hello, vector)
    ensures Valid(hello) && OwnedPart(run[j].after, owner) == Desired(owner, PlanFor(owner, hello, vector))
    decreases j
  {
    if j == k {
      OkLeavesExactlyDesired(run[k]);
      DesiredIgnoresVisitOrder(owner, hello, run[k].hello, vector);
    } else {
      DesiredKeptSince(run, owner, hello, vector, k, j - 1);
      DesiredIsStable(run[j], hello);
    }
  }

  /** The object was put there by an attempt after which no attempt has succeeded, or it was there from the start. */
  ghost predicate HasOrigin(run: seq<Attempt>, owner: string, n: nat, id: ResourceId, stored: Object)
    requires n <= |run|
  {
    || (exists j :: OriginAt(run, j, n, stored.manifest))
    || (n > 0 && AllFailed(run, 0, n) && id in OwnedPart(run[0].before, owner)
        && OwnedPart(run[0].before, owner)[id] == stored)
  }

  ghost predicate OriginAt(run: seq<Attempt>, j: nat, n: nat, m: Manifest) {
    j < n <= |run| && m in PlanOf(run[j]) && AllFailed(run, j + 1, n)
  }

  ghost predicate AllFailed(run: seq<Attempt>, from: nat, to: nat)
    requires to <= |run|
  {
    forall i :: from <= i < to ==> run[i].result.Failure?
  }

  lemma {:induction false} OneAttemptOrigin(a: Attempt, id: ResourceId)
    requires Possible(a) && id in OwnedPart(a.after, a.owner)
    ensures || a.after[id].manifest in PlanOf(a)
            || (a.result.Failure? && id in OwnedPart(a.before, a.owner) && a.before[id] == a.after[id])
  {
    var done, deleted := Shape(a);
    ApplyAllEntry(a.before, a.owner, done, id);
    PrefixIds(done, PlanOf(a));
    ApplyAllEntry(a.before, a.owner, PlanOf(a), id);
  }

  /** Over all runs, with objects changing and attempts failing in between: whatever the cluster owns at the end
      was wanted by the last successful attempt or a later one; nothing older is left. */
  lemma {:induction false} LeftoversAreRecent(run: seq<Attempt>, owner: string, n: nat, id: ResourceId)
    requires IsRun(run, owner) && 0 < n <= |run|
    requires id in OwnedPart(run[n - 1].after, owner)
    ensures HasOrigin(run, owner, n, id, OwnedPart(run[n - 1].after, owner)[id])
  {
    var last := run[n - 1];
    OneAttemptOrigin(last, id);
    if last.after[id].manifest in PlanOf(last) {
      assert OriginAt(run, n - 1, n, last.after[id].manifest);
    } else if n > 1 {
      assert id in OwnedPart(run[n - 2].after, owner);
      LeftoversAreRecent(run, owner, n - 1, id);
      assert OwnedPart(last.before, owner)[id] == last.after[id];
      OriginStep(run, owner, n, id, last.after[id]);
    }
  }

  lemma {:induction false} OriginStep(run: seq<Attempt>, owner: string, n: nat, id: ResourceId, stored: Object)
    requires 1 < n <= |run| && run[n - 1].result.Failure?
    requires HasOrigin(run, owner, n - 1, id, stored)
    ensures HasOrigin(run, owner, n, id, stored)
  {
    if AllFailed(run, 0, n - 1) && id in OwnedPart(run[0].before, owner)
       && OwnedPart(run[0].before, owner)[id] == stored {
      assert AllFailed(run, 0, n);
    } else {
      var j :| OriginAt(run, j, n - 1, stored.manifest);
      OriginAtStep(run, j, n, stored.manifest);
    }
  }

  lemma {:induction false} OriginAtStep(run: seq<Attempt>, j: nat, n: nat, m: Manifest)
    requires 1 < n <= |run| && run[n - 1].result.Failure? && OriginAt(run, j, n - 1, m)
    ensures OriginAt(run, j, n, m)
  {
  }
}
