/** What the walk computes: it satisfies every dependency edge on any graph, it contains nothing that is not
    forced, and where no crate's step needs repeating it is the least closed assignment. */
module FeatureResolution {
  import opened Strings
  import opened Wrappers
  import opened FeatureRules
  import opened PackageFeatures

  /** Package id to feature set. */
  type Assignment = map<string, set<string>>

  /** Closed under every crate's own rules and along every active edge. */
  ghost predicate ClosedAssignment(run: Run, A: Assignment) {
    forall p :: p in A ==>
      && p in run.crateConfigs
      && LocallyClosed(run.crateConfigs[p], A[p])
      && forall d :: IsEdge(run, p, d) ==> EdgeHolds(run, A, p, d)
  }

  ghost predicate EdgeHolds(run: Run, A: Assignment, p: string, d: Dependency)
    requires p in A
  {
    Active(run, A[p], d) ==> d.packageId in A && forall g :: Asks(A[p], d, g) ==> g in A[d.packageId]
  }

  ghost predicate StartsAt(run: Run, features: seq<string>, A: Assignment) {
    run.rootPackageId in A && Elems(features) <= A[run.rootPackageId]
  }

  ghost predicate Below(A: Assignment, B: Assignment) {
    forall p :: p in A ==> p in B && A[p] <= B[p]
  }

  ghost predicate IsLeastClosed(run: Run, features: seq<string>, A: Assignment) {
    && ClosedAssignment(run, A) && StartsAt(run, features, A)
    && forall B :: ClosedAssignment(run, B) && StartsAt(run, features, B) ==> Below(A, B)
  }

  ghost function AssignmentOf(cache: Cache): Assignment {
    map p | p in cache :: Elems(cache[p])
  }

  /******* Soundness: nothing without a reason *******/

  lemma {:induction false} MergeBelow(
      run: Run, universe: set<string>, packageId: string, features: seq<string>, cache: Cache, A: Assignment)
    requires WellFormed(run) && Universe(run, universe) && Within(run, universe, cache)
    requires packageId in run.crateConfigs && Elems(features) <= universe
    requires ClosedAssignment(run, A) && Below(AssignmentOf(cache), A)
    requires packageId in A && Elems(features) <= A[packageId]
    ensures Below(AssignmentOf(Merge(run, universe, packageId, features, cache)), A)
    decreases MissingPackages(run, CacheWithSelf(run, packageId, features, cache)),
              MissingFeatures(run, universe, CacheWithSelf(run, packageId, features, cache)), 1, 0
  {
    var crate := run.crateConfigs[packageId];
    var enabled := EnabledFeatures(crate, features);
    var self := CacheWithSelf(run, packageId, features, cache);
    SelfWithin(run, universe, packageId, features, cache);
    RequestsWithin(run, universe, packageId, features);
    EnabledFeaturesBelow(crate, features, A[packageId]);
    CombinedMeaning(cache, packageId, enabled);
    SelfBelow(cache, packageId, self[packageId], A);
    var direct := Requests(run, DependenciesOf(run, packageId), enabled);
    var build := Requests(run, crate.buildDependencies, enabled);
    RequestsBelow(run, packageId, enabled, DependenciesOf(run, packageId), A);
    RequestsBelow(run, packageId, enabled, crate.buildDependencies, A);
    ResolveBelow(run, universe, direct, self, A);
    var next := ResolveRequests(run, universe, direct, self);
    MissingShrinks(run, universe, self, next);
    ResolveBelow(run, universe, build, next, A);
  }

  lemma {:induction false} SelfBelow(cache: Cache, packageId: string, features: seq<string>, A: Assignment)
    requires Below(AssignmentOf(cache), A) && packageId in A && Elems(features) <= A[packageId]
    ensures Below(AssignmentOf(cache[packageId := features]), A)
  {
    forall p | p in cache && p != packageId ensures p in A && Elems(cache[p]) <= A[p] {
      assert p in AssignmentOf(cache);
    }
  }

  ghost predicate RequestBelow(r: Request, A: Assignment) {
    r.packageId in A && Elems(r.features) <= A[r.packageId]
  }

  lemma {:induction false} RequestsBelow(
      run: Run, packageId: string, enabled: seq<string>, dependencies: seq<Dependency>, A: Assignment)
    requires packageId in run.crateConfigs && ClosedAssignment(run, A)
    requires packageId in A && Elems(enabled) <= A[packageId]
    requires forall d :: d in dependencies ==> IsEdge(run, packageId, d)
    ensures forall r :: r in Requests(run, dependencies, enabled) ==> RequestBelow(r, A)
  {
    forall r | r in Requests(run, dependencies, enabled) ensures RequestBelow(r, A) {
      RequestsMeaning(run, dependencies, enabled, r);
      var d :| d in dependencies && Active(run, Elems(enabled), d)
               && r == Request(d.packageId, DependencyFeatures(enabled, d));
      assert EdgeHolds(run, A, packageId, d);
      forall g | g in Elems(r.features) ensures g in A[r.packageId] {
        DependencyFeaturesMeaning(enabled, d, g);
        assert Asks(A[packageId], d, g);
      }
    }
  }

  lemma {:induction false} ResolveBelow(
      run: Run, universe: set<string>, requests: seq<Request>, cache: Cache, A: Assignment)
    requires WellFormed(run) && Universe(run, universe) && Within(run, universe, cache)
    requires ValidRequests(run, universe, requests)
    requires ClosedAssignment(run, A) && Below(AssignmentOf(cache), A)
    requires forall r :: r in requests ==> RequestBelow(r, A)
    ensures Below(AssignmentOf(ResolveRequests(run, universe, requests, cache)), A)
    decreases MissingPackages(run, cache), MissingFeatures(run, universe, cache), 0, |requests|
  {
    if requests != [] {
      var Request(packageId, features) := requests[0];
      var combined := CombinedFeatures(cache, packageId, features);
      var next := cache;
      if !(packageId in cache && cache[packageId] == combined) {
        ReentryGrows(run, universe, packageId, features, cache);
        CombinedMeaning(cache, packageId, features);
        assert RequestBelow(requests[0], A);
        assert packageId in cache ==> packageId in AssignmentOf(cache);
        MergeBelow(run, universe, packageId, combined, cache, A);
        next := Merge(run, universe, packageId, combined, cache);
      }
      MissingShrinks(run, universe, cache, next);
      ResolveBelow(run, universe, requests[1..], next, A);
    }
  }

  /** The result lies below every closed assignment that contains the root's features. */
  lemma {:induction false} ResolutionIsSound(run: Run, features: seq<string>, A: Assignment)
    requires WellFormed(run) && run.rootPackageId in run.crateConfigs
    requires ClosedAssignment(run, A) && StartsAt(run, features, A)
    ensures Below(AssignmentOf(MergePackageFeatures(run, features)), A)
  {
    UniverseExists(run, features);
    MergeBelow(run, FeatureUniverse(run, features), run.rootPackageId, features, map[], A);
  }

  /******* Every edge is satisfied, on any graph *******/

  /** Each active dependency of p has its package in the cache with all the features asked of it. */
  ghost predicate Settled(run: Run, cache: Cache, p: string)
    requires p in cache && p in run.crateConfigs
  {
    forall d :: IsEdge(run, p, d) && Active(run, Elems(cache[p]), d) ==> Granted(cache, Elems(cache[p]), d)
  }

  ghost predicate Granted(cache: Cache, S: set<string>, d: Dependency) {
    d.packageId in cache && forall g :: Asks(S, d, g) ==> g in Elems(cache[d.packageId])
  }

  /** Between two points of the walk, every entry not settled at the end is one that did not change:
      it belongs to a package whose visit is still in progress. */
  ghost predicate SettledOrKept(run: Run, c: Cache, c': Cache)
    requires c'.Keys <= run.crateConfigs.Keys
  {
    forall p :: p in c' ==> Settled(run, c', p) || (p in c && c'[p] == c[p])
  }

  lemma {:induction false} SettledStays(run: Run, c: Cache, c': Cache, p: string)
    requires p in c && p in c' && p in run.crateConfigs
    requires CacheLeq(c, c') && c[p] == c'[p] && Settled(run, c, p)
    ensures Settled(run, c', p)
  {
    forall d | IsEdge(run, p, d) && Active(run, Elems(c'[p]), d) ensures Granted(c', Elems(c'[p]), d) {
      assert Granted(c, Elems(c[p]), d);
    }
  }

  lemma {:induction false} SettledOrKeptCompose(run: Run, a: Cache, b: Cache, c: Cache)
    requires a.Keys <= b.Keys <= c.Keys <= run.crateConfigs.Keys
    requires CacheLeq(a, b) && CacheLeq(b, c)
    requires SettledOrKept(run, a, b) && SettledOrKept(run, b, c)
    ensures SettledOrKept(run, a, c)
  {
    forall p | p in c ensures Settled(run, c, p) || (p in a && c[p] == a[p]) {
      if !Settled(run, c, p) {
        assert p in b && c[p] == b[p];
        if Settled(run, b, p) {
          SettledStays(run, b, c, p);
        }
      }
    }
  }

  ghost predicate Answered(cache: Cache, r: Request) {
    r.packageId in cache && Elems(r.features) <= Elems(cache[r.packageId])
  }

  ghost predicate AllAnswered(cache: Cache, requests: seq<Request>) {
    forall r :: r in requests ==> Answered(cache, r)
  }

  lemma {:induction false} AnsweredStays(c: Cache, c': Cache, requests: seq<Request>)
    requires CacheLeq(c, c') && AllAnswered(c, requests)
    ensures AllAnswered(c', requests)
  {
    forall r | r in requests ensures Answered(c', r) {
      assert Answered(c, r);
    }
  }

  lemma {:induction false} AnsweredGrants(run: Run, dependencies: seq<Dependency>, enabled: seq<string>, cache: Cache)
    requires AllAnswered(cache, Requests(run, dependencies, enabled))
    ensures forall d :: d in dependencies && Active(run, Elems(enabled), d) ==> Granted(cache, Elems(enabled), d)
  {
    forall d | d in dependencies && Active(run, Elems(enabled), d) ensures Granted(cache, Elems(enabled), d) {
      var r := Request(d.packageId, DependencyFeatures(enabled, d));
      RequestsMeaning(run, dependencies, enabled, r);
      assert Answered(cache, r);
      forall g | Asks(Elems(enabled), d, g) ensures g in Elems(cache[d.packageId]) {
        DependencyFeaturesMeaning(enabled, d, g);
        assert g in Elems(r.features);
      }
    }
  }

  lemma {:induction false} MergeSettles(
      run: Run, universe: set<string>, packageId: string, features: seq<string>, cache: Cache)
    requires WellFormed(run) && Universe(run, universe) && Within(run, universe, cache)
    requires packageId in run.crateConfigs && Elems(features) <= universe
    requires packageId in cache ==> Elems(cache[packageId]) <= Elems(features)
    ensures var r := Merge(run, universe, packageId, features, cache);
            SettledOrKept(run, cache, r) && Settled(run, r, packageId)
    decreases MissingPackages(run, CacheWithSelf(run, packageId, features, cache)),
              MissingFeatures(run, universe, CacheWithSelf(run, packageId, features, cache)), 1, 0
  {
    var crate := run.crateConfigs[packageId];
    var enabled := EnabledFeatures(crate, features);
    var self := CacheWithSelf(run, packageId, features, cache);
    SelfWithin(run, universe, packageId, features, cache);
    RequestsWithin(run, universe, packageId, features);
    var direct := Requests(run, DependenciesOf(run, packageId), enabled);
    var build := Requests(run, crate.buildDependencies, enabled);
    ResolveSettles(run, universe, direct, self);
    var next := ResolveRequests(run, universe, direct, self);
    MissingShrinks(run, universe, self, next);
    ResolveSettles(run, universe, build, next);
    var r := ResolveRequests(run, universe, build, next);
    SettledOrKeptCompose(run, self, next, r);
    assert Settled(run, r, packageId) by {
      if r[packageId] == self[packageId] {
        SelfIsEnabled(run, packageId, features, cache);
        AnsweredStays(next, r, direct);
        AnsweredGrants(run, DependenciesOf(run, packageId), enabled, r);
        AnsweredGrants(run, crate.buildDependencies, enabled, r);
      }
    }
  }

  /** A package entered with at least its cached features gets exactly the features of this visit. */
  lemma {:induction false} SelfIsEnabled(run: Run, packageId: string, features: seq<string>, cache: Cache)
    requires packageId in run.crateConfigs
    requires packageId in cache ==> Elems(cache[packageId]) <= Elems(features)
    ensures Elems(CacheWithSelf(run, packageId, features, cache)[packageId])
            == Elems(EnabledFeatures(run.crateConfigs[packageId], features))
  {
    var enabled := EnabledFeatures(run.crateConfigs[packageId], features);
    EnabledFeaturesCanonical(run.crateConfigs[packageId], features);
    CombinedMeaning(cache, packageId, enabled);
  }

  lemma {:induction false} SelfAnswers(run: Run, r: Request, cache: Cache, next: Cache)
    requires r.packageId in run.crateConfigs
    requires CacheLeq(CacheWithSelf(run, r.packageId, CombinedFeatures(cache, r.packageId, r.features), cache), next)
    ensures Answered(next, r)
  {
    var combined := CombinedFeatures(cache, r.packageId, r.features);
    CombinedMeaning(cache, r.packageId, r.features);
    EnabledFeaturesCanonical(run.crateConfigs[r.packageId], combined);
    SelfIsEnabled(run, r.packageId, combined, cache);
  }

  lemma {:induction false} ResolveSettles(run: Run, universe: set<string>, requests: seq<Request>, cache: Cache)
    requires WellFormed(run) && Universe(run, universe) && Within(run, universe, cache)
    requires ValidRequests(run, universe, requests)
    ensures var r := ResolveRequests(run, universe, requests, cache);
            SettledOrKept(run, cache, r) && AllAnswered(r, requests)
    decreases MissingPackages(run, cache), MissingFeatures(run, universe, cache), 0, |requests|
  {
    if requests != [] {
      var Request(packageId, features) := requests[0];
      var combined := CombinedFeatures(cache, packageId, features);
      CombinedMeaning(cache, packageId, features);
      var next := cache;
      if !(packageId in cache && cache[packageId] == combined) {
        ReentryGrows(run, universe, packageId, features, cache);
        MergeSettles(run, universe, packageId, combined, cache);
        next := Merge(run, universe, packageId, combined, cache);
        SelfAnswers(run, requests[0], cache, next);
      }
      MissingShrinks(run, universe, cache, next);
      ResolveSettles(run, universe, requests[1..], next);
      SettlesStep(run, requests, cache, next, ResolveRequests(run, universe, requests[1..], next));
    }
  }

  lemma {:induction false} SettlesStep(run: Run, requests: seq<Request>, a: Cache, b: Cache, c: Cache)
    requires requests != [] && Answered(b, requests[0]) && AllAnswered(c, requests[1..])
    requires a.Keys <= b.Keys <= c.Keys <= run.crateConfigs.Keys
    requires CacheLeq(a, b) && CacheLeq(b, c)
    requires SettledOrKept(run, a, b) && SettledOrKept(run, b, c)
    ensures SettledOrKept(run, a, c) && AllAnswered(c, requests)
  {
    SettledOrKeptCompose(run, a, b, c);
    assert requests == [requests[0]] + requests[1..];
  }

  /** On every graph, cyclic or not: each dependency that a package's final features switch on is present,
      with all the features the final features ask of it. The root has the features it was given. */
  lemma {:induction false} EveryEdgeIsSatisfied(run: Run, features: seq<string>)
    requires WellFormed(run) && run.rootPackageId in run.crateConfigs
    ensures var final := MergePackageFeatures(run, features);
            && StartsAt(run, features, AssignmentOf(final))
            && forall p :: p in final ==>
                 p in run.crateConfigs && Ascending(final[p]) && Settled(run, final, p)
  {
    var universe, final := FeatureUniverse(run, features), MergePackageFeatures(run, features);
    UniverseExists(run, features);
    MergeSettles(run, universe, run.rootPackageId, features, map[]);
    EnabledFeaturesCanonical(run.crateConfigs[run.rootPackageId], features);
    SelfIsEnabled(run, run.rootPackageId, features, map[]);
  }

  /******* When the result is the least closed assignment *******/

  /** S is what some visit makes of a crate. */
  ghost predicate IsStepOutcome(crate: Crate, S: set<string>) {
    exists features :: S == Elems(EnabledFeatures(crate, features))
  }

  ghost predicate StepOutcomeAt(run: Run, cache: Cache, p: string) {
    p in cache ==> p in run.crateConfigs && IsStepOutcome(run.crateConfigs[p], Elems(cache[p]))
  }

  ghost predicate AllStepOutcomes(run: Run, cache: Cache) {
    forall p :: p in cache ==> StepOutcomeAt(run, cache, p)
  }

  lemma {:induction false} SelfKeepsStepOutcome(
      run: Run, packageId: string, features: seq<string>, cache: Cache, p: string)
    requires packageId in run.crateConfigs && StepOutcomeAt(run, cache, p)
    requires packageId in cache ==> Elems(cache[packageId]) <= Elems(features)
    ensures StepOutcomeAt(run, CacheWithSelf(run, packageId, features, cache), p)
  {
    SelfIsEnabled(run, packageId, features, cache);
  }

  /** Every visit leaves an entry for p, if there is one, that is the outcome of a step. */
  lemma {:induction false} MergeKeepsStepOutcome(
      run: Run, universe: set<string>, packageId: string, features: seq<string>, cache: Cache, p: string)
    requires WellFormed(run) && Universe(run, universe) && Within(run, universe, cache)
    requires packageId in run.crateConfigs && Elems(features) <= universe
    requires packageId in cache ==> Elems(cache[packageId]) <= Elems(features)
    requires StepOutcomeAt(run, cache, p)
    ensures StepOutcomeAt(run, Merge(run, universe, packageId, features, cache), p)
    decreases MissingPackages(run, CacheWithSelf(run, packageId, features, cache)),
              MissingFeatures(run, universe, CacheWithSelf(run, packageId, features, cache)), 1, 0
  {
    var crate := run.crateConfigs[packageId];
    var enabled := EnabledFeatures(crate, features);
    var self := CacheWithSelf(run, packageId, features, cache);
    SelfWithin(run, universe, packageId, features, cache);
    RequestsWithin(run, universe, packageId, features);
    SelfKeepsStepOutcome(run, packageId, features, cache, p);
    var direct := Requests(run, DependenciesOf(run, packageId), enabled);
    var build := Requests(run, crate.buildDependencies, enabled);
    ResolveKeepsStepOutcome(run, universe, direct, self, p);
    var next := ResolveRequests(run, universe, direct, self);
    MissingShrinks(run, universe, self, next);
    ResolveKeepsStepOutcome(run, universe, build, next, p);
  }

  lemma {:induction false} ResolveKeepsStepOutcome(
      run: Run, universe: set<string>, requests: seq<Request>, cache: Cache, p: string)
    requires WellFormed(run) && Universe(run, universe) && Within(run, universe, cache)
    requires ValidRequests(run, universe, requests)
    requires StepOutcomeAt(run, cache, p)
    ensures StepOutcomeAt(run, ResolveRequests(run, universe, requests, cache), p)
    decreases MissingPackages(run, cache), MissingFeatures(run, universe, cache), 0, |requests|
  {
    if requests != [] {
      var Request(packageId, features) := requests[0];
      var combined := CombinedFeatures(cache, packageId, features);
      CombinedMeaning(cache, packageId, features);
      var next := cache;
      if !(packageId in cache && cache[packageId] == combined) {
        ReentryGrows(run, universe, packageId, features, cache);
        MergeKeepsStepOutcome(run, universe, packageId, combined, cache, p);
        next := Merge(run, universe, packageId, combined, cache);
      }
      MissingShrinks(run, universe, cache, next);
      ResolveKeepsStepOutcome(run, universe, requests[1..], next, p);
    }
  }

  ghost predicate AllPlain(run: Run) {
    forall p :: p in run.crateConfigs ==> PlainNames(run.crateConfigs[p])
  }

  ghost predicate AllSelfContained(run: Run) {
    forall p :: p in run.crateConfigs ==> SelfContained(run.crateConfigs[p])
  }

  /** Every package of the result has plain dependency names, and its optional aliases imply nothing else. */
  ghost predicate SelfContainedResult(run: Run, cache: Cache) {
    forall p :: p in cache ==>
      p in run.crateConfigs && PlainNames(run.crateConfigs[p]) && SelfContained(run.crateConfigs[p])
  }

  lemma {:induction false} ResultIsOfSteps(run: Run, features: seq<string>)
    requires WellFormed(run) && run.rootPackageId in run.crateConfigs
    ensures AllStepOutcomes(run, MergePackageFeatures(run, features))
  {
    UniverseExists(run, features);
    forall p ensures StepOutcomeAt(run, MergePackageFeatures(run, features), p) {
      MergeKeepsStepOutcome(run, FeatureUniverse(run, features), run.rootPackageId, features, map[], p);
    }
  }

  /** A closed assignment above the result that adds only what is forced is the least closed one. */
  lemma {:induction false} LeastIfForced(run: Run, features: seq<string>, A: Assignment)
    requires WellFormed(run) && run.rootPackageId in run.crateConfigs
    requires ClosedAssignment(run, A) && Below(AssignmentOf(MergePackageFeatures(run, features)), A)
    requires forall B :: ClosedAssignment(run, B) && Below(AssignmentOf(MergePackageFeatures(run, features)), B) ==>
               Below(A, B)
    ensures IsLeastClosed(run, features, A)
  {
    var final := MergePackageFeatures(run, features);
    EveryEdgeIsSatisfied(run, features);
    assert run.rootPackageId in AssignmentOf(final);
    forall B | ClosedAssignment(run, B) && StartsAt(run, features, B) ensures Below(A, B) {
      ResolutionIsSound(run, features, B);
    }
  }

  /** A settled cache satisfies the edges of its assignment. */
  lemma {:induction false} SettledEdgesHold(run: Run, cache: Cache, A: Assignment)
    requires A == AssignmentOf(cache)
    requires forall p :: p in cache ==> p in run.crateConfigs && Settled(run, cache, p)
    ensures forall p, d :: p in A && IsEdge(run, p, d) ==> EdgeHolds(run, A, p, d)
  {
    forall p, d | p in A && IsEdge(run, p, d) ensures EdgeHolds(run, A, p, d) {
      assert Settled(run, cache, p);
      if Active(run, A[p], d) {
        assert Granted(cache, Elems(cache[p]), d);
      }
    }
  }

  lemma {:induction false} ExpandedStepIsClosed(run: Run, cache: Cache, p: string)
    requires p in cache && StepOutcomeAt(run, cache, p) && PlainNames(run.crateConfigs[p])
    requires ClosedUnder(run.crateConfigs[p].features, Elems(cache[p]))
    ensures LocallyClosed(run.crateConfigs[p], Elems(cache[p]))
  {
    var fs :| Elems(cache[p]) == Elems(EnabledFeatures(run.crateConfigs[p], fs));
    StepIsTriggerClosed(run.crateConfigs[p], fs);
  }

  ghost predicate PlainResult(run: Run, cache: Cache) {
    forall p :: p in cache ==> p in run.crateConfigs && PlainNames(run.crateConfigs[p])
  }

  ghost predicate AllExpanded(run: Run, cache: Cache) {
    forall p :: p in cache ==> p in run.crateConfigs && ClosedUnder(run.crateConfigs[p].features, Elems(cache[p]))
  }

  /** On any graph and for any aliases: the one thing that can keep the result from being the least closed assignment
      is a feature of a package that was left unexpanded. */
  lemma {:induction false} LeastExactlyWhenExpanded(run: Run, features: seq<string>)
    requires WellFormed(run) && run.rootPackageId in run.crateConfigs
    requires PlainResult(run, MergePackageFeatures(run, features))
    ensures var final := MergePackageFeatures(run, features);
            IsLeastClosed(run, features, AssignmentOf(final)) <==> AllExpanded(run, final)
  {
    var final := MergePackageFeatures(run, features);
    var A := AssignmentOf(final);
    EveryEdgeIsSatisfied(run, features);
    ResultIsOfSteps(run, features);
    if AllExpanded(run, final) {
      forall p | p in A ensures LocallyClosed(run.crateConfigs[p], A[p]) {
        ExpandedStepIsClosed(run, final, p);
      }
      SettledEdgesHold(run, final, A);
      LeastIfForced(run, features, A);
    } else {
      var p :| p in final && !ClosedUnder(run.crateConfigs[p].features, Elems(final[p]));
      assert p in A && !LocallyClosed(run.crateConfigs[p], A[p]);
    }
  }

  lemma {:induction false} SelfContainedIsExpanded(run: Run, cache: Cache)
    requires AllStepOutcomes(run, cache) && SelfContainedResult(run, cache)
    ensures AllExpanded(run, cache)
  {
    forall p | p in cache ensures ClosedUnder(run.crateConfigs[p].features, Elems(cache[p])) {
      assert StepOutcomeAt(run, cache, p);
      var fs :| Elems(cache[p]) == Elems(EnabledFeatures(run.crateConfigs[p], fs));
      StepIsLocallyClosed(run.crateConfigs[p], fs);
    }
  }

  /** If optional dependencies' names imply nothing else, the result is the least closed assignment. */
  lemma {:induction false} ResolutionIsLeast(run: Run, features: seq<string>)
    requires WellFormed(run) && run.rootPackageId in run.crateConfigs
    requires SelfContainedResult(run, MergePackageFeatures(run, features))
    ensures IsLeastClosed(run, features, AssignmentOf(MergePackageFeatures(run, features)))
  {
    ResultIsOfSteps(run, features);
    SelfContainedIsExpanded(run, MergePackageFeatures(run, features));
    LeastExactlyWhenExpanded(run, features);
  }

  /******* The result up to markers *******/

  /** The result with the markers `dep:alias` that its aliases imply. */
  ghost function MarkedAssignment(run: Run, cache: Cache): Assignment {
    map p | p in cache :: if p in run.crateConfigs then WithMarkers(run.crateConfigs[p], Elems(cache[p])) else {}
  }

  ghost predicate PlainEdges(run: Run, p: string)
    requires p in run.crateConfigs
  {
    forall d :: IsEdge(run, p, d) ==> IsPlain(d.Alias())
  }

  /** Generated crates: plain names, and an optional alias implies at most itself and its marker. */
  ghost predicate IsMarked(run: Run, p: string)
    requires p in run.crateConfigs
  {
    PlainEdges(run, p) && MarkersOnly(run.crateConfigs[p]) && MarkersImplyNothing(run.crateConfigs[p])
  }

  ghost predicate MarkedResult(run: Run, cache: Cache) {
    forall p :: p in cache ==> p in run.crateConfigs && IsMarked(run, p)
  }

  lemma {:induction false} MarkedEdgeHolds(run: Run, cache: Cache, p: string, d: Dependency)
    requires p in cache && p in run.crateConfigs && cache.Keys <= run.crateConfigs.Keys
    requires PlainEdges(run, p) && IsEdge(run, p, d) && Settled(run, cache, p)
    ensures EdgeHolds(run, MarkedAssignment(run, cache), p, d)
  {
    var crate, S, M := run.crateConfigs[p], Elems(cache[p]), MarkedAssignment(run, cache);
    assert forall e :: e in crate.dependencies ==> IsEdge(run, p, e);
    MarkersAreIdle(crate, S, d);
    if Active(run, M[p], d) {
      assert Active(run, S, d);
      assert Granted(cache, S, d);
      assert Elems(cache[d.packageId]) <= M[d.packageId];
    }
  }

  lemma {:induction false} MarkedIsClosed(run: Run, cache: Cache)
    requires MarkedResult(run, cache) && AllStepOutcomes(run, cache)
    requires forall p :: p in cache ==> p in run.crateConfigs && Settled(run, cache, p)
    ensures ClosedAssignment(run, MarkedAssignment(run, cache))
  {
    var M := MarkedAssignment(run, cache);
    forall p | p in M
      ensures p in run.crateConfigs && LocallyClosed(run.crateConfigs[p], M[p])
      ensures forall d :: IsEdge(run, p, d) ==> EdgeHolds(run, M, p, d)
    {
      var crate := run.crateConfigs[p];
      assert forall d :: d in crate.dependencies ==> IsEdge(run, p, d);
      assert IsStepOutcome(crate, Elems(cache[p]));
      var fs :| Elems(cache[p]) == Elems(EnabledFeatures(crate, fs));
      StepWithMarkersIsLocallyClosed(crate, fs);
      forall d | IsEdge(run, p, d) ensures EdgeHolds(run, M, p, d) {
        MarkedEdgeHolds(run, cache, p, d);
      }
    }
  }

  /** On any graph: if the aliases in the resulting crates imply nothing but their markers, the result with these
      markers is the least closed assignment. The markers themselves turn nothing on. */
  lemma {:induction false} MarkedResolutionIsLeast(run: Run, features: seq<string>)
    requires WellFormed(run) && run.rootPackageId in run.crateConfigs
    requires MarkedResult(run, MergePackageFeatures(run, features))
    ensures IsLeastClosed(run, features, MarkedAssignment(run, MergePackageFeatures(run, features)))
  {
    var final := MergePackageFeatures(run, features);
    var M := MarkedAssignment(run, final);
    EveryEdgeIsSatisfied(run, features);
    ResultIsOfSteps(run, features);
    MarkedIsClosed(run, final);
    forall B | ClosedAssignment(run, B) && Below(AssignmentOf(final), B) ensures Below(M, B) {
      forall p | p in M ensures p in B && M[p] <= B[p] {
        assert p in AssignmentOf(final);
        WithMarkersBelow(run.crateConfigs[p], Elems(final[p]), B[p]);
      }
    }
    LeastIfForced(run, features, M);
  }

  /** The same configuration up to the order and repetition of dependencies and of listed features. */
  ghost predicate SameUpToOrder(run: Run, run': Run) {
    && run.rootPackageId == run'.rootPackageId && run.target == run'.target && run.runTests == run'.runTests
    && run.crateConfigs.Keys == run'.crateConfigs.Keys
    && forall p :: p in run.crateConfigs ==> SameCrate(run.crateConfigs[p], run'.crateConfigs[p])
  }

  ghost predicate SameCrate(crate: Crate, crate': Crate) {
    && (forall f :: Elems(Implied(crate.features, f)) == Elems(Implied(crate'.features, f)))
    && (forall d :: d in crate.dependencies <==> d in crate'.dependencies)
    && (forall d :: d in crate.devDependencies <==> d in crate'.devDependencies)
    && (forall d :: d in crate.buildDependencies <==> d in crate'.buildDependencies)
  }

  lemma {:induction false} SameUpToOrderClosed(run: Run, run': Run, A: Assignment)
    requires SameUpToOrder(run, run') && ClosedAssignment(run, A)
    ensures ClosedAssignment(run', A)
  {
    forall p | p in A
      ensures p in run'.crateConfigs && LocallyClosed(run'.crateConfigs[p], A[p])
      ensures forall d :: IsEdge(run', p, d) ==> EdgeHolds(run', A, p, d)
    {
      var crate, crate' := run.crateConfigs[p], run'.crateConfigs[p];
      assert SameCrate(crate, crate');
      forall f, g | f in A[p] && g in Implied(crate'.features, f) ensures g in A[p] {
        assert g in Elems(Implied(crate'.features, f));
        assert g in Elems(Implied(crate.features, f));
      }
      forall d | IsEdge(run', p, d) ensures EdgeHolds(run', A, p, d) {
        assert IsEdge(run, p, d);
        assert EdgeHolds(run, A, p, d);
      }
    }
  }

  lemma {:induction false} LeastClosedUnique(run: Run, run': Run, features: seq<string>, A: Assignment, B: Assignment)
    requires SameUpToOrder(run, run')
    requires IsLeastClosed(run, features, A) && IsLeastClosed(run', features, B)
    ensures A == B
  {
    SameUpToOrderSymmetric(run, run');
    SameUpToOrderClosed(run, run', A);
    SameUpToOrderClosed(run', run, B);
    assert Below(A, B) && Below(B, A);
    forall p ensures p in A <==> p in B {
    }
    forall p | p in A ensures A[p] == B[p] {
      assert p in B && A[p] <= B[p] && B[p] <= A[p];
    }
  }

  lemma {:induction false} SameUpToOrderSymmetric(run: Run, run': Run)
    requires SameUpToOrder(run, run')
    ensures SameUpToOrder(run', run)
  {
    forall p | p in run'.crateConfigs ensures SameCrate(run'.crateConfigs[p], run.crateConfigs[p]) {
      assert SameCrate(run.crateConfigs[p], run'.crateConfigs[p]);
    }
  }

  /** The packages of the other listing's result are all in a closed assignment of this one. */
  lemma {:induction false} OtherResultWithin(run: Run, run': Run, features: seq<string>, A: Assignment)
    requires WellFormed(run') && run'.rootPackageId in run'.crateConfigs && SameUpToOrder(run, run')
    requires ClosedAssignment(run, A) && StartsAt(run, features, A)
    ensures forall p :: p in MergePackageFeatures(run', features) ==> p in A
  {
    SameUpToOrderClosed(run, run', A);
    ResolutionIsSound(run', features, A);
    var final' := MergePackageFeatures(run', features);
    forall p | p in final' ensures p in A {
      assert p in AssignmentOf(final');
    }
  }

  lemma {:induction false} SameCrateConditions(run: Run, run': Run, p: string)
    requires SameUpToOrder(run, run') && p in run.crateConfigs
    ensures PlainNames(run.crateConfigs[p]) && SelfContained(run.crateConfigs[p]) ==>
              PlainNames(run'.crateConfigs[p]) && SelfContained(run'.crateConfigs[p])
    ensures IsMarked(run, p) ==> IsMarked(run', p)
  {
    var crate, crate' := run.crateConfigs[p], run'.crateConfigs[p];
    assert SameCrate(crate, crate');
    forall f, g | g in Implied(crate'.features, f) ensures g in Implied(crate.features, f) {
      assert g in Elems(Implied(crate'.features, f)) && g in Elems(Implied(crate.features, f));
    }
    assert forall d :: IsEdge(run', p, d) ==> IsEdge(run, p, d);
    forall f | "dep:" <= f && Implied(crate.features, f) == [] ensures Implied(crate'.features, f) == [] {
      assert Elems(Implied(crate'.features, f)) == {};
      EmptyElems(Implied(crate'.features, f));
    }
  }

  lemma {:induction false} EmptyElems(s: seq<string>)
    ensures Elems(s) == {} <==> s == []
  {
    if s != [] {
      assert s[0] in Elems(s);
    }
  }

  lemma {:induction false} LeastResultsAgree(run: Run, run': Run, features: seq<string>)
    requires WellFormed(run) && WellFormed(run') && run.rootPackageId in run.crateConfigs
    requires SameUpToOrder(run, run')
    requires IsLeastClosed(run, features, AssignmentOf(MergePackageFeatures(run, features)))
    requires IsLeastClosed(run', features, AssignmentOf(MergePackageFeatures(run', features)))
    ensures MergePackageFeatures(run, features) == MergePackageFeatures(run', features)
  {
    var final, final' := MergePackageFeatures(run, features), MergePackageFeatures(run', features);
    LeastClosedUnique(run, run', features, AssignmentOf(final), AssignmentOf(final'));
    EveryEdgeIsSatisfied(run, features);
    EveryEdgeIsSatisfied(run', features);
    SameEntries(final, final');
  }

  /** The order in which dependencies and features are listed has no effect on the result. */
  lemma {:induction false} OrderDoesNotMatter(run: Run, run': Run, features: seq<string>)
    requires WellFormed(run) && WellFormed(run') && run.rootPackageId in run.crateConfigs
    requires SameUpToOrder(run, run')
    requires SelfContainedResult(run, MergePackageFeatures(run, features))
    ensures MergePackageFeatures(run, features) == MergePackageFeatures(run', features)
  {
    var final, final' := MergePackageFeatures(run, features), MergePackageFeatures(run', features);
    ResolutionIsLeast(run, features);
    OtherResultWithin(run, run', features, AssignmentOf(final));
    forall p | p in final'
      ensures p in run'.crateConfigs && PlainNames(run'.crateConfigs[p]) && SelfContained(run'.crateConfigs[p])
    {
      SameCrateConditions(run, run', p);
    }
    ResolutionIsLeast(run', features);
    LeastResultsAgree(run, run', features);
  }

  /** With aliases that imply their markers, the order can matter only for markers: the same packages, with the same
      features that are no markers. */
  lemma {:induction false} OrderMattersOnlyForMarkers(run: Run, run': Run, features: seq<string>)
    requires WellFormed(run) && WellFormed(run') && run.rootPackageId in run.crateConfigs
    requires SameUpToOrder(run, run')
    requires MarkedResult(run, MergePackageFeatures(run, features))
    ensures var final, final' := MergePackageFeatures(run, features), MergePackageFeatures(run', features);
            && MarkedAssignment(run, final) == MarkedAssignment(run', final')
            && (forall p :: p in final <==> p in final')
            && (forall p, f :: p in final && p in final' && !("dep:" <= f) ==>
                  (f in Elems(final[p]) <==> f in Elems(final'[p])))
  {
    var final, final' := MergePackageFeatures(run, features), MergePackageFeatures(run', features);
    var M, M' := MarkedAssignment(run, final), MarkedAssignment(run', final');
    MarkedResolutionIsLeast(run, features);
    OtherResultWithin(run, run', features, M);
    forall p | p in final' ensures p in run'.crateConfigs && IsMarked(run', p) {
      assert p in M;
      SameCrateConditions(run, run', p);
    }
    MarkedResolutionIsLeast(run', features);
    LeastClosedUnique(run, run', features, M, M');
    SameUpToMarkers(run, run', final, final');
  }

  lemma {:induction false} SameUpToMarkers(run: Run, run': Run, c: Cache, c': Cache)
    requires MarkedAssignment(run, c) == MarkedAssignment(run', c')
    requires c.Keys <= run.crateConfigs.Keys && c'.Keys <= run'.crateConfigs.Keys
    ensures forall p :: p in c <==> p in c'
    ensures forall p, f :: p in c && p in c' && !("dep:" <= f) ==> (f in Elems(c[p]) <==> f in Elems(c'[p]))
  {
    var M, M' := MarkedAssignment(run, c), MarkedAssignment(run', c');
    assert M.Keys == c.Keys && M'.Keys == c'.Keys;
    forall p, f | p in c && p in c' && !("dep:" <= f) ensures f in Elems(c[p]) <==> f in Elems(c'[p]) {
      assert M[p] == M'[p];
      assert f in M[p] <==> f in Elems(c[p]);
      assert f in M'[p] <==> f in Elems(c'[p]);
    }
  }

  lemma {:induction false} SameEntries(c: Cache, c': Cache)
    requires AssignmentOf(c) == AssignmentOf(c')
    requires (forall p :: p in c ==> Ascending(c[p])) && (forall p :: p in c' ==> Ascending(c'[p]))
    ensures c == c'
  {
    assert c.Keys == AssignmentOf(c).Keys && c'.Keys == AssignmentOf(c').Keys;
    forall p | p in c ensures c[p] == c'[p] {
      assert AssignmentOf(c)[p] == AssignmentOf(c')[p];
      AscendingUnique(c[p], c'[p]);
    }
  }

  /******* The condition is exact *******/

  /** A ranking that every edge descends: the graph has no cycle. */
  ghost predicate Ranked(run: Run, rank: map<string, nat>) {
    && run.crateConfigs.Keys <= rank.Keys
    && forall p, d :: p in run.crateConfigs && IsEdge(run, p, d) ==> d.packageId in rank && rank[d.packageId] < rank[p]
  }

  /** In an acyclic graph a visit changes no entry ranked above it, and its own only once. */
  lemma {:induction false} MergeLeavesHigher(
      run: Run, universe: set<string>, packageId: string, features: seq<string>, cache: Cache,
      rank: map<string, nat>, top: string)
    requires WellFormed(run) && Universe(run, universe) && Within(run, universe, cache)
    requires packageId in run.crateConfigs && Elems(features) <= universe
    requires Ranked(run, rank) && top in run.crateConfigs && rank[packageId] <= rank[top]
    requires top in CacheWithSelf(run, packageId, features, cache)
    ensures Merge(run, universe, packageId, features, cache)[top] == CacheWithSelf(run, packageId, features, cache)[top]
    decreases MissingPackages(run, CacheWithSelf(run, packageId, features, cache)),
              MissingFeatures(run, universe, CacheWithSelf(run, packageId, features, cache)), 1, 0
  {
    var crate := run.crateConfigs[packageId];
    var enabled := EnabledFeatures(crate, features);
    var self := CacheWithSelf(run, packageId, features, cache);
    SelfWithin(run, universe, packageId, features, cache);
    RequestsWithin(run, universe, packageId, features);
    var direct := Requests(run, DependenciesOf(run, packageId), enabled);
    var build := Requests(run, crate.buildDependencies, enabled);
    RequestsRankLower(run, packageId, enabled, DependenciesOf(run, packageId), rank);
    RequestsRankLower(run, packageId, enabled, crate.buildDependencies, rank);
    ResolveLeavesHigher(run, universe, direct, self, rank, top);
    var next := ResolveRequests(run, universe, direct, self);
    MissingShrinks(run, universe, self, next);
    ResolveLeavesHigher(run, universe, build, next, rank, top);
  }

  lemma {:induction false} RequestsRankLower(
      run: Run, packageId: string, enabled: seq<string>, dependencies: seq<Dependency>, rank: map<string, nat>)
    requires packageId in run.crateConfigs && Ranked(run, rank)
    requires forall d :: d in dependencies ==> IsEdge(run, packageId, d)
    ensures forall r :: r in Requests(run, dependencies, enabled) ==>
              r.packageId in rank && rank[r.packageId] < rank[packageId]
  {
    forall r | r in Requests(run, dependencies, enabled)
      ensures r.packageId in rank && rank[r.packageId] < rank[packageId]
    {
      RequestsMeaning(run, dependencies, enabled, r);
    }
  }

  lemma {:induction false} ResolveLeavesHigher(
      run: Run, universe: set<string>, requests: seq<Request>, cache: Cache, rank: map<string, nat>, top: string)
    requires WellFormed(run) && Universe(run, universe) && Within(run, universe, cache)
    requires ValidRequests(run, universe, requests)
    requires Ranked(run, rank) && top in cache
    requires forall r :: r in requests ==> rank[r.packageId] < rank[top]
    ensures ResolveRequests(run, universe, requests, cache)[top] == cache[top]
    decreases MissingPackages(run, cache), MissingFeatures(run, universe, cache), 0, |requests|
  {
    if requests != [] {
      var Request(packageId, features) := requests[0];
      var combined := CombinedFeatures(cache, packageId, features);
      var next := cache;
      assert requests[0] in requests;
      if !(packageId in cache && cache[packageId] == combined) {
        ReentryGrows(run, universe, packageId, features, cache);
        MergeLeavesHigher(run, universe, packageId, combined, cache, rank, top);
        next := Merge(run, universe, packageId, combined, cache);
      }
      MissingShrinks(run, universe, cache, next);
      ResolveLeavesHigher(run, universe, requests[1..], next, rank, top);
    }
  }

  function AtRoot(run: Run, packageId: string): Run {
    run.(rootPackageId := packageId)
  }

  /** On an acyclic graph the result is the least closed assignment for every root and every requested list of
      features exactly when each optional dependency's name implies no feature but itself. */
  lemma {:induction false} LeastExactlyWhenSelfContained(run: Run, rank: map<string, nat>)
    requires AllPlain(run)
    requires forall p :: p in run.crateConfigs ==> WellFormed(AtRoot(run, p)) && Ranked(AtRoot(run, p), rank)
    ensures AllSelfContained(run) <==>
            forall p, features :: p in run.crateConfigs ==>
              IsLeastClosed(AtRoot(run, p), features, AssignmentOf(MergePackageFeatures(AtRoot(run, p), features)))
  {
    if AllSelfContained(run) {
      forall p, features | p in run.crateConfigs
        ensures IsLeastClosed(AtRoot(run, p), features, AssignmentOf(MergePackageFeatures(AtRoot(run, p), features)))
      {
        EveryEdgeIsSatisfied(AtRoot(run, p), features);
        ResolutionIsLeast(AtRoot(run, p), features);
      }
    } else {
      var p :| p in run.crateConfigs && !SelfContained(run.crateConfigs[p]);
      var features := StepNotClosed(run.crateConfigs[p]);
      RootEntryOfAcyclicRun(AtRoot(run, p), features, rank);
      var A := AssignmentOf(MergePackageFeatures(AtRoot(run, p), features));
      assert !LocallyClosed(run.crateConfigs[p], A[p]);
      assert !IsLeastClosed(AtRoot(run, p), features, A);
    }
  }

  /** On an acyclic graph the result with its markers is the least closed assignment for every root and every
      requested list exactly when each optional dependency's name implies at most itself and its marker. */
  lemma {:induction false} MarkedLeastExactlyWhenMarkersOnly(run: Run, rank: map<string, nat>)
    requires forall p :: p in run.crateConfigs ==> WellFormed(AtRoot(run, p)) && Ranked(AtRoot(run, p), rank)
    requires forall p, q :: p in run.crateConfigs && q in run.crateConfigs ==> PlainEdges(AtRoot(run, p), q)
    requires forall p :: p in run.crateConfigs ==> MarkersImplyNothing(run.crateConfigs[p])
    ensures (forall p :: p in run.crateConfigs ==> MarkersOnly(run.crateConfigs[p])) <==>
            forall p, features :: p in run.crateConfigs ==>
              IsLeastClosed(AtRoot(run, p), features,
                            MarkedAssignment(run, MergePackageFeatures(AtRoot(run, p), features)))
  {
    if forall p :: p in run.crateConfigs ==> MarkersOnly(run.crateConfigs[p]) {
      forall p, features | p in run.crateConfigs
        ensures IsLeastClosed(AtRoot(run, p), features,
                              MarkedAssignment(run, MergePackageFeatures(AtRoot(run, p), features)))
      {
        MarkedLeastAtRoot(run, p, features);
      }
    } else {
      var p :| p in run.crateConfigs && !MarkersOnly(run.crateConfigs[p]);
      var features := MarkedNotLeast(run, p, rank);
      assert !IsLeastClosed(AtRoot(run, p), features,
                            MarkedAssignment(run, MergePackageFeatures(AtRoot(run, p), features)));
    }
  }

  lemma {:induction false} MarkedLeastAtRoot(run: Run, p: string, features: seq<string>)
    requires p in run.crateConfigs && WellFormed(AtRoot(run, p))
    requires forall q :: q in run.crateConfigs ==> IsMarked(AtRoot(run, p), q)
    ensures IsLeastClosed(AtRoot(run, p), features,
                          MarkedAssignment(run, MergePackageFeatures(AtRoot(run, p), features)))
  {
    var final := MergePackageFeatures(AtRoot(run, p), features);
    EveryEdgeIsSatisfied(AtRoot(run, p), features);
    MarkedResolutionIsLeast(AtRoot(run, p), features);
    MarkersIgnoreRoot(run, p, final);
  }

  lemma {:induction false} MarkersIgnoreRoot(run: Run, p: string, cache: Cache)
    ensures MarkedAssignment(AtRoot(run, p), cache) == MarkedAssignment(run, cache)
  {
  }

  lemma {:induction false} MarkedNotLeast(run: Run, p: string, rank: map<string, nat>) returns (features: seq<string>)
    requires p in run.crateConfigs && WellFormed(AtRoot(run, p)) && Ranked(AtRoot(run, p), rank)
    requires PlainEdges(AtRoot(run, p), p) && !MarkersOnly(run.crateConfigs[p])
    ensures !IsLeastClosed(AtRoot(run, p), features,
                           MarkedAssignment(run, MergePackageFeatures(AtRoot(run, p), features)))
  {
    EdgesArePlainNames(AtRoot(run, p), p);
    features := StepWithMarkersNotClosed(run.crateConfigs[p]);
    RootEntryOfAcyclicRun(AtRoot(run, p), features, rank);
    var M := MarkedAssignment(run, MergePackageFeatures(AtRoot(run, p), features));
    assert p in M && !LocallyClosed(run.crateConfigs[p], M[p]);
  }

  lemma {:induction false} EdgesArePlainNames(run: Run, p: string)
    requires p in run.crateConfigs && PlainEdges(run, p)
    ensures PlainNames(run.crateConfigs[p])
  {
    assert forall d :: d in run.crateConfigs[p].dependencies ==> IsEdge(run, p, d);
  }

  lemma {:induction false} RootEntryOfAcyclicRun(run: Run, features: seq<string>, rank: map<string, nat>)
    requires WellFormed(run) && run.rootPackageId in run.crateConfigs && Ranked(run, rank)
    ensures var final := MergePackageFeatures(run, features);
            run.rootPackageId in final
            && Elems(final[run.rootPackageId]) == Elems(EnabledFeatures(run.crateConfigs[run.rootPackageId], features))
  {
    var root := run.rootPackageId;
    UniverseExists(run, features);
    MergeLeavesHigher(run, FeatureUniverse(run, features), root, features, map[], rank, root);
    SelfIsEnabled(run, root, features, map[]);
  }

  /******* Cycles *******/

  /** A crate whose optional alias o implies g, and which depends on itself with feature g. */
  function CyclicCrate(id: string, o: string, g: string): Crate {
    Crate(map[o := [g]],
          [Dependency(o, None, id, true, false, [], None), Dependency(id, None, id, false, false, [g], None)], [], [])
  }

  /** On a cyclic graph the result can be least for every requested list although an alias implies another feature:
      the cycle enters the crate again and repairs the first visit. So acyclicity cannot be dropped from
      LeastExactlyWhenSelfContained. */
  lemma {:induction false} CyclesCanRepair(run: Run, id: string, o: string, g: string, features: seq<string>)
    requires run.crateConfigs == map[id := CyclicCrate(id, o, g)] && run.rootPackageId == id
    requires IsPlain(id) && IsPlain(o) && g != o
    ensures WellFormed(run) && AllPlain(run) && !SelfContained(run.crateConfigs[id])
    ensures IsLeastClosed(run, features, AssignmentOf(MergePackageFeatures(run, features)))
  {
    CyclicCrateFacts(run, id, o, g);
    var final := MergePackageFeatures(run, features);
    EveryEdgeIsSatisfied(run, features);
    AllExpandedAround(run, final, id, o, g);
    LeastExactlyWhenExpanded(run, features);
  }

  /** The crate among crates without a feature map. */
  lemma {:induction false} AllExpandedAround(run: Run, cache: Cache, id: string, o: string, g: string)
    requires id in run.crateConfigs && run.crateConfigs[id] == CyclicCrate(id, o, g)
    requires forall p :: p in run.crateConfigs && p != id ==> run.crateConfigs[p].features == map[]
    requires forall p :: p in cache ==> p in run.crateConfigs && Settled(run, cache, p)
    ensures AllExpanded(run, cache)
  {
    if id in cache {
      LoopExpands(run, cache, id, o, g);
    }
  }

  /** Wherever the crate is in a result, its dependency on itself makes it get g. */
  lemma {:induction false} LoopExpands(run: Run, cache: Cache, id: string, o: string, g: string)
    requires id in run.crateConfigs && run.crateConfigs[id] == CyclicCrate(id, o, g)
    requires id in cache && Settled(run, cache, id)
    ensures ClosedUnder(run.crateConfigs[id].features, Elems(cache[id]))
  {
    LoopGrantsFeature(run, cache, id, o, g);
    assert forall f, h :: h in Implied(map[o := [g]], f) ==> h == g;
  }

  lemma {:induction false} LoopGrantsFeature(run: Run, cache: Cache, id: string, o: string, g: string)
    requires id in run.crateConfigs && run.crateConfigs[id] == CyclicCrate(id, o, g)
    requires id in cache && Settled(run, cache, id)
    ensures g in Elems(cache[id])
  {
    var loop := CyclicCrate(id, o, g).dependencies[1];
    assert loop in DependenciesOf(run, id);
    assert IsEdge(run, id, loop) && Active(run, Elems(cache[id]), loop);
    assert Granted(cache, Elems(cache[id]), loop) && Asks(Elems(cache[id]), loop, g);
  }

  lemma {:induction false} CyclicCrateFacts(run: Run, id: string, o: string, g: string)
    requires run.crateConfigs == map[id := CyclicCrate(id, o, g)] && run.rootPackageId == id
    requires IsPlain(id) && IsPlain(o) && g != o
    ensures WellFormed(run) && AllPlain(run) && !SelfContained(run.crateConfigs[id])
  {
    var crate := CyclicCrate(id, o, g);
    assert crate.dependencies[0] in crate.dependencies && g in Implied(crate.features, o);
  }
}
