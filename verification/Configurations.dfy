/** Changes of a configuration that leave the resolver's result as it is. */
module Configurations {
  import opened Strings
  import opened Wrappers
  import opened FeatureRules
  import opened PackageFeatures
  import opened FeatureResolution

  /******* Dependencies replaced one by one *******/

  /** Replaces each dependency, or drops it. */
  function Replace(dependencies: seq<Dependency>, change: Dependency -> Option<Dependency>): seq<Dependency> {
    if dependencies == [] then []
    else
      (match change(dependencies[0]) case Some(d) => [d] case None => [])
      + Replace(dependencies[1..], change)
  }

  function ReplaceIn(crate: Crate, change: Dependency -> Option<Dependency>): Crate {
    Crate(crate.features, Replace(crate.dependencies, change),
          Replace(crate.devDependencies, change), Replace(crate.buildDependencies, change))
  }

  function ReplaceAll(run: Run, change: Dependency -> Option<Dependency>): Run {
    run.(crateConfigs := map p | p in run.crateConfigs :: ReplaceIn(run.crateConfigs[p], change))
  }

  /** A changed dependency acts as before on this target; a dropped one was not optional and not on the target. */
  ghost predicate ActsAlike(change: Dependency -> Option<Dependency>, target: Platform) {
    forall d ::
      match change(d)
      case Some(d') =>
        && d'.Alias() == d.Alias() && d'.packageId == d.packageId && d'.optional == d.optional
        && d'.usesDefaultFeatures == d.usesDefaultFeatures && d'.features == d.features
        && (OnTarget(d', target) <==> OnTarget(d, target))
      case None => !d.optional && !OnTarget(d, target)
  }

  lemma {:induction false} ReplaceMembers(
      dependencies: seq<Dependency>, change: Dependency -> Option<Dependency>, d': Dependency)
    ensures d' in Replace(dependencies, change) <==> exists d :: d in dependencies && change(d) == Some(d')
  {
    if dependencies != [] {
      ReplaceMembers(dependencies[1..], change, d');
      assert dependencies == [dependencies[0]] + dependencies[1..];
    }
  }

  lemma {:induction false} ReplaceConcat(
      s: seq<Dependency>, t: seq<Dependency>, change: Dependency -> Option<Dependency>)
    ensures Replace(s + t, change) == Replace(s, change) + Replace(t, change)
  {
    if s == [] {
      assert s + t == t;
    } else {
      assert (s + t)[1..] == s[1..] + t;
      ReplaceConcat(s[1..], t, change);
    }
  }

  /******* The steps of the walk are the same *******/

  lemma {:induction false} SameEnabling(d: Dependency, d': Dependency, features: seq<string>)
    requires d'.Alias() == d.Alias()
    ensures AnyEnables(d', features) <==> AnyEnables(d, features)
  {
    forall f ensures DoesFeatureEnableDependency(d', f) <==> DoesFeatureEnableDependency(d, f) {
    }
  }

  lemma {:induction false} SameAdditional(
      dependencies: seq<Dependency>, change: Dependency -> Option<Dependency>, target: Platform, features: seq<string>)
    requires ActsAlike(change, target)
    ensures AdditionalFeatures(Replace(dependencies, change), features) == AdditionalFeatures(dependencies, features)
  {
    if dependencies != [] {
      var d, rest := dependencies[0], Replace(dependencies[1..], change);
      SameAdditional(dependencies[1..], change, target, features);
      match change(d)
      case Some(d') =>
        SameEnabling(d, d', features);
        assert ([d'] + rest)[1..] == rest;
      case None =>
        assert [] + rest == rest;
    }
  }

  lemma {:induction false} SameEnabled(
      crate: Crate, change: Dependency -> Option<Dependency>, target: Platform, features: seq<string>)
    requires ActsAlike(change, target)
    ensures EnabledFeatures(ReplaceIn(crate, change), features) == EnabledFeatures(crate, features)
  {
    SameAdditional(crate.dependencies, change, target, ExpandFeatures(crate.features, features));
  }

  lemma {:induction false} RequestsOfHead(run: Run, dependencies: seq<Dependency>, enabled: seq<string>)
    requires dependencies != []
    ensures var d := dependencies[0];
            Requests(run, dependencies, enabled)
            == (if OnTarget(d, run.target) && (!d.optional || AnyEnables(d, enabled))
                then [Request(d.packageId, DependencyFeatures(enabled, d))] else [])
               + Requests(run, dependencies[1..], enabled)
  {
    var d := dependencies[0];
    var rest := FilterEnabledDependencies(dependencies[1..], enabled, run.target);
    assert ([d] + rest)[1..] == rest && [] + rest == rest;
  }

  lemma {:induction false} SameRequests(
      run: Run, dependencies: seq<Dependency>, change: Dependency -> Option<Dependency>, enabled: seq<string>)
    requires ActsAlike(change, run.target)
    ensures Requests(ReplaceAll(run, change), Replace(dependencies, change), enabled)
            == Requests(run, dependencies, enabled)
  {
    if dependencies != [] {
      var d, rest := dependencies[0], Replace(dependencies[1..], change);
      SameRequests(run, dependencies[1..], change, enabled);
      RequestsOfHead(run, dependencies, enabled);
      match change(d)
      case Some(d') =>
        SameEnabling(d, d', enabled);
        RequestsOfHead(ReplaceAll(run, change), [d'] + rest, enabled);
        assert ([d'] + rest)[1..] == rest;
      case None =>
        assert [] + rest == rest;
    }
  }

  lemma {:induction false} SameDependencies(run: Run, change: Dependency -> Option<Dependency>, p: string)
    requires p in run.crateConfigs
    ensures DependenciesOf(ReplaceAll(run, change), p) == Replace(DependenciesOf(run, p), change)
  {
    var crate := run.crateConfigs[p];
    ReplaceConcat(crate.dependencies, crate.devDependencies, change);
    assert crate.dependencies + [] == crate.dependencies;
    assert Replace(crate.dependencies, change) + [] == Replace(crate.dependencies, change);
  }

  /** Visiting p with these features computes and requests the same in both configurations. */
  ghost predicate SameStep(run: Run, run': Run, p: string, features: seq<string>)
    requires p in run.crateConfigs && p in run'.crateConfigs
  {
    var enabled := EnabledFeatures(run.crateConfigs[p], features);
    && EnabledFeatures(run'.crateConfigs[p], features) == enabled
    && Requests(run', DependenciesOf(run', p), enabled) == Requests(run, DependenciesOf(run, p), enabled)
    && Requests(run', run'.crateConfigs[p].buildDependencies, enabled)
       == Requests(run, run.crateConfigs[p].buildDependencies, enabled)
  }

  ghost predicate SameSteps(run: Run, run': Run) {
    && run.crateConfigs.Keys == run'.crateConfigs.Keys
    && forall p, features :: p in run.crateConfigs && p in run'.crateConfigs ==> SameStep(run, run', p, features)
  }

  lemma {:induction false} ReplacedSteps(run: Run, change: Dependency -> Option<Dependency>)
    requires ActsAlike(change, run.target)
    ensures SameSteps(run, ReplaceAll(run, change))
  {
    var run' := ReplaceAll(run, change);
    forall p, features | p in run.crateConfigs && p in run'.crateConfigs ensures SameStep(run, run', p, features) {
      var crate := run.crateConfigs[p];
      SameEnabled(crate, change, run.target, features);
      SameDependencies(run, change, p);
      SameRequests(run, DependenciesOf(run, p), change, EnabledFeatures(crate, features));
      SameRequests(run, crate.buildDependencies, change, EnabledFeatures(crate, features));
    }
  }

  /******* So the walk is the same *******/

  lemma {:induction false} SameMerge(
      run: Run, run': Run, universe: set<string>, universe': set<string>,
      packageId: string, features: seq<string>, cache: Cache)
    requires SameSteps(run, run') && WellFormed(run) && WellFormed(run')
    requires Universe(run, universe) && Within(run, universe, cache)
    requires Universe(run', universe') && Within(run', universe', cache)
    requires packageId in run.crateConfigs && Elems(features) <= universe && Elems(features) <= universe'
    ensures Merge(run', universe', packageId, features, cache) == Merge(run, universe, packageId, features, cache)
    decreases MissingPackages(run, CacheWithSelf(run, packageId, features, cache)),
              MissingFeatures(run, universe, CacheWithSelf(run, packageId, features, cache)), 1, 0
  {
    assert SameStep(run, run', packageId, features);
    var crate := run.crateConfigs[packageId];
    var enabled := EnabledFeatures(crate, features);
    var self := CacheWithSelf(run, packageId, features, cache);
    SelfWithin(run, universe, packageId, features, cache);
    SelfWithin(run', universe', packageId, features, cache);
    RequestsWithin(run, universe, packageId, features);
    RequestsWithin(run', universe', packageId, features);
    var direct := Requests(run, DependenciesOf(run, packageId), enabled);
    var build := Requests(run, crate.buildDependencies, enabled);
    SameResolve(run, run', universe, universe', direct, self);
    var next := ResolveRequests(run, universe, direct, self);
    MissingShrinks(run, universe, self, next);
    SameResolve(run, run', universe, universe', build, next);
  }

  /** The cache after the first of some requests. */
  ghost function AfterFirst(run: Run, universe: set<string>, r: Request, cache: Cache): Cache
    requires WellFormed(run) && Universe(run, universe) && Within(run, universe, cache)
    requires ValidRequests(run, universe, [r])
  {
    assert r in [r];
    var combined := CombinedFeatures(cache, r.packageId, r.features);
    if r.packageId in cache && cache[r.packageId] == combined then cache
    else
      ReentryGrows(run, universe, r.packageId, r.features, cache);
      Merge(run, universe, r.packageId, combined, cache)
  }

  lemma {:induction false} ResolveFirst(run: Run, universe: set<string>, requests: seq<Request>, cache: Cache)
    requires WellFormed(run) && Universe(run, universe) && Within(run, universe, cache)
    requires ValidRequests(run, universe, requests) && requests != []
    ensures ValidRequests(run, universe, [requests[0]]) && ValidRequests(run, universe, requests[1..])
    ensures var next := AfterFirst(run, universe, requests[0], cache);
            && Within(run, universe, next)
            && MissingPackages(run, next) <= MissingPackages(run, cache)
            && MissingFeatures(run, universe, next) <= MissingFeatures(run, universe, cache)
            && ResolveRequests(run, universe, requests, cache) == ResolveRequests(run, universe, requests[1..], next)
  {
    var Request(packageId, features) := requests[0];
    assert requests[0] in requests;
    if !(packageId in cache && cache[packageId] == CombinedFeatures(cache, packageId, features)) {
      ReentryGrows(run, universe, packageId, features, cache);
    }
    MissingShrinks(run, universe, cache, AfterFirst(run, universe, requests[0], cache));
  }

  lemma {:induction false} SameFirst(
      run: Run, run': Run, universe: set<string>, universe': set<string>, r: Request, cache: Cache)
    requires SameSteps(run, run') && WellFormed(run) && WellFormed(run')
    requires Universe(run, universe) && Within(run, universe, cache) && ValidRequests(run, universe, [r])
    requires Universe(run', universe') && Within(run', universe', cache) && ValidRequests(run', universe', [r])
    ensures AfterFirst(run', universe', r, cache) == AfterFirst(run, universe, r, cache)
    decreases MissingPackages(run, cache), MissingFeatures(run, universe, cache), 0, 0
  {
    assert r in [r];
    var combined := CombinedFeatures(cache, r.packageId, r.features);
    if !(r.packageId in cache && cache[r.packageId] == combined) {
      ReentryGrows(run, universe, r.packageId, r.features, cache);
      ReentryGrows(run', universe', r.packageId, r.features, cache);
      SameMerge(run, run', universe, universe', r.packageId, combined, cache);
    }
  }

  lemma {:induction false} SameResolve(
      run: Run, run': Run, universe: set<string>, universe': set<string>, requests: seq<Request>, cache: Cache)
    requires SameSteps(run, run') && WellFormed(run) && WellFormed(run')
    requires Universe(run, universe) && Within(run, universe, cache) && ValidRequests(run, universe, requests)
    requires Universe(run', universe') && Within(run', universe', cache) && ValidRequests(run', universe', requests)
    ensures ResolveRequests(run', universe', requests, cache) == ResolveRequests(run, universe, requests, cache)
    decreases MissingPackages(run, cache), MissingFeatures(run, universe, cache), 0, |requests|
  {
    if requests != [] {
      ResolveFirst(run, universe, requests, cache);
      ResolveFirst(run', universe', requests, cache);
      SameFirst(run, run', universe, universe', requests[0], cache);
      SameResolve(run, run', universe, universe', requests[1..], AfterFirst(run, universe, requests[0], cache));
    }
  }

  lemma {:induction false} SameStepsSameResult(run: Run, run': Run, features: seq<string>)
    requires SameSteps(run, run') && WellFormed(run) && WellFormed(run')
    requires run.rootPackageId == run'.rootPackageId && run.rootPackageId in run.crateConfigs
    ensures MergePackageFeatures(run', features) == MergePackageFeatures(run, features)
  {
    UniverseExists(run, features);
    UniverseExists(run', features);
    SameMerge(run, run', FeatureUniverse(run, features), FeatureUniverse(run', features), run.rootPackageId, features,
              map[]);
  }

  lemma {:induction false} ReplacedWellFormed(run: Run, change: Dependency -> Option<Dependency>)
    requires WellFormed(run) && ActsAlike(change, run.target)
    ensures WellFormed(ReplaceAll(run, change))
  {
    var run' := ReplaceAll(run, change);
    forall p, d' | p in run'.crateConfigs && IsEdge(run', p, d') ensures d'.packageId in run'.crateConfigs {
      var crate := run.crateConfigs[p];
      ReplaceMembers(crate.dependencies, change, d');
      ReplaceMembers(crate.devDependencies, change, d');
      ReplaceMembers(crate.buildDependencies, change, d');
      var d :| IsEdge(run, p, d) && change(d) == Some(d');
    }
  }

  lemma {:induction false} ReplacedResult(run: Run, change: Dependency -> Option<Dependency>, features: seq<string>)
    requires WellFormed(run) && run.rootPackageId in run.crateConfigs && ActsAlike(change, run.target)
    ensures WellFormed(ReplaceAll(run, change))
    ensures MergePackageFeatures(ReplaceAll(run, change), features) == MergePackageFeatures(run, features)
  {
    ReplacedWellFormed(run, change);
    ReplacedSteps(run, change);
    SameStepsSameResult(run, ReplaceAll(run, change), features);
  }

  /******* Renaming, and conditions on the target *******/

  /** The dependency under its new name, if it has one. */
  function UnderNewName(d: Dependency): Option<Dependency> {
    match d.rename
    case Some(renamed) => Some(d.(name := renamed, rename := None))
    case None => Some(d)
  }

  /** A renamed dependency acts in every way as one that has the new name from the start. */
  lemma {:induction false} RenamingIsNaming(run: Run, features: seq<string>)
    requires WellFormed(run) && run.rootPackageId in run.crateConfigs
    ensures WellFormed(ReplaceAll(run, UnderNewName))
    ensures MergePackageFeatures(ReplaceAll(run, UnderNewName), features) == MergePackageFeatures(run, features)
  {
    ReplacedResult(run, UnderNewName, features);
  }

  /** Conditions that hold are left out; where one does not hold, the dependency is, unless it is optional. */
  function ForTarget(target: Platform): Dependency -> Option<Dependency> {
    (d: Dependency) =>
      match d.target
      case None => Some(d)
      case Some(condition) =>
        if condition(target) then Some(d.(target := None)) else if d.optional then Some(d) else None
  }

  /** The result is that of the configuration with the target's conditions evaluated beforehand. */
  lemma {:induction false} ConditionsCanBeEvaluated(run: Run, features: seq<string>)
    requires WellFormed(run) && run.rootPackageId in run.crateConfigs
    ensures WellFormed(ReplaceAll(run, ForTarget(run.target)))
    ensures MergePackageFeatures(ReplaceAll(run, ForTarget(run.target)), features)
            == MergePackageFeatures(run, features)
  {
    ReplacedResult(run, ForTarget(run.target), features);
  }

  /** All dependencies off the target are left out, optional ones too. */
  function OnlyOnTarget(target: Platform): Dependency -> Option<Dependency> {
    (d: Dependency) => if OnTarget(d, target) then Some(d) else None
  }

  /** An optional dependency on the target has this name. */
  ghost predicate IsNamedOnTarget(crate: Crate, target: Platform, n: string) {
    exists e :: e in crate.dependencies && e.optional && OnTarget(e, target) && e.Alias() == n
  }

  lemma {:induction false} LeftOnTarget(crate: Crate, target: Platform, features: seq<string>, g: string)
    ensures g in Elems(EnabledFeatures(ReplaceIn(crate, OnlyOnTarget(target)), features)) <==>
            || g in Elems(ExpandFeatures(crate.features, features))
            || exists d :: d in crate.dependencies && d.optional && OnTarget(d, target) && d.Alias() == g
                           && Triggered(Elems(ExpandFeatures(crate.features, features)), d)
  {
    EnabledFeaturesMeaning(ReplaceIn(crate, OnlyOnTarget(target)), features, g);
    forall d { ReplaceMembers(crate.dependencies, OnlyOnTarget(target), d); }
  }

  lemma {:induction false} SameTriggers(S: set<string>, d: Dependency, e: Dependency)
    requires d.Alias() == e.Alias()
    ensures Triggered(S, d) <==> Triggered(S, e)
  {
    assert forall f :: DoesFeatureEnableDependency(d, f) <==> DoesFeatureEnableDependency(e, f);
  }

  lemma {:induction false} NamedOnTargetAgrees(crate: Crate, target: Platform, features: seq<string>, g: string)
    requires forall d :: d in crate.dependencies && d.optional && !OnTarget(d, target) ==>
               IsNamedOnTarget(crate, target, d.Alias())
    ensures g in Elems(EnabledFeatures(ReplaceIn(crate, OnlyOnTarget(target)), features)) <==>
            g in Elems(EnabledFeatures(crate, features))
  {
    var X := Elems(ExpandFeatures(crate.features, features));
    LeftOnTarget(crate, target, features, g);
    EnabledFeaturesMeaning(crate, features, g);
    if d :| d in crate.dependencies && d.optional && d.Alias() == g && Triggered(X, d) && !OnTarget(d, target) {
      assert IsNamedOnTarget(crate, target, d.Alias());
      var e :| e in crate.dependencies && e.optional && OnTarget(e, target) && e.Alias() == d.Alias();
      SameTriggers(X, d, e);
    }
  }

  /** The name of an optional dependency off the target still becomes a feature when something turns it on. So leaving
      these dependencies out changes no visit of a crate if and only if each shares its name with one on the target. */
  lemma {:induction false} OffTargetNamesCount(crate: Crate, target: Platform)
    requires PlainNames(crate)
    ensures (forall d :: d in crate.dependencies && d.optional && !OnTarget(d, target) ==>
               IsNamedOnTarget(crate, target, d.Alias())) <==>
            forall features ::
              Elems(EnabledFeatures(ReplaceIn(crate, OnlyOnTarget(target)), features))
              == Elems(EnabledFeatures(crate, features))
  {
    if forall d :: d in crate.dependencies && d.optional && !OnTarget(d, target) ==>
         IsNamedOnTarget(crate, target, d.Alias()) {
      forall features
        ensures Elems(EnabledFeatures(ReplaceIn(crate, OnlyOnTarget(target)), features))
                == Elems(EnabledFeatures(crate, features))
      {
        forall g { NamedOnTargetAgrees(crate, target, features, g); }
      }
    } else {
      var d :| d in crate.dependencies && d.optional && !IsNamedOnTarget(crate, target, d.Alias());
      var features := OffTargetNameCounts(crate, target, d);
    }
  }

  lemma {:induction false} OffTargetNameCounts(crate: Crate, target: Platform, d: Dependency)
    returns (features: seq<string>)
    requires PlainNames(crate) && d in crate.dependencies && d.optional && !IsNamedOnTarget(crate, target, d.Alias())
    ensures d.Alias() in Elems(EnabledFeatures(crate, features))
    ensures d.Alias() !in Elems(EnabledFeatures(ReplaceIn(crate, OnlyOnTarget(target)), features))
  {
    var x := LongerThanAll(crate.features.Keys);
    var f := d.Alias() + "/" + x;
    LongerThanBoth(d.Alias(), x);
    features := [f];
    StepOnSlashFeature(crate, d, x);
    LeftOnTarget(crate, target, features, d.Alias());
    UnknownExpandsToItself(crate.features, f);
  }

  lemma {:induction false} LongerThanBoth(n: string, x: string)
    ensures |n + "/" + x| > |x| && |n + "/" + x| > |n|
  {
  }

  lemma {:induction false} UnknownExpandsToItself(featureMap: map<string, seq<string>>, f: string)
    requires f !in featureMap
    ensures Elems(ExpandFeatures(featureMap, [f])) == {f}
  {
    ExpandFeaturesLeast(featureMap, [f]);
    assert Elems([f]) == {f} && ClosedUnder(featureMap, {f});
  }
}
