/** The recursive walk that decides, for every package of a dependency graph, the features it is built with. */
module PackageFeatures {
  import opened Strings
  import opened Wrappers
  import opened FeatureRules

  datatype Run = Run(crateConfigs: map<string, Crate>, rootPackageId: string, target: Platform, runTests: bool)

  /** Package id to enabled features. */
  type Cache = map<string, seq<string>>

  /** A package to visit and the features asked of it. */
  datatype Request = Request(packageId: string, features: seq<string>)

  /** Normal dependencies, plus development dependencies for the root of a test run. */
  function DependenciesOf(run: Run, packageId: string): seq<Dependency>
    requires packageId in run.crateConfigs
  {
    var crate := run.crateConfigs[packageId];
    crate.dependencies + if run.runTests && packageId == run.rootPackageId then crate.devDependencies else []
  }

  /** The edges of the graph: normal and build dependencies, and the root's development dependencies in a test run. */
  ghost predicate IsEdge(run: Run, packageId: string, d: Dependency)
    requires packageId in run.crateConfigs
  {
    var crate := run.crateConfigs[packageId];
    || d in crate.dependencies
    || d in crate.buildDependencies
    || (run.runTests && packageId == run.rootPackageId && d in crate.devDependencies)
  }

  /** Every dependency's package has a configuration. */
  ghost predicate WellFormed(run: Run) {
    forall p, d :: p in run.crateConfigs && IsEdge(run, p, d) ==> d.packageId in run.crateConfigs
  }

  /******* The walk *******/

  predicate OnTarget(dependency: Dependency, target: Platform) {
    dependency.target.None? || dependency.target.value(target)
  }

  function FilterEnabledDependencies(dependencies: seq<Dependency>, features: seq<string>, target: Platform)
    : seq<Dependency>
  {
    if dependencies == [] then []
    else
      var d := dependencies[0];
      (if OnTarget(d, target) && (!d.optional || AnyEnables(d, features)) then [d] else [])
      + FilterEnabledDependencies(dependencies[1..], features, target)
  }

  function DirectDependencies(dependencies: seq<Dependency>, enabledFeatures: seq<string>): seq<Request> {
    if dependencies == [] then []
    else
      [Request(dependencies[0].packageId, DependencyFeatures(enabledFeatures, dependencies[0]))]
      + DirectDependencies(dependencies[1..], enabledFeatures)
  }

  function Requests(run: Run, dependencies: seq<Dependency>, enabledFeatures: seq<string>): seq<Request> {
    DirectDependencies(FilterEnabledDependencies(dependencies, enabledFeatures, run.target), enabledFeatures)
  }

  function CombinedFeatures(cache: Cache, packageId: string, features: seq<string>): seq<string> {
    SortedUnique((if packageId in cache then cache[packageId] else []) + features)
  }

  function CacheWithSelf(run: Run, packageId: string, features: seq<string>, cache: Cache): Cache
    requires packageId in run.crateConfigs
  {
    cache[packageId := CombinedFeatures(cache, packageId, EnabledFeatures(run.crateConfigs[packageId], features))]
  }

  /** Visits a package: records its features, then its normal and development, then its build dependencies.
      `enabledFeatures` is computed once, even when a dependency cycle enlarges the package's entry meanwhile. */
  function Merge(run: Run, ghost universe: set<string>, packageId: string, features: seq<string>, cache: Cache)
    : (r: Cache)
    requires WellFormed(run) && Universe(run, universe) && Within(run, universe, cache)
    requires packageId in run.crateConfigs && Elems(features) <= universe
    ensures Within(run, universe, r) && CacheLeq(CacheWithSelf(run, packageId, features, cache), r)
    decreases MissingPackages(run, CacheWithSelf(run, packageId, features, cache)),
              MissingFeatures(run, universe, CacheWithSelf(run, packageId, features, cache)), 1, 0
  {
    var crate := run.crateConfigs[packageId];
    var enabledFeatures := EnabledFeatures(crate, features);
    var cacheWithSelf := CacheWithSelf(run, packageId, features, cache);
    SelfWithin(run, universe, packageId, features, cache);
    var direct := Requests(run, DependenciesOf(run, packageId), enabledFeatures);
    var build := Requests(run, crate.buildDependencies, enabledFeatures);
    RequestsWithin(run, universe, packageId, features);
    var cacheWithDependencies := ResolveRequests(run, universe, direct, cacheWithSelf);
    MissingShrinks(run, universe, cacheWithSelf, cacheWithDependencies);
    ResolveRequests(run, universe, build, cacheWithDependencies)
  }

  /** Folds the requests into the cache; a package is entered only when that changes its feature list. */
  function ResolveRequests(run: Run, ghost universe: set<string>, requests: seq<Request>, cache: Cache): (r: Cache)
    requires WellFormed(run) && Universe(run, universe) && Within(run, universe, cache)
    requires ValidRequests(run, universe, requests)
    ensures Within(run, universe, r) && CacheLeq(cache, r)
    decreases MissingPackages(run, cache), MissingFeatures(run, universe, cache), 0, |requests|
  {
    if requests == [] then cache
    else
      var Request(packageId, features) := requests[0];
      var combinedFeatures := CombinedFeatures(cache, packageId, features);
      var cache' :=
        (if packageId in cache && cache[packageId] == combinedFeatures then cache
         else
           (ReentryGrows(run, universe, packageId, features, cache);
            Merge(run, universe, packageId, combinedFeatures, cache)));
      MissingShrinks(run, universe, cache, cache');
      ResolveRequests(run, universe, requests[1..], cache')
  }

  /** The features of every package, for a root package and the features it is built with. */
  function MergePackageFeatures(run: Run, features: seq<string>): Cache
    requires WellFormed(run) && run.rootPackageId in run.crateConfigs
  {
    UniverseExists(run, features);
    Merge(run, FeatureUniverse(run, features), run.rootPackageId, features, map[])
  }

  /******* The finite lattice the walk moves in *******/

  /** A set of features that no step can leave. */
  ghost predicate Universe(run: Run, universe: set<string>) {
    && "default" in universe
    && (forall p, f, g :: p in run.crateConfigs && g in Implied(run.crateConfigs[p].features, f) ==> g in universe)
    && (forall p, d :: p in run.crateConfigs && d in run.crateConfigs[p].dependencies ==> d.Alias() in universe)
    && (forall p, d, g :: p in run.crateConfigs && IsEdge(run, p, d) && g in d.features ==> g in universe)
    && (forall f, i :: f in universe && 0 <= i <= |f| ==> f[i..] in universe)
  }

  ghost function BaseFeatures(run: Run, features: seq<string>): set<string> {
    {"default"} + Elems(features)
    + (set p, f, g | p in run.crateConfigs && f in run.crateConfigs[p].features
                     && g in run.crateConfigs[p].features[f] :: g)
    + (set p, d | p in run.crateConfigs && d in run.crateConfigs[p].dependencies :: d.Alias())
    + (set p, d, g | p in run.crateConfigs
                     && d in DependenciesOf(run, p) + run.crateConfigs[p].buildDependencies && g in d.features :: g)
  }

  /** All suffixes of all features that the configuration mentions. */
  ghost function FeatureUniverse(run: Run, features: seq<string>): set<string> {
    set f, i | f in BaseFeatures(run, features) && 0 <= i <= |f| :: f[i..]
  }

  lemma {:induction false} UniverseExists(run: Run, features: seq<string>)
    ensures Universe(run, FeatureUniverse(run, features)) && Elems(features) <= FeatureUniverse(run, features)
  {
    var base, universe := BaseFeatures(run, features), FeatureUniverse(run, features);
    BaseInUniverse(run, features);
    ImpliedInBase(run, features);
    SuffixesInUniverse(run, features);
    assert "default" in base;
    assert forall p, d :: p in run.crateConfigs && d in run.crateConfigs[p].dependencies ==> d.Alias() in base;
    forall p, d, g | p in run.crateConfigs && IsEdge(run, p, d) && g in d.features ensures g in base {
      assert d in DependenciesOf(run, p) + run.crateConfigs[p].buildDependencies;
    }
  }

  lemma {:induction false} BaseInUniverse(run: Run, features: seq<string>)
    ensures BaseFeatures(run, features) <= FeatureUniverse(run, features)
  {
    forall f | f in BaseFeatures(run, features) ensures f in FeatureUniverse(run, features) {
      assert f == f[0..];
    }
  }

  lemma {:induction false} ImpliedInBase(run: Run, features: seq<string>)
    ensures forall p, f, g :: p in run.crateConfigs && g in Implied(run.crateConfigs[p].features, f) ==>
              g in BaseFeatures(run, features)
  {
    forall p, f, g | p in run.crateConfigs && g in Implied(run.crateConfigs[p].features, f)
      ensures g in BaseFeatures(run, features)
    {
      assert f in run.crateConfigs[p].features;
    }
  }

  lemma {:induction false} SuffixesInUniverse(run: Run, features: seq<string>)
    ensures forall f, i :: f in FeatureUniverse(run, features) && 0 <= i <= |f| ==>
              f[i..] in FeatureUniverse(run, features)
  {
    var base, universe := BaseFeatures(run, features), FeatureUniverse(run, features);
    forall f, i | f in universe && 0 <= i <= |f| ensures f[i..] in universe {
      var g, j :| g in base && 0 <= j <= |g| && f == g[j..];
      assert f[i..] == g[i + j..];
    }
  }

  ghost predicate CacheLeq(c: Cache, c': Cache) {
    forall p :: p in c ==> p in c' && Elems(c[p]) <= Elems(c'[p])
  }

  /** Known packages only, each with a canonical list of features from the universe. */
  ghost predicate Within(run: Run, universe: set<string>, cache: Cache) {
    forall p :: p in cache ==> p in run.crateConfigs && Ascending(cache[p]) && Elems(cache[p]) <= universe
  }

  ghost predicate ValidRequests(run: Run, universe: set<string>, requests: seq<Request>) {
    forall r :: r in requests ==> r.packageId in run.crateConfigs && Elems(r.features) <= universe
  }

  ghost function MissingPackages(run: Run, cache: Cache): set<string> {
    run.crateConfigs.Keys - cache.Keys
  }

  ghost function MissingFeatures(run: Run, universe: set<string>, cache: Cache): set<(string, string)> {
    set p, f | p in run.crateConfigs && f in universe && !(p in cache && f in Elems(cache[p])) :: (p, f)
  }

  lemma {:induction false} MissingShrinks(run: Run, universe: set<string>, c: Cache, c': Cache)
    requires CacheLeq(c, c')
    ensures MissingPackages(run, c') <= MissingPackages(run, c)
    ensures MissingFeatures(run, universe, c') <= MissingFeatures(run, universe, c)
  {
  }

  lemma {:induction false} CombinedMeaning(cache: Cache, packageId: string, features: seq<string>)
    ensures Ascending(CombinedFeatures(cache, packageId, features))
    ensures Elems(CombinedFeatures(cache, packageId, features))
            == (if packageId in cache then Elems(cache[packageId]) else {}) + Elems(features)
  {
    var cached := if packageId in cache then cache[packageId] else [];
    SortedUniqueCanonical(cached + features);
    ElemsConcat(cached, features);
  }

  lemma {:induction false} SelfWithin(
      run: Run, universe: set<string>, packageId: string, features: seq<string>, cache: Cache)
    requires Universe(run, universe) && Within(run, universe, cache)
    requires packageId in run.crateConfigs && Elems(features) <= universe
    ensures Within(run, universe, CacheWithSelf(run, packageId, features, cache))
    ensures CacheLeq(cache, CacheWithSelf(run, packageId, features, cache))
    ensures Elems(EnabledFeatures(run.crateConfigs[packageId], features)) <= universe
  {
    var crate := run.crateConfigs[packageId];
    CombinedMeaning(cache, packageId, EnabledFeatures(crate, features));
    assert LocallyClosed(crate, universe);
    EnabledFeaturesBelow(crate, features, universe);
  }

  /** Entering a package whose list would change makes the cache strictly larger. */
  lemma {:induction false} ReentryGrows(
      run: Run, universe: set<string>, packageId: string, features: seq<string>, cache: Cache)
    requires Universe(run, universe) && Within(run, universe, cache)
    requires packageId in run.crateConfigs && Elems(features) <= universe
    requires !(packageId in cache && cache[packageId] == CombinedFeatures(cache, packageId, features))
    ensures var combined := CombinedFeatures(cache, packageId, features);
            var grown := CacheWithSelf(run, packageId, combined, cache);
            && Elems(combined) <= universe
            && CacheLeq(cache, grown)
            && (MissingPackages(run, grown) < MissingPackages(run, cache)
                || (MissingPackages(run, grown) == MissingPackages(run, cache)
                    && MissingFeatures(run, universe, grown) < MissingFeatures(run, universe, cache)))
  {
    var combined := CombinedFeatures(cache, packageId, features);
    var crate := run.crateConfigs[packageId];
    var grown := CacheWithSelf(run, packageId, combined, cache);
    CombinedMeaning(cache, packageId, features);
    SelfWithin(run, universe, packageId, combined, cache);
    MissingShrinks(run, universe, cache, grown);
    if packageId in cache {
      assert grown.Keys == cache.Keys;
      var f := MissingFeature(cache[packageId], combined);
      EnabledFeaturesCanonical(crate, combined);
      CombinedMeaning(cache, packageId, EnabledFeatures(crate, combined));
      assert (packageId, f) in MissingFeatures(run, universe, cache);
      assert (packageId, f) !in MissingFeatures(run, universe, grown);
    } else {
      assert packageId in MissingPackages(run, cache) && packageId !in MissingPackages(run, grown);
    }
  }

  lemma {:induction false} MissingFeature(s: seq<string>, t: seq<string>) returns (f: string)
    requires Ascending(s) && Ascending(t) && Elems(s) <= Elems(t) && s != t
    ensures f in Elems(t) && f !in Elems(s)
  {
    if forall g :: g in Elems(t) ==> g in Elems(s) {
      AscendingUnique(s, t);
    }
    f :| f in Elems(t) && f !in Elems(s);
  }

  /** The dependency is switched on by a crate with features S. */
  ghost predicate Active(run: Run, S: set<string>, d: Dependency) {
    OnTarget(d, run.target) && (!d.optional || Triggered(S, d))
  }

  lemma {:induction false} FilterMeaning(
      dependencies: seq<Dependency>, features: seq<string>, target: Platform, d: Dependency)
    ensures d in FilterEnabledDependencies(dependencies, features, target) <==>
            d in dependencies && OnTarget(d, target) && (!d.optional || Triggered(Elems(features), d))
  {
    if dependencies != [] {
      FilterMeaning(dependencies[1..], features, target, d);
      assert dependencies == [dependencies[0]] + dependencies[1..];
      assert AnyEnables(dependencies[0], features) <==> Triggered(Elems(features), dependencies[0]);
    }
  }

  lemma {:induction false} DirectMeaning(dependencies: seq<Dependency>, features: seq<string>, r: Request)
    ensures r in DirectDependencies(dependencies, features) <==>
            exists d :: d in dependencies && r == Request(d.packageId, DependencyFeatures(features, d))
  {
    if dependencies != [] {
      DirectMeaning(dependencies[1..], features, r);
      assert dependencies == [dependencies[0]] + dependencies[1..];
    }
  }

  /** The requests of a crate with the given features are exactly those of its active dependencies. */
  lemma {:induction false} RequestsMeaning(run: Run, dependencies: seq<Dependency>, features: seq<string>, r: Request)
    ensures r in Requests(run, dependencies, features) <==>
            exists d :: d in dependencies && Active(run, Elems(features), d)
                        && r == Request(d.packageId, DependencyFeatures(features, d))
  {
    var filtered := FilterEnabledDependencies(dependencies, features, run.target);
    DirectMeaning(filtered, features, r);
    forall d ensures d in filtered <==> d in dependencies && Active(run, Elems(features), d) {
      FilterMeaning(dependencies, features, run.target, d);
    }
  }

  lemma {:induction false} RequestsWithin(run: Run, universe: set<string>, packageId: string, features: seq<string>)
    requires WellFormed(run) && Universe(run, universe)
    requires packageId in run.crateConfigs && Elems(features) <= universe
    ensures var crate := run.crateConfigs[packageId];
            var enabled := EnabledFeatures(crate, features);
            && ValidRequests(run, universe, Requests(run, DependenciesOf(run, packageId), enabled))
            && ValidRequests(run, universe, Requests(run, crate.buildDependencies, enabled))
  {
    var crate := run.crateConfigs[packageId];
    var enabled := EnabledFeatures(crate, features);
    SelfWithin(run, universe, packageId, features, map[]);
    ListRequestsWithin(run, universe, packageId, enabled, DependenciesOf(run, packageId));
    ListRequestsWithin(run, universe, packageId, enabled, crate.buildDependencies);
  }

  lemma {:induction false} ListRequestsWithin(
      run: Run, universe: set<string>, packageId: string, features: seq<string>, dependencies: seq<Dependency>)
    requires WellFormed(run) && Universe(run, universe)
    requires packageId in run.crateConfigs && Elems(features) <= universe
    requires forall d :: d in dependencies ==> IsEdge(run, packageId, d)
    ensures ValidRequests(run, universe, Requests(run, dependencies, features))
  {
    forall r | r in Requests(run, dependencies, features)
      ensures r.packageId in run.crateConfigs && Elems(r.features) <= universe
    {
      RequestsMeaning(run, dependencies, features, r);
      var d :| d in dependencies && r == Request(d.packageId, DependencyFeatures(features, d));
      forall g | g in Elems(r.features) ensures g in universe {
        DependencyFeaturesMeaning(features, d, g);
        AskedIsInUniverse(run, universe, packageId, features, d, g);
      }
    }
  }

  lemma {:induction false} AskedIsInUniverse(
      run: Run, universe: set<string>, packageId: string, features: seq<string>, d: Dependency, g: string)
    requires Universe(run, universe) && Elems(features) <= universe
    requires packageId in run.crateConfigs && IsEdge(run, packageId, d)
    requires Asks(Elems(features), d, g)
    ensures g in universe
  {
    var strong, weak := d.Alias() + "/" + g, d.Alias() + "?/" + g;
    assert strong[|d.Alias()| + 1..] == g && weak[|d.Alias()| + 2..] == g;
  }
}
