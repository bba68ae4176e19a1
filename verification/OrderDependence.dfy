/** Exactly when the order of dependencies has no effect on the features of a dependency graph. */
module OrderDependence {
  import opened Strings
  import opened Wrappers
  import opened FeatureRules
  import opened PackageFeatures
  import opened FeatureResolution

  /** A dependency that only asks the package for features. */
  function Ask(packageId: string, features: seq<string>): Dependency {
    Dependency("package", None, packageId, false, false, features, None)
  }

  /** Asks the package for `a`, then for `b`. */
  function AskInTurn(p: string, a: seq<string>, b: seq<string>): seq<Dependency> {
    [Ask(p, a), Ask(p, b)]
  }

  /** The configuration with a root crate on top that has these dependencies. */
  function OnTop(run: Run, root: string, ds: seq<Dependency>): Run {
    run.(crateConfigs := run.crateConfigs[root := Crate(map[], ds, [], [])], rootPackageId := root)
  }

  /** Dependencies with plain names on packages of the configuration. */
  ghost predicate Admissible(run: Run, ds: seq<Dependency>) {
    forall d :: d in ds ==> IsPlain(d.Alias()) && d.packageId in run.crateConfigs
  }

  ghost predicate SameMembers(ds: seq<Dependency>, ds': seq<Dependency>) {
    forall d :: d in ds <==> d in ds'
  }

  /** A configuration without a crate of the root's name. */
  ghost predicate Extensible(run: Run, root: string) {
    root !in run.crateConfigs && WellFormed(AtRoot(run, root))
  }

  lemma {:induction false} OnTopWellFormed(run: Run, root: string, ds: seq<Dependency>)
    requires Extensible(run, root) && Admissible(run, ds)
    ensures WellFormed(OnTop(run, root, ds))
  {
    var top := OnTop(run, root, ds);
    forall p, d | p in top.crateConfigs && IsEdge(top, p, d) ensures d.packageId in top.crateConfigs {
      if p != root {
        assert IsEdge(AtRoot(run, root), p, d);
      }
    }
  }

  lemma {:induction false} OnTopSameUpToOrder(run: Run, root: string, ds: seq<Dependency>, ds': seq<Dependency>)
    requires SameMembers(ds, ds')
    ensures SameUpToOrder(OnTop(run, root, ds), OnTop(run, root, ds'))
  {
    var top, top' := OnTop(run, root, ds), OnTop(run, root, ds');
    forall p | p in top.crateConfigs ensures SameCrate(top.crateConfigs[p], top'.crateConfigs[p]) {
    }
  }

  /******* Two requests for one package *******/

  /** A request that changes the features of p, in an acyclic graph: p gets the features of this one visit. */
  lemma {:induction false} ResolveFirst(
      run: Run, universe: set<string>, requests: seq<Request>, cache: Cache, rank: map<string, nat>)
    returns (next: Cache)
    requires WellFormed(run) && Universe(run, universe) && Within(run, universe, cache) && Ranked(run, rank)
    requires ValidRequests(run, universe, requests) && requests != []
    requires requests[0].packageId in cache ==> !(Elems(requests[0].features) <= Elems(cache[requests[0].packageId]))
    ensures Within(run, universe, next)
    ensures ResolveRequests(run, universe, requests, cache) == ResolveRequests(run, universe, requests[1..], next)
    ensures var p := requests[0].packageId;
            && p in run.crateConfigs && p in next
            && Elems(next[p]) == Elems(EnabledFeatures(run.crateConfigs[p],
                                                       CombinedFeatures(cache, p, requests[0].features)))
  {
    var Request(p, features) := requests[0];
    assert requests[0] in requests;
    var combined := CombinedFeatures(cache, p, features);
    CombinedMeaning(cache, p, features);
    ReentryGrows(run, universe, p, features, cache);
    MergeLeavesHigher(run, universe, p, combined, cache, rank, p);
    SelfIsEnabled(run, p, combined, cache);
    next := Merge(run, universe, p, combined, cache);
  }

  lemma {:induction false} ResolveLast(
      run: Run, universe: set<string>, p: string, b: seq<string>, cache: Cache, rank: map<string, nat>)
    returns (both: seq<string>)
    requires WellFormed(run) && Universe(run, universe) && Within(run, universe, cache) && Ranked(run, rank)
    requires p in run.crateConfigs && p in cache && !(Elems(b) <= Elems(cache[p]))
    requires ValidRequests(run, universe, [Request(p, b)])
    ensures Elems(both) == Elems(cache[p]) + Elems(b)
    ensures var r := ResolveRequests(run, universe, [Request(p, b)], cache);
            p in r && Elems(r[p]) == Elems(EnabledFeatures(run.crateConfigs[p], both))
  {
    both := CombinedFeatures(cache, p, b);
    CombinedMeaning(cache, p, b);
    var last := ResolveFirst(run, universe, [Request(p, b)], cache, rank);
    assert [Request(p, b)][1..] == [];
    assert ResolveRequests(run, universe, [], last) == last;
  }

  /** The features of p after requests for `a` and then for `b`, when `b` adds something: those of a visit with `b`
      on top of what the first visit made of `a`. */
  lemma {:induction false} ResolveTwice(
      run: Run, universe: set<string>, p: string, a: seq<string>, b: seq<string>, cache: Cache, rank: map<string, nat>)
    returns (both: seq<string>)
    requires WellFormed(run) && Universe(run, universe) && Within(run, universe, cache) && Ranked(run, rank)
    requires p in run.crateConfigs && p !in cache && ValidRequests(run, universe, [Request(p, a), Request(p, b)])
    requires !(Elems(b) <= Elems(EnabledFeatures(run.crateConfigs[p], SortedUnique(a))))
    ensures Elems(both) == Elems(EnabledFeatures(run.crateConfigs[p], SortedUnique(a))) + Elems(b)
    ensures var r := ResolveRequests(run, universe, [Request(p, a), Request(p, b)], cache);
            p in r && Elems(r[p]) == Elems(EnabledFeatures(run.crateConfigs[p], both))
  {
    assert [] + a == a;
    assert [Request(p, a), Request(p, b)][1..] == [Request(p, b)];
    var next := ResolveFirst(run, universe, [Request(p, a), Request(p, b)], cache, rank);
    both := ResolveLast(run, universe, p, b, next, rank);
  }

  /** What the root crate on top requests. */
  lemma {:induction false} RootRequests(run: Run, root: string, p: string, a: seq<string>, b: seq<string>)
    requires run.rootPackageId == root && root in run.crateConfigs
    requires run.crateConfigs[root] == Crate(map[], AskInTurn(p, a, b), [], [])
    ensures EnabledFeatures(run.crateConfigs[root], []) == []
    ensures Requests(run, DependenciesOf(run, root), []) == [Request(p, a), Request(p, b)]
    ensures Requests(run, run.crateConfigs[root].buildDependencies, []) == []
  {
    var d, d' := Ask(p, a), Ask(p, b);
    assert DependenciesOf(run, root) == [d, d'];
    assert [d, d'][1..] == [d'] && [d'][1..] == [];
    assert ExpandFeatures(map[], []) == [];
    assert AdditionalFeatures([d'], []) == [];
    assert AdditionalFeatures([d, d'], []) == [];
    assert FilterEnabledDependencies([d'], [], run.target) == [d'];
    assert FilterEnabledDependencies([d, d'], [], run.target) == [d, d'];
    assert DependencyFeatures([], d) == a && DependencyFeatures([], d') == b;
    assert DirectDependencies([d'], []) == [Request(p, b)];
  }

  lemma {:induction false} MergeTwice(
      run: Run, universe: set<string>, root: string, p: string, a: seq<string>, b: seq<string>, rank: map<string, nat>)
    returns (both: seq<string>)
    requires WellFormed(run) && Universe(run, universe) && Ranked(run, rank)
    requires run.rootPackageId == root && root in run.crateConfigs && p in run.crateConfigs && p != root
    requires run.crateConfigs[root] == Crate(map[], AskInTurn(p, a, b), [], [])
    requires !(Elems(b) <= Elems(EnabledFeatures(run.crateConfigs[p], SortedUnique(a))))
    ensures Elems(both) == Elems(EnabledFeatures(run.crateConfigs[p], SortedUnique(a))) + Elems(b)
    ensures var r := Merge(run, universe, root, [], map[]);
            p in r && Elems(r[p]) == Elems(EnabledFeatures(run.crateConfigs[p], both))
  {
    var self := CacheWithSelf(run, root, [], map[]);
    SelfWithin(run, universe, root, [], map[]);
    RequestsWithin(run, universe, root, []);
    RootRequests(run, root, p, a, b);
    var requests := [Request(p, a), Request(p, b)];
    assert requests[0] in requests && requests[1] in requests;
    both := ResolveTwice(run, universe, p, a, b, self, rank);
  }

  /** Package p ends up with the features S when the root asks it for `a` and then for `b`. */
  ghost predicate EndsWith(run: Run, root: string, p: string, a: seq<string>, b: seq<string>, S: set<string>) {
    var top := OnTop(run, root, AskInTurn(p, a, b));
    WellFormed(top) && var final := MergePackageFeatures(top, []); p in final && Elems(final[p]) == S
  }

  lemma {:induction false} AskTwice(
      run: Run, root: string, p: string, a: seq<string>, b: seq<string>, rank: map<string, nat>)
    returns (both: seq<string>)
    requires Extensible(run, root) && Ranked(AtRoot(run, root), rank) && p in run.crateConfigs
    requires !(Elems(b) <= Elems(EnabledFeatures(run.crateConfigs[p], SortedUnique(a))))
    ensures Elems(both) == Elems(EnabledFeatures(run.crateConfigs[p], SortedUnique(a))) + Elems(b)
    ensures EndsWith(run, root, p, a, b, Elems(EnabledFeatures(run.crateConfigs[p], both)))
  {
    var ds := AskInTurn(p, a, b);
    var top := OnTop(run, root, ds);
    AsksAdmissible(run, p, a, b);
    OnTopWellFormed(run, root, ds);
    UniverseExists(top, []);
    var rank' := rank[root := rank[p] + 1];
    OnTopRanked(run, root, p, a, b, rank);
    both := MergeTwice(top, FeatureUniverse(top, []), root, p, a, b, rank');
  }

  lemma {:induction false} AsksAdmissible(run: Run, p: string, a: seq<string>, b: seq<string>)
    requires p in run.crateConfigs
    ensures Admissible(run, AskInTurn(p, a, b))
  {
    assert "dep:"[0] != "package"[0];
  }

  lemma {:induction false} OnTopRanked(
      run: Run, root: string, p: string, a: seq<string>, b: seq<string>, rank: map<string, nat>)
    requires Extensible(run, root) && Ranked(AtRoot(run, root), rank) && p in run.crateConfigs
    ensures Ranked(OnTop(run, root, AskInTurn(p, a, b)), rank[root := rank[p] + 1])
  {
    var top, rank' := OnTop(run, root, AskInTurn(p, a, b)), rank[root := rank[p] + 1];
    forall q, d | q in top.crateConfigs && IsEdge(top, q, d)
      ensures d.packageId in rank' && rank'[d.packageId] < rank'[q]
    {
      if q != root {
        assert IsEdge(AtRoot(run, root), q, d);
      }
    }
  }

  /******* A crate whose alias implies something tells the orders apart *******/

  function Xs(n: nat): (s: string)
    ensures |s| == n && forall i :: 0 <= i < n ==> s[i] == 'x'
  {
    if n == 0 then "" else Xs(n - 1) + "x"
  }

  /** Nothing in the crate mentions the feature x: it is longer than all names, and made of one letter. */
  ghost predicate IsUnrelated(crate: Crate, x: string) {
    && |x| > 0 && (forall i :: 0 <= i < |x| ==> x[i] == 'x')
    && (forall k :: k in crate.features ==> |k| < |x|)
    && (forall d :: d in crate.dependencies ==> |d.Alias()| < |x|)
  }

  lemma {:induction false} UnrelatedExists(crate: Crate, g: string) returns (x: string)
    ensures IsUnrelated(crate, x) && |g| < |x|
  {
    var names := crate.features.Keys + {g} + set d | d in crate.dependencies :: d.Alias();
    var longest := LongerThanAll(names);
    x := Xs(|longest| + 1);
    forall d | d in crate.dependencies ensures |d.Alias()| < |x| {
      assert d.Alias() in names;
    }
  }

  lemma {:induction false} UnrelatedTriggersNothing(crate: Crate, x: string, d: Dependency)
    requires IsUnrelated(crate, x) && d in crate.dependencies
    ensures !DoesFeatureEnableDependency(d, x)
  {
    assert x[0] == 'x' && ("dep:" + d.Alias())[0] == 'd';
    if d.Alias() + "/" <= x {
      HasSlash(d.Alias(), x);
    }
  }

  lemma {:induction false} StepOnUnrelated(crate: Crate, features: seq<string>, x: string)
    requires IsUnrelated(crate, x) && Elems(features) == {x}
    ensures Elems(EnabledFeatures(crate, features)) == {x}
  {
    forall d | d in crate.dependencies ensures !Triggered({x}, d) {
      UnrelatedTriggersNothing(crate, x, d);
    }
    EnabledFeaturesBelow(crate, features, {x});
    EnabledFeaturesCanonical(crate, features);
  }

  /** The feature map has nothing for a list of features that are no keys. */
  lemma {:induction false} ExpandsToItself(crate: Crate, features: seq<string>)
    requires forall f :: f in Elems(features) ==> f !in crate.features
    ensures Elems(ExpandFeatures(crate.features, features)) == Elems(features)
  {
    ExpandFeaturesLeast(crate.features, features);
    assert ClosedUnder(crate.features, Elems(features));
  }

  lemma {:induction false} TriggeredByBoth(crate: Crate, d: Dependency, d': Dependency, x: string)
    requires PlainNames(crate) && d in crate.dependencies && d' in crate.dependencies && IsUnrelated(crate, x)
    ensures Triggered({d.Alias() + "/" + x, x}, d') <==> d'.Alias() == d.Alias()
  {
    var f := d.Alias() + "/" + x;
    UnrelatedTriggersNothing(crate, x, d');
    if DoesFeatureEnableDependency(d', f) {
      SlashFeatureTriggers(d', d.Alias(), x);
    }
    assert d.Alias() + "/" <= f;
  }

  lemma {:induction false} SlashIsLonger(d: Dependency, x: string)
    ensures |d.Alias() + "/" + x| > |x|
  {
  }

  /** When what the features expand to triggers one alias only, the crate gets the expansion and this alias. */
  lemma {:induction false} StepAddsAlias(crate: Crate, d: Dependency, features: seq<string>, X: set<string>)
    requires Elems(ExpandFeatures(crate.features, features)) == X
    requires d in crate.dependencies && d.optional
    requires forall d' :: d' in crate.dependencies ==> (Triggered(X, d') <==> d'.Alias() == d.Alias())
    ensures Elems(EnabledFeatures(crate, features)) == X + {d.Alias()}
  {
    forall g ensures g in Elems(EnabledFeatures(crate, features)) <==> g in X || g == d.Alias() {
      EnabledFeaturesMeaning(crate, features, g);
    }
  }

  /** Asked for `alias/x` and x at once, the crate gets these and the alias: the alias comes too late to expand. */
  lemma {:induction false} StepOnBoth(crate: Crate, d: Dependency, features: seq<string>, x: string)
    requires PlainNames(crate) && d in crate.dependencies && d.optional && IsUnrelated(crate, x)
    requires Elems(features) == {d.Alias() + "/" + x, x}
    ensures Elems(EnabledFeatures(crate, features)) == {d.Alias() + "/" + x, x} + {d.Alias()}
  {
    SlashIsLonger(d, x);
    ExpandsToItself(crate, features);
    forall d' | d' in crate.dependencies ensures Triggered(Elems(features), d') <==> d'.Alias() == d.Alias() {
      TriggeredByBoth(crate, d, d', x);
    }
    StepAddsAlias(crate, d, features, Elems(features));
  }

  lemma {:induction false} StepExpands(crate: Crate, features: seq<string>, f: string, g: string)
    requires f in Elems(features) && g in Implied(crate.features, f)
    ensures g in Elems(EnabledFeatures(crate, features))
  {
    ExpandFeaturesLeast(crate.features, features);
    EnabledFeaturesMeaning(crate, features, g);
  }

  lemma {:induction false} Singleton(f: string)
    ensures Elems([f]) == {f} && SortedUnique([f]) == [f]
  {
    SortedUniqueCanonical([f]);
    AscendingUnique(SortedUnique([f]), [f]);
  }

  /** `alias/x` first: the second visit expands the alias. */
  lemma {:induction false} SlashThenPlain(
      run: Run, root: string, p: string, d: Dependency, g: string, x: string, rank: map<string, nat>)
    returns (S: set<string>)
    requires Extensible(run, root) && Ranked(AtRoot(run, root), rank) && p in run.crateConfigs
    requires var crate := run.crateConfigs[p];
             && PlainNames(crate) && d in crate.dependencies && d.optional && IsUnrelated(crate, x)
             && g in Implied(crate.features, d.Alias())
    ensures EndsWith(run, root, p, [d.Alias() + "/" + x], [x], S) && g in S
  {
    var crate, f := run.crateConfigs[p], d.Alias() + "/" + x;
    Singleton(f);
    Singleton(x);
    assert |f| > |x| && |d.Alias()| < |x|;
    StepOnSlashFeature(crate, d, x);
    var both := AskTwice(run, root, p, [f], [x], rank);
    StepExpands(crate, both, d.Alias(), g);
    S := Elems(EnabledFeatures(crate, both));
  }

  /** x first: no visit expands the alias. */
  lemma {:induction false} PlainThenSlash(
      run: Run, root: string, p: string, d: Dependency, x: string, rank: map<string, nat>)
    returns (S: set<string>)
    requires Extensible(run, root) && Ranked(AtRoot(run, root), rank) && p in run.crateConfigs
    requires var crate := run.crateConfigs[p];
             PlainNames(crate) && d in crate.dependencies && d.optional && IsUnrelated(crate, x)
    ensures EndsWith(run, root, p, [x], [d.Alias() + "/" + x], S)
    ensures S == {d.Alias() + "/" + x, x} + {d.Alias()}
  {
    var crate, f := run.crateConfigs[p], d.Alias() + "/" + x;
    SlashIsLonger(d, x);
    var both := PlainThenLonger(run, root, p, f, x, rank);
    StepOnBoth(crate, d, both, x);
    S := Elems(EnabledFeatures(crate, both));
  }

  lemma {:induction false} PlainThenLonger(
      run: Run, root: string, p: string, f: string, x: string, rank: map<string, nat>)
    returns (both: seq<string>)
    requires Extensible(run, root) && Ranked(AtRoot(run, root), rank) && p in run.crateConfigs
    requires IsUnrelated(run.crateConfigs[p], x) && |f| > |x|
    ensures EndsWith(run, root, p, [x], [f], Elems(EnabledFeatures(run.crateConfigs[p], both)))
    ensures Elems(both) == {f, x}
  {
    StepOnPlain(run.crateConfigs[p], f, x);
    both := AskTwice(run, root, p, [x], [f], rank);
  }

  lemma {:induction false} StepOnPlain(crate: Crate, f: string, x: string)
    requires IsUnrelated(crate, x) && |f| > |x|
    ensures Elems(EnabledFeatures(crate, SortedUnique([x]))) == {x} && Elems([f]) == {f} && f !in {x}
  {
    Singleton(f);
    Singleton(x);
    StepOnUnrelated(crate, [x], x);
  }

  /******* The exact conditions *******/

  ghost predicate SameResult(run: Run, root: string, ds: seq<Dependency>, ds': seq<Dependency>) {
    var top, top' := OnTop(run, root, ds), OnTop(run, root, ds');
    WellFormed(top) && WellFormed(top') && MergePackageFeatures(top, []) == MergePackageFeatures(top', [])
  }

  lemma {:induction false} EndsDiffer(
      run: Run, root: string, p: string, a: seq<string>, b: seq<string>, S: set<string>, S': set<string>, g: string)
    requires EndsWith(run, root, p, a, b, S) && EndsWith(run, root, p, b, a, S') && g in S && g !in S'
    ensures !SameResult(run, root, AskInTurn(p, a, b), AskInTurn(p, b, a))
  {
  }

  lemma {:induction false} Swapped(run: Run, p: string, a: seq<string>, b: seq<string>)
    requires p in run.crateConfigs
    ensures Admissible(run, AskInTurn(p, a, b)) && SameMembers(AskInTurn(p, a, b), AskInTurn(p, b, a))
  {
    AsksAdmissible(run, p, a, b);
  }

  lemma {:induction false} DifferentResult(run: Run, root: string, p: string, rank: map<string, nat>)
    returns (ds: seq<Dependency>, ds': seq<Dependency>)
    requires Extensible(run, root) && Ranked(AtRoot(run, root), rank)
    requires p in run.crateConfigs && PlainNames(run.crateConfigs[p]) && !SelfContained(run.crateConfigs[p])
    ensures Admissible(run, ds) && SameMembers(ds, ds') && !SameResult(run, root, ds, ds')
  {
    var crate := run.crateConfigs[p];
    var d, g :| d in crate.dependencies && d.optional && g in Implied(crate.features, d.Alias()) && g != d.Alias();
    var x := UnrelatedExists(crate, g);
    var f := d.Alias() + "/" + x;
    BothOrders(run, root, p, d, g, x, rank);
    Swapped(run, p, [f], [x]);
    ds, ds' := AskInTurn(p, [f], [x]), AskInTurn(p, [x], [f]);
  }

  lemma {:induction false} BothOrders(
      run: Run, root: string, p: string, d: Dependency, g: string, x: string, rank: map<string, nat>)
    requires Extensible(run, root) && Ranked(AtRoot(run, root), rank) && p in run.crateConfigs
    requires var crate := run.crateConfigs[p];
             && PlainNames(crate) && d in crate.dependencies && d.optional && IsUnrelated(crate, x)
             && g in Implied(crate.features, d.Alias()) && g != d.Alias() && |g| < |x|
    ensures var f := d.Alias() + "/" + x;
            !SameResult(run, root, AskInTurn(p, [f], [x]), AskInTurn(p, [x], [f]))
  {
    var f := d.Alias() + "/" + x;
    var S := SlashThenPlain(run, root, p, d, g, x, rank);
    var S' := PlainThenSlashMisses(run, root, p, d, g, x, rank);
    EndsDiffer(run, root, p, [f], [x], S, S', g);
  }

  /** For an acyclic configuration: whatever is put on top of it, the order of the dependencies has no effect, if and
      only if each optional dependency's name implies no feature but itself. */
  lemma {:induction false} OrderIrrelevantExactlyWhenSelfContained(run: Run, root: string, rank: map<string, nat>)
    requires Extensible(run, root) && Ranked(AtRoot(run, root), rank) && AllPlain(run)
    ensures AllSelfContained(run) <==>
            forall ds, ds' :: Admissible(run, ds) && SameMembers(ds, ds') ==> SameResult(run, root, ds, ds')
  {
    if AllSelfContained(run) {
      forall ds, ds' | Admissible(run, ds) && SameMembers(ds, ds') ensures SameResult(run, root, ds, ds') {
        OrderIrrelevantOnTop(run, root, ds, ds');
      }
    } else {
      var p :| p in run.crateConfigs && !SelfContained(run.crateConfigs[p]);
      var ds, ds' := DifferentResult(run, root, p, rank);
    }
  }

  lemma {:induction false} OrderIrrelevantOnTop(run: Run, root: string, ds: seq<Dependency>, ds': seq<Dependency>)
    requires Extensible(run, root) && AllPlain(run) && AllSelfContained(run)
    requires Admissible(run, ds) && SameMembers(ds, ds')
    ensures SameResult(run, root, ds, ds')
  {
    var top, top' := OnTop(run, root, ds), OnTop(run, root, ds');
    OnTopWellFormed(run, root, ds);
    OnTopWellFormed(run, root, ds');
    OnTopSameUpToOrder(run, root, ds, ds');
    EveryEdgeIsSatisfied(top, []);
    forall p | p in MergePackageFeatures(top, [])
      ensures p in top.crateConfigs && PlainNames(top.crateConfigs[p]) && SelfContained(top.crateConfigs[p])
    {
    }
    OrderDoesNotMatter(top, top', []);
  }

  ghost predicate SameMarkedResult(run: Run, root: string, ds: seq<Dependency>, ds': seq<Dependency>) {
    var top, top' := OnTop(run, root, ds), OnTop(run, root, ds');
    && WellFormed(top) && WellFormed(top')
    && MarkedAssignment(top, MergePackageFeatures(top, [])) == MarkedAssignment(top', MergePackageFeatures(top', []))
  }

  lemma {:induction false} MarkedEndsDiffer(
      run: Run, root: string, p: string, a: seq<string>, b: seq<string>, S: set<string>, S': set<string>)
    requires p in run.crateConfigs && p != root
    requires EndsWith(run, root, p, a, b, S) && EndsWith(run, root, p, b, a, S')
    requires WithMarkers(run.crateConfigs[p], S) != WithMarkers(run.crateConfigs[p], S')
    ensures !SameMarkedResult(run, root, AskInTurn(p, a, b), AskInTurn(p, b, a))
  {
    MarkedEntry(run, root, p, a, b, S);
    MarkedEntry(run, root, p, b, a, S');
  }

  lemma {:induction false} TooShort(d: Dependency, g: string, x: string)
    requires g != d.Alias() && |g| < |x|
    ensures g !in {d.Alias() + "/" + x, x} + {d.Alias()}
  {
    SlashIsLonger(d, x);
  }

  lemma {:induction false} PlainThenSlashMisses(
      run: Run, root: string, p: string, d: Dependency, g: string, x: string, rank: map<string, nat>)
    returns (S: set<string>)
    requires Extensible(run, root) && Ranked(AtRoot(run, root), rank) && p in run.crateConfigs
    requires var crate := run.crateConfigs[p];
             && PlainNames(crate) && d in crate.dependencies && d.optional && IsUnrelated(crate, x)
             && g != d.Alias() && |g| < |x|
    ensures EndsWith(run, root, p, [x], [d.Alias() + "/" + x], S) && g !in S
  {
    S := PlainThenSlash(run, root, p, d, x, rank);
    TooShort(d, g, x);
  }

  lemma {:induction false} DifferentMarkedResult(run: Run, root: string, p: string, rank: map<string, nat>)
    returns (ds: seq<Dependency>, ds': seq<Dependency>)
    requires Extensible(run, root) && Ranked(AtRoot(run, root), rank)
    requires p in run.crateConfigs && PlainNames(run.crateConfigs[p]) && !MarkersOnly(run.crateConfigs[p])
    ensures Admissible(run, ds) && SameMembers(ds, ds') && !SameMarkedResult(run, root, ds, ds')
  {
    var crate := run.crateConfigs[p];
    var d, g :| d in crate.dependencies && d.optional && g in Implied(crate.features, d.Alias())
                && g != d.Alias() && g != "dep:" + d.Alias();
    var x := UnrelatedExists(crate, g);
    var f := d.Alias() + "/" + x;
    BothOrdersMarked(run, root, p, d, g, x, rank);
    Swapped(run, p, [f], [x]);
    ds, ds' := AskInTurn(p, [f], [x]), AskInTurn(p, [x], [f]);
  }

  lemma {:induction false} BothOrdersMarked(
      run: Run, root: string, p: string, d: Dependency, g: string, x: string, rank: map<string, nat>)
    requires Extensible(run, root) && Ranked(AtRoot(run, root), rank) && p in run.crateConfigs
    requires var crate := run.crateConfigs[p];
             && PlainNames(crate) && d in crate.dependencies && d.optional && IsUnrelated(crate, x)
             && g in Implied(crate.features, d.Alias()) && g != d.Alias() && g != "dep:" + d.Alias() && |g| < |x|
    ensures var f := d.Alias() + "/" + x;
            !SameMarkedResult(run, root, AskInTurn(p, [f], [x]), AskInTurn(p, [x], [f]))
  {
    var f := d.Alias() + "/" + x;
    var S := SlashThenPlain(run, root, p, d, g, x, rank);
    var S' := PlainThenSlash(run, root, p, d, x, rank);
    MarkersMissed(run.crateConfigs[p], d, g, x);
    assert g in WithMarkers(run.crateConfigs[p], S);
    MarkedEndsDiffer(run, root, p, [f], [x], S, S');
  }

  lemma {:induction false} MarkersMissed(crate: Crate, d: Dependency, g: string, x: string)
    requires PlainNames(crate) && d in crate.dependencies && IsUnrelated(crate, x)
    requires g != d.Alias() && g != "dep:" + d.Alias() && |g| < |x|
    ensures g !in WithMarkers(crate, {d.Alias() + "/" + x, x} + {d.Alias()})
  {
    MarkersOfBoth(crate, d, x);
    TooShort(d, g, x);
  }

  lemma {:induction false} MarkersOfBoth(crate: Crate, d: Dependency, x: string)
    requires PlainNames(crate) && d in crate.dependencies && IsUnrelated(crate, x)
    ensures WithMarkers(crate, {d.Alias() + "/" + x, x} + {d.Alias()})
            <= {d.Alias(), d.Alias() + "/" + x, x, "dep:" + d.Alias()}
  {
    var f := d.Alias() + "/" + x;
    forall d' | d' in crate.dependencies && d'.Alias() in {d.Alias(), f, x} ensures d'.Alias() == d.Alias() {
      assert IsPlain(d'.Alias());
      HasSlash(d.Alias(), f);
    }
  }

  lemma {:induction false} MarkedEntry(
      run: Run, root: string, p: string, a: seq<string>, b: seq<string>, S: set<string>)
    requires p in run.crateConfigs && p != root && EndsWith(run, root, p, a, b, S)
    ensures var top := OnTop(run, root, AskInTurn(p, a, b));
            var M := MarkedAssignment(top, MergePackageFeatures(top, []));
            p in M && M[p] == WithMarkers(run.crateConfigs[p], S)
  {
  }

  /** For an acyclic configuration with plain names: whatever is put on top of it, the order of the dependencies has
      an effect on markers at most, if and only if each optional dependency's name implies at most itself and its
      marker. */
  lemma {:induction false} OrderIrrelevantUpToMarkersExactlyWhenMarkersOnly(
      run: Run, root: string, rank: map<string, nat>)
    requires Extensible(run, root) && Ranked(AtRoot(run, root), rank)
    requires forall p :: p in run.crateConfigs ==>
               PlainEdges(AtRoot(run, root), p) && MarkersImplyNothing(run.crateConfigs[p])
    ensures (forall p :: p in run.crateConfigs ==> MarkersOnly(run.crateConfigs[p])) <==>
            forall ds, ds' :: Admissible(run, ds) && SameMembers(ds, ds') ==> SameMarkedResult(run, root, ds, ds')
  {
    if forall p :: p in run.crateConfigs ==> MarkersOnly(run.crateConfigs[p]) {
      forall ds, ds' | Admissible(run, ds) && SameMembers(ds, ds') ensures SameMarkedResult(run, root, ds, ds') {
        OrderIrrelevantUpToMarkersOnTop(run, root, ds, ds');
      }
    } else {
      var p :| p in run.crateConfigs && !MarkersOnly(run.crateConfigs[p]);
      EdgesArePlainNames(AtRoot(run, root), p);
      var ds, ds' := DifferentMarkedResult(run, root, p, rank);
    }
  }

  lemma {:induction false} OrderIrrelevantUpToMarkersOnTop(
      run: Run, root: string, ds: seq<Dependency>, ds': seq<Dependency>)
    requires Extensible(run, root) && Admissible(run, ds) && SameMembers(ds, ds')
    requires forall p :: p in run.crateConfigs ==> IsMarked(AtRoot(run, root), p)
    ensures SameMarkedResult(run, root, ds, ds')
  {
    var top, top' := OnTop(run, root, ds), OnTop(run, root, ds');
    OnTopWellFormed(run, root, ds);
    OnTopWellFormed(run, root, ds');
    OnTopSameUpToOrder(run, root, ds, ds');
    EveryEdgeIsSatisfied(top, []);
    forall p | p in MergePackageFeatures(top, []) ensures p in top.crateConfigs && IsMarked(top, p) {
      OnTopMarked(run, root, ds, p);
    }
    OrderMattersOnlyForMarkers(top, top', []);
  }

  lemma {:induction false} OnTopMarked(run: Run, root: string, ds: seq<Dependency>, p: string)
    requires Extensible(run, root) && Admissible(run, ds) && p in OnTop(run, root, ds).crateConfigs
    requires p in run.crateConfigs ==> IsMarked(AtRoot(run, root), p)
    ensures IsMarked(OnTop(run, root, ds), p)
  {
    var top := OnTop(run, root, ds);
    if p != root {
      assert forall d :: IsEdge(top, p, d) ==> IsEdge(AtRoot(run, root), p, d);
    }
  }

  /******* Cycles *******/

  lemma {:induction false} CyclicOnTop(
      run: Run, root: string, id: string, o: string, g: string, ds: seq<Dependency>)
    requires run.crateConfigs == map[id := CyclicCrate(id, o, g)] && root != id
    requires IsPlain(id) && IsPlain(o) && g != o && Admissible(run, ds)
    ensures WellFormed(OnTop(run, root, ds)) && AllPlain(OnTop(run, root, ds))
  {
    CyclicCrateFacts(AtRoot(run, id), id, o, g);
    assert WellFormed(AtRoot(run, root));
    OnTopWellFormed(run, root, ds);
  }

  lemma {:induction false} CyclicOnTopIsLeast(
      run: Run, root: string, id: string, o: string, g: string, ds: seq<Dependency>)
    requires run.crateConfigs == map[id := CyclicCrate(id, o, g)] && root != id
    requires IsPlain(id) && IsPlain(o) && g != o && Admissible(run, ds)
    ensures var top := OnTop(run, root, ds);
            WellFormed(top) && IsLeastClosed(top, [], AssignmentOf(MergePackageFeatures(top, [])))
  {
    CyclicOnTop(run, root, id, o, g, ds);
    var top := OnTop(run, root, ds);
    EveryEdgeIsSatisfied(top, []);
    AllExpandedAround(top, MergePackageFeatures(top, []), id, o, g);
    LeastExactlyWhenExpanded(top, []);
  }

  /** On a cyclic graph the order can have no effect although an alias implies another feature, so the equivalences
      above need acyclic configurations. */
  lemma {:induction false} CyclesCanHideOrder(
      run: Run, root: string, id: string, o: string, g: string, ds: seq<Dependency>, ds': seq<Dependency>)
    requires run.crateConfigs == map[id := CyclicCrate(id, o, g)] && root != id
    requires IsPlain(id) && IsPlain(o) && g != o
    requires Admissible(run, ds) && SameMembers(ds, ds')
    ensures !SelfContained(run.crateConfigs[id])
    ensures SameResult(run, root, ds, ds')
  {
    CyclicCrateFacts(AtRoot(run, id), id, o, g);
    CyclicOnTopIsLeast(run, root, id, o, g, ds);
    CyclicOnTopIsLeast(run, root, id, o, g, ds');
    OnTopSameUpToOrder(run, root, ds, ds');
    LeastResultsAgree(OnTop(run, root, ds), OnTop(run, root, ds'), []);
  }

  /******* An instance *******/

  /** A library with an optional dependency d, a feature `fast` that asks the dependency for its own feature of that
      name, a feature `log`, and a feature `std` that comes with the dependency. */
  function Library(d: Dependency, fast: string, log: string, std: string): Crate {
    var alias := d.Alias();
    Crate(map[alias := ["dep:" + alias, std], fast := [alias + "/" + fast], log := [], std := []], [d], [], [])
  }

  /** Four different names as Cargo allows them, one of them the alias of an optional dependency. */
  ghost predicate LibraryNames(d: Dependency, fast: string, log: string, std: string) {
    && d.optional && IsPlain(d.Alias()) && IsPlain(fast) && IsPlain(log) && IsPlain(std)
    && d.Alias() != fast && d.Alias() != log && d.Alias() != std && fast != log && fast != std && log != std
  }

  lemma {:induction false} LibraryTriggers(d: Dependency, fast: string, log: string, std: string)
    requires LibraryNames(d, fast, log, std)
    ensures var slash := d.Alias() + "/" + fast;
            && Triggered({fast, slash}, d) && Triggered({log, fast, slash}, d) && !Triggered({log}, d)
            && slash !in {d.Alias(), fast, log, std}
  {
    var slash := d.Alias() + "/" + fast;
    assert d.Alias() + "/" <= slash && DoesFeatureEnableDependency(d, slash);
    HasSlash(d.Alias(), slash);
    if DoesFeatureEnableDependency(d, log) {
      PlainAliasTriggersOnlyItself(d, log);
    }
  }

  /** One feature implies one further feature, and nothing else implies anything. */
  lemma {:induction false} ExpandsByOne(m: map<string, seq<string>>, features: seq<string>, f: string, g: string)
    requires f in Elems(features) && Implied(m, f) == [g] && Implied(m, g) == []
    requires forall h :: h in Elems(features) && h != f ==> Implied(m, h) == []
    ensures Elems(ExpandFeatures(m, features)) == Elems(features) + {g}
  {
    ExpandFeaturesLeast(m, features);
    assert [g][0] in Implied(m, f);
    assert ClosedUnder(m, Elems(features) + {g});
  }

  lemma {:induction false} LibraryExpands(d: Dependency, fast: string, log: string, std: string, features: seq<string>)
    requires LibraryNames(d, fast, log, std)
    requires fast in Elems(features) && Elems(features) <= {fast, log}
    ensures Elems(ExpandFeatures(Library(d, fast, log, std).features, features))
            == Elems(features) + {d.Alias() + "/" + fast}
  {
    LibraryTriggers(d, fast, log, std);
    ExpandsByOne(Library(d, fast, log, std).features, features, fast, d.Alias() + "/" + fast);
  }

  /** After `fast` alone the dependency's alias is there, and would bring `std`. */
  lemma {:induction false} FastAlone(d: Dependency, fast: string, log: string, std: string)
    requires LibraryNames(d, fast, log, std)
    ensures var E := Elems(EnabledFeatures(Library(d, fast, log, std), SortedUnique([fast])));
            d.Alias() in E && !(Elems([log]) <= E)
    ensures std in Implied(Library(d, fast, log, std).features, d.Alias())
  {
    Singleton(fast);
    Singleton(log);
    LibraryTriggers(d, fast, log, std);
    LibraryExpands(d, fast, log, std, [fast]);
    StepAddsAlias(Library(d, fast, log, std), d, [fast], {fast, d.Alias() + "/" + fast});
    assert ["dep:" + d.Alias(), std][1] in Implied(Library(d, fast, log, std).features, d.Alias());
  }

  lemma {:induction false} LogAlone(d: Dependency, fast: string, log: string, std: string)
    requires LibraryNames(d, fast, log, std)
    ensures Elems(EnabledFeatures(Library(d, fast, log, std), SortedUnique([log]))) == {log} == Elems([log])
    ensures !(Elems([fast]) <= {log})
  {
    var crate := Library(d, fast, log, std);
    Singleton(log);
    Singleton(fast);
    LibraryTriggers(d, fast, log, std);
    assert Implied(crate.features, log) == [];
    assert LocallyClosed(crate, {log});
    EnabledFeaturesBelow(crate, [log], {log});
    EnabledFeaturesCanonical(crate, [log]);
  }

  /** At one visit with both the alias is added at the end, and brings nothing. */
  lemma {:induction false} FastAndLog(d: Dependency, fast: string, log: string, std: string, features: seq<string>)
    requires LibraryNames(d, fast, log, std) && Elems(features) == {log} + Elems([fast])
    ensures std !in Elems(EnabledFeatures(Library(d, fast, log, std), features))
  {
    Singleton(fast);
    LibraryTriggers(d, fast, log, std);
    LibraryExpands(d, fast, log, std, features);
    StepAddsAlias(Library(d, fast, log, std), d, features, {log, fast, d.Alias() + "/" + fast});
  }

  lemma {:induction false} FastThenLog(
      run: Run, root: string, p: string, d: Dependency, fast: string, log: string, std: string, rank: map<string, nat>)
    returns (S: set<string>)
    requires Extensible(run, root) && Ranked(AtRoot(run, root), rank) && p in run.crateConfigs
    requires LibraryNames(d, fast, log, std) && run.crateConfigs[p] == Library(d, fast, log, std)
    ensures EndsWith(run, root, p, [fast], [log], S) && std in S
  {
    FastAlone(d, fast, log, std);
    var both := AskTwice(run, root, p, [fast], [log], rank);
    StepExpands(run.crateConfigs[p], both, d.Alias(), std);
    S := Elems(EnabledFeatures(run.crateConfigs[p], both));
  }

  lemma {:induction false} LogThenFast(
      run: Run, root: string, p: string, d: Dependency, fast: string, log: string, std: string, rank: map<string, nat>)
    returns (S: set<string>)
    requires Extensible(run, root) && Ranked(AtRoot(run, root), rank) && p in run.crateConfigs
    requires LibraryNames(d, fast, log, std) && run.crateConfigs[p] == Library(d, fast, log, std)
    ensures EndsWith(run, root, p, [log], [fast], S) && std !in S
  {
    LogAlone(d, fast, log, std);
    var both := AskTwice(run, root, p, [log], [fast], rank);
    FastAndLog(d, fast, log, std, both);
    S := Elems(EnabledFeatures(run.crateConfigs[p], both));
  }

  /** An instance with the shape of a generated file: when `app` asks `lib` for `fast` and then for `log`, the
      features of `lib` contain `std`; when it asks in the opposite order, they do not. */
  lemma {:induction false} OrderCanMatter(
      run: Run, codec: Dependency, lib: string, app: string, fast: string, log: string, std: string)
    returns (S: set<string>, S': set<string>)
    requires run.crateConfigs == map[lib := Library(codec, fast, log, std), codec.packageId := Crate(map[], [], [], [])]
    requires lib != codec.packageId && app !in run.crateConfigs && LibraryNames(codec, fast, log, std)
    ensures EndsWith(run, app, lib, [fast], [log], S) && std in S
    ensures EndsWith(run, app, lib, [log], [fast], S') && std !in S'
    ensures !SameResult(run, app, AskInTurn(lib, [fast], [log]), AskInTurn(lib, [log], [fast]))
  {
    var rank := map[lib := 1, codec.packageId := 0];
    assert forall p, d :: p in run.crateConfigs && IsEdge(AtRoot(run, app), p, d) ==> p == lib && d == codec;
    assert Ranked(AtRoot(run, app), rank);
    S := FastThenLog(run, app, lib, codec, fast, log, std, rank);
    S' := LogThenFast(run, app, lib, codec, fast, log, std, rank);
    EndsDiffer(run, app, lib, [fast], [log], S, S', std);
  }
}
