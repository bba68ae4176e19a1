/** What the resolver's result means in terms of the configuration's fields alone: names and renamings, target
    conditions, feature maps and lists of dependencies. */
module ResolverLaws {
  import opened Strings
  import opened Wrappers
  import opened FeatureRules
  import opened PackageFeatures
  import opened FeatureResolution

  /** Features call a dependency n: by its new name if it has one, and by its own otherwise. */
  ghost predicate IsCalled(d: Dependency, n: string) {
    match d.rename
    case Some(renamed) => n == renamed
    case None => n == d.name
  }

  /** A feature of S turns on the dependency called n. */
  ghost predicate TurnsOn(S: set<string>, n: string) {
    n in S || "dep:" + n in S || exists f :: f in S && n + "/" <= f
  }

  ghost predicate HoldsOn(d: Dependency, target: Platform) {
    match d.target
    case Some(condition) => condition(target)
    case None => true
  }

  /** The crate's dependencies in this run: the development ones only for the root of a test run. */
  ghost predicate DependsOn(run: Run, p: string, d: Dependency)
    requires p in run.crateConfigs
  {
    || d in run.crateConfigs[p].dependencies
    || d in run.crateConfigs[p].buildDependencies
    || (run.runTests && p == run.rootPackageId && d in run.crateConfigs[p].devDependencies)
  }

  /** With features S, the crate uses dependency d, which it calls n. */
  ghost predicate Uses(run: Run, p: string, S: set<string>, d: Dependency, n: string)
    requires p in run.crateConfigs
  {
    DependsOn(run, p, d) && IsCalled(d, n) && HoldsOn(d, run.target) && (d.optional ==> TurnsOn(S, n))
  }

  /** With features S, the crate wants feature g of the dependency d that it calls n. */
  ghost predicate Wants(S: set<string>, d: Dependency, n: string, g: string) {
    (d.usesDefaultFeatures && g == "default") || g in d.features || n + "/" + g in S || n + "?/" + g in S
  }

  /** What a feature of S implies is in S. */
  ghost predicate ObeysFeatureMap(crate: Crate, S: set<string>) {
    forall f, g :: f in S && f in crate.features && g in crate.features[f] ==> g in S
  }

  /** The names of the optional dependencies that S turns on are in S. */
  ghost predicate ObeysOptional(crate: Crate, S: set<string>) {
    forall d, n :: d in crate.dependencies && d.optional && IsCalled(d, n) && TurnsOn(S, n) ==> n in S
  }

  /** The assignment obeys every rule of every package in it. */
  ghost predicate ObeysRules(run: Run, A: Assignment) {
    && A.Keys <= run.crateConfigs.Keys
    && (forall p :: p in A ==> ObeysFeatureMap(run.crateConfigs[p], A[p]) && ObeysOptional(run.crateConfigs[p], A[p]))
    && (forall p, d, n :: p in A && Uses(run, p, A[p], d, n) ==> d.packageId in A)
    && (forall p, d, n, g :: p in A && Uses(run, p, A[p], d, n) && Wants(A[p], d, n, g) ==>
          d.packageId in A && g in A[d.packageId])
  }

  lemma {:induction false} TurnsOnTriggers(S: set<string>, d: Dependency)
    ensures Triggered(S, d) <==> TurnsOn(S, d.Alias())
  {
    var n := d.Alias();
    assert n in S ==> DoesFeatureEnableDependency(d, n);
    assert "dep:" + n in S ==> DoesFeatureEnableDependency(d, "dep:" + n);
  }

  lemma {:induction false} UsesIsActive(run: Run, p: string, S: set<string>, d: Dependency)
    requires p in run.crateConfigs
    ensures Uses(run, p, S, d, d.Alias()) <==> IsEdge(run, p, d) && Active(run, S, d)
  {
    TurnsOnTriggers(S, d);
  }

  lemma {:induction false} WantsIsAsks(S: set<string>, d: Dependency, g: string)
    ensures Wants(S, d, d.Alias(), g) <==> Asks(S, d, g)
  {
  }

  lemma {:induction false} ObeysLocally(crate: Crate, S: set<string>)
    ensures LocallyClosed(crate, S) <==> ObeysFeatureMap(crate, S) && ObeysOptional(crate, S)
  {
    forall d { TurnsOnTriggers(S, d); }
    assert ClosedUnder(crate.features, S) <==> ObeysFeatureMap(crate, S);
  }

  /** The closed assignments are exactly those that obey the rules. */
  lemma {:induction false} ClosedExactlyWhenObeying(run: Run, A: Assignment)
    ensures ObeysRules(run, A) <==> ClosedAssignment(run, A)
  {
    if ObeysRules(run, A) {
      forall p | p in A
        ensures p in run.crateConfigs && LocallyClosed(run.crateConfigs[p], A[p])
        ensures forall d :: IsEdge(run, p, d) ==> EdgeHolds(run, A, p, d)
      {
        ObeysLocally(run.crateConfigs[p], A[p]);
        forall d | IsEdge(run, p, d) ensures EdgeHolds(run, A, p, d) {
          UsesIsActive(run, p, A[p], d);
          forall g { WantsIsAsks(A[p], d, g); }
        }
      }
    }
    if ClosedAssignment(run, A) {
      ClosedObeys(run, A);
    }
  }

  lemma {:induction false} ClosedObeys(run: Run, A: Assignment)
    requires ClosedAssignment(run, A)
    ensures ObeysRules(run, A)
  {
    forall p | p in A
      ensures p in run.crateConfigs
      ensures ObeysFeatureMap(run.crateConfigs[p], A[p]) && ObeysOptional(run.crateConfigs[p], A[p])
    {
      ObeysLocally(run.crateConfigs[p], A[p]);
    }
    forall p, d, n | p in A && Uses(run, p, A[p], d, n)
      ensures d.packageId in A && forall g :: Wants(A[p], d, n, g) ==> g in A[d.packageId]
    {
      UsesIsActive(run, p, A[p], d);
      assert EdgeHolds(run, A, p, d);
      forall g { WantsIsAsks(A[p], d, g); }
    }
  }

  /******* The result, rule by rule *******/

  /** Nothing is in the result that the rules do not force: it lies below every assignment that obeys them. */
  lemma {:induction false} ResultIsForced(run: Run, features: seq<string>, A: Assignment)
    requires WellFormed(run) && run.rootPackageId in run.crateConfigs
    requires ObeysRules(run, A) && run.rootPackageId in A && forall f :: f in features ==> f in A[run.rootPackageId]
    ensures var final := MergePackageFeatures(run, features);
            forall p :: p in final ==> p in A && forall g :: g in final[p] ==> g in A[p]
  {
    var final := MergePackageFeatures(run, features);
    ClosedExactlyWhenObeying(run, A);
    ResolutionIsSound(run, features, A);
    forall p | p in final ensures p in A && forall g :: g in final[p] ==> g in A[p] {
      assert p in AssignmentOf(final) && AssignmentOf(final)[p] <= A[p];
      assert forall g :: g in final[p] ==> g in Elems(final[p]);
    }
  }

  /** A dependency on the target, called by its new name r, or by its own name r if it has no other: when it is not
      optional, or when a feature of the result turns it on, its package is in the result with the default feature it
      uses, the features it lists, and those that the crate's features send to r. */
  lemma {:induction false} EdgesOfResult(run: Run, features: seq<string>, p: string, d: Dependency, r: string)
    requires WellFormed(run) && run.rootPackageId in run.crateConfigs
    requires p in MergePackageFeatures(run, features) && p in run.crateConfigs
    requires || d in run.crateConfigs[p].dependencies
             || d in run.crateConfigs[p].buildDependencies
             || (run.runTests && p == run.rootPackageId && d in run.crateConfigs[p].devDependencies)
    requires d.rename == Some(r) || (d.rename == None && d.name == r)
    requires d.target.Some? ==> d.target.value(run.target)
    requires var S := MergePackageFeatures(run, features)[p];
             !d.optional || r in S || "dep:" + r in S || exists x :: r + "/" + x in S
    ensures var final := MergePackageFeatures(run, features);
            && d.packageId in final
            && (d.usesDefaultFeatures ==> "default" in final[d.packageId])
            && (forall g :: g in d.features ==> g in final[d.packageId])
            && (forall g :: r + "/" + g in final[p] || r + "?/" + g in final[p] ==> g in final[d.packageId])
  {
    var final := MergePackageFeatures(run, features);
    EveryEdgeIsSatisfied(run, features);
    var S := Elems(final[p]);
    if x :| r + "/" + x in final[p] {
      assert r + "/" + x in S && r + "/" <= r + "/" + x;
    }
    assert TurnsOn(S, r) || !d.optional;
    assert Uses(run, p, S, d, d.Alias());
    UsesIsActive(run, p, S, d);
    assert Granted(final, S, d);
    forall g | Wants(S, d, r, g) ensures g in final[d.packageId] {
      WantsIsAsks(S, d, g);
      assert g in Elems(final[d.packageId]);
    }
    assert d.usesDefaultFeatures ==> Wants(S, d, r, "default");
    assert forall g :: g in d.features ==> Wants(S, d, r, g);
    assert forall g :: r + "/" + g in final[p] || r + "?/" + g in final[p] ==> Wants(S, d, r, g);
  }

  lemma {:induction false} NamesArePlain(crate: Crate)
    requires forall d, n :: d in crate.dependencies && IsCalled(d, n) ==> '/' !in n && !("dep:" <= n)
    ensures PlainNames(crate)
  {
    forall d | d in crate.dependencies ensures IsPlain(d.Alias()) {
      assert IsCalled(d, d.Alias());
    }
  }

  /** What a feature implies is there too, unless the feature is the name of an optional dependency. */
  lemma {:induction false} ImpliedByStep(crate: Crate, fs: seq<string>, f: string, g: string)
    requires f in Elems(EnabledFeatures(crate, fs)) && f in crate.features && g in crate.features[f]
    ensures || g in Elems(EnabledFeatures(crate, fs))
            || exists d :: d in crate.dependencies && d.optional && IsCalled(d, f)
  {
    StepImplies(crate, fs, f, g);
    if d :| d in crate.dependencies && d.optional && d.Alias() == f {
      assert IsCalled(d, f);
    }
  }

  lemma {:induction false} OptionalOfStep(crate: Crate, fs: seq<string>)
    requires PlainNames(crate)
    ensures ObeysOptional(crate, Elems(EnabledFeatures(crate, fs)))
  {
    var S := Elems(EnabledFeatures(crate, fs));
    StepIsTriggerClosed(crate, fs);
    forall d, n | d in crate.dependencies && d.optional && IsCalled(d, n) && TurnsOn(S, n) ensures n in S {
      TurnsOnTriggers(S, d);
    }
  }

  /** In a package of the result, what a feature implies is a feature too, unless the feature is the name of an
      optional dependency. */
  lemma {:induction false} ExpandedInResult(run: Run, features: seq<string>, p: string, f: string, g: string)
    requires WellFormed(run) && run.rootPackageId in run.crateConfigs
    requires p in MergePackageFeatures(run, features) && p in run.crateConfigs
    requires f in MergePackageFeatures(run, features)[p]
    requires f in run.crateConfigs[p].features && g in run.crateConfigs[p].features[f]
    requires forall d :: d in run.crateConfigs[p].dependencies && d.optional ==> !IsCalled(d, f)
    ensures g in MergePackageFeatures(run, features)[p]
  {
    var final := MergePackageFeatures(run, features);
    ResultIsOfSteps(run, features);
    assert StepOutcomeAt(run, final, p);
    var fs :| Elems(final[p]) == Elems(EnabledFeatures(run.crateConfigs[p], fs));
    assert f in Elems(final[p]);
    ImpliedByStep(run.crateConfigs[p], fs, f, g);
    assert g in Elems(final[p]);
  }

  /** In a package of the result, an optional dependency that a feature turns on has its name among the features. */
  lemma {:induction false} OptionalInResult(run: Run, features: seq<string>, p: string)
    requires WellFormed(run) && run.rootPackageId in run.crateConfigs
    requires p in MergePackageFeatures(run, features) && p in run.crateConfigs
    requires forall d, n :: d in run.crateConfigs[p].dependencies && IsCalled(d, n) ==> '/' !in n && !("dep:" <= n)
    ensures ObeysOptional(run.crateConfigs[p], Elems(MergePackageFeatures(run, features)[p]))
  {
    var final := MergePackageFeatures(run, features);
    ResultIsOfSteps(run, features);
    assert StepOutcomeAt(run, final, p);
    var fs :| Elems(final[p]) == Elems(EnabledFeatures(run.crateConfigs[p], fs));
    NamesArePlain(run.crateConfigs[p]);
    OptionalOfStep(run.crateConfigs[p], fs);
  }

  /** The result obeys all rules, and is then the least assignment that does, exactly when no feature in it was left
      unexpanded. */
  lemma {:induction false} ObeyingExactlyWhenExpanded(run: Run, features: seq<string>)
    requires WellFormed(run) && run.rootPackageId in run.crateConfigs && AllPlain(run)
    ensures var final := MergePackageFeatures(run, features);
            ObeysRules(run, AssignmentOf(final)) <==>
            forall p :: p in final ==> p in run.crateConfigs && ObeysFeatureMap(run.crateConfigs[p], Elems(final[p]))
  {
    var final := MergePackageFeatures(run, features);
    var A := AssignmentOf(final);
    LeastExactlyWhenExpanded(run, features);
    ClosedExactlyWhenObeying(run, A);
    ExpandedByFeatureMap(run, final);
    if ObeysRules(run, A) {
      forall p | p in final ensures p in run.crateConfigs && ObeysFeatureMap(run.crateConfigs[p], Elems(final[p])) {
        assert p in A;
      }
    }
  }

  lemma {:induction false} ExpandedByFeatureMap(run: Run, cache: Cache)
    ensures AllExpanded(run, cache) <==>
            forall p :: p in cache ==> p in run.crateConfigs && ObeysFeatureMap(run.crateConfigs[p], Elems(cache[p]))
  {
    forall p | p in cache && p in run.crateConfigs
      ensures ClosedUnder(run.crateConfigs[p].features, Elems(cache[p]))
              <==> ObeysFeatureMap(run.crateConfigs[p], Elems(cache[p]))
    {
    }
  }
}
