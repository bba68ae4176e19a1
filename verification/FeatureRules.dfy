/** The per-crate rules of the feature resolver: expanding features, enabling optional dependencies,
    and the features one crate asks of another. Absent attributes of a crate or dependency are
    represented by the defaults the resolver itself falls back to. */
module FeatureRules {
  import opened Strings
  import opened Wrappers

  /** What a `target` condition may inspect. */
  datatype Platform = Platform(name: string, attributes: map<string, string>)

  datatype Dependency = Dependency(
    name: string,
    rename: Option<string>,
    packageId: string,
    optional: bool,
    usesDefaultFeatures: bool,
    features: seq<string>,
    target: Option<Platform -> bool>)
  {
    /** The name features use for this dependency. */
    function Alias(): string {
      if rename.Some? then rename.value else name
    }
  }

  datatype Crate = Crate(
    features: map<string, seq<string>>,
    dependencies: seq<Dependency>,
    devDependencies: seq<Dependency>,
    buildDependencies: seq<Dependency>)

  /******* Canonical feature lists *******/

  /** `attrNames` of the attribute set with one attribute per feature. */
  function AttrNames(features: seq<string>): (r: seq<string>)
    ensures Elems(r) == Elems(features)
  {
    if features == [] then []
    else
      var last := |features| - 1;
      assert features == features[..last] + [features[last]];
      Insert(AttrNames(features[..last]), features[last])
  }

  /** Insertion sort by `<`. */
  function Sort(features: seq<string>): seq<string> {
    if features == [] then [] else InsertSorted(features[0], Sort(features[1..]))
  }

  function InsertSorted(feature: string, sorted: seq<string>): seq<string> {
    if sorted == [] || !Less(sorted[0], feature) then [feature] + sorted
    else [sorted[0]] + InsertSorted(feature, sorted[1..])
  }

  function SortedUnique(features: seq<string>): seq<string> {
    Sort(AttrNames(features))
  }

  lemma {:induction false} AttrNamesAscending(features: seq<string>)
    ensures Ascending(AttrNames(features))
  {
    if features != [] {
      var last := |features| - 1;
      AttrNamesAscending(features[..last]);
      InsertAscending(AttrNames(features[..last]), features[last]);
    }
  }

  lemma {:induction false} SortOfAscending(s: seq<string>)
    requires Ascending(s)
    ensures Sort(s) == s
  {
    if s != [] {
      SortOfAscending(s[1..]);
      if |s| > 1 {
        if Less(s[1], s[0]) {
          LessTransitive(s[0], s[1], s[0]);
          LessIrreflexive(s[0]);
        }
      }
    }
  }

  /** The canonical form of a feature list: same features, strictly ascending, so no duplicates. */
  lemma SortedUniqueCanonical(features: seq<string>)
    ensures Ascending(SortedUnique(features))
    ensures Elems(SortedUnique(features)) == Elems(features)
  {
    AttrNamesAscending(features);
    SortOfAscending(AttrNames(features));
  }

  /** Comparing canonical lists with list equality decides whether the feature sets are equal. */
  lemma SortedUniqueDecidesEquality(s: seq<string>, t: seq<string>)
    ensures SortedUnique(s) == SortedUnique(t) <==> Elems(s) == Elems(t)
    ensures Ascending(t) ==> (SortedUnique(s) == t <==> Elems(s) == Elems(t))
  {
    SortedUniqueCanonical(s);
    SortedUniqueCanonical(t);
    if Elems(s) == Elems(t) {
      AscendingUnique(SortedUnique(s), SortedUnique(t));
      if Ascending(t) {
        AscendingUnique(SortedUnique(s), t);
      }
    }
  }

  /******* Expanding features *******/

  /** The features that selecting `feature` enables directly. */
  function Implied(featureMap: map<string, seq<string>>, feature: string): seq<string> {
    if feature in featureMap then featureMap[feature] else []
  }

  function Unseen(seen: set<string>, features: seq<string>): (r: seq<string>)
    ensures Elems(r) == Elems(features) - seen
  {
    if features == [] then []
    else
      var rest := Unseen(seen, features[1..]);
      ElemsHeadTail(features);
      if features[0] in seen then rest
      else
        ElemsConcat([features[0]], rest);
        [features[0]] + rest
  }

  /** Works off the queue `pending`; `oldSeen` holds the features already expanded. */
  function ExpandFeaturesNoCycle(featureMap: map<string, seq<string>>, oldSeen: set<string>, pending: seq<string>)
    : seq<string>
    decreases NotYetSeen(featureMap, oldSeen, pending), RepeatCount(oldSeen, pending)
  {
    if pending == [] then []
    else
      var feature := pending[0];
      var seen := oldSeen + {feature};
      var enables := Unseen(seen, Implied(featureMap, feature));
      ExpansionMeasureDecreases(featureMap, oldSeen, pending);
      [feature] + ExpandFeaturesNoCycle(featureMap, seen, pending[1..] + enables)
  }

  function ExpandFeatures(featureMap: map<string, seq<string>>, inputFeatures: seq<string>): seq<string> {
    SortedUnique(ExpandFeaturesNoCycle(featureMap, {}, inputFeatures))
  }

  /** Features that may still be expanded for the first time. */
  ghost function NotYetSeen(
      featureMap: map<string, seq<string>>, seen: set<string>, pending: seq<string>): set<string> {
    Elems(pending) + (set k, f | k in featureMap && f in featureMap[k] :: f) - seen
  }

  /** Queued items that will be reprocessed although they were expanded before. */
  ghost function RepeatCount(seen: set<string>, pending: seq<string>): nat {
    if pending == [] then 0
    else (if pending[0] in seen then 1 else 0) + RepeatCount(seen, pending[1..])
  }

  lemma {:induction false} RepeatCountOfUnseen(seen: set<string>, pending: seq<string>, added: seq<string>)
    requires Elems(added) !! seen
    ensures RepeatCount(seen, pending + added) == RepeatCount(seen, pending)
  {
    if pending != [] {
      RepeatCountOfUnseen(seen, pending[1..], added);
      assert (pending + added)[1..] == pending[1..] + added;
    } else if added != [] {
      assert added[0] in Elems(added);
      ElemsHeadTail(added);
      RepeatCountOfUnseen(seen, [], added[1..]);
      assert [] + added == added && [] + added[1..] == added[1..];
    }
  }

  /** Each round expands a new feature, or drops one repeated item from the queue and adds none. */
  lemma ExpansionMeasureDecreases(featureMap: map<string, seq<string>>, oldSeen: set<string>, pending: seq<string>)
    requires pending != []
    ensures var feature := pending[0];
            var seen := oldSeen + {feature};
            var queue := pending[1..] + Unseen(seen, Implied(featureMap, feature));
            || NotYetSeen(featureMap, seen, queue) < NotYetSeen(featureMap, oldSeen, pending)
            || (NotYetSeen(featureMap, seen, queue) == NotYetSeen(featureMap, oldSeen, pending)
                && RepeatCount(seen, queue) < RepeatCount(oldSeen, pending))
  {
    var feature := pending[0];
    var seen := oldSeen + {feature};
    var enables := Unseen(seen, Implied(featureMap, feature));
    ElemsHeadTail(pending);
    ElemsConcat(pending[1..], enables);
    var before, after := NotYetSeen(featureMap, oldSeen, pending), NotYetSeen(featureMap, seen, pending[1..] + enables);
    assert after <= before;
    if feature in oldSeen {
      assert seen == oldSeen;
      RepeatCountOfUnseen(seen, pending[1..], enables);
    } else {
      assert feature in before && feature !in after;
    }
  }

  ghost predicate ClosedUnder(featureMap: map<string, seq<string>>, S: set<string>) {
    forall f, g :: f in S && g in Implied(featureMap, f) ==> g in S
  }

  /** Everything emitted lies in every closed set that contains the queue. */
  lemma {:induction false} ExpansionBelow(
      featureMap: map<string, seq<string>>, seen: set<string>, pending: seq<string>, S: set<string>)
    requires ClosedUnder(featureMap, S) && Elems(pending) <= S
    ensures Elems(ExpandFeaturesNoCycle(featureMap, seen, pending)) <= S
    decreases NotYetSeen(featureMap, seen, pending), RepeatCount(seen, pending)
  {
    if pending != [] {
      var feature := pending[0];
      var queue := pending[1..] + Unseen(seen + {feature}, Implied(featureMap, feature));
      ElemsHeadTail(pending);
      ElemsConcat(pending[1..], Unseen(seen + {feature}, Implied(featureMap, feature)));
      forall g | g in Elems(queue) ensures g in S {
      }
      ExpansionMeasureDecreases(featureMap, seen, pending);
      ExpansionBelow(featureMap, seen + {feature}, queue, S);
      ElemsConcat([feature], ExpandFeaturesNoCycle(featureMap, seen + {feature}, queue));
    }
  }

  /** Nothing queued is lost, and together with what was seen before the output is closed. */
  lemma {:induction false} ExpansionCloses(
      featureMap: map<string, seq<string>>, seen: set<string>, pending: seq<string>)
    requires forall f, g :: f in seen && g in Implied(featureMap, f) ==> g in seen || g in pending
    ensures Elems(pending) <= Elems(ExpandFeaturesNoCycle(featureMap, seen, pending))
    ensures ClosedUnder(featureMap, seen + Elems(ExpandFeaturesNoCycle(featureMap, seen, pending)))
    decreases NotYetSeen(featureMap, seen, pending), RepeatCount(seen, pending)
  {
    if pending == [] {
      assert seen + Elems<string>([]) == seen;
    } else {
      var feature := pending[0];
      var seen' := seen + {feature};
      var enables := Unseen(seen', Implied(featureMap, feature));
      var queue := pending[1..] + enables;
      var rest := ExpandFeaturesNoCycle(featureMap, seen', queue);
      ElemsHeadTail(pending);
      ElemsConcat(pending[1..], enables);
      forall f, g | f in seen' && g in Implied(featureMap, f) ensures g in seen' || g in queue {
        assert f == feature ==> g in Elems(Implied(featureMap, feature));
        assert f != feature ==> g in seen || g in Elems(pending);
        assert g in seen' || g in Elems(pending[1..]) || g in Elems(enables);
      }
      ExpansionMeasureDecreases(featureMap, seen, pending);
      ExpansionCloses(featureMap, seen', queue);
      ElemsConcat([feature], rest);
      assert seen + Elems([feature] + rest) == seen' + Elems(rest);
    }
  }

  /** A chain that starts at an input and follows the feature map. */
  ghost predicate IsChain(featureMap: map<string, seq<string>>, inputs: seq<string>, chain: seq<string>) {
    && chain != []
    && chain[0] in inputs
    && forall i :: 0 < i < |chain| ==> chain[i] in Implied(featureMap, chain[i - 1])
  }

  ghost predicate Reachable(featureMap: map<string, seq<string>>, inputs: seq<string>, feature: string) {
    exists chain :: IsChain(featureMap, inputs, chain) && chain[|chain| - 1] == feature
  }

  /** ExpandFeatures is the least closed set above its inputs. */
  lemma ExpandFeaturesLeast(featureMap: map<string, seq<string>>, inputs: seq<string>)
    ensures Elems(inputs) <= Elems(ExpandFeatures(featureMap, inputs))
    ensures ClosedUnder(featureMap, Elems(ExpandFeatures(featureMap, inputs)))
    ensures forall S :: ClosedUnder(featureMap, S) && Elems(inputs) <= S ==>
              Elems(ExpandFeatures(featureMap, inputs)) <= S
  {
    var out := ExpandFeaturesNoCycle(featureMap, {}, inputs);
    SortedUniqueCanonical(out);
    ExpansionCloses(featureMap, {}, inputs);
    assert {} + Elems(out) == Elems(out);
    forall S | ClosedUnder(featureMap, S) && Elems(inputs) <= S ensures Elems(out) <= S {
      ExpansionBelow(featureMap, {}, inputs, S);
    }
  }

  lemma {:induction false} ChainStaysInside(
      featureMap: map<string, seq<string>>, inputs: seq<string>, chain: seq<string>, S: set<string>)
    requires IsChain(featureMap, inputs, chain)
    requires ClosedUnder(featureMap, S) && Elems(inputs) <= S
    ensures chain[|chain| - 1] in S
  {
    var last := |chain| - 1;
    if last == 0 {
      assert chain[0] in Elems(inputs);
    } else {
      ChainStaysInside(featureMap, inputs, chain[..last], S);
      assert chain[last] in Implied(featureMap, chain[last - 1]);
    }
  }

  lemma ReachableStep(featureMap: map<string, seq<string>>, inputs: seq<string>, f: string, g: string)
    requires Reachable(featureMap, inputs, f) && g in Implied(featureMap, f)
    ensures Reachable(featureMap, inputs, g)
  {
    var chain :| IsChain(featureMap, inputs, chain) && chain[|chain| - 1] == f;
    var longer := chain + [g];
    assert IsChain(featureMap, inputs, longer) && longer[|longer| - 1] == g;
  }

  lemma ReachableStart(featureMap: map<string, seq<string>>, inputs: seq<string>, f: string)
    requires f in inputs
    ensures Reachable(featureMap, inputs, f)
  {
    var chain := [f];
    assert IsChain(featureMap, inputs, chain) && chain[|chain| - 1] == f;
  }

  /** For every feature map, cyclic or not, expansion yields exactly the reachable features. */
  lemma ExpandFeaturesIsReachability(featureMap: map<string, seq<string>>, inputs: seq<string>, feature: string)
    ensures feature in ExpandFeatures(featureMap, inputs) <==> Reachable(featureMap, inputs, feature)
  {
    var out := Elems(ExpandFeatures(featureMap, inputs));
    ExpandFeaturesLeast(featureMap, inputs);
    if Reachable(featureMap, inputs, feature) {
      var chain :| IsChain(featureMap, inputs, chain) && chain[|chain| - 1] == feature;
      ChainStaysInside(featureMap, inputs, chain, out);
    } else {
      ReachableAll(featureMap, inputs, out);
    }
  }

  lemma ReachableAll(featureMap: map<string, seq<string>>, inputs: seq<string>, out: set<string>)
    requires out == Elems(ExpandFeatures(featureMap, inputs))
    ensures forall f :: f in out ==> Reachable(featureMap, inputs, f)
  {
    ExpandFeaturesLeast(featureMap, inputs);
    var S := set f | f in out && Reachable(featureMap, inputs, f);
    forall f | f in Elems(inputs) ensures f in S {
      ReachableStart(featureMap, inputs, f);
    }
    forall f, g | f in S && g in Implied(featureMap, f) ensures g in S {
      ReachableStep(featureMap, inputs, f, g);
    }
    assert ClosedUnder(featureMap, S) && out <= S;
  }

  /******* Optional dependencies *******/

  predicate DoesFeatureEnableDependency(dependency: Dependency, feature: string) {
    var name := dependency.Alias();
    feature == name || feature == "dep:" + name || name + "/" <= feature
  }

  predicate AnyEnables(dependency: Dependency, features: seq<string>)
    ensures AnyEnables(dependency, features) <==>
            exists f :: f in features && DoesFeatureEnableDependency(dependency, f)
  {
    features != []
    && (ElemsHeadTail(features);
        assert forall f :: f in features <==> f in Elems(features);
        DoesFeatureEnableDependency(dependency, features[0]) || AnyEnables(dependency, features[1..]))
  }

  function AdditionalFeatures(dependencies: seq<Dependency>, features: seq<string>): (r: seq<string>)
  {
    if dependencies == [] then []
    else
      var dependency := dependencies[0];
      (if dependency.optional && AnyEnables(dependency, features) then [dependency.Alias()] else [])
      + AdditionalFeatures(dependencies[1..], features)
  }

  function EnableFeatures(dependencies: seq<Dependency>, features: seq<string>): seq<string> {
    SortedUnique(features + AdditionalFeatures(dependencies, features))
  }

  /** Some feature in S turns the dependency on. */
  ghost predicate Triggered(S: set<string>, dependency: Dependency) {
    exists f :: f in S && DoesFeatureEnableDependency(dependency, f)
  }

  lemma {:induction false} AdditionalFeaturesMeaning(dependencies: seq<Dependency>, features: seq<string>, name: string)
    ensures name in AdditionalFeatures(dependencies, features) <==>
            exists d :: d in dependencies && d.optional && d.Alias() == name && Triggered(Elems(features), d)
  {
    if dependencies != [] {
      var d0 := dependencies[0];
      AdditionalFeaturesMeaning(dependencies[1..], features, name);
      assert dependencies == [d0] + dependencies[1..];
      assert AnyEnables(d0, features) <==> Triggered(Elems(features), d0);
    }
  }

  /******* Features across an edge *******/

  function StripPrefixMatch(prefix: string, s: string): Option<string> {
    if prefix <= s then Some(s[|prefix|..]) else None
  }

  function ExtractFeature(name: string, feature: string): Option<string> {
    var strong := StripPrefixMatch(name + "/", feature);
    if strong.Some? then strong else StripPrefixMatch(name + "?/", feature)
  }

  function AdditionalDependencyFeatures(name: string, features: seq<string>): seq<string> {
    if features == [] then []
    else
      var extracted := ExtractFeature(name, features[0]);
      (if extracted.Some? then [extracted.value] else []) + AdditionalDependencyFeatures(name, features[1..])
  }

  function DependencyFeatures(features: seq<string>, dependency: Dependency): seq<string> {
    (if dependency.usesDefaultFeatures then ["default"] else [])
    + dependency.features
    + AdditionalDependencyFeatures(dependency.Alias(), features)
  }

  /** A crate with features S asks for feature g of this dependency. */
  ghost predicate Asks(S: set<string>, dependency: Dependency, g: string) {
    || (dependency.usesDefaultFeatures && g == "default")
    || g in dependency.features
    || dependency.Alias() + "/" + g in S
    || dependency.Alias() + "?/" + g in S
  }

  lemma ExtractFeatureMeaning(name: string, feature: string, g: string)
    ensures ExtractFeature(name, feature) == Some(g) <==> feature == name + "/" + g || feature == name + "?/" + g
  {
    if feature == name + "/" + g {
      assert name + "/" <= feature && feature[|name + "/"|..] == g;
    } else if feature == name + "?/" + g {
      assert feature[|name|] == '?' && (name + "/")[|name|] == '/';
      assert name + "?/" <= feature && feature[|name + "?/"|..] == g;
    } else if name + "/" <= feature {
      assert feature == name + "/" + feature[|name + "/"|..];
    } else if name + "?/" <= feature {
      assert feature == name + "?/" + feature[|name + "?/"|..];
    }
  }

  /** DependencyFeatures sends exactly what the feature set asks for, in whatever order it is listed. */
  lemma DependencyFeaturesMeaning(features: seq<string>, dependency: Dependency, g: string)
    ensures g in DependencyFeatures(features, dependency) <==> Asks(Elems(features), dependency, g)
  {
    AdditionalDependencyFeaturesMeaning(dependency.Alias(), features, g);
  }

  lemma {:induction false} AdditionalDependencyFeaturesMeaning(name: string, features: seq<string>, g: string)
    ensures g in AdditionalDependencyFeatures(name, features) <==>
            name + "/" + g in Elems(features) || name + "?/" + g in Elems(features)
  {
    if features != [] {
      ExtractFeatureMeaning(name, features[0], g);
      AdditionalDependencyFeaturesMeaning(name, features[1..], g);
      ElemsHeadTail(features);
    }
  }

  /******* One crate's step *******/

  /** The features a crate ends up with when it is asked for `features`: expansion first, then enabling. */
  function EnabledFeatures(crate: Crate, features: seq<string>): seq<string> {
    EnableFeatures(crate.dependencies, ExpandFeatures(crate.features, features))
  }

  lemma EnabledFeaturesCanonical(crate: Crate, features: seq<string>)
    ensures Ascending(EnabledFeatures(crate, features))
    ensures Elems(features) <= Elems(EnabledFeatures(crate, features))
  {
    var X := ExpandFeatures(crate.features, features);
    ExpandFeaturesLeast(crate.features, features);
    SortedUniqueCanonical(X + AdditionalFeatures(crate.dependencies, X));
    ElemsConcat(X, AdditionalFeatures(crate.dependencies, X));
  }

  /** The step adds, to the expanded features, just the aliases of optional dependencies these trigger. */
  lemma EnabledFeaturesMeaning(crate: Crate, features: seq<string>, g: string)
    ensures g in Elems(EnabledFeatures(crate, features)) <==>
            || g in Elems(ExpandFeatures(crate.features, features))
            || exists d :: d in crate.dependencies && d.optional && d.Alias() == g
                           && Triggered(Elems(ExpandFeatures(crate.features, features)), d)
  {
    var X := ExpandFeatures(crate.features, features);
    SortedUniqueCanonical(X + AdditionalFeatures(crate.dependencies, X));
    ElemsConcat(X, AdditionalFeatures(crate.dependencies, X));
    AdditionalFeaturesMeaning(crate.dependencies, X, g);
  }

  /** Closed under the crate's own rules: its feature map and its optional dependencies. */
  ghost predicate LocallyClosed(crate: Crate, S: set<string>) {
    && ClosedUnder(crate.features, S)
    && forall d :: d in crate.dependencies && d.optional && Triggered(S, d) ==> d.Alias() in S
  }

  /** The step stays below every locally closed set above its input. */
  lemma EnabledFeaturesBelow(crate: Crate, features: seq<string>, S: set<string>)
    requires LocallyClosed(crate, S) && Elems(features) <= S
    ensures Elems(EnabledFeatures(crate, features)) <= S
  {
    ExpandFeaturesLeast(crate.features, features);
    forall g | g in Elems(EnabledFeatures(crate, features)) ensures g in S {
      EnabledFeaturesMeaning(crate, features, g);
    }
  }

  /** A name as Cargo allows it: no slash, and no `dep:` prefix. */
  ghost predicate IsPlain(name: string) {
    '/' !in name && !("dep:" <= name)
  }

  ghost predicate PlainNames(crate: Crate) {
    forall d :: d in crate.dependencies ==> IsPlain(d.Alias())
  }

  /** An optional dependency's alias implies no feature but itself. */
  ghost predicate SelfContained(crate: Crate) {
    forall d, g :: d in crate.dependencies && d.optional && g in Implied(crate.features, d.Alias()) ==> g == d.Alias()
  }

  lemma {:induction false} PlainAliasTriggersOnlyItself(d: Dependency, alias: string)
    requires IsPlain(alias) && DoesFeatureEnableDependency(d, alias)
    ensures alias == d.Alias()
  {
    if d.Alias() + "/" <= alias {
      HasSlash(d.Alias(), alias);
    }
  }

  /** A step leaves no optional dependency triggered without its alias, whatever the aliases imply. */
  lemma {:induction false} StepIsTriggerClosed(crate: Crate, features: seq<string>)
    requires PlainNames(crate)
    ensures var E := Elems(EnabledFeatures(crate, features));
            forall d :: d in crate.dependencies && d.optional && Triggered(E, d) ==> d.Alias() in E
  {
    var X, E := Elems(ExpandFeatures(crate.features, features)), Elems(EnabledFeatures(crate, features));
    forall g { EnabledFeaturesMeaning(crate, features, g); }
    forall d | d in crate.dependencies && d.optional && Triggered(E, d) ensures d.Alias() in E {
      var f :| f in E && DoesFeatureEnableDependency(d, f);
      if f in X {
        assert Triggered(X, d);
      } else {
        PlainAliasTriggersOnlyItself(d, f);
      }
    }
  }

  /** What a feature of a step's outcome implies is in the outcome too, unless it is the alias of a dependency. */
  lemma {:induction false} StepImplies(crate: Crate, features: seq<string>, f: string, g: string)
    requires f in Elems(EnabledFeatures(crate, features)) && g in Implied(crate.features, f)
    ensures || g in Elems(EnabledFeatures(crate, features))
            || exists d :: d in crate.dependencies && d.optional && d.Alias() == f
  {
    ExpandFeaturesLeast(crate.features, features);
    EnabledFeaturesMeaning(crate, features, f);
    EnabledFeaturesMeaning(crate, features, g);
  }

  lemma {:induction false} StepIsLocallyClosed(crate: Crate, features: seq<string>)
    requires PlainNames(crate) && SelfContained(crate)
    ensures LocallyClosed(crate, Elems(EnabledFeatures(crate, features)))
  {
    var E := Elems(EnabledFeatures(crate, features));
    StepIsTriggerClosed(crate, features);
    forall f, g | f in E && g in Implied(crate.features, f) ensures g in E {
      StepImplies(crate, features, f, g);
    }
  }

  /******* Markers *******/

  /** An optional dependency's alias implies at most itself and its own marker `dep:alias`. */
  ghost predicate MarkersOnly(crate: Crate) {
    forall d, g :: d in crate.dependencies && d.optional && g in Implied(crate.features, d.Alias()) ==>
      g == d.Alias() || g == "dep:" + d.Alias()
  }

  /** Markers imply nothing. */
  ghost predicate MarkersImplyNothing(crate: Crate) {
    forall f :: "dep:" <= f ==> Implied(crate.features, f) == []
  }

  /** S with the markers that the aliases in it imply. */
  ghost function WithMarkers(crate: Crate, S: set<string>): set<string> {
    S + set d | d in crate.dependencies && d.optional && d.Alias() in S
                && "dep:" + d.Alias() in Implied(crate.features, d.Alias()) :: "dep:" + d.Alias()
  }

  ghost predicate IsMarkerOf(f: string, S: set<string>) {
    "dep:" <= f && f[4..] in S && IsPlain(f[4..])
  }

  lemma {:induction false} MarkersMeaning(crate: Crate, S: set<string>, f: string)
    requires PlainNames(crate) && f in WithMarkers(crate, S)
    ensures f in S || IsMarkerOf(f, S)
  {
    if f !in S {
      var d :| d in crate.dependencies && d.Alias() in S && f == "dep:" + d.Alias();
      assert f[4..] == d.Alias();
    }
  }

  /** A marker turns on only the dependency whose alias it marks. */
  lemma {:induction false} MarkerTriggersItsAlias(d: Dependency, f: string, S: set<string>)
    requires IsPlain(d.Alias()) && IsMarkerOf(f, S) && DoesFeatureEnableDependency(d, f)
    ensures d.Alias() in S && DoesFeatureEnableDependency(d, d.Alias())
  {
    MarkerHasNoSlash(f, S);
    if d.Alias() + "/" <= f {
      HasSlash(d.Alias(), f);
    }
  }

  lemma {:induction false} MarkerHasNoSlash(f: string, S: set<string>)
    requires IsMarkerOf(f, S)
    ensures '/' !in f
  {
    assert f == "dep:" + f[4..];
  }

  /** Markers turn on no dependency that is not on already, and ask nothing of one. */
  lemma {:induction false} MarkersAreIdle(crate: Crate, S: set<string>, d: Dependency)
    requires PlainNames(crate) && IsPlain(d.Alias())
    ensures Triggered(WithMarkers(crate, S), d) ==> Triggered(S, d)
    ensures forall g :: Asks(WithMarkers(crate, S), d, g) ==> Asks(S, d, g)
  {
    var W := WithMarkers(crate, S);
    if Triggered(W, d) {
      var f :| f in W && DoesFeatureEnableDependency(d, f);
      MarkersMeaning(crate, S, f);
      if f !in S {
        MarkerTriggersItsAlias(d, f, S);
      }
    }
    forall f | f in W && '/' in f ensures f in S {
      MarkersMeaning(crate, S, f);
      if IsMarkerOf(f, S) {
        MarkerHasNoSlash(f, S);
      }
    }
    forall g ensures '/' in d.Alias() + "/" + g && '/' in d.Alias() + "?/" + g {
      assert (d.Alias() + "/" + g)[|d.Alias()|] == '/' && (d.Alias() + "?/" + g)[|d.Alias()| + 1] == '/';
    }
  }

  /** A step's outcome with its markers is locally closed, if aliases imply nothing but their markers. */
  lemma {:induction false} StepWithMarkersIsLocallyClosed(crate: Crate, features: seq<string>)
    requires PlainNames(crate) && MarkersOnly(crate) && MarkersImplyNothing(crate)
    ensures LocallyClosed(crate, WithMarkers(crate, Elems(EnabledFeatures(crate, features))))
  {
    var E := Elems(EnabledFeatures(crate, features));
    var W := WithMarkers(crate, E);
    StepIsTriggerClosed(crate, features);
    forall f, g | f in W && g in Implied(crate.features, f) ensures g in W {
      MarkersMeaning(crate, E, f);
      if f in E {
        StepImplies(crate, features, f, g);
      }
    }
    forall d | d in crate.dependencies && d.optional && Triggered(W, d) ensures d.Alias() in W {
      MarkersAreIdle(crate, E, d);
    }
  }

  /** The markers are in every locally closed set above S. */
  lemma {:induction false} WithMarkersBelow(crate: Crate, S: set<string>, B: set<string>)
    requires ClosedUnder(crate.features, B) && S <= B
    ensures WithMarkers(crate, S) <= B
  {
  }

  /******* When the step is closed *******/

  lemma {:induction false} LongerThanAll(strings: set<string>) returns (x: string)
    ensures forall s :: s in strings ==> |s| < |x|
    decreases strings
  {
    if strings == {} {
      x := "";
    } else {
      var s :| s in strings;
      var y := LongerThanAll(strings - {s});
      x := y + s + "x";
    }
  }

  /** Asked for `alias/x` with an `x` nothing else mentions, the crate gets that feature and the alias only. */
  lemma StepOnSlashFeature(crate: Crate, d: Dependency, x: string)
    requires PlainNames(crate) && d in crate.dependencies && d.optional
    requires d.Alias() + "/" + x !in crate.features
    ensures Elems(EnabledFeatures(crate, [d.Alias() + "/" + x])) == {d.Alias(), d.Alias() + "/" + x}
  {
    var n := d.Alias();
    var f := n + "/" + x;
    var X := Elems(ExpandFeatures(crate.features, [f]));
    ExpandFeaturesLeast(crate.features, [f]);
    assert ClosedUnder(crate.features, {f}) && Elems([f]) == {f};
    assert X == {f};
    assert n + "/" <= f;
    assert Triggered(X, d);
    forall d' | d' in crate.dependencies && Triggered(X, d') ensures d'.Alias() == n {
      SlashFeatureTriggers(d', n, x);
    }
    forall g ensures g in Elems(EnabledFeatures(crate, [f])) <==> g == n || g == f {
      EnabledFeaturesMeaning(crate, [f], g);
    }
  }

  lemma SlashFeatureTriggers(d: Dependency, n: string, x: string)
    requires '/' !in n && '/' !in d.Alias()
    requires DoesFeatureEnableDependency(d, n + "/" + x)
    ensures d.Alias() == n
  {
    var m, f := d.Alias(), n + "/" + x;
    assert '/' !in "dep:" + m;
    HasSlash(n, f);
    if m + "/" <= f {
      FirstSlashAt(m, f);
      FirstSlashAt(n, f);
    }
  }

  lemma HasSlash(name: string, f: string)
    requires name + "/" <= f
    ensures '/' in f
  {
    assert f[|name|] == '/';
  }

  function FirstSlash(s: string): nat {
    if s == "" || s[0] == '/' then 0 else 1 + FirstSlash(s[1..])
  }

  lemma {:induction false} FirstSlashAt(name: string, f: string)
    requires '/' !in name && name + "/" <= f
    ensures FirstSlash(f) == |name| && name == f[..FirstSlash(f)]
  {
    if name != "" {
      assert f[0] == name[0];
      assert name[1..] + "/" <= f[1..];
      FirstSlashAt(name[1..], f[1..]);
      assert name == [name[0]] + name[1..] && f == [f[0]] + f[1..];
    }
  }

  /** Asked for `alias/x`, a crate gets that feature and the alias, whatever the alias implies. */
  lemma {:induction false} StepMisses(crate: Crate, d: Dependency, x: string)
    requires PlainNames(crate) && d in crate.dependencies && d.optional
    requires forall k :: k in crate.features ==> |k| < |x|
    ensures Elems(EnabledFeatures(crate, [d.Alias() + "/" + x])) == {d.Alias(), d.Alias() + "/" + x}
    ensures WithMarkers(crate, {d.Alias(), d.Alias() + "/" + x}) <= {d.Alias(), d.Alias() + "/" + x, "dep:" + d.Alias()}
  {
    var f := d.Alias() + "/" + x;
    assert |f| > |x|;
    StepOnSlashFeature(crate, d, x);
    forall d' | d' in crate.dependencies && d'.Alias() in {d.Alias(), f} ensures d'.Alias() == d.Alias() {
      assert IsPlain(d'.Alias());
      HasSlash(d.Alias(), f);
    }
  }

  /** Exactly when every outcome of a crate's step is closed under the crate's own rules. */
  lemma {:induction false} StepClosedExactlyWhen(crate: Crate)
    requires PlainNames(crate)
    ensures (forall features :: LocallyClosed(crate, Elems(EnabledFeatures(crate, features)))) <==> SelfContained(crate)
  {
    if SelfContained(crate) {
      forall features ensures LocallyClosed(crate, Elems(EnabledFeatures(crate, features))) {
        StepIsLocallyClosed(crate, features);
      }
    } else {
      var features := StepNotClosed(crate);
      assert !LocallyClosed(crate, Elems(EnabledFeatures(crate, features)));
    }
  }

  lemma {:induction false} StepNotClosed(crate: Crate) returns (features: seq<string>)
    requires PlainNames(crate) && !SelfContained(crate)
    ensures !LocallyClosed(crate, Elems(EnabledFeatures(crate, features)))
  {
    var d, g :| d in crate.dependencies && d.optional && g in Implied(crate.features, d.Alias()) && g != d.Alias();
    var x := LongerThanAll(crate.features.Keys + {g});
    features := [d.Alias() + "/" + x];
    StepMisses(crate, d, x);
    var E := Elems(EnabledFeatures(crate, features));
    assert |d.Alias() + "/" + x| > |g|;
    assert d.Alias() in E && g !in E;
  }

  /** Exactly when every outcome of a crate's step becomes closed once its markers are added. */
  lemma {:induction false} StepWithMarkersClosedExactlyWhen(crate: Crate)
    requires PlainNames(crate) && MarkersImplyNothing(crate)
    ensures MarkersOnly(crate) <==>
            forall features :: LocallyClosed(crate, WithMarkers(crate, Elems(EnabledFeatures(crate, features))))
  {
    if MarkersOnly(crate) {
      forall features ensures LocallyClosed(crate, WithMarkers(crate, Elems(EnabledFeatures(crate, features)))) {
        StepWithMarkersIsLocallyClosed(crate, features);
      }
    } else {
      var features := StepWithMarkersNotClosed(crate);
      assert !LocallyClosed(crate, WithMarkers(crate, Elems(EnabledFeatures(crate, features))));
    }
  }

  lemma {:induction false} StepWithMarkersNotClosed(crate: Crate) returns (features: seq<string>)
    requires PlainNames(crate) && !MarkersOnly(crate)
    ensures !LocallyClosed(crate, WithMarkers(crate, Elems(EnabledFeatures(crate, features))))
  {
    var d, g :| d in crate.dependencies && d.optional && g in Implied(crate.features, d.Alias())
                && g != d.Alias() && g != "dep:" + d.Alias();
    var x := LongerThanAll(crate.features.Keys + {g});
    features := [d.Alias() + "/" + x];
    StepMisses(crate, d, x);
    assert |d.Alias() + "/" + x| > |g|;
    NotClosed(crate, WithMarkers(crate, Elems(EnabledFeatures(crate, features))), d.Alias(), g);
  }

  lemma {:induction false} NotClosed(crate: Crate, S: set<string>, f: string, g: string)
    requires f in S && g in Implied(crate.features, f) && g !in S
    ensures !LocallyClosed(crate, S)
  {
  }
}
