# Verified models of the hello-world operator repository

Six parts of the repository are modelled here, each in the form its source has, and proved against what the
source promises.

- **The Cargo feature resolver in `Cargo.nix`** (`Strings`, `FeatureRules`, `PackageFeatures`, `FeatureResolution`,
  `ResolverLaws`, `Configurations`, `OrderDependence`). `PackageFeatures.Merge` and `ResolveRequests` are the mutually
  recursive walk: the cache is passed as a value, a package is entered only when its feature list would change, and an
  outer visit goes on with the features it computed at its start. The project proves that the walk terminates on every
  graph, that every entry stays canonical and only grows, that every active edge is satisfied in the end, and that
  nothing is in the result without being forced. `ResolverLaws` states this in terms of the configuration's fields
  (names, renamings, target conditions, lists), and `Configurations` shows which changes of a configuration leave the
  result as it is. The project also settles when the result is the *least* assignment closed under all rules, and when
  the order of dependencies has no effect. Names added by `enableFeatures` are not expanded in the same visit, so
  whether they are expanded at all depends on later visits. On any graph a result is least if and only if no feature
  in it was left unexpanded (`LeastExactlyWhenExpanded`). In advance: on acyclic graphs both leastness
  (`LeastExactlyWhenSelfContained`) and independence of order
  (`OrderDependence.OrderIrrelevantExactlyWhenSelfContained`) hold in general if and only if no optional dependency's
  name implies a feature other than itself. Generated crates do have names that imply their own marker, as in
  `"serde" = [ "dep:serde" ]`; for these the same two equivalences are proved up to markers
  (`MarkedLeastExactlyWhenMarkersOnly`, `OrderIrrelevantUpToMarkersExactlyWhenMarkersOnly`), and the markers are shown
  to turn nothing on. The "if" halves hold on every graph and ask the condition only of crates in the result. On
  cyclic graphs the "only if" halves of the first two are false, by `CyclesCanRepair` and
  `OrderDependence.CyclesCanHideOrder`. `OrderDependence.OrderCanMatter` is an instance, with the shape of a generated
  file, in which two listings of the same dependencies give different features.
- **The release-file rewriter in `scripts/run-tests`** (`Lines`, `ReleaseFile`, `ReleaseSections`, `ReleaseText`). Two
  loops over text lines, proved equal to a recursion over the lines for every file, and on files of product sections
  proved to be "update these versions, then remove these products". The text that is written reads back as the lines
  that were kept.
- **Pod prediction in `crd.rs`** (`Numerals`, `Pods`). The result is independent of the hash map's iteration order,
  sorted, complete, and free of duplicate names. The domain names turn out to be distinct even when names contain
  dots.
- **The reconcile protocol in `controller.rs`** (`Reconcile`, `ReconcileRuns`, `DeployedCluster`). Every call may
  fail, with or without having taken effect. Methods over an API server object are proved to behave as the relation
  `Possible` says and to make their calls in the order of the protocol; the guarantees over all runs are proved about
  that relation, and restated by the fields of the object.
- **The rolling hash in `mvnw`** (`HashString`), in signed 64-bit arithmetic, proved to be Java's `String.hashCode`.
- **The text normaliser `ensure_one_trailing_newline.py`** (`TrailingNewline`), proved equal to a description in terms
  of characters.

Assumptions about code that is not in the repository: `RoleGroupRef::object_name` is `cluster-role-group`, as the
names in `tests/templates/kuttl` show; `ClusterResources::add` applies a resource under the owner's labels and remembers
it; `delete_orphaned_resources` lists the owner's objects and deletes those not remembered, in any order, stopping at
the first error. Names of the service account and role binding are chosen here; only their kinds matter. In the
resolver every dependency's package has a configuration, and an absent attribute is represented by its default.

Check the project with `dafny verify dfyconfig.toml`.

## Model

| member | source | states |
|---|---|---|
| FeatureRules.SortedUniqueCanonical | Cargo.nix:11949-11957 | `sortedUnique` keeps the set of features and makes the list strictly ascending, hence duplicate-free |
| FeatureRules.SortedUniqueDecidesEquality | Cargo.nix:11786-11788 | comparing canonical lists decides equality of feature sets, which is what the cache guard relies on |
| Strings.LessMeaning | Cargo.nix:11957 | strings are ordered by the first character in which they differ, a prefix before the longer string |
| FeatureRules.ExpansionMeasureDecreases | Cargo.nix:11867-11886 | each round expands a feature for the first time or removes one repeated queue item and adds none, so expansion ends on cyclic maps |
| FeatureRules.ExpandFeaturesLeast | Cargo.nix:11862-11889 | expansion is the least set above the inputs that is closed under the feature map |
| FeatureRules.ExpandFeaturesIsReachability | Cargo.nix:11862-11889 | a feature is in the expansion if and only if a chain of the feature map leads to it from an input |
| FeatureRules.AdditionalFeaturesMeaning | Cargo.nix:11845-11912 | the added names are exactly the aliases of optional dependencies that some feature triggers |
| FeatureRules.EnabledFeaturesMeaning | Cargo.nix:11757-11759 | what one visit makes of a crate's features: the expansion and the aliases it triggers, nothing else |
| FeatureRules.ExtractFeatureMeaning | Cargo.nix:11930-11941 | a feature is extracted exactly from `name/feat` and `name?/feat` |
| FeatureRules.DependencyFeaturesMeaning | Cargo.nix:11923-11946 | the features sent along an edge are exactly those the crate's feature set asks for, in any order of listing |
| FeatureRules.StepClosedExactlyWhen | Cargo.nix:11757-11759 | every visit leaves a crate closed under its own rules if and only if no optional alias implies another feature |
| FeatureRules.StepWithMarkersClosedExactlyWhen | Cargo.nix:11757-11759 | with the markers `dep:alias` added, every visit leaves a crate closed if and only if an optional alias implies at most itself and its marker |
| PackageFeatures.RequestsMeaning | Cargo.nix:11760-11778 | the packages visited, with their features, are exactly those of the dependencies that are on the target and enabled |
| PackageFeatures.ReentryGrows | Cargo.nix:11786-11811 | entering a package that the guard lets through makes the cache strictly larger in a finite lattice, so the walk ends |
| PackageFeatures.UniverseExists | Cargo.nix:11930-11944 | the suffixes of all mentioned features form a finite set that no step leaves |
| PackageFeatures.Merge | Cargo.nix:11736-11820 | entries stay canonical, no package or feature is ever lost, and the visited package gets its enabled features |
| PackageFeatures.ResolveRequests | Cargo.nix:11769-11802 | folding requests over the cache keeps entries canonical and never loses a feature |
| FeatureResolution.ResolutionIsSound | Cargo.nix:11736-11820 | the result lies below every assignment with the root's features that is closed under expansion, enabling and active edges |
| FeatureResolution.MergeSettles | Cargo.nix:11769-11820 | after a visit every entry is settled or belongs to a visit still in progress, although entries are read while in progress |
| FeatureResolution.EveryEdgeIsSatisfied | Cargo.nix:11736-11820 | on any graph: each dependency the final features switch on is present with all the features they ask of it |
| ResolverLaws.EdgesOfResult | Cargo.nix:11769-11946 | by fields: a dependency on the target, under its new name if it has one, that is not optional or is turned on by a feature has its package in the result, with default, listed and sent features |
| ResolverLaws.ExpandedInResult | Cargo.nix:11757-11759 | by fields: what a feature in the result implies is in the result, unless the feature is the name of an optional dependency |
| ResolverLaws.OptionalInResult | Cargo.nix:11897-11912 | by fields: an optional dependency that a feature in the result turns on has its name among the features |
| ResolverLaws.ClosedExactlyWhenObeying | Cargo.nix:11736-11946 | the closed assignments, about which the theorems speak, are exactly those that obey the rules as stated by fields |
| ResolverLaws.ResultIsForced | Cargo.nix:11736-11820 | by fields: the result lies below every assignment that contains the requested features and obeys the rules |
| ResolverLaws.ObeyingExactlyWhenExpanded | Cargo.nix:11736-11820 | by fields: the result obeys all rules if and only if no feature in it was left unexpanded |
| Configurations.RenamingIsNaming | Cargo.nix:11845-11946 | a renamed dependency acts in every way as one that has the new name from the start |
| Configurations.ConditionsCanBeEvaluated | Cargo.nix:11823-11842 | the result is that of the configuration with the conditions evaluated: those that hold left out, non-optional dependencies off the target left out |
| Configurations.OffTargetNamesCount | Cargo.nix:11897-11912 | leaving out optional dependencies off the target too changes no visit of a crate if and only if each shares its name with an optional one on the target |
| FeatureResolution.LeastExactlyWhenExpanded | Cargo.nix:11736-11820 | on any graph and for any aliases: the result is the least closed assignment if and only if no entry has a feature left unexpanded |
| FeatureResolution.ResolutionIsLeast | Cargo.nix:11730-11820 | if the optional aliases of the crates in the result imply nothing else, the result is exactly the least closed assignment, on any graph |
| FeatureResolution.OrderDoesNotMatter | Cargo.nix:11730-11735 | under the same condition on one result the order of dependencies and features, on any graph, has no effect on the resulting map |
| FeatureResolution.MarkedResolutionIsLeast | Cargo.nix:11730-11820 | on any graph: if the aliases in the resulting crates imply at most their markers, the result with these markers is the least closed assignment |
| FeatureResolution.OrderMattersOnlyForMarkers | Cargo.nix:11730-11735 | under the same condition two orders give the same packages with the same features that are no markers |
| FeatureResolution.LeastExactlyWhenSelfContained | Cargo.nix:11756-11820 | on acyclic graphs the result is least for all roots and all requested features if and only if the condition holds |
| FeatureResolution.MarkedLeastExactlyWhenMarkersOnly | Cargo.nix:11756-11820 | on acyclic graphs the result with its markers is least for all roots and all requested features if and only if aliases imply at most themselves and their markers |
| FeatureResolution.CyclesCanRepair | Cargo.nix:11756-11820 | a crate that depends on itself violates the condition, and yet its result is least for every requested list; so the equivalence needs acyclic graphs |
| OrderDependence.OrderIrrelevantExactlyWhenSelfContained | Cargo.nix:11756-11820 | acyclic graphs: reordering the dependencies of a crate put on top never changes the result, whatever they are, if and only if no optional alias implies another feature |
| OrderDependence.OrderIrrelevantUpToMarkersExactlyWhenMarkersOnly | Cargo.nix:11756-11820 | acyclic graphs: such a reordering changes markers at most, whatever the dependencies are, if and only if optional aliases imply at most themselves and their markers |
| OrderDependence.CyclesCanHideOrder | Cargo.nix:11756-11820 | the same self-dependent crate violates the condition, and yet no reordering of dependencies on it changes the result |
| OrderDependence.OrderCanMatter | Cargo.nix:11756-11820 | an instance: a library with an optional dependency, asked for the same two features in two orders, has `std` in one result and not in the other |
| ReleaseFile.Patch | scripts/run-tests:204-263 | the script equals its line-by-line description for every reading of versions as `re.sub` templates, including the three errors and which names it reports as not found |
| ReleaseFile.PatchVersions | scripts/run-tests:206-221 | the first loop yields exactly the described lines and the set of matched operators, or the version it could not use as a template |
| ReleaseFile.FilterSkipped | scripts/run-tests:231-246 | the second loop yields exactly the kept lines and the set of matched names |
| ReleaseText.PatchLoopIsRecursion | scripts/run-tests:211-221 | on any file the first loop is a recursion: a matched line stays, and the line after it receives the version and is not searched |
| ReleaseText.FilterLoopIsRecursion | scripts/run-tests:235-246 | on any file the countdown loop is a recursion: a matched line goes with the line after it, which is not searched |
| ReleaseText.ContainsMeaning | scripts/run-tests:217 | a name is found in a line if and only if the line is something, the name, and something |
| ReleaseText.ReplaceVersionMeaning | scripts/run-tests:213 | what follows the first colon is replaced and the end of line kept; without a colon that something follows the line stays |
| ReleaseFile.PatchingIsLocal | scripts/run-tests:211-221 | on any file: number and order of lines kept, a line altered only by an operator matched on the line before, never two adjacent lines |
| ReleaseFile.FilteringIsSubsequence | scripts/run-tests:235-246 | on any file: the kept lines are a subsequence, contain no skipped name, and are exactly those not dropped |
| ReleaseFile.SucceedsExactlyWhenAllMatched | scripts/run-tests:223-253 | on any file: no exception if and only if every version to be written is a template and every operator and skipped name was matched on a searched line |
| ReleaseText.JoinReadsBack | scripts/run-tests:260 | joined lines read back as the same lines, apart from an empty last one |
| ReleaseText.WrittenFileReadsBack | scripts/run-tests:204-263 | on any file: when the script succeeds, reading what it wrote gives the lines it kept, apart from an empty last one |
| ReleaseSections.PatchLoopUpdates | scripts/run-tests:211-221 | on a file of sections the first loop updates the versions of the named products and nothing else |
| ReleaseSections.FilterLoopRemoves | scripts/run-tests:235-246 | on a file of sections the second loop removes the skipped products and nothing else |
| ReleaseSections.LoopsRefineSections | scripts/run-tests:204-263 | both loops together are the intended rewrite of sections, with unknown names as errors |
| ReleaseText.RewrittenFileReadsBack | scripts/run-tests:204-263 | on a file of sections: reading what was written gives exactly the lines of the updated and remaining sections, apart from an empty last one |
| ReleaseSections.EveryRenderingIsAFile | scripts/run-tests:208-221 | every rendering of sections is the content of some file, so the refinement speaks about all of them |
| Numerals.ParseRender | rust/operator-binary/src/crd.rs:437 | a printed number reads back as itself, so distinct indices print differently |
| Numerals.RenderParse | hello-world-app/mvnw:90 | reading and printing a numeral without leading zeros gives it back, so the printed numeral is the shortest and the only such one |
| Pods.IterationOrderIrrelevant | rust/operator-binary/src/crd.rs:423-430 | the pods are the same for every iteration order of the role group map |
| Pods.PodsAreAllReplicasInOrder | rust/operator-binary/src/crd.rs:421-440 | the pods are every replica of every role group once, by group name and then index; their number is the sum of the replicas |
| Pods.PodsByReplicas | rust/operator-binary/src/crd.rs:421-493 | by fields: one pod for each index below the `replicas` of a role group, none for a group without; its names are made of cluster, group, decimal index and namespace |
| Pods.NamesAreUnique | rust/operator-binary/src/crd.rs:421-493 | all pod names differ and all fully qualified domain names differ, whatever characters the names contain |
| Pods.ServiceTwiceUnique | rust/operator-binary/src/crd.rs:485-493 | a domain name determines its service name and replica index |
| Reconcile.ClusterResources.Add | rust/operator-binary/src/controller.rs:329-332 | a successful apply stores and remembers the resource; a failed one may have stored it |
| Reconcile.ClusterResources.DeleteOrphanedResources | rust/operator-binary/src/controller.rs:423-426 | success deletes exactly the owner's objects not remembered, failure only some of them |
| Reconcile.ApplyGroups | rust/operator-binary/src/controller.rs:351-409 | success applies the whole plan in order, failure a prefix of it, with the error of the step that failed |
| Reconcile.ReconcileHello | rust/operator-binary/src/controller.rs:261-429 | an attempt ends as the protocol allows: which part of the plan is applied and what is deleted for each result; it makes all calls in order, or those up to the one whose error it returns |
| DeployedCluster.CallsAt | rust/operator-binary/src/controller.rs:277-426 | the calls of an attempt by position: validation, six shared ones, five for each role group, two for an enabled budget, the status patch |
| DeployedCluster.PlanAt | rust/operator-binary/src/controller.rs:310-413 | the applied resources by position and by fields: account, binding, role service, then service, config map and stateful set of each group, then the budget |
| DeployedCluster.FailureTellsProgress | rust/operator-binary/src/controller.rs:277-426 | the error of a failed attempt determines how far it has come: everything before the failing step is in place, nothing after it is touched |
| ReconcileRuns.OkLeavesExactlyDesired | rust/operator-binary/src/controller.rs:310-428 | an attempt that returns Ok leaves exactly the resources its object wants, whatever was there before |
| DeployedCluster.DeployedIsDesired | rust/operator-binary/src/controller.rs:310-428 | the desired state is exactly the deployed cluster as described by the fields of the object |
| DeployedCluster.OkDeploysCluster | rust/operator-binary/src/controller.rs:310-428 | after Ok the cluster owns, by fields: account, binding, role service, the three resources of every group, a budget if and only if it is enabled, and nothing else |
| ReconcileRuns.EarlyFailureDeletesNothing | rust/operator-binary/src/controller.rs:310-421 | an attempt that fails before orphan deletion deletes nothing |
| ReconcileRuns.NeverDeletesWantedOrForeign | rust/operator-binary/src/controller.rs:310-428 | no attempt deletes a resource its own object wants, or one of another owner |
| ReconcileRuns.DeletesOnlyWhenComplete | rust/operator-binary/src/controller.rs:329-426 | whenever something was deleted, everything wanted is in place |
| ReconcileRuns.RetriedUnlessUnreadable | rust/operator-binary/src/controller.rs:836-845 | a failed attempt waits for a change if and only if the object could not be read; otherwise it is retried |
| ReconcileRuns.PlanIdsDistinct | rust/operator-binary/src/controller.rs:329-409 | with distinct group names no resource of an attempt overwrites another |
| ReconcileRuns.DesiredIgnoresVisitOrder | rust/operator-binary/src/controller.rs:351-409 | the desired resources are the same for every order in which the role groups are visited |
| ReconcileRuns.DesiredIsStable | rust/operator-binary/src/controller.rs:310-428 | from the desired state no attempt for the same object, failed or not and in whatever order it visits the role groups, changes the cluster's objects |
| ReconcileRuns.RunConverges | rust/operator-binary/src/controller.rs:310-845 | with a fixed valid object whose groups each attempt may visit in another order, from any store: the first attempt without a failing call converges, others are retried, and the state is kept |
| DeployedCluster.RunsDeployCluster | rust/operator-binary/src/controller.rs:310-845 | with a fixed valid object, from the first attempt without a failing call on the cluster is deployed, by fields, after every attempt |
| ReconcileRuns.LeftoversAreRecent | rust/operator-binary/src/controller.rs:310-428 | over runs with changing objects: everything owned was wanted by the last successful attempt or a later one |
| HashString.HashLoop | hello-world-app/mvnw:82-88 | the loop computes the weighted sum modulo 2^32, and no intermediate value leaves the signed 64-bit range |
| HashString.HashString | hello-world-app/mvnw:82-90 | the printed line is the shortest hexadecimal numeral of the hash |
| HashString.HashConcat | hello-world-app/mvnw:82-90 | the hash of a concatenation is computed from the hashes of its parts |
| HashString.HashIsJavaHashCode | hello-world-app/mvnw:81-90 | the hash is Java's wrapping 32-bit hash code read as an unsigned number, and wraps back to it |
| Lines.ReadLinesRoundTrip | scripts/ensure_one_trailing_newline.py:82-84 | reading yields lines whose concatenation is the text |
| TrailingNewline.ProcessLines | scripts/ensure_one_trailing_newline.py:16-34 | fails exactly on lists of blank lines; otherwise keeps the lines through the last one with content, newline ensured, and an empty line |
| TrailingNewline.RewriteFile | scripts/ensure_one_trailing_newline.py:80-89 | the script equals its description in terms of characters |
| TrailingNewline.AsciiTextIsCut | scripts/ensure_one_trailing_newline.py:10-34 | on characters: the text is cut after the line of its last visible character, whatever blanks, tabs and line ends follow |
| TrailingNewline.AsciiSpacesFail | scripts/ensure_one_trailing_newline.py:19-28 | on characters: a text of blanks, tabs and line ends only fails |
| TrailingNewline.VisibleIsKept | scripts/ensure_one_trailing_newline.py:16-34 | on characters: everything up to a visible character is kept, whatever else the text contains |
| TrailingNewline.NormalisedKeepsContent | scripts/ensure_one_trailing_newline.py:16-34 | everything through the last line with content is kept, only white space after it is dropped, and the text ends in exactly one newline |
| TrailingNewline.NormalisedIdempotent | scripts/ensure_one_trailing_newline.py:16-34 | a second run changes nothing |
| TrailingNewline.FailsExactlyOnBlankText | scripts/ensure_one_trailing_newline.py:24-28 | the script fails exactly on a text without a line with content |

## Left out

- PackageFeatures.MergePackageFeatures: the "Package not found" error and the type assertions; every dependency's package is assumed to be configured. The unused `dependencyPath` and a non-empty initial cache are not modelled.
- FeatureResolution.LeastExactlyWhenSelfContained: acyclic graphs only, like the three other equivalences that take a ranking; on cyclic graphs the "only if" direction is false for this one (CyclesCanRepair) and for OrderIrrelevantExactlyWhenSelfContained (CyclesCanHideOrder), and it is not stated for the two about markers; the "if" direction holds on every graph (ResolutionIsLeast, OrderDoesNotMatter and their versions up to markers), and LeastExactlyWhenExpanded on every graph judges one result.
- FeatureResolution.ResolutionIsLeast: names of dependencies are taken as Cargo allows them, without a slash and without the prefix `dep:`; the statements about markers also take it that no feature map has an entry for a marker.
- ReleaseFile.Patch: how `re.sub` reads a version as a replacement template, with its escapes, is a parameter. Reading `tests/release.yaml`, logging and the temporary file are left out.
- ReleaseSections.LoopsRefineSections: the versions are templates that stand for themselves, as versions without a backslash are; with others the script does not write the given version, which Patch covers.
- Lines.ReadLinesRoundTrip: newline translation is taken as done; only the newline character ends a line.
- HashString.HashLoop: character codes are taken as non-negative and below 2^16, as the shell passes them; encodings are not modelled.
- Reconcile.ReconcileHello: the contents of resources are the inputs of their builders. Product configuration, merging of configurations, labels, probes, volumes, logging and affinity are steps that may fail and change nothing. Paused and stopped operation are not modelled.
- The crate data, derivation building and debug helpers of `Cargo.nix`: input data and build plumbing.
- `merged_config`, `role`, `role_group`, `compute_files` in `crd.rs`: precedence over hidden merge code.
- The Java application, Helm templates, container images, remaining scripts: input, output and templating.
