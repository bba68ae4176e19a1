/** Prediction of the pods of a cluster: an unordered map of role groups becomes a canonical list of names. */
module Pods {
  import opened Wrappers
  import opened Strings
  import opened Numerals

  type u16 = x: int | 0 <= x < 0x1_0000

  datatype RoleGroup = RoleGroup(replicas: Option<u16>) {
    function PodCount(): nat {
      if replicas.Some? then replicas.value else 0
    }
  }

  /** A role group under its name. */
  datatype Entry = Entry(key: string, group: RoleGroup)

  /** The role groups in the order in which the hash map happens to be iterated. */
  datatype Role = Role(roleGroups: seq<Entry>)

  datatype HelloCluster = HelloCluster(name: string, namespace: Option<string>, servers: Option<Role>)

  datatype NoNamespaceError = NoNamespaceError

  datatype RoleGroupRef = RoleGroupRef(cluster: string, role: string, roleGroup: string) {
    function ObjectName(): string {
      cluster + "-" + role + "-" + roleGroup
    }
  }

  datatype PodRef = PodRef(namespace: string, roleGroupServiceName: string, podName: string) {
    function Fqdn(clusterDomain: string): string {
      podName + "." + roleGroupServiceName + "." + namespace + ".svc." + clusterDomain
    }
  }

  function ServerRolegroupRef(cluster: HelloCluster, groupName: string): RoleGroupRef {
    RoleGroupRef(cluster.name, "server", groupName)
  }

  /** Insertion into a B-tree map, kept as its list of entries by ascending key. */
  function InsertEntry(tree: seq<Entry>, entry: Entry): seq<Entry> {
    if tree == [] then [entry]
    else if tree[0].key == entry.key then [entry] + tree[1..]
    else if Less(entry.key, tree[0].key) then [entry] + tree
    else [tree[0]] + InsertEntry(tree[1..], entry)
  }

  function CollectEntries(entries: seq<Entry>): seq<Entry> {
    if entries == [] then []
    else InsertEntry(CollectEntries(entries[..|entries| - 1]), entries[|entries| - 1])
  }

  function PodOf(cluster: HelloCluster, namespace: string, groupName: string, i: nat): PodRef {
    var service := ServerRolegroupRef(cluster, groupName).ObjectName();
    PodRef(namespace, service, service + "-" + Decimal(i))
  }

  function GroupPods(cluster: HelloCluster, namespace: string, entry: Entry): seq<PodRef> {
    seq(entry.group.PodCount(), i requires 0 <= i => PodOf(cluster, namespace, entry.key, i))
  }

  function AllPods(cluster: HelloCluster, namespace: string, tree: seq<Entry>): seq<PodRef> {
    if tree == [] then []
    else GroupPods(cluster, namespace, tree[0]) + AllPods(cluster, namespace, tree[1..])
  }

  function RoleGroups(cluster: HelloCluster): seq<Entry> {
    if cluster.servers.Some? then cluster.servers.value.roleGroups else []
  }

  function Pods(cluster: HelloCluster): Result<seq<PodRef>, NoNamespaceError> {
    if cluster.namespace.None? then Failure(NoNamespaceError)
    else Success(AllPods(cluster, cluster.namespace.value, CollectEntries(RoleGroups(cluster))))
  }

  /******* The canonical order of role groups *******/

  ghost predicate DistinctKeys(entries: seq<Entry>) {
    forall a, b :: 0 <= a < b < |entries| ==> entries[a].key != entries[b].key
  }

  ghost predicate AscendingKeys(tree: seq<Entry>) {
    forall a, b :: 0 <= a < b < |tree| ==> Less(tree[a].key, tree[b].key)
  }

  ghost function TotalReplicas(entries: seq<Entry>): nat {
    if entries == [] then 0
    else (match entries[0].group.replicas case Some(n) => n case None => 0) + TotalReplicas(entries[1..])
  }

  /** Inserting a new key keeps the order, adds the entry and its replicas. */
  lemma {:induction false} InsertNewKey(tree: seq<Entry>, entry: Entry)
    requires AscendingKeys(tree) && forall e :: e in tree ==> e.key != entry.key
    ensures AscendingKeys(InsertEntry(tree, entry))
    ensures forall e :: e in InsertEntry(tree, entry) <==> e in tree || e == entry
    ensures TotalReplicas(InsertEntry(tree, entry)) == TotalReplicas(tree) + entry.group.PodCount()
  {
    if tree != [] {
      assert tree == [tree[0]] + tree[1..];
      assert tree[0] in tree;
      if Less(entry.key, tree[0].key) {
        assert ([entry] + tree)[1..] == tree;
        forall b | 0 <= b < |tree| ensures Less(entry.key, tree[b].key) {
          if b > 0 { LessTransitive(entry.key, tree[0].key, tree[b].key); }
        }
      } else {
        LessTotal(entry.key, tree[0].key);
        InsertNewKey(tree[1..], entry);
        InsertAfterHead(tree[0], tree[1..], entry);
      }
    }
  }

  lemma {:induction false} InsertAfterHead(head: Entry, tail: seq<Entry>, entry: Entry)
    requires AscendingKeys([head] + tail) && Less(head.key, entry.key)
    requires AscendingKeys(InsertEntry(tail, entry))
    requires forall e :: e in InsertEntry(tail, entry) <==> e in tail || e == entry
    ensures AscendingKeys([head] + InsertEntry(tail, entry))
  {
    var rest := InsertEntry(tail, entry);
    forall b | 0 <= b < |rest| ensures Less(head.key, rest[b].key) {
      assert rest[b] in rest;
      if rest[b] in tail {
        var c :| 0 <= c < |tail| && tail[c] == rest[b];
        assert ([head] + tail)[0] == head && ([head] + tail)[c + 1] == rest[b];
      }
    }
  }

  /** Collecting entries with distinct keys sorts them and keeps them all. */
  lemma {:induction false} CollectSorts(entries: seq<Entry>)
    requires DistinctKeys(entries)
    ensures AscendingKeys(CollectEntries(entries))
    ensures forall e :: e in CollectEntries(entries) <==> e in entries
    ensures TotalReplicas(CollectEntries(entries)) == TotalReplicas(entries)
  {
    if entries != [] {
      var init, last := entries[..|entries| - 1], entries[|entries| - 1];
      CollectSorts(init);
      assert entries == init + [last];
      forall e | e in CollectEntries(init) ensures e.key != last.key {
        var a :| 0 <= a < |init| && init[a] == e;
        assert entries[a] == e;
      }
      InsertNewKey(CollectEntries(init), last);
      TotalReplicasConcat(init, [last]);
    }
  }

  lemma {:induction false} TotalReplicasConcat(s: seq<Entry>, t: seq<Entry>)
    ensures TotalReplicas(s + t) == TotalReplicas(s) + TotalReplicas(t)
  {
    if s == [] {
      assert s + t == t;
    } else {
      assert (s + t)[1..] == s[1..] + t;
      TotalReplicasConcat(s[1..], t);
    }
  }

  /** A list of entries by ascending key is determined by its entries. */
  lemma {:induction false} AscendingKeysUnique(s: seq<Entry>, t: seq<Entry>)
    requires AscendingKeys(s) && AscendingKeys(t) && forall e :: e in s <==> e in t
    ensures s == t
  {
    assert s != [] ==> s[0] in t;
    assert t != [] ==> t[0] in s;
    if s != [] && t != [] {
      FirstKeyLeast(s, t[0]);
      FirstKeyLeast(t, s[0]);
      if s[0].key != t[0].key {
        LessTransitive(s[0].key, t[0].key, s[0].key);
      }
      LessIrreflexive(s[0].key);
      assert s[0] == t[0];
      TailMembers(s);
      TailMembers(t);
      AscendingKeysUnique(s[1..], t[1..]);
      assert s == [s[0]] + s[1..] && t == [t[0]] + t[1..];
    }
  }

  lemma {:induction false} FirstKeyLeast(s: seq<Entry>, e: Entry)
    requires AscendingKeys(s) && s != [] && e in s
    ensures e == s[0] || Less(s[0].key, e.key)
  {
  }

  lemma {:induction false} TailMembers(s: seq<Entry>)
    requires AscendingKeys(s) && s != []
    ensures forall e :: e in s[1..] <==> e in s && e != s[0]
  {
    LessIrreflexive(s[0].key);
    assert s == [s[0]] + s[1..];
  }

  /** The pods are the same for every iteration order of the role group map. */
  lemma {:induction false} IterationOrderIrrelevant(cluster: HelloCluster, entries: seq<Entry>, entries': seq<Entry>)
    requires DistinctKeys(entries) && DistinctKeys(entries') && forall e :: e in entries <==> e in entries'
    ensures Pods(cluster.(servers := Some(Role(entries)))) == Pods(cluster.(servers := Some(Role(entries'))))
  {
    CollectSorts(entries);
    CollectSorts(entries');
    AscendingKeysUnique(CollectEntries(entries), CollectEntries(entries'));
    var c, c' := cluster.(servers := Some(Role(entries))), cluster.(servers := Some(Role(entries')));
    if cluster.namespace.Some? {
      OnlyNameMatters(c, c', cluster.namespace.value, CollectEntries(entries));
    }
  }

  lemma {:induction false} OnlyNameMatters(c: HelloCluster, c': HelloCluster, namespace: string, tree: seq<Entry>)
    requires c.name == c'.name
    ensures AllPods(c, namespace, tree) == AllPods(c', namespace, tree)
  {
    if tree != [] {
      OnlyNameMatters(c, c', namespace, tree[1..]);
      assert GroupPods(c, namespace, tree[0]) == GroupPods(c', namespace, tree[0]);
    }
  }

  /******* Which pods, in which order *******/

  /** Group name and replica index of a pod. */
  datatype PodKey = PodKey(group: string, index: nat)

  ghost predicate KeyLess(a: PodKey, b: PodKey) {
    Less(a.group, b.group) || (a.group == b.group && a.index < b.index)
  }

  ghost function PodKeys(tree: seq<Entry>): seq<PodKey> {
    if tree == [] then []
    else seq(tree[0].group.PodCount(), i requires 0 <= i => PodKey(tree[0].key, i)) + PodKeys(tree[1..])
  }

  ghost predicate IsReplica(entries: seq<Entry>, key: PodKey) {
    exists e :: e in entries && e.key == key.group && IsBelowReplicas(e.group, key.index)
  }

  /** The group asks for more than i replicas; a group that asks for no number has none. */
  ghost predicate IsBelowReplicas(group: RoleGroup, i: nat) {
    exists n :: group.replicas == Some(n) && i < n
  }

  lemma {:induction false} PodCountMeaning(group: RoleGroup, i: nat)
    ensures i < group.PodCount() <==> IsBelowReplicas(group, i)
    ensures group.PodCount() == match group.replicas case Some(n) => n case None => 0
  {
    match group.replicas
    case Some(n) =>
      assert i < n <==> IsBelowReplicas(group, i);
    case None =>
  }

  lemma {:induction false} PodKeysMembers(tree: seq<Entry>, key: PodKey)
    ensures key in PodKeys(tree) <==> IsReplica(tree, key)
  {
    if tree != [] {
      PodKeysMembers(tree[1..], key);
      PodCountMeaning(tree[0].group, key.index);
      assert tree == [tree[0]] + tree[1..];
      var first := seq(tree[0].group.PodCount(), i requires 0 <= i => PodKey(tree[0].key, i));
      if tree[0].key == key.group && key.index < tree[0].group.PodCount() {
        assert first[key.index] == key;
        assert tree[0] in tree;
      }
      assert key in PodKeys(tree) <==> key in first || key in PodKeys(tree[1..]);
    }
  }

  lemma {:induction false} PodKeysSorted(tree: seq<Entry>)
    requires AscendingKeys(tree)
    ensures forall a, b :: 0 <= a < b < |PodKeys(tree)| ==> KeyLess(PodKeys(tree)[a], PodKeys(tree)[b])
    ensures |PodKeys(tree)| == TotalReplicas(tree)
  {
    if tree != [] {
      var n, rest := tree[0].group.PodCount(), PodKeys(tree[1..]);
      PodKeysSorted(tree[1..]);
      forall a, b | 0 <= a < b < |PodKeys(tree)| ensures KeyLess(PodKeys(tree)[a], PodKeys(tree)[b]) {
        if a < n <= b {
          assert PodKeys(tree)[b] == rest[b - n];
          PodKeysMembers(tree[1..], rest[b - n]);
          var e :| e in tree[1..] && e.key == rest[b - n].group;
        } else if n <= a {
          assert PodKeys(tree)[a] == rest[a - n] && PodKeys(tree)[b] == rest[b - n];
        }
      }
    }
  }

  lemma {:induction false} PodsFollowKeys(cluster: HelloCluster, namespace: string, tree: seq<Entry>)
    ensures |AllPods(cluster, namespace, tree)| == |PodKeys(tree)|
    ensures forall a :: 0 <= a < |PodKeys(tree)| ==>
              AllPods(cluster, namespace, tree)[a]
              == PodOf(cluster, namespace, PodKeys(tree)[a].group, PodKeys(tree)[a].index)
  {
    if tree != [] {
      PodsFollowKeys(cluster, namespace, tree[1..]);
      var n := tree[0].group.PodCount();
      forall a | n <= a < |PodKeys(tree)|
        ensures AllPods(cluster, namespace, tree)[a]
                == PodOf(cluster, namespace, PodKeys(tree)[a].group, PodKeys(tree)[a].index)
      {
        assert PodKeys(tree)[a] == PodKeys(tree[1..])[a - n];
      }
    }
  }

  /** The pods, by group name and then by index: every replica of every role group, once. */
  lemma {:induction false} PodsAreAllReplicasInOrder(cluster: HelloCluster) returns (keys: seq<PodKey>)
    requires cluster.namespace.Some? && DistinctKeys(RoleGroups(cluster))
    ensures Pods(cluster).Success?
    ensures var pods := Pods(cluster).value;
            && |pods| == |keys| == TotalReplicas(RoleGroups(cluster))
            && (forall a :: 0 <= a < |keys| ==>
                  pods[a] == PodOf(cluster, cluster.namespace.value, keys[a].group, keys[a].index))
    ensures forall a, b :: 0 <= a < b < |keys| ==> KeyLess(keys[a], keys[b])
    ensures forall key :: key in keys <==> IsReplica(RoleGroups(cluster), key)
  {
    var entries := RoleGroups(cluster);
    var tree := CollectEntries(entries);
    keys := PodKeys(tree);
    CollectSorts(entries);
    PodKeysSorted(tree);
    PodsFollowKeys(cluster, cluster.namespace.value, tree);
    forall key ensures key in keys <==> IsReplica(entries, key) {
      PodKeysMembers(tree, key);
    }
  }

  /** The pods by the fields of the cluster alone: one for each index below the `replicas` of a role group, none for a
      group without; named after the cluster, the group and the index in decimal notation. */
  lemma {:induction false} PodsByReplicas(cluster: HelloCluster, role: Role, namespace: string)
    returns (keys: seq<PodKey>)
    requires cluster.servers == Some(role) && cluster.namespace == Some(namespace)
    requires forall a, b :: 0 <= a < b < |role.roleGroups| ==> role.roleGroups[a].key != role.roleGroups[b].key
    ensures Pods(cluster).Success? && |Pods(cluster).value| == |keys| == TotalReplicas(role.roleGroups)
    ensures forall group, i ::
              PodKey(group, i) in keys <==>
              exists e, n :: e in role.roleGroups && e.key == group && e.group.replicas == Some(n) && i < n
    ensures forall a :: 0 <= a < |keys| ==> IsPodOf(Pods(cluster).value[a], cluster.name, namespace, keys[a])
    ensures forall a, b :: 0 <= a < b < |keys| ==>
              Less(keys[a].group, keys[b].group) || (keys[a].group == keys[b].group && keys[a].index < keys[b].index)
  {
    keys := PodsAreAllReplicasInOrder(cluster);
    forall group, i
      ensures PodKey(group, i) in keys <==>
              exists e, n :: e in role.roleGroups && e.key == group && e.group.replicas == Some(n) && i < n
    {
      ReplicaByField(role.roleGroups, group, i);
    }
    forall a | 0 <= a < |keys| ensures IsPodOf(Pods(cluster).value[a], cluster.name, namespace, keys[a]) {
      PodNames(cluster, namespace, keys[a]);
    }
  }

  lemma {:induction false} ReplicaByField(entries: seq<Entry>, group: string, i: nat)
    ensures IsReplica(entries, PodKey(group, i)) <==>
            exists e, n :: e in entries && e.key == group && e.group.replicas == Some(n) && i < n
  {
    if IsReplica(entries, PodKey(group, i)) {
      var e :| e in entries && e.key == group && IsBelowReplicas(e.group, i);
      var n :| e.group.replicas == Some(n) && i < n;
    }
    if e, n :| e in entries && e.key == group && e.group.replicas == Some(n) && i < n {
      assert IsBelowReplicas(e.group, i);
    }
  }

  /** The pod's names are those of the cluster, the group and the index. */
  ghost predicate IsPodOf(pod: PodRef, cluster: string, namespace: string, key: PodKey) {
    var service := cluster + "-server-" + key.group;
    exists digits ::
      && AllDecimal(digits) && NoLeadingZero(digits) && AllSymbols(digits) && Parse(digits, 10) == key.index
      && pod.namespace == namespace && pod.roleGroupServiceName == service && pod.podName == service + "-" + digits
      && forall domain ::
           pod.Fqdn(domain) == service + "-" + digits + "." + service + "." + namespace + ".svc." + domain
  }

  lemma {:induction false} PodNames(cluster: HelloCluster, namespace: string, key: PodKey)
    ensures IsPodOf(PodOf(cluster, namespace, key.group, key.index), cluster.name, namespace, key)
  {
    var digits := Decimal(key.index);
    ParseRender(key.index, 10);
    assert cluster.name + "-" + "server" + "-" == cluster.name + "-server-";
    assert PodOf(cluster, namespace, key.group, key.index).podName
           == cluster.name + "-server-" + key.group + "-" + digits;
  }

  /******* Names are unique *******/

  /** A string splits at its last dash in one way. */
  lemma {:induction false} LastDashUnique(s: string, d: string, s': string, d': string)
    requires NoChar(d, '-') && NoChar(d', '-') && s + "-" + d == s' + "-" + d'
    ensures s == s' && d == d'
  {
    var t := s + "-" + d;
    assert t[|s|] == '-' && t[|s'|] == '-';
    assert forall k :: |s| < k < |t| ==> t[k] == d[k - |s| - 1];
    assert forall k :: |s'| < k < |t| ==> t[k] == d'[k - |s'| - 1];
    assert |s| == |s'|;
    assert t[..|s|] == s && t[..|s|] == s';
    assert t[|s| + 1..] == d && t[|s| + 1..] == d';
  }

  lemma {:induction false} ObjectNameInjective(cluster: HelloCluster, g: string, h: string)
    requires ServerRolegroupRef(cluster, g).ObjectName() == ServerRolegroupRef(cluster, h).ObjectName()
    ensures g == h
  {
    var prefix := cluster.name + "-" + "server" + "-";
    assert (prefix + g)[|prefix|..] == g && (prefix + h)[|prefix|..] == h;
  }

  lemma {:induction false} PodNameInjective(cluster: HelloCluster, namespace: string, a: PodKey, b: PodKey)
    requires PodOf(cluster, namespace, a.group, a.index).podName == PodOf(cluster, namespace, b.group, b.index).podName
    ensures a == b
  {
    LastDashUnique(ServerRolegroupRef(cluster, a.group).ObjectName(), Decimal(a.index),
                   ServerRolegroupRef(cluster, b.group).ObjectName(), Decimal(b.index));
    ObjectNameInjective(cluster, a.group, b.group);
    RenderInjective(a.index, b.index, 10);
  }

  ghost function Dashes(s: string): nat {
    if s == "" then 0 else (if s[0] == '-' then 1 else 0) + Dashes(s[1..])
  }

  lemma {:induction false} DashesConcat(s: string, t: string)
    ensures Dashes(s + t) == Dashes(s) + Dashes(t)
  {
    if s == "" {
      assert s + t == t;
    } else {
      assert (s + t)[1..] == s[1..] + t;
      DashesConcat(s[1..], t);
    }
  }

  lemma {:induction false} NoDashes(s: string)
    requires NoChar(s, '-')
    ensures Dashes(s) == 0
  {
    if s != "" {
      NoDashes(s[1..]);
    }
  }

  /** No string is both s, a dash and digits, and digits, a dot and s: the dashes do not add up. */
  lemma {:induction false} DashesDisagree(s: string, d: string, d': string)
    requires NoChar(d, '-') && NoChar(d', '-')
    ensures s + "-" + d != d' + "." + s
  {
    DashesConcat(s + "-", d);
    DashesConcat(s, "-");
    DashesConcat(d' + ".", s);
    DashesConcat(d', ".");
    NoDashes(d);
    NoDashes(d');
    NoDashes(".");
    assert Dashes("-") == 1 + Dashes("-"[1..]) == 1;
  }

  /** The service name s and number d are determined by "s-d.s". */
  lemma {:induction false} ServiceTwiceUnique(s: string, d: string, s': string, d': string)
    requires NoChar(d, '-') && NoChar(d', '-') && |s| <= |s'|
    requires s + "-" + d + "." + s == s' + "-" + d' + "." + s'
    ensures s == s' && d == d'
  {
    var t := s + "-" + d + "." + s;
    var k := |s'| - |s|;
    if k == 0 {
      assert t[..|s|] == s && t[..|s|] == s';
      assert t[|s| + 1..|s| + 1 + |d|] == d && t[|s| + 1..|s| + 1 + |d|] == d';
    } else {
      var head, tail := d[..k - 1], d[|d| - (k - 1)..];
      assert t[..|s'|] == s + "-" + head;
      assert t[..|s'|] == s';
      assert t[|t| - |s'|..] == tail + "." + s;
      assert t[|t| - |s'|..] == s';
      DashesDisagree(s, head, tail);
    }
  }

  lemma {:induction false} FqdnInjective(
      cluster: HelloCluster, namespace: string, clusterDomain: string, a: PodKey, b: PodKey)
    requires PodOf(cluster, namespace, a.group, a.index).Fqdn(clusterDomain)
             == PodOf(cluster, namespace, b.group, b.index).Fqdn(clusterDomain)
    ensures a == b
  {
    var s, s' := ServerRolegroupRef(cluster, a.group).ObjectName(), ServerRolegroupRef(cluster, b.group).ObjectName();
    var d, d' := Decimal(a.index), Decimal(b.index);
    var rest := "." + namespace + ".svc." + clusterDomain;
    FqdnShape(cluster, namespace, clusterDomain, a);
    FqdnShape(cluster, namespace, clusterDomain, b);
    SameFrontOfSuffix(s + "-" + d + "." + s, s' + "-" + d' + "." + s', rest);
    if |s| <= |s'| {
      ServiceTwiceUnique(s, d, s', d');
    } else {
      ServiceTwiceUnique(s', d', s, d);
    }
    ObjectNameInjective(cluster, a.group, b.group);
    RenderInjective(a.index, b.index, 10);
  }

  lemma {:induction false} FqdnShape(cluster: HelloCluster, namespace: string, clusterDomain: string, key: PodKey)
    ensures var s := ServerRolegroupRef(cluster, key.group).ObjectName();
            PodOf(cluster, namespace, key.group, key.index).Fqdn(clusterDomain)
            == (s + "-" + Decimal(key.index) + "." + s) + ("." + namespace + ".svc." + clusterDomain)
  {
    var s := ServerRolegroupRef(cluster, key.group).ObjectName();
    var front := s + "-" + Decimal(key.index) + "." + s;
    assert front + ("." + namespace + ".svc." + clusterDomain) == front + "." + namespace + ".svc." + clusterDomain;
  }

  lemma {:induction false} SameFrontOfSuffix(s: string, t: string, rest: string)
    requires s + rest == t + rest
    ensures s == t
  {
    assert (s + rest)[..|s|] == s && (t + rest)[..|t|] == t;
  }

  /** All pod names of a cluster differ, and so do all their domain names, whatever the names contain. */
  lemma {:induction false} NamesAreUnique(cluster: HelloCluster, clusterDomain: string)
    requires cluster.namespace.Some? && DistinctKeys(RoleGroups(cluster))
    ensures Pods(cluster).Success?
    ensures var pods := Pods(cluster).value;
            forall a, b :: 0 <= a < b < |pods| ==>
              pods[a].podName != pods[b].podName && pods[a].Fqdn(clusterDomain) != pods[b].Fqdn(clusterDomain)
  {
    var keys := PodsAreAllReplicasInOrder(cluster);
    var pods, namespace := Pods(cluster).value, cluster.namespace.value;
    forall a, b | 0 <= a < b < |pods|
      ensures pods[a].podName != pods[b].podName && pods[a].Fqdn(clusterDomain) != pods[b].Fqdn(clusterDomain)
    {
      assert KeyLess(keys[a], keys[b]);
      LessIrreflexive(keys[a].group);
      if pods[a].podName == pods[b].podName {
        PodNameInjective(cluster, namespace, keys[a], keys[b]);
      }
      if pods[a].Fqdn(clusterDomain) == pods[b].Fqdn(clusterDomain) {
        FqdnInjective(cluster, namespace, clusterDomain, keys[a], keys[b]);
      }
    }
  }
}
