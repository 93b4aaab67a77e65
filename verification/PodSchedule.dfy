/** Grouping pods by replica set and judging whether a replica set's pods share one node. */
module PodSchedule {
  import opened Collections

  datatype OwnerRef = OwnerRef(apiVersion: string, kind: string, name: string)

  datatype Pod = Pod(namespace: string, name: string, owners: seq<OwnerRef>, nodeName: string)

  /** The check's result: an error, or a description. */
  datatype Verdict = SameNode(rsName: string) | DifferentNodes(rsName: string)

  // ----- grouping

  /** The pod's first owner is an apps/v1 ReplicaSet. */
  predicate Owned(p: Pod) {
    p.owners != [] && p.owners[0].apiVersion == "apps/v1" && p.owners[0].kind == "ReplicaSet"
  }

  function Key(p: Pod): string
    requires Owned(p)
  {
    p.namespace + "/" + p.owners[0].name
  }

  predicate InGroup(p: Pod, key: string) {
    Owned(p) && Key(p) == key
  }

  /** The pods of one group, in list order. */
  function Members(pods: seq<Pod>, key: string): seq<Pod> {
    if pods == [] then []
    else
      var n := |pods| - 1;
      Members(pods[..n], key) + if InGroup(pods[n], key) then [pods[n]] else []
  }

  /** A pod is in its own group as often as it is listed, and in no other group. */
  lemma {:induction false} GroupsPartition(pods: seq<Pod>, key: string, p: Pod)
    ensures multiset(Members(pods, key))[p] == if InGroup(p, key) then multiset(pods)[p] else 0
  {
    if pods != [] {
      var n := |pods| - 1;
      GroupsPartition(pods[..n], key, p);
      assert pods == pods[..n] + [pods[n]];
    }
  }

  /** Groups keep list order: what is listed later comes later. */
  lemma {:induction false} MembersInOrder(pods: seq<Pod>, later: seq<Pod>, key: string)
    ensures Members(pods + later, key) == Members(pods, key) + Members(later, key)
  {
    if later == [] {
      assert pods + later == pods;
    } else {
      var n := |later| - 1;
      MembersInOrder(pods, later[..n], key);
      assert (pods + later)[..|pods| + n] == pods + later[..n];
    }
  }

  /** One entry per group that has a member, holding its members. */
  ghost predicate IsGrouping(pods: seq<Pod>, groups: map<string, seq<Pod>>) {
    forall key ::
      && (key in groups <==> Members(pods, key) != [])
      && (key in groups ==> groups[key] == Members(pods, key))
  }

  method GroupByReplicaSet(pods: seq<Pod>) returns (podsByRs: map<string, seq<Pod>>)
    ensures IsGrouping(pods, podsByRs)
  {
    podsByRs := map[];
    for i := 0 to |pods|
      invariant IsGrouping(pods[..i], podsByRs)
    {
      var pod := pods[i];
      assert pods[..i+1][..i] == pods[..i];
      if pod.owners != [] {
        var ownerRef := pod.owners[0];
        if ownerRef.apiVersion == "apps/v1" && ownerRef.kind == "ReplicaSet" {
          var rsName := pod.namespace + "/" + ownerRef.name;
          assert Key(pod) == rsName;
          if rsName in podsByRs {
            podsByRs := podsByRs[rsName := podsByRs[rsName] + [pod]];
          } else {
            podsByRs := podsByRs[rsName := [pod]];
          }
        }
      }
    }
    assert pods[..|pods|] == pods;
  }

  /** Two owned pods are in one group exactly when namespace and replica set agree, given that no
      namespace contains the separator. */
  lemma SameGroup(p: Pod, q: Pod)
    requires Owned(p) && Owned(q) && '/' !in p.namespace && '/' !in q.namespace
    ensures Key(p) == Key(q) <==> p.namespace == q.namespace && p.owners[0].name == q.owners[0].name
  {
    if Key(p) == Key(q) {
      FirstSeparator(p.namespace, p.owners[0].name, q.namespace, q.owners[0].name);
    }
  }

  lemma {:induction false} FirstSeparator(a: string, b: string, c: string, d: string)
    requires '/' !in a && '/' !in c && a + "/" + b == c + "/" + d
    ensures a == c && b == d
  {
    var s, t := a + "/" + b, c + "/" + d;
    assert s[|a|] == '/' && t[|c|] == '/';
    assert forall k :: 0 <= k < |a| ==> s[k] == a[k];
    assert forall k :: 0 <= k < |c| ==> t[k] == c[k];
    assert |a| == |c|;
    assert s[..|a|] == a && t[..|c|] == c;
    assert s[|a|+1..] == b && t[|c|+1..] == d;
  }

  /** What two namespaces need for a replica set of one to be merged with one of the other: one, with a
      separator after it, begins the other. */
  lemma NamespacesMergeExactly(a: string, c: string)
    requires a != c
    ensures (exists p, q :: Owned(p) && Owned(q) && p.namespace == a && q.namespace == c && Key(p) == Key(q))
            <==> a + "/" <= c || c + "/" <= a
  {
    if p, q :| Owned(p) && Owned(q) && p.namespace == a && q.namespace == c && Key(p) == Key(q) {
      OneBegins(a, p.owners[0].name, c, q.owners[0].name);
    }
    if a + "/" <= c {
      Merged(a, c);
    } else if c + "/" <= a {
      Merged(c, a);
    }
  }

  lemma OneBegins(a: string, x: string, c: string, y: string)
    requires a + "/" + x == c + "/" + y && a != c
    ensures a + "/" <= c || c + "/" <= a
  {
    var s := a + "/" + x;
    assert s[..|a|] == a && s[..|a|+1] == a + "/";
    assert s[..|c|] == c && s[..|c|+1] == c + "/";
    if |a| < |c| {
      assert c[..|a|+1] == s[..|a|+1];
    } else {
      assert a[..|c|+1] == s[..|c|+1];
    }
  }

  lemma Merged(a: string, c: string)
    requires a + "/" <= c
    ensures exists p, q :: Owned(p) && Owned(q) && p.namespace == a && q.namespace == c && Key(p) == Key(q)
    ensures exists p, q :: Owned(p) && Owned(q) && p.namespace == c && q.namespace == a && Key(p) == Key(q)
  {
    var rest := c[|a|+1..];
    var p := Pod(a, "", [OwnerRef("apps/v1", "ReplicaSet", rest + "/" + "x")], "");
    var q := Pod(c, "", [OwnerRef("apps/v1", "ReplicaSet", "x")], "");
    assert c == a + "/" + rest;
    assert Key(p) == a + "/" + (rest + "/" + "x") == c + "/" + "x" == Key(q);
  }

  // ----- the verdict on one replica set

  function NodeNames(pods: seq<Pod>): seq<string> {
    Map((p: Pod) => p.nodeName, pods)
  }

  /** From the first scheduled pod on, every pod names that pod's node. */
  predicate OneNode(names: seq<string>) {
    forall i, j :: 0 <= i < j < |names| && names[i] != "" ==> names[j] == names[i]
  }

  function Judge(rsName: string, pods: seq<Pod>): Verdict {
    if OneNode(NodeNames(pods)) then SameNode(rsName) else DifferentNodes(rsName)
  }

  /** The error if every pod after a scheduled one is on the same node as that, else the description. */
  method CheckPodsInReplicaSet(rsName: string, pods: seq<Pod>) returns (r: Verdict)
    requires |pods| >= 2
    ensures r == Judge(rsName, pods)
    ensures r == SameNode(rsName) <==>
      forall i, j :: 0 <= i < j < |pods| && pods[i].nodeName != "" ==> pods[j].nodeName == pods[i].nodeName
    ensures r == SameNode(rsName) || r == DifferentNodes(rsName)
  {
    var node := "";
    ghost var names := NodeNames(pods);
    ghost var first := 0;  // where the pods seen so far start to be scheduled
    for i := 0 to |pods|
      invariant first <= i
      invariant forall k :: 0 <= k < first ==> names[k] == ""
      invariant forall k :: first <= k < i ==> names[k] == node
      invariant node == "" <==> first == i
    {
      var pod := pods[i];
      assert names[i] == pod.nodeName;
      if node == "" {
        node := pod.nodeName;
        if node == "" {
          first := i + 1;
        }
      } else if node != pod.nodeName {
        assert names[first] == node;
        return DifferentNodes(rsName);
      }
    }
    r := SameNode(rsName);
  }

  /** When every pod is scheduled the error means that all names are equal. */
  lemma AllScheduled(names: seq<string>)
    requires "" !in names
    ensures OneNode(names) <==> forall i, j :: 0 <= i < |names| && 0 <= j < |names| ==> names[i] == names[j]
  {
  }

  /** Some arrangement of the pods is reported and some other is not. */
  ghost predicate OrderMatters(names: seq<string>) {
    exists p, q :: multiset(p) == multiset(names) && multiset(q) == multiset(names) && OneNode(p) && !OneNode(q)
  }

  predicate OneNameInUse(names: seq<string>) {
    forall a, b :: a in names && b in names && a != "" && b != "" ==> a == b
  }

  function Unscheduled(names: seq<string>): seq<string> {
    if names == [] then []
    else (if names[0] == "" then [names[0]] else []) + Unscheduled(names[1..])
  }

  function Scheduled(names: seq<string>): seq<string> {
    if names == [] then []
    else (if names[0] != "" then [names[0]] else []) + Scheduled(names[1..])
  }

  lemma {:induction false} SplitCounts(names: seq<string>, x: string)
    ensures multiset(Unscheduled(names))[x] + multiset(Scheduled(names))[x] == multiset(names)[x]
  {
    if names != [] {
      SplitCounts(names[1..], x);
      assert names == [names[0]] + names[1..];
    }
  }

  lemma SplitBySchedule(names: seq<string>)
    ensures multiset(Unscheduled(names) + Scheduled(names)) == multiset(names)
  {
    forall x
      ensures multiset(Unscheduled(names) + Scheduled(names))[x] == multiset(names)[x]
    {
      SplitCounts(names, x);
    }
  }

  lemma {:induction false} SplitIsPure(names: seq<string>)
    ensures forall k :: 0 <= k < |Unscheduled(names)| ==> Unscheduled(names)[k] == ""
    ensures forall k :: 0 <= k < |Scheduled(names)| ==> Scheduled(names)[k] != ""
  {
    if names != [] {
      SplitIsPure(names[1..]);
    }
  }

  lemma SameElements(a: seq<string>, b: seq<string>)
    requires multiset(a) == multiset(b)
    ensures forall x :: x in a <==> x in b
  {
    forall x
      ensures x in a <==> x in b
    {
      assert x in multiset(a) <==> x in multiset(b);
    }
  }

  /** The verdict depends on the order of the pods exactly when some pod is unscheduled, some is
      scheduled, and all the scheduled ones share a node. */
  lemma OrderMattersExactly(names: seq<string>)
    ensures OrderMatters(names) <==>
      "" in names && (exists n :: n in names && n != "") && OneNameInUse(names)
  {
    if OrderMatters(names) {
      var p, q :| multiset(p) == multiset(names) && multiset(q) == multiset(names) && OneNode(p) && !OneNode(q);
      SameElements(p, names);
      SameElements(q, names);
      assert OneNameInUse(p);
      var i, j :| 0 <= i < j < |q| && q[i] != "" && q[j] != q[i];
      assert q[i] in names && q[j] in names;
    }
    if "" in names && (exists n :: n in names && n != "") && OneNameInUse(names) {
      TwoArrangements(names);
    }
  }

  lemma TwoArrangements(names: seq<string>)
    requires "" in names && (exists n :: n in names && n != "") && OneNameInUse(names)
    ensures OrderMatters(names)
  {
    SplitBySchedule(names);
    SplitIsPure(names);
    var e, s := Unscheduled(names), Scheduled(names);
    SameElements(e + s, names);
    SomeOfEach(e, s);
    EitherEndFirst(e, s);
    assert multiset(e + s) == multiset(names) && multiset(s + e) == multiset(names);
  }

  lemma SomeOfEach(e: seq<string>, s: seq<string>)
    requires "" in e + s && (exists n :: n in e + s && n != "")
    requires forall k :: 0 <= k < |e| ==> e[k] == ""
    requires forall k :: 0 <= k < |s| ==> s[k] != ""
    ensures e != [] && s != []
  {
    var n :| n in e + s && n != "";
    assert n in s;
    assert "" in e;
  }

  lemma EitherEndFirst(e: seq<string>, s: seq<string>)
    requires e != [] && s != [] && OneNameInUse(e + s)
    requires forall k :: 0 <= k < |e| ==> e[k] == ""
    requires forall k :: 0 <= k < |s| ==> s[k] != ""
    ensures OneNode(e + s) && !OneNode(s + e)
    ensures multiset(e + s) == multiset(s + e)
  {
    forall i, j | 0 <= i < j < |e + s| && (e + s)[i] != ""
      ensures (e + s)[j] == (e + s)[i]
    {
      assert (e + s)[i] in e + s && (e + s)[j] in e + s;
    }
    assert (s + e)[0] != "" && (s + e)[|s|] == "";
  }

  /** With every pod scheduled the order is irrelevant. */
  lemma ScheduledOrderIrrelevant(names: seq<string>, other: seq<string>)
    requires "" !in names && multiset(other) == multiset(names)
    ensures OneNode(other) == OneNode(names)
  {
    OrderMattersExactly(names);
  }

  // ----- all replica sets

  ghost predicate IsOrder(groups: map<string, seq<Pod>>, order: seq<string>) {
    && NoDuplicates(order)
    && forall key :: key in order <==> key in groups && |groups[key]| >= 2
  }

  /** One verdict for each group of two or more, in the given order. */
  ghost predicate Verdicts(groups: map<string, seq<Pod>>, order: seq<string>, results: seq<Verdict>) {
    && IsOrder(groups, order)
    && |results| == |order|
    && forall k :: 0 <= k < |order| ==> order[k] in groups && results[k] == Judge(order[k], groups[order[k]])
  }

  /** Go visits a map's keys in any order. */
  method CheckReplicaSets(groups: map<string, seq<Pod>>) returns (results: seq<Verdict>)
    ensures exists order :: Verdicts(groups, order, results)
  {
    results := [];
    var left := groups.Keys;
    ghost var order: seq<string> := [];
    while left != {}
      invariant left <= groups.Keys
      invariant NoDuplicates(order) && |results| == |order|
      invariant forall key :: key in order <==> key in groups && key !in left && |groups[key]| >= 2
      invariant forall k :: 0 <= k < |order| ==> order[k] in groups && results[k] == Judge(order[k], groups[order[k]])
      decreases |left|
    {
      var rsName :| rsName in left;
      left := left - {rsName};
      var rsPods := groups[rsName];
      if |rsPods| <= 1 {
        continue;
      }
      var r := CheckPodsInReplicaSet(rsName, rsPods);
      results := results + [r];
      order := order + [rsName];
    }
    assert Verdicts(groups, order, results);
  }

  // ----- the report, in terms of the pods listed

  /** The pod's first owner is the replica set of this name in the pod's namespace. */
  ghost predicate IsUnder(p: Pod, key: string) {
    p.owners != [] && exists name ::
      p.owners[0] == OwnerRef("apps/v1", "ReplicaSet", name) && key == p.namespace + "/" + name
  }

  ghost predicate HasTwoPods(pods: seq<Pod>, key: string) {
    exists i, j :: 0 <= i < j < |pods| && IsUnder(pods[i], key) && IsUnder(pods[j], key)
  }

  /** Of the pods of the replica set, those listed after a scheduled one are on its node. */
  ghost predicate OnOneNode(pods: seq<Pod>, key: string) {
    forall i, j :: 0 <= i < j < |pods| && IsUnder(pods[i], key) && IsUnder(pods[j], key) && pods[i].nodeName != "" ==>
      pods[j].nodeName == pods[i].nodeName
  }

  lemma InGroupIsUnder(p: Pod, key: string)
    ensures InGroup(p, key) <==> IsUnder(p, key)
  {
    if InGroup(p, key) {
      assert p.owners[0] == OwnerRef("apps/v1", "ReplicaSet", p.owners[0].name);
    }
  }

  ghost function Under(key: string): Pod -> bool {
    (p: Pod) => InGroup(p, key)
  }

  /** Where the members of a group are listed. */
  lemma {:induction false} PlacesOfMembers(pods: seq<Pod>, key: string) returns (at: seq<nat>)
    ensures Selects(Under(key), pods, Members(pods, key), at)
  {
    if pods == [] {
      at := [];
    } else {
      var n := |pods| - 1;
      at := PlacesOfMembers(pods[..n], key);
      assert pods == pods[..n] + [pods[n]];
      if InGroup(pods[n], key) {
        SelectsKept(Under(key), pods[..n], Members(pods[..n], key), at, pods[n]);
        at := at + [n];
      } else {
        SelectsDropped(Under(key), pods[..n], Members(pods[..n], key), at, pods[n]);
      }
    }
  }

  lemma GroupReport(pods: seq<Pod>, key: string)
    ensures |Members(pods, key)| >= 2 <==> HasTwoPods(pods, key)
    ensures OneNode(NodeNames(Members(pods, key))) <==> OnOneNode(pods, key)
  {
    var at := PlacesOfMembers(pods, key);
    var members := Members(pods, key);
    forall i | 0 <= i < |pods|
      ensures i in at <==> IsUnder(pods[i], key)
    {
      InGroupIsUnder(pods[i], key);
      assert Under(key)(pods[i]) <==> InGroup(pods[i], key);
    }
    TwoAt(pods, key, at);
    OneNodeAt(pods, key, at, members);
  }

  lemma TwoAt(pods: seq<Pod>, key: string, at: seq<nat>)
    requires Increasing(at, |pods|)
    requires forall i :: 0 <= i < |pods| ==> (i in at <==> IsUnder(pods[i], key))
    ensures |at| >= 2 <==> HasTwoPods(pods, key)
  {
    if |at| >= 2 {
      assert at[0] in at && at[1] in at;
    }
    if i, j :| 0 <= i < j < |pods| && IsUnder(pods[i], key) && IsUnder(pods[j], key) {
      assert i in at && j in at;
    }
  }

  lemma OneNodeAt(pods: seq<Pod>, key: string, at: seq<nat>, members: seq<Pod>)
    requires |at| == |members| && Increasing(at, |pods|)
    requires forall a :: 0 <= a < |at| ==> pods[at[a]] == members[a]
    requires forall i :: 0 <= i < |pods| ==> (i in at <==> IsUnder(pods[i], key))
    ensures OneNode(NodeNames(members)) <==> OnOneNode(pods, key)
  {
    var names := NodeNames(members);
    if OneNode(names) {
      forall i, j | 0 <= i < j < |pods| && IsUnder(pods[i], key) && IsUnder(pods[j], key) && pods[i].nodeName != ""
        ensures pods[j].nodeName == pods[i].nodeName
      {
        var a :| 0 <= a < |at| && at[a] == i;
        var b :| 0 <= b < |at| && at[b] == j;
        assert a < b && names[a] == pods[i].nodeName && names[b] == pods[j].nodeName;
      }
    }
    if OnOneNode(pods, key) {
      forall a, b | 0 <= a < b < |names| && names[a] != ""
        ensures names[b] == names[a]
      {
        assert at[a] in at && at[b] in at;
        assert IsUnder(pods[at[a]], key) && IsUnder(pods[at[b]], key);
      }
    }
  }

  /** A verdict is reported exactly if its group has two or more pods and is judged so. */
  lemma VerdictReported(groups: map<string, seq<Pod>>, order: seq<string>, results: seq<Verdict>, v: Verdict)
    requires Verdicts(groups, order, results)
    ensures v in results <==>
      v.rsName in groups && |groups[v.rsName]| >= 2 && v == Judge(v.rsName, groups[v.rsName])
  {
    if v in results {
      var k :| 0 <= k < |results| && results[k] == v;
      assert order[k] in order && order[k] == v.rsName;
    }
    if v.rsName in order {
      var k :| 0 <= k < |order| && order[k] == v.rsName;
      assert results[k] == Judge(v.rsName, groups[v.rsName]);
    }
  }

  /** What is reported of a replica set. */
  lemma ReportOf(pods: seq<Pod>, groups: map<string, seq<Pod>>, order: seq<string>, results: seq<Verdict>, key: string)
    requires IsGrouping(pods, groups) && Verdicts(groups, order, results)
    ensures SameNode(key) in results <==> HasTwoPods(pods, key) && OnOneNode(pods, key)
    ensures DifferentNodes(key) in results <==> HasTwoPods(pods, key) && !OnOneNode(pods, key)
  {
    GroupReport(pods, key);
    VerdictReported(groups, order, results, SameNode(key));
    VerdictReported(groups, order, results, DifferentNodes(key));
  }

  lemma ReportedOnce(groups: map<string, seq<Pod>>, order: seq<string>, results: seq<Verdict>)
    requires Verdicts(groups, order, results)
    ensures NoDuplicates(results)
  {
    forall i, j | 0 <= i < j < |results|
      ensures results[i] != results[j]
    {
      assert results[i].rsName == order[i] && results[j].rsName == order[j];
    }
  }

  /** The whole check; a failure to list the pods is only logged. Otherwise each replica set with two or
      more pods listed is reported once: as an error if its pods are on one node, else as a description. */
  method CheckPodSchedule(listed: Option<seq<Pod>>) returns (results: seq<Verdict>)
    ensures listed.None? ==> results == []
    ensures listed.Some? ==>
      exists groups, order :: IsGrouping(listed.value, groups) && Verdicts(groups, order, results)
    ensures listed.Some? ==> NoDuplicates(results)
    ensures listed.Some? ==> forall key ::
      SameNode(key) in results <==> HasTwoPods(listed.value, key) && OnOneNode(listed.value, key)
    ensures listed.Some? ==> forall key ::
      DifferentNodes(key) in results <==> HasTwoPods(listed.value, key) && !OnOneNode(listed.value, key)
  {
    if listed.None? {
      return [];
    }
    var podsByRs := GroupByReplicaSet(listed.value);
    results := CheckReplicaSets(podsByRs);
    ghost var order :| Verdicts(podsByRs, order, results);
    ReportedOnce(podsByRs, order, results);
    forall key
      ensures SameNode(key) in results <==> HasTwoPods(listed.value, key) && OnOneNode(listed.value, key)
      ensures DifferentNodes(key) in results <==> HasTwoPods(listed.value, key) && !OnOneNode(listed.value, key)
    {
      ReportOf(listed.value, podsByRs, order, results, key);
    }
  }

  lemma {:induction false} SameMultiset(a: seq<string>, b: seq<string>)
    requires NoDuplicates(a) && NoDuplicates(b) && forall x :: x in a <==> x in b
    ensures multiset(a) == multiset(b)
  {
    forall x
      ensures multiset(a)[x] == multiset(b)[x]
    {
      OccursOnce(a, x);
      OccursOnce(b, x);
    }
  }

  lemma {:induction false} OccursOnce(s: seq<string>, x: string)
    requires NoDuplicates(s)
    ensures multiset(s)[x] == if x in s then 1 else 0
  {
    if s != [] {
      OccursOnce(s[1..], x);
      assert s == [s[0]] + s[1..];
    }
  }

  /** The order of visits never shows in the results as a multiset: two runs over the same pods
      report the same verdicts, whatever maps and orders they went through. */
  lemma VisitOrderIrrelevant(pods: seq<Pod>, g1: map<string, seq<Pod>>, o1: seq<string>, r1: seq<Verdict>,
                             g2: map<string, seq<Pod>>, o2: seq<string>, r2: seq<Verdict>)
    requires IsGrouping(pods, g1) && IsGrouping(pods, g2)
    requires Verdicts(g1, o1, r1) && Verdicts(g2, o2, r2)
    ensures multiset(r1) == multiset(r2)
  {
    assert g1 == g2;
    SameMultiset(o1, o2);
    var judge := (key: string) => if key in g1 then Judge(key, g1[key]) else SameNode(key);
    assert r1 == Map(judge, o1);
    assert r2 == Map(judge, o2);
    MapOfPermutation(judge, o1, o2);
  }
}
