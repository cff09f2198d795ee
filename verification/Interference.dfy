/**
What one pass may touch, and why passes for different custom resources do not interfere.
*/
module Interference {
  import opened ApiServer
  import opened Reconciler
  import opened PassCases
  import opened Ranks

  // A cache of s: under its own keys, and equal to what s holds wherever the versions agree.
  ghost predicate CacheOf(view: Store, s: Store) {
    && Keyed(view)
    && (forall k | k in view.crs && k in s.crs ::
          view.crs[k].version == s.crs[k].version ==> view.crs[k] == s.crs[k])
    && (forall k | k in view.deployments && k in s.deployments ::
          view.deployments[k].version == s.deployments[k].version ==> view.deployments[k] == s.deployments[k])
  }

  predicate NoLostReplies(f: Faults) {
    f.write != LostReply && f.status != LostReply
  }

  // The three writes a pass for k can make.
  ghost predicate Creates(view: Store, s: Store, s': Store, k: Key) {
    && k in view.crs && k !in view.deployments && k !in s.deployments && k in s'.deployments
    && IsDeploymentOf(s'.deployments[k], view.crs[k]) && s'.deployments[k].version == s.clock + 1
    && s' == s.(deployments := s.deployments[k := s'.deployments[k]], clock := s.clock + 1)
  }

  ghost predicate Rescales(view: Store, s: Store, s': Store, k: Key) {
    && k in view.crs && k in s.deployments && s.deployments[k].replicas != view.crs[k].size
    && s' == s.(deployments := s.deployments[k := s.deployments[k].(replicas := view.crs[k].size,
                                                                    version := s.clock + 1)],
                clock := s.clock + 1)
  }

  ghost predicate SetsStatus(view: Store, s: Store, s': Store, k: Key) {
    && k in s.crs && s.crs[k].nodes != Listed(view, k)
    && s' == s.(crs := s.crs[k := s.crs[k].(nodes := Listed(view, k), version := s.clock + 1)],
                clock := s.clock + 1)
  }

  // At most one write, to Deployment k or to the status of custom resource k and to
  // nothing else, and only after reads that worked; a failed pass whose calls lost no reply
  // leaves the cluster as it found it, and a result that asks for a requeue comes with its write.
  lemma PassFrame(view: Store, s: Store, k: Key, f: Faults)
    requires ValidStore(s) && CacheOf(view, s)
    ensures var (s', result) := Reconcile(view, s, k, f);
            && (s' == s || Creates(view, s, s', k) || Rescales(view, s, s', k) || SetsStatus(view, s, s', k))
            && (result.Failed? && NoLostReplies(f) ==> s' == s)
            && (s' != s ==> ReadsWork(f))
            && (result == Requeue ==> Creates(view, s, s', k))
            && (result == RequeueAfter ==> Rescales(view, s, s', k))
  {
  }

  // ------------------------------------------------------------ disjoint pods

  lemma LabelsInjective(name: string, other: string)
    requires LabelsFor(name) == LabelsFor(other)
    ensures name == other
  {
    assert LabelsFor(name)["golangappoperatored_cr"] == LabelsFor(other)["golangappoperatored_cr"];
  }

  // No pod is listed for two custom resources.
  lemma PodSetsDisjoint(pods: seq<Pod>, k: Key, other: Key, p: Pod)
    requires p in PodsOf(pods, k) && p in PodsOf(pods, other)
    ensures k == other
  {
    ListedPods(pods, k.namespace, LabelsFor(k.name), p);
    ListedPods(pods, other.namespace, LabelsFor(other.name), p);
    assert "golangappoperatored_cr" in LabelsFor(k.name) && "golangappoperatored_cr" in LabelsFor(other.name);
  }

  // ------------------------------------------------------------ commuting passes

  function Unversioned(s: Store): Store {
    s.(crs := map k | k in s.crs :: s.crs[k].(version := 0),
       deployments := map k | k in s.deployments :: s.deployments[k].(version := 0),
       clock := 0)
  }

  // The same objects at k, versions aside.
  ghost predicate SameAt(a: Store, b: Store, k: Key) {
    && a.pods == b.pods && a.strict == b.strict
    && (k in a.crs <==> k in b.crs)
    && (k in a.crs ==> a.crs[k].(version := 0) == b.crs[k].(version := 0))
    && (k in a.deployments <==> k in b.deployments)
    && (k in a.deployments ==> a.deployments[k].(version := 0) == b.deployments[k].(version := 0))
  }

  // Two caches show a pass for k the same.
  ghost predicate ShowSame(view: Store, other: Store, k: Key) {
    && Keyed(view) && Keyed(other) && view.pods == other.pods
    && (k in view.crs <==> k in other.crs) && (k in view.crs ==> view.crs[k] == other.crs[k])
    && (k in view.deployments <==> k in other.deployments)
    && (k in view.deployments ==> view.deployments[k] == other.deployments[k])
  }

  lemma CreateIsLocal(a: Store, b: Store, d: Deployment, f: Fault)
    requires IdenticalAt(a, b, d.key)
    ensures Commit(a, Create(a, d), f).1 == Commit(b, Create(b, d), f).1
    ensures SameAt(Commit(a, Create(a, d), f).0, Commit(b, Create(b, d), f).0, d.key)
  {
  }

  lemma UpdateIsLocal(a: Store, b: Store, d: Deployment, f: Fault)
    requires IdenticalAt(a, b, d.key)
    ensures Commit(a, Update(a, d), f).1 == Commit(b, Update(b, d), f).1
    ensures SameAt(Commit(a, Update(a, d), f).0, Commit(b, Update(b, d), f).0, d.key)
  {
  }

  lemma StatusIsLocal(a: Store, b: Store, cr: CR, f: Fault)
    requires IdenticalAt(a, b, cr.key)
    ensures Commit(a, UpdateStatus(a, cr), f).1 == Commit(b, UpdateStatus(b, cr), f).1
    ensures SameAt(Commit(a, UpdateStatus(a, cr), f).0, Commit(b, UpdateStatus(b, cr), f).0, cr.key)
  {
  }

  lemma SameCachesSamePass(view: Store, other: Store, s: Store, k: Key, f: Faults)
    requires ShowSame(view, other, k)
    ensures Reconcile(view, s, k, f) == Reconcile(other, s, k, f)
  {
  }

  lemma SameObjectsSamePass(view: Store, a: Store, b: Store, k: Key, f: Faults)
    requires Keyed(view) && IdenticalAt(a, b, k)
    ensures Reconcile(view, a, k, f).1 == Reconcile(view, b, k, f).1
    ensures SameAt(Reconcile(view, a, k, f).0, Reconcile(view, b, k, f).0, k)
  {
    if k in view.crs && f.getCR == Works && f.getDeployment == Works {
      var cr := view.crs[k];
      if k !in view.deployments {
        CreateIsLocal(a, b, DeploymentFor(cr), f.write);
      } else if view.deployments[k].replicas != cr.size {
        UpdateIsLocal(a, b, view.deployments[k].(replicas := cr.size), f.write);
      } else if f.list == Works && Listed(view, k) != cr.nodes {
        StatusIsLocal(a, b, cr.(nodes := Listed(view, k)), f.status);
      }
    }
  }

  // What a pass for k does depends only on what its cache shows of k and on the objects at
  // k; the cache may be anything.
  lemma PassIsLocal(view: Store, a: Store, other: Store, b: Store, k: Key, f: Faults)
    requires ShowSame(view, other, k) && IdenticalAt(a, b, k)
    ensures Reconcile(view, a, k, f).1 == Reconcile(other, b, k, f).1
    ensures SameAt(Reconcile(view, a, k, f).0, Reconcile(other, b, k, f).0, k)
  {
    SameCachesSamePass(view, other, b, k, f);
    SameObjectsSamePass(view, a, b, k, f);
  }

  lemma PassLeavesOthers(view: Store, s: Store, k: Key, f: Faults, other: Key)
    requires Keyed(view) && other != k
    ensures IdenticalAt(s, Reconcile(view, s, k, f).0, other)
  {
    OtherPassLeavesAlone(view, s, k, f, other);
  }

  // Passes for different keys commute, with caches of any content: either order gives both
  // passes the same results and leaves the same cluster, but for the version numbers
  // handed out. Each pass may read a cache of its own, and another one in the other order,
  // as long as the cache shows its key alike in both.
  lemma PassesCommute(s: Store, k: Key, f: Faults, view: Store, later: Store,
                      other: Key, g: Faults, otherView: Store, otherLater: Store)
    requires k != other && ShowSame(view, later, k) && ShowSame(otherView, otherLater, other)
    ensures var (s1, r1) := Reconcile(view, s, k, f);
            var (s2, r2) := Reconcile(otherView, s, other, g);
            var (s12, q2) := Reconcile(otherLater, s1, other, g);
            var (s21, q1) := Reconcile(later, s2, k, f);
            q1 == r1 && q2 == r2 && Unversioned(s12) == Unversioned(s21)
  {
    var (s1, r1) := Reconcile(view, s, k, f);
    var (s2, r2) := Reconcile(otherView, s, other, g);
    var (s12, q2) := Reconcile(otherLater, s1, other, g);
    var (s21, q1) := Reconcile(later, s2, k, f);
    PassLeavesOthers(view, s, k, f, other);
    PassLeavesOthers(otherView, s, other, g, k);
    PassIsLocal(view, s, later, s2, k, f);
    PassIsLocal(otherView, s, otherLater, s1, other, g);
    PassLeavesOthers(otherLater, s1, other, g, k);
    PassLeavesOthers(later, s2, k, f, other);
    forall j
      ensures SameAt(s12, s21, j)
    {
      if j != k && j != other {
        PassLeavesOthers(view, s, k, f, j);
        PassLeavesOthers(otherView, s, other, g, j);
        PassLeavesOthers(otherLater, s1, other, g, j);
        PassLeavesOthers(later, s2, k, f, j);
      }
    }
    SameEverywhere(s12, s21);
  }

  // In particular: with the one lagging cache that both passes share, ...
  lemma PassesCommuteOneCache(s: Store, cache: Store, k: Key, f: Faults, other: Key, g: Faults)
    requires k != other && Keyed(cache)
    ensures var (s1, r1) := Reconcile(cache, s, k, f);
            var (s2, r2) := Reconcile(cache, s, other, g);
            var (s12, q2) := Reconcile(cache, s1, other, g);
            var (s21, q1) := Reconcile(cache, s2, k, f);
            q1 == r1 && q2 == r2 && Unversioned(s12) == Unversioned(s21)
  {
    PassesCommute(s, k, f, cache, cache, other, g, cache, cache);
  }

  // ... and with caches that are always up to date.
  lemma PassesCommuteFresh(s: Store, k: Key, f: Faults, other: Key, g: Faults)
    requires k != other && ValidStore(s)
    ensures var (s1, r1) := Reconcile(s, s, k, f);
            var (s2, r2) := Reconcile(s, s, other, g);
            var (s12, q2) := Reconcile(s1, s1, other, g);
            var (s21, q1) := Reconcile(s2, s2, k, f);
            q1 == r1 && q2 == r2 && Unversioned(s12) == Unversioned(s21)
  {
    var s1, s2 := Reconcile(s, s, k, f).0, Reconcile(s, s, other, g).0;
    PassKeepsValid(s, s, k, f);
    PassKeepsValid(s, s, other, g);
    PassLeavesOthers(s, s, k, f, other);
    PassLeavesOthers(s, s, other, g, k);
    PassesCommute(s, k, f, s, s2, other, g, s, s1);
  }

  lemma SameEverywhere(a: Store, b: Store)
    requires forall k :: SameAt(a, b, k)
    ensures Unversioned(a) == Unversioned(b)
  {
    assert SameAt(a, b, Key("", ""));
    SameCRs(a, b);
    SameDeployments(a, b);
  }

  lemma SameCRs(a: Store, b: Store)
    requires forall k :: SameAt(a, b, k)
    ensures Unversioned(a).crs == Unversioned(b).crs
  {
    forall k
      ensures k in a.crs <==> k in b.crs
      ensures k in a.crs ==> Unversioned(a).crs[k] == Unversioned(b).crs[k]
    {
      assert SameAt(a, b, k);
    }
  }

  lemma SameDeployments(a: Store, b: Store)
    requires forall k :: SameAt(a, b, k)
    ensures Unversioned(a).deployments == Unversioned(b).deployments
  {
    forall k
      ensures k in a.deployments <==> k in b.deployments
      ensures k in a.deployments ==> Unversioned(a).deployments[k] == Unversioned(b).deployments[k]
    {
      assert SameAt(a, b, k);
    }
  }
}
