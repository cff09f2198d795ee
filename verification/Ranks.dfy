/**
How far a key is from converged, and what one pass does to that distance once nobody but
the operator writes.
*/
module Ranks {
  import opened GoSlices
  import opened ApiServer
  import opened Reconciler
  import opened ListingOrder

  // ------------------------------------------------------------ the rank

  function Listed(s: Store, k: Key): GoList<string> {
    PodNames(PodsOf(s.pods, k))
  }

  predicate RightSize(s: Store, k: Key)
    requires k in s.crs
  {
    k in s.deployments && s.deployments[k].replicas == s.crs[k].size
  }

  // The distance from convergence, the status counting as right when it has the listed
  // names, in the listed order or (for Free) in any.
  // 2: the Deployment is missing or of the wrong size; 1: only the status differs; 0: converged.
  function Rank(o: Order, s: Store, k: Key): nat
    requires k in s.crs
  {
    if !RightSize(s, k) then 2 else if !SameNames(o, s.crs[k].nodes, Listed(s, k)) then 1 else 0
  }

  // ------------------------------------------------------------ what the operator does to a key

  // s' is s after operator writes only: at k, each object is as it was, or newer and right.
  ghost predicate Advances(o: Order, s: Store, s': Store, k: Key) {
    && s'.clock >= s.clock && s'.pods == s.pods && s'.strict == s.strict
    && k in s.crs && k in s'.crs
    && (s'.crs[k] == s.crs[k] ||
        (s'.crs[k].version > s.clock && SameNames(o, s'.crs[k].nodes, Listed(s, k)) &&
         s'.crs[k] == s.crs[k].(nodes := s'.crs[k].nodes, version := s'.crs[k].version)))
    && (k in s.deployments ==> k in s'.deployments)
    && (k in s'.deployments ==>
          (k in s.deployments && s'.deployments[k] == s.deployments[k]) ||
          (s'.deployments[k].version > s.clock && s'.deployments[k].replicas == s.crs[k].size))
  }

  // What a cache may show of k, once nobody but the operator writes: the present object
  // or one that the operator has replaced since.
  ghost predicate Behind(o: Order, view: Store, s: Store, k: Key) {
    && ShowsPods(o, view.pods, s.pods) && view.clock <= s.clock
    && k in view.crs && k in s.crs
    && view.crs[k].key == k && view.crs[k].size == s.crs[k].size
    && view.crs[k].version <= view.clock
    && (view.crs[k].version == s.crs[k].version ==> view.crs[k] == s.crs[k])
    && (SameNames(o, view.crs[k].nodes, Listed(s, k)) ==> SameNames(o, s.crs[k].nodes, Listed(s, k)))
    && (k in view.deployments ==>
          && view.deployments[k].key == k && view.deployments[k].version <= view.clock
          && (k in s.deployments && view.deployments[k].version == s.deployments[k].version ==>
                view.deployments[k] == s.deployments[k])
          && (view.deployments[k].replicas == s.crs[k].size ==> RightSize(s, k)))
  }

  // A cache that shows of k what the server holds now.
  ghost predicate FreshAt(o: Order, view: Store, s: Store, k: Key) {
    && ShowsPods(o, view.pods, s.pods)
    && k in s.crs && k in view.crs && view.crs[k] == s.crs[k]
    && (k in view.deployments <==> k in s.deployments)
    && (k in s.deployments ==> view.deployments[k] == s.deployments[k])
  }

  lemma BehindStays(o: Order, view: Store, s: Store, s': Store, k: Key)
    requires Behind(o, view, s, k) && Advances(o, s, s', k)
    ensures Behind(o, view, s', k)
  {
  }

  ghost predicate Keyed(view: Store) {
    && (forall k | k in view.crs :: view.crs[k].key == k)
    && (forall k | k in view.deployments :: view.deployments[k].key == k)
  }

  lemma WritesKeepValid(s: Store, d: Deployment, cr: CR)
    requires ValidStore(s)
    ensures Create(s, d).Committed? ==> ValidStore(Create(s, d).store)
    ensures Update(s, d).Committed? ==> ValidStore(Update(s, d).store)
    ensures UpdateStatus(s, cr).Committed? ==> ValidStore(UpdateStatus(s, cr).store)
  {
  }

  lemma PassKeepsValid(view: Store, s: Store, k: Key, f: Faults)
    requires ValidStore(s)
    ensures ValidStore(Reconcile(view, s, k, f).0)
  {
    if k in view.crs {
      var cr := view.crs[k];
      WritesKeepValid(s, DeploymentFor(cr), cr.(nodes := PodNames(PodsOf(view.pods, cr.key))));
      if cr.key in view.deployments {
        WritesKeepValid(s, view.deployments[cr.key].(replicas := cr.size), cr);
      }
    }
  }

  lemma CreateAdvances(o: Order, view: Store, s: Store, k: Key)
    requires ValidStore(s) && Behind(o, view, s, k) && Create(s, DeploymentFor(view.crs[k])).Committed?
    ensures Advances(o, s, Create(s, DeploymentFor(view.crs[k])).store, k)
  {
  }

  lemma RescaleAdvances(o: Order, view: Store, s: Store, k: Key)
    requires ValidStore(s) && Behind(o, view, s, k) && k in view.deployments
    requires Update(s, view.deployments[k].(replicas := view.crs[k].size)).Committed?
    ensures Advances(o, s, Update(s, view.deployments[k].(replicas := view.crs[k].size)).store, k)
  {
  }

  lemma StatusAdvances(o: Order, view: Store, s: Store, k: Key)
    requires ValidStore(s) && Behind(o, view, s, k)
    requires UpdateStatus(s, view.crs[k].(nodes := Listed(view, k))).Committed?
    ensures Advances(o, s, UpdateStatus(s, view.crs[k].(nodes := Listed(view, k))).store, k)
  {
    ShownListing(o, view.pods, s.pods, k);
  }

  lemma OwnPassAdvances(o: Order, view: Store, s: Store, k: Key, f: Faults)
    requires ValidStore(s) && Behind(o, view, s, k)
    ensures Advances(o, s, Reconcile(view, s, k, f).0, k)
  {
    var s' := Reconcile(view, s, k, f).0;
    if s' != s {
      if k !in view.deployments {
        CreateAdvances(o, view, s, k);
      } else if view.deployments[k].replicas != view.crs[k].size {
        RescaleAdvances(o, view, s, k);
      } else {
        StatusAdvances(o, view, s, k);
      }
    }
  }

  // The very same objects at k.
  ghost predicate IdenticalAt(a: Store, b: Store, k: Key) {
    && a.pods == b.pods && a.strict == b.strict
    && (k in a.crs <==> k in b.crs) && (k in a.crs ==> a.crs[k] == b.crs[k])
    && (k in a.deployments <==> k in b.deployments) && (k in a.deployments ==> a.deployments[k] == b.deployments[k])
  }

  // A write leaves all other keys alone.
  lemma DeploymentWriteIsLocal(s: Store, d: Deployment, f: Fault, k: Key)
    requires d.key != k
    ensures IdenticalAt(s, Commit(s, Create(s, d), f).0, k) && Commit(s, Create(s, d), f).0.clock >= s.clock
    ensures IdenticalAt(s, Commit(s, Update(s, d), f).0, k) && Commit(s, Update(s, d), f).0.clock >= s.clock
  {
  }

  lemma StatusWriteIsLocal(s: Store, cr: CR, f: Fault, k: Key)
    requires cr.key != k
    ensures IdenticalAt(s, Commit(s, UpdateStatus(s, cr), f).0, k)
    ensures Commit(s, UpdateStatus(s, cr), f).0.clock >= s.clock
  {
  }

  lemma OtherPassLeavesAlone(view: Store, s: Store, k: Key, f: Faults, other: Key)
    requires Keyed(view) && k != other
    ensures var s' := Reconcile(view, s, k, f).0;
            IdenticalAt(s, s', other) && s'.clock >= s.clock
  {
    if k in view.crs {
      var cr := view.crs[k];
      DeploymentWriteIsLocal(s, DeploymentFor(cr), f.write, other);
      StatusWriteIsLocal(s, cr.(nodes := Listed(view, k)), f.status, other);
      if k in view.deployments {
        DeploymentWriteIsLocal(s, view.deployments[k].(replicas := cr.size), f.write, other);
      }
    }
  }

  // A pass for another key leaves k alone; a pass for k advances it.
  lemma PassAdvances(o: Order, view: Store, s: Store, k: Key, f: Faults, other: Key)
    requires ValidStore(s) && Keyed(view) && other in s.crs
    requires k == other ==> Behind(o, view, s, k)
    ensures Advances(o, s, Reconcile(view, s, k, f).0, other)
  {
    if k == other {
      OwnPassAdvances(o, view, s, k, f);
    } else {
      OtherPassLeavesAlone(view, s, k, f, other);
    }
  }

  // The rank never rises, not even when a failed call took effect; a pass that does not
  // fail lowers it, or finds it at 0.
  lemma PassLowersRank(o: Order, view: Store, s: Store, k: Key, f: Faults)
    requires ValidStore(s) && Keyed(view) && Behind(o, view, s, k)
    ensures k in Reconcile(view, s, k, f).0.crs
    ensures var (s', result) := Reconcile(view, s, k, f);
            && Rank(o, s', k) <= Rank(o, s, k)
            && (!result.Failed? ==> Rank(o, s', k) < Rank(o, s, k) || Rank(o, s', k) == 0)
            && (result == Done ==> Rank(o, s', k) == 0)
            && (result == Requeue || result == RequeueAfter ==> Rank(o, s, k) == 2)
  {
    PassAdvances(o, view, s, k, f, k);
    ShownListing(o, view.pods, s.pods, k);
  }
}
