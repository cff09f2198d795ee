/**
One pass of the operator's reconcile loop, as the method that runs it against a client
and as the function of stores that the method computes.
*/
module Reconciler {
  import opened GoSlices
  import opened ApiServer

  // The result of a pass: requeue at once, requeue in a minute, done, or an error.
  datatype Outcome = Requeue | RequeueAfter | Done | Failed(error: Error)

  // How each of a pass's API calls goes.
  datatype Faults = Faults(getCR: Fault, getDeployment: Fault, write: Fault, list: Fault, status: Fault)

  const NO_FAULTS := Faults(Works, Works, Works, Works, Works)
  const IMAGE := "675617749633.dkr.ecr.ap-southeast-2.amazonaws.com/eks-cluster/golang-app:v1"
  const TEMPLATE := [TemplateContainer(IMAGE, "golangappoperator", 8081, "golangappoper")]

  function LabelsFor(name: string): LabelMap {
    map["app" := "golangappoperatored", "golangappoperatored_cr" := name]
  }

  // The Deployment for a custom resource, owned by it.
  function DeploymentFor(m: CR): Deployment {
    var ls := LabelsFor(m.key.name);
    Deployment(m.key, 0, m.size, ls, ls, Some(m.uid), TEMPLATE)
  }

  function PodsOf(pods: seq<Pod>, k: Key): seq<Pod> {
    ListPods(pods, k.namespace, LabelsFor(k.name))
  }

  // The pod is in the resource's namespace and carries both of its labels.
  predicate BelongsTo(p: Pod, k: Key) {
    && p.namespace == k.namespace
    && "app" in p.labels && p.labels["app"] == "golangappoperatored"
    && "golangappoperatored_cr" in p.labels && p.labels["golangappoperatored_cr"] == k.name
  }

  // Which pods are listed for a custom resource, and how often; ...
  lemma PodsOfAre(pods: seq<Pod>, k: Key, p: Pod)
    ensures multiset(PodsOf(pods, k))[p] == if BelongsTo(p, k) then multiset(pods)[p] else 0
    ensures p in PodsOf(pods, k) <==> p in pods && BelongsTo(p, k)
  {
    var labels := LabelsFor(k.name);
    ListedPods(pods, k.namespace, labels, p);
    assert "app" in labels && "golangappoperatored_cr" in labels;
  }

  // ... and in which order.
  lemma PodsOfInOrder(p: Pod, pods: seq<Pod>, k: Key)
    ensures PodsOf([], k) == []
    ensures PodsOf([p] + pods, k) == (if BelongsTo(p, k) then [p] else []) + PodsOf(pods, k)
  {
    var labels := LabelsFor(k.name);
    ListFromFront([p] + pods, k.namespace, labels);
    assert ([p] + pods)[1..] == pods;
    assert "app" in labels && "golangappoperatored_cr" in labels;
  }

  // The names of the pods; no pods give the nil slice.
  function PodNames(pods: seq<Pod>): GoList<string> {
    if pods == [] then Nil else List(seq(|pods|, i requires 0 <= i < |pods| => pods[i].name))
  }

  function ReadFailed(f: Fault): bool {
    f != Works
  }

  function Result(w: (Store, Option<Error>), success: Outcome): (Store, Outcome) {
    (w.0, if w.1.None? then success else Failed(w.1.value))
  }

  // A pass for k: reads come from `view` (the client's cache), writes go to `s`.
  function Reconcile(view: Store, s: Store, k: Key, f: Faults): (Store, Outcome) {
    if ReadFailed(f.getCR) then (s, Failed(Unavailable))
    else if k !in view.crs then (s, Done)
    else
      var cr := view.crs[k];
      if ReadFailed(f.getDeployment) then (s, Failed(Unavailable))
      else if cr.key !in view.deployments then
        Result(Commit(s, Create(s, DeploymentFor(cr)), f.write), Requeue)
      else
        var found := view.deployments[cr.key];
        if found.replicas != cr.size then
          Result(Commit(s, Update(s, found.(replicas := cr.size)), f.write), RequeueAfter)
        else if ReadFailed(f.list) then (s, Failed(Unavailable))
        else
          var names := PodNames(PodsOf(view.pods, cr.key));
          if names == cr.nodes then (s, Done)
          else Result(Commit(s, UpdateStatus(s, cr.(nodes := names)), f.status), Done)
  }

  // getPodNames
  method GetPodNames(pods: seq<Pod>) returns (podNames: GoList<string>)
    ensures podNames == PodNames(pods)
    ensures podNames.Nil? <==> pods == []
    ensures |podNames.Items()| == |pods|
    ensures forall i | 0 <= i < |pods| :: podNames.Items()[i] == pods[i].name
  {
    podNames := Nil;
    for i := 0 to |pods|
      invariant podNames == PodNames(pods[..i])
    {
      podNames := podNames.Append([pods[i].name]);
    }
    assert pods[..|pods|] == pods;
  }

  // The client: cached reads, direct writes.
  class Client {
    var cache: Store
    var store: Store

    constructor (cache: Store, store: Store)
      ensures this.cache == cache && this.store == store
    {
      this.cache, this.store := cache, store;
    }

    method GetCR(k: Key, f: Fault) returns (cr: Option<CR>, err: Option<Error>)
      ensures err.None? <==> f == Works && k in cache.crs
      ensures err.None? ==> cr == Some(cache.crs[k])
      ensures err.Some? ==> err.value == if f == Works then NotFound else Unavailable
    {
      if f != Works {
        return None, Some(Unavailable);
      }
      if k !in cache.crs {
        return None, Some(NotFound);
      }
      return Some(cache.crs[k]), None;
    }

    method GetDeployment(k: Key, f: Fault) returns (d: Option<Deployment>, err: Option<Error>)
      ensures err.None? <==> f == Works && k in cache.deployments
      ensures err.None? ==> d == Some(cache.deployments[k])
      ensures err.Some? ==> err.value == if f == Works then NotFound else Unavailable
    {
      if f != Works {
        return None, Some(Unavailable);
      }
      if k !in cache.deployments {
        return None, Some(NotFound);
      }
      return Some(cache.deployments[k]), None;
    }

    method List(namespace: string, labels: LabelMap, f: Fault) returns (items: seq<Pod>, err: Option<Error>)
      ensures err == if f == Works then None else Some(Unavailable)
      ensures err.None? ==> items == ListPods(cache.pods, namespace, labels)
    {
      if f != Works {
        return [], Some(Unavailable);
      }
      return ListPods(cache.pods, namespace, labels), None;
    }

    method CreateDeployment(d: Deployment, f: Fault) returns (err: Option<Error>)
      modifies this`store
      ensures (store, err) == Commit(old(store), Create(old(store), d), f)
    {
      var (t, e) := Commit(store, Create(store, d), f);
      store, err := t, e;
    }

    method UpdateDeployment(d: Deployment, f: Fault) returns (err: Option<Error>)
      modifies this`store
      ensures (store, err) == Commit(old(store), Update(old(store), d), f)
    {
      var (t, e) := Commit(store, Update(store, d), f);
      store, err := t, e;
    }

    method StatusUpdate(cr: CR, f: Fault) returns (err: Option<Error>)
      modifies this`store
      ensures (store, err) == Commit(old(store), UpdateStatus(old(store), cr), f)
    {
      var (t, e) := Commit(store, UpdateStatus(store, cr), f);
      store, err := t, e;
    }

    // The pass itself, call by call.
    method RunPass(req: Key, f: Faults) returns (result: Outcome)
      modifies this`store
      ensures (store, result) == Reconcile(cache, old(store), req, f)
    {
      var got, err := GetCR(req, f.getCR);
      if err.Some? {
        if err.value == NotFound {
          return Done;
        }
        return Failed(err.value);
      }
      var golangappoperatored := got.value;

      var existing, err2 := GetDeployment(golangappoperatored.key, f.getDeployment);
      if err2 == Some(NotFound) {
        var dep := DeploymentFor(golangappoperatored);
        err := CreateDeployment(dep, f.write);
        if err.Some? {
          return Failed(err.value);
        }
        return Requeue;
      } else if err2.Some? {
        return Failed(err2.value);
      }
      var found := existing.value;

      var size := golangappoperatored.size;
      if found.replicas != size {
        found := found.(replicas := size);
        err := UpdateDeployment(found, f.write);
        if err.Some? {
          return Failed(err.value);
        }
        return RequeueAfter;
      }

      var items, listErr := List(golangappoperatored.key.namespace, LabelsFor(golangappoperatored.key.name), f.list);
      if listErr.Some? {
        return Failed(listErr.value);
      }
      var podNames := GetPodNames(items);

      if podNames != golangappoperatored.nodes {
        golangappoperatored := golangappoperatored.(nodes := podNames);
        err := StatusUpdate(golangappoperatored, f.status);
        if err.Some? {
          return Failed(err.value);
        }
      }
      return Done;
    }
  }
}
