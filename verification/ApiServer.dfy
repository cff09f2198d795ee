/**
The API server as the operator uses it: custom resources, Deployments and pods, with
versioned writes. These are the assumed contracts of the client library.
*/
module ApiServer {
  import opened GoSlices

  datatype Key = Key(namespace: string, name: string)

  type LabelMap = map<string, string>

  // `version` is metadata.resourceVersion; `rest` is everything the operator never reads.
  datatype CR = CR(key: Key, uid: string, version: nat, size: int, nodes: GoList<string>, rest: string)

  // A container of a Deployment's pod template, with its one port.
  datatype TemplateContainer = TemplateContainer(image: string, name: string, containerPort: int, portName: string)

  // `owner` is the uid of the controlling custom resource.
  datatype Deployment = Deployment(key: Key, version: nat, replicas: int, selector: LabelMap,
                                   templateLabels: LabelMap, owner: Option<string>,
                                   template: seq<TemplateContainer>)

  datatype Pod = Pod(namespace: string, name: string, labels: LabelMap)

  // With `strict` the server validates as Kubernetes does with this operator's CRD: no
  // negative replicas, label values of at most 63 characters, and status.nodes a required
  // array. Without it the server takes whatever is written.
  datatype Store = Store(crs: map<Key, CR>, deployments: map<Key, Deployment>, pods: seq<Pod>,
                         clock: nat, strict: bool)

  datatype Error = NotFound | AlreadyExists | Conflict | Invalid | Unavailable

  // How a call goes: it works, it fails without effect, or it takes effect and the reply is lost.
  datatype Fault = Works | Refused | LostReply

  const MAX_LABEL_VALUE := 63

  predicate FitsLabels(labels: LabelMap) {
    forall k | k in labels :: |labels[k]| <= MAX_LABEL_VALUE
  }

  predicate Acceptable(s: Store, d: Deployment) {
    s.strict ==> d.replicas >= 0 && FitsLabels(d.selector) && FitsLabels(d.templateLabels)
  }

  // Every object is stored under its own key, no version is ahead of the clock, and a
  // strict server holds only Deployments that it would accept.
  ghost predicate ValidStore(s: Store) {
    && (forall k | k in s.crs :: s.crs[k].key == k && s.crs[k].version <= s.clock)
    && (forall k | k in s.deployments ::
          s.deployments[k].key == k && s.deployments[k].version <= s.clock && Acceptable(s, s.deployments[k]))
  }

  // The store after a write, or the reason there is none.
  datatype Written = Committed(store: Store) | Rejected(error: Error)

  function Create(s: Store, d: Deployment): Written {
    if d.key in s.deployments then Rejected(AlreadyExists)
    else if !Acceptable(s, d) then Rejected(Invalid)
    else Committed(s.(deployments := s.deployments[d.key := d.(version := s.clock + 1)], clock := s.clock + 1))
  }

  function Update(s: Store, d: Deployment): Written {
    if d.key !in s.deployments then Rejected(NotFound)
    else if s.deployments[d.key].version != d.version then Rejected(Conflict)
    else if !Acceptable(s, d) then Rejected(Invalid)
    else Committed(s.(deployments := s.deployments[d.key := d.(version := s.clock + 1)], clock := s.clock + 1))
  }

  // The status subresource: of the object sent, only the status is stored.
  function UpdateStatus(s: Store, cr: CR): Written {
    if cr.key !in s.crs then Rejected(NotFound)
    else if s.crs[cr.key].version != cr.version then Rejected(Conflict)
    else if s.strict && cr.nodes.Nil? then Rejected(Invalid)
    else
      var stored := s.crs[cr.key].(nodes := cr.nodes, version := s.clock + 1);
      Committed(s.(crs := s.crs[cr.key := stored], clock := s.clock + 1))
  }

  // A write under a fault: the store it leaves, and the error the caller sees.
  function Commit(s: Store, w: Written, f: Fault): (Store, Option<Error>) {
    if f == Refused then (s, Some(Unavailable))
    else
      match w
      case Rejected(e) => (s, Some(if f == Works then e else Unavailable))
      case Committed(t) => (t, if f == Works then None else Some(Unavailable))
  }

  predicate HasLabels(p: Pod, labels: LabelMap) {
    forall k | k in labels :: k in p.labels && p.labels[k] == labels[k]
  }

  // The pods of a namespace that carry all the labels, in the order they are held.
  function ListPods(pods: seq<Pod>, namespace: string, labels: LabelMap): seq<Pod> {
    if pods == [] then []
    else
      var last := pods[|pods| - 1];
      ListPods(pods[..|pods| - 1], namespace, labels) +
      (if last.namespace == namespace && HasLabels(last, labels) then [last] else [])
  }

  // A pod is listed as often as it is held if it matches, and not at all otherwise.
  lemma {:induction false} ListedPods(pods: seq<Pod>, namespace: string, labels: LabelMap, p: Pod)
    ensures multiset(ListPods(pods, namespace, labels))[p] ==
            if p.namespace == namespace && HasLabels(p, labels) then multiset(pods)[p] else 0
    ensures p in ListPods(pods, namespace, labels) <==>
            p in pods && p.namespace == namespace && HasLabels(p, labels)
  {
    if pods != [] {
      var front, last := pods[..|pods| - 1], pods[|pods| - 1];
      ListedPods(front, namespace, labels, p);
      assert pods == front + [last];
      var more := if last.namespace == namespace && HasLabels(last, labels) then [last] else [];
      assert ListPods(pods, namespace, labels) == ListPods(front, namespace, labels) + more;
    }
  }

  // Listing keeps the order.
  lemma {:induction false} ListFromFront(pods: seq<Pod>, namespace: string, labels: LabelMap)
    requires pods != []
    ensures ListPods(pods, namespace, labels) ==
            (if pods[0].namespace == namespace && HasLabels(pods[0], labels) then [pods[0]] else []) +
            ListPods(pods[1..], namespace, labels)
  {
    var n := |pods| - 1;
    if n == 0 {
      assert pods[..0] == [] && pods[1..] == [];
    } else {
      ListFromFront(pods[..n], namespace, labels);
      assert pods[..n][1..] == pods[1..][..n - 1] && pods[1..][n - 1] == pods[n] && pods[..n][0] == pods[0];
      var first := if pods[0].namespace == namespace && HasLabels(pods[0], labels) then [pods[0]] else [];
      var middle := ListPods(pods[..n][1..], namespace, labels);
      var last := if pods[n].namespace == namespace && HasLabels(pods[n], labels) then [pods[n]] else [];
      assert ListPods(pods, namespace, labels) == (first + middle) + last;
      assert ListPods(pods[1..], namespace, labels) == middle + last;
      assert (first + middle) + last == first + (middle + last);
    }
  }
}
