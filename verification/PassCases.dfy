/**
When exactly a pass makes which write, and how it ends: for every cache, every server and
every fault, in terms of what the calls meet.
*/
module PassCases {
  import opened GoSlices
  import opened ApiServer
  import opened Reconciler

  // The two reads that every pass for an existing resource makes.
  predicate ReadsWork(f: Faults) {
    f.getCR == Works && f.getDeployment == Works
  }

  // A read that fails ends the pass: the error is returned and nothing is written. So does
  // a listing that fails.
  lemma FailedReadEndsPass(view: Store, s: Store, k: Key, f: Faults)
    requires k in view.crs ==> view.crs[k].key == k
    ensures f.getCR != Works ==> Reconcile(view, s, k, f) == (s, Failed(Unavailable))
    ensures k in view.crs && !ReadsWork(f) ==> Reconcile(view, s, k, f) == (s, Failed(Unavailable))
    ensures (k in view.crs && k in view.deployments && view.deployments[k].replicas == view.crs[k].size &&
             f.list != Works) ==> Reconcile(view, s, k, f) == (s, Failed(Unavailable))
  {
  }

  // No custom resource: nothing to do.
  lemma GoneIsDone(view: Store, s: Store, k: Key, f: Faults)
    requires k !in view.crs && f.getCR == Works
    ensures Reconcile(view, s, k, f) == (s, Done)
  {
  }

  // A strict server takes this size and, as a label value, this name.
  predicate Fits(s: Store, size: int, name: string) {
    !s.strict || (size >= 0 && |name| <= 63)
  }

  predicate LabelsFitOf(s: Store, d: Deployment) {
    s.strict ==>
      && (forall l | l in d.selector :: |d.selector[l]| <= 63)
      && (forall l | l in d.templateLabels :: |d.templateLabels[l]| <= 63)
  }

  lemma FitsIff(s: Store, cr: CR)
    ensures Acceptable(s, DeploymentFor(cr)) <==> Fits(s, cr.size, cr.key.name)
  {
    var labels := LabelsFor(cr.key.name);
    assert |labels["app"]| == 19 && labels["golangappoperatored_cr"] == cr.key.name;
    if |cr.key.name| <= 63 {
      forall l | l in labels
        ensures |labels[l]| <= 63
      {
      }
    }
  }

  // The Deployment that a resource is to have, but for its version.
  predicate IsDeploymentOf(d: Deployment, cr: CR) {
    && d.key == cr.key && d.replicas == cr.size && d.owner == Some(cr.uid)
    && d.selector == map["app" := "golangappoperatored", "golangappoperatored_cr" := cr.key.name]
    && d.templateLabels == d.selector
    && d.template == [TemplateContainer("675617749633.dkr.ecr.ap-southeast-2.amazonaws.com/eks-cluster/golang-app:v1",
                                        "golangappoperator", 8081, "golangappoper")]
  }

  // Exactly when a pass creates a Deployment, what it then leaves and how it ends.
  lemma CreatesIff(view: Store, s: Store, k: Key, f: Faults)
    requires (k in view.crs ==> view.crs[k].key == k) && k !in s.deployments
    ensures var (s', result) := Reconcile(view, s, k, f);
            && (k in s'.deployments <==>
                  ReadsWork(f) && k in view.crs && k !in view.deployments && f.write != Refused &&
                  Fits(s, view.crs[k].size, k.name))
            && (k in s'.deployments ==>
                  && IsDeploymentOf(s'.deployments[k], view.crs[k]) && s'.deployments[k].version == s.clock + 1
                  && s' == s.(deployments := s.deployments[k := s'.deployments[k]], clock := s.clock + 1)
                  && result == if f.write == Works then Requeue else Failed(Unavailable))
  {
    if k in view.crs {
      FitsIff(s, view.crs[k]);
    }
  }

  // Exactly when a pass changes a Deployment: the cached size is wrong and the cached
  // version is the one held; and then only the replicas change.
  lemma RescalesIff(view: Store, s: Store, k: Key, f: Faults)
    requires (k in view.crs ==> view.crs[k].key == k) && (k in view.deployments ==> view.deployments[k].key == k)
    requires ValidStore(s) && k in s.deployments
    ensures var (s', result) := Reconcile(view, s, k, f);
            && k in s'.deployments
            && (s'.deployments[k] != s.deployments[k] <==>
                  ReadsWork(f) && k in view.crs && k in view.deployments && f.write != Refused &&
                  view.deployments[k].replicas != view.crs[k].size &&
                  view.deployments[k].version == s.deployments[k].version &&
                  Fits(s, view.crs[k].size, "") && LabelsFitOf(s, view.deployments[k]))
            && (s'.deployments[k] != s.deployments[k] ==>
                  && s' == s.(deployments := s.deployments[k := view.deployments[k].(replicas := view.crs[k].size,
                                                                                     version := s.clock + 1)],
                              clock := s.clock + 1)
                  && result == if f.write == Works then RequeueAfter else Failed(Unavailable))
  {
  }

  // The pass gets as far as comparing the status, and finds other names in it.
  predicate StatusDiffers(view: Store, k: Key, f: Faults) {
    && ReadsWork(f) && f.list == Works
    && k in view.crs && k in view.deployments && view.deployments[k].replicas == view.crs[k].size
    && PodNames(PodsOf(view.pods, k)) != view.crs[k].nodes
  }

  // Exactly when a pass sets the status: the names differ, the version read is the one held,
  // and a strict server is not sent nil.
  lemma SetsStatusIff(view: Store, s: Store, k: Key, f: Faults)
    requires (k in view.crs ==> view.crs[k].key == k) && ValidStore(s) && k in s.crs
    ensures var (s', result) := Reconcile(view, s, k, f);
            var names := PodNames(PodsOf(view.pods, k));
            && k in s'.crs
            && (s'.crs[k] != s.crs[k] <==>
                  StatusDiffers(view, k, f) && f.status != Refused && view.crs[k].version == s.crs[k].version &&
                  !(s.strict && names.Nil?))
            && (s'.crs[k] != s.crs[k] ==>
                  && s' == s.(crs := s.crs[k := s.crs[k].(nodes := names, version := s.clock + 1)],
                              clock := s.clock + 1)
                  && result == if f.status == Works then Done else Failed(Unavailable))
  {
  }

  // Exactly when a pass is done: no resource, nothing to change, or the status set.
  lemma DoneIff(view: Store, s: Store, k: Key, f: Faults)
    requires (k in view.crs ==> view.crs[k].key == k)
    ensures Reconcile(view, s, k, f).1 == Done <==>
            f.getCR == Works &&
            (k !in view.crs ||
             (ReadsWork(f) && f.list == Works && k in view.deployments &&
              view.deployments[k].replicas == view.crs[k].size &&
              (!StatusDiffers(view, k, f) ||
               (f.status == Works && k in s.crs && view.crs[k].version == s.crs[k].version &&
                !(s.strict && PodNames(PodsOf(view.pods, k)).Nil?)))))
  {
  }

  // A pass whose calls all reach the server fails with the server's answer to its one write.
  lemma ServerErrorIff(view: Store, s: Store, k: Key)
    requires k in view.crs && view.crs[k].key == k && (k in view.deployments ==> view.deployments[k].key == k)
    ensures var result := Reconcile(view, s, k, NO_FAULTS).1;
            var creates := k !in view.deployments;
            var rescales := k in view.deployments && view.deployments[k].replicas != view.crs[k].size;
            var reports := StatusDiffers(view, k, NO_FAULTS);
            && (result == Failed(AlreadyExists) <==> creates && k in s.deployments)
            && (result == Failed(NotFound) <==> (rescales && k !in s.deployments) || (reports && k !in s.crs))
            && (result == Failed(Conflict) <==>
                  (rescales && k in s.deployments && view.deployments[k].version != s.deployments[k].version) ||
                  (reports && k in s.crs && view.crs[k].version != s.crs[k].version))
            && (result == Failed(Invalid) <==>
                  (creates && k !in s.deployments && !Fits(s, view.crs[k].size, k.name)) ||
                  (rescales && k in s.deployments && view.deployments[k].version == s.deployments[k].version &&
                   !(Fits(s, view.crs[k].size, "") && LabelsFitOf(s, view.deployments[k]))) ||
                  (reports && k in s.crs && view.crs[k].version == s.crs[k].version &&
                   s.strict && PodNames(PodsOf(view.pods, k)).Nil?))
            && result != Failed(Unavailable)
  {
    FitsIff(s, view.crs[k]);
  }
}
