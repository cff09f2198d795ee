/**
What passes read in an interleaved run: every reply in the log is one that the server
could itself have given at some moment of the run, however far the caches lag.
*/
module TrueReads {
  import opened ApiServer
  import opened Reconciler
  import opened Interleaving
  import opened InterleavingSafety

  // At some moment the server held this.
  ghost predicate HeldOnce(sys: System, k: Key, cr: CR) {
    exists at: nat :: at <= |sys.history| && k in Past(sys, at).crs && Past(sys, at).crs[k] == cr
  }

  ghost predicate HeldDeploymentOnce(sys: System, k: Key, d: Deployment) {
    exists at: nat :: at <= |sys.history| && k in Past(sys, at).deployments && Past(sys, at).deployments[k] == d
  }

  ghost predicate LackedOnce(sys: System, k: Key) {
    exists at: nat :: at <= |sys.history| && k !in Past(sys, at).deployments
  }

  ghost predicate HeldPodsOnce(sys: System, pods: seq<Pod>) {
    exists at: nat :: at <= |sys.history| && multiset(pods) == multiset(Past(sys, at).pods)
  }

  // The pods are all those of k, each as often as the server held it, at some moment.
  ghost predicate ListedOnce(sys: System, k: Key, pods: seq<Pod>) {
    exists all: seq<Pod> :: HeldPodsOnce(sys, all) &&
      forall p :: multiset(pods)[p] == if BelongsTo(p, k) then multiset(all)[p] else 0
  }

  // All that a cache shows, and all the Deployments it lacks, the server once held or lacked.
  ghost predicate TrueView(sys: System, c: Store) {
    && (forall k | k in c.crs :: HeldOnce(sys, k, c.crs[k]))
    && (forall k | k in c.deployments :: HeldDeploymentOnce(sys, k, c.deployments[k]))
    && (forall k | k !in c.deployments :: LackedOnce(sys, k))
    && HeldPodsOnce(sys, c.pods)
  }

  ghost predicate TrueEvent(sys: System, e: Event) {
    match e
    case ReadCR(_, cr) => HeldOnce(sys, cr.key, cr)
    case ReadDeployment(_, d) => HeldDeploymentOnce(sys, d.key, d)
    case FoundNoDeployment(_, k) => LackedOnce(sys, k)
    case Listed(_, k, pods) => ListedOnce(sys, k, pods)
    case _ => true
  }

  // ------------------------------------------------------------ the past is never lost

  ghost predicate Remembers(sys: System, next: System) {
    |sys.history| <= |next.history| && forall at: nat :: at <= |sys.history| ==> Past(next, at) == Past(sys, at)
  }

  lemma StepRemembers(sys: System, step: Step)
    ensures Remembers(sys, Next(sys, step))
  {
    var next := Next(sys, step);
    assert (next.history == sys.history && next.store == sys.store) || next.history == sys.history + [sys.store];
  }

  lemma EventStaysTrue(sys: System, next: System, e: Event)
    requires Remembers(sys, next) && TrueEvent(sys, e)
    ensures TrueEvent(next, e)
  {
    match e
    case ReadCR(_, cr) => HeldStays(sys, next, cr.key, cr);
    case ReadDeployment(_, d) => HeldDeploymentStays(sys, next, d.key, d);
    case FoundNoDeployment(_, k) => LackedStays(sys, next, k);
    case Listed(_, k, pods) =>
      var all: seq<Pod> :| HeldPodsOnce(sys, all) &&
        forall p :: multiset(pods)[p] == if BelongsTo(p, k) then multiset(all)[p] else 0;
      HeldPodsStay(sys, next, all);
    case _ =>
  }

  lemma HeldStays(sys: System, next: System, k: Key, cr: CR)
    requires Remembers(sys, next) && HeldOnce(sys, k, cr)
    ensures HeldOnce(next, k, cr)
  {
  }

  lemma HeldDeploymentStays(sys: System, next: System, k: Key, d: Deployment)
    requires Remembers(sys, next) && HeldDeploymentOnce(sys, k, d)
    ensures HeldDeploymentOnce(next, k, d)
  {
  }

  lemma LackedStays(sys: System, next: System, k: Key)
    requires Remembers(sys, next) && LackedOnce(sys, k)
    ensures LackedOnce(next, k)
  {
  }

  lemma HeldPodsStay(sys: System, next: System, pods: seq<Pod>)
    requires Remembers(sys, next) && HeldPodsOnce(sys, pods)
    ensures HeldPodsOnce(next, pods)
  {
  }

  lemma ViewStaysTrue(sys: System, next: System, c: Store)
    requires Remembers(sys, next) && TrueView(sys, c)
    ensures TrueView(next, c)
  {
    forall k | k in c.crs
      ensures HeldOnce(next, k, c.crs[k])
    {
      HeldStays(sys, next, k, c.crs[k]);
    }
    forall k | k in c.deployments
      ensures HeldDeploymentOnce(next, k, c.deployments[k])
    {
      HeldDeploymentStays(sys, next, k, c.deployments[k]);
    }
    forall k | k !in c.deployments
      ensures LackedOnce(next, k)
    {
      LackedStays(sys, next, k);
    }
    HeldPodsStay(sys, next, c.pods);
  }

  // ------------------------------------------------------------ steps

  // A moment later than the present stands for the present.
  lemma PastIsTrue(sys: System, at: nat)
    ensures TrueView(sys, Past(sys, at))
  {
    var moment := if at < |sys.history| then at else |sys.history|;
    assert Past(sys, moment) == Past(sys, at);
  }

  lemma DeliveryIsTrue(sys: System, step: Step)
    requires TrueView(sys, sys.cache) && (step.SyncCR? || step.SyncDeployment? || step.SyncPods?)
    ensures TrueView(sys, Next(sys, step).cache)
  {
    PastIsTrue(sys, step.at);
    match step
    case SyncCR(k, at) => ShowCR(sys, Past(sys, at), k);
    case SyncDeployment(k, at) => ShowDeployment(sys, Past(sys, at), k);
    case SyncPods(_, at) => ShowPods(sys, at, step.shown);
  }

  lemma ShowCR(sys: System, past: Store, k: Key)
    requires TrueView(sys, sys.cache) && TrueView(sys, past)
    ensures TrueView(sys, sys.cache.(crs := if k in past.crs then sys.cache.crs[k := past.crs[k]]
                                            else sys.cache.crs - {k}))
  {
  }

  lemma ShowDeployment(sys: System, past: Store, k: Key)
    requires TrueView(sys, sys.cache) && TrueView(sys, past)
    ensures TrueView(sys, sys.cache.(deployments := if k in past.deployments
                                                    then sys.cache.deployments[k := past.deployments[k]]
                                                    else sys.cache.deployments - {k}))
  {
  }

  lemma ShowPods(sys: System, at: nat, shown: seq<Pod>)
    requires TrueView(sys, sys.cache)
    ensures multiset(shown) == multiset(Past(sys, at).pods) ==> TrueView(sys, sys.cache.(pods := shown))
  {
    var moment := if at < |sys.history| then at else |sys.history|;
    assert Past(sys, moment) == Past(sys, at);
  }

  // What the reply of one call tells is what the cache shows.
  lemma ReplyIsTrue(sys: System, id: nat, f: Fault)
    requires Inv(sys) && TrueView(sys, sys.cache) && id < |sys.passes|
    ensures TrueEvent(sys, Call(sys.cache, sys.store, id, sys.passes[id], f, |sys.log|).2)
  {
    var p, e := sys.passes[id], Call(sys.cache, sys.store, id, sys.passes[id], f, |sys.log|).2;
    assert PassOk(sys.store, sys.log, id, p);
    if e.Listed? {
      forall q
        ensures multiset(e.pods)[q] == if BelongsTo(q, e.key) then multiset(sys.cache.pods)[q] else 0
      {
        PodsOfAre(sys.cache.pods, e.key, q);
      }
    }
  }

  ghost predicate AllTrue(sys: System) {
    TrueView(sys, sys.cache) && forall i | 0 <= i < |sys.log| :: TrueEvent(sys, sys.log[i])
  }

  lemma StepStaysTrue(sys: System, step: Step)
    requires Inv(sys) && AllTrue(sys)
    ensures AllTrue(Next(sys, step))
  {
    var next := Next(sys, step);
    StepRemembers(sys, step);
    if step.SyncCR? || step.SyncDeployment? || step.SyncPods? {
      DeliveryIsTrue(sys, step);
    }
    ViewStaysTrue(sys, next, next.cache);
    forall i | 0 <= i < |next.log|
      ensures TrueEvent(next, next.log[i])
    {
      if i < |sys.log| {
        assert next.log[i] == sys.log[i];
      } else if step.Advance? {
        ReplyIsTrue(sys, step.pass, step.fault);
      }
      if i < |sys.log| || step.Advance? {
        EventStaysTrue(sys, next, next.log[i]);
      }
    }
  }

  lemma {:induction false} RunStaysTrue(s: Store, steps: seq<Step>)
    requires ValidStore(s)
    ensures AllTrue(RunSteps(Start(s), steps))
  {
    if steps == [] {
      StartIsTrue(s);
    } else {
      var front := steps[..|steps| - 1];
      RunStaysTrue(s, front);
      RunKeeps(s, front);
      StepStaysTrue(RunSteps(Start(s), front), steps[|steps| - 1]);
    }
  }

  lemma StartIsTrue(s: Store)
    ensures AllTrue(Start(s))
  {
    assert Past(Start(s), 0) == s;
  }

  // In every interleaving, every reply to a read is what the server held at some moment: the
  // custom resource and the Deployment as they were then, or the Deployment's absence, and of
  // the pods exactly those that belong to the resource, each as often.
  lemma RepliesAreTrue(s: Store, steps: seq<Step>, i: nat)
    requires ValidStore(s) && i < |RunSteps(Start(s), steps).log|
    ensures TrueEvent(RunSteps(Start(s), steps), RunSteps(Start(s), steps).log[i])
  {
    RunStaysTrue(s, steps);
  }
}
