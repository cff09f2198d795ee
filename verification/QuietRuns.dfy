/**
Convergence of interleaved passes: from any state that any run reaches, once the users
stop, the caches have caught up with them, and the passes begun before have ended.
*/
module QuietRuns {
  import opened GoSlices
  import opened ApiServer
  import opened Reconciler
  import opened ListingOrder
  import opened Ranks
  import opened Interleaving
  import opened InterleavingSafety

  // Steps of the operator and of its caches: passes begin, make their calls, in any
  // interleaving and with any faults, and caches are shown any state since the moment
  // `mark`, late or not.
  predicate Quiet(o: Order, step: Step, mark: nat, held: seq<Pod>) {
    match step
    case Begin(_) => true
    case Advance(_, _) => true
    case SyncCR(_, at) => mark <= at
    case SyncDeployment(_, at) => mark <= at
    case SyncPods(shown, at) => mark <= at && ShowsPods(o, shown, held)
    case Resync(_) => true
    case _ => false
  }

  predicate AllQuiet(o: Order, steps: seq<Step>, mark: nat, held: seq<Pod>) {
    forall i | 0 <= i < |steps| :: Quiet(o, steps[i], mark, held)
  }

  // What the cache shows, as of now.
  function Shown(sys: System): Store {
    sys.cache.(clock := sys.store.clock)
  }

  // What a pass has in its hands, as a cache that shows only that.
  function InHand(s: Store, k: Key, cr: CR): Store {
    s.(crs := map[k := cr], deployments := map[])
  }

  function InHandWith(s: Store, k: Key, cr: CR, d: Deployment): Store {
    s.(crs := map[k := cr], deployments := map[k := d])
  }

  // A pass for k knows only what a cache may show since the quiet began.
  ghost predicate KnowsOf(o: Order, s: Store, k: Key, p: PassState) {
    match p.pc
    case AtGetCR => true
    case Ended(_) => true
    case AtGetDeployment(cr) => Behind(o, InHand(s, k, cr), s, k)
    case AtCreate(cr) => Behind(o, InHand(s, k, cr), s, k)
    case AtUpdate(cr, found) => Behind(o, InHandWith(s, k, cr, found), s, k) && found.replicas != cr.size
    case AtList(cr) => Behind(o, InHand(s, k, cr), s, k) && RightSize(s, k)
    case AtStatus(cr, pods) =>
      && Behind(o, InHand(s, k, cr), s, k) && RightSize(s, k)
      && SameNames(o, PodNames(pods), Ranks.Listed(s, k)) && PodNames(pods) != cr.nodes
  }

  // The pass asks to be run again.
  predicate Asks(p: PassState) {
    p.pc == Ended(Requeue) || p.pc == Ended(RequeueAfter)
  }

  // A pass for k that began after mid.
  predicate BegunSince(mid: System, sys: System, id: int, k: Key) {
    |mid.passes| <= id < |sys.passes| && sys.passes[id].key == k
  }

  ghost predicate PassesKnow(o: Order, mid: System, sys: System, k: Key) {
    forall id | 0 <= id < |sys.passes| && sys.passes[id].key == k ::
      if id < |mid.passes| then sys.passes[id].pc.Ended? else KnowsOf(o, sys.store, k, sys.passes[id])
  }

  // How passes for k have ended: done, only if k is converged; asking, only one of them.
  ghost predicate EndedWell(o: Order, mid: System, sys: System, k: Key)
    requires k in sys.store.crs
  {
    && (forall id | BegunSince(mid, sys, id, k) && sys.passes[id].pc == Ended(Done) :: Rank(o, sys.store, k) == 0)
    && (forall id | BegunSince(mid, sys, id, k) && Asks(sys.passes[id]) :: Rank(o, sys.store, k) <= 1)
    && (forall id, other | BegunSince(mid, sys, id, k) && Asks(sys.passes[id]) &&
                           BegunSince(mid, sys, other, k) && Asks(sys.passes[other]) :: id == other)
  }

  // What holds from mid on, as long as all is quiet.
  ghost predicate QuietInv(o: Order, mid: System, sys: System, k: Key) {
    && Inv(sys) && |mid.passes| <= |sys.passes| && |mid.history| <= |sys.history|
    && k in sys.store.crs && sys.store.pods == mid.store.pods
    && Behind(o, Shown(sys), sys.store, k)
    && (forall i | |mid.history| <= i < |sys.history| :: Behind(o, sys.history[i], sys.store, k))
    && PassesKnow(o, mid, sys, k)
    && EndedWell(o, mid, sys, k)
  }

  // ------------------------------------------------------------ what passes know stays good

  lemma LaterView(o: Order, view: Store, s: Store, k: Key, clock: nat)
    requires Behind(o, view, s, k) && view.clock <= clock <= s.clock
    ensures Behind(o, view.(clock := clock), s, k)
  {
  }

  lemma KnowledgeStays(o: Order, s: Store, s': Store, k: Key, p: PassState)
    requires KnowsOf(o, s, k, p) && Advances(o, s, s', k)
    ensures KnowsOf(o, s', k, p)
  {
    if !p.pc.AtGetCR? && !p.pc.Ended? {
      var view := if p.pc.AtUpdate? then InHandWith(s, k, p.pc.cr, p.pc.found) else InHand(s, k, p.pc.cr);
      BehindStays(o, view, s, s', k);
      LaterView(o, view, s', k, s'.clock);
    }
  }

  // ------------------------------------------------------------ one call of a pass for k

  lemma CreateCall(o: Order, s: Store, k: Key, cr: CR)
    requires ValidStore(s) && Behind(o, InHand(s, k, cr), s, k) && Create(s, DeploymentFor(cr)).Committed?
    ensures var s' := Create(s, DeploymentFor(cr)).store;
            Advances(o, s, s', k) && Rank(o, s, k) == 2 && Rank(o, s', k) <= 1
  {
    CreateAdvances(o, InHand(s, k, cr), s, k);
  }

  lemma UpdateCall(o: Order, s: Store, k: Key, cr: CR, found: Deployment)
    requires ValidStore(s) && Behind(o, InHandWith(s, k, cr, found), s, k) && found.replicas != cr.size
    requires Update(s, found.(replicas := cr.size)).Committed?
    ensures var s' := Update(s, found.(replicas := cr.size)).store;
            Advances(o, s, s', k) && Rank(o, s, k) == 2 && Rank(o, s', k) <= 1
  {
    RescaleAdvances(o, InHandWith(s, k, cr, found), s, k);
  }

  lemma StatusCall(o: Order, s: Store, k: Key, cr: CR, names: GoList<string>)
    requires ValidStore(s) && Behind(o, InHand(s, k, cr), s, k) && RightSize(s, k)
    requires SameNames(o, names, Ranks.Listed(s, k)) && UpdateStatus(s, cr.(nodes := names)).Committed?
    ensures var s' := UpdateStatus(s, cr.(nodes := names)).store;
            Advances(o, s, s', k) && Rank(o, s', k) == 0
  {
  }

  // What the end of a call's pass tells of k.
  ghost predicate EndTells(o: Order, s: Store, s': Store, k: Key, p: PassState, p': PassState)
    requires k in s.crs && k in s'.crs
  {
    !p.pc.Ended? ==>
      && (p'.pc == Ended(Done) ==> Rank(o, s', k) == 0)
      && (Asks(p') ==> Rank(o, s, k) == 2 && Rank(o, s', k) <= 1)
  }

  // A read: the pass knows what the cache shows.
  lemma ReadCall(o: Order, view: Store, s: Store, k: Key, id: nat, p: PassState, f: Fault, at: nat)
    requires ValidStore(s) && p.key == k && KnowsOf(o, s, k, p) && Behind(o, view.(clock := s.clock), s, k)
    requires p.pc.AtGetCR? || p.pc.AtGetDeployment? || p.pc.AtList?
    ensures var (s', p', _) := Call(view, s, id, p, f, at);
            s' == s && KnowsOf(o, s, k, p') && EndTells(o, s, s, k, p, p')
  {
    if p.pc.AtList? {
      ListCall(o, view, s, k, id, p, f, at);
    }
  }

  lemma ListCall(o: Order, view: Store, s: Store, k: Key, id: nat, p: PassState, f: Fault, at: nat)
    requires p.key == k && KnowsOf(o, s, k, p) && ShowsPods(o, view.pods, s.pods) && p.pc.AtList?
    ensures var (s', p', _) := Call(view, s, id, p, f, at);
            s' == s && KnowsOf(o, s, k, p') && EndTells(o, s, s, k, p, p')
  {
    ShownListing(o, view.pods, s.pods, k);
  }

  // A write: either nothing is committed, or k moves as CreateCall, UpdateCall and
  // StatusCall say; and the pass ends.
  lemma WriteCall(o: Order, view: Store, s: Store, k: Key, id: nat, p: PassState, f: Fault, at: nat)
    requires ValidStore(s) && p.key == k && KnowsOf(o, s, k, p)
    requires p.pc.AtCreate? || p.pc.AtUpdate? || p.pc.AtStatus?
    ensures var (s', p', _) := Call(view, s, id, p, f, at);
            && p'.pc.Ended? && (s' == s ==> p'.pc.result.Failed?)
            && (s' != s ==> Advances(o, s, s', k) && EndTells(o, s, s', k, p, p'))
  {
    var s' := Call(view, s, id, p, f, at).0;
    if s' != s {
      match p.pc
      case AtCreate(cr) => CreateCall(o, s, k, cr);
      case AtUpdate(cr, found) => UpdateCall(o, s, k, cr, found);
      case AtStatus(cr, pods) => StatusCall(o, s, k, cr, PodNames(pods));
    }
  }

  lemma OwnCall(o: Order, view: Store, s: Store, k: Key, id: nat, p: PassState, f: Fault, at: nat)
    requires ValidStore(s) && p.key == k && KnowsOf(o, s, k, p) && Behind(o, view.(clock := s.clock), s, k)
    ensures var (s', p', _) := Call(view, s, id, p, f, at);
            Advances(o, s, s', k) && KnowsOf(o, s', k, p') && EndTells(o, s, s', k, p, p')
  {
    if p.pc.AtCreate? || p.pc.AtUpdate? || p.pc.AtStatus? {
      WriteCall(o, view, s, k, id, p, f, at);
    } else if !p.pc.Ended? {
      ReadCall(o, view, s, k, id, p, f, at);
    }
  }

  // A pass has objects of its own key in its hands.
  predicate OwnObjects(p: PassState) {
    match p.pc
    case AtGetCR => true
    case Ended(_) => true
    case AtUpdate(cr, found) => cr.key == p.key && found.key == p.key
    case _ => p.pc.cr.key == p.key
  }

  // A call of a pass for another key leaves k alone.
  lemma OtherCall(o: Order, view: Store, s: Store, k: Key, id: nat, p: PassState, f: Fault, at: nat)
    requires OwnObjects(p) && p.key != k && k in s.crs
    ensures var s' := Call(view, s, id, p, f, at).0;
            IdenticalAt(s, s', k) && Advances(o, s, s', k)
  {
    match p.pc
    case AtCreate(cr) => DeploymentWriteIsLocal(s, DeploymentFor(cr), f, k);
    case AtUpdate(cr, found) => DeploymentWriteIsLocal(s, found.(replicas := cr.size), f, k);
    case AtStatus(cr, pods) => StatusWriteIsLocal(s, cr.(nodes := PodNames(pods)), f, k);
    case _ =>
  }

  // ------------------------------------------------------------ every quiet step

  lemma RankFalls(o: Order, s: Store, s': Store, k: Key)
    requires Advances(o, s, s', k)
    ensures Rank(o, s', k) <= Rank(o, s, k)
  {
  }

  // What a call does to k: it advances it, and its pass knows and ends as it may.
  lemma CallAdvances(o: Order, mid: System, sys: System, k: Key, id: nat, f: Fault)
    requires QuietInv(o, mid, sys, k) && id < |sys.passes|
    ensures var p := sys.passes[id];
            var (s', p', _) := Call(sys.cache, sys.store, id, p, f, |sys.log|);
            && Advances(o, sys.store, s', k) && Rank(o, s', k) <= Rank(o, sys.store, k)
            && p'.key == p.key && (p.pc.Ended? ==> p' == p)
            && (p.key == k ==> KnowsOf(o, s', k, p') && EndTells(o, sys.store, s', k, p, p'))
  {
    var p := sys.passes[id];
    if p.key == k {
      OwnCall(o, sys.cache, sys.store, k, id, p, f, |sys.log|);
    } else {
      assert PassOk(sys.store, sys.log, id, p);
      OtherCall(o, sys.cache, sys.store, k, id, p, f, |sys.log|);
    }
    RankFalls(o, sys.store, Call(sys.cache, sys.store, id, p, f, |sys.log|).0, k);
  }

  // Old states, the present one among them, and the cache stay behind.
  lemma CallKeepsViews(o: Order, mid: System, sys: System, s': Store, k: Key)
    requires QuietInv(o, mid, sys, k) && Advances(o, sys.store, s', k)
    ensures Behind(o, sys.cache.(clock := s'.clock), s', k)
    ensures var past := sys.history + [sys.store];
            forall i | |mid.history| <= i < |past| :: Behind(o, past[i], s', k)
  {
    BehindStays(o, Shown(sys), sys.store, s', k);
    LaterView(o, Shown(sys), s', k, s'.clock);
    var past := sys.history + [sys.store];
    forall i | |mid.history| <= i < |past|
      ensures Behind(o, past[i], s', k)
    {
      assert Behind(o, past[i], sys.store, k);
      BehindStays(o, past[i], sys.store, s', k);
    }
  }

  lemma CallKeepsPasses(o: Order, mid: System, sys: System, k: Key, id: nat, f: Fault)
    requires QuietInv(o, mid, sys, k) && id < |sys.passes|
    ensures PassesKnow(o, mid, Next(sys, Advance(id, f)), k)
  {
    var next := Next(sys, Advance(id, f));
    CallAdvances(o, mid, sys, k, id, f);
    forall j | 0 <= j < |next.passes| && next.passes[j].key == k
      ensures if j < |mid.passes| then next.passes[j].pc.Ended? else KnowsOf(o, next.store, k, next.passes[j])
    {
      if j != id && |mid.passes| <= j {
        KnowledgeStays(o, sys.store, next.store, k, sys.passes[j]);
      }
    }
  }

  lemma CallKeepsEndings(o: Order, mid: System, sys: System, k: Key, id: nat, f: Fault)
    requires QuietInv(o, mid, sys, k) && id < |sys.passes|
    ensures k in Next(sys, Advance(id, f)).store.crs && EndedWell(o, mid, Next(sys, Advance(id, f)), k)
  {
    var next := Next(sys, Advance(id, f));
    CallAdvances(o, mid, sys, k, id, f);
    forall j | BegunSince(mid, next, j, k)
      ensures BegunSince(mid, sys, j, k)
      ensures next.passes[j] == sys.passes[j] || (j == id && !sys.passes[id].pc.Ended?)
    {
    }
  }

  lemma AdvanceStaysQuiet(o: Order, mid: System, sys: System, k: Key, id: nat, f: Fault)
    requires QuietInv(o, mid, sys, k) && id < |sys.passes|
    ensures QuietInv(o, mid, Next(sys, Advance(id, f)), k)
  {
    StepKeeps(sys, Advance(id, f));
    CallAdvances(o, mid, sys, k, id, f);
    CallKeepsViews(o, mid, sys, Next(sys, Advance(id, f)).store, k);
    CallKeepsPasses(o, mid, sys, k, id, f);
    CallKeepsEndings(o, mid, sys, k, id, f);
  }

  // A delivery, however late, shows a state since mid.
  lemma SyncStaysQuiet(o: Order, mid: System, sys: System, k: Key, step: Step)
    requires QuietInv(o, mid, sys, k) && Quiet(o, step, |mid.history|, mid.store.pods)
    requires step.SyncCR? || step.SyncDeployment? || step.SyncPods?
    ensures Behind(o, Shown(Next(sys, step)), sys.store, k)
  {
    var next := Shown(Next(sys, step));
    if step.SyncCR? {
      ShownLateCR(o, Shown(sys), Past(sys, step.at), next, sys.store, k);
    } else if step.SyncDeployment? {
      ShownLateDeployment(o, Shown(sys), Past(sys, step.at), next, sys.store, k);
    }
  }

  lemma ShownLateCR(o: Order, view: Store, past: Store, next: Store, s: Store, k: Key)
    requires Behind(o, view, s, k) && Behind(o, past, s, k) && view.clock == s.clock
    requires next == view.(crs := next.crs) && k in next.crs && next.crs[k] in {view.crs[k], past.crs[k]}
    ensures Behind(o, next, s, k)
  {
  }

  lemma ShownLateDeployment(o: Order, view: Store, past: Store, next: Store, s: Store, k: Key)
    requires Behind(o, view, s, k) && Behind(o, past, s, k) && view.clock == s.clock
    requires next == view.(deployments := next.deployments)
    requires k in next.deployments ==>
               (k in view.deployments && next.deployments[k] == view.deployments[k]) ||
               (k in past.deployments && next.deployments[k] == past.deployments[k])
    ensures Behind(o, next, s, k)
  {
  }

  lemma BeginStaysQuiet(o: Order, mid: System, sys: System, k: Key, j: Key)
    requires QuietInv(o, mid, sys, k)
    ensures QuietInv(o, mid, Next(sys, Begin(j)), k)
  {
    var next := Next(sys, Begin(j));
    StepKeeps(sys, Begin(j));
    assert PassesKnow(o, mid, next, k);
    BeginKeepsEndings(o, mid, sys, k, j);
  }

  lemma BeginKeepsEndings(o: Order, mid: System, sys: System, k: Key, j: Key)
    requires k in sys.store.crs && |mid.passes| <= |sys.passes| && EndedWell(o, mid, sys, k)
    ensures EndedWell(o, mid, Next(sys, Begin(j)), k)
  {
    var next := Next(sys, Begin(j));
    forall id | BegunSince(mid, next, id, k) && next.passes[id].pc.Ended?
      ensures BegunSince(mid, sys, id, k) && next.passes[id] == sys.passes[id]
    {
    }
  }

  lemma QuietStep(o: Order, mid: System, sys: System, k: Key, step: Step)
    requires QuietInv(o, mid, sys, k) && Quiet(o, step, |mid.history|, mid.store.pods)
    ensures QuietInv(o, mid, Next(sys, step), k)
  {
    if step.Advance? {
      if step.pass < |sys.passes| {
        AdvanceStaysQuiet(o, mid, sys, k, step.pass, step.fault);
      }
    } else if step.Begin? {
      BeginStaysQuiet(o, mid, sys, k, step.key);
    } else {
      StepKeeps(sys, step);
      if !step.Resync? {
        SyncStaysQuiet(o, mid, sys, k, step);
      }
    }
  }

  lemma {:induction false} QuietRun(o: Order, mid: System, sys: System, k: Key, steps: seq<Step>)
    requires QuietInv(o, mid, sys, k) && AllQuiet(o, steps, |mid.history|, mid.store.pods)
    ensures QuietInv(o, mid, RunSteps(sys, steps), k)
  {
    if steps != [] {
      var front, last := steps[..|steps| - 1], steps[|steps| - 1];
      QuietRun(o, mid, sys, k, front);
      QuietStep(o, mid, RunSteps(sys, front), k, last);
    }
  }

  // ------------------------------------------------------------ the theorem

  // The caches have caught up at k, and the passes for k have ended.
  ghost predicate Settled(o: Order, sys: System, k: Key) {
    && FreshAt(o, sys.cache, sys.store, k)
    && (forall p | p in sys.passes && p.key == k :: p.pc.Ended?)
  }

  // Catching up is three deliveries.
  function CatchUp(sys: System, k: Key): seq<Step> {
    [SyncCR(k, |sys.history|), SyncDeployment(k, |sys.history|), SyncPods(sys.store.pods, |sys.history|)]
  }

  lemma CatchingUpSettles(o: Order, sys: System, k: Key)
    requires k in sys.store.crs && forall p | p in sys.passes && p.key == k :: p.pc.Ended?
    ensures Settled(o, RunSteps(sys, CatchUp(sys, k)), k)
  {
    var now, pods := |sys.history|, sys.store.pods;
    ThreeSteps(sys, SyncCR(k, now), SyncDeployment(k, now), SyncPods(pods, now));
    DeliveredSettles(o, sys, k);
  }

  lemma DeliveredSettles(o: Order, sys: System, k: Key)
    requires k in sys.store.crs && forall p | p in sys.passes && p.key == k :: p.pc.Ended?
    ensures var now := |sys.history|;
            Settled(o, Next(Next(Next(sys, SyncCR(k, now)), SyncDeployment(k, now)), SyncPods(sys.store.pods, now)), k)
  {
  }

  lemma SettledIsQuiet(o: Order, mid: System, k: Key)
    requires Inv(mid) && Settled(o, mid, k)
    ensures QuietInv(o, mid, mid, k)
  {
    assert Behind(o, Shown(mid), mid.store, k);
  }

  // Convergence of interleaved passes. Take any run of anything, up to a state where the
  // caches have caught up at k and the passes for k have ended; let only the operator and
  // its caches act from there, with any interleaving of any number of passes, for k as for
  // other keys, any states since then delivered late, and any faults. Then a pass for k that
  // is done leaves k converged, for good; no two passes for k ask to be run again; and so two
  // passes for k that end without error converge it: up to the order of the names, if
  // listings come in any order.
  lemma QuietConverges(o: Order, s: Store, before: seq<Step>, quiet: seq<Step>, k: Key)
    requires ValidStore(s)
    requires Settled(o, RunSteps(Start(s), before), k)
    requires AllQuiet(o, quiet, |RunSteps(Start(s), before).history|, RunSteps(Start(s), before).store.pods)
    ensures var mid := RunSteps(Start(s), before);
            var end := RunSteps(mid, quiet);
            && k in end.store.crs
            && (forall id | BegunSince(mid, end, id, k) && end.passes[id].pc == Ended(Done) ::
                  Rank(o, end.store, k) == 0)
            && (forall id, other | BegunSince(mid, end, id, k) && BegunSince(mid, end, other, k) && id != other ::
                  && !(Asks(end.passes[id]) && Asks(end.passes[other]))
                  && (Succeeded(end.passes[id]) && Succeeded(end.passes[other]) ==> Rank(o, end.store, k) == 0))
  {
    var mid := RunSteps(Start(s), before);
    RunKeeps(s, before);
    SettledIsQuiet(o, mid, k);
    QuietRun(o, mid, mid, k, quiet);
  }

  predicate Succeeded(p: PassState) {
    p.pc.Ended? && !p.pc.result.Failed?
  }

  // A pass ends after at most four of its calls: each brings it closer.
  lemma CallsRunOut(view: Store, s: Store, id: nat, p: PassState, f: Fault, at: nat)
    requires !p.pc.Ended?
    ensures CallsLeft(Call(view, s, id, p, f, at).1.pc) < CallsLeft(p.pc) <= 4
  {
  }
}
