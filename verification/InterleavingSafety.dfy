/**
Safety over every run: what stands behind each status write and each Deployment write in
the log, and which labels the operator's Deployments keep.
*/
module InterleavingSafety {
  import opened GoSlices
  import opened ApiServer
  import opened Reconciler
  import opened PassCases
  import opened Interleaving

  // ------------------------------------------------------------ what stands behind a write

  predicate CRUntouched(log: seq<Event>, from: nat, to: nat, k: Key)
    requires to <= |log|
  {
    forall j | from < j < to :: !TouchesCR(log[j], k)
  }

  predicate DeploymentUntouched(log: seq<Event>, from: nat, to: nat, k: Key)
    requires to <= |log|
  {
    forall j | from < j < to :: !TouchesDeployment(log[j], k)
  }

  // Status write i belongs to a pass that read, at r, the very CR the server held when the
  // write was committed, with no write to that CR in between; that then saw, at d, its
  // Deployment with replicas of that CR's size; and that writes the names it listed at l.
  predicate StatusChain(log: seq<Event>, i: nat, r: nat, d: nat, l: nat)
    requires i < |log| && log[i].WroteStatus?
  {
    var WroteStatus(id, before, after) := log[i];
    && r < d < l < i
    && log[r] == ReadCR(id, before)
    && log[d].ReadDeployment? && log[d].pass == id
    && log[d].d.key == before.key && log[d].d.replicas == before.size
    && log[l].Listed? && log[l].pass == id
    && log[l].key == before.key && (forall p | p in log[l].pods :: BelongsTo(p, before.key))
    && after == before.(nodes := PodNames(log[l].pods), version := after.version)
    && CRUntouched(log, r, i, before.key)
  }

  // Deployment write i belongs to a pass that read a CR at r and asked for its Deployment at
  // d. A creation was told that there is none, finds nothing at the key still, and stores
  // the Deployment for that CR; a rescaling changes nothing but the replicas of the
  // Deployment that the pass read and that nobody has written since.
  predicate DeploymentChain(log: seq<Event>, i: nat, r: nat, d: nat)
    requires i < |log| && log[i].WroteDeployment?
  {
    var WroteDeployment(id, held, now, resource) := log[i];
    && r < d < i && log[r].ReadCR? && log[r].pass == id && log[r].cr.key == now.key
    && match held
       case None => log[d] == FoundNoDeployment(id, now.key) && IsDeploymentOf(now, log[r].cr)
       case Some(b) =>
         && log[d] == ReadDeployment(id, b) && b.replicas != log[r].cr.size
         && now == b.(replicas := log[r].cr.size, version := now.version)
         && DeploymentUntouched(log, d, i, now.key)
  }

  // Deployment write i, by a pass that read its CR at r: it is made from the CR the server
  // held at the commit if and only if the version read is the version held; and then the CR
  // has not been written since it was read, and the Deployment gets its current size. The
  // size itself is current if and only if the size read is: another field may have changed.
  predicate CurrentIffVersionHeld(log: seq<Event>, i: nat, r: nat)
    requires i < |log| && log[i].WroteDeployment? && r < i && log[r].ReadCR?
  {
    var read, now, resource := log[r].cr, log[i].now, log[i].resource;
    && now.replicas == read.size
    && (resource == Some(read) <==> resource.Some? && resource.value.version == read.version)
    && (resource == Some(read) ==>
          CRUntouched(log, r, i, now.key) && now.replicas == resource.value.size)
    && (resource.Some? ==> (now.replicas == resource.value.size <==> read.size == resource.value.size))
  }

  ghost predicate Justified(log: seq<Event>, i: nat)
    requires i < |log|
  {
    && (log[i].WroteStatus? ==> exists r: nat, d: nat, l: nat :: StatusChain(log, i, r, d, l))
    && (log[i].WroteDeployment? ==>
          exists r: nat, d: nat :: DeploymentChain(log, i, r, d) && CurrentIffVersionHeld(log, i, r))
  }

  // ------------------------------------------------------------ the invariant

  // A CR in a pass's hands: read at p.readAt, and if its version is still the server's
  // then it is what the server holds and nobody has written it since.
  ghost predicate HoldsCR(s: Store, log: seq<Event>, id: nat, p: PassState, cr: CR) {
    && p.readAt < |log| && log[p.readAt] == ReadCR(id, cr)
    && cr.key == p.key && cr.version <= s.clock
    && (cr.key in s.crs && s.crs[cr.key].version == cr.version ==>
          s.crs[cr.key] == cr && CRUntouched(log, p.readAt, |log|, cr.key))
  }

  ghost predicate HoldsDeployment(s: Store, log: seq<Event>, id: nat, p: PassState, d: Deployment) {
    && p.readAt < p.sawAt < |log| && log[p.sawAt] == ReadDeployment(id, d)
    && d.key == p.key && d.version <= s.clock
    && (d.key in s.deployments && s.deployments[d.key].version == d.version ==>
          s.deployments[d.key] == d && DeploymentUntouched(log, p.sawAt, |log|, d.key))
  }

  ghost predicate SawRightSize(log: seq<Event>, id: nat, p: PassState, size: int) {
    && p.readAt < p.sawAt < |log|
    && log[p.sawAt].ReadDeployment? && log[p.sawAt].pass == id
    && log[p.sawAt].d.key == p.key && log[p.sawAt].d.replicas == size
  }

  ghost predicate HoldsPods(log: seq<Event>, id: nat, p: PassState, pods: seq<Pod>) {
    && p.sawAt < p.listedAt < |log| && log[p.listedAt] == Listed(id, p.key, pods)
    && forall q | q in pods :: BelongsTo(q, p.key)
  }

  ghost predicate SawNone(log: seq<Event>, id: nat, p: PassState) {
    p.readAt < p.sawAt < |log| && log[p.sawAt] == FoundNoDeployment(id, p.key)
  }

  ghost predicate PassOk(s: Store, log: seq<Event>, id: nat, p: PassState) {
    match p.pc
    case AtGetCR => true
    case Ended(_) => true
    case AtGetDeployment(cr) => HoldsCR(s, log, id, p, cr)
    case AtCreate(cr) => HoldsCR(s, log, id, p, cr) && SawNone(log, id, p)
    case AtUpdate(cr, found) =>
      HoldsCR(s, log, id, p, cr) && HoldsDeployment(s, log, id, p, found) && found.replicas != cr.size
    case AtList(cr) => HoldsCR(s, log, id, p, cr) && SawRightSize(log, id, p, cr.size)
    case AtStatus(cr, pods) =>
      HoldsCR(s, log, id, p, cr) && SawRightSize(log, id, p, cr.size) && HoldsPods(log, id, p, pods)
  }

  ghost predicate CacheOk(c: Store, s: Store) {
    && (forall k | k in c.crs ::
          c.crs[k].key == k && c.crs[k].version <= s.clock &&
          (k in s.crs && s.crs[k].version == c.crs[k].version ==> s.crs[k] == c.crs[k]))
    && (forall k | k in c.deployments ::
          c.deployments[k].key == k && c.deployments[k].version <= s.clock &&
          (k in s.deployments && s.deployments[k].version == c.deployments[k].version ==>
             s.deployments[k] == c.deployments[k]))
  }

  ghost predicate Inv(sys: System) {
    && ValidStore(sys.store) && CacheOk(sys.cache, sys.store)
    && (forall i | 0 <= i < |sys.history| :: CacheOk(sys.history[i], sys.store))
    && (forall id | 0 <= id < |sys.passes| :: PassOk(sys.store, sys.log, id, sys.passes[id]))
    && (forall i | 0 <= i < |sys.log| :: Justified(sys.log, i))
  }

  // ------------------------------------------------------------ one more event

  lemma JustifiedStays(log: seq<Event>, e: Event, i: nat)
    requires i < |log| && Justified(log, i)
    ensures Justified(log + [e], i)
  {
    var log' := log + [e];
    if log[i].WroteStatus? {
      var r: nat, d: nat, l: nat :| StatusChain(log, i, r, d, l);
      assert StatusChain(log', i, r, d, l);
    }
    if log[i].WroteDeployment? {
      var r: nat, d: nat :| DeploymentChain(log, i, r, d) && CurrentIffVersionHeld(log, i, r);
      assert log'[r] == log[r] && log'[d] == log[d];
      assert DeploymentChain(log', i, r, d) && CurrentIffVersionHeld(log', i, r);
    }
  }

  lemma HeldCRStays(s: Store, s': Store, log: seq<Event>, e: Event, id: nat, p: PassState, cr: CR)
    requires HoldsCR(s, log, id, p, cr) && AccountsFor(e, s, s')
    ensures HoldsCR(s', log + [e], id, p, cr)
  {
    var log' := log + [e];
    assert log'[p.readAt] == log[p.readAt];
    if TouchesCR(e, cr.key) {
      assert cr.key in s'.crs ==> s'.crs[cr.key].version > s.clock;
    }
  }

  lemma HeldDeploymentStays(s: Store, s': Store, log: seq<Event>, e: Event, id: nat, p: PassState, d: Deployment)
    requires HoldsDeployment(s, log, id, p, d) && AccountsFor(e, s, s')
    ensures HoldsDeployment(s', log + [e], id, p, d)
  {
    var log' := log + [e];
    assert log'[p.sawAt] == log[p.sawAt];
    if TouchesDeployment(e, d.key) {
      assert d.key in s'.deployments ==> s'.deployments[d.key].version > s.clock;
    }
  }

  lemma PassStays(s: Store, s': Store, log: seq<Event>, e: Event, id: nat, p: PassState)
    requires PassOk(s, log, id, p) && AccountsFor(e, s, s')
    ensures PassOk(s', log + [e], id, p)
  {
    if !p.pc.AtGetCR? && !p.pc.Ended? {
      HeldCRStays(s, s', log, e, id, p, p.pc.cr);
    }
    if p.pc.AtUpdate? {
      HeldDeploymentStays(s, s', log, e, id, p, p.pc.found);
    }
  }

  lemma CacheStays(c: Store, s: Store, s': Store, e: Event)
    requires CacheOk(c, s) && AccountsFor(e, s, s')
    ensures CacheOk(c, s')
  {
    forall k | k in c.crs && k in s'.crs && s'.crs[k].version == c.crs[k].version
      ensures s'.crs[k] == c.crs[k]
    {
      assert !TouchesCR(e, k);
    }
    forall k | k in c.deployments && k in s'.deployments && s'.deployments[k].version == c.deployments[k].version
      ensures s'.deployments[k] == c.deployments[k]
    {
      assert !TouchesDeployment(e, k);
    }
  }

  // ------------------------------------------------------------ the pass that makes the call

  lemma CallKeepsPass(c: Store, s: Store, log: seq<Event>, id: nat, p: PassState, f: Fault)
    requires ValidStore(s) && CacheOk(c, s) && PassOk(s, log, id, p)
    ensures var (s', p', e) := Call(c, s, id, p, f, |log|);
            PassOk(s', log + [e], id, p')
  {
    var (s', p', e) := Call(c, s, id, p, f, |log|);
    if !p'.pc.Ended? {
      assert s' == s;
      NothingIsLogged(s, e);
      if !p.pc.AtGetCR? {
        HeldCRStays(s, s, log, e, id, p, p.pc.cr);
      }
      if p.pc.AtList? {
        forall q | q in p'.pc.pods
          ensures BelongsTo(q, p.key)
        {
          PodsOfAre(c.pods, p.key, q);
        }
      }
    }
  }

  lemma StatusIsJustified(c: Store, s: Store, log: seq<Event>, id: nat, p: PassState, f: Fault)
    requires PassOk(s, log, id, p) && p.pc.AtStatus?
    ensures Justified(log + [Call(c, s, id, p, f, |log|).2], |log|)
  {
    var e := Call(c, s, id, p, f, |log|).2;
    if e.WroteStatus? {
      assert StatusChain(log + [e], |log|, p.readAt, p.sawAt, p.listedAt);
    }
  }

  lemma DeploymentIsJustified(c: Store, s: Store, log: seq<Event>, id: nat, p: PassState, f: Fault)
    requires PassOk(s, log, id, p) && (p.pc.AtCreate? || p.pc.AtUpdate?)
    ensures Justified(log + [Call(c, s, id, p, f, |log|).2], |log|)
  {
    var e := Call(c, s, id, p, f, |log|).2;
    var log' := log + [e];
    if e.WroteDeployment? {
      assert log'[p.readAt] == log[p.readAt] && log'[p.sawAt] == log[p.sawAt];
      assert DeploymentChain(log', |log|, p.readAt, p.sawAt) && CurrentIffVersionHeld(log', |log|, p.readAt);
    }
  }

  lemma CallIsJustified(c: Store, s: Store, log: seq<Event>, id: nat, p: PassState, f: Fault)
    requires PassOk(s, log, id, p)
    ensures Justified(log + [Call(c, s, id, p, f, |log|).2], |log|)
  {
    if p.pc.AtStatus? {
      StatusIsJustified(c, s, log, id, p, f);
    } else if p.pc.AtCreate? || p.pc.AtUpdate? {
      DeploymentIsJustified(c, s, log, id, p, f);
    }
  }

  // ------------------------------------------------------------ every step

  lemma PastStays(sys: System, s': Store, e: Event)
    requires Inv(sys) && AccountsFor(e, sys.store, s')
    ensures forall i | 0 <= i < |sys.history + [sys.store]| :: CacheOk((sys.history + [sys.store])[i], s')
  {
    var past := sys.history + [sys.store];
    forall i | 0 <= i < |past|
      ensures CacheOk(past[i], s')
    {
      assert CacheOk(past[i], sys.store);
      CacheStays(past[i], sys.store, s', e);
    }
  }

  // A step that writes the store and logs it: everyone else's knowledge stays good.
  lemma LoggedStepKeeps(sys: System, s': Store, e: Event)
    requires Inv(sys) && ValidStore(s') && AccountsFor(e, sys.store, s')
    requires !e.WroteStatus? && !e.WroteDeployment?
    ensures Inv(Logged(sys, s', e))
  {
    CacheStays(sys.cache, sys.store, s', e);
    PastStays(sys, s', e);
    forall id | 0 <= id < |sys.passes|
      ensures PassOk(s', sys.log + [e], id, sys.passes[id])
    {
      PassStays(sys.store, s', sys.log, e, id, sys.passes[id]);
    }
    forall i | 0 <= i < |sys.log|
      ensures Justified(sys.log + [e], i)
    {
      JustifiedStays(sys.log, e, i);
    }
  }

  lemma AdvanceKeeps(sys: System, id: nat, f: Fault)
    requires Inv(sys) && id < |sys.passes|
    ensures Inv(Next(sys, Advance(id, f)))
  {
    var (s', p', e) := Call(sys.cache, sys.store, id, sys.passes[id], f, |sys.log|);
    CallIsLogged(sys.cache, sys.store, id, sys.passes[id], f, |sys.log|);
    CacheStays(sys.cache, sys.store, s', e);
    PastStays(sys, s', e);
    var passes := sys.passes[id := p'];
    forall j | 0 <= j < |passes|
      ensures PassOk(s', sys.log + [e], j, passes[j])
    {
      if j == id {
        CallKeepsPass(sys.cache, sys.store, sys.log, id, sys.passes[id], f);
      } else {
        PassStays(sys.store, s', sys.log, e, j, sys.passes[j]);
      }
    }
    forall i | 0 <= i < |sys.log + [e]|
      ensures Justified(sys.log + [e], i)
    {
      if i < |sys.log| {
        JustifiedStays(sys.log, e, i);
      } else {
        CallIsJustified(sys.cache, sys.store, sys.log, id, sys.passes[id], f);
      }
    }
  }

  // Steps that leave log, versioned objects and clock alone.
  lemma QuietStepKeeps(sys: System, next: System)
    requires Inv(sys)
    requires next.log == sys.log && next.store == sys.store.(pods := next.store.pods)
    requires CacheOk(next.cache, next.store)
    requires next.history == sys.history || next.history == sys.history + [sys.store]
    requires sys.passes <= next.passes && forall id | |sys.passes| <= id < |next.passes| :: next.passes[id].pc.AtGetCR?
    ensures Inv(next)
  {
    forall id | 0 <= id < |next.passes|
      ensures PassOk(next.store, next.log, id, next.passes[id])
    {
      if id < |sys.passes| {
        assert PassOk(sys.store, sys.log, id, sys.passes[id]);
      }
    }
  }

  lemma OtherStepKeeps(sys: System, step: Step)
    requires Inv(sys)
    requires step.Begin? || step.SyncCR? || step.SyncDeployment? || step.SyncPods? || step.Resync? || step.SetPods?
    ensures Inv(Next(sys, step))
  {
    if step.SyncCR? || step.SyncDeployment? {
      assert CacheOk(Past(sys, step.at), sys.store);
    }
    QuietStepKeeps(sys, Next(sys, step));
  }

  lemma UserCRStepKeeps(sys: System, step: Step)
    requires Inv(sys) && (step.PutCR? || step.DeleteCR?)
    ensures Inv(Next(sys, step))
  {
    LoggedStepKeeps(sys, Next(sys, step).store, UserWroteCR(if step.PutCR? then step.cr.key else step.key));
  }

  lemma UserDeploymentStepKeeps(sys: System, step: Step)
    requires Inv(sys) && (step.PutDeployment? || step.DeleteDeployment?)
    ensures Inv(Next(sys, step))
  {
    if step.DeleteDeployment? || Acceptable(sys.store, step.d) {
      LoggedStepKeeps(sys, Next(sys, step).store,
                      UserWroteDeployment(if step.PutDeployment? then step.d.key else step.key));
    }
  }

  lemma StepKeeps(sys: System, step: Step)
    requires Inv(sys)
    ensures Inv(Next(sys, step))
  {
    if step.Advance? {
      if step.pass < |sys.passes| {
        AdvanceKeeps(sys, step.pass, step.fault);
      }
    } else if step.PutCR? || step.DeleteCR? {
      UserCRStepKeeps(sys, step);
    } else if step.PutDeployment? || step.DeleteDeployment? {
      UserDeploymentStepKeeps(sys, step);
    } else {
      OtherStepKeeps(sys, step);
    }
  }

  lemma {:induction false} RunKeeps(s: Store, steps: seq<Step>)
    requires ValidStore(s)
    ensures Inv(RunSteps(Start(s), steps))
  {
    if steps != [] {
      RunKeeps(s, steps[..|steps| - 1]);
      StepKeeps(RunSteps(Start(s), steps[..|steps| - 1]), steps[|steps| - 1]);
    }
  }

  // In every interleaving, from every cluster: each status write is current, sized and listed.
  lemma StatusWritesAreCurrent(s: Store, steps: seq<Step>, i: nat)
    requires ValidStore(s)
    requires i < |RunSteps(Start(s), steps).log| && RunSteps(Start(s), steps).log[i].WroteStatus?
    ensures exists r: nat, d: nat, l: nat :: StatusChain(RunSteps(Start(s), steps).log, i, r, d, l)
  {
    RunKeeps(s, steps);
    assert Justified(RunSteps(Start(s), steps).log, i);
  }

  // In every interleaving: each Deployment write creates what was absent, or changes the
  // replicas, and only those, of the version that its pass had read.
  lemma DeploymentWritesAreExact(s: Store, steps: seq<Step>, i: nat)
    requires ValidStore(s)
    requires i < |RunSteps(Start(s), steps).log| && RunSteps(Start(s), steps).log[i].WroteDeployment?
    ensures exists r: nat, d: nat :: DeploymentChain(RunSteps(Start(s), steps).log, i, r, d)
  {
    RunKeeps(s, steps);
    assert Justified(RunSteps(Start(s), steps).log, i);
  }

  // In every interleaving: when a Deployment write is made from the current CR, exactly.
  lemma DeploymentWriteCurrentIff(s: Store, steps: seq<Step>, i: nat)
    requires ValidStore(s)
    requires i < |RunSteps(Start(s), steps).log| && RunSteps(Start(s), steps).log[i].WroteDeployment?
    ensures var log := RunSteps(Start(s), steps).log;
            exists r: nat, d: nat :: DeploymentChain(log, i, r, d) && CurrentIffVersionHeld(log, i, r)
  {
    RunKeeps(s, steps);
    assert Justified(RunSteps(Start(s), steps).log, i);
  }

  // The copy of the CR that a pass in flight holds is what the server holds as long as the
  // versions agree.
  lemma HeldVersionIsCurrent(s: Store, steps: seq<Step>, id: nat)
    requires ValidStore(s) && id < |RunSteps(Start(s), steps).passes|
    ensures var end := RunSteps(Start(s), steps);
            var p := end.passes[id];
            !p.pc.AtGetCR? && !p.pc.Ended? ==>
              p.pc.cr.key == p.key &&
              (HeldCR(end.store, p.key) == Some(p.pc.cr) <==>
               p.key in end.store.crs && end.store.crs[p.key].version == p.pc.cr.version)
  {
    RunKeeps(s, steps);
    assert PassOk(RunSteps(Start(s), steps).store, RunSteps(Start(s), steps).log, id,
                  RunSteps(Start(s), steps).passes[id]);
  }

  // ------------------------------------------------------------ one write for each pass

  predicate IsPassWrite(e: Event) {
    e.WroteStatus? || e.WroteDeployment?
  }

  // Writes in the log are by passes that have ended, and by different passes.
  ghost predicate WritesSpent(sys: System) {
    && (forall i | 0 <= i < |sys.log| && IsPassWrite(sys.log[i]) ::
          sys.log[i].pass < |sys.passes| && sys.passes[sys.log[i].pass].pc.Ended?)
    && (forall i, j | 0 <= i < j < |sys.log| && IsPassWrite(sys.log[i]) && IsPassWrite(sys.log[j]) ::
          sys.log[i].pass != sys.log[j].pass)
  }

  lemma StepSpendsWrites(sys: System, step: Step)
    requires WritesSpent(sys)
    ensures WritesSpent(Next(sys, step))
  {
    if step.Advance? && step.pass < |sys.passes| {
      var (_, p', e) := Call(sys.cache, sys.store, step.pass, sys.passes[step.pass], step.fault, |sys.log|);
      assert IsPassWrite(e) ==> e.pass == step.pass && p'.pc.Ended? && !sys.passes[step.pass].pc.Ended?;
    }
  }

  lemma {:induction false} RunSpendsWrites(s: Store, steps: seq<Step>)
    ensures WritesSpent(RunSteps(Start(s), steps))
  {
    if steps != [] {
      RunSpendsWrites(s, steps[..|steps| - 1]);
      StepSpendsWrites(RunSteps(Start(s), steps[..|steps| - 1]), steps[|steps| - 1]);
    }
  }

  // In every interleaving each pass makes at most one write: two writes in the log with the
  // same pass are the same one.
  lemma OneWritePerPass(s: Store, steps: seq<Step>, i: nat, j: nat)
    requires i < |RunSteps(Start(s), steps).log| && j < |RunSteps(Start(s), steps).log|
    requires IsPassWrite(RunSteps(Start(s), steps).log[i]) && IsPassWrite(RunSteps(Start(s), steps).log[j])
    requires RunSteps(Start(s), steps).log[i].pass == RunSteps(Start(s), steps).log[j].pass
    ensures i == j
  {
    RunSpendsWrites(s, steps);
  }

  // ------------------------------------------------------------ how a pass ends, and what it wrote

  ghost predicate HasCreated(log: seq<Event>, id: nat) {
    exists i | 0 <= i < |log| :: log[i].WroteDeployment? && log[i].pass == id && log[i].held.None?
  }

  ghost predicate HasRescaled(log: seq<Event>, id: nat) {
    exists i | 0 <= i < |log| :: log[i].WroteDeployment? && log[i].pass == id && log[i].held.Some?
  }

  ghost predicate HasSetStatus(log: seq<Event>, id: nat) {
    exists i | 0 <= i < |log| :: log[i].WroteStatus? && log[i].pass == id
  }

  lemma OneMoreEvent(log: seq<Event>, e: Event, id: nat)
    ensures HasCreated(log + [e], id) <==>
            HasCreated(log, id) || (e.WroteDeployment? && e.pass == id && e.held.None?)
    ensures HasRescaled(log + [e], id) <==>
            HasRescaled(log, id) || (e.WroteDeployment? && e.pass == id && e.held.Some?)
    ensures HasSetStatus(log + [e], id) <==> HasSetStatus(log, id) || (e.WroteStatus? && e.pass == id)
  {
    var log' := log + [e];
    assert log'[|log|] == e && forall i | 0 <= i < |log| :: log'[i] == log[i];
  }

  ghost predicate WroteAsEnded(sys: System, id: nat) {
    && (HasCreated(sys.log, id) <==> id < |sys.passes| && sys.passes[id].pc == Ended(Requeue))
    && (HasRescaled(sys.log, id) <==> id < |sys.passes| && sys.passes[id].pc == Ended(RequeueAfter))
    && (HasSetStatus(sys.log, id) ==> id < |sys.passes| && sys.passes[id].pc == Ended(Done))
  }

  lemma StepWritesAsEnded(sys: System, step: Step, id: nat)
    requires WroteAsEnded(sys, id) && step != Advance(id, LostReply)
    ensures WroteAsEnded(Next(sys, step), id)
  {
    var next := Next(sys, step);
    if next.log != sys.log {
      OneMoreEvent(sys.log, next.log[|sys.log|], id);
      assert next.log == sys.log + [next.log[|sys.log|]];
    }
  }

  // In every interleaving, a pass none of whose replies was lost ends by asking for a
  // requeue if and only if it created its Deployment, and for a later one if and only if it
  // rescaled it; one that set the status is done, and one that failed wrote nothing.
  lemma {:induction false} EndTellsWrite(s: Store, steps: seq<Step>, id: nat)
    requires forall i | 0 <= i < |steps| :: steps[i] != Advance(id, LostReply)
    ensures WroteAsEnded(RunSteps(Start(s), steps), id)
  {
    if steps != [] {
      EndTellsWrite(s, steps[..|steps| - 1], id);
      StepWritesAsEnded(RunSteps(Start(s), steps[..|steps| - 1]), steps[|steps| - 1], id);
    }
  }

  // A pass that failed, and lost no reply, has no write in the log.
  lemma FailedPassWroteNothing(s: Store, steps: seq<Step>, id: nat)
    requires forall i | 0 <= i < |steps| :: steps[i] != Advance(id, LostReply)
    requires id < |RunSteps(Start(s), steps).passes| && RunSteps(Start(s), steps).passes[id].pc.Ended?
    requires RunSteps(Start(s), steps).passes[id].pc.result.Failed?
    ensures forall e | e in RunSteps(Start(s), steps).log && IsPassWrite(e) :: e.pass != id
  {
    EndTellsWrite(s, steps, id);
  }

  // ------------------------------------------------------------ labels

  // Selector and template carry the labels by which the CR's pods are listed.
  predicate LabelledRight(d: Deployment) {
    d.selector == d.templateLabels == map["app" := "golangappoperatored", "golangappoperatored_cr" := d.key.name]
  }

  // Every owned (operator-created) Deployment is labelled right.
  ghost predicate OwnedLabelled(s: Store) {
    forall k | k in s.deployments :: s.deployments[k].owner.Some? ==> LabelledRight(s.deployments[k])
  }

  // No user stores an owned Deployment with other labels.
  predicate RespectsLabels(step: Step) {
    step.PutDeployment? && step.d.owner.Some? ==> LabelledRight(step.d)
  }

  lemma CallKeepsLabels(sys: System, id: nat, f: Fault)
    requires Inv(sys) && OwnedLabelled(sys.store) && id < |sys.passes|
    ensures OwnedLabelled(Call(sys.cache, sys.store, id, sys.passes[id], f, |sys.log|).0)
  {
    var s, p := sys.store, sys.passes[id];
    assert PassOk(s, sys.log, id, p);
    match p.pc
    case AtCreate(cr) => assert LabelledRight(DeploymentFor(cr));
    case AtUpdate(cr, found) =>
      if Update(s, found.(replicas := cr.size)).Committed? {
        RescaleKeepsLabels(s, found, cr.size);
      }
    case _ =>
  }

  lemma RescaleKeepsLabels(s: Store, found: Deployment, size: int)
    requires OwnedLabelled(s) && Update(s, found.(replicas := size)).Committed?
    requires s.deployments[found.key] == found
    ensures OwnedLabelled(Update(s, found.(replicas := size)).store)
  {
    assert found.owner.Some? ==> LabelledRight(found);
  }

  // Every Deployment that the operator creates, in every interleaving, is owned by the
  // resource that was read and labelled right, whatever users do.
  lemma CreatedIsOwnedAndLabelled(s: Store, steps: seq<Step>, i: nat)
    requires ValidStore(s)
    requires i < |RunSteps(Start(s), steps).log| && RunSteps(Start(s), steps).log[i].WroteDeployment?
    requires RunSteps(Start(s), steps).log[i].held.None?
    ensures var log := RunSteps(Start(s), steps).log;
            && LabelledRight(log[i].now)
            && exists r: nat :: r < i && log[r].ReadCR? && log[r].pass == log[i].pass &&
                 IsDeploymentOf(log[i].now, log[r].cr)
  {
    DeploymentWritesAreExact(s, steps, i);
    var log := RunSteps(Start(s), steps).log;
    var r: nat, d: nat :| DeploymentChain(log, i, r, d);
    assert IsDeploymentOf(log[i].now, log[r].cr);
  }

  // Over every run in which users respect the labels, every Deployment the operator owns
  // keeps selector and template labels equal to the labels its pods are listed by.
  lemma {:induction false} LabelsKept(s: Store, steps: seq<Step>)
    requires ValidStore(s) && OwnedLabelled(s)
    requires forall i | 0 <= i < |steps| :: RespectsLabels(steps[i])
    ensures OwnedLabelled(RunSteps(Start(s), steps).store)
  {
    if steps != [] {
      var front, last := steps[..|steps| - 1], steps[|steps| - 1];
      LabelsKept(s, front);
      RunKeeps(s, front);
      if last.Advance? && last.pass < |RunSteps(Start(s), front).passes| {
        CallKeepsLabels(RunSteps(Start(s), front), last.pass, last.fault);
      }
    }
  }
}
