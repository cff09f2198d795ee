/**
Any number of passes interleaved, API call by API call, with each other, with lagging
caches and with users who edit and delete. The log of a run records what the passes saw
and what was written; the safety results are about every log of every run.
*/
module Interleaving {
  import opened GoSlices
  import opened ApiServer
  import opened Reconciler

  // Where a pass stands: the next API call, with what it has read so far.
  datatype Pc =
    | AtGetCR
    | AtGetDeployment(cr: CR)
    | AtCreate(cr: CR)
    | AtUpdate(cr: CR, found: Deployment)
    | AtList(cr: CR)
    | AtStatus(cr: CR, pods: seq<Pod>)
    | Ended(result: Outcome)

  // The three positions say where in the log the pass read its CR and its Deployment and
  // listed its pods.
  datatype PassState = PassState(key: Key, pc: Pc, readAt: nat, sawAt: nat, listedAt: nat)

  // FoundNoDeployment is the reply that there is none. `before` and `held` are what the
  // server held when the write was committed, and `resource` is the custom resource it then
  // held for the Deployment.
  datatype Event =
    | ReadCR(pass: nat, cr: CR)
    | ReadDeployment(pass: nat, d: Deployment)
    | FoundNoDeployment(pass: nat, key: Key)
    | Listed(pass: nat, key: Key, pods: seq<Pod>)
    | WroteStatus(pass: nat, before: CR, after: CR)
    | WroteDeployment(pass: nat, held: Option<Deployment>, now: Deployment, resource: Option<CR>)
    | UserWroteCR(key: Key)
    | UserWroteDeployment(key: Key)
    | Silent

  // `history` is what the server held before, state by state, and `pending` the keys that
  // wait for a pass.
  datatype System = System(store: Store, cache: Store, passes: seq<PassState>, log: seq<Event>,
                           history: seq<Store>, pending: set<Key>)

  // A cache is shown an object, or the pods, as the server held them at some moment, counted
  // from the start: a late delivery shows the past.
  datatype Step =
    | Begin(key: Key)
    | Advance(pass: nat, fault: Fault)
    | SyncCR(key: Key, at: nat)
    | SyncDeployment(key: Key, at: nat)
    | SyncPods(shown: seq<Pod>, at: nat)
    | Resync(key: Key)
    | PutCR(cr: CR)
    | DeleteCR(key: Key)
    | PutDeployment(d: Deployment)
    | DeleteDeployment(key: Key)
    | SetPods(pods: seq<Pod>)

  function WriteEnd(w: (Store, Option<Error>), success: Outcome): Pc {
    Ended(if w.1.None? then success else Failed(w.1.value))
  }

  function HeldCR(s: Store, k: Key): Option<CR> {
    if k in s.crs then Some(s.crs[k]) else None
  }

  function TookEffect(w: Written, f: Fault): bool {
    w.Committed? && f != Refused
  }

  // One API call of a pass: the store it leaves, where the pass then stands, and what the log gets.
  function Call(view: Store, s: Store, id: nat, p: PassState, f: Fault, at: nat): (Store, PassState, Event) {
    match p.pc
    case AtGetCR =>
      if f != Works then (s, p.(pc := Ended(Failed(Unavailable))), Silent)
      else if p.key !in view.crs then (s, p.(pc := Ended(Done)), Silent)
      else (s, p.(pc := AtGetDeployment(view.crs[p.key]), readAt := at), ReadCR(id, view.crs[p.key]))
    case AtGetDeployment(cr) =>
      if f != Works then (s, p.(pc := Ended(Failed(Unavailable))), Silent)
      else if cr.key !in view.deployments then
        (s, p.(pc := AtCreate(cr), sawAt := at), FoundNoDeployment(id, cr.key))
      else
        var found := view.deployments[cr.key];
        (s, p.(pc := if found.replicas != cr.size then AtUpdate(cr, found) else AtList(cr), sawAt := at),
         ReadDeployment(id, found))
    case AtCreate(cr) =>
      var w := Create(s, DeploymentFor(cr));
      (Commit(s, w, f).0, p.(pc := WriteEnd(Commit(s, w, f), Requeue)),
       if TookEffect(w, f) then WroteDeployment(id, None, w.store.deployments[cr.key], HeldCR(s, cr.key)) else Silent)
    case AtUpdate(cr, found) =>
      var w := Update(s, found.(replicas := cr.size));
      (Commit(s, w, f).0, p.(pc := WriteEnd(Commit(s, w, f), RequeueAfter)),
       if TookEffect(w, f) then
         WroteDeployment(id, Some(s.deployments[found.key]), w.store.deployments[found.key], HeldCR(s, found.key))
       else Silent)
    case AtList(cr) =>
      if f != Works then (s, p.(pc := Ended(Failed(Unavailable))), Silent)
      else
        var pods := PodsOf(view.pods, cr.key);
        (s, p.(pc := if PodNames(pods) == cr.nodes then Ended(Done) else AtStatus(cr, pods), listedAt := at),
         Listed(id, cr.key, pods))
    case AtStatus(cr, pods) =>
      var w := UpdateStatus(s, cr.(nodes := PodNames(pods)));
      (Commit(s, w, f).0, p.(pc := WriteEnd(Commit(s, w, f), Done)),
       if TookEffect(w, f) then WroteStatus(id, s.crs[cr.key], w.store.crs[cr.key]) else Silent)
    case Ended(_) => (s, p, Silent)
  }

  // ------------------------------------------------------------ a pass left alone

  function FaultFor(f: Faults, pc: Pc): Fault {
    match pc
    case AtGetCR => f.getCR
    case AtGetDeployment(_) => f.getDeployment
    case AtCreate(_) => f.write
    case AtUpdate(_, _) => f.write
    case AtList(_) => f.list
    case AtStatus(_, _) => f.status
    case Ended(_) => Works
  }

  function CallsLeft(pc: Pc): nat {
    match pc
    case AtGetCR => 4
    case AtGetDeployment(_) => 3
    case AtList(_) => 2
    case Ended(_) => 0
    case _ => 1
  }

  // The rest of a pass whose calls come one straight after the other.
  function Finish(view: Store, s: Store, p: PassState, f: Faults): (Store, Outcome)
    decreases CallsLeft(p.pc)
  {
    if p.pc.Ended? then (s, p.pc.result)
    else
      var (s', p', _) := Call(view, s, 0, p, FaultFor(f, p.pc), 0);
      Finish(view, s', p', f)
  }

  // Uninterrupted, the calls of a pass add up to Reconcile.
  lemma AlonePassIsReconcile(view: Store, s: Store, k: Key, f: Faults)
    ensures Finish(view, s, PassState(k, AtGetCR, 0, 0, 0), f) == Reconcile(view, s, k, f)
  {
    var p0 := PassState(k, AtGetCR, 0, 0, 0);
    var p1 := Call(view, s, 0, p0, f.getCR, 0).1;
    assert Finish(view, s, p0, f) == Finish(view, s, p1, f);
    if !p1.pc.Ended? {
      var p2 := Call(view, s, 0, p1, f.getDeployment, 0).1;
      assert Finish(view, s, p1, f) == Finish(view, s, p2, f);
      if !p2.pc.Ended? {
        var (s3, p3, _) := Call(view, s, 0, p2, FaultFor(f, p2.pc), 0);
        assert Finish(view, s, p2, f) == Finish(view, s3, p3, f);
        if p3.pc.AtStatus? {
          var (s4, p4, _) := Call(view, s3, 0, p3, f.status, 0);
          assert Finish(view, s3, p3, f) == Finish(view, s4, p4, f);
        }
      }
    }
  }

  // ------------------------------------------------------------ the whole system

  function Logged(sys: System, store: Store, e: Event): System {
    sys.(store := store, log := sys.log + [e], history := sys.history + [sys.store])
  }

  // What the server held at a moment; from |sys.history| on, the present.
  function Past(sys: System, at: nat): Store {
    if at < |sys.history| then sys.history[at] else sys.store
  }

  // A pass that ends in an error or asks for a requeue puts its key back.
  function Again(pending: set<Key>, before: PassState, after: PassState): set<Key> {
    if !before.pc.Ended? && after.pc.Ended? && after.pc.result != Done then pending + {after.key} else pending
  }

  // Users' writes obey the server's validation too; a write it refuses changes nothing. The
  // pods that a cache shows may come in any order. A key becomes pending when the cache is
  // shown a change of its custom resource, at a resync, and after a pass that is not done;
  // nothing else wakes the operator, no Deployment and no pod.
  function Next(sys: System, step: Step): System {
    var s, c := sys.store, sys.cache;
    match step
    case Begin(k) => sys.(passes := sys.passes + [PassState(k, AtGetCR, 0, 0, 0)], pending := sys.pending - {k})
    case Advance(id, f) =>
      if id >= |sys.passes| then sys
      else
        var (s', p, e) := Call(c, s, id, sys.passes[id], f, |sys.log|);
        Logged(sys, s', e).(passes := sys.passes[id := p], pending := Again(sys.pending, sys.passes[id], p))
    case SyncCR(k, at) =>
      var crs := Past(sys, at).crs;
      var shown := if k in crs then c.crs[k := crs[k]] else c.crs - {k};
      sys.(cache := c.(crs := shown), pending := if shown == c.crs then sys.pending else sys.pending + {k})
    case SyncDeployment(k, at) =>
      var ds := Past(sys, at).deployments;
      sys.(cache := c.(deployments := if k in ds then c.deployments[k := ds[k]] else c.deployments - {k}))
    case SyncPods(shown, at) =>
      if multiset(shown) == multiset(Past(sys, at).pods) then sys.(cache := c.(pods := shown)) else sys
    case Resync(k) => if k in c.crs then sys.(pending := sys.pending + {k}) else sys
    case PutCR(cr) =>
      Logged(sys, s.(crs := s.crs[cr.key := cr.(version := s.clock + 1)], clock := s.clock + 1), UserWroteCR(cr.key))
    case DeleteCR(k) => Logged(sys, s.(crs := s.crs - {k}), UserWroteCR(k))
    case PutDeployment(d) =>
      if !Acceptable(s, d) then sys
      else
        Logged(sys, s.(deployments := s.deployments[d.key := d.(version := s.clock + 1)], clock := s.clock + 1),
               UserWroteDeployment(d.key))
    case DeleteDeployment(k) => Logged(sys, s.(deployments := s.deployments - {k}), UserWroteDeployment(k))
    case SetPods(pods) => sys.(store := s.(pods := pods), history := sys.history + [s])
  }

  function RunSteps(sys: System, steps: seq<Step>): System {
    if steps == [] then sys else Next(RunSteps(sys, steps[..|steps| - 1]), steps[|steps| - 1])
  }

  lemma {:induction false} RunInTwo(sys: System, first: seq<Step>, second: seq<Step>)
    ensures RunSteps(sys, first + second) == RunSteps(RunSteps(sys, first), second)
  {
    if second == [] {
      assert first + second == first;
    } else {
      var n, all := |second| - 1, first + second;
      RunInTwo(sys, first, second[..n]);
      assert all[..|all| - 1] == first + second[..n] && all[|all| - 1] == second[n];
      assert RunSteps(sys, all) == Next(RunSteps(sys, first + second[..n]), second[n]);
    }
  }

  lemma ThreeSteps(sys: System, a: Step, b: Step, c: Step)
    ensures RunSteps(sys, [a, b, c]) == Next(Next(Next(sys, a), b), c)
  {
    var all := [a, b, c];
    assert all[..2] == [a, b] && [a, b][..1] == [a] && [a][..0] == [];
    assert RunSteps(sys, [a]) == Next(sys, a);
    assert RunSteps(sys, [a, b]) == Next(RunSteps(sys, [a]), b);
  }

  lemma FourSteps(sys: System, a: Step, b: Step, c: Step, d: Step)
    ensures RunSteps(sys, [a, b, c, d]) == Next(Next(Next(Next(sys, a), b), c), d)
  {
    ThreeSteps(sys, a, b, c);
    assert [a, b, c, d][..3] == [a, b, c];
  }

  lemma FiveSteps(sys: System, a: Step, b: Step, c: Step, d: Step, e: Step)
    ensures RunSteps(sys, [a, b, c, d, e]) == Next(Next(Next(Next(Next(sys, a), b), c), d), e)
  {
    FourSteps(sys, a, b, c, d);
    assert [a, b, c, d, e][..4] == [a, b, c, d];
  }

  // The first listing shows every custom resource, and so makes every key pending.
  function Start(s: Store): System {
    System(s, s, [], [], [], s.crs.Keys)
  }

  // ------------------------------------------------------------ what the log says is what happened

  predicate TouchesCR(e: Event, k: Key) {
    (e.WroteStatus? && e.after.key == k) || (e.UserWroteCR? && e.key == k)
  }

  predicate TouchesDeployment(e: Event, k: Key) {
    (e.WroteDeployment? && e.now.key == k) || (e.UserWroteDeployment? && e.key == k)
  }

  // An event accounts for all the differences between two stores: what it does not touch
  // is the same, what it touches is gone or has a version never handed out before.
  ghost predicate AccountsFor(e: Event, s: Store, s': Store) {
    && s'.clock >= s.clock && s'.strict == s.strict
    && (forall k ::
          if TouchesCR(e, k) then k in s'.crs ==> s'.crs[k].version > s.clock
          else (k in s'.crs <==> k in s.crs) && (k in s.crs ==> s'.crs[k] == s.crs[k]))
    && (forall k ::
          if TouchesDeployment(e, k) then k in s'.deployments ==> s'.deployments[k].version > s.clock
          else (k in s'.deployments <==> k in s.deployments) &&
               (k in s.deployments ==> s'.deployments[k] == s.deployments[k]))
    && (e.WroteStatus? ==>
          && e.after.key in s.crs && s.crs[e.after.key] == e.before
          && e.after.key in s'.crs && s'.crs[e.after.key] == e.after)
    && (e.WroteDeployment? ==>
          && e.now.key in s'.deployments && s'.deployments[e.now.key] == e.now
          && e.held == (if e.now.key in s.deployments then Some(s.deployments[e.now.key]) else None)
          && e.resource == HeldCR(s, e.now.key))
  }

  lemma CreateIsLogged(s: Store, id: nat, d: Deployment)
    requires ValidStore(s) && Create(s, d).Committed?
    ensures var s' := Create(s, d).store;
            ValidStore(s') && s'.pods == s.pods &&
            AccountsFor(WroteDeployment(id, None, s'.deployments[d.key], HeldCR(s, d.key)), s, s')
  {
  }

  lemma UpdateIsLogged(s: Store, id: nat, d: Deployment)
    requires ValidStore(s) && Update(s, d).Committed?
    ensures var s' := Update(s, d).store;
            ValidStore(s') && s'.pods == s.pods &&
            AccountsFor(WroteDeployment(id, Some(s.deployments[d.key]), s'.deployments[d.key], HeldCR(s, d.key)),
                        s, s')
  {
  }

  lemma StatusIsLogged(s: Store, id: nat, cr: CR)
    requires ValidStore(s) && UpdateStatus(s, cr).Committed?
    ensures var s' := UpdateStatus(s, cr).store;
            ValidStore(s') && s'.pods == s.pods &&
            AccountsFor(WroteStatus(id, s.crs[cr.key], s'.crs[cr.key]), s, s')
  {
  }

  lemma NothingIsLogged(s: Store, e: Event)
    requires !e.WroteStatus? && !e.WroteDeployment? && !e.UserWroteCR? && !e.UserWroteDeployment?
    ensures AccountsFor(e, s, s)
  {
  }

  lemma CallIsLogged(view: Store, s: Store, id: nat, p: PassState, f: Fault, at: nat)
    requires ValidStore(s)
    ensures var (s', p', e) := Call(view, s, id, p, f, at);
            ValidStore(s') && AccountsFor(e, s, s') && p'.key == p.key && s'.pods == s.pods
  {
    var (s', p', e) := Call(view, s, id, p, f, at);
    if e.WroteStatus? {
      StatusIsLogged(s, id, p.pc.cr.(nodes := PodNames(p.pc.pods)));
    } else if e.WroteDeployment? && e.held.None? {
      CreateIsLogged(s, id, DeploymentFor(p.pc.cr));
    } else if e.WroteDeployment? {
      UpdateIsLogged(s, id, p.pc.found.(replicas := p.pc.cr.size));
    } else {
      assert s' == s;
      NothingIsLogged(s, e);
    }
  }
}
