/**
What starts a pass, and when the operator stops too early. Only custom resources are
watched: a key is woken by a change of its own resource, by a pass that ended in an error
or asked for another, and by a resync, but not by its Deployment or its pods.
*/
module Triggers {
  import opened GoSlices
  import opened ApiServer
  import opened Reconciler
  import opened ListingOrder
  import opened Ranks
  import opened Convergence
  import opened Interleaving
  import opened InterleavingSafety
  import opened QuietRuns

  // Passes begin only for keys that wait for one.
  ghost predicate Triggered(sys: System, steps: seq<Step>) {
    forall i | 0 <= i < |steps| && steps[i].Begin? :: steps[i].key in RunSteps(sys, steps[..i]).pending
  }

  predicate NoResync(steps: seq<Step>, k: Key) {
    forall i | 0 <= i < |steps| :: steps[i] != Resync(k)
  }

  lemma TriggeredInTwo(sys: System, first: seq<Step>, second: seq<Step>)
    requires Triggered(sys, first) && Triggered(RunSteps(sys, first), second)
    ensures Triggered(sys, first + second)
  {
    var all := first + second;
    forall i | 0 <= i < |all| && all[i].Begin?
      ensures all[i].key in RunSteps(sys, all[..i]).pending
    {
      if i < |first| {
        assert all[..i] == first[..i];
      } else {
        assert all[..i] == first + second[..i - |first|];
        RunInTwo(sys, first, second[..i - |first|]);
      }
    }
  }

  predicate InFlight(sys: System, k: Key) {
    exists id :: 0 <= id < |sys.passes| && sys.passes[id].key == k && !sys.passes[id].pc.Ended?
  }

  // ------------------------------------------------------------ no lost wake-up

  // k is converged, or a pass for it is under way or due.
  ghost predicate Awake(o: Order, sys: System, k: Key)
    requires k in sys.store.crs
  {
    k in sys.pending || InFlight(sys, k) || Rank(o, sys.store, k) == 0
  }

  lemma CallKeepsAwake(o: Order, mid: System, sys: System, k: Key, id: nat, f: Fault)
    requires QuietInv(o, mid, sys, k) && Awake(o, sys, k) && id < |sys.passes|
    ensures k in Next(sys, Advance(id, f)).store.crs && Awake(o, Next(sys, Advance(id, f)), k)
  {
    var next := Next(sys, Advance(id, f));
    CallAdvances(o, mid, sys, k, id, f);
    if InFlight(sys, k) {
      var j :| 0 <= j < |sys.passes| && sys.passes[j].key == k && !sys.passes[j].pc.Ended?;
      assert next.passes[j] == sys.passes[j] || j == id;
    }
  }

  lemma StepKeepsAwake(o: Order, mid: System, sys: System, k: Key, step: Step)
    requires QuietInv(o, mid, sys, k) && Awake(o, sys, k) && Quiet(o, step, |mid.history|, mid.store.pods)
    ensures k in Next(sys, step).store.crs && Awake(o, Next(sys, step), k)
  {
    if step.Advance? {
      if step.pass < |sys.passes| {
        CallKeepsAwake(o, mid, sys, k, step.pass, step.fault);
      }
    } else {
      var next := Next(sys, step);
      assert next.passes[..|sys.passes|] == sys.passes;
      assert step.Begin? ==> next.passes[|sys.passes|].key == step.key;
    }
  }

  lemma {:induction false} RunKeepsAwake(o: Order, mid: System, k: Key, steps: seq<Step>)
    requires QuietInv(o, mid, mid, k) && Awake(o, mid, k) && AllQuiet(o, steps, |mid.history|, mid.store.pods)
    ensures QuietInv(o, mid, RunSteps(mid, steps), k) && Awake(o, RunSteps(mid, steps), k)
  {
    if steps != [] {
      var front, last := steps[..|steps| - 1], steps[|steps| - 1];
      RunKeepsAwake(o, mid, k, front);
      QuietStep(o, mid, RunSteps(mid, front), k, last);
      StepKeepsAwake(o, mid, RunSteps(mid, front), k, last);
    }
  }

  // No wake-up is lost: once the caches have caught up with a key that is pending, the
  // operator does not come to rest before the key is converged, whatever lags and fails.
  lemma RestsOnlyWhenConverged(o: Order, s: Store, before: seq<Step>, quiet: seq<Step>, k: Key)
    requires ValidStore(s)
    requires Settled(o, RunSteps(Start(s), before), k) && k in RunSteps(Start(s), before).pending
    requires AllQuiet(o, quiet, |RunSteps(Start(s), before).history|, RunSteps(Start(s), before).store.pods)
    ensures var end := RunSteps(RunSteps(Start(s), before), quiet);
            k in end.store.crs &&
            (k !in end.pending && !InFlight(end, k) ==> Rank(o, end.store, k) == 0)
  {
    var mid := RunSteps(Start(s), before);
    RunKeeps(s, before);
    SettledIsQuiet(o, mid, k);
    RunKeepsAwake(o, mid, k, quiet);
  }

  // ------------------------------------------------------------ no version unread

  // A pass for k is about to read its resource.
  predicate AboutToRead(sys: System, k: Key) {
    exists id :: 0 <= id < |sys.passes| && sys.passes[id] == PassState(k, AtGetCR, 0, 0, 0)
  }

  // Some pass has read this version.
  ghost predicate HasBeenRead(sys: System, cr: CR) {
    exists i, id :: 0 <= i < |sys.log| && sys.log[i] == ReadCR(id, cr)
  }

  ghost predicate Noticed(sys: System, k: Key) {
    k in sys.cache.crs ==> k in sys.pending || AboutToRead(sys, k) || HasBeenRead(sys, sys.cache.crs[k])
  }

  lemma ReadStaysRead(sys: System, next: System, cr: CR)
    requires HasBeenRead(sys, cr) && sys.log <= next.log
    ensures HasBeenRead(next, cr)
  {
    var i, id :| 0 <= i < |sys.log| && sys.log[i] == ReadCR(id, cr);
    assert next.log[i] == ReadCR(id, cr);
  }

  lemma CallKeepsNoticed(sys: System, k: Key, id: nat, f: Fault)
    requires Noticed(sys, k) && id < |sys.passes|
    ensures Noticed(Next(sys, Advance(id, f)), k)
  {
    var next := Next(sys, Advance(id, f));
    if k in sys.cache.crs && k !in sys.pending {
      if AboutToRead(sys, k) {
        var j :| 0 <= j < |sys.passes| && sys.passes[j] == PassState(k, AtGetCR, 0, 0, 0);
        if j == id {
          assert f == Works ==> next.log[|sys.log|] == ReadCR(id, sys.cache.crs[k]);
        } else {
          assert next.passes[j] == sys.passes[j];
        }
      } else {
        ReadStaysRead(sys, next, sys.cache.crs[k]);
      }
    }
  }

  lemma StepKeepsNoticed(sys: System, step: Step, k: Key)
    requires Noticed(sys, k)
    ensures Noticed(Next(sys, step), k)
  {
    if step.Advance? {
      if step.pass < |sys.passes| {
        CallKeepsNoticed(sys, k, step.pass, step.fault);
      }
    } else {
      var next := Next(sys, step);
      assert sys.passes <= next.passes;
      assert step.Begin? ==> next.passes[|sys.passes|] == PassState(step.key, AtGetCR, 0, 0, 0);
      if k in next.cache.crs && k !in next.pending && !AboutToRead(sys, k) && step != Begin(k) {
        assert k in sys.cache.crs && next.cache.crs[k] == sys.cache.crs[k];
        ReadStaysRead(sys, next, sys.cache.crs[k]);
      }
    }
  }

  // No version goes unnoticed: in every interleaving with users, each version of a resource
  // that the cache shows has been read by a pass, unless a pass is due or about to read it.
  lemma {:induction false} EveryVersionIsRead(s: Store, steps: seq<Step>, k: Key)
    ensures Noticed(RunSteps(Start(s), steps), k)
  {
    if steps != [] {
      EveryVersionIsRead(s, steps[..|steps| - 1], k);
      StepKeepsNoticed(RunSteps(Start(s), steps[..|steps| - 1]), steps[|steps| - 1], k);
    }
  }

  // ------------------------------------------------------------ asleep

  // Nobody looks at k, and nothing that may yet be shown of it would wake anybody.
  ghost predicate Asleep(mid: System, sys: System, k: Key) {
    && k in mid.store.crs && k !in sys.pending && !InFlight(sys, k)
    && IdenticalAt(mid.store, sys.store, k)
    && k in sys.cache.crs && sys.cache.crs[k] == mid.store.crs[k]
    && |mid.history| <= |sys.history|
    && (forall i | |mid.history| <= i < |sys.history| ::
          k in sys.history[i].crs && sys.history[i].crs[k] == mid.store.crs[k])
  }

  lemma CallKeepsAsleep(mid: System, sys: System, k: Key, id: nat, f: Fault)
    requires Inv(sys) && Asleep(mid, sys, k) && id < |sys.passes|
    ensures Asleep(mid, Next(sys, Advance(id, f)), k)
  {
    var p, next := sys.passes[id], Next(sys, Advance(id, f));
    assert PassOk(sys.store, sys.log, id, p);
    assert forall j | 0 <= j < |next.passes| && j != id :: next.passes[j] == sys.passes[j];
    if p.key == k {
      assert p.pc.Ended?;
    } else {
      OtherCall(Fixed, sys.cache, sys.store, k, id, p, f, |sys.log|);
    }
  }

  lemma StepKeepsAsleep(o: Order, mid: System, sys: System, k: Key, step: Step)
    requires Inv(sys) && Asleep(mid, sys, k) && Quiet(o, step, |mid.history|, mid.store.pods)
    requires step != Resync(k) && step != Begin(k)
    ensures Asleep(mid, Next(sys, step), k)
  {
    if step.Advance? {
      if step.pass < |sys.passes| {
        CallKeepsAsleep(mid, sys, k, step.pass, step.fault);
      }
    } else if step.SyncCR? && step.key == k {
      assert Past(sys, step.at).crs[k] == sys.cache.crs[k];
      assert sys.cache.crs[k := sys.cache.crs[k]] == sys.cache.crs;
    }
  }

  lemma {:induction false} RunKeepsAsleep(o: Order, mid: System, k: Key, steps: seq<Step>)
    requires Inv(mid) && Asleep(mid, mid, k) && AllQuiet(o, steps, |mid.history|, mid.store.pods)
    requires Triggered(mid, steps) && NoResync(steps, k)
    ensures Inv(RunSteps(mid, steps)) && Asleep(mid, RunSteps(mid, steps), k)
  {
    if steps != [] {
      var front, last := steps[..|steps| - 1], steps[|steps| - 1];
      assert forall i | 0 <= i < |front| :: steps[..i] == front[..i];
      RunKeepsAsleep(o, mid, k, front);
      StepKeeps(RunSteps(mid, front), last);
      StepKeepsAsleep(o, mid, RunSteps(mid, front), k, last);
    }
  }

  // ------------------------------------------------------------ blocked

  lemma BlockedWrite(o: Order, view: Store, s: Store, k: Key, id: nat, p: PassState, f: Fault, at: nat)
    requires ValidStore(s) && p.key == k && KnowsOf(o, s, k, p) && k in s.crs && Blocked(s, k)
    requires p.pc.AtCreate? || p.pc.AtUpdate? || p.pc.AtStatus?
    ensures var s' := Call(view, s, id, p, f, at).0;
            k in s'.crs && Blocked(s', k)
  {
    match p.pc
    case AtCreate(cr) => BlockedCreate(o, s, k, cr);
    case AtUpdate(cr, found) => BlockedUpdate(s, k, found.(replicas := cr.size));
    case AtStatus(cr, pods) => BlockedStatus(o, s, k, cr, PodNames(pods));
  }

  lemma BlockedCreate(o: Order, s: Store, k: Key, cr: CR)
    requires Behind(o, InHand(s, k, cr), s, k) && Blocked(s, k)
    ensures Create(s, DeploymentFor(cr)).Committed? ==> Blocked(Create(s, DeploymentFor(cr)).store, k)
  {
    LabelsFit(k.name);
  }

  lemma BlockedUpdate(s: Store, k: Key, d: Deployment)
    requires k in s.crs && Blocked(s, k)
    ensures Update(s, d).Committed? ==> Blocked(Update(s, d).store, k)
  {
  }

  lemma BlockedStatus(o: Order, s: Store, k: Key, cr: CR, names: GoList<string>)
    requires Behind(o, InHand(s, k, cr), s, k) && Blocked(s, k) && SameNames(o, names, Ranks.Listed(s, k))
    ensures var w := UpdateStatus(s, cr.(nodes := names));
            w.Committed? ==> k in w.store.crs && Blocked(w.store, k)
  {
  }

  lemma StepKeepsBlocked(o: Order, mid: System, sys: System, k: Key, step: Step)
    requires QuietInv(o, mid, sys, k) && Blocked(sys.store, k) && Quiet(o, step, |mid.history|, mid.store.pods)
    ensures k in Next(sys, step).store.crs && Blocked(Next(sys, step).store, k)
  {
    if step.Advance? && step.pass < |sys.passes| {
      var p := sys.passes[step.pass];
      assert PassOk(sys.store, sys.log, step.pass, p);
      if p.key == k {
        if p.pc.AtCreate? || p.pc.AtUpdate? || p.pc.AtStatus? {
          BlockedWrite(o, sys.cache, sys.store, k, step.pass, p, step.fault, |sys.log|);
        }
      } else {
        OtherCall(o, sys.cache, sys.store, k, step.pass, p, step.fault, |sys.log|);
      }
    }
  }

  lemma {:induction false} RunKeepsBlocked(o: Order, mid: System, k: Key, steps: seq<Step>)
    requires QuietInv(o, mid, mid, k) && Blocked(mid.store, k)
    requires AllQuiet(o, steps, |mid.history|, mid.store.pods)
    ensures QuietInv(o, mid, RunSteps(mid, steps), k) && Blocked(RunSteps(mid, steps).store, k)
  {
    if steps != [] {
      var front, last := steps[..|steps| - 1], steps[|steps| - 1];
      RunKeepsBlocked(o, mid, k, front);
      QuietStep(o, mid, RunSteps(mid, front), k, last);
      StepKeepsBlocked(o, mid, RunSteps(mid, front), k, last);
    }
  }

  // ------------------------------------------------------------ a run that converges

  // One pass, from its beginning to its end.
  function CleanPass(sys: System, k: Key): seq<Step> {
    var n := |sys.passes|;
    [Begin(k), Advance(n, Works), Advance(n, Works), Advance(n, Works), Advance(n, Works)]
  }

  function Bare(p: PassState): PassState {
    PassState(p.key, p.pc, 0, 0, 0)
  }

  // A call that works leaves the rest of the pass to do.
  lemma CallFinishes(sys: System, n: nat)
    requires n < |sys.passes|
    ensures var next := Next(sys, Advance(n, Works));
            && next.cache == sys.cache && next.passes == sys.passes[n := next.passes[n]]
            && CallsLeft(next.passes[n].pc) <= (if sys.passes[n].pc.Ended? then 0 else CallsLeft(sys.passes[n].pc) - 1)
            && Finish(next.cache, next.store, Bare(next.passes[n]), NO_FAULTS) ==
               Finish(sys.cache, sys.store, Bare(sys.passes[n]), NO_FAULTS)
            && next.passes[n].key == sys.passes[n].key
  {
  }

  lemma {:induction false} CallsFinish(sys: System, n: nat, calls: seq<Step>)
    requires n < |sys.passes| && forall i | 0 <= i < |calls| :: calls[i] == Advance(n, Works)
    ensures var end := RunSteps(sys, calls);
            && end.cache == sys.cache && |end.passes| == |sys.passes| && end.passes == sys.passes[n := end.passes[n]]
            && (!end.passes[n].pc.Ended? ==> CallsLeft(end.passes[n].pc) + |calls| <= CallsLeft(sys.passes[n].pc))
            && Finish(end.cache, end.store, Bare(end.passes[n]), NO_FAULTS) ==
               Finish(sys.cache, sys.store, Bare(sys.passes[n]), NO_FAULTS)
  {
    if calls != [] {
      var front := calls[..|calls| - 1];
      CallsFinish(sys, n, front);
      CallFinishes(RunSteps(sys, front), n);
    }
  }

  lemma CleanPassReconciles(sys: System, k: Key)
    ensures var n := |sys.passes|;
            var end := RunSteps(sys, CleanPass(sys, k));
            var (s', result) := Reconcile(sys.cache, sys.store, k, NO_FAULTS);
            && end.store == s' && |end.passes| == n + 1 && end.passes[..n] == sys.passes
            && end.passes[n].pc == Ended(result)
  {
    var calls := CleanPass(sys, k)[1..];
    assert CleanPass(sys, k) == [Begin(k)] + calls;
    BeginAndCalls(sys, k, calls);
  }

  lemma BeginAndCalls(sys: System, k: Key, calls: seq<Step>)
    requires |calls| == 4 && forall i | 0 <= i < 4 :: calls[i] == Advance(|sys.passes|, Works)
    ensures var n := |sys.passes|;
            var end := RunSteps(sys, [Begin(k)] + calls);
            var (s', result) := Reconcile(sys.cache, sys.store, k, NO_FAULTS);
            && end.store == s' && |end.passes| == n + 1 && end.passes[..n] == sys.passes
            && end.passes[n].pc == Ended(result)
  {
    var begun := Next(sys, Begin(k));
    assert [Begin(k)][..0] == [] && RunSteps(sys, [Begin(k)]) == begun;
    RunInTwo(sys, [Begin(k)], calls);
    CallsFinish(begun, |sys.passes|, calls);
    AlonePassIsReconcile(sys.cache, sys.store, k, NO_FAULTS);
  }

  lemma CleanPassLowersRank(o: Order, view: Store, s: Store, k: Key)
    requires ValidStore(s) && CacheOk(view, s) && FreshAt(o, view, s, k) && !Blocked(s, k)
    ensures var s' := Reconcile(view, s, k, NO_FAULTS).0;
            && k in s'.crs && !Blocked(s', k)
            && (Rank(o, s', k) < Rank(o, s, k) || Rank(o, s', k) == 0)
  {
    var now := view.(clock := s.clock);
    assert Reconcile(now, s, k, NO_FAULTS) == Reconcile(view, s, k, NO_FAULTS);
    CleanPassSucceeds(o, now, s, k);
    PassLowersRank(o, now, s, k, NO_FAULTS);
    PassKeepsUnblocked(o, now, s, k, NO_FAULTS, k);
  }

  lemma CleanPassIsQuiet(o: Order, sys: System, k: Key)
    requires k in sys.pending
    ensures Triggered(sys, CleanPass(sys, k)) && NoResync(CleanPass(sys, k), k)
    ensures AllQuiet(o, CleanPass(sys, k), |sys.history|, sys.store.pods)
  {
    assert CleanPass(sys, k)[..0] == [];
  }

  // One clean pass: k is nearer to convergence, and awake.
  lemma CleanRound(o: Order, mid: System, k: Key)
    requires Inv(mid) && Settled(o, mid, k) && k in mid.pending
    requires Rank(o, mid.store, k) > 0 && !Blocked(mid.store, k)
    ensures var ended := RunSteps(mid, CleanPass(mid, k));
            && QuietInv(o, mid, ended, k) && Awake(o, ended, k) && !InFlight(ended, k)
            && Rank(o, ended.store, k) < Rank(o, mid.store, k) && !Blocked(ended.store, k)
  {
    var ended := RunSteps(mid, CleanPass(mid, k));
    SettledIsQuiet(o, mid, k);
    CleanPassIsQuiet(o, mid, k);
    RunKeepsAwake(o, mid, k, CleanPass(mid, k));
    CleanPassReconciles(mid, k);
    CleanPassLowersRank(o, mid.cache, mid.store, k);
    OneMoreEnded(mid, ended, k);
  }

  lemma OneMoreEnded(sys: System, ended: System, k: Key)
    requires |ended.passes| == |sys.passes| + 1 && ended.passes[..|sys.passes|] == sys.passes
    requires ended.passes[|sys.passes|].pc.Ended?
    requires forall p | p in sys.passes && p.key == k :: p.pc.Ended?
    ensures !InFlight(ended, k)
  {
    forall id | 0 <= id < |sys.passes|
      ensures ended.passes[id] == sys.passes[id]
    {
      assert ended.passes[..|sys.passes|][id] == ended.passes[id];
    }
  }

  // ------------------------------------------------------------ the exact condition

  // Steps that only the operator and its caches take, with passes begun when they are due,
  // and that bring k to convergence without a resync.
  ghost predicate GetsThere(o: Order, mid: System, steps: seq<Step>, k: Key) {
    && AllQuiet(o, steps, |mid.history|, mid.store.pods) && Triggered(mid, steps) && NoResync(steps, k)
    && k in RunSteps(mid, steps).store.crs && Rank(o, RunSteps(mid, steps).store, k) == 0
  }

  lemma {:induction false} FindRun(o: Order, mid: System, k: Key) returns (steps: seq<Step>)
    requires Inv(mid) && Settled(o, mid, k) && !Blocked(mid.store, k)
    requires k in mid.pending || Rank(o, mid.store, k) == 0
    ensures GetsThere(o, mid, steps, k)
    decreases Rank(o, mid.store, k)
  {
    if Rank(o, mid.store, k) == 0 {
      return [];
    }
    var round := CleanPass(mid, k);
    var ended := RunSteps(mid, round);
    CleanPassIsQuiet(o, mid, k);
    CleanRound(o, mid, k);
    var catchUp := CatchUp(ended, k);
    CatchUpIsQuiet(o, ended, k);
    CatchUpKeeps(o, mid, ended, k);
    var rest := FindRun(o, RunSteps(ended, catchUp), k);
    GetsThereLater(o, ended, catchUp, rest, k);
    GetsThereLater(o, mid, round, catchUp + rest, k);
    steps := round + (catchUp + rest);
  }

  lemma GetsThereLater(o: Order, mid: System, first: seq<Step>, rest: seq<Step>, k: Key)
    requires AllQuiet(o, first, |mid.history|, mid.store.pods) && Triggered(mid, first) && NoResync(first, k)
    requires |mid.history| <= |RunSteps(mid, first).history| && RunSteps(mid, first).store.pods == mid.store.pods
    requires GetsThere(o, RunSteps(mid, first), rest, k)
    ensures GetsThere(o, mid, first + rest, k)
  {
    RunInTwo(mid, first, rest);
    TriggeredInTwo(mid, first, rest);
    var all, next := first + rest, RunSteps(mid, first);
    forall i | 0 <= i < |all|
      ensures Quiet(o, all[i], |mid.history|, mid.store.pods) && all[i] != Resync(k)
    {
      if i >= |first| {
        assert Quiet(o, rest[i - |first|], |next.history|, next.store.pods);
      }
    }
  }

  lemma CatchUpKeeps(o: Order, mid: System, ended: System, k: Key)
    requires QuietInv(o, mid, ended, k) && Awake(o, ended, k) && !InFlight(ended, k)
    ensures var next := RunSteps(ended, CatchUp(ended, k));
            && Inv(next) && Settled(o, next, k) && next.store == ended.store && next.history == ended.history
            && ended.pending <= next.pending
  {
    assert forall p | p in ended.passes && p.key == k :: p.pc.Ended?;
    CatchingUpSettles(o, ended, k);
    DeliveriesKeep(ended, CatchUp(ended, k));
  }

  lemma CatchUpIsQuiet(o: Order, sys: System, k: Key)
    ensures Triggered(sys, CatchUp(sys, k)) && NoResync(CatchUp(sys, k), k)
    ensures AllQuiet(o, CatchUp(sys, k), |sys.history|, sys.store.pods)
  {
  }

  lemma {:induction false} DeliveriesKeep(sys: System, steps: seq<Step>)
    requires Inv(sys)
    requires forall i | 0 <= i < |steps| :: steps[i].SyncCR? || steps[i].SyncDeployment? || steps[i].SyncPods?
    ensures var next := RunSteps(sys, steps);
            Inv(next) && next.store == sys.store && next.history == sys.history && sys.pending <= next.pending
  {
    if steps != [] {
      DeliveriesKeep(sys, steps[..|steps| - 1]);
      StepKeeps(RunSteps(sys, steps[..|steps| - 1]), steps[|steps| - 1]);
    }
  }

  // From any reachable state in which the caches have caught up with k and no pass for k is
  // under way: the operator can bring k to convergence by itself, if and only if k is
  // converged already, or is pending and not blocked.
  lemma ConvergesByItselfIff(o: Order, s: Store, before: seq<Step>, k: Key)
    requires ValidStore(s) && Settled(o, RunSteps(Start(s), before), k)
    ensures var mid := RunSteps(Start(s), before);
            (exists steps :: GetsThere(o, mid, steps, k)) <==>
            Rank(o, mid.store, k) == 0 || (k in mid.pending && !Blocked(mid.store, k))
  {
    var mid := RunSteps(Start(s), before);
    RunKeeps(s, before);
    SettledIsQuiet(o, mid, k);
    if Rank(o, mid.store, k) == 0 {
      assert GetsThere(o, mid, [], k);
    } else if k in mid.pending && !Blocked(mid.store, k) {
      var steps := FindRun(o, mid, k);
      assert GetsThere(o, mid, steps, k);
    } else {
      forall steps
        ensures !GetsThere(o, mid, steps, k)
      {
        if GetsThere(o, mid, steps, k) {
          StaysUnconverged(o, mid, steps, k);
        }
      }
    }
  }

  lemma StaysUnconverged(o: Order, mid: System, steps: seq<Step>, k: Key)
    requires Inv(mid) && Settled(o, mid, k) && Rank(o, mid.store, k) > 0
    requires k !in mid.pending || Blocked(mid.store, k)
    requires AllQuiet(o, steps, |mid.history|, mid.store.pods) && Triggered(mid, steps) && NoResync(steps, k)
    ensures k in RunSteps(mid, steps).store.crs && Rank(o, RunSteps(mid, steps).store, k) > 0
  {
    if k !in mid.pending {
      assert Asleep(mid, mid, k);
      RunKeepsAsleep(o, mid, k, steps);
    } else {
      SettledIsQuiet(o, mid, k);
      RunKeepsBlocked(o, mid, k, steps);
      BlockedMeansUnconverged(o, RunSteps(mid, steps).store, k);
    }
  }
}
