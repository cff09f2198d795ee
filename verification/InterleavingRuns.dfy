/**
Runs, step by step, that show what the operator does not promise.
*/
module InterleavingRuns {
  import opened GoSlices
  import opened ApiServer
  import opened Reconciler
  import opened ListingOrder
  import opened Ranks
  import opened Convergence
  import opened Interleaving
  import opened InterleavingSafety
  import opened QuietRuns
  import opened Triggers

  function NewCR(k: Key, size: int): CR {
    CR(k, "", 0, size, Nil, "")
  }

  // One resource of the given size, and nothing else.
  function OneCR(k: Key, size: int): Store {
    Store(map[k := NewCR(k, size)], map[], [], 0, false)
  }

  // Between reading the CR and creating the Deployment the user changes the size: the old
  // size is written.
  lemma OldSizeAfterEdit(k: Key)
    ensures var end := RunSteps(Start(OneCR(k, 1)), [Begin(k), Advance(0, Works), Advance(0, Works),
                                                     PutCR(NewCR(k, 2)), Advance(0, Works)]);
            && |end.passes| == 1 && end.passes[0].pc == Ended(Requeue)
            && k in end.store.crs && k in end.store.deployments
            && end.store.crs[k].size == 2 && end.store.deployments[k].replicas == 1
  {
    var start := Start(OneCR(k, 1));
    FiveSteps(start, Begin(k), Advance(0, Works), Advance(0, Works), PutCR(NewCR(k, 2)), Advance(0, Works));
    var s3 := Next(Next(Next(start, Begin(k)), Advance(0, Works)), Advance(0, Works));
    assert s3.passes[0].pc == AtCreate(start.store.crs[k]) && s3.store == start.store;
  }

  // The size is old, too, when nobody writes the CR after the pass has read it: the user
  // changed it before, and the cache still showed the old CR.
  lemma OldSizeFromCache(k: Key)
    ensures var end := RunSteps(Start(OneCR(k, 1)), [PutCR(NewCR(k, 2)), Begin(k), Advance(0, Works),
                                                     Advance(0, Works), Advance(0, Works)]);
            && |end.log| == 4 && end.log[1].ReadCR? && end.log[3].WroteDeployment?
            && CRUntouched(end.log, 1, 3, k)
            && k in end.store.crs && k in end.store.deployments
            && end.store.crs[k].size == 2 && end.store.deployments[k].replicas == 1
  {
    var start := Start(OneCR(k, 1));
    FiveSteps(start, PutCR(NewCR(k, 2)), Begin(k), Advance(0, Works), Advance(0, Works), Advance(0, Works));
    var s1 := Next(start, PutCR(NewCR(k, 2)));
    var s4 := Next(Next(Next(s1, Begin(k)), Advance(0, Works)), Advance(0, Works));
    assert s4.passes[0].pc == AtCreate(start.cache.crs[k]) && s4.store == s1.store;
    assert s4.log == [UserWroteCR(k), ReadCR(0, start.cache.crs[k]), FoundNoDeployment(0, k)];
  }

  // ------------------------------------------------------------ creation, as every run begins

  function PodNamed(k: Key, name: string): Pod {
    Pod(k.namespace, name, LabelsFor(k.name))
  }

  function OnePod(k: Key): Pod {
    PodNamed(k, "web-0")
  }

  lemma OnePodListed(k: Key)
    ensures PodsOf([OnePod(k)], k) == [OnePod(k)] && PodsOf([], k) == []
    ensures PodNames([OnePod(k)]) == List(["web-0"])
  {
    var pods := [OnePod(k)];
    assert pods[..0] == [] && HasLabels(pods[0], LabelsFor(k.name));
    assert PodsOf(pods, k) == ListPods(pods[..0], k.namespace, LabelsFor(k.name)) + [pods[0]];
  }

  // A strict server with one new resource of size 1.
  function StrictStore(k: Key, pods: seq<Pod>): Store {
    Store(map[k := NewCR(k, 1)], map[], pods, 0, true)
  }

  // The Deployment is created and the cache catches up.
  function CreateSteps(k: Key): seq<Step> {
    [Begin(k), Advance(0, Works), Advance(0, Works), Advance(0, Works), SyncDeployment(k, 3)]
  }

  function Created(k: Key): Deployment {
    DeploymentFor(NewCR(k, 1)).(version := 1)
  }

  ghost predicate IsCreated(sys: System, k: Key, pods: seq<Pod>) {
    && sys.store == StrictStore(k, pods).(deployments := map[k := Created(k)], clock := 1)
    && sys.cache == StrictStore(k, pods).(deployments := map[k := Created(k)])
    && |sys.passes| == 1 && sys.passes[0].pc == Ended(Requeue)
    && |sys.history| == 3 && sys.pending == {k}
  }

  lemma CreateRun(k: Key, pods: seq<Pod>)
    requires |k.name| <= MAX_LABEL_VALUE
    ensures IsCreated(RunSteps(Start(StrictStore(k, pods)), CreateSteps(k)), k, pods)
  {
    var start := Start(StrictStore(k, pods));
    LabelsFit(k.name);
    FiveSteps(start, Begin(k), Advance(0, Works), Advance(0, Works), Advance(0, Works), SyncDeployment(k, 3));
    var s3 := Next(Next(Next(start, Begin(k)), Advance(0, Works)), Advance(0, Works));
    assert s3.passes == [PassState(k, AtCreate(NewCR(k, 1)), 0, 1, 0)] && s3.store == start.store;
    var s4 := Next(s3, Advance(0, Works));
    assert s4.store == start.store.(deployments := map[k := Created(k)], clock := 1);
    assert |s4.history| == 3 && s4.pending == {k};
  }

  // A whole pass, of four calls.
  function PassSteps(k: Key, id: nat): seq<Step> {
    [Begin(k), Advance(id, Works), Advance(id, Works), Advance(id, Works), Advance(id, Works)]
  }

  // ------------------------------------------------------------ a run into a blocked store

  // After the creation, the pod is listed and its name written to the status; ...
  function ReportSteps(k: Key): seq<Step> {
    PassSteps(k, 1)
  }

  // ... the pod goes, and the caches catch up.
  function PodsGoSteps(k: Key): seq<Step> {
    [SetPods([]), SyncCR(k, 8), SyncDeployment(k, 8), SyncPods([], 8)]
  }

  lemma ReportRun(sys: System, k: Key)
    requires IsCreated(sys, k, [OnePod(k)])
    ensures var end := RunSteps(sys, ReportSteps(k));
            && k in end.store.crs && end.store.crs[k].size == 1 && end.store.crs[k].nodes == List(["web-0"])
            && end.store.strict && k in end.store.deployments && |end.history| == 7
  {
    OnePodListed(k);
    FiveSteps(sys, Begin(k), Advance(1, Works), Advance(1, Works), Advance(1, Works), Advance(1, Works));
    var s1 := Next(sys, Begin(k));
    var s2 := Next(s1, Advance(1, Works));
    assert s2.passes[1].pc == AtGetDeployment(NewCR(k, 1));
    var s3 := Next(s2, Advance(1, Works));
    assert s3.passes[1].pc == AtList(NewCR(k, 1));
    var s4 := Next(s3, Advance(1, Works));
    assert s4.passes[1].pc == AtStatus(NewCR(k, 1), [OnePod(k)]) && s4.store == sys.store;
  }

  lemma PodsGoRun(sys: System, k: Key)
    requires k in sys.store.crs && sys.store.crs[k].nodes == List(["web-0"]) && sys.store.strict
    requires |sys.history| == 7
    ensures var end := RunSteps(sys, PodsGoSteps(k));
            && k in end.store.crs && Blocked(end.store, k)
            && k in end.cache.crs && end.cache.crs[k] == end.store.crs[k] && end.cache.pods == end.store.pods == []
  {
    FourSteps(sys, SetPods([]), SyncCR(k, 8), SyncDeployment(k, 8), SyncPods([], 8));
    OnePodListed(k);
  }

  // From a store that a strict server holds, by ordinary steps, into a store that is blocked
  // for good: once the last pod of a reported status is gone, nil is refused.
  lemma RunIntoBlocked(k: Key)
    requires |k.name| <= MAX_LABEL_VALUE
    ensures ValidStore(StrictStore(k, [OnePod(k)])) && !Blocked(StrictStore(k, [OnePod(k)]), k)
    ensures var steps := CreateSteps(k) + ReportSteps(k) + PodsGoSteps(k);
            var end := RunSteps(Start(StrictStore(k, [OnePod(k)])), steps);
            && ValidStore(end.store) && k in end.store.crs && Blocked(end.store, k)
            && k in end.cache.crs && end.cache.crs[k] == end.store.crs[k] && end.cache.pods == end.store.pods == []
  {
    var start := Start(StrictStore(k, [OnePod(k)]));
    CreateRun(k, [OnePod(k)]);
    var created := RunSteps(start, CreateSteps(k));
    ReportRun(created, k);
    PodsGoRun(RunSteps(created, ReportSteps(k)), k);
    RunInTwo(start, CreateSteps(k), ReportSteps(k));
    RunInTwo(start, CreateSteps(k) + ReportSteps(k), PodsGoSteps(k));
    RunKeeps(StrictStore(k, [OnePod(k)]), CreateSteps(k) + ReportSteps(k) + PodsGoSteps(k));
  }

  // ------------------------------------------------------------ a status that is left behind

  // After the creation, the pass that was asked for finds no pods yet and is done; ...
  function TooEarlySteps(k: Key): seq<Step> {
    [Begin(k), Advance(1, Works), Advance(1, Works), Advance(1, Works)]
  }

  // ... then the pod comes, and the cache shows it.
  function PodComesSteps(k: Key): seq<Step> {
    [SetPods([OnePod(k)]), SyncCR(k, 7), SyncPods([OnePod(k)], 7)]
  }

  function LeftBehindSteps(k: Key): seq<Step> {
    CreateSteps(k) + TooEarlySteps(k) + PodComesSteps(k)
  }

  lemma TooEarlyRun(sys: System, k: Key)
    requires IsCreated(sys, k, [])
    ensures var end := RunSteps(sys, TooEarlySteps(k));
            && end.store == sys.store && end.cache == sys.cache && |end.history| == 6 && end.pending == {}
            && |end.passes| == 2 && end.passes[0] == sys.passes[0] && end.passes[1].pc == Ended(Done)
  {
    OnePodListed(k);
    FourSteps(sys, Begin(k), Advance(1, Works), Advance(1, Works), Advance(1, Works));
    var s1 := Next(sys, Begin(k));
    assert s1.passes[0] == sys.passes[0] && s1.pending == {};
    var s2 := Next(s1, Advance(1, Works));
    assert s2.passes[1].pc == AtGetDeployment(NewCR(k, 1));
    var s3 := Next(s2, Advance(1, Works));
    assert s3.passes[1].pc == AtList(NewCR(k, 1)) && s3.pending == {};
  }

  lemma PodComesRun(o: Order, sys: System, k: Key)
    requires sys.store == StrictStore(k, []).(deployments := map[k := Created(k)], clock := 1)
    requires sys.cache == StrictStore(k, []).(deployments := map[k := Created(k)])
    requires |sys.history| == 6 && sys.pending == {} && forall p | p in sys.passes :: p.pc.Ended?
    ensures var end := RunSteps(sys, PodComesSteps(k));
            && Settled(o, end, k) && k !in end.pending && Rank(o, end.store, k) == 1 && !Blocked(end.store, k)
  {
    ThreeSteps(sys, SetPods([OnePod(k)]), SyncCR(k, 7), SyncPods([OnePod(k)], 7));
    OnePodListed(k);
    var s1 := Next(sys, SetPods([OnePod(k)]));
    var s2 := Next(s1, SyncCR(k, 7));
    assert sys.cache.crs[k := sys.cache.crs[k]] == sys.cache.crs;
    assert s2 == s1;
    var s3 := Next(s2, SyncPods([OnePod(k)], 7));
    assert s3 == s1.(cache := s1.cache.(pods := [OnePod(k)]));
    StatusIsMissing(o, s3, k);
  }

  lemma StatusIsMissing(o: Order, end: System, k: Key)
    requires end.store == StrictStore(k, [OnePod(k)]).(deployments := map[k := Created(k)], clock := 1)
    requires end.cache == StrictStore(k, [OnePod(k)]).(deployments := map[k := Created(k)])
    requires forall p | p in end.passes :: p.pc.Ended?
    ensures Settled(o, end, k) && Rank(o, end.store, k) == 1 && !Blocked(end.store, k)
  {
    OnePodListed(k);
  }

  // What becomes of a new resource when its pod comes after the second pass, which is
  // the ordinary case. All passes were due, none failed, everything is up to date and
  // nothing is refused; but the status misses the pod, and stays so whatever the operator
  // does, until a user edits the resource or a resync.
  lemma StatusLeftBehind(o: Order, k: Key)
    requires |k.name| <= MAX_LABEL_VALUE
    ensures Triggered(Start(StrictStore(k, [])), LeftBehindSteps(k))
    ensures var end := RunSteps(Start(StrictStore(k, [])), LeftBehindSteps(k));
            && Settled(o, end, k) && k !in end.pending && Rank(o, end.store, k) == 1 && !Blocked(end.store, k)
            && forall steps :: !GetsThere(o, end, steps, k)
  {
    var start := Start(StrictStore(k, []));
    CreateRun(k, []);
    var created := RunSteps(start, CreateSteps(k));
    TooEarlyRun(created, k);
    PodComesRun(o, RunSteps(created, TooEarlySteps(k)), k);
    RunInTwo(start, CreateSteps(k), TooEarlySteps(k));
    RunInTwo(start, CreateSteps(k) + TooEarlySteps(k), PodComesSteps(k));
    LeftBehindTriggered(k);
    ConvergesByItselfIff(o, StrictStore(k, []), LeftBehindSteps(k), k);
  }

  lemma LeftBehindTriggered(k: Key)
    requires |k.name| <= MAX_LABEL_VALUE
    ensures Triggered(Start(StrictStore(k, [])), LeftBehindSteps(k))
  {
    var start := Start(StrictStore(k, []));
    CreateRun(k, []);
    RunInTwo(start, CreateSteps(k), TooEarlySteps(k));
    BeginsFirst(start, k, CreateSteps(k));
    BeginsFirst(RunSteps(start, CreateSteps(k)), k, TooEarlySteps(k));
    TriggeredInTwo(start, CreateSteps(k), TooEarlySteps(k));
    TriggeredInTwo(start, CreateSteps(k) + TooEarlySteps(k), PodComesSteps(k));
  }

  lemma BeginsFirst(sys: System, k: Key, steps: seq<Step>)
    requires k in sys.pending && steps != [] && steps[0] == Begin(k)
    requires forall i | 1 <= i < |steps| :: !steps[i].Begin?
    ensures Triggered(sys, steps)
  {
    assert steps[..0] == [];
  }

  // ------------------------------------------------------------ a listing in another order

  function TwoPodsCR(k: Key): CR {
    CR(k, "", 0, 2, List(["web-0", "web-1"]), "")
  }

  // A converged resource with two pods.
  function TwoPods(k: Key): Store {
    Store(map[k := TwoPodsCR(k)], map[k := DeploymentFor(TwoPodsCR(k))],
          [PodNamed(k, "web-0"), PodNamed(k, "web-1")], 0, false)
  }

  lemma TwoPodsListed(k: Key, a: string, b: string)
    ensures var pods := [PodNamed(k, a), PodNamed(k, b)];
            PodsOf(pods, k) == pods && PodNames(pods) == List([a, b])
  {
    var pods := [PodNamed(k, a), PodNamed(k, b)];
    var labels := LabelsFor(k.name);
    assert pods[..1] == [pods[0]] && [pods[0]][..0] == [];
    assert ListPods([pods[0]], k.namespace, labels) == ListPods([], k.namespace, labels) + [pods[0]];
    assert ListPods(pods, k.namespace, labels) == ListPods([pods[0]], k.namespace, labels) + [pods[1]];
  }

  function Swapped(k: Key): seq<Pod> {
    [PodNamed(k, "web-1"), PodNamed(k, "web-0")]
  }

  // The cache lists the two pods the other way round, and the pass that is due rewrites the
  // status of a converged resource, though nobody has changed anything.
  lemma OrderRewritesStatus(k: Key)
    ensures ValidStore(TwoPods(k)) && Rank(Fixed, TwoPods(k), k) == 0
    ensures var end := RunSteps(Start(TwoPods(k)), ReorderSteps(k)).store;
            && k in end.crs && end.crs[k].nodes == List(["web-1", "web-0"])
            && Rank(Fixed, end, k) == 1 && Rank(Free, end, k) == 0
    ensures Triggered(Start(TwoPods(k)), ReorderSteps(k))
  {
    var start := Start(TwoPods(k));
    TwoPodsListed(k, "web-0", "web-1");
    ShowSwapped(k);
    SwappedRun(ShownSwapped(k), k);
    RunInTwo(start, [SyncPods(Swapped(k), 0)], PassSteps(k, 0));
    ReorderTriggered(k);
    RanksReordered(k);
  }

  function ReorderSteps(k: Key): seq<Step> {
    [SyncPods(Swapped(k), 0)] + PassSteps(k, 0)
  }

  function ShownSwapped(k: Key): System {
    Start(TwoPods(k)).(cache := TwoPods(k).(pods := Swapped(k)))
  }

  function Reordered(k: Key): Store {
    TwoPods(k).(crs := map[k := TwoPodsCR(k).(nodes := List(["web-1", "web-0"]), version := 1)], clock := 1)
  }

  lemma ReorderTriggered(k: Key)
    ensures Triggered(Start(TwoPods(k)), ReorderSteps(k))
  {
    ShowSwapped(k);
    BeginsFirst(ShownSwapped(k), k, PassSteps(k, 0));
    TriggeredInTwo(Start(TwoPods(k)), [SyncPods(Swapped(k), 0)], PassSteps(k, 0));
  }

  lemma RanksReordered(k: Key)
    ensures Rank(Fixed, Reordered(k), k) == 1 && Rank(Free, Reordered(k), k) == 0
  {
    TwoPodsListed(k, "web-0", "web-1");
    SameTwoNames("web-0", "web-1");
    assert ["web-1", "web-0"][0] != ["web-0", "web-1"][0];
  }

  lemma SameTwoNames<T>(a: T, b: T)
    ensures multiset([a, b]) == multiset([b, a])
  {
    assert [a, b] == [a] + [b] && [b, a] == [b] + [a];
  }

  lemma ShowSwapped(k: Key)
    ensures RunSteps(Start(TwoPods(k)), [SyncPods(Swapped(k), 0)]) == ShownSwapped(k)
  {
    SameTwoNames(PodNamed(k, "web-0"), PodNamed(k, "web-1"));
    var steps := [SyncPods(Swapped(k), 0)];
    assert RunSteps(Start(TwoPods(k)), steps[..0]) == Start(TwoPods(k));
  }

  lemma StatusReordered(k: Key)
    ensures UpdateStatus(TwoPods(k), TwoPodsCR(k).(nodes := List(["web-1", "web-0"]))) == Committed(Reordered(k))
  {
    assert TwoPods(k).crs[k := Reordered(k).crs[k]] == Reordered(k).crs;
  }

  lemma SwappedRun(sys: System, k: Key)
    requires sys == ShownSwapped(k)
    ensures RunSteps(sys, PassSteps(k, 0)).store == Reordered(k)
  {
    TwoPodsListed(k, "web-1", "web-0");
    FiveSteps(sys, Begin(k), Advance(0, Works), Advance(0, Works), Advance(0, Works), Advance(0, Works));
    var s1 := Next(sys, Begin(k));
    var s2 := Next(s1, Advance(0, Works));
    assert s2.passes[0].pc == AtGetDeployment(TwoPodsCR(k));
    var s3 := Next(s2, Advance(0, Works));
    assert s3.passes[0].pc == AtList(TwoPodsCR(k));
    var s4 := Next(s3, Advance(0, Works));
    assert s4.passes[0].pc == AtStatus(TwoPodsCR(k), Swapped(k)) && s4.store == TwoPods(k) by {
      assert ["web-1", "web-0"][0] != ["web-0", "web-1"][0];
    }
    StatusReordered(k);
  }
}
