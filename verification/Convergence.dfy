/**
Convergence of the reconcile loop once the cluster is left alone: whole passes for many
keys, in any order, each reading caches that may lag behind the operator's own writes,
with calls that may fail with or without taking effect.
*/
module Convergence {
  import opened GoSlices
  import opened ApiServer
  import opened Reconciler
  import opened ListingOrder
  import opened Ranks

  // ------------------------------------------------------------ schedules

  // One pass for a key: how its calls go, how many states behind its two caches are, and
  // the pods in the order in which they are listed to it.
  datatype Turn = Turn(key: Key, faults: Faults, crLag: nat, deploymentLag: nat, pods: seq<Pod>)

  // The turns are shown the server's pods, in the server's order or (for Free) in any.
  predicate ShownPods(o: Order, turns: seq<Turn>, held: seq<Pod>) {
    forall i | 0 <= i < |turns| :: ShowsPods(o, turns[i].pods, held)
  }

  function Last(h: seq<Store>): Store
    requires h != []
  {
    h[|h| - 1]
  }

  function Ago(h: seq<Store>, lag: nat): Store
    requires h != []
  {
    if lag < |h| then h[|h| - 1 - lag] else h[0]
  }

  function View(h: seq<Store>, t: Turn): Store
    requires h != []
  {
    Last(h).(crs := Ago(h, t.crLag).crs, deployments := Ago(h, t.deploymentLag).deployments, pods := t.pods)
  }

  function Pass(h: seq<Store>, t: Turn): (Store, Outcome)
    requires h != []
  {
    Reconcile(View(h, t), Last(h), t.key, t.faults)
  }

  // The states of a run of turns, h being those so far.
  function Run(h: seq<Store>, turns: seq<Turn>): (r: seq<Store>)
    requires h != []
    ensures r != []
    decreases |turns|
  {
    if turns == [] then h else Run(h + [Pass(h, turns[0]).0], turns[1..])
  }

  function Passes(turns: seq<Turn>, k: Key): nat {
    if turns == [] then 0 else (if turns[0].key == k then 1 else 0) + Passes(turns[1..], k)
  }

  // The passes for k that end in an error.
  function Failures(h: seq<Store>, turns: seq<Turn>, k: Key): nat
    requires h != []
    decreases |turns|
  {
    if turns == [] then 0
    else
      var (s', result) := Pass(h, turns[0]);
      (if turns[0].key == k && result.Failed? then 1 else 0) + Failures(h + [s'], turns[1..], k)
  }

  // Every state so far is one that a cache may still show.
  ghost predicate GoodHistory(o: Order, h: seq<Store>, k: Key) {
    && h != []
    && (forall i | 0 <= i < |h| :: ValidStore(h[i]))
    && (forall i | 0 <= i < |h| :: Behind(o, h[i], Last(h), k))
  }

  lemma ViewIsBehind(o: Order, h: seq<Store>, t: Turn, k: Key)
    requires GoodHistory(o, h, k) && ShowsPods(o, t.pods, Last(h).pods)
    ensures Keyed(View(h, t)) && Behind(o, View(h, t), Last(h), k)
  {
    assert ValidStore(Ago(h, t.crLag)) && Behind(o, Ago(h, t.crLag), Last(h), k);
    assert ValidStore(Ago(h, t.deploymentLag)) && Behind(o, Ago(h, t.deploymentLag), Last(h), k);
  }

  lemma TurnKeepsHistory(o: Order, h: seq<Store>, t: Turn, k: Key)
    requires GoodHistory(o, h, k) && ShowsPods(o, t.pods, Last(h).pods)
    ensures GoodHistory(o, h + [Pass(h, t).0], k)
    ensures Advances(o, Last(h), Pass(h, t).0, k)
  {
    var s, s' := Last(h), Pass(h, t).0;
    ViewIsBehind(o, h, t, k);
    PassKeepsValid(View(h, t), s, t.key, t.faults);
    PassAdvances(o, View(h, t), s, t.key, t.faults, k);
    var h' := h + [s'];
    forall i | 0 <= i < |h'|
      ensures Behind(o, h'[i], s', k)
    {
      if i < |h| {
        assert Behind(o, h[i], s, k);
        BehindStays(o, h[i], s, s', k);
      }
    }
  }

  // One turn: if it is k's and does not fail, the rank falls or is 0; else it does not rise.
  lemma TurnLowersRank(o: Order, h: seq<Store>, t: Turn, k: Key)
    requires GoodHistory(o, h, k) && ShowsPods(o, t.pods, Last(h).pods)
    ensures k in Pass(h, t).0.crs
    ensures var (s', result) := Pass(h, t);
            && Rank(o, s', k) <= Rank(o, Last(h), k)
            && (t.key == k && !result.Failed? ==> Rank(o, s', k) < Rank(o, Last(h), k) || Rank(o, s', k) == 0)
  {
    ViewIsBehind(o, h, t, k);
    PassAdvances(o, View(h, t), Last(h), t.key, t.faults, k);
    if t.key == k {
      PassLowersRank(o, View(h, t), Last(h), k, t.faults);
    } else {
      OtherRankUnchanged(o, Last(h), Pass(h, t).0, k);
    }
  }

  lemma OtherRankUnchanged(o: Order, s: Store, s': Store, k: Key)
    requires Advances(o, s, s', k)
    ensures Rank(o, s', k) <= Rank(o, s, k)
  {
  }

  // As many passes that do not fail as the rank is high bring it to 0, and it stays there.
  lemma {:induction false} SuccessesConverge(o: Order, h: seq<Store>, turns: seq<Turn>, k: Key)
    requires GoodHistory(o, h, k) && ShownPods(o, turns, Last(h).pods)
    requires Rank(o, Last(h), k) == 0 || Passes(turns, k) >= Failures(h, turns, k) + Rank(o, Last(h), k)
    ensures k in Last(Run(h, turns)).crs && Rank(o, Last(Run(h, turns)), k) == 0
    decreases |turns|
  {
    if turns != [] {
      var (s', result) := Pass(h, turns[0]);
      TurnKeepsHistory(o, h, turns[0], k);
      TurnLowersRank(o, h, turns[0], k);
      SuccessesConverge(o, h + [s'], turns[1..], k);
    }
  }

  // Fault-tolerant convergence, for every key of the cluster at once. The run starts in s
  // with caches that have caught up with every user's write, so that they lag by operator
  // writes only. Then, whatever the order of the passes, the lag and the fate of the calls,
  // a key whose passes outnumber its failed passes by two is converged: exactly, if pods are
  // always listed in the order the server holds them, and up to the order of the names, if
  // every pass may be shown another order.
  lemma ConvergesDespiteFaults(o: Order, s: Store, turns: seq<Turn>, k: Key)
    requires ValidStore(s) && k in s.crs && ShownPods(o, turns, s.pods)
    requires Passes(turns, k) >= Failures([s], turns, k) + 2
    ensures k in Last(Run([s], turns)).crs && Rank(o, Last(Run([s], turns)), k) == 0
  {
    SuccessesConverge(o, [s], turns, k);
  }

  // ------------------------------------------------------------ standing still

  // With caches up to date and no faults, a pass does nothing and asks for nothing just
  // when there is no custom resource or its key is converged.
  lemma StillIff(s: Store, k: Key)
    requires ValidStore(s)
    ensures Reconcile(s, s, k, NO_FAULTS) == (s, Done) <==> k !in s.crs || Rank(Fixed, s, k) == 0
  {
    if k in s.crs {
      PassLowersRank(Fixed, s, s, k, NO_FAULTS);
    }
  }

  // A converged key stays exactly as it is, whatever goes wrong.
  lemma ConvergedStays(s: Store, k: Key, f: Faults)
    requires ValidStore(s) && k in s.crs && Rank(Fixed, s, k) == 0
    ensures Reconcile(s, s, k, f).0 == s
  {
  }

  // ------------------------------------------------------------ what a strict server never lets through

  // A strict server refuses the write that is still missing: the size is negative, the
  // name is too long for the label that selects the pods, or the last pod is gone and the
  // status would become null.
  predicate Blocked(s: Store, k: Key)
    requires k in s.crs
  {
    s.strict &&
    (s.crs[k].size < 0 ||
     (k !in s.deployments && |k.name| > MAX_LABEL_VALUE) ||
     (Listed(s, k).Nil? && s.crs[k].nodes.List?))
  }

  lemma LabelsFit(name: string)
    ensures FitsLabels(LabelsFor(name)) <==> |name| <= MAX_LABEL_VALUE
  {
    var ls := LabelsFor(name);
    assert |ls["golangappoperatored_cr"]| == |name| && |ls["app"]| == 19;
    if |name| <= MAX_LABEL_VALUE {
      forall k | k in ls ensures |ls[k]| <= MAX_LABEL_VALUE {}
    }
  }

  lemma BlockedMeansUnconverged(o: Order, s: Store, k: Key)
    requires ValidStore(s) && k in s.crs && Blocked(s, k)
    ensures Rank(o, s, k) > 0
  {
  }

  lemma BlockedStays(o: Order, view: Store, s: Store, k: Key, f: Faults, other: Key)
    requires ValidStore(s) && Keyed(view) && other in s.crs && Blocked(s, other)
    requires Behind(o, view, s, other)
    ensures other in Reconcile(view, s, k, f).0.crs && Blocked(Reconcile(view, s, k, f).0, other)
  {
    PassAdvances(o, view, s, k, f, other);
    LabelsFit(other.name);
    ShownListing(o, view.pods, s.pods, other);
  }

  lemma {:induction false} BlockedForever(o: Order, h: seq<Store>, turns: seq<Turn>, k: Key)
    requires GoodHistory(o, h, k) && Blocked(Last(h), k) && ShownPods(o, turns, Last(h).pods)
    ensures k in Last(Run(h, turns)).crs && Rank(o, Last(Run(h, turns)), k) > 0
    decreases |turns|
  {
    if turns == [] {
      BlockedMeansUnconverged(o, Last(h), k);
    } else {
      var t := turns[0];
      TurnKeepsHistory(o, h, t, k);
      ViewIsBehind(o, h, t, k);
      BlockedStays(o, View(h, t), Last(h), t.key, t.faults, k);
      BlockedForever(o, h + [Pass(h, t).0], turns[1..], k);
    }
  }

  // A pass without faults and with caches that are fresh at its key fails only when blocked.
  lemma CleanPassSucceeds(o: Order, view: Store, s: Store, k: Key)
    requires ValidStore(s) && FreshAt(o, view, s, k) && !Blocked(s, k)
    ensures !Reconcile(view, s, k, NO_FAULTS).1.Failed?
  {
    LabelsFit(k.name);
    ShownListing(o, view.pods, s.pods, k);
  }

  // No pass, whatever goes wrong, blocks a key that was not blocked.
  lemma PassKeepsUnblocked(o: Order, view: Store, s: Store, k: Key, f: Faults, other: Key)
    requires ValidStore(s) && Keyed(view) && other in s.crs && !Blocked(s, other)
    requires Behind(o, view, s, other)
    ensures other in Reconcile(view, s, k, f).0.crs && !Blocked(Reconcile(view, s, k, f).0, other)
  {
    PassAdvances(o, view, s, k, f, other);
    AdvancesKeepsUnblocked(o, s, Reconcile(view, s, k, f).0, other);
  }

  lemma AdvancesKeepsUnblocked(o: Order, s: Store, s': Store, k: Key)
    requires Advances(o, s, s', k) && !Blocked(s, k)
    ensures !Blocked(s', k)
  {
  }

  // ------------------------------------------------------------ fair runs

  // A turn of k that works: no faults, no lag; the pods may be listed in any order.
  predicate IsClean(t: Turn, k: Key) {
    t.key == k && t.faults == NO_FAULTS && t.crLag == 0 && t.deploymentLag == 0
  }

  function CleanTurns(turns: seq<Turn>, k: Key): nat {
    if turns == [] then 0 else (if IsClean(turns[0], k) then 1 else 0) + CleanTurns(turns[1..], k)
  }

  // The fair version of convergence, which asks nothing of how passes turn out: as many
  // clean turns of k as its rank is high, whatever lags and fails in between, bring a key
  // that is not blocked to rank 0.
  lemma {:induction false} CleanTurnsConverge(o: Order, h: seq<Store>, turns: seq<Turn>, k: Key)
    requires GoodHistory(o, h, k) && ShownPods(o, turns, Last(h).pods) && !Blocked(Last(h), k)
    requires CleanTurns(turns, k) >= Rank(o, Last(h), k)
    ensures k in Last(Run(h, turns)).crs && Rank(o, Last(Run(h, turns)), k) == 0
    decreases |turns|
  {
    if turns != [] {
      var t, s := turns[0], Last(h);
      TurnKeepsHistory(o, h, t, k);
      TurnLowersRank(o, h, t, k);
      ViewIsBehind(o, h, t, k);
      PassKeepsUnblocked(o, View(h, t), s, t.key, t.faults, k);
      if IsClean(t, k) {
        CleanPassSucceeds(o, View(h, t), s, k);
      }
      CleanTurnsConverge(o, h + [Pass(h, t).0], turns[1..], k);
    }
  }

  // A pass without faults or lag, shown the pods as the server holds them.
  function Clean(s: Store, k: Key): Turn {
    Turn(k, NO_FAULTS, 0, 0, s.pods)
  }

  ghost predicate Reaches(o: Order, s: Store, turns: seq<Turn>, k: Key) {
    k in Last(Run([s], turns)).crs && Rank(o, Last(Run([s], turns)), k) == 0
  }

  // The exact condition for convergence, with either order of listings: some run converges,
  // if and only if two clean passes do, if and only if the server is not refusing the
  // write that is missing.
  lemma ConvergesIff(o: Order, s: Store, k: Key)
    requires ValidStore(s) && k in s.crs
    ensures (exists turns :: ShownPods(o, turns, s.pods) && Reaches(o, s, turns, k)) <==> !Blocked(s, k)
    ensures !Blocked(s, k) ==> Reaches(o, s, [Clean(s, k), Clean(s, k)], k)
  {
    if Blocked(s, k) {
      forall turns | ShownPods(o, turns, s.pods)
        ensures !Reaches(o, s, turns, k)
      {
        BlockedForever(o, [s], turns, k);
      }
    } else {
      var turns := [Clean(s, k), Clean(s, k)];
      assert turns[1..] == [Clean(s, k)] && CleanTurns(turns[1..], k) == 1 + CleanTurns(turns[1..][1..], k);
      CleanTurnsConverge(o, [s], turns, k);
      assert ShownPods(o, turns, s.pods);
    }
  }

  // Each of the three ways to be blocked, in a store that a strict server may hold.
  lemma BlockedStores(k: Key, long: Key, cr: CR)
    requires cr.key == k && cr.version == 0 && |long.name| == MAX_LABEL_VALUE + 1
    ensures var negative := Store(map[k := cr.(size := -1)], map[], [], 0, true);
            ValidStore(negative) && Blocked(negative, k)
    ensures var tooLong := Store(map[long := cr.(key := long, size := 1)], map[], [], 0, true);
            ValidStore(tooLong) && Blocked(tooLong, long)
    ensures var podsGone := Store(map[k := cr.(size := 1, nodes := List(["web-0"]))], map[], [], 0, true);
            ValidStore(podsGone) && Blocked(podsGone, k)
  {
  }

  // ------------------------------------------------------------ listings in any order

  // Any listed pod can be the first to be listed.
  lemma CanComeFirst(s: Store, k: Key, p: Pod) returns (shown: seq<Pod>)
    requires p in PodsOf(s.pods, k)
    ensures ShowsPods(Free, shown, s.pods)
    ensures PodNames(PodsOf(shown, k)).Items() != [] && PodNames(PodsOf(shown, k)).Items()[0] == p.name
  {
    ListedPods(s.pods, k.namespace, LabelsFor(k.name), p);
    var front, back := SplitAt(s.pods, p);
    shown := [p] + (front + back);
    ListFromFront(shown, k.namespace, LabelsFor(k.name));
  }

  lemma {:induction false} AllTheSame(names: seq<string>, others: seq<string>)
    requires multiset(names) == multiset(others)
    requires forall i | 0 <= i < |names| :: names[i] == names[0]
    ensures names == others
  {
    assert |names| == |multiset(names)| == |multiset(others)| == |others|;
    forall i | 0 <= i < |others|
      ensures others[i] == names[i]
    {
      assert others[i] in multiset(others);
      assert others[i] in names;
    }
  }

  // A converged key stays still under every order of listing if and only if all its pods
  // have one name; with two names, some order makes a pass rewrite the status.
  lemma StillInAnyOrderIff(s: Store, k: Key)
    requires ValidStore(s) && k in s.crs && Rank(Fixed, s, k) == 0
    ensures (forall shown :: ShowsPods(Free, shown, s.pods) ==>
               Reconcile(s.(pods := shown), s, k, NO_FAULTS) == (s, Done))
            <==> forall p, q | p in PodsOf(s.pods, k) && q in PodsOf(s.pods, k) :: p.name == q.name
  {
    var listed := PodsOf(s.pods, k);
    if forall p, q | p in listed && q in listed :: p.name == q.name {
      forall shown | ShowsPods(Free, shown, s.pods)
        ensures Reconcile(s.(pods := shown), s, k, NO_FAULTS) == (s, Done)
      {
        ShownListing(Free, s.pods, shown, k);
        AllTheSame(PodNames(listed).Items(), PodNames(PodsOf(shown, k)).Items());
      }
    } else {
      var p, q :| p in listed && q in listed && p.name != q.name;
      var first := CanComeFirst(s, k, p);
      var second := CanComeFirst(s, k, q);
      var shown := if PodNames(PodsOf(first, k)) != s.crs[k].nodes then first else second;
      assert PodNames(PodsOf(shown, k)) != s.crs[k].nodes;
      assert Reconcile(s.(pods := shown), s, k, NO_FAULTS).0 != s;
    }
  }
}
