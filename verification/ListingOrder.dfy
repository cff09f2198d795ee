/**
Listings of the same pods in different orders. A cached client may return the pods of a
list in any order, and in another one on the next call.
*/
module ListingOrder {
  import opened GoSlices
  import opened ApiServer
  import opened Reconciler

  // Fixed: every listing shows the pods in the order the server holds them. Free: in any order.
  datatype Order = Fixed | Free

  predicate ShowsPods(o: Order, shown: seq<Pod>, held: seq<Pod>) {
    match o
    case Fixed => shown == held
    case Free => multiset(shown) == multiset(held)
  }

  predicate SameNames(o: Order, names: GoList<string>, others: GoList<string>) {
    match o
    case Fixed => names == others
    case Free => names.Nil? == others.Nil? && multiset(names.Items()) == multiset(others.Items())
  }

  function Names(pods: seq<Pod>): (names: seq<string>)
    ensures |names| == |pods|
    ensures forall i | 0 <= i < |pods| :: names[i] == pods[i].name
  {
    if pods == [] then [] else Names(pods[..|pods| - 1]) + [pods[|pods| - 1].name]
  }

  lemma PodNamesItems(pods: seq<Pod>)
    ensures PodNames(pods).Items() == Names(pods)
  {
  }

  lemma NamesAppend(a: seq<Pod>, b: seq<Pod>)
    ensures Names(a + b) == Names(a) + Names(b)
  {
  }

  // Taking one pod out of a sequence takes its name out of the names.
  lemma NamesWithoutOne(front: seq<Pod>, p: Pod, back: seq<Pod>)
    ensures multiset(front + [p] + back) == multiset(front + back) + multiset{p}
    ensures multiset(Names(front + [p] + back)) == multiset(Names(front + back)) + multiset{p.name}
  {
    NamesAppend(front + [p], back);
    NamesAppend(front, [p]);
    NamesAppend(front, back);
    assert Names([p]) == [p.name];
  }

  lemma CancelOne<T>(a: multiset<T>, b: multiset<T>, x: T)
    requires a + multiset{x} == b + multiset{x}
    ensures a == b
  {
    assert a == (a + multiset{x}) - multiset{x};
  }

  lemma SplitAt(pods: seq<Pod>, p: Pod) returns (front: seq<Pod>, back: seq<Pod>)
    requires p in pods
    ensures pods == front + [p] + back
  {
    var j :| 0 <= j < |pods| && pods[j] == p;
    front, back := pods[..j], pods[j + 1..];
  }

  lemma {:induction false} PermutedNames(pods: seq<Pod>, others: seq<Pod>)
    requires multiset(pods) == multiset(others)
    ensures multiset(Names(pods)) == multiset(Names(others))
    decreases |pods|
  {
    if pods == [] {
      assert |multiset(others)| == 0;
    } else {
      var p := pods[0];
      assert p in multiset(others);
      var front, back := SplitAt(pods, p);
      var front', back' := SplitAt(others, p);
      NamesWithoutOne(front, p, back);
      NamesWithoutOne(front', p, back');
      CancelOne(multiset(front + back), multiset(front' + back'), p);
      PermutedNames(front + back, front' + back');
    }
  }

  // Listings that show the same pods have the same names.
  lemma ShownListing(o: Order, shown: seq<Pod>, held: seq<Pod>, k: Key)
    requires ShowsPods(o, shown, held)
    ensures SameNames(o, PodNames(PodsOf(shown, k)), PodNames(PodsOf(held, k)))
  {
    if o == Free {
      var a, b := PodsOf(shown, k), PodsOf(held, k);
      forall p
        ensures multiset(a)[p] == multiset(b)[p]
      {
        ListedPods(shown, k.namespace, LabelsFor(k.name), p);
        ListedPods(held, k.namespace, LabelsFor(k.name), p);
      }
      assert multiset(a) == multiset(b);
      assert |a| == |multiset(a)| == |multiset(b)| == |b|;
      PermutedNames(a, b);
      PodNamesItems(a);
      PodNamesItems(b);
    }
  }
}
