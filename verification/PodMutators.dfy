/**
The two mutators and the loop that runs them, on pod objects. No method here has a
`modifies` clause: whatever it is given, it leaves the caller's pod and every array
reachable from it as they were, and returns a pod made of new arrays only.
*/
module PodMutators {
  import opened GoSlices
  import opened Pods
  import opened PodHeap
  import Mutation
  import Strconv

  method HasToleration(n: Toleration, existing: Slice<Toleration>) returns (found: bool)
    requires existing.Valid()
    ensures found <==> n in existing.Cells()
  {
    found := false;
    for i := 0 to existing.len
      invariant found <==> n in existing.Cells()[..i]
    {
      if existing.arr[i] == n {
        found := true;
      }
    }
    assert existing.Cells()[..existing.len] == existing.Cells();
  }

  method AppendTolerations(wanted: Slice<Toleration>, existing: Slice<Toleration>) returns (r: Slice<Toleration>)
    requires wanted.Valid() && existing.Valid()
    modifies existing.Arrays()
    ensures r.Valid() && (r.arr == existing.arr || fresh(r.arr))
    ensures r.View() == Mutation.Merge(old(wanted.Cells()), old(existing.View()))
  {
    var toAppend: Slice<Toleration> := Slice(null, 0);
    for i := 0 to wanted.len
      invariant toAppend.Valid() && fresh(toAppend.Arrays())
      invariant wanted.Cells() == old(wanted.Cells()) && existing.View() == old(existing.View())
      invariant toAppend.Cells() == Mutation.Missing(wanted.Cells()[..i], existing.Cells())
    {
      var n := wanted.arr[i];
      assert wanted.Cells()[..i + 1][..i] == wanted.Cells()[..i];
      var found := HasToleration(n, existing);
      if !found {
        toAppend := AppendOne(toAppend, n);
      }
    }
    assert wanted.Cells()[..wanted.len] == wanted.Cells();
    r := AppendAll(existing, toAppend);
  }

  // The tolerations for lifespans 14 down to minAge, by the counting-down loop.
  method LifespanTolerations(minAge: int) returns (t: Slice<Toleration>)
    requires minAge != Strconv.MIN_INT64
    ensures t.Valid() && t.arr != null && fresh(t.arr)
    ensures t.Cells() == Mutation.Family(Mutation.TAINT_MAX_AGE, minAge)
  {
    ghost var family := Mutation.Family(Mutation.TAINT_MAX_AGE, minAge);
    var empty := new Toleration[0];
    t := Slice(empty, 0);
    var i := Mutation.TAINT_MAX_AGE;
    while i >= minAge
      invariant t.Valid() && t.arr != null && fresh(t.arr)
      invariant i <= Mutation.TAINT_MAX_AGE && (minAge <= Mutation.TAINT_MAX_AGE ==> minAge - 1 <= i)
      invariant minAge > Mutation.TAINT_MAX_AGE ==> i == Mutation.TAINT_MAX_AGE
      invariant t.Cells() == family[..Mutation.TAINT_MAX_AGE - i]
    {
      t := AppendOne(t, Mutation.ForLifespan(i));
      i := i - 1;
    }
  }

  // What a mutator owes its caller: the outcome computed on values, in a pod of new arrays.
  twostate predicate Delivers(new r: Mutation.Outcome<PodObject>, new spec: Mutation.Outcome<Pod>)
    reads if r.Mutated? then {r.pod} + r.pod.Repr + r.pod.containers.Arrays() + r.pod.initContainers.Arrays() else {}
  {
    match r
    case Mutated(q) =>
      q.Valid() && q.NothingShared() && fresh(q.Repr) && spec == Mutation.Mutated(q.Value())
    case BadLabel(text) => spec == Mutation.BadLabel(text)
    case NeverReturns => spec == Mutation.NeverReturns
  }

  // The wanted tolerations are merged into the copied pod's own.
  method AddTolerations(mpod: PodObject, t: Slice<Toleration>)
    requires mpod.Valid() && mpod.NothingShared() && t.Valid()
    modifies mpod.Repr
    ensures mpod.Valid() && mpod.NothingShared() && fresh(mpod.Repr - old(mpod.Repr))
    ensures mpod.Value() ==
            old(mpod.Value()).(tolerations := Mutation.Merge(old(t.Cells()), old(mpod.Value()).tolerations))
  {
    var ts := AppendTolerations(t, mpod.tolerations);
    mpod.SetTolerations(ts);
  }

  method WantedTolerations(labels: Labels) returns (r: Mutation.Outcome<Slice<Toleration>>)
    ensures r.Mutated? ==> r.pod.Valid() && fresh(r.pod.Arrays())
    ensures match r
            case Mutated(t) => Mutation.Wanted(labels) == Mutation.Mutated(t.Cells())
            case BadLabel(text) => Mutation.Wanted(labels) == Mutation.BadLabel(text)
            case NeverReturns => Mutation.Wanted(labels) == Mutation.NeverReturns
  {
    var text := labels.Get(Mutation.LIFESPAN_LABEL);
    if text == "" {
      var a := new Toleration[1];
      a[0] := Mutation.ANY_LIFESPAN;
      var tn := Slice(a, 1);
      assert tn.Cells() == [Mutation.ANY_LIFESPAN];
      return Mutation.Mutated(tn);
    }
    var parsed := Strconv.Atoi(text);
    if parsed.None? {
      return Mutation.BadLabel(text);
    }
    if parsed.value == Strconv.MIN_INT64 {
      return Mutation.NeverReturns;
    }
    var t := LifespanTolerations(parsed.value);
    r := Mutation.Mutated(t);
  }

  // The rest of minLifespanTolerations.Mutate, on the copy it works on.
  method LifespanOnCopy(labels: Labels, mpod: PodObject) returns (r: Mutation.Outcome<PodObject>)
    requires mpod.Valid() && mpod.NothingShared() && mpod.labels == labels
    modifies mpod.Repr
    ensures r.Mutated? ==> r.pod == mpod
    ensures r.Mutated? ==>
              mpod.Valid() && mpod.NothingShared() && fresh(mpod.Repr - old(mpod.Repr))
    ensures match r
            case Mutated(q) => Mutation.MutateLifespan(old(mpod.Value())) == Mutation.Mutated(q.Value())
            case BadLabel(text) => Mutation.MutateLifespan(old(mpod.Value())) == Mutation.BadLabel(text)
            case NeverReturns => Mutation.MutateLifespan(old(mpod.Value())) == Mutation.NeverReturns
  {
    var wanted := WantedTolerations(labels);
    match wanted {
      case Mutated(t) =>
        AddTolerations(mpod, t);
        r := Mutation.Mutated(mpod);
      case BadLabel(text) => r := Mutation.BadLabel(text);
      case NeverReturns => r := Mutation.NeverReturns;
    }
  }

  method MutateLifespan(pod: PodObject) returns (r: Mutation.Outcome<PodObject>)
    requires pod.Valid()
    ensures Delivers(r, Mutation.MutateLifespan(old(pod.Value())))
  {
    var mpod := pod.DeepCopy();
    r := LifespanOnCopy(pod.labels, mpod);
  }

  method MutateEnv(pod: PodObject) returns (r: Mutation.Outcome<PodObject>)
    requires pod.Valid()
    ensures Delivers(r, Mutation.Mutated(Mutation.MutateEnv(old(pod.Value()))))
  {
    var mpod := pod.DeepCopy();
    mpod.InjectEnvVar(Mutation.KUBE);
    r := Mutation.Mutated(mpod);
  }

  method Mutate(m: Mutation.Mutator, pod: PodObject) returns (r: Mutation.Outcome<PodObject>)
    requires pod.Valid()
    ensures Delivers(r, Mutation.Mutate(m, old(pod.Value())))
  {
    match m {
      case MinLifespan => r := MutateLifespan(pod);
      case InjectEnv => r := MutateEnv(pod);
    }
  }

  // The copy-then-fold of MutatePodPatch.
  method MutatePod(pod: PodObject) returns (r: Mutation.Outcome<PodObject>)
    requires pod.Valid()
    ensures Delivers(r, Mutation.MutatePod(old(pod.Value())))
  {
    var mutations := Mutation.PIPELINE;
    var mpod := pod.DeepCopy();
    for i := 0 to |mutations|
      invariant mpod.Valid() && fresh(mpod.Repr) && mpod.NothingShared()
      invariant Mutation.Fold(mutations[i..], mpod.Value()) == Mutation.MutatePod(old(pod.Value()))
    {
      assert mutations[i..][1..] == mutations[i + 1..];
      r := Mutate(mutations[i], mpod);
      if !r.Mutated? {
        return;
      }
      mpod := r.pod;
    }
    r := Mutation.Mutated(mpod);
  }

  // MutatePodPatch up to its diff, which compares `pod` with the mutated pod: the caller's
  // pod is as it was, so the diff sees the true before and after.
  method MutatePodPatch(pod: PodObject) returns (r: Mutation.Outcome<PodObject>)
    requires pod.Valid()
    ensures unchanged(pod.Repr) && pod.Valid() && pod.Value() == old(pod.Value())
    ensures Delivers(r, Mutation.MutatePod(old(pod.Value())))
  {
    r := MutatePod(pod);
  }
}
