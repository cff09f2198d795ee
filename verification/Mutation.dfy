/**
The mutating pipeline on pod values: what each mutator computes, and what the whole
pipeline means for scheduling, for repeated runs and for the patch.
*/
module Mutation {
  import opened GoSlices
  import opened Pods
  import Strconv

  const LIFESPAN_LABEL := "acme.com/lifespan-requested"
  const TAINT_KEY := "acme.com/lifespan-remaining"
  const TAINT_MAX_AGE: int := 14
  const NO_SCHEDULE := "NoSchedule"
  const KUBE := EnvVar("KUBE", "true", "")

  // What a mutator ends in. NeverReturns is the lifespan loop whose counter wraps
  // around below the smallest 64-bit integer (see LoopEndsUnlessSmallest).
  datatype Outcome<P> = Mutated(pod: P) | BadLabel(text: string) | NeverReturns

  datatype Mutator = MinLifespan | InjectEnv

  // ------------------------------------------------------------ appendTolerations

  // The elements of wanted, in order and with repetitions, that are not in existing.
  function Missing<T(==)>(wanted: seq<T>, existing: seq<T>): seq<T> {
    if wanted == [] then []
    else
      var rest := Missing(wanted[..|wanted| - 1], existing);
      var x := wanted[|wanted| - 1];
      if x in existing then rest else rest + [x]
  }

  function Merge<T(==)>(wanted: seq<T>, existing: GoList<T>): GoList<T> {
    existing.Append(Missing(wanted, existing.Items()))
  }

  lemma {:induction false} MissingCounts<T>(wanted: seq<T>, existing: seq<T>, x: T)
    ensures multiset(Missing(wanted, existing))[x] == if x in existing then 0 else multiset(wanted)[x]
  {
    if wanted != [] {
      var front, last := wanted[..|wanted| - 1], wanted[|wanted| - 1];
      assert wanted == front + [last];
      MissingCounts(front, existing, x);
    }
  }

  // The missing elements keep their order.
  lemma {:induction false} MissingInOrder<T>(x: T, wanted: seq<T>, existing: seq<T>)
    ensures Missing([], existing) == []
    ensures Missing([x] + wanted, existing) == (if x in existing then [] else [x]) + Missing(wanted, existing)
  {
    if wanted == [] {
      assert [x] + wanted == [x] && [x][..0] == [];
    } else {
      var all, n := [x] + wanted, |wanted| - 1;
      MissingInOrder(x, wanted[..n], existing);
      assert all[..|all| - 1] == [x] + wanted[..n] && all[|all| - 1] == wanted[n];
    }
  }

  lemma {:induction false} NothingMissing<T>(wanted: seq<T>, existing: seq<T>)
    requires forall x | x in wanted :: x in existing
    ensures Missing(wanted, existing) == []
  {
    if wanted != [] {
      NothingMissing(wanted[..|wanted| - 1], existing);
    }
  }

  lemma MergeContains<T>(wanted: seq<T>, existing: GoList<T>, x: T)
    ensures x in Merge(wanted, existing).Items() <==> x in wanted || x in existing.Items()
  {
    MissingCounts(wanted, existing.Items(), x);
    assert x in Missing(wanted, existing.Items()) <==> multiset(Missing(wanted, existing.Items()))[x] > 0;
    assert x in wanted <==> multiset(wanted)[x] > 0;
  }

  // The existing list is a prefix; what it already holds keeps its multiplicity and
  // everything else occurs as often as in the new list; a second merge is the identity,
  // nil-ness included.
  lemma MergeLaws<T>(wanted: seq<T>, existing: GoList<T>)
    ensures existing.Items() <= Merge(wanted, existing).Items()
    ensures forall x :: multiset(Merge(wanted, existing).Items())[x] ==
              if x in existing.Items() then multiset(existing.Items())[x] else multiset(wanted)[x]
    ensures Merge(wanted, Merge(wanted, existing)) == Merge(wanted, existing)
    ensures Merge(wanted, existing).Nil? <==> existing.Nil? && wanted == []
  {
    var merged := Merge(wanted, existing);
    var added := Missing(wanted, existing.Items());
    assert merged.Items() == existing.Items() + added;
    forall x
      ensures multiset(merged.Items())[x] ==
              if x in existing.Items() then multiset(existing.Items())[x] else multiset(wanted)[x]
    {
      MissingCounts(wanted, existing.Items(), x);
    }
    forall x | x in wanted
      ensures x in merged.Items()
    {
      MergeContains(wanted, existing, x);
    }
    NothingMissing(wanted, merged.Items());
    if wanted != [] && existing.Nil? {
      MergeContains(wanted, existing, wanted[0]);
    }
  }

  // ------------------------------------------------------------ minLifespanTolerations

  const ANY_LIFESPAN := Toleration(TAINT_KEY, "Exists", "", NO_SCHEDULE, None)

  function ForLifespan(k: int): Toleration {
    Toleration(TAINT_KEY, "Equal", Strconv.Sprint(k), NO_SCHEDULE, None)
  }

  // One toleration for each lifespan, from hi down to lo.
  function Family(hi: int, lo: int): (ts: seq<Toleration>)
    ensures |ts| == if lo <= hi then hi - lo + 1 else 0
    ensures forall i | 0 <= i < |ts| :: ts[i] == ForLifespan(hi - i)
    decreases hi - lo
  {
    if hi < lo then [] else [ForLifespan(hi)] + Family(hi - 1, lo)
  }

  // The lifespan family never repeats an element, so merging it adds no duplicates.
  lemma FamilyDistinct(hi: int, lo: int)
    ensures forall i, j | 0 <= i < j < |Family(hi, lo)| :: Family(hi, lo)[i] != Family(hi, lo)[j]
  {
    forall i, j | 0 <= i < j < |Family(hi, lo)|
      ensures Family(hi, lo)[i] != Family(hi, lo)[j]
    {
      if Strconv.Sprint(hi - i) == Strconv.Sprint(hi - j) {
        Strconv.SprintInjective(hi - i, hi - j);
      }
    }
  }

  // The tolerations to merge in, or why there are none.
  function Wanted(labels: Labels): Outcome<seq<Toleration>> {
    var text := labels.Get(LIFESPAN_LABEL);
    if text == "" then Mutated([ANY_LIFESPAN])
    else
      match Strconv.Atoi(text)
      case None => BadLabel(text)
      case Some(minAge) =>
        if minAge == Strconv.MIN_INT64 then NeverReturns else Mutated(Family(TAINT_MAX_AGE, minAge))
  }

  function MutateLifespan(p: Pod): Outcome<Pod> {
    match Wanted(p.labels)
    case Mutated(ts) => Mutated(p.(tolerations := Merge(ts, p.tolerations)))
    case BadLabel(text) => BadLabel(text)
    case NeverReturns => NeverReturns
  }

  // ------------------------------------------------------------ injectEnv

  predicate HasEnv(env: seq<EnvVar>, name: string) {
    exists i | 0 <= i < |env| :: env[i].name == name
  }

  function Inject(c: Container<GoList<EnvVar>>, v: EnvVar): Container<GoList<EnvVar>> {
    if HasEnv(c.env.Items(), v.name) then c else c.(env := c.env.Append([v]))
  }

  function InjectAll(cs: GoList<Container<GoList<EnvVar>>>, v: EnvVar): GoList<Container<GoList<EnvVar>>> {
    if cs.Nil? then Nil else List(seq(|cs.items|, i requires 0 <= i < |cs.items| => Inject(cs.items[i], v)))
  }

  function MutateEnv(p: Pod): Pod {
    p.(containers := InjectAll(p.containers, KUBE), initContainers := InjectAll(p.initContainers, KUBE))
  }

  // ------------------------------------------------------------ the pipeline

  function Mutate(m: Mutator, p: Pod): Outcome<Pod> {
    match m
    case MinLifespan => MutateLifespan(p)
    case InjectEnv => Mutated(MutateEnv(p))
  }

  // The mutators in order; the first outcome that is not a pod ends the run.
  function Fold(ms: seq<Mutator>, p: Pod): Outcome<Pod> {
    if ms == [] then Mutated(p)
    else
      match Mutate(ms[0], p)
      case Mutated(q) => Fold(ms[1..], q)
      case other => other
  }

  const PIPELINE := [MinLifespan, InjectEnv]

  function MutatePod(p: Pod): Outcome<Pod> {
    Fold(PIPELINE, p)
  }
}
