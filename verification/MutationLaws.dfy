/**
What the mutating pipeline means: which taints the mutated pod tolerates, when it
succeeds, and why order and repetition of the mutators never matter.
*/
module MutationLaws {
  import opened GoSlices
  import opened Pods
  import opened Mutation
  import Strconv

  // ------------------------------------------------------------ the lifespan loop

  // Two's-complement wrap-around of a 64-bit int.
  function Wrap(n: int): int {
    (n - Strconv.MIN_INT64) % 0x1_0000_0000_0000_0000 + Strconv.MIN_INT64
  }

  // The loop counter after n decrements.
  function Counter(n: nat): int {
    if n == 0 then TAINT_MAX_AGE else Wrap(Counter(n - 1) - 1)
  }

  // Wrapping keeps the integer modulo 2^64, and keeps 64-bit integers; below the smallest
  // comes the largest.
  lemma WrapIs(n: int)
    ensures -0x8000_0000_0000_0000 <= Wrap(n) <= 0x7fff_ffff_ffff_ffff
    ensures Wrap(n) % 0x1_0000_0000_0000_0000 == n % 0x1_0000_0000_0000_0000
    ensures -0x8000_0000_0000_0000 <= n <= 0x7fff_ffff_ffff_ffff ==> Wrap(n) == n
    ensures Wrap(-0x8000_0000_0000_0000 - 1) == 0x7fff_ffff_ffff_ffff
  {
  }

  ghost predicate LoopEnds(minAge: int) {
    exists n: nat :: Counter(n) < minAge
  }

  lemma {:induction false} CounterDescends(n: nat)
    requires TAINT_MAX_AGE - n >= Strconv.MIN_INT64
    ensures Counter(n) == TAINT_MAX_AGE - n
  {
    if n > 0 {
      CounterDescends(n - 1);
    }
  }

  lemma {:induction false} CounterInInt64(n: nat)
    ensures Strconv.InInt64(Counter(n))
  {
    if n > 0 {
      CounterInInt64(n - 1);
    }
  }

  // The wrapping loop ends for every label value but the smallest 64-bit integer, and
  // until it ends its counter has run through 14, 13, ... without wrapping.
  lemma LoopEndsUnlessSmallest(minAge: int)
    requires Strconv.InInt64(minAge)
    ensures LoopEnds(minAge) <==> minAge != Strconv.MIN_INT64
    ensures minAge > Strconv.MIN_INT64 ==>
              forall n: nat :: n <= 15 - minAge ==> Counter(n) == 14 - n
  {
    if minAge == Strconv.MIN_INT64 {
      forall n: nat ensures Counter(n) >= minAge { CounterInInt64(n); }
    } else {
      forall n: nat | n <= TAINT_MAX_AGE + 1 - minAge
        ensures Counter(n) == TAINT_MAX_AGE - n
      {
        CounterDescends(n);
      }
      var last := if minAge > TAINT_MAX_AGE then 0 else TAINT_MAX_AGE + 1 - minAge;
      assert Counter(last) < minAge;
    }
  }

  // ------------------------------------------------------------ when the pipeline succeeds

  // The pod's lifespan label; a pod without labels, or without this one, has the empty text.
  function LifespanText(p: Pod): string {
    if p.labels.Labels? && "acme.com/lifespan-requested" in p.labels.entries
    then p.labels.entries["acme.com/lifespan-requested"]
    else ""
  }

  // The lifespan label is absent or empty, or spells a 64-bit integer other than the smallest.
  ghost predicate Mutable(p: Pod) {
    LifespanText(p) == "" ||
    exists n :: -0x8000_0000_0000_0000 < n <= 0x7fff_ffff_ffff_ffff && Strconv.Spells(LifespanText(p), n)
  }

  lemma SucceedsIff(p: Pod)
    ensures MutatePod(p).Mutated? <==> Mutable(p)
    ensures MutatePod(p).BadLabel? <==> LifespanText(p) != "" && Strconv.Atoi(LifespanText(p)).None?
    ensures MutatePod(p).BadLabel? ==> MutatePod(p).text == LifespanText(p)
  {
    PipelineIs(p);
    MutableIff(p);
  }

  lemma MutableIff(p: Pod)
    ensures Mutable(p) <==>
            LifespanText(p) == "" ||
            (Strconv.Atoi(LifespanText(p)).Some? && Strconv.Atoi(LifespanText(p)) != Some(Strconv.MIN_INT64))
  {
    var text := LifespanText(p);
    if Mutable(p) && text != "" {
      var n :| Strconv.MIN_INT64 < n <= Strconv.MAX_INT64 && Strconv.Spells(text, n);
      Strconv.AtoiReads(text, n);
    }
    match Strconv.Atoi(text)
    case None =>
    case Some(n) => Strconv.AtoiReads(text, n);
  }

  lemma PipelineIs(p: Pod)
    ensures MutatePod(p) == match MutateLifespan(p) case Mutated(q) => Mutated(MutateEnv(q)) case other => other
  {
    assert PIPELINE[1..] == [InjectEnv];
    forall q ensures Fold([InjectEnv], q) == Mutated(MutateEnv(q)) {
      assert [InjectEnv][1..] == [];
      assert Fold([], MutateEnv(q)) == Mutated(MutateEnv(q));
    }
  }

  // NeverReturns is exactly the outcome of a label whose loop, with its wrapping counter,
  // does not end.
  lemma NeverReturnsIff(p: Pod)
    ensures MutatePod(p).NeverReturns? <==>
            LifespanText(p) != "" && Strconv.Atoi(LifespanText(p)).Some? &&
            !LoopEnds(Strconv.Atoi(LifespanText(p)).value)
  {
    PipelineIs(p);
    match Strconv.Atoi(LifespanText(p))
    case None =>
    case Some(n) => LoopEndsUnlessSmallest(n);
  }

  function SmallestLabel(): Labels {
    Labels(map["acme.com/lifespan-requested" := Strconv.Sprint(-0x8000_0000_0000_0000)])
  }

  // One such label.
  lemma SmallestNeverReturns(p: Pod)
    ensures MutatePod(p.(labels := SmallestLabel())) == NeverReturns
    ensures !LoopEnds(Strconv.MIN_INT64)
  {
    var q := p.(labels := SmallestLabel());
    Strconv.AtoiSprint(Strconv.MIN_INT64);
    assert LifespanText(q) == Strconv.Sprint(Strconv.MIN_INT64);
    LoopEndsUnlessSmallest(Strconv.MIN_INT64);
    PipelineIs(q);
  }

  // ------------------------------------------------------------ scheduling

  // The lifespans, as taint values, that the pod's label asks to be scheduled on.
  ghost predicate Asks(p: Pod, value: string) {
    LifespanText(p) == "" ||
    exists k :: value == Strconv.Sprint(k) && k <= 14 &&
      Strconv.Atoi(LifespanText(p)).Some? && Strconv.Atoi(LifespanText(p)).value <= k
  }

  predicate IsLifespanTaint(taint: Taint) {
    taint.key == "acme.com/lifespan-remaining" && taint.effect == "NoSchedule"
  }

  lemma MatchesIsMembership(ts: seq<Toleration>, taint: Taint)
    ensures AnyMatches(ts, taint) <==> exists t :: t in ts && Matches(t, taint)
  {
    if t :| t in ts && Matches(t, taint) {
      var i :| 0 <= i < |ts| && ts[i] == t;
      assert Matches(ts[i], taint);
    }
  }

  lemma AppendedMatches(existing: GoList<Toleration>, wanted: seq<Toleration>, taint: Taint)
    ensures AnyMatches(Merge(wanted, existing).Items(), taint) <==>
            AnyMatches(existing.Items(), taint) || AnyMatches(wanted, taint)
  {
    var merged := Merge(wanted, existing).Items();
    forall t
      ensures t in merged <==> t in wanted || t in existing.Items()
    {
      MergeContains(wanted, existing, t);
    }
    MatchesIsMembership(merged, taint);
    MatchesIsMembership(existing.Items(), taint);
    MatchesIsMembership(wanted, taint);
  }

  lemma FamilyMatches(lo: int, taint: Taint)
    ensures AnyMatches(Family(TAINT_MAX_AGE, lo), taint) <==>
            taint.key == TAINT_KEY && taint.effect == NO_SCHEDULE &&
            exists k :: lo <= k <= TAINT_MAX_AGE && taint.value == Strconv.Sprint(k)
  {
    var ts := Family(TAINT_MAX_AGE, lo);
    if AnyMatches(ts, taint) {
      var i :| 0 <= i < |ts| && Matches(ts[i], taint);
      assert taint.value == Strconv.Sprint(TAINT_MAX_AGE - i);
    }
    if k :| taint.key == TAINT_KEY && taint.effect == NO_SCHEDULE
            && lo <= k <= TAINT_MAX_AGE && taint.value == Strconv.Sprint(k) {
      assert ts[TAINT_MAX_AGE - k] == ForLifespan(k);
      assert Matches(ts[TAINT_MAX_AGE - k], taint);
    }
  }

  // Exactly which taints the mutated pod tolerates: those the pod tolerated before, and
  // the NoSchedule lifespan taints whose value its label asks for.
  lemma ToleratesExactly(p: Pod, taint: Taint)
    requires MutatePod(p).Mutated?
    ensures Tolerates(MutatePod(p).pod, taint) <==>
            Tolerates(p, taint) || (IsLifespanTaint(taint) && Asks(p, taint.value))
  {
    PipelineIs(p);
    var text := LifespanText(p);
    if text == "" {
      AppendedMatches(p.tolerations, [ANY_LIFESPAN], taint);
      assert AnyMatches([ANY_LIFESPAN], taint) <==> Matches([ANY_LIFESPAN][0], taint);
    } else {
      var lo := Strconv.Atoi(text).value;
      AppendedMatches(p.tolerations, Family(TAINT_MAX_AGE, lo), taint);
      FamilyMatches(lo, taint);
    }
  }

  // The toleration of one lifespan, and of all.
  function Lifespan(k: int): Toleration {
    Toleration("acme.com/lifespan-remaining", "Equal", Strconv.Sprint(k), "NoSchedule", None)
  }

  function AnyLifespan(): Toleration {
    Toleration("acme.com/lifespan-remaining", "Exists", "", "NoSchedule", None)
  }

  // What the label asks to be added, in order: all lifespans at once, or 14, 13, ... down to n.
  function AskedFor(p: Pod): seq<Toleration>
    requires LifespanText(p) == "" || Strconv.Atoi(LifespanText(p)).Some?
  {
    if LifespanText(p) == "" then [AnyLifespan()]
    else
      var n := Strconv.Atoi(LifespanText(p)).value;
      if n > 14 then [] else seq(15 - n, i requires 0 <= i < 15 - n => Lifespan(14 - i))
  }

  // Exactly which tolerations the mutated pod carries: its own, unmoved, and behind them what
  // the label asks for, in that order, without what it had already.
  lemma CarriesExactly(p: Pod, t: Toleration)
    requires MutatePod(p).Mutated?
    ensures LifespanText(p) == "" || Strconv.Atoi(LifespanText(p)).Some?
    ensures var after := MutatePod(p).pod.tolerations;
            && after.Items() == p.tolerations.Items() + Missing(AskedFor(p), p.tolerations.Items())
            && (after.Nil? <==> p.tolerations.Nil? && AskedFor(p) == [])
            && (t in after.Items() <==> t in p.tolerations.Items() || t in AskedFor(p))
  {
    PipelineIs(p);
    WantedIsAskedFor(p);
    MergeLaws(AskedFor(p), p.tolerations);
    MergeContains(AskedFor(p), p.tolerations, t);
    assert MutatePod(p).pod.tolerations == Merge(AskedFor(p), p.tolerations);
  }

  lemma WantedIsAskedFor(p: Pod)
    requires Wanted(p.labels).Mutated?
    ensures LifespanText(p) == "" || Strconv.Atoi(LifespanText(p)).Some?
    ensures Wanted(p.labels) == Mutated(AskedFor(p))
  {
    if LifespanText(p) != "" {
      var n := Strconv.Atoi(LifespanText(p)).value;
      var family := Family(14, n);
      assert |family| == |AskedFor(p)|;
      forall i | 0 <= i < |family|
        ensures family[i] == AskedFor(p)[i]
      {
        assert family[i] == Lifespan(14 - i);
      }
      assert family == AskedFor(p);
    }
  }

  // A pod that asks for lifespan n and had no toleration for the taint is schedulable
  // on exactly the lifespans n..14. On a 64-bit lifespan k that is n <= k <= 14.
  lemma SchedulableExactly(p: Pod, n: int, value: string)
    requires MutatePod(p).Mutated? && Strconv.Atoi(LifespanText(p)) == Some(n)
    requires !Tolerates(p, Taint("acme.com/lifespan-remaining", value, "NoSchedule"))
    ensures var tolerated := Tolerates(MutatePod(p).pod, Taint("acme.com/lifespan-remaining", value, "NoSchedule"));
            && (tolerated <==> exists k :: n <= k <= 14 && value == Strconv.Sprint(k))
            && forall k :: value == Strconv.Sprint(k) ==> (tolerated <==> n <= k <= 14)
  {
    ToleratesExactly(p, Taint("acme.com/lifespan-remaining", value, "NoSchedule"));
    assert LifespanText(p) != "";
    forall k | value == Strconv.Sprint(k)
      ensures Asks(p, value) <==> n <= k <= 14
    {
      if Asks(p, value) {
        var j :| value == Strconv.Sprint(j) && j <= 14 && n <= j;
        Strconv.SprintInjective(j, k);
      }
    }
  }

  // p asks for at least as many lifespans as q: no (or an empty) label asks for all of
  // them, and a smaller number asks for more than a larger one.
  predicate AsksNoLess(p: Pod, q: Pod) {
    LifespanText(p) == "" ||
    (LifespanText(q) != "" &&
     match (Strconv.Atoi(LifespanText(p)), Strconv.Atoi(LifespanText(q)))
     case (Some(m), Some(n)) => m <= n
     case _ => false)
  }

  // Mutation removes no tolerance, and asking for no less gives no less tolerance.
  lemma ToleranceMonotone(p: Pod, q: Pod, taint: Taint)
    requires MutatePod(p).Mutated? && MutatePod(q).Mutated?
    requires AsksNoLess(p, q) && p.tolerations == q.tolerations
    ensures Tolerates(p, taint) ==> Tolerates(MutatePod(p).pod, taint)
    ensures Tolerates(MutatePod(q).pod, taint) ==> Tolerates(MutatePod(p).pod, taint)
  {
    ToleratesExactly(p, taint);
    ToleratesExactly(q, taint);
    if Asks(q, taint.value) && LifespanText(p) != "" {
      var k :| taint.value == Strconv.Sprint(k) && k <= 14 &&
        Strconv.Atoi(LifespanText(q)).value <= k;
      assert Asks(p, taint.value);
    }
  }

  // ------------------------------------------------------------ order and repetition

  lemma LifespanTwice(p: Pod)
    requires MutateLifespan(p).Mutated?
    ensures MutateLifespan(MutateLifespan(p).pod) == MutateLifespan(p)
  {
    MergeLaws(Wanted(p.labels).pod, p.tolerations);
  }

  lemma InjectTwice(cs: GoList<Container<GoList<EnvVar>>>, v: EnvVar)
    ensures InjectAll(InjectAll(cs, v), v) == InjectAll(cs, v)
  {
    if cs.List? {
      var once := InjectAll(cs, v).items;
      forall i | 0 <= i < |once|
        ensures Inject(once[i], v) == once[i]
      {
        if !HasEnv(cs.items[i].env.Items(), v.name) {
          var env := once[i].env.Items();
          assert env[|env| - 1] == v;
        }
      }
    }
  }

  lemma EnvTwice(p: Pod)
    ensures MutateEnv(MutateEnv(p)) == MutateEnv(p)
  {
    InjectTwice(p.containers, KUBE);
    InjectTwice(p.initContainers, KUBE);
  }

  // What a list of mutators computes, told only which mutators occur in it.
  function Combined(lifespan: bool, env: bool, p: Pod): Outcome<Pod> {
    if lifespan && !MutateLifespan(p).Mutated? then MutateLifespan(p)
    else
      var q := if lifespan then MutateLifespan(p).pod else p;
      Mutated(if env then MutateEnv(q) else q)
  }

  lemma {:induction false} FoldIsCombined(ms: seq<Mutator>, p: Pod)
    ensures Fold(ms, p) == Combined(MinLifespan in ms, InjectEnv in ms, p)
  {
    if ms != [] {
      var rest := ms[1..];
      assert ms == [ms[0]] + rest;
      if ms[0] == InjectEnv {
        FoldIsCombined(rest, MutateEnv(p));
        EnvTwice(p);
        if MutateLifespan(p).Mutated? {
          EnvTwice(MutateLifespan(p).pod);
        }
      } else if MutateLifespan(p).Mutated? {
        FoldIsCombined(rest, MutateLifespan(p).pod);
        LifespanTwice(p);
      }
    }
  }

  // Only the set of mutators matters: reordering or repeating them changes neither the
  // mutated pod nor the label error.
  lemma OrderAndRepetitionIrrelevant(ms: seq<Mutator>, ns: seq<Mutator>, p: Pod)
    requires forall m :: m in ms <==> m in ns
    ensures Fold(ms, p) == Fold(ns, p)
  {
    FoldIsCombined(ms, p);
    FoldIsCombined(ns, p);
  }

  lemma MutatorsCommute(p: Pod)
    ensures Fold([MinLifespan, InjectEnv], p) == Fold([InjectEnv, MinLifespan], p)
  {
    OrderAndRepetitionIrrelevant([MinLifespan, InjectEnv], [InjectEnv, MinLifespan], p);
  }

  // Running the whole pipeline on its own result succeeds and changes nothing, nil and
  // empty lists included.
  lemma PipelineIdempotent(p: Pod)
    requires MutatePod(p).Mutated?
    ensures MutatePod(MutatePod(p).pod) == MutatePod(p)
  {
    PipelineIs(p);
    var q := MutateLifespan(p).pod;
    PipelineIs(MutateEnv(q));
    LifespanTwice(p);
    EnvTwice(q);
  }
}
