/**
The mutated pod only extends the original, so the webhook's JSON patch needs no
operation but `add` (section 4.1 of RFC 6902).
*/
module PatchLaws {
  import opened GoSlices
  import opened Pods
  import opened Mutation
  import opened MutationLaws

  type Containers = GoList<Container<GoList<EnvVar>>>

  // ------------------------------------------------------------ extension

  predicate ExtendsContainers(cs: Containers, ds: Containers) {
    && cs.Nil? == ds.Nil?
    && |cs.Items()| == |ds.Items()|
    && forall i | 0 <= i < |cs.Items()| ::
         && ds.Items()[i].name == cs.Items()[i].name
         && ds.Items()[i].rest == cs.Items()[i].rest
         && cs.Items()[i].env.Items() <= ds.Items()[i].env.Items()
  }

  predicate ExtendsPod(p: Pod, q: Pod) {
    && (q.name, q.generateName, q.labels, q.rest) == (p.name, p.generateName, p.labels, p.rest)
    && p.tolerations.Items() <= q.tolerations.Items()
    && ExtendsContainers(p.containers, q.containers)
    && ExtendsContainers(p.initContainers, q.initContainers)
  }

  function Named(env: seq<EnvVar>, name: string): seq<EnvVar> {
    if env == [] then []
    else
      var rest := Named(env[..|env| - 1], name);
      if env[|env| - 1].name == name then rest + [env[|env| - 1]] else rest
  }

  lemma {:induction false} NamedOfNone(env: seq<EnvVar>, name: string)
    requires !HasEnv(env, name)
    ensures Named(env, name) == []
  {
    if env != [] {
      var front := env[..|env| - 1];
      assert env[|env| - 1].name != name;
      assert forall i | 0 <= i < |front| :: front[i] == env[i];
      NamedOfNone(front, name);
    }
  }

  // Every container ends up with a KUBE variable: the ones it had, with their values and
  // multiplicity, or else exactly one saying "true", behind the variables it had.
  predicate KubeSet(before: Container<GoList<EnvVar>>, after: Container<GoList<EnvVar>>) {
    && (exists i :: 0 <= i < |after.env.Items()| && after.env.Items()[i].name == "KUBE")
    && if exists i :: 0 <= i < |before.env.Items()| && before.env.Items()[i].name == "KUBE"
       then after == before
       else after == before.(env := List(before.env.Items() + [EnvVar("KUBE", "true", "")])) &&
            Named(after.env.Items(), "KUBE") == [EnvVar("KUBE", "true", "")]
  }

  lemma InjectSetsKube(c: Container<GoList<EnvVar>>)
    ensures KubeSet(c, Inject(c, KUBE))
  {
    var env := c.env.Items();
    if !HasEnv(env, "KUBE") {
      NamedOfNone(env, "KUBE");
      var after := Inject(c, KUBE).env.Items();
      assert after[|env|] == KUBE;
      assert after[..|after| - 1] == env;
    }
  }

  lemma InjectedExtends(cs: Containers)
    ensures ExtendsContainers(cs, InjectAll(cs, KUBE))
    ensures forall i | 0 <= i < |cs.Items()| :: KubeSet(cs.Items()[i], InjectAll(cs, KUBE).Items()[i])
  {
    forall i | 0 <= i < |cs.Items()|
      ensures KubeSet(cs.Items()[i], InjectAll(cs, KUBE).Items()[i])
    {
      InjectSetsKube(cs.Items()[i]);
    }
  }

  lemma TolerationsExtend(p: Pod)
    requires MutateLifespan(p).Mutated?
    ensures p.tolerations.Items() <= MutateLifespan(p).pod.tolerations.Items()
  {
    MergeLaws(Wanted(p.labels).pod, p.tolerations);
  }

  lemma OnlyExtends(p: Pod)
    requires MutatePod(p).Mutated?
    ensures ExtendsPod(p, MutatePod(p).pod)
    ensures forall i | 0 <= i < |p.containers.Items()| ::
              KubeSet(p.containers.Items()[i], MutatePod(p).pod.containers.Items()[i])
    ensures forall i | 0 <= i < |p.initContainers.Items()| ::
              KubeSet(p.initContainers.Items()[i], MutatePod(p).pod.initContainers.Items()[i])
  {
    PipelineIs(p);
    TolerationsExtend(p);
    InjectedExtends(p.containers);
    InjectedExtends(p.initContainers);
  }

  // ------------------------------------------------------------ add-only patches

  // A pod as a JSON document: tolerations, env and initContainers are left out when
  // empty, so the empty list and nil are one document.
  function Present<T>(l: GoList<T>): GoList<T> {
    if l.Items() == [] then Nil else l
  }

  function DocContainer(c: Container<GoList<EnvVar>>): Container<GoList<EnvVar>> {
    c.(env := Present(c.env))
  }

  function DocContainers(cs: Containers): Containers {
    if cs.Nil? then Nil
    else List(seq(|cs.items|, i requires 0 <= i < |cs.items| => DocContainer(cs.items[i])))
  }

  function Doc(p: Pod): Pod {
    p.(tolerations := Present(p.tolerations),
       containers := DocContainers(p.containers),
       initContainers := Present(DocContainers(p.initContainers)))
  }

  // The `add` operations: a missing member, or one more item at the end of an array.
  datatype Add =
    | Tolerations(ts: seq<Toleration>)
    | TolerationItem(t: Toleration)
    | Env(init: bool, at: nat, env: seq<EnvVar>)
    | EnvItem(init: bool, at: nat, v: EnvVar)

  // None where the operation would replace something or has no target.
  function AddMember<T>(l: GoList<T>, xs: seq<T>): Option<GoList<T>> {
    if l.Nil? then Some(List(xs)) else None
  }

  function AddItem<T>(l: GoList<T>, x: T): Option<GoList<T>> {
    if l.Nil? then None else Some(List(l.items + [x]))
  }

  function AddToEnv(cs: Containers, op: Add): Option<Containers>
    requires op.Env? || op.EnvItem?
  {
    if op.at >= |cs.Items()| then None
    else
      var c := cs.items[op.at];
      match (if op.Env? then AddMember(c.env, op.env) else AddItem(c.env, op.v))
      case None => None
      case Some(env) => Some(List(cs.items[op.at := c.(env := env)]))
  }

  function ApplyAdd(d: Pod, op: Add): Option<Pod> {
    match op
    case Tolerations(ts) =>
      (match AddMember(d.tolerations, ts) case None => None case Some(l) => Some(d.(tolerations := l)))
    case TolerationItem(t) =>
      (match AddItem(d.tolerations, t) case None => None case Some(l) => Some(d.(tolerations := l)))
    case _ =>
      match AddToEnv(if op.init then d.initContainers else d.containers, op)
      case None => None
      case Some(cs) => Some(if op.init then d.(initContainers := cs) else d.(containers := cs))
  }

  function ApplyAdds(d: Pod, ops: seq<Add>): Option<Pod> {
    if ops == [] then Some(d)
    else
      match ApplyAdds(d, ops[..|ops| - 1])
      case None => None
      case Some(e) => ApplyAdd(e, ops[|ops| - 1])
  }

  lemma {:induction false} AddsInSequence(d: Pod, ops: seq<Add>, more: seq<Add>)
    requires ApplyAdds(d, ops).Some?
    ensures ApplyAdds(d, ops + more) == ApplyAdds(ApplyAdds(d, ops).value, more)
  {
    if more == [] {
      assert ops + more == ops;
    } else {
      var all := ops + more;
      assert all[..|all| - 1] == ops + more[..|more| - 1];
      AddsInSequence(d, ops, more[..|more| - 1]);
    }
  }

  // The patch: the tolerations that are missing, then KUBE where it is missing.
  function TolerationAdds(existing: seq<Toleration>, missing: seq<Toleration>): seq<Add> {
    if missing == [] then []
    else if existing == [] then [Tolerations(missing)]
    else seq(|missing|, i requires 0 <= i < |missing| => TolerationItem(missing[i]))
  }

  function EnvAdd(init: bool, cs: seq<Container<GoList<EnvVar>>>, at: nat): seq<Add>
    requires at < |cs|
  {
    var env := cs[at].env.Items();
    if HasEnv(env, "KUBE") then [] else if env == [] then [Env(init, at, [KUBE])] else [EnvItem(init, at, KUBE)]
  }

  function EnvAdds(init: bool, cs: seq<Container<GoList<EnvVar>>>): seq<Add> {
    if cs == [] then [] else EnvAdds(init, cs[..|cs| - 1]) + EnvAdd(init, cs, |cs| - 1)
  }

  lemma {:induction false} TolerationItemsApply(d: Pod, missing: seq<Toleration>)
    requires d.tolerations.List?
    ensures ApplyAdds(d, seq(|missing|, i requires 0 <= i < |missing| => TolerationItem(missing[i])))
              == Some(d.(tolerations := List(d.tolerations.items + missing)))
  {
    var ops := seq(|missing|, i requires 0 <= i < |missing| => TolerationItem(missing[i]));
    if missing == [] {
      assert d.tolerations.items + missing == d.tolerations.items;
    } else {
      var front := missing[..|missing| - 1];
      TolerationItemsApply(d, front);
      assert ops[..|ops| - 1] == seq(|front|, i requires 0 <= i < |front| => TolerationItem(front[i]));
      assert front + [missing[|missing| - 1]] == missing;
      assert d.tolerations.items + missing == (d.tolerations.items + front) + [missing[|missing| - 1]];
    }
  }

  lemma TolerationAddsApply(d: Pod, existing: GoList<Toleration>, wanted: seq<Toleration>)
    requires d.tolerations == Present(existing)
    ensures ApplyAdds(d, TolerationAdds(existing.Items(), Missing(wanted, existing.Items())))
              == Some(d.(tolerations := Present(Merge(wanted, existing))))
  {
    var missing := Missing(wanted, existing.Items());
    if missing != [] {
      if existing.Items() == [] {
        assert [Tolerations(missing)][..0] == [];
        assert existing.Items() + missing == missing;
      } else {
        TolerationItemsApply(d, missing);
      }
    }
  }

  // The document's containers with KUBE injected into the first n.
  function InjectedFirst(cs: seq<Container<GoList<EnvVar>>>, n: nat): seq<Container<GoList<EnvVar>>>
    requires n <= |cs|
  {
    seq(|cs|, i requires 0 <= i < |cs| => DocContainer(if i < n then Inject(cs[i], KUBE) else cs[i]))
  }

  function WithContainers(d: Pod, init: bool, cs: Containers): Pod {
    if init then d.(initContainers := cs) else d.(containers := cs)
  }

  lemma EnvAddStep(init: bool, cs: seq<Container<GoList<EnvVar>>>, at: nat)
    requires at < |cs|
    ensures EnvAdd(init, cs, at) == [] ==> InjectedFirst(cs, at + 1) == InjectedFirst(cs, at)
    ensures EnvAdd(init, cs, at) != [] ==>
              AddToEnv(List(InjectedFirst(cs, at)), EnvAdd(init, cs, at)[0]) == Some(List(InjectedFirst(cs, at + 1)))
  {
    var c := cs[at];
    if HasEnv(c.env.Items(), "KUBE") {
      assert InjectedFirst(cs, at + 1) == InjectedFirst(cs, at);
    } else {
      assert c.env.Items() == [] ==> c.env.Items() + [KUBE] == [KUBE];
      assert InjectedFirst(cs, at)[at] == DocContainer(c);
      assert InjectedFirst(cs, at + 1) == InjectedFirst(cs, at)[at := DocContainer(Inject(c, KUBE))];
    }
  }

  lemma EnvAddsSplit(init: bool, cs: seq<Container<GoList<EnvVar>>>, n: nat)
    requires n < |cs|
    ensures EnvAdds(init, cs[..n + 1]) == EnvAdds(init, cs[..n]) + EnvAdd(init, cs, n)
  {
    assert cs[..n + 1][..n] == cs[..n];
  }

  lemma EnvAddApplies(d: Pod, init: bool, cs: seq<Container<GoList<EnvVar>>>, at: nat)
    requires at < |cs|
    requires d == WithContainers(d, init, List(InjectedFirst(cs, at)))
    ensures ApplyAdds(d, EnvAdd(init, cs, at)) == Some(WithContainers(d, init, List(InjectedFirst(cs, at + 1))))
  {
    EnvAddStep(init, cs, at);
    var step := EnvAdd(init, cs, at);
    if step != [] {
      assert step[..0] == [];
      assert ApplyAdds(d, step) == ApplyAdd(d, step[0]);
    }
  }

  lemma {:induction false} EnvAddsApply(d: Pod, init: bool, cs: seq<Container<GoList<EnvVar>>>, n: nat)
    requires n <= |cs|
    requires d == WithContainers(d, init, List(InjectedFirst(cs, 0)))
    ensures ApplyAdds(d, EnvAdds(init, cs[..n])) == Some(WithContainers(d, init, List(InjectedFirst(cs, n))))
  {
    if n > 0 {
      EnvAddsApply(d, init, cs, n - 1);
      EnvAddsSplit(init, cs, n - 1);
      AddsInSequence(d, EnvAdds(init, cs[..n - 1]), EnvAdd(init, cs, n - 1));
      EnvAddApplies(WithContainers(d, init, List(InjectedFirst(cs, n - 1))), init, cs, n - 1);
    }
  }

  lemma ContainerAddsApply(d: Pod, init: bool, cs: Containers)
    requires d == WithContainers(d, init, if init then Present(DocContainers(cs)) else DocContainers(cs))
    ensures ApplyAdds(d, EnvAdds(init, cs.Items())) ==
            var after := DocContainers(InjectAll(cs, KUBE));
            Some(WithContainers(d, init, if init then Present(after) else after))
  {
    if cs.Items() != [] {
      var items := cs.items;
      assert InjectedFirst(items, 0) == DocContainers(cs).items;
      assert InjectedFirst(items, |items|) == DocContainers(InjectAll(cs, KUBE)).items;
      assert items[..|items|] == items;
      EnvAddsApply(d, init, items, |items|);
    }
  }

  function AddPatch(p: Pod): seq<Add>
    requires MutatePod(p).Mutated?
  {
    PipelineIs(p);
    TolerationAdds(p.tolerations.Items(), Missing(Wanted(p.labels).pod, p.tolerations.Items()))
    + EnvAdds(false, p.containers.Items())
    + EnvAdds(true, p.initContainers.Items())
  }

  // An add-only patch, none of whose operations replaces anything, turns the original
  // document into the mutated one.
  lemma AddOnlyPatch(p: Pod)
    requires MutatePod(p).Mutated?
    ensures ApplyAdds(Doc(p), AddPatch(p)) == Some(Doc(MutatePod(p).pod))
  {
    PipelineIs(p);
    var d := Doc(p);
    var ts := TolerationAdds(p.tolerations.Items(), Missing(Wanted(p.labels).pod, p.tolerations.Items()));
    TolerationAddsApply(d, p.tolerations, Wanted(p.labels).pod);
    var d1 := ApplyAdds(d, ts).value;
    ContainerAddsApply(d1, false, p.containers);
    AddsInSequence(d, ts, EnvAdds(false, p.containers.Items()));
    var d2 := ApplyAdds(d1, EnvAdds(false, p.containers.Items())).value;
    ContainerAddsApply(d2, true, p.initContainers);
    AddsInSequence(d, ts + EnvAdds(false, p.containers.Items()), EnvAdds(true, p.initContainers.Items()));
  }
}
