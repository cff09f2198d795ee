/**
The validating pipeline: the empty-labels shortcut, then the validators in turn until
one says no.
*/
module Validation {
  import opened Pods
  import opened Mutation
  import opened MutationLaws

  const BAD_STRING := "offensive"
  const VALIDATE_LABEL := "managedby"
  const VALIDATE_LABEL_VALUE := "steve"

  datatype Verdict = Verdict(valid: bool, reason: string)

  datatype Validator = NameValidator | LabelsValidator

  predicate OccursAt(s: string, sub: string, i: nat) {
    i + |sub| <= |s| && s[i..i + |sub|] == sub
  }

  // strings.Contains
  predicate Contains(s: string, sub: string) {
    exists i: nat | i <= |s| :: OccursAt(s, sub, i)
  }

  function ValidateName(p: Pod): Verdict {
    if Contains(p.name, BAD_STRING) then Verdict(false, "pod name contains \"offensive\"")
    else Verdict(true, "valid name")
  }

  function ValidateLabels(p: Pod): Verdict {
    if !p.labels.Has(VALIDATE_LABEL) then
      Verdict(false, "pod labels does not contain managedby label")
    else if p.labels.Get(VALIDATE_LABEL) != VALIDATE_LABEL_VALUE then
      Verdict(false, "pod managedby label's value is not equal to steve")
    else Verdict(true, "valid lables")
  }

  function Validate(v: Validator, p: Pod): Verdict {
    match v
    case NameValidator => ValidateName(p)
    case LabelsValidator => ValidateLabels(p)
  }

  const VALIDATORS := [NameValidator, LabelsValidator]

  // The verdict of the first validator that says no, else "valid pod".
  function FirstRefusal(vs: seq<Validator>, p: Pod): Verdict {
    if vs == [] then Verdict(true, "valid pod")
    else if !Validate(vs[0], p).valid then Verdict(false, Validate(vs[0], p).reason)
    else FirstRefusal(vs[1..], p)
  }

  // What ValidatePod answers with the validators vs: the shortcut for empty labels, then the loop.
  function DecisionWith(vs: seq<Validator>, p: Pod): Verdict {
    if p.labels.Count() == 0 then Verdict(false, "invalid pod, no labels") else FirstRefusal(vs, p)
  }

  function Decision(p: Pod): Verdict {
    DecisionWith(VALIDATORS, p)
  }

  method ValidatePod(p: Pod) returns (r: Verdict)
    ensures r == Decision(p)
  {
    if p.labels.Count() == 0 {
      return Verdict(false, "invalid pod, no labels");
    }
    var validations := VALIDATORS;
    for i := 0 to |validations|
      invariant FirstRefusal(validations[i..], p) == FirstRefusal(VALIDATORS, p)
    {
      var vp := Validate(validations[i], p);
      if !vp.valid {
        return Verdict(false, vp.reason);
      }
      assert validations[i..][1..] == validations[i + 1..];
    }
    r := Verdict(true, "valid pod");
  }

  lemma {:induction false} FirstRefusalIs(vs: seq<Validator>, p: Pod)
    ensures FirstRefusal(vs, p).valid <==> forall v | v in vs :: Validate(v, p).valid
    ensures FirstRefusal(vs, p).valid ==> FirstRefusal(vs, p).reason == "valid pod"
    ensures !FirstRefusal(vs, p).valid ==>
              exists v | v in vs :: !Validate(v, p).valid && FirstRefusal(vs, p).reason == Validate(v, p).reason
  {
    if vs != [] {
      assert vs == [vs[0]] + vs[1..];
      FirstRefusalIs(vs[1..], p);
    }
  }

  // The name has the bad text at no position, and the pod says it is managed by steve.
  ghost predicate Acceptable(p: Pod) {
    !NameIsBad(p) && ManagedBySteve(p)
  }

  ghost predicate NameIsBad(p: Pod) {
    exists before: string, after: string :: p.name == before + "offensive" + after
  }

  predicate IsLabelled(p: Pod) {
    p.labels.Labels? && p.labels.entries != map[]
  }

  predicate ManagedBySteve(p: Pod) {
    p.labels.Labels? && "managedby" in p.labels.entries && p.labels.entries["managedby"] == "steve"
  }

  lemma ContainsIsInfix(s: string, sub: string)
    ensures Contains(s, sub) <==> exists before: string, after: string :: s == before + sub + after
  {
    if Contains(s, sub) {
      var i: nat :| i <= |s| && OccursAt(s, sub, i);
      assert s == s[..i] + sub + s[i + |sub|..];
    }
    if before: string, after: string :| s == before + sub + after {
      assert OccursAt(s, sub, |before|);
    }
  }

  // The shortcut and the loop together decide exactly the two rules.
  lemma ValidIff(p: Pod)
    ensures Decision(p).valid <==> Acceptable(p)
  {
    DecisionIs(p);
  }

  // Every answer with its reason: no labels, then the name, then the managedby label.
  lemma DecisionIs(p: Pod)
    ensures !IsLabelled(p) ==> Decision(p) == Verdict(false, "invalid pod, no labels")
    ensures IsLabelled(p) && NameIsBad(p) ==> Decision(p) == Verdict(false, "pod name contains \"offensive\"")
    ensures IsLabelled(p) && !NameIsBad(p) && "managedby" !in p.labels.entries ==>
              Decision(p) == Verdict(false, "pod labels does not contain managedby label")
    ensures IsLabelled(p) && !NameIsBad(p) && "managedby" in p.labels.entries && !ManagedBySteve(p) ==>
              Decision(p) == Verdict(false, "pod managedby label's value is not equal to steve")
    ensures !NameIsBad(p) && ManagedBySteve(p) ==> Decision(p) == Verdict(true, "valid pod")
  {
    ContainsIsInfix(p.name, BAD_STRING);
    LabelReads(p.labels, VALIDATE_LABEL);
    assert VALIDATORS[1..] == [LabelsValidator] && VALIDATORS[1..][1..] == [];
    assert FirstRefusal([LabelsValidator], p).valid <==> ValidateLabels(p).valid;
  }

  // The pod has labels, and breaks both rules.
  ghost predicate BreaksBothInLoop(p: Pod) {
    IsLabelled(p) && NameIsBad(p) && !ManagedBySteve(p)
  }

  lemma BreaksBothIff(p: Pod)
    ensures BreaksBothInLoop(p) <==> p.labels.Count() != 0 && !ValidateName(p).valid && !ValidateLabels(p).valid
  {
    ContainsIsInfix(p.name, BAD_STRING);
    LabelReads(p.labels, VALIDATE_LABEL);
  }

  // Reordering or repeating the validators never changes the verdict, and changes the
  // reason only for a labelled pod that breaks both rules.
  lemma ValidatorOrderIrrelevant(vs: seq<Validator>, p: Pod)
    requires forall v :: v in vs <==> v in VALIDATORS
    ensures DecisionWith(vs, p).valid == Decision(p).valid
    ensures !BreaksBothInLoop(p) ==> DecisionWith(vs, p) == Decision(p)
  {
    BreaksBothIff(p);
    FirstRefusalIs(vs, p);
    FirstRefusalIs(VALIDATORS, p);
  }

  // The two orders give different answers for exactly those pods.
  lemma ReasonFollowsOrder(p: Pod)
    ensures BreaksBothInLoop(p) <==>
            DecisionWith([NameValidator, LabelsValidator], p) != DecisionWith([LabelsValidator, NameValidator], p)
  {
    BreaksBothIff(p);
    if BreaksBothInLoop(p) {
      assert |ValidateName(p).reason| < |ValidateLabels(p).reason|;
    } else {
      ValidatorOrderIrrelevant([LabelsValidator, NameValidator], p);
    }
  }

  // One such pod; without its labels it breaks both rules still, but has one answer only.
  lemma ReasonsAtOnePod(p: Pod)
    requires p.name == "offensive" && p.labels == Labels(map["app" := "web"])
    ensures DecisionWith([NameValidator, LabelsValidator], p).reason == "pod name contains \"offensive\""
    ensures DecisionWith([LabelsValidator, NameValidator], p).reason == "pod labels does not contain managedby label"
    ensures var q := p.(labels := NilLabels);
            && !ValidateName(q).valid && !ValidateLabels(q).valid
            && DecisionWith([NameValidator, LabelsValidator], q) == DecisionWith([LabelsValidator, NameValidator], q)
  {
    assert "app" in p.labels.entries;
    assert OccursAt(p.name, BAD_STRING, 0);
  }

  lemma {:induction false} NameAndLabelsDecide(vs: seq<Validator>, p: Pod, q: Pod)
    requires p.name == q.name && p.labels == q.labels
    ensures FirstRefusal(vs, p) == FirstRefusal(vs, q)
  {
    if vs != [] {
      NameAndLabelsDecide(vs[1..], p, q);
    }
  }

  // Verdict and reason do not depend on whether the pod was mutated first.
  lemma MutationKeepsDecision(p: Pod)
    requires MutatePod(p).Mutated?
    ensures Decision(MutatePod(p).pod) == Decision(p)
  {
    PipelineIs(p);
    NameAndLabelsDecide(VALIDATORS, p, MutatePod(p).pod);
  }
}
