/**
The parts of a Kubernetes pod that the webhook reads or writes, as values, and what it
means for a pod to tolerate a node's taint.
*/
module Pods {
  import opened GoSlices

  // Fields that the webhook copies but never looks at.
  type Opaque = string

  datatype Labels = NilLabels | Labels(entries: map<string, string>) {
    function Count(): nat {
      if NilLabels? then 0 else |entries|
    }

    predicate Has(key: string) {
      Labels? && key in entries
    }

    // Indexing a Go map: a missing key, and any key of a nil map, reads as "".
    function Get(key: string): string {
      if Has(key) then entries[key] else ""
    }
  }

  // What a label reads as, entry by entry; the number of labels is 0 just when there are none.
  lemma LabelReads(labels: Labels, key: string)
    ensures labels.Has(key) <==> labels.Labels? && key in labels.entries
    ensures labels.Get(key) == "" <==>
            labels.NilLabels? || key !in labels.entries || labels.entries[key] == ""
    ensures labels.Get(key) != "" ==> labels.Get(key) == labels.entries[key]
    ensures labels.Count() == 0 <==> labels.NilLabels? || labels.entries == map[]
  {
    if labels.Labels? && labels.Count() == 0 {
      assert labels.entries.Keys == {};
    }
  }

  datatype Toleration = Toleration(key: string, operator: string, value: string, effect: string,
                                   tolerationSeconds: Option<int>)

  datatype Taint = Taint(key: string, value: string, effect: string)

  datatype EnvVar = EnvVar(name: string, value: string, valueFrom: Opaque)

  // E is how the container holds its environment: a GoList or a Slice of EnvVar.
  datatype Container<E> = Container(name: string, env: E, rest: Opaque)

  datatype Pod = Pod(name: string, generateName: string, labels: Labels,
                     tolerations: GoList<Toleration>,
                     containers: GoList<Container<GoList<EnvVar>>>,
                     initContainers: GoList<Container<GoList<EnvVar>>>,
                     rest: Opaque)

  // Toleration.ToleratesTaint of the Kubernetes API: an empty effect or key matches
  // any, an empty operator means Equal, an unknown operator matches nothing.
  predicate Matches(t: Toleration, taint: Taint) {
    && (t.effect == "" || t.effect == taint.effect)
    && (t.key == "" || t.key == taint.key)
    && (t.operator == "Exists" || (t.operator in {"", "Equal"} && t.value == taint.value))
  }

  predicate AnyMatches(ts: seq<Toleration>, taint: Taint) {
    exists i | 0 <= i < |ts| :: Matches(ts[i], taint)
  }

  predicate Tolerates(p: Pod, taint: Taint) {
    AnyMatches(p.tolerations.Items(), taint)
  }
}
