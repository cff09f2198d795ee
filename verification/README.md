# Verified models of the reconcile loop and the pod admission webhook

Dafny 4.11 models of the two programs in this repository that decide something, with proofs
about every input, every run and every interleaving. Check everything with
`dafny verify dfyconfig.toml`.

**The operator** (`golang-app-operator`) keeps a Deployment and a status for each
`Golangappoperator` resource.

- `ApiServer`: custom resources, Deployments and pods in a store with versioned writes. Calls
  may fail without effect, or take effect and lose the reply. A `strict` store validates as
  Kubernetes does (replicas not negative, label values of at most 63 characters, and
  `status.nodes` required, as the CRD says).
- `Reconciler`: one pass, as the method that makes the API calls (`Client.RunPass`) and as the
  function `Reconcile` that it is proved to compute. Reads come from a cache, writes go to the
  server, because the manager's client is a cached one.
- `PassCases`: exactly when a pass makes which write, and how it ends, for every cache, server and
  fault.
- `ListingOrder`, `Ranks`, `Convergence`: what happens once nobody else writes. Whole passes for
  many keys run in any order, with lagging caches, failing calls, and pods listed in a fixed
  order or in a new one each time.
- `Interference`: what one pass may touch; passes for different keys commute.
- `Interleaving`, `InterleavingSafety`: any number of passes cut into single API calls and
  interleaved with users' edits and deletions and with cache updates that may show any earlier
  state, with a log of what was read and written. The safety results hold of every log of every
  run.
- `TrueReads`: every reply that a pass reads is what the server held at some moment.
- `QuietRuns`: convergence of those interleaved passes, from every state that a run can reach,
  once users stop and caches have caught up.
- `Triggers`: what starts a pass. The controller watches its custom resources only; a key is
  due after a change of its resource is seen, after a pass that failed or asked for another,
  and at a resync.
- `InterleavingRuns`: single runs that show what the operator does not promise.
- `DeepCopies`: the generated deep copies, over slices that share backing arrays.

**The webhook** (`kubewebhook/pkg`) adds tolerations and an environment variable to pods and
then validates them.

- `Strconv`: the integers that label texts spell, and their decimal texts.
- `Pods`, `Mutation`: pods as values, what each mutator computes, and taint matching by the
  rules of the Kubernetes API's `ToleratesTaint`.
- `MutationLaws`, `PatchLaws`: what the pipeline means for scheduling, repetition, order and
  the patch.
- `PodHeap`, `PodMutators`: the mutators as they run, writing in place into deep copies.
- `Validation`, `Admission`: the validators, both reviews, and a pod's way through both.

`GoSlices` holds Go's slices, as values that keep nil apart from empty and as headers over
backing arrays with spare capacity.

## What turned out false, and when it holds

- *The loop does not always converge.* The CRD makes `status.nodes` a required array, but the
  pass writes nil when no pods are listed. A validating server refuses that write for ever; it
  also refuses a negative size, and a name over 63 characters, which does not fit the label.
  `Convergence.BlockedStores` gives a store for each, `InterleavingRuns.RunIntoBlocked` a run
  of ordinary steps into the first, and `Convergence.ConvergesIff` the exact condition: some run
  converges, if and only if two clean passes do, if and only if none of the three holds. On a
  server that does not validate, every cluster converges.
- *The operator may come to rest too early.* Neither Deployments nor pods wake it. In
  `InterleavingRuns.StatusLeftBehind` a new resource's pod comes after the second pass; no call
  failed, nothing is refused, all is delivered, and yet the status misses the pod until a user
  edits the resource or a resync. `Triggers.ConvergesByItselfIff` is exact: with caches caught
  up and no pass under way, the operator can converge a key by itself if and only if it is
  converged already, or is pending and not blocked. A pending key is never forgotten
  (`Triggers.RestsOnlyWhenConverged`).
- *A Deployment write may carry an outdated size*, unlike a status write, which is never
  outdated: the user may change the size after the pass has read it
  (`InterleavingRuns.OldSizeAfterEdit`), or before, when the cache does not show it yet
  (`OldSizeFromCache`; nobody writes the custom resource after the read there). The write is made
  from the resource that the server holds at the commit if and only if the version read is the
  version held; then nobody has written the resource since. For the size alone that is
  sufficient, as another field may be what changed: it is current if and only if the size read
  is the size held (`InterleavingSafety.DeploymentWriteCurrentIff`).
- *A converged key may be rewritten when listings change order*, because the pass compares the
  names as a list: `InterleavingRuns.OrderRewritesStatus` is such a run, with two pods. A key
  stays still under every order of listing if and only if all its listed pods have one name
  (`Convergence.StillInAnyOrderIff`); convergence up to the order of the names does not need that.
- *The lifespan loop does not end* for a label that spells -9223372036854775808, because its
  counter wraps around. `MutationLaws.NeverReturnsIff` ties the outcome `NeverReturns` to the
  wrapping loop, `LoopEndsUnlessSmallest` says that no other integer has it, and
  `SmallestNeverReturns` is such a pod.
- *The refusal reason depends on the validators' order* for a pod that has labels and breaks
  both rules, and for no other (`Validation.ReasonFollowsOrder`; `ReasonsAtOnePod` is one, and
  shows that without labels the reason is the same). The verdict never does
  (`Validation.ValidatorOrderIrrelevant`).

The comment on `appendTolerations` says that it appends the existing list to the new one; the
code appends the new to the existing, and the model follows the code.

## Model

| member | source | states |
|---|---|---|
| `InterleavingSafety.StatusWritesAreCurrent` | golang-app-operator/controllers/golangappoperator_controller.go:62-139 | In every interleaving, a status write belongs to a pass that read the custom resource the server still held at commit, with no write to it in between, that then saw its Deployment at that resource's size, and that stores the names of the matching pods it listed. (The Deployment and the pods may have changed since they were read.) |
| `InterleavingSafety.DeploymentWritesAreExact` | golang-app-operator/controllers/golangappoperator_controller.go:84-113 | In every interleaving, a Deployment write either creates, after its pass was told that there is none and where there is none still, the Deployment for the resource its pass read (size, both labels as selector and on the pods, owner, image and port), or changes the replicas and nothing else of the version its pass read, unwritten since. |
| `InterleavingSafety.CreatedIsOwnedAndLabelled` | golang-app-operator/controllers/golangappoperator_controller.go:143-180 | Whatever users do, every Deployment created is owned by the resource read, with selector and pod labels `app` and `golangappoperatored_cr`, the latter its name. |
| `TrueReads.RepliesAreTrue` | golang-app-operator/controllers/golangappoperator_controller.go:67-125 | In every interleaving, a resource or Deployment that a pass reads, or its absence, is what the server held at some moment, and a listing has exactly the pods of the resource that it held at some moment, each as often. |
| `InterleavingSafety.LabelsKept` | golang-app-operator/controllers/golangappoperator_controller.go:143-159 | Over every run in which users respect the labels, each owned Deployment keeps selector = template labels = the labels its pods are listed by. |
| `InterleavingSafety.DeploymentWriteCurrentIff` | golang-app-operator/controllers/golangappoperator_controller.go:84-113 | In every interleaving, a Deployment write is made from the custom resource the server holds at the commit if and only if the version its pass read is the version held; then the resource is unwritten since the read. The replicas are the held size if and only if the size read is. |
| `InterleavingSafety.HeldVersionIsCurrent` | golang-app-operator/controllers/golangappoperator_controller.go:67-112 | In every reachable state, the resource in a pass's hands is what the server holds if and only if the versions agree. |
| `InterleavingSafety.OneWritePerPass` | golang-app-operator/controllers/golangappoperator_controller.go:84-138 | In every interleaving a pass makes at most one write: two logged writes of one pass are the same write. |
| `InterleavingSafety.EndTellsWrite` | golang-app-operator/controllers/golangappoperator_controller.go:84-138 | In every interleaving, a pass none of whose replies was lost ends in a requeue if and only if it created its Deployment, in a delayed one if and only if it rescaled it, and is done if it set the status. |
| `InterleavingSafety.FailedPassWroteNothing` | golang-app-operator/controllers/golangappoperator_controller.go:84-138 | In every interleaving, a pass that failed and lost no reply has no write in the log. |
| `InterleavingRuns.OldSizeAfterEdit` | golang-app-operator/controllers/golangappoperator_controller.go:84-94 | A run in which the Deployment is created with a size the user has changed since the read. |
| `InterleavingRuns.OldSizeFromCache` | golang-app-operator/controllers/golangappoperator_controller.go:67-94 | A run in which it is created with an old size although nobody writes the resource after the read: the cache was behind. |
| `InterleavingRuns.RunIntoBlocked` | golang-app-operator/config/crd/bases/app.stevejcliu.io.stevejcliu.com_golangappoperators.yaml:64-76 | On a validating server: create, report one pod, lose it, let the caches catch up; the status that is then due is refused for good. |
| `InterleavingRuns.StatusLeftBehind` | golang-app-operator/controllers/golangappoperator_controller.go:191-196 | A run from a new resource, in which every pass was due, to a state where everything has been delivered, nothing is pending or refused, the status misses the pod, and no steps of the operator change that without a resync. |
| `InterleavingRuns.OrderRewritesStatus` | golang-app-operator/controllers/golangappoperator_controller.go:124-133 | A run in which the cache lists two pods the other way round, and a pass rewrites the status of a converged resource. |
| `QuietRuns.QuietConverges` | golang-app-operator/controllers/golangappoperator_controller.go:62-139 | From every state that any run reaches, once the caches show what the server holds at k and the passes for k have ended: however later calls of all passes interleave, whatever states since then are delivered late or out of order, and whatever fails, a pass for k that is done leaves k converged, no two passes for k ask for a requeue, and two that end without error leave k converged. |
| `Triggers.RestsOnlyWhenConverged` | golang-app-operator/controllers/golangappoperator_controller.go:191-196 | From there, if k is pending: whenever nothing is pending for k and no pass for k is under way, k is converged. |
| `Triggers.EveryVersionIsRead` | golang-app-operator/controllers/golangappoperator_controller.go:191-196 | In every interleaving with users, each version of a resource that the cache shows has been read by a pass, unless one is due or about to read it. |
| `Triggers.ConvergesByItselfIff` | golang-app-operator/controllers/golangappoperator_controller.go:191-196 | From there, steps of operator and caches that begin passes only when due can converge k without a resync, if and only if k is converged already, or is pending and not blocked. |
| `Triggers.CleanPassReconciles` | golang-app-operator/controllers/golangappoperator_controller.go:62-139 | A pass begun and run through as steps of the interleaved system leaves the store and the outcome of the one-step pass. |
| `QuietRuns.CatchingUpSettles` | golang-app-operator/main.go:82 | Three deliveries to the caches lead there, once the passes for k have ended. |
| `QuietRuns.CallsRunOut` | golang-app-operator/controllers/golangappoperator_controller.go:62-139 | Each call brings a pass closer to its end, and at most four calls reach it. |
| `InterleavingSafety.RunKeeps` | golang-app-operator/controllers/golangappoperator_controller.go:62-139 | The invariant behind the safety results holds after every run from every valid store. |
| `Interleaving.AlonePassIsReconcile` | golang-app-operator/controllers/golangappoperator_controller.go:62-139 | The single calls of a pass, uninterrupted, add up to the one-step pass, under every fault. |
| `Interleaving.CallIsLogged` | golang-app-operator/controllers/golangappoperator_controller.go:67-136 | The event a call logs accounts for every difference it makes to the server. |
| `Reconciler.Client.RunPass` | golang-app-operator/controllers/golangappoperator_controller.go:62-139 | The pass, call by call with its early returns, leaves the store and gives the result of `Reconcile`. |
| `PassCases.FailedReadEndsPass` | golang-app-operator/controllers/golangappoperator_controller.go:67-125 | A failed read of the resource or of the Deployment, or a failed listing, ends the pass with that error and no write. |
| `PassCases.CreatesIff` | golang-app-operator/controllers/golangappoperator_controller.go:84-94 | A Deployment is created if and only if both reads worked, the cache shows the resource but no Deployment, and the server accepts the write; what is stored, field by field, and how the pass ends. |
| `PassCases.RescalesIff` | golang-app-operator/controllers/golangappoperator_controller.go:100-113 | A Deployment is changed if and only if the sizes read differ and the version read is the one held and accepted; then only the replicas change. |
| `PassCases.SetsStatusIff` | golang-app-operator/controllers/golangappoperator_controller.go:116-136 | The status is set if and only if all reads worked, the sizes agree, the names differ, and the version read is the one held and accepted; then only the names change. |
| `PassCases.DoneIff` | golang-app-operator/controllers/golangappoperator_controller.go:62-139 | A pass is done if and only if the resource is gone, or there is nothing to change, or the status has been set. |
| `PassCases.ServerErrorIff` | golang-app-operator/controllers/golangappoperator_controller.go:86-136 | When every call gets through: exactly when the pass fails with AlreadyExists, NotFound, Conflict or Invalid. |
| `Reconciler.GetPodNames` | golang-app-operator/controllers/golangappoperator_controller.go:183-189 | The loop gives the pods' names, one for each and in order, and nil exactly for no pods. |
| `ApiServer.ListedPods` | golang-app-operator/controllers/golangappoperator_controller.go:117-122 | A pod is listed exactly when it is in the namespace and carries all the labels, and as often as it is held. |
| `Reconciler.PodsOfAre` | golang-app-operator/controllers/golangappoperator_controller.go:117-122 | The pods listed for a resource are those in its namespace whose `app` is golangappoperatored and whose `golangappoperatored_cr` is its name. |
| `Reconciler.PodsOfInOrder` | golang-app-operator/controllers/golangappoperator_controller.go:117-122 | They keep their order. |
| `Convergence.ConvergesDespiteFaults` | golang-app-operator/controllers/golangappoperator_controller.go:82-138 | For every key, from caches that show the users' last writes when the run starts: under any order of passes, any cache lag behind the operator's later writes and any faults, lost replies included, once a key's passes outnumber its failed ones by two, it is converged; up to the order of the names, if every listing may come in another order. |
| `Ranks.PassLowersRank` | golang-app-operator/controllers/golangappoperator_controller.go:82-138 | No pass raises the rank; one that does not fail lowers it or leaves it at 0; one that is done leaves it at 0; only rank 2 asks for a requeue. |
| `Convergence.SuccessesConverge` | golang-app-operator/controllers/golangappoperator_controller.go:82-138 | As many passes without error as the rank is high bring it to 0, where it stays. |
| `Convergence.CleanTurnsConverge` | golang-app-operator/controllers/golangappoperator_controller.go:82-138 | Fair convergence, with nothing assumed of outcomes: if the server is not refusing the write that is missing, as many passes without faults and lag as the rank is high bring it to 0, whatever lagging and failing passes lie between them. |
| `Convergence.TurnKeepsHistory` | golang-app-operator/main.go:82 | Every earlier state of a quiet run stays one that a lagging cache may show. |
| `Convergence.StillIff` | golang-app-operator/controllers/golangappoperator_controller.go:69-138 | With fresh caches, pods listed in the server's order and no faults, a pass changes nothing and is done if and only if the resource is gone or converged. |
| `Convergence.ConvergedStays` | golang-app-operator/controllers/golangappoperator_controller.go:82-138 | Once converged, with fresh caches and listings in the server's order, no fault makes a pass change anything. |
| `Convergence.StillInAnyOrderIff` | golang-app-operator/controllers/golangappoperator_controller.go:124-138 | A converged key is left alone under every order of listing if and only if all its listed pods have one name. |
| `ListingOrder.ShownListing` | golang-app-operator/controllers/golangappoperator_controller.go:117-124 | Listings of the same pods in any orders give the same names, each as often. |
| `Convergence.ConvergesIff` | golang-app-operator/config/crd/bases/app.stevejcliu.io.stevejcliu.com_golangappoperators.yaml:53-76 | Some run converges, if and only if the server is not refusing the write that is missing; and then two clean passes do it. |
| `Convergence.BlockedStores` | golang-app-operator/config/crd/bases/app.stevejcliu.io.stevejcliu.com_golangappoperators.yaml:53-76 | A valid store blocked by a negative size, one by a name of 64 characters, one by pods that are gone. |
| `Convergence.BlockedForever` | golang-app-operator/config/crd/bases/app.stevejcliu.io.stevejcliu.com_golangappoperators.yaml:64-76 | While the server refuses that write, no run of any length converges. |
| `Convergence.CleanPassSucceeds` | golang-app-operator/controllers/golangappoperator_controller.go:82-138 | A pass without faults, with caches fresh at its key and pods in any order, does not fail unless the key is blocked. |
| `Convergence.PassKeepsUnblocked` | golang-app-operator/controllers/golangappoperator_controller.go:82-138 | No pass, under any lag and faults, blocks a key that was not blocked. |
| `Interference.PassFrame` | golang-app-operator/controllers/golangappoperator_controller.go:86-136 | A pass makes at most one write, and only after reads that worked: it creates Deployment k, changes its replicas, or sets the status of k. A failed pass that lost no reply changes nothing; a requeue comes with its write. |
| `Interference.PassesCommute` | golang-app-operator/controllers/golangappoperator_controller.go:62-139 | Passes for different keys, each reading a cache of any content, in either order give the same results and the same cluster up to version numbers; a cache may change in between, but not at the pass's own key. |
| `Interference.PassesCommuteOneCache` | golang-app-operator/controllers/golangappoperator_controller.go:62-139 | In particular, with one lagging cache shared by both passes, the results and the cluster are the same in both orders. |
| `Interference.PassesCommuteFresh` | golang-app-operator/controllers/golangappoperator_controller.go:62-139 | And so they are when each pass reads the server as it then is. |
| `Interference.PassIsLocal` | golang-app-operator/controllers/golangappoperator_controller.go:62-139 | What a pass for k does depends only on what its cache, of any content, shows of k and on the server's objects at k. |
| `Interference.PodSetsDisjoint` | golang-app-operator/controllers/golangappoperator_controller.go:118-121 | No pod is listed for two custom resources. |
| `Interference.LabelsInjective` | golang-app-operator/controllers/golangappoperator_controller.go:178-180 | Different names have different labels. |
| `DeepCopies.DeepCopy` | golang-app-operator/api/v1alpha1/zz_generated.deepcopy.go:56-77 | nil gives nil; otherwise an equal list, nil slices kept, made of new arrays that no two items share. |
| `DeepCopies.CopyItem` | golang-app-operator/api/v1alpha1/zz_generated.deepcopy.go:29-45 | An equal resource in new arrays, one for each of its slices. |
| `DeepCopies.CopySpec` | golang-app-operator/api/v1alpha1/zz_generated.deepcopy.go:88-95 | All fields kept, the server list in a new array or still nil. |
| `DeepCopies.CopyStatus` | golang-app-operator/api/v1alpha1/zz_generated.deepcopy.go:108-115 | The node list in a new array or still nil. |
| `DeepCopies.OperatorList.WriteNode` | golang-app-operator/api/v1alpha1/zz_generated.deepcopy.go:56-67 | In a copied list, writing one node of one item changes that item's nodes and no other item. |
| `MutationLaws.ToleratesExactly` | kubewebhook/pkg/mutation/minimum_lifespan.go:26-70 | For every pod and taint: the mutated pod tolerates what the pod tolerated, and the NoSchedule lifespan taints its label asks for, and nothing else. |
| `MutationLaws.CarriesExactly` | kubewebhook/pkg/mutation/minimum_lifespan.go:26-70 | The mutated pod's tolerations, with all their fields: its own, and behind them, in order and without what it had, one for every lifespan if there is no label, else those for 14, 13, down to n. |
| `MutationLaws.SchedulableExactly` | kubewebhook/pkg/mutation/minimum_lifespan.go:50-69 | A pod asking for n that did not tolerate the taint value before tolerates it if and only if it is the decimal text of some k with n <= k <= 14. |
| `MutationLaws.ToleranceMonotone` | kubewebhook/pkg/mutation/minimum_lifespan.go:36-69 | Mutation removes no tolerance; a smaller lifespan, or no label, tolerates no less. |
| `MutationLaws.SucceedsIff` | kubewebhook/pkg/mutation/minimum_lifespan.go:36-54 | The pipeline succeeds if and only if the label is empty or spells an integer above the smallest; its error names the label's text. |
| `MutationLaws.LoopEndsUnlessSmallest` | kubewebhook/pkg/mutation/minimum_lifespan.go:59 | The wrapping 64-bit loop ends if and only if the label is not the smallest integer, and until then counts 14, 13, and so on. |
| `MutationLaws.WrapIs` | kubewebhook/pkg/mutation/minimum_lifespan.go:59 | The counter is a 64-bit integer, right modulo 2^64; below the smallest comes the largest. |
| `MutationLaws.NeverReturnsIff` | kubewebhook/pkg/mutation/minimum_lifespan.go:50-66 | The pipeline's outcome is NeverReturns if and only if the label parses as an integer for which that loop does not end. |
| `MutationLaws.SmallestNeverReturns` | kubewebhook/pkg/mutation/minimum_lifespan.go:50-66 | A pod labelled with the decimal text of the smallest integer is never answered. |
| `MutationLaws.OrderAndRepetitionIrrelevant` | kubewebhook/pkg/mutation/mutation.go:41-56 | Any two lists of the same mutators, reordered or repeated, give the same pod or the same error. |
| `MutationLaws.MutatorsCommute` | kubewebhook/pkg/mutation/mutation.go:41-55 | The two mutators give the same outcome in either order. |
| `MutationLaws.PipelineIdempotent` | kubewebhook/pkg/mutation/mutation.go:41-55 | Running the pipeline on its own result succeeds and changes nothing, nil and empty lists included. |
| `Mutation.MergeLaws` | kubewebhook/pkg/mutation/minimum_lifespan.go:73-89 | The existing list is a prefix, its elements keep their multiplicity, others occur as often as in the new list, and merging twice is merging once. |
| `Mutation.MissingInOrder` | kubewebhook/pkg/mutation/minimum_lifespan.go:73-89 | What is appended keeps the order of the new list. |
| `Mutation.FamilyDistinct` | kubewebhook/pkg/mutation/minimum_lifespan.go:58-66 | The generated tolerations are pairwise different. |
| `Strconv.AtoiReads` | kubewebhook/pkg/mutation/minimum_lifespan.go:50-54 | A text parses as n if and only if n fits 64 bits and the text is an accepted sign, zeros, and the decimal text of its absolute value. |
| `Strconv.DigitsArePositional` | kubewebhook/pkg/mutation/minimum_lifespan.go:50-54 | Digits are read as decimal numbers are: each by its name, the last as the units. |
| `Strconv.DecimalNatParses` | kubewebhook/pkg/mutation/minimum_lifespan.go:64 | The decimal text of a number is digits that are read as it, without a leading zero. |
| `Strconv.LifespanTexts` | kubewebhook/pkg/mutation/minimum_lifespan.go:59-65 | The texts of the lifespans 0 to 14, letter by letter. |
| `Pods.LabelReads` | kubewebhook/pkg/mutation/minimum_lifespan.go:36-50 | A label reads as empty if and only if there are no labels, or not this one, or it is empty; else as its entry. |
| `Strconv.AtoiSprint` | kubewebhook/pkg/mutation/minimum_lifespan.go:51-64 | Parsing undoes printing, for exactly the 64-bit integers. |
| `Strconv.SprintInjective` | kubewebhook/pkg/mutation/minimum_lifespan.go:64 | Different integers have different decimal texts. |
| `PatchLaws.OnlyExtends` | kubewebhook/pkg/mutation/inject_env.go:22-63 | Tolerations and environments are extended at the end, containers keep count and order; a container with a KUBE variable is unchanged, and any other gets KUBE=true behind the variables it had and nothing else. |
| `PatchLaws.AddOnlyPatch` | kubewebhook/pkg/mutation/mutation.go:57-68 | Applying a list of `add` operations, none of which replaces anything, turns the original document into the mutated one. |
| `PodMutators.MutatePodPatch` | kubewebhook/pkg/mutation/mutation.go:29-61 | The pod given, and every array it reaches, is left as it was; the pod to compare it with is the specified one, in new, unshared arrays. |
| `PodMutators.MutatePod` | kubewebhook/pkg/mutation/mutation.go:41-55 | The loop over the mutators computes the fold, up to the first error. |
| `PodMutators.MutateLifespan` | kubewebhook/pkg/mutation/minimum_lifespan.go:26-70 | The first mutator, run on a deep copy, delivers its specified outcome in new arrays. |
| `PodMutators.LifespanTolerations` | kubewebhook/pkg/mutation/minimum_lifespan.go:58-66 | The counting-down loop builds the whole family from 14 down to the label's value. |
| `PodMutators.AppendTolerations` | kubewebhook/pkg/mutation/minimum_lifespan.go:73-89 | The nested loops and the append compute the merge, even where the append is in place. |
| `PodMutators.MutateEnv` | kubewebhook/pkg/mutation/inject_env.go:22-39 | The second mutator, run on a deep copy, delivers its specified outcome in new arrays. |
| `PodHeap.PodObject.InjectEnvVar` | kubewebhook/pkg/mutation/inject_env.go:42-53 | The in-place loops over both lists add the variable where it is missing, change nothing else, and leave nothing shared. |
| `PodHeap.HasEnvVar` | kubewebhook/pkg/mutation/inject_env.go:56-63 | True exactly when some variable has the name. |
| `PodHeap.PodObject.DeepCopy` | kubewebhook/pkg/mutation/mutation.go:46 | An equal pod in new arrays, none of them shared, whatever the source shares. |
| `Validation.ValidatePod` | kubewebhook/pkg/validation/validation.go:32-71 | The shortcut and the early-exit loop give the first refusal. |
| `Validation.ValidIff` | kubewebhook/pkg/validation/validation.go:44-70 | A pod is valid if and only if its name contains the bad text nowhere and its managedby label is steve. |
| `Validation.DecisionIs` | kubewebhook/pkg/validation/validation.go:44-70 | Every answer with its reason: no labels, then a bad name, then no managedby label, then another manager, else valid. |
| `Validation.ContainsIsInfix` | kubewebhook/pkg/validation/name_validator.go:27-39 | The substring test finds the text at any position. |
| `Validation.ValidatorOrderIrrelevant` | kubewebhook/pkg/validation/validation.go:44-68 | The verdict does not depend on the validators' order or repetition, nor does the reason unless the pod has labels and breaks both rules. |
| `Validation.ReasonFollowsOrder` | kubewebhook/pkg/validation/validation.go:44-68 | With the empty-labels shortcut in front, the two orders give different answers if and only if the pod has labels and breaks both rules. |
| `Validation.ReasonsAtOnePod` | kubewebhook/pkg/validation/labels_validator.go:25-49 | A labelled pod with two different reasons; without its labels it still breaks both rules and has one answer. |
| `Validation.MutationKeepsDecision` | kubewebhook/pkg/validation/validation.go:32-71 | Verdict and reason are the same before and after mutation. |
| `Admission.ReviewsAgree` | kubewebhook/pkg/admission/admission.go:24-44 | The validating review is the same whether or not the mutating webhook ran first. |
| `Admission.ValidationAnswers` | kubewebhook/pkg/admission/admission.go:24-44 | Which requests are accepted (202), forbidden (403) or bad (400, and an error as well), and the message of each. |
| `Admission.MutationAnswers` | kubewebhook/pkg/admission/admission.go:48-63 | Which requests get a patch without a status, from the pod sent to the mutated pod, which are refused with code 400 and which message, and which are never answered. |
| `Admission.AdmittedIff` | kubewebhook/pkg/admission/admission.go:24-63 | A pod passes both webhooks if and only if it can be mutated and is acceptable, and then tolerates exactly its old taints and the lifespans it asks for. |

## Left out

- MutationAnswers: the message of a label error ends before strconv's own error text, and quotes the label as it is, where the program escapes quotes and control characters (`%q`).
- SucceedsIff: memory is taken as unbounded; for a label such as -9223372036854775807 the program would first append about 9e18 tolerations.
- HTTP servers, TLS, certificates, loggers, flags and `mutatingwebhook/`: input and output, or one constant patch.
- The sample applications, Helm charts, Terraform and manifests: constants and configuration.
- `json.Unmarshal`, `json.Marshal` and `jsondiff.Compare`: a request carries its decoded pod or the decoding error, and a patch is the pair of pods it turns into one another; their own errors are not modelled.
- The validators' error results: both always return nil, so the branches that handle an error cannot be taken.
- Effects of `SetControllerReference` beyond the owner's uid, and its ignored error.
- `Spec.Replicas` as a pointer: the server is taken to have set it, since the pass dereferences it unchecked.
- Writes that change nothing, for which Kubernetes hands out no new version: the pass never sends one.
- Time, garbage collection and pod creation: in the interleaved runs they are users' steps; convergence is stated from the last of them on, with caches that have caught up with it. A resync of the caches is a step that may come at any moment.
- Struct copies through pointers (`*out = *in`): a method that fills `*out` is modelled as one that returns it, since the first assignment overwrites all of it.
- Label maps as shared references: the code never writes one, so they are values.
