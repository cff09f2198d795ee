/**
The mutators as they run: pods are objects whose slices share backing arrays, deep
copies allocate, and the environment variable is written into the copy in place.
*/
module PodHeap {
  import opened GoSlices
  import opened Pods
  import opened Mutation

  // A container as it lies in a Go array: its environment is a slice header.
  type Cell = Container<Slice<EnvVar>>
  type CellSlice = Slice<Cell>

  // ------------------------------------------------------------ container lists

  // The environments of the first n containers are valid and lie in `arrays`.
  ghost predicate CellsIn(cs: CellSlice, n: nat, arrays: set<object>)
    requires cs.Valid() && n <= cs.len
    reads cs.arr
  {
    n == 0 ||
    (CellsIn(cs, n - 1, arrays) && cs.arr[n - 1].env.Valid() && cs.arr[n - 1].env.Arrays() <= arrays)
  }

  // The list's array and its containers' environment arrays all lie in `arrays`.
  ghost predicate ListIn(cs: CellSlice, arrays: set<object>)
    reads cs.arr
  {
    cs.Valid() && cs.Arrays() <= arrays && CellsIn(cs, cs.len, arrays)
  }

  // Among the first n containers no two share an environment array.
  ghost predicate UnsharedCells(cs: CellSlice, n: nat)
    requires cs.Valid() && n <= cs.len
    reads cs.arr
  {
    n == 0 ||
    (UnsharedCells(cs, n - 1) &&
     forall j | 0 <= j < n - 1 :: cs.arr[j].env.arr == null || cs.arr[j].env.arr != cs.arr[n - 1].env.arr)
  }

  ghost predicate Unshared(cs: CellSlice)
    requires cs.Valid()
    reads cs.arr
  {
    UnsharedCells(cs, cs.len)
  }

  // The same three conditions, container by container.
  ghost predicate OwnEnvs(cells: array<Cell>, len: nat, arrays: set<object>)
    requires len <= cells.Length
    reads cells
  {
    && (forall j | 0 <= j < len :: cells[j].env.Valid() && (cells[j].env.arr == null || cells[j].env.arr in arrays))
    && (forall j, k | 0 <= j < k < len :: cells[j].env.arr == null || cells[j].env.arr != cells[k].env.arr)
  }

  lemma CellsInEach(cs: CellSlice, n: nat, arrays: set<object>)
    requires cs.Valid() && n <= cs.len
    ensures CellsIn(cs, n, arrays) <==>
            forall j | 0 <= j < n :: cs.arr[j].env.Valid() && (cs.arr[j].env.arr == null || cs.arr[j].env.arr in arrays)
  {
  }

  lemma UnsharedEach(cs: CellSlice, n: nat)
    requires cs.Valid() && n <= cs.len
    ensures UnsharedCells(cs, n) <==>
            forall j, k | 0 <= j < k < n :: cs.arr[j].env.arr == null || cs.arr[j].env.arr != cs.arr[k].env.arr
  {
  }

  ghost function CellView(c: Cell): Container<GoList<EnvVar>>
    requires c.env.Valid()
    reads c.env.arr
  {
    Container(c.name, c.env.View(), c.rest)
  }

  ghost function CellViews(cs: CellSlice, n: nat, arrays: set<object>): seq<Container<GoList<EnvVar>>>
    requires cs.Valid() && n <= cs.len && CellsIn(cs, n, arrays)
    reads cs.arr, arrays
  {
    if n == 0 then [] else CellViews(cs, n - 1, arrays) + [CellView(cs.arr[n - 1])]
  }

  lemma CellViewsEach(cs: CellSlice, n: nat, arrays: set<object>)
    requires cs.Valid() && n <= cs.len && CellsIn(cs, n, arrays)
    ensures |CellViews(cs, n, arrays)| == n
    ensures forall j | 0 <= j < n :: cs.arr[j].env.Valid() && CellViews(cs, n, arrays)[j] == CellView(cs.arr[j])
  {
  }

  ghost function ListView(cs: CellSlice, arrays: set<object>): GoList<Container<GoList<EnvVar>>>
    requires ListIn(cs, arrays)
    reads cs.arr, arrays
  {
    if cs.arr == null then Nil else List(CellViews(cs, cs.len, arrays))
  }

  // Cell i of `a` becomes a copy of cell i of `cells`, in an environment array of its own.
  method CopyCell(cells: array<Cell>, i: nat, a: array<Cell>)
    requires i < cells.Length && i < a.Length && a != cells && cells[i].env.Valid()
    modifies a
    ensures forall j | 0 <= j < a.Length && j != i :: a[j] == old(a[j])
    ensures a[i].env.Valid() && fresh(a[i].env.Arrays())
    ensures CellView(a[i]) == CellView(cells[i])
  {
    var env := CopySlice(cells[i].env);
    a[i] := cells[i].(env := env);
  }

  method CopyCells(cells: array<Cell>, len: nat) returns (a: array<Cell>, ghost own: set<object>)
    requires len <= cells.Length && forall j | 0 <= j < len :: cells[j].env.Valid()
    ensures fresh(own + {a}) && a.Length == len && OwnEnvs(a, len, own)
    ensures forall j | 0 <= j < len :: CellView(a[j]) == CellView(cells[j])
  {
    a := new Cell[len];
    own := {};
    for i := 0 to len
      invariant fresh(own) && OwnEnvs(a, i, own)
      invariant forall j | 0 <= j < i :: CellView(a[j]) == CellView(cells[j])
    {
      CopyCell(cells, i, a);
      own := own + a[i].env.Arrays();
    }
  }

  // The generated copy of a container list: nil stays nil, anything else gets a new array
  // whose containers have environments of their own.
  method CopyContainers(cs: CellSlice, ghost arrays: set<object>) returns (r: CellSlice, ghost own: set<object>)
    requires ListIn(cs, arrays)
    ensures ListIn(r, own) && Unshared(r) && fresh(own)
    ensures ListView(r, own) == ListView(cs, arrays)
  {
    if cs.arr == null {
      return cs, {};
    }
    CellsInEach(cs, cs.len, arrays);
    var a, envs := CopyCells(cs.arr, cs.len);
    r, own := Slice(a, cs.len), envs + {a};
    CellsInEach(r, r.len, own);
    UnsharedEach(r, r.len);
    CellViewsEach(r, r.len, own);
    CellViewsEach(cs, cs.len, arrays);
    assert CellViews(r, r.len, own) == CellViews(cs, cs.len, arrays);
  }

  // ------------------------------------------------------------ injectEnv

  method HasEnvVar(c: Cell, v: EnvVar) returns (found: bool)
    requires c.env.Valid()
    ensures found <==> HasEnv(c.env.Cells(), v.name)
  {
    for i := 0 to c.env.len
      invariant !HasEnv(c.env.Cells()[..i], v.name)
    {
      if c.env.arr[i].name == v.name {
        assert c.env.Cells()[i].name == v.name;
        return true;
      }
    }
    assert c.env.Cells()[..c.env.len] == c.env.Cells();
    return false;
  }

  // One turn of the loop: cell i gets the variable unless it has one of that name.
  method InjectCell(cells: array<Cell>, i: nat, v: EnvVar)
    requires i < cells.Length && cells[i].env.Valid()
    modifies cells, cells[i].env.Arrays()
    ensures forall j | 0 <= j < cells.Length && j != i :: cells[j] == old(cells[j])
    ensures cells[i].env.Valid()
    ensures cells[i].env.arr == old(cells[i].env.arr) || fresh(cells[i].env.arr)
    ensures CellView(cells[i]) == Inject(old(CellView(cells[i])), v)
  {
    var container := cells[i];
    var found := HasEnvVar(container, v);
    if !found {
      var env := AppendOne(container.env, v);
      cells[i] := container.(env := env);
    }
  }

  // The loop of injectEnvVar over an array of containers whose environments lie in `arrays`.
  method InjectCells(cells: array<Cell>, len: nat, v: EnvVar,
                     ghost views: seq<Container<GoList<EnvVar>>>, ghost arrays: set<object>)
    returns (ghost now: set<object>)
    requires len == |views| && len <= cells.Length && OwnEnvs(cells, len, arrays)
    requires forall j | 0 <= j < len :: CellView(cells[j]) == views[j]
    modifies cells, arrays
    ensures OwnEnvs(cells, len, now) && fresh(now - arrays) && arrays <= now
    ensures forall j | 0 <= j < len :: CellView(cells[j]) == Inject(views[j], v)
  {
    now := arrays;
    for i := 0 to len
      invariant OwnEnvs(cells, len, now) && fresh(now - arrays) && arrays <= now
      invariant forall j | 0 <= j < i :: CellView(cells[j]) == Inject(views[j], v)
      invariant forall j | i <= j < len :: CellView(cells[j]) == views[j]
    {
      InjectCell(cells, i, v);
      now := now + cells[i].env.Arrays();
    }
  }

  // injectEnvVar on one container list: written through the list's array, each
  // environment in its own array or in a new one.
  method InjectInto(cs: CellSlice, v: EnvVar, ghost arrays: set<object>) returns (ghost now: set<object>)
    requires ListIn(cs, arrays) && Unshared(cs)
    modifies arrays
    ensures ListIn(cs, now) && Unshared(cs) && fresh(now - arrays)
    ensures ListView(cs, now) == InjectAll(old(ListView(cs, arrays)), v)
  {
    now := arrays;
    if cs.arr != null {
      ghost var views := CellViews(cs, cs.len, arrays);
      CellsInEach(cs, cs.len, arrays);
      UnsharedEach(cs, cs.len);
      CellViewsEach(cs, cs.len, arrays);
      now := InjectCells(cs.arr, cs.len, v, views, arrays);
      CellsInEach(cs, cs.len, now);
      UnsharedEach(cs, cs.len);
      CellViewsEach(cs, cs.len, now);
      assert CellViews(cs, cs.len, now) == InjectAll(List(views), v).items;
    }
  }

  // ------------------------------------------------------------ pods

  class PodObject {
    var name: string
    var generateName: string
    var labels: Labels
    var tolerations: Slice<Toleration>
    var containers: CellSlice
    var initContainers: CellSlice
    var rest: Opaque
    ghost var arrays: set<object>      // the arrays the containers reach
    ghost var initArrays: set<object>  // the arrays the init containers reach
    ghost var Repr: set<object>        // everything the pod reaches

    constructor (name: string, generateName: string, labels: Labels, tolerations: Slice<Toleration>,
                 containers: CellSlice, ghost arrays: set<object>,
                 initContainers: CellSlice, ghost initArrays: set<object>, rest: Opaque)
      requires tolerations.Valid() && ListIn(containers, arrays) && ListIn(initContainers, initArrays)
      ensures Valid() && Repr == {this} + tolerations.Arrays() + arrays + initArrays
      ensures this.tolerations == tolerations
      ensures this.containers == containers && this.arrays == arrays
      ensures this.initContainers == initContainers && this.initArrays == initArrays
      ensures Value() == Pod(name, generateName, labels, old(tolerations.View()), old(ListView(containers, arrays)),
                             old(ListView(initContainers, initArrays)), rest)
    {
      this.name, this.generateName, this.labels := name, generateName, labels;
      this.tolerations, this.rest := tolerations, rest;
      this.containers, this.arrays := containers, arrays;
      this.initContainers, this.initArrays := initContainers, initArrays;
      this.Repr := {this} + tolerations.Arrays() + arrays + initArrays;
    }

    ghost predicate Valid()
      reads this, containers.arr, initContainers.arr
    {
      && this in Repr && tolerations.Arrays() <= Repr && arrays <= Repr && initArrays <= Repr
      && tolerations.Valid() && ListIn(containers, arrays) && ListIn(initContainers, initArrays)
    }

    // No array is reachable in two ways, so a write through one list shows in that list only.
    ghost predicate NothingShared()
      requires Valid()
      reads this, containers.arr, initContainers.arr
    {
      && Unshared(containers) && Unshared(initContainers)
      && arrays !! initArrays && this !in arrays + initArrays
      && tolerations.Arrays() !! arrays + initArrays
    }

    ghost function Value(): Pod
      requires Valid()
      reads this, containers.arr, initContainers.arr, Repr
    {
      Pod(name, generateName, labels, tolerations.View(),
          ListView(containers, arrays), ListView(initContainers, initArrays), rest)
    }

    // Copies of the two container lists, in new arrays.
    method CopyLists() returns (cs: CellSlice, ghost own: set<object>, ics: CellSlice, ghost initOwn: set<object>)
      requires Valid()
      ensures ListIn(cs, own) && Unshared(cs) && ListIn(ics, initOwn) && Unshared(ics)
      ensures fresh(own) && fresh(initOwn) && own !! initOwn
      ensures ListView(cs, own) == old(ListView(containers, arrays))
      ensures ListView(ics, initOwn) == old(ListView(initContainers, initArrays))
    {
      cs, own := CopyContainers(containers, arrays);
      ics, initOwn := CopyContainers(initContainers, initArrays);
    }

    // Copies of all the pod's slices, in new arrays.
    method CopySlices() returns (ts: Slice<Toleration>, cs: CellSlice, ghost own: set<object>,
                                 ics: CellSlice, ghost initOwn: set<object>)
      requires Valid()
      ensures ts.Valid() && ListIn(cs, own) && Unshared(cs) && ListIn(ics, initOwn) && Unshared(ics)
      ensures fresh(ts.Arrays() + own + initOwn) && own !! initOwn && ts.Arrays() !! own + initOwn
      ensures Pod(name, generateName, labels, ts.View(), ListView(cs, own), ListView(ics, initOwn), rest)
              == old(Value())
    {
      ts := CopySlice(tolerations);
      cs, own, ics, initOwn := CopyLists();
    }

    // The generated DeepCopy. The source may share arrays; the copy never does.
    method DeepCopy() returns (copy: PodObject)
      requires Valid()
      ensures copy.Valid() && copy.NothingShared() && fresh(copy.Repr)
      ensures copy.Value() == old(Value())
    {
      var ts, cs, own, ics, initOwn := CopySlices();
      copy := new PodObject(name, generateName, labels, ts, cs, own, ics, initOwn, rest);
    }

    // The assignment of a new toleration slice.
    method SetTolerations(ts: Slice<Toleration>)
      requires Valid() && NothingShared()
      requires ts.Valid() && ts.Arrays() !! arrays + initArrays
      modifies this`tolerations, this`Repr
      ensures tolerations == ts && Repr == old(Repr) + ts.Arrays()
      ensures Valid() && NothingShared()
      ensures Value() == old(Value()).(tolerations := old(ts.View()))
    {
      tolerations := ts;
      Repr := Repr + ts.Arrays();
    }

    // The two loops of injectEnvVar: containers first, then init containers, both in place.
    method InjectLists(v: EnvVar) returns (ghost now: set<object>, ghost initNow: set<object>)
      requires Valid() && NothingShared()
      modifies arrays + initArrays
      ensures ListIn(containers, now) && Unshared(containers) && fresh(now - arrays)
      ensures ListIn(initContainers, initNow) && Unshared(initContainers) && fresh(initNow - initArrays)
      ensures now !! initNow
      ensures ListView(containers, now) == InjectAll(old(ListView(containers, arrays)), v)
      ensures ListView(initContainers, initNow) == InjectAll(old(ListView(initContainers, initArrays)), v)
    {
      now := InjectInto(containers, v, arrays);
      initNow := InjectInto(initContainers, v, initArrays);
    }

    // The arrays that the lists have come to reach.
    ghost method Reaches(now: set<object>, initNow: set<object>)
      requires tolerations.Valid() && this in Repr && tolerations.Arrays() <= Repr
      requires ListIn(containers, now) && ListIn(initContainers, initNow)
      requires this !in now + initNow
      modifies this`arrays, this`initArrays, this`Repr
      ensures arrays == now && initArrays == initNow && Repr == old(Repr) + now + initNow
      ensures Valid()
      ensures Value() == old(Pod(name, generateName, labels, tolerations.View(), ListView(containers, now),
                                 ListView(initContainers, initNow), rest))
    {
      arrays, initArrays := now, initNow;
      Repr := Repr + now + initNow;
    }

    // injectEnvVar
    method InjectEnvVar(v: EnvVar)
      requires Valid() && NothingShared()
      modifies Repr
      ensures Valid() && NothingShared() && fresh(Repr - old(Repr))
      ensures Value() == old(Value()).(containers := InjectAll(old(Value()).containers, v),
                                       initContainers := InjectAll(old(Value()).initContainers, v))
    {
      ghost var now, initNow := InjectLists(v);
      Reaches(now, initNow);
    }
  }
}
