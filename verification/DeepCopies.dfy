/**
The generated deep copies of the operator's API types: spec, status, custom resource and
list. Slices share backing arrays until they are copied; nil slices stay nil.
*/
module DeepCopies {
  import opened GoSlices

  // S is how the structs hold a list of strings: a Slice, or a GoList once looked at as a value.
  datatype Spec<S> = Spec(size: int, image: string, postgresqlDB: bool, dbServers: S, database: string,
                          dbUser: string, dbPass: string)
  datatype Status<S> = Status(nodes: S)
  datatype Operator<S> = Operator(typeMeta: string, objectMeta: string, spec: Spec<S>, status: Status<S>)

  // The struct as it lies in memory, and as a value.
  type Item = Operator<Slice<string>>
  type ItemValue = Operator<GoList<string>>

  ghost predicate ValidItem(x: Item) {
    x.spec.dbServers.Valid() && x.status.nodes.Valid()
  }

  ghost function ItemArrays(x: Item): set<object> {
    x.spec.dbServers.Arrays() + x.status.nodes.Arrays()
  }

  ghost function ItemView(x: Item): ItemValue
    requires ValidItem(x)
    reads ItemArrays(x)
  {
    Operator(x.typeMeta, x.objectMeta,
             Spec(x.spec.size, x.spec.image, x.spec.postgresqlDB, x.spec.dbServers.View(), x.spec.database,
                  x.spec.dbUser, x.spec.dbPass),
             Status(x.status.nodes.View()))
  }

  // ------------------------------------------------------------ one custom resource

  method CopySpec(spec: Spec<Slice<string>>) returns (out: Spec<Slice<string>>)
    requires spec.dbServers.Valid()
    ensures out.dbServers.Valid() && fresh(out.dbServers.Arrays())
    ensures out.dbServers.View() == spec.dbServers.View() && out == spec.(dbServers := out.dbServers)
  {
    out := spec;
    if spec.dbServers.arr != null {
      var copy := CopySlice(spec.dbServers);
      out := out.(dbServers := copy);
    }
  }

  method CopyStatus(status: Status<Slice<string>>) returns (out: Status<Slice<string>>)
    requires status.nodes.Valid()
    ensures out.nodes.Valid() && fresh(out.nodes.Arrays())
    ensures out.nodes.View() == status.nodes.View()
  {
    out := status;
    if status.nodes.arr != null {
      var copy := CopySlice(status.nodes);
      out := out.(nodes := copy);
    }
  }

  method CopyItem(x: Item) returns (out: Item)
    requires ValidItem(x)
    ensures ValidItem(out) && fresh(ItemArrays(out)) && Apart(out.spec.dbServers, out.status.nodes)
    ensures ItemView(out) == old(ItemView(x))
  {
    var spec := CopySpec(x.spec);
    var status := CopyStatus(x.status);
    out := x.(spec := spec, status := status);
  }

  // ------------------------------------------------------------ a list of them

  // Of the first n items: all valid, all arrays in `arrays`.
  ghost predicate ItemsIn(items: Slice<Item>, n: nat, arrays: set<object>)
    requires items.Valid() && n <= items.len
    reads items.arr
  {
    n == 0 ||
    (ItemsIn(items, n - 1, arrays) && ValidItem(items.arr[n - 1]) && ItemArrays(items.arr[n - 1]) <= arrays)
  }

  ghost function ItemViews(items: Slice<Item>, n: nat, arrays: set<object>): seq<ItemValue>
    requires items.Valid() && n <= items.len && ItemsIn(items, n, arrays)
    reads items.arr, arrays
  {
    if n == 0 then [] else ItemViews(items, n - 1, arrays) + [ItemView(items.arr[n - 1])]
  }

  predicate Apart(s: Slice<string>, t: Slice<string>) {
    s.arr == null || s.arr != t.arr
  }

  // No array is reached by both items.
  predicate ItemsApart(x: Item, y: Item) {
    && Apart(x.spec.dbServers, y.spec.dbServers) && Apart(x.spec.dbServers, y.status.nodes)
    && Apart(x.status.nodes, y.spec.dbServers) && Apart(x.status.nodes, y.status.nodes)
  }

  ghost predicate ItemIn(x: Item, arrays: set<object>) {
    && ValidItem(x) && Apart(x.spec.dbServers, x.status.nodes)
    && (x.spec.dbServers.arr == null || x.spec.dbServers.arr in arrays)
    && (x.status.nodes.arr == null || x.status.nodes.arr in arrays)
  }

  // Item by item: valid, in `arrays`, and no array is reached twice, within an item or by two.
  ghost predicate OwnItems(items: array<Item>, len: nat, arrays: set<object>)
    requires len <= items.Length
    reads items
  {
    && (forall j | 0 <= j < len :: ItemIn(items[j], arrays))
    && (forall j, k | 0 <= j < k < len :: ItemsApart(items[j], items[k]))
  }

  lemma ItemsInEach(items: Slice<Item>, n: nat, arrays: set<object>)
    requires items.Valid() && n <= items.len
    ensures ItemsIn(items, n, arrays) <==>
            forall j | 0 <= j < n :: ValidItem(items.arr[j]) && ItemArrays(items.arr[j]) <= arrays
  {
  }

  lemma ItemViewsEach(items: Slice<Item>, n: nat, arrays: set<object>)
    requires items.Valid() && n <= items.len && ItemsIn(items, n, arrays)
    ensures |ItemViews(items, n, arrays)| == n
    ensures forall j | 0 <= j < n ::
              ValidItem(items.arr[j]) && ItemViews(items, n, arrays)[j] == ItemView(items.arr[j])
  {
  }

  // One more copy at the end of those made so far.
  method CopyItemAt(x: Item, a: array<Item>, i: nat, ghost own: set<object>) returns (ghost now: set<object>)
    requires i < a.Length && ValidItem(x) && OwnItems(a, i, own)
    modifies a
    ensures OwnItems(a, i + 1, now) && fresh(now - own) && own <= now
    ensures (forall j | 0 <= j < i :: a[j] == old(a[j])) && ItemView(a[i]) == old(ItemView(x))
  {
    var copy := CopyItem(x);
    a[i] := copy;
    now := own + ItemArrays(copy);
  }

  // The item loop of the list's copy.
  method CopyItems(items: array<Item>, len: nat, ghost views: seq<ItemValue>)
    returns (a: array<Item>, ghost own: set<object>)
    requires len <= items.Length && len == |views|
    requires forall j | 0 <= j < len :: ValidItem(items[j]) && ItemView(items[j]) == views[j]
    ensures fresh(own + {a}) && a.Length == len && OwnItems(a, len, own)
    ensures forall j | 0 <= j < len :: ItemView(a[j]) == views[j]
  {
    a := new Item[len];
    own := {};
    for i := 0 to len
      invariant fresh(own) && OwnItems(a, i, own)
      invariant forall j | 0 <= j < i :: ItemView(a[j]) == views[j]
    {
      own := CopyItemAt(items[i], a, i, own);
    }
  }

  class OperatorList {
    var typeMeta: string
    var listMeta: string
    var items: Slice<Item>
    ghost var arrays: set<object>  // the arrays that the items reach

    constructor (typeMeta: string, listMeta: string, items: Slice<Item>, ghost arrays: set<object>)
      ensures this.typeMeta == typeMeta && this.listMeta == listMeta && this.items == items && this.arrays == arrays
    {
      this.typeMeta, this.listMeta, this.items, this.arrays := typeMeta, listMeta, items, arrays;
    }

    ghost predicate Valid()
      reads this, items.arr
    {
      items.Valid() && ItemsIn(items, items.len, arrays)
    }

    ghost function Reachable(): set<object>
      reads this
    {
      {this} + items.Arrays() + arrays
    }

    ghost predicate NothingShared()
      requires Valid()
      reads this, items.arr
    {
      items.arr != null ==> OwnItems(items.arr, items.len, arrays)
    }

    ghost function Value(): (string, string, GoList<ItemValue>)
      requires Valid()
      reads this, items.arr, Reachable()
    {
      (typeMeta, listMeta, if items.arr == null then Nil else List(ItemViews(items, items.len, arrays)))
    }

    // One of the writes that separation is for: node j of item i.
    method WriteNode(i: nat, j: nat, name: string)
      requires Valid() && NothingShared()
      requires i < items.len && j < items.arr[i].status.nodes.len
      modifies items.arr[i].status.nodes.arr
      ensures Valid() && NothingShared()
      ensures items.arr[i].status.nodes.Cells() == old(items.arr[i].status.nodes.Cells())[j := name]
      ensures items.arr[i].spec.dbServers.View() == old(items.arr[i].spec.dbServers.View())
      ensures forall k | 0 <= k < items.len && k != i :: ItemView(items.arr[k]) == old(ItemView(items.arr[k]))
    {
      ItemsInEach(items, items.len, arrays);
      items.arr[i].status.nodes.arr[j] := name;
      ItemsInEach(items, items.len, arrays);
    }
  }

  method CopyItemSlice(items: Slice<Item>, ghost arrays: set<object>) returns (r: Slice<Item>, ghost own: set<object>)
    requires items.Valid() && ItemsIn(items, items.len, arrays)
    ensures r.Valid() && ItemsIn(r, r.len, own) && fresh(own + r.Arrays())
    ensures (r.arr == null <==> items.arr == null) && r.len == items.len
    ensures r.arr != null ==> OwnItems(r.arr, r.len, own)
    ensures ItemViews(r, r.len, own) == old(ItemViews(items, items.len, arrays))
  {
    if items.arr == null {
      return items, {};
    }
    ghost var views := ItemViews(items, items.len, arrays);
    ItemsInEach(items, items.len, arrays);
    ItemViewsEach(items, items.len, arrays);
    var a;
    a, own := CopyItems(items.arr, items.len, views);
    r := Slice(a, items.len);
    ItemsInEach(r, r.len, own);
    ItemViewsEach(r, r.len, own);
    assert ItemViews(r, r.len, own) == views;
  }

  // DeepCopy of a list: nil gives nil; otherwise a list of the same value, made of arrays
  // that are new and that no two items share, whatever the source shares.
  method DeepCopy(l: OperatorList?) returns (copy: OperatorList?)
    requires l != null ==> l.Valid()
    ensures copy == null <==> l == null
    ensures copy != null ==> copy.Valid() && copy.NothingShared() && fresh(copy.Reachable())
    ensures copy != null ==> copy.Value() == old(l.Value())
  {
    if l == null {
      return null;
    }
    var items, own := CopyItemSlice(l.items, l.arrays);
    copy := new OperatorList(l.typeMeta, l.listMeta, items, own);
  }
}
