/**
Go's slices, twice: as values (`GoList`, which keeps the nil slice apart from the
empty one) and as headers over a shared backing array (`Slice`).
*/
module GoSlices {

  datatype Option<+T> = None | Some(value: T)

  // What a Go slice holds, as reflect.DeepEqual sees it: nil and [] differ.
  datatype GoList<T> = Nil | List(items: seq<T>) {
    function Items(): seq<T> {
      if Nil? then [] else items
    }

    // The builtin append(l, xs...): appending nothing returns l itself, nil included.
    function Append(xs: seq<T>): GoList<T> {
      if xs == [] then this else List(Items() + xs)
    }
  }

  // A slice header. The nil slice has no array; capacity is arr.Length. The source
  // never reslices, so every slice starts at offset 0 of its array.
  datatype Slice<T> = Slice(arr: array?<T>, len: nat) {
    ghost predicate Valid() {
      if arr == null then len == 0 else len <= arr.Length
    }

    function Arrays(): set<object> {
      if arr == null then {} else {arr}
    }

    function Cells(): (s: seq<T>)
      requires Valid()
      reads arr
      ensures |s| == len
    {
      if arr == null then [] else arr[..len]
    }

    function View(): GoList<T>
      requires Valid()
      reads arr
    {
      if arr == null then Nil else List(arr[..len])
    }
  }

  // The builtin append for one element: in place while there is spare capacity,
  // otherwise into a new, larger array.
  method AppendOne<T(0)>(s: Slice<T>, x: T) returns (r: Slice<T>)
    requires s.Valid()
    modifies s.Arrays()
    ensures r.Valid() && r.arr != null
    ensures r.arr == s.arr || fresh(r.arr)
    ensures s.Cells() == old(s.Cells())
    ensures r.Cells() == old(s.Cells()) + [x]
  {
    if s.arr != null && s.len < s.arr.Length {
      s.arr[s.len] := x;
      r := Slice(s.arr, s.len + 1);
    } else {
      var a := new T[2 * s.len + 1];
      for i := 0 to s.len
        invariant a[..i] == old(s.Cells())[..i]
        invariant s.arr != null ==> s.arr[..] == old(s.arr[..])
      {
        a[i] := s.arr[i];
      }
      a[s.len] := x;
      r := Slice(a, s.len + 1);
    }
  }

  // The builtin append(s, xs...).
  method AppendAll<T(0)>(s: Slice<T>, xs: Slice<T>) returns (r: Slice<T>)
    requires s.Valid() && xs.Valid()
    requires s.arr == null || s.arr != xs.arr
    modifies s.Arrays()
    ensures r.Valid()
    ensures r.arr == s.arr || fresh(r.arr)
    ensures r.View() == old(s.View()).Append(old(xs.Cells()))
  {
    r := s;
    for i := 0 to xs.len
      invariant r.Valid() && (r.arr == s.arr || fresh(r.arr))
      invariant xs.Cells() == old(xs.Cells())
      invariant r.View() == old(s.View()).Append(old(xs.Cells())[..i])
    {
      r := AppendOne(r, xs.arr[i]);
    }
  }

  // The generated copy of a slice of plain values: nil stays nil, anything else gets
  // an array of its own, exactly as long as the slice.
  method CopySlice<T(0)>(s: Slice<T>) returns (r: Slice<T>)
    requires s.Valid()
    ensures r.Valid() && fresh(r.Arrays())
    ensures r.View() == s.View()
  {
    if s.arr == null {
      return s;
    }
    var a := new T[s.len];
    for i := 0 to s.len
      invariant a[..i] == s.arr[..i]
    {
      a[i] := s.arr[i];
    }
    r := Slice(a, s.len);
  }
}
