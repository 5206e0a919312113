/** Go slices: a window on a backing array that other slices may share. */
module Slices {
  /** A nil slice has no items and an empty array of its own behind it. */
  datatype Slice<T> = Slice(data: array<T>, len: nat, isNil: bool) {
    predicate Valid() { len <= data.Length && (isNil ==> len == 0) }

    function Items(): (items: seq<T>)
      requires Valid()
      reads data
    {
      data[..len]
    }
  }

  method Nil<T(0)>() returns (s: Slice<T>)
    ensures s.Valid() && s.isNil && s.Items() == [] && fresh(s.data)
  {
    var data := new T[0];
    return Slice(data, 0, true);
  }

  /** `make` and `copy`: equal items in an array of its own; nil stays nil. */
  method Copy<T(0)>(s: Slice<T>) returns (t: Slice<T>)
    requires s.Valid()
    ensures t.Valid() && t.Items() == s.Items() && t.isNil == s.isNil
    ensures fresh(t.data)
  {
    if s.isNil {
      t := Nil();
      return;
    }
    var data := new T[s.len];
    for i := 0 to s.len
      invariant data[..i] == s.data[..i]
    {
      data[i] := s.data[i];
    }
    assert data[..s.len] == s.data[..s.len];
    return Slice(data, s.len, false);
  }

  /** `append` of one item: into the spare capacity if there is any, else into a larger array. */
  method Append<T(0)>(s: Slice<T>, x: T) returns (t: Slice<T>)
    requires s.Valid()
    modifies s.data
    ensures t.Valid() && !t.isNil && t.Items() == old(s.Items()) + [x]
    ensures t.data == s.data || fresh(t.data)
  {
    var n := s.len;
    if n < s.data.Length {
      s.data[n] := x;
      return Slice(s.data, n + 1, false);
    }
    var data := new T[2 * n + 1];
    for i := 0 to n
      invariant data[..i] == s.data[..i]
      invariant s.Items() == old(s.Items())
    {
      data[i] := s.data[i];
    }
    data[n] := x;
    assert data[..n + 1] == s.Items() + [x];
    return Slice(data, n + 1, false);
  }
}
