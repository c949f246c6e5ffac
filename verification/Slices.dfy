/** A growable slice: a backing array and a length. Two slices may share one backing array, and an
    append writes into it while there is room, so it can overwrite what a longer sibling holds. */
module Slices {

  datatype Slice<T> = Slice(data: array<T>, len: nat)
  {
    ghost predicate Valid() { len <= data.Length }

    ghost function View(): seq<T>
      requires Valid()
      reads data
    {
      data[..len]
    }
  }

  method Append<T(0)>(s: Slice<T>, x: T) returns (r: Slice<T>)
    requires s.Valid()
    modifies s.data
    ensures r.Valid() && r.data.Length > 0 && (r.data == s.data || fresh(r.data))
    ensures r.View() == old(s.View()) + [x]
    ensures s.View() == old(s.View())
  {
    if s.len < s.data.Length {
      s.data[s.len] := x;
      assert s.data[..s.len + 1] == s.data[..s.len] + [x];
      r := Slice(s.data, s.len + 1);
    } else {
      var data := new T[2 * s.data.Length + 1];
      for i := 0 to s.len
        invariant data[..i] == s.data[..i] && s.data[..] == old(s.data[..])
      {
        data[i] := s.data[i];
      }
      data[s.len] := x;
      assert data[..s.len + 1] == data[..s.len] + [x];
      r := Slice(data, s.len + 1);
    }
  }

  /** A slice holds what the one extended from it holds, up to its own length. */
  lemma StillHeld<T>(s: Slice<T>, longer: Slice<T>, was: seq<T>, all: seq<T>)
    requires s.Valid() && longer.Valid() && longer.data == s.data && s.len <= longer.len
    requires longer.View() == all && was == all[..s.len]
    ensures s.View() == was
  {
  }
}
