/** Go slices of integers: a window of an array that several slices may share. */
module GoSlices {
  datatype Slice = Slice(arr: array<int>, len: nat) {
    predicate Valid() {
      len <= arr.Length
    }

    function Elems(): seq<int>
      requires Valid()
      reads arr
    {
      arr[..len]
    }
  }

  method MakeSlice(n: nat) returns (s: Slice)
    ensures s.Valid() && s.len == n && s.arr.Length == n && fresh(s.arr)
  {
    var arr := new int[n];
    s := Slice(arr, n);
  }

  /** append(s, x): in place when there is spare capacity, else into a bigger copy. */
  method Append(s: Slice, x: int) returns (r: Slice)
    requires s.Valid()
    modifies s.arr
    ensures r.Valid() && r.Elems() == old(s.Elems()) + [x]
    ensures s.Elems() == old(s.Elems())
    ensures if s.len < s.arr.Length then r.arr == s.arr else fresh(r.arr)
  {
    if s.len < s.arr.Length {
      s.arr[s.len] := x;
      r := Slice(s.arr, s.len + 1);
    } else {
      var bigger := new int[2 * s.len + 1];
      var i := 0;
      while i < s.len
        invariant i <= s.len
        invariant bigger[..i] == s.arr[..i]
        invariant s.Elems() == old(s.Elems())
      {
        bigger[i] := s.arr[i];
        i := i + 1;
      }
      bigger[s.len] := x;
      r := Slice(bigger, s.len + 1);
    }
  }

  /** tmp := make([]int, len(s)); copy(tmp, s) */
  method Copy(s: Slice) returns (r: Slice)
    requires s.Valid()
    ensures r.Valid() && fresh(r.arr) && r.Elems() == s.Elems()
  {
    r := MakeSlice(s.len);
    forall i | 0 <= i < s.len {
      r.arr[i] := s.arr[i];
    }
  }
}
