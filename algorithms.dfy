/** The standard algorithms the vector applies to its buffers: std::fill,
    std::copy / std::move into a new buffer, and the in-place shifts
    std::move_backward and std::move used by Insert and Erase. */
module Algorithms {

  /** n copies of v. */
  function Repeat<T>(v: T, n: nat): (r: seq<T>)
    ensures |r| == n
    ensures forall i :: 0 <= i < n ==> r[i] == v
    decreases n
  {
    if n == 0 then [] else Repeat(v, n - 1) + [v]
  }

  /** std::fill(a + from, a + to, v). */
  method Fill<T>(a: array<T>, from: nat, to: nat, v: T)
    requires from <= to <= a.Length
    modifies a
    ensures a[..from] == old(a[..from])
    ensures a[from..to] == Repeat(v, to - from)
    ensures a[to..] == old(a[to..])
  {
    var i := from;
    while i < to
      invariant from <= i <= to
      invariant forall k :: 0 <= k < from || i <= k < a.Length ==> a[k] == old(a[k])
      invariant forall k :: from <= k < i ==> a[k] == v
    {
      a[i] := v;
      i := i + 1;
    }
  }

  /** std::copy / std::move of the elements src into the front of dst. */
  method CopyInto<T>(src: seq<T>, dst: array<T>)
    requires |src| <= dst.Length
    modifies dst
    ensures dst[..|src|] == src
    ensures dst[|src|..] == old(dst[|src|..])
  {
    var i := 0;
    while i < |src|
      invariant 0 <= i <= |src|
      invariant forall k :: 0 <= k < i ==> dst[k] == src[k]
      invariant forall k :: i <= k < dst.Length ==> dst[k] == old(dst[k])
    {
      dst[i] := src[i];
      i := i + 1;
    }
  }

  /** std::move_backward(a + from, a + to, a + to + 1): the elements of
      [from, to) move one slot right; slot from keeps a moved-from value. */
  method ShiftRight<T>(a: array<T>, from: nat, to: nat)
    requires from <= to < a.Length
    modifies a
    ensures a[..from] == old(a[..from])
    ensures a[from + 1..to + 1] == old(a[from..to])
    ensures forall k :: from < k <= to ==> a[k] == old(a[k - 1])
    ensures a[to + 1..] == old(a[to + 1..])
  {
    var i := to;
    while i > from
      invariant from <= i <= to
      invariant forall k :: 0 <= k <= i || to < k < a.Length ==> a[k] == old(a[k])
      invariant forall k :: i < k <= to ==> a[k] == old(a[k - 1])
    {
      a[i] := a[i - 1];
      i := i - 1;
    }
  }

  /** std::move_backward(a + index, a + len, a + len + 1) followed by
      a[index] = value: value is inserted at index among the first len slots. */
  method InsertInto<T>(a: array<T>, index: nat, len: nat, value: T)
    requires index <= len < a.Length
    modifies a
    ensures a[..len + 1] == old(a[..index]) + [value] + old(a[index..len])
    ensures a[len + 1..] == old(a[len + 1..])
  {
    ShiftRight(a, index, len);
    a[index] := value;
    assert a[..len + 1] == old(a[..index]) + [value] + old(a[index..len]) by {
      assert forall k :: 0 <= k < index ==> a[k] == old(a[k]);
      assert forall k :: index < k <= len ==> a[k] == old(a[k - 1]);
    }
  }

  /** std::move(a + from + 1, a + to, a + from): the elements of
      [from + 1, to) move one slot left; slot to - 1 keeps a moved-from value. */
  method ShiftLeft<T>(a: array<T>, from: nat, to: nat)
    requires from < to <= a.Length
    modifies a
    ensures a[..from] == old(a[..from])
    ensures a[from..to - 1] == old(a[from + 1..to])
    ensures a[to..] == old(a[to..])
  {
    var i := from;
    while i < to - 1
      invariant from <= i <= to - 1
      invariant forall k :: 0 <= k < from || i <= k < a.Length ==> a[k] == old(a[k])
      invariant forall k :: from <= k < i ==> a[k] == old(a[k + 1])
    {
      a[i] := a[i + 1];
      i := i + 1;
    }
  }
}
