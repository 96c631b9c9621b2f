/**
 The shifting loops of the caches, on an array whose first `length` elements are in use.
 CharCache, IntCache and BlockCacheSet each contain these loops.
 */
module Shifting {
  import opened SelfOrganising

  /** Moves the element at `index` to half its index; the ones in between go up by one. */
  method MoveToHalf<T>(a: array<T>, length: nat, index: nat)
    requires index < length <= a.Length
    modifies a
    ensures a[..length] == Promote(old(a[..length]), index)
    ensures a[length..] == old(a[length..])
  {
    if index != 0 {
      var save := a[index];
      var target := index / 2;
      var i := index;
      while i > target
        invariant target <= i <= index
        invariant forall j :: 0 <= j < a.Length ==> a[j] == old(if i < j <= index then a[j - 1] else a[j])
      {
        a[i] := a[i - 1];
        i := i - 1;
      }
      a[target] := save;
    }
    ghost var was := old(a[..length]);
    forall j | 0 <= j < length ensures a[..length][j] == Promote(was, index)[j] {
      PromoteAt(was, index, j);
    }
  }

  /** Opens a gap at index `at`: the element at `start`, which is unused or the last one of a
      full array, goes there and the ones in between go up by one. */
  method RotateDown<T>(a: array<T>, at: nat, start: nat)
    requires at <= start < a.Length
    modifies a
    ensures a[at] == old(a[start])
    ensures forall j :: 0 <= j < a.Length && j != at ==> a[j] == old(if at < j <= start then a[j - 1] else a[j])
  {
    var save := a[start];
    var k := start;
    while k > at
      invariant at <= k <= start
      invariant forall j :: 0 <= j < a.Length ==> a[j] == old(if k < j <= start then a[j - 1] else a[j])
    {
      a[k] := a[k - 1];
      k := k - 1;
    }
    a[at] := save;
  }

  /** Inserts v at index `at` of an array in use up to `length`, dropping the last element of
      a full one; returns the new length. */
  method InsertShifting<T>(a: array<T>, length: nat, at: nat, v: T) returns (newLength: nat)
    requires at <= length <= a.Length && at < a.Length
    modifies a
    ensures newLength == if length == a.Length then length else length + 1
    ensures a[..newLength] == InsertAt(old(a[..length]), v, a.Length, at)
  {
    var start;
    if length >= a.Length {
      start := a.Length - 1;
      newLength := length;
    } else {
      start := length;
      newLength := length + 1;
    }
    ghost var was := a[..length];
    RotateDown(a, at, start);
    a[at] := v;
    forall j | 0 <= j < newLength ensures a[..newLength][j] == InsertAt(was, v, a.Length, at)[j] {
      InsertAtIs(was, v, a.Length, at, j);
    }
  }
}
