/** The cache of byte values: nxcomp/src/CharCache.cpp and CharCache.h. */
module CharCache {
  import opened Words
  import opened SelfOrganising
  import opened Shifting

  const CAPACITY := 7

  /** The live entries, as the codecs see them. */
  type Chars = s: seq<Byte> | |s| <= CAPACITY

  class CharCache {
    var length: nat
    const buffer: array<Byte>

    ghost predicate Valid()
      reads this
    {
      buffer.Length == CAPACITY && length <= CAPACITY
    }

    ghost function Entries(): Chars
      requires Valid()
      reads this, buffer
    {
      buffer[..length]
    }

    constructor ()
      ensures Valid() && fresh(buffer) && Entries() == []
    {
      length := 0;
      buffer := new Byte[CAPACITY];
    }

    method Lookup(value: Byte) returns (found: bool, index: nat)
      requires Valid()
      modifies this, buffer
      ensures Valid()
      ensures found <==> value in old(Entries())
      ensures found ==> index == Find(old(Entries()), value)
      ensures Entries() == SelfOrganising.Lookup(old(Entries()), value, CAPACITY, BehindTwo).1
    {
      index := 0;
      while index < length
        invariant index <= length && value !in buffer[..index]
      {
        if value == buffer[index] {
          FindIs(Entries(), value, index);
          MoveToHalf(buffer, length, index);
          return true, index;
        }
        assert buffer[..index + 1] == buffer[..index] + [buffer[index]];
        index := index + 1;
      }
      Insert(value);
      found := false;
    }

    method Insert(value: Byte)
      requires Valid()
      modifies this, buffer
      ensures Valid()
      ensures Entries() == Miss(old(Entries()), value, CAPACITY, BehindTwo)
      ensures var was, n := old(Entries()), if old(length) < 2 then old(length) else 2;
              length == (if |was| < 7 then |was| + 1 else 7) &&
              Entries()[..n] == was[..n] && Entries()[n] == value && Entries()[n + 1..] == was[n..length - 1]
    {
      var insertionPoint := if 2 >= length then length else 2;
      length := InsertShifting(buffer, length, insertionPoint, value);
    }

    /** get: an entry, or the unused element behind the entries, which joins them then and pushes
        the last one out. */
    method Get(index: nat) returns (result: Byte)
      requires Valid() && index <= length && index < CAPACITY
      modifies this, buffer
      ensures Valid() && length == old(length)
      ensures result == old(buffer[index])
      ensures index < length ==> Entries() == Promote(old(Entries()), index)
      ensures index == length ==> Entries() == Promote(old(buffer[..length + 1]), length)[..length]
    {
      result := buffer[index];
      MoveToHalf(buffer, if index < length then length else length + 1, index);
    }
  }
}
