/** Sets of blocks: nxcomp/src/BlockCacheSet.cpp. */
module BlockCacheSet {
  import opened Buffers
  import opened SelfOrganising
  import opened Shifting
  import opened BlockCache

  // ----- Rearranging -----

  /** Where the element comes from that is at index i after a hit at `index`. */
  function Source(index: nat, i: nat): nat {
    if i == index / 2 then index else if index / 2 < i <= index then i - 1 else i
  }

  /** A hit rearranges the first n elements. */
  ghost predicate Rearranged<T>(s: seq<T>, r: seq<T>, n: nat, index: nat) {
    index < n <= |s| == |r| && forall i :: 0 <= i < |s| ==> r[i] == s[if i < n then Source(index, i) else i]
  }

  lemma PromotedIsRearranged<T>(s: seq<T>, r: seq<T>, n: nat, index: nat)
    requires index < n <= |s| == |r| && r[..n] == Promote(s[..n], index) && r[n..] == s[n..]
    ensures Rearranged(s, r, n, index) && multiset(r) == multiset(s)
  {
    forall i | 0 <= i < |s| ensures r[i] == s[if i < n then Source(index, i) else i] {
      if i < n {
        PromoteAt(s[..n], index, i);
        assert r[i] == r[..n][i];
      } else {
        assert r[i] == r[n..][i - n] == s[n..][i - n];
      }
    }
    PromotePermutes(s[..n], index);
    assert s == s[..n] + s[n..] && r == r[..n] + r[n..];
  }

  /** Element `start` has moved down to `at`, and those in between have moved up by one. */
  ghost predicate Rotated<T>(s: seq<T>, r: seq<T>, at: nat, start: nat) {
    at <= start < |s| == |r| &&
    forall i :: 0 <= i < |s| ==> r[i] == s[if i == at then start else if at < i <= start then i - 1 else i]
  }

  function Rotate<T>(s: seq<T>, at: nat, start: nat): (r: seq<T>)
    requires at <= start < |s|
    ensures |r| == |s|
  {
    s[..at] + [s[start]] + s[at..start] + s[start + 1..]
  }

  lemma RotateIsRotated<T>(s: seq<T>, at: nat, start: nat)
    requires at <= start < |s|
    ensures Rotated(s, Rotate(s, at, start), at, start)
  {
  }

  lemma RotatedSame<T>(s: seq<T>, r: seq<T>, at: nat, start: nat)
    requires Rotated(s, r, at, start)
    ensures multiset(r) == multiset(s)
  {
    assert s == s[..at] + s[at..start] + [s[start]] + s[start + 1..];
    assert r == s[..at] + [s[start]] + s[at..start] + s[start + 1..];
  }

  /** A block moved down and overwritten is a block inserted. */
  lemma RotatedInsert(bs: seq<Bytes>, length: nat, at: nat, data: Bytes)
    requires at <= length <= |bs| && at < |bs|
    ensures var start, n := if length == |bs| then |bs| - 1 else length, if length == |bs| then length else length + 1;
            Rotate(bs, at, start)[at := data][..n] == InsertAt(bs[..length], data, |bs|, at)
  {
  }

  /** What a search from the front has found. */
  lemma FoundAt<T>(s: seq<T>, v: T, i: nat, found: bool)
    requires i <= |s| && (found ==> i < |s| && s[i] == v) && (!found ==> i == |s|)
    requires forall j :: 0 <= j < i ==> s[j] != v
    ensures found <==> v in s
    ensures found ==> i == Find(s, v)
  {
    if found {
      assert v !in s[..i];
      FindIs(s, v, i);
    }
  }

  class BlockCacheSet {
    const caches: array<BlockCache>
    var length: nat
    /** The contents of all blocks, in the order of `caches`. */
    ghost var contents: seq<Bytes>

    /** Every block has a buffer of its own, hence is an object of its own. */
    ghost predicate Valid()
      reads this, caches, caches[..], set c | c in caches[..] :: c.buffer
    {
      && 1 <= caches.Length == |contents| && length <= caches.Length
      && (forall i :: 0 <= i < caches.Length ==> caches[i].Valid() && caches[i].Contents() == contents[i])
      && (forall i, j :: 0 <= i < j < caches.Length ==> caches[i].buffer != caches[j].buffer)
    }

    /** The contents of the blocks in use. */
    ghost function Blocks(): (bs: seq<Bytes>)
      requires length <= |contents|
      reads this
      ensures |bs| == length
    {
      contents[..length]
    }

    constructor (numCaches: nat)
      requires 1 <= numCaches
      ensures Valid() && Blocks() == [] && caches.Length == numCaches
    {
      var blank := new BlockCache();
      caches := new BlockCache[numCaches](_ => blank);
      length := 0;
      contents := seq(numCaches, _ => []);
      new;
      var i := 0;
      while i < numCaches
        invariant i <= numCaches == caches.Length == |contents| && length == 0 && fresh(caches)
        invariant forall j :: 0 <= j < numCaches ==> contents[j] == []
        invariant forall j :: 0 <= j < i ==>
          fresh(caches[j].buffer) && caches[j].Valid() && caches[j].Contents() == []
        invariant forall j, k :: 0 <= j < k < i ==> caches[j].buffer != caches[k].buffer
        modifies caches
      {
        caches[i] := new BlockCache();
        i := i + 1;
      }
    }

    /** A hit moves the block to half its index; no block is touched. */
    method MoveUp(index: nat)
      requires Valid() && index < length
      modifies caches, this`contents
      ensures Valid() && multiset(caches[..]) == old(multiset(caches[..]))
      ensures Blocks() == Promote(old(Blocks()), index)
    {
      ghost var was, held := caches[..], contents;
      MoveToHalf(caches, length, index);
      contents := Promote(contents[..length], index) + contents[length..];
      assert caches[..][length..] == was[length..];
      PromotedIsRearranged(was, caches[..], length, index);
      PromotedIsRearranged(held, contents, length, index);
      MovedUp(was, held, index);
    }

    /** The blocks were as `Valid` asks for, in another order. */
    ghost predicate WereValid(was: seq<BlockCache>, held: seq<Bytes>)
      reads was, set c | c in was :: c.buffer
    {
      && |was| == |held|
      && (forall i :: 0 <= i < |was| ==> was[i].Valid() && was[i].Contents() == held[i])
      && (forall i, j :: 0 <= i < j < |was| ==> was[i].buffer != was[j].buffer)
    }

    lemma MovedUp(was: seq<BlockCache>, held: seq<Bytes>, index: nat)
      requires 1 <= caches.Length && length <= caches.Length && WereValid(was, held)
      requires Rearranged(was, caches[..], length, index) && Rearranged(held, contents, length, index)
      ensures Valid()
    {
      forall i | 0 <= i < caches.Length ensures caches[i].Valid() && caches[i].Contents() == contents[i] {
        assert caches[..][i] == was[if i < length then Source(index, i) else i];
      }
      forall i, j | 0 <= i < j < caches.Length ensures caches[i].buffer != caches[j].buffer {
        assert caches[..][i] == was[if i < length then Source(index, i) else i];
        assert caches[..][j] == was[if j < length then Source(index, j) else j];
      }
    }

    lemma MovedDown(was: seq<BlockCache>, held: seq<Bytes>, at: nat, start: nat)
      requires 1 <= caches.Length && length <= caches.Length && WereValid(was, held)
      requires Rotated(was, caches[..], at, start) && Rotated(held, contents, at, start)
      ensures Valid()
    {
      forall i | 0 <= i < caches.Length ensures caches[i].Valid() && caches[i].Contents() == contents[i] {
        assert caches[..][i] == was[if i == at then start else if at < i <= start then i - 1 else i];
      }
      forall i, j | 0 <= i < j < caches.Length ensures caches[i].buffer != caches[j].buffer {
        assert caches[..][i] == was[if i == at then start else if at < i <= start then i - 1 else i];
        assert caches[..][j] == was[if j == at then start else if at < j <= start then j - 1 else j];
      }
    }

    /** The pointers from `at` up to `start` move up by one, the last of them comes down. */
    method MoveDown(at: nat, start: nat)
      requires at <= start < caches.Length
      modifies caches
      ensures Rotated(old(caches[..]), caches[..], at, start)
    {
      RotateDown(caches, at, start);
    }

    /** The block at `start` moves down to `at`; no block is touched. */
    method MakeRoom(at: nat, start: nat)
      requires Valid() && at <= start < caches.Length
      modifies caches, this`contents
      ensures Valid() && multiset(caches[..]) == old(multiset(caches[..]))
      ensures contents == Rotate(old(contents), at, start)
      ensures caches[at] == old(caches[start])
    {
      ghost var was, held := caches[..], contents;
      MoveDown(at, start);
      contents := Rotate(held, at, start);
      RotatedSame(was, caches[..], at, start);
      RotateIsRotated(held, at, start);
      MovedDown(was, held, at, start);
    }

    /** One block is overwritten; the others stay as they are. */
    method Overwrite(at: nat, data: Bytes)
      requires Valid() && at < caches.Length
      modifies caches[at], caches[at].buffer, this`contents
      ensures Valid() && caches[..] == old(caches[..]) && contents == old(contents)[at := data]
    {
      var block := caches[at];
      forall i | 0 <= i < caches.Length && i != at ensures caches[i] != block && caches[i].buffer != block.buffer {
        if i < at {
          assert caches[i].buffer != caches[at].buffer;
        }
      }
      block.Set(data);
      contents := contents[at := data];
    }

    /** The pointers are rotated and the block that comes to the middle is overwritten. */
    method InsertMiddle(data: Bytes)
      requires Valid()
      modifies this, caches, caches[..], set c | c in caches[..] :: c.buffer
      ensures Valid() && multiset(caches[..]) == old(multiset(caches[..]))
      ensures Blocks() == Miss(old(Blocks()), data, caches.Length, Middle)
    {
      ghost var held, n := contents, length;
      var insertionPoint := length / 2;
      var start;
      if length >= caches.Length {
        start := caches.Length - 1;
      } else {
        start := length;
        length := length + 1;
      }
      MakeRoom(insertionPoint, start);
      assert caches[insertionPoint] in old(caches[..]);
      Overwrite(insertionPoint, data);
      RotatedInsert(held, n, insertionPoint, data);
    }

    /** set: a new block goes to the middle, in the place of the last one if the set is full. */
    method Set(data: Bytes)
      requires Valid()
      modifies this, caches, caches[..], set c | c in caches[..] :: c.buffer
      ensures Valid() && multiset(caches[..]) == old(multiset(caches[..]))
      ensures Blocks() == Miss(old(Blocks()), data, caches.Length, Middle)
      ensures var was, n := old(Blocks()), old(length) / 2;
              length == (if |was| < caches.Length then |was| + 1 else caches.Length) &&
              Blocks()[..n] == was[..n] && Blocks()[n] == data && Blocks()[n + 1..] == was[n..length - 1]
    {
      ghost var was := Blocks();
      InsertMiddle(data);
      MiddleLeaves(was, data, caches.Length, Blocks(), |was| / 2);
    }

    /** get: the block at an index, which moves up. */
    method Get(index: nat) returns (data: Bytes)
      requires Valid() && index < length
      modifies caches, this`contents
      ensures Valid() && multiset(caches[..]) == old(multiset(caches[..]))
      ensures data == old(Blocks())[index] && Blocks() == Promote(old(Blocks()), index)
    {
      var block := caches[index];
      data := block.buffer[..block.size];
      MoveUp(index);
    }

    /** The search of lookup: blocks with another checksum are not compared. */
    method Search(data: Bytes) returns (found: bool, index: nat)
      requires Valid()
      ensures found <==> data in Blocks()
      ensures found ==> index == Find(Blocks(), data)
    {
      var checksum := ChecksumOf(data);
      index, found := 0, false;
      while index < length && !found
        invariant index <= length
        invariant forall j :: 0 <= j < index ==> contents[j] != data
        invariant found ==> index < length && contents[index] == data
        decreases length - index, !found
      {
        if caches[index].checksum == checksum {
          found := caches[index].Matches(data);
        }
        if !found {
          index := index + 1;
        }
      }
      FoundAt(Blocks(), data, index, found);
    }

    /** lookup: a block that is found moves up, another one is inserted. */
    method Lookup(data: Bytes) returns (found: bool, index: nat)
      requires Valid()
      modifies this, caches, caches[..], set c | c in caches[..] :: c.buffer
      ensures Valid() && multiset(caches[..]) == old(multiset(caches[..]))
      ensures found <==> data in old(Blocks())
      ensures found ==> index == Find(old(Blocks()), data)
      ensures Blocks() == SelfOrganising.Lookup(old(Blocks()), data, caches.Length, Middle).1
    {
      found, index := Search(data);
      if found {
        MoveUp(index);
      } else {
        Set(data);
      }
    }
  }
}
