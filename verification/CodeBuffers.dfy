/**
 The loops that write and read values: nxcomp/src/EncodeBuffer.cpp and DecodeBuffer.cpp.  A
 buffer is the sequence of its bits; growing it and packing bits into bytes is left out.
 */
module CodeBuffers {
  import opened Words
  import opened Buffers
  import opened SelfOrganising
  import opened CharCache
  import opened IntCache
  import opened BitCodec
  import opened Tokens

  class EncodeBuffer {
    var bits: seq<bool>

    constructor ()
      ensures bits == []
    {
      bits := [];
    }

    /** One block of bits. */
    method WriteBlock(w: seq<bool>, from: nat, n: nat)
      requires from + n <= |w|
      modifies this
      ensures bits == old(bits) + w[from..from + n]
    {
      var count := 0;
      while count < n
        invariant count <= n && bits == old(bits) + w[from..from + count]
      {
        bits := bits + [w[from + count]];
        count := count + 1;
      }
    }

    /** One block of bits and, if bits are left, the flag that tells whether they follow.
        Returns whether they do. */
    method WriteBlockAndFlag(w: seq<bool>, from: nat, n: nat) returns (more: bool)
      requires 0 < n && from + n <= |w|
      modifies this
      ensures bits == old(bits) + Piece(w[from..], n) && (more <==> Follows(w[from..], n))
    {
      WriteBlock(w, from, n);
      assert w[from..from + n] == w[from..][..n];
      more := false;
      if from + n < |w| {
        more := Differs(w, from + n, w[from + n - 1]);
        bits := bits + [more];
        assert w[from + n..] == w[from..][n..];
      }
    }

    /** encodeValue. */
    method EncodeValue(value: Word, numBits: nat, blockSize: nat)
      requires 1 <= numBits <= 32
      modifies this
      ensures bits == old(bits) + Encode(BitsOf(value, numBits), blockSize)
    {
      WriteBlocks(BitsOf(value, numBits), blockSize);
    }

    /** The loop over blocks. */
    method WriteBlocks(w: seq<bool>, blockSize: nat)
      requires w != []
      modifies this
      ensures bits == old(bits) + Encode(w, blockSize)
    {
      var block := if blockSize == 0 then |w| else blockSize;
      var bitsWritten, numBlocks := 0, 1;
      ghost var whole := bits + Encode(w, blockSize);
      ghost var blocks := Cut(|w|, blockSize);
      var more := true;
      assert w[0..] == w;
      while more
        invariant bitsWritten <= |w| && 1 <= block && 1 <= numBlocks
        invariant !more ==> bits == whole
        invariant more ==> bitsWritten < |w| && numBlocks <= 4
        invariant more ==> blocks == BlocksOf(|w|, |w| - bitsWritten, block, numBlocks)
        invariant more ==> whole == bits + EncodeBlocks(blocks, w[bitsWritten..])
        decreases |w| - bitsWritten, more
      {
        BlockStep(blocks, w[bitsWritten..], bits);
        NextBlocks(|w|, |w| - bitsWritten, block, numBlocks);
        var bitsToWrite := BlockLength(|w|, |w| - bitsWritten, block, numBlocks);
        more := WriteBlockAndFlag(w, bitsWritten, bitsToWrite);
        assert w[bitsWritten..][bitsToWrite..] == w[bitsWritten + bitsToWrite..];
        bitsWritten := bitsWritten + bitsToWrite;
        block := NextBlock(block);
        numBlocks := numBlocks + 1;
        if more {
          blocks := blocks.next;
        }
      }
    }

    /** Whether any bit from index `from` on differs from the last one written. */
    method Differs(w: seq<bool>, from: nat, lastBit: bool) returns (more: bool)
      requires from <= |w|
      ensures more <==> !AllEqual(w[from..], lastBit)
    {
      var i := from;
      while i < |w|
        invariant from <= i <= |w| && forall j :: from <= j < i ==> w[j] == lastBit
      {
        if w[i] != lastBit {
          assert w[from..][i - from] != lastBit;
          return true;
        }
        i := i + 1;
      }
      return false;
    }

    /** The zeros and the one that stand for a position in a cache. */
    method WriteIndex(n: nat)
      modifies this
      ensures bits == old(bits) + Unary(n)
    {
      var i := 0;
      while i < n
        invariant i <= n && bits == old(bits) + Repeat(false, i)
      {
        bits := bits + [false];
        i := i + 1;
      }
      bits := bits + [true];
    }

    /** encodeCachedValue with an IntCache. */
    method EncodeCachedValue(value: Word, numBits: nat, cache: IntCache, blockSize: nat)
      requires cache.Valid() && 1 <= numBits <= 32
      modifies this, cache, cache.buffer
      ensures cache.Valid()
      ensures var v := LowWord(value, numBits);
              bits == old(bits) + IntCode(old(cache.State()), v, numBits, blockSize) &&
              cache.State() == LookupState(old(cache.State()), v, numBits)
    {
      var v := LowWord(value, numBits);
      var block := cache.GetBlockSize(blockSize);
      ghost var state, written := cache.State(), bits;
      var found, index, diff, sameDiff := cache.Lookup(v, numBits);
      if found {
        WriteIndex(PositionCode(index));
      } else {
        WriteIndex(2);
        EncodeValue(diff, numBits, block);
        JoinedBits(written, Unary(2), Encode(BitsOf(diff, numBits), block));
      }
    }

    /** encodeCachedValue with a CharCache. */
    method EncodeCachedChar(value: Byte, numBits: nat, cache: CharCache, blockSize: nat)
      requires cache.Valid() && 1 <= numBits <= 32
      modifies this, cache, cache.buffer
      ensures cache.Valid()
      ensures var v := LowBits(value, numBits);
              bits == old(bits) + CharCode(old(cache.Entries()), v, numBits, blockSize) &&
              cache.Entries() == CharState(old(cache.Entries()), v)
    {
      var v := LowBits(value, numBits);
      ghost var written := bits;
      var found, index := cache.Lookup(v);
      if found {
        WriteIndex(PositionCode(index));
      } else {
        WriteIndex(2);
        EncodeValue(v, numBits, blockSize);
        JoinedBits(written, Unary(2), Encode(BitsOf(v, numBits), blockSize));
      }
    }

    /** alignBuffer. */
    method AlignBuffer()
      modifies this
      ensures bits == old(bits) + Repeat(false, ZerosToByte(|old(bits)|))
    {
      var n, i := ZerosToByte(|bits|), 0;
      while i < n
        invariant i <= n && bits == old(bits) + Repeat(false, i)
      {
        bits := bits + [false];
        i := i + 1;
      }
    }

    /** encodeMemory: whole bytes, behind an alignment. */
    method EncodeMemory(d: Bytes)
      modifies this
      ensures bits == old(bits) + Repeat(false, ZerosToByte(|old(bits)|)) + MemoryBits(d)
    {
      AlignBuffer();
      ghost var aligned := bits;
      var i := 0;
      while i < |d|
        invariant i <= |d| && bits == aligned + MemoryBits(d[..i])
      {
        bits := bits + ByteBits(d[i]);
        MemoryAppend(d[..i], d[i]);
        assert d[..i + 1] == d[..i] + [d[i]];
        i := i + 1;
      }
      assert d[..i] == d;
    }
  }

  /** The mask of encodeCachedValue, on a byte. */
  function LowBits(value: Byte, numBits: nat): (v: Byte)
    ensures v == Low(value, numBits)
  {
    LowLess(value, numBits);
    Low(value, numBits)
  }

  function MemoryBits(d: Bytes): seq<bool> {
    if d == [] then [] else ByteBits(d[0]) + MemoryBits(d[1..])
  }

  lemma {:induction false} MemoryAppend(d: Bytes, b: Byte)
    ensures MemoryBits(d + [b]) == MemoryBits(d) + ByteBits(b)
  {
    if d == [] {
      assert ([b])[1..] == [];
    } else {
      assert (d + [b])[1..] == d[1..] + [b];
      MemoryAppend(d[1..], b);
    }
  }

  lemma JoinedBits(a: seq<bool>, b: seq<bool>, c: seq<bool>)
    ensures (a + b) + c == a + (b + c)
  {
  }

  /** What is written for the first n of the bits w. */
  ghost function Piece(w: seq<bool>, n: nat): seq<bool>
    requires 0 < n <= |w|
  {
    w[..n] + if n == |w| then [] else [Follows(w, n)]
  }

  /** The bits behind the first n are not all the same as the last of these. */
  ghost predicate Follows(w: seq<bool>, n: nat)
    requires 0 < n <= |w|
  {
    n < |w| && !AllEqual(w[n..], w[n - 1])
  }

  lemma NextBlocks(total: nat, left: nat, block: nat, round: nat)
    requires 0 < left <= total && 1 <= block && 1 <= round <= 4
    ensures var b := BlocksOf(total, left, block, round);
            b.n == BlockLength(total, left, block, round) &&
            (b.Block? ==> b.n < left && round < 4 && b.next == BlocksOf(total, left - b.n, NextBlock(block), round + 1))
  {
  }

  /** One round of the loops over blocks. */
  lemma BlockStep(blocks: Blocks, w: seq<bool>, written: seq<bool>)
    requires blocks.Positive() && blocks.Total() == |w|
    ensures blocks.n <= |w| && (Follows(w, blocks.n) ==> blocks.Block?)
    ensures written + EncodeBlocks(blocks, w) ==
            (written + Piece(w, blocks.n)) + if Follows(w, blocks.n) then EncodeBlocks(blocks.next, w[blocks.n..]) else []
  {
  }

  /** What is read further on, behind the bits read before. */
  function Behind(prefix: seq<bool>, g: Reading): Reading {
    match g
    case Short => Short
    case Read(w, end) => Read(prefix + w, end)
  }

  lemma BehindBoth(a: seq<bool>, b: seq<bool>, g: Reading)
    ensures Behind(a, Behind(b, g)) == Behind(a + b, g)
  {
    if g.Read? {
      JoinedBits(a, b, g.bits);
    }
  }

  lemma BehindNone(g: Reading)
    ensures Behind([], g) == g
  {
    if g.Read? {
      assert [] + g.bits == g.bits;
    }
  }

  /** One round of the loop that reads blocks: what is found if the stream ends in the block or
      behind it, after the last block, and if no more bits follow. */
  lemma BlockEnds(blocks: Blocks, s: seq<bool>, pos: nat)
    requires blocks.Positive()
    ensures pos + blocks.n > |s| || (pos + blocks.n == |s| && blocks.Block?) ==> DecodeBlocks(blocks, s, pos) == Short
    ensures pos + blocks.n <= |s| && blocks.Last? ==>
      DecodeBlocks(blocks, s, pos) == Read(s[pos..pos + blocks.n], pos + blocks.n)
    ensures pos + blocks.n < |s| && blocks.Block? && !s[pos + blocks.n] ==>
      DecodeBlocks(blocks, s, pos) ==
      Read(s[pos..pos + blocks.n] + Repeat(s[pos + blocks.n - 1], blocks.next.Total()), pos + blocks.n + 1)
  {
  }

  lemma BlockContinues(blocks: Blocks, s: seq<bool>, pos: nat)
    requires blocks.Positive() && blocks.Block? && pos + blocks.n < |s| && s[pos + blocks.n]
    ensures DecodeBlocks(blocks, s, pos) ==
            Behind(s[pos..pos + blocks.n], DecodeBlocks(blocks.next, s, pos + blocks.n + 1))
  {
  }

  /** How the read of a cached value can end: without any value, because the frame ends where one
      may begin; by aborting; by reading behind the entries of the cache; with a value. */
  datatype Outcome = Ends | Aborts | Strays | Reads

  class DecodeBuffer {
    const stream: seq<bool>
    var pos: nat

    constructor (bits: seq<bool>)
      ensures stream == bits && pos == 0
    {
      stream, pos := bits, 0;
    }

    /** One block of bits; false at the end of the buffer. */
    method ReadBlock(n: nat) returns (ok: bool, w: seq<bool>)
      requires pos <= |stream|
      modifies this
      ensures pos <= |stream| && (ok <==> old(pos) + n <= |stream|)
      ensures ok ==> pos == old(pos) + n && w == stream[old(pos)..pos]
    {
      w := [];
      ghost var from := pos;
      while |w| < n
        invariant from <= pos <= |stream| && pos == from + |w| && |w| <= n && w == stream[from..pos]
        decreases n - |w|
      {
        if pos >= |stream| {
          return false, w;
        }
        w := w + [stream[pos]];
        pos := pos + 1;
      }
      return true, w;
    }

    /** The flag that tells whether bits follow; false at the end of the buffer. */
    method ReadMore() returns (ok: bool, more: bool)
      requires pos <= |stream|
      modifies this
      ensures pos <= |stream| && (ok <==> old(pos) < |stream|)
      ensures ok ==> pos == old(pos) + 1 && more == stream[old(pos)]
    {
      if pos == |stream| {
        return false, false;
      }
      pos := pos + 1;
      return true, stream[pos - 1];
    }

    /** One round: a block of n of the `left` bits to go, and the flag behind it if there is one.
        A false flag stands for bits that repeat the last one. */
    method ReadRound(ghost blocks: Blocks, n: nat, left: nat) returns (ok: bool, more: bool, read: seq<bool>)
      requires pos <= |stream| && blocks.Positive() && n == blocks.n && left == blocks.Total()
      modifies this
      ensures pos <= |stream|
      ensures !ok ==> DecodeBlocks(blocks, stream, old(pos)) == Short
      ensures ok && !more ==> DecodeBlocks(blocks, stream, old(pos)) == Read(read, pos)
      ensures ok && more ==>
        blocks.Block? && |read| == n &&
        DecodeBlocks(blocks, stream, old(pos)) == Behind(read, DecodeBlocks(blocks.next, stream, pos))
    {
      ghost var from := pos;
      BlockEnds(blocks, stream, from);
      more := false;
      ok, read := ReadBlock(n);
      if !ok || n == left {
        return;
      }
      ok, more := ReadMore();
      if ok && more {
        BlockContinues(blocks, stream, from);
      } else if ok {
        read := read + Repeat(read[n - 1], left - n);
      }
    }

    /** The loop over blocks of decodeValue. */
    method ReadBlocks(total: nat, blockSize: nat) returns (ok: bool, w: seq<bool>)
      requires total > 0 && pos <= |stream|
      modifies this
      ensures pos <= |stream|
      ensures var g := Decode(stream, old(pos), total, blockSize);
              (ok <==> g.Read?) && (ok ==> w == g.bits && pos == g.end)
    {
      var block := if blockSize == 0 then total else blockSize;
      var numBlocks, more := 1, true;
      w, ok := [], true;
      ghost var g := Decode(stream, pos, total, blockSize);
      ghost var blocks := Cut(total, blockSize);
      BehindNone(g);
      while more
        invariant pos <= |stream| && 1 <= block && 1 <= numBlocks
        invariant more ==> ok && |w| < total && numBlocks <= 4
        invariant more ==> blocks == BlocksOf(total, total - |w|, block, numBlocks)
        invariant more ==> g == Behind(w, DecodeBlocks(blocks, stream, pos))
        invariant !more ==> g == if ok then Read(w, pos) else Short
        decreases total - |w|, more
      {
        NextBlocks(total, total - |w|, block, numBlocks);
        var read;
        ok, more, read := ReadRound(blocks, BlockLength(total, total - |w|, block, numBlocks), total - |w|);
        if ok && more {
          BehindBoth(w, read, DecodeBlocks(blocks.next, stream, pos));
          blocks := blocks.next;
        } else {
          more := false;
        }
        w := w + read;
        block := NextBlock(block);
        numBlocks := numBlocks + 1;
      }
    }

    /** decodeValue. */
    method DecodeValue(numBits: nat, blockSize: nat) returns (ok: bool, value: Word)
      requires 1 <= numBits <= 32 && pos <= |stream|
      modifies this
      ensures pos <= |stream|
      ensures var g := Decode(stream, old(pos), numBits, blockSize);
              (ok <==> g.Read?) && (ok ==> value == FromBits(g.bits) && pos == g.end)
    {
      var w;
      ok, w := ReadBlocks(numBits, blockSize);
      if ok {
        FromBitsIsWord(w);
        value := FromBits(w);
      } else {
        value := 0;
      }
    }

    /** The zeros up to the next one. */
    method DecodeIndex() returns (ok: bool, n: nat)
      requires pos <= |stream|
      modifies this
      ensures pos <= |stream|
      ensures var g := CountZeros(stream, old(pos));
              (ok <==> g.Zeros?) && (ok ==> n == g.n && pos == g.end)
    {
      n := 0;
      ghost var from := pos;
      while pos < |stream| && !stream[pos]
        invariant from <= pos <= |stream| && n == pos - from
        invariant CountZeros(stream, from) ==
          match CountZeros(stream, pos) case NoOne => NoOne case Zeros(m, end) => Zeros(m + n, end)
        decreases |stream| - pos
      {
        pos := pos + 1;
        n := n + 1;
      }
      ok := pos < |stream|;
      if ok {
        pos := pos + 1;
      }
    }

    /** The position of an entry.  The check lets the number of entries through: then an unused element
        is read and joins the entries, or, behind a full cache, whatever is in memory. */
    method ReadEntry(cache: IntCache, index: nat) returns (outcome: Outcome, value: Word)
      requires cache.Valid()
      modifies cache, cache.buffer
      ensures cache.Valid()
      ensures outcome == var n := old(cache.length); if index > n then Aborts else if index == n then Strays else Reads
      ensures outcome.Reads? ==>
        value == old(cache.State()).entries[index] && cache.State() == GetState(old(cache.State()), index)
      ensures outcome.Strays? && old(cache.length < cache.size) ==>
        value == old(cache.buffer[cache.length]) &&
        cache.State() == old(cache.State().(entries := Promote(cache.buffer[..cache.length + 1], cache.length)[..cache.length]))
    {
      if index > cache.length {
        return Aborts, 0;
      }
      outcome := if index == cache.length then Strays else Reads;
      value := 0;
      if index < cache.size {
        value := cache.Get(index);
      }
    }

    /** decodeCachedValue with an IntCache. */
    method DecodeCachedValue(numBits: nat, cache: IntCache, blockSize: nat) returns (outcome: Outcome, value: Word)
      requires cache.Valid() && 1 <= numBits <= 32 && pos <= |stream|
      modifies this, cache, cache.buffer
      ensures cache.Valid() && pos <= |stream|
      ensures var g := ReadInt(old(cache.State()), numBits, blockSize, stream, old(pos));
              !outcome.Ends? && (outcome.Aborts? <==> g.IntAborts?) && (outcome.Strays? <==> g.IntStrays?) &&
              (outcome.Reads? ==> value == g.value && cache.State() == g.cache && pos == g.end)
      ensures outcome.Strays? && old(cache.length < cache.size) ==>
        value == old(cache.buffer[cache.length]) &&
        cache.State() == old(cache.State().(entries := Promote(cache.buffer[..cache.length + 1], cache.length)[..cache.length]))
    {
      value := 0;
      var ok, index := DecodeIndex();
      if !ok {
        return Aborts, 0;
      }
      if index == 2 {
        var block := cache.GetBlockSize(blockSize);
        var diff;
        ok, diff := DecodeValue(numBits, block);
        if !ok {
          return Aborts, 0;
        }
        value := cache.Insert(diff, numBits);
        return Reads, value;
      }
      outcome, value := ReadEntry(cache, IndexOf(index));
    }

    /** decodeCachedValue with a CharCache.  Where the frame ends and no one is left there is no value,
        which aborts in the middle of the zeros unless the end is allowed there. */
    method DecodeCachedChar(numBits: nat, cache: CharCache, blockSize: nat, endOkay: bool)
      returns (outcome: Outcome, value: Byte)
      requires cache.Valid() && 1 <= numBits <= 32 && pos <= |stream|
      modifies this, cache, cache.buffer
      ensures cache.Valid() && pos <= |stream|
      ensures var g := ReadChar(old(cache.Entries()), numBits, blockSize, stream, old(pos));
              var abrupt := g.CharEnds? && !endOkay && old(pos) < |stream|;
              (outcome.Ends? <==> g.CharEnds? && !abrupt) && (outcome.Aborts? <==> g.CharAborts? || abrupt) &&
              (outcome.Strays? <==> g.CharStrays?) &&
              (outcome.Reads? ==> value == g.value && cache.Entries() == g.cache && pos == g.end)
      ensures outcome.Strays? && old(cache.length < CAPACITY) ==>
        value == old(cache.buffer[cache.length]) &&
        cache.Entries() == old(Promote(cache.buffer[..cache.length + 1], cache.length)[..cache.length])
    {
      value := 0;
      if pos >= |stream| {
        return Ends, 0;
      }
      var ok, index := DecodeIndex();
      if !ok {
        return if endOkay then Ends else Aborts, 0;
      }
      if index == 2 {
        ok, value := ReadMissed(numBits, cache, blockSize);
        return if ok then Reads else Aborts, value;
      }
      outcome, value := ReadByteEntry(cache, IndexOf(index));
    }

    /** A byte that was missed. */
    method ReadMissed(numBits: nat, cache: CharCache, blockSize: nat) returns (ok: bool, value: Byte)
      requires cache.Valid() && 1 <= numBits <= 32 && pos <= |stream|
      modifies this, cache, cache.buffer
      ensures cache.Valid() && pos <= |stream|
      ensures var g := Decode(stream, old(pos), numBits, blockSize);
              (ok <==> g.Read?) &&
              (ok ==> value == FromBits(g.bits) % 0x100 && pos == g.end &&
                      cache.Entries() == Miss(old(cache.Entries()), value, CAPACITY, BehindTwo))
    {
      var temp;
      ok, temp := DecodeValue(numBits, blockSize);
      value := temp % 0x100;
      if ok {
        cache.Insert(value);
      }
    }

    /** The entry at a position, or the element just behind the entries. */
    method ReadByteEntry(cache: CharCache, index: nat) returns (outcome: Outcome, value: Byte)
      requires cache.Valid()
      modifies cache, cache.buffer
      ensures cache.Valid()
      ensures outcome == var n := old(cache.length); if index > n then Aborts else if index == n then Strays else Reads
      ensures outcome.Reads? ==>
        value == old(cache.Entries())[index] && cache.Entries() == Promote(old(cache.Entries()), index)
      ensures outcome.Strays? && old(cache.length < CAPACITY) ==>
        value == old(cache.buffer[cache.length]) &&
        cache.Entries() == old(Promote(cache.buffer[..cache.length + 1], cache.length)[..cache.length])
    {
      if index > cache.length {
        return Aborts, 0;
      }
      outcome := if index == cache.length then Strays else Reads;
      value := 0;
      if index < CAPACITY {
        value := cache.Get(index);
      }
    }
  }
}
