/**
 The typed values that cross the link.  A token is a value together with the code used for
 it: EncodeBuffer.cpp writes it, DecodeBuffer.cpp reads it, and both sides step the same
 prediction cache.
 */
module Tokens {
  import opened Words
  import opened SelfOrganising
  import opened CharCache
  import opened IntCache
  import opened ClientCache
  import opened BitCodec

  /** The codes: encodeValue; encodeCachedValue with an IntCache or a CharCache;
      encodeOpcodeValue; encodeXidValue and encodeActionValue; encodeNewXidValue; a cached
      difference from the last value; and encodeMemory, which first aligns the stream to a
      byte and then sends whole bytes. */
  datatype Codec =
    | Plain(bits: nat, block: nat)
    | Cached(ints: IntName, bits: nat, block: nat)
    | CachedChar(chars: CharName)
    | Opcode
    | Slotted(slotted: SlottedName)
    | NewXid(xid: SlottedName, free: IntName)
    | Since(last: LastName, diffs: IntName)
    | Align
    | RawByte
  {
    predicate Valid() {
      match this
      case Plain(bits, _) => 1 <= bits <= 32
      case Cached(_, bits, _) => 1 <= bits <= 32
      case NewXid(xid, _) => !xid.Actions?
      case _ => true
    }
  }

  type ValidCodec = c: Codec | c.Valid() witness Align

  datatype Token = Token(codec: ValidCodec, value: Word)

  // ----- Cached values -----

  /** The zeros sent for cache position i.  Two zeros announce a value that was missed. */
  function PositionCode(i: nat): nat {
    if i > 1 then i + 1 else i
  }

  function IntCode(s: Ints, value: Word, bits: nat, block: nat): seq<bool>
    requires 1 <= bits <= 32
  {
    if value in s.entries then Unary(PositionCode(Find(s.entries, value)))
    else Unary(2) + Encode(BitsOf(DiffOf(s, value, bits), bits), BlockSize(s, block))
  }

  /** What is written for a value that is cached: as many zeros as its position, with one more from
      position 2 on, and a one. */
  lemma HitCodeIs(s: Ints, value: Word, bits: nat, block: nat, i: nat)
    requires 1 <= bits <= 32 && i < |s.entries| && s.entries[i] == value && value !in s.entries[..i]
    ensures IntCode(s, value, bits, block) == Repeat(false, if i < 2 then i else i + 1) + [true]
  {
    FindIs(s.entries, value, i);
  }

  /** What is written for another one: two zeros and a one, and the difference from the last one that was
      missed, in blocks of the size asked for or predicted, whichever is less. */
  lemma MissCodeIs(s: Ints, value: Word, bits: nat, block: nat)
    requires 1 <= bits <= 32 && value !in s.entries
    ensures IntCode(s, value, bits, block) ==
            [false, false, true] +
            Encode(BitsOf((value - s.lastValue) % Pow2(bits), bits), if 0 < block < s.predicted then block else s.predicted)
  {
    LowOfWrapped(value - s.lastValue, bits);
    assert Unary(2) == [false, false, true];
  }

  /** The block size predicted from a difference is the least one, from two on, that holds it in a
      single block: all bits behind the block equal its last one. */
  lemma PredictionExact(diff: Word, bits: nat, b: nat)
    requires 2 <= b <= bits
    ensures Prediction(diff, bits) <= b <==>
            AllEqual(BitsOf(diff, bits)[b..], BitsOf(diff, bits)[b - 1])
  {
    LastChangeExact(BitsOf(diff, bits), b);
  }

  lemma LastChangeExact(w: seq<bool>, b: nat)
    requires 1 <= b <= |w|
    ensures LastChange(w, |w|) < b <==> AllEqual(w[b..], w[b - 1])
  {
    var j := LastChange(w, |w|);
    if j < b {
      forall i | 0 <= i < |w[b..]| ensures w[b..][i] == w[b - 1] {
        NoChange(w, b - 1, b + i);
      }
    } else {
      assert w[j] == w[b..][j - b];
      assert j > b ==> w[j - 1] == w[b..][j - 1 - b];
    }
  }

  lemma {:induction false} NoChange(w: seq<bool>, from: nat, j: nat)
    requires from <= j < |w| && forall i :: from < i <= j ==> w[i] == w[i - 1]
    ensures w[j] == w[from]
    decreases j
  {
    if j > from {
      NoChange(w, from, j - 1);
    }
  }

  /** So a difference that is coded with the block size it predicts costs one bit more than that. */
  lemma PredictionServes(diff: Word, bits: nat)
    requires Prediction(diff, bits) < bits
    ensures |Encode(BitsOf(diff, bits), Prediction(diff, bits))| == Prediction(diff, bits) + 1
  {
    PredictionExact(diff, bits, Prediction(diff, bits));
    EncodeIs(BitsOf(diff, bits), Prediction(diff, bits));
  }

  /** The position that n zeros stand for, unless n is two. */
  function IndexOf(n: nat): nat {
    if n > 2 then n - 1 else n
  }

  /** A read of a cached value aborts, or finds a value, or strays: the decoder checks a position
      against the number of entries with `>`, so the element just behind the entries is read. */
  datatype IntReading = IntAborts | IntStrays | IntRead(value: Word, cache: Ints, end: nat)

  function ReadInt(s: Ints, bits: nat, block: nat, stream: seq<bool>, pos: nat): (r: IntReading)
    requires 1 <= bits <= 32
    ensures r.IntRead? ==> pos < r.end <= |stream|
  {
    match CountZeros(stream, pos)
    case NoOne => IntAborts
    case Zeros(n, p) =>
      if n == 2 then
        match Decode(stream, p, bits, BlockSize(s, block))
        case Short => IntAborts
        case Read(w, end) =>
          FromBitsIsWord(w);
          IntRead(InsertedValue(s, FromBits(w), bits), InsertState(s, FromBits(w), bits), end)
      else
        var i := IndexOf(n);
        if i < |s.entries| then IntRead(s.entries[i], GetState(s, i), p)
        else if i == |s.entries| then IntStrays
        else IntAborts
  }

  lemma FromBitsIsWord(w: seq<bool>)
    requires |w| <= 32
    ensures FromBits(w) < 0x1_0000_0000
  {
    FromBitsBound(w);
    Pow2Constants();
    Pow2Add(32 - |w|, |w|);
    MulMonotone(Pow2(|w|), 1, Pow2(32 - |w|));
    assert Pow2(|w|) * Pow2(32 - |w|) == Pow2(32 - |w|) * Pow2(|w|);
  }

  lemma {:induction false} FromBitsBound(w: seq<bool>)
    ensures FromBits(w) < Pow2(|w|)
  {
    if w != [] {
      FromBitsBound(w[1..]);
    }
  }

  lemma FromBitsOfSmall(v: nat, bits: nat)
    requires v < Pow2(bits)
    ensures FromBits(BitsOf(v, bits)) == v
  {
    FromBitsOf(v, bits);
    LowIdentity(v, bits);
  }

  /** The position of any index, as the sender codes it: the read finds an entry exactly if the
      index is one, strays exactly if the index is the number of entries, and aborts exactly if it
      is greater. */
  lemma PositionRead(s: Ints, i: nat, bits: nat, block: nat, stream: seq<bool>, pos: nat)
    requires 1 <= bits <= 32 && pos <= |stream| && At(stream, pos, Unary(PositionCode(i)))
    ensures var g := ReadInt(s, bits, block, stream, pos);
            (g.IntRead? <==> i < |s.entries|) && (g.IntStrays? <==> i == |s.entries|) && (g.IntAborts? <==> i > |s.entries|)
  {
    CountZerosUnary(PositionCode(i), stream, pos);
  }

  lemma BytePositionRead(s: Chars, i: nat, bits: nat, block: nat, stream: seq<bool>, pos: nat)
    requires 1 <= bits && pos <= |stream| && At(stream, pos, Unary(PositionCode(i)))
    ensures var g := ReadChar(s, bits, block, stream, pos);
            (g.CharRead? <==> i < |s|) && (g.CharStrays? <==> i == |s|) && (g.CharAborts? <==> i > |s|)
  {
    CountZerosUnary(PositionCode(i), stream, pos);
  }

  /** A stream that starts with a one names the first entry, and a new cache has none: whatever
      the code, the read strays. */
  lemma FreshCacheStrays(size: nat, bits: nat, block: nat)
    requires 3 <= size && 1 <= bits <= 32
    ensures ReadInt(Fresh(size), bits, block, [true], 0) == IntStrays
    ensures ReadChar([], bits, block, [true], 0) == CharStrays
    ensures Receive(Opcode, Receiver([true], 0, FreshCaches())) == Unread(true)
  {
    assert CountZeros([true], 0) == Zeros(0, 1);
  }

  lemma IntLockStep(s: Ints, value: Word, bits: nat, block: nat, stream: seq<bool>, pos: nat)
    requires 1 <= bits <= 32 && value < Pow2(bits) && pos <= |stream|
    requires At(stream, pos, IntCode(s, value, bits, block))
    ensures ReadInt(s, bits, block, stream, pos) ==
            IntRead(value, LookupState(s, value, bits), pos + |IntCode(s, value, bits, block)|)
  {
    if value in s.entries {
      CountZerosUnary(PositionCode(Find(s.entries, value)), stream, pos);
    } else {
      var diff := DiffOf(s, value, bits);
      FromBitsOfSmall(diff, bits);
      InsertFollowsLookup(s, value, bits);
      MissedIntRead(s, diff, block, stream, pos, BitsOf(diff, bits));
    }
  }

  lemma MissedIntRead(s: Ints, diff: Word, block: nat, stream: seq<bool>, pos: nat, w: seq<bool>)
    requires 1 <= |w| <= 32 && FromBits(w) == diff && pos <= |stream|
    requires At(stream, pos, Unary(2) + Encode(w, BlockSize(s, block)))
    ensures ReadInt(s, |w|, block, stream, pos) ==
            IntRead(InsertedValue(s, diff, |w|), InsertState(s, diff, |w|),
                    pos + |Unary(2) + Encode(w, BlockSize(s, block))|)
  {
    var code := Encode(w, BlockSize(s, block));
    assert At(stream, pos, Unary(2)) && At(stream, pos + 3, code) by {
      AtSplit(stream, pos, Unary(2), code);
    }
    CountZerosUnary(2, stream, pos);
    AtInside(stream, pos, Unary(2));
    DecodeEncode(w, BlockSize(s, block), stream, pos + 3);
    MissedInt(s, diff, |w|, block, stream, pos, w, pos + 3 + |code|);
  }

  lemma AtInside(s: seq<bool>, pos: nat, code: seq<bool>)
    requires pos <= |s| && At(s, pos, code)
    ensures pos + |code| <= |s|
  {
    AtSlice(s, pos, code);
  }

  lemma MissedInt(s: Ints, diff: Word, bits: nat, block: nat, stream: seq<bool>, pos: nat, w: seq<bool>, end: nat)
    requires 1 <= bits <= 32 && CountZeros(stream, pos) == Zeros(2, pos + 3)
    requires Decode(stream, pos + 3, bits, BlockSize(s, block)) == Read(w, end) && FromBits(w) == diff
    ensures ReadInt(s, bits, block, stream, pos) == IntRead(InsertedValue(s, diff, bits), InsertState(s, diff, bits), end)
  {
  }

  function CharCode(s: Chars, value: Byte, bits: nat, block: nat): seq<bool>
    requires 1 <= bits
  {
    if value in s then Unary(PositionCode(Find(s, value)))
    else Unary(2) + Encode(BitsOf(value, bits), block)
  }

  /** The same for bytes.  A read that finds no one before the end of a frame may be meant to find
      out just that. */
  datatype CharReading = CharEnds | CharAborts | CharStrays | CharRead(value: Byte, cache: Chars, end: nat)

  function ReadChar(s: Chars, bits: nat, block: nat, stream: seq<bool>, pos: nat): (r: CharReading)
    requires 1 <= bits
    ensures r.CharRead? ==> pos < r.end <= |stream|
  {
    match CountZeros(stream, pos)
    case NoOne => CharEnds
    case Zeros(n, p) =>
      if n == 2 then
        match Decode(stream, p, bits, block)
        case Short => CharAborts
        case Read(w, end) =>
          var value: Byte := FromBits(w) % 0x100;
          CharRead(value, Miss(s, value, CAPACITY, BehindTwo), end)
      else
        var i := IndexOf(n);
        if i < |s| then CharRead(s[i], Promote(s, i), p)
        else if i == |s| then CharStrays
        else CharAborts
  }

  function CharState(s: Chars, value: Byte): Chars {
    SelfOrganising.Lookup(s, value, CAPACITY, BehindTwo).1
  }

  lemma CharLockStep(s: Chars, value: Byte, bits: nat, block: nat, stream: seq<bool>, pos: nat)
    requires 1 <= bits && value < Pow2(bits)
    requires pos <= |stream| && At(stream, pos, CharCode(s, value, bits, block))
    ensures ReadChar(s, bits, block, stream, pos) ==
            CharRead(value, CharState(s, value), pos + |CharCode(s, value, bits, block)|)
  {
    if value in s {
      CountZerosUnary(PositionCode(Find(s, value)), stream, pos);
    } else {
      FromBitsOfSmall(value, bits);
      MissedCharRead(s, value, block, stream, pos, BitsOf(value, bits));
    }
  }

  lemma MissedCharRead(s: Chars, value: Byte, block: nat, stream: seq<bool>, pos: nat, w: seq<bool>)
    requires w != [] && FromBits(w) == value && pos <= |stream| && At(stream, pos, Unary(2) + Encode(w, block))
    ensures ReadChar(s, |w|, block, stream, pos) ==
            CharRead(value, Miss(s, value, CAPACITY, BehindTwo), pos + |Unary(2) + Encode(w, block)|)
  {
    var code := Encode(w, block);
    assert At(stream, pos, Unary(2)) && At(stream, pos + 3, code) by {
      AtSplit(stream, pos, Unary(2), code);
    }
    CountZerosUnary(2, stream, pos);
    AtInside(stream, pos, Unary(2));
    DecodeEncode(w, block, stream, pos + 3);
    MissedChar(s, value, |w|, block, stream, pos, w, pos + 3 + |code|);
  }

  lemma MissedChar(s: Chars, value: Byte, bits: nat, block: nat, stream: seq<bool>, pos: nat, w: seq<bool>, end: nat)
    requires 1 <= bits && CountZeros(stream, pos) == Zeros(2, pos + 3)
    requires Decode(stream, pos + 3, bits, block) == Read(w, end) && FromBits(w) == value
    ensures ReadChar(s, bits, block, stream, pos) == CharRead(value, Miss(s, value, CAPACITY, BehindTwo), end)
  {
  }

  // ----- The sending side -----

  function PutInt(k: Caches, name: IntName, s: Ints): Caches {
    k.(ints := k.ints[name := s])
  }

  function PutSlotted(k: Caches, name: SlottedName, s: SlottedCache): Caches {
    k.(slotted := k.slotted[name := s])
  }

  /** Steps the cache of the slot in use and moves to the slot of the new value. */
  function StepSlotted(s: SlottedCache, cache: Ints, value: Word): SlottedCache {
    SlottedState(s.base[s.slot := cache], value % 0x100, value)
  }

  /** A new identifier is put in front of the cache of its own slot. */
  function PushSlotted(s: SlottedCache, value: Word): SlottedCache {
    var slot := value % 0x100;
    SlottedState(s.base[slot := PushState(s.base[slot], Minus(value, s.last), XID_BITS)], slot, value)
  }

  function ZerosToByte(pos: nat): (n: nat)
    ensures n < 8 && (pos + n) % 8 == 0
  {
    (8 - pos % 8) % 8
  }

  /** The bits of a byte in the stream, most significant first. */
  function ByteBits(b: Byte): (s: seq<bool>)
    ensures |s| == 8
  {
    Reversed(BitsOf(b, BYTE_BITS))
  }

  lemma ByteBitsAre(b: Byte, i: nat)
    requires i < 8
    ensures ByteBits(b)[i] <==> b / Pow2(7 - i) % 2 == 1
  {
    BitsOfAt(b, 8, 7 - i);
  }

  function ByteOf(s: seq<bool>): Byte {
    FromBits(Reversed(s)) % 0x100
  }

  lemma ByteOfBits(b: Byte)
    ensures ByteOf(ByteBits(b)) == b
  {
    ByteOfWritten(b, BYTE_BITS);
  }

  lemma ByteOfWritten(b: Byte, n: nat)
    requires n == BYTE_BITS
    ensures ByteOf(Reversed(BitsOf(b, n))) == b
  {
    Pow2Constants();
    FromBitsOfSmall(b, n);
    ReversedTwice(BitsOf(b, n));
  }

  /** The bits written for value v by code c, at position pos of the stream. */
  function Code(c: Codec, v: Word, k: Caches, pos: nat): seq<bool>
    requires c.Valid()
  {
    match c
    case Plain(bits, block) => Encode(BitsOf(v, bits), block)
    case Cached(name, bits, block) => IntCode(k.Int(name), LowWord(v, bits), bits, block)
    case CachedChar(name) => CharCode(k.Char(name), v % 0x100, BYTE_BITS, 0)
    case Opcode => CharCode(k.opcodes.base[k.opcodes.slot], v % 0x100, BYTE_BITS, 8)
    case Slotted(name) =>
      var s, bits := k.Slot(name), SlottedWidth(name);
      IntCode(s.base[s.slot], LowWord(Minus(v, s.last), bits), bits, 0)
    case NewXid(_, _) => IntCode(k.Int(LastIds), LowWord(Minus(Minus(v, 1), k.lastId), XID_BITS), XID_BITS, 0)
    case Since(last, name) => IntCode(k.Int(name), LowWord(Minus(v, k.Last(last)), COORDINATE_BITS), COORDINATE_BITS, 8)
    case Align => Repeat(false, ZerosToByte(pos))
    case RawByte => ByteBits(v % 0x100)
  }

  function LowWord(v: Word, bits: nat): Word
    requires bits <= 32
  {
    LowIsWord(v, bits);
    Low(v, bits)
  }

  /** The sender's caches after value v has been written by code c. */
  function AfterSend(c: Codec, v: Word, k: Caches): Caches
    requires c.Valid()
  {
    match c
    case Plain(_, _) | Align | RawByte => k
    case Cached(name, bits, _) => PutInt(k, name, LookupState(k.Int(name), LowWord(v, bits), bits))
    case CachedChar(name) => k.(chars := k.chars[name := CharState(k.Char(name), v % 0x100)])
    case Opcode =>
      var o := k.opcodes;
      k.(opcodes := OpcodeState(o.base[o.slot := CharState(o.base[o.slot], v % 0x100)], v % 0x100))
    case Slotted(name) =>
      var s, bits := k.Slot(name), SlottedWidth(name);
      PutSlotted(k, name, StepSlotted(s, LookupState(s.base[s.slot], LowWord(Minus(v, s.last), bits), bits), v))
    case NewXid(name, free) =>
      var ids := LookupState(k.Int(LastIds), LowWord(Minus(Minus(v, 1), k.lastId), XID_BITS), XID_BITS);
      NewXidState(PutInt(k, LastIds, ids), name, free, v)
    case Since(last, name) =>
      var diffs := LookupState(k.Int(name), LowWord(Minus(v, k.Last(last)), COORDINATE_BITS), COORDINATE_BITS);
      PutInt(k, name, diffs).(lasts := k.lasts[last := v])
  }

  /** Both sides record a new identifier in its cache and in the cache of identifiers to free. */
  function NewXidState(k: Caches, name: SlottedName, free: IntName, value: Word): Caches {
    var k' := PutSlotted(k, name, PushSlotted(k.Slot(name), value)).(lastId := value);
    PutInt(k', free, PushState(k.Int(free), value, XID_BITS))
  }

  /** Behind an identifier v or an action v, the next one w is coded as its difference from v, with the
      cache that the low byte of v chooses. */
  lemma SlottedFollows(name: SlottedName, v: Word, w: Word, k: Caches, pos: nat)
    ensures var next, bits := AfterSend(Slotted(name), v, k), if name.Actions? then 15 else 29;
            LowWord(Minus(w, v), bits) == (w - v) % Pow2(bits) &&
            Code(Slotted(name), w, next, pos) ==
            IntCode(next.Slot(name).base[v % 0x100], LowWord(Minus(w, v), bits), bits, 0)
  {
    LowOfWrapped(w - v, SlottedWidth(name));
  }

  /** Behind an opcode v, the next one is coded with the cache that v chooses. */
  lemma OpcodeFollows(v: Byte, w: Byte, k: Caches, pos: nat)
    ensures AfterSend(Opcode, v, k).opcodes.slot == v
    ensures Code(Opcode, w, k, pos) == CharCode(k.opcodes.base[k.opcodes.slot], w, BYTE_BITS, 8)
  {
    assert v % 0x100 == v && w % 0x100 == w;
  }

  /** Behind a new identifier v, the next new one w is coded as its difference from v + 1. */
  lemma NewXidFollows(xid: SlottedName, free: IntName, v: Word, w: Word, k: Caches, pos: nat)
    requires !xid.Actions? && free != LastIds
    ensures var c, diff := NewXid(xid, free), LowWord(Minus(Minus(w, 1), v), XID_BITS);
            diff == (w - 1 - v) % Pow2(XID_BITS) &&
            Code(c, w, AfterSend(c, v, k), pos) == IntCode(AfterSend(c, v, k).Int(LastIds), diff, XID_BITS, 0)
  {
    DifferenceIs(w, v, XID_BITS);
    NewXidCode(xid, free, v, w, k, pos);
  }

  lemma NewXidCode(xid: SlottedName, free: IntName, v: Word, w: Word, k: Caches, pos: nat)
    requires !xid.Actions?
    ensures var next := AfterSend(NewXid(xid, free), v, k);
            Code(NewXid(xid, free), w, next, pos) ==
            IntCode(next.Int(LastIds), LowWord(Minus(Minus(w, 1), v), XID_BITS), XID_BITS, 0)
  {
    assert AfterSend(NewXid(xid, free), v, k).lastId == v;
  }

  lemma DifferenceIs(w: Word, v: Word, bits: nat)
    requires bits <= 32
    ensures Low(Minus(Minus(w, 1), v), bits) == (w - 1 - v) % Pow2(bits)
  {
    LowOfWrapped(Minus(w, 1) - v, bits);
    LowOfWrapped(w - 1, bits);
    SameLow(Minus(w, 1), w - 1, v, bits);
  }

  lemma SameLow(a: int, b: int, v: int, n: nat)
    requires Low(a, n) == Low(b, n)
    ensures Low(a - v, n) == Low(b - v, n)
  {
    LowShifted(a, b, -v, n);
  }

  // ----- The receiving side -----

  datatype Receiver = Receiver(stream: seq<bool>, pos: nat, caches: Caches)

  /** A value, or none: the read aborts, or strays behind the entries of a cache. */
  datatype Reception = Unread(strays: bool) | Received(value: Word, next: Receiver)

  /** One read by code c. */
  function Receive(c: Codec, r: Receiver): (g: Reception)
    requires c.Valid()
    ensures g.Received? ==> g.next.stream == r.stream && r.pos <= g.next.pos
    ensures g.Received? && (c.Slotted? || c.Opcode?) ==> r.pos < g.next.pos <= |r.stream|
  {
    var k, stream, pos := r.caches, r.stream, r.pos;
    match c
    case Plain(bits, block) =>
      (match Decode(stream, pos, bits, block)
       case Short => Unread(false)
       case Read(w, end) => FromBitsIsWord(w); Received(FromBits(w), r.(pos := end)))
    case Cached(name, bits, block) =>
      (match ReadInt(k.Int(name), bits, block, stream, pos)
       case IntAborts => Unread(false)
       case IntStrays => Unread(true)
       case IntRead(v, cache, end) => Received(v, Receiver(stream, end, PutInt(k, name, cache))))
    case CachedChar(name) =>
      (match ReadChar(k.Char(name), BYTE_BITS, 0, stream, pos)
       case CharEnds => Unread(false)
       case CharAborts => Unread(false)
       case CharStrays => Unread(true)
       case CharRead(v, cache, end) => Received(v, Receiver(stream, end, k.(chars := k.chars[name := cache]))))
    case Opcode =>
      var o := k.opcodes;
      (match ReadChar(o.base[o.slot], BYTE_BITS, 8, stream, pos)
       case CharEnds => Unread(false)
       case CharAborts => Unread(false)
       case CharStrays => Unread(true)
       case CharRead(v, cache, end) =>
         Received(v, Receiver(stream, end, k.(opcodes := OpcodeState(o.base[o.slot := cache], v)))))
    case Slotted(name) =>
      var s, bits := k.Slot(name), SlottedWidth(name);
      (match ReadInt(s.base[s.slot], bits, 0, stream, pos)
       case IntAborts => Unread(false)
       case IntStrays => Unread(true)
       case IntRead(t, cache, end) =>
         var v := LowWord(Plus(s.last, t), bits);
         Received(v, Receiver(stream, end, PutSlotted(k, name, StepSlotted(s, cache, v)))))
    case NewXid(name, free) =>
      (match ReadInt(k.Int(LastIds), XID_BITS, 0, stream, pos)
       case IntAborts => Unread(false)
       case IntStrays => Unread(true)
       case IntRead(t, ids, end) =>
         var v := LowWord(Plus(k.lastId, Plus(t, 1)), XID_BITS);
         Received(v, Receiver(stream, end, NewXidState(PutInt(k, LastIds, ids), name, free, v))))
    case Since(last, name) =>
      (match ReadInt(k.Int(name), COORDINATE_BITS, 8, stream, pos)
       case IntAborts => Unread(false)
       case IntStrays => Unread(true)
       case IntRead(t, diffs, end) =>
         var v := LowWord(Plus(k.Last(last), t), COORDINATE_BITS);
         Received(v, Receiver(stream, end, PutInt(k, name, diffs).(lasts := k.lasts[last := v]))))
    case Align =>
      var end := pos + ZerosToByte(pos);
      if end > |stream| then Unread(false) else Received(0, r.(pos := end))
    case RawByte =>
      if pos + 8 > |stream| then Unread(false)
      else Received(ByteOf(stream[pos..pos + 8]), r.(pos := pos + 8))
  }

  /** The value that arrives when v is sent: each code keeps only the bits it has room for. */
  function Delivered(c: Codec, v: Word): Word
    requires c.Valid()
  {
    match c
    case Plain(bits, _) => LowWord(v, bits)
    case Cached(_, bits, _) => LowWord(v, bits)
    case CachedChar(_) | Opcode | RawByte => v % 0x100
    case Slotted(name) => LowWord(v, SlottedWidth(name))
    case NewXid(_, _) => LowWord(v, XID_BITS)
    case Since(_, _) => LowWord(v, COORDINATE_BITS)
    case Align => 0
  }

  /** The number of bits that a code has room for. */
  function Room(c: Codec): nat {
    match c
    case Plain(bits, _) => bits
    case Cached(_, bits, _) => bits
    case CachedChar(_) | Opcode | RawByte => BYTE_BITS
    case Slotted(name) => SlottedWidth(name)
    case NewXid(_, _) => XID_BITS
    case Since(_, _) => COORDINATE_BITS
    case Align => 0
  }
}
