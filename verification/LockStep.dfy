/**
 The two sides of a channel in lock step: what one code writes, the same code reads, and both
 sets of prediction caches stay in step.
 */
module LockStep {
  import opened Words
  import opened CharCache
  import opened IntCache
  import opened ClientCache
  import opened BitCodec
  import opened Tokens

  /** The read at pos finds the value sent and stops behind its code, with the caches in step. */
  ghost predicate Arrives(c: Codec, v: Word, a: Caches, b: Caches, stream: seq<bool>, pos: nat)
    requires c.Valid()
  {
    var g := Receive(c, Receiver(stream, pos, b));
    && g.Received?
    && g.value == Delivered(c, v)
    && g.next.pos == pos + |Code(c, v, a, pos)|
    && InStep(AfterSend(c, v, a), g.next.caches)
  }

  lemma LowTwice(v: int, bits: nat)
    ensures Low(Low(v, bits), bits) == Low(v, bits)
  {
    LowIdentity(Low(v, bits), bits);
  }

  /** The receiver adds the masked difference to its own, masked, last value. */
  lemma Recovered(v: Word, last: Word, held: Word, t: Word, bits: nat)
    requires bits <= 32
    requires held == Low(last, bits)
    requires t == Low(Minus(v, last), bits)
    ensures Low(Plus(held, t), bits) == Low(v, bits)
  {
    LowTwice(last, bits);
    LowOfWrapped(v - last, bits);
    LowOfWrapped(held + t, bits);
    LowOfDifference(v, last, held, bits);
  }

  lemma LowByteOf(v: Word, bits: nat)
    requires bits == XID_BITS || bits == ACTION_BITS
    ensures Low(v, bits) % 0x100 == v % 0x100
  {
    Pow2Constants();
  }

  lemma PlainArrives(c: Codec, v: Word, a: Caches, b: Caches, stream: seq<bool>, pos: nat)
    requires c.Valid() && c.Plain? && InStep(a, b) && pos <= |stream|
    requires At(stream, pos, Code(c, v, a, pos))
    ensures Arrives(c, v, a, b, stream, pos)
  {
    DecodeEncode(BitsOf(v, c.bits), c.block, stream, pos);
    FromBitsOf(v, c.bits);
  }

  lemma CachedArrives(c: Codec, v: Word, a: Caches, b: Caches, stream: seq<bool>, pos: nat)
    requires c.Valid() && c.Cached? && InStep(a, b) && pos <= |stream|
    requires At(stream, pos, Code(c, v, a, pos))
    ensures Arrives(c, v, a, b, stream, pos)
  {
    IntLockStep(a.Int(c.ints), LowWord(v, c.bits), c.bits, c.block, stream, pos);
    PutIntInStep(a, b, c.ints, LookupState(a.Int(c.ints), LowWord(v, c.bits), c.bits));
  }

  lemma PutIntInStep(a: Caches, b: Caches, name: IntName, s: Ints)
    requires InStep(a, b)
    ensures InStep(PutInt(a, name, s), PutInt(b, name, s))
  {
    var a', b' := PutInt(a, name, s), PutInt(b, name, s);
    assert forall n :: a'.Slot(n) == a.Slot(n) && b'.Slot(n) == b.Slot(n);
    assert forall n :: a'.Last(n) == a.Last(n) && b'.Last(n) == b.Last(n);
  }

  lemma PutSlottedInStep(a: Caches, b: Caches, name: SlottedName, s: SlottedCache, t: SlottedCache)
    requires InStep(a, b) && SlottedInStep(s, t, SlottedWidth(name))
    ensures InStep(PutSlotted(a, name, s), PutSlotted(b, name, t))
  {
    var a', b' := PutSlotted(a, name, s), PutSlotted(b, name, t);
    assert forall n :: a'.Slot(n) == if n == name then s else a.Slot(n);
    assert forall n :: b'.Slot(n) == if n == name then t else b.Slot(n);
    assert forall n :: a'.Last(n) == a.Last(n) && b'.Last(n) == b.Last(n);
  }

  lemma CachedCharArrives(c: Codec, v: Word, a: Caches, b: Caches, stream: seq<bool>, pos: nat)
    requires c.Valid() && c.CachedChar? && InStep(a, b) && pos <= |stream|
    requires At(stream, pos, Code(c, v, a, pos))
    ensures Arrives(c, v, a, b, stream, pos)
  {
    Pow2Constants();
    CharLockStep(a.Char(c.chars), v % 0x100, BYTE_BITS, 0, stream, pos);
    PutCharInStep(a, b, c.chars, CharState(a.Char(c.chars), v % 0x100));
  }

  lemma PutCharInStep(a: Caches, b: Caches, name: CharName, s: Chars)
    requires InStep(a, b)
    ensures InStep(a.(chars := a.chars[name := s]), b.(chars := b.chars[name := s]))
  {
    var a', b' := a.(chars := a.chars[name := s]), b.(chars := b.chars[name := s]);
    assert forall n :: a'.Slot(n) == a.Slot(n) && b'.Slot(n) == b.Slot(n);
    assert forall n :: a'.Last(n) == a.Last(n) && b'.Last(n) == b.Last(n);
  }

  lemma PutOpcodesInStep(a: Caches, b: Caches, o: Opcodes)
    requires InStep(a, b)
    ensures InStep(a.(opcodes := o), b.(opcodes := o))
  {
    var a', b' := a.(opcodes := o), b.(opcodes := o);
    assert forall n :: a'.Slot(n) == a.Slot(n) && b'.Slot(n) == b.Slot(n);
    assert forall n :: a'.Last(n) == a.Last(n) && b'.Last(n) == b.Last(n);
  }

  lemma OpcodeArrives(c: Codec, v: Word, a: Caches, b: Caches, stream: seq<bool>, pos: nat)
    requires c.Valid() && c.Opcode? && InStep(a, b) && pos <= |stream|
    requires At(stream, pos, Code(c, v, a, pos))
    ensures Arrives(c, v, a, b, stream, pos)
  {
    Pow2Constants();
    var o := a.opcodes;
    CharLockStep(o.base[o.slot], v % 0x100, BYTE_BITS, 8, stream, pos);
    PutOpcodesInStep(a, b, OpcodeState(o.base[o.slot := CharState(o.base[o.slot], v % 0x100)], v % 0x100));
  }

  lemma SlottedArrives(c: Codec, v: Word, a: Caches, b: Caches, stream: seq<bool>, pos: nat)
    requires c.Valid() && c.Slotted? && InStep(a, b) && pos <= |stream|
    requires At(stream, pos, Code(c, v, a, pos))
    ensures Arrives(c, v, a, b, stream, pos)
  {
    var name, bits := c.slotted, SlottedWidth(c.slotted);
    var s, r := a.Slot(name), b.Slot(name);
    var t := LowWord(Minus(v, s.last), bits);
    var cache := LookupState(s.base[s.slot], t, bits);
    SlottedRead(s, r, v, t, bits, stream, pos);
    SlottedReceived(c, b, stream, pos, t, cache, pos + |IntCode(s.base[s.slot], t, bits, 0)|);
    StepInStep(s, r, cache, v, bits);
    PutSlottedInStep(a, b, name, StepSlotted(s, cache, v), StepSlotted(r, cache, LowWord(v, bits)));
  }

  lemma SlottedReceived(c: Codec, b: Caches, stream: seq<bool>, pos: nat, t: Word, cache: Ints, end: nat)
    requires c.Slotted?
    requires var r := b.Slot(c.slotted);
             ReadInt(r.base[r.slot], SlottedWidth(c.slotted), 0, stream, pos) == IntRead(t, cache, end)
    ensures var r := b.Slot(c.slotted);
            var v := LowWord(Plus(r.last, t), SlottedWidth(c.slotted));
            Receive(c, Receiver(stream, pos, b)) ==
            Received(v, Receiver(stream, end, PutSlotted(b, c.slotted, StepSlotted(r, cache, v))))
  {
  }

  lemma SlottedRead(s: SlottedCache, r: SlottedCache, v: Word, t: Word, bits: nat, stream: seq<bool>, pos: nat)
    requires 1 <= bits <= 32 && SlottedInStep(s, r, bits) && t == LowWord(Minus(v, s.last), bits)
    requires pos <= |stream| && At(stream, pos, IntCode(s.base[s.slot], t, bits, 0))
    ensures ReadInt(r.base[r.slot], bits, 0, stream, pos) ==
            IntRead(t, LookupState(s.base[s.slot], t, bits), pos + |IntCode(s.base[s.slot], t, bits, 0)|)
    ensures LowWord(Plus(r.last, t), bits) == LowWord(v, bits)
  {
    IntLockStep(s.base[s.slot], t, bits, 0, stream, pos);
    Recovered(v, s.last, r.last, t, bits);
  }

  lemma StepInStep(s: SlottedCache, r: SlottedCache, cache: Ints, v: Word, bits: nat)
    requires bits == XID_BITS || bits == ACTION_BITS
    requires SlottedInStep(s, r, bits)
    ensures SlottedInStep(StepSlotted(s, cache, v), StepSlotted(r, cache, LowWord(v, bits)), bits)
  {
    LowByteOf(v, bits);
  }

  /** A new identifier: sender and receiver push the same difference. */
  lemma PushInStep(s: SlottedCache, r: SlottedCache, v: Word)
    requires SlottedInStep(s, r, XID_BITS)
    ensures SlottedInStep(PushSlotted(s, v), PushSlotted(r, LowWord(v, XID_BITS)), XID_BITS)
  {
    var w := LowWord(v, XID_BITS);
    LowByteOf(v, XID_BITS);
    SameDifference(v, s.last);
  }

  lemma SameDifference(v: Word, last: Word)
    ensures Low(Minus(v, last), XID_BITS) == Low(Minus(LowWord(v, XID_BITS), LowWord(last, XID_BITS)), XID_BITS)
  {
    LowOfWrapped(v - last, XID_BITS);
    LowOfWrapped(LowWord(v, XID_BITS) - LowWord(last, XID_BITS), XID_BITS);
    LowOfLows(v, last, XID_BITS);
  }

  lemma NewXidStateInStep(a: Caches, b: Caches, name: SlottedName, free: IntName, v: Word)
    requires InStep(a, b) && !name.Actions?
    ensures InStep(NewXidState(a, name, free, v), NewXidState(b, name, free, LowWord(v, XID_BITS)))
  {
    var w := LowWord(v, XID_BITS);
    PushInStep(a.Slot(name), b.Slot(name), v);
    PutSlottedInStep(a, b, name, PushSlotted(a.Slot(name), v), PushSlotted(b.Slot(name), w));
    var a', b' := PutSlotted(a, name, PushSlotted(a.Slot(name), v)), PutSlotted(b, name, PushSlotted(b.Slot(name), w));
    LastIdInStep(a', b', v);
    LowTwice(v, XID_BITS);
    PutIntInStep(a'.(lastId := v), b'.(lastId := w), free, PushState(a.Int(free), v, XID_BITS));
  }

  lemma LastIdInStep(a: Caches, b: Caches, v: Word)
    requires InStep(a, b)
    ensures InStep(a.(lastId := v), b.(lastId := LowWord(v, XID_BITS)))
  {
    var a', b' := a.(lastId := v), b.(lastId := LowWord(v, XID_BITS));
    assert forall n :: a'.Slot(n) == a.Slot(n) && b'.Slot(n) == b.Slot(n);
    assert forall n :: a'.Last(n) == a.Last(n) && b'.Last(n) == b.Last(n);
  }

  lemma NewXidArrives(c: Codec, v: Word, a: Caches, b: Caches, stream: seq<bool>, pos: nat)
    requires c.Valid() && c.NewXid? && InStep(a, b) && pos <= |stream|
    requires At(stream, pos, Code(c, v, a, pos))
    ensures Arrives(c, v, a, b, stream, pos)
  {
    var t := LowWord(Minus(Minus(v, 1), a.lastId), XID_BITS);
    IntLockStep(a.Int(LastIds), t, XID_BITS, 0, stream, pos);
    NewXidRecovered(v, a.lastId, b.lastId, t);
    var ids := LookupState(a.Int(LastIds), t, XID_BITS);
    PutIntInStep(a, b, LastIds, ids);
    NewXidStateInStep(PutInt(a, LastIds, ids), PutInt(b, LastIds, ids), c.xid, c.free, v);
  }

  lemma NewXidRecovered(v: Word, last: Word, held: Word, t: Word)
    requires held == Low(last, XID_BITS) && t == Low(Minus(Minus(v, 1), last), XID_BITS)
    ensures Low(Plus(held, Plus(t, 1)), XID_BITS) == Low(v, XID_BITS)
  {
    var bits := XID_BITS;
    LowOfWrapped(held + Plus(t, 1), bits);
    OneMore(held, t, bits);
    assert Low(held + t, bits) == Low(v - 1, bits) by {
      BeforeNewXid(v, last, held, t);
    }
    LowShifted(held + t, v - 1, 1, bits);
  }

  lemma OneMore(held: Word, t: Word, bits: nat)
    requires bits <= 32
    ensures Low(held + Plus(t, 1), bits) == Low(held + t + 1, bits)
  {
    LowOfWrapped(t + 1, bits);
    LowShifted(Plus(t, 1), t + 1, held, bits);
  }

  lemma BeforeNewXid(v: Word, last: Word, held: Word, t: Word)
    requires held == Low(last, XID_BITS) && t == Low(Minus(Minus(v, 1), last), XID_BITS)
    ensures Low(held + t, XID_BITS) == Low(v - 1, XID_BITS)
  {
    Recovered(Minus(v, 1), last, held, t, XID_BITS);
    LowOfWrapped(held + t, XID_BITS);
    LowOfWrapped(v - 1, XID_BITS);
  }

  lemma SinceArrives(c: Codec, v: Word, a: Caches, b: Caches, stream: seq<bool>, pos: nat)
    requires c.Valid() && c.Since? && InStep(a, b) && pos <= |stream|
    requires At(stream, pos, Code(c, v, a, pos))
    ensures Arrives(c, v, a, b, stream, pos)
  {
    var last, held := a.Last(c.last), b.Last(c.last);
    var t := LowWord(Minus(v, last), COORDINATE_BITS);
    IntLockStep(a.Int(c.diffs), t, COORDINATE_BITS, 8, stream, pos);
    Recovered(v, last, held, t, COORDINATE_BITS);
    var diffs := LookupState(a.Int(c.diffs), t, COORDINATE_BITS);
    PutIntInStep(a, b, c.diffs, diffs);
    LowTwice(v, COORDINATE_BITS);
    PutLastInStep(PutInt(a, c.diffs, diffs), PutInt(b, c.diffs, diffs), c.last, v);
  }

  lemma PutLastInStep(a: Caches, b: Caches, name: LastName, v: Word)
    requires InStep(a, b)
    ensures InStep(a.(lasts := a.lasts[name := v]), b.(lasts := b.lasts[name := LowWord(v, COORDINATE_BITS)]))
  {
    var a', b' := a.(lasts := a.lasts[name := v]), b.(lasts := b.lasts[name := LowWord(v, COORDINATE_BITS)]);
    assert forall n :: a'.Slot(n) == a.Slot(n) && b'.Slot(n) == b.Slot(n);
    assert forall n :: a'.Last(n) == if n == name then v else a.Last(n);
    assert forall n :: b'.Last(n) == if n == name then LowWord(v, COORDINATE_BITS) else b.Last(n);
  }

  lemma RawArrives(c: Codec, v: Word, a: Caches, b: Caches, stream: seq<bool>, pos: nat)
    requires c.Valid() && (c.Align? || c.RawByte?) && InStep(a, b) && pos <= |stream|
    requires At(stream, pos, Code(c, v, a, pos))
    ensures Arrives(c, v, a, b, stream, pos)
  {
    AtSlice(stream, pos, Code(c, v, a, pos));
    ByteOfBits(v % 0x100);
  }

  /** Whatever has been sent before and whatever follows, each value that is written is read,
      reduced to the bits its code has room for, and the caches stay in step. */
  lemma TokenArrives(c: Codec, v: Word, a: Caches, b: Caches, stream: seq<bool>, pos: nat)
    requires c.Valid() && InStep(a, b) && pos <= |stream|
    requires At(stream, pos, Code(c, v, a, pos))
    ensures Arrives(c, v, a, b, stream, pos)
  {
    match c
    case Plain(_, _) => PlainArrives(c, v, a, b, stream, pos);
    case Cached(_, _, _) => CachedArrives(c, v, a, b, stream, pos);
    case CachedChar(_) => CachedCharArrives(c, v, a, b, stream, pos);
    case Opcode => OpcodeArrives(c, v, a, b, stream, pos);
    case Slotted(_) => SlottedArrives(c, v, a, b, stream, pos);
    case NewXid(_, _) => NewXidArrives(c, v, a, b, stream, pos);
    case Since(_, _) => SinceArrives(c, v, a, b, stream, pos);
    case Align => RawArrives(c, v, a, b, stream, pos);
    case RawByte => RawArrives(c, v, a, b, stream, pos);
  }

  /** Nothing that a sender of this program writes lets the other side stray or abort. */
  lemma SentNeverStrays(c: Codec, v: Word, a: Caches, b: Caches, stream: seq<bool>, pos: nat)
    requires c.Valid() && InStep(a, b) && pos <= |stream|
    requires At(stream, pos, Code(c, v, a, pos))
    ensures !Receive(c, Receiver(stream, pos, b)).Unread?
  {
    TokenArrives(c, v, a, b, stream, pos);
  }
}
