/**
 The decoding side of a channel at work on a message store: handleDecode, handleDecodeCached and
 handleSaveAdded of nxcomp/src/Channel.cpp.  A method that returns false has aborted the
 connection.
 */
module Decoding {
  import opened Words
  import opened Buffers
  import opened ClientCache
  import opened Tokens
  import opened Streams
  import opened Messages
  import opened Exchange
  import opened Splits
  import opened Channel
  import opened MessageStore

  class DecodingChannel {
    /** The decode buffer and the prediction caches. */
    var r: Receiver

    constructor (receiver: Receiver)
      ensures r == receiver
    {
      r := receiver;
    }

    /** decodeActionValue. */
    method DecodeAction(k: Kind) returns (ok: bool, action: nat, position: nat)
      modifies this
      ensures ok <==> Receive(Slotted(Actions(k)), old(r)).Received?
      ensures ok ==>
        var g := Receive(Slotted(Actions(k)), old(r));
        r == g.next && action == g.value / MAX_SLOTS && position == g.value % MAX_SLOTS
    {
      match Receive(Slotted(Actions(k)), r)
      case Unread(_) => return false, 0, 0;
      case Received(v, next) =>
        r := next;
        return true, v / MAX_SLOTS, v % MAX_SLOTS;
    }

    /** The loop over removals, and the action that ends it. */
    method HandleActions(store: MessageStore) returns (ok: bool, d: Decision)
      requires store.Valid() && !store.useChecksum
      modifies this, store, store.messages
      ensures store.Valid()
      ensures var g := ReadActions(KindOf(store.s), old(store.Slots()), old(r));
              (ok <==> g.ActionRead?) && (ok ==> d == g.decision && store.Slots() == g.slots && r == g.next)
    {
      ghost var was, from, stream := store.Slots(), r, r.stream;
      d := Discard;
      var action, position;
      ok, action, position := DecodeAction(KindOf(store.s));
      ghost var slots, at := was, from;
      while ok && action == IS_REMOVED
        invariant store.Valid() && !store.useChecksum && store.Slots() == slots
        invariant ReadActions(KindOf(store.s), slots, at) == ReadActions(KindOf(store.s), was, from)
        invariant at.stream == stream
        invariant ok <==> Receive(Slotted(Actions(KindOf(store.s))), at).Received?
        invariant ok ==>
          var g := Receive(Slotted(Actions(KindOf(store.s))), at);
          r == g.next && action == g.value / MAX_SLOTS && position == g.value % MAX_SLOTS
        decreases |stream| - at.pos, ok
      {
        if position >= store.cacheSlots || store.messages[position].None? {
          return false, Discard;
        }
        store.NoteRemoved(position);
        store.Remove(position);
        slots := slots[position := None];
        at := r;
        ok, action, position := DecodeAction(KindOf(store.s));
      }
      if ok {
        d := if action == IS_HIT then Hit(position) else if action == IS_ADDED then Add(position) else Discard;
      }
    }

    /** A hit: the identity of the cached message is brought up to date and written out with its
        data part. */
    method HandleHit(store: MessageStore, position: nat, scratch: Bytes) returns (ok: bool, out: Bytes, taken: bool)
      requires store.Valid() && !store.useChecksum
      modifies this, store, store.messages
      ensures store.Valid()
      ensures var g := DecodeHit(store.s, old(store.Slots()), position, scratch, old(r));
              (ok <==> g.Decoded?) &&
              (ok ==> out == g.out && taken == g.taken && store.Slots() == g.slots && r == g.next)
    {
      ok, out, taken := false, [], false;
      if position >= store.cacheSlots || store.messages[position].None? {
        return;
      }
      var held := store.messages[position].value.content;
      match ReceiveAll(UpdateReads(store.s), r)
      case UnreadAll => return;
      case ReceivedAll(vs, r') =>
        var identity := Restoring(store.s, held.identity, vs);
        match Unparsed(store.s, held)
        case None => return;
        case Some(data) =>
          match ReadTaken(store.s.Splits(), r')
          case NoFlag => return;
          case FlagRead(flag, r'') =>
            store.Modify(position, held.(identity := identity));
            r := r'';
            return true, Writing(store.s, scratch, identity, data), flag;
    }

    /** handleSaveAdded: parses the request in the write buffer and stores it. */
    method Save(store: MessageStore, d: Decision, out: Bytes, content: Content, now: int) returns (ok: bool)
      requires store.Valid() && !store.useChecksum && |out| >= store.s.c.identitySize && content.checksum == None
      modifies store, store.messages
      ensures store.Valid()
      ensures ok <==> Saved(store.s, old(store.Slots()), d, out, content).Some?
      ensures ok ==> Some(store.Slots()) == Saved(store.s, old(store.Slots()), d, out, content)
    {
      match d
      case Add(position) =>
        if position >= store.cacheSlots {
          return false;
        }
        store.NoteAdded(position);
        store.Add(content.(identity := ParsedIdentity(store.s, out), size := |out|), position, now);
        return true;
      case _ => return true;
    }

    /** A request taken by a split: the data part is to follow. */
    method HandleTaken(store: MessageStore, d: Decision, identity: seq<Word>, scratch: Bytes, now: int)
      returns (ok: bool, out: Bytes)
      requires store.Valid() && !store.useChecksum && |identity| == Arity(store.s)
      modifies this, store, store.messages
      ensures store.Valid()
      ensures var g := DecodeTaken(store.s, old(store.Slots()), d, identity, scratch, old(r));
              (ok <==> g.Decoded?) && (ok ==> out == g.out && g.taken && store.Slots() == g.slots && r == g.next)
    {
      out := [];
      match ReadFlag(r)
      case NoFlag => return false, [];
      case FlagRead(checksum, r') =>
        if checksum {
          return false, [];
        }
        r := r';
        var n := RoundUp4(store.s.c.tail(identity).Size());
        out := Writing(store.s, scratch, identity, Blank(scratch, store.s.c.identitySize, n));
        ok := Save(store, d, out, Content([], 0, 0, None, Zeros(n), 1), now);
    }

    /** A request whose data part follows at once. */
    method HandleWhole(store: MessageStore, d: Decision, identity: seq<Word>, scratch: Bytes, now: int)
      returns (ok: bool, out: Bytes)
      requires store.Valid() && !store.useChecksum && |identity| == Arity(store.s)
      modifies this, store, store.messages
      ensures store.Valid()
      ensures var g := DecodeWhole(store.s, old(store.Slots()), d, identity, scratch, old(r));
              (ok <==> g.Decoded?) && (ok ==> out == g.out && !g.taken && store.Slots() == g.slots && r == g.next)
    {
      var g := ReadData(store.s, store.s.c.tail(identity), d.Add?, scratch, r);
      ok, out := SaveWhole(store, d, identity, scratch, g, now);
    }

    method SaveWhole(store: MessageStore, d: Decision, identity: seq<Word>, scratch: Bytes, g: DataReading, now: int)
      returns (ok: bool, out: Bytes)
      requires store.Valid() && !store.useChecksum && |identity| == Arity(store.s)
      modifies this, store, store.messages
      ensures store.Valid()
      ensures var x := WriteWhole(store.s, old(store.Slots()), d, identity, scratch, g);
              (ok <==> x.Decoded?) && (ok ==> out == x.out && !x.taken && store.Slots() == x.slots && r == x.next)
    {
      out := [];
      match g
      case NoData => return false, [];
      case DataRead(data, kept, compressed, next) =>
        out := Writing(store.s, scratch, identity, data);
        var content := Content([], 0, if compressed then |kept| + store.s.c.identitySize else 0, None, kept, 0);
        ok := Save(store, d, out, content, now);
        r := next;
    }

    /** A request that was not hit. */
    method HandleMiss(store: MessageStore, d: Decision, scratch: Bytes, now: int) returns (ok: bool, out: Bytes, taken: bool)
      requires store.Valid() && !store.useChecksum
      modifies this, store, store.messages
      ensures store.Valid()
      ensures var g := DecodeMiss(store.s, old(store.Slots()), d, scratch, old(r));
              (ok <==> g.Decoded?) &&
              (ok ==> out == g.out && taken == g.taken && store.Slots() == g.slots && r == g.next)
    {
      out, taken := [], false;
      match ReceiveAll(store.s.c.codecs, r)
      case UnreadAll => return false, [], false;
      case ReceivedAll(identity, r') =>
        match ReadTaken(store.s.SplitsData(), r')
        case NoFlag => return false, [], false;
        case FlagRead(flag, r'') =>
          r := r'';
          taken := flag;
          if taken {
            ok, out := HandleTaken(store, d, identity, scratch, now);
          } else {
            ok, out := HandleWhole(store, d, identity, scratch, now);
          }
    }

    /** handleDecode. */
    method HandleDecode(store: MessageStore, scratch: Bytes, now: int)
      returns (ok: bool, out: Bytes, d: Decision, taken: bool)
      requires store.Valid() && !store.useChecksum
      modifies this, store, store.messages
      ensures store.Valid()
      ensures var g := DecodeRequest(store.s, old(store.Slots()), scratch, old(r));
              (ok <==> g.Decoded?) &&
              (ok ==> out == g.out && d == g.decision && taken == g.taken && store.Slots() == g.slots && r == g.next)
    {
      out, taken := [], false;
      ok, d := HandleActions(store);
      if ok {
        if d.Hit? {
          ok, out, taken := HandleHit(store, d.position, scratch);
        } else {
          ok, out, taken := HandleMiss(store, d, scratch, now);
        }
      }
    }

    /** CommitStore::update: a message that was added gets its data and is unlocked. */
    method UpdateCommitted(store: MessageStore, i: Incoming)
      requires store.Valid() && !store.useChecksum
      modifies store, store.messages
      ensures store.Valid()
      ensures store.Slots() == Recomposed(store.s, old(store.Slots()), i)
    {
      if i.decision.Add? && i.decision.position < store.cacheSlots && store.messages[i.decision.position].Some? {
        var p := i.decision.position;
        store.UpdateData(p, i.compressedSize);
        store.Modify(p, store.messages[p].value.content.(data := i.data));
        if store.messages[p].value.content.locks > 0 {
          store.Unlock(p);
        }
      }
    }
  }
}
