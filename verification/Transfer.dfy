/**
 The two sides at work on two message stores: what the methods of the encoding side leave, the
 methods of the decoding side follow.
 */
module Transfer {
  import opened Buffers
  import opened ClientCache
  import opened BitCodec
  import opened Tokens
  import opened Streams
  import opened Exchange
  import opened Coherence
  import opened Splits
  import opened Channel
  import opened Runs
  import opened MessageStore
  import opened Encoding
  import opened Decoding

  /** Two stores of one class, at either side, hold counterparts. */
  ghost predicate Together(x: MessageStore, y: MessageStore)
    reads x, x.messages, y, y.messages
  {
    && x != y && x.messages != y.messages && x.s == y.s
    && x.Valid() && x.Ready() && x.useChecksum && y.Valid() && !y.useChecksum
    && Coherent(x.s, x.Slots(), y.Slots())
  }

  /** The tokens written after the first n. */
  function WrittenAfter(sent: seq<Token>, n: nat): seq<Token>
    requires n <= |sent|
  {
    sent[n..]
  }

  lemma FrameBefore(r: Receiver, ts: seq<Token>, k: Caches)
    requires r.stream == Codes(ts, k, 0) && r.pos == 0 && InStep(k, r.caches)
    ensures Before(r, ts, k)
  {
    assert r.stream[0..|r.stream|] == r.stream;
    AtSlice(r.stream, 0, Codes(ts, k, 0));
  }

  /** What the methods of the decoding side find, by what those of the encoding side have done. */
  lemma DecodedTogether(r: Receiver, s: Store, a: Slots, b: Slots, m: Bytes, message: Bytes, ps: seq<nat>, d: Decision,
                        take: bool, scratch: Bytes, k: Caches)
    requires Good(s, m) && Good(s, message) && (message == m || message == NormalisedOf(s, m))
    requires Coherent(s, a, b) && CanChoose(s, a, message, ps, d)
    requires Before(r, RequestTokens(s, a, message, ps, d, take), k)
    ensures var g := DecodeRequest(s, b, scratch, r);
            g.Decoded? && g.decision == d && g.taken == Taken(s, d, take) &&
            Coherent(s, Encoded(s, Removed(a, ps), message, d, take), g.slots) &&
            Behind(g.next, r, RequestTokens(s, a, message, ps, d, take), k) &&
            (!g.taken ==> Presents(s, m, g.out))
  {
    RequestArrives(r, s, a, b, message, ps, d, take, scratch, k);
    var g := DecodeRequest(s, b, scratch, r);
    if !g.taken {
      AnnouncedPresents(s, message, g.out, scratch);
      NormalisedSame(s, m);
    }
  }

  /** The tokens of a request are carried and decoded. */
  method Deliver(ts: seq<Token>, k: Caches, b: DecodingChannel, y: MessageStore, scratch: Bytes, now: int,
                 ghost was: Slots, ghost m: Bytes, ghost message: Bytes, ghost ps: seq<nat>, ghost d: Decision, ghost take: bool)
    returns (out: Bytes, taken: bool)
    requires y.Valid() && !y.useChecksum && InStep(k, b.r.caches) && Coherent(y.s, was, y.Slots())
    requires Good(y.s, m) && Good(y.s, message) && (message == m || message == NormalisedOf(y.s, m))
    requires CanChoose(y.s, was, message, ps, d) && ts == RequestTokens(y.s, was, message, ps, d, take)
    modifies b, y, y.messages
    ensures y.Valid() && Coherent(y.s, Encoded(y.s, Removed(was, ps), message, d, take), y.Slots())
    ensures InStep(AfterAll(ts, k), b.r.caches) && b.r.pos == |b.r.stream|
    ensures taken == Taken(y.s, d, take) && (!taken ==> Presents(y.s, m, out))
  {
    b.r := Receiver(Codes(ts, k, 0), 0, b.r.caches);
    ghost var r := b.r;
    FrameBefore(r, ts, k);
    DecodedTogether(r, y.s, was, y.Slots(), m, message, ps, d, take, scratch, k);
    var ok, decision;
    ok, out, decision, taken := b.HandleDecode(y, scratch, now);
    PassedWhole(b.r, r, ts, k);
  }

  /** A request is encoded; the tokens are those to carry. */
  method Take(a: EncodingChannel, x: MessageStore, m: Bytes, take: bool, othersLocal: nat, othersRemote: nat, now: int)
    returns (ts: seq<Token>, d: Decision, ghost message: Bytes, ghost ps: seq<nat>)
    requires x.Valid() && x.Ready() && x.useChecksum && Good(x.s, m)
    modifies a`sent, x, x.messages
    ensures x.Valid() && x.Ready()
    ensures Good(x.s, message) && (message == m || message == NormalisedOf(x.s, m))
    ensures Treated(a.SweepOf(x, othersLocal, othersRemote, now), x.s, a.enableCache, old(x.Current()), m, message, ps, d)
    ensures CanChoose(x.s, old(x.Slots()), message, ps, d) && ts == RequestTokens(x.s, old(x.Slots()), message, ps, d, take)
    ensures x.Slots() == Encoded(x.s, Removed(old(x.Slots()), ps), message, d, take)
  {
    var n := |a.sent|;
    var hit, parsed;
    hit, parsed, ps, d := a.HandleEncode(x, m, take, othersLocal, othersRemote, now);
    message := parsed;
    ts := WrittenAfter(a.sent, n);
  }

  /** A request is encoded, carried and decoded: whatever the two stores hold, they hold counterparts
      again, the caches are in step again, and the X server is told what the client said, unless a
      split is to tell it. */
  method Carry(a: EncodingChannel, x: MessageStore, b: DecodingChannel, y: MessageStore, k: Caches,
               m: Bytes, take: bool, othersLocal: nat, othersRemote: nat, scratch: Bytes, now: int)
    returns (out: Bytes, d: Decision, taken: bool, k': Caches, ghost message: Bytes, ghost ps: seq<nat>)
    requires Together(x, y) && Good(x.s, m) && InStep(k, b.r.caches)
    modifies a`sent, x, x.messages, b, y, y.messages
    ensures Together(x, y) && InStep(k', b.r.caches) && b.r.pos == |b.r.stream|
    ensures taken == Taken(x.s, d, take) && (!taken ==> Presents(x.s, m, out))
    ensures Good(x.s, message) &&
            Treated(a.SweepOf(x, othersLocal, othersRemote, now), x.s, old(a.enableCache), old(x.Current()), m, message, ps, d)
  {
    ghost var was := x.Slots();
    var ts;
    ts, d, message, ps := Take(a, x, m, take, othersLocal, othersRemote, now);
    out, taken := Deliver(ts, k, b, y, scratch, now, was, m, message, ps, d, take);
    k' := AfterAll(ts, k);
  }

  lemma PassedWhole(r': Receiver, r: Receiver, ts: seq<Token>, k: Caches)
    requires Behind(r', r, ts, k) && r.pos == 0 && r.stream == Codes(ts, k, 0)
    ensures r'.pos == |r'.stream| && InStep(AfterAll(ts, k), r'.caches)
  {
    assert Looking(0);
  }

  /** A split that is complete on both sides is committed: the stores hold counterparts again. */
  method Commit(a: EncodingChannel, x: MessageStore, b: DecodingChannel, y: MessageStore, o: Outgoing, i: Incoming)
    requires Together(x, y) && Partners(x.s, o, i) && Complete(o) && AllReceived(i) && Locks(x.s, x.Slots(), o)
    modifies x, x.messages, y, y.messages
    ensures Together(x, y)
  {
    ghost var was, held := x.Slots(), y.Slots();
    UnlockedCoherent(x.s, was, held, o, i);
    a.UpdateCommitted(x, o);
    b.UpdateCommitted(y, i);
  }
}
