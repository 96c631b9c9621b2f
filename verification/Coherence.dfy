/**
 The two stores of a message class stay coherent: the same slots are occupied, each by what the
 other side needs, and every request is written out as the X server would have understood it.
 */
module Coherence {
  import opened Words
  import opened Buffers
  import opened ClientCache
  import opened Tokens
  import opened Streams
  import opened Messages
  import opened Fingerprints
  import opened Rebuilding
  import opened Exchange
  import opened Arrivals

  // ----- Coherent stores -----

  /** The decoding side can produce the given data part. */
  ghost predicate Holds(s: Store, held: Content, d: Bytes) {
    if held.compressedSize == 0 then held.data == d
    else s.compressor.decompress(held.data, |d|) == Some(d) && held.compressedSize == |held.data| + s.c.identitySize
  }

  /** A cached message at the encoding side and its counterpart, for the request m that was
      last cached or found there. */
  ghost predicate Represents(s: Store, m: Bytes, sent: Content, held: Content)
    requires Good(s, m)
  {
    && sent.checksum == Some(ChecksumOf(s, m))
    && sent.identity == ParsedIdentity(s, m)
    && sent.data == [] && held.checksum == None
    && held.identity == ArrivedIdentity(s, m)
    && sent.size == held.size == |m|
    && sent.locks == held.locks
    && sent.compressedSize == held.compressedSize
    && if sent.locks == 0 then Holds(s, held, DataOf(s, m)) else held.compressedSize == 0
  }

  ghost predicate Matches(s: Store, sent: Content, held: Content) {
    exists m :: Good(s, m) && Represents(s, m, sent, held)
  }

  ghost predicate Coherent(s: Store, a: Slots, b: Slots) {
    && |a| == |b| <= MAX_SLOTS
    && forall p :: 0 <= p < |a| ==>
      (a[p].Some? <==> b[p].Some?) && (a[p].Some? ==> Matches(s, a[p].value, b[p].value))
  }

  lemma CoherentRemoved(s: Store, a: Slots, b: Slots, p: nat)
    requires Coherent(s, a, b) && p < |a|
    ensures Coherent(s, a[p := None], b[p := None])
  {
  }

  lemma CoherentStored(s: Store, a: Slots, b: Slots, p: nat, sent: Content, held: Content)
    requires Coherent(s, a, b) && p < |a| && Matches(s, sent, held)
    ensures Coherent(s, a[p := Some(sent)], b[p := Some(held)])
  {
  }

  // ----- Removals and the action -----

  lemma ActionArrives(r: Receiver, kind: Kind, action: nat, p: nat, k: Caches)
    requires action < 4 && p < MAX_SLOTS && Before(r, [ActionToken(kind, action, p)], k)
    ensures var g := Receive(Slotted(Actions(kind)), r);
            g.Received? && g.value / MAX_SLOTS == action && g.value % MAX_SLOTS == p &&
            Behind(g.next, r, [ActionToken(kind, action, p)], k)
  {
    OneArrives(r, ActionToken(kind, action, p), k);
    LowIdentity(ActionWord(action, p), ACTION_BITS);
    Pow2Constants();
  }

  lemma RemovalArrives(r: Receiver, kind: Kind, b: Slots, p: nat, k: Caches)
    requires p < |b| <= MAX_SLOTS && b[p].Some? && Before(r, [ActionToken(kind, IS_REMOVED, p)], k)
    ensures var g := Receive(Slotted(Actions(kind)), r);
            g.Received? && Behind(g.next, r, [ActionToken(kind, IS_REMOVED, p)], k) &&
            ReadActions(kind, b, r) == ReadActions(kind, b[p := None], g.next)
  {
    ActionArrives(r, kind, IS_REMOVED, p, k);
  }

  lemma DecisionArrives(r: Receiver, kind: Kind, b: Slots, d: Decision, k: Caches)
    requires d.Discard? || d.position < MAX_SLOTS
    requires Before(r, [DecisionToken(kind, d)], k)
    ensures var g := ReadActions(kind, b, r);
            g.ActionRead? && g.decision == d && g.slots == b && Behind(g.next, r, [DecisionToken(kind, d)], k)
  {
    match d
    case Discard => ActionArrives(r, kind, IS_DISCARDED, 0, k);
    case Add(p) => ActionArrives(r, kind, IS_ADDED, p, k);
    case Hit(p) => ActionArrives(r, kind, IS_HIT, p, k);
  }

  ghost predicate SameOccupied(a: Slots, b: Slots) {
    |a| == |b| <= MAX_SLOTS && forall p :: 0 <= p < |a| ==> (a[p].Some? <==> b[p].Some?)
  }

  /** The decoding side removes what the encoding side removed and learns its decision. */
  lemma {:induction false} ActionsArrive(r: Receiver, kind: Kind, a: Slots, b: Slots, ps: seq<nat>, d: Decision, k: Caches)
    requires SameOccupied(a, b) && CanRemove(a, ps)
    requires forall i :: 0 <= i < |ps| ==> ps[i] < |a|
    requires d.Discard? || d.position < MAX_SLOTS
    requires Before(r, Removals(kind, ps) + [DecisionToken(kind, d)], k)
    ensures var g := ReadActions(kind, b, r);
            g.ActionRead? && g.decision == d && g.slots == Removed(b, ps) &&
            Behind(g.next, r, Removals(kind, ps) + [DecisionToken(kind, d)], k)
    decreases |ps|
  {
    if ps == [] {
      assert Removals(kind, ps) + [DecisionToken(kind, d)] == [DecisionToken(kind, d)];
      DecisionArrives(r, kind, b, d, k);
    } else {
      var first, rest := [ActionToken(kind, IS_REMOVED, ps[0])], Removals(kind, ps[1..]) + [DecisionToken(kind, d)];
      assert Removals(kind, ps) + [DecisionToken(kind, d)] == first + rest;
      BeforeSplit(r, first, rest, k);
      RemovalArrives(r, kind, b, ps[0], k);
      var r' := Receive(Slotted(Actions(kind)), r).next;
      ActionsArrive(r', kind, a[ps[0] := None], b[ps[0] := None], ps[1..], d, AfterAll(first, k));
      BehindBoth(ReadActions(kind, b[ps[0] := None], r').next, r', r, first, rest, k);
    }
  }

  lemma {:induction false} RemovedCoherent(s: Store, a: Slots, b: Slots, ps: seq<nat>)
    requires Coherent(s, a, b) && forall i :: 0 <= i < |ps| ==> ps[i] < |a|
    ensures Coherent(s, Removed(a, ps), Removed(b, ps))
    decreases |ps|
  {
    if ps != [] {
      CoherentRemoved(s, a, b, ps[0]);
      RemovedCoherent(s, a[ps[0] := None], b[ps[0] := None], ps[1..]);
    }
  }

  // ----- What is written out -----

  /** The request written out has the identity that arrived of m, and its size. */
  ghost predicate Announces(s: Store, m: Bytes, out: Bytes, scratch: Bytes)
    requires Good(s, m)
  {
    && |out| == |m|
    && out == Writing(s, scratch, ArrivedIdentity(s, m), out[s.c.identitySize..])
  }

  /** What the X server reads in the request written out for m: a request of the class and the size
      of m that has, in each field as it stands in the bytes, what arrives of that field of m, and
      what arrives of the values behind the identity. */
  ghost predicate Presents(s: Store, m: Bytes, out: Bytes)
    requires Good(s, m)
  {
    && Good(s, out) && |out| == |m|
    && FieldsOf(s, out) == ArrivedIdentity(s, m)
    && Carries(s, m, out[s.c.identitySize..])
  }

  lemma AnnouncedPresents(s: Store, m: Bytes, out: Bytes, scratch: Bytes)
    requires Good(s, m) && Announces(s, m, out, scratch) && Carries(s, m, out[s.c.identitySize..])
    ensures Presents(s, m, out)
  {
    var n := s.c.identitySize;
    GoodFacts(s, m);
    RebuiltCanonical(s.c, s.bigEndian, m, out, Blank(scratch, 0, n), out[n..]);
  }

  lemma WritingHead(s: Store, scratch: Bytes, identity: seq<Word>, d: Bytes, e: Bytes)
    requires |identity| == Arity(s) && |d| == |e|
    ensures Writing(s, scratch, identity, d)[..s.c.identitySize] == Writing(s, scratch, identity, e)[..s.c.identitySize]
  {
    StoreFacts(s);
    RequestFront(s.c, s.bigEndian, Blank(scratch, 0, s.c.identitySize), identity, d, e);
  }

  lemma WritingAnnounces(s: Store, m: Bytes, scratch: Bytes, data: Bytes)
    requires Good(s, m) && |data| == |m| - s.c.identitySize
    ensures Announces(s, m, Writing(s, scratch, ArrivedIdentity(s, m), data), scratch)
  {
  }

  lemma ReadTakenArrives(r: Receiver, asked: bool, take: bool, k: Caches)
    requires Before(r, TakeTokens(asked, take), k)
    ensures var g := ReadTaken(asked, r);
            g.FlagRead? && g.flag == (asked && take) && Behind(g.next, r, TakeTokens(asked, take), k)
  {
    if asked {
      FlagArrives(r, take, k);
    } else {
      NothingRead(r, k);
    }
  }

  // ----- Hits -----

  lemma UpdatesArrive(r: Receiver, s: Store, cached: seq<Word>, identity: seq<Word>, k: Caches)
    requires |cached| == |identity| == Arity(s) && Before(r, Updating(s, cached, identity), k)
    ensures var ts := Updating(s, cached, identity);
            var g := ReceiveAll(UpdateReads(s), r);
            g.ReceivedAll? && g.values == DeliveredOf(ts) && Behind(g.next, r, ts, k)
  {
    var ts := Updating(s, cached, identity);
    StoreFacts(s);
    assert CodecsOf(ts) == UpdateReads(s);
    AllArrive(r, ts, k);
  }

  lemma UnparsedHolds(s: Store, held: Content, d: Bytes)
    requires Holds(s, held, d) && held.size == |d| + s.c.identitySize
    ensures Unparsed(s, held) == Some(d)
  {
  }

  /** A hit: the identity that is restored and the data part that is found are those of m. */
  lemma HitContent(s: Store, m0: Bytes, m: Bytes, sent: Content, held: Content)
    requires Good(s, m0) && Good(s, m) && Represents(s, m0, sent, held) && sent.locks == 0
    requires sent.checksum == Some(ChecksumOf(s, m))
    ensures var ts := Updating(s, sent.identity, ParsedIdentity(s, m));
            |ts| == |UpdateReads(s)| && Restoring(s, held.identity, DeliveredOf(ts)) == ArrivedIdentity(s, m)
    ensures Represents(s, m, sent.(identity := Refreshing(s, sent.identity, ParsedIdentity(s, m))),
                             held.(identity := ArrivedIdentity(s, m)))
    ensures Unparsed(s, held) == Some(DataOf(s, m))
  {
    assert |DataOf(s, m)| == |m| - s.c.identitySize;
    HitFollows(s, m0, m);
    UnparsedHolds(s, held, DataOf(s, m));
  }

  lemma HitFollows(s: Store, m0: Bytes, m: Bytes)
    requires Good(s, m0) && Good(s, m) && ChecksumOf(s, m0) == ChecksumOf(s, m)
    ensures var cached, identity := ParsedIdentity(s, m0), ParsedIdentity(s, m);
            Refreshing(s, cached, identity) == identity && |Updating(s, cached, identity)| == |UpdateReads(s)| &&
            Restoring(s, ArrivedIdentity(s, m0), DeliveredOf(Updating(s, cached, identity))) == ArrivedIdentity(s, m)
    ensures |m0| == |m| && DataOf(s, m0) == DataOf(s, m)
  {
    GoodFacts(s, m0);
    GoodFacts(s, m);
    HitRestores(s.c, s.bigEndian, m0, m);
  }

  lemma HitTokensArrive(r: Receiver, s: Store, sent: Content, m: Bytes, take: bool, k: Caches)
    requires Good(s, m) && |sent.identity| == Arity(s) && Before(r, HitTokens(s, sent, m, take), k)
    ensures var g := ReceiveAll(UpdateReads(s), r);
            g.ReceivedAll? && g.values == DeliveredOf(Updating(s, sent.identity, ParsedIdentity(s, m))) &&
            var f := ReadTaken(s.Splits(), g.next);
            f.FlagRead? && f.flag == (s.Splits() && take) && Behind(f.next, r, HitTokens(s, sent, m, take), k)
  {
    var ts, flag := Updating(s, sent.identity, ParsedIdentity(s, m)), TakeTokens(s.Splits(), take);
    BeforeSplit(r, ts, flag, k);
    UpdatesArrive(r, s, sent.identity, ParsedIdentity(s, m), k);
    var r' := ReceiveAll(UpdateReads(s), r).next;
    ReadTakenArrives(r', s.Splits(), take, AfterAll(ts, k));
    BehindBoth(ReadTaken(s.Splits(), r').next, r', r, ts, flag, k);
  }

  /** The slots on both sides after a hit. */
  lemma HitCoherent(s: Store, a: Slots, b: Slots, p: nat, m: Bytes, take: bool)
    requires Good(s, m) && Coherent(s, a, b) && CanDecide(s, a, m, Hit(p))
    ensures |b[p].value.identity| == Arity(s)
    ensures var ts := Updating(s, a[p].value.identity, ParsedIdentity(s, m));
            |ts| == |UpdateReads(s)| && Restoring(s, b[p].value.identity, DeliveredOf(ts)) == ArrivedIdentity(s, m)
    ensures Unparsed(s, b[p].value) == Some(DataOf(s, m))
    ensures Coherent(s, Encoded(s, a, m, Hit(p), take),
                     b[p := Some(b[p].value.(identity := ArrivedIdentity(s, m)))])
  {
    var sent, held := a[p].value, b[p].value;
    var m0 :| Good(s, m0) && Represents(s, m0, sent, held);
    HitContent(s, m0, m, sent, held);
    CoherentStored(s, a, b, p, sent.(identity := Refreshing(s, sent.identity, ParsedIdentity(s, m))),
                   held.(identity := ArrivedIdentity(s, m)));
  }

  lemma HitArrives(r: Receiver, s: Store, a: Slots, b: Slots, p: nat, m: Bytes, take: bool, scratch: Bytes, k: Caches)
    requires Good(s, m) && Coherent(s, a, b) && CanDecide(s, a, m, Hit(p))
    requires Before(r, HitTokens(s, a[p].value, m, take), k)
    ensures var g := DecodeHit(s, b, p, scratch, r);
            g.Decoded? && g.decision == Hit(p) && g.taken == (s.Splits() && take) &&
            Announces(s, m, g.out, scratch) && g.out[s.c.identitySize..] == DataOf(s, m) &&
            Coherent(s, Encoded(s, a, m, Hit(p), take), g.slots) &&
            Behind(g.next, r, HitTokens(s, a[p].value, m, take), k)
  {
    HitTokensArrive(r, s, a[p].value, m, take, k);
    HitCoherent(s, a, b, p, m, take);
    WritingAnnounces(s, m, scratch, DataOf(s, m));
  }

  // ----- Misses -----

  lemma IdentityArrives(r: Receiver, s: Store, m: Bytes, k: Caches)
    requires Good(s, m) && Before(r, IdentityTokens(s, m), k)
    ensures var g := ReceiveAll(s.c.codecs, r);
            g.ReceivedAll? && g.values == ArrivedIdentity(s, m) && Behind(g.next, r, IdentityTokens(s, m), k)
  {
    GoodFacts(s, m);
    ZipArrives(r, s.c.codecs, Fields(s.c, s.bigEndian, m), k);
  }

  /** A request rebuilt by the decoding side is parsed into the identity that arrived. */
  lemma RebuiltParsed(s: Store, m: Bytes, out: Bytes, scratch: Bytes)
    requires Good(s, m) && Announces(s, m, out, scratch)
    ensures ParsedIdentity(s, out) == ArrivedIdentity(s, m)
  {
    var n := s.c.identitySize;
    GoodFacts(s, m);
    RebuiltFields(s.c, s.bigEndian, m, out, Blank(scratch, 0, n), out[n..]);
    DeliverAllTwice(s.c.codecs, Fields(s.c, s.bigEndian, m));
  }

  lemma TailExpected(s: Store, m: Bytes)
    requires Good(s, m)
    ensures s.c.tail(ArrivedIdentity(s, m)) == TailFor(s, m)
    ensures RoundUp4(TailFor(s, m).Size()) == |DataOf(s, m)|
  {
    GoodFacts(s, m);
    SameTail(s.c, s.bigEndian, m);
  }

  /** What is kept by the decoding side of a request that is added. */
  ghost predicate Keepable(s: Store, m: Bytes, take: bool, content: Content)
    requires Good(s, m)
  {
    && content.checksum == None
    && content.locks == (if TakenByMiss(s, take) then 1 else 0)
    && if content.locks == 0 then Holds(s, content, DataOf(s, m)) && content.compressedSize == AddedSize(s, m)
       else content.compressedSize == 0
  }

  /** What handleSaveAdded stores is the counterpart of what the encoding side stored. */
  lemma SavedCoherent(s: Store, a: Slots, b: Slots, m: Bytes, d: Decision, take: bool,
                      out: Bytes, scratch: Bytes, content: Content)
    requires Good(s, m) && Coherent(s, a, b) && CanDecide(s, a, m, d) && !d.Hit?
    requires Announces(s, m, out, scratch) && (d.Add? ==> Keepable(s, m, take, content))
    ensures Saved(s, b, d, out, content).Some?
    ensures Coherent(s, Encoded(s, a, m, d, take), Saved(s, b, d, out, content).value)
  {
    if d.Add? {
      RebuiltParsed(s, m, out, scratch);
      var held := content.(identity := ParsedIdentity(s, out), size := |out|);
      assert Represents(s, m, KeptContent(s, m, take), held);
      CoherentStored(s, a, b, d.position, KeptContent(s, m, take), held);
    }
  }

  function WholeContent(s: Store, g: DataReading): Content
    requires g.DataRead?
  {
    Content([], 0, SizeKept(s, g), None, g.kept, 0)
  }

  lemma WholeKeepable(s: Store, m: Bytes, take: bool, g: DataReading)
    requires Good(s, m) && !TakenByMiss(s, take) && KeptFor(s, m, g)
    ensures Keepable(s, m, take, WholeContent(s, g))
  {
    StoreFacts(s);
  }

  /** A data part that was read becomes a request, and a cached message if it is added. */
  lemma WholeDecoded(s: Store, a: Slots, b: Slots, d: Decision, m: Bytes, take: bool, scratch: Bytes, r: Receiver)
    requires Good(s, m) && Coherent(s, a, b) && CanDecide(s, a, m, d) && !d.Hit? && !TakenByMiss(s, take)
    requires DataArrived(s, m, d.Add?, scratch, ReadData(s, TailFor(s, m), d.Add?, scratch, r))
    ensures var g := DecodeWhole(s, b, d, ArrivedIdentity(s, m), scratch, r);
            g.Decoded? && g.decision == d && !g.taken && Announces(s, m, g.out, scratch) &&
            Carries(s, m, g.out[s.c.identitySize..]) &&
            g.out[s.c.identitySize..] == WrittenData(s, m, d.Add?, scratch) &&
            Coherent(s, Encoded(s, a, m, d, take), g.slots) &&
            g.next == ReadData(s, TailFor(s, m), d.Add?, scratch, r).next
  {
    TailExpected(s, m);
    var g := ReadData(s, TailFor(s, m), d.Add?, scratch, r);
    WritingAnnounces(s, m, scratch, g.data);
    if d.Add? {
      WholeKeepable(s, m, take, g);
    }
    var out := Writing(s, scratch, ArrivedIdentity(s, m), g.data);
    SavedCoherent(s, a, b, m, d, take, out, scratch, WholeContent(s, g));
  }

  lemma WholeArrives(r: Receiver, s: Store, a: Slots, b: Slots, d: Decision, m: Bytes, take: bool, scratch: Bytes, k: Caches)
    requires Good(s, m) && Coherent(s, a, b) && CanDecide(s, a, m, d) && !d.Hit? && !TakenByMiss(s, take)
    requires Before(r, DataTokens(s, m), k)
    ensures var g := DecodeWhole(s, b, d, ArrivedIdentity(s, m), scratch, r);
            g.Decoded? && g.decision == d && !g.taken && Announces(s, m, g.out, scratch) &&
            Carries(s, m, g.out[s.c.identitySize..]) &&
            g.out[s.c.identitySize..] == WrittenData(s, m, d.Add?, scratch) &&
            Coherent(s, Encoded(s, a, m, d, take), g.slots) && Behind(g.next, r, DataTokens(s, m), k)
  {
    DataArrives(r, s, m, d.Add?, scratch, k);
    WholeDecoded(s, a, b, d, m, take, scratch, r);
  }

  lemma TakenArrives(r: Receiver, s: Store, a: Slots, b: Slots, d: Decision, m: Bytes, take: bool, scratch: Bytes, k: Caches)
    requires Good(s, m) && Coherent(s, a, b) && CanDecide(s, a, m, d) && !d.Hit? && TakenByMiss(s, take)
    requires Before(r, [Flag(false)], k)
    ensures var g := DecodeTaken(s, b, d, ArrivedIdentity(s, m), scratch, r);
            g.Decoded? && g.decision == d && g.taken && Announces(s, m, g.out, scratch) &&
            Coherent(s, Encoded(s, a, m, d, take), g.slots) && Behind(g.next, r, [Flag(false)], k)
  {
    TailExpected(s, m);
    FlagArrives(r, false, k);
    var n := |DataOf(s, m)|;
    var data := Blank(scratch, s.c.identitySize, n);
    WritingAnnounces(s, m, scratch, data);
    var out := Writing(s, scratch, ArrivedIdentity(s, m), data);
    SavedCoherent(s, a, b, m, d, take, out, scratch, Content([], 0, 0, None, Zeros(n), 1));
  }

  /** Everything a decoding gives for a request m that was encoded from coherent stores. */
  ghost predicate Follows(g: Decoding, s: Store, a: Slots, m: Bytes, d: Decision, take: bool, scratch: Bytes)
    requires Good(s, m) && CanDecide(s, a, m, d)
  {
    && g.Decoded?
    && g.decision == d
    && g.taken == (if d.Hit? then s.Splits() && take else TakenByMiss(s, take))
    && Announces(s, m, g.out, scratch)
    && (d.Hit? ==> g.out[s.c.identitySize..] == DataOf(s, m))
    && (d.Hit? || !g.taken ==>
          Carries(s, m, g.out[s.c.identitySize..]) &&
          g.out[s.c.identitySize..] == WrittenData(s, m, !d.Discard?, scratch))
    && Coherent(s, Encoded(s, a, m, d, take), g.slots)
  }

  lemma RestArrives(r: Receiver, s: Store, a: Slots, b: Slots, d: Decision, m: Bytes, take: bool, scratch: Bytes, k: Caches)
    requires Good(s, m) && Coherent(s, a, b) && CanDecide(s, a, m, d) && !d.Hit?
    requires Before(r, TakeTokens(s.SplitsData(), take) + RestTokens(s, m, take), k)
    ensures var g := DecodeRest(s, b, d, ArrivedIdentity(s, m), scratch, r);
            Follows(g, s, a, m, d, take, scratch) &&
            Behind(g.next, r, TakeTokens(s.SplitsData(), take) + RestTokens(s, m, take), k)
  {
    var first, rest := TakeTokens(s.SplitsData(), take), RestTokens(s, m, take);
    BeforeSplit(r, first, rest, k);
    ReadTakenArrives(r, s.SplitsData(), take, k);
    var r' := ReadTaken(s.SplitsData(), r).next;
    if TakenByMiss(s, take) {
      TakenArrives(r', s, a, b, d, m, take, scratch, AfterAll(first, k));
    } else {
      WholeArrives(r', s, a, b, d, m, take, scratch, AfterAll(first, k));
    }
    BehindBoth(DecodeRest(s, b, d, ArrivedIdentity(s, m), scratch, r).next, r', r, first, rest, k);
  }

  lemma MissArrives(r: Receiver, s: Store, a: Slots, b: Slots, d: Decision, m: Bytes, take: bool, scratch: Bytes, k: Caches)
    requires Good(s, m) && Coherent(s, a, b) && CanDecide(s, a, m, d) && !d.Hit?
    requires Before(r, MissTokens(s, m, take), k)
    ensures var g := DecodeMiss(s, b, d, scratch, r);
            Follows(g, s, a, m, d, take, scratch) && Behind(g.next, r, MissTokens(s, m, take), k)
  {
    var first, rest := IdentityTokens(s, m), TakeTokens(s.SplitsData(), take) + RestTokens(s, m, take);
    BeforeSplit(r, first, rest, k);
    IdentityArrives(r, s, m, k);
    var r' := ReceiveAll(s.c.codecs, r).next;
    RestArrives(r', s, a, b, d, m, take, scratch, AfterAll(first, k));
    BehindBoth(DecodeRest(s, b, d, ArrivedIdentity(s, m), scratch, r').next, r', r, first, rest, k);
  }

  /** Everything sent for a request behind its decision. */
  function DecidedTokens(s: Store, a: Slots, m: Bytes, d: Decision, take: bool): seq<Token>
    requires Good(s, m) && CanDecide(s, a, m, d)
  {
    if d.Hit? then HitTokens(s, a[d.position].value, m, take) else MissTokens(s, m, take)
  }

  lemma DecidedArrives(r: Receiver, s: Store, a: Slots, b: Slots, m: Bytes, d: Decision, take: bool, scratch: Bytes, k: Caches)
    requires Good(s, m) && Coherent(s, a, b) && CanDecide(s, a, m, d)
    requires Before(r, DecidedTokens(s, a, m, d, take), k)
    ensures var g := DecodeDecided(s, b, d, scratch, r);
            Follows(g, s, a, m, d, take, scratch) && Behind(g.next, r, DecidedTokens(s, a, m, d, take), k)
  {
    if d.Hit? {
      HitArrives(r, s, a, b, d.position, m, take, scratch, k);
      OwnData(s, m);
      SavedData(s, m, scratch);
    } else {
      MissArrives(r, s, a, b, d, m, take, scratch, k);
    }
  }

  /** One request, for every state of coherent stores, every choice of what to remove and where
      to add, every outcome and every setting of the store's switches: the decoding side reads
      exactly what was written, makes the same decision, writes out a request with the identity
      that was sent, and with its data unless they are to follow by a split, and the stores are
      coherent again. */
  lemma RequestArrives(r: Receiver, s: Store, a: Slots, b: Slots, m: Bytes, ps: seq<nat>, d: Decision, take: bool,
                       scratch: Bytes, k: Caches)
    requires Good(s, m) && Coherent(s, a, b) && CanRemove(a, ps)
    requires forall i :: 0 <= i < |ps| ==> ps[i] < |a|
    requires CanDecide(s, Removed(a, ps), m, d)
    requires Before(r, RequestTokens(s, a, m, ps, d, take), k)
    ensures var g := DecodeRequest(s, b, scratch, r);
            Follows(g, s, Removed(a, ps), m, d, take, scratch) &&
            Behind(g.next, r, RequestTokens(s, a, m, ps, d, take), k)
  {
    var a', b' := Removed(a, ps), Removed(b, ps);
    var head := Removals(KindOf(s), ps) + [DecisionToken(KindOf(s), d)];
    var rest := DecidedTokens(s, a', m, d, take);
    BeforeSplit(r, head, rest, k);
    ActionsArrive(r, KindOf(s), a, b, ps, d, k);
    RemovedCoherent(s, a, b, ps);
    var r' := ReadActions(KindOf(s), b, r).next;
    DecidedArrives(r', s, a', b', m, d, take, scratch, AfterAll(head, k));
    BehindBoth(DecodeDecided(s, b', d, scratch, r').next, r', r, head, rest, k);
  }
}
