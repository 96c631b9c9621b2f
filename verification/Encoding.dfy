/**
 The encoding side of a channel at work on a message store: handleEncode and handleEncodeCached
 of nxcomp/src/Channel.cpp, with the thresholds of nxcomp/src/Channel.h.
 */
module Encoding {
  import opened Words
  import opened Buffers
  import opened ClientCache
  import opened Tokens
  import opened Messages
  import opened Fingerprints
  import opened Rebuilding
  import opened Exchange
  import opened Arrivals
  import opened Coherence
  import opened Splits
  import opened Channel
  import opened Ratings
  import opened MessageStore

  // ----- When to clean -----

  /** The total sizes allowed to all stores and the shares of one store, in percent. */
  datatype Limits = Limits(localTotal: nat, remoteTotal: nat, threshold: nat, lowerThreshold: nat) {
    function Share(total: nat, percent: nat): nat {
      total / 100 * percent
    }
  }

  predicate MustClean(l: Limits, local: int, remote: int, othersLocal: nat, othersRemote: nat) {
    || othersRemote + remote > l.remoteTotal
    || othersLocal + local > l.localTotal
    || remote > l.Share(l.remoteTotal, l.threshold)
    || local > l.Share(l.localTotal, l.threshold)
  }

  predicate CanClean(l: Limits, size: nat, local: int, remote: int) {
    || (size > 0 && remote > l.Share(l.remoteTotal, l.lowerThreshold))
    || local > l.Share(l.localTotal, l.lowerThreshold)
  }

  // ----- Removals -----

  lemma {:induction false} RemovedAppend(slots: Slots, ps: seq<nat>, p: nat)
    requires (forall i :: 0 <= i < |ps| ==> ps[i] < |slots|) && p < |slots|
    ensures Removed(slots, ps + [p]) == Removed(slots, ps)[p := None]
    ensures CanRemove(slots, ps) && Unlocked(Removed(slots, ps), p) ==> CanRemove(slots, ps + [p])
    decreases |ps|
  {
    if ps == [] {
      assert ([p])[1..] == [];
    } else {
      assert (ps + [p])[1..] == ps[1..] + [p];
      RemovedAppend(slots[ps[0] := None], ps[1..], p);
    }
  }

  lemma {:induction false} RemovalsAppend(k: Kind, ps: seq<nat>, p: nat)
    requires (forall i :: 0 <= i < |ps| ==> ps[i] < MAX_SLOTS) && p < MAX_SLOTS
    ensures Removals(k, ps + [p]) == Removals(k, ps) + [ActionToken(k, IS_REMOVED, p)]
  {
    if ps != [] {
      assert (ps + [p])[1..] == ps[1..] + [p];
      RemovalsAppend(k, ps[1..], p);
    }
  }

  /** Removing the messages at ps from `was` leaves the given slots. */
  ghost predicate Emptied(was: Slots, ps: seq<nat>, slots: Slots) {
    forall n: nat :: Opening(n) ==>
      (forall i :: 0 <= i < |ps| ==> ps[i] < |was|) && CanRemove(was, ps) && slots == Removed(was, ps)
  }

  lemma EmptiedIs(was: Slots, ps: seq<nat>, slots: Slots)
    requires Emptied(was, ps, slots)
    ensures (forall i :: 0 <= i < |ps| ==> ps[i] < |was|) && CanRemove(was, ps) && slots == Removed(was, ps)
  {
    assert Opening(0);
  }

  /** One more removal. */
  lemma {:induction false} Cleaned(k: Kind, was: Slots, written: seq<Token>, ps: seq<nat>, p: nat, slots: Slots)
    requires Emptied(was, ps, slots) && |was| <= MAX_SLOTS && Unlocked(slots, p)
    ensures Emptied(was, ps + [p], slots[p := None])
    ensures (forall i :: 0 <= i < |ps + [p]| ==> (ps + [p])[i] < MAX_SLOTS)
    ensures (forall i :: 0 <= i < |ps| ==> ps[i] < MAX_SLOTS) && p < MAX_SLOTS
    ensures (written + Removals(k, ps)) + [ActionToken(k, IS_REMOVED, p)] == written + Removals(k, ps + [p])
  {
    EmptiedIs(was, ps, slots);
    RemovalsAppend(k, ps, p);
    RemovedAppend(was, ps, p);
    Joined(written, Removals(k, ps), [ActionToken(k, IS_REMOVED, p)]);
  }

  // ----- Parsing -----

  /** The request as parseIdentity leaves it in the buffer. */
  function NormalisedOf(s: Store, m: Bytes): (r: Bytes)
    requires Good(s, m)
    ensures |r| == |m|
  {
    GoodFacts(s, m);
    Normalised(s.c, s.bigEndian, m)
  }

  /** Nothing that the stores or the X server know of a request changes when it is normalised. */
  lemma NormalisedSame(s: Store, m: Bytes)
    requires Good(s, m)
    ensures var r := NormalisedOf(s, m);
            Good(s, r) && ParsedIdentity(s, r) == ParsedIdentity(s, m) && DataOf(s, r) == DataOf(s, m) &&
            forall out :: Presents(s, r, out) <==> Presents(s, m, out)
    ensures ChecksumOf(s, NormalisedOf(s, m)) == ChecksumOf(s, m)
  {
    GoodFacts(s, m);
    NormalisedTwice(s.c, s.bigEndian, m);
    FieldsInFront(s.c, s.bigEndian, m, NormalisedOf(s, m));
    AppendedInFront(m, NormalisedOf(s, m), s.c.identitySize, s.c.fingerprint);
    forall out ensures Presents(s, NormalisedOf(s, m), out) <==> Presents(s, m, out) {
      NormalisedPresents(s, m, out);
    }
  }

  lemma NormalisedPresents(s: Store, m: Bytes, out: Bytes)
    requires Good(s, m) && Good(s, NormalisedOf(s, m))
    ensures Presents(s, NormalisedOf(s, m), out) <==> Presents(s, m, out)
  {
    var r := NormalisedOf(s, m);
    GoodFacts(s, m);
    assert ArrivedIdentity(s, r) == ArrivedIdentity(s, m) by {
      FieldsInFront(s.c, s.bigEndian, m, r);
    }
    assert BodyOf(s, r) == BodyOf(s, m) by {
      NormalisedBody(s.c, s.bigEndian, m);
    }
    if |out| == |m| {
      SameCarries(s, r, m, out[s.c.identitySize..]);
    }
  }

  lemma NormalisedBody(c: MessageClass, bigEndian: bool, m: Bytes)
    requires WellFormed(c, bigEndian, m)
    ensures var r := Normalised(c, bigEndian, m);
            WellFormed(c, bigEndian, r) && DeliveredBody(c, bigEndian, r) == DeliveredBody(c, bigEndian, m)
  {
    var r := Normalised(c, bigEndian, m);
    NormalisedWellFormed(c, bigEndian, m);
    DataSameBody(c, bigEndian, m);
    BodyRead(c, bigEndian, m, r);
  }

  lemma SameCarries(s: Store, m: Bytes, n: Bytes, data: Bytes)
    requires Good(s, m) && Good(s, n) && |m| == |n| && BodyOf(s, m) == BodyOf(s, n)
    ensures Carries(s, m, data) <==> Carries(s, n, data)
  {
  }

  lemma {:induction false} AppendedInFront(m: Bytes, r: Bytes, n: nat, fields: seq<Field>)
    requires n <= |m| && n <= |r| && m[..n] == r[..n] && forall i :: 0 <= i < |fields| ==> fields[i].End() <= n
    ensures Appended(m, fields) == Appended(r, fields)
  {
    if fields != [] {
      var f := fields[0];
      assert m[f.offset..f.End()] == m[..n][f.offset..f.End()] == r[f.offset..f.End()];
      AppendedInFront(m, r, n, fields[1..]);
    }
  }

  /** The message parsed at the encoding side, which keeps the checksum but not the data. */
  function ParsedContent(s: Store, m: Bytes): Content
    requires Good(s, m)
  {
    Content(ParsedIdentity(s, m), |m|, 0, Some(ChecksumOf(s, m)), [], 0)
  }

  /** The slots after handleEncodeCached: what is added is neither locked nor compressed yet. */
  function Decided(s: Store, slots: Slots, m: Bytes, d: Decision): (r: Slots)
    requires Good(s, m) && CanDecide(s, slots, m, d)
    ensures |r| == |slots|
  {
    match d
    case Discard => slots
    case Add(p) => slots[p := Some(ParsedContent(s, m))]
    case Hit(p) =>
      var e := slots[p].value;
      slots[p := Some(e.(identity := Refreshing(s, e.identity, ParsedIdentity(s, m))))]
  }

  /** Everything that handleEncodeCached writes. */
  function CachedTokens(s: Store, slots: Slots, m: Bytes, ps: seq<nat>, d: Decision): seq<Token>
    requires Good(s, m) && |slots| <= MAX_SLOTS
    requires forall i :: 0 <= i < |ps| ==> ps[i] < |slots|
    requires CanDecide(s, Removed(slots, ps), m, d)
  {
    Removals(KindOf(s), ps) + [DecisionToken(KindOf(s), d)] +
    if d.Hit? then Updating(s, Removed(slots, ps)[d.position].value.identity, ParsedIdentity(s, m)) else []
  }

  /** The removals and the decision are open to the encoding side. */
  ghost predicate CanChoose(s: Store, slots: Slots, m: Bytes, ps: seq<nat>, d: Decision)
    requires Good(s, m)
  {
    && |slots| <= MAX_SLOTS
    && (forall i :: 0 <= i < |ps| ==> ps[i] < |slots|)
    && CanRemove(slots, ps)
    && CanDecide(s, Removed(slots, ps), m, d)
  }

  // ----- Which messages are removed, and what is decided -----

  /** What the cleaning of a store goes by. */
  datatype Sweep = Sweep(l: Limits, t: Tunables, storage: nat, othersLocal: nat, othersRemote: nat, now: int) {
    /** All stores together take too much on either side, or this one does, and this one is above its
        lower share on either side. */
    ghost predicate Over(es: Entries) {
      var local, remote := LocalTotal(storage, ContentsOf(es)), RemoteTotal(storage, ContentsOf(es));
      && (othersRemote + remote > l.remoteTotal || othersLocal + local > l.localTotal ||
          remote > l.remoteTotal / 100 * l.threshold || local > l.localTotal / 100 * l.threshold)
      && (remote > l.remoteTotal / 100 * l.lowerThreshold || local > l.localTotal / 100 * l.lowerThreshold)
    }

    /** A round of the loop: the store is over, and the message that clean gives goes. */
    ghost predicate Round(was: Entries, es: Entries, start: nat, p: nat) {
      Over(was) && exists mid :: Cleans(t, was, mid, start, now, p) && p < |mid| && es == mid[p := None]
    }

    /** All rounds, each from the position removed before. */
    ghost predicate Rounds(start: nat, ps: seq<nat>, trail: seq<Entries>) {
      |trail| == |ps| + 1 &&
      forall k :: 0 <= k < |ps| ==> Round(trail[k], trail[k + 1], StartOf(start, ps, k), ps[k])
    }

    /** Rounds that remove the messages at ps lead from the entries `was` to es. */
    ghost predicate Lead(was: Entries, start: nat, ps: seq<nat>, es: Entries) {
      forall n: nat :: Opening(n) ==> exists trail :: Rounds(start, ps, trail) && trail[0] == was && trail[|ps|] == es
    }

    /** The loop ends when the store is not over, or gives up when nothing can be removed. */
    ghost predicate Ends(last: Entries, es: Entries, start: nat, gaveUp: bool) {
      if gaveUp then Over(last) && Cleans(t, last, es, start, now, NOTHING) else !Over(last) && es == last
    }

    /** The cleaning of a store with the entries `was` removes exactly the messages at ps. */
    ghost predicate Removes(was: Entries, start: nat, ps: seq<nat>, es: Entries, gaveUp: bool) {
      exists last :: Lead(was, start, ps, last) && Ends(last, es, StartOf(start, ps, |ps|), gaveUp)
    }
  }

  /** Where round k starts to search. */
  function StartOf(start: nat, ps: seq<nat>, k: nat): nat
    requires k <= |ps|
  {
    if k == 0 then start else ps[k - 1]
  }

  lemma NoRounds(x: Sweep, was: Entries, start: nat)
    ensures x.Lead(was, start, [], was)
  {
    assert x.Rounds(start, [], [was]);
  }

  lemma LeadBy(x: Sweep, was: Entries, start: nat, ps: seq<nat>, es: Entries, trail: seq<Entries>)
    requires x.Rounds(start, ps, trail) && trail[0] == was && trail[|ps|] == es
    ensures x.Lead(was, start, ps, es)
  {
  }

  lemma RoundBy(x: Sweep, es: Entries, start: nat, mid: Entries, p: nat)
    requires x.Over(es) && Cleans(x.t, es, mid, start, x.now, p) && p < |mid|
    ensures x.Round(es, mid[p := None], start, p)
  {
  }

  /** One more round. */
  lemma LeadFurther(x: Sweep, was: Entries, start: nat, ps: seq<nat>, es: Entries, next: Entries, p: nat)
    requires x.Lead(was, start, ps, es) && x.Round(es, next, StartOf(start, ps, |ps|), p)
    ensures x.Lead(was, start, ps + [p], next)
  {
    assert Opening(0);
    var trail :| x.Rounds(start, ps, trail) && trail[0] == was && trail[|ps|] == es;
    RoundsFurther(x, start, ps, trail, p, next);
    LeadBy(x, was, start, ps + [p], next, trail + [next]);
  }

  lemma RoundsFurther(x: Sweep, start: nat, ps: seq<nat>, trail: seq<Entries>, p: nat, es: Entries)
    requires x.Rounds(start, ps, trail) && x.Round(trail[|ps|], es, StartOf(start, ps, |ps|), p)
    ensures x.Rounds(start, ps + [p], trail + [es])
    ensures (trail + [es])[|ps + [p]|] == es && (trail + [es])[0] == trail[0]
  {
    var qs, more := ps + [p], trail + [es];
    forall k | 0 <= k < |qs| ensures x.Round(more[k], more[k + 1], StartOf(start, qs, k), qs[k]) {
      assert StartOf(start, qs, k) == StartOf(start, ps, k) && more[k] == trail[k];
      if k < |ps| {
        assert more[k + 1] == trail[k + 1] && qs[k] == ps[k];
      }
    }
  }

  lemma GivenUp(x: Sweep, was: Entries, start: nat, ps: seq<nat>, last: Entries, es: Entries)
    requires x.Lead(was, start, ps, last) && x.Over(last) && Cleans(x.t, last, es, StartOf(start, ps, |ps|), x.now, NOTHING)
    ensures x.Removes(was, start, ps, es, true)
  {
    assert x.Ends(last, es, StartOf(start, ps, |ps|), true);
  }

  lemma Finished(x: Sweep, was: Entries, start: nat, ps: seq<nat>, es: Entries)
    requires x.Lead(was, start, ps, es) && !x.Over(es)
    ensures x.Removes(was, start, ps, es, false)
  {
    assert x.Ends(es, es, StartOf(start, ps, |ps|), false);
  }

  /** The message in slot p has the checksum of m. */
  ghost predicate HasChecksum(s: Store, slots: Slots, m: Bytes, p: nat)
    requires Good(s, m)
  {
    p < |slots| && slots[p].Some? && slots[p].value.checksum == Some(ChecksumOf(s, m))
  }

  ghost predicate Locked(slots: Slots, p: nat) {
    p < |slots| && slots[p].Some? && slots[p].value.locks != 0
  }

  /** The decision for a request that may be cached, where `slot` is the slot that it would take: it is
      hit exactly if a message that nobody holds has its checksum, it is added to that slot exactly if
      no message has its checksum, and it is neither exactly if somebody holds the message with its
      checksum, or the message in the slot. */
  ghost predicate Settled(s: Store, slots: Slots, m: Bytes, slot: nat, d: Decision)
    requires Good(s, m)
  {
    && (d.Hit? <==> !Locked(slots, slot) && exists p: nat :: HasChecksum(s, slots, m, p) && !Locked(slots, p))
    && (d.Hit? ==> HasChecksum(s, slots, m, d.position) && !Locked(slots, d.position))
    && (d.Add? <==> !Locked(slots, slot) && forall p: nat :: !HasChecksum(s, slots, m, p))
    && (d.Add? ==> d.position == slot)
    && (d.Discard? <==> Locked(slots, slot) || exists p: nat :: HasChecksum(s, slots, m, p) && Locked(slots, p))
  }

  /** A request that was added and not taken by a split is hit when it comes again, unless its message was
      removed in between or the slot that a new message would take is held. */
  lemma AddedThenHit(s: Store, slots: Slots, checksums: map<Bytes, nat>, m: Bytes, p: nat, slot: nat, d: Decision)
    requires Good(s, m) && CanDecide(s, slots, m, Add(p))
    requires var later := Encoded(s, slots, m, Add(p), false); Indexed(later, checksums) && Settled(s, later, m, slot, d)
    requires !Locked(Encoded(s, slots, m, Add(p), false), slot)
    ensures d == Hit(p)
  {
    var later := Encoded(s, slots, m, Add(p), false);
    assert HasChecksum(s, later, m, p) && !Locked(later, p);
    ChecksumsUnique(later, checksums, p, d.position);
  }

  /** A request is looked up if caching is on and its size is within bounds; otherwise it is discarded
      as it is. */
  ghost predicate LookedUp(t: Tunables, enabled: bool, m: Bytes) {
    enabled && t.minimumSize <= |m| <= t.maximumSize
  }

  /** What was decided for a request m by a store that was cleaned down to the entries es, with the slot
      that was chosen for it and the entries that the search for the slot left. */
  ghost predicate Searched(x: Sweep, s: Store, enabled: bool, es: Entries, was: Ledger, m: Bytes, message: Bytes, d: Decision,
                           slot: nat, searched: Entries)
    requires Good(s, m) && Good(s, message)
  {
    if LookedUp(x.t, enabled, m) then
      && message == NormalisedOf(s, m)
      && Chooses(x.t, es, searched, was.lastAdded, was.lastRated, slot)
      && Settled(s, ContentsOf(es), message, slot, d)
    else
      d == Discard && message == m
  }

  ghost predicate Decides(x: Sweep, s: Store, enabled: bool, es: Entries, was: Ledger, m: Bytes, message: Bytes, d: Decision)
    requires Good(s, m) && Good(s, message)
  {
    exists slot, searched :: Searched(x, s, enabled, es, was, m, message, d, slot, searched)
  }

  /** How a request m was treated by a store: what the cleaning removed, and what was decided then. */
  ghost predicate Treated(x: Sweep, s: Store, enabled: bool, was: Ledger, m: Bytes, message: Bytes, ps: seq<nat>, d: Decision)
    requires Good(s, m) && Good(s, message)
  {
    forall n: nat :: Opening(n) ==> CleanedAndDecided(x, s, enabled, was, m, message, ps, d)
  }

  ghost predicate CleanedAndDecided(x: Sweep, s: Store, enabled: bool, was: Ledger, m: Bytes, message: Bytes, ps: seq<nat>,
                                    d: Decision)
    requires Good(s, m) && Good(s, message)
  {
    if enabled then
      was.lastRemoved >= 0 &&
      exists es, gaveUp :: x.Removes(was.entries, was.lastRemoved, ps, es, gaveUp) && Decides(x, s, true, es, was, m, message, d)
    else
      ps == [] && Decides(x, s, false, was.entries, was, m, message, d)
  }

  lemma TreatedWithCache(x: Sweep, s: Store, was: Ledger, m: Bytes, message: Bytes, ps: seq<nat>, d: Decision, es: Entries,
                         gaveUp: bool)
    requires Good(s, m) && Good(s, message) && was.lastRemoved >= 0
    requires x.Removes(was.entries, was.lastRemoved, ps, es, gaveUp) && Decides(x, s, true, es, was, m, message, d)
    ensures Treated(x, s, true, was, m, message, ps, d)
  {
  }

  lemma TreatedWithout(x: Sweep, s: Store, was: Ledger, m: Bytes)
    requires Good(s, m)
    ensures Treated(x, s, false, was, m, m, [], Discard)
  {
    assert Searched(x, s, false, was.entries, was, m, m, Discard, 0, []);
  }

  /** The condition of the loop, in numbers: an empty store takes nothing at the other side. */
  lemma OverIs(x: Sweep, es: Entries, checksums: map<Bytes, nat>)
    requires Indexed(ContentsOf(es), checksums)
    ensures var local, remote := LocalTotal(x.storage, ContentsOf(es)), RemoteTotal(x.storage, ContentsOf(es));
            MustClean(x.l, local, remote, x.othersLocal, x.othersRemote) && CanClean(x.l, |checksums|, local, remote) <==>
            x.Over(es)
  {
    EmptyTable(x.storage, ContentsOf(es), checksums);
    MulMonotone(x.l.remoteTotal / 100, 0, x.l.lowerThreshold);
  }

  class EncodingChannel {
    /** What was written to the encode buffer, call by call. */
    var sent: seq<Token>
    var enableCache: bool
    const limits: Limits

    constructor (l: Limits, enabled: bool)
      ensures sent == [] && limits == l && enableCache == enabled
    {
      limits, sent, enableCache := l, [], enabled;
    }

    /** What the cleaning of a store goes by. */
    ghost function SweepOf(store: MessageStore, othersLocal: nat, othersRemote: nat, now: int): Sweep {
      Sweep(limits, store.tunables, store.storage, othersLocal, othersRemote, now)
    }

    /** One round of the cleaning loop: removes a message and tells the other side of it. */
    method CleanOne(store: MessageStore, now: int) returns (position: int, ghost mid: Entries)
      requires store.Valid() && store.Ready() && store.useChecksum
      modifies this`sent, store, store.messages
      ensures store.Valid() && store.Ready() && |mid| == store.cacheSlots
      ensures Cleans(store.tunables, old(store.Entries()), mid, old(store.lastRemoved), now, position)
      ensures store.lastAdded == old(store.lastAdded) && store.lastRated == old(store.lastRated)
      ensures position == NOTHING ==>
        store.Slots() == old(store.Slots()) && sent == old(sent) && store.Entries() == mid &&
        store.lastRemoved == old(store.lastRemoved)
      ensures position != NOTHING ==>
        0 <= position && Unlocked(old(store.Slots()), position) &&
        store.Entries() == mid[position := None] && store.lastRemoved == position &&
        store.Slots() == old(store.Slots())[position := None] &&
        sent == old(sent) + [ActionToken(KindOf(store.s), IS_REMOVED, position)] &&
        store.localStorageSize < old(store.localStorageSize)
    {
      position := store.Clean(now);
      mid := store.Entries();
      if position != NOTHING {
        store.NoteRemoved(position);
        sent := sent + [ActionToken(KindOf(store.s), IS_REMOVED, position)];
        SlotShrinks(store.storage, store.Slots(), position);
        store.Remove(position);
      }
    }

    /** The condition of the cleaning loop. */
    method MustAndCanClean(store: MessageStore, othersLocal: nat, othersRemote: nat, ghost now: int) returns (over: bool)
      requires store.Valid() && store.useChecksum
      ensures over <==> SweepOf(store, othersLocal, othersRemote, now).Over(store.Entries())
    {
      over := MustClean(limits, store.localStorageSize, store.remoteStorageSize, othersLocal, othersRemote) &&
              CanClean(limits, |store.checksums|, store.localStorageSize, store.remoteStorageSize);
      OverIs(SweepOf(store, othersLocal, othersRemote, now), store.Entries(), store.checksums);
    }

    /** The same, as a round of the loop behind those that have removed the messages at ps. */
    method CleanRound(store: MessageStore, ghost x: Sweep, ghost first: Entries, ghost start: nat, ghost ps: seq<nat>, now: int)
      returns (position: int)
      requires store.Valid() && store.Ready() && store.useChecksum
      requires x.t == store.tunables && x.now == now && x.Over(store.Entries())
      requires x.Lead(first, start, ps, store.Entries()) && store.lastRemoved == StartOf(start, ps, |ps|)
      modifies this`sent, store, store.messages
      ensures store.Valid() && store.Ready()
      ensures store.lastAdded == old(store.lastAdded) && store.lastRated == old(store.lastRated)
      ensures position == NOTHING ==>
        store.Slots() == old(store.Slots()) && sent == old(sent) && x.Removes(first, start, ps, store.Entries(), true)
      ensures position != NOTHING ==>
        0 <= position && Unlocked(old(store.Slots()), position) &&
        x.Lead(first, start, ps + [position], store.Entries()) && store.lastRemoved == position &&
        store.Slots() == old(store.Slots())[position := None] &&
        sent == old(sent) + [ActionToken(KindOf(store.s), IS_REMOVED, position)] &&
        store.localStorageSize < old(store.localStorageSize)
    {
      ghost var before, mid := store.Entries(), [];
      position, mid := CleanOne(store, now);
      if position == NOTHING {
        GivenUp(x, first, start, ps, before, mid);
      } else {
        RoundBy(x, before, StartOf(start, ps, |ps|), mid, position);
        LeadFurther(x, first, start, ps, before, store.Entries(), position);
      }
    }

    /** The cleaning loop. */
    method CleanLoop(store: MessageStore, othersLocal: nat, othersRemote: nat, now: int)
      returns (gaveUp: bool, ghost ps: seq<nat>)
      requires store.Valid() && store.Ready() && store.useChecksum
      modifies this`sent, store, store.messages
      ensures store.Valid() && store.Ready()
      ensures store.lastAdded == old(store.lastAdded) && store.lastRated == old(store.lastRated)
      ensures Emptied(old(store.Slots()), ps, store.Slots())
      ensures (forall i :: 0 <= i < |ps| ==> ps[i] < MAX_SLOTS) && sent == old(sent) + Removals(KindOf(store.s), ps)
      ensures var x := SweepOf(store, othersLocal, othersRemote, now);
              x.Removes(old(store.Entries()), old(store.lastRemoved), ps, store.Entries(), gaveUp) &&
              (!gaveUp ==> !x.Over(store.Entries()))
    {
      ps, gaveUp := [], false;
      ghost var x := SweepOf(store, othersLocal, othersRemote, now);
      ghost var was, first, written, start := store.Slots(), store.Entries(), sent, store.lastRemoved;
      NoRounds(x, first, start);
      var over := MustAndCanClean(store, othersLocal, othersRemote, now);
      while over
        invariant store.Valid() && store.Ready()
        invariant store.lastAdded == old(store.lastAdded) && store.lastRated == old(store.lastRated)
        invariant over <==> x.Over(store.Entries())
        invariant x.Lead(first, start, ps, store.Entries()) && store.lastRemoved == StartOf(start, ps, |ps|)
        invariant Emptied(was, ps, store.Slots()) && forall i :: 0 <= i < |ps| ==> ps[i] < MAX_SLOTS
        invariant sent == written + Removals(KindOf(store.s), ps)
        decreases store.localStorageSize
      {
        ghost var slots := store.Slots();
        var position := CleanRound(store, x, first, start, ps, now);
        if position == NOTHING {
          gaveUp := true;
          return;
        }
        Cleaned(KindOf(store.s), was, written, ps, position, slots);
        ps := ps + [position];
        over := MustAndCanClean(store, othersLocal, othersRemote, now);
      }
      Finished(x, first, start, ps, store.Entries());
    }

    /** Removes messages until the store is within its share or nothing can be removed. */
    method CleanStore(store: MessageStore, othersLocal: nat, othersRemote: nat, now: int)
      returns (gaveUp: bool, ghost ps: seq<nat>)
      requires store.Valid() && store.Ready() && store.useChecksum
      modifies this`sent, store, store.messages
      ensures store.Valid() && store.Ready()
      ensures store.lastAdded == old(store.lastAdded) && store.lastRated == old(store.lastRated)
      ensures (forall i :: 0 <= i < |ps| ==> ps[i] < old(|store.Slots()|)) && CanRemove(old(store.Slots()), ps)
      ensures store.Slots() == Removed(old(store.Slots()), ps)
      ensures sent == old(sent) + Removals(KindOf(store.s), ps)
      ensures SweepOf(store, othersLocal, othersRemote, now)
                .Removes(old(store.Entries()), old(store.lastRemoved), ps, store.Entries(), gaveUp)
      ensures !gaveUp && limits.lowerThreshold <= limits.threshold ==>
        store.localStorageSize <= limits.localTotal / 100 * limits.threshold &&
        store.remoteStorageSize <= limits.remoteTotal / 100 * limits.threshold
    {
      ghost var was := store.Slots();
      gaveUp, ps := CleanLoop(store, othersLocal, othersRemote, now);
      EmptiedIs(was, ps, store.Slots());
      if !gaveUp {
        CleanedStore(SweepOf(store, othersLocal, othersRemote, now), store.Entries());
      }
    }

    /** handleEncodeCached: cleans the store, looks the request up by its checksum and tells the
        other side whether it is discarded, added at a position or hit. */
    method HandleEncodeCached(store: MessageStore, m: Bytes, othersLocal: nat, othersRemote: nat, now: int)
      returns (hit: bool, message: Bytes, ghost ps: seq<nat>, d: Decision)
      requires store.Valid() && store.Ready() && store.useChecksum
      requires Good(store.s, m)
      modifies this`sent, store, store.messages
      ensures store.Valid() && store.Ready()
      ensures Good(store.s, message) && (message == m || message == NormalisedOf(store.s, m))
      ensures Treated(SweepOf(store, othersLocal, othersRemote, now), store.s, enableCache, old(store.Current()), m, message, ps, d)
      ensures CanChoose(store.s, old(store.Slots()), message, ps, d) && (hit <==> d.Hit?)
      ensures store.Slots() == Decided(store.s, Removed(old(store.Slots()), ps), message, d)
      ensures sent == old(sent) + CachedTokens(store.s, old(store.Slots()), message, ps, d)
      ensures d.Add? ==> store.lastAdded == d.position
    {
      hit, message, ps, d := false, m, [], Discard;
      ghost var was, written := store.Slots(), sent;
      if enableCache {
        hit, message, ps, d := CleanAndSearch(store, m, othersLocal, othersRemote, now);
      } else {
        WriteDiscard(store.s, store.Slots(), message);
        TreatedWithout(SweepOf(store, othersLocal, othersRemote, now), store.s, store.Current(), m);
      }
      CachedWritten(store.s, was, message, ps, d);
      Joined(written, Removals(KindOf(store.s), ps), DecisionTokens(store.s, Removed(was, ps), message, d));
    }

    /** The store is cleaned and searched. */
    method CleanAndSearch(store: MessageStore, m: Bytes, othersLocal: nat, othersRemote: nat, now: int)
      returns (hit: bool, message: Bytes, ghost ps: seq<nat>, d: Decision)
      requires store.Valid() && store.Ready() && store.useChecksum && Good(store.s, m)
      modifies this`sent, store, store.messages
      ensures store.Valid() && store.Ready()
      ensures Good(store.s, message) && (message == m || message == NormalisedOf(store.s, m))
      ensures Treated(SweepOf(store, othersLocal, othersRemote, now), store.s, true, old(store.Current()), m, message, ps, d)
      ensures CanChoose(store.s, old(store.Slots()), message, ps, d) && (hit <==> d.Hit?)
      ensures store.Slots() == Decided(store.s, Removed(old(store.Slots()), ps), message, d)
      ensures sent == (old(sent) + Removals(KindOf(store.s), ps)) +
                      DecisionTokens(store.s, Removed(old(store.Slots()), ps), message, d)
      ensures d.Add? ==> store.lastAdded == d.position
    {
      ghost var was := store.Current();
      var gaveUp;
      gaveUp, ps := CleanStore(store, othersLocal, othersRemote, now);
      ghost var es := store.Entries();
      hit, message, d := UseCache(store, m, othersLocal, othersRemote, now, was);
      TreatedWithCache(SweepOf(store, othersLocal, othersRemote, now), store.s, was, m, message, ps, d, es, gaveUp);
    }

    /** The store was cleaned and is searched, if the size of the request is within bounds. */
    method UseCache(store: MessageStore, m: Bytes, othersLocal: nat, othersRemote: nat, now: int, ghost was: Ledger)
      returns (hit: bool, message: Bytes, d: Decision)
      requires store.Valid() && store.Ready() && store.useChecksum && Good(store.s, m)
      requires was.lastAdded == store.lastAdded && was.lastRated == store.lastRated
      modifies this`sent, store, store.messages
      ensures store.Valid() && store.Ready()
      ensures Good(store.s, message) && (message == m || message == NormalisedOf(store.s, m))
      ensures Decides(SweepOf(store, othersLocal, othersRemote, now), store.s, true, old(store.Entries()), was, m, message, d)
      ensures CanDecide(store.s, old(store.Slots()), message, d) && (hit <==> d.Hit?)
      ensures store.Slots() == Decided(store.s, old(store.Slots()), message, d)
      ensures sent == old(sent) + DecisionTokens(store.s, old(store.Slots()), message, d)
      ensures d.Add? ==> store.lastAdded == d.position
    {
      hit, message, d := false, m, Discard;
      ghost var slot, searched := 0, [];
      if |m| >= store.tunables.minimumSize && |m| <= store.tunables.maximumSize {
        message := NormalisedOf(store.s, m);
        NormalisedSame(store.s, m);
        hit, d, slot, searched := Decide(store, message, now);
      } else {
        WriteDiscard(store.s, store.Slots(), message);
      }
      assert Searched(SweepOf(store, othersLocal, othersRemote, now), store.s, true, old(store.Entries()), was, m, message, d,
                      slot, searched);
    }

    /** The request is not going to be cached. */
    method WriteDiscard(s: Store, ghost slots: Slots, message: Bytes)
      requires Good(s, message) && |slots| <= MAX_SLOTS
      modifies this`sent
      ensures sent == old(sent) + DecisionTokens(s, slots, message, Discard)
    {
      sent := sent + [DecisionToken(KindOf(s), Discard)];
    }

    /** The search for a parsed request and what follows from it. */
    method Decide(store: MessageStore, message: Bytes, now: int)
      returns (hit: bool, d: Decision, ghost slot: nat, ghost searched: Entries)
      requires store.Valid() && store.Ready() && store.useChecksum
      requires Good(store.s, message)
      modifies this`sent, store, store.messages
      ensures store.Valid() && store.Ready()
      ensures Chooses(store.tunables, old(store.Entries()), searched, old(store.lastAdded), old(store.lastRated), slot)
      ensures Settled(store.s, old(store.Slots()), message, slot, d)
      ensures CanDecide(store.s, old(store.Slots()), message, d) && (hit <==> d.Hit?)
      ensures store.Slots() == Decided(store.s, old(store.Slots()), message, d)
      ensures d.Add? ==> store.lastAdded == d.position
      ensures sent == old(sent) + DecisionTokens(store.s, old(store.Slots()), message, d)
    {
      ghost var was, checksums := store.Slots(), store.checksums;
      var content := ParsedContent(store.s, message);
      var position, added, locked;
      position, added, locked, slot, searched := store.FindOrAdd(content, now);
      d := if position == NOTHING || (!added && locked) then Discard else if added then Add(position) else Hit(position);
      hit := d.Hit?;
      SettledBy(store.s, was, checksums, message, slot, position, added, d);
      Announce(store, was, message, d, now);
    }

    /** Tells the other side what was decided. */
    method Announce(store: MessageStore, ghost was: Slots, message: Bytes, d: Decision, now: int)
      requires store.Valid() && store.useChecksum && Good(store.s, message) && |was| <= MAX_SLOTS
      requires CanDecide(store.s, was, message, d) && (d.Add? || store.Ready())
      requires d.Add? ==> store.Slots() == Decided(store.s, was, message, d)
      requires !d.Add? ==> store.Slots() == was
      modifies this`sent, store, store.messages
      ensures store.Valid() && store.Ready() && (d.Add? ==> store.lastAdded == d.position)
      ensures store.Slots() == Decided(store.s, was, message, d)
      ensures sent == old(sent) + DecisionTokens(store.s, was, message, d)
    {
      ghost var written := sent;
      if d.Hit? {
        HandleHit(store, d.position, ParsedIdentity(store.s, message), now);
        assert sent == written + DecisionTokens(store.s, was, message, d);
      } else {
        if d.Add? {
          store.NoteAdded(d.position);
        }
        sent := sent + [DecisionToken(KindOf(store.s), d)];
        NoHitTokens(store.s, was, message, d);
      }
    }

    /** A hit: the fields that vary are sent and taken over into the cached message. */
    method HandleHit(store: MessageStore, position: nat, identity: seq<Word>, now: int)
      requires store.Valid() && store.Ready() && store.useChecksum
      requires Unlocked(store.Slots(), position) && |identity| == Arity(store.s)
      modifies this`sent, store, store.messages
      ensures store.Valid() && store.Ready()
      ensures store.Slots() ==
        var e := old(store.Slots())[position].value;
        old(store.Slots())[position := Some(e.(identity := Refreshing(store.s, e.identity, identity)))]
      ensures store.Entries()[position].Some? && store.Entries()[position].value.last == now
      ensures store.Entries()[position].value.hits == store.HitsAfter(old(store.Entries())[position].value.hits)
      ensures sent == old(sent) + ([DecisionToken(KindOf(store.s), Hit(position))] +
        Updating(store.s, old(store.Slots())[position].value.identity, identity))
    {
      store.Touch(position, now);
      store.NoteHit(position);
      var cached := store.messages[position].value.content;
      sent := sent + [DecisionToken(KindOf(store.s), Hit(position))];
      sent := sent + Updating(store.s, cached.identity, identity);
      store.Modify(position, cached.(identity := Refreshing(store.s, cached.identity, identity)));
    }

    // ----- Whole requests -----

    /** handleEncode, or the loop over all opcodes for a request that is coded there.  `take` is
        the answer of the split store, asked for if the store splits requests. */
    method HandleEncode(store: MessageStore, m: Bytes, take: bool, othersLocal: nat, othersRemote: nat, now: int)
      returns (hit: bool, message: Bytes, ghost ps: seq<nat>, d: Decision)
      requires store.Valid() && store.Ready() && store.useChecksum
      requires Good(store.s, m)
      modifies this`sent, store, store.messages
      ensures store.Valid() && store.Ready()
      ensures Good(store.s, message) && (message == m || message == NormalisedOf(store.s, m))
      ensures Treated(SweepOf(store, othersLocal, othersRemote, now), store.s, enableCache, old(store.Current()), m, message, ps, d)
      ensures CanChoose(store.s, old(store.Slots()), message, ps, d) && (hit <==> d.Hit?)
      ensures store.Slots() == Encoded(store.s, Removed(old(store.Slots()), ps), message, d, take)
      ensures sent == old(sent) + RequestTokens(store.s, old(store.Slots()), message, ps, d, take)
    {
      ghost var was, written := store.Slots(), sent;
      hit, message, ps, d := HandleEncodeCached(store, m, othersLocal, othersRemote, now);
      ghost var rest := if hit then TakeTokens(store.s.Splits(), take) else MissTokens(store.s, message, take);
      HandleFound(store, message, take, d, Removed(was, ps));
      AllWritten(store.s, was, message, ps, d, rest, take);
      Joined(written, CachedTokens(store.s, was, message, ps, d), rest);
    }

    /** What follows the search for a request: a hit was told already. */
    method HandleFound(store: MessageStore, message: Bytes, take: bool, d: Decision, ghost slots: Slots)
      requires store.Valid() && store.Ready() && store.useChecksum
      requires Good(store.s, message) && CanDecide(store.s, slots, message, d)
      requires store.Slots() == Decided(store.s, slots, message, d)
      requires d.Add? ==> store.lastAdded == d.position
      modifies this`sent, store, store.messages
      ensures store.Valid() && store.Ready()
      ensures store.Slots() == if d.Hit? then old(store.Slots()) else Encoded(store.s, slots, message, d, take)
      ensures sent == old(sent) + if d.Hit? then TakeTokens(store.s.Splits(), take) else MissTokens(store.s, message, take)
    {
      if d.Hit? {
        sent := sent + TakeTokens(store.s.Splits(), take);
      } else {
        HandleMiss(store, message, take, d, slots);
      }
    }

    /** The identity and, unless it goes to the split store, the data of a request that was not
        hit; an added message is locked or gets its compressed size. */
    method HandleMiss(store: MessageStore, message: Bytes, take: bool, d: Decision, ghost slots: Slots)
      requires store.Valid() && store.Ready() && store.useChecksum
      requires Good(store.s, message) && CanDecide(store.s, slots, message, d) && !d.Hit?
      requires store.Slots() == Decided(store.s, slots, message, d)
      requires d.Add? ==> store.lastAdded == d.position
      modifies this`sent, store, store.messages
      ensures store.Valid() && store.Ready()
      ensures store.Slots() == Encoded(store.s, slots, message, d, take)
      ensures sent == old(sent) + MissTokens(store.s, message, take)
    {
      ghost var written := sent;
      sent := sent + IdentityTokens(store.s, message);
      sent := sent + TakeTokens(store.s.SplitsData(), take);
      HandleRest(store, message, take, d, slots);
      Joined3(written, IdentityTokens(store.s, message), TakeTokens(store.s.SplitsData(), take),
              RestTokens(store.s, message, take));
    }

    /** What follows the identity and the answer of the split store. */
    method HandleRest(store: MessageStore, message: Bytes, take: bool, d: Decision, ghost slots: Slots)
      requires store.Valid() && store.Ready() && store.useChecksum
      requires Good(store.s, message) && CanDecide(store.s, slots, message, d) && !d.Hit?
      requires store.Slots() == Decided(store.s, slots, message, d)
      requires d.Add? ==> store.lastAdded == d.position
      modifies this`sent, store, store.messages
      ensures store.Valid() && store.Ready()
      ensures store.Slots() == Encoded(store.s, slots, message, d, take)
      ensures sent == old(sent) + RestTokens(store.s, message, take)
    {
      if store.s.SplitsData() && take {
        TakeRest(store, message, take, d, slots);
      } else {
        SendRest(store, message, take, d, slots);
      }
    }

    method TakeRest(store: MessageStore, message: Bytes, take: bool, d: Decision, ghost slots: Slots)
      requires store.Valid() && store.Ready() && store.useChecksum
      requires Good(store.s, message) && CanDecide(store.s, slots, message, d) && !d.Hit? && TakenByMiss(store.s, take)
      requires store.Slots() == Decided(store.s, slots, message, d)
      requires d.Add? ==> store.lastAdded == d.position
      modifies this`sent, store, store.messages
      ensures store.Valid() && store.Ready()
      ensures store.Slots() == Encoded(store.s, slots, message, d, take)
      ensures sent == old(sent) + RestTokens(store.s, message, take)
    {
      TakenSettled(store.s, slots, message, d, take);
      HandleTaken(store, d.Add?);
    }

    method SendRest(store: MessageStore, message: Bytes, take: bool, d: Decision, ghost slots: Slots)
      requires store.Valid() && store.Ready() && store.useChecksum
      requires Good(store.s, message) && CanDecide(store.s, slots, message, d) && !d.Hit? && !TakenByMiss(store.s, take)
      requires store.Slots() == Decided(store.s, slots, message, d)
      requires d.Add? ==> store.lastAdded == d.position
      modifies this`sent, store, store.messages
      ensures store.Valid() && store.Ready()
      ensures store.Slots() == Encoded(store.s, slots, message, d, take)
      ensures sent == old(sent) + RestTokens(store.s, message, take)
    {
      var size := HandleWhole(store, message, d.Add?);
      WholeSettled(store.s, slots, message, d, take, size);
    }

    /** No data follows; an added message is locked. */
    method HandleTaken(store: MessageStore, added: bool)
      requires store.Valid() && store.Ready()
      requires added ==> 0 <= store.lastAdded < store.cacheSlots && store.messages[store.lastAdded].Some?
      modifies this`sent, store, store.messages
      ensures store.Valid() && store.Ready()
      ensures store.Slots() ==
        if added then
          var p := old(store.lastAdded);
          old(store.Slots())[p := Some(old(store.Slots())[p].value.(locks := old(store.Slots())[p].value.locks + 1))]
        else old(store.Slots())
      ensures sent == old(sent) + [Flag(false)]
    {
      if added {
        store.Lock(store.lastAdded);
      }
      sent := sent + [Flag(false)];
    }

    /** The data part follows; an added message gets its compressed size. */
    method HandleWhole(store: MessageStore, message: Bytes, added: bool) returns (size: nat)
      requires store.Valid() && store.Ready() && Good(store.s, message)
      requires added ==> 0 <= store.lastAdded < store.cacheSlots && store.messages[store.lastAdded].Some?
      modifies this`sent, store, store.messages
      ensures store.Valid() && store.Ready()
      ensures AddedSize(store.s, message) == if size == 0 then 0 else size + store.s.c.identitySize
      ensures store.Slots() ==
        if added && size != 0 then
          var p := old(store.lastAdded);
          old(store.Slots())[p := Some(old(store.Slots())[p].value.(compressedSize := size + store.s.c.identitySize))]
        else old(store.Slots())
      ensures sent == old(sent) + DataTokens(store.s, message)
    {
      size := HandleData(store.s, message);
      if added && size != 0 {
        store.UpdateData(store.lastAdded, size);
      }
    }

    /** The data part: compressed if the store asks for it and it gets smaller.  Returns the
        compressed size, or 0. */
    method HandleData(s: Store, message: Bytes) returns (size: nat)
      requires Good(s, message)
      modifies this`sent
      ensures sent == old(sent) + DataTokens(s, message)
      ensures AddedSize(s, message) == if size == 0 then 0 else size + s.c.identitySize
    {
      size := 0;
      if s.Compresses() {
        var data := DataOf(s, message);
        CompressorFacts(s, data);
        if data != [] {
          match s.compressor.Smaller(data)
          case None =>
          case Some(z) => size := |z|;
        }
        sent := sent + CompressTokens(s.compressor, data);
      } else if s.coding.Direct? || s.coding.data {
        sent := sent + BodyTokens(s, message);
      }
    }

    /** CommitStore::update: a message that was added gets its final size and is unlocked. */
    method UpdateCommitted(store: MessageStore, o: Outgoing)
      requires store.Valid() && store.Ready()
      modifies store, store.messages
      ensures store.Valid() && store.Ready()
      ensures store.Slots() == Unlocking(store.s, old(store.Slots()), o)
    {
      if o.decision.Add? && o.decision.position < store.cacheSlots && store.messages[o.decision.position].Some? {
        var p := o.decision.position;
        store.UpdateData(p, o.compressedSize);
        if store.messages[p].value.content.locks > 0 {
          store.Unlock(p);
        }
      }
    }
  }

  /** Every message counts. */
  lemma SlotShrinks(storage: nat, slots: Slots, p: nat)
    requires p < |slots| && slots[p].Some?
    ensures LocalTotal(storage, slots[p := None]) < LocalTotal(storage, slots)
  {
    TotalsUpdated(storage, slots, p, None);
  }

  /** Where the cleaning loop ends by its condition, the store keeps to its share; and then all stores
      keep to their totals, or this one to its lower share. */
  lemma CleanedStore(x: Sweep, es: Entries)
    requires !x.Over(es)
    ensures var local, remote := LocalTotal(x.storage, ContentsOf(es)), RemoteTotal(x.storage, ContentsOf(es));
            && (x.l.lowerThreshold <= x.l.threshold ==>
                  local <= x.l.localTotal / 100 * x.l.threshold && remote <= x.l.remoteTotal / 100 * x.l.threshold)
            && ((x.othersLocal + local <= x.l.localTotal && x.othersRemote + remote <= x.l.remoteTotal) ||
                (local <= x.l.localTotal / 100 * x.l.lowerThreshold &&
                 remote <= x.l.remoteTotal / 100 * x.l.lowerThreshold))
  {
    if x.l.lowerThreshold <= x.l.threshold {
      MulMonotone(x.l.localTotal / 100, x.l.lowerThreshold, x.l.threshold);
      MulMonotone(x.l.remoteTotal / 100, x.l.lowerThreshold, x.l.threshold);
    }
  }

  lemma EmptyTable(storage: nat, slots: Slots, checksums: map<Bytes, nat>)
    requires Indexed(slots, checksums)
    ensures |checksums| == 0 ==> RemoteTotal(storage, slots) == 0
  {
    if |checksums| == 0 {
      assert checksums == map[];
      TotalsEmpty(storage, slots);
    }
  }

  /** What was found decides. */
  lemma SettledBy(s: Store, slots: Slots, checksums: map<Bytes, nat>, m: Bytes, slot: nat, position: int, added: bool, d: Decision)
    requires Good(s, m) && Indexed(slots, checksums) && slot < |slots|
    requires position == NOTHING <==> Locked(slots, slot)
    requires position != NOTHING ==> (added <==> !Recorded(slots, ChecksumOf(s, m)))
    requires position != NOTHING && added ==> d == Add(slot)
    requires position != NOTHING && !added ==>
      position >= 0 && HasChecksum(s, slots, m, position) &&
      d == if slots[position].value.locks != 0 then Discard else Hit(position)
    requires position == NOTHING ==> d == Discard
    ensures Settled(s, slots, m, slot, d)
  {
    if position != NOTHING && !added {
      forall p: nat | HasChecksum(s, slots, m, p) ensures p == position {
        ChecksumsUnique(slots, checksums, p, position);
      }
      assert HasChecksum(s, slots, m, position);
    } else if position != NOTHING {
      NotRecorded(s, slots, m);
    }
  }

  lemma NotRecorded(s: Store, slots: Slots, m: Bytes)
    requires Good(s, m)
    ensures Recorded(slots, ChecksumOf(s, m)) <==> exists p: nat :: HasChecksum(s, slots, m, p)
  {
    if Recorded(slots, ChecksumOf(s, m)) {
      var p :| 0 <= p < |slots| && slots[p].Some? && slots[p].value.checksum == Some(ChecksumOf(s, m));
      assert HasChecksum(s, slots, m, p);
    }
  }

  lemma TakenSettled(s: Store, slots: Slots, m: Bytes, d: Decision, take: bool)
    requires Good(s, m) && CanDecide(s, slots, m, d) && !d.Hit? && TakenByMiss(s, take)
    ensures var was := Decided(s, slots, m, d);
            Encoded(s, slots, m, d, take) ==
            if d.Add? then was[d.position := Some(was[d.position].value.(locks := was[d.position].value.locks + 1))] else was
  {
  }

  /** An added message whose data part follows differs from the parsed one in its compressed size. */
  lemma WholeSettled(s: Store, slots: Slots, m: Bytes, d: Decision, take: bool, size: nat)
    requires Good(s, m) && CanDecide(s, slots, m, d) && !d.Hit? && !TakenByMiss(s, take)
    requires AddedSize(s, m) == if size == 0 then 0 else size + s.c.identitySize
    ensures Encoded(s, slots, m, d, take) ==
            if d.Add? && size != 0 then
              slots[d.position := Some(ParsedContent(s, m).(compressedSize := size + s.c.identitySize))]
            else Decided(s, slots, m, d)
  {
  }

  lemma NoHitTokens(s: Store, slots: Slots, m: Bytes, d: Decision)
    requires Good(s, m) && |slots| <= MAX_SLOTS && CanDecide(s, slots, m, d) && !d.Hit?
    ensures DecisionTokens(s, slots, m, d) == [DecisionToken(KindOf(s), d)]
  {
  }

  lemma Joined(a: seq<Token>, b: seq<Token>, c: seq<Token>)
    ensures (a + b) + c == a + (b + c)
  {
  }

  lemma Joined3(a: seq<Token>, b: seq<Token>, c: seq<Token>, d: seq<Token>)
    ensures ((a + b) + c) + d == a + (b + (c + d))
  {
  }

  /** What the search for a request writes. */
  function DecisionTokens(s: Store, slots: Slots, m: Bytes, d: Decision): seq<Token>
    requires Good(s, m) && |slots| <= MAX_SLOTS && CanDecide(s, slots, m, d)
  {
    [DecisionToken(KindOf(s), d)] +
    if d.Hit? then Updating(s, slots[d.position].value.identity, ParsedIdentity(s, m)) else []
  }

  lemma CachedWritten(s: Store, slots: Slots, m: Bytes, ps: seq<nat>, d: Decision)
    requires Good(s, m) && CanChoose(s, slots, m, ps, d)
    ensures CachedTokens(s, slots, m, ps, d) == Removals(KindOf(s), ps) + DecisionTokens(s, Removed(slots, ps), m, d)
  {
    Joined(Removals(KindOf(s), ps), [DecisionToken(KindOf(s), d)],
           if d.Hit? then Updating(s, Removed(slots, ps)[d.position].value.identity, ParsedIdentity(s, m)) else []);
  }

  /** A request is what the search for it writes and what follows. */
  lemma AllWritten(s: Store, slots: Slots, m: Bytes, ps: seq<nat>, d: Decision, rest: seq<Token>, take: bool)
    requires Good(s, m) && CanChoose(s, slots, m, ps, d)
    requires rest == if d.Hit? then TakeTokens(s.Splits(), take) else MissTokens(s, m, take)
    ensures RequestTokens(s, slots, m, ps, d, take) == CachedTokens(s, slots, m, ps, d) + rest
    ensures d.Hit? ==> Encoded(s, Removed(slots, ps), m, d, take) == Decided(s, Removed(slots, ps), m, d)
  {
    var head := Removals(KindOf(s), ps) + [DecisionToken(KindOf(s), d)];
    if d.Hit? {
      Joined(head, Updating(s, Removed(slots, ps)[d.position].value.identity, ParsedIdentity(s, m)), rest);
    } else {
      assert CachedTokens(s, slots, m, ps, d) == head;
    }
  }
}
