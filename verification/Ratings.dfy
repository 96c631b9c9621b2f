/**
 The bookkeeping of a message store: ratings, storage sizes and the table of checksums, as
 functions of its entries.
 */
module Ratings {
  import opened Words
  import opened Buffers
  import opened Exchange
  import opened Coherence

  /** The tunables of nxcomp/src/Control.cpp. */
  datatype Tunables = Tunables(
    loadBonus: int, addBonus: int, limit: int, touch: int, untouch: int, timeLimit: int,
    minimumSize: nat, maximumSize: nat)

  /** A slot's message with its hits and the time of its last use. */
  datatype Entry = Entry(content: Content, hits: int, last: int)

  type Entries = seq<Option<Entry>>

  function ContentsOf(es: Entries): (slots: Slots)
    ensures |slots| == |es|
    ensures forall p :: 0 <= p < |es| ==> slots[p] == if es[p].None? then None else Some(es[p].value.content)
  {
    seq(|es|, p requires 0 <= p < |es| => if es[p].None? then None else Some(es[p].value.content))
  }

  // ----- Ratings -----

  datatype Purpose = Cleaning | Inserting

  /** getRating: messages of rating 0 can go, a negative rating is that of a locked message. */
  function Rating(t: Tunables, e: Entry, purpose: Purpose, full: bool, now: int): int {
    if e.content.locks != 0 then -1
    else if (purpose.Cleaning? || full) && e.hits <= t.loadBonus then 0
    else if purpose.Cleaning? && now - e.last >= t.timeLimit then 0
    else e.hits
  }

  /** Which messages can go, in numbers: those that nobody holds and that were hit no more than a loaded
      message counts, or never; to save space also those not used for long enough, and for a new
      message the rarely hit ones only if there is no free slot. */
  lemma RatedZero(t: Tunables, e: Entry, purpose: Purpose, full: bool, now: int)
    ensures Rating(t, e, purpose, full, now) == 0 <==>
            e.content.locks == 0 &&
            (e.hits == 0 || ((purpose.Cleaning? || full) && e.hits <= t.loadBonus) ||
             (purpose.Cleaning? && now - e.last >= t.timeLimit))
  {
  }

  function Touched(t: Tunables, e: Entry, now: int): Entry {
    e.(last := now, hits := if e.hits + t.touch > t.limit then t.limit else e.hits + t.touch)
  }

  function Untouched(t: Tunables, e: Entry): Entry {
    e.(hits := if e.hits - t.untouch < 0 then 0 else e.hits - t.untouch)
  }

  /** The message e was passed over by a search: its hits have gone down, but not below 0. */
  ghost predicate Lowered(t: Tunables, e: Option<Entry>, r: Option<Entry>) {
    if e.None? then r.None?
    else
      r.Some? && r.value.content == e.value.content && r.value.last == e.value.last &&
      r.value.hits == if e.value.hits > t.untouch then e.value.hits - t.untouch else 0
  }

  // ----- Storage sizes -----

  const MD5_LENGTH: nat := 16

  /** What a message costs the side that keeps the checksum. */
  function ChecksumSide(storage: nat): nat {
    storage + MD5_LENGTH + 48 + 24
  }

  /** What a message costs the side that keeps the data. */
  function DataSide(storage: nat, c: Content): nat {
    storage + (if c.compressedSize == 0 then c.size else c.compressedSize) + 24
  }

  /** storageSize: a message without a checksum belongs to the decoding side. */
  function LocalSize(storage: nat, c: Content): nat {
    if c.checksum.Some? then ChecksumSide(storage) else DataSide(storage, c)
  }

  function RemoteSize(storage: nat, c: Content): nat {
    if c.checksum.Some? then DataSide(storage, c) else ChecksumSide(storage)
  }

  /** In numbers: 88 bytes and the overhead at the side that keeps the checksum; 24 bytes, the overhead
      and the request, compressed if it is, at the other. */
  lemma MessageCosts(storage: nat, c: Content)
    ensures var atData, atChecksum := storage + (if c.compressedSize > 0 then c.compressedSize else c.size) + 24, storage + 88;
            (c.checksum.Some? ==> LocalSize(storage, c) == atChecksum && RemoteSize(storage, c) == atData) &&
            (c.checksum.None? ==> LocalSize(storage, c) == atData && RemoteSize(storage, c) == atChecksum)
  {
  }

  function SlotLocal(storage: nat, slot: Option<Content>): nat {
    if slot.None? then 0 else LocalSize(storage, slot.value)
  }

  function SlotRemote(storage: nat, slot: Option<Content>): nat {
    if slot.None? then 0 else RemoteSize(storage, slot.value)
  }

  function LocalTotal(storage: nat, slots: Slots): nat {
    if slots == [] then 0 else SlotLocal(storage, slots[0]) + LocalTotal(storage, slots[1..])
  }

  function RemoteTotal(storage: nat, slots: Slots): nat {
    if slots == [] then 0 else SlotRemote(storage, slots[0]) + RemoteTotal(storage, slots[1..])
  }

  lemma {:induction false} TotalsUpdated(storage: nat, slots: Slots, p: nat, slot: Option<Content>)
    requires p < |slots|
    ensures LocalTotal(storage, slots[p := slot]) ==
            LocalTotal(storage, slots) - SlotLocal(storage, slots[p]) + SlotLocal(storage, slot)
    ensures RemoteTotal(storage, slots[p := slot]) ==
            RemoteTotal(storage, slots) - SlotRemote(storage, slots[p]) + SlotRemote(storage, slot)
  {
    if p == 0 {
      assert slots[0 := slot][1..] == slots[1..];
    } else {
      assert slots[p := slot][1..] == slots[1..][p - 1 := slot];
      TotalsUpdated(storage, slots[1..], p - 1, slot);
    }
  }

  lemma {:induction false} TotalsEmpty(storage: nat, slots: Slots)
    requires forall p :: 0 <= p < |slots| ==> slots[p].None?
    ensures LocalTotal(storage, slots) == 0 && RemoteTotal(storage, slots) == 0
  {
    if slots != [] {
      TotalsEmpty(storage, slots[1..]);
    }
  }

  /** Each side of a channel knows what the other side holds: what the encoding side takes for
      its remote size is the local size of the decoding side, and the other way round. */
  lemma {:induction false} SizesAgree(storage: nat, s: Store, a: Slots, b: Slots)
    requires |a| == |b| && forall p :: 0 <= p < |a| ==>
      (a[p].Some? <==> b[p].Some?) && (a[p].Some? ==> Matches(s, a[p].value, b[p].value))
    ensures LocalTotal(storage, a) == RemoteTotal(storage, b) && RemoteTotal(storage, a) == LocalTotal(storage, b)
    decreases |a|
  {
    if a != [] {
      SizesAgree(storage, s, a[1..], b[1..]);
      assert a[0].Some? ==> Matches(s, a[0].value, b[0].value);
    }
  }

  /** This holds in every state that a channel can reach. */
  lemma CoherentSizes(storage: nat, s: Store, a: Slots, b: Slots)
    requires Coherent(s, a, b)
    ensures LocalTotal(storage, a) == RemoteTotal(storage, b) && RemoteTotal(storage, a) == LocalTotal(storage, b)
  {
    SizesAgree(storage, s, a, b);
  }

  /** Every cached identity is complete. */
  ghost predicate AllSized(s: Store, slots: Slots) {
    forall p :: 0 <= p < |slots| && slots[p].Some? ==> |slots[p].value.identity| == Arity(s)
  }

  // ----- Checksums -----

  /** The table names exactly the occupied slots, each by the checksum of its message. */
  ghost predicate Indexed(slots: Slots, checksums: map<Bytes, nat>) {
    && (forall c :: c in checksums ==>
          checksums[c] < |slots| && slots[checksums[c]].Some? && slots[checksums[c]].value.checksum == Some(c))
    && (forall p :: 0 <= p < |slots| && slots[p].Some? ==>
          slots[p].value.checksum.Some? && slots[p].value.checksum.value in checksums &&
          checksums[slots[p].value.checksum.value] == p)
  }

  /** Some message has the checksum c. */
  ghost predicate Recorded(slots: Slots, c: Bytes) {
    exists p :: 0 <= p < |slots| && slots[p].Some? && slots[p].value.checksum == Some(c)
  }

  /** No two messages of an indexed store have the same checksum. */
  lemma ChecksumsUnique(slots: Slots, checksums: map<Bytes, nat>, p: nat, q: nat)
    requires Indexed(slots, checksums) && p < |slots| && q < |slots| && slots[p].Some? && slots[q].Some?
    ensures slots[p].value.checksum == slots[q].value.checksum <==> p == q
  {
  }

  lemma IndexRemoved(slots: Slots, checksums: map<Bytes, nat>, p: nat)
    requires Indexed(slots, checksums) && p < |slots| && slots[p].Some?
    ensures slots[p].value.checksum.Some?
    ensures Indexed(slots[p := None], checksums - {slots[p].value.checksum.value})
  {
  }

  lemma IndexAdded(slots: Slots, checksums: map<Bytes, nat>, p: nat, c: Content)
    requires Indexed(slots, checksums) && p < |slots| && slots[p].None?
    requires c.checksum.Some? && c.checksum.value !in checksums
    ensures Indexed(slots[p := Some(c)], checksums[c.checksum.value := p])
  {
  }

  /** A message whose checksum stays the same. */
  lemma IndexKept(slots: Slots, checksums: map<Bytes, nat>, p: nat, c: Content)
    requires Indexed(slots, checksums) && p < |slots| && slots[p].Some? && c.checksum == slots[p].value.checksum
    ensures Indexed(slots[p := Some(c)], checksums)
  {
  }

  function Occupied(slots: Slots): (n: nat)
    ensures n <= |slots|
  {
    if slots == [] then 0 else (if slots[0].Some? then 1 else 0) + Occupied(slots[1..])
  }

  lemma {:induction false} OccupiedUpdated(slots: Slots, p: nat)
    requires p < |slots| && slots[p].Some?
    ensures Occupied(slots[p := None]) == Occupied(slots) - 1
  {
    if p == 0 {
      assert slots[0 := None][1..] == slots[1..];
    } else {
      assert slots[p := None][1..] == slots[1..][p - 1 := None];
      OccupiedUpdated(slots[1..], p - 1);
    }
  }

  lemma {:induction false} OccupiedAll(slots: Slots)
    ensures Occupied(slots) == |slots| <==> forall p :: 0 <= p < |slots| ==> slots[p].Some?
    ensures Occupied(slots) == 0 <==> forall p :: 0 <= p < |slots| ==> slots[p].None?
  {
    if slots != [] {
      OccupiedAll(slots[1..]);
      assert forall p :: 0 < p < |slots| ==> slots[p] == slots[1..][p - 1];
    }
  }

  /** The table has as many checksums as there are messages. */
  lemma {:induction false} IndexSize(slots: Slots, checksums: map<Bytes, nat>)
    requires Indexed(slots, checksums)
    ensures |checksums| == Occupied(slots)
    decreases |checksums|
  {
    OccupiedAll(slots);
    if checksums != map[] {
      var c :| c in checksums;
      var p := checksums[c];
      IndexRemoved(slots, checksums, p);
      OccupiedUpdated(slots, p);
      assert checksums.Keys == (checksums - {c}).Keys + {c};
      IndexSize(slots[p := None], checksums - {c});
    }
  }

  /** The table is as large as the store exactly if no slot is free. */
  lemma FullExactly(slots: Slots, checksums: map<Bytes, nat>)
    requires Indexed(slots, checksums)
    ensures |checksums| == |slots| <==> forall p :: 0 <= p < |slots| ==> slots[p].Some?
  {
    IndexSize(slots, checksums);
    OccupiedAll(slots);
  }

  /** A checksum is in the table exactly when a message with it is in the store. */
  lemma IndexFinds(slots: Slots, checksums: map<Bytes, nat>, c: Bytes)
    requires Indexed(slots, checksums)
    ensures c in checksums <==> Recorded(slots, c)
  {
  }
}
