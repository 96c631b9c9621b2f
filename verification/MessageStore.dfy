/** The message store of a class of requests: nxcomp/src/Message.cpp. */
module MessageStore {
  import opened Words
  import opened Buffers
  import opened Exchange
  import opened Ratings

  const NOTHING: int := -1

  /** The i-th slot behind `start` in a ring of n. */
  function Around(start: nat, i: nat, n: nat): (p: nat)
    requires start < n && i <= n
    ensures p < n
  {
    if start + i < n then start + i else start + i - n
  }

  /** The slot tried after p. */
  function Next(p: int, n: nat): (q: nat)
    requires 1 <= n && -1 <= p
    ensures q < n && (p < n ==> q == Around(if p < 0 then n - 1 else p, 1, n))
  {
    if p + 1 >= n then 0 else p + 1
  }

  /** The entries of a store with the last position removed, the last one used, and one that an earlier
      search has found. */
  datatype Ledger = Ledger(entries: Entries, lastRemoved: int, lastAdded: int, lastRated: int)

  // ----- Which slot is chosen, in numbers -----

  /** The message at p could go to save space: nobody holds it, and it was hit no more than a loaded
      message counts, or never, or was not used for long enough. */
  ghost predicate Removable(t: Tunables, es: Entries, p: nat, now: int) {
    && p < |es| && es[p].Some? && es[p].value.content.locks == 0
    && (es[p].value.hits <= t.loadBonus || es[p].value.hits == 0 || now - es[p].value.last >= t.timeLimit)
  }

  /** A new message could take the slot p: it is free, or nobody holds its message, and that was never
      hit, or no more than a loaded message counts while no slot is free. */
  ghost predicate Replaceable(t: Tunables, es: Entries, p: nat) {
    && p < |es|
    && (es[p].Some? ==>
          es[p].value.content.locks == 0 &&
          (es[p].value.hits == 0 || (es[p].value.hits <= t.loadBonus && forall q :: 0 <= q < |es| ==> es[q].Some?)))
  }

  /** A search behind `start` has passed over the slots in front of the i-th one: the hits of their
      messages have gone down, and nothing else has changed. */
  ghost predicate PassedOver(t: Tunables, was: Entries, es: Entries, start: nat, i: nat) {
    && start < |was| == |es|
    && (forall j :: 1 <= j < i <= |was| ==>
          Lowered(t, was[Around(start, j, |was|)], es[Around(start, j, |was|)]))
    && (forall j :: i <= j <= |was| ==> es[Around(start, j, |was|)] == was[Around(start, j, |was|)])
  }

  /** What clean does to the entries and which position it gives: the first one behind `start` whose
      message can go, or the very next one if nobody holds its message, or nothing. */
  ghost predicate Cleans(t: Tunables, was: Entries, es: Entries, start: nat, now: int, position: int) {
    forall n: nat :: Opening(n) ==> exists i :: CleansAt(t, was, es, start, now, position, i)
  }

  ghost predicate CleansAt(t: Tunables, was: Entries, es: Entries, start: nat, now: int, position: int, i: nat) {
    && 1 <= i <= |was| && PassedOver(t, was, es, start, i)
    && (forall j :: 1 <= j < i ==> !Removable(t, was, Around(start, j, |was|), now))
    && (i < |was| ==> position == Around(start, i, |was|) && Removable(t, was, position, now))
    && (i == |was| ==>
          var next := Around(start, 1, |was|);
          position == if was[next].Some? && was[next].value.content.locks == 0 then next else NOTHING)
  }

  /** The slot that a new message would take: the one that an earlier search found and that was not
      used, or the first one behind the last position used that is free or can be replaced, or the
      very next one. */
  ghost predicate Chooses(t: Tunables, was: Entries, es: Entries, lastAdded: int, lastRated: int, slot: nat) {
    forall n: nat :: Opening(n) ==> ChoosesBy(t, was, es, lastAdded, lastRated, slot)
  }

  ghost predicate ChoosesBy(t: Tunables, was: Entries, es: Entries, lastAdded: int, lastRated: int, slot: nat) {
    && slot < |was| && NOTHING <= lastAdded
    && if lastRated != NOTHING then
         es == was && slot == if lastRated == lastAdded then Next(lastAdded, |was|) else lastRated
       else if 0 <= lastAdded < |was| then exists i :: ChoosesAt(t, was, es, lastAdded, slot, i)
       else es == was && slot == 0
  }

  ghost predicate ChoosesAt(t: Tunables, was: Entries, es: Entries, start: nat, slot: nat, i: nat) {
    && 1 <= i <= |was| && PassedOver(t, was, es, start, i)
    && (forall j :: 1 <= j < i ==> !Replaceable(t, was, Around(start, j, |was|)))
    && (i < |was| ==> slot == Around(start, i, |was|) && Replaceable(t, was, slot))
    && (i == |was| ==> slot == Around(start, 1, |was|))
  }

  /** The hits of a message passed over have gone down. */
  lemma UntouchedLowered(t: Tunables, e: Entry)
    ensures Lowered(t, Some(e), Some(Untouched(t, e)))
  {
  }

  lemma AroundOnce(start: nat, i: nat, j: nat, n: nat)
    requires start < n && 1 <= i <= n && 1 <= j <= n
    ensures Around(start, i, n) == Around(start, j, n) <==> i == j
    ensures Around(start, i, n) == start <==> i == n
  {
  }

  /** A slot not yet passed over can be replaced exactly if it could be before the search. */
  lemma SameReplaceable(t: Tunables, was: Entries, es: Entries, p: nat)
    requires |was| == |es| && ContentsOf(was) == ContentsOf(es) && p < |es| && es[p] == was[p]
    ensures Replaceable(t, es, p) <==> Replaceable(t, was, p)
  {
    assert forall q :: 0 <= q < |es| ==> (es[q].Some? <==> ContentsOf(es)[q].Some?);
    assert forall q :: 0 <= q < |es| ==> (was[q].Some? <==> ContentsOf(was)[q].Some?);
  }

  /** One more slot is passed over. */
  lemma PassedFurther(t: Tunables, was: Entries, es: Entries, next: Entries, start: nat, i: nat)
    requires start < |was| && 1 <= i < |was| && PassedOver(t, was, es, start, i)
    requires var p := Around(start, i, |was|);
             |next| == |es| && Lowered(t, es[p], next[p]) && forall q :: 0 <= q < |es| && q != p ==> next[q] == es[q]
    ensures PassedOver(t, was, next, start, i + 1)
  {
    forall j | 1 <= j <= |was| && j != i ensures next[Around(start, j, |was|)] == es[Around(start, j, |was|)] {
      AroundOnce(start, i, j, |was|);
    }
  }

  /** The message in slot q is held by nobody. */
  ghost predicate Idle(es: Entries, q: nat) {
    q < |es| && es[q].Some? && es[q].value.content.locks == 0
  }

  /** What goes to save space was held by nobody, and was hit no more than a loaded message counts, or
      never, or was not used for long enough; or it is the next one, while every message but the last
      one looked at is held, or was hit more often and used lately. */
  lemma CleansWhat(t: Tunables, was: Entries, es: Entries, start: nat, now: int, position: int)
    requires start < |was| && Cleans(t, was, es, start, now, position) && position != NOTHING
    ensures 0 <= position && Idle(was, position)
    ensures var e := was[position].value;
            e.hits <= t.loadBonus || e.hits == 0 || now - e.last >= t.timeLimit ||
            (position == Around(start, 1, |was|) &&
             forall q :: 0 <= q < |was| && q != start && Idle(was, q) ==>
               was[q].value.hits > t.loadBonus && was[q].value.hits != 0 && now - was[q].value.last < t.timeLimit)
  {
    assert Opening(0);
    var i :| CleansAt(t, was, es, start, now, position, i);
    if i == |was| {
      forall q | 0 <= q < |was| && q != start && Idle(was, q) ensures !Removable(t, was, q, now) {
        ReachedAround(start, q, |was|);
      }
    }
  }

  /** A new message takes the slot found by an earlier search, or a free one, or that of a message held
      by nobody that was never hit, or, while no slot is free, no more than a loaded message counts; or
      the next one, while every slot but the last one used holds a message that is held or was hit more
      often than that. */
  lemma ChoosesWhat(t: Tunables, was: Entries, es: Entries, lastAdded: int, lastRated: int, slot: nat)
    requires Chooses(t, was, es, lastAdded, lastRated, slot) && lastRated == NOTHING && 0 <= lastAdded < |was|
    ensures slot < |was|
    ensures var full := forall q :: 0 <= q < |was| ==> was[q].Some?;
            was[slot].None? ||
            (Idle(was, slot) && (was[slot].value.hits == 0 || (full && was[slot].value.hits <= t.loadBonus))) ||
            (slot == Around(lastAdded, 1, |was|) &&
             forall q :: 0 <= q < |was| && q != lastAdded ==>
               was[q].Some? && (Idle(was, q) ==> was[q].value.hits != 0 && (full ==> was[q].value.hits > t.loadBonus)))
  {
    assert Opening(0);
    var i :| ChoosesAt(t, was, es, lastAdded, slot, i);
    if i == |was| {
      var full := forall q :: 0 <= q < |was| ==> was[q].Some?;
      forall q | 0 <= q < |was| && q != lastAdded
        ensures was[q].Some? && (Idle(was, q) ==> was[q].value.hits != 0 && (full ==> was[q].value.hits > t.loadBonus))
      {
        ReachedAround(lastAdded, q, |was|);
        assert !Replaceable(t, was, q);
      }
    }
  }

  /** A search around the ring reaches every slot but the one that it starts behind. */
  lemma ReachedAround(start: nat, q: nat, n: nat)
    requires start < n && q < n && q != start
    ensures exists j :: 1 <= j < n && Around(start, j, n) == q
  {
    var j := if q > start then q - start else q + n - start;
    assert Around(start, j, n) == q;
  }

  class MessageStore {
    const s: Store
    const tunables: Tunables
    const storage: nat
    const useChecksum: bool
    const cacheSlots: nat
    const messages: array<Option<Entry>>
    var checksums: map<Bytes, nat>
    var lastAdded: int
    var lastHit: int
    var lastRemoved: int
    var lastRated: int
    var localStorageSize: int
    var remoteStorageSize: int

    ghost function Entries(): Entries
      reads this, messages
    {
      messages[..]
    }

    /** What the searches go by. */
    ghost function Current(): Ledger
      reads this, messages
    {
      Ledger(messages[..], lastRemoved, lastAdded, lastRated)
    }

    ghost function Slots(): (r: Slots)
      reads this, messages
      ensures |r| == messages.Length
    {
      ContentsOf(messages[..])
    }

    /** Slots that are occupied are named by the table of checksums, at the side that has one, and
        the storage sizes are the sums over all messages. */
    ghost predicate Valid()
      reads this, messages
    {
      && 1 <= cacheSlots == messages.Length <= MAX_SLOTS
      && 0 <= lastRemoved < cacheSlots && NOTHING <= lastRated < cacheSlots && NOTHING <= lastAdded
      && localStorageSize == LocalTotal(storage, Slots())
      && remoteStorageSize == RemoteTotal(storage, Slots())
      && AllSized(s, Slots())
      && (if useChecksum then Indexed(Slots(), checksums)
          else checksums == map[] && forall p :: 0 <= p < cacheSlots && messages[p].Some? ==> messages[p].value.content.checksum == None)
    }

    /** Before anything was added the last position is out of range, and then no slot is taken. */
    ghost predicate Ready()
      reads this, messages
    {
      0 <= lastAdded < messages.Length || forall p :: 0 <= p < messages.Length ==> messages[p].None?
    }

    /** The last position of a new store is the default number of slots, whatever its own is. */
    constructor (store: Store, t: Tunables, overhead: nat, encoding: bool, slots: nat)
      requires 1 <= slots <= MAX_SLOTS
      ensures Valid() && Ready() && fresh(messages)
      ensures Slots() == seq(slots, _ => None) && useChecksum == encoding && s == store && cacheSlots == slots
      ensures tunables == t && lastAdded == 6000 && lastRemoved == 0 && lastRated == NOTHING
    {
      s, tunables, storage, useChecksum, cacheSlots := store, t, overhead, encoding, slots;
      messages := new Option<Entry>[slots](_ => None);
      checksums := map[];
      lastAdded, lastHit, lastRemoved, lastRated := 6000, 0, 0, NOTHING;
      localStorageSize, remoteStorageSize := 0, 0;
      new;
      TotalsEmpty(storage, Slots());
    }

    // ----- Searching -----

    /** The hits of the message at p go down; nothing else changes. */
    method Untouch(p: nat)
      requires Valid() && p < messages.Length && messages[p].Some?
      modifies messages
      ensures Valid()
      ensures messages[..] == old(messages[..])[p := Some(Untouched(tunables, old(messages[p]).value))]
      ensures Slots() == old(Slots())
    {
      ghost var was := messages[..];
      messages[p] := Some(Untouched(tunables, messages[p].value));
      assert ContentsOf(messages[..]) == ContentsOf(was);
    }

    /** The table of checksums is as large as the store. */
    lemma Full()
      requires Valid() && useChecksum
      ensures |checksums| == cacheSlots <==> forall q :: 0 <= q < |Entries()| ==> Entries()[q].Some?
    {
      FullExactly(Slots(), checksums);
      assert forall q :: 0 <= q < |Entries()| ==> (Entries()[q].Some? <==> Slots()[q].Some?);
    }

    /** clean. */
    method Clean(now: int) returns (position: int)
      requires Valid()
      modifies messages
      ensures Valid() && Slots() == old(Slots())
      ensures position == NOTHING || (0 <= position && Unlocked(Slots(), position))
      ensures Cleans(tunables, old(Entries()), Entries(), lastRemoved, now, position)
    {
      ghost var was, i := Entries(), 0;
      position, i := SearchRemovable(now);
      AroundOnce(lastRemoved, i, i, cacheSlots);
      if position == lastRemoved {
        position := Next(lastRemoved, cacheSlots);
        if messages[position].None? || messages[position].value.content.locks != 0 {
          position := NOTHING;
        }
        NextKept(was, Entries());
      }
      assert CleansAt(tunables, was, Entries(), lastRemoved, now, position, i);
    }

    /** A search changes no content. */
    lemma NextKept(was: Entries, es: Entries)
      requires |was| == |es| == cacheSlots >= 1 && 0 <= lastRemoved < cacheSlots && ContentsOf(was) == ContentsOf(es)
      ensures var next := Around(lastRemoved, 1, cacheSlots);
              (was[next].Some? && was[next].value.content.locks == 0) <==> Unlocked(ContentsOf(es), next)
    {
      assert ContentsOf(was)[Around(lastRemoved, 1, cacheSlots)] == ContentsOf(es)[Around(lastRemoved, 1, cacheSlots)];
    }

    /** The search from the last position removed, which it returns if nothing was found. */
    method SearchRemovable(now: int) returns (position: nat, ghost i: nat)
      requires Valid()
      modifies messages
      ensures Valid() && Slots() == old(Slots())
      ensures 1 <= i <= cacheSlots && position == Around(lastRemoved, i, cacheSlots)
      ensures PassedOver(tunables, old(Entries()), Entries(), lastRemoved, i)
      ensures forall j :: 1 <= j < i ==> !Removable(tunables, old(Entries()), Around(lastRemoved, j, cacheSlots), now)
      ensures i < cacheSlots ==> Removable(tunables, old(Entries()), position, now) && Unlocked(Slots(), position)
    {
      position := Next(lastRemoved, cacheSlots);
      i := 1;
      ghost var was := Entries();
      while position != lastRemoved
        invariant Valid() && Slots() == old(Slots())
        invariant 1 <= i <= cacheSlots && position == Around(lastRemoved, i, cacheSlots)
        invariant PassedOver(tunables, was, Entries(), lastRemoved, i)
        invariant forall j :: 1 <= j < i ==> !Removable(tunables, was, Around(lastRemoved, j, cacheSlots), now)
        decreases cacheSlots - i
      {
        ghost var es := Entries();
        AroundOnce(lastRemoved, i, i, cacheSlots);
        assert es[position] == was[position];
        var found := TryRemove(position, now);
        if found {
          return;
        }
        PassedFurther(tunables, was, es, Entries(), lastRemoved, i);
        position := if position + 1 == cacheSlots then 0 else position + 1;
        i := i + 1;
      }
      AroundOnce(lastRemoved, i, i, cacheSlots);
    }

    /** Whether the message at p can go; if not, its hits go down. */
    method TryRemove(p: nat, now: int) returns (found: bool)
      requires Valid() && p < cacheSlots
      modifies messages
      ensures Valid() && Slots() == old(Slots())
      ensures found <==> Removable(tunables, old(Entries()), p, now)
      ensures found ==> Entries() == old(Entries())
      ensures !found ==> Lowered(tunables, old(messages[p]), messages[p])
      ensures forall q :: 0 <= q < cacheSlots && q != p ==> messages[q] == old(messages[q])
    {
      found := false;
      if messages[p].Some? {
        ghost var e := messages[p].value;
        RatedZero(tunables, e, Cleaning, |checksums| == cacheSlots, now);
        found := Rating(tunables, messages[p].value, Cleaning, |checksums| == cacheSlots, now) == 0;
        if !found {
          UntouchedLowered(tunables, e);
          Untouch(p);
        }
      }
    }

    /** Whether the slot p can take a new message; if not, the hits of its message go down. */
    method TryReplace(p: nat, now: int) returns (found: bool)
      requires Valid() && useChecksum && p < cacheSlots
      modifies messages
      ensures Valid() && Slots() == old(Slots())
      ensures found <==> Replaceable(tunables, old(Entries()), p)
      ensures found ==> Entries() == old(Entries())
      ensures !found ==> Lowered(tunables, old(messages[p]), messages[p])
      ensures forall q :: 0 <= q < cacheSlots && q != p ==> messages[q] == old(messages[q])
    {
      Full();
      found := messages[p].None?;
      if messages[p].Some? {
        ghost var e := messages[p].value;
        RatedZero(tunables, e, Inserting, |checksums| == cacheSlots, now);
        found := Rating(tunables, messages[p].value, Inserting, |checksums| == cacheSlots, now) == 0;
        if !found {
          UntouchedLowered(tunables, e);
          Untouch(p);
        }
      }
    }

    /** The first part of findOrAdd: the slot that a new message would take. */
    method FindSlot(now: int) returns (position: nat)
      requires Valid() && Ready() && useChecksum
      modifies messages
      ensures Valid() && Ready() && Slots() == old(Slots()) && position < cacheSlots
      ensures Chooses(tunables, old(Entries()), Entries(), lastAdded, lastRated, position)
    {
      if lastRated != NOTHING {
        position := lastRated;
        if position == lastAdded {
          position := Next(lastAdded, cacheSlots);
        }
      } else if lastAdded < 0 || lastAdded >= cacheSlots {
        position := 0;
        assert messages[position].None?;
      } else {
        ghost var i;
        position, i := SearchSlot(now);
        assert ChoosesAt(tunables, old(Entries()), Entries(), lastAdded, position, i);
      }
    }

    /** The search from the last position used. */
    method SearchSlot(now: int) returns (position: nat, ghost i: nat)
      requires Valid() && useChecksum && 0 <= lastAdded < cacheSlots
      modifies messages
      ensures Valid() && Slots() == old(Slots()) && position < cacheSlots
      ensures ChoosesAt(tunables, old(Entries()), Entries(), lastAdded, position, i)
    {
      position := Next(lastAdded, cacheSlots);
      i := 1;
      ghost var was := Entries();
      while position != lastAdded
        invariant Valid() && Slots() == old(Slots()) && 0 <= lastAdded < cacheSlots
        invariant 1 <= i <= cacheSlots && position == Around(lastAdded, i, cacheSlots)
        invariant PassedOver(tunables, was, Entries(), lastAdded, i)
        invariant forall j :: 1 <= j < i ==> !Replaceable(tunables, was, Around(lastAdded, j, cacheSlots))
        decreases cacheSlots - i
      {
        ghost var es := Entries();
        AroundOnce(lastAdded, i, i, cacheSlots);
        SameReplaceable(tunables, was, es, position);
        var found := TryReplace(position, now);
        if found {
          return;
        }
        PassedFurther(tunables, was, es, Entries(), lastAdded, i);
        position := if position + 1 == cacheSlots then 0 else position + 1;
        i := i + 1;
      }
      AroundOnce(lastAdded, i, i, cacheSlots);
      position := Next(lastAdded, cacheSlots);
    }

    // ----- Changing slots -----

    /** Puts a message into a slot that is free and accounts for its size. */
    method Insert(c: Content, position: nat, now: int)
      requires Valid() && |c.identity| == Arity(s) && position < cacheSlots && messages[position].None?
      requires if useChecksum then c.checksum.Some? && c.checksum.value !in checksums else c.checksum == None
      modifies this, messages
      ensures Valid() && Slots() == old(Slots())[position := Some(c)]
      ensures Entries() == old(Entries())[position := Some(Entry(c, tunables.addBonus, now))]
      ensures checksums == if useChecksum then old(checksums)[c.checksum.value := position] else old(checksums)
      ensures lastAdded == old(lastAdded) && lastRemoved == old(lastRemoved) && lastRated == old(lastRated)
    {
      ghost var was := Slots();
      messages[position] := Some(Entry(c, tunables.addBonus, now));
      assert Slots() == was[position := Some(c)];
      TotalsUpdated(storage, was, position, Some(c));
      localStorageSize := localStorageSize + LocalSize(storage, c);
      remoteStorageSize := remoteStorageSize + RemoteSize(storage, c);
      if useChecksum {
        IndexAdded(was, checksums, position, c);
        checksums := checksums[c.checksum.value := position];
      }
    }

    /** Puts a message into a slot, dropping the one that was there. */
    method Place(c: Content, position: nat, now: int)
      requires Valid() && |c.identity| == Arity(s) && position < cacheSlots
      requires if useChecksum then c.checksum.Some? && c.checksum.value !in checksums else c.checksum == None
      modifies this, messages
      ensures Valid() && Slots() == old(Slots())[position := Some(c)]
      ensures Entries() == old(Entries())[position := Some(Entry(c, tunables.addBonus, now))]
      ensures lastAdded == old(lastAdded) && lastRemoved == old(lastRemoved) && lastRated == old(lastRated)
    {
      ghost var was := Slots();
      if messages[position].Some? {
        Remove(position);
      }
      Insert(c, position, now);
      assert Slots() == was[position := Some(c)];
    }

    /** remove. */
    method Remove(position: nat)
      requires Valid() && position < cacheSlots && messages[position].Some?
      modifies this, messages
      ensures Valid() && Slots() == old(Slots())[position := None]
      ensures messages[..] == old(messages[..])[position := None]
      ensures useChecksum ==> checksums == old(checksums) - {old(Slots())[position].value.checksum.value}
      ensures lastAdded == old(lastAdded) && lastRemoved == old(lastRemoved) && lastRated == old(lastRated)
    {
      ghost var was := Slots();
      var c := messages[position].value.content;
      if useChecksum {
        IndexRemoved(was, checksums, position);
        checksums := checksums - {c.checksum.value};
      }
      localStorageSize := localStorageSize - LocalSize(storage, c);
      remoteStorageSize := remoteStorageSize - RemoteSize(storage, c);
      TotalsUpdated(storage, was, position, None);
      messages[position] := None;
      assert Slots() == was[position := None];
    }

    /** Replaces a message by one with the same checksum and accounts for its size: what
        updateData, updateIdentity, lock and unlock do to it. */
    method Modify(position: nat, c: Content)
      requires Valid() && position < cacheSlots && messages[position].Some?
      requires c.checksum == messages[position].value.content.checksum && |c.identity| == Arity(s)
      modifies this, messages
      ensures Valid() && Slots() == old(Slots())[position := Some(c)]
      ensures Entries() == old(Entries())[position := Some(old(messages[position].value).(content := c))]
      ensures checksums == old(checksums)
      ensures lastAdded == old(lastAdded) && lastRemoved == old(lastRemoved) && lastRated == old(lastRated)
    {
      ghost var was := Slots();
      var before := messages[position].value.content;
      localStorageSize := localStorageSize - LocalSize(storage, before) + LocalSize(storage, c);
      remoteStorageSize := remoteStorageSize - RemoteSize(storage, before) + RemoteSize(storage, c);
      TotalsUpdated(storage, was, position, Some(c));
      messages[position] := Some(messages[position].value.(content := c));
      assert Slots() == was[position := Some(c)];
      if useChecksum {
        IndexKept(was, checksums, position, c);
      }
    }

    /** A hit adds `touch`, but never beyond the limit. */
    function HitsAfter(hits: int): (r: int)
      ensures r <= tunables.limit && r <= hits + tunables.touch && (r == tunables.limit || r == hits + tunables.touch)
    {
      if hits + tunables.touch > tunables.limit then tunables.limit else hits + tunables.touch
    }

    /** touch: the message at a position got a hit. */
    method Touch(position: nat, now: int)
      requires Valid() && position < cacheSlots && messages[position].Some?
      modifies messages
      ensures Valid() && Slots() == old(Slots())
      ensures var e := old(messages[position]).value;
              Entries() == old(Entries())[position := Some(Entry(e.content, HitsAfter(e.hits), now))]
    {
      ghost var was := messages[..];
      messages[position] := Some(Touched(tunables, messages[position].value, now));
      assert ContentsOf(messages[..]) == ContentsOf(was);
    }

    /** A message whose data part is still to come is locked. */
    method Lock(position: nat)
      requires Valid() && position < cacheSlots && messages[position].Some?
      modifies this, messages
      ensures Valid() && lastAdded == old(lastAdded)
      ensures var c := old(Slots())[position].value;
              Slots() == old(Slots())[position := Some(c.(locks := c.locks + 1))]
    {
      var c := messages[position].value.content;
      Modify(position, c.(locks := c.locks + 1));
    }

    method Unlock(position: nat)
      requires Valid() && position < cacheSlots && messages[position].Some? && messages[position].value.content.locks > 0
      modifies this, messages
      ensures Valid() && lastAdded == old(lastAdded)
      ensures var c := old(Slots())[position].value;
              Slots() == old(Slots())[position := Some(c.(locks := c.locks - 1))]
    {
      var c := messages[position].value.content;
      Modify(position, c.(locks := c.locks - 1));
    }

    /** updateData at the encoding side, for data that was compressed to a number of bytes, or was not
        if that is 0. */
    method UpdateData(position: nat, compressedSize: nat)
      requires Valid() && position < cacheSlots && messages[position].Some?
      modifies this, messages
      ensures Valid() && lastAdded == old(lastAdded)
      ensures var c := old(Slots())[position].value;
              Slots() == old(Slots())[position := Some(Resized(c, compressedSize))]
    {
      var c := messages[position].value.content;
      if compressedSize != 0 {
        Modify(position, c.(compressedSize := compressedSize + s.c.identitySize));
      }
    }

    function Resized(c: Content, compressedSize: nat): Content {
      if compressedSize != 0 then c.(compressedSize := compressedSize + s.c.identitySize) else c
    }

    // ----- Last positions -----

    method NoteAdded(position: nat)
      requires Valid() && position < cacheSlots
      modifies this`lastAdded
      ensures Valid() && Ready() && lastAdded == position
    {
      lastAdded := position;
    }

    method NoteRemoved(position: nat)
      requires Valid() && position < cacheSlots
      modifies this`lastRemoved
      ensures Valid() && lastRemoved == position
    {
      lastRemoved := position;
    }

    method NoteHit(position: nat)
      requires Valid() && position < cacheSlots
      modifies this`lastHit
      ensures Valid() && lastHit == position
    {
      lastHit := position;
    }

    // ----- The encoding side -----

    /** findOrAdd: finds the message with the checksum of c, or puts c into the slot that was chosen,
        dropping the message that was there.  It does neither if somebody holds that message. */
    method FindOrAdd(c: Content, now: int) returns (position: int, added: bool, locked: bool, ghost slot: nat, ghost searched: Entries)
      requires Valid() && Ready() && useChecksum && c.checksum.Some? && |c.identity| == Arity(s)
      modifies this, messages
      ensures Valid() && lastAdded == old(lastAdded) && lastRemoved == old(lastRemoved)
      ensures Chooses(tunables, old(Entries()), searched, lastAdded, old(lastRated), slot) && |searched| == cacheSlots
      ensures slot < cacheSlots && (position == NOTHING || 0 <= position < cacheSlots)
      ensures Entries() == if added then searched[slot := Some(Entry(c, tunables.addBonus, now))] else searched
      ensures position == NOTHING <==> old(Slots())[slot].Some? && old(Slots())[slot].value.locks != 0
      ensures position == NOTHING ==> !added && !locked && lastRated == NOTHING
      ensures position != NOTHING ==> (added <==> !Recorded(old(Slots()), c.checksum.value))
      ensures Slots() == if added then old(Slots())[slot := Some(c)] else old(Slots())
      ensures added ==> position == slot && lastRated == NOTHING
      ensures position != NOTHING && !added ==>
        Slots()[position].Some? && Slots()[position].value.checksum == c.checksum &&
        (locked <==> Slots()[position].value.locks != 0) && lastRated == if slot == position then NOTHING else slot
      ensures !added ==> Ready()
    {
      var chosen := FindSlot(now);
      slot, searched := chosen, Entries();
      added, locked := false, false;
      lastRated := chosen;
      IndexFinds(Slots(), checksums, c.checksum.value);
      if messages[chosen].Some? && messages[chosen].value.content.locks != 0 {
        lastRated := NOTHING;
        return NOTHING, false, false, slot, searched;
      }
      if c.checksum.value in checksums {
        position := checksums[c.checksum.value];
        locked := messages[position].value.content.locks != 0;
        if lastRated == position {
          lastRated := NOTHING;
        }
        return;
      }
      added := true;
      position := chosen;
      Place(c, chosen, now);
      lastRated := NOTHING;
      assert Entries() == searched[slot := Some(Entry(c, tunables.addBonus, now))];
    }

    // ----- The decoding side -----

    /** add. */
    method Add(c: Content, position: nat, now: int)
      requires Valid() && !useChecksum && c.checksum == None && |c.identity| == Arity(s) && position < cacheSlots
      modifies this, messages
      ensures Valid() && Slots() == old(Slots())[position := Some(c)]
      ensures Entries() == old(Entries())[position := Some(Entry(c, tunables.addBonus, now))]
    {
      Place(c, position, now);
    }
  }
}
