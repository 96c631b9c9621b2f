/**
 The two sides of a channel over whole runs: they never drift apart, and every request reaches
 the X server as it was meant, at once or when its split is committed.
 */
module Runs {
  import opened Words
  import opened Buffers
  import opened SelfOrganising
  import opened ClientCache
  import opened Tokens
  import opened Streams
  import opened Messages
  import opened Exchange
  import opened Arrivals
  import opened Coherence
  import opened Splits
  import opened Channel

  // ----- Locks -----

  /** The message that a split will complete. */
  datatype Claim = NoClaim | Claim(kind: Kind, position: nat)

  function ClaimOf(o: Outgoing): Claim {
    if o.decision.Add? then Claim(o.kind, o.decision.position) else NoClaim
  }

  function ClaimsOf(os: seq<Outgoing>): multiset<Claim> {
    if os == [] then multiset{} else multiset{ClaimOf(os[0])} + ClaimsOf(os[1..])
  }

  lemma {:induction false} ClaimsAppend(os: seq<Outgoing>, ps: seq<Outgoing>)
    ensures ClaimsOf(os + ps) == ClaimsOf(os) + ClaimsOf(ps)
  {
    if os == [] {
      assert os + ps == ps;
    } else {
      assert (os + ps)[1..] == os[1..] + ps;
      ClaimsAppend(os[1..], ps);
    }
  }

  lemma ClaimsOne(o: Outgoing)
    ensures ClaimsOf([o]) == multiset{ClaimOf(o)}
  {
    assert [o][1..] == [];
  }

  /** Leaving out a split leaves out its claim. */
  lemma {:induction false} ClaimsWithout(os: seq<Outgoing>, i: nat)
    requires i < |os|
    ensures ClaimsOf(os) == ClaimsOf(WithoutAt(os, i)) + multiset{ClaimOf(os[i])}
    decreases i
  {
    if i == 0 {
      assert WithoutAt(os, 0) == os[1..];
    } else {
      var rest := WithoutAt(os[1..], i - 1);
      assert WithoutAt(os, i) == [os[0]] + rest;
      assert WithoutAt(os, i)[1..] == rest;
      ClaimsWithout(os[1..], i - 1);
    }
  }

  lemma ClaimsUpdated(os: seq<Outgoing>, i: nat, o: Outgoing)
    requires i < |os| && ClaimOf(o) == ClaimOf(os[i])
    ensures ClaimsOf(os[i := o]) == ClaimsOf(os)
  {
    var us := os[i := o];
    assert WithoutAt(us, i) == WithoutAt(os, i);
    ClaimsWithout(os, i);
    ClaimsWithout(us, i);
  }

  lemma {:induction false} ClaimsMember(os: seq<Outgoing>, i: nat)
    requires i < |os|
    ensures ClaimOf(os[i]) in ClaimsOf(os)
  {
    if i > 0 {
      ClaimsMember(os[1..], i - 1);
    }
  }

  /** The message at a claimed position is there, locked once, with the checksum of the request
      that was split. */
  ghost predicate Locks(s: Store, slots: Slots, o: Outgoing) {
    o.decision.Add? ==>
      var p := o.decision.position;
      && p < |slots| && slots[p].Some? && slots[p].value.locks == 1
      && Good(s, o.request) && slots[p].value.checksum == Some(ChecksumOf(s, o.request))
  }

  ghost predicate AllLock(cat: CatalogTraits, stores: Stores, os: seq<Outgoing>) {
    forall i :: 0 <= i < |os| ==> Locks(cat.store(os[i].kind), stores[os[i].kind], os[i])
  }

  /** No two splits claim the same message. */
  ghost predicate Exclusive(claims: multiset<Claim>) {
    forall c: Claim :: c.Claim? ==> claims[c] <= 1
  }

  // ----- The invariant -----

  ghost predicate Paired(cat: CatalogTraits, os: seq<Outgoing>, ns: seq<Incoming>) {
    |os| == |ns| && forall i :: 0 <= i < |os| ==> Partners(cat.store(os[i].kind), os[i], ns[i])
  }

  ghost predicate AllComplete(os: seq<Outgoing>, ns: seq<Incoming>) {
    |os| == |ns| && forall i :: 0 <= i < |os| ==> Complete(os[i]) && AllReceived(ns[i])
  }

  ghost predicate AllCoherent(cat: CatalogTraits, a: Stores, b: Stores) {
    forall k: Kind :: Coherent(cat.store(k), a[k], b[k])
  }

  /** The encoding side and the decoding side of a channel agree. */
  ghost predicate Linked(cat: CatalogTraits, a: Sender, g: Receiving) {
    && AllCoherent(cat, a.stores, g.stores)
    && Paired(cat, a.pending, g.pending)
    && Paired(cat, a.commits, g.commits) && AllComplete(a.commits, g.commits)
    && AllLock(cat, a.stores, a.pending) && AllLock(cat, a.stores, a.commits)
    && Exclusive(ClaimsOf(a.pending) + ClaimsOf(a.commits))
    && a.resource == g.resource && a.commit == g.commit
  }

  // ----- What is expected -----

  /** What the X server must be told for an item. */
  ghost predicate Expected(cat: CatalogTraits, a: Sender, item: Item, output: Output)
    requires Allowed(cat, a, item)
  {
    match item
    case RequestItem(kind, m, _, d, take) =>
      if Taken(cat.store(kind), d, take) then output == NullRequest
      else output.Request? && Presents(cat.store(kind), m, output.out)
    case StartItem(_) => output == NullRequest
    case EndItem => output == NullRequest
    case DataItem(_, _) => output == Nothing
    case CommitItem(commit) =>
      var o := a.commits[0];
      if !commit then output == NullRequest
      else Good(cat.store(o.kind), o.request) && output.Request? && Presents(cat.store(o.kind), o.request, output.out)
  }

  /** The handling of an item, behind its tokens. */
  ghost predicate Succeeds(cat: CatalogTraits, a: Sender, item: Item, h: Handling)
    requires Allowed(cat, a, item)
  {
    h.Handled? && Expected(cat, a, item, h.output) && Linked(cat, Stepped(cat, a, a.caches, item), h.next)
  }

  // ----- Messages that stay where they are -----

  lemma {:induction false} RemovedKeeps(slots: Slots, ps: seq<nat>, p: nat)
    requires forall i :: 0 <= i < |ps| ==> ps[i] < |slots|
    requires CanRemove(slots, ps) && p < |slots| && slots[p].Some? && slots[p].value.locks != 0
    ensures Removed(slots, ps)[p] == slots[p]
    decreases |ps|
  {
    if ps != [] {
      RemovedKeeps(slots[ps[0] := None], ps[1..], p);
    }
  }

  /** A request does not touch a locked message. */
  lemma RequestKeeps(s: Store, slots: Slots, m: Bytes, ps: seq<nat>, d: Decision, take: bool, p: nat)
    requires Good(s, m) && forall i :: 0 <= i < |ps| ==> ps[i] < |slots|
    requires CanRemove(slots, ps) && CanDecide(s, Removed(slots, ps), m, d)
    requires p < |slots| && slots[p].Some? && slots[p].value.locks != 0
    ensures Encoded(s, Removed(slots, ps), m, d, take)[p] == slots[p]
    ensures !d.Discard? ==> d.position != p
  {
    RemovedKeeps(slots, ps, p);
  }

  lemma RequestKeepsLocks(cat: CatalogTraits, a: Sender, item: Item, os: seq<Outgoing>)
    requires item.RequestItem? && Allowed(cat, a, item) && AllLock(cat, a.stores, os)
    ensures AllLock(cat, Stepped(cat, a, a.caches, item).stores, os)
    ensures item.decision.Add? ==> Claim(item.kind, item.decision.position) !in ClaimsOf(os)
  {
    var stores := Stepped(cat, a, a.caches, item).stores;
    forall i | 0 <= i < |os|
      ensures Locks(cat.store(os[i].kind), stores[os[i].kind], os[i])
      ensures item.decision.Add? ==> ClaimOf(os[i]) != Claim(item.kind, item.decision.position)
    {
      assert Locks(cat.store(os[i].kind), a.stores[os[i].kind], os[i]);
      if os[i].decision.Add? && os[i].kind == item.kind {
        RequestKeeps(cat.store(item.kind), a.stores[item.kind], item.m, item.removals, item.decision, item.take,
                     os[i].decision.position);
      }
    }
    if item.decision.Add? {
      NotClaimed(os, Claim(item.kind, item.decision.position));
    }
  }

  lemma {:induction false} NotClaimed(os: seq<Outgoing>, c: Claim)
    requires forall i :: 0 <= i < |os| ==> ClaimOf(os[i]) != c
    ensures c !in ClaimsOf(os)
  {
    if os != [] {
      NotClaimed(os[1..], c);
    }
  }

  // ----- Requests -----

  lemma NewPartners(s: Store, resource: Byte, d: Placed, m: Bytes, out: Bytes, scratch: Bytes)
    requires Good(s, m) && Announces(s, m, out, scratch)
    requires d.Hit? ==> out[s.c.identitySize..] == DataOf(s, m)
    ensures Partners(s, NewOutgoing(s, resource, d, m), NewIncoming(s, resource, d, out))
  {
    var n := s.c.identitySize;
    WritingHead(s, scratch, ArrivedIdentity(s, m), out[n..], DataOf(s, m));
    assert HeadFor(s, m, out[..n], scratch);
  }

  /** A new split that is to complete a message finds it locked. */
  lemma NewLocks(s: Store, slots: Slots, m: Bytes, d: Placed, take: bool, resource: Byte)
    requires Good(s, m) && CanDecide(s, slots, m, d) && Taken(s, d, take)
    ensures Locks(s, Encoded(s, slots, m, d, take), NewOutgoing(s, resource, d, m))
  {
  }

  ghost predicate RequestAllowed(cat: CatalogTraits, a: Sender, item: Item) {
    item.RequestItem? && Allowed(cat, a, item)
  }

  lemma RequestCoherent(cat: CatalogTraits, a: Sender, g: Receiving, item: Item, slots: Slots)
    requires RequestAllowed(cat, a, item) && AllCoherent(cat, a.stores, g.stores)
    requires Coherent(cat.store(item.kind), Stepped(cat, a, a.caches, item).stores[item.kind], slots)
    ensures AllCoherent(cat, Stepped(cat, a, a.caches, item).stores, Replaced(g.stores, item.kind, slots))
  {
  }

  lemma AppendPaired(cat: CatalogTraits, os: seq<Outgoing>, ns: seq<Incoming>, o: Outgoing, n: Incoming)
    requires Paired(cat, os, ns) && Partners(cat.store(o.kind), o, n)
    ensures Paired(cat, os + [o], ns + [n])
  {
  }

  lemma AppendLock(cat: CatalogTraits, stores: Stores, os: seq<Outgoing>, o: Outgoing)
    requires AllLock(cat, stores, os) && Locks(cat.store(o.kind), stores[o.kind], o)
    ensures AllLock(cat, stores, os + [o])
  {
  }

  lemma AppendExclusive(os: seq<Outgoing>, ps: seq<Outgoing>, o: Outgoing)
    requires Exclusive(ClaimsOf(os) + ClaimsOf(ps))
    requires ClaimOf(o).Claim? ==> ClaimOf(o) !in ClaimsOf(os) && ClaimOf(o) !in ClaimsOf(ps)
    ensures Exclusive(ClaimsOf(os + [o]) + ClaimsOf(ps))
  {
    ClaimsAppend(os, [o]);
    ClaimsOne(o);
  }

  /** A request that is not split. */
  lemma PlainLinked(cat: CatalogTraits, a: Sender, g: Receiving, item: Item, slots: Slots, r: Receiver)
    requires Linked(cat, a, g) && RequestAllowed(cat, a, item)
    requires !Taken(cat.store(item.kind), item.decision, item.take)
    requires Coherent(cat.store(item.kind), Stepped(cat, a, a.caches, item).stores[item.kind], slots)
    ensures Linked(cat, Stepped(cat, a, a.caches, item), g.(r := r, stores := Replaced(g.stores, item.kind, slots)))
  {
    RequestCoherent(cat, a, g, item, slots);
    RequestKeepsLocks(cat, a, item, a.pending);
    RequestKeepsLocks(cat, a, item, a.commits);
  }

  /** The locks after a request that is split. */
  lemma SplitLocks(cat: CatalogTraits, a: Sender, item: Item, o: Outgoing)
    requires cat.Proper() && RequestAllowed(cat, a, item) && Taken(cat.store(item.kind), item.decision, item.take)
    requires AllLock(cat, a.stores, a.pending) && AllLock(cat, a.stores, a.commits)
    requires Exclusive(ClaimsOf(a.pending) + ClaimsOf(a.commits))
    requires o == NewOutgoing(cat.store(item.kind), a.resource.value, item.decision, item.m)
    ensures var stores := Stepped(cat, a, a.caches, item).stores;
            AllLock(cat, stores, a.pending + [o]) && AllLock(cat, stores, a.commits)
    ensures Exclusive(ClaimsOf(a.pending + [o]) + ClaimsOf(a.commits))
  {
    RequestKeepsLocks(cat, a, item, a.pending);
    RequestKeepsLocks(cat, a, item, a.commits);
    NewLocks(cat.store(item.kind), Removed(a.stores[item.kind], item.removals), item.m, item.decision, item.take, o.resource);
    AppendLock(cat, Stepped(cat, a, a.caches, item).stores, a.pending, o);
    AppendExclusive(a.pending, a.commits, o);
  }

  /** The splits after a request that is split. */
  lemma SplitPaired(cat: CatalogTraits, a: Sender, g: Receiving, item: Item, out: Bytes, scratch: Bytes, o: Outgoing)
    requires cat.Proper() && RequestAllowed(cat, a, item) && Taken(cat.store(item.kind), item.decision, item.take)
    requires Paired(cat, a.pending, g.pending)
    requires Announces(cat.store(item.kind), item.m, out, scratch)
    requires item.decision.Hit? ==> out[cat.store(item.kind).c.identitySize..] == DataOf(cat.store(item.kind), item.m)
    requires o == NewOutgoing(cat.store(item.kind), a.resource.value, item.decision, item.m)
    ensures Paired(cat, a.pending + [o],
                   g.pending + [NewIncoming(cat.store(item.kind), a.resource.value, item.decision, out)])
  {
    var s := cat.store(item.kind);
    NewPartners(s, a.resource.value, item.decision, item.m, out, scratch);
    AppendPaired(cat, a.pending, g.pending, o, NewIncoming(s, a.resource.value, item.decision, out));
  }

  lemma AfterSplit(cat: CatalogTraits, a: Sender, item: Item, o: Outgoing)
    requires RequestAllowed(cat, a, item) && Taken(cat.store(item.kind), item.decision, item.take)
    requires o == NewOutgoing(cat.store(item.kind), a.resource.value, item.decision, item.m)
    ensures var b := Stepped(cat, a, a.caches, item);
            b.pending == a.pending + [o] && b.commits == a.commits && b.resource == a.resource && b.commit == a.commit
  {
  }

  /** A request that is split. */
  lemma SplitLinked(cat: CatalogTraits, a: Sender, g: Receiving, item: Item, slots: Slots, r: Receiver, out: Bytes, scratch: Bytes)
    requires cat.Proper() && Linked(cat, a, g) && RequestAllowed(cat, a, item)
    requires Taken(cat.store(item.kind), item.decision, item.take)
    requires Coherent(cat.store(item.kind), Stepped(cat, a, a.caches, item).stores[item.kind], slots)
    requires Announces(cat.store(item.kind), item.m, out, scratch)
    requires item.decision.Hit? ==> out[cat.store(item.kind).c.identitySize..] == DataOf(cat.store(item.kind), item.m)
    ensures Linked(cat, Stepped(cat, a, a.caches, item),
                   g.(r := r, stores := Replaced(g.stores, item.kind, slots),
                      pending := g.pending + [NewIncoming(cat.store(item.kind), a.resource.value, item.decision, out)]))
  {
    var o := NewOutgoing(cat.store(item.kind), a.resource.value, item.decision, item.m);
    AfterSplit(cat, a, item, o);
    RequestCoherent(cat, a, g, item, slots);
    SplitLocks(cat, a, item, o);
    SplitPaired(cat, a, g, item, out, scratch, o);
    Enlisted(cat, a, g, Stepped(cat, a, a.caches, item),
             g.(r := r, stores := Replaced(g.stores, item.kind, slots),
                pending := g.pending + [NewIncoming(cat.store(item.kind), a.resource.value, item.decision, out)]));
  }

  /** A split was put at the end of the list on both sides. */
  lemma Enlisted(cat: CatalogTraits, a: Sender, g: Receiving, b: Sender, h: Receiving)
    requires Linked(cat, a, g)
    requires b.commits == a.commits && b.resource == a.resource && b.commit == a.commit
    requires h.commits == g.commits && h.resource == g.resource && h.commit == g.commit
    requires AllCoherent(cat, b.stores, h.stores) && Paired(cat, b.pending, h.pending)
    requires AllLock(cat, b.stores, b.pending) && AllLock(cat, b.stores, b.commits)
    requires Exclusive(ClaimsOf(b.pending) + ClaimsOf(b.commits))
    ensures Linked(cat, b, h)
  {
  }

  /** The splits changed and nothing else. */
  lemma Relisted(cat: CatalogTraits, a: Sender, g: Receiving, b: Sender, h: Receiving)
    requires Linked(cat, a, g)
    requires b.stores == a.stores && b.resource == a.resource && b.commit == a.commit
    requires h.stores == g.stores && h.resource == g.resource && h.commit == g.commit
    requires Paired(cat, b.pending, h.pending) && Paired(cat, b.commits, h.commits) && AllComplete(b.commits, h.commits)
    requires AllLock(cat, b.stores, b.pending) && AllLock(cat, b.stores, b.commits)
    requires Exclusive(ClaimsOf(b.pending) + ClaimsOf(b.commits))
    ensures Linked(cat, b, h)
  {
  }

  function TokensOf(cat: CatalogTraits, a: Sender, item: Item): seq<Token>
    requires RequestAllowed(cat, a, item)
  {
    RequestTokens(cat.store(item.kind), a.stores[item.kind], item.m, item.removals, item.decision, item.take)
  }

  /** What a decoded request leads to. */
  lemma RequestFollowed(cat: CatalogTraits, a: Sender, g: Receiving, item: Item, scratch: Bytes, x: Decoding)
    requires cat.Proper() && Linked(cat, a, g) && RequestAllowed(cat, a, item)
    requires Follows(x, cat.store(item.kind), Removed(a.stores[item.kind], item.removals), item.m,
                     item.decision, item.take, scratch)
    ensures var h := Conclude(cat, g, item.kind, x);
            Succeeds(cat, a, item, h) && h.next.r == x.next
  {
    if Taken(cat.store(item.kind), item.decision, item.take) {
      SplitFollowed(cat, a, g, item, scratch, x);
    } else {
      PlainFollowed(cat, a, g, item, scratch, x);
    }
  }

  lemma SplitFollowed(cat: CatalogTraits, a: Sender, g: Receiving, item: Item, scratch: Bytes, x: Decoding)
    requires cat.Proper() && Linked(cat, a, g) && RequestAllowed(cat, a, item)
    requires Follows(x, cat.store(item.kind), Removed(a.stores[item.kind], item.removals), item.m,
                     item.decision, item.take, scratch)
    requires Taken(cat.store(item.kind), item.decision, item.take)
    ensures var h := Conclude(cat, g, item.kind, x);
            Succeeds(cat, a, item, h) && h.next.r == x.next
  {
    SplitLinked(cat, a, g, item, x.slots, x.next, x.out, scratch);
    ConcludesSplit(cat, g, item.kind, x);
  }

  lemma ConcludesSplit(cat: CatalogTraits, g: Receiving, kind: Kind, x: Decoding)
    requires x.Decoded? && x.taken && g.resource.Some? && |x.out| >= cat.store(kind).c.identitySize
    ensures Conclude(cat, g, kind, x) ==
            Handled(NullRequest, g.(r := x.next, stores := Replaced(g.stores, kind, x.slots),
                                    pending := g.pending + [NewIncoming(cat.store(kind), g.resource.value, x.decision, x.out)]))
  {
  }

  lemma PlainFollowed(cat: CatalogTraits, a: Sender, g: Receiving, item: Item, scratch: Bytes, x: Decoding)
    requires Linked(cat, a, g) && RequestAllowed(cat, a, item)
    requires Follows(x, cat.store(item.kind), Removed(a.stores[item.kind], item.removals), item.m,
                     item.decision, item.take, scratch)
    requires !Taken(cat.store(item.kind), item.decision, item.take)
    ensures var h := Conclude(cat, g, item.kind, x);
            Succeeds(cat, a, item, h) && h.next.r == x.next
  {
    assert Presents(cat.store(item.kind), item.m, x.out) by {
      AnnouncedPresents(cat.store(item.kind), item.m, x.out, scratch);
    }
    PlainLinked(cat, a, g, item, x.slots, x.next);
  }

  lemma RequestHandled(cat: CatalogTraits, a: Sender, g: Receiving, item: Item, scratch: Bytes, r: Receiver, k: Caches)
    requires cat.Proper() && Linked(cat, a, g) && RequestAllowed(cat, a, item)
    requires Before(r, TokensOf(cat, a, item), k)
    ensures var h := HandleRequest(cat, g, item.kind, scratch, r);
            Succeeds(cat, a, item, h) && Behind(h.next.r, r, TokensOf(cat, a, item), k)
  {
    assert Coherent(cat.store(item.kind), a.stores[item.kind], g.stores[item.kind]);
    RequestArrives(r, cat.store(item.kind), a.stores[item.kind], g.stores[item.kind], item.m, item.removals,
                   item.decision, item.take, scratch, k);
    RequestFollowed(cat, a, g, item, scratch, DecodeRequest(cat.store(item.kind), g.stores[item.kind], scratch, r));
  }

  // ----- Sequences of splits -----

  lemma ResourceHandled(cat: CatalogTraits, a: Sender, g: Receiving, item: Item, resource: Byte, r: Receiver, k: Caches)
    requires Linked(cat, a, g) && Allowed(cat, a, item) && (item.StartItem? || item.EndItem?)
    requires resource == if item.StartItem? then item.resource else a.resource.value
    requires Before(r, [Token(CachedChar(Resource), resource)], k)
    ensures var h := HandleResource(g, item.StartItem?, r);
            Succeeds(cat, a, item, h) && Behind(h.next.r, r, [Token(CachedChar(Resource), resource)], k)
  {
    ResourceArrives(r, resource, k);
    ResourceFollowed(cat, a, g, item, Receive(CachedChar(Resource), r));
  }

  lemma ResourceArrives(r: Receiver, resource: Byte, k: Caches)
    requires Before(r, [Token(CachedChar(Resource), resource)], k)
    ensures var x := Receive(CachedChar(Resource), r);
            x.Received? && x.value == resource && Behind(x.next, r, [Token(CachedChar(Resource), resource)], k)
  {
    OneArrives(r, Token(CachedChar(Resource), resource), k);
  }

  lemma ResourceFollowed(cat: CatalogTraits, a: Sender, g: Receiving, item: Item, x: Reception)
    requires Linked(cat, a, g) && Allowed(cat, a, item) && (item.StartItem? || item.EndItem?) && x.Received?
    requires x.value == if item.StartItem? then item.resource else a.resource.value
    ensures var h := Selected(g, item.StartItem?, x);
            Succeeds(cat, a, item, h) && h.next.r == x.next
  {
  }

  // ----- Packets -----

  lemma SameFirst(cat: CatalogTraits, os: seq<Outgoing>, ns: seq<Incoming>, resource: Byte)
    requires Paired(cat, os, ns)
    ensures FirstOf(os, resource) == Find(IncomingResources(ns), resource)
  {
    assert Resources(os) == IncomingResources(ns);
  }

  lemma PacketSame(s: Store, o: Outgoing, limit: int)
    requires Sendable(o)
    ensures var o' := NextOutgoing(s, o, limit);
            o'.kind == o.kind && o'.resource == o.resource && o'.decision == o.decision && o'.request == o.request
  {
  }

  /** The same split after a packet. */
  ghost predicate Continues(o: Outgoing, was: Outgoing) {
    o.kind == was.kind && o.decision == was.decision && o.request == was.request
  }

  lemma UpdatedPaired(cat: CatalogTraits, os: seq<Outgoing>, ns: seq<Incoming>, i: nat, o: Outgoing, n: Incoming)
    requires Paired(cat, os, ns) && i < |os| && Partners(cat.store(o.kind), o, n)
    ensures Paired(cat, os[i := o], ns[i := n])
  {
  }

  lemma ContinuedLock(cat: CatalogTraits, stores: Stores, os: seq<Outgoing>, i: nat, o: Outgoing)
    requires AllLock(cat, stores, os) && i < |os| && Continues(o, os[i])
    ensures Locks(cat.store(o.kind), stores[o.kind], o) && AllLock(cat, stores, os[i := o])
  {
    assert Locks(cat.store(os[i].kind), stores[os[i].kind], os[i]);
  }

  /** A split that is still incomplete. */
  lemma UpdatedLinked(cat: CatalogTraits, a: Sender, g: Receiving, i: nat, o: Outgoing, n: Incoming, r: Receiver)
    requires Linked(cat, a, g) && i < |a.pending| && Continues(o, a.pending[i])
    requires Partners(cat.store(o.kind), o, n)
    ensures Linked(cat, a.(pending := a.pending[i := o]), g.(r := r, pending := g.pending[i := n]))
  {
    ClaimsUpdated(a.pending, i, o);
    ContinuedLock(cat, a.stores, a.pending, i, o);
    UpdatedPaired(cat, a.pending, g.pending, i, o, n);
    Relisted(cat, a, g, a.(pending := a.pending[i := o]), g.(r := r, pending := g.pending[i := n]));
  }

  lemma WithoutEach<T>(xs: seq<T>, i: nat, j: nat)
    requires i < |xs| && j < |xs| - 1
    ensures WithoutAt(xs, i)[j] == xs[if j < i then j else j + 1]
  {
  }

  lemma WithoutPaired(cat: CatalogTraits, os: seq<Outgoing>, ns: seq<Incoming>, i: nat)
    requires Paired(cat, os, ns) && i < |os|
    ensures Paired(cat, WithoutAt(os, i), WithoutAt(ns, i))
  {
    var us, vs := WithoutAt(os, i), WithoutAt(ns, i);
    forall j | 0 <= j < |us| ensures Partners(cat.store(us[j].kind), us[j], vs[j]) {
      WithoutEach(os, i, j);
      WithoutEach(ns, i, j);
    }
  }

  lemma WithoutLock(cat: CatalogTraits, stores: Stores, os: seq<Outgoing>, i: nat)
    requires AllLock(cat, stores, os) && i < |os|
    ensures AllLock(cat, stores, WithoutAt(os, i))
  {
    var us := WithoutAt(os, i);
    forall j | 0 <= j < |us| ensures Locks(cat.store(us[j].kind), stores[us[j].kind], us[j]) {
      WithoutEach(os, i, j);
    }
  }

  lemma AppendComplete(os: seq<Outgoing>, ns: seq<Incoming>, o: Outgoing, n: Incoming)
    requires AllComplete(os, ns) && Complete(o) && AllReceived(n)
    ensures AllComplete(os + [o], ns + [n])
  {
  }

  /** A split moves to the commit store. */
  lemma MovedLinked(cat: CatalogTraits, a: Sender, g: Receiving, i: nat, o: Outgoing, n: Incoming, r: Receiver)
    requires Linked(cat, a, g) && i < |a.pending| && Continues(o, a.pending[i])
    requires Partners(cat.store(o.kind), o, n) && Complete(o) && AllReceived(n)
    ensures Linked(cat, a.(pending := WithoutAt(a.pending, i), commits := a.commits + [o]),
                   g.(r := r, pending := WithoutAt(g.pending, i), commits := g.commits + [n]))
  {
    ContinuedLock(cat, a.stores, a.pending, i, o);
    WithoutPaired(cat, a.pending, g.pending, i);
    WithoutLock(cat, a.stores, a.pending, i);
    AppendPaired(cat, a.commits, g.commits, o, n);
    AppendComplete(a.commits, g.commits, o, n);
    AppendLock(cat, a.stores, a.commits, o);
    MovedExclusive(a.pending, a.commits, i, o);
    Relisted(cat, a, g, a.(pending := WithoutAt(a.pending, i), commits := a.commits + [o]),
             g.(r := r, pending := WithoutAt(g.pending, i), commits := g.commits + [n]));
  }

  lemma MovedExclusive(os: seq<Outgoing>, ps: seq<Outgoing>, i: nat, o: Outgoing)
    requires i < |os| && ClaimOf(o) == ClaimOf(os[i]) && Exclusive(ClaimsOf(os) + ClaimsOf(ps))
    ensures Exclusive(ClaimsOf(WithoutAt(os, i)) + ClaimsOf(ps + [o]))
  {
    ClaimsWithout(os, i);
    ClaimsAppend(ps, [o]);
    ClaimsOne(o);
  }

  /** What a packet leads to. */
  lemma PacketFiled(cat: CatalogTraits, a: Sender, g: Receiving, i: nat, o: Outgoing, x: SplitReading)
    requires Linked(cat, a, g) && i < |a.pending| && Continues(o, a.pending[i])
    requires x.SplitRead? && Partners(cat.store(o.kind), o, x.split) && (Complete(o) <==> AllReceived(x.split))
    ensures i < |g.pending| && var h := Filed(g, i, x);
            h.Handled? && h.output == Nothing && h.next.r == x.next &&
            Linked(cat, Advanced(a, i, o), h.next)
  {
    if AllReceived(x.split) {
      MovedLinked(cat, a, g, i, o, x.split, x.next);
    } else {
      UpdatedLinked(cat, a, g, i, o, x.split, x.next);
    }
  }

  lemma PacketFollowed(cat: CatalogTraits, a: Sender, g: Receiving, item: Item, x: SplitReading)
    requires Linked(cat, a, g) && item.DataItem? && Allowed(cat, a, item)
    requires var i := FirstOf(a.pending, item.resource);
             var o := NextOutgoing(cat.store(a.pending[i].kind), a.pending[i], item.limit);
             x.SplitRead? && Partners(cat.store(a.pending[i].kind), o, x.split) && (Complete(o) <==> AllReceived(x.split))
    ensures var i := FirstOf(a.pending, item.resource);
            i < |g.pending| && var h := Filed(g, i, x);
            Succeeds(cat, a, item, h) && h.next.r == x.next
  {
    var i := FirstOf(a.pending, item.resource);
    var s := cat.store(a.pending[i].kind);
    var o := NextOutgoing(s, a.pending[i], item.limit);
    assert Continues(o, a.pending[i]) by {
      PacketSame(s, a.pending[i], item.limit);
    }
    PacketFiled(cat, a, g, i, o, x);
    AfterPacket(cat, a, item);
  }

  lemma AfterPacket(cat: CatalogTraits, a: Sender, item: Item)
    requires item.DataItem? && Allowed(cat, a, item)
    ensures var i := FirstOf(a.pending, item.resource);
            Stepped(cat, a, a.caches, item) == Advanced(a, i, NextOutgoing(cat.store(a.pending[i].kind), a.pending[i], item.limit))
  {
  }

  /** The item is a packet of a split that has no data. */
  ghost predicate ItemOverruns(cat: CatalogTraits, a: Sender, item: Item)
    requires Allowed(cat, a, item)
  {
    item.DataItem? && Overruns(a.pending[FirstOf(a.pending, item.resource)])
  }

  lemma PacketHandled(cat: CatalogTraits, a: Sender, g: Receiving, item: Item, r: Receiver, k: Caches)
    requires Linked(cat, a, g) && item.DataItem? && Allowed(cat, a, item)
    requires Before(r, PacketTokensOf(cat, a, item), k)
    ensures var i := FirstOf(a.pending, item.resource);
            i < |g.pending| && var h := HandlePacket(cat, g, i, r);
            if ItemOverruns(cat, a, item) then h.Overran?
            else Succeeds(cat, a, item, h) && Behind(h.next.r, r, PacketTokensOf(cat, a, item), k)
  {
    var i := FirstOf(a.pending, item.resource);
    var o, n := a.pending[i], g.pending[i];
    assert Partners(cat.store(o.kind), o, n);
    SplitArrives(r, cat.store(o.kind), o, n, item.limit, k);
    if !ItemOverruns(cat, a, item) {
      PacketFollowed(cat, a, g, item, NextIncoming(cat.store(o.kind), n, r));
    }
  }

  function PacketTokensOf(cat: CatalogTraits, a: Sender, item: Item): seq<Token>
    requires item.DataItem? && Allowed(cat, a, item)
  {
    var o := a.pending[FirstOf(a.pending, item.resource)];
    SplitTokens(cat.store(o.kind), o, item.limit)
  }

  lemma DataHandled(cat: CatalogTraits, a: Sender, g: Receiving, item: Item, r: Receiver, k: Caches)
    requires Linked(cat, a, g) && item.DataItem? && Allowed(cat, a, item)
    requires Before(r, [Token(CachedChar(Resource), item.resource)] + PacketTokensOf(cat, a, item), k)
    ensures var h := HandleData(cat, g, r);
            if ItemOverruns(cat, a, item) then h.Overran?
            else
              Succeeds(cat, a, item, h) &&
              Behind(h.next.r, r, [Token(CachedChar(Resource), item.resource)] + PacketTokensOf(cat, a, item), k)
  {
    var first, rest := [Token(CachedChar(Resource), item.resource)], PacketTokensOf(cat, a, item);
    BeforeSplit(r, first, rest, k);
    ResourceArrives(r, item.resource, k);
    var r' := Receive(CachedChar(Resource), r).next;
    SameFirst(cat, a.pending, g.pending, item.resource);
    PacketHandled(cat, a, g, item, r', AfterAll(first, k));
    DataIsPacket(cat, g, Receive(CachedChar(Resource), r), item.resource, FirstOf(a.pending, item.resource));
    if !ItemOverruns(cat, a, item) {
      BehindBoth(HandleData(cat, g, r).next.r, r', r, first, rest, k);
    }
  }

  lemma DataIsPacket(cat: CatalogTraits, g: Receiving, x: Reception, resource: Byte, i: nat)
    requires x.Received? && x.value == resource && Find(IncomingResources(g.pending), resource) == i < |g.pending|
    ensures HandleSplit(cat, g, x) == HandlePacket(cat, g, i, x.next)
  {
  }

  // ----- Commits -----

  /** What is recomposed of a complete split is the request it was made for. */
  lemma ExpandedPresents(s: Store, o: Outgoing, i: Incoming)
    requires Partners(s, o, i) && Complete(o) && AllReceived(i)
    ensures Expanded(s, i).Some? && Presents(s, o.request, Expanded(s, i).value)
  {
    var m := o.request;
    var scratch :| HeadFor(s, m, i.head, scratch);
    ExpandedIs(s, o, i, scratch);
    OwnData(s, m);
    AnnouncedPresents(s, m, Expanded(s, i).value, scratch);
  }

  lemma ExpandedIs(s: Store, o: Outgoing, i: Incoming, scratch: Bytes)
    requires Partners(s, o, i) && Complete(o) && AllReceived(i) && HeadFor(s, o.request, i.head, scratch)
    ensures Expanded(s, i) == Some(Writing(s, scratch, ArrivedIdentity(s, o.request), DataOf(s, o.request)))
  {
    var d := DataOf(s, o.request);
    assert Writing(s, scratch, ArrivedIdentity(s, o.request), d) == i.head + d;
    CompleteData(s, o, i);
  }

  lemma CompleteData(s: Store, o: Outgoing, i: Incoming)
    requires Partners(s, o, i) && Complete(o) && AllReceived(i)
    ensures if i.compressedSize == 0 then i.data == DataOf(s, o.request)
            else s.compressor.decompress(i.data, i.plainSize) == Some(DataOf(s, o.request)) &&
                 !o.loaded && i.compressedSize == |i.data|
  {
    if !o.loaded {
      assert i.data[..i.next] == i.data && o.data[..o.next] == o.data;
    }
  }

  /** The message that a split completes, on both sides. */
  lemma UnlockedRepresents(s: Store, m: Bytes, e: Content, h: Content, o: Outgoing, i: Incoming)
    requires Good(s, m) && Represents(s, m, e, h) && e.locks == 1 && 12 <= s.c.identitySize
    requires Partners(s, o, i) && !o.loaded && Complete(o) && AllReceived(i)
    requires DataOf(s, m) == DataOf(s, o.request)
    ensures Represents(s, m, UnlockedOutgoing(s, e, o), UnlockedIncoming(s, h, i))
  {
    CompleteData(s, o, i);
  }

  /** The message that a split completes is coherent again and can be hit. */
  lemma UnlockedCoherent(s: Store, a: Slots, b: Slots, o: Outgoing, i: Incoming)
    requires Coherent(s, a, b) && Locks(s, a, o) && Partners(s, o, i) && Complete(o) && AllReceived(i)
    ensures Coherent(s, Unlocking(s, a, o), Recomposed(s, b, i))
  {
    if o.decision.Add? {
      var p := o.decision.position;
      var e, h := a[p].value, b[p].value;
      assert Matches(s, e, h);
      UnlockedMatches(s, e, h, o, i);
      CoherentStored(s, a, b, p, UnlockedOutgoing(s, e, o), UnlockedIncoming(s, h, i));
    }
  }

  lemma UnlockedMatches(s: Store, e: Content, h: Content, o: Outgoing, i: Incoming)
    requires Matches(s, e, h) && Good(s, o.request) && e.checksum == Some(ChecksumOf(s, o.request)) && e.locks == 1
    requires Partners(s, o, i) && !o.loaded && Complete(o) && AllReceived(i)
    ensures Matches(s, UnlockedOutgoing(s, e, o), UnlockedIncoming(s, h, i))
  {
    var m :| Good(s, m) && Represents(s, m, e, h);
    assert DataOf(s, m) == DataOf(s, o.request) by {
      HitFollows(s, m, o.request);
    }
    assert 12 <= s.c.identitySize by {
      StoreFacts(s);
    }
    UnlockedRepresents(s, m, e, h, o, i);
  }

  lemma UnlockKeepsLocks(cat: CatalogTraits, stores: Stores, o: Outgoing, os: seq<Outgoing>)
    requires AllLock(cat, stores, os) && (ClaimOf(o).Claim? ==> ClaimOf(o) !in ClaimsOf(os))
    ensures AllLock(cat, Replaced(stores, o.kind, Unlocking(cat.store(o.kind), stores[o.kind], o)), os)
  {
    var stores' := Replaced(stores, o.kind, Unlocking(cat.store(o.kind), stores[o.kind], o));
    forall i | 0 <= i < |os| ensures Locks(cat.store(os[i].kind), stores'[os[i].kind], os[i]) {
      assert Locks(cat.store(os[i].kind), stores[os[i].kind], os[i]);
      ClaimsMember(os, i);
    }
  }

  lemma FirstClaim(os: seq<Outgoing>, ps: seq<Outgoing>)
    requires ps != [] && Exclusive(ClaimsOf(os) + ClaimsOf(ps))
    ensures var c := ClaimOf(ps[0]);
            (c.Claim? ==> c !in ClaimsOf(os) && c !in ClaimsOf(ps[1..])) && Exclusive(ClaimsOf(os) + ClaimsOf(ps[1..]))
  {
    var c := ClaimOf(ps[0]);
    assert ClaimsOf(ps)[c] == 1 + ClaimsOf(ps[1..])[c];
    assert (ClaimsOf(os) + ClaimsOf(ps))[c] == ClaimsOf(os)[c] + ClaimsOf(ps)[c];
    forall x: Claim | x.Claim? ensures (ClaimsOf(os) + ClaimsOf(ps[1..]))[x] <= 1 {
      assert (ClaimsOf(os) + ClaimsOf(ps))[x] <= 1;
    }
  }

  /** The stores after a commit. */
  lemma CommittedStores(cat: CatalogTraits, a: Sender, g: Receiving)
    requires Linked(cat, a, g) && a.commits != []
    ensures var o, i := a.commits[0], g.commits[0];
            AllCoherent(cat, Replaced(a.stores, o.kind, Unlocking(cat.store(o.kind), a.stores[o.kind], o)),
                        Replaced(g.stores, o.kind, Recomposed(cat.store(o.kind), g.stores[o.kind], i)))
  {
    var o, i := a.commits[0], g.commits[0];
    var s := cat.store(o.kind);
    assert Partners(s, o, i) && Locks(s, a.stores[o.kind], o);
    assert Coherent(s, a.stores[o.kind], g.stores[o.kind]);
    UnlockedCoherent(s, a.stores[o.kind], g.stores[o.kind], o, i);
  }

  /** The locks after a commit. */
  lemma CommittedLocks(cat: CatalogTraits, a: Sender, g: Receiving)
    requires Linked(cat, a, g) && a.commits != []
    ensures var o := a.commits[0];
            var stores := Replaced(a.stores, o.kind, Unlocking(cat.store(o.kind), a.stores[o.kind], o));
            AllLock(cat, stores, a.pending) && AllLock(cat, stores, a.commits[1..])
    ensures Exclusive(ClaimsOf(a.pending) + ClaimsOf(a.commits[1..]))
  {
    var o := a.commits[0];
    FirstClaim(a.pending, a.commits);
    UnlockKeepsLocks(cat, a.stores, o, a.pending);
    UnlockKeepsLocks(cat, a.stores, o, a.commits[1..]);
  }

  lemma CommittedLinked(cat: CatalogTraits, a: Sender, g: Receiving, b: Sender, h: Receiving)
    requires Linked(cat, a, g) && a.commits != []
    requires b.commits == a.commits[1..] && h.commits == g.commits[1..] && b.commit == h.commit
    requires b.pending == a.pending && h.pending == g.pending && b.resource == a.resource && h.resource == g.resource
    requires AllCoherent(cat, b.stores, h.stores)
    requires AllLock(cat, b.stores, b.pending) && AllLock(cat, b.stores, b.commits)
    requires Exclusive(ClaimsOf(b.pending) + ClaimsOf(b.commits))
    ensures Linked(cat, b, h)
  {
    RestPaired(cat, a.commits, g.commits);
  }

  lemma RestPaired(cat: CatalogTraits, os: seq<Outgoing>, ns: seq<Incoming>)
    requires Paired(cat, os, ns) && AllComplete(os, ns) && os != []
    ensures Paired(cat, os[1..], ns[1..]) && AllComplete(os[1..], ns[1..])
  {
  }

  /** What a commit leads to, whatever the request was answered with. */
  lemma CommitFollowed(cat: CatalogTraits, a: Sender, g: Receiving, item: Item, r: Receiver, flag: Word)
    requires Linked(cat, a, g) && item.CommitItem? && Allowed(cat, a, item)
    requires flag == if item.commit then 1 else 0
    ensures g.commits != [] && Succeeds(cat, a, item, Committed(cat, g, PositionOf(a.commits[0].decision), flag, r))
  {
    var o, i := a.commits[0], g.commits[0];
    assert Partners(cat.store(o.kind), o, i);
    ExpandedPresents(cat.store(o.kind), o, i);
    CommittedStores(cat, a, g);
    CommittedLocks(cat, a, g);
    CommittedLinked(cat, a, g, Stepped(cat, a, a.caches, item),
                    Committed(cat, g, PositionOf(o.decision), flag, r).next);
  }

  lemma CommitHandled(cat: CatalogTraits, a: Sender, g: Receiving, item: Item, r: Receiver, k: Caches)
    requires Linked(cat, a, g) && item.CommitItem? && Allowed(cat, a, item)
    requires Before(r, CommitTokensOf(cat, a, item), k)
    ensures var h := HandleCommit(cat, g, r);
            Succeeds(cat, a, item, h) && Behind(h.next.r, r, CommitTokensOf(cat, a, item), k)
  {
    var o := a.commits[0];
    var diff := Minus(PositionOf(o.decision), a.commit);
    CommitArrives(r, o, diff, item.commit, k);
    CommitChecked(cat, a, g, item, ReceiveAll(COMMIT_CODES, r));
  }

  /** What is read of a commit. */
  predicate CommitRead(x: Receptions, o: Outgoing, diff: Word, commit: bool) {
    && x.ReceivedAll? && |x.values| == |COMMIT_CODES|
    && x.values[0] == OpcodeOf(o.kind) && x.values[1] == diff && x.values[2] == o.resource
    && x.values[3] == if commit then 1 else 0
  }

  lemma CommitChecked(cat: CatalogTraits, a: Sender, g: Receiving, item: Item, x: Receptions)
    requires Linked(cat, a, g) && item.CommitItem? && Allowed(cat, a, item)
    requires CommitRead(x, a.commits[0], Minus(PositionOf(a.commits[0].decision), a.commit), item.commit)
    ensures var h := Checked(cat, g, x);
            Succeeds(cat, a, item, h) && h.next.r == x.next
  {
    CommitRecognised(cat, a, g, x);
    CommitConcluded(cat, a, g, item, x.next, x.values[3], Checked(cat, g, x));
  }

  lemma CommitConcluded(cat: CatalogTraits, a: Sender, g: Receiving, item: Item, r: Receiver, flag: Word, h: Handling)
    requires Linked(cat, a, g) && item.CommitItem? && Allowed(cat, a, item) && g.commits != []
    requires flag == (if item.commit then 1 else 0) && h == Committed(cat, g, PositionOf(a.commits[0].decision), flag, r)
    ensures Succeeds(cat, a, item, h) && h.next.r == r
  {
    CommitFollowed(cat, a, g, item, r, flag);
  }

  /** The commit is for the split that the decoding side holds first. */
  lemma CommitRecognised(cat: CatalogTraits, a: Sender, g: Receiving, x: Receptions)
    requires Linked(cat, a, g) && a.commits != []
    requires var o := a.commits[0];
             x.ReceivedAll? && |x.values| == |COMMIT_CODES| && x.values[0] == OpcodeOf(o.kind) && x.values[2] == o.resource &&
             x.values[1] == Minus(PositionOf(o.decision), a.commit)
    ensures g.commits != [] && Checked(cat, g, x) == Committed(cat, g, PositionOf(a.commits[0].decision), x.values[3], x.next)
  {
    var o := a.commits[0];
    assert Partners(cat.store(o.kind), o, g.commits[0]);
    PlusMinus(a.commit, PositionOf(o.decision));
    CheckPasses(cat, g, PositionOf(o.decision), x);
  }

  lemma CheckPasses(cat: CatalogTraits, g: Receiving, position: Word, x: Receptions)
    requires x.ReceivedAll? && |x.values| == |COMMIT_CODES| && g.commits != []
    requires x.values[0] == OpcodeOf(g.commits[0].kind) && x.values[2] == g.commits[0].resource
    requires Plus(g.commit, x.values[1]) == position == PositionOf(g.commits[0].decision)
    ensures Checked(cat, g, x) == Committed(cat, g, position, x.values[3], x.next)
  {
  }

  function CommitTokensOf(cat: CatalogTraits, a: Sender, item: Item): seq<Token>
    requires item.CommitItem? && Allowed(cat, a, item)
  {
    CommitTokens(a.commits[0], Minus(PositionOf(a.commits[0].decision), a.commit), item.commit)
  }

  lemma CommitArrives(r: Receiver, o: Outgoing, diff: Word, commit: bool, k: Caches)
    requires Before(r, CommitTokens(o, diff, commit), k)
    ensures var x := ReceiveAll(COMMIT_CODES, r);
            CommitRead(x, o, diff, commit) && Behind(x.next, r, CommitTokens(o, diff, commit), k)
  {
    ZipArrives(r, COMMIT_CODES,
               [OpcodeOf(o.kind), diff, o.resource, if commit then 1 else 0], k);
    CommitWhole(OpcodeOf(o.kind), diff, o.resource, if commit then 1 else 0);
  }

  lemma CommitWhole(opcode: Byte, diff: Word, resource: Byte, flag: Word)
    requires flag < 2
    ensures DeliverAll(COMMIT_CODES, [opcode, diff, resource, flag]) ==
            [opcode, diff, resource, flag]
  {
    Pow2Constants();
  }
}
