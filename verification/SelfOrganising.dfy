/**
 The replacement policy shared by CharCache, IntCache and BlockCacheSet: a hit moves an entry
 to half its index, a miss inserts a new entry behind a protected front and drops the last
 one of a full cache.
 */
module SelfOrganising {
  import opened Words

  /** Where a miss inserts: IntCache and CharCache keep two entries in front, BlockCacheSet
      inserts in the middle. */
  datatype Policy = BehindTwo | Middle

  function InsertionPoint(policy: Policy, length: nat): (at: nat)
    ensures at <= length && (length > 1 ==> at < length || policy == BehindTwo)
  {
    match policy
    case BehindTwo => if 2 >= length then length else 2
    case Middle => length / 2
  }

  /** A cache of `cap` entries can work with the policy. */
  predicate Roomy(policy: Policy, cap: nat) {
    match policy
    case BehindTwo => 3 <= cap
    case Middle => 1 <= cap
  }

  /** The entries after a hit at index i. */
  function Promote<T>(s: seq<T>, i: nat): (r: seq<T>)
    requires i < |s|
    ensures |r| == |s| && r[i / 2] == s[i]
  {
    s[..i / 2] + [s[i]] + s[i / 2..i] + s[i + 1..]
  }

  /** The entries after inserting v at index `at` of a cache of `cap` entries. */
  function InsertAt<T>(s: seq<T>, v: T, cap: nat, at: nat): (r: seq<T>)
    requires at <= |s| <= cap && at < cap
    ensures |r| == if |s| == cap then cap else |s| + 1
    ensures r[at] == v
  {
    s[..at] + [v] + if |s| == cap then s[at..cap - 1] else s[at..]
  }

  /** What is at each index after an insertion. */
  lemma InsertAtIs<T>(s: seq<T>, v: T, cap: nat, at: nat, j: nat)
    requires at <= |s| <= cap && at < cap && j < |InsertAt(s, v, cap, at)|
    ensures InsertAt(s, v, cap, at)[j] == if j < at then s[j] else if j == at then v else s[j - 1]
  {
  }

  /** The entries after a miss. */
  function Miss<T>(s: seq<T>, v: T, cap: nat, policy: Policy): (r: seq<T>)
    requires |s| <= cap && Roomy(policy, cap)
    ensures |s| <= |r| <= cap
  {
    InsertAt(s, v, cap, InsertionPoint(policy, |s|))
  }

  /** The first index of v, or the length of s. */
  function Find<T(==)>(s: seq<T>, v: T): (i: nat)
    ensures i <= |s| && (i < |s| ==> s[i] == v)
    ensures forall j :: 0 <= j < i ==> s[j] != v
    ensures i == |s| <==> v !in s
  {
    if s == [] || s[0] == v then 0 else 1 + Find(s[1..], v)
  }

  lemma FindIs<T>(s: seq<T>, v: T, i: nat)
    requires i < |s| && s[i] == v && v !in s[..i]
    ensures Find(s, v) == i
  {
    assert forall j :: 0 <= j < i ==> s[..i][j] == s[j];
  }

  ghost predicate Distinct<T>(s: seq<T>) {
    forall i, j :: 0 <= i < j < |s| ==> s[i] != s[j]
  }

  /** A hit only rearranges the entries. */
  lemma PromotePermutes<T>(s: seq<T>, i: nat)
    requires i < |s|
    ensures multiset(Promote(s, i)) == multiset(s)
  {
    assert s == s[..i / 2] + s[i / 2..i] + [s[i]] + s[i + 1..];
  }

  /** What is at each index after a hit. */
  lemma PromoteAt<T>(s: seq<T>, i: nat, j: nat)
    requires i < |s| && j < |s|
    ensures Promote(s, i)[j] == if j == i / 2 then s[i] else if i / 2 < j <= i then s[j - 1] else s[j]
  {
  }

  lemma PromoteDistinct<T>(s: seq<T>, i: nat)
    requires i < |s| && Distinct(s)
    ensures Distinct(Promote(s, i))
  {
    var r := Promote(s, i);
    forall a, b | 0 <= a < b < |r| ensures r[a] != r[b] {
      PromoteAt(s, i, a);
      PromoteAt(s, i, b);
    }
  }

  lemma MissDistinct<T>(s: seq<T>, v: T, cap: nat, policy: Policy)
    requires |s| <= cap && Roomy(policy, cap) && Distinct(s) && v !in s
    ensures Distinct(Miss(s, v, cap, policy))
  {
    var at := InsertionPoint(policy, |s|);
    var r := Miss(s, v, cap, policy);
    forall a, b | 0 <= a < b < |r| ensures r[a] != r[b] {
      assert r[a] == if a < at then s[a] else if a == at then v else s[a - 1];
      assert r[b] == if b < at then s[b] else if b == at then v else s[b - 1];
    }
  }

  // ----- The two sides in lock step -----

  /** What the encoding side tells the decoding side about one value. */
  datatype Event<T> = Hit(index: nat) | Missed(value: T)

  /** One lookup by the encoding side: what it sends and its entries afterwards. */
  function Lookup<T(==)>(s: seq<T>, v: T, cap: nat, policy: Policy): (r: (Event<T>, seq<T>))
    requires |s| <= cap && Roomy(policy, cap)
    ensures |r.1| <= cap
  {
    var i := Find(s, v);
    if i < |s| then (Hit(i), Promote(s, i)) else (Missed(v), Miss(s, v, cap, policy))
  }

  /** The decoding side: the value it finds and its entries afterwards. */
  function Replay<T>(s: seq<T>, e: Event<T>, cap: nat, policy: Policy): (r: Option<(T, seq<T>)>)
    requires |s| <= cap && Roomy(policy, cap)
    ensures r.Some? ==> |r.value.1| <= cap
  {
    match e
    case Hit(i) => if i < |s| then Some((s[i], Promote(s, i))) else None
    case Missed(v) => Some((v, Miss(s, v, cap, policy)))
  }

  /** The encoding side over a run of values. */
  function LookupAll<T(==)>(s: seq<T>, vs: seq<T>, cap: nat, policy: Policy): (r: (seq<Event<T>>, seq<T>))
    requires |s| <= cap && Roomy(policy, cap)
    ensures |r.0| == |vs| && |r.1| <= cap
    decreases |vs|
  {
    if vs == [] then ([], s)
    else
      var (e, s') := Lookup(s, vs[0], cap, policy);
      var (es, end) := LookupAll(s', vs[1..], cap, policy);
      ([e] + es, end)
  }

  /** The decoding side over a run of events. */
  function ReplayAll<T>(s: seq<T>, es: seq<Event<T>>, cap: nat, policy: Policy): (r: Option<(seq<T>, seq<T>)>)
    requires |s| <= cap && Roomy(policy, cap)
    decreases |es|
  {
    if es == [] then Some(([], s))
    else match Replay(s, es[0], cap, policy)
      case None => None
      case Some((v, s')) =>
        match ReplayAll(s', es[1..], cap, policy)
        case None => None
        case Some((vs, end)) => Some(([v] + vs, end))
  }

  /** One value: the decoding side finds it and ends with the same entries. */
  lemma LockStepOne<T>(s: seq<T>, v: T, cap: nat, policy: Policy)
    requires |s| <= cap && Roomy(policy, cap) && Distinct(s)
    ensures var (e, s') := Lookup(s, v, cap, policy);
            Replay(s, e, cap, policy) == Some((v, s')) && Distinct(s')
  {
    var i := Find(s, v);
    if i < |s| {
      PromoteDistinct(s, i);
    } else {
      MissDistinct(s, v, cap, policy);
    }
  }

  lemma ReplayFirst<T>(s: seq<T>, e: Event<T>, es: seq<Event<T>>, v: T, s': seq<T>, vs: seq<T>, end: seq<T>, cap: nat, policy: Policy)
    requires |s| <= cap && |s'| <= cap && Roomy(policy, cap)
    requires Replay(s, e, cap, policy) == Some((v, s')) && ReplayAll(s', es, cap, policy) == Some((vs, end))
    ensures ReplayAll(s, [e] + es, cap, policy) == Some(([v] + vs, end))
  {
    assert ([e] + es)[1..] == es;
  }

  /** Over every run of values both sides end with the same entries in the same order, the
      decoding side recovers every value, and no two entries are ever equal. */
  lemma {:induction false} LockStep<T>(s: seq<T>, vs: seq<T>, cap: nat, policy: Policy)
    requires |s| <= cap && Roomy(policy, cap) && Distinct(s)
    ensures var (es, end) := LookupAll(s, vs, cap, policy);
            ReplayAll(s, es, cap, policy) == Some((vs, end)) && Distinct(end) && |end| <= cap
    decreases |vs|
  {
    if vs != [] {
      var (e, s') := Lookup(s, vs[0], cap, policy);
      LockStepOne(s, vs[0], cap, policy);
      LockStep(s', vs[1..], cap, policy);
      var (es, end) := LookupAll(s', vs[1..], cap, policy);
      ReplayFirst(s, e, es, vs[0], s', vs[1..], end, cap, policy);
      assert vs == [vs[0]] + vs[1..];
    }
  }

  // ----- How entries move -----

  /** The entries after a run of misses. */
  function MissAll<T>(s: seq<T>, vs: seq<T>, cap: nat, policy: Policy): (r: seq<T>)
    requires |s| <= cap && Roomy(policy, cap)
    ensures |s| <= |r| <= cap
    decreases |vs|
  {
    if vs == [] then s else MissAll(Miss(s, vs[0], cap, policy), vs[1..], cap, policy)
  }

  /** No run of misses moves or drops one of the first two entries, or one in the first half. */
  lemma {:induction false} FrontProtected<T>(s: seq<T>, vs: seq<T>, cap: nat, policy: Policy)
    requires |s| <= cap && Roomy(policy, cap)
    ensures forall j :: 0 <= j < |s| && (if policy.BehindTwo? then j < 2 else j < |s| / 2) ==>
      MissAll(s, vs, cap, policy)[j] == s[j]
    decreases |vs|
  {
    if vs != [] {
      var s' := Miss(s, vs[0], cap, policy);
      FrontProtected(s', vs[1..], cap, policy);
      forall j | 0 <= j < |s| && (if policy.BehindTwo? then j < 2 else j < |s| / 2)
        ensures MissAll(s, vs, cap, policy)[j] == s[j]
      {
        InsertAtIs(s, vs[0], cap, InsertionPoint(policy, |s|), j);
      }
    }
  }

  /** What a miss leaves: the new value stands behind two entries, or in the middle, those behind it
      have moved up by one, and the last one of a full cache is gone. */
  lemma MissLeaves<T>(s: seq<T>, v: T, cap: nat, policy: Policy, j: nat)
    requires |s| <= cap && Roomy(policy, cap) && j < |Miss(s, v, cap, policy)|
    ensures |Miss(s, v, cap, policy)| == if |s| < cap then |s| + 1 else cap
    ensures policy.BehindTwo? ==>
      Miss(s, v, cap, policy)[j] ==
      if j < 2 && j < |s| then s[j] else if j == 2 || j == |s| < 2 then v else s[j - 1]
    ensures policy.Middle? ==>
      Miss(s, v, cap, policy)[j] == if j < |s| / 2 then s[j] else if j == |s| / 2 then v else s[j - 1]
  {
    InsertAtIs(s, v, cap, InsertionPoint(policy, |s|), j);
  }

  /** The same for the slices in front of the new value and behind it, of a cache with its middle at n. */
  lemma MiddleLeaves<T>(s: seq<T>, v: T, cap: nat, r: seq<T>, n: nat)
    requires |s| <= cap && 1 <= cap && r == Miss(s, v, cap, Middle) && n == |s| / 2
    ensures |r| == (if |s| < cap then |s| + 1 else cap) && r[..n] == s[..n] && r[n] == v && r[n + 1..] == s[n..|r| - 1]
  {
  }

  /** The bound of FrontProtected is exact: a first miss displaces the third entry, or the first one
      of the second half. */
  lemma FrontExact<T>(s: seq<T>, v: T, cap: nat, policy: Policy)
    requires |s| <= cap && Roomy(policy, cap) && v !in s
    ensures policy.BehindTwo? && |s| > 2 ==> Miss(s, v, cap, policy)[2] == v != s[2]
    ensures policy.Middle? && |s| > 0 ==> Miss(s, v, cap, policy)[|s| / 2] == v != s[|s| / 2]
  {
    if |s| > 2 {
      MissLeaves(s, v, cap, policy, if policy.BehindTwo? then 2 else |s| / 2);
    }
  }

  /** The entries after n hits in a row on the entry that starts at index i. */
  function HitAll<T>(s: seq<T>, i: nat, n: nat): (r: seq<T>)
    requires i < |s|
    ensures |r| == |s|
    decreases n
  {
    if n == 0 then s else HitAll(Promote(s, i), i / 2, n - 1)
  }

  function HalvedIndex(i: nat, n: nat): nat
    decreases n
  {
    if n == 0 then i else HalvedIndex(i / 2, n - 1)
  }

  /** The number of hits an entry at index i needs to come to the front:
      0 for the front itself, otherwise the integer part of log2(i), plus one. */
  function HitsToFront(i: nat): (n: nat)
    ensures i < Pow2(n) && (i > 0 ==> n > 0 && Pow2(n - 1) <= i)
  {
    if i == 0 then 0 else 1 + HitsToFront(i / 2)
  }

  lemma {:induction false} HitMoves<T>(s: seq<T>, i: nat, n: nat)
    requires i < |s|
    ensures HalvedIndex(i, n) <= i && HitAll(s, i, n)[HalvedIndex(i, n)] == s[i]
    decreases n
  {
    if n > 0 {
      PromoteAt(s, i, i / 2);
      HitMoves(Promote(s, i), i / 2, n - 1);
    }
  }

  lemma {:induction false} HalvedToZero(i: nat, n: nat)
    ensures HalvedIndex(i, n) == 0 <==> HitsToFront(i) <= n
    decreases n
  {
    if n > 0 {
      HalvedToZero(i / 2, n - 1);
    }
  }

  /** Hit n times with nothing in between, an entry at index i stands at the front exactly
      when n has reached HitsToFront(i). */
  lemma HitsReachFront<T>(s: seq<T>, i: nat, n: nat)
    requires i < |s| && Distinct(s)
    ensures HitAll(s, i, n)[0] == s[i] <==> HitsToFront(i) <= n
  {
    HitMoves(s, i, n);
    HalvedToZero(i, n);
    HitAllDistinct(s, i, n);
  }

  lemma {:induction false} HitAllDistinct<T>(s: seq<T>, i: nat, n: nat)
    requires i < |s| && Distinct(s)
    ensures Distinct(HitAll(s, i, n))
    decreases n
  {
    if n > 0 {
      PromoteDistinct(s, i);
      HitAllDistinct(Promote(s, i), i / 2, n - 1);
    }
  }
}
