/** The chained hash table of ntopng/GenericHash.cpp: its value, its rotating idle sweep and
    the linked, in-place implementation. */
module HashTable {

  /** How many calls of purgeIdle it nominally takes to go round the table. */
  const PURGE_FRACTION: nat := 32

  /** The value of a table: the items of every chain, head first, and the last bucket swept. */
  datatype Table<T> = Table(buckets: seq<seq<T>>, lastPurged: nat)

  predicate WellFormed<T>(t: Table<T>) {
    t.lastPurged < |t.buckets|
  }

  /** Number of entries. */
  function Size<T>(bs: seq<seq<T>>): nat {
    if bs == [] then 0 else Size(bs[..|bs| - 1]) + |bs[|bs| - 1]|
  }

  lemma {:induction false} SizeUpdate<T>(bs: seq<seq<T>>, b: nat, c: seq<T>)
    requires b < |bs|
    ensures Size(bs[b := c]) == Size(bs) - |bs[b]| + |c|
  {
    var n := |bs| - 1;
    if b == n {
      assert bs[b := c][..n] == bs[..n];
    } else {
      SizeUpdate(bs[..n], b, c);
      assert bs[b := c][..n] == bs[..n][b := c];
    }
  }

  lemma {:induction false} SizeAtLeast<T>(bs: seq<seq<T>>, b: nat)
    requires b < |bs|
    ensures |bs[b]| <= Size(bs)
  {
    if b < |bs| - 1 {
      SizeAtLeast(bs[..|bs| - 1], b);
    }
  }

  lemma {:induction false} SizeZero<T>(bs: seq<seq<T>>)
    requires forall b :: 0 <= b < |bs| ==> bs[b] == []
    ensures Size(bs) == 0
  {
    if bs != [] {
      SizeZero(bs[..|bs| - 1]);
    }
  }

  function Insert<T>(t: Table<T>, b: nat, x: T): Table<T>
    requires b < |t.buckets|
  {
    t.(buckets := t.buckets[b := [x] + t.buckets[b]])
  }

  // ----- filtering one chain -----

  /** The entries of a chain that survive a sweep, in order. */
  function Keep<T>(s: seq<T>, idle: T -> bool): seq<T> {
    if s == [] then [] else (if idle(s[0]) then [] else [s[0]]) + Keep(s[1..], idle)
  }

  /** The entries of a chain that a sweep deletes, in order. */
  function Drop<T>(s: seq<T>, idle: T -> bool): seq<T> {
    if s == [] then [] else (if idle(s[0]) then [s[0]] else []) + Drop(s[1..], idle)
  }

  ghost predicate NoDup<T(!new)>(s: seq<T>) {
    forall i, j :: 0 <= i < j < |s| ==> s[i] != s[j]
  }

  lemma {:induction false} KeepSnoc<T>(s: seq<T>, x: T, idle: T -> bool)
    ensures Keep(s + [x], idle) == Keep(s, idle) + (if idle(x) then [] else [x])
    ensures Drop(s + [x], idle) == Drop(s, idle) + (if idle(x) then [x] else [])
  {
    if s != [] {
      assert (s + [x])[1..] == s[1..] + [x];
      KeepSnoc(s[1..], x, idle);
    }
  }

  lemma {:induction false} KeepMembers<T>(s: seq<T>, idle: T -> bool)
    ensures forall x :: x in Keep(s, idle) <==> x in s && !idle(x)
    ensures forall x :: x in Drop(s, idle) <==> x in s && idle(x)
    ensures |Keep(s, idle)| + |Drop(s, idle)| == |s|
  {
    if s != [] {
      KeepMembers(s[1..], idle);
      assert s == [s[0]] + s[1..];
    }
  }

  lemma {:induction false} KeepNoDup<T(!new)>(s: seq<T>, idle: T -> bool)
    requires NoDup(s)
    ensures NoDup(Keep(s, idle)) && NoDup(Drop(s, idle))
  {
    if s != [] {
      assert forall i, j :: 0 <= i < j < |s[1..]| ==> s[1..][i] == s[i + 1] && s[1..][j] == s[j + 1];
      KeepNoDup(s[1..], idle);
      KeepMembers(s[1..], idle);
      assert s[0] !in s[1..];
    }
  }

  // ----- the rotating sweep -----

  function Next(i: nat, n: nat): nat {
    if i + 1 == n then 0 else i + 1
  }

  function SweepOne<T>(t: Table<T>, idle: T -> bool): Table<T>
    requires WellFormed(t)
  {
    var i := Next(t.lastPurged, |t.buckets|);
    Table(t.buckets[i := Keep(t.buckets[i], idle)], i)
  }

  function SweepN<T>(t: Table<T>, idle: T -> bool, k: nat): (r: Table<T>)
    requires WellFormed(t)
    ensures WellFormed(r) && |r.buckets| == |t.buckets|
  {
    if k == 0 then t else SweepOne(SweepN(t, idle, k - 1), idle)
  }

  function SweptN<T>(t: Table<T>, idle: T -> bool, k: nat): seq<T>
    requires WellFormed(t)
  {
    if k == 0 then [] else
    var m := SweepN(t, idle, k - 1);
    SweptN(t, idle, k - 1) + Drop(m.buckets[Next(m.lastPurged, |m.buckets|)], idle)
  }

  lemma SweepStart<T>(t: Table<T>, idle: T -> bool)
    requires WellFormed(t)
    ensures SweepN(t, idle, 0) == t && SweptN(t, idle, 0) == []
  {
  }

  lemma SweepSucc<T>(t: Table<T>, idle: T -> bool, k: nat, m: Table<T>)
    requires WellFormed(t) && m == SweepN(t, idle, k)
    ensures SweepN(t, idle, k + 1) == SweepOne(m, idle)
    ensures SweptN(t, idle, k + 1) == SweptN(t, idle, k) + Drop(m.buckets[Next(m.lastPurged, |m.buckets|)], idle)
  {
  }

  /** One call of purgeIdle visits this many buckets. */
  function Quota(n: nat): nat {
    n / PURGE_FRACTION
  }

  function Sweep<T>(t: Table<T>, idle: T -> bool): Table<T>
    requires WellFormed(t)
  {
    SweepN(t, idle, Quota(|t.buckets|))
  }

  function Swept<T>(t: Table<T>, idle: T -> bool): seq<T>
    requires WellFormed(t)
  {
    SweptN(t, idle, Quota(|t.buckets|))
  }

  /** How many buckets the sweep passes before it comes to bucket b. */
  function Distance(last: nat, n: nat, b: nat): int {
    if b > last then b - last - 1 else b + n - 1 - last
  }

  /** The k buckets after the last one swept are filtered; every other bucket is as it was. */
  lemma {:induction false} SweepFilters<T>(t: Table<T>, idle: T -> bool, k: nat)
    requires WellFormed(t) && k <= |t.buckets|
    ensures var r, n := SweepN(t, idle, k), |t.buckets|;
      && r.lastPurged == (if t.lastPurged + k < n then t.lastPurged + k else t.lastPurged + k - n)
      && forall b :: 0 <= b < n ==>
        r.buckets[b] == if Distance(t.lastPurged, n, b) < k then Keep(t.buckets[b], idle) else t.buckets[b]
  {
    if k > 0 {
      SweepFilters(t, idle, k - 1);
    }
  }

  ghost predicate Visited<T>(t: Table<T>, k: nat, x: T)
    requires WellFormed(t)
  {
    exists b :: 0 <= b < |t.buckets| && Distance(t.lastPurged, |t.buckets|, b) < k && x in t.buckets[b]
  }

  /** Exactly the idle entries of the visited buckets are returned as deleted. */
  lemma {:induction false} SweptMembers<T>(t: Table<T>, idle: T -> bool, k: nat)
    requires WellFormed(t) && k <= |t.buckets|
    ensures forall x :: x in SweptN(t, idle, k) <==> idle(x) && Visited(t, k, x)
  {
    if k > 0 {
      hide Keep, Drop, SweepN, Visited;
      var n := |t.buckets|;
      SweptMembers(t, idle, k - 1);
      var m := SweepN(t, idle, k - 1);
      var i := Next(m.lastPurged, n);
      var a, d := SweptN(t, idle, k - 1), Drop(t.buckets[i], idle);
      assert m.buckets[i] == t.buckets[i] && Distance(t.lastPurged, n, i) == k - 1 by {
        SweepFilters(t, idle, k - 1);
      }
      assert SweptN(t, idle, k) == a + d;
      assert forall x :: x in d <==> x in t.buckets[i] && idle(x) by {
        KeepMembers(t.buckets[i], idle);
      }
      VisitedNext(t, k - 1, i);
      hide SweptN;
      assert forall x :: x in a + d <==> x in a || x in d;
    }
  }

  lemma VisitedNext<T>(t: Table<T>, k: nat, i: nat)
    requires WellFormed(t) && i < |t.buckets| && Distance(t.lastPurged, |t.buckets|, i) == k
    ensures forall x :: Visited(t, k + 1, x) <==> Visited(t, k, x) || x in t.buckets[i]
  {
    forall x | Visited(t, k + 1, x) && !Visited(t, k, x) ensures x in t.buckets[i] {
      var b :| 0 <= b < |t.buckets| && Distance(t.lastPurged, |t.buckets|, b) < k + 1 && x in t.buckets[b];
      assert b == i;
    }
  }

  /** The table shrinks by exactly the number of entries returned as deleted. */
  lemma {:induction false} SweepCount<T>(t: Table<T>, idle: T -> bool, k: nat)
    requires WellFormed(t)
    ensures Size(SweepN(t, idle, k).buckets) + |SweptN(t, idle, k)| == Size(t.buckets)
  {
    if k > 0 {
      SweepCount(t, idle, k - 1);
      var m := SweepN(t, idle, k - 1);
      var i := Next(m.lastPurged, |m.buckets|);
      KeepMembers(m.buckets[i], idle);
      SizeUpdate(m.buckets, i, Keep(m.buckets[i], idle));
    }
  }

  lemma NoDupConcat<T(!new)>(a: seq<T>, d: seq<T>)
    requires NoDup(a) && NoDup(d) && forall x :: x in a ==> x !in d
    ensures NoDup(a + d)
  {
    forall i, j | 0 <= i < j < |a + d| ensures (a + d)[i] != (a + d)[j] {
      if i < |a| <= j {
        assert (a + d)[i] in a && (a + d)[j] in d;
      }
    }
  }

  ghost predicate Separate<T(!new)>(bs: seq<seq<T>>) {
    && (forall b :: 0 <= b < |bs| ==> NoDup(bs[b]))
    && forall b, c, x :: 0 <= b < |bs| && 0 <= c < |bs| && x in bs[b] && x in bs[c] ==> b == c
  }

  /** Nothing is deleted twice when no chain holds an entry twice and chains share none. */
  lemma {:induction false} SweptNoDup<T(!new)>(t: Table<T>, idle: T -> bool, k: nat)
    requires WellFormed(t) && k <= |t.buckets| && Separate(t.buckets)
    ensures NoDup(SweptN(t, idle, k))
  {
    hide Keep, Drop, NoDup;
    if k > 0 {
      var n := |t.buckets|;
      SweptNoDup(t, idle, k - 1);
      var m := SweepN(t, idle, k - 1);
      var i := Next(m.lastPurged, n);
      var a, d := SweptN(t, idle, k - 1), Drop(t.buckets[i], idle);
      assert m.buckets[i] == t.buckets[i] && Distance(t.lastPurged, n, i) == k - 1 by {
        SweepFilters(t, idle, k - 1);
      }
      KeepNoDup(t.buckets[i], idle);
      assert forall x :: x in a ==> x !in d by {
        SweptMembers(t, idle, k - 1);
        KeepMembers(t.buckets[i], idle);
      }
      NoDupConcat(a, d);
    } else {
      EmptyNoDup<T>();
    }
  }

  lemma EmptyNoDup<T(!new)>()
    ensures NoDup<T>([])
  {
  }

  // ----- fairness over runs of table operations -----

  datatype Op<!T> = Add(b: nat, x: T) | Purge(idle: T -> bool)

  function Apply<T>(t: Table<T>, op: Op<T>): (r: Table<T>)
    requires WellFormed(t)
    ensures WellFormed(r) && |r.buckets| == |t.buckets|
  {
    match op
    case Add(b, x) => if b < |t.buckets| then Insert(t, b, x) else t
    case Purge(idle) => Sweep(t, idle)
  }

  function RunOps<T>(t: Table<T>, ops: seq<Op<T>>): (r: Table<T>)
    requires WellFormed(t)
    ensures WellFormed(r) && |r.buckets| == |t.buckets|
    decreases |ops|
  {
    if ops == [] then t else RunOps(Apply(t, ops[0]), ops[1..])
  }

  function Purges<T>(ops: seq<Op<T>>): nat {
    if ops == [] then 0 else (if ops[0].Purge? then 1 else 0) + Purges(ops[1..])
  }

  /** Along the run x is idle whenever a sweep looks at it, and nobody inserts it again. */
  ghost predicate IdleThroughout<T>(ops: seq<Op<T>>, x: T) {
    forall i :: 0 <= i < |ops| ==>
      match ops[i] case Add(_, y) => y != x case Purge(idle) => idle(x)
  }

  /** One sweep removes an idle entry if its quota reaches the entry's bucket, and otherwise
      comes nearer to it by the quota. */
  lemma SweepApproach<T>(t: Table<T>, idle: T -> bool, x: T, b: nat)
    requires WellFormed(t) && b < |t.buckets| && idle(x)
    ensures var n, q, u := |t.buckets|, Quota(|t.buckets|), Sweep(t, idle);
      var d := Distance(t.lastPurged, n, b);
      && (x in u.buckets[b] <==> x in t.buckets[b] && q <= d)
      && (q <= d ==> Distance(u.lastPurged, n, b) == d - q)
  {
    SweepFilters(t, idle, Quota(|t.buckets|));
    KeepMembers(t.buckets[b], idle);
  }

  /** An idle entry stays in its bucket for exactly as long as the sweeps have not come to it. */
  lemma {:induction false} SweepReach<T>(t: Table<T>, ops: seq<Op<T>>, x: T, b: nat)
    requires WellFormed(t) && b < |t.buckets| && IdleThroughout(ops, x)
    ensures x in RunOps(t, ops).buckets[b] <==>
      x in t.buckets[b] && Purges(ops) * Quota(|t.buckets|) <= Distance(t.lastPurged, |t.buckets|, b)
    decreases |ops|
  {
    if ops != [] {
      var q := Quota(|t.buckets|);
      var u := Apply(t, ops[0]);
      assert IdleThroughout(ops[1..], x) by {
        assert forall i :: 0 <= i < |ops[1..]| ==> ops[1..][i] == ops[i + 1];
      }
      SweepReach(u, ops[1..], x, b);
      if ops[0].Purge? {
        assert ops[0].idle(x);
        SweepApproach(t, ops[0].idle, x, b);
        assert Purges(ops) * q == Purges(ops[1..]) * q + q;
        assert Purges(ops[1..]) * q >= 0;
      } else {
        assert x in u.buckets[b] <==> x in t.buckets[b];
        assert Purges(ops) == Purges(ops[1..]);
      }
    }
  }

  /** k sweeps are enough for every bucket of a table of n buckets if and only if k times the
      quota covers the table: one bucket short, and some idle entry is still there. */
  lemma FairnessExact<T>(n: nat, k: nat, x: T)
    requires n > 0
    ensures n <= k * Quota(n) <==>
      forall t: Table<T>, ops: seq<Op<T>>, b: nat ::
        WellFormed(t) && |t.buckets| == n && b < n && IdleThroughout(ops, x) && Purges(ops) == k
        ==> x !in RunOps(t, ops).buckets[b]
  {
    if n <= k * Quota(n) {
      forall t: Table<T>, ops: seq<Op<T>>, b: nat
        | WellFormed(t) && |t.buckets| == n && b < n && IdleThroughout(ops, x) && Purges(ops) == k
        ensures x !in RunOps(t, ops).buckets[b]
      {
        SweepReach(t, ops, x, b);
      }
    } else {
      var t := Table(seq(n, i => [x]), n - 1);
      var ops := seq(k, i => Purge((y: T) => true));
      CountPurges(ops);
      SweepReach(t, ops, x, n - 1);
    }
  }

  lemma {:induction false} CountPurges<T>(ops: seq<Op<T>>)
    requires forall i :: 0 <= i < |ops| ==> ops[i].Purge?
    ensures Purges(ops) == |ops|
  {
    if ops != [] {
      CountPurges(ops[1..]);
    }
  }

  /** The bound in calls: 33 for the sizes the interface uses, 63 for any table of at least 32
      buckets; a smaller table is never swept at all. */
  lemma SweepBounds(n: nat)
    ensures n >= 992 ==> n <= 33 * Quota(n)
    ensures n >= 32 ==> n <= 63 * Quota(n)
    ensures n < 32 ==> Quota(n) == 0
    ensures 63 > 62 * Quota(63)
  {
    assert n == 32 * Quota(n) + n % 32;
  }

  // ----- emptying -----

  function Flatten<T>(bs: seq<seq<T>>): seq<T> {
    if bs == [] then [] else Flatten(bs[..|bs| - 1]) + bs[|bs| - 1]
  }

  function Emptied<T>(t: Table<T>): Table<T> {
    t.(buckets := seq(|t.buckets|, b => []))
  }

  lemma {:induction false} FlattenMembers<T>(bs: seq<seq<T>>)
    ensures |Flatten(bs)| == Size(bs)
    ensures forall x :: x in Flatten(bs) <==> exists b :: 0 <= b < |bs| && x in bs[b]
  {
    if bs != [] {
      FlattenMembers(bs[..|bs| - 1]);
    }
  }

  lemma {:induction false} FlattenNoDup<T(!new)>(bs: seq<seq<T>>)
    requires Separate(bs)
    ensures NoDup(Flatten(bs))
  {
    if bs != [] {
      var n := |bs| - 1;
      FlattenNoDup(bs[..n]);
      FlattenMembers(bs[..n]);
      NoDupConcat(Flatten(bs[..n]), bs[n]);
    }
  }

  // ----- lookups along a chain -----

  /** The first entry of a chain that a lookup accepts. */
  datatype Found<+T> = NotFound | Found(item: T)

  function FirstMatch<T>(s: seq<T>, accept: T -> bool): (r: Found<T>)
    ensures r.NotFound? ==> forall x :: x in s ==> !accept(x)
    ensures r.Found? ==>
      exists i :: 0 <= i < |s| && s[i] == r.item && accept(s[i]) && forall j :: 0 <= j < i ==> !accept(s[j])
  {
    if s == [] then NotFound
    else if accept(s[0]) then Found(s[0])
    else
      var r := FirstMatch(s[1..], accept);
      assert r.Found? ==> forall i :: 0 <= i < |s[1..]| ==> s[1..][i] == s[i + 1];
      r
  }

  /** Of entries that a lookup accepts, it finds the one that was added last. */
  lemma NewestFirst<T>(t: Table<T>, b: nat, x: T, accept: T -> bool)
    requires b < |t.buckets|
    ensures var c := Insert(t, b, x).buckets[b];
      FirstMatch(c, accept) == if accept(x) then Found(x) else FirstMatch(t.buckets[b], accept)
  {
    assert ([x] + t.buckets[b])[1..] == t.buckets[b];
  }

  // ----- the linked table -----

  /** GenericHashEntry: an intrusive link. The derived object is `item`; its key() never changes. */
  class GenericHashEntry<T> {
    const item: T
    const key: nat
    var next: GenericHashEntry?<T>

    constructor (item: T, key: nat)
      ensures this.item == item && this.key == key && next == null
    {
      this.item, this.key, next := item, key, null;
    }
  }

  /** head is a null-terminated list of exactly the entries c, none of them twice. */
  ghost predicate IsChain<T>(head: GenericHashEntry?<T>, c: seq<GenericHashEntry<T>>)
    reads set i | 0 <= i < |c| :: c[i]
  {
    && head == (if c == [] then null else c[0])
    && (forall i {:trigger c[i].next} :: 0 <= i < |c| ==> c[i].next == (if i + 1 < |c| then c[i + 1] else null))
    && (forall i, j :: 0 <= i < j < |c| ==> c[i] != c[j])
  }

  ghost function Items<T>(c: seq<GenericHashEntry<T>>): seq<T> {
    seq(|c|, i requires 0 <= i < |c| => c[i].item)
  }

  ghost function BucketsOf<T>(chains: seq<seq<GenericHashEntry<T>>>): seq<seq<T>> {
    seq(|chains|, b requires 0 <= b < |chains| => Items(chains[b]))
  }

  lemma BucketsUpdate<T>(chains: seq<seq<GenericHashEntry<T>>>, b: nat, c: seq<GenericHashEntry<T>>)
    requires b < |chains|
    ensures BucketsOf(chains[b := c]) == BucketsOf(chains)[b := Items(c)]
    ensures Size(BucketsOf(chains[b := c])) == Size(BucketsOf(chains)) - |chains[b]| + |c|
  {
    assert BucketsOf(chains[b := c]) == BucketsOf(chains)[b := Items(c)];
    SizeUpdate(BucketsOf(chains), b, Items(c));
  }

  /** GenericHash: buckets of linked entries with a capacity and a sweep position. */
  class GenericHash<T> {
    const numHashes: nat
    const maxHashSize: nat
    const table: array<GenericHashEntry?<T>>
    var currentSize: nat
    var lastPurgedHash: nat
    ghost var chains: seq<seq<GenericHashEntry<T>>>
    ghost var nodes: set<GenericHashEntry<T>>  // every entry in the chains, and perhaps more

    ghost function View(): Table<T>
      reads this
    {
      Table(BucketsOf(chains), lastPurgedHash)
    }

    ghost predicate Valid()
      reads this, table, nodes
    {
      && numHashes == table.Length == |chains|
      && lastPurgedHash < numHashes
      && (forall b, i :: 0 <= b < numHashes && 0 <= i < |chains[b]| ==>
         chains[b][i] in nodes && chains[b][i].key % numHashes == b)
      && (forall b :: 0 <= b < numHashes ==> IsChain(table[b], chains[b]))
      && currentSize == Size(View().buckets) <= maxHashSize
    }

    constructor (numHashes: nat, maxHashSize: nat)
      requires numHashes > 0
      ensures Valid() && fresh(table)
      ensures this.numHashes == numHashes && this.maxHashSize == maxHashSize
      ensures View() == Table(seq(numHashes, b => []), numHashes - 1) && nodes == {}
    {
      this.numHashes, this.maxHashSize, currentSize := numHashes, maxHashSize, 0;
      table := new GenericHashEntry?<T>[numHashes](i => null);
      lastPurgedHash := numHashes - 1;
      chains, nodes := seq(numHashes, b => []), {};
      new;
      assert BucketsOf(chains) == seq(this.numHashes, b => []);
      SizeZero(BucketsOf(chains));
    }

    /** Chains share no entries: an entry's key says which bucket it is in. */
    lemma ChainsDisjoint(a: nat, b: nat)
      requires Valid() && a < numHashes && b < numHashes && a != b
      ensures forall i :: 0 <= i < |chains[a]| ==> chains[a][i] !in chains[b]
    {
    }

    /** Inserts at the head of bucket key mod n, unless the table is full. */
    method Add(h: GenericHashEntry<T>) returns (ok: bool)
      requires Valid() && h !in nodes
      modifies this`currentSize, this`chains, this`nodes, table, h
      ensures Valid() && nodes == old(nodes) + (if ok then {h} else {})
      ensures ok <==> old(currentSize) < maxHashSize
      ensures View() == if ok then Insert(old(View()), h.key % numHashes, h.item) else old(View())
    {
      if currentSize >= maxHashSize {
        return false;
      }
      var hash := h.key % numHashes;
      ghost var c := chains[hash];
      forall a | 0 <= a < numHashes && a != hash
        ensures forall k :: 0 <= k < |chains[a]| ==> chains[a][k] !in chains[hash]
      {
        ChainsDisjoint(a, hash);
      }
      h.next := table[hash];
      nodes := nodes + {h};
      table[hash], currentSize := h, currentSize + 1;
      assert Items([h] + c) == [h.item] + Items(c);
      forall a | 0 <= a < numHashes && a != hash ensures IsChain(table[a], chains[a]) {
        assert old(IsChain(table[a], chains[a]));
      }
      ReplaceChain(hash, [h] + c);
      return true;
    }

    /** Records that bucket b is now the chain c; the other buckets' links were not touched. */
    ghost method ReplaceChain(b: nat, c: seq<GenericHashEntry<T>>)
      requires numHashes == table.Length == |chains| && b < numHashes && lastPurgedHash < numHashes
      requires IsChain(table[b], c) && forall i :: 0 <= i < |c| ==> c[i] in nodes && c[i].key % numHashes == b
      requires forall a :: 0 <= a < numHashes && a != b ==> IsChain(table[a], chains[a])
      requires forall a, i :: 0 <= a < numHashes && a != b && 0 <= i < |chains[a]| ==>
        chains[a][i] in nodes && chains[a][i].key % numHashes == a
      requires currentSize == Size(View().buckets) + |c| - |chains[b]| <= maxHashSize
      modifies this`chains
      ensures Valid() && chains == old(chains)[b := c]
      ensures View() == old(View()).(buckets := old(View()).buckets[b := Items(c)])
    {
      BucketsUpdate(chains, b, c);
      chains := chains[b := c];
    }

    /** Unlinks the entry h itself from its chain. */
    method Remove(h: GenericHashEntry<T>) returns (ok: bool)
      requires Valid()
      modifies this`currentSize, this`chains, table, chains[h.key % numHashes]
      ensures Valid() && lastPurgedHash == old(lastPurgedHash)
      ensures ok <==> h in old(chains)[h.key % numHashes]
      ensures var b, was := h.key % numHashes, old(chains);
        if ok then exists i :: 0 <= i < |was[b]| && was[b][i] == h && chains == was[b := Without(was[b], i)]
        else chains == was
    {
      hide Size, Keep, Drop;
      var hash := h.key % numHashes;
      ghost var c := chains[hash];
      forall a | 0 <= a < numHashes && a != hash
        ensures forall k :: 0 <= k < |chains[a]| ==> chains[a][k] !in chains[hash]
      {
        ChainsDisjoint(a, hash);
      }
      var head;
      ghost var i;
      ok, head, i := UnlinkFromList(table[hash], c, h);
      if ok {
        assert 1 <= |c| <= currentSize by {
          SizeAtLeast(View().buckets, hash);
        }
        table[hash], currentSize := head, currentSize - 1;
        forall a | 0 <= a < numHashes && a != hash ensures IsChain(table[a], chains[a]) {
          assert old(IsChain(table[a], chains[a]));
        }
        ReplaceChain(hash, Without(c, i));
      }
    }

    /** The part of a sweep that visits one bucket. */
    method PurgeBucket(i: nat, idle: T -> bool) returns (removed: seq<T>)
      requires Valid() && i < numHashes
      modifies this`currentSize, this`chains, table, chains[i]
      ensures Valid()
      ensures View() == old(View()).(buckets := old(View()).buckets[i := Keep(old(View()).buckets[i], idle)])
      ensures removed == Drop(old(View()).buckets[i], idle)
    {
      ghost var c := chains[i];
      forall a | 0 <= a < numHashes && a != i
        ensures forall k :: 0 <= k < |chains[a]| ==> chains[a][k] !in chains[i]
      {
        ChainsDisjoint(a, i);
      }
      var head;
      ghost var kept;
      head, kept, removed := PurgeList(table[i], c, idle);
      assert |removed| + |kept| == |c| <= currentSize by {
        KeepMembers(Items(c), idle);
        SizeAtLeast(View().buckets, i);
      }
      table[i] := head;
      currentSize := currentSize - |removed|;
      forall a | 0 <= a < numHashes && a != i ensures IsChain(table[a], chains[a]) {
        assert old(IsChain(table[a], chains[a]));
      }
      ReplaceChain(i, kept);
    }

    /** Visits the next n/32 buckets, wrapping at the end, and unlinks their idle entries; the
        entries are returned in the order in which their destructors run. */
    method PurgeIdle(idle: T -> bool) returns (removed: seq<T>)
      requires Valid()
      modifies this`currentSize, this`chains, this`lastPurgedHash, table, nodes
      ensures Valid()
      ensures View() == Sweep(old(View()), idle) && removed == Swept(old(View()), idle)
    {
      hide SweepN, SweptN, SweepOne, Keep, Drop, Size, IsChain;
      ghost var was := View();
      SweepStart(was, idle);
      removed := [];
      for j := 0 to numHashes / PURGE_FRACTION
        invariant Valid() && View() == SweepN(was, idle, j) && removed == SweptN(was, idle, j)
      {
        SweepSucc(was, idle, j, View());
        var r := PurgeNext(idle);
        removed := removed + r;
      }
    }

    /** One round of the outer loop of purgeIdle: the position moves on, wrapping, and its bucket is purged. */
    method PurgeNext(idle: T -> bool) returns (removed: seq<T>)
      requires Valid()
      modifies this`currentSize, this`chains, this`lastPurgedHash, table, nodes
      ensures Valid() && View() == SweepOne(old(View()), idle)
      ensures removed == Drop(old(View()).buckets[Next(old(lastPurgedHash), numHashes)], idle)
    {
      lastPurgedHash := lastPurgedHash + 1;
      if lastPurgedHash == numHashes {
        lastPurgedHash := 0;
      }
      removed := PurgeBucket(lastPurgedHash, idle);
    }

    /** Empties every bucket, first to last; the entries are returned in the order of deletion. */
    method Cleanup() returns (removed: seq<T>)
      requires Valid()
      modifies this`currentSize, this`chains, table
      ensures Valid() && currentSize == 0
      ensures View() == Emptied(old(View())) && removed == Flatten(old(View()).buckets)
    {
      ghost var was := View().buckets;
      removed := [];
      for i := 0 to numHashes
        invariant chains == old(chains)
        invariant forall b :: 0 <= b < i ==> table[b] == null
        invariant forall b :: i <= b < numHashes ==> table[b] == old(table[b])
        invariant removed == Flatten(was[..i])
      {
        hide IsChain;
        assert IsChain(table[i], chains[i]);
        var items := ItemsOfList(table[i], chains[i]);
        removed := removed + items;
        table[i] := null;
        assert was[..i + 1][..i] == was[..i];
      }
      assert was[..numHashes] == was;
      currentSize := 0;
      chains := seq(numHashes, b => []);
      assert BucketsOf(chains) == seq(numHashes, b => []);
      SizeZero(BucketsOf(chains));
    }

    /** walk: every entry in turn, bucket by bucket and head first. */
    method Walk() returns (items: seq<T>)
      requires Valid()
      ensures items == Flatten(View().buckets)
    {
      ghost var bs := View().buckets;
      items := [];
      for i := 0 to numHashes
        invariant items == Flatten(bs[..i])
      {
        hide IsChain;
        assert IsChain(table[i], chains[i]);
        var chain := ItemsOfList(table[i], chains[i]);
        items := items + chain;
        assert bs[..i + 1][..i] == bs[..i];
      }
      assert bs[..numHashes] == bs;
    }

    /** The walk along one bucket that all lookups share: the first entry accepted, head first. */
    method Find(hash: nat, accept: T -> bool) returns (r: Found<T>)
      requires Valid() && hash < numHashes
      ensures r == FirstMatch(View().buckets[hash], accept)
    {
      ghost var c, done: nat := chains[hash], 0;
      assert IsChain(table[hash], c);
      var head := table[hash];
      while head != null
        invariant done <= |c| && head == if done < |c| then c[done] else null
        invariant FirstMatch(Items(c), accept) == FirstMatch(Items(c)[done..], accept)
        decreases |c| - done
      {
        assert Items(c)[done..] == [head.item] + Items(c)[done + 1..];
        if accept(head.item) {
          return Found(head.item);
        }
        head, done := head.next, done + 1;
      }
      return NotFound;
    }
  }

  /** The loop of remove: looks for the entry h itself and links its neighbours. */
  method UnlinkFromList<T>(first: GenericHashEntry?<T>, ghost c: seq<GenericHashEntry<T>>, h: GenericHashEntry<T>)
    returns (ok: bool, newFirst: GenericHashEntry?<T>, ghost i: nat)
    requires IsChain(first, c)
    modifies c
    ensures ok <==> h in c
    ensures ok ==> i < |c| && c[i] == h && IsChain(newFirst, Without(c, i))
    ensures !ok ==> newFirst == first && IsChain(first, c)
    ensures !ok ==> forall k :: 0 <= k < |c| ==> c[k].next == old(c[k].next)
  {
    var head, prev: GenericHashEntry?<T> := first, null;
    newFirst, i := first, 0;
    while head != null && head != h
      invariant 0 <= i <= |c|
      invariant head == if i < |c| then c[i] else null
      invariant prev == if i > 0 then c[i - 1] else null
      invariant forall k :: 0 <= k < i ==> c[k] != h
      decreases |c| - i
    {
      prev, head, i := head, head.next, i + 1;
    }
    ok := head != null;
    if ok {
      if prev != null {
        prev.next := head.next;
      } else {
        newFirst := head.next;
      }
    }
  }

  /** The inner loop of cleanup: walks one chain to its end. */
  method ItemsOfList<T>(first: GenericHashEntry?<T>, ghost c: seq<GenericHashEntry<T>>) returns (items: seq<T>)
    requires IsChain(first, c)
    ensures items == Items(c)
  {
    var head := first;
    ghost var done: nat := 0;
    items := [];
    while head != null
      invariant done <= |c| && head == if done < |c| then c[done] else null
      invariant items == Items(c[..done])
      decreases |c| - done
    {
      assert c[..done + 1] == c[..done] + [c[done]];
      ItemsSnoc(c[..done], head);
      items := items + [head.item];
      head, done := head.next, done + 1;
    }
    assert c[..done] == c;
  }

  lemma ItemsSnoc<T>(c: seq<GenericHashEntry<T>>, h: GenericHashEntry<T>)
    ensures Items(c + [h]) == Items(c) + [h.item]
  {
  }

  lemma KeepNext<T>(c: seq<GenericHashEntry<T>>, i: nat, idle: T -> bool)
    requires i < |c|
    ensures Keep(Items(c[..i + 1]), idle) == Keep(Items(c[..i]), idle) + (if idle(c[i].item) then [] else [c[i].item])
    ensures Drop(Items(c[..i + 1]), idle) == Drop(Items(c[..i]), idle) + (if idle(c[i].item) then [c[i].item] else [])
  {
    assert Items(c[..i + 1]) == Items(c[..i]) + [c[i].item];
    KeepSnoc(Items(c[..i]), c[i].item, idle);
  }

  /** The inner loop of purgeIdle: walks one chain with a pointer to the last survivor and
      unlinks idle entries in place. */
  method PurgeList<T>(first: GenericHashEntry?<T>, ghost c: seq<GenericHashEntry<T>>, idle: T -> bool)
    returns (newFirst: GenericHashEntry?<T>, ghost kept: seq<GenericHashEntry<T>>, removed: seq<T>)
    requires IsChain(first, c)
    modifies c
    ensures IsChain(newFirst, kept) && forall i :: 0 <= i < |kept| ==> kept[i] in c
    ensures Items(kept) == Keep(Items(c), idle)
    ensures removed == Drop(Items(c), idle)
  {
    ghost var done: nat := 0;
    var head, prev: GenericHashEntry?<T> := first, null;
    newFirst, kept, removed := first, [], [];
    while head != null
      invariant 0 <= done <= |c|
      invariant head == if done < |c| then c[done] else null
      invariant prev == if kept == [] then null else kept[|kept| - 1]
      invariant newFirst == if kept == [] then head else kept[0]
      invariant forall i {:trigger kept[i].next} :: 0 <= i < |kept| ==>
        kept[i].next == if i + 1 < |kept| then kept[i + 1] else head
      invariant forall i {:trigger c[i].next} :: done <= i < |c| ==> c[i].next == if i + 1 < |c| then c[i + 1] else null
      invariant forall i, j :: 0 <= i < j < |kept| ==> kept[i] != kept[j]
      invariant forall i, j :: 0 <= i < j < |c| ==> c[i] != c[j]
      invariant forall i :: 0 <= i < |kept| ==> kept[i] in c[..done]
      invariant Items(kept) == Keep(Items(c[..done]), idle)
      invariant removed == Drop(Items(c[..done]), idle)
      decreases |c| - done
    {
      hide Keep, Drop, Items, IsChain;
      var next := head.next;
      KeepNext(c, done, idle);
      if idle(head.item) {
        if prev == null {
          newFirst := next;
        } else {
          prev.next := next;
        }
        removed := removed + [head.item];
      } else {
        ItemsSnoc(kept, head);
        kept, prev := kept + [head], head;
      }
      head, done := next, done + 1;
    }
    assert c[..done] == c;
  }

  function Without<T>(s: seq<T>, i: nat): seq<T>
    requires i < |s|
  {
    s[..i] + s[i + 1..]
  }

}
