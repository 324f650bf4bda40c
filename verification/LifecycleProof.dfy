/** What every step of an interface keeps: no dangling host pointer, exact use counts, sound
    tables and, while the clock does not go back, at most one live entry per flow and per host. */
module LifecycleProof {
  import opened Addresses
  import opened HashTable
  import opened Memory
  import opened Lifecycle

  // ----- the invariant -----

  ghost predicate FlowTable(c: Config, m: Mem, tab: Table<Ptr>) {
    var n := |tab.buckets|;
    && n == c.flowBuckets > 0
    && (forall p :: p in m.flows ==> p in tab.buckets[FlowKey(m.hosts, m.flows[p]) % n])
    && (forall b, p :: 0 <= b < n && p in tab.buckets[b] ==> p in m.flows && FlowKey(m.hosts, m.flows[p]) % n == b)
    && (forall b :: 0 <= b < n ==> NoDup(tab.buckets[b]))
    && Size(tab.buckets) == |m.flows| <= c.maxFlows
  }

  ghost predicate HostTable(c: Config, m: Mem, tab: Table<Ptr>) {
    var n := |tab.buckets|;
    && n == c.hostBuckets > 0
    && (forall b, h :: 0 <= b < n && h in tab.buckets[b] ==> h in m.hosts && HostKey(m.hosts[h].id) % n == b)
    && (forall b :: 0 <= b < n ==> NoDup(tab.buckets[b]))
    && Size(tab.buckets) <= c.maxHosts
  }

  /** The host is in the host table (and in memory). */
  ghost predicate Attached(m: Mem, tab: Table<Ptr>, h: Ptr)
    requires WellFormed(tab)
  {
    h in m.hosts && h in tab.buckets[HostKey(m.hosts[h].id) % |tab.buckets|]
  }

  ghost predicate RefsAttached(m: Mem, tab: Table<Ptr>)
    requires WellFormed(tab)
  {
    forall p, h :: p in m.flows && RefersTo(m.flows[p], h) ==> Attached(m, tab, h)
  }

  /** Both tables hold what they should, and every host that a flow refers to is in its table. */
  ghost predicate Tabled(c: Config, s: State) {
    && Shaped(s)
    && FlowTable(c, s.mem, s.ftab) && HostTable(c, s.mem, s.htab) && RefsAttached(s.mem, s.htab)
  }

  /** The safety invariant. */
  ghost predicate Safe(c: Config, s: State) {
    Tabled(c, s) && Sound(s.mem) && !s.mem.warned
  }

  // ----- uniqueness -----

  ghost predicate Known(hosts: map<Ptr, Host>, p: Option<Ptr>) {
    p.Some? && p.value in hosts && hosts[p.value].id.ip.Some?
  }

  ghost predicate BothKnown(hosts: map<Ptr, Host>, f: Flow) {
    Known(hosts, f.cli) && Known(hosts, f.srv)
  }

  /** A packet from the flow's client to its server. */
  ghost function TupleOf(hosts: map<Ptr, Host>, f: Flow): Tuple
    requires BothKnown(hosts, f)
  {
    var a, b := hosts[f.cli.value].id, hosts[f.srv.value].id;
    Tuple(f.vlan, f.proto, a.mac, a.ip.value, f.cliPort, b.mac, b.ip.value, f.srvPort)
  }

  /** Same VLAN, protocol and unordered pair of endpoints. */
  ghost predicate SameFlow(hosts: map<Ptr, Host>, f: Flow, g: Flow) {
    BothKnown(hosts, f) && BothKnown(hosts, g) && Matches(hosts, g, TupleOf(hosts, f))
  }

  ghost predicate FlowsUnique(c: Config, s: State) {
    forall p, q ::
      FlowLive(c, s, p) && FlowLive(c, s, q) && SameFlow(s.mem.hosts, s.mem.flows[p], s.mem.flows[q]) ==> p == q
  }

  predicate Alike(a: Identity, b: Identity) {
    a.vlan == b.vlan &&
    match (a.ip, b.ip)
    case (Some(x), Some(y)) => Same(x, y)
    case (None, None) => a.mac == b.mac
    case _ => false
  }

  ghost predicate AttachedLive(c: Config, s: State, h: Ptr)
    requires WellFormed(s.htab)
  {
    Attached(s.mem, s.htab, h) && HostLive(c, s, h)
  }

  ghost predicate HostsUnique(c: Config, s: State)
    requires WellFormed(s.htab)
  {
    forall h, k ::
      AttachedLive(c, s, h) && AttachedLive(c, s, k) && Alike(s.mem.hosts[h].id, s.mem.hosts[k].id) ==> h == k
  }

  ghost predicate Unique(c: Config, s: State)
    requires WellFormed(s.htab)
  {
    FlowsUnique(c, s) && HostsUnique(c, s) && (c.purge ==> s.now < TWO_32)
  }

  /** Safety, and uniqueness too if the clock has behaved so far (u). */
  ghost predicate Good(c: Config, s: State, u: bool)
    ensures Good(c, s, u) ==> Shaped(s) && (u && c.purge ==> s.now < TWO_32)
  {
    Safe(c, s) && (u ==> Unique(c, s))
  }

  // ----- what a 16-bit use counter can count -----

  /** No host has more references than its use counter can show. */
  ghost predicate Light(m: Mem) { forall h :: h in m.hosts ==> Total(m.flows, Refs, h) < TWO_16 }

  /** Nor will one have with the flow that the next step may add, if the table has room for it. Where
      nothing is ever purged it does not matter. */
  ghost predicate Uncrowded(c: Config, s: State) {
    c.purge ==> forall h :: h in s.mem.hosts ==>
      Total(s.mem.flows, Refs, h) + (if |s.mem.flows| < c.maxFlows then 2 else 0) < TWO_16
  }

  /** The counters show what they count, as far as it matters. */
  ghost predicate Countable(c: Config, m: Mem) { c.purge ==> Light(m) }

  lemma ExactUses(m: Mem, h: Ptr)
    requires Counted(m) && h in m.hosts && Total(m.flows, Refs, h) < TWO_16
    ensures m.hosts[h].uses == Total(m.flows, Refs, h)
  {
    RefsBounds(m.flows, h);
  }

  /** A part of the flows has no more references than all. */
  lemma {:induction false} TotalPart(flows: map<Ptr, Flow>, part: map<Ptr, Flow>, h: Ptr)
    requires forall p :: p in part ==> p in flows && part[p] == flows[p]
    ensures Total(part, Refs, h) <= Total(flows, Refs, h)
    decreases |flows|
  {
    if flows == map[] {
      assert part == map[];
    } else {
      var p := AnyOf(flows);
      TotalRemove(flows, Refs, h, p);
      if p in part {
        TotalRemove(part, Refs, h, p);
        TotalPart(flows - {p}, part - {p}, h);
      } else {
        TotalPart(flows - {p}, part, h);
      }
    }
  }

  lemma LightPart(m: Mem, n: Mem)
    requires Light(m) && forall p :: p in n.flows ==> p in m.flows && n.flows[p] == m.flows[p]
    requires n.hosts.Keys <= m.hosts.Keys
    ensures Light(n)
  {
    forall h | h in n.hosts ensures Total(n.flows, Refs, h) < TWO_16 {
      TotalPart(m.flows, n.flows, h);
    }
  }

  /** References depend on the ends of flows only. */
  lemma LightEnds(m: Mem, p: Ptr, f: Flow, n: Mem)
    requires Light(m) && p in m.flows && f.cli == m.flows[p].cli && f.srv == m.flows[p].srv
    requires n.flows == m.flows[p := f] && n.hosts.Keys == m.hosts.Keys
    ensures Light(n)
  {
    forall h | h in n.hosts ensures Total(n.flows, Refs, h) < TWO_16 {
      TotalPut(m.flows, Refs, h, p, f);
    }
  }

  // ----- steps that leave the tables and everybody's identity alone -----

  predicate SameEndsOf(f: Flow, g: Flow) {
    && g.cli == f.cli && g.srv == f.srv && g.cliPort == f.cliPort && g.srvPort == f.srvPort
    && g.vlan == f.vlan && g.proto == f.proto
  }

  ghost predicate KeepsIds(m: Mem, n: Mem) {
    forall h :: h in m.hosts ==> h in n.hosts && n.hosts[h].id == m.hosts[h].id
  }

  /** Hosts that flows refer to are still there and who they were. */
  ghost predicate KeepsRefs(m: Mem, n: Mem) {
    forall p, h :: p in m.flows && RefersTo(m.flows[p], h) && h in m.hosts ==>
      h in n.hosts && n.hosts[h].id == m.hosts[h].id
  }

  ghost predicate KeepsEnds(m: Mem, n: Mem) {
    n.flows.Keys == m.flows.Keys && forall p :: p in m.flows ==> SameEndsOf(m.flows[p], n.flows[p])
  }

  ghost predicate Calm(s: State, t: State) {
    t.ftab == s.ftab && t.htab == s.htab && KeepsIds(s.mem, t.mem) && KeepsEnds(s.mem, t.mem)
  }

  /** Nothing that was idle is live again. */
  ghost predicate NoRevival(c: Config, s: State, t: State) {
    && (forall p :: FlowLive(c, t, p) ==> FlowLive(c, s, p))
    && (forall h :: h in s.mem.hosts && HostLive(c, t, h) ==> HostLive(c, s, h))
  }

  lemma IdsRefs(m: Mem, n: Mem)
    requires KeepsIds(m, n)
    ensures KeepsRefs(m, n)
  {
  }

  lemma FlowKeyFrame(m: Mem, n: Mem, f: Flow, g: Flow)
    requires SameEndsOf(f, g)
    requires forall h :: RefersTo(f, h) ==> h in m.hosts && h in n.hosts && n.hosts[h].id == m.hosts[h].id
    ensures FlowKey(n.hosts, g) == FlowKey(m.hosts, f)
  {
    assert f.cli.Some? ==> RefersTo(f, f.cli.value);
    assert f.srv.Some? ==> RefersTo(f, f.srv.value);
  }

  /** The keys of the flows in memory depend on ends and identities only. */
  lemma KeysFrame(m: Mem, n: Mem, tab: Table<Ptr>)
    requires WellFormed(tab) && RefsAttached(m, tab) && KeepsRefs(m, n)
    ensures forall p :: p in m.flows && p in n.flows && SameEndsOf(m.flows[p], n.flows[p]) ==>
      FlowKey(n.hosts, n.flows[p]) == FlowKey(m.hosts, m.flows[p])
  {
    forall p | p in m.flows && p in n.flows && SameEndsOf(m.flows[p], n.flows[p])
      ensures FlowKey(n.hosts, n.flows[p]) == FlowKey(m.hosts, m.flows[p])
    {
      assert forall h :: RefersTo(m.flows[p], h) ==> Attached(m, tab, h);
      FlowKeyFrame(m, n, m.flows[p], n.flows[p]);
    }
  }

  lemma FlowTableFrame(c: Config, m: Mem, n: Mem, tab: Table<Ptr>)
    requires FlowTable(c, m, tab) && KeepsEnds(m, n)
    requires forall p :: p in m.flows && p in n.flows && SameEndsOf(m.flows[p], n.flows[p]) ==>
      FlowKey(n.hosts, n.flows[p]) == FlowKey(m.hosts, m.flows[p])
    ensures FlowTable(c, n, tab)
  {
    hide NoDup, Size, FlowKey;
    assert |n.flows| == |n.flows.Keys| && |m.flows| == |m.flows.Keys|;
  }

  lemma HostTableFrame(c: Config, m: Mem, n: Mem, tab: Table<Ptr>)
    requires HostTable(c, m, tab) && KeepsIds(m, n)
    ensures HostTable(c, n, tab)
  {
  }

  lemma RefsFrame(m: Mem, n: Mem, tab: Table<Ptr>)
    requires WellFormed(tab) && RefsAttached(m, tab) && KeepsIds(m, n) && KeepsEnds(m, n)
    ensures RefsAttached(n, tab)
  {
    forall p, h | p in n.flows && RefersTo(n.flows[p], h) ensures Attached(n, tab, h) {
      assert SameEndsOf(m.flows[p], n.flows[p]) && RefersTo(m.flows[p], h);
      assert Attached(m, tab, h);
    }
  }

  lemma CalmTabled(c: Config, s: State, t: State)
    requires Tabled(c, s) && Calm(s, t)
    ensures Tabled(c, t)
  {
    hide FlowTable, HostTable, RefsAttached, KeepsIds, KeepsEnds, KeepsRefs;
    IdsRefs(s.mem, t.mem);
    KeysFrame(s.mem, t.mem, s.htab);
    FlowTableFrame(c, s.mem, t.mem, s.ftab);
    HostTableFrame(c, s.mem, t.mem, s.htab);
    RefsFrame(s.mem, t.mem, s.htab);
  }

  /** Uniqueness of flows survives a change that makes none live that was not and keeps who it is. */
  lemma FlowsShrink(c: Config, s: State, t: State)
    requires WellFormed(s.htab) && RefsAttached(s.mem, s.htab) && FlowsUnique(c, s) && KeepsRefs(s.mem, t.mem)
    requires forall p :: FlowLive(c, t, p) ==> FlowLive(c, s, p) && SameEndsOf(s.mem.flows[p], t.mem.flows[p])
    ensures FlowsUnique(c, t)
  {
    forall p, q | FlowLive(c, t, p) && FlowLive(c, t, q) && SameFlow(t.mem.hosts, t.mem.flows[p], t.mem.flows[q])
      ensures p == q
    {
      SameFlowFrame(s.mem, t.mem, s.htab, p, q);
    }
  }

  lemma SameFlowFrame(m: Mem, n: Mem, tab: Table<Ptr>, p: Ptr, q: Ptr)
    requires WellFormed(tab) && RefsAttached(m, tab) && KeepsRefs(m, n)
    requires p in m.flows && p in n.flows && q in m.flows && q in n.flows
    requires SameEndsOf(m.flows[p], n.flows[p]) && SameEndsOf(m.flows[q], n.flows[q])
    requires SameFlow(n.hosts, n.flows[p], n.flows[q])
    ensures SameFlow(m.hosts, m.flows[p], m.flows[q])
  {
    var f, g := m.flows[p], m.flows[q];
    assert RefersTo(f, f.cli.value) && RefersTo(f, f.srv.value) && RefersTo(g, g.cli.value) && RefersTo(g, g.srv.value);
    assert Attached(m, tab, f.cli.value) && Attached(m, tab, f.srv.value) && Attached(m, tab, g.cli.value);
    assert Attached(m, tab, g.srv.value);
  }

  lemma HostsShrink(c: Config, s: State, t: State)
    requires WellFormed(s.htab) && WellFormed(t.htab) && HostsUnique(c, s)
    requires forall h :: AttachedLive(c, t, h) ==> AttachedLive(c, s, h) && t.mem.hosts[h].id == s.mem.hosts[h].id
    ensures HostsUnique(c, t)
  {
  }

  lemma HostsCalm(c: Config, s: State, t: State)
    requires Shaped(s) && t.htab == s.htab && HostTable(c, s.mem, s.htab) && KeepsIds(s.mem, t.mem)
    requires HostsUnique(c, s) && NoRevival(c, s, t)
    ensures HostsUnique(c, t)
  {
    forall h | AttachedLive(c, t, h) ensures AttachedLive(c, s, h) && t.mem.hosts[h].id == s.mem.hosts[h].id {
      assert h in s.htab.buckets[HostKey(t.mem.hosts[h].id) % |s.htab.buckets|];
    }
    HostsShrink(c, s, t);
  }

  lemma CalmUnique(c: Config, s: State, t: State)
    requires Tabled(c, s) && Calm(s, t) && NoRevival(c, s, t) && Unique(c, s) && (c.purge ==> t.now < TWO_32)
    ensures Shaped(t) && Unique(c, t)
  {
    hide FlowTable, HostTable, RefsAttached, KeepsIds, KeepsRefs, FlowsUnique, HostsUnique;
    IdsRefs(s.mem, t.mem);
    FlowsShrink(c, s, t);
    HostsCalm(c, s, t);
  }

  /** A calm step without revivals keeps everything if it keeps the memory sound. */
  lemma CalmGood(c: Config, s: State, t: State, u: bool)
    requires Good(c, s, u) && Calm(s, t) && Sound(t.mem) && !t.mem.warned
    requires u ==> NoRevival(c, s, t) && (c.purge ==> t.now < TWO_32)
    ensures Good(c, t, u)
  {
    hide Sound, Tabled, Unique, Calm;
    CalmTabled(c, s, t);
    if u {
      CalmUnique(c, s, t);
    }
  }

  /** Idleness is absorbing while the clock does not go back: time alone revives nothing. Where
      nothing is purged nothing is idle, and any time will do. */
  lemma TickGood(c: Config, s: State, when: nat, u: bool)
    requires Good(c, s, u) && (u && c.purge ==> s.now <= when < TWO_32)
    ensures Good(c, s.(now := when), u)
  {
    hide Sound, Tabled, Unique;
    CalmGood(c, s, s.(now := when), u);
  }

  // ----- lookups -----

  lemma AcceptsHost(c: Config, s: State, vlan: u16, ip: Ip, h: Ptr)
    ensures HostAccepts(c, s.now, s.mem, vlan, ip)(h) == IsHost(c, s, h, vlan, ip)
  {
  }

  lemma AcceptsStation(c: Config, s: State, vlan: u16, mac: Mac, h: Ptr)
    ensures StationAccepts(c, s.now, s.mem, vlan, mac)(h) == IsStation(c, s, h, vlan, mac)
  {
  }

  lemma HostBucket(m: Mem, h: Ptr, ip: Ip)
    requires HostIs(m.hosts, Some(h), ip)
    ensures HostKey(m.hosts[h].id) == Key(ip)
  {
    SameKey(m.hosts[h].id.ip.value, ip);
  }

  /** Host lookup answers for the whole table: nothing found means no live host there has this
      VLAN and address. */
  lemma FindHostComplete(c: Config, s: State, vlan: u16, ip: Ip)
    requires Shaped(s) && HostTable(c, s.mem, s.htab)
    ensures FindHost(c, s, vlan, ip).NotFound? <==>
      forall h :: Attached(s.mem, s.htab, h) ==> !IsHost(c, s, h, vlan, ip)
    ensures FindHost(c, s, vlan, ip).Found? ==>
      var h := FindHost(c, s, vlan, ip).item; Attached(s.mem, s.htab, h) && IsHost(c, s, h, vlan, ip)
  {
    hide NoDup, HostAccepts, HostKey;
    forall h ensures HostAccepts(c, s.now, s.mem, vlan, ip)(h) == IsHost(c, s, h, vlan, ip) {
      AcceptsHost(c, s, vlan, ip, h);
    }
    forall h | Attached(s.mem, s.htab, h) && IsHost(c, s, h, vlan, ip)
      ensures h in s.htab.buckets[Key(ip) % |s.htab.buckets|]
    {
      HostBucket(s.mem, h, ip);
    }
  }

  lemma FindStationComplete(c: Config, s: State, vlan: u16, mac: Mac)
    requires Shaped(s) && HostTable(c, s.mem, s.htab)
    ensures FindStation(c, s, vlan, mac).NotFound? <==>
      forall h :: Attached(s.mem, s.htab, h) ==> !IsStation(c, s, h, vlan, mac)
    ensures FindStation(c, s, vlan, mac).Found? ==>
      var h := FindStation(c, s, vlan, mac).item; Attached(s.mem, s.htab, h) && IsStation(c, s, h, vlan, mac)
  {
    hide NoDup, StationAccepts;
    forall h ensures StationAccepts(c, s.now, s.mem, vlan, mac)(h) == IsStation(c, s, h, vlan, mac) {
      AcceptsStation(c, s, vlan, mac, h);
    }
  }

  /** A matching flow hashes like the tuple, in either direction. */
  lemma MatchHash(hosts: map<Ptr, Host>, f: Flow, t: Tuple)
    requires Matches(hosts, f, t)
    ensures FlowKey(hosts, f) == LookupHash(t)
  {
    var a, b := hosts[f.cli.value].id.ip.value, hosts[f.srv.value].id.ip.value;
    if Forward(hosts, f, t) {
      SameKey(a, t.src);
      SameKey(b, t.dst);
    } else {
      SameKey(a, t.dst);
      SameKey(b, t.src);
    }
  }

  /** flow lookup agrees with a scan of the whole table, and the direction is right. */
  lemma FindFlowComplete(c: Config, s: State, t: Tuple)
    requires Shaped(s) && FlowTable(c, s.mem, s.ftab)
    ensures FindFlow(c, s, t).NotFound? <==>
      forall p :: FlowLive(c, s, p) ==> !Matches(s.mem.hosts, s.mem.flows[p], t)
    ensures FindFlow(c, s, t).Found? ==>
      var p := FindFlow(c, s, t).item; FlowLive(c, s, p) && Matches(s.mem.hosts, s.mem.flows[p], t)
  {
    forall p | FlowLive(c, s, p) && Matches(s.mem.hosts, s.mem.flows[p], t)
      ensures p in s.ftab.buckets[LookupHash(t) % |s.ftab.buckets|]
    {
      MatchHash(s.mem.hosts, s.mem.flows[p], t);
    }
  }

  // ----- creating hosts -----

  /** What looking up or creating a host leaves alone. */
  ghost predicate OnlyHosts(s: State, t: State) {
    && t.mem.flows == s.mem.flows && t.ftab == s.ftab && t.now == s.now
    && forall k :: k in s.mem.hosts ==> k in t.mem.hosts && t.mem.hosts[k] == s.mem.hosts[k]
  }

  lemma NewHostCalm(c: Config, s: State, h: Ptr, id: Identity, u: bool)
    requires Good(c, s, u) && h !in s.mem.hosts
    ensures Good(c, s.(mem := NewHost(s.mem, h, id, s.now)), u)
  {
    assert Sound(s.mem);
    NewHostSound(s.mem, h, id, s.now);
    hide Sound, Tabled, Unique;
    CalmGood(c, s, s.(mem := NewHost(s.mem, h, id, s.now)), u);
  }

  /** t's buckets hold what s's do, and only x besides. */
  ghost predicate Grows(s: Table<Ptr>, t: Table<Ptr>, x: Ptr) {
    && |t.buckets| == |s.buckets| && t.lastPurged == s.lastPurged
    && (forall b, h :: 0 <= b < |s.buckets| && h in s.buckets[b] ==> h in t.buckets[b])
    && (forall b, h :: 0 <= b < |s.buckets| && h in t.buckets[b] && h != x ==> h in s.buckets[b])
  }

  /** t's buckets hold what s's do, and besides at most these two. */
  ghost predicate GrowsBy(s: Table<Ptr>, t: Table<Ptr>, x: Ptr, y: Ptr) {
    && |t.buckets| == |s.buckets| && t.lastPurged == s.lastPurged
    && (forall b, h :: 0 <= b < |s.buckets| && h in s.buckets[b] ==> h in t.buckets[b])
    && (forall b, h :: 0 <= b < |s.buckets| && h in t.buckets[b] && h != x && h != y ==> h in s.buckets[b])
  }

  lemma InsertGrows(s: Table<Ptr>, b: nat, x: Ptr)
    requires b < |s.buckets|
    ensures Grows(s, Insert(s, b, x), x) && x in Insert(s, b, x).buckets[b]
    ensures Size(Insert(s, b, x).buckets) == Size(s.buckets) + 1
  {
    SizeUpdate(s.buckets, b, [x] + s.buckets[b]);
  }

  lemma InsertNoDup(s: Table<Ptr>, b: nat, x: Ptr)
    requires b < |s.buckets| && x !in s.buckets[b] && forall a :: 0 <= a < |s.buckets| ==> NoDup(s.buckets[a])
    ensures forall a :: 0 <= a < |s.buckets| ==> NoDup(Insert(s, b, x).buckets[a])
  {
    NoDupConcat([x], s.buckets[b]);
  }

  lemma HostTableInsert(c: Config, m: Mem, tab: Table<Ptr>, h: Ptr)
    requires HostTable(c, m, tab) && WellFormed(tab) && Size(tab.buckets) < c.maxHosts && h in m.hosts
    requires forall b :: 0 <= b < |tab.buckets| ==> h !in tab.buckets[b]
    ensures HostTable(c, m, Insert(tab, HostKey(m.hosts[h].id) % |tab.buckets|, h))
  {
    var b := HostKey(m.hosts[h].id) % |tab.buckets|;
    InsertGrows(tab, b, h);
    InsertNoDup(tab, b, h);
  }

  lemma RefsGrow(m: Mem, s: Table<Ptr>, t: Table<Ptr>, x: Ptr)
    requires WellFormed(s) && RefsAttached(m, s) && Grows(s, t, x)
    ensures RefsAttached(m, t)
  {
    forall p, h | p in m.flows && RefersTo(m.flows[p], h) ensures Attached(m, t, h) {
      assert Attached(m, s, h);
    }
  }

  lemma InsertHostTabled(c: Config, s: State, h: Ptr, id: Identity)
    requires Tabled(c, s) && h !in s.mem.hosts && Size(s.htab.buckets) < c.maxHosts
    ensures var t := InsertHost(s, h, id);
      Tabled(c, t) && Grows(s.htab, t.htab, h) && Attached(t.mem, t.htab, h)
  {
    hide FlowTable, RefsAttached, NoDup;
    var r := s.(mem := NewHost(s.mem, h, id, s.now));
    CalmTabled(c, s, r);
    HostTableInsert(c, r.mem, r.htab, h);
    InsertGrows(r.htab, HostKey(id) % |r.htab.buckets|, h);
    RefsGrow(r.mem, r.htab, InsertHost(s, h, id).htab, h);
  }

  lemma InsertHostUnique(c: Config, s: State, h: Ptr, id: Identity)
    requires Tabled(c, s) && Unique(c, s) && h !in s.mem.hosts
    requires forall k :: AttachedLive(c, s, k) ==> !Alike(id, s.mem.hosts[k].id) && !Alike(s.mem.hosts[k].id, id)
    ensures Unique(c, InsertHost(s, h, id))
  {
    InsertGrows(s.htab, HostKey(id) % |s.htab.buckets|, h);
    var t := InsertHost(s, h, id);
    FlowsShrink(c, s, t);
    forall j, k | AttachedLive(c, t, j) && AttachedLive(c, t, k) && Alike(t.mem.hosts[j].id, t.mem.hosts[k].id)
      ensures j == k
    {
      assert j != h ==> AttachedLive(c, s, j);
      assert k != h ==> AttachedLive(c, s, k);
    }
  }

  /** A host that is new to memory and has no live likeness in the table may be inserted. */
  lemma InsertHostGood(c: Config, s: State, h: Ptr, id: Identity, u: bool)
    requires Good(c, s, u) && h !in s.mem.hosts && Size(s.htab.buckets) < c.maxHosts
    requires u ==> forall k :: AttachedLive(c, s, k) ==> !Alike(id, s.mem.hosts[k].id) && !Alike(s.mem.hosts[k].id, id)
    ensures Good(c, InsertHost(s, h, id), u)
  {
    hide Sound, Tabled, Unique, Alike;
    NewHostSound(s.mem, h, id, s.now);
    InsertHostTabled(c, s, h, id);
    if u {
      InsertHostUnique(c, s, h, id);
    }
  }

  /** A host that never made it into the table is freed at once, without a warning. */
  lemma RejectHostGood(c: Config, s: State, h: Ptr, id: Identity, u: bool)
    requires Good(c, s, u) && h !in s.mem.hosts
    ensures var t := s.(mem := DeleteHost(NewHost(s.mem, h, id, s.now), h));
      Good(c, t, u) && t.mem.hosts == s.mem.hosts
  {
    hide Tabled, FlowsUnique, HostsUnique, Counted, Conserved;
    var m := NewHost(s.mem, h, id, s.now);
    var t := s.(mem := DeleteHost(m, h));
    assert Sound(t.mem) && t.mem.hosts == s.mem.hosts && !t.mem.warned by {
      NewHostSound(s.mem, h, id, s.now);
      assert forall p :: p in m.flows ==> !RefersTo(m.flows[p], h);
      TotalNone(m.flows, Refs, h);
      DeleteHostSound(m, h);
      assert m.hosts - {h} == s.mem.hosts;
    }
    CalmGood(c, s, t, u);
  }

  /** The host at p is the live one that the table has for this VLAN and address. */
  ghost predicate Serves(c: Config, s: State, p: Ptr, vlan: u16, ip: Ip)
    requires WellFormed(s.htab)
  {
    Attached(s.mem, s.htab, p) && IsHost(c, s, p, vlan, ip)
  }

  lemma NoLikeness(c: Config, s: State, vlan: u16, mac: Mac, ip: Ip)
    requires Tabled(c, s) && FindHost(c, s, vlan, ip).NotFound?
    ensures forall k :: AttachedLive(c, s, k) ==>
      !Alike(IpIdentity(c, vlan, mac, ip), s.mem.hosts[k].id) && !Alike(s.mem.hosts[k].id, IpIdentity(c, vlan, mac, ip))
  {
    FindHostComplete(c, s, vlan, ip);
    assert forall k :: AttachedLive(c, s, k) ==> !IsHost(c, s, k, vlan, ip);
  }

  lemma NoStationLikeness(c: Config, s: State, vlan: u16, mac: Mac)
    requires Tabled(c, s) && FindStation(c, s, vlan, mac).NotFound?
    ensures forall k :: AttachedLive(c, s, k) ==>
      !Alike(MacIdentity(vlan, mac), s.mem.hosts[k].id) && !Alike(s.mem.hosts[k].id, MacIdentity(vlan, mac))
  {
    FindStationComplete(c, s, vlan, mac);
    assert forall k :: AttachedLive(c, s, k) ==> !IsStation(c, s, k, vlan, mac);
  }

  lemma ObtainHostGood(c: Config, s: State, vlan: u16, mac: Mac, ip: Ip, h: Ptr, u: bool)
    requires Good(c, s, u) && h !in s.mem.hosts
    ensures var (t, r) := ObtainHost(c, s, vlan, mac, ip, h);
      && Good(c, t, u) && OnlyHosts(s, t) && t.mem.hosts.Keys <= s.mem.hosts.Keys + {h}
      && (r.Some? ==> Serves(c, t, r.value, vlan, ip))
      && (t.htab == s.htab || Grows(s.htab, t.htab, h))
      && forall k :: Attached(s.mem, s.htab, k) ==> Attached(t.mem, t.htab, k)
  {
    hide Sound, FlowTable, HostTable, RefsAttached, Unique, Alike, NoDup;
    FindHostComplete(c, s, vlan, ip);
    if FindHost(c, s, vlan, ip).NotFound? {
      var id := IpIdentity(c, vlan, mac, ip);
      if Size(s.htab.buckets) < c.maxHosts {
        NoLikeness(c, s, vlan, mac, ip);
        InsertHostGood(c, s, h, id, u);
        InsertHostTabled(c, s, h, id);
      } else {
        RejectHostGood(c, s, h, id, u);
      }
    }
  }

  lemma NewUnattached(c: Config, s: State, h: Ptr)
    requires Shaped(s) && HostTable(c, s.mem, s.htab) && h !in s.mem.hosts
    ensures forall b :: 0 <= b < |s.htab.buckets| ==> h !in s.htab.buckets[b]
  {
  }

  /** findHostByMac: the host it returns is live, but it is in the table only if it was found there or
      there was room for it. */
  lemma ObtainStationGood(c: Config, s: State, vlan: u16, mac: Mac, h: Ptr, u: bool)
    requires Good(c, s, u) && h !in s.mem.hosts
    ensures var (t, r) := ObtainStation(c, s, vlan, mac, h);
      && Good(c, t, u) && OnlyHosts(s, t) && t.mem.hosts.Keys <= s.mem.hosts.Keys + {h}
      && r in t.mem.hosts && HostLive(c, t, r)
      && (Attached(t.mem, t.htab, r) <==> FindStation(c, s, vlan, mac).Found? || Size(s.htab.buckets) < c.maxHosts)
      && (t.htab == s.htab || Grows(s.htab, t.htab, h))
  {
    hide Sound, FlowTable, HostTable, RefsAttached, Unique, Alike, NoDup;
    FindStationComplete(c, s, vlan, mac);
    if FindStation(c, s, vlan, mac).NotFound? {
      var id := MacIdentity(vlan, mac);
      if Size(s.htab.buckets) < c.maxHosts {
        NoStationLikeness(c, s, vlan, mac);
        InsertHostGood(c, s, h, id, u);
        InsertHostTabled(c, s, h, id);
      } else {
        NewHostCalm(c, s, h, id, u);
        NewUnattached(c, s, h);
      }
    }
  }

  // ----- creating flows -----

  lemma FlowTableInsert(c: Config, m: Mem, tab: Table<Ptr>, p: Ptr, f: Flow)
    requires FlowTable(c, m, tab) && WellFormed(tab) && Size(tab.buckets) < c.maxFlows && p !in m.flows
    ensures FlowTable(c, m.(flows := m.flows[p := f]), Insert(tab, FlowKey(m.hosts, f) % |tab.buckets|, p))
  {
    hide NoDup, FlowKey;
    var k := |tab.buckets|;
    var b := FlowKey(m.hosts, f) % k;
    assert forall a :: 0 <= a < k ==> p !in tab.buckets[a];
    InsertGrows(tab, b, p);
    InsertNoDup(tab, b, p);
    var n, t := m.(flows := m.flows[p := f]), Insert(tab, b, p);
    assert |n.flows| == |m.flows| + 1;
    forall q | q in n.flows ensures q in t.buckets[FlowKey(n.hosts, n.flows[q]) % k] {
      assert q != p ==> q in tab.buckets[FlowKey(m.hosts, m.flows[q]) % k];
    }
    forall a, q | 0 <= a < k && q in t.buckets[a] ensures q in n.flows && FlowKey(n.hosts, n.flows[q]) % k == a {
      assert q != p ==> q in tab.buckets[a];
      assert q == p ==> a == b;
    }
  }

  /** f may join the table: it is new, its hosts are live and in their table, no live flow is like it. */
  ghost predicate MayJoin(c: Config, s: State, p: Ptr, f: Flow, u: bool)
    requires Shaped(s)
  {
    && p !in s.mem.flows && Last(f) == NO_DUPLEX
    && (forall h :: RefersTo(f, h) ==> AttachedLive(c, s, h))
    && (u ==> forall q :: FlowLive(c, s, q) ==>
        !SameFlow(s.mem.hosts, f, s.mem.flows[q]) && !SameFlow(s.mem.hosts, s.mem.flows[q], f))
  }

  lemma JoinTabled(c: Config, s: State, p: Ptr, f: Flow, u: bool)
    requires Tabled(c, s) && MayJoin(c, s, p, f, u) && Size(s.ftab.buckets) < c.maxFlows
    requires var n := NewFlow(s.mem, p, f); n.flows == s.mem.flows[p := f] && SameHosts(s.mem, n)
    ensures Tabled(c, JoinFlow(c, s, f, p).s)
  {
    hide FlowTable, HostTable;
    var n := NewFlow(s.mem, p, f);
    var r := s.mem.(hosts := n.hosts);
    CalmTabled(c, s, s.(mem := r));
    FlowTableInsert(c, r, s.ftab, p, f);
    var m := r.(flows := r.flows[p := f]);
    HostTableFrame(c, r, m, s.htab);
    HostTableFrame(c, m, n, s.htab);
    JoinFlowTable(c, m, n, Insert(s.ftab, FlowKey(n.hosts, f) % |s.ftab.buckets|, p));
    forall q, h | q in n.flows && RefersTo(n.flows[q], h) ensures Attached(n, s.htab, h) {
      if q != p {
        assert q in r.flows && RefersTo(r.flows[q], h);
        assert Attached(r, s.htab, h);
      }
    }
  }

  lemma JoinFlowTable(c: Config, m: Mem, n: Mem, tab: Table<Ptr>)
    requires FlowTable(c, m, tab) && n.flows == m.flows && n.hosts == m.hosts
    ensures FlowTable(c, n, tab)
  {
  }

  lemma JoinUnique(c: Config, s: State, p: Ptr, f: Flow)
    requires Tabled(c, s) && MayJoin(c, s, p, f, true) && Unique(c, s)
    requires var n := NewFlow(s.mem, p, f); n.flows == s.mem.flows[p := f] && SameHosts(s.mem, n)
    requires forall h :: h in s.mem.hosts && !RefersTo(f, h) ==> NewFlow(s.mem, p, f).hosts[h] == s.mem.hosts[h]
    ensures Unique(c, s.(mem := NewFlow(s.mem, p, f)))
  {
    hide FlowTable, HostTable, FlowsUnique, HostsUnique, SameFlow;
    var n := NewFlow(s.mem, p, f);
    var r, t := s.(mem := s.mem.(hosts := n.hosts)), s.(mem := n);
    assert FlowsUnique(c, r) && HostsUnique(c, r) by {
      CalmUnique(c, s, r);
    }
    assert FlowsUnique(c, t) by {
      forall q | FlowLive(c, s, q)
        ensures !SameFlow(n.hosts, f, s.mem.flows[q]) && !SameFlow(n.hosts, s.mem.flows[q], f)
      {
        SameFlowHosts(s.mem.hosts, n.hosts, f, s.mem.flows[q]);
        SameFlowHosts(s.mem.hosts, n.hosts, s.mem.flows[q], f);
      }
      JoinFlowsUnique(c, r, t, p, f);
    }
    HostsShrink(c, r, t);
  }

  lemma SameFlowHosts(hosts: map<Ptr, Host>, after: map<Ptr, Host>, f: Flow, g: Flow)
    requires after.Keys == hosts.Keys && forall h :: h in hosts ==> after[h].id == hosts[h].id
    ensures SameFlow(after, f, g) ==> SameFlow(hosts, f, g)
  {
  }

  lemma JoinFlowsUnique(c: Config, r: State, t: State, p: Ptr, f: Flow)
    requires FlowsUnique(c, r) && p !in r.mem.flows && t.mem.flows == r.mem.flows[p := f]
    requires t.mem.hosts == r.mem.hosts && t.now == r.now
    requires forall q :: FlowLive(c, r, q) ==>
      !SameFlow(t.mem.hosts, f, r.mem.flows[q]) && !SameFlow(t.mem.hosts, r.mem.flows[q], f)
    ensures FlowsUnique(c, t)
  {
    hide SameFlow;
    assert forall q :: q != p && FlowLive(c, t, q) ==> FlowLive(c, r, q);
  }

  /** Taking references changes only the hosts referred to. */
  lemma NewFlowOthers(m: Mem, p: Ptr, f: Flow)
    requires forall h :: RefersTo(f, h) ==> h in m.hosts
    ensures forall h :: h in m.hosts && !RefersTo(f, h) ==>
      h in NewFlow(m, p, f).hosts && NewFlow(m, p, f).hosts[h] == m.hosts[h]
  {
    assert f.cli.Some? ==> RefersTo(f, f.cli.value);
    assert f.srv.Some? ==> RefersTo(f, f.srv.value);
  }

  /** Inserting a flow, and freeing it again when the table is full, keep everything; in the second
      case the memory is as it was. */
  lemma JoinFlowGood(c: Config, s: State, f: Flow, p: Ptr, u: bool)
    requires Good(c, s, u) && MayJoin(c, s, p, f, u)
    ensures var r := JoinFlow(c, s, f, p);
      && Good(c, r.s, u) && r.s.now == s.now && KeepsIds(s.mem, r.s.mem)
      && (r.flow.None? ==> r.s.mem.hosts == s.mem.hosts && r.s.mem.flows == s.mem.flows)
      && (r.flow.Some? ==> r.flow == Some(p) && p in r.s.mem.flows && r.s.mem.flows[p] == f)
  {
    hide FlowTable, HostTable, RefsAttached, FlowsUnique, HostsUnique, SameFlow, Conserved, Counted;
    var n := NewFlow(s.mem, p, f);
    assert forall h :: RefersTo(f, h) ==> h in s.mem.hosts;
    NewFlowSound(s.mem, p, f);
    NewFlowOthers(s.mem, p, f);
    if Size(s.ftab.buckets) < c.maxFlows {
      JoinTabled(c, s, p, f, u);
      if u {
        JoinUnique(c, s, p, f);
        assert FlowsUnique(c, JoinFlow(c, s, f, p).s) by {
          JoinedUnique(c, s.(mem := n), JoinFlow(c, s, f, p).s);
        }
        assert HostsUnique(c, JoinFlow(c, s, f, p).s) by {
          JoinedUnique(c, s.(mem := n), JoinFlow(c, s, f, p).s);
        }
      }
    } else {
      RejectFlow(s.mem, p, f);
      CalmGood(c, s, JoinFlow(c, s, f, p).s, u);
    }
  }

  lemma JoinedUnique(c: Config, s: State, t: State)
    requires WellFormed(s.htab) && FlowsUnique(c, s) && HostsUnique(c, s)
    requires t.mem == s.mem && t.now == s.now && t.htab == s.htab
    ensures FlowsUnique(c, t) && HostsUnique(c, t)
  {
  }

  lemma RejectFlow(m: Mem, p: Ptr, f: Flow)
    requires Sound(m) && p !in m.flows && Last(f) == NO_DUPLEX
    requires forall h :: RefersTo(f, h) ==> h in m.hosts
    ensures var n := DeleteFlow(NewFlow(m, p, f), p);
      Sound(n) && n.flows == m.flows && n.hosts == m.hosts && n.warned == m.warned
  {
    hide Conserved, Total;
    NewFlowSound(m, p, f);
    var r := NewFlow(m, p, f);
    DeleteFlowSound(r, p);
    var n := DeleteFlow(r, p);
    assert m.flows[p := f] - {p} == m.flows;
    forall h | h in m.hosts ensures n.hosts[h] == m.hosts[h] {
      assert n.hosts[h].uses == m.hosts[h].uses;
    }
  }

  /** Both hosts of a new flow: live, in their table, with the tuple's addresses. */
  lemma FlowHostsGood(c: Config, s: State, t: Tuple, a: Alloc, u: bool)
    requires Good(c, s, u) && a.src !in s.mem.hosts && a.dst !in s.mem.hosts && a.src != a.dst
    ensures var (s2, cli, srv) := FindFlowHosts(c, s, t, a);
      && Good(c, s2, u) && OnlyHosts(s, s2)
      && (cli.Some? ==> Serves(c, s2, cli.value, t.vlan, t.src))
      && (srv.Some? ==> Serves(c, s2, srv.value, t.vlan, t.dst))
      && GrowsBy(s.htab, s2.htab, a.src, a.dst)
  {
    hide Sound, FlowTable, HostTable, RefsAttached, Unique, ObtainHost;
    ObtainHostGood(c, s, t.vlan, t.srcMac, t.src, a.src, u);
    var (s1, cli) := ObtainHost(c, s, t.vlan, t.srcMac, t.src, a.src);
    if cli.Some? {
      ObtainHostGood(c, s1, t.vlan, t.dstMac, t.dst, a.dst, u);
    }
  }

  /** Hosts that were added do not make an old flow match. */
  lemma NoMatchStays(c: Config, s: State, s2: State, t: Tuple)
    requires Shaped(s) && RefsAttached(s.mem, s.htab) && OnlyHosts(s, s2)
    requires forall p :: FlowLive(c, s, p) ==> !Matches(s.mem.hosts, s.mem.flows[p], t)
    ensures forall p :: FlowLive(c, s2, p) ==> !Matches(s2.mem.hosts, s2.mem.flows[p], t)
  {
    forall p | FlowLive(c, s2, p) ensures !Matches(s2.mem.hosts, s2.mem.flows[p], t) {
      var f := s.mem.flows[p];
      assert f.cli.Some? ==> RefersTo(f, f.cli.value) && Attached(s.mem, s.htab, f.cli.value);
      assert f.srv.Some? ==> RefersTo(f, f.srv.value) && Attached(s.mem, s.htab, f.srv.value);
      assert FlowLive(c, s, p);
    }
  }

  /** What is like a new flow matches the tuple it was made for. */
  lemma LikenessMatches(hosts: map<Ptr, Host>, t: Tuple, f: Flow, g: Flow)
    requires f.cliPort == t.srcPort && f.srvPort == t.dstPort && f.vlan == t.vlan && f.proto == t.proto
    requires (f.cli.Some? ==> HostIs(hosts, f.cli, t.src)) && (f.srv.Some? ==> HostIs(hosts, f.srv, t.dst))
    ensures SameFlow(hosts, f, g) || SameFlow(hosts, g, f) ==> Matches(hosts, g, t)
  {
  }

  lemma NewFlowMayJoin(c: Config, s: State, t: Tuple, cli: Option<Ptr>, srv: Option<Ptr>, first: nat, last: nat,
      p: Ptr, u: bool)
    requires Shaped(s) && p !in s.mem.flows
    requires cli.Some? ==> Serves(c, s, cli.value, t.vlan, t.src)
    requires srv.Some? ==> Serves(c, s, srv.value, t.vlan, t.dst)
    requires forall q :: FlowLive(c, s, q) ==> !Matches(s.mem.hosts, s.mem.flows[q], t)
    ensures MayJoin(c, s, p, FreshFlow(t, cli, srv, first, last), u)
  {
    hide SameFlow, Matches;
    var f := FreshFlow(t, cli, srv, first, last);
    forall q | FlowLive(c, s, q)
      ensures !SameFlow(s.mem.hosts, f, s.mem.flows[q]) && !SameFlow(s.mem.hosts, s.mem.flows[q], f)
    {
      LikenessMatches(s.mem.hosts, t, f, s.mem.flows[q]);
    }
  }

  /** getFlow keeps everything, and the flow it returns is in memory (and live, if it was last
      seen now). */
  lemma GetFlowGood(c: Config, s: State, t: Tuple, first: nat, last: nat, a: Alloc, u: bool)
    requires Good(c, s, u) && (u && c.purge ==> last == s.now)
    requires a.flow !in s.mem.flows && a.src !in s.mem.hosts && a.dst !in s.mem.hosts && a.src != a.dst
    ensures var r := GetFlow(c, s, t, first, last, a);
      && Good(c, r.s, u) && r.s.now == s.now
      && (r.flow.Some? ==> r.flow.value in r.s.mem.flows && (u ==> FlowLive(c, r.s, r.flow.value)))
      && (Uncrowded(c, s) ==> Countable(c, r.s.mem))
  {
    hide Sound, FlowTable, HostTable, RefsAttached, Unique, Matches, Uncrowded, Countable, OnlyHosts, Size;
    FindFlowComplete(c, s, t);
    if Uncrowded(c, s) {
      UncrowdedCountable(c, s);
    }
    if FindFlow(c, s, t).NotFound? {
      var (s2, cli, srv) := FindFlowHosts(c, s, t, a);
      FlowHostsGood(c, s, t, a, u);
      SameFlows(s, s2);
      NoMatchStays(c, s, s2, t);
      NewFlowMayJoin(c, s2, t, cli, srv, first, last, a.flow, u);
      var f := FreshFlow(t, cli, srv, first, last);
      JoinFlowGood(c, s2, f, a.flow, u);
      if Uncrowded(c, s) {
        JoinCountable(c, s, s2, f, a.flow, u);
      }
    }
  }

  lemma SameFlows(s: State, t: State)
    requires OnlyHosts(s, t)
    ensures t.mem.flows == s.mem.flows && t.now == s.now
  {
  }

  /** A host that no flow can refer to, because it is new, has no references. */
  lemma NewUnreferenced(m: Mem, h: Ptr)
    requires NoDangling(m) && h !in m.hosts
    ensures Total(m.flows, Refs, h) == 0
  {
    assert forall p :: p in m.flows ==> !RefersTo(m.flows[p], h);
    TotalNone(m.flows, Refs, h);
  }

  /** One more flow adds at most two references to a host, and none if there is no room for it. */
  lemma JoinCountable(c: Config, s: State, s2: State, f: Flow, p: Ptr, u: bool)
    requires Good(c, s, u) && Uncrowded(c, s) && OnlyHosts(s, s2) && Good(c, s2, u) && MayJoin(c, s2, p, f, u)
    ensures Countable(c, JoinFlow(c, s2, f, p).s.mem)
  {
    hide FlowTable, HostTable, RefsAttached, Unique, SameFlow, Conserved, Counted;
    var r := JoinFlow(c, s2, f, p);
    JoinFlowGood(c, s2, f, p, u);
    RoomLeft(c, s2);
    assert forall h :: RefersTo(f, h) ==> h in s2.mem.hosts;
    NewFlowSound(s2.mem, p, f);
    if c.purge {
      forall h | h in r.s.mem.hosts ensures Total(r.s.mem.flows, Refs, h) < TWO_16 {
        if h !in s.mem.hosts {
          NewUnreferenced(s.mem, h);
        }
        TotalPut(s.mem.flows, Refs, h, p, f);
        WeightOfFresh(f);
      }
    }
  }

  lemma RoomLeft(c: Config, s: State)
    requires Tabled(c, s)
    ensures Size(s.ftab.buckets) == |s.mem.flows|
  {
  }

  /** Counting on a live flow. */
  lemma TouchGood(c: Config, s: State, p: Ptr, f: Flow, u: bool)
    requires Good(c, s, u) && p in s.mem.flows && Touched(s.mem.flows[p], f) && (u ==> FlowLive(c, s, p))
    ensures Good(c, Touch(s, p, f), u)
  {
    hide FlowTable, HostTable, RefsAttached, FlowsUnique, HostsUnique, NoDangling, Counted, Conserved;
    TouchFlowSound(s.mem, p, f);
    CalmGood(c, s, Touch(s, p, f), u);
  }

  // ----- sweeping flows -----

  lemma {:induction false} SetOfSize(ps: seq<Ptr>)
    requires NoDup(ps)
    ensures |SetOf(ps)| == |ps|
  {
    if ps == [] {
      assert SetOf(ps) == {};
    } else {
      var rest, p := ps[..|ps| - 1], ps[|ps| - 1];
      SetOfSize(rest);
      assert SetOf(ps) == SetOf(rest) + {p};
    }
  }

  lemma RemoveMany(m: map<Ptr, Flow>, ps: seq<Ptr>)
    requires NoDup(ps) && forall p :: p in ps ==> p in m
    ensures |m - SetOf(ps)| == |m| - |ps|
  {
    SetOfSize(ps);
    assert (m - SetOf(ps)).Keys == m.Keys - SetOf(ps) && SetOf(ps) <= m.Keys;
    assert |m - SetOf(ps)| == |(m - SetOf(ps)).Keys| && |m| == |m.Keys|;
  }

  lemma MapRemove(m: map<Ptr, Flow>, p: Ptr)
    requires p in m
    ensures |m - {p}| == |m| - 1
  {
    assert (m - {p})[p := m[p]] == m;
  }

  /** The flow table lists exactly the flows. */
  lemma FlowTableLists(c: Config, m: Mem, tab: Table<Ptr>)
    requires FlowTable(c, m, tab)
    ensures forall p :: p in Flatten(tab.buckets) <==> p in m.flows
  {
    hide NoDup, FlowKey, Size, Flatten;
    FlattenMembers(tab.buckets);
    forall p | p in m.flows ensures p in Flatten(tab.buckets) {
      assert p in tab.buckets[FlowKey(m.hosts, m.flows[p]) % |tab.buckets|];
    }
  }

  lemma FlowTableSeparate(c: Config, m: Mem, tab: Table<Ptr>)
    requires FlowTable(c, m, tab)
    ensures Separate(tab.buckets)
  {
    hide NoDup, FlowKey;
    var n := |tab.buckets|;
    forall a, b, x | 0 <= a < n && 0 <= b < n && x in tab.buckets[a] && x in tab.buckets[b] ensures a == b {
      assert FlowKey(m.hosts, m.flows[x]) % n == a;
    }
  }

  lemma HostTableSeparate(c: Config, m: Mem, tab: Table<Ptr>)
    requires HostTable(c, m, tab)
    ensures Separate(tab.buckets)
  {
    hide NoDup, HostKey;
    var n := |tab.buckets|;
    forall a, b, x | 0 <= a < n && 0 <= b < n && x in tab.buckets[a] && x in tab.buckets[b] ensures a == b {
      assert HostKey(m.hosts[x].id) % n == a;
    }
  }

  /** The quota of one sweep never exceeds the table. */
  lemma QuotaFits(n: nat)
    ensures Quota(n) <= n
  {
  }

  ghost predicate KeepsRest(s: seq<Ptr>, t: seq<Ptr>, removed: seq<Ptr>) {
    (forall x :: x in t ==> x in s && x !in removed) && (forall x :: x in s && x !in removed ==> x in t)
  }

  /** What one sweep deletes: some idle entries, each once; what it keeps: all the others. */
  lemma SweepSummary(tab: Table<Ptr>, idle: Ptr -> bool)
    requires WellFormed(tab) && Separate(tab.buckets)
    ensures var t, removed := Sweep(tab, idle), Swept(tab, idle);
      && |t.buckets| == |tab.buckets| && WellFormed(t)
      && NoDup(removed) && Size(t.buckets) == Size(tab.buckets) - |removed|
      && (forall x :: x in removed ==> idle(x) && exists b :: 0 <= b < |tab.buckets| && x in tab.buckets[b])
      && (forall b :: 0 <= b < |tab.buckets| ==> KeepsRest(tab.buckets[b], t.buckets[b], removed))
      && (forall b :: 0 <= b < |tab.buckets| ==> NoDup(t.buckets[b]))
  {
    var q, n := Quota(|tab.buckets|), |tab.buckets|;
    QuotaFits(n);
    SweepFilters(tab, idle, q);
    SweptMembers(tab, idle, q);
    SweptNoDup(tab, idle, q);
    SweepCount(tab, idle, q);
    forall b | 0 <= b < n
      ensures NoDup(Sweep(tab, idle).buckets[b])
      ensures KeepsRest(tab.buckets[b], Sweep(tab, idle).buckets[b], Swept(tab, idle))
    {
      KeepMembers(tab.buckets[b], idle);
      KeepNoDup(tab.buckets[b], idle);
    }
  }

  /** The flow table after its swept flows were deleted. */
  lemma SweptFlowTable(c: Config, m: Mem, n: Mem, tab: Table<Ptr>, idle: Ptr -> bool)
    requires FlowTable(c, m, tab) && WellFormed(tab)
    requires n.flows == m.flows - SetOf(Swept(tab, idle))
    requires forall p :: p in n.flows ==> FlowKey(n.hosts, n.flows[p]) == FlowKey(m.hosts, m.flows[p])
    ensures FlowTable(c, n, Sweep(tab, idle))
  {
    hide FlowTable, KeepsRest, FlowKey, Sweep, Swept;
    FlowTableSeparate(c, m, tab);
    SweepSummary(tab, idle);
    EntriesInMemory(c, m, tab, Swept(tab, idle));
    RemoveMany(m.flows, Swept(tab, idle));
    ShrunkFlowTable(c, m, n, tab, Sweep(tab, idle), Swept(tab, idle));
  }

  lemma EntriesInMemory(c: Config, m: Mem, tab: Table<Ptr>, ps: seq<Ptr>)
    requires FlowTable(c, m, tab) && forall p :: p in ps ==> exists b :: 0 <= b < |tab.buckets| && p in tab.buckets[b]
    ensures forall p :: p in ps ==> p in m.flows
  {
  }

  lemma ShrunkPlaced(c: Config, m: Mem, n: Mem, tab: Table<Ptr>, t: Table<Ptr>, removed: seq<Ptr>, p: Ptr)
    requires FlowTable(c, m, tab) && |t.buckets| == |tab.buckets| && n.flows == m.flows - SetOf(removed)
    requires forall b :: 0 <= b < |tab.buckets| ==> KeepsRest(tab.buckets[b], t.buckets[b], removed)
    requires forall p :: p in n.flows ==> FlowKey(n.hosts, n.flows[p]) == FlowKey(m.hosts, m.flows[p])
    ensures p in n.flows ==> p in t.buckets[FlowKey(n.hosts, n.flows[p]) % |t.buckets|]
    ensures forall b :: 0 <= b < |t.buckets| && p in t.buckets[b] ==>
      p in n.flows && FlowKey(n.hosts, n.flows[p]) % |t.buckets| == b
  {
    hide NoDup, FlowKey, KeepsRest, Size;
    var k := |tab.buckets|;
    if p in n.flows {
      var b := FlowKey(m.hosts, m.flows[p]) % k;
      RestMember(tab.buckets[b], t.buckets[b], removed, p);
    }
    forall b | 0 <= b < k && p in t.buckets[b] ensures p in n.flows && FlowKey(n.hosts, n.flows[p]) % k == b {
      RestMember(tab.buckets[b], t.buckets[b], removed, p);
    }
  }

  lemma ShrunkFlowTable(c: Config, m: Mem, n: Mem, tab: Table<Ptr>, t: Table<Ptr>, removed: seq<Ptr>)
    requires FlowTable(c, m, tab) && |t.buckets| == |tab.buckets| && NoDup(removed)
    requires Size(t.buckets) == Size(tab.buckets) - |removed|
    requires forall b :: 0 <= b < |tab.buckets| ==> KeepsRest(tab.buckets[b], t.buckets[b], removed)
    requires forall b :: 0 <= b < |tab.buckets| ==> NoDup(t.buckets[b])
    requires n.flows == m.flows - SetOf(removed) && |n.flows| == |m.flows| - |removed|
    requires forall p :: p in n.flows ==> FlowKey(n.hosts, n.flows[p]) == FlowKey(m.hosts, m.flows[p])
    ensures FlowTable(c, n, t)
  {
    hide NoDup, FlowKey, KeepsRest;
    forall p
      ensures p in n.flows ==> p in t.buckets[FlowKey(n.hosts, n.flows[p]) % |t.buckets|]
      ensures forall b :: 0 <= b < |t.buckets| && p in t.buckets[b] ==>
        p in n.flows && FlowKey(n.hosts, n.flows[p]) % |t.buckets| == b
    {
      ShrunkPlaced(c, m, n, tab, t, removed, p);
    }
  }

  lemma RestMember(s: seq<Ptr>, t: seq<Ptr>, removed: seq<Ptr>, x: Ptr)
    requires KeepsRest(s, t, removed)
    ensures x in t <==> x in s && x !in removed
  {
  }

  lemma SweepFlowsSound(c: Config, s: State)
    requires Safe(c, s)
    ensures var t := SweepFlows(c, s);
      && Sound(t.mem) && !t.mem.warned && SameHosts(s.mem, t.mem)
      && t.mem.flows == s.mem.flows - SetOf(Swept(s.ftab, IdleFlows(c, s)))
  {
    hide Sound, HostTable, RefsAttached, Swept;
    FlowTableSeparate(c, s.mem, s.ftab);
    SweepSummary(s.ftab, IdleFlows(c, s));
    DeleteFlowsSound(s.mem, Swept(s.ftab, IdleFlows(c, s)));
  }

  /** Deleting flows never revives an idle host: with exact counts it has no references to lose. */
  lemma FewerRefs(c: Config, m: Mem, n: Mem, now: nat)
    requires Sound(m) && Sound(n) && SameHosts(m, n) && Light(m)
    requires forall p :: p in n.flows ==> p in m.flows && n.flows[p] == m.flows[p]
    ensures forall h :: h in m.hosts && HostIdle(c, now, m.hosts[h]) ==> HostIdle(c, now, n.hosts[h])
  {
    hide Conserved, NoDangling;
    forall h | h in m.hosts && HostIdle(c, now, m.hosts[h]) ensures HostIdle(c, now, n.hosts[h]) {
      ExactUses(m, h);
      RefsBounds(m.flows, h);
      TotalNone(n.flows, Refs, h);
    }
  }

  lemma SweepFlowsTabled(c: Config, s: State)
    requires Safe(c, s)
    ensures Tabled(c, SweepFlows(c, s)) && KeepsIds(s.mem, SweepFlows(c, s).mem)
    ensures KeepsRefs(s.mem, SweepFlows(c, s).mem)
  {
    hide Sound, FlowTable, HostTable, Swept, Sweep, RefsAttached, KeepsRefs, KeepsIds;
    var t := SweepFlows(c, s);
    SweepFlowsSound(c, s);
    SameHostsIds(s.mem, t.mem);
    IdsRefs(s.mem, t.mem);
    KeysFrame(s.mem, t.mem, s.htab);
    SweptFlowTable(c, s.mem, t.mem, s.ftab, IdleFlows(c, s));
    HostTableFrame(c, s.mem, t.mem, s.htab);
    FewerRefsAttached(s.mem, t.mem, s.htab);
  }

  lemma FlowsBounded(c: Config, s: State)
    requires Tabled(c, s)
    ensures |s.mem.flows| <= c.maxFlows
  {
  }

  lemma SweepFlowsGood(c: Config, s: State, u: bool)
    requires Good(c, s, u) && Light(s.mem)
    ensures Good(c, SweepFlows(c, s), u) && Light(SweepFlows(c, s).mem)
  {
    hide Sound, FlowTable, HostTable, Swept, Sweep, FlowsUnique, HostsUnique, RefsAttached, KeepsRefs, KeepsIds;
    var t := SweepFlows(c, s);
    SweepFlowsSound(c, s);
    SweepFlowsTabled(c, s);
    LightPart(s.mem, t.mem);
    if u {
      FewerRefs(c, s.mem, t.mem, s.now);
      FlowsShrink(c, s, t);
      HostsCalm(c, s, t);
    }
  }

  lemma SameHostsIds(m: Mem, n: Mem)
    requires SameHosts(m, n)
    ensures KeepsIds(m, n)
  {
  }

  lemma FewerRefsAttached(m: Mem, n: Mem, tab: Table<Ptr>)
    requires WellFormed(tab) && RefsAttached(m, tab) && KeepsIds(m, n)
    requires forall p :: p in n.flows ==> p in m.flows && n.flows[p] == m.flows[p]
    ensures RefsAttached(n, tab)
  {
    forall p, h | p in n.flows && RefersTo(n.flows[p], h) ensures Attached(n, tab, h) {
      assert Attached(m, tab, h);
    }
  }

  // ----- sweeping hosts -----

  /** An idle host whose counter shows what it counts is referred to by no flow at all. */
  lemma IdleUnreferenced(c: Config, m: Mem, now: nat, h: Ptr)
    requires Counted(m) && h in m.hosts && Total(m.flows, Refs, h) < TWO_16 && HostIdle(c, now, m.hosts[h])
    ensures Total(m.flows, Refs, h) == 0 && forall p :: p in m.flows ==> !RefersTo(m.flows[p], h)
  {
    ExactUses(m, h);
    RefsBounds(m.flows, h);
  }

  lemma SweepHostsSound(c: Config, s: State)
    requires Safe(c, s) && Light(s.mem)
    ensures var t, removed := SweepHosts(c, s), Swept(s.htab, IdleHosts(c, s));
      && Sound(t.mem) && !t.mem.warned && t.mem.flows == s.mem.flows
      && t.mem.hosts == s.mem.hosts - SetOf(removed)
      && forall p, h :: p in s.mem.flows && RefersTo(s.mem.flows[p], h) ==> h !in removed
  {
    hide Conserved, NoDangling, RefsAttached, Swept;
    var removed := Swept(s.htab, IdleHosts(c, s));
    HostTableSeparate(c, s.mem, s.htab);
    SweepSummary(s.htab, IdleHosts(c, s));
    forall h | h in removed
      ensures h in s.mem.hosts && Total(s.mem.flows, Refs, h) == 0
      ensures forall p :: p in s.mem.flows ==> !RefersTo(s.mem.flows[p], h)
    {
      IdleUnreferenced(c, s.mem, s.now, h);
    }
    DeleteHostsSound(s.mem, removed);
  }

  lemma SweptHostTable(c: Config, m: Mem, n: Mem, tab: Table<Ptr>, idle: Ptr -> bool)
    requires HostTable(c, m, tab) && WellFormed(tab)
    requires n.hosts == m.hosts - SetOf(Swept(tab, idle))
    ensures HostTable(c, n, Sweep(tab, idle))
  {
    hide NoDup, HostKey, Sweep, Swept;
    HostTableSeparate(c, m, tab);
    SweepSummary(tab, idle);
  }

  lemma SweptRefs(c: Config, m: Mem, n: Mem, tab: Table<Ptr>, idle: Ptr -> bool)
    requires HostTable(c, m, tab) && WellFormed(tab) && RefsAttached(m, tab) && n.flows == m.flows
    requires n.hosts == m.hosts - SetOf(Swept(tab, idle))
    requires forall p, h :: p in m.flows && RefersTo(m.flows[p], h) ==> h !in Swept(tab, idle)
    ensures RefsAttached(n, Sweep(tab, idle)) && KeepsRefs(m, n)
  {
    hide NoDup, HostKey, Sweep, Swept;
    HostTableSeparate(c, m, tab);
    SweepSummary(tab, idle);
    forall p, h | p in n.flows && RefersTo(n.flows[p], h) ensures Attached(n, Sweep(tab, idle), h) {
      assert Attached(m, tab, h);
    }
  }

  lemma SweptHostsUnique(c: Config, s: State, t: State)
    requires Shaped(s) && HostTable(c, s.mem, s.htab) && HostsUnique(c, s) && t.now == s.now
    requires t.htab == Sweep(s.htab, IdleHosts(c, s)) && WellFormed(t.htab)
    requires t.mem.hosts == s.mem.hosts - SetOf(Swept(s.htab, IdleHosts(c, s)))
    ensures HostsUnique(c, t)
  {
    hide NoDup, HostKey, Sweep, Swept;
    HostTableSeparate(c, s.mem, s.htab);
    SweepSummary(s.htab, IdleHosts(c, s));
    assert forall h :: Attached(t.mem, t.htab, h) ==> Attached(s.mem, s.htab, h);
    HostsShrink(c, s, t);
  }

  /** No sweep ever frees a host that a flow refers to. */
  lemma SweepHostsGood(c: Config, s: State, u: bool)
    requires Good(c, s, u) && Light(s.mem)
    ensures Good(c, SweepHosts(c, s), u) && Light(SweepHosts(c, s).mem)
  {
    hide Sound, FlowTable, HostTable, RefsAttached, Swept, Sweep, FlowsUnique, HostsUnique, NoDup, KeepsRefs;
    var t := SweepHosts(c, s);
    SweepHostsSound(c, s);
    LightPart(s.mem, t.mem);
    SweptHostTable(c, s.mem, t.mem, s.htab, IdleHosts(c, s));
    SweptRefs(c, s.mem, t.mem, s.htab, IdleHosts(c, s));
    KeysFrame(s.mem, t.mem, s.htab);
    FlowTableFrame(c, s.mem, t.mem, s.ftab);
    if u {
      FlowsShrink(c, s, t);
      SweptHostsUnique(c, s, t);
    }
  }

  // ----- purging -----

  lemma TimersGood(c: Config, s: State, nextFlow: nat, nextHost: nat, u: bool)
    requires Good(c, s, u)
    ensures Good(c, s.(nextFlow := nextFlow, nextHost := nextHost), u)
  {
    hide FlowTable, HostTable, RefsAttached, FlowsUnique, HostsUnique, Sound;
    CalmGood(c, s, s.(nextFlow := nextFlow, nextHost := nextHost), u);
  }

  lemma PurgeIdleGood(c: Config, s: State, when: nat, u: bool)
    requires Good(c, s, u) && Countable(c, s.mem) && (u && c.purge ==> s.now <= when < TWO_32)
    ensures Good(c, PurgeIdle(c, s, when), u) && Countable(c, PurgeIdle(c, s, when).mem)
  {
    hide Good, SweepFlows, SweepHosts, Light;
    if c.purge {
      var s1 := s.(now := when);
      TickGood(c, s, when, u);
      var s2 := PurgeFlows(c, s1);
      assert Good(c, s2, u) && Light(s2.mem) by {
        if s1.nextFlow == 0 {
          TimersGood(c, s1, s1.now + FLOW_PURGE_FREQUENCY, s1.nextHost, u);
        } else if s1.now >= s1.nextFlow {
          SweepFlowsGood(c, s1, u);
          TimersGood(c, SweepFlows(c, s1), s1.now + FLOW_PURGE_FREQUENCY, SweepFlows(c, s1).nextHost, u);
        }
      }
      if s2.nextHost == 0 {
        TimersGood(c, s2, s2.nextFlow, s2.now + HOST_PURGE_FREQUENCY, u);
      } else if s2.now >= s2.nextHost {
        SweepHostsGood(c, s2, u);
        TimersGood(c, SweepHosts(c, s2), SweepHosts(c, s2).nextFlow, s2.now + HOST_PURGE_FREQUENCY, u);
      }
    }
  }

  // ----- statistics -----

  /** Only hosts with a reference get credits from a flow, and those are not idle. */
  lemma UpdateGood(c: Config, s: State, p: Ptr, u: bool)
    requires Good(c, s, u) && (u ==> Countable(c, s.mem)) && p in s.mem.flows
    ensures Good(c, s.(mem := UpdateHostsStats(s.mem, p, s.now)), u)
    ensures Countable(c, s.mem) ==> Countable(c, UpdateHostsStats(s.mem, p, s.now))
    ensures UpdateHostsStats(s.mem, p, s.now).flows.Keys == s.mem.flows.Keys
  {
    hide FlowTable, HostTable, RefsAttached, FlowsUnique, HostsUnique, Conserved, NoDangling;
    var t := s.(mem := UpdateHostsStats(s.mem, p, s.now));
    UpdateHostsSound(s.mem, p, s.now);
    if c.purge && Light(s.mem) {
      LightEnds(s.mem, p, Snapshot(s.mem.flows[p]), t.mem);
    }
    if u {
      forall h | h in s.mem.hosts && HostLive(c, t, h) ensures HostLive(c, s, h) {
        if !HostLive(c, s, h) {
          IdleUnreferenced(c, s.mem, s.now, h);
        }
      }
    }
    CalmGood(c, s, t, u);
  }

  lemma {:induction false} UpdateAllGood(c: Config, s: State, ps: seq<Ptr>, u: bool)
    requires Good(c, s, u) && (u ==> Countable(c, s.mem)) && forall p :: p in ps ==> p in s.mem.flows
    ensures Good(c, s.(mem := UpdateAll(c, s.now, s.mem, ps)), u)
    ensures Countable(c, s.mem) ==> Countable(c, UpdateAll(c, s.now, s.mem, ps))
    decreases |ps|
  {
    hide Good, Countable;
    if ps != [] {
      var t := if FlowIdle(c, s.now, s.mem.flows[ps[0]]) then s else s.(mem := UpdateHostsStats(s.mem, ps[0], s.now));
      UpdateGood(c, s, ps[0], u);
      UpdateAllGood(c, t, ps[1..], u);
    }
  }

  lemma StatsGood(c: Config, s: State, u: bool)
    requires Good(c, s, u) && (u ==> Countable(c, s.mem))
    ensures Good(c, UpdateHostStats(c, s), u)
    ensures Countable(c, s.mem) ==> Countable(c, UpdateHostStats(c, s).mem)
  {
    hide Countable, Sound, HostTable, RefsAttached, Unique, NoDup;
    FlattenMembers(s.ftab.buckets);
    EntriesInMemory(c, s.mem, s.ftab, Flatten(s.ftab.buckets));
    UpdateAllGood(c, s, Flatten(s.ftab.buckets), u);
  }

  lemma DirectGood(c: Config, s: State, src: Ptr, dst: Ptr, d: Duplex, e: Duplex, u: bool)
    requires Good(c, s, u) && HostLive(c, s, src) && HostLive(c, s, dst)
    ensures Good(c, s.(mem := DirectCredit(DirectCredit(s.mem, src, d, s.now), dst, e, s.now)), u)
  {
    hide FlowTable, HostTable, RefsAttached, FlowsUnique, HostsUnique, Sound, DirectCredit;
    var m1 := DirectCredit(s.mem, src, d, s.now);
    var t := s.(mem := DirectCredit(m1, dst, e, s.now));
    DirectSound(s.mem, src, d, s.now);
    DirectSound(m1, dst, e, s.now);
    CalmGood(c, s, t, u);
  }

  // ----- cleanup -----

  lemma AllFlowsGone(c: Config, s: State)
    requires Safe(c, s)
    ensures var m := DeleteFlows(s.mem, Flatten(s.ftab.buckets));
      Sound(m) && !m.warned && m.flows == map[] && m.hosts.Keys == s.mem.hosts.Keys
  {
    hide Sound, FlowKey, HostTable, RefsAttached, NoDup, Size;
    var ps := Flatten(s.ftab.buckets);
    FlowTableSeparate(c, s.mem, s.ftab);
    FlowTableLists(c, s.mem, s.ftab);
    FlattenNoDup(s.ftab.buckets);
    EntriesInMemory(c, s.mem, s.ftab, ps);
    DeleteFlowsSound(s.mem, ps);
  }

  lemma CleanupSound(c: Config, s: State)
    requires Safe(c, s)
    ensures var m := CleanupAll(s).mem; Sound(m) && !m.warned && m.flows == map[]
  {
    hide Sound, HostKey, FlowTable, RefsAttached;
    var hs := Flatten(s.htab.buckets);
    AllFlowsGone(c, s);
    var m := DeleteFlows(s.mem, Flatten(s.ftab.buckets));
    HostTableSeparate(c, s.mem, s.htab);
    FlattenMembers(s.htab.buckets);
    FlattenNoDup(s.htab.buckets);
    forall h | h in hs ensures h in m.hosts && Total(m.flows, Refs, h) == 0 {
      TotalNone(m.flows, Refs, h);
    }
    DeleteHostsSound(m, hs);
  }

  /** Emptying the flows first leaves no reference behind when the hosts go. */
  lemma CleanupGood(c: Config, s: State, u: bool)
    requires Good(c, s, u)
    ensures Good(c, CleanupAll(s), u) && CleanupAll(s).mem.flows == map[]
  {
    hide Sound;
    CleanupSound(c, s);
    SizeZero(Emptied(s.ftab).buckets);
    SizeZero(Emptied(s.htab).buckets);
  }

  // ----- every step and every run -----

  lemma CountPacketGood(c: Config, g: Got, t: Tuple, len: nat, flags: bv8, u: bool)
    requires Good(c, g.s, u)
    requires g.flow.Some? ==> g.flow.value in g.s.mem.flows && (u ==> FlowLive(c, g.s, g.flow.value))
    ensures Good(c, CountPacket(g, t, len, flags), u) && CountPacket(g, t, len, flags).now == g.s.now
    ensures Countable(c, g.s.mem) ==> Countable(c, CountPacket(g, t, len, flags).mem)
  {
    hide Good, Light;
    if g.flow.Some? {
      var p := g.flow.value;
      var f := WithFlags(FlowIncStats(g.s.mem.flows[p], g.src2dst, len, g.s.now), t, flags);
      TouchGood(c, g.s, p, f, u);
      if Light(g.s.mem) {
        LightEnds(g.s.mem, p, f, CountPacket(g, t, len, flags).mem);
      }
    }
  }

  lemma CountRecordGood(c: Config, g: Got, t: Tuple, flags: bv8, into: Traffic, out: Traffic, last: nat, u: bool)
    requires Good(c, g.s, u)
    requires g.flow.Some? ==> g.flow.value in g.s.mem.flows && (u ==> FlowLive(c, g.s, g.flow.value))
    ensures Good(c, CountRecord(g, t, flags, into, out, last), u)
    ensures CountRecord(g, t, flags, into, out, last).now == g.s.now
    ensures Countable(c, g.s.mem) ==> Countable(c, CountRecord(g, t, flags, into, out, last).mem)
  {
    hide Good, Light;
    if g.flow.Some? {
      var p := g.flow.value;
      var f := AddFlowStats(WithFlags(g.s.mem.flows[p], t, flags), g.src2dst, into, out, last);
      TouchGood(c, g.s, p, f, u);
      if Light(g.s.mem) {
        LightEnds(g.s.mem, p, f, CountRecord(g, t, flags, into, out, last).mem);
      }
    }
  }

  lemma Layer2Good(c: Config, s: State, vlan: u16, srcMac: Mac, dstMac: Mac, len: nat, a: Alloc, u: bool)
    requires Good(c, s, u) && a.src !in s.mem.hosts && a.dst !in s.mem.hosts && a.src != a.dst
    ensures var (s1, src) := ObtainStation(c, s, vlan, srcMac, a.src);
      var (s2, dst) := ObtainStation(c, s1, vlan, dstMac, a.dst);
      var m1 := DirectCredit(s2.mem, src, Duplex(Traffic(1, len), NO_TRAFFIC), s.now);
      var m2 := DirectCredit(m1, dst, Duplex(NO_TRAFFIC, Traffic(1, len)), s.now);
      && Good(c, s2.(mem := m2), u) && s2.now == s.now
      && (Countable(c, s.mem) ==> Countable(c, m2))
  {
    hide Good, DirectCredit, ObtainStation, Countable;
    ObtainStationGood(c, s, vlan, srcMac, a.src, u);
    var (s1, src) := ObtainStation(c, s, vlan, srcMac, a.src);
    ObtainStationGood(c, s1, vlan, dstMac, a.dst, u);
    var (s2, dst) := ObtainStation(c, s1, vlan, dstMac, a.dst);
    DirectGood(c, s2, src, dst, Duplex(Traffic(1, len), NO_TRAFFIC), Duplex(NO_TRAFFIC, Traffic(1, len)), u);
    if Countable(c, s.mem) {
      GoodRefs(c, s, u);
      DirectFlows(DirectCredit(s2.mem, src, Duplex(Traffic(1, len), NO_TRAFFIC), s.now), dst,
        Duplex(NO_TRAFFIC, Traffic(1, len)), s.now);
      DirectFlows(s2.mem, src, Duplex(Traffic(1, len), NO_TRAFFIC), s.now);
      HostsCountable(c, s.mem, DirectCredit(DirectCredit(s2.mem, src, Duplex(Traffic(1, len), NO_TRAFFIC), s.now),
        dst, Duplex(NO_TRAFFIC, Traffic(1, len)), s.now));
    }
  }

  lemma GoodRefs(c: Config, s: State, u: bool)
    requires Good(c, s, u)
    ensures NoDangling(s.mem)
  {
    hide Tabled, Unique;
  }

  lemma DirectFlows(m: Mem, h: Ptr, d: Duplex, now: nat)
    ensures DirectCredit(m, h, d, now).flows == m.flows
  {
  }

  lemma UncrowdedCountable(c: Config, s: State)
    requires Uncrowded(c, s)
    ensures Countable(c, s.mem)
  {
  }

  /** New hosts are without references. */
  lemma HostsCountable(c: Config, m: Mem, n: Mem)
    requires Countable(c, m) && NoDangling(m) && n.flows == m.flows
    ensures Countable(c, n)
  {
    if c.purge {
      forall h | h in n.hosts ensures Total(n.flows, Refs, h) < TWO_16 {
        if h !in m.hosts {
          NewUnreferenced(m, h);
        }
      }
    }
  }

  lemma GoneCountable(c: Config, m: Mem)
    requires m.flows == map[]
    ensures Countable(c, m)
  {
  }

  /** Every step keeps safety, and uniqueness too unless something that may become idle is purged
      with a clock that goes back. */
  lemma StepGood(c: Config, s: State, e: Event, u: bool)
    requires Good(c, s, u) && Uncrowded(c, s) && Fresh(s, e) && (u && c.purge ==> Timely(s, e))
    ensures Good(c, Step(c, s, e), u) && Countable(c, Step(c, s, e).mem)
  {
    UncrowdedCountable(c, s);
    hide Good, Countable, Uncrowded, Fresh, Timely, Step;
    match e
    case Packet(_, _, _, _, _) => PacketGood(c, s, e, u);
    case Record(_, _, _, _, _, _, _) => RecordGood(c, s, e, u);
    case Layer2(_, _, _, _, _, _) => Layer2StepGood(c, s, e, u);
    case Housekeeping => WalkGood(c, s, e, u);
    case Cleanup => WalkGood(c, s, e, u);
    case _ => ClockGood(c, s, e, u);
  }

  lemma ClockGood(c: Config, s: State, e: Event, u: bool)
    requires e.Other? || e.Skipped? || e.Poll?
    requires Good(c, s, u) && Countable(c, s.mem) && (u && c.purge ==> Timely(s, e))
    ensures Good(c, Step(c, s, e), u) && Countable(c, Step(c, s, e).mem)
  {
    hide Good, PurgeIdle, Countable;
    match e
    case Other(ts) =>
      TickGood(c, s, ts, u);
      TimelyPurge(c, s.(now := ts), ts, u);
    case Skipped(ts) => TickGood(c, s, ts, u);
    case Poll(when) => PurgeIdleGood(c, s, when, u);
  }

  lemma WalkGood(c: Config, s: State, e: Event, u: bool)
    requires (e.Housekeeping? || e.Cleanup?) && Good(c, s, u) && Countable(c, s.mem)
    ensures Good(c, Step(c, s, e), u) && Countable(c, Step(c, s, e).mem)
  {
    hide Good, Countable, UpdateHostStats, CleanupAll;
    if e.Housekeeping? {
      StatsGood(c, s, u);
    } else {
      CleanupGood(c, s, u);
      GoneCountable(c, CleanupAll(s).mem);
    }
  }

  lemma TickUncrowded(c: Config, s: State, when: nat)
    requires Uncrowded(c, s)
    ensures Uncrowded(c, s.(now := when))
  {
  }

  lemma PacketGood(c: Config, s: State, e: Event, u: bool)
    requires e.Packet? && Good(c, s, u) && Uncrowded(c, s) && Fresh(s, e) && (u && c.purge ==> Timely(s, e))
    ensures Good(c, Step(c, s, e), u) && Countable(c, Step(c, s, e).mem)
  {
    hide Good, GetFlow, CountPacket, PurgeIdle, Countable, Uncrowded;
    var s0 := s.(now := e.ts);
    TickGood(c, s, e.ts, u);
    TickUncrowded(c, s, e.ts);
    GetFlowGood(c, s0, e.t, e.ts, e.ts, e.a, u);
    var g := GetFlow(c, s0, e.t, e.ts, e.ts, e.a);
    CountPacketGood(c, g, e.t, e.len, e.flags, u);
    TimelyPurge(c, CountPacket(g, e.t, e.len, e.flags), e.ts, u);
  }

  lemma RecordGood(c: Config, s: State, e: Event, u: bool)
    requires e.Record? && Good(c, s, u) && Uncrowded(c, s) && Fresh(s, e) && (u && c.purge ==> Timely(s, e))
    ensures Good(c, Step(c, s, e), u) && Countable(c, Step(c, s, e).mem)
  {
    hide Good, GetFlow, CountRecord, PurgeIdle, Countable, Uncrowded;
    var now := if e.last > s.now then e.last else s.now;
    TickGood(c, s, now, u);
    TickUncrowded(c, s, now);
    GetFlowGood(c, s.(now := now), e.t, e.first, e.last, e.a, u);
    var g := GetFlow(c, s.(now := now), e.t, e.first, e.last, e.a);
    CountRecordGood(c, g, e.t, e.flags, e.into, e.out, e.last, u);
    if g.flow.Some? {
      TimelyPurge(c, CountRecord(g, e.t, e.flags, e.into, e.out, e.last), e.last, u);
    }
  }

  lemma Layer2StepGood(c: Config, s: State, e: Event, u: bool)
    requires e.Layer2? && Good(c, s, u) && Uncrowded(c, s) && Fresh(s, e) && (u && c.purge ==> Timely(s, e))
    ensures Good(c, Step(c, s, e), u) && Countable(c, Step(c, s, e).mem)
  {
    UncrowdedCountable(c, s);
    TickGood(c, s, e.ts, u);
    hide Good, ObtainStation, DirectCredit, PurgeIdle, Countable, Uncrowded, Timely;
    Layer2Good(c, s.(now := e.ts), e.vlan, e.srcMac, e.dstMac, e.len, e.a, u);
    var (s1, src) := ObtainStation(c, s.(now := e.ts), e.vlan, e.srcMac, e.a.src);
    var (s2, dst) := ObtainStation(c, s1, e.vlan, e.dstMac, e.a.dst);
    var m1 := DirectCredit(s2.mem, src, Duplex(Traffic(1, e.len), NO_TRAFFIC), e.ts);
    TimelyPurge(c, s2.(mem := DirectCredit(m1, dst, Duplex(NO_TRAFFIC, Traffic(1, e.len)), e.ts)), e.ts, u);
  }

  lemma TimelyPurge(c: Config, s: State, when: nat, u: bool)
    requires Good(c, s, u) && Countable(c, s.mem) && (u && c.purge ==> s.now == when)
    ensures Good(c, PurgeIdle(c, s, when), u) && Countable(c, PurgeIdle(c, s, when).mem)
  {
    PurgeIdleGood(c, s, when, u);
  }

  lemma InitialGood(c: Config)
    requires c.flowBuckets > 0 && c.hostBuckets > 0
    ensures Good(c, Initial(c), true)
  {
    SizeZero(Initial(c).ftab.buckets);
    SizeZero(Initial(c).htab.buckets);
  }

  /** Before every step of the run, no host is crowded. */
  ghost predicate Manageable(c: Config, s: State, es: seq<Event>)
    requires Shaped(s)
    decreases |es|
  {
    es == [] || (Uncrowded(c, s) && Manageable(c, Step(c, s, es[0]), es[1..]))
  }

  /** The events come in order, where that matters. */
  predicate Orderly(c: Config, s: State, es: seq<Event>)
    requires Shaped(s)
  {
    c.purge ==> InOrder(c, s, es)
  }

  lemma {:induction false} RunGood(c: Config, s: State, es: seq<Event>, u: bool)
    requires Good(c, s, u) && Countable(c, s.mem) && Feasible(c, s, es) && Manageable(c, s, es)
    requires u ==> Orderly(c, s, es)
    ensures Good(c, Run(c, s, es), u) && Countable(c, Run(c, s, es).mem)
    decreases |es|
  {
    hide Good, Step, Uncrowded, Countable;
    if es != [] {
      StepGood(c, s, es[0], u);
      RunGood(c, Step(c, s, es[0]), es[1..], u);
    }
  }

  lemma {:induction false} RunSnoc(c: Config, s: State, es: seq<Event>, e: Event)
    requires Shaped(s)
    ensures Run(c, s, es + [e]) == Step(c, Run(c, s, es), e)
    ensures Feasible(c, s, es + [e]) <==> Feasible(c, s, es) && Fresh(Run(c, s, es), e)
    ensures InOrder(c, s, es + [e]) <==> InOrder(c, s, es) && Timely(Run(c, s, es), e)
    decreases |es|
  {
    hide Step, Fresh, Timely;
    if es == [] {
      assert es + [e] == [e] && [e][1..] == [];
    } else {
      assert (es + [e])[1..] == es[1..] + [e];
      RunSnoc(c, Step(c, s, es[0]), es[1..], e);
    }
  }

  ghost predicate ExactCounts(s: State) {
    forall h :: h in s.mem.hosts ==> s.mem.hosts[h].uses == Total(s.mem.flows, Refs, h)
  }

  lemma LightExact(s: State)
    requires Counted(s.mem) && Light(s.mem)
    ensures ExactCounts(s)
  {
    forall h | h in s.mem.hosts ensures s.mem.hosts[h].uses == Total(s.mem.flows, Refs, h) {
      ExactUses(s.mem, h);
    }
  }

  /** Whatever packets, records, sweeps and cleanups come in whatever order and at whatever times, as
      long as no host is crowded: no freed host is ever followed, freed twice or freed while in use;
      every host that a flow refers to is in the host table; use counters count modulo 2^16, exactly
      where entries are purged; tables agree with memory. */
  lemma ReachableSafe(c: Config, es: seq<Event>)
    requires c.flowBuckets > 0 && c.hostBuckets > 0
    requires Feasible(c, Initial(c), es) && Manageable(c, Initial(c), es)
    ensures var s := Run(c, Initial(c), es);
      && !s.mem.fault && !s.mem.warned && NoDangling(s.mem) && RefsAttached(s.mem, s.htab)
      && Counted(s.mem) && (c.purge ==> ExactCounts(s))
      && FlowTable(c, s.mem, s.ftab) && HostTable(c, s.mem, s.htab)
  {
    hide FlowTable, HostTable, RefsAttached, Conserved, Step, Unique, Manageable, Light, ExactCounts;
    InitialGood(c);
    GoneCountable(c, Initial(c).mem);
    RunGood(c, Initial(c), es, false);
    if c.purge {
      LightExact(Run(c, Initial(c), es));
    }
  }

  /** While times do not go back, or if nothing is ever purged, there is never more than one live flow
      per VLAN, protocol and unordered pair of endpoints, and never more than one live host per VLAN
      and address. */
  lemma ReachableUnique(c: Config, es: seq<Event>)
    requires c.flowBuckets > 0 && c.hostBuckets > 0
    requires Feasible(c, Initial(c), es) && Manageable(c, Initial(c), es) && Orderly(c, Initial(c), es)
    ensures FlowsUnique(c, Run(c, Initial(c), es)) && HostsUnique(c, Run(c, Initial(c), es))
  {
    hide Safe, FlowsUnique, HostsUnique, Step, Manageable, Countable;
    InitialGood(c);
    GoneCountable(c, Initial(c).mem);
    RunGood(c, Initial(c), es, true);
  }

  /** In every reachable state a host's counters are what the last snapshots of its present flows,
      those of its past flows and its direct credits add up to, less what updates dropped (all
      mod 2^64); and its protocols' parts add up to the total, less what is unknown. */
  lemma ReachableConserved(c: Config, es: seq<Event>, g: Gauge, h: Ptr)
    requires c.flowBuckets > 0 && c.hostBuckets > 0
    requires Feasible(c, Initial(c), es) && Manageable(c, Initial(c), es)
    requires g != Refs && h in Run(c, Initial(c), es).mem.hosts
    ensures var m := Run(c, Initial(c), es).mem; var s := m.hosts[h].stats;
      && (Read(g, s.all) - Total(m.flows, g, h) - Booked(m.log, g, h)) % TWO_64 == 0
      && (Read(g, s.all) - Read(g, s.tcp) - Read(g, s.udp) - Read(g, s.icmp) - Read(g, s.other)
          - Unknown(m.log, g, h)) % TWO_64 == 0
  {
    hide FlowTable, HostTable, RefsAttached, NoDangling, Counted, Step, Unique, Read, Booked, Unknown, Manageable,
      Countable;
    InitialGood(c);
    GoneCountable(c, Initial(c).mem);
    RunGood(c, Initial(c), es, false);
    var m := Run(c, Initial(c), es).mem;
    assert Balance(m, g, h) % TWO_64 == 0 && Unsplit(m, g, h) % TWO_64 == 0;
  }

  /** In every reachable state flow lookup agrees with a scan of the whole table, and its direction
      says which end the source is. */
  lemma ReachableLookup(c: Config, es: seq<Event>, t: Tuple)
    requires c.flowBuckets > 0 && c.hostBuckets > 0
    requires Feasible(c, Initial(c), es) && Manageable(c, Initial(c), es)
    ensures var s := Run(c, Initial(c), es);
      && (FindFlow(c, s, t).NotFound? <==> forall p :: FlowLive(c, s, p) ==> !Matches(s.mem.hosts, s.mem.flows[p], t))
      && (FindFlow(c, s, t).Found? ==>
           FlowLive(c, s, FindFlow(c, s, t).item) && Matches(s.mem.hosts, s.mem.flows[FindFlow(c, s, t).item], t))
      && (FindHost(c, s, t.vlan, t.src).NotFound? <==>
           forall h :: Attached(s.mem, s.htab, h) ==> !IsHost(c, s, h, t.vlan, t.src))
      && (FindStation(c, s, t.vlan, t.srcMac).NotFound? <==>
           forall h :: Attached(s.mem, s.htab, h) ==> !IsStation(c, s, h, t.vlan, t.srcMac))
  {
    hide Sound, RefsAttached, Step, Unique, FindFlow, FindHost, FindStation, Matches, Manageable, Countable;
    InitialGood(c);
    GoneCountable(c, Initial(c).mem);
    RunGood(c, Initial(c), es, false);
    var s := Run(c, Initial(c), es);
    FindFlowComplete(c, s, t);
    FindHostComplete(c, s, t.vlan, t.src);
    FindStationComplete(c, s, t.vlan, t.srcMac);
  }

  // ----- a table too small to crowd a host -----

  /** With so few flows no host can be crowded. */
  const MAX_SAFE_FLOWS: nat := 32767

  lemma SmallUncrowded(c: Config, s: State)
    requires Safe(c, s) && c.maxFlows <= MAX_SAFE_FLOWS
    ensures Uncrowded(c, s)
  {
    hide Sound, HostTable, RefsAttached;
    forall h | h in s.mem.hosts
      ensures Total(s.mem.flows, Refs, h) + (if |s.mem.flows| < c.maxFlows then 2 else 0) < TWO_16
    {
      RefsBounds(s.mem.flows, h);
    }
  }

  lemma {:induction false} SmallManageable(c: Config, s: State, es: seq<Event>)
    requires Good(c, s, false) && c.maxFlows <= MAX_SAFE_FLOWS && Feasible(c, s, es)
    ensures Manageable(c, s, es)
    decreases |es|
  {
    hide Step, Safe, Uncrowded, Countable;
    if es != [] {
      SmallUncrowded(c, s);
      StepGood(c, s, es[0], false);
      SmallManageable(c, Step(c, s, es[0]), es[1..]);
    }
  }

  /** So every run of a flow table of at most 32767 flows is safe, with exact use counters. */
  lemma SmallTableSafe(c: Config, es: seq<Event>)
    requires c.flowBuckets > 0 && c.hostBuckets > 0 && c.maxFlows <= MAX_SAFE_FLOWS
    requires Feasible(c, Initial(c), es)
    ensures Manageable(c, Initial(c), es)
    ensures var s := Run(c, Initial(c), es);
      && !s.mem.fault && !s.mem.warned && NoDangling(s.mem) && ExactCounts(s)
  {
    hide Step, Uncrowded, Manageable, Sound, Unique, FlowTable, HostTable, RefsAttached;
    InitialGood(c);
    SmallManageable(c, Initial(c), es);
    ReachableSafe(c, es);
    RunSafe(c, es);
    SmallLight(c, Run(c, Initial(c), es));
    LightExact(Run(c, Initial(c), es));
  }

  lemma RunSafe(c: Config, es: seq<Event>)
    requires c.flowBuckets > 0 && c.hostBuckets > 0
    requires Feasible(c, Initial(c), es) && Manageable(c, Initial(c), es)
    ensures Safe(c, Run(c, Initial(c), es)) && Countable(c, Run(c, Initial(c), es).mem)
  {
    hide Step, Uncrowded, Manageable, Countable, Sound, Unique, Tabled;
    InitialGood(c);
    GoneCountable(c, Initial(c).mem);
    RunGood(c, Initial(c), es, false);
  }

  lemma SmallLight(c: Config, s: State)
    requires Tabled(c, s) && c.maxFlows <= MAX_SAFE_FLOWS
    ensures Light(s.mem)
  {
    forall h | h in s.mem.hosts ensures Total(s.mem.flows, Refs, h) < TWO_16 {
      RefsBounds(s.mem.flows, h);
    }
  }

  // ----- whose traffic it is -----

  /** What the end (ip, port) of a flow has sent. */
  function SentBy(hosts: map<Ptr, Host>, f: Flow, ip: Ip, port: u16): Traffic {
    if HostIs(hosts, f.cli, ip) && f.cliPort == port then f.c2s else f.s2c
  }

  predicate SameEnd(t: Tuple) { Same(t.src, t.dst) && t.srcPort == t.dstPort }

  /** The flow getFlow returns is the tuple's, in one direction or the other; a new one runs from
      the tuple's source, if both hosts fitted. */
  lemma GotMatches(c: Config, s: State, t: Tuple, first: nat, last: nat, a: Alloc, u: bool)
    requires Good(c, s, u) && (u && c.purge ==> last == s.now)
    requires a.flow !in s.mem.flows && a.src !in s.mem.hosts && a.dst !in s.mem.hosts && a.src != a.dst
    ensures var g := GetFlow(c, s, t, first, last, a);
      g.flow.Some? && g.flow.value in g.s.mem.flows && BothKnown(g.s.mem.hosts, g.s.mem.flows[g.flow.value]) ==>
        var f := g.s.mem.flows[g.flow.value];
        Matches(g.s.mem.hosts, f, t) && (g.src2dst <==> Forward(g.s.mem.hosts, f, t))
  {
    hide Sound, FlowTable, HostTable, RefsAttached, Unique, FlowLive, OnlyHosts, FindFlow, FindFlowHosts, Size;
    FindFlowComplete(c, s, t);
    if FindFlow(c, s, t).NotFound? {
      var (s2, cli, srv) := FindFlowHosts(c, s, t, a);
      FlowHostsGood(c, s, t, a, u);
      SameFlows(s, s2);
      var f := FreshFlow(t, cli, srv, first, last);
      NoMatchStays(c, s, s2, t);
      NewFlowMayJoin(c, s2, t, cli, srv, first, last, a.flow, u);
      JoinFlowGood(c, s2, f, a.flow, u);
    }
  }

  /** A packet counts as sent by its source, whichever way round the flow was created. */
  lemma PacketAttributed(hosts: map<Ptr, Host>, f: Flow, t: Tuple, dir: bool, len: nat, now: nat)
    requires BothKnown(hosts, f) && Matches(hosts, f, t) && (dir <==> Forward(hosts, f, t))
    ensures var g := FlowIncStats(f, dir, len, now);
      && SentBy(hosts, g, t.src, t.srcPort) == AddCount(SentBy(hosts, f, t.src, t.srcPort), Traffic(1, len))
      && (!SameEnd(t) ==> SentBy(hosts, g, t.dst, t.dstPort) == SentBy(hosts, f, t.dst, t.dstPort))
  {
  }

  /** A record's own traffic counts as its source's and the reverse traffic as its destination's. */
  lemma RecordAttributed(hosts: map<Ptr, Host>, f: Flow, t: Tuple, dir: bool, into: Traffic, out: Traffic, when: nat)
    requires BothKnown(hosts, f) && Matches(hosts, f, t) && (dir <==> Forward(hosts, f, t)) && !SameEnd(t)
    ensures var g := AddFlowStats(f, dir, into, out, when);
      && SentBy(hosts, g, t.src, t.srcPort) == AddCount(SentBy(hosts, f, t.src, t.srcPort), into)
      && SentBy(hosts, g, t.dst, t.dstPort) == AddCount(SentBy(hosts, f, t.dst, t.dstPort), out)
  {
  }

  /** The sender-side statement for one packet and any state with sound tables: the packet ends up
      in the flow of its endpoints, on its sender's side. */
  lemma PacketCounted(c: Config, s: State, t: Tuple, len: nat, flags: bv8, a: Alloc)
    requires Good(c, s, true)
    requires a.flow !in s.mem.flows && a.src !in s.mem.hosts && a.dst !in s.mem.hosts && a.src != a.dst
    ensures var g := GetFlow(c, s, t, s.now, s.now, a);
      g.flow.Some? ==>
        var p := g.flow.value;
        && p in g.s.mem.flows && p in CountPacket(g, t, len, flags).mem.flows
        && var f, f', hosts := g.s.mem.flows[p], CountPacket(g, t, len, flags).mem.flows[p], g.s.mem.hosts;
           BothKnown(hosts, f) ==>
             && Matches(hosts, f', t)
             && SentBy(hosts, f', t.src, t.srcPort) == AddCount(SentBy(hosts, f, t.src, t.srcPort), Traffic(1, len))
             && (!SameEnd(t) ==> SentBy(hosts, f', t.dst, t.dstPort) == SentBy(hosts, f, t.dst, t.dstPort))
  {
    hide Good, GetFlow, Matches, Forward, SentBy, FlowIncStats;
    GetFlowGood(c, s, t, s.now, s.now, a, true);
    GotMatches(c, s, t, s.now, s.now, a, true);
    var g := GetFlow(c, s, t, s.now, s.now, a);
    if g.flow.Some? && BothKnown(g.s.mem.hosts, g.s.mem.flows[g.flow.value]) {
      var f, hosts := g.s.mem.flows[g.flow.value], g.s.mem.hosts;
      var f1 := FlowIncStats(f, g.src2dst, len, g.s.now);
      PacketAttributed(hosts, f, t, g.src2dst, len, g.s.now);
      CountingKeepsEnds(hosts, f, f1, t, len, g.src2dst, g.s.now);
      FlagsKeepEnds(hosts, f1, t, flags);
    }
  }

  lemma CountingKeepsEnds(hosts: map<Ptr, Host>, f: Flow, g: Flow, t: Tuple, len: nat, dir: bool, now: nat)
    requires g == FlowIncStats(f, dir, len, now)
    ensures Matches(hosts, g, t) == Matches(hosts, f, t)
  {
  }

  lemma FlagsKeepEnds(hosts: map<Ptr, Host>, f: Flow, t: Tuple, flags: bv8)
    ensures Matches(hosts, WithFlags(f, t, flags), t) == Matches(hosts, f, t)
    ensures SentBy(hosts, WithFlags(f, t, flags), t.src, t.srcPort) == SentBy(hosts, f, t.src, t.srcPort)
    ensures SentBy(hosts, WithFlags(f, t, flags), t.dst, t.dstPort) == SentBy(hosts, f, t.dst, t.dstPort)
  {
  }
}
