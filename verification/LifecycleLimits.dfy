/** Where the guarantees of LifecycleProof end: the 16-bit use counter and a clock set back. */
module LifecycleLimits {
  import opened Addresses
  import opened HashTable
  import opened Memory
  import opened Lifecycle
  import opened LifecycleProof
  import opened LifecycleEffects

  const ZERO_MAC: Mac := [0, 0, 0, 0, 0, 0]

  /** 0.0.3.232, whose key is 1000. */
  const SELF := Ip(4, 0xE803_0000, 0, 0, 0)

  /** A UDP packet from a host to itself; k chooses the pair of ports. */
  function SelfTuple(k: nat): Tuple
    requires k <= MAX_SAFE_FLOWS
  {
    Tuple(0, IPPROTO_UDP, ZERO_MAC, SELF, k, ZERO_MAC, SELF, 65535 - k)
  }

  function SelfAlloc(k: nat): Alloc {
    Alloc(k, if k == 0 then 0 else 1, 2)
  }

  function SelfPacket(k: nat, at: nat): Event
    requires k <= MAX_SAFE_FLOWS
  {
    Packet(at, SelfTuple(k), 0, 0, SelfAlloc(k))
  }

  predicate IsSelfFlow(f: Flow, k: nat, at: nat) {
    f.cli == Some(0) && f.srv == Some(0) && f.cliPort == k && f.srvPort == 65535 - k
    && f.vlan == 0 && f.proto == IPPROTO_UDP && f.lastSeen == at
  }

  /** After k packets that all came at one time: k flows at addresses 0 to k-1, all from the one host
      to itself; `due` is when the next sweeps are due. */
  ghost predicate SelfState(c: Config, s: State, k: nat, at: nat, due: nat) {
    && Good(c, s, true) && at < TWO_32 && (k > 0 ==> s.now == at)
    && (forall p: Ptr :: p in s.mem.flows <==> p < k) && |s.mem.flows| == k
    && (forall i :: 0 <= i < k ==> IsSelfFlow(s.mem.flows[i], i, at))
    && (if k == 0 then s.mem.hosts == map[] else
        && s.mem.hosts.Keys == {0} && s.mem.hosts[0].lastSeen == at
        && s.mem.hosts[0].id == IpIdentity(c, 0, ZERO_MAC, SELF))
    && at < due && (due == at + 1 ==> s.now <= at)
    && (c.purge ==> s.nextFlow == s.nextHost && (s.nextFlow == due || (k == 0 && s.nextFlow == 0 && due == at + 1)))
    && s.ftab.lastPurged == c.flowBuckets - 1 && s.htab.lastPurged == c.hostBuckets - 1
    && (k == 0 ==> Size(s.htab.buckets) == 0)
  }

  lemma NoSelfMatch(c: Config, s: State, k: nat, at: nat, due: nat)
    requires SelfState(c, s, k, at, due) && k <= MAX_SAFE_FLOWS
    ensures FindFlow(c, s, SelfTuple(k)).NotFound?
  {
    hide Sound, FlowTable, HostTable, RefsAttached, Unique;
    FindFlowComplete(c, s, SelfTuple(k));
  }

  /** A lookup in a table whose only host is live and has the address finds it. */
  lemma ObtainOnly(c: Config, s: State, h: Ptr)
    requires Shaped(s) && HostTable(c, s.mem, s.htab) && s.mem.hosts.Keys == {0} && Serves(c, s, 0, 0, SELF)
    ensures ObtainHost(c, s, 0, ZERO_MAC, SELF, h) == (s, Some(0))
  {
    hide HostTable, IsHost;
    FindHostComplete(c, s, 0, SELF);
  }

  lemma ObtainFirst(c: Config, s: State, at: nat, due: nat)
    requires SelfState(c, s, 0, at, due) && c.maxHosts > 0
    ensures ObtainHost(c, s, 0, ZERO_MAC, SELF, 0) == (InsertHost(s, 0, IpIdentity(c, 0, ZERO_MAC, SELF)), Some(0))
  {
    hide Sound, FlowTable, HostTable, RefsAttached, Unique;
    FindHostComplete(c, s, 0, SELF);
  }

  /** The host obtained is host 0, created for the first packet and found for the others. */
  lemma SelfHost(c: Config, s: State, k: nat, at: nat, due: nat)
    requires SelfState(c, s, k, at, due) && s.now == at && k <= MAX_SAFE_FLOWS && c.maxHosts > 0
    ensures var (t, cli, srv) := FindFlowHosts(c, s, SelfTuple(k), SelfAlloc(k));
      && cli == Some(0) && srv == Some(0) && t.mem.flows == s.mem.flows && t.mem.hosts.Keys == {0}
      && t.mem.hosts[0].lastSeen == at && t.mem.hosts[0].id == IpIdentity(c, 0, ZERO_MAC, SELF)
      && t.ftab == s.ftab && t.htab.lastPurged == s.htab.lastPurged
      && t.now == s.now && t.nextFlow == s.nextFlow && t.nextHost == s.nextHost
  {
    hide Sound, FlowTable, HostTable, Unique, FindHost, InsertHost, NoDup;
    if k > 0 {
      SelfAttached(c, s, k, at, due);
      ObtainOnly(c, s, SelfAlloc(k).src);
      ObtainOnly(c, s, SelfAlloc(k).dst);
    } else {
      ObtainFirst(c, s, at, due);
      var s1 := InsertHost(s, 0, IpIdentity(c, 0, ZERO_MAC, SELF));
      ObtainHostGood(c, s, 0, ZERO_MAC, SELF, 0, true);
      InsertedFirst(c, s, s1, at, due);
      ObtainOnly(c, s1, 2);
    }
  }

  lemma SelfAttached(c: Config, s: State, k: nat, at: nat, due: nat)
    requires SelfState(c, s, k, at, due) && 0 < k
    ensures Shaped(s) && HostTable(c, s.mem, s.htab) && Serves(c, s, 0, 0, SELF)
  {
    hide Sound, FlowTable, HostTable, Unique;
    assert IsSelfFlow(s.mem.flows[0], 0, at) && RefersTo(s.mem.flows[0], 0);
    assert Attached(s.mem, s.htab, 0);
  }

  lemma InsertedFirst(c: Config, s: State, t: State, at: nat, due: nat)
    requires SelfState(c, s, 0, at, due) && s.now == at
    requires t == InsertHost(s, 0, IpIdentity(c, 0, ZERO_MAC, SELF)) && Good(c, t, true)
    ensures Shaped(t) && HostTable(c, t.mem, t.htab) && t.mem.hosts.Keys == {0} && Serves(c, t, 0, 0, SELF)
    ensures t.mem.hosts[0].lastSeen == at && t.mem.hosts[0].id == IpIdentity(c, 0, ZERO_MAC, SELF)
    ensures t.mem.flows == s.mem.flows && t.ftab == s.ftab && t.htab.lastPurged == s.htab.lastPurged
      && t.now == s.now && t.nextFlow == s.nextFlow && t.nextHost == s.nextHost
  {
    hide Sound, FlowTable, HostTable, RefsAttached, Unique;
  }

  /** Where there is nothing, any time will do. */
  lemma EmptyTick(c: Config, s: State, when: nat)
    requires Good(c, s, true) && s.mem.flows == map[] && s.mem.hosts == map[] && when < TWO_32
    ensures Good(c, s.(now := when), true)
  {
    hide Sound, FlowTable, HostTable, RefsAttached;
  }

  lemma SelfTick(c: Config, s: State, k: nat, at: nat, due: nat)
    requires SelfState(c, s, k, at, due)
    ensures SelfState(c, s.(now := at), k, at, due)
  {
    hide Good, Size;
    if k == 0 {
      assert s.mem.flows == map[];
      EmptyTick(c, s, at);
    } else {
      assert s.(now := at) == s;
    }
  }

  lemma SelfStep(c: Config, s: State, k: nat, at: nat, due: nat)
    requires SelfState(c, s, k, at, due) && k <= MAX_SAFE_FLOWS && k < c.maxFlows && c.maxHosts > 0
    ensures Fresh(s, SelfPacket(k, at)) && SelfState(c, Step(c, s, SelfPacket(k, at)), k + 1, at, due)
  {
    hide SelfState, Step;
    SelfTick(c, s, k, at, due);
    SelfCount(c, s.(now := at), k, at, due);
    SelfParts(c, s, k, at, due);
    StepTick(c, s, SelfPacket(k, at));
  }

  lemma StepTick(c: Config, s: State, e: Event)
    requires Shaped(s) && e.Packet?
    ensures Step(c, s, e) == Step(c, s.(now := e.ts), e)
  {
    hide GetFlow, CountPacket, PurgeIdle;
  }

  /** What SelfState says of memory, timers and sizes. */
  lemma SelfParts(c: Config, s: State, k: nat, at: nat, due: nat)
    requires SelfState(c, s, k, at, due)
    ensures s.mem.hosts.Keys <= {0} && (k > 0 ==> s.mem.hosts.Keys == {0} && s.now == at) && Shaped(s)
    ensures forall p: Ptr :: p in s.mem.flows <==> p < k
    ensures forall i :: 0 <= i < k ==> IsSelfFlow(s.mem.flows[i], i, at)
    ensures k > 0 && c.purge ==> s.nextFlow == due == s.nextHost
    ensures |s.ftab.buckets| == c.flowBuckets && |s.htab.buckets| == c.hostBuckets && Size(s.ftab.buckets) == k
    ensures |s.mem.flows| == k && !s.mem.warned
  {
    hide Sound, RefsAttached, Unique, NoDup;
  }

  lemma SelfCount(c: Config, s: State, k: nat, at: nat, due: nat)
    requires SelfState(c, s, k, at, due) && s.now == at && k <= MAX_SAFE_FLOWS && k < c.maxFlows && c.maxHosts > 0
    ensures Fresh(s, SelfPacket(k, at)) && SelfState(c, Step(c, s, SelfPacket(k, at)), k + 1, at, due)
  {
    hide Sound, FlowTable, HostTable, RefsAttached, Unique, FindFlow, FindFlowHosts;
    hide Size, FlowKey, HostKey, HostIdle, NoDup, DeleteFlow, SweepFlows, SweepHosts, Forward;
    var t, a := SelfTuple(k), SelfAlloc(k);
    assert s.(now := at) == s;
    NoSelfMatch(c, s, k, at, due);
    SelfHost(c, s, k, at, due);
    GetFlowGood(c, s, t, at, at, a, true);
    var g := GetFlow(c, s, t, at, at, a);
    TableHasRoom(c, s);
    var s2 := CountPacket(g, t, 0, 0);
    CountPacketGood(c, g, t, 0, 0, true);
    var s3 := PurgeIdle(c, s2, at);
    assert s3 == s2.(now := at, nextFlow := s3.nextFlow, nextHost := s3.nextHost);
    TimersGood(c, s2, s3.nextFlow, s3.nextHost, true);
    assert s3.mem.flows == s.mem.flows[k := s3.mem.flows[k]];
  }

  lemma TableHasRoom(c: Config, s: State)
    requires FlowTable(c, s.mem, s.ftab)
    ensures Size(s.ftab.buckets) == |s.mem.flows|
  {
  }

  // ----- runs -----

  /** k such packets, from any time on. */
  lemma {:induction false} SelfRun(c: Config, k: nat, at: nat) returns (es: seq<Event>)
    requires c.flowBuckets > 0 && c.hostBuckets > 0 && c.maxHosts > 0 && at < TWO_32
    requires k <= MAX_SAFE_FLOWS + 1 && k <= c.maxFlows
    ensures Feasible(c, Initial(c), es) && InOrder(c, Initial(c), es)
    ensures SelfState(c, Run(c, Initial(c), es), k, at, at + 1)
  {
    hide SelfState, Step, Fresh, Timely;
    if k == 0 {
      es := [];
      InitialSelf(c, at);
    } else {
      es := SelfRun(c, k - 1, at);
      var s := Run(c, Initial(c), es);
      SelfStep(c, s, k - 1, at, at + 1);
      RunSnoc(c, Initial(c), es, SelfPacket(k - 1, at));
      SelfTimely(c, s, k - 1, at);
      es := es + [SelfPacket(k - 1, at)];
    }
  }

  lemma InitialSelf(c: Config, at: nat)
    requires c.flowBuckets > 0 && c.hostBuckets > 0 && at < TWO_32
    ensures SelfState(c, Initial(c), 0, at, at + 1)
  {
    hide Good;
    InitialGood(c);
    SizeZero(Initial(c).htab.buckets);
    assert forall p: Ptr :: p in Initial(c).mem.flows <==> p < 0;
  }

  lemma SelfTimely(c: Config, s: State, k: nat, at: nat)
    requires SelfState(c, s, k, at, at + 1) && k <= MAX_SAFE_FLOWS
    ensures Timely(s, SelfPacket(k, at))
  {
  }

  lemma {:induction false} SelfRefs(flows: map<Ptr, Flow>)
    requires forall p :: p in flows ==> flows[p].cli == Some(0) && flows[p].srv == Some(0)
    ensures Total(flows, Refs, 0) == 2 * |flows|
    decreases |flows|
  {
    if flows != map[] {
      var q := AnyOf(flows);
      SelfRefs(flows - {q});
      MapRemove(flows, q);
    }
  }

  /** After 32768 such packets the counter of a host with 65536 references reads zero. */
  lemma SelfWraps(c: Config, s: State, at: nat, due: nat)
    requires SelfState(c, s, MAX_SAFE_FLOWS + 1, at, due)
    ensures s.mem.hosts[0].uses == 0 && Total(s.mem.flows, Refs, 0) == TWO_16
  {
    hide Conserved, Tabled, Unique;
    assert forall p :: p in s.mem.flows ==> IsSelfFlow(s.mem.flows[p], p, at);
    SelfRefs(s.mem.flows);
  }

  /** For a host table of any size (at least one), use counters are exact in every reachable state
      if and only if the flow table cannot hold 32768 flows: the default of 131072 is too large. */
  lemma ExactCountsLimit(c: Config)
    requires c.flowBuckets > 0 && c.hostBuckets > 0 && c.maxHosts > 0
    ensures c.maxFlows <= MAX_SAFE_FLOWS <==>
      forall es :: Feasible(c, Initial(c), es) ==> ExactCounts(Run(c, Initial(c), es))
  {
    hide SelfState, Feasible, Run, ExactCounts, Manageable;
    if c.maxFlows <= MAX_SAFE_FLOWS {
      forall es | Feasible(c, Initial(c), es) ensures ExactCounts(Run(c, Initial(c), es)) {
        SmallTableSafe(c, es);
      }
    } else {
      var es := SelfRun(c, MAX_SAFE_FLOWS + 1, 0);
      NotExact(c, Run(c, Initial(c), es), 0, 1);
    }
  }

  lemma NotExact(c: Config, s: State, at: nat, due: nat)
    requires SelfState(c, s, MAX_SAFE_FLOWS + 1, at, due)
    ensures !ExactCounts(s)
  {
    SelfWraps(c, s, at, due);
  }

  // ----- what that does -----

  /** The key of every one of these flows. */
  const SELF_KEY: nat := 67552

  /** Flows and hosts are purged and there is room for these flows; their host may turn idle, and the
      first sweep comes to it but not to them. */
  predicate Exposed(c: Config) {
    && c.purge && c.maxFlows > MAX_SAFE_FLOWS && c.maxHosts > 0 && c.flowBuckets > 0 && c.hostBuckets > 0
    && !Pinned(c, IpIdentity(c, 0, ZERO_MAC, SELF))
    && 1000 % c.hostBuckets < Quota(c.hostBuckets) && SELF_KEY % c.flowBuckets >= Quota(c.flowBuckets)
  }

  /** When the host turns idle. */
  function Late(c: Config, at: nat): nat { at + (if c.isLocal(SELF) then c.localMaxIdle else c.remoteMaxIdle) + 1 }

  /** Default preferences; no local networks are configured. */
  function Defaults(): Config {
    Config(true, 131072, 131072, 32768, 32768, 60, 300, 60, NotSticky, ip => false, ip => false)
  }

  lemma DefaultsExposed()
    ensures Exposed(Defaults())
  {
  }

  /** The key of every one of these flows, and of their host. */
  lemma SelfKeys(c: Config, s: State, k: nat, p: Ptr, at: nat)
    requires SelfState(c, s, k, at, at + 1) && p < k
    ensures FlowKey(s.mem.hosts, s.mem.flows[p]) == SELF_KEY && HostKey(s.mem.hosts[0].id) == 1000
  {
    hide Good;
    assert IsSelfFlow(s.mem.flows[p], p, at);
    SelfKey();
  }

  lemma SelfKey()
    ensures Key(SELF) == 1000
  {
  }

  /** A sweep of a table that has nothing idle in its window deletes nothing. */
  lemma NothingSwept(tab: Table<Ptr>, idle: Ptr -> bool)
    requires WellFormed(tab)
    requires forall b, x :: 0 <= b < |tab.buckets| && x in tab.buckets[b] && idle(x) ==>
      Distance(tab.lastPurged, |tab.buckets|, b) >= Quota(|tab.buckets|)
    ensures Swept(tab, idle) == []
  {
    var q := Quota(|tab.buckets|);
    QuotaFits(|tab.buckets|);
    SweptMembers(tab, idle, q);
    if Swept(tab, idle) != [] {
      FirstIn(Swept(tab, idle));
    }
  }

  lemma FirstIn(s: seq<Ptr>)
    requires s != []
    ensures s[0] in s
  {
  }

  /** From any time on: when its time has passed the host looks idle and unused, and the sweep frees it,
      without a warning, while 32768 flows point to it: their bucket comes later. */
  lemma HostFreedInUse(c: Config, at: nat) returns (es: seq<Event>)
    requires Exposed(c) && Late(c, at) < TWO_32
    ensures Feasible(c, Initial(c), es) && InOrder(c, Initial(c), es)
    ensures var s := Run(c, Initial(c), es);
      !s.mem.warned && !NoDangling(s.mem) && |s.mem.flows| == 32768 && s.mem.hosts == map[]
  {
    hide SelfState, Step, NoDangling, Fresh, Exposed;
    assert c.flowBuckets > 0 && c.hostBuckets > 0 && c.maxHosts > 0 && c.maxFlows > MAX_SAFE_FLOWS by {
      ExposedRoom(c);
    }
    es := SelfRun(c, MAX_SAFE_FLOWS + 1, at);
    var s := Run(c, Initial(c), es);
    SelfParts(c, s, MAX_SAFE_FLOWS + 1, at, at + 1);
    SelfSwept(c, s, at);
    PollFresh(s, Late(c, at));
    RunSnoc(c, Initial(c), es, Poll(Late(c, at)));
    hide Run, Feasible, InOrder;
    es := es + [Poll(Late(c, at))];
  }

  lemma ExposedRoom(c: Config)
    requires Exposed(c)
    ensures c.flowBuckets > 0 && c.hostBuckets > 0 && c.maxHosts > 0 && c.maxFlows > MAX_SAFE_FLOWS
  {
  }

  lemma PollFresh(s: State, when: nat)
    requires s.now <= when < TWO_32
    ensures Fresh(s, Poll(when)) && Timely(s, Poll(when))
  {
  }

  lemma SelfSwept(c: Config, s: State, at: nat)
    requires Exposed(c) && SelfState(c, s, MAX_SAFE_FLOWS + 1, at, at + 1) && Late(c, at) < TWO_32
    ensures var t := Step(c, s, Poll(Late(c, at)));
      t.mem.flows == s.mem.flows && t.mem.hosts == map[] && t.mem.warned == s.mem.warned && !NoDangling(t.mem)
  {
    hide Sound, Unique, FlowTable, HostTable, RefsAttached, SweepHosts, Swept, Sweep, DeleteFlows, IdleFlows;
    var s1 := s.(now := Late(c, at));
    SelfFlowsStay(c, s, Late(c, at), at);
    var s2 := PurgeFlows(c, s1);
    SelfWraps(c, s, at, at + 1);
    SelfHostFreed(c, s, s2, at);
    assert IsSelfFlow(s.mem.flows[0], 0, at);
    var t := Step(c, s, Poll(Late(c, at)));
    assert 0 in t.mem.flows && RefersTo(t.mem.flows[0], 0) && 0 !in t.mem.hosts;
  }

  lemma SelfFlowsStay(c: Config, s: State, when: nat, at: nat)
    requires Exposed(c) && SelfState(c, s, MAX_SAFE_FLOWS + 1, at, at + 1)
    ensures SweepFlows(c, s.(now := when)).mem == s.mem
  {
    hide Sound, Unique, FlowKey, HostTable, RefsAttached, NoDup, Swept;
    var s1, n := s.(now := when), c.flowBuckets;
    forall b, x | 0 <= b < n && x in s.ftab.buckets[b] ensures Distance(n - 1, n, b) >= Quota(n) {
      assert x in s.mem.flows;
      SelfKeys(c, s, MAX_SAFE_FLOWS + 1, x, at);
    }
    NothingSwept(s1.ftab, IdleFlows(c, s1));
  }

  lemma SelfHostFreed(c: Config, s: State, s2: State, at: nat)
    requires Exposed(c) && SelfState(c, s, MAX_SAFE_FLOWS + 1, at, at + 1) && s.mem.hosts[0].uses == 0
    requires s2.mem == s.mem && s2.htab == s.htab && s2.now == Late(c, at) < TWO_32 && Shaped(s2)
    ensures SweepHosts(c, s2).mem == s.mem.(hosts := map[])
  {
    hide Sound, Unique, FlowTable, RefsAttached, HostKey, Swept, Sweep, SweepHosts;
    SelfAttached(c, s, MAX_SAFE_FLOWS + 1, at, at + 1);
    SelfKeys(c, s, MAX_SAFE_FLOWS + 1, 0, at);
    SweepsOnly(c, s2);
  }

  lemma SweepsOnly(c: Config, s: State)
    requires Shaped(s) && HostTable(c, s.mem, s.htab) && s.mem.hosts.Keys == {0}
    requires s.htab.lastPurged == c.hostBuckets - 1 && HostIdle(c, s.now, s.mem.hosts[0])
    requires var b := HostKey(s.mem.hosts[0].id) % c.hostBuckets; b < Quota(c.hostBuckets) && 0 in s.htab.buckets[b]
    ensures SweepHosts(c, s).mem == s.mem.(hosts := map[])
  {
    hide HostKey, NoDup;
    var removed := Swept(s.htab, IdleHosts(c, s));
    HostTableSeparate(c, s.mem, s.htab);
    SweepSummary(s.htab, IdleHosts(c, s));
    QuotaFits(c.hostBuckets);
    SweptMembers(s.htab, IdleHosts(c, s), Quota(c.hostBuckets));
    assert 0 in removed;
    assert forall x :: x in removed ==> x == 0;
    OnlyOne(removed);
    assert DeleteHosts(s.mem, [0]) == DeleteHost(s.mem, 0) by {
      assert [0][1..] == [];
    }
    assert s.mem.hosts - {0} == map[];
  }

  lemma SecondIn(ps: seq<Ptr>)
    requires |ps| > 1 && NoDup(ps)
    ensures ps[1] in ps && ps[1] != ps[0]
  {
  }

  lemma OnlyOne(ps: seq<Ptr>)
    requires NoDup(ps) && 0 in ps && forall x :: x in ps ==> x == 0
    ensures ps == [0]
  {
    FirstIn(ps);
    if |ps| > 1 {
      SecondIn(ps);
    }
  }

  // ----- a clock set back -----

  /** A flow table that holds one flow, or whose hosts find no room, cannot hold two alike. */
  lemma TooFewFlows(c: Config, s: State)
    requires Safe(c, s) && (c.maxFlows < 2 || c.maxHosts == 0)
    ensures FlowsUnique(c, s)
  {
    hide Sound, SameFlow, Tabled;
    if c.maxFlows < 2 {
      FlowsBounded(c, s);
      forall p, q | p in s.mem.flows && q in s.mem.flows ensures p == q {
        AtMostOne(s.mem.flows, p, q);
      }
    } else {
      forall p, q | p in s.mem.flows && q in s.mem.flows
        ensures !SameFlow(s.mem.hosts, s.mem.flows[p], s.mem.flows[q])
      {
        forall h ensures !RefersTo(s.mem.flows[p], h) {
          NoneAttached(c, s, h);
        }
        NoHostsNoLikeness(s.mem, s.mem.flows[p], s.mem.flows[q]);
      }
    }
  }

  lemma AtMostOne(flows: map<Ptr, Flow>, p: Ptr, q: Ptr)
    requires |flows| < 2 && p in flows && q in flows
    ensures p == q
  {
    if p != q {
      MapRemove(flows, p);
      MapRemove(flows - {p}, q);
    }
  }

  lemma NoneAttached(c: Config, s: State, h: Ptr)
    requires Tabled(c, s) && c.maxHosts == 0
    ensures forall p :: p in s.mem.flows ==> !RefersTo(s.mem.flows[p], h)
  {
    forall p | p in s.mem.flows && RefersTo(s.mem.flows[p], h) ensures false {
      assert Attached(s.mem, s.htab, h);
      SizeAtLeast(s.htab.buckets, HostKey(s.mem.hosts[h].id) % |s.htab.buckets|);
    }
  }

  lemma NoHostsNoLikeness(m: Mem, f: Flow, g: Flow)
    requires forall h :: !RefersTo(f, h)
    ensures !SameFlow(m.hosts, f, g)
  {
    assert f.cli.Some? ==> RefersTo(f, f.cli.value);
  }

  /** Without hosts no host is crowded. */
  lemma {:induction false} HostlessManageable(c: Config, s: State, es: seq<Event>)
    requires Good(c, s, false) && c.maxHosts == 0 && Feasible(c, s, es)
    ensures Manageable(c, s, es)
    decreases |es|
  {
    hide Step, Safe, Uncrowded, Countable;
    if es != [] {
      HostlessUncrowded(c, s);
      StepGood(c, s, es[0], false);
      HostlessManageable(c, Step(c, s, es[0]), es[1..]);
    }
  }

  lemma HostlessUncrowded(c: Config, s: State)
    requires Safe(c, s) && c.maxHosts == 0
    ensures Uncrowded(c, s)
  {
    hide Sound, Tabled;
    forall h | h in s.mem.hosts ensures Total(s.mem.flows, Refs, h) == 0 {
      NoneAttached(c, s, h);
      TotalNone(s.mem.flows, Refs, h);
    }
  }

  /** The first poll puts off all sweeps. */
  lemma LateStart(c: Config, at: nat, late: nat)
    requires c.flowBuckets > 0 && c.hostBuckets > 0 && c.purge && at <= late < TWO_32
    ensures SelfState(c, Step(c, Initial(c), Poll(late)), 0, at, late + 1)
  {
    hide Good, Size;
    InitialSelf(c, at);
    var s := Initial(c);
    EmptyTick(c, s, late);
    TimersGood(c, s.(now := late), late + 1, late + 1, true);
  }

  /** The same packet, when the first one's flow has become idle. */
  function AgainPacket(c: Config, at: nat): Event { Packet(at + c.flowMaxIdle + 1, SelfTuple(0), 0, 0, Alloc(1, 1, 2)) }

  /** A record of the same endpoints that ended when the first packet came, and counts nothing. */
  function OldRecord(at: nat): Event { Record(at, at, SelfTuple(0), 0, NO_TRAFFIC, NO_TRAFFIC, Alloc(2, 1, 2)) }

  /** Two flows of the one host, the first last seen long ago, the second now; no sweep is due. */
  ghost predicate TwoFlows(c: Config, s: State, at: nat, second: nat, due: nat) {
    && Good(c, s, false) && s.now == at + c.flowMaxIdle + 1 < due && s.nextFlow == due == s.nextHost
    && s.mem.flows.Keys == {0, 1} && s.mem.hosts.Keys == {0}
    && IsSelfFlow(s.mem.flows[0], 0, at) && IsSelfFlow(s.mem.flows[1], 0, second)
    && s.mem.hosts[0].id == IpIdentity(c, 0, ZERO_MAC, SELF)
  }

  lemma SecondLookup(c: Config, s: State, at: nat, due: nat)
    requires SelfState(c, s, 1, at, due) && c.purge && s.now == at
    requires at + c.flowMaxIdle + 1 < TWO_32
    ensures var s1 := s.(now := at + c.flowMaxIdle + 1);
      && FindFlow(c, s1, SelfTuple(0)).NotFound?
      && Shaped(s1) && HostTable(c, s1.mem, s1.htab) && Serves(c, s1, 0, 0, SELF)
  {
    hide Sound, FlowTable, HostTable, Unique, RefsAttached, HostIdle, FindFlow, NoDup, Size, FlowKey, HostKey;
    var s1 := s.(now := at + c.flowMaxIdle + 1);
    assert IsSelfFlow(s.mem.flows[0], 0, at);
    SelfUses(c, s, at, due);
    InUse(c, s1.now, s.mem.hosts[0]);
    SelfAttached(c, s, 1, at, due);
    FindFlowComplete(c, s1, SelfTuple(0));
  }

  lemma SelfUses(c: Config, s: State, at: nat, due: nat)
    requires SelfState(c, s, 1, at, due)
    ensures s.mem.hosts[0].uses == 2
  {
    hide Conserved, Tabled, Unique;
    assert IsSelfFlow(s.mem.flows[0], 0, at);
    SelfRefs(s.mem.flows);
  }

  lemma InUse(c: Config, now: nat, h: Host)
    requires h.uses > 0
    ensures !HostIdle(c, now, h)
  {
  }

  lemma SecondHosts(c: Config, s: State, at: nat, due: nat)
    requires SelfState(c, s, 1, at, due) && c.purge && s.now == at
    requires at + c.flowMaxIdle + 1 < TWO_32
    ensures var s1 := s.(now := at + c.flowMaxIdle + 1);
      Shaped(s1) && FindFlowHosts(c, s1, SelfTuple(0), Alloc(1, 1, 2)) == (s1, Some(0), Some(0))
  {
    hide SelfState, Good, FindFlow, ObtainHost, Serves, HostTable;
    SecondLookup(c, s, at, due);
    SelfParts(c, s, 1, at, due);
    var s1 := s.(now := at + c.flowMaxIdle + 1);
    ObtainOnly(c, s1, 1);
    ObtainOnly(c, s1, 2);
  }

  lemma SelfGood(c: Config, s: State, at: nat, due: nat)
    requires SelfState(c, s, 1, at, due)
    ensures Good(c, s, false) && s.mem.hosts[0].id == IpIdentity(c, 0, ZERO_MAC, SELF)
  {
    hide Tabled, Sound, Unique;
  }

  lemma JoinSelf(c: Config, s: State, f: Flow, p: Ptr)
    requires Shaped(s) && Size(s.ftab.buckets) < c.maxFlows && 0 in s.mem.hosts && f.cli == Some(0) && f.srv == Some(0)
    ensures var g := JoinFlow(c, s, f, p);
      && g.flow == Some(p) && g.s.mem.flows == s.mem.flows[p := f] && g.s.mem.hosts.Keys == s.mem.hosts.Keys
      && g.s.mem.hosts[0].id == s.mem.hosts[0].id
      && g.s.now == s.now && g.s.nextFlow == s.nextFlow && g.s.nextHost == s.nextHost
  {
    hide Size, FlowKey, DeleteFlow;
  }

  lemma SelfRoom(c: Config, s: State, at: nat, due: nat)
    requires SelfState(c, s, 1, at, due)
    ensures Size(s.ftab.buckets) == 1
  {
    hide Sound, HostTable, RefsAttached, Unique, Size;
    TableHasRoom(c, s);
  }

  lemma GotJoined(c: Config, s: State, t: Tuple, first: nat, last: nat, a: Alloc, cli: Option<Ptr>, srv: Option<Ptr>)
    requires Shaped(s) && FindFlow(c, s, t).NotFound? && FindFlowHosts(c, s, t, a) == (s, cli, srv)
    ensures GetFlow(c, s, t, first, last, a) == JoinFlow(c, s, FreshFlow(t, cli, srv, first, last), a.flow)
  {
    hide FindFlow, FindFlowHosts, JoinFlow, Forward;
  }

  lemma SelfEnds(t: Tuple, now: nat)
    ensures FreshFlow(t, Some(0), Some(0), now, now).cli == Some(0) == FreshFlow(t, Some(0), Some(0), now, now).srv
  {
  }

  /** A second flow f of the one host, at address 1. */
  ghost predicate IsSecond(c: Config, s: State, g: Got, f: Flow, now: nat) {
    && g.flow == Some(1) && g.s.mem.flows == s.mem.flows[1 := f] && g.s.mem.hosts.Keys == {0}
    && g.s.mem.hosts[0].id == IpIdentity(c, 0, ZERO_MAC, SELF) && Good(c, g.s, false)
    && g.s.now == now && g.s.nextFlow == s.nextFlow && g.s.nextHost == s.nextHost
  }

  lemma SecondGot(c: Config, s: State, at: nat, due: nat)
    requires Shaped(s) && SelfState(c, s, 1, at, due) && c.purge && s.now == at && c.maxFlows >= 2
    requires at + c.flowMaxIdle + 1 < TWO_32 && at + c.flowMaxIdle + 1 < due
    ensures var now := at + c.flowMaxIdle + 1;
      IsSecond(c, s, GetFlow(c, s.(now := now), SelfTuple(0), now, now, Alloc(1, 1, 2)),
        FreshFlow(SelfTuple(0), Some(0), Some(0), now, now), now)
  {
    hide SelfState, Good, FindFlow, FindFlowHosts, HostTable, Serves, FlowTable, JoinFlow, GetFlow, Size, FreshFlow;
    hide RefsAttached, Sound, Uncrowded, Countable, FlowLive;
    var now := at + c.flowMaxIdle + 1;
    var s1, f := s.(now := now), FreshFlow(SelfTuple(0), Some(0), Some(0), now, now);
    SelfGood(c, s, at, due);
    SelfParts(c, s, 1, at, due);
    SecondLookup(c, s, at, due);
    SecondHosts(c, s, at, due);
    TickGood(c, s, now, false);
    GetFlowGood(c, s1, SelfTuple(0), now, now, Alloc(1, 1, 2), false);
    SelfRoom(c, s, at, due);
    GotJoined(c, s1, SelfTuple(0), now, now, Alloc(1, 1, 2), Some(0), Some(0));
    SelfEnds(SelfTuple(0), now);
    JoinSelf(c, s1, f, 1);
  }

  /** The second packet finds the first flow idle and gets a flow of its own. */
  lemma SecondFlow(c: Config, s: State, at: nat, due: nat)
    requires SelfState(c, s, 1, at, due) && c.purge && s.now == at && c.maxFlows >= 2
    requires at + c.flowMaxIdle + 1 < TWO_32 && at + c.flowMaxIdle + 1 < due
    ensures Fresh(s, AgainPacket(c, at))
    ensures TwoFlows(c, Step(c, s, AgainPacket(c, at)), at, at + c.flowMaxIdle + 1, due)
  {
    hide SelfState, Good, GetFlow, SweepFlows, SweepHosts;
    var now := at + c.flowMaxIdle + 1;
    SelfParts(c, s, 1, at, due);
    SecondGot(c, s, at, due);
    var g := GetFlow(c, s.(now := now), SelfTuple(0), now, now, Alloc(1, 1, 2));
    CountPacketGood(c, g, SelfTuple(0), 0, 0, false);
    var s2 := CountPacket(g, SelfTuple(0), 0, 0);
    assert s2.(now := now) == s2;
    assert PurgeIdle(c, s2, now) == s2;
  }

  /** The record finds the second flow, and takes the clock and that flow back to its own end. */
  lemma RecordBack(c: Config, s: State, at: nat, due: nat)
    requires TwoFlows(c, s, at, at + c.flowMaxIdle + 1, due) && c.purge && at + c.flowMaxIdle + 1 < TWO_32
    ensures Fresh(s, OldRecord(at))
    ensures !FlowsUnique(c, Step(c, s, OldRecord(at)))
  {
    hide Good, FindFlow, FlowKey, Size;
    var e, t := OldRecord(at), SelfTuple(0);
    assert s.(now := if at > s.now then at else s.now) == s;
    LiveMatch(c, s, at, due);
    var g := GetFlow(c, s, t, at, at, e.a);
    assert g.flow == Some(1) && g.s == s;
    var s2 := CountRecord(g, t, 0, NO_TRAFFIC, NO_TRAFFIC, at);
    var v := PurgeIdle(c, s2, at);
    assert v == s2.(now := at);
    assert FlowLive(c, v, 0) && FlowLive(c, v, 1);
    assert SameFlow(v.mem.hosts, v.mem.flows[0], v.mem.flows[1]);
  }

  lemma LiveMatch(c: Config, s: State, at: nat, due: nat)
    requires TwoFlows(c, s, at, at + c.flowMaxIdle + 1, due) && c.purge && at + c.flowMaxIdle + 1 < TWO_32
    ensures Shaped(s) && FindFlow(c, s, SelfTuple(0)) == Found(1)
  {
    hide Sound, HostTable, RefsAttached, Unique, FlowTable, FindFlow;
    FindFlowComplete(c, s, SelfTuple(0));
    assert Matches(s.mem.hosts, s.mem.flows[1], SelfTuple(0)) && FlowLive(c, s, 1);
    assert !FlowLive(c, s, 0);
  }

  /** For every configuration and any time: a first poll that puts off the sweeps, a packet, the same
      packet when its flow has become idle, and a flow record that ended when the first packet came. */
  lemma ClockSetBack(c: Config, at: nat) returns (es: seq<Event>)
    requires c.flowBuckets > 0 && c.hostBuckets > 0 && c.purge && c.maxFlows >= 2 && c.maxHosts > 0
    requires at + c.flowMaxIdle + 1 < TWO_32
    ensures Feasible(c, Initial(c), es) && !FlowsUnique(c, Run(c, Initial(c), es))
  {
    hide SelfState, Step, Feasible, Run, FlowsUnique, TwoFlows;
    var late := at + c.flowMaxIdle + 1;
    es := [Poll(late)];
    LateStart(c, at, late);
    RunOne(c, Poll(late));
    var s := Run(c, Initial(c), es);
    SelfStep(c, s, 0, at, late + 1);
    RunSnoc(c, Initial(c), es, SelfPacket(0, at));
    es := es + [SelfPacket(0, at)];
    s := Run(c, Initial(c), es);
    SelfParts(c, s, 1, at, late + 1);
    SecondFlow(c, s, at, late + 1);
    RunSnoc(c, Initial(c), es, AgainPacket(c, at));
    es := es + [AgainPacket(c, at)];
    s := Run(c, Initial(c), es);
    RecordBack(c, s, at, late + 1);
    RunSnoc(c, Initial(c), es, OldRecord(at));
    es := es + [OldRecord(at)];
  }

  lemma RunOne(c: Config, e: Event)
    requires c.flowBuckets > 0 && c.hostBuckets > 0 && e.Poll?
    ensures Run(c, Initial(c), [e]) == Step(c, Initial(c), e) && Feasible(c, Initial(c), [e])
  {
    hide Step;
    assert [e][1..] == [];
  }

  /** Over all runs, at any times, the flow table never holds two live flows of the same endpoints if
      and only if nothing is ever purged, or the tables are too small to hold two such flows. */
  lemma UniqueAtAnyTimes(c: Config)
    requires c.flowBuckets > 0 && c.hostBuckets > 0
    ensures (forall es :: Feasible(c, Initial(c), es) ==> FlowsUnique(c, Run(c, Initial(c), es))) <==>
      !c.purge || c.maxFlows < 2 || c.maxHosts == 0
  {
    hide Feasible, Run, FlowsUnique, Manageable;
    if !c.purge || c.maxFlows < 2 || c.maxHosts == 0 {
      forall es | Feasible(c, Initial(c), es) ensures FlowsUnique(c, Run(c, Initial(c), es)) {
        UniqueAnyway(c, es);
      }
    } else {
      var es := ClockSetBack(c, 0);
    }
  }

  lemma UniqueAnyway(c: Config, es: seq<Event>)
    requires c.flowBuckets > 0 && c.hostBuckets > 0 && Feasible(c, Initial(c), es)
    requires !c.purge || c.maxFlows < 2 || c.maxHosts == 0
    ensures FlowsUnique(c, Run(c, Initial(c), es))
  {
    hide FlowsUnique, Safe, Step, Run, Feasible, Manageable;
    InitialGood(c);
    if !c.purge {
      CalmManageable(c, Initial(c), es);
      ReachableUnique(c, es);
    } else {
      if c.maxHosts == 0 {
        HostlessManageable(c, Initial(c), es);
      } else {
        SmallManageable(c, Initial(c), es);
      }
      RunSafe(c, es);
      TooFewFlows(c, Run(c, Initial(c), es));
    }
  }

  lemma {:induction false} CalmManageable(c: Config, s: State, es: seq<Event>)
    requires Shaped(s) && !c.purge
    ensures Manageable(c, s, es)
    decreases |es|
  {
    hide Step;
    if es != [] {
      CalmManageable(c, Step(c, s, es[0]), es[1..]);
    }
  }

  // ----- where no host is ever freed in use -----

  /** No sweep ever frees a host. */
  predicate NoHostSwept(c: Config) { !c.purge || c.hostBuckets < PURGE_FRACTION || c.stickiness == AllSticky }

  lemma NoSwept(c: Config, s: State)
    requires Shaped(s) && NoHostSwept(c) && c.purge && |s.htab.buckets| == c.hostBuckets
    ensures Swept(s.htab, IdleHosts(c, s)) == []
  {
    NothingSwept(s.htab, IdleHosts(c, s));
  }

  lemma SweepNoHosts(c: Config, s: State)
    requires Safe(c, s) && NoHostSwept(c) && c.purge
    ensures Safe(c, SweepHosts(c, s))
  {
    hide Sound, FlowTable, RefsAttached, Swept, Sweep, NoDup, HostKey, KeepsRefs;
    NoSwept(c, s);
    var t := SweepHosts(c, s);
    assert t.mem == s.mem;
    assert s.mem.hosts - SetOf([]) == s.mem.hosts;
    SweptHostTable(c, s.mem, t.mem, s.htab, IdleHosts(c, s));
    SweptRefs(c, s.mem, t.mem, s.htab, IdleHosts(c, s));
    FlowTableFrame(c, s.mem, t.mem, s.ftab);
  }

  lemma SweepFlowsSafe(c: Config, s: State)
    requires Safe(c, s)
    ensures Safe(c, SweepFlows(c, s))
  {
    SweepFlowsTabled(c, s);
    SweepFlowsSound(c, s);
    hide Tabled, Sound, KeepsRefs, KeepsIds, SweepFlows;
  }

  /** Safety says nothing of clock and timers. */
  lemma SafeTimes(c: Config, s: State, now: nat, nextFlow: nat, nextHost: nat)
    requires Safe(c, s)
    ensures Safe(c, s.(now := now, nextFlow := nextFlow, nextHost := nextHost))
  {
    hide FlowTable, HostTable, RefsAttached, Sound;
  }

  lemma PurgeSafe(c: Config, s: State, when: nat)
    requires Safe(c, s) && NoHostSwept(c)
    ensures Safe(c, PurgeIdle(c, s, when))
  {
    hide Tabled, Sound, SweepFlows, SweepHosts;
    SafeShape(c, s);
    if c.purge {
      var s1 := s.(now := when);
      SafeTimes(c, s, when, s.nextFlow, s.nextHost);
      var s2 := PurgeFlows(c, s1);
      SweepFlowsSafe(c, s1);
      SafeTimes(c, s1, when, s2.nextFlow, s2.nextHost);
      SafeTimes(c, SweepFlows(c, s1), s2.now, s2.nextFlow, s2.nextHost);
      assert Safe(c, s2);
      var s3 := PurgeHosts(c, s2);
      SweepNoHosts(c, s2);
      SafeTimes(c, s2, s3.now, s3.nextFlow, s3.nextHost);
      SafeTimes(c, SweepHosts(c, s2), s3.now, s3.nextFlow, s3.nextHost);
    }
  }

  lemma SafeShape(c: Config, s: State)
    requires Safe(c, s)
    ensures Shaped(s)
  {
    hide FlowTable, HostTable, RefsAttached, Sound;
  }

  lemma GoodIsSafe(c: Config, s: State)
    ensures Good(c, s, false) <==> Safe(c, s)
  {
    hide Safe, Unique;
  }

  lemma StepSafe(c: Config, s: State, e: Event)
    requires Good(c, s, false) && Fresh(s, e) && NoHostSwept(c)
    ensures Good(c, Step(c, s, e), false)
  {
    hide Good, GetFlow, CountPacket, CountRecord, PurgeIdle, DirectCredit, ObtainStation, UpdateHostStats, CleanupAll;
    hide Safe, NoHostSwept, Countable, Uncrowded;
    match e {
      case Packet(ts, t, len, flags, a) =>
        TickGood(c, s, ts, false);
        GetFlowGood(c, s.(now := ts), t, ts, ts, a, false);
        CountPacketGood(c, GetFlow(c, s.(now := ts), t, ts, ts, a), t, len, flags, false);
        PurgeKeepsSafe(c, CountPacket(GetFlow(c, s.(now := ts), t, ts, ts, a), t, len, flags), ts);
      case Record(first, last, t, flags, into, out, a) =>
        var s0 := s.(now := if last > s.now then last else s.now);
        TickGood(c, s, s0.now, false);
        GetFlowGood(c, s0, t, first, last, a, false);
        CountRecordGood(c, GetFlow(c, s0, t, first, last, a), t, flags, into, out, last, false);
        PurgeKeepsSafe(c, CountRecord(GetFlow(c, s0, t, first, last, a), t, flags, into, out, last), last);
      case Layer2(ts, vlan, srcMac, dstMac, len, a) =>
        var s0 := s.(now := ts);
        TickGood(c, s, ts, false);
        Layer2Good(c, s0, vlan, srcMac, dstMac, len, a, false);
        var (s1, src) := ObtainStation(c, s0, vlan, srcMac, a.src);
        var (s2, dst) := ObtainStation(c, s1, vlan, dstMac, a.dst);
        var m1 := DirectCredit(s2.mem, src, Duplex(Traffic(1, len), NO_TRAFFIC), ts);
        PurgeKeepsSafe(c, s2.(mem := DirectCredit(m1, dst, Duplex(NO_TRAFFIC, Traffic(1, len)), ts)), ts);
      case Other(ts) =>
        TickGood(c, s, ts, false);
        PurgeKeepsSafe(c, s.(now := ts), ts);
      case Skipped(ts) => TickGood(c, s, ts, false);
      case Poll(when) => PurgeKeepsSafe(c, s, when);
      case Housekeeping => StatsGood(c, s, false);
      case Cleanup => CleanupGood(c, s, false);
    }
  }

  lemma PurgeKeepsSafe(c: Config, s: State, when: nat)
    requires Good(c, s, false) && NoHostSwept(c)
    ensures Good(c, PurgeIdle(c, s, when), false)
  {
    hide Good, Safe, PurgeIdle, NoHostSwept;
    GoodIsSafe(c, s);
    PurgeSafe(c, s, when);
    GoodIsSafe(c, PurgeIdle(c, s, when));
  }

  lemma {:induction false} RunStaysSafe(c: Config, s: State, es: seq<Event>)
    requires Good(c, s, false) && Feasible(c, s, es) && NoHostSwept(c)
    ensures Good(c, Run(c, s, es), false)
    decreases |es|
  {
    hide Good, Step, Fresh, NoHostSwept;
    if es != [] {
      StepSafe(c, s, es[0]);
      RunStaysSafe(c, Step(c, s, es[0]), es[1..]);
    }
  }

  /** Where nothing is purged, or host sweeps visit no bucket, or all hosts are sticky, or flows or hosts
      find no room, no run ever frees a host in use or follows a freed pointer, however crowded. */
  lemma NeverFreedInUse(c: Config, es: seq<Event>)
    requires c.flowBuckets > 0 && c.hostBuckets > 0 && Feasible(c, Initial(c), es)
    requires NoHostSwept(c) || c.maxFlows <= MAX_SAFE_FLOWS || c.maxHosts == 0
    ensures var m := Run(c, Initial(c), es).mem; !m.fault && !m.warned && NoDangling(m)
  {
    hide Tabled, NoDangling, Counted, Conserved, Step, Run, Feasible, Manageable, NoHostSwept, Good, Countable;
    InitialGood(c);
    GoodBothWays(c, Initial(c));
    if NoHostSwept(c) {
      RunStaysSafe(c, Initial(c), es);
      GoodIsSafe(c, Run(c, Initial(c), es));
    } else {
      if c.maxHosts == 0 {
        HostlessManageable(c, Initial(c), es);
      } else {
        SmallManageable(c, Initial(c), es);
      }
      RunSafe(c, es);
    }
  }

  lemma GoodBothWays(c: Config, s: State)
    requires Good(c, s, true)
    ensures Good(c, s, false)
  {
    hide Safe, Unique;
  }
}
