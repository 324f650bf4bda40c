/** What becomes of hosts: one that is not in the host table is never freed, and an idle one that is
    in the table is freed when its turn comes. */
module LifecycleHosts {
  import opened Addresses
  import opened HashTable
  import opened Memory
  import opened Lifecycle
  import opened LifecycleProof
  import opened LifecycleEffects

  // ----- what the phases of a step do to the host table -----

  /** Hosts that nobody refers to or asks for: in memory and idle. */
  ghost predicate Asleep(c: Config, s: State, h: Ptr) {
    h in s.mem.hosts && HostIdle(c, s.now, s.mem.hosts[h])
  }

  lemma TouchedByNew(c: Config, s: State, s2: State, f: Flow, p: Ptr, h: Ptr)
    requires Shaped(s) && OnlyHosts(s, s2) && Asleep(c, s, h) && Shaped(s2)
    requires forall k :: RefersTo(f, k) ==> AttachedLive(c, s2, k)
    ensures h in s2.mem.hosts && !RefersTo(f, h)
  {
  }

  lemma JoinHosts(c: Config, s: State, f: Flow, p: Ptr, u: bool, h: Ptr)
    requires Good(c, s, u) && MayJoin(c, s, p, f, u) && h in s.mem.hosts
    ensures var r := JoinFlow(c, s, f, p).s;
      && r.htab == s.htab && r.now == s.now && h in r.mem.hosts
      && (!RefersTo(f, h) ==> r.mem.hosts[h] == s.mem.hosts[h])
  {
    hide FlowTable, HostTable, RefsAttached, Unique, Conserved, Counted, SameFlow, Size;
    JoinFlowGood(c, s, f, p, u);
    assert forall k :: RefersTo(f, k) ==> k in s.mem.hosts;
    NewFlowOthers(s.mem, p, f);
    NewFlowSound(s.mem, p, f);
  }

  /** getFlow inserts at most the two new hosts, and leaves every idle host as it is. */
  lemma GetFlowHosts(c: Config, s: State, t: Tuple, first: nat, last: nat, a: Alloc, u: bool, h: Ptr)
    requires Good(c, s, u) && h in s.mem.hosts
    requires a.flow !in s.mem.flows && a.src !in s.mem.hosts && a.dst !in s.mem.hosts && a.src != a.dst
    ensures var r := GetFlow(c, s, t, first, last, a).s;
      && GrowsBy(s.htab, r.htab, a.src, a.dst) && h in r.mem.hosts && r.now == s.now
      && (Asleep(c, s, h) ==> r.mem.hosts[h] == s.mem.hosts[h])
  {
    hide Sound, FlowTable, HostTable, RefsAttached, Unique, Matches, HostIdle, FindFlow, FindFlowHosts, JoinFlow;
    FindFlowComplete(c, s, t);
    if FindFlow(c, s, t).NotFound? {
      var (s2, cli, srv) := FindFlowHosts(c, s, t, a);
      FlowHostsGood(c, s, t, a, u);
      NoMatchStays(c, s, s2, t);
      NewFlowMayJoin(c, s2, t, cli, srv, first, last, a.flow, u);
      var f := FreshFlow(t, cli, srv, first, last);
      JoinHosts(c, s2, f, a.flow, u, h);
      if Asleep(c, s, h) {
        TouchedByNew(c, s, s2, f, a.flow, h);
      }
    }
  }

  lemma CreditHosts(m: Mem, p: Option<Ptr>, proto: u8, d: Duplex, now: nat, h: Ptr)
    requires h in m.hosts
    ensures var n := CreditHost(m, p, proto, d, now);
      && n.hosts.Keys == m.hosts.Keys && n.flows == m.flows
      && (p != Some(h) ==> n.hosts[h] == m.hosts[h])
  {
  }

  lemma DirectHosts(m: Mem, k: Ptr, d: Duplex, now: nat, h: Ptr)
    requires h in m.hosts
    ensures var n := DirectCredit(m, k, d, now);
      && n.hosts.Keys == m.hosts.Keys && (k != h ==> n.hosts[h] == m.hosts[h])
  {
    CreditHosts(m, Some(k), 0, d, now, h);
  }

  /** The same for the two stations of a layer 2 packet. */
  lemma StationsHosts(c: Config, s: State, e: Event, u: bool, h: Ptr)
    requires e.Layer2? && Good(c, s, u) && h in s.mem.hosts && s.now == e.ts && Fresh(s, e)
    ensures var x := BeforePurge(c, s, e).value;
      && GrowsBy(s.htab, x.htab, e.a.src, e.a.dst) && h in x.mem.hosts && x.now == s.now
      && (Asleep(c, s, h) ==> x.mem.hosts[h] == s.mem.hosts[h])
  {
    hide Good, ObtainStation, DirectCredit, HostIdle;
    assert s.(now := e.ts) == s;
    ObtainStationGood(c, s, e.vlan, e.srcMac, e.a.src, u);
    var (s1, src) := ObtainStation(c, s, e.vlan, e.srcMac, e.a.src);
    ObtainStationGood(c, s1, e.vlan, e.dstMac, e.a.dst, u);
    var (s2, dst) := ObtainStation(c, s1, e.vlan, e.dstMac, e.a.dst);
    var m1 := DirectCredit(s2.mem, src, Duplex(Traffic(1, e.len), NO_TRAFFIC), e.ts);
    DirectHosts(s2.mem, src, Duplex(Traffic(1, e.len), NO_TRAFFIC), e.ts, h);
    DirectHosts(m1, dst, Duplex(NO_TRAFFIC, Traffic(1, e.len)), e.ts, h);
    GrowsTwice(s.htab, s1.htab, s2.htab, e.a.src, e.a.dst);
  }

  lemma GrowsTwice(s: Table<Ptr>, s1: Table<Ptr>, s2: Table<Ptr>, x: Ptr, y: Ptr)
    requires (s1 == s || Grows(s, s1, x)) && (s2 == s1 || Grows(s1, s2, y))
    ensures GrowsBy(s, s2, x, y)
  {
  }

  lemma GrowsNot(s: Table<Ptr>, t: Table<Ptr>, a: Alloc, h: Ptr)
    requires GrowsBy(s, t, a.src, a.dst) && h != a.src && h != a.dst
    ensures forall b :: 0 <= b < |s.buckets| ==> (h in t.buckets[b] <==> h in s.buckets[b])
  {
  }

  /** Whatever a step does before it purges: the host table grows by new hosts only, and no idle host
      is touched. */
  lemma BeforeHosts(c: Config, s: State, e: Event, u: bool, h: Ptr)
    requires Good(c, s, u) && Fresh(s, e) && (u && c.purge ==> Timely(s, e)) && h in s.mem.hosts
    requires BeforePurge(c, s, e).Some?
    ensures var x := BeforePurge(c, s, e).value;
      && |x.htab.buckets| == |s.htab.buckets| && x.htab.lastPurged == s.htab.lastPurged && h in x.mem.hosts
      && (forall b :: 0 <= b < |s.htab.buckets| ==> (h in x.htab.buckets[b] <==> h in s.htab.buckets[b]))
      && (Asleep(c, s.(now := At(s, e)), h) ==> x.mem.hosts[h] == s.mem.hosts[h])
  {
    hide Good, GetFlow, ObtainStation, DirectCredit, HostIdle, CountPacket, CountRecord;
    var s0 := s.(now := At(s, e));
    match e {
      case Packet(ts, t, len, flags, a) =>
        TickGood(c, s, ts, u);
        GetFlowHosts(c, s0, t, ts, ts, a, u, h);
        CountHosts(GetFlow(c, s0, t, ts, ts, a), t, len, flags, NO_TRAFFIC, NO_TRAFFIC, ts);
      case Record(first, last, t, flags, into, out, a) =>
        TickGood(c, s, s0.now, u);
        GetFlowHosts(c, s0, t, first, last, a, u, h);
        CountHosts(GetFlow(c, s0, t, first, last, a), t, 0, flags, into, out, last);
      case Layer2(ts, vlan, srcMac, dstMac, len, a) =>
        TickGood(c, s, ts, u);
        assert s0.(now := ts) == s0;
        assert BeforePurge(c, s0, e) == BeforePurge(c, s, e);
        StationsHosts(c, s0, e, u, h);
        GrowsNot(s.htab, BeforePurge(c, s, e).value.htab, e.a, h);
      case Other(_) =>
      case Skipped(_) =>
      case Poll(_) =>
      case Housekeeping =>
      case Cleanup =>
    }
  }

  /** The clock in the first phase of a step. */
  function At(s: State, e: Event): nat {
    match e
    case Packet(ts, _, _, _, _) => ts
    case Record(_, last, _, _, _, _, _) => if last > s.now then last else s.now
    case Layer2(ts, _, _, _, _, _) => ts
    case Other(ts) => ts
    case Skipped(ts) => ts
    case Poll(when) => when
    case Housekeeping => s.now
    case Cleanup => s.now
  }

  lemma CountHosts(g: Got, t: Tuple, len: nat, flags: bv8, into: Traffic, out: Traffic, last: nat)
    ensures CountPacket(g, t, len, flags).mem.hosts == g.s.mem.hosts && CountPacket(g, t, len, flags).htab == g.s.htab
    ensures CountRecord(g, t, flags, into, out, last).mem.hosts == g.s.mem.hosts
    ensures CountRecord(g, t, flags, into, out, last).htab == g.s.htab
  {
  }

  // ----- a host that is not in the table -----

  /** In memory, but not in the table. */
  ghost predicate Stray(s: State, h: Ptr) {
    h in s.mem.hosts && forall b :: 0 <= b < |s.htab.buckets| ==> h !in s.htab.buckets[b]
  }

  /** That is what it means not to be attached. */
  lemma StrayIs(c: Config, s: State, h: Ptr)
    requires Safe(c, s) && h in s.mem.hosts
    ensures Stray(s, h) <==> !Attached(s.mem, s.htab, h)
  {
    hide Sound, FlowTable, RefsAttached;
  }

  lemma SweepFlowsHosts(c: Config, s: State)
    requires Safe(c, s)
    ensures SweepFlows(c, s).mem.hosts.Keys == s.mem.hosts.Keys && SweepFlows(c, s).htab == s.htab
  {
    hide Sound, FlowTable, HostTable, RefsAttached;
    SweepFlowsSound(c, s);
  }

  lemma SweepHostsStray(c: Config, s: State, h: Ptr)
    requires Safe(c, s) && Light(s.mem) && Stray(s, h)
    ensures Stray(SweepHosts(c, s), h)
  {
    StrayIs(c, s, h);
    SweepHostsExact(c, s, h);
    hide Sound, FlowTable, RefsAttached, NoDup, Swept;
    HostTableSeparate(c, s.mem, s.htab);
    SweepSummary(s.htab, IdleHosts(c, s));
  }

  lemma PurgeStray(c: Config, s: State, when: nat, h: Ptr)
    requires Good(c, s, false) && Countable(c, s.mem) && Stray(s, h)
    ensures Stray(PurgeIdle(c, s, when), h)
  {
    hide Good, SweepFlows, SweepHosts, Light;
    if c.purge {
      var s1 := s.(now := when);
      TickGood(c, s, when, false);
      var s2 := PurgeFlows(c, s1);
      assert Good(c, s2, false) && Light(s2.mem) && Stray(s2, h) by {
        if s1.nextFlow == 0 {
          TimersGood(c, s1, s1.now + FLOW_PURGE_FREQUENCY, s1.nextHost, false);
        } else if s1.now >= s1.nextFlow {
          SweepFlowsGood(c, s1, false);
          GoodSafe(c, s1, false);
          SweepFlowsHosts(c, s1);
          TimersGood(c, SweepFlows(c, s1), s1.now + FLOW_PURGE_FREQUENCY, SweepFlows(c, s1).nextHost, false);
        }
      }
      if s2.nextHost != 0 && s2.now >= s2.nextHost {
        GoodSafe(c, s2, false);
        SweepHostsStray(c, s2, h);
      }
    }
  }

  lemma GoodSafe(c: Config, s: State, u: bool)
    requires Good(c, s, u)
    ensures Safe(c, s)
  {
    hide Safe;
  }

  lemma {:induction false} UpdateAllHosts(c: Config, now: nat, m: Mem, ps: seq<Ptr>)
    requires forall p :: p in ps ==> p in m.flows
    requires forall p, k :: p in m.flows && RefersTo(m.flows[p], k) ==> k in m.hosts
    ensures var n := UpdateAll(c, now, m, ps);
      && n.hosts.Keys == m.hosts.Keys
      && forall h :: h in m.hosts && (forall p :: p in m.flows ==> !RefersTo(m.flows[p], h)) ==>
         n.hosts[h] == m.hosts[h]
    decreases |ps|
  {
    hide FlowIdle, UpdateHostsStats;
    if ps != [] {
      var n := if FlowIdle(c, now, m.flows[ps[0]]) then m else UpdateHostsStats(m, ps[0], now);
      UpdateHosts(m, ps[0], now);
      UpdateFlows(m, ps[0], now);
      SnapshotEnds(m.flows[ps[0]]);
      UpdateAllHosts(c, now, n, ps[1..]);
    }
  }

  lemma SnapshotEnds(f: Flow)
    ensures Snapshot(f).cli == f.cli && Snapshot(f).srv == f.srv
    ensures forall h :: RefersTo(Snapshot(f), h) <==> RefersTo(f, h)
  {
  }

  lemma UpdateHosts(m: Mem, p: Ptr, now: nat)
    requires p in m.flows && forall k :: RefersTo(m.flows[p], k) ==> k in m.hosts
    ensures var n := UpdateHostsStats(m, p, now);
      && n.hosts.Keys == m.hosts.Keys
      && forall h :: h in m.hosts && !RefersTo(m.flows[p], h) ==> n.hosts[h] == m.hosts[h]
  {
    var f := m.flows[p];
    assert f.cli.Some? ==> RefersTo(f, f.cli.value);
    assert f.srv.Some? ==> RefersTo(f, f.srv.value);
    hide HostIncStats, Pending;
  }

  lemma StatsHosts(c: Config, s: State)
    requires Safe(c, s)
    ensures var t := UpdateHostStats(c, s);
      && t.mem.hosts.Keys == s.mem.hosts.Keys && t.htab == s.htab && t.now == s.now
      && forall h :: h in s.mem.hosts && Total(s.mem.flows, Refs, h) == 0 ==> t.mem.hosts[h] == s.mem.hosts[h]
  {
    hide Counted, Conserved, FlowTable, HostTable, RefsAttached;
    TableList(c, s);
    UpdateAllHosts(c, s.now, s.mem, Flatten(s.ftab.buckets));
    forall h | h in s.mem.hosts && Total(s.mem.flows, Refs, h) == 0
      ensures forall p :: p in s.mem.flows ==> !RefersTo(s.mem.flows[p], h)
    {
      RefsBounds(s.mem.flows, h);
    }
  }

  /** No step frees or inserts a host that is not in the table, the cleanup included. */
  lemma StepStray(c: Config, s: State, e: Event, h: Ptr)
    requires Good(c, s, false) && Uncrowded(c, s) && Fresh(s, e) && Stray(s, h)
    ensures Stray(Step(c, s, e), h)
  {
    hide Good, PurgeIdle, BeforePurge, UpdateHostStats, CleanupAll, Uncrowded, Countable, Step, Stray;
    StepPurges(c, s, e);
    if BeforePurge(c, s, e).Some? {
      var x := BeforePurge(c, s, e).value;
      if c.purge || !e.Poll? {
        BeforeStray(c, s, e, h);
        BeforeGood(c, s, e, false);
        PurgeStray(c, x, PurgeTime(e), h);
      }
    } else if e.Housekeeping? {
      StatsStray(c, s, h);
    } else if e.Cleanup? {
      CleanupStray(c, s, h);
    } else if e.Skipped? {
      TickStray(s, e.ts, h);
    } else {
      RecordStray(c, s, e, h);
    }
  }

  lemma TickStray(s: State, when: nat, h: Ptr)
    requires Stray(s, h)
    ensures Stray(s.(now := when), h)
  {
  }

  lemma StatsStray(c: Config, s: State, h: Ptr)
    requires Good(c, s, false) && Stray(s, h)
    ensures Stray(UpdateHostStats(c, s), h)
  {
    hide Safe;
    GoodSafe(c, s, false);
    StatsHosts(c, s);
  }

  lemma CleanupStray(c: Config, s: State, h: Ptr)
    requires Good(c, s, false) && Stray(s, h)
    ensures Stray(CleanupAll(s), h)
  {
    hide Safe;
    GoodSafe(c, s, false);
    StrayIs(c, s, h);
    CleanupEmpties(c, s);
  }

  lemma BeforeStray(c: Config, s: State, e: Event, h: Ptr)
    requires Good(c, s, false) && Fresh(s, e) && Stray(s, h) && BeforePurge(c, s, e).Some?
    ensures Stray(BeforePurge(c, s, e).value, h)
  {
    hide BeforePurge, Good, Fresh;
    BeforeHosts(c, s, e, false, h);
  }

  /** The time that purgeIdle is called with. */
  function PurgeTime(e: Event): nat {
    match e
    case Packet(ts, _, _, _, _) => ts
    case Record(_, last, _, _, _, _, _) => last
    case Layer2(ts, _, _, _, _, _) => ts
    case Other(ts) => ts
    case Skipped(ts) => ts
    case Poll(when) => when
    case Housekeeping => 0
    case Cleanup => 0
  }

  lemma StepPurges(c: Config, s: State, e: Event)
    requires Shaped(s)
    ensures var x := BeforePurge(c, s, e);
      && (x.Some? ==> Shaped(x.value))
      && (x.Some? && (c.purge || !e.Poll?) ==> Step(c, s, e) == PurgeIdle(c, x.value, PurgeTime(e)))
      && (e.Poll? && !c.purge ==> Step(c, s, e) == s)
      && (e.Housekeeping? ==> x.None? && Step(c, s, e) == UpdateHostStats(c, s))
      && (e.Cleanup? ==> x.None? && Step(c, s, e) == CleanupAll(s))
      && (e.Skipped? ==> x.None? && Step(c, s, e) == s.(now := e.ts))
      && (x.None? ==> e.Housekeeping? || e.Cleanup? || e.Record? || e.Skipped?)
  {
    hide GetFlow, DirectCredit, ObtainStation;
  }

  lemma BeforeGood(c: Config, s: State, e: Event, u: bool)
    requires Good(c, s, u) && Uncrowded(c, s) && Fresh(s, e) && (u && c.purge ==> Timely(s, e))
    requires BeforePurge(c, s, e).Some?
    ensures var x := BeforePurge(c, s, e).value;
      Good(c, x, u) && Countable(c, x.mem) && x.now == At(s, e)
  {
    TickGood(c, s, At(s, e), u);
    TickUncrowded(c, s, At(s, e));
    TickFresh(s, e);
    var s0 := s.(now := At(s, e));
    hide Timely, Good, GetFlow, CountPacket, CountRecord, Countable, Uncrowded, Fresh;
    UncrowdedCountable(c, s0);
    if e.Layer2? {
      hide BeforePurge;
      StationsBefore(c, s, e, u);
    } else if e.Packet? || e.Record? {
      FlowBefore(c, s, e, u);
    }
  }

  lemma TickFresh(s: State, e: Event)
    ensures Fresh(s.(now := At(s, e)), e) == Fresh(s, e)
  {
  }

  lemma FlowBefore(c: Config, s: State, e: Event, u: bool)
    requires var s0 := s.(now := At(s, e)); Good(c, s0, u) && Uncrowded(c, s0) && Fresh(s0, e)
    requires (e.Packet? || e.Record?) && Shaped(s) && BeforePurge(c, s, e).Some? && (u && c.purge ==> Timely(s, e))
    ensures var x := BeforePurge(c, s, e).value;
      Good(c, x, u) && Countable(c, x.mem) && x.now == At(s, e)
  {
    hide Good, GetFlow, CountPacket, CountRecord, Countable, Uncrowded;
    var s0 := s.(now := At(s, e));
    if e.Packet? {
      GetFlowGood(c, s0, e.t, e.ts, e.ts, e.a, u);
      CountPacketGood(c, GetFlow(c, s0, e.t, e.ts, e.ts, e.a), e.t, e.len, e.flags, u);
    } else {
      GetFlowGood(c, s0, e.t, e.first, e.last, e.a, u);
      CountRecordGood(c, GetFlow(c, s0, e.t, e.first, e.last, e.a), e.t, e.flags, e.into, e.out, e.last, u);
    }
  }

  lemma StationsBefore(c: Config, s: State, e: Event, u: bool)
    requires var s0 := s.(now := At(s, e));
      Good(c, s0, u) && Uncrowded(c, s0) && Countable(c, s0.mem) && Fresh(s0, e)
    requires e.Layer2? && Shaped(s)
    ensures var x := BeforePurge(c, s, e).value;
      Good(c, x, u) && Countable(c, x.mem) && x.now == At(s, e)
  {
    hide Good, ObtainStation, DirectCredit, Countable, Uncrowded;
    Layer2Good(c, s.(now := e.ts), e.vlan, e.srcMac, e.dstMac, e.len, e.a, u);
  }

  /** A record for which there is no room leaves no flow, but may leave new hosts. */
  lemma RecordStray(c: Config, s: State, e: Event, h: Ptr)
    requires e.Record? && Good(c, s, false) && Fresh(s, e) && Stray(s, h) && BeforePurge(c, s, e).None?
    ensures Stray(Step(c, s, e), h)
  {
    hide Good, GetFlow, CountRecord, PurgeIdle, HostIdle;
    TickGood(c, s, At(s, e), false);
    GetFlowHosts(c, s.(now := At(s, e)), e.t, e.first, e.last, e.a, false, h);
    GrowsNot(s.htab, Step(c, s, e).htab, e.a, h);
  }

  /** A host that was credited without being in the table stays in memory for good and never gets into
      the table, whatever happens; not even the cleanup frees it. */
  lemma {:induction false} StrayStays(c: Config, s: State, es: seq<Event>, h: Ptr)
    requires Good(c, s, false) && Feasible(c, s, es) && Manageable(c, s, es) && Stray(s, h)
    ensures Stray(Run(c, s, es), h) && Good(c, Run(c, s, es), false)
    decreases |es|
  {
    hide Good, Step, Stray, Uncrowded, Fresh;
    if es != [] {
      StepGood(c, s, es[0], false);
      StepStray(c, s, es[0], h);
      StrayStays(c, Step(c, s, es[0]), es[1..], h);
    }
  }

  // ----- how a host gets lost -----

  /** The k-th of 2^32 MAC addresses. */
  function MacOf(k: u32): Mac {
    [0, 0, k % 0x100, k / 0x100 % 0x100, k / 0x1_0000 % 0x100, k / 0x100_0000]
  }

  lemma MacsDiffer(i: u32, k: u32)
    requires MacOf(i) == MacOf(k)
    ensures i == k
  {
    assert MacOf(i)[2] == MacOf(k)[2] && MacOf(i)[3] == MacOf(k)[3] && MacOf(i)[4] == MacOf(k)[4];
    assert MacOf(i)[5] == MacOf(k)[5];
    MacSum(i);
    MacSum(k);
  }

  lemma MacSum(k: u32)
    ensures k ==
      k % 0x100 + 0x100 * (k / 0x100 % 0x100) + 0x1_0000 * (k / 0x1_0000 % 0x100) + 0x100_0000 * (k / 0x100_0000)
  {
    var a := k / 0x100;
    var b := a / 0x100;
    assert k == k % 0x100 + 0x100 * a && a == a % 0x100 + 0x100 * b && b == b % 0x100 + 0x100 * (b / 0x100);
    assert k / 0x1_0000 == b && k / 0x100_0000 == b / 0x100;
  }

  /** A layer 2 packet of n bytes that the k-th station sends to itself. */
  function StationPacket(k: u32, n: nat, at: nat): Event { Layer2(at, 0, MacOf(k), MacOf(k), n, Alloc(0, k, k + 1)) }

  /** k stations, all just seen and all in the table; no sweep is due. */
  ghost predicate Stations(c: Config, s: State, k: nat, at: nat) {
    && Good(c, s, true) && at < TWO_32 && k <= c.maxHosts && (k > 0 ==> s.now == at) && s.now <= at
    && s.mem.flows == map[] && Size(s.htab.buckets) == k
    && (forall h: Ptr :: h in s.mem.hosts <==> h < k)
    && (forall i: nat :: i < k && i < TWO_32 ==>
       s.mem.hosts[i].id == MacIdentity(0, MacOf(i)) && s.mem.hosts[i].lastSeen == at)
    && s.nextFlow == s.nextHost && (s.nextFlow == 0 || s.nextFlow == at + 1)
    && (k > 0 && c.purge ==> s.nextFlow == at + 1)
    && (k == 0 ==> s.nextFlow == 0)
  }

  /** A station that the table does not have is a new host, which gets into the table while there is
      room. */
  lemma NewStation(c: Config, s: State, k: nat, at: nat)
    requires Stations(c, s, k, at) && s.now == at && k < TWO_32
    ensures FindStation(c, s, 0, MacOf(k)).NotFound?
  {
    hide Sound, FlowTable, HostTable, RefsAttached, Unique, MacOf;
    FindStationComplete(c, s, 0, MacOf(k));
    forall h | Attached(s.mem, s.htab, h) ensures !IsStation(c, s, h, 0, MacOf(k)) {
      if MacOf(h) == MacOf(k) {
        MacsDiffer(h, k);
      }
    }
  }

  lemma OwnStation(c: Config, s: State, k: nat, at: nat)
    requires Good(c, s, true) && s.now == at && k < TWO_32 && k in s.mem.hosts && Attached(s.mem, s.htab, k)
    requires forall h: nat :: h in s.mem.hosts <==> h <= k
    requires forall i: nat :: i <= k ==> s.mem.hosts[i].id == MacIdentity(0, MacOf(i)) && s.mem.hosts[i].lastSeen == at
    ensures FindStation(c, s, 0, MacOf(k)) == Found(k)
  {
    hide Sound, FlowTable, HostTable, RefsAttached, Unique, MacOf, FindStation;
    FindStationComplete(c, s, 0, MacOf(k));
    assert IsStation(c, s, k, 0, MacOf(k));
    var h := FindStation(c, s, 0, MacOf(k)).item;
    MacsDiffer(h, k);
  }

  lemma StationsTick(c: Config, s: State, k: nat, at: nat)
    requires Stations(c, s, k, at)
    ensures Stations(c, s.(now := at), k, at)
  {
    hide Good, Size;
    TickGood(c, s, at, true);
  }

  /** The first phase of the step for a station with room in the table. */
  lemma StationJoins(c: Config, s: State, k: nat, at: nat)
    requires Stations(c, s, k, at) && s.now == at && k < c.maxHosts && k + 1 < TWO_32
    ensures var s1 := InsertHost(s, k, MacIdentity(0, MacOf(k)));
      && Good(c, s1, true) && Size(s1.htab.buckets) == k + 1
      && ObtainStation(c, s, 0, MacOf(k), k) == (s1, k) && ObtainStation(c, s1, 0, MacOf(k), k + 1) == (s1, k)
  {
    hide Sound, FlowTable, HostTable, RefsAttached, Unique, MacOf, FindStation, Size;
    var s1 := InsertHost(s, k, MacIdentity(0, MacOf(k)));
    NewStation(c, s, k, at);
    ObtainStationGood(c, s, 0, MacOf(k), k, true);
    InsertHostTabled(c, s, k, MacIdentity(0, MacOf(k)));
    InsertGrows(s.htab, HostKey(MacIdentity(0, MacOf(k))) % |s.htab.buckets|, k);
    OwnStation(c, s1, k, at);
  }

  lemma StationStep(c: Config, s: State, k: nat, n: nat, at: nat)
    requires Stations(c, s, k, at) && k < c.maxHosts && k + 1 < TWO_32
    ensures Fresh(s, StationPacket(k, n, at)) && Timely(s, StationPacket(k, n, at))
    ensures Stations(c, Step(c, s, StationPacket(k, n, at)), k + 1, at)
  {
    hide Good, MacOf, ObtainStation, Size;
    var s0, e := s.(now := at), StationPacket(k, n, at);
    StationsTick(c, s, k, at);
    StationJoins(c, s0, k, at);
    Layer2Good(c, s0, 0, MacOf(k), MacOf(k), n, Alloc(0, k, k + 1), true);
    var x := BeforePurge(c, s, e).value;
    var t := PurgeIdle(c, x, at);
    assert t == x.(now := at, nextFlow := t.nextFlow, nextHost := t.nextHost);
    TimersGood(c, x, t.nextFlow, t.nextHost, true);
  }

  /** The station for which there is no room. */
  lemma StationLeaks(c: Config, s: State, n: nat, at: nat)
    requires Stations(c, s, c.maxHosts, at) && c.maxHosts + 1 < TWO_32
    ensures var k, e := c.maxHosts, StationPacket(c.maxHosts, n, at);
      && Fresh(s, e) && Timely(s, e)
      && var t := Step(c, s, e);
         Stray(t, k) && t.mem.hosts[k].stats.all.sent == Traffic(1, n % TWO_64)
  {
    hide Good, MacOf, FindStation, Size;
    var k, e, s0 := c.maxHosts, StationPacket(c.maxHosts, n, at), s.(now := at);
    StationsTick(c, s, k, at);
    NewStation(c, s0, k, at);
    ObtainStationGood(c, s0, 0, MacOf(k), k, true);
    var s1 := s0.(mem := NewHost(s0.mem, k, MacIdentity(0, MacOf(k)), at));
    assert ObtainStation(c, s0, 0, MacOf(k), k) == (s1, k);
    StillMissing(c, s0, s1, k, at);
    StrayNew(c, s0, s1, k, at);
    var x := BeforePurge(c, s, e).value;
    var t := PurgeIdle(c, x, at);
    assert t == x.(now := at, nextFlow := t.nextFlow, nextHost := t.nextHost);
  }

  lemma StillMissing(c: Config, s: State, s1: State, k: nat, at: nat)
    requires Stations(c, s, k, at) && s.now == at && k < TWO_32 && Good(c, s1, true)
    requires s1 == s.(mem := NewHost(s.mem, k, MacIdentity(0, MacOf(k)), at))
    ensures FindStation(c, s1, 0, MacOf(k)).NotFound?
  {
    hide Sound, FlowTable, RefsAttached, Unique, MacOf, FindStation;
    NewUnattached(c, s, k);
    FindStationComplete(c, s1, 0, MacOf(k));
    forall h | Attached(s1.mem, s1.htab, h) ensures !IsStation(c, s1, h, 0, MacOf(k)) {
      if MacOf(h) == MacOf(k) {
        MacsDiffer(h, k);
      }
    }
  }

  lemma StrayNew(c: Config, s: State, s1: State, k: nat, at: nat)
    requires Stations(c, s, k, at) && k < TWO_32 && s1 == s.(mem := NewHost(s.mem, k, MacIdentity(0, MacOf(k)), at))
    ensures Stray(s1, k)
  {
    hide Sound, FlowTable, RefsAttached, Unique, MacOf;
    NewUnattached(c, s, k);
  }

  lemma {:induction false} StationsRun(c: Config, k: nat, n: nat, at: nat) returns (es: seq<Event>)
    requires c.flowBuckets > 0 && c.hostBuckets > 0 && at < TWO_32 && k <= c.maxHosts < TWO_32
    ensures Feasible(c, Initial(c), es) && InOrder(c, Initial(c), es) && Stations(c, Run(c, Initial(c), es), k, at)
  {
    hide Stations, Step, Fresh, Timely;
    if k == 0 {
      es := [];
      NoStations(c, at);
    } else {
      es := StationsRun(c, k - 1, n, at);
      StationStep(c, Run(c, Initial(c), es), k - 1, n, at);
      RunSnoc(c, Initial(c), es, StationPacket(k - 1, n, at));
      es := es + [StationPacket(k - 1, n, at)];
    }
  }

  lemma NoStations(c: Config, at: nat)
    requires c.flowBuckets > 0 && c.hostBuckets > 0 && at < TWO_32
    ensures Stations(c, Initial(c), 0, at)
  {
    hide Good;
    InitialGood(c);
    SizeZero(Initial(c).htab.buckets);
  }

  /** Whatever the capacity of the host table, one layer 2 packet more than it has room for, from as
      many stations and all in one second, leaves a host that has been credited and is in memory, but
      not in the table. StrayStays says that this is for good. */
  lemma HostLeaks(c: Config, n: nat, at: nat) returns (es: seq<Event>, h: Ptr)
    requires c.flowBuckets > 0 && c.hostBuckets > 0 && at < TWO_32 && c.maxHosts + 1 < TWO_32
    ensures Feasible(c, Initial(c), es) && InOrder(c, Initial(c), es)
    ensures var s := Run(c, Initial(c), es);
      Stray(s, h) && s.mem.hosts[h].stats.all.sent == Traffic(1, n % TWO_64)
  {
    hide Stations, Step, Fresh, Timely, Stray;
    h := c.maxHosts;
    es := StationsRun(c, h, n, at);
    StationLeaks(c, Run(c, Initial(c), es), n, at);
    RunSnoc(c, Initial(c), es, StationPacket(h, n, at));
    es := es + [StationPacket(h, n, at)];
  }

  // ----- an idle host is freed -----

  /** An idle host of the table waits in bucket b, and the sweep passes d buckets before it comes there. */
  ghost predicate Rests(c: Config, s: State, h: Ptr, host: Host, b: nat, d: int) {
    && h in s.mem.hosts && s.mem.hosts[h] == host && HostIdle(c, s.now, host)
    && b < |s.htab.buckets| && h in s.htab.buckets[b] && Ahead(s.htab, b) == d
  }

  lemma StaysAsleep(c: Config, now: nat, when: nat, host: Host)
    requires HostIdle(c, now, host) && now <= when && (c.purge ==> when < TWO_32)
    ensures HostIdle(c, when, host)
  {
  }

  /** The host sweep is due. */
  predicate DueHosts(c: Config, s: State) { c.purge && s.nextHost != 0 && s.now >= s.nextHost }

  /** Nothing refers to an idle host. */
  lemma RestsUnreferenced(c: Config, s: State, h: Ptr, host: Host, b: nat, d: int)
    requires Safe(c, s) && Light(s.mem) && Rests(c, s, h, host, b, d)
    ensures Total(s.mem.flows, Refs, h) == 0
  {
    hide Tabled, Conserved, NoDangling;
    IdleUnreferenced(c, s.mem, s.now, h);
  }

  lemma SafeShaped(c: Config, s: State)
    requires Safe(c, s)
    ensures Shaped(s)
  {
    hide Sound, FlowTable, HostTable, RefsAttached;
  }

  lemma SweepFlowsRests(c: Config, s: State, h: Ptr, host: Host, b: nat, d: int)
    requires Safe(c, s) && Light(s.mem) && Rests(c, s, h, host, b, d)
    ensures Rests(c, SweepFlows(c, s), h, host, b, d)
  {
    SafeShaped(c, s);
    hide Tabled, Conserved, NoDangling, Swept, Sweep, HostIdle;
    RestsUnreferenced(c, s, h, host, b, d);
    SweepFlowsSound(c, s);
    var t := SweepFlows(c, s);
    TotalPart(s.mem.flows, t.mem.flows, h);
    RefsBounds(t.mem.flows, h);
  }

  lemma SweepHostsRests(c: Config, s: State, h: Ptr, host: Host, b: nat, d: int)
    requires Safe(c, s) && Light(s.mem) && Rests(c, s, h, host, b, d)
    ensures var t, q := SweepHosts(c, s), Quota(|s.htab.buckets|);
      && |t.htab.buckets| == |s.htab.buckets|
      && (if q <= d then Rests(c, t, h, host, b, d - q) else h !in t.mem.hosts)
  {
    hide Sound, FlowTable, RefsAttached, Swept, HostIdle, NoDup, HostKey;
    assert b == HostKey(host.id) % |s.htab.buckets|;
    SweepHostsExact(c, s, h);
    SweepApproach(s.htab, IdleHosts(c, s), h, b);
  }

  lemma FlowsSweptRests(c: Config, s: State, h: Ptr, host: Host, b: nat, d: int)
    requires Good(c, s, true) && Light(s.mem) && Rests(c, s, h, host, b, d)
    ensures var t := SweepFlows(c, s);
      && Good(c, t, true) && Light(t.mem) && Rests(c, t, h, host, b, d)
      && t.htab == s.htab && t.now == s.now && t.nextHost == s.nextHost
  {
    GoodSafe(c, s, true);
    hide Good, Light, Rests, Safe, IdleFlows, Swept, Sweep;
    SweepFlowsGood(c, s, true);
    SweepFlowsHosts(c, s);
    SweepFlowsRests(c, s, h, host, b, d);
  }

  lemma PurgeFlowsRests(c: Config, s: State, h: Ptr, host: Host, b: nat, d: int)
    requires Good(c, s, true) && Light(s.mem) && Rests(c, s, h, host, b, d)
    ensures var t := PurgeFlows(c, s);
      && Good(c, t, true) && Light(t.mem) && Rests(c, t, h, host, b, d)
      && t.htab == s.htab && t.now == s.now && t.nextHost == s.nextHost
  {
    hide Good, Light, Rests, SweepFlows;
    FlowsSweptRests(c, s, h, host, b, d);
    var t, next := SweepFlows(c, s), s.now + FLOW_PURGE_FREQUENCY;
    TimersGood(c, s, next, s.nextHost, true);
    TimersRest(c, s, s.(nextFlow := next), h, host, b, d);
    TimersGood(c, t, next, t.nextHost, true);
    TimersRest(c, t, t.(nextFlow := next), h, host, b, d);
  }

  /** Purging either frees the host or brings the sweep nearer by its quota, if it is due. */
  lemma PurgeRests(c: Config, s: State, when: nat, h: Ptr, host: Host, b: nat, d: int)
    requires Good(c, s, true) && Countable(c, s.mem) && s.now == when && Rests(c, s, h, host, b, d)
    ensures var t, q := PurgeIdle(c, s, when), Quota(|s.htab.buckets|);
      && |t.htab.buckets| == |s.htab.buckets|
      && (if !DueHosts(c, s) then Rests(c, t, h, host, b, d)
          else if q <= d then Rests(c, t, h, host, b, d - q) else h !in t.mem.hosts)
  {
    hide SweepFlows, SweepHosts, PurgeFlows, Good, Light, Rests, Quota;
    assert s.(now := when) == s;
    if c.purge {
      var s2, q := PurgeFlows(c, s), Quota(|s.htab.buckets|);
      PurgeFlowsRests(c, s, h, host, b, d);
      if s2.nextHost == 0 {
        TimersRest(c, s2, PurgeHosts(c, s2), h, host, b, d);
      } else if s2.now >= s2.nextHost {
        GoodSafe(c, s2, true);
        SweepHostsRests(c, s2, h, host, b, d);
        if q <= d {
          SweepHostsNow(c, s2);
          TimersRest(c, SweepHosts(c, s2), PurgeHosts(c, s2), h, host, b, d - q);
        }
      }
    }
  }

  lemma SweepHostsNow(c: Config, s: State)
    requires Shaped(s)
    ensures SweepHosts(c, s).now == s.now
  {
  }

  lemma TimersRest(c: Config, s: State, t: State, h: Ptr, host: Host, b: nat, d: int)
    requires Rests(c, s, h, host, b, d) && t.mem == s.mem && t.htab == s.htab && t.now == s.now
    ensures Rests(c, t, h, host, b, d)
  {
  }

  /** The step sweeps the host table. */
  predicate SweepsHosts(c: Config, s: State, e: Event)
    requires Shaped(s)
  {
    BeforePurge(c, s, e).Some? && DueHosts(c, BeforePurge(c, s, e).value)
  }

  lemma BeforeRests(c: Config, s: State, e: Event, h: Ptr, host: Host, b: nat, d: int)
    requires Good(c, s, true) && Uncrowded(c, s) && Fresh(s, e) && Timely(s, e) && Rests(c, s, h, host, b, d)
    requires BeforePurge(c, s, e).Some?
    ensures var x := BeforePurge(c, s, e).value;
      Good(c, x, true) && Countable(c, x.mem) && Rests(c, x, h, host, b, d) && |x.htab.buckets| == |s.htab.buckets|
  {
    hide Good, Countable, Uncrowded, BeforePurge, HostIdle, Fresh;
    StaysAsleep(c, s.now, At(s, e), host);
    BeforeHosts(c, s, e, true, h);
    BeforeGood(c, s, e, true);
  }

  /** A step that does not purge frees the host or leaves it alone. */
  lemma OtherRests(c: Config, s: State, e: Event, h: Ptr, host: Host, b: nat, d: int)
    requires Good(c, s, true) && Uncrowded(c, s) && Fresh(s, e) && Timely(s, e) && Rests(c, s, h, host, b, d)
    requires BeforePurge(c, s, e).None?
    ensures var t := Step(c, s, e);
      |t.htab.buckets| == |s.htab.buckets| && (h !in t.mem.hosts || Rests(c, t, h, host, b, d))
  {
    UncrowdedCountable(c, s);
    hide Good, HostIdle, GetFlow, CountRecord, PurgeIdle, CleanupAll, UpdateHostStats, Light, Uncrowded, Attached,
      Ahead;
    GoodSafe(c, s, true);
    match e {
      case Record(first, last, t, flags, into, out, a) =>
        TickGood(c, s, last, true);
        StaysAsleep(c, s.now, last, host);
        GetFlowHosts(c, s.(now := last), t, first, last, a, true, h);
        GrowsNot(s.htab, Step(c, s, e).htab, a, h);
        SameAhead(s.htab, Step(c, s, e).htab, b);
      case Skipped(ts) => StaysAsleep(c, s.now, ts, host);
      case Housekeeping =>
        UncrowdedCountable(c, s);
        Sleeps(c, s, h, host, b, d);
        RestsUnreferenced(c, s, h, host, b, d);
        StatsHosts(c, s);
      case Cleanup =>
        TableEntry(c, s, h, b);
        CleanupEmpties(c, s);
        CleanupSize(s);
      case Packet(_, _, _, _, _) =>
      case Layer2(_, _, _, _, _, _) =>
      case Other(_) =>
      case Poll(_) =>
    }
  }

  lemma SameAhead(s: Table<Ptr>, t: Table<Ptr>, b: nat)
    requires |t.buckets| == |s.buckets| && t.lastPurged == s.lastPurged
    ensures Ahead(t, b) == Ahead(s, b)
  {
  }

  lemma Sleeps(c: Config, s: State, h: Ptr, host: Host, b: nat, d: int)
    requires Rests(c, s, h, host, b, d) && Countable(c, s.mem)
    ensures Light(s.mem)
  {
  }

  lemma TableEntry(c: Config, s: State, h: Ptr, b: nat)
    requires Safe(c, s) && b < |s.htab.buckets| && h in s.htab.buckets[b]
    ensures Attached(s.mem, s.htab, h)
  {
    hide Sound, FlowTable, RefsAttached;
  }

  lemma CleanupSize(s: State)
    requires Shaped(s)
    ensures |CleanupAll(s).htab.buckets| == |s.htab.buckets|
  {
  }

  /** One step frees the host, or leaves it waiting, nearer to its turn if the step sweeps hosts. */
  lemma StepRests(c: Config, s: State, e: Event, h: Ptr, host: Host, b: nat, d: int)
    requires Good(c, s, true) && Uncrowded(c, s) && Fresh(s, e) && Timely(s, e) && Rests(c, s, h, host, b, d)
    ensures var t, q := Step(c, s, e), Quota(|s.htab.buckets|);
      && |t.htab.buckets| == |s.htab.buckets|
      && (h !in t.mem.hosts || Rests(c, t, h, host, b, if SweepsHosts(c, s, e) then d - q else d))
      && (SweepsHosts(c, s, e) && d < q ==> h !in t.mem.hosts)
  {
    hide Good, Rests, PurgeIdle, BeforePurge, Step, DueHosts, Uncrowded, Countable, Fresh;
    if BeforePurge(c, s, e).Some? {
      var x := BeforePurge(c, s, e).value;
      BeforeRests(c, s, e, h, host, b, d);
      BeforeGood(c, s, e, true);
      PurgesAt(c, s, e, host, h, b, d);
      PurgeRests(c, x, x.now, h, host, b, d);
    } else {
      OtherRests(c, s, e, h, host, b, d);
    }
  }

  lemma PurgesAt(c: Config, s: State, e: Event, host: Host, h: Ptr, b: nat, d: int)
    requires Shaped(s) && Timely(s, e) && Rests(c, s, h, host, b, d)
    requires BeforePurge(c, s, e).Some? && BeforePurge(c, s, e).value.now == At(s, e)
    ensures var x := BeforePurge(c, s, e).value;
      Shaped(x) && Step(c, s, e) == PurgeIdle(c, x, x.now)
  {
    hide BeforePurge, Step, PurgeIdle;
    StepPurges(c, s, e);
  }

  /** How many events of a run sweep the host table. */
  function HostSweeps(c: Config, s: State, es: seq<Event>): nat
    requires Shaped(s)
    decreases |es|
  {
    if es == [] then 0 else (if SweepsHosts(c, s, es[0]) then 1 else 0) + HostSweeps(c, Step(c, s, es[0]), es[1..])
  }

  lemma {:induction false} RunRests(c: Config, s: State, es: seq<Event>, h: Ptr, host: Host, b: nat, d: int)
      returns (j: nat)
    requires Good(c, s, true) && Feasible(c, s, es) && Manageable(c, s, es) && InOrder(c, s, es)
    requires Rests(c, s, h, host, b, d) && d < HostSweeps(c, s, es) * Quota(|s.htab.buckets|)
    ensures j <= |es| && h !in Run(c, s, es[..j]).mem.hosts
    decreases |es|
  {
    hide Good, Step, SweepsHosts, Fresh, Timely, Quota, Uncrowded;
    j := 0;
    AheadOf(s.htab, b);
    if es != [] {
      var t, q := Step(c, s, es[0]), Quota(|s.htab.buckets|);
      StepGood(c, s, es[0], true);
      StepRests(c, s, es[0], h, host, b, d);
      if h !in t.mem.hosts {
        j := 1;
        assert es[..1] == [es[0]] && es[..1][1..] == [];
      } else {
        var k := HostSweeps(c, t, es[1..]);
        assert (k + 1) * q == k * q + q;
        var i := RunRests(c, t, es[1..], h, host, b, if SweepsHosts(c, s, es[0]) then d - q else d);
        j := i + 1;
        assert es[..j][1..] == es[1..][..i];
      }
    }
  }

  /** From any reachable state, whatever traffic comes, in order: by the time that the sweeps have
      covered the host table, a host that is in the table and idle has been freed. */
  lemma IdleHostFreed(c: Config, before: seq<Event>, es: seq<Event>, h: Ptr) returns (j: nat)
    requires c.flowBuckets > 0 && c.hostBuckets > 0
    requires Feasible(c, Initial(c), before) && Manageable(c, Initial(c), before) && InOrder(c, Initial(c), before)
    requires var s := Run(c, Initial(c), before);
      && Feasible(c, s, es) && Manageable(c, s, es) && InOrder(c, s, es)
      && Attached(s.mem, s.htab, h) && HostIdle(c, s.now, s.mem.hosts[h])
      && c.hostBuckets <= HostSweeps(c, s, es) * Quota(c.hostBuckets)
    ensures j <= |es| && h !in Run(c, Run(c, Initial(c), before), es[..j]).mem.hosts
  {
    hide Step, Sound, FlowTable, RefsAttached, Unique, Run, Feasible, InOrder, HostSweeps, HostIdle, HostKey, Quota;
    hide Manageable, Countable;
    InitialGood(c);
    GoneCountable(c, Initial(c).mem);
    RunGood(c, Initial(c), before, true);
    var s := Run(c, Initial(c), before);
    var host := s.mem.hosts[h];
    var b := HostKey(host.id) % c.hostBuckets;
    assert Rests(c, s, h, host, b, Ahead(s.htab, b));
    j := RunRests(c, s, es, h, host, b, Ahead(s.htab, b));
  }
}
