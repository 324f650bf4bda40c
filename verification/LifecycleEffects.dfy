/** What the steps of an interface achieve: which entries a sweep frees and when, when a flow is
    created, what the statistics update and the cleanup leave behind. */
module LifecycleEffects {
  import opened Addresses
  import opened HashTable
  import opened Memory
  import opened Lifecycle
  import opened LifecycleProof

  // ----- one step -----

  /** The number of buckets that the sweep passes before it comes to this one. */
  function Ahead(tab: Table<Ptr>, b: nat): int { Distance(tab.lastPurged, |tab.buckets|, b) }

  lemma OnlyVisit(tab: Table<Ptr>, b: nat, x: Ptr)
    requires WellFormed(tab) && b < |tab.buckets| && x in tab.buckets[b]
    requires forall a :: 0 <= a < |tab.buckets| && x in tab.buckets[a] ==> a == b
    ensures Visited(tab, Quota(|tab.buckets|), x) <==> Ahead(tab, b) < Quota(|tab.buckets|)
  {
  }

  /** A sweep frees a flow exactly if it is idle and its bucket is one of the next n/32; the others
      keep their counters. */
  lemma SweepFlowsExact(c: Config, s: State, p: Ptr)
    requires Safe(c, s) && p in s.mem.flows
    ensures var t, b := SweepFlows(c, s), FlowKey(s.mem.hosts, s.mem.flows[p]) % |s.ftab.buckets|;
      && (p in t.mem.flows <==> !FlowIdle(c, s.now, s.mem.flows[p]) || Ahead(s.ftab, b) >= Quota(|s.ftab.buckets|))
      && (p in t.mem.flows ==> t.mem.flows[p] == s.mem.flows[p])
  {
    SweepFlowsSound(c, s);
    hide Sound, HostTable, RefsAttached, Swept, Sweep, FlowKey, Visited, NoDup, Distance;
    var b := FlowKey(s.mem.hosts, s.mem.flows[p]) % |s.ftab.buckets|;
    OnlyVisit(s.ftab, b, p);
    QuotaFits(|s.ftab.buckets|);
    SweptIs(s.ftab, IdleFlows(c, s), p);
  }

  lemma SweptIs(tab: Table<Ptr>, idle: Ptr -> bool, x: Ptr)
    requires WellFormed(tab) && Quota(|tab.buckets|) <= |tab.buckets|
    ensures x in Swept(tab, idle) <==> idle(x) && Visited(tab, Quota(|tab.buckets|), x)
  {
    hide Visited;
    SweptMembers(tab, idle, Quota(|tab.buckets|));
  }

  /** A sweep frees a host exactly if it is in the table, idle and in one of the next n/32 buckets. */
  lemma SweepHostsExact(c: Config, s: State, h: Ptr)
    requires Safe(c, s) && Light(s.mem) && h in s.mem.hosts
    ensures var t, b := SweepHosts(c, s), HostKey(s.mem.hosts[h].id) % |s.htab.buckets|;
      && (h in t.mem.hosts <==>
           Attached(s.mem, s.htab, h) && HostIdle(c, s.now, s.mem.hosts[h]) ==>
             Ahead(s.htab, b) >= Quota(|s.htab.buckets|))
      && (h in t.mem.hosts ==> t.mem.hosts[h] == s.mem.hosts[h])
  {
    SweepHostsSound(c, s);
    hide Sound, FlowTable, RefsAttached, Swept, Sweep, HostKey, Visited, NoDup, Distance;
    var b := HostKey(s.mem.hosts[h].id) % |s.htab.buckets|;
    QuotaFits(|s.htab.buckets|);
    SweptIs(s.htab, IdleHosts(c, s), h);
    if Attached(s.mem, s.htab, h) {
      OnlyVisit(s.htab, b, h);
    } else {
      NotVisited(s.htab, h);
    }
  }

  lemma NotVisited(tab: Table<Ptr>, x: Ptr)
    requires WellFormed(tab) && forall b :: 0 <= b < |tab.buckets| ==> x !in tab.buckets[b]
    ensures !Visited(tab, Quota(|tab.buckets|), x)
  {
  }

  /** getFlow returns a live flow of the tuple's endpoints and changes nothing if there is one;
      otherwise it creates one from the tuple, unless the table is full. */
  lemma GetFlowExact(c: Config, s: State, t: Tuple, first: nat, last: nat, a: Alloc, u: bool)
    requires Good(c, s, u) && (u && c.purge ==> last == s.now)
    requires a.flow !in s.mem.flows && a.src !in s.mem.hosts && a.dst !in s.mem.hosts && a.src != a.dst
    ensures var r := GetFlow(c, s, t, first, last, a);
      var known := exists p :: FlowLive(c, s, p) && Matches(s.mem.hosts, s.mem.flows[p], t);
      && (r.isNew <==> !known)
      && (known ==> r.s == s && r.flow.Some? && FlowLive(c, s, r.flow.value))
      && (known ==> Matches(s.mem.hosts, s.mem.flows[r.flow.value], t))
      && (!known && |s.mem.flows| < c.maxFlows ==>
         r.flow == Some(a.flow) && Adds(s.mem, r.s.mem, t, first, last, a.flow))
      && (!known && |s.mem.flows| >= c.maxFlows ==> r.flow == None && r.s.mem.flows == s.mem.flows)
      && |r.s.ftab.buckets| == |s.ftab.buckets| && r.s.ftab.lastPurged == s.ftab.lastPurged
      && forall b, p :: 0 <= b < |s.ftab.buckets| && p in s.ftab.buckets[b] ==> p in r.s.ftab.buckets[b]
  {
    hide Sound, FlowTable, HostTable, RefsAttached, Unique, Matches, FlowLive, JoinFlow, Size, FindFlow, FindFlowHosts;
    FindFlowComplete(c, s, t);
    TableSize(c, s);
    if FindFlow(c, s, t).NotFound? {
      var (s2, cli, srv) := FindFlowHosts(c, s, t, a);
      FlowHostsGood(c, s, t, a, u);
      NoMatchStays(c, s, s2, t);
      NewFlowMayJoin(c, s2, t, cli, srv, first, last, a.flow, u);
      var f := FreshFlow(t, cli, srv, first, last);
      JoinFlowGood(c, s2, f, a.flow, u);
      JoinFlows(c, s2, f, a.flow, u);
    }
  }

  /** One flow was added: the tuple's, with all counters zero. */
  ghost predicate Adds(m: Mem, n: Mem, t: Tuple, first: nat, last: nat, p: Ptr) {
    exists cli, srv :: n.flows == m.flows[p := FreshFlow(t, cli, srv, first, last)]
  }

  lemma TableSize(c: Config, s: State)
    requires Safe(c, s)
    ensures Size(s.ftab.buckets) == |s.mem.flows|
  {
    hide Sound, HostTable, RefsAttached;
  }

  lemma JoinFlows(c: Config, s: State, f: Flow, p: Ptr, u: bool)
    requires Good(c, s, u) && p !in s.mem.flows && forall h :: RefersTo(f, h) ==> h in s.mem.hosts
    requires Last(f) == NO_DUPLEX
    ensures var r := JoinFlow(c, s, f, p);
      && (r.flow.Some? ==> r.s.mem.flows == s.mem.flows[p := f])
      && (r.flow.Some? <==> Size(s.ftab.buckets) < c.maxFlows) && r.isNew
      && |r.s.ftab.buckets| == |s.ftab.buckets| && r.s.ftab.lastPurged == s.ftab.lastPurged
      && (r.flow.Some? ==> forall b :: 0 <= b < |s.ftab.buckets| ==>
           r.s.ftab.buckets[b] == s.ftab.buckets[b] || r.s.ftab.buckets[b] == [p] + s.ftab.buckets[b])
      && (r.flow.None? ==> r.s.ftab == s.ftab)
  {
    hide Unique, FlowTable, HostTable, RefsAttached, Counted, Conserved, NoDangling, DeleteFlow;
    NewFlowSound(s.mem, p, f);
  }

  // ----- the statistics update -----

  /** One flow's update replaces its snapshot and touches no other flow. */
  lemma UpdateFlows(m: Mem, p: Ptr, now: nat)
    requires p in m.flows
    ensures UpdateHostsStats(m, p, now).flows == m.flows[p := Snapshot(m.flows[p])]
  {
  }

  lemma {:induction false} UpdateAllFlows(c: Config, now: nat, m: Mem, ps: seq<Ptr>)
    requires NoDup(ps) && forall p :: p in ps ==> p in m.flows
    ensures var n := UpdateAll(c, now, m, ps);
      && n.flows.Keys == m.flows.Keys
      && forall p :: p in m.flows ==>
        n.flows[p] == if p in ps && !FlowIdle(c, now, m.flows[p]) then Snapshot(m.flows[p]) else m.flows[p]
    decreases |ps|
  {
    hide UpdateHostsStats, FlowIdle, Snapshot;
    if ps != [] {
      var n := if FlowIdle(c, now, m.flows[ps[0]]) then m else UpdateHostsStats(m, ps[0], now);
      UpdateFlows(m, ps[0], now);
      TailNoDup(ps);
      UpdateAllFlows(c, now, n, ps[1..]);
    }
  }

  lemma TailNoDup(ps: seq<Ptr>)
    requires ps != [] && NoDup(ps)
    ensures NoDup(ps[1..]) && ps[0] !in ps[1..] && forall p :: p in ps <==> p == ps[0] || p in ps[1..]
  {
    assert ps == [ps[0]] + ps[1..];
  }

  lemma TableList(c: Config, s: State)
    requires Safe(c, s)
    ensures var ps := Flatten(s.ftab.buckets); NoDup(ps) && forall p :: p in ps <==> p in s.mem.flows
  {
    hide Sound, FlowTable, HostTable, RefsAttached;
    FlowTableSeparate(c, s.mem, s.ftab);
    FlowTableLists(c, s.mem, s.ftab);
    FlattenNoDup(s.ftab.buckets);
  }

  /** After the statistics update nothing is pending in any flow that is not idle, and nothing else
      about the flows has changed: the snapshots that host counters add up are the present counters. */
  lemma HousekeepingSettles(c: Config, s: State, p: Ptr)
    requires Safe(c, s) && p in s.mem.flows
    ensures var t := UpdateHostStats(c, s);
      && t.mem.flows.Keys == s.mem.flows.Keys
      && (if FlowIdle(c, s.now, s.mem.flows[p]) then t.mem.flows[p] == s.mem.flows[p]
          else t.mem.flows[p] == Snapshot(s.mem.flows[p]) && Pending(t.mem.flows[p]) == NO_DUPLEX)
  {
    hide Sound, FlowTable, HostTable, RefsAttached, FlowIdle;
    TableList(c, s);
    UpdateAllFlows(c, s.now, s.mem, Flatten(s.ftab.buckets));
  }

  // ----- the cleanup -----

  /** After the cleanup there are no flows, and no hosts but those that never were in the table. */
  lemma CleanupEmpties(c: Config, s: State)
    requires Safe(c, s)
    ensures var t := CleanupAll(s);
      && t.mem.flows == map[] && Size(t.ftab.buckets) == 0 == Size(t.htab.buckets)
      && forall h :: h in t.mem.hosts <==> h in s.mem.hosts && !Attached(s.mem, s.htab, h)
  {
    hide Sound, HostKey, FlowTable, RefsAttached;
    var hs := Flatten(s.htab.buckets);
    AllFlowsGone(c, s);
    var m := DeleteFlows(s.mem, Flatten(s.ftab.buckets));
    HostTableSeparate(c, s.mem, s.htab);
    FlattenMembers(s.htab.buckets);
    FlattenNoDup(s.htab.buckets);
    forall h | h in hs ensures h in m.hosts && Total(m.flows, Refs, h) == 0 {
      TotalNone(m.flows, Refs, h);
    }
    DeleteHostsSound(m, hs);
    SizeZero(Emptied(s.ftab).buckets);
    SizeZero(Emptied(s.htab).buckets);
    forall h | h in s.mem.hosts ensures h in hs <==> Attached(s.mem, s.htab, h) {
      if b :| 0 <= b < |s.htab.buckets| && h in s.htab.buckets[b] {
        assert HostKey(s.mem.hosts[h].id) % |s.htab.buckets| == b;
      }
    }
  }

  // ----- an idle flow is freed -----

  /** An idle flow waits in bucket b, and the sweep passes d buckets before it comes there. */
  ghost predicate Waits(c: Config, s: State, p: Ptr, f: Flow, b: nat, d: int) {
    && p in s.mem.flows && s.mem.flows[p] == f && FlowIdle(c, s.now, f)
    && b < |s.ftab.buckets| && p in s.ftab.buckets[b] && Ahead(s.ftab, b) == d
  }

  lemma StaysIdle(c: Config, now: nat, when: nat, f: Flow)
    requires FlowIdle(c, now, f) && now <= when < TWO_32
    ensures FlowIdle(c, when, f)
  {
  }

  /** The flow sweep is due. */
  predicate Due(c: Config, s: State) { c.purge && s.nextFlow != 0 && s.now >= s.nextFlow }

  /** Purging either frees the flow or brings the sweep nearer by its quota, if it is due. */
  lemma PurgeWaits(c: Config, s: State, when: nat, p: Ptr, f: Flow, b: nat, d: int)
    requires Good(c, s, true) && Countable(c, s.mem) && s.now == when && Waits(c, s, p, f, b, d)
    ensures var t, q := PurgeIdle(c, s, when), Quota(|s.ftab.buckets|);
      && |t.ftab.buckets| == |s.ftab.buckets| && t.now == s.now
      && (if !Due(c, s) then Waits(c, t, p, f, b, d)
          else if q <= d then Waits(c, t, p, f, b, d - q) else p !in t.mem.flows)
  {
    hide FlowIdle, SweepFlows, SweepHosts, Good, Light;
    assert s.(now := when) == s;
    if Due(c, s) {
      SweepWaits(c, s, p, f, b, d);
      SweepFlowsGood(c, s, true);
      var s1 := SweepFlows(c, s).(nextFlow := s.now + FLOW_PURGE_FREQUENCY);
      TimersGood(c, SweepFlows(c, s), s1.nextFlow, s1.nextHost, true);
      HostsKeepFlows(c, s1);
    } else if c.purge {
      var s1 := PurgeFlows(c, s);
      TimersGood(c, s, s1.nextFlow, s1.nextHost, true);
      HostsKeepFlows(c, s1);
    }
  }

  lemma HostsKeepFlows(c: Config, s: State)
    requires Good(c, s, true) && Light(s.mem)
    ensures SweepHosts(c, s).mem.flows == s.mem.flows && SweepHosts(c, s).ftab == s.ftab
    ensures SweepHosts(c, s).now == s.now
  {
    SweepHostsSound(c, s);
  }

  lemma SweepWaits(c: Config, s: State, p: Ptr, f: Flow, b: nat, d: int)
    requires Good(c, s, true) && Waits(c, s, p, f, b, d)
    ensures var t, q := SweepFlows(c, s), Quota(|s.ftab.buckets|);
      && |t.ftab.buckets| == |s.ftab.buckets| && t.now == s.now
      && (if q <= d then Waits(c, t, p, f, b, d - q) else p !in t.mem.flows)
  {
    hide Sound, HostTable, RefsAttached, Swept, FlowIdle, Unique, NoDup;
    assert b == FlowKey(s.mem.hosts, f) % |s.ftab.buckets|;
    SweepFlowsExact(c, s, p);
    SweepApproach(s.ftab, IdleFlows(c, s), p, b);
  }

  /** Nothing that getFlow does touches an idle flow: lookups pass it by. */
  lemma GetFlowWaits(c: Config, s: State, t: Tuple, first: nat, last: nat, a: Alloc, p: Ptr, f: Flow, b: nat, d: int)
    requires Good(c, s, true) && last == s.now && Waits(c, s, p, f, b, d)
    requires a.flow !in s.mem.flows && a.src !in s.mem.hosts && a.dst !in s.mem.hosts && a.src != a.dst
    ensures var r := GetFlow(c, s, t, first, last, a);
      Good(c, r.s, true) && r.s.now == s.now && Waits(c, r.s, p, f, b, d) && r.flow != Some(p)
  {
    hide Good, GetFlow, FlowIdle, Matches;
    GetFlowGood(c, s, t, first, last, a, true);
    GetFlowExact(c, s, t, first, last, a, true);
  }

  /** The state in which a step comes to purgeIdle, if it does. */
  function BeforePurge(c: Config, s: State, e: Event): Option<State>
    requires Shaped(s)
  {
    match e
    case Packet(ts, t, len, flags, a) => Some(CountPacket(GetFlow(c, s.(now := ts), t, ts, ts, a), t, len, flags))
    case Record(first, last, t, flags, into, out, a) =>
      var g := GetFlow(c, s.(now := if last > s.now then last else s.now), t, first, last, a);
      if g.flow.None? then None else Some(CountRecord(g, t, flags, into, out, last))
    case Layer2(ts, vlan, srcMac, dstMac, len, a) =>
      var (s1, src) := ObtainStation(c, s.(now := ts), vlan, srcMac, a.src);
      var (s2, dst) := ObtainStation(c, s1, vlan, dstMac, a.dst);
      var m := DirectCredit(s2.mem, src, Duplex(Traffic(1, len), NO_TRAFFIC), ts);
      Some(s2.(mem := DirectCredit(m, dst, Duplex(NO_TRAFFIC, Traffic(1, len)), ts)))
    case Other(ts) => Some(s.(now := ts))
    case Skipped(_) => None
    case Poll(when) => Some(s.(now := when))
    case Housekeeping => None
    case Cleanup => None
  }

  /** The step sweeps the flow table. */
  predicate Sweeps(c: Config, s: State, e: Event)
    requires Shaped(s)
  {
    BeforePurge(c, s, e).Some? && Due(c, BeforePurge(c, s, e).value)
  }

  lemma PacketBefore(c: Config, s: State, e: Event, p: Ptr, f: Flow, b: nat, d: int)
    requires Good(c, s, true) && Uncrowded(c, s) && Fresh(s, e) && Timely(s, e) && Waits(c, s, p, f, b, d) && e.Packet?
    ensures var x := BeforePurge(c, s, e).value;
      && Good(c, x, true) && Countable(c, x.mem) && x.now == e.ts && Waits(c, x, p, f, b, d)
      && Step(c, s, e) == PurgeIdle(c, x, e.ts)
  {
    hide Good, GetFlow, FlowIdle, PurgeIdle, Uncrowded, Countable;
    var s0 := s.(now := e.ts);
    TickGood(c, s, e.ts, true);
    TickUncrowded(c, s, e.ts);
    StaysIdle(c, s.now, e.ts, f);
    GetFlowWaits(c, s0, e.t, e.ts, e.ts, e.a, p, f, b, d);
    GetFlowGood(c, s0, e.t, e.ts, e.ts, e.a, true);
    CountPacketGood(c, GetFlow(c, s0, e.t, e.ts, e.ts, e.a), e.t, e.len, e.flags, true);
  }

  lemma RecordBefore(c: Config, s: State, e: Event, p: Ptr, f: Flow, b: nat, d: int)
    requires Good(c, s, true) && Uncrowded(c, s) && Fresh(s, e) && Timely(s, e) && Waits(c, s, p, f, b, d) && e.Record?
    ensures var x := BeforePurge(c, s, e);
      if x.None? then Waits(c, Step(c, s, e), p, f, b, d)
      else
        && Good(c, x.value, true) && Countable(c, x.value.mem) && x.value.now == e.last && Waits(c, x.value, p, f, b, d)
        && Step(c, s, e) == PurgeIdle(c, x.value, e.last)
  {
    hide Good, GetFlow, FlowIdle, PurgeIdle, Uncrowded, Countable;
    var s0 := s.(now := e.last);
    assert s0 == s.(now := if e.last > s.now then e.last else s.now);
    TickGood(c, s, e.last, true);
    TickUncrowded(c, s, e.last);
    StaysIdle(c, s.now, e.last, f);
    GetFlowWaits(c, s0, e.t, e.first, e.last, e.a, p, f, b, d);
    GetFlowGood(c, s0, e.t, e.first, e.last, e.a, true);
    CountRecordGood(c, GetFlow(c, s0, e.t, e.first, e.last, e.a), e.t, e.flags, e.into, e.out, e.last, true);
  }

  lemma Layer2Before(c: Config, s: State, e: Event, p: Ptr, f: Flow, b: nat, d: int)
    requires Good(c, s, true) && Uncrowded(c, s) && Fresh(s, e) && Timely(s, e) && Waits(c, s, p, f, b, d) && e.Layer2?
    ensures var x := BeforePurge(c, s, e).value;
      && Good(c, x, true) && Countable(c, x.mem) && x.now == e.ts && Waits(c, x, p, f, b, d)
      && Step(c, s, e) == PurgeIdle(c, x, e.ts)
  {
    UncrowdedCountable(c, s);
    hide Good, Waits, PurgeIdle, ObtainStation, DirectCredit, Uncrowded, Countable, OnlyHosts;
    var s0 := s.(now := e.ts);
    TickBefore(c, s, e.ts, p, f, b, d);
    Layer2Good(c, s0, e.vlan, e.srcMac, e.dstMac, e.len, e.a, true);
    ObtainStationGood(c, s0, e.vlan, e.srcMac, e.a.src, true);
    var (s1, src) := ObtainStation(c, s0, e.vlan, e.srcMac, e.a.src);
    StationFresh(s0, s1, e.a);
    ObtainStationGood(c, s1, e.vlan, e.dstMac, e.a.dst, true);
    var (s2, dst) := ObtainStation(c, s1, e.vlan, e.dstMac, e.a.dst);
    OnlyHostsTwice(s0, s1, s2);
    var m1 := DirectCredit(s2.mem, src, Duplex(Traffic(1, e.len), NO_TRAFFIC), e.ts);
    DirectFlows(s2.mem, src, Duplex(Traffic(1, e.len), NO_TRAFFIC), e.ts);
    DirectFlows(m1, dst, Duplex(NO_TRAFFIC, Traffic(1, e.len)), e.ts);
    WaitsSame(c, s0, BeforePurge(c, s, e).value, p, f, b, d);
  }

  lemma StationFresh(s: State, s1: State, a: Alloc)
    requires a.dst !in s.mem.hosts && a.src != a.dst && s1.mem.hosts.Keys <= s.mem.hosts.Keys + {a.src}
    ensures a.dst !in s1.mem.hosts
  {
  }

  lemma OnlyHostsTwice(s: State, s1: State, s2: State)
    requires OnlyHosts(s, s1) && OnlyHosts(s1, s2)
    ensures s2.mem.flows == s.mem.flows && s2.ftab == s.ftab && s2.now == s.now
  {
  }

  lemma WaitsSame(c: Config, s: State, t: State, p: Ptr, f: Flow, b: nat, d: int)
    requires Waits(c, s, p, f, b, d) && t.mem.flows == s.mem.flows && t.ftab == s.ftab && t.now == s.now
    ensures Waits(c, t, p, f, b, d)
  {
  }

  /** One step frees the flow, or leaves it waiting, nearer to its turn if the step sweeps. */
  lemma StepWaits(c: Config, s: State, e: Event, p: Ptr, f: Flow, b: nat, d: int)
    requires Good(c, s, true) && Uncrowded(c, s) && Fresh(s, e) && Timely(s, e) && Waits(c, s, p, f, b, d)
    ensures var t, q := Step(c, s, e), Quota(|s.ftab.buckets|);
      && |t.ftab.buckets| == |s.ftab.buckets|
      && (p !in t.mem.flows || Waits(c, t, p, f, b, if Sweeps(c, s, e) then d - q else d))
      && (Sweeps(c, s, e) && d < q ==> p !in t.mem.flows)
  {
    hide Good, Waits, PurgeIdle, BeforePurge, Step, Due;
    SameSize(c, s, e);
    StepBefore(c, s, e, p, f, b, d);
    if BeforePurge(c, s, e).Some? {
      var x := BeforePurge(c, s, e).value;
      PurgeWaits(c, x, x.now, p, f, b, d);
    }
  }

  /** Every step comes to purgeIdle with the flow still waiting, or does not come to it. */
  lemma StepBefore(c: Config, s: State, e: Event, p: Ptr, f: Flow, b: nat, d: int)
    requires Good(c, s, true) && Uncrowded(c, s) && Fresh(s, e) && Timely(s, e) && Waits(c, s, p, f, b, d)
    ensures var x := BeforePurge(c, s, e);
      && (x.None? ==> p !in Step(c, s, e).mem.flows || Waits(c, Step(c, s, e), p, f, b, d))
      && (x.Some? ==> Good(c, x.value, true) && Countable(c, x.value.mem) && Waits(c, x.value, p, f, b, d))
      && (x.Some? ==> |x.value.ftab.buckets| == |s.ftab.buckets|)
      && (x.Some? ==> Step(c, s, e) == PurgeIdle(c, x.value, x.value.now))
  {
    UncrowdedCountable(c, s);
    hide Good, Waits, PurgeIdle, GetFlow, ObtainStation, CountPacket, CountRecord, DirectCredit, UpdateHostStats,
      CleanupAll;
    hide Uncrowded, Countable;
    match e {
      case Packet(_, _, _, _, _) => PacketBefore(c, s, e, p, f, b, d);
      case Record(_, _, _, _, _, _, _) => RecordBefore(c, s, e, p, f, b, d);
      case Layer2(_, _, _, _, _, _) => Layer2Before(c, s, e, p, f, b, d);
      case Other(ts) => TickBefore(c, s, ts, p, f, b, d);
      case Skipped(ts) => TickBefore(c, s, ts, p, f, b, d);
      case Poll(when) => TickBefore(c, s, when, p, f, b, d);
      case Housekeeping => HousekeepingWaits(c, s, p, f, b, d);
      case Cleanup => CleanupFrees(c, s, p);
    }
    if BeforePurge(c, s, e).Some? {
      BucketCount(c, s);
      BucketCount(c, BeforePurge(c, s, e).value);
    }
  }

  lemma BucketCount(c: Config, s: State)
    requires Good(c, s, true)
    ensures |s.ftab.buckets| == c.flowBuckets
  {
    hide Sound, HostTable, RefsAttached, Unique;
  }

  lemma TickBefore(c: Config, s: State, when: nat, p: Ptr, f: Flow, b: nat, d: int)
    requires Good(c, s, true) && s.now <= when < TWO_32 && Waits(c, s, p, f, b, d)
    ensures var x := s.(now := when);
      Good(c, x, true) && Waits(c, x, p, f, b, d) && PurgeIdle(c, s, when) == PurgeIdle(c, x, when)
  {
    hide Good;
    TickGood(c, s, when, true);
    StaysIdle(c, s.now, when, f);
    PurgeTick(c, s, when, f);
  }

  lemma HousekeepingWaits(c: Config, s: State, p: Ptr, f: Flow, b: nat, d: int)
    requires Good(c, s, true) && Waits(c, s, p, f, b, d)
    ensures Waits(c, UpdateHostStats(c, s), p, f, b, d)
  {
    hide Tabled, Sound, Unique, UpdateAll, FlowIdle;
    HousekeepingSettles(c, s, p);
  }

  lemma CleanupFrees(c: Config, s: State, p: Ptr)
    requires Good(c, s, true)
    ensures p !in CleanupAll(s).mem.flows
  {
    hide Tabled, Sound, Unique;
    CleanupEmpties(c, s);
  }

  lemma PurgeTick(c: Config, s: State, when: nat, f: Flow)
    requires Shaped(s) && FlowIdle(c, s.now, f)
    ensures PurgeIdle(c, s, when) == PurgeIdle(c, s.(now := when), when)
  {
  }

  /** No step changes the number of buckets. */
  lemma SameSize(c: Config, s: State, e: Event)
    requires Good(c, s, true) && Uncrowded(c, s) && Fresh(s, e) && Timely(s, e)
    ensures |Step(c, s, e).ftab.buckets| == |s.ftab.buckets| == c.flowBuckets
  {
    hide Step, Sound, HostTable, RefsAttached, Unique;
    StepGood(c, s, e, true);
  }

  /** How many events of a run sweep the flow table. */
  function FlowSweeps(c: Config, s: State, es: seq<Event>): nat
    requires Shaped(s)
    decreases |es|
  {
    if es == [] then 0 else (if Sweeps(c, s, es[0]) then 1 else 0) + FlowSweeps(c, Step(c, s, es[0]), es[1..])
  }

  lemma AheadOf(tab: Table<Ptr>, b: nat)
    requires WellFormed(tab) && b < |tab.buckets|
    ensures 0 <= Ahead(tab, b) < |tab.buckets|
  {
  }

  lemma {:induction false} RunWaits(c: Config, s: State, es: seq<Event>, p: Ptr, f: Flow, b: nat, d: int)
      returns (j: nat)
    requires Good(c, s, true) && Feasible(c, s, es) && Manageable(c, s, es) && InOrder(c, s, es)
    requires Waits(c, s, p, f, b, d) && d < FlowSweeps(c, s, es) * Quota(|s.ftab.buckets|)
    ensures j <= |es| && p !in Run(c, s, es[..j]).mem.flows
    decreases |es|
  {
    hide Good, Step, Sweeps, Fresh, Timely, Quota;
    j := 0;
    AheadOf(s.ftab, b);
    if es != [] {
      var t, q := Step(c, s, es[0]), Quota(|s.ftab.buckets|);
      StepGood(c, s, es[0], true);
      StepWaits(c, s, es[0], p, f, b, d);
      if p !in t.mem.flows {
        j := 1;
        assert es[..1] == [es[0]] && es[..1][1..] == [];
      } else {
        var k := FlowSweeps(c, t, es[1..]);
        assert (k + 1) * q == k * q + q;
        var i := RunWaits(c, t, es[1..], p, f, b, if Sweeps(c, s, es[0]) then d - q else d);
        j := i + 1;
        assert es[..j][1..] == es[1..][..i];
      }
    }
  }

  /** From any reachable state, whatever traffic comes, in order: by the time that the sweeps have
      covered the table, an idle flow has been freed. That is the 33rd sweep for tables of at least
      992 buckets (SweepBounds). */
  lemma IdleFlowFreed(c: Config, before: seq<Event>, es: seq<Event>, p: Ptr) returns (j: nat)
    requires c.flowBuckets > 0 && c.hostBuckets > 0
    requires Feasible(c, Initial(c), before) && Manageable(c, Initial(c), before) && InOrder(c, Initial(c), before)
    requires var s := Run(c, Initial(c), before);
      && Feasible(c, s, es) && Manageable(c, s, es) && InOrder(c, s, es)
      && p in s.mem.flows && FlowIdle(c, s.now, s.mem.flows[p])
      && c.flowBuckets <= FlowSweeps(c, s, es) * Quota(c.flowBuckets)
    ensures j <= |es| && p !in Run(c, Run(c, Initial(c), before), es[..j]).mem.flows
  {
    hide Step, Sound, HostTable, RefsAttached, Unique, Run, Feasible, InOrder, FlowSweeps, FlowIdle, FlowKey, Quota;
    hide Manageable, Countable;
    InitialGood(c);
    GoneCountable(c, Initial(c).mem);
    RunGood(c, Initial(c), before, true);
    var s := Run(c, Initial(c), before);
    var f := s.mem.flows[p];
    var b := FlowKey(s.mem.hosts, f) % c.flowBuckets;
    assert Waits(c, s, p, f, b, Ahead(s.ftab, b));
    j := RunWaits(c, s, es, p, f, b, Ahead(s.ftab, b));
  }

  // ----- when a sweep frees a host in use -----

  /** The sweep comes to the host's bucket. */
  ghost predicate InWindow(s: State, h: Ptr)
    requires Shaped(s)
  {
    Attached(s.mem, s.htab, h) && Ahead(s.htab, HostKey(s.mem.hosts[h].id) % |s.htab.buckets|) < Quota(|s.htab.buckets|)
  }

  /** The sweep finds a host idle although flows refer to it. */
  ghost predicate Misjudged(c: Config, s: State, h: Ptr)
    requires Shaped(s)
  {
    InWindow(s, h) && HostIdle(c, s.now, s.mem.hosts[h]) && Total(s.mem.flows, Refs, h) > 0
  }

  lemma {:induction false} DeletedHosts(m: Mem, hs: seq<Ptr>)
    requires NoDup(hs) && forall h :: h in hs ==> h in m.hosts
    ensures var n := DeleteHosts(m, hs);
      n.hosts == m.hosts - SetOf(hs) && n.flows == m.flows && n.fault == m.fault
    decreases |hs|
  {
    if hs == [] {
      assert m.hosts - SetOf(hs) == m.hosts;
    } else {
      TailNoDup(hs);
      DeletedHosts(DeleteHost(m, hs[0]), hs[1..]);
      assert m.hosts - {hs[0]} - SetOf(hs[1..]) == m.hosts - SetOf(hs);
    }
  }

  lemma SweptHosts(c: Config, s: State, h: Ptr)
    requires Safe(c, s)
    ensures h in Swept(s.htab, IdleHosts(c, s)) <==> InWindow(s, h) && HostIdle(c, s.now, s.mem.hosts[h])
  {
    hide Sound, FlowTable, RefsAttached, Swept, Sweep, HostKey, Visited, NoDup, Distance, HostIdle;
    QuotaFits(|s.htab.buckets|);
    SweptIs(s.htab, IdleHosts(c, s), h);
    if h in s.mem.hosts {
      if Attached(s.mem, s.htab, h) {
        OnlyVisit(s.htab, HostKey(s.mem.hosts[h].id) % |s.htab.buckets|, h);
      } else {
        NotVisited(s.htab, h);
      }
    }
  }

  lemma Referenced(m: Mem, h: Ptr)
    ensures Total(m.flows, Refs, h) > 0 <==> exists p :: p in m.flows && RefersTo(m.flows[p], h)
  {
    RefsBounds(m.flows, h);
    if !exists p :: p in m.flows && RefersTo(m.flows[p], h) {
      assert forall p :: p in m.flows ==> !RefersTo(m.flows[p], h);
      TotalNone(m.flows, Refs, h);
    }
  }

  /** In any table, a host sweep leaves a flow with a pointer to a freed host if and only if it comes to
      a host that has references, and that looks idle all the same; their number is then a multiple
      of 65536. */
  lemma SweepHostsDangle(c: Config, s: State)
    requires Safe(c, s)
    ensures !NoDangling(SweepHosts(c, s).mem) <==> exists h :: Misjudged(c, s, h)
    ensures forall h :: Misjudged(c, s, h) ==> Total(s.mem.flows, Refs, h) % TWO_16 == 0
  {
    hide FlowTable, RefsAttached, Conserved, Swept, Sweep, Misjudged, InWindow, HostKey, FlowKey, NoDup, Size;
    var removed := Swept(s.htab, IdleHosts(c, s));
    assert NoDup(removed) && forall h :: h in removed ==> h in s.mem.hosts by {
      HostTableSeparate(c, s.mem, s.htab);
      SweepSummary(s.htab, IdleHosts(c, s));
    }
    DeletedHosts(s.mem, removed);
    var n := SweepHosts(c, s).mem;
    forall h ensures Misjudged(c, s, h) <==> h in removed && Total(s.mem.flows, Refs, h) > 0 {
      SweptHosts(c, s, h);
      MisjudgedIs(c, s, h);
    }
    forall h ensures Total(s.mem.flows, Refs, h) > 0 <==> exists p :: p in s.mem.flows && RefersTo(s.mem.flows[p], h) {
      Referenced(s.mem, h);
    }
    if h :| Misjudged(c, s, h) {
      var p :| p in s.mem.flows && RefersTo(s.mem.flows[p], h);
      assert p in n.flows && h !in n.hosts;
    }
    forall h | Misjudged(c, s, h) ensures Total(s.mem.flows, Refs, h) % TWO_16 == 0 {
      MisjudgedIs(c, s, h);
      assert s.mem.hosts[h].uses == 0;
    }
  }

  lemma MisjudgedIs(c: Config, s: State, h: Ptr)
    requires Shaped(s)
    ensures Misjudged(c, s, h) <==>
      InWindow(s, h) && HostIdle(c, s.now, s.mem.hosts[h]) && Total(s.mem.flows, Refs, h) > 0
  {
  }
}
