/** Which of a flow's traffic reaches its hosts: what the statistics update finds before the flow turns
    idle. What is pending then is never passed on. */
module LifecycleFate {
  import opened Addresses
  import opened HashTable
  import opened Memory
  import opened Lifecycle
  import opened LifecycleProof
  import opened LifecycleLoss
  import opened LifecycleArrivals
  import opened LifecycleEffects

  // ----- one step -----

  /** Finding or creating a flow leaves all others alone. */
  lemma GetKeeps(c: Config, s: State, t: Tuple, first: nat, last: nat, a: Alloc, p: Ptr)
    requires Shaped(s) && p in s.mem.flows && p != a.flow
    ensures var r := GetFlow(c, s, t, first, last, a); p in r.s.mem.flows && r.s.mem.flows[p] == s.mem.flows[p]
  {
    hide FindFlow, Forward;
    HostsKeep(c, s, t, a);
    var (s2, cli, srv) := FindFlowHosts(c, s, t, a);
    JoinKeeps(c, s2, FreshFlow(t, cli, srv, first, last), a.flow, p);
    hide FindFlowHosts, JoinFlow;
  }

  lemma HostsKeep(c: Config, s: State, t: Tuple, a: Alloc)
    requires Shaped(s)
    ensures FindFlowHosts(c, s, t, a).0.mem.flows == s.mem.flows
  {
    hide FindHost, Size;
  }

  lemma JoinKeeps(c: Config, s: State, f: Flow, q: Ptr, p: Ptr)
    requires Shaped(s) && p in s.mem.flows && p != q
    ensures var r := JoinFlow(c, s, f, q); p in r.s.mem.flows && r.s.mem.flows[p] == s.mem.flows[p]
  {
    hide AddUses, Size, FlowKey;
    UsesFewer(s.mem, f.cli, 1);
    UsesFewer(IncUses(s.mem, f.cli), f.srv, 1);
    var m := NewFlow(s.mem, q, f);
    UsesFewer(m, f.cli, TWO_16 - 1);
    UsesFewer(DecUses(m, f.cli), f.srv, TWO_16 - 1);
  }

  lemma CountKeeps(g: Got, t: Tuple, len: nat, flags: bv8, into: Traffic, out: Traffic, last: nat, p: Ptr)
    requires p in g.s.mem.flows
    ensures var n := CountPacket(g, t, len, flags).mem; p in n.flows && Last(n.flows[p]) == Last(g.s.mem.flows[p])
    ensures var n := CountRecord(g, t, flags, into, out, last).mem;
      p in n.flows && Last(n.flows[p]) == Last(g.s.mem.flows[p])
  {
    hide AddCount;
  }

  /** A step that only deletes flows. */
  lemma FewerKeeps(m: Mem, n: Mem, p: Ptr)
    requires Fewer(m, n) && p in m.flows && p in n.flows
    ensures n.flows[p] == m.flows[p]
  {
  }

  lemma CountingKeeps(c: Config, s: State, e: Event, p: Ptr)
    requires Shaped(s) && Fresh(s, e) && (e.Packet? || e.Record?)
    requires p in s.mem.flows && p in Step(c, s, e).mem.flows
    ensures Last(Step(c, s, e).mem.flows[p]) == Last(s.mem.flows[p])
  {
    hide GetFlow, PurgeIdle, CountPacket, CountRecord, Fewer;
    match e {
      case Packet(ts, t, len, flags, a) =>
        var g := GetFlow(c, s.(now := ts), t, ts, ts, a);
        GetKeeps(c, s.(now := ts), t, ts, ts, a, p);
        CountKeeps(g, t, len, flags, NO_TRAFFIC, NO_TRAFFIC, ts, p);
        CountedShaped(g, t, len, flags);
        PurgeFewer(c, CountPacket(g, t, len, flags), ts);
        FewerKeeps(CountPacket(g, t, len, flags).mem, Step(c, s, e).mem, p);
      case Record(first, last, t, flags, into, out, a) =>
        var s0 := s.(now := if last > s.now then last else s.now);
        var g := GetFlow(c, s0, t, first, last, a);
        GetKeeps(c, s0, t, first, last, a, p);
        CountKeeps(g, t, 0, flags, into, out, last, p);
        RecordShaped(g, t, flags, into, out, last);
        if g.flow.Some? {
          PurgeFewer(c, CountRecord(g, t, flags, into, out, last), last);
          FewerKeeps(CountRecord(g, t, flags, into, out, last).mem, Step(c, s, e).mem, p);
        }
    }
  }

  /** A flow's snapshot moves in one way only: the statistics update finds it and it is not idle. */
  lemma StepSnapshot(c: Config, s: State, e: Event, p: Ptr)
    requires Good(c, s, false) && Fresh(s, e) && p in s.mem.flows && p in Step(c, s, e).mem.flows
    ensures Last(Step(c, s, e).mem.flows[p]) ==
      if e.Housekeeping? && FlowLive(c, s, p) then Carried(s.mem.flows[p]) else Last(s.mem.flows[p])
  {
    hide Good, GetFlow, PurgeIdle, ObtainStation, DirectCredit, UpdateHostStats, CleanupAll, Fewer, FlowIdle;
    match e {
      case Packet(_, _, _, _, _) => CountingKeeps(c, s, e, p);
      case Record(_, _, _, _, _, _, _) => CountingKeeps(c, s, e, p);
      case Layer2(_, _, _, _, _, _) =>
        Layer2Flows(c, s, e);
        FewerKeeps(s.mem, Step(c, s, e).mem, p);
      case Other(ts) =>
        PurgeFewer(c, s.(now := ts), ts);
        FewerKeeps(s.mem, Step(c, s, e).mem, p);
      case Skipped(_) =>
      case Poll(when) =>
        PurgeFewer(c, s, when);
        FewerKeeps(s.mem, Step(c, s, e).mem, p);
      case Housekeeping => Walked(c, s, p);
      case Cleanup => NoFlows(c, s);
    }
  }

  lemma Walked(c: Config, s: State, p: Ptr)
    requires Good(c, s, false) && p in s.mem.flows
    ensures var t := UpdateHostStats(c, s);
      && p in t.mem.flows
      && Last(t.mem.flows[p]) == if FlowLive(c, s, p) then Carried(s.mem.flows[p]) else Last(s.mem.flows[p])
  {
    hide Tabled, Sound, UpdateHostStats, FlowIdle, Unique;
    HousekeepingSettles(c, s, p);
  }

  lemma NoFlows(c: Config, s: State)
    requires Good(c, s, false)
    ensures CleanupAll(s).mem.flows == map[]
  {
    hide Tabled, Sound, CleanupAll, Unique;
    CleanupEmpties(c, s);
  }

  lemma Layer2Flows(c: Config, s: State, e: Event)
    requires Shaped(s) && e.Layer2?
    ensures Fewer(s.mem, Step(c, s, e).mem)
  {
    hide PurgeIdle, ObtainStation, DirectCredit, Fewer;
    var s0 := s.(now := e.ts);
    var (s1, src) := ObtainStation(c, s0, e.vlan, e.srcMac, e.a.src);
    var (s2, dst) := ObtainStation(c, s1, e.vlan, e.dstMac, e.a.dst);
    var d1, d2 := Duplex(Traffic(1, e.len), NO_TRAFFIC), Duplex(NO_TRAFFIC, Traffic(1, e.len));
    var m1 := DirectCredit(s2.mem, src, d1, e.ts);
    var m2 := DirectCredit(m1, dst, d2, e.ts);
    StationFewer(c, s0, e.vlan, e.srcMac, e.a.src);
    StationFewer(c, s1, e.vlan, e.dstMac, e.a.dst);
    Layer2Fewer(s2.mem, src, d1, e.ts);
    Layer2Fewer(m1, dst, d2, e.ts);
    PurgeFewer(c, s2.(mem := m2), e.ts);
    FewerTwice(s.mem, s1.mem, s2.mem);
    FewerTwice(s.mem, s2.mem, m1);
    FewerTwice(s.mem, m1, m2);
    FewerTwice(s.mem, m2, Step(c, s, e).mem);
  }

  // ----- runs in order -----

  /** The step takes over what is pending in the flow. */
  ghost predicate Pays(c: Config, s: State, e: Event, p: Ptr)
    requires Shaped(s)
  {
    && p in s.mem.flows && p in Step(c, s, e).mem.flows
    && Last(s.mem.flows[p]) != Carried(s.mem.flows[p]) == Last(Step(c, s, e).mem.flows[p])
  }

  /** Some step of the run takes over what is then pending in the flow, before the flow is deleted. */
  ghost predicate Paid(c: Config, s: State, es: seq<Event>, p: Ptr)
    requires Shaped(s)
    decreases |es|
  {
    && es != [] && p in s.mem.flows
    && (Pays(c, s, es[0], p) || (p in Step(c, s, es[0]).mem.flows && Paid(c, Step(c, s, es[0]), es[1..], p)))
  }

  /** A statistics update comes while something is pending and before the flow turns idle. */
  ghost predicate CalledInTime(c: Config, s: State, es: seq<Event>, p: Ptr)
    requires Shaped(s)
    decreases |es|
  {
    && es != [] && FlowLive(c, s, p)
    && ((es[0].Housekeeping? && Last(s.mem.flows[p]) != Carried(s.mem.flows[p]))
        || CalledInTime(c, Step(c, s, es[0]), es[1..], p))
  }

  lemma {:induction false} IdleNeverPaid(c: Config, s: State, es: seq<Event>, p: Ptr, f: Flow, b: nat, d: int)
    requires Good(c, s, true) && Feasible(c, s, es) && Manageable(c, s, es) && InOrder(c, s, es)
    requires Waits(c, s, p, f, b, d)
    ensures !Paid(c, s, es, p)
    decreases |es|
  {
    hide Good, Step, Fresh, Timely, Uncrowded, Sweeps, Waits, FlowIdle;
    if es != [] {
      var t := Step(c, s, es[0]);
      StepGood(c, s, es[0], true);
      StepWaits(c, s, es[0], p, f, b, d);
      WaitsAre(c, s, p, f, b, d);
      if p in t.mem.flows {
        var d1 := if Sweeps(c, s, es[0]) then d - Quota(|s.ftab.buckets|) else d;
        WaitsAre(c, t, p, f, b, d1);
        IdleNeverPaid(c, t, es[1..], p, f, b, d1);
      }
    }
  }

  lemma WaitsAre(c: Config, s: State, p: Ptr, f: Flow, b: nat, d: int)
    requires Waits(c, s, p, f, b, d)
    ensures p in s.mem.flows && s.mem.flows[p] == f && !FlowLive(c, s, p) && c.purge
  {
  }

  lemma IdleWaits(c: Config, s: State, p: Ptr) returns (b: nat)
    requires Good(c, s, true) && p in s.mem.flows && !FlowLive(c, s, p)
    ensures b < |s.ftab.buckets| && Waits(c, s, p, s.mem.flows[p], b, Ahead(s.ftab, b)) && c.purge
  {
    hide Sound, HostTable, RefsAttached, Unique, FlowKey;
    b := FlowKey(s.mem.hosts, s.mem.flows[p]) % |s.ftab.buckets|;
  }

  lemma GoodBoth(c: Config, s: State)
    requires Good(c, s, true)
    ensures Good(c, s, false)
  {
    hide Safe, Unique;
  }

  /** In a run in order, a flow's pending traffic is passed on if and only if a statistics update comes
      before the flow turns idle. */
  lemma {:induction false} PaidExactly(c: Config, s: State, es: seq<Event>, p: Ptr)
    requires Good(c, s, true) && Feasible(c, s, es) && Manageable(c, s, es) && Orderly(c, s, es)
    ensures Paid(c, s, es, p) <==> CalledInTime(c, s, es, p)
    decreases |es|
  {
    hide Good, Step, Fresh, Timely, Uncrowded, FlowLive;
    if es != [] && p in s.mem.flows {
      if FlowLive(c, s, p) {
        var t := Step(c, s, es[0]);
        StepGood(c, s, es[0], true);
        GoodBoth(c, s);
        PaysExactly(c, s, es[0], p);
        PaidExactly(c, t, es[1..], p);
      } else {
        var b := IdleWaits(c, s, p);
        IdleNeverPaid(c, s, es, p, s.mem.flows[p], b, Ahead(s.ftab, b));
      }
    }
    NeedsFlow(c, s, es, p);
  }

  lemma NeedsFlow(c: Config, s: State, es: seq<Event>, p: Ptr)
    requires Shaped(s)
    ensures CalledInTime(c, s, es, p) ==> FlowLive(c, s, p) && p in s.mem.flows
  {
    hide Step, FlowIdle;
  }

  lemma PaysExactly(c: Config, s: State, e: Event, p: Ptr)
    requires Good(c, s, false) && Fresh(s, e) && FlowLive(c, s, p)
    ensures Pays(c, s, e, p) <==> e.Housekeeping? && Last(s.mem.flows[p]) != Carried(s.mem.flows[p])
  {
    hide Good, Step, Fresh, FlowIdle;
    if e.Housekeeping? {
      Walked(c, s, p);
      WalkStep(c, s);
    }
    if p in Step(c, s, e).mem.flows {
      StepSnapshot(c, s, e, p);
    }
  }

  // ----- one packet that is lost -----

  /** The first packet of all, between two hosts. */
  predicate FirstPacket(c: Config, e: Event) {
    && c.flowBuckets > 0 && c.hostBuckets > 0 && c.maxFlows > 0 && c.maxHosts > 1
    && e.Packet? && !Same(e.t.src, e.t.dst) && e.a.src != e.a.dst
  }

  /** After it: two hosts that were not credited, one flow that carries one packet, no sweep due. */
  predicate OnePending(c: Config, s: State, e: Event)
    requires e.Packet?
  {
    && Flatten(s.ftab.buckets) == [e.a.flow]
    && s.mem.flows.Keys == {e.a.flow} && s.mem.hosts.Keys == {e.a.src, e.a.dst}
    && s.mem.hosts[e.a.src].stats == NO_STATS
    && s.mem.hosts[e.a.src].id == IpIdentity(c, e.t.vlan, e.t.srcMac, e.t.src)
    && s.mem.hosts[e.a.dst].id == IpIdentity(c, e.t.vlan, e.t.dstMac, e.t.dst)
    && s.ftab.lastPurged == c.flowBuckets - 1 && s.htab.lastPurged == c.hostBuckets - 1
    && (c.purge ==> s.nextFlow == e.ts + 1 == s.nextHost)
    && var f := s.mem.flows[e.a.flow];
       f.cli == Some(e.a.src) && f.srv == Some(e.a.dst) && f.lastSeen == e.ts
       && f.cliPort == e.t.srcPort && f.srvPort == e.t.dstPort && f.vlan == e.t.vlan && f.proto == e.t.proto
  }

  lemma PacketFirst(c: Config, e: Event)
    requires FirstPacket(c, e)
    ensures OnePending(c, Step(c, Initial(c), e), e) && Step(c, Initial(c), e).now == e.ts
    ensures Contribution(c, Initial(c), e, SentPkts, e.a.src) == 1
  {
    hide GetFlow, Flatten, PurgeIdle;
    var s := Initial(c).(now := e.ts);
    FirstGot(c, s, e.t, e.ts, e.ts, e.a);
    var g := GetFlow(c, s, e.t, e.ts, e.ts, e.a);
    FirstTimers(c, CountPacket(g, e.t, e.len, e.flags), e.ts);
  }

  /** The first purge sets the timers. */
  lemma FirstTimers(c: Config, s: State, when: nat)
    requires Shaped(s) && s.nextFlow == 0 && s.nextHost == 0 && s.now == when
    ensures PurgeIdle(c, s, when) == if c.purge then s.(nextFlow := when + 1, nextHost := when + 1) else s
  {
    hide SweepFlows, SweepHosts;
  }

  lemma FirstGood(c: Config, e: Event)
    requires FirstPacket(c, e) && e.ts < TWO_32
    ensures Fresh(Initial(c), e) && Good(c, Step(c, Initial(c), e), true)
  {
    hide Good, Step;
    InitialGood(c);
    NobodyCrowded(c, Initial(c));
    StepGood(c, Initial(c), e, true);
  }

  lemma NobodyCrowded(c: Config, s: State)
    requires s.mem.hosts == map[]
    ensures Uncrowded(c, s)
  {
  }

  /** The flow's bucket is among the first that are swept, its source's is not. */
  predicate SweptFirst(c: Config, t: Tuple)
    requires c.flowBuckets > 0 && c.hostBuckets > 0
  {
    LookupHash(t) % c.flowBuckets < Quota(c.flowBuckets) && Key(t.src) % c.hostBuckets >= Quota(c.hostBuckets)
  }

  lemma FlowPlace(c: Config, s: State, e: Event)
    requires FirstPacket(c, e) && Good(c, s, true) && OnePending(c, s, e)
    ensures |s.ftab.buckets| == c.flowBuckets && |s.htab.buckets| == c.hostBuckets
    ensures FlowKey(s.mem.hosts, s.mem.flows[e.a.flow]) == LookupHash(e.t)
    ensures HostKey(s.mem.hosts[e.a.src].id) == Key(e.t.src)
  {
    hide Sound, RefsAttached, Unique, NoDup, Key, Flatten;
  }

  /** Once the flow is idle, the update does not look at it. */
  lemma IdleWalk(c: Config, s: State, p: Ptr)
    requires Flatten(s.ftab.buckets) == [p] && p in s.mem.flows && FlowIdle(c, s.now, s.mem.flows[p])
    ensures UpdateHostStats(c, s) == s
  {
    hide Flatten, FlowIdle;
    assert [p][1..] == [];
    assert UpdateAll(c, s.now, s.mem, []) == s.mem;
    assert UpdateAll(c, s.now, s.mem, [p]) == s.mem;
  }

  /** The sweep then frees the flow. */
  lemma IdleFlowSwept(c: Config, s: State, e: Event)
    requires FirstPacket(c, e) && Good(c, s, true) && OnePending(c, s, e) && SweptFirst(c, e.t)
    requires FlowIdle(c, s.now, s.mem.flows[e.a.flow])
    ensures SweepFlows(c, s).mem.flows == map[]
  {
    FlowPlace(c, s, e);
    GoodParts(c, s);
    SweepFlowsExact(c, s, e.a.flow);
    SweepFewer(c, s);
    hide Good, Safe, Flatten, FlowIdle, FlowKey, HostKey, Key, LookupHash, SweepFlows;
    var t := SweepFlows(c, s);
    assert e.a.flow !in t.mem.flows;
    assert t.mem.flows.Keys == {};
  }

  lemma GoodParts(c: Config, s: State)
    requires Good(c, s, true)
    ensures Safe(c, s) && Shaped(s)
  {
    hide Safe;
  }

  lemma SweptHostKept(c: Config, s: State, h: Ptr)
    requires Safe(c, s) && h in s.mem.hosts
    ensures var t := SweepFlows(c, s);
      h in t.mem.hosts && t.mem.hosts[h].stats == s.mem.hosts[h].stats && t.mem.hosts[h].id == s.mem.hosts[h].id
  {
    SweepFlowsSound(c, s);
    hide Tabled, Sound, SweepFlows, SetOf, Swept;
  }

  /** It leaves the hosts as they were. */
  lemma HostsSame(c: Config, s: State, h: Ptr)
    requires Good(c, s, true) && Light(s.mem) && h in s.mem.hosts
    ensures var t := SweepFlows(c, s);
      && Good(c, t, true) && Light(t.mem) && t.htab == s.htab && t.now == s.now && t.nextHost == s.nextHost
      && h in t.mem.hosts && t.mem.hosts[h].stats == s.mem.hosts[h].stats && t.mem.hosts[h].id == s.mem.hosts[h].id
  {
    hide Safe, Unique, Light, SweepFlows;
    SweepFlowsGood(c, s, true);
    SweptHostKept(c, s, h);
    SweepFlowsFrame(c, s);
  }

  lemma SweepFlowsFrame(c: Config, s: State)
    requires Shaped(s)
    ensures var t := SweepFlows(c, s); t.htab == s.htab && t.now == s.now && t.nextHost == s.nextHost
  {
    hide Swept, Sweep, IdleFlows, DeleteFlows;
  }

  lemma SweepFewer(c: Config, s: State)
    requires Shaped(s)
    ensures Fewer(s.mem, SweepFlows(c, s).mem)
  {
    DeleteFlowsFewer(s.mem, Swept(s.ftab, IdleFlows(c, s)));
  }

  /** Its source comes later. */
  lemma SourceStays(c: Config, s: State, e: Event)
    requires FirstPacket(c, e) && Good(c, s, true) && Light(s.mem) && e.a.src in s.mem.hosts && SweptFirst(c, e.t)
    requires HostKey(s.mem.hosts[e.a.src].id) == Key(e.t.src) && s.htab.lastPurged == c.hostBuckets - 1
    requires |s.htab.buckets| == c.hostBuckets
    ensures var t := SweepHosts(c, s);
      && t.mem.flows == s.mem.flows && e.a.src in t.mem.hosts && t.mem.hosts[e.a.src] == s.mem.hosts[e.a.src]
  {
    hide FlowTable, HostTable, RefsAttached, Unique, Sound, HostIdle, HostKey, Key, LookupHash, SweepHosts;
    SweepHostsExact(c, s, e.a.src);
    HostsKeepFlows(c, s);
  }

  lemma OneLight(m: Mem, p: Ptr)
    requires m.flows.Keys == {p}
    ensures Light(m)
  {
    assert |m.flows| == |m.flows.Keys| == 1;
    forall h | h in m.hosts ensures Total(m.flows, Refs, h) < TWO_16 {
      RefsBounds(m.flows, h);
    }
  }

  /** Both sweeps are due. */
  lemma PurgeBoth(c: Config, s: State, e: Event)
    requires FirstPacket(c, e) && Shaped(s) && OnePending(c, s, e) && c.purge && e.ts < s.now
    ensures PurgeIdle(c, s, s.now).mem == SweepHosts(c, SweepFlows(c, s).(nextFlow := s.now + FLOW_PURGE_FREQUENCY)).mem
  {
    hide Sweep, Swept, Flatten, DeleteFlows, DeleteHosts;
    assert s.(now := s.now) == s;
  }

  lemma LateSource(c: Config, s: State, t: State, e: Event)
    requires FirstPacket(c, e) && Good(c, s, true) && OnePending(c, s, e) && SweptFirst(c, e.t)
    requires Good(c, t, true) && Light(t.mem) && t.htab == s.htab && e.a.src in t.mem.hosts
    requires t.mem.hosts[e.a.src].id == s.mem.hosts[e.a.src].id && t.mem.hosts[e.a.src].stats == NO_STATS
    ensures var r := SweepHosts(c, t.(nextFlow := s.now + FLOW_PURGE_FREQUENCY));
      r.mem.flows == t.mem.flows && e.a.src in r.mem.hosts && r.mem.hosts[e.a.src].stats == NO_STATS
  {
    FlowPlace(c, s, e);
    hide Good, Flatten, HostKey, Key, LookupHash, SweepHosts, Light, SweptFirst;
    TimersGood(c, t, s.now + FLOW_PURGE_FREQUENCY, t.nextHost, true);
    SourceStays(c, t.(nextFlow := s.now + FLOW_PURGE_FREQUENCY), e);
  }

  lemma LateSweep(c: Config, s: State, e: Event)
    requires FirstPacket(c, e) && Good(c, s, true) && OnePending(c, s, e) && SweptFirst(c, e.t) && c.purge
    requires e.ts < s.now && FlowIdle(c, s.now, s.mem.flows[e.a.flow])
    ensures var t := PurgeIdle(c, s, s.now);
      t.mem.flows == map[] && e.a.src in t.mem.hosts && t.mem.hosts[e.a.src].stats == NO_STATS
  {
    FlowPlace(c, s, e);
    IdleFlowSwept(c, s, e);
    OneLight(s.mem, e.a.flow);
    HostsSame(c, s, e.a.src);
    PurgeBoth(c, s, e);
    LateSource(c, s, SweepFlows(c, s), e);
    hide Good, OnePending, FlowIdle, HostKey, Key, SweepFlows, SweepHosts, PurgeIdle, Light, SweptFirst;
  }

  lemma LostFrom(c: Config, s0: State, e: Event, s1: State, late: nat)
    requires FirstPacket(c, e) && c.purge && SweptFirst(c, e.t) && late == e.ts + c.flowMaxIdle + 1 < TWO_32
    requires Shaped(s0) && Fresh(s0, e) && Timely(s0, e) && s1 == Step(c, s0, e) && s1.now == e.ts
    requires Good(c, s1, true) && OnePending(c, s1, e) && Contribution(c, s0, e, SentPkts, e.a.src) == 1
    ensures var es := [e, Skipped(late), Housekeeping, Poll(late)];
      && Feasible(c, s0, es) && InOrder(c, s0, es) && Arrived(c, s0, es, SentPkts, e.a.src, 0) == 1
      && var m := Run(c, s0, es).mem;
         m.flows == map[] && e.a.src in m.hosts && m.hosts[e.a.src].stats == NO_STATS
  {
    hide Good, Step, SweptFirst, PurgeIdle, Arrived, Run, Feasible, InOrder, Contribution, OnePending, Fresh, Timely;
    hide FlowIdle, UpdateHostStats;
    LateState(c, s1, e, late);
    LateEnd(c, s1, e, late);
    LostRun(c, s0, e, late, s1, s1.(now := late), e.a.src);
  }

  /** For a first packet in the right place: after the clock has gone past the flow's idle time, the
      update skips the flow and the sweep deletes it. The packet arrived, but its source shows none. */
  lemma PacketLost(c: Config, e: Event) returns (es: seq<Event>)
    requires FirstPacket(c, e) && c.purge && SweptFirst(c, e.t) && e.ts + c.flowMaxIdle + 1 < TWO_32
    ensures Feasible(c, Initial(c), es) && InOrder(c, Initial(c), es)
    ensures Arrived(c, Initial(c), es, SentPkts, e.a.src, 0) == 1
    ensures var m := Run(c, Initial(c), es).mem;
      m.flows == map[] && e.a.src in m.hosts && m.hosts[e.a.src].stats == NO_STATS
  {
    hide Good, Step, SweptFirst, Arrived, Run, Feasible, InOrder, Contribution, OnePending, Fresh;
    var late := e.ts + c.flowMaxIdle + 1;
    PacketFirst(c, e);
    FirstGood(c, e);
    es := [e, Skipped(late), Housekeeping, Poll(late)];
    LostFrom(c, Initial(c), e, Step(c, Initial(c), e), late);
  }

  lemma LateEnd(c: Config, s: State, e: Event, late: nat)
    requires FirstPacket(c, e) && c.purge && SweptFirst(c, e.t) && e.ts < late
    requires Good(c, s.(now := late), true) && OnePending(c, s.(now := late), e)
    requires FlowIdle(c, late, s.mem.flows[e.a.flow])
    ensures var s2 := s.(now := late);
      && UpdateHostStats(c, s2) == s2 && e.a.src in s2.mem.hosts
      && var m := PurgeIdle(c, s2, late).mem;
         m.flows == map[] && e.a.src in m.hosts && m.hosts[e.a.src].stats == NO_STATS
  {
    hide Good, SweptFirst, PurgeIdle, FlowIdle, Flatten, UpdateHostStats;
    IdleWalk(c, s.(now := late), e.a.flow);
    LateSweep(c, s.(now := late), e);
  }

  lemma LateState(c: Config, s: State, e: Event, late: nat)
    requires FirstPacket(c, e) && Good(c, s, true) && OnePending(c, s, e) && s.now == e.ts && c.purge
    requires late == e.ts + c.flowMaxIdle + 1 < TWO_32
    ensures Good(c, s.(now := late), true) && OnePending(c, s.(now := late), e)
    ensures FlowIdle(c, late, s.mem.flows[e.a.flow])
  {
    TickGood(c, s, late, true);
    hide Good, Flatten;
  }

  /** One event in front of a run. */
  lemma RunCons(c: Config, s: State, e: Event, es: seq<Event>, h: Ptr, sum: int)
    requires Shaped(s)
    ensures var t := Step(c, s, e);
      && Run(c, s, [e] + es) == Run(c, t, es)
      && (Feasible(c, s, [e] + es) <==> Fresh(s, e) && Feasible(c, t, es))
      && (InOrder(c, s, [e] + es) <==> Timely(s, e) && InOrder(c, t, es))
      && Arrived(c, s, [e] + es, SentPkts, h, sum) ==
           Arrived(c, t, es, SentPkts, h, (if h in s.mem.hosts then sum else 0) + Contribution(c, s, e, SentPkts, h))
  {
    hide Step, Fresh, Timely, Contribution;
    assert ([e] + es)[1..] == es;
  }

  lemma LostTail(c: Config, late: nat, s1: State, s2: State, h: Ptr)
    requires Shaped(s1) && s2 == s1.(now := late) && s1.now <= late < TWO_32 && UpdateHostStats(c, s2) == s2
    requires h in s1.mem.hosts
    ensures var es := [Skipped(late), Housekeeping, Poll(late)];
      && Feasible(c, s1, es) && InOrder(c, s1, es) && Run(c, s1, es) == PurgeIdle(c, s2, late)
      && Arrived(c, s1, es, SentPkts, h, 1) == 1
  {
    LostSteps(c, late, s1, s2, h);
    hide Step, PurgeIdle, UpdateHostStats, Run, Feasible, InOrder, Arrived, Contribution, Fresh, Timely;
    EmptyRun(c, PurgeIdle(c, s2, late), h, 1);
    RunCons(c, s2, Poll(late), [], h, 1);
    assert [Poll(late)] + [] == [Poll(late)];
    RunCons(c, s2, Housekeeping, [Poll(late)], h, 1);
    assert [Housekeeping] + [Poll(late)] == [Housekeeping, Poll(late)];
    RunCons(c, s1, Skipped(late), [Housekeeping, Poll(late)], h, 1);
    assert [Skipped(late)] + [Housekeeping, Poll(late)] == [Skipped(late), Housekeeping, Poll(late)];
  }

  lemma LostRun(c: Config, s0: State, e: Event, late: nat, s1: State, s2: State, h: Ptr)
    requires Shaped(s0) && Fresh(s0, e) && Timely(s0, e) && Shaped(s1) && s1 == Step(c, s0, e) && s2 == s1.(now := late)
    requires s1.now <= late < TWO_32 && UpdateHostStats(c, s2) == s2 && h in s1.mem.hosts
    requires Contribution(c, s0, e, SentPkts, h) == 1
    ensures var es := [e, Skipped(late), Housekeeping, Poll(late)];
      && Feasible(c, s0, es) && InOrder(c, s0, es) && Run(c, s0, es) == PurgeIdle(c, s2, late)
      && Arrived(c, s0, es, SentPkts, h, 0) == 1
  {
    hide Step, PurgeIdle, UpdateHostStats, Run, Feasible, InOrder, Arrived, Contribution, Fresh, Timely;
    LostTail(c, late, s1, s2, h);
    var es := [Skipped(late), Housekeeping, Poll(late)];
    RunCons(c, s0, e, es, h, 0);
    assert [e] + es == [e, Skipped(late), Housekeeping, Poll(late)];
  }

  lemma EmptyRun(c: Config, s: State, h: Ptr, sum: int)
    requires Shaped(s)
    ensures Run(c, s, []) == s && Feasible(c, s, []) && InOrder(c, s, []) && Arrived(c, s, [], SentPkts, h, sum) == sum
  {
  }

  lemma LostSteps(c: Config, late: nat, s1: State, s2: State, h: Ptr)
    requires Shaped(s1) && s2 == s1.(now := late) && UpdateHostStats(c, s2) == s2
    ensures Step(c, s1, Skipped(late)) == s2 && Step(c, s2, Housekeeping) == s2
    ensures Step(c, s2, Poll(late)) == PurgeIdle(c, s2, late)
    ensures Fresh(s1, Skipped(late)) && Fresh(s2, Housekeeping) && Fresh(s2, Poll(late))
    ensures s1.now <= late < TWO_32 ==> Timely(s1, Skipped(late)) && Timely(s2, Housekeeping) && Timely(s2, Poll(late))
    ensures Contribution(c, s1, Skipped(late), SentPkts, h) == 0 && Contribution(c, s2, Housekeeping, SentPkts, h) == 0
    ensures Contribution(c, s2, Poll(late), SentPkts, h) == 0
  {
    hide PurgeIdle, UpdateHostStats;
  }

  // ----- in every configuration -----

  /** The IPv4 address with this key. */
  function WithKey(k: u32): Ip { Ip(4, Ntohl(k), 0, 0, 0) }

  lemma KeyOf(k: u32)
    ensures Key(WithKey(k)) == k
  {
    hide Ntohl;
    NtohlInvolutive(k);
  }

  /** In the first bucket that is not swept at first. */
  function SourceKey(c: Config): nat { if c.hostBuckets < PURGE_FRACTION then 1 else Quota(c.hostBuckets) }

  function LostTuple(c: Config): Tuple
    requires 0 < SourceKey(c) < TWO_32 - IPPROTO_UDP
  {
    Tuple(0, IPPROTO_UDP, [0, 0, 0, 0, 0, 0], WithKey(SourceKey(c)), 0,
      [0, 0, 0, 0, 0, 0], WithKey(TWO_32 - IPPROTO_UDP - SourceKey(c)), 0)
  }

  lemma LostPlace(c: Config)
    requires PURGE_FRACTION <= c.flowBuckets && 0 < c.hostBuckets < TWO_32
    ensures 0 < SourceKey(c) < TWO_32 - IPPROTO_UDP
    ensures SweptFirst(c, LostTuple(c)) && !Same(LostTuple(c).src, LostTuple(c).dst)
  {
    SourcePlace(c);
    var t, x, y := LostTuple(c), SourceKey(c), TWO_32 - IPPROTO_UDP - SourceKey(c);
    KeyOf(x);
    KeyOf(y);
    hide WithKey, Key, SourceKey, Quota;
    assert t.src == WithKey(x) && t.dst == WithKey(y);
    NoHash(t, x, y);
    FirstBucket(c.flowBuckets);
    hide LostTuple, LookupHash;
    if Same(t.src, t.dst) {
      SameKey(t.src, t.dst);
    }
  }

  lemma NoHash(t: Tuple, x: u32, y: u32)
    requires Key(t.src) == x && Key(t.dst) == y && t.srcPort == t.dstPort == t.vlan == 0 && t.proto == IPPROTO_UDP
    requires x + y + IPPROTO_UDP == TWO_32
    ensures LookupHash(t) == 0
  {
    hide Key;
  }

  lemma FirstBucket(n: nat)
    requires n >= PURGE_FRACTION
    ensures 0 % n < Quota(n)
  {
  }

  lemma SourcePlace(c: Config)
    requires 0 < c.hostBuckets < TWO_32
    ensures 0 < SourceKey(c) < TWO_32 - IPPROTO_UDP && SourceKey(c) % c.hostBuckets >= Quota(c.hostBuckets)
  {
    var n := c.hostBuckets;
    if n >= PURGE_FRACTION {
      assert SourceKey(c) == n / PURGE_FRACTION < n;
      Small(n / PURGE_FRACTION, n);
    }
  }

  lemma Small(x: nat, n: nat)
    requires x < n
    ensures x % n == x
  {
  }

  /** In every configuration that purges, sweeps flows at all and has room, and from any time on, there
      is a run in order in which a packet arrives and never shows. */
  lemma AlwaysSomeLost(c: Config, at: nat) returns (es: seq<Event>, h: Ptr)
    requires c.purge && PURGE_FRACTION <= c.flowBuckets && 0 < c.hostBuckets < TWO_32
    requires c.maxFlows > 0 && c.maxHosts > 1 && at + c.flowMaxIdle + 1 < TWO_32
    ensures Feasible(c, Initial(c), es) && InOrder(c, Initial(c), es)
    ensures Arrived(c, Initial(c), es, SentPkts, h, 0) == 1
    ensures var m := Run(c, Initial(c), es).mem; m.flows == map[] && h in m.hosts && m.hosts[h].stats == NO_STATS
  {
    hide LostTuple, SweptFirst, Feasible, InOrder, Run, Arrived;
    LostPlace(c);
    h := 0;
    es := PacketLost(c, Packet(at, LostTuple(c), 0, 0, Alloc(0, 0, 1)));
  }
}
