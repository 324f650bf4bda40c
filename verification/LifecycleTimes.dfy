/** What keeps a flow alive: each packet or record of its endpoints renews its time and adds its TCP
    flags, and nothing else does; a flow that is used often enough is never freed. */
module LifecycleTimes {
  import opened Addresses
  import opened HashTable
  import opened Memory
  import opened Lifecycle
  import opened LifecycleProof
  import opened LifecycleLoss
  import opened LifecycleArrivals
  import opened LifecycleEffects
  import opened LifecycleFate
  import opened LifecycleHostTimes
  import LifecycleHosts

  // ----- which packets are a flow's -----

  /** Same VLAN, protocol and endpoints, in one order or the other. */
  predicate SameEnds(t: Tuple, u: Tuple) {
    && t.vlan == u.vlan && t.proto == u.proto
    && ((Same(t.src, u.src) && Same(t.dst, u.dst) && t.srcPort == u.srcPort && t.dstPort == u.dstPort)
        || (Same(t.src, u.dst) && Same(t.dst, u.src) && t.srcPort == u.dstPort && t.dstPort == u.srcPort))
  }

  /** The flow at address p is from u's source to u's destination. */
  predicate HasEnds(m: Mem, p: Ptr, u: Tuple) { p in m.flows && Forward(m.hosts, m.flows[p], u) }

  lemma EndsMatch(m: Mem, p: Ptr, u: Tuple, t: Tuple)
    requires HasEnds(m, p, u)
    ensures Matches(m.hosts, m.flows[p], t) <==> SameEnds(t, u)
  {
  }

  /** A live flow that matches a tuple with the same ends is the flow itself. */
  lemma OnlyMatch(c: Config, s: State, p: Ptr, u: Tuple, q: Ptr, t: Tuple)
    requires FlowsUnique(c, s) && HasEnds(s.mem, p, u) && FlowLive(c, s, p) && FlowLive(c, s, q)
    requires Matches(s.mem.hosts, s.mem.flows[q], t) && SameEnds(t, u)
    ensures p == q
  {
    hide FlowIdle;
    assert SameFlow(s.mem.hosts, s.mem.flows[p], s.mem.flows[q]);
  }

  // ----- one step -----

  /** Packets and records, and when they say that their flow was last seen. */
  predicate Uses(e: Event) { e.Packet? || e.Record? }

  function UseTime(e: Event): nat
    requires Uses(e)
  {
    if e.Packet? then e.ts else e.last
  }

  /** What one use makes of a flow's times and flags. */
  predicate Renewed(f: Flow, g: Flow, when: nat, flags: bv8) {
    && g.lastSeen == when && g.firstSeen == (if f.firstSeen == 0 then when else f.firstSeen)
    && g.tcpFlags == (if f.proto == 6 then f.tcpFlags | flags else f.tcpFlags)
    && SameMeta(f, g)
  }

  predicate SameMeta(f: Flow, g: Flow) {
    && g.cli == f.cli && g.srv == f.srv && g.cliPort == f.cliPort && g.srvPort == f.srvPort
    && g.vlan == f.vlan && g.proto == f.proto
  }

  predicate SameTimes(f: Flow, g: Flow) {
    SameMeta(f, g) && g.lastSeen == f.lastSeen && g.firstSeen == f.firstSeen && g.tcpFlags == f.tcpFlags
  }

  /** Counting renews the times and leaves the flags. */
  predicate TimesOnly(f: Flow, g: Flow, when: nat) {
    && g.lastSeen == when && g.firstSeen == (if f.firstSeen == 0 then when else f.firstSeen)
    && g.tcpFlags == f.tcpFlags && SameMeta(f, g)
  }

  lemma IncTimes(f: Flow, dir: bool, len: nat, now: nat)
    ensures TimesOnly(f, FlowIncStats(f, dir, len, now), now)
  {
    hide AddCount;
  }

  lemma FlagsRenew(f: Flow, g: Flow, when: nat, t: Tuple, flags: bv8)
    requires TimesOnly(f, g, when) && t.proto == f.proto
    ensures Renewed(f, WithFlags(g, t, flags), when, flags)
  {
  }

  lemma IncRenews(f: Flow, dir: bool, len: nat, now: nat, t: Tuple, flags: bv8)
    requires t.proto == f.proto
    ensures Renewed(f, WithFlags(FlowIncStats(f, dir, len, now), t, flags), now, flags)
  {
    hide FlowIncStats, WithFlags, TimesOnly, Renewed;
    IncTimes(f, dir, len, now);
    FlagsRenew(f, FlowIncStats(f, dir, len, now), now, t, flags);
  }

  lemma AddRenews(f: Flow, dir: bool, into: Traffic, out: Traffic, when: nat, t: Tuple, flags: bv8)
    requires t.proto == f.proto
    ensures Renewed(f, AddFlowStats(WithFlags(f, t, flags), dir, into, out, when), when, flags)
  {
    hide AddCount;
  }

  /** The memory after the packet or record was counted. */
  function After(got: Got, e: Event): Mem
    requires Uses(e)
  {
    if e.Packet? then CountPacket(got, e.t, e.len, e.flags).mem
    else CountRecord(got, e.t, e.flags, e.into, e.out, e.last).mem
  }

  lemma CountRenews(got: Got, e: Event, p: Ptr)
    requires Uses(e) && p in got.s.mem.flows && (e.Packet? ==> got.s.now == e.ts)
    ensures var n, f := After(got, e), got.s.mem.flows[p];
      && p in n.flows && n.hosts == got.s.mem.hosts
      && (got.flow == Some(p) && e.t.proto == f.proto ==> Renewed(f, n.flows[p], UseTime(e), e.flags))
      && (got.flow != Some(p) ==> n.flows[p] == f)
  {
    var f := got.s.mem.flows[p];
    if got.flow == Some(p) && e.t.proto == f.proto {
      if e.Packet? {
        IncRenews(f, got.src2dst, e.len, got.s.now, e.t, e.flags);
      } else {
        AddRenews(f, got.src2dst, e.into, e.out, e.last, e.t, e.flags);
      }
    }
    hide FlowIncStats, AddFlowStats, WithFlags, Renewed;
  }

  /** The clock at which an event looks flows up. */
  function Clock(s: State, e: Event): nat
    requires Uses(e)
  {
    if e.Packet? then e.ts else if e.last > s.now then e.last else s.now
  }

  function Got(c: Config, s: State, e: Event): (r: Got)
    requires Shaped(s) && Uses(e)
    ensures Shaped(r.s)
  {
    if e.Packet? then GetFlow(c, s.(now := e.ts), e.t, e.ts, e.ts, e.a)
    else GetFlow(c, s.(now := Clock(s, e)), e.t, e.first, e.last, e.a)
  }

  /** The lookup finds the flow exactly if it is live and has the packet's ends. */
  lemma GotOwn(c: Config, s: State, e: Event, p: Ptr, u: Tuple)
    requires Good(c, s, true) && Fresh(s, e) && Uses(e) && (c.purge ==> Timely(s, e)) && HasEnds(s.mem, p, u)
    ensures var own := FlowLive(c, s.(now := Clock(s, e)), p) && SameEnds(e.t, u);
      var g := Got(c, s, e);
      && (own <==> g.flow == Some(p)) && (own ==> g.s == s.(now := Clock(s, e)))
      && p in g.s.mem.flows && g.s.mem.flows[p] == s.mem.flows[p] && g.s.now == Clock(s, e)
  {
    var s0 := s.(now := Clock(s, e));
    var first, last := if e.Packet? then e.ts else e.first, UseTime(e);
    TickGood(c, s, Clock(s, e), true);
    GoodUnique(c, s0);
    EndsMatch(s.mem, p, u, e.t);
    GotExact(c, s0, e.t, first, last, e.a, p);
    hide Good, FlowsUnique, FlowIdle, GetFlow, Matches, HasEnds, SameEnds;
    var g := GetFlow(c, s0, e.t, first, last, e.a);
    assert g == Got(c, s, e);
    if FlowLive(c, s0, p) && SameEnds(e.t, u) {
      OnlyMatch(c, s0, p, u, g.flow.value, e.t);
    }
  }

  lemma GoodUnique(c: Config, s: State)
    requires Good(c, s, true)
    ensures FlowsUnique(c, s)
  {
    hide Safe, FlowsUnique, HostsUnique;
  }

  /** getFlow, as far as one flow is concerned. */
  lemma GotExact(c: Config, s: State, t: Tuple, first: nat, last: nat, a: Alloc, p: Ptr)
    requires Good(c, s, true) && p in s.mem.flows && (c.purge ==> last == s.now)
    requires a.flow !in s.mem.flows && a.src !in s.mem.hosts && a.dst !in s.mem.hosts && a.src != a.dst
    ensures var g := GetFlow(c, s, t, first, last, a);
      && g.s.now == s.now && p in g.s.mem.flows && g.s.mem.flows[p] == s.mem.flows[p]
      && (FlowLive(c, s, p) && Matches(s.mem.hosts, s.mem.flows[p], t) ==>
            g.s == s && g.flow.Some? && FlowLive(c, s, g.flow.value)
            && Matches(s.mem.hosts, s.mem.flows[g.flow.value], t))
      && (g.flow == Some(p) ==> FlowLive(c, s, p) && Matches(s.mem.hosts, s.mem.flows[p], t))
  {
    GetFlowExact(c, s, t, first, last, a, true);
    GetFlowGood(c, s, t, first, last, a, true);
    hide Good, GetFlow, FlowLive, Matches, FreshFlow;
  }

  /** The memory in which the step comes to its purge, or ends without one. */
  function Mid(c: Config, s: State, e: Event): Mem
    requires Shaped(s)
  {
    var x := BeforePurge(c, s, e);
    if x.Some? then x.value.mem else Step(c, s, e).mem
  }

  lemma MidIs(c: Config, s: State, e: Event)
    requires Shaped(s) && Uses(e)
    ensures Mid(c, s, e) == After(Got(c, s, e), e)
  {
    hide GetFlow, PurgeIdle, CountPacket;
    if e.Record? {
      NoFlow(Got(c, s, e), e.t, e.flags, e.into, e.out, e.last);
    }
  }

  /** Before it purges, a packet or record renews its own flow, if that is live, and leaves all others. */
  lemma BeforeRenews(c: Config, s: State, e: Event, p: Ptr, u: Tuple)
    requires Good(c, s, true) && Fresh(s, e) && Uses(e) && (c.purge ==> Timely(s, e)) && HasEnds(s.mem, p, u)
    ensures var own := FlowLive(c, s.(now := Clock(s, e)), p) && SameEnds(e.t, u);
      var m := Mid(c, s, e);
      && p in m.flows
      && (if own then Renewed(s.mem.flows[p], m.flows[p], UseTime(e), e.flags) else m.flows[p] == s.mem.flows[p])
  {
    GotOwn(c, s, e, p, u);
    CountRenews(Got(c, s, e), e, p);
    MidIs(c, s, e);
    if SameEnds(e.t, u) {
      EndsProto(s.mem, p, u, e.t);
    }
    hide Good, Got, After, Mid, FlowLive, HasEnds, SameEnds, Renewed, Fresh;
  }

  lemma EndsProto(m: Mem, p: Ptr, u: Tuple, t: Tuple)
    requires HasEnds(m, p, u) && SameEnds(t, u)
    ensures m.flows[p].proto == t.proto
  {
  }

  /** The purge leaves a flow alone that is not idle at its time. */
  lemma PurgeLeaves(c: Config, x: State, when: nat, p: Ptr)
    requires Good(c, x, true) && Countable(c, x.mem) && x.now == when && p in x.mem.flows
    requires !FlowIdle(c, when, x.mem.flows[p])
    ensures var t := PurgeIdle(c, x, when); p in t.mem.flows && t.mem.flows[p] == x.mem.flows[p]
  {
    GoodParts(c, x);
    assert x.(now := when) == x;
    hide Good, Safe, SweepFlows, SweepHosts, FlowIdle, Light;
    if c.purge {
      var x2 := PurgeFlows(c, x);
      if x.nextFlow != 0 && x.now >= x.nextFlow {
        SweepFlowsExact(c, x, p);
        SweepFlowsGood(c, x, true);
        TimersGood(c, SweepFlows(c, x), x2.nextFlow, SweepFlows(c, x).nextHost, true);
      } else {
        TimersGood(c, x, x2.nextFlow, x.nextHost, true);
      }
      PurgeHostsFlows(c, x2);
    }
  }

  lemma PurgeHostsFlows(c: Config, x: State)
    requires Good(c, x, true) && Light(x.mem)
    ensures PurgeHosts(c, x).mem.flows == x.mem.flows
  {
    HostsKeepFlows(c, x);
    hide Good, Light, SweepHosts;
  }

  /** The event's packet or record belongs to the flow, which is live when it comes. */
  predicate Own(c: Config, s: State, e: Event, p: Ptr, u: Tuple) {
    Uses(e) && FlowLive(c, s.(now := Clock(s, e)), p) && SameEnds(e.t, u)
  }

  /** Events that are not uses do not renew. */
  lemma OtherRenews(c: Config, s: State, e: Event, p: Ptr)
    requires Good(c, s, true) && Fresh(s, e) && !Uses(e) && !e.Cleanup? && p in s.mem.flows
    ensures var m := Mid(c, s, e); p in m.flows && SameTimes(s.mem.flows[p], m.flows[p])
  {
    hide Good, PurgeIdle, ObtainStation, DirectCredit, UpdateHostStats;
    match e {
      case Layer2(ts, vlan, srcMac, dstMac, len, a) =>
        StationFlows(c, s.(now := ts), vlan, srcMac, a.src);
        StationFlows(c, ObtainStation(c, s.(now := ts), vlan, srcMac, a.src).0, vlan, dstMac, a.dst);
        var (s1, src) := ObtainStation(c, s.(now := ts), vlan, srcMac, a.src);
        var (s2, dst) := ObtainStation(c, s1, vlan, dstMac, a.dst);
        DirectFlows(s2.mem, src, Duplex(Traffic(1, len), NO_TRAFFIC), ts);
        DirectFlows(DirectCredit(s2.mem, src, Duplex(Traffic(1, len), NO_TRAFFIC), ts), dst,
          Duplex(NO_TRAFFIC, Traffic(1, len)), ts);
      case Other(_) =>
      case Skipped(_) =>
      case Poll(_) =>
      case Housekeeping => WalkTimes(c, s, p);
    }
  }

  lemma StationFlows(c: Config, s: State, vlan: u16, mac: Mac, h: Ptr)
    requires Shaped(s)
    ensures ObtainStation(c, s, vlan, mac, h).0.mem.flows == s.mem.flows
  {
    hide Size, FindStation;
  }

  lemma WalkTimes(c: Config, s: State, p: Ptr)
    requires Good(c, s, true) && p in s.mem.flows
    ensures var m := UpdateHostStats(c, s).mem; p in m.flows && SameTimes(s.mem.flows[p], m.flows[p])
  {
    GoodParts(c, s);
    HousekeepingSettles(c, s, p);
    hide Good, Safe, UpdateHostStats, FlowIdle;
  }

  /** What any step but the cleanup makes of a flow before it purges. */
  lemma MidRenews(c: Config, s: State, e: Event, p: Ptr, u: Tuple)
    requires Good(c, s, true) && Fresh(s, e) && !e.Cleanup? && (c.purge ==> Timely(s, e)) && HasEnds(s.mem, p, u)
    ensures var m, f := Mid(c, s, e), s.mem.flows[p];
      && p in m.flows
      && (if Own(c, s, e, p, u) then Renewed(f, m.flows[p], UseTime(e), e.flags) else SameTimes(f, m.flows[p]))
  {
    hide Good, Mid, FlowLive, HasEnds, SameEnds, Renewed, Fresh, Timely;
    if Uses(e) {
      BeforeRenews(c, s, e, p, u);
    } else {
      EndsIn(s.mem, p, u);
      OtherRenews(c, s, e, p);
    }
  }

  lemma EndsIn(m: Mem, p: Ptr, u: Tuple)
    requires HasEnds(m, p, u)
    ensures p in m.flows
  {
  }

  /** A packet or record renews its own flow, if that is live, and no other flow; nothing else renews any.
      The step frees a flow only if it is idle at the step's time. */
  lemma StepRenews(c: Config, s: State, e: Event, p: Ptr, u: Tuple)
    requires Good(c, s, true) && Uncrowded(c, s) && Fresh(s, e) && !e.Cleanup? && (c.purge ==> Timely(s, e))
    requires HasEnds(s.mem, p, u)
    ensures var m, t := Mid(c, s, e), Step(c, s, e);
      && p in m.flows
      && (if Own(c, s, e, p, u) then Renewed(s.mem.flows[p], m.flows[p], UseTime(e), e.flags)
          else SameTimes(s.mem.flows[p], m.flows[p]))
      && (p in t.mem.flows ==> t.mem.flows[p] == m.flows[p])
      && (!FlowIdle(c, LifecycleHosts.At(s, e), m.flows[p]) ==> p in t.mem.flows)
  {
    MidRenews(c, s, e, p, u);
    hide Good, Own, HasEnds, Renewed, SameTimes, PurgeIdle, Fresh, FlowIdle, Step, BeforePurge, Timely, Uncrowded;
    var x := BeforePurge(c, s, e);
    if x.Some? {
      LifecycleHosts.BeforeGood(c, s, e, true);
      PurgedAt(c, s, e);
      PurgeFewer(c, x.value, x.value.now);
      if p in PurgeIdle(c, x.value, x.value.now).mem.flows {
        FewerKeeps(x.value.mem, PurgeIdle(c, x.value, x.value.now).mem, p);
      }
      if !FlowIdle(c, x.value.now, x.value.mem.flows[p]) {
        PurgeLeaves(c, x.value, x.value.now, p);
      }
    }
  }

  /** The purge comes at the time of the event. */
  lemma PurgedAt(c: Config, s: State, e: Event)
    requires Shaped(s) && BeforePurge(c, s, e).Some? && (c.purge ==> Timely(s, e))
    requires BeforePurge(c, s, e).value.now == LifecycleHosts.At(s, e) && Shaped(BeforePurge(c, s, e).value)
    ensures var x := BeforePurge(c, s, e).value; Step(c, s, e).mem == PurgeIdle(c, x, x.now).mem
  {
    hide BeforePurge, Step, PurgeFlows, PurgeHosts;
    LifecycleHosts.StepPurges(c, s, e);
    if !c.purge {
      PurgesIs(c, s, e);
    }
  }

  lemma EndsVia(m: Mem, n: Mem, p: Ptr, u: Tuple)
    requires HasEnds(m, p, u) && p in n.flows && SameMeta(m.flows[p], n.flows[p])
    requires forall h :: RefersTo(n.flows[p], h) && h in m.hosts ==> h in n.hosts && n.hosts[h].id == m.hosts[h].id
    ensures HasEnds(n, p, u)
  {
    var f := m.flows[p];
    assert RefersTo(n.flows[p], f.cli.value) && RefersTo(n.flows[p], f.srv.value);
    hide Same;
  }

  lemma StepMeta(c: Config, s: State, e: Event, p: Ptr, u: Tuple)
    requires Good(c, s, true) && Uncrowded(c, s) && Fresh(s, e) && !e.Cleanup? && (c.purge ==> Timely(s, e))
    requires HasEnds(s.mem, p, u) && p in Step(c, s, e).mem.flows
    ensures SameMeta(s.mem.flows[p], Step(c, s, e).mem.flows[p])
  {
    StepRenews(c, s, e, p, u);
    hide Good, Step, Mid, FlowIdle, Fresh, Timely, Uncrowded, HasEnds, Own, SameMeta;
  }

  lemma StepEnds(c: Config, s: State, e: Event, p: Ptr, u: Tuple)
    requires Good(c, s, true) && Uncrowded(c, s) && Fresh(s, e) && !e.Cleanup? && (c.purge ==> Timely(s, e))
    requires HasEnds(s.mem, p, u) && p in Step(c, s, e).mem.flows
    ensures HasEnds(Step(c, s, e).mem, p, u)
  {
    var t := Step(c, s, e);
    StepMeta(c, s, e, p, u);
    StepGood(c, s, e, true);
    GoodBoth(c, s);
    GoodRefs(c, t, true);
    hide Good, Step, Fresh, Timely, Uncrowded, Credits, NoDangling, HasEnds, SameMeta, RefersTo, Exempt;
    EndsIn(s.mem, p, u);
    forall h | RefersTo(t.mem.flows[p], h) && h in s.mem.hosts
      ensures h in t.mem.hosts && t.mem.hosts[h].id == s.mem.hosts[h].id
    {
      NoDangles(t.mem, p, h);
      StepAges(c, s, e, h);
    }
    EndsVia(s.mem, t.mem, p, u);
  }

  lemma NoDangles(m: Mem, p: Ptr, h: Ptr)
    requires NoDangling(m) && p in m.flows && RefersTo(m.flows[p], h)
    ensures h in m.hosts
  {
  }

  // ----- runs -----

  /** A FIN or RST was seen. */
  predicate Ended(proto: u8, flags: bv8) { proto == 6 && (flags & 0x01 != 0 || flags & 0x04 != 0) }

  /** How long the flow may go without a packet: three seconds after its end. */
  function Limit(c: Config, proto: u8, flags: bv8): nat {
    if Ended(proto, flags) && c.flowMaxIdle > 3 then 3 else c.flowMaxIdle
  }

  lemma IdleExactly(c: Config, now: nat, f: Flow)
    requires now < TWO_32
    ensures FlowIdle(c, now, f) <==> c.purge && now > f.lastSeen + Limit(c, f.proto, f.tcpFlags)
  {
  }

  /** When the flow of these ends was last used, if it was at `seen` before. */
  function SeenAfter(es: seq<Event>, u: Tuple, seen: nat): nat
    decreases |es|
  {
    if es == [] then seen
    else SeenAfter(es[1..], u, if Uses(es[0]) && SameEnds(es[0].t, u) then UseTime(es[0]) else seen)
  }

  /** The flags of all its packets, for TCP. */
  function FlagsAfter(es: seq<Event>, u: Tuple, flags: bv8): bv8
    decreases |es|
  {
    if es == [] then flags
    else
      var own := Uses(es[0]) && SameEnds(es[0].t, u) && u.proto == 6;
      FlagsAfter(es[1..], u, if own then flags | es[0].flags else flags)
  }

  /** The time of an event, if it has one. */
  function TimeOf(e: Event): Option<nat> {
    match e
    case Packet(ts, _, _, _, _) => Some(ts)
    case Record(_, last, _, _, _, _, _) => Some(last)
    case Layer2(ts, _, _, _, _, _) => Some(ts)
    case Other(ts) => Some(ts)
    case Skipped(ts) => Some(ts)
    case Poll(when) => Some(when)
    case _ => None
  }

  /** There is no cleanup, and no event comes later than the flow may wait after its last use. */
  predicate UsedInTime(c: Config, es: seq<Event>, u: Tuple, seen: nat, flags: bv8)
    decreases |es|
  {
    es == [] ||
    (var e := es[0];
     && !e.Cleanup? && (TimeOf(e).Some? ==> TimeOf(e).value <= seen + Limit(c, u.proto, flags))
     && UsedInTime(c, es[1..], u, SeenAfter([e], u, seen), FlagsAfter([e], u, flags)))
  }

  /** The flow is there and live, with these ends, time and flags. */
  predicate Alive(c: Config, s: State, p: Ptr, u: Tuple, seen: nat, flags: bv8) {
    && HasEnds(s.mem, p, u) && s.mem.flows[p].lastSeen == seen && s.mem.flows[p].tcpFlags == flags
    && (c.purge ==> s.now <= seen + Limit(c, u.proto, flags))
  }

  lemma AliveIs(c: Config, s: State, p: Ptr, u: Tuple, seen: nat, flags: bv8, now: nat)
    requires Alive(c, s, p, u, seen, flags) && (c.purge ==> now < TWO_32 && now <= seen + Limit(c, u.proto, flags))
    ensures FlowLive(c, s.(now := now), p) && s.mem.flows[p].proto == u.proto
  {
    if c.purge {
      IdleExactly(c, now, s.mem.flows[p]);
    }
    hide FlowIdle;
  }

  /** Flags only shorten the time that a flow may wait after its last use. */
  lemma NextAlive(c: Config, f: Flow, g: Flow, e: Event, u: Tuple, seen: nat, flags: bv8, now: nat)
    requires f.lastSeen == seen && f.tcpFlags == flags && f.proto == u.proto && now < TWO_32
    requires var own := Uses(e) && SameEnds(e.t, u);
      if own then Renewed(f, g, UseTime(e), e.flags) && now <= UseTime(e)
      else SameTimes(f, g) && now <= seen + Limit(c, u.proto, flags)
    ensures g.lastSeen == SeenAfter([e], u, seen) && g.tcpFlags == FlagsAfter([e], u, flags)
    ensures now <= g.lastSeen + Limit(c, u.proto, g.tcpFlags) && !FlowIdle(c, now, g)
  {
    assert [e][1..] == [];
    assert SeenAfter([], u, if Uses(e) && SameEnds(e.t, u) then UseTime(e) else seen) ==
      if Uses(e) && SameEnds(e.t, u) then UseTime(e) else seen;
    IdleExactly(c, now, g);
    hide FlowIdle, SameEnds;
  }

  lemma StepNow(c: Config, s: State, e: Event)
    requires Good(c, s, true) && Uncrowded(c, s) && Fresh(s, e) && !e.Cleanup? && c.purge && Timely(s, e)
    ensures Step(c, s, e).now == LifecycleHosts.At(s, e) < TWO_32
    ensures LifecycleHosts.At(s, e) == (if TimeOf(e).Some? then TimeOf(e).value else s.now)
    ensures Uses(e) ==> Clock(s, e) == LifecycleHosts.At(s, e)
  {
    LifecycleHosts.StepPurges(c, s, e);
    hide Good, GetFlow, ObtainStation, DirectCredit, PurgeFlows, PurgeHosts, CountPacket, CountRecord, UpdateAll;
    if BeforePurge(c, s, e).Some? {
      PurgeNow(c, BeforePurge(c, s, e).value, LifecycleHosts.PurgeTime(e));
    } else if e.Record? {
      GetFlowGood(c, s.(now := Clock(s, e)), e.t, e.first, e.last, e.a, false);
    }
  }

  lemma PurgeNow(c: Config, s: State, when: nat)
    requires Shaped(s) && c.purge
    ensures PurgeIdle(c, s, when).now == when
  {
    hide Sweep, Swept, DeleteFlows, DeleteHosts;
  }

  lemma OwnExactly(c: Config, s: State, e: Event, p: Ptr, u: Tuple, seen: nat, flags: bv8)
    requires Alive(c, s, p, u, seen, flags)
    requires c.purge && Uses(e) ==> Clock(s, e) < TWO_32 && Clock(s, e) <= seen + Limit(c, u.proto, flags)
    ensures Own(c, s, e, p, u) <==> Uses(e) && SameEnds(e.t, u)
  {
    hide SameEnds, FlowLive, Limit;
    if Uses(e) {
      AliveIs(c, s, p, u, seen, flags, Clock(s, e));
    }
  }

  lemma StepAlive(c: Config, s: State, e: Event, p: Ptr, u: Tuple, seen: nat, flags: bv8)
    requires Good(c, s, true) && Uncrowded(c, s) && Fresh(s, e) && c.purge && Timely(s, e)
    requires Alive(c, s, p, u, seen, flags) && UsedInTime(c, [e], u, seen, flags)
    ensures Alive(c, Step(c, s, e), p, u, SeenAfter([e], u, seen), FlagsAfter([e], u, flags))
  {
    assert [e][0] == e;
    StepNow(c, s, e);
    OwnExactly(c, s, e, p, u, seen, flags);
    StepRenews(c, s, e, p, u);
    AliveIs(c, s, p, u, seen, flags, s.now);
    var at := LifecycleHosts.At(s, e);
    hide Good, Step, Mid, FlowIdle, Fresh, Uncrowded, HasEnds, Own, Renewed, SameTimes, SameEnds, Limit, SeenAfter,
      FlagsAfter;
    hide LifecycleHosts.At;
    EndsIn(s.mem, p, u);
    NextAlive(c, s.mem.flows[p], Mid(c, s, e).flows[p], e, u, seen, flags, at);
    StepEnds(c, s, e, p, u);
  }

  lemma UsedFirst(c: Config, es: seq<Event>, u: Tuple, seen: nat, flags: bv8)
    requires es != [] && UsedInTime(c, es, u, seen, flags)
    ensures UsedInTime(c, [es[0]], u, seen, flags) && !es[0].Cleanup?
    ensures UsedInTime(c, es[1..], u, SeenAfter([es[0]], u, seen), FlagsAfter([es[0]], u, flags))
    ensures SeenAfter(es, u, seen) == SeenAfter(es[1..], u, SeenAfter([es[0]], u, seen))
    ensures FlagsAfter(es, u, flags) == FlagsAfter(es[1..], u, FlagsAfter([es[0]], u, flags))
  {
    assert [es[0]][1..] == [];
    hide Limit, SameEnds, TimeOf;
  }

  /** In a run in order, a flow whose packets and records come at most its idle time apart (three seconds
      at most after a FIN or RST) is never idle and never freed, and its time and flags are those of its
      packets. */
  lemma {:induction false} UsedStays(c: Config, s: State, es: seq<Event>, p: Ptr, u: Tuple, seen: nat, flags: bv8)
    requires Good(c, s, true) && Feasible(c, s, es) && Manageable(c, s, es) && c.purge && InOrder(c, s, es)
    requires Alive(c, s, p, u, seen, flags) && UsedInTime(c, es, u, seen, flags)
    ensures var t := Run(c, s, es);
      Alive(c, t, p, u, SeenAfter(es, u, seen), FlagsAfter(es, u, flags)) && FlowLive(c, t, p)
    decreases |es|
  {
    hide Good, Step, Fresh, Timely, Uncrowded, Alive, FlowLive, UsedInTime, SeenAfter, FlagsAfter;
    if es == [] {
      AliveNow(c, s, p, u, seen, flags);
    } else {
      UsedFirst(c, es, u, seen, flags);
      StepGood(c, s, es[0], true);
      StepAlive(c, s, es[0], p, u, seen, flags);
      UsedStays(c, Step(c, s, es[0]), es[1..], p, u, SeenAfter([es[0]], u, seen), FlagsAfter([es[0]], u, flags));
    }
  }

  lemma AliveNow(c: Config, s: State, p: Ptr, u: Tuple, seen: nat, flags: bv8)
    requires Good(c, s, true) && Alive(c, s, p, u, seen, flags)
    ensures FlowLive(c, s, p) && SeenAfter([], u, seen) == seen && FlagsAfter([], u, flags) == flags
  {
    AliveIs(c, s, p, u, seen, flags, s.now);
    assert s.(now := s.now) == s;
    hide Good, FlowLive, Alive, Limit;
  }

  // ----- a new flow -----

  /** A flow as the first packet or record of its ends makes it. */
  predicate NewFrom(f: Flow, e: Event)
    requires Uses(e)
  {
    && f.cliPort == e.t.srcPort && f.srvPort == e.t.dstPort && f.vlan == e.t.vlan && f.proto == e.t.proto
    && f.lastSeen == UseTime(e)
    && f.firstSeen == (if e.Packet? then e.ts else if e.first != 0 then e.first else e.last)
    && f.tcpFlags == (if e.t.proto == 6 then e.flags else 0) && Last(f) == NO_DUPLEX
  }

  lemma FreshRenewed(e: Event, cli: Option<Ptr>, srv: Option<Ptr>, g: Flow)
    requires Uses(e)
    requires Renewed(FreshFlow(e.t, cli, srv, if e.Packet? then e.ts else e.first, UseTime(e)), g, UseTime(e), e.flags)
    requires Last(g) == NO_DUPLEX
    ensures NewFrom(g, e)
  {
    assert 0 as bv8 | e.flags == e.flags;
  }

  /** A packet or record whose ends no live flow has makes a flow of its own, if there is room. */
  lemma NewRenews(c: Config, s: State, e: Event)
    requires Good(c, s, true) && Fresh(s, e) && Uses(e) && (c.purge ==> Timely(s, e)) && |s.mem.flows| < c.maxFlows
    requires forall p :: FlowLive(c, s.(now := Clock(s, e)), p) ==> !Matches(s.mem.hosts, s.mem.flows[p], e.t)
    ensures e.a.flow in Mid(c, s, e).flows && NewFrom(Mid(c, s, e).flows[e.a.flow], e)
  {
    var s0 := s.(now := Clock(s, e));
    var first := if e.Packet? then e.ts else e.first;
    TickGood(c, s, Clock(s, e), true);
    hide Good, FlowLive, Matches, GetFlow, After, BeforePurge, Renewed, NewFrom, FreshFlow;
    GetFlowExact(c, s0, e.t, first, UseTime(e), e.a, true);
    GetFlowGood(c, s0, e.t, first, UseTime(e), e.a, true);
    MidIs(c, s, e);
    var g := GetFlow(c, s0, e.t, first, UseTime(e), e.a);
    assert g == Got(c, s, e);
    var cli, srv :| g.s.mem.flows == s0.mem.flows[e.a.flow := FreshFlow(e.t, cli, srv, first, UseTime(e))];
    FreshProto(e.t, cli, srv, first, UseTime(e));
    CountRenews(g, e, e.a.flow);
    CountLast(g, e, e.a.flow);
    FreshRenewed(e, cli, srv, After(g, e).flows[e.a.flow]);
  }

  lemma FreshProto(t: Tuple, cli: Option<Ptr>, srv: Option<Ptr>, first: nat, last: nat)
    ensures var f := FreshFlow(t, cli, srv, first, last); f.proto == t.proto && Last(f) == NO_DUPLEX
  {
  }

  lemma CountLast(got: Got, e: Event, p: Ptr)
    requires Uses(e) && p in got.s.mem.flows
    ensures var n := After(got, e); p in n.flows && Last(n.flows[p]) == Last(got.s.mem.flows[p])
  {
    if e.Packet? {
      CountKeeps(got, e.t, e.len, e.flags, NO_TRAFFIC, NO_TRAFFIC, 0, p);
    } else {
      CountKeeps(got, e.t, 0, e.flags, e.into, e.out, e.last, p);
    }
    hide CountPacket, CountRecord;
  }
}
