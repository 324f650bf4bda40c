/** When traffic is lost between a flow and its hosts. An update credits the hosts only if some packet
    moved, but takes its snapshot in any case; bytes that come without a packet are then gone. */
module LifecycleLoss {
  import opened Addresses
  import opened HashTable
  import opened Memory
  import opened Lifecycle
  import opened LifecycleProof

  // ----- one update -----

  /** A counter moved by so much, mod 2^64. */
  predicate Moved(was: int, now: int, d: int) { (now - was - d) % TWO_64 == 0 }

  /** Every host was credited with its share of what the flow carried since the last update. */
  ghost predicate PassedOn(m: Mem, n: Mem, f: Flow) {
    forall g: Gauge, h :: g != Refs && h in m.hosts ==>
      h in n.hosts
      && Moved(Read(g, m.hosts[h].stats.all), Read(g, n.hosts[h].stats.all), Share(g, f, Pending(f), h))
  }

  /** The flow has no host to give bytes to, or no bytes; a flow from a host to itself gives it the sum. */
  predicate NoBytes(f: Flow) {
    var d := Pending(f);
    if f.cli != f.srv then d.sent.bytes == 0 && d.rcvd.bytes == 0
    else f.cli.None? || (d.sent.bytes + d.rcvd.bytes) % TWO_64 == 0
  }

  function CreditedTo(m: Mem, h: Ptr): Duplex
    requires h in m.hosts
  {
    m.hosts[h].stats.all
  }

  lemma CreditMoves(m: Mem, p: Option<Ptr>, proto: u8, d: Duplex, now: nat, g: Gauge, h: Ptr)
    requires g != Refs && h in m.hosts && (p.Some? ==> p.value in m.hosts) && Counts(d)
    ensures var n := CreditHost(m, p, proto, d, now);
      && n.hosts.Keys == m.hosts.Keys
      && Moved(Read(g, CreditedTo(m, h)), Read(g, CreditedTo(n, h)), if p == Some(h) then Read(g, d) else 0)
  {
    if p == Some(h) {
      var j := ReadAdd(g, CreditedTo(m, h), d);
    }
  }

  lemma MovedTwice(x: int, y: int, z: int, a: int, b: int)
    requires Moved(x, y, a) && Moved(y, z, b)
    ensures Moved(x, z, a + b)
  {
  }

  /** With a packet, everything is passed on. */
  lemma CountedPasses(m: Mem, p: Ptr, now: nat, g: Gauge, h: Ptr)
    requires g != Refs && p in m.flows && h in m.hosts && Counts(Pending(m.flows[p]))
    requires forall k :: RefersTo(m.flows[p], k) ==> k in m.hosts
    ensures var n, f := UpdateHostsStats(m, p, now), m.flows[p];
      h in n.hosts && Moved(Read(g, CreditedTo(m, h)), Read(g, CreditedTo(n, h)), Share(g, f, Pending(f), h))
  {
    var f, d, n0 := m.flows[p], Pending(m.flows[p]), TakeSnapshot(m, p);
    assert f.cli.Some? ==> RefersTo(f, f.cli.value);
    assert f.srv.Some? ==> RefersTo(f, f.srv.value);
    assert Counts(Flip(d));
    hide Pending, Counts, Moved, Read, CreditHost;
    var n1 := CreditHost(n0, f.cli, f.proto, d, now);
    CreditMoves(n0, f.cli, f.proto, d, now, g, h);
    CreditMoves(n1, f.srv, f.proto, Flip(d), now, g, h);
    MovedTwice(Read(g, CreditedTo(n0, h)), Read(g, CreditedTo(n1, h)),
      Read(g, CreditedTo(CreditHost(n1, f.srv, f.proto, Flip(d), now), h)),
      if f.cli == Some(h) then Read(g, d) else 0, if f.srv == Some(h) then Read(g, Flip(d)) else 0);
  }

  /** Without one, nothing is. */
  lemma UncountedStays(m: Mem, p: Ptr, now: nat)
    requires p in m.flows && !Counts(Pending(m.flows[p])) && forall k :: RefersTo(m.flows[p], k) ==> k in m.hosts
    ensures UpdateHostsStats(m, p, now).hosts == m.hosts
  {
    var f := m.flows[p];
    assert f.cli.Some? ==> RefersTo(f, f.cli.value);
    assert f.srv.Some? ==> RefersTo(f, f.srv.value);
    hide Pending;
  }

  lemma StaysMoved(x: int, d: int)
    ensures Moved(x, x, d) <==> d % TWO_64 == 0
  {
    assert (-d) % TWO_64 == 0 <==> d % TWO_64 == 0;
  }

  lemma ShareOfBytes(f: Flow, g: Gauge, h: Ptr)
    requires g != Refs && !Counts(Pending(f)) && NoBytes(f)
    ensures Share(g, f, Pending(f), h) % TWO_64 == 0
  {
  }

  lemma SomeBytes(f: Flow) returns (g: Gauge, h: Ptr)
    requires !NoBytes(f)
    ensures g != Refs && RefersTo(f, h) && Share(g, f, Pending(f), h) % TWO_64 != 0
  {
    var d := Pending(f);
    h := if f.cli.Some? then f.cli.value else f.srv.value;
    g := if f.cli == f.srv || (if f.cli.Some? then d.sent else d.rcvd).bytes != 0 then SentBytes else RcvdBytes;
  }

  /** The exact condition for an update to lose bytes: some bytes are pending, and no packet is. */
  lemma UpdateLosesExactly(m: Mem, p: Ptr, now: nat)
    requires p in m.flows && forall k :: RefersTo(m.flows[p], k) ==> k in m.hosts
    ensures PassedOn(m, UpdateHostsStats(m, p, now), m.flows[p]) <==>
      Counts(Pending(m.flows[p])) || NoBytes(m.flows[p])
  {
    var n, f := UpdateHostsStats(m, p, now), m.flows[p];
    hide UpdateHostsStats, Pending, Read, Share, Moved, Counts, NoBytes;
    if Counts(Pending(f)) {
      forall g: Gauge, h | g != Refs && h in m.hosts
        ensures h in n.hosts && Moved(Read(g, CreditedTo(m, h)), Read(g, CreditedTo(n, h)), Share(g, f, Pending(f), h))
      {
        CountedPasses(m, p, now, g, h);
      }
    } else {
      UncountedStays(m, p, now);
      forall g: Gauge, h | g != Refs && h in m.hosts
        ensures Moved(Read(g, CreditedTo(m, h)), Read(g, CreditedTo(n, h)), Share(g, f, Pending(f), h)) <==>
          Share(g, f, Pending(f), h) % TWO_64 == 0
      {
        StaysMoved(Read(g, CreditedTo(m, h)), Share(g, f, Pending(f), h));
      }
      if NoBytes(f) {
        forall g: Gauge, h | g != Refs ensures Share(g, f, Pending(f), h) % TWO_64 == 0 {
          ShareOfBytes(f, g, h);
        }
      } else {
        var g, h := SomeBytes(f);
      }
    }
  }

  // ----- runs that lose nothing -----

  /** Packets counted since the last snapshot; the counter has 32 bits. */
  function Gained(now: Traffic, last: Traffic): nat { (now.pkts - last.pkts) % TWO_32 }

  predicate Narrow(t: Traffic) { t.pkts < TWO_32 && t.bytes < TWO_64 }

  /** The flow has no bytes pending without a packet. */
  predicate Clean(f: Flow) {
    && Narrow(f.c2s) && Narrow(f.s2c) && Narrow(f.c2sLast) && Narrow(f.s2cLast)
    && (f.c2s.pkts == f.c2sLast.pkts && f.s2c.pkts == f.s2cLast.pkts ==> Last(f) == Duplex(f.c2s, f.s2c))
  }

  /** Nothing has been dropped, and nothing would be now. */
  ghost predicate Lossless(m: Mem) {
    (forall p :: p in m.flows ==> Clean(m.flows[p])) && NothingDropped(m.log)
  }

  ghost predicate NothingDropped(log: seq<Entry>) {
    forall e :: e in log && e.Dropped? ==> Pending(e.flow) == NO_DUPLEX
  }

  /** The flow's packet counters can take so many more before they are back at the last snapshot. */
  predicate Holds(f: Flow, c2s: nat, s2c: nat) {
    Gained(f.c2s, f.c2sLast) + c2s < TWO_32 && Gained(f.s2c, f.s2cLast) + s2c < TWO_32
  }

  predicate GotHolds(g: Got, src: nat, dst: nat) {
    g.flow.Some? && g.flow.value in g.s.mem.flows ==>
      Holds(g.s.mem.flows[g.flow.value], if g.src2dst then src else dst, if g.src2dst then dst else src)
  }

  /** A record does not tell of bytes without packets, and no flow comes to carry 2^32 packets in one
      direction between two updates. */
  predicate Whole(c: Config, s: State, e: Event)
    requires Shaped(s)
  {
    match e
    case Packet(ts, t, _, _, a) => GotHolds(GetFlow(c, s.(now := ts), t, ts, ts, a), 1, 0)
    case Record(first, last, t, _, into, out, a) =>
      && (into.bytes > 0 || out.bytes > 0 ==> into.pkts > 0 || out.pkts > 0)
      && GotHolds(GetFlow(c, s.(now := if last > s.now then last else s.now), t, first, last, a), into.pkts, out.pkts)
    case _ => true
  }

  predicate AllWhole(c: Config, s: State, es: seq<Event>)
    requires Shaped(s)
    decreases |es|
  {
    es == [] || (Whole(c, s, es[0]) && AllWhole(c, Step(c, s, es[0]), es[1..]))
  }

  /** Counting traffic that has packets if it has bytes. */
  lemma CountClean(f: Flow, g: Flow, a: Traffic, b: Traffic)
    requires Clean(f) && Holds(f, a.pkts, b.pkts) && (a.bytes > 0 || b.bytes > 0 ==> a.pkts > 0 || b.pkts > 0)
    requires g.c2s == AddCount(f.c2s, a) && g.s2c == AddCount(f.s2c, b) && Last(g) == Last(f)
    ensures Clean(g)
  {
    GainedAdd(f.c2s, f.c2sLast, a);
    GainedAdd(f.s2c, f.s2cLast, b);
    if a.pkts == 0 && b.pkts == 0 {
      assert g.c2s == f.c2s && g.s2c == f.s2c;
    }
  }

  lemma GainedAdd(x: Traffic, last: Traffic, a: Traffic)
    requires Narrow(x) && Narrow(last) && Gained(x, last) + a.pkts < TWO_32
    ensures Narrow(AddCount(x, a)) && (AddCount(x, a).pkts == last.pkts ==> a.pkts == 0 && x.pkts == last.pkts)
  {
  }

  lemma CleanPending(f: Flow)
    requires Clean(f) && !Counts(Pending(f))
    ensures Pending(f) == NO_DUPLEX
  {
  }

  lemma IncLossless(f: Flow, c2s: bool, len: nat, now: nat)
    requires Clean(f) && Holds(f, if c2s then 1 else 0, if c2s then 0 else 1)
    ensures Clean(FlowIncStats(f, c2s, len, now))
  {
    var g := FlowIncStats(f, c2s, len, now);
    if g.cli.Some? && g.srv.Some? {
      var a, b := Traffic(1, len), NO_TRAFFIC;
      CountClean(f, g, if c2s then a else b, if c2s then b else a);
    }
  }

  lemma AddLossless(f: Flow, c2s: bool, into: Traffic, out: Traffic, when: nat)
    requires Clean(f) && Holds(f, if c2s then into.pkts else out.pkts, if c2s then out.pkts else into.pkts)
    requires into.bytes > 0 || out.bytes > 0 ==> into.pkts > 0 || out.pkts > 0
    ensures Clean(AddFlowStats(f, c2s, into, out, when))
  {
    CountClean(f, AddFlowStats(f, c2s, into, out, when), if c2s then into else out, if c2s then out else into);
  }

  lemma CountPacketLossless(g: Got, t: Tuple, len: nat, flags: bv8)
    requires Shaped(g.s) && Lossless(g.s.mem) && GotHolds(g, 1, 0)
    ensures Shaped(CountPacket(g, t, len, flags)) && Lossless(CountPacket(g, t, len, flags).mem)
  {
    if g.flow.Some? && g.flow.value in g.s.mem.flows {
      IncLossless(g.s.mem.flows[g.flow.value], g.src2dst, len, g.s.now);
    }
    hide Holds, FlowIncStats, NothingDropped;
  }

  lemma CountRecordLossless(g: Got, t: Tuple, flags: bv8, into: Traffic, out: Traffic, last: nat)
    requires Shaped(g.s) && Lossless(g.s.mem) && GotHolds(g, into.pkts, out.pkts)
    requires into.bytes > 0 || out.bytes > 0 ==> into.pkts > 0 || out.pkts > 0
    ensures Shaped(CountRecord(g, t, flags, into, out, last))
    ensures Lossless(CountRecord(g, t, flags, into, out, last).mem)
  {
    if g.flow.Some? && g.flow.value in g.s.mem.flows {
      AddLossless(WithFlags(g.s.mem.flows[g.flow.value], t, flags), g.src2dst, into, out, last);
    }
    hide Holds, AddFlowStats, NothingDropped;
  }

  /** No flow is added or changed, and nothing is dropped. */
  ghost predicate Fewer(m: Mem, n: Mem) {
    && (forall p :: p in n.flows ==> p in m.flows && n.flows[p] == m.flows[p])
    && (forall e :: e in n.log && e.Dropped? ==> e in m.log)
  }

  lemma FewerLossless(m: Mem, n: Mem)
    requires Lossless(m) && Fewer(m, n)
    ensures Lossless(n)
  {
    hide Clean;
  }

  lemma UsesFewer(m: Mem, p: Option<Ptr>, k: nat)
    ensures AddUses(m, p, k).flows == m.flows && AddUses(m, p, k).log == m.log
  {
  }

  lemma {:induction false} DeleteFlowsFewer(m: Mem, ps: seq<Ptr>)
    ensures Fewer(m, DeleteFlows(m, ps))
    decreases |ps|
  {
    hide AddUses;
    if ps != [] {
      var n := DeleteFlow(m, ps[0]);
      if ps[0] in m.flows {
        UsesFewer(m, m.flows[ps[0]].cli, TWO_16 - 1);
        UsesFewer(DecUses(m, m.flows[ps[0]].cli), m.flows[ps[0]].srv, TWO_16 - 1);
      }
      DeleteFlowsFewer(n, ps[1..]);
    }
  }

  lemma {:induction false} DeleteHostsFewer(m: Mem, hs: seq<Ptr>)
    ensures Fewer(m, DeleteHosts(m, hs))
    decreases |hs|
  {
    if hs != [] {
      DeleteHostsFewer(DeleteHost(m, hs[0]), hs[1..]);
    }
  }

  lemma CreditFewer(m: Mem, p: Option<Ptr>, proto: u8, d: Duplex, now: nat)
    ensures Fewer(m, CreditHost(m, p, proto, d, now)) && CreditHost(m, p, proto, d, now).flows == m.flows
  {
  }

  lemma ObtainFewer(c: Config, s: State, vlan: u16, mac: Mac, ip: Ip, h: Ptr)
    requires Shaped(s)
    ensures Fewer(s.mem, ObtainHost(c, s, vlan, mac, ip, h).0.mem)
  {
  }

  lemma StationFewer(c: Config, s: State, vlan: u16, mac: Mac, h: Ptr)
    requires Shaped(s)
    ensures Fewer(s.mem, ObtainStation(c, s, vlan, mac, h).0.mem)
  {
  }

  lemma JoinLossless(c: Config, s: State, f: Flow, p: Ptr)
    requires Shaped(s) && Lossless(s.mem) && Clean(f)
    ensures Lossless(JoinFlow(c, s, f, p).s.mem)
  {
    hide AddUses, Clean, FlowKey, Size;
    UsesFewer(s.mem, f.cli, 1);
    UsesFewer(IncUses(s.mem, f.cli), f.srv, 1);
    var m := NewFlow(s.mem, p, f);
    assert Lossless(m);
    UsesFewer(m, f.cli, TWO_16 - 1);
    UsesFewer(DecUses(m, f.cli), f.srv, TWO_16 - 1);
    assert Fewer(m, DeleteFlow(m, p));
    FewerLossless(m, DeleteFlow(m, p));
  }

  lemma GetLossless(c: Config, s: State, t: Tuple, first: nat, last: nat, a: Alloc)
    requires Shaped(s) && Lossless(s.mem)
    ensures Lossless(GetFlow(c, s, t, first, last, a).s.mem)
  {
    hide ObtainHost, Clean, JoinFlow, FindFlow, Forward;
    ObtainFewer(c, s, t.vlan, t.srcMac, t.src, a.src);
    var s1 := ObtainHost(c, s, t.vlan, t.srcMac, t.src, a.src).0;
    FewerLossless(s.mem, s1.mem);
    ObtainFewer(c, s1, t.vlan, t.dstMac, t.dst, a.dst);
    FewerLossless(s1.mem, ObtainHost(c, s1, t.vlan, t.dstMac, t.dst, a.dst).0.mem);
    var (s2, cli, srv) := FindFlowHosts(c, s, t, a);
    FreshClean(t, cli, srv, first, last);
    JoinLossless(c, s2, FreshFlow(t, cli, srv, first, last), a.flow);
  }

  lemma FreshClean(t: Tuple, cli: Option<Ptr>, srv: Option<Ptr>, first: nat, last: nat)
    ensures Clean(FreshFlow(t, cli, srv, first, last))
  {
  }

  lemma UpdateLossless(m: Mem, p: Ptr, now: nat)
    requires Lossless(m)
    ensures Lossless(UpdateHostsStats(m, p, now))
  {
    if p in m.flows {
      var f := m.flows[p];
      var d, n := Pending(f), TakeSnapshot(m, p);
      if !Counts(d) {
        CleanPending(f);
      }
      assert Clean(Snapshot(f));
      hide Pending, Clean, Counts, CreditHost;
      assert Lossless(n);
      CreditFewer(n, f.cli, f.proto, d, now);
      FewerLossless(n, CreditHost(n, f.cli, f.proto, d, now));
      CreditFewer(CreditHost(n, f.cli, f.proto, d, now), f.srv, f.proto, Flip(d), now);
      FewerLossless(CreditHost(n, f.cli, f.proto, d, now), UpdateHostsStats(m, p, now));
    }
  }

  lemma {:induction false} UpdateAllLossless(c: Config, now: nat, m: Mem, ps: seq<Ptr>)
    requires Lossless(m)
    ensures Lossless(UpdateAll(c, now, m, ps))
    decreases |ps|
  {
    hide Lossless, UpdateHostsStats;
    if ps != [] {
      UpdateLossless(m, ps[0], now);
      UpdateAllLossless(c, now,
        if ps[0] in m.flows && FlowIdle(c, now, m.flows[ps[0]]) then m else UpdateHostsStats(m, ps[0], now), ps[1..]);
    }
  }

  lemma FewerTwice(m: Mem, n: Mem, o: Mem)
    requires Fewer(m, n) && Fewer(n, o)
    ensures Fewer(m, o)
  {
  }

  lemma PurgeFewer(c: Config, s: State, when: nat)
    requires Shaped(s)
    ensures Fewer(s.mem, PurgeIdle(c, s, when).mem)
  {
    hide Sweep, Swept, Fewer;
    if c.purge {
      var s1 := s.(now := when);
      var s2 := PurgeFlows(c, s1);
      SameFewer(s.mem);
      DeleteFlowsFewer(s1.mem, Swept(s1.ftab, IdleFlows(c, s1)));
      assert Fewer(s.mem, s2.mem);
      SameFewer(s2.mem);
      DeleteHostsFewer(s2.mem, Swept(s2.htab, IdleHosts(c, s2)));
      FewerTwice(s.mem, s2.mem, PurgeHosts(c, s2).mem);
    } else {
      SameFewer(s.mem);
    }
  }

  lemma SameFewer(m: Mem)
    ensures Fewer(m, m)
  {
  }

  lemma Layer2Fewer(m: Mem, h: Ptr, d: Duplex, now: nat)
    ensures Fewer(m, DirectCredit(m, h, d, now))
  {
    CreditFewer(m, Some(h), 0, d, now);
    hide CreditHost;
  }

  lemma PurgeLossless(c: Config, s: State, when: nat)
    requires Shaped(s) && Lossless(s.mem)
    ensures Lossless(PurgeIdle(c, s, when).mem)
  {
    hide PurgeIdle, Lossless;
    PurgeFewer(c, s, when);
    FewerLossless(s.mem, PurgeIdle(c, s, when).mem);
  }

  lemma Layer2Lossless(c: Config, s: State, e: Event)
    requires Shaped(s) && Lossless(s.mem) && e.Layer2?
    ensures Lossless(Step(c, s, e).mem)
  {
    hide PurgeIdle, Lossless, ObtainStation, DirectCredit, Fewer;
    var s0 := s.(now := e.ts);
    var (s1, src) := ObtainStation(c, s0, e.vlan, e.srcMac, e.a.src);
    var (s2, dst) := ObtainStation(c, s1, e.vlan, e.dstMac, e.a.dst);
    var d1, d2 := Duplex(Traffic(1, e.len), NO_TRAFFIC), Duplex(NO_TRAFFIC, Traffic(1, e.len));
    var m1 := DirectCredit(s2.mem, src, d1, e.ts);
    var m2 := DirectCredit(m1, dst, d2, e.ts);
    StationFewer(c, s0, e.vlan, e.srcMac, e.a.src);
    StationFewer(c, s1, e.vlan, e.dstMac, e.a.dst);
    Layer2Fewer(s2.mem, src, d1, e.ts);
    Layer2Fewer(m1, dst, d2, e.ts);
    FewerTwice(s.mem, s1.mem, s2.mem);
    FewerTwice(s.mem, s2.mem, m1);
    FewerTwice(s.mem, m1, m2);
    FewerLossless(s.mem, m2);
    PurgeLossless(c, s2.(mem := m2), e.ts);
  }

  lemma StepLossless(c: Config, s: State, e: Event)
    requires Shaped(s) && Lossless(s.mem) && Whole(c, s, e)
    ensures Lossless(Step(c, s, e).mem)
  {
    hide Lossless, GetFlow, PurgeIdle, CountPacket, CountRecord, ObtainStation, GotHolds, Swept, DirectCredit;
    match e {
      case Packet(ts, t, len, flags, a) =>
        var g := GetFlow(c, s.(now := ts), t, ts, ts, a);
        GetLossless(c, s.(now := ts), t, ts, ts, a);
        CountPacketLossless(g, t, len, flags);
        PurgeLossless(c, CountPacket(g, t, len, flags), ts);
      case Record(first, last, t, flags, into, out, a) =>
        var s0 := s.(now := if last > s.now then last else s.now);
        var g := GetFlow(c, s0, t, first, last, a);
        GetLossless(c, s0, t, first, last, a);
        CountRecordLossless(g, t, flags, into, out, last);
        PurgeLossless(c, CountRecord(g, t, flags, into, out, last), last);
      case Layer2(_, _, _, _, _, _) => Layer2Lossless(c, s, e);
      case Other(ts) => PurgeLossless(c, s.(now := ts), ts);
      case Skipped(_) =>
      case Poll(when) => PurgeLossless(c, s, when);
      case Housekeeping => UpdateAllLossless(c, s.now, s.mem, Flatten(s.ftab.buckets));
      case Cleanup =>
        var m := DeleteFlows(s.mem, Flatten(s.ftab.buckets));
        DeleteFlowsFewer(s.mem, Flatten(s.ftab.buckets));
        DeleteHostsFewer(m, Flatten(s.htab.buckets));
        FewerTwice(s.mem, m, CleanupAll(s).mem);
        FewerLossless(s.mem, CleanupAll(s).mem);
    }
  }

  lemma {:induction false} RunLossless(c: Config, s: State, es: seq<Event>)
    requires Shaped(s) && Lossless(s.mem) && AllWhole(c, s, es)
    ensures Lossless(Run(c, s, es).mem)
    decreases |es|
  {
    hide Lossless, Step, Whole;
    if es != [] {
      StepLossless(c, s, es[0]);
      RunLossless(c, Step(c, s, es[0]), es[1..]);
    }
  }

  /** Traffic that past flows and direct credits brought the object now at address h. */
  function Kept(log: seq<Entry>, g: Gauge, h: Ptr): int {
    if log == [] then 0 else
    var rest := Kept(log[..|log| - 1], g, h);
    match log[|log| - 1]
    case Born(k) => if k == h then 0 else rest
    case Retired(f) => rest + Weight(g, f, h)
    case Dropped(_) => rest
    case Direct(k, d) => if k == h then rest + Read(g, d) else rest
    case Credited(_, _, _) => rest
  }

  /** Host h has, mod 2^64, what the last snapshots of its present and past flows and its direct
      credits add up to. */
  ghost predicate Accounted(m: Mem, g: Gauge, h: Ptr)
    requires h in m.hosts
  {
    (Read(g, m.hosts[h].stats.all) - Total(m.flows, g, h) - Kept(m.log, g, h)) % TWO_64 == 0
  }

  lemma {:induction false} KeptBooked(log: seq<Entry>, g: Gauge, h: Ptr)
    requires NothingDropped(log) && g != Refs
    ensures Booked(log, g, h) == Kept(log, g, h)
    decreases |log|
  {
    if log != [] {
      assert log[|log| - 1] in log;
      KeptBooked(log[..|log| - 1], g, h);
    }
  }

  /** While no record tells of bytes without packets and no flow carries 2^32 packets in one direction
      between two updates, no update loses anything: every host has all that its flows had carried
      when they were last walked, and nothing else. */
  lemma ReachableLossless(c: Config, es: seq<Event>)
    requires c.flowBuckets > 0 && c.hostBuckets > 0
    requires Feasible(c, Initial(c), es) && Manageable(c, Initial(c), es) && AllWhole(c, Initial(c), es)
    ensures var m := Run(c, Initial(c), es).mem;
      && NothingDropped(m.log)
      && forall g: Gauge, h :: g != Refs && h in m.hosts ==> Accounted(m, g, h)
  {
    hide Run, Feasible, Manageable, AllWhole, Booked, Kept, Read, Total, Clean;
    RunLossless(c, Initial(c), es);
    var m := Run(c, Initial(c), es).mem;
    forall g: Gauge, h | g != Refs && h in m.hosts ensures Accounted(m, g, h) {
      ReachableConserved(c, es, g, h);
      KeptBooked(m.log, g, h);
    }
  }

  // ----- one that does -----

  function Cut32(t: Traffic): Traffic { Traffic(t.pkts % TWO_32, t.bytes % TWO_64) }

  /** One flow between two hosts that have not been credited yet. */
  ghost predicate OneFlow(s: State, a: Alloc, carried: Duplex) {
    && Shaped(s) && Flatten(s.ftab.buckets) == [a.flow]
    && s.mem.flows.Keys == {a.flow} && s.mem.hosts.Keys == {a.src, a.dst} && a.src != a.dst
    && s.mem.hosts[a.src].stats == NO_STATS && s.mem.hosts[a.dst].stats == NO_STATS
    && s.mem.log == [Born(a.src), Born(a.dst)]
    && var f := s.mem.flows[a.flow];
       f.cli == Some(a.src) && f.srv == Some(a.dst) && f.lastSeen == s.now
       && Duplex(f.c2s, f.s2c) == carried && Last(f) == NO_DUPLEX
  }

  /** An interface that has seen nothing obtains both hosts at the addresses given. */
  lemma FirstHosts(c: Config, s: State, t: Tuple, a: Alloc)
    requires c.flowBuckets > 0 && c.hostBuckets > 0 && c.maxHosts > 1 && !Same(t.src, t.dst) && a.src != a.dst
    requires s == Initial(c).(now := s.now)
    ensures var (r, cli, srv) := FindFlowHosts(c, s, t, a);
      && cli == Some(a.src) && srv == Some(a.dst) && r == s.(mem := r.mem, htab := r.htab)
      && r.mem.flows == map[] && r.mem.hosts.Keys == {a.src, a.dst} && r.mem.log == [Born(a.src), Born(a.dst)]
      && r.mem.hosts[a.src].stats == NO_STATS && r.mem.hosts[a.dst].stats == NO_STATS
      && r.mem.hosts[a.src].id == IpIdentity(c, t.vlan, t.srcMac, t.src)
      && r.mem.hosts[a.dst].id == IpIdentity(c, t.vlan, t.dstMac, t.dst)
      && r.htab.lastPurged == s.htab.lastPurged
  {
    hide Size, HostKey, Key;
    SizeZero(s.htab.buckets);
    var id := IpIdentity(c, t.vlan, t.srcMac, t.src);
    var s1 := InsertHost(s, a.src, id);
    InsertGrows(s.htab, HostKey(id) % |s.htab.buckets|, a.src);
    assert ObtainHost(c, s, t.vlan, t.srcMac, t.src, a.src) == (s1, Some(a.src));
    assert FindHost(c, s1, t.vlan, t.dst).NotFound? by {
      assert forall h :: h in s1.htab.buckets[Key(t.dst) % |s1.htab.buckets|] ==> h == a.src;
      assert !HostAccepts(c, s1.now, s1.mem, t.vlan, t.dst)(a.src);
    }
  }

  lemma FirstFlow(c: Config, s: State, f: Flow, p: Ptr)
    requires Shaped(s) && (forall b :: 0 <= b < |s.ftab.buckets| ==> s.ftab.buckets[b] == []) && c.maxFlows > 0
    ensures var g := JoinFlow(c, s, f, p);
      g.flow == Some(p) && g.src2dst && Flatten(g.s.ftab.buckets) == [p]
      && g.s == s.(mem := NewFlow(s.mem, p, f), ftab := g.s.ftab) && g.s.ftab.lastPurged == s.ftab.lastPurged
  {
    hide Size, FlowKey, NewFlow, Flatten;
    SizeZero(s.ftab.buckets);
    var b := FlowKey(NewFlow(s.mem, p, f).hosts, f) % |s.ftab.buckets|;
    InsertGrows(s.ftab, b, p);
    var bs := Insert(s.ftab, b, p).buckets;
    FlattenMembers(bs);
    assert p in Flatten(bs);
  }

  /** Where nothing is idle, the first purge only sets the timers. */
  lemma FirstPurge(c: Config, s: State, when: nat)
    requires Shaped(s) && s.nextFlow == 0 && s.nextHost == 0 && s.now == when
    ensures var t := PurgeIdle(c, s, when); t == s.(nextFlow := t.nextFlow, nextHost := t.nextHost)
  {
    hide SweepFlows, SweepHosts;
  }

  /** What getFlow does for the first packet or record of all. */
  lemma FirstGot(c: Config, s: State, t: Tuple, first: nat, last: nat, a: Alloc)
    requires c.flowBuckets > 0 && c.hostBuckets > 0 && c.maxFlows > 0 && c.maxHosts > 1
    requires !Same(t.src, t.dst) && a.src != a.dst && s == Initial(c).(now := s.now)
    ensures var g, f := GetFlow(c, s, t, first, last, a), FreshFlow(t, Some(a.src), Some(a.dst), first, last);
      && g.flow == Some(a.flow) && g.src2dst && g.s.mem.flows == map[a.flow := f]
      && g.s.now == s.now && g.s.nextFlow == 0 && g.s.nextHost == 0 && Flatten(g.s.ftab.buckets) == [a.flow]
      && g.s.mem.hosts.Keys == {a.src, a.dst} && g.s.mem.log == [Born(a.src), Born(a.dst)]
      && g.s.mem.hosts[a.src].stats == NO_STATS && g.s.mem.hosts[a.dst].stats == NO_STATS
      && g.s.mem.hosts[a.src].id == IpIdentity(c, t.vlan, t.srcMac, t.src)
      && g.s.mem.hosts[a.dst].id == IpIdentity(c, t.vlan, t.dstMac, t.dst)
      && g.s.ftab.lastPurged == s.ftab.lastPurged && g.s.htab.lastPurged == s.htab.lastPurged
  {
    hide Flatten, FindFlowHosts, JoinFlow, Forward, LookupHash, NewFlow;
    FirstHosts(c, s, t, a);
    var r := FindFlowHosts(c, s, t, a).0;
    var f := FreshFlow(t, Some(a.src), Some(a.dst), first, last);
    FirstFlow(c, r, f, a.flow);
    FirstUses(r.mem, f, a);
    assert FindFlow(c, s, t).NotFound?;
    assert GetFlow(c, s, t, first, last, a) == JoinFlow(c, r, f, a.flow);
  }

  lemma FirstRecord(c: Config, e: Event)
    requires c.flowBuckets > 0 && c.hostBuckets > 0 && c.maxFlows > 0 && c.maxHosts > 1
    requires e.Record? && !Same(e.t.src, e.t.dst) && e.a.src != e.a.dst
    ensures OneFlow(Step(c, Initial(c), e), e.a, Duplex(Cut32(e.into), Cut32(e.out)))
    ensures Step(c, Initial(c), e).now == e.last
  {
    hide Flatten, GetFlow, PurgeIdle;
    var s := Initial(c).(now := e.last);
    var g := GetFlow(c, s, e.t, e.first, e.last, e.a);
    FirstGot(c, s, e.t, e.first, e.last, e.a);
    FirstPurge(c, CountRecord(g, e.t, e.flags, e.into, e.out, e.last), e.last);
  }

  lemma FirstUses(m: Mem, f: Flow, a: Alloc)
    requires m.flows == map[] && m.hosts.Keys == {a.src, a.dst} && a.src != a.dst
    requires f.cli == Some(a.src) && f.srv == Some(a.dst)
    ensures var n := NewFlow(m, a.flow, f);
      && n.flows == map[a.flow := f] && n.hosts.Keys == m.hosts.Keys && n.log == m.log
      && n.hosts[a.src].stats == m.hosts[a.src].stats && n.hosts[a.dst].stats == m.hosts[a.dst].stats
      && n.hosts[a.src].id == m.hosts[a.src].id && n.hosts[a.dst].id == m.hosts[a.dst].id
  {
  }

  lemma OnlyWalk(c: Config, s: State, a: Alloc, d: Duplex)
    requires OneFlow(s, a, d)
    ensures UpdateHostStats(c, s).mem == UpdateHostsStats(s.mem, a.flow, s.now)
  {
    hide UpdateHostsStats, Flatten;
    var m := UpdateHostsStats(s.mem, a.flow, s.now);
    assert !FlowIdle(c, s.now, s.mem.flows[a.flow]);
    assert [a.flow][1..] == [];
    assert UpdateAll(c, s.now, m, []) == m;
    assert UpdateAll(c, s.now, s.mem, [a.flow]) == m;
  }

  /** What the housekeeping does to the one flow, which is not idle. */
  lemma FirstWalk(c: Config, s: State, a: Alloc, d: Duplex)
    requires OneFlow(s, a, d) && Narrow(d.sent) && Narrow(d.rcvd)
    ensures var m := UpdateHostStats(c, s).mem;
      && m.hosts.Keys == {a.src, a.dst} && m.flows.Keys == {a.flow}
      && m.flows[a.flow] == Snapshot(s.mem.flows[a.flow]) && Last(m.flows[a.flow]) == d
      && m.hosts[a.src].stats.all == (if Counts(d) then d else NO_DUPLEX)
      && m.hosts[a.dst].stats.all == (if Counts(d) then Flip(d) else NO_DUPLEX)
      && forall g: Gauge :: g != Refs ==> Kept(m.log, g, a.src) == 0 && Kept(m.log, g, a.dst) == 0
  {
    hide UpdateHostStats, Flatten, Kept;
    OnlyWalk(c, s, a, d);
    var f, m := s.mem.flows[a.flow], UpdateHostsStats(s.mem, a.flow, s.now);
    assert Pending(f) == d;
    assert f.proto == s.mem.flows[a.flow].proto;
    FirstLog(s.mem.log, m.log, a, f, f.proto, d);
  }

  lemma FirstLog(was: seq<Entry>, log: seq<Entry>, a: Alloc, f: Flow, proto: u8, d: Duplex)
    requires was == [Born(a.src), Born(a.dst)] && a.src != a.dst
    requires Counts(d) ==> log == was + [Credited(a.src, proto, d)] + [Credited(a.dst, proto, Flip(d))]
    requires !Counts(d) ==> log == was + [Dropped(f)]
    ensures forall g: Gauge, h :: h == a.src || h == a.dst ==> Kept(log, g, h) == 0
  {
    forall g: Gauge, h | h == a.src || h == a.dst ensures Kept(log, g, h) == 0 {
      BornKept(was, a, g, h);
      if Counts(d) {
        KeptSnoc(was, Credited(a.src, proto, d), g, h);
        KeptSnoc(was + [Credited(a.src, proto, d)], Credited(a.dst, proto, Flip(d)), g, h);
      } else {
        KeptSnoc(was, Dropped(f), g, h);
      }
    }
  }

  lemma BornKept(was: seq<Entry>, a: Alloc, g: Gauge, h: Ptr)
    requires was == [Born(a.src), Born(a.dst)] && (h == a.src || h == a.dst)
    ensures Kept(was, g, h) == 0
  {
    assert was[..1] == [Born(a.src)] && was[..1][..0] == [];
    assert Kept([], g, h) == 0;
    assert Kept(was[..1], g, h) == 0;
  }

  lemma KeptSnoc(log: seq<Entry>, e: Entry, g: Gauge, h: Ptr)
    requires e.Credited? || e.Dropped?
    ensures Kept(log + [e], g, h) == Kept(log, g, h)
  {
    assert (log + [e])[..|log + [e]| - 1] == log;
  }

  /** Whatever the configuration, if there is room: after the first record and a walk over the flows
      its two hosts have all of it, or nothing at all if its packet counts are both multiples of 2^32,
      0 among them. The sums balance unless bytes were lost. */
  lemma RecordLost(c: Config, e: Event)
    requires c.flowBuckets > 0 && c.hostBuckets > 0 && c.maxFlows > 0 && c.maxHosts > 1
    requires e.Record? && !Same(e.t.src, e.t.dst) && e.a.src != e.a.dst
    ensures Feasible(c, Initial(c), [e, Housekeeping])
    ensures var m, d := Run(c, Initial(c), [e, Housekeeping]).mem, Duplex(Cut32(e.into), Cut32(e.out));
      && m.hosts.Keys == {e.a.src, e.a.dst}
      && m.hosts[e.a.src].stats.all == (if Counts(d) then d else NO_DUPLEX)
      && m.hosts[e.a.dst].stats.all == (if Counts(d) then Flip(d) else NO_DUPLEX)
      && ((forall g: Gauge, h :: g != Refs && h in m.hosts ==> Accounted(m, g, h)) <==>
           Counts(d) || (d.sent.bytes == 0 && d.rcvd.bytes == 0))
  {
    hide Step, Accounted;
    var s, d := Step(c, Initial(c), e), Duplex(Cut32(e.into), Cut32(e.out));
    var m := UpdateHostStats(c, s).mem;
    FirstRecord(c, e);
    FirstWalk(c, s, e.a, d);
    TwoSteps(c, e, s);
    assert Last(m.flows[e.a.flow]) == d;
    OneAccounted(m, e.a, d);
  }

  lemma WalkStep(c: Config, s: State)
    requires Shaped(s)
    ensures Step(c, s, Housekeeping) == UpdateHostStats(c, s)
  {
  }

  lemma TwoSteps(c: Config, e: Event, s: State)
    requires c.flowBuckets > 0 && c.hostBuckets > 0 && s == Step(c, Initial(c), e) && Fresh(Initial(c), e)
    ensures Feasible(c, Initial(c), [e, Housekeeping])
    ensures Run(c, Initial(c), [e, Housekeeping]) == UpdateHostStats(c, s)
  {
    hide Step, UpdateHostStats;
    WalkStep(c, s);
    assert [e, Housekeeping][1..] == [Housekeeping] && [Housekeeping][1..] == [];
    assert Feasible(c, s, [Housekeeping]);
  }

  /** How the accounts of the two hosts stand. */
  lemma OneAccounted(m: Mem, a: Alloc, d: Duplex)
    requires m.hosts.Keys == {a.src, a.dst} && a.src != a.dst && m.flows.Keys == {a.flow}
    requires var f := m.flows[a.flow]; f.cli == Some(a.src) && f.srv == Some(a.dst) && Last(f) == d
    requires m.hosts[a.src].stats.all == if Counts(d) then d else NO_DUPLEX
    requires m.hosts[a.dst].stats.all == if Counts(d) then Flip(d) else NO_DUPLEX
    requires Narrow(d.sent) && Narrow(d.rcvd)
    requires forall g: Gauge :: g != Refs ==> Kept(m.log, g, a.src) == 0 && Kept(m.log, g, a.dst) == 0
    ensures (forall g: Gauge, h :: g != Refs && h in m.hosts ==> Accounted(m, g, h)) <==>
      Counts(d) || (d.sent.bytes == 0 && d.rcvd.bytes == 0)
  {
    forall g: Gauge | g != Refs
      ensures Accounted(m, g, a.src) <==> Counts(d) || Read(g, d) == 0
      ensures Accounted(m, g, a.dst) <==> Counts(d) || Read(g, Flip(d)) == 0
    {
      OneTotal(m.flows, a, g, a.src);
      OneTotal(m.flows, a, g, a.dst);
    }
    assert Read(SentBytes, d) == d.sent.bytes && Read(RcvdBytes, d) == d.rcvd.bytes;
    if forall g: Gauge, h :: g != Refs && h in m.hosts ==> Accounted(m, g, h) {
      assert Accounted(m, SentBytes, a.src) && Accounted(m, RcvdBytes, a.src);
    }
  }

  lemma OneTotal(flows: map<Ptr, Flow>, a: Alloc, g: Gauge, h: Ptr)
    requires flows.Keys == {a.flow}
    ensures Total(flows, g, h) == Weight(g, flows[a.flow], h)
  {
    TotalRemove(flows, g, h, a.flow);
    assert flows - {a.flow} == map[];
  }
}
