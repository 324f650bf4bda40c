/** Where the traffic goes that arrives in packets, records and layer 2 packets: over a whole run a
    host's counters, what still waits in its flows and what was lost are together what arrived. */
module LifecycleArrivals {
  import opened Addresses
  import opened HashTable
  import opened Memory
  import opened Lifecycle
  import opened LifecycleProof

  // ----- what flows have carried -----

  function Carried(f: Flow): Duplex { Duplex(f.c2s, f.s2c) }

  /** The flows as they would be after an update of each. */
  function Settled(flows: map<Ptr, Flow>): map<Ptr, Flow> { map p | p in flows :: Snapshot(flows[p]) }

  /** What past flows carried, and direct credits brought, for the object now at address h. */
  function PastCarried(log: seq<Entry>, g: Gauge, h: Ptr): int {
    if log == [] then 0 else PastNext(PastCarried(log[..|log| - 1], g, h), log[|log| - 1], g, h)
  }

  /** All that present and past flows and direct credits counted for host h. */
  ghost function Carrying(m: Mem, g: Gauge, h: Ptr): int { Total(Settled(m.flows), g, h) + PastCarried(m.log, g, h) }

  lemma SettledPut(flows: map<Ptr, Flow>, p: Ptr, f: Flow)
    ensures Settled(flows[p := f]) == Settled(flows)[p := Snapshot(f)]
    ensures Settled(flows - {p}) == Settled(flows) - {p}
  {
  }

  lemma SettledWeight(g: Gauge, f: Flow, h: Ptr)
    ensures Weight(g, Snapshot(f), h) == Share(g, f, Carried(f), h)
  {
  }

  /** What one more entry changes. */
  function PastNext(past: int, e: Entry, g: Gauge, h: Ptr): int {
    match e
    case Born(k) => if k == h then 0 else past
    case Retired(f) => past + Share(g, f, Carried(f), h)
    case Dropped(_) => past
    case Direct(k, d) => past + if k == h then Read(g, d) else 0
    case Credited(_, _, _) => past
  }

  lemma PastSnoc(log: seq<Entry>, e: Entry, g: Gauge, h: Ptr)
    ensures PastCarried(log + [e], g, h) == PastNext(PastCarried(log, g, h), e, g, h)
  {
    assert (log + [e])[..|log + [e]| - 1] == log;
  }

  /** Hosts may be added, but start with nothing. */
  ghost predicate Emerges(m: Mem, n: Mem, g: Gauge, h: Ptr) {
    && m.hosts.Keys <= n.hosts.Keys
    && (h in n.hosts ==> Carrying(n, g, h) == if h in m.hosts then Carrying(m, g, h) else 0)
  }

  /** Hosts may be deleted. */
  ghost predicate Remains(m: Mem, n: Mem, g: Gauge, h: Ptr) {
    h in n.hosts ==> h in m.hosts && Carrying(n, g, h) == Carrying(m, g, h)
  }

  // ----- operations on memory -----

  lemma UsesCarry(m: Mem, p: Option<Ptr>, k: nat)
    ensures var n := AddUses(m, p, k); n.flows == m.flows && n.log == m.log && n.hosts.Keys == m.hosts.Keys
  {
  }

  lemma NewFlowCarries(m: Mem, p: Ptr, f: Flow, g: Gauge, h: Ptr)
    requires p !in m.flows && Carried(f) == NO_DUPLEX && g != Refs
    ensures var n := NewFlow(m, p, f);
      n.flows == m.flows[p := f] && n.hosts.Keys == m.hosts.Keys && Carrying(n, g, h) == Carrying(m, g, h)
  {
    UsesCarry(m, f.cli, 1);
    UsesCarry(IncUses(m, f.cli), f.srv, 1);
    hide AddUses, PastCarried, Weight, Share;
    SettledPut(m.flows, p, f);
    TotalPut(Settled(m.flows), g, h, p, Snapshot(f));
    SettledWeight(g, f, h);
    NothingShared(g, f, h);
  }

  lemma NothingShared(g: Gauge, f: Flow, h: Ptr)
    requires g != Refs
    ensures Share(g, f, NO_DUPLEX, h) == 0
  {
  }

  lemma DeleteFlowCarries(m: Mem, p: Ptr, g: Gauge, h: Ptr)
    ensures var n := DeleteFlow(m, p); n.hosts.Keys == m.hosts.Keys && Carrying(n, g, h) == Carrying(m, g, h)
  {
    if p in m.flows {
      var f := m.flows[p];
      UsesCarry(m, f.cli, TWO_16 - 1);
      UsesCarry(DecUses(m, f.cli), f.srv, TWO_16 - 1);
      hide AddUses, PastCarried, Weight, Share;
      SettledPut(m.flows, p, f);
      TotalRemove(Settled(m.flows), g, h, p);
      SettledWeight(g, f, h);
      PastSnoc(m.log, Retired(f), g, h);
    }
  }

  lemma {:induction false} DeleteFlowsCarry(m: Mem, ps: seq<Ptr>, g: Gauge, h: Ptr)
    ensures var n := DeleteFlows(m, ps); n.hosts.Keys == m.hosts.Keys && Carrying(n, g, h) == Carrying(m, g, h)
    decreases |ps|
  {
    hide DeleteFlow, Carrying;
    if ps != [] {
      DeleteFlowCarries(m, ps[0], g, h);
      DeleteFlowsCarry(DeleteFlow(m, ps[0]), ps[1..], g, h);
    }
  }

  lemma {:induction false} DeleteHostsCarry(m: Mem, hs: seq<Ptr>, g: Gauge, h: Ptr)
    ensures Remains(m, DeleteHosts(m, hs), g, h)
    decreases |hs|
  {
    if hs != [] {
      DeleteHostsCarry(DeleteHost(m, hs[0]), hs[1..], g, h);
    }
  }

  lemma NewHostCarries(m: Mem, k: Ptr, id: Identity, now: nat, g: Gauge, h: Ptr)
    requires NoDangling(m) && k !in m.hosts
    ensures Emerges(m, NewHost(m, k, id, now), g, h)
    ensures Emerges(m, DeleteHost(NewHost(m, k, id, now), k), g, h)
    ensures NoDangling(NewHost(m, k, id, now)) && NoDangling(DeleteHost(NewHost(m, k, id, now), k))
  {
    PastSnoc(m.log, Born(k), g, h);
    if h == k {
      Unreferenced(m, h);
      TotalNone(Settled(m.flows), g, h);
    }
    hide PastCarried;
    assert (m.hosts[k := Host(id, 0, now, now, NO_STATS)] - {k}).Keys == m.hosts.Keys;
  }

  lemma Unreferenced(m: Mem, h: Ptr)
    requires NoDangling(m) && h !in m.hosts
    ensures forall p :: p in Settled(m.flows) ==>
      Settled(m.flows)[p].cli != Some(h) && Settled(m.flows)[p].srv != Some(h)
  {
    forall p | p in m.flows ensures m.flows[p].cli != Some(h) && m.flows[p].srv != Some(h) {
      assert !RefersTo(m.flows[p], h);
    }
  }

  lemma CreditCarries(m: Mem, p: Option<Ptr>, proto: u8, d: Duplex, now: nat, g: Gauge, h: Ptr)
    ensures var n := CreditHost(m, p, proto, d, now);
      n.hosts.Keys == m.hosts.Keys && n.flows == m.flows && Carrying(n, g, h) == Carrying(m, g, h)
  {
    if p.Some? {
      PastSnoc(m.log, Credited(p.value, proto, d), g, h);
    }
  }

  lemma DirectCarries(m: Mem, k: Ptr, d: Duplex, now: nat, g: Gauge, h: Ptr)
    requires Counts(d)
    ensures var n := DirectCredit(m, k, d, now);
      n.hosts.Keys == m.hosts.Keys && Carrying(n, g, h) == Carrying(m, g, h) + if k == h then Read(g, d) else 0
  {
    hide PastCarried, CreditHost, Read;
    CreditCarries(m, Some(k), 0, d, now, g, h);
    PastSnoc(CreditHost(m, Some(k), 0, d, now).log, Direct(k, d), g, h);
  }

  lemma UpdateCarries(m: Mem, p: Ptr, now: nat, g: Gauge, h: Ptr)
    ensures var n := UpdateHostsStats(m, p, now); n.hosts.Keys == m.hosts.Keys && Carrying(n, g, h) == Carrying(m, g, h)
  {
    if p in m.flows {
      var f, d, n := m.flows[p], Pending(m.flows[p]), TakeSnapshot(m, p);
      SettledPut(m.flows, p, Snapshot(f));
      assert Settled(n.flows) == Settled(m.flows);
      PastSnoc(m.log, Dropped(f), g, h);
      hide PastCarried, Pending, Counts, CreditHost;
      CreditCarries(n, f.cli, f.proto, d, now, g, h);
      CreditCarries(CreditHost(n, f.cli, f.proto, d, now), f.srv, f.proto, Flip(d), now, g, h);
    }
  }

  lemma {:induction false} UpdateAllCarries(c: Config, now: nat, m: Mem, ps: seq<Ptr>, g: Gauge, h: Ptr)
    ensures var n := UpdateAll(c, now, m, ps); n.hosts.Keys == m.hosts.Keys && Carrying(n, g, h) == Carrying(m, g, h)
    decreases |ps|
  {
    hide UpdateHostsStats, Carrying;
    if ps != [] {
      UpdateCarries(m, ps[0], now, g, h);
      var n := if ps[0] in m.flows && FlowIdle(c, now, m.flows[ps[0]]) then m else UpdateHostsStats(m, ps[0], now);
      UpdateAllCarries(c, now, n, ps[1..], g, h);
    }
  }

  // ----- counting -----

  /** Flows count packets in 32 bits and bytes in 64. */
  function Modulus(g: Gauge): nat { if g == SentBytes || g == RcvdBytes then TWO_64 else TWO_32 }

  predicate Congruent(x: int, y: int, g: Gauge) { (x - y) % Modulus(g) == 0 }

  lemma CongruentAdd(x: int, y: int, u: int, v: int, g: Gauge)
    requires Congruent(x, y, g) && Congruent(u, v, g)
    ensures Congruent(x + u, y + v, g)
  {
    Multiples(x - y, u - v, Modulus(g));
    assert (x + u) - (y + v) == (x - y) + (u - v);
  }

  lemma Multiples(a: int, b: int, m: int)
    requires (m == TWO_32 || m == TWO_64) && a % m == 0 && b % m == 0
    ensures (a + b) % m == 0
  {
    if m == TWO_32 {
      assert (a + b) % TWO_32 == 0;
    } else {
      assert (a + b) % TWO_64 == 0;
    }
  }

  lemma CongruentVia(x: int, y: int, z: int, g: Gauge)
    requires Congruent(x, y, g) && Congruent(y, z, g)
    ensures Congruent(x, z, g)
  {
    Multiples(x - y, y - z, Modulus(g));
    assert x - z == (x - y) + (y - z);
  }

  lemma ModCongruent(x: int, g: Gauge)
    ensures Congruent(x % Modulus(g), x, g)
  {
    var m := Modulus(g);
    var q, r := x / m, x % m;
    assert m > 0;
    assert x == q * m + r;
    Whole(r - x, -q, g);
  }

  lemma Whole(x: int, k: int, g: Gauge)
    requires x == k * Modulus(g)
    ensures x % Modulus(g) == 0
  {
    if Modulus(g) == TWO_32 {
      assert x == k * TWO_32;
    } else {
      assert x == k * TWO_64;
    }
  }

  lemma SameCongruent(x: int, g: Gauge)
    ensures Congruent(x, x, g)
  {
  }

  /** One direction counts a, or is left alone. */
  predicate Ticks(was: Traffic, now: Traffic, a: Traffic) {
    now == AddCount(was, a) || (now == was && a == NO_TRAFFIC)
  }

  lemma TicksRead(g: Gauge, x: Traffic, y: Traffic, a: Traffic, b: Traffic, x1: Traffic, y1: Traffic)
    requires g != Refs && Ticks(x, x1, a) && Ticks(y, y1, b)
    ensures Congruent(Read(g, Duplex(x1, y1)), Read(g, Duplex(x, y)) + Read(g, Duplex(a, b)), g)
  {
    hide Congruent;
    var sum := Read(g, Duplex(x, y)) + Read(g, Duplex(a, b));
    SameCongruent(sum, g);
    ModCongruent(sum, g);
    match g
    case SentPkts =>
    case SentBytes =>
    case RcvdPkts =>
    case RcvdBytes =>
  }

  /** What both directions of a flow gain is d. */
  ghost predicate Gains(f: Flow, n: Flow, d: Duplex) {
    n.cli == f.cli && n.srv == f.srv
    && forall g: Gauge :: g != Refs ==>
      && Congruent(Read(g, Carried(n)), Read(g, Carried(f)) + Read(g, d), g)
      && Congruent(Read(g, Flip(Carried(n))), Read(g, Flip(Carried(f))) + Read(g, Flip(d)), g)
  }

  lemma AddGains(f: Flow, n: Flow, a: Traffic, b: Traffic)
    requires n.cli == f.cli && n.srv == f.srv && Ticks(f.c2s, n.c2s, a) && Ticks(f.s2c, n.s2c, b)
    ensures Gains(f, n, Duplex(a, b))
  {
    hide Read, Congruent, Ticks;
    forall g: Gauge | g != Refs
      ensures Congruent(Read(g, Carried(n)), Read(g, Carried(f)) + Read(g, Duplex(a, b)), g)
      ensures Congruent(Read(g, Flip(Carried(n))), Read(g, Flip(Carried(f))) + Read(g, Flip(Duplex(a, b))), g)
    {
      TicksRead(g, f.c2s, f.s2c, a, b, n.c2s, n.s2c);
      TicksRead(g, f.s2c, f.c2s, b, a, n.s2c, n.c2s);
    }
  }

  lemma GainsShare(f: Flow, n: Flow, d: Duplex, g: Gauge, h: Ptr)
    requires Gains(f, n, d) && g != Refs
    ensures Congruent(Share(g, n, Carried(n), h), Share(g, f, Carried(f), h) + Share(g, f, d, h), g)
  {
    hide Read, Congruent;
    var x, y, z := Carried(n), Carried(f), d;
    SameCongruent(0, g);
    if f.cli == Some(h) && f.srv == Some(h) {
      CongruentAdd(Read(g, x), Read(g, y) + Read(g, z), Read(g, Flip(x)), Read(g, Flip(y)) + Read(g, Flip(z)), g);
    }
  }

  lemma Replaced(sum: int, x: int, y: int, d: int, g: Gauge)
    requires Congruent(y, x + d, g)
    ensures Congruent(sum - x + y, sum + d, g)
  {
    assert (sum - x + y) - (sum + d) == y - (x + d);
  }

  lemma TouchCarries(m: Mem, p: Ptr, n: Flow, d: Duplex, g: Gauge, h: Ptr)
    requires p in m.flows && Gains(m.flows[p], n, d) && g != Refs
    ensures Congruent(Carrying(m.(flows := m.flows[p := n]), g, h), Carrying(m, g, h) + Share(g, m.flows[p], d, h), g)
  {
    var f, t := m.flows[p], m.(flows := m.flows[p := n]);
    hide Weight, Gains, PastCarried, Share, Congruent;
    SettledPut(m.flows, p, n);
    TotalPut(Settled(m.flows), g, h, p, Snapshot(n));
    SettledWeight(g, f, h);
    SettledWeight(g, n, h);
    GainsShare(f, n, d, g, h);
    assert Carrying(t, g, h) == Carrying(m, g, h) - Share(g, f, Carried(f), h) + Share(g, n, Carried(n), h);
    Replaced(Carrying(m, g, h), Share(g, f, Carried(f), h), Share(g, n, Carried(n), h), Share(g, f, d, h), g);
  }

  // ----- what an event brings to a host -----

  /** What a packet or record brings host h: `into` in the direction of its tuple, `out` in the other.
      A packet of a flow that lacks one of its hosts is not counted. */
  function Brought(got: Got, into: Traffic, out: Traffic, whole: bool, g: Gauge, h: Ptr): int {
    if got.flow.None? || got.flow.value !in got.s.mem.flows then 0
    else
      var f := got.s.mem.flows[got.flow.value];
      if whole && (f.cli.None? || f.srv.None?) then 0
      else Share(g, f, if got.src2dst then Duplex(into, out) else Duplex(out, into), h)
  }

  function Stations(c: Config, s: State, e: Event): (State, Ptr, Ptr)
    requires Shaped(s) && e.Layer2?
  {
    var (s1, src) := ObtainStation(c, s.(now := e.ts), e.vlan, e.srcMac, e.a.src);
    var (s2, dst) := ObtainStation(c, s1, e.vlan, e.dstMac, e.a.dst);
    (s2, src, dst)
  }

  function Contribution(c: Config, s: State, e: Event, g: Gauge, h: Ptr): int
    requires Shaped(s)
  {
    match e
    case Packet(ts, t, len, _, a) =>
      Brought(GetFlow(c, s.(now := ts), t, ts, ts, a), Traffic(1, len), NO_TRAFFIC, true, g, h)
    case Record(first, last, t, _, into, out, a) =>
      Brought(GetFlow(c, s.(now := if last > s.now then last else s.now), t, first, last, a), into, out, false, g, h)
    case Layer2(_, _, _, _, len, _) =>
      var (_, src, dst) := Stations(c, s, e);
      (if src == h then Read(g, Duplex(Traffic(1, len), NO_TRAFFIC)) else 0) +
      (if dst == h then Read(g, Duplex(NO_TRAFFIC, Traffic(1, len))) else 0)
    case _ => 0
  }

  /** What a run brings to the host that is now at address h; `sum` is what came before the run. */
  function Arrived(c: Config, s: State, es: seq<Event>, g: Gauge, h: Ptr, sum: int): int
    requires Shaped(s)
    decreases |es|
  {
    if es == [] then sum
    else Arrived(c, Step(c, s, es[0]), es[1..], g, h,
      (if h in s.mem.hosts then sum else 0) + Contribution(c, s, es[0], g, h))
  }

  // ----- every step accounts for what it brings -----

  lemma ObtainCarries(c: Config, s: State, vlan: u16, mac: Mac, ip: Ip, k: Ptr, g: Gauge, h: Ptr)
    requires Shaped(s) && NoDangling(s.mem) && k !in s.mem.hosts
    ensures var t := ObtainHost(c, s, vlan, mac, ip, k).0;
      && Emerges(s.mem, t.mem, g, h) && NoDangling(t.mem) && t.mem.flows == s.mem.flows
      && t.mem.hosts.Keys <= s.mem.hosts.Keys + {k}
  {
    hide Carrying, NoDangling, Size, FindHost;
    NewHostCarries(s.mem, k, IpIdentity(c, vlan, mac, ip), s.now, g, h);
  }

  lemma StationCarries(c: Config, s: State, vlan: u16, mac: Mac, k: Ptr, g: Gauge, h: Ptr)
    requires Shaped(s) && NoDangling(s.mem) && k !in s.mem.hosts
    ensures var t := ObtainStation(c, s, vlan, mac, k).0;
      && Emerges(s.mem, t.mem, g, h) && NoDangling(t.mem) && t.mem.hosts.Keys <= s.mem.hosts.Keys + {k}
  {
    hide Carrying, NoDangling, Size, FindStation;
    NewHostCarries(s.mem, k, MacIdentity(vlan, mac), s.now, g, h);
  }

  lemma EmergesTwice(m: Mem, n: Mem, o: Mem, g: Gauge, h: Ptr)
    requires Emerges(m, n, g, h) && Emerges(n, o, g, h)
    ensures Emerges(m, o, g, h)
  {
    hide Carrying;
  }

  lemma JoinCarries(c: Config, s: State, f: Flow, p: Ptr, g: Gauge, h: Ptr)
    requires Shaped(s) && p !in s.mem.flows && Carried(f) == NO_DUPLEX && g != Refs
    ensures var r := JoinFlow(c, s, f, p);
      Emerges(s.mem, r.s.mem, g, h) && (r.flow.Some? ==> r.flow.value in r.s.mem.flows)
  {
    NewFlowCarries(s.mem, p, f, g, h);
    hide Carrying, NewFlow, DeleteFlow, Size, FlowKey;
    DeleteFlowCarries(NewFlow(s.mem, p, f), p, g, h);
  }

  lemma GetCarries(c: Config, s: State, t: Tuple, first: nat, last: nat, a: Alloc, g: Gauge, h: Ptr)
    requires Shaped(s) && NoDangling(s.mem) && g != Refs
    requires a.flow !in s.mem.flows && a.src !in s.mem.hosts && a.dst !in s.mem.hosts && a.src != a.dst
    ensures Emerges(s.mem, GetFlow(c, s, t, first, last, a).s.mem, g, h)
  {
    hide ObtainHost, JoinFlow, FindFlow, Forward, Carrying, NoDangling;
    ObtainCarries(c, s, t.vlan, t.srcMac, t.src, a.src, g, h);
    var (s1, k) := ObtainHost(c, s, t.vlan, t.srcMac, t.src, a.src);
    if k.Some? {
      ObtainCarries(c, s1, t.vlan, t.dstMac, t.dst, a.dst, g, h);
      EmergesTwice(s.mem, s1.mem, ObtainHost(c, s1, t.vlan, t.dstMac, t.dst, a.dst).0.mem, g, h);
    }
    var (s2, cli, srv) := FindFlowHosts(c, s, t, a);
    assert Emerges(s.mem, s2.mem, g, h) && s2.mem.flows == s.mem.flows;
    var f := FreshFlow(t, cli, srv, first, last);
    JoinCarries(c, s2, f, a.flow, g, h);
    EmergesTwice(s.mem, s2.mem, JoinFlow(c, s2, f, a.flow).s.mem, g, h);
  }

  lemma PacketCarries(got: Got, t: Tuple, len: nat, flags: bv8, g: Gauge, h: Ptr)
    requires g != Refs
    ensures var n := CountPacket(got, t, len, flags).mem;
      && n.hosts == got.s.mem.hosts
      && Congruent(Carrying(n, g, h),
         Carrying(got.s.mem, g, h) + Brought(got, Traffic(1, len), NO_TRAFFIC, true, g, h), g)
  {
    if got.flow.Some? && got.flow.value in got.s.mem.flows {
      var f := got.s.mem.flows[got.flow.value];
      var n := WithFlags(FlowIncStats(f, got.src2dst, len, got.s.now), t, flags);
      var one := Traffic(1, len);
      if f.cli.None? || f.srv.None? {
        AddGains(f, n, NO_TRAFFIC, NO_TRAFFIC);
        NothingShared(g, f, h);
        TouchCarries(got.s.mem, got.flow.value, n, NO_DUPLEX, g, h);
      } else {
        var a, b := if got.src2dst then one else NO_TRAFFIC, if got.src2dst then NO_TRAFFIC else one;
        AddGains(f, n, a, b);
        TouchCarries(got.s.mem, got.flow.value, n, Duplex(a, b), g, h);
      }
      hide Carrying, FlowIncStats, WithFlags, Share, Congruent;
    }
  }

  lemma RecordCarries(got: Got, t: Tuple, flags: bv8, into: Traffic, out: Traffic, last: nat, g: Gauge, h: Ptr)
    requires g != Refs
    ensures var n := CountRecord(got, t, flags, into, out, last).mem;
      && n.hosts == got.s.mem.hosts
      && Congruent(Carrying(n, g, h), Carrying(got.s.mem, g, h) + Brought(got, into, out, false, g, h), g)
  {
    if got.flow.Some? && got.flow.value in got.s.mem.flows {
      var f := got.s.mem.flows[got.flow.value];
      var n := AddFlowStats(WithFlags(f, t, flags), got.src2dst, into, out, last);
      var a, b := if got.src2dst then into else out, if got.src2dst then out else into;
      AddGains(f, n, a, b);
      TouchCarries(got.s.mem, got.flow.value, n, Duplex(a, b), g, h);
      hide Carrying, AddFlowStats, WithFlags, Share, Congruent;
    }
  }

  lemma RemainsTwice(m: Mem, n: Mem, o: Mem, g: Gauge, h: Ptr)
    requires Remains(m, n, g, h) && Remains(n, o, g, h)
    ensures Remains(m, o, g, h)
  {
    hide Carrying;
  }

  lemma PurgeCarries(c: Config, s: State, when: nat, g: Gauge, h: Ptr)
    requires Shaped(s)
    ensures Remains(s.mem, PurgeIdle(c, s, when).mem, g, h)
  {
    hide Sweep, Swept, Carrying;
    if c.purge {
      var s1 := s.(now := when);
      var s2 := PurgeFlows(c, s1);
      DeleteFlowsCarry(s1.mem, Swept(s1.ftab, IdleFlows(c, s1)), g, h);
      assert Remains(s.mem, s2.mem, g, h);
      DeleteHostsCarry(s2.mem, Swept(s2.htab, IdleHosts(c, s2)), g, h);
      RemainsTwice(s.mem, s2.mem, PurgeHosts(c, s2).mem, g, h);
    }
  }

  lemma CleanupCarries(s: State, g: Gauge, h: Ptr)
    requires Shaped(s)
    ensures Remains(s.mem, CleanupAll(s).mem, g, h)
  {
    hide Carrying;
    var m := DeleteFlows(s.mem, Flatten(s.ftab.buckets));
    DeleteFlowsCarry(s.mem, Flatten(s.ftab.buckets), g, h);
    DeleteHostsCarry(m, Flatten(s.htab.buckets), g, h);
    RemainsTwice(s.mem, m, CleanupAll(s).mem, g, h);
  }

  /** The account of host h after a step, if it still exists. */
  ghost predicate Tallies(c: Config, s: State, t: State, e: Event, g: Gauge, h: Ptr)
    requires Shaped(s)
  {
    h in t.mem.hosts ==>
      Congruent(Carrying(t.mem, g, h),
        (if h in s.mem.hosts then Carrying(s.mem, g, h) else 0) + Contribution(c, s, e, g, h), g)
  }

  lemma FlowTallies(c: Config, s: State, e: Event, g: Gauge, h: Ptr)
    requires Shaped(s) && NoDangling(s.mem) && Fresh(s, e) && g != Refs && (e.Packet? || e.Record?)
    ensures Tallies(c, s, Step(c, s, e), e, g, h)
  {
    hide Carrying, GetFlow, PurgeIdle, CountPacket, CountRecord, Brought, NoDangling, Congruent;
    match e {
      case Packet(ts, t, len, flags, a) =>
        var got := GetFlow(c, s.(now := ts), t, ts, ts, a);
        GetCarries(c, s.(now := ts), t, ts, ts, a, g, h);
        PacketCarries(got, t, len, flags, g, h);
        CountedShaped(got, t, len, flags);
        PurgeCarries(c, CountPacket(got, t, len, flags), ts, g, h);
      case Record(first, last, t, flags, into, out, a) =>
        var s0 := s.(now := if last > s.now then last else s.now);
        var got := GetFlow(c, s0, t, first, last, a);
        GetCarries(c, s0, t, first, last, a, g, h);
        RecordCarries(got, t, flags, into, out, last, g, h);
        RecordShaped(got, t, flags, into, out, last);
        PurgeCarries(c, CountRecord(got, t, flags, into, out, last), last, g, h);
        NoFlow(got, t, flags, into, out, last);
    }
  }

  lemma CountedShaped(got: Got, t: Tuple, len: nat, flags: bv8)
    requires Shaped(got.s)
    ensures Shaped(CountPacket(got, t, len, flags))
  {
  }

  lemma RecordShaped(got: Got, t: Tuple, flags: bv8, into: Traffic, out: Traffic, last: nat)
    requires Shaped(got.s)
    ensures Shaped(CountRecord(got, t, flags, into, out, last))
  {
  }

  lemma NoFlow(got: Got, t: Tuple, flags: bv8, into: Traffic, out: Traffic, last: nat)
    ensures got.flow.None? ==> CountRecord(got, t, flags, into, out, last) == got.s
  {
  }

  lemma Layer2Tallies(c: Config, s: State, e: Event, g: Gauge, h: Ptr)
    requires Shaped(s) && NoDangling(s.mem) && Fresh(s, e) && g != Refs && e.Layer2?
    ensures Tallies(c, s, Step(c, s, e), e, g, h)
  {
    hide Carrying, PurgeIdle, NoDangling, ObtainStation, DirectCredit, Read;
    var s0 := s.(now := e.ts);
    var (s1, src) := ObtainStation(c, s0, e.vlan, e.srcMac, e.a.src);
    var (s2, dst) := ObtainStation(c, s1, e.vlan, e.dstMac, e.a.dst);
    var d1, d2 := Duplex(Traffic(1, e.len), NO_TRAFFIC), Duplex(NO_TRAFFIC, Traffic(1, e.len));
    StationCarries(c, s0, e.vlan, e.srcMac, e.a.src, g, h);
    StationCarries(c, s1, e.vlan, e.dstMac, e.a.dst, g, h);
    EmergesTwice(s.mem, s1.mem, s2.mem, g, h);
    DirectCarries(s2.mem, src, d1, e.ts, g, h);
    DirectCarries(DirectCredit(s2.mem, src, d1, e.ts), dst, d2, e.ts, g, h);
    PurgeCarries(c, s2.(mem := DirectCredit(DirectCredit(s2.mem, src, d1, e.ts), dst, d2, e.ts)), e.ts, g, h);
  }

  lemma StepTallies(c: Config, s: State, e: Event, g: Gauge, h: Ptr)
    requires Shaped(s) && NoDangling(s.mem) && Fresh(s, e) && g != Refs
    ensures Tallies(c, s, Step(c, s, e), e, g, h)
  {
    hide Carrying, PurgeIdle, NoDangling, CleanupAll, GetFlow, CountPacket, CountRecord, Fresh, Brought, ObtainStation;
    match e
    case Packet(_, _, _, _, _) => FlowTallies(c, s, e, g, h);
    case Record(_, _, _, _, _, _, _) => FlowTallies(c, s, e, g, h);
    case Layer2(_, _, _, _, _, _) => Layer2Tallies(c, s, e, g, h);
    case Other(ts) => PurgeCarries(c, s.(now := ts), ts, g, h);
    case Skipped(_) =>
    case Poll(when) => PurgeCarries(c, s, when, g, h);
    case Housekeeping => UpdateAllCarries(c, s.now, s.mem, Flatten(s.ftab.buckets), g, h);
    case Cleanup => CleanupCarries(s, g, h);
  }

  lemma StepSums(c: Config, s: State, t: State, e: Event, g: Gauge, h: Ptr, sum: int)
    requires Shaped(s) && Tallies(c, s, t, e, g, h) && (h in s.mem.hosts ==> Congruent(Carrying(s.mem, g, h), sum, g))
    ensures h in t.mem.hosts ==>
      Congruent(Carrying(t.mem, g, h), (if h in s.mem.hosts then sum else 0) + Contribution(c, s, e, g, h), g)
  {
    hide Carrying, Contribution, Congruent;
    var more := Contribution(c, s, e, g, h);
    if h in t.mem.hosts && h in s.mem.hosts {
      SameCongruent(more, g);
      CongruentAdd(Carrying(s.mem, g, h), sum, more, more, g);
      CongruentVia(Carrying(t.mem, g, h), Carrying(s.mem, g, h) + more, sum + more, g);
    }
  }

  lemma {:induction false} RunTallies(c: Config, s: State, es: seq<Event>, g: Gauge, h: Ptr, sum: int)
    requires Good(c, s, false) && Countable(c, s.mem) && Feasible(c, s, es) && Manageable(c, s, es) && g != Refs
    requires h in s.mem.hosts ==> Congruent(Carrying(s.mem, g, h), sum, g)
    ensures h in Run(c, s, es).mem.hosts ==>
      Congruent(Carrying(Run(c, s, es).mem, g, h), Arrived(c, s, es, g, h, sum), g)
    decreases |es|
  {
    hide Good, Step, Uncrowded, Countable, Carrying, Contribution, Fresh, Congruent, Tallies;
    if es != [] {
      var t := Step(c, s, es[0]);
      StepGood(c, s, es[0], false);
      GoodDangles(c, s);
      StepTallies(c, s, es[0], g, h);
      StepSums(c, s, t, es[0], g, h, sum);
      RunTallies(c, t, es[1..], g, h, (if h in s.mem.hosts then sum else 0) + Contribution(c, s, es[0], g, h));
    }
  }

  lemma GoodDangles(c: Config, s: State)
    requires Good(c, s, false)
    ensures NoDangling(s.mem)
  {
    hide Tabled, NoDangling, Counted, Conserved;
  }

  // ----- where it went -----

  /** The flows with what is pending in place of the last snapshot. */
  function Unsettled(flows: map<Ptr, Flow>): map<Ptr, Flow> {
    map p | p in flows :: flows[p].(c2sLast := Pending(flows[p]).sent, s2cLast := Pending(flows[p]).rcvd)
  }

  /** What still waits in the flows for the next update. */
  ghost function Waiting(flows: map<Ptr, Flow>, g: Gauge, h: Ptr): int { Total(Unsettled(flows), g, h) }

  /** What was pending when flows were deleted, and what updates dropped. */
  function Lost(log: seq<Entry>, g: Gauge, h: Ptr): int {
    if log == [] then 0 else
    var rest := Lost(log[..|log| - 1], g, h);
    match log[|log| - 1]
    case Born(k) => if k == h then 0 else rest
    case Retired(f) => rest + Share(g, f, Pending(f), h)
    case Dropped(f) => rest + Share(g, f, Pending(f), h)
    case Direct(_, _) => rest
    case Credited(_, _, _) => rest
  }

  lemma {:induction false} WaitingIs(flows: map<Ptr, Flow>, g: Gauge, h: Ptr) returns (j: int)
    requires g != Refs
    ensures Waiting(flows, g, h) == Total(Settled(flows), g, h) - Total(flows, g, h) + TWO_64 * j
    decreases |flows|
  {
    if flows == map[] {
      j := 0;
    } else {
      var p := AnyOf(flows);
      var f := flows[p];
      var i := WaitingIs(flows - {p}, g, h);
      var k := ShareDiff(g, f, h);
      j := i + k;
      hide Pending, Read, Share;
      assert Unsettled(flows - {p}) == Unsettled(flows) - {p} && Settled(flows - {p}) == Settled(flows) - {p};
      TotalRemove(flows, g, h, p);
      TotalRemove(Settled(flows), g, h, p);
      TotalRemove(Unsettled(flows), g, h, p);
      UnsettledWeight(flows, p, g, h);
    }
  }

  lemma UnsettledWeight(flows: map<Ptr, Flow>, p: Ptr, g: Gauge, h: Ptr)
    requires p in flows
    ensures Weight(g, Unsettled(flows)[p], h) == Share(g, flows[p], Pending(flows[p]), h)
  {
    hide Read;
  }

  lemma {:induction false} LostIs(log: seq<Entry>, g: Gauge, h: Ptr) returns (j: int)
    requires g != Refs
    ensures Lost(log, g, h) == PastCarried(log, g, h) - Booked(log, g, h) + TWO_64 * j
    decreases |log|
  {
    if log == [] {
      j := 0;
    } else {
      hide Pending, Read, Share, Weight, Carried;
      var e := log[|log| - 1];
      j := LostIs(log[..|log| - 1], g, h);
      if e.Retired? {
        var k := ShareDiff(g, e.flow, h);
        SettledWeight(g, e.flow, h);
        j := j + k;
      } else if e.Born? && e.host == h {
        j := 0;
      }
    }
  }

  lemma Coarser(x: int, g: Gauge)
    requires x % TWO_64 == 0
    ensures x % Modulus(g) == 0
  {
    if Modulus(g) == TWO_32 {
      assert x == TWO_32 * (TWO_32 * (x / TWO_64));
    }
  }

  lemma Adds(arrived: int, carrying: int, shown: int, total: int, booked: int, waiting: int, lost: int, i: int, j: int,
      g: Gauge)
    requires Congruent(carrying, arrived, g) && (shown - total - booked) % TWO_64 == 0
    requires waiting + lost == carrying - total - booked + TWO_64 * i + TWO_64 * j
    ensures Congruent(arrived, shown + waiting + lost, g)
  {
    hide Modulus;
    var there, gap := shown + waiting + lost, shown - total - booked;
    assert there - carrying == gap + TWO_64 * (i + j);
    MultipleOf(gap, gap + TWO_64 * (i + j), i + j);
    Coarser(there - carrying, g);
    assert Congruent(there, carrying, g);
    CongruentVia(there, carrying, arrived, g);
    CongruentFlip(there, arrived, g);
  }

  lemma CongruentFlip(x: int, y: int, g: Gauge)
    requires Congruent(x, y, g)
    ensures Congruent(y, x, g)
  {
    if Modulus(g) == TWO_32 {
      assert y - x == TWO_32 * -((x - y) / TWO_32);
    } else {
      assert y - x == TWO_64 * -((x - y) / TWO_64);
    }
  }

  /** In every reachable state: what arrived for a host, in packets, records and layer 2 packets, is
      what its counters show, what still waits in its flows, what was pending when flows of it were
      deleted, and what updates dropped (packets mod 2^32, bytes mod 2^64). */
  lemma ReachableArrivals(c: Config, es: seq<Event>, g: Gauge, h: Ptr)
    requires c.flowBuckets > 0 && c.hostBuckets > 0
    requires Feasible(c, Initial(c), es) && Manageable(c, Initial(c), es)
    requires g != Refs && h in Run(c, Initial(c), es).mem.hosts
    ensures var m := Run(c, Initial(c), es).mem;
      Congruent(Arrived(c, Initial(c), es, g, h, 0),
        Read(g, m.hosts[h].stats.all) + Waiting(m.flows, g, h) + Lost(m.log, g, h), g)
  {
    hide Run, Feasible, Manageable, Booked, Read, Waiting, Lost, PastCarried, Settled, Total, Safe, Unique,
      Countable, Arrived, Congruent;
    InitialGood(c);
    GoneCountable(c, Initial(c).mem);
    SameCongruent(0, g);
    RunTallies(c, Initial(c), es, g, h, 0);
    ReachableConserved(c, es, g, h);
    var m := Run(c, Initial(c), es).mem;
    var i := WaitingIs(m.flows, g, h);
    var j := LostIs(m.log, g, h);
    Adds(Arrived(c, Initial(c), es, g, h, 0), Carrying(m, g, h), Read(g, m.hosts[h].stats.all), Total(m.flows, g, h),
      Booked(m.log, g, h), Waiting(m.flows, g, h), Lost(m.log, g, h), i, j, g);
  }
}
