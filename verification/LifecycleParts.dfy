/** The counters that hosts keep by protocol: each has exactly what flows of its protocol carried. */
module LifecycleParts {
  import opened Addresses
  import opened HashTable
  import opened Memory
  import opened Lifecycle
  import opened LifecycleProof
  import opened LifecycleLoss

  datatype Part = Tcp | Udp | Icmp | Rest

  /** The protocols that a counter is for. Those of protocol 0, which is unknown, have none. */
  predicate Takes(k: Part, proto: u8) {
    match k
    case Tcp => proto == 6
    case Udp => proto == 17
    case Icmp => proto == 1
    case Rest => proto != 0 && proto != 1 && proto != 6 && proto != 17
  }

  function PartOf(s: Stats, k: Part): Duplex {
    match k case Tcp => s.tcp case Udp => s.udp case Icmp => s.icmp case Rest => s.other
  }

  /** A credit moves the total and the counter of its protocol, and no other, and only if some packet
      moved. */
  lemma CreditParts(h: Host, proto: u8, d: Duplex, now: nat, k: Part)
    ensures var s, t := h.stats, HostIncStats(h, proto, d, now).stats;
      var moved := d.sent.pkts != 0 || d.rcvd.pkts != 0;
      && t.all == (if moved then AddDuplex(s.all, d) else s.all)
      && PartOf(t, k) == (if moved && Takes(k, proto) then AddDuplex(PartOf(s, k), d) else PartOf(s, k))
  {
    hide AddDuplex;
  }

  // ----- the account of one counter -----

  function Only(flows: map<Ptr, Flow>, k: Part): map<Ptr, Flow> {
    map p | p in flows && Takes(k, flows[p].proto) :: flows[p]
  }

  /** Traffic of the protocol that the log accounts to the object now at address h. */
  function BookedOnly(log: seq<Entry>, k: Part, g: Gauge, h: Ptr): int {
    if log == [] then 0 else BookedNext(BookedOnly(log[..|log| - 1], k, g, h), log[|log| - 1], k, g, h)
  }

  function BookedNext(was: int, e: Entry, k: Part, g: Gauge, h: Ptr): int {
    match e
    case Born(j) => if j == h then 0 else was
    case Retired(f) => was + if Takes(k, f.proto) then Weight(g, f, h) else 0
    case Dropped(f) => was - if Takes(k, f.proto) then Share(g, f, Pending(f), h) else 0
    case Direct(_, _) => was
    case Credited(_, _, _) => was
  }

  lemma BookedSnoc(log: seq<Entry>, e: Entry, k: Part, g: Gauge, h: Ptr)
    ensures BookedOnly(log + [e], k, g, h) == BookedNext(BookedOnly(log, k, g, h), e, k, g, h)
  {
    assert (log + [e])[..|log + [e]| - 1] == log;
  }

  /** How far the host's counter is from what the flows of its protocol account for. */
  ghost function Gap(m: Mem, k: Part, g: Gauge, h: Ptr): int
    requires h in m.hosts
  {
    Read(g, PartOf(m.hosts[h].stats, k)) - Total(Only(m.flows, k), g, h) - BookedOnly(m.log, k, g, h)
  }

  /** No gap, mod 2^64. */
  ghost predicate Even(m: Mem, k: Part, g: Gauge, h: Ptr) { h in m.hosts ==> Gap(m, k, g, h) % TWO_64 == 0 }

  lemma OnlyPut(flows: map<Ptr, Flow>, p: Ptr, f: Flow, k: Part)
    ensures Takes(k, f.proto) ==> Only(flows[p := f], k) == Only(flows, k)[p := f]
    ensures !Takes(k, f.proto) && (p in flows ==> !Takes(k, flows[p].proto)) ==>
      Only(flows[p := f], k) == Only(flows, k)
    ensures Only(flows - {p}, k) == Only(flows, k) - {p}
  {
  }

  lemma SameGap(m: Mem, n: Mem, k: Part, g: Gauge, h: Ptr)
    requires Even(m, k, g, h) && Only(n.flows, k) == Only(m.flows, k)
    requires BookedOnly(n.log, k, g, h) == BookedOnly(m.log, k, g, h)
    requires h in n.hosts ==> h in m.hosts && PartOf(n.hosts[h].stats, k) == PartOf(m.hosts[h].stats, k)
    ensures Even(n, k, g, h)
  {
  }

  // ----- operations on memory -----

  lemma UsesOnly(m: Mem, p: Option<Ptr>, u: nat)
    ensures var n := AddUses(m, p, u);
      && n.flows == m.flows && n.log == m.log && n.hosts.Keys == m.hosts.Keys
      && forall h :: h in m.hosts ==> n.hosts[h].stats == m.hosts[h].stats
  {
  }

  lemma UsesTwiceOnly(m: Mem, p: Option<Ptr>, q: Option<Ptr>, u: nat)
    ensures var n := AddUses(AddUses(m, p, u), q, u);
      && n.flows == m.flows && n.log == m.log && n.hosts.Keys == m.hosts.Keys
      && forall h :: h in m.hosts ==> n.hosts[h].stats == m.hosts[h].stats
  {
    hide AddUses;
    UsesOnly(m, p, u);
    UsesOnly(AddUses(m, p, u), q, u);
  }

  lemma WeightZero(f: Flow, g: Gauge, h: Ptr)
    requires Last(f) == NO_DUPLEX && g != Refs
    ensures Weight(g, f, h) == 0
  {
  }

  lemma NewFlowEven(m: Mem, p: Ptr, f: Flow, k: Part, g: Gauge, h: Ptr)
    requires Even(m, k, g, h) && p !in m.flows && Last(f) == NO_DUPLEX && g != Refs
    ensures Even(NewFlow(m, p, f), k, g, h)
  {
    UsesTwiceOnly(m, f.cli, f.srv, 1);
    WeightZero(f, g, h);
    OnlyPut(m.flows, p, f, k);
    TotalPut(Only(m.flows, k), g, h, p, f);
    hide AddUses, Weight, BookedOnly, Takes, Read, PartOf;
  }

  lemma DeleteFlowEven(m: Mem, p: Ptr, k: Part, g: Gauge, h: Ptr)
    requires Even(m, k, g, h)
    ensures Even(DeleteFlow(m, p), k, g, h)
  {
    if p in m.flows {
      var f := m.flows[p];
      UsesTwiceOnly(m, f.cli, f.srv, TWO_16 - 1);
      OnlyPut(m.flows, p, f, k);
      BookedSnoc(m.log, Retired(f), k, g, h);
      hide AddUses, Weight, BookedOnly, Read, PartOf;
      if Takes(k, f.proto) {
        TotalRemove(Only(m.flows, k), g, h, p);
      } else {
        assert Only(m.flows, k) - {p} == Only(m.flows, k);
      }
    }
  }

  lemma {:induction false} DeleteFlowsEven(m: Mem, ps: seq<Ptr>, k: Part, g: Gauge, h: Ptr)
    requires Even(m, k, g, h)
    ensures Even(DeleteFlows(m, ps), k, g, h)
    decreases |ps|
  {
    hide DeleteFlow, Even;
    if ps != [] {
      DeleteFlowEven(m, ps[0], k, g, h);
      DeleteFlowsEven(DeleteFlow(m, ps[0]), ps[1..], k, g, h);
    }
  }

  lemma {:induction false} DeleteHostsEven(m: Mem, hs: seq<Ptr>, k: Part, g: Gauge, h: Ptr)
    requires Even(m, k, g, h)
    ensures Even(DeleteHosts(m, hs), k, g, h)
    decreases |hs|
  {
    if hs != [] {
      SameGap(m, DeleteHost(m, hs[0]), k, g, h);
      hide Even;
      DeleteHostsEven(DeleteHost(m, hs[0]), hs[1..], k, g, h);
    }
  }

  /** A host starts with no flows and no traffic. */
  lemma BornEven(m: Mem, id: Identity, now: nat, k: Part, g: Gauge, h: Ptr)
    requires NoDangling(m) && h !in m.hosts && g != Refs
    ensures Even(NewHost(m, h, id, now), k, g, h)
  {
    forall p | p in m.flows ensures m.flows[p].cli != Some(h) && m.flows[p].srv != Some(h) {
      assert !RefersTo(m.flows[p], h);
    }
    hide NoDangling, Total, BookedOnly;
    TotalNone(Only(m.flows, k), g, h);
    BookedSnoc(m.log, Born(h), k, g, h);
  }

  lemma NewHostEven(m: Mem, j: Ptr, id: Identity, now: nat, k: Part, g: Gauge, h: Ptr)
    requires Even(m, k, g, h) && NoDangling(m) && j !in m.hosts && g != Refs
    ensures Even(NewHost(m, j, id, now), k, g, h) && Even(DeleteHost(NewHost(m, j, id, now), j), k, g, h)
  {
    var n := NewHost(m, j, id, now);
    if h == j {
      BornEven(m, id, now, k, g, h);
      assert h !in DeleteHost(n, h).hosts;
    } else {
      hide Even, NoDangling, BookedOnly, PartOf;
      BookedSnoc(m.log, Born(j), k, g, h);
      SameGap(m, n, k, g, h);
      SameGap(m, DeleteHost(n, j), k, g, h);
    }
  }

  lemma TouchEven(m: Mem, p: Ptr, f: Flow, k: Part, g: Gauge, h: Ptr)
    requires Even(m, k, g, h) && p in m.flows && Touched(m.flows[p], f)
    ensures Even(m.(flows := m.flows[p := f]), k, g, h)
  {
    OnlyPut(m.flows, p, f, k);
    if Takes(k, f.proto) {
      TotalPut(Only(m.flows, k), g, h, p, f);
    }
    hide Takes, BookedOnly, Read, PartOf;
  }

  lemma CreditShape(m: Mem, p: Option<Ptr>, proto: u8, d: Duplex, now: nat, k: Part, h: Ptr)
    requires h in m.hosts
    ensures var n, s := CreditHost(m, p, proto, d, now), m.hosts[h].stats;
      && h in n.hosts && n.flows == m.flows
      && (n.log == m.log || (p.Some? && n.log == m.log + [Credited(p.value, proto, d)]))
      && PartOf(n.hosts[h].stats, k) ==
           if p == Some(h) && Counts(d) && Takes(k, proto) then AddDuplex(PartOf(s, k), d) else PartOf(s, k)
  {
    CreditParts(m.hosts[h], proto, d, now, k);
    hide HostIncStats, AddDuplex, PartOf, Takes;
  }

  /** A credit moves the counter if it takes the protocol. */
  lemma CreditGap(m: Mem, p: Option<Ptr>, proto: u8, d: Duplex, now: nat, k: Part, g: Gauge, h: Ptr) returns (j: int)
    requires g != Refs && h in m.hosts
    ensures var n := CreditHost(m, p, proto, d, now);
      && h in n.hosts && n.flows == m.flows
      && Gap(n, k, g, h) == Gap(m, k, g, h) +
           (if p == Some(h) && Counts(d) && Takes(k, proto) then Read(g, d) else 0) + TWO_64 * j
  {
    CreditShape(m, p, proto, d, now, k, h);
    if p.Some? {
      BookedSnoc(m.log, Credited(p.value, proto, d), k, g, h);
    }
    j := 0;
    if p == Some(h) && Counts(d) && Takes(k, proto) {
      j := ReadAdd(g, PartOf(m.hosts[h].stats, k), d);
    }
    hide CreditHost, BookedOnly, Read, PartOf, AddDuplex, Total, Takes, Counts;
  }

  lemma DirectEven(m: Mem, j: Ptr, d: Duplex, now: nat, k: Part, g: Gauge, h: Ptr)
    requires Even(m, k, g, h) && g != Refs
    ensures Even(DirectCredit(m, j, d, now), k, g, h)
  {
    var n := CreditHost(m, Some(j), 0, d, now);
    CreditKeys(m, Some(j), 0, d, now);
    if h in m.hosts {
      var i := CreditGap(m, Some(j), 0, d, now, k, g, h);
      MultipleOf(Gap(m, k, g, h), Gap(n, k, g, h), i);
    }
    assert Even(n, k, g, h);
    BookedSnoc(n.log, Direct(j, d), k, g, h);
    hide CreditHost, Gap;
    SameGap(n, DirectCredit(m, j, d, now), k, g, h);
  }

  lemma SnapshotGap(m: Mem, p: Ptr, k: Part, g: Gauge, h: Ptr) returns (j: int)
    requires g != Refs && p in m.flows && h in m.hosts
    ensures var n, f := TakeSnapshot(m, p), m.flows[p];
      Gap(n, k, g, h) == Gap(m, k, g, h) -
        (if Takes(k, f.proto) && Counts(Pending(f)) then Share(g, f, Pending(f), h) else 0) + TWO_64 * j
  {
    var n, f := TakeSnapshot(m, p), m.flows[p];
    OnlyPut(m.flows, p, Snapshot(f), k);
    BookedSnoc(m.log, Dropped(f), k, g, h);
    j := 0;
    if Takes(k, f.proto) {
      TotalPut(Only(m.flows, k), g, h, p, Snapshot(f));
      var i := ShareDiff(g, f, h);
      j := i;
    }
    hide Share, Read, Pending, Weight, BookedOnly, Takes;
  }

  /** One update passes the pending traffic on to the counters of the flow's protocol. */
  lemma UpdateEven(m: Mem, p: Ptr, now: nat, k: Part, g: Gauge, h: Ptr)
    requires Even(m, k, g, h) && g != Refs && p in m.flows
    ensures Even(UpdateHostsStats(m, p, now), k, g, h)
  {
    var f := m.flows[p];
    var d, n0 := Pending(f), TakeSnapshot(m, p);
    var n1 := CreditHost(n0, f.cli, f.proto, d, now);
    var n := CreditHost(n1, f.srv, f.proto, Flip(d), now);
    CreditKeys(n0, f.cli, f.proto, d, now);
    CreditKeys(n1, f.srv, f.proto, Flip(d), now);
    if h in m.hosts {
      var i0 := SnapshotGap(m, p, k, g, h);
      var i1 := CreditGap(n0, f.cli, f.proto, d, now, k, g, h);
      var i2 := CreditGap(n1, f.srv, f.proto, Flip(d), now, k, g, h);
      assert Counts(Flip(d)) == Counts(d);
      hide CreditHost, Gap, Takes, Counts, Read, Pending;
      MultipleOf(Gap(m, k, g, h), Gap(n, k, g, h), i0 + i1 + i2);
    }
  }

  lemma {:induction false} UpdateAllEven(c: Config, now: nat, m: Mem, ps: seq<Ptr>, k: Part, g: Gauge, h: Ptr)
    requires Even(m, k, g, h) && g != Refs
    ensures Even(UpdateAll(c, now, m, ps), k, g, h)
    decreases |ps|
  {
    hide UpdateHostsStats, Even;
    if ps != [] {
      var n := if ps[0] in m.flows && FlowIdle(c, now, m.flows[ps[0]]) then m else UpdateHostsStats(m, ps[0], now);
      if ps[0] in m.flows {
        UpdateEven(m, ps[0], now, k, g, h);
      } else {
        FaultEven(m, ps[0], now, k, g, h);
      }
      UpdateAllEven(c, now, n, ps[1..], k, g, h);
    }
  }

  lemma FaultEven(m: Mem, p: Ptr, now: nat, k: Part, g: Gauge, h: Ptr)
    requires Even(m, k, g, h) && p !in m.flows
    ensures Even(UpdateHostsStats(m, p, now), k, g, h)
  {
    SameGap(m, UpdateHostsStats(m, p, now), k, g, h);
  }

  // ----- steps and runs -----

  lemma ObtainEven(c: Config, s: State, vlan: u16, mac: Mac, ip: Ip, j: Ptr, k: Part, g: Gauge, h: Ptr)
    requires Shaped(s) && Even(s.mem, k, g, h) && NoDangling(s.mem) && j !in s.mem.hosts && g != Refs
    ensures var t := ObtainHost(c, s, vlan, mac, ip, j).0; Even(t.mem, k, g, h) && NoDangling(t.mem)
    ensures var t := ObtainStation(c, s, vlan, mac, j).0; Even(t.mem, k, g, h) && NoDangling(t.mem)
    ensures ObtainHost(c, s, vlan, mac, ip, j).0.mem.hosts.Keys <= s.mem.hosts.Keys + {j}
    ensures ObtainStation(c, s, vlan, mac, j).0.mem.hosts.Keys <= s.mem.hosts.Keys + {j}
    ensures ObtainHost(c, s, vlan, mac, ip, j).0.mem.flows == s.mem.flows
  {
    hide Even, Size, FindHost, FindStation;
    NewHostEven(s.mem, j, IpIdentity(c, vlan, mac, ip), s.now, k, g, h);
    NewHostEven(s.mem, j, MacIdentity(vlan, mac), s.now, k, g, h);
    NewDangles(s.mem, j, IpIdentity(c, vlan, mac, ip), s.now);
    NewDangles(s.mem, j, MacIdentity(vlan, mac), s.now);
  }

  lemma NewDangles(m: Mem, j: Ptr, id: Identity, now: nat)
    requires NoDangling(m) && j !in m.hosts
    ensures NoDangling(NewHost(m, j, id, now)) && NoDangling(DeleteHost(NewHost(m, j, id, now), j))
  {
  }

  lemma GetEven(c: Config, s: State, t: Tuple, first: nat, last: nat, a: Alloc, k: Part, g: Gauge, h: Ptr)
    requires Shaped(s) && Even(s.mem, k, g, h) && NoDangling(s.mem) && g != Refs
    requires a.flow !in s.mem.flows && a.src !in s.mem.hosts && a.dst !in s.mem.hosts && a.src != a.dst
    ensures Even(GetFlow(c, s, t, first, last, a).s.mem, k, g, h)
  {
    hide ObtainHost, JoinFlow, FindFlow, Forward, Even, NoDangling;
    ObtainEven(c, s, t.vlan, t.srcMac, t.src, a.src, k, g, h);
    var s1 := ObtainHost(c, s, t.vlan, t.srcMac, t.src, a.src).0;
    ObtainEven(c, s1, t.vlan, t.dstMac, t.dst, a.dst, k, g, h);
    var (s2, cli, srv) := FindFlowHosts(c, s, t, a);
    assert Even(s2.mem, k, g, h) && s2.mem.flows == s.mem.flows;
    JoinEven(c, s2, FreshFlow(t, cli, srv, first, last), a.flow, k, g, h);
  }

  lemma JoinEven(c: Config, s: State, f: Flow, p: Ptr, k: Part, g: Gauge, h: Ptr)
    requires Shaped(s) && Even(s.mem, k, g, h) && p !in s.mem.flows && Last(f) == NO_DUPLEX && g != Refs
    ensures Even(JoinFlow(c, s, f, p).s.mem, k, g, h)
  {
    hide Even, NewFlow, DeleteFlow, Size, FlowKey;
    NewFlowEven(s.mem, p, f, k, g, h);
    DeleteFlowEven(NewFlow(s.mem, p, f), p, k, g, h);
  }

  lemma CountTouches(got: Got, t: Tuple, len: nat, flags: bv8, into: Traffic, out: Traffic, last: nat, p: Ptr)
    requires p in got.s.mem.flows && got.flow == Some(p)
    ensures var n := CountPacket(got, t, len, flags).mem;
      && p in n.flows && Touched(got.s.mem.flows[p], n.flows[p])
      && n == got.s.mem.(flows := got.s.mem.flows[p := n.flows[p]])
    ensures var n := CountRecord(got, t, flags, into, out, last).mem;
      && p in n.flows && Touched(got.s.mem.flows[p], n.flows[p])
      && n == got.s.mem.(flows := got.s.mem.flows[p := n.flows[p]])
  {
    hide AddCount;
  }

  lemma CountEven(got: Got, t: Tuple, len: nat, flags: bv8, into: Traffic, out: Traffic, last: nat, k: Part,
      g: Gauge, h: Ptr)
    requires Shaped(got.s) && Even(got.s.mem, k, g, h)
    ensures Even(CountPacket(got, t, len, flags).mem, k, g, h)
    ensures Even(CountRecord(got, t, flags, into, out, last).mem, k, g, h)
    ensures Shaped(CountPacket(got, t, len, flags)) && Shaped(CountRecord(got, t, flags, into, out, last))
  {
    if got.flow.Some? && got.flow.value in got.s.mem.flows {
      var p := got.flow.value;
      CountTouches(got, t, len, flags, into, out, last, p);
      TouchEven(got.s.mem, p, CountPacket(got, t, len, flags).mem.flows[p], k, g, h);
      TouchEven(got.s.mem, p, CountRecord(got, t, flags, into, out, last).mem.flows[p], k, g, h);
    } else {
      SameGap(got.s.mem, CountPacket(got, t, len, flags).mem, k, g, h);
      SameGap(got.s.mem, CountRecord(got, t, flags, into, out, last).mem, k, g, h);
    }
    hide Even, Touched, FlowIncStats, AddFlowStats, WithFlags;
  }

  lemma PurgeEven(c: Config, s: State, when: nat, k: Part, g: Gauge, h: Ptr)
    requires Shaped(s) && Even(s.mem, k, g, h)
    ensures Even(PurgeIdle(c, s, when).mem, k, g, h)
  {
    hide Sweep, Swept, Even;
    if c.purge {
      var s1 := s.(now := when);
      var s2 := PurgeFlows(c, s1);
      DeleteFlowsEven(s1.mem, Swept(s1.ftab, IdleFlows(c, s1)), k, g, h);
      assert Even(s2.mem, k, g, h);
      DeleteHostsEven(s2.mem, Swept(s2.htab, IdleHosts(c, s2)), k, g, h);
    }
  }

  lemma Layer2Even(c: Config, s: State, e: Event, k: Part, g: Gauge, h: Ptr)
    requires Shaped(s) && Even(s.mem, k, g, h) && NoDangling(s.mem) && Fresh(s, e) && g != Refs && e.Layer2?
    ensures Even(Step(c, s, e).mem, k, g, h)
  {
    hide Even, PurgeIdle, NoDangling, ObtainStation, DirectCredit;
    var s0 := s.(now := e.ts);
    var (s1, src) := ObtainStation(c, s0, e.vlan, e.srcMac, e.a.src);
    var (s2, dst) := ObtainStation(c, s1, e.vlan, e.dstMac, e.a.dst);
    var d1, d2 := Duplex(Traffic(1, e.len), NO_TRAFFIC), Duplex(NO_TRAFFIC, Traffic(1, e.len));
    ObtainEven(c, s0, e.vlan, e.srcMac, ZERO_IP, e.a.src, k, g, h);
    ObtainEven(c, s1, e.vlan, e.dstMac, ZERO_IP, e.a.dst, k, g, h);
    var m1 := DirectCredit(s2.mem, src, d1, e.ts);
    DirectEven(s2.mem, src, d1, e.ts, k, g, h);
    DirectEven(m1, dst, d2, e.ts, k, g, h);
    PurgeEven(c, s2.(mem := DirectCredit(m1, dst, d2, e.ts)), e.ts, k, g, h);
  }

  lemma StepEven(c: Config, s: State, e: Event, k: Part, g: Gauge, h: Ptr)
    requires Shaped(s) && Even(s.mem, k, g, h) && NoDangling(s.mem) && Fresh(s, e) && g != Refs
    ensures Even(Step(c, s, e).mem, k, g, h)
  {
    hide Even, PurgeIdle, NoDangling, GetFlow, CountPacket, CountRecord, ObtainStation, DeleteFlows, DeleteHosts;
    match e {
      case Packet(ts, t, len, flags, a) =>
        GetEven(c, s.(now := ts), t, ts, ts, a, k, g, h);
        var got := GetFlow(c, s.(now := ts), t, ts, ts, a);
        CountEven(got, t, len, flags, NO_TRAFFIC, NO_TRAFFIC, ts, k, g, h);
        PurgeEven(c, CountPacket(got, t, len, flags), ts, k, g, h);
      case Record(first, last, t, flags, into, out, a) =>
        var s0 := s.(now := if last > s.now then last else s.now);
        GetEven(c, s0, t, first, last, a, k, g, h);
        var got := GetFlow(c, s0, t, first, last, a);
        CountEven(got, t, 0, flags, into, out, last, k, g, h);
        PurgeEven(c, CountRecord(got, t, flags, into, out, last), last, k, g, h);
      case Layer2(_, _, _, _, _, _) => Layer2Even(c, s, e, k, g, h);
      case Other(ts) => PurgeEven(c, s.(now := ts), ts, k, g, h);
      case Skipped(_) =>
      case Poll(when) => PurgeEven(c, s, when, k, g, h);
      case Housekeeping => UpdateAllEven(c, s.now, s.mem, Flatten(s.ftab.buckets), k, g, h);
      case Cleanup =>
        DeleteFlowsEven(s.mem, Flatten(s.ftab.buckets), k, g, h);
        DeleteHostsEven(DeleteFlows(s.mem, Flatten(s.ftab.buckets)), Flatten(s.htab.buckets), k, g, h);
    }
  }

  lemma {:induction false} RunEven(c: Config, s: State, es: seq<Event>, k: Part, g: Gauge, h: Ptr)
    requires Good(c, s, false) && Feasible(c, s, es) && Manageable(c, s, es) && g != Refs && Even(s.mem, k, g, h)
    ensures Even(Run(c, s, es).mem, k, g, h)
    decreases |es|
  {
    hide Good, Step, Uncrowded, Even, Fresh;
    if es != [] {
      StepGood(c, s, es[0], false);
      GoodRefs(c, s, false);
      StepEven(c, s, es[0], k, g, h);
      RunEven(c, Step(c, s, es[0]), es[1..], k, g, h);
    }
  }

  /** In every reachable state each of a host's protocol counters is what the last snapshots of its present
      and past flows of that protocol add up to, less what updates of such flows dropped, mod 2^64. */
  lemma ReachableParts(c: Config, es: seq<Event>, k: Part, g: Gauge, h: Ptr)
    requires c.flowBuckets > 0 && c.hostBuckets > 0
    requires Feasible(c, Initial(c), es) && Manageable(c, Initial(c), es)
    requires g != Refs && h in Run(c, Initial(c), es).mem.hosts
    ensures var m := Run(c, Initial(c), es).mem;
      (Read(g, PartOf(m.hosts[h].stats, k)) - Total(Only(m.flows, k), g, h) - BookedOnly(m.log, k, g, h)) % TWO_64 == 0
  {
    hide Run, Feasible, Manageable, Read, Total, BookedOnly, Safe, Unique;
    InitialGood(c);
    RunEven(c, Initial(c), es, k, g, h);
  }
}
