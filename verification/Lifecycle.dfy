/** The steps of one network interface (ntopng/NetworkInterface.cpp) over its flow and host tables
    and the memory their entries live in. The clock, decoded packets and the addresses that the
    allocator returns are inputs. */
module Lifecycle {
  import opened Addresses
  import opened HashTable
  import opened Memory

  const MAX_TCP_FLOW_IDLE: nat := 3
  const FLOW_PURGE_FREQUENCY: nat := 1
  const HOST_PURGE_FREQUENCY: nat := 1

  datatype Stickiness = NotSticky | LocalSticky | RemoteSticky | AllSticky

  /** Preferences, fixed for a run. */
  datatype Config = Config(
    purge: bool, maxFlows: nat, maxHosts: nat, flowBuckets: nat, hostBuckets: nat,
    flowMaxIdle: u16, localMaxIdle: u16, remoteMaxIdle: u16, stickiness: Stickiness,
    isLocal: Ip -> bool, isSystem: Ip -> bool)

  datatype State = State(mem: Mem, ftab: Table<Ptr>, htab: Table<Ptr>, now: nat, nextFlow: nat, nextHost: nat)

  /** A decoded packet's or flow record's addresses, from its source to its destination. */
  datatype Tuple = Tuple(
    vlan: u16, proto: u8, srcMac: Mac, src: Ip, srcPort: u16, dstMac: Mac, dst: Ip, dstPort: u16)

  /** Addresses for the objects that a step may have to allocate. */
  datatype Alloc = Alloc(flow: Ptr, src: Ptr, dst: Ptr)

  /** Other is a packet that is not counted but followed by a purge; of a skipped one only the time is
      noted. */
  datatype Event =
    | Packet(ts: nat, t: Tuple, len: nat, flags: bv8, a: Alloc)
    | Record(first: nat, last: nat, t: Tuple, flags: bv8, into: Traffic, out: Traffic, a: Alloc)
    | Layer2(ts: nat, vlan: u16, srcMac: Mac, dstMac: Mac, len: nat, a: Alloc)
    | Other(ts: nat)
    | Skipped(ts: nat)
    | Poll(when: nat)
    | Housekeeping
    | Cleanup

  // ----- idleness -----

  /** GenericHashEntry::isIdle; the clock is cut to 32 bits. will_be_purged is never set. */
  predicate IsIdle(now: nat, lastSeen: nat, maxIdleness: nat) {
    now % TWO_32 > lastSeen + maxIdleness
  }

  predicate FlowIdle(c: Config, now: nat, f: Flow) {
    var ended := f.proto == IPPROTO_TCP && (f.tcpFlags & TH_FIN != 0 || f.tcpFlags & TH_RST != 0);
    c.purge && ((ended && IsIdle(now, f.lastSeen, MAX_TCP_FLOW_IDLE)) || IsIdle(now, f.lastSeen, c.flowMaxIdle))
  }

  predicate Pinned(c: Config, id: Identity) {
    match c.stickiness
    case NotSticky => false
    case LocalSticky => id.local || id.system
    case RemoteSticky => !(id.local || id.system)
    case AllSticky => true
  }

  predicate HostIdle(c: Config, now: nat, h: Host) {
    h.uses == 0 && c.purge && !Pinned(c, h.id)
    && IsIdle(now, h.lastSeen, if h.id.local then c.localMaxIdle else c.remoteMaxIdle)
  }

  predicate FlowLive(c: Config, s: State, p: Ptr) {
    p in s.mem.flows && !FlowIdle(c, s.now, s.mem.flows[p])
  }

  predicate HostLive(c: Config, s: State, h: Ptr) {
    h in s.mem.hosts && !HostIdle(c, s.now, s.mem.hosts[h])
  }

  // ----- lookups -----

  /** Host::equal through a pointer that may be null. */
  predicate HostIs(hosts: map<Ptr, Host>, p: Option<Ptr>, ip: Ip) {
    p.Some? && p.value in hosts && hosts[p.value].id.ip.Some? && Same(hosts[p.value].id.ip.value, ip)
  }

  /** The flow's client is the tuple's source. */
  predicate Forward(hosts: map<Ptr, Host>, f: Flow, t: Tuple) {
    && t.vlan == f.vlan && t.proto == f.proto
    && HostIs(hosts, f.cli, t.src) && HostIs(hosts, f.srv, t.dst) && t.srcPort == f.cliPort && t.dstPort == f.srvPort
  }

  /** The flow's server is the tuple's source. */
  predicate Backward(hosts: map<Ptr, Host>, f: Flow, t: Tuple) {
    && t.vlan == f.vlan && t.proto == f.proto
    && HostIs(hosts, f.srv, t.src) && HostIs(hosts, f.cli, t.dst) && t.dstPort == f.cliPort && t.srcPort == f.srvPort
  }

  /** Flow::equal. */
  predicate Matches(hosts: map<Ptr, Host>, f: Flow, t: Tuple) {
    Forward(hosts, f, t) || Backward(hosts, f, t)
  }

  function LookupHash(t: Tuple): u32 {
    (Key(t.src) + Key(t.dst) + t.srcPort + t.dstPort + t.vlan + t.proto) % TWO_32
  }

  /** Ports, VLAN, protocol and both addresses count for the hash, the same in both directions. */
  lemma HashDepends(t: Tuple, v: u16, p: u8)
    ensures LookupHash(t.(vlan := v)) == LookupHash(t) <==> v == t.vlan
    ensures LookupHash(t.(srcPort := v)) == LookupHash(t) <==> v == t.srcPort
    ensures LookupHash(t.(proto := p)) == LookupHash(t) <==> p == t.proto
    ensures LookupHash(Tuple(t.vlan, t.proto, t.dstMac, t.dst, t.dstPort, t.srcMac, t.src, t.srcPort)) == LookupHash(t)
  {
    hide Key;
    var all := Key(t.src) + Key(t.dst) + t.srcPort + t.dstPort + t.vlan + t.proto;
    SumDepends(v, t.vlan, all - t.vlan);
    SumDepends(v, t.srcPort, all - t.srcPort);
    SumDepends(p, t.proto, all - t.proto);
  }

  function FlowAccepts(c: Config, now: nat, m: Mem, t: Tuple): Ptr -> bool {
    (p: Ptr) => p in m.flows && !FlowIdle(c, now, m.flows[p]) && Matches(m.hosts, m.flows[p], t)
  }

  predicate IsHost(c: Config, s: State, h: Ptr, vlan: u16, ip: Ip) {
    HostLive(c, s, h) && s.mem.hosts[h].id.vlan == vlan && HostIs(s.mem.hosts, Some(h), ip)
  }

  predicate IsStation(c: Config, s: State, h: Ptr, vlan: u16, mac: Mac) {
    HostLive(c, s, h) && s.mem.hosts[h].id.ip.None? && s.mem.hosts[h].id.vlan == vlan && s.mem.hosts[h].id.mac == mac
  }

  function HostAccepts(c: Config, now: nat, m: Mem, vlan: u16, ip: Ip): Ptr -> bool {
    (h: Ptr) =>
      h in m.hosts && !HostIdle(c, now, m.hosts[h]) && m.hosts[h].id.vlan == vlan && HostIs(m.hosts, Some(h), ip)
  }

  function StationAccepts(c: Config, now: nat, m: Mem, vlan: u16, mac: Mac): Ptr -> bool {
    (h: Ptr) =>
      && h in m.hosts && !HostIdle(c, now, m.hosts[h])
      && m.hosts[h].id.ip.None? && m.hosts[h].id.vlan == vlan && m.hosts[h].id.mac == mac
  }

  predicate Shaped(s: State) {
    WellFormed(s.ftab) && WellFormed(s.htab)
  }

  /** FlowHash::find. */
  function FindFlow(c: Config, s: State, t: Tuple): Found<Ptr>
    requires Shaped(s)
  {
    FirstMatch(s.ftab.buckets[LookupHash(t) % |s.ftab.buckets|], FlowAccepts(c, s.now, s.mem, t))
  }

  /** HostHash::get by address. */
  function FindHost(c: Config, s: State, vlan: u16, ip: Ip): Found<Ptr>
    requires Shaped(s)
  {
    FirstMatch(s.htab.buckets[Key(ip) % |s.htab.buckets|], HostAccepts(c, s.now, s.mem, vlan, ip))
  }

  /** HostHash::get by MAC address. */
  function FindStation(c: Config, s: State, vlan: u16, mac: Mac): Found<Ptr>
    requires Shaped(s)
  {
    FirstMatch(s.htab.buckets[MacKey(mac) % |s.htab.buckets|], StationAccepts(c, s.now, s.mem, vlan, mac))
  }

  // ----- steps -----

  function IpIdentity(c: Config, vlan: u16, mac: Mac, ip: Ip): Identity {
    Identity(vlan, Some(ip), mac, c.isLocal(ip), c.isSystem(ip))
  }

  function MacIdentity(vlan: u16, mac: Mac): Identity {
    Identity(vlan, None, mac, true, false)
  }

  function InsertHost(s: State, h: Ptr, id: Identity): State
    requires Shaped(s)
  {
    s.(mem := NewHost(s.mem, h, id, s.now), htab := Insert(s.htab, HostKey(id) % |s.htab.buckets|, h))
  }

  /** One half of findFlowHosts: the live host with this address, or a new one at address h, or
      none if the table is full. */
  function ObtainHost(c: Config, s: State, vlan: u16, mac: Mac, ip: Ip, h: Ptr): (r: (State, Option<Ptr>))
    requires Shaped(s)
    ensures Shaped(r.0)
  {
    match FindHost(c, s, vlan, ip)
    case Found(k) => (s, Some(k))
    case NotFound =>
      var id := IpIdentity(c, vlan, mac, ip);
      if Size(s.htab.buckets) < c.maxHosts then (InsertHost(s, h, id), Some(h))
      else (s.(mem := DeleteHost(NewHost(s.mem, h, id, s.now), h)), None)
  }

  /** findHostByMac, which does not look at the outcome of the insertion. */
  function ObtainStation(c: Config, s: State, vlan: u16, mac: Mac, h: Ptr): (r: (State, Ptr))
    requires Shaped(s)
    ensures Shaped(r.0)
  {
    match FindStation(c, s, vlan, mac)
    case Found(k) => (s, k)
    case NotFound =>
      var id := MacIdentity(vlan, mac);
      (if Size(s.htab.buckets) < c.maxHosts then InsertHost(s, h, id) else s.(mem := NewHost(s.mem, h, id, s.now)), h)
  }

  function FindFlowHosts(c: Config, s: State, t: Tuple, a: Alloc): (r: (State, Option<Ptr>, Option<Ptr>))
    requires Shaped(s)
    ensures Shaped(r.0)
  {
    var (s1, cli) := ObtainHost(c, s, t.vlan, t.srcMac, t.src, a.src);
    if cli.None? then (s1, None, None)
    else
      var (s2, srv) := ObtainHost(c, s1, t.vlan, t.dstMac, t.dst, a.dst);
      (s2, cli, srv)
  }

  function FreshFlow(t: Tuple, cli: Option<Ptr>, srv: Option<Ptr>, first: nat, last: nat): Flow {
    Flow(cli, srv, t.srcPort, t.dstPort, t.vlan, t.proto, 0, first, last, NO_TRAFFIC, NO_TRAFFIC, NO_TRAFFIC,
      NO_TRAFFIC)
  }

  datatype Got = Got(s: State, flow: Option<Ptr>, src2dst: bool, isNew: bool)

  /** getFlow: the live flow that matches in either direction, or a new one at address a.flow. */
  function GetFlow(c: Config, s: State, t: Tuple, first: nat, last: nat, a: Alloc): (r: Got)
    requires Shaped(s)
    ensures Shaped(r.s)
  {
    match FindFlow(c, s, t)
    case Found(p) =>
      Got(s, Some(p), p in s.mem.flows && Forward(s.mem.hosts, s.mem.flows[p], t), false)
    case NotFound =>
      var (s1, cli, srv) := FindFlowHosts(c, s, t, a);
      JoinFlow(c, s1, FreshFlow(t, cli, srv, first, last), a.flow)
  }

  /** The rest of getFlow: the flow takes its references and is inserted, or freed again. */
  function JoinFlow(c: Config, s: State, f: Flow, p: Ptr): (r: Got)
    requires Shaped(s)
    ensures Shaped(r.s)
  {
    var m := NewFlow(s.mem, p, f);
    if Size(s.ftab.buckets) < c.maxFlows then
      Got(s.(mem := m, ftab := Insert(s.ftab, FlowKey(m.hosts, f) % |s.ftab.buckets|, p)), Some(p), true, true)
    else
      Got(s.(mem := DeleteFlow(m, p)), None, true, true)
  }

  function IdleFlowsOf(c: Config, now: nat, m: Mem): Ptr -> bool {
    (p: Ptr) => p in m.flows && FlowIdle(c, now, m.flows[p])
  }

  function IdleHostsOf(c: Config, now: nat, m: Mem): Ptr -> bool {
    (h: Ptr) => h in m.hosts && HostIdle(c, now, m.hosts[h])
  }

  function IdleFlows(c: Config, s: State): Ptr -> bool { IdleFlowsOf(c, s.now, s.mem) }

  function IdleHosts(c: Config, s: State): Ptr -> bool { IdleHostsOf(c, s.now, s.mem) }

  function SweepFlows(c: Config, s: State): (r: State)
    requires Shaped(s)
    ensures Shaped(r)
  {
    s.(ftab := Sweep(s.ftab, IdleFlows(c, s)), mem := DeleteFlows(s.mem, Swept(s.ftab, IdleFlows(c, s))))
  }

  function SweepHosts(c: Config, s: State): (r: State)
    requires Shaped(s)
    ensures Shaped(r)
  {
    s.(htab := Sweep(s.htab, IdleHosts(c, s)), mem := DeleteHosts(s.mem, Swept(s.htab, IdleHosts(c, s))))
  }

  function PurgeFlows(c: Config, s: State): (r: State)
    requires Shaped(s)
    ensures Shaped(r)
  {
    if s.nextFlow == 0 then s.(nextFlow := s.now + FLOW_PURGE_FREQUENCY)
    else if s.now < s.nextFlow then s
    else SweepFlows(c, s).(nextFlow := s.now + FLOW_PURGE_FREQUENCY)
  }

  function PurgeHosts(c: Config, s: State): (r: State)
    requires Shaped(s)
    ensures Shaped(r)
  {
    if s.nextHost == 0 then s.(nextHost := s.now + HOST_PURGE_FREQUENCY)
    else if s.now < s.nextHost then s
    else SweepHosts(c, s).(nextHost := s.now + HOST_PURGE_FREQUENCY)
  }

  /** purgeIdle also sets the clock. */
  function PurgeIdle(c: Config, s: State, when: nat): (r: State)
    requires Shaped(s)
    ensures Shaped(r)
  {
    if !c.purge then s else PurgeHosts(c, PurgeFlows(c, s.(now := when)))
  }

  function Touch(s: State, p: Ptr, f: Flow): State {
    s.(mem := s.mem.(flows := s.mem.flows[p := f]))
  }

  function WithFlags(f: Flow, t: Tuple, flags: bv8): Flow {
    if t.proto == IPPROTO_TCP then UpdateTcpFlags(f, flags) else f
  }

  function CountPacket(g: Got, t: Tuple, len: nat, flags: bv8): State {
    match g.flow
    case Some(p) =>
      if p !in g.s.mem.flows then g.s.(mem := g.s.mem.(fault := true))
      else Touch(g.s, p, WithFlags(FlowIncStats(g.s.mem.flows[p], g.src2dst, len, g.s.now), t, flags))
    case None => g.s
  }

  function CountRecord(g: Got, t: Tuple, flags: bv8, into: Traffic, out: Traffic, last: nat): State {
    match g.flow
    case Some(p) =>
      if p !in g.s.mem.flows then g.s.(mem := g.s.mem.(fault := true))
      else Touch(g.s, p, AddFlowStats(WithFlags(g.s.mem.flows[p], t, flags), g.src2dst, into, out, last))
    case None => g.s
  }

  function UpdateAll(c: Config, now: nat, m: Mem, ps: seq<Ptr>): Mem
    decreases |ps|
  {
    if ps == [] then m
    else
      var n := if ps[0] in m.flows && FlowIdle(c, now, m.flows[ps[0]]) then m else UpdateHostsStats(m, ps[0], now);
      UpdateAll(c, now, n, ps[1..])
  }

  /** updateHostStats: walks the flow table, skipping idle flows. */
  function UpdateHostStats(c: Config, s: State): State {
    s.(mem := UpdateAll(c, s.now, s.mem, Flatten(s.ftab.buckets)))
  }

  /** cleanup: clock and purge times restart, then all flows go, then all hosts. */
  function CleanupAll(s: State): (r: State)
    requires Shaped(s)
    ensures Shaped(r)
  {
    var m := DeleteHosts(DeleteFlows(s.mem, Flatten(s.ftab.buckets)), Flatten(s.htab.buckets));
    State(m, Emptied(s.ftab), Emptied(s.htab), 0, 0, 0)
  }

  function Step(c: Config, s: State, e: Event): (r: State)
    requires Shaped(s)
    ensures Shaped(r)
  {
    match e
    case Packet(ts, t, len, flags, a) =>
      var g := GetFlow(c, s.(now := ts), t, ts, ts, a);
      PurgeIdle(c, CountPacket(g, t, len, flags), ts)
    case Record(first, last, t, flags, into, out, a) =>
      var g := GetFlow(c, s.(now := if last > s.now then last else s.now), t, first, last, a);
      if g.flow.None? then g.s
      else PurgeIdle(c, CountRecord(g, t, flags, into, out, last), last)
    case Layer2(ts, vlan, srcMac, dstMac, len, a) =>
      var (s1, src) := ObtainStation(c, s.(now := ts), vlan, srcMac, a.src);
      var (s2, dst) := ObtainStation(c, s1, vlan, dstMac, a.dst);
      var m1 := DirectCredit(s2.mem, src, Duplex(Traffic(1, len), NO_TRAFFIC), ts);
      var m2 := DirectCredit(m1, dst, Duplex(NO_TRAFFIC, Traffic(1, len)), ts);
      PurgeIdle(c, s2.(mem := m2), ts)
    case Other(ts) => PurgeIdle(c, s.(now := ts), ts)
    case Skipped(ts) => s.(now := ts)
    case Poll(when) => PurgeIdle(c, s, when)
    case Housekeeping => UpdateHostStats(c, s)
    case Cleanup => CleanupAll(s)
  }

  function Run(c: Config, s: State, es: seq<Event>): (r: State)
    requires Shaped(s)
    ensures Shaped(r)
    decreases |es|
  {
    if es == [] then s else Run(c, Step(c, s, es[0]), es[1..])
  }

  function Initial(c: Config): (s: State)
    requires c.flowBuckets > 0 && c.hostBuckets > 0
    ensures Shaped(s)
  {
    State(Mem(map[], map[], false, false, []),
      Table(seq(c.flowBuckets, i => []), c.flowBuckets - 1),
      Table(seq(c.hostBuckets, i => []), c.hostBuckets - 1), 0, 0, 0)
  }

  /** The allocator hands out addresses that no object has. */
  predicate Fresh(s: State, e: Event) {
    (e.Packet? || e.Record? || e.Layer2?) ==>
      e.a.flow !in s.mem.flows && e.a.src !in s.mem.hosts && e.a.dst !in s.mem.hosts && e.a.src != e.a.dst
  }

  /** The event's time, if it has one, does not move the clock back and fits in 32 bits. */
  predicate Timely(s: State, e: Event) {
    match e
    case Packet(ts, _, _, _, _) => s.now <= ts < TWO_32
    case Record(_, last, _, _, _, _, _) => s.now <= last < TWO_32
    case Layer2(ts, _, _, _, _, _) => s.now <= ts < TWO_32
    case Other(ts) => s.now <= ts < TWO_32
    case Skipped(ts) => s.now <= ts < TWO_32
    case Poll(when) => s.now <= when < TWO_32
    case _ => true
  }

  predicate Feasible(c: Config, s: State, es: seq<Event>)
    requires Shaped(s)
    decreases |es|
  {
    es == [] || (Fresh(s, es[0]) && Feasible(c, Step(c, s, es[0]), es[1..]))
  }

  predicate InOrder(c: Config, s: State, es: seq<Event>)
    requires Shaped(s)
    decreases |es|
  {
    es == [] || (Timely(s, es[0]) && InOrder(c, Step(c, s, es[0]), es[1..]))
  }
}
