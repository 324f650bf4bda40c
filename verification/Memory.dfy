/** The flow and host objects of one interface in an explicit memory: a map from address to
    object, so that freeing an object and following a pointer to a freed one can be told apart. */
module Memory {
  import opened Addresses

  type Ptr = nat
  type Mac = m: seq<u8> | |m| == 6 witness [0, 0, 0, 0, 0, 0]

  const IPPROTO_ICMP: u8 := 1
  const IPPROTO_TCP: u8 := 6
  const IPPROTO_UDP: u8 := 17
  const TH_FIN: bv8 := 0x01
  const TH_RST: bv8 := 0x04

  // ----- objects -----

  datatype Traffic = Traffic(pkts: nat, bytes: nat)
  datatype Duplex = Duplex(sent: Traffic, rcvd: Traffic)

  const NO_TRAFFIC := Traffic(0, 0)
  const NO_DUPLEX := Duplex(NO_TRAFFIC, NO_TRAFFIC)

  datatype Stats = Stats(all: Duplex, tcp: Duplex, udp: Duplex, icmp: Duplex, other: Duplex)

  const NO_STATS := Stats(NO_DUPLEX, NO_DUPLEX, NO_DUPLEX, NO_DUPLEX, NO_DUPLEX)

  /** The fields of a host that never change. A host without ip is a layer 2 host. */
  datatype Identity = Identity(vlan: u16, ip: Option<Ip>, mac: Mac, local: bool, system: bool)

  datatype Host = Host(id: Identity, uses: u16, firstSeen: nat, lastSeen: nat, stats: Stats)

  datatype Flow = Flow(
    cli: Option<Ptr>, srv: Option<Ptr>, cliPort: u16, srvPort: u16, vlan: u16, proto: u8,
    tcpFlags: bv8, firstSeen: nat, lastSeen: nat,
    c2s: Traffic, s2c: Traffic, c2sLast: Traffic, s2cLast: Traffic)

  /** What happened to traffic, for stating conservation; the program keeps no such record. */
  datatype Entry =
    | Born(host: Ptr)
    | Retired(flow: Flow)
    | Dropped(flow: Flow)
    | Direct(host: Ptr, credit: Duplex)
    | Credited(host: Ptr, proto: u8, credit: Duplex)

  /** fault is set by following or freeing a pointer to freed memory, warned by the branch of the
      host destructor that reports an internal error. */
  datatype Mem = Mem(flows: map<Ptr, Flow>, hosts: map<Ptr, Host>, fault: bool, warned: bool, log: seq<Entry>)

  function MacKey(m: Mac): nat {
    var b := (i: nat) requires i < 6 => m[i] as int;
    2 * b(0) + 4 * b(1) + 8 * b(2) + 16 * b(3) + 32 * b(4) + 64 * b(5)
  }

  /** Each byte of a MAC address counts twice as much as the one before it. */
  lemma MacKeyDepends(m: Mac, i: nat, b: u8)
    requires i < 6
    ensures MacKey(m[i := b]) - MacKey(m) == [2, 4, 8, 16, 32, 64][i] * (b - m[i])
  {
  }

  function HostKey(id: Identity): u32 {
    match id.ip case Some(ip) => Key(ip) case None => MacKey(id.mac)
  }

  function KeyAt(hosts: map<Ptr, Host>, p: Option<Ptr>): u32 {
    match p case Some(h) => if h in hosts then HostKey(hosts[h].id) else 0 case None => 0
  }

  /** Flow::key. */
  function FlowKey(hosts: map<Ptr, Host>, f: Flow): u32 {
    (f.cliPort + f.srvPort + f.vlan + f.proto + KeyAt(hosts, f.cli) + KeyAt(hosts, f.srv)) % TWO_32
  }

  // ----- counters -----

  function Add64(a: Traffic, b: Traffic): Traffic {
    Traffic((a.pkts + b.pkts) % TWO_64, (a.bytes + b.bytes) % TWO_64)
  }

  function AddDuplex(a: Duplex, b: Duplex): Duplex {
    Duplex(Add64(a.sent, b.sent), Add64(a.rcvd, b.rcvd))
  }

  /** Unsigned 64-bit difference. */
  function Diff64(now: Traffic, last: Traffic): Traffic {
    Traffic((now.pkts - last.pkts) % TWO_64, (now.bytes - last.bytes) % TWO_64)
  }

  /** Flow counters: 32 bits of packets, 64 bits of bytes. */
  function AddCount(a: Traffic, b: Traffic): Traffic {
    Traffic((a.pkts + b.pkts) % TWO_32, (a.bytes + b.bytes) % TWO_64)
  }

  function UpdateSeen(f: Flow, when: nat): Flow {
    f.(lastSeen := when, firstSeen := if f.firstSeen == 0 then when else f.firstSeen)
  }

  /** Flow::incStats: one packet. A flow that lacks a host only has its times updated. */
  function FlowIncStats(f: Flow, c2s: bool, len: nat, now: nat): Flow {
    var g := UpdateSeen(f, now);
    if g.cli.None? || g.srv.None? then g
    else if c2s then g.(c2s := AddCount(g.c2s, Traffic(1, len)))
    else g.(s2c := AddCount(g.s2c, Traffic(1, len)))
  }

  /** Flow::addFlowStats: a flow record; `into` is the traffic of the record's source. */
  function AddFlowStats(f: Flow, c2s: bool, into: Traffic, out: Traffic, when: nat): Flow {
    var g := UpdateSeen(f, when);
    if c2s then g.(c2s := AddCount(g.c2s, into), s2c := AddCount(g.s2c, out))
    else g.(c2s := AddCount(g.c2s, out), s2c := AddCount(g.s2c, into))
  }

  function UpdateTcpFlags(f: Flow, flags: bv8): Flow {
    f.(tcpFlags := f.tcpFlags | flags)
  }

  /** Credits count only if some packet moved. */
  predicate Counts(d: Duplex) { d.sent.pkts != 0 || d.rcvd.pkts != 0 }

  /** Host::incStats and GenericHost::incStats: nothing happens unless some packet moved. */
  function HostIncStats(h: Host, proto: u8, credit: Duplex, now: nat): Host {
    if !Counts(credit) then h
    else
      var s := h.stats;
      var t := s.(all := AddDuplex(s.all, credit));
      h.(lastSeen := now, firstSeen := if h.firstSeen == 0 then now else h.firstSeen,
         stats := if proto == 0 then t
                  else if proto == IPPROTO_UDP then t.(udp := AddDuplex(s.udp, credit))
                  else if proto == IPPROTO_TCP then t.(tcp := AddDuplex(s.tcp, credit))
                  else if proto == IPPROTO_ICMP then t.(icmp := AddDuplex(s.icmp, credit))
                  else t.(other := AddDuplex(s.other, credit)))
  }

  // ----- operations on memory -----

  function AddUses(m: Mem, p: Option<Ptr>, k: nat): Mem {
    match p
    case None => m
    case Some(h) =>
      if h !in m.hosts then m.(fault := true)
      else m.(hosts := m.hosts[h := m.hosts[h].(uses := (m.hosts[h].uses + k) % TWO_16)])
  }

  /** incUses, decUses on a host pointer that may be null; the counter has 16 bits. */
  function IncUses(m: Mem, p: Option<Ptr>): Mem { AddUses(m, p, 1) }
  function DecUses(m: Mem, p: Option<Ptr>): Mem { AddUses(m, p, TWO_16 - 1) }

  function NewHost(m: Mem, h: Ptr, id: Identity, now: nat): Mem {
    m.(hosts := m.hosts[h := Host(id, 0, now, now, NO_STATS)], log := m.log + [Born(h)])
  }

  /** The host destructor. */
  function DeleteHost(m: Mem, h: Ptr): Mem {
    if h !in m.hosts then m.(fault := true)
    else m.(hosts := m.hosts - {h}, warned := m.warned || m.hosts[h].uses > 0)
  }

  /** The flow constructor, once its hosts are known. */
  function NewFlow(m: Mem, p: Ptr, f: Flow): Mem {
    var n := IncUses(IncUses(m, f.cli), f.srv);
    n.(flows := n.flows[p := f])
  }

  /** The flow destructor. */
  function DeleteFlow(m: Mem, p: Ptr): Mem {
    if p !in m.flows then m.(fault := true)
    else
      var f := m.flows[p];
      var n := DecUses(DecUses(m, f.cli), f.srv);
      n.(flows := n.flows - {p}, log := n.log + [Retired(f)])
  }

  function DeleteFlows(m: Mem, ps: seq<Ptr>): Mem
    decreases |ps|
  {
    if ps == [] then m else DeleteFlows(DeleteFlow(m, ps[0]), ps[1..])
  }

  function DeleteHosts(m: Mem, hs: seq<Ptr>): Mem
    decreases |hs|
  {
    if hs == [] then m else DeleteHosts(DeleteHost(m, hs[0]), hs[1..])
  }

  function CreditHost(m: Mem, p: Option<Ptr>, proto: u8, credit: Duplex, now: nat): Mem {
    match p
    case None => m
    case Some(h) =>
      if h !in m.hosts then m.(fault := true)
      else m.(hosts := m.hosts[h := HostIncStats(m.hosts[h], proto, credit, now)],
              log := if Counts(credit) then m.log + [Credited(h, proto, credit)] else m.log)
  }

  /** A layer 2 packet: Host::incStats with the unknown protocol. */
  function DirectCredit(m: Mem, h: Ptr, credit: Duplex, now: nat): Mem {
    var n := CreditHost(m, Some(h), 0, credit, now);
    if Counts(credit) then n.(log := n.log + [Direct(h, credit)]) else n
  }

  /** What an update would pass on: the client's traffic since the last one, as sent and received. */
  function Pending(f: Flow): Duplex {
    Duplex(Diff64(f.c2s, f.c2sLast), Diff64(f.s2c, f.s2cLast))
  }

  function Flip(d: Duplex): Duplex { Duplex(d.rcvd, d.sent) }

  function Snapshot(f: Flow): Flow { f.(c2sLast := f.c2s, s2cLast := f.s2c) }

  /** The first half of an update, before the hosts are credited. */
  function TakeSnapshot(m: Mem, p: Ptr): Mem
    requires p in m.flows
  {
    var f := m.flows[p];
    m.(flows := m.flows[p := Snapshot(f)], log := if Counts(Pending(f)) then m.log else m.log + [Dropped(f)])
  }

  /** Flow::update_hosts_stats: takes the snapshot and credits both hosts with the difference. */
  function UpdateHostsStats(m: Mem, p: Ptr, now: nat): Mem {
    if p !in m.flows then m.(fault := true)
    else
      var f := m.flows[p];
      var d := Pending(f);
      CreditHost(CreditHost(TakeSnapshot(m, p), f.cli, f.proto, d, now), f.srv, f.proto, Flip(d), now)
  }

  // ----- sums over the flow objects -----

  /** What is summed: references, or one of the four traffic counters. */
  datatype Gauge = Refs | SentPkts | SentBytes | RcvdPkts | RcvdBytes

  function Read(g: Gauge, d: Duplex): int {
    match g
    case Refs => 1
    case SentPkts => d.sent.pkts
    case SentBytes => d.sent.bytes
    case RcvdPkts => d.rcvd.pkts
    case RcvdBytes => d.rcvd.bytes
  }

  /** The part of d that a flow gives to host h: in the client's direction for its client, in the
      opposite one for its server, both for a flow from a host to itself. */
  function Share(g: Gauge, f: Flow, d: Duplex, h: Ptr): int {
    (if f.cli == Some(h) then Read(g, d) else 0) + (if f.srv == Some(h) then Read(g, Flip(d)) else 0)
  }

  /** A flow's last snapshot. */
  function Last(f: Flow): Duplex { Duplex(f.c2sLast, f.s2cLast) }

  function Weight(g: Gauge, f: Flow, h: Ptr): int { Share(g, f, Last(f), h) }

  ghost function AnyOf(flows: map<Ptr, Flow>): (p: Ptr)
    requires flows != map[]
    ensures p in flows
  {
    var p :| p in flows; p
  }

  ghost function Total(flows: map<Ptr, Flow>, g: Gauge, h: Ptr): int
    decreases |flows|
  {
    if flows == map[] then 0
    else var p := AnyOf(flows); Weight(g, flows[p], h) + Total(flows - {p}, g, h)
  }

  lemma {:induction false} TotalRemove(flows: map<Ptr, Flow>, g: Gauge, h: Ptr, p: Ptr)
    requires p in flows
    ensures Total(flows, g, h) == Weight(g, flows[p], h) + Total(flows - {p}, g, h)
    decreases |flows|
  {
    var q := AnyOf(flows);
    if q != p {
      TotalRemove(flows - {q}, g, h, p);
      TotalRemove(flows - {p}, g, h, q);
      assert flows - {q} - {p} == flows - {p} - {q};
    }
  }

  lemma TotalPut(flows: map<Ptr, Flow>, g: Gauge, h: Ptr, p: Ptr, f: Flow)
    ensures Total(flows[p := f], g, h) ==
      Total(flows, g, h) + Weight(g, f, h) - (if p in flows then Weight(g, flows[p], h) else 0)
  {
    TotalRemove(flows[p := f], g, h, p);
    if p in flows {
      TotalRemove(flows, g, h, p);
      assert flows[p := f] - {p} == flows - {p};
    } else {
      assert flows[p := f] - {p} == flows;
    }
  }

  lemma {:induction false} TotalNone(flows: map<Ptr, Flow>, g: Gauge, h: Ptr)
    requires forall p :: p in flows ==> flows[p].cli != Some(h) && flows[p].srv != Some(h)
    ensures Total(flows, g, h) == 0
    decreases |flows|
  {
    if flows != map[] {
      TotalNone(flows - {AnyOf(flows)}, g, h);
    }
  }

  lemma {:induction false} RefsBounds(flows: map<Ptr, Flow>, h: Ptr)
    ensures 0 <= Total(flows, Refs, h) <= 2 * |flows|
    ensures Total(flows, Refs, h) == 0 ==> forall p :: p in flows ==> flows[p].cli != Some(h) && flows[p].srv != Some(h)
    decreases |flows|
  {
    if flows != map[] {
      var q := AnyOf(flows);
      RefsBounds(flows - {q}, h);
      assert forall p :: p in flows && p != q ==> p in flows - {q};
    }
  }

  /** Traffic the log accounts to the object now at address h, by last birth. */
  function Booked(log: seq<Entry>, g: Gauge, h: Ptr): int {
    if log == [] then 0 else
    var rest := Booked(log[..|log| - 1], g, h);
    match log[|log| - 1]
    case Born(k) => if k == h then 0 else rest
    case Retired(f) => rest + Weight(g, f, h)
    case Dropped(f) => rest - Share(g, f, Pending(f), h)
    case Direct(k, d) => if k == h then rest + Read(g, d) else rest
    case Credited(_, _, _) => rest
  }

  /** Credits whose protocol is unknown, which only the totals count. */
  function Unknown(log: seq<Entry>, g: Gauge, h: Ptr): int {
    if log == [] then 0 else
    var rest := Unknown(log[..|log| - 1], g, h);
    match log[|log| - 1]
    case Born(k) => if k == h then 0 else rest
    case Credited(k, proto, d) => if k == h && proto == 0 then rest + Read(g, d) else rest
    case _ => rest
  }

  // ----- invariants of the memory -----

  predicate RefersTo(f: Flow, h: Ptr) { f.cli == Some(h) || f.srv == Some(h) }

  /** No flow holds a pointer to a freed host. */
  ghost predicate NoDangling(m: Mem) {
    forall p, h :: p in m.flows && RefersTo(m.flows[p], h) ==> h in m.hosts
  }

  /** Each use counter is the number of references from flows, client and server, mod 2^16. */
  ghost predicate Counted(m: Mem) {
    forall h :: h in m.hosts ==> m.hosts[h].uses == Total(m.flows, Refs, h) % TWO_16
  }

  /** How far host h's counter is from what snapshots and log account for. */
  ghost function Balance(m: Mem, g: Gauge, h: Ptr): int
    requires h in m.hosts
  {
    Read(g, m.hosts[h].stats.all) - Total(m.flows, g, h) - Booked(m.log, g, h)
  }

  function Residue(s: Stats, g: Gauge): int {
    Read(g, s.all) - Read(g, s.tcp) - Read(g, s.udp) - Read(g, s.icmp) - Read(g, s.other)
  }

  /** What the per-protocol counters of host h leave of its total. */
  function Unsplit(m: Mem, g: Gauge, h: Ptr): int
    requires h in m.hosts
  {
    Residue(m.hosts[h].stats, g) - Unknown(m.log, g, h)
  }

  ghost predicate Conserved(m: Mem) {
    forall g: Gauge, h :: g != Refs && h in m.hosts ==> Balance(m, g, h) % TWO_64 == 0 && Unsplit(m, g, h) % TWO_64 == 0
  }

  ghost predicate Sound(m: Mem) {
    NoDangling(m) && Counted(m) && Conserved(m) && !m.fault
  }

  /** n has the same hosts as m, and each is still the same machine with the same traffic. */
  ghost predicate SameHosts(m: Mem, n: Mem) {
    && n.hosts.Keys == m.hosts.Keys
    && forall h :: h in m.hosts ==> n.hosts[h] == m.hosts[h].(uses := n.hosts[h].uses)
  }

  /** Only use counters differ. */
  ghost predicate SameButUses(m: Mem, n: Mem) {
    SameHosts(m, n) && n.flows == m.flows && n.fault == m.fault && n.warned == m.warned && n.log == m.log
  }

  lemma UsesOfOne(m: Mem, p: Option<Ptr>, k: nat)
    requires p.Some? ==> p.value in m.hosts
    ensures SameButUses(m, AddUses(m, p, k))
  {
  }

  lemma UsesOfOneAt(m: Mem, p: Option<Ptr>, k: nat, h: Ptr)
    requires (p.Some? ==> p.value in m.hosts) && h in m.hosts
    ensures h in AddUses(m, p, k).hosts
    ensures AddUses(m, p, k).hosts[h].uses == (m.hosts[h].uses + (if p == Some(h) then k else 0)) % TWO_16
  {
  }

  function Twice(f: Flow, h: Ptr, k: nat): nat {
    (if f.cli == Some(h) then k else 0) + (if f.srv == Some(h) then k else 0)
  }

  lemma UsesOfBothAt(m: Mem, f: Flow, k: nat, h: Ptr)
    requires (forall h :: RefersTo(f, h) ==> h in m.hosts) && h in m.hosts
    ensures var n := AddUses(AddUses(m, f.cli, k), f.srv, k);
      h in n.hosts && n.hosts[h].uses == (m.hosts[h].uses + Twice(f, h, k)) % TWO_16
  {
    assert f.cli.Some? ==> RefersTo(f, f.cli.value);
    assert f.srv.Some? ==> RefersTo(f, f.srv.value);
    hide AddUses, Twice, RefersTo;
    var n1 := AddUses(m, f.cli, k);
    UsesOfOneAt(m, f.cli, k, h);
    if f.srv.Some? {
      UsesOfOneAt(m, f.cli, k, f.srv.value);
    }
    UsesOfOneAt(n1, f.srv, k, h);
    UsesTwice(m.hosts[h].uses, f, h, k);
  }

  /** The effect of taking or releasing both references of a flow. */
  lemma UsesOfBoth(m: Mem, f: Flow, k: nat)
    requires forall h :: RefersTo(f, h) ==> h in m.hosts
    ensures var n := AddUses(AddUses(m, f.cli, k), f.srv, k);
      SameButUses(m, n) && forall h :: h in m.hosts ==> n.hosts[h].uses == (m.hosts[h].uses + Twice(f, h, k)) % TWO_16
  {
    assert f.cli.Some? ==> RefersTo(f, f.cli.value);
    assert f.srv.Some? ==> RefersTo(f, f.srv.value);
    hide AddUses, Twice, RefersTo;
    var n1 := AddUses(m, f.cli, k);
    var n := AddUses(n1, f.srv, k);
    UsesOfOne(m, f.cli, k);
    UsesOfOne(n1, f.srv, k);
    forall h | h in m.hosts ensures n.hosts[h].uses == (m.hosts[h].uses + Twice(f, h, k)) % TWO_16 {
      UsesOfBothAt(m, f, k, h);
    }
  }

  lemma UsesTwice(uses: nat, f: Flow, h: Ptr, k: nat)
    ensures ((uses + (if f.cli == Some(h) then k else 0)) % TWO_16 + (if f.srv == Some(h) then k else 0)) % TWO_16 ==
      (uses + Twice(f, h, k)) % TWO_16
  {
    ModAdd(uses + (if f.cli == Some(h) then k else 0), if f.srv == Some(h) then k else 0);
  }

  lemma ModAdd(a: nat, b: nat)
    ensures (a % TWO_16 + b) % TWO_16 == (a + b) % TWO_16
  {
  }

  lemma WeightOfFresh(f: Flow)
    requires Last(f) == NO_DUPLEX
    ensures forall g: Gauge, h :: g != Refs ==> Weight(g, f, h) == 0
    ensures forall h :: 0 <= Weight(Refs, f, h) <= 2 && Weight(Refs, f, h) == Twice(f, h, 1)
  {
  }

  /** A new flow whose counters are all zero takes its references and changes no account. */
  lemma NewFlowSound(m: Mem, p: Ptr, f: Flow)
    requires Sound(m) && p !in m.flows && Last(f) == NO_DUPLEX
    requires forall h :: RefersTo(f, h) ==> h in m.hosts
    ensures var n := NewFlow(m, p, f);
      Sound(n) && n.flows == m.flows[p := f] && SameHosts(m, n) && n.warned == m.warned && n.log == m.log
  {
    hide Booked, Unknown, Residue, AddUses, Weight, Read, Share, Twice;
    var n := NewFlow(m, p, f);
    WeightOfFresh(f);
    UsesOfBoth(m, f, 1);
    forall h | h in m.hosts ensures n.hosts[h].uses == Total(n.flows, Refs, h) % TWO_16 {
      TotalPut(m.flows, Refs, h, p, f);
      assert 0 <= Total(m.flows, Refs, h) by {
        RefsBounds(m.flows, h);
      }
      ModAdd(Total(m.flows, Refs, h), Weight(Refs, f, h));
    }
    forall g: Gauge, h | g != Refs && h in m.hosts ensures Balance(n, g, h) == Balance(m, g, h) {
      TotalPut(m.flows, g, h, p, f);
    }
    assert forall g: Gauge, h :: g != Refs && h in m.hosts ==> Unsplit(n, g, h) == Unsplit(m, g, h);
  }

  lemma RetireBalance(m: Mem, n: Mem, p: Ptr, g: Gauge, h: Ptr)
    requires p in m.flows && n.flows == m.flows - {p} && n.log == m.log + [Retired(m.flows[p])]
    requires h in m.hosts && h in n.hosts && n.hosts[h].stats == m.hosts[h].stats && g != Refs
    ensures Balance(n, g, h) == Balance(m, g, h) && Unsplit(n, g, h) == Unsplit(m, g, h)
  {
    hide Share, Read, Residue;
    assert n.log[..|n.log| - 1] == m.log;
    TotalRemove(m.flows, g, h, p);
  }

  lemma RetireCounts(m: Mem, n: Mem, p: Ptr, h: Ptr)
    requires p in m.flows && n.flows == m.flows - {p} && h in m.hosts && h in n.hosts
    requires m.hosts[h].uses == Total(m.flows, Refs, h) % TWO_16
    requires n.hosts[h].uses == (m.hosts[h].uses + Twice(m.flows[p], h, TWO_16 - 1)) % TWO_16
    ensures n.hosts[h].uses == Total(n.flows, Refs, h) % TWO_16
  {
    TotalRemove(m.flows, Refs, h, p);
    RefsBounds(n.flows, h);
    ReleaseCounts(Total(n.flows, Refs, h), Weight(Refs, m.flows[p], h));
  }

  /** Deleting a flow gives back exactly its references; its last snapshot stays accounted for. */
  lemma DeleteFlowSound(m: Mem, p: Ptr)
    requires Sound(m) && p in m.flows
    ensures var n := DeleteFlow(m, p);
      Sound(n) && n.flows == m.flows - {p} && SameHosts(m, n) && n.warned == m.warned
  {
    var n, f := DeleteFlow(m, p), m.flows[p];
    UsesOfBoth(m, f, TWO_16 - 1);
    hide AddUses, Balance, Unsplit, Twice, DeleteFlow, Total;
    forall h | h in m.hosts ensures n.hosts[h].uses == Total(n.flows, Refs, h) % TWO_16 {
      RetireCounts(m, n, p, h);
    }
    forall g: Gauge, h | g != Refs && h in m.hosts
      ensures Balance(n, g, h) == Balance(m, g, h) && Unsplit(n, g, h) == Unsplit(m, g, h)
    {
      RetireBalance(m, n, p, g, h);
    }
  }

  lemma ReleaseCounts(t: nat, w: nat)
    requires w <= 2
    ensures ((t + w) % TWO_16 + (TWO_16 - 1) * w) % TWO_16 == t % TWO_16
  {
    if w == 1 {
    } else if w == 2 {
    }
  }

  lemma NewHostSound(m: Mem, h: Ptr, id: Identity, now: nat)
    requires Sound(m) && h !in m.hosts
    ensures Sound(NewHost(m, h, id, now))
  {
    var n := NewHost(m, h, id, now);
    assert n.log[..|n.log| - 1] == m.log;
    forall g: Gauge, k | k in n.hosts
      ensures if k == h then Total(n.flows, g, k) == 0 && (g != Refs ==> Balance(n, g, k) == 0 && Unsplit(n, g, k) == 0)
              else Balance(n, g, k) == Balance(m, g, k) && Unsplit(n, g, k) == Unsplit(m, g, k)
    {
      if k == h {
        assert forall p :: p in m.flows ==> !RefersTo(m.flows[p], h);
        TotalNone(m.flows, g, h);
      }
    }
  }

  /** A host that no flow refers to can be freed; the destructor then has nothing to report. */
  lemma DeleteHostSound(m: Mem, h: Ptr)
    requires Sound(m) && h in m.hosts && Total(m.flows, Refs, h) == 0
    ensures var n := DeleteHost(m, h);
      Sound(n) && n.flows == m.flows && n.hosts == m.hosts - {h} && n.warned == m.warned && n.log == m.log
  {
    var n := DeleteHost(m, h);
    RefsBounds(m.flows, h);
    forall g: Gauge, k | g != Refs && k in n.hosts
      ensures Balance(n, g, k) == Balance(m, g, k) && Unsplit(n, g, k) == Unsplit(m, g, k)
    {
    }
  }

  /** A host that is freed while its counter shows references is reported, and only then. */
  lemma DeleteHostWarns(m: Mem, h: Ptr)
    requires Counted(m) && h in m.hosts && !m.warned
    ensures DeleteHost(m, h).warned <==> Total(m.flows, Refs, h) % 0x1_0000 != 0
  {
  }

  /** Freeing what is not there, or following a flow's pointer to a freed host, is a fault. */
  lemma DanglingFaults(m: Mem, p: Ptr, h: Ptr, now: nat)
    requires p in m.flows && RefersTo(m.flows[p], h) && h !in m.hosts
    ensures DeleteFlow(m, p).fault && UpdateHostsStats(m, p, now).fault && DeleteHost(m, h).fault
  {
    var f := m.flows[p];
    if f.cli != Some(h) {
      UsesKeys(m, f.cli, TWO_16 - 1);
      var n := TakeSnapshot(m, p);
      CreditKeys(n, f.cli, f.proto, Pending(f), now);
    }
  }

  lemma UsesKeys(m: Mem, p: Option<Ptr>, k: nat)
    ensures AddUses(m, p, k).hosts.Keys == m.hosts.Keys && (m.fault ==> AddUses(m, p, k).fault)
  {
  }

  lemma CreditKeys(m: Mem, p: Option<Ptr>, proto: u8, d: Duplex, now: nat)
    ensures CreditHost(m, p, proto, d, now).hosts.Keys == m.hosts.Keys
    ensures m.fault ==> CreditHost(m, p, proto, d, now).fault
  {
  }

  /** Changing a flow's counters, times or flags, but neither its ends nor its snapshot. */
  ghost predicate Touched(f: Flow, g: Flow) {
    && g.cli == f.cli && g.srv == f.srv && g.cliPort == f.cliPort && g.srvPort == f.srvPort
    && g.vlan == f.vlan && g.proto == f.proto && Last(g) == Last(f)
  }

  lemma TouchFlowSound(m: Mem, p: Ptr, f: Flow)
    requires Sound(m) && p in m.flows && Touched(m.flows[p], f)
    ensures Sound(m.(flows := m.flows[p := f]))
  {
    var n := m.(flows := m.flows[p := f]);
    forall g: Gauge, h ensures Total(n.flows, g, h) == Total(m.flows, g, h) {
      TotalPut(m.flows, g, h, p, f);
    }
    assert forall h :: RefersTo(f, h) <==> RefersTo(m.flows[p], h);
    assert forall g: Gauge, h :: h in m.hosts ==>
      Unsplit(n, g, h) == Unsplit(m, g, h) && Balance(n, g, h) == Balance(m, g, h);
  }

  /** A credit reaches the total and, unless its protocol is unknown, one of the four parts. */
  lemma SplitEffect(h: Host, proto: u8, d: Duplex, now: nat, g: Gauge) returns (j: int, k: int)
    requires g != Refs && Counts(d)
    ensures var s, t := h.stats, HostIncStats(h, proto, d, now).stats;
      && Read(g, t.all) == Read(g, s.all) + Read(g, d) + TWO_64 * j
      && Residue(t, g) == Residue(s, g) + (if proto == 0 then Read(g, d) else 0) + TWO_64 * k
  {
    var s := h.stats;
    j := ReadAdd(g, s.all, d);
    if proto == 0 {
      k := j;
    } else {
      k := ReadAdd(g, if proto == IPPROTO_UDP then s.udp else if proto == IPPROTO_TCP then s.tcp
                      else if proto == IPPROTO_ICMP then s.icmp else s.other, d);
      k := j - k;
    }
  }

  lemma LogSnoc(log: seq<Entry>, e: Entry, g: Gauge, h: Ptr)
    requires e.Credited?
    ensures Booked(log + [e], g, h) == Booked(log, g, h)
    ensures Unknown(log + [e], g, h) ==
      Unknown(log, g, h) + (if e.host == h && e.proto == 0 then Read(g, e.credit) else 0)
  {
    assert (log + [e])[..|log + [e]| - 1] == log;
  }

  /** The effect of one credit on one host's accounts; bytes that come without any packet are lost. */
  lemma CreditEffect(m: Mem, p: Option<Ptr>, proto: u8, d: Duplex, now: nat, g: Gauge, h: Ptr) returns (j: int, k: int)
    requires g != Refs && h in m.hosts && (p.Some? ==> p.value in m.hosts)
    ensures var n := CreditHost(m, p, proto, d, now);
      && Booked(n.log, g, h) == Booked(m.log, g, h)
      && SameButStats(m, n) && n.flows == m.flows && n.fault == m.fault && n.warned == m.warned
      && Balance(n, g, h) == Balance(m, g, h) + (if p == Some(h) && Counts(d) then Read(g, d) else 0) + TWO_64 * j
      && Unsplit(n, g, h) == Unsplit(m, g, h) + TWO_64 * k
  {
    j, k := 0, 0;
    if p.Some? && Counts(d) {
      var n, q := CreditHost(m, p, proto, d, now), p.value;
      assert n.log == m.log + [Credited(q, proto, d)];
      assert n.hosts == m.hosts[q := HostIncStats(m.hosts[q], proto, d, now)];
      LogSnoc(m.log, Credited(q, proto, d), g, h);
      if q == h {
        j, k := SplitEffect(m.hosts[h], proto, d, now, g);
      }
      assert SameButStats(m, n);
    }
  }

  /** n has the same hosts as m with the same references to them. */
  ghost predicate SameButStats(m: Mem, n: Mem) {
    && n.hosts.Keys == m.hosts.Keys
    && forall h :: h in m.hosts ==> n.hosts[h].id == m.hosts[h].id && n.hosts[h].uses == m.hosts[h].uses
  }

  lemma ReadAdd(g: Gauge, a: Duplex, d: Duplex) returns (j: int)
    requires g != Refs
    ensures Read(g, AddDuplex(a, d)) == Read(g, a) + Read(g, d) + TWO_64 * j
  {
    j := -((Read(g, a) + Read(g, d)) / TWO_64);
  }

  lemma DiffOf(x: nat, y: nat) returns (j: int)
    ensures (x - y) % TWO_64 == x - y + TWO_64 * j
  {
    j := -((x - y) / TWO_64);
  }

  lemma ReadDiff(g: Gauge, f: Flow) returns (j: int, k: int)
    requires g != Refs
    ensures Read(g, Pending(f)) == Read(g, Last(Snapshot(f))) - Read(g, Last(f)) + TWO_64 * j
    ensures Read(g, Flip(Pending(f))) == Read(g, Flip(Last(Snapshot(f)))) - Read(g, Flip(Last(f))) + TWO_64 * k
  {
    j := DiffOf(Read(g, Last(Snapshot(f))), Read(g, Last(f)));
    k := DiffOf(Read(g, Flip(Last(Snapshot(f)))), Read(g, Flip(Last(f))));
  }

  lemma ShareDiff(g: Gauge, f: Flow, h: Ptr) returns (j: int)
    requires g != Refs
    ensures Share(g, f, Pending(f), h) == Weight(g, Snapshot(f), h) - Weight(g, f, h) + TWO_64 * j
  {
    var j0, k0 := ReadDiff(g, f);
    j := (if f.cli == Some(h) then j0 else 0) + (if f.srv == Some(h) then k0 else 0);
    hide Read;
  }

  lemma MultipleOf(x: int, y: int, k: int)
    requires x % TWO_64 == 0 && y == x + TWO_64 * k
    ensures y % TWO_64 == 0
  {
  }

  /** Snapshotting moves exactly the pending traffic: the flow's weight grows by it, and if no
      packet is pending the bytes are booked as dropped. */
  lemma SnapshotEffect(m: Mem, p: Ptr, g: Gauge, h: Ptr) returns (j: int)
    requires g != Refs && p in m.flows && h in m.hosts
    ensures var n, f := TakeSnapshot(m, p), m.flows[p];
      && Balance(n, g, h) ==
           Balance(m, g, h) - (if Counts(Pending(f)) then Share(g, f, Pending(f), h) else 0) + TWO_64 * j
      && Unsplit(n, g, h) == Unsplit(m, g, h)
  {
    var n, f := TakeSnapshot(m, p), m.flows[p];
    TotalPut(m.flows, g, h, p, Snapshot(f));
    j := ShareDiff(g, f, h);
    hide Share, Read, Residue, Pending, Weight;
    if !Counts(Pending(f)) {
      assert n.log[..|n.log| - 1] == m.log;
    }
  }

  lemma UpdateBalance(m: Mem, p: Ptr, now: nat, g: Gauge, h: Ptr)
    requires g != Refs && p in m.flows && h in m.hosts && forall k :: RefersTo(m.flows[p], k) ==> k in m.hosts
    requires Balance(m, g, h) % TWO_64 == 0 && Unsplit(m, g, h) % TWO_64 == 0
    ensures var n := UpdateHostsStats(m, p, now);
      && n.flows == m.flows[p := Snapshot(m.flows[p])] && SameButStats(m, n)
      && n.warned == m.warned && n.fault == m.fault
      && Balance(n, g, h) % TWO_64 == 0 && Unsplit(n, g, h) % TWO_64 == 0
  {
    hide Booked, Unknown, Residue, CreditHost, Pending, Read, Balance, Unsplit;
    var f := m.flows[p];
    var d := Pending(f);
    var n0 := TakeSnapshot(m, p);
    var n1 := CreditHost(n0, f.cli, f.proto, d, now);
    var n := CreditHost(n1, f.srv, f.proto, Flip(d), now);
    assert f.cli.Some? ==> RefersTo(f, f.cli.value);
    assert f.srv.Some? ==> RefersTo(f, f.srv.value);
    var j0 := SnapshotEffect(m, p, g, h);
    var j1, k1 := CreditEffect(n0, f.cli, f.proto, d, now, g, h);
    var j2, k2 := CreditEffect(n1, f.srv, f.proto, Flip(d), now, g, h);
    assert Counts(Flip(d)) == Counts(d);
    MultipleOf(Balance(m, g, h), Balance(n, g, h), j0 + j1 + j2);
    MultipleOf(Unsplit(m, g, h), Unsplit(n, g, h), k1 + k2);
  }

  lemma UpdateFrame(m: Mem, p: Ptr, now: nat)
    requires p in m.flows && forall k :: RefersTo(m.flows[p], k) ==> k in m.hosts
    ensures var n, f := UpdateHostsStats(m, p, now), m.flows[p];
      && n.flows == m.flows[p := Snapshot(f)] && SameButStats(m, n) && n.warned == m.warned && n.fault == m.fault
      && forall h :: h in m.hosts && !RefersTo(f, h) ==> n.hosts[h] == m.hosts[h]
  {
    var f := m.flows[p];
    assert f.cli.Some? ==> RefersTo(f, f.cli.value);
    assert f.srv.Some? ==> RefersTo(f, f.srv.value);
  }

  /** One update: each host gets its share of what the flow carried since the last one, once. */
  lemma UpdateHostsSound(m: Mem, p: Ptr, now: nat)
    requires Sound(m) && p in m.flows
    ensures var n, f := UpdateHostsStats(m, p, now), m.flows[p];
      && Sound(n) && n.flows == m.flows[p := Snapshot(f)] && SameButStats(m, n) && n.warned == m.warned
      && forall h :: h in m.hosts && !RefersTo(f, h) ==> n.hosts[h] == m.hosts[h]
  {
    var n, f := UpdateHostsStats(m, p, now), m.flows[p];
    UpdateFrame(m, p, now);
    forall g: Gauge, h | g != Refs && h in m.hosts
      ensures Balance(n, g, h) % TWO_64 == 0 && Unsplit(n, g, h) % TWO_64 == 0
    {
      UpdateBalance(m, p, now, g, h);
    }
    forall h ensures Total(n.flows, Refs, h) == Total(m.flows, Refs, h) {
      TotalPut(m.flows, Refs, h, p, Snapshot(f));
    }
    assert forall h :: RefersTo(Snapshot(f), h) <==> RefersTo(f, h);
  }

  lemma DirectSnoc(log: seq<Entry>, h: Ptr, d: Duplex, g: Gauge, k: Ptr)
    ensures Booked(log + [Direct(h, d)], g, k) == Booked(log, g, k) + (if k == h then Read(g, d) else 0)
    ensures Unknown(log + [Direct(h, d)], g, k) == Unknown(log, g, k)
  {
    assert (log + [Direct(h, d)])[..|log + [Direct(h, d)]| - 1] == log;
  }

  lemma DirectBalance(m: Mem, h: Ptr, d: Duplex, now: nat, g: Gauge, k: Ptr)
    requires g != Refs && h in m.hosts && k in m.hosts
    requires Balance(m, g, k) % TWO_64 == 0 && Unsplit(m, g, k) % TWO_64 == 0
    ensures var n := DirectCredit(m, h, d, now);
      && SameButStats(m, n) && n.flows == m.flows && n.fault == m.fault && n.warned == m.warned
      && Balance(n, g, k) % TWO_64 == 0 && Unsplit(n, g, k) % TWO_64 == 0
  {
    var n1 := CreditHost(m, Some(h), 0, d, now);
    var n := DirectCredit(m, h, d, now);
    var j1, k1 := CreditEffect(m, Some(h), 0, d, now, g, k);
    if Counts(d) {
      DirectSnoc(n1.log, h, d, g, k);
      assert n.log == n1.log + [Direct(h, d)] && n.hosts == n1.hosts && n.flows == n1.flows;
    }
    assert Balance(n, g, k) == Balance(m, g, k) + TWO_64 * j1;
    MultipleOf(Balance(m, g, k), Balance(n, g, k), j1);
    MultipleOf(Unsplit(m, g, k), Unsplit(n, g, k), k1);
  }

  /** A direct credit is booked as such. */
  lemma DirectSound(m: Mem, h: Ptr, d: Duplex, now: nat)
    requires Sound(m) && h in m.hosts
    ensures var n := DirectCredit(m, h, d, now);
      && Sound(n) && n.flows == m.flows && SameButStats(m, n) && n.warned == m.warned
      && forall k :: k in m.hosts && k != h ==> n.hosts[k] == m.hosts[k]
  {
    var n := DirectCredit(m, h, d, now);
    forall g: Gauge, k | g != Refs && k in m.hosts
      ensures Balance(n, g, k) % TWO_64 == 0 && Unsplit(n, g, k) % TWO_64 == 0
    {
      DirectBalance(m, h, d, now, g, k);
    }
  }

  ghost function SetOf(ps: seq<Ptr>): set<Ptr> { set p | p in ps }

  lemma {:induction false} DeleteFlowsSound(m: Mem, ps: seq<Ptr>)
    requires Sound(m) && forall i, j :: 0 <= i < j < |ps| ==> ps[i] != ps[j]
    requires forall p :: p in ps ==> p in m.flows
    ensures var n := DeleteFlows(m, ps);
      Sound(n) && n.flows == m.flows - SetOf(ps) && SameHosts(m, n) && n.warned == m.warned
    decreases |ps|
  {
    if ps == [] {
      assert m.flows - SetOf(ps) == m.flows;
    } else {
      DeleteFlowSound(m, ps[0]);
      var n := DeleteFlow(m, ps[0]);
      assert forall p :: p in ps[1..] ==> p in m.flows && p != ps[0];
      DeleteFlowsSound(n, ps[1..]);
      assert m.flows - {ps[0]} - SetOf(ps[1..]) == m.flows - SetOf(ps);
    }
  }

  lemma {:induction false} DeleteHostsSound(m: Mem, hs: seq<Ptr>)
    requires Sound(m) && forall i, j :: 0 <= i < j < |hs| ==> hs[i] != hs[j]
    requires forall h :: h in hs ==> h in m.hosts && Total(m.flows, Refs, h) == 0
    ensures var n := DeleteHosts(m, hs);
      && Sound(n) && n.flows == m.flows && n.warned == m.warned
      && n.hosts == m.hosts - SetOf(hs)
    decreases |hs|
  {
    if hs == [] {
      assert m.hosts - SetOf(hs) == m.hosts;
    } else {
      DeleteHostSound(m, hs[0]);
      assert forall h :: h in hs[1..] ==> h in m.hosts && h != hs[0];
      DeleteHostsSound(DeleteHost(m, hs[0]), hs[1..]);
      assert m.hosts - {hs[0]} - SetOf(hs[1..]) == m.hosts - SetOf(hs);
    }
  }
}
