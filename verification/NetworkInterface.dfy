/** ntopng/NetworkInterface.cpp as an object: two linked hash tables, the memory of their entries,
    the clock and the purge times. Every method does to its value what the step functions say. */
module NetworkInterface {
  import opened Addresses
  import opened HashTable
  import opened Memory
  import opened Lifecycle

  class NetworkInterface {
    const c: Config
    const flowsHash: GenericHash<Ptr>
    const hostsHash: GenericHash<Ptr>
    var mem: Mem
    var lastPktRcvd: nat
    var nextIdleFlowPurge: nat
    var nextIdleHostPurge: nat

    ghost function Footprint(): set<object>
      reads this, flowsHash, hostsHash
    {
      {this, flowsHash, hostsHash, flowsHash.table, hostsHash.table} + flowsHash.nodes + hostsHash.nodes
    }

    ghost predicate Valid()
      reads this, Footprint()
    {
      && flowsHash != hostsHash && flowsHash.table != hostsHash.table && flowsHash.nodes !! hostsHash.nodes
      && flowsHash.Valid() && hostsHash.Valid()
      && flowsHash.maxHashSize == c.maxFlows && hostsHash.maxHashSize == c.maxHosts
    }

    ghost function View(): (s: State)
      requires Valid()
      reads this, Footprint()
      ensures Shaped(s)
    {
      State(mem, flowsHash.View(), hostsHash.View(), lastPktRcvd, nextIdleFlowPurge, nextIdleHostPurge)
    }

    constructor (c: Config)
      requires c.flowBuckets > 0 && c.hostBuckets > 0
      ensures this.c == c && Valid() && View() == Initial(c)
    {
      this.c := c;
      flowsHash := new GenericHash(c.flowBuckets, c.maxFlows);
      hostsHash := new GenericHash(c.hostBuckets, c.maxHosts);
      mem := Mem(map[], map[], false, false, []);
      lastPktRcvd, nextIdleFlowPurge, nextIdleHostPurge := 0, 0, 0;
    }

    /** FlowHash::find. */
    method FindFlow(t: Tuple) returns (r: Found<Ptr>)
      requires Valid()
      ensures r == Lifecycle.FindFlow(c, View(), t)
    {
      r := flowsHash.Find(LookupHash(t) % flowsHash.numHashes, FlowAccepts(c, lastPktRcvd, mem, t));
    }

    /** HostHash::get by address. */
    method FindHost(vlan: u16, ip: Ip) returns (r: Found<Ptr>)
      requires Valid()
      ensures r == Lifecycle.FindHost(c, View(), vlan, ip)
    {
      r := hostsHash.Find(Key(ip) % hostsHash.numHashes, HostAccepts(c, lastPktRcvd, mem, vlan, ip));
    }

    /** HostHash::get by MAC address. */
    method FindStation(vlan: u16, mac: Mac) returns (r: Found<Ptr>)
      requires Valid()
      ensures r == Lifecycle.FindStation(c, View(), vlan, mac)
    {
      var hash := MacHash(mac);
      r := hostsHash.Find(hash % hostsHash.numHashes, StationAccepts(c, lastPktRcvd, mem, vlan, mac));
    }

    /** Inserts a host that is already in memory. */
    method AddHost(h: Ptr, id: Identity) returns (ok: bool)
      requires Valid()
      modifies Footprint()
      ensures Valid() && fresh(Footprint() - old(Footprint())) && mem == old(mem)
      ensures ok <==> Size(old(View()).htab.buckets) < c.maxHosts
      ensures var was := old(View());
        View() == if ok then was.(htab := Insert(was.htab, HostKey(id) % |was.htab.buckets|, h)) else was
    {
      hide Size, IsChain;
      var e := new GenericHashEntry(h, HostKey(id));
      ok := hostsHash.Add(e);
    }

    method AddFlow(p: Ptr, f: Flow) returns (ok: bool)
      requires Valid()
      modifies Footprint()
      ensures Valid() && fresh(Footprint() - old(Footprint())) && mem == old(mem)
      ensures ok <==> Size(old(View()).ftab.buckets) < c.maxFlows
      ensures var was, key := old(View()), FlowKey(old(mem).hosts, f);
        View() == if ok then was.(ftab := Insert(was.ftab, key % |was.ftab.buckets|, p)) else was
    {
      hide Size, IsChain;
      var e := new GenericHashEntry(p, FlowKey(mem.hosts, f));
      ok := flowsHash.Add(e);
    }

    /** One half of findFlowHosts. */
    method ObtainHost(vlan: u16, mac: Mac, ip: Ip, h: Ptr) returns (r: Option<Ptr>)
      requires Valid()
      modifies Footprint()
      ensures Valid() && fresh(Footprint() - old(Footprint()))
      ensures (View(), r) == Lifecycle.ObtainHost(c, old(View()), vlan, mac, ip, h)
    {
      hide Size, IsChain, NewHost, DeleteHost, Lifecycle.FindHost;
      var found := FindHost(vlan, ip);
      if found.Found? {
        return Some(found.item);
      }
      var id := IpIdentity(c, vlan, mac, ip);
      mem := NewHost(mem, h, id, lastPktRcvd);
      var ok := AddHost(h, id);
      if !ok {
        mem := DeleteHost(mem, h);
        return None;
      }
      return Some(h);
    }

    /** findHostByMac with createIfNotPresent: the outcome of the insertion is not looked at. */
    method ObtainStation(vlan: u16, mac: Mac, h: Ptr) returns (r: Ptr)
      requires Valid()
      modifies Footprint()
      ensures Valid() && fresh(Footprint() - old(Footprint()))
      ensures (View(), r) == Lifecycle.ObtainStation(c, old(View()), vlan, mac, h)
    {
      hide Size, IsChain, NewHost, Lifecycle.FindStation;
      var found := FindStation(vlan, mac);
      if found.Found? {
        return found.item;
      }
      var id := MacIdentity(vlan, mac);
      mem := NewHost(mem, h, id, lastPktRcvd);
      var ok := AddHost(h, id);
      return h;
    }

    method FindFlowHosts(t: Tuple, a: Alloc) returns (cli: Option<Ptr>, srv: Option<Ptr>)
      requires Valid()
      modifies Footprint()
      ensures Valid() && fresh(Footprint() - old(Footprint()))
      ensures (View(), cli, srv) == Lifecycle.FindFlowHosts(c, old(View()), t, a)
    {
      hide Size, IsChain, Lifecycle.ObtainHost;
      cli := ObtainHost(t.vlan, t.srcMac, t.src, a.src);
      if cli.None? {
        return None, None;
      }
      srv := ObtainHost(t.vlan, t.dstMac, t.dst, a.dst);
    }

    method GetFlow(t: Tuple, first: nat, last: nat, a: Alloc) returns (flow: Option<Ptr>, src2dst: bool, isNew: bool)
      requires Valid()
      modifies Footprint()
      ensures Valid() && fresh(Footprint() - old(Footprint()))
      ensures Got(View(), flow, src2dst, isNew) == Lifecycle.GetFlow(c, old(View()), t, first, last, a)
    {
      hide Size, IsChain, NewFlow, DeleteFlow, FlowKey, Lifecycle.FindFlow, Lifecycle.FindFlowHosts;
      var found := FindFlow(t);
      if found.Found? {
        return Some(found.item), found.item in mem.flows && Forward(mem.hosts, mem.flows[found.item], t), false;
      }
      var cli, srv := FindFlowHosts(t, a);
      var f := FreshFlow(t, cli, srv, first, last);
      mem := NewFlow(mem, a.flow, f);
      var ok := AddFlow(a.flow, f);
      if ok {
        return Some(a.flow), true, true;
      }
      mem := DeleteFlow(mem, a.flow);
      return None, true, true;
    }

    /** purgeIdleFlows: at most once per second; the swept flows' destructors release their hosts. */
    method PurgeIdleFlows()
      requires Valid()
      modifies Footprint()
      ensures Valid() && fresh(Footprint() - old(Footprint()))
      ensures View() == PurgeFlows(c, old(View()))
    {
      hide Size, IsChain, Sweep, Swept, DeleteFlows, IdleFlowsOf;
      if nextIdleFlowPurge == 0 {
        nextIdleFlowPurge := lastPktRcvd + FLOW_PURGE_FREQUENCY;
      } else if lastPktRcvd >= nextIdleFlowPurge {
        var removed := flowsHash.PurgeIdle(IdleFlowsOf(c, lastPktRcvd, mem));
        mem := DeleteFlows(mem, removed);
        nextIdleFlowPurge := lastPktRcvd + FLOW_PURGE_FREQUENCY;
      }
    }

    method PurgeIdleHosts()
      requires Valid()
      modifies Footprint()
      ensures Valid() && fresh(Footprint() - old(Footprint()))
      ensures View() == PurgeHosts(c, old(View()))
    {
      hide Size, IsChain, Sweep, Swept, DeleteHosts, IdleHostsOf;
      if nextIdleHostPurge == 0 {
        nextIdleHostPurge := lastPktRcvd + HOST_PURGE_FREQUENCY;
      } else if lastPktRcvd >= nextIdleHostPurge {
        var removed := hostsHash.PurgeIdle(IdleHostsOf(c, lastPktRcvd, mem));
        mem := DeleteHosts(mem, removed);
        nextIdleHostPurge := lastPktRcvd + HOST_PURGE_FREQUENCY;
      }
    }

    method PurgeIdle(when: nat)
      requires Valid()
      modifies Footprint()
      ensures Valid() && fresh(Footprint() - old(Footprint()))
      ensures View() == Lifecycle.PurgeIdle(c, old(View()), when)
    {
      hide Size, IsChain, PurgeFlows, PurgeHosts;
      if c.purge {
        lastPktRcvd := when;
        PurgeIdleFlows();
        PurgeIdleHosts();
      }
    }

    /** cleanup: flows first, then hosts. */
    method Cleanup()
      requires Valid()
      modifies Footprint()
      ensures Valid() && fresh(Footprint() - old(Footprint()))
      ensures View() == CleanupAll(old(View()))
    {
      hide Size, IsChain, Flatten, DeleteFlows, DeleteHosts;
      lastPktRcvd, nextIdleFlowPurge, nextIdleHostPurge := 0, 0, 0;
      var flows := flowsHash.Cleanup();
      mem := DeleteFlows(mem, flows);
      var hosts := hostsHash.Cleanup();
      mem := DeleteHosts(mem, hosts);
    }

    /** updateHostStats: walks the flows, skipping idle ones. */
    method UpdateHostStats()
      requires Valid()
      modifies Footprint()
      ensures Valid() && fresh(Footprint() - old(Footprint()))
      ensures View() == Lifecycle.UpdateHostStats(c, old(View()))
    {
      hide Size, IsChain, UpdateHostsStats, FlowIdle;
      var ps := flowsHash.Walk();
      ghost var was := mem;
      for i := 0 to |ps|
        invariant Valid() && View() == old(View()).(mem := mem)
        invariant Footprint() == old(Footprint())
        invariant UpdateAll(c, lastPktRcvd, was, ps) == UpdateAll(c, lastPktRcvd, mem, ps[i..])
      {
        assert ps[i..][1..] == ps[i + 1..];
        if !(ps[i] in mem.flows && FlowIdle(c, lastPktRcvd, mem.flows[ps[i]])) {
          mem := UpdateHostsStats(mem, ps[i], lastPktRcvd);
        }
      }
      assert ps[|ps|..] == [];
    }

    /** The counting half of packet_processing for a decoded packet. */
    method Packet(ts: nat, t: Tuple, len: nat, flags: bv8, a: Alloc)
      requires Valid()
      modifies Footprint()
      ensures Valid() && fresh(Footprint() - old(Footprint()))
      ensures View() == Step(c, old(View()), Event.Packet(ts, t, len, flags, a))
    {
      hide Size, IsChain, Lifecycle.GetFlow, FlowIncStats, WithFlags, Lifecycle.PurgeIdle;
      lastPktRcvd := ts;
      var flow, src2dst, isNew := GetFlow(t, ts, ts, a);
      if flow.Some? {
        var p := flow.value;
        if p in mem.flows {
          var f := WithFlags(FlowIncStats(mem.flows[p], src2dst, len, lastPktRcvd), t, flags);
          mem := mem.(flows := mem.flows[p := f]);
        } else {
          mem := mem.(fault := true);
        }
      }
      PurgeIdle(ts);
    }

    /** flow_processing. */
    method FlowRecord(first: nat, last: nat, t: Tuple, flags: bv8, into: Traffic, out: Traffic, a: Alloc)
      requires Valid()
      modifies Footprint()
      ensures Valid() && fresh(Footprint() - old(Footprint()))
      ensures View() == Step(c, old(View()), Record(first, last, t, flags, into, out, a))
    {
      hide Size, IsChain, Lifecycle.GetFlow, AddFlowStats, WithFlags, Lifecycle.PurgeIdle;
      if last > lastPktRcvd {
        lastPktRcvd := last;
      }
      var flow, src2dst, isNew := GetFlow(t, first, last, a);
      if flow.None? {
        return;
      }
      var p := flow.value;
      if p in mem.flows {
        var f := AddFlowStats(WithFlags(mem.flows[p], t, flags), src2dst, into, out, last);
        mem := mem.(flows := mem.flows[p := f]);
      } else {
        mem := mem.(fault := true);
      }
      PurgeIdle(last);
    }

    method ObtainStations(vlan: u16, srcMac: Mac, dstMac: Mac, a: Alloc) returns (src: Ptr, dst: Ptr)
      requires Valid()
      modifies Footprint()
      ensures Valid() && fresh(Footprint() - old(Footprint()))
      ensures var (s1, p) := Lifecycle.ObtainStation(c, old(View()), vlan, srcMac, a.src);
        var (s2, q) := Lifecycle.ObtainStation(c, s1, vlan, dstMac, a.dst);
        View() == s2 && src == p && dst == q
    {
      hide Size, IsChain, Lifecycle.ObtainStation;
      src := ObtainStation(vlan, srcMac, a.src);
      dst := ObtainStation(vlan, dstMac, a.dst);
    }

    /** A packet that is neither IPv4 nor IPv6. */
    method Layer2Packet(ts: nat, vlan: u16, srcMac: Mac, dstMac: Mac, len: nat, a: Alloc)
      requires Valid()
      modifies Footprint()
      ensures Valid() && fresh(Footprint() - old(Footprint()))
      ensures View() == Step(c, old(View()), Layer2(ts, vlan, srcMac, dstMac, len, a))
    {
      hide Size, IsChain, Lifecycle.ObtainStation, DirectCredit, Lifecycle.PurgeIdle;
      lastPktRcvd := ts;
      var src, dst := ObtainStations(vlan, srcMac, dstMac, a);
      mem := DirectCredit(mem, src, Duplex(Traffic(1, len), NO_TRAFFIC), ts);
      mem := DirectCredit(mem, dst, Duplex(NO_TRAFFIC, Traffic(1, len)), ts);
      PurgeIdle(ts);
    }
  }

  function Shifted(b: int, i: nat): int {
    if i == 0 then b else 2 * Shifted(b, i - 1)
  }

  function MacSum(mac: Mac, i: nat): int
    requires i <= 6
  {
    if i == 0 then 0 else MacSum(mac, i - 1) + Shifted(mac[i - 1], i)
  }

  lemma MacSumKey(mac: Mac)
    ensures MacSum(mac, 6) == MacKey(mac)
  {
    forall i: nat | i < 6 ensures Shifted(mac[i], i + 1) == (mac[i] as int) * [2, 4, 8, 16, 32, 64][i] {
      ShiftedIs(mac[i]);
    }
    assert MacSum(mac, 1) == MacSum(mac, 0) + Shifted(mac[0], 1);
    assert MacSum(mac, 2) == MacSum(mac, 1) + Shifted(mac[1], 2);
    assert MacSum(mac, 4) == MacSum(mac, 2) + Shifted(mac[2], 3) + Shifted(mac[3], 4);
    assert MacSum(mac, 6) == MacSum(mac, 4) + Shifted(mac[4], 5) + Shifted(mac[5], 6);
  }

  lemma ShiftedIs(b: int)
    ensures Shifted(b, 1) == 2 * b && Shifted(b, 2) == 4 * b && Shifted(b, 3) == 8 * b
    ensures Shifted(b, 4) == 16 * b && Shifted(b, 5) == 32 * b && Shifted(b, 6) == 64 * b
  {
    assert Shifted(b, 2) == 2 * Shifted(b, 1) && Shifted(b, 4) == 2 * Shifted(b, 3);
    assert Shifted(b, 6) == 2 * Shifted(b, 5);
  }

  /** Each byte of the address, shifted by its position. */
  method MacHash(mac: Mac) returns (hash: nat)
    ensures hash == MacKey(mac)
  {
    var sum := 0;
    for i := 0 to 6
      invariant sum == MacSum(mac, i)
    {
      sum := sum + Shifted(mac[i], i + 1);
    }
    MacSumKey(mac);
    hash := sum;
  }
}
