/** What happens to one host object over time: who it is never changes, only credits renew its time, and
    a host that is sticky, or credited often enough, is never freed by a sweep. */
module LifecycleHostTimes {
  import opened Addresses
  import opened HashTable
  import opened Memory
  import opened Lifecycle
  import opened LifecycleProof
  import opened LifecycleEffects

  // ----- operations that leave a host alone -----

  /** The host is still there, and at most its use counter differs. */
  predicate HostSame(m: Mem, n: Mem, h: Ptr)
    requires h in m.hosts
  {
    h in n.hosts && n.hosts[h] == m.hosts[h].(uses := n.hosts[h].uses)
  }

  /** The host may have been deleted. */
  predicate HostSameOrGone(m: Mem, n: Mem, h: Ptr) { h in n.hosts ==> h in m.hosts && HostSame(m, n, h) }

  lemma UsesHost(m: Mem, p: Option<Ptr>, k: nat, h: Ptr)
    ensures (h in m.hosts ==> HostSame(m, AddUses(m, p, k), h)) && HostSameOrGone(m, AddUses(m, p, k), h)
    ensures AddUses(m, p, k).hosts.Keys == m.hosts.Keys && AddUses(m, p, k).flows == m.flows
  {
  }

  lemma UsesTwiceHost(m: Mem, p: Option<Ptr>, q: Option<Ptr>, k: nat, h: Ptr)
    ensures var n := AddUses(AddUses(m, p, k), q, k);
      && (h in m.hosts ==> HostSame(m, n, h)) && HostSameOrGone(m, n, h)
      && n.hosts.Keys == m.hosts.Keys && n.flows == m.flows
  {
    UsesHost(m, p, k, h);
    UsesHost(AddUses(m, p, k), q, k, h);
    hide AddUses;
  }

  lemma DeleteFlowHost(m: Mem, p: Ptr, h: Ptr)
    ensures var n := DeleteFlow(m, p);
      (h in m.hosts ==> HostSame(m, n, h)) && HostSameOrGone(m, n, h) && n.hosts.Keys == m.hosts.Keys
  {
    if p in m.flows {
      UsesTwiceHost(m, m.flows[p].cli, m.flows[p].srv, TWO_16 - 1, h);
    }
    hide AddUses;
  }

  lemma {:induction false} DeleteFlowsHost(m: Mem, ps: seq<Ptr>, h: Ptr)
    ensures var n := DeleteFlows(m, ps);
      (h in m.hosts ==> HostSame(m, n, h)) && HostSameOrGone(m, n, h) && n.hosts.Keys == m.hosts.Keys
    decreases |ps|
  {
    hide DeleteFlow;
    if ps != [] {
      DeleteFlowHost(m, ps[0], h);
      DeleteFlowsHost(DeleteFlow(m, ps[0]), ps[1..], h);
    }
  }

  lemma {:induction false} DeleteHostsHost(m: Mem, hs: seq<Ptr>, h: Ptr)
    ensures HostSameOrGone(m, DeleteHosts(m, hs), h)
    ensures h in m.hosts && h !in hs ==> HostSame(m, DeleteHosts(m, hs), h)
    decreases |hs|
  {
    if hs != [] {
      DeleteHostsHost(DeleteHost(m, hs[0]), hs[1..], h);
    }
  }

  lemma ObtainHostSame(c: Config, s: State, vlan: u16, mac: Mac, ip: Ip, k: Ptr, h: Ptr)
    requires Shaped(s) && k !in s.mem.hosts && h in s.mem.hosts
    ensures var t := ObtainHost(c, s, vlan, mac, ip, k).0;
      HostSame(s.mem, t.mem, h) && t.mem.hosts.Keys <= s.mem.hosts.Keys + {k} && t.mem.flows == s.mem.flows
  {
    hide Size, FindHost;
  }

  lemma StationSame(c: Config, s: State, vlan: u16, mac: Mac, k: Ptr, h: Ptr)
    requires Shaped(s) && k !in s.mem.hosts && h in s.mem.hosts
    ensures var t := ObtainStation(c, s, vlan, mac, k).0;
      HostSame(s.mem, t.mem, h) && t.mem.hosts.Keys <= s.mem.hosts.Keys + {k} && t.mem.flows == s.mem.flows
  {
    hide Size, FindStation;
  }

  lemma JoinSame(c: Config, s: State, f: Flow, p: Ptr, h: Ptr)
    requires Shaped(s) && h in s.mem.hosts
    ensures var t := JoinFlow(c, s, f, p).s; HostSame(s.mem, t.mem, h) && t.mem.hosts.Keys == s.mem.hosts.Keys
  {
    UsesTwiceHost(s.mem, f.cli, f.srv, 1, h);
    DeleteFlowHost(NewFlow(s.mem, p, f), p, h);
    hide AddUses, Size, FlowKey, DeleteFlow;
  }

  lemma GetSame(c: Config, s: State, t: Tuple, first: nat, last: nat, a: Alloc, h: Ptr)
    requires Shaped(s) && a.src !in s.mem.hosts && a.dst !in s.mem.hosts && a.src != a.dst && h in s.mem.hosts
    ensures HostSame(s.mem, GetFlow(c, s, t, first, last, a).s.mem, h)
  {
    hide ObtainHost, FindFlow, Forward, JoinFlow;
    ObtainHostSame(c, s, t.vlan, t.srcMac, t.src, a.src, h);
    var (s1, k) := ObtainHost(c, s, t.vlan, t.srcMac, t.src, a.src);
    if k.Some? {
      ObtainHostSame(c, s1, t.vlan, t.dstMac, t.dst, a.dst, h);
    }
    var (s2, cli, srv) := FindFlowHosts(c, s, t, a);
    JoinSame(c, s2, FreshFlow(t, cli, srv, first, last), a.flow, h);
  }

  lemma CountSame(g: Got, t: Tuple, len: nat, flags: bv8, into: Traffic, out: Traffic, last: nat)
    ensures CountPacket(g, t, len, flags).mem.hosts == g.s.mem.hosts
    ensures CountRecord(g, t, flags, into, out, last).mem.hosts == g.s.mem.hosts
  {
  }

  /** Swept hosts are idle. */
  lemma SweptIdle(c: Config, s: State, h: Ptr)
    requires Shaped(s) && h in Swept(s.htab, IdleHosts(c, s))
    ensures h in s.mem.hosts && HostIdle(c, s.now, s.mem.hosts[h])
  {
    QuotaFits(|s.htab.buckets|);
    SweptMembers(s.htab, IdleHosts(c, s), Quota(|s.htab.buckets|));
  }

  /** A purge frees a host only if that is idle once the flows are purged, and changes no other. */
  lemma PurgeSame(c: Config, s: State, when: nat, h: Ptr)
    requires Shaped(s)
    ensures var t := PurgeIdle(c, s, when);
      && HostSameOrGone(s.mem, t.mem, h)
      && (h in s.mem.hosts && h !in t.mem.hosts ==>
           exists u: u16 :: HostIdle(c, when, s.mem.hosts[h].(uses := u)))
  {
    hide Sweep, Swept, HostIdle;
    if c.purge {
      var s1 := s.(now := when);
      var s2 := PurgeFlows(c, s1);
      DeleteFlowsHost(s1.mem, Swept(s1.ftab, IdleFlows(c, s1)), h);
      assert HostSameOrGone(s.mem, s2.mem, h) && (h in s.mem.hosts ==> HostSame(s.mem, s2.mem, h)) && s2.now == when;
      DeleteHostsHost(s2.mem, Swept(s2.htab, IdleHosts(c, s2)), h);
      if h in Swept(s2.htab, IdleHosts(c, s2)) {
        SweptIdle(c, s2, h);
        assert HostIdle(c, when, s.mem.hosts[h].(uses := s2.mem.hosts[h].uses));
      }
    }
  }

  // ----- credits -----

  /** What a credit at some time makes of a host's times. */
  predicate Seen(k: Host, l: Host, when: nat) {
    l.lastSeen == when && l.firstSeen == (if k.firstSeen == 0 then when else k.firstSeen) && l.id == k.id
  }

  predicate SameSeen(k: Host, l: Host) { l.lastSeen == k.lastSeen && l.firstSeen == k.firstSeen && l.id == k.id }

  lemma CreditSeen(m: Mem, p: Option<Ptr>, proto: u8, d: Duplex, now: nat, h: Ptr)
    requires h in m.hosts
    ensures var n := CreditHost(m, p, proto, d, now);
      && h in n.hosts && n.hosts.Keys == m.hosts.Keys && n.flows == m.flows
      && (if p == Some(h) && (d.sent.pkts != 0 || d.rcvd.pkts != 0) then Seen(m.hosts[h], n.hosts[h], now)
          else n.hosts[h] == m.hosts[h])
  {
    hide AddDuplex;
  }

  /** A flow would pass packets on to the host. */
  predicate Feeds(f: Flow, h: Ptr) {
    (f.cli == Some(h) || f.srv == Some(h)) && (Pending(f).sent.pkts != 0 || Pending(f).rcvd.pkts != 0)
  }

  lemma SeenVia(k: Host, l: Host, n: Host, when: nat, a: bool, b: bool)
    requires if a then Seen(k, l, when) else l == k
    requires if b then Seen(l, n, when) else n == l
    ensures if a || b then Seen(k, n, when) else n == k
  {
  }

  lemma UpdateSeenHost(m: Mem, p: Ptr, now: nat, h: Ptr)
    requires h in m.hosts && p in m.flows
    ensures var n, f := UpdateHostsStats(m, p, now), m.flows[p];
      && h in n.hosts && n.hosts.Keys == m.hosts.Keys && n.flows == m.flows[p := Snapshot(f)]
      && (if Feeds(f, h) then Seen(m.hosts[h], n.hosts[h], now) else n.hosts[h] == m.hosts[h])
  {
    var f, d, n0 := m.flows[p], Pending(m.flows[p]), TakeSnapshot(m, p);
    var n1 := CreditHost(n0, f.cli, f.proto, d, now);
    CreditSeen(n0, f.cli, f.proto, d, now, h);
    CreditSeen(n1, f.srv, f.proto, Flip(d), now, h);
    var n := CreditHost(n1, f.srv, f.proto, Flip(d), now);
    hide CreditHost, Pending, Seen;
    var moved := d.sent.pkts != 0 || d.rcvd.pkts != 0;
    SeenVia(n0.hosts[h], n1.hosts[h], n.hosts[h], now, f.cli == Some(h) && moved, f.srv == Some(h) && moved);
  }

  /** A flow of the list that is not idle would pass packets on to the host. */
  ghost predicate Fed(c: Config, now: nat, m: Mem, ps: seq<Ptr>, h: Ptr) {
    exists p :: p in ps && p in m.flows && !FlowIdle(c, now, m.flows[p]) && Feeds(m.flows[p], h)
  }

  lemma FedSplit(c: Config, now: nat, m: Mem, n: Mem, ps: seq<Ptr>, h: Ptr)
    requires ps != [] && ps[0] in m.flows
    requires n.flows == m.flows[ps[0] := Snapshot(m.flows[ps[0]])]
    ensures !FlowIdle(c, now, m.flows[ps[0]]) ==>
      (Fed(c, now, m, ps, h) <==> Feeds(m.flows[ps[0]], h) || Fed(c, now, n, ps[1..], h))
  {
    var p, r := ps[0], ps[1..];
    assert !Feeds(Snapshot(m.flows[p]), h);
    hide Feeds, FlowIdle;
    if !FlowIdle(c, now, m.flows[p]) {
      if Fed(c, now, m, ps, h) && !Feeds(m.flows[p], h) {
        var q :| q in ps && q in m.flows && !FlowIdle(c, now, m.flows[q]) && Feeds(m.flows[q], h);
        assert q in r && n.flows[q] == m.flows[q];
      }
      if q :| q in r && q in n.flows && !FlowIdle(c, now, n.flows[q]) && Feeds(n.flows[q], h) {
        assert q in ps && m.flows[q] == n.flows[q];
      }
    }
  }

  lemma FedIdle(c: Config, now: nat, m: Mem, ps: seq<Ptr>, h: Ptr)
    requires ps != [] && (ps[0] !in m.flows || FlowIdle(c, now, m.flows[ps[0]]))
    ensures Fed(c, now, m, ps, h) <==> Fed(c, now, m, ps[1..], h)
  {
    hide Feeds, FlowIdle;
    assert ps == [ps[0]] + ps[1..];
  }

  /** The statistics update renews the time of exactly the hosts that it passes packets on to. */
  lemma {:induction false} UpdateAllSeen(c: Config, now: nat, m: Mem, ps: seq<Ptr>, h: Ptr)
    requires h in m.hosts && forall p :: p in ps ==> p in m.flows
    ensures var n := UpdateAll(c, now, m, ps);
      && h in n.hosts && n.hosts.Keys == m.hosts.Keys
      && (if Fed(c, now, m, ps, h) then Seen(m.hosts[h], n.hosts[h], now) else n.hosts[h] == m.hosts[h])
    decreases |ps|
  {
    hide UpdateHostsStats, FlowIdle, Seen, Feeds, Fed;
    if ps == [] {
      NobodyFed(c, now, m, h);
    } else if FlowIdle(c, now, m.flows[ps[0]]) {
      FedIdle(c, now, m, ps, h);
      UpdateAllSeen(c, now, m, ps[1..], h);
    } else {
      var n := UpdateHostsStats(m, ps[0], now);
      UpdateSeenHost(m, ps[0], now, h);
      FedSplit(c, now, m, n, ps, h);
      UpdateAllSeen(c, now, n, ps[1..], h);
      SeenVia(m.hosts[h], n.hosts[h], UpdateAll(c, now, n, ps[1..]).hosts[h], now,
        Feeds(m.flows[ps[0]], h), Fed(c, now, n, ps[1..], h));
    }
  }

  lemma NobodyFed(c: Config, now: nat, m: Mem, h: Ptr)
    ensures !Fed(c, now, m, [], h)
  {
  }

  // ----- one step -----

  /** The two stations that a layer 2 packet credits. */
  function Credited2(c: Config, s: State, e: Event): (Ptr, Ptr)
    requires Shaped(s) && e.Layer2?
  {
    var (s1, src) := ObtainStation(c, s.(now := e.ts), e.vlan, e.srcMac, e.a.src);
    var (s2, dst) := ObtainStation(c, s1, e.vlan, e.dstMac, e.a.dst);
    (src, dst)
  }

  /** The step passes packets on to the host. */
  ghost predicate Credits(c: Config, s: State, e: Event, h: Ptr)
    requires Shaped(s)
  {
    match e
    case Layer2(_, _, _, _, _, _) => h == Credited2(c, s, e).0 || h == Credited2(c, s, e).1
    case Housekeeping => Fed(c, s.now, s.mem, Flatten(s.ftab.buckets), h)
    case _ => false
  }

  /** The time of such a step. */
  function CreditTime(s: State, e: Event): nat { if e.Layer2? then e.ts else s.now }

  lemma Layer2Seen(c: Config, s: State, e: Event, h: Ptr)
    requires Shaped(s) && e.Layer2? && Fresh(s, e) && h in s.mem.hosts
    ensures var x := BeforePurge(c, s, e).value;
      && Shaped(x) && h in x.mem.hosts
      && (if Credits(c, s, e, h) then Seen(s.mem.hosts[h], x.mem.hosts[h], e.ts) else HostSame(s.mem, x.mem, h))
  {
    var s0 := s.(now := e.ts);
    var (s1, src) := ObtainStation(c, s0, e.vlan, e.srcMac, e.a.src);
    var (s2, dst) := ObtainStation(c, s1, e.vlan, e.dstMac, e.a.dst);
    StationSame(c, s0, e.vlan, e.srcMac, e.a.src, h);
    StationSame(c, s1, e.vlan, e.dstMac, e.a.dst, h);
    var d1, d2 := Duplex(Traffic(1, e.len), NO_TRAFFIC), Duplex(NO_TRAFFIC, Traffic(1, e.len));
    var m1 := DirectCredit(s2.mem, src, d1, e.ts);
    DirectSeen(s2.mem, src, d1, e.ts, h);
    DirectSeen(m1, dst, d2, e.ts, h);
    hide ObtainStation, DirectCredit, Seen;
    SeenVia(s2.mem.hosts[h], m1.hosts[h], DirectCredit(m1, dst, d2, e.ts).hosts[h], e.ts, src == h, dst == h);
    UsesSeen(s.mem.hosts[h], s2.mem.hosts[h], DirectCredit(m1, dst, d2, e.ts).hosts[h], e.ts);
  }

  lemma UsesSeen(k: Host, l: Host, n: Host, when: nat)
    requires l == k.(uses := l.uses)
    ensures Seen(l, n, when) ==> Seen(k, n, when)
  {
  }

  lemma DirectSeen(m: Mem, k: Ptr, d: Duplex, now: nat, h: Ptr)
    requires h in m.hosts && (d.sent.pkts != 0 || d.rcvd.pkts != 0)
    ensures var n := DirectCredit(m, k, d, now);
      && h in n.hosts && n.flows == m.flows
      && (if k == h then Seen(m.hosts[h], n.hosts[h], now) else n.hosts[h] == m.hosts[h])
  {
    CreditSeen(m, Some(k), 0, d, now, h);
    hide CreditHost, Seen;
  }

  lemma BeforeSeen(c: Config, s: State, e: Event, h: Ptr)
    requires Good(c, s, false) && Fresh(s, e) && h in s.mem.hosts && !e.Cleanup?
    ensures var x := BeforePurge(c, s, e);
      var m := if x.Some? then x.value.mem else Step(c, s, e).mem;
      && (x.Some? ==> Shaped(x.value)) && h in m.hosts
      && (if Credits(c, s, e, h) then Seen(s.mem.hosts[h], m.hosts[h], CreditTime(s, e)) else HostSame(s.mem, m, h))
  {
    hide Good, GetFlow, PurgeIdle, CountPacket, CountRecord, ObtainStation, DirectCredit, UpdateAll, Fed, Seen;
    match e {
      case Packet(ts, t, len, flags, a) =>
        GetSame(c, s.(now := ts), t, ts, ts, a, h);
        CountSame(GetFlow(c, s.(now := ts), t, ts, ts, a), t, len, flags, NO_TRAFFIC, NO_TRAFFIC, ts);
        CountShaped(GetFlow(c, s.(now := ts), t, ts, ts, a), t, len, flags, NO_TRAFFIC, NO_TRAFFIC, ts);
      case Record(first, last, t, flags, into, out, a) =>
        var s0 := s.(now := if last > s.now then last else s.now);
        GetSame(c, s0, t, first, last, a, h);
        CountSame(GetFlow(c, s0, t, first, last, a), t, 0, flags, into, out, last);
        CountShaped(GetFlow(c, s0, t, first, last, a), t, 0, flags, into, out, last);
      case Layer2(_, _, _, _, _, _) => Layer2Seen(c, s, e, h);
      case Other(_) =>
      case Skipped(_) =>
      case Poll(_) =>
      case Housekeeping => WalkSeen(c, s, h);
    }
  }

  lemma CountShaped(g: Got, t: Tuple, len: nat, flags: bv8, into: Traffic, out: Traffic, last: nat)
    requires Shaped(g.s)
    ensures Shaped(CountPacket(g, t, len, flags)) && Shaped(CountRecord(g, t, flags, into, out, last))
  {
  }

  lemma WalkSeen(c: Config, s: State, h: Ptr)
    requires Good(c, s, false) && h in s.mem.hosts
    ensures var n := UpdateHostStats(c, s).mem;
      && h in n.hosts
      && (if Fed(c, s.now, s.mem, Flatten(s.ftab.buckets), h) then Seen(s.mem.hosts[h], n.hosts[h], s.now)
          else n.hosts[h] == s.mem.hosts[h])
  {
    hide FlowTable, HostTable, RefsAttached, Sound, Unique, NoDup, Fed, Seen, UpdateAll, Flatten;
    FlowTableLists(c, s.mem, s.ftab);
    UpdateAllSeen(c, s.now, s.mem, Flatten(s.ftab.buckets), h);
  }

  /** The host is exempt from purging. */
  predicate Exempt(c: Config, id: Identity) {
    !c.purge || (c.stickiness == LocalSticky && (id.local || id.system))
    || (c.stickiness == RemoteSticky && !id.local && !id.system) || c.stickiness == AllSticky
  }

  /** The longest time that the host may go without a credit. */
  function Patience(c: Config, id: Identity): nat { if id.local then c.localMaxIdle else c.remoteMaxIdle }

  /** A host is idle exactly if nothing uses it, it is not exempt and it was last seen longer ago than its
      time. */
  lemma IdleMeans(c: Config, now: nat, k: Host, u: u16)
    ensures HostIdle(c, now, k.(uses := u)) <==>
      u == 0 && !Exempt(c, k.id) && now % TWO_32 > k.lastSeen + Patience(c, k.id)
  {
  }

  /** The time that a packet, record or poll purges at. */
  function PurgeWhen(e: Event): nat {
    match e
    case Packet(ts, _, _, _, _) => ts
    case Record(_, last, _, _, _, _, _) => last
    case Layer2(ts, _, _, _, _, _) => ts
    case Other(ts) => ts
    case Poll(when) => when
    case _ => 0
  }

  lemma PurgesIs(c: Config, s: State, e: Event)
    requires Shaped(s) && BeforePurge(c, s, e).Some?
    ensures var x, t := BeforePurge(c, s, e).value, Step(c, s, e);
      Shaped(x) && if c.purge then t == PurgeIdle(c, x, PurgeWhen(e)) else t.mem == x.mem
  {
    hide GetFlow, ObtainStation, DirectCredit, PurgeFlows, PurgeHosts;
    if e.Poll? && c.purge {
      assert PurgeIdle(c, s, e.when) == PurgeIdle(c, s.(now := e.when), e.when);
    }
  }

  /** What an event makes of host k at address h: who it is stays, and its time is renewed if it is
      credited. The host is freed only by a purge after more than its time since then, and not if it is
      exempt. */
  predicate Aged(c: Config, k: Host, n: Mem, h: Ptr, credited: bool, when: nat, e: Event) {
    var seen := if credited then when else k.lastSeen;
    if h in n.hosts then
      && n.hosts[h].id == k.id && n.hosts[h].lastSeen == seen
      && n.hosts[h].firstSeen == (if credited && k.firstSeen == 0 then when else k.firstSeen)
    else !Exempt(c, k.id) && PurgeWhen(e) % TWO_32 > seen + Patience(c, k.id)
  }

  lemma PurgeAges(c: Config, k: Host, x: State, h: Ptr, credited: bool, when: nat, e: Event)
    requires Shaped(x) && h in x.mem.hosts
    requires if credited then Seen(k, x.mem.hosts[h], when) else SameSeen(k, x.mem.hosts[h])
    ensures Aged(c, k, PurgeIdle(c, x, PurgeWhen(e)).mem, h, credited, when, e)
    ensures Aged(c, k, x.mem, h, credited, when, e)
  {
    PurgeSame(c, x, PurgeWhen(e), h);
    hide PurgeIdle, HostIdle, Exempt;
    if h !in PurgeIdle(c, x, PurgeWhen(e)).mem.hosts {
      var u: u16 :| HostIdle(c, PurgeWhen(e), x.mem.hosts[h].(uses := u));
      IdleMeans(c, PurgeWhen(e), x.mem.hosts[h], u);
    }
  }

  /** One step of any kind but the cleanup. */
  lemma StepAges(c: Config, s: State, e: Event, h: Ptr)
    requires Good(c, s, false) && Fresh(s, e) && h in s.mem.hosts && !e.Cleanup?
    ensures Aged(c, s.mem.hosts[h], Step(c, s, e).mem, h, Credits(c, s, e, h), CreditTime(s, e), e)
  {
    BeforeSeen(c, s, e, h);
    hide Good, BeforePurge, Step, PurgeIdle, Credits, Fresh, Aged, CreditTime;
    if BeforePurge(c, s, e).Some? {
      PurgesIs(c, s, e);
      PurgeAges(c, s.mem.hosts[h], BeforePurge(c, s, e).value, h, Credits(c, s, e, h), CreditTime(s, e), e);
      SameAged(c, s.mem.hosts[h], BeforePurge(c, s, e).value.mem, Step(c, s, e).mem, h, Credits(c, s, e, h),
        CreditTime(s, e), e);
    } else {
      NoPurgeAges(c, s.mem.hosts[h], Step(c, s, e).mem, h, Credits(c, s, e, h), CreditTime(s, e), e);
    }
  }

  lemma SameAged(c: Config, k: Host, m: Mem, n: Mem, h: Ptr, credited: bool, when: nat, e: Event)
    requires Aged(c, k, m, h, credited, when, e)
    ensures m == n ==> Aged(c, k, n, h, credited, when, e)
  {
  }

  lemma NoPurgeAges(c: Config, k: Host, n: Mem, h: Ptr, credited: bool, when: nat, e: Event)
    requires h in n.hosts && (if credited then Seen(k, n.hosts[h], when) else SameSeen(k, n.hosts[h]))
    ensures Aged(c, k, n, h, credited, when, e)
  {
  }

  // ----- runs -----

  /** A host that is exempt stays in memory, the same host, until there is a cleanup, whatever happens. */
  lemma {:induction false} ExemptStays(c: Config, s: State, es: seq<Event>, h: Ptr)
    requires Good(c, s, false) && Feasible(c, s, es) && Manageable(c, s, es) && Cleanup !in es
    requires h in s.mem.hosts && Exempt(c, s.mem.hosts[h].id)
    ensures var t := Run(c, s, es); h in t.mem.hosts && t.mem.hosts[h].id == s.mem.hosts[h].id
    decreases |es|
  {
    hide Good, Step, Fresh, Uncrowded, Credits;
    if es != [] {
      assert es[0] in es;
      StepGood(c, s, es[0], false);
      StepAges(c, s, es[0], h);
      forall e | e in es[1..] ensures e in es {
      }
      ExemptStays(c, Step(c, s, es[0]), es[1..], h);
    }
  }

  /** Labels are those of the preferences: layer 2 hosts are local, other hosts are what their address is. */
  ghost predicate Labelled(c: Config, m: Mem) { forall h :: h in m.hosts ==> LabelRight(c, m.hosts[h].id) }

  predicate LabelRight(c: Config, id: Identity) {
    match id.ip
    case Some(ip) => id.local == c.isLocal(ip) && id.system == c.isSystem(ip)
    case None => id.local && !id.system
  }

  /** Whoever is new has just been seen, and is labelled right. */
  predicate NewRight(c: Config, n: Mem, h: Ptr, now: nat) {
    h in n.hosts ==>
      LabelRight(c, n.hosts[h].id) && n.hosts[h].firstSeen == now == n.hosts[h].lastSeen
  }

  lemma ObtainNew(c: Config, s: State, vlan: u16, mac: Mac, ip: Ip, k: Ptr, h: Ptr)
    requires Shaped(s) && k !in s.mem.hosts && h !in s.mem.hosts
    ensures NewRight(c, ObtainHost(c, s, vlan, mac, ip, k).0.mem, h, s.now)
    ensures NewRight(c, ObtainStation(c, s, vlan, mac, k).0.mem, h, s.now)
  {
    hide Size, FindHost, FindStation;
  }

  lemma NewKept(c: Config, m: Mem, n: Mem, h: Ptr, now: nat)
    requires NewRight(c, m, h, now) && HostSameOrGone(m, n, h)
    ensures NewRight(c, n, h, now)
  {
  }

  lemma JoinNew(c: Config, s: State, f: Flow, p: Ptr, h: Ptr)
    requires Shaped(s)
    ensures HostSameOrGone(s.mem, JoinFlow(c, s, f, p).s.mem, h)
  {
    UsesTwiceHost(s.mem, f.cli, f.srv, 1, h);
    DeleteFlowHost(NewFlow(s.mem, p, f), p, h);
    hide AddUses, Size, FlowKey, DeleteFlow;
  }

  lemma GetNew(c: Config, s: State, t: Tuple, first: nat, last: nat, a: Alloc, h: Ptr)
    requires Shaped(s) && a.src !in s.mem.hosts && a.dst !in s.mem.hosts && a.src != a.dst && h !in s.mem.hosts
    ensures NewRight(c, GetFlow(c, s, t, first, last, a).s.mem, h, s.now)
  {
    hide ObtainHost, FindFlow, Forward, JoinFlow, NewRight, HostSameOrGone;
    ObtainNew(c, s, t.vlan, t.srcMac, t.src, a.src, h);
    var (s1, k) := ObtainHost(c, s, t.vlan, t.srcMac, t.src, a.src);
    ObtainKeys(c, s, t.vlan, t.srcMac, t.src, a.src);
    if k.Some? {
      var s2 := ObtainHost(c, s1, t.vlan, t.dstMac, t.dst, a.dst).0;
      if h in s1.mem.hosts {
        ObtainHostSame(c, s1, t.vlan, t.dstMac, t.dst, a.dst, h);
        SameKept(c, s1.mem, s2.mem, h, s.now);
      } else {
        ObtainNew(c, s1, t.vlan, t.dstMac, t.dst, a.dst, h);
      }
    }
    var (s2, cli, srv) := FindFlowHosts(c, s, t, a);
    NothingNew(c, s.mem, h, s.now);
    assert NewRight(c, s2.mem, h, s.now);
    JoinNew(c, s2, FreshFlow(t, cli, srv, first, last), a.flow, h);
    NewKept(c, s2.mem, JoinFlow(c, s2, FreshFlow(t, cli, srv, first, last), a.flow).s.mem, h, s.now);
  }

  lemma NothingNew(c: Config, m: Mem, h: Ptr, now: nat)
    requires h !in m.hosts
    ensures NewRight(c, m, h, now)
  {
  }

  lemma SameKept(c: Config, m: Mem, n: Mem, h: Ptr, now: nat)
    requires h in m.hosts && HostSame(m, n, h) && NewRight(c, m, h, now)
    ensures NewRight(c, n, h, now)
  {
  }

  lemma ObtainKeys(c: Config, s: State, vlan: u16, mac: Mac, ip: Ip, k: Ptr)
    requires Shaped(s) && k !in s.mem.hosts
    ensures ObtainHost(c, s, vlan, mac, ip, k).0.mem.hosts.Keys <= s.mem.hosts.Keys + {k}
    ensures ObtainStation(c, s, vlan, mac, k).0.mem.hosts.Keys <= s.mem.hosts.Keys + {k}
    ensures ObtainHost(c, s, vlan, mac, ip, k).0.now == s.now && ObtainStation(c, s, vlan, mac, k).0.now == s.now
  {
    hide Size, FindHost, FindStation;
  }

  lemma Layer2New(c: Config, s: State, e: Event, h: Ptr)
    requires Shaped(s) && e.Layer2? && Fresh(s, e) && h !in s.mem.hosts
    ensures NewRight(c, BeforePurge(c, s, e).value.mem, h, e.ts)
  {
    var s0 := s.(now := e.ts);
    var (s1, src) := ObtainStation(c, s0, e.vlan, e.srcMac, e.a.src);
    var (s2, dst) := ObtainStation(c, s1, e.vlan, e.dstMac, e.a.dst);
    ObtainNew(c, s0, e.vlan, e.srcMac, ZERO_IP, e.a.src, h);
    ObtainKeys(c, s0, e.vlan, e.srcMac, ZERO_IP, e.a.src);
    hide ObtainStation, DirectCredit, NewRight;
    if h in s1.mem.hosts {
      StationSame(c, s1, e.vlan, e.dstMac, e.a.dst, h);
      SameKept(c, s1.mem, s2.mem, h, e.ts);
    } else {
      ObtainNew(c, s1, e.vlan, e.dstMac, ZERO_IP, e.a.dst, h);
    }
    var d1, d2 := Duplex(Traffic(1, e.len), NO_TRAFFIC), Duplex(NO_TRAFFIC, Traffic(1, e.len));
    DirectNew(c, s2.mem, src, d1, e.ts, h);
    DirectNew(c, DirectCredit(s2.mem, src, d1, e.ts), dst, d2, e.ts, h);
  }

  lemma DirectNew(c: Config, m: Mem, k: Ptr, d: Duplex, now: nat, h: Ptr)
    requires NewRight(c, m, h, now) && (d.sent.pkts != 0 || d.rcvd.pkts != 0)
    ensures NewRight(c, DirectCredit(m, k, d, now), h, now)
  {
    if h in m.hosts {
      DirectSeen(m, k, d, now, h);
    } else {
      DirectKeys(m, k, d, now);
    }
    hide DirectCredit;
  }

  lemma DirectKeys(m: Mem, k: Ptr, d: Duplex, now: nat)
    ensures DirectCredit(m, k, d, now).hosts.Keys == m.hosts.Keys
  {
  }

  /** The clock at which an event makes new hosts. */
  function NewTime(s: State, e: Event): nat {
    match e
    case Packet(ts, _, _, _, _) => ts
    case Record(_, last, _, _, _, _, _) => if last > s.now then last else s.now
    case Layer2(ts, _, _, _, _, _) => ts
    case _ => s.now
  }

  lemma BeforeNew(c: Config, s: State, e: Event, h: Ptr)
    requires Good(c, s, false) && Fresh(s, e) && h !in s.mem.hosts && !e.Cleanup?
    ensures var x := BeforePurge(c, s, e);
      NewRight(c, if x.Some? then x.value.mem else Step(c, s, e).mem, h, NewTime(s, e))
  {
    hide Good, GetFlow, PurgeIdle, CountPacket, CountRecord, ObtainStation, DirectCredit, UpdateAll, NewRight;
    match e {
      case Packet(ts, t, len, flags, a) =>
        var g := GetFlow(c, s.(now := ts), t, ts, ts, a);
        GetNew(c, s.(now := ts), t, ts, ts, a, h);
        CountSame(g, t, len, flags, NO_TRAFFIC, NO_TRAFFIC, ts);
        HostsNew(c, g.s.mem, CountPacket(g, t, len, flags).mem, h, ts);
      case Record(first, last, t, flags, into, out, a) =>
        var s0 := s.(now := if last > s.now then last else s.now);
        var g := GetFlow(c, s0, t, first, last, a);
        GetNew(c, s0, t, first, last, a, h);
        CountSame(g, t, 0, flags, into, out, last);
        HostsNew(c, g.s.mem, CountRecord(g, t, flags, into, out, last).mem, h, s0.now);
      case Layer2(_, _, _, _, _, _) => Layer2New(c, s, e, h);
      case Other(_) => NothingNew(c, s.mem, h, s.now);
      case Skipped(_) => NothingNew(c, s.mem, h, s.now);
      case Poll(_) => NothingNew(c, s.mem, h, s.now);
      case Housekeeping =>
        WalkKeys(c, s);
        NothingNew(c, UpdateHostStats(c, s).mem, h, s.now);
    }
  }

  lemma HostsNew(c: Config, m: Mem, n: Mem, h: Ptr, now: nat)
    requires NewRight(c, m, h, now) && n.hosts == m.hosts
    ensures NewRight(c, n, h, now)
  {
  }

  lemma WalkKeys(c: Config, s: State)
    requires Good(c, s, false)
    ensures UpdateHostStats(c, s).mem.hosts.Keys <= s.mem.hosts.Keys
  {
    hide HostTable, RefsAttached, Sound, Unique, NoDup, UpdateAll, FlowKey;
    AllKeys(c, s.now, s.mem, Flatten(s.ftab.buckets));
  }

  lemma {:induction false} AllKeys(c: Config, now: nat, m: Mem, ps: seq<Ptr>)
    ensures UpdateAll(c, now, m, ps).hosts.Keys == m.hosts.Keys
    decreases |ps|
  {
    hide UpdateHostsStats;
    if ps != [] {
      OneKeys(m, ps[0], now);
      AllKeys(c, now,
        if ps[0] in m.flows && FlowIdle(c, now, m.flows[ps[0]]) then m else UpdateHostsStats(m, ps[0], now), ps[1..]);
    }
  }

  lemma OneKeys(m: Mem, p: Ptr, now: nat)
    ensures UpdateHostsStats(m, p, now).hosts.Keys == m.hosts.Keys
  {
  }

  /** A host that a step adds is labelled as the preferences say and was first and last seen at its time. */
  lemma StepNew(c: Config, s: State, e: Event, h: Ptr)
    requires Good(c, s, false) && Fresh(s, e) && h !in s.mem.hosts && !e.Cleanup?
    ensures NewRight(c, Step(c, s, e).mem, h, NewTime(s, e))
  {
    BeforeNew(c, s, e, h);
    hide Good, BeforePurge, Step, PurgeIdle, NewRight, HostSameOrGone;
    if BeforePurge(c, s, e).Some? {
      PurgesIs(c, s, e);
      var x := BeforePurge(c, s, e).value;
      if c.purge {
        PurgeSame(c, x, PurgeWhen(e), h);
        NewKept(c, x.mem, PurgeIdle(c, x, PurgeWhen(e)).mem, h, NewTime(s, e));
      }
    }
  }

  /** The cleanup changes no host that it leaves. */
  lemma CleanupSame(s: State, h: Ptr)
    requires Shaped(s)
    ensures HostSameOrGone(s.mem, CleanupAll(s).mem, h)
  {
    DeleteFlowsHost(s.mem, Flatten(s.ftab.buckets), h);
    DeleteHostsHost(DeleteFlows(s.mem, Flatten(s.ftab.buckets)), Flatten(s.htab.buckets), h);
    hide DeleteFlows, DeleteHosts;
  }

  lemma CleanupStep(c: Config, s: State)
    requires Shaped(s)
    ensures Step(c, s, Cleanup) == CleanupAll(s)
  {
  }

  lemma StepLabel(c: Config, s: State, e: Event, h: Ptr)
    requires Good(c, s, false) && Fresh(s, e) && h in Step(c, s, e).mem.hosts
    requires h in s.mem.hosts ==> LabelRight(c, s.mem.hosts[h].id)
    ensures LabelRight(c, Step(c, s, e).mem.hosts[h].id)
  {
    hide Good, Step, Fresh, Credits, LabelRight, CleanupAll;
    if e.Cleanup? {
      CleanupStep(c, s);
      CleanupSame(s, h);
    } else if h in s.mem.hosts {
      StepAges(c, s, e, h);
    } else {
      StepNew(c, s, e, h);
    }
  }

  /** In every run hosts are labelled as the preferences say. */
  lemma {:induction false} RunLabelled(c: Config, s: State, es: seq<Event>)
    requires Good(c, s, false) && Feasible(c, s, es) && Manageable(c, s, es) && Labelled(c, s.mem)
    ensures Labelled(c, Run(c, s, es).mem)
    decreases |es|
  {
    hide Good, Step, Fresh, Uncrowded, LabelRight;
    if es != [] {
      var t := Step(c, s, es[0]);
      StepGood(c, s, es[0], false);
      forall h | h in t.mem.hosts ensures LabelRight(c, t.mem.hosts[h].id) {
        StepLabel(c, s, es[0], h);
      }
      RunLabelled(c, t, es[1..]);
    }
  }

  // ----- obtaining hosts -----

  /** A host found by address is live and has that VLAN and address; if none is found, none in the table
      is like that. */
  lemma FindHostMeans(c: Config, s: State, vlan: u16, ip: Ip)
    requires Good(c, s, false)
    ensures match FindHost(c, s, vlan, ip)
      case Found(h) =>
        && Attached(s.mem, s.htab, h) && !HostIdle(c, s.now, s.mem.hosts[h])
        && s.mem.hosts[h].id.vlan == vlan && s.mem.hosts[h].id.ip.Some? && Same(s.mem.hosts[h].id.ip.value, ip)
      case NotFound =>
        forall h ::
          Attached(s.mem, s.htab, h) && !HostIdle(c, s.now, s.mem.hosts[h]) && s.mem.hosts[h].id.vlan == vlan ==>
          s.mem.hosts[h].id.ip.None? || !Same(s.mem.hosts[h].id.ip.value, ip)
  {
    hide Sound, FlowTable, RefsAttached, Unique, HostIdle, NoDup, FindHost;
    FindHostComplete(c, s, vlan, ip);
  }

  /** The same for hosts found by MAC address. */
  lemma FindStationMeans(c: Config, s: State, vlan: u16, mac: Mac)
    requires Good(c, s, false)
    ensures match FindStation(c, s, vlan, mac)
      case Found(h) =>
        && Attached(s.mem, s.htab, h) && !HostIdle(c, s.now, s.mem.hosts[h])
        && s.mem.hosts[h].id.vlan == vlan && s.mem.hosts[h].id.ip.None? && s.mem.hosts[h].id.mac == mac
      case NotFound =>
        forall h ::
          Attached(s.mem, s.htab, h) && !HostIdle(c, s.now, s.mem.hosts[h]) && s.mem.hosts[h].id.vlan == vlan ==>
          s.mem.hosts[h].id.ip.Some? || s.mem.hosts[h].id.mac != mac
  {
    hide Sound, FlowTable, RefsAttached, Unique, HostIdle, NoDup, FindStation;
    FindStationComplete(c, s, vlan, mac);
  }

  /** A host that is not found is made from the tuple if there is room, and not at all otherwise. */
  lemma ObtainHostExact(c: Config, s: State, vlan: u16, mac: Mac, ip: Ip, h: Ptr)
    requires Shaped(s) && h !in s.mem.hosts
    ensures var (t, r), found := ObtainHost(c, s, vlan, mac, ip, h), FindHost(c, s, vlan, ip);
      && (found.Found? ==> t == s && r == Some(found.item))
      && (found.NotFound? && Size(s.htab.buckets) < c.maxHosts ==>
           var id := Identity(vlan, Some(ip), mac, c.isLocal(ip), c.isSystem(ip));
           r == Some(h) && t.mem.hosts == s.mem.hosts[h := Host(id, 0, s.now, s.now, NO_STATS)])
      && (found.NotFound? && Size(s.htab.buckets) < c.maxHosts ==>
           Size(t.htab.buckets) == Size(s.htab.buckets) + 1)
      && (found.NotFound? && Size(s.htab.buckets) >= c.maxHosts ==>
           r == None && t.mem.hosts == s.mem.hosts && t.htab == s.htab)
  {
    hide Size, FindHost, HostKey;
    var id := IpIdentity(c, vlan, mac, ip);
    InsertGrows(s.htab, HostKey(id) % |s.htab.buckets|, h);
    assert s.mem.hosts[h := Host(id, 0, s.now, s.now, NO_STATS)] - {h} == s.mem.hosts;
  }

  /** The server is obtained only if the client was. */
  lemma FindFlowHostsExact(c: Config, s: State, t: Tuple, a: Alloc)
    requires Shaped(s)
    ensures var (s2, cli, srv) := FindFlowHosts(c, s, t, a);
      var (s1, first) := ObtainHost(c, s, t.vlan, t.srcMac, t.src, a.src);
      && cli == first
      && (if cli.None? then srv.None? && s2 == s1
          else (s2, srv) == ObtainHost(c, s1, t.vlan, t.dstMac, t.dst, a.dst))
  {
    hide ObtainHost;
  }

  // ----- flows first, then hosts -----

  /** The flow is idle at that time and the next sweep comes to it. */
  ghost predicate FlowDue(c: Config, s: State, when: nat, p: Ptr)
    requires Shaped(s) && p in s.mem.flows
  {
    && FlowIdle(c, when, s.mem.flows[p])
    && Ahead(s.ftab, FlowKey(s.mem.hosts, s.mem.flows[p]) % |s.ftab.buckets|) < Quota(|s.ftab.buckets|)
  }

  /** The host would be idle at that time if nothing used it, and the next sweep comes to it. */
  ghost predicate HostDue(c: Config, s: State, when: nat, h: Ptr)
    requires Shaped(s)
  {
    && Attached(s.mem, s.htab, h) && HostIdle(c, when, s.mem.hosts[h].(uses := 0))
    && Ahead(s.htab, HostKey(s.mem.hosts[h].id) % |s.htab.buckets|) < Quota(|s.htab.buckets|)
  }

  lemma DueGoes(c: Config, s: State, p: Ptr)
    requires Safe(c, s) && p in s.mem.flows && FlowDue(c, s, s.now, p)
    ensures p !in SweepFlows(c, s).mem.flows
  {
    SweepFlowsExact(c, s, p);
    hide Safe, FlowIdle, FlowKey, SweepFlows;
  }

  lemma SweepSubset(c: Config, s: State)
    requires Shaped(s)
    ensures var t := SweepFlows(c, s); t.htab == s.htab && t.now == s.now && t.nextHost == s.nextHost
  {
    hide Swept, Sweep, IdleFlows, DeleteFlows;
  }

  lemma Unused(m: Mem, h: Ptr)
    requires Counted(m) && h in m.hosts
    requires forall p :: p in m.flows ==> m.flows[p].cli != Some(h) && m.flows[p].srv != Some(h)
    ensures m.hosts[h].uses == 0
  {
    TotalNone(m.flows, Refs, h);
  }

  lemma SafeParts(c: Config, s: State, t: State, h: Ptr)
    requires Safe(c, s) && h in s.mem.hosts && t == SweepFlows(c, s)
    ensures Counted(t.mem) && h in t.mem.hosts && t.mem.hosts[h] == s.mem.hosts[h].(uses := t.mem.hosts[h].uses)
    ensures forall p :: p in t.mem.flows ==> p in s.mem.flows && t.mem.flows[p] == s.mem.flows[p]
  {
    SweepFlowsSound(c, s);
    hide Tabled, Conserved, NoDangling, Counted, SweepFlows, SetOf, Swept;
  }

  /** When all flows of the host go, it is left without references. */
  lemma FlowsGo(c: Config, s: State, h: Ptr)
    requires Good(c, s, true) && Light(s.mem) && h in s.mem.hosts
    requires forall p :: p in s.mem.flows && RefersTo(s.mem.flows[p], h) ==> FlowDue(c, s, s.now, p)
    ensures var t := SweepFlows(c, s);
      && Good(c, t, true) && Light(t.mem) && h in t.mem.hosts && t.mem.hosts[h] == s.mem.hosts[h].(uses := 0)
      && t.htab == s.htab && t.now == s.now && t.nextHost == s.nextHost
  {
    GoodIsSafe(c, s);
    hide Good, Safe, Light, FlowDue, SweepFlows, Counted;
    var t := SweepFlows(c, s);
    SweepFlowsGood(c, s, true);
    SafeParts(c, s, t, h);
    SweepSubset(c, s);
    forall p | p in t.mem.flows ensures t.mem.flows[p].cli != Some(h) && t.mem.flows[p].srv != Some(h) {
      if RefersTo(s.mem.flows[p], h) {
        DueGoes(c, s, p);
      }
    }
    Unused(t.mem, h);
  }

  lemma GoodIsSafe(c: Config, s: State)
    requires Good(c, s, true)
    ensures Safe(c, s) && Shaped(s)
  {
    hide Safe;
  }

  lemma FlowsFirst(c: Config, s: State)
    requires Good(c, s, true) && c.purge && 0 < s.nextFlow <= s.now && 0 < s.nextHost <= s.now
    ensures var t := SweepFlows(c, s).(nextFlow := s.now + FLOW_PURGE_FREQUENCY);
      PurgeFlows(c, s) == t && t.nextHost == s.nextHost && t.now == s.now && t.htab == s.htab
    ensures Shaped(s) && PurgeIdle(c, s, s.now) == PurgeHosts(c, PurgeFlows(c, s))
  {
    hide Sweep, Swept, DeleteFlows, IdleFlows, PurgeHosts;
    assert s.(now := s.now) == s;
  }

  lemma HostsNext(c: Config, s: State)
    requires Shaped(s) && 0 < s.nextHost <= s.now
    ensures PurgeHosts(c, s).mem == SweepHosts(c, s).mem
  {
    hide SweepHosts;
  }

  /** A purge sweeps flows first: a host whose last flows it deletes is freed in the same purge. */
  lemma PurgeFreesBoth(c: Config, s: State, h: Ptr)
    requires Good(c, s, true) && Light(s.mem) && c.purge
    requires 0 < s.nextFlow <= s.now && 0 < s.nextHost <= s.now && HostDue(c, s, s.now, h)
    requires forall p :: p in s.mem.flows && RefersTo(s.mem.flows[p], h) ==> FlowDue(c, s, s.now, p)
    ensures h !in PurgeIdle(c, s, s.now).mem.hosts
  {
    FlowsGo(c, s, h);
    FlowsFirst(c, s);
    hide Good, Light, FlowIdle, HostIdle, FlowKey, HostKey, SweepFlows, SweepHosts, FlowDue, PurgeFlows, PurgeHosts;
    hide PurgeIdle;
    var t := SweepFlows(c, s);
    var s2 := t.(nextFlow := s.now + FLOW_PURGE_FREQUENCY);
    TimersGood(c, t, s2.nextFlow, t.nextHost, true);
    assert t.(nextFlow := s2.nextFlow, nextHost := t.nextHost) == s2;
    GoodIsSafe(c, s2);
    SweepHostsExact(c, s2, h);
    HostsNext(c, s2);
  }
}
