/** When the tables are swept: as soon as an event that purges comes a second or more after the last
    sweep, and never twice within a second. */
module LifecycleTimers {
  import opened Addresses
  import opened HashTable
  import opened Memory
  import opened Lifecycle
  import opened LifecycleProof
  import opened LifecycleEffects

  /** The two tables and their timers. */
  datatype Which = Flows | Hosts

  function Tab(s: State, w: Which): Table<Ptr> { if w == Flows then s.ftab else s.htab }

  function Timer(s: State, w: Which): nat { if w == Flows then s.nextFlow else s.nextHost }

  /** The time that an event purges at; none if it does not purge. */
  function PurgeAt(c: Config, s: State, e: Event): Option<nat>
    requires Shaped(s)
  {
    if !c.purge then None
    else
      match e
      case Packet(ts, _, _, _, _) => Some(ts)
      case Record(first, last, t, _, _, _, a) =>
        var g := GetFlow(c, s.(now := if last > s.now then last else s.now), t, first, last, a);
        if g.flow.Some? then Some(last) else None
      case Layer2(ts, _, _, _, _, _) => Some(ts)
      case Other(ts) => Some(ts)
      case Poll(when) => Some(when)
      case _ => None
  }

  /** The sweep has moved on: for a table of at least 32 buckets that is what a sweep does. */
  predicate Turned(s: State, t: State, w: Which) { Tab(t, w).lastPurged != Tab(s, w).lastPurged }

  lemma SweepTurns(tab: Table<Ptr>, idle: Ptr -> bool)
    requires WellFormed(tab) && |tab.buckets| >= 32
    ensures Sweep(tab, idle).lastPurged != tab.lastPurged && |Sweep(tab, idle).buckets| == |tab.buckets|
  {
    QuotaFits(|tab.buckets|);
    SweepFilters(tab, idle, Quota(|tab.buckets|));
  }

  lemma PurgeFlowsTimer(c: Config, s: State)
    requires Shaped(s) && |s.ftab.buckets| >= 32
    ensures var t, due := PurgeFlows(c, s), s.nextFlow != 0 && s.now >= s.nextFlow;
      && t.nextFlow == (if due || s.nextFlow == 0 then s.now + 1 else s.nextFlow) && (Turned(s, t, Flows) <==> due)
      && t.htab == s.htab && t.nextHost == s.nextHost && t.now == s.now && |t.ftab.buckets| == |s.ftab.buckets|
  {
    SweepTurns(s.ftab, IdleFlows(c, s));
    hide Sweep, Swept, DeleteFlows, IdleFlows;
  }

  lemma PurgeHostsTimer(c: Config, s: State)
    requires Shaped(s) && |s.htab.buckets| >= 32
    ensures var t, due := PurgeHosts(c, s), s.nextHost != 0 && s.now >= s.nextHost;
      && t.nextHost == (if due || s.nextHost == 0 then s.now + 1 else s.nextHost) && (Turned(s, t, Hosts) <==> due)
      && t.ftab == s.ftab && t.nextFlow == s.nextFlow && t.now == s.now && |t.htab.buckets| == |s.htab.buckets|
  {
    SweepTurns(s.htab, IdleHosts(c, s));
    hide Sweep, Swept, DeleteHosts, IdleHosts;
  }

  /** Both tables have at least 32 buckets. */
  predicate Large(s: State) { Shaped(s) && |s.ftab.buckets| >= 32 && |s.htab.buckets| >= 32 }

  /** A purge at time x sweeps a table if and only if its timer is set and not after x, and then sets the
      timer to the next second; a timer that was not set is set too. */
  lemma PurgeTimer(c: Config, s: State, x: nat, w: Which)
    requires Large(s) && c.purge
    ensures var t, due := PurgeIdle(c, s, x), Timer(s, w) != 0 && x >= Timer(s, w);
      && Timer(t, w) == (if due || Timer(s, w) == 0 then x + 1 else Timer(s, w))
      && (Turned(s, t, w) <==> due) && Large(t) && t.now == x
  {
    hide PurgeFlows, PurgeHosts;
    var s1 := s.(now := x);
    PurgeFlowsTimer(c, s1);
    PurgeHostsTimer(c, PurgeFlows(c, s1));
  }

  /** What comes before the purge moves neither sweeps nor timers. */
  predicate SamePace(s: State, t: State) {
    && t.nextFlow == s.nextFlow && t.nextHost == s.nextHost
    && t.ftab.lastPurged == s.ftab.lastPurged && t.htab.lastPurged == s.htab.lastPurged
    && |t.ftab.buckets| == |s.ftab.buckets| && |t.htab.buckets| == |s.htab.buckets|
  }

  lemma HostPace(c: Config, s: State, vlan: u16, mac: Mac, ip: Ip, h: Ptr)
    requires Shaped(s)
    ensures SamePace(s, ObtainHost(c, s, vlan, mac, ip, h).0) && SamePace(s, ObtainStation(c, s, vlan, mac, h).0)
  {
    hide Size, FindHost, FindStation, NewHost, DeleteHost, HostKey;
  }

  lemma JoinPace(c: Config, s: State, f: Flow, p: Ptr)
    requires Shaped(s)
    ensures SamePace(s, JoinFlow(c, s, f, p).s)
  {
    hide Size, NewFlow, DeleteFlow, FlowKey;
  }

  lemma PaceVia(s: State, t: State, u: State)
    requires SamePace(s, t) && SamePace(t, u)
    ensures SamePace(s, u)
  {
  }

  lemma GetPace(c: Config, s: State, t: Tuple, first: nat, last: nat, a: Alloc)
    requires Shaped(s)
    ensures SamePace(s, GetFlow(c, s, t, first, last, a).s)
  {
    hide ObtainHost, FindFlow, Forward, JoinFlow, SamePace;
    HostPace(c, s, t.vlan, t.srcMac, t.src, a.src);
    var s1 := ObtainHost(c, s, t.vlan, t.srcMac, t.src, a.src).0;
    HostPace(c, s1, t.vlan, t.dstMac, t.dst, a.dst);
    PaceVia(s, s1, ObtainHost(c, s1, t.vlan, t.dstMac, t.dst, a.dst).0);
    var (s2, cli, srv) := FindFlowHosts(c, s, t, a);
    assert SamePace(s, s2);
    JoinPace(c, s2, FreshFlow(t, cli, srv, first, last), a.flow);
    PaceVia(s, s2, JoinFlow(c, s2, FreshFlow(t, cli, srv, first, last), a.flow).s);
    SamePaceSelf(s);
  }

  lemma SamePaceSelf(s: State)
    ensures SamePace(s, s)
  {
  }

  lemma CountPace(g: Got, t: Tuple, len: nat, flags: bv8, into: Traffic, out: Traffic, last: nat)
    requires Shaped(g.s)
    ensures SamePace(g.s, CountPacket(g, t, len, flags)) && Shaped(CountPacket(g, t, len, flags))
    ensures SamePace(g.s, CountRecord(g, t, flags, into, out, last))
    ensures Shaped(CountRecord(g, t, flags, into, out, last))
  {
  }

  lemma BeforePace(c: Config, s: State, e: Event)
    requires Shaped(s)
    ensures var x := BeforePurge(c, s, e);
      && (x.Some? ==> Shaped(x.value) && SamePace(s, x.value))
      && (x.None? && e.Record? ==> SamePace(s, Step(c, s, e)))
  {
    hide GetFlow, ObtainStation, CountPacket, CountRecord, DirectCredit, PurgeIdle;
    match e {
      case Packet(ts, t, len, flags, a) =>
        GetPace(c, s.(now := ts), t, ts, ts, a);
        CountPace(GetFlow(c, s.(now := ts), t, ts, ts, a), t, len, flags, NO_TRAFFIC, NO_TRAFFIC, ts);
      case Record(first, last, t, flags, into, out, a) =>
        var s0 := s.(now := if last > s.now then last else s.now);
        GetPace(c, s0, t, first, last, a);
        CountPace(GetFlow(c, s0, t, first, last, a), t, 0, flags, into, out, last);
      case Layer2(ts, vlan, srcMac, dstMac, len, a) =>
        HostPace(c, s.(now := ts), vlan, srcMac, ZERO_IP, a.src);
        HostPace(c, ObtainStation(c, s.(now := ts), vlan, srcMac, a.src).0, vlan, dstMac, ZERO_IP, a.dst);
      case Other(_) =>
      case Skipped(_) =>
      case Poll(_) =>
      case Housekeeping =>
      case Cleanup =>
    }
  }

  lemma StepPurgesAt(c: Config, s: State, e: Event)
    requires Shaped(s)
    ensures var x, y := PurgeAt(c, s, e), BeforePurge(c, s, e);
      && (x.Some? ==> c.purge && y.Some? && Shaped(y.value) && Step(c, s, e) == PurgeIdle(c, y.value, x.value))
      && (x.None? && y.Some? ==> Shaped(y.value) && (Step(c, s, e) == y.value || Step(c, s, e) == s))
      && (y.None? ==> x.None? && (e.Record? || e.Skipped? || e.Housekeeping? || e.Cleanup?))
  {
    BeforePace(c, s, e);
    hide GetFlow, ObtainStation, CountPacket, CountRecord, DirectCredit, SweepFlows, SweepHosts;
    if e.Poll? && c.purge {
      assert PurgeIdle(c, s, e.when) == PurgeIdle(c, s.(now := e.when), e.when);
    }
  }

  /** A sweep is followed by a timer for the next second. Nothing else moves sweep or timer, except that
      the first purge sets the timer and the cleanup unsets it. */
  lemma StepTimer(c: Config, s: State, e: Event, w: Which)
    requires Large(s)
    ensures var t, x := Step(c, s, e), PurgeAt(c, s, e);
      var due := x.Some? && Timer(s, w) != 0 && x.value >= Timer(s, w);
      && Large(t) && (Turned(s, t, w) <==> due)
      && Timer(t, w) == (if e.Cleanup? then 0
                         else if due || (x.Some? && Timer(s, w) == 0) then x.value + 1 else Timer(s, w))
  {
    BeforePace(c, s, e);
    StepPurgesAt(c, s, e);
    hide BeforePurge, PurgeIdle, UpdateAll;
    var x, y := PurgeAt(c, s, e), BeforePurge(c, s, e);
    if x.Some? {
      hide Step, PurgeAt;
      PurgeTimer(c, y.value, x.value, w);
    } else if y.None? && !e.Record? {
      hide PurgeAt;
      QuietTimer(c, s, e);
    } else {
      hide Step, PurgeAt;
    }
  }

  lemma QuietTimer(c: Config, s: State, e: Event)
    requires Large(s) && (e.Skipped? || e.Housekeeping? || e.Cleanup?)
    ensures var t := Step(c, s, e);
      && Large(t) && t.ftab.lastPurged == s.ftab.lastPurged && t.htab.lastPurged == s.htab.lastPurged
      && (if e.Cleanup? then t.nextFlow == 0 == t.nextHost else t.nextFlow == s.nextFlow && t.nextHost == s.nextHost)
  {
    hide UpdateAll, DeleteFlows, DeleteHosts;
  }

  /** From the time of the last sweep on, if there was one (the first purge counts for one), the run
      sweeps exactly when an event purges at least a second later. */
  ghost predicate Paced(c: Config, s: State, es: seq<Event>, w: Which, last: Option<nat>)
    requires Shaped(s)
    decreases |es|
  {
    es == [] ||
    (var e, t, x := es[0], Step(c, s, es[0]), PurgeAt(c, s, es[0]);
     && (Turned(s, t, w) <==> x.Some? && last.Some? && x.value >= last.value + 1)
     && Paced(c, t, es[1..], w, if e.Cleanup? then None else if Turned(s, t, w) || last.None? then x else last))
  }

  lemma {:induction false} RunPaced(c: Config, s: State, es: seq<Event>, w: Which, last: Option<nat>)
    requires Large(s) && Timer(s, w) == match last case None => 0 case Some(x) => x + 1
    ensures Paced(c, s, es, w, last)
    decreases |es|
  {
    hide Step, PurgeAt;
    if es != [] {
      var e, t, x := es[0], Step(c, s, es[0]), PurgeAt(c, s, es[0]);
      StepTimer(c, s, e, w);
      CleanupQuiet(c, s, e);
      RunPaced(c, t, es[1..], w, if e.Cleanup? then None else if Turned(s, t, w) || last.None? then x else last);
    }
  }

  lemma CleanupQuiet(c: Config, s: State, e: Event)
    requires Shaped(s)
    ensures e.Cleanup? ==> PurgeAt(c, s, e).None?
  {
  }

  /** From the start, whatever the times of the events are: a table is swept when an event purges a second
      or more after the last sweep, and at no other time. */
  lemma SweepsPaced(c: Config, es: seq<Event>, w: Which)
    requires c.flowBuckets >= 32 && c.hostBuckets >= 32
    ensures Paced(c, Initial(c), es, w, None)
  {
    RunPaced(c, Initial(c), es, w, None);
  }

  lemma {:induction false} TimerGrows(c: Config, s: State, es: seq<Event>, w: Which)
    requires Large(s) && Timer(s, w) > 0 && Cleanup !in es
    ensures Large(Run(c, s, es)) && Timer(Run(c, s, es), w) >= Timer(s, w)
    decreases |es|
  {
    hide Step, PurgeAt;
    if es != [] {
      assert es[0] in es;
      StepTimer(c, s, es[0], w);
      TimerGrows(c, Step(c, s, es[0]), es[1..], w);
    }
  }

  /** Two sweeps of one table are at least a second apart, as long as no cleanup restarts the clock. */
  lemma SweepsApart(c: Config, s: State, e: Event, between: seq<Event>, f: Event, w: Which)
    requires Large(s) && Cleanup !in [e] + between
    requires var t := Step(c, s, e); var u := Run(c, t, between);
      Turned(s, t, w) && Turned(u, Step(c, u, f), w)
    ensures var u := Run(c, Step(c, s, e), between);
      && PurgeAt(c, s, e).Some? && PurgeAt(c, u, f).Some?
      && PurgeAt(c, u, f).value >= PurgeAt(c, s, e).value + 1
  {
    hide Step, PurgeAt;
    var t := Step(c, s, e);
    assert ([e] + between)[0] == e;
    forall x | x in between ensures x in [e] + between {
    }
    StepTimer(c, s, e, w);
    TimerGrows(c, t, between, w);
    StepTimer(c, Run(c, t, between), f, w);
  }

  /** The clock after a step: the time of the packet or record, the latest one if a record finds no room;
      polls count only where something is purged, and the cleanup starts from zero. */
  lemma StepClock(c: Config, s: State, e: Event)
    requires Large(s)
    ensures Step(c, s, e).now ==
      match e
      case Packet(ts, _, _, _, _) => ts
      case Record(_, last, _, _, _, _, _) =>
        if PurgeAt(c, s, e).Some? then last else if last > s.now then last else s.now
      case Layer2(ts, _, _, _, _, _) => ts
      case Other(ts) => ts
      case Skipped(ts) => ts
      case Poll(when) => if c.purge then when else s.now
      case Housekeeping => s.now
      case Cleanup => 0
  {
    BeforePace(c, s, e);
    StepPurgesAt(c, s, e);
    hide GetFlow, ObtainStation, CountPacket, CountRecord, DirectCredit, PurgeIdle, UpdateAll;
    if PurgeAt(c, s, e).Some? {
      hide Step, PurgeAt;
      PurgeTimer(c, BeforePurge(c, s, e).value, PurgeAt(c, s, e).value, Flows);
      PurgeTimeOf(c, s, e);
    } else {
      QuietClock(c, s, e);
    }
  }

  lemma PurgeTimeOf(c: Config, s: State, e: Event)
    requires Shaped(s) && PurgeAt(c, s, e).Some?
    ensures e.Packet? || e.Record? || e.Layer2? || e.Other? || (e.Poll? && c.purge)
    ensures PurgeAt(c, s, e).value == match e
      case Packet(ts, _, _, _, _) => ts
      case Record(_, last, _, _, _, _, _) => last
      case Layer2(ts, _, _, _, _, _) => ts
      case Other(ts) => ts
      case Poll(when) => when
      case _ => 0
  {
    hide GetFlow;
  }

  lemma GetClock(c: Config, s: State, t: Tuple, first: nat, last: nat, a: Alloc)
    requires Shaped(s)
    ensures GetFlow(c, s, t, first, last, a).s.now == s.now
  {
    hide Size, FindFlow, FindHost, NewFlow, DeleteFlow, NewHost, DeleteHost, FlowKey, HostKey, Forward;
  }

  /** Steps that do not purge. */
  lemma QuietClock(c: Config, s: State, e: Event)
    requires Shaped(s) && PurgeAt(c, s, e).None?
    ensures Step(c, s, e).now ==
      match e
      case Packet(ts, _, _, _, _) => ts
      case Record(_, last, _, _, _, _, _) => if last > s.now then last else s.now
      case Layer2(ts, _, _, _, _, _) => ts
      case Other(ts) => ts
      case Skipped(ts) => ts
      case Poll(when) => s.now
      case Housekeeping => s.now
      case Cleanup => 0
  {
    hide GetFlow, ObtainStation, DirectCredit, PurgeFlows, PurgeHosts, UpdateAll, DeleteFlows, DeleteHosts;
    match e {
      case Packet(ts, t, _, _, a) => GetClock(c, s.(now := ts), t, ts, ts, a);
      case Record(first, last, t, _, _, _, a) =>
        GetClock(c, s.(now := if last > s.now then last else s.now), t, first, last, a);
      case Layer2(ts, vlan, srcMac, dstMac, _, a) => StationsClock(c, s.(now := ts), vlan, srcMac, dstMac, a);
      case _ =>
    }
  }

  lemma StationsClock(c: Config, s: State, vlan: u16, srcMac: Mac, dstMac: Mac, a: Alloc)
    requires Shaped(s)
    ensures var s1 := ObtainStation(c, s, vlan, srcMac, a.src).0;
      s1.now == s.now && ObtainStation(c, s1, vlan, dstMac, a.dst).0.now == s.now
  {
    hide Size, FindStation, HostKey;
  }
}
