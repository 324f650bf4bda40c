/** The rate alarm of ntopng/AlertCounter.cpp, against the history of its hits. */
module AlertCounter {
  import opened Addresses

  const ALERT_GRACE_PERIOD: int := 60

  /** The counter's fields; times are in seconds. */
  datatype Counter = Counter(
    maxHits: u16, duration: u8,
    lastHit: int, lastAlert: int, lastCross: int,
    crossed: u16, second: u16, total: u16)

  /** How many seconds over the threshold are tolerated: at least one. */
  function Patience(duration: u8): u8 { if duration < 1 then 1 else duration }

  function Fresh(maxHits: u16, duration: u8): Counter {
    Counter(maxHits, Patience(duration), 0, 0, 0, 0, 0, 0)
  }

  function Init(c: Counter): Counter { Fresh(c.maxHits, c.duration) }

  function Inc16(n: u16): u16 { (n + 1) % TWO_16 }

  /** The counter as this hit finds it. */
  function Begin(c: Counter, when: int): Counter {
    if c.lastHit < when - 1 then Init(c)
    else if c.lastHit == when - 1 then c.(second := 0)
    else c
  }

  /** incHits: the new counter, and whether it raises an alert. */
  function IncHits(c: Counter, when: int): (Counter, bool) {
    var b := Begin(c, when);
    var d := b.(second := Inc16(b.second), total := Inc16(b.total), lastHit := when);
    if d.second > d.maxHits && d.lastCross != when then
      var e := d.(crossed := Inc16(d.crossed), lastCross := when);
      var fires := e.crossed > e.duration && when > e.lastAlert + ALERT_GRACE_PERIOD;
      (if fires then e.(lastAlert := when) else e, fires)
    else (d, false)
  }

  function Run(h: seq<int>, maxHits: u16, duration: u8): Counter {
    if h == [] then Fresh(maxHits, duration) else IncHits(Run(h[..|h| - 1], maxHits, duration), h[|h| - 1]).0
  }

  /** The last hit of this history raises an alert. */
  predicate Alerts(h: seq<int>, maxHits: u16, duration: u8) {
    h != [] && IncHits(Run(h[..|h| - 1], maxHits, duration), h[|h| - 1]).1
  }

  // ----- the same, told from the history -----

  /** Times never go back, and are after the epoch. */
  ghost predicate Ordered(h: seq<int>) {
    (forall i :: 0 <= i < |h| ==> h[i] >= 1) && (forall i, j :: 0 <= i < j < |h| ==> h[i] <= h[j])
  }

  function Last(h: seq<int>): int
    requires h != []
  {
    h[|h| - 1]
  }

  /** Where the last burst starts: no two of its consecutive hits are more than a second apart. */
  function Start(h: seq<int>): (s: nat)
    requires h != []
    ensures s < |h| && (s > 0 ==> h[s] - h[s - 1] > 1) && forall i :: s < i < |h| ==> h[i] - h[i - 1] <= 1
  {
    var n := |h| - 1;
    if n == 0 || h[n] - h[n - 1] > 1 then n else Start(h[..n])
  }

  function BurstLength(h: seq<int>): nat
    requires h != []
  {
    |h| - Start(h)
  }

  function Hits(h: seq<int>, t: int): nat {
    if h == [] then 0 else Hits(h[..|h| - 1], t) + if Last(h) == t then 1 else 0
  }

  /** A 16-bit count of so many hits gets past the threshold; past the largest count there is none. */
  predicate Exceeds(hits: nat, maxHits: u16) { maxHits < hits && maxHits < TWO_16 - 1 }

  /** The seconds of the last burst with too many hits. */
  function Over(h: seq<int>, maxHits: u16): set<int>
    requires h != []
  {
    set i | Start(h) <= i < |h| && Exceeds(Hits(h, h[i]), maxHits) :: h[i]
  }

  /** When the last burst raised its last alert; 0 if it did not. */
  function LastAlert(h: seq<int>, maxHits: u16, duration: u8): int
    decreases |h|, 1
  {
    if h == [] then 0
    else if Fires(h, maxHits, duration) then Last(h)
    else if Start(h) == |h| - 1 then 0
    else LastAlert(h[..|h| - 1], maxHits, duration)
  }

  /** The last hit is the first one too many of its second, the burst has had more such seconds than
      it may, as far as 16 bits can tell, and the last alert is long ago. */
  predicate Fires(h: seq<int>, maxHits: u16, duration: u8)
    requires h != []
    decreases |h|, 0
  {
    && Hits(h, Last(h)) == maxHits + 1 < TWO_16
    && |Over(h, maxHits)| % TWO_16 > Patience(duration)
    && Last(h) > (if Start(h) == |h| - 1 then 0 else LastAlert(h[..|h| - 1], maxHits, duration)) + ALERT_GRACE_PERIOD
  }

  // ----- the counter is a function of the history -----

  lemma {:induction false} NoLaterHits(h: seq<int>, t: int)
    requires forall i :: 0 <= i < |h| ==> h[i] < t
    ensures Hits(h, t) == 0
  {
    if h != [] {
      NoLaterHits(h[..|h| - 1], t);
    }
  }

  lemma StartNext(h: seq<int>, when: int)
    requires h != []
    ensures var r := h + [when]; Start(r) == if when - Last(h) > 1 then |h| else Start(h)
  {
    var r := h + [when];
    assert r[..|h|] == h && r[|h|] == when && r[|h| - 1] == Last(h);
  }

  lemma HitsNext(h: seq<int>, when: int, t: int)
    ensures Hits(h + [when], t) == Hits(h, t) + if t == when then 1 else 0
  {
    assert (h + [when])[..|h|] == h;
  }

  lemma InOver(h: seq<int>, maxHits: u16, t: int)
    requires h != []
    ensures t in Over(h, maxHits) <==> Exceeds(Hits(h, t), maxHits) && exists i :: Start(h) <= i < |h| && h[i] == t
  {
    hide Hits, Start;
  }

  lemma OverSame(h: seq<int>, when: int, t: int)
    requires h != [] && Ordered(h + [when])
    ensures var r := h + [when];
      (exists i :: Start(r) <= i < |r| && r[i] == t) <==>
        t == when || (when - Last(h) <= 1 && exists i :: Start(h) <= i < |h| && h[i] == t)
  {
    var r := h + [when];
    StartNext(h, when);
    hide Start;
    assert r[|h|] == when;
    if i :| Start(h) <= i < |h| && h[i] == t {
      assert r[i] == t;
    }
    if i :| Start(r) <= i < |r| && r[i] == t {
      assert i < |h| ==> h[i] == t;
    }
  }

  /** How a hit changes the seconds over the threshold. */
  lemma OverNext(h: seq<int>, when: int, maxHits: u16)
    requires h != [] && Ordered(h + [when])
    ensures var r := h + [when];
      Over(r, maxHits) ==
        (if when - Last(h) > 1 then {} else Over(h, maxHits)) + (if Exceeds(Hits(r, when), maxHits) then {when} else {})
  {
    var r := h + [when];
    StartNext(h, when);
    hide Hits, Start, Over, Ordered, Last;
    var kept := if when - Last(h) > 1 then {} else Over(h, maxHits);
    var more := if Exceeds(Hits(r, when), maxHits) then {when} else {};
    forall t ensures t in Over(r, maxHits) <==> t in kept || t in more {
      InOverNext(h, when, maxHits, t);
    }
    assert Over(r, maxHits) == kept + more;
  }

  lemma InOverNext(h: seq<int>, when: int, maxHits: u16, t: int)
    requires h != [] && Ordered(h + [when])
    ensures var r := h + [when];
      t in Over(r, maxHits) <==>
        (when - Last(h) <= 1 && t in Over(h, maxHits)) || (t == when && Exceeds(Hits(r, when), maxHits))
  {
    hide Hits, Start, Over, Ordered, Last;
    var r := h + [when];
    InOver(r, maxHits, t);
    InOver(h, maxHits, t);
    HitsNext(h, when, t);
    OverSame(h, when, t);
  }

  /** What the history says: the last second, its hits, the hits of the burst, its seconds over the
      threshold, whether the last second is one of them, and the last alert. */
  datatype Facts = Facts(last: int, hits: nat, burst: nat, over: nat, lastOver: bool, lastAlert: int)

  ghost function FactsOf(h: seq<int>, maxHits: u16, duration: u8): Facts
    requires h != []
  {
    Facts(Last(h), Hits(h, Last(h)), BurstLength(h), |Over(h, maxHits)|, Last(h) in Over(h, maxHits),
      LastAlert(h, maxHits, duration))
  }

  predicate Matches(c: Counter, f: Facts, maxHits: u16, duration: u8) {
    && c.maxHits == maxHits && c.duration == Patience(duration)
    && c.lastHit == f.last
    && c.second == f.hits % TWO_16 && c.total == f.burst % TWO_16 && c.crossed == f.over % TWO_16
    && (c.lastCross == f.last <==> f.lastOver) && c.lastCross <= f.last
    && c.lastAlert == f.lastAlert
    && f.hits <= f.burst && f.over <= f.burst
  }

  /** What the counters mean. */
  ghost predicate Tells(c: Counter, h: seq<int>, maxHits: u16, duration: u8)
    requires h != []
  {
    Matches(c, FactsOf(h, maxHits, duration), maxHits, duration)
  }

  lemma FirstTells(when: int, maxHits: u16, duration: u8)
    requires when >= 1
    ensures Tells(Run([when], maxHits, duration), [when], maxHits, duration)
    ensures Alerts([when], maxHits, duration) <==> Fires([when], maxHits, duration)
  {
    var h := [when];
    assert h[..0] == [];
    assert Hits(h, when) == 1 && Start(h) == 0;
    InOver(h, maxHits, when);
    assert Over(h, maxHits) == if maxHits == 0 then {when} else {};
    assert |Over(h, maxHits)| == if maxHits == 0 then 1 else 0;
    assert !Fires(h, maxHits, duration) && LastAlert(h, maxHits, duration) == 0;
    hide Hits, Start, Over, LastAlert;
    assert Run(h, maxHits, duration) == IncHits(Fresh(maxHits, duration), when).0;
    assert Begin(Fresh(maxHits, duration), when) == Fresh(maxHits, duration);
  }

  lemma AlertNext(h: seq<int>, when: int, maxHits: u16, duration: u8)
    requires h != []
    ensures var r := h + [when];
      var base := if when - Last(h) > 1 then 0 else LastAlert(h, maxHits, duration);
      && (Fires(r, maxHits, duration) <==>
          Hits(r, when) == maxHits + 1 < TWO_16 && |Over(r, maxHits)| % TWO_16 > Patience(duration) &&
          when > base + ALERT_GRACE_PERIOD)
      && LastAlert(r, maxHits, duration) == if Fires(r, maxHits, duration) then when else base
  {
    assert (h + [when])[..|h|] == h;
    StartNext(h, when);
    hide Hits, Start, Over;
  }

  lemma OverSize(a: set<int>, t: int)
    ensures |a + {t}| == |a| + if t in a then 0 else 1
  {
    if t in a {
      assert a + {t} == a;
    }
  }

  lemma LastInOver(h: seq<int>, maxHits: u16)
    requires h != []
    ensures Last(h) in Over(h, maxHits) <==> Exceeds(Hits(h, Last(h)), maxHits)
  {
    InOver(h, maxHits, Last(h));
    hide Hits, Over;
    assert h[|h| - 1] == Last(h) && Start(h) <= |h| - 1;
  }

  lemma OverNotLater(h: seq<int>, maxHits: u16, when: int)
    requires h != [] && Ordered(h) && when > Last(h)
    ensures when !in Over(h, maxHits)
  {
  }

  /** How the facts change with one more hit. */
  ghost predicate NextFacts(f: Facts, when: int, g: Facts, fires: bool, maxHits: u16, duration: u8) {
    var gap := when - f.last > 1;
    && g.last == when >= f.last && when >= 1
    && g.hits == (if when == f.last then f.hits else 0) + 1
    && g.burst == (if gap then 0 else f.burst) + 1
    && g.lastOver == Exceeds(g.hits, maxHits) && f.lastOver == Exceeds(f.hits, maxHits)
    && g.over == (if gap then 0 else f.over) + (if g.lastOver && !(when == f.last && f.lastOver) then 1 else 0)
    && var base := if gap then 0 else f.lastAlert;
       && (fires <==>
            g.hits == maxHits + 1 < TWO_16 && g.over % TWO_16 > Patience(duration) && when > base + ALERT_GRACE_PERIOD)
       && g.lastAlert == if fires then when else base
  }

  lemma Wraps(n: nat)
    ensures Inc16(n % TWO_16) == (n + 1) % TWO_16
  {
  }

  /** Counting up from below the threshold, the wrapped count gets past it when the count does. */
  lemma ExceedsNext(hits: nat, maxHits: u16)
    requires !Exceeds(hits, maxHits)
    ensures (hits + 1) % TWO_16 > maxHits <==> hits + 1 == maxHits + 1 < TWO_16
    ensures Exceeds(hits + 1, maxHits) <==> hits + 1 == maxHits + 1 < TWO_16
  {
  }

  lemma ExceedsStays(hits: nat, maxHits: u16)
    requires Exceeds(hits, maxHits)
    ensures Exceeds(hits + 1, maxHits) && hits + 1 != maxHits + 1
  {
  }

  lemma NextMatches(c: Counter, f: Facts, when: int, g: Facts, fires: bool, maxHits: u16, duration: u8)
    requires Matches(c, f, maxHits, duration) && NextFacts(f, when, g, fires, maxHits, duration)
    ensures Matches(IncHits(c, when).0, g, maxHits, duration)
    ensures IncHits(c, when).1 <==> fires
  {
    var hits, burst, over := if when == f.last then f.hits else 0, if when - f.last > 1 then 0 else f.burst,
      if when - f.last > 1 then 0 else f.over;
    Wraps(hits);
    Wraps(burst);
    Wraps(over);
    if Exceeds(hits, maxHits) {
      ExceedsStays(hits, maxHits);
    } else {
      ExceedsNext(hits, maxHits);
    }
    var b := Begin(c, when);
    assert b.second == hits % TWO_16 && b.total == burst % TWO_16 && b.crossed == over % TWO_16;
    hide Inc16, Exceeds, Begin;
    assert g.hits == hits + 1 && g.burst == burst + 1;
  }

  lemma OrderedNext(h: seq<int>, when: int)
    requires h != [] && Ordered(h + [when])
    ensures Ordered(h) && when >= 1 && when >= Last(h)
    ensures when > Last(h) ==> Hits(h, when) == 0
  {
    var r := h + [when];
    assert forall i :: 0 <= i < |h| ==> r[i] == h[i];
    assert r[|h| - 1] == Last(h) && r[|h|] == when;
    if when > Last(h) {
      NoLaterHits(h, when);
    }
  }

  lemma OverCount(h: seq<int>, when: int, maxHits: u16)
    requires h != [] && Ordered(h + [when])
    ensures var r := h + [when];
      |Over(r, maxHits)| == (if when - Last(h) > 1 then 0 else |Over(h, maxHits)|) +
        (if Exceeds(Hits(r, when), maxHits) && !(when == Last(h) && Exceeds(Hits(h, Last(h)), maxHits)) then 1 else 0)
  {
    OverNext(h, when, maxHits);
    hide Hits, Over;
    OrderedNext(h, when);
    LastInOver(h, maxHits);
    if when > Last(h) {
      OverNotLater(h, maxHits, when);
    }
    hide Ordered;
    var a, many := Over(h, maxHits), Exceeds(Hits(h + [when], when), maxHits);
    HitsNext(h, when, when);
    Union(a, when, when - Last(h) > 1, many);
  }

  lemma Union(a: set<int>, t: int, gap: bool, many: bool)
    ensures |(if gap then {} else a) + (if many then {t} else {})| ==
      (if gap then 0 else |a|) + if many && (gap || t !in a) then 1 else 0
  {
    OverSize(a, t);
    assert {} + {t} == {t} && a + {} == a;
  }

  lemma FactsNext(h: seq<int>, when: int, maxHits: u16, duration: u8)
    requires h != [] && Ordered(h + [when])
    ensures var r := h + [when];
      NextFacts(FactsOf(h, maxHits, duration), when, FactsOf(r, maxHits, duration), Fires(r, maxHits, duration),
        maxHits, duration)
  {
    hide Hits, Start, Over, LastAlert, Fires, Ordered;
    StartNext(h, when);
    OverCount(h, when, maxHits);
    OrderedNext(h, when);
    HitsNext(h, when, when);
    AlertNext(h, when, maxHits, duration);
    LastInOver(h, maxHits);
    LastInOver(h + [when], maxHits);
  }

  /** One more hit. */
  lemma NextTells(c: Counter, h: seq<int>, when: int, maxHits: u16, duration: u8)
    requires h != [] && Ordered(h + [when]) && Tells(c, h, maxHits, duration)
    ensures Tells(IncHits(c, when).0, h + [when], maxHits, duration)
    ensures IncHits(c, when).1 <==> Fires(h + [when], maxHits, duration)
  {
    hide IncHits, NextFacts, Matches, Fires, Ordered, Over, Hits, Start, LastAlert;
    var r := h + [when];
    FactsNext(h, when, maxHits, duration);
    NextMatches(c, FactsOf(h, maxHits, duration), when, FactsOf(r, maxHits, duration), Fires(r, maxHits, duration),
      maxHits, duration);
  }

  lemma RunAlerts(h: seq<int>, when: int, maxHits: u16, duration: u8)
    ensures Run(h + [when], maxHits, duration) == IncHits(Run(h, maxHits, duration), when).0
    ensures Alerts(h + [when], maxHits, duration) == IncHits(Run(h, maxHits, duration), when).1
  {
    hide IncHits;
    assert (h + [when])[..|h|] == h;
  }

  lemma RunTellsNext(h: seq<int>, when: int, maxHits: u16, duration: u8)
    requires h != [] && Ordered(h + [when]) && Tells(Run(h, maxHits, duration), h, maxHits, duration)
    ensures Tells(Run(h + [when], maxHits, duration), h + [when], maxHits, duration)
    ensures Alerts(h + [when], maxHits, duration) <==> Fires(h + [when], maxHits, duration)
  {
    hide Run, Tells, Fires, Alerts, IncHits, Ordered;
    RunAlerts(h, when, maxHits, duration);
    NextTells(Run(h, maxHits, duration), h, when, maxHits, duration);
  }

  /** At every moment the counters are what the history says, mod 2^16, and an alert is raised exactly
      by the hits that the history says: a counter that was updated step by step refines a definition. */
  lemma {:induction false} RunTells(h: seq<int>, maxHits: u16, duration: u8)
    requires h != [] && Ordered(h)
    ensures Tells(Run(h, maxHits, duration), h, maxHits, duration)
    ensures Alerts(h, maxHits, duration) <==> Fires(h, maxHits, duration)
    decreases |h|
  {
    hide Run, Tells, Fires, Alerts;
    var n := |h| - 1;
    assert h == h[..n] + [h[n]];
    if n == 0 {
      FirstTells(h[0], maxHits, duration);
    } else {
      OrderedPrefix(h, n);
      RunTells(h[..n], maxHits, duration);
      RunTellsNext(h[..n], h[n], maxHits, duration);
    }
  }

  /** In a burst of fewer than 65536 hits the counters are the counts themselves. */
  lemma RunCounts(h: seq<int>, maxHits: u16, duration: u8)
    requires h != [] && Ordered(h) && BurstLength(h) < TWO_16
    ensures var c := Run(h, maxHits, duration);
      c.second == Hits(h, Last(h)) && c.total == BurstLength(h) && c.crossed == |Over(h, maxHits)|
  {
    hide Run, Ordered, Hits, Over, Start, LastAlert, Fires, Alerts;
    RunTells(h, maxHits, duration);
  }

  // ----- how far apart alerts are -----

  /** Seconds of the burst are at most as many as it is long. */
  lemma {:induction false} OverSpan(h: seq<int>, maxHits: u16)
    requires h != [] && Ordered(h)
    ensures |Over(h, maxHits)| <= Last(h) - h[Start(h)] + 1
  {
    hide Hits;
    var first, last := h[Start(h)], Last(h);
    forall t | t in Over(h, maxHits) ensures first <= t <= last {
      assert exists i :: Start(h) <= i < |h| && h[i] == t;
    }
    Interval(Over(h, maxHits), first, last);
  }

  lemma {:induction false} Interval(s: set<int>, low: int, high: int)
    requires forall t :: t in s ==> low <= t <= high
    requires low <= high + 1
    ensures |s| <= high - low + 1
    decreases high - low + 1
  {
    if low <= high {
      if high in s {
        OverSize(s - {high}, high);
        assert s == s - {high} + {high};
        Interval(s - {high}, low, high - 1);
      } else {
        Interval(s, low, high - 1);
      }
    } else {
      assert forall t :: t in s ==> low <= t <= high;
      assert forall t :: t !in s;
      assert s == {};
    }
  }

  lemma WithinBurst(h: seq<int>, maxHits: u16, duration: u8)
    requires h != [] && Start(h) < |h| - 1
    ensures var r := h[..|h| - 1];
      && Start(r) == Start(h)
      && LastAlert(h, maxHits, duration) ==
         (if Fires(h, maxHits, duration) then Last(h) else LastAlert(r, maxHits, duration))
      && (Fires(h, maxHits, duration) ==> Last(h) > LastAlert(r, maxHits, duration) + ALERT_GRACE_PERIOD)
  {
    hide Hits, Over;
  }

  lemma OrderedPrefix(h: seq<int>, k: nat)
    requires k <= |h| && Ordered(h)
    ensures Ordered(h[..k])
  {
  }

  lemma TakeTake(h: seq<int>, i: nat, n: nat)
    requires i <= n <= |h|
    ensures h[..n][..i] == h[..i]
  {
  }

  lemma Later(h: seq<int>, i: nat)
    requires Ordered(h) && i < |h|
    ensures h[i] <= Last(h)
  {
  }

  lemma FiresLast(h: seq<int>, k: nat, maxHits: u16, duration: u8)
    requires k == |h| > 0 && Fires(h[..k], maxHits, duration)
    ensures LastAlert(h, maxHits, duration) == Last(h)
  {
    hide Fires, Start;
    assert h[..k] == h;
  }

  /** The last alert of a burst is at least as late as any. */
  lemma {:induction false} AlertRemembered(h: seq<int>, i: nat, maxHits: u16, duration: u8)
    requires Ordered(h) && i < |h| && Start(h) <= i && Fires(h[..i + 1], maxHits, duration)
    ensures LastAlert(h, maxHits, duration) >= h[i]
    decreases |h|
  {
    hide Fires, LastAlert, Start, Ordered;
    var n := |h| - 1;
    Later(h, i);
    if i == n {
      FiresLast(h, i + 1, maxHits, duration);
    } else {
      OrderedPrefix(h, n);
      WithinBurst(h, maxHits, duration);
      TakeTake(h, i + 1, n);
      AlertRemembered(h[..n], i, maxHits, duration);
    }
  }

  /** Without a gap, the last alert is remembered. */
  lemma SameBurst(h: seq<int>, i: nat, maxHits: u16, duration: u8)
    requires i < |h| - 1 && Ordered(h) && Start(h) <= i && Fires(h[..i + 1], maxHits, duration)
    requires Fires(h, maxHits, duration)
    ensures Last(h) - h[i] > ALERT_GRACE_PERIOD
  {
    hide Fires, LastAlert, Start, Ordered;
    var n := |h| - 1;
    OrderedPrefix(h, n);
    WithinBurst(h, maxHits, duration);
    TakeTake(h, i + 1, n);
    AlertRemembered(h[..n], i, maxHits, duration);
  }

  /** Across a gap, the new burst must first be over the threshold for long enough. */
  lemma OtherBurst(h: seq<int>, i: nat, maxHits: u16, duration: u8)
    requires h != [] && Ordered(h) && i < Start(h) && Fires(h, maxHits, duration)
    ensures Last(h) - h[i] >= Patience(duration) + 2
  {
    hide Hits, Over, LastAlert;
    OverSpan(h, maxHits);
    var s := Start(h);
    assert h[i] <= h[s - 1];
  }

  /** Two alerts in one burst are more than a minute apart; two alerts with a gap between them can
      be as close as the alarm's duration and two seconds. */
  lemma AlertSpacing(h: seq<int>, i: nat, maxHits: u16, duration: u8)
    requires h != [] && Ordered(h) && i < |h| - 1
    requires Alerts(h[..i + 1], maxHits, duration) && Alerts(h, maxHits, duration)
    ensures if Start(h) <= i then Last(h) - h[i] > ALERT_GRACE_PERIOD
            else Last(h) - h[i] >= Patience(duration) + 2
  {
    hide Alerts, Fires, LastAlert, Start, Ordered;
    OrderedPrefix(h, i + 1);
    hide Tells;
    RunTells(h[..i + 1], maxHits, duration);
    RunTells(h, maxHits, duration);
    if Start(h) <= i {
      SameBurst(h, i, maxHits, duration);
    } else {
      OtherBurst(h, i, maxHits, duration);
    }
  }

  lemma OrderedSnoc(h: seq<int>, when: int)
    requires Ordered(h) && when >= 1 && (h != [] ==> Last(h) <= when)
    ensures Ordered(h + [when])
  {
    if h != [] {
      assert forall i :: 0 <= i < |h| ==> h[i] <= Last(h);
    }
  }

  lemma FirstFacts(when: int, maxHits: u16, duration: u8)
    ensures var h := [when];
      && FactsOf(h, maxHits, duration) == Facts(when, 1, 1, if maxHits == 0 then 1 else 0, maxHits == 0, 0)
      && Start(h) == 0 && !Fires(h, maxHits, duration)
  {
    var h := [when];
    assert h[..0] == [];
    assert Hits(h, when) == 1 && Start(h) == 0;
    InOver(h, maxHits, when);
    assert Over(h, maxHits) == if maxHits == 0 then {when} else {};
    assert |Over(h, maxHits)| == if maxHits == 0 then 1 else 0;
    assert !Fires(h, maxHits, duration) && LastAlert(h, maxHits, duration) == 0;
    hide Hits, Start, Over, LastAlert, Fires;
  }

  /** A burst that began at `at` and had one hit too many in each of k seconds, and j hits in the
      next; the first alert is raised by the last hit of as many seconds as it takes. */
  function Steady(at: int, k: nat, j: nat, maxHits: u16, duration: u8): Facts {
    Facts(at + k, j, k * (maxHits + 1) + j, k + (if j == maxHits + 1 then 1 else 0), j == maxHits + 1,
      if k == Patience(duration) && j == maxHits + 1 then at + k else 0)
  }

  lemma SteadyNext(at: int, k: nat, j: nat, k1: nat, j1: nat, g: Facts, fires: bool, maxHits: u16, duration: u8)
    requires k <= k1 <= Patience(duration) && 1 <= j <= maxHits + 1 < TWO_16
    requires at + Patience(duration) > ALERT_GRACE_PERIOD
    requires (k1 == k && j1 == j + 1 <= maxHits + 1) || (k1 == k + 1 && j == maxHits + 1 && j1 == 1)
    requires NextFacts(Steady(at, k, j, maxHits, duration), at + k1, g, fires, maxHits, duration)
    ensures g == Steady(at, k1, j1, maxHits, duration)
    ensures fires <==> k1 == Patience(duration) && j1 == maxHits + 1
  {
    assert k1 == k + 1 ==> k1 * (maxHits + 1) == k * (maxHits + 1) + (maxHits + 1);
  }

  lemma BurstBegins(p: seq<int>, at: int, maxHits: u16, duration: u8)
    requires Ordered(p) && (p == [] || Last(p) < at - 1) && at >= 1
    ensures FactsOf(p + [at], maxHits, duration) == Steady(at, 0, 1, maxHits, duration)
    ensures Start(p + [at]) == |p| && !Fires(p + [at], maxHits, duration)
  {
    hide Fires, Start, Ordered, FactsOf;
    if p == [] {
      assert p + [at] == [at];
      FirstFacts(at, maxHits, duration);
    } else {
      OrderedSnoc(p, at);
      StartNext(p, at);
      FactsNext(p, at, maxHits, duration);
      hide Last;
      assert FactsOf(p, maxHits, duration).last == Last(p) by { FactsLast(p, maxHits, duration); }
    }
  }

  lemma FactsLast(h: seq<int>, maxHits: u16, duration: u8)
    requires h != []
    ensures FactsOf(h, maxHits, duration).last == Last(h) && FactsOf(h, maxHits, duration).burst == BurstLength(h)
  {
    hide Over, Hits, LastAlert;
  }

  /** Such a burst after any history p and a gap. */
  lemma {:induction false} Burst(p: seq<int>, at: int, k: nat, j: nat, maxHits: u16, duration: u8) returns (h: seq<int>)
    requires Ordered(p) && maxHits + 1 < TWO_16 && (p == [] || Last(p) < at - 1)
    requires at >= 1 && at + Patience(duration) > ALERT_GRACE_PERIOD
    requires k <= Patience(duration) && 1 <= j <= maxHits + 1
    ensures |h| > |p| && h[..|p|] == p && Start(h) == |p| && Ordered(h)
    ensures FactsOf(h, maxHits, duration) == Steady(at, k, j, maxHits, duration)
    ensures Fires(h, maxHits, duration) <==> k == Patience(duration) && j == maxHits + 1
    decreases k, j
  {
    hide Fires, Start, Ordered, FactsOf, NextFacts, BurstLength, Last;
    if k == 0 && j == 1 {
      h := p + [at];
      BurstBegins(p, at, maxHits, duration);
      OrderedSnoc(p, at);
    } else {
      var k0, j0 := if j > 1 then k else k - 1, if j > 1 then j - 1 else maxHits + 1;
      var r := Burst(p, at, k0, j0, maxHits, duration);
      h := r + [at + k];
      FactsLast(r, maxHits, duration);
      OrderedSnoc(r, at + k);
      FactsNext(r, at + k, maxHits, duration);
      SteadyNext(at, k0, j0, k, j, FactsOf(h, maxHits, duration), Fires(h, maxHits, duration), maxHits, duration);
      StartNext(r, at + k);
    }
  }

  /** Whatever the duration, and whatever the threshold that a 16-bit count can get past: two alerts
      with a gap between them that are no further apart than AlertSpacing says. */
  lemma TwoBursts(maxHits: u16, duration: u8, at: int) returns (h: seq<int>, i: nat)
    requires maxHits < TWO_16 - 1
    requires at >= 1 && at + Patience(duration) > ALERT_GRACE_PERIOD
    ensures Ordered(h) && i < |h| - 1 && i < Start(h)
    ensures Alerts(h[..i + 1], maxHits, duration) && Alerts(h, maxHits, duration)
    ensures h[i] == at + Patience(duration) && Last(h) - h[i] == Patience(duration) + 2
  {
    hide Fires, Start, Ordered, FactsOf, Alerts, Tells;
    var k := Patience(duration);
    assert Ordered([]) by { NothingYet(); }
    var g := Burst([], at, k, maxHits + 1, maxHits, duration);
    FactsLast(g, maxHits, duration);
    h := Burst(g, at + k + 2, k, maxHits + 1, maxHits, duration);
    FactsLast(h, maxHits, duration);
    i := |g| - 1;
    assert h[..i + 1] == g && h[i] == h[..|g|][i] == g[i];
    RunTells(g, maxHits, duration);
    RunTells(h, maxHits, duration);
  }

  lemma NothingYet()
    ensures Ordered([])
  {
  }

  // ----- when alerts are a minute apart -----

  /** Any two alerts are more than a minute apart. */
  ghost predicate MinuteApart(maxHits: u16, duration: u8) {
    forall h: seq<int>, i: nat ::
      h != [] && Ordered(h) && i < |h| - 1
      && Alerts(h[..i + 1], maxHits, duration) && Alerts(h, maxHits, duration) ==>
        Last(h) - h[i] > ALERT_GRACE_PERIOD
  }

  /** No 16-bit count gets past the largest threshold. */
  lemma NoAlert(h: seq<int>, maxHits: u16, duration: u8)
    requires h != [] && Ordered(h) && maxHits == TWO_16 - 1
    ensures !Alerts(h, maxHits, duration)
  {
    hide Alerts, Ordered, Tells, Hits, Over, LastAlert;
    RunTells(h, maxHits, duration);
  }

  /** The alarm keeps to one alert a minute exactly if it must be over its threshold for a minute
      first, or if its threshold is the largest there is, so that it is never raised. */
  lemma MinuteApartExactly(maxHits: u16, duration: u8)
    ensures MinuteApart(maxHits, duration) <==> Patience(duration) >= 59 || maxHits == TWO_16 - 1
  {
    hide Alerts, Ordered, Start;
    var d := Patience(duration);
    if d >= 59 {
      forall h: seq<int>, i: nat |
        h != [] && Ordered(h) && i < |h| - 1
        && Alerts(h[..i + 1], maxHits, duration) && Alerts(h, maxHits, duration)
        ensures Last(h) - h[i] > ALERT_GRACE_PERIOD
      {
        AlertSpacing(h, i, maxHits, duration);
      }
    } else if maxHits == TWO_16 - 1 {
      forall h: seq<int> | h != [] && Ordered(h) ensures !Alerts(h, maxHits, duration) {
        NoAlert(h, maxHits, duration);
      }
    } else {
      var h, i := TwoBursts(maxHits, duration, ALERT_GRACE_PERIOD);
    }
  }

  /** The duration of both alarms that the program has. */
  const MAX_THRESHOLD_CROSS_DURATION: u8 := 3

  /** Their alerts are never less than five seconds apart, and there are two that are just five
      seconds apart, unless the threshold is the largest there is. */
  lemma FiveSeconds(maxHits: u16)
    ensures forall h: seq<int>, i: nat ::
      h != [] && Ordered(h) && i < |h| - 1
      && Alerts(h[..i + 1], maxHits, MAX_THRESHOLD_CROSS_DURATION)
      && Alerts(h, maxHits, MAX_THRESHOLD_CROSS_DURATION) ==>
        Last(h) - h[i] >= 5
    ensures (exists h: seq<int>, i: nat ::
      h != [] && Ordered(h) && i < |h| - 1
      && Alerts(h[..i + 1], maxHits, MAX_THRESHOLD_CROSS_DURATION) && Alerts(h, maxHits, MAX_THRESHOLD_CROSS_DURATION)
      && Last(h) - h[i] == 5) <==> maxHits < TWO_16 - 1
  {
    hide Alerts, Ordered, Start;
    forall h: seq<int>, i: nat |
      h != [] && Ordered(h) && i < |h| - 1
      && Alerts(h[..i + 1], maxHits, MAX_THRESHOLD_CROSS_DURATION) && Alerts(h, maxHits, MAX_THRESHOLD_CROSS_DURATION)
      ensures Last(h) - h[i] >= 5 && maxHits < TWO_16 - 1
    {
      AlertSpacing(h, i, maxHits, MAX_THRESHOLD_CROSS_DURATION);
      if maxHits == TWO_16 - 1 {
        NoAlert(h, maxHits, MAX_THRESHOLD_CROSS_DURATION);
      }
    }
    if maxHits < TWO_16 - 1 {
      var h, i := TwoBursts(maxHits, MAX_THRESHOLD_CROSS_DURATION, ALERT_GRACE_PERIOD);
    }
  }

  // ----- the object -----

  class AlertCounter {
    var maxHits: u16
    var total: u16
    var duration: u8
    var lastHit: int
    var lastAlert: int
    var lastCross: int
    var crossed: u16
    var second: u16

    ghost function State(): Counter
      reads this
    {
      Counter(maxHits, duration, lastHit, lastAlert, lastCross, crossed, second, total)
    }

    constructor (maxHitsSec: u16, overThresholdDuration: u8)
      ensures State() == Fresh(maxHitsSec, overThresholdDuration)
    {
      maxHits := maxHitsSec;
      duration := overThresholdDuration;
      new;
      if duration < 1 {
        duration := 1;
      }
      InitFields();
    }

    method InitFields()
      modifies this
      ensures State() == Counter(old(maxHits), old(duration), 0, 0, 0, 0, 0, 0)
    {
      lastHit, lastAlert := 0, 0;
      second := 0;
      lastCross, crossed := 0, 0;
      total := 0;
    }

    /** A hit does to the fields what IncHits does to the counter, and raises what it raises. */
    method Hit(when: int) returns (alert: bool)
      requires duration >= 1
      modifies this
      ensures (State(), alert) == IncHits(old(State()), when) && duration == old(duration)
    {
      if lastHit < when - 1 {
        InitFields();
      } else if lastHit == when - 1 {
        second := 0;
      }
      second, total, lastHit := Inc16(second), Inc16(total), when;
      if second > maxHits && lastCross != when {
        crossed, lastCross := Inc16(crossed), when;
        if crossed > duration {
          if when > lastAlert + ALERT_GRACE_PERIOD {
            lastAlert := when;
            return true;
          }
        }
      }
      return false;
    }
  }
}
