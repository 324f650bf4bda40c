/** The contact tables of ntopng/HostContacts.cpp: sixteen slots for each role, and the store that
    the evicted counters go to. */
module HostContacts {
  import opened Addresses
  import AddressText
  import HostIds

  const MAX_NUM_HOST_CONTACTS: nat := 16

  datatype Slot = Slot(host: Ip, num: u32)

  const EMPTY_SLOT := Slot(ZERO_IP, 0)

  type Table = t: seq<Slot> | |t| == MAX_NUM_HOST_CONTACTS witness seq(MAX_NUM_HOST_CONTACTS, i => EMPTY_SLOT)

  // ----- the table -----

  /** The first slot from i on that is empty or the peer's. */
  function Hit(t: Table, peer: Ip, i: nat): (r: nat)
    requires i <= MAX_NUM_HOST_CONTACTS
    ensures i <= r <= MAX_NUM_HOST_CONTACTS
    ensures forall j :: i <= j < r ==> t[j].num != 0 && !Same(t[j].host, peer)
    ensures r < MAX_NUM_HOST_CONTACTS ==> t[r].num == 0 || Same(t[r].host, peer)
    decreases MAX_NUM_HOST_CONTACTS - i
  {
    if i == MAX_NUM_HOST_CONTACTS || t[i].num == 0 || Same(t[i].host, peer) then i else Hit(t, peer, i + 1)
  }

  /** The first of the smallest counters among the first n. */
  function Victim(t: Table, n: nat): (v: nat)
    requires 1 <= n <= MAX_NUM_HOST_CONTACTS
    ensures v < n && forall j :: 0 <= j < n ==> t[v].num <= t[j].num && (j < v ==> t[v].num < t[j].num)
  {
    if n == 1 then 0
    else
      var v := Victim(t, n - 1);
      if t[v].num > t[n - 1].num then n - 1 else v
  }

  /** One increment. */
  function Incr(t: Table, peer: Ip, value: u32): Table {
    var i := Hit(t, peer, 0);
    if i == MAX_NUM_HOST_CONTACTS then t[Victim(t, i) := Slot(peer, value)]
    else if t[i].num == 0 then t[i := Slot(peer, value)]
    else t[i := t[i].(num := (t[i].num + value) % TWO_32)]
  }

  /** What an increment throws out of the table. */
  function Evicted(t: Table, peer: Ip): Option<Slot> {
    if Hit(t, peer, 0) == MAX_NUM_HOST_CONTACTS then Some(t[Victim(t, MAX_NUM_HOST_CONTACTS)]) else None
  }

  /** What one slot counts for a peer. */
  function Part(s: Slot, peer: Ip): nat { if Same(s.host, peer) then s.num else 0 }

  /** What the first n slots count for a peer. */
  function Held(t: Table, n: nat, peer: Ip): nat
    requires n <= MAX_NUM_HOST_CONTACTS
  {
    if n == 0 then 0 else Held(t, n - 1, peer) + Part(t[n - 1], peer)
  }

  function HeldAll(t: Table, peer: Ip): nat { Held(t, MAX_NUM_HOST_CONTACTS, peer) }

  /** How many slots are before the first empty one. */
  function Occupied(t: Table, i: nat): (n: nat)
    requires i <= MAX_NUM_HOST_CONTACTS
    ensures i <= n <= MAX_NUM_HOST_CONTACTS
    ensures (forall j :: i <= j < n ==> t[j].num > 0) && (n < MAX_NUM_HOST_CONTACTS ==> t[n].num == 0)
    decreases MAX_NUM_HOST_CONTACTS - i
  {
    if i == MAX_NUM_HOST_CONTACTS || t[i].num == 0 then i else Occupied(t, i + 1)
  }

  /** Occupied slots come first, and no peer has two. */
  ghost predicate Packed(t: Table) {
    var n := Occupied(t, 0);
    && (forall j :: n <= j < MAX_NUM_HOST_CONTACTS ==> t[j].num == 0)
    && (forall i, j :: 0 <= i < j < n ==> !Same(t[i].host, t[j].host))
  }

  /** The addition does not wrap around. */
  predicate NoWrap(t: Table, peer: Ip, value: u32) {
    var i := Hit(t, peer, 0);
    i < MAX_NUM_HOST_CONTACTS && t[i].num > 0 ==> t[i].num + value < TWO_32
  }

  lemma {:induction false} HeldUpdate(t: Table, i: nat, s: Slot, n: nat, peer: Ip)
    requires i < MAX_NUM_HOST_CONTACTS && n <= MAX_NUM_HOST_CONTACTS
    ensures Held(t[i := s], n, peer) == Held(t, n, peer) + if i < n then Part(s, peer) - Part(t[i], peer) else 0
  {
    if n > 0 {
      HeldUpdate(t, i, s, n - 1, peer);
    }
  }

  lemma {:induction false} SlotHeld(t: Table, i: nat, n: nat, peer: Ip)
    requires i < n <= MAX_NUM_HOST_CONTACTS
    ensures Part(t[i], peer) <= Held(t, n, peer)
  {
    if i < n - 1 {
      SlotHeld(t, i, n - 1, peer);
    }
  }

  /** An increment loses nothing: what leaves the table is what is evicted. */
  lemma IncrHeld(t: Table, peer: Ip, value: u32, p: Ip)
    requires NoWrap(t, peer, value)
    ensures var e := Evicted(t, peer);
      HeldAll(Incr(t, peer, value), p) + (if e.Some? then Part(e.value, p) else 0) ==
        HeldAll(t, p) + Part(Slot(peer, value), p)
  {
    var i := Hit(t, peer, 0);
    var k := if i == MAX_NUM_HOST_CONTACTS then Victim(t, i) else i;
    var r := Incr(t, peer, value);
    assert r == t[k := r[k]];
    HeldUpdate(t, k, r[k], MAX_NUM_HOST_CONTACTS, p);
    SlotHeld(t, k, MAX_NUM_HOST_CONTACTS, p);
  }

  /** An increment keeps the table packed, except when zero is added for a peer without a slot, the
      table is full, and the victim is not in the last slot: then a hole is left. */
  lemma PackedIncr(t: Table, peer: Ip, value: u32)
    requires Packed(t) && NoWrap(t, peer, value)
    ensures var n := MAX_NUM_HOST_CONTACTS;
      Packed(Incr(t, peer, value)) <==> value > 0 || Hit(t, peer, 0) < n || Victim(t, n) == n - 1
  {
    hide Same, Packed, Victim, Hit;
    var i := Hit(t, peer, 0);
    if i == MAX_NUM_HOST_CONTACTS {
      PackedEvict(t, Victim(t, i), peer, value);
    } else if t[i].num == 0 {
      PackedFill(t, i, peer, value);
    } else {
      PackedAdd(t, i, t[i].num + value);
    }
  }

  lemma {:induction false} OccupiedIs(t: Table, i: nat, n: nat)
    requires i <= n <= MAX_NUM_HOST_CONTACTS && (forall j :: i <= j < n ==> t[j].num > 0)
    requires n < MAX_NUM_HOST_CONTACTS ==> t[n].num == 0
    ensures Occupied(t, i) == n
    decreases n - i
  {
    if i < n {
      OccupiedIs(t, i + 1, n);
    }
  }

  lemma PackedAs(t: Table, n: nat)
    requires n <= MAX_NUM_HOST_CONTACTS && (forall j :: 0 <= j < n ==> t[j].num > 0)
    requires forall j :: n <= j < MAX_NUM_HOST_CONTACTS ==> t[j].num == 0
    requires forall i, j :: 0 <= i < j < n ==> !Same(t[i].host, t[j].host)
    ensures Packed(t)
  {
    hide Same, Occupied;
    OccupiedIs(t, 0, n);
  }

  lemma PackedAdd(t: Table, k: nat, num: u32)
    requires Packed(t) && k < MAX_NUM_HOST_CONTACTS && t[k].num > 0 && num > 0
    ensures Packed(t[k := t[k].(num := num)])
  {
    hide Same;
    var r := t[k := t[k].(num := num)];
    assert forall j :: 0 <= j < MAX_NUM_HOST_CONTACTS ==> r[j].host == t[j].host;
    PackedAs(r, Occupied(t, 0));
  }

  lemma PackedFill(t: Table, k: nat, peer: Ip, value: u32)
    requires Packed(t) && k < MAX_NUM_HOST_CONTACTS && t[k].num == 0
    requires forall j :: 0 <= j < k ==> t[j].num != 0 && !Same(t[j].host, peer)
    ensures Packed(t[k := Slot(peer, value)])
  {
    hide Same, Occupied;
    OccupiedIs(t, 0, k);
    var r, n := t[k := Slot(peer, value)], if value > 0 then k + 1 else k;
    assert forall j :: 0 <= j < MAX_NUM_HOST_CONTACTS && j != k ==> r[j] == t[j];
    PackedAs(r, n);
  }

  lemma PackedEvict(t: Table, v: nat, peer: Ip, value: u32)
    requires Packed(t) && v < MAX_NUM_HOST_CONTACTS
    requires forall j :: 0 <= j < MAX_NUM_HOST_CONTACTS ==> t[j].num != 0 && !Same(t[j].host, peer)
    ensures Packed(t[v := Slot(peer, value)]) <==> value > 0 || v == MAX_NUM_HOST_CONTACTS - 1
  {
    hide Packed, Same;
    var r := t[v := Slot(peer, value)];
    assert forall i :: 0 <= i < MAX_NUM_HOST_CONTACTS && i != v ==> r[i] == t[i];
    if value > 0 || v == MAX_NUM_HOST_CONTACTS - 1 {
      FullDistinct(t);
      EvictDistinct(t, v, Slot(peer, value));
      PackedAs(r, if value > 0 then MAX_NUM_HOST_CONTACTS else v);
    } else {
      Hole(r, v);
    }
  }

  lemma FullDistinct(t: Table)
    requires Packed(t) && forall j :: 0 <= j < MAX_NUM_HOST_CONTACTS ==> t[j].num > 0
    ensures forall i, j :: 0 <= i < j < MAX_NUM_HOST_CONTACTS ==> !Same(t[i].host, t[j].host)
  {
    hide Same;
    OccupiedIs(t, 0, MAX_NUM_HOST_CONTACTS);
  }

  lemma Hole(t: Table, v: nat)
    requires v < MAX_NUM_HOST_CONTACTS - 1 && t[v].num == 0
    requires forall j :: 0 <= j < MAX_NUM_HOST_CONTACTS && j != v ==> t[j].num > 0
    ensures !Packed(t)
  {
    hide Same;
    OccupiedIs(t, 0, v);
    assert t[MAX_NUM_HOST_CONTACTS - 1].num > 0;
  }

  lemma EvictDistinct(t: Table, v: nat, s: Slot)
    requires v < MAX_NUM_HOST_CONTACTS && forall j :: 0 <= j < MAX_NUM_HOST_CONTACTS ==> !Same(t[j].host, s.host)
    requires forall i, j :: 0 <= i < j < MAX_NUM_HOST_CONTACTS ==> !Same(t[i].host, t[j].host)
    ensures var r := t[v := s]; forall i, j :: 0 <= i < j < MAX_NUM_HOST_CONTACTS ==> !Same(r[i].host, r[j].host)
  {
    var r := t[v := s];
    forall i, j | 0 <= i < j < MAX_NUM_HOST_CONTACTS ensures !Same(r[i].host, r[j].host) {
      SameSymmetric(s.host, t[j].host);
      assert !Same(t[i].host, t[j].host);
    }
  }

  /** A contact evicts another exactly if all sixteen slots are taken by others. */
  lemma EvictsExactly(t: Table, peer: Ip)
    ensures Evicted(t, peer).Some? <==> forall i :: 0 <= i < 16 ==> t[i].num > 0 && !Same(t[i].host, peer)
  {
    hide Same;
    var i := Hit(t, peer, 0);
    if i < MAX_NUM_HOST_CONTACTS {
      assert 0 <= i < 16 && (t[i].num == 0 || Same(t[i].host, peer));
    } else {
      assert forall j :: 0 <= j < MAX_NUM_HOST_CONTACTS ==> t[j].num != 0 && !Same(t[j].host, peer);
    }
    hide Hit, Victim;
  }

  lemma SameSymmetric(a: Ip, b: Ip)
    ensures Same(a, b) <==> Same(b, a)
  {
  }

  lemma {:induction false} PackedHeld(t: Table, n: nat, peer: Ip)
    requires Packed(t) && Occupied(t, 0) <= n <= MAX_NUM_HOST_CONTACTS
    ensures Held(t, n, peer) == Held(t, Occupied(t, 0), peer)
  {
    hide Same, Occupied;
    if n > Occupied(t, 0) {
      PackedHeld(t, n - 1, peer);
    }
  }

  /** A peer has at most one slot. */
  lemma {:induction false} PackedOne(t: Table, n: nat, peer: Ip)
    requires Packed(t) && n <= Occupied(t, 0)
    ensures Held(t, n, peer) == 0 || exists i :: 0 <= i < n && Same(t[i].host, peer) && Held(t, n, peer) == t[i].num
  {
    hide Same, Occupied;
    if n > 0 {
      PackedOne(t, n - 1, peer);
      if Held(t, n - 1, peer) != 0 {
        var i :| 0 <= i < n - 1 && Same(t[i].host, peer) && Held(t, n - 1, peer) == t[i].num;
        SameVia(t[i].host, t[n - 1].host, peer);
        assert Held(t, n, peer) == t[i].num;
      } else if Same(t[n - 1].host, peer) {
        assert Held(t, n, peer) == t[n - 1].num;
      }
    }
  }

  lemma SameVia(a: Ip, b: Ip, peer: Ip)
    ensures Same(a, peer) && Same(b, peer) ==> Same(a, b)
  {
  }

  // ----- the store -----

  /** One HINCRBY on the counter of a day, a host, a role and a peer of the host. */
  datatype Dump = Dump(day: string, host: u32, client: bool, peer: u32, n: u32)

  /** The counters' history, and the serials that were given to hosts. */
  datatype Books = Books(log: seq<Dump>, ids: HostIds.World)

  /** The host whose contacts are counted: its interface, its serial, and who may be stored. */
  datatype Me = Me(iface: string, serial: u32, policy: Ip -> bool)

  predicate Proper(ip: Ip) { ip.version == 4 || ip.version == 6 }

  /** What host_to_id knows an address by. */
  function PeerKey(iface: string, ip: Ip): string { HostIds.HostKey(iface, AddressText.Print(ip)) }

  /** What the store gets for one counter: an entry for the host and its mirror for the peer. */
  function Pair(day: string, me: u32, client: bool, peer: u32, n: u32): seq<Dump> {
    [Dump(day, me, client, peer, n), Dump(day, peer, !client, me, n)]
  }

  /** One slot is stored in a role, under the serial that its peer has or is given that day. */
  function Put(b: Books, me: Me, day: string, client: bool, s: Slot): Books {
    var key := PeerKey(me.iface, s.host);
    var id := HostIds.HostToId(b.ids.store, day, key).1;
    Books(b.log + Pair(day, me.serial, client, id, s.num), HostIds.Step(b.ids, HostIds.Lookup(day, key)))
  }

  /** The serial was given to the host with this key. */
  predicate Owned(owner: map<u32, string>, id: u32, key: string) { id in owner && owner[id] == key }

  /** On that day, or on any if none is given. */
  predicate Within(on: Option<string>, day: string) { on.None? || on.value == day }

  /** The total that the store has for a host's contacts with a peer in a role, on a day or on all: all
      serials that the peer was ever given count. */
  function Stored(log: seq<Dump>, owner: map<u32, string>, me: u32, client: bool, peer: string,
      on: Option<string>): nat {
    if log == [] then 0
    else
      var d := log[|log| - 1];
      Stored(log[..|log| - 1], owner, me, client, peer, on) +
        if Within(on, d.day) && d.host == me && d.client == client && Owned(owner, d.peer, peer) then d.n else 0
  }

  /** The same contacts seen from the peer. */
  function Mirrored(log: seq<Dump>, owner: map<u32, string>, me: u32, client: bool, peer: string,
      on: Option<string>): nat
  {
    if log == [] then 0
    else
      var d := log[|log| - 1];
      Mirrored(log[..|log| - 1], owner, me, client, peer, on) +
        if Within(on, d.day) && Owned(owner, d.host, peer) && d.client == !client && d.peer == me then d.n else 0
  }

  /** Every serial in the log has an owner. */
  ghost predicate AllOwned(log: seq<Dump>, owner: map<u32, string>) {
    forall d :: d in log ==> d.host in owner && d.peer in owner
  }

  /** The books are in order and can give out n more serials. */
  ghost predicate Orderly(b: Books, n: nat) {
    HostIds.Sound(b.ids) && AllOwned(b.log, b.ids.owner) && b.ids.store.serial + n < TWO_32
  }

  /** No serial changes its owner. */
  ghost predicate Extends(v: HostIds.World, w: HostIds.World) {
    forall id :: id in v.owner ==> id in w.owner && w.owner[id] == v.owner[id]
  }

  /** The host has a serial. */
  predicate Known(b: Books, me: Me) { me.serial in b.ids.owner }

  /** The peer is not the host itself. */
  predicate NotSelf(b: Books, me: Me, p: Ip)
    requires Known(b, me)
  {
    b.ids.owner[me.serial] != PeerKey(me.iface, p)
  }

  function StoredFor(b: Books, me: Me, role: bool, p: Ip, on: Option<string>): nat {
    Stored(b.log, b.ids.owner, me.serial, role, PeerKey(me.iface, p), on)
  }

  function MirroredFor(b: Books, me: Me, role: bool, p: Ip, on: Option<string>): nat {
    Mirrored(b.log, b.ids.owner, me.serial, role, PeerKey(me.iface, p), on)
  }

  /** From b to r, the peer's account in a role gains n on both sides. */
  predicate Gains(b: Books, r: Books, me: Me, role: bool, p: Ip, on: Option<string>, n: nat) {
    && StoredFor(r, me, role, p, on) == StoredFor(b, me, role, p, on) + n
    && MirroredFor(r, me, role, p, on) == MirroredFor(b, me, role, p, on) + n
  }

  predicate ShortName(me: Me) { |me.iface| <= 300 }

  lemma {:induction false} OwnersKept(log: seq<Dump>, v: HostIds.World, w: HostIds.World, me: u32, client: bool,
      peer: string, on: Option<string>)
    requires AllOwned(log, v.owner) && Extends(v, w)
    ensures Stored(log, w.owner, me, client, peer, on) == Stored(log, v.owner, me, client, peer, on)
    ensures Mirrored(log, w.owner, me, client, peer, on) == Mirrored(log, v.owner, me, client, peer, on)
    ensures AllOwned(log, w.owner)
  {
    if log != [] {
      assert log[|log| - 1] in log;
      OwnersKept(log[..|log| - 1], v, w, me, client, peer, on);
    }
  }

  /** Equal keys are equal addresses. */
  lemma SameKeys(iface: string, a: Ip, b: Ip)
    requires |iface| <= 300 && Proper(a) && Proper(b)
    ensures PeerKey(iface, a) == PeerKey(iface, b) <==> Same(a, b)
    ensures HostIds.IsKey(PeerKey(iface, a))
  {
    hide Same, AddressText.Print, HostIds.HostKey, HostIds.IsKey;
    AddressText.PrintIdentifies(a, b);
    AddressText.PrintLength(a);
    AddressText.PrintLength(b);
    AddressText.KeyIdentifies(iface, AddressText.Print(a), AddressText.Print(b));
    HostIds.KeyIsKey(iface, AddressText.Print(a));
  }

  /** The two entries fall on opposite roles, so a host's contacts with itself count once in each. */
  lemma PairCounts(log: seq<Dump>, owner: map<u32, string>, me: u32, client: bool, role: bool, day: string, id: u32,
      n: u32, peer: string, on: Option<string>)
    requires me in owner && id in owner && (role == client || owner[me] != peer || owner[id] != peer || n == 0)
    ensures var r := log + Pair(day, me, client, id, n);
      var more := if role == client && owner[id] == peer && Within(on, day) then n else 0;
      && Stored(r, owner, me, role, peer, on) == Stored(log, owner, me, role, peer, on) + more
      && Mirrored(r, owner, me, role, peer, on) == Mirrored(log, owner, me, role, peer, on) + more
  {
    var pair := Pair(day, me, client, id, n);
    var r1 := log + [pair[0]];
    assert log + pair == r1 + [pair[1]];
    assert (r1 + [pair[1]])[..|r1|] == r1 && r1[..|log|] == log;
  }

  /** Storing one slot adds its count to both sides of its peer's account on that day and leaves all
      others, and the accounts of all other days. */
  lemma PutExact(b: Books, me: Me, day: string, client: bool, s: Slot, role: bool, p: Ip, on: Option<string>, n: nat)
    requires Orderly(b, n + 1) && ShortName(me) && Proper(s.host) && Proper(p) && Known(b, me)
    requires role == client || NotSelf(b, me, p) || Part(s, p) == 0
    ensures var r := Put(b, me, day, client, s);
      && Orderly(r, n) && Extends(b.ids, r.ids) && Known(r, me)
      && Gains(b, r, me, role, p, on, if role == client && Within(on, day) then Part(s, p) else 0)
  {
    hide Same, PeerKey, HostIds.Sound, HostIds.Step, HostIds.HostToId, HostIds.IsKey, Stored, Mirrored;
    var key, q := PeerKey(me.iface, s.host), PeerKey(me.iface, p);
    SameKeys(me.iface, s.host, p);
    HostIds.LookupOwned(b.ids, day, key);
    HostIds.StepSound(b.ids, HostIds.Lookup(day, key));
    var r, id := Put(b, me, day, client, s), HostIds.HostToId(b.ids.store, day, key).1;
    assert Extends(b.ids, r.ids);
    OwnersKept(b.log, b.ids, r.ids, me.serial, role, q, on);
    PairCounts(b.log, r.ids.owner, me.serial, client, role, day, id, s.num, q, on);
  }

  /** Both entries name the serial that leads back to the peer on that day. */
  lemma PutUnderDay(b: Books, me: Me, day: string, client: bool, s: Slot)
    requires HostIds.Sound(b.ids) && ShortName(me) && Proper(s.host) && b.ids.store.serial + 1 < TWO_32
    ensures var r, n := Put(b, me, day, client, s), |b.log|;
      && |r.log| == n + 2 && r.log[..n] == b.log && r.log[n].day == day == r.log[n + 1].day
      && r.log[n].peer == r.log[n + 1].host
      && HostIds.IdToHost(r.ids.store, day, HostIds.Text(r.log[n].peer)) == Some(PeerKey(me.iface, s.host))
  {
    SameKeys(me.iface, s.host, s.host);
    hide PeerKey, HostIds.Sound, HostIds.Text, HostIds.IsKey;
    HostIds.FirstHas(b.ids, day, PeerKey(me.iface, s.host));
  }

  // ----- runs of both tables -----

  /** The host contacts a peer as a client or as a server, or another one asks for its serial or
      confirms it. */
  datatype Act = Contact(day: string, client: bool, peer: Ip, value: u32) | Elsewhere(e: HostIds.Event)

  /** A slot that had to leave its table, and the day it did. */
  datatype Out = Out(day: string, slot: Slot)

  /** The tables, what had to leave them, and the store. */
  datatype Contacts = Contacts(client: Table, server: Table, clientOuts: seq<Out>, serverOuts: seq<Out>, books: Books)

  function TableOf(c: Contacts, role: bool): Table { if role then c.client else c.server }

  function OutsOf(c: Contacts, role: bool): seq<Out> { if role then c.clientOuts else c.serverOuts }

  function EmptyTable(): Table { seq(MAX_NUM_HOST_CONTACTS, i => EMPTY_SLOT) }

  /** An evicted counter is stored if the dump policy accepts the peer and the host has a serial. */
  predicate Stores(me: Me, peer: Ip) { me.policy(peer) && me.serial > 0 }

  /** The store after what one increment evicts. */
  function Evict(b: Books, me: Me, day: string, client: bool, e: Option<Slot>): Books {
    if e.Some? && Stores(me, e.value.host) then Put(b, me, day, client, e.value) else b
  }

  function More(outs: seq<Out>, day: string, e: Option<Slot>): seq<Out> {
    if e.Some? then outs + [Out(day, e.value)] else outs
  }

  function StepContacts(c: Contacts, me: Me, a: Act): Contacts {
    match a
    case Contact(day, client, peer, value) =>
      var t := TableOf(c, client);
      var e := Evicted(t, peer);
      var next, outs, books :=
        Incr(t, peer, value), More(OutsOf(c, client), day, e), Evict(c.books, me, day, client, e);
      if client then Contacts(next, c.server, outs, c.serverOuts, books)
      else Contacts(c.client, next, c.clientOuts, outs, books)
    case Elsewhere(e) => c.(books := c.books.(ids := HostIds.Step(c.books.ids, e)))
  }

  function RunContacts(b: Books, me: Me, acts: seq<Act>): Contacts {
    if acts == [] then Contacts(EmptyTable(), EmptyTable(), [], [], b)
    else StepContacts(RunContacts(b, me, acts[..|acts| - 1]), me, acts[|acts| - 1])
  }

  function Counted(a: Act, role: bool, p: Ip): nat {
    if a.Contact? && a.client == role then Part(Slot(a.peer, a.value), p) else 0
  }

  /** The exact count. */
  function Total(acts: seq<Act>, role: bool, p: Ip): nat {
    if acts == [] then 0 else Total(acts[..|acts| - 1], role, p) + Counted(acts[|acts| - 1], role, p)
  }

  /** How much of a peer's count left the table, on a day or on all. */
  function Moved(outs: seq<Out>, p: Ip, on: Option<string>): nat {
    if outs == [] then 0
    else
      var o := outs[|outs| - 1];
      Moved(outs[..|outs| - 1], p, on) + if Within(on, o.day) then Part(o.slot, p) else 0
  }

  /** Peers have addresses, and no peer's count outgrows 32 bits. */
  ghost predicate InRange(acts: seq<Act>) {
    (forall a :: a in acts && a.Contact? ==> Proper(a.peer)) && (forall role, p :: Total(acts, role, p) < TWO_32)
  }

  /** Hosts confirm only serials that they were given. */
  predicate AllAllowed(b: Books, me: Me, acts: seq<Act>) {
    acts == [] ||
    (var r := acts[..|acts| - 1];
     && AllAllowed(b, me, r)
     && (acts[|acts| - 1].Elsewhere? ==> HostIds.Allowed(RunContacts(b, me, r).books.ids, acts[|acts| - 1].e)))
  }

  ghost predicate KnownTable(t: Table) {
    forall i :: 0 <= i < MAX_NUM_HOST_CONTACTS && t[i].num > 0 ==> Proper(t[i].host)
  }

  lemma InRangePrefix(acts: seq<Act>)
    requires acts != [] && InRange(acts)
    ensures InRange(acts[..|acts| - 1])
  {
    var r := acts[..|acts| - 1];
    hide Counted, Proper;
    forall role, p ensures Total(r, role, p) < TWO_32 {
      assert Total(r, role, p) <= Total(acts, role, p);
    }
  }

  /** The addition stays below the peer's total. */
  lemma StaysInRange(t: Table, acts: seq<Act>)
    requires acts != [] && InRange(acts) && acts[|acts| - 1].Contact?
    requires var a := acts[|acts| - 1]; HeldAll(t, a.peer) <= Total(acts[..|acts| - 1], a.client, a.peer)
    ensures NoWrap(t, acts[|acts| - 1].peer, acts[|acts| - 1].value)
  {
    hide Proper;
    var a := acts[|acts| - 1];
    var i := Hit(t, a.peer, 0);
    assert Total(acts, a.client, a.peer) < TWO_32;
    if i < MAX_NUM_HOST_CONTACTS && t[i].num > 0 {
      SlotHeld(t, i, MAX_NUM_HOST_CONTACTS, a.peer);
    }
  }

  lemma {:induction false} EmptyHeld(n: nat, p: Ip)
    requires n <= MAX_NUM_HOST_CONTACTS
    ensures Held(EmptyTable(), n, p) == 0
  {
    if n > 0 {
      EmptyHeld(n - 1, p);
    }
  }

  lemma KnownIncr(t: Table, peer: Ip, value: u32)
    requires KnownTable(t) && Proper(peer)
    ensures KnownTable(Incr(t, peer, value)) && (Evicted(t, peer).Some? ==> Proper(Evicted(t, peer).value.host))
  {
    hide Same, Proper;
    var i := Hit(t, peer, 0);
    var k := if i == MAX_NUM_HOST_CONTACTS then Victim(t, i) else i;
    hide Hit, Victim;
    var r := Incr(t, peer, value);
    assert r[k].host == peer || (r[k].host == t[k].host && t[k].num > 0);
    assert r == t[k := r[k]];
  }

  lemma MovedMore(outs: seq<Out>, day: string, e: Option<Slot>, p: Ip, on: Option<string>)
    ensures Moved(More(outs, day, e), p, on) ==
      Moved(outs, p, on) + if e.Some? && Within(on, day) then Part(e.value, p) else 0
  {
    if e.Some? {
      assert (outs + [Out(day, e.value)])[..|outs|] == outs;
    }
  }

  /** For every peer and role, at every moment: what the table holds and what left it is together the
      exact number of contacts. */
  lemma {:induction false} TableExact(b: Books, me: Me, acts: seq<Act>, role: bool, p: Ip)
    requires InRange(acts)
    ensures var c := RunContacts(b, me, acts);
      && KnownTable(TableOf(c, role))
      && HeldAll(TableOf(c, role), p) + Moved(OutsOf(c, role), p, None) == Total(acts, role, p)
    decreases |acts|
  {
    if acts == [] {
      EmptyHeld(MAX_NUM_HOST_CONTACTS, p);
    } else {
      hide Part, HeldAll, Incr, Evict, HostIds.Step, Proper, Evicted, More, Moved;
      var n := |acts| - 1;
      var c, a := RunContacts(b, me, acts[..n]), acts[n];
      InRangePrefix(acts);
      TableExact(b, me, acts[..n], role, p);
      if a.Contact? && a.client == role {
        var t := TableOf(c, role);
        TableExact(b, me, acts[..n], role, a.peer);
        StaysInRange(t, acts);
        KnownIncr(t, a.peer, a.value);
        IncrHeld(t, a.peer, a.value, p);
        MovedMore(OutsOf(c, role), a.day, Evicted(t, a.peer), p, None);
      }
    }
  }

  /** The policy treats an address in one way. */
  ghost predicate Consistent(policy: Ip -> bool, p: Ip) { forall q :: Same(q, p) ==> policy(q) == policy(p) }

  /** What one increment evicts is stored for its peer, from both sides, or thrown away. */
  lemma EvictExact(b: Books, me: Me, day: string, client: bool, e: Option<Slot>, role: bool, p: Ip, on: Option<string>,
      n: nat)
    requires Orderly(b, n + 1) && ShortName(me) && Proper(p) && Known(b, me) && Consistent(me.policy, p)
    requires e.Some? ==> Proper(e.value.host)
    requires role == client || NotSelf(b, me, p) || (e.Some? ==> Part(e.value, p) == 0)
    ensures var r := Evict(b, me, day, client, e);
      && Orderly(r, n) && Extends(b.ids, r.ids) && Known(r, me)
      && Gains(b, r, me, role, p, on,
           var stored := role == client && Within(on, day) && me.policy(p) && me.serial > 0;
           if e.Some? && stored then Part(e.value, p) else 0)
  {
    hide Same, PeerKey, HostIds.Sound, Put, Stored, Mirrored, Proper;
    if e.Some? && Stores(me, e.value.host) {
      PutExact(b, me, day, client, e.value, role, p, on, n);
    }
  }

  /** Whoever else asks for serials does not change what the counters say. */
  lemma ElsewhereExact(b: Books, me: Me, e: HostIds.Event, role: bool, p: Ip, on: Option<string>, n: nat)
    requires Orderly(b, n + 1) && Known(b, me) && HostIds.Allowed(b.ids, e)
    ensures var r := b.(ids := HostIds.Step(b.ids, e));
      Orderly(r, n) && Extends(b.ids, r.ids) && Known(r, me) && Gains(b, r, me, role, p, on, 0)
  {
    hide PeerKey, HostIds.Sound, HostIds.Step, HostIds.Allowed, Stored, Mirrored;
    HostIds.StepSound(b.ids, e);
    OwnersKept(b.log, b.ids, HostIds.Step(b.ids, e), me.serial, role, PeerKey(me.iface, p), on);
  }

  lemma SelfKept(b: Books, r: Books, me: Me, p: Ip)
    requires Known(b, me) && Extends(b.ids, r.ids)
    ensures Known(r, me) && (NotSelf(r, me, p) <==> NotSelf(b, me, p))
  {
    hide PeerKey;
  }

  lemma GainsVia(b: Books, r: Books, s: Books, me: Me, role: bool, p: Ip, on: Option<string>, m: nat, n: nat)
    requires Gains(b, r, me, role, p, on, m) && Gains(r, s, me, role, p, on, n)
    ensures Gains(b, s, me, role, p, on, m + n)
  {
    hide StoredFor, MirroredFor;
  }

  lemma ExtendsVia(b: Books, r: Books, s: Books)
    requires Extends(b.ids, r.ids) && Extends(r.ids, s.ids)
    ensures Extends(b.ids, s.ids)
  {
  }

  /** The peer's account in a role does not depend on the other role: it is another host, or the other
      role has no contacts with it. */
  ghost predicate Separate(b: Books, me: Me, acts: seq<Act>, role: bool, p: Ip)
    requires Known(b, me)
  {
    NotSelf(b, me, p) || Total(acts, !role, p) == 0
  }

  /** What an act moves from the table of its role to the store, for a peer: what its increment evicts,
      on the day of the increment, if the policy accepts the peer and the host has a serial. */
  function Banked(c: Contacts, me: Me, a: Act, role: bool, p: Ip, on: Option<string>): nat {
    if a.Contact? && a.client == role && Within(on, a.day) && me.policy(p) && me.serial > 0 then
      match Evicted(TableOf(c, role), a.peer) case Some(s) => Part(s, p) case None => 0
    else 0
  }

  lemma MovedBanked(c: Contacts, me: Me, a: Act, role: bool, p: Ip, on: Option<string>)
    ensures var was, now := OutsOf(c, role), OutsOf(StepContacts(c, me, a), role);
      && Moved(was, p, on) <= Moved(now, p, on)
      && (me.policy(p) && me.serial > 0 ==> Moved(now, p, on) == Moved(was, p, on) + Banked(c, me, a, role, p, on))
  {
    hide Incr, Evict, HostIds.Step, Evicted, Moved, More, Part;
    if a.Contact? {
      MovedMore(OutsOf(c, a.client), a.day, Evicted(TableOf(c, a.client), a.peer), p, on);
    }
  }

  /** One act, for the account of a peer in a role. */
  lemma ActExact(c: Contacts, me: Me, a: Act, role: bool, p: Ip, on: Option<string>, n: nat)
    requires Orderly(c.books, n + 1) && ShortName(me) && Proper(p) && Known(c.books, me) && Consistent(me.policy, p)
    requires a.Contact? ==> Proper(a.peer) && KnownTable(TableOf(c, a.client))
    requires a.Elsewhere? ==> HostIds.Allowed(c.books.ids, a.e)
    requires NotSelf(c.books, me, p) || Moved(OutsOf(StepContacts(c, me, a), !role), p, None) == 0
    ensures var d := StepContacts(c, me, a);
      && Orderly(d.books, n) && Extends(c.books.ids, d.books.ids) && Known(d.books, me)
      && Gains(c.books, d.books, me, role, p, on, Banked(c, me, a, role, p, on))
  {
    hide Orderly, Consistent, NotSelf, Evict, HostIds.Step, HostIds.Allowed, Proper, Part, Incr, Evicted, Gains;
    hide More, Moved;
    if a.Contact? {
      var t := TableOf(c, a.client);
      var e := Evicted(t, a.peer);
      KnownIncr(t, a.peer, a.value);
      MovedMore(OutsOf(c, a.client), a.day, e, p, None);
      EvictExact(c.books, me, a.day, a.client, e, role, p, on, n);
    } else {
      ElsewhereExact(c.books, me, a.e, role, p, on, n);
    }
  }

  /** What left a table for a peer was stored, from both sides and on the day it left, or all of it was
      thrown away; and nothing but what left that table changes the peer's account in its role,
      whatever the other table does and whatever serials are given out meanwhile. */
  lemma {:induction false} BankExact(b: Books, me: Me, acts: seq<Act>, role: bool, p: Ip, on: Option<string>, n: nat)
    requires InRange(acts) && AllAllowed(b, me, acts) && Orderly(b, n + |acts|) && ShortName(me)
    requires Proper(p) && Known(b, me) && Separate(b, me, acts, role, p) && Consistent(me.policy, p)
    ensures var c := RunContacts(b, me, acts);
      && Orderly(c.books, n) && Extends(b.ids, c.books.ids) && Known(c.books, me)
      && Gains(b, c.books, me, role, p, on,
           if me.policy(p) && me.serial > 0 then Moved(OutsOf(c, role), p, on) else 0)
    decreases |acts|
  {
    hide Orderly, NotSelf, Consistent, StoredFor, MirroredFor, StepContacts, HostIds.Allowed, Proper, Part;
    if acts != [] {
      hide Gains, Extends, Moved, KnownTable, Banked;
      var k := |acts| - 1;
      var c, a := RunContacts(b, me, acts[..k]), acts[k];
      var d := StepContacts(c, me, a);
      InRangePrefix(acts);
      BankExact(b, me, acts[..k], role, p, on, n + 1);
      SelfKept(b, c.books, me, p);
      TableExact(b, me, acts, !role, p);
      if a.Contact? {
        TableExact(b, me, acts[..k], a.client, a.peer);
      }
      ActExact(c, me, a, role, p, on, n);
      MovedBanked(c, me, a, role, p, on);
      ExtendsVia(b, c.books, d.books);
      NothingBanked(c, me, a, role, p, on);
      GainsVia(b, c.books, d.books, me, role, p, on,
        if me.policy(p) && me.serial > 0 then Moved(OutsOf(c, role), p, on) else 0, Banked(c, me, a, role, p, on));
    }
  }

  lemma NothingBanked(c: Contacts, me: Me, a: Act, role: bool, p: Ip, on: Option<string>)
    ensures !me.policy(p) || me.serial == 0 ==> Banked(c, me, a, role, p, on) == 0
  {
  }

  /** In each role, the table and the store together are an exact map from peers to their contacts, and
      the peer's own counter says the same, as long as the policy lets the peer be stored; also when
      the peer is given a second serial on the same day, and when it is the host itself, if that
      contacts itself in this role only. */
  lemma Ledger(b: Books, me: Me, acts: seq<Act>, role: bool, p: Ip)
    requires InRange(acts) && AllAllowed(b, me, acts) && Orderly(b, |acts|) && ShortName(me)
    requires Proper(p) && Known(b, me) && Separate(b, me, acts, role, p) && Consistent(me.policy, p)
    requires me.policy(p) && me.serial > 0
    ensures var c := RunContacts(b, me, acts);
      && HeldAll(TableOf(c, role), p) + StoredFor(c.books, me, role, p, None) ==
           Total(acts, role, p) + StoredFor(b, me, role, p, None)
      && HeldAll(TableOf(c, role), p) + MirroredFor(c.books, me, role, p, None) ==
           Total(acts, role, p) + MirroredFor(b, me, role, p, None)
  {
    hide Orderly, NotSelf, StoredFor, MirroredFor, Consistent, Proper, HeldAll, RunContacts, Moved;
    TableExact(b, me, acts, role, p);
    BankExact(b, me, acts, role, p, None, 0);
  }

  lemma EmptyPacked()
    ensures Packed(EmptyTable())
  {
    PackedAs(EmptyTable(), 0);
  }

  lemma {:induction false} RunPacked(b: Books, me: Me, acts: seq<Act>, role: bool)
    requires InRange(acts) && forall a :: a in acts && a.Contact? ==> a.value > 0
    ensures Packed(TableOf(RunContacts(b, me, acts), role))
    decreases |acts|
  {
    if acts == [] {
      EmptyPacked();
    } else {
      hide Packed, Incr, Evict, Proper;
      var n := |acts| - 1;
      InRangePrefix(acts);
      RunPacked(b, me, acts[..n], role);
      if acts[n].Contact? && acts[n].client == role {
        TableExact(b, me, acts[..n], role, acts[n].peer);
        var t := TableOf(RunContacts(b, me, acts[..n]), role);
        StaysInRange(t, acts);
        PackedIncr(t, acts[n].peer, acts[n].value);
      }
    }
  }

  // ----- flushing both tables -----

  /** What dbDumpAllHosts stores for slot i of both tables: both in the client role. */
  function FlushSlot(b: Books, s: Slot, me: Me, day: string): Books {
    if s.num > 0 && me.policy(s.host) then Put(b, me, day, true, s) else b
  }

  /** The store after the first n rounds. */
  function FlushTo(b: Books, client: Table, server: Table, n: nat, me: Me, day: string): Books
    requires n <= MAX_NUM_HOST_CONTACTS
  {
    if n == 0 then b
    else
      var r := FlushTo(b, client, server, n - 1, me, day);
      FlushSlot(FlushSlot(r, client[n - 1], me, day), server[n - 1], me, day)
  }

  function Flush(b: Books, client: Table, server: Table, me: Me, day: string): Books {
    FlushTo(b, client, server, Occupied(client, 0), me, day)
  }

  lemma FlushSlotExact(b: Books, s: Slot, me: Me, day: string, role: bool, p: Ip, on: Option<string>, n: nat)
    requires Orderly(b, n + 1) && ShortName(me) && Proper(p) && Known(b, me) && Consistent(me.policy, p)
    requires (s.num > 0 ==> Proper(s.host)) && (role || NotSelf(b, me, p))
    ensures var r := FlushSlot(b, s, me, day);
      && Orderly(r, n) && Extends(b.ids, r.ids) && Known(r, me)
      && Gains(b, r, me, role, p, on, if role && Within(on, day) && me.policy(p) then Part(s, p) else 0)
  {
    hide Same, PeerKey, HostIds.Sound, Put, Stored, Mirrored, Proper;
    if s.num > 0 && me.policy(s.host) {
      PutExact(b, me, day, true, s, role, p, on, n);
    }
  }

  /** What the first n rounds of a flush add to a peer's account. */
  function Flushed(client: Table, server: Table, n: nat, role: bool, p: Ip): nat
    requires n <= MAX_NUM_HOST_CONTACTS
  {
    if role then Held(client, n, p) + Held(server, n, p) else 0
  }

  lemma {:induction false} FlushToExact(b: Books, client: Table, server: Table, n: nat, me: Me, day: string,
      role: bool, p: Ip, on: Option<string>, k: nat)
    requires n <= MAX_NUM_HOST_CONTACTS && KnownTable(client) && KnownTable(server)
    requires Orderly(b, k + 2 * n) && ShortName(me) && Proper(p) && Known(b, me)
    requires Consistent(me.policy, p) && (role || NotSelf(b, me, p))
    ensures var r := FlushTo(b, client, server, n, me, day);
      && Orderly(r, k) && Extends(b.ids, r.ids) && Known(r, me)
      && Gains(b, r, me, role, p, on,
           if Within(on, day) && me.policy(p) then Flushed(client, server, n, role, p) else 0)
  {
    hide Orderly, NotSelf, StoredFor, MirroredFor, Consistent, Part, FlushSlot, Proper;
    if n > 0 {
      hide Gains, Extends;
      FlushToExact(b, client, server, n - 1, me, day, role, p, on, k + 2);
      var r := FlushTo(b, client, server, n - 1, me, day);
      var s := FlushSlot(r, client[n - 1], me, day);
      var u := FlushSlot(s, server[n - 1], me, day);
      SelfKept(b, r, me, p);
      FlushSlotExact(r, client[n - 1], me, day, role, p, on, k + 1);
      SelfKept(r, s, me, p);
      FlushSlotExact(s, server[n - 1], me, day, role, p, on, k);
      var stored := role && Within(on, day) && me.policy(p);
      var x, y := if stored then Part(client[n - 1], p) else 0, if stored then Part(server[n - 1], p) else 0;
      var z := if Within(on, day) && me.policy(p) then Flushed(client, server, n - 1, role, p) else 0;
      GainsVia(b, r, s, me, role, p, on, z, x);
      GainsVia(b, s, u, me, role, p, on, z + x, y);
      ExtendsVia(b, r, s);
      ExtendsVia(b, s, u);
    }
  }

  /** What a flush adds to a peer's account as a client, on the day of the flush only, is what the client
      table holds if and only if none of the server slots it looks at is the peer's; what it adds to its
      account as a server is what the server table holds if and only if that is nothing: those go to the
      wrong role. Nothing is added for peers that the policy refuses. */
  lemma FlushExact(b: Books, client: Table, server: Table, me: Me, day: string, role: bool, p: Ip, on: Option<string>,
      k: nat) returns (more: nat)
    requires Packed(client) && KnownTable(client) && KnownTable(server) && Orderly(b, k + 2 * MAX_NUM_HOST_CONTACTS)
    requires ShortName(me) && Proper(p) && Known(b, me) && Consistent(me.policy, p)
    requires role || NotSelf(b, me, p)
    ensures Orderly(Flush(b, client, server, me, day), k)
    ensures Gains(b, Flush(b, client, server, me, day), me, role, p, on,
      if Within(on, day) && me.policy(p) then more else 0)
    ensures more == if role then HeldAll(client, p) + Held(server, Occupied(client, 0), p) else 0
    ensures role ==> (more == HeldAll(client, p) <==> Held(server, Occupied(client, 0), p) == 0)
    ensures !role ==> (more == HeldAll(server, p) <==> HeldAll(server, p) == 0)
  {
    hide NotSelf, StoredFor, Consistent, Part, FlushTo, Proper, HostIds.Sound, Occupied, Gains;
    var n := Occupied(client, 0);
    assert Orderly(b, k + 2 * n);
    FlushToExact(b, client, server, n, me, day, role, p, on, k);
    PackedHeld(client, MAX_NUM_HOST_CONTACTS, p);
    more := Flushed(client, server, n, role, p);
  }

  /** From empty tables to a flush: the store then has the exact number of a peer's contacts as a
      client if and only if no server slot that the flush looks at is the peer's, and as a server if
      and only if the server table holds none of them. */
  lemma RunFlushed(b: Books, me: Me, acts: seq<Act>, day: string, role: bool, p: Ip)
    requires InRange(acts) && AllAllowed(b, me, acts) && Orderly(b, |acts| + 2 * MAX_NUM_HOST_CONTACTS)
    requires forall a :: a in acts && a.Contact? ==> a.value > 0
    requires ShortName(me) && Proper(p) && Known(b, me) && NotSelf(b, me, p)
    requires Consistent(me.policy, p) && me.policy(p) && me.serial > 0
    ensures var c := RunContacts(b, me, acts);
      var r := Flush(c.books, c.client, c.server, me, day);
      Gains(b, r, me, role, p, None, Total(acts, role, p)) <==>
        if role then Held(c.server, Occupied(c.client, 0), p) == 0 else HeldAll(c.server, p) == 0
  {
    hide Orderly, NotSelf, StoredFor, MirroredFor, Consistent, Proper, HeldAll, RunContacts, Moved, Flush, Occupied;
    hide Packed, KnownTable;
    var c := RunContacts(b, me, acts);
    TableExact(b, me, acts, true, p);
    TableExact(b, me, acts, false, p);
    RunPacked(b, me, acts, true);
    BankExact(b, me, acts, role, p, None, 2 * MAX_NUM_HOST_CONTACTS);
    SelfKept(b, c.books, me, p);
    var more := FlushExact(c.books, c.client, c.server, me, day, role, p, None, 0);
    GainsVia(b, c.books, Flush(c.books, c.client, c.server, me, day), me, role, p, None,
      Moved(OutsOf(c, role), p, None), more);
  }

  // ----- the object -----

  /** The counters that the contacts are stored in. */
  class ContactStore {
    var log: seq<Dump>

    constructor ()
      ensures log == []
    {
      log := [];
    }

    method IncrHostContacts(day: string, host: u32, client: bool, peer: u32, n: u32)
      modifies this
      ensures log == old(log) + [Dump(day, host, client, peer, n)]
    {
      log := log + [Dump(day, host, client, peer, n)];
    }
  }

  class HostContacts {
    const clientContacts: array<Slot>
    const serverContacts: array<Slot>

    ghost predicate Valid() {
      clientContacts.Length == MAX_NUM_HOST_CONTACTS == serverContacts.Length && clientContacts != serverContacts
    }

    ghost function Client(): Table
      requires Valid()
      reads clientContacts
    {
      clientContacts[..]
    }

    ghost function Server(): Table
      requires Valid()
      reads serverContacts
    {
      serverContacts[..]
    }

    constructor ()
      ensures Valid() && fresh(clientContacts) && fresh(serverContacts)
      ensures Client() == EmptyTable() && Server() == EmptyTable()
    {
      clientContacts := new Slot[MAX_NUM_HOST_CONTACTS](i => EMPTY_SLOT);
      serverContacts := new Slot[MAX_NUM_HOST_CONTACTS](i => EMPTY_SLOT);
    }

    /** The loop over the slots: the peer's or the first empty one, or else the one to discard. */
    method Scan(contacts: array<Slot>, peer: Ip) returns (hit: nat, least: int)
      requires contacts.Length == MAX_NUM_HOST_CONTACTS
      ensures hit == Hit(contacts[..], peer, 0)
      ensures hit == MAX_NUM_HOST_CONTACTS ==> least == Victim(contacts[..], MAX_NUM_HOST_CONTACTS)
    {
      ghost var t := contacts[..];
      hide Hit, Same, Compare, Victim;
      var leastValue := 0;
      least := -1;
      for i := 0 to MAX_NUM_HOST_CONTACTS
        invariant Hit(t, peer, 0) == Hit(t, peer, i)
        invariant if i == 0 then least == -1 else least == Victim(t, i) && leastValue == t[least].num
      {
        HitStep(t, peer, i);
        VictimStep(t, i);
        if contacts[i].num == 0 {
          return i, least;
        } else if Compare(contacts[i].host, peer) == 0 {
          return i, least;
        } else if least == -1 || leastValue > contacts[i].num {
          least, leastValue := i, contacts[i].num;
        }
      }
      HitEnd(t, peer);
      hit := MAX_NUM_HOST_CONTACTS;
    }

    ghost function BooksOf(store: ContactStore, redis: HostIds.Redis): Books
      reads store, redis
    {
      Books(store.log, redis.Contents())
    }

    /** Counts in one of the two tables. An evicted counter goes to the store from both sides, or is
        lost when the policy or a missing serial forbids storing it. */
    method IncrIpContacts(store: ContactStore, redis: HostIds.Redis, me: Me, day: string, peer: Ip, client: bool,
        contacts: array<Slot>, value: u32)
      requires contacts.Length == MAX_NUM_HOST_CONTACTS
      modifies contacts, store, redis
      ensures contacts[..] == Incr(old(contacts[..]), peer, value)
      ensures BooksOf(store, redis) ==
        Evict(old(BooksOf(store, redis)), me, day, client, Evicted(old(contacts[..]), peer))
    {
      hide Hit, Victim, Put;
      var i, least := Scan(contacts, peer);
      if i == MAX_NUM_HOST_CONTACTS {
        Replace(store, redis, me, day, client, contacts, least, Slot(peer, value));
      } else if contacts[i].num == 0 {
        SetSlot(contacts, i, Slot(peer, value));
      } else {
        SetSlot(contacts, i, contacts[i].(num := (contacts[i].num + value) % TWO_32));
      }
    }

    method SetSlot(contacts: array<Slot>, i: nat, s: Slot)
      requires i < contacts.Length
      modifies contacts
      ensures contacts[..] == old(contacts[..])[i := s]
    {
      contacts[i] := s;
    }

    /** Discards a slot's contents for a new peer's. */
    method Replace(store: ContactStore, redis: HostIds.Redis, me: Me, day: string, client: bool, contacts: array<Slot>,
        least: nat, s: Slot)
      requires contacts.Length == MAX_NUM_HOST_CONTACTS && least < contacts.Length
      modifies store, contacts, redis
      ensures contacts[..] == old(contacts[..])[least := s]
      ensures BooksOf(store, redis) == Evict(old(BooksOf(store, redis)), me, day, client, Some(old(contacts[least])))
    {
      var e := contacts[least];
      contacts[least] := s;
      if me.policy(e.host) {
        if me.serial > 0 {
          PutSlot(store, redis, me, day, client, e);
        }
      }
    }

    /** The peer's serial is looked up and both sides are stored. */
    method PutSlot(store: ContactStore, redis: HostIds.Redis, me: Me, day: string, client: bool, s: Slot)
      modifies store, redis
      ensures BooksOf(store, redis) == Put(old(BooksOf(store, redis)), me, day, client, s)
    {
      hide HostIds.HostKey, HostIds.Step, HostIds.HostToId, AddressText.Print;
      var peerSerial, _ := redis.HostId(me.iface, day, AddressText.Print(s.host));
      DbDumpHost(store, day, me.serial, peerSerial, client, s.num);
      DbDumpHost(store, day, peerSerial, me.serial, !client, s.num);
    }

    method IncrContact(store: ContactStore, redis: HostIds.Redis, me: Me, day: string, peer: Ip, client: bool,
        value: u32)
      requires Valid()
      modifies clientContacts, serverContacts, store, redis
      ensures Client() == if client then Incr(old(Client()), peer, value) else old(Client())
      ensures Server() == if client then old(Server()) else Incr(old(Server()), peer, value)
      ensures var e := Evicted(old(if client then Client() else Server()), peer);
        BooksOf(store, redis) == Evict(old(BooksOf(store, redis)), me, day, client, e)
    {
      IncrIpContacts(store, redis, me, day, peer, client, if client then clientContacts else serverContacts, value);
    }

    method DbDumpHost(store: ContactStore, day: string, host: u32, peer: u32, client: bool, n: u32)
      modifies store
      ensures store.log == old(store.log) + [Dump(day, host, client, peer, n)]
    {
      store.IncrHostContacts(day, host, client, peer, n);
    }

    method DumpSlot(store: ContactStore, redis: HostIds.Redis, me: Me, day: string, s: Slot)
      modifies store, redis
      ensures BooksOf(store, redis) == FlushSlot(old(BooksOf(store, redis)), s, me, day)
    {
      hide Put;
      if s.num > 0 {
        if me.policy(s.host) {
          PutSlot(store, redis, me, day, true, s);
        }
      }
    }

    method DbDumpAllHosts(store: ContactStore, redis: HostIds.Redis, me: Me, day: string)
      requires Valid()
      modifies store, redis
      ensures BooksOf(store, redis) == Flush(old(BooksOf(store, redis)), Client(), Server(), me, day)
    {
      hide FlushSlot, Occupied;
      ghost var c, s, b := Client(), Server(), BooksOf(store, redis);
      for i := 0 to MAX_NUM_HOST_CONTACTS
        invariant Client() == c && Server() == s && Occupied(c, 0) == Occupied(c, i)
        invariant BooksOf(store, redis) == FlushTo(b, c, s, i, me, day)
      {
        OccupiedStep(c, i);
        if clientContacts[i].num == 0 {
          return;
        }
        DumpSlot(store, redis, me, day, clientContacts[i]);
        DumpSlot(store, redis, me, day, serverContacts[i]);
      }
      OccupiedStep(c, 0);
    }

    method PurgeAll()
      requires Valid()
      modifies clientContacts, serverContacts
      ensures Client() == EmptyTable() && Server() == EmptyTable()
    {
      for i := 0 to MAX_NUM_HOST_CONTACTS
        invariant forall j :: 0 <= j < i ==> clientContacts[j] == EMPTY_SLOT && serverContacts[j] == EMPTY_SLOT
      {
        clientContacts[i], serverContacts[i] := EMPTY_SLOT, EMPTY_SLOT;
      }
    }

    /** In a packed table, stopping at the first empty slot loses nothing, and the sum of 32 bits
        does not wrap around. */
    method GetNumContactsBy(peer: Ip) returns (num: u32)
      requires Valid()
      ensures num == Held(Client(), Occupied(Client(), 0), peer) % TWO_32
      ensures Packed(Client()) ==> num == HeldAll(Client(), peer)
    {
      hide Compare, Same, Held, Occupied, Packed;
      ghost var t := Client();
      HeldStep(t, 0, peer);
      OccupiedStep(t, 0);
      num := 0;
      var i := 0;
      while i < MAX_NUM_HOST_CONTACTS && clientContacts[i].num != 0
        invariant 0 <= i <= MAX_NUM_HOST_CONTACTS && Occupied(t, 0) == Occupied(t, i)
        invariant num == Held(t, i, peer) % TWO_32
      {
        HeldStep(t, i, peer);
        OccupiedStep(t, i);
        AddWraps(Held(t, i, peer), clientContacts[i].num);
        if Compare(clientContacts[i].host, peer) == 0 {
          num := (num + clientContacts[i].num) % TWO_32;
        }
        i := i + 1;
      }
      if i < MAX_NUM_HOST_CONTACTS {
        OccupiedStep(t, i);
      }
      if Packed(t) {
        PackedHeld(t, MAX_NUM_HOST_CONTACTS, peer);
        PackedOne(t, i, peer);
      }
    }
  }

  lemma AddWraps(a: nat, b: nat)
    ensures (a % TWO_32 + b) % TWO_32 == (a + b) % TWO_32
  {
  }

  lemma HitStep(t: Table, peer: Ip, i: nat)
    requires i < MAX_NUM_HOST_CONTACTS
    ensures Hit(t, peer, i) == if t[i].num == 0 || Compare(t[i].host, peer) == 0 then i else Hit(t, peer, i + 1)
  {
    hide Compare, Same;
    CompareOrders(t[i].host, peer, peer);
  }

  lemma HitEnd(t: Table, peer: Ip)
    ensures Hit(t, peer, MAX_NUM_HOST_CONTACTS) == MAX_NUM_HOST_CONTACTS
  {
  }

  lemma VictimStep(t: Table, i: nat)
    requires i < MAX_NUM_HOST_CONTACTS
    ensures Victim(t, i + 1) == if i == 0 || t[Victim(t, i)].num > t[i].num then i else Victim(t, i)
  {
  }

  lemma OccupiedStep(t: Table, i: nat)
    requires i < MAX_NUM_HOST_CONTACTS
    ensures Occupied(t, i) == if t[i].num == 0 then i else Occupied(t, i + 1)
    ensures Occupied(t, MAX_NUM_HOST_CONTACTS) == MAX_NUM_HOST_CONTACTS
  {
  }

  lemma HeldStep(t: Table, i: nat, peer: Ip)
    requires i < MAX_NUM_HOST_CONTACTS
    ensures Held(t, 0, peer) == 0
    ensures Held(t, i + 1, peer) == Held(t, i, peer) + if Compare(t[i].host, peer) == 0 then t[i].num else 0
  {
    hide Compare, Same;
    CompareOrders(t[i].host, peer, peer);
  }
}
