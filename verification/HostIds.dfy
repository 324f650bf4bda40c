/** Host serials of ntopng/Redis.cpp: one hash a day maps host keys to serials and back. */
module HostIds {
  import opened Addresses
  import opened Inet4

  // ----- serials as text -----

  /** "%u". */
  function Text(n: nat): (s: string)
    ensures s != "" && AllDigits(s)
  {
    if n < 10 then [Digit(n)] else Text(n / 10) + [Digit(n % 10)]
  }

  /** atol; what the hash holds for a host is always a number. */
  function Atol(s: string): nat { if AllDigits(s) then ValueFrom(0, s) else 0 }

  lemma {:induction false} ValueSnoc(v: nat, f: string, c: char)
    requires AllDigits(f) && IsDigit(c)
    ensures AllDigits(f + [c]) && ValueFrom(v, f + [c]) == ValueFrom(v, f) * 10 + DigitValue(c)
    decreases |f|
  {
    if f == "" {
      assert f + [c] == [c] && [c][1..] == "";
    } else {
      assert (f + [c])[1..] == f[1..] + [c];
      ValueSnoc(v * 10 + DigitValue(f[0]), f[1..], c);
    }
  }

  lemma {:induction false} AtolText(n: nat)
    ensures Atol(Text(n)) == n
  {
    if n < 10 {
      assert Text(n)[1..] == "" && DigitValue(Digit(n)) == n && ValueFrom(n, "") == n;
    } else {
      AtolText(n / 10);
      ValueSnoc(0, Text(n / 10), Digit(n % 10));
    }
  }

  // ----- keys -----

  const KEY_LENGTH: nat := 383

  /** The field of a host: interface and name, cut off at the size of the buffer. */
  function HostKey(iface: string, name: string): string {
    var s := iface + "|" + name;
    if |s| <= KEY_LENGTH then s else s[..KEY_LENGTH]
  }

  predicate IsKey(s: string) { '|' in s }

  lemma KeyIsKey(iface: string, name: string)
    requires |iface| < KEY_LENGTH
    ensures IsKey(HostKey(iface, name))
  {
    assert HostKey(iface, name)[|iface|] == '|';
  }

  function Cut(s: string, n: nat): string { if |s| <= n then s else s[..n] }

  /** Two names of one interface have the same key exactly if they agree as far as there is room in 383
      characters. */
  lemma KeyRoom(iface: string, n1: string, n2: string)
    requires |iface| <= 382
    ensures HostKey(iface, n1) == HostKey(iface, n2) <==> Cut(n1, 382 - |iface|) == Cut(n2, 382 - |iface|)
  {
    var p, k := iface + "|", 382 - |iface|;
    KeyIs(iface, n1);
    KeyIs(iface, n2);
    hide Cut, HostKey;
    if p + Cut(n1, k) == p + Cut(n2, k) {
      assert Cut(n1, k) == (p + Cut(n1, k))[|p|..] && Cut(n2, k) == (p + Cut(n2, k))[|p|..];
    }
  }

  lemma KeyIs(iface: string, name: string)
    requires |iface| <= 382
    ensures HostKey(iface, name) == (iface + "|") + Cut(name, 382 - |iface|)
  {
    var p := iface + "|";
    assert p + name == iface + "|" + name;
    if |name| > 382 - |iface| {
      assert (p + name)[..383] == p + name[..382 - |iface|];
    }
  }

  lemma TextIsNoKey(n: nat)
    ensures !IsKey(Text(n))
  {
    var s := Text(n);
    assert forall i :: 0 <= i < |s| ==> IsDigit(s[i]);
  }

  // ----- the store -----

  datatype Store = Store(hashes: map<string, map<string, string>>, serial: nat)

  function Get(r: Store, day: string, field: string): Option<string> {
    if day in r.hashes && field in r.hashes[day] then Some(r.hashes[day][field]) else None
  }

  function Set(r: Store, day: string, field: string, value: string): Store {
    var hash := if day in r.hashes then r.hashes[day] else map[];
    r.(hashes := r.hashes[day := hash[field := value]])
  }

  lemma GetSet(r: Store, day: string, field: string, value: string, d: string, f: string)
    ensures Get(Set(r, day, field, value), d, f) == if d == day && f == field then Some(value) else Get(r, d, f)
  {
  }

  /** setHostId: forth and back. */
  function SetHostId(r: Store, day: string, key: string, id: u32): Store {
    Set(Set(r, day, key, Text(id)), day, Text(id), key)
  }

  /** host_to_id: the store, the serial, and whether it is new. */
  function HostToId(r: Store, day: string, key: string): (Store, u32, bool) {
    match Get(r, day, key)
    case None =>
      var id := (r.serial + 1) % TWO_32;
      (SetHostId(r.(serial := r.serial + 1), day, key, id), id, true)
    case Some(v) => (r, Atol(v) % TWO_32, false)
  }

  function IdToHost(r: Store, day: string, id: string): Option<string> { Get(r, day, id) }

  // ----- runs -----

  /** A host asks for its serial, or confirms on a new day the one that it was given. */
  datatype Event = Lookup(day: string, key: string) | Confirm(day: string, key: string, id: u32)

  /** The store, and who was given which serial. */
  datatype World = World(store: Store, owner: map<u32, string>)

  function Step(w: World, e: Event): World {
    match e
    case Lookup(day, key) =>
      var (r, id, isNew) := HostToId(w.store, day, key);
      World(r, if isNew then w.owner[id := key] else w.owner)
    case Confirm(day, key, id) => World(SetHostId(w.store, day, key, id), w.owner)
  }

  /** A host confirms only a serial that it was given. */
  predicate Allowed(w: World, e: Event) {
    IsKey(e.key) && (e.Confirm? ==> e.id in w.owner && w.owner[e.id] == e.key)
  }

  function Run(es: seq<Event>): World {
    if es == [] then World(Store(map[], 0), map[]) else Step(Run(es[..|es| - 1]), es[|es| - 1])
  }

  predicate AllAllowed(es: seq<Event>) {
    es == [] || (AllAllowed(es[..|es| - 1]) && Allowed(Run(es[..|es| - 1]), es[|es| - 1]))
  }

  /** What one field may hold: a key its serial, with the way back; a serial its owner. */
  predicate GoodEntry(w: World, day: string, f: string, v: string) {
    if IsKey(f) then
      Atol(v) in w.owner && v == Text(Atol(v)) && w.owner[Atol(v)] == f && Get(w.store, day, v) == Some(f)
    else
      Atol(f) in w.owner && f == Text(Atol(f)) && w.owner[Atol(f)] == v
  }

  ghost predicate Sound(w: World) {
    && (forall id :: id in w.owner ==> 1 <= id <= w.store.serial && IsKey(w.owner[id]))
    && (forall day, f :: Get(w.store, day, f).Some? ==> GoodEntry(w, day, f, Get(w.store, day, f).value))
  }

  /** Writing an owned serial keeps everything sound, whatever else its key already had. */
  lemma SetSound(w: World, day: string, key: string, id: u32)
    requires Sound(w) && id in w.owner && w.owner[id] == key
    ensures Sound(World(SetHostId(w.store, day, key, id), w.owner))
  {
    var r := SetHostId(w.store, day, key, id);
    var x := World(r, w.owner);
    assert r.serial == w.store.serial;
    AtolText(id);
    TextIsNoKey(id);
    hide Atol, Text, Set;
    GetSet(Set(w.store, day, key, Text(id)), day, Text(id), key, day, Text(id));
    forall d, f | Get(r, d, f).Some? ensures GoodEntry(x, d, f, Get(r, d, f).value) {
      var v := Get(r, d, f).value;
      SetHostIdGet(w.store, day, key, id, d, f);
      if d == day && f == Text(id) {
        assert GoodEntry(x, d, f, v);
      } else if d == day && f == key {
        assert GoodEntry(x, d, f, v);
      } else {
        assert GoodEntry(w, d, f, v);
        SetHostIdGet(w.store, day, key, id, d, v);
      }
    }
  }

  lemma SetHostIdGet(r: Store, day: string, key: string, id: u32, d: string, f: string)
    ensures Get(SetHostId(r, day, key, id), d, f) ==
      if d == day && f == Text(id) then Some(key)
      else if d == day && f == key then Some(Text(id))
      else Get(r, d, f)
  {
    hide Set, Get;
    GetSet(Set(r, day, key, Text(id)), day, Text(id), key, d, f);
    GetSet(r, day, key, Text(id), d, f);
  }

  /** A serial that was never given out is not in the store. */
  lemma NewSound(w: World, day: string, key: string)
    requires Sound(w) && IsKey(key) && w.store.serial + 1 < TWO_32 && Get(w.store, day, key) == None
    ensures var id := w.store.serial + 1;
      Sound(World(SetHostId(w.store.(serial := id), day, key, id), w.owner[id := key]))
  {
    var id := w.store.serial + 1;
    var x := World(w.store.(serial := id), w.owner[id := key]);
    assert Sound(x) by {
      hide Atol, Text;
      forall d, f | Get(x.store, d, f).Some? ensures GoodEntry(x, d, f, Get(x.store, d, f).value) {
        assert GoodEntry(w, d, f, Get(w.store, d, f).value);
      }
    }
    SetSound(x, day, key, id);
  }

  lemma StepSound(w: World, e: Event)
    requires Sound(w) && Allowed(w, e) && w.store.serial + 1 < TWO_32
    ensures Sound(Step(w, e)) && w.store.serial <= Step(w, e).store.serial <= w.store.serial + 1
    ensures forall id :: id in w.owner ==> id in Step(w, e).owner && Step(w, e).owner[id] == w.owner[id]
  {
    hide Atol, Text, GoodEntry;
    match e
    case Lookup(day, key) =>
      if Get(w.store, day, key) == None {
        NewSound(w, day, key);
      }
    case Confirm(day, key, id) => SetSound(w, day, key, id);
  }

  lemma {:induction false} RunSound(es: seq<Event>)
    requires AllAllowed(es) && |es| < TWO_32
    ensures Sound(Run(es)) && Run(es).store.serial <= |es|
  {
    if es != [] {
      RunSound(es[..|es| - 1]);
      StepSound(Run(es[..|es| - 1]), es[|es| - 1]);
    }
  }

  /** A host that asks is given a serial that is its own. */
  lemma LookupOwned(w: World, day: string, key: string)
    requires Sound(w) && IsKey(key) && w.store.serial + 1 < TWO_32
    ensures var v, id := Step(w, Lookup(day, key)), HostToId(w.store, day, key).1;
      && v.store == HostToId(w.store, day, key).0
      && Sound(v) && id in v.owner && v.owner[id] == key && v.store.serial <= w.store.serial + 1
  {
    StepSound(w, Lookup(day, key));
    hide Atol, Text, Sound, SetHostId, IsKey;
    if Get(w.store, day, key).Some? {
      StoredKey(w, day, key);
    }
  }

  // ----- the map is two-way -----

  /** A key that is stored has a serial that leads back to it. */
  lemma StoredKey(w: World, day: string, key: string)
    requires Sound(w) && IsKey(key) && Get(w.store, day, key).Some?
    ensures var (r, id, isNew) := HostToId(w.store, day, key);
      && r == w.store && !isNew && Get(w.store, day, key) == Some(Text(id)) && IdToHost(r, day, Text(id)) == Some(key)
      && id in w.owner && w.owner[id] == key
  {
    hide Atol, Text, Get, IsKey;
    assert GoodEntry(w, day, key, Get(w.store, day, key).value);
  }

  /** Right after its serial was set, a key has it. */
  lemma JustSet(r: Store, day: string, key: string, id: u32)
    requires IsKey(key)
    ensures var s := SetHostId(r, day, key, id);
      && HostToId(s, day, key) == (s, id, false) && IdToHost(s, day, Text(id)) == Some(key)
  {
    AtolText(id);
    TextIsNoKey(id);
    SetHostIdGet(r, day, key, id, day, key);
    SetHostIdGet(r, day, key, id, day, Text(id));
    hide Atol, Text, Get, SetHostId, IsKey;
  }

  /** In every reachable store: looking back the serial that host_to_id gives for a key finds the
      key, whether the serial is old or new; and asking again gives the same serial. */
  lemma TwoWay(es: seq<Event>, day: string, key: string)
    requires AllAllowed(es) && |es| < TWO_32 && IsKey(key)
    ensures var (r, id, isNew) := HostToId(Run(es).store, day, key);
      && IdToHost(r, day, Text(id)) == Some(key)
      && HostToId(r, day, key) == (r, id, false)
      && (isNew <==> Get(Run(es).store, day, key) == None)
  {
    RunSound(es);
    hide Run, AllAllowed, Text, Sound, Atol, Get, IsKey, SetHostId;
    var w := Run(es);
    if Get(w.store, day, key).Some? {
      StoredKey(w, day, key);
    } else {
      JustSet(w.store.(serial := w.store.serial + 1), day, key, (w.store.serial + 1) % TWO_32);
    }
  }

  /** In every reachable store, two keys that are stored on the same day have the same serial only if
      they are the same key. */
  lemma DistinctSerials(es: seq<Event>, day: string, k1: string, k2: string)
    requires AllAllowed(es) && |es| < TWO_32 && IsKey(k1) && IsKey(k2)
    requires Get(Run(es).store, day, k1).Some? && Get(Run(es).store, day, k2).Some?
    ensures HostToId(Run(es).store, day, k1).1 == HostToId(Run(es).store, day, k2).1 <==> k1 == k2
  {
    RunSound(es);
    hide Run, AllAllowed, Text, Sound, Atol, Get, IsKey, HostToId;
    StoredKey(Run(es), day, k1);
    StoredKey(Run(es), day, k2);
  }

  /** Confirming an old serial wins over a newer one that the key was given in the meantime, and the
      newer one still leads back to the key. */
  lemma ConfirmWins(es: seq<Event>, day: string, key: string, id: u32, newer: u32)
    requires AllAllowed(es) && |es| < TWO_32 && Allowed(Run(es), Confirm(day, key, id))
    requires IdToHost(Run(es).store, day, Text(newer)) == Some(key)
    ensures var r := Step(Run(es), Confirm(day, key, id)).store;
      && HostToId(r, day, key) == (r, id, false) && IdToHost(r, day, Text(id)) == Some(key)
      && IdToHost(r, day, Text(newer)) == Some(key)
  {
    hide Run, AllAllowed, Text, Atol, Get, IsKey, HostToId, SetHostId;
    var s := Run(es).store;
    JustSet(s, day, key, id);
    TextIsNoKey(newer);
    SetHostIdGet(s, day, key, id, day, Text(newer));
  }

  // ----- what is kept -----

  /** The serial that an event gives to its key, or confirms for it. */
  function SerialOf(w: World, e: Event): u32 {
    match e case Lookup(day, key) => HostToId(w.store, day, key).1 case Confirm(_, _, id) => id
  }

  /** An event changes nothing but, on its own day, the fields of its key and of its serial; and a request
      for a key that is there changes nothing at all. */
  lemma StepKeeps(w: World, e: Event, day: string, f: string)
    requires day != e.day || (f != e.key && f != Text(SerialOf(w, e))) ||
      (e.Lookup? && Get(w.store, e.day, e.key).Some?)
    ensures Get(Step(w, e).store, day, f) == Get(w.store, day, f)
  {
    hide Text, Atol, Get, SetHostId;
    var r := w.store.(serial := w.store.serial + 1);
    match e
    case Lookup(d, key) =>
      SetHostIdGet(r, d, key, SerialOf(w, e), day, f);
      SameHashes(w.store, r, day, f);
    case Confirm(d, key, id) => SetHostIdGet(w.store, d, key, id, day, f);
  }

  lemma SameHashes(r: Store, s: Store, day: string, f: string)
    requires s.hashes == r.hashes
    ensures Get(s, day, f) == Get(r, day, f)
  {
  }

  function RunFrom(w: World, es: seq<Event>): World
    decreases |es|
  {
    if es == [] then w else RunFrom(Step(w, es[0]), es[1..])
  }

  predicate AllowedFrom(w: World, es: seq<Event>)
    decreases |es|
  {
    es == [] || (Allowed(w, es[0]) && AllowedFrom(Step(w, es[0]), es[1..]))
  }

  /** The serial that is confirmed last for the key on that day; the one it had, if there is none. */
  function LastConfirmed(es: seq<Event>, day: string, key: string, id: u32): u32
    decreases |es|
  {
    if es == [] then id
    else
      var e := es[0];
      LastConfirmed(es[1..], day, key, if e.Confirm? && e.day == day && e.key == key then e.id else id)
  }

  /** The key has this serial on that day, and first leads back to the key. */
  predicate Has(w: World, day: string, key: string, id: u32, first: u32) {
    && Get(w.store, day, key) == Some(Text(id)) && Get(w.store, day, Text(first)) == Some(key)
    && first in w.owner && w.owner[first] == key
  }

  lemma StepHas(w: World, e: Event, day: string, key: string, id: u32, first: u32)
    requires Sound(w) && Allowed(w, e) && w.store.serial + 1 < TWO_32 && IsKey(key) && Has(w, day, key, id, first)
    ensures Has(Step(w, e), day, key, if e.Confirm? && e.day == day && e.key == key then e.id else id, first)
  {
    StepSound(w, e);
    LookupOwnedAll(w, e);
    TextInjective(first, SerialOf(w, e));
    TextIsNoKey(SerialOf(w, e));
    TextIsNoKey(first);
    hide Sound, Atol, Text, SetHostId, IsKey, Step, SerialOf;
    if e.day == day && e.key == key {
      if e.Confirm? {
        ConfirmSets(w, e);
      } else {
        StepKeeps(w, e, day, key);
      }
    } else {
      StepKeeps(w, e, day, key);
    }
    if e.day == day && SerialOf(w, e) == first {
      StepLeadsBack(w, e);
    } else {
      StepKeeps(w, e, day, Text(first));
    }
  }

  lemma TextInjective(m: nat, n: nat)
    ensures Text(m) == Text(n) ==> m == n
  {
    AtolText(m);
    AtolText(n);
  }

  /** The serial of an event is its key's. */
  lemma LookupOwnedAll(w: World, e: Event)
    requires Sound(w) && Allowed(w, e) && w.store.serial + 1 < TWO_32
    ensures var v, id := Step(w, e), SerialOf(w, e); id in v.owner && v.owner[id] == e.key
  {
    if e.Lookup? {
      LookupOwned(w, e.day, e.key);
    }
    hide Sound, Atol, Text, SetHostId;
  }

  lemma ConfirmSets(w: World, e: Event)
    requires e.Confirm? && IsKey(e.key)
    ensures Get(Step(w, e).store, e.day, e.key) == Some(Text(e.id))
  {
    TextIsNoKey(e.id);
    SetHostIdGet(w.store, e.day, e.key, e.id, e.day, e.key);
  }

  lemma StepLeadsBack(w: World, e: Event)
    requires Sound(w) && Allowed(w, e) && w.store.serial + 1 < TWO_32
    ensures Get(Step(w, e).store, e.day, Text(SerialOf(w, e))) == Some(e.key)
  {
    hide Sound, Atol, Text, SetHostId, Get, IsKey;
    match e
    case Lookup(day, key) =>
      if Get(w.store, day, key).Some? {
        StoredKey(w, day, key);
      } else {
        var r, id := w.store.(serial := w.store.serial + 1), (w.store.serial + 1) % TWO_32;
        SetHostIdGet(r, day, key, id, day, Text(id));
      }
    case Confirm(day, key, id) => SetHostIdGet(w.store, day, key, id, day, Text(id));
  }

  lemma {:induction false} RunHas(w: World, es: seq<Event>, day: string, key: string, id: u32, first: u32)
    requires Sound(w) && AllowedFrom(w, es) && w.store.serial + |es| < TWO_32 && IsKey(key)
    requires Has(w, day, key, id, first)
    ensures Sound(RunFrom(w, es)) && Has(RunFrom(w, es), day, key, LastConfirmed(es, day, key, id), first)
    decreases |es|
  {
    hide Sound, Allowed, Step, Has, IsKey;
    if es != [] {
      var e := es[0];
      StepSound(w, e);
      StepHas(w, e, day, key, id, first);
      RunHas(Step(w, e), es[1..], day, key, if e.Confirm? && e.day == day && e.key == key then e.id else id, first);
    }
  }

  lemma HasGives(w: World, day: string, key: string, id: u32, first: u32)
    requires Has(w, day, key, id, first)
    ensures HostToId(w.store, day, key) == (w.store, id, false) && IdToHost(w.store, day, Text(first)) == Some(key)
  {
    AtolText(id);
    hide Atol, Text;
  }

  /** A key that asked for its serial is given the same one by every later request of that day, whatever
      other keys and days do meanwhile, unless another one was confirmed for it: then the last of
      those. The first one leads back to the key in any case. */
  lemma SerialStays(es: seq<Event>, day: string, key: string, more: seq<Event>)
    requires AllAllowed(es) && IsKey(key) && |es| + 1 + |more| < TWO_32
    requires AllowedFrom(Step(Run(es), Lookup(day, key)), more)
    ensures var id := HostToId(Run(es).store, day, key).1;
      var r := RunFrom(Step(Run(es), Lookup(day, key)), more).store;
      && HostToId(r, day, key) == (r, LastConfirmed(more, day, key, id), false)
      && IdToHost(r, day, Text(id)) == Some(key)
  {
    var w, e := Run(es), Lookup(day, key);
    RunSound(es);
    hide Run, AllAllowed, AllowedFrom, Text, Sound, Atol, IsKey, SetHostId, Has, RunFrom, LastConfirmed;
    var id := HostToId(w.store, day, key).1;
    LookupOwned(w, day, key);
    FirstHas(w, day, key);
    RunHas(Step(w, e), more, day, key, id, id);
    HasGives(RunFrom(Step(w, e), more), day, key, LastConfirmed(more, day, key, id), id);
  }

  lemma FirstHas(w: World, day: string, key: string)
    requires Sound(w) && IsKey(key) && w.store.serial + 1 < TWO_32
    ensures var id := HostToId(w.store, day, key).1; Has(Step(w, Lookup(day, key)), day, key, id, id)
  {
    var e := Lookup(day, key);
    LookupOwned(w, day, key);
    StepLeadsBack(w, e);
    hide Sound, Atol, Text, SetHostId, IsKey;
    if Get(w.store, day, key).Some? {
      StoredKey(w, day, key);
    } else {
      var id := (w.store.serial + 1) % TWO_32;
      TextIsNoKey(id);
      SetHostIdGet(w.store.(serial := w.store.serial + 1), day, key, id, day, key);
    }
  }

  // ----- the object -----

  class Redis {
    var hashes: map<string, map<string, string>>
    var hostSerial: nat

    /** Who was given which serial. */
    ghost var owner: map<u32, string>

    ghost function State(): Store
      reads this
    {
      Store(hashes, hostSerial)
    }

    ghost function Contents(): World
      reads this
    {
      World(State(), owner)
    }

    constructor ()
      ensures Contents() == World(Store(map[], 0), map[])
    {
      hashes, hostSerial := map[], 0;
      owner := map[];
    }

    method HashGet(key: string, field: string) returns (r: Option<string>)
      ensures r == Get(State(), key, field)
    {
      if key in hashes && field in hashes[key] {
        return Some(hashes[key][field]);
      }
      return None;
    }

    method HashSet(key: string, field: string, value: string)
      modifies this
      ensures owner == old(owner) && State() == Set(old(State()), key, field, value)
    {
      var hash := if key in hashes then hashes[key] else map[];
      hashes := hashes[key := hash[field := value]];
    }

    method IncrKey() returns (id: u32)
      modifies this
      ensures owner == old(owner) && State() == old(State()).(serial := old(hostSerial) + 1)
      ensures id == (old(hostSerial) + 1) % TWO_32
    {
      hostSerial := hostSerial + 1;
      id := hostSerial % TWO_32;
    }

    method SetId(iface: string, day: string, name: string, id: u32)
      modifies this
      ensures owner == old(owner) && State() == SetHostId(old(State()), day, HostKey(iface, name), id)
    {
      hide HostKey, Text;
      var keybuf, hostId := HostKey(iface, name), Text(id);
      HashSet(day, keybuf, hostId);
      HashSet(day, hostId, keybuf);
    }

    method HostId(iface: string, day: string, name: string) returns (id: u32, isNew: bool)
      modifies this
      ensures (State(), id, isNew) == HostToId(old(State()), day, HostKey(iface, name))
      ensures Contents() == Step(old(Contents()), Lookup(day, HostKey(iface, name)))
    {
      hide HostKey, Text, Atol;
      var rsp := HashGet(day, HostKey(iface, name));
      if rsp == None {
        id := IncrKey();
        SetId(iface, day, name, id);
        owner := owner[id := HostKey(iface, name)];
        isNew := true;
      } else {
        id, isNew := Atol(rsp.value) % TWO_32, false;
      }
    }

    method HostOf(day: string, hostIdx: string) returns (r: Option<string>)
      ensures r == IdToHost(State(), day, hostIdx)
    {
      r := HashGet(day, hostIdx);
    }
  }
}
