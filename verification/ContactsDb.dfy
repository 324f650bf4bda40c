/** The cache of open contacts databases in ntopng/DB.cpp: eight slots, and the least recently used
    one makes room. */
module ContactsDb {
  import opened Addresses

  const NUM_OPEN_DB_CACHE: nat := 8

  datatype Entry = Entry(open: bool, path: string, lastInsert: nat, inserts: u32)

  const CLOSED_ENTRY := Entry(false, "", 0, 0)

  type Cache = c: seq<Entry> | |c| == NUM_OPEN_DB_CACHE witness seq(NUM_OPEN_DB_CACHE, i => CLOSED_ENTRY)

  datatype Db = Db(cache: Cache, idx: u32)

  function EmptyDb(): Db { Db(seq(NUM_OPEN_DB_CACHE, i => CLOSED_ENTRY), 0) }

  // ----- one statement -----

  datatype Lookup = Found(id: nat) | Purge(id: nat)

  /** The lookup from slot i on; `purge` is the oldest entry before it. */
  function Search(c: Cache, path: string, i: nat, purge: nat): (r: Lookup)
    requires i <= NUM_OPEN_DB_CACHE && purge < NUM_OPEN_DB_CACHE
    ensures r.id < NUM_OPEN_DB_CACHE
    decreases NUM_OPEN_DB_CACHE - i
  {
    if i == NUM_OPEN_DB_CACHE then Purge(purge)
    else if !c[i].open then Purge(i)
    else if c[i].path == path then Found(i)
    else Search(c, path, i + 1, if c[i].lastInsert < c[purge].lastInsert then i else purge)
  }

  /** What may happen to a database that has to be opened. A failing open may or may not leave a
      handle behind. */
  datatype Outcome = Opened | NoDirectory | OpenFailed(handle: bool) | CreateFailed

  function Use(d: Db, id: nat): Db
    requires id < NUM_OPEN_DB_CACHE
  {
    var idx := (d.idx + 1) % TWO_32;
    Db(d.cache[id := d.cache[id].(lastInsert := idx, inserts := (d.cache[id].inserts + 1) % TWO_32)], idx)
  }

  /** One statement for the database at `path`. */
  function Exec(d: Db, path: string, outcome: Outcome): Db {
    match Search(d.cache, path, 0, 0)
    case Found(id) => Use(d, id)
    case Purge(id) =>
      match outcome
      case Opened => Use(d.(cache := d.cache[id := Entry(true, path, 0, 0)]), id)
      case NoDirectory => Use(d.(cache := d.cache[id := Entry(false, "", 0, 0)]), id)
      case OpenFailed(handle) => d.(cache := d.cache[id := Entry(handle, "", 0, 0)])
      case CreateFailed => d.(cache := d.cache[id := CLOSED_ENTRY])
  }

  /** A run in which every open succeeds. */
  function Run(h: seq<string>): Db {
    if h == [] then EmptyDb() else Exec(Run(h[..|h| - 1]), h[|h| - 1], Opened)
  }

  // ----- least recently used -----

  /** The number of the last statement for a path, counted from 1; 0 if there was none. */
  function LastUse(h: seq<string>, path: string): (n: nat)
    ensures n <= |h| && (n > 0 ==> h[n - 1] == path) && (n > 0 <==> path in h)
  {
    if h == [] then 0
    else if h[|h| - 1] == path then |h|
    else
      assert h == h[..|h| - 1] + [h[|h| - 1]];
      LastUse(h[..|h| - 1], path)
  }

  /** How many open entries there are before the first that is not. */
  function OpenTo(c: Cache, i: nat): (n: nat)
    requires i <= NUM_OPEN_DB_CACHE
    ensures i <= n <= NUM_OPEN_DB_CACHE && (forall j :: i <= j < n ==> c[j].open)
    ensures n < NUM_OPEN_DB_CACHE ==> !c[n].open
    decreases NUM_OPEN_DB_CACHE - i
  {
    if i == NUM_OPEN_DB_CACHE || !c[i].open then i else OpenTo(c, i + 1)
  }

  function OpenCount(c: Cache): nat { OpenTo(c, 0) }

  /** No open entry comes after one that is not. */
  ghost predicate NoGap(c: Cache) { forall j :: OpenCount(c) <= j < NUM_OPEN_DB_CACHE ==> !c[j].open }

  /** The first n entries, each stamped with its path's last use, hold no path twice. */
  ghost predicate Stamped(c: Cache, n: nat, h: seq<string>)
    requires n <= NUM_OPEN_DB_CACHE
  {
    && (forall i :: 0 <= i < n ==> c[i].open && c[i].path in h && c[i].lastInsert == LastUse(h, c[i].path))
    && (forall i, j :: 0 <= i < j < n ==> c[i].path != c[j].path)
  }

  ghost predicate IsOpen(c: Cache, n: nat, path: string)
    requires n <= NUM_OPEN_DB_CACHE
  {
    exists i :: 0 <= i < n && c[i].path == path
  }

  /** A path that was used and is not open has been used less recently than all that are, and then
      every slot is taken. */
  ghost predicate Evicted(c: Cache, n: nat, h: seq<string>, path: string)
    requires n <= NUM_OPEN_DB_CACHE
  {
    n == NUM_OPEN_DB_CACHE && forall i :: 0 <= i < n ==> LastUse(h, path) < c[i].lastInsert
  }

  ghost predicate Recent(d: Db, n: nat, h: seq<string>) {
    && n <= NUM_OPEN_DB_CACHE && d.idx == |h|
    && Stamped(d.cache, n, h)
    && (forall j :: n <= j < NUM_OPEN_DB_CACHE ==> !d.cache[j].open)
    && (forall path :: path in h ==> IsOpen(d.cache, n, path) || Evicted(d.cache, n, h, path))
  }

  // ----- what the lookup finds -----

  /** The entry found, or the first free one, or the first of the oldest. */
  lemma {:induction false} SearchIs(c: Cache, n: nat, path: string, i: nat, purge: nat)
    requires i <= n <= NUM_OPEN_DB_CACHE && purge < NUM_OPEN_DB_CACHE
    requires (forall j :: 0 <= j < n ==> c[j].open) && (n < NUM_OPEN_DB_CACHE ==> !c[n].open)
    requires forall j :: 0 <= j < i ==> c[j].path != path && c[purge].lastInsert <= c[j].lastInsert
    ensures var r := Search(c, path, i, purge);
      && (r.Found? ==> r.id < n && c[r.id].path == path)
      && (r.Purge? ==> forall j :: 0 <= j < n ==> c[j].path != path)
      && (r.Purge? && n < NUM_OPEN_DB_CACHE ==> r.id == n)
      && (r.Purge? && n == NUM_OPEN_DB_CACHE ==> forall j :: 0 <= j < n ==> c[r.id].lastInsert <= c[j].lastInsert)
    decreases n - i
  {
    if i < n && c[i].path != path {
      SearchIs(c, n, path, i + 1, if c[i].lastInsert < c[purge].lastInsert then i else purge);
    }
  }

  lemma LastUseNext(h: seq<string>, path: string, q: string)
    ensures LastUse(h + [path], q) == if q == path then |h| + 1 else LastUse(h, q)
  {
    assert (h + [path])[..|h|] == h;
  }

  lemma DifferentUses(h: seq<string>, p: string, q: string)
    requires p != q && p in h
    ensures LastUse(h, p) != LastUse(h, q)
  {
  }

  // ----- the cache keeps the most recently used -----

  /** A slot gets a path and the newest stamp; every other path keeps its place. */
  lemma StampRecent(d: Db, n: nat, h: seq<string>, path: string, k: nat, e: Entry)
    requires Recent(d, n, h) && k < NUM_OPEN_DB_CACHE && k <= n && |h| + 1 < TWO_32
    requires e.open && e.path == path && e.lastInsert == |h| + 1
    requires forall j :: 0 <= j < n && j != k ==> d.cache[j].path != path
    requires k < n && d.cache[k].path != path ==>
      n == NUM_OPEN_DB_CACHE && forall j :: 0 <= j < n ==> d.cache[k].lastInsert <= d.cache[j].lastInsert
    ensures Recent(Db(d.cache[k := e], |h| + 1), if k == n then n + 1 else n, h + [path])
  {
    var c, r, m, g := d.cache, d.cache[k := e], if k == n then n + 1 else n, h + [path];
    assert g[|h|] == path;
    hide LastUse;
    forall i | 0 <= i < m ensures r[i].open && r[i].path in g && r[i].lastInsert == LastUse(g, r[i].path) {
      LastUseNext(h, path, r[i].path);
    }
    assert Stamped(r, m, g);
    forall q | q in g ensures IsOpen(r, m, q) || Evicted(r, m, g, q) {
      OthersRecent(c, n, h, path, k, e, q);
    }
  }

  lemma OthersRecent(c: Cache, n: nat, h: seq<string>, path: string, k: nat, e: Entry, q: string)
    requires n <= NUM_OPEN_DB_CACHE && k < NUM_OPEN_DB_CACHE && k <= n && q in h + [path]
    requires q in h ==> IsOpen(c, n, q) || Evicted(c, n, h, q)
    requires Stamped(c, n, h)
    requires e.open && e.path == path && e.lastInsert == |h| + 1
    requires k < n && c[k].path != path ==>
      n == NUM_OPEN_DB_CACHE && forall j :: 0 <= j < n ==> c[k].lastInsert <= c[j].lastInsert
    ensures var m := if k == n then n + 1 else n;
      IsOpen(c[k := e], m, q) || Evicted(c[k := e], m, h + [path], q)
  {
    var r, m := c[k := e], if k == n then n + 1 else n;
    LastUseNext(h, path, q);
    if q == path {
      assert r[k].path == q;
    } else if IsOpen(c, n, q) {
      var i :| 0 <= i < n && c[i].path == q;
      if i != k {
        assert r[i].path == q;
      } else {
        forall j | 0 <= j < n ensures LastUse(h, q) < r[j].lastInsert {
          if j != k {
            assert c[j].path != q;
            DifferentUses(h, q, c[j].path);
          }
        }
        assert Evicted(r, m, h + [path], q);
      }
    } else {
      assert Evicted(r, m, h + [path], q);
    }
  }

  /** Every statement keeps the cache a cache of the most recently used paths. */
  lemma ExecRecent(d: Db, n: nat, h: seq<string>, path: string) returns (m: nat)
    requires Recent(d, n, h) && |h| + 1 < TWO_32
    ensures Recent(Exec(d, path, Opened), m, h + [path])
  {
    var r := Search(d.cache, path, 0, 0);
    SearchRecent(d, n, h, path);
    ExecShape(d, path);
    hide Recent, Search, Exec, Use, LastUse, Stamped, Evicted, IsOpen;
    var e := Exec(d, path, Opened).cache[r.id];
    StampRecent(d, n, h, path, r.id, e);
    m := if r.id == n then n + 1 else n;
  }

  lemma ExecShape(d: Db, path: string)
    requires d.idx + 1 < TWO_32
    ensures var r := Search(d.cache, path, 0, 0);
      var e := Exec(d, path, Opened);
      && e == Db(d.cache[r.id := e.cache[r.id]], d.idx + 1)
      && e.cache[r.id].open == (r.Purge? || d.cache[r.id].open)
      && e.cache[r.id].path == (if r.Purge? then path else d.cache[r.id].path)
      && e.cache[r.id].lastInsert == e.idx
  {
    hide Search;
  }

  lemma SearchRecent(d: Db, n: nat, h: seq<string>, path: string)
    requires Recent(d, n, h)
    ensures var r := Search(d.cache, path, 0, 0);
      && d.idx == |h| && r.id <= n
      && (r.Found? ==> r.id < n && d.cache[r.id].open && d.cache[r.id].path == path)
      && (forall j :: 0 <= j < n && j != r.id ==> d.cache[j].path != path)
      && (r.id < n && d.cache[r.id].path != path ==>
           n == NUM_OPEN_DB_CACHE && forall j :: 0 <= j < n ==> d.cache[r.id].lastInsert <= d.cache[j].lastInsert)
  {
    hide LastUse, Evicted, IsOpen;
    SearchIs(d.cache, n, path, 0, 0);
  }

  lemma EmptyRecent()
    ensures Recent(EmptyDb(), 0, [])
  {
  }

  lemma {:induction false} RunRecent(h: seq<string>) returns (n: nat)
    requires |h| < TWO_32
    ensures Recent(Run(h), n, h)
    decreases |h|
  {
    if h == [] {
      EmptyRecent();
      n := 0;
    } else {
      hide Recent, Exec;
      var g := h[..|h| - 1];
      assert h == g + [h[|h| - 1]];
      n := RunRecent(g);
      n := ExecRecent(Run(g), n, g, h[|h| - 1]);
    }
  }

  /** The paths used since the last use of this one. */
  ghost function UsedSince(h: seq<string>, path: string): set<string> {
    set q | q in h && LastUse(h, q) > LastUse(h, path)
  }

  ghost function OpenPaths(c: Cache): set<string> {
    set i | 0 <= i < NUM_OPEN_DB_CACHE && c[i].open :: c[i].path
  }

  ghost function FirstPaths(c: Cache, n: nat): set<string>
    requires n <= NUM_OPEN_DB_CACHE
  {
    set i | 0 <= i < n :: c[i].path
  }

  lemma {:induction false} FirstPathsSize(c: Cache, n: nat)
    requires n <= NUM_OPEN_DB_CACHE && forall i, j :: 0 <= i < j < n ==> c[i].path != c[j].path
    ensures |FirstPaths(c, n)| == n
  {
    if n == 0 {
      assert FirstPaths(c, 0) == {};
    } else {
      FirstPathsSize(c, n - 1);
      assert c[n - 1].path !in FirstPaths(c, n - 1);
      assert FirstPaths(c, n) == FirstPaths(c, n - 1) + {c[n - 1].path};
    }
  }

  lemma {:induction false} SubsetSize<T>(a: set<T>, b: set<T>)
    requires a <= b
    ensures |a| <= |b|
  {
    if a != {} {
      var x :| x in a;
      SubsetSize(a - {x}, b - {x});
    }
  }

  /** While every open succeeds: a database is open exactly when it was used and fewer than eight
      others were used since, no database is open twice, and no two open ones have the same stamp. */
  lemma LeastRecentlyUsed(h: seq<string>, path: string)
    requires |h| < TWO_32
    ensures var c := Run(h).cache;
      && (path in OpenPaths(c) <==> path in h && |UsedSince(h, path)| < NUM_OPEN_DB_CACHE)
      && (forall i, j :: 0 <= i < j < NUM_OPEN_DB_CACHE && c[i].open && c[j].open ==>
           c[i].path != c[j].path && c[i].lastInsert != c[j].lastInsert)
  {
    hide Run, LastUse;
    var n := RunRecent(h);
    var d := Run(h);
    var c := d.cache;
    FirstPathsSize(c, n);
    assert OpenPaths(c) == FirstPaths(c, n);
    if path in OpenPaths(c) {
      OpenIsRecent(d, n, h, path);
    } else if path in h {
      assert !IsOpen(c, n, path);
      forall q | q in FirstPaths(c, n) ensures q in UsedSince(h, path) {
        var i :| 0 <= i < n && c[i].path == q;
      }
      SubsetSize(FirstPaths(c, n), UsedSince(h, path));
    }
    forall i, j | 0 <= i < j < n ensures c[i].lastInsert != c[j].lastInsert {
      DifferentUses(h, c[i].path, c[j].path);
    }
  }

  lemma OpenIsRecent(d: Db, n: nat, h: seq<string>, path: string)
    requires Recent(d, n, h) && path in FirstPaths(d.cache, n)
    ensures path in h && |UsedSince(h, path)| < NUM_OPEN_DB_CACHE
  {
    hide LastUse;
    var c := d.cache;
    var i :| 0 <= i < n && c[i].path == path;
    var others := FirstPaths(c, n) - {path};
    forall q | q in UsedSince(h, path) ensures q in others {
      assert !Evicted(c, n, h, q);
    }
    FirstPathsSize(c, n);
    SubsetSize(UsedSince(h, path), others);
  }

  // ----- when an open fails -----

  /** The entry has a database handle afterwards. */
  predicate Leaves(outcome: Outcome) { outcome == Opened || outcome == OpenFailed(true) }

  lemma {:induction false} OpenToIs(c: Cache, i: nat, n: nat)
    requires i <= n <= NUM_OPEN_DB_CACHE
    requires (forall j :: i <= j < n ==> c[j].open) && (n < NUM_OPEN_DB_CACHE ==> !c[n].open)
    ensures OpenTo(c, i) == n
    decreases n - i
  {
    if i < n {
      OpenToIs(c, i + 1, n);
    }
  }

  lemma SearchShape(c: Cache, path: string)
    requires NoGap(c)
    ensures var r, n := Search(c, path, 0, 0), OpenCount(c);
      && (r.Found? ==> r.id < n && c[r.id].path == path)
      && (r.Purge? ==> (forall j :: 0 <= j < n ==> c[j].path != path) && (n < NUM_OPEN_DB_CACHE ==> r.id == n))
  {
    SearchIs(c, OpenCount(c), path, 0, 0);
  }

  /** The slot that a failing open leaves without a handle is followed by open ones exactly when the
      cache was full and the evicted slot was not the last. */
  lemma GapExact(d: Db, path: string, outcome: Outcome)
    requires NoGap(d.cache)
    ensures var r := Search(d.cache, path, 0, 0);
      NoGap(Exec(d, path, outcome).cache) <==>
        r.Found? || Leaves(outcome) || OpenCount(d.cache) < NUM_OPEN_DB_CACHE || r.id == NUM_OPEN_DB_CACHE - 1
  {
    var c, n := d.cache, OpenCount(d.cache);
    SearchShape(c, path);
    var r := Search(c, path, 0, 0);
    hide Search;
    var e := Exec(d, path, outcome).cache;
    assert forall j :: 0 <= j < NUM_OPEN_DB_CACHE && j != r.id ==> e[j] == c[j];
    assert e[r.id].open == (r.Found? || Leaves(outcome));
    hide Exec;
    if e[r.id].open {
      OpenToIs(e, 0, if r.id == n then n + 1 else n);
    } else if n < NUM_OPEN_DB_CACHE {
      OpenToIs(e, 0, n);
    } else {
      OpenToIs(e, 0, r.id);
      assert e[NUM_OPEN_DB_CACHE - 1].open <==> r.id != NUM_OPEN_DB_CACHE - 1;
    }
  }

  /** After such a gap, the next statement for any database that is open behind it opens that
      database a second time. */
  lemma GapReopens(d: Db, path: string, outcome: Outcome, j: nat)
    requires OpenCount(d.cache) == NUM_OPEN_DB_CACHE && !Leaves(outcome)
    requires Search(d.cache, path, 0, 0).Purge? && Search(d.cache, path, 0, 0).id < j < NUM_OPEN_DB_CACHE
    requires forall i, k :: 0 <= i < k < NUM_OPEN_DB_CACHE ==> d.cache[i].path != d.cache[k].path
    ensures var v, q := Search(d.cache, path, 0, 0).id, d.cache[j].path;
      var c := Exec(Exec(d, path, outcome), q, Opened).cache;
      c[v].open && c[j].open && c[v].path == q == c[j].path
  {
    var v, q := Search(d.cache, path, 0, 0).id, d.cache[j].path;
    var e := Exec(d, path, outcome);
    hide Search;
    assert forall i :: 0 <= i < NUM_OPEN_DB_CACHE && i != v ==> e.cache[i] == d.cache[i];
    assert !e.cache[v].open;
    hide Exec;
    SearchToGap(e.cache, q, 0, 0, v);
    ExecAt(e, q, v);
  }

  lemma ExecAt(d: Db, path: string, v: nat)
    requires Search(d.cache, path, 0, 0) == Purge(v)
    ensures var c := Exec(d, path, Opened).cache;
      c[v].open && c[v].path == path && forall i :: 0 <= i < NUM_OPEN_DB_CACHE && i != v ==> c[i] == d.cache[i]
  {
    hide Search;
  }

  lemma {:induction false} SearchToGap(c: Cache, path: string, i: nat, purge: nat, v: nat)
    requires i <= v < NUM_OPEN_DB_CACHE && purge < NUM_OPEN_DB_CACHE && !c[v].open
    requires forall k :: 0 <= k < v ==> c[k].open && c[k].path != path
    ensures Search(c, path, i, purge) == Purge(v)
    decreases v - i
  {
    if i < v {
      SearchToGap(c, path, i + 1, if c[i].lastInsert < c[purge].lastInsert then i else purge, v);
    }
  }

  // ----- runs in which opens may fail -----

  datatype Stmt = Stmt(path: string, outcome: Outcome)

  function RunAll(h: seq<Stmt>): Db {
    if h == [] then EmptyDb()
    else Exec(RunAll(h[..|h| - 1]), h[|h| - 1].path, h[|h| - 1].outcome)
  }

  /** A database is open in two slots. An entry without a path is not a database: it is the handle that
      a failing open left. */
  ghost predicate Twice(c: Cache) { exists i, j :: 0 <= i < j < NUM_OPEN_DB_CACHE && SamePath(c, i, j) }

  predicate SamePath(c: Cache, i: nat, j: nat)
    requires i < NUM_OPEN_DB_CACHE && j < NUM_OPEN_DB_CACHE
  {
    c[i].open && c[j].open && c[i].path == c[j].path != ""
  }

  /** The statement opens a database that the lookup did not find although it is open. */
  ghost predicate Reopens(d: Db, s: Stmt) {
    && s.outcome == Opened && s.path != "" && Search(d.cache, s.path, 0, 0).Purge?
    && exists j :: 0 <= j < NUM_OPEN_DB_CACHE && d.cache[j].open && d.cache[j].path == s.path
  }

  /** The lookup gives up at the first closed slot, or looked at all of them. */
  lemma {:induction false} SearchStops(c: Cache, path: string, i: nat, purge: nat)
    requires i <= NUM_OPEN_DB_CACHE && purge < NUM_OPEN_DB_CACHE
    requires forall j :: 0 <= j < i ==> c[j].open && c[j].path != path
    ensures var r := Search(c, path, i, purge);
      if r.Found? then c[r.id].path == path && forall j :: 0 <= j <= r.id ==> c[j].open
      else if c[r.id].open then forall j :: 0 <= j < NUM_OPEN_DB_CACHE ==> c[j].open && c[j].path != path
      else forall j :: 0 <= j < r.id ==> c[j].open && c[j].path != path
    decreases NUM_OPEN_DB_CACHE - i
  {
    if i < NUM_OPEN_DB_CACHE && c[i].open && c[i].path != path {
      SearchStops(c, path, i + 1, if c[i].lastInsert < c[purge].lastInsert then i else purge);
    }
  }

  /** It opens a database a second time exactly if that is open behind a closed slot, and not before. */
  lemma ReopensBehind(d: Db, s: Stmt)
    ensures Reopens(d, s) <==>
      && s.outcome == Opened && s.path != ""
      && (forall i :: 0 <= i < OpenCount(d.cache) ==> d.cache[i].path != s.path)
      && exists j :: OpenCount(d.cache) < j < NUM_OPEN_DB_CACHE && d.cache[j].open && d.cache[j].path == s.path
  {
    hide Search;
    SearchStops(d.cache, s.path, 0, 0);
    var r := Search(d.cache, s.path, 0, 0);
    if r.Purge? {
      OpenToIs(d.cache, 0, if d.cache[r.id].open then NUM_OPEN_DB_CACHE else r.id);
    } else {
      assert r.id < OpenCount(d.cache);
    }
  }

  /** What a statement does to the slots: the one it found or chose, and no other. */
  lemma ExecSlots(d: Db, s: Stmt)
    ensures var r, c := Search(d.cache, s.path, 0, 0), Exec(d, s.path, s.outcome).cache;
      && (forall i :: 0 <= i < NUM_OPEN_DB_CACHE && i != r.id ==> c[i] == d.cache[i])
      && (r.Found? ==> c[r.id].open == d.cache[r.id].open && c[r.id].path == d.cache[r.id].path)
      && (r.Purge? ==> c[r.id].path == if s.outcome == Opened then s.path else "")
      && (r.Purge? && s.outcome == Opened ==> c[r.id].open)
  {
    hide Search;
  }

  /** As long as no database is open twice, a statement makes it so exactly if it opens one again. */
  lemma StepTwice(d: Db, s: Stmt)
    requires !Twice(d.cache)
    ensures Twice(Exec(d, s.path, s.outcome).cache) <==> Reopens(d, s)
  {
    hide Search, Exec;
    ExecSlots(d, s);
    SearchStops(d.cache, s.path, 0, 0);
    var r, c := Search(d.cache, s.path, 0, 0), Exec(d, s.path, s.outcome).cache;
    if Reopens(d, s) {
      var j :| 0 <= j < NUM_OPEN_DB_CACHE && d.cache[j].open && d.cache[j].path == s.path;
      TwiceAt(c, r.id, j);
    }
    if !Reopens(d, s) {
      forall i, j | 0 <= i < j < NUM_OPEN_DB_CACHE ensures !SamePath(c, i, j) {
        assert !SamePath(d.cache, i, j);
      }
    }
  }

  lemma TwiceAt(c: Cache, i: nat, j: nat)
    requires i != j && i < NUM_OPEN_DB_CACHE && j < NUM_OPEN_DB_CACHE
    requires SamePath(c, i, j)
    ensures Twice(c)
  {
    var k, l := if i < j then i else j, if i < j then j else i;
    assert 0 <= k < l < NUM_OPEN_DB_CACHE && SamePath(c, k, l);
  }

  /** At some time in the history a database is open twice. */
  ghost predicate EverTwice(h: seq<Stmt>) { Twice(RunAll(h).cache) || (h != [] && EverTwice(h[..|h| - 1])) }

  /** Some statement of the history opens a database again. */
  ghost predicate EverReopens(h: seq<Stmt>) {
    h != [] && (EverReopens(h[..|h| - 1]) || Reopens(RunAll(h[..|h| - 1]), h[|h| - 1]))
  }

  /** No closed slot is ever in front of an open one. */
  ghost predicate NeverGap(h: seq<Stmt>) { NoGap(RunAll(h).cache) && (h != [] ==> NeverGap(h[..|h| - 1])) }

  /** Over every history, whatever the opens do: at some time a database is open twice if and only if
      some statement was for one that was open behind a closed slot. */
  lemma {:induction false} TwiceExact(h: seq<Stmt>)
    ensures EverTwice(h) <==> EverReopens(h)
    decreases |h|
  {
    hide Reopens, Exec, Twice;
    if h == [] {
      EmptyOnce();
    } else {
      var g := h[..|h| - 1];
      TwiceExact(g);
      if !EverTwice(g) {
        StepTwice(RunAll(g), h[|h| - 1]);
      }
    }
  }

  lemma EmptyOnce()
    ensures !Twice(EmptyDb().cache)
  {
  }

  /** Without a gap there is nothing to open again. */
  lemma {:induction false} NoGapOnce(h: seq<Stmt>)
    requires NeverGap(h)
    ensures !EverTwice(h)
    decreases |h|
  {
    hide Reopens, Twice, Exec, NoGap;
    if h == [] {
      EmptyOnce();
    } else {
      var g := h[..|h| - 1];
      NoGapOnce(g);
      NothingBehind(RunAll(g), h[|h| - 1]);
      StepTwice(RunAll(g), h[|h| - 1]);
    }
  }

  lemma NothingBehind(d: Db, s: Stmt)
    requires NoGap(d.cache)
    ensures !Reopens(d, s)
  {
    hide Reopens, OpenTo;
    ReopensBehind(d, s);
  }

  function Opens(paths: seq<string>): seq<Stmt> { seq(|paths|, i requires 0 <= i < |paths| => Stmt(paths[i], Opened)) }

  predicate AllDifferent(paths: seq<string>) { forall i, j :: 0 <= i < j < |paths| ==> paths[i] != paths[j] }

  /** So many successful opens of different databases fill the first slots. */
  ghost predicate Fills(d: Db, paths: seq<string>) {
    && |paths| <= NUM_OPEN_DB_CACHE && d.idx == |paths|
    && (forall i :: 0 <= i < |paths| ==> d.cache[i] == Entry(true, paths[i], i + 1, 1))
    && (forall i :: |paths| <= i < NUM_OPEN_DB_CACHE ==> d.cache[i] == CLOSED_ENTRY)
  }

  lemma FillsNext(d: Db, paths: seq<string>, path: string)
    requires Fills(d, paths) && |paths| < NUM_OPEN_DB_CACHE && path !in paths
    ensures Fills(Exec(d, path, Opened), paths + [path])
  {
    var n := |paths|;
    SearchToGap(d.cache, path, 0, 0, n);
    hide Search;
    assert Exec(d, path, Opened) == Db(d.cache[n := Entry(true, path, n + 1, 1)], n + 1);
    hide Exec;
  }

  lemma {:induction false} Filled(paths: seq<string>)
    requires |paths| <= NUM_OPEN_DB_CACHE && AllDifferent(paths)
    ensures Fills(RunAll(Opens(paths)), paths)
    decreases |paths|
  {
    hide Exec;
    if paths == [] {
      assert Opens(paths) == [];
    } else {
      var g, last := paths[..|paths| - 1], paths[|paths| - 1];
      Filled(g);
      assert Opens(paths)[..|g|] == Opens(g) && paths == g + [last];
      FillsNext(RunAll(Opens(g)), g, last);
      RunLast(Opens(paths));
    }
  }

  lemma RunLast(h: seq<Stmt>)
    requires h != []
    ensures RunAll(h) == Exec(RunAll(h[..|h| - 1]), h[|h| - 1].path, h[|h| - 1].outcome)
  {
  }

  /** It does happen: eight databases are opened, the open of a ninth fails without leaving a handle,
      and a statement for one of the others but the oldest opens that a second time. */
  lemma ReachesTwice(paths: seq<string>, outcome: Outcome, j: nat)
    requires |paths| == NUM_OPEN_DB_CACHE + 1 && AllDifferent(paths) && !Leaves(outcome)
    requires 1 <= j < NUM_OPEN_DB_CACHE && paths[j] != ""
    ensures Twice(RunAll(Opens(paths[..NUM_OPEN_DB_CACHE]) + [Stmt(paths[NUM_OPEN_DB_CACHE], outcome)] +
      [Stmt(paths[j], Opened)]).cache)
  {
    hide Exec, Search, RunAll;
    var first, last := paths[..NUM_OPEN_DB_CACHE], paths[NUM_OPEN_DB_CACHE];
    var h := Opens(first);
    var d := RunAll(h);
    Filled(first);
    OpenToIs(d.cache, 0, NUM_OPEN_DB_CACHE);
    OldestFirst(d.cache, last, 0);
    GapReopens(d, last, outcome, j);
    RunLast(h + [Stmt(last, outcome)]);
    RunLast(h + [Stmt(last, outcome)] + [Stmt(paths[j], Opened)]);
    assert (h + [Stmt(last, outcome)])[..|h|] == h;
    assert (h + [Stmt(last, outcome)] + [Stmt(paths[j], Opened)])[..|h| + 1] == h + [Stmt(last, outcome)];
    TwiceAt(Exec(Exec(d, last, outcome), paths[j], Opened).cache, 0, j);
  }

  lemma {:induction false} OldestFirst(c: Cache, path: string, i: nat)
    requires i <= NUM_OPEN_DB_CACHE && forall j :: 0 <= j < NUM_OPEN_DB_CACHE ==> c[j].open && c[j].path != path
    requires forall j :: 0 <= j < NUM_OPEN_DB_CACHE ==> c[0].lastInsert <= c[j].lastInsert
    ensures Search(c, path, i, 0) == Purge(0)
    decreases NUM_OPEN_DB_CACHE - i
  {
    if i < NUM_OPEN_DB_CACHE {
      OldestFirst(c, path, i + 1);
    }
  }

  // ----- stamps in runs in which opens may fail -----

  /** The slot that the last statement of the history found or chose. */
  function Chosen(h: seq<Stmt>): nat
    requires h != []
  {
    Search(RunAll(h[..|h| - 1]).cache, h[|h| - 1].path, 0, 0).id
  }

  /** The last statement used its slot: it found its database, opened it, or had no directory for it. */
  predicate Used(h: seq<Stmt>)
    requires h != []
  {
    var s := h[|h| - 1];
    Search(RunAll(h[..|h| - 1]).cache, s.path, 0, 0).Found? || s.outcome == Opened || s.outcome == NoDirectory
  }

  /** The last statement found its database open. */
  predicate FoundOpen(h: seq<Stmt>)
    requires h != []
  {
    Search(RunAll(h[..|h| - 1]).cache, h[|h| - 1].path, 0, 0).Found?
  }

  /** How many statements used a slot. */
  function Uses(h: seq<Stmt>): (n: nat)
    ensures n <= |h|
  {
    if h == [] then 0 else Uses(h[..|h| - 1]) + if Used(h) then 1 else 0
  }

  /** How many statements had used a slot when the last one that chose slot i did; none if that failed. */
  function StampOf(h: seq<Stmt>, i: nat): (n: nat)
    ensures n <= Uses(h)
  {
    if h == [] then 0
    else if Chosen(h) == i then (if Used(h) then Uses(h) else 0)
    else StampOf(h[..|h| - 1], i)
  }

  /** How many statements used slot i since its database was opened. */
  function UsesOf(h: seq<Stmt>, i: nat): (n: nat)
    ensures n <= |h|
  {
    if h == [] then 0
    else if Chosen(h) != i then UsesOf(h[..|h| - 1], i)
    else (if FoundOpen(h) then UsesOf(h[..|h| - 1], i) else 0) + if Used(h) then 1 else 0
  }

  /** Index, stamps and counts are what the history says, whatever the opens do: a failing open uses up no
      number and leaves its slot without one. */
  lemma {:induction false} StampsAre(h: seq<Stmt>, i: nat)
    requires |h| < TWO_32 && i < NUM_OPEN_DB_CACHE
    ensures var d := RunAll(h);
      d.idx == Uses(h) && d.cache[i].lastInsert == StampOf(h, i) && d.cache[i].inserts == UsesOf(h, i)
    decreases |h|
  {
    if h != [] {
      var g, s := h[..|h| - 1], h[|h| - 1];
      StampsAre(g, i);
      ExecStamps(RunAll(g), s, i);
      hide Search, Exec;
    }
  }

  lemma ExecStamps(d: Db, s: Stmt, i: nat)
    requires d.idx + 1 < TWO_32 && i < NUM_OPEN_DB_CACHE && d.cache[i].inserts + 1 < TWO_32
    ensures var r, e := Search(d.cache, s.path, 0, 0), Exec(d, s.path, s.outcome);
      var used := r.Found? || s.outcome == Opened || s.outcome == NoDirectory;
      && e.idx == d.idx + (if used then 1 else 0)
      && e.cache[i].lastInsert == (if r.id != i then d.cache[i].lastInsert else if used then e.idx else 0)
      && e.cache[i].inserts == (if r.id != i then d.cache[i].inserts
                                else (if r.Found? then d.cache[i].inserts else 0) + if used then 1 else 0)
  {
    hide Search;
  }

  /** Of two slots with a stamp, the one that was used later has the larger. */
  lemma {:induction false} StampsOrder(h: seq<Stmt>, i: nat, j: nat, g: seq<Stmt>)
    requires i != j && g != [] && g <= h && Chosen(g) == j && Used(g)
    requires forall k :: |g| < k <= |h| ==> Chosen(h[..k]) != i && Chosen(h[..k]) != j
    ensures StampOf(h, i) < StampOf(h, j)
    decreases |h|
  {
    hide Chosen, Used, Uses;
    if |g| == |h| {
      assert g == h;
      UsesGrow(h);
    } else {
      assert h[..|h|] == h;
      var r := h[..|h| - 1];
      assert g <= r;
      assert forall k :: 0 <= k <= |r| ==> r[..k] == h[..k];
      StampsOrder(r, i, j, g);
    }
  }

  lemma UsesGrow(h: seq<Stmt>)
    requires h != [] && Used(h)
    ensures Uses(h) == Uses(h[..|h| - 1]) + 1
  {
  }

  /** When all eight slots are open and none has the path, the one that is closed for it has the smallest
      stamp: it is one that was used least recently, or whose open failed. */
  lemma VictimOldest(h: seq<Stmt>, path: string)
    requires |h| < TWO_32 && forall i :: 0 <= i < 8 ==> RunAll(h).cache[i].open && RunAll(h).cache[i].path != path
    ensures var r := Search(RunAll(h).cache, path, 0, 0);
      r.Purge? && forall i :: 0 <= i < 8 ==> StampOf(h, r.id) <= StampOf(h, i)
  {
    hide RunAll, Search, StampOf;
    var c := RunAll(h).cache;
    SearchIs(c, 8, path, 0, 0);
    var r := Search(c, path, 0, 0);
    StampsAre(h, r.id);
    forall i | 0 <= i < 8 ensures StampOf(h, r.id) <= StampOf(h, i) {
      StampsAre(h, i);
    }
  }

  // ----- the object -----

  class DB {
    const contactsCache: array<Entry>
    var contactsCacheIdx: u32

    ghost predicate Valid() { contactsCache.Length == NUM_OPEN_DB_CACHE }

    ghost function State(): Db
      requires Valid()
      reads this, contactsCache
    {
      Db(contactsCache[..], contactsCacheIdx)
    }

    constructor ()
      ensures Valid() && fresh(contactsCache) && State() == EmptyDb()
    {
      contactsCache := new Entry[NUM_OPEN_DB_CACHE](i => CLOSED_ENTRY);
      contactsCacheIdx := 0;
    }

    /** The slot of an open path, or -1 and the slot to use instead. */
    method GetOpenDbContactsConnection(path: string) returns (id: int, purge: nat)
      requires Valid()
      ensures purge < NUM_OPEN_DB_CACHE
      ensures if id == -1 then Search(State().cache, path, 0, 0) == Purge(purge)
              else id >= 0 && Search(State().cache, path, 0, 0) == Found(id)
    {
      ghost var c := State().cache;
      purge := 0;
      for i := 0 to NUM_OPEN_DB_CACHE
        invariant purge < NUM_OPEN_DB_CACHE && Search(c, path, 0, 0) == Search(c, path, i, purge)
      {
        if !contactsCache[i].open {
          return -1, i;
        } else if contactsCache[i].path == path {
          return i, purge;
        } else if contactsCache[i].lastInsert < contactsCache[purge].lastInsert {
          purge := i;
        }
      }
      return -1, purge;
    }

    /** The cache part of execContactsSQLStatement. */
    method ExecContactsSqlStatement(path: string, outcome: Outcome)
      requires Valid()
      modifies contactsCache, `contactsCacheIdx
      ensures State() == Exec(old(State()), path, outcome)
    {
      hide Search;
      var id, purge := GetOpenDbContactsConnection(path);
      if id == -1 {
        id := purge;
        if contactsCache[id].open {
          contactsCache[id] := contactsCache[id].(open := false, path := "");
        }
        contactsCache[id] := contactsCache[id].(inserts := 0, lastInsert := 0);
        match outcome {
          case NoDirectory =>
            contactsCache[id] := contactsCache[id].(open := false, path := "");
          case OpenFailed(handle) =>
            contactsCache[id] := contactsCache[id].(open := handle, path := "");
            return;
          case CreateFailed =>
            contactsCache[id] := contactsCache[id].(open := false, path := "");
            return;
          case Opened =>
            contactsCache[id] := contactsCache[id].(open := true, path := path);
        }
      }
      contactsCacheIdx := (contactsCacheIdx + 1) % TWO_32;
      var slot := contactsCache[id];
      contactsCache[id] := slot.(inserts := (slot.inserts + 1) % TWO_32, lastInsert := contactsCacheIdx);
    }
  }
}
