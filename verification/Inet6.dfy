/** IPv6 text of ntopng/ntop_win32.c: the printer inet_ntop6 and the parser inet_pton6. */
module Inet6 {
  import opened Addresses
  import opened Inet4

  type Bytes = s: seq<u8> | |s| == 16 witness seq(16, i => 0)

  function Word(high: u8, low: u8): u16 { (high as int) * 0x100 + (low as int) }

  /** The eight groups of an address. */
  function Words(src: Bytes): (w: seq<u16>)
    ensures |w| == 8
  {
    seq(8, i requires 0 <= i < 8 => Word(src[2 * i], src[2 * i + 1]))
  }

  function WordBytes(w: u16): seq<u8> { [w / 0x100, w % 0x100] }

  /** The bytes of groups i to j. */
  function BytesFrom(w: seq<u16>, i: nat, j: nat): (r: seq<u8>)
    requires i <= j <= |w|
    ensures |r| == 2 * (j - i)
  {
    if i == j then [] else BytesFrom(w, i, j - 1) + WordBytes(w[j - 1])
  }

  function Zeros(n: nat): seq<u8> { seq(n, i => 0) }

  lemma {:induction false} WordsBytes(src: Bytes, j: nat)
    requires j <= 8
    ensures BytesFrom(Words(src), 0, j) == src[..2 * j]
  {
    if j > 0 {
      WordsBytes(src, j - 1);
      var w := Words(src)[j - 1];
      assert w / 0x100 == src[2 * (j - 1)] && w % 0x100 == src[2 * (j - 1) + 1];
      assert src[..2 * j] == src[..2 * (j - 1)] + [src[2 * (j - 1)], src[2 * (j - 1) + 1]];
    }
  }

  lemma {:induction false} BytesSplit(w: seq<u16>, i: nat, k: nat, j: nat)
    requires i <= k <= j <= |w|
    ensures BytesFrom(w, i, j) == BytesFrom(w, i, k) + BytesFrom(w, k, j)
  {
    if k < j {
      BytesSplit(w, i, k, j - 1);
    } else {
      assert BytesFrom(w, i, k) + [] == BytesFrom(w, i, k);
    }
  }

  lemma {:induction false} ZeroBytes(w: seq<u16>, i: nat, j: nat)
    requires i <= j <= |w| && forall k :: i <= k < j ==> w[k] == 0
    ensures BytesFrom(w, i, j) == Zeros(2 * (j - i))
  {
    if i < j {
      ZeroBytes(w, i, j - 1);
    }
  }

  // ----- the run of zeros that "::" stands for -----

  predicate ZeroRun(w: seq<u16>, b: int, l: int) {
    0 <= b && 1 <= l && b + l <= |w| && forall i :: b <= i < b + l ==> w[i] == 0
  }

  /** The longest run of zero groups, and the leftmost of the longest ones. */
  ghost predicate LeftmostLongest(w: seq<u16>, b: int, l: int) {
    ZeroRun(w, b, l) && forall c, m :: ZeroRun(w, c, m) ==> m < l || (m == l && b <= c)
  }

  /** How many groups are zero from b on. */
  function RunAt(w: seq<u16>, b: nat): (l: nat)
    requires b <= |w|
    ensures b + l <= |w|
    decreases |w| - b
  {
    if b == |w| || w[b] != 0 then 0 else 1 + RunAt(w, b + 1)
  }

  /** The best start at or after b, with its length. */
  function Longest(w: seq<u16>, b: nat): (r: (nat, nat))
    requires b <= |w|
    decreases |w| - b
  {
    if b == |w| then (b, 0)
    else
      var r := Longest(w, b + 1);
      if RunAt(w, b) >= r.1 then (b, RunAt(w, b)) else r
  }

  /** What inet_ntop6 abbreviates: base -1 means nothing. */
  function Elision(w: seq<u16>): (int, int) {
    var r := Longest(w, 0);
    var b: int := r.0;
    var l: int := r.1;
    if l < 2 then (-1, 0) else (b, l)
  }

  lemma {:induction false} RunAtLongest(w: seq<u16>, b: nat, m: int)
    requires b <= |w|
    ensures ZeroRun(w, b, m) <==> 1 <= m <= RunAt(w, b)
    decreases |w| - b
  {
    if b < |w| && w[b] == 0 {
      RunAtLongest(w, b + 1, m - 1);
      assert ZeroRun(w, b, m) && m > 1 ==> ZeroRun(w, b + 1, m - 1);
    }
  }

  lemma {:induction false} LongestIs(w: seq<u16>, b: nat)
    requires b <= |w|
    ensures var r := Longest(w, b);
      && b <= r.0 <= |w| && (r.1 > 0 ==> ZeroRun(w, r.0, r.1))
      && forall c, m :: b <= c && ZeroRun(w, c, m) ==> m < r.1 || (m == r.1 && r.0 <= c)
    decreases |w| - b
  {
    if b < |w| {
      LongestIs(w, b + 1);
      RunAtLongest(w, b, RunAt(w, b));
      forall m | ZeroRun(w, b, m) ensures m <= RunAt(w, b) {
        RunAtLongest(w, b, m);
      }
    }
  }

  /** The elision is the leftmost longest run of at least two zero groups, or none if there is no
      such run (sections 4.2.2 and 4.2.3 of RFC 5952). */
  lemma ElisionIs(w: seq<u16>, b: int, l: int)
    ensures b >= 0 && l >= 2 ==> (Elision(w) == (b, l) <==> LeftmostLongest(w, b, l))
    ensures Elision(w).0 == -1 <==> forall c, m :: ZeroRun(w, c, m) ==> m < 2
    ensures Elision(w).0 == -1 || (Elision(w).0 >= 0 && Elision(w).1 >= 2)
  {
    LongestIs(w, 0);
    var r := Longest(w, 0);
    if r.1 > 0 {
      assert ZeroRun(w, r.0, r.1);
    }
  }

  /** The scanning loop of inet_ntop6. */
  method FindElision(w: seq<u16>) returns (base: int, len: int)
    requires |w| == 8
    ensures (base, len) == Elision(w) || (base == -1 == Elision(w).0)
  {
    var curBase, curLen := -1, 0;
    base, len := -1, 0;
    for i := 0 to 8
      invariant curBase != -1 ==>
        ZeroRun(w, curBase, curLen) && curBase + curLen == i && (curBase == 0 || w[curBase - 1] != 0)
      invariant curBase == -1 ==> i == 0 || w[i - 1] != 0
      invariant base == -1 || ZeroRun(w, base, len)
      invariant forall c, m :: ZeroRun(w, c, m) && c + m <= (if curBase == -1 then i else curBase) ==>
        base != -1 && (m < len || (m == len && base <= c))
      invariant base != -1 ==> base + len <= (if curBase == -1 then i else curBase)
    {
      if w[i] == 0 {
        if curBase == -1 {
          curBase, curLen := i, 1;
        } else {
          curLen := curLen + 1;
        }
      } else if curBase != -1 {
        CloseRun(w, curBase, curLen, i + 1);
        if base == -1 || curLen > len {
          base, len := curBase, curLen;
        }
        curBase := -1;
      }
    }
    if curBase != -1 {
      CloseRun(w, curBase, curLen, 8);
      if base == -1 || curLen > len {
        base, len := curBase, curLen;
      }
    }
    ElisionIs(w, base, len);
    if base != -1 && len < 2 {
      base := -1;
    }
  }

  lemma NotAcross(w: seq<u16>, p: nat, c: int, m: int)
    requires ZeroRun(w, c, m) && p < |w| && w[p] != 0
    ensures !(c <= p < c + m)
  {
  }

  /** Runs that end by position i lie before the run at b or within it. */
  lemma CloseRun(w: seq<u16>, b: int, l: int, i: int)
    requires ZeroRun(w, b, l) && (b == 0 || w[b - 1] != 0) && b + l <= i <= |w|
    requires forall k :: b + l <= k < i ==> w[k] != 0
    ensures forall c, m :: ZeroRun(w, c, m) && c + m <= i ==> c + m <= b || (b <= c && m <= l)
  {
    forall c, m | ZeroRun(w, c, m) && c + m <= i && c + m > b ensures b <= c && m <= l {
      if b > 0 {
        NotAcross(w, b - 1, c, m);
      }
      assert w[c + m - 1] == 0;
    }
  }

  // ----- hexadecimal text -----

  function HexDigit(n: nat): char
    requires n < 16
  {
    "0123456789abcdef"[n]
  }

  /** "%x". */
  function Hex(n: u16): (s: string)
    ensures |s| >= 1
  {
    if n < 16 then [HexDigit(n)] else Hex(n / 16) + [HexDigit(n % 16)]
  }

  lemma HexLength(n: u16)
    ensures |Hex(n)| <= 4
  {
    if n >= 16 {
      assert |Hex(n)| == 1 + |Hex(n / 16)|;
      if n / 16 >= 16 {
        assert |Hex(n / 16)| == 1 + |Hex(n / 16 / 16)|;
      }
    }
  }

  /** Groups i to j, separated by colons. */
  function Groups(w: seq<u16>, i: nat, j: nat): string
    requires i <= j <= |w|
  {
    if i == j then ""
    else if i + 1 == j then Hex(w[i])
    else Groups(w, i, j - 1) + (":" + Hex(w[j - 1]))
  }

  lemma {:induction false} GroupsLength(w: seq<u16>, i: nat, j: nat)
    requires i <= j <= |w|
    ensures |Groups(w, i, j)| <= 5 * (j - i)
  {
    if i < j {
      GroupsLength(w, i, j - 1);
      HexLength(w[j - 1]);
    }
  }

  /** An address whose last four bytes are printed as an IPv4 address. */
  predicate EmbedsIpv4(w: seq<u16>, b: int, l: int)
    requires |w| == 8
  {
    b == 0 && (l == 6 || (l == 5 && w[5] == 0xffff))
  }

  function LastQuad(src: Bytes): Quad { src[12..] }

  /** What follows the "::". */
  function Rest(src: Bytes, b: nat, l: nat): string
    requires b + l <= 8
  {
    var w := Words(src);
    if EmbedsIpv4(w, b, l) then (if l == 5 then Hex(w[5]) + ":" else "") + Text4(LastQuad(src))
    else Groups(w, b + l, 8)
  }

  /** The printed form: eight groups, or "::" in place of the elided run. */
  function Text6(src: Bytes): string {
    var w := Words(src);
    var (b, l) := Elision(w);
    LongestIs(w, 0);
    if b == -1 then Groups(w, 0, 8) else Groups(w, 0, b) + ("::" + Rest(src, b, l))
  }

  // ----- inet_ntop6 -----

  /** What inet_ntop6 has written before it comes to group i. */
  function Sofar(w: seq<u16>, b: int, l: nat, i: nat): string
    requires |w| == 8 && i <= 8 && -1 <= b && b + l <= 8
  {
    if b == -1 || i <= b then Groups(w, 0, i)
    else if i <= b + l then Groups(w, 0, b) + ":"
    else Groups(w, 0, b) + ("::" + Groups(w, b + l, i))
  }

  lemma SofarLength(w: seq<u16>, b: int, l: nat, i: nat)
    requires |w| == 8 && i <= 8 && -1 <= b && b + l <= 8 && (b == -1 || l >= 2)
    ensures |Sofar(w, b, l, i)| <= 5 * i
  {
    hide Groups;
    GroupsLength(w, 0, i);
    if b != -1 {
      GroupsLength(w, 0, b);
      if b + l < i {
        GroupsLength(w, b + l, i);
      }
    }
  }

  /** The text grows by a colon at the start of the run, by nothing inside it, and otherwise by a
      group, preceded by a colon unless it is the first. */
  lemma SofarNext(w: seq<u16>, b: int, l: nat, i: nat)
    requires |w| == 8 && i < 8 && -1 <= b && b + l <= 8 && (b == -1 || l >= 2)
    ensures Sofar(w, b, l, i + 1) ==
      if b != -1 && b <= i < b + l then Sofar(w, b, l, i) + (if i == b then ":" else "")
      else Sofar(w, b, l, i) + ((if i != 0 then ":" else "") + Hex(w[i]))
  {
    hide Hex;
    if b != -1 && b <= i < b + l {
      assert Groups(w, 0, b) + ":" + "" == Groups(w, 0, b) + ":";
    } else if b == -1 || i < b {
      assert i == 0 ==> "" + ("" + Hex(w[i])) == Hex(w[i]);
    } else if i == b + l {
      var g, h := Groups(w, 0, b), Hex(w[i]);
      assert (g + ":") + (":" + h) == g + ("::" + h);
    } else {
      var g, k, h := Groups(w, 0, b), Groups(w, b + l, i), Hex(w[i]);
      assert (g + ("::" + k)) + (":" + h) == g + ("::" + (k + (":" + h)));
    }
  }

  /** Copies a text into the buffer. */
  method Put(tmp: array<char>, tp: nat, s: string) returns (next: nat)
    requires tp + |s| <= tmp.Length
    modifies tmp
    ensures next == tp + |s| && tmp[..next] == old(tmp[..tp]) + s
  {
    next := tp;
    for k := 0 to |s|
      invariant next == tp + k && tmp[..next] == old(tmp[..tp]) + s[..k]
    {
      tmp[next] := s[k];
      next := next + 1;
      assert s[..k + 1] == s[..k] + [s[k]];
    }
    assert s[..|s|] == s;
  }

  /** The loop over the groups has reached an embedded IPv4 address: a colon and the dotted quad
      complete the text. */
  lemma SofarIpv4(src: Bytes, b: int, l: nat)
    requires (b, l) == Elision(Words(src)) && -1 <= b && b + l <= 8 && EmbedsIpv4(Words(src), b, l)
    ensures |Sofar(Words(src), b, l, 6)| <= 6
    ensures Text6(src) == Sofar(Words(src), b, l, 6) + (":" + Text4(LastQuad(src)))
  {
    hide Text4, Longest;
    var w, t := Words(src), Text4(LastQuad(src));
    assert Groups(w, 0, 0) == "";
    if l == 6 {
      assert ("" + ":") + (":" + t) == "" + ("::" + ("" + t));
    } else {
      var h := Hex(w[5]);
      HexLength(w[5]);
      assert Groups(w, 5, 6) == h;
      assert ("" + ("::" + h)) + (":" + t) == "" + ("::" + ((h + ":") + t));
    }
  }

  /** Otherwise all groups were written, and a run at the end still lacks its second colon. */
  lemma SofarAll(src: Bytes, b: int, l: nat)
    requires -1 <= b && b + l <= 8 && (b != -1 ==> l >= 2)
    requires (b, l) == Elision(Words(src)) || (b == -1 == Elision(Words(src)).0)
    requires !EmbedsIpv4(Words(src), b, l)
    ensures Text6(src) == Sofar(Words(src), b, l, 8) + (if b != -1 && b + l == 8 then ":" else "")
  {
    hide Hex, Text4, Longest;
    var w := Words(src);
    if b == -1 {
      assert Groups(w, 0, 8) + "" == Groups(w, 0, 8);
    } else if b + l == 8 {
      assert Groups(w, 0, b) + ":" + ":" == Groups(w, 0, b) + ("::" + "");
    } else {
      assert Groups(w, 0, b) + ("::" + Groups(w, b + l, 8)) + "" == Groups(w, 0, b) + ("::" + Groups(w, b + l, 8));
    }
  }

  /** A group, with a colon before it unless it is the first. */
  method PutGroup(tmp: array<char>, tp: nat, colon: bool, word: u16) returns (next: nat)
    requires tp + 5 <= tmp.Length
    modifies tmp
    ensures var s := (if colon then ":" else "") + Hex(word);
      next == tp + |s| <= tp + 5 && tmp[..next] == old(tmp[..tp]) + s
  {
    hide Hex;
    HexLength(word);
    next := tp;
    if colon {
      next := Put(tmp, next, ":");
    }
    next := Put(tmp, next, Hex(word));
  }

  /** A colon and the last four bytes as an IPv4 address. */
  method PutQuad(tmp: array<char>, tp: nat, quad: Quad) returns (next: nat)
    requires tmp.Length == 46 && tp <= 6
    modifies tmp
    ensures tp < next < 46 && tmp[..next] == old(tmp[..tp]) + (":" + Text4(quad))
  {
    hide Text4;
    TextLength(quad);
    next := Put(tmp, tp, ":");
    var text, copied := InetNtop4(quad, 46 - next);
    assert copied <= 46 - next;
    next := Put(tmp, next, text.value);
  }

  /** inet_ntop6: the text, unless it and its terminator do not fit in `size`; its own buffer of 46
      characters is always large enough. */
  method InetNtop6(src: Bytes, size: nat) returns (r: Option<string>)
    ensures r == if |Text6(src)| + 1 <= size then Some(Text6(src)) else None
    ensures |Text6(src)| + 1 <= 46
  {
    hide Hex, Text4, Text6, Groups, Sofar, Longest;
    var w := Words(src);
    var b, l := FindElision(w);
    ElisionIs(w, b, l);
    ElisionFits(w);
    if b == -1 {
      l := 0;
    }
    var tmp := new char[46];
    var tp: nat := 0;
    SofarEmpty(w, b, l);
    var i := 0;
    while i < 8 && !(i == 6 && EmbedsIpv4(w, b, l))
      invariant 0 <= i <= 8 && (EmbedsIpv4(w, b, l) ==> i <= 6)
      invariant tp <= 5 * i && tmp.Length == 46 && tmp[..tp] == Sofar(w, b, l, i)
    {
      SofarNext(w, b, l, i);
      SofarLength(w, b, l, i + 1);
      HexLength(w[i]);
      if b != -1 && b <= i < b + l {
        if i == b {
          tp := Put(tmp, tp, ":");
        } else {
          assert Sofar(w, b, l, i) + "" == Sofar(w, b, l, i);
        }
      } else {
        tp := PutGroup(tmp, tp, i != 0, w[i]);
      }
      i := i + 1;
    }
    if i == 6 && EmbedsIpv4(w, b, l) {
      SofarIpv4(src, b, l);
      assert |tmp[..tp]| == tp;
      tp := PutQuad(tmp, tp, LastQuad(src));
    } else {
      SofarAll(src, b, l);
      if b != -1 && b + l == 8 {
        tp := Put(tmp, tp, ":");
      } else {
        assert Sofar(w, b, l, 8) + "" == Sofar(w, b, l, 8);
      }
    }
    assert tmp[..tp] == Text6(src);
    ghost var text := tmp[..tp];
    tmp[tp] := '\0';
    assert tmp[..tp] == text;
    if tp + 1 > size {
      return None;
    }
    return Some(tmp[..tp]);
  }

  lemma SofarEmpty(w: seq<u16>, b: int, l: nat)
    requires |w| == 8 && -1 <= b && b + l <= 8
    ensures Sofar(w, b, l, 0) == ""
  {
  }

  lemma ElisionFits(w: seq<u16>)
    ensures Elision(w).0 == -1 || (Elision(w).0 >= 0 && Elision(w).1 >= 2 && Elision(w).0 + Elision(w).1 <= |w|)
  {
    LongestIs(w, 0);
  }

  // ----- inet_pton6 -----

  predicate IsHex(c: char) { '0' <= c <= '9' || 'a' <= c <= 'f' || 'A' <= c <= 'F' }

  function HexValue(c: char): (v: nat)
    requires IsHex(c)
    ensures v < 16
  {
    if c <= '9' then c as int - '0' as int
    else if c <= 'F' then c as int - 'A' as int + 10
    else c as int - 'a' as int + 10
  }

  /** What the shift leaves in the 16 bytes when `out` was read and "::" was seen at k: zeros fill
      the gap. In an address that is already full there is no gap, and all from k on is lost. */
  function Spread(out: seq<u8>, k: nat): Bytes
    requires k <= |out| <= 16
  {
    if |out| < 16 then out[..k] + (Zeros(16 - |out|) + out[k..]) else out[..k] + Zeros(16 - k)
  }

  /** The end of the text: a group that is still open is stored, and the gap is closed. */
  function Finish(out: seq<u8>, colon: Option<nat>, val: u16, saw: bool): Option<Bytes>
    requires |out| <= 16 && (colon.Some? ==> colon.value <= |out|)
  {
    if saw && |out| + 2 > 16 then None
    else
      var all := if saw then out + WordBytes(val) else out;
      match colon
      case Some(k) => Some(Spread(all, k))
      case None => if |all| == 16 then Some(all) else None
  }

  /** An embedded IPv4 address: the dotted quad that starts at the current token ends the text. */
  function Dot(tok: string, out: seq<u8>, colon: Option<nat>): Option<Bytes>
    requires |out| <= 16 && (colon.Some? ==> colon.value <= |out|)
  {
    if |out| + 4 > 16 then None
    else
      match Parse4(tok)
      case Some(q) => if |q| == 4 then Finish(out + q, colon, 0, false) else None
      case None => None
  }

  /** The state machine of inet_pton6: the bytes stored, where "::" was seen, and the group being
      read. `tok` is the text from the last colon on. */
  function Scan6(s: string, tok: string, out: seq<u8>, colon: Option<nat>, val: u16, saw: bool): Option<Bytes>
    requires |out| <= 16 && (colon.Some? ==> colon.value <= |out|)
    decreases |s|
  {
    if s == "" then Finish(out, colon, val, saw)
    else if IsHex(s[0]) then
      var v: int := val as int * 16 + HexValue(s[0]);
      if v > 0xffff then None else Scan6(s[1..], tok, out, colon, v, true)
    else if s[0] == ':' then
      if !saw then
        if colon.Some? then None else Scan6(s[1..], s[1..], out, Some(|out|), val, false)
      else if |out| + 2 > 16 then None
      else Scan6(s[1..], s[1..], out + WordBytes(val), colon, 0, false)
    else if s[0] == '.' then Dot(tok, out, colon)
    else None
  }

  function Parse6(s: string): Option<Bytes> {
    if s == "" || s[0] != ':' then Scan6(s, s, [], None, 0, false)
    else if |s| == 1 || s[1] != ':' then None
    else Scan6(s[1..], s[1..], [], None, 0, false)
  }

  /** The shift by hand, within one buffer, of the bytes from colonp to tp to its end. */
  method ShiftUp(tmp: array<u8>, colonp: nat, tp: nat)
    requires tmp.Length == 16 && colonp <= tp <= 16
    requires forall j :: tp <= j < 16 ==> tmp[j] == 0
    modifies tmp
    ensures tmp[..] == Spread(old(tmp[..tp]), colonp)
  {
    var n := tp - colonp;
    var i := 1;
    while i <= n
      invariant 1 <= i <= n + 1
      invariant forall j :: 0 <= j < tp - (i - 1) ==> tmp[j] == old(tmp[j])
      invariant forall j :: tp - (i - 1) <= j < 16 - (i - 1) ==> tmp[j] == 0
      invariant forall j :: 16 - (i - 1) <= j < 16 ==> tmp[j] == if tp < 16 then old(tmp[j - (16 - tp)]) else 0
    {
      tmp[16 - i] := tmp[colonp + (n - i)];
      tmp[colonp + (n - i)] := 0;
      i := i + 1;
    }
  }

  function Mark(colonp: int): Option<nat> { if colonp < 0 then None else Some(colonp) }

  method StoreGroup(tmp: array<u8>, tp: nat, val: u16)
    requires tmp.Length == 16 && tp + 2 <= 16
    modifies tmp
    ensures tmp[..tp + 2] == old(tmp[..tp]) + WordBytes(val)
    ensures forall j :: tp + 2 <= j < 16 ==> tmp[j] == old(tmp[j])
  {
    tmp[tp] := val / 0x100;
    tmp[tp + 1] := val % 0x100;
  }

  /** The loop of inet_pton6 is left at the end of the text or after an embedded IPv4 address. */
  method Ending(tmp: array<u8>, tp0: nat, colonp: int, val: u16, saw: bool) returns (r: Option<Bytes>)
    requires tmp.Length == 16 && tp0 <= 16 && -1 <= colonp <= tp0
    requires forall j :: tp0 <= j < 16 ==> tmp[j] == 0
    modifies tmp
    ensures r == Finish(old(tmp[..tp0]), Mark(colonp), val, saw)
  {
    var tp := tp0;
    if saw {
      if tp + 2 > 16 {
        return None;
      }
      StoreGroup(tmp, tp, val);
      tp := tp + 2;
    }
    if colonp != -1 {
      ShiftUp(tmp, colonp, tp);
      tp := 16;
    }
    if tp != 16 {
      return None;
    }
    assert tmp[..16] == tmp[..];
    return Some(tmp[..]);
  }

  /** inet_pton6 on a string without embedded terminators. */
  method InetPton6(src: string) returns (r: Option<Bytes>)
    requires '\0' !in src
    ensures r == Parse6(src)
  {
    hide Finish, Parse4;
    var tmp := new u8[16](i => 0);
    var tp, colonp, i: nat := 0, -1, 0;
    if i < |src| && src[i] == ':' {
      i := i + 1;
      if i == |src| || src[i] != ':' {
        return None;
      }
    }
    var curtok, saw, val: u16 := i, false, 0;
    assert src[0..] == src && tmp[..0] == [];
    while i < |src|
      invariant curtok <= i <= |src| && tp <= 16 && -1 <= colonp <= tp
      invariant forall j :: tp <= j < 16 ==> tmp[j] == 0
      invariant Parse6(src) == Scan6(src[i..], src[curtok..], tmp[..tp], Mark(colonp), val, saw)
    {
      var ch := src[i];
      assert src[i..][0] == ch && src[i..][1..] == src[i + 1..];
      i := i + 1;
      if IsHex(ch) {
        var v: int := val as int * 16 + HexValue(ch);
        if v > 0xffff {
          return None;
        }
        val, saw := v, true;
      } else if ch == ':' {
        curtok := i;
        if !saw {
          if colonp != -1 {
            return None;
          }
          colonp := tp;
        } else {
          if tp + 2 > 16 {
            return None;
          }
          StoreGroup(tmp, tp, val);
          tp, saw, val := tp + 2, false, 0;
        }
      } else {
        if ch == '.' && tp + 4 <= 16 {
          var quad := InetPton4(src[curtok..]);
          if quad.Some? {
            r := Embedded(tmp, tp, colonp, src[curtok..], quad.value);
            return;
          }
        }
        return None;
      }
    }
    assert src[i..] == "";
    r := Ending(tmp, tp, colonp, val, saw);
  }

  /** Four bytes are stored at tp, and the text is at its end. */
  method Embedded(tmp: array<u8>, tp: nat, colonp: int, tok: string, quad: seq<u8>) returns (r: Option<Bytes>)
    requires tmp.Length == 16 && tp + 4 <= 16 && -1 <= colonp <= tp && Parse4(tok) == Some(quad)
    requires forall j :: tp <= j < 16 ==> tmp[j] == 0
    modifies tmp
    ensures r == Dot(tok, old(tmp[..tp]), Mark(colonp))
  {
    hide Parse4, Finish;
    assert |quad| == 4 by {
      Pton4Accepts(tok);
    }
    for k := 0 to 4
      invariant tmp[..tp + k] == old(tmp[..tp]) + quad[..k]
      invariant forall j :: tp + k <= j < 16 ==> tmp[j] == 0
    {
      tmp[tp + k] := quad[k];
    }
    assert quad[..4] == quad;
    r := Ending(tmp, tp + 4, colonp, 0, false);
  }

  // ----- the parser inverts the printer -----

  /** One step of the parser over each kind of character. */
  lemma HexStep(c: char, r: string, tok: string, out: seq<u8>, colon: Option<nat>, val: u16, saw: bool)
    requires |out| <= 16 && (colon.Some? ==> colon.value <= |out|)
    requires IsHex(c) && val < 0x1000
    ensures Scan6([c] + r, tok, out, colon, val, saw) == Scan6(r, tok, out, colon, val as int * 16 + HexValue(c), true)
  {
    hide Finish, Dot, IsHex;
    assert ([c] + r)[1..] == r;
  }

  lemma StoreStep(r: string, tok: string, out: seq<u8>, colon: Option<nat>, val: u16)
    requires |out| <= 14 && (colon.Some? ==> colon.value <= |out|)
    ensures Scan6(":" + r, tok, out, colon, val, true) == Scan6(r, r, out + WordBytes(val), colon, 0, false)
  {
    hide Finish, Dot;
    assert (":" + r)[1..] == r;
  }

  lemma MarkStep(r: string, tok: string, out: seq<u8>)
    requires |out| <= 16
    ensures Scan6(":" + r, tok, out, None, 0, false) == Scan6(r, r, out, Some(|out|), 0, false)
  {
    hide Finish, Dot;
    assert (":" + r)[1..] == r;
  }

  lemma DoubleStep(rest: string, tok: string, out: seq<u8>, val: u16)
    requires |out| <= 14
    ensures Scan6("::" + rest, tok, out, None, val, true) ==
      Scan6(rest, rest, out + WordBytes(val), Some(|out| + 2), 0, false)
  {
    hide Scan6;
    assert "::" + rest == ":" + (":" + rest);
    StoreStep(":" + rest, tok, out, None, val);
    MarkStep(rest, ":" + rest, out + WordBytes(val));
  }

  lemma DotStep6(r: string, tok: string, out: seq<u8>, colon: Option<nat>, val: u16, saw: bool)
    requires |out| <= 16 && (colon.Some? ==> colon.value <= |out|) && r != "" && r[0] == '.'
    ensures Scan6(r, tok, out, colon, val, saw) == Dot(tok, out, colon)
  {
    hide Finish, Dot;
  }

  lemma HexDigitIs(n: nat)
    requires n < 16
    ensures IsHex(HexDigit(n)) && HexValue(HexDigit(n)) == n
  {
  }

  lemma {:induction false} HexRun(v: u16, r: string, tok: string, out: seq<u8>, colon: Option<nat>)
    requires |out| <= 16 && (colon.Some? ==> colon.value <= |out|)
    ensures Scan6(Hex(v) + r, tok, out, colon, 0, false) == Scan6(r, tok, out, colon, v, true)
  {
    hide Scan6, HexDigit, IsHex;
    var d := HexDigit(v % 16);
    HexDigitIs(v % 16);
    if v < 16 {
      HexStep(d, r, tok, out, colon, 0, false);
    } else {
      assert Hex(v) + r == Hex(v / 16) + ([d] + r);
      HexRun(v / 16, [d] + r, tok, out, colon);
      HexStep(d, r, tok, out, colon, v / 16, true);
    }
  }

  lemma Regroup(a: string, b: string, c: string, d: string)
    ensures (a + (b + c)) + d == a + (b + (c + d))
    ensures b != "" && b[0] != ':' ==> b + c != "" && (b + c)[0] != ':'
  {
  }

  lemma GroupsSnoc(w: seq<u16>, i: nat, j: nat, r: string)
    requires i + 1 < j <= |w|
    ensures Groups(w, i, j) + r == Groups(w, i, j - 1) + (":" + (Hex(w[j - 1]) + r))
    ensures Groups(w, i, j) == Groups(w, i, j - 1) + (":" + Hex(w[j - 1]))
  {
    hide Hex;
    var g, h := Groups(w, i, j - 1), Hex(w[j - 1]);
    hide Groups;
    Regroup(g, ":", h, r);
  }

  lemma GroupsOne(w: seq<u16>, i: nat)
    requires i < |w|
    ensures Groups(w, i, i + 1) == Hex(w[i])
  {
    hide Hex;
  }

  /** Reading groups i to j: all are stored but the last, which is still open. */
  lemma {:induction false} GroupsRun(w: seq<u16>, i: nat, j: nat, r: string, out: seq<u8>, colon: Option<nat>)
    requires i < j <= |w| && |out| + 2 * (j - i - 1) <= 16 && (colon.Some? ==> colon.value <= |out|)
    ensures var s := Groups(w, i, j) + r;
      Scan6(s, s, out, colon, 0, false) ==
        Scan6(r, Hex(w[j - 1]) + r, out + BytesFrom(w, i, j - 1), colon, w[j - 1], true)
  {
    hide Scan6, Hex, WordBytes, Groups;
    var h := Hex(w[j - 1]) + r;
    if j == i + 1 {
      GroupsOne(w, i);
      assert out + [] == out;
      HexRun(w[i], r, h, out, colon);
    } else {
      var r1 := ":" + h;
      GroupsSnoc(w, i, j, r);
      GroupsRun(w, i, j - 1, r1, out, colon);
      var out0, out1 := out + BytesFrom(w, i, j - 2), out + BytesFrom(w, i, j - 1);
      StoreStep(h, Hex(w[j - 2]) + r1, out0, colon, w[j - 2]);
      assert out0 + WordBytes(w[j - 2]) == out1;
      HexRun(w[j - 1], r, h, out1, colon);
    }
  }

  lemma DigitStep6(n: nat, r: string, tok: string, out: seq<u8>, colon: Option<nat>, val: u16, saw: bool)
      returns (v: u16)
    requires |out| <= 16 && (colon.Some? ==> colon.value <= |out|) && n < 10 && val < 0x1000
    ensures Scan6([Digit(n)] + r, tok, out, colon, val, saw) == Scan6(r, tok, out, colon, v, true)
    ensures v == val as int * 16 + n
  {
    hide Scan6;
    HexStep(Digit(n), r, tok, out, colon, val, saw);
    v := val as int * 16 + n;
  }

  /** The first octet of a dotted quad is read as if it were a group. */
  lemma DecRun(b: u8, r: string, tok: string, out: seq<u8>, colon: Option<nat>)
    requires |out| <= 16 && (colon.Some? ==> colon.value <= |out|) && r != "" && r[0] == '.'
    ensures Scan6(Dec(b) + r, tok, out, colon, 0, false) == Dot(tok, out, colon)
  {
    hide Scan6, Dot, Digit;
    var v: u16, saw: bool := 0, false;
    if b >= 100 {
      assert Dec(b) + r == [Digit(b / 100)] + ([Digit(b / 10 % 10)] + ([Digit(b % 10)] + r));
      v := DigitStep6(b / 100, [Digit(b / 10 % 10)] + ([Digit(b % 10)] + r), tok, out, colon, v, saw);
      v := DigitStep6(b / 10 % 10, [Digit(b % 10)] + r, tok, out, colon, v, true);
    } else if b >= 10 {
      assert Dec(b) + r == [Digit(b / 10)] + ([Digit(b % 10)] + r);
      v := DigitStep6(b / 10, [Digit(b % 10)] + r, tok, out, colon, v, saw);
    }
    v := DigitStep6(b % 10, r, tok, out, colon, v, b >= 10);
    DotStep6(r, tok, out, colon, v, true);
  }

  /** Reading an embedded IPv4 address. */
  lemma QuadRun(q: Quad, out: seq<u8>, colon: Option<nat>)
    requires |out| <= 12 && (colon.Some? ==> colon.value <= |out|)
    ensures Scan6(Text4(q), Text4(q), out, colon, 0, false) == Finish(out + q, colon, 0, false)
  {
    hide Dec, Parse4, Scan6, Finish;
    var t := Tail(q, 1);
    assert t == ("." + Dec(q[1])) + Tail(q, 2);
    DecRun(q[0], t, Text4(q), out, colon);
    Pton4Inverts(q);
  }

  lemma {:induction false} GroupsStart(w: seq<u16>, i: nat, j: nat)
    requires i < j <= |w|
    ensures Groups(w, i, j) != "" && Groups(w, i, j)[0] != ':'
  {
    hide Hex, Groups;
    if j == i + 1 {
      GroupsOne(w, i);
      HexStart(w[i]);
    } else {
      GroupsStart(w, i, j - 1);
      GroupsSnoc(w, i, j, "");
      Regroup("", Groups(w, i, j - 1), ":" + Hex(w[j - 1]), "");
    }
  }

  lemma {:induction false} HexStart(v: u16)
    ensures Hex(v)[0] != ':'
  {
    HexDigitIs(v % 16);
    if v >= 16 {
      HexStart(v / 16);
    }
  }

  lemma ParseDouble(rest: string)
    ensures Parse6("::" + rest) == Scan6(":" + rest, ":" + rest, [], None, 0, false)
  {
    hide Scan6;
    assert ("::" + rest)[1..] == ":" + rest && ("::" + rest)[1] == ':';
  }

  lemma GroupsEmpty(w: seq<u16>, i: nat)
    requires i <= |w|
    ensures Groups(w, i, i) == ""
  {
    hide Hex;
  }

  /** Groups 0 to b and a "::" are read; what follows is read on its own. */
  lemma PrefixRun(w: seq<u16>, b: nat, rest: string)
    requires b <= |w| && b <= 8
    ensures Parse6(Groups(w, 0, b) + ("::" + rest)) == Scan6(rest, rest, BytesFrom(w, 0, b), Some(2 * b), 0, false)
  {
    hide Scan6, Parse6, Groups;
    if b == 0 {
      MarkStep(rest, ":" + rest, []);
      ParseDouble(rest);
      GroupsEmpty(w, 0);
      assert "" + ("::" + rest) == "::" + rest;
    } else {
      PrefixRest(w, b, "::" + rest);
      DoubleStep(rest, Hex(w[b - 1]) + ("::" + rest), BytesFrom(w, 0, b - 1), w[b - 1]);
    }
  }

  lemma PrefixRest(w: seq<u16>, b: nat, r: string)
    requires 0 < b <= |w| && b <= 8
    ensures Parse6(Groups(w, 0, b) + r) == Scan6(r, Hex(w[b - 1]) + r, BytesFrom(w, 0, b - 1), None, w[b - 1], true)
  {
    hide Scan6, Parse6, Groups, BytesFrom, Hex;
    GroupsStart(w, 0, b);
    StartsWith(Groups(w, 0, b), r);
    GroupsRun(w, 0, b, r, [], None);
    assert [] + BytesFrom(w, 0, b - 1) == BytesFrom(w, 0, b - 1);
  }

  lemma StartsWith(g: string, r: string)
    requires g != "" && g[0] != ':'
    ensures Parse6(g + r) == Scan6(g + r, g + r, [], None, 0, false)
  {
    hide Scan6;
  }

  /** Eight groups, alone or with a colon too many at the end, are read as the address. */
  lemma FullRun(w: seq<u16>)
    requires |w| == 8
    ensures Parse6(Groups(w, 0, 8)) == Some(BytesFrom(w, 0, 8))
    ensures Parse6(Groups(w, 0, 8) + ":") == Some(BytesFrom(w, 0, 8))
  {
    hide Hex, Parse6, WordBytes, Scan6, Finish;
    hide Groups;
    GroupsStart(w, 0, 8);
    var g, out := Groups(w, 0, 8), [] + BytesFrom(w, 0, 7);
    assert g + "" == g;
    StartsWith(g, "");
    StartsWith(g, ":");
    GroupsRun(w, 0, 8, "", [], None);
    GroupsRun(w, 0, 8, ":", [], None);
    assert out + WordBytes(w[7]) == BytesFrom(w, 0, 8);
    StoreStep("", Hex(w[7]) + ":", out, None, w[7]);
    assert ":" + "" == ":";
    FinishIs(Hex(w[7]) + "", out, None, w[7], true);
    FinishIs("", BytesFrom(w, 0, 8), None, 0, false);
  }

  lemma FinishIs(tok: string, out: seq<u8>, colon: Option<nat>, val: u16, saw: bool)
    requires |out| + (if saw then 2 else 0) <= 16 && (colon.Some? ==> colon.value <= |out|)
    ensures var all := if saw then out + WordBytes(val) else out;
      Scan6("", tok, out, colon, val, saw) ==
        if colon.Some? then Some(Spread(all, colon.value)) else if |all| == 16 then Some(all) else None
  {
  }

  /** inet_pton6 on b groups, "::" and the groups from i on: the groups before and after keep
      their places and what is between them is zero. When the eight groups are all there, the "::"
      is not ignored: it erases every group after it. */
  lemma ElidedRun(w: seq<u16>, b: nat, i: nat)
    requires |w| == 8 && b <= i <= 8
    ensures Parse6(Groups(w, 0, b) + ("::" + Groups(w, i, 8))) ==
      Some(if b < i then BytesFrom(w, 0, b) + (Zeros(2 * (i - b)) + BytesFrom(w, i, 8))
           else BytesFrom(w, 0, b) + Zeros(2 * (8 - b)))
  {
    hide Hex, Parse6, Scan6, Finish, Spread, WordBytes, Groups;
    PrefixRun(w, b, Groups(w, i, 8));
    var out := BytesFrom(w, 0, b);
    var all := out + BytesFrom(w, i, 8);
    if i == 8 {
      GroupsEmpty(w, 8);
      assert all == out;
      FinishIs("", out, Some(2 * b), 0, false);
    } else {
      assert Groups(w, i, 8) + "" == Groups(w, i, 8);
      GroupsRun(w, i, 8, "", out, Some(2 * b));
      FinishIs(Hex(w[7]) + "", out + BytesFrom(w, i, 7), Some(2 * b), w[7], true);
      assert out + BytesFrom(w, i, 7) + WordBytes(w[7]) == all;
    }
    SpreadIs(out, BytesFrom(w, i, 8));
  }

  lemma SpreadIs(head: seq<u8>, tail: seq<u8>)
    requires |head| + |tail| <= 16
    ensures Spread(head + tail, |head|) ==
      head + (if |head| + |tail| < 16 then Zeros(16 - |head| - |tail|) + tail else Zeros(16 - |head|))
  {
    assert (head + tail)[..|head|] == head && (head + tail)[|head|..] == tail;
  }

  /** "::" with an embedded IPv4 address, after five or six zero groups. */
  lemma MappedRun(src: Bytes, l: nat)
    requires EmbedsIpv4(Words(src), 0, l) && ZeroRun(Words(src), 0, l)
    ensures Parse6(Groups(Words(src), 0, 0) + ("::" + Rest(src, 0, l))) == Some(src)
  {
    hide Text4, Parse4, Hex, Parse6, Groups, Scan6, Spread;
    var w, q, rest := Words(src), LastQuad(src), Rest(src, 0, l);
    PrefixRun(w, 0, rest);
    var out: seq<u8>, t := [], Text4(q);
    if l == 6 {
      assert "" + t == t;
    } else {
      assert rest == Hex(w[5]) + (":" + t) by {
        assert (Hex(w[5]) + ":") + t == Hex(w[5]) + (":" + t);
      }
      HexRun(w[5], ":" + t, rest, [], Some(0));
      StoreStep(t, rest, [], Some(0), w[5]);
      out := [] + WordBytes(w[5]);
    }
    QuadRun(q, out, Some(0));
    MappedBytes(src, l, out);
  }

  lemma MappedBytes(src: Bytes, l: nat, out: seq<u8>)
    requires EmbedsIpv4(Words(src), 0, l) && ZeroRun(Words(src), 0, l)
    requires out == if l == 6 then [] else WordBytes(Words(src)[5])
    ensures Spread(out + LastQuad(src), 0) == src
  {
    hide Spread;
    var w, q := Words(src), LastQuad(src);
    ZeroBytes(w, 0, l);
    WordsBytes(src, l);
    SpreadIs([], out + q);
    assert [] + (out + q) == out + q;
    assert l == 5 ==> w[5] / 0x100 == src[10] && w[5] % 0x100 == src[11];
    assert src == src[..2 * l] + (out + q);
  }

  /** inet_pton6 reads back every address that inet_ntop6 prints. */
  lemma Pton6Inverts(src: Bytes)
    ensures Parse6(Text6(src)) == Some(src)
  {
    hide Parse6, Groups, Longest, Hex, Text4;
    var w := Words(src);
    var (b, l) := Elision(w);
    LongestIs(w, 0);
    WordsBytes(src, 8);
    assert src[..16] == src;
    if b == -1 {
      FullRun(w);
    } else if EmbedsIpv4(w, b, l) {
      MappedRun(src, l);
    } else {
      ElidedRun(w, b, b + l);
      BytesSplit(w, 0, b, 8);
      BytesSplit(w, b, b + l, 8);
      ZeroBytes(w, b, b + l);
    }
  }
}
