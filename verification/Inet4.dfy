/** IPv4 text of ntopng/ntop_win32.c and ntopng/IpAddress.cpp: two printers and a parser. */
module Inet4 {
  import opened Addresses

  // ----- decimal text -----

  function Digit(n: nat): char
    requires n < 10
  {
    ('0' as int + n) as char
  }

  predicate IsDigit(c: char) { '0' <= c <= '9' }

  function DigitValue(c: char): nat
    requires IsDigit(c)
  {
    c as int - '0' as int
  }

  /** A byte in decimal without leading zeros. */
  function Dec(b: u8): string {
    if b < 10 then [Digit(b)]
    else if b < 100 then [Digit(b / 10), Digit(b % 10)]
    else [Digit(b / 100), Digit(b / 10 % 10), Digit(b % 10)]
  }

  type Quad = q: seq<u8> | |q| == 4 witness [0, 0, 0, 0]

  /** Octets k and after, each after a dot. */
  function Tail(q: Quad, k: nat): string
    requires k <= 4
    decreases 4 - k
  {
    if k == 4 then "" else ("." + Dec(q[k])) + Tail(q, k + 1)
  }

  /** Dotted decimal. */
  function Text4(q: Quad): string {
    Dec(q[0]) + Tail(q, 1)
  }

  // ----- inet_ntop4 -----

  /** The first k octets, each before a dot. */
  function Dotted(q: Quad, k: nat): string
    requires k <= 4
  {
    if k == 0 then "" else Dotted(q, k - 1) + (Dec(q[k - 1]) + ".")
  }

  lemma {:induction false} DottedStem(q: Quad, k: nat) returns (stem: string)
    requires 1 <= k <= 4
    ensures Dotted(q, k) == stem + "." && stem + Tail(q, k) == Text4(q)
  {
    hide Dec;
    if k == 1 {
      stem := Dec(q[0]);
      assert Dotted(q, 1) == Dotted(q, 0) + (Dec(q[0]) + ".");
    } else {
      var s := DottedStem(q, k - 1);
      stem := s + ("." + Dec(q[k - 1]));
      assert Tail(q, k - 1) == ("." + Dec(q[k - 1])) + Tail(q, k);
      assert s + "." + (Dec(q[k - 1]) + ".") == stem + ".";
      assert stem + Tail(q, k) == s + Tail(q, k - 1);
    }
  }

  lemma DottedText(q: Quad)
    ensures Dotted(q, 4) == Text4(q) + "."
  {
    hide Dec, Dotted, Text4;
    var stem := DottedStem(q, 4);
    assert Tail(q, 4) == "" && stem + "" == stem;
  }

  lemma TextLength(q: Quad)
    ensures 7 <= |Text4(q)| <= 15
  {
    assert |Tail(q, 3)| == 1 + |Dec(q[3])|;
    assert |Tail(q, 2)| == 1 + |Dec(q[2])| + |Tail(q, 3)|;
  }

  /** One octet and its dot, written the way inet_ntop4 writes them: digits that turn out to be
      leading zeros are dropped after they were stored. */
  method PutOctet(tmp: array<char>, start: nat, b: u8) returns (i: nat)
    requires start + 4 <= tmp.Length
    modifies tmp
    ensures start < i <= start + 4
    ensures tmp[..i] == old(tmp[..start]) + (Dec(b) + ".")
  {
    i := start;
    tmp[i] := Digit(b / 100);
    i := i + 1;
    if tmp[i - 1] == '0' {
      tmp[i - 1] := Digit(b / 10 % 10);
      if tmp[i - 1] == '0' {
        i := i - 1;
      }
    } else {
      tmp[i] := Digit(b / 10 % 10);
      i := i + 1;
    }
    tmp[i] := Digit(b % 10);
    i := i + 1;
    tmp[i] := '.';
    i := i + 1;
  }

  /** inet_ntop4: the text, unless it is longer than `size`. `copied` is how many characters it writes
      to the caller's buffer, terminator included. A text exactly as long as the buffer passes the
      check, but its terminator does not fit. */
  method InetNtop4(src: Quad, size: nat) returns (r: Option<string>, copied: nat)
    ensures r == if |Text4(src)| <= size then Some(Text4(src)) else None
    ensures copied == if r.Some? then |Text4(src)| + 1 else 0
    ensures copied <= size <==> |Text4(src)| != size
    ensures r.Some? ==> (copied <= size <==> |Text4(src)| < size)
  {
    hide Dec, Text4;
    var tmp := new char[17];
    var i := 0;
    for octet := 0 to 4
      invariant i <= 4 * octet && tmp[..i] == Dotted(src, octet)
    {
      i := PutOctet(tmp, i, src[octet]);
    }
    hide Dotted;
    DottedText(src);
    TextLength(src);
    tmp[i - 1] := '\0';
    assert tmp[..i - 1] == Text4(src);
    if i - 1 > size {
      return None, 0;
    }
    return Some(tmp[..i - 1]), i;
  }

  // ----- _intoaV4 -----

  /** The octets of an address in host byte order, first to last. */
  function Octets(addr: u32): Quad {
    [addr / 0x100_0000, addr / 0x1_0000 % 0x100, addr / 0x100 % 0x100, addr % 0x100]
  }

  lemma {:induction false} TailShorter(q: Quad, k: nat)
    requires k <= 4
    ensures |Tail(q, k)| <= |Tail(q, 0)|
  {
    if k > 0 {
      TailShorter(q, k - 1);
    }
  }

  /** The address with its last j octets shifted out. */
  function Shift8(addr: u32, j: nat): u32 {
    if j == 0 then addr else Shift8(addr, j - 1) / 0x100
  }

  lemma ShiftOctets(addr: u32, j: nat)
    requires j < 4
    ensures Shift8(addr, j) % 0x100 == Octets(addr)[3 - j]
  {
    assert addr / 0x1_0000 == addr / 0x100 / 0x100 && addr / 0x100_0000 == addr / 0x100 / 0x100 / 0x100;
    assert Shift8(addr, 1) == addr / 0x100;
    assert Shift8(addr, 2) == addr / 0x1_0000;
    assert Shift8(addr, 3) == addr / 0x100_0000;
  }

  /** Writes one octet's digits downwards from cp0, then a dot. */
  method PutOctetBackwards(buf: array<char>, cp0: nat, b: u8) returns (cp: nat)
    requires |Dec(b)| < cp0 <= buf.Length
    modifies buf
    ensures cp == cp0 - |Dec(b)| - 1
    ensures buf[cp..cp0] == "." + Dec(b)
    ensures forall i :: 0 <= i < buf.Length && !(cp <= i < cp0) ==> buf[i] == old(buf[i])
  {
    cp := cp0;
    var byte: int := b;
    cp := cp - 1;
    buf[cp] := Digit(byte % 10);
    byte := byte / 10;
    if byte > 0 {
      cp := cp - 1;
      buf[cp] := Digit(byte % 10);
      byte := byte / 10;
      if byte > 0 {
        cp := cp - 1;
        buf[cp] := Digit(byte);
      }
    }
    cp := cp - 1;
    buf[cp] := '.';
  }

  /** _intoaV4 fills the end of the buffer backwards; the result is the same dotted decimal, and
      the buffer need not be longer than that, a dot and the terminator. */
  method IntoaV4(addr: u32, buf: array<char>) returns (start: nat)
    requires |Text4(Octets(addr))| + 2 <= buf.Length
    modifies buf
    ensures 1 <= start < buf.Length && buf[buf.Length - 1] == '\0'
    ensures buf[start..buf.Length - 1] == Text4(Octets(addr))
  {
    hide Dec, Octets;
    var q := Octets(addr);
    assert Tail(q, 0) == ("." + Dec(q[0])) + Tail(q, 1);
    assert Tail(q, 0) == "." + Text4(q);
    var end := buf.Length - 1;
    var cp: nat := end;
    buf[cp] := '\0';
    var a: u32 := addr;
    for n := 0 to 4
      invariant a == Shift8(addr, n)
      invariant cp == end - |Tail(q, 4 - n)| && buf[cp..end] == Tail(q, 4 - n) && buf[end] == '\0'
    {
      ShiftOctets(addr, n);
      TailShorter(q, 3 - n);
      var cp1 := PutOctetBackwards(buf, cp, a % 0x100);
      assert buf[cp1..end] == buf[cp1..cp] + buf[cp..end];
      cp, a := cp1, a / 0x100;
    }
    start := cp + 1;
    assert buf[start..end] == buf[cp..end][1..];
  }

  // ----- inet_pton4 -----

  /** The state machine of inet_pton4: vals is the buffer up to the octet being read. */
  function Scan4(s: string, vals: seq<u8>, saw: bool): Option<seq<u8>>
    requires 1 <= |vals| <= 4
  {
    if s == "" then (if saw && |vals| == 4 then Some(vals) else None)
    else if IsDigit(s[0]) then
      var n := vals[|vals| - 1] * 10 + DigitValue(s[0]);
      if n > 255 then None else Scan4(s[1..], vals[|vals| - 1 := n], true)
    else if s[0] == '.' && saw then
      if |vals| == 4 then None else Scan4(s[1..], vals + [0], false)
    else None
  }

  function Parse4(s: string): Option<seq<u8>> { Scan4(s, [0], false) }

  /** inet_pton4 on a string without embedded terminators. */
  method InetPton4(src: string) returns (r: Option<seq<u8>>)
    requires '\0' !in src
    ensures r == Parse4(src)
  {
    var tmp := new u8[4];
    var saw, octets, tp := false, 0, 0;
    tmp[0] := 0;
    assert src[0..] == src && tmp[..1] == [0];
    for i := 0 to |src|
      invariant tp < 4 && octets == tp + (if saw then 1 else 0)
      invariant Parse4(src) == Scan4(src[i..], tmp[..tp + 1], saw)
    {
      var ch := src[i];
      assert src[i..][0] == ch && src[i..][1..] == src[i + 1..];
      if IsDigit(ch) {
        var newc: int := tmp[tp] as int * 10 + DigitValue(ch);
        if newc > 255 {
          return None;
        }
        ghost var was := tmp[..tp + 1];
        tmp[tp] := newc;
        assert tmp[..tp + 1] == was[tp := tmp[tp]];
        if !saw {
          octets := octets + 1;
          if octets > 4 {
            return None;
          }
          saw := true;
        }
      } else if ch == '.' && saw {
        if octets == 4 {
          return None;
        }
        tp := tp + 1;
        ghost var was := tmp[..tp];
        tmp[tp] := 0;
        assert tmp[..tp + 1] == was + [0];
        saw := false;
      } else {
        return None;
      }
    }
    assert src[|src|..] == "";
    if octets < 4 {
      return None;
    }
    assert tmp[..4] == tmp[..];
    return Some(tmp[..]);
  }

  // ----- what inet_pton4 accepts -----

  /** The pieces of a text between its dots. */
  function Fields(s: string): (fs: seq<string>)
    ensures |fs| >= 1
  {
    if s == "" then [""]
    else if s[0] == '.' then [""] + Fields(s[1..])
    else var r := Fields(s[1..]); [[s[0]] + r[0]] + r[1..]
  }

  predicate AllDigits(f: string) { forall i :: 0 <= i < |f| ==> IsDigit(f[i]) }

  /** The decimal number that f continues when v was read so far. */
  function ValueFrom(v: nat, f: string): nat
    requires AllDigits(f)
    decreases |f|
  {
    if f == "" then v else ValueFrom(v * 10 + DigitValue(f[0]), f[1..])
  }

  /** A nonempty decimal field of value at most 255; leading zeros are allowed. */
  predicate GoodField(f: string) {
    f != "" && AllDigits(f) && ValueFrom(0, f) <= 255
  }

  predicate AllGood(fs: seq<string>) { forall i :: 0 <= i < |fs| ==> GoodField(fs[i]) }

  function Values(fs: seq<string>): (vs: seq<u8>)
    requires AllGood(fs)
    ensures |vs| == |fs|
  {
    seq(|fs|, i requires 0 <= i < |fs| => ValueFrom(0, fs[i]))
  }

  /** Dotted-quad text. */
  predicate IsQuadText(s: string) { |Fields(s)| == 4 && AllGood(Fields(s)) }

  lemma {:induction false} ValueGrows(v: nat, f: string)
    requires AllDigits(f)
    ensures ValueFrom(v, f) >= v
    decreases |f|
  {
    if f != "" {
      ValueGrows(v * 10 + DigitValue(f[0]), f[1..]);
    }
  }

  /** The field being read may be completed by f when v was read of it and saw says if that was
      any digit at all. */
  predicate GoodRest(v: nat, saw: bool, f: string) {
    AllDigits(f) && (saw || f != "") && ValueFrom(v, f) <= 255
  }

  /** Acceptance from any point: the rest of this field and all other fields must be good, and
      there must be four. */
  lemma {:induction false} ScanFields(s: string, vals: seq<u8>, saw: bool)
    requires 1 <= |vals| <= 4
    ensures var fs, v := Fields(s), vals[|vals| - 1];
      Scan4(s, vals, saw) ==
        if |vals| - 1 + |fs| == 4 && GoodRest(v, saw, fs[0]) && AllGood(fs[1..])
        then Some(vals[|vals| - 1 := ValueFrom(v, fs[0])] + Values(fs[1..])) else None
    decreases |s|
  {
    var fs, v := Fields(s), vals[|vals| - 1];
    if s == "" {
      assert fs == [""] && vals[|vals| - 1 := v] + [] == vals;
    } else {
      var rest := Fields(s[1..]);
      if IsDigit(s[0]) {
        assert fs[0] == [s[0]] + rest[0] && fs[1..] == rest[1..];
        assert fs[0][1..] == rest[0];
        DigitStep(s[0], rest[0], v, saw);
        var n := v * 10 + DigitValue(s[0]);
        if n <= 255 {
          ScanFields(s[1..], vals[|vals| - 1 := n], true);
          if GoodRest(n, true, rest[0]) {
            var x := ValueFrom(n, rest[0]);
            assert vals[|vals| - 1 := n][|vals| - 1 := x] == vals[|vals| - 1 := x];
          }
        }
      } else if s[0] == '.' {
        assert fs[0] == "" && fs[1..] == rest;
        if saw && |vals| < 4 {
          ScanFields(s[1..], vals + [0], false);
          DotStep(vals, rest);
          assert vals[|vals| - 1 := v] == vals && ValueFrom(v, "") == v;
        }
      } else {
        assert fs[0][0] == s[0] && !IsDigit(fs[0][0]);
      }
    }
  }

  lemma DigitStep(c: char, f: string, v: nat, saw: bool)
    requires IsDigit(c)
    ensures var n := v * 10 + DigitValue(c);
      && (n > 255 ==> !GoodRest(v, saw, [c] + f))
      && (GoodRest(v, saw, [c] + f) <==> GoodRest(n, true, f))
      && (AllDigits(f) ==> ValueFrom(v, [c] + f) == ValueFrom(n, f))
  {
    var g := [c] + f;
    assert g[1..] == f;
    if AllDigits(g) {
      assert forall i :: 0 <= i < |f| ==> f[i] == g[i + 1];
      ValueGrows(v * 10 + DigitValue(c), f);
    }
    if AllDigits(f) {
      assert AllDigits(g);
    }
  }

  lemma DotStep(vals: seq<u8>, rest: seq<string>)
    requires |vals| >= 1 && |rest| >= 1
    ensures AllGood(rest) <==> GoodRest(0, false, rest[0]) && AllGood(rest[1..])
    ensures AllGood(rest) ==>
      (vals + [0])[|vals| := ValueFrom(0, rest[0])] + Values(rest[1..]) == vals + Values(rest)
  {
    assert forall i :: 1 <= i < |rest| ==> rest[i] == rest[1..][i - 1];
  }

  /** inet_pton4 accepts exactly the dotted quads and returns their values. */
  lemma Pton4Accepts(s: string)
    ensures Parse4(s) == if IsQuadText(s) then Some(Values(Fields(s))) else None
  {
    ScanFields(s, [0], false);
    DotStep([0], Fields(s));
    var fs := Fields(s);
    if IsQuadText(s) {
      assert [0][0 := ValueFrom(0, fs[0])] + Values(fs[1..]) == Values(fs);
    }
  }

  // ----- the parser inverts the printer -----

  lemma DecGood(b: u8)
    ensures GoodField(Dec(b)) && ValueFrom(0, Dec(b)) == b
  {
    var d := Dec(b);
    if b >= 100 {
      assert d[1..][1..] == [d[2]] && d[2..][..] == [d[2]];
      assert ValueFrom(0, d) == ValueFrom(b / 100, d[1..]) == ValueFrom(b / 10, d[1..][1..]);
      assert ValueFrom(b / 10, [d[2]]) == ValueFrom(b, [d[2]][1..]) == b;
    } else if b >= 10 {
      assert ValueFrom(0, d) == ValueFrom(b / 10, d[1..]) == ValueFrom(b, d[1..][1..]);
    }
  }

  /** A field without dots in front of a text whose first field is empty. */
  lemma {:induction false} FieldsPrepend(f: string, s: string)
    requires AllDigits(f)
    ensures Fields(f + s) == [f + Fields(s)[0]] + Fields(s)[1..]
  {
    if f == "" {
      assert f + s == s && f + Fields(s)[0] == Fields(s)[0];
    } else {
      assert (f + s)[1..] == f[1..] + s;
      FieldsPrepend(f[1..], s);
      assert [f[0]] + (f[1..] + Fields(s)[0]) == f + Fields(s)[0];
    }
  }

  function Decs(q: Quad, k: nat): seq<string>
    requires k <= 4
    decreases 4 - k
  {
    if k == 4 then [] else [Dec(q[k])] + Decs(q, k + 1)
  }

  lemma {:induction false} FieldsOfTail(q: Quad, k: nat)
    requires k <= 4
    ensures Fields(Tail(q, k)) == [""] + Decs(q, k)
    decreases 4 - k
  {
    if k < 4 {
      FieldsOfTail(q, k + 1);
      DottedField(q[k], Tail(q, k + 1), Decs(q, k + 1));
    }
  }

  lemma DottedField(b: u8, rest: string, fs: seq<string>)
    requires Fields(rest) == [""] + fs
    ensures Fields(Dec(b) + rest) == [Dec(b)] + fs
    ensures Fields(("." + Dec(b)) + rest) == [""] + ([Dec(b)] + fs)
  {
    hide Dec;
    DecGood(b);
    FieldsPrepend(Dec(b), rest);
    assert Dec(b) + "" == Dec(b);
    assert ("." + Dec(b)) + rest == "." + (Dec(b) + rest);
    assert ("." + (Dec(b) + rest))[1..] == Dec(b) + rest;
  }

  lemma FieldsOfText(q: Quad)
    ensures Fields(Text4(q)) == Decs(q, 0)
  {
    hide Dec, Tail, Fields;
    FieldsOfTail(q, 1);
    DottedField(q[0], Tail(q, 1), Decs(q, 1));
  }

  /** inet_pton4 reads back what inet_ntop4 and _intoaV4 print. */
  lemma Pton4Inverts(q: Quad)
    ensures Parse4(Text4(q)) == Some(q)
  {
    hide Dec, Text4, Fields, Scan4, ValueFrom;
    FieldsOfText(q);
    assert Decs(q, 2) == [Dec(q[2]), Dec(q[3])] && Decs(q, 0) == [Dec(q[0]), Dec(q[1])] + Decs(q, 2);
    Pton4Accepts(Text4(q));
    forall i | 0 <= i < 4 ensures GoodField(Dec(q[i])) && ValueFrom(0, Dec(q[i])) == q[i] {
      DecGood(q[i]);
    }
    assert Values(Fields(Text4(q))) == q;
  }
}
