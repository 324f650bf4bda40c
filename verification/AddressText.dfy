/** What the printers, the host serials and the comparison of addresses have to do with each other:
    an address's text, and so its serial, identifies it. */
module AddressText {
  import opened Addresses
  import opened Inet4
  import opened Inet6
  import HostIds

  /** The bytes of a word, lowest address first. */
  function WordInMemory(w: u32): Quad { [w % 0x100, w / 0x100 % 0x100, w / 0x1_0000 % 0x100, w / 0x100_0000] }

  function InMemory(a: Ip): Bytes {
    WordInMemory(a.w0) + WordInMemory(a.w1) + (WordInMemory(a.w2) + WordInMemory(a.w3))
  }

  /** IpAddress::print. */
  function Print(a: Ip): string {
    if a.version == 4 || a.version == 0 then Text4(Octets(Ntohl(a.w0))) else Text6(InMemory(a))
  }

  /** An IPv4 address is printed byte by byte as it is in memory. */
  lemma PrintsInMemoryOrder(a: Ip)
    requires a.version == 4
    ensures Print(a) == Text4(WordInMemory(a.w0))
  {
    var w := a.w0;
    BytesOf(Ntohl(w), w / 0x100_0000, w / 0x1_0000 % 0x100, w / 0x100 % 0x100, w % 0x100);
    assert w / 0x1_0000 == w / 0x100 / 0x100 && w / 0x100_0000 == w / 0x100 / 0x100 / 0x100;
    assert Octets(Ntohl(w)) == WordInMemory(w);
    hide Text4, Octets, Ntohl, WordInMemory;
  }

  /** memcmp. */
  function CompareBytes(x: seq<u8>, y: seq<u8>): int
    requires |x| == |y|
  {
    if x == [] then 0 else if x[0] != y[0] then Sign(x[0], y[0]) else CompareBytes(x[1..], y[1..])
  }

  lemma {:induction false} CompareConcat(a: seq<u8>, b: seq<u8>, x: seq<u8>, y: seq<u8>)
    requires |a| == |x| && |b| == |y|
    ensures CompareBytes(a + b, x + y) == Then(CompareBytes(a, x), CompareBytes(b, y))
  {
    if a == [] {
      assert a + b == b && x + y == y;
    } else {
      assert (a + b)[1..] == a[1..] + b && (x + y)[1..] == x[1..] + y;
      CompareConcat(a[1..], b, x[1..], y);
    }
  }

  lemma CompareNext(p: u8, r: seq<u8>, q: u8, s: seq<u8>)
    requires |r| == |s|
    ensures CompareBytes([p] + r, [q] + s) == Then(Sign(p, q), CompareBytes(r, s))
  {
    assert ([p] + r)[1..] == r && ([q] + s)[1..] == s;
  }

  lemma CompareFour(a0: u8, a1: u8, a2: u8, a3: u8, b0: u8, b1: u8, b2: u8, b3: u8)
    ensures CompareBytes([a0, a1, a2, a3], [b0, b1, b2, b3]) ==
      Sign(a0 * 0x100_0000 + (a1 * 0x1_0000 + (a2 * 0x100 + a3)), b0 * 0x100_0000 + (b1 * 0x1_0000 + (b2 * 0x100 + b3)))
  {
    assert [a0, a1, a2, a3] == [a0] + ([a1] + ([a2] + ([a3] + [])));
    assert [b0, b1, b2, b3] == [b0] + ([b1] + ([b2] + ([b3] + [])));
    CompareNext(a0, [a1] + ([a2] + ([a3] + [])), b0, [b1] + ([b2] + ([b3] + [])));
    CompareNext(a1, [a2] + ([a3] + []), b1, [b2] + ([b3] + []));
    CompareNext(a2, [a3] + [], b2, [b3] + []);
    CompareNext(a3, [], b3, []);
    hide CompareBytes;
  }

  lemma CompareWords(v: u32, w: u32)
    ensures CompareBytes(WordInMemory(v), WordInMemory(w)) == Sign(Ntohl(v), Ntohl(w))
  {
    CompareFour(v % 0x100, v / 0x100 % 0x100, v / 0x1_0000 % 0x100, v / 0x100_0000,
      w % 0x100, w / 0x100 % 0x100, w / 0x1_0000 % 0x100, w / 0x100_0000);
    hide CompareBytes, Sign;
  }

  /** compare() orders addresses of one version byte by byte. */
  lemma CompareIsMemcmp(a: Ip, b: Ip)
    requires a.version == b.version && (a.version == 4 || a.version == 6)
    ensures Compare(a, b) == if a.version == 4 then CompareBytes(WordInMemory(a.w0), WordInMemory(b.w0))
                             else CompareBytes(InMemory(a), InMemory(b))
  {
    CompareWords(a.w0, b.w0);
    CompareWords(a.w1, b.w1);
    CompareWords(a.w2, b.w2);
    CompareWords(a.w3, b.w3);
    var x, y := WordInMemory(a.w0) + WordInMemory(a.w1), WordInMemory(a.w2) + WordInMemory(a.w3);
    var v, w := WordInMemory(b.w0) + WordInMemory(b.w1), WordInMemory(b.w2) + WordInMemory(b.w3);
    CompareConcat(WordInMemory(a.w0), WordInMemory(a.w1), WordInMemory(b.w0), WordInMemory(b.w1));
    CompareConcat(WordInMemory(a.w2), WordInMemory(a.w3), WordInMemory(b.w2), WordInMemory(b.w3));
    CompareConcat(x, y, v, w);
    hide CompareBytes, WordInMemory, Ntohl, Sign;
  }

  /** Four bytes determine their word. */
  lemma FourBytes(v: u32, w: u32)
    requires v % 0x100 == w % 0x100 && v / 0x100 % 0x100 == w / 0x100 % 0x100
    requires v / 0x1_0000 % 0x100 == w / 0x1_0000 % 0x100 && v / 0x100_0000 == w / 0x100_0000
    ensures v == w
  {
    ByteSum(v);
    ByteSum(w);
  }

  lemma ByteSum(v: u32)
    ensures v ==
      v % 0x100 + 0x100 * (v / 0x100 % 0x100) + 0x1_0000 * (v / 0x1_0000 % 0x100) + 0x100_0000 * (v / 0x100_0000)
  {
    assert v / 0x1_0000 == v / 0x100 / 0x100 && v / 0x100_0000 == v / 0x100 / 0x100 / 0x100;
  }

  lemma SameItems<T>(a0: T, a1: T, a2: T, a3: T, b0: T, b1: T, b2: T, b3: T)
    requires [a0, a1, a2, a3] == [b0, b1, b2, b3]
    ensures a0 == b0 && a1 == b1 && a2 == b2 && a3 == b3
  {
    var x, y := [a0, a1, a2, a3], [b0, b1, b2, b3];
    assert x[0] == y[0] && x[1] == y[1] && x[2] == y[2] && x[3] == y[3];
  }

  lemma WordFromMemory(v: u32, w: u32)
    requires WordInMemory(v) == WordInMemory(w)
    ensures v == w
  {
    SameItems(v % 0x100, v / 0x100 % 0x100, v / 0x1_0000 % 0x100, v / 0x100_0000,
              w % 0x100, w / 0x100 % 0x100, w / 0x1_0000 % 0x100, w / 0x100_0000);
    FourBytes(v, w);
  }

  lemma FromMemory(a: Ip, b: Ip)
    requires InMemory(a) == InMemory(b)
    ensures a.w0 == b.w0 && a.w1 == b.w1 && a.w2 == b.w2 && a.w3 == b.w3
  {
    hide WordInMemory;
    var x, y := InMemory(a), InMemory(b);
    assert x[..4] == WordInMemory(a.w0) && x[4..8] == WordInMemory(a.w1) && x[8..12] == WordInMemory(a.w2);
    assert x[12..] == WordInMemory(a.w3);
    assert y[..4] == WordInMemory(b.w0) && y[4..8] == WordInMemory(b.w1) && y[8..12] == WordInMemory(b.w2);
    assert y[12..] == WordInMemory(b.w3);
    WordFromMemory(a.w0, b.w0);
    WordFromMemory(a.w1, b.w1);
    WordFromMemory(a.w2, b.w2);
    WordFromMemory(a.w3, b.w3);
  }

  lemma FromOctets(v: u32, w: u32)
    requires Octets(v) == Octets(w)
    ensures v == w
  {
    SameItems(v / 0x100_0000, v / 0x1_0000 % 0x100, v / 0x100 % 0x100, v % 0x100,
              w / 0x100_0000, w / 0x1_0000 % 0x100, w / 0x100 % 0x100, w % 0x100);
    FourBytes(v, w);
  }

  /** inet_pton6 refuses a dotted quad on its own, so no IPv6 text is one. */
  lemma QuadIsNoIpv6(q: Quad, src: Bytes)
    ensures Parse6(Text4(q)) == None
    ensures Text4(q) != Text6(src)
  {
    var t := Text4(q);
    assert t[0] == Dec(q[0])[0];
    assert Parse6(t) == Scan6(t, t, [], None, 0, false);
    hide Text4, Text6, Scan6, Parse6;
    QuadRun(q, [], None);
    assert [] + q == q;
    Pton6Inverts(src);
  }

  /** Two addresses print the same exactly when compare() finds them equal. */
  lemma PrintIdentifies(a: Ip, b: Ip)
    requires a.version in {4, 6} && b.version in {4, 6}
    ensures Print(a) == Print(b) <==> Same(a, b)
  {
    hide Text4, Text6, Octets, InMemory, Ntohl, Parse4, Parse6;
    var p, q := Octets(Ntohl(a.w0)), Octets(Ntohl(b.w0));
    if a.version != b.version {
      QuadIsNoIpv6(if a.version == 4 then p else q, InMemory(if a.version == 4 then b else a));
    } else if a.version == 4 {
      if Text4(p) == Text4(q) {
        Pton4Inverts(p);
        Pton4Inverts(q);
        FromOctets(Ntohl(a.w0), Ntohl(b.w0));
        NtohlInvolutive(a.w0);
        NtohlInvolutive(b.w0);
      }
    } else {
      if Text6(InMemory(a)) == Text6(InMemory(b)) {
        Pton6Inverts(InMemory(a));
        Pton6Inverts(InMemory(b));
        FromMemory(a, b);
      }
      assert Same(a, b) ==> InMemory(a) == InMemory(b) by {
        SameMemory(a, b);
      }
    }
  }

  lemma SameMemory(a: Ip, b: Ip)
    ensures a.w0 == b.w0 && a.w1 == b.w1 && a.w2 == b.w2 && a.w3 == b.w3 ==> InMemory(a) == InMemory(b)
  {
  }

  lemma Text6Length(src: Bytes)
    ensures |Text6(src)| <= 45
  {
    hide Text4, Text6, Sofar, Longest;
    var w := Words(src);
    var (b, l) := Elision(w);
    LongestIs(w, 0);
    if EmbedsIpv4(w, b, l) {
      SofarIpv4(src, b, l);
      TextLength(LastQuad(src));
    } else {
      SofarAll(src, b, l);
      SofarLength(w, b, l, 8);
    }
  }

  lemma PrintLength(a: Ip)
    ensures |Print(a)| <= 45
  {
    hide Text4, Text6;
    TextLength(Octets(Ntohl(a.w0)));
    Text6Length(InMemory(a));
  }

  lemma KeyIdentifies(iface: string, n1: string, n2: string)
    requires |iface| + 1 + |n1| <= HostIds.KEY_LENGTH && |iface| + 1 + |n2| <= HostIds.KEY_LENGTH
    ensures HostIds.HostKey(iface, n1) == HostIds.HostKey(iface, n2) <==> n1 == n2
  {
    HostIds.KeyRoom(iface, n1, n2);
  }

  /** In every reachable store, the serials of two addresses on one day are equal exactly when the
      addresses are: what the contact tables count on. */
  lemma SerialIdentifies(es: seq<HostIds.Event>, day: string, iface: string, a: Ip, b: Ip)
    requires HostIds.AllAllowed(es) && |es| < TWO_32
    requires a.version in {4, 6} && b.version in {4, 6} && |iface| <= 300
    requires HostIds.Get(HostIds.Run(es).store, day, HostIds.HostKey(iface, Print(a))).Some?
    requires HostIds.Get(HostIds.Run(es).store, day, HostIds.HostKey(iface, Print(b))).Some?
    ensures var r := HostIds.Run(es).store;
      var ida := HostIds.HostToId(r, day, HostIds.HostKey(iface, Print(a))).1;
      var idb := HostIds.HostToId(r, day, HostIds.HostKey(iface, Print(b))).1;
      ida == idb <==> Same(a, b)
  {
    hide Print, Same, HostIds.HostKey, HostIds.Run, HostIds.AllAllowed, HostIds.HostToId, HostIds.Get;
    PrintLength(a);
    PrintLength(b);
    PrintIdentifies(a, b);
    KeyIdentifies(iface, Print(a), Print(b));
    HostIds.KeyIsKey(iface, Print(a));
    HostIds.KeyIsKey(iface, Print(b));
    HostIds.DistinctSerials(es, day, HostIds.HostKey(iface, Print(a)), HostIds.HostKey(iface, Print(b)));
  }
}
