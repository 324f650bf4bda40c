/** IP addresses of ntopng/IpAddress.cpp: comparison, hash key and the cached key of an object. */
module Addresses {

  const TWO_8: nat := 0x100
  const TWO_16: nat := 0x1_0000
  const TWO_32: nat := 0x1_0000_0000
  const TWO_64: nat := 0x1_0000_0000_0000_0000

  type u8 = n: nat | n < TWO_8
  type u16 = n: nat | n < TWO_16
  type u32 = n: nat | n < TWO_32

  datatype Option<+T> = None | Some(value: T)

  /** struct ipAddress: a version and 16 bytes, read as four 32-bit words of a little-endian
      machine. An IPv4 address is word 0, in network byte order. */
  datatype Ip = Ip(version: u8, w0: u32, w1: u32, w2: u32, w3: u32)

  const ZERO_IP := Ip(0, 0, 0, 0, 0)

  /** Byte swap of a word. */
  function Ntohl(w: u32): u32 {
    (w % 0x100) * 0x100_0000 + (w / 0x100 % 0x100) * 0x1_0000 + (w / 0x1_0000 % 0x100) * 0x100 + w / 0x100_0000
  }

  function Key(a: Ip): u32 {
    if a.version == 4 then Ntohl(a.w0)
    else if a.version == 6 then (a.w0 + a.w1 + a.w2 + a.w3) % TWO_32
    else 0
  }

  /** Equality as compare() == 0 decides it: an IPv4 address ignores the other twelve bytes. */
  predicate Same(a: Ip, b: Ip) {
    && a.version == b.version
    && a.w0 == b.w0
    && (a.version != 4 ==> a.w1 == b.w1 && a.w2 == b.w2 && a.w3 == b.w3)
  }

  function Sign(x: int, y: int): int {
    if x < y then -1 else if x > y then 1 else 0
  }

  function Then(first: int, second: int): int {
    if first != 0 then first else second
  }

  /** IpAddress::compare; memcmp orders words by their bytes, lowest address first. */
  function Compare(a: Ip, b: Ip): int {
    if a.version != b.version then Sign(a.version, b.version)
    else if a.version == 4 then Sign(Ntohl(a.w0), Ntohl(b.w0))
    else Then(Sign(Ntohl(a.w0), Ntohl(b.w0)), Then(Sign(Ntohl(a.w1), Ntohl(b.w1)),
         Then(Sign(Ntohl(a.w2), Ntohl(b.w2)), Sign(Ntohl(a.w3), Ntohl(b.w3)))))
  }

  lemma SplitByte(v: nat, low: u8, high: nat)
    requires v == low + 0x100 * high
    ensures v % 0x100 == low && v / 0x100 == high
  {
  }

  lemma BytesOf(v: nat, c0: u8, c1: u8, c2: u8, c3: u8)
    requires v == c0 + 0x100 * (c1 + 0x100 * (c2 + 0x100 * c3))
    ensures v % 0x100 == c0 && v / 0x100 % 0x100 == c1 && v / 0x1_0000 % 0x100 == c2 && v / 0x100_0000 == c3
  {
    SplitByte(v, c0, c1 + 0x100 * (c2 + 0x100 * c3));
    SplitByte(v / 0x100, c1, c2 + 0x100 * c3);
    SplitByte(v / 0x100 / 0x100, c2, c3);
    assert v / 0x1_0000 == v / 0x100 / 0x100 && v / 0x100_0000 == v / 0x100 / 0x100 / 0x100;
  }

  lemma NtohlInvolutive(w: u32)
    ensures Ntohl(Ntohl(w)) == w
  {
    var b0, b1, b2, b3 := w % 0x100, w / 0x100 % 0x100, w / 0x1_0000 % 0x100, w / 0x100_0000;
    BytesOf(Ntohl(w), b3, b2, b1, b0);
    assert w / 0x1_0000 == w / 0x100 / 0x100 && w / 0x100_0000 == w / 0x100 / 0x100 / 0x100;
  }

  lemma NtohlOrders(v: u32, w: u32)
    ensures Sign(Ntohl(v), Ntohl(w)) == 0 <==> v == w
  {
    NtohlInvolutive(v);
    NtohlInvolutive(w);
  }

  /** compare() returns zero exactly on equal addresses and is a total preorder on the others. */
  lemma CompareOrders(a: Ip, b: Ip, c: Ip)
    ensures Compare(a, b) == 0 <==> Same(a, b)
    ensures Compare(a, b) == -Compare(b, a)
    ensures Compare(a, b) <= 0 && Compare(b, c) <= 0 ==> Compare(a, c) <= 0
  {
    NtohlOrders(a.w0, b.w0);
    NtohlOrders(a.w1, b.w1);
    NtohlOrders(a.w2, b.w2);
    NtohlOrders(a.w3, b.w3);
  }

  /** Equal addresses hash alike, which is what lookups in one bucket rest on. */
  lemma SameKey(a: Ip, b: Ip)
    requires Same(a, b)
    ensures Key(a) == Key(b)
  {
  }

  lemma SumDepends(x: u32, y: u32, rest: nat)
    ensures (x + rest) % TWO_32 == (y + rest) % TWO_32 <==> x == y
  {
    var p, q := (x + rest) / TWO_32, (y + rest) / TWO_32;
    if (x + rest) % TWO_32 == (y + rest) % TWO_32 {
      assert x - y == TWO_32 * (p - q);
    }
  }

  lemma KeyWords(a: Ip, w: u32)
    requires a.version == 6
    ensures Key(a.(w0 := w)) == Key(a) <==> w == a.w0
    ensures Key(a.(w1 := w)) == Key(a) <==> w == a.w1
  {
    SumDepends(w, a.w0, a.w1 + a.w2 + a.w3);
    SumDepends(w, a.w1, a.w0 + a.w2 + a.w3);
    assert w + (a.w1 + a.w2 + a.w3) == w + a.w1 + a.w2 + a.w3;
    assert a.w0 + (a.w1 + a.w2 + a.w3) == a.w0 + a.w1 + a.w2 + a.w3;
    assert w + (a.w0 + a.w2 + a.w3) == a.w0 + w + a.w2 + a.w3;
    assert a.w1 + (a.w0 + a.w2 + a.w3) == a.w0 + a.w1 + a.w2 + a.w3;
  }

  lemma KeySwap(a: Ip)
    requires a.version == 6
    ensures Key(Ip(6, a.w2, a.w3, a.w0, a.w1)) == Key(a)
  {
    assert a.w2 + a.w3 + a.w0 + a.w1 == a.w0 + a.w1 + a.w2 + a.w3;
  }

  /** Every word of an address counts for its key: changing one changes the key. */
  lemma KeyDepends(a: Ip, w: u32)
    ensures a.version == 4 ==> (Key(a.(w0 := w)) == Key(a) <==> w == a.w0)
    ensures a.version == 6 ==>
      (Key(a.(w0 := w)) == Key(a) <==> w == a.w0) && (Key(a.(w1 := w)) == Key(a) <==> w == a.w1)
    ensures a.version == 6 ==>
      (Key(a.(w2 := w)) == Key(a) <==> w == a.w2) && (Key(a.(w3 := w)) == Key(a) <==> w == a.w3)
  {
    if a.version == 4 {
      NtohlInvolutive(w);
      NtohlInvolutive(a.w0);
      hide Ntohl;
    } else if a.version == 6 {
      var b := Ip(6, a.w2, a.w3, a.w0, a.w1);
      KeyWords(a, w);
      KeyWords(b, w);
      KeySwap(a);
      KeySwap(a.(w2 := w));
      KeySwap(a.(w3 := w));
      hide Key;
    }
  }

  /** An address object caches its key; a key that is not zero is never computed again. */
  class IpAddress {
    var addr: Ip
    var ipKey: u32

    /** The cached key is the key of the address the object holds. */
    ghost predicate Current()
      reads this
    {
      ipKey == Key(addr)
    }

    constructor ()
      ensures addr == ZERO_IP && Current()
    {
      addr, ipKey := ZERO_IP, 0;
    }

    constructor Copy(ip: IpAddress)
      requires ip.Current()
      ensures addr == ip.addr && Current()
    {
      addr, ipKey := ip.addr, ip.ipKey;
      new;
      ComputeKey();
    }

    method ComputeKey()
      modifies this`ipKey
      ensures ipKey == if old(ipKey) != 0 then old(ipKey) else Key(addr)
    {
      if ipKey != 0 {
        return;
      }
      if addr.version == 4 {
        ipKey := Ntohl(addr.w0);
      } else if addr.version == 6 {
        ipKey := (addr.w0 + addr.w1 + addr.w2 + addr.w3) % TWO_32;
      }
    }

    /** The key is right afterwards if and only if none was cached, or the old address's key
        happens to be the new one's: an object is good for one address. */
    method SetIpv4(ipv4: u32)
      requires Current()
      modifies this
      ensures addr == old(addr).(version := 4, w0 := ipv4)
      ensures Current() <==> Key(old(addr)) == 0 || Key(old(addr)) == Key(addr)
    {
      addr := addr.(version := 4, w0 := ipv4);
      ComputeKey();
    }

    method SetIpv6(w0: u32, w1: u32, w2: u32, w3: u32)
      requires Current()
      modifies this
      ensures addr == Ip(6, w0, w1, w2, w3)
      ensures Current() <==> Key(old(addr)) == 0 || Key(old(addr)) == Key(addr)
    {
      addr := Ip(6, w0, w1, w2, w3);
      ComputeKey();
    }

    /** Copying brings the other object's cached key along, so nothing can go stale. */
    method Set(ip: IpAddress)
      requires ip.Current()
      modifies this
      ensures addr == old(ip.addr) && Current()
    {
      addr, ipKey := ip.addr, ip.ipKey;
      ComputeKey();
    }
  }
}
