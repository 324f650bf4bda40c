/** Base64 of ntopng/Utils.cpp, against section 4 of RFC 4648. */
module Base64 {
  // ----- the alphabet -----

  const LOWER: string := "abcdefghijklmnopqrstuvwxyz"
  const BASE64_CHARS: string := "ABCDEFGHIJKLMNOPQRSTUVWXYZ" + LOWER + "0123456789+/"

  predicate IsBase64(c: char) {
    'A' <= c <= 'Z' || 'a' <= c <= 'z' || '0' <= c <= '9' || c == '+' || c == '/'
  }

  /** The alphabet's search function; "not found" becomes 255 when it is stored in a byte. */
  function Find(c: char): bv8 {
    if 'A' <= c <= 'Z' then (c as int - 'A' as int) as bv8
    else if 'a' <= c <= 'z' then (c as int - 'a' as int + 26) as bv8
    else if '0' <= c <= '9' then (c as int - '0' as int + 52) as bv8
    else if c == '+' then 62
    else if c == '/' then 63
    else 255
  }

  lemma SmallCode(x: bv8)
    requires x < 64
    ensures x as int < 64 && |BASE64_CHARS| == 64
  {
  }

  function Code(x: bv8): char
    requires x < 64
  {
    SmallCode(x);
    BASE64_CHARS[x as int]
  }

  lemma UpperAt(n: nat)
    requires n < 26
    ensures BASE64_CHARS[n] as int == n + 'A' as int
  {
  }

  lemma LowerAt(n: nat)
    requires n < 26
    ensures |LOWER| == 26 && LOWER[n] as int == n + 'a' as int
  {
  }

  lemma MiddleAt(n: nat)
    requires 26 <= n < 52
    ensures BASE64_CHARS[n] == LOWER[n - 26]
  {
  }

  lemma DigitAt(n: nat)
    requires 52 <= n < 62
    ensures BASE64_CHARS[n] as int == n - 52 + '0' as int
  {
  }

  lemma LastAt()
    ensures BASE64_CHARS[62] == '+' && BASE64_CHARS[63] == '/'
  {
  }

  lemma AlphabetAt(n: nat)
    requires n < 64
    ensures |BASE64_CHARS| == 64 && IsBase64(BASE64_CHARS[n]) && Find(BASE64_CHARS[n]) == n as bv8
  {
    if n < 26 {
      UpperAt(n);
    } else if n < 52 {
      MiddleAt(n);
      LowerAt(n - 26);
    } else if n < 62 {
      DigitAt(n);
    } else {
      LastAt();
    }
  }

  /** Find inverts Code, and the other way round on the alphabet. */
  lemma CodeFind(x: bv8)
    requires x < 64
    ensures IsBase64(Code(x)) && Find(Code(x)) == x
  {
    SmallCode(x);
    AlphabetAt(x as int);
  }

  lemma IntCode(n: nat)
    requires n < 64
    ensures n as bv8 < 64 && (n as bv8) as int == n
  {
  }

  lemma Position(c: char) returns (n: nat)
    requires IsBase64(c)
    ensures n < 64 && |BASE64_CHARS| == 64 && BASE64_CHARS[n] == c
  {
    if 'A' <= c <= 'Z' {
      n := c as int - 'A' as int;
      UpperAt(n);
    } else if 'a' <= c <= 'z' {
      n := c as int - 'a' as int + 26;
      MiddleAt(n);
      LowerAt(n - 26);
    } else if '0' <= c <= '9' {
      n := c as int - '0' as int + 52;
      DigitAt(n);
    } else {
      n := if c == '+' then 62 else 63;
      LastAt();
    }
  }

  lemma FindCode(c: char)
    requires IsBase64(c)
    ensures Find(c) < 64 && Code(Find(c)) == c
  {
    hide Find, IsBase64;
    var n := Position(c);
    AlphabetAt(n);
    IntCode(n);
  }

  // ----- the 24-bit groups of section 4 of RFC 4648 -----

  function Group(a: bv8, b: bv8, c: bv8): bv24 {
    (a as bv24 << 16) | (b as bv24 << 8) | (c as bv24)
  }

  /** The four 6-bit groups of a 24-bit group, as characters. */
  function Digits(v: bv24): (r: string)
    ensures |r| == 4
  {
    [Code(((v >> 18) & 0x3f) as bv8), Code(((v >> 12) & 0x3f) as bv8),
     Code(((v >> 6) & 0x3f) as bv8), Code((v & 0x3f) as bv8)]
  }

  /** What the encoding of s is: three bytes give four characters, and a shorter final group is
      filled with zero bits and padded. */
  function Encode(s: seq<bv8>): string {
    if |s| == 0 then ""
    else if |s| == 1 then Digits(Group(s[0], 0, 0))[..2] + "=="
    else if |s| == 2 then Digits(Group(s[0], s[1], 0))[..3] + "="
    else Digits(Group(s[0], s[1], s[2])) + Encode(s[3..])
  }

  predicate AllBase64(t: string) { forall i :: 0 <= i < |t| ==> IsBase64(t[i]) }

  /** The length of the part of a text that is read: up to the first '=' or other character that
      is not in the alphabet. */
  function Run(t: string): (n: nat)
    ensures n <= |t| && (forall i :: 0 <= i < n ==> IsBase64(t[i])) && (n < |t| ==> !IsBase64(t[n]))
  {
    if t == "" || !IsBase64(t[0]) then 0 else 1 + Run(t[1..])
  }

  /** The three bytes that four codes stand for. */
  function Bytes(w: bv8, x: bv8, y: bv8, z: bv8): (r: seq<bv8>)
    ensures |r| == 3
  {
    [(w << 2) + ((x & 0x30) >> 4), ((x & 0xf) << 4) + ((y & 0x3c) >> 2), ((y & 0x3) << 6) + z]
  }

  function CodeAt(t: string, i: nat, pad: bv8): bv8 {
    if i < |t| then Find(t[i]) else pad
  }

  /** One byte less than there are characters in an incomplete group. */
  function Remainder(t: string, pad: bv8): seq<bv8>
    requires |t| < 4
  {
    if |t| == 0 then []
    else Bytes(CodeAt(t, 0, pad), CodeAt(t, 1, pad), CodeAt(t, 2, pad), CodeAt(t, 3, pad))[..|t| - 1]
  }

  /** What base64_decode returns. */
  function Decode(t: string): seq<bv8> {
    if Run(t) < 4 then Remainder(t[..Run(t)], 255)
    else Bytes(Find(t[0]), Find(t[1]), Find(t[2]), Find(t[3])) + Decode(t[4..])
  }

  // ----- base64_encode and base64_decode -----

  /** The masks and shifts of the source cut out the same 6-bit groups. */
  lemma SplitIs(a: bv8, b: bv8, c: bv8)
    ensures var v := Group(a, b, c);
      && ((a & 0xfc) >> 2) == ((v >> 18) & 0x3f) as bv8
      && (((a & 0x03) << 4) + ((b & 0xf0) >> 4)) == ((v >> 12) & 0x3f) as bv8
      && (((b & 0x0f) << 2) + ((c & 0xc0) >> 6)) == ((v >> 6) & 0x3f) as bv8
      && (c & 0x3f) == (v & 0x3f) as bv8
  {
  }

  /** Splits three bytes into four codes below 64. */
  method Split(char_array_3: array<bv8>, char_array_4: array<bv8>)
    requires char_array_3.Length == 3 && char_array_4.Length == 4 && char_array_3 != char_array_4
    modifies char_array_4
    ensures forall j :: 0 <= j < 4 ==> char_array_4[j] < 64
    ensures var v := Group(char_array_3[0], char_array_3[1], char_array_3[2]);
      Digits(v) == [Code(char_array_4[0]), Code(char_array_4[1]), Code(char_array_4[2]), Code(char_array_4[3])]
  {
    hide Code;
    SplitIs(char_array_3[0], char_array_3[1], char_array_3[2]);
    hide Group;
    char_array_4[0] := (char_array_3[0] & 0xfc) >> 2;
    char_array_4[1] := ((char_array_3[0] & 0x03) << 4) + ((char_array_3[1] & 0xf0) >> 4);
    char_array_4[2] := ((char_array_3[1] & 0x0f) << 2) + ((char_array_3[2] & 0xc0) >> 6);
    char_array_4[3] := char_array_3[2] & 0x3f;
  }

  /** The first n characters of a group. */
  method Emit(char_array_4: array<bv8>, n: nat, ret0: string, ghost digits: string) returns (ret: string)
    requires char_array_4.Length == 4 && n <= 4 && forall j :: 0 <= j < 4 ==> char_array_4[j] < 64
    requires digits == [Code(char_array_4[0]), Code(char_array_4[1]), Code(char_array_4[2]), Code(char_array_4[3])]
    ensures ret == ret0 + digits[..n]
  {
    hide Code;
    ret := ret0;
    for j := 0 to n
      invariant ret == ret0 + digits[..j]
    {
      ret := ret + [Code(char_array_4[j])];
      assert digits[..j + 1] == digits[..j] + [digits[j]];
    }
  }

  lemma EncodeStep(rest: seq<bv8>, ret: string)
    requires |rest| >= 3
    ensures var digits := Digits(Group(rest[0], rest[1], rest[2]));
      ret + Encode(rest) == (ret + digits[..4]) + Encode(rest[3..])
  {
    hide Digits, Group;
    var digits := Digits(Group(rest[0], rest[1], rest[2]));
    assert digits[..4] == digits;
    Associate(ret, digits, Encode(rest[3..]));
  }

  /** A complete group. */
  method EncodeGroup(char_array_3: array<bv8>, char_array_4: array<bv8>, ret0: string, ghost rest: seq<bv8>)
      returns (ret: string)
    requires char_array_3.Length == 3 && char_array_4.Length == 4 && char_array_3 != char_array_4
    requires |rest| >= 3 && char_array_3[..3] == rest[..3]
    modifies char_array_4
    ensures ret0 + Encode(rest) == ret + Encode(rest[3..])
  {
    hide Digits, Group, Code, Encode;
    EncodeStep(rest, ret0);
    assert forall q :: 0 <= q < 3 ==> rest[q] == rest[..3][q] == char_array_3[..3][q] == char_array_3[q];
    Split(char_array_3, char_array_4);
    ret := Emit(char_array_4, 4, ret0, Digits(Group(rest[0], rest[1], rest[2])));
  }

  method Base64Encode(bytes_to_encode: seq<bv8>) returns (ret: string)
    ensures ret == Encode(bytes_to_encode)
  {
    hide Digits, Group, Code;
    ret := "";
    var i, k := 0, 0;
    var char_array_3 := new bv8[3];
    var char_array_4 := new bv8[4];
    assert bytes_to_encode[0..] == bytes_to_encode;
    hide Encode;
    ghost var rest := bytes_to_encode;
    while k < |bytes_to_encode|
      invariant 0 <= i < 3 && i <= k <= |bytes_to_encode| && rest == bytes_to_encode[k - i..]
      invariant char_array_3[..i] == rest[..i]
      invariant Encode(bytes_to_encode) == ret + Encode(rest)
    {
      assert rest[i] == bytes_to_encode[k];
      char_array_3[i] := bytes_to_encode[k];
      assert char_array_3[..i + 1] == char_array_3[..i] + [char_array_3[i]];
      i, k := i + 1, k + 1;
      if i == 3 {
        ret := EncodeGroup(char_array_3, char_array_4, ret, rest);
        rest := rest[3..];
        i := 0;
      }
    }
    assert rest == rest[..i];
    ret := FinishEncode(char_array_3, char_array_4, i, ret, rest);
  }

  /** The final, incomplete group. */
  method FinishEncode(char_array_3: array<bv8>, char_array_4: array<bv8>, i0: nat, ret0: string, ghost rest: seq<bv8>)
      returns (ret: string)
    requires char_array_3.Length == 3 && char_array_4.Length == 4 && char_array_3 != char_array_4
    requires i0 < 3 && rest == char_array_3[..i0]
    modifies char_array_3, char_array_4
    ensures ret == ret0 + Encode(rest)
  {
    hide Digits, Group, Code;
    ret := ret0;
    var i := i0;
    if i != 0 {
      for j := i to 3
        invariant char_array_3[..i] == rest && forall q :: i <= q < j ==> char_array_3[q] == 0
      {
        char_array_3[j] := 0;
      }
      Split(char_array_3, char_array_4);
      ghost var digits := Digits(Group(char_array_3[0], char_array_3[1], char_array_3[2]));
      ret := Emit(char_array_4, i + 1, ret, digits);
      assert char_array_3[0] == char_array_3[..i][0] && (i == 2 ==> char_array_3[1] == char_array_3[..i][1]);
      while i < 3
        invariant i0 <= i <= 3 && ret == ret0 + (digits[..i0 + 1] + seq(i - i0, q => '='))
      {
        ret := ret + ['='];
        i := i + 1;
        assert seq(i - i0, q => '=') == seq(i - i0 - 1, q => '=') + ['='];
      }
      assert seq(3 - i0, q => '=') == if i0 == 1 then "==" else "=";
    } else {
      assert ret == ret + "";
    }
  }

  /** Joins four codes into three bytes. */
  method Join(char_array_4: array<bv8>, char_array_3: array<bv8>)
    requires char_array_4.Length == 4 && char_array_3.Length == 3 && char_array_3 != char_array_4
    modifies char_array_3
    ensures char_array_3[..] == Bytes(char_array_4[0], char_array_4[1], char_array_4[2], char_array_4[3])
  {
    char_array_3[0] := (char_array_4[0] << 2) + ((char_array_4[1] & 0x30) >> 4);
    char_array_3[1] := ((char_array_4[1] & 0xf) << 4) + ((char_array_4[2] & 0x3c) >> 2);
    char_array_3[2] := ((char_array_4[2] & 0x3) << 6) + char_array_4[3];
  }

  /** Appends the first n bytes of a group. */
  method Append(char_array_3: array<bv8>, n: nat, ret0: seq<bv8>) returns (ret: seq<bv8>)
    requires char_array_3.Length == 3 && n <= 3
    ensures ret == ret0 + char_array_3[..n]
  {
    ret := ret0;
    for j := 0 to n
      invariant ret == ret0 + char_array_3[..j]
    {
      ret := ret + [char_array_3[j]];
    }
  }

  /** Replaces four characters by their codes; the missing ones of an incomplete group are zero. */
  method Lookup(chars: array<char>, char_array_4: array<bv8>, ghost t: string)
    requires chars.Length == 4 && char_array_4.Length == 4 && (chars as object) != char_array_4 && |t| <= 4
    requires chars[..|t|] == t && forall q :: |t| <= q < 4 ==> chars[q] == '\0'
    modifies char_array_4
    ensures forall q :: 0 <= q < 4 ==> char_array_4[q] == CodeAt(t, q, 255)
  {
    assert forall q :: 0 <= q < |t| ==> chars[q] == chars[..|t|][q] == t[q];
    assert Find('\0') == 255;
    hide Find;
    for j := 0 to 4
      invariant forall q :: 0 <= q < j ==> char_array_4[q] == CodeAt(t, q, 255)
    {
      char_array_4[j] := Find(chars[j]);
    }
  }

  lemma RunIs(t: string, n: nat)
    requires n <= |t| && (forall i :: 0 <= i < n ==> IsBase64(t[i])) && (n < |t| ==> !IsBase64(t[n]))
    ensures Run(t) == n
  {
    hide IsBase64;
  }

  lemma DecodeShort(t: string, n: nat)
    requires n < 4 && n <= |t| && (forall i :: 0 <= i < n ==> IsBase64(t[i])) && (n < |t| ==> !IsBase64(t[n]))
    ensures Decode(t) == Remainder(t[..n], 255)
  {
    hide IsBase64, Remainder;
    RunIs(t, n);
  }

  lemma DecodeStep(rest: string, ret: seq<bv8>)
    requires |rest| >= 4 && forall i :: 0 <= i < 4 ==> IsBase64(rest[i])
    ensures var all := Bytes(Find(rest[0]), Find(rest[1]), Find(rest[2]), Find(rest[3]));
      ret + Decode(rest) == (ret + all[..3]) + Decode(rest[4..])
  {
    hide Bytes, Find, IsBase64;
    var all := Bytes(Find(rest[0]), Find(rest[1]), Find(rest[2]), Find(rest[3]));
    LongRun(rest);
    assert all[..3] == all;
    Associate(ret, all, Decode(rest[4..]));
  }

  lemma Associate<T>(a: seq<T>, b: seq<T>, c: seq<T>)
    ensures a + (b + c) == (a + b) + c
  {
  }

  lemma LongRun(t: string)
    requires |t| >= 4 && forall i :: 0 <= i < 4 ==> IsBase64(t[i])
    ensures Run(t) >= 4
  {
    hide IsBase64;
  }

  /** A complete group. */
  method DecodeGroup(chars: array<char>, char_array_4: array<bv8>, char_array_3: array<bv8>, ret0: seq<bv8>,
      ghost rest: string)
    returns (ret: seq<bv8>)
    requires chars.Length == 4 && char_array_4.Length == 4 && char_array_3.Length == 3
    requires char_array_3 != char_array_4 && (chars as object) !in {char_array_3 as object, char_array_4}
    requires |rest| >= 4 && chars[..4] == rest[..4] && AllBase64(rest[..4])
    modifies char_array_4, char_array_3
    ensures ret0 + Decode(rest) == ret + Decode(rest[4..])
  {
    hide Decode, Bytes, Find, IsBase64;
    assert forall q :: 0 <= q < 4 ==> rest[q] == rest[..4][q];
    DecodeStep(rest, ret0);
    Lookup(chars, char_array_4, rest[..4]);
    Join(char_array_4, char_array_3);
    assert char_array_3[..3] == char_array_3[..];
    ret := Append(char_array_3, 3, ret0);
  }

  /** The one array of the source holds the characters of a group first and their codes after. */
  method Base64Decode(encoded_string: string) returns (ret: seq<bv8>)
    ensures ret == Decode(encoded_string)
  {
    ret := [];
    var i, k := 0, 0;
    var chars, char_array_4, char_array_3 := new char[4], new bv8[4], new bv8[3];
    assert encoded_string[0..] == encoded_string;
    hide Decode, IsBase64, AllBase64;
    ghost var rest := encoded_string;
    AllBase64Snoc("", 'A');
    while k < |encoded_string| && encoded_string[k] != '=' && IsBase64(encoded_string[k])
      invariant 0 <= i < 4 && i <= k <= |encoded_string| && rest == encoded_string[k - i..]
      invariant chars[..i] == rest[..i] && AllBase64(rest[..i])
      invariant Decode(encoded_string) == ret + Decode(rest)
    {
      assert rest[i] == encoded_string[k] && rest[..i + 1] == rest[..i] + [rest[i]];
      AllBase64Snoc(rest[..i], rest[i]);
      chars[i] := encoded_string[k];
      assert chars[..i + 1] == chars[..i] + [chars[i]];
      i, k := i + 1, k + 1;
      if i == 4 {
        ret := DecodeGroup(chars, char_array_4, char_array_3, ret, rest);
        DropDrop(encoded_string, k - 4, 4);
        rest := rest[4..];
        i := 0;
      }
    }
    NotPadding();
    ret := FinishDecode(chars, char_array_4, char_array_3, i, ret, rest);
  }

  lemma AllBase64Snoc(t: string, c: char)
    ensures AllBase64("")
    ensures AllBase64(t) && IsBase64(c) ==> AllBase64(t + [c])
  {
    hide IsBase64;
  }

  lemma DropDrop<T>(s: seq<T>, a: nat, b: nat)
    requires a + b <= |s|
    ensures s[a..][b..] == s[a + b..]
  {
  }

  lemma NotPadding()
    ensures !IsBase64('=')
  {
  }

  /** The incomplete group: the missing characters are set to zero, which the alphabet does not have. */
  method FinishDecode(chars: array<char>, char_array_4: array<bv8>, char_array_3: array<bv8>, i: nat, ret0: seq<bv8>,
      ghost rest: string)
    returns (ret: seq<bv8>)
    requires chars.Length == 4 && char_array_4.Length == 4 && char_array_3.Length == 3
    requires char_array_3 != char_array_4 && (chars as object) !in {char_array_3 as object, char_array_4}
    requires i < 4 && i <= |rest| && chars[..i] == rest[..i] && AllBase64(rest[..i])
    requires i < |rest| ==> !IsBase64(rest[i])
    modifies chars, char_array_4, char_array_3
    ensures ret == ret0 + Decode(rest)
  {
    hide Bytes, IsBase64, CodeAt;
    assert forall q :: 0 <= q < i ==> rest[q] == rest[..i][q];
    DecodeShort(rest, i);
    hide Decode;
    ret := ret0;
    if i != 0 {
      for j := i to 4
        invariant chars[..i] == rest[..i] && forall q :: i <= q < j ==> chars[q] == '\0'
      {
        chars[j] := '\0';
      }
      Lookup(chars, char_array_4, rest[..i]);
      Join(char_array_4, char_array_3);
      assert char_array_3[..i - 1] == char_array_3[..][..i - 1];
      ret := Append(char_array_3, i - 1, ret);
    } else {
      assert ret == ret + [];
    }
  }

  // ----- what they are for -----

  /** Whatever the missing characters are turned into never reaches the output. */
  lemma PadIgnored(t: string, pad: bv8, other: bv8)
    requires |t| < 4
    ensures Remainder(t, pad) == Remainder(t, other)
  {
  }

  /** Four characters for every three bytes, and six bits for every character that is read. */
  lemma {:induction false} EncodeLength(s: seq<bv8>)
    ensures |Encode(s)| == 4 * ((|s| + 2) / 3)
  {
    if |s| >= 3 {
      EncodeLength(s[3..]);
    }
  }

  lemma {:induction false} RunRest(t: string)
    requires Run(t) >= 4
    ensures Run(t[4..]) == Run(t) - 4
  {
    hide IsBase64;
    RunIs(t[4..], Run(t) - 4);
  }

  lemma {:induction false} DecodeLength(t: string)
    ensures |Decode(t)| == Run(t) * 6 / 8
  {
    if Run(t) >= 4 {
      RunRest(t);
      DecodeLength(t[4..]);
    }
  }

  /** The codes of a 24-bit group give its bytes back. */
  lemma JoinSplit(a: bv8, b: bv8, c: bv8)
    ensures var v := Group(a, b, c);
      Bytes(((v >> 18) & 0x3f) as bv8, ((v >> 12) & 0x3f) as bv8, ((v >> 6) & 0x3f) as bv8, (v & 0x3f) as bv8) ==
        [a, b, c]
  {
  }

  lemma DigitsFind(v: bv24)
    ensures forall i :: 0 <= i < 4 ==> IsBase64(Digits(v)[i])
    ensures Find(Digits(v)[0]) == ((v >> 18) & 0x3f) as bv8
    ensures Find(Digits(v)[1]) == ((v >> 12) & 0x3f) as bv8
    ensures Find(Digits(v)[2]) == ((v >> 6) & 0x3f) as bv8
    ensures Find(Digits(v)[3]) == (v & 0x3f) as bv8
  {
    hide Find, IsBase64, Code;
    CodeFind(((v >> 18) & 0x3f) as bv8);
    CodeFind(((v >> 12) & 0x3f) as bv8);
    CodeFind(((v >> 6) & 0x3f) as bv8);
    CodeFind((v & 0x3f) as bv8);
  }

  /** The first n characters of a group, padded, give its first n - 1 bytes back. */
  lemma RemainderOf(a: bv8, b: bv8, n: nat, t: string)
    requires 2 <= n <= 3 && |t| == 4 && t[..n] == Digits(Group(a, b, 0))[..n] && t[n] == '='
    ensures Decode(t) == [a, b][..n - 1]
  {
    hide Find, Digits, Bytes, Group, Decode, Remainder, IsBase64;
    DigitsBytes(a, b, 0);
    var d := Digits(Group(a, b, 0));
    assert forall i :: 0 <= i < n ==> t[i] == t[..n][i] == d[i];
    NotPadding();
    DecodeShort(t, n);
    LastBytes(t[..n], d, 255);
    assert [a, b, 0][..n - 1] == [a, b][..n - 1];
  }

  lemma DigitsBytes(a: bv8, b: bv8, c: bv8)
    ensures var d := Digits(Group(a, b, c));
      (forall i :: 0 <= i < 4 ==> IsBase64(d[i])) && Bytes(Find(d[0]), Find(d[1]), Find(d[2]), Find(d[3])) == [a, b, c]
  {
    hide Find, Digits, Bytes, Group, IsBase64;
    DigitsFind(Group(a, b, c));
    JoinSplit(a, b, c);
  }

  /** An incomplete group yields what the complete one would begin with. */
  lemma LastBytes(t: string, d: string, pad: bv8)
    requires 2 <= |t| <= 3 && |d| == 4 && t == d[..|t|]
    ensures Remainder(t, pad) == Bytes(Find(d[0]), Find(d[1]), Find(d[2]), Find(d[3]))[..|t| - 1]
  {
    assert t[0] == d[0] && t[1] == d[1];
    var w, x, y, z := Find(d[0]), Find(d[1]), Find(d[2]), Find(d[3]);
    assert |t| == 3 ==> t[2] == d[2] && CodeAt(t, 2, pad) == y;
    hide Find;
    BytesPrefix(w, x, y, z, CodeAt(t, 2, pad), pad);
  }

  /** The first byte depends on two codes and the second on three. */
  lemma BytesPrefix(w: bv8, x: bv8, y: bv8, z: bv8, v: bv8, u: bv8)
    ensures Bytes(w, x, y, z)[..1] == Bytes(w, x, v, u)[..1]
    ensures y == v ==> Bytes(w, x, y, z)[..2] == Bytes(w, x, v, u)[..2]
  {
  }

  /** Decoding gives every byte string back. */
  lemma {:induction false} RoundTrip(s: seq<bv8>)
    ensures Decode(Encode(s)) == s
  {
    hide Digits, Group, Bytes, Find, IsBase64;
    if |s| == 0 {
      assert Run("") == 0;
    } else if |s| == 1 {
      RemainderOf(s[0], 0, 2, Encode(s));
    } else if |s| == 2 {
      RemainderOf(s[0], s[1], 3, Encode(s));
    } else {
      RoundTrip(s[3..]);
      var v := Group(s[0], s[1], s[2]);
      var t := Encode(s);
      assert t[4..] == Encode(s[3..]) && t[..4] == Digits(v);
      DigitsBytes(s[0], s[1], s[2]);
      assert forall i :: 0 <= i < 4 ==> t[i] == Digits(v)[i];
      assert Run(t) >= 4;
    }
  }

  /** The texts of section 4 of RFC 4648: whole groups of four alphabet characters, the last one
      possibly padded, and then with zero bits where nothing was encoded (section 3.5). */
  predicate Canonical(t: string) {
    t == "" ||
    (|t| >= 4 && IsBase64(t[0]) && IsBase64(t[1]) &&
     if |t| == 4 && t[2] == '=' then
       t[3] == '=' && Find(t[1]) & 0xf == 0
     else if |t| == 4 && t[3] == '=' then
       IsBase64(t[2]) && Find(t[2]) & 0x3 == 0
     else
       IsBase64(t[2]) && IsBase64(t[3]) && Canonical(t[4..]))
  }

  lemma SplitBits(a: bv8, b: bv8)
    ensures (((Group(a, 0, 0) >> 12) & 0x3f) as bv8) & 0xf == 0
    ensures (((Group(a, b, 0) >> 6) & 0x3f) as bv8) & 0x3 == 0
  {
  }

  lemma {:induction false} EncodeCanonical(s: seq<bv8>)
    ensures Canonical(Encode(s))
  {
    NotPadding();
    hide Digits, Group, Find, IsBase64;
    var t := Encode(s);
    if |s| == 1 {
      SplitBits(s[0], 0);
      DigitsFind(Group(s[0], 0, 0));
    } else if |s| == 2 {
      SplitBits(s[0], s[1]);
      DigitsFind(Group(s[0], s[1], 0));
    } else if |s| >= 3 {
      EncodeCanonical(s[3..]);
      DigitsFind(Group(s[0], s[1], s[2]));
      assert t[4..] == Encode(s[3..]);
    }
  }

  /** Splitting what was joined gives the codes back, if the bits that are dropped were zero. */
  lemma SplitJoin(w: bv8, x: bv8, y: bv8, z: bv8)
    requires w < 64 && x < 64 && y < 64 && z < 64
    ensures var r := Bytes(w, x, y, z);
      && ((Group(r[0], r[1], r[2]) >> 18) & 0x3f) as bv8 == w
      && ((Group(r[0], r[1], r[2]) >> 12) & 0x3f) as bv8 == x
      && ((Group(r[0], r[1], r[2]) >> 6) & 0x3f) as bv8 == y
      && (Group(r[0], r[1], r[2]) & 0x3f) as bv8 == z
    ensures y & 0x3 == 0 ==>
      Group(Bytes(w, x, y, z)[0], Bytes(w, x, y, z)[1], 0) ==
        Group(Bytes(w, x, y, 0)[0], Bytes(w, x, y, 0)[1], Bytes(w, x, y, 0)[2])
    ensures x & 0xf == 0 ==>
      Group(Bytes(w, x, y, z)[0], 0, 0) == Group(Bytes(w, x, 0, 0)[0], Bytes(w, x, 0, 0)[1], Bytes(w, x, 0, 0)[2])
  {
  }

  lemma DigitsOfBytes(w: bv8, x: bv8, y: bv8, z: bv8)
    requires w < 64 && x < 64 && y < 64 && z < 64
    ensures var r := Bytes(w, x, y, z);
      Digits(Group(r[0], r[1], r[2])) == [Code(w), Code(x), Code(y), Code(z)]
    ensures y & 0x3 == 0 ==>
      Digits(Group(Bytes(w, x, y, z)[0], Bytes(w, x, y, z)[1], 0)) == [Code(w), Code(x), Code(y), Code(0)]
    ensures x & 0xf == 0 ==> Digits(Group(Bytes(w, x, y, z)[0], 0, 0)) == [Code(w), Code(x), Code(0), Code(0)]
  {
    hide Code, Group, Bytes;
    SplitJoin(w, x, y, z);
    SplitJoin(w, x, y, 0);
    SplitJoin(w, x, 0, 0);
  }

  lemma GroupBack(t: string)
    requires |t| >= 4 && AllBase64(t[..4]) && Encode(Decode(t[4..])) == t[4..]
    ensures Encode(Decode(t)) == t
  {
    hide Find, IsBase64, Code, Group, Bytes, Digits;
    assert forall q :: 0 <= q < 4 ==> t[q] == t[..4][q];
    LongRun(t);
    FindCode(t[0]);
    FindCode(t[1]);
    FindCode(t[2]);
    FindCode(t[3]);
    var r := Bytes(Find(t[0]), Find(t[1]), Find(t[2]), Find(t[3]));
    DigitsOfBytes(Find(t[0]), Find(t[1]), Find(t[2]), Find(t[3]));
    assert Decode(t) == r + Decode(t[4..]);
    hide Decode;
    assert (r + Decode(t[4..]))[3..] == Decode(t[4..]);
    assert t == [t[0], t[1], t[2], t[3]] + t[4..];
  }

  lemma {:induction false} CanonicalBack(t: string)
    requires Canonical(t)
    ensures Encode(Decode(t)) == t
  {
    NotPadding();
    hide Find, IsBase64, Encode;
    if t == "" {
      BackEmpty();
    } else if |t| == 4 && t[2] == '=' {
      PaddedBack(t, 2);
    } else if |t| == 4 && t[3] == '=' {
      PaddedBack(t, 3);
    } else {
      CanonicalBack(t[4..]);
      GroupBack(t);
    }
  }

  lemma BackEmpty()
    ensures Encode(Decode("")) == ""
  {
    assert Run("") == 0;
  }

  lemma PaddedBack(t: string, n: nat)
    requires Canonical(t) && |t| == 4 && 2 <= n <= 3 && t[n] == '=' && (n == 3 ==> t[2] != '=')
    ensures Encode(Decode(t)) == t
  {
    NotPadding();
    hide IsBase64, Code, Group, Bytes, Digits, Find;
    FindCode(t[0]);
    FindCode(t[1]);
    DecodeShort(t, n);
    var u := t[..n];
    var w, x, y := Find(t[0]), Find(t[1]), 0;
    if n == 3 {
      FindCode(t[2]);
      y := Find(t[2]);
    }
    BytesPrefix(w, x, CodeAt(u, 2, 255), 255, y, 0);
    DigitsOfBytes(w, x, y, 0);
    var r := Bytes(w, x, y, 0);
    assert Decode(t) == r[..n - 1];
    if n == 2 {
      assert r[..1] == [r[0]];
      assert t == [t[0], t[1]] + "==";
    } else {
      assert r[..2] == [r[0], r[1]];
      assert t == [t[0], t[1], t[2]] + "=";
    }
  }

  /** Encoding inverts decoding exactly on the canonical texts. */
  lemma DecodeInverts(t: string)
    ensures Encode(Decode(t)) == t <==> Canonical(t)
  {
    EncodeCanonical(Decode(t));
    if Canonical(t) {
      CanonicalBack(t);
    }
  }
}
