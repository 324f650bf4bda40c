/** Which texts inet_pton6 (ntopng/ntop_win32.c) accepts, and the address each of them stands for. */
module Inet6Accept {
  import opened Addresses
  import opened Inet4
  import opened Inet6

  // ----- the texts -----

  /** The pieces of a text between its colons. */
  function ColonFields(s: string): (fs: seq<string>)
    ensures |fs| >= 1
  {
    if s == "" then [""]
    else if s[0] == ':' then [""] + ColonFields(s[1..])
    else var r := ColonFields(s[1..]); [[s[0]] + r[0]] + r[1..]
  }

  predicate AllHex(f: string) { forall i :: 0 <= i < |f| ==> IsHex(f[i]) }

  /** The hexadecimal number that f continues when v was read so far. */
  function HexFrom(v: nat, f: string): nat
    requires AllHex(f)
    decreases |f|
  {
    if f == "" then v else HexFrom(v * 16 + HexValue(f[0]), f[1..])
  }

  /** A group: hexadecimal, of any number of digits, but of at most 16 bits. */
  predicate IsGroup(f: string) { f != "" && AllHex(f) && HexFrom(0, f) <= 0xffff }

  /** The bytes of a group; none for the empty field of a "::". */
  function GroupBytes(f: string): seq<u8>
    requires f == "" || IsGroup(f)
  {
    if f == "" then [] else WordBytes(HexFrom(0, f))
  }

  /** Also the last field may be empty, or it may be an IPv4 address. */
  predicate IsLast(f: string) { f == "" || IsGroup(f) || IsQuadText(f) }

  function LastBytes(f: string): seq<u8>
    requires IsLast(f)
  {
    if f == "" || IsGroup(f) then GroupBytes(f) else Values(Fields(f))
  }

  predicate AllGroups(fs: seq<string>)
    requires |fs| >= 1
  {
    (forall i :: 0 <= i < |fs| - 1 ==> fs[i] == "" || IsGroup(fs[i])) && IsLast(fs[|fs| - 1])
  }

  function AllBytes(fs: seq<string>): seq<u8>
    requires |fs| >= 1 && AllGroups(fs)
  {
    if |fs| == 1 then LastBytes(fs[0])
    else assert forall i :: 0 <= i < |fs| - 1 ==> fs[1..][i] == fs[i + 1]; GroupBytes(fs[0]) + AllBytes(fs[1..])
  }

  /** How many fields come before the first "::", the last field aside. */
  function Gap(fs: seq<string>): (k: Option<nat>)
    requires |fs| >= 1
    ensures k.None? ==> forall i :: 0 <= i < |fs| - 1 ==> fs[i] != ""
    ensures k.Some? ==> k.value < |fs| - 1 && fs[k.value] == "" && forall i :: 0 <= i < k.value ==> fs[i] != ""
  {
    if |fs| == 1 then None
    else if fs[0] == "" then Some(0)
    else
      assert forall i :: 0 <= i < |fs| - 1 ==> fs[1..][i] == fs[i + 1];
      match Gap(fs[1..]) case Some(k) => Some(k + 1) case None => None
  }

  /** Groups, at most one "::" between them, and the right number of bytes. */
  predicate IsAddress(fs: seq<string>)
    requires |fs| >= 1
  {
    && AllGroups(fs)
    && (forall i, j :: 0 <= i < j < |fs| - 1 ==> fs[i] != "" || fs[j] != "")
    && (if Gap(fs).Some? then |AllBytes(fs)| <= 16 else |AllBytes(fs)| == 16)
  }

  /** A text that begins with a colon must begin with two; the first of them counts for nothing. */
  predicate LeadingColons(s: string) { s != "" && s[0] == ':' ==> |s| > 1 && s[1] == ':' }

  function Body(s: string): string { if s != "" && s[0] == ':' then s[1..] else s }

  predicate IsIpv6Text(s: string) { LeadingColons(s) && IsAddress(ColonFields(Body(s))) }

  lemma {:induction false} GapFits(fs: seq<string>)
    requires |fs| >= 1 && AllGroups(fs) && Gap(fs).Some?
    ensures 2 * Gap(fs).value <= |AllBytes(fs)|
  {
    if fs[0] != "" {
      assert forall i :: 0 <= i < |fs| - 1 ==> fs[1..][i] == fs[i + 1];
      GapFits(fs[1..]);
    }
  }

  /** The address: each group is two bytes, and the "::" is as many zeros as are missing. */
  function AddressOf(fs: seq<string>): Bytes
    requires |fs| >= 1 && IsAddress(fs)
  {
    var bytes := AllBytes(fs);
    match Gap(fs)
    case Some(k) =>
      GapFits(fs);
      Spread(bytes, 2 * k)
    case None => bytes
  }

  // ----- from characters to fields -----

  /** What the scanner makes of the fields that are left, when `out` was stored and the "::" seen. */
  function Accept(fs: seq<string>, out: seq<u8>, colon: Option<nat>): Option<Bytes>
    requires |fs| >= 1 && |out| <= 16 && (colon.Some? ==> colon.value <= |out|)
    decreases |fs|
  {
    var f := fs[0];
    if |fs| == 1 then
      if f == "" then Finish(out, colon, 0, false)
      else if IsGroup(f) then Finish(out, colon, HexFrom(0, f), true)
      else if IsQuadText(f) && |out| + 4 <= 16 then Finish(out + Values(Fields(f)), colon, 0, false)
      else None
    else if f == "" then (if colon.Some? then None else Accept(fs[1..], out, Some(|out|)))
    else if IsGroup(f) && |out| + 2 <= 16 then Accept(fs[1..], out + GroupBytes(f), colon)
    else None
  }

  lemma {:induction false} HexSplit(v: nat, f: string, g: string)
    requires AllHex(f) && AllHex(g)
    ensures AllHex(f + g) && HexFrom(v, f + g) == HexFrom(HexFrom(v, f), g)
    decreases |f|
  {
    if f == "" {
      assert f + g == g;
    } else {
      assert (f + g)[1..] == f[1..] + g;
      HexSplit(v * 16 + HexValue(f[0]), f[1..], g);
    }
  }

  lemma {:induction false} HexGrows(v: nat, f: string)
    requires AllHex(f)
    ensures HexFrom(v, f) >= v
    decreases |f|
  {
    if f != "" {
      HexGrows(v * 16 + HexValue(f[0]), f[1..]);
    }
  }

  lemma {:induction false} ValueSplit(v: nat, f: string, g: string)
    requires AllDigits(f + g)
    ensures AllDigits(f) && AllDigits(g) && ValueFrom(v, f + g) == ValueFrom(ValueFrom(v, f), g)
    decreases |f|
  {
    assert forall i :: 0 <= i < |f| ==> (f + g)[i] == f[i];
    assert forall i :: 0 <= i < |g| ==> (f + g)[|f| + i] == g[i];
    if f == "" {
      assert f + g == g;
    } else {
      assert (f + g)[1..] == f[1..] + g;
      ValueSplit(v * 10 + DigitValue(f[0]), f[1..], g);
    }
  }

  /** The same digits read as a decimal and as a hexadecimal number, as far as three digits. */
  predicate Small(d: nat, h: nat) {
    (d < 10 ==> h == d) && (d < 100 ==> h <= 0x99) && (d < 1000 ==> h <= 0x999)
  }

  lemma {:induction false} SmallRun(d: nat, h: nat, f: string)
    requires AllDigits(f) && Small(d, h)
    ensures AllHex(f) && Small(ValueFrom(d, f), HexFrom(h, f))
    decreases |f|
  {
    assert forall i :: 0 <= i < |f| ==> IsHex(f[i]);
    if f != "" {
      assert HexValue(f[0]) == DigitValue(f[0]) <= 9;
      SmallRun(d * 10 + DigitValue(f[0]), h * 16 + HexValue(f[0]), f[1..]);
    }
  }

  /** A dotted quad is made of digits and dots. */
  lemma {:induction false} QuadChars(s: string)
    requires forall k :: 0 <= k < |Fields(s)| ==> AllDigits(Fields(s)[k])
    ensures forall i :: 0 <= i < |s| ==> IsDigit(s[i]) || s[i] == '.'
  {
    if s != "" {
      var fs, r := Fields(s), Fields(s[1..]);
      if s[0] == '.' {
        assert forall k :: 0 <= k < |r| ==> r[k] == fs[k + 1];
      } else {
        assert fs[0][0] == s[0];
        assert forall i :: 0 <= i < |r[0]| ==> r[0][i] == fs[0][i + 1];
        assert forall k :: 1 <= k < |r| ==> r[k] == fs[k];
      }
      QuadChars(s[1..]);
    }
  }

  lemma QuadTextChars(s: string)
    requires IsQuadText(s)
    ensures forall i :: 0 <= i < |s| ==> IsDigit(s[i]) || s[i] == '.'
  {
    hide Fields, ValueFrom;
    QuadChars(s);
  }

  /** The scanner reads the first octet of a dotted quad as a group that is never too large. */
  lemma QuadHead(p: string, x: string)
    requires AllHex(p) && IsQuadText(p + x)
    ensures HexFrom(0, p) <= 0xffff
  {
    QuadTextChars(p + x);
    forall i | 0 <= i < |p| ensures IsDigit(p[i]) {
      assert (p + x)[i] == p[i];
    }
    FieldsPrepend(p, x);
    var g := Fields(x)[0];
    assert Fields(p + x)[0] == p + g;
    ValueSplit(0, p, g);
    ValueGrows(ValueFrom(0, p), g);
    SmallRun(0, 0, p);
  }

  lemma NotQuad(f: string, i: nat)
    requires i < |f| && !IsDigit(f[i]) && f[i] != '.'
    ensures !IsQuadText(f)
  {
    hide IsQuadText;
    if IsQuadText(f) {
      QuadTextChars(f);
    }
  }

  /** Nothing that begins with a hexadecimal number of more than 16 bits is accepted. */
  lemma TooLarge(p: string, x: string)
    requires p != "" && AllHex(p) && HexFrom(0, p) > 0xffff
    ensures p + x != "" && !IsGroup(p + x) && !IsQuadText(p + x)
  {
    hide IsQuadText;
    if AllHex(p + x) {
      assert forall i :: 0 <= i < |x| ==> (p + x)[|p| + i] == x[i];
      HexSplit(0, p, x);
      HexGrows(HexFrom(0, p), x);
    }
    if IsQuadText(p + x) {
      QuadHead(p, x);
    }
  }

  lemma {:induction false} NoColons(s: string)
    requires |ColonFields(s)| == 1
    ensures ColonFields(s) == [s]
  {
    if s != "" {
      NoColons(s[1..]);
      assert [s[0]] + s[1..] == s;
    }
  }

  lemma {:induction false} SomeColon(s: string) returns (i: nat)
    requires |ColonFields(s)| > 1
    ensures i < |s| && s[i] == ':'
  {
    if s[0] == ':' {
      i := 0;
    } else {
      i := SomeColon(s[1..]);
      i := i + 1;
    }
  }

  /** A dot: the rest of the text must be one dotted quad. */
  lemma DotAccept(pre: string, s: string, out: seq<u8>, colon: Option<nat>)
    requires |out| <= 16 && (colon.Some? ==> colon.value <= |out|) && s != "" && s[0] == '.'
    ensures var fs := ColonFields(s);
      Dot(pre + s, out, colon) == Accept([pre + fs[0]] + fs[1..], out, colon)
  {
    hide Finish, Fields, GoodField, Parse4;
    var fs := ColonFields(s);
    var f := pre + fs[0];
    Pton4Accepts(pre + s);
    assert f[|pre|] == '.';
    assert !AllHex(f);
    if |fs| == 1 {
      NoColons(s);
      assert [f] + fs[1..] == [pre + s];
    } else {
      var i := SomeColon(s);
      NotQuad(pre + s, |pre| + i);
    }
  }

  /** A colon: the field is complete. */
  lemma ColonFirst(s: string)
    requires s != "" && s[0] == ':'
    ensures ColonFields(s) == [""] + ColonFields(s[1..])
  {
  }

  lemma OtherFirst(s: string, pre: string)
    requires s != "" && s[0] != ':'
    ensures var fs, r := ColonFields(s), ColonFields(s[1..]);
      fs[1..] == r[1..] && pre + fs[0] == pre + [s[0]] + r[0]
  {
  }

  /** The scanner, in the middle of a field of which it has read `pre`. */
  lemma {:induction false} ScanAccept(s: string, pre: string, out: seq<u8>, colon: Option<nat>)
    requires |out| <= 16 && (colon.Some? ==> colon.value <= |out|)
    requires AllHex(pre) && HexFrom(0, pre) <= 0xffff
    ensures var fs := ColonFields(s);
      Scan6(s, pre + s, out, colon, HexFrom(0, pre), pre != "") == Accept([pre + fs[0]] + fs[1..], out, colon)
    decreases |s|, 1
  {
    hide Finish, Dot, IsQuadText, ColonFields;
    var fs, v := ColonFields(s), HexFrom(0, pre);
    var all := [pre + fs[0]] + fs[1..];
    if s == "" {
      EmptyFields();
      assert pre + "" == pre && all == [pre];
    } else if IsHex(s[0]) {
      HexAccept(s, pre, out, colon);
    } else if s[0] == ':' {
      ColonFirst(s);
      var r := ColonFields(s[1..]);
      assert pre + "" == pre && all == [pre] + r && all[1..] == r;
      assert "" + r[0] == r[0] && [r[0]] + r[1..] == r && "" + s[1..] == s[1..];
      if pre == "" {
        if colon.None? {
          ScanAccept(s[1..], "", out, Some(|out|));
        }
      } else if |out| + 2 <= 16 {
        ScanAccept(s[1..], "", out + WordBytes(v), colon);
      }
    } else if s[0] == '.' {
      DotAccept(pre, s, out, colon);
    } else {
      OtherFirst(s, pre);
      var f := pre + fs[0];
      assert f[|pre|] == s[0];
      NotQuad(f, |pre|);
      assert !AllHex(f);
    }
  }

  lemma EmptyFields()
    ensures ColonFields("") == [""]
  {
  }

  lemma Rejected(fs: seq<string>, out: seq<u8>, colon: Option<nat>)
    requires |fs| >= 1 && |out| <= 16 && (colon.Some? ==> colon.value <= |out|)
    requires fs[0] != "" && !IsGroup(fs[0]) && !IsQuadText(fs[0])
    ensures Accept(fs, out, colon).None?
  {
  }

  lemma HexReads(s: string, tok: string, out: seq<u8>, colon: Option<nat>, val: u16, saw: bool)
    requires |out| <= 16 && (colon.Some? ==> colon.value <= |out|) && s != "" && IsHex(s[0])
    ensures var v: int := val as int * 16 + HexValue(s[0]);
      Scan6(s, tok, out, colon, val, saw) == if v > 0xffff then None else Scan6(s[1..], tok, out, colon, v, true)
  {
    hide Finish, Dot;
  }

  /** A field grows by one digit. */
  lemma DigitJoins(s: string, pre: string)
    requires AllHex(pre) && s != "" && IsHex(s[0])
    ensures var p, r, fs := pre + [s[0]], ColonFields(s[1..]), ColonFields(s);
      && AllHex(p) && HexFrom(0, p) == HexFrom(0, pre) * 16 + HexValue(s[0])
      && [pre + fs[0]] + fs[1..] == [p + r[0]] + r[1..] && pre + s == p + s[1..]
  {
    hide ColonFields;
    OtherFirst(s, pre);
    HexSplit(0, pre, [s[0]]);
    assert [s[0]][1..] == "";
  }

  lemma HexAccept(s: string, pre: string, out: seq<u8>, colon: Option<nat>)
    requires |out| <= 16 && (colon.Some? ==> colon.value <= |out|)
    requires AllHex(pre) && HexFrom(0, pre) <= 0xffff && s != "" && IsHex(s[0])
    ensures var fs := ColonFields(s);
      Scan6(s, pre + s, out, colon, HexFrom(0, pre), pre != "") == Accept([pre + fs[0]] + fs[1..], out, colon)
    decreases |s|, 0
  {
    DigitJoins(s, pre);
    HexReads(s, pre + s, out, colon, HexFrom(0, pre), pre != "");
    hide Accept, Scan6, IsQuadText, IsHex, ColonFields, AllHex, IsGroup;
    var p, r := pre + [s[0]], ColonFields(s[1..]);
    if HexFrom(0, p) > 0xffff {
      TooLarge(p, r[0]);
      Rejected([p + r[0]] + r[1..], out, colon);
    } else {
      ScanAccept(s[1..], p, out, colon);
    }
  }

  // ----- from fields to the address -----

  /** The fields that are left complete an address of which `out` and the mark are known. */
  predicate Completes(fs: seq<string>, out: seq<u8>, colon: Option<nat>)
    requires |fs| >= 1
  {
    && AllGroups(fs)
    && (forall i, j :: 0 <= i < j < |fs| - 1 ==> fs[i] != "" || fs[j] != "")
    && (colon.Some? ==> Gap(fs).None?)
    && |out| + |AllBytes(fs)| <= 16
    && (colon.None? && Gap(fs).None? ==> |out| + |AllBytes(fs)| == 16)
  }

  function MarkOf(fs: seq<string>, out: seq<u8>, colon: Option<nat>): Option<nat>
    requires |fs| >= 1
  {
    if colon.Some? then colon
    else match Gap(fs) case Some(k) => Some(|out| + 2 * k) case None => None
  }

  lemma MarkFits(fs: seq<string>, out: seq<u8>, colon: Option<nat>)
    requires |fs| >= 1 && AllGroups(fs) && (colon.Some? ==> colon.value <= |out|)
    ensures MarkOf(fs, out, colon).Some? ==> MarkOf(fs, out, colon).value <= |out| + |AllBytes(fs)|
  {
    if Gap(fs).Some? {
      GapFits(fs);
    }
  }

  function Completed(fs: seq<string>, out: seq<u8>, colon: Option<nat>): Bytes
    requires |fs| >= 1 && Completes(fs, out, colon) && (colon.Some? ==> colon.value <= |out|)
  {
    MarkFits(fs, out, colon);
    match MarkOf(fs, out, colon)
    case Some(k) => Spread(out + AllBytes(fs), k)
    case None => out + AllBytes(fs)
  }

  lemma RestGroups(fs: seq<string>)
    requires |fs| > 1
    ensures AllGroups(fs) <==> (fs[0] == "" || IsGroup(fs[0])) && AllGroups(fs[1..])
  {
    assert forall i :: 0 <= i < |fs| - 1 ==> fs[1..][i] == fs[i + 1];
  }

  lemma RestSingle(fs: seq<string>)
    requires |fs| > 1
    ensures (forall i, j :: 0 <= i < j < |fs| - 1 ==> fs[i] != "" || fs[j] != "") <==>
      (forall i, j :: 0 <= i < j < |fs[1..]| - 1 ==> fs[1..][i] != "" || fs[1..][j] != "")
      && (fs[0] == "" ==> Gap(fs[1..]).None?)
  {
    var r := fs[1..];
    assert forall i :: 0 <= i < |r| ==> r[i] == fs[i + 1];
    if forall i, j :: 0 <= i < j < |r| - 1 ==> r[i] != "" || r[j] != "" {
      if fs[0] == "" ==> Gap(r).None? {
        forall i, j | 0 <= i < j < |fs| - 1 ensures fs[i] != "" || fs[j] != "" {
          assert fs[j] == r[j - 1];
          if i > 0 {
            assert fs[i] == r[i - 1];
          }
        }
      }
    }
  }

  lemma {:induction false} AcceptIs(fs: seq<string>, out: seq<u8>, colon: Option<nat>)
    requires |fs| >= 1 && |out| <= 16 && (colon.Some? ==> colon.value <= |out|)
    ensures Accept(fs, out, colon) == if Completes(fs, out, colon) then Some(Completed(fs, out, colon)) else None
    decreases |fs|
  {
    hide IsGroup, IsQuadText, Spread, HexFrom, Fields;
    if |fs| == 1 {
      LastIs(fs, out, colon);
    } else {
      var f, r := fs[0], fs[1..];
      RestGroups(fs);
      RestSingle(fs);
      if f == "" {
        if colon.None? {
          AcceptIs(r, out, Some(|out|));
          if AllGroups(fs) {
            assert [] + AllBytes(r) == AllBytes(r);
          }
        }
      } else if IsGroup(f) {
        var b := GroupBytes(f);
        assert |b| == 2;
        if |out| + 2 <= 16 {
          AcceptIs(r, out + b, colon);
          if AllGroups(fs) {
            assert out + b + AllBytes(r) == out + (b + AllBytes(r));
          }
        }
      }
    }
  }

  lemma LastIs(fs: seq<string>, out: seq<u8>, colon: Option<nat>)
    requires |fs| == 1 && |out| <= 16 && (colon.Some? ==> colon.value <= |out|)
    ensures Accept(fs, out, colon) == if Completes(fs, out, colon) then Some(Completed(fs, out, colon)) else None
  {
    hide Spread, HexFrom, Fields, GoodField;
    var f := fs[0];
    assert out + [] == out;
    if IsLast(f) {
      assert AllGroups(fs) && AllBytes(fs) == LastBytes(f);
    }
  }

  /** inet_pton6 accepts exactly these texts and returns these addresses. Besides the standard forms
      (section 2.2 of RFC 4291) they include groups with more than four digits, one trailing colon
      and a "::" that stands for nothing. */
  lemma Pton6Accepts(s: string)
    ensures Parse6(s) == if IsIpv6Text(s) then Some(AddressOf(ColonFields(Body(s)))) else None
  {
    hide Scan6, Accept, IsGroup, IsQuadText, ColonFields, Spread;
    if LeadingColons(s) {
      var t := Body(s);
      var fs := ColonFields(t);
      assert "" + t == t && "" + fs[0] == fs[0] && [fs[0]] + fs[1..] == fs;
      ScanAccept(t, "", [], None);
      AcceptIs(fs, [], None);
      if AllGroups(fs) {
        assert [] + AllBytes(fs) == AllBytes(fs);
      }
    }
  }

  // ----- a colon too many -----

  lemma {:induction false} FieldsSnoc(s: string)
    ensures ColonFields(s + ":") == ColonFields(s) + [""]
  {
    if s != "" {
      FieldsSnoc(s[1..]);
      assert (s + ":")[1..] == s[1..] + ":";
    }
  }

  lemma {:induction false} BytesSnoc(fs: seq<string>)
    requires |fs| >= 1 && AllGroups(fs) && IsGroup(fs[|fs| - 1])
    ensures AllGroups(fs + [""]) && AllBytes(fs + [""]) == AllBytes(fs)
  {
    hide IsGroup, IsQuadText, HexFrom;
    var gs := fs + [""];
    assert forall i :: 0 <= i < |gs| - 1 ==> gs[i] == fs[i];
    assert gs[1..] == fs[1..] + [""];
    if |fs| == 1 {
      assert AllBytes(gs[1..]) == [];
      assert GroupBytes(fs[0]) + [] == GroupBytes(fs[0]);
    } else {
      RestGroups(fs);
      BytesSnoc(fs[1..]);
    }
  }

  lemma {:induction false} GapSnoc(fs: seq<string>)
    requires |fs| >= 1 && fs[|fs| - 1] != ""
    ensures Gap(fs + [""]) == Gap(fs)
  {
    assert (fs + [""])[1..] == fs[1..] + [""];
    if |fs| > 1 {
      GapSnoc(fs[1..]);
    }
  }

  lemma AddressSnoc(fs: seq<string>)
    requires |fs| >= 1 && IsGroup(fs[|fs| - 1])
    ensures IsAddress(fs + [""]) <==> IsAddress(fs)
    ensures IsAddress(fs) ==> AddressOf(fs + [""]) == AddressOf(fs)
  {
    hide IsGroup, AllBytes, Gap, Spread, GroupBytes;
    var gs := fs + [""];
    assert IsGroup("") == false by {
      EmptyGroup();
    }
    assert forall i :: 0 <= i < |fs| ==> gs[i] == fs[i];
    GapSnoc(fs);
    if AllGroups(gs) {
      assert forall i :: 0 <= i < |fs| - 1 ==> fs[i] == "" || IsGroup(fs[i]);
      assert AllGroups(fs);
    }
    if AllGroups(fs) {
      BytesSnoc(fs);
    }
  }

  lemma EmptyGroup()
    ensures !IsGroup("")
  {
  }

  /** A text that ends with a group is read with a colon after it as it is without. */
  lemma TrailingColon(s: string)
    requires var fs := ColonFields(Body(s)); IsGroup(fs[|fs| - 1])
    ensures Parse6(s + ":") == Parse6(s)
  {
    hide IsGroup, Parse6, IsAddress, AddressOf, ColonFields;
    Pton6Accepts(s);
    Pton6Accepts(s + ":");
    assert s != "" by {
      EmptyFields();
      EmptyGroup();
    }
    assert Body(s + ":") == Body(s) + ":";
    FieldsSnoc(Body(s));
    AddressSnoc(ColonFields(Body(s)));
    if |s| == 1 && s[0] == ':' {
      assert Body(s) == "";
      EmptyFields();
      EmptyGroup();
    }
  }
}
