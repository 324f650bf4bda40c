/** The form of the printed addresses: lower case, no leading zeros, and a dotted quad exactly where the
    address embeds one (section 4 of RFC 5952). */
module Inet6Forms {
  import opened Addresses
  import opened Inet4
  import opened Inet6
  import opened Inet6Accept

  // ----- decimal -----

  /** No leading zero. */
  predicate Plain(f: string) { |f| >= 1 && (|f| > 1 ==> f[0] != '0') }

  lemma DecPlain(b: u8)
    ensures Plain(Dec(b)) && AllDigits(Dec(b))
  {
  }

  /** The octets of a printed IPv4 address have no leading zeros. */
  lemma OctetsPlain(q: Quad)
    ensures forall i :: 0 <= i < |Fields(Text4(q))| ==> Plain(Fields(Text4(q))[i])
  {
    hide Dec, Text4, Fields, Plain;
    FieldsOfText(q);
    assert Decs(q, 2) == [Dec(q[2]), Dec(q[3])] && Decs(q, 0) == [Dec(q[0]), Dec(q[1])] + Decs(q, 2);
    DecPlain(q[0]);
    DecPlain(q[1]);
    DecPlain(q[2]);
    DecPlain(q[3]);
  }

  // ----- hexadecimal -----

  predicate IsLowerHex(c: char) { '0' <= c <= '9' || 'a' <= c <= 'f' }

  predicate AllLowerHex(s: string) { forall i :: 0 <= i < |s| ==> IsLowerHex(s[i]) }

  lemma {:induction false} HexLower(n: u16)
    ensures AllLowerHex(Hex(n)) && Plain(Hex(n)) && (n > 0 ==> Hex(n)[0] != '0')
  {
    HexDigitLower(n % 16);
    if n >= 16 {
      HexLower(n / 16);
    }
  }

  lemma HexDigitLower(n: nat)
    requires n < 16
    ensures IsLowerHex(HexDigit(n)) && (HexDigit(n) == '0' <==> n == 0)
  {
  }

  /** Hexadecimal digits are read in both cases, and nothing else is one. */
  lemma HexValues(i: nat)
    requires i < 16
    ensures var low, high := "0123456789abcdef"[i], "0123456789ABCDEF"[i];
      IsHex(low) && IsHex(high) && HexValue(low) == i == HexValue(high)
    ensures forall c: char :: IsHex(c) ==>
      exists j :: 0 <= j < 16 && (c == "0123456789abcdef"[j] || c == "0123456789ABCDEF"[j])
  {
    forall c: char | IsHex(c)
      ensures exists j :: 0 <= j < 16 && (c == "0123456789abcdef"[j] || c == "0123456789ABCDEF"[j])
    {
      HexOne(c);
    }
  }

  lemma HexOne(c: char)
    requires IsHex(c)
    ensures exists j :: 0 <= j < 16 && (c == "0123456789abcdef"[j] || c == "0123456789ABCDEF"[j])
  {
    var low, high := "0123456789abcdef", "0123456789ABCDEF";
    assert c == low[HexValue(c)] || c == high[HexValue(c)];
  }

  // ----- fields -----

  lemma {:induction false} NoColonField(s: string)
    requires forall i :: 0 <= i < |s| ==> s[i] != ':'
    ensures ColonFields(s) == [s]
  {
    if s != "" {
      NoColonField(s[1..]);
      assert [s[0]] + s[1..] == s;
    }
  }

  lemma {:induction false} FieldsJoin(a: string, b: string)
    ensures ColonFields(a + (":" + b)) == ColonFields(a) + ColonFields(b)
  {
    if a == "" {
      assert a + (":" + b) == ":" + b && (":" + b)[1..] == b;
    } else {
      assert (a + (":" + b))[1..] == a[1..] + (":" + b);
      FieldsJoin(a[1..], b);
    }
  }

  /** Fields that are empty, lower-case hexadecimal without leading zeros, or a dotted quad. */
  ghost predicate FieldForm(f: string) {
    f == "" || (AllLowerHex(f) && Plain(f)) || exists q: Quad :: f == Text4(q)
  }

  ghost predicate FieldForms(fs: seq<string>) { forall i :: 0 <= i < |fs| ==> FieldForm(fs[i]) }

  lemma FormsJoin(a: seq<string>, b: seq<string>)
    requires FieldForms(a) && FieldForms(b)
    ensures FieldForms(a + b)
  {
    hide FieldForm;
  }

  lemma HexForms(n: u16)
    ensures FieldForms(ColonFields(Hex(n))) && forall i :: 0 <= i < |Hex(n)| ==> Hex(n)[i] != ':'
  {
    HexLower(n);
    NoColonField(Hex(n));
    hide Hex;
  }

  lemma {:induction false} GroupsForms(w: seq<u16>, i: nat, j: nat)
    requires i <= j <= |w|
    ensures FieldForms(ColonFields(Groups(w, i, j)))
    decreases j
  {
    hide Hex, FieldForms;
    if i == j {
      EmptyForms();
    } else if i + 1 == j {
      HexForms(w[i]);
    } else {
      GroupsForms(w, i, j - 1);
      HexForms(w[j - 1]);
      FieldsJoin(Groups(w, i, j - 1), Hex(w[j - 1]));
      FormsJoin(ColonFields(Groups(w, i, j - 1)), ColonFields(Hex(w[j - 1])));
    }
  }

  lemma EmptyForms()
    ensures FieldForms(ColonFields("")) && FieldForms([""])
  {
  }

  lemma {:induction false} TailChars(q: Quad, k: nat)
    requires k <= 4
    ensures forall i :: 0 <= i < |Tail(q, k)| ==> IsDigit(Tail(q, k)[i]) || Tail(q, k)[i] == '.'
    decreases 4 - k
  {
    if k < 4 {
      DecPlain(q[k]);
      hide Dec;
      TailChars(q, k + 1);
    }
  }

  lemma QuadForms(q: Quad)
    ensures FieldForms(ColonFields(Text4(q))) && '.' in Text4(q)
    ensures forall i :: 0 <= i < |Text4(q)| ==> IsDigit(Text4(q)[i]) || Text4(q)[i] == '.'
  {
    DecPlain(q[0]);
    TailChars(q, 1);
    DotIn(q);
    hide Dec, Tail;
    assert forall i :: 0 <= i < |Text4(q)| ==> IsDigit(Text4(q)[i]) || Text4(q)[i] == '.';
    hide Text4;
    NoColonField(Text4(q));
  }

  lemma DotIn(q: Quad)
    ensures '.' in Text4(q)
  {
    hide Dec;
    assert Tail(q, 1)[0] == '.';
    assert Text4(q)[|Dec(q[0])|] == '.';
  }

  lemma RestForms(src: Bytes, b: nat, l: nat)
    requires b + l <= 8
    ensures FieldForms(ColonFields(Rest(src, b, l)))
  {
    hide Hex, Text4, Groups, FieldForms;
    var w := Words(src);
    if EmbedsIpv4(w, b, l) {
      var t := Text4(LastQuad(src));
      QuadForms(LastQuad(src));
      if l == 5 {
        HexForms(w[5]);
        FieldsJoin(Hex(w[5]), t);
        FormsJoin(ColonFields(Hex(w[5])), ColonFields(t));
        assert (Hex(w[5]) + ":") + t == Hex(w[5]) + (":" + t);
      } else {
        assert "" + t == t;
      }
    } else {
      GroupsForms(w, b + l, 8);
    }
  }

  /** Every field of a printed address is empty, lower-case hexadecimal without leading zeros, or a dotted
      quad. */
  lemma PrintedForms(src: Bytes)
    ensures FieldForms(ColonFields(Text6(src)))
  {
    hide Groups, FieldForms, Longest, Rest;
    var w := Words(src);
    var (b, l) := Elision(w);
    LongestIs(w, 0);
    if b == -1 {
      GroupsForms(w, 0, 8);
    } else {
      GroupsForms(w, 0, b);
      RestForms(src, b, l);
      EmptyForms();
      var g, r := Groups(w, 0, b), Rest(src, b, l);
      FieldsJoin("", r);
      assert "" + (":" + r) == ":" + r;
      EmptyFields();
      FormsJoin([""], ColonFields(r));
      FieldsJoin(g, ":" + r);
      FormsJoin(ColonFields(g), ColonFields(":" + r));
      assert "::" + r == ":" + (":" + r);
    }
  }

  // ----- where the dotted quad is -----

  lemma HexDotless(n: u16)
    ensures '.' !in Hex(n)
  {
    HexLower(n);
    hide Hex;
  }

  lemma {:induction false} GroupsDotless(w: seq<u16>, i: nat, j: nat)
    requires i <= j <= |w|
    ensures '.' !in Groups(w, i, j)
    decreases j
  {
    hide Hex, Groups;
    if i == j {
      GroupsEmpty(w, i);
    } else if i + 1 == j {
      GroupsOne(w, i);
      HexDotless(w[i]);
    } else {
      GroupsDotless(w, i, j - 1);
      HexDotless(w[j - 1]);
      GroupsSnoc(w, i, j, "");
    }
  }

  lemma RestDots(src: Bytes, b: nat, l: nat)
    requires b + l <= 8
    ensures '.' in Rest(src, b, l) <==> EmbedsIpv4(Words(src), b, l)
  {
    hide Hex, Text4, Groups;
    if EmbedsIpv4(Words(src), b, l) {
      QuadForms(LastQuad(src));
    } else {
      GroupsDotless(Words(src), b + l, 8);
    }
  }

  lemma DotsWhen(src: Bytes)
    ensures var w := Words(src);
      '.' in Text6(src) <==> Elision(w).0 >= 0 && EmbedsIpv4(w, Elision(w).0, Elision(w).1)
  {
    hide Groups, Longest, Rest, Hex, EmbedsIpv4;
    var w := Words(src);
    var (b, l) := Elision(w);
    LongestIs(w, 0);
    ElisionIs(w, b, l);
    if b == -1 {
      GroupsDotless(w, 0, 8);
    } else {
      GroupsDotless(w, 0, b);
      RestDots(src, b, l);
    }
  }

  lemma NoRunNoQuad(w: seq<u16>)
    requires |w| == 8 && Elision(w).0 == -1
    ensures !(w[0] == 0 && w[1] == 0)
  {
    hide Longest;
    ElisionIs(w, -1, 0);
    assert w[0] == 0 && w[1] == 0 ==> ZeroRun(w, 0, 2);
  }

  /** The last four bytes are printed as an IPv4 address exactly if the first ten are zero and the next two
      are all ones, or are zero too while the two after them are not. */
  lemma QuadExactly(src: Bytes)
    ensures '.' in Text6(src) <==>
      var w := Words(src);
      (forall i :: 0 <= i < 5 ==> w[i] == 0) && (w[5] == 0xffff || (w[5] == 0 && w[6] != 0))
  {
    var w := Words(src);
    var (b, l) := Elision(w);
    DotsWhen(src);
    ElisionIs(w, b, l);
    hide Longest, Text6, EmbedsIpv4, LeftmostLongest, Words;
    if b == -1 {
      NoRunNoQuad(w);
    } else {
      ElisionFits(w);
      EmbedsWhen(w, b, l);
    }
  }

  lemma EmbedsWhen(w: seq<u16>, b: nat, l: nat)
    requires |w| == 8 && LeftmostLongest(w, b, l) && l >= 2
    ensures EmbedsIpv4(w, b, l) <==>
      (forall i :: 0 <= i < 5 ==> w[i] == 0) && (w[5] == 0xffff || (w[5] == 0 && w[6] != 0))
  {
    if forall i :: 0 <= i < 5 ==> w[i] == 0 {
      assert ZeroRun(w, 0, 5);
      if w[5] == 0 {
        assert ZeroRun(w, 0, 6);
        if w[6] == 0 {
          assert ZeroRun(w, 0, 7);
        }
      }
    }
  }
}
