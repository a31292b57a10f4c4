/** Bech32 strings: encoding, decoding and the round trip (bech32.cpp). */
module Bech32Codec {
  import opened Bech32
  import opened Bech32Distance

  const SEPARATOR: Byte := 49
  const NONE: Byte := 0xff

  /** The character of a symbol: qpzry9x8gf2tvdw0s3jn54khce6mua7l. */
  function Charset(v: Byte): Byte {
    if v == 0 then 113 else if v == 1 then 112 else if v == 2 then 122 else if v == 3 then 114
    else if v == 4 then 121 else if v == 5 then 57 else if v == 6 then 120 else if v == 7 then 56
    else if v == 8 then 103 else if v == 9 then 102 else if v == 10 then 50 else if v == 11 then 116
    else if v == 12 then 118 else if v == 13 then 100 else if v == 14 then 119 else if v == 15 then 48
    else if v == 16 then 115 else if v == 17 then 51 else if v == 18 then 106 else if v == 19 then 110
    else if v == 20 then 53 else if v == 21 then 52 else if v == 22 then 107 else if v == 23 then 104
    else if v == 24 then 99 else if v == 25 then 101 else if v == 26 then 54 else if v == 27 then 109
    else if v == 28 then 117 else if v == 29 then 97 else if v == 30 then 55
    else 108
  }

  /** The symbol of a character in either case, or NONE. */
  function CharsetRev(c: Byte): Byte {
    if c == 113 || c == 81 then 0 else if c == 112 || c == 80 then 1 else if c == 122 || c == 90 then 2
    else if c == 114 || c == 82 then 3 else if c == 121 || c == 89 then 4 else if c == 57 then 5
    else if c == 120 || c == 88 then 6 else if c == 56 then 7 else if c == 103 || c == 71 then 8
    else if c == 102 || c == 70 then 9 else if c == 50 then 10 else if c == 116 || c == 84 then 11
    else if c == 118 || c == 86 then 12 else if c == 100 || c == 68 then 13 else if c == 119 || c == 87 then 14
    else if c == 48 then 15 else if c == 115 || c == 83 then 16 else if c == 51 then 17
    else if c == 106 || c == 74 then 18 else if c == 110 || c == 78 then 19 else if c == 53 then 20
    else if c == 52 then 21 else if c == 107 || c == 75 then 22 else if c == 104 || c == 72 then 23
    else if c == 99 || c == 67 then 24 else if c == 101 || c == 69 then 25 else if c == 54 then 26
    else if c == 109 || c == 77 then 27 else if c == 117 || c == 85 then 28 else if c == 97 || c == 65 then 29
    else if c == 55 then 30 else if c == 108 || c == 76 then 31
    else NONE
  }

  predicate IsLower(c: Byte) { 97 <= c <= 122 }

  predicate IsUpper(c: Byte) { 65 <= c <= 90 }

  predicate Printable(c: Byte) { 33 <= c <= 126 }

  function LowerCase(c: Byte): Byte { if IsUpper(c) then c - 65 + 97 else c }

  lemma Reverse0()
    ensures CharsetRev(113) == 0 && CharsetRev(112) == 1 && CharsetRev(122) == 2 && CharsetRev(114) == 3
  {}

  lemma Reverse1()
    ensures CharsetRev(121) == 4 && CharsetRev(57) == 5 && CharsetRev(120) == 6 && CharsetRev(56) == 7
  {}

  lemma Reverse2()
    ensures CharsetRev(103) == 8 && CharsetRev(102) == 9 && CharsetRev(50) == 10 && CharsetRev(116) == 11
  {}

  lemma Reverse3()
    ensures CharsetRev(118) == 12 && CharsetRev(100) == 13 && CharsetRev(119) == 14 && CharsetRev(48) == 15
  {}

  lemma Reverse4()
    ensures CharsetRev(115) == 16 && CharsetRev(51) == 17 && CharsetRev(106) == 18 && CharsetRev(110) == 19
  {}

  lemma Reverse5()
    ensures CharsetRev(53) == 20 && CharsetRev(52) == 21 && CharsetRev(107) == 22 && CharsetRev(104) == 23
  {}

  lemma Reverse6()
    ensures CharsetRev(99) == 24 && CharsetRev(101) == 25 && CharsetRev(54) == 26 && CharsetRev(109) == 27
  {}

  lemma Reverse7()
    ensures CharsetRev(117) == 28 && CharsetRev(97) == 29 && CharsetRev(55) == 30 && CharsetRev(108) == 31
  {}

  lemma Charset0(v: Byte)
    requires 0 <= v < 8
    ensures CharsetRev(Charset(v)) == v && 33 <= Charset(v) <= 126 && Charset(v) != 49
            && (Charset(v) < 65 || Charset(v) > 90)
  {
    hide CharsetRev;
    Reverse0();
    Reverse1();
    if v == 0 {} else if v == 1 {} else if v == 2 {} else if v == 3 {} else if v == 4 {}
    else if v == 5 {} else if v == 6 {} else {}
  }

  lemma Charset1(v: Byte)
    requires 8 <= v < 16
    ensures CharsetRev(Charset(v)) == v && 33 <= Charset(v) <= 126 && Charset(v) != 49
            && (Charset(v) < 65 || Charset(v) > 90)
  {
    hide CharsetRev;
    Reverse2();
    Reverse3();
    if v == 8 {} else if v == 9 {} else if v == 10 {} else if v == 11 {} else if v == 12 {}
    else if v == 13 {} else if v == 14 {} else {}
  }

  lemma Charset2(v: Byte)
    requires 16 <= v < 24
    ensures CharsetRev(Charset(v)) == v && 33 <= Charset(v) <= 126 && Charset(v) != 49
            && (Charset(v) < 65 || Charset(v) > 90)
  {
    hide CharsetRev;
    Reverse4();
    Reverse5();
    if v == 16 {} else if v == 17 {} else if v == 18 {} else if v == 19 {} else if v == 20 {}
    else if v == 21 {} else if v == 22 {} else {}
  }

  lemma Charset3(v: Byte)
    requires 24 <= v < 32
    ensures CharsetRev(Charset(v)) == v && 33 <= Charset(v) <= 126 && Charset(v) != 49
            && (Charset(v) < 65 || Charset(v) > 90)
  {
    hide CharsetRev;
    Reverse6();
    Reverse7();
    if v == 24 {} else if v == 25 {} else if v == 26 {} else if v == 27 {} else if v == 28 {}
    else if v == 29 {} else if v == 30 {} else {}
  }

  /** The character set is lower case, does not hold the separator, and is undone by its reverse. */
  lemma CharsetOk(v: Byte)
    requires IsSymbol(v)
    ensures CharsetRev(Charset(v)) == v && v != NONE
    ensures Printable(Charset(v)) && !IsUpper(Charset(v)) && Charset(v) != SEPARATOR
  {
    hide Charset, CharsetRev;
    if v < 8 { Charset0(v); } else if v < 16 { Charset1(v); } else if v < 24 { Charset2(v); } else { Charset3(v); }
  }

  function HighBits(c: Byte): Byte { c >> 5 }

  function LowBits(c: Byte): Byte { c & 0x1f }

  lemma BitsAreSymbols(c: Byte)
    ensures IsSymbol(HighBits(c)) && IsSymbol(LowBits(c)) && IsSymbol(0)
  {}

  function Map(f: Byte -> Byte, s: seq<Byte>): (r: seq<Byte>)
    ensures |r| == |s| && forall i :: 0 <= i < |s| ==> r[i] == f(s[i])
  {
    seq(|s|, i requires 0 <= i < |s| => f(s[i]))
  }

  function ExpandHRP(hrp: seq<Byte>): seq<Byte> { Map(HighBits, hrp) + [0] + Map(LowBits, hrp) }

  predicate VerifyChecksum(hrp: seq<Byte>, values: seq<Byte>) { Poly(1, ExpandHRP(hrp) + values) == 1 }

  /** The 5-bit groups of a checksum, highest first. */
  function Group(mod: bv32, i: nat): Byte {
    var g := if i == 0 then mod >> 25 else if i == 1 then mod >> 20 else if i == 2 then mod >> 15
             else if i == 3 then mod >> 10 else if i == 4 then mod >> 5 else mod;
    (g & 31) as Byte
  }

  function Groups(mod: bv32): seq<Byte> {
    [Group(mod, 0), Group(mod, 1), Group(mod, 2), Group(mod, 3), Group(mod, 4), Group(mod, 5)]
  }

  function CreateChecksum(hrp: seq<Byte>, values: seq<Byte>): seq<Byte> {
    Groups(Add(Poly(1, ExpandHRP(hrp) + values + Zeros(6)), 1))
  }

  function Encode(hrp: seq<Byte>, values: seq<Byte>): seq<Byte> {
    hrp + [SEPARATOR] + Map(Charset, values + CreateChecksum(hrp, values))
  }

  // ---------------------------------------------------------------------------------------------
  // The checksum is right
  // ---------------------------------------------------------------------------------------------

  lemma GroupSymbols(mod: bv32, i: nat)
    ensures IsSymbol(Group(mod, i))
  {}

  /** The first i groups, as a number. */
  function Upper(mod: bv32, i: nat): bv32 {
    if i == 0 then 0 else if i == 1 then mod >> 25 else if i == 2 then mod >> 20 else if i == 3 then mod >> 15
    else if i == 4 then mod >> 10 else if i == 5 then mod >> 5 else mod
  }

  lemma UpperNext0(mod: bv32)
    requires Within(mod)
    ensures Upper(mod, 0) < 0x200_0000 && (Upper(mod, 0) << 5) ^ (Group(mod, 0) as bv32) == Upper(mod, 1)
  {}

  lemma UpperNext1(mod: bv32)
    requires Within(mod)
    ensures Upper(mod, 1) < 0x200_0000 && (Upper(mod, 1) << 5) ^ (Group(mod, 1) as bv32) == Upper(mod, 2)
  {}

  lemma UpperNext2(mod: bv32)
    requires Within(mod)
    ensures Upper(mod, 2) < 0x200_0000 && (Upper(mod, 2) << 5) ^ (Group(mod, 2) as bv32) == Upper(mod, 3)
  {}

  lemma UpperNext3(mod: bv32)
    requires Within(mod)
    ensures Upper(mod, 3) < 0x200_0000 && (Upper(mod, 3) << 5) ^ (Group(mod, 3) as bv32) == Upper(mod, 4)
  {}

  lemma UpperNext4(mod: bv32)
    requires Within(mod)
    ensures Upper(mod, 4) < 0x200_0000 && (Upper(mod, 4) << 5) ^ (Group(mod, 4) as bv32) == Upper(mod, 5)
  {}

  lemma UpperNext5(mod: bv32)
    requires Within(mod)
    ensures Upper(mod, 5) < 0x200_0000 && (Upper(mod, 5) << 5) ^ (Group(mod, 5) as bv32) == Upper(mod, 6)
  {}

  lemma UpperNext(mod: bv32, i: nat)
    requires Within(mod) && i < 6
    ensures Upper(mod, i) < 0x200_0000 && (Upper(mod, i) << 5) ^ (Group(mod, i) as bv32) == Upper(mod, i + 1)
  {
    hide Upper, Group, Within;
    if i == 0 { UpperNext0(mod); } else if i == 1 { UpperNext1(mod); } else if i == 2 { UpperNext2(mod); }
    else if i == 3 { UpperNext3(mod); } else if i == 4 { UpperNext4(mod); } else { UpperNext5(mod); }
  }

  lemma GroupStep(mod: bv32, i: nat)
    requires Within(mod) && i < 6
    ensures Step(Upper(mod, i), Group(mod, i)) == Upper(mod, i + 1)
  {
    hide Step, Upper, Group, Within;
    UpperNext(mod, i);
    StepSmall(Upper(mod, i), Group(mod, i));
  }

  lemma {:induction false} GroupsFrom(mod: bv32, i: nat)
    requires Within(mod) && i <= 6
    ensures Poly(Upper(mod, i), Groups(mod)[i..]) == Upper(mod, 6)
    decreases 6 - i
  {
    hide Step, Upper, Group, Within;
    if i < 6 {
      GroupStep(mod, i);
      GroupAt(mod, i);
      assert Groups(mod)[i..][1..] == Groups(mod)[i + 1..];
      GroupsFrom(mod, i + 1);
    }
  }

  lemma GroupAt(mod: bv32, i: nat)
    requires i < 6
    ensures Groups(mod)[i] == Group(mod, i)
  {
    hide Group;
    if i == 0 {} else if i == 1 {} else if i == 2 {} else if i == 3 {} else if i == 4 {} else {}
  }

  /** Six symbols read into an empty state give the number they were taken from. */
  lemma GroupsPack(mod: bv32)
    requires Within(mod)
    ensures Poly(0, Groups(mod)) == mod
  {
    hide Step, Group, Within, Poly;
    GroupsFrom(mod, 0);
    assert Groups(mod)[0..] == Groups(mod);
  }

  lemma ExpandSymbols(hrp: seq<Byte>)
    ensures Symbols(ExpandHRP(hrp))
  {
    hide HighBits, LowBits, IsSymbol;
    forall i | 0 <= i < |ExpandHRP(hrp)| ensures IsSymbol(ExpandHRP(hrp)[i]) {
      if i < |hrp| {
        BitsAreSymbols(hrp[i]);
      } else {
        BitsAreSymbols(if i == |hrp| then 0 else hrp[i - |hrp| - 1]);
      }
    }
  }

  /** The checksum of any values verifies. */
  lemma ChecksumVerifies(hrp: seq<Byte>, values: seq<Byte>)
    requires Symbols(values)
    ensures VerifyChecksum(hrp, values + CreateChecksum(hrp, values)) && Symbols(CreateChecksum(hrp, values))
    ensures |CreateChecksum(hrp, values)| == 6
  {
    hide Step, Within, IsSymbol, Group, Add, Poly, ExpandHRP;
    var body := ExpandHRP(hrp) + values;
    var c := Poly(1, body);
    var m := Poly(1, body + Zeros(6));
    var mod := Add(m, 1);
    var sum := Groups(mod);
    ExpandSymbols(hrp);
    OneWithin();
    assert Symbols(body + Zeros(6));
    PolyBound(1, body + Zeros(6));
    AddWithin(m, 1);
    GroupsPack(mod);
    forall i | 0 <= i < 6 ensures IsSymbol(sum[i]) { GroupSymbols(mod, i); }
    assert ExpandHRP(hrp) + (values + sum) == body + sum;
    PolyConcat(1, body, sum);
    PolyConcat(1, body, Zeros(6));
    PolyLinear(c, 0, Zeros(6), sum);
    AddZeros(sum);
    AddSelf(c);
    AddAssoc(m, m, 1);
    AddSelf(m);
    AddSelf(1);
  }

  lemma OneWithin()
    ensures Within(1) && IsSymbol(0)
  {}

  lemma AddZeros(s: seq<Byte>)
    requires |s| == 6
    ensures XorAll(Zeros(6), s) == s
  {
    forall i | 0 <= i < 6 ensures XorAll(Zeros(6), s)[i] == s[i] { PlusZero(s[i]); }
  }

  lemma PlusZero(v: Byte)
    ensures Plus(0, v) == v
  {}

  // ---------------------------------------------------------------------------------------------
  // Decoding
  // ---------------------------------------------------------------------------------------------

  datatype Decoded = Invalid | Valid(hrp: seq<Byte>, values: seq<Byte>)

  /** The last separator before n, or -1. */
  function RFind(str: seq<Byte>, n: nat): (pos: int)
    requires n <= |str|
    ensures -1 <= pos < n && (pos >= 0 ==> str[pos] == SEPARATOR)
    ensures forall i :: pos < i < n ==> str[i] != SEPARATOR
  {
    if n == 0 then -1 else if str[n - 1] == SEPARATOR then n - 1 else RFind(str, n - 1)
  }

  predicate AllPrintable(str: seq<Byte>) { forall i :: 0 <= i < |str| ==> Printable(str[i]) }

  predicate AnyLower(str: seq<Byte>) { exists i :: 0 <= i < |str| && IsLower(str[i]) }

  predicate AnyUpper(str: seq<Byte>) { exists i :: 0 <= i < |str| && IsUpper(str[i]) }

  predicate AllSymbols(chars: seq<Byte>) { forall i :: 0 <= i < |chars| ==> CharsetRev(chars[i]) != NONE }

  function Decode(str: seq<Byte>): Decoded {
    if !AllPrintable(str) || (AnyLower(str) && AnyUpper(str)) then Invalid
    else
      var pos := RFind(str, |str|);
      if |str| > 90 || pos <= 0 || pos + 7 > |str| || !AllSymbols(str[pos + 1..]) then Invalid
      else
        var values := Map(CharsetRev, str[pos + 1..]);
        var hrp := Map(LowerCase, str[..pos]);
        if !VerifyChecksum(hrp, values) then Invalid else Valid(hrp, values[..|values| - 6])
  }

  /** A human-readable part that Decode gives back unchanged. */
  predicate GoodHRP(hrp: seq<Byte>) { hrp != [] && AllPrintable(hrp) && !AnyUpper(hrp) }

  lemma LowerStays(hrp: seq<Byte>)
    requires !AnyUpper(hrp)
    ensures Map(LowerCase, hrp) == hrp
  {
    forall i | 0 <= i < |hrp| ensures LowerCase(hrp[i]) == hrp[i] {}
  }

  lemma CharsBack(vs: seq<Byte>)
    requires Symbols(vs)
    ensures var cs := Map(Charset, vs);
            && AllPrintable(cs) && !AnyUpper(cs) && AllSymbols(cs) && Map(CharsetRev, cs) == vs
            && forall i :: 0 <= i < |cs| ==> cs[i] != SEPARATOR
  {
    hide Charset, CharsetRev, Printable, IsUpper, IsSymbol;
    var cs := Map(Charset, vs);
    forall i | 0 <= i < |cs|
      ensures Printable(cs[i]) && !IsUpper(cs[i]) && CharsetRev(cs[i]) == vs[i] != NONE && cs[i] != SEPARATOR
    {
      CharsetOk(vs[i]);
    }
  }

  lemma SeparatorOk()
    ensures Printable(SEPARATOR) && !IsUpper(SEPARATOR)
  {}

  lemma RFindAt(hrp: seq<Byte>, cs: seq<Byte>)
    requires forall i :: 0 <= i < |cs| ==> cs[i] != SEPARATOR
    ensures var str := hrp + [SEPARATOR] + cs; RFind(str, |str|) == |hrp|
  {
    var str := hrp + [SEPARATOR] + cs;
    assert str[|hrp|] == SEPARATOR && forall i :: |hrp| < i < |str| ==> str[i] == cs[i - |hrp| - 1];
  }

  lemma PlainString(hrp: seq<Byte>, cs: seq<Byte>)
    requires AllPrintable(hrp) && !AnyUpper(hrp) && AllPrintable(cs) && !AnyUpper(cs)
    ensures AllPrintable(hrp + [SEPARATOR] + cs) && !AnyUpper(hrp + [SEPARATOR] + cs)
  {
    hide Printable, IsUpper;
    SeparatorOk();
    var str := hrp + [SEPARATOR] + cs;
    forall i | 0 <= i < |str| ensures Printable(str[i]) && !IsUpper(str[i]) {
      if i > |hrp| { assert str[i] == cs[i - |hrp| - 1]; } else if i < |hrp| { assert str[i] == hrp[i]; }
    }
  }

  /** Decoding gives back what was encoded. */
  lemma RoundTrip(hrp: seq<Byte>, values: seq<Byte>)
    requires GoodHRP(hrp) && Symbols(values) && |hrp| + 1 + |values| + 6 <= 90
    ensures Decode(Encode(hrp, values)) == Valid(hrp, values)
  {
    hide Charset, CharsetRev, AllPrintable, AnyUpper, AnyLower, AllSymbols, IsSymbol, VerifyChecksum, CreateChecksum,
         LowerCase;
    ChecksumVerifies(hrp, values);
    var all := values + CreateChecksum(hrp, values);
    assert Symbols(all);
    var cs := Map(Charset, all);
    CharsBack(all);
    var str := hrp + [SEPARATOR] + cs;
    PlainString(hrp, cs);
    RFindAt(hrp, cs);
    assert str[|hrp| + 1..] == cs && str[..|hrp|] == hrp;
    LowerStays(hrp);
    assert all[..|all| - 6] == values;
  }

  /** Changing one symbol of a valid string's data, or several within six consecutive ones, makes the checksum fail. */
  lemma ErrorDetected(hrp: seq<Byte>, values: seq<Byte>, changed: seq<Byte>, at: nat, len: nat)
    requires Symbols(values) && Symbols(changed) && |values| == |changed| && values != changed
             && VerifyChecksum(hrp, values)
    requires at + len <= |values| && len <= 6
    requires forall i :: 0 <= i < |values| && (i < at || i >= at + len) ==> values[i] == changed[i]
    ensures !VerifyChecksum(hrp, changed)
  {
    hide Poly, IsSymbol, ExpandHRP;
    ExpandSymbols(hrp);
    var e := ExpandHRP(hrp);
    var i :| 0 <= i < |values| && values[i] != changed[i];
    assert (e + values)[|e| + i] != (e + changed)[|e| + i];
    BurstDetected(e + values, e + changed, |e| + at, len);
  }

  /** Changing up to three symbols of a valid string's data within a window of 1023 makes the checksum fail. */
  lemma ThreeErrorsDetected(hrp: seq<Byte>, values: seq<Byte>, changed: seq<Byte>, p: nat, q: nat, r: nat)
    requires Symbols(values) && Symbols(changed) && values != changed && VerifyChecksum(hrp, values)
    requires p <= q <= r < |values| && r - p < 1023 && AgreeExcept(values, changed, p, q, r)
    ensures !VerifyChecksum(hrp, changed)
  {
    hide Poly, IsSymbol, ExpandHRP;
    ExpandSymbols(hrp);
    var e := ExpandHRP(hrp);
    var i :| 0 <= i < |values| && values[i] != changed[i];
    assert (e + values)[|e| + i] != (e + changed)[|e| + i];
    ThreeDetected(e + values, e + changed, |e| + p, |e| + q, |e| + r);
  }

  // ---------------------------------------------------------------------------------------------
  // What is decoded was encoded
  // ---------------------------------------------------------------------------------------------

  lemma Chars0(c: Byte)
    requires !IsUpper(c) && 0 <= CharsetRev(c) < 8
    ensures c == 113 || c == 112 || c == 122 || c == 114 || c == 121 || c == 57 || c == 120 || c == 56
  {}

  lemma Back0(c: Byte)
    requires !IsUpper(c) && 0 <= CharsetRev(c) < 8
    ensures Charset(CharsetRev(c)) == c
  {
    hide CharsetRev;
    Chars0(c);
    Reverse0();
    Reverse1();
    if c == 113 {} else if c == 112 {} else if c == 122 {} else if c == 114 {}
    else if c == 121 {} else if c == 57 {} else if c == 120 {} else {}
  }

  lemma Chars1(c: Byte)
    requires !IsUpper(c) && 8 <= CharsetRev(c) < 16
    ensures c == 103 || c == 102 || c == 50 || c == 116 || c == 118 || c == 100 || c == 119 || c == 48
  {}

  lemma Back1(c: Byte)
    requires !IsUpper(c) && 8 <= CharsetRev(c) < 16
    ensures Charset(CharsetRev(c)) == c
  {
    hide CharsetRev;
    Chars1(c);
    Reverse2();
    Reverse3();
    if c == 103 {} else if c == 102 {} else if c == 50 {} else if c == 116 {}
    else if c == 118 {} else if c == 100 {} else if c == 119 {} else {}
  }

  lemma Chars2(c: Byte)
    requires !IsUpper(c) && 16 <= CharsetRev(c) < 24
    ensures c == 115 || c == 51 || c == 106 || c == 110 || c == 53 || c == 52 || c == 107 || c == 104
  {}

  lemma Back2(c: Byte)
    requires !IsUpper(c) && 16 <= CharsetRev(c) < 24
    ensures Charset(CharsetRev(c)) == c
  {
    hide CharsetRev;
    Chars2(c);
    Reverse4();
    Reverse5();
    if c == 115 {} else if c == 51 {} else if c == 106 {} else if c == 110 {}
    else if c == 53 {} else if c == 52 {} else if c == 107 {} else {}
  }

  lemma Chars3(c: Byte)
    requires !IsUpper(c) && 24 <= CharsetRev(c) < 32
    ensures c == 99 || c == 101 || c == 54 || c == 109 || c == 117 || c == 97 || c == 55 || c == 108
  {}

  lemma Back3(c: Byte)
    requires !IsUpper(c) && 24 <= CharsetRev(c) < 32
    ensures Charset(CharsetRev(c)) == c
  {
    hide CharsetRev;
    Chars3(c);
    Reverse6();
    Reverse7();
    if c == 99 {} else if c == 101 {} else if c == 54 {} else if c == 109 {}
    else if c == 117 {} else if c == 97 {} else if c == 55 {} else {}
  }

  lemma FirstLetters(c: Byte)
    requires 65 <= c < 78
    ensures CharsetRev(c + 32) == CharsetRev(c)
  {}

  lemma LastLetters(c: Byte)
    requires 78 <= c <= 90
    ensures CharsetRev(c + 32) == CharsetRev(c)
  {}

  lemma SymbolOfCase(c: Byte)
    ensures CharsetRev(LowerCase(c)) == CharsetRev(c)
  {
    hide CharsetRev;
    if 65 <= c < 78 { FirstLetters(c); } else if 78 <= c <= 90 { LastLetters(c); }
  }

  lemma SymbolRange(c: Byte)
    ensures CharsetRev(c) == NONE || CharsetRev(c) < 32
  {}

  /** A character that has a symbol is that symbol's character, in either case. */
  lemma CharsetRevOk(c: Byte)
    requires CharsetRev(c) != NONE
    ensures IsSymbol(CharsetRev(c)) && Charset(CharsetRev(c)) == LowerCase(c)
  {
    hide Charset, CharsetRev, IsUpper, LowerCase;
    SymbolOfCase(c);
    SymbolRange(c);
    CaseOfChar(c);
    var v, d := CharsetRev(c), LowerCase(c);
    if v < 8 { Back0(d); } else if v < 16 { Back1(d); } else if v < 24 { Back2(d); } else { Back3(d); }
  }

  lemma CaseOfChar(c: Byte)
    ensures LowerCase(LowerCase(c)) == LowerCase(c) && !IsUpper(LowerCase(c))
    ensures Printable(LowerCase(c)) <==> Printable(c)
    ensures LowerCase(c) == SEPARATOR <==> c == SEPARATOR
  {}

  lemma LowerString(str: seq<Byte>)
    ensures (AllPrintable(Map(LowerCase, str)) <==> AllPrintable(str)) && !AnyUpper(Map(LowerCase, str))
  {
    hide Printable, IsUpper, LowerCase;
    var low := Map(LowerCase, str);
    forall i | 0 <= i < |str|
      ensures (Printable(low[i]) <==> Printable(str[i])) && !IsUpper(low[i])
    {
      CaseOfChar(str[i]);
    }
  }

  lemma {:induction false} LowerRFind(str: seq<Byte>, n: nat)
    requires n <= |str|
    ensures RFind(Map(LowerCase, str), n) == RFind(str, n)
  {
    hide LowerCase;
    if n > 0 {
      CaseOfChar(str[n - 1]);
      LowerRFind(str, n - 1);
    }
  }

  lemma LowerTail(str: seq<Byte>, pos: nat)
    requires pos < |str|
    ensures var low := Map(LowerCase, str);
            && (AllSymbols(low[pos + 1..]) <==> AllSymbols(str[pos + 1..]))
            && Map(CharsetRev, low[pos + 1..]) == Map(CharsetRev, str[pos + 1..])
            && Map(LowerCase, low[..pos]) == Map(LowerCase, str[..pos])
  {
    hide LowerCase, CharsetRev;
    var low := Map(LowerCase, str);
    var a, b := low[pos + 1..], str[pos + 1..];
    forall i | 0 <= i < |b| ensures CharsetRev(a[i]) == CharsetRev(b[i]) { SymbolOfCase(b[i]); }
    forall i | 0 <= i < pos ensures LowerCase(low[..pos][i]) == LowerCase(str[..pos][i]) { CaseOfChar(str[i]); }
  }

  /** The case of a string that is not of mixed case does not matter. */
  lemma CaseInsensitive(str: seq<Byte>)
    requires !(AnyLower(str) && AnyUpper(str))
    ensures Decode(str) == Decode(Map(LowerCase, str))
  {
    hide AllPrintable, AnyUpper, AnyLower, AllSymbols, VerifyChecksum, LowerCase, CharsetRev;
    LowerString(str);
    LowerRFind(str, |str|);
    var pos := RFind(str, |str|);
    if pos > 0 { LowerTail(str, pos); }
  }

  lemma SymbolsOfTail(chars: seq<Byte>)
    requires AllSymbols(chars)
    ensures Symbols(Map(CharsetRev, chars)) && Map(Charset, Map(CharsetRev, chars)) == Map(LowerCase, chars)
  {
    hide Charset, CharsetRev, LowerCase, IsSymbol;
    var vs := Map(CharsetRev, chars);
    forall i | 0 <= i < |chars| ensures IsSymbol(vs[i]) && Charset(vs[i]) == LowerCase(chars[i]) {
      CharsetRevOk(chars[i]);
    }
  }

  /** The six symbols that verify are the checksum. */
  lemma ChecksumUnique(hrp: seq<Byte>, all: seq<Byte>)
    requires Symbols(all) && |all| >= 6 && VerifyChecksum(hrp, all)
    ensures all == all[..|all| - 6] + CreateChecksum(hrp, all[..|all| - 6])
  {
    hide IsSymbol, VerifyChecksum, CreateChecksum;
    var n := |all| - 6;
    ChecksumVerifies(hrp, all[..n]);
    var other := all[..n] + CreateChecksum(hrp, all[..n]);
    if all != other { ErrorDetected(hrp, all, other, n, 6); }
  }

  /** The data of a string with its separator at pos is symbols that verify. */
  predicate Checked(str: seq<Byte>, pos: nat)
    requires pos < |str|
  {
    && AllSymbols(str[pos + 1..])
    && VerifyChecksum(Map(LowerCase, str[..pos]), Map(CharsetRev, str[pos + 1..]))
  }

  /** The parts of a string that Decode accepts. */
  lemma Accepted(str: seq<Byte>)
    requires Decode(str).Valid?
    ensures var pos := RFind(str, |str|);
            && 0 < pos && pos + 7 <= |str| <= 90 && AllPrintable(str) && Checked(str, pos)
            && Decode(str) == Valid(Map(LowerCase, str[..pos]), Map(CharsetRev, str[pos + 1..])[..|str| - pos - 7])
  {
    hide AllPrintable, AnyUpper, AnyLower, AllSymbols, VerifyChecksum, LowerCase, CharsetRev;
  }

  /** What Decode accepts is, in lower case, what Encode makes of the result. */
  lemma DecodedWasEncoded(str: seq<Byte>)
    requires Decode(str).Valid?
    ensures var d := Decode(str);
            GoodHRP(d.hrp) && Symbols(d.values) && Encode(d.hrp, d.values) == Map(LowerCase, str) && |str| <= 90
  {
    hide AllPrintable, AnyUpper, AllSymbols, VerifyChecksum, CreateChecksum, LowerCase, CharsetRev, Charset, IsSymbol,
         Decode;
    Accepted(str);
    var pos := RFind(str, |str|);
    var head, tail := str[..pos], str[pos + 1..];
    var all := Map(CharsetRev, tail);
    SymbolsOfTail(tail);
    ChecksumUnique(Map(LowerCase, head), all);
    PrintablePart(str, pos);
    LowerString(head);
    assert str == head + [SEPARATOR] + tail;
    LowerSeparator();
    assert Map(LowerCase, str) == Map(LowerCase, head) + [SEPARATOR] + Map(LowerCase, tail);
  }

  lemma LowerSeparator()
    ensures LowerCase(SEPARATOR) == SEPARATOR
  {}

  lemma PrintablePart(str: seq<Byte>, pos: nat)
    requires AllPrintable(str) && pos <= |str|
    ensures AllPrintable(str[..pos])
  {
    hide Printable;
  }

  /** A string decodes to a part and values exactly if it is not of mixed case and is, in lower case, their encoding,
      the part being one that decoding leaves alone and the whole at most 90 characters. */
  lemma DecodeIff(str: seq<Byte>, hrp: seq<Byte>, values: seq<Byte>)
    requires Symbols(values)
    ensures Decode(str) == Valid(hrp, values)
            <==> (&& !(AnyLower(str) && AnyUpper(str)) && |str| <= 90 && GoodHRP(hrp)
                  && Map(LowerCase, str) == Encode(hrp, values))
  {
    hide AllPrintable, AnyUpper, AnyLower, AllSymbols, VerifyChecksum, CreateChecksum, LowerCase, CharsetRev, Charset,
         IsSymbol, GoodHRP;
    if Decode(str) == Valid(hrp, values) { DecodedWasEncoded(str); }
    if !(AnyLower(str) && AnyUpper(str)) && |str| <= 90 && GoodHRP(hrp) && Map(LowerCase, str) == Encode(hrp, values) {
      CaseInsensitive(str);
      ChecksumVerifies(hrp, values);
      RoundTrip(hrp, values);
    }
  }

  /** The round trip holds exactly for a printable, non-empty part without upper case, up to 90 characters. */
  lemma RoundTripIff(hrp: seq<Byte>, values: seq<Byte>)
    requires Symbols(values)
    ensures Decode(Encode(hrp, values)) == Valid(hrp, values)
            <==> GoodHRP(hrp) && |hrp| + 1 + |values| + 6 <= 90
  {
    hide Decode, IsSymbol, CreateChecksum, GoodHRP;
    ChecksumVerifies(hrp, values);
    if Decode(Encode(hrp, values)) == Valid(hrp, values) { DecodedWasEncoded(Encode(hrp, values)); }
    if GoodHRP(hrp) && |hrp| + 1 + |values| + 6 <= 90 { RoundTrip(hrp, values); }
  }

  /** The same text but for the case of its letters. */
  predicate SameText(a: seq<Byte>, b: seq<Byte>) { Map(LowerCase, a) == Map(LowerCase, b) }

  predicate SameStart(a: seq<Byte>, b: seq<Byte>, n: nat) { n <= |a| && n <= |b| && a[..n] == b[..n] }

  /** Up to three characters of the data of a valid string that become other characters, none of them a separator, are
      detected; a mere change of case is no change. */
  lemma ThreeCharactersDetected(str: seq<Byte>, changed: seq<Byte>, p: nat, q: nat, r: nat)
    requires Decode(str).Valid? && RFind(str, |str|) < p <= q <= r < |str| && AgreeExcept(str, changed, p, q, r)
    requires changed[p] != SEPARATOR && changed[q] != SEPARATOR && changed[r] != SEPARATOR
    requires !SameText(str, changed)
    ensures Decode(changed) == Invalid
  {
    hide AllPrintable, Checked, LowerCase, CharsetRev, Decode, AgreeExcept, SameText, SameStart;
    var pos := RFind(str, |str|);
    Accepted(str);
    SameSeparator(str, changed, p, q, r);
    if Decode(changed).Valid? {
      Accepted(changed);
      TailDetected(str, changed, pos, p, q, r);
    }
  }

  lemma SameSeparator(str: seq<Byte>, changed: seq<Byte>, p: nat, q: nat, r: nat)
    requires 0 <= RFind(str, |str|) < p <= q <= r < |str| && AgreeExcept(str, changed, p, q, r)
    requires changed[p] != SEPARATOR && changed[q] != SEPARATOR && changed[r] != SEPARATOR
    ensures RFind(changed, |changed|) == RFind(str, |str|) && |changed| == |str|
    ensures SameStart(str, changed, RFind(str, |str|) + 1)
  {
    var pos := RFind(str, |str|);
    assert changed[pos] == SEPARATOR;
    forall i | pos < i < |str| ensures changed[i] != SEPARATOR {}
  }

  lemma TailDetected(str: seq<Byte>, changed: seq<Byte>, pos: nat, p: nat, q: nat, r: nat)
    requires pos < p <= q <= r < |str| && r - p < 1023 && AgreeExcept(str, changed, p, q, r)
    requires SameStart(str, changed, pos + 1) && !SameText(str, changed) && Checked(str, pos)
    ensures !Checked(changed, pos)
  {
    hide AllSymbols, VerifyChecksum, LowerCase, CharsetRev, IsSymbol, Symbols, AgreeExcept, SameText,
         SameStart;
    AgreeLength(str, changed, p, q, r);
    var v, w := Map(CharsetRev, str[pos + 1..]), Map(CharsetRev, changed[pos + 1..]);
    if AllSymbols(changed[pos + 1..]) {
      TailsDiffer(str, changed, pos);
      TailsAgree(str, changed, pos, p, q, r);
      ThreeErrorsDetected(Map(LowerCase, str[..pos]), v, w, p - pos - 1, q - pos - 1, r - pos - 1);
    }
  }

  lemma AgreeLength(a: seq<Byte>, b: seq<Byte>, p: nat, q: nat, r: nat)
    requires AgreeExcept(a, b, p, q, r)
    ensures |a| == |b|
  {}

  lemma TailsAgree(a: seq<Byte>, b: seq<Byte>, pos: nat, p: nat, q: nat, r: nat)
    requires pos < p <= q <= r < |a| && AgreeExcept(a, b, p, q, r)
    ensures AgreeExcept(Map(CharsetRev, a[pos + 1..]), Map(CharsetRev, b[pos + 1..]), p - pos - 1, q - pos - 1,
                        r - pos - 1)
    ensures a[..pos] == b[..pos]
  {
    hide CharsetRev;
  }

  lemma TailsDiffer(a: seq<Byte>, b: seq<Byte>, pos: nat)
    requires |a| == |b| && pos < |a| && SameStart(a, b, pos + 1) && !SameText(a, b)
    requires AllSymbols(a[pos + 1..]) && AllSymbols(b[pos + 1..])
    ensures var v, w := Map(CharsetRev, a[pos + 1..]), Map(CharsetRev, b[pos + 1..]);
            Symbols(v) && Symbols(w) && v != w
  {
    hide AllSymbols, LowerCase, CharsetRev, Charset, IsSymbol;
    SymbolsOfTail(a[pos + 1..]);
    SymbolsOfTail(b[pos + 1..]);
    if Map(CharsetRev, a[pos + 1..]) == Map(CharsetRev, b[pos + 1..]) { SameTail(a, b, pos); }
  }

  lemma SameTail(a: seq<Byte>, b: seq<Byte>, pos: nat)
    requires |a| == |b| && pos < |a| && SameStart(a, b, pos + 1)
    requires Map(LowerCase, a[pos + 1..]) == Map(LowerCase, b[pos + 1..])
    ensures SameText(a, b)
  {
    hide LowerCase;
    forall i | 0 <= i < |a| ensures LowerCase(a[i]) == LowerCase(b[i]) {
      if i <= pos {
        assert a[..pos + 1][i] == b[..pos + 1][i];
      } else {
        assert Map(LowerCase, a[pos + 1..])[i - pos - 1] == Map(LowerCase, b[pos + 1..])[i - pos - 1];
      }
    }
  }

  // ---------------------------------------------------------------------------------------------
  // The code
  // ---------------------------------------------------------------------------------------------

  method PolyMod(v: seq<Byte>) returns (c: bv32)
    ensures c == Poly(1, v)
  {
    hide Step;
    c := 1;
    assert v[0..] == v;
    for i := 0 to |v|
      invariant Poly(c, v[i..]) == Poly(1, v)
    {
      assert v[i..][1..] == v[i + 1..];
      c := Step(c, v[i]);
    }
  }

  method ExpandInto(hrp: seq<Byte>) returns (ret: seq<Byte>)
    ensures ret == ExpandHRP(hrp)
  {
    hide HighBits, LowBits;
    ret := Zeros(|hrp| * 2 + 1);
    for i := 0 to |hrp|
      invariant |ret| == |hrp| * 2 + 1 && ret[|hrp|] == 0
      invariant forall k :: 0 <= k < i ==> ret[k] == HighBits(hrp[k]) && ret[k + |hrp| + 1] == LowBits(hrp[k])
    {
      ret := ret[i := HighBits(hrp[i])];
      ret := ret[i + |hrp| + 1 := LowBits(hrp[i])];
    }
    ret := ret[|hrp| := 0];
    forall k | 0 <= k < |ret| ensures ret[k] == ExpandHRP(hrp)[k] {
      if k > |hrp| { assert ret[(k - |hrp| - 1) + |hrp| + 1] == LowBits(hrp[k - |hrp| - 1]); }
    }
  }

  method MakeChecksum(hrp: seq<Byte>, values: seq<Byte>) returns (ret: seq<Byte>)
    ensures ret == CreateChecksum(hrp, values)
  {
    hide Group, Poly, ExpandHRP, Add;
    var enc := ExpandInto(hrp);
    enc := enc + values + Zeros(6);
    var m := PolyMod(enc);
    var mod := Add(m, 1);
    ret := Zeros(6);
    for i := 0 to 6
      invariant |ret| == 6 && forall k :: 0 <= k < i ==> ret[k] == Group(mod, k)
    {
      ret := ret[i := Group(mod, i)];
    }
    forall k | 0 <= k < 6 ensures ret[k] == Groups(mod)[k] { GroupAt(mod, k); }
  }

  method EncodeString(hrp: seq<Byte>, values: seq<Byte>) returns (ret: seq<Byte>)
    requires Symbols(values)
    ensures ret == Encode(hrp, values)
  {
    hide Charset, CreateChecksum;
    var checksum := MakeChecksum(hrp, values);
    var combined := values + checksum;
    ret := hrp + [SEPARATOR];
    ghost var start := ret;
    for i := 0 to |combined|
      invariant ret == start + Map(Charset, combined)[..i]
    {
      ret := ret + [Charset(combined[i])];
    }
  }

  /** Printable, and not of mixed case. */
  method CheckCase(str: seq<Byte>) returns (ok: bool)
    ensures ok == (AllPrintable(str) && !(AnyLower(str) && AnyUpper(str)))
  {
    hide Printable, IsUpper, IsLower;
    var lower, upper := false, false;
    for i := 0 to |str|
      invariant lower == AnyLower(str[..i]) && upper == AnyUpper(str[..i])
      invariant forall k :: 0 <= k < i ==> Printable(str[k])
    {
      CharKinds(str[i]);
      OneMoreChar(str, i);
      if IsLower(str[i]) {
        lower := true;
      } else if IsUpper(str[i]) {
        upper := true;
      } else if !Printable(str[i]) {
        return false;
      }
    }
    assert str[..|str|] == str;
    ok := !(lower && upper);
  }

  method ReadValues(str: seq<Byte>, pos: nat) returns (ok: bool, values: seq<Byte>)
    requires pos < |str|
    ensures ok == AllSymbols(str[pos + 1..])
    ensures ok ==> values == Map(CharsetRev, str[pos + 1..])
  {
    hide CharsetRev;
    ghost var chars := str[pos + 1..];
    values := [];
    for i := 0 to |str| - 1 - pos
      invariant values == Map(CharsetRev, chars)[..i] && forall k :: 0 <= k < i ==> CharsetRev(chars[k]) != NONE
    {
      var rev := CharsetRev(str[i + pos + 1]);
      assert chars[i] == str[i + pos + 1];
      if rev == NONE { return false, []; }
      values := values + [rev];
    }
    ok := true;
  }

  method DecodeString(str: seq<Byte>) returns (r: Decoded)
    ensures r == Decode(str)
  {
    hide AllPrintable, AnyLower, AnyUpper, AllSymbols, CharsetRev, VerifyChecksum, LowerCase;
    var ok := CheckCase(str);
    if !ok { return Invalid; }
    var pos := RFind(str, |str|);
    if |str| > 90 || pos <= 0 || pos + 7 > |str| { return Invalid; }
    var values;
    ok, values := ReadValues(str, pos);
    if !ok { return Invalid; }
    var hrp: seq<Byte> := [];
    for i := 0 to pos
      invariant hrp == Map(LowerCase, str[..pos])[..i]
    {
      hrp := hrp + [LowerCase(str[i])];
    }
    assert hrp == Map(LowerCase, str[..pos]);
    ok := Verified(hrp, values);
    if !ok { return Invalid; }
    r := Valid(hrp, values[..|values| - 6]);
  }

  method Verified(hrp: seq<Byte>, values: seq<Byte>) returns (ok: bool)
    ensures ok == VerifyChecksum(hrp, values)
  {
    hide Poly, ExpandHRP;
    var e := ExpandInto(hrp);
    var c := PolyMod(e + values);
    ok := c == 1;
  }

  lemma CharKinds(c: Byte)
    ensures IsLower(c) ==> Printable(c) && !IsUpper(c)
    ensures IsUpper(c) ==> Printable(c)
  {}

  lemma OneMoreChar(str: seq<Byte>, i: nat)
    requires i < |str|
    ensures AnyLower(str[..i + 1]) == (AnyLower(str[..i]) || IsLower(str[i]))
    ensures AnyUpper(str[..i + 1]) == (AnyUpper(str[..i]) || IsUpper(str[i]))
  {
    hide IsLower, IsUpper;
    var a, b := str[..i], str[..i + 1];
    assert forall k :: 0 <= k < i ==> a[k] == b[k];
    assert b[i] == str[i];
  }
}
