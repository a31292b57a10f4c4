/** Base58 strings (base58.cpp): numbers converted in place between base 256 and base 58, with leading zeros kept as
    leading '1's. */
module Base58 {
  import opened Digits
  import opened Options

  type Byte = x: int | 0 <= x < 256

  // ---------------------------------------------------------------------------------------------
  // Numbers written with the highest digit first
  // ---------------------------------------------------------------------------------------------

  function Big(b: nat, s: seq<nat>): nat {
    if s == [] then 0 else Big(b, s[..|s| - 1]) * b + s[|s| - 1]
  }

  /** The digits of a number, without leading zeros. */
  function BigDigits(b: nat, n: nat): (r: seq<nat>)
    requires b >= 2
    decreases n
  {
    if n == 0 then [] else BigDigits(b, n / b) + [n % b]
  }

  predicate Canonical(b: nat, s: seq<nat>) { Proper(b, s) && (s != [] ==> s[0] != 0) }

  lemma {:induction false} DigitsOk(b: nat, n: nat)
    requires b >= 2
    ensures Canonical(b, BigDigits(b, n)) && Big(b, BigDigits(b, n)) == n
    decreases n
  {
    if n > 0 {
      DigitsOk(b, n / b);
      var s := BigDigits(b, n / b);
      assert BigDigits(b, n)[..|s|] == s;
      DivModSplit(n, b);
      if n / b == 0 { assert s == []; } else { assert s != []; }
    }
  }

  lemma {:induction false} BigPositive(b: nat, s: seq<nat>)
    requires b >= 2 && s != [] && s[0] != 0
    ensures Big(b, s) > 0
  {
    if |s| > 1 {
      BigPositive(b, s[..|s| - 1]);
      MulMono(1, Big(b, s[..|s| - 1]), b);
    } else {
      assert s[..0] == [];
    }
  }

  /** Digits without leading zeros are the digits of their number. */
  lemma {:induction false} DigitsBack(b: nat, s: seq<nat>)
    requires b >= 2 && Canonical(b, s)
    ensures BigDigits(b, Big(b, s)) == s
  {
    if s != [] {
      var front, last := s[..|s| - 1], s[|s| - 1];
      DigitsBack(b, front);
      BigPositive(b, s);
      DivModUnique(Big(b, s), b, Big(b, front), last);
      assert s == front + [last];
    }
  }

  lemma {:induction false} BigConcat(b: nat, s: seq<nat>, t: seq<nat>)
    ensures Big(b, s + t) == Big(b, s) * Pow(b, |t|) + Big(b, t)
    decreases |t|
  {
    if t == [] {
      assert s + t == s;
    } else {
      var n := |t| - 1;
      BigConcat(b, s, t[..n]);
      assert (s + t)[..|s| + n] == s + t[..n];
      ConcatStep(Big(b, s), Pow(b, n), Big(b, t[..n]), b, t[n]);
    }
  }

  lemma ConcatStep(v: int, p: int, w: int, b: int, d: int)
    ensures (v * p + w) * b + d == v * (b * p) + (w * b + d)
  {
    MulAdd(b, v * p, w);
    MulAssoc(v, b, p);
  }

  lemma BigCons(b: nat, d: nat, s: seq<nat>)
    ensures Big(b, [d] + s) == d * Pow(b, |s|) + Big(b, s)
  {
    hide Pow;
    BigConcat(b, [d], s);
    assert [d][..0] == [];
  }

  lemma {:induction false} BigBound(b: nat, s: seq<nat>)
    requires b > 0 && Proper(b, s)
    ensures Big(b, s) < Pow(b, |s|)
  {
    if s != [] {
      BigBound(b, s[..|s| - 1]);
      BoundStep(s[|s| - 1], Big(b, s[..|s| - 1]), Pow(b, |s| - 1), b);
    }
  }

  lemma BoundStep(d: int, v: int, p: int, b: int)
    requires 0 <= d < b && v < p
    ensures v * b + d < b * p
  {
    MulMono(v + 1, p, b);
    MulAdd(b, v, 1);
  }

  lemma {:induction false} BigZeros(b: nat, s: seq<nat>)
    requires forall i :: 0 <= i < |s| ==> s[i] == 0
    ensures Big(b, s) == 0
  {
    if s != [] { BigZeros(b, s[..|s| - 1]); }
  }

  /** Leading zeros do not count. */
  lemma BigStripped(b: nat, s: seq<nat>, k: nat)
    requires k <= |s| && forall i :: 0 <= i < k ==> s[i] == 0
    ensures Big(b, s) == Big(b, s[k..])
  {
    hide Pow;
    assert s == s[..k] + s[k..];
    BigConcat(b, s[..k], s[k..]);
    BigZeros(b, s[..k]);
  }

  // ---------------------------------------------------------------------------------------------
  // The buffers are large enough
  // ---------------------------------------------------------------------------------------------

  lemma ProductLess(a: int, b: int, x: int, y: int)
    requires 0 <= a < b && 0 <= x < y
    ensures a * x < b * y
  {
    MulMono(a, b, x);
    MulMono(x + 1, y, b);
    MulAdd(b, x, 1);
  }

  lemma {:induction false} PowLess(a: nat, b: nat, k: nat)
    requires a < b && k > 0
    ensures Pow(a, k) < Pow(b, k)
  {
    hide Pow;
    PowStep(a, k - 1);
    PowStep(b, k - 1);
    if k == 1 {
      PowNone(a);
      PowNone(b);
    } else {
      PowLess(a, b, k - 1);
      ProductLess(a, b, Pow(a, k - 1), Pow(b, k - 1));
    }
  }

  lemma PowNone(a: nat)
    ensures Pow(a, 0) == 1
  {}

  lemma {:induction false} PowBelow(a: nat, b: nat, k: nat)
    requires a <= b
    ensures Pow(a, k) <= Pow(b, k)
  {
    if a < b && k > 0 { PowLess(a, b, k); }
  }

  lemma PowSwap(a: nat, p: nat, m: nat)
    ensures Pow(Pow(a, p), m) == Pow(Pow(a, m), p)
  {
    hide Pow;
    PowPow(a, p, m);
    PowPow(a, m, p);
    MulAssoc(p, m, 1);
  }

  lemma ScaledLeft(a: nat, p: nat, b: nat, q: nat, m: nat)
    requires Pow(a, p) <= Pow(b, q)
    ensures Pow(Pow(a, m), p) <= Pow(b, q * m)
  {
    hide Pow;
    PowSwap(a, p, m);
    PowBelow(Pow(a, p), Pow(b, q), m);
    PowPow(b, q, m);
  }

  /** If a^p <= b^q and q * m <= s * p then a^m <= b^s. */
  lemma Scaled(a: nat, p: nat, b: nat, q: nat, m: nat, s: nat)
    requires b > 0 && p > 0 && Pow(a, p) <= Pow(b, q) && q * m <= s * p
    ensures Pow(a, m) <= Pow(b, s)
  {
    hide Pow;
    ScaledLeft(a, p, b, q, m);
    PowMono(b, q * m, s * p);
    PowPow(b, s, p);
    NotAbove(Pow(a, m), Pow(b, s), p);
  }

  lemma NotAbove(x: nat, y: nat, p: nat)
    requires p > 0 && Pow(x, p) <= Pow(y, p)
    ensures x <= y
  {
    if x > y { PowLess(y, x, p); }
  }

  /** 138 base-58 digits for every 100 bytes, plus one, hold every number of that many bytes. */
  lemma EncodeFits(m: nat)
    ensures Pow(256, m) <= Pow(58, m * 138 / 100 + 1)
  {
    hide Pow;
    Constants();
    Scaled(256, 8, 58, 11, m, m * 138 / 100 + 1);
  }

  /** 733 bytes for every 1000 base-58 digits, plus one, hold every number of that many digits. */
  lemma DecodeFits(n: nat)
    ensures Pow(58, n) <= Pow(256, n * 733 / 1000 + 1)
  {
    hide Pow;
    var s := n * 733 / 1000 + 1;
    Constants();
    Scaled(58, 50, 2, 293, n, 8 * s);
    Pow2Const();
    PowPow(2, 8, s);
  }

  lemma Constants()
    ensures Pow(256, 8) <= Pow(58, 11)
    ensures Pow(58, 50) <= Pow(2, 293)
  {
    hide Pow;
    SmallPowers();
    PowAdd(256, 4, 4);
    PowAdd(58, 5, 5);
    PowAdd(58, 10, 1);
    PowAdd(58, 10, 10);
    PowAdd(58, 20, 20);
    PowAdd(58, 40, 10);
    PowAdd(2, 43, 43);
    PowAdd(2, 86, 86);
    PowAdd(2, 172, 43);
    PowAdd(2, 215, 78);
    PowAdd(2, 39, 39);
    PowAdd(2, 39, 4);
    TightPower(Pow(58, 10), Pow(2, 43));
  }

  lemma SmallPowers()
    ensures Pow(256, 4) == 0x1_0000_0000 && Pow(58, 5) == 656356768 && Pow(58, 1) == 58
    ensures Pow(2, 39) == 549755813888 && Pow(2, 4) == 16
  {
    Pow2Const();
    PowAdd(2, 32, 7);
    assert Pow(2, 7) == 128;
    assert Pow(256, 2) == 65536;
    PowAdd(256, 2, 2);
    assert Pow(58, 2) == 3364;
    PowAdd(58, 2, 2);
    PowAdd(58, 4, 1);
  }

  /** 58^10 is below 48977 * 2^43, so 58^50 is below 48977^5 * 2^215. */
  lemma TightPower(x: int, p: int)
    requires x == 656356768 * 656356768 && p == 549755813888 * 16
    ensures x <= 48977 * p
    ensures x * x * (x * x) * x <= 48977 * 48977 * 48977 * 48977 * 48977 * (p * p * (p * p) * p)
    ensures 48977 * 48977 * 48977 * 48977 * 48977 <= 549755813888 * 549755813888
  {}

  // ---------------------------------------------------------------------------------------------
  // The alphabet
  // ---------------------------------------------------------------------------------------------

  const ONE: Byte := 49

  /** The character of a digit: the digits without 0 and the letters without I, O and l. */
  function Char58(d: nat): Byte
    requires d < 58
  {
    if d < 9 then d + 49 else if d < 17 then d + 56 else if d < 22 then d + 57 else if d < 33 then d + 58
    else if d < 44 then d + 64 else d + 65
  }

  /** The digit of a character, or -1. */
  function Digit58(c: Byte): int {
    if 49 <= c <= 57 then c - 49 else if 65 <= c <= 72 then c - 56 else if 74 <= c <= 78 then c - 57
    else if 80 <= c <= 90 then c - 58 else if 97 <= c <= 107 then c - 64 else if 109 <= c <= 122 then c - 65
    else -1
  }

  predicate IsSpace(c: Byte) { c == 32 || 9 <= c <= 13 }

  lemma AlphabetOk(d: nat)
    requires d < 58
    ensures Digit58(Char58(d)) == d && !IsSpace(Char58(d)) && (Char58(d) == ONE <==> d == 0)
  {}

  lemma AlphabetBack(c: Byte)
    requires Digit58(c) != -1
    ensures 0 <= Digit58(c) < 58 && Char58(Digit58(c)) == c && !IsSpace(c)
  {}

  // ---------------------------------------------------------------------------------------------
  // Encoding and decoding
  // ---------------------------------------------------------------------------------------------

  /** How often x stands at the start. */
  function Leading(s: seq<nat>, x: nat): (n: nat)
    ensures n <= |s| && (forall i :: 0 <= i < n ==> s[i] == x) && (n < |s| ==> s[n] != x)
  {
    if s == [] || s[0] != x then 0 else 1 + Leading(s[1..], x)
  }

  function Copies(n: nat, x: Byte): (r: seq<Byte>)
    ensures |r| == n && forall i :: 0 <= i < n ==> r[i] == x
  {
    if n == 0 then [] else Copies(n - 1, x) + [x]
  }

  function Chars(ds: seq<nat>): (r: seq<Byte>)
    requires Proper(58, ds)
    ensures |r| == |ds| && forall i :: 0 <= i < |ds| ==> r[i] == Char58(ds[i])
  {
    if ds == [] then [] else Chars(ds[..|ds| - 1]) + [Char58(ds[|ds| - 1])]
  }

  function Encode(v: seq<nat>): seq<Byte> {
    var z := Leading(v, 0);
    DigitsOk(58, Big(256, v[z..]));
    Copies(z, ONE) + Chars(BigDigits(58, Big(256, v[z..])))
  }

  /** The digits of characters of the alphabet. */
  function DigitsOf(cs: seq<Byte>): (r: seq<nat>)
    requires AllValid(cs)
    ensures |r| == |cs| && forall i :: 0 <= i < |cs| ==> r[i] == Digit58(cs[i]) < 58
  {
    if cs == [] then [] else DigitsOf(cs[..|cs| - 1]) + [Digit58(cs[|cs| - 1])]
  }

  predicate AllValid(cs: seq<Byte>) { forall i :: 0 <= i < |cs| ==> Digit58(cs[i]) != -1 }

  /** Characters up to the first space. */
  function Span(s: seq<Byte>): (n: nat)
    ensures n <= |s| && (forall i :: 0 <= i < n ==> !IsSpace(s[i])) && (n < |s| ==> IsSpace(s[n]))
  {
    if s == [] || IsSpace(s[0]) then 0 else 1 + Span(s[1..])
  }

  function Spaces(s: seq<Byte>): (n: nat)
    ensures n <= |s| && (forall i :: 0 <= i < n ==> IsSpace(s[i])) && (n < |s| ==> !IsSpace(s[n]))
  {
    if s == [] || !IsSpace(s[0]) then 0 else 1 + Spaces(s[1..])
  }

  /** The string without the spaces around it, if nothing but spaces follows the first space. */
  function Trimmed(s: seq<Byte>): Option<seq<Byte>> {
    var t := s[Spaces(s)..];
    var n := Span(t);
    if n + Spaces(t[n..]) == |t| then Some(t[..n]) else None
  }

  /** The bytes of a trimmed string. */
  function Decoded(t: seq<Byte>): (r: seq<nat>)
    requires AllValid(t)
  {
    var z := Leading(t, ONE);
    Copies(z, 0) + BigDigits(256, Big(58, DigitsOf(t[z..])))
  }

  /** DecodeBase58 on a C string. */
  function Decode(s: seq<Byte>): Option<seq<nat>> {
    var t := Trimmed(s);
    if t.None? || !AllValid(t.value) then None else Some(Decoded(t.value))
  }

  lemma LeadingOf(z: nat, x: Byte, rest: seq<nat>)
    requires rest != [] ==> rest[0] != x
    ensures Leading(Copies(z, x) + rest, x) == z
  {
    var s: seq<nat> := Copies(z, x) + rest;
    assert forall i :: 0 <= i < z ==> s[i] == x;
    assert z < |s| ==> s[z] == rest[0];
  }

  lemma CharsBack(ds: seq<nat>)
    requires Proper(58, ds)
    ensures AllValid(Chars(ds)) && DigitsOf(Chars(ds)) == ds && (forall i :: 0 <= i < |ds| ==> !IsSpace(Chars(ds)[i]))
    ensures ds != [] && ds[0] != 0 ==> Chars(ds)[0] != ONE
  {
    hide Char58, Digit58, IsSpace;
    forall i | 0 <= i < |ds|
      ensures Digit58(Chars(ds)[i]) == ds[i] && !IsSpace(Chars(ds)[i]) && (Chars(ds)[i] == ONE <==> ds[i] == 0)
    {
      AlphabetOk(ds[i]);
    }
  }

  lemma DigitsBackChars(cs: seq<Byte>)
    requires AllValid(cs)
    ensures Proper(58, DigitsOf(cs)) && Chars(DigitsOf(cs)) == cs
    ensures cs != [] && cs[0] != ONE ==> DigitsOf(cs)[0] != 0
  {
    hide Char58, Digit58;
    forall i | 0 <= i < |cs| ensures Char58(DigitsOf(cs)[i]) == cs[i] && (cs[i] != ONE ==> DigitsOf(cs)[i] != 0) {
      AlphabetBack(cs[i]);
      AlphabetOk(DigitsOf(cs)[i]);
    }
  }

  /** A string with no space in it is trimmed already. */
  lemma NoSpaces(s: seq<Byte>)
    requires forall i :: 0 <= i < |s| ==> !IsSpace(s[i])
    ensures Trimmed(s) == Some(s)
  {
    assert s[0..] == s;
    assert Spaces(s) == 0 && Span(s) == |s|;
    assert s[..|s|] == s;
  }

  lemma OneOk()
    ensures Digit58(ONE) == 0 && !IsSpace(ONE)
  {}

  lemma EncodedParts(v: seq<nat>)
    ensures var ds := BigDigits(58, Big(256, v[Leading(v, 0)..]));
            && Canonical(58, ds) && Encode(v) == Copies(Leading(v, 0), ONE) + Chars(ds)
            && Leading(Encode(v), ONE) == Leading(v, 0) && Encode(v)[Leading(v, 0)..] == Chars(ds)
            && AllValid(Encode(v)) && Trimmed(Encode(v)) == Some(Encode(v))
  {
    hide Digit58, IsSpace, Char58;
    var z := Leading(v, 0);
    var n := Big(256, v[z..]);
    DigitsOk(58, n);
    var cs, ones := Chars(BigDigits(58, n)), Copies(z, ONE);
    CharsBack(BigDigits(58, n));
    OneOk();
    LeadingOf(z, ONE, cs);
    var s := ones + cs;
    assert s[z..] == cs;
    forall i | 0 <= i < |s| ensures Digit58(s[i]) != -1 && !IsSpace(s[i]) {
      if i < z { assert s[i] == ones[i] == ONE; } else { assert s[i] == cs[i - z]; }
    }
    NoSpaces(s);
  }

  /** Decoding an encoding gives the bytes back, leading zeros included. */
  lemma DecodeEncode(v: seq<nat>)
    requires Proper(256, v)
    ensures Decode(Encode(v)) == Some(v)
  {
    hide Digit58, IsSpace, Char58, Leading, Copies, Trimmed;
    var z := Leading(v, 0);
    var n := Big(256, v[z..]);
    EncodedParts(v);
    DigitsOk(58, n);
    CharsBack(BigDigits(58, n));
    DigitsBack(256, v[z..]);
    assert v == Copies(z, 0) + v[z..];
  }

  /** Encoding the bytes of any accepted string gives that string without the spaces around it. */
  lemma EncodeDecode(s: seq<Byte>)
    requires Decode(s).Some?
    ensures Trimmed(s).Some? && Encode(Decode(s).value) == Trimmed(s).value
  {
    hide Digit58, IsSpace, Char58, Leading, Copies, Trimmed;
    var t := Trimmed(s).value;
    var z := Leading(t, ONE);
    var rest := t[z..];
    var m := Big(58, DigitsOf(rest));
    DigitsBackChars(rest);
    DigitsBack(58, DigitsOf(rest));
    DigitsOk(256, m);
    LeadingOf(z, 0, BigDigits(256, m));
    var v: seq<nat> := Copies(z, 0) + BigDigits(256, m);
    assert v[z..] == BigDigits(256, m);
    assert t == Copies(z, ONE) + rest;
  }

  /** A string without spaces is given back as it is. */
  lemma EncodeDecodeExact(s: seq<Byte>)
    requires Decode(s).Some? && forall i :: 0 <= i < |s| ==> !IsSpace(s[i])
    ensures Encode(Decode(s).value) == s
  {
    NoSpaces(s);
    EncodeDecode(s);
  }

  // ---------------------------------------------------------------------------------------------
  // With a checksum
  // ---------------------------------------------------------------------------------------------

  /** The first four bytes of the hash. */
  function Check(hash: seq<nat> -> seq<Byte>, v: seq<nat>): (r: seq<Byte>)
    ensures |r| == 4
  {
    var h := hash(v);
    if |h| >= 4 then h[..4] else Copies(4, 0)
  }

  function EncodeCheck(hash: seq<nat> -> seq<Byte>, v: seq<nat>): seq<Byte> { Encode(v + Check(hash, v)) }

  function DecodeCheck(hash: seq<nat> -> seq<Byte>, s: seq<Byte>): Option<seq<nat>> {
    var r := Decode(s);
    if r.None? || |r.value| < 4 then None
    else
      var n := |r.value| - 4;
      if Check(hash, r.value[..n]) != r.value[n..] then None else Some(r.value[..n])
  }

  /** A string is accepted with some bytes exactly when it is, up to spaces, their encoding with the checksum. */
  lemma CheckRoundTrip(hash: seq<nat> -> seq<Byte>, v: seq<nat>, s: seq<Byte>)
    requires Proper(256, v)
    ensures DecodeCheck(hash, EncodeCheck(hash, v)) == Some(v)
    ensures DecodeCheck(hash, s) == Some(v) <==> Trimmed(s) == Some(EncodeCheck(hash, v))
  {
    hide Encode, Decode, Trimmed;
    var all: seq<nat> := v + Check(hash, v);
    assert Proper(256, all);
    DecodeEncode(all);
    assert all[..|v|] == v && all[|v|..] == Check(hash, v);
    if DecodeCheck(hash, s) == Some(v) {
      var r := Decode(s).value;
      assert r == r[..|r| - 4] + r[|r| - 4..];
      EncodeDecode(s);
    }
    if Trimmed(s) == Some(EncodeCheck(hash, v)) {
      EncodedParts(all);
      SameTrimmed(s, Encode(all));
    }
  }

  /** Only what is left after trimming matters. */
  lemma SameTrimmed(s: seq<Byte>, t: seq<Byte>)
    requires Trimmed(s) == Trimmed(t)
    ensures Decode(s) == Decode(t)
  {
    hide Trimmed;
  }

  // ---------------------------------------------------------------------------------------------
  // The code
  // ---------------------------------------------------------------------------------------------

  /** The digits below `length`, counted from the end, are all there is. */
  ghost predicate BufferOk(a: seq<nat>, b: nat, length: nat) {
    length <= |a| && Proper(b, a) && forall j :: 0 <= j < |a| - length ==> a[j] == 0
  }

  lemma ColumnStep(b: nat, mul: int, digit: int, x: nat, carry: nat, s: seq<nat>, s': seq<nat>)
    requires b > 0 && mul >= 0 && |s| == |s'| && Big(b, s') + carry * Pow(b, |s|) == mul * Big(b, s) + digit
    ensures carry + mul * x >= 0
    ensures var n := carry + mul * x;
            Big(b, [n % b] + s') + (n / b) * Pow(b, |s| + 1) == mul * Big(b, [x] + s) + digit
  {
    hide Pow, Big;
    MulMono(0, mul, x);
    var n := carry + mul * x;
    BigCons(b, n % b, s');
    BigCons(b, x, s);
    PowStep(b, |s|);
    ColumnArith(n, b, Pow(b, |s|), carry, mul, x, Big(b, s), Big(b, s'), digit);
  }

  lemma ColumnArith(n: int, b: int, p: int, carry: int, mul: int, x: int, v: int, v': int, digit: int)
    requires b > 0 && n == carry + mul * x && v' + carry * p == mul * v + digit
    ensures (n % b) * p + v' + (n / b) * (b * p) == mul * (x * p + v) + digit
  {
    Carry(n, b, p);
    MulAdd(p, carry, mul * x);
    MulAdd(mul, x * p, v);
    MulAssoc(mul, x, p);
  }

  /** a = a * mul + digit, in place from the last digit on; the buffer is large enough, so no carry is left. */
  method Accumulate(a: array<nat>, b: nat, mul: nat, digit: nat, length0: nat) returns (length: nat)
    requires b >= 2 && BufferOk(a[..], b, length0) && mul * Big(b, a[..]) + digit < Pow(b, a.Length)
    modifies a
    ensures BufferOk(a[..], b, length) && Big(b, a[..]) == mul * Big(b, old(a[..])) + digit
  {
    hide Pow, Big;
    ghost var s := a[..];
    var size := a.Length;
    var carry: nat := digit;
    var i := 0;
    NoDigits(b, s, size, carry, mul);
    while (carry != 0 || i < length0) && i < size
      invariant 0 <= i <= size && Proper(b, a[..]) && a[..size - i] == s[..size - i]
      invariant Big(b, a[size - i..]) + carry * Pow(b, i) == mul * Big(b, s[size - i..]) + digit
    {
      var k := size - 1 - i;
      ghost var t := a[k + 1..];
      ColumnStep(b, mul, digit, a[k], carry, s[k + 1..], t);
      assert s[k..] == [s[k]] + s[k + 1..] && a[k] == s[k];
      var n := carry + mul * a[k];
      DivModSplit(n, b);
      a[k] := n % b;
      carry := n / b;
      assert a[k..] == [a[k]] + t;
      i := i + 1;
    }
    Finished(b, s, a[..], i, carry, mul, digit, length0);
    assert carry == 0;
    length := i;
  }

  lemma NoDigits(b: nat, s: seq<nat>, size: nat, carry: int, mul: int)
    requires size == |s|
    ensures Big(b, s[size..]) == 0 && carry * Pow(b, 0) == carry && mul * Big(b, s[size..]) == 0
  {
    assert s[size..] == [];
    PowNone(b);
  }

  lemma Finished(b: nat, s: seq<nat>, s': seq<nat>, i: nat, carry: nat, mul: nat, digit: nat, length: nat)
    requires b >= 2 && |s| == |s'| && i <= |s| && BufferOk(s, b, length) && Proper(b, s')
             && s'[..|s| - i] == s[..|s| - i]
    requires Big(b, s'[|s| - i..]) + carry * Pow(b, i) == mul * Big(b, s[|s| - i..]) + digit
    requires mul * Big(b, s) + digit < Pow(b, |s|) && (i == |s| || (carry == 0 && i >= length))
    ensures carry == 0 && BufferOk(s', b, i) && Big(b, s') == mul * Big(b, s) + digit
  {
    hide Pow, Big;
    var k := |s| - i;
    if i == |s| {
      assert s'[0..] == s' && s[0..] == s;
      if carry > 0 { MulMono(1, carry, Pow(b, i)); }
    } else {
      BigStripped(b, s, k);
      forall j | 0 <= j < k ensures s'[j] == 0 { assert s'[..k][j] == s[..k][j]; }
      BigStripped(b, s', k);
    }
  }

  /** The digits in the buffer after its leading zeros. */
  method Significant(a: array<nat>, b: nat, length: nat) returns (ds: seq<nat>)
    requires b >= 2 && BufferOk(a[..], b, length)
    ensures ds == BigDigits(b, Big(b, a[..]))
  {
    hide Big, BigDigits;
    var it := a.Length - length;
    while it < a.Length && a[it] == 0
      invariant a.Length - length <= it <= a.Length && forall j :: 0 <= j < it ==> a[j] == 0
    {
      it := it + 1;
    }
    BigStripped(b, a[..], it);
    assert a[..][it..] == a[it..];
    DigitsBack(b, a[it..]);
    ds := a[it..];
  }

  /** The number so far leaves room for what is still to come. */
  lemma RoomLeft(b: nat, mul: nat, digits: seq<nat>, i: nat, size: nat)
    requires mul >= 2 && Proper(mul, digits) && i < |digits| && Pow(mul, |digits|) <= Pow(b, size)
    ensures mul * Big(mul, digits[..i]) + digits[i] == Big(mul, digits[..i + 1]) < Pow(b, size)
  {
    hide Pow;
    assert digits[..i + 1][..i] == digits[..i];
    BigBound(mul, digits[..i + 1]);
    PowMono(mul, i + 1, |digits|);
  }

  method ConvertBase(b: nat, mul: nat, digits: seq<nat>, size: nat) returns (ds: seq<nat>)
    requires b >= 2 && mul >= 2 && Proper(mul, digits) && Pow(mul, |digits|) <= Pow(b, size)
    ensures ds == BigDigits(b, Big(mul, digits))
  {
    hide Pow, Big, BigDigits;
    var a := new nat[size](_ => 0);
    var length := 0;
    assert digits[..0] == [];
    BigZeros(b, a[..]);
    BigZeros(mul, digits[..0]);
    for i := 0 to |digits|
      invariant BufferOk(a[..], b, length) && Big(b, a[..]) == Big(mul, digits[..i])
      modifies a
    {
      RoomLeft(b, mul, digits, i, size);
      length := Accumulate(a, b, mul, digits[i], length);
    }
    assert digits[..|digits|] == digits;
    ds := Significant(a, b, length);
  }

  method CountLeading(s: seq<nat>, x: nat) returns (n: nat)
    ensures n == Leading(s, x)
  {
    n := 0;
    while n < |s| && s[n] == x
      invariant n <= |s| && forall i :: 0 <= i < n ==> s[i] == x
    {
      n := n + 1;
    }
  }

  method EncodeBase58(v: seq<Byte>) returns (str: seq<Byte>)
    ensures str == Encode(v)
  {
    hide Char58, BigDigits, Big, Leading, Copies, Pow;
    var zeroes := CountLeading(v, 0);
    var rest := v[zeroes..];
    EncodeFits(|rest|);
    DigitsOk(58, Big(256, rest));
    var ds := ConvertBase(58, 256, rest, |rest| * 138 / 100 + 1);
    str := Copies(zeroes, ONE);
    ghost var start := str;
    for i := 0 to |ds|
      invariant str == start + Chars(ds)[..i]
    {
      str := str + [Char58(ds[i])];
    }
  }

  method DecodeBase58(psz: seq<Byte>) returns (r: Option<seq<nat>>)
    ensures r == Decode(psz)
  {
    hide Span, Spaces, AllValid, Decoded;
    var lead := CountSpaces(psz);
    r := DecodeFrom(psz[lead..]);
  }

  /** Reads the characters before the first space; the size of the buffer counts all that remain. */
  method DecodeFrom(t: seq<Byte>) returns (r: Option<seq<nat>>)
    ensures var n := Span(t);
            r == if n + Spaces(t[n..]) == |t| && AllValid(t[..n]) then Some(Decoded(t[..n])) else None
  {
    hide Digit58, IsSpace, BigDigits, Big, Copies, Pow, Span, Spaces, AllValid, DigitsOf;
    var zeroes := CountLeading(t, ONE);
    var rest := t[zeroes..];
    ghost var n := Span(t);
    OneOk();
    SpanAfterOnes(t, zeroes);
    var valid, digits := ReadDigits(rest);
    if !valid {
      InvalidInside(t, zeroes);
      return None;
    }
    var m := |digits|;
    var trailing := CountSpaces(rest[m..]);
    assert rest[m..] == t[n..];
    if m + trailing != |rest| { return None; }
    LargerBuffer(m, |rest|);
    var bytes := ConvertBase(256, 58, digits, |rest| * 733 / 1000 + 1);
    ValidWhole(t, zeroes);
    r := Some(Copies(zeroes, 0) + bytes);
  }

  method CountSpaces(s: seq<Byte>) returns (n: nat)
    ensures n == Spaces(s)
  {
    n := 0;
    while n < |s| && IsSpace(s[n])
      invariant n <= |s| && forall i :: 0 <= i < n ==> IsSpace(s[i])
    {
      n := n + 1;
    }
  }

  method ReadDigits(s: seq<Byte>) returns (valid: bool, digits: seq<nat>)
    ensures valid == AllValid(s[..Span(s)])
    ensures valid ==> digits == DigitsOf(s[..Span(s)])
  {
    hide Digit58, IsSpace;
    digits := [];
    var i := 0;
    while i < |s| && !IsSpace(s[i])
      invariant i <= |s| && (forall k :: 0 <= k < i ==> !IsSpace(s[k]))
      invariant |digits| == i && forall k :: 0 <= k < i ==> digits[k] == Digit58(s[k]) != -1
    {
      var d := Digit58(s[i]);
      if d == -1 {
        assert i < Span(s) && s[..Span(s)][i] == s[i];
        return false, [];
      }
      AlphabetBack(s[i]);
      digits := digits + [d];
      i := i + 1;
    }
    assert i == Span(s);
    valid := true;
  }

  lemma {:induction false} SpanAfterOnes(t: seq<Byte>, z: nat)
    requires z == Leading(t, ONE) && !IsSpace(ONE)
    ensures z <= Span(t) && Span(t[z..]) == Span(t) - z
    ensures t[z..][..Span(t) - z] == t[..Span(t)][z..]
    decreases z
  {
    hide IsSpace;
    if z == 0 {
      assert t[0..] == t;
    } else {
      SpanAfterOnes(t[1..], z - 1);
      assert t[1..][z - 1..] == t[z..];
    }
  }

  lemma InvalidInside(t: seq<Byte>, z: nat)
    requires z <= Span(t) && !AllValid(t[..Span(t)][z..])
    ensures !AllValid(t[..Span(t)])
  {
    hide Digit58;
    var w := t[..Span(t)];
    var i :| 0 <= i < |w[z..]| && Digit58(w[z..][i]) == -1;
    assert w[z + i] == w[z..][i];
  }

  lemma ValidWhole(t: seq<Byte>, z: nat)
    requires z == Leading(t, ONE) && z <= Span(t) && AllValid(t[..Span(t)][z..]) && Digit58(ONE) == 0
    ensures AllValid(t[..Span(t)]) && Leading(t[..Span(t)], ONE) == z
  {
    hide Digit58;
    var w := t[..Span(t)];
    forall i | 0 <= i < |w| ensures Digit58(w[i]) != -1 {
      if i >= z { assert w[i] == w[z..][i - z]; }
    }
  }

  lemma LargerBuffer(m: nat, n: nat)
    requires m <= n
    ensures Pow(58, m) <= Pow(256, n * 733 / 1000 + 1)
  {
    hide Pow;
    DecodeFits(m);
    PowMono(256, m * 733 / 1000 + 1, n * 733 / 1000 + 1);
  }
}
