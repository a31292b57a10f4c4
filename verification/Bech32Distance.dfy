/** The distance of the Bech32 code (bech32.cpp): up to three changed symbols within a window of 1023 are detected.

    The generator has three consecutive powers of an element y of order 1023 of GF(1024) as roots, so the state of
    PolyMod can be evaluated at them.  Of the field only its addition and multiplication by y are needed. */
module Bech32Distance {
  import opened Bech32
  import opened Digits

  // ---------------------------------------------------------------------------------------------
  // Multiplication by a generator of GF(1024)
  // ---------------------------------------------------------------------------------------------

  /** Addition, kept as a named operation. */
  function Sum(a: bv10, b: bv10): bv10 { a ^ b }

  /** Multiplication by y, where y^10 = y^8 + y^5 + y + 1. */
  function X(z: bv10): bv10 { Sum(Up(z), Wrapped(z)) }

  function Up(z: bv10): bv10 { (z & 0x1ff) << 1 }

  function Wrapped(z: bv10): bv10 { if z & 0x200 != 0 then 0x123 else 0 }

  function XPow(z: bv10, n: nat): bv10 { if n == 0 then z else X(XPow(z, n - 1)) }

  /** The linear map with the given images of the ten bits. */
  function Linear(z: bv10, b0: bv10, b1: bv10, b2: bv10, b3: bv10, b4: bv10, b5: bv10, b6: bv10, b7: bv10, b8: bv10,
                  b9: bv10): bv10 {
    (if z & 1 != 0 then b0 else 0) ^ (if z & 2 != 0 then b1 else 0) ^ (if z & 4 != 0 then b2 else 0)
    ^ (if z & 8 != 0 then b3 else 0) ^ (if z & 16 != 0 then b4 else 0) ^ (if z & 32 != 0 then b5 else 0)
    ^ (if z & 64 != 0 then b6 else 0) ^ (if z & 128 != 0 then b7 else 0) ^ (if z & 256 != 0 then b8 else 0)
    ^ (if z & 512 != 0 then b9 else 0)
  }

  // The powers that are needed, as linear maps.

  function X2(z: bv10): bv10 {
    Linear(z, 0x4, 0x8, 0x10, 0x20, 0x40, 0x80, 0x100, 0x200, 0x123, 0x246)
  }

  function X4(z: bv10): bv10 {
    Linear(z, 0x10, 0x20, 0x40, 0x80, 0x100, 0x200, 0x123, 0x246, 0x1af, 0x35e)
  }

  function X8(z: bv10): bv10 {
    Linear(z, 0x100, 0x200, 0x123, 0x246, 0x1af, 0x35e, 0x39f, 0x21d, 0x119, 0x232)
  }

  function X16(z: bv10): bv10 {
    Linear(z, 0x119, 0x232, 0x147, 0x28e, 0x3f, 0x7e, 0xfc, 0x1f8, 0x3f0, 0x2c3)
  }

  function X24(z: bv10): bv10 {
    Linear(z, 0x3f0, 0x2c3, 0xa5, 0x14a, 0x294, 0xb, 0x16, 0x2c, 0x58, 0xb0)
  }

  function X25(z: bv10): bv10 {
    Linear(z, 0x2c3, 0xa5, 0x14a, 0x294, 0xb, 0x16, 0x2c, 0x58, 0xb0, 0x160)
  }

  function X26(z: bv10): bv10 {
    Linear(z, 0xa5, 0x14a, 0x294, 0xb, 0x16, 0x2c, 0x58, 0xb0, 0x160, 0x2c0)
  }

  function X27(z: bv10): bv10 {
    Linear(z, 0x14a, 0x294, 0xb, 0x16, 0x2c, 0x58, 0xb0, 0x160, 0x2c0, 0xa3)
  }

  function X31(z: bv10): bv10 {
    Linear(z, 0x2c, 0x58, 0xb0, 0x160, 0x2c0, 0xa3, 0x146, 0x28c, 0x3b, 0x76)
  }

  function X33(z: bv10): bv10 {
    Linear(z, 0xb0, 0x160, 0x2c0, 0xa3, 0x146, 0x28c, 0x3b, 0x76, 0xec, 0x1d8)
  }

  function X62(z: bv10): bv10 {
    Linear(z, 0x173, 0x2e6, 0xef, 0x1de, 0x3bc, 0x25b, 0x195, 0x32a, 0x377, 0x3cd)
  }

  function X93(z: bv10): bv10 {
    Linear(z, 0x36a, 0x3f7, 0x2cd, 0xb9, 0x172, 0x2e4, 0xeb, 0x1d6, 0x3ac, 0x27b)
  }

  function X155(z: bv10): bv10 {
    Linear(z, 0x4c, 0x98, 0x130, 0x260, 0x1e3, 0x3c6, 0x2af, 0x7d, 0xfa, 0x1f4)
  }

  function X186(z: bv10): bv10 {
    Linear(z, 0x96, 0x12c, 0x258, 0x193, 0x326, 0x36f, 0x3fd, 0x2d9, 0x91, 0x122)
  }

  function X341(z: bv10): bv10 {
    Linear(z, 0x36, 0x6c, 0xd8, 0x1b0, 0x360, 0x3e3, 0x2e5, 0xe9, 0x1d2, 0x3a4)
  }

  function X682(z: bv10): bv10 {
    Linear(z, 0x37, 0x6e, 0xdc, 0x1b8, 0x370, 0x3c3, 0x2a5, 0x69, 0xd2, 0x1a4)
  }

  lemma SumAssoc(a: bv10, b: bv10, c: bv10)
    ensures Sum(Sum(a, b), c) == Sum(a, Sum(b, c)) && Sum(a, b) == Sum(b, a)
  {}

  lemma SumSelf(a: bv10)
    ensures Sum(a, a) == 0 && Sum(a, 0) == a && Sum(0, a) == a
  {}

  lemma SumCancels(a: bv10, b: bv10)
    requires Sum(a, b) == 0
    ensures a == b
  {}

  lemma SumPairs(a: bv10, b: bv10, c: bv10, d: bv10)
    ensures Sum(Sum(a, b), Sum(c, d)) == Sum(Sum(a, c), Sum(b, d))
  {
    hide Sum;
    SumAssoc(a, b, Sum(c, d));
    SumAssoc(b, c, d);
    SumAssoc(c, b, d);
    SumAssoc(a, c, Sum(b, d));
  }

  lemma UpLinear(a: bv10, b: bv10)
    ensures Up(Sum(a, b)) == Sum(Up(a), Up(b))
  {}

  lemma WrappedLinear(a: bv10, b: bv10)
    ensures Wrapped(Sum(a, b)) == Sum(Wrapped(a), Wrapped(b))
  {}

  lemma XLinear(a: bv10, b: bv10)
    ensures X(Sum(a, b)) == Sum(X(a), X(b))
  {
    hide Up, Wrapped, Sum;
    UpLinear(a, b);
    WrappedLinear(a, b);
    SumPairs(Up(a), Up(b), Wrapped(a), Wrapped(b));
  }

  lemma XZero(a: bv10)
    ensures X(a) == 0 <==> a == 0
  {}

  lemma {:induction false} XPowLinear(a: bv10, b: bv10, n: nat)
    ensures XPow(Sum(a, b), n) == Sum(XPow(a, n), XPow(b, n))
  {
    hide X, Sum;
    if n > 0 {
      XPowLinear(a, b, n - 1);
      XLinear(XPow(a, n - 1), XPow(b, n - 1));
    }
  }

  lemma {:induction false} XPowZero(z: bv10, n: nat)
    ensures XPow(z, n) == 0 <==> z == 0
  {
    hide X;
    if n > 0 {
      XPowZero(z, n - 1);
      XZero(XPow(z, n - 1));
    }
  }

  lemma {:induction false} XPowAdd(z: bv10, m: nat, n: nat)
    ensures XPow(z, m + n) == XPow(XPow(z, m), n)
  {
    hide X;
    if n > 0 { XPowAdd(z, m, n - 1); }
  }

  lemma X2Is(z: bv10)
    ensures X2(z) == X(X(z))
  {}

  lemma X4Is(z: bv10)
    ensures X4(z) == X2(X2(z))
  {}

  lemma X8Is(z: bv10)
    ensures X8(z) == X4(X4(z))
  {}

  lemma X16Is(z: bv10)
    ensures X16(z) == X8(X8(z))
  {}

  lemma X24Is(z: bv10)
    ensures X24(z) == X8(X16(z))
  {}

  lemma X25Is(z: bv10)
    ensures X25(z) == X(X24(z))
  {}

  lemma X26Is(z: bv10)
    ensures X26(z) == X(X25(z))
  {}

  lemma X27Is(z: bv10)
    ensures X27(z) == X(X26(z))
  {}

  lemma X31Is(z: bv10)
    ensures X31(z) == X4(X27(z))
  {}

  lemma X33Is(z: bv10)
    ensures X33(z) == X2(X31(z))
  {}

  lemma X62Is(z: bv10)
    ensures X62(z) == X31(X31(z))
  {}

  lemma X93Is(z: bv10)
    ensures X93(z) == X31(X62(z))
  {}

  lemma X155Is(z: bv10)
    ensures X155(z) == X62(X93(z))
  {}

  lemma X186Is(z: bv10)
    ensures X186(z) == X93(X93(z))
  {}

  lemma X341Is(z: bv10)
    ensures X341(z) == X155(X186(z))
  {}

  lemma X682Is(z: bv10)
    ensures X682(z) == X341(X341(z))
  {}

  /** The order of y divides 1023. */
  lemma X1023Is(z: bv10)
    ensures X341(X682(z)) == z
  {}

  lemma NoFixed341(z: bv10)
    requires X341(z) == z
    ensures z == 0
  {}

  lemma NoFixed93(z: bv10)
    requires X93(z) == z
    ensures z == 0
  {}

  lemma NoFixed33(z: bv10)
    requires X33(z) == z
    ensures z == 0
  {}

  // ---------------------------------------------------------------------------------------------
  // The order of the generator
  // ---------------------------------------------------------------------------------------------

  /** The linear maps are the powers they are named after. */
  lemma Powers(z: bv10)
    ensures X24(z) == XPow(z, 24) && X25(z) == XPow(z, 25) && X26(z) == XPow(z, 26)
    ensures X31(z) == XPow(z, 31) && X33(z) == XPow(z, 33)
  {
    hide X, X2, X4, X8, X16, X24, X25, X26, X27, X31, X33;
    X24Power(z);
    X25Is(z);
    X26Is(z);
    X27Is(z);
    X31Is(z);
    X4Power(X27(z));
    XPowAdd(z, 27, 4);
    X33Is(z);
    X2Power(X31(z));
    XPowAdd(z, 31, 2);
  }

  lemma X2Power(z: bv10)
    ensures X2(z) == XPow(z, 2)
  {
    hide X, X2;
    X2Is(z);
    assert XPow(z, 1) == X(XPow(z, 0));
  }

  lemma X4Power(z: bv10)
    ensures X4(z) == XPow(z, 4)
  {
    hide XPow, X2, X4;
    X4Is(z);
    X2Power(z);
    X2Power(X2(z));
    XPowAdd(z, 2, 2);
  }

  lemma X8Power(z: bv10)
    ensures X8(z) == XPow(z, 8)
  {
    hide XPow, X4, X8;
    X8Is(z);
    X4Power(z);
    X4Power(X4(z));
    XPowAdd(z, 4, 4);
  }

  lemma X24Power(z: bv10)
    ensures X24(z) == XPow(z, 24)
  {
    hide XPow, X8, X16, X24;
    X24Is(z);
    X16Is(z);
    X8Power(z);
    X8Power(X8(z));
    XPowAdd(z, 8, 8);
    X8Power(X16(z));
    XPowAdd(z, 16, 8);
  }

  lemma X93Power(z: bv10)
    ensures X62(z) == XPow(z, 62) && X93(z) == XPow(z, 93)
  {
    hide XPow, X31, X62, X93;
    X62Is(z);
    X93Is(z);
    Powers(z);
    Powers(X31(z));
    XPowAdd(z, 31, 31);
    Powers(X62(z));
    XPowAdd(z, 62, 31);
  }

  lemma X341Power(z: bv10)
    ensures X341(z) == XPow(z, 341)
  {
    hide XPow, X62, X93, X155, X186, X341;
    X186Is(z);
    X93Power(z);
    X93Power(X93(z));
    XPowAdd(z, 93, 93);
    X341Is(z);
    X155Is(X186(z));
    X93Power(X186(z));
    X93Power(X93(X186(z)));
    XPowAdd(z, 186, 93);
    XPowAdd(z, 279, 62);
  }

  lemma FullTurn(z: bv10)
    ensures XPow(z, 1023) == z
  {
    hide XPow, X341, X682;
    X1023Is(z);
    X682Is(z);
    X341Power(z);
    X341Power(X341(z));
    XPowAdd(z, 341, 341);
    X341Power(X682(z));
    XPowAdd(z, 682, 341);
  }

  predicate Period(z: bv10, n: nat) { XPow(z, n) == z }

  lemma PeriodDifference(z: bv10, m: nat, n: nat)
    requires Period(z, m) && Period(z, n) && m <= n
    ensures Period(z, n - m)
  {
    hide XPow;
    XPowAdd(z, m, n - m);
  }

  lemma {:induction false} PeriodMultiple(z: bv10, m: nat, k: nat)
    requires Period(z, m)
    ensures Period(z, k * m)
  {
    hide XPow;
    if k == 0 {
      assert XPow(z, 0) == z by { NoTurn(z); }
    } else {
      PeriodMultiple(z, m, k - 1);
      XPowAdd(z, (k - 1) * m, m);
      assert (k - 1) * m + m == k * m;
    }
  }

  lemma NoTurn(z: bv10)
    ensures XPow(z, 0) == z
  {}

  /** A common divisor of two periods that is a period itself. */
  lemma {:induction false} CommonPeriod(z: bv10, m: nat, n: nat) returns (d: nat, i: nat, j: nat)
    requires Period(z, m) && Period(z, n) && m > 0 && n > 0
    ensures Period(z, d) && d > 0 && m == i * d && n == j * d && i > 0 && j > 0
    decreases m + n
  {
    hide Period;
    if m == n {
      d, i, j := m, 1, 1;
    } else if m < n {
      PeriodDifference(z, m, n);
      d, i, j := CommonPeriod(z, m, n - m);
      MulAdd(d, i, j);
      j := i + j;
    } else {
      PeriodDifference(z, n, m);
      d, i, j := CommonPeriod(z, m - n, n);
      MulAdd(d, i, j);
      i := i + j;
    }
  }

  /** The divisors of 1023 = 3 * 11 * 31 that are at most 32. */
  lemma SmallDivisor(d: nat, k: nat)
    requires 1023 == k * d && 0 < d <= 32
    ensures d in {1, 3, 11, 31}
  {
    assert d in {1, 2, 3, 4, 5, 6, 7, 8, 9, 10, 11, 12, 13, 14, 15, 16}
             || d in {17, 18, 19, 20, 21, 22, 23, 24, 25, 26, 27, 28, 29, 30, 31, 32};
  }

  lemma ProperDivisor(d: nat, k: nat)
    requires 1023 == k * d && 0 < d < 1023
    ensures d in {1, 3, 11, 31, 33, 93, 341}
  {
    if d <= 32 {
      SmallDivisor(d, k);
    } else {
      if k > 32 { MulMono(33, k, d); }
      SmallDivisor(k, d);
    }
  }

  /** No power of the generator below the full turn fixes anything but zero. */
  lemma NoFixedPoint(z: bv10, n: nat)
    requires Period(z, n) && 0 < n < 1023
    ensures z == 0
  {
    hide XPow, X341, X93, X33;
    FullTurn(z);
    var d, i, j := CommonPeriod(z, n, 1023);
    if d >= 1023 { MulMono(1, i, d); }
    ProperDivisor(d, j);
    X341Power(z);
    X93Power(z);
    Powers(z);
    if d in {1, 11, 31, 341} {
      PeriodMultiple(z, d, 341 / d);
      NoFixed341(z);
    } else if d in {3, 93} {
      PeriodMultiple(z, d, 93 / d);
      NoFixed93(z);
    } else {
      NoFixed33(z);
    }
  }

  // ---------------------------------------------------------------------------------------------
  // Evaluating the state at the roots
  // ---------------------------------------------------------------------------------------------

  /** A symbol as an element of GF(1024): its low five bits, embedded. */
  function Emb(s: bv32): bv10 {
    (if s & 1 != 0 then 0x1 else 0) ^ (if s & 2 != 0 then 0xe else 0) ^ (if s & 4 != 0 then 0x54 else 0)
    ^ (if s & 8 != 0 then 0x358 else 0) ^ (if s & 16 != 0 then 0xbf else 0)
  }

  /** The coefficient of x^k of a state. */
  function Coefficient(c: bv32, k: nat): bv10
    requires k < 6
  {
    Emb(if k == 0 then c & 31 else if k == 1 then (c >> 5) & 31 else if k == 2 then (c >> 10) & 31
        else if k == 3 then (c >> 15) & 31 else if k == 4 then (c >> 20) & 31 else (c >> 25) & 31)
  }

  /** Multiplication by the root y^(24+t). */
  function Root(t: nat, z: bv10): bv10
    requires t < 3
  {
    if t == 0 then X24(z) else if t == 1 then X25(z) else X26(z)
  }

  lemma RootIs(t: nat, z: bv10)
    requires t < 3
    ensures Root(t, z) == XPow(z, 24 + t)
  {
    hide X24, X25, X26, XPow;
    Powers(z);
  }

  lemma RootLinear(t: nat, a: bv10, b: bv10)
    requires t < 3
    ensures Root(t, Sum(a, b)) == Sum(Root(t, a), Root(t, b))
  {
    hide Root, Sum, XPow;
    RootIs(t, a);
    RootIs(t, b);
    RootIs(t, Sum(a, b));
    XPowLinear(a, b, 24 + t);
  }

  function Horner(t: nat, h: bv10, e: bv10): bv10
    requires t < 3
  {
    Sum(Root(t, h), e)
  }

  /** The value of the polynomial of a state, from its coefficient of x^k up. */
  function From(t: nat, c: bv32, k: nat): bv10
    requires t < 3 && k < 6
    decreases 6 - k
  {
    if k == 5 then Coefficient(c, 5) else Horner(t, From(t, c, k + 1), Coefficient(c, k))
  }

  /** The value of the polynomial of a state at the root. */
  function Value(t: nat, c: bv32): bv10
    requires t < 3
  {
    From(t, c, 0)
  }

  lemma EmbLinear(a: bv32, b: bv32)
    ensures Emb(Add(a, b)) == Sum(Emb(a), Emb(b))
  {}

  lemma Shift0Linear(a: bv32, b: bv32)
    ensures Add(a, b) & 31 == Add(a & 31, b & 31)
  {}

  lemma Shift5Linear(a: bv32, b: bv32)
    ensures (Add(a, b) >> 5) & 31 == Add((a >> 5) & 31, (b >> 5) & 31)
  {}

  lemma Shift10Linear(a: bv32, b: bv32)
    ensures (Add(a, b) >> 10) & 31 == Add((a >> 10) & 31, (b >> 10) & 31)
  {}

  lemma Shift15Linear(a: bv32, b: bv32)
    ensures (Add(a, b) >> 15) & 31 == Add((a >> 15) & 31, (b >> 15) & 31)
  {}

  lemma Shift20Linear(a: bv32, b: bv32)
    ensures (Add(a, b) >> 20) & 31 == Add((a >> 20) & 31, (b >> 20) & 31)
  {}

  lemma Shift25Linear(a: bv32, b: bv32)
    ensures (Add(a, b) >> 25) & 31 == Add((a >> 25) & 31, (b >> 25) & 31)
  {}

  lemma CoefficientLinear(a: bv32, b: bv32, k: nat)
    requires k < 6
    ensures Coefficient(Add(a, b), k) == Sum(Coefficient(a, k), Coefficient(b, k))
  {
    hide Add, Emb, Sum;
    if k == 0 {
      Shift0Linear(a, b);
      EmbLinear(a & 31, b & 31);
    } else if k == 1 {
      Shift5Linear(a, b);
      EmbLinear((a >> 5) & 31, (b >> 5) & 31);
    } else if k == 2 {
      Shift10Linear(a, b);
      EmbLinear((a >> 10) & 31, (b >> 10) & 31);
    } else if k == 3 {
      Shift15Linear(a, b);
      EmbLinear((a >> 15) & 31, (b >> 15) & 31);
    } else if k == 4 {
      Shift20Linear(a, b);
      EmbLinear((a >> 20) & 31, (b >> 20) & 31);
    } else {
      Shift25Linear(a, b);
      EmbLinear((a >> 25) & 31, (b >> 25) & 31);
    }
  }

  lemma HornerLinear(t: nat, g: bv10, h: bv10, d: bv10, e: bv10)
    requires t < 3
    ensures Horner(t, Sum(g, h), Sum(d, e)) == Sum(Horner(t, g, d), Horner(t, h, e))
  {
    hide Root, Sum;
    RootLinear(t, g, h);
    SumPairs(Root(t, g), Root(t, h), d, e);
  }

  lemma {:induction false} FromLinear(t: nat, a: bv32, b: bv32, k: nat)
    requires t < 3 && k < 6
    ensures From(t, Add(a, b), k) == Sum(From(t, a, k), From(t, b, k))
    decreases 6 - k
  {
    hide Add, Sum, Coefficient, Horner;
    CoefficientLinear(a, b, k);
    if k < 5 {
      FromLinear(t, a, b, k + 1);
      HornerLinear(t, From(t, a, k + 1), From(t, b, k + 1), Coefficient(a, k), Coefficient(b, k));
    }
  }

  /** Shifting in a symbol moves the coefficients up and drops the highest. */
  lemma ShiftedLow(c: bv32, v: Byte)
    requires IsSymbol(v)
    ensures Coefficient(Shift(c, v), 0) == Emb(v as bv32) && Coefficient(Shift(c, v), 1) == Coefficient(c, 0)
    ensures Coefficient(Shift(c, v), 2) == Coefficient(c, 1)
  {}

  lemma ShiftedHigh(c: bv32, v: Byte)
    requires IsSymbol(v)
    ensures Coefficient(Shift(c, v), 3) == Coefficient(c, 2) && Coefficient(Shift(c, v), 4) == Coefficient(c, 3)
    ensures Coefficient(Shift(c, v), 5) == Coefficient(c, 4) && Coefficient(c, 5) == Emb(Top(c))
  {}

  function Root5(t: nat, z: bv10): bv10
    requires t < 3
  {
    Root(t, Root(t, Root(t, Root(t, Root(t, z)))))
  }

  lemma HornerMore(t: nat, p: bv10, g: bv10, e: bv10)
    requires t < 3
    ensures Horner(t, Sum(p, g), e) == Sum(Root(t, p), Horner(t, g, e))
  {
    hide Root, Sum;
    RootLinear(t, p, g);
    SumAssoc(Root(t, p), Root(t, g), e);
  }

  lemma HornerIs(t: nat, h: bv10, e: bv10)
    requires t < 3
    ensures Horner(t, h, e) == Sum(Root(t, h), e)
  {
    hide Root, Sum;
  }

  lemma FromStep(t: nat, c: bv32)
    requires t < 3
    ensures From(t, c, 5) == Coefficient(c, 5) && From(t, c, 4) == Horner(t, From(t, c, 5), Coefficient(c, 4))
    ensures From(t, c, 3) == Horner(t, From(t, c, 4), Coefficient(c, 3))
    ensures From(t, c, 2) == Horner(t, From(t, c, 3), Coefficient(c, 2))
    ensures From(t, c, 1) == Horner(t, From(t, c, 2), Coefficient(c, 1))
    ensures From(t, c, 0) == Horner(t, From(t, c, 1), Coefficient(c, 0))
  {
    hide Horner, Coefficient;
  }

  /** The value without the highest coefficient is that of the shifted state. */
  lemma ShiftedValue(t: nat, c: bv32, v: Byte)
    requires t < 3 && IsSymbol(v)
    ensures Value(t, Shift(c, v)) == Horner(t, From(t, Shift(c, v), 1), Emb(v as bv32))
    ensures Value(t, c) == Sum(Root5(t, Emb(Top(c))), From(t, Shift(c, v), 1))
  {
    hide Horner, Coefficient, Shift, Top, Emb, Root, Sum, IsSymbol, From;
    var s, p := Shift(c, v), Emb(Top(c));
    ShiftedLow(c, v);
    ShiftedHigh(c, v);
    FromStep(t, c);
    FromStep(t, s);
    HornerIs(t, p, From(t, s, 5));
    HornerMore(t, Root(t, p), From(t, s, 5), Coefficient(c, 3));
    HornerMore(t, Root(t, Root(t, p)), From(t, s, 4), Coefficient(c, 2));
    HornerMore(t, Root(t, Root(t, Root(t, p))), From(t, s, 3), Coefficient(c, 1));
    HornerMore(t, Root(t, Root(t, Root(t, Root(t, p)))), From(t, s, 2), Coefficient(c, 0));
  }

  lemma TapsValue0(a: bv32)
    requires a < 32
    ensures Value(0, Taps(a)) == Root(0, Root5(0, Emb(a)))
  {
    FromStep(0, Taps(a));
  }

  lemma TapsValue1(a: bv32)
    requires a < 32
    ensures Value(1, Taps(a)) == Root(1, Root5(1, Emb(a)))
  {
    FromStep(1, Taps(a));
  }

  lemma TapsValue2(a: bv32)
    requires a < 32
    ensures Value(2, Taps(a)) == Root(2, Root5(2, Emb(a)))
  {
    FromStep(2, Taps(a));
  }

  /** The generator is zero at its roots: what is reduced has the value of what was shifted out. */
  lemma TapsValue(t: nat, a: bv32)
    requires t < 3 && a < 32
    ensures Value(t, Taps(a)) == Root(t, Root5(t, Emb(a)))
  {
    hide Value, Taps, Root, Root5, Emb;
    if t == 0 { TapsValue0(a); } else if t == 1 { TapsValue1(a); } else { TapsValue2(a); }
  }

  lemma TopSymbol(c: bv32)
    requires Within(c)
    ensures Top(c) < 32
  {}

  /** One step of PolyMod multiplies the value by the root and adds the symbol. */
  lemma StepValue(t: nat, c: bv32, v: Byte)
    requires t < 3 && Within(c) && IsSymbol(v)
    ensures Value(t, Step(c, v)) == Sum(Root(t, Value(t, c)), Emb(v as bv32))
  {
    hide Horner, Shift, Taps, Top, Emb, Root, Root5, Sum, Add, IsSymbol, Within, From;
    TopSymbol(c);
    var g, p, e := From(t, Shift(c, v), 1), Root5(t, Emb(Top(c))), Emb(v as bv32);
    ShiftedValue(t, c, v);
    HornerIs(t, g, e);
    TapsValue(t, Top(c));
    FromLinear(t, Shift(c, v), Taps(Top(c)), 0);
    RootLinear(t, p, g);
    SumAssoc(Root(t, p), Root(t, g), e);
    SumAssoc(Sum(Root(t, g), e), Root(t, p), 0);
  }

  lemma ZeroCoefficient(k: nat)
    requires k < 6
    ensures Coefficient(0, k) == 0
  {}

  lemma ZeroHorner(t: nat)
    requires t < 3
    ensures Horner(t, 0, 0) == 0
  {}

  lemma ZeroValue(t: nat)
    requires t < 3
    ensures Value(t, 0) == 0
  {
    hide Coefficient, Horner, From;
    FromStep(t, 0);
    ZeroHorner(t);
    forall k | 0 <= k < 6 ensures Coefficient(0, k) == 0 { ZeroCoefficient(k); }
  }

  /** Reading further symbols that are zero. */
  lemma {:induction false} ZerosValue(t: nat, c: bv32, n: nat)
    requires t < 3 && Within(c)
    ensures Within(Poly(c, Zeros(n))) && Value(t, Poly(c, Zeros(n))) == XPow(Value(t, c), (24 + t) * n)
    decreases n
  {
    hide Step, Within, IsSymbol, Value, XPow, Root, Sum, Emb;
    ZeroSymbol();
    if n == 0 {
      NoTurn(Value(t, c));
    } else {
      var d := Step(c, 0);
      assert Zeros(n)[1..] == Zeros(n - 1);
      StepBound(c, 0);
      StepValue(t, c, 0);
      ZeroAdded(Root(t, Value(t, c)));
      RootIs(t, Value(t, c));
      ZerosValue(t, d, n - 1);
      XPowAdd(Value(t, c), 24 + t, (24 + t) * (n - 1));
      assert (24 + t) + (24 + t) * (n - 1) == (24 + t) * n;
    }
  }

  lemma ZeroAdded(z: bv10)
    ensures Sum(z, Emb((0 as Byte) as bv32)) == z
  {}

  /** Reading zeros and then one symbol. */
  lemma NextValue(t: nat, c: bv32, n: nat, v: Byte)
    requires t < 3 && Within(c) && IsSymbol(v) && n > 0
    ensures var d := Poly(c, Zeros(n - 1) + [v]);
            Within(d) && Value(t, d) == Sum(XPow(Value(t, c), (24 + t) * n), Emb(v as bv32))
  {
    hide Step, Within, IsSymbol, Value, XPow, Root, Sum, Emb;
    var c' := Poly(c, Zeros(n - 1));
    PolyConcat(c, Zeros(n - 1), [v]);
    ZerosValue(t, c, n - 1);
    StepBound(c', v);
    StepValue(t, c', v);
    RootIs(t, Value(t, c'));
    XPowAdd(Value(t, c), (24 + t) * (n - 1), 24 + t);
    assert (24 + t) * (n - 1) + (24 + t) == (24 + t) * n;
  }

  // ---------------------------------------------------------------------------------------------
  // Three errors
  // ---------------------------------------------------------------------------------------------

  /** Three terms at different powers do not vanish at three consecutive powers: a Vandermonde determinant. */
  lemma NoThreeTerms(a: bv10, b: bv10, c: bv10, i: nat, j: nat)
    requires 0 < j < i < 1023 && Sum(Sum(a, b), c) == 0
    requires Sum(Sum(XPow(a, i), XPow(b, j)), c) == 0
    requires Sum(Sum(XPow(XPow(a, i), i), XPow(XPow(b, j), j)), c) == 0
    ensures a == 0 && b == 0 && c == 0
  {
    hide Sum, XPow, Period;
    var a1, b1 := XPow(a, i), XPow(b, j);
    var a2, b2 := XPow(a1, i), XPow(b1, j);
    Moved(a, a1, b, b1, c);
    Moved(a1, a2, b1, b2, c);
    XPowLinear(a1, a, i);
    XPowLinear(b1, b, j);
    SameTurn(Sum(a1, a), i, j);
    FixedIsZero(a, i);
    FixedIsZero(b, j);
    SumSelf(0);
    SumSelf(c);
  }

  lemma SameTurn(d: bv10, i: nat, j: nat)
    requires 0 < j < i < 1023 && XPow(d, i) == XPow(d, j)
    ensures d == 0
  {
    hide XPow;
    XPowAdd(d, i - j, j);
    XPowInjective(XPow(d, i - j), d, j);
    NoFixedPoint(d, i - j);
  }

  lemma FixedIsZero(a: bv10, i: nat)
    requires 0 < i < 1023 && Sum(XPow(a, i), a) == 0
    ensures a == 0
  {
    hide Sum, XPow;
    SumCancels(XPow(a, i), a);
    NoFixedPoint(a, i);
  }

  lemma Moved(a: bv10, a': bv10, b: bv10, b': bv10, c: bv10)
    requires Sum(Sum(a, b), c) == 0 && Sum(Sum(a', b'), c) == 0
    ensures Sum(a', a) == Sum(b', b)
  {}

  lemma XPowInjective(x: bv10, y: bv10, n: nat)
    requires XPow(x, n) == XPow(y, n)
    ensures x == y
  {
    hide Sum, XPow;
    XPowLinear(x, y, n);
    SumSelf(XPow(x, n));
    XPowZero(Sum(x, y), n);
    SumCancels(x, y);
  }

  /** Three symbols with zeros in between: the first i and the second j places before the last. */
  function Three(u: Byte, v: Byte, w: Byte, i: nat, j: nat): seq<Byte>
    requires 0 < j < i
  {
    [u] + (Zeros(i - j - 1) + [v]) + (Zeros(j - 1) + [w])
  }

  lemma ThreeValue(t: nat, u: Byte, v: Byte, w: Byte, i: nat, j: nat)
    requires t < 3 && 0 < j < i && IsSymbol(u) && IsSymbol(v) && IsSymbol(w)
    ensures var d := Poly(0, Three(u, v, w, i, j));
            && Within(d)
            && Value(t, d) == Sum(Sum(XPow(Emb(u as bv32), (24 + t) * i), XPow(Emb(v as bv32), (24 + t) * j)),
                                  Emb(w as bv32))
  {
    hide Within, IsSymbol, Value, XPow, Sum, Emb, Poly;
    var c1 := Poly(0, [u]);
    var c2 := Poly(c1, Zeros(i - j - 1) + [v]);
    FirstValue(t, u);
    NextValue(t, c1, i - j, v);
    NextValue(t, c2, j, w);
    PolyConcat(0, [u], Zeros(i - j - 1) + [v]);
    PolyConcat(0, [u] + (Zeros(i - j - 1) + [v]), Zeros(j - 1) + [w]);
    var e, f := Emb(u as bv32), Emb(v as bv32);
    XPowLinear(XPow(e, (24 + t) * (i - j)), f, (24 + t) * j);
    XPowAdd(e, (24 + t) * (i - j), (24 + t) * j);
    MulAdd(24 + t, i - j, j);
  }

  lemma FirstValue(t: nat, u: Byte)
    requires t < 3 && IsSymbol(u)
    ensures Within(Poly(0, [u])) && Value(t, Poly(0, [u])) == Emb(u as bv32)
  {
    hide Step, Within, IsSymbol, Value, Sum, Emb, Root;
    ZeroWithin();
    StepBound(0, u);
    StepValue(t, 0, u);
    ZeroValue(t);
    ZeroRoot(t, Emb(u as bv32));
  }

  lemma ZeroWithin()
    ensures Within(0)
  {}

  lemma ZeroRoot(t: nat, e: bv10)
    requires t < 3
    ensures Sum(Root(t, 0), e) == e
  {}

  lemma EmbInjective(v: Byte)
    requires IsSymbol(v) && Emb(v as bv32) == 0
    ensures v == 0
  {}

  /** Three such symbols, not all of them zero, leave the state nonzero. */
  lemma ThreeNonzero(u: Byte, v: Byte, w: Byte, i: nat, j: nat)
    requires 0 < j < i < 1023 && IsSymbol(u) && IsSymbol(v) && IsSymbol(w) && (u != 0 || v != 0 || w != 0)
    ensures Within(Poly(0, Three(u, v, w, i, j))) && Poly(0, Three(u, v, w, i, j)) != 0
  {
    hide Within, IsSymbol, Value, XPow, Sum, Emb, Poly, Three;
    var e, f, g := Emb(u as bv32), Emb(v as bv32), Emb(w as bv32);
    ThreeValue(0, u, v, w, i, j);
    if Poly(0, Three(u, v, w, i, j)) == 0 {
      ZeroValue(0);
      ZeroValue(1);
      ZeroValue(2);
      ThreeValue(1, u, v, w, i, j);
      ThreeValue(2, u, v, w, i, j);
      XPowAdd(e, 24 * i, i);
      XPowAdd(e, 25 * i, i);
      XPowAdd(f, 24 * j, j);
      XPowAdd(f, 25 * j, j);
      NoThreeTerms(XPow(e, 24 * i), XPow(f, 24 * j), g, i, j);
      XPowZero(e, 24 * i);
      XPowZero(f, 24 * j);
      EmbInjective(u);
      EmbInjective(v);
      EmbInjective(w);
    }
  }

  /** The sequences agree except perhaps at three positions. */
  predicate AgreeExcept(a: seq<Byte>, b: seq<Byte>, p: nat, q: nat, r: nat) {
    |a| == |b| && forall k :: 0 <= k < |a| && k != p && k != q && k != r ==> a[k] == b[k]
  }

  lemma Differences(a: seq<Byte>, b: seq<Byte>, p: nat, q: nat, r: nat)
    requires p < q < r < |a| && Symbols(a) && Symbols(b) && a != b && AgreeExcept(a, b, p, q, r)
    ensures var x := XorAll(a, b);
            && IsSymbol(x[p]) && IsSymbol(x[q]) && IsSymbol(x[r]) && (x[p] != 0 || x[q] != 0 || x[r] != 0)
            && x == Zeros(p) + Three(x[p], x[q], x[r], r - p, r - q) + Zeros(|a| - r - 1)
  {
    hide Plus, IsSymbol;
    var x := XorAll(a, b);
    forall k | 0 <= k < |a| ensures IsSymbol(x[k]) && (x[k] == 0 <==> a[k] == b[k]) { XorDiffer(a[k], b[k]); }
    var k :| 0 <= k < |a| && a[k] != b[k];
    assert x[k] != 0;
  }

  lemma ThreeApart(a: seq<Byte>, b: seq<Byte>, p: nat, q: nat, r: nat)
    requires p < q < r < |a| && r - p < 1023 && Symbols(a) && Symbols(b) && a != b && AgreeExcept(a, b, p, q, r)
    ensures Poly(1, a) != Poly(1, b)
  {
    hide Add, Plus, Within, IsSymbol, Poly, Symbols, Three;
    var x, n := XorAll(a, b), |a| - r - 1;
    PolyLinear(1, 1, a, b);
    AddSelf(1);
    Differences(a, b, p, q, r);
    var mid := Three(x[p], x[q], x[r], r - p, r - q);
    PolyConcat(0, Zeros(p) + mid, Zeros(n));
    PolyConcat(0, Zeros(p), mid);
    PolyZeros(p);
    ThreeNonzero(x[p], x[q], x[r], r - p, r - q);
    PolyNonzero(Poly(0, mid), n);
    AddSelf(Poly(1, a));
  }

  /** Sequences of symbols that differ in up to three places within a window of 1023 have different checksums. */
  lemma ThreeDetected(a: seq<Byte>, b: seq<Byte>, p: nat, q: nat, r: nat)
    requires p <= q <= r < |a| && r - p < 1023 && Symbols(a) && Symbols(b) && a != b && AgreeExcept(a, b, p, q, r)
    ensures Poly(1, a) != Poly(1, b)
  {
    hide Poly, Symbols;
    if r - p < 6 {
      BurstDetected(a, b, p, r - p + 1);
    } else {
      ThreeApart(a, b, p, if q == p || q == r then p + 1 else q, r);
    }
  }
}
