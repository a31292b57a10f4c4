/** The compact encoding of 256-bit targets (arith_uint256.cpp) and the work of a block (chain.cpp). */
module Compact {
  import opened Digits
  import opened Limbs
  import opened Arith

  type Bits32 = x: int | 0 <= x < 0x1_0000_0000

  // ---------------------------------------------------------------------------------------------
  // Decoding: N = mantissa * 256^(size - 3)
  // ---------------------------------------------------------------------------------------------

  function Size(c: Bits32): nat { c / 0x100_0000 }

  function Mantissa(c: Bits32): nat { c % 0x80_0000 }

  predicate SignBit(c: Bits32) { c / 0x80_0000 % 2 == 1 }

  /** The mantissa, or what is left of it when the exponent is negative. */
  function Word(c: Bits32): nat {
    if Size(c) <= 3 then Mantissa(c) / Pow(256, 3 - Size(c)) else Mantissa(c)
  }

  /** The number a compact value stands for, however large. */
  function Target(c: Bits32): nat {
    if Size(c) <= 3 then Word(c) else Mantissa(c) * Pow(256, Size(c) - 3)
  }

  predicate Negative(c: Bits32) { Word(c) != 0 && SignBit(c) }

  predicate Overflow(c: Bits32) {
    Word(c) != 0 && (Size(c) > 34 || (Word(c) > 0xff && Size(c) > 33) || (Word(c) > 0xffff && Size(c) > 32))
  }

  lemma Pow256(n: nat)
    ensures Pow(256, n) == Pow(2, 8 * n)
  {
    Pow2Const();
    PowPow(2, 8, n);
  }

  lemma Pow256Small()
    ensures Pow(256, 0) == 1 && Pow(256, 1) == 0x100 && Pow(256, 2) == 0x1_0000 && Pow(256, 3) == 0x100_0000
  {
    assert Pow(256, 2) == 256 * Pow(256, 1);
  }

  /** A product with a power of 256 reaches a higher power exactly when the factor reaches the quotient. */
  lemma Reaches(w: nat, j: nat, k: nat)
    ensures w * Pow(256, k) >= Pow(256, j + k) <==> w >= Pow(256, j)
  {
    hide Pow;
    PowAdd(256, j, k);
    if w >= Pow(256, j) {
      MulMono(Pow(256, j), w, Pow(256, k));
    } else {
      MulMono(w + 1, Pow(256, j), Pow(256, k));
      MulAdd(Pow(256, k), w, 1);
    }
  }

  lemma ReachesBeyond(w: nat, k: nat)
    requires k >= 32
    ensures w * Pow(256, k) >= Pow(256, 32) <==> w >= 1
  {
    hide Pow;
    PowMono(256, 32, k);
    if w >= 1 { MulMono(1, w, Pow(256, k)); }
  }

  lemma FitsBelow(w: nat, k: nat)
    requires k <= 29 && w < 0x80_0000
    ensures w * Pow(256, k) < Pow(256, 32)
  {
    hide Pow;
    Reaches(w, 3, k);
    Pow256Small();
    PowMono(256, 3 + k, 32);
  }

  /** The overflow flag is set exactly when the number does not fit in 256 bits. */
  lemma OverflowIff(c: Bits32)
    ensures Overflow(c) <==> Target(c) >= Pow(256, 32)
  {
    hide Pow;
    Pow256Small();
    var n, w := Size(c), Mantissa(c);
    if n <= 3 {
      WordSmall(c);
    } else if n <= 32 {
      FitsBelow(w, n - 3);
    } else if n == 33 {
      Reaches(w, 2, 30);
    } else if n == 34 {
      Reaches(w, 1, 31);
    } else {
      ReachesBeyond(w, n - 3);
    }
  }

  // ---------------------------------------------------------------------------------------------
  // Encoding
  // ---------------------------------------------------------------------------------------------

  /** The number of bytes of x. */
  function ByteLen(x: nat): nat { if x == 0 then 0 else 1 + ByteLen(x / 256) }

  lemma {:induction false} ByteLenBounds(x: nat)
    ensures x < Pow(256, ByteLen(x))
    ensures x > 0 ==> ByteLen(x) > 0 && Pow(256, ByteLen(x) - 1) <= x
  {
    if x > 0 {
      ByteLenBounds(x / 256);
      DivModSplit(x, 256);
    }
  }

  lemma ByteLenUnique(x: nat, n: nat)
    requires x < Pow(256, n) && (n > 0 ==> Pow(256, n - 1) <= x)
    ensures ByteLen(x) == n
  {
    hide Pow, ByteLen;
    ByteLenBounds(x);
    var m := ByteLen(x);
    if m < n { PowMono(256, m, n - 1); }
    if n < m { PowMono(256, n, m - 1); }
    if x == 0 { ByteLenZero(); }
  }

  lemma ByteLenZero()
    ensures ByteLen(0) == 0 && forall n: nat :: Pow(256, n) > 0
  {}

  /** The size written: one more byte than x has if its top bit would be read as a sign. */
  function SizeOf(x: nat): nat { ByteLen(2 * x) }

  function MantissaOf(x: nat): nat {
    if SizeOf(x) <= 3 then x * Pow(256, 3 - SizeOf(x)) else x / Pow(256, SizeOf(x) - 3)
  }

  function CompactOf(x: nat): nat { MantissaOf(x) + SizeOf(x) * 0x100_0000 }

  /** The low-order bytes that the encoding drops. */
  function Dropped(x: nat): nat { if SizeOf(x) <= 3 then 0 else SizeOf(x) - 3 }

  lemma SizeOfBounds(x: nat)
    ensures 2 * x < Pow(256, SizeOf(x)) && (x > 0 ==> SizeOf(x) > 0 && Pow(256, SizeOf(x) - 1) <= 2 * x)
    ensures x == 0 ==> SizeOf(x) == 0
    ensures x < Pow(256, 32) ==> SizeOf(x) <= 33
  {
    hide Pow, ByteLen;
    ByteLenBounds(2 * x);
    ByteLenZero();
    if x < Pow(256, 32) && SizeOf(x) > 33 {
      PowMono(256, 33, SizeOf(x) - 1);
      PowStep(256, 32);
    }
  }

  lemma MantissaBounds(x: nat)
    ensures MantissaOf(x) < 0x80_0000
    ensures SizeOf(x) > 3 ==> MantissaOf(x) >= 0x8000
  {
    hide Pow, ByteLen, SizeOf;
    SizeOfBounds(x);
    Pow256Small();
    var n := SizeOf(x);
    if n <= 3 {
      PowAdd(256, n, 3 - n);
      MulMono(2 * x + 1, Pow(256, n), Pow(256, 3 - n));
      MulAdd(Pow(256, 3 - n), 2 * x, 1);
      MulAssoc(2, x, Pow(256, 3 - n));
    } else {
      PowAdd(256, 3, n - 3);
      PowAdd(256, 2, n - 3);
      var p, m := Pow(256, n - 3), MantissaOf(x);
      DivModSplit(x, p);
      if m >= 0x80_0000 { MulMono(0x80_0000, m, p); }
      if m < 0x8000 {
        MulMono(m + 1, 0x8000, p);
        MulAdd(p, m, 1);
      }
    }
  }

  lemma Fields(m: nat, n: nat)
    requires m < 0x80_0000 && n < 256
    ensures var c := m + n * 0x100_0000; c < 0x1_0000_0000 && Size(c) == n && Mantissa(c) == m && !SignBit(c)
  {
    var c := m + n * 0x100_0000;
    DivModUnique(c, 0x100_0000, n, m);
    DivModUnique(c, 0x80_0000, 2 * n, m);
  }

  /** Encoding and decoding clears low-order bytes, raises no flag, and encoding again gives the same value. */
  lemma RoundTrip(x: nat)
    requires x < Pow(256, 32)
    ensures CompactOf(x) < 0x1_0000_0000
    ensures Target(CompactOf(x)) == x - x % Pow(256, Dropped(x))
    ensures !Negative(CompactOf(x)) && !Overflow(CompactOf(x))
    ensures CompactOf(Target(CompactOf(x))) == CompactOf(x)
  {
    hide Pow, ByteLen, SizeOf, MantissaOf;
    SizeOfBounds(x);
    MantissaBounds(x);
    Fields(MantissaOf(x), SizeOf(x));
    DecodeEncoded(x);
    OverflowIff(CompactOf(x));
    DivModSplit(x, Pow(256, Dropped(x)));
    Recoded(x, Target(CompactOf(x)));
  }

  lemma DecodeEncoded(x: nat)
    requires CompactOf(x) < 0x1_0000_0000 && Size(CompactOf(x)) == SizeOf(x) && Mantissa(CompactOf(x)) == MantissaOf(x)
    ensures Target(CompactOf(x)) == x - x % Pow(256, Dropped(x))
  {
    hide Pow, ByteLen, SizeOf;
    var n := SizeOf(x);
    if n <= 3 {
      var p := Pow(256, 3 - n);
      DivModUnique(x * p, p, x, 0);
      Pow256Small();
    } else {
      DivModSplit(x, Pow(256, n - 3));
    }
  }

  lemma Recoded(x: nat, y: nat)
    requires y == x - x % Pow(256, Dropped(x))
    ensures CompactOf(y) == CompactOf(x)
  {
    hide Pow, ByteLen, SizeOf;
    var n := SizeOf(x);
    if n <= 3 {
      Pow256Small();
    } else {
      var p, m := Pow(256, n - 3), MantissaOf(x);
      MantissaBounds(x);
      DivModSplit(x, p);
      SizeOfBounds(x);
      DivModUnique(y, p, m, 0);
      MulMono(0x8000, m, p);
      PowAdd(256, 2, n - 3);
      Pow256Small();
      SizeIs(y, n);
    }
  }

  lemma SizeIs(y: nat, n: nat)
    requires 2 * y < Pow(256, n) && (n > 0 ==> Pow(256, n - 1) <= 2 * y)
    ensures SizeOf(y) == n
  {
    ByteLenUnique(2 * y, n);
  }

  // ---------------------------------------------------------------------------------------------
  // The code
  // ---------------------------------------------------------------------------------------------

  method SetCompact(t: BaseUint, nCompact: Bits32) returns (fNegative: bool, fOverflow: bool)
    requires t.Valid() && t.WIDTH == 8
    modifies t.pn
    ensures t.V() == Target(nCompact) % Pow(256, 32)
    ensures fNegative == Negative(nCompact) && fOverflow == (Target(nCompact) >= Pow(256, 32))
    ensures !fOverflow ==> t.V() == Target(nCompact)
  {
    hide Pow, Value;
    var nSize := nCompact / 0x100_0000;
    var nWord := nCompact % 0x80_0000;
    Modulus(t);
    OverflowIff(nCompact);
    if nSize <= 3 {
      DivModSplit(nWord, Pow(2, 8 * (3 - nSize)));
      Pow256(3 - nSize);
      nWord := nWord / Pow(2, 8 * (3 - nSize));
      WordSmall(nCompact);
      t.AssignSmall(nWord);
    } else {
      t.AssignSmall(nWord);
      t.ShiftLeftAssign(8 * (nSize - 3));
      Pow256(nSize - 3);
    }
    fNegative := nWord != 0 && nCompact / 0x80_0000 % 2 == 1;
    fOverflow := nWord != 0 && (nSize > 34 || (nWord > 0xff && nSize > 33) || (nWord > 0xffff && nSize > 32));
    if !fOverflow { ModOf(Target(nCompact), Target(nCompact), Pow(256, 32), 0); }
  }

  lemma WordSmall(c: Bits32)
    requires Size(c) <= 3
    ensures Word(c) < 0x80_0000 < Pow(256, 32) && Word(c) % Pow(256, 32) == Word(c)
  {
    hide Pow;
    var p := Pow(256, 3 - Size(c));
    DivModSplit(Mantissa(c), p);
    MulMono(1, p, Word(c));
    Pow256Small();
    PowMono(256, 3, 32);
    ModOf(Word(c), Word(c), Pow(256, 32), 0);
  }

  lemma Modulus(t: BaseUint)
    requires t.WIDTH == 8
    ensures t.M() == Pow(256, 32)
  {
    hide Pow;
    Pow256(32);
    Pow2Const();
    PowPow(2, 32, 8);
  }

  method GetCompact(t: BaseUint, fNegative: bool) returns (nCompact: nat)
    requires t.Valid() && t.WIDTH == 8
    ensures nCompact == CompactOf(t.V()) + if fNegative && MantissaOf(t.V()) != 0 then 0x80_0000 else 0
    ensures nCompact < 0x1_0000_0000
  {
    hide Pow, Value, ByteLen, SizeOf, MantissaOf, Or;
    ghost var x := t.V();
    t.Bounded();
    Modulus(t);
    var bits := t.Bits();
    var nSize := (bits + 7) / 8;
    BytesOfBits(x, bits);
    if nSize <= 3 {
      var low := t.GetLow64();
      LowIsAll(x, nSize);
      nCompact := (low * Pow(2, 8 * (3 - nSize))) % BASE;
    } else {
      var bn := new BaseUint.Copy(t);
      bn.ShiftRightAssign(8 * (nSize - 3));
      var low := bn.GetLow64();
      HighIsAll(x, nSize);
      nCompact := low % BASE;
    }
    MantissaFrom(x, nSize, nCompact);
    if nCompact / 0x80_0000 % 2 == 1 {
      nCompact := nCompact / 256;
      nSize := nSize + 1;
    }
    assert nCompact == MantissaOf(x) && nSize == SizeOf(x);
    MantissaBounds(x);
    SizeOfBounds(x);
    assert nCompact < 0x80_0000;
    assert nSize < 256;
    WithSize(nCompact, nSize);
    nCompact := Or(nCompact, nSize * 0x100_0000);
    Fields(MantissaOf(x), SizeOf(x));
    if fNegative && nCompact % 0x80_0000 != 0 {
      // Bit 23 is clear, so setting it adds.
      nCompact := nCompact + 0x80_0000;
    }
  }

  lemma WithSize(m: nat, n: nat)
    requires m < 0x80_0000
    ensures Or(m, n * 0x100_0000) == m + n * 0x100_0000
  {
    hide Or;
    Pow2Const();
    ModOf(n * 0x100_0000, 0, 0x100_0000, n);
    OrDisjoint(n * 0x100_0000, m, 24);
  }

  lemma BytesOfBits(x: nat, bits: nat)
    requires (bits == 0 ==> x == 0) && (bits > 0 ==> Pow(2, bits - 1) <= x < Pow(2, bits))
    ensures ByteLen(x) == (bits + 7) / 8
  {
    hide Pow, ByteLen;
    var n := (bits + 7) / 8;
    ByteLenZero();
    if bits > 0 {
      Pow256(n);
      Pow256(n - 1);
      PowMono(2, bits, 8 * n);
      PowMono(2, 8 * (n - 1), bits - 1);
    }
    ByteLenUnique(x, n);
  }

  /** A number of at most three bytes, shifted up to three bytes. */
  lemma LowIsAll(x: nat, n: nat)
    requires n <= 3 && ByteLen(x) == n
    ensures x % (BASE * BASE) == x && (x * Pow(2, 8 * (3 - n))) % BASE == x * Pow(256, 3 - n) < 0x100_0000
  {
    hide Pow, ByteLen;
    ByteLenBounds(x);
    Pow256(3 - n);
    Pow256Small();
    PowAdd(256, n, 3 - n);
    var p := Pow(256, 3 - n);
    MulMono(x + 1, Pow(256, n), p);
    MulAdd(p, x, 1);
    PowMono(256, n, 3);
    MulMono(0, x, p);
    ModOf(x, x, BASE * BASE, 0);
    ModOf(x * p, x * p, BASE, 0);
  }

  /** The top three bytes of a longer number. */
  lemma HighIsAll(x: nat, n: nat)
    requires n > 3 && ByteLen(x) == n
    ensures var y := x / Pow(2, 8 * (n - 3));
            y == x / Pow(256, n - 3) < 0x100_0000 && y % (BASE * BASE) % BASE == y
  {
    hide Pow, ByteLen;
    ByteLenBounds(x);
    Pow256(n - 3);
    Pow256Small();
    PowAdd(256, 3, n - 3);
    QuotientBelow(x, Pow(256, 3), Pow(256, n - 3));
    var y := x / Pow(256, n - 3);
    ModOf(y, y, BASE * BASE, 0);
    ModOf(y, y, BASE, 0);
  }

  /** The sign bit of the three bytes decides whether the size grows. */
  lemma MantissaFrom(x: nat, n: nat, m: nat)
    requires ByteLen(x) == n && m < 0x100_0000
    requires m == if n <= 3 then x * Pow(256, 3 - n) else x / Pow(256, n - 3)
    ensures m / 0x80_0000 % 2 == 1 ==> n + 1 == SizeOf(x) && m / 256 == MantissaOf(x)
    ensures m / 0x80_0000 % 2 != 1 ==> n == SizeOf(x) && m == MantissaOf(x)
  {
    hide Pow, ByteLen, SizeOf, MantissaOf;
    ByteLenBounds(x);
    ByteLenZero();
    Pow256Small();
    if n <= 3 {
      var p := Pow(256, 3 - n);
      PowAdd(256, n, 3 - n);
      if m >= 0x80_0000 { ShortGrows(x, n, m, p); } else { ShortStays(x, n, m, p); }
    } else {
      var p := Pow(256, n - 3);
      PowAdd(256, 3, n - 3);
      DivModSplit(x, p);
      if m >= 0x80_0000 { LongGrows(x, n, m, p); } else { LongStays(x, n, m, p); }
    }
  }

  lemma ShortGrows(x: nat, n: nat, m: nat, p: nat)
    requires n <= 3 && p == Pow(256, 3 - n) && Pow(256, n) * p == 0x100_0000 && x < Pow(256, n)
             && m == x * p >= 0x80_0000
    ensures SizeOf(x) == n + 1 && MantissaOf(x) == m / 256
  {
    hide Pow, ByteLen, SizeOf;
    PowStep(256, n);
    if 2 * x < Pow(256, n) {
      MulMono(2 * x + 1, Pow(256, n), p);
      MulAdd(p, 2 * x, 1);
      MulAssoc(2, x, p);
    }
    SizeIs(x, n + 1);
    Pow256Small();
    if n < 3 {
      PowStep(256, 2 - n);
      MulAssoc(x, 256, Pow(256, 2 - n));
      DivModUnique(m, 256, x * Pow(256, 2 - n), 0);
    }
  }

  lemma ShortStays(x: nat, n: nat, m: nat, p: nat)
    requires n <= 3 && p == Pow(256, 3 - n) && Pow(256, n) * p == 0x100_0000 && m == x * p < 0x80_0000
    requires n > 0 ==> Pow(256, n - 1) <= x
    requires n == 0 ==> x == 0
    ensures SizeOf(x) == n && MantissaOf(x) == m
  {
    hide Pow, ByteLen, SizeOf;
    if 2 * x >= Pow(256, n) {
      MulMono(Pow(256, n), 2 * x, p);
      MulAssoc(2, x, p);
    }
    SizeIs(x, n);
  }

  lemma LongGrows(x: nat, n: nat, m: nat, p: nat)
    requires n > 3 && p == Pow(256, n - 3) && Pow(256, n) == 0x100_0000 * p && x < Pow(256, n)
             && m == x / p >= 0x80_0000
    ensures SizeOf(x) == n + 1 && MantissaOf(x) == m / 256
  {
    hide Pow, ByteLen, SizeOf;
    DivModSplit(x, p);
    MulMono(0x80_0000, m, p);
    PowStep(256, n);
    SizeIs(x, n + 1);
    DivDiv(x, p, 256);
    PowStep(256, n - 3);
  }

  lemma LongStays(x: nat, n: nat, m: nat, p: nat)
    requires n > 3 && p == Pow(256, n - 3) && Pow(256, n) == 0x100_0000 * p && m == x / p < 0x80_0000
    requires Pow(256, n - 1) <= x
    ensures SizeOf(x) == n && MantissaOf(x) == m
  {
    hide Pow, ByteLen, SizeOf;
    DivModSplit(x, p);
    MulMono(m + 1, 0x80_0000, p);
    MulAdd(p, m, 1);
    SizeIs(x, n);
  }

  // ---------------------------------------------------------------------------------------------
  // Block proof
  // ---------------------------------------------------------------------------------------------

  /** The work of a block: the expected number of hashes to reach its target. */
  method GetBlockProof(nBits: Bits32) returns (proof: BaseUint)
    ensures fresh(proof) && fresh(proof.pn) && proof.Valid() && proof.WIDTH == 8
    ensures proof.V() == if Negative(nBits) || Target(nBits) >= Pow(256, 32) || Target(nBits) == 0 then 0
                         else Pow(256, 32) / (Target(nBits) + 1)
  {
    hide Pow, Value, Target, Negative;
    var bnTarget := new BaseUint(8);
    Modulus(bnTarget);
    var fNegative, fOverflow := SetCompact(bnTarget, nBits);
    var isZero := bnTarget.EqualTo(0);
    if fNegative || fOverflow || isZero {
      proof := new BaseUint(8);
      return;
    }
    ghost var t, m := Target(nBits), bnTarget.M();
    TargetEven(nBits);
    ProofArith(t, m);
    proof := bnTarget.Complement();
    var divisor := new BaseUint.Copy(bnTarget);
    var one := new BaseUint(8);
    one.AssignSmall(1);
    divisor.AddAssign(one);
    var ok, rem := proof.DivAssign(divisor);
    proof.AddAssign(one);
  }

  /** No target is one less than 2^256. */
  lemma TargetEven(c: Bits32)
    ensures Target(c) != Pow(256, 32) - 1
  {
    hide Pow;
    Pow256Small();
    PowAdd(256, 3, 29);
    PowStep(256, 31);
    if Size(c) <= 3 {
      WordSmall(c);
    } else {
      PowStep(256, Size(c) - 4);
      MulAssoc(Mantissa(c), 256, Pow(256, Size(c) - 4));
    }
  }

  /** 2^256 / (t + 1), computed without 2^256. */
  lemma ProofArith(t: int, m: int)
    requires 0 < t < m - 1
    ensures (t + 1) % m == t + 1
    ensures (m - 1 - t) / (t + 1) + 1 == m / (t + 1)
    ensures ((m - 1 - t) / (t + 1) + 1) % m == m / (t + 1)
  {
    var d := t + 1;
    ModOf(d, d, m, 0);
    DivModSplit(m - d, d);
    var q := (m - d) / d;
    MulAdd(d, q, 1);
    DivModUnique(m, d, q + 1, (m - d) % d);
    MulMono(1, d, q + 1);
    MulMono(2, d, q + 1);
    ModOf(q + 1, q + 1, m, 0);
  }
}
