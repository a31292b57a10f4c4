/** Golomb-coded sets (blockfilter.cpp), as in BIP 158: sorted hash values stored as Golomb-Rice coded differences. */
module Golomb {
  import opened Digits
  import opened Limbs
  import opened BitStreams

  lemma Two64()
    ensures Pow(2, 64) == TWO64
  {
    Pow2Const();
    PowAdd(2, 32, 32);
  }

  // ---------------------------------------------------------------------------------------------
  // Mapping a hash into a range
  // ---------------------------------------------------------------------------------------------

  /** The portable form, on 32-bit halves: the upper 64 bits of a 128-bit product, with no step overflowing 64 bits. */
  method MapIntoRange(x: nat, n: nat) returns (upper: nat)
    requires x < TWO64 && n < TWO64
    ensures upper == x * n / TWO64
  {
    var xHi, xLo, nHi, nLo := x / TWO32, x % TWO32, n / TWO32, n % TWO32;
    HalvesFit(xHi, nHi);
    HalvesFit(xHi, nLo);
    HalvesFit(xLo, nHi);
    HalvesFit(xLo, nLo);
    var ac, ad, bc, bd := xHi * nHi, xHi * nLo, xLo * nHi, xLo * nLo;
    var mid34 := bd / TWO32 + bc % TWO32 + ad % TWO32;
    assert ac < TWO64 && ad < TWO64 && bc < TWO64 && bd < TWO64 && mid34 < TWO64;
    upper := ac + bc / TWO32 + ad / TWO32 + mid34 / TWO32;
    Halves(x, n, xHi, xLo, nHi, nLo);
    UpperHalf(ac, ad, bc, bd);
    assert upper < TWO64 by { BelowProduct(x, n, upper); }
  }

  lemma HalvesFit(a: int, b: int)
    requires 0 <= a < TWO32 && 0 <= b < TWO32
    ensures 0 <= a * b < TWO64
  {
    MulMono(0, a, b);
    MulMono(a, TWO32 - 1, b);
  }

  lemma Halves(x: int, n: int, xh: int, xl: int, nh: int, nl: int)
    requires x == xh * TWO32 + xl && n == nh * TWO32 + nl
    ensures x * n == (xh * nh) * TWO64 + (xh * nl + xl * nh) * TWO32 + xl * nl
  {
    MulAdd(n, xh * TWO32, xl);
    MulAssoc(xh, TWO32, n);
    MulAdd(xh, nh * TWO32, nl);
    MulAssoc(xh, nh, TWO32);
    MulAdd(xl, nh * TWO32, nl);
    MulAssoc(xl, nh, TWO32);
  }

  lemma UpperHalf(ac: int, ad: int, bc: int, bd: int)
    requires 0 <= ac && 0 <= ad && 0 <= bc && 0 <= bd < TWO64
    ensures (ac * TWO64 + (ad + bc) * TWO32 + bd) / TWO64
            == ac + bc / TWO32 + ad / TWO32 + (bd / TWO32 + bc % TWO32 + ad % TWO32) / TWO32
  {}

  lemma BelowProduct(x: nat, n: nat, upper: nat)
    requires x < TWO64 && n < TWO64 && upper == x * n / TWO64
    ensures upper < TWO64
  {
    MulMono(0, x, n);
    MulMono(x, TWO64, n);
    MulMono(n + 1, TWO64, TWO64);
    QuotientBelow(x * n, TWO64, TWO64);
  }

  // ---------------------------------------------------------------------------------------------
  // Golomb-Rice codes
  // ---------------------------------------------------------------------------------------------

  function Ones(n: nat): (r: seq<bool>)
    ensures |r| == n && forall i :: 0 <= i < n ==> r[i]
  {
    seq(n, _ => true)
  }

  /** The quotient in unary, a zero, and the remainder in P bits. */
  function Code(P: nat, x: nat): seq<bool> { Ones(x / Pow(2, P)) + [false] + BitsOf(x, P) }

  datatype Decoded = Short | Got(x: nat, rest: seq<bool>)

  function Unary(bits: seq<bool>): Decoded {
    if bits == [] then Short
    else if !bits[0] then Got(0, bits[1..])
    else match Unary(bits[1..])
         case Short => Short
         case Got(q, rest) => Got(q + 1, rest)
  }

  function Decode(P: nat, bits: seq<bool>): Decoded {
    match Unary(bits)
    case Short => Short
    case Got(q, rest) =>
      if |rest| < P then Short else Got((Shl64(q, P) + Num(rest[..P])) % Pow(2, 64), rest[P..])
  }

  lemma {:induction false} UnaryOnes(n: nat, rest: seq<bool>)
    ensures Unary(Ones(n) + ([false] + rest)) == Got(n, rest)
  {
    var bits := Ones(n) + ([false] + rest);
    if n == 0 {
      assert bits[1..] == rest;
    } else {
      assert bits[1..] == Ones(n - 1) + ([false] + rest);
      UnaryOnes(n - 1, rest);
    }
  }

  /** Decoding undoes coding, whatever follows. */
  lemma DecodeCode(P: nat, x: nat, rest: seq<bool>)
    requires P < 64 && x < TWO64
    ensures Decode(P, Code(P, x) + rest) == Got(x, rest)
  {
    hide Pow, Num, BitsOf, Ones, Unary;
    var q := x / Pow(2, P);
    assert Code(P, x) + rest == Ones(q) + ([false] + (BitsOf(x, P) + rest));
    UnaryOnes(q, BitsOf(x, P) + rest);
    NumBits(x, P);
    DivModSplit(x, Pow(2, P));
    Two64();
    ModOf(q * Pow(2, P), q * Pow(2, P), TWO64, 0);
    ModOf(x, x, TWO64, 0);
    assert (BitsOf(x, P) + rest)[..P] == BitsOf(x, P) && (BitsOf(x, P) + rest)[P..] == rest;
  }

  lemma {:induction false} UnaryIs(bits: seq<bool>)
    requires Unary(bits).Got?
    ensures bits == Ones(Unary(bits).x) + ([false] + Unary(bits).rest)
  {
    if bits[0] {
      UnaryIs(bits[1..]);
      assert bits == [true] + bits[1..];
      assert Ones(Unary(bits).x) == [true] + Ones(Unary(bits[1..]).x);
    }
  }

  /** What a code stands for when its quotient is not cut off at 64 bits. */
  function Exact(P: nat, bits: seq<bool>): Decoded {
    match Unary(bits)
    case Short => Short
    case Got(q, rest) => if |rest| < P then Short else Got(q * Pow(2, P) + Num(rest[..P]), rest[P..])
  }

  /** Every bit string that decodes begins with the code of that value. */
  lemma CodeExact(P: nat, bits: seq<bool>)
    ensures Exact(P, bits).Got? == Decode(P, bits).Got?
    ensures Exact(P, bits).Got? ==>
              Exact(P, bits).rest == Decode(P, bits).rest && bits == Code(P, Exact(P, bits).x) + Exact(P, bits).rest
  {
    hide Pow, Num, BitsOf, Ones, Unary;
    if Exact(P, bits).Got? {
      UnaryIs(bits);
      var q, rest := Unary(bits).x, Unary(bits).rest;
      var low, x := rest[..P], Exact(P, bits).x;
      NumBound(low);
      DivModUnique(x, Pow(2, P), q, Num(low));
      NumBits(x, P);
      SameBits(BitsOf(x, P), low);
      assert rest == low + rest[P..];
      assert Ones(q) + ([false] + (low + rest[P..])) == (Ones(q) + [false] + low) + rest[P..];
    }
  }

  method GolombRiceEncode(w: BitWriter, P: nat, x: nat)
    requires w.Valid() && P < 64
    modifies w
    ensures w.Valid() && w.Bits() == old(w.Bits()) + Code(P, x)
  {
    hide Pow, BitsOf, Unpacked, Holds, Ones;
    var q := x / Pow(2, P);
    ghost var q0 := q;
    assert old(w.Bits()) + Ones(0) == old(w.Bits());
    while q > 0
      invariant 0 <= q <= q0 && w.Valid() && w.Bits() == old(w.Bits()) + Ones(q0 - q)
      decreases q
    {
      var nbits := if q <= 64 then q else 64;
      AllOnes(nbits);
      var _ := w.Write(TWO64 - 1, nbits);
      assert Ones(q0 - q) + Ones(nbits) == Ones(q0 - (q - nbits));
      q := q - nbits;
    }
    var _ := w.Write(0, 1);
    OneZero();
    var _ := w.Write(x, P);
    assert old(w.Bits()) + Ones(q0) + [false] + BitsOf(x, P) == old(w.Bits()) + (Ones(q0) + [false] + BitsOf(x, P));
  }

  lemma OneZero()
    ensures BitsOf(0, 1) == [false]
  {
    assert BitsOf(0, 0) == [];
  }

  /** The n low bits of a word of ones. */
  lemma AllOnes(n: nat)
    requires n <= 64
    ensures BitsOf(TWO64 - 1, n) == Ones(n)
  {
    hide BitsOf, Num, Ones, Pow;
    NumBits(TWO64 - 1, n);
    OnesNum(n);
    Two64();
    PowAdd(2, n, 64 - n);
    MaxMod(Pow(2, n), Pow(2, 64 - n));
    SameBits(BitsOf(TWO64 - 1, n), Ones(n));
  }

  lemma MaxMod(p: int, q: int)
    requires p > 0 && q > 0
    ensures (p * q - 1) % p == p - 1
  {
    MulAdd(p, q, -1);
    ModOf(p * q - 1, p - 1, p, q - 1);
  }

  lemma {:induction false} OnesNum(n: nat)
    ensures Num(Ones(n)) == Pow(2, n) - 1
  {
    if n > 0 {
      OnesNum(n - 1);
      assert Ones(n)[..n - 1] == Ones(n - 1);
    }
  }

  method GolombRiceDecode(r: BitReader, P: nat) returns (ok: bool, x: nat)
    requires r.Valid() && P < 64
    modifies r
    ensures r.Valid() && ok == Decode(P, old(r.Left())).Got?
    ensures ok ==> Decode(P, old(r.Left())) == Got(x, r.Left()) && r.offset > 0
  {
    hide Pow, Num, BitsOf, Unpacked, BitReader.Left;
    ghost var all := r.Left();
    var q: nat := 0;
    var bit;
    ghost var start := all;
    ok, bit := r.Read(1);
    if !ok { return false, 0; }
    FirstBit(start);
    while bit == 1
      invariant r.Valid() && start != [] && bit == (if start[0] then 1 else 0) && r.Left() == start[1..] && r.offset > 0
      invariant Unary(all) == match Unary(start) case Short => Short case Got(k, rest) => Got(k + q, rest)
      decreases |start|
    {
      q := q + 1;
      start := start[1..];
      ok, bit := r.Read(1);
      if !ok { return false, 0; }
      FirstBit(start);
    }
    var low;
    ok, low := r.Read(P);
    if !ok { return false, 0; }
    x := (Shl64(q, P) + low) % Pow(2, 64);
  }

  lemma FirstBit(bits: seq<bool>)
    requires bits != []
    ensures Num(bits[..1]) == if bits[0] then 1 else 0
  {
    assert bits[..1][..0] == [];
  }
}
