/** Bech32 strings (bech32.cpp), as in BIP 173: a human-readable part, a separator, and five-bit symbols of which the
    last six are a checksum over GF(32). */
module Bech32 {
  type Byte = bv8

  // ---------------------------------------------------------------------------------------------
  // The checksum polynomial
  // ---------------------------------------------------------------------------------------------

  /** Addition in the field, kept as a named operation. */
  function Add(a: bv32, b: bv32): bv32 { a ^ b }

  function Plus(v: Byte, w: Byte): Byte { v ^ w }

  lemma AddIs(a: bv32, b: bv32)
    ensures Add(a, b) == a ^ b
  {}

  lemma XorAssoc(a: bv32, b: bv32, c: bv32)
    ensures (a ^ b) ^ c == a ^ (b ^ c) && a ^ b == b ^ a && a ^ a == 0 && a ^ 0 == a
  {}

  lemma AddAssoc(a: bv32, b: bv32, c: bv32)
    ensures Add(Add(a, b), c) == Add(a, Add(b, c)) && Add(a, b) == Add(b, a)
  {
    hide Add;
    AddIs(a, b);
    AddIs(b, a);
    AddIs(b, c);
    AddIs(Add(a, b), c);
    AddIs(a, Add(b, c));
    XorAssoc(a, b, c);
  }

  lemma AddSelf(a: bv32)
    ensures Add(a, a) == 0 && Add(a, 0) == a && Add(0, a) == a
  {}

  lemma AddPairs(a: bv32, b: bv32, c: bv32, d: bv32)
    ensures Add(Add(a, b), Add(c, d)) == Add(Add(a, c), Add(b, d))
  {
    hide Add;
    AddAssoc(a, b, Add(c, d));
    AddAssoc(b, c, d);
    AddAssoc(c, b, d);
    AddAssoc(a, c, Add(b, d));
  }

  /** The multiples of the generator for the bits of the coefficient that is shifted out. */
  function LowTaps(c0: bv32): bv32 { (if c0 & 1 != 0 then 0x3b6a57b2 else 0) ^ (if c0 & 2 != 0 then 0x26508e6d else 0) }

  function HighTaps(c0: bv32): bv32 {
    (if c0 & 4 != 0 then 0x1ea119fa else 0) ^ (if c0 & 8 != 0 then 0x3d4233dd else 0)
  }

  function LastTap(c0: bv32): bv32 { if c0 & 16 != 0 then 0x2a1462b3 else 0 }

  function Taps(c0: bv32): bv32 { Add(Add(LowTaps(c0), HighTaps(c0)), LastTap(c0)) }

  function Top(c: bv32): bv32 { c >> 25 }

  function Shift(c: bv32, v: Byte): bv32 { ((c & 0x1ffffff) << 5) ^ (v as bv32) }

  /** One step of PolyMod: multiply by x, add the symbol, and reduce by the generator. */
  function Step(c: bv32, v: Byte): bv32 { Add(Shift(c, v), Taps(Top(c))) }

  const LIMIT: bv32 := 0x4000_0000

  predicate Within(c: bv32) { c < LIMIT }

  predicate IsSymbol(v: Byte) { v < 32 }

  lemma LowTapsLinear(x: bv32, y: bv32)
    ensures LowTaps(Add(x, y)) == Add(LowTaps(x), LowTaps(y))
  {}

  lemma HighTapsLinear(x: bv32, y: bv32)
    ensures HighTaps(Add(x, y)) == Add(HighTaps(x), HighTaps(y))
  {}

  lemma LastTapLinear(x: bv32, y: bv32)
    ensures LastTap(Add(x, y)) == Add(LastTap(x), LastTap(y))
  {}

  lemma TapsLinear(x: bv32, y: bv32)
    ensures Taps(Add(x, y)) == Add(Taps(x), Taps(y))
  {
    hide LowTaps, HighTaps, LastTap, Add;
    LowTapsLinear(x, y);
    HighTapsLinear(x, y);
    LastTapLinear(x, y);
    AddPairs(LowTaps(x), LowTaps(y), HighTaps(x), HighTaps(y));
    AddPairs(Add(LowTaps(x), HighTaps(x)), Add(LowTaps(y), HighTaps(y)), LastTap(x), LastTap(y));
  }

  lemma TopLinear(c: bv32, d: bv32)
    ensures Top(Add(c, d)) == Add(Top(c), Top(d))
  {}

  lemma ShiftLinear(c: bv32, d: bv32, v: Byte, w: Byte)
    ensures Shift(Add(c, d), Plus(v, w)) == Add(Shift(c, v), Shift(d, w))
  {}

  /** A step is linear over GF(2). */
  lemma StepLinear(c: bv32, d: bv32, v: Byte, w: Byte)
    ensures Step(Add(c, d), Plus(v, w)) == Add(Step(c, v), Step(d, w))
  {
    hide Taps, Top, Shift, Add, Plus;
    ShiftLinear(c, d, v, w);
    TopLinear(c, d);
    TapsLinear(Top(c), Top(d));
    AddPairs(Shift(c, v), Shift(d, w), Taps(Top(c)), Taps(Top(d)));
  }

  lemma AddWithin(a: bv32, b: bv32)
    requires Within(a) && Within(b)
    ensures Within(Add(a, b))
  {}

  lemma PartsWithin(c: bv32, c0: bv32, v: Byte)
    requires IsSymbol(v)
    ensures Within(Shift(c, v)) && Within(LowTaps(c0)) && Within(HighTaps(c0)) && Within(LastTap(c0))
  {}

  lemma StepBound(c: bv32, v: Byte)
    requires IsSymbol(v)
    ensures Within(Step(c, v))
  {
    hide Within, Add, LowTaps, HighTaps, LastTap, Shift, Top;
    PartsWithin(c, Top(c), v);
    AddWithin(LowTaps(Top(c)), HighTaps(Top(c)));
    AddWithin(Add(LowTaps(Top(c)), HighTaps(Top(c))), LastTap(Top(c)));
    AddWithin(Shift(c, v), Taps(Top(c)));
  }

  function LowSymbol(c: bv32): bv32 { c & 31 }

  lemma LowSymbolLinear(a: bv32, b: bv32)
    ensures LowSymbol(Add(a, b)) == Add(LowSymbol(a), LowSymbol(b))
  {}

  /** The constant coefficients of the multiples of the generator are independent. */
  lemma TapsIndependent(c0: bv32)
    requires c0 < 32 && Add(Add(LowSymbol(LowTaps(c0)), LowSymbol(HighTaps(c0))), LowSymbol(LastTap(c0))) == 0
    ensures c0 == 0
  {}

  lemma AddCancels(a: bv32, b: bv32)
    requires Add(a, b) == 0
    ensures a == b
  {}

  lemma ShiftLow(c: bv32)
    ensures LowSymbol(Shift(c, 0)) == 0 && (Within(c) ==> Top(c) < 32)
    ensures Top(c) == 0 && Shift(c, 0) == 0 ==> c == 0
  {}

  lemma NoTaps()
    ensures LowTaps(0) == 0 && HighTaps(0) == 0 && LastTap(0) == 0 && Taps(0) == 0
  {}

  /** Multiplication by x is invertible: a difference never dies out. */
  lemma StepInjective(d: bv32)
    requires Within(d) && Step(d, 0) == 0
    ensures d == 0
  {
    hide Within, Add, LowTaps, HighTaps, LastTap, Shift, Top, LowSymbol;
    var c0 := Top(d);
    ShiftLow(d);
    AddCancels(Shift(d, 0), Taps(c0));
    LowSymbolLinear(LowTaps(c0), HighTaps(c0));
    LowSymbolLinear(Add(LowTaps(c0), HighTaps(c0)), LastTap(c0));
    TapsIndependent(c0);
    NoTaps();
  }

  lemma ShiftRoom(d: bv32, w: Byte)
    requires d < 0x200_0000
    ensures Top(d) == 0 && Shift(d, w) == (d << 5) ^ (w as bv32)
  {}

  /** Nothing is reduced while there is room. */
  lemma StepSmall(d: bv32, w: Byte)
    requires d < 0x200_0000
    ensures Step(d, w) == (d << 5) ^ (w as bv32)
  {
    hide Add, LowTaps, HighTaps, LastTap, Shift, Top;
    ShiftRoom(d, w);
    NoTaps();
    AddSelf(Shift(d, w));
  }

  function Poly(c: bv32, vs: seq<Byte>): bv32
    decreases |vs|
  {
    if vs == [] then c else Poly(Step(c, vs[0]), vs[1..])
  }

  predicate Symbols(vs: seq<Byte>) { forall i :: 0 <= i < |vs| ==> IsSymbol(vs[i]) }

  function Zeros(n: nat): (r: seq<Byte>)
    ensures |r| == n && forall i :: 0 <= i < n ==> r[i] == 0
  {
    seq(n, _ => 0)
  }

  function XorAll(vs: seq<Byte>, ws: seq<Byte>): (r: seq<Byte>)
    requires |vs| == |ws|
    ensures |r| == |vs| && forall i :: 0 <= i < |r| ==> r[i] == Plus(vs[i], ws[i])
  {
    seq(|vs|, i requires 0 <= i < |vs| => Plus(vs[i], ws[i]))
  }

  lemma {:induction false} PolyBound(c: bv32, vs: seq<Byte>)
    requires Within(c) && Symbols(vs)
    ensures Within(Poly(c, vs))
    decreases |vs|
  {
    hide Step, Within, IsSymbol;
    if vs != [] {
      StepBound(c, vs[0]);
      PolyBound(Step(c, vs[0]), vs[1..]);
    }
  }

  lemma {:induction false} PolyConcat(c: bv32, a: seq<Byte>, b: seq<Byte>)
    ensures Poly(c, a + b) == Poly(Poly(c, a), b)
    decreases |a|
  {
    hide Step;
    if a == [] {
      assert a + b == b;
    } else {
      assert (a + b)[1..] == a[1..] + b;
      PolyConcat(Step(c, a[0]), a[1..], b);
    }
  }

  /** The whole computation is linear. */
  lemma {:induction false} PolyLinear(c: bv32, d: bv32, vs: seq<Byte>, ws: seq<Byte>)
    requires |vs| == |ws|
    ensures Poly(Add(c, d), XorAll(vs, ws)) == Add(Poly(c, vs), Poly(d, ws))
    decreases |vs|
  {
    hide Step, Add, Plus;
    if vs != [] {
      StepLinear(c, d, vs[0], ws[0]);
      assert XorAll(vs, ws)[1..] == XorAll(vs[1..], ws[1..]);
      PolyLinear(Step(c, vs[0]), Step(d, ws[0]), vs[1..], ws[1..]);
    }
  }

  lemma {:induction false} PolyNonzero(d: bv32, n: nat)
    requires Within(d) && d != 0
    ensures Poly(d, Zeros(n)) != 0
    decreases n
  {
    hide Step, Within, IsSymbol;
    ZeroSymbol();
    if n > 0 {
      if Step(d, 0) == 0 { StepInjective(d); }
      StepBound(d, 0);
      assert Zeros(n)[1..] == Zeros(n - 1);
      PolyNonzero(Step(d, 0), n - 1);
    }
  }

  function Room(n: nat): bv32 {
    if n == 0 then 1 else if n == 1 then 0x20 else if n == 2 then 0x400 else if n == 3 then 0x8000
    else if n == 4 then 0x10_0000 else if n == 5 then 0x200_0000 else LIMIT
  }

  /** The state holds at most n symbols. */
  predicate Fits(d: bv32, n: nat) { d < Room(n) }

  /** Nothing is reduced while there is room. */
  lemma FitsStep(d: bv32, w: Byte, n: nat)
    requires n < 6 && Fits(d, n) && IsSymbol(w)
    ensures Fits(Step(d, w), n + 1) && (d != 0 || w != 0 ==> Step(d, w) != 0)
  {
    hide Step;
    StepSmall(d, w);
    if n == 0 {} else if n == 1 {} else if n == 2 {} else if n == 3 {} else if n == 4 {} else {}
  }

  ghost predicate SomeNonzero(ws: seq<Byte>) { exists i :: 0 <= i < |ws| && ws[i] != 0 }

  lemma NonzeroRest(ws: seq<Byte>)
    requires ws != [] && ws[0] == 0 && SomeNonzero(ws)
    ensures SomeNonzero(ws[1..])
  {
    var i :| 0 <= i < |ws| && ws[i] != 0;
    assert ws[1..][i - 1] != 0;
  }

  /** Up to six symbols fit into the state without being reduced, so a nonzero one leaves it nonzero. */
  lemma {:induction false} PolySmall(d: bv32, ws: seq<Byte>, n: nat)
    requires n + |ws| <= 6 && Fits(d, n) && Symbols(ws)
    ensures Fits(Poly(d, ws), n + |ws|)
    ensures d != 0 || SomeNonzero(ws) ==> Poly(d, ws) != 0
    decreases |ws|
  {
    hide Step, Fits, IsSymbol;
    if ws != [] {
      FitsStep(d, ws[0], n);
      PolySmall(Step(d, ws[0]), ws[1..], n + 1);
      if ws[0] == 0 && SomeNonzero(ws) { NonzeroRest(ws); }
    }
  }

  lemma ZeroSymbol()
    ensures IsSymbol(0) && Fits(0, 0)
  {}

  /** Sequences that differ only within six consecutive symbols have different checksums; in particular those that
      differ in one symbol. */
  lemma BurstDetected(a: seq<Byte>, b: seq<Byte>, at: nat, len: nat)
    requires |a| == |b| && at + len <= |a| && len <= 6 && Symbols(a) && Symbols(b) && a != b
    requires forall i :: 0 <= i < |a| && (i < at || i >= at + len) ==> a[i] == b[i]
    ensures Poly(1, a) != Poly(1, b)
  {
    hide Step, Fits, Add, Plus, Within, IsSymbol, Poly, Symbols, SomeNonzero;
    var x := XorAll(a, b);
    PolyLinear(1, 1, a, b);
    AddSelf(1);
    DifferInside(a, b, at, len);
    var mid, n := x[at..at + len], |a| - at - len;
    assert x == Zeros(at) + (mid + Zeros(n));
    PolyConcat(0, Zeros(at), mid + Zeros(n));
    PolyZeros(at);
    PolyConcat(0, mid, Zeros(n));
    ZeroSymbol();
    PolySmall(0, mid, 0);
    FitsWithin(Poly(0, mid), len);
    PolyNonzero(Poly(0, mid), n);
    AddSelf(Poly(1, a));
  }

  lemma FitsWithin(d: bv32, n: nat)
    requires n <= 6 && Fits(d, n)
    ensures Within(d)
  {}

  lemma XorDiffer(v: Byte, w: Byte)
    requires IsSymbol(v) && IsSymbol(w)
    ensures IsSymbol(Plus(v, w)) && (Plus(v, w) == 0 <==> v == w)
  {}

  lemma DifferInside(a: seq<Byte>, b: seq<Byte>, at: nat, len: nat)
    requires |a| == |b| && at + len <= |a| && Symbols(a) && Symbols(b) && a != b
    requires forall i :: 0 <= i < |a| && (i < at || i >= at + len) ==> a[i] == b[i]
    ensures var x := XorAll(a, b);
            && SomeNonzero(x[at..at + len]) && Symbols(x[at..at + len])
            && (forall i :: 0 <= i < |a| && (i < at || i >= at + len) ==> x[i] == 0)
  {
    hide Plus, IsSymbol;
    var x := XorAll(a, b);
    forall i | 0 <= i < |a| ensures IsSymbol(x[i]) && (x[i] == 0 <==> a[i] == b[i]) { XorDiffer(a[i], b[i]); }
    var i :| 0 <= i < |a| && a[i] != b[i];
    assert x[at..at + len][i - at] != 0;
  }

  lemma {:induction false} PolyZeros(n: nat)
    ensures Poly(0, Zeros(n)) == 0
  {
    hide Step;
    if n > 0 {
      assert Zeros(n)[1..] == Zeros(n - 1);
      StepZero();
      PolyZeros(n - 1);
    }
  }

  lemma StepZero()
    ensures Step(0, 0) == 0
  {
    hide Step;
    StepSmall(0, 0);
  }
}
