/** Bit-level facts about 32-bit limbs, on natural numbers: an `and` with 2^k - 1 is a remainder, a right shift a
    quotient. */
module Limbs {
  import opened Digits

  const BASE: nat := 0x1_0000_0000

  type Limb = x: int | 0 <= x < 0x1_0000_0000

  /** Bitwise or. */
  function Or(x: nat, y: nat): nat
    decreases x + y
  {
    if x == 0 && y == 0 then 0
    else 2 * Or(x / 2, y / 2) + (if x % 2 == 1 || y % 2 == 1 then 1 else 0)
  }

  lemma {:induction false} OrZero(x: nat)
    ensures Or(x, 0) == x && Or(0, x) == x
  {
    if x > 0 { OrZero(x / 2); }
  }

  /** Or adds when the operands have no bit in common. */
  lemma {:induction false} OrDisjoint(x: nat, y: nat, s: nat)
    requires x % Pow(2, s) == 0 && y < Pow(2, s)
    ensures Or(x, y) == x + y && Or(y, x) == x + y
    decreases s
  {
    if s == 0 {
      OrZero(x);
    } else if x == 0 {
      OrZero(y);
    } else {
      var p := Pow(2, s - 1);
      var k := x / Pow(2, s);
      assert x == k * (2 * p);
      assert x == 2 * (k * p) by { MulAssoc(k, 2, p); }
      ModOf(k * p, 0, p, k);
      OrDisjoint(x / 2, y / 2, s - 1);
    }
  }

  /** The low limb and the carry-out of a limb shifted left by s bits. */
  function Low(x: nat, s: nat): nat { (x * Pow(2, s)) % BASE }

  function High(x: nat, s: nat): nat { (x * Pow(2, s)) / BASE }

  /** Multiplying x < p * q by p splits it at q. */
  lemma ScaleSplit(x: int, p: int, q: int)
    requires p > 0 && q > 0 && 0 <= x < p * q
    ensures (x * p) / (p * q) == x / q && (x * p) % (p * q) == (x % q) * p && x / q < p
  {
    QuotientBelow(x, p, q);
    var h, l := x / q, x % q;
    DivModSplit(x, q);
    ScaleSum(x, p, q, h, l);
    DivModUnique(x * p, p * q, h, l * p);
  }

  lemma ScaleSum(x: int, p: int, q: int, h: int, l: int)
    requires x == h * q + l && 0 <= l < q && p > 0
    ensures x * p == h * (p * q) + l * p && 0 <= l * p && l * p + p <= p * q
  {
    MulMono(0, l, p);
    MulAdd(p, h * q, l);
    MulAssoc(h, p, q);
    MulMono(l + 1, q, p);
    MulAdd(p, l, 1);
  }

  lemma QuotientBelow(x: int, p: int, q: int)
    requires q > 0 && 0 <= x < p * q
    ensures 0 <= x / q < p
  {
    var h := x / q;
    DivModSplit(x, q);
    if h >= p { MulMono(p, h, q); }
  }

  lemma PowSplit(s: nat)
    requires s <= 32
    ensures Pow(2, s) * Pow(2, 32 - s) == BASE
  {
    PowAdd(2, s, 32 - s);
    Pow2Const();
  }

  lemma ShiftSplit(x: Limb, s: nat)
    requires s <= 32
    ensures x * Pow(2, s) == Low(x, s) + High(x, s) * BASE
    ensures High(x, s) < Pow(2, s) && Low(x, s) % Pow(2, s) == 0
    ensures High(x, s) == x / Pow(2, 32 - s)
    ensures Low(x, s) == (x % Pow(2, 32 - s)) * Pow(2, s)
  {
    hide Pow;
    var p, q := Pow(2, s), Pow(2, 32 - s);
    PowSplit(s);
    ScaleSplit(x, p, q);
    ModOf((x % q) * p, 0, p, x % q);
  }

  /** The halves a limb contributes when it is shifted right by s bits. */
  lemma ShiftRightSplit(x: Limb, s: nat)
    requires s < 32
    ensures x / Pow(2, s) < Pow(2, 32 - s)
    ensures Low(x, 32 - s) % Pow(2, 32 - s) == 0
    ensures Low(x, 32 - s) == (x % Pow(2, s)) * Pow(2, 32 - s)
  {
    hide Pow, Low, High;
    PowSplit(s);
    ShiftSplit(x, 32 - s);
    QuotientBelow(x, Pow(2, 32 - s), Pow(2, s));
  }

  function Limb0(s: seq<Limb>, i: int): Limb { if 0 <= i < |s| then s[i] else 0 }

  function LeftCell(a: seq<Limb>, k: nat, s: nat, j: nat): nat {
    Low(Limb0(a, j - k), s) + High(Limb0(a, j - k - 1), s)
  }

  function RightCell(a: seq<Limb>, k: nat, s: nat, j: nat): nat
    requires s < 32
  {
    Limb0(a, j + k) / Pow(2, s) + if s == 0 then 0 else Low(Limb0(a, j + k + 1), 32 - s)
  }

  /** The limbs of a left shift by k limbs and s bits. */
  function ShiftLeft(a: seq<Limb>, k: nat, s: nat): seq<nat> {
    seq(|a|, j requires 0 <= j < |a| => LeftCell(a, k, s, j))
  }

  /** The limbs of a right shift by k limbs and s bits. */
  function ShiftRight(a: seq<Limb>, k: nat, s: nat): seq<nat>
    requires s < 32
  {
    seq(|a|, j requires 0 <= j < |a| => RightCell(a, k, s, j))
  }

  // ---------------------------------------------------------------------------------------------
  // What the shifted limbs stand for
  // ---------------------------------------------------------------------------------------------

  function LeftCells(a: seq<Limb>, s: nat, n: nat): seq<nat> {
    seq(n, j requires 0 <= j < n => LeftCell(a, 0, s, j))
  }

  lemma {:induction false} LeftCellsValue(a: seq<Limb>, s: nat, n: nat)
    requires s < 32 && n <= |a|
    ensures Value(BASE, LeftCells(a, s, n)) + High(Limb0(a, n - 1), s) * Pow(BASE, n) == Value(BASE, a[..n]) * Pow(2, s)
    ensures Proper(BASE, LeftCells(a, s, n))
  {
    hide Pow, Value, Low, High;
    if n == 0 {
      ShiftSplit(0, s);
      LeftNothing(s);
    } else {
      var m := n - 1;
      LeftCellsValue(a, s, m);
      var x, c, p := a[m], LeftCell(a, 0, s, m), Pow(BASE, m);
      assert LeftCells(a, s, n) == LeftCells(a, s, m) + [c];
      ValuePush(BASE, LeftCells(a, s, m), c);
      ValueTake(BASE, a, m);
      ShiftSplit(x, s);
      ShiftSplit(Limb0(a, m - 1), s);
      CellProper(x, Limb0(a, m - 1), s);
      LeftStep(Value(BASE, LeftCells(a, s, m)), Value(BASE, a[..m]), x, p, Pow(2, s), Low(x, s), High(x, s),
               High(Limb0(a, m - 1), s));
      PowStep(BASE, m);
    }
  }

  lemma LeftNothing(s: nat)
    ensures High(0, s) == 0 && Value(BASE, []) == 0
  {}

  lemma CellProper(x: Limb, y: Limb, s: nat)
    requires s < 32
    ensures Low(x, s) + High(y, s) < BASE
  {
    hide Pow, Low, High;
    ShiftSplit(x, s);
    ShiftSplit(y, s);
    PowSplit(s);
    var p, q := Pow(2, s), Pow(2, 32 - s);
    DivModSplit(x, q);
    ScaleSum(x % q, p, q, 0, x % q);
  }

  lemma LeftStep(c: int, v: int, x: int, p: int, t: int, low: int, high: int, highBefore: int)
    requires c + highBefore * p == v * t && x * t == low + high * BASE
    ensures c + (low + highBefore) * p + high * (BASE * p) == (v + x * p) * t
  {
    assert (v + x * p) * t == v * t + (x * t) * p by { MulAdd(t, v, x * p); MulAssoc(t, x, p); }
    MulAdd(p, low, high * BASE);
    MulAdd(p, low, highBefore);
    MulAssoc(high, BASE, p);
  }

  /** A left shift multiplies, and loses what does not fit. */
  lemma ShiftLeftValue(a: seq<Limb>, k: nat, s: nat)
    requires s < 32
    ensures Proper(BASE, ShiftLeft(a, k, s))
    ensures Value(BASE, ShiftLeft(a, k, s)) == (Value(BASE, a) * (Pow(BASE, k) * Pow(2, s))) % Pow(BASE, |a|)
  {
    hide Pow, Value, ShiftLeft, Proper;
    if k >= |a| { LeftBeyond(a, k, s); } else { LeftWithin(a, k, s); }
  }

  lemma LeftWithin(a: seq<Limb>, k: nat, s: nat)
    requires s < 32 && k < |a|
    ensures Proper(BASE, ShiftLeft(a, k, s))
    ensures Value(BASE, ShiftLeft(a, k, s)) == (Value(BASE, a) * (Pow(BASE, k) * Pow(2, s))) % Pow(BASE, |a|)
  {
    hide Pow, Value, LeftCell, ShiftLeft, High;
    var n := |a| - k;
    var zeros: seq<nat>, cells := seq(k, j => 0), LeftCells(a, s, n);
    LeftSplit(a, k, s, zeros, cells);
    LeftCellsValue(a, s, n);
    ValueZeros(BASE, zeros);
    ValueConcat(BASE, zeros, cells);
    assert a == a[..n] + a[n..];
    ValueConcat(BASE, a[..n], a[n..]);
    assert Proper(BASE, zeros + cells);
    ValueBound(BASE, zeros + cells);
    PowAdd(BASE, k, n);
    LeftTotal(Value(BASE, cells), High(Limb0(a, n - 1), s), Value(BASE, a[..n]), Value(BASE, a[n..]), Pow(BASE, n),
              Pow(BASE, k), Pow(2, s));
  }

  lemma LeftBeyond(a: seq<Limb>, k: nat, s: nat)
    requires k >= |a|
    ensures Proper(BASE, ShiftLeft(a, k, s))
    ensures Value(BASE, ShiftLeft(a, k, s)) == 0 == (Value(BASE, a) * (Pow(BASE, k) * Pow(2, s))) % Pow(BASE, |a|)
  {
    hide Pow, Value;
    forall j | 0 <= j < |a| ensures LeftCell(a, k, s, j) == 0 {}
    ValueZeros(BASE, ShiftLeft(a, k, s));
    PowAdd(BASE, |a|, k - |a|);
    MultipleMod(Value(BASE, a), Pow(BASE, |a|), Pow(BASE, k - |a|), Pow(2, s));
  }

  lemma MultipleMod(v: int, p: int, q: int, t: int)
    requires p > 0
    ensures (v * ((p * q) * t)) % p == 0
  {
    MulPull(v, p, q, t);
    var k := v * (q * t);
    ModOf(v * ((p * q) * t), 0, p, k);
  }

  lemma MulPull(v: int, p: int, q: int, t: int)
    ensures v * ((p * q) * t) == (v * (q * t)) * p
  {
    MulAssoc(p, q, t);
    MulAssoc(v, p, q * t);
  }

  lemma LeftSplit(a: seq<Limb>, k: nat, s: nat, zeros: seq<nat>, cells: seq<nat>)
    requires k < |a| && zeros == seq(k, j => 0) && cells == LeftCells(a, s, |a| - k)
    ensures ShiftLeft(a, k, s) == zeros + cells
  {
    forall j | 0 <= j < |a| ensures ShiftLeft(a, k, s)[j] == (zeros + cells)[j] {
      assert Limb0(a, j - k) == if j < k then 0 else a[j - k];
    }
  }

  lemma LeftTotal(c: int, high: int, low: int, rest: int, pn: int, pk: int, t: int)
    requires c + high * pn == low * t && 0 <= pk * c < pk * pn
    ensures ((low + pn * rest) * (pk * t)) % (pk * pn) == pk * c
  {
    var v := (low + pn * rest) * (pk * t);
    calc {
      v;
      { MulAssoc(low + pn * rest, pk, t); MulAdd(t, low, pn * rest); }
      pk * (low * t + (pn * rest) * t);
      { MulAdd(pk, c + high * pn, (pn * rest) * t); MulAdd(pk, c, high * pn); }
      pk * c + pk * (high * pn) + pk * ((pn * rest) * t);
      { MulAssoc(pk, high, pn); MulAssoc(t, pn, rest); MulAssoc(pk, pn, t * rest); MulAssoc(t * rest, pk, pn); }
      pk * c + high * (pk * pn) + (t * rest) * (pk * pn);
      { MulAdd(pk * pn, high, t * rest); }
      pk * c + (high + t * rest) * (pk * pn);
    }
    ModOf(v, pk * c, pk * pn, high + t * rest);
  }

  function RightCells(a: seq<Limb>, s: nat, n: nat): seq<nat>
    requires s < 32
  {
    seq(n, j requires 0 <= j < n => RightCell(a, 0, s, j))
  }

  lemma {:induction false} RightCellsValue(a: seq<Limb>, s: nat, n: nat)
    requires s < 32 && n <= |a|
    ensures Proper(BASE, RightCells(a, s, n))
    ensures Value(BASE, RightCells(a, s, n)) * Pow(2, s) + Limb0(a, 0) % Pow(2, s)
            == Value(BASE, a[..n]) + (Limb0(a, n) % Pow(2, s)) * Pow(BASE, n)
  {
    hide Pow, Value, Low;
    if n == 0 {
      RightNothing();
    } else {
      var m := n - 1;
      RightCellsValue(a, s, m);
      var x, y, c, t := a[m], Limb0(a, m + 1), RightCell(a, 0, s, m), Pow(2, s);
      assert RightCells(a, s, n) == RightCells(a, s, m) + [c];
      ValuePush(BASE, RightCells(a, s, m), c);
      ValueTake(BASE, a, m);
      RightCellScaled(x, y, s);
      PowStep(BASE, m);
      RightStep(Value(BASE, RightCells(a, s, m)), Value(BASE, a[..m]), x, x % t, y % t, c, t, Pow(BASE, m),
                Limb0(a, 0) % t);
    }
  }

  lemma RightNothing()
    ensures Value(BASE, []) == 0 && Pow(BASE, 0) == 1
  {}

  /** One cell of a right shift, scaled back. */
  lemma RightCellScaled(x: Limb, y: Limb, s: nat)
    requires s < 32
    ensures var c := x / Pow(2, s) + (if s == 0 then 0 else Low(y, 32 - s));
            c < BASE && c * Pow(2, s) + x % Pow(2, s) == x + (y % Pow(2, s)) * BASE
  {
    hide Pow, Low;
    if s == 0 {
      RightZero(x, y);
    } else {
      var t, q := Pow(2, s), Pow(2, 32 - s);
      ShiftRightSplit(x, s);
      ShiftRightSplit(y, s);
      PowSplit(s);
      DivModSplit(x, t);
      DivModSplit(y, t);
      CellSum(x, x / t, x % t, y % t, t, q);
    }
  }

  lemma CellSum(x: int, h: int, l: int, yl: int, t: int, q: int)
    requires x == h * t + l && 0 <= h < q && 0 <= yl < t && t * q == BASE
    ensures h + yl * q < BASE && (h + yl * q) * t + l == x + yl * BASE
  {
    MulMono(yl + 1, t, q);
    MulAdd(q, yl, 1);
    MulAdd(t, h, yl * q);
    MulAssoc(yl, q, t);
  }

  lemma RightZero(x: Limb, y: Limb)
    ensures Pow(2, 0) == 1 && x / Pow(2, 0) == x && x % Pow(2, 0) == 0 && y % Pow(2, 0) == 0
  {}

  lemma RightStep(c: int, v: int, x: int, xl: int, yl: int, cell: int, t: int, p: int, r: int)
    requires c * t + r == v + xl * p && cell * t + xl == x + yl * BASE
    ensures (c + cell * p) * t + r == v + x * p + yl * (BASE * p)
  {
    MulAdd(t, c, cell * p);
    MulAssoc(t, cell, p);
    MulAdd(p, cell * t, xl);
    MulAdd(p, x, yl * BASE);
    MulAssoc(yl, BASE, p);
  }

  /** A right shift divides. */
  lemma ShiftRightValue(a: seq<Limb>, k: nat, s: nat)
    requires s < 32
    ensures Proper(BASE, ShiftRight(a, k, s)) && Pow(BASE, k) * Pow(2, s) > 0
    ensures Value(BASE, ShiftRight(a, k, s)) == Value(BASE, a) / (Pow(BASE, k) * Pow(2, s))
  {
    hide Pow, Value, ShiftRight, Proper;
    DivDiv(Value(BASE, a), Pow(BASE, k), Pow(2, s));
    if k >= |a| { RightBeyond(a, k, s); } else { RightWithin(a, k, s); }
  }

  lemma RightBeyond(a: seq<Limb>, k: nat, s: nat)
    requires s < 32 && k >= |a|
    ensures Proper(BASE, ShiftRight(a, k, s))
    ensures Value(BASE, ShiftRight(a, k, s)) == Value(BASE, a) / Pow(BASE, k) / Pow(2, s)
  {
    hide Pow, Value, Low;
    forall j | 0 <= j < |a| ensures RightCell(a, k, s, j) == 0 { if s > 0 { ShiftSplit(0, 32 - s); } }
    ValueZeros(BASE, ShiftRight(a, k, s));
    ValueBound(BASE, a);
    PowMono(BASE, |a|, k);
    RightTotal(Value(BASE, a), Value(BASE, a), 0, Pow(BASE, k), 0, 0, Pow(2, s));
  }

  lemma RightWithin(a: seq<Limb>, k: nat, s: nat)
    requires s < 32 && k < |a|
    ensures Proper(BASE, ShiftRight(a, k, s))
    ensures Value(BASE, ShiftRight(a, k, s)) == Value(BASE, a) / Pow(BASE, k) / Pow(2, s)
  {
    hide Pow, Value, RightCell, ShiftRight;
    var n, t, rest := |a| - k, Pow(2, s), a[k..];
    var zeros: seq<nat>, cells := seq(k, j => 0), RightCells(rest, s, n);
    RightSplit(a, k, s, zeros, cells);
    ValuePadded(BASE, cells, zeros);
    RightWhole(rest, s);
    ValueSplit(BASE, a, k);
    ValueBound(BASE, a[..k]);
    RightTotal(Value(BASE, a), Value(BASE, a[..k]), Value(BASE, rest), Pow(BASE, k), Value(BASE, cells),
               Limb0(rest, 0) % t, t);
  }

  lemma RightWhole(a: seq<Limb>, s: nat)
    requires s < 32
    ensures Proper(BASE, RightCells(a, s, |a|))
    ensures Value(BASE, RightCells(a, s, |a|)) * Pow(2, s) + Limb0(a, 0) % Pow(2, s) == Value(BASE, a)
  {
    hide Pow, Value, RightCells;
    RightCellsValue(a, s, |a|);
    assert a[..|a|] == a;
    ModOf(0, 0, Pow(2, s), 0);
    assert Limb0(a, |a|) % Pow(2, s) == 0;
  }

  lemma RightTotal(v: int, low: int, rest: int, pk: int, c: int, r: int, t: int)
    requires v == low + pk * rest && 0 <= low < pk && c * t + r == rest && 0 <= r < t
    ensures v / pk / t == c
  {
    DivModUnique(v, pk, rest, low);
    DivModUnique(rest, t, c, r);
  }

  lemma RightSplit(a: seq<Limb>, k: nat, s: nat, zeros: seq<nat>, cells: seq<nat>)
    requires s < 32 && k < |a| && zeros == seq(k, j => 0) && cells == RightCells(a[k..], s, |a| - k)
    ensures ShiftRight(a, k, s) == cells + zeros
  {
    hide Pow, Low;
    forall j | 0 <= j < |a| ensures ShiftRight(a, k, s)[j] == (cells + zeros)[j] {
      assert Limb0(a, j + k) == Limb0(a[k..], j) && Limb0(a, j + k + 1) == Limb0(a[k..], j + 1);
      if j >= |a| - k && s > 0 { ShiftSplit(0, 32 - s); }
    }
  }
}
