/** Fixed-width unsigned numbers as arrays of 32-bit limbs (arith_uint256.h and arith_uint256.cpp), for any width.
    Every operation is the one on integers, modulo 2^(32 * WIDTH). */
module Arith {
  import opened Digits
  import opened Limbs

  // ---------------------------------------------------------------------------------------------
  // One column at a time, on integers
  // ---------------------------------------------------------------------------------------------

  /** Adding a column: v and v' are the number before and after its limb x is replaced. */
  lemma AddColumn(v: int, v': int, x: int, y: int, carry: int, sum: int, p: int)
    requires v' == v + ((carry + x + y) % BASE - x) * p
    requires v + carry * p == sum
    ensures v' + ((carry + x + y) / BASE) * (BASE * p) == sum + y * p
  {
    var n := carry + x + y;
    Carry(n, BASE, p);
    MulAdd(p, n % BASE, -x);
    MulAdd(p, carry + x, y);
    MulAdd(p, carry, x);
  }

  /** Adding one to a limb, or taking one off it, carries exactly when it wraps. */
  lemma StepColumn(v': int, v: int, x: Limb, step: int, p: int)
    requires -1 <= step <= 1 && v' == v + ((x + step) % BASE - x) * p
    ensures v' + ((x + step) / BASE) * (BASE * p) == v + step * p
    ensures step == 1 ==> (x + step) / BASE == if (x + step) % BASE == 0 then 1 else 0
    ensures step == -1 ==> (x + step) / BASE == if (x + step) % BASE == BASE - 1 then -1 else 0
  {
    Carry(x + step, BASE, p);
    MulSub(p, (x + step) % BASE, x);
    MulAdd(p, x, step);
  }

  lemma WrapAround(v: int, carry: int, m: int, total: int)
    requires 0 <= v < m && v + carry * m == total
    ensures total % m == v
  {
    ModOf(total, v, m, carry);
  }

  lemma SubtractModulo(x: int, y: int, m: int)
    requires 0 <= x < m && 0 <= y < m
    ensures (x + (m - y) % m) % m == (x - y) % m
    ensures x >= y ==> (x - y) % m == x - y
  {
    if y == 0 {
      ModOf(m, 0, m, 1);
    } else {
      ModOf(m - y, m - y, m, 0);
      ModDrop(x - y, m, 1);
    }
    if x >= y { ModOf(x - y, x - y, m, 0); }
  }

  class BaseUint {
    const WIDTH: nat
    const pn: array<Limb>

    ghost predicate Valid() { pn.Length == WIDTH >= 2 }

    ghost function V(): nat
      reads pn
    {
      Value(BASE, pn[..])
    }

    /** 2^(32 * WIDTH). */
    ghost function M(): nat { Pow(BASE, WIDTH) }

    lemma Bounded()
      requires Valid()
      ensures V() < M()
    {
      ValueBound(BASE, pn[..]);
    }

    constructor (width: nat)
      requires width >= 2
      ensures Valid() && fresh(pn) && WIDTH == width && V() == 0
    {
      WIDTH := width;
      pn := new Limb[width](_ => 0);
      new;
      ValueZeros(BASE, pn[..]);
    }

    constructor Copy(b: BaseUint)
      requires b.Valid()
      ensures Valid() && fresh(pn) && WIDTH == b.WIDTH && pn[..] == b.pn[..]
    {
      WIDTH := b.WIDTH;
      pn := new Limb[b.WIDTH](_ => 0);
      new;
      for i := 0 to WIDTH
        invariant pn[..i] == b.pn[..i]
        modifies pn
      {
        pn[i] := b.pn[i];
      }
      assert pn[..] == pn[..WIDTH] && b.pn[..] == b.pn[..WIDTH];
    }

    method Assign(b: BaseUint)
      requires Valid() && b.Valid() && b.WIDTH == WIDTH
      modifies pn
      ensures pn[..] == old(b.pn[..])
    {
      for i := 0 to WIDTH
        invariant pn[..i] == old(b.pn[..])[..i]
        invariant b.pn[..] == old(b.pn[..]) || b.pn == pn
        invariant b.pn == pn ==> pn[..] == old(b.pn[..])
      {
        pn[i] := b.pn[i];
      }
      assert pn[..] == pn[..WIDTH];
    }

    method AssignSmall(b: nat)
      requires Valid() && b < BASE * BASE
      modifies pn
      ensures V() == b
    {
      pn[0] := b % BASE;
      pn[1] := b / BASE;
      for i := 2 to WIDTH
        invariant pn[0] == b % BASE && pn[1] == b / BASE && forall j :: 2 <= j < i ==> pn[j] == 0
      {
        pn[i] := 0;
      }
      TwoLimbs(pn[..], b);
    }

    method AddAssign(b: BaseUint)
      requires Valid() && b.Valid() && b.WIDTH == WIDTH
      modifies pn
      ensures V() == (old(V()) + old(b.V())) % M()
    {
      hide Pow, Value;
      ghost var x, y := pn[..], b.pn[..];
      var carry := 0;
      EmptySum(y);
      for i := 0 to WIDTH
        invariant 0 <= carry <= 1 && pn[i..] == x[i..] && b.pn[i..] == y[i..]
        invariant Value(BASE, pn[..]) + carry * Pow(BASE, i) == Value(BASE, x) + Value(BASE, y[..i])
      {
        ghost var s := pn[..];
        var n := carry + pn[i] + b.pn[i];
        assert pn[i] == s[i] && b.pn[i] == y[i] by { assert b.pn[i..][0] == y[i..][0]; }
        pn[i] := n % BASE;
        assert pn[..] == s[i := n % BASE];
        ValueUpdate(BASE, s, i, n % BASE);
        ValueTake(BASE, y, i);
        PowStep(BASE, i);
        AddColumn(Value(BASE, s), Value(BASE, pn[..]), s[i], y[i], carry, Value(BASE, x) + Value(BASE, y[..i]),
                  Pow(BASE, i));
        carry := n / BASE;
      }
      assert y[..WIDTH] == y;
      Bounded();
      WrapAround(V(), carry, M(), Value(BASE, x) + Value(BASE, y));
    }

    /** ~: the distance to the largest number. */
    method Complement() returns (ret: BaseUint)
      requires Valid()
      ensures fresh(ret) && fresh(ret.pn) && ret.Valid() && ret.WIDTH == WIDTH && ret.V() + V() == M() - 1
    {
      hide Pow, Value;
      ret := new BaseUint(WIDTH);
      EmptySum(pn[..]);
      EmptySum(ret.pn[..]);
      for i := 0 to WIDTH
        invariant Value(BASE, ret.pn[..i]) + Value(BASE, pn[..i]) == Pow(BASE, i) - 1
        invariant fresh(ret.pn)
        modifies ret.pn
      {
        ghost var was := ret.pn[..];
        ret.pn[i] := BASE - 1 - pn[i];
        assert ret.pn[..i] == was[..i];
        ValueTake(BASE, ret.pn[..], i);
        ValueTake(BASE, pn[..], i);
        assert ret.pn[..][..i + 1] == ret.pn[..i + 1] && ret.pn[..][..i] == ret.pn[..i];
        assert pn[..][..i + 1] == pn[..i + 1] && pn[..][..i] == pn[..i];
        PowStep(BASE, i);
        MulAdd(Pow(BASE, i), BASE - 1 - pn[i], pn[i]);
        MulAdd(Pow(BASE, i), BASE, -1);
      }
      assert ret.pn[..WIDTH] == ret.pn[..] && pn[..WIDTH] == pn[..];
    }

    method Increment()
      requires Valid()
      modifies pn
      ensures V() == (old(V()) + 1) % M()
    {
      hide Pow, Value;
      EmptySum(pn[..]);
      Bounded();
      var i := 0;
      while i < WIDTH
        invariant 0 <= i <= WIDTH && V() + Pow(BASE, i) == old(V()) + 1
      {
        ghost var s := pn[..];
        pn[i] := (pn[i] + 1) % BASE;
        assert pn[..] == s[i := (s[i] + 1) % BASE];
        ValueUpdate(BASE, s, i, pn[i]);
        PowStep(BASE, i);
        StepColumn(V(), Value(BASE, s), s[i], 1, Pow(BASE, i));
        if pn[i] != 0 { break; }
        i := i + 1;
      }
      Bounded();
      WrapAround(V(), if i == WIDTH then 1 else 0, M(), old(V()) + 1);
    }

    method Decrement()
      requires Valid()
      modifies pn
      ensures V() == (old(V()) - 1) % M()
    {
      hide Pow, Value;
      EmptySum(pn[..]);
      Bounded();
      var i := 0;
      while i < WIDTH
        invariant 0 <= i <= WIDTH && V() - Pow(BASE, i) == old(V()) - 1
      {
        ghost var s := pn[..];
        pn[i] := (pn[i] - 1) % BASE;
        assert pn[..] == s[i := (s[i] - 1) % BASE];
        ValueUpdate(BASE, s, i, pn[i]);
        PowStep(BASE, i);
        StepColumn(V(), Value(BASE, s), s[i], -1, Pow(BASE, i));
        if pn[i] != BASE - 1 { break; }
        i := i + 1;
      }
      Bounded();
      WrapAround(V(), if i == WIDTH then -1 else 0, M(), old(V()) - 1);
    }

    method Negated() returns (ret: BaseUint)
      requires Valid()
      ensures fresh(ret) && fresh(ret.pn) && ret.Valid() && ret.WIDTH == WIDTH && ret.V() == (M() - V()) % M()
    {
      ret := Complement();
      ret.Increment();
    }

    method SubAssign(b: BaseUint)
      requires Valid() && b.Valid() && b.WIDTH == WIDTH
      modifies pn
      ensures V() == (old(V()) - old(b.V())) % M()
      ensures old(V()) >= old(b.V()) ==> V() == old(V()) - old(b.V())
    {
      hide Pow, Value;
      Bounded();
      b.Bounded();
      var minus := b.Negated();
      AddAssign(minus);
      SubtractModulo(old(V()), old(b.V()), M());
    }

    /** No column overflows 64 bits. */
    method MulSmall(b32: Limb)
      requires Valid()
      modifies pn
      ensures V() == (old(V()) * b32) % M()
    {
      hide Pow, Value;
      ghost var x := pn[..];
      EmptySum(x);
      EmptySum(pn[..]);
      var carry := 0;
      for i := 0 to WIDTH
        invariant 0 <= carry < BASE && pn[i..] == x[i..]
        invariant Value(BASE, pn[..i]) + carry * Pow(BASE, i) == Value(BASE, x[..i]) * b32
      {
        ghost var s := pn[..];
        ColumnFits(carry, 0, b32, pn[i]);
        var n := carry + b32 * pn[i];
        assert n < BASE * BASE;
        assert pn[i] == x[i];
        pn[i] := n % BASE;
        assert pn[..i + 1] == s[..i] + [n % BASE];
        ValuePush(BASE, s[..i], n % BASE);
        ValueTake(BASE, x, i);
        PowStep(BASE, i);
        MulColumn(Value(BASE, s[..i]), Value(BASE, x[..i]), b32, x[i], carry, Pow(BASE, i));
        carry := n / BASE;
      }
      assert pn[..WIDTH] == pn[..] && x[..WIDTH] == x;
      Bounded();
      WrapAround(V(), carry, M(), Value(BASE, x) * b32);
    }

    /** One row of a schoolbook multiplication: adds d * b, shifted by j limbs. */
    method AddRow(b: BaseUint, j: nat, d: Limb)
      requires Valid() && b.Valid() && b.WIDTH == WIDTH && j < WIDTH && b.pn != pn
      modifies pn
      ensures V() == (old(V()) + d * (Pow(BASE, j) * b.V())) % M()
    {
      hide Pow, Value;
      ghost var x := pn[..];
      EmptySum(b.pn[..]);
      var carry := 0;
      var i := 0;
      while i + j < WIDTH
        invariant 0 <= i <= WIDTH - j && 0 <= carry < BASE && pn[i + j..] == x[i + j..]
        invariant V() + carry * Pow(BASE, i + j) == Value(BASE, x) + d * (Pow(BASE, j) * Value(BASE, b.pn[..i]))
      {
        ghost var s := pn[..];
        ColumnFits(carry, pn[i + j], d, b.pn[i]);
        var n := carry + pn[i + j] + d * b.pn[i];
        assert n < BASE * BASE;
        pn[i + j] := n % BASE;
        assert pn[..] == s[i + j := n % BASE];
        ValueUpdate(BASE, s, i + j, n % BASE);
        ValueTake(BASE, b.pn[..], i);
        assert b.pn[..][..i + 1] == b.pn[..i + 1] && b.pn[..][..i] == b.pn[..i];
        PowStep(BASE, i + j);
        PowAdd(BASE, j, i);
        RowColumn(Value(BASE, s), V(), s[i + j], carry, d, b.pn[i], Value(BASE, x), Value(BASE, b.pn[..i]),
                  Pow(BASE, j), Pow(BASE, i));
        carry := n / BASE;
        i := i + 1;
      }
      Bounded();
      RowTotal(b.pn[..], j, V(), carry, Value(BASE, x), d);
    }

    method MulAssign(b: BaseUint)
      requires Valid() && b.Valid() && b.WIDTH == WIDTH
      modifies pn
      ensures V() == (old(V()) * old(b.V())) % M()
    {
      hide Pow, Value;
      var a := new BaseUint(WIDTH);
      EmptySum(pn[..]);
      ModOf(0, 0, M(), 0);
      for j := 0 to WIDTH
        invariant fresh(a) && fresh(a.pn) && a.Valid() && a.WIDTH == WIDTH
        invariant pn[..] == old(pn[..]) && b.pn[..] == old(b.pn[..])
        invariant a.V() == (Value(BASE, pn[..j]) * b.V()) % M()
        modifies a.pn
      {
        ghost var before := a.V();
        a.AddRow(b, j, pn[j]);
        ValueTake(BASE, pn[..], j);
        assert pn[..][..j + 1] == pn[..j + 1] && pn[..][..j] == pn[..j];
        AddRowModulo(Value(BASE, pn[..j]), pn[j], Pow(BASE, j), b.V(), M());
      }
      assert pn[..WIDTH] == pn[..];
      Assign(a);
    }

    method Clear()
      requires Valid()
      modifies pn
      ensures forall j :: 0 <= j < WIDTH ==> pn[j] == 0
      ensures V() == 0
    {
      for i := 0 to WIDTH
        invariant forall j :: 0 <= j < i ==> pn[j] == 0
      {
        pn[i] := 0;
      }
      ValueZeros(BASE, pn[..]);
    }

    /** Spreads one limb of a left shift over the two limbs it falls into. */
    method SpreadLeft(limb: Limb, i: nat, k: nat, s: nat, ghost x: seq<Limb>)
      requires Valid() && s < 32 && i < WIDTH == |x| && limb == x[i] && LeftSpread(x, k, s, i, pn[..])
      modifies pn
      ensures LeftSpread(x, k, s, i + 1, pn[..])
    {
      hide Pow, Low, High, Or, LeftSpread;
      ghost var r := pn[..];
      LeftOrFits(x, k, s, i, r);
      if i + k + 1 < WIDTH && s != 0 { pn[i + k + 1] := Or(pn[i + k + 1], ShiftedOut(limb, s)); }
      if i + k < WIDTH { pn[i + k] := Or(pn[i + k], Low(limb, s)); }
      LeftSpreadStep(x, k, s, i, r, pn[..]);
    }

    method SpreadRight(limb: Limb, i: nat, k: nat, s: nat, ghost x: seq<Limb>)
      requires Valid() && s < 32 && i < WIDTH == |x| && limb == x[i] && RightSpread(x, k, s, i, pn[..])
      modifies pn
      ensures RightSpread(x, k, s, i + 1, pn[..])
    {
      hide Pow, Low, High, Or, RightSpread;
      ghost var r := pn[..];
      RightOrFits(x, k, s, i, r);
      if i - k - 1 >= 0 && s != 0 { pn[i - k - 1] := Or(pn[i - k - 1], Low(limb, 32 - s)); }
      if i - k >= 0 { pn[i - k] := Or(pn[i - k], limb / Pow(2, s)); }
      RightSpreadStep(x, k, s, i, r, pn[..]);
    }

    method ShiftLeftAssign(shift: nat)
      requires Valid()
      modifies pn
      ensures V() == (old(V()) * Pow(2, shift)) % M()
    {
      hide Pow, Value, Low, High, Or, ShiftLeft, LeftSpread;
      ghost var x := pn[..];
      var a := new BaseUint.Copy(this);
      Clear();
      var k, s := shift / 32, shift % 32;
      LeftSpreadStart(x, k, s, pn[..]);
      for i := 0 to WIDTH
        invariant LeftSpread(x, k, s, i, pn[..])
        modifies pn
      {
        SpreadLeft(a.pn[i], i, k, s, x);
      }
      LeftSpreadDone(x, k, s, pn[..]);
      ShiftLeftValue(x, k, s);
      ShiftAmount(shift);
    }

    method ShiftRightAssign(shift: nat)
      requires Valid()
      modifies pn
      ensures V() == old(V()) / Pow(2, shift)
    {
      hide Pow, Value, Low, High, Or, ShiftRight, RightSpread;
      ghost var x := pn[..];
      var a := new BaseUint.Copy(this);
      Clear();
      var k, s := shift / 32, shift % 32;
      RightSpreadStart(x, k, s, pn[..]);
      for i := 0 to WIDTH
        invariant RightSpread(x, k, s, i, pn[..])
        modifies pn
      {
        SpreadRight(a.pn[i], i, k, s, x);
      }
      RightSpreadDone(x, k, s, pn[..]);
      ShiftRightValue(x, k, s);
      ShiftAmount(shift);
    }

    /** The sign of the difference. */
    method CompareTo(b: BaseUint) returns (r: int)
      requires Valid() && b.Valid() && b.WIDTH == WIDTH
      ensures r == if V() < b.V() then -1 else if V() > b.V() then 1 else 0
    {
      hide Pow, Value;
      var i := WIDTH;
      while i > 0
        invariant 0 <= i <= WIDTH && pn[i..] == b.pn[i..]
      {
        i := i - 1;
        if pn[i] < b.pn[i] {
          HigherLimb(pn[..], b.pn[..], i);
          return -1;
        }
        if pn[i] > b.pn[i] {
          HigherLimb(b.pn[..], pn[..], i);
          return 1;
        }
      }
      assert pn[..] == pn[0..] && b.pn[..] == b.pn[0..];
      r := 0;
    }

    method EqualTo(b: nat) returns (r: bool)
      requires Valid() && b < BASE * BASE
      ensures r == (V() == b)
    {
      hide Pow, Value;
      var i := WIDTH;
      while i > 2
        invariant 2 <= i <= WIDTH && forall j :: i <= j < WIDTH ==> pn[j] == 0
      {
        i := i - 1;
        if pn[i] != 0 {
          HighLimbSet(pn[..], i, b);
          return false;
        }
      }
      LowLimbs(pn[..], b);
      if pn[1] != b / BASE { return false; }
      if pn[0] != b % BASE { return false; }
      return true;
    }

    /** The position of the highest bit set plus one, or zero. */
    method Bits() returns (n: nat)
      requires Valid()
      ensures n <= 32 * WIDTH
      ensures n == 0 ==> V() == 0
      ensures n > 0 ==> Pow(2, n - 1) <= V() < Pow(2, n)
    {
      hide Pow, Value;
      var pos := WIDTH;
      while pos > 0
        invariant 0 <= pos <= WIDTH && forall j :: pos <= j < WIDTH ==> pn[j] == 0
      {
        pos := pos - 1;
        if pn[pos] != 0 {
          var nbits := 31;
          Pow2Const();
          while nbits > 0
            invariant 0 <= nbits <= 31 && pn[pos] < Pow(2, nbits + 1)
          {
            if pn[pos] / Pow(2, nbits) % 2 == 1 {
              BitSet(pn[pos], nbits);
              TopBit(pn[..], pos, nbits);
              return 32 * pos + nbits + 1;
            }
            BitClear(pn[pos], nbits);
            nbits := nbits - 1;
          }
          BitSet(pn[pos], 0);
          TopBit(pn[..], pos, 0);
          return 32 * pos + 1;
        }
      }
      ValueZeros(BASE, pn[..]);
      n := 0;
    }

    method GetLow64() returns (r: nat)
      requires Valid()
      ensures r == V() % (BASE * BASE)
    {
      LowTwo(pn[..]);
      r := pn[0] + pn[1] * BASE;
    }

    /** Sets bit `shift`, below which nothing is set. */
    method SetBit(shift: nat)
      requires Valid() && shift < 32 * WIDTH && ClearBelow(pn[..], shift + 1)
      modifies pn
      ensures V() == old(V()) + Pow(2, shift) && ClearBelow(pn[..], shift)
    {
      hide Pow, Value, Or;
      var k, s := shift / 32, shift % 32;
      ghost var x := pn[..];
      ClearOr(x, shift);
      pn[k] := Or(pn[k], Pow(2, s));
      assert pn[..] == x[k := x[k] + Pow(2, s)];
      ValueUpdate(BASE, x, k, x[k] + Pow(2, s));
      assert Pow(2, s) * Pow(BASE, k) == Pow(2, shift) by { ShiftAmount(shift); }
      ClearAfter(x, pn[..], shift);
    }

    /** One bit of the quotient: subtracts the shifted divisor if it fits. */
    method DivStep(num: BaseUint, div: BaseUint, shift: nat, ghost a: nat, ghost d: nat)
      requires Valid() && num.Valid() && div.Valid() && num.WIDTH == div.WIDTH == WIDTH
      requires pn != num.pn && pn != div.pn && num.pn != div.pn && shift < 32 * WIDTH
      requires a == V() * d + num.V() && num.V() < d * Pow(2, shift + 1) && div.V() == d * Pow(2, shift)
      requires ClearBelow(pn[..], shift + 1)
      modifies pn, num.pn, div.pn
      ensures a == V() * d + num.V() && num.V() < d * Pow(2, shift)
      ensures shift > 0 ==> div.V() == d * Pow(2, shift - 1)
      ensures ClearBelow(pn[..], shift)
    {
      hide Pow, Value, ClearBelow;
      ghost var q, n := V(), num.V();
      var c := num.CompareTo(div);
      PowStep(2, shift);
      QuotientStep(a, d, q, n, Pow(2, shift), c >= 0);
      if c >= 0 {
        num.SubAssign(div);
        SetBit(shift);
      } else {
        ClearLess(pn[..], shift);
      }
      div.ShiftRightAssign(1);
      if shift > 0 { HalfShift(d, shift); }
    }

    method LongDivide(num: BaseUint, div: BaseUint, shift0: nat, ghost a: nat, ghost d: nat)
      requires Valid() && num.Valid() && div.Valid() && num.WIDTH == div.WIDTH == WIDTH
      requires pn != num.pn && pn != div.pn && num.pn != div.pn && shift0 < 32 * WIDTH
      requires a == V() * d + num.V() && num.V() < d * Pow(2, shift0 + 1) && div.V() == d * Pow(2, shift0)
      requires ClearBelow(pn[..], shift0 + 1)
      modifies pn, num.pn, div.pn
      ensures a == V() * d + num.V() && num.V() < d
    {
      hide Pow, Value, ClearBelow;
      var shift := shift0;
      while shift >= 0
        invariant -1 <= shift < 32 * WIDTH
        invariant a == V() * d + num.V() && num.V() < d * Pow(2, shift + 1)
        invariant shift >= 0 ==> div.V() == d * Pow(2, shift)
        invariant ClearBelow(pn[..], shift + 1)
      {
        DivStep(num, div, shift, a, d);
        shift := shift - 1;
      }
      DivisionDone(a, d, V(), num.V());
    }

    /** Shift-and-subtract division; the quotient replaces the dividend, and `rem` is what is left in num.  Dividing
        by zero throws, after the dividend has been cleared. */
    method DivAssign(b: BaseUint) returns (ok: bool, ghost rem: nat)
      requires Valid() && b.Valid() && b.WIDTH == WIDTH
      modifies pn
      ensures ok == (old(b.V()) != 0)
      ensures ok ==> old(V()) == V() * old(b.V()) + rem && rem < old(b.V()) && V() == old(V()) / old(b.V())
      ensures !ok ==> V() == 0
    {
      hide Pow, Value, ClearBelow;
      ghost var a, d := V(), b.V();
      var div := new BaseUint.Copy(b);
      var num := new BaseUint.Copy(this);
      Clear();
      var numBits := num.Bits();
      var divBits := div.Bits();
      rem := a;
      if divBits == 0 { return false, 0; }
      if divBits > numBits {
        TooSmall(a, d, numBits, divBits);
        return true, a;
      }
      var shift := numBits - divBits;
      Aligned(a, d, numBits, divBits, num.M(), WIDTH);
      div.ShiftLeftAssign(shift);
      ClearAll(pn[..], shift + 1);
      LongDivide(num, div, shift, a, d);
      ok, rem := true, num.V();
      DivModUnique(a, d, V(), rem);
    }
  }

  lemma TooSmall(a: nat, d: nat, na: nat, nd: nat)
    requires na < nd && (na == 0 ==> a == 0) && (na > 0 ==> a < Pow(2, na)) && Pow(2, nd - 1) <= d
    ensures a < d && a / d == 0
  {
    PowMono(2, na, nd - 1);
    DivModUnique(a, d, 0, a);
  }

  /** The highest limb that differs decides. */
  lemma HigherLimb(x: seq<Limb>, y: seq<Limb>, i: nat)
    requires |x| == |y| && i < |x| && x[i + 1..] == y[i + 1..] && x[i] < y[i]
    ensures Value(BASE, x) < Value(BASE, y)
  {
    hide Pow, Value;
    ValueSplit(BASE, x, i + 1);
    ValueSplit(BASE, y, i + 1);
    ValueTake(BASE, x, i);
    ValueTake(BASE, y, i);
    ValueBound(BASE, x[..i]);
    BoundStep(Value(BASE, x[..i]), x[i], y[i], Pow(BASE, i));
  }

  lemma LowTwo(s: seq<Limb>)
    requires |s| >= 2
    ensures Value(BASE, s) % (BASE * BASE) == s[0] + s[1] * BASE
    ensures Value(BASE, s) == s[0] + s[1] * BASE + (BASE * BASE) * Value(BASE, s[2..])
  {
    ValueSplit(BASE, s, 2);
    assert s[..2] == [s[0]] + [s[1]] && [] + [s[0]] == [s[0]];
    ValuePush(BASE, [], s[0]);
    ValuePush(BASE, [s[0]], s[1]);
    assert Pow(BASE, 1) == BASE && Pow(BASE, 2) == BASE * BASE;
    ModOf(Value(BASE, s), s[0] + s[1] * BASE, BASE * BASE, Value(BASE, s[2..]));
  }

  lemma LowLimbs(s: seq<Limb>, b: nat)
    requires |s| >= 2 && b < BASE * BASE && forall j :: 2 <= j < |s| ==> s[j] == 0
    ensures Value(BASE, s) == b <==> s[1] == b / BASE && s[0] == b % BASE
  {
    hide Pow, Value;
    LowTwo(s);
    ValueZeros(BASE, s[2..]);
    DivModUnique(s[0] + s[1] * BASE, BASE, s[1], s[0]);
    DivModSplit(b, BASE);
  }

  lemma HighLimbSet(s: seq<Limb>, i: nat, b: nat)
    requires 2 <= i < |s| && s[i] != 0 && b < BASE * BASE
    ensures Value(BASE, s) != b
  {
    hide Pow, Value;
    assert s[2..][i - 2] == s[i];
    PositiveValue(s[2..], i - 2);
    LowTwo(s);
    MulMono(1, Value(BASE, s[2..]), BASE * BASE);
  }

  lemma PositiveValue(s: seq<Limb>, i: nat)
    requires i < |s| && s[i] != 0
    ensures Value(BASE, s) >= s[i] * Pow(BASE, i)
    ensures Value(BASE, s) > 0
  {
    hide Pow, Value;
    ValueSplit(BASE, s, i + 1);
    ValueTake(BASE, s, i);
    MulMono(0, Value(BASE, s[i + 1..]), Pow(BASE, i + 1));
    MulMono(1, s[i], Pow(BASE, i));
  }

  lemma BitSet(x: int, n: nat)
    requires 0 < x < Pow(2, n + 1) && (n > 0 ==> x / Pow(2, n) % 2 == 1)
    ensures Pow(2, n) <= x
  {
    if n == 0 {
      assert Pow(2, 0) == 1;
    } else {
      DivModSplit(x, Pow(2, n));
      if x < Pow(2, n) { DivModUnique(x, Pow(2, n), 0, x); }
    }
  }

  lemma BitClear(x: int, n: nat)
    requires 0 < x < Pow(2, n + 1) && x / Pow(2, n) % 2 != 1
    ensures x < Pow(2, n)
  {
    if x >= Pow(2, n) { DivModUnique(x, Pow(2, n), 1, x - Pow(2, n)); }
  }

  lemma TopBit(s: seq<Limb>, pos: nat, n: nat)
    requires pos < |s| && n < 32 && Pow(2, n) <= s[pos] < Pow(2, n + 1) && forall j :: pos < j < |s| ==> s[j] == 0
    ensures Pow(2, 32 * pos + n) <= Value(BASE, s) < Pow(2, 32 * pos + n + 1)
  {
    hide Pow, Value;
    assert s == s[..pos + 1] + s[pos + 1..];
    ValuePadded(BASE, s[..pos + 1], s[pos + 1..]);
    ValueTake(BASE, s, pos);
    ValueBound(BASE, s[..pos]);
    var p := Pow(BASE, pos);
    BoundStep(Value(BASE, s[..pos]), s[pos], Pow(2, n + 1), p);
    MulMono(Pow(2, n), s[pos], p);
    Pow2Const();
    PowPow(2, 32, pos);
    PowAdd(2, n, 32 * pos);
    PowAdd(2, n + 1, 32 * pos);
  }

  lemma ShiftAmount(shift: nat)
    ensures Pow(BASE, shift / 32) * Pow(2, shift % 32) == Pow(2, shift)
  {
    hide Pow;
    Pow2Const();
    PowPow(2, 32, shift / 32);
    PowAdd(2, 32 * (shift / 32), shift % 32);
  }

  /** Limb j of a left shift after the first n limbs have been spread. */
  ghost function LeftPart(x: seq<Limb>, k: nat, s: nat, n: nat, j: int): int {
    (if j - k < n then Low(Limb0(x, j - k), s) else 0) + (if j - k - 1 < n then High(Limb0(x, j - k - 1), s) else 0)
  }

  /** The bits a left shift moves out of a limb, x >> (32 - s). */
  function ShiftedOut(x: nat, s: nat): nat
    requires s < 32
  {
    x / Pow(2, 32 - s)
  }

  ghost predicate LeftSpread(x: seq<Limb>, k: nat, s: nat, n: nat, r: seq<Limb>) {
    |r| == |x| && forall j :: 0 <= j < |x| ==> r[j] == LeftPart(x, k, s, n, j)
  }

  lemma LeftSpreadStart(x: seq<Limb>, k: nat, s: nat, r: seq<Limb>)
    requires s < 32 && |r| == |x| && forall j :: 0 <= j < |x| ==> r[j] == 0
    ensures LeftSpread(x, k, s, 0, r)
  {
    hide Low, High;
    NothingShifted(s);
  }

  /** Limb n falls into two limbs of the result, whose bits at those places are still clear. */
  lemma LeftOrFits(x: seq<Limb>, k: nat, s: nat, n: nat, r: seq<Limb>)
    requires s < 32 && n < |x| == |r| && LeftSpread(x, k, s, n, r)
    ensures n + k < |x| ==> Or(r[n + k], Low(x[n], s)) == LeftPart(x, k, s, n + 1, n + k)
    ensures n + k + 1 < |x| && s != 0 ==> Or(r[n + k + 1], ShiftedOut(x[n], s)) == LeftPart(x, k, s, n + 1, n + k + 1)
    ensures n + k < |x| ==> LeftPart(x, k, s, n + 1, n + k) < BASE
    ensures n + k + 1 < |x| ==> LeftPart(x, k, s, n + 1, n + k + 1) < BASE
  {
    hide Pow, Low, High, Or;
    NothingShifted(s);
    ShiftSplit(x[n], s);
    var before := Limb0(x, n - 1);
    ShiftSplit(before, s);
    CellProper(x[n], before, s);
    OrDisjoint(Low(x[n], s), High(before, s), s);
    OrZero(High(x[n], s));
    CellProper(0, x[n], s);
  }

  lemma LeftSpreadStep(x: seq<Limb>, k: nat, s: nat, n: nat, r: seq<Limb>, r': seq<Limb>)
    requires s < 32 && n < |x| && LeftSpread(x, k, s, n, r) && |r'| == |x|
    requires forall j :: 0 <= j < |x| ==>
               r'[j] == if j == n + k then Or(r[j], Low(x[n], s))
                        else if j == n + k + 1 && s != 0 then Or(r[j], ShiftedOut(x[n], s)) else r[j]
    ensures LeftSpread(x, k, s, n + 1, r')
  {
    hide Pow, Low, High, Or;
    LeftOrFits(x, k, s, n, r);
    NothingShifted(s);
  }

  lemma NothingShifted(s: nat)
    requires s < 32
    ensures Low(0, s) == 0 && High(0, s) == 0 && forall x: Limb :: High(x, 0) == 0
    ensures Low(0, 32 - s) == 0 && 0 / Pow(2, s) == 0
  {
    assert Pow(2, 0) == 1;
    forall x: Limb ensures High(x, 0) == 0 {}
    ModOf(0, 0, Pow(2, s), 0);
    DivModUnique(0, Pow(2, s), 0, 0);
  }

  lemma LeftSpreadDone(x: seq<Limb>, k: nat, s: nat, r: seq<Limb>)
    requires LeftSpread(x, k, s, |x|, r)
    ensures r == ShiftLeft(x, k, s)
  {
    hide Low, High;
  }

  /** Limb j of a right shift after the first n limbs have been spread. */
  ghost function RightPart(x: seq<Limb>, k: nat, s: nat, n: nat, j: int): int
    requires s < 32
  {
    (if j + k < n then Limb0(x, j + k) / Pow(2, s) else 0)
    + (if s != 0 && j + k + 1 < n then Low(Limb0(x, j + k + 1), 32 - s) else 0)
  }

  ghost predicate RightSpread(x: seq<Limb>, k: nat, s: nat, n: nat, r: seq<Limb>)
    requires s < 32
  {
    |r| == |x| && forall j :: 0 <= j < |x| ==> r[j] == RightPart(x, k, s, n, j)
  }

  lemma RightSpreadStart(x: seq<Limb>, k: nat, s: nat, r: seq<Limb>)
    requires s < 32 && |r| == |x| && forall j :: 0 <= j < |x| ==> r[j] == 0
    ensures RightSpread(x, k, s, 0, r)
  {}

  lemma RightOrFits(x: seq<Limb>, k: nat, s: nat, n: nat, r: seq<Limb>)
    requires s < 32 && n < |x| && RightSpread(x, k, s, n, r)
    ensures n - k >= 0 ==> Or(r[n - k], x[n] / Pow(2, s)) == RightPart(x, k, s, n + 1, n - k) < BASE
    ensures n - k - 1 >= 0 && s != 0 ==>
              Or(r[n - k - 1], Low(x[n], 32 - s)) == RightPart(x, k, s, n + 1, n - k - 1) < BASE
  {
    hide Pow, Low, High, Or;
    NothingShifted(s);
    var before := Limb0(x, n - 1);
    RightProper(x[n], 0, s);
    RightProper(before, x[n], s);
    OrZero(x[n] / Pow(2, s));
    ShiftRightSplit(x[n], s);
    ShiftRightSplit(before, s);
    OrDisjoint(Low(x[n], 32 - s), before / Pow(2, s), 32 - s);
  }

  lemma RightSpreadStep(x: seq<Limb>, k: nat, s: nat, n: nat, r: seq<Limb>, r': seq<Limb>)
    requires s < 32 && n < |x| && RightSpread(x, k, s, n, r) && |r'| == |x|
    requires forall j :: 0 <= j < |x| ==>
               r'[j] == if j == n - k then Or(r[j], x[n] / Pow(2, s))
                        else if j == n - k - 1 && s != 0 then Or(r[j], Low(x[n], 32 - s)) else r[j]
    ensures RightSpread(x, k, s, n + 1, r')
  {
    hide Pow, Low, High, Or;
    RightOrFits(x, k, s, n, r);
  }

  lemma RightProper(x: Limb, y: Limb, s: nat)
    requires s < 32
    ensures 0 <= x / Pow(2, s) && x / Pow(2, s) + (if s == 0 then 0 else Low(y, 32 - s)) < BASE
  {
    hide Pow, Low;
    RightCellScaled(x, y, s);
    DivModSplit(x, Pow(2, s));
  }

  lemma RightSpreadDone(x: seq<Limb>, k: nat, s: nat, r: seq<Limb>)
    requires s < 32 && RightSpread(x, k, s, |x|, r)
    ensures r == ShiftRight(x, k, s)
  {
    hide Low, Pow;
    NothingShifted(s);
  }

  /** The largest column of a product still fits in 64 bits. */
  lemma ColumnFits(carry: int, a: int, x: int, y: int)
    requires 0 <= carry < BASE && 0 <= a < BASE && 0 <= x < BASE && 0 <= y < BASE
    ensures 0 <= carry + a + x * y < BASE * BASE
  {
    MulMono(x, BASE - 1, y);
    MulMono(0, x, y);
  }

  lemma MulColumn(v: int, xv: int, b: int, x: int, carry: int, p: int)
    requires v + carry * p == xv * b
    ensures v + ((carry + b * x) % BASE) * p + ((carry + b * x) / BASE) * (BASE * p) == (xv + x * p) * b
  {
    Carry(carry + b * x, BASE, p);
    MulAdd(p, carry, b * x);
    MulAdd(b, xv, x * p);
    MulAssoc(b, x, p);
  }

  lemma RowColumn(v: int, v': int, x: int, carry: int, d: int, y: int, xv: int, yv: int, pj: int, pi: int)
    requires v' == v + ((carry + x + d * y) % BASE - x) * (pj * pi)
    requires v + carry * (pj * pi) == xv + d * (pj * yv)
    ensures v' + ((carry + x + d * y) / BASE) * (BASE * (pj * pi)) == xv + d * (pj * (yv + y * pi))
  {
    AddColumn(v, v', x, d * y, carry, xv + d * (pj * yv), pj * pi);
    MulAdd(pj, yv, y * pi);
    MulAdd(d, pj * yv, pj * (y * pi));
    MulAssoc(pj, y, pi);
    MulAssoc(d, y, pj * pi);
  }

  lemma RowTotal(b: seq<nat>, j: nat, v: int, carry: int, xv: int, d: int)
    requires j < |b| && 0 <= v < Pow(BASE, |b|)
    requires v + carry * Pow(BASE, |b|) == xv + d * (Pow(BASE, j) * Value(BASE, b[..|b| - j]))
    ensures v == (xv + d * (Pow(BASE, j) * Value(BASE, b))) % Pow(BASE, |b|)
  {
    hide Pow, Value;
    var n := |b| - j;
    ValueSplit(BASE, b, n);
    PowAdd(BASE, j, n);
    RowRest(v, carry, Pow(BASE, |b|), xv, d, Pow(BASE, j), Pow(BASE, n), Value(BASE, b[..n]), Value(BASE, b[n..]),
            Value(BASE, b));
  }

  lemma RowRest(v: int, carry: int, m: int, xv: int, d: int, pj: int, pn: int, low: int, high: int, all: int)
    requires 0 <= v < m && m == pj * pn && all == low + pn * high && v + carry * m == xv + d * (pj * low)
    ensures v == (xv + d * (pj * all)) % m
  {
    MulAdd(pj, low, pn * high);
    MulAssoc(pj, pn, high);
    MulAdd(d, pj * low, (pj * pn) * high);
    MulAssoc(d, high, pj * pn);
    MulAdd(m, carry, d * high);
    ModOf(xv + d * (pj * all), v, m, carry + d * high);
  }

  lemma AddRowModulo(xv: int, x: int, p: int, b: int, m: int)
    requires m > 0
    ensures ((xv * b) % m + x * (p * b)) % m == ((xv + x * p) * b) % m
  {
    DivModSplit(xv * b, m);
    MulAdd(b, xv, x * p);
    MulAssoc(x, p, b);
    ModDrop((xv * b) % m + x * (p * b), m, (xv * b) / m);
  }

  // ---------------------------------------------------------------------------------------------
  // Division
  // ---------------------------------------------------------------------------------------------

  /** No bit below bit t is set. */
  ghost predicate ClearBelow(s: seq<Limb>, t: nat) {
    forall i :: 0 <= i < |s| ==> (i < t / 32 ==> s[i] == 0) && (i == t / 32 ==> s[i] % Pow(2, t % 32) == 0)
  }

  lemma ClearAll(s: seq<Limb>, t: nat)
    requires forall i :: 0 <= i < |s| ==> s[i] == 0
    ensures ClearBelow(s, t)
  {
    hide Pow;
    ModOf(0, 0, Pow(2, t % 32), 0);
  }

  lemma ClearAt(s: seq<Limb>, t: nat)
    requires t < 32 * |s| && ClearBelow(s, t + 1)
    ensures s[t / 32] % Pow(2, t % 32 + 1) == 0
  {
    hide Pow;
    ModOf(0, 0, Pow(2, t % 32 + 1), 0);
    assert t % 32 == 31 || (t + 1) / 32 == t / 32;
  }

  lemma ModHalf(x: int, p: int)
    requires p > 0 && x % (2 * p) == 0
    ensures x % p == 0
  {
    DivModSplit(x, 2 * p);
    MulAssoc(x / (2 * p), 2, p);
    ModOf(x, 0, p, 2 * (x / (2 * p)));
  }

  lemma ClearLess(s: seq<Limb>, t: nat)
    requires t < 32 * |s| && ClearBelow(s, t + 1)
    ensures ClearBelow(s, t)
  {
    hide Pow;
    ClearAt(s, t);
    PowStep(2, t % 32);
    ModHalf(s[t / 32], Pow(2, t % 32));
  }

  lemma ClearOr(s: seq<Limb>, t: nat)
    requires t < 32 * |s| && ClearBelow(s, t + 1)
    ensures Or(s[t / 32], Pow(2, t % 32)) == s[t / 32] + Pow(2, t % 32) < BASE
  {
    hide Pow, Or;
    var x, n := s[t / 32], t % 32;
    ClearAt(s, t);
    PowStep(2, n);
    OrDisjoint(x, Pow(2, n), n + 1);
    PowSplit(n + 1);
    RoomAbove(x, Pow(2, n + 1), Pow(2, 31 - n));
  }

  /** Below a multiple of p, the next multiple is still not above it. */
  lemma RoomAbove(x: int, p: int, q: int)
    requires p > 0 && x % p == 0 && x < p * q
    ensures x + p <= p * q
  {
    DivModSplit(x, p);
    var k := x / p;
    if k >= q { MulMono(q, k, p); }
    MulMono(k + 1, q, p);
    MulAdd(p, k, 1);
  }

  lemma ClearAfter(s: seq<Limb>, s': seq<Limb>, t: nat)
    requires t < 32 * |s| && ClearBelow(s, t + 1) && s[t / 32] + Pow(2, t % 32) < BASE
    requires s' == s[t / 32 := s[t / 32] + Pow(2, t % 32)]
    ensures ClearBelow(s', t)
  {
    hide Pow;
    ClearLess(s, t);
    ModDrop(s[t / 32], Pow(2, t % 32), 1);
  }

  /** Dividend and divisor aligned at their highest bit; the shift loses nothing. */
  lemma Aligned(a: int, d: int, na: nat, nd: nat, m: int, width: nat)
    requires 0 < nd <= na <= 32 * width && m == Pow(BASE, width)
    requires a < Pow(2, na) && Pow(2, nd - 1) <= d < Pow(2, nd)
    ensures (d * Pow(2, na - nd)) % m == d * Pow(2, na - nd)
    ensures a < d * Pow(2, na - nd + 1)
  {
    hide Pow;
    var p := Pow(2, na - nd);
    PowAdd(2, nd, na - nd);
    PowAdd(2, nd - 1, na - nd + 1);
    MulMono(Pow(2, nd - 1), d, Pow(2, na - nd + 1));
    MulMono(d + 1, Pow(2, nd), p);
    MulMono(0, d, p);
    MulAdd(p, d, 1);
    Pow2Const();
    PowPow(2, 32, width);
    PowMono(2, na, 32 * width);
    ModOf(d * p, d * p, m, 0);
  }

  lemma QuotientStep(a: int, d: int, q: int, n: int, p: int, subtract: bool)
    requires a == q * d + n && 0 <= n < d * (2 * p) && subtract == (n >= d * p)
    ensures subtract ==> a == (q + p) * d + (n - d * p) && n - d * p < d * p
    ensures !subtract ==> n < d * p
  {
    MulAdd(d, q, p);
    MulAssoc(d, 2, p);
  }

  lemma HalfShift(d: int, shift: nat)
    requires shift > 0
    ensures d * Pow(2, shift) / Pow(2, 1) == d * Pow(2, shift - 1)
  {
    PowStep(2, shift - 1);
    assert Pow(2, 1) == 2;
    MulAssoc(d, 2, Pow(2, shift - 1));
    DivModUnique(d * Pow(2, shift), 2, d * Pow(2, shift - 1), 0);
  }

  lemma DivisionDone(a: int, d: int, q: int, r: int)
    requires a == q * d + r && 0 <= r < d * Pow(2, 0)
    ensures r < d && a / d == q
  {
    assert Pow(2, 0) == 1;
    DivModUnique(a, d, q, r);
  }

  lemma EmptySum(y: seq<nat>)
    ensures Value(BASE, y[..0]) == 0 && Pow(BASE, 0) == 1
  {}

  lemma TwoLimbs(s: seq<Limb>, b: nat)
    requires |s| >= 2 && b < BASE * BASE && s[0] == b % BASE && s[1] == b / BASE
    requires forall j :: 2 <= j < |s| ==> s[j] == 0
    ensures Value(BASE, s) == b
  {
    var zeros := s[2..];
    assert s == [s[0], s[1]] + zeros;
    ValuePadded(BASE, [s[0], s[1]], zeros);
    assert [] + [s[0]] == [s[0]] && [s[0]] + [s[1]] == [s[0], s[1]];
    ValuePush(BASE, [], s[0]);
    ValuePush(BASE, [s[0]], s[1]);
    assert Pow(BASE, 1) == BASE;
  }
}
