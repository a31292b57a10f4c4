/** Numbers as sequences of digits, least significant first, in any base. */
module Digits {
  const TWO16: nat := 0x1_0000
  const TWO32: nat := 0x1_0000_0000
  const TWO48: nat := 0x1_0000_0000_0000
  const TWO64: nat := 0x1_0000_0000_0000_0000

  function Pow(b: nat, e: nat): (r: nat)
    ensures b > 0 ==> r > 0
  {
    if e == 0 then 1 else b * Pow(b, e - 1)
  }

  lemma {:induction false} PowAdd(b: nat, m: nat, n: nat)
    ensures Pow(b, m + n) == Pow(b, m) * Pow(b, n)
  {
    if m > 0 {
      PowAdd(b, m - 1, n);
      MulAssoc(b, Pow(b, m - 1), Pow(b, n));
    }
  }

  lemma {:induction false} PowPow(b: nat, k: nat, n: nat)
    ensures Pow(Pow(b, k), n) == Pow(b, k * n)
  {
    if n > 0 {
      PowPow(b, k, n - 1);
      PowAdd(b, k, k * (n - 1));
      assert k + k * (n - 1) == k * n;
    }
  }

  lemma {:induction false} PowMono(b: nat, m: nat, n: nat)
    requires b > 0 && m <= n
    ensures Pow(b, m) <= Pow(b, n)
    decreases n
  {
    if m < n {
      PowMono(b, m, n - 1);
      MulMono(1, b, Pow(b, n - 1));
    }
  }

  lemma Pow2Const()
    ensures Pow(2, 8) == 0x100 && Pow(2, 16) == 0x1_0000 && Pow(2, 24) == 0x100_0000 && Pow(2, 32) == 0x1_0000_0000
  {
    assert Pow(2, 4) == 16;
    PowAdd(2, 4, 4);
    PowAdd(2, 8, 8);
    PowAdd(2, 16, 8);
    PowAdd(2, 16, 16);
  }

  predicate Proper(b: nat, s: seq<nat>) { forall i :: 0 <= i < |s| ==> s[i] < b }

  function Value(b: nat, s: seq<nat>): nat {
    if s == [] then 0 else Value(b, s[..|s| - 1]) + s[|s| - 1] * Pow(b, |s| - 1)
  }

  lemma ValuePush(b: nat, s: seq<nat>, d: nat)
    ensures Value(b, s + [d]) == Value(b, s) + d * Pow(b, |s|)
  {
    assert (s + [d])[..|s|] == s;
  }

  lemma ValueTake(b: nat, s: seq<nat>, i: nat)
    requires i < |s|
    ensures Value(b, s[..i + 1]) == Value(b, s[..i]) + s[i] * Pow(b, i)
  {
    assert s[..i + 1] == s[..i] + [s[i]];
    ValuePush(b, s[..i], s[i]);
  }

  lemma PowStep(b: nat, n: nat)
    ensures Pow(b, n + 1) == b * Pow(b, n)
  {}

  lemma {:induction false} ValueBound(b: nat, s: seq<nat>)
    requires b > 0 && Proper(b, s)
    ensures Value(b, s) < Pow(b, |s|)
  {
    if s != [] {
      hide Pow, Value;
      var n := |s| - 1;
      ValueBound(b, s[..n]);
      assert s[..n + 1] == s;
      ValueTake(b, s, n);
      PowStep(b, n);
      BoundStep(Value(b, s[..n]), s[n], b, Pow(b, n));
    }
  }

  lemma BoundStep(v: int, d: int, b: int, p: int)
    requires v < p && d < b && 0 < p
    ensures v + d * p < b * p
  {
    MulMono(d + 1, b, p);
    MulAdd(p, d, 1);
  }

  lemma {:induction false} ValueUpdate(b: nat, s: seq<nat>, i: nat, d: nat)
    requires i < |s|
    ensures Value(b, s[i := d]) == Value(b, s) + (d - s[i]) * Pow(b, i)
  {
    var n := |s| - 1;
    if i < n {
      ValueUpdate(b, s[..n], i, d);
      assert s[i := d][..n] == s[..n][i := d];
    } else {
      assert s[i := d][..n] == s[..n];
      MulSub(Pow(b, n), d, s[n]);
    }
  }

  lemma ValueSplit(b: nat, s: seq<nat>, k: nat)
    requires k <= |s|
    ensures Value(b, s) == Value(b, s[..k]) + Pow(b, k) * Value(b, s[k..])
  {
    assert s == s[..k] + s[k..];
    ValueConcat(b, s[..k], s[k..]);
  }

  /** Leading zeros do not count. */
  lemma ValuePadded(b: nat, s: seq<nat>, zeros: seq<nat>)
    requires forall i :: 0 <= i < |zeros| ==> zeros[i] == 0
    ensures Value(b, s + zeros) == Value(b, s)
  {
    ValueConcat(b, s, zeros);
    ValueZeros(b, zeros);
  }

  lemma {:induction false} ValueConcat(b: nat, s: seq<nat>, t: seq<nat>)
    ensures Value(b, s + t) == Value(b, s) + Pow(b, |s|) * Value(b, t)
    decreases |t|
  {
    if t == [] {
      assert s + t == s;
    } else {
      var n := |t| - 1;
      ValueConcat(b, s, t[..n]);
      assert (s + t)[..|s| + n] == s + t[..n];
      PowAdd(b, |s|, n);
      MulAssoc(t[n], Pow(b, |s|), Pow(b, n));
      MulAdd(Pow(b, |s|), Value(b, t[..n]), t[n] * Pow(b, n));
    }
  }

  lemma {:induction false} ValueZeros(b: nat, s: seq<nat>)
    requires forall i :: 0 <= i < |s| ==> s[i] == 0
    ensures Value(b, s) == 0
  {
    if s != [] { ValueZeros(b, s[..|s| - 1]); }
  }

  /** Proper digit sequences of one length stand for different numbers. */
  lemma {:induction false} ValueInjective(b: nat, s: seq<nat>, t: seq<nat>)
    requires b > 0 && Proper(b, s) && Proper(b, t) && |s| == |t| && Value(b, s) == Value(b, t)
    ensures s == t
  {
    if s != [] {
      var n := |s| - 1;
      ValueBound(b, s[..n]);
      ValueBound(b, t[..n]);
      DivModUnique(Value(b, s), Pow(b, n), s[n], Value(b, s[..n]));
      DivModUnique(Value(b, t), Pow(b, n), t[n], Value(b, t[..n]));
      ValueInjective(b, s[..n], t[..n]);
      assert s == s[..n] + [s[n]] && t == t[..n] + [t[n]];
    }
  }

  // ---------------------------------------------------------------------------------------------
  // Products and quotients
  // ---------------------------------------------------------------------------------------------

  lemma MulAssoc(x: int, y: int, z: int)
    ensures x * (y * z) == y * (x * z) == (x * y) * z
  {}

  lemma MulAdd(x: int, y: int, z: int)
    ensures x * (y + z) == x * y + x * z
  {}

  lemma MulSub(p: int, x: int, y: int)
    ensures (x - y) * p == x * p - y * p
  {}

  lemma MulMono(x: int, y: int, z: int)
    requires x <= y && 0 <= z
    ensures x * z <= y * z
  {}

  lemma DivModUnique(a: int, d: int, q: int, r: int)
    requires a == q * d + r && 0 <= r < d
    ensures a / d == q && a % d == r
  {
    var q', r' := a / d, a % d;
    assert a == q' * d + r';
    MulAdd(d, q, 1);
    MulAdd(d, q', 1);
    if q < q' { MulMono(q + 1, q', d); }
    if q' < q { MulMono(q' + 1, q, d); }
  }

  lemma DivModSplit(a: int, d: int)
    requires d > 0
    ensures a == (a / d) * d + a % d && 0 <= a % d < d && (a >= 0 ==> a / d >= 0)
  {}

  /** Splitting a column sum into its digit and its carry. */
  lemma Carry(n: int, b: int, p: int)
    requires b > 0
    ensures (n % b) * p + (n / b) * (b * p) == n * p
  {
    DivModSplit(n, b);
    MulAssoc(n / b, b, p);
    MulAdd(p, (n / b) * b, n % b);
  }

  lemma DivDiv(a: int, c: int, d: int)
    requires c > 0 && d > 0
    ensures c * d > 0 && a / c / d == a / (c * d)
  {
    var ac := a / c;
    DivModSplit(a, c);
    DivModSplit(ac, d);
    DivDivSum(a, c, d, ac, a % c, ac / d, ac % d);
    DivModUnique(a, c * d, ac / d, (ac % d) * c + a % c);
  }

  lemma DivDivSum(a: int, c: int, d: int, q1: int, r1: int, q2: int, r2: int)
    requires a == q1 * c + r1 && 0 <= r1 < c && q1 == q2 * d + r2 && 0 <= r2 < d
    ensures a == q2 * (c * d) + (r2 * c + r1) && 0 <= r2 * c + r1 < c * d && 0 < c * d
  {
    MulAdd(c, q2 * d, r2);
    MulAssoc(q2, c, d);
    MulMono(0, r2, c);
    MulMono(r2 + 1, d, c);
    MulAdd(c, r2, 1);
  }

  /** Two numbers that differ by a multiple of m, the smaller below m. */
  lemma ModOf(a: int, r: int, m: int, k: int)
    requires 0 <= r < m && a == r + k * m
    ensures a % m == r
  {
    DivModUnique(a, m, k, r);
  }

  lemma ModDrop(a: int, m: int, k: int)
    requires m > 0
    ensures (a + k * m) % m == a % m
  {
    DivModSplit(a, m);
    MulAdd(m, a / m, k);
    DivModUnique(a + k * m, m, a / m + k, a % m);
  }
}
