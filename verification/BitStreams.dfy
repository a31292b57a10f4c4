/** Bit streams over bytes, most significant bit first (BitStreamWriter and BitStreamReader of streams.h). */
module BitStreams {
  import opened Digits
  import opened Limbs

  /** The n low bits of x, highest first. */
  function BitsOf(x: nat, n: nat): (r: seq<bool>)
    ensures |r| == n
  {
    if n == 0 then [] else BitsOf(x / 2, n - 1) + [x % 2 == 1]
  }

  /** The number a sequence of bits stands for. */
  function Num(bs: seq<bool>): nat {
    if bs == [] then 0 else 2 * Num(bs[..|bs| - 1]) + if bs[|bs| - 1] then 1 else 0
  }

  lemma {:induction false} NumBound(bs: seq<bool>)
    ensures Num(bs) < Pow(2, |bs|)
  {
    if bs != [] { NumBound(bs[..|bs| - 1]); }
  }

  lemma {:induction false} NumBits(x: nat, n: nat)
    ensures Num(BitsOf(x, n)) == x % Pow(2, n)
  {
    if n > 0 {
      NumBits(x / 2, n - 1);
      var p := Pow(2, n - 1);
      assert BitsOf(x, n)[..n - 1] == BitsOf(x / 2, n - 1);
      DivModSplit(x / 2, p);
      ModTwice(x, p, x / 2 / p, x / 2 % p);
    }
  }

  lemma ModTwice(x: int, p: int, q: int, r: int)
    requires x / 2 == q * p + r && 0 <= r < p
    ensures x % (2 * p) == 2 * r + x % 2
  {
    MulAssoc(q, 2, p);
    DivModUnique(x, 2 * p, q, 2 * r + x % 2);
  }

  lemma {:induction false} BitsNum(bs: seq<bool>)
    ensures BitsOf(Num(bs), |bs|) == bs
  {
    if bs != [] {
      BitsNum(bs[..|bs| - 1]);
      assert bs == bs[..|bs| - 1] + [bs[|bs| - 1]];
    }
  }

  lemma {:induction false} NumAppend(a: seq<bool>, b: seq<bool>)
    ensures Num(a + b) == Num(a) * Pow(2, |b|) + Num(b)
    decreases |b|
  {
    if b == [] {
      assert a + b == a;
    } else {
      var n := |b| - 1;
      NumAppend(a, b[..n]);
      assert (a + b)[..|a| + n] == a + b[..n];
      MulAssoc(Num(a), 2, Pow(2, n));
    }
  }

  lemma BitsSplit(x: nat, n: nat, k: nat)
    requires k <= n
    ensures BitsOf(x, n) == BitsOf(x / Pow(2, n - k), k) + BitsOf(x, n - k)
  {
    hide Pow, Num, BitsOf;
    var y := x / Pow(2, n - k);
    NumBits(x, n);
    NumBits(y, k);
    NumBits(x, n - k);
    NumAppend(BitsOf(y, k), BitsOf(x, n - k));
    PowAdd(2, k, n - k);
    ModSplit(x, Pow(2, k), Pow(2, n - k));
    SameBits(BitsOf(x, n), BitsOf(y, k) + BitsOf(x, n - k));
  }

  lemma ModSplit(x: int, p: int, q: int)
    requires p > 0 && q > 0
    ensures p * q > 0 && x % (p * q) == (x / q % p) * q + x % q
  {
    DivModSplit(x, q);
    DivModSplit(x / q, p);
    DivDivSum(x, q, p, x / q, x % q, x / q / p, x / q % p);
    DivModUnique(x, p * q, x / q / p, (x / q % p) * q + x % q);
  }

  /** Equal numbers of bits with equal values are equal. */
  lemma SameBits(a: seq<bool>, b: seq<bool>)
    requires |a| == |b| && Num(a) == Num(b)
    ensures a == b
  {
    BitsNum(a);
    BitsNum(b);
  }

  /** The bits of a sequence of bytes. */
  function Unpacked(bytes: seq<nat>): (r: seq<bool>)
    ensures |r| == 8 * |bytes|
  {
    if bytes == [] then [] else BitsOf(bytes[0], 8) + Unpacked(bytes[1..])
  }

  lemma {:induction false} UnpackedAppend(a: seq<nat>, b: seq<nat>)
    ensures Unpacked(a + b) == Unpacked(a) + Unpacked(b)
    decreases |a|
  {
    if a == [] {
      assert a + b == b;
    } else {
      UnpackedAppend(a[1..], b);
      assert (a + b)[1..] == a[1..] + b;
    }
  }

  lemma UnpackedOne(x: nat)
    ensures Unpacked([x]) == BitsOf(x, 8)
  {
    assert Unpacked([x][1..]) == [];
  }

  function Min(a: nat, b: nat): nat { if a < b then a else b }

  // ---------------------------------------------------------------------------------------------
  // Writing
  // ---------------------------------------------------------------------------------------------

  /** 64-bit shifts. */
  function Shl64(x: nat, s: nat): nat { (x * Pow(2, s)) % Pow(2, 64) }

  function Shr(x: nat, s: nat): nat { x / Pow(2, s) }

  /** What one round of Write puts into the buffer: the highest of the bits still to be written, aligned below the
      bits already there. */
  function Chunk(data: nat, nbits: nat, offset: nat): nat
    requires nbits <= 64 && offset < 8
  {
    Shr(Shl64(data, 64 - nbits), 56 + offset)
  }

  lemma ChunkIs(data: nat, nbits: nat, offset: nat)
    requires 0 < nbits <= 64 && offset < 8
    ensures var bits := Min(8 - offset, nbits);
            Chunk(data, nbits, offset) == Num(BitsOf(data, nbits)[..bits]) * Pow(2, 8 - offset - bits)
  {
    hide Pow, Num, BitsOf;
    var room := 8 - offset;
    var bits := Min(room, nbits);
    var d := data % Pow(2, nbits);
    PowAdd(2, 64 - nbits, nbits);
    ScaleMod(data, Pow(2, 64 - nbits), Pow(2, nbits));
    BitsSplit(data, nbits, bits);
    NumBits(data, nbits);
    if nbits <= room {
      assert BitsOf(data, nbits)[..bits] == BitsOf(data, nbits);
      PowAdd(2, 64 - room, room - nbits);
      MulAssoc(d, Pow(2, 64 - room), Pow(2, room - nbits));
      DivModUnique(d * Pow(2, 64 - nbits), Pow(2, 64 - room), d * Pow(2, room - nbits), 0);
    } else {
      TopOf(data, nbits, bits);
      PowAdd(2, 64 - nbits, nbits - room);
      DivScale(d, Pow(2, 64 - nbits), Pow(2, nbits - room));
      assert Pow(2, 0) == 1 by { PowZero(); }
    }
  }

  lemma PowZero()
    ensures Pow(2, 0) == 1 && Pow(2, 1) == 2
  {}

  lemma ScaleMod(x: int, p: int, q: int)
    requires p > 0 && q > 0
    ensures (x * p) % (p * q) == (x % q) * p
  {
    DivModSplit(x, q);
    ScaleSum(x, p, q, x / q, x % q);
    DivModUnique(x * p, p * q, x / q, (x % q) * p);
  }

  lemma DivScale(d: int, p: int, q: int)
    requires p > 0 && q > 0
    ensures p * q > 0 && (d * p) / (p * q) == d / q
  {
    DivModSplit(d, q);
    ScaleSum(d, p, q, d / q, d % q);
    DivModUnique(d * p, p * q, d / q, (d % q) * p);
  }

  /** The value of the first k of n bits. */
  lemma TopOf(x: nat, n: nat, k: nat)
    requires k <= n
    ensures Num(BitsOf(x, n)[..k]) == x % Pow(2, n) / Pow(2, n - k)
  {
    hide Pow, Num, BitsOf;
    var bs := BitsOf(x, n);
    assert bs == bs[..k] + bs[k..];
    NumAppend(bs[..k], bs[k..]);
    NumBound(bs[k..]);
    NumBits(x, n);
    DivModUnique(x % Pow(2, n), Pow(2, n - k), Num(bs[..k]), Num(bs[k..]));
  }

  /** A buffer that holds the given bits at its top. */
  ghost predicate Holds(buffer: nat, pending: seq<bool>) {
    |pending| <= 8 && buffer == Num(pending) * Pow(2, 8 - |pending|)
  }

  /** One round: the buffer takes as many of the bits as it has room for. */
  lemma BufferStep(buffer: nat, pending: seq<bool>, data: nat, nbits: nat)
    requires Holds(buffer, pending) && |pending| < 8 && 0 < nbits <= 64
    ensures var bits := Min(8 - |pending|, nbits);
            Holds(Or(buffer, Chunk(data, nbits, |pending|)), pending + BitsOf(data, nbits)[..bits])
  {
    hide Pow, Num, BitsOf, Or, Chunk;
    var room := 8 - |pending|;
    var bits := Min(room, nbits);
    var chunk := BitsOf(data, nbits)[..bits];
    ChunkIs(data, nbits, |pending|);
    NumBound(chunk);
    PowAdd(2, bits, room - bits);
    ChunkBound(Num(chunk), Pow(2, bits), Pow(2, room - bits));
    ModOf(buffer, 0, Pow(2, room), Num(pending));
    OrDisjoint(buffer, Chunk(data, nbits, |pending|), room);
    NumAppend(pending, chunk);
    Refill(Num(pending), Num(chunk), Pow(2, bits), Pow(2, room - bits));
  }

  lemma Refill(np: int, nc: int, p: int, q: int)
    ensures np * (p * q) + nc * q == (np * p + nc) * q
  {
    MulAdd(q, np * p, nc);
    MulAssoc(np, p, q);
  }

  lemma ChunkBound(v: int, p: int, q: int)
    requires 0 <= v < p && q > 0
    ensures 0 <= v * q < p * q
  {
    MulMono(0, v, q);
    MulMono(v + 1, p, q);
    MulAdd(q, v, 1);
  }

  lemma FullBuffer(buffer: nat, pending: seq<bool>)
    requires Holds(buffer, pending)
    ensures buffer < 256 && BitsOf(buffer, 8) == pending + Falses(8 - |pending|)
  {
    hide Num, BitsOf;
    var k := 8 - |pending|;
    var all := pending + Falses(k);
    NumAppend(pending, Falses(k));
    FalsesZero(k);
    NumBound(all);
    BitsNum(all);
    Pow2Const();
  }

  function Falses(n: nat): (r: seq<bool>)
    ensures |r| == n && forall i :: 0 <= i < n ==> !r[i]
  {
    seq(n, _ => false)
  }

  lemma {:induction false} FalsesZero(n: nat)
    ensures Num(Falses(n)) == 0
  {
    if n > 0 {
      FalsesZero(n - 1);
      assert Falses(n)[..n - 1] == Falses(n - 1);
    }
  }

  class BitWriter {
    var out: seq<nat>
    var buffer: nat
    var offset: nat
    ghost var pending: seq<bool>

    ghost predicate Valid()
      reads this
    {
      offset < 8 && |pending| == offset && Holds(buffer, pending)
    }

    /** Everything written so far. */
    ghost function Bits(): seq<bool>
      reads this
    {
      Unpacked(out) + pending
    }

    constructor ()
      ensures Valid() && Bits() == [] && out == []
    {
      out, buffer, offset, pending := [], 0, 0, [];
    }

    /** Appends the low bits of the data; a number of bits outside 0 to 64 throws. */
    method Write(data: nat, nbits0: int) returns (ok: bool)
      requires Valid()
      modifies this
      ensures Valid() && ok == (0 <= nbits0 <= 64)
      ensures Bits() == if ok then old(Bits()) + BitsOf(data, nbits0) else old(Bits())
    {
      hide Pow, Num, BitsOf, Or, Chunk, Holds, Unpacked;
      if nbits0 < 0 || nbits0 > 64 { return false; }
      var nbits: nat := nbits0;
      while nbits > 0
        invariant Valid() && nbits <= nbits0 && Bits() + BitsOf(data, nbits) == old(Bits()) + BitsOf(data, nbits0)
      {
        ghost var before := Bits();
        var bits := Min(8 - offset, nbits);
        BufferStep(buffer, pending, data, nbits);
        BitsSplit(data, nbits, bits);
        ghost var chunk := BitsOf(data, nbits)[..bits];
        assert BitsOf(data, nbits) == chunk + BitsOf(data, nbits - bits);
        buffer := Or(buffer, Chunk(data, nbits, offset));
        offset := offset + bits;
        nbits := nbits - bits;
        pending := pending + chunk;
        assert Unpacked(out) + pending + BitsOf(data, nbits) == before + (chunk + BitsOf(data, nbits));
        if offset == 8 { Flush(); assert before + chunk + Falses(0) == before + chunk; }
      }
      assert Bits() + BitsOf(data, 0) == Bits();
      ok := true;
    }

    /** Pads the last byte with zeros. */
    method Flush()
      requires offset <= 8 && |pending| == offset && Holds(buffer, pending)
      modifies this
      ensures Valid() && offset == 0
      ensures old(offset) == 0 ==> out == old(out)
      ensures old(offset) > 0 ==> Bits() == Unpacked(old(out)) + old(pending) + Falses(8 - old(offset))
    {
      if offset == 0 { return; }
      FullBuffer(buffer, pending);
      UnpackedAppend(out, [buffer]);
      UnpackedOne(buffer);
      out := out + [buffer];
      buffer, offset, pending := 0, 0, [];
      assert Unpacked(out) + [] == Unpacked(out);
      assert Unpacked(old(out)) + (old(pending) + Falses(8 - old(offset)))
             == Unpacked(old(out)) + old(pending) + Falses(8 - old(offset));
    }
  }

  // ---------------------------------------------------------------------------------------------
  // Reading
  // ---------------------------------------------------------------------------------------------

  /** What one round of Read takes from the buffer. */
  function Taken(buffer: nat, offset: nat, bits: nat): nat
    requires offset <= 8 && bits <= 8
  {
    Shr((buffer * Pow(2, offset)) % 256, 8 - bits)
  }

  lemma TakenIs(buffer: nat, offset: nat, bits: nat)
    requires offset + bits <= 8
    ensures Taken(buffer, offset, bits) == Num(BitsOf(buffer, 8)[offset..offset + bits])
  {
    hide Pow, Num, BitsOf;
    var m := 8 - offset;
    Pow2Const();
    PowAdd(2, offset, m);
    ScaleMod(buffer, Pow(2, offset), Pow(2, m));
    PowAdd(2, offset, m - bits);
    DivScale(buffer % Pow(2, m), Pow(2, offset), Pow(2, m - bits));
    BitsSplit(buffer, 8, offset);
    TopOf(buffer, m, bits);
    assert BitsOf(buffer, 8)[offset..offset + bits] == BitsOf(buffer, m)[..bits];
  }

  class BitReader {
    const data: seq<nat>
    var pos: nat
    var buffer: nat
    var offset: nat

    ghost predicate Valid()
      reads this
    {
      offset <= 8 && pos <= |data|
    }

    /** The bits not yet read. */
    ghost function Left(): seq<bool>
      requires Valid()
      reads this
    {
      BitsOf(buffer, 8)[offset..] + Unpacked(data[pos..])
    }

    predicate StreamEmpty() reads this { pos >= |data| }

    constructor (data: seq<nat>)
      ensures Valid() && Left() == Unpacked(data) && this.data == data && offset == 8
    {
      this.data := data;
      pos, buffer, offset := 0, 0, 8;
      new;
      assert data[0..] == data && BitsOf(buffer, 8)[8..] == [];
    }

    /** Whole bytes are fetched, so the stream is empty exactly when fewer than eight bits are left. */
    lemma EmptyIff()
      requires Valid() && offset > 0
      ensures StreamEmpty() <==> |Left()| < 8
    {}

    method Fetch() returns (ok: bool)
      requires Valid() && offset == 8
      modifies this
      ensures Valid() && Left() == old(Left()) && ok == (old(Left()) != [])
      ensures ok ==> offset == 0
      ensures !ok ==> pos == old(pos) && offset == 8
    {
      if pos >= |data| { return false; }
      assert data[pos..] == [data[pos]] + data[pos + 1..];
      buffer := data[pos];
      pos := pos + 1;
      offset := 0;
      ok := true;
      assert BitsOf(buffer, 8)[0..] == BitsOf(buffer, 8);
    }

    method TakeBits(bits: nat) returns (chunk: nat)
      requires Valid() && offset + bits <= 8
      modifies this
      ensures Valid() && offset == old(offset) + bits && bits <= |old(Left())|
      ensures Left() == old(Left())[bits..] && chunk == Num(old(Left())[..bits])
    {
      hide Num, BitsOf, Taken, Unpacked;
      TakeFrom(bits);
      TakenIs(buffer, offset, bits);
      chunk := Taken(buffer, offset, bits);
      offset := offset + bits;
    }

    /** The next bits as a number; a number of bits outside 0 to 64 throws, and so does reading past the end. */
    method Read(nbits0: int) returns (ok: bool, value: nat)
      requires Valid()
      modifies this
      ensures Valid() && ok == (0 <= nbits0 <= 64 && |old(Left())| >= nbits0)
      ensures ok ==> Left() == old(Left())[nbits0..] && value == Num(old(Left())[..nbits0])
      ensures ok && nbits0 > 0 ==> offset > 0
      ensures ok && nbits0 == 0 ==> offset == old(offset)
    {
      hide Pow, Num, BitsOf, Or, Taken, Unpacked, Left;
      if nbits0 < 0 || nbits0 > 64 { return false, 0; }
      value := 0;
      ghost var all := Left();
      var nbits: nat := nbits0;
      NumNone();
      while nbits > 0
        invariant Valid() && nbits <= nbits0 && nbits0 - nbits <= |all| && Left() == all[nbits0 - nbits..]
        invariant value == Num(all[..nbits0 - nbits])
        invariant nbits < nbits0 ==> offset > 0
        invariant nbits == nbits0 ==> offset == old(offset)
      {
        if offset == 8 {
          var got := Fetch();
          if !got { return false, 0; }
        }
        ghost var done := nbits0 - nbits;
        var bits := Min(8 - offset, nbits);
        var chunk := TakeBits(bits);
        assert all[..done + bits] == all[..done] + all[done..][..bits];
        AppendValue(all[..done], all[done..][..bits]);
        value := Or(value * Pow(2, bits), chunk);
        nbits := nbits - bits;
        assert all[done..][bits..] == all[done + bits..];
      }
      ok := true;
    }

    /** The bits at the front of what is left are in the buffer. */
    lemma TakeFrom(bits: nat)
      requires Valid() && offset + bits <= 8
      ensures bits <= |Left()| && Left()[..bits] == BitsOf(buffer, 8)[offset..offset + bits]
      ensures Left()[bits..] == BitsOf(buffer, 8)[offset + bits..] + Unpacked(data[pos..])
    {
      hide BitsOf, Unpacked;
      var front := BitsOf(buffer, 8)[offset..];
      assert front[..bits] == BitsOf(buffer, 8)[offset..offset + bits]
             && front[bits..] == BitsOf(buffer, 8)[offset + bits..];
    }
  }

  lemma NumNone()
    ensures Num([]) == 0
  {}

  lemma AppendValue(a: seq<bool>, b: seq<bool>)
    ensures Or(Num(a) * Pow(2, |b|), Num(b)) == Num(a + b)
  {
    hide Pow, Num, Or;
    NumAppend(a, b);
    NumBound(b);
    ModOf(Num(a) * Pow(2, |b|), 0, Pow(2, |b|), Num(a));
    OrDisjoint(Num(a) * Pow(2, |b|), Num(b), |b|);
  }
}
