/** The length prefix of serialize.h: one, three, five or nine bytes. */
module Serialize {
  import opened Digits

  const MAX_SIZE: nat := 0x0200_0000

  /** The k bytes of n, lowest first. */
  function Bytes(n: nat, k: nat): (r: seq<nat>)
    ensures |r| == k && Proper(256, r)
  {
    if k == 0 then [] else [n % 256] + Bytes(n / 256, k - 1)
  }

  lemma {:induction false} BytesValue(n: nat, k: nat)
    requires n < Pow(256, k)
    ensures Value(256, Bytes(n, k)) == n
  {
    if k > 0 {
      BytesValue(n / 256, k - 1);
      ValueSplit(256, Bytes(n, k), 1);
      assert Bytes(n, k)[..1] == [] + [n % 256] && Bytes(n, k)[1..] == Bytes(n / 256, k - 1);
      ValuePush(256, [], n % 256);
      assert Pow(256, 1) == 256;
    }
  }

  function CompactSize(n: nat): seq<nat> {
    if n < 253 then [n]
    else if n <= 0xffff then [253] + Bytes(n, 2)
    else if n <= 0xffff_ffff then [254] + Bytes(n, 4)
    else [255] + Bytes(n, 8)
  }

  datatype Size = BadSize | Size(n: nat, rest: seq<nat>)

  /** Reads k bytes; a value below `least` is not canonical, and one above MAX_SIZE is refused. */
  function ReadBytes(s: seq<nat>, k: nat, least: nat): Size {
    if |s| < k || Value(256, s[..k]) < least || Value(256, s[..k]) > MAX_SIZE then BadSize
    else Size(Value(256, s[..k]), s[k..])
  }

  function ReadCompactSize(s: seq<nat>): Size {
    if s == [] then BadSize
    else if s[0] < 253 then Size(s[0], s[1..])
    else if s[0] == 253 then ReadBytes(s[1..], 2, 253)
    else if s[0] == 254 then ReadBytes(s[1..], 4, 0x1_0000)
    else ReadBytes(s[1..], 8, TWO32)
  }

  lemma ReadBack(n: nat, k: nat, least: nat, rest: seq<nat>)
    requires n < Pow(256, k) && least <= n
    ensures ReadBytes(Bytes(n, k) + rest, k, least) == if n > MAX_SIZE then BadSize else Size(n, rest)
  {
    hide Pow, Value, Bytes;
    BytesValue(n, k);
    assert (Bytes(n, k) + rest)[..k] == Bytes(n, k) && (Bytes(n, k) + rest)[k..] == rest;
  }

  lemma Pow256Sizes()
    ensures Pow(256, 2) == 0x1_0000 && Pow(256, 4) == TWO32 && Pow(256, 8) == TWO64
  {
    assert Pow(256, 1) == 256;
    PowAdd(256, 1, 1);
    PowAdd(256, 2, 2);
    PowAdd(256, 4, 4);
  }

  /** A written length is read back if and only if it is not above MAX_SIZE. */
  lemma SizeRoundTrip(n: nat, rest: seq<nat>)
    requires n < TWO64
    ensures ReadCompactSize(CompactSize(n) + rest) == if n > MAX_SIZE then BadSize else Size(n, rest)
  {
    hide Pow, Value, Bytes, ReadBytes;
    var s := CompactSize(n) + rest;
    Pow256Sizes();
    if n < 253 {
      assert s[1..] == rest;
    } else if n <= 0xffff {
      assert s[1..] == Bytes(n, 2) + rest;
      ReadBack(n, 2, 253, rest);
    } else if n <= 0xffff_ffff {
      assert s[1..] == Bytes(n, 4) + rest;
      ReadBack(n, 4, 0x1_0000, rest);
    } else {
      assert s[1..] == Bytes(n, 8) + rest;
      ReadBack(n, 8, TWO32, rest);
    }
  }

  lemma BytesBack(s: seq<nat>)
    requires Proper(256, s)
    ensures Bytes(Value(256, s), |s|) == s
  {
    hide Bytes, Value, Pow;
    ValueBound(256, s);
    BytesValue(Value(256, s), |s|);
    ValueInjective(256, s, Bytes(Value(256, s), |s|));
  }

  lemma ReadBytesIs(s: seq<nat>, k: nat, least: nat)
    requires Proper(256, s) && ReadBytes(s, k, least).Size?
    ensures var r := ReadBytes(s, k, least); s == Bytes(r.n, k) + r.rest && least <= r.n < Pow(256, k)
  {
    hide Bytes, Value, Pow;
    BytesBack(s[..k]);
    ValueBound(256, s[..k]);
    assert s == s[..k] + s[k..];
  }

  /** A length can be read from one byte string only: the one that is written for it. */
  lemma SizeCanonical(s: seq<nat>)
    requires Proper(256, s) && ReadCompactSize(s).Size?
    ensures var r := ReadCompactSize(s); s == CompactSize(r.n) + r.rest && r.n <= MAX_SIZE && Proper(256, r.rest)
  {
    hide Bytes, ReadBytes, Pow;
    var r := ReadCompactSize(s);
    var t := s[1..];
    assert s == [s[0]] + t;
    Pow256Sizes();
    if s[0] == 253 {
      ReadBytesIs(t, 2, 253);
      assert s == ([253] + Bytes(r.n, 2)) + r.rest;
    } else if s[0] == 254 {
      ReadBytesIs(t, 4, 0x1_0000);
      assert s == ([254] + Bytes(r.n, 4)) + r.rest;
    } else if s[0] >= 255 {
      ReadBytesIs(t, 8, TWO32);
      assert s == ([255] + Bytes(r.n, 8)) + r.rest;
    }
    RestIs(s);
  }

  lemma RestIs(s: seq<nat>)
    requires ReadCompactSize(s).Size?
    ensures exists k :: 0 <= k <= |s| && ReadCompactSize(s).rest == s[k..]
    ensures ReadCompactSize(s).n <= MAX_SIZE
  {
    hide Value;
    var k := if s[0] < 253 then 1 else if s[0] == 253 then 3 else if s[0] == 254 then 5 else 9;
    assert ReadCompactSize(s).rest == s[k..];
  }
}
