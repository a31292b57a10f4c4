/** The coding of transaction requests and short ids in compact block messages (blockencodings.h), with the length
    prefix of serialize.h. */
module BlockRequest {
  import opened Digits
  import opened Limbs
  import opened Options
  import opened Serialize

  const MAX16: nat := 0xffff

  /** What was read, and what is left of the stream. */
  datatype Parsed = Bad | Parsed(values: seq<nat>, rest: seq<nat>)

  // ---------------------------------------------------------------------------------------------
  // Differential indexes
  // ---------------------------------------------------------------------------------------------

  predicate Index16(ix: seq<nat>) { forall i :: 0 <= i < |ix| ==> ix[i] <= MAX16 }

  predicate Increasing(ix: seq<nat>) { forall i :: 0 < i < |ix| ==> ix[i - 1] < ix[i] }

  function From(ix: seq<nat>, i: nat): nat
    requires i <= |ix|
  {
    if i == 0 then 0 else ix[i - 1] + 1
  }

  /** What is sent for an index: its distance from the one before, as an unsigned 64-bit number. */
  function Delta(ix: seq<nat>, i: nat): (d: nat)
    requires i < |ix|
    ensures d < TWO64
  {
    (ix[i] - From(ix, i)) % TWO64
  }

  function DeltaBytes(ix: seq<nat>, i: nat): seq<nat>
    requires i <= |ix|
    decreases |ix| - i
  {
    if i == |ix| then [] else CompactSize(Delta(ix, i)) + DeltaBytes(ix, i + 1)
  }

  function Request(ix: seq<nat>): seq<nat> { CompactSize(|ix|) + DeltaBytes(ix, 0) }

  function Prepend(d: nat, p: Parsed): Parsed {
    match p
    case Bad => Bad
    case Parsed(ds, rest) => Parsed([d] + ds, rest)
  }

  /** Reads n distances, none of more than 16 bits. */
  function ReadDeltas(s: seq<nat>, n: nat): Parsed
    decreases n
  {
    if n == 0 then Parsed([], s)
    else match ReadCompactSize(s)
      case BadSize => Bad
      case Size(d, rest) => if d > MAX16 then Bad else Prepend(d, ReadDeltas(rest, n - 1))
  }

  /** The indexes for distances, counted from `offset`; none may need more than 16 bits. */
  function Summed(ds: seq<nat>, offset: nat): Option<seq<nat>>
    decreases |ds|
  {
    if ds == [] then Some([])
    else if ds[0] + offset > MAX16 then None
    else match Summed(ds[1..], ds[0] + offset + 1)
      case None => None
      case Some(ix) => Some([ds[0] + offset] + ix)
  }

  function ReadRequest(s: seq<nat>): Parsed {
    match ReadCompactSize(s)
    case BadSize => Bad
    case Size(n, body) =>
      match ReadDeltas(body, n)
      case Bad => Bad
      case Parsed(ds, rest) =>
        match Summed(ds, 0)
        case None => Bad
        case Some(ix) => Parsed(ix, rest)
  }

  /** The distances from the i-th index on. */
  function Deltas(ix: seq<nat>, i: nat): seq<nat>
    requires i <= |ix|
    decreases |ix| - i
  {
    if i == |ix| then [] else [Delta(ix, i)] + Deltas(ix, i + 1)
  }

  lemma IncreasingDelta(ix: seq<nat>, i: nat)
    requires i < |ix| && Index16(ix)
    ensures i == 0 || ix[i - 1] < ix[i] ==> Delta(ix, i) == ix[i] - From(ix, i) <= MAX16
    ensures i > 0 && ix[i - 1] >= ix[i] ==> Delta(ix, i) > MAX_SIZE
  {
    if i > 0 && ix[i - 1] >= ix[i] { ModOf(ix[i] - From(ix, i), ix[i] - From(ix, i) + TWO64, TWO64, -1); }
  }

  lemma {:induction false} ReadsDeltas(ix: seq<nat>, i: nat, rest: seq<nat>)
    requires i <= |ix| && Index16(ix) && Increasing(ix)
    ensures ReadDeltas(DeltaBytes(ix, i) + rest, |ix| - i) == Parsed(Deltas(ix, i), rest)
    decreases |ix| - i
  {
    hide CompactSize, ReadCompactSize, Delta;
    if i == |ix| {
      assert DeltaBytes(ix, i) + rest == rest;
    } else {
      ReadsDeltas(ix, i + 1, rest);
      IncreasingDelta(ix, i);
      assert DeltaBytes(ix, i) + rest == CompactSize(Delta(ix, i)) + (DeltaBytes(ix, i + 1) + rest);
      SizeRoundTrip(Delta(ix, i), DeltaBytes(ix, i + 1) + rest);
    }
  }

  lemma {:induction false} SumsDeltas(ix: seq<nat>, i: nat)
    requires i <= |ix| && Index16(ix) && Increasing(ix)
    ensures Summed(Deltas(ix, i), From(ix, i)) == Some(ix[i..])
    decreases |ix| - i
  {
    hide Delta;
    if i == |ix| {
      assert ix[i..] == [];
    } else {
      IncreasingDelta(ix, i);
      SumsDeltas(ix, i + 1);
      assert Deltas(ix, i)[1..] == Deltas(ix, i + 1) && ix[i..] == [ix[i]] + ix[i + 1..];
    }
  }

  lemma {:induction false} DescentRefused(ix: seq<nat>, i: nat, j: nat, rest: seq<nat>)
    requires i <= j < |ix| && 0 < j && ix[j - 1] >= ix[j] && Index16(ix)
    ensures ReadDeltas(DeltaBytes(ix, i) + rest, |ix| - i) == Bad
    decreases j - i
  {
    hide CompactSize, ReadCompactSize, Delta;
    assert DeltaBytes(ix, i) + rest == CompactSize(Delta(ix, i)) + (DeltaBytes(ix, i + 1) + rest);
    SizeRoundTrip(Delta(ix, i), DeltaBytes(ix, i + 1) + rest);
    if i == j { IncreasingDelta(ix, i); } else { DescentRefused(ix, i + 1, j, rest); }
  }

  lemma {:induction false} IndexAtLeast(ix: seq<nat>, i: nat)
    requires i < |ix| && Increasing(ix)
    ensures ix[i] >= i
  {
    if i > 0 { IndexAtLeast(ix, i - 1); }
  }

  /** A request is read back, as it was sent, if and only if its indexes increase; otherwise it is refused. */
  lemma RequestRoundTrip(ix: seq<nat>, rest: seq<nat>)
    requires Index16(ix) && |ix| < TWO64
    ensures ReadRequest(Request(ix) + rest) == if Increasing(ix) then Parsed(ix, rest) else Bad
  {
    hide CompactSize, ReadCompactSize, DeltaBytes, ReadDeltas, Summed, Deltas;
    var body := DeltaBytes(ix, 0) + rest;
    assert Request(ix) + rest == CompactSize(|ix|) + body;
    SizeRoundTrip(|ix|, body);
    if Increasing(ix) {
      if |ix| > 0 { IndexAtLeast(ix, |ix| - 1); }
      ReadsDeltas(ix, 0, rest);
      SumsDeltas(ix, 0);
    } else {
      var j :| 0 < j < |ix| && ix[j - 1] >= ix[j];
      DescentRefused(ix, 0, j, rest);
    }
  }

  /** Every index list that is read increases, and it is what is sent for it: no other bytes are accepted. */
  lemma RequestCanonical(s: seq<nat>)
    requires Proper(256, s) && ReadRequest(s).Parsed?
    ensures var r := ReadRequest(s); Index16(r.values) && Increasing(r.values) && s == Request(r.values) + r.rest
  {
    hide CompactSize, ReadCompactSize, DeltaBytes, ReadDeltas, Summed;
    SizeCanonical(s);
    var size := ReadCompactSize(s);
    var parsed := ReadDeltas(size.rest, size.n);
    DeltasCanonical(size.rest, size.n);
    var ix := Summed(parsed.values, 0).value;
    SummedIs(parsed.values, 0);
    forall k | 0 <= k < |ix| ensures ix[k] == parsed.values[k] + From(ix, k) {
      assert ix[k] == parsed.values[k] + if k == 0 then 0 else ix[k - 1] + 1;
    }
    SummedBytes(parsed.values, ix, 0);
    assert parsed.values[0..] == parsed.values;
    assert s == CompactSize(|ix|) + DeltaBytes(ix, 0) + parsed.rest;
  }

  /** The bytes of a list of distances. */
  function ListBytes(ds: seq<nat>): seq<nat>
    decreases |ds|
  {
    if ds == [] then [] else CompactSize(ds[0]) + ListBytes(ds[1..])
  }

  lemma {:induction false} DeltasCanonical(s: seq<nat>, n: nat)
    requires Proper(256, s) && ReadDeltas(s, n).Parsed?
    ensures var p := ReadDeltas(s, n); |p.values| == n && s == ListBytes(p.values) + p.rest
    decreases n
  {
    hide CompactSize, ReadCompactSize;
    if n == 0 {
      assert s == [] + s;
    } else {
      SizeCanonical(s);
      var size := ReadCompactSize(s);
      DeltasCanonical(size.rest, n - 1);
      var p, q := ReadDeltas(s, n), ReadDeltas(size.rest, n - 1);
      assert p.values[1..] == q.values;
      assert s == CompactSize(size.n) + ListBytes(q.values) + q.rest;
    }
  }

  lemma {:induction false} SummedIs(ds: seq<nat>, offset: nat)
    requires Summed(ds, offset).Some?
    ensures var ix := Summed(ds, offset).value;
            |ix| == |ds| && Index16(ix) && Increasing(ix) && forall i :: 0 <= i < |ix| ==>
                ix[i] == ds[i] + if i == 0 then offset else ix[i - 1] + 1
    decreases |ds|
  {
    if ds != [] {
      SummedIs(ds[1..], ds[0] + offset + 1);
      var ix, tail := Summed(ds, offset).value, Summed(ds[1..], ds[0] + offset + 1).value;
      forall i | 0 <= i < |ix| ensures ix[i] == ds[i] + if i == 0 then offset else ix[i - 1] + 1 {
        if i > 0 { assert ix[i] == tail[i - 1] && ds[i] == ds[1..][i - 1]; }
      }
      assert forall i :: 1 <= i < |ix| ==> ix[i] == tail[i - 1];
    }
  }

  lemma {:induction false} SummedBytes(ds: seq<nat>, ix: seq<nat>, i: nat)
    requires |ix| == |ds| && i <= |ix| && Index16(ix)
    requires forall k :: 0 <= k < |ix| ==> ix[k] == ds[k] + From(ix, k)
    ensures ListBytes(ds[i..]) == DeltaBytes(ix, i)
    decreases |ix| - i
  {
    hide CompactSize, Delta;
    if i < |ix| {
      SummedBytes(ds, ix, i + 1);
      DeltaIs(ix, i, ds[i]);
      assert ds[i..][1..] == ds[i + 1..];
    }
  }

  lemma DeltaIs(ix: seq<nat>, i: nat, d: nat)
    requires i < |ix| && ix[i] == d + From(ix, i) <= MAX16
    ensures Delta(ix, i) == d
  {
    ModOf(d, d, TWO64, 0);
  }

  // ---------------------------------------------------------------------------------------------
  // The serialization loops
  // ---------------------------------------------------------------------------------------------

  method WriteRequest(ix: seq<nat>) returns (s: seq<nat>)
    ensures s == Request(ix)
  {
    hide CompactSize;
    s := CompactSize(|ix|);
    for i := 0 to |ix|
      invariant s + DeltaBytes(ix, i) == Request(ix)
    {
      var index := (ix[i] - if i == 0 then 0 else ix[i - 1] + 1) % TWO64;
      assert s + (CompactSize(index) + DeltaBytes(ix, i + 1)) == s + CompactSize(index) + DeltaBytes(ix, i + 1);
      s := s + CompactSize(index);
    }
  }

  method ReadList(s: seq<nat>) returns (r: Parsed)
    ensures r == ReadRequest(s)
  {
    hide ReadCompactSize, ReadDeltas, Summed;
    var size := ReadCompactSize(s);
    if size.BadSize? { return Bad; }
    var list := ReadAll(size.rest, size.n);
    if list.Bad? { return Bad; }
    var ok, ix := SumInPlace(list.values);
    if !ok { return Bad; }
    r := Parsed(ix, list.rest);
  }

  ghost function After(done: seq<nat>, p: Parsed): Parsed {
    match p
    case Bad => Bad
    case Parsed(ds, rest) => Parsed(done + ds, rest)
  }

  method ReadAll(s: seq<nat>, n: nat) returns (r: Parsed)
    ensures r == ReadDeltas(s, n)
  {
    hide ReadCompactSize;
    var ds, rest := [], s;
    assert After(ds, ReadDeltas(rest, n)) == ReadDeltas(s, n);
    for i := 0 to n
      invariant After(ds, ReadDeltas(rest, n - i)) == ReadDeltas(s, n)
    {
      var size := ReadCompactSize(rest);
      if size.BadSize? || size.n > MAX16 { return Bad; }
      AfterStep(ds, size.n, ReadDeltas(size.rest, n - i - 1));
      ds, rest := ds + [size.n], size.rest;
    }
    assert ds + [] == ds;
    r := Parsed(ds, rest);
  }

  lemma AfterStep(done: seq<nat>, d: nat, p: Parsed)
    ensures After(done, Prepend(d, p)) == After(done + [d], p)
  {
    if p.Parsed? { assert done + ([d] + p.values) == done + [d] + p.values; }
  }

  /** Turns distances into indexes, in place. */
  method SumInPlace(ds: seq<nat>) returns (ok: bool, ix: seq<nat>)
    ensures if ok then Summed(ds, 0) == Some(ix) else Summed(ds, 0) == None
  {
    ix := ds;
    var offset := 0;
    assert ds[0..] == ds;
    for j := 0 to |ds|
      invariant offset >= 0 && |ix| == |ds| && ix[j..] == ds[j..]
      invariant (Summed(ds[j..], offset).None? <==> Summed(ds, 0).None?)
      invariant Summed(ds[j..], offset).Some? ==> Summed(ds, 0).value == ix[..j] + Summed(ds[j..], offset).value
    {
      assert ds[j] == ds[j..][0] == ix[j..][0] == ix[j] && ds[j..][1..] == ds[j + 1..];
      if ix[j] + offset > MAX16 { return false, ix; }
      ghost var was := ix;
      ix := ix[j := ix[j] + offset];
      offset := ix[j] + 1;
      assert ix[j + 1..] == was[j..][1..] && ix[..j + 1] == was[..j] + [ix[j]];
    }
    assert ds[|ds|..] == [] && ix[..|ds|] + [] == ix;
    ok := true;
  }

  // ---------------------------------------------------------------------------------------------
  // Short ids
  // ---------------------------------------------------------------------------------------------

  /** A short id as its lower 32 and next 16 bits, each lowest byte first. */
  function IdBytes(id: nat): seq<nat> { Bytes(id % TWO32, 4) + Bytes(id / TWO32 % 0x1_0000, 2) }

  function IdOf(s: seq<nat>): nat
    requires |s| == 6
  {
    Or(Value(256, s[4..]) * TWO32, Value(256, s[..4]))
  }

  /** A short id is read back if and only if it has no more than 48 bits. */
  lemma IdRoundTrip(id: nat)
    ensures |IdBytes(id)| == 6 && (IdOf(IdBytes(id)) == id <==> id < 0x1_0000_0000_0000)
  {
    hide Pow, Value, Bytes, Or;
    var s := IdBytes(id);
    var low, high := id % TWO32, id / TWO32 % 0x1_0000;
    assert s[..4] == Bytes(low, 4) && s[4..] == Bytes(high, 2);
    Pow256Sizes();
    BytesValue(low, 4);
    BytesValue(high, 2);
    Pow2Const();
    ModOf(high * TWO32, 0, TWO32, high);
    OrDisjoint(high * TWO32, low, 32);
    DivModSplit(id, TWO32);
  }

  /** Six bytes are what is written for the short id read from them. */
  lemma IdCanonical(s: seq<nat>)
    requires |s| == 6 && Proper(256, s)
    ensures IdBytes(IdOf(s)) == s
  {
    hide Pow, Value, Bytes, Or;
    var low, high := Value(256, s[..4]), Value(256, s[4..]);
    ValueBound(256, s[..4]);
    ValueBound(256, s[4..]);
    Pow256Sizes();
    Pow2Const();
    ModOf(high * TWO32, 0, TWO32, high);
    OrDisjoint(high * TWO32, low, 32);
    DivModUnique(high * TWO32 + low, TWO32, high, low);
    BytesBack(s[..4]);
    BytesBack(s[4..]);
  }
}
