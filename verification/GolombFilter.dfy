/** Block filters as Golomb-coded sets: building, reading back and matching (blockfilter.cpp). */
module GolombFilter {
  import opened Digits
  import opened BitStreams
  import opened Golomb
  import opened Options
  import opened Serialize
  import opened Sets

  // ---------------------------------------------------------------------------------------------
  // Coded sets
  // ---------------------------------------------------------------------------------------------

  predicate Sorted(vs: seq<nat>) { forall i, j :: 0 <= i < j < |vs| ==> vs[i] <= vs[j] }

  /** The codes of the differences of a rising sequence that starts no lower than `last`. */
  function Coded(P: nat, vs: seq<nat>, last: nat): seq<bool>
    requires Rising(vs, last)
  {
    if vs == [] then [] else Code(P, vs[0] - last) + Coded(P, vs[1..], vs[0])
  }

  predicate Rising(vs: seq<nat>, last: nat) { vs != [] ==> last <= vs[0] && Rising(vs[1..], vs[0]) }

  lemma {:induction false} SortedRises(vs: seq<nat>, last: nat)
    requires Sorted(vs) && forall i :: 0 <= i < |vs| ==> last <= vs[i]
    ensures Rising(vs, last)
  {
    if vs != [] { SortedRises(vs[1..], vs[0]); }
  }

  /** Decoding n values in a row. */
  function Skip(P: nat, n: nat, bits: seq<bool>): Decoded {
    if n == 0 then Got(0, bits)
    else match Decode(P, bits)
         case Short => Short
         case Got(_, rest) => Skip(P, n - 1, rest)
  }

  lemma {:induction false} SkipCoded(P: nat, vs: seq<nat>, last: nat, rest: seq<bool>)
    requires Rising(vs, last) && P < 64 && forall i :: 0 <= i < |vs| ==> vs[i] < TWO64
    ensures Skip(P, |vs|, Coded(P, vs, last) + rest) == Got(0, rest)
    decreases |vs|
  {
    hide Decode, Code;
    if vs == [] {
      assert Coded(P, vs, last) + rest == rest;
    } else {
      assert Coded(P, vs, last) + rest == Code(P, vs[0] - last) + (Coded(P, vs[1..], vs[0]) + rest);
      DecodeCode(P, vs[0] - last, Coded(P, vs[1..], vs[0]) + rest);
      SkipCoded(P, vs[1..], vs[0], rest);
    }
  }

  // ---------------------------------------------------------------------------------------------
  // Filters
  // ---------------------------------------------------------------------------------------------

  type Element = seq<nat>

  /** The keyed 64-bit hash, the Golomb parameter and the inverse false positive rate. */
  datatype Params = Params(hash: Element -> nat, P: nat, M: nat)

  ghost predicate ParamsOk(q: Params) { q.P < 64 && q.M < TWO32 }

  datatype Filter = Filter(q: Params, N: nat, F: nat, encoded: seq<nat>)

  /** A hash mapped into the range of the filter. */
  function Mapped(q: Params, F: nat, e: Element): nat { (q.hash(e) % TWO64) * F / TWO64 }

  /** The filter encodes the values: their number, their codes, and zeros up to the end of the byte. */
  ghost predicate Encodes(f: Filter, vs: seq<nat>, bytes: seq<nat>) {
    && ParamsOk(f.q) && |vs| == f.N < TWO32 && Sorted(vs) && Rising(vs, 0)
    && (forall i :: 0 <= i < |vs| ==> vs[i] < TWO64)
    && f.encoded == CompactSize(f.N) + bytes
    && Coded(f.q.P, vs, 0) <= Unpacked(bytes) && |Unpacked(bytes)| - |Coded(f.q.P, vs, 0)| < 8
  }

  /** The values of a set of elements, in order. */
  ghost predicate ValuesOf(q: Params, F: nat, elements: set<Element>, vs: seq<nat>) {
    && |vs| == |elements| && Sorted(vs)
    && (forall e :: e in elements ==> Mapped(q, F, e) in vs)
    && (forall v :: v in vs ==> exists e :: e in elements && Mapped(q, F, e) == v)
  }

  function Inserted(vs: seq<nat>, v: nat): seq<nat> {
    if vs == [] || v <= vs[0] then [v] + vs else [vs[0]] + Inserted(vs[1..], v)
  }

  lemma {:induction false} InsertedOk(vs: seq<nat>, v: nat)
    requires Sorted(vs)
    ensures Sorted(Inserted(vs, v)) && |Inserted(vs, v)| == |vs| + 1
    ensures forall x :: x in Inserted(vs, v) <==> x == v || x in vs
  {
    if vs != [] && v > vs[0] {
      InsertedOk(vs[1..], v);
      var rest := Inserted(vs[1..], v);
      assert vs == [vs[0]] + vs[1..];
      forall i | 0 <= i < |rest| ensures vs[0] <= rest[i] { assert rest[i] in rest; }
    }
  }

  method HashToRange(q: Params, F: nat, e: Element) returns (v: nat)
    requires F < TWO64
    ensures v == Mapped(q, F, e) && v < TWO64
  {
    v := MapIntoRange(q.hash(e) % TWO64, F);
    BelowProduct(q.hash(e) % TWO64, F, v);
  }

  method BuildHashedSet(q: Params, F: nat, elements: set<Element>) returns (vs: seq<nat>)
    requires F < TWO64
    ensures ValuesOf(q, F, elements, vs) && forall i :: 0 <= i < |vs| ==> vs[i] < TWO64
  {
    hide Mapped;
    vs := [];
    var todo := elements;
    while todo != {}
      invariant todo <= elements && ValuesOf(q, F, elements - todo, vs)
      invariant forall i :: 0 <= i < |vs| ==> vs[i] < TWO64
    {
      ghost var some := SomeElement(todo);
      var e :| e in todo;
      var v := HashToRange(q, F, e);
      InsertedOk(vs, v);
      OneMoreValue(q, F, elements - todo, vs, e);
      assert elements - (todo - {e}) == (elements - todo) + {e};
      ghost var was := vs;
      vs := Inserted(vs, v);
      forall i | 0 <= i < |vs| ensures vs[i] < TWO64 {
        assert vs[i] in vs;
        if vs[i] != v { assert vs[i] in was; }
      }
      todo := todo - {e};
    }
    assert elements - todo == elements;
  }

  lemma OneMoreValue(q: Params, F: nat, s: set<Element>, vs: seq<nat>, e: Element)
    requires ValuesOf(q, F, s, vs) && e !in s
    ensures ValuesOf(q, F, s + {e}, Inserted(vs, Mapped(q, F, e)))
  {
    hide Mapped, Inserted, Sorted;
    var v := Mapped(q, F, e);
    InsertedOk(vs, v);
    var vs' := Inserted(vs, v);
    forall x | x in vs' ensures exists a :: a in s + {e} && Mapped(q, F, a) == x {
      if x == v {
        assert e in s + {e};
      } else {
        var a :| a in s && Mapped(q, F, a) == x;
        assert a in s + {e};
      }
    }
  }

  /** Builds the filter of a set; more than 2^32 - 1 elements throw. */
  method BuildFilter(q: Params, elements: set<Element>)
    returns (r: Option<Filter>, ghost vs: seq<nat>, ghost bytes: seq<nat>)
    requires ParamsOk(q)
    ensures r.Some? <==> |elements| < TWO32
    ensures r.Some? ==> r.value.q == q && r.value.N == |elements| && r.value.F == |elements| * q.M < TWO64
    ensures r.Some? ==> ValuesOf(q, r.value.F, elements, vs) && Encodes(r.value, vs, bytes)
  {
    hide Unpacked, CompactSize, Coded;
    var N := |elements|;
    vs, bytes := [], [];
    if N % TWO32 != N { return None, vs, bytes; }
    HalvesFit(N, q.M);
    var F := N * q.M;
    var values := BuildHashedSet(q, F, elements);
    vs := values;
    SortedRises(values, 0);
    if elements == {} {
      EmptyCoded(q.P);
      assert CompactSize(N) + [] == CompactSize(N);
      return Some(Filter(q, N, F, CompactSize(N))), vs, [];
    }
    var out := EncodeAll(q.P, values);
    bytes := out;
    r := Some(Filter(q, N, F, CompactSize(N) + out));
  }

  lemma EmptyCoded(P: nat)
    ensures Coded(P, [], 0) == [] && Unpacked([]) == []
  {}

  /** Codes the differences and pads to a whole byte. */
  method EncodeAll(P: nat, vs: seq<nat>) returns (out: seq<nat>)
    requires P < 64 && Rising(vs, 0)
    ensures Coded(P, vs, 0) <= Unpacked(out) && |Unpacked(out)| - |Coded(P, vs, 0)| < 8
  {
    hide Unpacked, Code, Holds, BitWriter.Bits;
    var w := new BitWriter();
    var last := 0;
    assert vs[0..] == vs;
    for i := 0 to |vs|
      invariant fresh(w) && w.Valid() && Rising(vs[i..], last)
      invariant w.Bits() + Coded(P, vs[i..], last) == Coded(P, vs, 0)
      modifies w
    {
      var delta := vs[i] - last;
      assert vs[i..][1..] == vs[i + 1..];
      ghost var before := w.Bits();
      GolombRiceEncode(w, P, delta);
      assert before + (Code(P, delta) + Coded(P, vs[i + 1..], vs[i])) == w.Bits() + Coded(P, vs[i + 1..], vs[i]);
      last := vs[i];
    }
    assert w.Bits() + [] == w.Bits() == Coded(P, vs, 0);
    out := Finish(w);
  }

  /** Flushes the writer: the bits, then zeros up to the end of the byte. */
  method Finish(w: BitWriter) returns (out: seq<nat>)
    requires w.Valid()
    modifies w
    ensures old(w.Bits()) <= Unpacked(out) && |Unpacked(out)| - |old(w.Bits())| < 8
  {
    hide Unpacked, Holds;
    ghost var bits, n := w.Bits(), w.offset;
    w.Flush();
    out := w.out;
    assert Unpacked(out) + w.pending == Unpacked(out);
    if n == 0 { assert bits == Unpacked(out); } else { assert Unpacked(out) == bits + Falses(8 - n); }
  }

  // ---------------------------------------------------------------------------------------------
  // Reading back
  // ---------------------------------------------------------------------------------------------

  /** The constructor from bytes accepts exactly N codes and no byte more. */
  predicate Accepts(P: nat, encoded: seq<nat>) {
    match ReadCompactSize(encoded)
    case BadSize => false
    case Size(n, rest) =>
      match Skip(P, n, Unpacked(rest))
      case Short => false
      case Got(_, left) => |left| < 8
  }

  /** An encoding is accepted again, with the same number of elements, if and only if it has no more than MAX_SIZE. */
  lemma AcceptedIff(f: Filter, vs: seq<nat>, bytes: seq<nat>)
    requires Encodes(f, vs, bytes)
    ensures Accepts(f.q.P, f.encoded) <==> f.N <= MAX_SIZE
    ensures f.N <= MAX_SIZE ==> ReadCompactSize(f.encoded) == Size(f.N, bytes)
  {
    hide Unpacked, CompactSize, Coded, Skip;
    SizeRoundTrip(f.N, bytes);
    var coded, all := Coded(f.q.P, vs, 0), Unpacked(bytes);
    assert all == coded + all[|coded|..];
    SkipCoded(f.q.P, vs, 0, all[|coded|..]);
  }

  /** The running sums of n codes, none of them cut off at 64 bits. */
  function Sums(P: nat, n: nat, bits: seq<bool>, last: nat): seq<nat> {
    if n == 0 then []
    else match Exact(P, bits)
         case Short => []
         case Got(x, rest) => [last + x] + Sums(P, n - 1, rest, last + x)
  }

  /** Bits that hold n codes are the coding of their running sums. */
  lemma {:induction false} SumsCoded(P: nat, n: nat, bits: seq<bool>, last: nat)
    requires Skip(P, n, bits).Got?
    ensures var vs := Sums(P, n, bits, last);
            |vs| == n && Rising(vs, last) && bits == Coded(P, vs, last) + Skip(P, n, bits).rest
    decreases n
  {
    hide Decode, Exact, Code;
    CodeExact(P, bits);
    if n == 0 {
      assert Coded(P, [], last) + bits == bits;
    } else {
      var x, rest := Exact(P, bits).x, Exact(P, bits).rest;
      SumsCoded(P, n - 1, rest, last + x);
      var tail := Sums(P, n - 1, rest, last + x);
      assert Sums(P, n, bits, last)[1..] == tail;
      assert Code(P, x) + (Coded(P, tail, last + x) + Skip(P, n, bits).rest)
             == (Code(P, x) + Coded(P, tail, last + x)) + Skip(P, n, bits).rest;
    }
  }

  lemma {:induction false} RisingSorted(vs: seq<nat>, last: nat)
    requires Rising(vs, last)
    ensures Sorted(vs) && forall i :: 0 <= i < |vs| ==> last <= vs[i]
  {
    if vs != [] { RisingSorted(vs[1..], vs[0]); }
  }

  /** Every accepted encoding whose running sums stay below 2^64, whoever made it, encodes those sums. */
  lemma AcceptedEncodes(q: Params, F: nat, encoded: seq<nat>)
    requires ParamsOk(q) && Proper(256, encoded) && Accepts(q.P, encoded)
    ensures var size := ReadCompactSize(encoded); var vs := Sums(q.P, size.n, Unpacked(size.rest), 0);
            (forall i :: 0 <= i < |vs| ==> vs[i] < TWO64) ==> Encodes(Filter(q, size.n, F, encoded), vs, size.rest)
  {
    hide Unpacked, CompactSize, Coded, Skip, ReadCompactSize, Sums;
    var size := ReadCompactSize(encoded);
    SizeCanonical(encoded);
    var bits := Unpacked(size.rest);
    SumsCoded(q.P, size.n, bits, 0);
    var vs := Sums(q.P, size.n, bits, 0);
    RisingSorted(vs, 0);
    assert bits[..|Coded(q.P, vs, 0)|] == Coded(q.P, vs, 0);
  }

  method FromEncoded(q: Params, encoded: seq<nat>) returns (r: Option<Filter>)
    requires ParamsOk(q)
    ensures r.Some? <==> Accepts(q.P, encoded)
    ensures r.Some? ==> ReadCompactSize(encoded).Size? && r.value.N == ReadCompactSize(encoded).n
    ensures r.Some? ==> r.value.q == q && r.value.encoded == encoded && r.value.F == r.value.N * q.M
    ensures r.Some? && Proper(256, encoded) ==>
              var bytes := ReadCompactSize(encoded).rest; var vs := Sums(q.P, r.value.N, Unpacked(bytes), 0);
              (forall i :: 0 <= i < |vs| ==> vs[i] < TWO64) ==> Encodes(r.value, vs, bytes)
    ensures r.Some? ==> Held(r.value)
  {
    hide Unpacked, Decode, ReadCompactSize, Sums, Encodes;
    var size := ReadCompactSize(encoded);
    if size.BadSize? { return None; }
    var N := size.n;
    var reader := new BitReader(size.rest);
    ghost var all := Unpacked(size.rest);
    for i := 0 to N
      invariant fresh(reader) && reader.Valid() && Skip(q.P, N - i, reader.Left()) == Skip(q.P, N, all)
      invariant reader.offset > 0
      modifies reader
    {
      ghost var left := reader.Left();
      var ok, x := GolombRiceDecode(reader, q.P);
      if !ok { return None; }
    }
    reader.EmptyIff();
    if !reader.StreamEmpty() { return None; }
    MulMono(0, N, q.M);
    if Proper(256, encoded) { AcceptedEncodes(q, N * q.M, encoded); }
    r := Some(Filter(q, N, N * q.M, encoded));
  }

  // ---------------------------------------------------------------------------------------------
  // Matching
  // ---------------------------------------------------------------------------------------------

  ghost predicate Common(queries: seq<nat>, vs: seq<nat>) { exists x :: x in queries && x in vs }

  /** The queries before j match nothing, and those from j on are above the values before i. */
  ghost predicate Scanned(queries: seq<nat>, vs: seq<nat>, i: nat, j: nat) {
    && i <= |vs| && j <= |queries|
    && (forall k :: 0 <= k < j ==> queries[k] !in vs)
    && (forall k, m :: j <= k < |queries| && 0 <= m < i ==> queries[k] > vs[m])
  }

  lemma Below(queries: seq<nat>, vs: seq<nat>, i: nat, j: nat)
    requires Sorted(vs) && Sorted(queries) && Scanned(queries, vs, i, j) && i < |vs| && j < |queries|
    ensures queries[j] < vs[i] ==> Scanned(queries, vs, i, j + 1)
    ensures queries[j] > vs[i] ==> Scanned(queries, vs, i + 1, j)
  {
    if queries[j] < vs[i] {
      forall m | 0 <= m < |vs| ensures vs[m] != queries[j] {
        if m >= i { assert vs[m] >= vs[i]; }
      }
    }
    if queries[j] > vs[i] {
      forall k, m | j <= k < |queries| && 0 <= m < i + 1 ensures queries[k] > vs[m] {
        assert queries[k] >= queries[j];
      }
    }
  }

  lemma NoneLeft(queries: seq<nat>, vs: seq<nat>, i: nat, j: nat)
    requires Scanned(queries, vs, i, j) && (i == |vs| || j == |queries|)
    ensures !Common(queries, vs)
  {
    forall x | x in queries ensures x !in vs {
      var k :| 0 <= k < |queries| && queries[k] == x;
    }
  }

  /** Advances past the queries below a value; says whether that value was asked for. */
  method Advance(queries: seq<nat>, value: nat, j0: nat, ghost vs: seq<nat>, ghost i: nat) returns (j: nat, found: bool)
    requires Sorted(queries) && i < |vs| && vs[i] == value && j0 <= |queries|
    requires Sorted(vs) ==> Scanned(queries, vs, i, j0)
    ensures found ==> Common(queries, vs)
    ensures !found ==> j <= |queries| && (Sorted(vs) ==> Scanned(queries, vs, i, j))
    ensures !found && Sorted(vs) && j < |queries| ==> Scanned(queries, vs, i + 1, j)
  {
    hide Scanned, Sorted;
    j := j0;
    while j < |queries|
      invariant j <= |queries| && (Sorted(vs) ==> Scanned(queries, vs, i, j))
    {
      if queries[j] == value {
        assert queries[j] in queries && vs[i] in vs;
        return j, true;
      }
      if Sorted(vs) { Below(queries, vs, i, j); }
      if queries[j] > value { return j, false; }
      j := j + 1;
    }
    found := false;
  }

  /** The running sums of n codes as MatchInternal forms them, in 64 bits. */
  function WrappedSums(P: nat, n: nat, bits: seq<bool>, last: nat): seq<nat> {
    if n == 0 then []
    else match Decode(P, bits)
         case Short => []
         case Got(x, rest) => [(last + x) % TWO64] + WrappedSums(P, n - 1, rest, (last + x) % TWO64)
  }

  lemma {:induction false} WrappedLength(P: nat, n: nat, bits: seq<bool>, last: nat)
    requires Skip(P, n, bits).Got?
    ensures |WrappedSums(P, n, bits, last)| == n
  {
    hide Decode;
    if n > 0 { WrappedLength(P, n - 1, Decode(P, bits).rest, (last + Decode(P, bits).x) % TWO64); }
  }

  /** Values that are coded come back as they are. */
  lemma {:induction false} WrappedCoded(P: nat, vs: seq<nat>, last: nat, rest: seq<bool>)
    requires Rising(vs, last) && P < 64 && forall i :: 0 <= i < |vs| ==> vs[i] < TWO64
    ensures WrappedSums(P, |vs|, Coded(P, vs, last) + rest, last) == vs
    decreases |vs|
  {
    hide Decode, Code;
    if vs != [] {
      assert Coded(P, vs, last) + rest == Code(P, vs[0] - last) + (Coded(P, vs[1..], vs[0]) + rest);
      DecodeCode(P, vs[0] - last, Coded(P, vs[1..], vs[0]) + rest);
      ModOf(vs[0], vs[0], TWO64, 0);
      WrappedCoded(P, vs[1..], vs[0], rest);
    }
  }

  /** What both constructors leave: a length that can be read is N, and that many codes follow. */
  ghost predicate Held(f: Filter) {
    && ParamsOk(f.q)
    && match ReadCompactSize(f.encoded)
       case BadSize => true
       case Size(n, rest) => n == f.N && Skip(f.q.P, n, Unpacked(rest)).Got?
  }

  /** The values that a filter is matched against. */
  ghost function ValuesIn(f: Filter): seq<nat> {
    match ReadCompactSize(f.encoded)
    case BadSize => []
    case Size(n, rest) => WrappedSums(f.q.P, n, Unpacked(rest), 0)
  }

  lemma EncodesHeld(f: Filter, vs: seq<nat>, bytes: seq<nat>)
    requires Encodes(f, vs, bytes)
    ensures Held(f) && (f.N <= MAX_SIZE <==> ReadCompactSize(f.encoded).Size?)
    ensures f.N <= MAX_SIZE ==> ValuesIn(f) == vs
  {
    hide Unpacked, CompactSize, Coded, Skip, WrappedSums, ReadCompactSize;
    AcceptedIff(f, vs, bytes);
    SizeRoundTrip(f.N, bytes);
    if f.N <= MAX_SIZE {
      var coded, all := Coded(f.q.P, vs, 0), Unpacked(bytes);
      assert all == coded + all[|coded|..];
      SkipCoded(f.q.P, vs, 0, all[|coded|..]);
      WrappedCoded(f.q.P, vs, 0, all[|coded|..]);
    }
  }

  /** Decodes the next value. */
  method NextValue(reader: BitReader, P: nat, last: nat, ghost n: nat) returns (value: nat)
    requires reader.Valid() && P < 64 && n > 0 && Skip(P, n, reader.Left()).Got?
    modifies reader
    ensures reader.Valid() && Skip(P, n - 1, reader.Left()).Got?
    ensures [value] + WrappedSums(P, n - 1, reader.Left(), value) == WrappedSums(P, n, old(reader.Left()), last)
  {
    hide Unpacked, Decode, BitReader.Left;
    var got, delta := GolombRiceDecode(reader, P);
    value := (last + delta) % TWO64;
  }

  /** Whether some query is one of the values; a length above MAX_SIZE throws.  Of a filter from elsewhere whose sums
      wrap around in 64 bits the values are not sorted, and only a positive answer is certain. */
  method MatchInternal(f: Filter, queries: seq<nat>) returns (ok: bool, r: bool)
    requires Held(f) && Sorted(queries)
    ensures ok == ReadCompactSize(f.encoded).Size?
    ensures ok ==> |ValuesIn(f)| == f.N && (r ==> Common(queries, ValuesIn(f)))
    ensures ok && Sorted(ValuesIn(f)) ==> r == Common(queries, ValuesIn(f))
  {
    hide Unpacked, Skip, WrappedSums, Scanned, Common, ReadCompactSize, Sorted;
    var size := ReadCompactSize(f.encoded);
    if size.BadSize? { return false, false; }
    var reader := new BitReader(size.rest);
    ghost var vs := ValuesIn(f);
    WrappedLength(f.q.P, f.N, Unpacked(size.rest), 0);
    assert vs[0..] == vs;
    var value: nat, j: nat := 0, 0;
    NothingScanned(queries, vs);
    for i := 0 to f.N
      invariant fresh(reader) && reader.Valid() && Skip(f.q.P, f.N - i, reader.Left()).Got?
      invariant WrappedSums(f.q.P, f.N - i, reader.Left(), value) == vs[i..] && j <= |queries|
      invariant Sorted(vs) ==> Scanned(queries, vs, i, j)
      modifies reader
    {
      value := NextValue(reader, f.q.P, value, f.N - i);
      assert vs[i..][0] == vs[i] == value && vs[i..][1..] == vs[i + 1..];
      var found;
      j, found := Advance(queries, value, j, vs, i);
      if found { return true, true; }
      if j == |queries| {
        if Sorted(vs) { NoneLeft(queries, vs, i, j); }
        return true, false;
      }
    }
    if Sorted(vs) { NoneLeft(queries, vs, f.N, j); }
    return true, false;
  }

  lemma NothingScanned(queries: seq<nat>, vs: seq<nat>)
    ensures Scanned(queries, vs, 0, 0)
  {}

  /** MatchAny holds exactly when a query and an element have the same mapped hash. */
  method MatchAny(f: Filter, wanted: set<Element>, ghost elements: set<Element>, ghost vs: seq<nat>,
                  ghost bytes: seq<nat>)
    returns (ok: bool, r: bool)
    requires Encodes(f, vs, bytes) && f.F < TWO64 && ValuesOf(f.q, f.F, elements, vs)
    ensures ok == (f.N <= MAX_SIZE)
    ensures ok ==> (r <==> exists a, b :: a in wanted && b in elements && Mapped(f.q, f.F, a) == Mapped(f.q, f.F, b))
  {
    hide Mapped, Encodes, Sorted, ValuesIn, Held;
    var queries := BuildHashedSet(f.q, f.F, wanted);
    EncodesHeld(f, vs, bytes);
    ok, r := MatchInternal(f, queries);
    CommonElements(f.q, f.F, wanted, queries, elements, vs);
  }

  lemma CommonElements(q: Params, F: nat, wanted: set<Element>, queries: seq<nat>, elements: set<Element>, vs: seq<nat>)
    requires ValuesOf(q, F, wanted, queries) && ValuesOf(q, F, elements, vs)
    ensures Common(queries, vs) <==> exists a, b :: a in wanted && b in elements && Mapped(q, F, a) == Mapped(q, F, b)
  {
    hide Mapped, Sorted;
    if Common(queries, vs) {
      var x :| x in queries && x in vs;
      var a :| a in wanted && Mapped(q, F, a) == x;
      var b :| b in elements && Mapped(q, F, b) == x;
    }
    if a, b :| a in wanted && b in elements && Mapped(q, F, a) == Mapped(q, F, b) {
      assert Mapped(q, F, a) in queries && Mapped(q, F, b) in vs;
    }
  }

  /** Match has no false negatives. */
  method Match(f: Filter, e: Element, ghost elements: set<Element>, ghost vs: seq<nat>, ghost bytes: seq<nat>)
    returns (ok: bool, r: bool)
    requires Encodes(f, vs, bytes) && f.F < TWO64 && ValuesOf(f.q, f.F, elements, vs)
    ensures ok == (f.N <= MAX_SIZE)
    ensures ok ==> (r <==> exists b :: b in elements && Mapped(f.q, f.F, b) == Mapped(f.q, f.F, e))
    ensures ok && e in elements ==> r
  {
    hide Mapped, Encodes, ValuesIn, Held;
    var query := HashToRange(f.q, f.F, e);
    EncodesHeld(f, vs, bytes);
    ok, r := MatchInternal(f, [query]);
    assert forall x :: x in [query] <==> x == query;
    assert Common([query], vs) <==> query in vs;
  }
}
