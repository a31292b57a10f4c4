/** Partial Merkle trees (merkleblock.cpp, merkleblock.h): a depth-first list of flag bits and hashes from which the
    root and the matched transactions can be recovered. */
module Merkle {
  import opened Digits
  import opened Limbs

  const MAX_BLOCK_WEIGHT := 4000000
  const MIN_TRANSACTION_WEIGHT := 240

  /** A 256-bit hash; zero is also what a failed extraction returns. */
  type Hash = nat

  type Combine = (Hash, Hash) -> Hash

  /** Two different pairs with the same hash. */
  predicate Collide(combine: Combine, x: (Hash, Hash), y: (Hash, Hash)) {
    x != y && combine(x.0, x.1) == combine(y.0, y.1)
  }

  /** CalcTreeWidth: the number of nodes at a height. */
  function Width(n: nat, h: nat): nat { (n + Pow(2, h) - 1) / Pow(2, h) }

  lemma WidthIff(n: nat, h: nat, pos: nat)
    ensures pos < Width(n, h) <==> pos * Pow(2, h) < n
  {
    hide Pow;
    var p := Pow(2, h);
    DivModSplit(n + p - 1, p);
    WidthArith(n, p, Width(n, h), (n + p - 1) % p, pos);
  }

  lemma WidthArith(n: int, p: int, w: int, r: int, pos: int)
    requires n + p - 1 == w * p + r && 0 <= r < p
    ensures pos < w <==> pos * p < n
  {
    if pos < w { MulMono(pos + 1, w, p); } else { MulMono(w, pos, p); }
    MulAdd(p, pos, 1);
  }

  /** The first leaf below a node. */
  function First(h: nat, pos: nat): nat { pos * Pow(2, h) }

  /** The leaves below a node end here. */
  function Last(n: nat, h: nat, pos: nat): nat { if First(h, pos + 1) < n then First(h, pos + 1) else n }

  lemma FirstHalves(h: nat, pos: nat)
    requires h > 0
    ensures First(h - 1, 2 * pos) == First(h, pos) && First(h - 1, 2 * pos + 2) == First(h, pos + 1)
    ensures First(h - 1, 2 * pos) < First(h - 1, 2 * pos + 1) < First(h - 1, 2 * pos + 2)
  {
    hide Pow;
    PowStep(2, h - 1);
    var p := Pow(2, h - 1);
    MulAssoc(pos, 2, p);
    MulAssoc(pos + 1, 2, p);
    MulAdd(p, 2 * pos, 1);
    MulAdd(p, 2 * pos + 1, 1);
  }

  /** The children of a node of the tree, and how the leaves divide between them. */
  lemma Children(n: nat, h: nat, pos: nat)
    requires h > 0 && pos < Width(n, h)
    ensures 2 * pos < Width(n, h - 1) && First(h, pos) < n
    ensures First(h - 1, 2 * pos) == First(h, pos)
    ensures 2 * pos + 1 < Width(n, h - 1) ==>
              First(h, pos) < Last(n, h - 1, 2 * pos) == First(h - 1, 2 * pos + 1) < Last(n, h - 1, 2 * pos + 1)
                == Last(n, h, pos)
    ensures 2 * pos + 1 >= Width(n, h - 1) ==> First(h, pos) < Last(n, h - 1, 2 * pos) == Last(n, h, pos)
  {
    hide Pow, Width;
    FirstHalves(h, pos);
    WidthIff(n, h, pos);
    WidthIff(n, h - 1, 2 * pos);
    WidthIff(n, h - 1, 2 * pos + 1);
  }

  lemma Leaf(n: nat, pos: nat)
    ensures Width(n, 0) == n && First(0, pos) == pos && (pos < n ==> Last(n, 0, pos) == pos + 1)
  {
    assert Pow(2, 0) == 1;
  }

  // ---------------------------------------------------------------------------------------------
  // Building and extracting
  // ---------------------------------------------------------------------------------------------

  /** The hash of a node; a node without a right child repeats the left one. */
  function CalcHash(combine: Combine, txid: seq<Hash>, h: nat, pos: nat): Hash
    requires pos < Width(|txid|, h)
  {
    if h == 0 then
      Leaf(|txid|, pos);
      txid[pos]
    else
      Children(|txid|, h, pos);
      var left := CalcHash(combine, txid, h - 1, 2 * pos);
      var right := if 2 * pos + 1 < Width(|txid|, h - 1) then CalcHash(combine, txid, h - 1, 2 * pos + 1) else left;
      combine(left, right)
  }

  /** The pairs that are hashed for a node. */
  ghost function TreePairs(combine: Combine, txid: seq<Hash>, h: nat, pos: nat): set<(Hash, Hash)>
    requires pos < Width(|txid|, h)
  {
    if h == 0 then {}
    else
      Children(|txid|, h, pos);
      var left := CalcHash(combine, txid, h - 1, 2 * pos);
      if 2 * pos + 1 < Width(|txid|, h - 1) then
        TreePairs(combine, txid, h - 1, 2 * pos) + TreePairs(combine, txid, h - 1, 2 * pos + 1)
        + {(left, CalcHash(combine, txid, h - 1, 2 * pos + 1))}
      else
        TreePairs(combine, txid, h - 1, 2 * pos) + {(left, left)}
  }

  datatype Partial = Partial(bits: seq<bool>, hashes: seq<Hash>)

  predicate AnyMatch(mask: seq<bool>, lo: nat, hi: nat) { exists p :: lo <= p < hi && p < |mask| && mask[p] }

  function Build(combine: Combine, txid: seq<Hash>, mask: seq<bool>, h: nat, pos: nat): (r: Partial)
    requires |mask| == |txid| && pos < Width(|txid|, h)
  {
    var parent := AnyMatch(mask, First(h, pos), Last(|txid|, h, pos));
    if h == 0 || !parent then Partial([parent], [CalcHash(combine, txid, h, pos)])
    else
      Children(|txid|, h, pos);
      var left := Build(combine, txid, mask, h - 1, 2 * pos);
      if 2 * pos + 1 < Width(|txid|, h - 1) then
        var right := Build(combine, txid, mask, h - 1, 2 * pos + 1);
        Partial([parent] + (left.bits + right.bits), left.hashes + right.hashes)
      else
        Partial([parent] + left.bits, left.hashes)
  }

  /** What a traversal yields: the hash, the bits and hashes it left, what it reported, and whether it went wrong. */
  datatype Extracted = Extracted(hash: Hash, bits: seq<bool>, hashes: seq<Hash>, matches: seq<Hash>, indexes: seq<nat>,
                                 bad: bool)

  function Extract(combine: Combine, n: nat, h: nat, pos: nat, bits: seq<bool>, hashes: seq<Hash>): Extracted
    decreases h
  {
    if bits == [] then Extracted(0, bits, hashes, [], [], true)
    else if h == 0 || !bits[0] then
      if hashes == [] then Extracted(0, bits[1..], hashes, [], [], true)
      else if h == 0 && bits[0] then Extracted(hashes[0], bits[1..], hashes[1..], [hashes[0]], [pos], false)
      else Extracted(hashes[0], bits[1..], hashes[1..], [], [], false)
    else
      var l := Extract(combine, n, h - 1, 2 * pos, bits[1..], hashes);
      if 2 * pos + 1 < Width(n, h - 1) then
        var r := Extract(combine, n, h - 1, 2 * pos + 1, l.bits, l.hashes);
        Extracted(combine(l.hash, r.hash), r.bits, r.hashes, l.matches + r.matches, l.indexes + r.indexes,
                  l.bad || r.bad || r.hash == l.hash)
      else
        l.(hash := combine(l.hash, l.hash))
  }

  /** The pairs that extraction hashes. */
  ghost function ReadPairs(combine: Combine, n: nat, h: nat, pos: nat, bits: seq<bool>, hashes: seq<Hash>)
    : set<(Hash, Hash)>
    decreases h
  {
    if bits == [] || h == 0 || !bits[0] then {}
    else
      var l := Extract(combine, n, h - 1, 2 * pos, bits[1..], hashes);
      var left := ReadPairs(combine, n, h - 1, 2 * pos, bits[1..], hashes);
      if 2 * pos + 1 < Width(n, h - 1) then
        left + ReadPairs(combine, n, h - 1, 2 * pos + 1, l.bits, l.hashes)
        + {(l.hash, Extract(combine, n, h - 1, 2 * pos + 1, l.bits, l.hashes).hash)}
      else
        left + {(l.hash, l.hash)}
  }

  /** The positions of the matches between lo and hi, and the transactions there. */
  function Positions(mask: seq<bool>, lo: nat, hi: nat): seq<nat>
    requires lo <= hi <= |mask|
    decreases hi
  {
    if lo == hi then [] else Positions(mask, lo, hi - 1) + if mask[hi - 1] then [hi - 1] else []
  }

  function Picked(txid: seq<Hash>, at: seq<nat>): seq<Hash>
    requires forall k :: 0 <= k < |at| ==> at[k] < |txid|
  {
    seq(|at|, k requires 0 <= k < |at| => txid[at[k]])
  }

  lemma {:induction false} PositionsSplit(mask: seq<bool>, lo: nat, mid: nat, hi: nat)
    requires lo <= mid <= hi <= |mask|
    ensures Positions(mask, lo, hi) == Positions(mask, lo, mid) + Positions(mask, mid, hi)
    decreases hi
  {
    if mid < hi { PositionsSplit(mask, lo, mid, hi - 1); }
  }

  lemma {:induction false} PositionsOf(mask: seq<bool>, lo: nat, hi: nat)
    requires lo <= hi <= |mask|
    ensures forall k :: 0 <= k < |Positions(mask, lo, hi)| ==> lo <= Positions(mask, lo, hi)[k] < hi
    ensures Positions(mask, lo, hi) == [] <==> !AnyMatch(mask, lo, hi)
    decreases hi
  {
    if lo < hi {
      PositionsOf(mask, lo, hi - 1);
      if mask[hi - 1] { assert AnyMatch(mask, lo, hi); }
      else { assert AnyMatch(mask, lo, hi) ==> AnyMatch(mask, lo, hi - 1); }
    }
  }

  // ---------------------------------------------------------------------------------------------
  // Completeness
  // ---------------------------------------------------------------------------------------------

  predicate Distinct(txid: seq<Hash>) { forall i, j :: 0 <= i < j < |txid| ==> txid[i] != txid[j] }

  /** Nodes of one height with equal hashes start with equal leaves, unless two of the pairs hashed for them collide. */
  lemma {:induction false} SameHash(combine: Combine, txid: seq<Hash>, h: nat, p: nat, q: nat)
    returns (x: (Hash, Hash), y: (Hash, Hash))
    requires p < Width(|txid|, h) && q < Width(|txid|, h) && First(h, p) < |txid| && First(h, q) < |txid|
    requires CalcHash(combine, txid, h, p) == CalcHash(combine, txid, h, q)
    ensures txid[First(h, p)] == txid[First(h, q)]
            || (x in TreePairs(combine, txid, h, p) && y in TreePairs(combine, txid, h, q) && Collide(combine, x, y))
    decreases h
  {
    hide Pow, Width, First, Last, CalcHash, TreePairs;
    x, y := (0, 0), (0, 0);
    if h == 0 {
      SameLeaf(combine, txid, p, q);
    } else {
      Children(|txid|, h, p);
      Children(|txid|, h, q);
      var a := NodePair(combine, txid, h, p);
      var b := NodePair(combine, txid, h, q);
      if a == b {
        x, y := SameHash(combine, txid, h - 1, 2 * p, 2 * q);
      } else {
        x, y := a, b;
      }
    }
  }

  lemma SameLeaf(combine: Combine, txid: seq<Hash>, p: nat, q: nat)
    requires p < Width(|txid|, 0) && q < Width(|txid|, 0) && First(0, p) < |txid| && First(0, q) < |txid|
    requires CalcHash(combine, txid, 0, p) == CalcHash(combine, txid, 0, q)
    ensures txid[First(0, p)] == txid[First(0, q)]
  {
    hide Pow, Width, First, Last;
    Leaf(|txid|, p);
    Leaf(|txid|, q);
  }

  /** The pair that a node is the hash of. */
  lemma NodePair(combine: Combine, txid: seq<Hash>, h: nat, pos: nat) returns (x: (Hash, Hash))
    requires h > 0 && pos < Width(|txid|, h)
    ensures 2 * pos < Width(|txid|, h - 1) && x.0 == CalcHash(combine, txid, h - 1, 2 * pos)
    ensures x.1 == if 2 * pos + 1 < Width(|txid|, h - 1) then CalcHash(combine, txid, h - 1, 2 * pos + 1) else x.0
    ensures x in TreePairs(combine, txid, h, pos) && CalcHash(combine, txid, h, pos) == combine(x.0, x.1)
    ensures TreePairs(combine, txid, h - 1, 2 * pos) <= TreePairs(combine, txid, h, pos)
    ensures 2 * pos + 1 < Width(|txid|, h - 1) ==>
              TreePairs(combine, txid, h - 1, 2 * pos + 1) <= TreePairs(combine, txid, h, pos)
  {
    hide Pow, Width, First, Last;
    Children(|txid|, h, pos);
    var left := CalcHash(combine, txid, h - 1, 2 * pos);
    x := (left, if 2 * pos + 1 < Width(|txid|, h - 1) then CalcHash(combine, txid, h - 1, 2 * pos + 1) else left);
  }

  /** No node that is descended into has two children with the same hash. */
  ghost predicate Apart(combine: Combine, txid: seq<Hash>, mask: seq<bool>, h: nat, pos: nat)
    requires |mask| == |txid| && pos < Width(|txid|, h)
  {
    if h == 0 || !AnyMatch(mask, First(h, pos), Last(|txid|, h, pos)) then true
    else
      Children(|txid|, h, pos);
      && Apart(combine, txid, mask, h - 1, 2 * pos)
      && (2 * pos + 1 < Width(|txid|, h - 1) ==>
            && Apart(combine, txid, mask, h - 1, 2 * pos + 1)
            && CalcHash(combine, txid, h - 1, 2 * pos + 1) != CalcHash(combine, txid, h - 1, 2 * pos))
  }

  lemma ApartDescends(combine: Combine, txid: seq<Hash>, mask: seq<bool>, h: nat, pos: nat)
    requires |mask| == |txid| && pos < Width(|txid|, h)
    requires h > 0 && AnyMatch(mask, First(h, pos), Last(|txid|, h, pos))
    ensures 2 * pos < Width(|txid|, h - 1)
    ensures Apart(combine, txid, mask, h, pos)
            <==> && Apart(combine, txid, mask, h - 1, 2 * pos)
                 && (2 * pos + 1 < Width(|txid|, h - 1) ==>
                       && Apart(combine, txid, mask, h - 1, 2 * pos + 1)
                       && CalcHash(combine, txid, h - 1, 2 * pos + 1) != CalcHash(combine, txid, h - 1, 2 * pos))
  {
    hide Width, First, Last, AnyMatch, CalcHash;
    Children(|txid|, h, pos);
  }

  lemma ApartHere(combine: Combine, txid: seq<Hash>, mask: seq<bool>, h: nat, pos: nat)
    requires |mask| == |txid| && pos < Width(|txid|, h)
    requires h == 0 || !AnyMatch(mask, First(h, pos), Last(|txid|, h, pos))
    ensures Apart(combine, txid, mask, h, pos)
  {
    hide Width, First, Last, AnyMatch, CalcHash;
  }

  /** With distinct leaves that takes a collision: two of the pairs hashed for the tree. */
  lemma {:induction false} TwinsCollide(combine: Combine, txid: seq<Hash>, mask: seq<bool>, h: nat, pos: nat)
    returns (x: (Hash, Hash), y: (Hash, Hash))
    requires |mask| == |txid| && pos < Width(|txid|, h) && Distinct(txid) && !Apart(combine, txid, mask, h, pos)
    ensures x in TreePairs(combine, txid, h, pos) && y in TreePairs(combine, txid, h, pos) && Collide(combine, x, y)
    decreases h
  {
    hide Width, First, Last, AnyMatch, CalcHash, TreePairs, Apart, Distinct;
    x, y := (0, 0), (0, 0);
    if h == 0 || !AnyMatch(mask, First(h, pos), Last(|txid|, h, pos)) {
      ApartHere(combine, txid, mask, h, pos);
    } else {
      ApartDescends(combine, txid, mask, h, pos);
      var _ := NodePair(combine, txid, h, pos);
      if !Apart(combine, txid, mask, h - 1, 2 * pos) {
        x, y := TwinsCollide(combine, txid, mask, h - 1, 2 * pos);
      } else if !Apart(combine, txid, mask, h - 1, 2 * pos + 1) {
        x, y := TwinsCollide(combine, txid, mask, h - 1, 2 * pos + 1);
      } else {
        FirstLeaves(txid, h, pos);
        x, y := SameHash(combine, txid, h - 1, 2 * pos, 2 * pos + 1);
      }
    }
  }

  lemma FirstLeaves(txid: seq<Hash>, h: nat, pos: nat)
    requires h > 0 && pos < Width(|txid|, h) && 2 * pos + 1 < Width(|txid|, h - 1) && Distinct(txid)
    ensures First(h - 1, 2 * pos) < First(h - 1, 2 * pos + 1) < |txid|
    ensures txid[First(h - 1, 2 * pos)] != txid[First(h - 1, 2 * pos + 1)]
  {
    hide Pow, Width;
    FirstHalves(h, pos);
    WidthIff(|txid|, h - 1, 2 * pos + 1);
  }

  ghost predicate NodeRange(mask: seq<bool>, h: nat, pos: nat) { First(h, pos) <= Last(|mask|, h, pos) }

  ghost function Below(mask: seq<bool>, h: nat, pos: nat): seq<nat>
    requires NodeRange(mask, h, pos)
  {
    Positions(mask, First(h, pos), Last(|mask|, h, pos))
  }

  lemma InRange(mask: seq<bool>, h: nat, pos: nat)
    requires pos < Width(|mask|, h)
    ensures NodeRange(mask, h, pos)
    ensures forall k :: 0 <= k < |Below(mask, h, pos)| ==> Below(mask, h, pos)[k] < |mask|
    ensures Below(mask, h, pos) == [] <==> !AnyMatch(mask, First(h, pos), Last(|mask|, h, pos))
  {
    hide Width, Positions, AnyMatch;
    WidthIff(|mask|, h, pos);
    MulAdd(Pow(2, h), pos, 1);
    PositionsOf(mask, First(h, pos), Last(|mask|, h, pos));
  }

  /** The matches below a node are those below its children. */
  lemma BelowSplit(mask: seq<bool>, h: nat, pos: nat)
    requires h > 0 && pos < Width(|mask|, h)
    ensures NodeRange(mask, h, pos) && 2 * pos < Width(|mask|, h - 1) && NodeRange(mask, h - 1, 2 * pos)
    ensures 2 * pos + 1 < Width(|mask|, h - 1) ==>
              NodeRange(mask, h - 1, 2 * pos + 1)
                && Below(mask, h, pos) == Below(mask, h - 1, 2 * pos) + Below(mask, h - 1, 2 * pos + 1)
    ensures 2 * pos + 1 >= Width(|mask|, h - 1) ==> Below(mask, h, pos) == Below(mask, h - 1, 2 * pos)
  {
    hide Width, Positions, First;
    Children(|mask|, h, pos);
    if 2 * pos + 1 < Width(|mask|, h - 1) {
      PositionsSplit(mask, First(h, pos), First(h - 1, 2 * pos + 1), Last(|mask|, h, pos));
    }
  }

  lemma PickedAppend(txid: seq<Hash>, a: seq<nat>, b: seq<nat>)
    requires forall k :: 0 <= k < |a| ==> a[k] < |txid|
    requires forall k :: 0 <= k < |b| ==> b[k] < |txid|
    ensures forall k :: 0 <= k < |a + b| ==> (a + b)[k] < |txid|
    ensures Picked(txid, a + b) == Picked(txid, a) + Picked(txid, b)
  {}

  /** Building a node that is descended into. */
  lemma BuildDescends(combine: Combine, txid: seq<Hash>, mask: seq<bool>, h: nat, pos: nat)
    requires |mask| == |txid| && pos < Width(|txid|, h) && h > 0 && AnyMatch(mask, First(h, pos), Last(|txid|, h, pos))
    ensures 2 * pos < Width(|txid|, h - 1)
    ensures var l := Build(combine, txid, mask, h - 1, 2 * pos);
            if 2 * pos + 1 < Width(|txid|, h - 1) then
              var r := Build(combine, txid, mask, h - 1, 2 * pos + 1);
              Build(combine, txid, mask, h, pos) == Partial([true] + (l.bits + r.bits), l.hashes + r.hashes)
            else Build(combine, txid, mask, h, pos) == Partial([true] + l.bits, l.hashes)
  {
    hide Width, First, Last, AnyMatch, CalcHash;
    Children(|txid|, h, pos);
  }

  /** What extraction must yield at a node, and leave for the rest. */
  ghost predicate ReadsOk(combine: Combine, txid: seq<Hash>, mask: seq<bool>, h: nat, pos: nat, e: Extracted,
                          bs: seq<bool>, hs: seq<Hash>)
    requires |mask| == |txid| && pos < Width(|txid|, h) && NodeRange(mask, h, pos)
  {
    && (forall k :: 0 <= k < |Below(mask, h, pos)| ==> Below(mask, h, pos)[k] < |txid|)
    && e == Extracted(CalcHash(combine, txid, h, pos), bs, hs, Picked(txid, Below(mask, h, pos)), Below(mask, h, pos),
                      !Apart(combine, txid, mask, h, pos))
  }

  /** Extraction reads exactly what was built, whatever follows it, and finds fault exactly if some node that was
      descended into has two equal children. */
  lemma {:induction false} Reads(combine: Combine, txid: seq<Hash>, mask: seq<bool>, h: nat, pos: nat, bs: seq<bool>,
                                 hs: seq<Hash>)
    requires |mask| == |txid| && pos < Width(|txid|, h)
    ensures NodeRange(mask, h, pos)
    ensures var b := Build(combine, txid, mask, h, pos);
            ReadsOk(combine, txid, mask, h, pos, Extract(combine, |txid|, h, pos, b.bits + bs, b.hashes + hs), bs, hs)
    decreases h
  {
    hide Width, First, Last, Positions, AnyMatch, Below, Extract, Build, ReadsOk, Apart;
    InRange(mask, h, pos);
    var n, b := |txid|, Build(combine, txid, mask, h, pos);
    if h == 0 || !AnyMatch(mask, First(h, pos), Last(n, h, pos)) {
      ReadsHere(combine, txid, mask, h, pos, bs, hs);
    } else {
      BelowSplit(mask, h, pos);
      BuildDescends(combine, txid, mask, h, pos);
      var left := Build(combine, txid, mask, h - 1, 2 * pos);
      if 2 * pos + 1 < Width(n, h - 1) {
        var right := Build(combine, txid, mask, h - 1, 2 * pos + 1);
        assert b.hashes + hs == left.hashes + (right.hashes + hs);
        assert b.bits + bs == [true] + (left.bits + (right.bits + bs));
        Reads(combine, txid, mask, h - 1, 2 * pos, right.bits + bs, right.hashes + hs);
        Reads(combine, txid, mask, h - 1, 2 * pos + 1, bs, hs);
        ReadsBoth(combine, txid, mask, h, pos, left.bits + (right.bits + bs), left.hashes + (right.hashes + hs),
                  right.bits + bs, right.hashes + hs, bs, hs);
      } else {
        assert b.bits + bs == [true] + (left.bits + bs);
        Reads(combine, txid, mask, h - 1, 2 * pos, bs, hs);
        ReadsOne(combine, txid, mask, h, pos, left.bits + bs, left.hashes + hs, bs, hs);
      }
    }
  }

  lemma ReadsBoth(combine: Combine, txid: seq<Hash>, mask: seq<bool>, h: nat, pos: nat, bits: seq<bool>,
                  hashes: seq<Hash>,
                  bs1: seq<bool>, hs1: seq<Hash>, bs: seq<bool>, hs: seq<Hash>)
    requires |mask| == |txid| && h > 0 && pos < Width(|txid|, h) && AnyMatch(mask, First(h, pos), Last(|txid|, h, pos))
    requires 2 * pos < 2 * pos + 1 < Width(|txid|, h - 1) && NodeRange(mask, h - 1, 2 * pos)
             && NodeRange(mask, h - 1, 2 * pos + 1)
    requires ReadsOk(combine, txid, mask, h - 1, 2 * pos, Extract(combine, |txid|, h - 1, 2 * pos, bits, hashes), bs1,
                     hs1)
    requires ReadsOk(combine, txid, mask, h - 1, 2 * pos + 1, Extract(combine, |txid|, h - 1, 2 * pos + 1, bs1, hs1),
                     bs, hs)
    ensures NodeRange(mask, h, pos)
    ensures ReadsOk(combine, txid, mask, h, pos, Extract(combine, |txid|, h, pos, [true] + bits, hashes), bs, hs)
  {
    hide Width, First, Last, Positions, AnyMatch, Below, Picked, Apart;
    BelowSplit(mask, h, pos);
    InRange(mask, h, pos);
    ApartDescends(combine, txid, mask, h, pos);
    PickedAppend(txid, Below(mask, h - 1, 2 * pos), Below(mask, h - 1, 2 * pos + 1));
    assert ([true] + bits)[1..] == bits;
  }

  lemma ReadsOne(combine: Combine, txid: seq<Hash>, mask: seq<bool>, h: nat, pos: nat, bits: seq<bool>,
                 hashes: seq<Hash>,
                 bs: seq<bool>, hs: seq<Hash>)
    requires |mask| == |txid| && h > 0 && pos < Width(|txid|, h) && AnyMatch(mask, First(h, pos), Last(|txid|, h, pos))
    requires 2 * pos < Width(|txid|, h - 1) <= 2 * pos + 1 && NodeRange(mask, h - 1, 2 * pos)
    requires ReadsOk(combine, txid, mask, h - 1, 2 * pos, Extract(combine, |txid|, h - 1, 2 * pos, bits, hashes), bs,
                     hs)
    ensures NodeRange(mask, h, pos)
    ensures ReadsOk(combine, txid, mask, h, pos, Extract(combine, |txid|, h, pos, [true] + bits, hashes), bs, hs)
  {
    hide Width, First, Last, Positions, AnyMatch, Below, Picked, Apart;
    BelowSplit(mask, h, pos);
    ApartDescends(combine, txid, mask, h, pos);
    assert ([true] + bits)[1..] == bits;
  }

  /** A node that is not descended into reports itself if it is a matched leaf, and nothing otherwise. */
  lemma ReadsHere(combine: Combine, txid: seq<Hash>, mask: seq<bool>, h: nat, pos: nat, bs: seq<bool>, hs: seq<Hash>)
    requires |mask| == |txid| && pos < Width(|txid|, h)
    requires h == 0 || !AnyMatch(mask, First(h, pos), Last(|mask|, h, pos))
    ensures NodeRange(mask, h, pos)
    ensures var b := Build(combine, txid, mask, h, pos);
            ReadsOk(combine, txid, mask, h, pos, Extract(combine, |txid|, h, pos, b.bits + bs, b.hashes + hs), bs, hs)
  {
    hide Width, First, Last, Positions, AnyMatch, Apart;
    InRange(mask, h, pos);
    ApartHere(combine, txid, mask, h, pos);
    var b := Build(combine, txid, mask, h, pos);
    assert (b.bits + bs)[1..] == bs && (b.hashes + hs)[1..] == hs;
    if h == 0 { LeafMatch(mask, pos); }
  }

  lemma LeafMatch(mask: seq<bool>, pos: nat)
    requires pos < Width(|mask|, 0)
    ensures NodeRange(mask, 0, pos) && pos < |mask|
    ensures AnyMatch(mask, First(0, pos), Last(|mask|, 0, pos)) == mask[pos]
    ensures mask[pos] ==> Below(mask, 0, pos) == [pos]
  {
    hide Width;
    Leaf(|mask|, pos);
    assert Positions(mask, pos, pos) == [];
  }

  /** The size of what is built: at most one hash for every leaf, at most one for every matched path and level
      besides the first, and a bit for every hash. */
  lemma {:induction false} Sizes(combine: Combine, txid: seq<Hash>, mask: seq<bool>, h: nat, pos: nat)
    requires |mask| == |txid| && pos < Width(|txid|, h)
    ensures NodeRange(mask, h, pos)
    ensures var b := Build(combine, txid, mask, h, pos);
            && 1 <= |b.hashes| <= |b.bits| && |b.hashes| <= Last(|txid|, h, pos) - First(h, pos)
            && |b.hashes| <= 1 + |Below(mask, h, pos)| * h
    decreases h
  {
    hide Width, First, Last, Positions, AnyMatch, Below, Build;
    InRange(mask, h, pos);
    if h == 0 || !AnyMatch(mask, First(h, pos), Last(|txid|, h, pos)) {
      NonEmpty(|txid|, h, pos);
      SizeHere(combine, txid, mask, h, pos);
      MulMono(0, |Below(mask, h, pos)|, h);
    } else {
      Children(|txid|, h, pos);
      BelowSplit(mask, h, pos);
      BuildDescends(combine, txid, mask, h, pos);
      Sizes(combine, txid, mask, h - 1, 2 * pos);
      var m1, a := |Below(mask, h - 1, 2 * pos)|, |Build(combine, txid, mask, h - 1, 2 * pos).hashes|;
      if 2 * pos + 1 < Width(|txid|, h - 1) {
        Sizes(combine, txid, mask, h - 1, 2 * pos + 1);
        var m2, b := |Below(mask, h - 1, 2 * pos + 1)|, |Build(combine, txid, mask, h - 1, 2 * pos + 1).hashes|;
        SizeStep(a, b, m1, m2, h);
      } else {
        MulAdd(m1, h - 1, 1);
      }
    }
  }

  lemma SizeHere(combine: Combine, txid: seq<Hash>, mask: seq<bool>, h: nat, pos: nat)
    requires |mask| == |txid| && pos < Width(|txid|, h)
             && (h == 0 || !AnyMatch(mask, First(h, pos), Last(|txid|, h, pos)))
    ensures Build(combine, txid, mask, h, pos)
            == Partial([AnyMatch(mask, First(h, pos), Last(|txid|, h, pos))], [CalcHash(combine, txid, h, pos)])
  {
    hide Width, First, Last, AnyMatch;
  }

  lemma SizeStep(a: int, b: int, m1: int, m2: int, h: int)
    requires a <= 1 + m1 * (h - 1) && b <= 1 + m2 * (h - 1) && m1 + m2 >= 1
    ensures a + b <= 1 + (m1 + m2) * h
  {
    MulAdd(h - 1, m1, m2);
    MulAdd(m1 + m2, h - 1, 1);
  }

  lemma NonEmpty(n: nat, h: nat, pos: nat)
    requires pos < Width(n, h)
    ensures First(h, pos) < Last(n, h, pos)
  {
    hide Width;
    WidthIff(n, h, pos);
    MulAdd(Pow(2, h), pos, 1);
  }

  // ---------------------------------------------------------------------------------------------
  // Soundness
  // ---------------------------------------------------------------------------------------------

  ghost predicate Right(txid: seq<Hash>, matches: seq<Hash>, indexes: seq<nat>) {
    |matches| == |indexes| && forall k :: 0 <= k < |indexes| ==> indexes[k] < |txid| && txid[indexes[k]] == matches[k]
  }

  lemma RightAppend(txid: seq<Hash>, m1: seq<Hash>, i1: seq<nat>, m2: seq<Hash>, i2: seq<nat>)
    requires Right(txid, m1, i1) && Right(txid, m2, i2)
    ensures Right(txid, m1 + m2, i1 + i2)
  {
    var i, m := i1 + i2, m1 + m2;
    forall k | 0 <= k < |i| ensures i[k] < |txid| && txid[i[k]] == m[k] {
      if k < |i1| { assert i[k] == i1[k]; } else { assert i[k] == i2[k - |i1|]; }
    }
  }

  /** Extraction of a node that is not descended into. */
  lemma ExtractHere(combine: Combine, n: nat, h: nat, pos: nat, bits: seq<bool>, hashes: seq<Hash>)
    ensures bits == [] ==> Extract(combine, n, h, pos, bits, hashes) == Extracted(0, bits, hashes, [], [], true)
    ensures bits != [] && (h == 0 || !bits[0]) ==>
              Extract(combine, n, h, pos, bits, hashes) ==
                if hashes == [] then Extracted(0, bits[1..], hashes, [], [], true)
                else if h == 0 && bits[0] then Extracted(hashes[0], bits[1..], hashes[1..], [hashes[0]], [pos], false)
                else Extracted(hashes[0], bits[1..], hashes[1..], [], [], false)
  {
    hide Width;
  }

  /** Extraction of a node that is descended into. */
  lemma ExtractDescends(combine: Combine, n: nat, h: nat, pos: nat, bits: seq<bool>, hashes: seq<Hash>)
    requires h > 0 && bits != [] && bits[0]
    ensures var l := Extract(combine, n, h - 1, 2 * pos, bits[1..], hashes);
            var e := Extract(combine, n, h, pos, bits, hashes);
            if 2 * pos + 1 < Width(n, h - 1) then
              var r := Extract(combine, n, h - 1, 2 * pos + 1, l.bits, l.hashes);
              e == Extracted(combine(l.hash, r.hash), r.bits, r.hashes, l.matches + r.matches, l.indexes + r.indexes,
                             l.bad || r.bad || r.hash == l.hash)
            else e == l.(hash := combine(l.hash, l.hash))
  {
    hide Width;
  }

  /** Whatever the bits and hashes are: an extraction that ends with the true hash of a node reported only true
      transactions, unless a pair it hashed collides with one that is hashed for the node. */
  lemma {:induction false} Sound(combine: Combine, txid: seq<Hash>, h: nat, pos: nat, bits: seq<bool>,
                                 hashes: seq<Hash>, e: Extracted)
    returns (x: (Hash, Hash), y: (Hash, Hash))
    requires pos < Width(|txid|, h) && e == Extract(combine, |txid|, h, pos, bits, hashes)
    requires !e.bad && e.hash == CalcHash(combine, txid, h, pos)
    ensures Right(txid, e.matches, e.indexes)
            || (&& x in ReadPairs(combine, |txid|, h, pos, bits, hashes) && y in TreePairs(combine, txid, h, pos)
                && Collide(combine, x, y))
    decreases h
  {
    hide Width, Extract, CalcHash, Right, ReadPairs, TreePairs;
    x, y := (0, 0), (0, 0);
    if bits == [] || h == 0 || !bits[0] {
      SoundHere(combine, txid, h, pos, bits, hashes);
    } else {
      var n := |txid|;
      ExtractDescends(combine, n, h, pos, bits, hashes);
      var a := ReadPair(combine, n, h, pos, bits, hashes);
      var b := NodePair(combine, txid, h, pos);
      var l := Extract(combine, n, h - 1, 2 * pos, bits[1..], hashes);
      if a != b {
        x, y := a, b;
      } else {
        x, y := Sound(combine, txid, h - 1, 2 * pos, bits[1..], hashes, l);
        if Right(txid, l.matches, l.indexes) && 2 * pos + 1 < Width(n, h - 1) {
          var r := Extract(combine, n, h - 1, 2 * pos + 1, l.bits, l.hashes);
          x, y := Sound(combine, txid, h - 1, 2 * pos + 1, l.bits, l.hashes, r);
          if Right(txid, r.matches, r.indexes) {
            RightAppend(txid, l.matches, l.indexes, r.matches, r.indexes);
          }
        }
      }
    }
  }

  /** The pair that extraction hashes at a node it descends into. */
  lemma ReadPair(combine: Combine, n: nat, h: nat, pos: nat, bits: seq<bool>, hashes: seq<Hash>)
    returns (x: (Hash, Hash))
    requires h > 0 && bits != [] && bits[0]
    ensures var l := Extract(combine, n, h - 1, 2 * pos, bits[1..], hashes);
            && x.0 == l.hash && x in ReadPairs(combine, n, h, pos, bits, hashes)
            && ReadPairs(combine, n, h - 1, 2 * pos, bits[1..], hashes) <= ReadPairs(combine, n, h, pos, bits, hashes)
            && (2 * pos + 1 >= Width(n, h - 1) ==> x.1 == l.hash)
            && (2 * pos + 1 < Width(n, h - 1) ==>
                  && x.1 == Extract(combine, n, h - 1, 2 * pos + 1, l.bits, l.hashes).hash
                  && ReadPairs(combine, n, h - 1, 2 * pos + 1, l.bits, l.hashes)
                     <= ReadPairs(combine, n, h, pos, bits, hashes))
  {
    hide Width, Extract;
    var l := Extract(combine, n, h - 1, 2 * pos, bits[1..], hashes);
    x := (l.hash, if 2 * pos + 1 < Width(n, h - 1) then Extract(combine, n, h - 1, 2 * pos + 1, l.bits, l.hashes).hash
                  else l.hash);
  }

  lemma SoundHere(combine: Combine, txid: seq<Hash>, h: nat, pos: nat, bits: seq<bool>, hashes: seq<Hash>)
    requires pos < Width(|txid|, h) && (bits == [] || h == 0 || !bits[0])
    requires var e := Extract(combine, |txid|, h, pos, bits, hashes);
             !e.bad && e.hash == CalcHash(combine, txid, h, pos)
    ensures var e := Extract(combine, |txid|, h, pos, bits, hashes); Right(txid, e.matches, e.indexes)
  {
    hide Width;
    Leaf(|txid|, pos);
  }

  // ---------------------------------------------------------------------------------------------
  // Bits and bytes
  // ---------------------------------------------------------------------------------------------

  function Bit(bits: seq<bool>, i: nat): nat { if i < |bits| && bits[i] then 1 else 0 }

  predicate BitAt(x: nat, j: nat) { x / Pow(2, j) % 2 == 1 }

  function ByteCount(n: nat, k: nat): nat { if n <= 8 * k then 0 else if n < 8 * k + 8 then n - 8 * k else 8 }

  /** The first n bits that belong to byte k, least significant first. */
  function BitsFrom(bits: seq<bool>, k: nat, n: nat): (r: seq<nat>)
    ensures |r| == n && forall j :: 0 <= j < n ==> r[j] == Bit(bits, 8 * k + j)
  {
    if n == 0 then [] else BitsFrom(bits, k, n - 1) + [Bit(bits, 8 * k + n - 1)]
  }

  function ByteBits(bits: seq<bool>, k: nat): (r: seq<nat>)
    ensures Proper(2, r)
  {
    BitsFrom(bits, k, ByteCount(|bits|, k))
  }

  function Pack(bits: seq<bool>): seq<nat> {
    seq((|bits| + 7) / 8, k requires 0 <= k < (|bits| + 7) / 8 => Value(2, ByteBits(bits, k)))
  }

  function Unpack(bytes: seq<nat>): seq<bool> {
    seq(8 * |bytes|, p requires 0 <= p < 8 * |bytes| => BitAt(bytes[p / 8], p % 8))
  }

  function Padding(n: nat): seq<bool> { seq((n + 7) / 8 * 8 - n, _ => false) }

  lemma ValueFirst(b: nat, s: seq<nat>)
    requires s != []
    ensures Value(b, s) == s[0] + b * Value(b, s[1..])
  {
    ValueSplit(b, s, 1);
    assert s[..1] == [] + [s[0]];
    ValuePush(b, [], s[0]);
    assert Pow(b, 1) == b;
  }

  lemma BitOfValue(s: seq<nat>, j: nat)
    requires Proper(2, s)
    ensures BitAt(Value(2, s), j) <==> j < |s| && s[j] == 1
  {
    hide Pow, Value;
    if j < |s| {
      ValueSplit(2, s, j);
      ValueBound(2, s[..j]);
      DivModUnique(Value(2, s), Pow(2, j), Value(2, s[j..]), Value(2, s[..j]));
      ValueFirst(2, s[j..]);
    } else {
      ValueBound(2, s);
      PowMono(2, |s|, j);
      DivModUnique(Value(2, s), Pow(2, j), 0, Value(2, s));
    }
  }

  lemma PackedBit(bits: seq<bool>, p: nat)
    requires p / 8 < |Pack(bits)|
    ensures BitAt(Pack(bits)[p / 8], p % 8) <==> p < |bits| && bits[p]
  {
    hide Pow, Value, BitAt;
    BitOfValue(ByteBits(bits, p / 8), p % 8);
  }

  /** Unpacking what was packed gives the bits back, padded to whole bytes. */
  lemma PackRoundTrip(bits: seq<bool>)
    ensures Unpack(Pack(bits)) == bits + Padding(|bits|)
  {
    hide Pow, Value, BitAt, Pack;
    var n, bytes := |bits|, Pack(bits);
    assert |bytes| == (n + 7) / 8 by { PackLength(bits); }
    forall p | 0 <= p < 8 * |bytes| ensures Unpack(bytes)[p] == (bits + Padding(n))[p] {
      PackedBit(bits, p);
    }
  }

  lemma PackLength(bits: seq<bool>)
    ensures |Pack(bits)| == (|bits| + 7) / 8
  {}

  method PackBits(vBits: seq<bool>) returns (vBytes: seq<nat>)
    ensures vBytes == Pack(vBits)
  {
    hide Pow, Value, Or;
    vBytes := seq((|vBits| + 7) / 8, _ => 0);
    assert vBits[..0] == [];
    forall k | 0 <= k < |vBytes|
      ensures vBytes[k] == Value(2, ByteBits(vBits[..0], k))
    {
      ValueZeros(2, ByteBits(vBits[..0], k));
    }
    for p := 0 to |vBits|
      invariant |vBytes| == (|vBits| + 7) / 8
      invariant forall k :: 0 <= k < |vBytes| ==> vBytes[k] == Value(2, ByteBits(vBits[..p], k))
    {
      var k := p / 8;
      PackStep(vBits, p);
      var byte := Or(vBytes[k], Bit(vBits, p) * Pow(2, p % 8));
      vBytes := vBytes[k := byte];
    }
    assert vBits[..|vBits|] == vBits;
  }

  lemma PackStep(bits: seq<bool>, p: nat)
    requires p < |bits|
    ensures forall k: nat :: k != p / 8 ==> ByteBits(bits[..p + 1], k) == ByteBits(bits[..p], k)
    ensures Value(2, ByteBits(bits[..p + 1], p / 8))
            == Or(Value(2, ByteBits(bits[..p], p / 8)), Bit(bits, p) * Pow(2, p % 8))
  {
    hide Pow, Value, Or;
    var k, j := p / 8, p % 8;
    var s, t := ByteBits(bits[..p], k), ByteBits(bits[..p + 1], k);
    assert |s| == j && t == s + [Bit(bits, p)];
    ValuePush(2, s, Bit(bits, p));
    ValueBound(2, s);
    ModOf(Bit(bits, p) * Pow(2, j), 0, Pow(2, j), Bit(bits, p));
    OrDisjoint(Bit(bits, p) * Pow(2, j), Value(2, s), j);
    forall k': nat | k' != k ensures ByteBits(bits[..p + 1], k') == ByteBits(bits[..p], k') {}
  }

  method UnpackBits(vBytes: seq<nat>) returns (vBits: seq<bool>)
    ensures vBits == Unpack(vBytes)
  {
    hide BitAt;
    vBits := seq(8 * |vBytes|, _ => false);
    for p := 0 to 8 * |vBytes|
      invariant |vBits| == 8 * |vBytes| && forall q :: 0 <= q < p ==> vBits[q] == Unpack(vBytes)[q]
    {
      vBits := vBits[p := BitAt(vBytes[p / 8], p % 8)];
    }
  }

  // ---------------------------------------------------------------------------------------------
  // Whole trees
  // ---------------------------------------------------------------------------------------------

  /** The least height with a single node. */
  function Height(n: nat, h: nat): nat
    decreases if Pow(2, h) < n then n - Pow(2, h) else 0
  {
    WidthIff(n, h, 1);
    if Width(n, h) > 1 then Height(n, h + 1) else h
  }

  lemma {:induction false} HeightOk(n: nat, h: nat)
    requires n > 0
    ensures Height(n, h) >= h && Width(n, Height(n, h)) == 1
    ensures Height(n, h) > h ==> Width(n, Height(n, h) - 1) > 1
    decreases if Pow(2, h) < n then n - Pow(2, h) else 0
  {
    hide Width;
    WidthIff(n, h, 1);
    WidthIff(n, h, 0);
    if Width(n, h) > 1 { HeightOk(n, h + 1); }
  }

  function Root(combine: Combine, txid: seq<Hash>): Hash
    requires txid != []
  {
    HeightOk(|txid|, 0);
    CalcHash(combine, txid, Height(|txid|, 0), 0)
  }

  function Tree(combine: Combine, txid: seq<Hash>, mask: seq<bool>): Partial
    requires txid != [] && |mask| == |txid|
  {
    HeightOk(|txid|, 0);
    Build(combine, txid, mask, Height(|txid|, 0), 0)
  }

  datatype Answer = Answer(root: Hash, matches: seq<Hash>, indexes: seq<nat>, bad: bool)

  /** ExtractMatches into empty outputs: the root, or zero if anything is wrong. */
  function Answered(combine: Combine, n: nat, bits: seq<bool>, hashes: seq<Hash>, fBad: bool): Answer {
    if n == 0 || n > MAX_BLOCK_WEIGHT / MIN_TRANSACTION_WEIGHT || |hashes| > n || |bits| < |hashes|
      then Answer(0, [], [], fBad)
    else
      var e := Extract(combine, n, Height(n, 0), 0, bits, hashes);
      var used := |bits| - |e.bits|;
      Answer(if fBad || e.bad || (used + 7) / 8 != (|bits| + 7) / 8 || e.hashes != [] then 0 else e.hash,
             e.matches, e.indexes, fBad || e.bad)
  }

  lemma RootRange(mask: seq<bool>)
    requires mask != []
    ensures var h := Height(|mask|, 0);
            Width(|mask|, h) == 1 && NodeRange(mask, h, 0) && Below(mask, h, 0) == Positions(mask, 0, |mask|)
            && First(h, 0) == 0 && Last(|mask|, h, 0) == |mask|
  {
    hide Width, Positions;
    var h := Height(|mask|, 0);
    HeightOk(|mask|, 0);
    WidthIff(|mask|, h, 1);
    InRange(mask, h, 0);
  }

  /** Every node that is descended into for the matches has different children. */
  ghost predicate Readable(combine: Combine, txid: seq<Hash>, mask: seq<bool>)
    requires txid != [] && |mask| == |txid|
  {
    HeightOk(|txid|, 0);
    Apart(combine, txid, mask, Height(|txid|, 0), 0)
  }

  /** Building, packing, unpacking and extracting returns the matched transactions in order, and the true root if and
      only if no node descended into has two equal children; with no more hashes than transactions and no more than
      one besides the first for each matched path and level. */
  lemma Completeness(combine: Combine, txid: seq<Hash>, mask: seq<bool>)
    requires 0 < |txid| == |mask| <= MAX_BLOCK_WEIGHT / MIN_TRANSACTION_WEIGHT
    ensures var at := Positions(mask, 0, |mask|);
            var b := Tree(combine, txid, mask);
            && (forall k :: 0 <= k < |at| ==> at[k] < |txid|)
            && Answered(combine, |txid|, Unpack(Pack(b.bits)), b.hashes, false)
               == (if Readable(combine, txid, mask) then Answer(Root(combine, txid), Picked(txid, at), at, false)
                   else Answer(0, Picked(txid, at), at, true))
            && |b.hashes| <= |txid| && |b.hashes| <= 1 + |at| * Height(|txid|, 0)
  {
    hide Width, Positions, Extract, Build, CalcHash, Unpack, Pack, Height, First, Last, Below, Apart;
    var b, h := Tree(combine, txid, mask), Height(|txid|, 0);
    RootRange(mask);
    InRange(mask, h, 0);
    PackRoundTrip(b.bits);
    Reads(combine, txid, mask, h, 0, Padding(|b.bits|), []);
    assert b.hashes + [] == b.hashes;
    Sizes(combine, txid, mask, h, 0);
  }

  /** A block with distinct transactions whose tree cannot be read hashes two pairs that collide. */
  lemma UnreadableCollides(combine: Combine, txid: seq<Hash>, mask: seq<bool>)
    returns (x: (Hash, Hash), y: (Hash, Hash))
    requires txid != [] && |mask| == |txid| && Distinct(txid) && !Readable(combine, txid, mask)
    ensures Collide(combine, x, y) && x in RootPairs(combine, txid) && y in RootPairs(combine, txid)
  {
    hide Width, CalcHash, Height, Apart, TreePairs, Distinct;
    HeightOk(|txid|, 0);
    x, y := TwinsCollide(combine, txid, mask, Height(|txid|, 0), 0);
  }

  /** The pairs hashed for the root of a block. */
  ghost function RootPairs(combine: Combine, txid: seq<Hash>): set<(Hash, Hash)>
    requires txid != []
  {
    HeightOk(|txid|, 0);
    TreePairs(combine, txid, Height(|txid|, 0), 0)
  }

  /** A non-zero true root means that every report is true, unless a pair hashed in extraction collides with one hashed
      for the block. */
  lemma Soundness(combine: Combine, txid: seq<Hash>, bits: seq<bool>, hashes: seq<Hash>, fBad: bool)
    returns (x: (Hash, Hash), y: (Hash, Hash))
    requires txid != [] && Root(combine, txid) != 0
    requires var a := Answered(combine, |txid|, bits, hashes, fBad); a.root == Root(combine, txid)
    ensures var a := Answered(combine, |txid|, bits, hashes, fBad);
            || Right(txid, a.matches, a.indexes)
            || (&& x in ReadPairs(combine, |txid|, Height(|txid|, 0), 0, bits, hashes)
                && y in RootPairs(combine, txid) && Collide(combine, x, y))
  {
    hide Width, Extract, CalcHash, Height, Right, ReadPairs, TreePairs;
    HeightOk(|txid|, 0);
    var e := Extract(combine, |txid|, Height(|txid|, 0), 0, bits, hashes);
    x, y := Sound(combine, txid, Height(|txid|, 0), 0, bits, hashes, e);
  }

  // ---------------------------------------------------------------------------------------------
  // A zero root
  // ---------------------------------------------------------------------------------------------

  function Trues(n: nat): seq<bool> { seq(n, _ => true) }

  const PADDING: seq<bool> := seq(16, _ => false)

  /** Bits that lead to the first leaf, one hash to be found there, and nothing for the rest of the tree. */
  lemma {:induction false} FirstLeafOnly(combine: Combine, n: nat, h: nat, other: Hash, rest: seq<bool>)
    requires n > 0 && forall k :: 0 <= k < |rest| ==> !rest[k]
    ensures var e := Extract(combine, n, h, 0, Trues(h + 1) + rest, [other]);
            && e.matches == [other] && e.indexes == [0] && e.hashes == []
            && (h > 0 && Width(n, h - 1) > 1 ==> e.bad)
            && |e.bits| <= |rest| && (forall k :: 0 <= k < |e.bits| ==> !e.bits[k]) && (h == 0 ==> |e.bits| == |rest|)
    decreases h
  {
    hide Width;
    var bits := Trues(h + 1) + rest;
    if h == 0 {
      assert bits[1..] == rest;
    } else {
      assert bits[1..] == Trues(h) + rest;
      FirstLeafOnly(combine, n, h - 1, other, rest);
    }
  }

  /** If a block's root is zero then a failed extraction passes for a true one, whatever the hash function: for every
      hash there is a partial tree that reports it as the first transaction. */
  lemma ZeroRootUnsound(combine: Combine, txid: seq<Hash>, other: Hash)
    requires 0 < |txid| <= MAX_BLOCK_WEIGHT / MIN_TRANSACTION_WEIGHT && Root(combine, txid) == 0 && other != txid[0]
    ensures var a := Answered(combine, |txid|, Trues(Height(|txid|, 0) + 1) + PADDING, [other], false);
            a.root == Root(combine, txid) && !Right(txid, a.matches, a.indexes)
  {
    hide Width, Extract, CalcHash, Height, Trues, Right;
    var n := |txid|;
    var h := Height(n, 0);
    HeightOk(n, 0);
    FirstLeafOnly(combine, n, h, other, PADDING);
    var bits := Trues(h + 1) + PADDING;
    assert |Trues(h + 1)| == h + 1 by { TruesLength(h + 1); }
    NotRight(txid, other);
  }

  lemma NotRight(txid: seq<Hash>, other: Hash)
    requires txid != [] && other != txid[0]
    ensures !Right(txid, [other], [0])
  {
    var m, i: seq<nat> := [other], [0];
    assert i[0] == 0 && m[0] == other;
  }

  lemma TruesLength(n: nat)
    ensures |Trues(n)| == n
  {}

  // ---------------------------------------------------------------------------------------------
  // The code
  // ---------------------------------------------------------------------------------------------

  method TreeHeight(nTransactions: nat) returns (nHeight: nat)
    ensures nHeight == Height(nTransactions, 0)
  {
    hide Width;
    nHeight := 0;
    while Width(nTransactions, nHeight) > 1
      invariant Height(nTransactions, nHeight) == Height(nTransactions, 0)
      decreases if Pow(2, nHeight) < nTransactions then nTransactions - Pow(2, nHeight) else 0
    {
      WidthIff(nTransactions, nHeight, 1);
      nHeight := nHeight + 1;
    }
  }

  class PartialMerkleTree {
    const combine: Combine
    var nTransactions: nat
    var vBits: seq<bool>
    var vHash: seq<Hash>
    var fBad: bool

    constructor (combine: Combine)
      ensures nTransactions == 0 && fBad && vBits == [] && vHash == [] && this.combine == combine
    {
      this.combine := combine;
      nTransactions, vBits, vHash, fBad := 0, [], [], true;
    }

    constructor Of(combine: Combine, vTxid: seq<Hash>, vMatch: seq<bool>)
      requires vTxid != [] && |vMatch| == |vTxid|
      ensures this.combine == combine && nTransactions == |vTxid| && !fBad
      ensures Partial(vBits, vHash) == Tree(combine, vTxid, vMatch)
    {
      this.combine := combine;
      nTransactions, vBits, vHash, fBad := |vTxid|, [], [], false;
      new;
      var nHeight := TreeHeight(nTransactions);
      HeightOk(nTransactions, 0);
      TraverseAndBuild(nHeight, 0, vTxid, vMatch);
    }

    method TraverseAndBuild(height: nat, pos: nat, vTxid: seq<Hash>, vMatch: seq<bool>)
      requires |vMatch| == |vTxid| == nTransactions && pos < Width(|vTxid|, height)
      modifies this`vBits, this`vHash
      ensures var b := Build(combine, vTxid, vMatch, height, pos);
              vBits == old(vBits) + b.bits && vHash == old(vHash) + b.hashes
      decreases height
    {
      hide Width, CalcHash, Build, AnyMatch;
      Children1(|vTxid|, height, pos);
      NoMatchYet(vMatch, First(height, pos));
      var fParentOfMatch := false;
      var p := First(height, pos);
      while p < First(height, pos + 1) && p < nTransactions
        invariant First(height, pos) <= p <= Last(|vTxid|, height, pos)
        invariant fParentOfMatch == AnyMatch(vMatch, First(height, pos), p)
        invariant vBits == old(vBits) && vHash == old(vHash)
      {
        fParentOfMatch := fParentOfMatch || vMatch[p];
        p := p + 1;
        AnyMatchStep(vMatch, First(height, pos), p);
      }
      assert fParentOfMatch == AnyMatch(vMatch, First(height, pos), Last(|vTxid|, height, pos));
      vBits := vBits + [fParentOfMatch];
      if height == 0 || !fParentOfMatch {
        SizeHere(combine, vTxid, vMatch, height, pos);
        vHash := vHash + [CalcHash(combine, vTxid, height, pos)];
      } else {
        Children(|vTxid|, height, pos);
        TraverseAndBuild(height - 1, pos * 2, vTxid, vMatch);
        if pos * 2 + 1 < Width(nTransactions, height - 1) {
          TraverseAndBuild(height - 1, pos * 2 + 1, vTxid, vMatch);
        }
        BuildDescends(combine, vTxid, vMatch, height, pos);
        ghost var l := Build(combine, vTxid, vMatch, height - 1, 2 * pos);
        Assoc(old(vBits), [true], l.bits);
        if pos * 2 + 1 < Width(nTransactions, height - 1) {
          ghost var r := Build(combine, vTxid, vMatch, height - 1, 2 * pos + 1);
          Assoc(old(vHash), l.hashes, r.hashes);
          Assoc(old(vBits) + [true], l.bits, r.bits);
          Assoc(old(vBits), [true], l.bits + r.bits);
        }
      }
    }

    /** The cursors and outputs are passed along; what remains after a cursor is what Extract is given. */
    method TraverseAndExtract(height: nat, pos: nat, nBitsUsed0: nat, nHashUsed0: nat, vMatch0: seq<Hash>,
                              vnIndex0: seq<nat>)
      returns (hash: Hash, nBitsUsed: nat, nHashUsed: nat, vMatch: seq<Hash>, vnIndex: seq<nat>)
      requires nBitsUsed0 <= |vBits| && nHashUsed0 <= |vHash|
      modifies this`fBad
      ensures nBitsUsed <= |vBits| && nHashUsed <= |vHash|
      ensures var e := Extract(combine, nTransactions, height, pos, vBits[nBitsUsed0..], vHash[nHashUsed0..]);
              && hash == e.hash && vBits[nBitsUsed..] == e.bits && vHash[nHashUsed..] == e.hashes
              && vMatch == vMatch0 + e.matches && vnIndex == vnIndex0 + e.indexes && fBad == (old(fBad) || e.bad)
      decreases height
    {
      hide Width, Extract;
      nBitsUsed, nHashUsed, vMatch, vnIndex := nBitsUsed0, nHashUsed0, vMatch0, vnIndex0;
      ghost var bits, hashes := vBits[nBitsUsed0..], vHash[nHashUsed0..];
      ExtractHere(combine, nTransactions, height, pos, bits, hashes);
      if nBitsUsed >= |vBits| {
        fBad := true;
        return 0, nBitsUsed, nHashUsed, vMatch, vnIndex;
      }
      var fParentOfMatch := vBits[nBitsUsed];
      nBitsUsed := nBitsUsed + 1;
      assert bits[1..] == vBits[nBitsUsed..];
      if height == 0 || !fParentOfMatch {
        if nHashUsed >= |vHash| {
          fBad := true;
          return 0, nBitsUsed, nHashUsed, vMatch, vnIndex;
        }
        hash := vHash[nHashUsed];
        nHashUsed := nHashUsed + 1;
        assert hashes[1..] == vHash[nHashUsed..];
        if height == 0 && fParentOfMatch {
          vMatch := vMatch + [hash];
          vnIndex := vnIndex + [pos];
        }
      } else {
        ExtractDescends(combine, nTransactions, height, pos, bits, hashes);
        var left, right;
        left, nBitsUsed, nHashUsed, vMatch, vnIndex :=
          TraverseAndExtract(height - 1, pos * 2, nBitsUsed, nHashUsed, vMatch, vnIndex);
        if pos * 2 + 1 < Width(nTransactions, height - 1) {
          right, nBitsUsed, nHashUsed, vMatch, vnIndex :=
            TraverseAndExtract(height - 1, pos * 2 + 1, nBitsUsed, nHashUsed, vMatch, vnIndex);
          if right == left { fBad := true; }
        } else {
          right := left;
        }
        hash := combine(left, right);
      }
    }

    /** The root, or zero; vMatch is cleared first but vnIndex is not. */
    method ExtractMatches(vnIndex0: seq<nat>) returns (root: Hash, vMatch: seq<Hash>, vnIndex: seq<nat>)
      modifies this`fBad
      ensures var a := Answered(combine, nTransactions, vBits, vHash, old(fBad));
              root == a.root && vMatch == a.matches && vnIndex == vnIndex0 + a.indexes && fBad == a.bad
    {
      hide Extract, Height;
      vMatch, vnIndex := [], vnIndex0;
      if nTransactions == 0 { return 0, vMatch, vnIndex; }
      if nTransactions > MAX_BLOCK_WEIGHT / MIN_TRANSACTION_WEIGHT { return 0, vMatch, vnIndex; }
      if |vHash| > nTransactions { return 0, vMatch, vnIndex; }
      if |vBits| < |vHash| { return 0, vMatch, vnIndex; }
      var nHeight := TreeHeight(nTransactions);
      var nBitsUsed, nHashUsed;
      assert vBits[0..] == vBits && vHash[0..] == vHash;
      root, nBitsUsed, nHashUsed, vMatch, vnIndex := TraverseAndExtract(nHeight, 0, 0, 0, vMatch, vnIndex);
      assert |vBits[nBitsUsed..]| == |vBits| - nBitsUsed && |vHash[nHashUsed..]| == |vHash| - nHashUsed;
      if fBad { return 0, vMatch, vnIndex; }
      if (nBitsUsed + 7) / 8 != (|vBits| + 7) / 8 { return 0, vMatch, vnIndex; }
      if nHashUsed != |vHash| { return 0, vMatch, vnIndex; }
    }

    method Serialize() returns (n: nat, hashes: seq<Hash>, vBytes: seq<nat>)
      ensures n == nTransactions && hashes == vHash && vBytes == Pack(vBits)
    {
      n, hashes := nTransactions, vHash;
      vBytes := PackBits(vBits);
    }

    method Unserialize(n: nat, hashes: seq<Hash>, vBytes: seq<nat>)
      modifies this
      ensures nTransactions == n && vHash == hashes && vBits == Unpack(vBytes) && !fBad
    {
      nTransactions, vHash := n, hashes;
      vBits := UnpackBits(vBytes);
      fBad := false;
    }
  }

  lemma Children1(n: nat, h: nat, pos: nat)
    requires pos < Width(n, h)
    ensures First(h, pos) <= Last(n, h, pos) <= n && First(h, pos) < First(h, pos + 1)
  {
    hide Width;
    WidthIff(n, h, pos);
    MulAdd(Pow(2, h), pos, 1);
  }

  lemma Assoc<T>(a: seq<T>, b: seq<T>, c: seq<T>)
    ensures a + b + c == a + (b + c)
  {}

  lemma NoMatchYet(mask: seq<bool>, lo: nat)
    ensures !AnyMatch(mask, lo, lo)
  {}

  lemma AnyMatchStep(mask: seq<bool>, lo: nat, p: nat)
    requires lo < p <= |mask|
    ensures AnyMatch(mask, lo, p) <==> AnyMatch(mask, lo, p - 1) || mask[p - 1]
  {
    if AnyMatch(mask, lo, p - 1) {
      var k :| lo <= k < p - 1 && k < |mask| && mask[k];
      assert AnyMatch(mask, lo, p);
    }
  }

  /** A tree sent to a peer: what they extract is exactly the matched transactions, and the true root unless some node
      descended into has two equal children. */
  method SendAndReceive(combine: Combine, vTxid: seq<Hash>, vMatch: seq<bool>)
    returns (root: Hash, matches: seq<Hash>, at: seq<nat>)
    requires 0 < |vTxid| == |vMatch| <= MAX_BLOCK_WEIGHT / MIN_TRANSACTION_WEIGHT
    ensures root == (if Readable(combine, vTxid, vMatch) then Root(combine, vTxid) else 0)
    ensures at == Positions(vMatch, 0, |vMatch|)
    ensures |matches| == |at| && forall k :: 0 <= k < |at| ==> at[k] < |vTxid| && matches[k] == vTxid[at[k]]
  {
    hide Width, Positions, Readable, Root, Tree, Pack, Unpack;
    var sender := new PartialMerkleTree.Of(combine, vTxid, vMatch);
    var n, hashes, vBytes := sender.Serialize();
    var receiver := new PartialMerkleTree(combine);
    receiver.Unserialize(n, hashes, vBytes);
    Completeness(combine, vTxid, vMatch);
    root, matches, at := receiver.ExtractMatches([]);
  }
}
