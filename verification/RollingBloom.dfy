/** The rolling Bloom filter of bloom.cpp: every position carries a two-bit generation label, and a generation's
    positions are wiped when its label comes round again. */
module RollingBloom {
  import opened Digits
  import opened Limbs

  type Key = seq<nat>

  /** What is fixed between two resets: the hash functions, how many there are, the tweak, the number of word pairs,
      and the size of a generation. */
  datatype Params = Params(hash: (nat, nat, Key) -> nat, nHashFuncs: nat, nTweak: nat, pairs: nat, perGen: nat)

  /** x * n >> 32. */
  function FastMod(x: nat, n: nat): nat { x * n / TWO32 }

  lemma FastModBelow(x: nat, n: nat)
    requires x < TWO32 && n > 0
    ensures FastMod(x, n) < n
  {
    MulMono(0, x, n);
    MulMono(x + 1, TWO32, n);
    MulAdd(n, x, 1);
    QuotientBelow(x * n, n, TWO32);
  }

  function HashOf(q: Params, k: nat, key: Key): nat { q.hash(k, q.nTweak, key) % TWO32 }

  /** The position a hash falls on: a word pair, and a bit of it. */
  function Position(q: Params, key: Key, k: nat): (p: nat)
    requires q.pairs > 0
    ensures p < 64 * q.pairs
  {
    FastModBelow(HashOf(q, k, key), 2 * q.pairs);
    FastMod(HashOf(q, k, key), 2 * q.pairs) / 2 * 64 + HashOf(q, k, key) % 64
  }

  datatype Filter = Filter(labels: seq<nat>, thisGen: nat, gen: nat)

  function Reset(q: Params): Filter { Filter(seq(64 * q.pairs, _ => 0), 0, 1) }

  function Wiped(labels: seq<nat>, gen: nat): seq<nat> {
    seq(|labels|, i requires 0 <= i < |labels| => if labels[i] == gen then 0 else labels[i])
  }

  function NextGen(gen: nat): nat { if gen == 3 then 1 else gen + 1 }

  function Rolled(q: Params, f: Filter): Filter {
    if f.thisGen == q.perGen then Filter(Wiped(f.labels, NextGen(f.gen)), 0, NextGen(f.gen)) else f
  }

  /** The labels once the first n hashes of a key are marked. */
  function Marked(q: Params, labels: seq<nat>, gen: nat, key: Key, n: nat): (r: seq<nat>)
    requires q.pairs > 0 && |labels| == 64 * q.pairs
    ensures |r| == |labels|
  {
    if n == 0 then labels else Marked(q, labels, gen, key, n - 1)[Position(q, key, n - 1) := gen]
  }

  function Insert(q: Params, f: Filter, key: Key): Filter
    requires q.pairs > 0 && |f.labels| == 64 * q.pairs
  {
    var g := Rolled(q, f);
    Filter(Marked(q, g.labels, g.gen, key, q.nHashFuncs), g.thisGen + 1, g.gen)
  }

  predicate Contains(q: Params, f: Filter, key: Key)
    requires q.pairs > 0 && |f.labels| == 64 * q.pairs
  {
    forall k :: 0 <= k < q.nHashFuncs ==> f.labels[Position(q, key, k)] != 0
  }

  /** The filter after a sequence of insertions since reset. */
  function After(q: Params, keys: seq<Key>): (f: Filter)
    requires q.pairs > 0
    ensures |f.labels| == 64 * q.pairs
  {
    if keys == [] then Reset(q) else Insert(q, After(q, keys[..|keys| - 1]), keys[|keys| - 1])
  }

  // ---------------------------------------------------------------------------------------------
  // Eras: generations counted without wrapping
  // ---------------------------------------------------------------------------------------------

  /** The current era, the era each key was inserted in, and the era in which each position was last marked. */
  datatype Eras = Eras(now: int, ofKey: seq<int>, last: seq<int>)

  function LabelOf(era: int): nat { if era < 0 then 0 else era % 3 + 1 }

  /** Labels tell the last three eras apart, and everything older is blank. */
  ghost predicate LabelsOk(f: Filter, t: Eras) {
    && t.now >= 0 && f.gen == LabelOf(t.now) && |t.last| == |f.labels|
    && forall p :: 0 <= p < |f.labels| ==>
         t.last[p] <= t.now && f.labels[p] == if t.last[p] >= t.now - 2 then LabelOf(t.last[p]) else 0
  }

  ghost predicate KeysOk(q: Params, keys: seq<Key>, t: Eras)
    requires q.pairs > 0 && |t.last| == 64 * q.pairs && |t.ofKey| == |keys|
  {
    forall i :: 0 <= i < |keys| ==> KeyOk(q, keys[i], t.ofKey[i], t.last)
  }

  /** No position of the key was last marked before the key's era. */
  ghost predicate KeyOk(q: Params, key: Key, era: int, last: seq<int>)
    requires q.pairs > 0 && |last| == 64 * q.pairs
  {
    0 <= era && forall k :: 0 <= k < q.nHashFuncs ==> era <= last[Position(q, key, k)]
  }

  /** The keys of this generation belong to the current era, and the two generations before them to the two eras
      before it. */
  ghost predicate WindowsOk(q: Params, f: Filter, t: Eras) {
    var n := |t.ofKey|;
    && (forall i :: 0 <= i < n && i >= n - f.thisGen ==> t.ofKey[i] == t.now)
    && (forall i :: 0 <= i < n && i >= n - f.thisGen - q.perGen ==> t.ofKey[i] >= t.now - 1)
    && (forall i :: 0 <= i < n && i >= n - f.thisGen - 2 * q.perGen ==> t.ofKey[i] >= t.now - 2)
  }

  ghost predicate Inv(q: Params, keys: seq<Key>, f: Filter, t: Eras) {
    && q.pairs > 0 && |f.labels| == 64 * q.pairs && |t.ofKey| == |keys|
    && LabelsOk(f, t) && KeysOk(q, keys, t) && WindowsOk(q, f, t)
  }

  ghost function RolledEras(q: Params, f: Filter, t: Eras): Eras {
    if f.thisGen == q.perGen then t.(now := t.now + 1) else t
  }

  ghost function MarkedLast(q: Params, last: seq<int>, now: int, key: Key, n: nat): (r: seq<int>)
    requires q.pairs > 0 && |last| == 64 * q.pairs
    ensures |r| == |last|
  {
    if n == 0 then last else MarkedLast(q, last, now, key, n - 1)[Position(q, key, n - 1) := now]
  }

  /** Wiping a label forgets exactly the era three before the new one. */
  lemma RolledOk(q: Params, f: Filter, t: Eras)
    requires LabelsOk(f, t)
    ensures LabelsOk(Rolled(q, f), RolledEras(q, f, t))
  {
    var g, u := Rolled(q, f), RolledEras(q, f, t);
    if f.thisGen == q.perGen {
      forall p | 0 <= p < |g.labels|
        ensures u.last[p] <= u.now && g.labels[p] == if u.last[p] >= u.now - 2 then LabelOf(u.last[p]) else 0
      {
        assert t.last[p] <= t.now && f.labels[p] == if t.last[p] >= t.now - 2 then LabelOf(t.last[p]) else 0;
      }
    }
  }

  lemma {:induction false} MarkedOk(q: Params, labels: seq<nat>, last: seq<int>, now: int, key: Key, n: nat)
    requires q.pairs > 0 && |labels| == |last| == 64 * q.pairs && now >= 0
    requires LabelsOk(Filter(labels, 0, LabelOf(now)), Eras(now, [], last))
    ensures LabelsOk(Filter(Marked(q, labels, LabelOf(now), key, n), 0, LabelOf(now)),
                     Eras(now, [], MarkedLast(q, last, now, key, n)))
    ensures forall k :: 0 <= k < n ==> MarkedLast(q, last, now, key, n)[Position(q, key, k)] == now
    ensures forall p :: 0 <= p < |last| ==> MarkedLast(q, last, now, key, n)[p] >= last[p]
  {
    hide Position;
    if n > 0 { MarkedOk(q, labels, last, now, key, n - 1); }
  }

  ghost function NextEras(q: Params, f: Filter, t: Eras, key: Key): Eras
    requires q.pairs > 0 && |t.last| == 64 * q.pairs
  {
    var u := RolledEras(q, f, t);
    Eras(u.now, u.ofKey + [u.now], MarkedLast(q, u.last, u.now, key, q.nHashFuncs))
  }

  lemma InsertKeeps(q: Params, keys: seq<Key>, f: Filter, t: Eras, key: Key)
    requires Inv(q, keys, f, t)
    ensures Inv(q, keys + [key], Insert(q, f, key), NextEras(q, f, t, key))
  {
    hide Position, Marked, MarkedLast, LabelOf;
    var g, u, t' := Rolled(q, f), RolledEras(q, f, t), NextEras(q, f, t, key);
    RolledOk(q, f, t);
    assert LabelsOk(Filter(g.labels, 0, g.gen), Eras(u.now, [], u.last));
    MarkedOk(q, g.labels, u.last, u.now, key, q.nHashFuncs);
    KeysKept(q, keys, t, u.now, t'.last, key);
    WindowsKept(q, f, t, Insert(q, f, key).labels, t'.last);
  }

  lemma KeysKept(q: Params, keys: seq<Key>, t: Eras, now: int, last: seq<int>, key: Key)
    requires q.pairs > 0 && |t.last| == |last| == 64 * q.pairs && |t.ofKey| == |keys| && KeysOk(q, keys, t) && now >= 0
    requires forall p :: 0 <= p < |last| ==> last[p] >= t.last[p]
    requires forall k :: 0 <= k < q.nHashFuncs ==> last[Position(q, key, k)] == now
    ensures KeysOk(q, keys + [key], Eras(now, t.ofKey + [now], last))
  {
    hide Position;
    var keys', of := keys + [key], t.ofKey + [now];
    forall i | 0 <= i < |keys'| ensures KeyOk(q, keys'[i], of[i], last) {
      if i < |keys| { assert KeyOk(q, keys[i], t.ofKey[i], t.last); }
    }
  }

  lemma WindowsKept(q: Params, f: Filter, t: Eras, labels: seq<nat>, last: seq<int>)
    requires WindowsOk(q, f, t)
    ensures var g, u := Rolled(q, f), RolledEras(q, f, t);
            WindowsOk(q, Filter(labels, g.thisGen + 1, g.gen), Eras(u.now, u.ofKey + [u.now], last))
  {}

  ghost function ErasOf(q: Params, keys: seq<Key>): (t: Eras)
    requires q.pairs > 0
    ensures |t.last| == 64 * q.pairs
  {
    if keys == [] then Eras(0, [], seq(64 * q.pairs, _ => -3))
    else
      var before := keys[..|keys| - 1];
      NextEras(q, After(q, before), ErasOf(q, before), keys[|keys| - 1])
  }

  lemma {:induction false} AfterOk(q: Params, keys: seq<Key>)
    requires q.pairs > 0
    ensures Inv(q, keys, After(q, keys), ErasOf(q, keys))
  {
    hide Position, Insert, NextEras, Inv;
    if keys == [] {
      FreshOk(q);
    } else {
      var before, key := keys[..|keys| - 1], keys[|keys| - 1];
      AfterOk(q, before);
      InsertKeeps(q, before, After(q, before), ErasOf(q, before), key);
      assert keys == before + [key];
    }
  }

  lemma FreshOk(q: Params)
    requires q.pairs > 0
    ensures Inv(q, [], Reset(q), Eras(0, [], seq(64 * q.pairs, _ => -3)))
  {}

  /** However many keys were inserted since reset, the last two full generations and the current one are contained. */
  lemma Retains(q: Params, keys: seq<Key>, i: nat)
    requires q.pairs > 0 && i < |keys| && i >= |keys| - After(q, keys).thisGen - 2 * q.perGen
    ensures Contains(q, After(q, keys), keys[i])
  {
    hide Position, After;
    AfterOk(q, keys);
    var f, t := After(q, keys), ErasOf(q, keys);
    assert t.ofKey[i] >= t.now - 2;
    assert KeyOk(q, keys[i], t.ofKey[i], t.last);
    forall k | 0 <= k < q.nHashFuncs ensures f.labels[Position(q, keys[i], k)] != 0 {
      assert t.ofKey[i] <= t.last[Position(q, keys[i], k)];
    }
  }

  /** The size of a generation: half of nElements rounded up, computed in 32 bits. */
  function PerGeneration(nElements: nat): nat { (nElements + 1) % TWO32 / 2 }

  /** With generations of size zero only the first insertion starts a new one. */
  lemma {:induction false} OneGeneration(q: Params, keys: seq<Key>)
    requires q.pairs > 0 && q.perGen == 0
    ensures After(q, keys).thisGen == |keys|
  {
    hide Marked;
    if keys != [] { OneGeneration(q, keys[..|keys| - 1]); }
  }

  /** In particular the last nElements keys, even for the one number that wraps around to generations of size zero. */
  lemma RetainsLast(q: Params, keys: seq<Key>, nElements: nat, i: nat)
    requires q.pairs > 0 && nElements < TWO32 && q.perGen == PerGeneration(nElements)
    requires |keys| - nElements <= i < |keys|
    ensures Contains(q, After(q, keys), keys[i])
  {
    hide Contains, After;
    if q.perGen == 0 { OneGeneration(q, keys); }
    Retains(q, keys, i);
  }

  // ---------------------------------------------------------------------------------------------
  // The code, on 64-bit words given by their bits
  // ---------------------------------------------------------------------------------------------

  type Word = w: seq<bool> | |w| == 64 witness seq(64, _ => false)

  function Ones(b: bool): Word { seq(64, _ => b) }

  function And(x: Word, y: Word): Word { seq(64, i requires 0 <= i < 64 => x[i] && y[i]) }

  function Or64(x: Word, y: Word): Word { seq(64, i requires 0 <= i < 64 => x[i] || y[i]) }

  function Xor(x: Word, y: Word): Word { seq(64, i requires 0 <= i < 64 => x[i] != y[i]) }

  function Not(x: Word): Word { seq(64, i requires 0 <= i < 64 => !x[i]) }

  /** b << bit, for a single bit b. */
  function Shifted(b: bool, bit: nat): Word { seq(64, i requires 0 <= i < 64 => b && i == bit) }

  function Label(w1: Word, w2: Word, bit: nat): nat
    requires bit < 64
  {
    (if w1[bit] then 1 else 0) + (if w2[bit] then 2 else 0)
  }

  /** Replaces one bit of a word. */
  function WithBit(w: Word, bit: nat, b: bool): Word { Or64(And(w, Not(Shifted(true, bit))), Shifted(b, bit)) }

  /** Wiping keeps every label but the one of the generation. */
  lemma WipePair(p1: Word, p2: Word, gen: nat, bit: nat)
    requires 1 <= gen <= 3 && bit < 64
    ensures var mask := Or64(Xor(p1, Ones(gen % 2 == 1)), Xor(p2, Ones(gen / 2 == 1)));
            Label(And(p1, mask), And(p2, mask), bit) == if Label(p1, p2, bit) == gen then 0 else Label(p1, p2, bit)
  {}

  lemma MarkPair(p1: Word, p2: Word, gen: nat, at: nat, bit: nat)
    requires 1 <= gen <= 3 && bit < 64 && at < 64
    ensures Label(WithBit(p1, at, gen % 2 == 1), WithBit(p2, at, gen / 2 == 1), bit) == if bit == at then gen
            else Label(p1, p2, bit)
  {}

  class RollingBloomFilter {
    const hash: (nat, nat, Key) -> nat
    const nHashFuncs: nat
    const nEntriesPerGeneration: nat
    const data: array<Word>
    var nEntriesThisGeneration: nat
    var nGeneration: nat
    var nTweak: nat

    ghost predicate Shape() { data.Length % 2 == 0 && data.Length > 0 }

    ghost predicate Valid()
      reads this
    {
      Shape() && 1 <= nGeneration <= 3
    }

    ghost function Q(): (q: Params)
      requires Valid()
      reads this
      ensures q.pairs > 0 && 2 * q.pairs == data.Length
    {
      Params(hash, nHashFuncs, nTweak, data.Length / 2, nEntriesPerGeneration)
    }

    ghost function Labels(): (r: seq<nat>)
      requires Shape()
      reads data
      ensures |r| == 64 * (data.Length / 2)
    {
      seq(64 * (data.Length / 2), p requires 0 <= p < 64 * (data.Length / 2) reads data =>
        Label(data[p / 64 * 2], data[p / 64 * 2 + 1], p % 64))
    }

    ghost function F(): (f: Filter)
      requires Valid()
      reads this, data
      ensures |f.labels| == 64 * Q().pairs
    {
      Filter(Labels(), nEntriesThisGeneration, nGeneration)
    }

    /** The sizes that the source derives in floating point are parameters. */
    constructor (hash: (nat, nat, Key) -> nat, nHashFuncs: nat, nElements: nat, pairs: nat, tweak: nat)
      requires pairs > 0
      ensures Valid() && fresh(data) && F() == Reset(Q())
      ensures Q() == Params(hash, nHashFuncs, tweak, pairs, PerGeneration(nElements))
    {
      this.hash, this.nHashFuncs := hash, nHashFuncs;
      nEntriesPerGeneration := PerGeneration(nElements);
      data := new Word[2 * pairs](_ => Ones(false));
      nEntriesThisGeneration, nGeneration, nTweak := 0, 1, tweak;
      new;
      ResetTo(tweak);
    }

    method ResetTo(tweak: nat)
      requires Valid()
      modifies this, data
      ensures Valid() && F() == Reset(Q()) && nTweak == tweak
    {
      nTweak, nEntriesThisGeneration, nGeneration := tweak, 0, 1;
      for i := 0 to data.Length
        invariant forall j :: 0 <= j < i ==> data[j] == Ones(false)
        modifies data
      {
        data[i] := Ones(false);
      }
      forall p | 0 <= p < |Labels()| ensures Labels()[p] == 0 {}
    }

    method Wipe(gen: nat)
      requires Valid() && 1 <= gen <= 3
      modifies data
      ensures Labels() == Wiped(old(Labels()), gen)
    {
      hide Label, And, Xor, Or64, Ones;
      var mask1, mask2 := Ones(gen % 2 == 1), Ones(gen / 2 == 1);
      var p := 0;
      while p < data.Length
        invariant 0 <= p <= data.Length && p % 2 == 0
        invariant forall k :: 0 <= k < |Labels()| ==>
                    Labels()[k] == if k / 64 * 2 < p && old(Labels())[k] == gen then 0 else old(Labels())[k]
        invariant forall j :: p <= j < data.Length ==> data[j] == old(data[j])
      {
        var p1, p2 := data[p], data[p + 1];
        var mask := Or64(Xor(p1, mask1), Xor(p2, mask2));
        ghost var before := Labels();
        data[p] := And(p1, mask);
        data[p + 1] := And(p2, mask);
        forall k | 0 <= k < |Labels()|
          ensures Labels()[k] == if k / 64 * 2 < p + 2 && old(Labels())[k] == gen then 0 else old(Labels())[k]
        {
          assert Labels()[k] == Label(data[k / 64 * 2], data[k / 64 * 2 + 1], k % 64);
          if k / 64 * 2 == p { WipePair(p1, p2, gen, k % 64); } else { assert Labels()[k] == before[k]; }
        }
        p := p + 2;
      }
    }

    method Mark(pair: nat, bit: nat)
      requires Valid() && 2 * pair < data.Length && bit < 64
      modifies data
      ensures Labels() == old(Labels())[pair * 64 + bit := nGeneration]
    {
      hide Label, WithBit;
      var p1, p2 := data[2 * pair], data[2 * pair + 1];
      data[2 * pair] := WithBit(p1, bit, nGeneration % 2 == 1);
      data[2 * pair + 1] := WithBit(p2, bit, nGeneration / 2 == 1);
      forall k | 0 <= k < |Labels()| ensures Labels()[k] == old(Labels())[pair * 64 + bit := nGeneration][k] {
        assert Labels()[k] == Label(data[k / 64 * 2], data[k / 64 * 2 + 1], k % 64);
        if k / 64 == pair {
          MarkPair(p1, p2, nGeneration, bit, k % 64);
          assert k == pair * 64 + k % 64;
        }
      }
    }

    method Roll()
      requires Valid()
      modifies this, data
      ensures Valid() && F() == Rolled(Q(), old(F())) && Q() == old(Q())
    {
      hide Labels, Wiped;
      if nEntriesThisGeneration == nEntriesPerGeneration {
        nEntriesThisGeneration := 0;
        nGeneration := nGeneration + 1;
        if nGeneration == 4 { nGeneration := 1; }
        Wipe(nGeneration);
      }
    }

    /** The word pair and the bit of a hash of the key. */
    method Locate(key: Key, n: nat) returns (pair: nat, bit: nat)
      requires Valid()
      ensures 2 * pair < data.Length && bit < 64 && pair * 64 + bit == Position(Q(), key, n)
    {
      var h := hash(n, nTweak, key) % TWO32;
      bit := h % 64;
      FastModBelow(h, data.Length);
      var pos := FastMod(h, data.Length);
      pair := pos / 2;
    }

    method Inserted(key: Key)
      requires Valid()
      modifies this, data
      ensures Valid() && F() == Insert(Q(), old(F()), key) && Q() == old(Q())
    {
      hide Labels, Rolled, Position;
      Roll();
      nEntriesThisGeneration := nEntriesThisGeneration + 1;
      ghost var labels := Labels();
      for n := 0 to nHashFuncs
        invariant Labels() == Marked(Q(), labels, nGeneration, key, n)
        modifies data
      {
        var pair, bit := Locate(key, n);
        Mark(pair, bit);
      }
    }

    lemma LabelAt(pair: nat, bit: nat)
      requires Valid() && 2 * pair < data.Length && bit < 64
      ensures pair * 64 + bit < |Labels()|
      ensures Labels()[pair * 64 + bit] == 0 <==> !Or64(data[2 * pair], data[2 * pair + 1])[bit]
    {
      var p := pair * 64 + bit;
      assert p / 64 == pair && p % 64 == bit;
    }

    method Has(key: Key) returns (r: bool)
      requires Valid()
      ensures r == Contains(Q(), F(), key)
    {
      hide Labels, Position, Or64;
      for n := 0 to nHashFuncs
        invariant forall k :: 0 <= k < n ==> Labels()[Position(Q(), key, k)] != 0
      {
        var pair, bit := Locate(key, n);
        LabelAt(pair, bit);
        if !Or64(data[2 * pair], data[2 * pair + 1])[bit] { return false; }
      }
      return true;
    }
  }
}
