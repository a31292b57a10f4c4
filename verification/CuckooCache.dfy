/** The cuckoo cache as an object: arrays of elements and epoch flags, and collection flags packed eight to a byte. */
module CuckooCache {
  import opened Cuckoo
  import opened Digits

  // ---------------------------------------------------------------------------------------------
  // Packed flags
  // ---------------------------------------------------------------------------------------------

  /** 1 << j. */
  function Mask(j: nat): bv8
    requires j < 8
  {
    if j == 0 then 1 else if j == 1 then 2 else if j == 2 then 4 else if j == 3 then 8
    else if j == 4 then 16 else if j == 5 then 32 else if j == 6 then 64 else 128
  }

  predicate HasBit(x: bv8, j: nat)
    requires j < 8
  {
    Mask(j) & x != 0
  }

  function WithBit(x: bv8, j: nat): bv8
    requires j < 8
  {
    x | Mask(j)
  }

  function WithoutBit(x: bv8, j: nat): bv8
    requires j < 8
  {
    x & !Mask(j)
  }

  lemma SetOne(x: bv8, j: nat, k: nat)
    requires j < 8 && k < 8
    ensures HasBit(WithBit(x, j), k) <==> k == j || HasBit(x, k)
  {}

  lemma UnsetOne(x: bv8, j: nat, k: nat)
    requires j < 8 && k < 8
    ensures HasBit(WithoutBit(x, j), k) <==> k != j && HasBit(x, k)
  {}

  lemma AllOnes(k: nat)
    requires k < 8
    ensures HasBit(0xFF, k)
  {}

  class BitPackedFlags {
    const size: nat
    const mem: array<bv8>

    ghost predicate Valid() { mem.Length == (size + 7) / 8 }

    /** The flags, one per entry. */
    ghost function Bits(): (r: seq<bool>)
      requires Valid()
      reads mem
      ensures |r| == size
    {
      seq(size, i requires 0 <= i < size reads mem => HasBit(mem[i / 8], i % 8))
    }

    constructor (n: nat)
      ensures Valid() && size == n && fresh(mem) && forall i :: 0 <= i < n ==> Bits()[i]
    {
      size := n;
      mem := new bv8[(n + 7) / 8];
      new;
      for i := 0 to mem.Length
        invariant forall k :: 0 <= k < i ==> mem[k] == 0xFF
        modifies mem
      {
        mem[i] := 0xFF;
      }
      forall i | 0 <= i < n ensures Bits()[i] { AllOnes(i % 8); }
    }

    method BitSet(s: nat)
      requires Valid() && s < size
      modifies mem
      ensures Bits() == old(Bits())[s := true]
    {
      hide HasBit, WithBit;
      mem[s / 8] := WithBit(mem[s / 8], s % 8);
      forall i | 0 <= i < size ensures Bits()[i] == old(Bits())[s := true][i] {
        if i / 8 == s / 8 { SetOne(old(mem[s / 8]), s % 8, i % 8); }
      }
    }

    method BitUnset(s: nat)
      requires Valid() && s < size
      modifies mem
      ensures Bits() == old(Bits())[s := false]
    {
      hide HasBit, WithoutBit;
      mem[s / 8] := WithoutBit(mem[s / 8], s % 8);
      forall i | 0 <= i < size ensures Bits()[i] == old(Bits())[s := false][i] {
        if i / 8 == s / 8 { UnsetOne(old(mem[s / 8]), s % 8, i % 8); }
      }
    }

    method BitIsSet(s: nat) returns (r: bool)
      requires Valid() && s < size
      ensures r == Bits()[s]
    {
      r := HasBit(mem[s / 8], s % 8);
    }
  }

  // ---------------------------------------------------------------------------------------------
  // The cache
  // ---------------------------------------------------------------------------------------------

  lemma PushNone(hash: Hashes, s: Slots, e: Element, recent: bool, lastLoc: int)
    requires Shaped(s)
    ensures Push(hash, s, e, recent, lastLoc, 0) == (s, Dropped(Entry(e, recent)))
  {}

  class Cuckoos {
    const hash: Hashes
    const size: nat
    const table: array<Element>
    const collectionFlags: BitPackedFlags
    const epochFlags: array<bool>
    var epochHeuristicCounter: nat
    const epochSize: nat
    const depthLimit: nat

    ghost predicate Shape() {
      && table.Length == epochFlags.Length == collectionFlags.size == size > 0
      && collectionFlags.Valid()
      && (table as object) != collectionFlags.mem && (epochFlags as object) != collectionFlags.mem
      && (table as object) != epochFlags
    }

    ghost function Now(): (s: Slots)
      requires Shape()
      reads table, collectionFlags.mem, epochFlags
      ensures Shaped(s) && |s.table| == size
    {
      Slots(table[..], collectionFlags.Bits(), epochFlags[..])
    }

    ghost function State(): Cache
      requires Shape()
      reads this, table, collectionFlags.mem, epochFlags
    {
      Cache(Now(), epochHeuristicCounter, epochSize, depthLimit)
    }

    ghost predicate Valid()
      reads this, table, collectionFlags.mem, epochFlags
    {
      Shape() && Inv(hash, State())
    }

    /** The cache after setup. */
    constructor (hash: Hashes, newSize: nat, depthLimit: nat)
      ensures Valid() && State() == Setup(newSize, depthLimit) && this.hash == hash
      ensures fresh(table) && fresh(collectionFlags.mem) && fresh(epochFlags)
    {
      hide Inv;
      var n := if newSize < 2 then 2 else newSize;
      this.hash, this.depthLimit, size := hash, depthLimit, n;
      table := new Element[n](_ => DEFAULT);
      var flags := new BitPackedFlags(n);
      collectionFlags := flags;
      epochFlags := new bool[n](_ => false);
      epochSize := Max(1, 45 * n % TWO32 / 100);
      epochHeuristicCounter := Max(1, 45 * n % TWO32 / 100);
      new;
      assert table[..] == Setup(newSize, depthLimit).s.table;
      assert collectionFlags.Bits() == Setup(newSize, depthLimit).s.coll;
      assert epochFlags[..] == Setup(newSize, depthLimit).s.epoch;
      SetupOk(hash, newSize, depthLimit);
    }

    /** table[loc] = e, please_keep(loc), epoch_flags[loc] = recent. */
    method Write(loc: nat, e: Element, recent: bool)
      requires Shape() && loc < size
      modifies table, collectionFlags.mem, epochFlags
      ensures Now() == Put(old(Now()), loc, e, recent)
    {
      table[loc] := e;
      collectionFlags.BitUnset(loc);
      epochFlags[loc] := recent;
      assert table[..] == old(table[..])[loc := e] && epochFlags[..] == old(epochFlags[..])[loc := recent];
    }

    method CountRecent() returns (n: nat)
      requires Shape()
      ensures n == Recent(Now(), size)
    {
      n := 0;
      for i := 0 to size
        invariant n == Recent(Now(), i)
      {
        var isSet := collectionFlags.BitIsSet(i);
        if epochFlags[i] && !isSet { n := n + 1; }
      }
    }

    method Age()
      requires Shape()
      modifies collectionFlags.mem, epochFlags
      ensures Now() == Aged(old(Now()))
    {
      ghost var s := Now();
      hide HasBit;
      for i := 0 to size
        invariant forall k :: 0 <= k < i ==>
                    epochFlags[k] == false && collectionFlags.Bits()[k] == (s.coll[k] || !s.epoch[k])
        invariant forall k :: i <= k < size ==> epochFlags[k] == s.epoch[k] && collectionFlags.Bits()[k] == s.coll[k]
      {
        if epochFlags[i] { epochFlags[i] := false; } else { collectionFlags.BitSet(i); }
      }
      assert collectionFlags.Bits() == Aged(s).coll;
      assert epochFlags[..] == Aged(s).epoch;
    }

    method EpochChecked()
      requires Shape()
      modifies this, collectionFlags.mem, epochFlags
      ensures State() == EpochCheck(old(State()))
    {
      hide Recent, Aged;
      if epochHeuristicCounter != 0 {
        epochHeuristicCounter := epochHeuristicCounter - 1;
        return;
      }
      var unused := CountRecent();
      if unused >= epochSize {
        Age();
        epochHeuristicCounter := epochSize;
      } else {
        epochHeuristicCounter := Max(1, Max(epochSize / 16, epochSize - unused));
      }
    }

    method FindElement(ls: seq<nat>, e: Element) returns (k: nat)
      requires Shape() && |ls| == 8 && forall j :: 0 <= j < 8 ==> ls[j] < size
      ensures k == Holding(Now(), ls, e, 0)
    {
      k := 0;
      while k < 8 && table[ls[k]] != e
        invariant k <= 8 && Holding(Now(), ls, e, k) == Holding(Now(), ls, e, 0)
      {
        k := k + 1;
      }
    }

    method FindFree(ls: seq<nat>) returns (k: nat)
      requires Shape() && |ls| == 8 && forall j :: 0 <= j < 8 ==> ls[j] < size
      ensures k == Free(Now(), ls, 0)
    {
      k := 0;
      while k < 8
        invariant k <= 8 && Free(Now(), ls, k) == Free(Now(), ls, 0)
      {
        var isSet := collectionFlags.BitIsSet(ls[k]);
        if isSet { return; }
        k := k + 1;
      }
    }

    /** Puts the element carried into a slot and carries what was there. */
    method Displace(loc: nat, e: Element, recent: bool) returns (e': Element, recent': bool)
      requires Shape() && loc < size
      modifies table, epochFlags
      ensures e' == old(table[loc]) && recent' == old(epochFlags[loc])
      ensures Now() == Slots(old(Now()).table[loc := e], old(Now()).coll, old(Now()).epoch[loc := recent])
    {
      e', recent' := table[loc], epochFlags[loc];
      table[loc] := e;
      epochFlags[loc] := recent;
      assert table[..] == old(table[..])[loc := e] && epochFlags[..] == old(epochFlags[..])[loc := recent];
    }

    /** One round of the displacement loop. */
    method PushOnce(e: Element, recent: bool, lastLoc: int, ghost depth: nat)
      returns (done: bool, e': Element, recent': bool, lastLoc': int)
      requires Shape() && depth > 0
      modifies table, collectionFlags.mem, epochFlags
      ensures done ==> (Now(), Placed) == Push(hash, old(Now()), e, recent, lastLoc, depth)
      ensures !done ==>
                Push(hash, old(Now()), e, recent, lastLoc, depth) == Push(hash, Now(), e', recent', lastLoc', depth - 1)
    {
      hide Locs, Next, Put;
      var locs := Locs(hash, size, e);
      var k := FindFree(locs);
      if k < 8 {
        Write(locs[k], e, recent);
        return true, e, recent, lastLoc;
      }
      lastLoc' := Next(locs, lastLoc);
      e', recent' := Displace(lastLoc', e, recent);
      done := false;
    }

    method PushAll(e0: Element) returns (ghost o: Outcome)
      requires Shape()
      modifies table, collectionFlags.mem, epochFlags
      ensures (Now(), o) == Push(hash, old(Now()), e0, true, -1, depthLimit)
    {
      hide Now, Push;
      var e, recent := e0, true;
      var lastLoc: int := -1;
      var depth := 0;
      while depth < depthLimit
        invariant depth <= depthLimit
        invariant Push(hash, Now(), e, recent, lastLoc, depthLimit - depth)
                  == Push(hash, old(Now()), e0, true, -1, depthLimit)
      {
        var done;
        done, e, recent, lastLoc := PushOnce(e, recent, lastLoc, depthLimit - depth);
        if done { return Placed; }
        depth := depth + 1;
      }
      o := Dropped(Entry(e, recent));
      PushNone(hash, Now(), e, recent, lastLoc);
    }

    method Inserted(e: Element) returns (ghost o: Outcome)
      requires Shape()
      modifies this, table, collectionFlags.mem, epochFlags
      ensures (Now(), o) == Insert(hash, EpochCheck(old(State())).s, e, depthLimit)
      ensures State() == Step(hash, old(State()), InsertOp(e))
      ensures old(Valid()) ==> Valid()
    {
      hide EpochCheck, Locs, Push, Put, Inv;
      if Valid() { StepKeeps(hash, State(), InsertOp(e)); }
      EpochChecked();
      var locs := Locs(hash, size, e);
      var k := FindElement(locs, e);
      if k < 8 {
        assert table[..][locs[k] := e] == table[..];
        Write(locs[k], e, true);
        return Kept;
      }
      o := PushAll(e);
    }

    method Contains(e: Element, erase: bool) returns (r: bool)
      requires Shape()
      modifies collectionFlags.mem
      ensures r == (Found(hash, old(Now()), e) < 8)
      ensures State() == Step(hash, old(State()), ContainsOp(e, erase))
      ensures old(Valid()) ==> Valid()
    {
      hide Inv, Locs;
      if Valid() { StepKeeps(hash, State(), ContainsOp(e, erase)); }
      var locs := Locs(hash, size, e);
      var k := FindElement(locs, e);
      if k < 8 {
        if erase { collectionFlags.BitSet(locs[k]); }
        return true;
      }
      return false;
    }
  }
}
