/** The cuckoo cache of cuckoocache.h: a table in which every element has eight possible slots, with a flag per slot
    that lets it be overwritten and a flag for the current epoch. */
module Cuckoo {
  import opened Digits
  import opened Limbs

  type Element = nat

  const DEFAULT: Element := 0

  /** The eight hashes of an element, each a 32-bit number. */
  type Hashes = (nat, Element) -> nat

  /** The slots and their flags; `coll` marks what may be overwritten. */
  datatype Slots = Slots(table: seq<Element>, coll: seq<bool>, epoch: seq<bool>)

  ghost predicate Shaped(s: Slots) { |s.table| == |s.coll| == |s.epoch| > 0 }

  /** One of the eight slots of an element: a 32-bit hash scaled down to the table. */
  function Loc(hash: Hashes, size: nat, e: Element, k: nat): nat { (hash(k, e) % TWO32) * size / TWO32 }

  lemma LocInRange(hash: Hashes, size: nat, e: Element, k: nat)
    requires size > 0
    ensures Loc(hash, size, e, k) < size
  {
    var h := hash(k, e) % TWO32;
    MulMono(0, h, size);
    MulMono(h + 1, TWO32, size);
    MulAdd(size, h, 1);
    QuotientBelow(h * size, size, TWO32);
  }

  function Locs(hash: Hashes, size: nat, e: Element): (ls: seq<nat>)
    requires size > 0
    ensures |ls| == 8 && forall k :: 0 <= k < 8 ==> ls[k] < size
  {
    forall k: nat ensures Loc(hash, size, e, k) < size { LocInRange(hash, size, e, k); }
    [Loc(hash, size, e, 0), Loc(hash, size, e, 1), Loc(hash, size, e, 2), Loc(hash, size, e, 3),
     Loc(hash, size, e, 4), Loc(hash, size, e, 5), Loc(hash, size, e, 6), Loc(hash, size, e, 7)]
  }

  predicate Live(s: Slots, i: nat) { i < |s.coll| && !s.coll[i] }

  /** Every slot that may not be overwritten holds an element at one of its own eight places. */
  ghost predicate OwnPlaces(hash: Hashes, s: Slots)
    requires Shaped(s)
  {
    forall i :: 0 <= i < |s.table| && Live(s, i) ==> i in Locs(hash, |s.table|, s.table[i])
  }

  // ---------------------------------------------------------------------------------------------
  // What is in the cache
  // ---------------------------------------------------------------------------------------------

  /** An element and whether it belongs to the current epoch. */
  datatype Entry = Entry(e: Element, recent: bool)

  ghost function SlotEntry(s: Slots, i: nat): multiset<Entry>
    requires Shaped(s) && i < |s.table|
  {
    if s.coll[i] then multiset{} else multiset{Entry(s.table[i], s.epoch[i])}
  }

  /** The live entries among the first n slots. */
  ghost function Entries(s: Slots, n: nat): multiset<Entry>
    requires Shaped(s) && n <= |s.table|
  {
    if n == 0 then multiset{} else Entries(s, n - 1) + SlotEntry(s, n - 1)
  }

  ghost function Contents(s: Slots): multiset<Entry>
    requires Shaped(s)
  {
    Entries(s, |s.table|)
  }

  function Unit(b: bool): nat { if b then 1 else 0 }

  /** The number of live entries of the current epoch among the first n slots. */
  function Recent(s: Slots, n: nat): nat
    requires |s.coll| == |s.epoch| >= n
  {
    if n == 0 then 0 else Recent(s, n - 1) + Unit(s.epoch[n - 1] && !s.coll[n - 1])
  }

  function Put(s: Slots, i: nat, e: Element, recent: bool): Slots
    requires i < |s.table| == |s.coll| == |s.epoch|
  {
    Slots(s.table[i := e], s.coll[i := false], s.epoch[i := recent])
  }

  lemma Alongside(a: multiset<Entry>, a': multiset<Entry>, x: multiset<Entry>, y: multiset<Entry>, z: multiset<Entry>)
    requires a' + x == a + y
    ensures (a' + z) + x == (a + z) + y
  {
    assert (a' + z) + x == (a' + x) + z;
    assert (a + z) + y == (a + y) + z;
  }

  /** Writing one slot exchanges its entry and no other. */
  lemma {:induction false} PutEntries(s: Slots, i: nat, e: Element, recent: bool, n: nat)
    requires Shaped(s) && i < |s.table| && n <= |s.table|
    ensures i >= n ==> Entries(Put(s, i, e, recent), n) == Entries(s, n)
    ensures i < n ==> Entries(Put(s, i, e, recent), n) + SlotEntry(s, i) == Entries(s, n) + multiset{Entry(e, recent)}
  {
    hide SlotEntry, Entries;
    var s' := Put(s, i, e, recent);
    EntriesStep(s, n);
    EntriesStep(s', n);
    if n > 0 {
      PutEntries(s, i, e, recent, n - 1);
      PutSlot(s, i, e, recent, n - 1);
      if i == n - 1 {
        assert Entries(s, i) + multiset{Entry(e, recent)} + SlotEntry(s, i)
               == Entries(s, i) + SlotEntry(s, i) + multiset{Entry(e, recent)};
      } else if i < n - 1 {
        Alongside(Entries(s, n - 1), Entries(s', n - 1), SlotEntry(s, i), multiset{Entry(e, recent)},
                  SlotEntry(s, n - 1));
      }
    }
  }

  lemma EntriesStep(s: Slots, n: nat)
    requires Shaped(s) && n <= |s.table|
    ensures Entries(s, n) == if n == 0 then multiset{} else Entries(s, n - 1) + SlotEntry(s, n - 1)
  {}

  lemma PutSlot(s: Slots, i: nat, e: Element, recent: bool, j: nat)
    requires Shaped(s) && i < |s.table| && j < |s.table|
    ensures SlotEntry(Put(s, i, e, recent), j) == if j == i then multiset{Entry(e, recent)} else SlotEntry(s, j)
  {}

  lemma {:induction false} PutRecent(s: Slots, i: nat, e: Element, recent: bool, n: nat)
    requires Shaped(s) && i < |s.table| && n <= |s.table|
    ensures i >= n ==> Recent(Put(s, i, e, recent), n) == Recent(s, n)
    ensures i < n ==> Recent(Put(s, i, e, recent), n) + Unit(s.epoch[i] && !s.coll[i]) == Recent(s, n) + Unit(recent)
  {
    if n > 0 { PutRecent(s, i, e, recent, n - 1); }
  }

  lemma PutContents(s: Slots, i: nat, e: Element, recent: bool)
    requires Shaped(s) && i < |s.table|
    ensures Shaped(Put(s, i, e, recent))
    ensures Contents(Put(s, i, e, recent)) + SlotEntry(s, i) == Contents(s) + multiset{Entry(e, recent)}
    ensures Recent(Put(s, i, e, recent), |s.table|) + Unit(s.epoch[i] && !s.coll[i])
            == Recent(s, |s.table|) + Unit(recent)
  {
    PutEntries(s, i, e, recent, |s.table|);
    PutRecent(s, i, e, recent, |s.table|);
  }

  lemma PutPlaces(hash: Hashes, s: Slots, i: nat, e: Element, recent: bool)
    requires Shaped(s) && OwnPlaces(hash, s) && i in Locs(hash, |s.table|, e) && i < |s.table|
    ensures OwnPlaces(hash, Put(s, i, e, recent))
  {
    hide Locs;
    var s' := Put(s, i, e, recent);
    forall j | 0 <= j < |s'.table| && Live(s', j) ensures j in Locs(hash, |s'.table|, s'.table[j]) {
      if j != i { assert Live(s, j); }
    }
  }

  // ---------------------------------------------------------------------------------------------
  // Inserting
  // ---------------------------------------------------------------------------------------------

  /** The first of the slots from the k-th on that holds e, or that is free; 8 if there is none. */
  function Holding(s: Slots, ls: seq<nat>, e: Element, k: nat): (r: nat)
    requires |ls| == 8 && k <= 8 && forall j :: 0 <= j < 8 ==> ls[j] < |s.table|
    ensures k <= r <= 8 && (r < 8 ==> s.table[ls[r]] == e)
    ensures forall j :: k <= j < r ==> s.table[ls[j]] != e
    decreases 8 - k
  {
    if k == 8 || s.table[ls[k]] == e then k else Holding(s, ls, e, k + 1)
  }

  function Free(s: Slots, ls: seq<nat>, k: nat): (r: nat)
    requires |ls| == 8 && k <= 8 && forall j :: 0 <= j < 8 ==> ls[j] < |s.coll|
    ensures k <= r <= 8 && (r < 8 ==> s.coll[ls[r]])
    ensures forall j :: k <= j < r ==> !s.coll[ls[j]]
    decreases 8 - k
  {
    if k == 8 || s.coll[ls[k]] then k else Free(s, ls, k + 1)
  }

  function IndexOf(ls: seq<nat>, x: int, k: nat): (r: nat)
    requires |ls| == 8 && k <= 8
    ensures k <= r <= 8
    decreases 8 - k
  {
    if k == 8 || ls[k] == x then k else IndexOf(ls, x, k + 1)
  }

  /** The slot to displace: the one after the slot looked at last.  With no such slot std::find yields 8, so the first
      displacement is at the second slot. */
  function Next(ls: seq<nat>, lastLoc: int): (r: nat)
    requires |ls| == 8
    ensures r in ls
  {
    ls[(1 + IndexOf(ls, lastLoc, 0)) % 8]
  }

  datatype Outcome = Kept | Placed | Dropped(lost: Entry)

  /** The displacement loop. */
  function Push(hash: Hashes, s: Slots, e: Element, recent: bool, lastLoc: int, depth: nat): (Slots, Outcome)
    requires Shaped(s)
    decreases depth
  {
    if depth == 0 then (s, Dropped(Entry(e, recent)))
    else
      var ls := Locs(hash, |s.table|, e);
      var k := Free(s, ls, 0);
      if k < 8 then (Put(s, ls[k], e, recent), Placed)
      else
        var loc := Next(ls, lastLoc);
        Push(hash, Slots(s.table[loc := e], s.coll, s.epoch[loc := recent]), s.table[loc], s.epoch[loc], loc, depth - 1)
  }

  function Insert(hash: Hashes, s: Slots, e: Element, depthLimit: nat): (Slots, Outcome)
    requires Shaped(s)
  {
    var ls := Locs(hash, |s.table|, e);
    var k := Holding(s, ls, e, 0);
    if k < 8 then (Put(s, ls[k], e, true), Kept) else Push(hash, s, e, true, -1, depthLimit)
  }

  ghost function Lost(o: Outcome): multiset<Entry> { if o.Dropped? then multiset{o.lost} else multiset{} }

  ghost predicate Pushed(hash: Hashes, s: Slots, e: Element, recent: bool, r: (Slots, Outcome))
    requires Shaped(s)
  {
    && Shaped(r.0) && |r.0.table| == |s.table| && OwnPlaces(hash, r.0)
    && Contents(r.0) + Lost(r.1) == Contents(s) + multiset{Entry(e, recent)}
    && Recent(r.0, |s.table|) + Unit(r.1.Dropped? && r.1.lost.recent) == Recent(s, |s.table|) + Unit(recent)
    && !r.1.Kept?
  }

  /** Displacement loses at most the entry it is left holding. */
  lemma {:induction false} PushKeeps(hash: Hashes, s: Slots, e: Element, recent: bool, lastLoc: int, depth: nat)
    requires Shaped(s) && OwnPlaces(hash, s)
    ensures Pushed(hash, s, e, recent, Push(hash, s, e, recent, lastLoc, depth))
    decreases depth
  {
    hide OwnPlaces, Locs, Entries, Contents, Recent, Next, SlotEntry;
    if depth > 0 {
      var ls := Locs(hash, |s.table|, e);
      var k := Free(s, ls, 0);
      if k < 8 {
        PlaceFree(hash, s, ls[k], e, recent);
      } else {
        var loc := Next(ls, lastLoc);
        assert !s.coll[loc];
        var s' := Slots(s.table[loc := e], s.coll, s.epoch[loc := recent]);
        Displace(hash, s, loc, e, recent, s');
        PushKeeps(hash, s', s.table[loc], s.epoch[loc], loc, depth - 1);
        PushChain(hash, s, s', e, recent, s.table[loc], s.epoch[loc],
                  Push(hash, s', s.table[loc], s.epoch[loc], loc, depth - 1));
      }
    }
  }

  lemma PlaceFree(hash: Hashes, s: Slots, loc: nat, e: Element, recent: bool)
    requires Shaped(s) && OwnPlaces(hash, s) && loc < |s.table| && loc in Locs(hash, |s.table|, e) && s.coll[loc]
    ensures Pushed(hash, s, e, recent, (Put(s, loc, e, recent), Placed))
  {
    hide OwnPlaces, Locs, Entries, Contents, Recent;
    PutContents(s, loc, e, recent);
    PutPlaces(hash, s, loc, e, recent);
    assert Contents(Put(s, loc, e, recent)) + multiset{} == Contents(Put(s, loc, e, recent));
  }

  lemma Displace(hash: Hashes, s: Slots, loc: nat, e: Element, recent: bool, s': Slots)
    requires Shaped(s) && OwnPlaces(hash, s) && loc < |s.table| && loc in Locs(hash, |s.table|, e) && !s.coll[loc]
    requires s' == Slots(s.table[loc := e], s.coll, s.epoch[loc := recent])
    ensures Shaped(s') && OwnPlaces(hash, s')
    ensures Contents(s') + multiset{Entry(s.table[loc], s.epoch[loc])} == Contents(s) + multiset{Entry(e, recent)}
    ensures Recent(s', |s.table|) + Unit(s.epoch[loc]) == Recent(s, |s.table|) + Unit(recent)
  {
    hide OwnPlaces, Locs, Entries, Contents, Recent;
    assert s.coll == s.coll[loc := false];
    assert s' == Put(s, loc, e, recent);
    PutContents(s, loc, e, recent);
    PutPlaces(hash, s, loc, e, recent);
  }

  lemma PushChain(hash: Hashes, s: Slots, s': Slots, e: Element, recent: bool, e': Element, recent': bool,
                  r: (Slots, Outcome))
    requires Shaped(s) && Shaped(s') && |s'.table| == |s.table| && Pushed(hash, s', e', recent', r)
    requires Contents(s') + multiset{Entry(e', recent')} == Contents(s) + multiset{Entry(e, recent)}
    requires Recent(s', |s.table|) + Unit(recent') == Recent(s, |s.table|) + Unit(recent)
    ensures Pushed(hash, s, e, recent, r)
  {
    hide OwnPlaces, Contents, Recent;
  }

  // ---------------------------------------------------------------------------------------------
  // Epochs
  // ---------------------------------------------------------------------------------------------

  /** The next epoch: old entries may be overwritten, and recent ones become old. */
  function Aged(s: Slots): Slots
    requires |s.coll| == |s.epoch|
  {
    Slots(s.table, seq(|s.coll|, i requires 0 <= i < |s.coll| => s.coll[i] || !s.epoch[i]), seq(|s.epoch|, _ => false))
  }

  /** Ageing keeps exactly the live entries of the current epoch, and counts none of them as recent. */
  lemma AgedKeeps(hash: Hashes, s: Slots)
    requires Shaped(s) && OwnPlaces(hash, s)
    ensures Shaped(Aged(s)) && |Aged(s).table| == |s.table| && OwnPlaces(hash, Aged(s))
    ensures Recent(Aged(s), |s.table|) == 0
    ensures forall i :: 0 <= i < |s.table| ==> (Live(Aged(s), i) <==> Live(s, i) && s.epoch[i])
  {
    hide Locs;
    var s' := Aged(s);
    forall i | 0 <= i < |s.table| ensures Live(s', i) <==> Live(s, i) && s.epoch[i] {}
    NoneRecent(s', |s.table|);
  }

  lemma {:induction false} NoneRecent(s: Slots, n: nat)
    requires Shaped(s) && n <= |s.table| && forall i :: 0 <= i < |s.epoch| ==> !s.epoch[i]
    ensures Recent(s, n) == 0
  {
    if n > 0 { NoneRecent(s, n - 1); }
  }

  datatype Cache = Cache(s: Slots, counter: nat, epochSize: nat, depthLimit: nat)

  function Max(a: int, b: int): int { if a < b then b else a }

  /** setup: the arithmetic on the size is modulo 2^32. */
  function Setup(newSize: nat, depthLimit: nat): Cache {
    var size := Max(2, newSize);
    var epochSize := Max(1, 45 * size % TWO32 / 100);
    Cache(Slots(seq(size, _ => DEFAULT), seq(size, _ => true), seq(size, _ => false)), epochSize, epochSize, depthLimit)
  }

  function EpochCheck(c: Cache): Cache
    requires Shaped(c.s)
  {
    if c.counter != 0 then c.(counter := c.counter - 1)
    else
      var n := Recent(c.s, |c.s.table|);
      if n >= c.epochSize then c.(s := Aged(c.s), counter := c.epochSize)
      else c.(counter := Max(1, Max(c.epochSize / 16, c.epochSize - n)))
  }

  /** How many entries of the current epoch there may be. */
  function Bound(epochSize: nat): nat { epochSize + Max(1, epochSize / 16) }

  ghost predicate Inv(hash: Hashes, c: Cache) {
    && Shaped(c.s) && c.epochSize >= 1 && OwnPlaces(hash, c.s)
    && Recent(c.s, |c.s.table|) + c.counter <= Bound(c.epochSize)
  }

  /** Before an insertion the count and the heuristic counter leave room for one more. */
  lemma EpochCheckKeeps(hash: Hashes, c: Cache)
    requires Inv(hash, c)
    ensures var c' := EpochCheck(c);
            && Shaped(c'.s) && OwnPlaces(hash, c'.s) && |c'.s.table| == |c.s.table|
            && c'.epochSize == c.epochSize && c'.depthLimit == c.depthLimit
            && Recent(c'.s, |c'.s.table|) + c'.counter + 1 <= Bound(c'.epochSize)
            && (c'.s == c.s || c'.s == Aged(c.s))
  {
    hide OwnPlaces, Recent;
    AgedKeeps(hash, c.s);
  }

  datatype Op = InsertOp(e: Element) | ContainsOp(e: Element, erase: bool)

  /** contains: looks at the eight slots, whatever their flags. */
  function Found(hash: Hashes, s: Slots, e: Element): nat
    requires Shaped(s)
  {
    Holding(s, Locs(hash, |s.table|, e), e, 0)
  }

  function Erased(s: Slots, i: nat): Slots
    requires i < |s.coll|
  {
    s.(coll := s.coll[i := true])
  }

  function Step(hash: Hashes, c: Cache, op: Op): Cache
    requires Shaped(c.s)
  {
    match op
    case InsertOp(e) =>
      var c' := EpochCheck(c);
      c'.(s := Insert(hash, c'.s, e, c.depthLimit).0)
    case ContainsOp(e, erase) =>
      var k := Found(hash, c.s, e);
      if k < 8 && erase then c.(s := Erased(c.s, Locs(hash, |c.s.table|, e)[k])) else c
  }

  lemma {:induction false} ErasedRecent(s: Slots, i: nat, n: nat)
    requires Shaped(s) && i < |s.table| && n <= |s.table|
    ensures Recent(Erased(s, i), n) <= Recent(s, n)
  {
    if n > 0 { ErasedRecent(s, i, n - 1); }
  }

  lemma ErasedKeeps(hash: Hashes, s: Slots, i: nat)
    requires Shaped(s) && OwnPlaces(hash, s) && i < |s.table|
    ensures Shaped(Erased(s, i)) && OwnPlaces(hash, Erased(s, i))
            && Recent(Erased(s, i), |s.table|) <= Recent(s, |s.table|)
  {
    hide Locs;
    ErasedRecent(s, i, |s.table|);
    var s' := Erased(s, i);
    forall j | 0 <= j < |s'.table| && Live(s', j)
      ensures j in Locs(hash, |s'.table|, s'.table[j])
    {
      assert Live(s, j);
    }
  }

  /** insert adds the new entry to what epoch_check left, and loses at most one entry; an element that is already in
      one of its slots is marked as recent and kept there. */
  lemma InsertKeeps(hash: Hashes, s: Slots, e: Element, depthLimit: nat)
    requires Shaped(s) && OwnPlaces(hash, s)
    ensures var r := Insert(hash, s, e, depthLimit);
            && Shaped(r.0) && |r.0.table| == |s.table| && OwnPlaces(hash, r.0)
            && Recent(r.0, |s.table|) <= Recent(s, |s.table|) + 1
            && (!r.1.Kept? ==> Contents(r.0) + Lost(r.1) == Contents(s) + multiset{Entry(e, true)})
            && (r.1.Kept? ==> exists i: nat :: i < |s.table| && s.table[i] == e
                                  && Contents(r.0) + SlotEntry(s, i) == Contents(s) + multiset{Entry(e, true)})
  {
    hide OwnPlaces, Locs, Recent, Contents, Push;
    var ls := Locs(hash, |s.table|, e);
    var k := Holding(s, ls, e, 0);
    if k < 8 {
      PutContents(s, ls[k], e, true);
      PutPlaces(hash, s, ls[k], e, true);
    } else {
      PushKeeps(hash, s, e, true, -1, depthLimit);
    }
  }

  lemma StepKeeps(hash: Hashes, c: Cache, op: Op)
    requires Inv(hash, c)
    ensures Inv(hash, Step(hash, c, op)) && |Step(hash, c, op).s.table| == |c.s.table|
  {
    hide OwnPlaces, Locs, Recent, Contents, Insert, EpochCheck;
    match op
    case InsertOp(e) =>
      EpochCheckKeeps(hash, c);
      InsertKeeps(hash, EpochCheck(c).s, e, c.depthLimit);
    case ContainsOp(e, erase) =>
      var k := Found(hash, c.s, e);
      if k < 8 { ErasedKeeps(hash, c.s, Locs(hash, |c.s.table|, e)[k]); }
  }

  ghost function Run(hash: Hashes, c: Cache, ops: seq<Op>): Cache
    requires Inv(hash, c)
    decreases |ops|
  {
    if ops == [] then c
    else
      StepKeeps(hash, c, ops[0]);
      Run(hash, Step(hash, c, ops[0]), ops[1..])
  }

  /** In every run from setup each live slot holds an element at one of its own places, and there are never more live
      entries of the current epoch than the bound. */
  lemma {:induction false} RunKeeps(hash: Hashes, c: Cache, ops: seq<Op>)
    requires Inv(hash, c)
    ensures Inv(hash, Run(hash, c, ops))
    ensures Recent(Run(hash, c, ops).s, |Run(hash, c, ops).s.table|) <= Bound(Run(hash, c, ops).epochSize)
    ensures Run(hash, c, ops).epochSize == c.epochSize
    decreases |ops|
  {
    hide OwnPlaces, Recent, Insert;
    if ops != [] {
      StepKeeps(hash, c, ops[0]);
      RunKeeps(hash, Step(hash, c, ops[0]), ops[1..]);
    }
  }

  lemma SetupOk(hash: Hashes, newSize: nat, depthLimit: nat)
    ensures Inv(hash, Setup(newSize, depthLimit))
  {
    var c := Setup(newSize, depthLimit);
    NoneRecent(c.s, |c.s.table|);
  }

  /** A live element is found, and marking it as erasable does not hide it. */
  lemma LiveIsFound(hash: Hashes, c: Cache, i: nat)
    requires Inv(hash, c) && i < |c.s.table| && Live(c.s, i)
    ensures Found(hash, c.s, c.s.table[i]) < 8
    ensures var c' := Step(hash, c, ContainsOp(c.s.table[i], true)); Shaped(c'.s) && Found(hash, c'.s, c.s.table[i]) < 8
  {
    hide Recent;
    var ls := Locs(hash, |c.s.table|, c.s.table[i]);
    assert i in ls;
    var k :| 0 <= k < 8 && ls[k] == i;
  }

  lemma {:induction false} EntrySomewhere(s: Slots, n: nat, x: Entry) returns (i: nat)
    requires Shaped(s) && n <= |s.table| && x in Entries(s, n)
    ensures i < n && Live(s, i) && s.table[i] == x.e
  {
    hide Entries;
    EntriesStep(s, n);
    if x in SlotEntry(s, n - 1) { i := n - 1; } else { i := EntrySomewhere(s, n - 1, x); }
  }

  /** An element is found right after its insertion, also once it was marked as erasable, unless it is itself the one
      that displacement was left holding. */
  lemma InsertedIsFound(hash: Hashes, c: Cache, e: Element)
    requires Inv(hash, c) && Insert(hash, EpochCheck(c).s, e, c.depthLimit).1 != Dropped(Entry(e, true))
    ensures var c' := Step(hash, c, InsertOp(e)); Shaped(c'.s) && Found(hash, c'.s, e) < 8
    ensures var c'' := Step(hash, Step(hash, c, InsertOp(e)), ContainsOp(e, true));
            Shaped(c''.s) && Found(hash, c''.s, e) < 8
  {
    hide OwnPlaces, Recent, Push, EpochCheck, Entries;
    EpochCheckKeeps(hash, c);
    var s := EpochCheck(c).s;
    var r := Insert(hash, s, e, c.depthLimit);
    InsertKeeps(hash, s, e, c.depthLimit);
    StepKeeps(hash, c, InsertOp(e));
    var c' := Step(hash, c, InsertOp(e));
    assert c'.s == r.0;
    if !r.1.Kept? {
      assert Entry(e, true) in Contents(r.0) + Lost(r.1);
      var i := EntrySomewhere(r.0, |r.0.table|, Entry(e, true));
      LiveIsFound(hash, c', i);
    } else {
      KeptIsFound(hash, s, e, c.depthLimit);
    }
  }

  lemma KeptIsFound(hash: Hashes, s: Slots, e: Element, depthLimit: nat)
    requires Shaped(s) && Insert(hash, s, e, depthLimit).1.Kept?
    ensures var s' := Insert(hash, s, e, depthLimit).0; Shaped(s') && Found(hash, s', e) < 8
    ensures var s' := Insert(hash, s, e, depthLimit).0;
            var i := Locs(hash, |s'.table|, e)[Found(hash, s', e)]; i < |s'.table| && Found(hash, Erased(s', i), e) < 8
  {
    hide Push, Locs;
    var ls := Locs(hash, |s.table|, e);
    var k := Holding(s, ls, e, 0);
    if k >= 8 { PushOutcome(hash, s, e, true, -1, depthLimit); }
  }

  lemma {:induction false} PushOutcome(hash: Hashes, s: Slots, e: Element, recent: bool, lastLoc: int, depth: nat)
    requires Shaped(s)
    ensures !Push(hash, s, e, recent, lastLoc, depth).1.Kept?
    decreases depth
  {
    hide Locs, Next, Free, Put;
    if depth > 0 {
      var loc := Next(Locs(hash, |s.table|, e), lastLoc);
      PushOutcome(hash, Slots(s.table[loc := e], s.coll, s.epoch[loc := recent]), s.table[loc], s.epoch[loc], loc,
                  depth - 1);
    }
  }

  /** An own place that holds the element or may be overwritten: what a caller can look at before inserting. */
  ghost predicate HasRoom(hash: Hashes, c: Cache, e: Element)
    requires Shaped(c.s)
  {
    var ls := Locs(hash, |c.s.table|, e);
    exists k :: 0 <= k < 8 && (c.s.table[ls[k]] == e || (c.s.coll[ls[k]] && c.depthLimit > 0))
  }

  /** An element that has room is found right after its insertion. */
  lemma RoomIsFound(hash: Hashes, c: Cache, e: Element)
    requires Inv(hash, c) && HasRoom(hash, c, e)
    ensures var c' := Step(hash, c, InsertOp(e)); Shaped(c'.s) && Found(hash, c'.s, e) < 8
    ensures var c'' := Step(hash, Step(hash, c, InsertOp(e)), ContainsOp(e, true));
            Shaped(c''.s) && Found(hash, c''.s, e) < 8
  {
    hide OwnPlaces, Recent, Locs, EpochCheck, Step, Inv;
    InvShaped(hash, c);
    EpochCheckTable(c);
    var s := EpochCheck(c).s;
    var ls := Locs(hash, |s.table|, e);
    var k :| 0 <= k < 8 && (s.table[ls[k]] == e || (s.coll[ls[k]] && c.depthLimit > 0));
    InsertedIsFound(hash, c, e);
  }

  lemma InvShaped(hash: Hashes, c: Cache)
    requires Inv(hash, c)
    ensures Shaped(c.s)
  {}

  /** An epoch check leaves the elements where they are and takes back no permission to overwrite. */
  lemma EpochCheckTable(c: Cache)
    requires Shaped(c.s)
    ensures var s := EpochCheck(c).s;
            Shaped(s) && s.table == c.s.table && forall i :: 0 <= i < |s.coll| && c.s.coll[i] ==> s.coll[i]
  {
    hide Recent;
  }

  ghost predicate OnlyFrom(s: Slots, es: set<Element>) { forall i :: 0 <= i < |s.table| ==> s.table[i] in es }

  lemma {:induction false} PushOnly(hash: Hashes, s: Slots, e: Element, recent: bool, lastLoc: int, depth: nat,
                                    es: set<Element>)
    requires Shaped(s) && OnlyFrom(s, es) && e in es
    ensures OnlyFrom(Push(hash, s, e, recent, lastLoc, depth).0, es)
    decreases depth
  {
    hide Locs, Next, Free;
    if depth > 0 {
      var loc := Next(Locs(hash, |s.table|, e), lastLoc);
      PushOnly(hash, Slots(s.table[loc := e], s.coll, s.epoch[loc := recent]), s.table[loc], s.epoch[loc], loc,
               depth - 1, es);
    }
  }

  lemma StepOnly(hash: Hashes, c: Cache, op: Op, es: set<Element>)
    requires Inv(hash, c) && OnlyFrom(c.s, es) && (op.InsertOp? ==> op.e in es)
    ensures OnlyFrom(Step(hash, c, op).s, es)
  {
    hide OwnPlaces, Recent, Locs, EpochCheck, Push, Inv;
    InvShaped(hash, c);
    EpochCheckTable(c);
    if op.InsertOp? { PushOnly(hash, EpochCheck(c).s, op.e, true, -1, c.depthLimit, es); }
  }

  function Inserted(ops: seq<Op>): set<Element> {
    set i | 0 <= i < |ops| && ops[i].InsertOp? :: ops[i].e
  }

  lemma {:induction false} RunOnly(hash: Hashes, c: Cache, ops: seq<Op>, es: set<Element>)
    requires Inv(hash, c) && OnlyFrom(c.s, es) && Inserted(ops) <= es
    ensures OnlyFrom(Run(hash, c, ops).s, es)
    decreases |ops|
  {
    hide Inv, Step;
    if ops != [] {
      if ops[0].InsertOp? { assert ops[0].e in Inserted(ops); }
      forall e | e in Inserted(ops[1..]) ensures e in es {
        var i :| 0 <= i < |ops[1..]| && ops[1..][i].InsertOp? && ops[1..][i].e == e;
        assert ops[i + 1].e in Inserted(ops);
      }
      InvShaped(hash, c);
      StepKeeps(hash, c, ops[0]);
      StepOnly(hash, c, ops[0], es);
      RunOnly(hash, Step(hash, c, ops[0]), ops[1..], es);
    }
  }

  /** The cache after setup and a run of operations. */
  ghost function FromSetup(hash: Hashes, newSize: nat, depthLimit: nat, ops: seq<Op>): (c: Cache)
    ensures Inv(hash, c)
  {
    SetupOk(hash, newSize, depthLimit);
    RunKeeps(hash, Setup(newSize, depthLimit), ops);
    Run(hash, Setup(newSize, depthLimit), ops)
  }

  /** Whatever contains reports was inserted before, or is the default element every slot starts with. */
  lemma FoundWasInserted(hash: Hashes, newSize: nat, depthLimit: nat, ops: seq<Op>, e: Element)
    requires Found(hash, FromSetup(hash, newSize, depthLimit, ops).s, e) < 8
    ensures e == DEFAULT || InsertOp(e) in ops
  {
    hide Inv, Run, Locs;
    var c := FromSetup(hash, newSize, depthLimit, ops);
    InvShaped(hash, c);
    SetupOk(hash, newSize, depthLimit);
    RunOnly(hash, Setup(newSize, depthLimit), ops, Inserted(ops) + {DEFAULT});
    assert c.s.table[Locs(hash, |c.s.table|, e)[Found(hash, c.s, e)]] == e;
    if e != DEFAULT {
      var i :| 0 <= i < |ops| && ops[i].InsertOp? && ops[i].e == e;
      assert ops[i] == InsertOp(e);
    }
  }

  // ---------------------------------------------------------------------------------------------
  // No element is in two slots
  // ---------------------------------------------------------------------------------------------

  /** An element other than the default one is in at most one slot, whatever the flags, and that is one of its own
      places. */
  ghost predicate Tidy(hash: Hashes, s: Slots)
    requires Shaped(s)
  {
    && (forall i, j :: 0 <= i < j < |s.table| && s.table[i] == s.table[j] ==> s.table[i] == DEFAULT)
    && (forall i :: 0 <= i < |s.table| && s.table[i] != DEFAULT ==> i in Locs(hash, |s.table|, s.table[i]))
  }

  ghost predicate Absent(s: Slots, e: Element) { e == DEFAULT || e !in s.table }

  /** An element that is in none of its places is nowhere. */
  lemma NowhereElse(hash: Hashes, s: Slots, e: Element)
    requires Shaped(s) && Tidy(hash, s) && Found(hash, s, e) == 8
    ensures Absent(s, e)
  {
    hide Locs;
  }

  /** An absent element that takes one of its places drives out the one that was there. */
  lemma PutTidy(hash: Hashes, s: Slots, i: nat, e: Element, recent: bool)
    requires Shaped(s) && Tidy(hash, s) && Absent(s, e) && i < |s.table| && i in Locs(hash, |s.table|, e)
    ensures Tidy(hash, Put(s, i, e, recent)) && Absent(Put(s, i, e, recent), s.table[i])
  {
    hide Locs;
    var s' := Put(s, i, e, recent);
    forall j | 0 <= j < |s'.table| && s'.table[j] != DEFAULT ensures j in Locs(hash, |s'.table|, s'.table[j]) {
      if j != i { assert s'.table[j] == s.table[j]; }
    }
    forall j, k | 0 <= j < k < |s'.table| && s'.table[j] == s'.table[k] ensures s'.table[j] == DEFAULT {
      if j == i { assert s.table[k] in s.table; } else if k == i { assert s.table[j] in s.table; }
    }
    if s.table[i] != DEFAULT {
      forall j | 0 <= j < |s'.table| ensures s'.table[j] != s.table[i] {
        if j == i { assert s.table[i] in s.table; }
      }
    }
  }

  /** The displacement loop never holds an element that is in the table as well. */
  lemma {:induction false} PushTidy(hash: Hashes, s: Slots, e: Element, recent: bool, lastLoc: int, depth: nat)
    requires Shaped(s) && Tidy(hash, s) && Absent(s, e)
    ensures var r := Push(hash, s, e, recent, lastLoc, depth);
            && Shaped(r.0) && |r.0.table| == |s.table| && Tidy(hash, r.0)
            && (r.1.Dropped? ==> Absent(r.0, r.1.lost.e))
    decreases depth
  {
    hide Locs, Next, Tidy, Absent;
    if depth > 0 {
      var ls := Locs(hash, |s.table|, e);
      var k := Free(s, ls, 0);
      if k < 8 {
        PutTidy(hash, s, ls[k], e, recent);
      } else {
        var loc := Next(ls, lastLoc);
        assert !s.coll[loc];
        var s' := Slots(s.table[loc := e], s.coll, s.epoch[loc := recent]);
        assert s.coll == s.coll[loc := false];
        assert s' == Put(s, loc, e, recent);
        PutTidy(hash, s, loc, e, recent);
        PushTidy(hash, s', s.table[loc], s.epoch[loc], loc, depth - 1);
      }
    }
  }

  lemma SameTableTidy(hash: Hashes, s: Slots, s': Slots)
    requires Shaped(s) && Shaped(s') && s'.table == s.table && Tidy(hash, s)
    ensures Tidy(hash, s')
  {}

  lemma InsertTidy(hash: Hashes, s: Slots, e: Element, depthLimit: nat)
    requires Shaped(s) && Tidy(hash, s)
    ensures var r := Insert(hash, s, e, depthLimit);
            && Shaped(r.0) && |r.0.table| == |s.table| && Tidy(hash, r.0)
            && (r.1.Dropped? ==> Absent(r.0, r.1.lost.e)) && (r.1.Kept? ==> r.0.table == s.table)
  {
    hide Locs, Tidy, Absent, Push;
    var k := Holding(s, Locs(hash, |s.table|, e), e, 0);
    if k < 8 {
      assert Insert(hash, s, e, depthLimit).0.table == s.table;
      SameTableTidy(hash, s, Insert(hash, s, e, depthLimit).0);
    } else {
      NowhereElse(hash, s, e);
      PushTidy(hash, s, e, true, -1, depthLimit);
      PushOutcome(hash, s, e, true, -1, depthLimit);
    }
  }

  lemma StepTidy(hash: Hashes, c: Cache, op: Op)
    requires Shaped(c.s) && Tidy(hash, c.s)
    ensures var c' := Step(hash, c, op); Shaped(c'.s) && Tidy(hash, c'.s)
  {
    hide Locs, Tidy, Insert, EpochCheck;
    EpochCheckTable(c);
    match op
    case InsertOp(e) =>
      SameTableTidy(hash, c.s, EpochCheck(c).s);
      InsertTidy(hash, EpochCheck(c).s, e, c.depthLimit);
    case ContainsOp(e, erase) => SameTableTidy(hash, c.s, Step(hash, c, op).s);
  }

  lemma {:induction false} RunTidy(hash: Hashes, c: Cache, ops: seq<Op>)
    requires Inv(hash, c) && Shaped(c.s) && Tidy(hash, c.s)
    ensures var c' := Run(hash, c, ops); Shaped(c'.s) && Tidy(hash, c'.s)
    decreases |ops|
  {
    hide Inv, Step, Tidy;
    if ops != [] {
      StepKeeps(hash, c, ops[0]);
      StepTidy(hash, c, ops[0]);
      RunTidy(hash, Step(hash, c, ops[0]), ops[1..]);
    }
  }

  /** After setup and any run, no element but the default one is in two slots. */
  lemma NoDuplicates(hash: Hashes, newSize: nat, depthLimit: nat, ops: seq<Op>)
    ensures var c := FromSetup(hash, newSize, depthLimit, ops); Shaped(c.s) && Tidy(hash, c.s)
  {
    hide Inv, Run, Locs;
    SetupOk(hash, newSize, depthLimit);
    InvShaped(hash, Setup(newSize, depthLimit));
    RunTidy(hash, Setup(newSize, depthLimit), ops);
  }

  /** An element is found right after its insertion if and only if displacement was not left holding it. */
  lemma InsertedIsFoundIff(hash: Hashes, c: Cache, e: Element)
    requires Inv(hash, c) && Shaped(c.s) && Tidy(hash, c.s) && e != DEFAULT
    ensures var c' := Step(hash, c, InsertOp(e));
            Shaped(c'.s)
            && (Found(hash, c'.s, e) < 8
                <==> Insert(hash, EpochCheck(c).s, e, c.depthLimit).1 != Dropped(Entry(e, true)))
  {
    hide Inv, OwnPlaces, Recent, Locs, EpochCheck, Insert, Tidy;
    EpochCheckTable(c);
    var s := EpochCheck(c).s;
    SameTableTidy(hash, c.s, s);
    InsertTidy(hash, s, e, c.depthLimit);
    var r := Insert(hash, s, e, c.depthLimit);
    if r.1 == Dropped(Entry(e, true)) {
      AbsentNotFound(hash, r.0, e);
    } else {
      InsertedIsFound(hash, c, e);
    }
  }

  lemma AbsentNotFound(hash: Hashes, s: Slots, e: Element)
    requires Shaped(s) && Absent(s, e) && e != DEFAULT
    ensures Found(hash, s, e) == 8
  {
    hide Locs;
  }

  /** The elements, other than the default one, that may not be overwritten. */
  ghost function LiveElements(s: Slots): set<Element>
    requires Shaped(s)
  {
    set i | 0 <= i < |s.table| && Live(s, i) && s.table[i] != DEFAULT :: s.table[i]
  }

  lemma {:induction false} EntryIn(s: Slots, n: nat, i: nat)
    requires Shaped(s) && i < n <= |s.table| && Live(s, i)
    ensures Entry(s.table[i], s.epoch[i]) in Entries(s, n)
    decreases n
  {
    hide Entries;
    EntriesStep(s, n);
    if i < n - 1 { EntryIn(s, n - 1, i); }
  }

  ghost function LostElement(o: Outcome): set<Element> { if o.Dropped? then {o.lost.e} else {} }

  /** insert as an operation on sets: the live elements become those and the new one, without the one that
      displacement is left holding. */
  lemma InsertedSet(hash: Hashes, s: Slots, e: Element, depthLimit: nat)
    requires Shaped(s) && OwnPlaces(hash, s) && Tidy(hash, s) && e != DEFAULT
    ensures var r := Insert(hash, s, e, depthLimit);
            Shaped(r.0) && LiveElements(r.0) == LiveElements(s) + {e} - LostElement(r.1)
  {
    hide OwnPlaces, Tidy, Insert, Locs, Recent, Entries, LiveElements;
    InsertKeeps(hash, s, e, depthLimit);
    InsertTidy(hash, s, e, depthLimit);
    var r := Insert(hash, s, e, depthLimit);
    forall x ensures x in LiveElements(r.0) <==> x in LiveElements(s) + {e} - LostElement(r.1) {
      if r.1.Kept? { KeptSet(hash, s, e, depthLimit, x); } else { InsertedOne(s, e, r, x); }
    }
  }

  lemma LiveIs(s: Slots, x: Element)
    requires Shaped(s)
    ensures x in LiveElements(s) <==> x != DEFAULT && exists recent :: Entry(x, recent) in Contents(s)
  {
    hide Entries;
    if x in LiveElements(s) {
      var i :| 0 <= i < |s.table| && Live(s, i) && s.table[i] == x;
      EntryIn(s, |s.table|, i);
    }
    if recent :| x != DEFAULT && Entry(x, recent) in Contents(s) {
      var i := EntrySomewhere(s, |s.table|, Entry(x, recent));
    }
  }

  lemma InsertedOne(s: Slots, e: Element, r: (Slots, Outcome), x: Element)
    requires Shaped(s) && Shaped(r.0) && e != DEFAULT && !r.1.Kept?
    requires Contents(r.0) + Lost(r.1) == Contents(s) + multiset{Entry(e, true)}
    requires r.1.Dropped? ==> Absent(r.0, r.1.lost.e)
    ensures x in LiveElements(r.0) <==> x in LiveElements(s) + {e} - LostElement(r.1)
  {
    hide Contents, LiveElements;
    LiveIs(s, x);
    LiveIs(r.0, x);
    if r.1.Dropped? { AbsentNotLive(r.0, r.1.lost.e); }
    forall recent ensures Entry(x, recent) in Contents(r.0) + Lost(r.1)
                          <==> Entry(x, recent) in Contents(s) || Entry(x, recent) == Entry(e, true) {}
  }

  lemma AbsentNotLive(s: Slots, e: Element)
    requires Shaped(s) && Absent(s, e)
    ensures e !in LiveElements(s)
  {}

  lemma KeptSet(hash: Hashes, s: Slots, e: Element, depthLimit: nat, x: Element)
    requires Shaped(s) && e != DEFAULT && Insert(hash, s, e, depthLimit).1.Kept?
    ensures var s' := Insert(hash, s, e, depthLimit).0;
            Shaped(s') && (x in LiveElements(s') <==> x in LiveElements(s) + {e})
  {
    hide Locs, Push;
    var ls := Locs(hash, |s.table|, e);
    var k := Holding(s, ls, e, 0);
    if k >= 8 { PushOutcome(hash, s, e, true, -1, depthLimit); }
    var s' := Put(s, ls[k], e, true);
    if x in LiveElements(s) {
      var i :| 0 <= i < |s.table| && Live(s, i) && s.table[i] == x;
      assert Live(s', i) && s'.table[i] == x;
    }
    if x == e { assert Live(s', ls[k]) && s'.table[ls[k]] == e; }
    if x in LiveElements(s') && x != e {
      var i :| 0 <= i < |s'.table| && Live(s', i) && s'.table[i] == x;
      assert Live(s, i) && s.table[i] == x;
    }
  }
}
