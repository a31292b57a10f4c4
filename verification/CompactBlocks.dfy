/** Compact blocks (blockencodings.cpp, blockencodings.h), as in BIP 152: a block sent as short transaction ids, to be
    put together again from transactions the receiver has. */
module CompactBlocks {
  import opened Digits
  import opened Options
  import opened BlockRequest

  const MAX_COUNT: nat := 4000000 / 40

  datatype Tx = Tx(hash: nat, witnessHash: nat, isNull: bool)

  /** A slot of the block: a transaction, or none yet. */
  type Slots = seq<Option<Tx>>

  /** A prefilled transaction, with the number of transactions between it and the prefilled one before. */
  datatype Prefilled = Prefilled(index: nat, tx: Tx)

  datatype CompactBlock = CompactBlock(header: Option<nat>, shortIds: seq<nat>, prefilled: seq<Prefilled>)

  function Count(c: CompactBlock): nat { |c.shortIds| + |c.prefilled| }

  datatype Status = OK | INVALID | FAILED | CHECKBLOCK_FAILED

  // ---------------------------------------------------------------------------------------------
  // Prefilled transactions and gaps
  // ---------------------------------------------------------------------------------------------

  /** The position of the i-th prefilled transaction. */
  function Position(ps: seq<Prefilled>, i: int): int
    requires -1 <= i < |ps|
  {
    if i == -1 then -1 else Position(ps, i - 1) + ps[i].index + 1
  }

  predicate PrefilledOk(c: CompactBlock, i: nat)
    requires i < |c.prefilled|
  {
    var p := Position(c.prefilled, i);
    !c.prefilled[i].tx.isNull && p <= MAX16 && p <= |c.shortIds| + i
  }

  predicate AllPrefilledOk(c: CompactBlock, n: nat)
    requires n <= |c.prefilled|
  {
    forall i :: 0 <= i < n ==> PrefilledOk(c, i)
  }

  /** The slots once the first n prefilled transactions are in. */
  ghost predicate Placed(c: CompactBlock, n: nat, slots: Slots)
    requires n <= |c.prefilled|
  {
    && |slots| == Count(c)
    && (forall i :: 0 <= i < n ==>
        0 <= Position(c.prefilled, i) < |slots| && slots[Position(c.prefilled, i)] == Some(c.prefilled[i].tx))
    && (forall p :: 0 <= p < |slots| && slots[p].Some? ==> p <= Position(c.prefilled, n - 1))
    && |Gaps(slots, |slots|)| == |slots| - n
  }

  /** The empty slots among the first n, in order. */
  function Gaps(slots: Slots, n: nat): (r: seq<nat>)
    requires n <= |slots|
    ensures |r| <= n && forall k :: 0 <= k < |r| ==> r[k] < n && slots[r[k]].None?
  {
    if n == 0 then [] else Gaps(slots, n - 1) + if slots[n - 1].None? then [n - 1] else []
  }

  lemma {:induction false} GapsMono(slots: Slots, m: nat, n: nat)
    requires m <= n <= |slots|
    ensures Gaps(slots, m) <= Gaps(slots, n)
    decreases n
  {
    if m < n { GapsMono(slots, m, n - 1); }
  }

  lemma {:induction false} GapsAll(slots: Slots, n: nat, p: nat)
    requires p < n <= |slots| && slots[p].None?
    ensures p in Gaps(slots, n)
    decreases n
  {
    if p < n - 1 { GapsAll(slots, n - 1, p); }
  }

  lemma {:induction false} GapsIncrease(slots: Slots, n: nat)
    requires n <= |slots|
    ensures forall i, j :: 0 <= i < j < |Gaps(slots, n)| ==> Gaps(slots, n)[i] < Gaps(slots, n)[j]
  {
    if n > 0 { GapsIncrease(slots, n - 1); }
  }

  /** Filling an empty slot takes one gap away. */
  lemma {:induction false} GapsFill(slots: Slots, p: nat, tx: Tx, n: nat)
    requires p < |slots| && slots[p].None? && n <= |slots|
    ensures |Gaps(slots[p := Some(tx)], n)| == |Gaps(slots, n)| - if p < n then 1 else 0
  {
    if n > 0 { GapsFill(slots, p, tx, n - 1); }
  }

  lemma {:induction false} PositionRises(ps: seq<Prefilled>, i: int, j: int)
    requires -1 <= i < j < |ps|
    ensures Position(ps, i) < Position(ps, j)
  {
    if i < j - 1 { PositionRises(ps, i, j - 1); }
  }

  lemma {:induction false} EmptyGaps(slots: Slots, n: nat)
    requires n <= |slots| && forall p :: 0 <= p < |slots| ==> slots[p].None?
    ensures |Gaps(slots, n)| == n
  {
    if n > 0 { EmptyGaps(slots, n - 1); }
  }

  lemma PlaceNext(c: CompactBlock, n: nat, slots: Slots)
    requires n < |c.prefilled| && Placed(c, n, slots) && PrefilledOk(c, n)
    ensures 0 <= Position(c.prefilled, n) < |slots| && slots[Position(c.prefilled, n)].None?
    ensures Placed(c, n + 1, slots[Position(c.prefilled, n) := Some(c.prefilled[n].tx)])
  {
    hide Gaps;
    var p := Position(c.prefilled, n);
    PositionRises(c.prefilled, n - 1, n);
    PositionRises(c.prefilled, -1, n);
    var slots' := slots[p := Some(c.prefilled[n].tx)];
    GapsFill(slots, p, c.prefilled[n].tx, |slots|);
    forall i | 0 <= i < n + 1
      ensures 0 <= Position(c.prefilled, i) < |slots'| && slots'[Position(c.prefilled, i)] == Some(c.prefilled[i].tx)
    {
      if i < n { PositionRises(c.prefilled, i, n); }
    }
  }

  /** Puts the prefilled transactions into an empty block; refuses a null transaction or a position out of reach. */
  method PlacePrefilled(c: CompactBlock) returns (ok: bool, slots: Slots)
    ensures ok == AllPrefilledOk(c, |c.prefilled|)
    ensures ok ==> Placed(c, |c.prefilled|, slots)
  {
    hide Gaps, PrefilledOk;
    slots := seq(Count(c), _ => None);
    EmptyGaps(slots, |slots|);
    var last := -1;
    for i := 0 to |c.prefilled|
      invariant last == Position(c.prefilled, i - 1) && Placed(c, i, slots) && AllPrefilledOk(c, i)
    {
      var good := CheckPrefilled(c, i, last);
      if !good { return false, slots; }
      PlaceNext(c, i, slots);
      last := last + c.prefilled[i].index + 1;
      slots := slots[last := Some(c.prefilled[i].tx)];
    }
    ok := true;
  }

  method CheckPrefilled(c: CompactBlock, i: nat, last: int) returns (good: bool)
    requires i < |c.prefilled| && last == Position(c.prefilled, i - 1)
    ensures good == PrefilledOk(c, i)
  {
    if c.prefilled[i].tx.isNull { return false; }
    var index := last + c.prefilled[i].index + 1;
    if index > MAX16 { return false; }
    if index > |c.shortIds| + i { return false; }
    good := true;
  }

  // ---------------------------------------------------------------------------------------------
  // Short ids and their slots
  // ---------------------------------------------------------------------------------------------

  /** The slot of every short id among the first n; slots are kept in 16 bits. */
  ghost predicate MapOk(ids: seq<nat>, gaps: seq<nat>, n: nat, m: map<nat, nat>)
    requires n <= |ids| && n <= |gaps|
  {
    && (forall i :: 0 <= i < n ==> ids[i] in m)
    && (forall id :: id in m ==> exists i :: 0 <= i < n && ids[i] == id && m[id] == gaps[i] % TWO16)
  }

  predicate DistinctIds(ids: seq<nat>) { forall i, j :: 0 <= i < j < |ids| ==> ids[i] != ids[j] }

  /** The map after n short ids: it has lost none exactly when they are distinct. */
  ghost predicate MapState(ids: seq<nat>, gaps: seq<nat>, n: nat, m: map<nat, nat>)
    requires n <= |ids| && n <= |gaps|
  {
    MapOk(ids, gaps, n, m) && |m| <= n && (|m| == n <==> DistinctIds(ids[..n]))
  }

  /** The next empty slot from a position on. */
  method NextGap(slots: Slots, start: nat, ghost i: nat) returns (pos: nat)
    requires start <= |slots| && |Gaps(slots, start)| == i < |Gaps(slots, |slots|)|
    ensures start <= pos < |slots| && pos == Gaps(slots, |slots|)[i] && |Gaps(slots, pos + 1)| == i + 1
  {
    hide Gaps;
    pos := start;
    GapsMono(slots, pos, |slots|);
    while slots[pos].Some?
      invariant start <= pos < |slots| && |Gaps(slots, pos)| == i
      decreases |slots| - pos
    {
      GapsStep(slots, pos);
      pos := pos + 1;
      GapsMono(slots, pos, |slots|);
    }
    GapsStep(slots, pos);
    GapsMono(slots, pos + 1, |slots|);
  }

  /** The i-th short id goes to the i-th empty slot; a crowded hash bucket gives up. */
  method MapShortIds(ids: seq<nat>, slots: Slots, crowded: nat -> bool) returns (ok: bool, m: map<nat, nat>)
    requires |Gaps(slots, |slots|)| == |ids|
    ensures ok == forall i :: 0 <= i < |ids| ==> !crowded(i)
    ensures ok ==> MapState(ids, Gaps(slots, |slots|), |ids|, m)
  {
    hide Gaps, MapState;
    m := map[];
    ghost var gaps := Gaps(slots, |slots|);
    var offset := 0;
    GapsNone(slots);
    MapNone(ids, gaps);
    for i := 0 to |ids|
      invariant 0 <= offset && i + offset <= |slots| && |Gaps(slots, i + offset)| == i
      invariant forall k :: 0 <= k < i ==> !crowded(k)
      invariant MapState(ids, gaps, i, m)
    {
      var pos := NextGap(slots, i + offset, i);
      offset := pos - i;
      MapNext(ids, gaps, i, m);
      m := m[ids[i] := pos % TWO16];
      if crowded(i) { return false, m; }
    }
    ok := true;
  }

  lemma MapNone(ids: seq<nat>, gaps: seq<nat>)
    ensures MapState(ids, gaps, 0, map[])
  {
    assert ids[..0] == [];
  }

  lemma GapsNone(slots: Slots)
    ensures |Gaps(slots, 0)| == 0
  {}

  lemma GapsStep(slots: Slots, n: nat)
    requires n < |slots|
    ensures Gaps(slots, n + 1) == Gaps(slots, n) + if slots[n].None? then [n] else []
  {}

  lemma MapNext(ids: seq<nat>, gaps: seq<nat>, n: nat, m: map<nat, nat>)
    requires n < |ids| && n < |gaps| && MapState(ids, gaps, n, m)
    ensures MapState(ids, gaps, n + 1, m[ids[n] := gaps[n] % TWO16])
  {
    MapNextOk(ids, gaps, n, m);
    MapNextSize(ids, gaps, n, m, gaps[n] % TWO16);
  }

  lemma MapNextOk(ids: seq<nat>, gaps: seq<nat>, n: nat, m: map<nat, nat>)
    requires n < |ids| && n < |gaps| && MapOk(ids, gaps, n, m)
    ensures MapOk(ids, gaps, n + 1, m[ids[n] := gaps[n] % TWO16])
  {
    var m' := m[ids[n] := gaps[n] % TWO16];
    forall id | id in m' ensures exists i :: 0 <= i < n + 1 && ids[i] == id && m'[id] == gaps[i] % TWO16 {
      if id == ids[n] {
        assert ids[n] == id && m'[id] == gaps[n] % TWO16;
      } else {
        var i :| 0 <= i < n && ids[i] == id && m[id] == gaps[i] % TWO16;
        assert ids[i] == id && m'[id] == gaps[i] % TWO16;
      }
    }
  }

  lemma MapNextSize(ids: seq<nat>, gaps: seq<nat>, n: nat, m: map<nat, nat>, v: nat)
    requires n < |ids| && n < |gaps| && MapState(ids, gaps, n, m)
    ensures var m' := m[ids[n] := v]; |m'| <= n + 1 && (|m'| == n + 1 <==> DistinctIds(ids[..n + 1]))
  {
    var m' := m[ids[n] := v];
    SizeOfKeys(m);
    SizeOfKeys(m');
    if ids[n] in m {
      assert m'.Keys == m.Keys;
      var i :| 0 <= i < n && ids[i] == ids[n];
      assert ids[..n + 1][i] == ids[..n + 1][n];
    } else {
      assert m'.Keys == m.Keys + {ids[n]};
      DistinctNext(ids, n);
    }
  }

  lemma SizeOfKeys(m: map<nat, nat>)
    ensures |m| == |m.Keys|
  {}

  lemma DistinctNext(ids: seq<nat>, n: nat)
    requires n < |ids| && forall i :: 0 <= i < n ==> ids[i] != ids[n]
    ensures DistinctIds(ids[..n + 1]) <==> DistinctIds(ids[..n])
  {
    var a, b := ids[..n], ids[..n + 1];
    assert forall i :: 0 <= i < n ==> a[i] == b[i];
  }

  /** The i-th short id leads to the i-th empty slot, in 16 bits, and there are no other ids. */
  ghost predicate SlotMap(ids: seq<nat>, gaps: seq<nat>, m: map<nat, nat>) {
    && |ids| == |gaps|
    && (forall i :: 0 <= i < |ids| ==> ids[i] in m && m[ids[i]] == gaps[i] % TWO16)
    && (forall id :: id in m ==> id in ids)
  }

  lemma MapExact(ids: seq<nat>, gaps: seq<nat>, m: map<nat, nat>)
    requires |ids| == |gaps| && MapState(ids, gaps, |ids|, m) && |m| == |ids|
    ensures DistinctIds(ids) && SlotMap(ids, gaps, m)
  {
    assert ids[..|ids|] == ids;
    forall i | 0 <= i < |ids| ensures ids[i] in m && m[ids[i]] == gaps[i] % TWO16 {
      var j :| 0 <= j < |ids| && ids[j] == ids[i] && m[ids[i]] == gaps[j] % TWO16;
    }
  }

  /** Every slot number survives in 16 bits if and only if the block has at most 65536 transactions. */
  lemma SlotsFitIff(c: CompactBlock, slots: Slots)
    requires AllPrefilledOk(c, |c.prefilled|) && Placed(c, |c.prefilled|, slots)
    ensures (forall i :: 0 <= i < |Gaps(slots, |slots|)| ==> Gaps(slots, |slots|)[i] % TWO16 == Gaps(slots, |slots|)[i])
            <==> Count(c) <= TWO16
  {
    hide Gaps;
    var gaps := Gaps(slots, |slots|);
    if Count(c) > TWO16 {
      var p := |slots| - 1;
      if |c.prefilled| > 0 { assert PrefilledOk(c, |c.prefilled| - 1); }
      assert slots[p].None?;
      GapsAll(slots, |slots|, p);
      var i :| 0 <= i < |gaps| && gaps[i] == p;
      assert gaps[i] % TWO16 != gaps[i];
    }
  }

  lemma {:induction false} PositionSpread(ps: seq<Prefilled>, i: int, j: int)
    requires -1 <= i <= j < |ps|
    ensures Position(ps, j) - Position(ps, i) >= j - i
    decreases j
  {
    if i < j { PositionSpread(ps, i, j - 1); }
  }

  /** The number of filled slots only grows with the position. */
  lemma {:induction false} FilledMono(slots: Slots, m: nat, n: nat)
    requires m <= n <= |slots|
    ensures m - |Gaps(slots, m)| <= n - |Gaps(slots, n)|
    decreases n
  {
    if m < n { FilledMono(slots, m, n - 1); }
  }

  lemma {:induction false} GapIndex(slots: Slots, n: nat, i: nat)
    requires n <= |slots| && i < |Gaps(slots, n)|
    ensures |Gaps(slots, Gaps(slots, n)[i])| == i
    decreases n
  {
    if i < |Gaps(slots, n - 1)| { GapIndex(slots, n - 1, i); }
  }

  /** The number of prefilled transactions that were skipped before the i-th empty slot. */
  function Offset(slots: Slots, i: nat): int
    requires i < |Gaps(slots, |slots|)|
  {
    Gaps(slots, |slots|)[i] - i
  }

  /** The 16-bit index_offset is enough if and only if there are not 65536 prefilled transactions before some short
      id. */
  lemma OffsetFitsIff(c: CompactBlock, slots: Slots)
    requires AllPrefilledOk(c, |c.prefilled|) && Placed(c, |c.prefilled|, slots)
    ensures (forall i :: 0 <= i < |Gaps(slots, |slots|)| ==> Offset(slots, i) < TWO16)
            <==> !(|c.prefilled| == TWO16 && c.shortIds != [])
  {
    hide Gaps, Position, PrefilledOk;
    var gaps, n := Gaps(slots, |slots|), |c.prefilled|;
    PrefilledAtMost(c);
    forall i | 0 <= i < |gaps| ensures Offset(slots, i) <= n {
      GapIndex(slots, |slots|, i);
      FilledMono(slots, gaps[i], |slots|);
    }
    if n == TWO16 && c.shortIds != [] {
      var p := gaps[0];
      if p < TWO16 { PrefilledDense(c, p); }
      assert Offset(slots, 0) >= TWO16;
    }
  }

  lemma PrefilledAtMost(c: CompactBlock)
    requires AllPrefilledOk(c, |c.prefilled|)
    ensures |c.prefilled| <= TWO16
  {
    if c.prefilled != [] {
      assert PrefilledOk(c, |c.prefilled| - 1);
      PositionSpread(c.prefilled, -1, |c.prefilled| - 1);
    }
  }

  /** 65536 positions below 65536 are all of them. */
  lemma PrefilledDense(c: CompactBlock, p: nat)
    requires AllPrefilledOk(c, |c.prefilled|) && |c.prefilled| == TWO16 && p < TWO16
    ensures Position(c.prefilled, p) == p
  {
    assert PrefilledOk(c, TWO16 - 1);
    PositionSpread(c.prefilled, -1, p);
    PositionSpread(c.prefilled, p, TWO16 - 1);
  }

  // ---------------------------------------------------------------------------------------------
  // Matching the pool
  // ---------------------------------------------------------------------------------------------

  /** A transaction the receiver has, under the hash that short ids are made from. */
  datatype Candidate = Candidate(hash: nat, tx: Tx)

  /** The number of the slots listed that are filled. */
  function Filled(slots: Slots, gaps: seq<nat>, n: nat): nat
    requires n <= |gaps| && forall k :: 0 <= k < |gaps| ==> gaps[k] < |slots|
  {
    if n == 0 then 0 else Filled(slots, gaps, n - 1) + if slots[gaps[n - 1]].Some? then 1 else 0
  }

  predicate Rising(gaps: seq<nat>) { forall i, j :: 0 <= i < j < |gaps| ==> gaps[i] < gaps[j] }

  lemma {:induction false} FilledUpdate(slots: Slots, gaps: seq<nat>, n: nat, i: nat, o: Option<Tx>)
    requires n <= |gaps| && i < |gaps| && Rising(gaps) && forall k :: 0 <= k < |gaps| ==> gaps[k] < |slots|
    ensures Filled(slots[gaps[i] := o], gaps, n) ==
              Filled(slots, gaps, n)
              + if i >= n then 0 else (if o.Some? then 1 else 0) - if slots[gaps[i]].Some? then 1 else 0
  {
    if n > 0 { FilledUpdate(slots, gaps, n - 1, i, o); }
  }

  /** Matching so far: prefilled slots are as they were, the count is that of the filled short-id slots, and a slot is
      only empty if nothing was found for it or two candidates disagreed. */
  ghost predicate Matching(placed: Slots, gaps: seq<nat>, slots: Slots, have: seq<bool>, count: int) {
    && |slots| == |have| == |placed| && gaps == Gaps(placed, |placed|)
    && (forall p :: 0 <= p < |slots| && placed[p].Some? ==> slots[p] == placed[p] && !have[p])
    && (forall p :: 0 <= p < |slots| && placed[p].None? && slots[p].Some? ==> have[p])
    && count == Filled(slots, gaps, |gaps|)
  }

  /** A candidate for slot p is taken, or, if there was one before and it differs, both are dropped. */
  function Offer(slots: Slots, have: seq<bool>, p: nat, tx: Tx, sameIgnored: bool): Slots
    requires p < |slots| == |have|
  {
    if !have[p] then slots[p := Some(tx)]
    else if slots[p].Some? && !(sameIgnored && slots[p].value.witnessHash == tx.witnessHash) then slots[p := None]
    else slots
  }

  lemma OfferMatches(placed: Slots, gaps: seq<nat>, slots: Slots, have: seq<bool>, count: int, i: nat, tx: Tx,
                     sameIgnored: bool)
    requires Matching(placed, gaps, slots, have, count) && i < |gaps|
    ensures var p := gaps[i]; var slots' := Offer(slots, have, p, tx, sameIgnored);
            var change := (if slots'[p].Some? then 1 else 0) - (if slots[p].Some? then 1 else 0);
            Matching(placed, gaps, slots', have[p := true], count + change)
    ensures !have[gaps[i]] ==> slots[gaps[i]].None?
  {
    hide Gaps;
    GapsIncrease(placed, |placed|);
    var p := gaps[i];
    assert placed[p].None?;
    var slots' := Offer(slots, have, p, tx, sameIgnored);
    FilledUpdate(slots, gaps, |gaps|, i, slots'[p]);
    assert slots' == slots[p := slots'[p]];
  }

  /** Filled slots hold the transactions of the block. */
  ghost predicate Agrees(slots: Slots, vtx: seq<Tx>) {
    |slots| == |vtx| && forall p :: 0 <= p < |slots| && slots[p].Some? ==> slots[p].value == vtx[p]
  }

  /** Every candidate whose short id is that of a slot is the transaction of that slot. */
  ghost predicate OwnOnly(m: map<nat, nat>, shortId: nat -> nat, pool: seq<Candidate>, vtx: seq<Tx>) {
    forall k :: 0 <= k < |pool| ==>
      (shortId(pool[k].hash) in m ==> m[shortId(pool[k].hash)] < |vtx| && pool[k].tx == vtx[m[shortId(pool[k].hash)]])
  }

  /** The short-id map leads to empty slots. */
  ghost predicate MapInto(m: map<nat, nat>, gaps: seq<nat>) { forall id :: id in m ==> m[id] in gaps }

  lemma MapIsInto(ids: seq<nat>, gaps: seq<nat>, m: map<nat, nat>)
    requires |ids| == |gaps| && MapOk(ids, gaps, |ids|, m) && forall k :: 0 <= k < |gaps| ==> gaps[k] < TWO16
    ensures MapInto(m, gaps)
  {
    forall id | id in m ensures m[id] in gaps {
      var i :| 0 <= i < |ids| && ids[i] == id && m[id] == gaps[i] % TWO16;
    }
  }

  lemma MapInRange(ids: seq<nat>, slots: Slots, m: map<nat, nat>)
    requires |ids| == |Gaps(slots, |slots|)| && MapOk(ids, Gaps(slots, |slots|), |ids|, m)
    ensures forall id :: id in m ==> m[id] < |slots|
  {
    var gaps := Gaps(slots, |slots|);
    forall id | id in m ensures m[id] < |slots| {
      var i :| 0 <= i < |ids| && ids[i] == id && m[id] == gaps[i] % TWO16;
    }
  }

  /** The candidate has the short id of slot p. */
  predicate Hit(m: map<nat, nat>, shortId: nat -> nat, c: Candidate, p: nat) {
    shortId(c.hash) in m && m[shortId(c.hash)] == p
  }

  /** A transaction stays in slot p as long as every further candidate for it is the same one; if `same` does not hold,
      any further candidate counts as a different one. */
  ghost function Kept(m: map<nat, nat>, shortId: nat -> nat, pool: seq<Candidate>, lo: nat, n: nat, p: nat,
                      o: Option<Tx>, same: bool): Option<Tx>
    requires n <= |pool|
  {
    if o.Some? && forall j :: lo <= j < n && Hit(m, shortId, pool[j], p) ==>
        same && pool[j].tx.witnessHash == o.value.witnessHash
      then o else None
  }

  /** What n candidates do to a slot: without one for it, nothing; a slot that had none before takes the first; and what
      is in it stays as long as no other one turns up. */
  ghost predicate SettledAt(m: map<nat, nat>, shortId: nat -> nat, pool: seq<Candidate>, n: nat, before: Option<Tx>,
                            had: bool, slot: Option<Tx>, have: bool, p: nat, same: bool)
    requires n <= |pool|
  {
    if NoHit(m, shortId, pool, n, p) then slot == before && have == had
    else have && if had then slot == Kept(m, shortId, pool, 0, n, p, before, same)
    else TookSome(m, shortId, pool, n, p, slot, same)
  }

  ghost predicate NoHit(m: map<nat, nat>, shortId: nat -> nat, pool: seq<Candidate>, n: nat, p: nat)
    requires n <= |pool|
  {
    forall j :: 0 <= j < n ==> !Hit(m, shortId, pool[j], p)
  }

  /** Candidate k was the first for slot p. */
  ghost predicate Took(m: map<nat, nat>, shortId: nat -> nat, pool: seq<Candidate>, k: nat, n: nat, p: nat,
                       slot: Option<Tx>, same: bool)
    requires n <= |pool|
  {
    && k < n && Hit(m, shortId, pool[k], p) && NoHit(m, shortId, pool, k, p)
    && slot == Kept(m, shortId, pool, k + 1, n, p, Some(pool[k].tx), same)
  }

  ghost predicate TookSome(m: map<nat, nat>, shortId: nat -> nat, pool: seq<Candidate>, n: nat, p: nat,
                           slot: Option<Tx>, same: bool)
    requires n <= |pool|
  {
    exists k: nat :: Took(m, shortId, pool, k, n, p, slot, same)
  }

  lemma NoHitNext(m: map<nat, nat>, shortId: nat -> nat, pool: seq<Candidate>, n: nat, p: nat)
    requires n < |pool|
    ensures NoHit(m, shortId, pool, n + 1, p) <==> NoHit(m, shortId, pool, n, p) && !Hit(m, shortId, pool[n], p)
  {
    hide Hit;
  }

  lemma TookNext(m: map<nat, nat>, shortId: nat -> nat, pool: seq<Candidate>, n: nat, p: nat, slot: Option<Tx>,
                 same: bool)
    requires n < |pool| && TookSome(m, shortId, pool, n, p, slot, same)
    ensures var slot' := if Hit(m, shortId, pool[n], p) then OfferAt(slot, true, pool[n].tx, same) else slot;
            TookSome(m, shortId, pool, n + 1, p, slot', same)
  {
    hide Hit, Kept, NoHit, OfferAt;
    var slot' := if Hit(m, shortId, pool[n], p) then OfferAt(slot, true, pool[n].tx, same) else slot;
    var k: nat :| Took(m, shortId, pool, k, n, p, slot, same);
    KeptNext(m, shortId, pool, k + 1, n, p, Some(pool[k].tx), same);
    assert Took(m, shortId, pool, k, n + 1, p, slot', same);
  }

  ghost predicate Settled(m: map<nat, nat>, shortId: nat -> nat, pool: seq<Candidate>, n: nat, slots0: Slots,
                          have0: seq<bool>, slots: Slots, have: seq<bool>, same: bool)
    requires n <= |pool|
  {
    && |slots| == |slots0| == |have| == |have0|
    && forall p :: 0 <= p < |slots| ==> SettledAt(m, shortId, pool, n, slots0[p], have0[p], slots[p], have[p], p, same)
  }

  lemma SettleNext(m: map<nat, nat>, shortId: nat -> nat, pool: seq<Candidate>, n: nat, slots0: Slots, have0: seq<bool>,
                   slots: Slots, have: seq<bool>, same: bool)
    requires n < |pool| && Settled(m, shortId, pool, n, slots0, have0, slots, have, same)
    requires shortId(pool[n].hash) in m ==> m[shortId(pool[n].hash)] < |slots|
    ensures var id := shortId(pool[n].hash);
            if id in m then
              var slots', have' := Offer(slots, have, m[id], pool[n].tx, same), have[m[id] := true];
              Settled(m, shortId, pool, n + 1, slots0, have0, slots', have', same)
            else Settled(m, shortId, pool, n + 1, slots0, have0, slots, have, same)
  {
    hide SettledAt;
    var id := shortId(pool[n].hash);
    var slots', have' := slots, have;
    if id in m { slots', have' := Offer(slots, have, m[id], pool[n].tx, same), have[m[id] := true]; }
    forall p | 0 <= p < |slots|
      ensures SettledAt(m, shortId, pool, n + 1, slots0[p], have0[p], slots'[p], have'[p], p, same)
    {
      assert SettledAt(m, shortId, pool, n, slots0[p], have0[p], slots[p], have[p], p, same);
      if Hit(m, shortId, pool[n], p) {
        HitNext(m, shortId, pool, n, slots0[p], have0[p], slots[p], have[p], p, same);
      } else {
        MissNext(m, shortId, pool, n, slots0[p], have0[p], slots[p], have[p], p, same);
      }
    }
  }

  /** What a candidate does to its own slot. */
  function OfferAt(slot: Option<Tx>, have: bool, tx: Tx, same: bool): Option<Tx> {
    if !have then Some(tx)
    else if slot.Some? && !(same && slot.value.witnessHash == tx.witnessHash) then None
    else slot
  }

  lemma KeptNext(m: map<nat, nat>, shortId: nat -> nat, pool: seq<Candidate>, lo: nat, n: nat, p: nat, o: Option<Tx>,
                 same: bool)
    requires n < |pool| && lo <= n
    ensures Kept(m, shortId, pool, lo, n + 1, p, o, same) ==
              if Hit(m, shortId, pool[n], p)
                then OfferAt(Kept(m, shortId, pool, lo, n, p, o, same), true, pool[n].tx, same)
              else Kept(m, shortId, pool, lo, n, p, o, same)
    ensures Kept(m, shortId, pool, n, n, p, o, same) == o
  {
    hide Hit;
  }

  lemma HitNext(m: map<nat, nat>, shortId: nat -> nat, pool: seq<Candidate>, n: nat, before: Option<Tx>, had: bool,
                slot: Option<Tx>, have: bool, p: nat, same: bool)
    requires n < |pool| && SettledAt(m, shortId, pool, n, before, had, slot, have, p, same)
             && Hit(m, shortId, pool[n], p)
    ensures SettledAt(m, shortId, pool, n + 1, before, had, OfferAt(slot, have, pool[n].tx, same), true, p, same)
  {
    hide Hit, Kept, NoHit, TookSome;
    NoHitNext(m, shortId, pool, n, p);
    KeptNext(m, shortId, pool, 0, n, p, before, same);
    if NoHit(m, shortId, pool, n, p) {
      if had {
        NoneKept(m, shortId, pool, n, p, before, same);
      } else {
        TakeFirst(m, shortId, pool, n, p, same);
      }
    } else if !had {
      TookNext(m, shortId, pool, n, p, slot, same);
    }
  }

  lemma TakeFirst(m: map<nat, nat>, shortId: nat -> nat, pool: seq<Candidate>, n: nat, p: nat, same: bool)
    requires n < |pool| && Hit(m, shortId, pool[n], p) && NoHit(m, shortId, pool, n, p)
    ensures TookSome(m, shortId, pool, n + 1, p, Some(pool[n].tx), same)
  {
    KeptAll(m, shortId, pool, n + 1, p, Some(pool[n].tx), same);
    assert Took(m, shortId, pool, n, n + 1, p, Some(pool[n].tx), same);
  }

  lemma NoneKept(m: map<nat, nat>, shortId: nat -> nat, pool: seq<Candidate>, n: nat, p: nat, o: Option<Tx>, same: bool)
    requires n <= |pool| && NoHit(m, shortId, pool, n, p)
    ensures Kept(m, shortId, pool, 0, n, p, o, same) == o
  {
    hide Hit;
  }

  lemma KeptAll(m: map<nat, nat>, shortId: nat -> nat, pool: seq<Candidate>, n: nat, p: nat, o: Option<Tx>, same: bool)
    requires n <= |pool|
    ensures Kept(m, shortId, pool, n, n, p, o, same) == o
  {}

  lemma MissNext(m: map<nat, nat>, shortId: nat -> nat, pool: seq<Candidate>, n: nat, before: Option<Tx>, had: bool,
                 slot: Option<Tx>, have: bool, p: nat, same: bool)
    requires n < |pool| && SettledAt(m, shortId, pool, n, before, had, slot, have, p, same)
             && !Hit(m, shortId, pool[n], p)
    ensures SettledAt(m, shortId, pool, n + 1, before, had, slot, have, p, same)
  {
    hide Hit, Kept, NoHit, TookSome;
    NoHitNext(m, shortId, pool, n, p);
    KeptNext(m, shortId, pool, 0, n, p, before, same);
    if !NoHit(m, shortId, pool, n, p) && !had { TookNext(m, shortId, pool, n, p, slot, same); }
  }

  /** Goes through the candidates, and stops once every short-id slot is filled. */
  method MatchPool(m: map<nat, nat>, shortId: nat -> nat, pool: seq<Candidate>, sameIgnored: bool, nIds: nat,
                   slots0: Slots, have0: seq<bool>,
                   count0: int, ghost placed: Slots, ghost gaps: seq<nat>, ghost base: int, ghost vtx: seq<Tx>)
    returns (slots: Slots, have: seq<bool>, count: int, n: nat)
    requires |slots0| == |have0| && forall id :: id in m ==> m[id] < |slots0|
    ensures |slots| == |have| == |slots0| && n <= |pool| && (n == |pool| || count == nIds)
    ensures MapInto(m, gaps) && Matching(placed, gaps, slots0, have0, count0 - base) ==>
              Matching(placed, gaps, slots, have, count - base)
    ensures Agrees(slots0, vtx) && OwnOnly(m, shortId, pool, vtx) ==> Agrees(slots, vtx)
    ensures Settled(m, shortId, pool, n, slots0, have0, slots, have, sameIgnored)
  {
    hide Matching, Settled, Agrees, OwnOnly;
    slots, have, count, n := slots0, have0, count0, 0;
    NoneSettled(m, shortId, pool, slots0, have0, sameIgnored);
    while n < |pool|
      invariant n <= |pool| && |slots| == |have| == |slots0|
      invariant MapInto(m, gaps) && Matching(placed, gaps, slots0, have0, count0 - base) ==>
                  Matching(placed, gaps, slots, have, count - base)
      invariant Agrees(slots0, vtx) && OwnOnly(m, shortId, pool, vtx) ==> Agrees(slots, vtx)
      invariant Settled(m, shortId, pool, n, slots0, have0, slots, have, sameIgnored)
    {
      var id := shortId(pool[n].hash);
      SettleNext(m, shortId, pool, n, slots0, have0, slots, have, sameIgnored);
      if id in m {
        if OwnOnly(m, shortId, pool, vtx) && Agrees(slots, vtx) {
          OfferAgrees(m, shortId, pool, n, slots, have, vtx, sameIgnored);
        }
        slots, have, count := TakeCandidate(slots, have, count, m[id], pool[n].tx, sameIgnored, placed, gaps, base);
      }
      n := n + 1;
      if count == nIds { break; }
    }
  }

  lemma NoneSettled(m: map<nat, nat>, shortId: nat -> nat, pool: seq<Candidate>, slots: Slots, have: seq<bool>,
                    same: bool)
    requires |slots| == |have|
    ensures Settled(m, shortId, pool, 0, slots, have, slots, have, same)
  {}

  lemma OfferAgrees(m: map<nat, nat>, shortId: nat -> nat, pool: seq<Candidate>, k: nat, slots: Slots,
                    have: seq<bool>, vtx: seq<Tx>,
                    sameIgnored: bool)
    requires k < |pool| && OwnOnly(m, shortId, pool, vtx) && Agrees(slots, vtx) && shortId(pool[k].hash) in m
             && |slots| == |have|
    ensures var p := m[shortId(pool[k].hash)];
            p < |slots| && Agrees(Offer(slots, have, p, pool[k].tx, sameIgnored), vtx)
  {}

  /** The step for one candidate. */
  method TakeCandidate(slots0: Slots, have0: seq<bool>, count0: int, p: nat, tx: Tx, sameIgnored: bool,
                       ghost placed: Slots, ghost gaps: seq<nat>, ghost base: int)
    returns (slots: Slots, have: seq<bool>, count: int)
    requires p < |slots0| == |have0|
    ensures slots == Offer(slots0, have0, p, tx, sameIgnored) && have == have0[p := true]
    ensures p in gaps && Matching(placed, gaps, slots0, have0, count0 - base) ==>
              Matching(placed, gaps, slots, have, count - base)
  {
    hide Matching;
    if p in gaps && Matching(placed, gaps, slots0, have0, count0 - base) {
      ghost var i :| 0 <= i < |gaps| && gaps[i] == p;
      OfferMatches(placed, gaps, slots0, have0, count0 - base, i, tx, sameIgnored);
    }
    slots, have, count := slots0, have0, count0;
    if !have[p] {
      slots := slots[p := Some(tx)];
      have := have[p := true];
      count := count + 1;
    } else {
      assert have[p := true] == have;
      if slots[p].Some? && !(sameIgnored && slots[p].value.witnessHash == tx.witnessHash) {
        slots := slots[p := None];
        count := count - 1;
      }
    }
  }
}
