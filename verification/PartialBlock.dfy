/** A compact block being put together (blockencodings.cpp, PartiallyDownloadedBlock), and the exchange that
    completes it. */
module PartialBlock {
  import opened Digits
  import opened Options
  import opened BlockRequest
  import opened CompactBlocks

  /** What the check of a whole block says. */
  datatype Check = Passed | Mutated | Refused

  predicate Sized(c: CompactBlock) { c.header.Some? && 0 < Count(c) <= MAX_COUNT }

  predicate Uncrowded(c: CompactBlock, crowded: nat -> bool) { forall i :: 0 <= i < |c.shortIds| ==> !crowded(i) }

  /** Filled slots keep their transaction, and the missing ones fill the empty slots in order. */
  ghost predicate Assembled(slots: Slots, missing: seq<Tx>, n: nat, vtx: seq<Tx>)
    requires n <= |slots|
  {
    && |vtx| == n && |Gaps(slots, n)| <= |missing|
    && (forall p :: 0 <= p < n && slots[p].Some? ==> vtx[p] == slots[p].value)
    && (forall k :: 0 <= k < |Gaps(slots, n)| ==> vtx[Gaps(slots, n)[k]] == missing[k])
  }

  lemma AssembleNext(slots: Slots, missing: seq<Tx>, n: nat, vtx: seq<Tx>)
    requires n < |slots| && Assembled(slots, missing, n, vtx)
    ensures slots[n].Some? ==> Assembled(slots, missing, n + 1, vtx + [slots[n].value])
    ensures slots[n].None? && |Gaps(slots, n)| < |missing| ==>
              Assembled(slots, missing, n + 1, vtx + [missing[|Gaps(slots, n)|]])
  {
    hide Gaps;
    GapsStep(slots, n);
  }

  /** The slots once the first n have been moved out. */
  function MovedOut(slots: Slots, n: nat): Slots
    requires n <= |slots|
  {
    seq(n, _ => None) + slots[n..]
  }

  lemma MoveNext(slots: Slots, n: nat)
    requires n < |slots|
    ensures MovedOut(slots, n)[n] == slots[n] && MovedOut(slots, n)[n := None] == MovedOut(slots, n + 1)
  {}

  /** The i-th empty slot, at which n slots have been passed. */
  lemma GapAt(slots: Slots, n: nat)
    requires n < |slots| && slots[n].None?
    ensures |Gaps(slots, n)| < |Gaps(slots, |slots|)| && Gaps(slots, |slots|)[|Gaps(slots, n)|] == n
  {
    hide Gaps;
    GapsStep(slots, n);
    GapsMono(slots, n + 1, |slots|);
  }

  class PartiallyDownloadedBlock {
    var slots: Slots
    var mempoolCount: int
    var header: Option<nat>

    constructor ()
      ensures slots == [] && mempoolCount == 0 && header.None?
    {
      slots, mempoolCount, header := [], 0, None;
    }

    /** Starts from a compact block, the pool and some extra transactions. The status is decided by the compact block
        alone. Then every short id has its slot; and as long as slot numbers fit 16 bits, prefilled slots are never
        touched, the count is that of the filled short-id slots, and own candidates only ever put the block's
        transactions in place. */
    method InitData(c: CompactBlock, shortId: nat -> nat, crowded: nat -> bool, pool: seq<Candidate>,
                    extra: seq<Candidate>, ghost vtx: seq<Tx>)
      returns (status: Status, ghost placed: Slots, ghost m: map<nat, nat>, ghost have: seq<bool>, ghost w: Search)
      requires Sized(c) ==> header.None? && slots == []
      modifies this
      ensures status == INVALID <==> !Sized(c) || !AllPrefilledOk(c, |c.prefilled|)
      ensures status == OK <==>
                Sized(c) && AllPrefilledOk(c, |c.prefilled|) && Uncrowded(c, crowded) && DistinctIds(c.shortIds)
      ensures status == OK || status == INVALID || status == FAILED
      ensures !Sized(c) ==> unchanged(this)
      ensures status == OK ==> header == c.header && |slots| == Count(c)
      ensures status == OK ==> Placed(c, |c.prefilled|, placed) && SlotMap(c.shortIds, Gaps(placed, |placed|), m)
      ensures status == OK && Count(c) <= TWO16 ==>
                Matching(placed, Gaps(placed, |placed|), slots, have, mempoolCount - old(mempoolCount))
      ensures status == OK ==> Searched(m, shortId, pool, extra, placed, w, slots, have)
      ensures status == OK && Count(c) <= TWO16 && old(mempoolCount) == 0 ==> StoppedOk(pool, extra, w, slots)
      ensures status == OK && Agrees(placed, vtx) && OwnOnly(m, shortId, pool, vtx) && OwnOnly(m, shortId, extra, vtx)
              ==> Agrees(slots, vtx)
    {
      hide AllPrefilledOk, Placed, MapState, SlotMap, Matching, Agrees, OwnOnly, Gaps, DistinctIds, Searched, StoppedOk;
      placed, m, have, w := [], map[], [], Search(0, [], [], 0);
      if c.header.None? || (c.shortIds == [] && c.prefilled == []) { return INVALID, placed, m, have, w; }
      if |c.shortIds| + |c.prefilled| > MAX_COUNT { return INVALID, placed, m, have, w; }
      header := c.header;
      var ok, start := PlacePrefilled(c);
      slots := start;
      if !ok { return INVALID, placed, m, have, w; }
      placed := start;
      PlacedSize(c, start);
      var uncrowded, ids := MapShortIds(c.shortIds, start, crowded);
      m := ids;
      if !uncrowded { return FAILED, placed, m, have, w; }
      MapSize(c.shortIds, Gaps(start, |start|), ids);
      if |ids| != |c.shortIds| { return FAILED, placed, m, have, w; }
      MapExact(c.shortIds, Gaps(start, |start|), ids);
      var now, got, count;
      now, got, count, w := MatchBoth(c, ids, shortId, pool, extra, start, mempoolCount, vtx);
      slots, mempoolCount := now, count;
      have := got;
      status := OK;
    }

    function IsTxAvailable(index: nat): bool
      requires header.Some? && index < |slots|
      reads this
    {
      slots[index].Some?
    }

    /** Puts the missing transactions into the empty slots. Too few leave the block half moved out; otherwise it
        cannot be filled again, and too many are refused. */
    method FillBlock(missing: seq<Tx>, check: (nat, seq<Tx>) -> Check) returns (status: Status, hash: nat, vtx: seq<Tx>)
      requires header.Some?
      modifies this
      ensures mempoolCount == old(mempoolCount) && hash == old(header).value
      ensures var gaps := old(Gaps(slots, |slots|));
              if |missing| < |gaps|
                then status == INVALID && header == old(header) && slots == old(MovedOut(slots, gaps[|missing|]))
              else
                && slots == [] && header.None? && Assembled(old(slots), missing, |old(slots)|, vtx)
                && (status == INVALID <==> |missing| > |gaps|)
                && (|missing| == |gaps| ==> status == Verdict(check(hash, vtx)))
    {
      hide Gaps, Assembled, MovedOut;
      hash := header.value;
      vtx := [];
      var offset := 0;
      ghost var slots0 := slots;
      NothingMoved(slots, missing);
      for i := 0 to |slots|
        invariant |slots| == |slots0| && slots == MovedOut(slots0, i) && header == old(header)
                  && mempoolCount == old(mempoolCount)
        invariant Assembled(slots0, missing, i, vtx) && offset == |Gaps(slots0, i)| <= |missing|
      {
        MoveNext(slots0, i);
        AssembleNext(slots0, missing, i, vtx);
        GapsStep(slots0, i);
        if slots[i].None? {
          GapAt(slots0, i);
          if |missing| <= offset { return INVALID, hash, vtx; }
          assert slots[i := None] == slots;
          vtx := vtx + [missing[offset]];
          offset := offset + 1;
        } else {
          vtx := vtx + [slots[i].value];
          slots := slots[i := None];
        }
      }
      header := None;
      slots := [];
      if |missing| != offset { return INVALID, hash, vtx; }
      status := Verdict(check(hash, vtx));
    }
  }

  function Verdict(c: Check): Status {
    match c
    case Passed => OK
    case Mutated => FAILED
    case Refused => CHECKBLOCK_FAILED
  }

  lemma NothingMoved(slots: Slots, missing: seq<Tx>)
    ensures MovedOut(slots, 0) == slots && Assembled(slots, missing, 0, []) && |Gaps(slots, 0)| == 0
  {}

  lemma PlacedSize(c: CompactBlock, slots: Slots)
    requires Placed(c, |c.prefilled|, slots)
    ensures |slots| == Count(c) && |Gaps(slots, |slots|)| == |c.shortIds|
  {}

  lemma MapSize(ids: seq<nat>, gaps: seq<nat>, m: map<nat, nat>)
    requires |ids| == |gaps| && MapState(ids, gaps, |ids|, m)
    ensures |m| == |ids| <==> DistinctIds(ids)
    ensures MapOk(ids, gaps, |ids|, m)
  {
    assert ids[..|ids|] == ids;
  }

  /** What the search through the pool left behind, and how far it and the second search went. */
  datatype Search = Search(n: nat, slots: Slots, have: seq<bool>, nExtra: nat)

  function NoneYet(n: nat): seq<bool> { seq(n, _ => false) }

  /** The pool was searched from the prefilled block on, and the extra transactions from there. */
  ghost predicate Searched(m: map<nat, nat>, shortId: nat -> nat, pool: seq<Candidate>, extra: seq<Candidate>,
                           start: Slots, w: Search, slots: Slots, have: seq<bool>) {
    && w.n <= |pool| && Settled(m, shortId, pool, w.n, start, NoneYet(|start|), w.slots, w.have, false)
    && w.nExtra <= |extra| && Settled(m, shortId, extra, w.nExtra, w.slots, w.have, slots, have, true)
  }

  ghost predicate Full(slots: Slots) { forall p :: 0 <= p < |slots| ==> slots[p].Some? }

  /** A search only ends early if nothing is missing any more. */
  ghost predicate StoppedOk(pool: seq<Candidate>, extra: seq<Candidate>, w: Search, slots: Slots) {
    (w.n == |pool| || Full(w.slots)) && (w.nExtra == |extra| || Full(slots))
  }

  lemma {:induction false} AllOfThem(slots: Slots, gaps: seq<nat>, n: nat)
    requires n <= |gaps| && (forall k :: 0 <= k < |gaps| ==> gaps[k] < |slots|)
    ensures Filled(slots, gaps, n) <= n
    ensures Filled(slots, gaps, n) == n ==> forall k :: 0 <= k < n ==> slots[gaps[k]].Some?
  {
    if n > 0 { AllOfThem(slots, gaps, n - 1); }
  }

  lemma FullWhenCounted(placed: Slots, slots: Slots, have: seq<bool>)
    requires Matching(placed, Gaps(placed, |placed|), slots, have, |Gaps(placed, |placed|)|)
    ensures Full(slots)
  {
    hide Gaps, Filled;
    var gaps := Gaps(placed, |placed|);
    AllOfThem(slots, gaps, |gaps|);
    forall p | 0 <= p < |slots| ensures slots[p].Some? {
      if placed[p].None? {
        GapsAll(placed, |placed|, p);
        var k :| 0 <= k < |gaps| && gaps[k] == p;
      }
    }
  }

  /** The pool, then the extra transactions. */
  method MatchBoth(c: CompactBlock, m: map<nat, nat>, shortId: nat -> nat, pool: seq<Candidate>,
                   extra: seq<Candidate>, start: Slots,
                   count0: int, ghost vtx: seq<Tx>)
    returns (slots: Slots, have: seq<bool>, count: int, ghost w: Search)
    requires Placed(c, |c.prefilled|, start) && |Gaps(start, |start|)| == |c.shortIds|
             && MapOk(c.shortIds, Gaps(start, |start|), |c.shortIds|, m)
    requires |m| == |c.shortIds|
    ensures |slots| == |start| && Searched(m, shortId, pool, extra, start, w, slots, have)
    ensures Count(c) <= TWO16 && count0 == 0 ==> StoppedOk(pool, extra, w, slots)
    ensures Count(c) <= TWO16 ==> Matching(start, Gaps(start, |start|), slots, have, count - count0)
    ensures Agrees(start, vtx) && OwnOnly(m, shortId, pool, vtx) && OwnOnly(m, shortId, extra, vtx) ==>
              Agrees(slots, vtx)
  {
    hide Placed, Matching, Agrees, OwnOnly, Gaps, MapOk, MapInto, Settled, Full;
    ghost var gaps := Gaps(start, |start|);
    MapInRange(c.shortIds, start, m);
    have := NoneYet(|start|);
    StartMatches(start);
    PlacedSize(c, start);
    if Count(c) <= TWO16 { MapIsInto(c.shortIds, gaps, m); }
    var n, nExtra: nat;
    slots, have, count, n := MatchPool(m, shortId, pool, false, |m|, start, have, count0, start, gaps, count0, vtx);
    w := Search(n, slots, have, 0);
    if Count(c) <= TWO16 && count0 == 0 && n != |pool| { FullWhenCounted(start, slots, have); }
    slots, have, count, nExtra := MatchPool(m, shortId, extra, true, |m|, slots, have, count, start, gaps, count0, vtx);
    w := w.(nExtra := nExtra);
    if Count(c) <= TWO16 && count0 == 0 && nExtra != |extra| { FullWhenCounted(start, slots, have); }
  }

  lemma StartMatches(start: Slots)
    ensures Matching(start, Gaps(start, |start|), start, NoneYet(|start|), 0)
  {
    hide Gaps;
    NoneFilled(start, Gaps(start, |start|), |Gaps(start, |start|)|);
  }

  lemma {:induction false} NoneFilled(slots: Slots, gaps: seq<nat>, n: nat)
    requires n <= |gaps| && forall k :: 0 <= k < |gaps| ==> gaps[k] < |slots| && slots[gaps[k]].None?
    ensures Filled(slots, gaps, n) == 0
  {
    if n > 0 { NoneFilled(slots, gaps, n - 1); }
  }

  // ---------------------------------------------------------------------------------------------
  // The whole exchange
  // ---------------------------------------------------------------------------------------------

  /** The missing transactions, in order, complete the block. */
  lemma Rebuilt(slots: Slots, missing: seq<Tx>, got: seq<Tx>, vtx: seq<Tx>)
    requires Assembled(slots, missing, |slots|, got) && Agrees(slots, vtx)
    requires forall k :: 0 <= k < |Gaps(slots, |slots|)| ==> missing[k] == vtx[Gaps(slots, |slots|)[k]]
    ensures got == vtx
  {
    hide Gaps;
    forall p | 0 <= p < |vtx| ensures got[p] == vtx[p] {
      if slots[p].None? {
        GapsAll(slots, |slots|, p);
        var k :| 0 <= k < |Gaps(slots, |slots|)| && Gaps(slots, |slots|)[k] == p;
      }
    }
  }

  /** The hash that the short id of a transaction is made from. */
  function IdHash(tx: Tx, useWtxid: bool): nat { if useWtxid then tx.witnessHash else tx.hash }

  /** 48 bits of the keyed hash. */
  function ShortId(sip: nat -> nat): nat -> nat { h => sip(h) % TWO48 }

  ghost predicate Describes(c: CompactBlock, header: nat, vtx: seq<Tx>, useWtxid: bool, shortId: nat -> nat) {
    && c.header == Some(header) && |vtx| > 0 && c.prefilled == [Prefilled(0, vtx[0])] && |c.shortIds| == |vtx| - 1
    && forall i :: 0 <= i < |c.shortIds| ==> c.shortIds[i] == shortId(IdHash(vtx[i + 1], useWtxid))
  }

  /** The compact form of a block: its first transaction, and the short ids of the others. */
  method Compacted(header: nat, vtx: seq<Tx>, useWtxid: bool, sip: nat -> nat) returns (c: CompactBlock)
    requires |vtx| > 0
    ensures Describes(c, header, vtx, useWtxid, ShortId(sip))
  {
    var ids := [];
    for i := 1 to |vtx|
      invariant |ids| == i - 1 && forall k :: 0 <= k < i - 1 ==> ids[k] == ShortId(sip)(IdHash(vtx[k + 1], useWtxid))
    {
      ids := ids + [sip(if useWtxid then vtx[i].witnessHash else vtx[i].hash) % TWO48];
    }
    c := CompactBlock(Some(header), ids, [Prefilled(0, vtx[0])]);
  }

  lemma {:induction false} GapsAfterFirst(slots: Slots, n: nat)
    requires 0 < n <= |slots| && slots[0].Some? && forall p :: 0 < p < |slots| ==> slots[p].None?
    ensures |Gaps(slots, n)| == n - 1 && forall i :: 0 <= i < n - 1 ==> Gaps(slots, n)[i] == i + 1
  {
    if n == 1 { assert Gaps(slots, 0) == []; } else { GapsAfterFirst(slots, n - 1); }
  }

  /** A described block is accepted as far as its prefilled transaction goes, and its slots are those of the block. */
  lemma DescribedPlaced(c: CompactBlock, header: nat, vtx: seq<Tx>, useWtxid: bool, shortId: nat -> nat, slots: Slots)
    requires Describes(c, header, vtx, useWtxid, shortId) && Placed(c, 1, slots)
    ensures Agrees(slots, vtx) && |Gaps(slots, |slots|)| == |vtx| - 1
    ensures forall i :: 0 <= i < |vtx| - 1 ==> Gaps(slots, |slots|)[i] == i + 1
  {
    hide Gaps;
    assert Position(c.prefilled, 0) == 0;
    GapsAfterFirst(slots, |slots|);
  }

  /** Every candidate with the short id of one of the block's transactions is that transaction. */
  ghost predicate OwnCandidates(vtx: seq<Tx>, useWtxid: bool, shortId: nat -> nat, pool: seq<Candidate>) {
    forall k, i :: 0 <= k < |pool| && 0 < i < |vtx| && shortId(pool[k].hash) == shortId(IdHash(vtx[i], useWtxid)) ==>
        pool[k].tx == vtx[i]
  }

  lemma OwnIsOwn(c: CompactBlock, header: nat, vtx: seq<Tx>, useWtxid: bool, shortId: nat -> nat, gaps: seq<nat>,
                 m: map<nat, nat>,
                 pool: seq<Candidate>)
    requires Describes(c, header, vtx, useWtxid, shortId) && SlotMap(c.shortIds, gaps, m) && |vtx| <= TWO16
    requires |gaps| == |vtx| - 1 && (forall i :: 0 <= i < |vtx| - 1 ==> gaps[i] == i + 1)
             && OwnCandidates(vtx, useWtxid, shortId, pool)
    ensures OwnOnly(m, shortId, pool, vtx)
  {
    forall k | 0 <= k < |pool| && shortId(pool[k].hash) in m
      ensures m[shortId(pool[k].hash)] < |vtx| && pool[k].tx == vtx[m[shortId(pool[k].hash)]]
    {
      var id := shortId(pool[k].hash);
      var i :| 0 <= i < |c.shortIds| && c.shortIds[i] == id;
      assert m[c.shortIds[i]] == gaps[i] % TWO16 == i + 1;
      assert pool[k].tx == vtx[i + 1];
    }
  }

  /** The short ids of the block, as far as they decide whether it can be put together. */
  ghost predicate Relayable(vtx: seq<Tx>, useWtxid: bool, shortId: nat -> nat, crowded: nat -> bool)
    requires |vtx| > 0
  {
    && !vtx[0].isNull
    && (forall i, j :: 0 < i < j < |vtx| ==> shortId(IdHash(vtx[i], useWtxid)) != shortId(IdHash(vtx[j], useWtxid)))
    && forall i :: 0 <= i < |vtx| - 1 ==> !crowded(i)
  }

  lemma DescribedOk(c: CompactBlock, header: nat, vtx: seq<Tx>, useWtxid: bool, shortId: nat -> nat,
                    crowded: nat -> bool)
    requires Describes(c, header, vtx, useWtxid, shortId) && |vtx| <= MAX16
    ensures Sized(c) && |c.prefilled| == 1
    ensures AllPrefilledOk(c, 1) && Uncrowded(c, crowded) && DistinctIds(c.shortIds)
            <==> Relayable(vtx, useWtxid, shortId, crowded)
  {
    assert Position(c.prefilled, -1) == -1 && Position(c.prefilled, 0) == 0;
    assert PrefilledOk(c, 0) <==> !vtx[0].isNull;
    if DistinctIds(c.shortIds) {
      forall i, j | 0 < i < j < |vtx| ensures shortId(IdHash(vtx[i], useWtxid)) != shortId(IdHash(vtx[j], useWtxid)) {
        assert c.shortIds[i - 1] != c.shortIds[j - 1];
      }
    }
  }

  /** Lists what is missing, as the receiver does before it asks. */
  method Missing(b: PartiallyDownloadedBlock) returns (indexes: seq<nat>)
    requires b.header.Some?
    ensures indexes == Gaps(b.slots, |b.slots|)
  {
    indexes := [];
    for i := 0 to |b.slots|
      invariant indexes == Gaps(b.slots, i)
    {
      if !b.IsTxAvailable(i) { indexes := indexes + [i]; }
    }
  }

  /** The transactions asked for; a request out of range is refused. */
  method Answer(vtx: seq<Tx>, indexes: seq<nat>) returns (ok: bool, txn: seq<Tx>)
    ensures ok == forall k :: 0 <= k < |indexes| ==> indexes[k] < |vtx|
    ensures ok ==> |txn| == |indexes| && forall k :: 0 <= k < |indexes| ==> txn[k] == vtx[indexes[k]]
  {
    txn := [];
    for i := 0 to |indexes|
      invariant |txn| == i && forall k :: 0 <= k < i ==> indexes[k] < |vtx| && txn[k] == vtx[indexes[k]]
    {
      if indexes[i] >= |vtx| { return false, txn; }
      txn := txn + [vtx[indexes[i]]];
    }
    ok := true;
  }

  lemma GapsRequest(slots: Slots)
    requires |slots| <= MAX16
    ensures var ix := Gaps(slots, |slots|); Index16(ix) && Increasing(ix) && |ix| <= MAX16
  {
    hide Gaps;
    GapsIncrease(slots, |slots|);
  }

  /** The request for what is missing reaches the sender as it was made. */
  method Ask(b: PartiallyDownloadedBlock) returns (indexes: seq<nat>)
    requires b.header.Some? && |b.slots| <= MAX16
    ensures indexes == Gaps(b.slots, |b.slots|)
  {
    hide Gaps, ReadRequest, Request, Increasing;
    var asked := Missing(b);
    GapsRequest(b.slots);
    RequestRoundTrip(asked, []);
    var bytes := WriteRequest(asked);
    assert Request(asked) + [] == bytes;
    var r := ReadList(bytes);
    indexes := if r.Parsed? then r.values else [];
  }

  /** A block sent in compact form, over the request and answer for what the receiver lacks, arrives as it was, whatever
      part of it the receiver had, unless a candidate that is not the block's has one of its short ids. */
  method Relay(header: nat, vtx: seq<Tx>, useWtxid: bool, sip: nat -> nat, crowded: nat -> bool, pool: seq<Candidate>,
               extra: seq<Candidate>,
               check: (nat, seq<Tx>) -> Check)
    returns (status: Status, hash: nat, got: seq<Tx>)
    requires 0 < |vtx| <= MAX16
    ensures (&& Relayable(vtx, useWtxid, ShortId(sip), crowded)
             && OwnCandidates(vtx, useWtxid, ShortId(sip), pool) && OwnCandidates(vtx, useWtxid, ShortId(sip), extra))
            ==> got == vtx && hash == header && status == Verdict(check(header, vtx))
    ensures !Relayable(vtx, useWtxid, ShortId(sip), crowded) ==> status == INVALID || status == FAILED
  {
    hide Gaps, Describes, Placed, SlotMap, Agrees, OwnOnly, OwnCandidates, Matching, Assembled, AllPrefilledOk,
         Searched, DistinctIds, Relayable, ShortId;
    var c := Compacted(header, vtx, useWtxid, sip);
    DescribedOk(c, header, vtx, useWtxid, ShortId(sip), crowded);
    var b := new PartiallyDownloadedBlock();
    ghost var placed, m, have, w;
    hash, got := header, [];
    status, placed, m, have, w := b.InitData(c, ShortId(sip), crowded, pool, extra, vtx);
    if status != OK { return; }
    DescribedSize(c, header, vtx, useWtxid, ShortId(sip));
    DescribedPlaced(c, header, vtx, useWtxid, ShortId(sip), placed);
    if OwnCandidates(vtx, useWtxid, ShortId(sip), pool) && OwnCandidates(vtx, useWtxid, ShortId(sip), extra) {
      OwnIsOwn(c, header, vtx, useWtxid, ShortId(sip), Gaps(placed, |placed|), m, pool);
      OwnIsOwn(c, header, vtx, useWtxid, ShortId(sip), Gaps(placed, |placed|), m, extra);
    }
    var indexes := Ask(b);
    var ok, txn := Answer(vtx, indexes);
    ghost var slots := b.slots;
    status, hash, got := b.FillBlock(txn, check);
    if OwnCandidates(vtx, useWtxid, ShortId(sip), pool) && OwnCandidates(vtx, useWtxid, ShortId(sip), extra) {
      Rebuilt(slots, txn, got, vtx);
    }
  }

  lemma DescribedSize(c: CompactBlock, header: nat, vtx: seq<Tx>, useWtxid: bool, shortId: nat -> nat)
    requires Describes(c, header, vtx, useWtxid, shortId)
    ensures Count(c) == |vtx| && |c.prefilled| == 1 && c.header == Some(header)
  {}
}
