/** The address manager on disk: what Serialize writes, and what is the same after reading it back.

    Only the entries, the counters and the new-table references are written; ids, mapAddr, vRandom and the
    tried table are rebuilt on reading, under new ids. */
module AddrManDisk {
  import opened AddrMan
  import opened AddrManOps
  import opened AddrManRuns
  import opened Sets

  /** The part of an entry that is written. */
  datatype Persisted = Persisted(service: Service, nServices: ServiceFlags, nTime: int, source: IP, nLastSuccess: int,
                                 nAttempts: int)

  function Persist(info: Info): Persisted {
    Persisted(info.service, info.nServices, info.nTime, info.source, info.nLastSuccess, info.nAttempts)
  }

  /** An entry as reading it makes it: the memory-only fields have their defaults. */
  function Load(p: Persisted): Info {
    Info(p.service, p.nServices, p.nTime, p.source, 0, 0, p.nLastSuccess, p.nAttempts, 0, false, -1)
  }

  /** XOR with 2^30 on a 32-bit int: bit 30 is flipped. */
  function FlipBit30(n: int): int {
    if (n / 0x4000_0000) % 2 == 0 then n + 0x4000_0000 else n - 0x4000_0000
  }

  /** The stream: header fields, then the entries, then the bucket section as one run of integers. */
  datatype Stream = Stream(nVersion: nat, nKeySize: nat, nKey: nat, nNew: int, nTried: int, nUBuckets: int,
                           infos: seq<Persisted>, refs: seq<int>)

  // ---------------------------------------------------------------------------------------------
  // What is written
  // ---------------------------------------------------------------------------------------------

  /** The ids in `rest` with references, ascending: the order in which a std::map yields them. */
  ghost function NewOrder(mi: Entries, rest: set<int>): seq<int>
    requires rest <= mi.Keys
    decreases |rest|
  {
    if rest == {} then []
    else
      var m := MinOf(rest);
      (if mi[m].nRefCount != 0 then [m] else []) + NewOrder(mi, rest - {m})
  }

  ghost function TriedOrder(mi: Entries, rest: set<int>): seq<int>
    requires rest <= mi.Keys
    decreases |rest|
  {
    if rest == {} then []
    else
      var m := MinOf(rest);
      (if mi[m].fInTried then [m] else []) + TriedOrder(mi, rest - {m})
  }

  ghost predicate AllKnown(mi: Entries, ids: seq<int>) {
    forall i :: 0 <= i < |ids| ==> ids[i] in mi
  }

  ghost function PersistAll(mi: Entries, ids: seq<int>): seq<Persisted>
    requires AllKnown(mi, ids)
  {
    seq(|ids|, i requires 0 <= i < |ids| => Persist(mi[ids[i]]))
  }

  ghost function IndexOf(ids: seq<int>, id: int): (r: int)
    ensures 0 <= r <= |ids| && (r < |ids| ==> ids[r] == id) && (id in ids ==> r < |ids|)
  {
    if ids == [] then 0 else if ids[0] == id then 0 else 1 + IndexOf(ids[1..], id)
  }

  /** The references of one bucket from position `p` on, as indexes into the written order. */
  ghost function BucketRefs(v: Table, order: seq<int>, b: nat, p: nat): seq<int>
    requires p <= BUCKET_SIZE
    decreases BUCKET_SIZE - p
  {
    if p == BUCKET_SIZE then []
    else (if At(v, Cell(b, p)) != -1 then [IndexOf(order, At(v, Cell(b, p)))] else []) + BucketRefs(v, order, b, p + 1)
  }

  /** The bucket section from bucket `b` on: for each bucket its size and its references. */
  ghost function AllRefs(v: Table, order: seq<int>, b: nat): seq<int>
    requires b <= NEW_BUCKET_COUNT
    decreases NEW_BUCKET_COUNT - b
  {
    if b == NEW_BUCKET_COUNT then []
    else [|BucketRefs(v, order, b, 0)|] + BucketRefs(v, order, b, 0) + AllRefs(v, order, b + 1)
  }

  /** What Serialize writes for a state. */
  ghost function Serialized(s: State): Stream {
    var a, t := NewOrder(s.mapInfo, s.mapInfo.Keys), TriedOrder(s.mapInfo, s.mapInfo.Keys);
    NewOrderOk(s.mapInfo, s.mapInfo.Keys);
    TriedOrderOk(s.mapInfo, s.mapInfo.Keys);
    Stream(1, 32, s.nKey, s.nNew, s.nTried, FlipBit30(NEW_BUCKET_COUNT),
           PersistAll(s.mapInfo, a) + PersistAll(s.mapInfo, t), AllRefs(s.vNew, a, 0))
  }

  // ---------------------------------------------------------------------------------------------
  // The written order
  // ---------------------------------------------------------------------------------------------

  ghost predicate Distinct(ids: seq<int>) {
    forall i, j :: 0 <= i < j < |ids| ==> ids[i] != ids[j]
  }

  lemma {:induction false} NewOrderOk(mi: Entries, rest: set<int>)
    requires rest <= mi.Keys
    ensures forall x :: x in NewOrder(mi, rest) <==> x in rest && mi[x].nRefCount != 0
    ensures Distinct(NewOrder(mi, rest)) && AllKnown(mi, NewOrder(mi, rest))
    decreases |rest|
  {
    if rest != {} {
      var m := MinOf(rest);
      NewOrderOk(mi, rest - {m});
      var tail := NewOrder(mi, rest - {m});
      assert m !in tail;
      forall x ensures x in NewOrder(mi, rest) <==> x in rest && mi[x].nRefCount != 0 {
        assert x in tail <==> x in rest - {m} && mi[x].nRefCount != 0;
      }
      ConsDistinct(m, tail);
      ConsKnown(mi, m, tail);
    }
  }

  lemma {:induction false} TriedOrderOk(mi: Entries, rest: set<int>)
    requires rest <= mi.Keys
    ensures forall x :: x in TriedOrder(mi, rest) <==> x in rest && mi[x].fInTried
    ensures Distinct(TriedOrder(mi, rest)) && AllKnown(mi, TriedOrder(mi, rest))
    decreases |rest|
  {
    if rest != {} {
      var m := MinOf(rest);
      TriedOrderOk(mi, rest - {m});
      var tail := TriedOrder(mi, rest - {m});
      assert m !in tail;
      forall x ensures x in TriedOrder(mi, rest) <==> x in rest && mi[x].fInTried {
        assert x in tail <==> x in rest - {m} && mi[x].fInTried;
      }
      ConsDistinct(m, tail);
      ConsKnown(mi, m, tail);
    }
  }

  lemma ConsKnown(mi: Entries, m: int, tail: seq<int>)
    requires m in mi && AllKnown(mi, tail)
    ensures AllKnown(mi, [m] + tail) && AllKnown(mi, [] + tail)
  {
    assert [] + tail == tail;
  }

  lemma ConsDistinct(m: int, tail: seq<int>)
    requires m !in tail && Distinct(tail)
    ensures Distinct([m] + tail) && Distinct([] + tail)
  {
    assert [] + tail == tail;
    var s := [m] + tail;
    forall i, j | 0 <= i < j < |s| ensures s[i] != s[j] {
      assert s[j] == tail[j - 1];
      if i > 0 { assert s[i] == tail[i - 1]; }
    }
  }

  lemma {:induction false} DistinctCount(ids: seq<int>, all: set<int>)
    requires Distinct(ids) && forall x :: x in ids <==> x in all
    ensures |ids| == |all|
    decreases |ids|
  {
    if ids == [] {
      if all != {} { var x := SomeElement(all); }
    } else {
      var n := |ids| - 1;
      var init := ids[..n];
      assert ids == init + [ids[n]];
      forall x ensures x in init <==> x in all - {ids[n]} {
        if x in init { assert x in ids; }
      }
      DistinctCount(init, all - {ids[n]});
    }
  }

  lemma {:induction false} IndexOfDistinct(ids: seq<int>, i: nat)
    requires Distinct(ids) && i < |ids|
    ensures IndexOf(ids, ids[i]) == i
  {
    if i > 0 {
      assert ids[0] != ids[i];
      IndexOfDistinct(ids[1..], i - 1);
    }
  }

  // ---------------------------------------------------------------------------------------------
  // Reading back.  `ids` lists the written ids, the `nA` new ones first: reading gives ids[x] the id x.
  // ---------------------------------------------------------------------------------------------

  ghost predicate SameEntry(a: Info, b: Info, tried: bool) {
    Persist(a) == Persist(b) && a.fInTried == tried
  }

  /** The first `m` written entries are there, under their new ids. */
  ghost predicate Loaded(mi: Entries, ids: seq<int>, nA: nat, m: nat, mi': Entries) {
    && m <= |ids| && (forall x :: x in mi' <==> 0 <= x < m)
    && forall x :: 0 <= x < m ==> ids[x] in mi && SameEntry(mi'[x], mi[ids[x]], x >= nA)
  }

  ghost predicate IsBelow(x: int, n: int) { 0 <= x < n }

  ghost function Upto(n: int): set<int> { set x | 0 <= x < n && IsBelow(x, n) }

  /** Every written id is known, none is written twice, and the new ones come first. */
  ghost predicate Written(h: Hashes, s: State, ids: seq<int>, nA: nat) {
    && Consistent(h, s) && Distinct(ids) && AllKnown(s.mapInfo, ids) && nA <= |ids|
    && forall x :: 0 <= x < |ids| ==> s.mapInfo[ids[x]].fInTried == (x >= nA)
  }

  /** Two written ids have different addresses. */
  lemma DifferentIps(h: Hashes, s: State, ids: seq<int>, nA: nat, i: nat, j: nat)
    requires Written(h, s, ids, nA) && i < j < |ids|
    ensures ids[i] in s.mapInfo && ids[j] in s.mapInfo && s.mapInfo[ids[i]].service.ip != s.mapInfo[ids[j]].service.ip
  {
    hide RandomOk, IdsOk, TriedOk, NewOk, RefsOk, CountsOk, EntriesOk, CollisionsOk;
    var a: int, b: int := ids[i], ids[j];
    assert a in s.mapInfo && b in s.mapInfo && a != b;
  }

  lemma NextIpUnknown(h: Hashes, s: State, ids: seq<int>, nA: nat, r: State, n: nat)
    requires Written(h, s, ids, nA) && n < |ids| && ids[n] in s.mapInfo
    requires Loaded(s.mapInfo, ids, nA, n, r.mapInfo) && AddrOk(r.mapInfo, r.mapAddr)
    ensures s.mapInfo[ids[n]].service.ip !in r.mapAddr
  {
    hide Written, Consistent;
    var ip := s.mapInfo[ids[n]].service.ip;
    if ip in r.mapAddr {
      var x: int := r.mapAddr[ip];
      assert x in r.mapInfo && SameEntry(r.mapInfo[x], s.mapInfo[ids[x]], x >= nA);
      DifferentIps(h, s, ids, nA, x, n);
    }
  }

  /** Reading one entry of the new table. */
  lemma ReadNewStep(h: Hashes, s: State, ids: seq<int>, nA: nat, v: State, n: nat)
    requires Written(h, s, ids, nA) && n < nA && ids[n] in s.mapInfo
    requires Inv(h, v, {}, Upto(n)) && v.nIdCount == n && Loaded(s.mapInfo, ids, nA, n, v.mapInfo)
    ensures var v' := Created(v, Load(Persist(s.mapInfo[ids[n]])));
            Inv(h, v', {}, Upto(n + 1)) && Loaded(s.mapInfo, ids, nA, n + 1, v'.mapInfo)
  {
    hide RandomOk, AddrOk, IdsOk, TriedOk, NewOk, RefsOk, CountsOk, EntriesOk, CollisionsOk;
    NextIpUnknown(h, s, ids, nA, v, n);
    var info := Load(Persist(s.mapInfo[ids[n]]));
    RefCountOf(h, s, ids[n]);
    CreatedKeeps(h, v, info, Upto(n));
    assert Upto(n) + {n as int} == Upto(n + 1);
    assert SameEntry(info.(nRandomPos := |v.vRandom|), s.mapInfo[ids[n]], n >= nA);
  }

  /** An entry just created can be seen as on its way to the tried table. */
  lemma OrphanToLimbo(h: Hashes, s: State, id: int, orphans: set<int>)
    requires Inv(h, s, {}, orphans + {id}) && id !in orphans && id in s.mapInfo
    requires !s.mapInfo[id].fInTried && s.mapInfo[id].nRefCount == 0
    ensures Inv(h, s.(nNew := s.nNew - 1), {id}, orphans)
  {
    hide RandomOk, AddrOk, IdsOk, TriedOk, NewOk, RefsOk, EntryOk;
    forall x | x in s.mapInfo ensures EntryOk(s.mapInfo[x], x in {id}, x in orphans) {
      OrphanEntry(s.mapInfo, id, orphans, x);
    }
    assert NewIds(s.mapInfo) - {} == NewIds(s.mapInfo) && id in NewIds(s.mapInfo);
  }

  lemma OrphanEntry(mi: Entries, id: int, orphans: set<int>, x: int)
    requires EntriesOk(mi, {}, orphans + {id}) && id !in orphans && id in mi && x in mi
    requires !mi[id].fInTried && mi[id].nRefCount == 0
    ensures EntryOk(mi[x], x in {id}, x in orphans)
  {
    assert EntryOk(mi[x], x in {}, x in orphans + {id});
  }

  /** The state after one entry of the tried table has been read. */
  ghost function TriedAdded(h: Hashes, v: State, info: Info): State {
    var v1 := Created(v, info);
    PlaceTried(h, v1.(nNew := v1.nNew - 1), v.nIdCount)
  }

  /** Reading one entry of the tried table: its cell is free, so nothing is lost. */
  lemma ReadTriedStep(h: Hashes, s: State, ids: seq<int>, nA: nat, v: State, m: nat)
    requires Written(h, s, ids, nA) && nA <= m < |ids| && ids[m] in s.mapInfo
    requires Inv(h, v, {}, Upto(nA)) && v.nIdCount == m && v.nKey == s.nKey && Loaded(s.mapInfo, ids, nA, m, v.mapInfo)
    ensures At(v.tried, TriedCell(h, s.nKey, s.mapInfo[ids[m]].service)) == -1
    ensures var v' := TriedAdded(h, v, Load(Persist(s.mapInfo[ids[m]])));
            Inv(h, v', {}, Upto(nA)) && Loaded(s.mapInfo, ids, nA, m + 1, v'.mapInfo)
  {
    hide RandomOk, AddrOk, IdsOk, TriedOk, NewOk, RefsOk, CountsOk, EntriesOk, CollisionsOk, TriedCell;
    NextIpUnknown(h, s, ids, nA, v, m);
    NextCellFree(h, s, ids, nA, v, m);
    var info := Load(Persist(s.mapInfo[ids[m]]));
    RefCountOf(h, s, ids[m]);
    CreatedKeeps(h, v, info, Upto(nA));
    var v1 := Created(v, info);
    OrphanToLimbo(h, v1, m, Upto(nA));
    PlaceTriedKeeps(h, v1.(nNew := v1.nNew - 1), m, Upto(nA));
    assert SameEntry(info.(nRandomPos := |v.vRandom|, fInTried := true), s.mapInfo[ids[m]], m >= nA);
  }

  /** Two written tried entries have different tried cells. */
  lemma DifferentCells(h: Hashes, s: State, ids: seq<int>, nA: nat, i: nat, j: nat)
    requires Written(h, s, ids, nA) && nA <= i < j < |ids|
    ensures ids[i] in s.mapInfo && ids[j] in s.mapInfo
    ensures TriedCell(h, s.nKey, s.mapInfo[ids[i]].service) != TriedCell(h, s.nKey, s.mapInfo[ids[j]].service)
  {
    hide RandomOk, AddrOk, IdsOk, NewOk, RefsOk, CountsOk, EntriesOk, CollisionsOk, TriedCell;
    var a: int, b: int := ids[i], ids[j];
    assert a in s.mapInfo && b in s.mapInfo && a != b && s.mapInfo[a].fInTried && s.mapInfo[b].fInTried;
    assert At(s.tried, TriedCell(h, s.nKey, s.mapInfo[a].service)) == a;
    assert At(s.tried, TriedCell(h, s.nKey, s.mapInfo[b].service)) == b;
  }

  lemma NextCellFree(h: Hashes, s: State, ids: seq<int>, nA: nat, v: State, m: nat)
    requires Written(h, s, ids, nA) && nA <= m < |ids| && ids[m] in s.mapInfo
    requires TriedOk(h, v.nKey, v.mapInfo, v.tried) && v.nKey == s.nKey && Loaded(s.mapInfo, ids, nA, m, v.mapInfo)
    ensures At(v.tried, TriedCell(h, s.nKey, s.mapInfo[ids[m]].service)) == -1
  {
    hide Written, Consistent, TriedCell;
    var c := TriedCell(h, s.nKey, s.mapInfo[ids[m]].service);
    var x := At(v.tried, c);
    if x != -1 {
      assert TriedHolds(h, v.nKey, v.mapInfo, x, c);
      assert SameEntry(v.mapInfo[x], s.mapInfo[ids[x]], x >= nA);
      DifferentCells(h, s, ids, nA, x, m);
    }
  }

  // The bucket section.  Reading has come to position `p` of bucket `b`.

  /** The cell comes before position `p` of bucket `b`. */
  predicate Before(c: Cell, b: nat, p: nat) { c.bucket < b || (c.bucket == b && c.pos < p) }

  /** The id `x` stands for the written id `id`. */
  ghost predicate StandsFor(ids: seq<int>, x: int, id: int) {
    if id == -1 then x == -1 else 0 <= x < |ids| && ids[x] == id
  }

  ghost predicate RefsRead(h: Hashes, s: State, ids: seq<int>, nA: nat, r: State, b: nat, p: nat) {
    && Inv(h, r, {}, Upto(nA)) && r.nKey == s.nKey && Loaded(s.mapInfo, ids, nA, |ids|, r.mapInfo)
    && forall c :: StandsFor(ids, At(r.vNew, c), if Before(c, b, p) then At(s.vNew, c) else -1)
  }

  /** All ids are written. */
  ghost predicate Complete(s: State, ids: seq<int>) {
    forall id :: id in s.mapInfo ==> id in ids
  }

  lemma CellEntry(h: Hashes, s: State, ids: seq<int>, nA: nat, c: Cell)
    requires Written(h, s, ids, nA) && Complete(s, ids) && At(s.vNew, c) != -1
    ensures var id, x := At(s.vNew, c), IndexOf(ids[..nA], At(s.vNew, c));
            && id in s.mapInfo && 0 <= x < nA && ids[x] == id
            && c.bucket < NEW_BUCKET_COUNT && c == NewCell(h, s.nKey, s.mapInfo[id].service, c.bucket)
  {
    hide RandomOk, AddrOk, IdsOk, TriedOk, RefsOk, CountsOk, EntriesOk, CollisionsOk, NewCell;
    var id := At(s.vNew, c);
    assert NewHolds(h, s.nKey, s.mapInfo, id, c);
    var i :| 0 <= i < |ids| && ids[i] == id;
    assert id in ids[..nA] by { assert ids[..nA][i] == id; }
  }

  /** A reference the written state had in this bucket but reading has not restored yet leaves room. */
  lemma RoomForRef(h: Hashes, s: State, ids: seq<int>, nA: nat, r: State, b: nat, p: nat, x: int)
    requires Written(h, s, ids, nA) && RefsRead(h, s, ids, nA, r, b, p) && b < NEW_BUCKET_COUNT && 0 <= x < |ids|
    requires At(s.vNew, Cell(b, p)) == ids[x] && ids[x] in s.mapInfo && x in r.mapInfo
    requires Cell(b, p) == NewCell(h, s.nKey, s.mapInfo[ids[x]].service, b)
    ensures r.mapInfo[x].nRefCount < NEW_BUCKETS_PER_ADDRESS
  {
    hide RandomOk, AddrOk, IdsOk, TriedOk, NewOk, CountsOk, EntriesOk, CollisionsOk, NewCell;
    RefCountOf(h, s, ids[x]);
    var svc := s.mapInfo[ids[x]].service;
    assert SameEntry(r.mapInfo[x], s.mapInfo[ids[x]], x >= nA);
    var mine, theirs := Buckets(h, s.nKey, r.vNew, svc, x), Buckets(h, s.nKey, s.vNew, svc, ids[x]);
    assert b in theirs;
    forall k | k in mine ensures k in theirs - {b} {
      var c := NewCell(h, s.nKey, svc, k);
      assert StandsFor(ids, At(r.vNew, c), if Before(c, b, p) then At(s.vNew, c) else -1);
    }
    SubsetSize(mine, theirs - {b});
  }

  /** Reading the reference of a filled cell puts it back. */
  lemma ReadRefStep(h: Hashes, s: State, ids: seq<int>, nA: nat, r: State, b: nat, p: nat)
    requires Written(h, s, ids, nA) && Complete(s, ids) && RefsRead(h, s, ids, nA, r, b, p)
    requires b < NEW_BUCKET_COUNT && p < BUCKET_SIZE && At(s.vNew, Cell(b, p)) != -1
    ensures var x, c := IndexOf(ids[..nA], At(s.vNew, Cell(b, p))), Cell(b, p);
            && 0 <= x < nA && x in r.mapInfo && c == NewCell(h, s.nKey, r.mapInfo[x].service, b)
            && At(r.vNew, c) == -1 && r.mapInfo[x].nRefCount < NEW_BUCKETS_PER_ADDRESS
            && RefsRead(h, s, ids, nA, PutNew(r, x, c), b, p + 1)
  {
    hide RandomOk, AddrOk, IdsOk, TriedOk, NewOk, RefsOk, CountsOk, EntriesOk, CollisionsOk, NewCell, Consistent;
    var x, c := IndexOf(ids[..nA], At(s.vNew, Cell(b, p))), Cell(b, p);
    CellEntry(h, s, ids, nA, c);
    assert x in r.mapInfo && SameEntry(r.mapInfo[x], s.mapInfo[ids[x]], x >= nA);
    RoomForRef(h, s, ids, nA, r, b, p, x);
    assert StandsFor(ids, At(r.vNew, c), if Before(c, b, p) then At(s.vNew, c) else -1);
    PutNewOrphan(h, r, x, c, Upto(nA));
    var r' := PutNew(r, x, c);
    KeepOrphans(h, r', Upto(nA) - {x}, Upto(nA));
    AtWrite(r.vNew, c, x);
    assert Loaded(s.mapInfo, ids, nA, |ids|, r'.mapInfo);
    forall d ensures StandsFor(ids, At(r'.vNew, d), if Before(d, b, p + 1) then At(s.vNew, d) else -1) {
      assert At(r'.vNew, d) == if d == c then x else At(r.vNew, d);
      assert StandsFor(ids, At(r.vNew, d), if Before(d, b, p) then At(s.vNew, d) else -1);
    }
  }

  lemma KeepOrphans(h: Hashes, s: State, orphans: set<int>, more: set<int>)
    requires Inv(h, s, {}, orphans) && orphans <= more
    ensures Inv(h, s, {}, more)
  {
    hide RandomOk, AddrOk, IdsOk, TriedOk, NewOk, RefsOk, CountsOk;
    forall x | x in s.mapInfo ensures EntryOk(s.mapInfo[x], x in {}, x in more) {
      assert EntryOk(s.mapInfo[x], x in {}, x in orphans);
    }
  }

  /** An empty cell was not written. */
  lemma ReadRefSkip(h: Hashes, s: State, ids: seq<int>, nA: nat, r: State, b: nat, p: nat)
    requires RefsRead(h, s, ids, nA, r, b, p) && At(s.vNew, Cell(b, p)) == -1
    ensures RefsRead(h, s, ids, nA, r, b, p + 1)
  {
    hide Inv, Loaded;
    forall d ensures StandsFor(ids, At(r.vNew, d), if Before(d, b, p + 1) then At(s.vNew, d) else -1) {
      assert StandsFor(ids, At(r.vNew, d), if Before(d, b, p) then At(s.vNew, d) else -1);
    }
  }

  /** The end of a bucket is the start of the next. */
  lemma ReadRefNextBucket(h: Hashes, s: State, ids: seq<int>, nA: nat, r: State, b: nat)
    requires Written(h, s, ids, nA) && RefsRead(h, s, ids, nA, r, b, BUCKET_SIZE)
    ensures RefsRead(h, s, ids, nA, r, b + 1, 0)
  {
    hide RandomOk, AddrOk, IdsOk, TriedOk, RefsOk, CountsOk, EntriesOk, CollisionsOk, Loaded;
    forall d ensures StandsFor(ids, At(r.vNew, d), if Before(d, b + 1, 0) then At(s.vNew, d) else -1) {
      assert StandsFor(ids, At(r.vNew, d), if Before(d, b, BUCKET_SIZE) then At(s.vNew, d) else -1);
      if d.bucket == b && At(s.vNew, d) != -1 { assert NewHolds(h, s.nKey, s.mapInfo, At(s.vNew, d), d); }
    }
  }

  // ---------------------------------------------------------------------------------------------
  // What is the same in the end
  // ---------------------------------------------------------------------------------------------

  /** Up to the renaming of ids[x] to x: the same entries with the same persisted fields and reference counts,
      in the same cells of both tables, under the same key. */
  ghost predicate Restored(s: State, s': State, ids: seq<int>, nA: nat) {
    && s'.nKey == s.nKey && s'.nNew == s.nNew && s'.nTried == s.nTried
    && Distinct(ids) && Complete(s, ids) && AllKnown(s.mapInfo, ids)
    && Loaded(s.mapInfo, ids, nA, |ids|, s'.mapInfo)
    && (forall x :: 0 <= x < |ids| ==>
        ids[x] in s.mapInfo && x in s'.mapInfo && s'.mapInfo[x].nRefCount == s.mapInfo[ids[x]].nRefCount)
    && (forall c :: StandsFor(ids, At(s'.vNew, c), At(s.vNew, c)))
    && (forall c :: StandsFor(ids, At(s'.tried, c), At(s.tried, c)))
  }

  lemma RefCountsRestored(h: Hashes, s: State, ids: seq<int>, nA: nat, r: State, x: int)
    requires Written(h, s, ids, nA) && RefsRead(h, s, ids, nA, r, NEW_BUCKET_COUNT, 0) && 0 <= x < |ids|
    ensures ids[x] in s.mapInfo && x in r.mapInfo && r.mapInfo[x].nRefCount == s.mapInfo[ids[x]].nRefCount
  {
    hide RandomOk, AddrOk, IdsOk, TriedOk, NewOk, CountsOk, EntriesOk, CollisionsOk, Position;
    var id: int := ids[x];
    assert id in s.mapInfo;
    RefCountOf(h, s, id);
    assert SameEntry(r.mapInfo[x], s.mapInfo[id], x >= nA);
    var svc := s.mapInfo[id].service;
    var mine, theirs := Buckets(h, s.nKey, r.vNew, svc, x), Buckets(h, s.nKey, s.vNew, svc, id);
    forall k: nat | k < NEW_BUCKET_COUNT
      ensures At(r.vNew, NewCell(h, s.nKey, svc, k)) == x <==> At(s.vNew, NewCell(h, s.nKey, svc, k)) == id
    {
      SameCellSameId(h, s, ids, nA, r, NewCell(h, s.nKey, svc, k), x);
    }
    assert mine == theirs;
  }

  lemma SameCellSameId(h: Hashes, s: State, ids: seq<int>, nA: nat, r: State, c: Cell, x: int)
    requires Written(h, s, ids, nA) && RefsRead(h, s, ids, nA, r, NEW_BUCKET_COUNT, 0) && 0 <= x < |ids|
    requires c.bucket < NEW_BUCKET_COUNT
    ensures At(r.vNew, c) == x <==> At(s.vNew, c) == ids[x]
  {
    hide RandomOk, AddrOk, TriedOk, NewOk, RefsOk, CountsOk, EntriesOk, CollisionsOk;
    assert StandsFor(ids, At(r.vNew, c), if Before(c, NEW_BUCKET_COUNT, 0) then At(s.vNew, c) else -1);
    var id: int := ids[x];
    assert id in s.mapInfo && id != -1;
  }

  lemma TriedRestored(h: Hashes, s: State, ids: seq<int>, nA: nat, r: State, c: Cell)
    requires Written(h, s, ids, nA) && Complete(s, ids) && TriedOk(h, r.nKey, r.mapInfo, r.tried) && r.nKey == s.nKey
    requires Loaded(s.mapInfo, ids, nA, |ids|, r.mapInfo)
    ensures StandsFor(ids, At(r.tried, c), At(s.tried, c))
  {
    hide RandomOk, AddrOk, IdsOk, NewOk, RefsOk, CountsOk, EntriesOk, CollisionsOk, TriedCell;
    var x, id := At(r.tried, c), At(s.tried, c);
    if id != -1 {
      assert TriedHolds(h, s.nKey, s.mapInfo, id, c);
      var i :| 0 <= i < |ids| && ids[i] == id;
      assert i in r.mapInfo && SameEntry(r.mapInfo[i], s.mapInfo[ids[i]], i >= nA);
      assert At(r.tried, TriedCell(h, r.nKey, r.mapInfo[i].service)) == i;
    } else if x != -1 {
      assert TriedHolds(h, r.nKey, r.mapInfo, x, c);
      var a: int := ids[x];
      assert a in s.mapInfo && SameEntry(r.mapInfo[x], s.mapInfo[a], x >= nA);
      TriedEntryCell(h, s, a);
    }
  }

  lemma TriedEntryCell(h: Hashes, s: State, id: int)
    requires Inv(h, s, {}, {}) && id in s.mapInfo && s.mapInfo[id].fInTried
    ensures At(s.tried, TriedCell(h, s.nKey, s.mapInfo[id].service)) == id && id != -1
  {
    hide RandomOk, AddrOk, NewOk, RefsOk, CountsOk, EntriesOk, TriedCell;
  }

  /** When everything is read nothing is missing, no entry is without a reference, and the manager is
      consistent again. */
  lemma ReadDone(h: Hashes, s: State, ids: seq<int>, nA: nat, r: State)
    requires Written(h, s, ids, nA) && Complete(s, ids) && RefsRead(h, s, ids, nA, r, NEW_BUCKET_COUNT, 0)
    requires r.nNew == s.nNew && r.nTried == s.nTried
    ensures Inv(h, r, {}, {}) && Restored(s, r, ids, nA)
    ensures forall x :: x in r.mapInfo ==> r.mapInfo[x].fInTried || r.mapInfo[x].nRefCount != 0
  {
    hide RandomOk, AddrOk, IdsOk, TriedOk, NewOk, RefsOk, CountsOk, EntriesOk, CollisionsOk;
    forall x | 0 <= x < |ids|
      ensures ids[x] in s.mapInfo && x in r.mapInfo && r.mapInfo[x].nRefCount == s.mapInfo[ids[x]].nRefCount
    {
      RefCountsRestored(h, s, ids, nA, r, x);
    }
    forall c ensures StandsFor(ids, At(r.vNew, c), At(s.vNew, c)) {
      assert StandsFor(ids, At(r.vNew, c), if Before(c, NEW_BUCKET_COUNT, 0) then At(s.vNew, c) else -1);
      BeyondTable(h, s, c);
    }
    forall c ensures StandsFor(ids, At(r.tried, c), At(s.tried, c)) { TriedRestored(h, s, ids, nA, r, c); }
    forall x | x in r.mapInfo ensures r.mapInfo[x].fInTried || r.mapInfo[x].nRefCount >= 1 {
      assert SameEntry(r.mapInfo[x], s.mapInfo[ids[x]], x >= nA);
      RefCountOf(h, s, ids[x]);
    }
    NoOrphansLeft(h, r, Upto(nA));
  }

  lemma NoCollisions(h: Hashes, s: State)
    requires s.collisions == {}
    ensures CollisionsOk(h, s)
  {}

  lemma BeyondTable(h: Hashes, s: State, c: Cell)
    requires Inv(h, s, {}, {})
    ensures At(s.vNew, c) != -1 ==> c.bucket < NEW_BUCKET_COUNT
  {
    hide RandomOk, AddrOk, IdsOk, TriedOk, RefsOk, CountsOk, EntriesOk, NewCell;
    if At(s.vNew, c) != -1 { assert NewHolds(h, s.nKey, s.mapInfo, At(s.vNew, c), c); }
  }

  lemma NoOrphansLeft(h: Hashes, s: State, orphans: set<int>)
    requires Inv(h, s, {}, orphans) && forall x :: x in s.mapInfo ==>
               s.mapInfo[x].fInTried || s.mapInfo[x].nRefCount >= 1
    ensures Inv(h, s, {}, {})
  {
    hide RandomOk, AddrOk, IdsOk, TriedOk, NewOk, RefsOk, CountsOk;
    forall x | x in s.mapInfo ensures EntryOk(s.mapInfo[x], x in {}, x in {}) {
      assert EntryOk(s.mapInfo[x], x in {}, x in orphans);
    }
  }

  // ---------------------------------------------------------------------------------------------
  // A written state meets what reading asks for
  // ---------------------------------------------------------------------------------------------

  lemma {:induction false} InjectInto(ids: set<int>, f: map<int, int>, n: nat)
    requires forall x :: x in ids ==> x in f && 0 <= f[x] < n
    requires forall x, y :: x in ids && y in ids && x != y ==> f[x] != f[y]
    ensures |ids| <= n
    decreases n
  {
    if ids != {} {
      var z := SomeElement(ids);
      if x :| x in ids && f[x] == n - 1 {
        InjectInto(ids - {x}, f, n - 1);
      } else {
        InjectInto(ids, f, n - 1);
      }
    }
  }

  ghost function Code(c: Cell): int { c.bucket * BUCKET_SIZE + c.pos }

  lemma CodeInjective(c: Cell, d: Cell)
    requires c.pos < BUCKET_SIZE && d.pos < BUCKET_SIZE && Code(c) == Code(d)
    ensures c == d
  {}

  /** A cell of the new table that holds the id. */
  ghost function SomeCell(h: Hashes, s: State, id: int): (c: Cell)
    requires Inv(h, s, {}, {}) && id in NewIds(s.mapInfo)
    ensures At(s.vNew, c) == id && c.bucket < NEW_BUCKET_COUNT && c.pos < BUCKET_SIZE
  {
    RefCountOf(h, s, id);
    assert Buckets(h, s.nKey, s.vNew, s.mapInfo[id].service, id) != {};
    var b: nat :| b in Buckets(h, s.nKey, s.vNew, s.mapInfo[id].service, id);
    NewCell(h, s.nKey, s.mapInfo[id].service, b)
  }

  /** The counters never exceed the number of cells, so reading never rejects what was written. */
  lemma CountsFit(h: Hashes, s: State)
    requires Inv(h, s, {}, {})
    ensures 0 <= s.nNew <= NEW_BUCKET_COUNT * BUCKET_SIZE && 0 <= s.nTried <= TRIED_BUCKET_COUNT * BUCKET_SIZE
  {
    hide RandomOk, AddrOk, IdsOk, TriedOk, NewOk, RefsOk, EntriesOk, SomeCell, Position, TriedBucket, Code;
    var news := NewIds(s.mapInfo);
    assert news - {} == news;
    var f: map<int, int> := map id | id in news :: Code(SomeCell(h, s, id));
    forall x, y | x in news && y in news && x != y ensures f[x] != f[y] {
      if f[x] == f[y] { CodeInjective(SomeCell(h, s, x), SomeCell(h, s, y)); }
    }
    forall x | x in news
      ensures x in f && 0 <= f[x] < NEW_BUCKET_COUNT * BUCKET_SIZE
    {
      CodeRange(SomeCell(h, s, x), NEW_BUCKET_COUNT);
    }
    InjectInto(news, f, NEW_BUCKET_COUNT * BUCKET_SIZE);
    var trieds := TriedIds(s.mapInfo);
    var g: map<int, int> := map id | id in trieds :: Code(TriedCell(h, s.nKey, s.mapInfo[id].service));
    forall x | x in trieds ensures x in g && 0 <= g[x] < TRIED_BUCKET_COUNT * BUCKET_SIZE {
      TriedCellRange(h, s.nKey, s.mapInfo[x].service);
      CodeRange(TriedCell(h, s.nKey, s.mapInfo[x].service), TRIED_BUCKET_COUNT);
    }
    forall x, y | x in trieds && y in trieds && x != y ensures g[x] != g[y] {
      TriedEntryCell(h, s, x);
      TriedEntryCell(h, s, y);
      TriedCellRange(h, s.nKey, s.mapInfo[x].service);
      TriedCellRange(h, s.nKey, s.mapInfo[y].service);
      if g[x] == g[y] {
        CodeInjective(TriedCell(h, s.nKey, s.mapInfo[x].service), TriedCell(h, s.nKey, s.mapInfo[y].service));
      }
    }
    InjectInto(trieds, g, TRIED_BUCKET_COUNT * BUCKET_SIZE);
  }

  lemma CodeRange(c: Cell, buckets: nat)
    requires c.bucket < buckets && c.pos < BUCKET_SIZE
    ensures 0 <= Code(c) < buckets * BUCKET_SIZE
  {}

  lemma TriedCellRange(h: Hashes, key: nat, svc: Service)
    ensures TriedCell(h, key, svc).bucket < TRIED_BUCKET_COUNT && TriedCell(h, key, svc).pos < BUCKET_SIZE
  {}

  /** The ids in the order they are written, and how many of them are new. */
  ghost function Order(s: State): seq<int> {
    NewOrder(s.mapInfo, s.mapInfo.Keys) + TriedOrder(s.mapInfo, s.mapInfo.Keys)
  }

  /** Listing the new ids and then the tried ones lists every id once. */
  lemma ConcatOrder(mi: Entries, a: seq<int>, t: seq<int>)
    requires Distinct(a) && Distinct(t) && AllKnown(mi, a) && AllKnown(mi, t)
    requires (forall x :: x in a <==> x in NewIds(mi)) && (forall x :: x in t <==> x in TriedIds(mi))
    ensures Distinct(a + t) && AllKnown(mi, a + t) && (forall id :: id in mi ==> id in a + t)
    ensures forall i :: 0 <= i < |a + t| ==> mi[(a + t)[i]].fInTried == (i >= |a|)
    ensures PersistAll(mi, a) + PersistAll(mi, t) == PersistAll(mi, a + t)
  {
    var ids := a + t;
    forall i | 0 <= i < |ids| ensures ids[i] in mi && mi[ids[i]].fInTried == (i >= |a|) {
      var x: int := ids[i];
      if i < |a| {
        assert x == a[i] && x in a && x in NewIds(mi);
      } else {
        assert x == t[i - |a|] && x in t && x in TriedIds(mi);
      }
    }
    forall i, j | 0 <= i < j < |ids| ensures ids[i] != ids[j] {
      if i < |a| <= j {
        assert a[i] in a && t[j - |a|] in t;
      } else if i >= |a| {
        assert ids[i] == t[i - |a|] && ids[j] == t[j - |a|];
      }
    }
    forall id | id in mi ensures id in ids {
      if mi[id].fInTried { assert id in TriedIds(mi) && id in t; } else { assert id in NewIds(mi) && id in a; }
    }
  }

  lemma NewOrderIsNewIds(h: Hashes, s: State)
    requires Inv(h, s, {}, {})
    ensures forall x :: x in NewOrder(s.mapInfo, s.mapInfo.Keys) <==> x in NewIds(s.mapInfo)
  {
    hide Inv, NewOrder;
    var mi := s.mapInfo;
    NewOrderOk(mi, mi.Keys);
    forall x ensures x in NewOrder(mi, mi.Keys) <==> x in NewIds(mi) {
      if x in mi {
        RefCountOf(h, s, x);
        TriedHasNoRefs(h, s, x);
      }
    }
  }

  lemma OrderWritten(h: Hashes, s: State)
    requires Consistent(h, s)
    ensures var ids, nA := Order(s), |NewOrder(s.mapInfo, s.mapInfo.Keys)|;
            && Written(h, s, ids, nA) && Complete(s, ids) && ids[..nA] == NewOrder(s.mapInfo, s.mapInfo.Keys)
            && nA == s.nNew && |ids| - nA == s.nTried
            && Serialized(s).infos == PersistAll(s.mapInfo, ids)
  {
    hide RandomOk, AddrOk, IdsOk, TriedOk, NewOk, RefsOk, EntriesOk, CollisionsOk, NewOrder, TriedOrder, NewIds,
         TriedIds, Distinct, AllKnown, PersistAll, AllRefs;
    var mi := s.mapInfo;
    var a, t := NewOrder(mi, mi.Keys), TriedOrder(mi, mi.Keys);
    NewOrderOk(mi, mi.Keys);
    TriedOrderOk(mi, mi.Keys);
    NewOrderIsNewIds(h, s);
    TriedOrderIsTriedIds(mi);
    ConcatOrder(mi, a, t);
    DistinctCount(a, NewIds(mi));
    DistinctCount(t, TriedIds(mi));
    assert NewIds(mi) - {} == NewIds(mi);
  }

  lemma TriedOrderIsTriedIds(mi: Entries)
    ensures forall x :: x in TriedOrder(mi, mi.Keys) <==> x in TriedIds(mi)
  {
    hide TriedOrder;
    TriedOrderOk(mi, mi.Keys);
  }

  lemma TriedHasNoRefs(h: Hashes, s: State, id: int)
    requires Inv(h, s, {}, {}) && id in s.mapInfo
    ensures s.mapInfo[id].fInTried ==> s.mapInfo[id].nRefCount == 0
  {
    hide RandomOk, AddrOk, IdsOk, CountsOk, EntriesOk;
    if s.mapInfo[id].fInTried {
      TriedEntryCell(h, s, id);
      EvictIndexes(h, s.nKey, s.mapInfo, s.mapAddr, s.nIdCount, s.tried, s.vNew,
                   TriedCell(h, s.nKey, s.mapInfo[id].service));
    }
  }

  // ---------------------------------------------------------------------------------------------
  // Facts for the loops of Serialize and Unserialize
  // ---------------------------------------------------------------------------------------------

  /** A stream that Serialize wrote for `s`. */
  ghost predicate WrittenFor(h: Hashes, s: State, st: Stream, ids: seq<int>, nA: nat) {
    && Written(h, s, ids, nA) && Complete(s, ids)
    && st.nVersion == 1 && st.nKeySize == 32 && st.nKey == s.nKey && st.nNew == s.nNew == nA
    && st.nTried == s.nTried == |ids| - nA
    && FlipBit30(st.nUBuckets) == NEW_BUCKET_COUNT
    && st.infos == PersistAll(s.mapInfo, ids) && st.refs == AllRefs(s.vNew, ids[..nA], 0)
  }

  lemma SerializedIsWritten(h: Hashes, s: State)
    requires Consistent(h, s)
    ensures WrittenFor(h, s, Serialized(s), Order(s), |NewOrder(s.mapInfo, s.mapInfo.Keys)|)
  {
    hide Consistent, NewOrder, TriedOrder, AllRefs, PersistAll, Written, Complete;
    OrderWritten(h, s);
  }

  /** Where the next reference of a bucket comes from: the first filled cell at or after `p`. */
  lemma {:induction false} NextFilled(v: Table, order: seq<int>, b: nat, p: nat) returns (q: nat)
    requires p <= BUCKET_SIZE && BucketRefs(v, order, b, p) != []
    ensures p <= q < BUCKET_SIZE && At(v, Cell(b, q)) != -1
    ensures forall k :: p <= k < q ==> At(v, Cell(b, k)) == -1
    ensures BucketRefs(v, order, b, p) == [IndexOf(order, At(v, Cell(b, q)))] + BucketRefs(v, order, b, q + 1)
    decreases BUCKET_SIZE - p
  {
    if At(v, Cell(b, p)) != -1 {
      q := p;
    } else {
      assert [] + BucketRefs(v, order, b, p + 1) == BucketRefs(v, order, b, p + 1);
      q := NextFilled(v, order, b, p + 1);
    }
  }

  /** With no reference left, the rest of the bucket is empty. */
  lemma {:induction false} NoneLeft(v: Table, order: seq<int>, b: nat, p: nat)
    requires p <= BUCKET_SIZE && BucketRefs(v, order, b, p) == []
    ensures forall k :: p <= k < BUCKET_SIZE ==> At(v, Cell(b, k)) == -1
    decreases BUCKET_SIZE - p
  {
    if p < BUCKET_SIZE {
      assert [] + BucketRefs(v, order, b, p + 1) == BucketRefs(v, order, b, p + 1);
      NoneLeft(v, order, b, p + 1);
    }
  }

  lemma {:induction false} SkipEmpty(h: Hashes, s: State, ids: seq<int>, nA: nat, r: State, b: nat, p: nat, q: nat)
    requires RefsRead(h, s, ids, nA, r, b, p) && p <= q && forall k :: p <= k < q ==> At(s.vNew, Cell(b, k)) == -1
    ensures RefsRead(h, s, ids, nA, r, b, q)
    decreases q - p
  {
    if p < q {
      hide RefsRead;
      assert At(s.vNew, Cell(b, p)) == -1;
      ReadRefSkip(h, s, ids, nA, r, b, p);
      SkipEmpty(h, s, ids, nA, r, b, p + 1, q);
    }
  }

  /** The reading of one reference, whatever empty cells come before it. */
  lemma ReadNextRef(h: Hashes, s: State, ids: seq<int>, nA: nat, r: State, b: nat, p: nat) returns (q: nat)
    requires Written(h, s, ids, nA) && Complete(s, ids) && RefsRead(h, s, ids, nA, r, b, p)
    requires b < NEW_BUCKET_COUNT && p <= BUCKET_SIZE && nA <= |ids| && BucketRefs(s.vNew, ids[..nA], b, p) != []
    ensures p <= q < BUCKET_SIZE
    ensures var x := BucketRefs(s.vNew, ids[..nA], b, p)[0];
            && BucketRefs(s.vNew, ids[..nA], b, p)[1..] == BucketRefs(s.vNew, ids[..nA], b, q + 1)
            && 0 <= x < nA && x in r.mapInfo && Cell(b, q) == NewCell(h, s.nKey, r.mapInfo[x].service, b)
            && At(r.vNew, Cell(b, q)) == -1 && r.mapInfo[x].nRefCount < NEW_BUCKETS_PER_ADDRESS
            && RefsRead(h, s, ids, nA, PutNew(r, x, Cell(b, q)), b, q + 1)
  {
    hide Written, Complete, RefsRead, PutNew, NewCell;
    q := NextFilled(s.vNew, ids[..nA], b, p);
    SkipEmpty(h, s, ids, nA, r, b, p, q);
    ReadRefStep(h, s, ids, nA, r, b, q);
  }

  /** The end of a bucket. */
  lemma ReadBucketEnd(h: Hashes, s: State, ids: seq<int>, nA: nat, r: State, b: nat, p: nat)
    requires Written(h, s, ids, nA) && RefsRead(h, s, ids, nA, r, b, p) && p <= BUCKET_SIZE
    requires nA <= |ids| && BucketRefs(s.vNew, ids[..nA], b, p) == []
    ensures RefsRead(h, s, ids, nA, r, b + 1, 0)
  {
    hide Written, RefsRead;
    NoneLeft(s.vNew, ids[..nA], b, p);
    SkipEmpty(h, s, ids, nA, r, b, p, BUCKET_SIZE);
    ReadRefNextBucket(h, s, ids, nA, r, b);
  }

  /** Before the bucket section: an empty new table. */
  lemma RefsReadStart(h: Hashes, s: State, ids: seq<int>, nA: nat, r: State)
    requires Inv(h, r, {}, Upto(nA)) && r.nKey == s.nKey && Loaded(s.mapInfo, ids, nA, |ids|, r.mapInfo)
    requires forall c :: At(r.vNew, c) == -1
    ensures RefsRead(h, s, ids, nA, r, 0, 0)
  {
    hide Inv, Loaded;
    forall c ensures StandsFor(ids, At(r.vNew, c), if Before(c, 0, 0) then At(s.vNew, c) else -1) {}
  }

  // ---------------------------------------------------------------------------------------------
  // Any stream
  // ---------------------------------------------------------------------------------------------

  /** No address is listed twice, the counters are not negative, and the success times are those of entries that
      Check_ accepts.  Nothing is asked of the version, the bucket count or the references. */
  ghost predicate Sound(st: Stream) {
    && st.nNew >= 0 && st.nTried >= 0
    && (forall i, j :: 0 <= i < j < |st.infos| ==> st.infos[i].service.ip != st.infos[j].service.ip)
    && (forall i :: 0 <= i < |st.infos| ==> st.infos[i].nLastSuccess >= if i < st.nNew then 0 else 1)
  }

  ghost predicate ListsAddress(infos: seq<Persisted>, n: int, a: IP) {
    exists i :: 0 <= i < n && i < |infos| && infos[i].service.ip == a
  }

  /** Only addresses of the first `n` entries are known. */
  ghost predicate AddrsFrom(st: Stream, n: int, ma: map<IP, int>) {
    forall a :: a in ma ==> ListsAddress(st.infos, n, a)
  }

  lemma NextUnlisted(st: Stream, n: int, ma: map<IP, int>, id: int)
    requires Sound(st) && AddrsFrom(st, n, ma) && 0 <= n < |st.infos|
    ensures st.infos[n].service.ip !in ma && AddrsFrom(st, n + 1, ma)
    ensures AddrsFrom(st, n + 1, ma[st.infos[n].service.ip := id])
  {
    forall a | a in ma ensures ListsAddress(st.infos, n + 1, a) {
      assert ListsAddress(st.infos, n, a);
    }
  }

  /** Reading any entry of the new table. */
  lemma SoundNewStep(h: Hashes, st: Stream, v: State, n: int)
    requires Sound(st) && 0 <= n < |st.infos| && AddrsFrom(st, n, v.mapAddr)
    requires Inv(h, v, {}, Upto(n)) && v.nIdCount == n
    ensures var v' := Created(v, Load(st.infos[n])); Inv(h, v', {}, Upto(n + 1)) && AddrsFrom(st, n + 1, v'.mapAddr)
  {
    hide Inv, AddrsFrom;
    NextUnlisted(st, n, v.mapAddr, n);
    CreatedKeeps(h, v, Load(st.infos[n]), Upto(n));
    assert Upto(n) + {n} == Upto(n + 1);
  }

  /** Reading any entry of the tried table whose cell is free. */
  lemma SoundTriedStep(h: Hashes, st: Stream, v: State, n: int, nA: int)
    requires Sound(st) && st.nNew <= n < |st.infos| && AddrsFrom(st, n, v.mapAddr)
    requires Inv(h, v, {}, Upto(nA)) && nA <= v.nIdCount
    requires At(v.tried, TriedCell(h, v.nKey, st.infos[n].service)) == -1
    ensures var v' := TriedAdded(h, v, Load(st.infos[n])); Inv(h, v', {}, Upto(nA)) && AddrsFrom(st, n + 1, v'.mapAddr)
  {
    hide Inv, AddrsFrom, TriedCell;
    var info, id := Load(st.infos[n]), v.nIdCount;
    NextUnlisted(st, n, v.mapAddr, id);
    CreatedKeeps(h, v, info, Upto(nA));
    var v1 := Created(v, info);
    OrphanToLimbo(h, v1, id, Upto(nA));
    PlaceTriedKeeps(h, v1.(nNew := v1.nNew - 1), id, Upto(nA));
  }

  /** A reference that is put where there is room. */
  lemma SoundPut(h: Hashes, v: State, id: int, c: Cell, nA: int)
    requires Inv(h, v, {}, Upto(nA)) && id in v.mapInfo && !v.mapInfo[id].fInTried
    requires v.mapInfo[id].nRefCount < NEW_BUCKETS_PER_ADDRESS
    requires At(v.vNew, c) == -1 && c.bucket < NEW_BUCKET_COUNT
             && c == NewCell(h, v.nKey, v.mapInfo[id].service, c.bucket)
    ensures Inv(h, PutNew(v, id, c), {}, Upto(nA))
  {
    hide Inv, PutNew;
    PutNewOrphan(h, v, id, c, Upto(nA));
    KeepOrphans(h, PutNew(v, id, c), Upto(nA) - {id}, Upto(nA));
  }

  /** What Serialize writes is such a stream. */
  lemma WrittenSound(h: Hashes, s: State, st: Stream, ids: seq<int>, nA: nat)
    requires WrittenFor(h, s, st, ids, nA)
    ensures Sound(st)
  {
    hide AllRefs, Complete, RandomOk, AddrOk, IdsOk, TriedOk, NewOk, RefsOk, CountsOk, EntriesOk, CollisionsOk;
    forall i, j | 0 <= i < j < |ids| ensures st.infos[i].service.ip != st.infos[j].service.ip {
      DifferentIps(h, s, ids, nA, i, j);
    }
    forall i | 0 <= i < |ids| ensures st.infos[i].nLastSuccess >= if i < nA then 0 else 1 {
      RefCountOf(h, s, ids[i]);
    }
  }
}
