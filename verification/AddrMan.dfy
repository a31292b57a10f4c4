/** The address manager of addrman.cpp, on values.

    Five indexes describe the same addresses: mapInfo (id to entry), mapAddr (address to id), vRandom (a
    shuffled list of ids), and the tables vvNew and vvTried.  `Consistent` is what CAddrMan::Check_ tests,
    together with what keeps the pending collisions meaningful; every operation keeps it. */
module AddrMan {
  const TRIED_BUCKET_COUNT := 256
  const NEW_BUCKET_COUNT := 1024
  const BUCKET_SIZE := 64
  const TRIED_BUCKETS_PER_GROUP := 8
  const NEW_BUCKETS_PER_SOURCE_GROUP := 64
  const NEW_BUCKETS_PER_ADDRESS := 8
  const HORIZON_DAYS := 30
  const RETRIES := 3
  const MAX_FAILURES := 10
  const MIN_FAIL_DAYS := 7
  const REPLACEMENT_HOURS := 4
  const GETADDR_MAX_PCT := 23
  const GETADDR_MAX := 2500
  const SET_TRIED_COLLISION_SIZE := 10
  const TEST_WINDOW := 40 * 60

  /** A network address without its port (CNetAddr), which is what mapAddr is keyed by. */
  type IP = nat

  datatype Service = Service(ip: IP, port: nat)

  /** The service bits a node advertises. */
  type ServiceFlags = set<nat>

  datatype Address = Address(service: Service, nServices: ServiceFlags, nTime: int)

  datatype Info = Info(service: Service, nServices: ServiceFlags, nTime: int, source: IP,
                       nLastTry: int, nLastCountAttempt: int, nLastSuccess: int, nAttempts: int,
                       nRefCount: int, fInTried: bool, nRandomPos: int)

  /** The hash computations and address classifications, left uninterpreted. */
  datatype Hashes = Hashes(
    group: IP -> nat,
    keyHash: (nat, Service) -> nat,
    triedHash: (nat, nat, nat) -> nat,
    newHash1: (nat, nat, nat) -> nat,
    newHash2: (nat, nat, nat) -> nat,
    posHash: (nat, bool, nat, Service) -> nat,
    isRoutable: IP -> bool,
    isValid: IP -> bool)

  datatype Cell = Cell(bucket: nat, pos: nat)

  /** A bucket table; -1 marks an empty cell. */
  type Table = map<Cell, int>

  function At(t: Table, c: Cell): int { if c in t then t[c] else -1 }

  lemma AtWrite(t: Table, c: Cell, w: int)
    ensures forall d :: At(t[c := w], d) == if d == c then w else At(t, d)
  {
    forall d ensures At(t[c := w], d) == if d == c then w else At(t, d) {
      assert d in t[c := w] <==> d == c || d in t;
    }
  }

  function TriedBucket(h: Hashes, key: nat, svc: Service): nat {
    h.triedHash(key, h.group(svc.ip), h.keyHash(key, svc) % TRIED_BUCKETS_PER_GROUP) % TRIED_BUCKET_COUNT
  }

  function NewBucket(h: Hashes, key: nat, svc: Service, src: IP): nat {
    var hash1 := h.newHash1(key, h.group(svc.ip), h.group(src));
    h.newHash2(key, h.group(src), hash1 % NEW_BUCKETS_PER_SOURCE_GROUP) % NEW_BUCKET_COUNT
  }

  function Position(h: Hashes, key: nat, fNew: bool, bucket: nat, svc: Service): nat {
    h.posHash(key, fNew, bucket, svc) % BUCKET_SIZE
  }

  function TriedCell(h: Hashes, key: nat, svc: Service): Cell {
    var b := TriedBucket(h, key, svc);
    Cell(b, Position(h, key, false, b, svc))
  }

  /** Where a service may sit in the given new bucket. */
  function NewCell(h: Hashes, key: nat, svc: Service, bucket: nat): Cell {
    Cell(bucket, Position(h, key, true, bucket, svc))
  }

  predicate IsTerrible(info: Info, now: int) {
    if info.nLastTry != 0 && info.nLastTry >= now - 60 then false
    else if info.nTime > now + 10 * 60 then true
    else if info.nTime == 0 || now - info.nTime > HORIZON_DAYS * 24 * 60 * 60 then true
    else if info.nLastSuccess == 0 && info.nAttempts >= RETRIES then true
    else now - info.nLastSuccess > MIN_FAIL_DAYS * 24 * 60 * 60 && info.nAttempts >= MAX_FAILURES
  }

  datatype State = State(
    nKey: nat, nIdCount: int, mapInfo: map<int, Info>, mapAddr: map<IP, int>, vRandom: seq<int>,
    nTried: int, tried: Table, nNew: int, vNew: Table, nLastGood: int, collisions: set<int>)

  // ---------------------------------------------------------------------------------------------
  // Consistency
  // ---------------------------------------------------------------------------------------------

  type Entries = map<int, Info>

  /** vRandom and nRandomPos are inverse to each other. */
  ghost predicate RandomOk(mi: Entries, vr: seq<int>) {
    && (forall id :: id in mi ==> 0 <= mi[id].nRandomPos < |vr| && vr[mi[id].nRandomPos] == id)
    && (forall i :: 0 <= i < |vr| ==> vr[i] in mi && mi[vr[i]].nRandomPos == i)
  }

  /** mapAddr inverts mapInfo. */
  ghost predicate AddrOk(mi: Entries, ma: map<IP, int>) {
    && (forall id :: id in mi ==> mi[id].service.ip in ma && ma[mi[id].service.ip] == id)
    && (forall a :: a in ma ==> ma[a] in mi && mi[ma[a]].service.ip == a)
  }

  ghost predicate IdsOk(mi: Entries, nIdCount: int) {
    0 <= nIdCount && forall id :: id in mi ==> 0 <= id < nIdCount
  }

  ghost predicate TriedHolds(h: Hashes, key: nat, mi: Entries, id: int, c: Cell) {
    id in mi && mi[id].fInTried && c == TriedCell(h, key, mi[id].service)
  }

  /** A tried entry sits in its own cell and nowhere else, and every filled cell is a tried entry's. */
  ghost predicate TriedOk(h: Hashes, key: nat, mi: Entries, t: Table) {
    && (forall c :: At(t, c) != -1 ==> TriedHolds(h, key, mi, At(t, c), c))
    && (forall id :: id in mi && mi[id].fInTried ==> At(t, TriedCell(h, key, mi[id].service)) == id)
  }

  ghost predicate NewHolds(h: Hashes, key: nat, mi: Entries, id: int, c: Cell) {
    && id in mi && !mi[id].fInTried
    && c.bucket < NEW_BUCKET_COUNT && c == NewCell(h, key, mi[id].service, c.bucket)
  }

  /** Every filled cell of the new table holds an untried entry at its computed position. */
  ghost predicate NewOk(h: Hashes, key: nat, mi: Entries, t: Table) {
    forall c :: At(t, c) != -1 ==> NewHolds(h, key, mi, At(t, c), c)
  }

  /** The new buckets that hold an id. */
  ghost function Buckets(h: Hashes, key: nat, t: Table, svc: Service, id: int): set<nat> {
    set b: nat | b < NEW_BUCKET_COUNT && At(t, NewCell(h, key, svc, b)) == id
  }

  ghost predicate RefsOk(h: Hashes, key: nat, mi: Entries, t: Table) {
    forall id :: id in mi ==> mi[id].nRefCount == |Buckets(h, key, t, mi[id].service, id)|
  }

  ghost function NewIds(mi: Entries): set<int> { set id | id in mi && !mi[id].fInTried }

  ghost function TriedIds(mi: Entries): set<int> { set id | id in mi && mi[id].fInTried }

  ghost predicate CountsOk(mi: Entries, nNew: int, nTried: int, limbo: set<int>) {
    nNew == |NewIds(mi) - limbo| && nTried == |TriedIds(mi)|
  }

  /** What Check_ asks of one entry.  An entry in limbo is on its way between the tables, and an orphan has
      just been created: neither is in a table. */
  ghost predicate EntryOk(info: Info, inLimbo: bool, isOrphan: bool) {
    && info.nRefCount <= NEW_BUCKETS_PER_ADDRESS && info.nLastTry >= 0 && info.nLastSuccess >= 0
    && (info.fInTried ==> info.nLastSuccess > 0)
    && (inLimbo ==> !info.fInTried && info.nRefCount == 0)
    && (!info.fInTried && !inLimbo && !isOrphan ==> info.nRefCount >= 1)
  }

  ghost predicate EntriesOk(mi: Entries, limbo: set<int>, orphans: set<int>) {
    && limbo <= mi.Keys
    && forall id :: id in mi ==> EntryOk(mi[id], id in limbo, id in orphans)
  }

  /** The indexes agree, apart from the entries in limbo and the orphans. */
  ghost predicate Inv(h: Hashes, s: State, limbo: set<int>, orphans: set<int>) {
    && RandomOk(s.mapInfo, s.vRandom)
    && AddrOk(s.mapInfo, s.mapAddr)
    && IdsOk(s.mapInfo, s.nIdCount)
    && TriedOk(h, s.nKey, s.mapInfo, s.tried)
    && NewOk(h, s.nKey, s.mapInfo, s.vNew)
    && RefsOk(h, s.nKey, s.mapInfo, s.vNew)
    && CountsOk(s.mapInfo, s.nNew, s.nTried, limbo)
    && EntriesOk(s.mapInfo, limbo, orphans)
  }

  /** A pending collision names an id that was given out, and if its entry still exists then its tried cell
      is taken: reading mapInfo at that cell's id touches an existing entry. */
  ghost predicate CollisionsOk(h: Hashes, s: State) {
    forall id :: id in s.collisions ==>
      0 <= id < s.nIdCount && (id in s.mapInfo ==> At(s.tried, TriedCell(h, s.nKey, s.mapInfo[id].service)) != -1)
  }

  ghost predicate Consistent(h: Hashes, s: State) {
    Inv(h, s, {}, {}) && CollisionsOk(h, s)
  }

  // ---------------------------------------------------------------------------------------------
  // Index by index: what survives a change to one entry, one cell or one id
  // ---------------------------------------------------------------------------------------------

  /** Same ids, addresses, reference counts and tried marks. */
  ghost predicate SameCore(mi: Entries, mi': Entries) {
    && (forall id :: id in mi <==> id in mi')
    && forall id :: id in mi ==>
         mi'[id].service == mi[id].service && mi'[id].nRefCount == mi[id].nRefCount
           && mi'[id].fInTried == mi[id].fInTried
  }

  lemma SameCoreIndexes(h: Hashes, key: nat, mi: Entries, mi': Entries, ma: map<IP, int>, n: int, t: Table, v: Table)
    requires SameCore(mi, mi')
    requires AddrOk(mi, ma) && IdsOk(mi, n) && TriedOk(h, key, mi, t) && NewOk(h, key, mi, v) && RefsOk(h, key, mi, v)
    ensures AddrOk(mi', ma) && IdsOk(mi', n) && TriedOk(h, key, mi', t) && NewOk(h, key, mi', v)
            && RefsOk(h, key, mi', v)
    ensures NewIds(mi') == NewIds(mi) && TriedIds(mi') == TriedIds(mi)
  {
    hide Buckets, TriedCell, NewCell, At;
    forall a | a in ma ensures ma[a] in mi' && mi'[ma[a]].service.ip == a {
      var id: int := ma[a];
      assert id in mi && id in mi';
    }
    assert forall id :: id in NewIds(mi') <==> id in NewIds(mi);
    assert forall id :: id in TriedIds(mi') <==> id in TriedIds(mi);
  }

  /** Changing an entry but not its address or tried mark. */
  lemma UpdateIndexes(h: Hashes, key: nat, mi: Entries, ma: map<IP, int>, n: int, t: Table, v: Table, id: int,
                      info: Info)
    requires id in mi && info.service == mi[id].service && info.fInTried == mi[id].fInTried
    ensures var mi' := mi[id := info];
            && (AddrOk(mi, ma) ==> AddrOk(mi', ma))
            && (IdsOk(mi, n) ==> IdsOk(mi', n))
            && (TriedOk(h, key, mi, t) ==> TriedOk(h, key, mi', t))
            && (NewOk(h, key, mi, v) ==> NewOk(h, key, mi', v))
            && NewIds(mi') == NewIds(mi) && TriedIds(mi') == TriedIds(mi)
  {
    hide TriedCell, NewCell;
  }

  lemma UpdateRandom(mi: Entries, vr: seq<int>, id: int, info: Info)
    requires RandomOk(mi, vr) && id in mi && info.nRandomPos == mi[id].nRandomPos
    ensures RandomOk(mi[id := info], vr)
  {}

  lemma UpdateEntries(mi: Entries, limbo: set<int>, orphans: set<int>, id: int, info: Info, limbo': set<int>,
                      orphans': set<int>)
    requires EntriesOk(mi, limbo, orphans) && id in mi
    requires limbo - {id} == limbo' - {id} && orphans - {id} == orphans' - {id}
    requires EntryOk(info, id in limbo', id in orphans')
    ensures EntriesOk(mi[id := info], limbo', orphans')
  {
    hide EntryOk;
    var mi' := mi[id := info];
    forall x | x in mi' ensures EntryOk(mi'[x], x in limbo', x in orphans') {
      if x != id {
        assert EntryOk(mi[x], x in limbo, x in orphans);
        assert x in limbo <==> x in limbo - {id};
        assert x in limbo' <==> x in limbo' - {id};
        assert x in orphans <==> x in orphans - {id};
        assert x in orphans' <==> x in orphans' - {id};
      }
    }
    forall x | x in limbo' ensures x in mi' {
      if x != id { assert x in limbo - {id}; }
    }
  }

  /** Writing one cell changes the buckets of an id at most by that cell's bucket. */
  lemma BucketsAfterWrite(h: Hashes, key: nat, t: Table, c: Cell, w: int, svc: Service, id: int)
    requires id != -1
    ensures var before, after := Buckets(h, key, t, svc, id), Buckets(h, key, t[c := w], svc, id);
            if c.bucket >= NEW_BUCKET_COUNT || c != NewCell(h, key, svc, c.bucket) then after == before
            else if w == id then after == before + {c.bucket}
            else after == before - {c.bucket}
  {
    AtWrite(t, c, w);
  }

  lemma NewAfterWrite(h: Hashes, key: nat, mi: Entries, v: Table, c: Cell, w: int)
    requires NewOk(h, key, mi, v) && (w != -1 ==> NewHolds(h, key, mi, w, c))
    ensures NewOk(h, key, mi, v[c := w])
  {
    hide NewHolds;
    AtWrite(v, c, w);
    var v' := v[c := w];
    forall d | At(v', d) != -1 ensures NewHolds(h, key, mi, At(v', d), d) {
      assert At(v', d) == if d == c then w else At(v, d);
    }
  }

  /** Emptying a cell: the entry there loses one reference, the others none. */
  lemma RefsAfterDrop(h: Hashes, key: nat, mi: Entries, v: Table, c: Cell)
    requires NewOk(h, key, mi, v) && RefsOk(h, key, mi, v) && -1 !in mi && At(v, c) != -1
    ensures var id := At(v, c);
            && mi[id].nRefCount > 0
            && NewOk(h, key, mi, v[c := -1])
            && RefsOk(h, key, mi[id := mi[id].(nRefCount := mi[id].nRefCount - 1)], v[c := -1])
  {
    var id := At(v, c);
    var mi' := mi[id := mi[id].(nRefCount := mi[id].nRefCount - 1)];
    NewAfterWrite(h, key, mi, v, c, -1);
    assert NewHolds(h, key, mi, id, c);
    assert c.bucket in Buckets(h, key, v, mi[id].service, id);
    forall x | x in mi' ensures mi'[x].nRefCount == |Buckets(h, key, v[c := -1], mi'[x].service, x)| {
      var before := Buckets(h, key, v, mi[x].service, x);
      BucketsAfterWrite(h, key, v, c, -1, mi[x].service, x);
      if x != id && c.bucket < NEW_BUCKET_COUNT && c == NewCell(h, key, mi[x].service, c.bucket) {
        assert c.bucket !in before;
        assert before - {c.bucket} == before;
      }
    }
  }

  /** Filling an empty cell: the entry put there gains one reference. */
  lemma RefsAfterPut(h: Hashes, key: nat, mi: Entries, v: Table, c: Cell, id: int)
    requires NewOk(h, key, mi, v) && RefsOk(h, key, mi, v) && -1 !in mi && At(v, c) == -1
    requires id in mi && !mi[id].fInTried && c.bucket < NEW_BUCKET_COUNT
             && c == NewCell(h, key, mi[id].service, c.bucket)
    ensures NewOk(h, key, mi, v[c := id])
    ensures RefsOk(h, key, mi[id := mi[id].(nRefCount := mi[id].nRefCount + 1)], v[c := id])
  {
    var mi' := mi[id := mi[id].(nRefCount := mi[id].nRefCount + 1)];
    NewAfterWrite(h, key, mi, v, c, id);
    forall x | x in mi' ensures mi'[x].nRefCount == |Buckets(h, key, v[c := id], mi'[x].service, x)| {
      var before := Buckets(h, key, v, mi[x].service, x);
      BucketsAfterWrite(h, key, v, c, id, mi[x].service, x);
      if c == NewCell(h, key, mi[x].service, c.bucket) {
        assert c.bucket !in before;
        assert before - {c.bucket} == before;
      }
    }
  }

  /** An id without references is in no cell of the new table. */
  lemma NoCellHolds(h: Hashes, key: nat, mi: Entries, v: Table, id: int)
    requires NewOk(h, key, mi, v) && RefsOk(h, key, mi, v) && id in mi && id != -1 && mi[id].nRefCount == 0
    ensures forall c :: At(v, c) != id
  {
    var bs := Buckets(h, key, v, mi[id].service, id);
    forall c ensures At(v, c) != id {
      assert At(v, c) == id ==> c.bucket in bs;
    }
  }

  /** A table with the id's references in the buckets below `below` cleared (MakeTried's loop). */
  ghost function Cleared(h: Hashes, key: nat, v: Table, svc: Service, id: int, below: nat): Table {
    map c | c in v :: if v[c] == id && c.bucket < below && c == NewCell(h, key, svc, c.bucket) then -1 else v[c]
  }

  lemma RefsAfterClear(h: Hashes, key: nat, mi: Entries, v: Table, id: int)
    requires NewOk(h, key, mi, v) && RefsOk(h, key, mi, v) && -1 !in mi && id in mi
    ensures var v' := Cleared(h, key, v, mi[id].service, id, NEW_BUCKET_COUNT);
            && NewOk(h, key, mi, v')
            && RefsOk(h, key, mi[id := mi[id].(nRefCount := 0)], v')
            && (forall c :: At(v', c) == if At(v, c) == id then -1 else At(v, c))
  {
    var v' := Cleared(h, key, v, mi[id].service, id, NEW_BUCKET_COUNT);
    var mi' := mi[id := mi[id].(nRefCount := 0)];
    assert forall c :: At(v', c) == if At(v, c) == id then -1 else At(v, c);
    hide Cleared;
    forall x | x in mi' ensures mi'[x].nRefCount == |Buckets(h, key, v', mi'[x].service, x)| {
      if x == id {
        assert Buckets(h, key, v', mi[id].service, id) == {};
      } else {
        assert Buckets(h, key, v', mi[x].service, x) == Buckets(h, key, v, mi[x].service, x);
      }
    }
  }

  /** Forgetting an id that no table holds. */
  lemma RemoveIndexes(h: Hashes, key: nat, mi: Entries, ma: map<IP, int>, n: int, t: Table, v: Table, id: int)
    requires id in mi && !mi[id].fInTried
    requires AddrOk(mi, ma) && IdsOk(mi, n) && TriedOk(h, key, mi, t) && NewOk(h, key, mi, v) && RefsOk(h, key, mi, v)
    requires mi[id].nRefCount == 0
    ensures var mi' := mi - {id};
            && AddrOk(mi', ma - {mi[id].service.ip}) && IdsOk(mi', n)
            && TriedOk(h, key, mi', t) && NewOk(h, key, mi', v) && RefsOk(h, key, mi', v)
            && NewIds(mi') == NewIds(mi) - {id} && TriedIds(mi') == TriedIds(mi)
  {
    NoCellHolds(h, key, mi, v, id);
    hide Buckets, TriedCell, NewCell;
    var mi' := mi - {id};
    assert NewIds(mi') == NewIds(mi) - {id};
  }

  /** Adding an id that no table holds. */
  lemma AddIndexes(h: Hashes, key: nat, mi: Entries, ma: map<IP, int>, n: int, t: Table, v: Table, info: Info)
    requires AddrOk(mi, ma) && IdsOk(mi, n) && TriedOk(h, key, mi, t) && NewOk(h, key, mi, v) && RefsOk(h, key, mi, v)
    requires info.service.ip !in ma && !info.fInTried && info.nRefCount == 0
    ensures var mi' := mi[n := info];
            && AddrOk(mi', ma[info.service.ip := n]) && IdsOk(mi', n + 1)
            && TriedOk(h, key, mi', t) && NewOk(h, key, mi', v) && RefsOk(h, key, mi', v)
            && NewIds(mi') == NewIds(mi) + {n} && TriedIds(mi') == TriedIds(mi)
  {
    var mi' := mi[n := info];
    assert Buckets(h, key, v, info.service, n) == {};
    hide Buckets, TriedCell, NewCell;
    assert NewIds(mi') == NewIds(mi) + {n};
  }

  /** A tried entry loses its cell. */
  lemma EvictIndexes(h: Hashes, key: nat, mi: Entries, ma: map<IP, int>, n: int, t: Table, v: Table, c: Cell)
    requires AddrOk(mi, ma) && IdsOk(mi, n) && TriedOk(h, key, mi, t) && NewOk(h, key, mi, v) && RefsOk(h, key, mi, v)
    requires At(t, c) != -1
    ensures var id := At(t, c);
            var mi' := mi[id := mi[id].(fInTried := false)];
            && mi[id].nRefCount == 0
            && AddrOk(mi', ma) && IdsOk(mi', n)
            && TriedOk(h, key, mi', t[c := -1]) && NewOk(h, key, mi', v) && RefsOk(h, key, mi', v)
            && NewIds(mi') == NewIds(mi) + {id} && TriedIds(mi') == TriedIds(mi) - {id}
  {
    var id := At(t, c);
    assert Buckets(h, key, v, mi[id].service, id) == {};
    hide Buckets, TriedCell, NewCell;
    var mi' := mi[id := mi[id].(fInTried := false)];
    assert NewIds(mi') == NewIds(mi) + {id} && TriedIds(mi') == TriedIds(mi) - {id};
    AtWrite(t, c, -1);
    var t' := t[c := -1];
    forall d | At(t', d) != -1 ensures TriedHolds(h, key, mi', At(t', d), d) {
      assert TriedHolds(h, key, mi, At(t, d), d);
    }
    forall x | x in mi' && mi'[x].fInTried ensures At(t', TriedCell(h, key, mi'[x].service)) == x {
      assert At(t, TriedCell(h, key, mi[x].service)) == x;
    }
    forall d | At(v, d) != -1 ensures NewHolds(h, key, mi', At(v, d), d) {
      assert NewHolds(h, key, mi, At(v, d), d);
    }
  }

  /** An entry without references takes its empty tried cell. */
  lemma PlaceIndexes(h: Hashes, key: nat, mi: Entries, ma: map<IP, int>, n: int, t: Table, v: Table, id: int)
    requires AddrOk(mi, ma) && IdsOk(mi, n) && TriedOk(h, key, mi, t) && NewOk(h, key, mi, v) && RefsOk(h, key, mi, v)
    requires id in mi && !mi[id].fInTried && mi[id].nRefCount == 0 && At(t, TriedCell(h, key, mi[id].service)) == -1
    ensures var mi' := mi[id := mi[id].(fInTried := true)];
            var t' := t[TriedCell(h, key, mi[id].service) := id];
            && AddrOk(mi', ma) && IdsOk(mi', n)
            && TriedOk(h, key, mi', t') && NewOk(h, key, mi', v) && RefsOk(h, key, mi', v)
            && NewIds(mi') == NewIds(mi) - {id} && TriedIds(mi') == TriedIds(mi) + {id}
  {
    NoCellHolds(h, key, mi, v, id);
    hide Buckets, TriedCell, NewCell;
    var mi' := mi[id := mi[id].(fInTried := true)];
    assert NewIds(mi') == NewIds(mi) - {id} && TriedIds(mi') == TriedIds(mi) + {id};
    AtWrite(t, TriedCell(h, key, mi[id].service), id);
    var c := TriedCell(h, key, mi[id].service);
    var t' := t[c := id];
    forall d | At(t', d) != -1 ensures TriedHolds(h, key, mi', At(t', d), d) {
      assert d == c || TriedHolds(h, key, mi, At(t, d), d);
    }
    forall x | x in mi' && mi'[x].fInTried ensures At(t', TriedCell(h, key, mi'[x].service)) == x {
      assert x == id || At(t, TriedCell(h, key, mi[x].service)) == x;
    }
    forall d | At(v, d) != -1 ensures NewHolds(h, key, mi', At(v, d), d) {
      assert NewHolds(h, key, mi, At(v, d), d);
    }
  }

  // ---------------------------------------------------------------------------------------------
  // SwapRandom and Delete
  // ---------------------------------------------------------------------------------------------

  /** Two versions of an entry that differ in the position in vRandom at most. */
  ghost predicate MovedOnly(a: Info, b: Info) { b == a.(nRandomPos := b.nRandomPos) }

  /** The same entries, up to their positions in vRandom. */
  ghost predicate AllMovedOnly(mi: Entries, mi': Entries) {
    && (forall x :: x in mi <==> x in mi')
    && (forall x :: x in mi ==> MovedOnly(mi[x], mi'[x]))
  }

  lemma MovedIsSameCore(mi: Entries, mi': Entries)
    requires AllMovedOnly(mi, mi')
    ensures SameCore(mi, mi')
  {}

  ghost function SwapRandom(s: State, p: int, q: int): State
    requires RandomOk(s.mapInfo, s.vRandom)
    requires 0 <= p < |s.vRandom| && 0 <= q < |s.vRandom|
  {
    if p == q then s
    else
      var a, b := s.vRandom[p], s.vRandom[q];
      var mi := s.mapInfo[a := s.mapInfo[a].(nRandomPos := q)];
      s.(mapInfo := mi[b := mi[b].(nRandomPos := p)], vRandom := s.vRandom[p := b][q := a])
  }

  lemma SwapRandomOk(s: State, p: int, q: int)
    requires RandomOk(s.mapInfo, s.vRandom)
    requires 0 <= p < |s.vRandom| && 0 <= q < |s.vRandom|
    ensures var s' := SwapRandom(s, p, q);
            && RandomOk(s'.mapInfo, s'.vRandom) && AllMovedOnly(s.mapInfo, s'.mapInfo)
            && s' == s.(mapInfo := s'.mapInfo, vRandom := s'.vRandom)
            && |s'.vRandom| == |s.vRandom| && s'.vRandom[p] == s.vRandom[q] && s'.vRandom[q] == s.vRandom[p]
  {
    if p != q {
      var vr, mi, s' := s.vRandom, s.mapInfo, SwapRandom(s, p, q);
      var a, b := vr[p], vr[q];
      assert a in mi && b in mi && mi[a].nRandomPos == p && mi[b].nRandomPos == q && a != b;
      hide MovedOnly;
      forall i | 0 <= i < |vr| ensures s'.vRandom[i] in s'.mapInfo && s'.mapInfo[s'.vRandom[i]].nRandomPos == i {
        var x: int := s'.vRandom[i];
        assert i == p || i == q || (x == vr[i] && x in mi && mi[x].nRandomPos == i);
      }
      forall x | x in s'.mapInfo
        ensures 0 <= s'.mapInfo[x].nRandomPos < |vr| && s'.vRandom[s'.mapInfo[x].nRandomPos] == x
      {
        assert x in mi && vr[mi[x].nRandomPos] == x;
      }
      SwapMovesOnly(mi, a, b, p, q);
    }
  }

  lemma SwapMovesOnly(mi: Entries, a: int, b: int, p: int, q: int)
    requires a in mi && b in mi && a != b
    ensures var m := mi[a := mi[a].(nRandomPos := q)];
            AllMovedOnly(mi, m[b := m[b].(nRandomPos := p)])
  {}

  lemma EntriesTransfer(mi: Entries, mi': Entries, limbo: set<int>, orphans: set<int>)
    requires EntriesOk(mi, limbo, orphans) && AllMovedOnly(mi, mi')
    ensures EntriesOk(mi', limbo, orphans)
  {
    forall x | x in mi' ensures EntryOk(mi'[x], x in limbo, x in orphans) {
      assert x in mi && EntryOk(mi[x], x in limbo, x in orphans) && MovedOnly(mi[x], mi'[x]);
    }
    forall x | x in limbo ensures x in mi' { assert x in mi; }
  }

  lemma SwapRandomKeeps(h: Hashes, s: State, p: int, q: int, limbo: set<int>, orphans: set<int>)
    requires Inv(h, s, limbo, orphans) && 0 <= p < |s.vRandom| && 0 <= q < |s.vRandom|
    ensures Inv(h, SwapRandom(s, p, q), limbo, orphans)
  {
    hide RandomOk, SwapRandom, AddrOk, IdsOk, TriedOk, NewOk, RefsOk, EntriesOk, SameCore, AllMovedOnly;
    SwapRandomOk(s, p, q);
    var s' := SwapRandom(s, p, q);
    MovedIsSameCore(s.mapInfo, s'.mapInfo);
    SameCoreIndexes(h, s.nKey, s.mapInfo, s'.mapInfo, s.mapAddr, s.nIdCount, s.tried, s.vNew);
    EntriesTransfer(s.mapInfo, s'.mapInfo, limbo, orphans);
  }

  /** The state without the entry at the end of vRandom. */
  ghost function DropLast(s: State): State
    requires s.vRandom != [] && s.vRandom[|s.vRandom| - 1] in s.mapInfo
  {
    var id := s.vRandom[|s.vRandom| - 1];
    s.(vRandom := s.vRandom[..|s.vRandom| - 1],
       mapAddr := s.mapAddr - {s.mapInfo[id].service.ip},
       mapInfo := s.mapInfo - {id},
       nNew := s.nNew - 1)
  }

  ghost function Delete(s: State, id: int): (r: State)
    requires RandomOk(s.mapInfo, s.vRandom) && id in s.mapInfo
  {
    SwapRandomOk(s, s.mapInfo[id].nRandomPos, |s.vRandom| - 1);
    DropLast(SwapRandom(s, s.mapInfo[id].nRandomPos, |s.vRandom| - 1))
  }

  lemma RandomDropLast(mi: Entries, vr: seq<int>)
    requires RandomOk(mi, vr) && vr != []
    ensures RandomOk(mi - {vr[|vr| - 1]}, vr[..|vr| - 1])
  {
    var n := |vr| - 1;
    var mi', vr' := mi - {vr[n]}, vr[..n];
    forall i | 0 <= i < n ensures vr'[i] in mi' && mi'[vr'[i]].nRandomPos == i {
      var x: int := vr[i];
      assert x in mi && mi[x].nRandomPos == i && vr[n] in mi && mi[vr[n]].nRandomPos == n;
    }
    forall x | x in mi' ensures 0 <= mi'[x].nRandomPos < n && vr'[mi'[x].nRandomPos] == x {
      assert x in mi && vr[mi[x].nRandomPos] == x;
    }
  }

  lemma EntriesRemove(mi: Entries, limbo: set<int>, orphans: set<int>, id: int)
    requires EntriesOk(mi, limbo, orphans) && id !in limbo
    ensures EntriesOk(mi - {id}, limbo, orphans - {id})
  {
    hide EntryOk;
    var mi' := mi - {id};
    forall x | x in mi' ensures EntryOk(mi'[x], x in limbo, x in orphans - {id}) {
      assert EntryOk(mi[x], x in limbo, x in orphans);
    }
  }

  /** Delete takes the entry out of every index and leaves the other entries as they are. */
  ghost predicate Deleted(s: State, s': State, id: int) {
    && s' == s.(mapInfo := s'.mapInfo, mapAddr := s'.mapAddr, vRandom := s'.vRandom, nNew := s.nNew - 1)
    && (forall x :: x in s'.mapInfo <==> x in s.mapInfo && x != id)
    && (forall x :: x in s'.mapInfo ==> MovedOnly(s.mapInfo[x], s'.mapInfo[x]))
  }

  lemma DeleteEffect(s: State, id: int)
    requires RandomOk(s.mapInfo, s.vRandom) && id in s.mapInfo
    ensures Deleted(s, Delete(s, id), id)
    ensures 0 <= s.mapInfo[id].nRandomPos <= |s.vRandom| - 1
    ensures var s1 := SwapRandom(s, s.mapInfo[id].nRandomPos, |s.vRandom| - 1);
            && id in s1.mapInfo && MovedOnly(s.mapInfo[id], s1.mapInfo[id])
            && s1.vRandom != [] && s1.vRandom[|s1.vRandom| - 1] == id
            && Delete(s, id) == DropLast(s1)
  {
    hide MovedOnly, SwapRandom;
    SwapRandomOk(s, s.mapInfo[id].nRandomPos, |s.vRandom| - 1);
  }

  lemma DropLastKeeps(h: Hashes, s: State, limbo: set<int>, orphans: set<int>)
    requires Inv(h, s, limbo, orphans) && s.vRandom != []
    requires var id := s.vRandom[|s.vRandom| - 1];
             id in s.mapInfo && id !in limbo && !s.mapInfo[id].fInTried && s.mapInfo[id].nRefCount == 0
    ensures Inv(h, DropLast(s), limbo, orphans - {s.vRandom[|s.vRandom| - 1]})
  {
    hide RandomOk, AddrOk, IdsOk, TriedOk, NewOk, RefsOk, EntriesOk;
    var id := s.vRandom[|s.vRandom| - 1];
    RandomDropLast(s.mapInfo, s.vRandom);
    RemoveIndexes(h, s.nKey, s.mapInfo, s.mapAddr, s.nIdCount, s.tried, s.vNew, id);
    EntriesRemove(s.mapInfo, limbo, orphans, id);
    assert id in NewIds(s.mapInfo) - limbo;
    assert NewIds(s.mapInfo - {id}) - limbo == (NewIds(s.mapInfo) - limbo) - {id};
  }

  lemma DeleteKeeps(h: Hashes, s: State, id: int, limbo: set<int>, orphans: set<int>)
    requires Inv(h, s, limbo, orphans) && id in s.mapInfo && id !in limbo
    requires !s.mapInfo[id].fInTried && s.mapInfo[id].nRefCount == 0
    ensures Inv(h, Delete(s, id), limbo, orphans - {id}) && Deleted(s, Delete(s, id), id)
  {
    hide RandomOk, SwapRandom, AddrOk, IdsOk, TriedOk, NewOk, RefsOk, CountsOk, EntriesOk, Deleted, Delete, DropLast;
    DeleteEffect(s, id);
    var p, q := s.mapInfo[id].nRandomPos, |s.vRandom| - 1;
    SwapRandomKeeps(h, s, p, q, limbo, orphans);
    DropLastKeeps(h, SwapRandom(s, p, q), limbo, orphans);
  }

  // ---------------------------------------------------------------------------------------------
  // ClearNew
  // ---------------------------------------------------------------------------------------------

  /** ClearNew up to the deletion: the entry in the cell loses one reference. */
  ghost function DropCell(s: State, c: Cell): State
    requires At(s.vNew, c) in s.mapInfo
  {
    var id := At(s.vNew, c);
    s.(mapInfo := s.mapInfo[id := s.mapInfo[id].(nRefCount := s.mapInfo[id].nRefCount - 1)], vNew := s.vNew[c := -1])
  }

  ghost function ClearNew(s: State, c: Cell): (r: State)
    requires RandomOk(s.mapInfo, s.vRandom) && (At(s.vNew, c) != -1 ==> At(s.vNew, c) in s.mapInfo)
  {
    if At(s.vNew, c) == -1 then s
    else
      var id := At(s.vNew, c);
      var s1 := DropCell(s, c);
      UpdateRandom(s.mapInfo, s.vRandom, id, s1.mapInfo[id]);
      if s1.mapInfo[id].nRefCount == 0 then Delete(s1, id) else s1
  }

  /** What is known of the entry in a filled cell. */
  lemma FilledNewCell(h: Hashes, s: State, c: Cell, limbo: set<int>, orphans: set<int>)
    requires Inv(h, s, limbo, orphans)
    ensures -1 !in s.mapInfo
    ensures At(s.vNew, c) != -1 ==>
              var id := At(s.vNew, c);
              && id in s.mapInfo && !s.mapInfo[id].fInTried && 1 <= s.mapInfo[id].nRefCount <= NEW_BUCKETS_PER_ADDRESS
              && id !in limbo
              && EntryOk(s.mapInfo[id], id in limbo, id in orphans)
  {
    hide RandomOk, AddrOk, TriedOk, CountsOk;
    var id := At(s.vNew, c);
    if id != -1 {
      assert NewHolds(h, s.nKey, s.mapInfo, id, c);
      assert c.bucket in Buckets(h, s.nKey, s.vNew, s.mapInfo[id].service, id);
      assert EntryOk(s.mapInfo[id], id in limbo, id in orphans);
    }
  }

  lemma DropCellKeeps(h: Hashes, s: State, c: Cell, limbo: set<int>, orphans: set<int>)
    requires Inv(h, s, limbo, orphans) && At(s.vNew, c) != -1
    ensures At(s.vNew, c) in s.mapInfo && Inv(h, DropCell(s, c), limbo, orphans + {At(s.vNew, c)})
  {
    hide RandomOk, AddrOk, IdsOk, TriedOk, NewOk, RefsOk, EntriesOk;
    FilledNewCell(h, s, c, limbo, orphans);
    var id := At(s.vNew, c);
    var info := s.mapInfo[id].(nRefCount := s.mapInfo[id].nRefCount - 1);
    RefsAfterDrop(h, s.nKey, s.mapInfo, s.vNew, c);
    UpdateIndexes(h, s.nKey, s.mapInfo, s.mapAddr, s.nIdCount, s.tried, s.vNew[c := -1], id, info);
    UpdateRandom(s.mapInfo, s.vRandom, id, info);
    UpdateEntries(s.mapInfo, limbo, orphans, id, info, limbo, orphans + {id});
  }

  /** What ClearNew changes: the cell is emptied, the entry there goes exactly when this was its last
      reference, and every other entry and cell stays. */
  ghost predicate NewCellCleared(s: State, s': State, c: Cell) {
    var id := At(s.vNew, c);
    && s' == s.(mapInfo := s'.mapInfo, mapAddr := s'.mapAddr, vRandom := s'.vRandom, nNew := s'.nNew, vNew := s'.vNew)
    && At(s'.vNew, c) == -1 && (forall d :: d != c ==> At(s'.vNew, d) == At(s.vNew, d))
    && (forall x :: x in s'.mapInfo <==> x in s.mapInfo && !(x == id && s.mapInfo[x].nRefCount == 1))
    && (forall x :: x in s'.mapInfo ==> MovedOnly(LessOneRef(s.mapInfo[x], x == id), s'.mapInfo[x]))
  }

  ghost function LessOneRef(info: Info, less: bool): Info {
    if less then info.(nRefCount := info.nRefCount - 1) else info
  }

  lemma ClearNewEffect(s: State, c: Cell)
    requires RandomOk(s.mapInfo, s.vRandom) && (At(s.vNew, c) != -1 ==> At(s.vNew, c) in s.mapInfo)
    requires -1 !in s.mapInfo
    ensures NewCellCleared(s, ClearNew(s, c), c)
  {
    var id := At(s.vNew, c);
    if id != -1 {
      var s1 := DropCell(s, c);
      AtWrite(s.vNew, c, -1);
      UpdateRandom(s.mapInfo, s.vRandom, id, s1.mapInfo[id]);
      if s1.mapInfo[id].nRefCount == 0 {
        DeleteEffect(s1, id);
        DroppedAndDeleted(s, Delete(s1, id), c);
      } else {
        hide RandomOk, Delete;
      }
    }
  }

  lemma DroppedAndDeleted(s: State, s': State, c: Cell)
    requires At(s.vNew, c) in s.mapInfo && -1 !in s.mapInfo && s.mapInfo[At(s.vNew, c)].nRefCount == 1
    requires Deleted(DropCell(s, c), s', At(s.vNew, c))
    ensures NewCellCleared(s, s', c)
  {
    var id, s1 := At(s.vNew, c), DropCell(s, c);
    AtWrite(s.vNew, c, -1);
    assert forall x :: x in s1.mapInfo ==> s1.mapInfo[x] == LessOneRef(s.mapInfo[x], x == id);
    hide LessOneRef, MovedOnly;
    forall x | x in s'.mapInfo ensures MovedOnly(LessOneRef(s.mapInfo[x], x == id), s'.mapInfo[x]) {
      assert x in s1.mapInfo && MovedOnly(s1.mapInfo[x], s'.mapInfo[x]);
    }
  }

  lemma ClearNewKeeps(h: Hashes, s: State, c: Cell, limbo: set<int>, orphans: set<int>)
    requires Inv(h, s, limbo, orphans) && At(s.vNew, c) !in orphans
    ensures At(s.vNew, c) != -1 ==> At(s.vNew, c) in s.mapInfo
    ensures Inv(h, ClearNew(s, c), limbo, orphans) && NewCellCleared(s, ClearNew(s, c), c)
  {
    hide NewCellCleared, RandomOk, AddrOk, IdsOk, TriedOk, NewOk, RefsOk, EntriesOk, CountsOk, Delete;
    var id := At(s.vNew, c);
    FilledNewCell(h, s, c, limbo, orphans);
    ClearNewEffect(s, c);
    if id != -1 {
      DropCellKeeps(h, s, c, limbo, orphans);
      var s1 := DropCell(s, c);
      if s1.mapInfo[id].nRefCount == 0 {
        DeleteKeeps(h, s1, id, limbo, orphans + {id});
        assert orphans + {id} - {id} == orphans;
      } else {
        AdoptOrphan(s1.mapInfo, limbo, orphans, id);
      }
    }
  }

  lemma AdoptOrphan(mi: Entries, limbo: set<int>, orphans: set<int>, id: int)
    requires EntriesOk(mi, limbo, orphans + {id}) && id in mi && mi[id].nRefCount >= 1
    ensures EntriesOk(mi, limbo, orphans)
  {
    forall x | x in mi ensures EntryOk(mi[x], x in limbo, x in orphans) {
      assert EntryOk(mi[x], x in limbo, x in orphans + {id});
    }
  }
}
