/** CAddrMan::Check_: its loops find no fault if and only if the indexes agree. */
module AddrManCheck {
  import opened AddrMan
  import opened AddrManDisk
  import opened AddrManEffects
  import opened AddrManOps
  import opened AddrManRuns
  import opened AddrManager
  import opened Sets

  /** Looking an address up puts 0 where there was nothing. */
  function LookedUp(ma: map<IP, int>, ip: IP): int { if ip in ma then ma[ip] else 0 }

  ghost predicate AddrFound(mi: Entries, ma: map<IP, int>) {
    forall id :: id in mi ==> LookedUp(ma, mi[id].service.ip) == id
  }

  /** What Check_ accepts. It does not see stray addresses, ids beyond the counter, or pending collisions. */
  ghost predicate Checked(h: Hashes, s: State) {
    && s.nKey != 0 && -1 !in s.mapInfo
    && RandomOk(s.mapInfo, s.vRandom)
    && AddrFound(s.mapInfo, s.mapAddr)
    && TriedOk(h, s.nKey, s.mapInfo, s.tried)
    && NewOk(h, s.nKey, s.mapInfo, s.vNew)
    && RefsOk(h, s.nKey, s.mapInfo, s.vNew)
    && CountsOk(s.mapInfo, s.nNew, s.nTried, {})
    && EntriesOk(s.mapInfo, {}, {})
  }

  /** Every consistent manager with a key passes. */
  lemma ConsistentChecked(h: Hashes, s: State)
    requires Consistent(h, s) && s.nKey != 0
    ensures Checked(h, s)
  {
    hide RandomOk, TriedOk, NewOk, RefsOk, CountsOk, EntriesOk;
  }

  /** A manager that passes is consistent, apart from what Check_ does not see. */
  lemma CheckedConsistent(h: Hashes, s: State)
    requires Checked(h, s) && IdsOk(s.mapInfo, s.nIdCount) && CollisionsOk(h, s)
    requires forall a :: a in s.mapAddr ==> s.mapAddr[a] in s.mapInfo && s.mapInfo[s.mapAddr[a]].service.ip == a
    requires 0 in s.mapInfo ==> s.mapInfo[0].service.ip in s.mapAddr
    ensures Consistent(h, s)
  {
    hide RandomOk, TriedOk, NewOk, RefsOk, CountsOk, EntriesOk;
    forall id | id in s.mapInfo
      ensures s.mapInfo[id].service.ip in s.mapAddr && s.mapAddr[s.mapInfo[id].service.ip] == id
    {
      assert LookedUp(s.mapAddr, s.mapInfo[id].service.ip) == id;
    }
  }

  /** After any run Check_ finds nothing. */
  lemma RunChecked(h: Hashes, s: State, ops: seq<Op>)
    requires Consistent(h, s) && (forall i :: 0 <= i < |ops| ==> Timely(ops[i])) && Run(h, s, ops).nKey != 0
    ensures Checked(h, Run(h, s, ops))
  {
    hide Consistent, Checked, Run;
    RunKeeps(h, s, ops);
    ConsistentChecked(h, Run(h, s, ops));
  }

  /** What Clear leaves behind: a pending collision survives, the next address gets the id it names, and the cell that
      SelectTriedCollision_ then looks at is empty, so that it reads mapInfo[-1]. */
  lemma StaleCollisionAfterClear(h: Hashes, key: nat, newTable: Table, triedTable: Table, stale: set<int>,
                                 addr: Address, source: IP,
                                 nTimePenalty: int, now: AddTimes, lucky: bool)
    requires (forall c :: At(newTable, c) == -1 && At(triedTable, c) == -1) && 0 in stale
             && h.isRoutable(addr.service.ip)
    ensures var s := Initial(key, newTable, triedTable).(collisions := stale);
            && Inv(h, s, {}, {}) && !CollisionsOk(h, s)
            && var r := Add(h, s, addr, source, nTimePenalty, now, lucky);
               0 in r.collisions && 0 in r.mapInfo && At(r.tried, TriedCell(h, key, r.mapInfo[0].service)) == -1
  {
    hide RandomOk, AddrOk, IdsOk, TriedOk, NewOk, RefsOk, CountsOk, EntriesOk, TriedCell, NewCell, At, Buckets;
    InitialConsistent(h, key, newTable, triedTable);
    var s := Initial(key, newTable, triedTable).(collisions := stale);
    var info := NewInfo(addr, source, Penalty(addr, source, nTimePenalty));
    CreatedKeeps(h, s, info, {});
    assert {} + {s.nIdCount} == {s.nIdCount};
  }

  /** The arguments of one call of Add_. */
  datatype Addition = Addition(addr: Address, source: IP, nTimePenalty: int, now: AddTimes, lucky: bool)

  ghost function AddOne(h: Hashes, s: State, a: Addition): (r: State)
    requires Inv(h, s, {}, {})
    ensures Inv(h, r, {}, {}) && r.collisions == s.collisions && r.tried == s.tried && r.nKey == s.nKey
  {
    AddKeepsIndexes(h, s, a.addr, a.source, a.nTimePenalty, a.now, a.lucky);
    Add(h, s, a.addr, a.source, a.nTimePenalty, a.now, a.lucky)
  }

  ghost function AddAll(h: Hashes, s: State, adds: seq<Addition>): (r: State)
    requires Inv(h, s, {}, {})
    ensures Inv(h, r, {}, {}) && r.collisions == s.collisions && r.tried == s.tried && r.nKey == s.nKey
    decreases |adds|
  {
    if adds == [] then s else AddAll(h, AddOne(h, s, adds[0]), adds[1..])
  }

  /** The cleared manager with collisions still pending. */
  ghost function ClearedWith(h: Hashes, key: nat, newTable: Table, triedTable: Table, stale: set<int>): (s: State)
    requires forall c :: At(newTable, c) == -1 && At(triedTable, c) == -1
    ensures Inv(h, s, {}, {}) && s.collisions == stale && s.tried == triedTable && s.nKey == key
  {
    InitialConsistent(h, key, newTable, triedTable);
    Initial(key, newTable, triedTable).(collisions := stale)
  }

  /** After Clear and any additions the cell of every stale id that has an entry again is empty, so
      SelectTriedCollision_ on it reads mapInfo[-1]; the manager is consistent exactly if all stale ids were given
      out again and their entries are gone. */
  lemma StaleCollisionsAfterAdditions(h: Hashes, key: nat, newTable: Table, triedTable: Table, stale: set<int>,
                                      adds: seq<Addition>)
    requires forall c :: At(newTable, c) == -1 && At(triedTable, c) == -1
    ensures var r := AddAll(h, ClearedWith(h, key, newTable, triedTable, stale), adds);
            && r.collisions == stale
            && (forall id :: id in stale && id in r.mapInfo ==>
                  At(r.tried, TriedCell(h, r.nKey, r.mapInfo[id].service)) == -1)
            && (Consistent(h, r) <==> forall id :: id in stale ==> 0 <= id < r.nIdCount && id !in r.mapInfo)
  {
    hide Inv, TriedCell;
  }

  /** And it does come to that: when the id counter reaches a stale id, the next unknown routable address whose cell
      yields gets that id. */
  lemma StaleIdGivenOut(h: Hashes, key: nat, newTable: Table, triedTable: Table, stale: set<int>, adds: seq<Addition>,
                        a: Addition)
    requires forall c :: At(newTable, c) == -1 && At(triedTable, c) == -1
    requires var s := AddAll(h, ClearedWith(h, key, newTable, triedTable, stale), adds);
             && s.nIdCount in stale && h.isRoutable(a.addr.service.ip) && !Known(s, a.addr.service.ip)
             && Yields(s, SourceCell(h, s.nKey, a.addr.service, a.source), a.now.cell)
    ensures var s := AddAll(h, ClearedWith(h, key, newTable, triedTable, stale), adds);
            var r, id := AddOne(h, s, a), s.nIdCount;
            && id in r.collisions && id in r.mapInfo
            && At(r.tried, TriedCell(h, r.nKey, r.mapInfo[id].service)) == -1
  {
    hide Inv, TriedCell, Add, Yields, SourceCell;
    var s := AddAll(h, ClearedWith(h, key, newTable, triedTable, stale), adds);
    AddNewEffect(h, s, a.addr, a.source, a.nTimePenalty, a.now, a.lucky);
  }

  // ---------------------------------------------------------------------------------------------
  // The entries
  // ---------------------------------------------------------------------------------------------

  ghost predicate EntryPasses(id: int, info: Info, ma: map<IP, int>, vr: seq<int>) {
    && (if info.fInTried then info.nLastSuccess != 0 && info.nRefCount == 0
        else 0 < info.nRefCount <= NEW_BUCKETS_PER_ADDRESS)
    && LookedUp(ma, info.service.ip) == id
    && 0 <= info.nRandomPos < |vr| && vr[info.nRandomPos] == id
    && info.nLastTry >= 0 && info.nLastSuccess >= 0
  }

  ghost predicate EntriesPass(mi: Entries, ids: set<int>, ma: map<IP, int>, vr: seq<int>)
    requires ids <= mi.Keys
  {
    forall id :: id in ids ==> EntryPasses(id, mi[id], ma, vr)
  }

  /** The tried ids, and the untried ones with their reference counts. */
  ghost predicate Collected(mi: Entries, ids: set<int>, setTried: set<int>, mapNew: map<int, int>)
    requires ids <= mi.Keys
  {
    && (forall id :: id in setTried <==> id in ids && mi[id].fInTried)
    && (forall id :: id in mapNew <==> id in ids && !mi[id].fInTried)
    && (forall id :: id in mapNew ==> mapNew[id] == mi[id].nRefCount)
  }

  /** Looks at one entry. */
  method CheckEntry(m: AddressManager, n: int) returns (err: int)
    requires n in m.mapInfo
    modifies m`mapAddr
    ensures forall ip :: LookedUp(m.mapAddr, ip) == LookedUp(old(m.mapAddr), ip)
    ensures err == 0 <==> EntryPasses(n, m.mapInfo[n], old(m.mapAddr), m.vRandom)
  {
    var info := m.mapInfo[n];
    if info.fInTried {
      if info.nLastSuccess == 0 { return -1; }
      if info.nRefCount != 0 { return -2; }
    } else {
      if info.nRefCount < 0 || info.nRefCount > NEW_BUCKETS_PER_ADDRESS { return -3; }
      if info.nRefCount == 0 { return -4; }
    }
    if info.service.ip !in m.mapAddr { m.mapAddr := m.mapAddr[info.service.ip := 0]; }
    if m.mapAddr[info.service.ip] != n { return -5; }
    if info.nRandomPos < 0 || info.nRandomPos >= |m.vRandom| || m.vRandom[info.nRandomPos] != n { return -14; }
    if info.nLastTry < 0 { return -6; }
    if info.nLastSuccess < 0 { return -8; }
    err := 0;
  }

  method CheckEntries(m: AddressManager) returns (err: int, setTried: set<int>, mapNew: map<int, int>)
    modifies m`mapAddr
    ensures forall ip :: LookedUp(m.mapAddr, ip) == LookedUp(old(m.mapAddr), ip)
    ensures err == 0 <==> EntriesPass(m.mapInfo, m.mapInfo.Keys, old(m.mapAddr), m.vRandom)
    ensures err == 0 ==> Collected(m.mapInfo, m.mapInfo.Keys, setTried, mapNew)
  {
    hide LookedUp, EntryPasses, EntriesPass, Collected;
    setTried, mapNew := {}, map[];
    ghost var ma0 := m.mapAddr;
    var rest := m.mapInfo.Keys;
    ghost var done := {};
    NothingPasses(m.mapInfo, ma0, m.vRandom);
    while rest != {}
      invariant done + rest == m.mapInfo.Keys && done !! rest
      invariant forall ip :: LookedUp(m.mapAddr, ip) == LookedUp(ma0, ip)
      invariant EntriesPass(m.mapInfo, done, ma0, m.vRandom) && Collected(m.mapInfo, done, setTried, mapNew)
      decreases |rest|
      modifies m`mapAddr
    {
      ghost var some := SomeElement(rest);
      var n :| n in rest;
      ghost var before := m.mapAddr;
      err := CheckEntry(m, n);
      SamePasses(n, m.mapInfo[n], before, ma0, m.vRandom);
      PassNext(m.mapInfo, done, n, ma0, m.vRandom);
      CollectNext(m.mapInfo, done, n, setTried, mapNew);
      if err != 0 { return; }
      if m.mapInfo[n].fInTried { setTried := setTried + {n}; } else { mapNew := mapNew[n := m.mapInfo[n].nRefCount]; }
      done, rest := done + {n}, rest - {n};
    }
    assert done == m.mapInfo.Keys;
    err := 0;
  }

  lemma NothingPasses(mi: Entries, ma: map<IP, int>, vr: seq<int>)
    ensures EntriesPass(mi, {}, ma, vr) && Collected(mi, {}, {}, map[])
  {}

  lemma PassNext(mi: Entries, ids: set<int>, n: int, ma: map<IP, int>, vr: seq<int>)
    requires ids <= mi.Keys && n in mi && EntriesPass(mi, ids, ma, vr)
    ensures if EntryPasses(n, mi[n], ma, vr) then EntriesPass(mi, ids + {n}, ma, vr)
            else !EntriesPass(mi, mi.Keys, ma, vr)
  {
    hide EntryPasses;
  }

  lemma CollectNext(mi: Entries, ids: set<int>, n: int, setTried: set<int>, mapNew: map<int, int>)
    requires ids <= mi.Keys && n in mi && n !in ids && Collected(mi, ids, setTried, mapNew)
    ensures if mi[n].fInTried then Collected(mi, ids + {n}, setTried + {n}, mapNew)
            else Collected(mi, ids + {n}, setTried, mapNew[n := mi[n].nRefCount])
  {}

  lemma SamePasses(id: int, info: Info, ma: map<IP, int>, ma': map<IP, int>, vr: seq<int>)
    requires forall ip :: LookedUp(ma, ip) == LookedUp(ma', ip)
    ensures EntryPasses(id, info, ma, vr) <==> EntryPasses(id, info, ma', vr)
  {
    hide LookedUp;
  }

  // ---------------------------------------------------------------------------------------------
  // The tried table
  // ---------------------------------------------------------------------------------------------

  lemma BeforeNext(c: Cell, n: nat, i: nat)
    ensures Before(c, n, i + 1) <==> Before(c, n, i) || c == Cell(n, i)
    ensures !Before(Cell(n, i), n, i)
  {}

  /** The tried ids that were not met before cell (n, i). */
  ghost function TriedLeft(h: Hashes, key: nat, mi: Entries, t: Table, n: nat, i: nat): set<int> {
    set id | id in mi && mi[id].fInTried &&
             !(Before(TriedCell(h, key, mi[id].service), n, i) && At(t, TriedCell(h, key, mi[id].service)) == id != -1)
  }

  ghost predicate TriedSeen(h: Hashes, key: nat, mi: Entries, t: Table, n: nat, i: nat) {
    forall c :: Before(c, n, i) && At(t, c) != -1 ==> TriedHolds(h, key, mi, At(t, c), c)
  }

  lemma TriedStep(h: Hashes, key: nat, mi: Entries, t: Table, n: nat, i: nat)
    requires TriedSeen(h, key, mi, t, n, i)
    ensures var v := At(t, Cell(n, i)); var left := TriedLeft(h, key, mi, t, n, i);
            if v == -1 then TriedSeen(h, key, mi, t, n, i + 1) && TriedLeft(h, key, mi, t, n, i + 1) == left
            else if v in left && TriedCell(h, key, mi[v].service) == Cell(n, i)
              then TriedSeen(h, key, mi, t, n, i + 1) && TriedLeft(h, key, mi, t, n, i + 1) == left - {v}
            else !TriedHolds(h, key, mi, v, Cell(n, i))
  {
    hide TriedCell, At, Before;
    BeforeNext(Cell(n, i), n, i);
    forall c ensures Before(c, n, i + 1) <==> Before(c, n, i) || c == Cell(n, i) { BeforeNext(c, n, i); }
  }

  lemma TriedBucketEnd(h: Hashes, key: nat, mi: Entries, t: Table, n: nat)
    requires TriedSeen(h, key, mi, t, n, BUCKET_SIZE) && forall c :: c in t ==> c.pos < BUCKET_SIZE
    ensures TriedSeen(h, key, mi, t, n + 1, 0)
            && TriedLeft(h, key, mi, t, n + 1, 0) == TriedLeft(h, key, mi, t, n, BUCKET_SIZE)
  {
    hide TriedCell, TriedHolds;
    forall id | id in mi
      ensures Before(TriedCell(h, key, mi[id].service), n + 1, 0)
              <==> Before(TriedCell(h, key, mi[id].service), n, BUCKET_SIZE)
    {
      TriedCellRange(h, key, mi[id].service);
    }
  }

  lemma TriedStart(h: Hashes, key: nat, mi: Entries, t: Table)
    ensures TriedSeen(h, key, mi, t, 0, 0) && TriedLeft(h, key, mi, t, 0, 0) == TriedIds(mi)
  {
    hide TriedCell;
  }

  /** With nothing left, every tried id is in its cell. */
  lemma TriedEnd(h: Hashes, key: nat, mi: Entries, t: Table)
    requires forall c :: c in t ==> c.bucket < TRIED_BUCKET_COUNT
    ensures TriedOk(h, key, mi, t) && -1 !in TriedIds(mi) <==>
              TriedSeen(h, key, mi, t, TRIED_BUCKET_COUNT, 0) && TriedLeft(h, key, mi, t, TRIED_BUCKET_COUNT, 0) == {}
  {
    hide TriedCell, TriedHolds;
    var left := TriedLeft(h, key, mi, t, TRIED_BUCKET_COUNT, 0);
    forall id | id in mi && mi[id].fInTried
      ensures id in left <==> id == -1 || At(t, TriedCell(h, key, mi[id].service)) != id
    {
      TriedCellRange(h, key, mi[id].service);
    }
    if TriedOk(h, key, mi, t) && -1 !in TriedIds(mi) {
      if left != {} { var id := SomeElement(left); }
    }
  }

  lemma BadTriedCell(h: Hashes, key: nat, mi: Entries, t: Table, c: Cell)
    requires At(t, c) != -1 && !TriedHolds(h, key, mi, At(t, c), c)
    ensures !TriedOk(h, key, mi, t)
  {}

  lemma TableCells(a: array2<int>)
    ensures forall c :: c in TableOf(a) ==> c.bucket < a.Length0 && c.pos < a.Length1
  {}

  method CheckTriedBucket(h: Hashes, key: nat, mi: Entries, a: array2<int>, n: nat, setTried: set<int>)
    returns (err: int, left: set<int>)
    requires n < a.Length0 == TRIED_BUCKET_COUNT && a.Length1 == BUCKET_SIZE
    requires TriedSeen(h, key, mi, TableOf(a), n, 0) && setTried == TriedLeft(h, key, mi, TableOf(a), n, 0)
    ensures if err == 0 then TriedSeen(h, key, mi, TableOf(a), n + 1, 0)
            && left == TriedLeft(h, key, mi, TableOf(a), n + 1, 0)
            else !TriedOk(h, key, mi, TableOf(a))
  {
    hide TriedSeen, TableOf, TriedOk, At;
    left := setTried;
    for i := 0 to BUCKET_SIZE
      invariant TriedSeen(h, key, mi, TableOf(a), n, i) && left == TriedLeft(h, key, mi, TableOf(a), n, i)
    {
      TriedStep(h, key, mi, TableOf(a), n, i);
      var v := ReadCell(a, n, i);
      if v != -1 {
        if !TriedHolds(h, key, mi, v, Cell(n, i)) { BadTriedCell(h, key, mi, TableOf(a), Cell(n, i)); }
        if v !in left { return -11, left; }
        if TriedBucket(h, key, mi[v].service) != n { return -17, left; }
        if Position(h, key, false, n, mi[v].service) != i { return -18, left; }
        left := left - {v};
      }
    }
    TableCells(a);
    TriedBucketEnd(h, key, mi, TableOf(a), n);
    err := 0;
  }

  method CheckTriedTable(h: Hashes, key: nat, mi: Entries, a: array2<int>, setTried: set<int>)
    returns (err: int, left: set<int>)
    requires a.Length0 == TRIED_BUCKET_COUNT && a.Length1 == BUCKET_SIZE && setTried == TriedIds(mi)
    ensures TriedOk(h, key, mi, TableOf(a)) && -1 !in TriedIds(mi) <==> err == 0 && left == {}
  {
    hide TriedSeen, TableOf, TriedOk, TriedLeft;
    left := setTried;
    TriedStart(h, key, mi, TableOf(a));
    for n := 0 to TRIED_BUCKET_COUNT
      invariant TriedSeen(h, key, mi, TableOf(a), n, 0) && left == TriedLeft(h, key, mi, TableOf(a), n, 0)
    {
      err, left := CheckTriedBucket(h, key, mi, a, n, left);
      if err != 0 { return; }
    }
    TableCells(a);
    TriedEnd(h, key, mi, TableOf(a));
    err := 0;
  }

  // ---------------------------------------------------------------------------------------------
  // The new table
  // ---------------------------------------------------------------------------------------------

  /** The buckets with the id, among those before cell (n, i). */
  ghost function SeenIn(h: Hashes, key: nat, t: Table, svc: Service, id: int, n: nat, i: nat): set<nat> {
    set b: nat | b < NEW_BUCKET_COUNT && Before(NewCell(h, key, svc, b), n, i)
      && At(t, NewCell(h, key, svc, b)) == id != -1
  }

  ghost predicate NewSeen(h: Hashes, key: nat, mi: Entries, t: Table, n: nat, i: nat) {
    forall c :: Before(c, n, i) && At(t, c) != -1 ==> NewHolds(h, key, mi, At(t, c), c)
  }

  /** mapNew holds what is left of the reference counts that are not used up yet. */
  ghost predicate CountedAt(h: Hashes, key: nat, t: Table, info: Info, id: int, mapNew: map<int, int>, n: nat, i: nat) {
    var left := info.nRefCount - |SeenIn(h, key, t, info.service, id, n, i)|;
    && (id in mapNew <==> !info.fInTried && left != 0)
    && (id in mapNew ==> mapNew[id] == left)
    && (!info.fInTried ==> left >= 0)
  }

  ghost predicate Counted(h: Hashes, key: nat, mi: Entries, t: Table, mapNew: map<int, int>, n: nat, i: nat) {
    && (forall id :: id in mapNew ==> id in mi)
    && forall id :: id in mi ==> CountedAt(h, key, t, mi[id], id, mapNew, n, i)
  }

  /** No untried entry is in more cells than it has references. */
  ghost predicate WithinRefs(h: Hashes, key: nat, mi: Entries, t: Table) {
    forall id :: id in mi && !mi[id].fInTried ==> |Buckets(h, key, t, mi[id].service, id)| <= mi[id].nRefCount
  }

  lemma SeenNext(h: Hashes, key: nat, t: Table, svc: Service, id: int, n: nat, i: nat)
    requires n < NEW_BUCKET_COUNT
    ensures SeenIn(h, key, t, svc, id, n, i + 1) == SeenIn(h, key, t, svc, id, n, i) +
              if NewCell(h, key, svc, n) == Cell(n, i) && At(t, Cell(n, i)) == id != -1 then {n} else {}
    ensures NewCell(h, key, svc, n) == Cell(n, i) ==> n !in SeenIn(h, key, t, svc, id, n, i)
  {
    assert forall b: nat :: NewCell(h, key, svc, b).bucket == b;
    hide NewCell, At;
  }

  lemma SeenBounded(h: Hashes, key: nat, t: Table, svc: Service, id: int, n: nat, i: nat)
    ensures |SeenIn(h, key, t, svc, id, n, i)| <= |Buckets(h, key, t, svc, id)|
  {
    SubsetSize(SeenIn(h, key, t, svc, id, n, i), Buckets(h, key, t, svc, id));
  }

  function Spent(mapNew: map<int, int>, v: int): map<int, int>
    requires v in mapNew
  {
    if mapNew[v] == 1 then mapNew - {v} else mapNew[v := mapNew[v] - 1]
  }

  lemma CountNext(h: Hashes, key: nat, t: Table, info: Info, id: int, mapNew: map<int, int>, n: nat, i: nat)
    requires n < NEW_BUCKET_COUNT && CountedAt(h, key, t, info, id, mapNew, n, i)
    ensures At(t, Cell(n, i)) != id || id == -1 ==> CountedAt(h, key, t, info, id, mapNew, n, i + 1)
    ensures At(t, Cell(n, i)) == id != -1 && id in mapNew && NewCell(h, key, info.service, n) == Cell(n, i)
            ==> CountedAt(h, key, t, info, id, Spent(mapNew, id), n, i + 1)
    ensures At(t, Cell(n, i)) == id != -1 && id !in mapNew && !info.fInTried
            && NewCell(h, key, info.service, n) == Cell(n, i)
            ==> |Buckets(h, key, t, info.service, id)| > info.nRefCount
  {
    hide NewCell, At, SeenIn, Buckets;
    SeenNext(h, key, t, info.service, id, n, i);
    SeenBounded(h, key, t, info.service, id, n, i + 1);
  }

  lemma NewStep(h: Hashes, key: nat, mi: Entries, t: Table, mapNew: map<int, int>, n: nat, i: nat)
    requires n < NEW_BUCKET_COUNT && NewSeen(h, key, mi, t, n, i) && Counted(h, key, mi, t, mapNew, n, i)
    ensures var v := At(t, Cell(n, i));
            if v == -1 then NewSeen(h, key, mi, t, n, i + 1) && Counted(h, key, mi, t, mapNew, n, i + 1)
            else if v in mapNew && NewCell(h, key, mi[v].service, n) == Cell(n, i)
              then NewSeen(h, key, mi, t, n, i + 1) && Counted(h, key, mi, t, Spent(mapNew, v), n, i + 1)
            else !NewOk(h, key, mi, t) || !WithinRefs(h, key, mi, t)
  {
    hide NewCell, At, SeenIn, Buckets, Before;
    var v := At(t, Cell(n, i));
    forall c ensures Before(c, n, i + 1) <==> Before(c, n, i) || c == Cell(n, i) { BeforeNext(c, n, i); }
    forall id | id in mi ensures CountedAt(h, key, t, mi[id], id, mapNew, n, i) { }
    if v == -1 {
      forall id | id in mi
        ensures CountedAt(h, key, t, mi[id], id, mapNew, n, i + 1)
      {
        CountNext(h, key, t, mi[id], id, mapNew, n, i);
      }
    } else if v in mapNew && NewCell(h, key, mi[v].service, n) == Cell(n, i) {
      forall id | id in mi ensures CountedAt(h, key, t, mi[id], id, Spent(mapNew, v), n, i + 1) {
        CountNext(h, key, t, mi[id], id, mapNew, n, i);
      }
    } else if NewHolds(h, key, mi, v, Cell(n, i)) {
      CountNext(h, key, t, mi[v], v, mapNew, n, i);
    } else {
      assert !NewOk(h, key, mi, t);
    }
  }

  lemma NewBucketEnd(h: Hashes, key: nat, mi: Entries, t: Table, mapNew: map<int, int>, n: nat)
    requires NewSeen(h, key, mi, t, n, BUCKET_SIZE) && Counted(h, key, mi, t, mapNew, n, BUCKET_SIZE)
    requires forall c :: c in t ==> c.pos < BUCKET_SIZE
    ensures NewSeen(h, key, mi, t, n + 1, 0) && Counted(h, key, mi, t, mapNew, n + 1, 0)
  {
    hide NewHolds;
    forall id | id in mi ensures CountedAt(h, key, t, mi[id], id, mapNew, n + 1, 0) {
      assert CountedAt(h, key, t, mi[id], id, mapNew, n, BUCKET_SIZE);
      assert SeenIn(h, key, t, mi[id].service, id, n + 1, 0) == SeenIn(h, key, t, mi[id].service, id, n, BUCKET_SIZE);
    }
  }

  lemma NewStart(h: Hashes, key: nat, mi: Entries, t: Table, setTried: set<int>, mapNew: map<int, int>)
    requires Collected(mi, mi.Keys, setTried, mapNew) && forall id :: id in mapNew ==> mapNew[id] > 0
    ensures NewSeen(h, key, mi, t, 0, 0) && Counted(h, key, mi, t, mapNew, 0, 0)
  {
    hide At;
    forall id | id in mi ensures CountedAt(h, key, t, mi[id], id, mapNew, 0, 0) {
      assert SeenIn(h, key, t, mi[id].service, id, 0, 0) == {};
      if !mi[id].fInTried { assert id in mapNew && mapNew[id] == mi[id].nRefCount; }
    }
  }

  /** With nothing left, every untried entry is in as many cells as it has references. */
  lemma NewEnd(h: Hashes, key: nat, mi: Entries, t: Table, mapNew: map<int, int>)
    requires forall c :: c in t ==> c.bucket < NEW_BUCKET_COUNT
    requires NewSeen(h, key, mi, t, NEW_BUCKET_COUNT, 0) && Counted(h, key, mi, t, mapNew, NEW_BUCKET_COUNT, 0)
    requires forall id :: id in mi ==> if mi[id].fInTried then mi[id].nRefCount == 0 else mi[id].nRefCount > 0
    ensures NewOk(h, key, mi, t)
    ensures -1 !in TriedIds(mi) ==> (mapNew == map[] <==> RefsOk(h, key, mi, t) && -1 !in NewIds(mi))
  {
    hide NewHolds;
    forall id | id in mi && !mi[id].fInTried
      ensures id in mapNew <==> id == -1 || mi[id].nRefCount != |Buckets(h, key, t, mi[id].service, id)|
    {
      assert CountedAt(h, key, t, mi[id], id, mapNew, NEW_BUCKET_COUNT, 0);
      AllSeen(h, key, t, mi[id].service, id);
    }
    forall id | id in mi && mi[id].fInTried && id != -1
      ensures id !in mapNew && mi[id].nRefCount == |Buckets(h, key, t, mi[id].service, id)|
    {
      assert CountedAt(h, key, t, mi[id], id, mapNew, NEW_BUCKET_COUNT, 0);
      NoTriedCells(h, key, mi, t, id);
    }
    if -1 !in TriedIds(mi) {
      forall id
        ensures id in mapNew <==> id in mi && (id == -1 || mi[id].nRefCount != |Buckets(h, key, t, mi[id].service, id)|)
      {}
      if mapNew != map[] { var id := SomeElement(mapNew.Keys); }
    }
  }

  lemma AllSeen(h: Hashes, key: nat, t: Table, svc: Service, id: int)
    ensures SeenIn(h, key, t, svc, id, NEW_BUCKET_COUNT, 0) == if id == -1 then {} else Buckets(h, key, t, svc, id)
  {
    hide At;
  }

  lemma NoTriedCells(h: Hashes, key: nat, mi: Entries, t: Table, id: int)
    requires NewOk(h, key, mi, t) && id in mi && mi[id].fInTried && id != -1
    ensures Buckets(h, key, t, mi[id].service, id) == {}
  {}

  method CheckNewBucket(h: Hashes, key: nat, mi: Entries, a: array2<int>, n: nat, mapNew: map<int, int>)
    returns (err: int, left: map<int, int>)
    requires n < a.Length0 == NEW_BUCKET_COUNT && a.Length1 == BUCKET_SIZE
    requires NewSeen(h, key, mi, TableOf(a), n, 0) && Counted(h, key, mi, TableOf(a), mapNew, n, 0)
    ensures if err == 0 then NewSeen(h, key, mi, TableOf(a), n + 1, 0)
            && Counted(h, key, mi, TableOf(a), left, n + 1, 0)
            else !NewOk(h, key, mi, TableOf(a)) || !WithinRefs(h, key, mi, TableOf(a))
  {
    hide NewSeen, TableOf, NewOk, WithinRefs, At, CountedAt;
    left := mapNew;
    for i := 0 to BUCKET_SIZE
      invariant NewSeen(h, key, mi, TableOf(a), n, i) && Counted(h, key, mi, TableOf(a), left, n, i)
    {
      NewStep(h, key, mi, TableOf(a), left, n, i);
      var v := ReadCell(a, n, i);
      if v != -1 {
        if v !in left { return -12, left; }
        if Position(h, key, true, n, mi[v].service) != i { return -19, left; }
        left := if left[v] == 1 then left - {v} else left[v := left[v] - 1];
      }
    }
    TableCells(a);
    NewBucketEnd(h, key, mi, TableOf(a), left, n);
    err := 0;
  }

  method CheckNewTable(h: Hashes, key: nat, mi: Entries, a: array2<int>, ghost setTried: set<int>, mapNew: map<int,
                       int>)
    returns (err: int, left: map<int, int>)
    requires a.Length0 == NEW_BUCKET_COUNT && a.Length1 == BUCKET_SIZE && Collected(mi, mi.Keys, setTried, mapNew)
    requires forall id :: id in mi ==> if mi[id].fInTried then mi[id].nRefCount == 0 else mi[id].nRefCount > 0
    ensures -1 !in TriedIds(mi)
            ==> (err == 0 && left == map[]
                 <==> NewOk(h, key, mi, TableOf(a)) && RefsOk(h, key, mi, TableOf(a)) && -1 !in NewIds(mi))
  {
    hide NewSeen, TableOf, NewOk, Counted, WithinRefs, RefsOk;
    left := mapNew;
    NewStart(h, key, mi, TableOf(a), setTried, mapNew);
    for n := 0 to NEW_BUCKET_COUNT
      invariant NewSeen(h, key, mi, TableOf(a), n, 0) && Counted(h, key, mi, TableOf(a), left, n, 0)
    {
      err, left := CheckNewBucket(h, key, mi, a, n, left);
      if err != 0 {
        if RefsOk(h, key, mi, TableOf(a)) { RefsWithin(h, key, mi, TableOf(a)); }
        return;
      }
    }
    TableCells(a);
    NewEnd(h, key, mi, TableOf(a), left);
    err := 0;
  }

  lemma RefsWithin(h: Hashes, key: nat, mi: Entries, t: Table)
    requires RefsOk(h, key, mi, t)
    ensures WithinRefs(h, key, mi, t)
  {}

  // ---------------------------------------------------------------------------------------------
  // The counts and the shuffled list
  // ---------------------------------------------------------------------------------------------

  lemma SplitCount(mi: Entries)
    ensures |mi.Keys| == |TriedIds(mi)| + |NewIds(mi)| && NewIds(mi) - {} == NewIds(mi)
  {
    assert mi.Keys == TriedIds(mi) + NewIds(mi) && TriedIds(mi) !! NewIds(mi);
  }

  ghost predicate Listed(mi: Entries, vr: seq<int>) {
    forall id :: id in mi ==> 0 <= mi[id].nRandomPos < |vr| && vr[mi[id].nRandomPos] == id
  }

  lemma PositionTaken(mi: Entries, vr: seq<int>, i: nat)
    requires Listed(mi, vr) && |vr| == |mi.Keys| && i < |vr|
    ensures exists id :: id in mi && mi[id].nRandomPos == i
  {
    if forall id :: id in mi ==> mi[id].nRandomPos != i {
      var f := map id | id in mi :: if mi[id].nRandomPos > i then mi[id].nRandomPos - 1 else mi[id].nRandomPos;
      InjectInto(mi.Keys, f, |vr| - 1);
    }
  }

  /** A list as long as the map, at which every entry finds itself, is the inverse of the entries' positions. */
  lemma ListedIsInverse(mi: Entries, vr: seq<int>)
    ensures RandomOk(mi, vr) <==> Listed(mi, vr) && |vr| == |mi.Keys|
  {
    if RandomOk(mi, vr) {
      forall x ensures x in vr <==> x in mi.Keys { if x in mi { assert vr[mi[x].nRandomPos] == x; } }
      DistinctCount(vr, mi.Keys);
    } else if Listed(mi, vr) && |vr| == |mi.Keys| {
      forall i | 0 <= i < |vr| ensures vr[i] in mi && mi[vr[i]].nRandomPos == i {
        PositionTaken(mi, vr, i);
        var id :| id in mi && mi[id].nRandomPos == i;
      }
    }
  }

  /** What the first loop and the counts establish. */
  ghost predicate EntriesAgree(mi: Entries, ma: map<IP, int>, vr: seq<int>, nNew: int, nTried: int) {
    && RandomOk(mi, vr) && AddrFound(mi, ma) && CountsOk(mi, nNew, nTried, {}) && EntriesOk(mi, {}, {})
    && forall id :: id in mi && mi[id].fInTried ==> mi[id].nRefCount == 0
  }

  lemma EntriesDecide(mi: Entries, ma: map<IP, int>, vr: seq<int>, nNew: int, nTried: int)
    ensures EntriesAgree(mi, ma, vr, nNew, nTried) <==>
              |vr| == nTried + nNew && EntriesPass(mi, mi.Keys, ma, vr) && |TriedIds(mi)| == nTried
                && |NewIds(mi)| == nNew
  {
    hide RandomOk, LookedUp, TriedIds, NewIds;
    SplitCount(mi);
    ListedIsInverse(mi, vr);
    if EntriesAgree(mi, ma, vr, nNew, nTried) {
      forall id | id in mi.Keys ensures EntryPasses(id, mi[id], ma, vr) { assert EntryOk(mi[id], id in {}, id in {}); }
    } else if EntriesPass(mi, mi.Keys, ma, vr) {
      forall id | id in mi ensures EntryOk(mi[id], id in {}, id in {}) && LookedUp(ma, mi[id].service.ip) == id {
        assert EntryPasses(id, mi[id], ma, vr);
      }
      assert Listed(mi, vr) by {
        forall id | id in mi ensures 0 <= mi[id].nRandomPos < |vr| && vr[mi[id].nRandomPos] == id {
          assert EntryPasses(id, mi[id], ma, vr);
        }
      }
      forall id | id in mi && mi[id].fInTried ensures mi[id].nRefCount == 0 { assert EntryPasses(id, mi[id], ma, vr); }
    }
  }

  lemma CheckedSplits(h: Hashes, s: State)
    ensures Checked(h, s) <==>
              && EntriesAgree(s.mapInfo, s.mapAddr, s.vRandom, s.nNew, s.nTried)
              && TriedOk(h, s.nKey, s.mapInfo, s.tried) && -1 !in TriedIds(s.mapInfo)
              && NewOk(h, s.nKey, s.mapInfo, s.vNew) && RefsOk(h, s.nKey, s.mapInfo, s.vNew) && -1 !in NewIds(s.mapInfo)
              && s.nKey != 0
  {
    hide RandomOk, TriedOk, CountsOk, EntriesOk, AddrFound, NewOk, Buckets;
    if Checked(h, s) {
      forall id | id in s.mapInfo && s.mapInfo[id].fInTried ensures s.mapInfo[id].nRefCount == 0 {
        NoTriedCells(h, s.nKey, s.mapInfo, s.vNew, id);
      }
    }
  }

  lemma CollectedSets(mi: Entries, setTried: set<int>, mapNew: map<int, int>)
    requires Collected(mi, mi.Keys, setTried, mapNew)
    ensures setTried == TriedIds(mi) && |mapNew| == |NewIds(mi)|
  {
    forall id ensures id in setTried <==> id in TriedIds(mi) { }
    forall id ensures id in mapNew.Keys <==> id in NewIds(mi) { }
    assert mapNew.Keys == NewIds(mi);
    assert |mapNew| == |mapNew.Keys|;
  }

  /** Check_ reports no error if and only if the manager is as it should be, on any state whatever. */
  method Check_(m: AddressManager) returns (err: int)
    requires m.Shaped()
    modifies m`mapAddr
    ensures err == 0 <==> old(Checked(m.h, m.St()))
    ensures forall ip :: LookedUp(m.mapAddr, ip) == LookedUp(old(m.mapAddr), ip)
  {
    hide TableOf, LookedUp, TriedOk, NewOk, RefsOk, TriedIds, NewIds, EntriesAgree, EntriesPass, Collected, Checked;
    CheckedSplits(m.h, m.St());
    EntriesDecide(m.mapInfo, m.mapAddr, m.vRandom, m.nNew, m.nTried);
    if |m.vRandom| != m.nTried + m.nNew { return -7; }
    var setTried, mapNew;
    err, setTried, mapNew := CheckEntries(m);
    if err != 0 { return; }
    CollectedSets(m.mapInfo, setTried, mapNew);
    if |setTried| != m.nTried { return -9; }
    if |mapNew| != m.nNew { return -10; }
    err := CheckTables(m, setTried, mapNew, old(m.mapAddr));
  }

  lemma PassedRefs(mi: Entries, ma: map<IP, int>, vr: seq<int>)
    requires EntriesPass(mi, mi.Keys, ma, vr)
    ensures forall id :: id in mi ==> if mi[id].fInTried then mi[id].nRefCount == 0 else mi[id].nRefCount > 0
  {
    forall id | id in mi ensures if mi[id].fInTried then mi[id].nRefCount == 0 else mi[id].nRefCount > 0 {
      assert EntryPasses(id, mi[id], ma, vr);
    }
  }

  method CheckTables(m: AddressManager, setTried: set<int>, mapNew: map<int, int>, ghost ma: map<IP, int>)
    returns (err: int)
    requires m.Shaped() && setTried == TriedIds(m.mapInfo) && Collected(m.mapInfo, m.mapInfo.Keys, setTried, mapNew)
    requires EntriesPass(m.mapInfo, m.mapInfo.Keys, ma, m.vRandom)
    ensures err == 0 <==>
              && TriedOk(m.h, m.nKey, m.mapInfo, m.St().tried) && -1 !in TriedIds(m.mapInfo)
              && NewOk(m.h, m.nKey, m.mapInfo, m.St().vNew) && RefsOk(m.h, m.nKey, m.mapInfo, m.St().vNew)
              && -1 !in NewIds(m.mapInfo)
              && m.nKey != 0
  {
    hide TableOf, TriedOk, NewOk, RefsOk, TriedIds, NewIds, Collected, EntriesPass;
    PassedRefs(m.mapInfo, ma, m.vRandom);
    var leftTried, leftNew;
    err, leftTried := CheckTriedTable(m.h, m.nKey, m.mapInfo, m.vvTried, setTried);
    if err != 0 { return; }
    err, leftNew := CheckNewTable(m.h, m.nKey, m.mapInfo, m.vvNew, setTried, mapNew);
    if err != 0 { return; }
    if leftTried != {} { return -13; }
    if leftNew != map[] { return -15; }
    if m.nKey == 0 { return -16; }
    err := 0;
  }
}
