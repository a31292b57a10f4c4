/** The operations of the address manager, each with the proof that it keeps the indexes consistent. */
module AddrManOps {
  import opened AddrMan

  // ---------------------------------------------------------------------------------------------
  // MakeTried
  // ---------------------------------------------------------------------------------------------

  /** The first part of MakeTried: the entry leaves every new bucket and is no longer counted as new. */
  ghost function LeaveNew(h: Hashes, s: State, id: int): State
    requires id in s.mapInfo
  {
    var info := s.mapInfo[id];
    var refs := |Buckets(h, s.nKey, s.vNew, info.service, id)|;
    s.(vNew := Cleared(h, s.nKey, s.vNew, info.service, id, NEW_BUCKET_COUNT),
       mapInfo := s.mapInfo[id := info.(nRefCount := info.nRefCount - refs)],
       nNew := s.nNew - 1)
  }

  lemma LeaveNewKeeps(h: Hashes, s: State, id: int)
    requires Inv(h, s, {}, {}) && id in s.mapInfo && !s.mapInfo[id].fInTried
    ensures Inv(h, LeaveNew(h, s, id), {id}, {})
    ensures var r := LeaveNew(h, s, id);
            && id in r.mapInfo && r.mapInfo[id] == s.mapInfo[id].(nRefCount := 0)
            && r.nKey == s.nKey && r.tried == s.tried && r.nTried == s.nTried
  {
    var info := s.mapInfo[id].(nRefCount := 0);
    hide RandomOk, AddrOk, IdsOk, TriedOk, NewOk, RefsOk, EntriesOk, Cleared, Buckets;
    RefCountOf(h, s, id);
    FilledNewCell(h, s, Cell(0, 0), {}, {});
    RefsAfterClear(h, s.nKey, s.mapInfo, s.vNew, id);
    UpdateIndexes(h, s.nKey, s.mapInfo, s.mapAddr, s.nIdCount, s.tried, LeaveNew(h, s, id).vNew, id, info);
    UpdateRandom(s.mapInfo, s.vRandom, id, info);
    UpdateEntries(s.mapInfo, {}, {}, id, info, {id}, {});
    assert NewIds(s.mapInfo) - {} == NewIds(s.mapInfo) && id in NewIds(s.mapInfo);
  }

  lemma RefCountOf(h: Hashes, s: State, id: int)
    requires Inv(h, s, {}, {}) && id in s.mapInfo
    ensures s.mapInfo[id].nRefCount == |Buckets(h, s.nKey, s.vNew, s.mapInfo[id].service, id)|
    ensures EntryOk(s.mapInfo[id], false, false)
  {
    hide RandomOk, AddrOk, TriedOk, NewOk, CountsOk, Buckets, EntryOk;
    assert EntryOk(s.mapInfo[id], id in {}, id in {});
  }

  /** The entry in the tried cell loses its place. */
  ghost function Evict(s: State, c: Cell): State
    requires At(s.tried, c) in s.mapInfo
  {
    var id := At(s.tried, c);
    s.(mapInfo := s.mapInfo[id := s.mapInfo[id].(fInTried := false)], tried := s.tried[c := -1], nTried := s.nTried - 1)
  }

  lemma FilledTriedCell(h: Hashes, s: State, c: Cell, limbo: set<int>)
    requires Inv(h, s, limbo, {}) && At(s.tried, c) != -1
    ensures var id := At(s.tried, c);
            && id in s.mapInfo && s.mapInfo[id].fInTried && id !in limbo && EntryOk(s.mapInfo[id], false, false)
            && TriedCell(h, s.nKey, s.mapInfo[id].service) == c
  {
    hide RandomOk, AddrOk, NewOk, RefsOk, CountsOk;
    var id := At(s.tried, c);
    assert TriedHolds(h, s.nKey, s.mapInfo, id, c);
    assert EntryOk(s.mapInfo[id], id in limbo, id in {});
  }

  lemma EvictKeeps(h: Hashes, s: State, c: Cell, limbo: set<int>)
    requires Inv(h, s, limbo, {}) && At(s.tried, c) != -1
    ensures At(s.tried, c) in s.mapInfo && s.mapInfo[At(s.tried, c)].nRefCount == 0
    ensures Inv(h, Evict(s, c), limbo + {At(s.tried, c)}, {})
  {
    hide RandomOk, AddrOk, IdsOk, TriedOk, NewOk, RefsOk, EntriesOk;
    FilledTriedCell(h, s, c, limbo);
    var id := At(s.tried, c);
    var info := s.mapInfo[id].(fInTried := false);
    EvictIndexes(h, s.nKey, s.mapInfo, s.mapAddr, s.nIdCount, s.tried, s.vNew, c);
    UpdateRandom(s.mapInfo, s.vRandom, id, info);
    UpdateEntries(s.mapInfo, limbo, {}, id, info, limbo + {id}, {});
    assert id !in NewIds(s.mapInfo) && id in TriedIds(s.mapInfo);
    assert NewIds(s.mapInfo[id := info]) - (limbo + {id}) == NewIds(s.mapInfo) - limbo;
  }

  /** The new cell an entry has through its own source. */
  ghost function HomeCell(h: Hashes, key: nat, info: Info): Cell {
    NewCell(h, key, info.service, NewBucket(h, key, info.service, info.source))
  }

  /** An evicted entry goes back to the new bucket of its own source, over whatever is there. */
  ghost function ReEnter(h: Hashes, s: State, id: int): State
    requires id in s.mapInfo && -1 !in s.mapInfo && RandomOk(s.mapInfo, s.vRandom)
    requires var old_ := At(s.vNew, HomeCell(h, s.nKey, s.mapInfo[id])); old_ != -1 ==> old_ in s.mapInfo && old_ != id
  {
    var c := HomeCell(h, s.nKey, s.mapInfo[id]);
    var s1 := ClearNew(s, c);
    ClearNewEffect(s, c);
    assert id in s1.mapInfo;
    s1.(mapInfo := s1.mapInfo[id := s1.mapInfo[id].(nRefCount := 1)], vNew := s1.vNew[c := id], nNew := s1.nNew + 1)
  }

  /** An entry in limbo is in no cell. */
  lemma LimboInNoCell(h: Hashes, s: State, limbo: set<int>, id: int, orphans: set<int> := {})
    requires Inv(h, s, limbo, orphans) && id in limbo
    ensures id in s.mapInfo && s.mapInfo[id].nRefCount == 0 && !s.mapInfo[id].fInTried
            && EntryOk(s.mapInfo[id], true, false)
    ensures forall c :: At(s.vNew, c) != id
    ensures -1 !in s.mapInfo
  {
    hide RandomOk, AddrOk, TriedOk, CountsOk, NewOk, RefsOk;
    assert EntryOk(s.mapInfo[id], id in limbo, id in orphans);
    NoCellHolds(h, s.nKey, s.mapInfo, s.vNew, id);
  }

  /** Counting an uncounted entry of the new table again. */
  lemma PutNewKeeps(h: Hashes, s: State, id: int, c: Cell, limbo: set<int>)
    requires Inv(h, s, limbo, {}) && id in limbo && At(s.vNew, c) == -1
    requires id in s.mapInfo && c.bucket < NEW_BUCKET_COUNT && c == NewCell(h, s.nKey, s.mapInfo[id].service, c.bucket)
    ensures Inv(h, s.(mapInfo := s.mapInfo[id := s.mapInfo[id].(nRefCount := 1)], vNew := s.vNew[c := id],
                      nNew := s.nNew + 1),
                limbo - {id}, {})
  {
    hide RandomOk, AddrOk, IdsOk, TriedOk, NewOk, RefsOk, EntriesOk;
    LimboInNoCell(h, s, limbo, id);
    var info := s.mapInfo[id].(nRefCount := 1);
    RefsAfterPut(h, s.nKey, s.mapInfo, s.vNew, c, id);
    UpdateIndexes(h, s.nKey, s.mapInfo, s.mapAddr, s.nIdCount, s.tried, s.vNew[c := id], id, info);
    UpdateRandom(s.mapInfo, s.vRandom, id, info);
    UpdateEntries(s.mapInfo, limbo, {}, id, info, limbo - {id}, {});
    assert NewIds(s.mapInfo) - (limbo - {id}) == NewIds(s.mapInfo) - limbo + {id};
  }

  lemma ReEnterKeeps(h: Hashes, s: State, id: int, limbo: set<int>)
    requires Inv(h, s, limbo, {}) && id in limbo
    ensures id in s.mapInfo && -1 !in s.mapInfo
    ensures var c := HomeCell(h, s.nKey, s.mapInfo[id]);
            At(s.vNew, c) != -1 ==> At(s.vNew, c) in s.mapInfo && At(s.vNew, c) != id
    ensures Inv(h, ReEnter(h, s, id), limbo - {id}, {})
    ensures id in ClearNew(s, HomeCell(h, s.nKey, s.mapInfo[id])).mapInfo
  {
    hide RandomOk, AddrOk, IdsOk, TriedOk, NewOk, RefsOk, EntriesOk, CountsOk, ClearNew;
    LimboInNoCell(h, s, limbo, id);
    var c := HomeCell(h, s.nKey, s.mapInfo[id]);
    ClearNewKeeps(h, s, c, limbo, {});
    var s1 := ClearNew(s, c);
    assert id in s1.mapInfo && MovedOnly(LessOneRef(s.mapInfo[id], false), s1.mapInfo[id]);
    PutNewKeeps(h, s1, id, c, limbo);
  }

  /** The last part of MakeTried: the entry takes its tried cell. */
  ghost function PlaceTried(h: Hashes, s: State, id: int): State
    requires id in s.mapInfo
  {
    s.(tried := s.tried[TriedCell(h, s.nKey, s.mapInfo[id].service) := id],
       mapInfo := s.mapInfo[id := s.mapInfo[id].(fInTried := true)],
       nTried := s.nTried + 1)
  }

  lemma PlaceTriedKeeps(h: Hashes, s: State, id: int, orphans: set<int> := {})
    requires Inv(h, s, {id}, orphans) && id in s.mapInfo && s.mapInfo[id].nLastSuccess > 0
    requires At(s.tried, TriedCell(h, s.nKey, s.mapInfo[id].service)) == -1
    ensures Inv(h, PlaceTried(h, s, id), {}, orphans)
  {
    hide RandomOk, AddrOk, IdsOk, TriedOk, NewOk, RefsOk, EntriesOk, TriedCell;
    LimboInNoCell(h, s, {id}, id, orphans);
    var info := s.mapInfo[id].(fInTried := true);
    PlaceIndexes(h, s.nKey, s.mapInfo, s.mapAddr, s.nIdCount, s.tried, s.vNew, id);
    UpdateRandom(s.mapInfo, s.vRandom, id, info);
    UpdateEntries(s.mapInfo, {id}, orphans, id, info, {}, orphans);
    assert id !in TriedIds(s.mapInfo);
    assert NewIds(s.mapInfo[id := info]) - {} == NewIds(s.mapInfo) - {id};
  }

  /** The state of MakeTried before the entry is placed: the cell has been vacated. */
  ghost function Vacated(h: Hashes, s: State, id: int): State
    requires Inv(h, s, {}, {}) && id in s.mapInfo && !s.mapInfo[id].fInTried
  {
    var s1 := LeaveNew(h, s, id);
    LeaveNewKeeps(h, s, id);
    var c := TriedCell(h, s.nKey, s.mapInfo[id].service);
    if At(s1.tried, c) == -1 then s1
    else
      EvictKeeps(h, s1, c, {id});
      ReEnterKeeps(h, Evict(s1, c), At(s1.tried, c), {id} + {At(s1.tried, c)});
      ReEnter(h, Evict(s1, c), At(s1.tried, c))
  }

  ghost function MakeTried(h: Hashes, s: State, id: int): State
    requires Inv(h, s, {}, {}) && id in s.mapInfo && !s.mapInfo[id].fInTried
  {
    var s1 := Vacated(h, s, id);
    VacatedKeeps(h, s, id);
    PlaceTried(h, s1, id)
  }

  lemma VacatedKeeps(h: Hashes, s: State, id: int)
    requires Inv(h, s, {}, {}) && id in s.mapInfo && !s.mapInfo[id].fInTried
    ensures var s1, c := Vacated(h, s, id), TriedCell(h, s.nKey, s.mapInfo[id].service);
            && Inv(h, s1, {id}, {}) && s1.nKey == s.nKey
            && id in s1.mapInfo && MovedOnly(s.mapInfo[id].(nRefCount := 0), s1.mapInfo[id])
            && s1.tried == (if At(s.tried, c) == -1 then s.tried else s.tried[c := -1])
            && At(s1.tried, c) == -1
  {
    hide RandomOk, AddrOk, IdsOk, TriedOk, NewOk, RefsOk, EntriesOk, CountsOk, ClearNew, NewCellCleared, TriedCell,
         HomeCell;
    LeaveNewKeeps(h, s, id);
    var s1 := LeaveNew(h, s, id);
    var c := TriedCell(h, s.nKey, s.mapInfo[id].service);
    if At(s1.tried, c) != -1 {
      var victim := At(s1.tried, c);
      FilledTriedCell(h, s1, c, {id});
      EvictKeeps(h, s1, c, {id});
      var s2 := Evict(s1, c);
      ReEnterKeeps(h, s2, victim, {id} + {victim});
      assert {id} + {victim} - {victim} == {id};
      AtWrite(s1.tried, c, -1);
      LimboInNoCell(h, s2, {id} + {victim}, id);
      ReEnterEffect(h, s2, victim, id);
    }
  }

  /** What ReEnter leaves alone. */
  lemma ReEnterEffect(h: Hashes, s: State, victim: int, id: int)
    requires victim in s.mapInfo && -1 !in s.mapInfo && RandomOk(s.mapInfo, s.vRandom)
    requires var old_ := At(s.vNew, HomeCell(h, s.nKey, s.mapInfo[victim]));
             old_ != -1 ==> old_ in s.mapInfo && old_ != victim
    requires id in s.mapInfo && id != victim && forall c :: At(s.vNew, c) != id
    ensures var s' := ReEnter(h, s, victim);
            && s'.tried == s.tried && s'.nKey == s.nKey
            && id in s'.mapInfo && MovedOnly(s.mapInfo[id], s'.mapInfo[id])
  {
    hide RandomOk, ClearNew, HomeCell;
    var c := HomeCell(h, s.nKey, s.mapInfo[victim]);
    ClearNewEffect(s, c);
    assert At(s.vNew, c) != id;
    assert id in ClearNew(s, c).mapInfo && MovedOnly(LessOneRef(s.mapInfo[id], false), ClearNew(s, c).mapInfo[id]);
  }

  /** MakeTried keeps the indexes consistent: the entry ends in its tried cell, and an entry evicted from
      there is in the new table again. */
  lemma MakeTriedKeeps(h: Hashes, s: State, id: int)
    requires Inv(h, s, {}, {}) && id in s.mapInfo && !s.mapInfo[id].fInTried && s.mapInfo[id].nLastSuccess > 0
    ensures Inv(h, MakeTried(h, s, id), {}, {})
  {
    hide RandomOk, AddrOk, IdsOk, TriedOk, NewOk, RefsOk, EntriesOk, CountsOk, Vacated, TriedCell;
    VacatedKeeps(h, s, id);
    PlaceTriedKeeps(h, Vacated(h, s, id), id);
  }

  // ---------------------------------------------------------------------------------------------
  // What every operation leaves standing
  // ---------------------------------------------------------------------------------------------

  /** Entries keep their address; none appears under an id already given out. */
  ghost predicate ServicesKept(mi: Entries, mi': Entries, nIdCount: int) {
    forall x :: x in mi' ==> (x in mi && mi'[x].service == mi[x].service) || x >= nIdCount
  }

  /** A filled tried cell never becomes empty. */
  ghost predicate FilledStay(t: Table, t': Table) {
    forall c :: At(t, c) != -1 ==> At(t', c) != -1
  }

  ghost predicate Evolves(s: State, s': State) {
    && s'.nKey == s.nKey && s.nIdCount <= s'.nIdCount
    && FilledStay(s.tried, s'.tried)
    && ServicesKept(s.mapInfo, s'.mapInfo, s.nIdCount)
  }

  lemma EvolvesTransitive(a: State, b: State, c: State)
    requires IdsOk(a.mapInfo, a.nIdCount) && Evolves(a, b) && Evolves(b, c)
    ensures Evolves(a, c)
  {
    forall x | x in c.mapInfo
      ensures (x in a.mapInfo && c.mapInfo[x].service == a.mapInfo[x].service) || x >= a.nIdCount
    {
      assert (x in b.mapInfo && c.mapInfo[x].service == b.mapInfo[x].service) || x >= b.nIdCount;
    }
    forall d | At(a.tried, d) != -1 ensures At(c.tried, d) != -1 { assert At(b.tried, d) != -1; }
  }

  /** Pending collisions stay meaningful under any evolution. */
  lemma CollisionsEvolve(h: Hashes, s: State, s': State)
    requires CollisionsOk(h, s) && Evolves(s, s') && s'.collisions <= s.collisions
    ensures CollisionsOk(h, s')
  {
    hide TriedCell;
    forall id | id in s'.collisions
      ensures 0 <= id < s'.nIdCount
              && (id in s'.mapInfo ==> At(s'.tried, TriedCell(h, s'.nKey, s'.mapInfo[id].service)) != -1)
    {
      assert id in s.collisions;
      if id in s'.mapInfo {
        assert id in s.mapInfo && s'.mapInfo[id].service == s.mapInfo[id].service;
        assert At(s.tried, TriedCell(h, s.nKey, s.mapInfo[id].service)) != -1;
      }
    }
  }

  lemma MakeTriedServices(h: Hashes, s: State, id: int)
    requires Inv(h, s, {}, {}) && id in s.mapInfo && !s.mapInfo[id].fInTried
    ensures Evolves(s, MakeTried(h, s, id))
    ensures MakeTried(h, s, id).collisions == s.collisions && MakeTried(h, s, id).nIdCount == s.nIdCount
  {
    hide RandomOk, AddrOk, IdsOk, TriedOk, NewOk, RefsOk, EntriesOk, CountsOk, ClearNew, TriedCell, HomeCell,
         MovedOnly, LessOneRef;
    VacatedKeeps(h, s, id);
    VacatedServices(h, s, id);
    var s1, c := Vacated(h, s, id), TriedCell(h, s.nKey, s.mapInfo[id].service);
    MovedServices(s.mapInfo[id].(nRefCount := 0), s1.mapInfo[id]);
    hide Vacated;
    AtWrite(s.tried, c, -1);
    AtWrite(s1.tried, c, id);
    FilledNewCell(h, s, c, {}, {});
    var t' := s1.tried[c := id];
    assert MakeTried(h, s, id).tried == t';
    forall d | At(s.tried, d) != -1 ensures At(t', d) != -1 {
      assert At(t', d) == if d == c then id else At(s1.tried, d);
    }
  }

  lemma MovedServices(a: Info, b: Info)
    requires MovedOnly(a, b)
    ensures b.service == a.service && b.nRefCount == a.nRefCount && b.fInTried == a.fInTried
  {}

  lemma ClearedServices(s: State, s': State, c: Cell)
    requires NewCellCleared(s, s', c)
    ensures forall x :: x in s'.mapInfo ==> x in s.mapInfo && s'.mapInfo[x].service == s.mapInfo[x].service
  {
    forall x | x in s'.mapInfo ensures x in s.mapInfo && s'.mapInfo[x].service == s.mapInfo[x].service {
      assert MovedOnly(LessOneRef(s.mapInfo[x], x == At(s.vNew, c)), s'.mapInfo[x]);
    }
  }

  lemma VacatedServices(h: Hashes, s: State, id: int)
    requires Inv(h, s, {}, {}) && id in s.mapInfo && !s.mapInfo[id].fInTried
    ensures var s1 := Vacated(h, s, id);
            && ServicesKept(s.mapInfo, s1.mapInfo, s.nIdCount)
            && s1.collisions == s.collisions && s1.nIdCount == s.nIdCount
  {
    hide RandomOk, AddrOk, IdsOk, TriedOk, NewOk, RefsOk, EntriesOk, CountsOk, ClearNew, TriedCell, HomeCell;
    LeaveNewKeeps(h, s, id);
    var s1 := LeaveNew(h, s, id);
    var c := TriedCell(h, s.nKey, s.mapInfo[id].service);
    if At(s1.tried, c) != -1 {
      var victim := At(s1.tried, c);
      FilledTriedCell(h, s1, c, {id});
      EvictKeeps(h, s1, c, {id});
      var s2 := Evict(s1, c);
      ReEnterKeeps(h, s2, victim, {id} + {victim});
      var c2 := HomeCell(h, s2.nKey, s2.mapInfo[victim]);
      ClearNewEffect(s2, c2);
      ClearedServices(s2, ClearNew(s2, c2), c2);
    }
  }

  // ---------------------------------------------------------------------------------------------
  // Good
  // ---------------------------------------------------------------------------------------------

  ghost function Touch(s: State, id: int, info: Info): State {
    s.(mapInfo := s.mapInfo[id := info])
  }

  /** Changing what no index depends on. */
  lemma TouchKeeps(h: Hashes, s: State, id: int, info: Info)
    requires Inv(h, s, {}, {}) && id in s.mapInfo
    requires var i := s.mapInfo[id];
             && info.service == i.service && info.nRefCount == i.nRefCount && info.fInTried == i.fInTried
             && info.nRandomPos == i.nRandomPos
    requires info.nLastTry >= 0 && info.nLastSuccess >= 0 && (info.fInTried ==> info.nLastSuccess > 0)
    ensures Inv(h, Touch(s, id, info), {}, {}) && Evolves(s, Touch(s, id, info))
  {
    hide RandomOk, AddrOk, IdsOk, TriedOk, NewOk, RefsOk, EntriesOk;
    RefCountOf(h, s, id);
    UpdateIndexes(h, s.nKey, s.mapInfo, s.mapAddr, s.nIdCount, s.tried, s.vNew, id, info);
    UpdateRefs(h, s.nKey, s.mapInfo, s.vNew, id, info);
    UpdateRandom(s.mapInfo, s.vRandom, id, info);
    UpdateEntries(s.mapInfo, {}, {}, id, info, {}, {});
  }

  lemma UpdateRefs(h: Hashes, key: nat, mi: Entries, v: Table, id: int, info: Info)
    requires RefsOk(h, key, mi, v) && id in mi && info.service == mi[id].service && info.nRefCount == mi[id].nRefCount
    ensures RefsOk(h, key, mi[id := info], v)
  {
    hide Buckets;
  }

  ghost predicate Found(s: State, svc: Service) {
    Known(s, svc.ip) && s.mapInfo[s.mapAddr[svc.ip]].service == svc
  }

  /** Find: mapAddr gives an id and mapInfo has it. */
  ghost predicate Known(s: State, ip: IP) { ip in s.mapAddr && s.mapAddr[ip] in s.mapInfo }

  /** Good_'s update of the entry before any move. */
  ghost function MarkedGood(s: State, svc: Service, nTime: int): State
    requires Found(s, svc)
  {
    var id := s.mapAddr[svc.ip];
    Touch(s.(nLastGood := nTime), id, s.mapInfo[id].(nLastSuccess := nTime, nLastTry := nTime, nAttempts := 0))
  }

  lemma MarkedGoodKeeps(h: Hashes, s: State, svc: Service, nTime: int)
    requires Inv(h, s, {}, {}) && Found(s, svc) && nTime > 0
    ensures Inv(h, MarkedGood(s, svc, nTime), {}, {}) && Evolves(s, MarkedGood(s, svc, nTime))
  {
    hide RandomOk, AddrOk, IdsOk, TriedOk, NewOk, RefsOk, EntriesOk, CountsOk;
    var id := s.mapAddr[svc.ip];
    var s0 := s.(nLastGood := nTime);
    assert Inv(h, s0, {}, {});
    TouchKeeps(h, s0, id, s.mapInfo[id].(nLastSuccess := nTime, nLastTry := nTime, nAttempts := 0));
  }

  ghost function Good(h: Hashes, s: State, svc: Service, testBeforeEvict: bool, nTime: int): State
    requires Inv(h, s, {}, {}) && nTime > 0
  {
    if !Found(s, svc) then s.(nLastGood := nTime)
    else
      var id := s.mapAddr[svc.ip];
      var s1 := MarkedGood(s, svc, nTime);
      MarkedGoodKeeps(h, s, svc, nTime);
      if s.mapInfo[id].fInTried || Buckets(h, s.nKey, s.vNew, svc, id) == {} then s1
      else if testBeforeEvict && At(s.tried, TriedCell(h, s.nKey, svc)) != -1 then
        (if |s.collisions| < SET_TRIED_COLLISION_SIZE then s1.(collisions := s.collisions + {id}) else s1)
      else MakeTried(h, s1, id)
  }

  /** Good_ keeps consistency, and the bail-out for an entry in no bucket is never taken. */
  lemma GoodKeeps(h: Hashes, s: State, svc: Service, testBeforeEvict: bool, nTime: int)
    requires Consistent(h, s) && nTime > 0
    ensures Consistent(h, Good(h, s, svc, testBeforeEvict, nTime))
    ensures Evolves(s, Good(h, s, svc, testBeforeEvict, nTime))
    ensures Found(s, svc) && !s.mapInfo[s.mapAddr[svc.ip]].fInTried ==>
              Buckets(h, s.nKey, s.vNew, svc, s.mapAddr[svc.ip]) != {}
  {
    hide RandomOk, AddrOk, IdsOk, TriedOk, NewOk, RefsOk, EntriesOk, CountsOk, MakeTried, TriedCell, Buckets;
    if !Found(s, svc) {
      CollisionsEvolve(h, s, s.(nLastGood := nTime));
    } else {
      var id := s.mapAddr[svc.ip];
      var s1 := MarkedGood(s, svc, nTime);
      RefCountOf(h, s, id);
      IdBound(s.mapInfo, s.nIdCount, id);
      MarkedGoodKeeps(h, s, svc, nTime);
      CollisionsEvolve(h, s, s1);
      if !s.mapInfo[id].fInTried && Buckets(h, s.nKey, s.vNew, svc, id) != {}
         && !(testBeforeEvict && At(s.tried, TriedCell(h, s.nKey, svc)) != -1) {
        MakeTriedKeeps(h, s1, id);
        MakeTriedServices(h, s1, id);
        CollisionsEvolve(h, s1, MakeTried(h, s1, id));
        EvolvesTransitive(s, s1, MakeTried(h, s1, id));
      }
    }
  }

  lemma IdBound(mi: Entries, n: int, id: int)
    requires IdsOk(mi, n) && id in mi
    ensures 0 <= id < n
  {}

  // ---------------------------------------------------------------------------------------------
  // Add
  // ---------------------------------------------------------------------------------------------

  /** Create, and the count that Add_ raises right after it. */
  ghost function Created(s: State, info: Info): State {
    var id := s.nIdCount;
    s.(nIdCount := id + 1,
       mapInfo := s.mapInfo[id := info.(nRandomPos := |s.vRandom|)],
       mapAddr := s.mapAddr[info.service.ip := id],
       vRandom := s.vRandom + [id],
       nNew := s.nNew + 1)
  }

  lemma RandomAppend(mi: Entries, vr: seq<int>, id: int, info: Info)
    requires RandomOk(mi, vr) && id !in mi && info.nRandomPos == |vr|
    ensures RandomOk(mi[id := info], vr + [id])
  {
    var mi', vr' := mi[id := info], vr + [id];
    forall i | 0 <= i < |vr'| ensures vr'[i] in mi' && mi'[vr'[i]].nRandomPos == i {
      if i < |vr| {
        var x: int := vr[i];
        assert x in mi && mi[x].nRandomPos == i;
      }
    }
  }

  lemma EntriesAdd(mi: Entries, id: int, info: Info, orphans: set<int>)
    requires EntriesOk(mi, {}, orphans) && EntryOk(info, false, true) && id !in mi
    ensures EntriesOk(mi[id := info], {}, orphans + {id})
  {
    hide EntryOk;
    var mi' := mi[id := info];
    forall x | x in mi' ensures EntryOk(mi'[x], x in {}, x in orphans + {id}) {
      if x != id { assert EntryOk(mi[x], x in {}, x in orphans); }
    }
  }

  lemma CreatedKeeps(h: Hashes, s: State, info: Info, orphans: set<int>)
    requires Inv(h, s, {}, orphans) && info.service.ip !in s.mapAddr
    requires !info.fInTried && info.nRefCount == 0 && info.nLastTry == 0 && info.nLastSuccess >= 0
    ensures Inv(h, Created(s, info), {}, orphans + {s.nIdCount}) && Evolves(s, Created(s, info))
            && s.nIdCount !in s.mapInfo
  {
    hide RandomOk, AddrOk, IdsOk, TriedOk, NewOk, RefsOk, EntriesOk;
    NextIdUnused(s.mapInfo, s.nIdCount);
    var id, info' := s.nIdCount, info.(nRandomPos := |s.vRandom|);
    AddIndexes(h, s.nKey, s.mapInfo, s.mapAddr, s.nIdCount, s.tried, s.vNew, info');
    RandomAppend(s.mapInfo, s.vRandom, id, info');
    EntriesAdd(s.mapInfo, id, info', orphans);
    assert NewIds(s.mapInfo) - {} == NewIds(s.mapInfo) && id !in NewIds(s.mapInfo);
    assert NewIds(s.mapInfo) + {id} - {} == NewIds(s.mapInfo) + {id};
  }

  lemma NextIdUnused(mi: Entries, n: int)
    requires IdsOk(mi, n)
    ensures n !in mi && -1 !in mi
  {}

  /** The target cell of Add_: the bucket of the announcing source. */
  ghost function SourceCell(h: Hashes, key: nat, svc: Service, source: IP): Cell {
    NewCell(h, key, svc, NewBucket(h, key, svc, source))
  }

  /** Add_ overwrites an occupied cell if its entry is terrible, or has other references and the newcomer none. */
  ghost predicate MayOverwrite(s: State, id: int, c: Cell, now: int)
    requires id in s.mapInfo && At(s.vNew, c) in s.mapInfo
  {
    var existing := s.mapInfo[At(s.vNew, c)];
    IsTerrible(existing, now) || (existing.nRefCount > 1 && s.mapInfo[id].nRefCount == 0)
  }

  ghost function PutNew(s: State, id: int, c: Cell): State
    requires id in s.mapInfo
  {
    s.(mapInfo := s.mapInfo[id := s.mapInfo[id].(nRefCount := s.mapInfo[id].nRefCount + 1)], vNew := s.vNew[c := id])
  }

  /** The tail of Add_: the entry takes the cell, or goes if it has no reference at all. */
  ghost function PlaceNew(h: Hashes, s: State, id: int, c: Cell, now: int): State
    requires Inv(h, s, {}, {id}) && id in s.mapInfo
  {
    FilledNewCell(h, s, c, {}, {id});
    if At(s.vNew, c) == id then s
    else if At(s.vNew, c) == -1 || MayOverwrite(s, id, c, now) then
      ClearNewEffect(s, c);
      PutNew(ClearNew(s, c), id, c)
    else if s.mapInfo[id].nRefCount == 0 then Delete(s, id)
    else s
  }

  lemma PlaceNewKeeps(h: Hashes, s: State, id: int, source: IP, now: int)
    requires Inv(h, s, {}, {id}) && id in s.mapInfo && !s.mapInfo[id].fInTried
             && s.mapInfo[id].nRefCount < NEW_BUCKETS_PER_ADDRESS
    ensures var s' := PlaceNew(h, s, id, SourceCell(h, s.nKey, s.mapInfo[id].service, source), now);
            && Inv(h, s', {}, {}) && Evolves(s, s')
            && s'.collisions == s.collisions && s'.nIdCount == s.nIdCount && s'.tried == s.tried
  {
    hide RandomOk, AddrOk, IdsOk, TriedOk, NewOk, RefsOk, EntriesOk, CountsOk, Delete, ClearNew, NewCellCleared;
    var c := SourceCell(h, s.nKey, s.mapInfo[id].service, source);
    FilledNewCell(h, s, c, {}, {id});
    if At(s.vNew, c) == id {
      KeepOrphan(h, s, id);
    } else if At(s.vNew, c) == -1 || MayOverwrite(s, id, c, now) {
      ClearNewKeeps(h, s, c, {}, {id});
      ClearedServices(s, ClearNew(s, c), c);
      ClearedKeepsOther(s, ClearNew(s, c), c, id);
      PutNewOrphan(h, ClearNew(s, c), id, c, {id});
      assert {id} - {id} == {};
    } else if s.mapInfo[id].nRefCount == 0 {
      DeleteKeeps(h, s, id, {}, {id});
      DeletedServices(s, Delete(s, id), id);
      assert {id} - {id} == {};
    } else {
      KeepOrphan(h, s, id);
    }
  }

  lemma KeepOrphan(h: Hashes, s: State, id: int)
    requires Inv(h, s, {}, {id}) && id in s.mapInfo && s.mapInfo[id].nRefCount != 0
    ensures Inv(h, s, {}, {})
  {
    hide RandomOk, AddrOk, IdsOk, TriedOk, NewOk, RefsOk, EntriesOk, CountsOk;
    RefCountNonNegative(h, s.nKey, s.mapInfo, s.vNew, id);
    assert {} + {id} == {id};
    AdoptOrphan(s.mapInfo, {}, {}, id);
  }

  lemma RefCountNonNegative(h: Hashes, key: nat, mi: Entries, v: Table, id: int)
    requires RefsOk(h, key, mi, v) && id in mi
    ensures mi[id].nRefCount >= 0
  {}

  lemma ClearedKeepsOther(s: State, s': State, c: Cell, id: int)
    requires NewCellCleared(s, s', c) && id in s.mapInfo && id != At(s.vNew, c)
    ensures id in s'.mapInfo && MovedOnly(s.mapInfo[id], s'.mapInfo[id]) && At(s'.vNew, c) == -1
    ensures s'.nKey == s.nKey && s'.nIdCount == s.nIdCount && s'.tried == s.tried && s'.collisions == s.collisions
  {
    assert id in s'.mapInfo;
    assert MovedOnly(LessOneRef(s.mapInfo[id], false), s'.mapInfo[id]);
  }

  lemma DeletedServices(s: State, s': State, id: int)
    requires Deleted(s, s', id)
    ensures ServicesKept(s.mapInfo, s'.mapInfo, s.nIdCount)
  {
    forall x | x in s'.mapInfo ensures x in s.mapInfo && s'.mapInfo[x].service == s.mapInfo[x].service {
      assert MovedOnly(s.mapInfo[x], s'.mapInfo[x]);
    }
  }

  lemma PutNewOrphan(h: Hashes, s: State, id: int, c: Cell, orphans: set<int>)
    requires Inv(h, s, {}, orphans) && id in s.mapInfo && !s.mapInfo[id].fInTried
             && s.mapInfo[id].nRefCount < NEW_BUCKETS_PER_ADDRESS
    requires At(s.vNew, c) == -1 && c.bucket < NEW_BUCKET_COUNT
             && c == NewCell(h, s.nKey, s.mapInfo[id].service, c.bucket)
    ensures Inv(h, PutNew(s, id, c), {}, orphans - {id})
    ensures ServicesKept(s.mapInfo, PutNew(s, id, c).mapInfo, s.nIdCount)
  {
    hide RandomOk, AddrOk, IdsOk, TriedOk, NewOk, RefsOk, EntriesOk;
    RefCountNonNegative(h, s.nKey, s.mapInfo, s.vNew, id);
    NextIdUnused(s.mapInfo, s.nIdCount);
    EntryAt(s.mapInfo, {}, orphans, id);
    var info := s.mapInfo[id].(nRefCount := s.mapInfo[id].nRefCount + 1);
    RefsAfterPut(h, s.nKey, s.mapInfo, s.vNew, c, id);
    UpdateIndexes(h, s.nKey, s.mapInfo, s.mapAddr, s.nIdCount, s.tried, s.vNew[c := id], id, info);
    UpdateRandom(s.mapInfo, s.vRandom, id, info);
    UpdateEntries(s.mapInfo, {}, orphans, id, info, {}, orphans - {id});
  }

  lemma EntryAt(mi: Entries, limbo: set<int>, orphans: set<int>, id: int)
    requires EntriesOk(mi, limbo, orphans) && id in mi
    ensures EntryOk(mi[id], id in limbo, id in orphans)
  {
    hide EntryOk;
  }

  /** Add_'s refresh of a known entry. */
  ghost function Refreshed(info: Info, addr: Address, penalty: int, now: int): Info {
    var interval := if now - addr.nTime < 24 * 60 * 60 then 60 * 60 else 24 * 60 * 60;
    var nTime := if addr.nTime != 0 && (info.nTime == 0 || info.nTime < addr.nTime - interval - penalty)
                 then (if addr.nTime - penalty > 0 then addr.nTime - penalty else 0) else info.nTime;
    info.(nTime := nTime, nServices := info.nServices + addr.nServices)
  }

  ghost function NewInfo(addr: Address, source: IP, penalty: int): Info {
    Info(addr.service, addr.nServices, if addr.nTime - penalty > 0 then addr.nTime - penalty else 0, source,
         0, 0, 0, 0, 0, false, -1)
  }

  /** Whether Add_ goes on to give a refreshed entry one more reference. */
  ghost predicate MayGrow(info: Info, addr: Address, lucky: bool) {
    && !(addr.nTime == 0 || (info.nTime != 0 && addr.nTime <= info.nTime))
    && !info.fInTried
    && info.nRefCount != NEW_BUCKETS_PER_ADDRESS
    && (info.nRefCount == 0 || lucky)
  }

  /** The penalty does not apply to a source announcing itself. */
  ghost function Penalty(addr: Address, source: IP, nTimePenalty: int): int {
    if addr.service.ip == source then 0 else nTimePenalty
  }

  /** The two clock readings of Add_: when it judges whether the address is online, and when it looks at the entry in
      the way. */
  datatype AddTimes = AddTimes(online: int, cell: int)

  /** Add_: `lucky` is the outcome of the draw against 2^nRefCount. */
  ghost function Add(h: Hashes, s: State, addr: Address, source: IP, nTimePenalty: int, now: AddTimes,
                     lucky: bool): State
    requires Inv(h, s, {}, {})
  {
    var penalty := Penalty(addr, source, nTimePenalty);
    if !h.isRoutable(addr.service.ip) then s
    else if Known(s, addr.service.ip) then
      var id := s.mapAddr[addr.service.ip];
      var info := Refreshed(s.mapInfo[id], addr, penalty, now.online);
      var s1 := Touch(s, id, info);
      RefreshKeeps(h, s, id, addr, penalty, now.online);
      WeakenOrphans(h, s1, id);
      if !MayGrow(info, addr, lucky) then s1
      else PlaceNew(h, s1, id, SourceCell(h, s.nKey, info.service, source), now.cell)
    else
      UnknownHasNoId(h, s, addr.service.ip);
      var info := NewInfo(addr, source, penalty);
      CreatedKeeps(h, s, info, {});
      assert {} + {s.nIdCount} == {s.nIdCount};
      PlaceNew(h, Created(s, info), s.nIdCount, SourceCell(h, s.nKey, info.service, source), now.cell)
  }

  lemma RefreshKeeps(h: Hashes, s: State, id: int, addr: Address, penalty: int, now: int)
    requires Inv(h, s, {}, {}) && id in s.mapInfo
    ensures var s1 := Touch(s, id, Refreshed(s.mapInfo[id], addr, penalty, now)); Inv(h, s1, {}, {}) && Evolves(s, s1)
  {
    hide RandomOk, AddrOk, IdsOk, TriedOk, NewOk, RefsOk, CountsOk, EntriesOk;
    RefCountOf(h, s, id);
    TouchKeeps(h, s, id, Refreshed(s.mapInfo[id], addr, penalty, now));
  }

  lemma WeakenOrphans(h: Hashes, s: State, id: int)
    requires Inv(h, s, {}, {})
    ensures Inv(h, s, {}, {id})
  {
    hide RandomOk, AddrOk, IdsOk, TriedOk, NewOk, RefsOk, CountsOk;
    forall x | x in s.mapInfo ensures EntryOk(s.mapInfo[x], x in {}, x in {id}) {
      assert EntryOk(s.mapInfo[x], x in {}, x in {});
    }
  }

  lemma UnknownHasNoId(h: Hashes, s: State, ip: IP)
    requires Inv(h, s, {}, {}) && !Known(s, ip)
    ensures ip !in s.mapAddr
  {
    hide RandomOk, TriedOk, NewOk, RefsOk, CountsOk, EntriesOk;
  }

  /** Add_ keeps the indexes in agreement, whatever collisions are pending, and touches neither them nor the tried
      table. */
  lemma AddKeepsIndexes(h: Hashes, s: State, addr: Address, source: IP, nTimePenalty: int, now: AddTimes, lucky: bool)
    requires Inv(h, s, {}, {})
    ensures var s' := Add(h, s, addr, source, nTimePenalty, now, lucky);
            Inv(h, s', {}, {}) && Evolves(s, s') && s'.collisions == s.collisions && s'.tried == s.tried
  {
    hide RandomOk, AddrOk, IdsOk, TriedOk, NewOk, RefsOk, CountsOk, EntriesOk, PlaceNew;
    var s' := Add(h, s, addr, source, nTimePenalty, now, lucky);
    var penalty := Penalty(addr, source, nTimePenalty);
    if h.isRoutable(addr.service.ip) {
      if Known(s, addr.service.ip) {
        var id := s.mapAddr[addr.service.ip];
        var info := Refreshed(s.mapInfo[id], addr, penalty, now.online);
        var s1 := Touch(s, id, info);
        RefreshKeeps(h, s, id, addr, penalty, now.online);
        WeakenOrphans(h, s1, id);
        if MayGrow(info, addr, lucky) {
          RefCountOf(h, s1, id);
          PlaceNewKeeps(h, s1, id, source, now.cell);
          EvolvesTransitive(s, s1, s');
        }
      } else {
        UnknownHasNoId(h, s, addr.service.ip);
        var info := NewInfo(addr, source, penalty);
        CreatedKeeps(h, s, info, {});
        assert {} + {s.nIdCount} == {s.nIdCount};
        PlaceNewKeeps(h, Created(s, info), s.nIdCount, source, now.cell);
        EvolvesTransitive(s, Created(s, info), s');
      }
    }
  }

  lemma AddKeeps(h: Hashes, s: State, addr: Address, source: IP, nTimePenalty: int, now: AddTimes, lucky: bool)
    requires Consistent(h, s)
    ensures Consistent(h, Add(h, s, addr, source, nTimePenalty, now, lucky))
    ensures Evolves(s, Add(h, s, addr, source, nTimePenalty, now, lucky))
  {
    hide Inv, CollisionsOk, Add, Evolves;
    AddKeepsIndexes(h, s, addr, source, nTimePenalty, now, lucky);
    CollisionsEvolve(h, s, Add(h, s, addr, source, nTimePenalty, now, lucky));
  }
}
