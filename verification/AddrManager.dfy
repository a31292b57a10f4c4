/** CAddrMan as an object: the tables are arrays written in place, and every method is the step of
    AddrManOps or AddrManRuns of the same name.  The C++ asserts stand in the code and are proved. */
module AddrManager {
  import opened AddrMan
  import opened AddrManOps
  import opened AddrManRuns
  import opened AddrManDisk
  import opened Sets

  ghost function TableOf(a: array2<int>): Table
    reads a
  {
    map b: nat, p: nat | b < a.Length0 && p < a.Length1 :: Cell(b, p) := a[b, p]
  }

  method WriteCell(a: array2<int>, b: nat, p: nat, v: int)
    requires b < a.Length0 && p < a.Length1
    modifies a
    ensures TableOf(a) == old(TableOf(a))[Cell(b, p) := v]
  {
    a[b, p] := v;
  }

  method ReadCell(a: array2<int>, b: nat, p: nat) returns (v: int)
    requires b < a.Length0 && p < a.Length1
    ensures v == At(TableOf(a), Cell(b, p))
  {
    v := a[b, p];
    assert Cell(b, p) in TableOf(a);
  }

  /** Emptying a whole table (Clear's nested loops). */
  method EmptyTable(a: array2<int>)
    modifies a
    ensures forall c :: At(TableOf(a), c) == -1
  {
    var b := 0;
    while b < a.Length0
      invariant 0 <= b <= a.Length0
      invariant forall x, y :: 0 <= x < b && 0 <= y < a.Length1 ==> a[x, y] == -1
    {
      var e := 0;
      while e < a.Length1
        invariant 0 <= e <= a.Length1
        invariant forall x, y :: 0 <= x < b && 0 <= y < a.Length1 ==> a[x, y] == -1
        invariant forall y :: 0 <= y < e ==> a[b, y] == -1
      {
        a[b, e] := -1;
        e := e + 1;
      }
      b := b + 1;
    }
  }

  /** A CAddress, as GetAddr_ copies it out of an entry. */
  function AddressOf(info: Info): Address { Address(info.service, info.nServices, info.nTime) }

  class AddressManager {
    const h: Hashes
    var nKey: nat
    var nIdCount: int
    var mapInfo: map<int, Info>
    var mapAddr: map<IP, int>
    var vRandom: seq<int>
    var nTried: int
    const vvTried: array2<int>
    var nNew: int
    const vvNew: array2<int>
    var nLastGood: int
    var collisions: set<int>

    /** The tables have their fixed sizes and are two objects. */
    ghost predicate Shaped() {
      && vvTried != vvNew
      && vvTried.Length0 == TRIED_BUCKET_COUNT && vvTried.Length1 == BUCKET_SIZE
      && vvNew.Length0 == NEW_BUCKET_COUNT && vvNew.Length1 == BUCKET_SIZE
    }

    /** The whole state as a value. */
    ghost function St(): State
      reads this, vvTried, vvNew
    {
      State(nKey, nIdCount, mapInfo, mapAddr, vRandom, nTried, TableOf(vvTried), nNew, TableOf(vvNew), nLastGood,
            collisions)
    }

    ghost predicate Valid()
      reads this, vvTried, vvNew
    {
      Shaped() && Consistent(h, St())
    }

    constructor (h: Hashes, key: nat)
      ensures Valid() && this.h == h && fresh(vvTried) && fresh(vvNew)
      ensures St() == Initial(key, TableOf(vvNew), TableOf(vvTried))
      ensures forall c :: At(TableOf(vvNew), c) == -1 && At(TableOf(vvTried), c) == -1
    {
      this.h := h;
      vvTried := new int[TRIED_BUCKET_COUNT, BUCKET_SIZE];
      vvNew := new int[NEW_BUCKET_COUNT, BUCKET_SIZE];
      collisions := {};
      nKey, nIdCount, mapInfo, mapAddr, vRandom, nTried, nNew, nLastGood := key, 0, map[], map[], [], 0, 0, 1;
      new;
      Clear(key);
    }

    /** Clear does not touch the pending collisions: it leaves a consistent manager exactly when there are
        none, since every id it leaves behind would name an entry not yet created. */
    method Clear(key: nat)
      requires Shaped()
      modifies this, vvTried, vvNew
      ensures St() == Initial(key, TableOf(vvNew), TableOf(vvTried)).(collisions := old(collisions))
      ensures forall c :: At(TableOf(vvNew), c) == -1 && At(TableOf(vvTried), c) == -1
      ensures Valid() <==> old(collisions) == {}
    {
      hide TableOf, RandomOk, AddrOk, IdsOk, TriedOk, NewOk, RefsOk, CountsOk, EntriesOk, CollisionsOk;
      vRandom := [];
      nKey := key;
      EmptyTable(vvNew);
      EmptyTable(vvTried);
      nIdCount, nTried, nNew, nLastGood := 0, 0, 0, 1;
      mapInfo, mapAddr := map[], map[];
      InitialConsistent(h, key, TableOf(vvNew), TableOf(vvTried));
      ClearedCollisions(h, St());
    }

    method SwapRandom(nRndPos1: nat, nRndPos2: nat)
      requires RandomOk(mapInfo, vRandom) && nRndPos1 < |vRandom| && nRndPos2 < |vRandom|
      modifies this`mapInfo, this`vRandom
      ensures St() == AddrMan.SwapRandom(old(St()), nRndPos1, nRndPos2)
    {
      hide TableOf;
      if nRndPos1 == nRndPos2 { return; }
      var nId1, nId2 := vRandom[nRndPos1], vRandom[nRndPos2];
      assert nId1 in mapInfo;
      assert nId2 in mapInfo;
      mapInfo := mapInfo[nId1 := mapInfo[nId1].(nRandomPos := nRndPos2)];
      mapInfo := mapInfo[nId2 := mapInfo[nId2].(nRandomPos := nRndPos1)];
      vRandom := vRandom[nRndPos1 := nId2];
      vRandom := vRandom[nRndPos2 := nId1];
    }

    method Delete(nId: int)
      requires RandomOk(mapInfo, vRandom) && nId in mapInfo
      requires !mapInfo[nId].fInTried && mapInfo[nId].nRefCount == 0
      modifies this`mapInfo, this`vRandom, this`mapAddr, this`nNew
      ensures St() == AddrMan.Delete(old(St()), nId)
    {
      hide TableOf, RandomOk, MovedOnly, Deleted, AddrMan.SwapRandom;
      ghost var s := St();
      DeleteEffect(s, nId);
      SwapRandom(mapInfo[nId].nRandomPos, |vRandom| - 1);
      vRandom := vRandom[..|vRandom| - 1];
      mapAddr := mapAddr - {mapInfo[nId].service.ip};
      mapInfo := mapInfo - {nId};
      nNew := nNew - 1;
    }

    method ClearNew(b: nat, p: nat, ghost limbo: set<int>, ghost orphans: set<int>)
      requires Shaped() && b < NEW_BUCKET_COUNT && p < BUCKET_SIZE
      requires Inv(h, St(), limbo, orphans)
      modifies this`mapInfo, this`vRandom, this`mapAddr, this`nNew, vvNew
      ensures At(old(St()).vNew, Cell(b, p)) != -1 ==> At(old(St()).vNew, Cell(b, p)) in old(mapInfo)
      ensures St() == AddrMan.ClearNew(old(St()), Cell(b, p))
    {
      hide TableOf, RandomOk, AddrOk, IdsOk, TriedOk, NewOk, RefsOk, CountsOk, EntriesOk, AddrMan.Delete;
      ghost var c := Cell(b, p);
      FilledNewCell(h, St(), c, limbo, orphans);
      var nIdDelete := ReadCell(vvNew, b, p);
      if nIdDelete != -1 {
        assert mapInfo[nIdDelete].nRefCount > 0;
        UpdateRandom(mapInfo, vRandom, nIdDelete, mapInfo[nIdDelete].(nRefCount := mapInfo[nIdDelete].nRefCount - 1));
        mapInfo := mapInfo[nIdDelete := mapInfo[nIdDelete].(nRefCount := mapInfo[nIdDelete].nRefCount - 1)];
        WriteCell(vvNew, b, p, -1);
        if mapInfo[nIdDelete].nRefCount == 0 {
          Delete(nIdDelete);
        }
      }
    }

    /** MakeTried's loop over the new buckets: every reference to the entry goes. */
    method LeaveNewBuckets(nId: int)
      requires Shaped() && nId in mapInfo && nId != -1
      modifies this`mapInfo, vvNew
      ensures St().(nNew := nNew - 1) == LeaveNew(h, old(St()), nId)
    {
      hide TableOf, Cleared, RefsBelow, Buckets;
      ghost var t := TableOf(vvNew);
      var info := mapInfo[nId];
      ghost var svc := info.service;
      ClearedNone(h, nKey, t, svc, nId);
      var bucket := 0;
      while bucket < NEW_BUCKET_COUNT
        invariant 0 <= bucket <= NEW_BUCKET_COUNT
        invariant info == old(mapInfo)[nId].(nRefCount := info.nRefCount)
        invariant info.nRefCount == old(mapInfo)[nId].nRefCount - |RefsBelow(h, nKey, t, svc, nId, bucket)|
        invariant TableOf(vvNew) == Cleared(h, nKey, t, svc, nId, bucket)
        invariant mapInfo == old(mapInfo)[nId := info]
      {
        ClearedOneMore(h, nKey, t, svc, nId, bucket);
        var pos := Position(h, nKey, true, bucket, info.service);
        var v := ReadCell(vvNew, bucket, pos);
        if v == nId {
          WriteCell(vvNew, bucket, pos, -1);
          info := info.(nRefCount := info.nRefCount - 1);
          mapInfo := mapInfo[nId := info];
        }
        bucket := bucket + 1;
      }
      RefsBelowAll(h, nKey, t, svc, nId);
    }

    /** MakeTried's eviction: the entry of the tried cell moves to the new table. */
    method MakeSpace(kb: nat, kp: nat, ghost nId: int)
      requires Shaped() && kb < TRIED_BUCKET_COUNT && kp < BUCKET_SIZE
      requires Inv(h, St(), {nId}, {}) && At(St().tried, Cell(kb, kp)) != -1
      modifies this`mapInfo, this`vRandom, this`mapAddr, this`nNew, this`nTried, vvNew, vvTried
      ensures var s, c := old(St()), Cell(kb, kp);
              && At(s.tried, c) in s.mapInfo && Inv(h, Evict(s, c), {nId} + {At(s.tried, c)}, {})
              && At(s.tried, c) in Evict(s, c).mapInfo && -1 !in Evict(s, c).mapInfo
              && (var hc := HomeCell(h, s.nKey, Evict(s, c).mapInfo[At(s.tried, c)]);
                  At(s.vNew, hc) != -1 ==> At(s.vNew, hc) in Evict(s, c).mapInfo && At(s.vNew, hc) != At(s.tried, c))
              && St() == ReEnter(h, Evict(s, c), At(s.tried, c))
    {
      hide TableOf, RandomOk, AddrOk, IdsOk, TriedOk, NewOk, RefsOk, CountsOk, EntriesOk, AddrMan.ClearNew;
      ghost var c := Cell(kb, kp);
      FilledTriedCell(h, St(), c, {nId});
      EvictKeeps(h, St(), c, {nId});
      var nIdEvict := ReadCell(vvTried, kb, kp);
      assert nIdEvict in mapInfo;
      mapInfo := mapInfo[nIdEvict := mapInfo[nIdEvict].(fInTried := false)];
      WriteCell(vvTried, kb, kp, -1);
      nTried := nTried - 1;
      assert St() == Evict(old(St()), c);
      ghost var s2 := St();
      ReEnterKeeps(h, s2, nIdEvict, {nId} + {nIdEvict});
      var nUBucket := NewBucket(h, nKey, mapInfo[nIdEvict].service, mapInfo[nIdEvict].source);
      var nUBucketPos := Position(h, nKey, true, nUBucket, mapInfo[nIdEvict].service);
      ClearNew(nUBucket, nUBucketPos, {nId} + {nIdEvict}, {});
      mapInfo := mapInfo[nIdEvict := mapInfo[nIdEvict].(nRefCount := 1)];
      WriteCell(vvNew, nUBucket, nUBucketPos, nIdEvict);
      nNew := nNew + 1;
    }

    method MakeTried(nId: int)
      requires Shaped() && Inv(h, St(), {}, {}) && nId in mapInfo && !mapInfo[nId].fInTried
      modifies this`mapInfo, this`vRandom, this`mapAddr, this`nNew, this`nTried, vvNew, vvTried
      ensures St() == AddrManOps.MakeTried(h, old(St()), nId)
    {
      hide TableOf, RandomOk, AddrOk, IdsOk, TriedOk, NewOk, RefsOk, CountsOk, EntriesOk, LeaveNew, Evict, ReEnter,
           MovedOnly;
      ghost var s := St();
      LeaveNewKeeps(h, s, nId);
      FilledNewCell(h, s, Cell(0, 0), {}, {});
      VacatedKeeps(h, s, nId);
      LeaveNewBuckets(nId);
      nNew := nNew - 1;
      assert mapInfo[nId].nRefCount == 0;
      var nKBucket := TriedBucket(h, nKey, mapInfo[nId].service);
      var nKBucketPos := Position(h, nKey, false, nKBucket, mapInfo[nId].service);
      var nIdEvict := ReadCell(vvTried, nKBucket, nKBucketPos);
      if nIdEvict != -1 {
        MakeSpace(nKBucket, nKBucketPos, nId);
      }
      ghost var v := Vacated(h, s, nId);
      assert St() == v;
      MovedServices(s.mapInfo[nId].(nRefCount := 0), mapInfo[nId]);
      assert At(TableOf(vvTried), Cell(nKBucket, nKBucketPos)) == -1;
      hide Vacated, Inv;
      WriteCell(vvTried, nKBucket, nKBucketPos, nId);
      nTried := nTried + 1;
      mapInfo := mapInfo[nId := mapInfo[nId].(fInTried := true)];
      assert St() == PlaceTried(h, v, nId);
    }

    /** Find: the id under which an address is known, or -1. */
    method Find(ip: IP) returns (nId: int)
      requires Inv(h, St(), {}, {})
      ensures nId != -1 <==> Known(St(), ip)
      ensures nId != -1 ==> nId in mapInfo && nId == mapAddr[ip]
    {
      hide TableOf, RandomOk, AddrOk, TriedOk, NewOk, RefsOk, CountsOk, EntriesOk;
      NextIdUnused(mapInfo, nIdCount);
      if ip !in mapAddr { return -1; }
      nId := mapAddr[ip];
      if nId !in mapInfo { return -1; }
    }

    /** Good_'s search for a bucket the entry is in, from a random start. */
    method FindNewBucket(nId: int, nRnd: nat) returns (nUBucket: int)
      requires Shaped() && nId in mapInfo && nRnd < NEW_BUCKET_COUNT
      ensures nUBucket == -1 <==> Buckets(h, nKey, TableOf(vvNew), mapInfo[nId].service, nId) == {}
    {
      var svc := mapInfo[nId].service;
      nUBucket := -1;
      var n := 0;
      while n < NEW_BUCKET_COUNT
        invariant 0 <= n <= NEW_BUCKET_COUNT && nUBucket == -1
        invariant forall k :: 0 <= k < n ==> At(TableOf(vvNew), NewCell(h, nKey, svc, Turn(k, nRnd))) != nId
      {
        hide TableOf;
        var nB := Turn(n, nRnd);
        var nBpos := Position(h, nKey, true, nB, svc);
        var v := ReadCell(vvNew, nB, nBpos);
        if v == nId {
          assert nB in Buckets(h, nKey, TableOf(vvNew), svc, nId);
          return nB;
        }
        n := n + 1;
      }
      forall b: nat | b < NEW_BUCKET_COUNT ensures At(TableOf(vvNew), NewCell(h, nKey, svc, b)) != nId {
        var k := EveryTurn(b, nRnd);
      }
    }

    method Good_(svc: Service, testBeforeEvict: bool, nTime: int, nRnd: nat)
      requires Valid() && nTime > 0 && nRnd < NEW_BUCKET_COUNT
      modifies this, vvNew, vvTried
      ensures St() == Good(h, old(St()), svc, testBeforeEvict, nTime)
      ensures Valid()
    {
      hide TableOf, RandomOk, AddrOk, IdsOk, TriedOk, NewOk, RefsOk, CountsOk, EntriesOk, CollisionsOk,
           AddrManOps.MakeTried, Buckets;
      GoodKeeps(h, St(), svc, testBeforeEvict, nTime);
      ghost var s := St();
      nLastGood := nTime;
      var nId := Find(svc.ip);
      if nId == -1 { return; }
      if mapInfo[nId].service != svc { return; }
      MarkedGoodKeeps(h, s, svc, nTime);
      mapInfo := mapInfo[nId := mapInfo[nId].(nLastSuccess := nTime, nLastTry := nTime, nAttempts := 0)];
      assert St() == MarkedGood(s, svc, nTime);
      if mapInfo[nId].fInTried { return; }
      var nUBucket := FindNewBucket(nId, nRnd);
      if nUBucket == -1 { return; }
      var triedBucket := TriedBucket(h, nKey, mapInfo[nId].service);
      var triedBucketPos := Position(h, nKey, false, triedBucket, mapInfo[nId].service);
      var colliding := ReadCell(vvTried, triedBucket, triedBucketPos);
      if testBeforeEvict && colliding != -1 {
        if |collisions| < SET_TRIED_COLLISION_SIZE {
          collisions := collisions + {nId};
        }
      } else {
        MakeTried(nId);
      }
    }

    /** Create: a new id enters mapInfo, mapAddr and vRandom. */
    method Create(info: Info) returns (nId: int)
      modifies this`nIdCount, this`mapInfo, this`mapAddr, this`vRandom
      ensures nId == old(nIdCount) && St().(nNew := nNew + 1) == Created(old(St()), info)
    {
      hide TableOf;
      nId := nIdCount;
      nIdCount := nIdCount + 1;
      mapInfo := mapInfo[nId := info];
      mapAddr := mapAddr[info.service.ip := nId];
      mapInfo := mapInfo[nId := mapInfo[nId].(nRandomPos := |vRandom|)];
      vRandom := vRandom + [nId];
    }

    /** The tail of Add_. */
    method PlaceNew(nId: int, source: IP, now: int)
      requires Shaped() && Inv(h, St(), {}, {nId}) && nId in mapInfo && !mapInfo[nId].fInTried
      modifies this`mapInfo, this`vRandom, this`mapAddr, this`nNew, vvNew
      ensures St() == AddrManOps.PlaceNew(h, old(St()), nId,
                                          SourceCell(h, old(nKey), old(mapInfo)[nId].service, source), now)
    {
      hide TableOf, RandomOk, AddrOk, IdsOk, TriedOk, NewOk, RefsOk, CountsOk, EntriesOk, AddrMan.ClearNew,
           AddrMan.Delete, IsTerrible, NewCellCleared;
      var nUBucket := NewBucket(h, nKey, mapInfo[nId].service, source);
      var nUBucketPos := Position(h, nKey, true, nUBucket, mapInfo[nId].service);
      ghost var s, c := St(), Cell(nUBucket, nUBucketPos);
      FilledNewCell(h, s, c, {}, {nId});
      var existing := ReadCell(vvNew, nUBucket, nUBucketPos);
      if existing != nId {
        var fInsert := existing == -1;
        if !fInsert {
          var infoExisting := mapInfo[existing];
          if IsTerrible(infoExisting, now) || (infoExisting.nRefCount > 1 && mapInfo[nId].nRefCount == 0) {
            fInsert := true;
          }
        }
        if fInsert {
          ClearNewEffect(s, c);
          ClearedKeepsOther(s, AddrMan.ClearNew(s, c), c, nId);
          ClearNew(nUBucket, nUBucketPos, {}, {nId});
          mapInfo := mapInfo[nId := mapInfo[nId].(nRefCount := mapInfo[nId].nRefCount + 1)];
          WriteCell(vvNew, nUBucket, nUBucketPos, nId);
        } else if mapInfo[nId].nRefCount == 0 {
          Delete(nId);
        }
      }
    }

    /** Add_'s update of a known entry. */
    method Refresh(nId: int, addr: Address, penalty: int, now: int) returns (info: Info)
      requires nId in mapInfo
      modifies this`mapInfo
      ensures info == Refreshed(old(mapInfo)[nId], addr, penalty, now) && St() == Touch(old(St()), nId, info)
      ensures info.service == old(mapInfo)[nId].service && info.nRefCount == old(mapInfo)[nId].nRefCount
    {
      hide TableOf;
      info := mapInfo[nId];
      var fCurrentlyOnline := now - addr.nTime < 24 * 60 * 60;
      var nUpdateInterval := if fCurrentlyOnline then 60 * 60 else 24 * 60 * 60;
      if addr.nTime != 0 && (info.nTime == 0 || info.nTime < addr.nTime - nUpdateInterval - penalty) {
        info := info.(nTime := if addr.nTime - penalty > 0 then addr.nTime - penalty else 0);
      }
      info := info.(nServices := info.nServices + addr.nServices);
      mapInfo := mapInfo[nId := info];
    }

    /** Add_: true iff the address is routable and was not known. */
    method Add_(addr: Address, source: IP, nTimePenalty: int, now: AddTimes, lucky: bool) returns (fNew: bool)
      requires Valid()
      modifies this, vvNew, vvTried
      ensures St() == Add(h, old(St()), addr, source, nTimePenalty, now, lucky)
      ensures Valid() && (fNew <==> h.isRoutable(addr.service.ip) && !Known(old(St()), addr.service.ip))
    {
      hide TableOf, RandomOk, AddrOk, IdsOk, TriedOk, NewOk, RefsOk, CountsOk, EntriesOk, CollisionsOk,
           AddrManOps.PlaceNew, Created, Refreshed, SourceCell, Evolves;
      ghost var s := St();
      AddKeeps(h, s, addr, source, nTimePenalty, now, lucky);
      if !h.isRoutable(addr.service.ip) { return false; }
      fNew := false;
      var nId := Find(addr.service.ip);
      var penalty := if addr.service.ip == source then 0 else nTimePenalty;
      if nId != -1 {
        RefreshKeeps(h, s, nId, addr, penalty, now.online);
        RefCountOf(h, s, nId);
        var info := Refresh(nId, addr, penalty, now.online);
        WeakenOrphans(h, St(), nId);
        if addr.nTime == 0 || (info.nTime != 0 && addr.nTime <= info.nTime) { return; }
        if info.fInTried { return; }
        if info.nRefCount == NEW_BUCKETS_PER_ADDRESS { return; }
        if info.nRefCount > 0 && !lucky { return; }
      } else {
        UnknownHasNoId(h, s, addr.service.ip);
        CreatedKeeps(h, s, NewInfo(addr, source, penalty), {});
        assert {} + {s.nIdCount} == {s.nIdCount};
        var nTime := if addr.nTime - penalty > 0 then addr.nTime - penalty else 0;
        nId := Create(Info(addr.service, addr.nServices, nTime, source, 0, 0, 0, 0, 0, false, -1));
        nNew := nNew + 1;
        fNew := true;
        CreatedEntry(s, NewInfo(addr, source, penalty));
      }
      PlaceNew(nId, source, now.cell);
    }

    method Attempt_(svc: Service, fCountFailure: bool, nTime: int)
      requires Valid() && nTime > 0
      modifies this`mapInfo
      ensures St() == Attempt(old(St()), svc, fCountFailure, nTime) && Valid()
    {
      hide TableOf, RandomOk, AddrOk, IdsOk, TriedOk, NewOk, RefsOk, CountsOk, EntriesOk, CollisionsOk;
      AttemptKeeps(h, St(), svc, fCountFailure, nTime);
      var nId := Find(svc.ip);
      if nId == -1 || mapInfo[nId].service != svc { return; }
      var info := mapInfo[nId].(nLastTry := nTime);
      if fCountFailure && info.nLastCountAttempt < nLastGood {
        info := info.(nLastCountAttempt := nTime, nAttempts := info.nAttempts + 1);
      }
      mapInfo := mapInfo[nId := info];
    }

    method Connected_(svc: Service, nTime: int)
      requires Valid()
      modifies this`mapInfo
      ensures St() == Connected(old(St()), svc, nTime) && Valid()
    {
      hide TableOf, RandomOk, AddrOk, IdsOk, TriedOk, NewOk, RefsOk, CountsOk, EntriesOk, CollisionsOk;
      StepKeeps(h, St(), OpConnected(svc, nTime));
      var nId := Find(svc.ip);
      if nId == -1 || mapInfo[nId].service != svc { return; }
      var info := mapInfo[nId];
      if nTime - info.nTime > 20 * 60 {
        info := info.(nTime := nTime);
      }
      mapInfo := mapInfo[nId := info];
    }

    method SetServices_(svc: Service, nServices: ServiceFlags)
      requires Valid()
      modifies this`mapInfo
      ensures St() == SetServices(old(St()), svc, nServices) && Valid()
    {
      hide TableOf, RandomOk, AddrOk, IdsOk, TriedOk, NewOk, RefsOk, CountsOk, EntriesOk, CollisionsOk;
      StepKeeps(h, St(), OpSetServices(svc, nServices));
      var nId := Find(svc.ip);
      if nId == -1 || mapInfo[nId].service != svc { return; }
      mapInfo := mapInfo[nId := mapInfo[nId].(nServices := nServices)];
    }

    /** GetAddr_: at most 23% of the addresses and at most 2500, and none twice. */
    method GetAddr_(draw: nat -> nat, now: nat -> int) returns (vAddr: seq<Address>, ghost ids: seq<int>)
      requires Valid()
      modifies this`mapInfo, this`vRandom
      ensures (St(), ids) == GetAddr(old(St()), 0, [], MaxNodes(|old(vRandom)|), draw, now)
      ensures Valid() && |vAddr| == |ids| <= MaxNodes(|old(vRandom)|)
      ensures forall i :: 0 <= i < |ids| ==> ids[i] in mapInfo && vAddr[i] == AddressOf(mapInfo[ids[i]])
      ensures forall i, j :: 0 <= i < j < |vAddr| ==> vAddr[i].service.ip != vAddr[j].service.ip
    {
      hide TableOf, AddrOk, IdsOk, TriedOk, NewOk, RefsOk, CountsOk, EntriesOk, CollisionsOk, AddrMan.SwapRandom,
           IsTerrible, MovedOnly;
      hide RandomOk, GetAddr, AllMovedOnly, Copied, HandedOut;
      ghost var s := St();
      GetAddrConsistent(h, s, draw, now);
      var nNodes := GETADDR_MAX_PCT * |vRandom| / 100;
      if nNodes > GETADDR_MAX { nNodes := GETADDR_MAX; }
      vAddr, ids := [], [];
      CopiedNone(mapInfo);
      var n := 0;
      while n < |vRandom| && |vAddr| < nNodes
        invariant 0 <= n <= |vRandom| && RandomOk(mapInfo, vRandom) && |vAddr| == |ids|
        invariant GetAddr(St(), n, ids, nNodes, draw, now) == GetAddr(s, 0, [], nNodes, draw, now)
        invariant Copied(mapInfo, ids, vAddr)
      {
        var nRndPos := draw(n) % (|vRandom| - n) + n;
        ghost var s0 := St();
        GetAddrStep(s0, n, ids, nNodes, draw, now);
        SwapRandomOk(s0, n, nRndPos);
        SwapRandom(n, nRndPos);
        RandomAt(mapInfo, vRandom, n);
        CopiedMoved(s0.mapInfo, mapInfo, ids, vAddr);
        assert vRandom[n] in mapInfo;
        var ai := mapInfo[vRandom[n]];
        if !IsTerrible(ai, now(n)) {
          CopiedOneMore(mapInfo, ids, vAddr, vRandom[n]);
          vAddr := vAddr + [AddressOf(ai)];
          ids := ids + [vRandom[n]];
        }
        n := n + 1;
      }
      GetAddrDone(St(), n, ids, nNodes, draw, now);
      HandedOutDistinct(h, s, St(), ids, vAddr, nNodes);
    }

    method ResolveCollisions_(clock: int -> Readings, nRnd: int -> nat)
      requires Valid() && (forall id :: clock(id).Positive()) && (forall id :: nRnd(id) < NEW_BUCKET_COUNT)
      modifies this, vvNew, vvTried
      ensures St() == Resolve(h, old(St()), old(collisions), clock) && Valid()
    {
      hide TableOf, Consistent, ResolveOne;
      ResolveKeeps(h, St(), collisions, clock);
      var rest := collisions;
      while rest != {}
        invariant Valid() && Resolve(h, St(), rest, clock) == Resolve(h, old(St()), old(collisions), clock)
        decreases |rest|
      {
        ghost var m := MinOf(rest);
        var idNew :| idNew in rest && forall x :: x in rest ==> idNew <= x;
        assert idNew == m;
        ResolveOneKeeps(h, St(), idNew, clock(idNew));
        ResolveOne_(idNew, clock(idNew), nRnd(idNew));
        rest := rest - {idNew};
      }
    }

    /** The body of ResolveCollisions_'s loop. */
    method ResolveOne_(idNew: int, t: Readings, nRnd: nat)
      requires Valid() && t.Positive() && nRnd < NEW_BUCKET_COUNT
      modifies this, vvNew, vvTried
      ensures St() == ResolveOne(h, old(St()), idNew, t) && Valid()
    {
      hide TableOf, RandomOk, AddrOk, IdsOk, TriedOk, NewOk, RefsOk, CountsOk, EntriesOk, CollisionsOk, Good;
      ResolveOneKeeps(h, St(), idNew, t);
      var eraseCollision := false;
      if idNew !in mapInfo {
        eraseCollision := true;
      } else {
        var infoNew := mapInfo[idNew];
        var triedBucket := TriedBucket(h, nKey, infoNew.service);
        var triedBucketPos := Position(h, nKey, false, triedBucket, infoNew.service);
        var idOld := ReadCell(vvTried, triedBucket, triedBucketPos);
        if !h.isValid(infoNew.service.ip) {
          eraseCollision := true;
        } else if idOld != -1 {
          TriedCellKnown(h, St(), Cell(triedBucket, triedBucketPos));
          var infoOld := mapInfo[idOld];
          if t.t0 - infoOld.nLastSuccess < REPLACEMENT_HOURS * (60 * 60) {
            eraseCollision := true;
          } else if t.t1 - infoOld.nLastTry < REPLACEMENT_HOURS * (60 * 60) {
            if t.t2 - infoOld.nLastTry > 60 {
              Good_(infoNew.service, false, t.t3, nRnd);
              eraseCollision := true;
            }
          } else if t.t2 - infoNew.nLastSuccess > TEST_WINDOW {
            Good_(infoNew.service, false, t.t3, nRnd);
            eraseCollision := true;
          }
        } else {
          Good_(infoNew.service, false, t.t0, nRnd);
          eraseCollision := true;
        }
      }
      if eraseCollision {
        collisions := collisions - {idNew};
      }
    }

    /** SelectTriedCollision_ on the pending id it drew, if any is pending.  Every read of mapInfo is at an existing
        id. */
    method SelectTriedCollision_(idNew: int) returns (found: bool, info: Info)
      requires Valid() && (collisions != {} ==> idNew in collisions)
      modifies this`collisions
      ensures St() == SelectTriedCollision(old(St()), idNew) && Valid()
      ensures found <==> idNew in old(collisions) && idNew in mapInfo
      ensures found ==> info.fInTried && At(St().tried, TriedCell(h, nKey, mapInfo[idNew].service)) in mapInfo
                        && info == mapInfo[At(St().tried, TriedCell(h, nKey, mapInfo[idNew].service))]
    {
      hide TableOf, RandomOk, AddrOk, IdsOk, TriedOk, NewOk, RefsOk, CountsOk, EntriesOk;
      if collisions == {} { return false, Info(Service(0, 0), {}, 0, 0, 0, 0, 0, 0, 0, false, -1); }
      ErasedKeeps(h, St(), idNew);
      if idNew !in mapInfo {
        collisions := collisions - {idNew};
        return false, Info(Service(0, 0), {}, 0, 0, 0, 0, 0, 0, 0, false, -1);
      }
      SelectTriedCollisionReads(h, St(), idNew);
      var triedBucket := TriedBucket(h, nKey, mapInfo[idNew].service);
      var triedBucketPos := Position(h, nKey, false, triedBucket, mapInfo[idNew].service);
      var idOld := ReadCell(vvTried, triedBucket, triedBucketPos);
      return true, mapInfo[idOld];
    }

    /** Serialize's first loop: the entries with references, ascending by id, and their indexes. */
    method WriteNewEntries() returns (infos: seq<Persisted>, mapUnkIds: map<int, int>)
      requires Valid()
      ensures var a := NewOrder(mapInfo, mapInfo.Keys);
              && AllKnown(mapInfo, a) && infos == PersistAll(mapInfo, a)
              && (forall x :: x in a ==> x in mapUnkIds && mapUnkIds[x] == IndexOf(a, x))
    {
      hide TableOf, Consistent, AllKnown, Distinct, PersistAll, NewOrder;
      ghost var a := NewOrder(mapInfo, mapInfo.Keys);
      OrderWritten(h, St());
      NewOrderOk(mapInfo, mapInfo.Keys);
      infos, mapUnkIds := [], map[];
      var nIds := 0;
      var rest := mapInfo.Keys;
      PersistNone(mapInfo);
      while rest != {}
        invariant rest <= mapInfo.Keys && nIds == |infos| <= |a|
        invariant a[nIds..] == NewOrder(mapInfo, rest)
        invariant AllKnown(mapInfo, a[..nIds]) && infos == PersistAll(mapInfo, a[..nIds])
        invariant forall x :: x in a[..nIds] ==> x in mapUnkIds && mapUnkIds[x] == IndexOf(a, x)
        decreases |rest|
      {
        ghost var m := MinOf(rest);
        var id :| id in rest && forall x :: x in rest ==> id <= x;
        assert id == m;
        NewOrderStep(mapInfo, rest, id);
        ghost var before := mapUnkIds;
        mapUnkIds := mapUnkIds[id := nIds];
        if mapInfo[id].nRefCount != 0 {
          assert a[nIds] == id;
          assert nIds != nNew;
          IndexOfDistinct(a, nIds);
          TakeOneMore(a, nIds);
          PersistOneMore(mapInfo, a, nIds);
          assert id !in a[..nIds] by { FirstOccurrence(a, nIds); }
          infos := infos + [Persist(mapInfo[id])];
          nIds := nIds + 1;
        } else {
          assert id !in a;
          NotInPrefix(a, nIds, id);
        }
        rest := rest - {id};
      }
      assert a[..nIds] == a by { EmptyOrder(mapInfo); }
    }

    /** Serialize's second loop. */
    method WriteTriedEntries() returns (infos: seq<Persisted>)
      requires Valid()
      ensures var t := TriedOrder(mapInfo, mapInfo.Keys); AllKnown(mapInfo, t) && infos == PersistAll(mapInfo, t)
    {
      hide TableOf, Consistent, AllKnown, Distinct, PersistAll, TriedOrder;
      ghost var t := TriedOrder(mapInfo, mapInfo.Keys);
      OrderWritten(h, St());
      TriedOrderOk(mapInfo, mapInfo.Keys);
      infos := [];
      var nIds := 0;
      var rest := mapInfo.Keys;
      PersistNone(mapInfo);
      while rest != {}
        invariant rest <= mapInfo.Keys && nIds == |infos| <= |t|
        invariant t[nIds..] == TriedOrder(mapInfo, rest)
        invariant AllKnown(mapInfo, t[..nIds]) && infos == PersistAll(mapInfo, t[..nIds])
        decreases |rest|
      {
        ghost var m := MinOf(rest);
        var id :| id in rest && forall x :: x in rest ==> id <= x;
        assert id == m;
        TriedOrderStep(mapInfo, rest, id);
        if mapInfo[id].fInTried {
          assert t[nIds] == id;
          assert nIds != nTried;
          PersistOneMore(mapInfo, t, nIds);
          infos := infos + [Persist(mapInfo[id])];
          nIds := nIds + 1;
        }
        rest := rest - {id};
      }
      assert t[..nIds] == t by { EmptyOrder(mapInfo); }
    }

    /** Serialize's loops over one bucket: its size, then the index of each reference. */
    method WriteBucket(bucket: nat, mapUnkIds: map<int, int>, ghost a: seq<int>) returns (refs: seq<int>)
      requires Valid() && bucket < NEW_BUCKET_COUNT
      requires forall x :: x in a ==> x in mapUnkIds && mapUnkIds[x] == IndexOf(a, x)
      requires forall c :: At(TableOf(vvNew), c) != -1 ==> At(TableOf(vvNew), c) in a
      ensures refs == [|BucketRefs(TableOf(vvNew), a, bucket, 0)|] + BucketRefs(TableOf(vvNew), a, bucket, 0)
    {
      hide TableOf, Consistent, IndexOf, At;
      ghost var v := TableOf(vvNew);
      var nSize := 0;
      var i := 0;
      while i < BUCKET_SIZE
        invariant 0 <= i <= BUCKET_SIZE && nSize + |BucketRefs(v, a, bucket, i)| == |BucketRefs(v, a, bucket, 0)|
      {
        var x := ReadCell(vvNew, bucket, i);
        if x != -1 { nSize := nSize + 1; }
        i := i + 1;
      }
      refs := [nSize];
      i := 0;
      while i < BUCKET_SIZE
        invariant 0 <= i <= BUCKET_SIZE && refs + BucketRefs(v, a, bucket, i) == [nSize] + BucketRefs(v, a, bucket, 0)
      {
        var x := ReadCell(vvNew, bucket, i);
        BucketRefsStep(v, a, bucket, i, refs);
        if x != -1 {
          var nIndex := mapUnkIds[x];
          refs := refs + [nIndex];
        }
        i := i + 1;
      }
    }

    /** Serialize: neither of its asserts can fail, and the stream is the one the format describes. */
    method Serialize() returns (stream: Stream)
      requires Valid()
      ensures stream == Serialized(St())
    {
      hide TableOf, Consistent, NewOrder, TriedOrder, PersistAll, AllKnown, AllRefs;
      var nUBuckets := FlipBit30(NEW_BUCKET_COUNT);
      var newInfos, mapUnkIds := WriteNewEntries();
      var triedInfos := WriteTriedEntries();
      CellsInOrder(h, St());
      var refs := WriteRefs(mapUnkIds, NewOrder(mapInfo, mapInfo.Keys));
      stream := Stream(1, 32, nKey, nNew, nTried, nUBuckets, newInfos + triedInfos, refs);
    }

    /** Serialize's last loop, over the buckets. */
    method WriteRefs(mapUnkIds: map<int, int>, ghost a: seq<int>) returns (refs: seq<int>)
      requires Valid()
      requires forall x :: x in a ==> x in mapUnkIds && mapUnkIds[x] == IndexOf(a, x)
      requires forall c :: At(TableOf(vvNew), c) != -1 ==> At(TableOf(vvNew), c) in a
      ensures refs == AllRefs(TableOf(vvNew), a, 0)
    {
      hide TableOf, Consistent, AllRefs, BucketRefs, At, IndexOf;
      ghost var v := TableOf(vvNew);
      refs := [];
      var bucket := 0;
      while bucket < NEW_BUCKET_COUNT
        invariant 0 <= bucket <= NEW_BUCKET_COUNT
        invariant refs + AllRefs(v, a, bucket) == AllRefs(v, a, 0)
      {
        var out := WriteBucket(bucket, mapUnkIds, a);
        AllRefsStep(v, a, bucket, refs, out);
        refs := refs + out;
        bucket := bucket + 1;
      }
      AllRefsEnd(v, a);
    }

    /** An entry just read takes its own source's cell of the new table if that is free. */
    method TakeOwnCell(n: int, ghost sound: bool)
      requires Shaped() && RandomOk(mapInfo, vRandom) && n in mapInfo && UntriedBelow(mapInfo, n + 1)
      requires mapInfo[n].nRefCount == 0
      requires sound ==> Inv(h, St().(nNew := n + 1, nTried := 0, nIdCount := n + 1), {}, Upto(n + 1))
      modifies this`mapInfo, vvNew
      ensures RandomOk(mapInfo, vRandom) && UntriedBelow(mapInfo, n + 1) && mapInfo.Keys == old(mapInfo.Keys)
      ensures var c := SourceCell(h, nKey, old(mapInfo)[n].service, old(mapInfo)[n].source);
              St() == if At(old(St()).vNew, c) == -1 then PutNew(old(St()), n, c) else old(St())
      ensures sound ==> Inv(h, St().(nNew := n + 1, nTried := 0, nIdCount := n + 1), {}, Upto(n + 1))
    {
      hide TableOf, RandomOk, Inv, PutNew, NewCell, UntriedBelow, NewBucket;
      ghost var v := St().(nNew := n + 1, nTried := 0, nIdCount := n + 1);
      var info := mapInfo[n];
      UntriedAt(mapInfo, n + 1, n);
      NewBucketBelow(h, nKey, info);
      var nUBucket := NewBucket(h, nKey, info.service, info.source);
      var nUBucketPos := Position(h, nKey, true, nUBucket, info.service);
      var x := ReadCell(vvNew, nUBucket, nUBucketPos);
      CellIs(h, nKey, info.service, nUBucket);
      if x == -1 {
        PutNewIs(v, n, Cell(nUBucket, nUBucketPos));
        PutNewIs(St(), n, Cell(nUBucket, nUBucketPos));
        if sound { SoundPut(h, v, n, Cell(nUBucket, nUBucketPos), n + 1); }
        WriteCell(vvNew, nUBucket, nUBucketPos, n);
        UpdateRandom(mapInfo, vRandom, n, info.(nRefCount := info.nRefCount + 1));
        OneMoreUntried(mapInfo, n + 1, n, info.(nRefCount := info.nRefCount + 1));
        mapInfo := mapInfo[n := info.(nRefCount := info.nRefCount + 1)];
      }
    }

    /** Unserialize's first loop.  When the bucket section cannot be used an entry gets its own source's cell. */
    method ReadNewEntries(st: Stream, useRefs: bool, ghost s: State, ghost ids: seq<int>, ghost nA: nat)
      returns (ok: bool)
      requires Shaped() && mapInfo == map[] && mapAddr == map[] && vRandom == []
      requires forall c :: At(TableOf(vvNew), c) == -1 && At(TableOf(vvTried), c) == -1
      requires WrittenFor(h, s, st, ids, nA) ==> useRefs && nKey == s.nKey
      modifies this`mapInfo, this`mapAddr, this`vRandom, vvNew
      ensures RandomOk(mapInfo, vRandom)
      ensures ok ==> forall x :: x in mapInfo <==> 0 <= x < st.nNew
      ensures ok ==> UntriedBelow(mapInfo, st.nNew)
      ensures ok && Sound(st) ==>
                && Inv(h, St().(nNew := st.nNew, nTried := 0, nIdCount := st.nNew), {}, Upto(st.nNew))
                && AddrsFrom(st, st.nNew, mapAddr)
      ensures WrittenFor(h, s, st, ids, nA) ==>
                ok && Loaded(s.mapInfo, ids, nA, nA, mapInfo) && TableOf(vvNew) == old(TableOf(vvNew))
    {
      hide TableOf, RandomOk, Inv, Loaded, WrittenFor, Created, Load, Persist, Sound, AddrsFrom, UntriedBelow;
      ghost var good, sound := WrittenFor(h, s, st, ids, nA), Sound(st);
      if good { WrittenSound(h, s, st, ids, nA); }
      NothingRead(h, s, ids, nA, St());
      NothingListed(st, mapInfo, mapAddr);
      var n := 0;
      while n < st.nNew
        invariant 0 <= n && (n <= st.nNew || n == 0) && RandomOk(mapInfo, vRandom)
        invariant forall x :: x in mapInfo <==> 0 <= x < n
        invariant UntriedBelow(mapInfo, n)
        invariant sound ==> Inv(h, St().(nNew := n, nTried := 0, nIdCount := n), {}, Upto(n))
        invariant sound ==> AddrsFrom(st, n, mapAddr)
        invariant good ==> Loaded(s.mapInfo, ids, nA, n, mapInfo) && TableOf(vvNew) == old(TableOf(vvNew))
      {
        ghost var v := St().(nNew := n, nTried := 0, nIdCount := n);
        if good { ReadNewNext(h, s, st, ids, nA, v, n); }
        if n >= |st.infos| { return false; }
        if sound { SoundNewStep(h, st, v, n); }
        var info := Load(st.infos[n]).(nRandomPos := |vRandom|);
        RandomAppend(mapInfo, vRandom, n, info);
        LoadPlain(st.infos[n], mapInfo, n, info);
        mapInfo := mapInfo[n := info];
        mapAddr := mapAddr[info.service.ip := n];
        vRandom := vRandom + [n];
        CreatedIs(v, Load(st.infos[n]), St().(nNew := n + 1, nTried := 0, nIdCount := n + 1));
        if !useRefs { TakeOwnCell(n, sound); }
        n := n + 1;
      }
      if good { CountIsA(h, s, st, ids, nA); }
      if sound { SoundCounts(st); }
      UntriedLess(mapInfo, n, st.nNew);
      ok := true;
    }

    /** The body of Unserialize's second loop: a tried entry whose cell is taken is lost. */
    method ReadOneTried(info: Info) returns (lost: bool)
      requires Shaped() && RandomOk(mapInfo, vRandom) && (forall x :: x in mapInfo ==> x < nIdCount)
      modifies this`mapInfo, this`mapAddr, this`vRandom, this`nIdCount, vvTried
      ensures RandomOk(mapInfo, vRandom) && (forall x :: x in mapInfo ==> x < nIdCount) && old(nIdCount) <= nIdCount
      ensures forall x :: x in old(mapInfo) ==> x in mapInfo
      ensures lost <==> At(old(St()).tried, TriedCell(h, nKey, info.service)) != -1
      ensures if lost then St() == old(St())
              else St().(nTried := nTried + 1) == TriedAdded(h, old(St()), info) && nIdCount == old(nIdCount) + 1
    {
      hide TableOf, RandomOk, TriedAdded;
      ghost var v := St();
      CellIsTried(h, nKey, info.service);
      var nKBucket := TriedBucket(h, nKey, info.service);
      var nKBucketPos := Position(h, nKey, false, nKBucket, info.service);
      var x := ReadCell(vvTried, nKBucket, nKBucketPos);
      if x != -1 { return true; }
      var placed := info.(nRandomPos := |vRandom|, fInTried := true);
      RandomAppend(mapInfo, vRandom, nIdCount, placed);
      vRandom := vRandom + [nIdCount];
      mapInfo := mapInfo[nIdCount := placed];
      mapAddr := mapAddr[placed.service.ip := nIdCount];
      WriteCell(vvTried, nKBucket, nKBucketPos, nIdCount);
      nIdCount := nIdCount + 1;
      TriedAddedIs(h, v, info, St().(nTried := nTried + 1));
      lost := false;
    }

    /** Unserialize's second loop. */
    method ReadTriedEntries(st: Stream, ghost s: State, ghost ids: seq<int>, ghost nA: nat)
      returns (ok: bool, nLost: nat)
      requires Shaped() && RandomOk(mapInfo, vRandom) && nIdCount == st.nNew
      requires (forall x :: x in mapInfo <==> 0 <= x < st.nNew) && UntriedBelow(mapInfo, st.nNew)
      requires Sound(st) ==>
                 Inv(h, St().(nNew := st.nNew, nTried := 0), {}, Upto(st.nNew)) && AddrsFrom(st, st.nNew, mapAddr)
      requires WrittenFor(h, s, st, ids, nA) ==> nKey == s.nKey && Loaded(s.mapInfo, ids, nA, nA, mapInfo)
      modifies this`mapInfo, this`mapAddr, this`vRandom, this`nIdCount, vvTried
      ensures RandomOk(mapInfo, vRandom) && (forall x :: 0 <= x < st.nNew ==> x in mapInfo)
      ensures UntriedBelow(mapInfo, st.nNew)
      ensures ok && Sound(st) ==> Inv(h, St().(nNew := st.nNew, nTried := st.nTried - nLost), {}, Upto(st.nNew))
      ensures WrittenFor(h, s, st, ids, nA) ==> ok && nLost == 0 && Loaded(s.mapInfo, ids, nA, |ids|, mapInfo)
    {
      hide TableOf, RandomOk, Inv, Loaded, WrittenFor, Load, TriedAdded, TriedCell, Sound, AddrsFrom, UntriedBelow;
      ghost var good, sound := WrittenFor(h, s, st, ids, nA), Sound(st);
      if good { CountIsA(h, s, st, ids, nA); WrittenSound(h, s, st, ids, nA); }
      if sound { SoundCounts(st); }
      var start := if st.nNew > 0 then st.nNew else 0;
      nLost := 0;
      var n := 0;
      while n < st.nTried
        invariant 0 <= n && (n <= st.nTried || n == 0) && RandomOk(mapInfo, vRandom) && st.nNew <= nIdCount
        invariant (forall x :: x in mapInfo ==> x < nIdCount) && (forall x :: 0 <= x < st.nNew ==> x in mapInfo)
        invariant UntriedBelow(mapInfo, st.nNew)
        invariant sound ==> Inv(h, St().(nNew := st.nNew, nTried := n - nLost), {}, Upto(st.nNew))
        invariant sound ==> AddrsFrom(st, start + n, mapAddr)
        invariant good ==> nLost == 0 && nIdCount == nA + n && nA + n <= |ids|
        invariant good ==> Loaded(s.mapInfo, ids, nA, nA + n, mapInfo)
      {
        ghost var v := St().(nNew := st.nNew, nTried := n - nLost);
        if good { ReadTriedNext(h, s, st, ids, nA, v, nA + n); }
        if start + n >= |st.infos| { return false, nLost; }
        if sound { SoundTriedNext(h, st, v, start + n); }
        TriedAddedCounts(h, St(), Load(st.infos[start + n]), st.nNew, n - nLost);
        TriedUntried(h, St(), Load(st.infos[start + n]), st.nNew);
        var lost := ReadOneTried(Load(st.infos[start + n]));
        if lost { nLost := nLost + 1; }
        n := n + 1;
      }
      ok := true;
    }

    /** Unserialize's loop over one bucket: each reference goes to its computed position if that is free. */
    method ReadBucket(refs: seq<int>, bucket: nat, useRefs: bool, ghost s: State, ghost ids: seq<int>, ghost nA: nat,
                      ghost good: bool, ghost sound: bool)
      returns (ok: bool, rest: seq<int>)
      requires Shaped() && RandomOk(mapInfo, vRandom) && (forall x :: 0 <= x < nNew ==> x in mapInfo)
      requires UntriedBelow(mapInfo, nNew) && (sound ==> Inv(h, St(), {}, Upto(nNew)))
      requires useRefs ==> bucket < NEW_BUCKET_COUNT
      requires good ==>
                 && useRefs && Written(h, s, ids, nA) && Complete(s, ids) && nNew == nA <= |ids|
                 && RefsRead(h, s, ids, nA, St(), bucket, 0)
                 && refs == AllRefs(s.vNew, ids[..nA], bucket)
      modifies this`mapInfo, vvNew
      ensures RandomOk(mapInfo, vRandom) && (forall x :: 0 <= x < nNew ==> x in mapInfo)
      ensures UntriedBelow(mapInfo, nNew) && (sound ==> Inv(h, St(), {}, Upto(nNew)))
      ensures good ==>
                ok && RefsRead(h, s, ids, nA, St(), bucket + 1, 0) && rest == AllRefs(s.vNew, ids[..nA], bucket + 1)
    {
      hide TableOf, RandomOk, RefsRead, Written, Complete, PutNew, BucketRefs, AllRefs, NewCell, Inv, UntriedBelow;
      if good { SplitRefs(s.vNew, ids[..nA], bucket); }
      if refs == [] { return false, []; }
      var nSize := refs[0];
      rest := refs[1..];
      ghost var p := 0;
      var n := 0;
      while n < nSize
        invariant 0 <= n && RandomOk(mapInfo, vRandom) && (forall x :: 0 <= x < nNew ==> x in mapInfo)
        invariant UntriedBelow(mapInfo, nNew) && (sound ==> Inv(h, St(), {}, Upto(nNew)))
        invariant p <= BUCKET_SIZE
        invariant good ==> n <= nSize && RefsRead(h, s, ids, nA, St(), bucket, p)
        invariant good ==> nSize - n == |BucketRefs(s.vNew, ids[..nA], bucket, p)|
        invariant good ==> rest == BucketRefs(s.vNew, ids[..nA], bucket, p) + AllRefs(s.vNew, ids[..nA], bucket + 1)
      {
        if rest == [] { return false, []; }
        var nIndex := rest[0];
        ghost var q := p;
        ghost var r := St();
        if good {
          q := ReadNextRef(h, s, ids, nA, r, bucket, p);
          assert rest[0] == BucketRefs(s.vNew, ids[..nA], bucket, p)[0];
          assert rest[1..] == BucketRefs(s.vNew, ids[..nA], bucket, p)[1..] + AllRefs(s.vNew, ids[..nA], bucket + 1);
          RefsReadKey(h, s, ids, nA, r, bucket, p);
          p := q + 1;
        }
        rest := rest[1..];
        if 0 <= nIndex < nNew {
          var info := mapInfo[nIndex];
          var nUBucketPos := Position(h, nKey, true, bucket, info.service);
          if useRefs && info.nRefCount < NEW_BUCKETS_PER_ADDRESS {
            var x := ReadCell(vvNew, bucket, nUBucketPos);
            if x == -1 {
              PutNewIs(r, nIndex, Cell(bucket, nUBucketPos));
              CellIs(h, nKey, info.service, bucket);
              UntriedAt(mapInfo, nNew, nIndex);
              if sound { SoundPut(h, r, nIndex, Cell(bucket, nUBucketPos), nNew); }
              OneMoreUntried(mapInfo, nNew, nIndex, info.(nRefCount := info.nRefCount + 1));
              UpdateRandom(mapInfo, vRandom, nIndex, info.(nRefCount := info.nRefCount + 1));
              mapInfo := mapInfo[nIndex := info.(nRefCount := info.nRefCount + 1)];
              WriteCell(vvNew, bucket, nUBucketPos, nIndex);
            }
          }
          if good { CellIs(h, s.nKey, info.service, bucket); }
        }
        n := n + 1;
      }
      if good { ReadBucketEnd(h, s, ids, nA, St(), bucket, p); }
      ok := true;
    }

    /** Unserialize's loop over the bucket section. */
    method ReadRefs(st: Stream, nUBuckets: int, useRefs: bool, ghost s: State, ghost ids: seq<int>, ghost nA: nat,
                    ghost sound: bool)
      returns (ok: bool)
      requires Shaped() && RandomOk(mapInfo, vRandom) && (forall x :: 0 <= x < nNew ==> x in mapInfo)
      requires UntriedBelow(mapInfo, nNew) && (sound ==> Inv(h, St(), {}, Upto(nNew)))
      requires useRefs ==> nUBuckets == NEW_BUCKET_COUNT
      requires WrittenFor(h, s, st, ids, nA) ==>
                 useRefs && nNew == nA <= |ids| && RefsRead(h, s, ids, nA, St(), 0, 0)
      modifies this`mapInfo, vvNew
      ensures RandomOk(mapInfo, vRandom) && (sound ==> Inv(h, St(), {}, Upto(nNew)))
      ensures WrittenFor(h, s, st, ids, nA) ==> ok && RefsRead(h, s, ids, nA, St(), NEW_BUCKET_COUNT, 0)
    {
      hide TableOf, RandomOk, RefsRead, WrittenFor, Written, Complete, AllRefs, Inv, UntriedBelow;
      ghost var good := WrittenFor(h, s, st, ids, nA);
      if good { CountIsA(h, s, st, ids, nA); RefsAre(h, s, st, ids, nA); }
      var rest := st.refs;
      var bucket := 0;
      while bucket < nUBuckets
        invariant 0 <= bucket && (bucket <= nUBuckets || bucket == 0) && RandomOk(mapInfo, vRandom)
        invariant (forall x :: 0 <= x < nNew ==> x in mapInfo) && UntriedBelow(mapInfo, nNew)
        invariant sound ==> Inv(h, St(), {}, Upto(nNew))
        invariant good ==> RefsRead(h, s, ids, nA, St(), bucket, 0) && rest == AllRefs(s.vNew, ids[..nA], bucket)
      {
        ok, rest := ReadBucket(rest, bucket, useRefs, s, ids, nA, good, sound);
        if !ok { return false; }
        bucket := bucket + 1;
      }
      ok := true;
    }

    /** Unserialize's last loop: exactly the new entries that got no reference go. */
    method Prune(ghost orphans: set<int>) returns (nLostUnk: nat)
      requires Shaped() && RandomOk(mapInfo, vRandom)
      modifies this`mapInfo, this`vRandom, this`mapAddr, this`nNew
      ensures Pruned(old(mapInfo), mapInfo)
      ensures nLostUnk == 0 ==> St() == old(St())
      ensures nLostUnk == 0 <==> forall x :: x in old(mapInfo) ==> Placed(old(mapInfo)[x])
      ensures old(Inv(h, St(), {}, orphans)) ==> Inv(h, St(), {}, {})
    {
      hide TableOf, RandomOk, AddrMan.Delete, Inv, Deleted, Placed, MovedOnly;
      nLostUnk := 0;
      ghost var sound := Inv(h, St(), {}, orphans);
      ghost var loose := orphans;
      var rest := mapInfo.Keys;
      forall x | x in mapInfo ensures MovedOnly(mapInfo[x], mapInfo[x]) { NotMoved(mapInfo[x]); }
      while rest != {}
        invariant RandomOk(mapInfo, vRandom) && rest <= mapInfo.Keys
        invariant forall x :: x in mapInfo ==> x in old(mapInfo) && MovedOnly(old(mapInfo)[x], mapInfo[x])
        invariant forall x :: x in mapInfo ==> x in rest || Placed(mapInfo[x])
        invariant forall x :: x in old(mapInfo) && x !in mapInfo ==> !Placed(old(mapInfo)[x])
        invariant nLostUnk == 0 ==> St() == old(St())
        invariant nLostUnk > 0 ==> exists x :: x in old(mapInfo) && !Placed(old(mapInfo)[x])
        invariant sound ==> Inv(h, St(), {}, loose)
        decreases |rest|
      {
        ghost var m := MinOf(rest);
        var id :| id in rest && forall x :: x in rest ==> id <= x;
        if !Placed(mapInfo[id]) {
          ghost var s := St();
          PruneOne(h, s, id, loose, sound);
          SamePlaced(old(mapInfo)[id], mapInfo[id]);
          loose := loose - {id};
          NotPlaced(mapInfo[id]);
          forall x | x in mapInfo && x != id
            ensures MovedOnly(old(mapInfo)[x], AddrMan.Delete(s, id).mapInfo[x])
            ensures Placed(AddrMan.Delete(s, id).mapInfo[x]) == Placed(mapInfo[x])
          {
            MovedTwice(old(mapInfo)[x], mapInfo[x], AddrMan.Delete(s, id).mapInfo[x]);
          }
          Delete(id);
          nLostUnk := nLostUnk + 1;
        }
        rest := rest - {id};
      }
      forall x | x in mapInfo ensures Placed(old(mapInfo)[x]) { SamePlaced(old(mapInfo)[x], mapInfo[x]); }
      if sound { AllPlaced(h, St(), loose); }
    }

    /** Unserialize after the header: the four loops. */
    method ReadBody(st: Stream, nUBuckets: int, ghost s: State, ghost ids: seq<int>, ghost nA: nat) returns (ok: bool)
      requires Shaped() && mapInfo == map[] && mapAddr == map[] && vRandom == []
      requires forall c :: At(TableOf(vvNew), c) == -1 && At(TableOf(vvTried), c) == -1
      requires nNew == st.nNew && nTried == st.nTried
      requires WrittenFor(h, s, st, ids, nA) ==>
                 && st.nVersion == 1 && nUBuckets == NEW_BUCKET_COUNT && nKey == s.nKey && nNew == s.nNew
                 && nTried == s.nTried
      modifies this, vvTried, vvNew
      ensures Shaped() && collisions == old(collisions)
      ensures ok && Sound(st) ==> Inv(h, St(), {}, {})
      ensures WrittenFor(h, s, st, ids, nA) ==> ok && Inv(h, St(), {}, {}) && Restored(s, St(), ids, nA)
    {
      hide TableOf, RandomOk, Inv, Loaded, WrittenFor, Written, Complete, RefsRead, Restored, Sound, AddrsFrom,
           UntriedBelow, Pruned, Placed;
      ghost var good := WrittenFor(h, s, st, ids, nA);
      if good { CountIsA(h, s, st, ids, nA); WrittenSound(h, s, st, ids, nA); }
      var useRefs := st.nVersion == 1 && nUBuckets == NEW_BUCKET_COUNT;
      ok := ReadNewEntries(st, useRefs, s, ids, nA);
      if !ok { return; }
      nIdCount := nNew;
      var nLost: nat;
      ok, nLost := ReadTriedEntries(st, s, ids, nA);
      if !ok { return; }
      nTried := nTried - nLost;
      if good { RefsReadStart(h, s, ids, nA, St()); }
      ok := ReadRefs(st, nUBuckets, useRefs, s, ids, nA, Sound(st));
      if !ok { return; }
      if good { ReadDone(h, s, ids, nA, St()); PlacedIs(mapInfo); }
      var nLostUnk := Prune(Upto(nNew));
    }

    /** Unserialize into a manager that Clear empties first.  Whatever the version, the bucket count and the references,
        the indexes agree afterwards if no address is listed twice; the pending collisions stay.  `s` is any state: if
        the stream is the one Serialize writes for it, reading succeeds and loses nothing. */
    method Unserialize(st: Stream, key: nat, ghost s: State) returns (ok: bool)
      requires Shaped()
      modifies this, vvTried, vvNew
      ensures collisions == old(collisions)
      ensures ok && Sound(st) ==> Inv(h, St(), {}, {}) && (old(collisions) == {} ==> Valid())
      ensures Consistent(h, s) && st == Serialized(s) ==>
                && ok && Inv(h, St(), {}, {}) && (old(collisions) == {} ==> Valid())
                && Restored(s, St(), Order(s), |NewOrder(s.mapInfo, s.mapInfo.Keys)|)
    {
      hide TableOf, Inv, CollisionsOk, WrittenFor, Restored, Order, NewOrder, Serialized, Sound;
      ghost var ids, nA := Order(s), |NewOrder(s.mapInfo, s.mapInfo.Keys)|;
      if Consistent(h, s) && st == Serialized(s) {
        SerializedIsWritten(h, s);
      }
      if WrittenFor(h, s, st, ids, nA) {
        HeaderFits(h, s, st, ids, nA);
      }
      Clear(key);
      if st.nKeySize != 32 { return false; }
      nKey := st.nKey;
      nNew := st.nNew;
      nTried := st.nTried;
      var nUBuckets := if st.nVersion != 0 then FlipBit30(st.nUBuckets) else st.nUBuckets;
      if nNew > NEW_BUCKET_COUNT * BUCKET_SIZE { return false; }
      if nTried > TRIED_BUCKET_COUNT * BUCKET_SIZE { return false; }
      ok := ReadBody(st, nUBuckets, s, ids, nA);
      if collisions == {} { NoCollisions(h, St()); }
    }
  }

  /** The ids of the new table come first and are not tried. */
  ghost predicate UntriedBelow(mi: Entries, n: int) {
    forall x :: x in mi && x < n ==> !mi[x].fInTried
  }

  lemma NothingListed(st: Stream, mi: Entries, ma: map<IP, int>)
    requires mi == map[] && ma == map[]
    ensures AddrsFrom(st, 0, ma) && UntriedBelow(mi, 0)
  {}

  lemma SoundCounts(st: Stream)
    requires Sound(st)
    ensures st.nNew >= 0 && st.nTried >= 0
  {}

  lemma UntriedAt(mi: Entries, n: int, x: int)
    requires UntriedBelow(mi, n) && x in mi && x < n
    ensures !mi[x].fInTried
  {}

  lemma UntriedLess(mi: Entries, n: int, k: int)
    requires UntriedBelow(mi, n) && k <= n
    ensures UntriedBelow(mi, k)
  {}

  lemma OneMoreUntried(mi: Entries, n: int, x: int, info: Info)
    requires UntriedBelow(mi, n) && !info.fInTried
    ensures UntriedBelow(mi[x := info], n)
  {}

  lemma LoadPlain(p: Persisted, mi: Entries, n: int, info: Info)
    requires UntriedBelow(mi, n) && info == Load(p).(nRandomPos := info.nRandomPos)
    ensures !info.fInTried && info.nRefCount == 0 && UntriedBelow(mi[n := info], n + 1)
  {}

  lemma NewBucketBelow(h: Hashes, key: nat, info: Info)
    ensures NewBucket(h, key, info.service, info.source) < NEW_BUCKET_COUNT
  {}

  lemma SoundTriedNext(h: Hashes, st: Stream, v: State, n: int)
    requires Sound(st) && st.nNew <= n < |st.infos| && AddrsFrom(st, n, v.mapAddr)
    requires Inv(h, v, {}, Upto(st.nNew)) && st.nNew <= v.nIdCount
    ensures AddrsFrom(st, n + 1, v.mapAddr)
    ensures At(v.tried, TriedCell(h, v.nKey, Load(st.infos[n]).service)) == -1 ==>
              var v' := TriedAdded(h, v, Load(st.infos[n]));
              Inv(h, v', {}, Upto(st.nNew)) && AddrsFrom(st, n + 1, v'.mapAddr)
  {
    hide Inv, TriedAdded, TriedCell, AddrsFrom, Sound;
    SoundCounts(st);
    NextUnlisted(st, n, v.mapAddr, 0);
    if At(v.tried, TriedCell(h, v.nKey, st.infos[n].service)) == -1 { SoundTriedStep(h, st, v, n, st.nNew); }
  }

  lemma TriedUntried(h: Hashes, v: State, info: Info, n: int)
    requires UntriedBelow(v.mapInfo, n) && n <= v.nIdCount
    ensures UntriedBelow(TriedAdded(h, v, info).mapInfo, n)
  {
    hide TriedCell;
  }

  /** An entry that is in one of the tables. */
  predicate Placed(info: Info) { info.fInTried || info.nRefCount != 0 }

  /** The entries that are in a table stay, up to their place in vRandom; the others go. */
  ghost predicate Pruned(mi: Entries, mi': Entries) {
    && (forall x :: x in mi' <==> x in mi && Placed(mi[x]))
    && forall x :: x in mi' ==> MovedOnly(mi[x], mi'[x])
  }

  lemma NotMoved(a: Info)
    ensures MovedOnly(a, a)
  {}

  lemma MovedTwice(a: Info, b: Info, c: Info)
    requires MovedOnly(a, b) && MovedOnly(b, c)
    ensures MovedOnly(a, c) && Placed(c) == Placed(b)
  {}

  lemma SamePlaced(a: Info, b: Info)
    requires MovedOnly(a, b)
    ensures Placed(a) == Placed(b)
  {}

  lemma NotPlaced(a: Info)
    requires !Placed(a)
    ensures !a.fInTried && a.nRefCount == 0
  {}

  lemma PlacedIs(mi: Entries)
    requires forall x :: x in mi ==> mi[x].fInTried || mi[x].nRefCount != 0
    ensures forall x :: x in mi ==> Placed(mi[x])
  {}

  lemma PruneOne(h: Hashes, s: State, id: int, loose: set<int>, sound: bool)
    requires RandomOk(s.mapInfo, s.vRandom) && id in s.mapInfo && !Placed(s.mapInfo[id])
    requires sound ==> Inv(h, s, {}, loose)
    ensures var s' := AddrMan.Delete(s, id);
            && RandomOk(s'.mapInfo, s'.vRandom) && (sound ==> Inv(h, s', {}, loose - {id}))
            && (forall x :: x in s'.mapInfo <==> x in s.mapInfo && x != id)
            && (forall x :: x in s'.mapInfo ==> MovedOnly(s.mapInfo[x], s'.mapInfo[x]))
  {
    hide Inv, RandomOk, AddrMan.SwapRandom, AddrMan.Delete, MovedOnly;
    DeleteEffect(s, id);
    var s1 := AddrMan.SwapRandom(s, s.mapInfo[id].nRandomPos, |s.vRandom| - 1);
    SwapRandomOk(s, s.mapInfo[id].nRandomPos, |s.vRandom| - 1);
    RandomDropLast(s1.mapInfo, s1.vRandom);
    if sound { DeleteKeeps(h, s, id, {}, loose); }
  }

  lemma AllPlaced(h: Hashes, s: State, loose: set<int>)
    requires Inv(h, s, {}, loose) && forall x :: x in s.mapInfo ==> Placed(s.mapInfo[x])
    ensures Inv(h, s, {}, {})
  {
    hide RandomOk, AddrOk, IdsOk, TriedOk, NewOk, CountsOk, EntriesOk;
    forall x | x in s.mapInfo ensures s.mapInfo[x].fInTried || s.mapInfo[x].nRefCount >= 1 {
      assert s.mapInfo[x].nRefCount == |Buckets(h, s.nKey, s.vNew, s.mapInfo[x].service, x)|;
    }
    NoOrphansLeft(h, s, loose);
  }

  lemma RefsAre(h: Hashes, s: State, st: Stream, ids: seq<int>, nA: nat)
    requires WrittenFor(h, s, st, ids, nA) && nA <= |ids|
    ensures st.refs == AllRefs(s.vNew, ids[..nA], 0)
  {
    hide Written, Complete, AllRefs;
  }

  lemma HeaderFits(h: Hashes, s: State, st: Stream, ids: seq<int>, nA: nat)
    requires WrittenFor(h, s, st, ids, nA)
    ensures st.nVersion == 1 && st.nKeySize == 32 && st.nKey == s.nKey && st.nNew == s.nNew && st.nTried == s.nTried
    ensures FlipBit30(st.nUBuckets) == NEW_BUCKET_COUNT
    ensures st.nNew <= NEW_BUCKET_COUNT * BUCKET_SIZE && st.nTried <= TRIED_BUCKET_COUNT * BUCKET_SIZE
  {
    hide Inv, Complete, AllRefs, PersistAll;
    CountsFit(h, s);
  }

  lemma NothingRead(h: Hashes, s: State, ids: seq<int>, nA: nat, r: State)
    requires r.mapInfo == map[] && r.mapAddr == map[] && r.vRandom == []
    requires forall c :: At(r.vNew, c) == -1 && At(r.tried, c) == -1
    ensures Inv(h, r.(nNew := 0, nTried := 0, nIdCount := 0), {}, Upto(0)) && Loaded(s.mapInfo, ids, nA, 0, r.mapInfo)
    ensures RandomOk(r.mapInfo, r.vRandom)
  {
    InitialConsistent(h, r.nKey, r.vNew, r.tried);
    assert Upto(0) == {};
  }

  lemma CountIsA(h: Hashes, s: State, st: Stream, ids: seq<int>, nA: nat)
    requires WrittenFor(h, s, st, ids, nA)
    ensures st.nNew == nA <= |ids| && st.nTried == |ids| - nA && Written(h, s, ids, nA) && Complete(s, ids)
    ensures |st.infos| == |ids|
  {
    hide Consistent, Distinct, Complete;
  }

  lemma ReadNewNext(h: Hashes, s: State, st: Stream, ids: seq<int>, nA: nat, v: State, n: nat)
    requires WrittenFor(h, s, st, ids, nA) && n < st.nNew
    requires Inv(h, v, {}, Upto(n)) && v.nIdCount == n && Loaded(s.mapInfo, ids, nA, n, v.mapInfo)
    ensures n < |st.infos| && Loaded(s.mapInfo, ids, nA, n + 1, Created(v, Load(st.infos[n])).mapInfo)
  {
    hide Consistent, Distinct, Complete, Inv, Loaded, Created, Load, Persist;
    ReadNewStep(h, s, ids, nA, v, n);
  }

  lemma ReadTriedNext(h: Hashes, s: State, st: Stream, ids: seq<int>, nA: nat, v: State, m: nat)
    requires WrittenFor(h, s, st, ids, nA) && nA <= m < nA + st.nTried
    requires Inv(h, v, {}, Upto(nA)) && v.nIdCount == m && v.nKey == s.nKey && Loaded(s.mapInfo, ids, nA, m, v.mapInfo)
    ensures m < |st.infos| && m < |ids|
    ensures At(v.tried, TriedCell(h, v.nKey, Load(st.infos[m]).service)) == -1
    ensures Loaded(s.mapInfo, ids, nA, m + 1, TriedAdded(h, v, Load(st.infos[m])).mapInfo)
  {
    hide Consistent, Distinct, Complete, Inv, Loaded, TriedAdded, TriedCell;
    ReadTriedStep(h, s, ids, nA, v, m);
  }

  lemma CreatedIs(v: State, info: Info, r: State)
    requires r == v.(nIdCount := v.nIdCount + 1, mapInfo := v.mapInfo[v.nIdCount := info.(nRandomPos := |v.vRandom|)],
                     mapAddr := v.mapAddr[info.service.ip := v.nIdCount], vRandom := v.vRandom + [v.nIdCount],
                     nNew := v.nNew + 1)
    ensures r == Created(v, info)
  {}

  lemma TriedAddedIs(h: Hashes, v: State, info: Info, r: State)
    requires r == v.(nIdCount := v.nIdCount + 1,
                     mapInfo := v.mapInfo[v.nIdCount := info.(nRandomPos := |v.vRandom|, fInTried := true)],
                     mapAddr := v.mapAddr[info.service.ip := v.nIdCount], vRandom := v.vRandom + [v.nIdCount],
                     tried := v.tried[TriedCell(h, v.nKey, info.service) := v.nIdCount], nTried := v.nTried + 1)
    ensures r == TriedAdded(h, v, info)
  {
    hide TriedCell;
    assert TriedAdded(h, v, info).mapInfo == r.mapInfo;
  }

  lemma CellIsTried(h: Hashes, key: nat, svc: Service)
    ensures TriedCell(h, key, svc)
            == Cell(TriedBucket(h, key, svc), Position(h, key, false, TriedBucket(h, key, svc), svc))
  {}

  /** The counters are carried along by the reading of a tried entry. */
  lemma TriedAddedCounts(h: Hashes, v: State, info: Info, a: int, n: int)
    ensures TriedAdded(h, v.(nNew := a, nTried := n), info) == TriedAdded(h, v, info).(nNew := a, nTried := n + 1)
  {
    hide TriedCell;
  }

  lemma PutNewIs(r: State, id: int, c: Cell)
    requires id in r.mapInfo
    ensures PutNew(r, id, c) == r.(mapInfo := r.mapInfo[id := r.mapInfo[id].(nRefCount := r.mapInfo[id].nRefCount + 1)],
                                   vNew := r.vNew[c := id])
  {}

  lemma CellIs(h: Hashes, key: nat, svc: Service, b: nat)
    ensures NewCell(h, key, svc, b) == Cell(b, Position(h, key, true, b, svc))
  {}

  lemma RefsReadKey(h: Hashes, s: State, ids: seq<int>, nA: nat, r: State, b: nat, p: nat)
    requires RefsRead(h, s, ids, nA, r, b, p)
    ensures r.nKey == s.nKey
  {}

  lemma SplitRefs(v: Table, a: seq<int>, b: nat)
    requires b < NEW_BUCKET_COUNT
    ensures AllRefs(v, a, b) != [] && AllRefs(v, a, b)[0] == |BucketRefs(v, a, b, 0)|
    ensures AllRefs(v, a, b)[1..] == BucketRefs(v, a, b, 0) + AllRefs(v, a, b + 1)
  {
    hide BucketRefs;
  }

  lemma AllRefsEnd(v: Table, a: seq<int>)
    ensures AllRefs(v, a, NEW_BUCKET_COUNT) == []
  {}

  lemma PersistNone(mi: Entries)
    ensures AllKnown(mi, []) && PersistAll(mi, []) == []
  {}

  lemma PersistOneMore(mi: Entries, ids: seq<int>, n: nat)
    requires n < |ids| && ids[n] in mi && AllKnown(mi, ids[..n])
    ensures AllKnown(mi, ids[..n + 1])
            && PersistAll(mi, ids[..n + 1]) == PersistAll(mi, ids[..n]) + [Persist(mi[ids[n]])]
  {
    assert ids[..n + 1] == ids[..n] + [ids[n]];
  }

  lemma TakeOneMore(a: seq<int>, n: nat)
    requires n < |a|
    ensures forall x :: x in a[..n + 1] <==> x in a[..n] || x == a[n]
  {
    assert a[..n + 1] == a[..n] + [a[n]];
  }

  lemma FirstOccurrence(a: seq<int>, n: nat)
    requires Distinct(a) && n < |a|
    ensures a[n] !in a[..n]
  {}

  lemma NotInPrefix(a: seq<int>, n: nat, id: int)
    requires id !in a && n <= |a|
    ensures id !in a[..n]
  {}

  lemma EmptyOrder(mi: Entries)
    ensures NewOrder(mi, {}) == [] && TriedOrder(mi, {}) == []
  {}

  lemma NewOrderStep(mi: Entries, rest: set<int>, id: int)
    requires rest <= mi.Keys && id in rest && id == MinOf(rest)
    ensures var o, o' := NewOrder(mi, rest), NewOrder(mi, rest - {id});
            if mi[id].nRefCount != 0 then o != [] && o[0] == id && o[1..] == o' else o == o'
  {
    var o' := NewOrder(mi, rest - {id});
    assert ([id] + o')[1..] == o' && [] + o' == o';
  }

  lemma TriedOrderStep(mi: Entries, rest: set<int>, id: int)
    requires rest <= mi.Keys && id in rest && id == MinOf(rest)
    ensures var o, o' := TriedOrder(mi, rest), TriedOrder(mi, rest - {id});
            if mi[id].fInTried then o != [] && o[0] == id && o[1..] == o' else o == o'
  {
    var o' := TriedOrder(mi, rest - {id});
    assert ([id] + o')[1..] == o' && [] + o' == o';
  }

  lemma BucketRefsStep(v: Table, a: seq<int>, b: nat, i: nat, refs: seq<int>)
    requires i < BUCKET_SIZE
    ensures refs + BucketRefs(v, a, b, i)
            == (if At(v, Cell(b, i)) != -1 then refs + [IndexOf(a, At(v, Cell(b, i)))] else refs)
              + BucketRefs(v, a, b, i + 1)
  {}

  lemma AllRefsStep(v: Table, a: seq<int>, b: nat, refs: seq<int>, out: seq<int>)
    requires b < NEW_BUCKET_COUNT && out == [|BucketRefs(v, a, b, 0)|] + BucketRefs(v, a, b, 0)
    ensures refs + AllRefs(v, a, b) == (refs + out) + AllRefs(v, a, b + 1)
  {
    hide BucketRefs;
  }

  lemma CellsInOrder(h: Hashes, s: State)
    requires Consistent(h, s)
    ensures forall c :: At(s.vNew, c) != -1 ==> At(s.vNew, c) in NewOrder(s.mapInfo, s.mapInfo.Keys)
  {
    hide Inv, NewOrder;
    NewOrderIsNewIds(h, s);
    forall c | At(s.vNew, c) != -1 ensures At(s.vNew, c) in NewOrder(s.mapInfo, s.mapInfo.Keys) {
      FilledNewCell(h, s, c, {}, {});
      assert At(s.vNew, c) in NewIds(s.mapInfo);
    }
  }

  /** The bucket looked at on turn `n` of a search that starts at `nRnd`. */
  function Turn(n: nat, nRnd: nat): (b: nat)
    ensures b < NEW_BUCKET_COUNT
  {
    (n + nRnd) % NEW_BUCKET_COUNT
  }

  lemma EveryTurn(b: nat, nRnd: nat) returns (k: nat)
    requires b < NEW_BUCKET_COUNT && nRnd < NEW_BUCKET_COUNT
    ensures k < NEW_BUCKET_COUNT && Turn(k, nRnd) == b
  {
    k := if b >= nRnd then b - nRnd else b + NEW_BUCKET_COUNT - nRnd;
  }

  lemma CreatedEntry(s: State, info: Info)
    ensures var r := Created(s, info);
            && s.nIdCount in r.mapInfo && r.nKey == s.nKey
            && r.mapInfo[s.nIdCount] == info.(nRandomPos := |s.vRandom|)
  {}

  /** The addresses handed out are those of the ids taken. */
  ghost predicate Copied(mi: Entries, ids: seq<int>, vAddr: seq<Address>) {
    |ids| == |vAddr| && forall i :: 0 <= i < |ids| ==> ids[i] in mi && vAddr[i] == AddressOf(mi[ids[i]])
  }

  lemma CopiedMoved(mi: Entries, mi': Entries, ids: seq<int>, vAddr: seq<Address>)
    requires Copied(mi, ids, vAddr) && AllMovedOnly(mi, mi')
    ensures Copied(mi', ids, vAddr)
  {
    forall i | 0 <= i < |ids| ensures ids[i] in mi' && vAddr[i] == AddressOf(mi'[ids[i]]) {
      var x: int := ids[i];
      assert x in mi && x in mi' && MovedOnly(mi[x], mi'[x]);
    }
  }

  lemma CopiedOneMore(mi: Entries, ids: seq<int>, vAddr: seq<Address>, id: int)
    requires Copied(mi, ids, vAddr) && id in mi
    ensures Copied(mi, ids + [id], vAddr + [AddressOf(mi[id])])
  {}

  lemma CopiedNone(mi: Entries)
    ensures Copied(mi, [], [])
  {}

  lemma HandedOutDistinct(h: Hashes, s: State, s': State, ids: seq<int>, vAddr: seq<Address>, max: nat)
    requires Inv(h, s', {}, {}) && HandedOut(s, s', ids, max) && Copied(s'.mapInfo, ids, vAddr)
    ensures |vAddr| == |ids| <= max
    ensures forall i :: 0 <= i < |ids| ==> ids[i] in s'.mapInfo && vAddr[i] == AddressOf(s'.mapInfo[ids[i]])
    ensures forall i, j :: 0 <= i < j < |vAddr| ==> vAddr[i].service.ip != vAddr[j].service.ip
  {
    DistinctAddresses(h, s', ids, vAddr);
  }

  lemma DistinctAddresses(h: Hashes, s: State, ids: seq<int>, vAddr: seq<Address>)
    requires Inv(h, s, {}, {}) && Copied(s.mapInfo, ids, vAddr)
    requires forall i, j :: 0 <= i < j < |ids| ==> ids[i] != ids[j]
    ensures forall i, j :: 0 <= i < j < |vAddr| ==> vAddr[i].service.ip != vAddr[j].service.ip
  {
    hide RandomOk, IdsOk, TriedOk, NewOk, RefsOk, CountsOk, EntriesOk;
    forall i, j | 0 <= i < j < |vAddr| ensures vAddr[i].service.ip != vAddr[j].service.ip {
      var x: int, y: int := ids[i], ids[j];
      assert x in s.mapInfo && y in s.mapInfo && x != y;
    }
  }

  /** The references of an id in the buckets below `n`. */
  ghost function RefsBelow(h: Hashes, key: nat, t: Table, svc: Service, id: int, n: nat): set<nat> {
    set b: nat | b < n && b < NEW_BUCKET_COUNT && At(t, NewCell(h, key, svc, b)) == id
  }

  lemma RefsBelowAll(h: Hashes, key: nat, t: Table, svc: Service, id: int)
    ensures RefsBelow(h, key, t, svc, id, NEW_BUCKET_COUNT) == Buckets(h, key, t, svc, id)
  {}

  lemma ClearedNone(h: Hashes, key: nat, t: Table, svc: Service, id: int)
    ensures Cleared(h, key, t, svc, id, 0) == t && RefsBelow(h, key, t, svc, id, 0) == {}
  {}

  lemma ClearedOneMore(h: Hashes, key: nat, t: Table, svc: Service, id: int, n: nat)
    requires n < NEW_BUCKET_COUNT && id != -1
    ensures var c, now := NewCell(h, key, svc, n), Cleared(h, key, t, svc, id, n);
            && At(now, c) == At(t, c)
            && Cleared(h, key, t, svc, id, n + 1) == (if At(t, c) == id then now[c := -1] else now)
            && |RefsBelow(h, key, t, svc, id, n + 1)|
            == |RefsBelow(h, key, t, svc, id, n)| + (if At(t, c) == id then 1 else 0)
  {
    RefsOneMore(h, key, t, svc, id, n);
    hide RefsBelow;
    var c, now, next := NewCell(h, key, svc, n), Cleared(h, key, t, svc, id, n), Cleared(h, key, t, svc, id, n + 1);
    var want := if At(t, c) == id then now[c := -1] else now;
    forall d | d in next ensures d in want && next[d] == want[d] {
      assert d in t && d in now;
    }
    forall d | d in want ensures d in next {
      assert d in now || d == c;
    }
  }

  lemma RefsOneMore(h: Hashes, key: nat, t: Table, svc: Service, id: int, n: nat)
    requires n < NEW_BUCKET_COUNT
    ensures |RefsBelow(h, key, t, svc, id, n + 1)|
            == |RefsBelow(h, key, t, svc, id, n)| + (if At(t, NewCell(h, key, svc, n)) == id then 1 else 0)
  {
    hide NewCell, At;
    var before, after := RefsBelow(h, key, t, svc, id, n), RefsBelow(h, key, t, svc, id, n + 1);
    assert n !in before;
    assert after == if At(t, NewCell(h, key, svc, n)) == id then before + {n} else before;
  }

  lemma ClearedCollisions(h: Hashes, s: State)
    requires s.mapInfo == map[] && s.nIdCount == 0
    ensures CollisionsOk(h, s) <==> s.collisions == {}
  {
    if s.collisions != {} {
      var id := SomeElement(s.collisions);
    }
  }
}
