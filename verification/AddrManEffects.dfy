/** What Add_ and Good_ do to the addresses, entry by entry and cell by cell. */
module AddrManEffects {
  import opened AddrMan
  import opened AddrManOps
  import opened AddrManRuns

  /** Entry `id` has taken cell c of the new table: whatever was there has one reference less, and is gone if that was
      its last; no other cell and no other entry has changed. */
  ghost predicate TookCell(s: State, r: State, id: int, info: Info, c: Cell) {
    && id in r.mapInfo && MovedOnly(info, r.mapInfo[id])
    && At(r.vNew, c) == id && (forall d :: d != c ==> At(r.vNew, d) == At(s.vNew, d))
    && r.tried == s.tried && r.collisions == s.collisions
    && (forall x :: x in r.mapInfo && x != id ==>
          x in s.mapInfo && MovedOnly(LessOneRef(s.mapInfo[x], x == At(s.vNew, c)), r.mapInfo[x]))
    && (forall x :: x in s.mapInfo && x !in r.mapInfo ==> x == At(s.vNew, c) && s.mapInfo[x].nRefCount == 1)
  }

  /** A cell that a newcomer may take: empty, or held by an entry that is terrible or has other references. */
  ghost predicate Yields(s: State, c: Cell, now: int) {
    var x := At(s.vNew, c);
    x == -1 || (x in s.mapInfo && (IsTerrible(s.mapInfo[x], now) || s.mapInfo[x].nRefCount > 1))
  }

  /** Nothing has changed but positions in vRandom. */
  ghost predicate OnlyMoved(s: State, r: State) {
    AllMovedOnly(s.mapInfo, r.mapInfo) && r.vNew == s.vNew && r.tried == s.tried && r.collisions == s.collisions
  }

  lemma PlaceEffect(h: Hashes, s: State, id: int, c: Cell, now: int)
    requires Inv(h, s, {}, {id}) && id in s.mapInfo && At(s.vNew, c) != id
    requires At(s.vNew, c) == -1 || (At(s.vNew, c) in s.mapInfo && MayOverwrite(s, id, c, now))
    ensures TookCell(s, PlaceNew(h, s, id, c, now), id, s.mapInfo[id].(nRefCount := s.mapInfo[id].nRefCount + 1), c)
  {
    hide RandomOk, AddrOk, IdsOk, TriedOk, NewOk, RefsOk, CountsOk, EntriesOk, ClearNew, IsTerrible;
    FilledNewCell(h, s, c, {}, {id});
    ClearNewEffect(s, c);
    var s1 := ClearNew(s, c);
    assert id in s1.mapInfo;
    AtWrite(s1.vNew, c, id);
    var r := PlaceNew(h, s, id, c, now);
    assert r == PutNew(s1, id, c);
    forall x | x in r.mapInfo && x != id
      ensures x in s.mapInfo && MovedOnly(LessOneRef(s.mapInfo[x], x == At(s.vNew, c)), r.mapInfo[x])
    {
      assert x in s1.mapInfo && r.mapInfo[x] == s1.mapInfo[x];
    }
  }

  /** An unknown routable address gets a new entry in the cell of its source if that cell yields, and is not kept
      otherwise. */
  lemma AddNewEffect(h: Hashes, s: State, addr: Address, source: IP, nTimePenalty: int, now: AddTimes, lucky: bool)
    requires Inv(h, s, {}, {}) && h.isRoutable(addr.service.ip) && !Known(s, addr.service.ip)
    ensures var r := Add(h, s, addr, source, nTimePenalty, now, lucky);
            var c := SourceCell(h, s.nKey, addr.service, source);
            var info := NewInfo(addr, source, Penalty(addr, source, nTimePenalty)).(nRefCount := 1);
            && r.nIdCount == s.nIdCount + 1
            && if Yields(s, c, now.cell) then TookCell(s, r, s.nIdCount, info, c) && Known(r, addr.service.ip)
               else OnlyMoved(s, r) && !Known(r, addr.service.ip)
  {
    hide RandomOk, AddrOk, IdsOk, TriedOk, NewOk, RefsOk, CountsOk, EntriesOk, IsTerrible, PlaceNew, SourceCell,
         TookCell, OnlyMoved, CollisionsOk;
    UnknownHasNoId(h, s, addr.service.ip);
    var info := NewInfo(addr, source, Penalty(addr, source, nTimePenalty));
    CreatedKeeps(h, s, info, {});
    assert {} + {s.nIdCount} == {s.nIdCount};
    var s1, id := Created(s, info), s.nIdCount;
    var c := SourceCell(h, s.nKey, addr.service, source);
    var r := Add(h, s, addr, source, nTimePenalty, now, lucky);
    assert r == PlaceNew(h, s1, id, c, now.cell);
    AddKeepsIndexes(h, s, addr, source, nTimePenalty, now, lucky);
    PlaceNewKeeps(h, s1, id, source, now.cell);
    FilledNewCell(h, s, c, {}, {});
    FilledNewCell(h, s1, c, {}, {id});
    if Yields(s, c, now.cell) {
      PlaceEffect(h, s1, id, c, now.cell);
      SinceCreated(s, info, r, c);
      assert id in r.mapInfo && r.mapInfo[id].service == addr.service
             by { TookIs(s1, r, id, s1.mapInfo[id].(nRefCount := 1), c); }
      EntryKnown(h, r, id);
    } else {
      Forgotten(h, s, info, c, now.cell);
      OnlyMovedUnknown(h, s, r, addr.service.ip);
    }
  }

  lemma TookIs(s: State, r: State, id: int, info: Info, c: Cell)
    requires TookCell(s, r, id, info, c)
    ensures id in r.mapInfo && MovedOnly(info, r.mapInfo[id])
  {}

  lemma EntryKnown(h: Hashes, r: State, id: int)
    requires Inv(h, r, {}, {}) && id in r.mapInfo
    ensures Known(r, r.mapInfo[id].service.ip)
  {
    hide RandomOk, IdsOk, TriedOk, NewOk, RefsOk, CountsOk, EntriesOk, CollisionsOk;
  }

  lemma OnlyMovedUnknown(h: Hashes, s: State, r: State, ip: IP)
    requires Inv(h, s, {}, {}) && Inv(h, r, {}, {}) && OnlyMoved(s, r)
    ensures Known(r, ip) ==> Known(s, ip)
  {
    hide RandomOk, IdsOk, TriedOk, NewOk, RefsOk, CountsOk, EntriesOk, CollisionsOk;
    if Known(r, ip) {
      var id: int := r.mapAddr[ip];
      assert id in r.mapInfo && r.mapInfo[id].service.ip == ip;
      assert id in s.mapInfo && MovedOnly(s.mapInfo[id], r.mapInfo[id]);
      EntryKnown(h, s, id);
    }
  }

  /** From before the entry was created. */
  lemma SinceCreated(s: State, info: Info, r: State, c: Cell)
    requires s.nIdCount !in s.mapInfo && info.nRefCount == 0
    requires var s1 := Created(s, info); TookCell(s1, r, s.nIdCount, s1.mapInfo[s.nIdCount].(nRefCount := 1), c)
    ensures TookCell(s, r, s.nIdCount, info.(nRefCount := 1), c)
  {
    var s1, id := Created(s, info), s.nIdCount;
    forall x | x in r.mapInfo && x != id
      ensures x in s.mapInfo && MovedOnly(LessOneRef(s.mapInfo[x], x == At(s.vNew, c)), r.mapInfo[x])
    {
      assert x in s1.mapInfo && s1.mapInfo[x] == s.mapInfo[x];
    }
    forall x | x in s.mapInfo && x !in r.mapInfo ensures x == At(s.vNew, c) && s.mapInfo[x].nRefCount == 1 {
      assert x in s1.mapInfo && s1.mapInfo[x] == s.mapInfo[x];
    }
  }

  /** A newcomer that finds no cell is deleted again. */
  lemma Forgotten(h: Hashes, s: State, info: Info, c: Cell, now: int)
    requires s.nIdCount !in s.mapInfo && info.nRefCount == 0 && Inv(h, Created(s, info), {}, {s.nIdCount})
             && Inv(h, s, {}, {})
    requires !Yields(s, c, now)
    ensures s.nIdCount in Created(s, info).mapInfo && OnlyMoved(s, PlaceNew(h, Created(s, info), s.nIdCount, c, now))
  {
    hide RandomOk, AddrOk, IdsOk, TriedOk, NewOk, RefsOk, CountsOk, EntriesOk, Delete, IsTerrible;
    var s1, id := Created(s, info), s.nIdCount;
    FilledNewCell(h, s1, c, {}, {id});
    FilledNewCell(h, s, c, {}, {});
    DeleteEffect(s1, id);
    var r := Delete(s1, id);
    assert PlaceNew(h, s1, id, c, now) == r;
    forall x ensures x in s.mapInfo <==> x in r.mapInfo { assert x in s1.mapInfo <==> x in s.mapInfo || x == id; }
    forall x | x in s.mapInfo ensures MovedOnly(s.mapInfo[x], r.mapInfo[x]) { assert s1.mapInfo[x] == s.mapInfo[x]; }
  }

  /** A known address is refreshed; it gets one more reference exactly if it brought newer information, may grow, is not
      in the cell yet, and the cell yields to it. */
  lemma AddKnownEffect(h: Hashes, s: State, addr: Address, source: IP, nTimePenalty: int, now: AddTimes, lucky: bool)
    requires Consistent(h, s) && h.isRoutable(addr.service.ip) && Known(s, addr.service.ip)
    ensures var id := s.mapAddr[addr.service.ip];
            var info := Refreshed(s.mapInfo[id], addr, Penalty(addr, source, nTimePenalty), now.online);
            var r, c := Add(h, s, addr, source, nTimePenalty, now, lucky), SourceCell(h, s.nKey, info.service, source);
            var x := At(s.vNew, c);
            if MayGrow(info, addr, lucky) && x != id
              && (x == -1 || (x in s.mapInfo && IsTerrible(s.mapInfo[x], now.cell)))
            then TookCell(s, r, id, info.(nRefCount := info.nRefCount + 1), c)
            else r == Touch(s, id, info)
  {
    hide RandomOk, AddrOk, IdsOk, TriedOk, NewOk, RefsOk, CountsOk, EntriesOk, IsTerrible, SourceCell, TookCell,
         CollisionsOk, Refreshed;
    var penalty := Penalty(addr, source, nTimePenalty);
    var id := s.mapAddr[addr.service.ip];
    var info := Refreshed(s.mapInfo[id], addr, penalty, now.online);
    RefreshedSame(s.mapInfo[id], addr, penalty, now.online);
    RefreshKeeps(h, s, id, addr, penalty, now.online);
    var s1 := Touch(s, id, info);
    WeakenOrphans(h, s1, id);
    var c := SourceCell(h, s.nKey, info.service, source);
    FilledNewCell(h, s, c, {}, {});
    FilledNewCell(h, s1, c, {}, {id});
    RefCountOf(h, s, id);
    if MayGrow(info, addr, lucky) && At(s.vNew, c) != id {
      if At(s.vNew, c) == -1 || IsTerrible(s.mapInfo[At(s.vNew, c)], now.cell) {
        PlaceEffect(h, s1, id, c, now.cell);
        SinceTouched(s, id, info, PlaceNew(h, s1, id, c, now.cell), c);
      }
    }
  }

  lemma RefreshedSame(info: Info, addr: Address, penalty: int, now: int)
    ensures var r := Refreshed(info, addr, penalty, now);
            r.service == info.service && r.nRefCount == info.nRefCount && r.fInTried == info.fInTried
  {}

  lemma SinceTouched(s: State, id: int, info: Info, r: State, c: Cell)
    requires id in s.mapInfo && At(s.vNew, c) != id
    requires var s1 := Touch(s, id, info); TookCell(s1, r, id, info.(nRefCount := info.nRefCount + 1), c)
    ensures TookCell(s, r, id, info.(nRefCount := info.nRefCount + 1), c)
  {
    var s1 := Touch(s, id, info);
    forall x | x in r.mapInfo && x != id
      ensures x in s.mapInfo && MovedOnly(LessOneRef(s.mapInfo[x], x == At(s.vNew, c)), r.mapInfo[x])
    {
      assert x in s1.mapInfo && s1.mapInfo[x] == s.mapInfo[x];
    }
    forall x | x in s.mapInfo && x !in r.mapInfo ensures x == At(s.vNew, c) && s.mapInfo[x].nRefCount == 1 {
      assert x in s1.mapInfo && (x != id ==> s1.mapInfo[x] == s.mapInfo[x]);
    }
  }

  /** The entry as Good_ leaves it before any move. */
  ghost function Succeeded(info: Info, nTime: int): Info {
    info.(nLastSuccess := nTime, nLastTry := nTime, nAttempts := 0)
  }

  /** Good_ on a known service notes the success.  An untried entry then moves to the tried table, unless its cell is
      taken and must be tested first: then the collision is noted, as long as there are fewer than ten. */
  lemma GoodEffect(h: Hashes, s: State, svc: Service, testBeforeEvict: bool, nTime: int)
    requires Consistent(h, s) && nTime > 0 && Found(s, svc)
    ensures var id := s.mapAddr[svc.ip];
            var s1 := Touch(s.(nLastGood := nTime), id, Succeeded(s.mapInfo[id], nTime));
            var r := Good(h, s, svc, testBeforeEvict, nTime);
            && r.nLastGood == nTime
            && if s.mapInfo[id].fInTried then r == s1
               else if testBeforeEvict && At(s.tried, TriedCell(h, s.nKey, svc)) != -1
                 then
                   r == s1.(collisions := s.collisions + if |s.collisions| < SET_TRIED_COLLISION_SIZE then {id} else {})
               else MadeTried(h, s1, r, id)
  {
    hide RandomOk, AddrOk, IdsOk, TriedOk, NewOk, RefsOk, CountsOk, EntriesOk, CollisionsOk, MakeTried, MadeTried,
         TriedCell, Buckets;
    GoodKeeps(h, s, svc, testBeforeEvict, nTime);
    MarkedGoodKeeps(h, s, svc, nTime);
    var id := s.mapAddr[svc.ip];
    var s1 := MarkedGood(s, svc, nTime);
    if !s.mapInfo[id].fInTried {
      MakeTriedEffect(h, s1, id);
      MakeTriedLastGood(h, s1, id);
      assert s.collisions + {} == s.collisions;
    }
  }

  lemma MakeTriedLastGood(h: Hashes, s: State, id: int)
    requires Inv(h, s, {}, {}) && id in s.mapInfo && !s.mapInfo[id].fInTried
    ensures MakeTried(h, s, id).nLastGood == s.nLastGood
  {
    hide RandomOk, AddrOk, IdsOk, TriedOk, NewOk, RefsOk, CountsOk, EntriesOk, TriedCell, Buckets, Cleared;
  }

  // ---------------------------------------------------------------------------------------------
  // GetAddr_
  // ---------------------------------------------------------------------------------------------

  /** The ids from position n of the list on whose entries are not terrible at the clock reading of their position. */
  ghost function Picked(mi: Entries, vr: seq<int>, n: nat, now: nat -> int): seq<int>
    decreases |vr| - n
  {
    if n >= |vr| then []
    else (if vr[n] in mi && !IsTerrible(mi[vr[n]], now(n)) then [vr[n]] else []) + Picked(mi, vr, n + 1, now)
  }

  ghost function AtMost(ids: seq<int>, k: int): seq<int> { if k <= 0 then [] else if k < |ids| then ids[..k] else ids }

  lemma MovedTerrible(a: Info, b: Info, t: int)
    requires MovedOnly(a, b)
    ensures IsTerrible(a, t) == IsTerrible(b, t)
  {}

  lemma {:induction false} PickedMoved(mi: Entries, mi': Entries, vr: seq<int>, n: nat, now: nat -> int)
    requires AllMovedOnly(mi, mi')
    ensures Picked(mi, vr, n, now) == Picked(mi', vr, n, now)
    decreases |vr| - n
  {
    hide IsTerrible, MovedOnly;
    if n < |vr| {
      var id: int := vr[n];
      if id in mi { MovedTerrible(mi[id], mi'[id], now(n)); }
      PickedMoved(mi, mi', vr, n + 1, now);
    }
  }

  lemma {:induction false} PickedIn(mi: Entries, vr: seq<int>, n: nat, now: nat -> int, id: int)
    requires RandomOk(mi, vr) && id in mi && n <= |vr|
    ensures id in Picked(mi, vr, n, now) <==> mi[id].nRandomPos >= n && !IsTerrible(mi[id], now(mi[id].nRandomPos))
    decreases |vr| - n
  {
    hide IsTerrible, Picked, RandomOk;
    PositionIn(mi, vr, id);
    if n == |vr| {
      PickedNone(mi, vr, now);
    } else {
      PickedIn(mi, vr, n + 1, now, id);
      PickedNext(mi, vr, n, now);
      ConsIn(vr[n], Picked(mi, vr, n + 1, now), id);
      PositionIs(mi, vr, n, id);
    }
  }

  /** GetAddr_ from position n on, exactly: a position's turn comes with its own clock reading, vRandom ends up with
      the id looked at then, and handed out are, in that order and up to the limit, those that are not terrible at
      their turn. */
  lemma {:induction false} GetAddrCovers(s: State, n: nat, taken: seq<int>, max: nat, draw: nat -> nat, now: nat -> int)
    requires RandomOk(s.mapInfo, s.vRandom) && n <= |s.vRandom|
    ensures var (s', r) := GetAddr(s, n, taken, max, draw, now);
            && |s'.vRandom| == |s.vRandom| && s'.vRandom[..n] == s.vRandom[..n]
            && r == taken + AtMost(Picked(s.mapInfo, s'.vRandom, n, now), max - |taken|)
    decreases |s.vRandom| - n
  {
    hide RandomOk, IsTerrible, SwapRandom, GetAddr, AllMovedOnly, Picked, AtMost;
    if n == |s.vRandom| || |taken| >= max {
      GetAddrDone(s, n, taken, max, draw, now);
      PickedEnd(s.mapInfo, s.vRandom, n, now, taken, max);
    } else {
      var q := draw(n) % (|s.vRandom| - n) + n;
      GetAddrStep(s, n, taken, max, draw, now);
      SwapRandomOk(s, n, q);
      SwapFront(s, n, q);
      var s1 := SwapRandom(s, n, q);
      var id := s1.vRandom[n];
      var taken' := if IsTerrible(s1.mapInfo[id], now(n)) then taken else taken + [id];
      GetAddrCovers(s1, n + 1, taken', max, draw, now);
      var (s', r) := GetAddr(s1, n + 1, taken', max, draw, now);
      SameFront(s'.vRandom, s1.vRandom, n);
      PickedStep(s1.mapInfo, s'.vRandom, n, now, taken, max);
      PickedMoved(s.mapInfo, s1.mapInfo, s'.vRandom, n, now);
    }
  }

  lemma PickedEnd(mi: Entries, vr: seq<int>, n: nat, now: nat -> int, taken: seq<int>, max: nat)
    requires n == |vr| || |taken| >= max
    ensures taken + AtMost(Picked(mi, vr, n, now), max - |taken|) == taken
  {
    hide IsTerrible;
  }

  /** One turn: the id is taken, or the limit stays as it was. */
  lemma PickedStep(mi: Entries, vr: seq<int>, n: nat, now: nat -> int, taken: seq<int>, max: nat)
    requires n < |vr| && vr[n] in mi && |taken| < max
    ensures var taken' := if IsTerrible(mi[vr[n]], now(n)) then taken else taken + [vr[n]];
            taken' + AtMost(Picked(mi, vr, n + 1, now), max - |taken'|)
              == taken + AtMost(Picked(mi, vr, n, now), max - |taken|)
  {
    hide IsTerrible, Picked, AtMost;
    var rest := Picked(mi, vr, n + 1, now);
    PickedNext(mi, vr, n, now);
    AtMostCons(taken, vr[n], rest, max - |taken|);
  }

  lemma PickedNext(mi: Entries, vr: seq<int>, n: nat, now: nat -> int)
    requires n < |vr|
    ensures Picked(mi, vr, n, now)
            == if vr[n] in mi && !IsTerrible(mi[vr[n]], now(n)) then [vr[n]] + Picked(mi, vr, n + 1, now)
               else Picked(mi, vr, n + 1, now)
  {
    hide IsTerrible;
    assert [] + Picked(mi, vr, n + 1, now) == Picked(mi, vr, n + 1, now);
  }

  lemma AtMostCons(taken: seq<int>, x: int, rest: seq<int>, k: int)
    requires k > 0
    ensures taken + AtMost([x] + rest, k) == (taken + [x]) + AtMost(rest, k - 1)
  {
    assert AtMost([x] + rest, k) == [x] + AtMost(rest, k - 1);
    assert taken + ([x] + AtMost(rest, k - 1)) == (taken + [x]) + AtMost(rest, k - 1);
  }

  lemma SameFront(a: seq<int>, b: seq<int>, n: nat)
    requires n < |a| && n < |b| && a[..n + 1] == b[..n + 1]
    ensures a[n] == b[n] && a[..n] == b[..n]
  {
    assert a[n] == a[..n + 1][n];
    assert a[..n] == a[..n + 1][..n] && b[..n] == b[..n + 1][..n];
  }

  lemma SwapFront(s: State, n: nat, q: nat)
    requires RandomOk(s.mapInfo, s.vRandom) && n <= q < |s.vRandom|
    ensures var s1 := SwapRandom(s, n, q); |s1.vRandom| == |s.vRandom| && s1.vRandom[..n] == s.vRandom[..n]
  {}

  /** GetAddr_ hands out no address that is terrible when its turn comes and, unless the limit is reached, every other
      one.  The turn of an entry is its final position in vRandom. */
  lemma GetAddrComplete(h: Hashes, s: State, draw: nat -> nat, now: nat -> int, id: int)
    requires Consistent(h, s) && id in s.mapInfo
    ensures var max := MaxNodes(|s.vRandom|); var (s', r) := GetAddr(s, 0, [], max, draw, now);
            && id in s'.mapInfo && 0 <= s'.mapInfo[id].nRandomPos
            && var fair := !IsTerrible(s.mapInfo[id], now(s'.mapInfo[id].nRandomPos));
               (id in r ==> fair) && (|r| < max ==> (id in r <==> fair))
  {
    hide RandomOk, AddrOk, IdsOk, TriedOk, NewOk, RefsOk, CountsOk, EntriesOk, CollisionsOk, GetAddr, IsTerrible,
         MovedOnly, Picked;
    var max := MaxNodes(|s.vRandom|);
    GetAddrCovers(s, 0, [], max, draw, now);
    GetAddrConsistent(h, s, draw, now);
    var (s', r) := GetAddr(s, 0, [], max, draw, now);
    PositionIn(s'.mapInfo, s'.vRandom, id);
    PickedMoved(s.mapInfo, s'.mapInfo, s'.vRandom, 0, now);
    PickedIn(s'.mapInfo, s'.vRandom, 0, now, id);
    MovedTerrible(s.mapInfo[id], s'.mapInfo[id], now(s'.mapInfo[id].nRandomPos));
  }

  lemma PositionIn(mi: Entries, vr: seq<int>, id: int)
    requires RandomOk(mi, vr) && id in mi
    ensures 0 <= mi[id].nRandomPos < |vr|
  {}

  lemma PositionIs(mi: Entries, vr: seq<int>, n: nat, id: int)
    requires RandomOk(mi, vr) && id in mi && n < |vr|
    ensures vr[n] == id <==> mi[id].nRandomPos == n
  {}

  lemma PickedNone(mi: Entries, vr: seq<int>, now: nat -> int)
    ensures Picked(mi, vr, |vr|, now) == []
  {}

  lemma ConsIn(x: int, rest: seq<int>, id: int)
    ensures id in [x] + rest <==> id == x || id in rest
  {
    if id in rest {
      var i :| 0 <= i < |rest| && rest[i] == id;
      assert ([x] + rest)[i + 1] == id;
    }
    if id == x { assert ([x] + rest)[0] == id; }
  }
}
