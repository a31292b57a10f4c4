/** Whole runs of the address manager, and what its two moving operations do to the addresses. */
module AddrManRuns {
  import opened AddrMan
  import opened AddrManOps
  import opened Sets

  // ---------------------------------------------------------------------------------------------
  // Operations that move nothing between the tables
  // ---------------------------------------------------------------------------------------------

  ghost function Attempt(s: State, svc: Service, fCountFailure: bool, nTime: int): State {
    if !Found(s, svc) then s
    else
      var id := s.mapAddr[svc.ip];
      var info := s.mapInfo[id].(nLastTry := nTime);
      Touch(s, id, if fCountFailure && info.nLastCountAttempt < s.nLastGood
                   then info.(nLastCountAttempt := nTime, nAttempts := info.nAttempts + 1) else info)
  }

  ghost function Connected(s: State, svc: Service, nTime: int): State {
    if !Found(s, svc) then s
    else
      var id := s.mapAddr[svc.ip];
      Touch(s, id, if nTime - s.mapInfo[id].nTime > 20 * 60 then s.mapInfo[id].(nTime := nTime) else s.mapInfo[id])
  }

  ghost function SetServices(s: State, svc: Service, nServices: ServiceFlags): State {
    if !Found(s, svc) then s
    else Touch(s, s.mapAddr[svc.ip], s.mapInfo[s.mapAddr[svc.ip]].(nServices := nServices))
  }

  lemma TouchConsistent(h: Hashes, s: State, id: int, info: Info)
    requires Consistent(h, s) && id in s.mapInfo
    requires var i := s.mapInfo[id];
             && info.service == i.service && info.nRefCount == i.nRefCount && info.fInTried == i.fInTried
             && info.nRandomPos == i.nRandomPos && info.nLastSuccess == i.nLastSuccess
    requires info.nLastTry >= 0 || info.nLastTry == s.mapInfo[id].nLastTry
    ensures Consistent(h, Touch(s, id, info)) && Evolves(s, Touch(s, id, info))
  {
    hide RandomOk, AddrOk, IdsOk, TriedOk, NewOk, RefsOk, CountsOk, EntriesOk;
    RefCountOf(h, s, id);
    TouchKeeps(h, s, id, info);
    CollisionsEvolve(h, s, Touch(s, id, info));
  }

  // ---------------------------------------------------------------------------------------------
  // GetAddr
  // ---------------------------------------------------------------------------------------------

  /** How many addresses GetAddr_ hands out at most. */
  function MaxNodes(size: nat): nat {
    var n := GETADDR_MAX_PCT * size / 100;
    if n > GETADDR_MAX then GETADDR_MAX else n
  }

  /** GetAddr_ from position `n` on: the new state and the ids taken.  `draw` and `now` are the random draws
      and the clock readings. */
  ghost function GetAddr(s: State, n: nat, taken: seq<int>, max: nat, draw: nat -> nat, now: nat -> int)
    : (r: (State, seq<int>))
    requires RandomOk(s.mapInfo, s.vRandom) && n <= |s.vRandom|
    decreases |s.vRandom| - n
  {
    if n == |s.vRandom| || |taken| >= max then (s, taken)
    else
      var q := n + draw(n) % (|s.vRandom| - n);
      SwapRandomOk(s, n, q);
      var s1 := SwapRandom(s, n, q);
      var id := s1.vRandom[n];
      GetAddr(s1, n + 1, if IsTerrible(s1.mapInfo[id], now(n)) then taken else taken + [id], max, draw, now)
  }

  lemma GetAddrStep(s: State, n: nat, ids: seq<int>, max: nat, draw: nat -> nat, now: nat -> int)
    requires RandomOk(s.mapInfo, s.vRandom) && n < |s.vRandom| && |ids| < max
    ensures var q := draw(n) % (|s.vRandom| - n) + n;
            var s1 := SwapRandom(s, n, q);
            && RandomOk(s1.mapInfo, s1.vRandom) && |s1.vRandom| == |s.vRandom| && s1.vRandom[n] in s1.mapInfo
            && GetAddr(s, n, ids, max, draw, now)
               == GetAddr(s1, n + 1, if IsTerrible(s1.mapInfo[s1.vRandom[n]], now(n)) then ids
                          else ids + [s1.vRandom[n]], max, draw, now)
  {
    hide RandomOk, SwapRandom, IsTerrible;
    var q := draw(n) % (|s.vRandom| - n) + n;
    SwapRandomOk(s, n, q);
    RandomAt(SwapRandom(s, n, q).mapInfo, SwapRandom(s, n, q).vRandom, n);
  }

  lemma GetAddrDone(s: State, n: nat, ids: seq<int>, max: nat, draw: nat -> nat, now: nat -> int)
    requires RandomOk(s.mapInfo, s.vRandom) && n <= |s.vRandom| && (n == |s.vRandom| || |ids| >= max)
    ensures GetAddr(s, n, ids, max, draw, now) == (s, ids)
  {}

  /** The ids taken so far all sit in front of position `n`. */
  ghost predicate TakenBefore(s: State, n: nat, taken: seq<int>)
    requires n <= |s.vRandom|
  {
    && (forall i :: 0 <= i < |taken| ==> taken[i] in s.vRandom[..n])
    && (forall i, j :: 0 <= i < j < |taken| ==> taken[i] != taken[j])
  }

  /** What GetAddr_ leaves and hands out: vRandom reshuffled, nothing else; and distinct known ids, no more
      than the limit. */
  ghost predicate HandedOut(s: State, s': State, r: seq<int>, max: nat) {
    && AllMovedOnly(s.mapInfo, s'.mapInfo)
    && s' == s.(mapInfo := s'.mapInfo, vRandom := s'.vRandom)
    && |r| <= max
    && (forall i :: 0 <= i < |r| ==> r[i] in s.mapInfo)
    && (forall i, j :: 0 <= i < j < |r| ==> r[i] != r[j])
  }

  lemma {:induction false} GetAddrKeeps(h: Hashes, s: State, n: nat, taken: seq<int>, max: nat, draw: nat -> nat,
                                        now: nat -> int)
    requires Inv(h, s, {}, {}) && n <= |s.vRandom| && TakenBefore(s, n, taken) && |taken| <= max
    ensures var (s', r) := GetAddr(s, n, taken, max, draw, now);
            Inv(h, s', {}, {}) && HandedOut(s, s', r, max)
    decreases |s.vRandom| - n
  {
    hide RandomOk, AddrOk, IdsOk, TriedOk, NewOk, RefsOk, CountsOk, EntriesOk, IsTerrible, SwapRandom, TakenBefore,
         HandedOut, AllMovedOnly, GetAddr;
    if n == |s.vRandom| || |taken| >= max {
      GetAddrDone(s, n, taken, max, draw, now);
      TakenHandedOut(s, n, taken, max);
    } else {
      var q := draw(n) % (|s.vRandom| - n) + n;
      GetAddrStep(s, n, taken, max, draw, now);
      SwapRandomOk(s, n, q);
      SwapRandomKeeps(h, s, n, q, {}, {});
      var s1 := SwapRandom(s, n, q);
      var id := s1.vRandom[n];
      var taken' := if IsTerrible(s1.mapInfo[id], now(n)) then taken else taken + [id];
      TakeOne(s, n, q, taken);
      GetAddrKeeps(h, s1, n + 1, taken', max, draw, now);
      var (s', r) := GetAddr(s1, n + 1, taken', max, draw, now);
      HandedOutAfterSwap(s, s1, s', r, max);
    }
  }

  lemma TakenHandedOut(s: State, n: nat, taken: seq<int>, max: nat)
    requires RandomOk(s.mapInfo, s.vRandom) && n <= |s.vRandom| && TakenBefore(s, n, taken) && |taken| <= max
    ensures HandedOut(s, s, taken, max)
  {
    forall i | 0 <= i < |taken| ensures taken[i] in s.mapInfo { TakenKnown(s, n, taken[i]); }
    SelfMoved(s.mapInfo);
  }

  lemma HandedOutAfterSwap(s: State, s1: State, s': State, r: seq<int>, max: nat)
    requires AllMovedOnly(s.mapInfo, s1.mapInfo) && s1 == s.(mapInfo := s1.mapInfo, vRandom := s1.vRandom)
    requires HandedOut(s1, s', r, max)
    ensures HandedOut(s, s', r, max)
  {
    MovedTransitive(s.mapInfo, s1.mapInfo, s'.mapInfo);
    forall i | 0 <= i < |r| ensures r[i] in s.mapInfo {
      var id: int := r[i];
      assert id in s1.mapInfo && id in s.mapInfo;
    }
  }

  lemma RandomAt(mi: Entries, vr: seq<int>, i: nat)
    requires RandomOk(mi, vr) && i < |vr|
    ensures vr[i] in mi
  {}

  lemma SelfMoved(mi: Entries)
    ensures AllMovedOnly(mi, mi)
  {}

  lemma TakenKnown(s: State, n: nat, id: int)
    requires RandomOk(s.mapInfo, s.vRandom) && n <= |s.vRandom| && id in s.vRandom[..n]
    ensures id in s.mapInfo
  {
    var i :| 0 <= i < n && s.vRandom[i] == id;
  }

  lemma MovedTransitive(a: Entries, b: Entries, c: Entries)
    requires AllMovedOnly(a, b) && AllMovedOnly(b, c)
    ensures AllMovedOnly(a, c)
  {
    forall x | x in a ensures MovedOnly(a[x], c[x]) {
      assert x in b && MovedOnly(a[x], b[x]) && MovedOnly(b[x], c[x]);
    }
  }

  lemma TakeOne(s: State, n: nat, q: nat, taken: seq<int>)
    requires RandomOk(s.mapInfo, s.vRandom) && n <= q < |s.vRandom| && TakenBefore(s, n, taken)
    ensures var s1 := SwapRandom(s, n, q);
            n + 1 <= |s1.vRandom| && TakenBefore(s1, n + 1, taken) && TakenBefore(s1, n + 1, taken + [s1.vRandom[n]])
  {
    var s1 := SwapRandom(s, n, q);
    var id := s1.vRandom[n];
    assert s1.vRandom[..n] == s.vRandom[..n];
    assert s1.vRandom[..n + 1] == s.vRandom[..n] + [id];
    SwapRandomOk(s, n, q);
    forall i | 0 <= i < |taken| ensures taken[i] != id {
      var k :| 0 <= k < n && s1.vRandom[k] == taken[i];
      assert s1.mapInfo[s1.vRandom[k]].nRandomPos == k && s1.mapInfo[s1.vRandom[n]].nRandomPos == n;
    }
  }

  // ---------------------------------------------------------------------------------------------
  // Collisions
  // ---------------------------------------------------------------------------------------------

  ghost function Erased(s: State, id: int): State { s.(collisions := s.collisions - {id}) }

  lemma ErasedKeeps(h: Hashes, s: State, id: int)
    requires Consistent(h, s)
    ensures Consistent(h, Erased(s, id)) && Evolves(s, Erased(s, id))
  {
    hide RandomOk, AddrOk, IdsOk, TriedOk, NewOk, RefsOk, CountsOk, EntriesOk;
    CollisionsEvolve(h, s, Erased(s, id));
  }

  /** The clock readings of one turn of ResolveCollisions_, in the order of the calls. */
  datatype Readings = Readings(t0: int, t1: int, t2: int, t3: int) {
    predicate Positive() { t0 > 0 && t1 > 0 && t2 > 0 && t3 > 0 }
  }

  /** One turn of ResolveCollisions_. */
  ghost function ResolveOne(h: Hashes, s: State, id: int, t: Readings): State
    requires Consistent(h, s) && t.Positive()
  {
    if id !in s.mapInfo then Erased(s, id)
    else
      var info := s.mapInfo[id];
      var c := TriedCell(h, s.nKey, info.service);
      if !h.isValid(info.service.ip) then Erased(s, id)
      else if At(s.tried, c) != -1 then
        TriedCellKnown(h, s, c);
        var old_ := s.mapInfo[At(s.tried, c)];
        if t.t0 - old_.nLastSuccess < REPLACEMENT_HOURS * (60 * 60) then Erased(s, id)
        else if t.t1 - old_.nLastTry < REPLACEMENT_HOURS * (60 * 60) then
          if t.t2 - old_.nLastTry > 60 then Erased(Good(h, s, info.service, false, t.t3), id) else s
        else if t.t2 - info.nLastSuccess > TEST_WINDOW then Erased(Good(h, s, info.service, false, t.t3), id)
        else s
      else Erased(Good(h, s, info.service, false, t.t0), id)
  }

  lemma TriedCellKnown(h: Hashes, s: State, c: Cell)
    requires Consistent(h, s) && At(s.tried, c) != -1
    ensures At(s.tried, c) in s.mapInfo
  {
    hide RandomOk, AddrOk, IdsOk, TriedOk, NewOk, RefsOk, CountsOk, EntriesOk, TriedCell;
    FilledTriedCell(h, s, c, {});
  }

  lemma ResolveOneKeeps(h: Hashes, s: State, id: int, t: Readings)
    requires Consistent(h, s) && t.Positive()
    ensures Consistent(h, ResolveOne(h, s, id, t)) && Evolves(s, ResolveOne(h, s, id, t))
  {
    hide Consistent, Evolves, Good, TriedCell;
    SelfEvolves(s);
    ErasedKeeps(h, s, id);
    if id in s.mapInfo {
      GoodThenErase(h, s, s.mapInfo[id].service, t.t3, id);
      GoodThenErase(h, s, s.mapInfo[id].service, t.t0, id);
    }
  }

  lemma SelfEvolves(s: State)
    ensures Evolves(s, s)
  {}

  lemma GoodThenErase(h: Hashes, s: State, svc: Service, nTime: int, id: int)
    requires Consistent(h, s) && nTime > 0
    ensures var s' := Erased(Good(h, s, svc, false, nTime), id); Consistent(h, s') && Evolves(s, s')
  {
    hide RandomOk, AddrOk, TriedOk, NewOk, RefsOk, CountsOk, EntriesOk, Good;
    GoodKeeps(h, s, svc, false, nTime);
    var s1 := Good(h, s, svc, false, nTime);
    ErasedKeeps(h, s1, id);
    EvolvesTransitive(s, s1, Erased(s1, id));
  }

  lemma {:induction false} HasMin(ids: set<int>) returns (m: int)
    requires ids != {}
    ensures m in ids && forall x :: x in ids ==> m <= x
    decreases |ids|
  {
    var x := SomeElement(ids);
    m := x;
    if ids - {x} != {} {
      var y := HasMin(ids - {x});
      m := if y < x then y else x;
      forall z | z in ids ensures m <= z { assert z == x || z in ids - {x}; }
    } else {
      forall z | z in ids ensures m <= z { assert z == x || z in ids - {x}; }
    }
  }

  ghost function MinOf(ids: set<int>): (m: int)
    requires ids != {}
    ensures m in ids && forall x :: x in ids ==> m <= x
  {
    assert exists m :: m in ids && forall x :: x in ids ==> m <= x by {
      var m := HasMin(ids);
      assert m in ids && forall x :: x in ids ==> m <= x;
    }
    var m :| m in ids && forall x :: x in ids ==> m <= x;
    m
  }

  /** ResolveCollisions_ over the pending ids in `rest`, in ascending order as std::set yields them. */
  ghost function Resolve(h: Hashes, s: State, rest: set<int>, clock: int -> Readings): State
    requires Consistent(h, s) && forall id :: clock(id).Positive()
    decreases |rest|
  {
    if rest == {} then s
    else
      var id := MinOf(rest);
      ResolveOneKeeps(h, s, id, clock(id));
      Resolve(h, ResolveOne(h, s, id, clock(id)), rest - {id}, clock)
  }

  lemma {:induction false} ResolveKeeps(h: Hashes, s: State, rest: set<int>, clock: int -> Readings)
    requires Consistent(h, s) && forall id :: clock(id).Positive()
    ensures Consistent(h, Resolve(h, s, rest, clock)) && Evolves(s, Resolve(h, s, rest, clock))
    decreases |rest|
  {
    hide RandomOk, AddrOk, TriedOk, NewOk, RefsOk, CountsOk, EntriesOk, ResolveOne;
    if rest == {} {
      SelfEvolves(s);
    } else {
      var id := MinOf(rest);
      var s1 := ResolveOne(h, s, id, clock(id));
      ResolveOneKeeps(h, s, id, clock(id));
      ResolveKeeps(h, s1, rest - {id}, clock);
      EvolvesTransitive(s, s1, Resolve(h, s1, rest - {id}, clock));
    }
  }

  /** SelectTriedCollision_ on the pending id it drew: the entry about to be evicted, if there is one. */
  ghost function SelectTriedCollision(s: State, id: int): State {
    if id in s.collisions && id !in s.mapInfo then Erased(s, id) else s
  }

  /** mapInfo[-1] is never touched: the cell SelectTriedCollision_ reads names an existing tried entry. */
  lemma SelectTriedCollisionReads(h: Hashes, s: State, id: int)
    requires Consistent(h, s) && id in s.collisions && id in s.mapInfo
    ensures var victim := At(s.tried, TriedCell(h, s.nKey, s.mapInfo[id].service));
            victim != -1 && victim in s.mapInfo && s.mapInfo[victim].fInTried
  {
    hide RandomOk, AddrOk, IdsOk, TriedOk, NewOk, RefsOk, CountsOk, EntriesOk, TriedCell;
    FilledTriedCell(h, s, TriedCell(h, s.nKey, s.mapInfo[id].service), {});
  }

  // ---------------------------------------------------------------------------------------------
  // Runs
  // ---------------------------------------------------------------------------------------------

  datatype Op =
    | OpAdd(addr: Address, source: IP, nTimePenalty: int, now: AddTimes, lucky: bool)
    | OpGood(svc: Service, testBeforeEvict: bool, nTime: int)
    | OpAttempt(svc: Service, fCountFailure: bool, nTime: int)
    | OpConnected(svc: Service, nTime: int)
    | OpSetServices(svc: Service, nServices: ServiceFlags)
    | OpGetAddr(draw: nat -> nat, nowAt: nat -> int)
    | OpResolve(clock: int -> Readings)
    | OpSelectCollision(id: int)

  /** Times are positive, as a clock's are. */
  ghost predicate Timely(op: Op) {
    match op
    case OpGood(_, _, nTime) => nTime > 0
    case OpAttempt(_, _, nTime) => nTime > 0
    case OpResolve(clock) => forall id :: clock(id).Positive()
    case _ => true
  }

  ghost function Step(h: Hashes, s: State, op: Op): State
    requires Consistent(h, s) && Timely(op)
  {
    match op
    case OpAdd(addr, source, penalty, now, lucky) => Add(h, s, addr, source, penalty, now, lucky)
    case OpGood(svc, test, nTime) => Good(h, s, svc, test, nTime)
    case OpAttempt(svc, fCount, nTime) => Attempt(s, svc, fCount, nTime)
    case OpConnected(svc, nTime) => Connected(s, svc, nTime)
    case OpSetServices(svc, nServices) => SetServices(s, svc, nServices)
    case OpGetAddr(draw, nowAt) => GetAddr(s, 0, [], MaxNodes(|s.vRandom|), draw, nowAt).0
    case OpResolve(clock) => Resolve(h, s, s.collisions, clock)
    case OpSelectCollision(id) => SelectTriedCollision(s, id)
  }

  lemma StepKeeps(h: Hashes, s: State, op: Op)
    requires Consistent(h, s) && Timely(op)
    ensures Consistent(h, Step(h, s, op)) && Evolves(s, Step(h, s, op))
  {
    hide RandomOk, AddrOk, IdsOk, TriedOk, NewOk, RefsOk, CountsOk, EntriesOk, CollisionsOk, Evolves,
         Add, Good, GetAddr, Resolve, Touch;
    SelfEvolves(s);
    match op
    case OpAdd(addr, source, penalty, now, lucky) => AddKeeps(h, s, addr, source, penalty, now, lucky);
    case OpGood(svc, test, nTime) => GoodKeeps(h, s, svc, test, nTime);
    case OpAttempt(svc, fCount, nTime) => AttemptKeeps(h, s, svc, fCount, nTime);
    case OpConnected(svc, nTime) =>
      if Found(s, svc) {
        var id := s.mapAddr[svc.ip];
        TouchConsistent(h, s, id, if nTime - s.mapInfo[id].nTime > 20 * 60 then s.mapInfo[id].(nTime := nTime)
                        else s.mapInfo[id]);
      }
    case OpSetServices(svc, nServices) =>
      if Found(s, svc) {
        TouchConsistent(h, s, s.mapAddr[svc.ip], s.mapInfo[s.mapAddr[svc.ip]].(nServices := nServices));
      }
    case OpGetAddr(draw, nowAt) => GetAddrConsistent(h, s, draw, nowAt);
    case OpResolve(clock) => ResolveKeeps(h, s, s.collisions, clock);
    case OpSelectCollision(id) => ErasedKeeps(h, s, id);
  }

  lemma AttemptKeeps(h: Hashes, s: State, svc: Service, fCount: bool, nTime: int)
    requires Consistent(h, s) && nTime > 0
    ensures Consistent(h, Attempt(s, svc, fCount, nTime)) && Evolves(s, Attempt(s, svc, fCount, nTime))
  {
    hide RandomOk, AddrOk, IdsOk, TriedOk, NewOk, RefsOk, CountsOk, EntriesOk, CollisionsOk, Evolves;
    SelfEvolves(s);
    if Found(s, svc) {
      var id := s.mapAddr[svc.ip];
      var info := s.mapInfo[id].(nLastTry := nTime);
      TouchConsistent(h, s, id, if fCount && info.nLastCountAttempt < s.nLastGood
                                then info.(nLastCountAttempt := nTime, nAttempts := info.nAttempts + 1) else info);
    }
  }

  lemma GetAddrConsistent(h: Hashes, s: State, draw: nat -> nat, now: nat -> int)
    requires Consistent(h, s)
    ensures var (s', r) := GetAddr(s, 0, [], MaxNodes(|s.vRandom|), draw, now);
            Consistent(h, s') && Evolves(s, s') && HandedOut(s, s', r, MaxNodes(|s.vRandom|))
  {
    hide RandomOk, AddrOk, IdsOk, TriedOk, NewOk, RefsOk, CountsOk, EntriesOk, GetAddr;
    GetAddrKeeps(h, s, 0, [], MaxNodes(|s.vRandom|), draw, now);
    var (s', r) := GetAddr(s, 0, [], MaxNodes(|s.vRandom|), draw, now);
    forall x | x in s'.mapInfo ensures x in s.mapInfo && s'.mapInfo[x].service == s.mapInfo[x].service {
      assert MovedOnly(s.mapInfo[x], s'.mapInfo[x]);
    }
    CollisionsEvolve(h, s, s');
  }

  ghost function Run(h: Hashes, s: State, ops: seq<Op>): State
    requires Consistent(h, s) && forall i :: 0 <= i < |ops| ==> Timely(ops[i])
    decreases |ops|
  {
    if ops == [] then s
    else
      StepKeeps(h, s, ops[0]);
      Run(h, Step(h, s, ops[0]), ops[1..])
  }

  /** Every run keeps everything Check_ tests; no tried cell, once filled, is ever empty again; and an entry
      keeps its address for as long as its id exists. */
  lemma {:induction false} RunKeeps(h: Hashes, s: State, ops: seq<Op>)
    requires Consistent(h, s) && forall i :: 0 <= i < |ops| ==> Timely(ops[i])
    ensures Consistent(h, Run(h, s, ops)) && Evolves(s, Run(h, s, ops))
    decreases |ops|
  {
    hide RandomOk, AddrOk, TriedOk, NewOk, RefsOk, CountsOk, EntriesOk, Step;
    if ops == [] {
      SelfEvolves(s);
    } else {
      StepKeeps(h, s, ops[0]);
      var s1 := Step(h, s, ops[0]);
      RunKeeps(h, s1, ops[1..]);
      EvolvesTransitive(s, s1, Run(h, s1, ops[1..]));
    }
  }

  /** The state the constructor makes: every index is empty. */
  ghost function Initial(key: nat, newTable: Table, triedTable: Table): State {
    State(key, 0, map[], map[], [], 0, triedTable, 0, newTable, 1, {})
  }

  lemma InitialConsistent(h: Hashes, key: nat, newTable: Table, triedTable: Table)
    requires forall c :: At(newTable, c) == -1 && At(triedTable, c) == -1
    ensures Consistent(h, Initial(key, newTable, triedTable))
  {
    var s := Initial(key, newTable, triedTable);
    assert NewIds(s.mapInfo) - {} == {} && TriedIds(s.mapInfo) == {};
  }

  // ---------------------------------------------------------------------------------------------
  // What the moving operations do to the addresses
  // ---------------------------------------------------------------------------------------------

  /** The effect of MakeTried, seen from outside: the entry is in its tried cell and every other tried cell is
      as before; an evicted entry is in the new table with one reference, in the cell of its own source; and
      the only entry that can be lost is one whose last reference was in that cell. */
  ghost predicate MadeTried(h: Hashes, s: State, s': State, id: int)
    requires id in s.mapInfo
  {
    var c := TriedCell(h, s.nKey, s.mapInfo[id].service);
    var victim := At(s.tried, c);
    && (forall d :: At(s'.tried, d) == if d == c then id else At(s.tried, d))
    && id in s'.mapInfo && MovedOnly(s.mapInfo[id].(nRefCount := 0, fInTried := true), s'.mapInfo[id])
    && (victim != -1 ==> BackInNew(h, s, s', victim))
    && (forall x :: x in s'.mapInfo ==> x in s.mapInfo)
    && (forall x :: x in s.mapInfo && x !in s'.mapInfo ==> victim != -1 && LostTo(h, s, victim, x))
  }

  ghost predicate BackInNew(h: Hashes, s: State, s': State, victim: int) {
    && victim in s.mapInfo && victim in s'.mapInfo
    && MovedOnly(s.mapInfo[victim].(nRefCount := 1, fInTried := false), s'.mapInfo[victim])
    && At(s'.vNew, HomeCell(h, s.nKey, s.mapInfo[victim])) == victim
  }

  ghost predicate LostTo(h: Hashes, s: State, victim: int, x: int) {
    && victim in s.mapInfo && x in s.mapInfo
    && x == At(s.vNew, HomeCell(h, s.nKey, s.mapInfo[victim])) && s.mapInfo[x].nRefCount == 1
  }

  lemma MakeTriedEffect(h: Hashes, s: State, id: int)
    requires Inv(h, s, {}, {}) && id in s.mapInfo && !s.mapInfo[id].fInTried
    ensures MadeTried(h, s, MakeTried(h, s, id), id)
  {
    hide RandomOk, AddrOk, IdsOk, TriedOk, NewOk, RefsOk, CountsOk, EntriesOk, ClearNew, TriedCell, HomeCell,
         BackInNew, LostTo;
    VacatedKeeps(h, s, id);
    var s1 := Vacated(h, s, id);
    var s' := MakeTried(h, s, id);
    var c := TriedCell(h, s.nKey, s.mapInfo[id].service);
    AtWrite(s.tried, c, -1);
    AtWrite(s1.tried, c, id);
    assert s'.tried == s1.tried[c := id];
    forall d ensures At(s'.tried, d) == if d == c then id else At(s.tried, d) {
      assert At(s1.tried[c := id], d) == if d == c then id else At(s1.tried, d);
    }
    LeaveNewKeeps(h, s, id);
    if At(s.tried, c) != -1 {
      EvictionEffect(h, s, id);
    }
  }

  lemma EvictionEffect(h: Hashes, s: State, id: int)
    requires Inv(h, s, {}, {}) && id in s.mapInfo && !s.mapInfo[id].fInTried
    requires At(s.tried, TriedCell(h, s.nKey, s.mapInfo[id].service)) != -1
    ensures var s', victim := MakeTried(h, s, id), At(s.tried, TriedCell(h, s.nKey, s.mapInfo[id].service));
            && BackInNew(h, s, s', victim)
            && (forall x :: x in s'.mapInfo ==> x in s.mapInfo)
            && (forall x :: x in s.mapInfo && x !in s'.mapInfo ==> LostTo(h, s, victim, x))
  {
    hide RandomOk, AddrOk, IdsOk, TriedOk, NewOk, RefsOk, CountsOk, EntriesOk, ClearNew, TriedCell, HomeCell, MovedOnly;
    var c := TriedCell(h, s.nKey, s.mapInfo[id].service);
    var victim := At(s.tried, c);
    LeaveNewKeeps(h, s, id);
    LeaveNewCells(h, s, id);
    VacatedKeeps(h, s, id);
    var s1 := LeaveNew(h, s, id);
    FilledTriedCell(h, s1, c, {id});
    EvictKeeps(h, s1, c, {id});
    var s2 := Evict(s1, c);
    ReEnterKeeps(h, s2, victim, {id} + {victim});
    LimboInNoCell(h, s2, {id} + {victim}, id);
    var c2 := HomeCell(h, s2.nKey, s2.mapInfo[victim]);
    SameHome(h, s.nKey, s.mapInfo[victim], s2.mapInfo[victim]);
    ClearNewEffect(s2, c2);
    var s3 := ClearNew(s2, c2);
    AtWrite(s3.vNew, c2, victim);
    ClearedKeepsOther(s2, s3, c2, victim);
    MovedWithOneRef(s2.mapInfo[victim], s3.mapInfo[victim]);
    assert At(s2.vNew, c2) != id;
    forall x | x in s.mapInfo && x !in MakeTried(h, s, id).mapInfo ensures LostTo(h, s, victim, x) {
      assert x in s2.mapInfo && x !in s3.mapInfo;
      assert x == At(s2.vNew, c2) && s2.mapInfo[x].nRefCount == 1;
    }
  }

  lemma SameHome(h: Hashes, key: nat, a: Info, b: Info)
    requires b.service == a.service && b.source == a.source
    ensures HomeCell(h, key, a) == HomeCell(h, key, b)
  {}

  lemma MovedWithOneRef(a: Info, b: Info)
    requires MovedOnly(a, b)
    ensures MovedOnly(a.(nRefCount := 1), b.(nRefCount := 1))
  {}

  lemma LeaveNewCells(h: Hashes, s: State, id: int)
    requires Inv(h, s, {}, {}) && id in s.mapInfo
    ensures forall c :: At(LeaveNew(h, s, id).vNew, c) == if At(s.vNew, c) == id then -1 else At(s.vNew, c)
  {
    hide RandomOk, AddrOk, TriedOk, NewOk, RefsOk, CountsOk, EntriesOk, Cleared;
    NextIdUnused(s.mapInfo, s.nIdCount);
    RefsAfterClear(h, s.nKey, s.mapInfo, s.vNew, id);
  }

  /** Add_ removes a known entry only if it is terrible and its last reference was in the target cell. */
  lemma AddLoses(h: Hashes, s: State, addr: Address, source: IP, nTimePenalty: int, now: AddTimes, lucky: bool, x: int)
    requires Consistent(h, s) && x in s.mapInfo && x !in Add(h, s, addr, source, nTimePenalty, now, lucky).mapInfo
    ensures s.mapInfo[x].nRefCount == 1 && IsTerrible(s.mapInfo[x], now.cell)
    ensures exists svc: Service :: svc.ip == addr.service.ip && At(s.vNew, SourceCell(h, s.nKey, svc, source)) == x
  {
    hide RandomOk, AddrOk, IdsOk, TriedOk, NewOk, RefsOk, CountsOk, EntriesOk, PlaceNew, SourceCell;
    var penalty := Penalty(addr, source, nTimePenalty);
    if Known(s, addr.service.ip) {
      var id := s.mapAddr[addr.service.ip];
      var info := Refreshed(s.mapInfo[id], addr, penalty, now.online);
      var s1 := Touch(s, id, info);
      RefreshKeeps(h, s, id, addr, penalty, now.online);
      WeakenOrphans(h, s1, id);
      RefCountOf(h, s, id);
      KnownAddress(h, s, addr.service.ip);
      var c := SourceCell(h, s.nKey, info.service, source);
      PlaceNewLoses(h, s1, id, c, now.cell, x);
    } else {
      UnknownHasNoId(h, s, addr.service.ip);
      var info := NewInfo(addr, source, penalty);
      CreatedKeeps(h, s, info, {});
      assert {} + {s.nIdCount} == {s.nIdCount};
      var c := SourceCell(h, s.nKey, info.service, source);
      PlaceNewLoses(h, Created(s, info), s.nIdCount, c, now.cell, x);
    }
  }

  lemma KnownAddress(h: Hashes, s: State, ip: IP)
    requires Inv(h, s, {}, {}) && Known(s, ip)
    ensures s.mapInfo[s.mapAddr[ip]].service.ip == ip
  {
    hide RandomOk, IdsOk, TriedOk, NewOk, RefsOk, CountsOk, EntriesOk;
  }

  lemma PlaceNewLoses(h: Hashes, s: State, id: int, c: Cell, now: int, x: int)
    requires Inv(h, s, {}, {id}) && id in s.mapInfo && x in s.mapInfo && x !in PlaceNew(h, s, id, c, now).mapInfo
    requires x == id ==> s.mapInfo[id].nRefCount != 0
    ensures x != id && At(s.vNew, c) == x && s.mapInfo[x].nRefCount == 1 && IsTerrible(s.mapInfo[x], now)
  {
    hide RandomOk, AddrOk, IdsOk, TriedOk, NewOk, RefsOk, CountsOk, EntriesOk, Delete, ClearNew, IsTerrible;
    FilledNewCell(h, s, c, {}, {id});
    if At(s.vNew, c) == -1 || (At(s.vNew, c) != id && MayOverwrite(s, id, c, now)) {
      ClearNewEffect(s, c);
    } else if At(s.vNew, c) != id && s.mapInfo[id].nRefCount == 0 {
      DeleteEffect(s, id);
    }
  }
}
