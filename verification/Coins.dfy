/** The unspent-coin cache stack of coins.cpp, on values.

    A stack of caches sits on a database.  Each cache entry carries a DIRTY and a FRESH flag that
    let the cache drop an entry without telling its parent.  `Show` says what a cache lets its user
    see, `Machine` is a database with any number of caches on it, and `RunRefines` says that every
    run of the machine is a run of plain maps. */
module Coins {
  import opened Options

  type Script = seq<bv8>

  datatype OutPoint = OutPoint(hash: nat, n: nat)

  datatype TxOut = TxOut(nValue: int, scriptPubKey: Script)

  datatype Coin = Coin(out: TxOut, fCoinBase: bool, nHeight: nat, fCoinStake: bool) {
    predicate IsSpent() { out.nValue == -1 }
  }

  /** A cleared coin: null output, no flags (Coin::Clear). */
  const EMPTY_COIN := Coin(TxOut(-1, []), false, 0, false)

  const OP_RETURN: bv8 := 0x6a
  const MAX_SCRIPT_SIZE := 10000

  predicate IsUnspendable(s: Script) {
    (|s| > 0 && s[0] == OP_RETURN) || |s| > MAX_SCRIPT_SIZE
  }

  /** CCoinsCacheEntry: a coin with the two flag bits. */
  datatype Entry = Entry(coin: Coin, isDirty: bool, isFresh: bool)

  const NEW_ENTRY := Entry(EMPTY_COIN, false, false)

  type CoinsMap = map<OutPoint, Entry>

  /** The unspent coins a view shows. */
  type Utxo = map<OutPoint, Coin>

  ghost predicate UtxoOk(u: Utxo) {
    forall o :: o in u ==> !u[o].IsSpent()
  }

  /** What a cache shows when its parent shows `base`. */
  ghost function Show(base: Utxo, cache: CoinsMap): Utxo {
    map o | o in base.Keys + cache.Keys && (o in cache ==> !cache[o].coin.IsSpent())
      :: if o in cache then cache[o].coin else base[o]
  }

  /** The meaning of the flags: FRESH says the parent shows no unspent coin, and an entry that is not
      DIRTY is what the parent shows. */
  ghost predicate EntryOk(base: Utxo, o: OutPoint, e: Entry) {
    && (e.isFresh ==> o !in base)
    && (!e.isDirty ==> if e.coin.IsSpent() then o !in base else o in base && base[o] == e.coin)
  }

  ghost predicate CacheOk(base: Utxo, cache: CoinsMap) {
    forall o :: o in cache ==> EntryOk(base, o, cache[o])
  }

  // ---------------------------------------------------------------------------------------------
  // One cache
  // ---------------------------------------------------------------------------------------------

  /** The entry AddCoin works on: the cached one, or the empty one that emplace creates. */
  function EntryAt(cache: CoinsMap, o: OutPoint): Entry {
    if o in cache then cache[o] else NEW_ENTRY
  }

  /** AddCoin throws when it is told there is nothing to overwrite and the cache holds an unspent coin. */
  predicate AddThrows(cache: CoinsMap, o: OutPoint, coin: Coin, possibleOverwrite: bool) {
    !IsUnspendable(coin.out.scriptPubKey) && !possibleOverwrite && !EntryAt(cache, o).coin.IsSpent()
  }

  /** CCoinsViewCache::AddCoin on a run that does not throw. */
  function Add(cache: CoinsMap, o: OutPoint, coin: Coin, possibleOverwrite: bool): CoinsMap {
    if IsUnspendable(coin.out.scriptPubKey) then cache
    else
      var e := EntryAt(cache, o);
      cache[o := Entry(coin, true, e.isFresh || (!possibleOverwrite && !e.isDirty))]
  }

  /** What SpendCoin does once the coin has been fetched into the cache. */
  function Spend(cache: CoinsMap, o: OutPoint): CoinsMap {
    if o !in cache then cache
    else if cache[o].isFresh then cache - {o}
    else cache[o := Entry(EMPTY_COIN, true, false)]
  }

  /** CCoinsViewCache::Uncache: only an entry with no flag at all may go. */
  function Uncache(cache: CoinsMap, o: OutPoint): CoinsMap {
    if o in cache && !cache[o].isDirty && !cache[o].isFresh then cache - {o} else cache
  }

  /** BatchWrite's verdict on one child entry: it throws when the child is FRESH over an unspent coin. */
  predicate EntryMisapplied(parent: CoinsMap, o: OutPoint, e: Entry) {
    e.isDirty && o in parent && e.isFresh && !parent[o].coin.IsSpent()
  }

  /** BatchWrite's effect on one key: what becomes of the parent's entry under the child's entry. */
  function MergeEntry(p: Option<Entry>, e: Entry): Option<Entry> {
    if !e.isDirty then p
    else match p
      case None => if e.isFresh && e.coin.IsSpent() then None else Some(Entry(e.coin, true, e.isFresh))
      case Some(pe) => if pe.isFresh && e.coin.IsSpent() then None else Some(Entry(e.coin, true, pe.isFresh))
  }

  function Lookup<T>(m: map<OutPoint, T>, o: OutPoint): Option<T> {
    if o in m then Some(m[o]) else None
  }

  function WriteEntry(parent: CoinsMap, o: OutPoint, e: Entry): CoinsMap {
    match MergeEntry(Lookup(parent, o), e)
    case None => parent - {o}
    case Some(x) => parent[o := x]
  }

  ghost predicate Misapplied(parent: CoinsMap, child: CoinsMap) {
    exists o :: o in child && EntryMisapplied(parent, o, child[o])
  }

  ghost function MergedAt(parent: CoinsMap, child: CoinsMap, o: OutPoint): Option<Entry> {
    if o in child then MergeEntry(Lookup(parent, o), child[o]) else Lookup(parent, o)
  }

  /** The parent's entries after the whole child map has been written into it, key by key. */
  ghost function Merge(parent: CoinsMap, child: CoinsMap): CoinsMap {
    map o | o in parent.Keys + child.Keys && MergedAt(parent, child, o).Some? :: MergedAt(parent, child, o).value
  }

  /** CCoinsViewDB::BatchWrite: dirty entries are erased when spent and written otherwise. */
  ghost function MergeDb(db: Utxo, child: CoinsMap): Utxo {
    map o | o in db.Keys + child.Keys && (o in child && child[o].isDirty ==> !child[o].coin.IsSpent())
            && (o in child && !child[o].isDirty ==> o in db)
      :: if o in child && child[o].isDirty then child[o].coin else db[o]
  }

  /** AddCoin keeps the flags truthful exactly when the caller's promise is: with nothing declared
      overwritable and no dirty entry cached, the parent must not show a coin. */
  lemma AddKeepsFlagsIff(base: Utxo, cache: CoinsMap, o: OutPoint, coin: Coin, possibleOverwrite: bool)
    requires UtxoOk(base) && CacheOk(base, cache) && !coin.IsSpent()
    requires !IsUnspendable(coin.out.scriptPubKey) && !AddThrows(cache, o, coin, possibleOverwrite)
    ensures CacheOk(base, Add(cache, o, coin, possibleOverwrite))
            <==> (possibleOverwrite || EntryAt(cache, o).isDirty || o !in base)
  {
    var r := Add(cache, o, coin, possibleOverwrite);
    assert forall x :: x in r && x != o ==> x in cache && r[x] == cache[x];
    assert EntryOk(base, o, r[o]) <==> (possibleOverwrite || EntryAt(cache, o).isDirty || o !in base);
    if possibleOverwrite || EntryAt(cache, o).isDirty || o !in base {
      forall x | x in r ensures EntryOk(base, x, r[x]) {
        if x != o { assert EntryOk(base, x, cache[x]); }
      }
    }
  }

  /** Under the documented precondition AddCoin does not throw, keeps the flags truthful, and shows
      the plain map with the coin added; an unspendable output is dropped. */
  lemma AddRefines(base: Utxo, cache: CoinsMap, o: OutPoint, coin: Coin, possibleOverwrite: bool)
    requires UtxoOk(base) && CacheOk(base, cache) && !coin.IsSpent()
    requires possibleOverwrite || o !in Show(base, cache)
    ensures !AddThrows(cache, o, coin, possibleOverwrite)
    ensures CacheOk(base, Add(cache, o, coin, possibleOverwrite))
    ensures Show(base, Add(cache, o, coin, possibleOverwrite))
            == if IsUnspendable(coin.out.scriptPubKey) then Show(base, cache) else Show(base, cache)[o := coin]
  {
    hide Show;
    if !IsUnspendable(coin.out.scriptPubKey) {
      if o in cache { assert EntryOk(base, o, cache[o]); }
      ShownAt(base, cache, o);
      AddKeepsFlagsIff(base, cache, o, coin, possibleOverwrite);
      ShowWritten(base, cache, o, Add(cache, o, coin, possibleOverwrite)[o]);
    }
  }

  lemma ShownAt(base: Utxo, cache: CoinsMap, o: OutPoint)
    ensures o in Show(base, cache) <==> if o in cache then !cache[o].coin.IsSpent() else o in base
  {}

  /** Writing an unspent coin into a cache shows it there and changes nothing else. */
  lemma ShowWritten(base: Utxo, cache: CoinsMap, o: OutPoint, e: Entry)
    requires !e.coin.IsSpent()
    ensures Show(base, cache[o := e]) == Show(base, cache)[o := e.coin]
  {}

  /** An empty cache shows its parent. */
  lemma ShowEmpty(base: Utxo)
    ensures Show(base, map[]) == base && CacheOk(base, map[])
  {}

  lemma SpendRefines(base: Utxo, cache: CoinsMap, o: OutPoint)
    requires CacheOk(base, cache) && (o in base ==> o in cache)
    ensures CacheOk(base, Spend(cache, o))
    ensures Show(base, Spend(cache, o)) == Show(base, cache) - {o}
  {
    var r := Spend(cache, o);
    forall x | x in r ensures EntryOk(base, x, r[x]) {
      if x != o { assert EntryOk(base, x, cache[x]); }
    }
    if o in cache { assert EntryOk(base, o, cache[o]); }
  }

  lemma UncacheRefines(base: Utxo, cache: CoinsMap, o: OutPoint)
    requires UtxoOk(base) && CacheOk(base, cache)
    ensures CacheOk(base, Uncache(cache, o)) && Show(base, Uncache(cache, o)) == Show(base, cache)
  {
    if o in cache { assert EntryOk(base, o, cache[o]); }
    forall x | x in Uncache(cache, o) ensures EntryOk(base, x, Uncache(cache, o)[x]) {
      assert EntryOk(base, x, cache[x]);
    }
  }

  /** Flushing a cache into another: the logic_error is unreachable, the parent's flags stay truthful
      for the grandparent, and the parent now shows what the child showed. */
  lemma MergeRefines(base: Utxo, parent: CoinsMap, child: CoinsMap)
    requires UtxoOk(base) && CacheOk(base, parent) && CacheOk(Show(base, parent), child)
    ensures !Misapplied(parent, child)
    ensures CacheOk(base, Merge(parent, child))
    ensures Show(base, Merge(parent, child)) == Show(Show(base, parent), child)
  {
    var mid := Show(base, parent);
    var r := Merge(parent, child);
    forall o | o in child ensures !EntryMisapplied(parent, o, child[o]) {
      assert EntryOk(mid, o, child[o]);
    }
    forall o | o in r ensures EntryOk(base, o, r[o]) {
      if o in parent { assert EntryOk(base, o, parent[o]); }
      if o in child { assert EntryOk(mid, o, child[o]); }
    }
    forall o
      ensures Lookup(Show(base, r), o) == Lookup(Show(mid, child), o)
    {
      if o in parent { assert EntryOk(base, o, parent[o]); }
      if o in child { assert EntryOk(mid, o, child[o]); }
    }
    LookupsAgree(Show(base, r), Show(mid, child));
  }

  lemma LookupsAgree<T>(a: map<OutPoint, T>, b: map<OutPoint, T>)
    requires forall o :: Lookup(a, o) == Lookup(b, o)
    ensures a == b
  {
    forall o ensures o in a <==> o in b { assert Lookup(a, o) == Lookup(b, o); }
    forall o | o in a ensures a[o] == b[o] { assert Lookup(a, o) == Lookup(b, o); }
  }

  lemma MergeDbRefines(db: Utxo, child: CoinsMap)
    requires UtxoOk(db) && CacheOk(db, child)
    ensures MergeDb(db, child) == Show(db, child)
  {
    forall o
      ensures Lookup(MergeDb(db, child), o) == Lookup(Show(db, child), o)
    {
      if o in child { assert EntryOk(db, o, child[o]); }
    }
    LookupsAgree(MergeDb(db, child), Show(db, child));
  }

  // ---------------------------------------------------------------------------------------------
  // A stack of caches
  // ---------------------------------------------------------------------------------------------

  /** What the database and every cache of a stack show; `levels[0]` sits on the database. */
  ghost function Views(db: Utxo, levels: seq<CoinsMap>): (u: seq<Utxo>)
    ensures |u| == |levels| + 1 && u[0] == db
    ensures forall k :: 0 <= k < |levels| ==> u[k + 1] == Show(u[k], levels[k])
  {
    if levels == [] then [db]
    else
      var n := |levels| - 1;
      var below := Views(db, levels[..n]);
      below + [Show(below[n], levels[n])]
  }

  ghost function TopView(db: Utxo, levels: seq<CoinsMap>): Utxo {
    Views(db, levels)[|levels|]
  }

  /** All flags of a stack are truthful. */
  ghost predicate StackOk(db: Utxo, levels: seq<CoinsMap>) {
    UtxoOk(db) && forall k :: 0 <= k < |levels| ==> CacheOk(Views(db, levels)[k], levels[k])
  }

  lemma {:induction false} ViewsUnique(db: Utxo, levels: seq<CoinsMap>, u: seq<Utxo>)
    requires |u| == |levels| + 1 && u[0] == db
    requires forall k :: 0 <= k < |levels| ==> u[k + 1] == Show(u[k], levels[k])
    ensures u == Views(db, levels)
    decreases |levels|
  {
    if levels != [] {
      var n := |levels| - 1;
      ViewsUnique(db, levels[..n], u[..n + 1]);
      assert u == u[..n + 1] + [u[n + 1]];
    }
  }

  lemma {:induction false} ViewsUnspent(db: Utxo, levels: seq<CoinsMap>, k: nat)
    requires UtxoOk(db) && k <= |levels|
    ensures UtxoOk(Views(db, levels)[k])
  {
    if k > 0 { ViewsUnspent(db, levels, k - 1); }
  }

  lemma ViewsOfPrefix(db: Utxo, levels: seq<CoinsMap>, k: nat)
    requires k <= |levels|
    ensures Views(db, levels[..k]) == Views(db, levels)[..k + 1]
    ensures StackOk(db, levels) ==> StackOk(db, levels[..k])
  {
    hide Show, CacheOk, Views;
    ViewsUnique(db, levels[..k], Views(db, levels)[..k + 1]);
  }

  /** CCoinsViewCache::GetCoin on the top of a stack, or the database's GetCoin on an empty one: the new
      levels and the coin found.  A miss in one cache asks the next and keeps a copy on the way back. */
  function GetCoin(db: Utxo, levels: seq<CoinsMap>, o: OutPoint): (r: (seq<CoinsMap>, Option<Coin>))
    ensures |r.0| == |levels|
    decreases |levels|, 1
  {
    if levels == [] then ([], Lookup(db, o))
    else
      var after := FetchCoin(db, levels, o);
      var top := after[|levels| - 1];
      (after, if o in top && !top[o].coin.IsSpent() then Some(top[o].coin) else None)
  }

  /** CCoinsViewCache::FetchCoin: the levels afterwards; the iterator is end() iff the top still lacks `o`. */
  function FetchCoin(db: Utxo, levels: seq<CoinsMap>, o: OutPoint): (r: seq<CoinsMap>)
    requires levels != []
    ensures |r| == |levels|
    decreases |levels|, 0
  {
    var top := levels[|levels| - 1];
    if o in top then levels
    else
      var (below, found) := GetCoin(db, levels[..|levels| - 1], o);
      match found
      case None => below + [top]
      case Some(coin) => below + [top[o := Entry(coin, false, coin.IsSpent())]]
  }

  /** Keeping a copy of what the parent shows is invisible. */
  lemma CopyRefines(base: Utxo, cache: CoinsMap, o: OutPoint)
    requires UtxoOk(base) && CacheOk(base, cache) && o !in cache && o in base
    ensures var r := cache[o := Entry(base[o], false, false)];
            CacheOk(base, r) && Show(base, r) == Show(base, cache)
  {
    var r := cache[o := Entry(base[o], false, false)];
    forall x | x in r ensures EntryOk(base, x, r[x]) {
      if x != o { assert EntryOk(base, x, cache[x]); }
    }
  }

  /** Fetching changes no view at any level, keeps every flag truthful, and finds exactly what is shown. */
  lemma {:induction false} GetCoinRefines(db: Utxo, levels: seq<CoinsMap>, o: OutPoint)
    requires StackOk(db, levels)
    ensures var (after, found) := GetCoin(db, levels, o);
            && StackOk(db, after)
            && Views(db, after) == Views(db, levels)
            && found == Lookup(TopView(db, levels), o)
    decreases |levels|
  {
    if levels != [] {
      var n := |levels| - 1;
      var below, top := levels[..n], levels[n];
      ViewsOfPrefix(db, levels, n);
      var base := TopView(db, below);
      if o in top {
        assert EntryOk(base, o, top[o]);
      } else {
        GetCoinRefines(db, below, o);
        var (below', found) := GetCoin(db, below, o);
        ViewsUnspent(db, below, n);
        if found.Some? { CopyRefines(base, top, o); }
        StackOnTop(db, below', FetchCoin(db, levels, o)[n]);
      }
    }
  }

  /** A truthful cache on top of a truthful stack. */
  lemma StackOnTop(db: Utxo, below: seq<CoinsMap>, top: CoinsMap)
    requires StackOk(db, below) && CacheOk(TopView(db, below), top)
    ensures StackOk(db, below + [top])
    ensures Views(db, below + [top]) == Views(db, below) + [Show(TopView(db, below), top)]
  {
    var s := below + [top];
    assert s[..|below|] == below;
    forall k | 0 <= k < |s| ensures CacheOk(Views(db, s)[k], s[k]) {
      assert Views(db, s)[k] == Views(db, below)[k];
    }
  }

  // ---------------------------------------------------------------------------------------------
  // Runs
  // ---------------------------------------------------------------------------------------------

  datatype Machine = Machine(db: Utxo, levels: seq<CoinsMap>)

  /** What a user of the stack may do.  Fetch and Uncache work on any cache of the stack, the changing
      operations on the top one; PushCache stacks a new empty cache, DropCache forgets the top one. */
  datatype Op =
    | PushCache
    | DropCache
    | Fetch(level: nat, o: OutPoint)
    | UncacheAt(level: nat, o: OutPoint)
    | AddCoin(o: OutPoint, coin: Coin, possibleOverwrite: bool)
    | SpendCoin(o: OutPoint)
    | Flush

  datatype Outcome = Next(m: Machine) | LogicError

  ghost predicate MachineOk(m: Machine) { StackOk(m.db, m.levels) }

  /** One operation of the code. */
  ghost function Step(m: Machine, op: Op): Outcome {
    var n := |m.levels|;
    match op
    case PushCache => Next(m.(levels := m.levels + [map[]]))
    case DropCache => if n == 0 then Next(m) else Next(m.(levels := m.levels[..n - 1]))
    case Fetch(k, o) =>
      if k >= n then Next(m)
      else Next(m.(levels := FetchCoin(m.db, m.levels[..k + 1], o) + m.levels[k + 1..]))
    case UncacheAt(k, o) => if k >= n then Next(m) else Next(m.(levels := m.levels[k := Uncache(m.levels[k], o)]))
    case AddCoin(o, coin, possible) =>
      if n == 0 then Next(m)
      else if AddThrows(m.levels[n - 1], o, coin, possible) then LogicError
      else Next(m.(levels := m.levels[n - 1 := Add(m.levels[n - 1], o, coin, possible)]))
    case SpendCoin(o) =>
      if n == 0 then Next(m)
      else
        var after := FetchCoin(m.db, m.levels, o);
        Next(m.(levels := after[n - 1 := Spend(after[n - 1], o)]))
    case Flush =>
      if n == 0 then Next(m)
      else if n == 1 then Next(Machine(MergeDb(m.db, m.levels[0]), [map[]]))
      else if Misapplied(m.levels[n - 2], m.levels[n - 1]) then LogicError
      else Next(m.(levels := m.levels[n - 2 := Merge(m.levels[n - 2], m.levels[n - 1])][n - 1 := map[]]))
  }

  /** The plain model: one map per level, `u[0]` the database, no flags and no copies. */
  ghost function PlainStep(u: seq<Utxo>, op: Op): seq<Utxo>
    requires u != []
  {
    var n := |u| - 1;
    match op
    case PushCache => u + [u[n]]
    case DropCache => if n == 0 then u else u[..n]
    case Fetch(_, _) => u
    case UncacheAt(_, _) => u
    case AddCoin(o, coin, _) => if n == 0 || IsUnspendable(coin.out.scriptPubKey) then u else u[n := u[n][o := coin]]
    case SpendCoin(o) => if n == 0 then u else u[n := u[n] - {o}]
    case Flush => if n == 0 then u else u[n - 1 := u[n]]
  }

  /** The callers' side of AddCoin: the coin is unspent, and `possibleOverwrite` is only false when no
      unspent coin is shown. */
  ghost predicate Legal(u: seq<Utxo>, op: Op)
    requires u != []
  {
    op.AddCoin? ==> !op.coin.IsSpent() && (op.possibleOverwrite || op.o !in u[|u| - 1])
  }

  /** The map shown at every level. */
  ghost function Plain(m: Machine): seq<Utxo> { Views(m.db, m.levels) }

  /** Replacing caches by ones that show the same over the same parents changes no view. */
  lemma SameShown(db: Utxo, a: seq<CoinsMap>, b: seq<CoinsMap>)
    requires StackOk(db, a) && |a| == |b|
    requires forall k :: 0 <= k < |a| ==> CacheOk(Views(db, a)[k], b[k])
    requires forall k :: 0 <= k < |a| ==> Show(Views(db, a)[k], b[k]) == Show(Views(db, a)[k], a[k])
    ensures StackOk(db, b) && Views(db, b) == Views(db, a)
  {
    hide Show, CacheOk, Views;
    ViewsUnique(db, b, Views(db, a));
  }

  /** Changing the top cache alone leaves the lower views alone. */
  lemma ReplaceTop(m: Machine, top: CoinsMap)
    requires MachineOk(m) && m.levels != [] && CacheOk(Plain(m)[|m.levels| - 1], top)
    ensures var n := |m.levels|;
            var m' := m.(levels := m.levels[n - 1 := top]);
            MachineOk(m') && Plain(m') == Plain(m)[n := Show(Plain(m)[n - 1], top)]
  {
    hide Show, CacheOk, Views;
    var n := |m.levels|;
    ViewsOfPrefix(m.db, m.levels, n - 1);
    StackOnTop(m.db, m.levels[..n - 1], top);
    assert m.levels[n - 1 := top] == m.levels[..n - 1] + [top];
  }

  lemma FetchStepRefines(m: Machine, k: nat, o: OutPoint)
    requires MachineOk(m) && k < |m.levels|
    ensures var m' := m.(levels := FetchCoin(m.db, m.levels[..k + 1], o) + m.levels[k + 1..]);
            MachineOk(m') && Plain(m') == Plain(m)
  {
    hide Show, CacheOk, Views, FetchCoin;
    var low := m.levels[..k + 1];
    ViewsOfPrefix(m.db, m.levels, k + 1);
    GetCoinRefines(m.db, low, o);
    var low' := FetchCoin(m.db, low, o);
    var s := low' + m.levels[k + 1..];
    var u := Plain(m);
    forall j | 0 <= j < |s| ensures CacheOk(u[j], s[j]) && Show(u[j], s[j]) == Show(u[j], m.levels[j]) {
      if j <= k {
        assert u[j] == Views(m.db, low')[j] && u[j + 1] == Views(m.db, low')[j + 1] && s[j] == low'[j];
      }
    }
    SameShown(m.db, m.levels, s);
  }

  lemma UncacheStepRefines(m: Machine, k: nat, o: OutPoint)
    requires MachineOk(m) && k < |m.levels|
    ensures var m' := m.(levels := m.levels[k := Uncache(m.levels[k], o)]);
            MachineOk(m') && Plain(m') == Plain(m)
  {
    hide Show, CacheOk, Views, Uncache;
    ViewsUnspent(m.db, m.levels, k);
    UncacheRefines(Plain(m)[k], m.levels[k], o);
    SameShown(m.db, m.levels, m.levels[k := Uncache(m.levels[k], o)]);
  }

  lemma AddStepRefines(m: Machine, o: OutPoint, coin: Coin, possible: bool)
    requires MachineOk(m) && m.levels != [] && Legal(Plain(m), AddCoin(o, coin, possible))
    ensures Step(m, AddCoin(o, coin, possible)).Next? && MachineOk(Step(m, AddCoin(o, coin, possible)).m)
    ensures Plain(Step(m, AddCoin(o, coin, possible)).m) == PlainStep(Plain(m), AddCoin(o, coin, possible))
  {
    hide Show, CacheOk, Views, Add, AddThrows;
    var n := |m.levels|;
    ViewsUnspent(m.db, m.levels, n - 1);
    AddRefines(Plain(m)[n - 1], m.levels[n - 1], o, coin, possible);
    ReplaceTop(m, Add(m.levels[n - 1], o, coin, possible));
  }

  lemma SpendStepRefines(m: Machine, o: OutPoint)
    requires MachineOk(m) && m.levels != []
    ensures MachineOk(Step(m, SpendCoin(o)).m)
    ensures Plain(Step(m, SpendCoin(o)).m) == PlainStep(Plain(m), SpendCoin(o))
  {
    hide Show, CacheOk, Views, Spend, FetchCoin;
    var n := |m.levels|;
    GetCoinRefines(m.db, m.levels, o);
    FetchLeavesTop(m.db, m.levels, o);
    var mid := m.(levels := FetchCoin(m.db, m.levels, o));
    var top := mid.levels[n - 1];
    SpendRefines(Plain(m)[n - 1], top, o);
    ReplaceTop(mid, Spend(top, o));
  }

  /** After a fetch, anything the parent shows under `o` is in the top cache. */
  lemma FetchLeavesTop(db: Utxo, levels: seq<CoinsMap>, o: OutPoint)
    requires StackOk(db, levels) && levels != []
    ensures o in Views(db, levels)[|levels| - 1] ==> o in FetchCoin(db, levels, o)[|levels| - 1]
  {
    var n := |levels| - 1;
    ViewsOfPrefix(db, levels, n);
    GetCoinRefines(db, levels[..n], o);
  }

  /** Flush: never the logic_error, the level below now shows what the top showed, and so does the top. */
  lemma FlushStepRefines(m: Machine)
    requires MachineOk(m) && m.levels != []
    ensures Step(m, Flush).Next? && MachineOk(Step(m, Flush).m)
    ensures Plain(Step(m, Flush).m) == PlainStep(Plain(m), Flush)
  {
    var n := |m.levels|;
    var u := Plain(m);
    hide Show, Merge, MergeDb, CacheOk, Misapplied, UtxoOk, Views;
    if n == 1 {
      MergeDbRefines(m.db, m.levels[0]);
      ViewsUnspent(m.db, m.levels, 1);
      var db' := MergeDb(m.db, m.levels[0]);
      ShowEmpty(db');
      ViewsUnique(db', [map[]], [db', db']);
    } else {
      ViewsUnspent(m.db, m.levels, n - 2);
      MergeRefines(u[n - 2], m.levels[n - 2], m.levels[n - 1]);
      var s := Step(m, Flush).m.levels;
      ShowEmpty(u[n]);
      ViewsUnique(m.db, s, u[n - 1 := u[n]]);
    }
  }

  lemma PushStepRefines(m: Machine)
    requires MachineOk(m)
    ensures MachineOk(Step(m, PushCache).m)
    ensures Plain(Step(m, PushCache).m) == PlainStep(Plain(m), PushCache)
  {
    var u := Plain(m);
    var top := u[|m.levels|];
    ShowEmpty(top);
    ViewsUnique(m.db, m.levels + [map[]], u + [top]);
  }

  /** One operation: no logic_error, the flags stay truthful, and every level shows its plain map. */
  lemma StepRefines(m: Machine, op: Op)
    requires MachineOk(m) && Legal(Plain(m), op)
    ensures Step(m, op).Next? && MachineOk(Step(m, op).m)
    ensures Plain(Step(m, op).m) == PlainStep(Plain(m), op)
  {
    hide Show, Merge, MergeDb, CacheOk, Misapplied, Views, FetchCoin, Add, Spend, Uncache;
    var n := |m.levels|;
    match op
    case PushCache => PushStepRefines(m);
    case DropCache => if n > 0 { ViewsOfPrefix(m.db, m.levels, n - 1); }
    case Fetch(k, o) => if k < n { FetchStepRefines(m, k, o); }
    case UncacheAt(k, o) => if k < n { UncacheStepRefines(m, k, o); }
    case AddCoin(o, coin, possible) => if n > 0 { AddStepRefines(m, o, coin, possible); }
    case SpendCoin(o) => if n > 0 { SpendStepRefines(m, o); }
    case Flush => if n > 0 { FlushStepRefines(m); }
  }

  ghost function Run(m: Machine, ops: seq<Op>): Outcome
    decreases |ops|
  {
    if ops == [] then Next(m)
    else match Step(m, ops[0])
      case LogicError => LogicError
      case Next(m') => Run(m', ops[1..])
  }

  ghost function PlainRun(u: seq<Utxo>, ops: seq<Op>): seq<Utxo>
    requires u != []
    decreases |ops|
  {
    if ops == [] then u else PlainRun(PlainStep(u, ops[0]), ops[1..])
  }

  ghost predicate LegalRun(u: seq<Utxo>, ops: seq<Op>)
    requires u != []
    decreases |ops|
  {
    ops == [] || (Legal(u, ops[0]) && LegalRun(PlainStep(u, ops[0]), ops[1..]))
  }

  /** Every run over a stack of any depth is a run of plain maps: no exception is thrown, all flags are
      truthful at the end, and each level shows exactly the plain map of that level. */
  lemma {:induction false} RunRefines(m: Machine, ops: seq<Op>)
    requires MachineOk(m) && LegalRun(Plain(m), ops)
    ensures Run(m, ops).Next? && MachineOk(Run(m, ops).m)
    ensures Plain(Run(m, ops).m) == PlainRun(Plain(m), ops)
    decreases |ops|
  {
    if ops != [] {
      StepRefines(m, ops[0]);
      RunRefines(Step(m, ops[0]).m, ops[1..]);
    }
  }
}
