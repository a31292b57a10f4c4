/** CCoinsViewCache as objects: a cache holds a pointer to the view below it and changes its own map,
    flags and memory counter in place.  Every method is tied to the specification in Coins. */
module CoinsView {
  import opened Coins
  import opened Options

  /** The bottom of a stack: the coin database, which never holds a spent coin. */
  class CoinsDB {
    var coins: Utxo
    var bestBlock: nat

    constructor (coins: Utxo, bestBlock: nat)
      ensures this.coins == coins && this.bestBlock == bestBlock
    {
      this.coins, this.bestBlock := coins, bestBlock;
    }

    /** Writes the dirty entries.  A null block hash fails an assertion before anything is written. */
    method BatchWrite(mapCoins: CoinsMap, hashBlock: nat) returns (status: Status)
      modifies this
      ensures status == if hashBlock == NULL_HASH then AssertionFailed else Done
      ensures status.AssertionFailed? ==> coins == old(coins) && bestBlock == old(bestBlock)
      ensures status.Done? ==> coins == MergeDb(old(coins), mapCoins) && bestBlock == hashBlock
    {
      hide MergeDb;
      if hashBlock == NULL_HASH { return AssertionFailed; }
      var rest := mapCoins;
      while rest != map[]
        invariant MergeDb(coins, rest) == MergeDb(old(coins), mapCoins)
        decreases |rest|
      {
        var o :| o in rest;
        MergeDbStep(coins, rest, o);
        if rest[o].isDirty {
          coins := if rest[o].coin.IsSpent() then coins - {o} else coins[o := rest[o].coin];
        }
        rest := rest - {o};
      }
      MergeDbNothing(coins);
      bestBlock := hashBlock;
      status := Done;
    }
  }

  datatype Base = OnDb(db: CoinsDB) | OnCache(view: CoinsViewCache)

  const NULL_HASH: nat := 0

  datatype Status = Done | LogicError | AssertionFailed

  /** The memory counted for a map of cached coins. */
  ghost function Usage(usage: Script -> nat, cache: CoinsMap): int
    decreases |cache|
  {
    if cache == map[] then 0
    else
      var o :| o in cache;
      usage(cache[o].coin.out.scriptPubKey) + Usage(usage, cache - {o})
  }

  /** The sum does not depend on the order in which it is taken. */
  lemma {:induction false} UsageSplit(usage: Script -> nat, cache: CoinsMap, o: OutPoint)
    requires o in cache
    ensures Usage(usage, cache) == usage(cache[o].coin.out.scriptPubKey) + Usage(usage, cache - {o})
    decreases |cache|
  {
    var p :| p in cache && Usage(usage, cache) == usage(cache[p].coin.out.scriptPubKey) + Usage(usage, cache - {p});
    if p != o {
      UsageSplit(usage, cache - {p}, o);
      UsageSplit(usage, cache - {o}, p);
      assert cache - {p} - {o} == cache - {o} - {p};
    }
  }

  lemma UsageUpdate(usage: Script -> nat, cache: CoinsMap, o: OutPoint, e: Entry)
    ensures Usage(usage, cache[o := e]) == Usage(usage, cache - {o}) + usage(e.coin.out.scriptPubKey)
    ensures o !in cache ==> Usage(usage, cache - {o}) == Usage(usage, cache)
  {
    UsageSplit(usage, cache[o := e], o);
    assert cache[o := e] - {o} == cache - {o};
    if o !in cache { assert cache - {o} == cache; }
  }

  class CoinsViewCache {
    const base: Base
    const usage: Script -> nat
    var hashBlock: nat
    var cacheCoins: CoinsMap
    var cachedCoinsUsage: int
    ghost const depth: nat
    ghost const Repr: set<object>

    /** The views below form a chain of distinct objects ending in a database. */
    ghost predicate Linked()
      decreases depth
    {
      && this in Repr && usage([]) == 0
      && match base
         case OnDb(db) => depth == 0 && Repr == {this, db}
         case OnCache(v) => depth == v.depth + 1 && Repr == {this} + v.Repr && this !in v.Repr && v.Linked()
    }

    ghost function Db(): Utxo
      requires Linked()
      reads Repr - {this}
      decreases depth
    {
      match base case OnDb(db) => db.coins case OnCache(v) => v.Db()
    }

    /** The maps of the caches below this one. */
    ghost function Below(): (s: seq<CoinsMap>)
      requires Linked()
      reads Repr - {this}
      ensures |s| == depth
      decreases depth, 0
    {
      match base case OnDb(_) => [] case OnCache(v) => v.Levels()
    }

    /** The maps of this cache and of those below it. */
    ghost function Levels(): (s: seq<CoinsMap>)
      requires Linked()
      reads Repr
      ensures |s| == depth + 1
      decreases depth, 1
    {
      Below() + [cacheCoins]
    }

    ghost function Machine(): Coins.Machine
      requires Linked()
      reads Repr
    {
      Coins.Machine(Db(), Levels())
    }

    /** cachedCoinsUsage is the sum over the cached coins, here and below. */
    ghost predicate Accounted()
      requires Linked()
      reads Repr
      decreases depth
    {
      cachedCoinsUsage == Usage(usage, cacheCoins) && (base.OnCache? ==> base.view.Accounted())
    }

    ghost predicate BelowAccounted()
      requires Linked()
      reads Repr - {this}
    {
      base.OnCache? ==> base.view.Accounted()
    }

    constructor (baseIn: Base, usage: Script -> nat)
      requires baseIn.OnCache? ==> baseIn.view.Linked()
      requires usage([]) == 0
      ensures Linked() && base == baseIn && fresh(this)
      ensures Levels() == Below() + [map[]]
      ensures BelowAccounted() ==> Accounted()
    {
      base, this.usage := baseIn, usage;
      hashBlock, cacheCoins, cachedCoinsUsage := 0, map[], 0;
      depth := match baseIn case OnDb(_) => 0 case OnCache(v) => v.depth + 1;
      Repr := {this} + match baseIn case OnDb(db) => {db} case OnCache(v) => v.Repr;
    }

    /** base->GetCoin. */
    method BaseGetCoin(o: OutPoint) returns (r: Option<Coin>)
      requires Linked()
      modifies Repr - {this}
      ensures Db() == old(Db()) && (Below(), r) == Coins.GetCoin(old(Db()), old(Below()), o)
      ensures old(BelowAccounted()) ==> BelowAccounted()
      decreases depth, 0
    {
      match base {
        case OnDb(db) => r := Lookup(db.coins, o);
        case OnCache(v) => r := v.GetCoin(o);
      }
    }

    method FetchCoin(o: OutPoint) returns (found: bool)
      requires Linked()
      modifies Repr
      ensures Db() == old(Db()) && Levels() == Coins.FetchCoin(old(Db()), old(Levels()), o)
      ensures found == (o in cacheCoins)
      ensures old(Accounted()) ==> Accounted()
      decreases depth, 1
    {
      if o in cacheCoins { return true; }
      assert Levels()[..depth] == Below();
      var tmp := BaseGetCoin(o);
      if tmp.None? { return false; }
      UsageUpdate(usage, cacheCoins, o, Entry(tmp.value, false, tmp.value.IsSpent()));
      cacheCoins := cacheCoins[o := Entry(tmp.value, false, tmp.value.IsSpent())];
      cachedCoinsUsage := cachedCoinsUsage + usage(cacheCoins[o].coin.out.scriptPubKey);
      found := true;
    }

    method GetCoin(o: OutPoint) returns (r: Option<Coin>)
      requires Linked()
      modifies Repr
      ensures Db() == old(Db()) && (Levels(), r) == Coins.GetCoin(old(Db()), old(Levels()), o)
      ensures old(Accounted()) ==> Accounted()
      decreases depth, 2
    {
      var found := FetchCoin(o);
      r := if found && !cacheCoins[o].coin.IsSpent() then Some(cacheCoins[o].coin) else None;
    }

    method HaveCoin(o: OutPoint) returns (have: bool)
      requires Linked()
      modifies Repr
      ensures Db() == old(Db()) && Levels() == Coins.FetchCoin(old(Db()), old(Levels()), o)
      ensures old(MachineOk(Machine())) ==> have == (o in old(TopView(Db(), Levels())))
      ensures old(Accounted()) ==> Accounted()
    {
      hide Views, StackOk;
      ghost var db, levels := Db(), Levels();
      var found := FetchCoin(o);
      have := found && !cacheCoins[o].coin.IsSpent();
      if StackOk(db, levels) { GetCoinRefines(db, levels, o); }
    }

    /** AddCoin.  When it throws, the counter has already lost the old coin: the accounting survives
        exactly when that coin counted nothing. */
    method AddCoin(o: OutPoint, coin: Coin, possibleOverwrite: bool) returns (status: Status)
      requires Linked() && !coin.IsSpent()
      modifies this`cacheCoins, this`cachedCoinsUsage
      ensures status == if AddThrows(old(cacheCoins), o, coin, possibleOverwrite) then Status.LogicError else Done
      ensures status.Done? ==> cacheCoins == Add(old(cacheCoins), o, coin, possibleOverwrite)
      ensures status.LogicError? ==> cacheCoins == old(cacheCoins)
      ensures old(Accounted()) ==>
                (Accounted() <==> status.Done? || usage(old(cacheCoins)[o].coin.out.scriptPubKey) == 0)
    {
      if IsUnspendable(coin.out.scriptPubKey) { return Done; }
      var inserted := o !in cacheCoins;
      var it := if inserted then NEW_ENTRY else cacheCoins[o];
      var newFresh := false;
      if !inserted {
        UsageSplit(usage, cacheCoins, o);
        cachedCoinsUsage := cachedCoinsUsage - usage(it.coin.out.scriptPubKey);
      }
      if !possibleOverwrite {
        if !it.coin.IsSpent() { return Status.LogicError; }
        newFresh := !it.isDirty;
      }
      UsageUpdate(usage, cacheCoins, o, Entry(coin, true, it.isFresh || newFresh));
      cacheCoins := cacheCoins[o := Entry(coin, true, it.isFresh || newFresh)];
      cachedCoinsUsage := cachedCoinsUsage + usage(coin.out.scriptPubKey);
      status := Done;
    }

    /** SpendCoin: true iff an entry was found, and `moved` is the coin it held. */
    method SpendCoin(o: OutPoint) returns (spent: bool, moved: Option<Coin>)
      requires Linked()
      modifies Repr
      ensures Db() == old(Db())
      ensures var after := Coins.FetchCoin(old(Db()), old(Levels()), o);
              && Levels() == after[depth := Spend(after[depth], o)]
              && spent == (o in after[depth])
              && moved == (if spent then Some(after[depth][o].coin) else None)
      ensures old(Accounted()) ==> Accounted()
    {
      var found := FetchCoin(o);
      if !found { return false, None; }
      ghost var below := Below();
      UsageSplit(usage, cacheCoins, o);
      UsageUpdate(usage, cacheCoins, o, Entry(EMPTY_COIN, true, false));
      cachedCoinsUsage := cachedCoinsUsage - usage(cacheCoins[o].coin.out.scriptPubKey);
      moved := Some(cacheCoins[o].coin);
      if cacheCoins[o].isFresh {
        cacheCoins := cacheCoins - {o};
      } else {
        cacheCoins := cacheCoins[o := Entry(EMPTY_COIN, true, false)];
      }
      spent := true;
      assert Below() == below;
    }

    method Uncache(o: OutPoint)
      requires Linked()
      modifies this`cacheCoins, this`cachedCoinsUsage
      ensures cacheCoins == Coins.Uncache(old(cacheCoins), o)
      ensures old(Accounted()) ==> Accounted()
    {
      if o in cacheCoins && !cacheCoins[o].isDirty && !cacheCoins[o].isFresh {
        UsageSplit(usage, cacheCoins, o);
        cachedCoinsUsage := cachedCoinsUsage - usage(cacheCoins[o].coin.out.scriptPubKey);
        cacheCoins := cacheCoins - {o};
      }
    }

    /** The body of BatchWrite's loop: one child entry. */
    method WriteOne(o: OutPoint, e: Entry) returns (status: Status)
      modifies this`cacheCoins, this`cachedCoinsUsage
      ensures status == if EntryMisapplied(old(cacheCoins), o, e) then Status.LogicError else Done
      ensures cacheCoins == if status.Done? then WriteEntry(old(cacheCoins), o, e) else old(cacheCoins)
      ensures cachedCoinsUsage - old(cachedCoinsUsage) == Usage(usage, cacheCoins) - Usage(usage, old(cacheCoins))
    {
      status := Done;
      if !e.isDirty {
        assert WriteEntry(cacheCoins, o, e) == cacheCoins;
        return;
      }
      UsageUpdate(usage, cacheCoins, o,
                  Entry(e.coin, true, EntryAt(cacheCoins, o).isFresh || (o !in cacheCoins && e.isFresh)));
      if o !in cacheCoins {
        if !(e.isFresh && e.coin.IsSpent()) {
          cacheCoins := cacheCoins[o := Entry(e.coin, true, e.isFresh)];
          cachedCoinsUsage := cachedCoinsUsage + usage(e.coin.out.scriptPubKey);
        } else {
          assert cacheCoins - {o} == cacheCoins;
        }
      } else {
        var us := cacheCoins[o];
        if e.isFresh && !us.coin.IsSpent() {
          return Status.LogicError;
        }
        UsageSplit(usage, cacheCoins, o);
        cachedCoinsUsage := cachedCoinsUsage - usage(us.coin.out.scriptPubKey);
        if us.isFresh && e.coin.IsSpent() {
          cacheCoins := cacheCoins - {o};
        } else {
          cacheCoins := cacheCoins[o := Entry(e.coin, true, us.isFresh)];
          cachedCoinsUsage := cachedCoinsUsage + usage(e.coin.out.scriptPubKey);
        }
      }
    }

    /** BatchWrite's loop: a child's map is written entry by entry, in whatever order the hash map yields it, and each
        entry is erased from the child's map once it is written.  When an entry makes it throw, `rest` is left. */
    method WriteAll(mapCoins: CoinsMap) returns (status: Status, rest: CoinsMap)
      modifies this`cacheCoins, this`cachedCoinsUsage
      ensures status == if Misapplied(old(cacheCoins), mapCoins) then Status.LogicError else Done
      ensures status.Done? ==> rest == map[] && cacheCoins == Merge(old(cacheCoins), mapCoins)
      ensures status.LogicError? ==> Stopped(old(cacheCoins), mapCoins, cacheCoins, rest)
      ensures cachedCoinsUsage - old(cachedCoinsUsage) == Usage(usage, cacheCoins) - Usage(usage, old(cacheCoins))
    {
      hide Merge, Misapplied, Usage, WriteEntry, EntryMisapplied, Written;
      rest := mapCoins;
      WrittenNone(cacheCoins, mapCoins);
      while rest != map[]
        invariant Written(old(cacheCoins), mapCoins, cacheCoins, rest)
        invariant Merge(cacheCoins, rest) == Merge(old(cacheCoins), mapCoins)
        invariant Misapplied(cacheCoins, rest) <==> Misapplied(old(cacheCoins), mapCoins)
        invariant cachedCoinsUsage - old(cachedCoinsUsage) == Usage(usage, cacheCoins) - Usage(usage, old(cacheCoins))
        decreases |rest|
      {
        var o :| o in rest;
        MergeStep(cacheCoins, rest, o);
        ghost var before := cacheCoins;
        status := WriteOne(o, rest[o]);
        if !status.Done? { return; }
        WrittenNext(old(cacheCoins), mapCoins, before, rest, o);
        rest := rest - {o};
      }
      MergeNothing(cacheCoins);
      status := Done;
    }

    method BatchWrite(mapCoins: CoinsMap, hashBlockIn: nat) returns (status: Status, rest: CoinsMap)
      requires Linked()
      modifies this`cacheCoins, this`cachedCoinsUsage, this`hashBlock
      ensures Levels() == old(Levels())[depth := cacheCoins]
      ensures status == if Misapplied(old(cacheCoins), mapCoins) then Status.LogicError else Done
      ensures status.Done? ==>
                rest == map[] && cacheCoins == Merge(old(cacheCoins), mapCoins) && hashBlock == hashBlockIn
      ensures status.LogicError? ==>
                Stopped(old(cacheCoins), mapCoins, cacheCoins, rest) && hashBlock == old(hashBlock)
      ensures old(Accounted()) ==> Accounted()
    {
      hide Stopped, Misapplied, Merge;
      status, rest := WriteAll(mapCoins);
      if status.Done? { hashBlock := hashBlockIn; }
    }

    /** What base->BatchWrite makes of this cache's map. */
    ghost function FlushStatus(): Status
      requires Linked()
      reads Repr
    {
      match base
      case OnDb(_) => if hashBlock == NULL_HASH then AssertionFailed else Done
      case OnCache(_) => if Misapplied(Below()[depth - 1], cacheCoins) then Status.LogicError else Done
    }

    /** base->BatchWrite with the whole of this cache.  Over a cache it throws exactly if the flags of this cache and
        the parent's entries do not fit together; over the database it fails exactly if no best block was ever set. */
    method BaseBatchWrite() returns (status: Status, rest: CoinsMap)
      requires Linked()
      modifies Repr - {this}
      ensures status == old(FlushStatus()) && (status.AssertionFailed? || status.LogicError? ==> Db() == old(Db()))
      ensures status.Done? ==>
                rest == map[] && Step(old(Machine()), Coins.Flush) == Next(Coins.Machine(Db(), Below() + [map[]]))
      ensures status.LogicError? ==>
                && Step(old(Machine()), Coins.Flush).LogicError? && depth > 0
                && Below()[..depth - 1] == old(Below())[..depth - 1]
                && Stopped(old(Below())[depth - 1], cacheCoins, Below()[depth - 1], rest)
      ensures status.AssertionFailed? ==> rest == cacheCoins && Below() == old(Below())
      ensures old(BelowAccounted()) ==> BelowAccounted()
    {
      hide Views, StackOk, Misapplied, Merge, PlainStep, Stopped;
      match base {
        case OnDb(db) =>
          assert Levels() == [cacheCoins];
          status := db.BatchWrite(cacheCoins, hashBlock);
          rest := if status.Done? then map[] else cacheCoins;
        case OnCache(v) =>
          FlushOnLevels(Db(), Below(), cacheCoins);
          status, rest := v.BatchWrite(cacheCoins, hashBlock);
      }
    }

    /** Flush.  When the parent throws, the entries it was given before are gone from this cache, though the counter
        still counts them: the accounting survives exactly when they counted nothing.  On a truthful stack there is no
        exception: the parent shows what this cache showed, this cache is empty and shows the same, and no coin
        counts in its memory any more. */
    method Flush() returns (status: Status)
      requires Linked()
      modifies Repr
      ensures status == old(FlushStatus())
      ensures status.Done? ==>
                Step(old(Machine()), Coins.Flush) == Next(Machine()) && cacheCoins == map[] && cachedCoinsUsage == 0
      ensures status.LogicError? ==>
                && Step(old(Machine()), Coins.Flush).LogicError? && depth > 0 && Db() == old(Db())
                && Below()[..depth - 1] == old(Below())[..depth - 1] && cachedCoinsUsage == old(cachedCoinsUsage)
                && Stopped(old(Below())[depth - 1], old(cacheCoins), Below()[depth - 1], cacheCoins)
      ensures status.AssertionFailed? ==> Machine() == old(Machine()) && cachedCoinsUsage == old(cachedCoinsUsage)
      ensures old(MachineOk(Machine())) && !status.AssertionFailed? ==>
                status.Done? && MachineOk(Machine())
                  && Plain(Machine()) == PlainStep(old(Plain(Machine())), Coins.Flush)
      ensures old(Accounted()) ==>
                (Accounted() <==> !status.LogicError? || Usage(usage, old(cacheCoins) - cacheCoins.Keys) == 0)
    {
      hide Views, StackOk, PlainStep, Step, Stopped, FlushStatus;
      if MachineOk(Machine()) { FlushStepRefines(Machine()); }
      ghost var was := cacheCoins;
      var rest: CoinsMap;
      status, rest := BaseBatchWrite();
      cacheCoins := rest;
      if !status.Done? {
        if status.LogicError? { UsageOfRest(usage, old(Below())[depth - 1], was, Below()[depth - 1], rest); }
        return;
      }
      cachedCoinsUsage := 0;
    }

    /** The body of AddCoins' loop: one output. */
    method AddOutput(o: OutPoint, coin: Coin, fCoinbase: bool, check: bool) returns (status: Status)
      requires Linked() && MachineOk(Machine()) && !coin.IsSpent()
      requires check || fCoinbase || o !in Plain(Machine())[depth + 1]
      modifies Repr
      ensures status.Done? && MachineOk(Machine())
      ensures Plain(Machine()) == PlainStep(old(Plain(Machine())), Op.AddCoin(o, coin, true))
      ensures old(Accounted()) ==> Accounted()
    {
      hide Views, Coins.FetchCoin, Show, CacheOk, PlainStep, Add, AddThrows, StackOk;
      var overwrite := fCoinbase;
      ghost var u := Plain(Machine());
      if check {
        GetCoinRefines(Db(), Levels(), o);
        overwrite := HaveCoin(o);
      }
      assert Plain(Machine()) == u;
      ghost var below := Below();
      AddOnTop(Db(), below, cacheCoins, o, coin, overwrite);
      status := AddCoin(o, coin, overwrite);
      assert Levels() == below + [cacheCoins];
    }

    /** AddCoins: every spendable output of a transaction becomes visible, and nothing else changes.
        Without `check` the caller promises that only a coinbase may overwrite. */
    method AddCoins(txid: nat, vout: seq<TxOut>, fCoinbase: bool, fCoinStake: bool, nHeight: nat, check: bool)
      returns (status: Status)
      requires Linked() && MachineOk(Machine())
      requires forall i :: 0 <= i < |vout| ==> vout[i].nValue != -1
      requires check || fCoinbase || NoneShown(Plain(Machine()), txid, 0, |vout|)
      modifies Repr
      ensures status.Done? && MachineOk(Machine())
      ensures Plain(Machine()) == WithOutputs(old(Plain(Machine())), txid, vout, fCoinbase, fCoinStake, nHeight, 0)
      ensures old(Accounted()) ==> Accounted()
    {
      hide Views, StackOk, WithOutputs, NoneShown, PlainStep;
      status := Done;
      var i := 0;
      while i < |vout|
        invariant 0 <= i <= |vout| && MachineOk(Machine()) && status.Done?
        invariant check || fCoinbase || NoneShown(Plain(Machine()), txid, i, |vout|)
        invariant WithOutputs(Plain(Machine()), txid, vout, fCoinbase, fCoinStake, nHeight, i)
                  == WithOutputs(old(Plain(Machine())), txid, vout, fCoinbase, fCoinStake, nHeight, 0)
        invariant old(Accounted()) ==> Accounted()
      {
        ghost var u := Plain(Machine());
        if !check && !fCoinbase { OutputNotShown(u, txid, i, |vout|); }
        OutputStep(u, txid, vout, fCoinbase, fCoinStake, nHeight, i);
        status := AddOutput(OutPoint(txid, i), Coin(vout[i], fCoinbase, nHeight, fCoinStake), fCoinbase, check);
        i := i + 1;
      }
      NoOutputsLeft(Plain(Machine()), txid, vout, fCoinbase, fCoinStake, nHeight);
    }
  }

  /** The top map shows no output of `txid` with an index in the range. */
  ghost predicate NoneShown(u: seq<Utxo>, txid: nat, from: nat, to: nat)
    requires u != []
  {
    forall j: nat :: from <= j < to ==> OutPoint(txid, j) !in u[|u| - 1]
  }

  lemma FlushOnLevels(db: Utxo, below: seq<CoinsMap>, c: CoinsMap)
    requires below != []
    ensures var p := below[|below| - 1];
            Step(Machine(db, below + [c]), Flush)
            == if Misapplied(p, c) then Coins.LogicError
               else Next(Machine(db, below[|below| - 1 := Merge(p, c)] + [map[]]))
  {
    var p := below[|below| - 1];
    var s := below + [c];
    assert s[|s| - 2 := Merge(p, c)][|s| - 1 := map[]] == below[|below| - 1 := Merge(p, c)] + [map[]];
  }

  lemma AddOnTop(db: Utxo, below: seq<CoinsMap>, top: CoinsMap, o: OutPoint, coin: Coin, overwrite: bool)
    requires MachineOk(Machine(db, below + [top])) && !coin.IsSpent()
    requires overwrite || o !in TopView(db, below + [top])
    ensures !AddThrows(top, o, coin, overwrite)
    ensures var m := Machine(db, below + [Add(top, o, coin, overwrite)]);
            MachineOk(m) && Plain(m) == PlainStep(Plain(Machine(db, below + [top])), AddCoin(o, coin, true))
  {
    hide Show, CacheOk, Views, Add, AddThrows;
    var m := Machine(db, below + [top]);
    AddStepRefines(m, o, coin, overwrite);
    assert m.levels[|below| := Add(top, o, coin, overwrite)] == below + [Add(top, o, coin, overwrite)];
  }

  /** `part` holds some of the entries of `whole`. */
  ghost predicate PartOf(part: CoinsMap, whole: CoinsMap) {
    part.Keys <= whole.Keys && forall o :: o in part ==> part[o] == whole[o]
  }

  /** All of the child's map but `rest` has been written, and none of it was misapplied. */
  ghost predicate Written(parent: CoinsMap, child: CoinsMap, parent': CoinsMap, rest: CoinsMap) {
    && PartOf(rest, child) && parent' == Merge(parent, child - rest.Keys) && !Misapplied(parent, child - rest.Keys)
  }

  /** A throw in the middle of BatchWrite: the entries before it were written and erased from the child's map, and the
      one that throws is among those that are left. */
  ghost predicate Stopped(parent: CoinsMap, child: CoinsMap, parent': CoinsMap, rest: CoinsMap) {
    && Written(parent, child, parent', rest) && Misapplied(parent', rest)
    && Merge(parent', rest) == Merge(parent, child)
  }

  lemma WrittenNone(parent: CoinsMap, child: CoinsMap)
    ensures Written(parent, child, parent, child)
  {
    assert child - child.Keys == map[];
    MergeNothing(parent);
  }

  lemma WrittenNext(parent: CoinsMap, child: CoinsMap, parent': CoinsMap, rest: CoinsMap, o: OutPoint)
    requires Written(parent, child, parent', rest) && o in rest && !EntryMisapplied(parent', o, rest[o])
    ensures Written(parent, child, WriteEntry(parent', o, rest[o]), rest - {o})
  {
    hide EntryMisapplied;
    var done, more := child - rest.Keys, child - (rest - {o}).Keys;
    assert more == done[o := child[o]];
    MergeLast(parent, done, o, child[o]);
  }

  /** It does come to that: if an entry is misapplied and another one is iterated first, that other one is gone from the
      child's map when BatchWrite throws. */
  lemma HalfFlushed(parent: CoinsMap, child: CoinsMap, first: OutPoint, bad: OutPoint)
    requires first in child && bad in child && first != bad
    requires EntryMisapplied(parent, bad, child[bad]) && !EntryMisapplied(parent, first, child[first])
    ensures Stopped(parent, child, WriteEntry(parent, first, child[first]), child - {first})
  {
    hide Merge, Written, EntryMisapplied, WriteEntry;
    WrittenNone(parent, child);
    WrittenNext(parent, child, parent, child, first);
    MergeStep(parent, child, first);
  }

  /** Writing some entries and then one more. */
  lemma MergeLast(parent: CoinsMap, done: CoinsMap, o: OutPoint, e: Entry)
    requires o !in done
    ensures Merge(parent, done[o := e]) == WriteEntry(Merge(parent, done), o, e)
    ensures !Misapplied(parent, done) && !EntryMisapplied(Merge(parent, done), o, e) ==>
              !Misapplied(parent, done[o := e])
  {
    var m := Merge(parent, done);
    assert Lookup(m, o) == Lookup(parent, o);
    forall x ensures Lookup(Merge(parent, done[o := e]), x) == Lookup(WriteEntry(m, o, e), x) {
      assert x != o ==> MergedAt(parent, done[o := e], x) == MergedAt(parent, done, x);
    }
    LookupsAgree(Merge(parent, done[o := e]), WriteEntry(m, o, e));
    if Misapplied(parent, done[o := e]) {
      var x :| x in done[o := e] && EntryMisapplied(parent, x, done[o := e][x]);
      if x != o { assert EntryMisapplied(parent, x, done[x]); }
    }
  }

  /** The memory of a map is that of two parts of it together. */
  lemma {:induction false} UsageParts(usage: Script -> nat, whole: CoinsMap, a: CoinsMap)
    requires PartOf(a, whole)
    ensures Usage(usage, whole) == Usage(usage, a) + Usage(usage, whole - a.Keys)
    decreases |a|
  {
    hide Usage;
    if a == map[] {
      assert whole - a.Keys == whole;
      NoUsage(usage);
    } else {
      var o :| o in a;
      UsageSplit(usage, whole, o);
      UsageSplit(usage, a, o);
      UsageParts(usage, whole - {o}, a - {o});
      assert (whole - {o}) - (a - {o}).Keys == whole - a.Keys;
    }
  }

  lemma NoUsage(usage: Script -> nat)
    ensures Usage(usage, map[]) == 0
  {}

  lemma UsageOfRest(usage: Script -> nat, parent: CoinsMap, child: CoinsMap, parent': CoinsMap, rest: CoinsMap)
    requires Stopped(parent, child, parent', rest)
    ensures Usage(usage, child) == Usage(usage, rest) + Usage(usage, child - rest.Keys)
  {
    UsageParts(usage, child, rest);
  }

  lemma MergeNothing(before: CoinsMap)
    ensures Merge(before, map[]) == before && !Misapplied(before, map[])
  {
    forall x ensures Lookup(Merge(before, map[]), x) == Lookup(before, x) {}
    LookupsAgree(Merge(before, map[]), before);
  }

  lemma MergeDbNothing(db: Utxo)
    ensures MergeDb(db, map[]) == db
  {}

  /** Writing one entry and then the others is writing them all. */
  lemma MergeDbStep(db: Utxo, rest: CoinsMap, o: OutPoint)
    requires o in rest
    ensures var e := rest[o];
            var db' := if !e.isDirty then db else if e.coin.IsSpent() then db - {o} else db[o := e.coin];
            MergeDb(db', rest - {o}) == MergeDb(db, rest)
  {
    var e := rest[o];
    var db' := if !e.isDirty then db else if e.coin.IsSpent() then db - {o} else db[o := e.coin];
    forall x ensures Lookup(MergeDb(db', rest - {o}), x) == Lookup(MergeDb(db, rest), x) {}
    LookupsAgree(MergeDb(db', rest - {o}), MergeDb(db, rest));
  }

  lemma MergeStep(cache: CoinsMap, rest: CoinsMap, o: OutPoint)
    requires o in rest
    ensures EntryMisapplied(cache, o, rest[o]) ==> Misapplied(cache, rest)
    ensures !EntryMisapplied(cache, o, rest[o]) ==>
              (Misapplied(WriteEntry(cache, o, rest[o]), rest - {o}) <==> Misapplied(cache, rest))
    ensures Merge(WriteEntry(cache, o, rest[o]), rest - {o}) == Merge(cache, rest)
  {
    var cache' := WriteEntry(cache, o, rest[o]);
    forall x ensures Lookup(Merge(cache', rest - {o}), x) == Lookup(Merge(cache, rest), x) {
      if x == o {
        assert MergedAt(cache', rest - {o}, o) == Lookup(cache', o) == MergedAt(cache, rest, o);
      } else {
        assert MergedAt(cache', rest - {o}, x) == MergedAt(cache, rest, x);
      }
    }
    LookupsAgree(Merge(cache', rest - {o}), Merge(cache, rest));
    forall x | x in rest - {o} ensures EntryMisapplied(cache', x, rest[x]) <==> EntryMisapplied(cache, x, rest[x]) {}
    if !EntryMisapplied(cache, o, rest[o]) && Misapplied(cache, rest) {
      var x :| x in rest && EntryMisapplied(cache, x, rest[x]);
      assert x in rest - {o} && EntryMisapplied(cache', x, (rest - {o})[x]);
    }
  }

  /** The plain maps with a transaction's outputs from index `i` on added to the top one. */
  ghost function WithOutputs(u: seq<Utxo>, txid: nat, vout: seq<TxOut>, fCoinbase: bool, fCoinStake: bool,
                             nHeight: nat, i: nat)
    : (r: seq<Utxo>)
    requires u != [] && i <= |vout|
    ensures |r| == |u|
    decreases |vout| - i
  {
    if i == |vout| then u
    else
      WithOutputs(PlainStep(u, AddCoin(OutPoint(txid, i), Coin(vout[i], fCoinbase, nHeight, fCoinStake), true)),
                  txid, vout, fCoinbase, fCoinStake, nHeight, i + 1)
  }

  lemma OutputNotShown(u: seq<Utxo>, txid: nat, i: nat, to: nat)
    requires u != [] && i < to && NoneShown(u, txid, i, to)
    ensures OutPoint(txid, i) !in u[|u| - 1]
  {}

  lemma NoOutputsLeft(u: seq<Utxo>, txid: nat, vout: seq<TxOut>, fCoinbase: bool, fCoinStake: bool, nHeight: nat)
    requires u != []
    ensures WithOutputs(u, txid, vout, fCoinbase, fCoinStake, nHeight, |vout|) == u
  {}

  /** One output and then the others; the others stay hidden if they were. */
  lemma OutputStep(u: seq<Utxo>, txid: nat, vout: seq<TxOut>, fCoinbase: bool, fCoinStake: bool, nHeight: nat, i: nat)
    requires u != [] && i < |vout|
    ensures var u' := PlainStep(u, AddCoin(OutPoint(txid, i), Coin(vout[i], fCoinbase, nHeight, fCoinStake), true));
            && u' != []
            && WithOutputs(u, txid, vout, fCoinbase, fCoinStake, nHeight, i)
               == WithOutputs(u', txid, vout, fCoinbase, fCoinStake, nHeight, i + 1)
            && (NoneShown(u, txid, i, |vout|) ==> NoneShown(u', txid, i + 1, |vout|))
  {}

  /** After AddCoins the top map shows exactly the spendable outputs of the transaction and, elsewhere,
      what it showed before. */
  lemma {:induction false} OutputsShown(u: seq<Utxo>, txid: nat, vout: seq<TxOut>, fCoinbase: bool, fCoinStake: bool,
                                        nHeight: nat, i: nat, o: OutPoint)
    requires |u| >= 2 && i <= |vout|
    ensures var r := WithOutputs(u, txid, vout, fCoinbase, fCoinStake, nHeight, i);
            && r[..|u| - 1] == u[..|u| - 1]
            && Lookup(r[|u| - 1], o)
               == if o.hash == txid && i <= o.n < |vout| && !IsUnspendable(vout[o.n].scriptPubKey)
                  then Some(Coin(vout[o.n], fCoinbase, nHeight, fCoinStake)) else Lookup(u[|u| - 1], o)
    decreases |vout| - i
  {
    if i < |vout| {
      var u' := PlainStep(u, AddCoin(OutPoint(txid, i), Coin(vout[i], fCoinbase, nHeight, fCoinStake), true));
      OutputsShown(u', txid, vout, fCoinbase, fCoinStake, nHeight, i + 1, o);
    }
  }
}
