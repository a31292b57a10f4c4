/** Block assembly from the memory pool (miner.cpp): greedy selection of ancestor packages, with ancestor totals
    that are patched as transactions enter the block. */
module Miner {
  import opened Sets

  const WITNESS_SCALE_FACTOR := 4
  const MAX_BLOCK_SIGOPS_COST := 80000
  const MAX_CONSECUTIVE_FAILURES := 1000
  const COINBASE_WEIGHT := 4000
  const COINBASE_SIGOPS := 400

  type Id = nat

  datatype Tx = Tx(weight: nat, sigops: nat, fee: int, modFee: int)

  /** The figures of a package: in the pool those of the whole package, in mapModifiedTx those of what is left of it
      (CTxMemPoolModifiedEntry). */
  datatype Figures = Figures(nSize: int, nModFees: int, nSigOps: int)

  /** The pool: its transactions, the proper ancestors of each, and the cached figures of each package. */
  datatype Pool = Pool(txs: map<Id, Tx>, anc: map<Id, set<Id>>, cached: map<Id, Figures>, nBytesPerSigOp: nat)

  /** The ancestor sets are those of an acyclic graph. */
  ghost predicate Acyclic(p: Pool) {
    && p.anc.Keys == p.txs.Keys
    && forall t :: t in p.txs ==> t in p.anc && t !in p.anc[t] && Closed(p, p.anc[t])
  }

  /** The pool is acyclic and its cached totals are right, as CTxMemPool::check demands. */
  ghost predicate ValidPool(p: Pool) {
    && Acyclic(p) && p.cached.Keys == p.txs.Keys
    && forall t :: t in p.txs ==>
         && t in p.anc && t in p.cached
         && p.cached[t].nSize == SizeLeft(p, t, {}) && p.cached[t].nSigOps == SigOpsLeft(p, t, {})
  }

  function TxSize(p: Pool, id: Id): nat {
    if id in p.txs then
      var cost := p.txs[id].sigops * p.nBytesPerSigOp;
      ((if p.txs[id].weight < cost then cost else p.txs[id].weight) + WITNESS_SCALE_FACTOR - 1) / WITNESS_SCALE_FACTOR
    else 0
  }

  function Sizes(p: Pool): Id -> nat { id => TxSize(p, id) }

  function SigOps(p: Pool): Id -> nat { id => if id in p.txs then p.txs[id].sigops else 0 }

  function Weights(p: Pool): Id -> nat { id => if id in p.txs then p.txs[id].weight else 0 }

  /** A transaction with all its ancestors. */
  function Package(p: Pool, id: Id): set<Id>
    requires id in p.anc
  {
    {id} + p.anc[id]
  }

  ghost function SizeLeft(p: Pool, id: Id, b: set<Id>): nat
    requires id in p.anc
  {
    Sum(Sizes(p), Package(p, id) - b)
  }

  ghost function SigOpsLeft(p: Pool, id: Id, b: set<Id>): nat
    requires id in p.anc
  {
    Sum(SigOps(p), Package(p, id) - b)
  }

  ghost predicate Closed(p: Pool, b: set<Id>) {
    forall t :: t in b ==> t in p.anc && p.anc[t] <= b
  }

  type ModifiedSet = map<Id, Figures>

  ghost function Size(mod: ModifiedSet): nat { |mod.Keys| }

  /** An entry's figures when the transactions in b have been accounted for: the totals of what is left, and no
      less even if the entry was dropped after a failure and came back. */
  ghost predicate FiguresOk(p: Pool, id: Id, e: Figures, b: set<Id>, hasFailed: bool) {
    && id in p.anc
    && e.nSize >= SizeLeft(p, id, b) && e.nSigOps >= SigOpsLeft(p, id, b)
    && (!hasFailed ==> e.nSize == SizeLeft(p, id, b) && e.nSigOps == SigOpsLeft(p, id, b))
  }

  /** A package that has lost no transaction to b, although it is neither tracked nor failed. */
  ghost predicate Untouched(p: Pool, id: Id, b: set<Id>) { id in p.anc && p.anc[id] !! b }

  /** mapModifiedTx when b is accounted for and the block holds `taken`: it tracks nothing that is in the block, its
      figures are right, and the pool's own figures are right for every package that it does not track. */
  ghost predicate TracksOk(p: Pool, mod: ModifiedSet, b: set<Id>, failed: set<Id>, taken: set<Id>) {
    && (forall id :: id in mod ==> id in p.txs && id !in taken && FiguresOk(p, id, mod[id], b, id in failed))
    && (forall id :: id in p.txs && id !in mod && id !in failed && id !in taken ==> Untouched(p, id, b))
  }

  // ---------------------------------------------------------------------------------------------
  // Totals of what is left
  // ---------------------------------------------------------------------------------------------

  lemma LeftStep(p: Pool, id: Id, b: set<Id>, it: Id)
    requires id in p.anc && it !in b
    ensures it in Package(p, id) ==>
              && SizeLeft(p, id, b) == SizeLeft(p, id, b + {it}) + TxSize(p, it)
              && SigOpsLeft(p, id, b) == SigOpsLeft(p, id, b + {it}) + SigOps(p)(it)
    ensures it !in Package(p, id) ==>
              SizeLeft(p, id, b) == SizeLeft(p, id, b + {it}) && SigOpsLeft(p, id, b) == SigOpsLeft(p, id, b + {it})
  {
    hide Sum;
    var all := Package(p, id) - b;
    assert Package(p, id) - (b + {it}) == all - {it};
    if it in all {
      SumRemove(Sizes(p), all, it);
      SumRemove(SigOps(p), all, it);
    } else {
      assert all - {it} == all;
    }
  }

  lemma LeftWhole(p: Pool, id: Id, b: set<Id>)
    requires id in p.anc
    ensures SizeLeft(p, id, b) <= SizeLeft(p, id, {}) && SigOpsLeft(p, id, b) <= SigOpsLeft(p, id, {})
    ensures Package(p, id) !! b ==>
              SizeLeft(p, id, b) == SizeLeft(p, id, {}) && SigOpsLeft(p, id, b) == SigOpsLeft(p, id, {})
  {
    hide Sum;
    SumSubset(Sizes(p), Package(p, id) - b, Package(p, id) - {});
    SumSubset(SigOps(p), Package(p, id) - b, Package(p, id) - {});
    if Package(p, id) !! b { assert Package(p, id) - b == Package(p, id) - {}; }
  }

  /** A block that holds a package's remainder grows by at most four times its size. */
  lemma WeightBound(p: Pool, s: set<Id>)
    ensures Sum(Weights(p), s) <= WITNESS_SCALE_FACTOR * Sum(Sizes(p), s)
  {
    hide Sum;
    forall id | id in s ensures Weights(p)(id) <= WITNESS_SCALE_FACTOR * Sizes(p)(id) {}
    SumScaled(Weights(p), Sizes(p), WITNESS_SCALE_FACTOR, s);
  }

  // ---------------------------------------------------------------------------------------------
  // Updating one descendant
  // ---------------------------------------------------------------------------------------------

  /** CalculateDescendants: the transaction itself and everything that builds on it. */
  function Descendants(p: Pool, it: Id): set<Id> {
    {it} + set d | d in p.anc && it in p.anc[d]
  }

  /** The figures without `it`; an entry that is already tracked loses the plain fee, a new one the modified fee. */
  function Without(p: Pool, e: Figures, it: Id, tracked: bool): Figures
    requires it in p.txs
  {
    Figures(e.nSize - TxSize(p, it), e.nModFees - (if tracked then p.txs[it].fee else p.txs[it].modFee),
            e.nSigOps - p.txs[it].sigops)
  }

  function Updated(p: Pool, mod: ModifiedSet, it: Id, desc: Id): Figures
    requires it in p.txs && desc in p.cached
  {
    if desc in mod then Without(p, mod[desc], it, true) else Without(p, p.cached[desc], it, false)
  }

  lemma UpdateEntry(p: Pool, mod: ModifiedSet, b: set<Id>, failed: set<Id>, it: Id, desc: Id)
    requires ValidPool(p) && it in p.txs && it !in b && desc in p.txs && it in p.anc[desc] && desc !in b
    requires desc in mod ==> FiguresOk(p, desc, mod[desc], b, desc in failed)
    requires desc !in mod && desc !in failed ==> Untouched(p, desc, b)
    ensures FiguresOk(p, desc, Updated(p, mod, it, desc), b + {it}, desc in failed)
  {
    hide SizeLeft, SigOpsLeft, TxSize, Acyclic;
    LeftStep(p, desc, b, it);
    LeftWhole(p, desc, b);
  }

  /** An entry that comes back into mapModifiedTx overstates what is left by exactly the ancestors that were already
      in the block: it is exact if and only if they weigh nothing. */
  lemma ReentryExcess(p: Pool, mod: ModifiedSet, b: set<Id>, it: Id, desc: Id)
    requires ValidPool(p) && it in p.txs && it !in b && desc in p.txs && it in p.anc[desc] && desc !in mod
    ensures desc in p.cached && desc in p.anc
    ensures Updated(p, mod, it, desc).nSize == SizeLeft(p, desc, b + {it}) + Sum(Sizes(p), Package(p, desc) * b)
    ensures Updated(p, mod, it, desc).nSigOps == SigOpsLeft(p, desc, b + {it}) + Sum(SigOps(p), Package(p, desc) * b)
  {
    hide Sum, TxSize, Acyclic;
    LeftStep(p, desc, b, it);
    var all := Package(p, desc);
    assert all - {} == (all - b) + all * b;
    SumUnion(Sizes(p), all - b, all * b);
    SumUnion(SigOps(p), all - b, all * b);
  }

  /** Halfway through the descendants of `it`: those in `done` have been updated. */
  ghost predicate Halfway(p: Pool, mod: ModifiedSet, b: set<Id>, failed: set<Id>, taken: set<Id>, it: Id,
                          done: set<Id>) {
    && (forall id :: id in mod ==>
         id in p.txs && id !in taken && FiguresOk(p, id, mod[id], if id in done then b + {it} else b, id in failed))
    && (forall id :: id in p.txs && id !in mod && id !in failed && id !in taken ==> Untouched(p, id, b))
    && (forall id :: id in done ==> id in mod || id in taken)
  }

  lemma HalfwayStart(p: Pool, mod: ModifiedSet, b: set<Id>, failed: set<Id>, taken: set<Id>, it: Id)
    requires TracksOk(p, mod, b, failed, taken)
    ensures Halfway(p, mod, b, failed, taken, it, {})
  {
    hide FiguresOk, Untouched;
  }

  lemma HalfwayStep(p: Pool, mod: ModifiedSet, b: set<Id>, failed: set<Id>, taken: set<Id>, it: Id, done: set<Id>,
                    desc: Id)
    requires ValidPool(p) && Halfway(p, mod, b, failed, taken, it, done)
    requires it in p.txs && it !in b && b <= taken
    requires desc in p.txs && it in p.anc[desc] && desc !in taken && desc !in done
    ensures Halfway(p, mod[desc := Updated(p, mod, it, desc)], b, failed, taken, it, done + {desc})
  {
    hide FiguresOk, Updated, ValidPool, Untouched;
    assert desc in p.cached by { CachedAll(p, desc); }
    UpdateEntry(p, mod, b, failed, it, desc);
    var mod' := mod[desc := Updated(p, mod, it, desc)];
    forall id | id in mod'
      ensures id in p.txs && id !in taken
              && FiguresOk(p, id, mod'[id], if id in done + {desc} then b + {it} else b, id in failed)
    {
      if id != desc { assert id in mod && mod'[id] == mod[id] && (id in done + {desc} <==> id in done); }
    }
    forall id | id in done + {desc} ensures id in mod' || id in taken {}
    forall id | id in p.txs && id !in mod' && id !in failed && id !in taken ensures Untouched(p, id, b) {
      assert id !in mod;
    }
  }

  lemma CachedAll(p: Pool, id: Id)
    requires ValidPool(p) && (id in p.txs || id in p.anc)
    ensures id in p.txs && id in p.cached && id in p.anc
  {
    assert id in p.anc ==> id in p.anc.Keys;
    assert id in p.cached.Keys;
  }

  lemma HalfwayDone(p: Pool, mod: ModifiedSet, b: set<Id>, failed: set<Id>, taken: set<Id>, it: Id, done: set<Id>)
    requires ValidPool(p) && Halfway(p, mod, b, failed, taken, it, done)
    requires it in p.txs && it !in b && it in taken
    requires forall d :: d in p.txs ==> (d in done <==> it in p.anc[d] && d !in taken)
    ensures TracksOk(p, mod, b + {it}, failed, taken)
  {
    hide SizeLeft, SigOpsLeft, Acyclic;
    forall id | id in mod ensures FiguresOk(p, id, mod[id], b + {it}, id in failed) {
      if id !in done {
        LeftStep(p, id, b, it);
        assert it !in Package(p, id);
      }
    }
    forall id | id in p.txs && id !in mod && id !in failed && id !in taken ensures Untouched(p, id, b + {it}) {
      assert Untouched(p, id, b);
      assert id !in done;
    }
  }

  /** Transaction `it` of the package is to be accounted for, after those in b; the block with the package is
      `taken`. */
  ghost predicate Updating(p: Pool, it: Id, added: set<Id>, base: set<Id>, b: set<Id>, taken: set<Id>) {
    && ValidPool(p) && Closed(p, base) && base !! added && it in added && it in p.txs
    && it !in b && b <= taken && taken == base + added
  }

  /** Accounts for `it` in one of its descendants. */
  method UpdateOne(p: Pool, it: Id, desc: Id, mod0: ModifiedSet, ghost added: set<Id>, ghost base: set<Id>,
                   ghost b: set<Id>, ghost taken: set<Id>, ghost failed: set<Id>, ghost done: set<Id>)
    returns (mod: ModifiedSet)
    requires Updating(p, it, added, base, b, taken) && Halfway(p, mod0, b, failed, taken, it, done)
    requires desc in Descendants(p, it) && desc !in added && desc !in done
    ensures Halfway(p, mod, b, failed, taken, it, done + {desc}) && mod.Keys == mod0.Keys + {desc}
  {
    hide FiguresOk, Updated, Untouched, SizeLeft, SigOpsLeft, ValidPool, Closed, Halfway, Descendants;
    DescendantOutside(p, base, added, it, desc);
    HalfwayStep(p, mod0, b, failed, taken, it, done, desc);
    mod := mod0[desc := Updated(p, mod0, it, desc)];
  }

  lemma UpdatedAll(p: Pool, it: Id, mod: ModifiedSet, added: set<Id>, base: set<Id>, b: set<Id>, taken: set<Id>,
                   failed: set<Id>, done: set<Id>)
    requires Updating(p, it, added, base, b, taken) && Halfway(p, mod, b, failed, taken, it, done)
    requires done == Descendants(p, it) - added
    ensures TracksOk(p, mod, b + {it}, failed, taken)
  {
    hide FiguresOk, Updated, Untouched, SizeLeft, SigOpsLeft, ValidPool, Closed, Halfway, Descendants, TracksOk;
    AllDescendants(p, base, added, it, done);
    HalfwayDone(p, mod, b, failed, taken, it, done);
  }

  /** Accounts for `it` in all its descendants outside the block. */
  method UpdateDescendants(p: Pool, it: Id, alreadyAdded: set<Id>, mod0: ModifiedSet,
                           ghost base: set<Id>, ghost b: set<Id>, ghost taken: set<Id>, ghost failed: set<Id>)
    returns (nUpdated: nat, mod: ModifiedSet)
    requires Updating(p, it, alreadyAdded, base, b, taken) && TracksOk(p, mod0, b, failed, taken)
    ensures TracksOk(p, mod, b + {it}, failed, taken)
    ensures nUpdated == |Descendants(p, it) - alreadyAdded| && mod0.Keys <= mod.Keys
  {
    hide Updating, Halfway, Descendants, TracksOk, Done;
    mod, nUpdated := mod0, 0;
    var all := Descendants(p, it);
    var todo := all;
    HalfwayStart(p, mod, b, failed, taken, it);
    DoneAtFirst(all, alreadyAdded);
    while todo != {}
      invariant todo <= all && nUpdated == |Done(all, todo, alreadyAdded)| && mod0.Keys <= mod.Keys
      invariant Halfway(p, mod, b, failed, taken, it, Done(all, todo, alreadyAdded))
    {
      ghost var some := SomeElement(todo);
      var desc :| desc in todo;
      DoneNext(all, todo, alreadyAdded, desc);
      if desc !in alreadyAdded {
        nUpdated := nUpdated + 1;
        mod := UpdateOne(p, it, desc, mod, alreadyAdded, base, b, taken, failed, Done(all, todo, alreadyAdded));
      }
      todo := todo - {desc};
    }
    assert Done(all, {}, alreadyAdded) == all - alreadyAdded by { DoneAtFirst(all, alreadyAdded); }
    UpdatedAll(p, it, mod, alreadyAdded, base, b, taken, failed, Done(all, {}, alreadyAdded));
  }

  /** What has been done of `all` when `todo` is left, without what is passed over. */
  ghost function Done(all: set<Id>, todo: set<Id>, added: set<Id>): set<Id> { all - todo - added }

  lemma DoneAtFirst(all: set<Id>, added: set<Id>)
    ensures Done(all, all, added) == {} && Done(all, {}, added) == all - added
  {}

  lemma DoneNext(all: set<Id>, todo: set<Id>, added: set<Id>, desc: Id)
    requires desc in todo && todo <= all
    ensures var done := Done(all, todo, added);
            && desc !in done && |done + {desc}| == |done| + 1
            && Done(all, todo - {desc}, added) == if desc in added then done else done + {desc}
  {}

  /** The block is ancestor-closed, so what builds on a transaction outside it is outside it. */
  lemma DescendantOutside(p: Pool, base: set<Id>, added: set<Id>, it: Id, desc: Id)
    requires ValidPool(p) && Closed(p, base) && base !! added && it in added
    requires desc in Descendants(p, it) && desc !in added
    ensures desc in p.txs && desc in p.cached && it in p.anc[desc] && desc !in base + added
  {
    hide ValidPool;
    CachedAll(p, desc);
    forall t | t in base ensures t != desc { assert p.anc[t] <= base; }
  }

  lemma AllDescendants(p: Pool, base: set<Id>, added: set<Id>, it: Id, done: set<Id>)
    requires ValidPool(p) && Closed(p, base) && base !! added && it in added && done == Descendants(p, it) - added
    ensures forall d :: d in p.txs ==> d in p.anc && (d in done <==> it in p.anc[d] && d !in base + added)
  {
    hide ValidPool;
    forall d | d in p.txs ensures d in p.anc && (d in done <==> it in p.anc[d] && d !in base + added) {
      CachedAll(p, d);
      assert d in base ==> p.anc[d] <= base;
    }
  }

  method UpdatePackagesForAdded(p: Pool, alreadyAdded: set<Id>, mod0: ModifiedSet, ghost base: set<Id>,
                                ghost failed: set<Id>)
    returns (nDescendantsUpdated: nat, mod: ModifiedSet)
    requires ValidPool(p) && Closed(p, base) && base !! alreadyAdded && alreadyAdded <= p.txs.Keys
    requires TracksOk(p, mod0, base, failed, base + alreadyAdded)
    ensures TracksOk(p, mod, base + alreadyAdded, failed, base + alreadyAdded) && mod0.Keys <= mod.Keys
  {
    hide TracksOk, ValidPool, Closed;
    nDescendantsUpdated, mod := 0, mod0;
    var todo := alreadyAdded;
    assert base + (alreadyAdded - todo) == base;
    while todo != {}
      invariant todo <= alreadyAdded && mod0.Keys <= mod.Keys
      invariant TracksOk(p, mod, base + (alreadyAdded - todo), failed, base + alreadyAdded)
    {
      ghost var some := SomeElement(todo);
      var it :| it in todo;
      ghost var b := base + (alreadyAdded - todo);
      todo := todo - {it};
      assert base + (alreadyAdded - todo) == b + {it};
      assert it in p.txs.Keys;
      var n;
      n, mod := UpdateDescendants(p, it, alreadyAdded, mod, base, b, base + alreadyAdded, failed);
      nDescendantsUpdated := nDescendantsUpdated + n;
    }
    assert base + (alreadyAdded - todo) == base + alreadyAdded;
  }

  // ---------------------------------------------------------------------------------------------
  // The block in order
  // ---------------------------------------------------------------------------------------------

  function Elems(vtx: seq<Id>): set<Id> { set x | x in vtx }

  /** Distinct pool transactions, each after all its ancestors. */
  ghost predicate BlockOk(p: Pool, vtx: seq<Id>) {
    forall k :: 0 <= k < |vtx| ==>
      vtx[k] in p.txs && vtx[k] in p.anc && vtx[k] !in vtx[..k] && p.anc[vtx[k]] <= Elems(vtx[..k])
  }

  lemma BlockOkAppend(p: Pool, vtx: seq<Id>, id: Id)
    requires BlockOk(p, vtx) && id in p.txs && id in p.anc && id !in vtx && p.anc[id] <= Elems(vtx)
    ensures BlockOk(p, vtx + [id]) && Elems(vtx + [id]) == Elems(vtx) + {id}
  {
    var v' := vtx + [id];
    forall k | 0 <= k < |v'|
      ensures v'[k] in p.txs && v'[k] in p.anc && v'[k] !in v'[..k] && p.anc[v'[k]] <= Elems(v'[..k])
    {
      if k < |vtx| { assert v'[..k] == vtx[..k] && v'[k] == vtx[k]; } else { assert v'[..k] == vtx; }
    }
  }

  lemma BlockClosed(p: Pool, vtx: seq<Id>)
    requires BlockOk(p, vtx)
    ensures Closed(p, Elems(vtx))
  {
    forall t | t in Elems(vtx) ensures t in p.anc && p.anc[t] <= Elems(vtx) {
      var k :| 0 <= k < |vtx| && vtx[k] == t;
      assert Elems(vtx[..k]) <= Elems(vtx);
    }
  }

  function Count(p: Pool, id: Id): nat
    requires id in p.anc
  {
    |p.anc[id]| + 1
  }

  /** CompareTxIterByAncestorCount; ids are ordered as the hashes are. */
  predicate Before(p: Pool, a: Id, b: Id)
    requires a in p.anc && b in p.anc
  {
    if Count(p, a) != Count(p, b) then Count(p, a) < Count(p, b) else a < b
  }

  lemma AncestorBefore(p: Pool, a: Id, b: Id)
    requires Acyclic(p) && b in p.txs && a in p.anc[b]
    ensures a in p.anc && Before(p, a, b) && !Before(p, b, a)
  {
    assert Closed(p, p.anc[b]) && a in p.anc;
    assert a in p.anc.Keys;
    assert a !in p.anc[a] && p.anc[a] <= p.anc[b];
    SubsetSize(p.anc[a], p.anc[b] - {a});
  }

  ghost predicate SortedFor(p: Pool, package: set<Id>, sorted: seq<Id>) {
    && Elems(sorted) == package && package <= p.anc.Keys
    && forall i, j :: 0 <= i < j < |sorted| ==>
      sorted[i] in p.anc && sorted[j] in p.anc && Before(p, sorted[i], sorted[j])
  }

  method First(p: Pool, rest: set<Id>) returns (m: Id)
    requires rest != {} && rest <= p.anc.Keys
    ensures m in rest && m in p.anc && forall x :: x in rest && x != m ==> x in p.anc && Before(p, m, x)
  {
    hide Count;
    ghost var some := SomeElement(rest);
    m :| m in rest;
    var todo := rest - {m};
    assert m in p.anc.Keys;
    while todo != {}
      invariant todo <= rest && m in rest && m in p.anc
      invariant forall x :: x in rest && x !in todo && x != m ==> x in p.anc && Before(p, m, x)
    {
      some := SomeElement(todo);
      var y :| y in todo;
      assert y in p.anc.Keys;
      todo := todo - {y};
      if Before(p, y, m) { m := y; }
    }
  }

  method SortForBlock(p: Pool, package: set<Id>) returns (sorted: seq<Id>)
    requires package <= p.anc.Keys
    ensures SortedFor(p, package, sorted)
  {
    hide Before;
    sorted := [];
    var rest := package;
    while rest != {}
      invariant rest <= package && Elems(sorted) == package - rest
      invariant forall i, j :: 0 <= i < j < |sorted| ==>
                  sorted[i] in p.anc && sorted[j] in p.anc && Before(p, sorted[i], sorted[j])
      invariant forall x, y :: x in sorted && y in rest ==> x in p.anc && y in p.anc && Before(p, x, y)
    {
      var m := First(p, rest);
      ghost var was := sorted;
      sorted := sorted + [m];
      rest := rest - {m};
      assert Elems(sorted) == Elems(was) + {m};
    }
    assert package - rest == package;
  }

  lemma SortedElems(p: Pool, package: set<Id>, sorted: seq<Id>)
    requires SortedFor(p, package, sorted)
    ensures Elems(sorted) == package
  {}

  /** In a sorted package every transaction comes after its ancestors that are not yet in the block. */
  lemma SortedAncestors(p: Pool, package: set<Id>, sorted: seq<Id>, b: set<Id>, k: nat)
    requires Acyclic(p) && SortedFor(p, package, sorted) && Closed(p, b + package) && k < |sorted| && b !! package
    ensures sorted[k] in p.txs && sorted[k] in p.anc && p.anc[sorted[k]] <= b + Elems(sorted[..k])
    ensures sorted[k] !in b && sorted[k] !in sorted[..k]
  {
    var t := sorted[k];
    assert t in Elems(sorted) && t in p.anc.Keys;
    forall a | a in p.anc[t] ensures a in b + Elems(sorted[..k]) {
      assert a in b + package;
      if a !in b {
        assert a in Elems(sorted);
        var j :| 0 <= j < |sorted| && sorted[j] == a;
        AncestorBefore(p, a, t);
        assert j < k && sorted[..k][j] == a;
      }
    }
    forall j | 0 <= j < k ensures sorted[j] != t {
      assert Before(p, sorted[j], sorted[k]);
    }
  }

  // ---------------------------------------------------------------------------------------------
  // The assembler
  // ---------------------------------------------------------------------------------------------

  function Fees(p: Pool, vtx: seq<Id>): seq<int>
    requires forall k :: 0 <= k < |vtx| ==> vtx[k] in p.txs
  {
    seq(|vtx|, k requires 0 <= k < |vtx| => p.txs[vtx[k]].fee)
  }

  function SumOf(xs: seq<int>): int {
    if xs == [] then 0 else SumOf(xs[..|xs| - 1]) + xs[|xs| - 1]
  }

  /** One test of a package: the figures it was given, the block at that moment, and whether the entry had been dropped
      after an earlier failure. */
  datatype Tested = Tested(iter: Id, nSize: int, nSigOps: int, inBlock: set<Id>, hadFailed: bool)

  datatype Outcome = Included | DoesNotFit | NotMineable | LowFee

  /** A test, and whether the package was taken. */
  datatype Verdict = Verdict(t: Tested, taken: bool)

  /** Why selection ended: there was nothing left, the best package did not pay enough, or the block was nearly full. */
  datatype Ended = Exhausted | FeeTooLow(iter: Id, e: Figures) | GaveUp

  /** The figures are never below the true totals, and are the true totals unless the entry had failed before. */
  ghost predicate TestedOk(p: Pool, t: Tested) {
    FiguresOk(p, t.iter, Figures(t.nSize, 0, t.nSigOps), t.inBlock, t.hadFailed)
  }

  /** By the figures recorded for it, which are overstated if it had failed before, the package does not fit. */
  ghost predicate Unfit(p: Pool, t: Tested, nMaxWeight: nat) {
    || COINBASE_WEIGHT + Sum(Weights(p), t.inBlock) + WITNESS_SCALE_FACTOR * t.nSize >= nMaxWeight
    || COINBASE_SIGOPS + Sum(SigOps(p), t.inBlock) + t.nSigOps >= MAX_BLOCK_SIGOPS_COST
  }

  /** What a package is refused for: it does not fit, or a transaction it still needs may not be mined. */
  ghost predicate Refusable(p: Pool, t: Tested, nMaxWeight: nat, mineable: Id -> bool)
    requires t.iter in p.anc
  {
    || Unfit(p, t, nMaxWeight)
    || exists x :: x in Package(p, t.iter) - t.inBlock && !mineable(x)
  }

  /** The figures of a test were not too low, and its outcome followed from them: a package that was taken is in the
      block, and one that was not is refused by the figures recorded for it. */
  ghost predicate VerdictOk(p: Pool, v: Verdict, b: set<Id>, nMaxWeight: nat, mineable: Id -> bool) {
    && TestedOk(p, v.t) && v.t.inBlock <= b
    && (if v.taken then Package(p, v.t.iter) <= b else Refusable(p, v.t, nMaxWeight, mineable))
  }

  ghost predicate VerdictsOk(p: Pool, vs: seq<Verdict>, b: set<Id>, nMaxWeight: nat, mineable: Id -> bool) {
    forall k :: 0 <= k < |vs| ==> VerdictOk(p, vs[k], b, nMaxWeight, mineable)
  }

  ghost predicate Refused(vs: seq<Verdict>, id: Id) { exists k :: 0 <= k < |vs| && vs[k].t.iter == id && !vs[k].taken }

  /** The number of packages taken. */
  function TakenCount(vs: seq<Verdict>): nat
    decreases |vs|
  {
    if vs == [] then 0 else TakenCount(vs[..|vs| - 1]) + if vs[|vs| - 1].taken then 1 else 0
  }

  /** The number of packages that did not fit since the last one that was taken. */
  ghost function Misfits(p: Pool, vs: seq<Verdict>, nMaxWeight: nat): nat
    decreases |vs|
  {
    if vs == [] || vs[|vs| - 1].taken then 0
    else Misfits(p, vs[..|vs| - 1], nMaxWeight) + if Unfit(p, vs[|vs| - 1].t, nMaxWeight) then 1 else 0
  }

  lemma MisfitsNext(p: Pool, vs: seq<Verdict>, v: Verdict, nMaxWeight: nat)
    ensures Misfits(p, vs + [v], nMaxWeight)
            == if v.taken then 0 else Misfits(p, vs, nMaxWeight) + if Unfit(p, v.t, nMaxWeight) then 1 else 0
  {
    hide Unfit;
    assert (vs + [v])[..|vs|] == vs;
  }

  lemma NoMisfits(p: Pool, nMaxWeight: nat)
    ensures Misfits(p, [], nMaxWeight) == 0
  {}

  /** If so many did not fit then at least as many of the last tests ended in a refusal. */
  lemma {:induction false} MisfitsRefused(p: Pool, vs: seq<Verdict>, nMaxWeight: nat)
    ensures Misfits(p, vs, nMaxWeight) <= |vs|
    ensures forall k :: |vs| - Misfits(p, vs, nMaxWeight) <= k < |vs| ==> !vs[k].taken
    decreases |vs|
  {
    hide Unfit;
    if vs != [] && !vs[|vs| - 1].taken { MisfitsRefused(p, vs[..|vs| - 1], nMaxWeight); }
  }

  /** Every entry passed in the order is in the block, tracked, or was refused; and so was every entry that failed. */
  ghost predicate Visited(order: seq<Id>, mi: nat, b: set<Id>, mod: ModifiedSet, failed: set<Id>, vs: seq<Verdict>)
    requires mi <= |order|
  {
    && (forall k :: 0 <= k < mi ==> order[k] in b || order[k] in mod || Refused(vs, order[k]))
    && (forall id :: id in failed ==> Refused(vs, id))
  }

  /** One more verdict, on a block that only grows. */
  lemma OneMoreVerdict(p: Pool, vs: seq<Verdict>, v: Verdict, b: set<Id>, b': set<Id>, nMaxWeight: nat,
                       mineable: Id -> bool)
    requires VerdictsOk(p, vs, b, nMaxWeight, mineable) && b <= b' && VerdictOk(p, v, b', nMaxWeight, mineable)
    ensures VerdictsOk(p, vs + [v], b', nMaxWeight, mineable)
    ensures TakenCount(vs + [v]) == TakenCount(vs) + if v.taken then 1 else 0
    ensures forall id :: Refused(vs, id) ==> Refused(vs + [v], id)
    ensures !v.taken ==> Refused(vs + [v], v.t.iter)
  {
    hide TestedOk, Refusable;
    var vs' := vs + [v];
    assert vs'[..|vs|] == vs && vs'[|vs|] == v;
    forall k | 0 <= k < |vs'| ensures VerdictOk(p, vs'[k], b', nMaxWeight, mineable) {
      if k < |vs| { assert vs'[k] == vs[k] && VerdictOk(p, vs[k], b, nMaxWeight, mineable); }
    }
    forall id | Refused(vs, id) ensures Refused(vs', id) {
      var k :| 0 <= k < |vs| && vs[k].t.iter == id && !vs[k].taken;
      assert vs'[k] == vs[k];
    }
  }

  lemma VisitedRefused(order: seq<Id>, mi: nat, b: set<Id>, mod: ModifiedSet, failed: set<Id>, vs: seq<Verdict>,
                       vs': seq<Verdict>, iter: Id, usedMod: bool)
    requires mi <= |order| && Visited(order, mi, b, mod, failed, vs)
             && (forall id :: Refused(vs, id) ==> Refused(vs', id))
    requires Refused(vs', iter) && (!usedMod ==> mi < |order| && order[mi] == iter)
    ensures usedMod ==> Visited(order, mi, b, mod - {iter}, failed + {iter}, vs')
    ensures !usedMod ==> Visited(order, mi + 1, b, mod, failed, vs')
  {
    hide Refused;
  }

  lemma VisitedTaken(order: seq<Id>, mi: nat, b: set<Id>, mod: ModifiedSet, failed: set<Id>, vs: seq<Verdict>,
                     vs': seq<Verdict>, iter: Id, usedMod: bool, package: set<Id>, mod': ModifiedSet)
    requires mi <= |order| && Visited(order, mi, b, mod, failed, vs)
             && (forall id :: Refused(vs, id) ==> Refused(vs', id))
    requires iter in package && mod.Keys - package <= mod'.Keys && (!usedMod ==> mi < |order| && order[mi] == iter)
    ensures Visited(order, if usedMod then mi else mi + 1, b + package, mod', failed, vs')
  {
    hide Refused;
    var mi' := if usedMod then mi else mi + 1;
    forall k | 0 <= k < mi' ensures order[k] in b + package || order[k] in mod' || Refused(vs', order[k]) {
      if k < mi && order[k] in mod && order[k] !in package { assert order[k] in mod.Keys - package; }
    }
  }

  lemma TestFigures(p: Pool, mod: ModifiedSet, b: set<Id>, failed: set<Id>, iter: Id, fUsingModified: bool)
    requires ValidPool(p) && TracksOk(p, mod, b, failed, b) && iter in p.txs && iter !in b
    requires if fUsingModified then iter in mod else iter !in mod && iter !in failed
    ensures iter in p.cached
    ensures var e := if fUsingModified then mod[iter] else p.cached[iter];
            TestedOk(p, Tested(iter, e.nSize, e.nSigOps, b, iter in failed))
  {
    hide SizeLeft, SigOpsLeft, Acyclic;
    CachedAll(p, iter);
    if !fUsingModified {
      assert Untouched(p, iter, b);
      LeftWhole(p, iter, b);
    }
  }

  /** Dropping an entry that failed. */
  lemma DropFailed(p: Pool, mod: ModifiedSet, b: set<Id>, failed: set<Id>, iter: Id)
    requires TracksOk(p, mod, b, failed, b)
    ensures TracksOk(p, mod - {iter}, b, failed + {iter}, b)
  {
    hide SizeLeft, SigOpsLeft, Untouched;
  }

  /** Once a package is in the block, but before its descendants are updated. */
  lemma TakePackage(p: Pool, mod: ModifiedSet, b: set<Id>, failed: set<Id>, package: set<Id>)
    requires TracksOk(p, mod, b, failed, b)
    ensures TracksOk(p, mod - package, b, failed, b + package)
  {
    hide FiguresOk, Untouched;
  }

  lemma PackageClosed(p: Pool, b: set<Id>, iter: Id)
    requires ValidPool(p) && Closed(p, b) && iter in p.txs
    ensures iter in p.anc && Closed(p, b + (p.anc[iter] - b) + {iter}) && p.anc[iter] <= p.txs.Keys
  {
    hide SizeLeft, SigOpsLeft;
    CachedAll(p, iter);
    assert Closed(p, p.anc[iter]);
    var all := b + (p.anc[iter] - b) + {iter};
    forall t | t in all ensures t in p.anc && p.anc[t] <= all {
      assert t in b || t in p.anc[iter] || t == iter;
    }
    forall t | t in p.anc[iter] ensures t in p.txs.Keys { assert t in p.anc; assert t in p.anc.Keys; }
  }

  lemma EmptyBlock(p: Pool)
    ensures BlockOk(p, []) && Elems([]) == {} && Sum(Weights(p), {}) == 0 && Sum(SigOps(p), {}) == 0
  {}

  class BlockAssembler {
    const pool: Pool
    const nBlockMaxWeight: nat
    const mineable: Id -> bool
    const minFee: int -> int
    const better: (Figures, Figures) -> bool

    var vtx: seq<Id>
    var vTxFees: seq<int>
    var nBlockWeight: int
    var nBlockTx: int
    var nBlockSigOpsCost: int
    var nFees: int
    var inBlock: set<Id>

    /** The block is in a valid order and its counters are exact. */
    ghost predicate Valid()
      reads this
    {
      && ValidPool(pool) && BlockOk(pool, vtx) && inBlock == Elems(vtx)
      && vTxFees == Fees(pool, vtx) && nFees == SumOf(vTxFees) && nBlockTx == |vtx|
      && nBlockWeight == COINBASE_WEIGHT + Sum(Weights(pool), inBlock)
      && nBlockSigOpsCost == COINBASE_SIGOPS + Sum(SigOps(pool), inBlock)
    }

    /** Nothing was added, or the limits hold; and everything added may be mined. */
    ghost predicate WithinLimits()
      reads this
    {
      && (inBlock != {} ==> nBlockWeight < nBlockMaxWeight && nBlockSigOpsCost < MAX_BLOCK_SIGOPS_COST)
      && forall t :: t in inBlock ==> mineable(t)
    }

    constructor (p: Pool, maxWeight: nat, mineable: Id -> bool, minFee: int -> int, better: (Figures, Figures) -> bool)
      requires ValidPool(p)
      ensures Valid() && WithinLimits() && vtx == [] && pool == p
      ensures nBlockMaxWeight == maxWeight && this.mineable == mineable
    {
      hide ValidPool, BlockOk, Sum, Weights, SigOps;
      pool, nBlockMaxWeight, this.mineable, this.minFee, this.better := p, maxWeight, mineable, minFee, better;
      vtx, vTxFees, nBlockTx, nFees, inBlock := [], [], 0, 0, {};
      nBlockWeight, nBlockSigOpsCost := COINBASE_WEIGHT, COINBASE_SIGOPS;
      new;
      EmptyBlock(p);
    }

    predicate TestPackage(packageSize: int, packageSigOpsCost: int)
      reads this
    {
      && nBlockWeight + WITNESS_SCALE_FACTOR * packageSize < nBlockMaxWeight
      && nBlockSigOpsCost + packageSigOpsCost < MAX_BLOCK_SIGOPS_COST
    }

    method TestPackageTransactions(package: set<Id>) returns (ok: bool)
      ensures ok == forall t :: t in package ==> mineable(t)
    {
      var todo := package;
      while todo != {}
        invariant todo <= package && forall t :: t in package && t !in todo ==> mineable(t)
      {
        ghost var some := SomeElement(todo);
        var it :| it in todo;
        todo := todo - {it};
        if !mineable(it) { return false; }
      }
      ok := true;
    }

    method OnlyUnconfirmed(testSet: set<Id>) returns (r: set<Id>)
      ensures r == testSet - inBlock
    {
      r := testSet;
      var todo := testSet;
      while todo != {}
        invariant todo <= testSet && r == testSet - (inBlock - todo)
      {
        ghost var some := SomeElement(todo);
        var it :| it in todo;
        todo := todo - {it};
        if it in inBlock { r := r - {it}; }
      }
    }

    method AddToBlock(iter: Id)
      requires Valid() && iter in pool.txs && iter in pool.anc && iter !in inBlock && pool.anc[iter] <= inBlock
      modifies this
      ensures Valid() && vtx == old(vtx) + [iter] && inBlock == old(inBlock) + {iter}
    {
      hide Sum, ValidPool;
      BlockOkAppend(pool, vtx, iter);
      SumInsert(Weights(pool), inBlock, iter);
      SumInsert(SigOps(pool), inBlock, iter);
      vtx := vtx + [iter];
      vTxFees := vTxFees + [pool.txs[iter].fee];
      nBlockWeight := nBlockWeight + pool.txs[iter].weight;
      nBlockTx := nBlockTx + 1;
      nBlockSigOpsCost := nBlockSigOpsCost + pool.txs[iter].sigops;
      nFees := nFees + pool.txs[iter].fee;
      inBlock := inBlock + {iter};
      assert vTxFees[..|vTxFees| - 1] == old(vTxFees);
      assert vTxFees == Fees(pool, vtx);
    }

    /** Adds a sorted package and forgets it in mapModifiedTx. */
    method AddPackage(sorted: seq<Id>, mod0: ModifiedSet, ghost package: set<Id>) returns (mod: ModifiedSet)
      requires Valid() && ValidPool(pool) && SortedFor(pool, package, sorted) && Closed(pool, inBlock + package)
               && inBlock !! package
      modifies this
      ensures Valid() && vtx == old(vtx) + sorted && inBlock == old(inBlock) + package && mod == mod0 - package
    {
      hide ValidPool, Closed, SortedFor, Valid;
      SortedElems(pool, package, sorted);
      mod := mod0;
      for i := 0 to |sorted|
        invariant Valid() && vtx == old(vtx) + sorted[..i] && inBlock == old(inBlock) + Elems(sorted[..i])
        invariant mod == mod0 - Elems(sorted[..i])
      {
        assert Acyclic(pool) by { PoolAcyclic(pool); }
        SortedAncestors(pool, package, sorted, old(inBlock), i);
        AddToBlock(sorted[i]);
        mod := mod - {sorted[i]};
        assert sorted[..i + 1] == sorted[..i] + [sorted[i]];
        assert Elems(sorted[..i + 1]) == Elems(sorted[..i]) + {sorted[i]};
      }
      assert sorted[..|sorted|] == sorted;
    }

    /** What the loop of addPackageTxs keeps. */
    ghost predicate Assembling(mod: ModifiedSet, failed: set<Id>)
      reads this
    {
      Valid() && WithinLimits() && TracksOk(pool, mod, inBlock, failed, inBlock)
    }

    /** A package that passed the test: adds what is left of it, and accounts for it in its descendants. */
    method IncludePackage(iter: Id, ancestors: set<Id>, mod0: ModifiedSet, ghost failed: set<Id>, ghost nSize: int,
                          ghost nSigOps: int)
      returns (mod: ModifiedSet, nUpdated: nat)
      requires Assembling(mod0, failed) && ValidPool(pool) && iter in pool.txs && iter !in inBlock
      requires TestedOk(pool, Tested(iter, nSize, nSigOps, inBlock, iter in failed)) && TestPackage(nSize, nSigOps)
      requires ancestors == pool.anc[iter] - inBlock + {iter} && forall t :: t in ancestors ==> mineable(t)
      modifies this
      ensures Assembling(mod, failed) && mod0.Keys - ancestors <= mod.Keys
      ensures inBlock == old(inBlock) + ancestors && old(vtx) <= vtx && Elems(vtx[|old(vtx)|..]) == ancestors
    {
      hide ValidPool, SortedFor, Sum, BlockOk, TracksOk, TestedOk, Closed, Fees, Elems;
      ghost var b := inBlock;
      assert Closed(pool, b) by { BlockClosed(pool, vtx); }
      PackageClosed(pool, b, iter);
      assert b + ancestors == b + (pool.anc[iter] - b) + {iter};
      assert ancestors <= pool.anc.Keys by { AncestorsKnown(pool, ancestors); }
      var sorted := SortForBlock(pool, ancestors);
      StaysWithin(pool, b, ancestors, iter, nSize, nSigOps, iter in failed, nBlockWeight, nBlockSigOpsCost,
                  nBlockMaxWeight);
      mod := AddPackage(sorted, mod0, ancestors);
      SortedElems(pool, ancestors, sorted);
      assert vtx[|old(vtx)|..] == sorted;
      TakePackage(pool, mod0, b, failed, ancestors);
      nUpdated, mod := UpdatePackagesForAdded(pool, ancestors, mod, b, failed);
    }

    /** With nothing left, everything is in the block or was refused; a low fee and a nearly full block are what they
        say. */
    ghost predicate EndedOk(order: seq<Id>, tests: seq<Verdict>, ended: Ended)
      reads this
    {
      match ended
      case Exhausted => forall k :: 0 <= k < |order| ==> order[k] in inBlock || Refused(tests, order[k])
      case FeeTooLow(iter, e) => e.nModFees < minFee(e.nSize) && iter !in inBlock
      case GaveUp =>
        nBlockWeight > nBlockMaxWeight - 4000 && Misfits(pool, tests, nBlockMaxWeight) > MAX_CONSECUTIVE_FAILURES
    }

    /** Package selection.  `order` is the pool by ancestor score; `tests` records every test made.  If it runs to the
        end, then everything it was given is in the block or was refused by the figures recorded for it. */
    method AddPackageTxs(order: seq<Id>)
      returns (nPackagesSelected: nat, nDescendantsUpdated: nat, ghost tests: seq<Verdict>, ghost ended: Ended)
      requires Valid() && WithinLimits() && forall k :: 0 <= k < |order| ==> order[k] in pool.txs
      modifies this
      ensures Valid() && WithinLimits() && old(vtx) <= vtx
      ensures VerdictsOk(pool, tests, inBlock, nBlockMaxWeight, mineable) && nPackagesSelected == TakenCount(tests)
      ensures EndedOk(order, tests, ended)
    {
      hide ValidPool, BlockOk, Sum, Assembling, Valid, WithinLimits, VerdictsOk, Refused, Visited, TestedOk, TakenCount,
           Outside, Size, Misfits;
      var failedTx: set<Id> := {};
      nPackagesSelected, tests, ended := 0, [], Exhausted;
      var mod: ModifiedSet;
      nDescendantsUpdated, mod := StartTracking();
      var mi := 0;
      var nConsecutiveFailed := 0;
      NothingVisited(pool, order, inBlock, mod, nBlockMaxWeight, mineable);
      NoMisfits(pool, nBlockMaxWeight);
      while mi < |order| || mod != map[]
        invariant 0 <= mi <= |order| && Assembling(mod, failedTx) && old(vtx) <= vtx
        invariant VerdictsOk(pool, tests, inBlock, nBlockMaxWeight, mineable) && nPackagesSelected == TakenCount(tests)
        invariant Visited(order, mi, inBlock, mod, failedTx, tests) && ended.Exhausted?
        invariant nConsecutiveFailed == Misfits(pool, tests, nBlockMaxWeight)
        decreases Outside(), |order| - mi + Size(mod)
      {
        if mi < |order| && (order[mi] in mod || order[mi] in inBlock || order[mi] in failedTx) {
          SkipVisited(order, mi, inBlock, mod, failedTx, tests);
          mi := mi + 1;
          continue;
        }
        var outcome, n;
        outcome, mi, mod, failedTx, n, tests, ended := Round(order, mi, mod, failedTx, tests);
        if outcome.LowFee? { break; }
        if outcome.DoesNotFit? {
          nConsecutiveFailed := nConsecutiveFailed + 1;
          if nConsecutiveFailed > MAX_CONSECUTIVE_FAILURES && nBlockWeight > nBlockMaxWeight - 4000 {
            ended := GaveUp;
            break;
          }
        } else if outcome.Included? {
          nConsecutiveFailed := 0;
          nPackagesSelected := nPackagesSelected + 1;
          nDescendantsUpdated := nDescendantsUpdated + n;
        }
      }
      if ended.Exhausted? { AllVisited(order, inBlock, mod, failedTx, tests); }
      AssemblingOk(mod, failedTx);
    }

    /** Looks at one entry. */
    method Round(order: seq<Id>, mi0: nat, mod0: ModifiedSet, failed0: set<Id>, ghost tests0: seq<Verdict>)
      returns (outcome: Outcome, mi: nat, mod: ModifiedSet, failed: set<Id>, nUpdated: nat, ghost tests: seq<Verdict>,
               ghost ended: Ended)
      requires Assembling(mod0, failed0) && mi0 <= |order| && (mi0 < |order| || mod0 != map[])
      requires forall k :: 0 <= k < |order| ==> order[k] in pool.txs
      requires mi0 < |order| ==> order[mi0] !in mod0 && order[mi0] !in inBlock && order[mi0] !in failed0
      requires VerdictsOk(pool, tests0, inBlock, nBlockMaxWeight, mineable)
               && Visited(order, mi0, inBlock, mod0, failed0, tests0)
      modifies this
      ensures Assembling(mod, failed) && old(vtx) <= vtx && mi <= |order|
      ensures VerdictsOk(pool, tests, inBlock, nBlockMaxWeight, mineable)
      ensures TakenCount(tests) == TakenCount(tests0) + if outcome.Included? then 1 else 0
      ensures if outcome.LowFee? then ended.FeeTooLow? && EndedOk(order, tests, ended)
              else ended.Exhausted? && Visited(order, mi, inBlock, mod, failed, tests)
                   && (Outside() < old(Outside()) || (Outside() == old(Outside()) && Size(mod) - mi < Size(mod0) - mi0))
      ensures outcome.Included? ==> Misfits(pool, tests, nBlockMaxWeight) == 0
      ensures !outcome.Included? ==>
                Misfits(pool, tests, nBlockMaxWeight)
                == Misfits(pool, tests0, nBlockMaxWeight) + if outcome.DoesNotFit? then 1 else 0
    {
      hide ValidPool, BlockOk, Sum, Assembling, Valid, WithinLimits, VerdictsOk, Refused, Visited, TestedOk,
           TakenCount, Size, Misfits;
      var iter, fUsingModified, e := Pick(order, mi0, mod0, failed0);
      mi, mod, failed, nUpdated, tests, ended := mi0, mod0, failed0, 0, tests0, Exhausted;
      if !fUsingModified { mi := mi + 1; }
      if e.nModFees < minFee(e.nSize) {
        outcome, ended := LowFee, FeeTooLow(iter, e);
      } else {
        outcome, mod, failed, nUpdated, tests := Evaluate(iter, e, fUsingModified, mod0, failed0, order, mi0, tests0);
      }
    }

    /** The number of transactions outside the block. */
    ghost function Outside(): nat
      reads this
    {
      |pool.txs.Keys - inBlock|
    }

    lemma AssemblingOk(mod: ModifiedSet, failed: set<Id>)
      requires Assembling(mod, failed)
      ensures Valid() && WithinLimits()
    {}

    /** The entry to look at next, with the figures it is known by. */
    method Pick(order: seq<Id>, mi: nat, mod: ModifiedSet, failed: set<Id>)
      returns (iter: Id, fUsingModified: bool, e: Figures)
      requires Assembling(mod, failed) && mi <= |order| && (mi < |order| || mod != map[])
      requires forall k :: 0 <= k < |order| ==> order[k] in pool.txs
      requires mi < |order| ==> order[mi] !in mod && order[mi] !in inBlock && order[mi] !in failed
      ensures iter in pool.txs && iter in pool.anc && iter !in inBlock && ValidPool(pool)
      ensures if fUsingModified then iter in mod && e == mod[iter]
              else mi < |order| && iter == order[mi] && iter in pool.cached && e == pool.cached[iter]
      ensures TestedOk(pool, Tested(iter, e.nSize, e.nSigOps, inBlock, iter in failed))
    {
      hide ValidPool, BlockOk, Sum, TracksOk, Valid, WithinLimits, TestedOk;
      PoolOk();
      iter, fUsingModified := Choose(order, mi, mod);
      ChosenOutside(mod, failed, iter, fUsingModified);
      TestFigures(pool, mod, inBlock, failed, iter, fUsingModified);
      e := if fUsingModified then mod[iter] else pool.cached[iter];
    }

    /** Tests the package of an entry, and takes or drops it. */
    method Evaluate(iter: Id, e: Figures, fUsingModified: bool, mod0: ModifiedSet, failed0: set<Id>,
                    ghost order: seq<Id>, ghost mi: nat, ghost tests0: seq<Verdict>)
      returns (outcome: Outcome, mod: ModifiedSet, failed: set<Id>, nUpdated: nat, ghost tests: seq<Verdict>)
      requires Assembling(mod0, failed0) && ValidPool(pool) && iter in pool.txs && iter in pool.anc && iter !in inBlock
      requires TestedOk(pool, Tested(iter, e.nSize, e.nSigOps, inBlock, iter in failed0))
      requires mi <= |order| && if fUsingModified then iter in mod0 else mi < |order| && order[mi] == iter
      requires VerdictsOk(pool, tests0, inBlock, nBlockMaxWeight, mineable)
               && Visited(order, mi, inBlock, mod0, failed0, tests0)
      modifies this
      ensures Assembling(mod, failed) && old(vtx) <= vtx
      ensures VerdictsOk(pool, tests, inBlock, nBlockMaxWeight, mineable)
      ensures TakenCount(tests) == TakenCount(tests0) + (if outcome.Included? then 1 else 0) && !outcome.LowFee?
      ensures Visited(order, if fUsingModified then mi else mi + 1, inBlock, mod, failed, tests)
      ensures outcome.Included? ==> Outside() < old(Outside())
      ensures !outcome.Included? ==>
                inBlock == old(inBlock) && if fUsingModified then Size(mod) < Size(mod0) else mod == mod0
      ensures outcome.Included? ==> Misfits(pool, tests, nBlockMaxWeight) == 0
      ensures !outcome.Included? ==>
                Misfits(pool, tests, nBlockMaxWeight)
                == Misfits(pool, tests0, nBlockMaxWeight) + if outcome.DoesNotFit? then 1 else 0
    {
      hide ValidPool, BlockOk, Sum, TracksOk, Valid, WithinLimits, VerdictsOk, Refused, Visited, TestedOk, TakenCount,
           Misfits, Unfit;
      mod, failed, nUpdated := mod0, failed0, 0;
      ghost var t := Tested(iter, e.nSize, e.nSigOps, inBlock, iter in failed0);
      var ancestors := OnlyUnconfirmed(pool.anc[iter]);
      ancestors := ancestors + {iter};
      UnfitIs(t);
      if !TestPackage(e.nSize, e.nSigOps) {
        outcome := DoesNotFit;
      } else {
        var final := TestPackageTransactions(ancestors);
        outcome := if final then Included else NotMineable;
      }
      if outcome.Included? {
        ghost var was := inBlock;
        mod, nUpdated := IncludePackage(iter, ancestors, mod, failed, e.nSize, e.nSigOps);
        OutsideShrinks(pool.txs.Keys, was, inBlock, iter);
        tests := Accept(t, tests0, order, mi, mod0, failed0, fUsingModified, was, ancestors, mod);
      } else {
        tests := Refuse(t, tests0, order, mi, mod0, failed0, fUsingModified);
        if fUsingModified { mod, failed := Drop(mod, failed, iter); }
      }
    }

    /** Records that a package was refused. */
    lemma Refuse(t: Tested, tests: seq<Verdict>, order: seq<Id>, mi: nat, mod: ModifiedSet, failed: set<Id>,
                 usedMod: bool)
      returns (tests': seq<Verdict>)
      requires Valid() && mi <= |order| && t.inBlock == inBlock && TestedOk(pool, t)
      requires !TestPackage(t.nSize, t.nSigOps)
               || exists x :: x in pool.anc[t.iter] - inBlock + {t.iter} && !mineable(x)
      requires t.iter !in inBlock && (!usedMod ==> mi < |order| && order[mi] == t.iter)
      requires VerdictsOk(pool, tests, inBlock, nBlockMaxWeight, mineable)
               && Visited(order, mi, inBlock, mod, failed, tests)
      ensures VerdictsOk(pool, tests', inBlock, nBlockMaxWeight, mineable) && TakenCount(tests') == TakenCount(tests)
      ensures Misfits(pool, tests', nBlockMaxWeight)
              == Misfits(pool, tests, nBlockMaxWeight) + if Unfit(pool, t, nBlockMaxWeight) then 1 else 0
      ensures usedMod ==> Visited(order, mi, inBlock, mod - {t.iter}, failed + {t.iter}, tests')
      ensures !usedMod ==> Visited(order, mi + 1, inBlock, mod, failed, tests')
    {
      hide ValidPool, BlockOk, Sum, TestedOk, VerdictsOk, Visited, Refused, TakenCount, Misfits;
      var v := Verdict(t, false);
      assert t.iter in pool.anc by { TestedKnown(pool, t); }
      assert Refusable(pool, t, nBlockMaxWeight, mineable) by {
        if TestPackage(t.nSize, t.nSigOps) {
          var x :| x in pool.anc[t.iter] - inBlock + {t.iter} && !mineable(x);
          assert x in Package(pool, t.iter) - t.inBlock;
        }
      }
      tests' := tests + [v];
      OneMoreVerdict(pool, tests, v, inBlock, inBlock, nBlockMaxWeight, mineable);
      VisitedRefused(order, mi, inBlock, mod, failed, tests, tests', t.iter, usedMod);
      MisfitsNext(pool, tests, v, nBlockMaxWeight);
    }

    /** The test on the running totals is the one on the block. */
    lemma UnfitIs(t: Tested)
      requires Valid() && t.inBlock == inBlock
      ensures !TestPackage(t.nSize, t.nSigOps) <==> Unfit(pool, t, nBlockMaxWeight)
    {
      hide ValidPool, BlockOk, Sum;
    }

    /** Records that a package was taken. */
    lemma Accept(t: Tested, tests: seq<Verdict>, order: seq<Id>, mi: nat, mod: ModifiedSet, failed: set<Id>,
                 usedMod: bool, was: set<Id>, package: set<Id>, mod': ModifiedSet)
      returns (tests': seq<Verdict>)
      requires mi <= |order| && t.inBlock == was && TestedOk(pool, t)
               && (!usedMod ==> mi < |order| && order[mi] == t.iter)
      requires t.iter in pool.anc && package == pool.anc[t.iter] - was + {t.iter} && inBlock == was + package
      requires mod.Keys - package <= mod'.Keys
      requires VerdictsOk(pool, tests, was, nBlockMaxWeight, mineable) && Visited(order, mi, was, mod, failed, tests)
      ensures VerdictsOk(pool, tests', inBlock, nBlockMaxWeight, mineable)
              && TakenCount(tests') == TakenCount(tests) + 1
      ensures Misfits(pool, tests', nBlockMaxWeight) == 0
      ensures Visited(order, if usedMod then mi else mi + 1, inBlock, mod', failed, tests')
    {
      hide TestedOk, VerdictsOk, Visited, Refused, TakenCount, Refusable, Misfits;
      var v := Verdict(t, true);
      tests' := tests + [v];
      OneMoreVerdict(pool, tests, v, was, inBlock, nBlockMaxWeight, mineable);
      VisitedTaken(order, mi, was, mod, failed, tests, tests', t.iter, usedMod, package, mod');
      MisfitsNext(pool, tests, v, nBlockMaxWeight);
    }

    /** Erases a failed entry, so that the next best one is looked at. */
    method Drop(mod0: ModifiedSet, failed0: set<Id>, iter: Id) returns (mod: ModifiedSet, failed: set<Id>)
      requires Assembling(mod0, failed0) && iter in mod0
      ensures Assembling(mod, failed) && Size(mod) < Size(mod0)
      ensures mod == mod0 - {iter} && failed == failed0 + {iter}
    {
      hide TracksOk, Valid, WithinLimits;
      DropFailed(pool, mod0, inBlock, failed0, iter);
      mod, failed := mod0 - {iter}, failed0 + {iter};
      assert mod.Keys == mod0.Keys - {iter};
    }

    /** The totals of whatever is already in the block are accounted for first. */
    method StartTracking() returns (nUpdated: nat, mod: ModifiedSet)
      requires Valid() && WithinLimits()
      ensures Assembling(mod, {})
    {
      hide ValidPool, Sum;
      BlockClosed(pool, vtx);
      assert TracksOk(pool, map[], {}, {}, {} + inBlock) by { NothingTracked(pool, {} + inBlock); }
      forall t | t in inBlock ensures t in pool.txs.Keys {
        var k :| 0 <= k < |vtx| && vtx[k] == t;
      }
      nUpdated, mod := UpdatePackagesForAdded(pool, inBlock, map[], {}, {});
      assert {} + inBlock == inBlock;
    }

    /** The next entry of the pool, or one of mapModifiedTx; which one of these is best is left open. */
    method Choose(order: seq<Id>, mi: nat, mod: ModifiedSet) returns (iter: Id, fUsingModified: bool)
      requires mi <= |order| && (mi < |order| || mod != map[]) && ValidPool(pool)
      requires forall k :: 0 <= k < |order| ==> order[k] in pool.txs
      ensures fUsingModified ==> iter in mod
      ensures !fUsingModified ==> mi < |order| && iter == order[mi]
    {
      if mod != map[] {
        ghost var some := SomeElement(mod.Keys);
        var modit :| modit in mod;
        if mi < |order| { CachedAll(pool, order[mi]); }
        if mi == |order| || better(mod[modit], pool.cached[order[mi]]) {
          return modit, true;
        }
      }
      return order[mi], false;
    }

    lemma PoolOk()
      requires Valid()
      ensures ValidPool(pool)
    {}

    lemma ChosenOutside(mod: ModifiedSet, failed: set<Id>, iter: Id, fUsingModified: bool)
      requires Assembling(mod, failed)
      requires if fUsingModified then iter in mod else iter in pool.txs && iter !in inBlock
      ensures iter in pool.txs && iter in pool.anc && iter !in inBlock && ValidPool(pool)
    {
      hide Sum, FiguresOk, ValidPool, BlockOk;
      assert iter in pool.txs;
      CachedAll(pool, iter);
    }
  }

  /** The limits still hold once a tested package is in: its figures were not below what is added. */
  lemma StaysWithin(p: Pool, b: set<Id>, package: set<Id>, iter: Id, nSize: int, nSigOps: int, hadFailed: bool,
                    nWeight: int, nCost: int, nMaxWeight: int)
    requires iter in p.anc && iter !in b && package == p.anc[iter] - b + {iter}
    requires TestedOk(p, Tested(iter, nSize, nSigOps, b, hadFailed))
    requires nWeight + WITNESS_SCALE_FACTOR * nSize < nMaxWeight && nCost + nSigOps < MAX_BLOCK_SIGOPS_COST
    requires nWeight == COINBASE_WEIGHT + Sum(Weights(p), b) && nCost == COINBASE_SIGOPS + Sum(SigOps(p), b)
    ensures COINBASE_WEIGHT + Sum(Weights(p), b + package) < nMaxWeight
    ensures COINBASE_SIGOPS + Sum(SigOps(p), b + package) < MAX_BLOCK_SIGOPS_COST
  {
    hide Sum, Weights, SigOps, Sizes;
    assert package == Package(p, iter) - b;
    SumUnion(Weights(p), b, package);
    SumUnion(SigOps(p), b, package);
    WeightBound(p, package);
  }

  lemma NothingVisited(p: Pool, order: seq<Id>, b: set<Id>, mod: ModifiedSet, nMaxWeight: nat, mineable: Id -> bool)
    ensures VerdictsOk(p, [], b, nMaxWeight, mineable) && Visited(order, 0, b, mod, {}, []) && TakenCount([]) == 0
  {}

  lemma SkipVisited(order: seq<Id>, mi: nat, b: set<Id>, mod: ModifiedSet, failed: set<Id>, vs: seq<Verdict>)
    requires mi < |order| && Visited(order, mi, b, mod, failed, vs)
             && (order[mi] in mod || order[mi] in b || order[mi] in failed)
    ensures Visited(order, mi + 1, b, mod, failed, vs)
  {
    hide Refused;
  }

  lemma AllVisited(order: seq<Id>, b: set<Id>, mod: ModifiedSet, failed: set<Id>, vs: seq<Verdict>)
    requires Visited(order, |order|, b, mod, failed, vs) && mod == map[]
    ensures forall k :: 0 <= k < |order| ==> order[k] in b || Refused(vs, order[k])
  {
    hide Refused;
  }

  lemma TestedKnown(p: Pool, t: Tested)
    requires TestedOk(p, t)
    ensures t.iter in p.anc
  {}

  lemma NothingTracked(p: Pool, taken: set<Id>)
    requires ValidPool(p)
    ensures TracksOk(p, map[], {}, {}, taken)
  {
    hide ValidPool;
    forall id | id in p.txs ensures Untouched(p, id, {}) { CachedAll(p, id); }
  }

  lemma AncestorsKnown(p: Pool, s: set<Id>)
    requires ValidPool(p) && s <= p.txs.Keys
    ensures s <= p.anc.Keys
  {}

  lemma OutsideShrinks(all: set<Id>, was: set<Id>, now: set<Id>, iter: Id)
    requires was <= now && iter in now && iter in all && iter !in was
    ensures |all - now| < |all - was|
  {
    SubsetSize(all - now, all - was - {iter});
  }

  lemma PoolAcyclic(p: Pool)
    requires ValidPool(p)
    ensures Acyclic(p)
  {}
}
