/** The block index (chain.cpp, chain.h): blocks linked to their parents, with a skip pointer each, and the active
    chain as a vector. */
module Chain {
  import opened Digits

  // ---------------------------------------------------------------------------------------------
  // Skip heights
  // ---------------------------------------------------------------------------------------------

  /** Bitwise and. */
  function And(x: nat, y: nat): (r: nat)
    ensures r <= x && r <= y
    decreases x
  {
    if x == 0 then 0 else 2 * And(x / 2, y / 2) + (if x % 2 == 1 && y % 2 == 1 then 1 else 0)
  }

  lemma {:induction false} AndSame(x: nat)
    ensures And(x, x) == x
  {
    if x > 0 { AndSame(x / 2); }
  }

  /** n & (n - 1). */
  function InvertLowestOne(n: nat): (r: nat)
    ensures n > 0 ==> r < n
    ensures n == 0 ==> r == 0
  {
    if n == 0 then 0 else And(n, n - 1)
  }

  /** Odd numbers lose one, and even ones what their half loses, twice. */
  lemma {:induction false} InvertLowestOneIs(n: nat)
    requires n > 0
    ensures InvertLowestOne(n) == if n % 2 == 1 then n - 1 else 2 * InvertLowestOne(n / 2)
  {
    if n % 2 == 1 {
      AndSame(n / 2);
    } else {
      InvertLowestOneIs(n / 2);
    }
  }

  /** The height a skip pointer leads back to. */
  function GetSkipHeight(height: nat): (r: nat)
    ensures height > 0 ==> r < height
    ensures height == 0 ==> r == 0
  {
    if height < 2 then 0
    else if height % 2 == 1 then InvertLowestOne(InvertLowestOne(height - 1)) + 1
    else InvertLowestOne(height)
  }

  // ---------------------------------------------------------------------------------------------
  // How many steps a walk takes
  // ---------------------------------------------------------------------------------------------

  /** Whether the walk from w to t follows the skip pointer. */
  predicate TakesSkip(w: nat, t: nat)
    requires w > t
  {
    var skip, skipPrev := GetSkipHeight(w), GetSkipHeight(w - 1);
    skip == t || (skip > t && !(skipPrev < skip - 2 && skipPrev >= t))
  }

  function NextHeight(w: nat, t: nat): (r: nat)
    requires w > t
    ensures t <= r < w
  {
    if TakesSkip(w, t) then GetSkipHeight(w) else w - 1
  }

  /** The number of steps from height w down to height t. */
  ghost function Steps(w: nat, t: nat): nat {
    if w <= t then 0 else 1 + Steps(NextHeight(w, t), t)
  }

  lemma StepsNext(w: nat, t: nat)
    requires w > t
    ensures Steps(w, t) == 1 + Steps(if TakesSkip(w, t) then GetSkipHeight(w) else w - 1, t)
  {
    hide TakesSkip, GetSkipHeight;
  }

  lemma NoSteps(t: nat)
    ensures Steps(t, t) == 0
  {}

  /** The number of ones of a number in binary, and its length. */
  function Ones(n: nat): nat { if n == 0 then 0 else Ones(n / 2) + n % 2 }

  function Bits(n: nat): nat { if n == 0 then 0 else Bits(n / 2) + 1 }

  /** n >> m. */
  function High(n: nat, m: nat): nat { if m == 0 then n else High(n / 2, m - 1) }

  lemma {:induction false} HighMono(a: nat, b: nat, m: nat)
    requires a <= b
    ensures High(a, m) <= High(b, m)
  {
    if m > 0 { HighMono(a / 2, b / 2, m - 1); }
  }

  lemma {:induction false} HighStep(n: nat, m: nat)
    ensures High(n, m + 1) == High(n, m) / 2
  {
    if m > 0 { HighStep(n / 2, m - 1); }
  }

  lemma {:induction false} HighBits(n: nat)
    ensures High(n, Bits(n)) == 0
  {
    if n > 0 { HighBits(n / 2); }
  }

  /** At most m of the ones are in the low m places. */
  lemma {:induction false} OnesHigh(n: nat, m: nat)
    ensures Ones(High(n, m)) <= Ones(n) <= Ones(High(n, m)) + m
    ensures n % 2 == 1 && m > 0 ==> Ones(n) > Ones(High(n, m))
  {
    if m > 0 { OnesHigh(n / 2, m - 1); }
  }

  lemma {:induction false} OnesInvert(n: nat)
    requires n > 0
    ensures Ones(InvertLowestOne(n)) == Ones(n) - 1
    ensures n % 2 == 0 ==> InvertLowestOne(n) % 2 == 0
  {
    hide InvertLowestOne;
    InvertLowestOneIs(n);
    if n % 2 == 0 {
      OnesInvert(n / 2);
      OnesDouble(InvertLowestOne(n / 2));
      OnesDouble(n / 2);
    } else {
      OnesOdd(n);
    }
  }

  /** Clearing the lowest one stays in a block of 2^m if a single step does. */
  lemma {:induction false} InvertStays(n: nat, m: nat)
    requires n > 0 && High(n - 1, m) == High(n, m)
    ensures High(InvertLowestOne(n), m) == High(n, m)
    decreases m
  {
    InvertLowestOneIs(n);
    if m > 0 && n % 2 == 0 {
      assert (n - 1) / 2 == n / 2 - 1;
      InvertStays(n / 2, m - 1);
    }
  }

  /** An odd height: the skip pointer is followed whenever it does not lead too far, and it clears two ones. */
  lemma OddSkip(w: nat, t: nat)
    requires w % 2 == 1 && t < w
    ensures TakesSkip(w, t) <==> GetSkipHeight(w) >= t
    ensures GetSkipHeight(w) > 1 ==> GetSkipHeight(w) % 2 == 1 && Ones(GetSkipHeight(w)) == Ones(w) - 2
  {
    hide InvertLowestOne, Ones;
    if w > 1 {
      var a := InvertLowestOne(w - 1);
      OnesOdd(w);
      OnesInvert(w - 1);
      if a > 0 {
        OnesInvert(a);
        OnesOdd(InvertLowestOne(a) + 1);
      }
    }
  }

  lemma OnesBefore(w: nat)
    requires w % 2 == 0 && w % 8 != 0
    ensures Ones(w - 1) <= Ones(w) + 1
  {
    hide Ones;
    var h := w / 2;
    OnesEven(w);
    if h % 2 == 1 {
      OnesOdd(h);
    } else {
      OnesEven(h);
      OnesOdd(h / 2);
    }
  }

  lemma OnesDouble(n: nat)
    ensures Ones(2 * n) == Ones(n) && Ones(2 * n + 1) == Ones(n) + 1
  {
    assert 2 * n / 2 == n && (2 * n + 1) / 2 == n;
  }

  lemma OnesOdd(n: nat)
    requires n % 2 == 1
    ensures Ones(n - 1) == Ones(n) - 1
  {
    assert (n - 1) / 2 == n / 2;
  }

  lemma OnesEven(n: nat)
    requires n % 2 == 0 && n > 0
    ensures Ones(n - 1) == Ones(n / 2 - 1) + 1 && Ones(n) == Ones(n / 2)
  {
    assert (n - 1) / 2 == n / 2 - 1;
  }

  /** A multiple of eight never leaves its skip pointer for that of the block before it. */
  lemma EightSkips(w: nat)
    requires w > 0 && w % 8 == 0
    ensures GetSkipHeight(w - 1) == w - 7 && GetSkipHeight(w) <= w - 8
  {
    hide InvertLowestOne;
    var x := w / 8;
    EightTimes(x);
    BeforeEight(x);
    assert w == 8 * x;
  }

  lemma BeforeEight(x: nat)
    requires x > 0
    ensures InvertLowestOne(8 * x - 2) == 8 * x - 4 && InvertLowestOne(8 * x - 4) == 8 * x - 8
  {
    hide InvertLowestOne;
    InvertDouble(4 * x - 1);
    InvertLowestOneIs(4 * x - 1);
    InvertDouble(4 * x - 2);
    InvertDouble(2 * x - 1);
    InvertLowestOneIs(2 * x - 1);
  }

  lemma InvertDouble(n: nat)
    requires n > 0
    ensures InvertLowestOne(2 * n) == 2 * InvertLowestOne(n)
  {
    hide InvertLowestOne;
    InvertLowestOneIs(2 * n);
  }

  lemma EightTimes(x: nat)
    requires x > 0
    ensures InvertLowestOne(8 * x) <= 8 * x - 8
  {
    hide InvertLowestOne;
    InvertDouble(4 * x);
    InvertDouble(2 * x);
    InvertDouble(x);
  }

  /** What is left to do in the upper half of a block: steps that stay there lower it. */
  ghost function Effort(w: nat, t: nat, m: nat): int {
    var p := 2 * (Ones(w) - Ones(High(w, m)));
    if w % 2 == 0 then p + 3 else if GetSkipHeight(w) >= t then p else p + 2
  }

  lemma EffortBound(w: nat, t: nat, m: nat)
    requires m > 0
    ensures 0 < Effort(w, t, m) <= 2 * m + 3
  {
    OnesHigh(w, m);
  }

  lemma EffortFalls(w: nat, t: nat, m: nat)
    requires m > 0 && t < w && High(w, m) == High(t, m) + 1 && High(w, m) % 2 == 1
    requires High(NextHeight(w, t), m) == High(w, m)
    ensures Effort(NextHeight(w, t), t, m) < Effort(w, t, m)
  {
    hide InvertLowestOne;
    var v := NextHeight(w, t);
    if w % 2 == 1 {
      OddSkip(w, t);
      if v <= 1 { SmallHigh(v, m); }
      assert w - 1 == 2 * (w / 2);
    } else {
      OnesInvert(w);
      if !TakesSkip(w, t) {
        if GetSkipHeight(w) < t {
          InvertStays(w, m);
          HighMono(GetSkipHeight(w), t, m);
        } else {
          if w % 8 == 0 { EightSkips(w); }
          OnesBefore(w);
        }
      }
    }
  }

  lemma SmallHigh(v: nat, m: nat)
    requires m > 0 && v <= 1
    ensures High(v, m) == 0
  {
    HighMono(v, 1, m);
    if m > 1 { HighMono(0, 0, m - 1); ZeroHigh(m - 1); }
  }

  lemma {:induction false} ZeroHigh(m: nat)
    ensures High(0, m) == 0
  {
    if m > 0 { ZeroHigh(m - 1); }
  }

  /** From the upper half of a block into the lower one, and there. */
  lemma {:induction false} StepsDown(w: nat, t: nat, m: nat)
    requires m > 0 && t < w && High(w, m) == High(t, m) + 1 && High(w, m) % 2 == 1
    ensures Steps(w, t) <= Effort(w, t, m) + m * (m + 2)
    decreases m, w + 1
  {
    hide TakesSkip, GetSkipHeight, Effort;
    var v := NextHeight(w, t);
    EffortBound(w, t, m);
    HighMono(v, w, m);
    HighMono(t, v, m);
    if High(v, m) == High(w, m) {
      EffortFalls(w, t, m);
      StepsDown(v, t, m);
    } else {
      StepsWithin(v, t, m);
    }
  }

  /** Within a block of 2^m. */
  lemma {:induction false} StepsWithin(w: nat, t: nat, m: nat)
    requires t <= w && High(w, m) == High(t, m)
    ensures Steps(w, t) <= m * (m + 2)
    decreases m, 0
  {
    hide TakesSkip, GetSkipHeight, Effort;
    if m > 0 {
      HighStep(w, m - 1);
      HighStep(t, m - 1);
      HighMono(t, w, m - 1);
      assert m * (m + 2) == (m - 1) * (m + 1) + 2 * m + 1;
      if High(w, m - 1) == High(t, m - 1) {
        StepsWithin(w, t, m - 1);
      } else if m == 1 {
        assert w == t + 1 && NextHeight(w, t) == t;
      } else {
        StepsDown(w, t, m - 1);
        EffortBound(w, t, m - 1);
      }
    }
  }

  /** The number of steps is at most quadratic in the length of the height. */
  lemma StepsBound(w: nat, t: nat)
    requires t <= w
    ensures Steps(w, t) <= Bits(w) * (Bits(w) + 2)
  {
    HighBits(w);
    HighMono(t, w, Bits(w));
    StepsWithin(w, t, Bits(w));
  }

  // ---------------------------------------------------------------------------------------------
  // Blocks
  // ---------------------------------------------------------------------------------------------

  class BlockIndex {
    const pprev: BlockIndex?
    const nHeight: nat
    var pskip: BlockIndex?

    constructor (prev: BlockIndex?)
      ensures pprev == prev && pskip == null && nHeight == if prev == null then 0 else prev.nHeight + 1
    {
      pprev := prev;
      nHeight := if prev == null then 0 else prev.nHeight + 1;
      pskip := null;
    }

    /** The ancestor at a height, by way of the skip pointers, and the number of steps it takes.  It works with any
        of the pointers missing; with all of them the steps are few. */
    method GetAncestor(height: int, ghost tree: set<BlockIndex>) returns (r: BlockIndex?, ghost steps: nat)
      requires this in tree && SkipsOk(tree)
      ensures r == if 0 <= height <= nHeight then Walk(this, height) else null
      ensures SkipsBuilt(tree) && 0 <= height <= nHeight ==> steps == Steps(nHeight, height)
      ensures SkipsBuilt(tree) ==> steps <= Bits(nHeight) * (Bits(nHeight) + 2)
    {
      hide Bits, Steps, GetSkipHeight, NextHeight;
      steps := 0;
      if height > nHeight || height < 0 { return null, 0; }
      ghost var built := SkipsBuilt(tree);
      StepsBound(nHeight, height);
      var walk: BlockIndex := this;
      var heightWalk := nHeight;
      while heightWalk > height
        invariant walk in tree && heightWalk == walk.nHeight >= height
        invariant built ==> steps + Steps(heightWalk, height) == Steps(nHeight, height)
        invariant Linked(walk) && Walk(walk, height) == Walk(this, height)
      {
        var heightSkip := GetSkipHeight(heightWalk);
        var heightSkipPrev := GetSkipHeight(heightWalk - 1);
        assert BlockOk(tree, walk);
        steps := steps + 1;
        StepsNext(heightWalk, height);
        WalkWalk(walk, heightWalk - 1, height);
        assert walk.pprev != null && (built ==> walk.pskip != null);
        var follow := walk.pskip != null &&
                      (heightSkip == height
                       || (heightSkip > height && !(heightSkipPrev < heightSkip - 2 && heightSkipPrev >= height)));
        assert built ==> follow == TakesSkip(heightWalk, height);
        if follow {
          WalkWalk(walk, heightSkip, height);
          WalkIn(walk, heightSkip, tree);
          walk := walk.pskip;
          heightWalk := heightSkip;
        } else {
          walk := walk.pprev;
          heightWalk := heightWalk - 1;
        }
      }
      NoSteps(height);
      r := walk;
    }

    method BuildSkip(ghost tree: set<BlockIndex>)
      requires Linked(this) && SkipsOk(tree) && this !in tree && (pprev != null ==> pprev in tree)
      modifies this
      ensures pprev != null ==> pskip == Walk(this, GetSkipHeight(nHeight))
      ensures pprev == null ==> pskip == old(pskip)
    {
      if pprev != null {
        ghost var steps;
        pskip, steps := pprev.GetAncestor(GetSkipHeight(nHeight), tree);
      }
    }
  }

  /** Heights count the steps to the first block. */
  ghost predicate Linked(b: BlockIndex)
    decreases b.nHeight
  {
    if b.pprev == null then b.nHeight == 0 else b.nHeight == b.pprev.nHeight + 1 && Linked(b.pprev)
  }

  /** The ancestor at a height, one parent at a time. */
  ghost function Walk(b: BlockIndex, h: nat): (r: BlockIndex)
    requires Linked(b) && h <= b.nHeight
    ensures Linked(r) && r.nHeight == h
    decreases b.nHeight
  {
    if b.nHeight == h then b else Walk(b.pprev, h)
  }

  lemma {:induction false} WalkWalk(b: BlockIndex, h: nat, g: nat)
    requires Linked(b) && g <= h <= b.nHeight
    ensures Walk(Walk(b, h), g) == Walk(b, g)
    decreases b.nHeight
  {
    if h < b.nHeight { WalkWalk(b.pprev, h, g); }
  }

  lemma {:induction false} WalkParent(b: BlockIndex, h: nat)
    requires Linked(b) && 0 < h <= b.nHeight
    ensures Walk(b, h).pprev == Walk(b, h - 1)
    decreases b.nHeight
  {
    if h < b.nHeight { WalkParent(b.pprev, h); }
  }

  /** A block's parent is in the tree, and its skip pointer is the ancestor at its skip height. */
  ghost predicate BlockOk(tree: set<BlockIndex>, b: BlockIndex)
    reads b
  {
    && Linked(b) && (b.pprev != null ==> b.pprev in tree)
    && (b.pskip != null ==> b.nHeight > 0 && b.pskip == Walk(b, GetSkipHeight(b.nHeight)))
  }

  /** Every block but a first one has its skip pointer. */
  ghost predicate SkipsBuilt(tree: set<BlockIndex>)
    reads tree
  {
    forall b :: b in tree && b.pskip == null ==> b.pprev == null
  }

  ghost predicate SkipsOk(tree: set<BlockIndex>)
    reads tree
  {
    forall b :: b in tree ==> BlockOk(tree, b)
  }

  lemma {:induction false} WalkIn(b: BlockIndex, h: nat, tree: set<BlockIndex>)
    requires Linked(b) && h <= b.nHeight && b in tree && SkipsOk(tree)
    ensures Walk(b, h) in tree
    decreases b.nHeight
  {
    if h < b.nHeight {
      assert BlockOk(tree, b);
      WalkIn(b.pprev, h, tree);
    }
  }

  /** A tree of blocks, grown by linking a child and building its skip pointer. */
  class BlockTree {
    ghost var blocks: set<BlockIndex>

    ghost predicate Valid()
      reads this, blocks
    {
      SkipsOk(blocks) && forall b :: b in blocks ==> (b.pskip == null <==> b.pprev == null)
    }

    constructor ()
      ensures Valid() && blocks == {}
    {
      blocks := {};
    }

    method AddBlock(prev: BlockIndex?) returns (b: BlockIndex)
      requires Valid() && (prev != null ==> prev in blocks)
      modifies this
      ensures Valid() && fresh(b) && blocks == old(blocks) + {b} && b.pprev == prev && Linked(b)
      ensures prev != null ==> b.pskip == Walk(b, GetSkipHeight(b.nHeight))
    {
      b := new BlockIndex(prev);
      if prev != null { assert BlockOk(blocks, prev); }
      b.BuildSkip(blocks);
      ghost var tree := blocks + {b};
      forall x | x in tree ensures BlockOk(tree, x) && (x.pskip == null <==> x.pprev == null) {
        if x != b { assert BlockOk(blocks, x); }
      }
      blocks := tree;
    }
  }

  // ---------------------------------------------------------------------------------------------
  // Last common ancestor
  // ---------------------------------------------------------------------------------------------

  /** x is b or an ancestor of b. */
  ghost predicate OnBranch(x: BlockIndex, b: BlockIndex) {
    Linked(b) && x.nHeight <= b.nHeight && Walk(b, x.nHeight) == x
  }

  /** The highest block on both branches, or nothing if they share none. */
  ghost predicate HighestShared(r: BlockIndex?, a: BlockIndex, b: BlockIndex)
    requires Linked(a) && Linked(b)
  {
    && (r != null ==> OnBranch(r, a) && OnBranch(r, b))
    && forall h: nat :: h <= a.nHeight && h <= b.nHeight && Walk(a, h) == Walk(b, h) ==> r != null && h <= r.nHeight
  }

  /** The branches differ at every height above h. */
  ghost predicate ApartAbove(a: BlockIndex, b: BlockIndex, h: int)
    requires Linked(a) && Linked(b)
  {
    forall g: nat :: h < g <= a.nHeight && g <= b.nHeight ==> Walk(a, g) != Walk(b, g)
  }

  /** One parent further down both branches. */
  lemma StepDown(a: BlockIndex, b: BlockIndex, h: nat)
    requires Linked(a) && Linked(b) && h <= a.nHeight && h <= b.nHeight && ApartAbove(a, b, h)
             && Walk(a, h) != Walk(b, h)
    ensures ApartAbove(a, b, h - 1)
    ensures h == 0 ==> Walk(a, h).pprev == null && Walk(b, h).pprev == null
    ensures h > 0 ==> Walk(a, h).pprev == Walk(a, h - 1) && Walk(b, h).pprev == Walk(b, h - 1)
  {
    if h > 0 {
      WalkParent(a, h);
      WalkParent(b, h);
    }
    forall g: nat | h - 1 < g <= a.nHeight && g <= b.nHeight ensures Walk(a, g) != Walk(b, g) {}
  }

  method LastCommonAncestor(a: BlockIndex, b: BlockIndex, ghost tree: set<BlockIndex>) returns (r: BlockIndex?)
    requires a in tree && b in tree && SkipsOk(tree)
    ensures Linked(a) && Linked(b) && HighestShared(r, a, b)
  {
    hide HighestShared, Steps, Bits;
    assert BlockOk(tree, a) && BlockOk(tree, b);
    var pa: BlockIndex?, pb: BlockIndex? := a, b;
    ghost var steps;
    if a.nHeight > b.nHeight {
      pa, steps := a.GetAncestor(b.nHeight, tree);
    } else if b.nHeight > a.nHeight {
      pb, steps := b.GetAncestor(a.nHeight, tree);
    }
    ghost var h: int := if a.nHeight < b.nHeight then a.nHeight else b.nHeight;
    assert ApartAbove(a, b, h);
    while pa != pb && pa != null && pb != null
      invariant -1 <= h <= a.nHeight && h <= b.nHeight
      invariant if h == -1 then pa == null && pb == null else pa == Walk(a, h) && pb == Walk(b, h)
      invariant ApartAbove(a, b, h)
      decreases h
    {
      StepDown(a, b, h);
      pa := pa.pprev;
      pb := pb.pprev;
      h := h - 1;
    }
    assert pa == pb;
    r := pa;
    SharedFound(a, b, r, h);
  }

  lemma SharedFound(a: BlockIndex, b: BlockIndex, r: BlockIndex?, h: int)
    requires Linked(a) && Linked(b) && -1 <= h <= a.nHeight && h <= b.nHeight && (r == null <==> h == -1)
    requires r != null ==> r == Walk(a, h) && r == Walk(b, h)
    requires ApartAbove(a, b, h)
    ensures HighestShared(r, a, b)
  {}

  // ---------------------------------------------------------------------------------------------
  // The active chain
  // ---------------------------------------------------------------------------------------------

  /** The branch of a block, as a vector by height. */
  ghost predicate IsBranch(v: seq<BlockIndex?>, tip: BlockIndex) {
    Linked(tip) && |v| == tip.nHeight + 1 && forall i :: 0 <= i < |v| ==> v[i] == Walk(tip, i)
  }

  /** The heights a locator lists, going back from h: single steps at first, then steps that double. */
  function LocatorHeights(h: nat, nStep: nat, have: nat): seq<nat>
    requires nStep > 0
    decreases h
  {
    if h == 0 then [0]
    else
      var next := if h - nStep < 0 then 0 else h - nStep;
      [h] + LocatorHeights(next, if have + 1 > 10 then 2 * nStep else nStep, have + 1)
  }

  /** A locator starts at its block, goes strictly down, and ends at the first block. */
  lemma {:induction false} LocatorGoesDown(h: nat, nStep: nat, have: nat)
    requires nStep > 0
    ensures var hs := LocatorHeights(h, nStep, have);
            && hs != [] && hs[0] == h && hs[|hs| - 1] == 0
            && forall i, j :: 0 <= i < j < |hs| ==> hs[i] > hs[j]
    decreases h
  {
    if h > 0 {
      var next := if h - nStep < 0 then 0 else h - nStep;
      var step' := if have + 1 > 10 then 2 * nStep else nStep;
      LocatorGoesDown(next, step', have + 1);
      var rest := LocatorHeights(next, step', have + 1);
      assert forall j :: 0 <= j < |rest| ==> rest[j] <= rest[0] < h;
    }
  }

  /** The first twelve entries are consecutive. */
  lemma {:induction false} LocatorNear(h: nat, have: nat, i: nat)
    requires have + i <= 11 && i <= h
    ensures var hs := LocatorHeights(h, 1, have); i < |hs| && hs[i] == h - i
    decreases i
  {
    if i > 0 {
      if have + 1 > 10 {
        LocatorGoesDown(h - 1, 2, have + 1);
      } else {
        LocatorNear(h - 1, have + 1, i - 1);
      }
    }
  }

  lemma {:induction false} BitsMono(a: nat, b: nat)
    requires a <= b
    ensures Bits(a) <= Bits(b)
  {
    if a > 0 { BitsMono(a / 2, b / 2); }
  }

  lemma DoubledStep(h: nat, nStep: nat)
    requires 0 < nStep <= h
    ensures Bits((h - nStep) / (2 * nStep)) < Bits(h / nStep)
  {
    hide Bits;
    DivModSplit(h, nStep);
    DivModUnique(h - nStep, nStep, h / nStep - 1, h % nStep);
    DivDiv(h - nStep, nStep, 2);
    QuotientPositive(h, nStep);
    BitsMono((h / nStep - 1) / 2, h / nStep / 2);
    BitsHalf(h / nStep);
  }

  lemma QuotientPositive(h: nat, d: nat)
    requires 0 < d <= h
    ensures h / d > 0
  {
    DivModSplit(h, d);
  }

  lemma BitsHalf(n: nat)
    requires n > 0
    ensures Bits(n) == Bits(n / 2) + 1
  {}

  /** Once the steps double. */
  lemma {:induction false} LocatorTail(h: nat, nStep: nat, have: nat)
    requires nStep > 0 && have >= 10
    ensures |LocatorHeights(h, nStep, have)| <= 2 + Bits(h / nStep)
    decreases h
  {
    hide Bits;
    if h > 0 {
      var next := if h - nStep < 0 then 0 else h - nStep;
      if next == 0 {
        assert LocatorHeights(0, 2 * nStep, have + 1) == [0];
      } else {
        LocatorTail(next, 2 * nStep, have + 1);
        DoubledStep(h, nStep);
      }
    }
  }

  /** A locator is as short as the height is in binary, but for the entries near its start. */
  lemma {:induction false} LocatorShort(h: nat, have: nat)
    requires have <= 10
    ensures |LocatorHeights(h, 1, have)| <= 12 - have + Bits(h)
    decreases h
  {
    hide Bits;
    if have == 10 {
      LocatorTail(h, 1, 10);
    } else if h > 0 {
      LocatorShort(h - 1, have + 1);
      BitsMono(h - 1, h);
    }
  }

  ghost function Locator(b: BlockIndex, nStep: nat, have: nat): seq<BlockIndex>
    requires Linked(b) && nStep > 0
    decreases b.nHeight
  {
    if b.nHeight == 0 then [b]
    else
      var next := if b.nHeight - nStep < 0 then 0 else b.nHeight - nStep;
      [b] + Locator(Walk(b, next), if have + 1 > 10 then 2 * nStep else nStep, have + 1)
  }

  /** A locator lists the blocks at its heights. */
  lemma {:induction false} LocatorBlocks(b: BlockIndex, nStep: nat, have: nat)
    requires Linked(b) && nStep > 0
    ensures var hs := LocatorHeights(b.nHeight, nStep, have); var bs := Locator(b, nStep, have);
            |bs| == |hs| && forall i :: 0 <= i < |hs| ==> hs[i] <= b.nHeight && bs[i] == Walk(b, hs[i])
    decreases b.nHeight
  {
    if b.nHeight > 0 {
      var next := if b.nHeight - nStep < 0 then 0 else b.nHeight - nStep;
      var step' := if have + 1 > 10 then 2 * nStep else nStep;
      LocatorBlocks(Walk(b, next), step', have + 1);
      var hs, bs := LocatorHeights(next, step', have + 1), Locator(Walk(b, next), step', have + 1);
      var all := LocatorHeights(b.nHeight, nStep, have);
      forall i | 0 <= i < |all| ensures all[i] <= b.nHeight && Locator(b, nStep, have)[i] == Walk(b, all[i]) {
        if i > 0 {
          assert all[i] == hs[i - 1];
          WalkWalk(b, next, hs[i - 1]);
        }
      }
    }
  }

  class ActiveChain {
    var vChain: seq<BlockIndex?>

    /** Empty, or the branch of its last block. */
    ghost predicate Valid()
      reads this
    {
      vChain == [] || (vChain[|vChain| - 1] != null && IsBranch(vChain, vChain[|vChain| - 1]))
    }

    constructor ()
      ensures Valid() && vChain == []
    {
      vChain := [];
    }

    function Height(): int reads this { |vChain| - 1 }

    function At(h: int): BlockIndex? reads this { if h < 0 || h >= |vChain| then null else vChain[h] }

    function Tip(): BlockIndex? reads this { if |vChain| > 0 then vChain[|vChain| - 1] else null }

    predicate Contains(b: BlockIndex) reads this { At(b.nHeight) == b }

    /** A block of the chain brings all its ancestors with it. */
    lemma ContainsBranch(b: BlockIndex, h: nat)
      requires Valid() && Linked(b) && Contains(b) && h <= b.nHeight
      ensures At(h) == Walk(b, h)
    {
      WalkWalk(vChain[|vChain| - 1], b.nHeight, h);
    }

    /** Rewrites the vector from the new tip down to the first block that is already in place. */
    method SetTip(tip: BlockIndex?)
      requires Valid() && (tip != null ==> Linked(tip))
      modifies this
      ensures Valid() && Tip() == tip
      ensures tip == null ==> vChain == []
      ensures tip != null ==> IsBranch(vChain, tip)
    {
      if tip == null {
        vChain := [];
        return;
      }
      var n := tip.nHeight + 1;
      vChain := if |vChain| >= n then vChain[..n] else vChain + seq(n - |vChain|, _ => null);
      ghost var was := old(vChain);
      var pindex: BlockIndex? := tip;
      ghost var h: int := tip.nHeight;
      while pindex != null && vChain[pindex.nHeight] != pindex
        invariant -1 <= h <= tip.nHeight && (if h == -1 then pindex == null else pindex == Walk(tip, h))
        invariant |vChain| == n
        invariant forall i :: h < i < n ==> vChain[i] == Walk(tip, i)
        invariant forall i :: 0 <= i <= h ==> vChain[i] == if i < |was| then was[i] else null
        decreases h
      {
        vChain := vChain[pindex.nHeight := pindex];
        if h > 0 { WalkParent(tip, h); }
        pindex := pindex.pprev;
        h := h - 1;
      }
      if pindex != null { AlreadyInPlace(was, tip, h); }
    }

    /** No block of the branch above h is in the chain. */
    ghost predicate OffAbove(b: BlockIndex, h: int)
      requires Linked(b)
      reads this
    {
      forall g: nat :: h < g <= b.nHeight ==> !Contains(Walk(b, g))
    }

    lemma OffStep(b: BlockIndex, h: nat)
      requires Linked(b) && h <= b.nHeight && OffAbove(b, h) && !Contains(Walk(b, h))
      ensures OffAbove(b, h - 1)
      ensures h == 0 ==> Walk(b, h).pprev == null
      ensures h > 0 ==> Walk(b, h).pprev == Walk(b, h - 1)
    {
      if h > 0 { WalkParent(b, h); }
      forall g: nat | h - 1 < g <= b.nHeight ensures !Contains(Walk(b, g)) {}
    }

    lemma OffStart(b: BlockIndex)
      requires Linked(b)
      ensures OffAbove(b, b.nHeight) && OffAbove(b, Height())
    {}

    /** The last block of the given branch that is in the chain. */
    method FindFork(b: BlockIndex?, ghost tree: set<BlockIndex>) returns (r: BlockIndex?)
      requires Valid() && SkipsOk(tree) && (b != null ==> b in tree)
      ensures b == null ==> r == null
      ensures b != null ==> Linked(b) && (r != null ==> OnBranch(r, b) && Contains(r))
      ensures b != null ==> OffAbove(b, if r == null then -1 else r.nHeight)
    {
      hide OffAbove;
      if b == null { return null; }
      assert BlockOk(tree, b);
      OffStart(b);
      var pindex: BlockIndex? := b;
      ghost var h: int := b.nHeight;
      if b.nHeight > Height() {
        ghost var steps;
        pindex, steps := b.GetAncestor(Height(), tree);
        h := Height();
      }
      while pindex != null && !Contains(pindex)
        invariant -1 <= h <= b.nHeight && (if h == -1 then pindex == null else pindex == Walk(b, h))
        invariant OffAbove(b, h)
        decreases h
      {
        OffStep(b, h);
        pindex := pindex.pprev;
        h := h - 1;
      }
      r := pindex;
    }

    /** What FindFork returns is the highest block that the branch shares with the tip's. */
    lemma ForkIsHighestShared(b: BlockIndex, r: BlockIndex?)
      requires Valid() && vChain != [] && Linked(b) && (r != null ==> OnBranch(r, b) && Contains(r))
      requires OffAbove(b, if r == null then -1 else r.nHeight)
      ensures Tip() != null && Linked(Tip()) && HighestShared(r, b, Tip())
    {
      var tip := Tip();
      forall h: nat | h <= b.nHeight && h <= tip.nHeight && Walk(b, h) == Walk(tip, h)
        ensures r != null && h <= r.nHeight
      {
        assert vChain[h] == Walk(tip, h);
        assert Contains(Walk(b, h));
      }
    }

    /** One step of a locator: through the vector if possible, and through the skip pointers otherwise. */
    method StepBack(b: BlockIndex, nHeight: nat, ghost tree: set<BlockIndex>) returns (r: BlockIndex)
      requires Valid() && SkipsOk(tree) && b in tree && Linked(b) && nHeight <= b.nHeight
      ensures r == Walk(b, nHeight) && r in tree
    {
      WalkIn(b, nHeight, tree);
      var next: BlockIndex?;
      if Contains(b) {
        ContainsBranch(b, nHeight);
        next := At(nHeight);
      } else {
        ghost var steps;
        next, steps := b.GetAncestor(nHeight, tree);
      }
      r := next;
    }

    method LocatorFrom(start: BlockIndex, ghost tree: set<BlockIndex>) returns (vHave: seq<BlockIndex>)
      requires Valid() && SkipsOk(tree) && start in tree && Linked(start)
      ensures vHave == Locator(start, 1, 0)
    {
      hide Valid, Locator, SkipsOk, Walk, Linked;
      vHave := [];
      var pindex: BlockIndex := start;
      var nStep := 1;
      while true
        invariant nStep > 0 && Linked(pindex) && pindex in tree
        invariant vHave + Locator(pindex, nStep, |vHave|) == Locator(start, 1, 0)
        decreases pindex.nHeight
      {
        LocatorUnfolds(pindex, nStep, |vHave|);
        ghost var have := vHave;
        vHave := vHave + [pindex];
        if pindex.nHeight == 0 { break; }
        var nHeight := if pindex.nHeight - nStep < 0 then 0 else pindex.nHeight - nStep;
        ghost var was := pindex;
        pindex := StepBack(pindex, nHeight, tree);
        if |vHave| > 10 { nStep := nStep * 2; }
        assert have + ([was] + Locator(pindex, nStep, |vHave|)) == vHave + Locator(pindex, nStep, |vHave|);
      }
    }

    /** The blocks at the locator's heights on the branch of the block asked for, or of the tip. */
    method GetLocator(b: BlockIndex?, ghost tree: set<BlockIndex>) returns (vHave: seq<BlockIndex>)
      requires Valid() && SkipsOk(tree) && (b != null ==> b in tree) && (vChain != [] ==> Tip() in tree)
      ensures b == null && vChain == [] ==> vHave == []
      ensures b != null || vChain != [] ==>
                var start := if b == null then Tip() else b;
                  start != null && Linked(start) && vHave == Locator(start, 1, 0)
    {
      hide Locator;
      var start: BlockIndex? := b;
      if b == null { start := Tip(); }
      if start == null { return []; }
      assert BlockOk(tree, start);
      vHave := LocatorFrom(start, tree);
    }
  }

  lemma LocatorUnfolds(b: BlockIndex, nStep: nat, have: nat)
    requires Linked(b) && nStep > 0
    ensures b.nHeight == 0 ==> Locator(b, nStep, have) == [b]
    ensures b.nHeight > 0 ==>
              var next := if b.nHeight - nStep < 0 then 0 else b.nHeight - nStep;
              && Linked(Walk(b, next)) && Walk(b, next).nHeight == next
              && Locator(b, nStep, have)
              == [b] + Locator(Walk(b, next), if have + 1 > 10 then nStep * 2 else nStep, have + 1)
  {}

  /** Once one block of the old chain is on the new branch, so is everything below it. */
  lemma AlreadyInPlace(was: seq<BlockIndex?>, tip: BlockIndex, h: nat)
    requires Linked(tip) && h <= tip.nHeight && h < |was| && was[h] == Walk(tip, h)
    requires was[|was| - 1] != null && IsBranch(was, was[|was| - 1])
    ensures forall i :: 0 <= i <= h ==> was[i] == Walk(tip, i)
  {
    var top := was[|was| - 1];
    forall i | 0 <= i <= h ensures was[i] == Walk(tip, i) {
      WalkWalk(top, h, i);
      WalkWalk(tip, h, i);
    }
  }
}
