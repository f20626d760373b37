/**
  The height that a block index entry skips to (src/chain.cpp).
 */
module SkipHeight {
  import opened Limbs

  /** Bitwise and. */
  function And(x: nat, y: nat): (r: nat)
    ensures r <= x && r <= y
    decreases x + y
  {
    if x == 0 || y == 0 then 0 else 2 * And(x / 2, y / 2) + if x % 2 == 1 && y % 2 == 1 then 1 else 0
  }

  function InvertLowestOne(n: nat): (r: nat) {
    if n == 0 then 0 else And(n, n - 1)
  }

  function GetSkipHeight(height: nat): (r: nat)
    ensures height > 0 ==> r < height
  {
    if height < 2 then 0
    else if height % 2 == 1 then
      assert InvertLowestOne(height - 1) <= height - 2;
      InvertLowestOne(InvertLowestOne(height - 1)) + 1
    else InvertLowestOne(height)
  }

  lemma {:induction false} AndSelf(x: nat)
    ensures And(x, x) == x
  {
    if x > 0 {
      AndSelf(x / 2);
    }
  }

  /** What is taken away is the lowest bit that is set. */
  lemma {:induction false} LowestOne(n: nat) returns (k: nat)
    requires n > 0
    ensures InvertLowestOne(n) == n - Pow2(k) && n % Pow2(k) == 0 && (n / Pow2(k)) % 2 == 1
  {
    if n % 2 == 1 {
      k := 0;
      AndSelf(n / 2);
    } else {
      var j := LowestOne(n / 2);
      k := j + 1;
      assert (n - 1) / 2 == n / 2 - 1;
      HalfTwice(n, Pow2(j));
    }
  }

  /** From an even height the lowest bit is taken away, from an odd one the two
      lowest above the last. */
  lemma {:induction false} SkipsTo(height: nat) returns (j: nat, k: nat)
    requires height >= 2
    ensures var n := if height % 2 == 0 then height else height - 1;
            && n % Pow2(j) == 0 && n / Pow2(j) % 2 == 1
            && (height % 2 == 0 ==> GetSkipHeight(height) == n - Pow2(j))
            && (height % 2 == 1 && n == Pow2(j) ==> GetSkipHeight(height) == 1)
            && (height % 2 == 1 && n != Pow2(j) ==>
                  var m := n - Pow2(j);
                  m % Pow2(k) == 0 && m / Pow2(k) % 2 == 1 && GetSkipHeight(height) == m - Pow2(k) + 1)
  {
    var n := if height % 2 == 0 then height else height - 1;
    j := LowestOne(n);
    k := 0;
    if height % 2 == 1 && n != Pow2(j) {
      k := LowestOne(n - Pow2(j));
    }
  }

  lemma {:induction false} HalfTwice(n: nat, p: int)
    requires p > 0 && n % 2 == 0 && (n / 2) % p == 0
    ensures n % (2 * p) == 0 && n / (2 * p) == n / 2 / p
  {
    var q := n / 2 / p;
    Double(q, p);
    DivModUnique(n, 2 * p, q, 0);
  }
}

/**
  The block tree with its skip list and the active chain (src/chain.cpp,
  src/chain.h).  `tree` is the ghost set of all block index entries.
 */
module Chain {
  import opened Limbs
  import opened SkipHeight

  class BlockIndex {
    const hash: int
    var pprev: BlockIndex?
    var pskip: BlockIndex?
    var nHeight: int

    constructor (h: int)
      ensures pprev == null && pskip == null && nHeight == 0 && hash == h
    {
      hash, pprev, pskip, nHeight := h, null, null, 0;
    }

    /** The ancestor at `height`, by the skip list. */
    method GetAncestor(height: int, ghost tree: set<BlockIndex>) returns (r: BlockIndex?)
      requires Linked(tree) && SkipsRight(tree) && this in tree
      ensures r == Ancestor(tree, this, height)
    {
      if height > nHeight || height < 0 {
        return null;
      }
      var walk := this;
      var heightWalk := nHeight;
      while heightWalk > height
        invariant walk in tree && walk.nHeight == heightWalk >= height
        invariant Ancestor(tree, walk, height) == Ancestor(tree, this, height)
      {
        var skip := GetSkipHeight(heightWalk);
        var skipPrev := GetSkipHeight(heightWalk - 1);
        if walk.pskip != null
           && (skip == height || (skip > height && !(skipPrev < skip - 2 && skipPrev >= height))) {
          assert SkipAt(tree, walk);
          AncestorIn(tree, walk, skip);
          AncestorOfAncestor(tree, walk, skip, height);
          walk := walk.pskip;
          heightWalk := skip;
        } else {
          assert walk.pprev != null;
          walk := walk.pprev;
          heightWalk := heightWalk - 1;
        }
      }
      return walk;
    }

    /** Makes a new entry the child of `prev`. */
    method AttachTo(prev: BlockIndex, ghost tree: set<BlockIndex>)
      requires Linked(tree) && SkipsRight(tree) && this !in tree && prev in tree && pskip == null
      modifies this
      ensures Linked(tree + {this}) && SkipsRight(tree + {this})
      ensures pprev == prev && pskip == Ancestor(tree + {this}, this, GetSkipHeight(nHeight))
    {
      assert LinkedAt(tree, prev);
      pprev := prev;
      nHeight := prev.nHeight + 1;
      GrowTree(tree, this);
      BuildSkip(tree + {this});
    }

    method BuildSkip(ghost tree: set<BlockIndex>)
      requires Linked(tree) && SkipsRight(tree) && this in tree
      modifies this`pskip
      ensures Linked(tree) && SkipsRight(tree)
      ensures pskip == if pprev == null then old(pskip) else Ancestor(tree, this, GetSkipHeight(nHeight))
    {
      if pprev != null {
        assert LinkedAt(tree, this);
        pskip := pprev.GetAncestor(GetSkipHeight(nHeight), tree);
        forall b | b in tree
          ensures SkipAt(tree, b)
        {
          assert b != this ==> old(SkipAt(tree, b));
        }
      }
    }
  }

  /** Heights count the steps to the root. */
  ghost predicate LinkedAt(tree: set<BlockIndex>, b: BlockIndex)
    reads tree`pprev, tree`nHeight, b`pprev, b`nHeight
  {
    b.nHeight >= 0 && (b.nHeight == 0 <==> b.pprev == null) &&
    (b.pprev != null ==> b.pprev in tree && b.pprev.nHeight == b.nHeight - 1)
  }

  ghost predicate Linked(tree: set<BlockIndex>)
    reads tree`pprev, tree`nHeight
  {
    forall b | b in tree :: LinkedAt(tree, b)
  }

  /** Walking back one block at a time. */
  ghost function Ancestor(tree: set<BlockIndex>, b: BlockIndex, h: int): (r: BlockIndex?)
    requires Linked(tree) && b in tree
    reads tree`pprev, tree`nHeight
    ensures r != null <==> 0 <= h <= b.nHeight
    ensures r != null ==> r in tree && r.nHeight == h
    decreases if b.nHeight >= 0 then b.nHeight else 0
  {
    assert LinkedAt(tree, b);
    if h < 0 || h > b.nHeight then null
    else if h == b.nHeight then b
    else Ancestor(tree, b.pprev, h)
  }

  /** A skip pointer is either not built yet or leads to the ancestor at the
      skip height. */
  ghost predicate SkipAt(tree: set<BlockIndex>, b: BlockIndex)
    requires Linked(tree) && b in tree
    reads tree
  {
    b.pskip == null || (b.nHeight > 0 && b.pskip == Ancestor(tree, b, GetSkipHeight(b.nHeight)))
  }

  ghost predicate SkipsRight(tree: set<BlockIndex>)
    requires Linked(tree)
    reads tree
  {
    forall b {:trigger SkipAt(tree, b)} | b in tree :: SkipAt(tree, b)
  }

  lemma {:induction false} AncestorIn(tree: set<BlockIndex>, b: BlockIndex, h: int)
    requires Linked(tree) && b in tree && 0 <= h <= b.nHeight
    ensures Ancestor(tree, b, h) != null && Ancestor(tree, b, h) in tree
  {
  }

  lemma {:induction false} AncestorOfAncestor(tree: set<BlockIndex>, b: BlockIndex, s: int, h: int)
    requires Linked(tree) && b in tree && h <= s && 0 <= s <= b.nHeight
    ensures Ancestor(tree, Ancestor(tree, b, s), h) == Ancestor(tree, b, h)
    decreases b.nHeight
  {
    assert LinkedAt(tree, b);
    if s < b.nHeight {
      AncestorOfAncestor(tree, b.pprev, s, h);
    }
  }

  /** Adding entries changes no ancestor. */
  lemma {:induction false} AncestorGrows(tree: set<BlockIndex>, tree': set<BlockIndex>, b: BlockIndex, h: int)
    requires Linked(tree) && Linked(tree') && tree <= tree' && b in tree
    ensures Ancestor(tree, b, h) == Ancestor(tree', b, h)
    decreases if b.nHeight >= 0 then b.nHeight else 0
  {
    assert LinkedAt(tree, b);
    if 0 <= h < b.nHeight {
      AncestorGrows(tree, tree', b.pprev, h);
    }
  }

  /** The set of all entries, by hash. */
  class BlockMap {
    var mapBlockIndex: map<int, BlockIndex>

    ghost function Tree(): set<BlockIndex>
      reads this
    {
      mapBlockIndex.Values
    }

    ghost predicate Valid()
      reads this, Tree()
    {
      Linked(Tree()) && SkipsRight(Tree()) && forall h | h in mapBlockIndex :: mapBlockIndex[h].hash == h
    }

    constructor ()
      ensures Valid() && mapBlockIndex == map[]
    {
      mapBlockIndex := map[];
    }

    /** Enters a header: the new entry comes right after its parent. */
    method AddToBlockIndex(hash: int, hashPrev: int) returns (b: BlockIndex)
      requires Valid() && hash != hashPrev
      modifies this
      ensures Valid() && hash in mapBlockIndex && mapBlockIndex[hash] == b
      ensures mapBlockIndex == old(mapBlockIndex)[hash := b] && old(Tree()) <= Tree()
      ensures hash in old(mapBlockIndex) ==> mapBlockIndex == old(mapBlockIndex)
      ensures hash !in old(mapBlockIndex) ==> fresh(b)
      ensures hash !in old(mapBlockIndex) ==>
                b.pprev == if hashPrev in old(mapBlockIndex) then old(mapBlockIndex)[hashPrev] else null
    {
      if hash in mapBlockIndex {
        return mapBlockIndex[hash];
      }
      b := new BlockIndex(hash);
      ghost var tree := Tree();
      mapBlockIndex := mapBlockIndex[hash := b];
      ValuesGrow(old(mapBlockIndex), hash, b);
      if hashPrev in mapBlockIndex {
        b.AttachTo(mapBlockIndex[hashPrev], tree);
      } else {
        GrowTree(tree, b);
      }
    }
  }

  lemma {:induction false} ValuesGrow<K, V>(m: map<K, V>, k: K, v: V)
    requires k !in m
    ensures m[k := v].Values == m.Values + {v}
  {
    var m' := m[k := v];
    forall x | x in m.Values
      ensures x in m'.Values
    {
      var j :| j in m && m[j] == x;
      assert m'[j] == x;
    }
    assert m'[k] == v;
  }

  /** A well-linked entry without a skip pointer can be added. */
  lemma {:induction false} GrowTree(tree: set<BlockIndex>, b: BlockIndex)
    requires Linked(tree) && SkipsRight(tree) && b !in tree && b.pskip == null
    requires LinkedAt(tree, b)
    ensures Linked(tree + {b}) && SkipsRight(tree + {b})
  {
    var tree' := tree + {b};
    forall x | x in tree'
      ensures LinkedAt(tree', x)
    {
      assert LinkedAt(tree, x);
    }
    forall x | x in tree'
      ensures SkipAt(tree', x)
    {
      if x != b && x.pskip != null {
        assert SkipAt(tree, x);
        AncestorGrows(tree, tree', x, GetSkipHeight(x.nHeight));
      }
    }
  }

  /** CChain: the ancestors of a tip in an array. */
  class ActiveChain {
    var vChain: seq<BlockIndex?>

    /** Every entry is the ancestor of the last one at its own height. */
    ghost predicate Valid(tree: set<BlockIndex>)
      requires Linked(tree)
      reads this, tree`pprev, tree`nHeight
    {
      |vChain| > 0 ==> IsChain(tree, vChain, vChain[|vChain| - 1])
    }

    constructor ()
      ensures vChain == []
    {
      vChain := [];
    }

    function Tip(): BlockIndex?
      reads this
    {
      if |vChain| > 0 then vChain[|vChain| - 1] else null
    }

    function At(height: int): BlockIndex?
      reads this
    {
      if height < 0 || height >= |vChain| then null else vChain[height]
    }

    function Height(): int
      reads this
    {
      |vChain| - 1
    }

    predicate Contains(b: BlockIndex)
      reads this, b`nHeight
    {
      InChain(vChain, b)
    }

    method SetTip(tip: BlockIndex?, ghost tree: set<BlockIndex>)
      requires Linked(tree) && Valid(tree) && (tip != null ==> tip in tree)
      modifies this
      ensures Valid(tree) && Tip() == tip
      ensures tip == null ==> vChain == []
      ensures tip != null ==> IsChain(tree, vChain, tip)
    {
      if tip == null {
        vChain := [];
        return;
      }
      assert LinkedAt(tree, tip);
      vChain := Refill(Resized(vChain, tip.nHeight + 1), tip, tree, vChain);
    }

    /** Hashes of ancestors of `b` (of the tip, if null), at growing distances. */
    method GetLocator(start: BlockIndex?, ghost tree: set<BlockIndex>) returns (have: seq<int>)
      requires Linked(tree) && SkipsRight(tree) && Valid(tree) && (start != null ==> start in tree)
      ensures start == null && Tip() == null ==> have == []
      ensures start != null ==> IsLocator(tree, start, have)
      ensures start == null && Tip() != null ==> IsLocator(tree, Tip(), have)
    {
      var b := start;
      if b == null {
        b := Tip();
      }
      if b == null {
        return [];
      }
      have := Locate(b, tree);
    }

    method Locate(start: BlockIndex, ghost tree: set<BlockIndex>) returns (have: seq<int>)
      requires Linked(tree) && SkipsRight(tree) && Valid(tree) && start in tree
      ensures IsLocator(tree, start, have)
    {
      var step: nat := 1;
      have := [];
      var b := start;
      LocatedStart(tree, start);
      while true
        invariant Located(tree, start, b, step, have)
        decreases b.nHeight
      {
        if b.nHeight == 0 {
          LocatedLast(tree, start, b, step, have);
          have := have + [b.hash];
          return;
        }
        b, step, have := LocateNext(start, b, step, have, tree);
      }
    }

    /** One more entry of the locator. */
    method LocateNext(start: BlockIndex, b: BlockIndex, step: nat, have: seq<int>, ghost tree: set<BlockIndex>)
      returns (next: BlockIndex, step': nat, have': seq<int>)
      requires Linked(tree) && SkipsRight(tree) && Valid(tree) && start in tree
      requires Located(tree, start, b, step, have) && b.nHeight > 0
      ensures Located(tree, start, next, step', have') && next.nHeight < b.nHeight
    {
      have' := have + [b.hash];
      var height := if b.nHeight - step > 0 then b.nHeight - step else 0;
      next := Back(b, height, tree);
      step' := if |have'| > 10 then 2 * step else step;
      LocatedMore(tree, start, b, step, have, next);
    }

    /** One jump back: by the array within the chain, else by the skip list. */
    method Back(b: BlockIndex, height: int, ghost tree: set<BlockIndex>) returns (r: BlockIndex)
      requires Linked(tree) && SkipsRight(tree) && Valid(tree) && b in tree && 0 <= height < b.nHeight
      ensures r == Ancestor(tree, b, height)
    {
      AncestorIn(tree, b, height);
      if Contains(b) {
        AncestorOfAncestor(tree, vChain[|vChain| - 1], b.nHeight, height);
        r := At(height);
      } else {
        r := b.GetAncestor(height, tree);
      }
    }

    /** The last common block of the chain and the branch of `b`. */
    method FindFork(b: BlockIndex?, ghost tree: set<BlockIndex>) returns (r: BlockIndex?)
      requires Linked(tree) && SkipsRight(tree) && Valid(tree) && (b != null ==> b in tree)
      ensures b == null ==> r == null
      ensures b != null ==> IsFork(tree, vChain, b, r)
    {
      if b == null {
        return null;
      }
      r := b;
      if b.nHeight > Height() {
        r := b.GetAncestor(Height(), tree);
      }
      while r != null && !Contains(r)
        invariant OffChainAbove(tree, vChain, b, r)
        decreases if r == null then -1 else r.nHeight
      {
        ForkStep(tree, vChain, b, r);
        r := r.pprev;
      }
    }
  }

  /** The heights a locator names: from `h` down to zero, the step doubling once
      more than ten are listed. */
  function LocatorHeights(h: nat, step: nat, n: nat): (r: seq<nat>)
    requires step >= 1
    ensures |r| > 0 && r[0] == h && r[|r| - 1] == 0
    decreases h
  {
    if h == 0 then [0]
    else [h] + LocatorHeights(if h > step then h - step else 0, if n + 1 > 10 then 2 * step else step, n + 1)
  }

  /** How far entry `i` of a locator lies back: one block each up to the eleventh,
      then in steps that double. */
  function Back(i: nat): nat {
    if i <= 10 then i else 9 + Pow2(i - 10)
  }

  lemma {:induction false} BackNext(n: nat)
    ensures Back(n + 1) == Back(n) + if n <= 10 then 1 else Pow2(n - 10)
  {
    if n == 10 {
      assert Pow2(1) == 2;
    }
  }

  lemma {:induction false} LocatorFrom(start: nat, h: nat, step: nat, n: nat, i: nat)
    requires h == (if start > Back(n) then start - Back(n) else 0)
    requires step == (if n <= 10 then 1 else Pow2(n - 10)) && i < |LocatorHeights(h, step, n)|
    ensures LocatorHeights(h, step, n)[i] == if start > Back(n + i) then start - Back(n + i) else 0
    decreases i
  {
    if i > 0 {
      BackNext(n);
      assert n == 10 ==> Pow2(1) == 2;
      LocatorFrom(start, if h > step then h - step else 0, if n + 1 > 10 then 2 * step else step, n + 1, i - 1);
    }
  }

  /** The heights of a locator, in closed form, down to 0, which comes once. */
  lemma {:induction false} LocatorAt(height: nat, i: nat)
    requires i < |LocatorHeights(height, 1, 0)|
    ensures LocatorHeights(height, 1, 0)[i] == if height > Back(i) then height - Back(i) else 0
    ensures i < |LocatorHeights(height, 1, 0)| - 1 ==> height > Back(i)
  {
    LocatorFrom(height, height, 1, 0, i);
    if i < |LocatorHeights(height, 1, 0)| - 1 {
      LocatorEnds(height, 1, 0, i);
    }
  }

  lemma {:induction false} LocatorEnds(h: nat, step: nat, n: nat, i: nat)
    requires step >= 1 && i < |LocatorHeights(h, step, n)| - 1
    ensures LocatorHeights(h, step, n)[i] > 0
    decreases i
  {
    if i > 0 {
      LocatorEnds(if h > step then h - step else 0, if n + 1 > 10 then 2 * step else step, n + 1, i - 1);
    }
  }

  ghost predicate LocatedAt(tree: set<BlockIndex>, start: BlockIndex, h: nat, hash: int)
    requires Linked(tree) && start in tree
    reads tree`pprev, tree`nHeight
  {
    Ancestor(tree, start, h) != null && hash == Ancestor(tree, start, h).hash
  }

  /** The listed hashes are those of the ancestors at the listed heights. */
  ghost predicate IsLocator(tree: set<BlockIndex>, start: BlockIndex, have: seq<int>)
    requires Linked(tree) && start in tree
    reads tree`pprev, tree`nHeight
  {
    start.nHeight >= 0 &&
    var heights := LocatorHeights(start.nHeight, 1, 0);
    |have| == |heights| && forall i | 0 <= i < |have| :: LocatedAt(tree, start, heights[i], have[i])
  }

  /** The loop of GetLocator is about to list `b`. */
  ghost predicate Located(tree: set<BlockIndex>, start: BlockIndex, b: BlockIndex, step: nat, have: seq<int>)
    requires Linked(tree) && start in tree
    reads tree`pprev, tree`nHeight
  {
    start.nHeight >= 0 && b in tree && 0 <= b.nHeight && b == Ancestor(tree, start, b.nHeight) && step >= 1 &&
    var heights := LocatorHeights(start.nHeight, 1, 0);
    |have| < |heights| && heights[|have|..] == LocatorHeights(b.nHeight, step, |have|) &&
    forall i | 0 <= i < |have| :: LocatedAt(tree, start, heights[i], have[i])
  }

  lemma {:induction false} LocatedStart(tree: set<BlockIndex>, start: BlockIndex)
    requires Linked(tree) && start in tree
    ensures Located(tree, start, start, 1, [])
  {
    assert LinkedAt(tree, start);
  }

  lemma {:induction false} LocatedLast(
    tree: set<BlockIndex>, start: BlockIndex, b: BlockIndex, step: nat, have: seq<int>)
    requires Linked(tree) && start in tree && Located(tree, start, b, step, have) && b.nHeight == 0
    ensures IsLocator(tree, start, have + [b.hash])
  {
    var n, all := |have|, have + [b.hash];
    var heights := LocatorHeights(start.nHeight, 1, 0);
    assert heights[n] == heights[n..][0] == 0;
    assert |heights[n..]| == 1;
    forall i | 0 <= i < |all|
      ensures LocatedAt(tree, start, heights[i], all[i])
    {
      assert i < n ==> all[i] == have[i] && LocatedAt(tree, start, heights[i], have[i]);
    }
  }

  lemma {:induction false} LocatedMore(
    tree: set<BlockIndex>, start: BlockIndex, b: BlockIndex, step: nat, have: seq<int>, next: BlockIndex)
    requires Linked(tree) && start in tree && Located(tree, start, b, step, have) && b.nHeight > 0
    requires next == Ancestor(tree, b, if b.nHeight - step > 0 then b.nHeight - step else 0)
    ensures Located(tree, start, next, if |have| + 1 > 10 then 2 * step else step, have + [b.hash])
  {
    var n, all := |have|, have + [b.hash];
    var heights := LocatorHeights(start.nHeight, 1, 0);
    AncestorOfAncestor(tree, start, b.nHeight, next.nHeight);
    assert heights[n] == heights[n..][0];
    assert heights[n + 1..] == heights[n..][1..];
    forall i | 0 <= i < |all|
      ensures LocatedAt(tree, start, heights[i], all[i])
    {
      assert i < n ==> all[i] == have[i] && LocatedAt(tree, start, heights[i], have[i]);
    }
  }

  /** A locator has at most eleven entries more than the height has bits. */
  lemma {:induction false} LocatorIsShort(h: nat, k: nat)
    requires h < Pow2(k) + 10
    ensures |LocatorHeights(h, 1, 0)| <= k + 11
  {
    SingleSteps(h, 0, k);
  }

  lemma {:induction false} SingleSteps(h: nat, n: nat, k: nat)
    requires n <= 10 && h < Pow2(k) + 10 - n
    ensures |LocatorHeights(h, 1, n)| <= k + 11 - n
    decreases 10 - n
  {
    if n == 10 {
      DoublingSteps(h, 1, n, k);
    } else if h > 0 {
      SingleSteps(if h > 1 then h - 1 else 0, n + 1, k);
    }
  }

  lemma {:induction false} StepBack(h: nat, step: nat, p: nat)
    requires p >= 1 && h <= step * (2 * p - 1)
    ensures (if h > step then h - step else 0) <= (2 * step) * (p - 1)
  {
    assert step * (2 * p - 1) == (2 * step) * (p - 1) + step;
  }

  lemma {:induction false} DoublingSteps(h: nat, step: nat, n: nat, k: nat)
    requires n >= 10 && step >= 1 && h <= step * (Pow2(k) - 1)
    ensures |LocatorHeights(h, step, n)| <= k + 1
    decreases k
  {
    if h > 0 {
      assert k > 0;
      StepBack(h, step, Pow2(k - 1));
      DoublingSteps(if h > step then h - step else 0, 2 * step, n + 1, k - 1);
    }
  }

  predicate InChain(v: seq<BlockIndex?>, b: BlockIndex)
    reads b`nHeight
  {
    0 <= b.nHeight < |v| && v[b.nHeight] == b
  }

  /** `r` is an ancestor of `b`, or null, and above it no ancestor is in the chain. */
  ghost predicate OffChainAbove(tree: set<BlockIndex>, v: seq<BlockIndex?>, b: BlockIndex, r: BlockIndex?)
    requires Linked(tree) && b in tree
    reads tree`pprev, tree`nHeight
  {
    (r != null ==> r in tree && r == Ancestor(tree, b, r.nHeight)) &&
    forall x | x in tree :: Common(tree, v, b, x) ==> r != null && x.nHeight <= r.nHeight
  }

  ghost predicate Common(tree: set<BlockIndex>, v: seq<BlockIndex?>, b: BlockIndex, x: BlockIndex)
    requires Linked(tree) && b in tree && x in tree
    reads tree`pprev, tree`nHeight
  {
    x == Ancestor(tree, b, x.nHeight) && InChain(v, x)
  }

  /** The highest block that is both in the chain and an ancestor of `b`; null
      where there is none. */
  ghost predicate IsFork(tree: set<BlockIndex>, v: seq<BlockIndex?>, b: BlockIndex, r: BlockIndex?)
    requires Linked(tree) && b in tree
    reads tree`pprev, tree`nHeight
  {
    OffChainAbove(tree, v, b, r) && (r != null ==> InChain(v, r))
  }

  lemma {:induction false} NotThisOne(
    tree: set<BlockIndex>, v: seq<BlockIndex?>, b: BlockIndex, r: BlockIndex, x: BlockIndex)
    requires Linked(tree) && b in tree && r in tree && x in tree && x.nHeight <= r.nHeight
    requires r == Ancestor(tree, b, r.nHeight) && !InChain(v, r) && Common(tree, v, b, x)
    ensures x.nHeight < r.nHeight
  {
  }

  lemma {:induction false} ForkStep(tree: set<BlockIndex>, v: seq<BlockIndex?>, b: BlockIndex, r: BlockIndex)
    requires Linked(tree) && b in tree && OffChainAbove(tree, v, b, r) && !InChain(v, r)
    ensures LinkedAt(tree, r) && OffChainAbove(tree, v, b, r.pprev)
  {
    assert LinkedAt(tree, r);
    var p := r.pprev;
    if p != null {
      AncestorOfAncestor(tree, b, r.nHeight, r.nHeight - 1);
    }
    forall x | x in tree && Common(tree, v, b, x)
      ensures p != null && x.nHeight <= p.nHeight
    {
      NotThisOne(tree, v, b, r, x);
      assert LinkedAt(tree, x);
    }
  }

  /** `v` lists the ancestors of `tip` by height, up to the tip itself. */
  ghost predicate IsChain(tree: set<BlockIndex>, v: seq<BlockIndex?>, tip: BlockIndex?)
    requires Linked(tree)
    reads tree`pprev, tree`nHeight
  {
    tip != null && tip in tree && |v| == tip.nHeight + 1 &&
    forall h | 0 <= h < |v| :: v[h] == Ancestor(tree, tip, h)
  }

  /** New entries in the tree leave the chain what it is. */
  lemma {:induction false} ChainGrows(
    tree: set<BlockIndex>, tree': set<BlockIndex>, v: seq<BlockIndex?>, tip: BlockIndex)
    requires Linked(tree) && Linked(tree') && tree <= tree' && IsChain(tree, v, tip)
    ensures IsChain(tree', v, tip)
  {
    forall h | 0 <= h < |v|
      ensures v[h] == Ancestor(tree', tip, h)
    {
      AncestorGrows(tree, tree', tip, h);
    }
  }

  /** The fork parts a branch: up to its height everything is in the chain, above
      it nothing. */
  lemma {:induction false} ForkParts(
    tree: set<BlockIndex>, v: seq<BlockIndex?>, tip: BlockIndex, b: BlockIndex, r: BlockIndex?, h: int)
    requires Linked(tree) && IsChain(tree, v, tip) && b in tree && IsFork(tree, v, b, r) && 0 <= h <= b.nHeight
    ensures InChain(v, Ancestor(tree, b, h)) <==> r != null && h <= r.nHeight
  {
    var x := Ancestor(tree, b, h);
    if r != null && h <= r.nHeight {
      AncestorOfAncestor(tree, b, r.nHeight, h);
      AncestorOfAncestor(tree, tip, r.nHeight, h);
    }
    assert Common(tree, v, b, x) <==> InChain(v, x);
  }

  /** vector::resize: cut off, or filled up with null. */
  function Resized(v: seq<BlockIndex?>, n: nat): (r: seq<BlockIndex?>)
    ensures |r| == n && forall h | 0 <= h < n :: r[h] == if h < |v| then v[h] else null
  {
    if n <= |v| then v[..n] else v + seq(n - |v|, _ => null)
  }

  /** Walks down from the tip and stops at the first block already in place. */
  method Refill(start: seq<BlockIndex?>, tip: BlockIndex, ghost tree: set<BlockIndex>, ghost before: seq<BlockIndex?>)
    returns (v: seq<BlockIndex?>)
    requires Linked(tree) && tip in tree && tip.nHeight >= 0 && start == Resized(before, tip.nHeight + 1)
    requires |before| > 0 ==> IsChain(tree, before, before[|before| - 1])
    ensures IsChain(tree, v, tip)
  {
    v := start;
    FillStart(tree, start, tip);
    var b: BlockIndex? := tip;
    while b != null && v[b.nHeight] != b
      invariant Filled(tree, v, start, tip, b)
      decreases if b == null then -1 else b.nHeight
    {
      FillStep(tree, v, start, tip, b);
      v := v[b.nHeight := b];
      b := b.pprev;
    }
    FillDone(tree, v, before, tip, b);
  }

  /** The walk is at `b`: above it the new chain, from there down the old. */
  ghost predicate Filled(tree: set<BlockIndex>, v: seq<BlockIndex?>, start: seq<BlockIndex?>,
                         tip: BlockIndex, b: BlockIndex?)
    requires Linked(tree) && tip in tree
    reads tree`pprev, tree`nHeight
  {
    |v| == |start| == tip.nHeight + 1 &&
    (b != null ==> b in tree && 0 <= b.nHeight <= tip.nHeight && b == Ancestor(tree, tip, b.nHeight)) &&
    forall h | 0 <= h <= tip.nHeight :: FilledAt(tree, v, start, tip, b, h)
  }

  ghost predicate FilledAt(tree: set<BlockIndex>, v: seq<BlockIndex?>, start: seq<BlockIndex?>,
                           tip: BlockIndex, b: BlockIndex?, h: int)
    requires Linked(tree) && tip in tree && |v| == |start| == tip.nHeight + 1 && 0 <= h <= tip.nHeight
    requires b != null ==> b in tree
    reads tree`pprev, tree`nHeight
  {
    v[h] == if b != null && h <= b.nHeight then start[h] else Ancestor(tree, tip, h)
  }

  lemma {:induction false} FillStart(tree: set<BlockIndex>, start: seq<BlockIndex?>, tip: BlockIndex)
    requires Linked(tree) && tip in tree && tip.nHeight >= 0 && |start| == tip.nHeight + 1
    ensures Filled(tree, start, start, tip, tip)
  {
  }

  lemma {:induction false} FillStep(
    tree: set<BlockIndex>, v: seq<BlockIndex?>, start: seq<BlockIndex?>, tip: BlockIndex, b: BlockIndex)
    requires Linked(tree) && tip in tree && Filled(tree, v, start, tip, b)
    ensures LinkedAt(tree, b) && Filled(tree, v[b.nHeight := b], start, tip, b.pprev)
  {
    assert LinkedAt(tree, b);
    if b.pprev != null {
      AncestorOfAncestor(tree, tip, b.nHeight, b.nHeight - 1);
    }
    var w := v[b.nHeight := b];
    forall h | 0 <= h <= tip.nHeight
      ensures FilledAt(tree, w, start, tip, b.pprev, h)
    {
      assert FilledAt(tree, v, start, tip, b, h);
    }
  }

  lemma {:induction false} FillDone(
    tree: set<BlockIndex>, v: seq<BlockIndex?>, before: seq<BlockIndex?>, tip: BlockIndex, b: BlockIndex?)
    requires Linked(tree) && tip in tree && tip.nHeight >= 0
    requires Filled(tree, v, Resized(before, tip.nHeight + 1), tip, b)
    requires |before| > 0 ==> IsChain(tree, before, before[|before| - 1])
    requires b != null ==> v[b.nHeight] == b
    ensures IsChain(tree, v, tip)
  {
    if b != null {
      assert FilledAt(tree, v, Resized(before, tip.nHeight + 1), tip, b, b.nHeight);
      OldPart(tree, before, tip, b);
    }
    forall h | 0 <= h <= tip.nHeight
      ensures v[h] == Ancestor(tree, tip, h)
    {
      assert FilledAt(tree, v, Resized(before, tip.nHeight + 1), tip, b, h);
    }
  }

  /** Where the walk meets a block of the old chain, the rest is already right. */
  lemma {:induction false} OldPart(tree: set<BlockIndex>, v: seq<BlockIndex?>, tip: BlockIndex, b: BlockIndex)
    requires Linked(tree) && tip in tree && b in tree && 0 <= b.nHeight <= tip.nHeight
    requires b == Ancestor(tree, tip, b.nHeight) && b.nHeight < |v| && v[b.nHeight] == b
    requires IsChain(tree, v, v[|v| - 1])
    ensures forall h | 0 <= h <= b.nHeight :: v[h] == Ancestor(tree, tip, h)
  {
    forall h | 0 <= h <= b.nHeight
      ensures v[h] == Ancestor(tree, tip, h)
    {
      AncestorOfAncestor(tree, v[|v| - 1], b.nHeight, h);
      AncestorOfAncestor(tree, tip, b.nHeight, h);
    }
  }
}
