/** The tree of block index entries with its skip pointers, and the chain of blocks up to a tip. */
module Chains {
  // ----- where skip pointers point

  /** The bitwise conjunction. */
  function And(a: nat, b: nat): nat {
    if a == 0 || b == 0 then 0 else 2 * And(a / 2, b / 2) + (a % 2) * (b % 2)
  }

  /** Turn the lowest one bit of a number into a zero. */
  function InvertLowestOne(n: nat): nat {
    if n == 0 then 0 else And(n, n - 1)
  }

  /** The height that the skip pointer of a block points to. */
  function GetSkipHeight(height: int): int {
    if height < 2 then 0
    else if height % 2 == 1 then InvertLowestOne(InvertLowestOne(height - 1)) + 1
    else InvertLowestOne(height)
  }

  lemma {:induction false} AndBelow(a: nat, b: nat)
    ensures And(a, b) <= b && And(a, b) <= a
  {
    if a != 0 && b != 0 {
      AndBelow(a / 2, b / 2);
    }
  }

  /** A skip pointer always goes back, but not before the first block. */
  lemma SkipsBack(height: int)
    requires height >= 1
    ensures 0 <= GetSkipHeight(height) < height
  {
    if height >= 2 {
      AndBelow(height, height - 1);
      if height % 2 == 1 {
        var once := InvertLowestOne(height - 1);
        AndBelow(height - 1, height - 2);
        if once != 0 {
          AndBelow(once, once - 1);
        }
      }
    }
  }

  // ----- blocks

  class BlockIndex {
    const pprev: BlockIndex?
    const nHeight: nat
    var pskip: BlockIndex?

    constructor (prev: BlockIndex?)
      ensures pprev == prev && nHeight == (if prev == null then 0 else prev.nHeight + 1) && pskip == null
    {
      pprev := prev;
      nHeight := if prev == null then 0 else prev.nHeight + 1;
      pskip := null;
    }

    /** The ancestor at a height, following skip pointers where they help. */
    method GetAncestor(height: int, ghost tree: set<BlockIndex>) returns (r: BlockIndex?)
      requires this in tree && Built(tree)
      ensures r == null <==> height > nHeight || height < 0
      ensures r != null ==> r in tree && r.nHeight == height && r == Ancestor(this, height)
    {
      if height > nHeight || height < 0 {
        return null;
      }
      var walk, heightWalk := this, nHeight;
      Itself(this);
      while heightWalk > height
        invariant walk in tree && walk.nHeight == heightWalk >= height && heightWalk <= nHeight
        invariant walk == Ancestor(this, heightWalk)
        decreases heightWalk
      {
        assert BuiltAt(tree, walk);
        SkipsBack(heightWalk);
        var heightSkip := GetSkipHeight(heightWalk);
        var heightSkipPrev := GetSkipHeight(heightWalk - 1);
        if walk.pskip != null &&
           (heightSkip == height || (heightSkip > height && !(heightSkipPrev < heightSkip - 2 && heightSkipPrev >= height))) {
          AncestorTwice(this, heightWalk, heightSkip);
          AncestorInTree(tree, walk, heightSkip);
          walk, heightWalk := walk.pskip, heightSkip;
        } else {
          AncestorTwice(this, heightWalk, heightWalk - 1);
          Itself(walk.pprev);
          walk, heightWalk := walk.pprev, heightWalk - 1;
        }
      }
      r := walk;
    }

    /** Set the skip pointer of a block whose ancestors have theirs. */
    method BuildSkip(ghost tree: set<BlockIndex>)
      requires Built(tree) && this !in tree && Rooted(this) && (pprev != null ==> pprev in tree) && pskip == null
      modifies `pskip
      ensures Built(tree + {this})
    {
      if pprev != null {
        SkipsBack(nHeight);
        pskip := pprev.GetAncestor(GetSkipHeight(nHeight), tree);
        assert pskip == Ancestor(this, GetSkipHeight(nHeight));
      }
      StillBuilt(tree, this);
    }
  }

  /** Heights count the blocks before a block. */
  ghost predicate Rooted(b: BlockIndex)
    decreases b.nHeight
  {
    if b.pprev == null then b.nHeight == 0 else b.nHeight == b.pprev.nHeight + 1 && Rooted(b.pprev)
  }

  /** The ancestor at a height, by walking back one block at a time. */
  ghost function Ancestor(b: BlockIndex, height: int): (r: BlockIndex)
    requires Rooted(b) && 0 <= height <= b.nHeight
    ensures r.nHeight == height && Rooted(r)
    decreases b.nHeight
  {
    if height == b.nHeight then b else Ancestor(b.pprev, height)
  }

  lemma Itself(b: BlockIndex)
    requires Rooted(b)
    ensures Ancestor(b, b.nHeight) == b
  {
  }

  lemma PreviousIsAncestor(b: BlockIndex)
    requires Rooted(b) && b.pprev != null
    ensures b.pprev.nHeight == b.nHeight - 1 && Ancestor(b, b.nHeight - 1) == b.pprev
  {
    Itself(b.pprev);
  }

  lemma {:induction false} AncestorTwice(b: BlockIndex, h: int, k: int)
    requires Rooted(b) && 0 <= k <= h <= b.nHeight
    ensures Ancestor(Ancestor(b, h), k) == Ancestor(b, k)
    decreases b.nHeight
  {
    if h < b.nHeight {
      AncestorTwice(b.pprev, h, k);
    }
  }

  ghost predicate BuiltAt(tree: set<BlockIndex>, b: BlockIndex)
    reads b
  {
    && Rooted(b)
    && if b.pprev == null then b.pskip == null
       else
         && b.pprev in tree && 0 <= GetSkipHeight(b.nHeight) < b.nHeight
         && b.pskip == Ancestor(b, GetSkipHeight(b.nHeight))
  }

  /** A set of blocks with all their ancestors, and with skip pointers to ancestors at the right heights. */
  ghost predicate Built(tree: set<BlockIndex>)
    reads tree
  {
    forall b | b in tree :: BuiltAt(tree, b)
  }

  lemma {:induction false} AncestorInTree(tree: set<BlockIndex>, b: BlockIndex, height: int)
    requires Built(tree) && b in tree && Rooted(b) && 0 <= height <= b.nHeight
    ensures Ancestor(b, height) in tree
    decreases b.nHeight
  {
    if height < b.nHeight {
      assert BuiltAt(tree, b);
      AncestorInTree(tree, b.pprev, height);
    }
  }

  lemma StillBuilt(tree: set<BlockIndex>, b: BlockIndex)
    requires Built(tree) && BuiltAt(tree, b)
    ensures Built(tree + {b})
  {
    forall c | c in tree + {b} ensures BuiltAt(tree + {b}, c) {
      assert c in tree ==> BuiltAt(tree, c);
    }
  }

  // ----- common ancestors

  function Min(a: int, b: int): int {
    if a < b then a else b
  }

  /** The blocks have the same ancestor at a height. */
  ghost predicate Share(a: BlockIndex, b: BlockIndex, height: int)
    requires Rooted(a) && Rooted(b)
  {
    0 <= height <= Min(a.nHeight, b.nHeight) && Ancestor(a, height) == Ancestor(b, height)
  }

  lemma {:induction false} SharedBelow(a: BlockIndex, b: BlockIndex, h: int, k: int)
    requires Rooted(a) && Rooted(b) && Share(a, b, h) && 0 <= k <= h
    ensures Share(a, b, k)
  {
    AncestorTwice(a, h, k);
    AncestorTwice(b, h, k);
  }

  /** The highest block that is an ancestor of both. */
  ghost predicate IsLastCommon(a: BlockIndex, b: BlockIndex, r: BlockIndex)
    requires Rooted(a) && Rooted(b)
  {
    && Share(a, b, r.nHeight) && r == Ancestor(a, r.nHeight)
    && forall h | h > r.nHeight :: !Share(a, b, h)
  }

  /** Walking both blocks back to ancestors at one height: no common ancestor is higher. */
  ghost predicate Rewound(a: BlockIndex, b: BlockIndex, pa: BlockIndex, pb: BlockIndex, tree: set<BlockIndex>)
    requires Rooted(a) && Rooted(b)
  {
    && pa in tree && pb in tree && pa.nHeight == pb.nHeight <= Min(a.nHeight, b.nHeight)
    && pa == Ancestor(a, pa.nHeight) && pb == Ancestor(b, pb.nHeight)
    && forall h | h > pa.nHeight :: !Share(a, b, h)
  }

  /** Find the last common ancestor of two blocks of one tree. */
  method LastCommonAncestor(a: BlockIndex, b: BlockIndex, ghost tree: set<BlockIndex>) returns (r: BlockIndex)
    requires Built(tree) && a in tree && b in tree && Rooted(a) && Rooted(b) && Ancestor(a, 0) == Ancestor(b, 0)
    ensures r in tree && IsLastCommon(a, b, r)
  {
    hide Ancestor, GetSkipHeight, And, Built, Share;
    var pa: BlockIndex, pb: BlockIndex := a, b;
    NoneAbove(a, b);
    Itself(a);
    Itself(b);
    if pa.nHeight > pb.nHeight {
      pa := pa.GetAncestor(pb.nHeight, tree);
    } else if pb.nHeight > pa.nHeight {
      pb := pb.GetAncestor(pa.nHeight, tree);
    }
    while pa != pb
      invariant Rewound(a, b, pa, pb, tree)
      decreases pa.nHeight
    {
      ghost var height := pa.nHeight;
      Apart(a, b, pa, pb, tree);
      while pa.pskip != pb.pskip
        invariant Rewound(a, b, pa, pb, tree) && pa != pb && 0 < pa.nHeight <= height
        decreases pa.nHeight
      {
        JumpBack(a, b, pa, pb, tree);
        pa, pb := pa.pskip, pb.pskip;
        Apart(a, b, pa, pb, tree);
      }
      StepBack(a, b, pa, pb, tree);
      pa, pb := pa.pprev, pb.pprev;
    }
    r := pa;
    LastFound(a, b, r, tree);
  }

  lemma NoneAbove(a: BlockIndex, b: BlockIndex)
    requires Rooted(a) && Rooted(b)
    ensures forall h | h > Min(a.nHeight, b.nHeight) :: !Share(a, b, h)
  {
  }

  lemma LastFound(a: BlockIndex, b: BlockIndex, r: BlockIndex, tree: set<BlockIndex>)
    requires Rooted(a) && Rooted(b) && Rewound(a, b, r, r, tree)
    ensures r in tree && IsLastCommon(a, b, r)
  {
  }

  /** Different blocks are not the first one. */
  lemma Apart(a: BlockIndex, b: BlockIndex, pa: BlockIndex, pb: BlockIndex, tree: set<BlockIndex>)
    requires Rooted(a) && Rooted(b) && Ancestor(a, 0) == Ancestor(b, 0) && Rewound(a, b, pa, pb, tree) && pa != pb
    ensures pa.nHeight > 0 && !Share(a, b, pa.nHeight)
  {
  }

  lemma JumpBack(a: BlockIndex, b: BlockIndex, pa: BlockIndex, pb: BlockIndex, tree: set<BlockIndex>)
    requires Built(tree) && Rooted(a) && Rooted(b) && Rewound(a, b, pa, pb, tree) && pa.nHeight > 0 && pa.pskip != pb.pskip
    ensures pa.pskip != null && pb.pskip != null && pa.pskip.nHeight < pa.nHeight && Rewound(a, b, pa.pskip, pb.pskip, tree)
  {
    assert BuiltAt(tree, pa) && BuiltAt(tree, pb);
    var k := GetSkipHeight(pa.nHeight);
    AncestorTwice(a, pa.nHeight, k);
    AncestorTwice(b, pb.nHeight, k);
    AncestorInTree(tree, pa, k);
    AncestorInTree(tree, pb, k);
    forall h | h > k ensures !Share(a, b, h) {
      if Share(a, b, h) {
        SharedBelow(a, b, h, k);
      }
    }
  }

  lemma StepBack(a: BlockIndex, b: BlockIndex, pa: BlockIndex, pb: BlockIndex, tree: set<BlockIndex>)
    requires Built(tree) && Rooted(a) && Rooted(b) && Rewound(a, b, pa, pb, tree) && pa.nHeight > 0 && pa != pb
    ensures pa.pprev != null && pb.pprev != null && pa.pprev.nHeight < pa.nHeight && Rewound(a, b, pa.pprev, pb.pprev, tree)
  {
    hide Ancestor, GetSkipHeight, And, Built;
    TreeFacts(tree, pa);
    TreeFacts(tree, pb);
    NotFirst(pa);
    NotFirst(pb);
    AncestorTwice(a, pa.nHeight, pa.nHeight - 1);
    AncestorTwice(b, pb.nHeight, pa.nHeight - 1);
    PreviousIsAncestor(pa);
    PreviousIsAncestor(pb);
  }

  lemma TreeFacts(tree: set<BlockIndex>, b: BlockIndex)
    requires Built(tree) && b in tree
    ensures Rooted(b) && (b.pprev != null ==> b.pprev in tree)
  {
    assert BuiltAt(tree, b);
  }

  lemma NotFirst(b: BlockIndex)
    requires Rooted(b) && b.nHeight > 0
    ensures b.pprev != null
  {
  }

  // ----- the chain up to a tip

  class Chain {
    var vChain: seq<BlockIndex?>

    /** The chain holds all ancestors of its tip. */
    ghost predicate Valid(tree: set<BlockIndex>)
      reads this
    {
      vChain != [] ==>
        && vChain[|vChain| - 1] != null
        && Holds(tree, vChain, vChain[|vChain| - 1])
    }

    constructor ()
      ensures vChain == []
    {
      vChain := [];
    }

    function Height(): int
      reads this
    {
      |vChain| - 1
    }

    function At(height: int): BlockIndex?
      reads this
    {
      if height < 0 || height >= |vChain| then null else vChain[height]
    }

    predicate Contains(b: BlockIndex)
      reads this
    {
      At(b.nHeight) == b
    }

    /** Make a block the tip, replacing only what differs. */
    method SetTip(block: BlockIndex, ghost tree: set<BlockIndex>)
      requires Built(tree) && block in tree && Valid(tree)
      modifies this
      ensures Valid(tree) && Holds(tree, vChain, block)
    {
      hide Built, Holds, Filling;
      ghost var old_ := vChain;
      var pindex: BlockIndex? := block;
      vChain := if block.nHeight + 1 <= |vChain| then vChain[..block.nHeight + 1]
                else vChain + seq(block.nHeight + 1 - |vChain|, _ => null);
      StartFilling(tree, vChain, old_, block);
      while pindex != null && vChain[pindex.nHeight] != pindex
        invariant |vChain| == block.nHeight + 1 && (pindex != null ==> pindex.nHeight <= block.nHeight)
        invariant Filling(tree, vChain, old_, block, pindex)
        decreases if pindex == null then 0 else pindex.nHeight + 1
      {
        FillStep(tree, vChain, old_, block, pindex);
        vChain := vChain[pindex.nHeight := pindex];
        pindex := pindex.pprev;
      }
      Filled(tree, vChain, old_, block, pindex);
    }

    /** Find the last block that a chain has in common with the ancestry of a block. */
    method FindFork(b: BlockIndex?, ghost tree: set<BlockIndex>) returns (r: BlockIndex?)
      requires Built(tree) && Valid(tree) && (b != null ==> b in tree && Rooted(b))
      ensures b == null ==> r == null
      ensures b != null ==> IsFork(vChain, b, r)
    {
      hide Built, Holds, NotYet, IsFork;
      if b == null {
        return null;
      }
      r := b;
      StartFork(tree, vChain, b);
      if r.nHeight > Height() {
        SkipToHeight(tree, vChain, b);
        r := r.GetAncestor(Height(), tree);
      }
      while r != null && !Contains(r)
        invariant NotYet(tree, vChain, b, r)
        decreases if r == null then 0 else r.nHeight + 1
      {
        ForkStep(tree, vChain, b, r);
        r := r.pprev;
      }
      ForkFound(tree, vChain, b, r);
    }
  }

  /** A sequence holds a block and all its ancestors by height. */
  ghost predicate Holds(tree: set<BlockIndex>, chain: seq<BlockIndex?>, tip: BlockIndex) {
    && tip in tree && Rooted(tip) && |chain| == tip.nHeight + 1
    && forall h | 0 <= h < |chain| :: chain[h] == Ancestor(tip, h)
  }

  ghost predicate FilledAbove(chain: seq<BlockIndex?>, tip: BlockIndex, height: int)
    requires Rooted(tip)
  {
    |chain| == tip.nHeight + 1 && forall h | height < h < |chain| && 0 <= h :: chain[h] == Ancestor(tip, h)
  }

  ghost predicate OldUpTo(chain: seq<BlockIndex?>, old_: seq<BlockIndex?>, height: nat) {
    height < |chain| && forall h | 0 <= h <= height :: chain[h] == if h < |old_| then old_[h] else null
  }

  /** From a block upwards the new chain is in place, below it is the old one. */
  ghost predicate Filling(tree: set<BlockIndex>, chain: seq<BlockIndex?>, old_: seq<BlockIndex?>, tip: BlockIndex, p: BlockIndex?) {
    && tip in tree && Rooted(tip)
    && FilledAbove(chain, tip, if p == null then -1 else p.nHeight)
    && (p != null ==> p in tree && p.nHeight <= tip.nHeight && p == Ancestor(tip, p.nHeight) && OldUpTo(chain, old_, p.nHeight))
  }

  lemma StartFilling(tree: set<BlockIndex>, chain: seq<BlockIndex?>, old_: seq<BlockIndex?>, tip: BlockIndex)
    requires Built(tree) && tip in tree && |chain| == tip.nHeight + 1
    requires forall h | 0 <= h < |chain| :: chain[h] == if h < |old_| then old_[h] else null
    ensures Filling(tree, chain, old_, tip, tip)
  {
    hide Ancestor;
    assert BuiltAt(tree, tip);
    Itself(tip);
  }

  lemma FillStep(tree: set<BlockIndex>, chain: seq<BlockIndex?>, old_: seq<BlockIndex?>, tip: BlockIndex, p: BlockIndex)
    requires Built(tree) && Filling(tree, chain, old_, tip, p)
    ensures p.nHeight < |chain| && Filling(tree, chain[p.nHeight := p], old_, tip, p.pprev)
    ensures p.pprev != null ==> p.pprev.nHeight < p.nHeight
  {
    hide Ancestor, GetSkipHeight, Built, FilledAbove, OldUpTo;
    TreeFacts(tree, p);
    FillOne(chain, old_, tip, p);
    if p.pprev != null {
      AncestorTwice(tip, p.nHeight, p.nHeight - 1);
      PreviousIsAncestor(p);
    } else {
      First(p);
    }
  }

  lemma First(b: BlockIndex)
    requires Rooted(b) && b.pprev == null
    ensures b.nHeight == 0
  {
  }

  lemma FillOne(chain: seq<BlockIndex?>, old_: seq<BlockIndex?>, tip: BlockIndex, p: BlockIndex)
    requires Rooted(tip) && p.nHeight <= tip.nHeight && p == Ancestor(tip, p.nHeight)
    requires FilledAbove(chain, tip, p.nHeight) && OldUpTo(chain, old_, p.nHeight)
    ensures p.nHeight < |chain| && FilledAbove(chain[p.nHeight := p], tip, p.nHeight - 1)
    ensures p.nHeight > 0 ==> OldUpTo(chain[p.nHeight := p], old_, p.nHeight - 1)
  {
    hide Ancestor;
  }

  lemma Filled(tree: set<BlockIndex>, chain: seq<BlockIndex?>, old_: seq<BlockIndex?>, tip: BlockIndex, p: BlockIndex?)
    requires Filling(tree, chain, old_, tip, p) && (p != null ==> p.nHeight < |chain| && chain[p.nHeight] == p)
    requires old_ != [] ==> old_[|old_| - 1] != null && Holds(tree, old_, old_[|old_| - 1])
    ensures Holds(tree, chain, tip) && chain[|chain| - 1] == tip
  {
    hide Ancestor;
    if p != null {
      MetOldChain(tree, chain, old_, tip, p);
    }
    Itself(tip);
  }

  /** Below the first block that was already there, the old chain is right. */
  lemma MetOldChain(tree: set<BlockIndex>, chain: seq<BlockIndex?>, old_: seq<BlockIndex?>, tip: BlockIndex, p: BlockIndex)
    requires Rooted(tip) && p.nHeight <= tip.nHeight && p == Ancestor(tip, p.nHeight)
    requires FilledAbove(chain, tip, p.nHeight) && OldUpTo(chain, old_, p.nHeight) && chain[p.nHeight] == p
    requires old_ != [] ==> old_[|old_| - 1] != null && Holds(tree, old_, old_[|old_| - 1])
    requires tip in tree
    ensures Holds(tree, chain, tip)
  {
    assert p.nHeight < |old_| && old_[p.nHeight] == p;
    var oldTip := old_[|old_| - 1];
    forall h | 0 <= h < |chain| ensures chain[h] == Ancestor(tip, h) {
      if h <= p.nHeight {
        AncestorTwice(oldTip, p.nHeight, h);
        AncestorTwice(tip, p.nHeight, h);
      }
    }
  }

  // ----- forks

  ghost predicate InChain(chain: seq<BlockIndex?>, b: BlockIndex) {
    b.nHeight < |chain| && chain[b.nHeight] == b
  }

  /** The highest ancestor that is in the chain, if any. */
  ghost predicate IsFork(chain: seq<BlockIndex?>, b: BlockIndex, r: BlockIndex?)
    requires Rooted(b)
  {
    && (r != null ==> r.nHeight <= b.nHeight && r == Ancestor(b, r.nHeight) && InChain(chain, r))
    && forall h | (if r == null then -1 else r.nHeight) < h <= b.nHeight && 0 <= h :: !InChain(chain, Ancestor(b, h))
  }

  /** No ancestor above a block is in the chain. */
  ghost predicate NotYet(tree: set<BlockIndex>, chain: seq<BlockIndex?>, b: BlockIndex, r: BlockIndex?)
    requires Rooted(b)
  {
    && (r != null ==> r in tree && r.nHeight <= b.nHeight && r == Ancestor(b, r.nHeight))
    && forall h | (if r == null then -1 else r.nHeight) < h <= b.nHeight && 0 <= h :: !InChain(chain, Ancestor(b, h))
  }

  lemma StartFork(tree: set<BlockIndex>, chain: seq<BlockIndex?>, b: BlockIndex)
    requires b in tree && Rooted(b)
    ensures NotYet(tree, chain, b, b)
  {
    Itself(b);
  }

  lemma SkipToHeight(tree: set<BlockIndex>, chain: seq<BlockIndex?>, b: BlockIndex)
    requires Built(tree) && b in tree && Rooted(b) && b.nHeight >= |chain|
    ensures |chain| == 0 ==> NotYet(tree, chain, b, null)
    ensures |chain| > 0 ==> NotYet(tree, chain, b, Ancestor(b, |chain| - 1))
  {
    hide Ancestor, Built, GetSkipHeight;
    forall h | |chain| <= h <= b.nHeight ensures !InChain(chain, Ancestor(b, h)) {
    }
    if |chain| > 0 {
      AncestorInTree(tree, b, |chain| - 1);
    }
  }

  lemma ForkStep(tree: set<BlockIndex>, chain: seq<BlockIndex?>, b: BlockIndex, r: BlockIndex)
    requires Built(tree) && Rooted(b) && NotYet(tree, chain, b, r) && !InChain(chain, r)
    ensures NotYet(tree, chain, b, r.pprev) && (r.pprev != null ==> r.pprev.nHeight < r.nHeight)
  {
    hide Ancestor, GetSkipHeight;
    assert BuiltAt(tree, r);
    if r.pprev != null {
      AncestorTwice(b, r.nHeight, r.nHeight - 1);
      PreviousIsAncestor(r);
    }
  }

  lemma ForkFound(tree: set<BlockIndex>, chain: seq<BlockIndex?>, b: BlockIndex, r: BlockIndex?)
    requires Rooted(b) && NotYet(tree, chain, b, r) && (r != null ==> InChain(chain, r))
    ensures IsFork(chain, b, r)
  {
  }
}
