/** The block index: blocks with parent and skip pointers, and the active chain as an array. */
module BlockChain {
  import opened Arithmetic
  import opened SkipHeights

  // ---------------------------------------------------------------- blocks

  class BlockIndex {
    const pprev: BlockIndex?
    const nHeight: nat
    var pskip: BlockIndex?

    constructor Genesis()
      ensures pprev == null && nHeight == 0 && pskip == null
    {
      pprev, nHeight, pskip := null, 0, null;
    }

    constructor Child(prev: BlockIndex)
      ensures pprev == prev && nHeight == prev.nHeight + 1 && pskip == null
    {
      pprev, nHeight, pskip := prev, prev.nHeight + 1, null;
    }

    /** The block and all its ancestors are numbered down to a genesis. */
    ghost predicate Rooted()
      decreases nHeight
    {
      if nHeight == 0 then pprev == null
      else pprev != null && pprev.nHeight == nHeight - 1 && pprev.Rooted()
    }

    /** The ancestor at a height by walking from parent to parent. */
    ghost function Walk(height: nat): (b: BlockIndex)
      requires Rooted() && height <= nHeight
      ensures b.Rooted() && b.nHeight == height
      decreases nHeight
    {
      if height == nHeight then this else pprev.Walk(height)
    }

    lemma {:induction false} WalkDown(height: nat)
      requires Rooted() && height <= nHeight
      ensures Walk(height).pprev == if height == 0 then null else Walk(height - 1)
      decreases nHeight
    {
      if height < nHeight { pprev.WalkDown(height); }
    }

    /** The skip pointer, if there is one, leads where it should. */
    ghost predicate SkipRight()
      requires Rooted()
      reads this
    {
      pskip != null ==> nHeight > 0 && SkipHeight(nHeight) <= nHeight && pskip == Walk(SkipHeight(nHeight))
    }

    lemma {:induction false} WalkStays(blocks: set<BlockIndex>, height: nat)
      requires Indexed(blocks) && this in blocks && height <= nHeight
      ensures Walk(height) in blocks
      decreases nHeight
    {
      if height < nHeight { pprev.WalkStays(blocks, height); }
    }

    lemma {:induction false} WalkTwice(mid: nat, height: nat)
      requires Rooted() && height <= mid <= nHeight
      ensures Walk(mid).Walk(height) == Walk(height)
      decreases nHeight
    {
      if mid < nHeight { pprev.WalkTwice(mid, height); }
    }

    /** One step towards the ancestor at a height: over the skip pointer where it does not lead too far, or
        to the parent. */
    method StepBack(ghost blocks: set<BlockIndex>, height: nat) returns (b: BlockIndex)
      requires Indexed(blocks) && this in blocks && height < nHeight
      ensures b in blocks && height <= b.nHeight < nHeight && b.Rooted() && b.Walk(height) == Walk(height)
      ensures Skipping(blocks) ==> b.nHeight == NextHeight(nHeight, height)
    {
      hide SkipHeight;
      var heightSkip := SkipHeight(nHeight);
      var heightSkipPrev := SkipHeight(nHeight - 1);
      SkipsBack(nHeight);
      if pskip != null &&
         (heightSkip == height ||
          (heightSkip > height && !(heightSkipPrev < heightSkip - 2 && heightSkipPrev >= height))) {
        WalkTwice(heightSkip, height);
        WalkStays(blocks, heightSkip);
        return pskip;
      }
      return pprev;
    }

    /** The ancestor at a height, over skip pointers where they do not lead too far. */
    method GetAncestor(ghost blocks: set<BlockIndex>, height: int) returns (b: BlockIndex?, ghost steps: nat)
      requires Indexed(blocks) && this in blocks
      ensures if 0 <= height <= nHeight then b == Walk(height) else b == null
      ensures 0 <= height <= nHeight && Skipping(blocks) ==> steps == Steps(nHeight, height)
    {
      hide Indexed, Skipping, Steps, NextHeight;
      steps := 0;
      if height > nHeight || height < 0 { return null, steps; }
      var pindexWalk: BlockIndex := this;
      IndexedRooted(blocks, this);
      while pindexWalk.nHeight > height
        invariant pindexWalk in blocks && pindexWalk.nHeight >= height && pindexWalk.Rooted()
        invariant pindexWalk.Walk(height) == Walk(height)
        invariant Skipping(blocks) ==> steps + Steps(pindexWalk.nHeight, height) == Steps(nHeight, height)
        decreases pindexWalk.nHeight
      {
        OneStep(pindexWalk.nHeight, height);
        pindexWalk := pindexWalk.StepBack(blocks, height);
        steps := steps + 1;
      }
      NoStep(height);
      return pindexWalk, steps;
    }

    /** Sets the skip pointer of a block whose parent is indexed; the index with it stays right. */
    method BuildSkip(ghost blocks: set<BlockIndex>)
      requires Indexed(blocks) && Rooted() && (pprev != null ==> pprev in blocks)
      requires pprev == null ==> pskip == null
      modifies this`pskip
      ensures Indexed(blocks + {this})
      ensures pprev != null ==> pskip != null
      ensures old(Skipping(blocks)) ==> Skipping(blocks + {this})
    {
      if pprev != null {
        SkipsBack(nHeight);
        ghost var steps;
        pskip, steps := pprev.GetAncestor(blocks, SkipHeight(nHeight));
      }
    }
  }

  /** A set of blocks closed under parents, with every skip pointer right. */
  ghost predicate Indexed(blocks: set<BlockIndex>)
    reads blocks
  {
    forall b :: b in blocks ==> b.Rooted() && (b.pprev != null ==> b.pprev in blocks) && b.SkipRight()
  }

  lemma IndexedRooted(blocks: set<BlockIndex>, b: BlockIndex)
    requires Indexed(blocks) && b in blocks
    ensures b.Rooted()
  {
  }

  /** Every block but a genesis has its skip pointer. */
  ghost predicate Skipping(blocks: set<BlockIndex>)
    reads blocks
  {
    forall b :: b in blocks && b.nHeight > 0 ==> b.pskip != null
  }

  // ---------------------------------------------------------------- the chain

  /** A chain as an array: blocks numbered from zero, each the parent of the next. */
  ghost predicate Linked(vChain: seq<BlockIndex?>, blocks: set<BlockIndex>) {
    forall i :: 0 <= i < |vChain| ==>
      && vChain[i] != null && vChain[i] in blocks && vChain[i].nHeight == i
      && (i > 0 ==> vChain[i].pprev == vChain[i - 1])
  }

  /** In a linked array every entry is the walk from any later one. */
  lemma {:induction false} LinkedWalk(vChain: seq<BlockIndex?>, blocks: set<BlockIndex>, i: nat, j: nat)
    requires Indexed(blocks) && Linked(vChain, blocks) && i <= j < |vChain|
    ensures vChain[j].Walk(i) == vChain[i]
    decreases j
  {
    if i < j { LinkedWalk(vChain, blocks, i, j - 1); }
  }

  class Chain {
    var vChain: seq<BlockIndex?>

    ghost predicate Valid(blocks: set<BlockIndex>)
      reads this, blocks
    {
      Indexed(blocks) && Linked(vChain, blocks)
    }

    constructor ()
      ensures vChain == []
    {
      vChain := [];
    }

    function Tip(): BlockIndex?
      reads this
    {
      if |vChain| > 0 then vChain[|vChain| - 1] else null
    }

    function At(height: int): BlockIndex?
      reads this
    {
      if height < 0 || height >= |vChain| then null else vChain[height]
    }

    predicate Contains(b: BlockIndex)
      reads this
    {
      At(b.nHeight) == b
    }

    /** Makes the chain lead to a block: entry i becomes its ancestor at height i. */
    method SetTip(ghost blocks: set<BlockIndex>, tip: BlockIndex?)
      requires Valid(blocks) && (tip != null ==> tip in blocks)
      modifies this
      ensures Valid(blocks)
      ensures tip == null ==> vChain == []
      ensures tip != null ==> |vChain| == tip.nHeight + 1
      ensures tip != null ==> forall i :: 0 <= i <= tip.nHeight ==> vChain[i] == tip.Walk(i)
    {
      hide Indexed, Linked;
      if tip == null {
        vChain := [];
        NothingLinked(blocks);
        return;
      }
      RootedIn(blocks, tip);
      ghost var was := vChain;
      vChain := if tip.nHeight + 1 <= |vChain| then vChain[..tip.nHeight + 1]
                else vChain + seq(tip.nHeight + 1 - |vChain|, _ => null);
      ghost var kept := vChain;
      var pindex := tip;
      ghost var h := tip.nHeight + 1;
      while pindex != null && vChain[pindex.nHeight] != pindex
        invariant 0 <= h <= tip.nHeight + 1 == |vChain|
        invariant if pindex == null then h == 0 else h > 0 && pindex == tip.Walk(h - 1)
        invariant forall i :: h <= i <= tip.nHeight ==> vChain[i] == tip.Walk(i)
        invariant forall i :: 0 <= i < h ==> vChain[i] == kept[i]
        decreases h
      {
        vChain := vChain[pindex.nHeight := pindex];
        h := h - 1;
        tip.WalkDown(h);
        pindex := pindex.pprev;
      }
      if h > 0 {
        MeetsOld(blocks, was, kept, h - 1, tip);
      }
      WalkLinks(blocks, vChain, tip);
    }

    /** Blocks from the given one, or the tip, back to the genesis in ever larger steps. */
    method GetLocator(ghost blocks: set<BlockIndex>, from: BlockIndex?) returns (vHave: seq<BlockIndex>)
      requires Valid(blocks) && (from != null ==> from in blocks)
      ensures from == null && Tip() == null ==> vHave == []
      ensures var start := if from == null then Tip() else from;
        start != null ==> start.Rooted() && IsLocator(start, vHave)
    {
      hide Indexed, Linked, Pow2;
      vHave := [];
      var start := if from == null then Tip() else from;
      if start == null { return; }
      TipIn(blocks, vChain);
      RootedIn(blocks, start);
      var pindex: BlockIndex := start;
      var nStep := 1;
      while true
        invariant forall i :: 0 <= i < |vHave| ==> Offset(i) < start.nHeight
        invariant nStep == StepAfter(|vHave|)
        invariant pindex in blocks && pindex == start.Walk(Back(start.nHeight, |vHave|))
        invariant forall i :: 0 <= i < |vHave| ==> vHave[i] == start.Walk(Back(start.nHeight, i))
        decreases start.nHeight - Offset(|vHave|)
      {
        vHave := vHave + [pindex];
        if pindex.nHeight == 0 { break; }
        var nHeight := if pindex.nHeight - nStep > 0 then pindex.nHeight - nStep else 0;
        OffsetStep(|vHave| - 1);
        start.WalkTwice(pindex.nHeight, nHeight);
        RootedIn(blocks, pindex);
        pindex.WalkStays(blocks, nHeight);
        if Contains(pindex) {
          LinkedWalk(vChain, blocks, nHeight, pindex.nHeight);
          pindex := vChain[nHeight];
        } else {
          ghost var steps;
          pindex, steps := pindex.GetAncestor(blocks, nHeight);
        }
        if |vHave| > 10 { nStep := nStep * 2; }
      }
    }

    /** The last block of the chain that is an ancestor of the given one. */
    method FindFork(ghost blocks: set<BlockIndex>, start: BlockIndex?) returns (fork: BlockIndex?)
      requires Valid(blocks) && (start != null ==> start in blocks)
      ensures start == null ==> fork == null
      ensures start != null ==> IsFork(start, vChain, fork)
    {
      hide Indexed, Linked;
      if start == null { return null; }
      RootedIn(blocks, start);
      var pindex: BlockIndex? := start;
      if start.nHeight > |vChain| - 1 {
        ghost var steps;
        pindex, steps := start.GetAncestor(blocks, |vChain| - 1);
      }
      ghost var h := if pindex == null then 0 else pindex.nHeight + 1;
      while pindex != null && !Contains(pindex)
        invariant if pindex == null then h == 0 else 0 < h <= start.nHeight + 1 && pindex == start.Walk(h - 1)
        invariant forall i :: h <= i < |vChain| && i <= start.nHeight ==> vChain[i] != start.Walk(i)
        decreases h
      {
        h := h - 1;
        start.WalkDown(h);
        pindex := pindex.pprev;
      }
      return pindex;
    }
  }

  /** How far back the i-th entry of a locator lies: ten single steps, then doubling ones. */
  function Offset(i: nat): nat { if i <= 10 then i else 9 + Pow2(i - 10) }

  /** The step taken once so many entries are listed. */
  function StepAfter(n: nat): nat { if n <= 10 then 1 else Pow2(n - 10) }

  function Back(height: nat, i: nat): nat { if Offset(i) < height then height - Offset(i) else 0 }

  lemma OffsetStep(i: nat)
    ensures Offset(i + 1) == Offset(i) + StepAfter(i)
    ensures StepAfter(i + 1) == if i + 1 > 10 then 2 * StepAfter(i) else StepAfter(i)
  {
  }

  /** The i-th entry is the ancestor that far back, up to the first that is the genesis. */
  ghost predicate IsLocator(start: BlockIndex, vHave: seq<BlockIndex>)
    requires start.Rooted()
  {
    && vHave != []
    && (forall i :: 0 <= i < |vHave| ==> vHave[i] == start.Walk(Back(start.nHeight, i)))
    && (forall i :: 0 <= i < |vHave| - 1 ==> Offset(i) < start.nHeight)
    && start.nHeight <= Offset(|vHave| - 1)
  }

  lemma {:induction false} OffsetGrows(i: nat, j: nat)
    requires i < j
    ensures Offset(i) < Offset(j)
    decreases j
  {
    OffsetStep(j - 1);
    if i < j - 1 { OffsetGrows(i, j - 1); }
  }

  /** A locator descends strictly from the block to the genesis, in at most eleven entries more
      than the number of bits of its height. */
  lemma LocatorDescends(start: BlockIndex, vHave: seq<BlockIndex>, bits: nat)
    requires start.Rooted() && IsLocator(start, vHave) && start.nHeight < Pow2(bits)
    ensures vHave[0] == start && vHave[|vHave| - 1].nHeight == 0
    ensures forall i, j :: 0 <= i < j < |vHave| ==> vHave[i].nHeight > vHave[j].nHeight
    ensures |vHave| <= 11 + bits
  {
    hide Pow2;
    forall i, j | 0 <= i < j < |vHave| ensures vHave[i].nHeight > vHave[j].nHeight {
      OffsetGrows(i, j);
    }
    if |vHave| >= 2 { OffsetBeyond(|vHave| - 2, bits); }
  }

  function Gap(vHave: seq<BlockIndex>, i: nat): int
    requires i + 1 < |vHave|
  {
    vHave[i].nHeight - vHave[i + 1].nHeight
  }

  /** The first twelve blocks of a locator follow one another; then every gap is twice the one before, except
      the last, which ends at the genesis and may be shorter. */
  lemma LocatorGaps(start: BlockIndex, vHave: seq<BlockIndex>, i: nat)
    requires start.Rooted() && IsLocator(start, vHave) && i + 1 < |vHave|
    ensures i <= 10 ==> Gap(vHave, i) == 1
    ensures i > 10 ==> Gap(vHave, i) <= 2 * Gap(vHave, i - 1)
    ensures i > 10 && i + 2 < |vHave| ==> Gap(vHave, i) == 2 * Gap(vHave, i - 1)
  {
    hide Pow2, Offset;
    OffsetStep(i);
    if i > 0 { OffsetStep(i - 1); }
    NearOffsets();
    assert vHave[i].nHeight == Back(start.nHeight, i) && vHave[i + 1].nHeight == Back(start.nHeight, i + 1);
    if i > 0 { assert vHave[i - 1].nHeight == Back(start.nHeight, i - 1); }
  }

  lemma NearOffsets()
    ensures forall i: nat :: i <= 11 ==> Offset(i) == i
  {
  }

  lemma OffsetBeyond(i: nat, bits: nat)
    ensures i >= 10 + bits ==> Offset(i) >= Pow2(bits)
  {
    if i >= 10 + bits { Pow2Grows(bits, i - 10); }
  }

  lemma TipIn(blocks: set<BlockIndex>, vChain: seq<BlockIndex?>)
    requires Linked(vChain, blocks)
    ensures |vChain| > 0 ==> vChain[|vChain| - 1] != null && vChain[|vChain| - 1] in blocks
  {
  }

  /** The highest block that lies both on the chain and below `start`; null if there is none. */
  ghost predicate IsFork(start: BlockIndex, vChain: seq<BlockIndex?>, fork: BlockIndex?)
    requires start.Rooted()
  {
    && (fork != null ==>
          fork.nHeight < |vChain| && fork.nHeight <= start.nHeight
            && fork == vChain[fork.nHeight] == start.Walk(fork.nHeight))
    && forall i :: 0 <= i < |vChain| && i <= start.nHeight && (fork == null || i > fork.nHeight) ==>
         vChain[i] != start.Walk(i)
  }

  lemma WalkLinks(blocks: set<BlockIndex>, vChain: seq<BlockIndex?>, tip: BlockIndex)
    requires Indexed(blocks) && tip in blocks && |vChain| == tip.nHeight + 1
    requires forall i :: 0 <= i <= tip.nHeight ==> vChain[i] == tip.Walk(i)
    ensures Linked(vChain, blocks)
  {
    forall i | 0 <= i < |vChain|
      ensures vChain[i] in blocks && (i > 0 ==> vChain[i].pprev == vChain[i - 1])
    {
      tip.WalkStays(blocks, i);
      tip.WalkDown(i);
    }
  }

  /** Where the new chain meets the old one, everything below agrees already. */
  lemma MeetsOld(blocks: set<BlockIndex>, was: seq<BlockIndex?>, kept: seq<BlockIndex?>, h: nat, tip: BlockIndex)
    requires Indexed(blocks) && Linked(was, blocks) && tip in blocks && h <= tip.nHeight
    requires h < |kept| && kept[h] == tip.Walk(h)
    requires forall i :: 0 <= i < |kept| ==> kept[i] == if i < |was| then was[i] else null
    ensures forall i :: 0 <= i <= h ==> kept[i] == tip.Walk(i)
  {
    forall i | 0 <= i <= h ensures kept[i] == tip.Walk(i) {
      LinkedWalk(was, blocks, i, h);
      tip.WalkTwice(h, i);
    }
  }

  // ---------------------------------------------------------------- forks

  /** The highest block both have below them; null if they have no genesis in common. */
  ghost predicate IsLastCommon(pa: BlockIndex, pb: BlockIndex, common: BlockIndex?)
    requires pa.Rooted() && pb.Rooted()
  {
    && (common != null ==>
          common.nHeight <= pa.nHeight && common.nHeight <= pb.nHeight &&
          common == pa.Walk(common.nHeight) == pb.Walk(common.nHeight))
    && forall i :: 0 <= i <= pa.nHeight && i <= pb.nHeight && (common == null || i > common.nHeight) ==>
         pa.Walk(i) != pb.Walk(i)
  }

  method LastCommonAncestor(ghost blocks: set<BlockIndex>, pa: BlockIndex, pb: BlockIndex) returns (common: BlockIndex?)
    requires Indexed(blocks) && pa in blocks && pb in blocks
    ensures IsLastCommon(pa, pb, common)
  {
    hide Indexed;
    assert pa.Rooted() && pb.Rooted() by { RootedIn(blocks, pa); RootedIn(blocks, pb); }
    var a, b: BlockIndex? := pa, pb;
    if pa.nHeight > pb.nHeight {
      ghost var steps;
      a, steps := pa.GetAncestor(blocks, pb.nHeight);
    } else if pb.nHeight > pa.nHeight {
      ghost var steps;
      b, steps := pb.GetAncestor(blocks, pa.nHeight);
    }
    ghost var h := if pa.nHeight < pb.nHeight then pa.nHeight + 1 else pb.nHeight + 1;
    while a != b && a != null && b != null
      invariant 0 <= h <= pa.nHeight + 1 && h <= pb.nHeight + 1
      invariant if h == 0 then a == null && b == null else a == pa.Walk(h - 1) && b == pb.Walk(h - 1)
      invariant forall i :: h <= i <= pa.nHeight && i <= pb.nHeight ==> pa.Walk(i) != pb.Walk(i)
      decreases h
    {
      h := h - 1;
      pa.WalkDown(h);
      pb.WalkDown(h);
      a := a.pprev;
      b := b.pprev;
    }
    return a;
  }

  lemma NothingLinked(blocks: set<BlockIndex>)
    ensures Linked([], blocks)
  {
  }

  lemma RootedIn(blocks: set<BlockIndex>, b: BlockIndex)
    requires Indexed(blocks) && b in blocks
    ensures b.Rooted()
  {
  }

  /** A common last ancestor is one of the two exactly if one is above the other. */
  method AreOnTheSameFork(ghost blocks: set<BlockIndex>, pa: BlockIndex, pb: BlockIndex) returns (same: bool)
    requires Indexed(blocks) && pa in blocks && pb in blocks
    ensures pa.Rooted() && pb.Rooted()
    ensures same <==>
      || (pa.nHeight <= pb.nHeight && pb.Walk(pa.nHeight) == pa)
      || (pb.nHeight <= pa.nHeight && pa.Walk(pb.nHeight) == pb)
  {
    RootedIn(blocks, pa);
    RootedIn(blocks, pb);
    var common := LastCommonAncestor(blocks, pa, pb);
    same := common == pa || common == pb;
    assert pa.Walk(pa.nHeight) == pa && pb.Walk(pb.nHeight) == pb;
  }
}
