/** What the allocator's invariant means for a caller and for the two pointer structures. */
module HeapLaws {
  import opened Words
  import opened HeapSizes
  import opened Heap

  // ---- live allocations ----

  /** Live allocations occupy pairwise disjoint bytes, clear of every tag header. */
  lemma LiveRangesDisjoint(h: Allocator, p: Tag, t: Tag)
    requires h.Valid() && p in h.Live() && t in h.tags && t != p
    ensures Apart(p.addr + HEADER, p.size, t.addr, HEADER)
    ensures t in h.Live() ==> Apart(p.addr + HEADER, p.size, t.addr + HEADER, t.size)
  {
    assert h.TagsApart(p, t);
    assert h.BinnedAt(p) && h.BinnedAt(t);
    assert h.ChainAt(p) && h.ChainAt(t);
  }

  /** A live allocation lies, behind its header, inside pages on loan. */
  lemma LiveInsideBlock(h: Allocator, p: Tag)
    requires h.Valid() && p in h.Live()
    ensures p.block.addr in h.pages.lent
    ensures p.block.addr + HEADER <= p.addr + HEADER
    ensures p.addr + HEADER + p.size <= p.block.addr + h.pages.lent[p.block.addr] * PAGE_SIZE
    ensures p.index == -1 && p.next == null && p.prev == null
  {
    assert h.ChainAt(p);
    assert h.BinnedAt(p);
    assert h.Linked(p);
  }

  // ---- the physical chain ----

  /** The tags met from t rightwards. */
  ghost function Rightwards(h: Allocator, t: Tag): (s: seq<Tag>)
    requires h.Chain() && t in h.tags
    reads h, h.pages`lent, h.tags
    decreases WORD - t.addr
  {
    assert h.ChainAt(t);
    if t.splitRight == null then [t] else
      assert h.ChainAt(t.splitRight);
      [t] + Rightwards(h, t.splitRight)
  }

  function SumSizes(s: seq<Tag>): (r: nat)
    reads s
  {
    if s == [] then 0 else s[0].realSize + SumSizes(s[1..])
  }

  /** From any tag on, the chain abuts tag by tag and sums up to the rest of the block. */
  lemma {:induction false} RightwardsAbuts(h: Allocator, t: Tag)
    requires h.Chain() && t in h.tags
    ensures t.block.addr in h.pages.lent
    ensures var s := Rightwards(h, t);
      && |s| > 0 && s[0] == t
      && (forall i :: 0 <= i < |s| - 1 ==>
        s[i + 1].addr == s[i].addr + s[i].realSize && s[i].splitRight == s[i + 1] && s[i + 1].splitLeft == s[i])
      && t.addr + SumSizes(s) == t.block.addr + h.pages.lent[t.block.addr] * PAGE_SIZE
    decreases WORD - t.addr
  {
    assert h.ChainAt(t);
    var s := Rightwards(h, t);
    if t.splitRight != null {
      assert h.ChainAt(t.splitRight);
      RightwardsAbuts(h, t.splitRight);
      var r := Rightwards(h, t.splitRight);
      assert s == [t] + r && s[1..] == r;
    } else {
      assert s == [t] && s[1..] == [];
    }
  }

  /** It meets exactly the tags of the block from there on. */
  lemma {:induction false} RightwardsMeets(h: Allocator, t: Tag, u: Tag)
    requires h.Chain() && h.Disjoint() && t in h.tags
    ensures u in Rightwards(h, t) <==> u in h.tags && u.block == t.block && t.addr <= u.addr
    decreases WORD - t.addr
  {
    assert h.ChainAt(t);
    if u in h.tags && u != t {
      assert h.ChainAt(u);
      assert h.TagsApart(t, u);
    }
    if t.splitRight != null {
      assert h.ChainAt(t.splitRight);
      RightwardsMeets(h, t.splitRight, u);
    }
  }

  lemma NeighboursNotBothFree(h: Allocator, t: Tag)
    requires h.Valid() && t in h.tags && t.splitRight != null
    ensures t.splitRight in h.tags && t.splitRight.addr == t.addr + t.realSize
    ensures t.index < 0 || t.splitRight.index < 0
  {
    assert h.ChainAt(t);
    assert h.ChainAt(t.splitRight);
    assert h.CoalescedAt(t, {});
  }

  /** Each block on loan is tiled exactly by its tags, from its first byte to its last. */
  lemma BlocksAreTiled(h: Allocator, a: nat)
    requires h.Valid() && a in h.pages.lent
    ensures h.roots[a] in h.tags && h.roots[a].addr == a
    ensures var s := Rightwards(h, h.roots[a]);
      && SumSizes(s) == h.pages.lent[a] * PAGE_SIZE
      && (forall i :: 0 <= i < |s| - 1 ==> s[i + 1].addr == s[i].addr + s[i].realSize)
      && (forall u :: u in s <==> u in h.tags && u.block.addr == a)
  {
    var r := h.roots[a];
    RightwardsAbuts(h, r);
    var s := Rightwards(h, r);
    forall u ensures u in s <==> u in h.tags && u.block.addr == a {
      RightwardsMeets(h, r, u);
      if u in h.tags {
        assert h.ChainAt(u);
      }
    }
  }

  // ---- the free lists ----

  /** The list from t on, along the next links. */
  ghost function Onwards(h: Allocator, t: Tag?): (s: seq<Tag>)
    requires h.Lists() && (t != null ==> t in h.tags && t.index >= 0)
    reads h, h.freePages, h.tags
    decreases if t == null then 0 else t.stamp + 1
  {
    if t == null then [] else
      assert h.Linked(t);
      [t] + Onwards(h, t.next)
  }

  /** From t on, the list holds exactly the tags of its index that are no newer than t,
      newest first and linked both ways. */
  lemma {:induction false} OnwardsComplete(h: Allocator, t: Tag)
    requires h.Lists() && t in h.tags && t.index >= 0
    ensures var s := Onwards(h, t);
      && |s| > 0 && s[0] == t && s[|s| - 1].next == null
      && (forall i :: 0 <= i < |s| - 1 ==>
        s[i].next == s[i + 1] && s[i + 1].prev == s[i] && s[i + 1].stamp < s[i].stamp)
      && (forall u :: u in s <==> u in h.tags && u.index == t.index && u.stamp <= t.stamp)
    decreases t.stamp
  {
    assert h.Linked(t);
    var s := Onwards(h, t);
    forall u | u in h.tags && u.index == t.index && u.stamp <= t.stamp && u != t
      ensures t.next != null && u.stamp <= t.next.stamp
    {
      assert h.Ordered(t, u);
    }
    if t.next != null {
      OnwardsComplete(h, t.next);
      assert s == [t] + Onwards(h, t.next);
    } else {
      assert s == [t] + Onwards(h, null) == [t];
    }
  }

  /** A tag is in the free list of k exactly when it is free and its size belongs there. */
  lemma FreeListExact(h: Allocator, k: nat)
    requires h.Valid() && k < MAX_EXP
    ensures h.freePages[k] != null ==>
      h.freePages[k] in h.tags && h.freePages[k].index >= 0 && h.freePages[k].prev == null
    ensures forall u :: u in Onwards(h, h.freePages[k]) <==> u in h.tags && u !in h.Live() && InBin(k, u.realSize)
  {
    var head := h.freePages[k];
    if head != null {
      OnwardsComplete(h, head);
      assert h.Linked(head);
    }
    var s := Onwards(h, head);
    forall u ensures u in s <==> u in h.tags && u !in h.Live() && InBin(k, u.realSize) {
      if u in h.tags && u.index >= 0 {
        assert h.BinnedAt(u);
        assert h.Linked(u);
      }
    }
  }

  /** The counter of list k is the number of whole blocks in it, five at most. */
  lemma CountersExact(h: Allocator, k: nat, S: set<Tag>)
    requires h.Valid() && k < MAX_EXP
    requires forall u :: u in S <==> u in h.tags && u.index == k && h.Unsplit(u)
    ensures h.completePages[k] == |S| <= MAX_COMPLETE
  {
    assert S == h.Complete(k, {});
  }
}
