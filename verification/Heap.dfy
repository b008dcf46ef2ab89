/** The heap allocator: boundary tags that sit in a physical left/right chain
    and, while free, in a doubly linked free list. */
module Heap {
  import opened Words
  import opened HeapSizes

  /** The page interface below the allocator. An address of 0 is C's NULL. */
  class PageSource {
    var lent: map<nat, nat>  // base address of each block handed out, to its page count

    ghost predicate Valid()
      reads `lent
    {
      && (forall a <- lent :: KERNEL_BASE <= a && MIN_PAGES <= lent[a] && a + lent[a] * PAGE_SIZE <= WORD)
      && (forall a <- lent, b <- lent :: a != b ==> Apart(a, lent[a] * PAGE_SIZE, b, lent[b] * PAGE_SIZE))
    }

    /** What a non-NULL answer to a request for n pages promises: that many contiguous
        pages of kernel address space, none of them on loan. */
    predicate CanLend(a: nat, n: nat)
      reads `lent
    {
      && KERNEL_BASE <= a && a + n * PAGE_SIZE <= WORD
      && (forall b <- lent :: Apart(a, n * PAGE_SIZE, b, lent[b] * PAGE_SIZE))
    }

    constructor ()
      ensures Valid() && lent == map[]
    {
      lent := map[];
    }

    /** `offer` is the answer of the page layer below; 0 when it has no pages. */
    method Alloc(n: nat, offer: nat) returns (p: nat)
      requires Valid() && (offer == 0 || CanLend(offer, n))
      requires MIN_PAGES <= n
      modifies `lent
      ensures Valid() && p == offer
      ensures lent == if offer == 0 then old(lent) else old(lent)[offer := n]
      ensures offer != 0 ==> offer !in old(lent)
    {
      p := offer;
      if offer != 0 {
        forall b <- lent ensures b != offer {
          assert Apart(offer, n * PAGE_SIZE, b, lent[b] * PAGE_SIZE);
        }
        lent := lent[offer := n];
      }
    }

    /** Pages go back only as the whole block they were obtained as. */
    method Free(p: nat, n: nat)
      requires Valid() && p in lent && lent[p] == n
      modifies `lent
      ensures Valid() && lent == old(lent) - {p}
    {
      lent := lent - {p};
    }
  }

  predicate Apart(a: nat, la: nat, b: nat, lb: nat) {
    a + la <= b || b + lb <= a
  }

  class Tag {
    const addr: nat
    var size: nat
    var realSize: nat
    var index: int
    var splitLeft: Tag?
    var splitRight: Tag?
    var next: Tag?
    var prev: Tag?
    ghost var stamp: nat   // when the tag last entered a free list
    ghost var block: Tag   // leftmost tag of the page block the tag lies in

    constructor (addr: nat, size: nat, realSize: nat, splitLeft: Tag?, splitRight: Tag?, ghost block: Tag?)
      ensures this.addr == addr && this.size == size && this.realSize == realSize
      ensures this.splitLeft == splitLeft && this.splitRight == splitRight
      ensures next == null && prev == null && index == -1
      ensures this.block == if block == null then this else block
    {
      this.addr, this.size, this.realSize := addr, size, realSize;
      this.splitLeft, this.splitRight := splitLeft, splitRight;
      next, prev, index := null, null, -1;
      if block == null {
        this.block := this;
      } else {
        this.block := block;
      }
    }
  }

  class Allocator {
    const pages: PageSource
    const freePages: array<Tag?>
    const completePages: array<int>
    ghost var tags: set<Tag>
    ghost var roots: map<nat, Tag>  // leftmost tag of every block on loan
    ghost var clock: nat

    /** Physical structure: the tags of each block tile it from end to end. */
    ghost predicate Chain()
      reads this`tags, this`roots, pages`lent
      reads tags`realSize, tags`splitLeft, tags`splitRight, tags`block
    {
      && pages.Valid()
      && roots.Keys == pages.lent.Keys
      && (forall a <- roots ::
        roots[a] in tags && roots[a].addr == a && roots[a].block == roots[a] && roots[a].splitLeft == null)
      && (forall t {:trigger ChainAt(t)} :: t in tags ==> ChainAt(t))
    }

    ghost predicate ChainAt(t: Tag)
      requires t in tags
      reads this`tags, this`roots, pages`lent
      reads tags`realSize, tags`splitLeft, tags`splitRight, tags`block
    {
      && HEADER <= t.realSize
      && t.block.addr in roots && roots[t.block.addr] == t.block && t.block.addr in pages.lent
      && t.block.addr <= t.addr && t.addr + t.realSize <= t.block.addr + pages.lent[t.block.addr] * PAGE_SIZE
      && (t.splitLeft == null ==> t.block == t)
      && (t.splitLeft != null ==>
          && t.splitLeft in tags && t.splitLeft.splitRight == t && t.splitLeft.block == t.block
          && t.splitLeft.addr + t.splitLeft.realSize == t.addr)
      && (t.splitRight == null ==> t.addr + t.realSize == t.block.addr + pages.lent[t.block.addr] * PAGE_SIZE)
      && (t.splitRight != null ==>
          && t.splitRight in tags && t.splitRight.splitLeft == t)
    }

    ghost predicate Disjoint()
      reads this`tags, tags`realSize
    {
      forall t, u {:trigger TagsApart(t, u)} :: t in tags && u in tags && t != u ==> TagsApart(t, u)
    }

    ghost predicate TagsApart(t: Tag, u: Tag)
      reads t`realSize, u`realSize
    {
      Apart(t.addr, t.realSize, u.addr, u.realSize)
    }

    /** Free lists: newest first, linked both ways, each free tag in the list of its index. */
    ghost predicate Lists()
      reads this`tags, this`clock, freePages
      reads tags`index, tags`next, tags`prev, tags`stamp
    {
      AllLinked() && AllOrdered()
    }

    ghost predicate AllLinked()
      reads this`tags, this`clock, freePages
      reads tags`index, tags`next, tags`prev, tags`stamp
    {
      && freePages.Length == MAX_EXP
      && (forall k :: 0 <= k < MAX_EXP && freePages[k] != null ==> freePages[k] in tags && freePages[k].index == k)
      && (forall t {:trigger Linked(t)} :: t in tags ==> Linked(t))
    }

    ghost predicate AllOrdered()
      reads this`tags, tags`index, tags`next, tags`stamp
    {
      forall t, u {:trigger Ordered(t, u)} :: t in tags && u in tags && t.index >= 0 && t.index == u.index ==>
        Ordered(t, u)
    }

    ghost predicate Linked(t: Tag)
      requires t in tags && freePages.Length == MAX_EXP
      reads this`tags, this`clock, freePages
      reads tags`index, tags`next, tags`prev, tags`stamp
    {
      if t.index < 0 then
        t.index == -1 && t.next == null && t.prev == null
      else
        && t.index < MAX_EXP && t.stamp < clock
        && freePages[t.index] != null && freePages[t.index] in tags && t.stamp <= freePages[t.index].stamp
        && (t.prev == null <==> freePages[t.index] == t)
        && (t.prev != null ==> t.prev in tags && t.prev.index == t.index && t.prev.next == t)
        && (t.next != null ==> t.next in tags && t.next.index == t.index && t.next.prev == t && t.next.stamp < t.stamp)
    }

    /** The link of t leads to the newest tag of its list older than t. */
    ghost predicate Ordered(t: Tag, u: Tag)
      requires t in tags && u in tags
      reads this`tags, tags`next, tags`stamp
    {
      && (t != u ==> t.stamp != u.stamp)
      && (u.stamp < t.stamp ==> t.next != null && (t.next in tags ==> u.stamp <= t.next.stamp))
    }

    /** No two physical neighbours are both free. Tags in X are being worked on and exempt. */
    ghost predicate Coalesced(X: set<Tag>)
      reads this`tags, tags`index, tags`splitRight
    {
      forall t {:trigger CoalescedAt(t, X)} :: t in tags ==> CoalescedAt(t, X)
    }

    ghost predicate CoalescedAt(t: Tag, X: set<Tag>)
      requires t in tags
      reads this`tags, tags`index, tags`splitRight
    {
      t !in X && t.splitRight != null && t.splitRight !in X && t.splitRight in tags ==>
        t.index < 0 || t.splitRight.index < 0
    }

    /** A free tag is in the list its size calls for; an allocated one holds its request. */
    ghost predicate Binned(X: set<Tag>)
      reads this`tags, tags`index, tags`realSize, tags`size
    {
      forall t {:trigger BinnedAt(t)} :: t in tags && t !in X ==> BinnedAt(t)
    }

    ghost predicate BinnedAt(t: Tag)
      reads t`index, t`realSize, t`size
    {
      if t.index >= 0 then InBin(t.index, t.realSize) else HEADER + t.size <= t.realSize
    }

    /** The unsplit tags of list k: wholly free page blocks. */
    ghost function Complete(k: int, X: set<Tag>): (r: set<Tag>)
      reads this`tags, tags`index, tags`splitLeft, tags`splitRight
    {
      set t <- tags | t !in X && t.index == k && t.splitLeft == null && t.splitRight == null
    }

    ghost predicate Counted(X: set<Tag>)
      reads this`tags, completePages, tags`index, tags`splitLeft, tags`splitRight
    {
      && completePages.Length == MAX_EXP
      && (forall k :: 0 <= k < MAX_EXP ==> completePages[k] == |Complete(k, X)| <= MAX_COMPLETE)
    }

    ghost predicate Settled(X: set<Tag>)
      reads this`tags, completePages, tags`index, tags`realSize, tags`size, tags`splitLeft, tags`splitRight
    {
      Coalesced(X) && Binned(X) && Counted(X)
    }

    /** The joint invariant over both pointer structures, the sizes and the counters. */
    ghost predicate Inv(X: set<Tag>)
      reads this, pages`lent, freePages, completePages, tags
    {
      Chain() && Disjoint() && Lists() && Settled(X)
    }

    ghost predicate Valid()
      reads this, pages`lent, freePages, completePages, tags
    {
      Inv({})
    }

    /** The live allocations. */
    ghost function Live(): (r: set<Tag>)
      reads this`tags, tags`index
    {
      set t <- tags | t.index < 0
    }

    constructor (pages: PageSource)
      requires pages.Valid() && pages.lent == map[]
      ensures Valid() && this.pages == pages && Live() == {} && tags == {}
      ensures fresh(freePages) && fresh(completePages)
    {
      this.pages := pages;
      freePages := new Tag?[MAX_EXP](_ => null);
      completePages := new int[MAX_EXP](_ => 0);
      tags, roots, clock := {}, map[], 0;
      new;
      assert forall k :: Complete(k, {}) == {};
    }

    // ---- insert_tag ----

    /** The field updates of insert_tag. */
    twostate predicate Pushed(tag: Tag)
      requires tag in old(tags) && tag in tags && 0 <= tag.index < MAX_EXP && freePages.Length == MAX_EXP
      reads this`tags, this`clock, freePages, tags`index, tags`next, tags`prev, tags`stamp
    {
      var k := tag.index;
      && tags == old(tags) && clock == old(clock) + 1
      && (forall t <- tags :: t.stamp == if t == tag then old(clock) else old(t.stamp))
      && (forall t <- tags :: t != tag ==> t.index == old(t.index))
      && (forall t <- tags :: t.next == if t == tag then old(freePages[k]) else old(t.next))
      && (forall t <- tags :: t.prev == if t == old(freePages[k]) then tag else old(t.prev))
      && (forall i :: 0 <= i < MAX_EXP ==> freePages[i] == if i == k then tag else old(freePages[i]))
    }

    twostate lemma PushedIsLinked(tag: Tag, new t: Tag)
      requires old(Lists()) && tag in old(tags) && old(tag.index) == -1 && tag in tags && 0 <= tag.index < MAX_EXP
      requires Pushed(tag) && t in old(tags) && t in tags
      ensures Linked(t)
    {
      assert old(Linked(tag));
      assert old(Linked(t));
      var k := tag.index;
      if t.index == k && old(freePages[k]) != null {
        assert old(Linked(freePages[k]));
      }
    }

    twostate lemma PushedIsOrdered(tag: Tag, new t: Tag, new u: Tag)
      requires old(Lists()) && tag in old(tags) && old(tag.index) == -1 && tag in tags && 0 <= tag.index < MAX_EXP
      requires Pushed(tag) && t in tags && u in tags && t.index >= 0 && t.index == u.index
      ensures Ordered(t, u)
    {
      assert old(Linked(t));
      assert old(Linked(u));
      if t != tag && u != tag {
        assert old(Ordered(t, u));
      }
    }

    twostate lemma PushedKeepsLinks(tag: Tag)
      requires old(Lists()) && tag in old(tags) && old(tag.index) == -1 && tag in tags && 0 <= tag.index < MAX_EXP
      requires Pushed(tag)
      ensures AllLinked()
    {
      forall t <- tags ensures Linked(t) {
        PushedIsLinked(tag, t);
      }
    }

    twostate lemma PushedKeepsOrder(tag: Tag)
      requires old(Lists()) && tag in old(tags) && old(tag.index) == -1 && tag in tags && 0 <= tag.index < MAX_EXP
      requires Pushed(tag)
      ensures AllOrdered()
    {
      forall t <- tags, u <- tags | t.index >= 0 && t.index == u.index ensures Ordered(t, u) {
        PushedIsOrdered(tag, t, u);
      }
    }

    twostate lemma PushedKeepsLists(tag: Tag)
      requires old(Lists()) && tag in old(tags) && old(tag.index) == -1 && tag in tags && 0 <= tag.index < MAX_EXP
      requires Pushed(tag)
      ensures Lists()
    {
      PushedKeepsLinks(tag);
      PushedKeepsOrder(tag);
    }

    method InsertTag(tag: Tag, index: int)
      requires freePages.Length == MAX_EXP && tag in tags && tag.index == -1 && tag.next == null && tag.prev == null
      requires HEADER <= tag.realSize < WORD && index < MAX_EXP
      requires forall k :: 0 <= k < MAX_EXP && freePages[k] != null ==> freePages[k] in tags && freePages[k] != tag
      modifies freePages, `clock, tags`prev, tag`next, tag`index, tag`stamp
      ensures 0 <= tag.index < MAX_EXP
      ensures tag.index == if index < 0 then Bin(tag.realSize - HEADER) else index
      ensures Pushed(tag)
    {
      var realIndex := index;
      if index < 0 {
        realIndex := GetBin(tag.realSize - HEADER);
      }
      PushFront(tag, realIndex);
    }

    method PushFront(tag: Tag, k: int)
      requires freePages.Length == MAX_EXP && tag in tags && tag.index == -1 && tag.next == null && tag.prev == null
      requires 0 <= k < MAX_EXP && (freePages[k] != null ==> freePages[k] in tags && freePages[k] != tag)
      modifies freePages, `clock, tags`prev, tag`next, tag`index, tag`stamp
      ensures tag.index == k && Pushed(tag)
    {
      tag.index := k;
      if freePages[k] != null {
        freePages[k].prev := tag;
        tag.next := freePages[k];
      }
      freePages[k] := tag;
      tag.stamp := clock;
      clock := clock + 1;
    }

    // ---- remove_tag ----

    /** The field updates of remove_tag. */
    twostate predicate Unlinked(tag: Tag)
      requires tag in old(tags) && 0 <= old(tag.index) < MAX_EXP && freePages.Length == MAX_EXP
      reads this`tags, this`clock, freePages, tags`index, tags`next, tags`prev, tags`stamp
    {
      var k, l, r := old(tag.index), old(tag.prev), old(tag.next);
      && tags == old(tags) && clock == old(clock)
      && (forall t <- tags :: t.stamp == old(t.stamp))
      && (forall t <- tags :: t.index == if t == tag then -1 else old(t.index))
      && (forall t <- tags :: t.next == if t == tag then null else if t == l then r else old(t.next))
      && (forall t <- tags :: t.prev == if t == tag then null else if t == r then l else old(t.prev))
      && (forall i :: 0 <= i < MAX_EXP ==> freePages[i] == if i == k && l == null then r else old(freePages[i]))
    }

    twostate lemma UnlinkedIsLinked(tag: Tag, new t: Tag)
      requires old(Lists()) && tag in old(tags) && 0 <= old(tag.index) < MAX_EXP
      requires Unlinked(tag) && t in tags
      ensures Linked(t)
    {
      assert old(Linked(tag));
      assert old(Linked(t));
      if t.index == old(tag.index) {
        assert old(Ordered(tag, t));
        assert old(Ordered(t, tag));
      }
    }

    twostate lemma UnlinkedIsOrdered(tag: Tag, new t: Tag, new u: Tag)
      requires old(Lists()) && tag in old(tags) && 0 <= old(tag.index) < MAX_EXP
      requires Unlinked(tag) && t in tags && u in tags && t.index >= 0 && t.index == u.index
      ensures Ordered(t, u)
    {
      assert old(Linked(tag));
      assert old(Linked(t));
      assert old(Ordered(t, u));
      if t == old(tag.prev) {
        assert old(Ordered(tag, u));
      }
    }

    twostate lemma UnlinkedKeepsLinks(tag: Tag)
      requires old(Lists()) && tag in old(tags) && 0 <= old(tag.index) < MAX_EXP
      requires Unlinked(tag)
      ensures AllLinked()
    {
      forall t <- tags ensures Linked(t) {
        UnlinkedIsLinked(tag, t);
      }
      assert old(Linked(tag));
    }

    twostate lemma UnlinkedKeepsOrder(tag: Tag)
      requires old(Lists()) && tag in old(tags) && 0 <= old(tag.index) < MAX_EXP
      requires Unlinked(tag)
      ensures AllOrdered()
    {
      forall t <- tags, u <- tags | t.index >= 0 && t.index == u.index ensures Ordered(t, u) {
        UnlinkedIsOrdered(tag, t, u);
      }
    }

    twostate lemma UnlinkedKeepsLists(tag: Tag)
      requires old(Lists()) && tag in old(tags) && 0 <= old(tag.index) < MAX_EXP
      requires Unlinked(tag)
      ensures Lists()
    {
      UnlinkedKeepsLinks(tag);
      UnlinkedKeepsOrder(tag);
    }

    method Unlink(tag: Tag)
      requires freePages.Length == MAX_EXP && tag in tags && tag.index >= 0 && Linked(tag)
      modifies freePages, tags`next, tags`prev, tag`index
      ensures Unlinked(tag)
    {
      if freePages[tag.index] == tag {
        freePages[tag.index] := tag.next;
      }
      if tag.prev != null {
        tag.prev.next := tag.next;
      }
      if tag.next != null {
        tag.next.prev := tag.prev;
      }
      tag.next := null;
      tag.prev := null;
      tag.index := -1;
    }

    // ---- melt_left and absorb_right: merging r into its left neighbour l ----

    /** The field updates of a merge. */
    twostate predicate Merged(l: Tag, new r: Tag)
      requires l in old(tags) && r in old(tags)
      reads this`tags, this`roots, pages`lent, tags`realSize, tags`splitLeft, tags`splitRight, tags`block
    {
      var n := old(r.splitRight);
      && tags == old(tags) - {r} && roots == old(roots) && pages.lent == old(pages.lent)
      && (forall t <- tags :: t.realSize == if t == l then old(l.realSize) + old(r.realSize) else old(t.realSize))
      && (forall t <- tags :: t.splitLeft == if t == n then l else old(t.splitLeft))
      && (forall t <- tags :: t.splitRight == if t == l then n else old(t.splitRight))
      && (forall t <- tags :: t.block == old(t.block))
    }

    twostate lemma MergedChainAt(l: Tag, new r: Tag, new t: Tag)
      requires old(Chain()) && l in old(tags) && r in old(tags) && old(r.splitLeft) == l
      requires Merged(l, r) && t in tags
      ensures ChainAt(t)
    {
      assert old(ChainAt(l));
      assert old(ChainAt(r));
      assert old(ChainAt(t));
    }

    twostate lemma MergedKeepsChain(l: Tag, new r: Tag)
      requires old(Chain()) && l in old(tags) && r in old(tags) && old(r.splitLeft) == l
      requires Merged(l, r)
      ensures Chain()
    {
      forall t <- tags ensures ChainAt(t) {
        MergedChainAt(l, r, t);
      }
    }

    twostate lemma MergedApart(l: Tag, new r: Tag, new u: Tag)
      requires l in old(tags) && r in old(tags) && old(r.splitLeft) == l && old(Chain()) && old(Disjoint())
      requires Merged(l, r) && u in tags && u != l
      ensures TagsApart(l, u)
    {
      assert old(TagsApart(l, u));
      assert old(TagsApart(r, u));
      assert old(ChainAt(r)) && old(ChainAt(u));
    }

    twostate lemma MergedKeepsDisjoint(l: Tag, new r: Tag)
      requires l in old(tags) && r in old(tags) && old(r.splitLeft) == l && old(Chain()) && old(Disjoint())
      requires Merged(l, r)
      ensures Disjoint()
    {
      forall t <- tags, u <- tags | t != u ensures TagsApart(t, u) {
        if t == l {
          MergedApart(l, r, u);
        } else if u == l {
          MergedApart(l, r, t);
        } else {
          assert old(TagsApart(t, u));
        }
      }
    }

    /** The free lists are untouched. */
    twostate predicate SameLinks()
      requires freePages.Length == MAX_EXP
      reads this`tags, this`clock, freePages, tags`index, tags`next, tags`prev, tags`stamp
    {
      && clock == old(clock)
      && (forall k :: 0 <= k < MAX_EXP ==> freePages[k] == old(freePages[k]))
      && (forall t <- tags :: t in old(tags) ==>
          t.index == old(t.index) && t.next == old(t.next) && t.prev == old(t.prev) && t.stamp == old(t.stamp))
    }

    twostate lemma SameLinksKeepsLinked(r: Tag, new t: Tag)
      requires r in old(tags) && old(r.index) == -1 && old(AllLinked())
      requires tags == old(tags) - {r} && SameLinks() && t in tags
      ensures Linked(t)
    {
      assert old(Linked(t)) && old(Linked(r));
    }

    twostate lemma SameLinksKeepsLinks(r: Tag)
      requires r in old(tags) && old(r.index) == -1 && old(AllLinked())
      requires tags == old(tags) - {r} && SameLinks()
      ensures AllLinked()
    {
      forall t <- tags ensures Linked(t) {
        SameLinksKeepsLinked(r, t);
      }
    }

    twostate lemma SameLinksKeepsOrder(r: Tag)
      requires r in old(tags) && old(r.index) == -1 && old(AllLinked()) && old(AllOrdered())
      requires tags == old(tags) - {r} && SameLinks()
      ensures AllOrdered()
    {
      forall t <- tags, u <- tags | t.index >= 0 && t.index == u.index ensures Ordered(t, u) {
        assert old(Ordered(t, u));
        assert old(Linked(t));
      }
    }

    /** A tag that is not a complete free block may be exempted. */
    lemma Widen(X: set<Tag>, t: Tag, Y: set<Tag>)
      requires Inv(X) && t in tags && (t.index < 0 || t.splitLeft != null || t.splitRight != null)
      requires Y == X + {t}
      ensures Inv(Y)
    {
      forall k | 0 <= k < MAX_EXP ensures Complete(k, Y) == Complete(k, X) {
      }
      forall u <- tags ensures CoalescedAt(u, Y) {
        assert CoalescedAt(u, X);
      }
    }

    /** Sizes and neighbours of the tags other than l and r are untouched. */
    twostate lemma UnlinkedKeepsSettled(X: set<Tag>, new tag: Tag)
      requires tag in old(tags) && 0 <= old(tag.index) < MAX_EXP && freePages.Length == MAX_EXP
      requires Unlinked(tag) && tag in X && old(Settled(X))
      requires forall k :: 0 <= k < MAX_EXP ==> completePages[k] == old(completePages[k])
      requires forall t <- tags ::
        t.splitLeft == old(t.splitLeft) && t.splitRight == old(t.splitRight) && t.realSize == old(t.realSize)
          && t.size == old(t.size)
      ensures Settled(X)
    {
      forall k | 0 <= k < MAX_EXP ensures Complete(k, X) == old(Complete(k, X)) {
      }
      forall u <- tags ensures CoalescedAt(u, X) {
        assert old(CoalescedAt(u, X));
      }
      forall u <- tags | u !in X ensures BinnedAt(u) {
        assert old(BinnedAt(u));
      }
    }

    twostate lemma MergedKeepsCoalesced(X: set<Tag>, new l: Tag, new r: Tag)
      requires l in old(tags) && r in old(tags) && Merged(l, r) && X == {l, r}
      requires forall t <- tags :: t.index == old(t.index)
      requires old(Coalesced(X))
      ensures Coalesced({l})
    {
      forall u <- tags ensures CoalescedAt(u, {l}) {
        assert old(CoalescedAt(u, X));
      }
    }

    twostate lemma MergedKeepsCounted(X: set<Tag>, new l: Tag, new r: Tag)
      requires l in old(tags) && r in old(tags) && Merged(l, r) && X == {l, r}
      requires old(r.splitRight) in old(tags) ==> old(r.splitRight.splitLeft) == r
      requires forall t <- tags :: t.index == old(t.index)
      requires old(Counted(X)) && forall k :: 0 <= k < MAX_EXP ==> completePages[k] == old(completePages[k])
      ensures Counted({l})
    {
      forall k | 0 <= k < MAX_EXP ensures Complete(k, {l}) == old(Complete(k, X)) {
      }
    }

    twostate lemma MergedKeepsBinned(X: set<Tag>, new l: Tag, new r: Tag)
      requires l in old(tags) && r in old(tags) && Merged(l, r) && X == {l, r}
      requires forall t <- tags :: t.index == old(t.index) && t.size == old(t.size)
      requires old(Binned(X))
      ensures Binned({l})
    {
      forall t <- tags | t != l ensures BinnedAt(t) {
        assert old(BinnedAt(t));
      }
    }

    /** Everything but the physical fields of a merge is untouched. */
    twostate predicate MergeFrame()
      requires freePages.Length == MAX_EXP && completePages.Length == MAX_EXP
      reads this`tags, this`clock, freePages, completePages, tags`index, tags`next, tags`prev, tags`stamp, tags`size
    {
      && SameLinks()
      && (forall k :: 0 <= k < MAX_EXP ==> completePages[k] == old(completePages[k]))
      && (forall t <- tags :: t in old(tags) ==> t.size == old(t.size))
    }

    twostate lemma MergedKeepsInv(X: set<Tag>, new l: Tag, new r: Tag)
      requires l in old(tags) && r in old(tags) && old(r.splitLeft) == l && old(r.index) == -1 && X == {l, r}
      requires old(Inv(X)) && Merged(l, r) && MergeFrame()
      ensures Inv({l})
    {
      assert old(ChainAt(r));
      MergedKeepsChain(l, r);
      MergedKeepsDisjoint(l, r);
      SameLinksKeepsLinks(r);
      SameLinksKeepsOrder(r);
      MergedKeepsCoalesced(X, l, r);
      MergedKeepsBinned(X, l, r);
      MergedKeepsCounted(X, l, r);
    }

    /** remove_tag on a tag being worked on. */
    method RemoveTag(tag: Tag, ghost X: set<Tag>)
      requires Inv(X) && tag in X && tag in tags && tag.index >= 0
      modifies freePages, tags`next, tags`prev, tag`index
      ensures Inv(X) && 0 <= old(tag.index) < MAX_EXP && tag.index == -1
    {
      assert Settled(X) && Linked(tag);
      Unlink(tag);
      UnlinkedKeepsLists(tag);
      UnlinkedKeepsSettled(X, tag);
    }

    // ---- melt_left and absorb_right ----

    /** What merging r into l leaves alone, and what becomes of l. */
    twostate predicate Grown(l: Tag, new r: Tag)
      requires l in old(tags) && r in old(tags)
      reads this`tags, tags`realSize, tags`splitLeft, tags`splitRight
    {
      && tags == old(tags) - {r} && l in tags
      && l.realSize == old(l.realSize) + old(r.realSize)
      && l.splitLeft == old(l.splitLeft) && l.splitRight == old(r.splitRight)
    }

    /** The assignments melt_left and absorb_right share. */
    method Splice(l: Tag, r: Tag)
      requires l in tags && r in tags && l != r && r.splitRight != l
      requires r.splitRight != null ==> r.splitRight in tags
      modifies `tags, l`realSize, l`splitRight, tags`splitLeft
      ensures l in old(tags) && r in old(tags) && Merged(l, r)
    {
      l.realSize := l.realSize + r.realSize;
      l.splitRight := r.splitRight;
      if r.splitRight != null {
        r.splitRight.splitLeft := l;
      }
      tags := tags - {r};
    }

    method Join(l: Tag, r: Tag, ghost X: set<Tag>)
      requires X == {l, r} && Inv(X) && l in tags && r in tags && r.splitLeft == l && r.index == -1
      modifies `tags, l`realSize, l`splitRight, tags`splitLeft
      ensures l in old(tags) && r in old(tags) && Grown(l, r)
      ensures Inv({l})
    {
      assert ChainAt(r);
      assert ChainAt(l);
      if r.splitRight != null {
        assert ChainAt(r.splitRight);
      }
      Splice(l, r);
      MergedKeepsInv(X, l, r);
    }

    /** Merge of an allocated tag into its left neighbour. */
    method MeltLeft(tag: Tag) returns (left: Tag)
      requires Inv({tag}) && tag in tags && tag.index == -1 && tag.splitLeft != null
      modifies `tags, tag.splitLeft`realSize, tag.splitLeft`splitRight, tags`splitLeft
      ensures left in old(tags) && left == old(tag.splitLeft) && Grown(left, tag)
      ensures Inv({left})
    {
      assert ChainAt(tag);
      left := tag.splitLeft;
      ghost var X := {left, tag};
      Widen({tag}, left, X);
      Join(left, tag, X);
    }

    /** A free right neighbour is unlinked and taken in. */
    method AbsorbRight(tag: Tag)
      requires Inv({tag}) && tag in tags && tag.index == -1
      requires tag.splitRight != null && tag.splitRight.index >= 0
      modifies `tags, freePages, tag`realSize, tag`splitRight, tags`splitLeft, tags`next, tags`prev,
        tag.splitRight`index
      ensures old(tag.splitRight) in old(tags) && Grown(tag, old(tag.splitRight))
      ensures Inv({tag})
    {
      assert ChainAt(tag);
      var right := tag.splitRight;
      ghost var X := {tag, right};
      Widen({tag}, right, X);
      RemoveTag(right, X);
      Join(tag, right, X);
    }

    // ---- free ----

    /** The tags other than `tag` are as they were, but for those merged into it. */
    twostate predicate OthersKept(new tag: Tag)
      reads this`tags, tags`index, tags`realSize
    {
      tags <= old(tags) && forall t <- tags :: t != tag && t in old(tags) ==>
        t.index == old(t.index) && t.realSize == old(t.realSize)
    }

    /** One round of the first loop; a second one is never needed. */
    method LeftRound(tag: Tag) returns (left: Tag)
      requires Inv({tag}) && tag in tags && tag.index == -1 && tag.splitLeft != null && tag.splitLeft.index >= 0
      modifies `tags, freePages, tag.splitLeft`realSize, tag.splitLeft`splitRight, tags`splitLeft, tags`next,
        tags`prev, tag.splitLeft`index
      ensures left == old(tag.splitLeft) && tags == old(tags) - {tag} && left in tags && left.index == -1
      ensures Inv({left}) && left in old(tags) && OthersKept(left)
      ensures left.splitLeft == null || left.splitLeft.index < 0
      ensures left.realSize == old(tag.splitLeft.realSize) + old(tag.realSize) && left.splitRight == old(tag.splitRight)
    {
      assert ChainAt(tag);
      ghost var l := tag.splitLeft;
      assert ChainAt(l);
      if l.splitLeft != null {
        assert CoalescedAt(l.splitLeft, {tag});
      }
      left := MeltLeft(tag);
      assert ChainAt(left);
      RemoveTag(left, {left});
    }

    /** One round of the second loop. */
    method RightRound(tag: Tag)
      requires Inv({tag}) && tag in tags && tag.index == -1 && tag.splitRight != null && tag.splitRight.index >= 0
      requires tag.splitLeft == null || tag.splitLeft.index < 0
      modifies `tags, freePages, tag`realSize, tag`splitRight, tags`splitLeft, tags`next, tags`prev,
        tag.splitRight`index
      ensures tags == old(tags) - {old(tag.splitRight)} && tag in tags && tag.index == -1
      ensures Inv({tag}) && OthersKept(tag)
      ensures tag.splitLeft == null || tag.splitLeft.index < 0
      ensures tag.splitRight == null || tag.splitRight.index < 0
      ensures tag.realSize == old(tag.realSize) + old(tag.splitRight.realSize)
    {
      assert ChainAt(tag);
      ghost var r := tag.splitRight;
      assert ChainAt(r);
      assert CoalescedAt(r, {tag});
      AbsorbRight(tag);
      assert ChainAt(tag);
    }

    /** The space a neighbour can give: none if it is missing or in use. */
    ghost function FreeSpace(t: Tag?): (n: nat)
      reads t
    {
      if t != null && t.index >= 0 then t.realSize else 0
    }

    /** What the first loop of free takes away: the freed tag if its left neighbour is free. */
    ghost function MeltedAway(freed: Tag): (s: set<Tag>)
      reads freed, freed.splitLeft
    {
      if freed.splitLeft != null && freed.splitLeft.index >= 0 then {freed} else {}
    }

    /** What the second takes away: the right neighbour if that is free. */
    ghost function AbsorbedAway(tag: Tag): (s: set<Tag>)
      reads tag, tag.splitRight
    {
      if tag.splitRight != null && tag.splitRight.index >= 0 then {tag.splitRight} else {}
    }

    /** First loop of free: it runs at most once, since neighbours are never both free. */
    method MeltLefts(freed: Tag) returns (tag: Tag)
      requires Valid() && freed in tags && freed.index == -1
      modifies `tags, freePages, tags`realSize, tags`splitRight, tags`splitLeft, tags`next, tags`prev, tags`index
      ensures Inv({tag}) && tag in tags && tag.index == -1
      ensures tag.splitLeft == null || tag.splitLeft.index < 0
      ensures OthersKept(tag)
      ensures tag == if old(freed.splitLeft) != null && old(freed.splitLeft.index) >= 0 then old(freed.splitLeft)
        else freed
      ensures tags == old(tags) - old(MeltedAway(freed))
      ensures tag.realSize == old(FreeSpace(freed.splitLeft)) + old(freed.realSize)
        && tag.splitRight == old(freed.splitRight)
    {
      tag := freed;
      ghost var rounds := 0;
      Widen({}, tag, {tag});
      while tag.splitLeft != null && tag.splitLeft.index >= 0
        invariant Inv({tag}) && tag in tags && tag.index == -1 && OthersKept(tag)
        invariant 0 <= rounds <= 1
        invariant rounds == 0 ==> tag == freed && tags == old(tags) && tag.splitLeft == old(freed.splitLeft)
        invariant rounds == 0 && tag.splitLeft != null ==> tag.splitLeft.index == old(freed.splitLeft.index)
        invariant rounds == 1 ==> tag == old(freed.splitLeft) && tags == old(tags) - {freed} && old(tag.index) >= 0
        invariant rounds == 1 ==> tag.splitLeft == null || tag.splitLeft.index < 0
        invariant rounds == 0 ==> tag.realSize == old(freed.realSize)
        invariant rounds == 1 ==> tag.realSize == old(freed.splitLeft.realSize) + old(freed.realSize)
        invariant tag.splitRight == old(freed.splitRight)
        decreases 1 - rounds
      {
        assert ChainAt(tag);
        tag := LeftRound(tag);
        rounds := rounds + 1;
      }
    }

    /** Second loop of free: it too runs at most once. */
    method AbsorbRights(tag: Tag)
      requires Inv({tag}) && tag in tags && tag.index == -1
      requires tag.splitLeft == null || tag.splitLeft.index < 0
      modifies `tags, freePages, tag`realSize, tag`splitRight, tags`splitLeft, tags`next, tags`prev, tags`index
      ensures Inv({tag}) && tag in tags && tag.index == -1
      ensures tag.splitLeft == null || tag.splitLeft.index < 0
      ensures tag.splitRight == null || tag.splitRight.index < 0
      ensures OthersKept(tag)
      ensures tags == old(tags) - old(AbsorbedAway(tag))
      ensures tag.realSize == old(tag.realSize) + old(FreeSpace(tag.splitRight))
    {
      ghost var rounds := 0;
      while tag.splitRight != null && tag.splitRight.index >= 0
        invariant Inv({tag}) && tag in tags && tag.index == -1 && OthersKept(tag)
        invariant tag.splitLeft == null || tag.splitLeft.index < 0
        invariant 0 <= rounds <= 1
        invariant rounds == 0 ==> tags == old(tags) && tag.splitRight == old(tag.splitRight)
        invariant rounds == 0 && tag.splitRight != null ==> tag.splitRight.index == old(tag.splitRight.index)
        invariant rounds == 1 ==>
          old(tag.splitRight) != null && old(tag.splitRight.index) >= 0 && tags == old(tags) - {old(tag.splitRight)}
        invariant rounds == 1 ==> tag.splitRight == null || tag.splitRight.index < 0
        invariant tag.realSize == old(tag.realSize) + if rounds == 0 then 0 else old(FreeSpace(tag.splitRight))
        decreases 1 - rounds
      {
        assert ChainAt(tag);
        RightRound(tag);
        rounds := rounds + 1;
      }
    }

    ghost predicate Unsplit(t: Tag)
      reads t`splitLeft, t`splitRight
    {
      t.splitLeft == null && t.splitRight == null
    }

    /** t lies in another block than the unsplit tag. */
    ghost predicate Elsewhere(tag: Tag, t: Tag)
      reads t`block, t`splitLeft, t`splitRight
    {
      t.block.addr != tag.addr && t.splitLeft != tag && t.splitRight != tag
    }

    /** An unsplit tag is all of its block. */
    lemma UnsplitAlone(tag: Tag)
      requires Chain() && Disjoint() && tag in tags && Unsplit(tag)
      ensures tag.block == tag && tag.addr in pages.lent && tag.realSize == pages.lent[tag.addr] * PAGE_SIZE
      ensures forall t {:trigger Elsewhere(tag, t)} :: t in tags && t != tag ==> Elsewhere(tag, t)
    {
      assert ChainAt(tag);
      forall t <- tags | t != tag ensures Elsewhere(tag, t) {
        assert ChainAt(t);
        assert TagsApart(tag, t);
      }
    }

    /** The whole block of tag is dropped. */
    twostate predicate Discarded(new tag: Tag)
      requires tag in old(tags)
      reads this`tags, this`roots, pages`lent, tags`realSize, tags`splitLeft, tags`splitRight, tags`block
    {
      && tags == old(tags) - {tag} && roots == old(roots) - {tag.addr} && pages.lent == old(pages.lent) - {tag.addr}
      && (forall t <- tags ::
        t.realSize == old(t.realSize) && t.splitLeft == old(t.splitLeft) && t.splitRight == old(t.splitRight)
          && t.block == old(t.block))
    }

    twostate lemma DiscardedKeepsChain(tag: Tag)
      requires tag in old(tags) && old(Chain()) && Discarded(tag) && pages.Valid()
      requires forall t {:trigger old(Elsewhere(tag, t))} :: t in tags ==> old(Elsewhere(tag, t))
      ensures Chain()
    {
      forall t <- tags ensures ChainAt(t) {
        assert old(Elsewhere(tag, t)) && old(ChainAt(t));
      }
      forall a <- roots ensures roots[a] in tags {
        assert old(roots[a] in tags && roots[a].addr == a);
      }
    }

    twostate lemma DiscardedKeepsSettled(X: set<Tag>, new tag: Tag)
      requires tag in old(tags) && X == {tag} && old(Settled(X)) && Discarded(tag)
      requires forall t <- tags :: t.index == old(t.index) && t.size == old(t.size)
      requires completePages.Length == MAX_EXP && forall k :: 0 <= k < MAX_EXP ==>
        completePages[k] == old(completePages[k])
      ensures Settled({})
    {
      forall t <- tags ensures BinnedAt(t) && CoalescedAt(t, {}) {
        assert old(BinnedAt(t)) && old(CoalescedAt(t, X));
      }
      forall k | 0 <= k < MAX_EXP ensures Complete(k, {}) == old(Complete(k, X)) {
      }
    }

    twostate lemma DiscardedKeepsInv(X: set<Tag>, new tag: Tag)
      requires X == {tag} && tag in old(tags) && old(Inv(X)) && old(tag.index) == -1
      requires Discarded(tag) && MergeFrame() && pages.Valid()
      requires forall t {:trigger old(Elsewhere(tag, t))} :: t in tags ==> old(Elsewhere(tag, t))
      ensures Valid()
    {
      SameLinksKeepsLinks(tag);
      SameLinksKeepsOrder(tag);
      DiscardedKeepsChain(tag);
      DiscardedKeepsSettled(X, tag);
      forall t <- tags, u <- tags | t != u ensures TagsApart(t, u) {
        assert old(TagsApart(t, u));
      }
    }

    /** A whole block too many: its pages go back, as many as were obtained. */
    method Discard(tag: Tag)
      requires Inv({tag}) && tag in tags && tag.index == -1 && Unsplit(tag)
      modifies pages`lent, `tags, `roots
      ensures Valid() && tags == old(tags) - {tag} && pages.lent == old(pages.lent) - {tag.addr}
      ensures Live() == old(Live()) - {tag}
    {
      UnsplitAlone(tag);
      var n := tag.realSize / PAGE_SIZE;
      if tag.realSize % PAGE_SIZE != 0 {
        n := n + 1;
      }
      if n < MIN_PAGES {
        n := MIN_PAGES;
      }
      pages.Free(tag.addr, n);
      tags := tags - {tag};
      roots := roots - {tag.addr};
      DiscardedKeepsInv({tag}, tag);
    }

    /** The counters, when those of list k already (or still) include the tag being worked on. */
    ghost predicate CountedWith(tag: Tag, k: int)
      reads this`tags, completePages, tags`index, tags`splitLeft, tags`splitRight
      reads tag`splitLeft, tag`splitRight
    {
      && completePages.Length == MAX_EXP
      && (forall i :: 0 <= i < MAX_EXP ==>
          completePages[i] == |Complete(i, {tag})| + (if Unsplit(tag) && i == k then 1 else 0) <= MAX_COMPLETE)
    }

    /** The invariant around a tag that is about to enter list k, or has just left it. */
    ghost predicate Moving(tag: Tag, k: int)
      requires tag in tags
      reads this, pages`lent, freePages, completePages, tags
    {
      && Chain() && Disjoint() && Lists() && Coalesced({tag}) && Binned({tag}) && CountedWith(tag, k)
      && 0 <= k < MAX_EXP && tag.index == -1 && InBin(k, tag.realSize)
      && (forall t {:trigger t.splitRight} :: t in tags && t.splitRight == tag ==> t.index < 0)
      && (tag.splitRight != null && tag.splitRight in tags ==> tag.splitRight.index < 0)
    }

    twostate predicate SamePhysical()
      reads this`tags, tags`realSize, tags`splitLeft, tags`splitRight, tags`size
    {
      tags == old(tags) &&
      forall t <- tags ::
        t.splitLeft == old(t.splitLeft) && t.splitRight == old(t.splitRight) && t.realSize == old(t.realSize)
          && t.size == old(t.size)
    }

    twostate lemma PushedKeepsCoalesced(X: set<Tag>, new tag: Tag)
      requires tag in old(tags) && tag in tags && X == {tag} && old(Coalesced(X)) && old(tag.splitRight) != tag
      requires SamePhysical() && forall t <- tags :: t != tag ==> t.index == old(t.index)
      requires forall t {:trigger t.splitRight} :: t in tags && old(t.splitRight) == tag ==> old(t.index) < 0
      requires old(tag.splitRight != null && tag.splitRight in tags ==> tag.splitRight.index < 0)
      ensures Coalesced({})
    {
      forall t <- tags ensures CoalescedAt(t, {}) {
        assert old(CoalescedAt(t, X));
      }
    }

    twostate lemma PushedKeepsBinned(X: set<Tag>, new tag: Tag)
      requires tag in old(tags) && tag in tags && X == {tag} && old(Binned(X))
      requires SamePhysical() && forall t <- tags :: t != tag ==> t.index == old(t.index)
      requires BinnedAt(tag)
      ensures Binned({})
    {
      forall t <- tags ensures BinnedAt(t) {
        if t != tag {
          assert old(BinnedAt(t));
        }
      }
    }

    twostate lemma PushedKeepsCounted(tag: Tag)
      requires tag in old(tags) && tag in tags
      requires var k := tag.index; old(CountedWith(tag, k))
      requires SamePhysical() && forall t <- tags :: t != tag ==> t.index == old(t.index)
      requires completePages.Length == MAX_EXP && forall k :: 0 <= k < MAX_EXP ==>
        completePages[k] == old(completePages[k])
      ensures Counted({})
    {
      forall k | 0 <= k < MAX_EXP
        ensures Complete(k, {}) == old(Complete(k, {tag})) + if Unsplit(tag) && k == tag.index then {tag} else {}
      {
      }
    }

    /** insert_tag, with the tag's block already counted. */
    method Shelve(tag: Tag, index: int, ghost k: nat)
      requires tag in tags && Moving(tag, k) && (index < 0 || index == k)
      modifies freePages, `clock, tags`prev, tag`next, tag`index, tag`stamp
      ensures Valid() && tag.index == k && Live() == old(Live()) - {tag}
    {
      assert ChainAt(tag);
      assert Linked(tag);
      InsertTag(tag, index);
      PushedKeepsLists(tag);
      PushedKeepsCoalesced({tag}, tag);
      PushedKeepsBinned({tag}, tag);
      PushedKeepsCounted(tag);
    }

    /** Is p the only live allocation of its block? */
    ghost predicate LastLive(p: Tag)
      reads this`tags, tags`index, tags`block, p`block
    {
      forall t <- tags :: t.block == p.block && t != p ==> t.index >= 0
    }

    /** The coalesced tag is a whole block exactly when no other allocation of the block is live. */
    lemma UnsplitIffLast(tag: Tag)
      requires Chain() && Disjoint() && tag in tags && tag.index == -1
      requires tag.splitLeft == null || tag.splitLeft.index < 0
      requires tag.splitRight == null || tag.splitRight.index < 0
      ensures Unsplit(tag) <==> LastLive(tag)
    {
      assert ChainAt(tag);
      if Unsplit(tag) {
        UnsplitAlone(tag);
        forall t <- tags | t != tag ensures t.block != tag.block {
          assert Elsewhere(tag, t);
        }
      } else if tag.splitRight != null {
        assert ChainAt(tag.splitRight);
        assert TagsApart(tag, tag.splitRight);
      }
    }

    /** Coalescing: both loops of free, from a live tag to one whose neighbours are in use. The
        tags taken away are at most two, so neither loop goes round a second time. */
    method Coalesce(freed: Tag) returns (tag: Tag)
      requires Valid() && freed in tags && freed.index == -1
      modifies `tags, freePages, tags`realSize, tags`splitRight, tags`splitLeft, tags`next, tags`prev, tags`index
      ensures Inv({tag}) && tag in tags && tag.index == -1 && tag.block == freed.block
      ensures tag.splitLeft == null || tag.splitLeft.index < 0
      ensures tag.splitRight == null || tag.splitRight.index < 0
      ensures OthersKept(tag)
      ensures tag == if old(freed.splitLeft) != null && old(freed.splitLeft.index) >= 0 then old(freed.splitLeft)
        else freed
      ensures tag.realSize == old(FreeSpace(freed.splitLeft)) + old(freed.realSize) + old(FreeSpace(freed.splitRight))
      ensures tags == old(tags) - old(MeltedAway(freed)) - old(AbsorbedAway(freed))
    {
      assert ChainAt(freed);
      tag := MeltLefts(freed);
      assert ChainAt(tag);
      AbsorbRights(tag);
    }

    /** Everything a caller may rely on about the live allocations other than p. */
    twostate predicate LiveKept()
      reads this`tags, tags`index, tags`realSize, tags`size
    {
      forall t <- Live() :: t in old(Live()) && t.size == old(t.size) && t.realSize == old(t.realSize)
    }

    /** An allocation that is live before and after holds none of the bytes of any header there was
        or is, so the changes of header fields in between have not touched it. */
    twostate predicate HeadersClearOf(p: Tag)
      reads this`tags, p`size
    {
      forall t <- old(tags) + tags :: Apart(p.addr + HEADER, p.size, t.addr, HEADER)
    }

    twostate lemma HeadersStayClear(p: Tag)
      requires old(Valid()) && Valid() && p in old(Live()) && p in Live() && p.size == old(p.size)
      ensures HeadersClearOf(p)
    {
      assert old(ChainAt(p)) && old(BinnedAt(p)) && ChainAt(p) && BinnedAt(p);
      forall t <- old(tags) ensures Apart(p.addr + HEADER, p.size, t.addr, HEADER) {
        assert t != p ==> old(TagsApart(p, t)) && old(ChainAt(t));
      }
      forall t <- tags ensures Apart(p.addr + HEADER, p.size, t.addr, HEADER) {
        assert t != p ==> TagsApart(p, t) && ChainAt(t);
      }
    }

    /** Five whole blocks of this size are standing by already. */
    ghost predicate CacheFull(realSize: nat)
      reads completePages
    {
      && HEADER <= realSize && Bin(realSize - HEADER) < completePages.Length
      && completePages[Bin(realSize - HEADER)] == MAX_COMPLETE
    }

    /** Counting the tag that is about to enter list `index`. */
    method Count(tag: Tag, index: nat)
      requires Inv({tag}) && tag in tags && tag.index == -1
      requires tag.splitLeft == null || tag.splitLeft.index < 0
      requires tag.splitRight == null || tag.splitRight.index < 0
      requires index < MAX_EXP && InBin(index, tag.realSize) && (Unsplit(tag) ==> completePages[index] < MAX_COMPLETE)
      modifies completePages
      ensures Moving(tag, index)
    {
      assert ChainAt(tag);
      forall t <- tags | t.splitRight == tag ensures t.index < 0 {
        assert ChainAt(t);
      }
      if tag.splitLeft == null && tag.splitRight == null {
        completePages[index] := completePages[index] + 1;
      }
    }

    method Restock(tag: Tag, index: nat)
      requires Inv({tag}) && tag in tags && tag.index == -1
      requires tag.splitLeft == null || tag.splitLeft.index < 0
      requires tag.splitRight == null || tag.splitRight.index < 0
      requires index < MAX_EXP && InBin(index, tag.realSize) && (Unsplit(tag) ==> completePages[index] < MAX_COMPLETE)
      modifies completePages, freePages, `clock, tags`prev, tag`next, tag`index, tag`stamp
      ensures Valid() && Live() == old(Live()) - {tag}
    {
      Count(tag, index);
      Shelve(tag, index, index);
    }

    /** Last part of free: the coalesced tag goes back to the page layer or into a list. */
    method GiveBack(tag: Tag)
      requires Inv({tag}) && tag in tags && tag.index == -1
      requires tag.splitLeft == null || tag.splitLeft.index < 0
      requires tag.splitRight == null || tag.splitRight.index < 0
      modifies pages`lent, `tags, `roots, completePages, freePages, `clock, tags`prev, tag`next, tag`index, tag`stamp
      ensures Valid() && Live() == old(Live()) - {tag} && tags <= old(tags)
      ensures pages.lent == if old(Unsplit(tag) && CacheFull(tag.realSize)) then old(pages.lent) - {tag.addr}
        else old(pages.lent)
    {
      assert ChainAt(tag);
      var index := GetBin(tag.realSize - HEADER);
      assert CacheFull(tag.realSize) <==> completePages[index] == MAX_COMPLETE;
      if tag.splitLeft == null && tag.splitRight == null && completePages[index] == MAX_COMPLETE {
        assert Unsplit(tag) && CacheFull(tag.realSize);
        Discard(tag);
        return;
      }
      Restock(tag, index);
    }

    /** Only freed itself and free tags have been merged. */
    twostate lemma CoalescedGone(freed: Tag, new tag: Tag)
      requires old(Valid()) && freed in old(tags) && tag in old(tags)
        && tags == old(tags) - old(MeltedAway(freed)) - old(AbsorbedAway(freed))
      requires tag == if old(freed.splitLeft) != null && old(freed.splitLeft.index) >= 0 then old(freed.splitLeft)
        else freed
      ensures forall t <- old(tags) :: t !in tags || t == tag ==> t == freed || old(t.index) >= 0
      ensures freed == tag || freed !in tags
    {
    }

    twostate lemma CoalescedKeepsLast(freed: Tag, new tag: Tag)
      requires freed in old(tags) && tag in tags && tag.block == freed.block && old(freed.block) == freed.block
      requires OthersKept(tag) && tag in old(tags)
      requires forall t <- old(tags) :: t !in tags || t == tag ==> t == freed || old(t.index) >= 0
      requires forall t <- old(tags) :: t.block == old(t.block)
      requires tag.index == -1 && (freed == tag || freed !in tags)
      ensures LastLive(tag) <==> old(LastLive(freed))
    {
    }

    /** Freeing p returns its block: nothing else in it is live, and the cache is full. */
    ghost predicate GoesBack(p: Tag)
      reads this`tags, tags`index, tags`block, p`block, pages`lent, completePages
    {
      && p.block.addr in pages.lent && LastLive(p)
      && CacheFull(pages.lent[p.block.addr] * PAGE_SIZE)
    }

    method CoalesceKept(p: Tag) returns (tag: Tag)
      requires Valid() && p in Live()
      modifies `tags, freePages, tags`realSize, tags`splitRight, tags`splitLeft, tags`next, tags`prev, tags`index
      ensures Inv({tag}) && tag in tags && tag.index == -1 && tag.block == p.block
      ensures tag.splitLeft == null || tag.splitLeft.index < 0
      ensures tag.splitRight == null || tag.splitRight.index < 0
      ensures tags <= old(tags) && Live() - {tag} == old(Live()) - {p}
      ensures forall t <- Live() :: t != tag ==> t.realSize == old(t.realSize)
      ensures LastLive(tag) <==> old(LastLive(p))
    {
      assert Linked(p) && ChainAt(p);
      tag := Coalesce(p);
      CoalescedGone(p, tag);
      CoalescedKeepsLast(p, tag);
    }

    method CoalesceLive(p: Tag) returns (tag: Tag)
      requires Valid() && p in Live()
      modifies `tags, freePages, tags`realSize, tags`splitRight, tags`splitLeft, tags`next, tags`prev, tags`index
      ensures Inv({tag}) && tag in tags && tag.index == -1
      ensures tag.splitLeft == null || tag.splitLeft.index < 0
      ensures tag.splitRight == null || tag.splitRight.index < 0
      ensures tags <= old(tags) && Live() - {tag} == old(Live()) - {p}
      ensures forall t <- Live() :: t != tag ==> t.realSize == old(t.realSize)
      ensures Unsplit(tag) && CacheFull(tag.realSize) <==> old(GoesBack(p))
      ensures Unsplit(tag) ==> tag.addr == p.block.addr
    {
      tag := CoalesceKept(p);
      assert ChainAt(tag);
      UnsplitIffLast(tag);
      if Unsplit(tag) {
        UnsplitAlone(tag);
      }
    }

    /** free on a live pointer or NULL: the allocation is gone, all others stay as they
        were, and a block goes back exactly when it is wholly free and five such are cached. */
    method Free(p: Tag?)
      requires Valid() && (p != null ==> p in Live())
      modifies pages`lent, this, completePages, freePages, tags`realSize, tags`splitRight, tags`splitLeft, tags`next,
        tags`prev, tags`index, tags`stamp
      ensures Valid() && Live() == (if p == null then old(Live()) else old(Live()) - {p})
      ensures LiveKept() && tags <= old(tags)
      ensures forall t <- Live() :: HeadersClearOf(t)
      ensures pages.lent == if p != null && old(GoesBack(p)) then old(pages.lent) - {old(p.block.addr)}
        else old(pages.lent)
    {
      if p != null {
        FreeLive(p);
      }
      forall t <- Live() ensures HeadersClearOf(t) {
        HeadersStayClear(t);
      }
    }

    method FreeLive(p: Tag)
      requires Valid() && p in Live()
      modifies pages`lent, this, completePages, freePages, tags`realSize, tags`splitRight, tags`splitLeft, tags`next,
        tags`prev, tags`index, tags`stamp
      ensures Valid() && Live() == old(Live()) - {p} && LiveKept() && tags <= old(tags)
      ensures pages.lent == if old(GoesBack(p)) then old(pages.lent) - {old(p.block.addr)} else old(pages.lent)
    {
      var tag := CoalesceLive(p);
      GiveBack(tag);
    }

    // ---- malloc ----

    /** First fit: the newest tag of the list with room for the request and another header. */
    method FindFit(index: nat, size: nat) returns (tag: Tag?)
      requires Lists() && index < MAX_EXP
      ensures tag != null ==> tag in tags && tag.index == index && Fits(tag.realSize, size)
      ensures forall u <- tags :: u.index == index && Fits(u.realSize, size) ==> tag != null && u.stamp <= tag.stamp
    {
      tag := freePages[index];
      if tag != null {
        forall u <- tags | u.index == index ensures u.stamp <= tag.stamp {
          assert Linked(u);
        }
      } else {
        forall u <- tags ensures u.index != index {
          assert Linked(u);
        }
      }
      while tag != null
        invariant tag != null ==> tag in tags && tag.index == index
        invariant forall u <- tags :: u.index == index && Fits(u.realSize, size) ==> tag != null && u.stamp <= tag.stamp
        decreases if tag == null then 0 else tag.stamp + 1
      {
        if Fits(tag.realSize, size) {
          return;
        }
        assert Linked(tag);
        forall u <- tags | u.index == index && Fits(u.realSize, size)
          ensures tag.next != null && u.stamp <= tag.next.stamp {
          assert Ordered(tag, u);
        }
        tag := tag.next;
      }
    }

    twostate lemma UnlinkedIsMoving(X: set<Tag>, new tag: Tag)
      requires tag in old(tags) && 0 <= old(tag.index) < MAX_EXP && freePages.Length == MAX_EXP && X == {}
      requires Unlinked(tag) && SamePhysical() && old(Settled(X))
      requires forall k :: 0 <= k < MAX_EXP ==> completePages[k] == old(completePages[k])
      requires old(tag.splitRight) != tag
      ensures Coalesced({tag}) && Binned({tag}) && CountedWith(tag, old(tag.index))
      ensures forall t {:trigger t.splitRight} :: t in tags && t.splitRight == tag ==> t.index < 0
      ensures tag.splitRight != null && tag.splitRight in tags ==> tag.splitRight.index < 0
    {
      forall t <- tags ensures CoalescedAt(t, {tag}) {
        assert old(CoalescedAt(t, X));
      }
      forall t <- tags | t != tag ensures BinnedAt(t) {
        assert old(BinnedAt(t));
      }
      forall t <- tags | t.splitRight == tag ensures t.index < 0 {
        assert old(CoalescedAt(t, X));
      }
      assert old(CoalescedAt(tag, X));
      forall k | 0 <= k < MAX_EXP
        ensures old(Complete(k, X)) == Complete(k, {tag}) + if Unsplit(tag) && k == old(tag.index) then {tag} else {}
      {
      }
    }

    /** remove_tag on a free tag; its block is still counted. */
    method Unshelve(tag: Tag)
      requires Valid() && tag in tags && tag.index >= 0
      modifies freePages, tags`next, tags`prev, tag`index
      ensures Moving(tag, old(tag.index))
    {
      assert Linked(tag);
      assert BinnedAt(tag);
      assert ChainAt(tag);
      Unlink(tag);
      UnlinkedKeepsLists(tag);
      UnlinkedIsMoving({}, tag);
    }

    /** The invariant around an allocated tag whose request is yet to be recorded. */
    ghost predicate Aside(tag: Tag)
      reads this, pages`lent, freePages, completePages, tags
    {
      && Inv({tag}) && tag in tags && tag.index == -1
      && (forall t {:trigger t.splitRight} :: t in tags && t.splitRight == tag ==> t.index < 0)
      && (tag.splitRight != null && tag.splitRight in tags ==> tag.splitRight.index < 0)
    }

    /** A whole block that has left its list is no longer counted. */
    method Uncount(tag: Tag, index: nat)
      requires tag in tags && Moving(tag, index)
      modifies completePages
      ensures Aside(tag)
    {
      if tag.splitLeft == null && tag.splitRight == null {
        completePages[index] := completePages[index] - 1;
      }
    }

    twostate lemma ClaimedKeepsSettled(X: set<Tag>, new tag: Tag)
      requires tag in old(tags) && tags == old(tags) && X == {tag} && old(Aside(tag)) && Settled(X)
      requires tag.index == -1 && HEADER + tag.size <= tag.realSize
      requires forall t <- tags :: t.index == old(t.index) && t.splitRight == old(t.splitRight)
      ensures Settled({})
    {
      forall t <- tags ensures CoalescedAt(t, {}) && BinnedAt(t) {
        assert CoalescedAt(t, X);
        assert t != tag ==> BinnedAt(t);
      }
      forall k | 0 <= k < MAX_EXP ensures Complete(k, {}) == Complete(k, X) {
      }
    }

    /** The tag set aside becomes the allocation. */
    method Claim(tag: Tag, size: nat)
      requires Aside(tag) && HEADER + size <= tag.realSize
      modifies tag`size
      ensures Valid() && tag.size == size && tag in tags && tag.index == -1
      ensures tag.splitRight == null || tag.splitRight.index < 0
    {
      assert ChainAt(tag);
      tag.size := size;
      forall t <- tags | t != tag ensures BinnedAt(t) {
        assert old(BinnedAt(t));
      }
      ClaimedKeepsSettled({tag}, tag);
    }

    /** A fresh block with one tag over all of it. */
    twostate predicate Added(new n: Tag)
      reads this`tags, this`roots, pages`lent, tags`realSize, tags`splitLeft, tags`splitRight, tags`block, tags`index
      reads n`realSize, n`splitLeft, n`splitRight, n`block, n`index
    {
      && n !in old(tags) && tags == old(tags) + {n}
      && n.addr !in old(roots) && n.addr !in old(pages.lent) && n.addr in pages.lent
      && roots == old(roots)[n.addr := n] && pages.lent == old(pages.lent)[n.addr := pages.lent[n.addr]]
      && Unsplit(n) && n.block == n && n.index == -1 && n.realSize == pages.lent[n.addr] * PAGE_SIZE
        && HEADER <= n.realSize
      && (forall t <- old(tags) ::
        t.realSize == old(t.realSize) && t.splitLeft == old(t.splitLeft) && t.splitRight == old(t.splitRight)
          && t.block == old(t.block) && t.index == old(t.index))
    }

    twostate lemma AddedKeepsChain(new n: Tag)
      requires old(Chain()) && Added(n) && pages.Valid()
      ensures Chain()
    {
      forall t <- tags ensures ChainAt(t) {
        if t != n {
          assert old(ChainAt(t));
        }
      }
    }

    twostate lemma AddedKeepsDisjoint(new n: Tag)
      requires old(Chain()) && old(Disjoint()) && Added(n) && pages.Valid()
      ensures Disjoint()
    {
      forall t <- tags | t != n ensures TagsApart(t, n) && TagsApart(n, t) {
        assert old(ChainAt(t));
        assert Apart(t.block.addr, pages.lent[t.block.addr] * PAGE_SIZE, n.addr, pages.lent[n.addr] * PAGE_SIZE);
      }
      forall t <- tags, u <- tags | t != u ensures TagsApart(t, u) {
        if t != n && u != n {
          assert old(TagsApart(t, u));
        }
      }
    }

    /** The free lists are untouched and a new tag outside them has joined. */
    twostate predicate NewInNoList(new n: Tag)
      requires freePages.Length == MAX_EXP
      reads this`tags, this`clock, freePages, tags`index, tags`next, tags`prev, tags`stamp
      reads n`index, n`next, n`prev
    {
      && n !in old(tags) && tags == old(tags) + {n} && n.index == -1 && n.next == null && n.prev == null
      && clock == old(clock)
      && (forall k :: 0 <= k < MAX_EXP ==> freePages[k] == old(freePages[k]))
      && (forall t <- old(tags) ::
        t.index == old(t.index) && t.next == old(t.next) && t.prev == old(t.prev) && t.stamp == old(t.stamp))
    }

    twostate lemma NewKeepsLists(new n: Tag)
      requires old(Lists()) && NewInNoList(n)
      ensures Lists()
    {
      forall t <- tags ensures Linked(t) {
        if t != n {
          assert old(Linked(t));
        }
      }
      forall t <- tags, u <- tags | t.index >= 0 && t.index == u.index ensures Ordered(t, u) {
        assert old(Linked(t));
        assert old(Ordered(t, u));
      }
    }

    twostate lemma AddedKeepsSettled(X: set<Tag>, new n: Tag)
      requires X == {} && old(Settled(X)) && Added(n)
      requires forall t <- old(tags) :: t.size == old(t.size)
      requires completePages.Length == MAX_EXP && forall k :: 0 <= k < MAX_EXP ==>
        completePages[k] == old(completePages[k])
      requires forall t {:trigger t.splitRight} :: t in old(tags) ==> t.splitRight != n
      ensures Settled({n})
    {
      forall t <- tags ensures CoalescedAt(t, {n}) {
        if t != n {
          assert old(CoalescedAt(t, X));
        }
      }
      forall t <- tags | t != n ensures BinnedAt(t) {
        assert old(BinnedAt(t));
      }
      forall k | 0 <= k < MAX_EXP ensures Complete(k, {n}) == old(Complete(k, X)) {
      }
    }

    twostate lemma AddedIsAside(X: set<Tag>, new n: Tag)
      requires X == {} && old(Inv(X)) && Added(n) && NewInNoList(n) && pages.Valid()
      requires forall t <- old(tags) :: t.size == old(t.size)
      requires completePages.Length == MAX_EXP && forall k :: 0 <= k < MAX_EXP ==>
        completePages[k] == old(completePages[k])
      ensures Aside(n)
    {
      forall t <- old(tags) ensures t.splitRight != n {
        assert old(ChainAt(t));
      }
      AddedKeepsChain(n);
      AddedKeepsDisjoint(n);
      NewKeepsLists(n);
      AddedKeepsSettled(X, n);
    }

    /** allocate_new_tag: a fresh block, one tag over all of it. `offer` is the answer
        of the page layer, 0 for none. */
    method AllocateNewTag(size: nat, offer: nat) returns (tag: Tag?)
      requires Valid() && size < WORD - HEADER
      requires offer == 0 || pages.CanLend(offer, PagesFor(size))
      modifies pages`lent, `tags, `roots
      ensures offer == 0 <==> tag == null
      ensures tag == null ==> Valid() && pages.lent == old(pages.lent) && tags == old(tags)
      ensures tag != null ==> fresh(tag) && tags == old(tags) + {tag} && Aside(tag) && HEADER + size <= tag.realSize
      ensures tag != null ==> tag.addr == offer && pages.lent == old(pages.lent)[offer := PagesFor(size)]
    {
      tag := NewBlock(size, offer);
      if tag != null {
        AddedIsAside({}, tag);
      }
    }

    /** The assignments of allocate_new_tag. */
    method NewBlock(size: nat, offer: nat) returns (tag: Tag?)
      requires Valid() && size < WORD - HEADER
      requires offer == 0 || pages.CanLend(offer, PagesFor(size))
      modifies pages`lent, `tags, `roots
      ensures pages.Valid() && (offer == 0 <==> tag == null)
      ensures tag == null ==> pages.lent == old(pages.lent) && tags == old(tags) && roots == old(roots)
      ensures tag != null ==> fresh(tag) && Added(tag) && NewInNoList(tag) && HEADER + size <= tag.realSize
      ensures tag != null ==>
        tag.addr == offer && tag.size == size && pages.lent == old(pages.lent)[offer := PagesFor(size)]
    {
      PagesForFits(size);
      var p := pages.Alloc(PagesFor(size), offer);
      if p == 0 {
        return null;
      }
      tag := new Tag(p, size, PagesFor(size) * PAGE_SIZE, null, null, null);
      tags := tags + {tag};
      roots := roots[p := tag];
    }

    // ---- split_tag ----

    /** The field updates of split_tag, before the new tag enters its list. */
    twostate predicate Divided(tag: Tag, new n: Tag)
      requires tag in old(tags)
      reads this`tags, this`roots, pages`lent, tags`realSize, tags`splitLeft, tags`splitRight, tags`block, tag`size
      reads n`realSize, n`splitLeft, n`splitRight, n`block
    {
      var r := old(tag.splitRight);
      && n !in old(tags) && tags == old(tags) + {n} && roots == old(roots) && pages.lent == old(pages.lent)
      && n.addr == tag.addr + HEADER + tag.size && n.realSize == old(tag.realSize) - HEADER - tag.size
        && n.realSize >= HEADER
      && tag.realSize == HEADER + tag.size
      && n.splitLeft == tag && n.splitRight == r && tag.splitRight == n && n.block == old(tag.block)
      && (forall t <- old(tags) :: t != tag ==> t.realSize == old(t.realSize) && t.splitRight == old(t.splitRight))
      && (forall t <- old(tags) :: t.splitLeft == if t == r then n else old(t.splitLeft))
      && (forall t <- old(tags) :: t.block == old(t.block))
    }

    twostate lemma DividedKeepsChain(tag: Tag, new n: Tag)
      requires tag in old(tags) && old(Chain()) && Divided(tag, n)
      ensures Chain()
    {
      assert old(ChainAt(tag));
      forall t <- tags ensures ChainAt(t) {
        if t != n {
          assert old(ChainAt(t));
        }
      }
    }

    twostate lemma DividedKeepsDisjoint(tag: Tag, new n: Tag)
      requires tag in old(tags) && old(Disjoint()) && Divided(tag, n)
      ensures Disjoint()
    {
      forall t <- tags | t != n && t != tag
        ensures TagsApart(t, n) && TagsApart(n, t) && TagsApart(t, tag) && TagsApart(tag, t) {
        assert old(TagsApart(t, tag));
      }
      forall t <- tags, u <- tags | t != u ensures TagsApart(t, u) {
        if t != n && u != n && t != tag && u != tag {
          assert old(TagsApart(t, u));
        }
      }
    }

    twostate lemma DividedIsMoving(X: set<Tag>, new tag: Tag, new n: Tag)
      requires tag in old(tags) && X == {} && old(Settled(X)) && Divided(tag, n) && n.index == -1
      requires tag.index == -1 && forall t <- old(tags) :: t.index == old(t.index) && t.size == old(t.size)
      requires completePages.Length == MAX_EXP && forall k :: 0 <= k < MAX_EXP ==>
        completePages[k] == old(completePages[k])
      requires forall t {:trigger t.splitRight} :: t in old(tags) ==> old(t.splitRight) != n
      requires old(tag.splitRight) in old(tags) ==> old(tag.splitRight.splitLeft) == tag
      ensures Coalesced({n}) && Binned({n}) && CountedWith(n, 0)
      ensures forall t {:trigger t.splitRight} :: t in tags && t.splitRight == n ==> t.index < 0 || t == n
    {
      forall t <- tags ensures CoalescedAt(t, {n}) {
        if t != n {
          assert old(CoalescedAt(t, X));
        }
      }
      forall t <- tags | t != n ensures BinnedAt(t) {
        assert old(BinnedAt(t));
      }
      forall k | 0 <= k < MAX_EXP ensures Complete(k, {n}) == old(Complete(k, X)) {
      }
    }

    /** The assignments of split_tag. */
    method Divide(tag: Tag) returns (n: Tag)
      requires tag in tags && tag.realSize >= tag.size + 2 * HEADER
      requires tag.splitRight != null ==> tag.splitRight in tags && tag.splitRight != tag
      modifies `tags, tag`realSize, tag`splitRight, tags`splitLeft
      ensures fresh(n) && n.index == -1 && n.next == null && n.prev == null && Divided(tag, n)
    {
      var remainder := tag.realSize - HEADER - tag.size;
      n := new Tag(tag.addr + HEADER + tag.size, 0, remainder, tag, tag.splitRight, tag.block);
      if n.splitRight != null {
        n.splitRight.splitLeft := n;
      }
      tag.splitRight := n;
      tag.realSize := tag.realSize - n.realSize;
      tags := tags + {n};
    }

    twostate lemma DividedIsPending(X: set<Tag>, new tag: Tag, new n: Tag)
      requires tag in old(tags) && X == {} && old(Inv(X)) && Divided(tag, n) && NewInNoList(n)
      requires tag.index == -1 && forall t <- old(tags) :: t.index == old(t.index) && t.size == old(t.size)
      requires completePages.Length == MAX_EXP && forall k :: 0 <= k < MAX_EXP ==>
        completePages[k] == old(completePages[k])
      requires old(tag.splitRight) == null || old(tag.splitRight.index) < 0
      ensures HEADER <= n.realSize < WORD && Moving(n, Bin(n.realSize - HEADER))
    {
      assert old(ChainAt(tag));
      forall t <- old(tags) ensures old(t.splitRight) != n {
        assert old(ChainAt(t));
      }
      if old(tag.splitRight) != null {
        assert old(ChainAt(tag.splitRight));
      }
      DividedKeepsChain(tag, n);
      DividedKeepsDisjoint(tag, n);
      NewKeepsLists(n);
      DividedIsMoving(X, tag, n);
      BinRange(n.realSize - HEADER);
    }

    /** The part of the tag behind its request, not in a list yet. */
    method CutOff(tag: Tag) returns (n: Tag)
      requires Valid() && tag in tags && tag.index == -1 && tag.realSize >= tag.size + 2 * HEADER
      requires tag.splitRight == null || tag.splitRight.index < 0
      modifies `tags, tag`realSize, tag`splitRight, tags`splitLeft
      ensures fresh(n) && tags == old(tags) + {n} && Live() == old(Live()) + {n}
      ensures tag.realSize == HEADER + tag.size && tag.splitRight == n
      ensures HEADER <= n.realSize < WORD && Moving(n, Bin(n.realSize - HEADER))
    {
      assert ChainAt(tag);
      n := Divide(tag);
      DividedIsPending({}, tag, n);
    }

    /** The part of the tag behind its request becomes a free tag of its own. */
    method SplitTag(tag: Tag) returns (n: Tag)
      requires Valid() && tag in tags && tag.index == -1 && tag.realSize >= tag.size + 2 * HEADER
      requires tag.splitRight == null || tag.splitRight.index < 0
      modifies `tags, tag`realSize, tag`splitRight, tags`splitLeft, freePages, `clock, tags`prev
      ensures Valid() && fresh(n) && tags == old(tags) + {n} && Live() == old(Live())
      ensures tag.realSize == HEADER + tag.size && tag.splitRight == n && n.index >= 0
    {
      n := CutOff(tag);
      Shelve(n, -1, Bin(n.realSize - HEADER));
    }

    /** A free tag of the list for this size has room for the request. */
    ghost predicate Available(size: nat)
      reads this`tags, tags`index, tags`realSize
    {
      exists t <- tags :: t.index == Bin(size) && Fits(t.realSize, size)
    }

    /** The newest such tag. */
    ghost predicate NewestFit(p: Tag, size: nat)
      reads this`tags, tags`index, tags`realSize, tags`stamp
      reads p`index, p`realSize, p`stamp
    {
      && p.index == Bin(size) && Fits(p.realSize, size)
      && (forall t <- tags :: t.index == Bin(size) && Fits(t.realSize, size) ==> t.stamp <= p.stamp)
    }

    /** A tag found in its list is taken out of it. */
    method Take(tag: Tag)
      requires Valid() && tag in tags && tag.index >= 0
      modifies freePages, tags`next, tags`prev, tag`index, completePages
      ensures Aside(tag) && Live() == old(Live()) + {tag}
    {
      var index := tag.index;
      Unshelve(tag);
      Uncount(tag, index);
    }

    /** The newest fit in the list for this size. */
    method FindAvailable(size: nat) returns (tag: Tag?)
      requires Valid() && size < WORD - HEADER
      ensures tag != null <==> Available(size)
      ensures tag != null ==>
        tag in tags && tag.index >= 0 && NewestFit(tag, size) && HEADER + size <= tag.realSize
    {
      var index := GetBin(size);
      tag := FindFit(index, size);
    }

    /** First half of malloc: a tag with room for the request, from a list or from a new block. */
    method Acquire(size: nat, offer: nat) returns (tag: Tag?)
      requires Valid() && size < WORD - HEADER
      requires offer == 0 || pages.CanLend(offer, PagesFor(size))
      modifies pages`lent, `tags, `roots, freePages, completePages, tags`next, tags`prev, tags`index
      ensures tag == null <==> old(!Available(size)) && offer == 0
      ensures tag == null ==> Valid() && Live() == old(Live())
      ensures tag != null ==>
        Aside(tag) && HEADER + size <= tag.realSize && tag !in old(Live()) && Live() == old(Live()) + {tag}
      ensures old(Available(size)) ==> tag in old(tags) && old(NewestFit(tag, size)) && pages.lent == old(pages.lent)
      ensures tag != null && old(!Available(size)) ==>
        fresh(tag) && tag.addr == offer && pages.lent == old(pages.lent)[offer := PagesFor(size)]
      ensures tag == null ==> pages.lent == old(pages.lent)
      ensures tags <= old(tags) + {tag}
    {
      tag := FindAvailable(size);
      if tag == null {
        tag := AllocateNewTag(size, offer);
      } else {
        Take(tag);
      }
    }

    /** Excess room becomes a free tag when it is worth one. */
    method Trim(tag: Tag)
      requires Valid() && tag in tags && tag.index == -1
      requires tag.splitRight == null || tag.splitRight.index < 0
      modifies `tags, tag`realSize, tag`splitRight, tags`splitLeft, freePages, `clock, tags`prev
      ensures Valid() && Live() == old(Live())
      ensures tag.realSize == if old(tag.realSize) < tag.size + 2 * HEADER + 256 then old(tag.realSize)
        else HEADER + tag.size
      ensures forall t <- tags :: t in old(tags) || fresh(t)
    {
      assert ChainAt(tag) && BinnedAt(tag);
      var worth := WorthSplitting(tag.realSize, tag.size);
      if worth {
        var n := SplitTag(tag);
      }
    }

    /** The steps of malloc. */
    method Place(size: nat, offer: nat) returns (p: Tag?)
      requires Valid() && size < WORD - HEADER
      requires offer == 0 || pages.CanLend(offer, PagesFor(size))
      modifies pages`lent, this, freePages, completePages, tags`size, tags`realSize, tags`index, tags`splitRight,
        tags`splitLeft, tags`next, tags`prev
      ensures Valid()
      ensures p == null <==> old(!Available(size)) && offer == 0
      ensures Live() == if p == null then old(Live()) else old(Live()) + {p}
      ensures forall t <- tags :: t in old(tags) || fresh(t)
      ensures forall t <- old(Live()) :: t.size == old(t.size) && t.realSize == old(t.realSize)
      ensures p != null ==> p !in old(Live()) && p.size == size && HEADER + size <= p.realSize < size + 2 * HEADER + 256
      ensures old(Available(size)) ==> p in old(tags) && old(NewestFit(p, size))
      ensures p != null && old(!Available(size)) ==> fresh(p) && p.addr == offer
      ensures pages.lent == if old(Available(size)) || offer == 0 then old(pages.lent)
        else old(pages.lent)[offer := PagesFor(size)]
    {
      p := Acquire(size, offer);
      if p == null {
        return;
      }
      Claim(p, size);
      Trim(p);
      assert BinnedAt(p);
    }

    /** malloc, for every size whose header does not wrap the 32-bit sum around. */
    method Malloc(size: nat, offer: nat) returns (p: Tag?)
      requires Valid() && size < WORD - HEADER
      requires offer == 0 || pages.CanLend(offer, PagesFor(size))
      modifies pages`lent, this, freePages, completePages, tags`size, tags`realSize, tags`index, tags`splitRight,
        tags`splitLeft, tags`next, tags`prev
      ensures Valid()
      ensures p == null <==> old(!Available(size)) && offer == 0
      ensures Live() == if p == null then old(Live()) else old(Live()) + {p}
      ensures forall t <- tags :: t in old(tags) || fresh(t)
      ensures forall t <- old(Live()) :: t.size == old(t.size) && t.realSize == old(t.realSize)
      ensures p != null ==> p !in old(Live()) && p.size == size && HEADER + size <= p.realSize < size + 2 * HEADER + 256
      ensures old(Available(size)) ==> p in old(tags) && old(NewestFit(p, size))
      ensures p != null && old(!Available(size)) ==> fresh(p) && p.addr == offer
      ensures forall t <- old(Live()) :: HeadersClearOf(t)
      ensures pages.lent == if old(Available(size)) || offer == 0 then old(pages.lent)
        else old(pages.lent)[offer := PagesFor(size)]
    {
      p := Place(size, offer);
      forall t <- old(Live()) ensures HeadersClearOf(t) {
        HeadersStayClear(t);
      }
    }
  }
}
