/** dma_alloc and dma_free: pages on frames of the low sixteen megabytes, by way of a run from
    vmm_alloc_contiguous that is mapped anew. */
module VmmDma {
  import opened Words
  import opened Bits
  import opened Frames
  import opened Paging
  import opened Vmm

  const ZONE_START: nat := 0x10_0000
  const ZONE_END: nat := 0x100_0000
  const DMA_FLAGS: nat := 19            // PAGE_PRESENT | PAGE_WRITABLE | PAGE_UNCACHED
  const LOW_PAGES: nat := 1024          // pages of directory slot 0, and of its image in the kernel

  // ---- mapping a run anew ----

  /** The live pages with one of them moved to another frame. */
  lemma MovedPage(pages: seq<bool>, used: seq<bool>, r0: Ram, r1: Ram, dir: nat, live: map<nat, nat>, page: nat,
                  frame: nat)
    requires Shaped(r0, dir) && Shaped(r1, dir) && r1.Keys == r0.Keys && AllBacked(pages, used, r0, dir, live)
    requires page in live && |pages| <= KERNEL_PAGES && 0 < frame < |used| && used[frame] && frame !in r0
      && AddrOf(page) < WORD
    requires SameEntry(r1, dir, AddrOf(page), AddrOf(page))
      && Retranslated(r0, r1, dir, AddrOf(page), Entry(frame * BLOCK, DMA_FLAGS))
    ensures AllBacked(pages, used, r1, dir, live[page := frame])
  {
    var moved := live[page := frame];
    AlignedAddresses(page, frame);
    EntryDecoded(frame * BLOCK, DMA_FLAGS, AddrOf(page));
    assert Backed(pages, used, r0, dir, page, live[page]);
    forall i | i in moved ensures Backed(pages, used, r1, dir, i, moved[i]) {
      if i != page {
        assert Backed(pages, used, r0, dir, i, live[i]);
        KernelPagesApart(r1, dir, i, page);
      }
    }
  }

  /** A live page's table is there, so mapping it anew cannot fail. */
  method Remap(vmm: PageAllocator, page: nat, frame: nat)
    requires vmm.Valid() && page in vmm.live && 0 < frame && Spare(vmm.live, vmm.frames.Used(), vmm.paging.ram, frame)
    modifies vmm`live, vmm.paging`ram, vmm.frames`usedBlocks, vmm.frames.bitmap
    ensures vmm.Valid() && vmm.live == old(vmm.live)[page := frame] && vmm.frames.Used() == old(vmm.frames.Used())
    ensures vmm.paging.ram.Keys == old(vmm.paging.ram.Keys)
      && KernelKept(old(vmm.paging.ram), vmm.paging.ram, vmm.paging.dir, page, 1)
  {
    ghost var r0, live0 := vmm.paging.ram, vmm.live;
    assert Backed(vmm.Pages(), vmm.frames.Used(), r0, vmm.paging.dir, page, live0[page]);
    assert TableOf(r0, vmm.paging.dir, AddrOf(page)).Some?;
    FrameBelow(frame, vmm.frames.maxBlocks);
    var ok := vmm.paging.MapPage(frame * BLOCK, AddrOf(page), DMA_FLAGS);
    MovedPage(vmm.Pages(), vmm.frames.Used(), r0, vmm.paging.ram, vmm.paging.dir, live0, page, frame);
    FramesStillApart(live0, page, frame);
    RetranslatedKernel(r0, vmm.paging.ram, vmm.paging.dir, page, Entry(frame * BLOCK, DMA_FLAGS));
    vmm.live := vmm.live[page := frame];
  }

  /** What the table of live pages says about page k when the first i of the n pages from
      `start` on have been moved from the frames at f to those at d. */
  ghost predicate MovedAt(live0: map<nat, nat>, start: nat, n: nat, i: nat, d: nat, f: nat, live: map<nat, nat>,
                          k: nat) {
    && (start <= k < start + n ==> k !in live0)
    && (k in live <==> k in live0 || start <= k < start + n)
    && (k in live ==>
      live[k] == if start <= k < start + i then d + (k - start) else if start <= k < start + n then f + (k - start)
        else live0[k])
  }

  ghost predicate Moved(live0: map<nat, nat>, start: nat, n: nat, i: nat, d: nat, f: nat, live: map<nat, nat>) {
    forall k: nat {:trigger MovedAt(live0, start, n, i, d, f, live, k)} :: MovedAt(live0, start, n, i, d, f, live, k)
  }

  lemma MovedNone(live0: map<nat, nat>, start: nat, n: nat, d: nat, f: nat, live: map<nat, nat>)
    requires Extended(live0, start, n, n, f, live)
    ensures Moved(live0, start, n, 0, d, f, live)
  {
    forall k: nat ensures MovedAt(live0, start, n, 0, d, f, live, k) {
      assert ExtendedAt(live0, start, n, n, f, live, k);
    }
  }

  lemma MovedOne(live0: map<nat, nat>, start: nat, n: nat, i: nat, d: nat, f: nat, live: map<nat, nat>)
    requires Moved(live0, start, n, i, d, f, live) && i < n
    ensures start + i in live && Moved(live0, start, n, i + 1, d, f, live[start + i := d + i])
  {
    var l, next := live[start + i := d + i], i + 1;
    forall k: nat ensures MovedAt(live0, start, n, next, d, f, l, k) {
      assert MovedAt(live0, start, n, i, d, f, live, k);
    }
    assert MovedAt(live0, start, n, i, d, f, live, start + i);
  }

  lemma MovedAll(live0: map<nat, nat>, start: nat, n: nat, d: nat, f: nat, live: map<nat, nat>)
    requires Moved(live0, start, n, n, d, f, live)
    ensures Extended(live0, start, n, n, d, live)
  {
    forall k: nat ensures ExtendedAt(live0, start, n, n, d, live, k) {
      assert MovedAt(live0, start, n, n, d, f, live, k);
    }
  }

  /** The run has been moved as far as page i; nothing else has changed hands. */
  ghost predicate MovedRun(dir: nat, start: nat, n: nat, i: nat, d: nat, f: nat, live0: map<nat, nat>, r1: Ram,
                           live: map<nat, nat>, used: seq<bool>, ram: Ram)
    requires Shaped(ram, dir)
  {
    && Shaped(r1, dir) && i <= n && Moved(live0, start, n, i, d, f, live) && SpareRun(live, used, ram, d + i, d + n)
    && ram.Keys == r1.Keys && KernelKept(r1, ram, dir, start, n)
  }

  lemma MovedRunStep(dir: nat, start: nat, n: nat, i: nat, d: nat, f: nat, live0: map<nat, nat>, r1: Ram,
                     l: map<nat, nat>, used: seq<bool>, r2: Ram, r3: Ram, page: nat, frame: nat)
    requires Shaped(r2, dir) && Shaped(r3, dir) && i < n && MovedRun(dir, start, n, i, d, f, live0, r1, l, used, r2)
    requires page == start + i && frame == d + i && r3.Keys == r2.Keys && KernelKept(r2, r3, dir, page, 1)
    ensures MovedRun(dir, start, n, i + 1, d, f, live0, r1, l[page := frame], used, r3)
  {
    MovedOne(live0, start, n, i, d, f, l);
    NoTableGrew(r2.Keys, used);
    StillSpare(l, used, used, r2, r3, page, frame, d + n);
    forall j: nat | j < KERNEL_PAGES && !(start <= j < start + n) ensures AddrOf(j) < WORD && KeptAt(r1, r3, dir, j) {
      assert KeptAt(r1, r2, dir, j) && KeptAt(r2, r3, dir, j);
    }
  }

  /** One round of the loop of dma_alloc on a run of ours. */
  method RemapStep(vmm: PageAllocator, start: nat, n: nat, i: nat, d: nat, ghost f: nat, ghost live0: map<nat, nat>,
                   ghost r1: Ram)
    requires vmm.Valid() && i < n && 0 < d
    requires MovedRun(vmm.paging.dir, start, n, i, d, f, live0, r1, vmm.live, vmm.frames.Used(), vmm.paging.ram)
    modifies vmm`live, vmm.paging`ram, vmm.frames`usedBlocks, vmm.frames.bitmap
    ensures vmm.Valid() && vmm.frames.Used() == old(vmm.frames.Used())
    ensures MovedRun(vmm.paging.dir, start, n, i + 1, d, f, live0, r1, vmm.live, vmm.frames.Used(), vmm.paging.ram)
  {
    ghost var l, used, r2 := vmm.live, vmm.frames.Used(), vmm.paging.ram;
    var page, frame := start + i, d + i;
    MovedOne(live0, start, n, i, d, f, l);
    assert Spare(l, used, r2, frame);
    Remap(vmm, page, frame);
    MovedRunStep(vmm.paging.dir, start, n, i, d, f, live0, r1, l, used, r2, vmm.paging.ram, page, frame);
  }

  method RemapRun(vmm: PageAllocator, start: nat, n: nat, d: nat, ghost f: nat, ghost live0: map<nat, nat>)
    requires vmm.Valid() && 0 < d
    requires MovedRun(vmm.paging.dir, start, n, 0, d, f, live0, vmm.paging.ram, vmm.live, vmm.frames.Used(),
      vmm.paging.ram)
    modifies vmm`live, vmm.paging`ram, vmm.frames`usedBlocks, vmm.frames.bitmap
    ensures vmm.Valid() && vmm.frames.Used() == old(vmm.frames.Used())
    ensures MovedRun(vmm.paging.dir, start, n, n, d, f, live0, old(vmm.paging.ram), vmm.live, vmm.frames.Used(),
      vmm.paging.ram)
  {
    ghost var r1 := vmm.paging.ram;
    var i := 0;
    while i < n
      invariant i <= n && vmm.Valid() && vmm.frames.Used() == old(vmm.frames.Used())
      invariant MovedRun(vmm.paging.dir, start, n, i, d, f, live0, r1, vmm.live, vmm.frames.Used(), vmm.paging.ram)
    {
      RemapStep(vmm, start, n, i, d, f, live0, r1);
      i := i + 1;
    }
  }

  /** Frames that were spare before a run was bound to other frames are spare afterwards. */
  lemma SpareThrough(dir: nat, start: nat, n: nat, f: nat, live0: map<nat, nat>, u0: seq<bool>, r0: Ram,
                     live: map<nat, nat>, u: seq<bool>, ram: Ram, d: nat)
    requires Shaped(ram, dir) && BoundRun(dir, start, n, n, f, live0, u0, r0, live, u, ram)
    requires SpareRun(live0, u0, r0, d, d + n) && ClearRun(u0, f, n)
    ensures SpareRun(live, u, ram, d, d + n)
  {
    forall g: nat | d <= g < d + n ensures Spare(live, u, ram, g) {
      assert Spare(live0, u0, r0, g);
      TakenNoTable(Marked(u0, f, n, true), u, r0, ram, g);
      forall k | k in live ensures live[k] != g {
        assert ExtendedAt(live0, start, n, n, f, live, k);
      }
    }
  }

  lemma SpareNotLive(live: map<nat, nat>, used: seq<bool>, ram: Ram, d: nat, n: nat)
    requires SpareRun(live, used, ram, d, d + n)
    ensures forall g: nat :: d <= g < d + n ==> g !in live.Values
  {
    forall g: nat | d <= g < d + n ensures g !in live.Values {
      assert Spare(live, used, ram, g);
    }
  }

  // ---- without a run of pages ----

  /** Page i of the first sixteen megabytes is on frame d + i. */
  ghost predicate LowAt(ram: Ram, dir: nat, i: nat, d: nat)
    requires Shaped(ram, dir) && i * BLOCK < WORD
  {
    Translate(ram, dir, i * BLOCK) == Some((d + i) * BLOCK)
  }

  ghost predicate LowMapped(ram: Ram, dir: nat, n: nat, d: nat)
    requires Shaped(ram, dir) && n <= LOW_PAGES
  {
    forall k: nat {:trigger LowAt(ram, dir, k, d)} :: k < n ==> LowAt(ram, dir, k, d)
  }

  /** A kernel page is the image of one of the first 1024 pages or of none. */
  lemma LowImage(j: nat, i: nat)
    requires j < KERNEL_PAGES && i < ZONE_END / BLOCK
    ensures AddrOf(j) < WORD && i * BLOCK < WORD && (SamePage(AddrOf(j), i * BLOCK) <==> j == i && i < LOW_PAGES)
  {
    FrameAddress(i);
    assert AddrOf(j) / BLOCK == KERNEL_SLOT * ENTRIES + j;
    PageNumber(AddrOf(j));
    PageNumber(i * BLOCK);
  }

  lemma LowApart(k: nat, i: nat)
    requires k < ZONE_END / BLOCK && i < ZONE_END / BLOCK
    ensures k * BLOCK < WORD && i * BLOCK < WORD && (SamePage(k * BLOCK, i * BLOCK) <==> k == i)
  {
    FrameAddress(k);
    FrameAddress(i);
  }

  /** Mapping page i of the first sixteen megabytes touches kernel page i, if i is below 1024,
      and no other kernel page. */
  lemma LowStep(r0: Ram, r1: Ram, r2: Ram, dir: nat, i: nat, d: nat)
    requires Shaped(r0, dir) && Shaped(r1, dir) && Shaped(r2, dir) && i < ZONE_END / BLOCK
    requires SameEntry(r2, dir, i * BLOCK, i * BLOCK)
      && Retranslated(r1, r2, dir, i * BLOCK, Entry((d + i) * BLOCK, DMA_FLAGS))
    requires LowMapped(r1, dir, Least(i, LOW_PAGES), d) && KernelKept(r0, r1, dir, 0, Least(i, LOW_PAGES))
    ensures LowMapped(r2, dir, Least(i + 1, LOW_PAGES), d) && KernelKept(r0, r2, dir, 0, Least(i + 1, LOW_PAGES))
  {
    forall k: nat | k < Least(i + 1, LOW_PAGES) ensures LowAt(r2, dir, k, d) {
      LowApart(k, i);
      FrameAddress(d + i);
      MappedLaw(r1, r2, dir, i * BLOCK, (d + i) * BLOCK, DMA_FLAGS, k * BLOCK);
      if k < i {
        assert LowAt(r1, dir, k, d);
      } else {
        FrameAddress(i);
      }
    }
    forall j: nat | j < KERNEL_PAGES && !(0 <= j < Least(i + 1, LOW_PAGES))
      ensures AddrOf(j) < WORD && KeptAt(r0, r2, dir, j) {
      LowImage(j, i);
      MappedLaw(r1, r2, dir, i * BLOCK, (d + i) * BLOCK, DMA_FLAGS, AddrOf(j));
      assert KeptAt(r0, r1, dir, j);
    }
  }

  /** Kernel page k goes where page k goes. */
  lemma LowIsKernel(ram: Ram, dir: nat, k: nat)
    requires Shaped(ram, dir) && k < LOW_PAGES
    ensures AddrOf(k) < WORD && Translate(ram, dir, AddrOf(k)) == Translate(ram, dir, k * BLOCK)
  {
    FrameAddress(k);
    assert AddrOf(k) / BLOCK == KERNEL_SLOT * ENTRIES + k;
    PageNumber(AddrOf(k));
    PageNumber(k * BLOCK);
    AlignedAddresses(k, k);
    assert SlotLeads(ram, dir, 0) && SlotLeads(ram, dir, KERNEL_SLOT);
  }

  lemma {:induction false} LowDamageAt(pages: seq<bool>, u0: seq<bool>, u1: seq<bool>, r0: Ram, r1: Ram, dir: nat,
                                       k: nat, f: nat, n: nat, d: nat)
    requires Shaped(r0, dir) && Shaped(r1, dir) && Backed(pages, u0, r0, dir, k, f) && |pages| <= KERNEL_PAGES
    requires TablesGrew(r0.Keys, u0, r1.Keys, u1) && n <= LOW_PAGES && LowMapped(r1, dir, n, d)
      && KernelKept(r0, r1, dir, 0, n)
    requires k < n ==> f != d + k
    ensures Backed(pages, u1, r1, dir, k, f) <==> k >= n
  {
    if k >= n {
      assert KeptAt(r0, r1, dir, k);
      BackedKept(pages, u0, u1, r0, r1, dir, k, f);
    } else {
      LowIsKernel(r1, dir, k);
      assert LowAt(r1, dir, k, d);
    }
  }

  /** After the low pages have been mapped over, the live pages still are where they were
      exactly if none of them is among the first n. */
  lemma {:induction false} LowDamage(pages: seq<bool>, u0: seq<bool>, u1: seq<bool>, r0: Ram, r1: Ram, dir: nat,
                                     live: map<nat, nat>, n: nat, d: nat)
    requires Shaped(r0, dir) && Shaped(r1, dir) && AllBacked(pages, u0, r0, dir, live) && |pages| <= KERNEL_PAGES
    requires TablesGrew(r0.Keys, u0, r1.Keys, u1) && n <= LOW_PAGES && LowMapped(r1, dir, n, d)
      && KernelKept(r0, r1, dir, 0, n)
    requires forall k: nat :: d <= k < d + n ==> k !in live.Values
    ensures AllBacked(pages, u1, r1, dir, live) <==> forall k <- live :: k >= n
  {
    forall k | k in live ensures Backed(pages, u1, r1, dir, k, live[k]) <==> k >= n {
      assert Backed(pages, u0, r0, dir, k, live[k]) && live[k] in live.Values;
      LowDamageAt(pages, u0, u1, r0, r1, dir, k, live[k], n, d);
    }
  }

  lemma LowHasTable(ram: Ram, dir: nat, i: nat)
    requires Shaped(ram, dir) && i < LOW_PAGES
    ensures i * BLOCK < WORD && TableOf(ram, dir, i * BLOCK).Some?
  {
    FrameAddress(i);
    PageNumber(i * BLOCK);
  }

  /** State of the loop of dma_alloc, run at address 0, after i pages. */
  ghost predicate Lowering(vmm: PageAllocator, i: nat, d: nat, u0: seq<bool>, r0: Ram)
    reads vmm, vmm.paging, vmm.frames, vmm.frames.bitmap
  {
    && vmm.Wired() && Shaped(r0, vmm.paging.dir) && TablesGrew(r0.Keys, u0, vmm.paging.ram.Keys, vmm.frames.Used())
    && LowMapped(vmm.paging.ram, vmm.paging.dir, Least(i, LOW_PAGES), d)
    && KernelKept(r0, vmm.paging.ram, vmm.paging.dir, 0, Least(i, LOW_PAGES))
  }

  method LowerOne(vmm: PageAllocator, i: nat, d: nat, ghost u0: seq<bool>, ghost r0: Ram)
    requires Lowering(vmm, i, d, u0, r0) && d + i < ZONE_END / BLOCK
    modifies vmm.paging`ram, vmm.frames`usedBlocks, vmm.frames.bitmap
    ensures Lowering(vmm, i + 1, d, u0, r0)
  {
    ghost var r1, u1 := vmm.paging.ram, vmm.frames.Used();
    FrameAddress(i);
    FrameAddress(d + i);
    if i < LOW_PAGES {
      LowHasTable(r1, vmm.paging.dir, i);
    }
    var ok := vmm.paging.MapPage((d + i) * BLOCK, i * BLOCK, DMA_FLAGS);
    TablesGrewTwice(r0.Keys, u0, r1.Keys, u1, vmm.paging.ram.Keys, vmm.frames.Used());
    if ok {
      LowStep(r0, r1, vmm.paging.ram, vmm.paging.dir, i, d);
    }
  }

  /** The loop of dma_alloc when vmm_alloc_contiguous has answered NULL: it maps over the first
      pages of memory, and so over their images in the kernel. */
  method MapLow(vmm: PageAllocator, n: nat, d: nat)
    requires vmm.Wired() && d + n <= ZONE_END / BLOCK
    modifies vmm.paging`ram, vmm.frames`usedBlocks, vmm.frames.bitmap
    ensures Lowering(vmm, n, d, old(vmm.frames.Used()), old(vmm.paging.ram))
  {
    ghost var u0, r0 := vmm.frames.Used(), vmm.paging.ram;
    NoTableGrew(r0.Keys, u0);
    Unchanged(r0, vmm.paging.dir);
    var i := 0;
    while i < n
      invariant i <= n && Lowering(vmm, i, d, u0, r0)
    {
      LowerOne(vmm, i, d, u0, r0);
      i := i + 1;
    }
  }

  lemma Unchanged(ram: Ram, dir: nat)
    requires Shaped(ram, dir)
    ensures forall start: nat, n: nat :: KernelKept(ram, ram, dir, start, n)
  {
    forall start: nat, n: nat ensures KernelKept(ram, ram, dir, start, n) {
      forall j: nat | j < KERNEL_PAGES && !(start <= j < start + n)
        ensures AddrOf(j) < WORD && KeptAt(ram, ram, dir, j) {
      }
    }
  }

  // ---- dma_alloc and dma_free ----

  function ZoneTop(frames: FrameAllocator): (r: nat) {
    Least(ZONE_END / BLOCK, frames.maxBlocks)
  }

  /** Consecutive frames of the zone, the lowest there are. */
  method TakeZone(vmm: PageAllocator, n: nat) returns (p: nat)
    requires vmm.Valid()
    modifies vmm.frames`usedBlocks, vmm.frames.bitmap
    ensures vmm.Valid()
    ensures p == NULL <==> n == 0 || old(NoRun(vmm.frames.Used(), n, ZONE_START / BLOCK, ZoneTop(vmm.frames)))
    ensures p == NULL ==> vmm.frames.Used() == old(vmm.frames.Used())
    ensures p != NULL ==> p == p / BLOCK * BLOCK && 0 < p / BLOCK && p / BLOCK + n <= ZONE_END / BLOCK
    ensures p != NULL ==> old(FirstRun(vmm.frames.Used(), p / BLOCK, n, ZONE_START / BLOCK, ZoneTop(vmm.frames)))
    ensures p != NULL ==> vmm.frames.Used() == Marked(old(vmm.frames.Used()), p / BLOCK, n, true)
    ensures p != NULL ==> SpareRun(vmm.live, vmm.frames.Used(), vmm.paging.ram, p / BLOCK, p / BLOCK + n)
  {
    p := vmm.frames.AllocBlocksInRange(n, ZONE_START, ZONE_END);
    if p != NULL {
      TakenRunSpare(vmm.Pages(), old(vmm.frames.Used()), vmm.paging.ram, vmm.paging.dir, vmm.live, p / BLOCK, n);
      MarksKept(vmm.Pages(), vmm.Pages(), old(vmm.frames.Used()), vmm.frames.Used(), vmm.paging.ram, vmm.paging.dir,
        vmm.live);
    }
  }

  /** The n pages from `start` on are live on the frames from d on, and besides those and new
      tables the n frames from f on have gone into use. */
  ghost predicate DmaHeld(dir: nat, start: nat, n: nat, d: nat, f: nat, live0: map<nat, nat>, p0: seq<bool>,
                          u0: seq<bool>, r0: Ram,
                          live: map<nat, nat>, pages: seq<bool>, used: seq<bool>, ram: Ram)
    requires Shaped(r0, dir) && Shaped(ram, dir)
  {
    && Extended(live0, start, n, n, d, live) && ClearRun(p0, start, n) && pages == Marked(p0, start, n, true)
    && ClearRun(u0, d, n) && ClearRun(Marked(u0, d, n, true), f, n)
    && TablesGrew(r0.Keys, Marked(Marked(u0, d, n, true), f, n, true), ram.Keys, used)
      && KernelKept(r0, ram, dir, start, n)
  }

  /** The lowest run of n frames of the zone starts at d, and without these vmm_alloc_contiguous
      can have n pages. */
  ghost predicate ZoneHadAt(pages: seq<bool>, used: seq<bool>, slots: seq<nat>, n: nat, d: nat) {
    FirstRun(used, d, n, ZONE_START / BLOCK, Least(ZONE_END / BLOCK, |used|))
      && RunToBeHad(pages, Marked(used, d, n, true), slots, n)
  }

  /** dma_alloc can have n pages. */
  ghost predicate ZoneToBeHad(pages: seq<bool>, used: seq<bool>, slots: seq<nat>, n: nat) {
    0 < n && exists d: nat {:trigger ZoneHadAt(pages, used, slots, n, d)} :: ZoneHadAt(pages, used, slots, n, d)
  }

  lemma ZoneHadIff(pages: seq<bool>, used: seq<bool>, slots: seq<nat>, n: nat, d: nat)
    requires 0 < n && FirstRun(used, d, n, ZONE_START / BLOCK, Least(ZONE_END / BLOCK, |used|))
    ensures ZoneToBeHad(pages, used, slots, n) <==> RunToBeHad(pages, Marked(used, d, n, true), slots, n)
  {
    assert ZoneHadAt(pages, used, slots, n, d) <==> RunToBeHad(pages, Marked(used, d, n, true), slots, n);
    forall e: nat ensures ZoneHadAt(pages, used, slots, n, e) ==> e == d {
    }
  }

  lemma NoZoneNotHad(pages: seq<bool>, used: seq<bool>, slots: seq<nat>, n: nat)
    requires n == 0 || NoRun(used, n, ZONE_START / BLOCK, Least(ZONE_END / BLOCK, |used|))
    ensures !ZoneToBeHad(pages, used, slots, n)
  {
  }

  /** dma_alloc. It succeeds with a run of pages on consecutive frames of the zone, but the
      frames that came with the pages stay in use. When there are frames in the zone but no
      run of pages to be had, it maps over the first pages of memory instead, and the live
      pages keep their frames exactly if none of the images is live. */
  method DmaAlloc(vmm: PageAllocator, size: nat) returns (v: nat, ghost start: nat, ghost d: nat, ghost f: nat)
    requires vmm.Valid() && size < WORD
    modifies vmm`live, vmm.bitmap, vmm.paging`ram, vmm.frames`usedBlocks, vmm.frames.bitmap
    ensures v != NULL ==>
      vmm.Valid() && v == AddrOf(start) < WORD && start + BlocksIn(size) <= vmm.maxPages && 0 < BlocksIn(size)
    ensures v != NULL ==> old(FirstRun(vmm.Pages(), start, BlocksIn(size), 0, vmm.maxPages))
    ensures v != NULL ==> old(FirstRun(vmm.frames.Used(), d, BlocksIn(size), ZONE_START / BLOCK, ZoneTop(vmm.frames)))
    ensures v != NULL ==>
      FirstRun(Marked(old(vmm.frames.Used()), d, BlocksIn(size), true), f, BlocksIn(size), 0, vmm.frames.maxBlocks)
    ensures v != NULL ==>
      DmaHeld(vmm.paging.dir, start, BlocksIn(size), d, f, old(vmm.live), old(vmm.Pages()), old(vmm.frames.Used()),
        old(vmm.paging.ram),
                            vmm.live, vmm.Pages(), vmm.frames.Used(), vmm.paging.ram)
    ensures v == NULL ==> vmm.live == old(vmm.live)
    ensures (BlocksIn(size) == 0
      || old(NoRun(vmm.frames.Used(), BlocksIn(size), ZONE_START / BLOCK, ZoneTop(vmm.frames)))) ==>
      v == NULL && vmm.Valid() && vmm.Pages() == old(vmm.Pages()) && vmm.frames.Used() == old(vmm.frames.Used())
        && vmm.paging.ram == old(vmm.paging.ram)
    ensures v != NULL <==>
      ZoneToBeHad(old(vmm.Pages()), old(vmm.frames.Used()), old(vmm.paging.ram[vmm.paging.dir]), BlocksIn(size))
    ensures vmm.Valid() <==>
      || BlocksIn(size) == 0 || old(NoRun(vmm.frames.Used(), BlocksIn(size), ZONE_START / BLOCK, ZoneTop(vmm.frames)))
      || ZoneToBeHad(old(vmm.Pages()), old(vmm.frames.Used()), old(vmm.paging.ram[vmm.paging.dir]), BlocksIn(size))
      || forall k <- old(vmm.live) :: k >= Least(BlocksIn(size), LOW_PAGES)
  {
    start, d, f := 0, 0, 0;
    var n := BlocksIn(size);
    var p := TakeZone(vmm, n);
    if p == NULL {
      NoZoneNotHad(vmm.Pages(), vmm.frames.Used(), vmm.paging.ram[vmm.paging.dir], n);
      return NULL, start, d, f;
    }
    d := p / BLOCK;
    ZoneHadIff(old(vmm.Pages()), old(vmm.frames.Used()), old(vmm.paging.ram[vmm.paging.dir]), n, d);
    v, start, f := FromZone(vmm, n, p / BLOCK);
  }

  /** The rest of dma_alloc, once it has its frames. */
  method FromZone(vmm: PageAllocator, n: nat, d: nat) returns (v: nat, ghost start: nat, ghost f: nat)
    requires vmm.Valid() && 0 < n && 0 < d && d + n <= ZONE_END / BLOCK
      && SpareRun(vmm.live, vmm.frames.Used(), vmm.paging.ram, d, d + n)
    modifies vmm`live, vmm.bitmap, vmm.paging`ram, vmm.frames`usedBlocks, vmm.frames.bitmap
    ensures v != NULL <==> RunToBeHad(old(vmm.Pages()), old(vmm.frames.Used()), old(vmm.paging.ram[vmm.paging.dir]), n)
    ensures v != NULL ==> vmm.Valid() && v == AddrOf(start) < WORD && start + n <= vmm.maxPages
    ensures v != NULL ==>
      old(FirstRun(vmm.Pages(), start, n, 0, vmm.maxPages)) && vmm.Pages() == Marked(old(vmm.Pages()), start, n, true)
    ensures v != NULL ==>
      old(FirstRun(vmm.frames.Used(), f, n, 0, vmm.frames.maxBlocks))
        && Extended(old(vmm.live), start, n, n, d, vmm.live)
    ensures v != NULL ==>
      TablesGrew(old(vmm.paging.ram.Keys), Marked(old(vmm.frames.Used()), f, n, true), vmm.paging.ram.Keys,
        vmm.frames.Used())
    ensures v != NULL ==> KernelKept(old(vmm.paging.ram), vmm.paging.ram, vmm.paging.dir, start, n)
    ensures v == NULL ==>
      vmm.live == old(vmm.live) && (vmm.Valid() <==> forall k <- vmm.live :: k >= Least(n, LOW_PAGES))
  {
    SpareNotLive(vmm.live, vmm.frames.Used(), vmm.paging.ram, d, n);
    v, start, f := PagesFor(vmm, n, d);
    if v == NULL {
      OverLow(vmm, n, d);
    } else {
      Move(vmm, PageAt(v), n, d, start, f, old(vmm.live), old(vmm.frames.Used()), old(vmm.paging.ram));
    }
  }

  /** The run of pages; its own frames are others than those of the zone. */
  method PagesFor(vmm: PageAllocator, n: nat, ghost d: nat) returns (v: nat, ghost start: nat, ghost f: nat)
    requires vmm.Valid() && SpareRun(vmm.live, vmm.frames.Used(), vmm.paging.ram, d, d + n)
    modifies vmm`live, vmm.bitmap, vmm.paging`ram, vmm.frames`usedBlocks, vmm.frames.bitmap
    ensures vmm.Valid() && (v == NULL ==> vmm.live == old(vmm.live))
    ensures v != NULL <==> RunToBeHad(old(vmm.Pages()), old(vmm.frames.Used()), old(vmm.paging.ram[vmm.paging.dir]), n)
    ensures v != NULL ==>
      v == AddrOf(start) < WORD && old(FirstRun(vmm.Pages(), start, n, 0, vmm.maxPages))
        && old(FirstRun(vmm.frames.Used(), f, n, 0, vmm.frames.maxBlocks))
    ensures v != NULL ==>
      vmm.Pages() == Marked(old(vmm.Pages()), start, n, true)
        && SpareRun(vmm.live, vmm.frames.Used(), vmm.paging.ram, d, d + n)
    ensures v != NULL ==>
      BoundRun(vmm.paging.dir, start, n, n, f, old(vmm.live), old(vmm.frames.Used()), old(vmm.paging.ram), vmm.live,
        vmm.frames.Used(), vmm.paging.ram)
  {
    v, start, f := vmm.AllocContiguous(n);
    if v != NULL {
      SpareThrough(vmm.paging.dir, start, n, f, old(vmm.live), old(vmm.frames.Used()), old(vmm.paging.ram), vmm.live,
        vmm.frames.Used(), vmm.paging.ram, d);
    }
  }

  /** The pages just allocated, moved to the frames of the zone. */
  method Move(vmm: PageAllocator, first: nat, n: nat, d: nat, ghost start: nat, ghost f: nat,
              ghost live0: map<nat, nat>, ghost u0: seq<bool>, ghost r0: Ram)
    requires vmm.Valid() && 0 < d && first == PageAt(AddrOf(start))
    requires BoundRun(vmm.paging.dir, start, n, n, f, live0, u0, r0, vmm.live, vmm.frames.Used(), vmm.paging.ram)
    requires SpareRun(vmm.live, vmm.frames.Used(), vmm.paging.ram, d, d + n)
    modifies vmm`live, vmm.paging`ram, vmm.frames`usedBlocks, vmm.frames.bitmap
    ensures vmm.Valid() && Extended(live0, start, n, n, d, vmm.live)
    ensures TablesGrew(r0.Keys, Marked(u0, f, n, true), vmm.paging.ram.Keys, vmm.frames.Used())
    ensures KernelKept(r0, vmm.paging.ram, vmm.paging.dir, start, n)
  {
    ghost var r1 := vmm.paging.ram;
    PageIndex(start);
    MovedNone(live0, start, n, d, f, vmm.live);
    Unchanged(r1, vmm.paging.dir);
    RemapRun(vmm, first, n, d, f, live0);
    MovedAll(live0, start, n, d, f, vmm.live);
    KernelKeptTwice(r0, r1, vmm.paging.ram, vmm.paging.dir, start, n);
  }

  method OverLow(vmm: PageAllocator, n: nat, d: nat)
    requires vmm.Valid() && d + n <= ZONE_END / BLOCK && forall g: nat :: d <= g < d + n ==> g !in vmm.live.Values
    modifies vmm.paging`ram, vmm.frames`usedBlocks, vmm.frames.bitmap
    ensures vmm.Valid() <==> forall k <- vmm.live :: k >= Least(n, LOW_PAGES)
  {
    MapLow(vmm, n, d);
    LowDamage(vmm.Pages(), old(vmm.frames.Used()), vmm.frames.Used(), old(vmm.paging.ram), vmm.paging.ram,
      vmm.paging.dir, vmm.live, Least(n, LOW_PAGES), d);
  }

  /** The sizes and addresses that dma_free turns away. A size within a page of 4 GiB is not
      among them: rounding it up wraps to no pages, so nothing is freed. */
  predicate Refused(v: nat, size: nat, maxPages: nat) {
    v == NULL || size == 0 || !Aligned(v) || BlocksIn(size) > maxPages
  }

  /** dma_free on a run of live pages with consecutive frames. */
  method DmaFree(vmm: PageAllocator, v: nat, size: nat, ghost start: nat, ghost d: nat)
    requires vmm.Valid() && v < WORD && size < WORD && start + BlocksIn(size) <= vmm.maxPages
    requires Refused(v, size, vmm.maxPages) || (v == AddrOf(start) && vmm.LiveRun(start, BlocksIn(size), d))
    modifies vmm`live, vmm.bitmap, vmm.paging`ram, vmm.frames`usedBlocks, vmm.frames.bitmap
    ensures Refused(v, size, vmm.maxPages) ==>
      vmm.Valid() && vmm.live == old(vmm.live) && vmm.Pages() == old(vmm.Pages())
    ensures Refused(v, size, vmm.maxPages) ==>
      vmm.frames.Used() == old(vmm.frames.Used()) && vmm.paging.ram == old(vmm.paging.ram)
    ensures !Refused(v, size, vmm.maxPages) ==>
      vmm.Releasing(start, BlocksIn(size), d, old(vmm.live), old(vmm.Pages()), old(vmm.frames.Used()),
        old(vmm.paging.ram))
  {
    if v == NULL || size == 0 {
      return;
    }
    if !Aligned(v) {
      return;
    }
    var n := BlocksIn(size);
    if n > vmm.maxPages {
      return;
    }
    vmm.FreeContiguous(v, n, start, d);
  }

  lemma MarksSwap(u: seq<bool>, d: nat, f: nat, n: nat)
    requires ClearRun(u, d, n) && ClearRun(Marked(u, d, n, true), f, n) && 0 < n
    ensures Marked(Marked(u, d, n, true), f, n, true) == Marked(Marked(u, f, n, true), d, n, true)
    ensures ClearRun(u, f, n) && ClearRun(Marked(u, f, n, true), d, n)
  {
    var both := Marked(u, d, n, true);
    forall i | f <= i < f + n ensures !u[i] && !(d <= i < d + n) {
      assert !both[i];
    }
    forall i | d <= i < d + n ensures !Marked(u, f, n, true)[i] {
      assert both[i];
    }
  }

  ghost predicate NoTables(ram: Ram, d: nat, n: nat) {
    forall g: nat :: d <= g < d + n ==> g !in ram
  }

  lemma HeldNoTables(vmm: PageAllocator, start: nat, n: nat, d: nat)
    requires vmm.Valid() && vmm.LiveRun(start, n, d)
    ensures NoTables(vmm.paging.ram, d, n)
  {
    vmm.RunNoTables(start, n, d);
  }

  /** Once given back, the frames of the zone are free again, but not those that came with the pages. */
  lemma DmaGone(dir: nat, start: nat, n: nat, d: nat, f: nat, live0: map<nat, nat>, p0: seq<bool>, u0: seq<bool>,
                r0: Ram,
                l1: map<nat, nat>, p1: seq<bool>, u1: seq<bool>, r1: Ram, ram: Ram)
    requires Shaped(r0, dir) && Shaped(r1, dir) && Shaped(ram, dir) && 0 < n && start + n <= KERNEL_PAGES
      && ram.Keys == r1.Keys
    requires DmaHeld(dir, start, n, d, f, live0, p0, u0, r0, l1, p1, u1, r1)
    requires NoTables(r1, d, n) && Cleared(r1, ram, dir, start, n)
    ensures l1 - PageSet(start, n) == live0 && Marked(p1, start, n, false) == p0
    ensures ClearRun(u0, f, n) && TablesGrew(r0.Keys, Marked(u0, f, n, true), ram.Keys, Marked(u1, d, n, false))
    ensures Cleared(r0, ram, dir, start, n)
  {
    ExtendedIsRun(live0, start, n, n, d, l1);
    MarkedBack(p0, start, n);
    MarksSwap(u0, d, f, n);
    GrewOnly(r0.Keys, Marked(u0, f, n, true), r1.Keys, u1, d, n);
    KernelKeptTwice(r0, r1, ram, dir, start, n);
  }

  /** Allocating and freeing again restores pages and live pages and gives back the frames of
      the zone; the n frames that came with the pages are lost, besides those of new tables. */
  method DmaAllocAndFree(vmm: PageAllocator, size: nat) returns (v: nat, ghost f: nat)
    requires vmm.Valid() && size < WORD
    modifies vmm`live, vmm.bitmap, vmm.paging`ram, vmm.frames`usedBlocks, vmm.frames.bitmap
    ensures v != NULL ==>
      vmm.Valid() && vmm.live == old(vmm.live) && vmm.Pages() == old(vmm.Pages())
        && old(ClearRun(vmm.frames.Used(), f, BlocksIn(size)))
    ensures v != NULL ==>
      TablesGrew(old(vmm.paging.ram.Keys), Marked(old(vmm.frames.Used()), f, BlocksIn(size), true),
        vmm.paging.ram.Keys, vmm.frames.Used())
    ensures v != NULL ==>
      vmm.frames.usedBlocks ==
        old(vmm.frames.usedBlocks) + BlocksIn(size) + |vmm.paging.ram.Keys - old(vmm.paging.ram.Keys)|
  {
    ghost var start, d;
    v, start, d, f := DmaAlloc(vmm, size);
    if v != NULL {
      GiveBackDma(vmm, v, size, start, d, f, old(vmm.live), old(vmm.Pages()), old(vmm.frames.Used()),
        old(vmm.paging.ram));
      CountMarked(old(vmm.frames.Used()), f, BlocksIn(size));
      CountGrew(old(vmm.paging.ram.Keys), Marked(old(vmm.frames.Used()), f, BlocksIn(size), true),
        vmm.paging.ram.Keys, vmm.frames.Used());
    }
  }

  lemma HeldAccepted(v: nat, size: nat, start: nat, maxPages: nat)
    requires v == AddrOf(start) && 0 < BlocksIn(size) <= maxPages
    ensures !Refused(v, size, maxPages)
  {
    AlignedAddresses(start, start);
    assert BlocksIn(0) == 0;
  }

  method FreeHeld(vmm: PageAllocator, v: nat, size: nat, ghost n: nat, ghost start: nat, ghost d: nat)
    requires vmm.Valid() && v == AddrOf(start) < WORD && size < WORD && 0 < n == BlocksIn(size)
      && start + n <= vmm.maxPages
    requires vmm.LiveRun(start, n, d)
    modifies vmm`live, vmm.bitmap, vmm.paging`ram, vmm.frames`usedBlocks, vmm.frames.bitmap
    ensures vmm.Releasing(start, n, d, old(vmm.live), old(vmm.Pages()), old(vmm.frames.Used()), old(vmm.paging.ram))
  {
    HeldAccepted(v, size, start, vmm.maxPages);
    DmaFree(vmm, v, size, start, d);
  }

  method GiveBackDma(vmm: PageAllocator, v: nat, size: nat, ghost start: nat, ghost d: nat, ghost f: nat,
                     ghost live0: map<nat, nat>, ghost p0: seq<bool>, ghost u0: seq<bool>, ghost r0: Ram)
    requires vmm.Valid() && v == AddrOf(start) < WORD && size < WORD && 0 < BlocksIn(size)
      && start + BlocksIn(size) <= vmm.maxPages && Shaped(r0, vmm.paging.dir)
    requires DmaHeld(vmm.paging.dir, start, BlocksIn(size), d, f, live0, p0, u0, r0, vmm.live, vmm.Pages(),
      vmm.frames.Used(), vmm.paging.ram)
    modifies vmm`live, vmm.bitmap, vmm.paging`ram, vmm.frames`usedBlocks, vmm.frames.bitmap
    ensures vmm.Valid() && vmm.live == live0 && vmm.Pages() == p0 && ClearRun(u0, f, BlocksIn(size))
    ensures TablesGrew(r0.Keys, Marked(u0, f, BlocksIn(size), true), vmm.paging.ram.Keys, vmm.frames.Used())
  {
    ghost var n, l1, p1, u1, r1 := BlocksIn(size), vmm.live, vmm.Pages(), vmm.frames.Used(), vmm.paging.ram;
    ExtendedLive(live0, start, n, n, d, l1);
    HeldNoTables(vmm, start, n, d);
    FreeHeld(vmm, v, size, n, start, d);
    DmaGone(vmm.paging.dir, start, n, d, f, live0, p0, u0, r0, l1, p1, u1, r1, vmm.paging.ram);
  }

  /** 512 frames, all but number 300 in use, and as many pages, page 0 of them live: dma_alloc of
      one page takes the last frame, vmm_alloc_contiguous has none, and so page 0 is mapped over
      and loses its frame. */
  lemma LivePageLost(pages: seq<bool>, used: seq<bool>, slots: seq<nat>, live: map<nat, nat>)
    requires |pages| == 512 && used == seq(512, i => i != 300) && live == map[0 := 299]
    ensures !NoRun(used, 1, ZONE_START / BLOCK, Least(ZONE_END / BLOCK, |used|))
    ensures !ZoneToBeHad(pages, used, slots, 1) && !(forall k <- live :: k >= Least(1, LOW_PAGES))
  {
    var top := Least(ZONE_END / BLOCK, |used|);
    assert RunAt(used, 300, 1, ZONE_START / BLOCK, top);
    assert 0 in live;
    forall d: nat ensures !ZoneHadAt(pages, used, slots, 1, d) {
      if FirstRun(used, d, 1, ZONE_START / BLOCK, top) {
        assert !used[d];
        NoneLeft(used, d);
        NoRunNotHad(pages, Marked(used, d, 1, true), slots, 1);
      }
    }
  }

  lemma NoneLeft(used: seq<bool>, d: nat)
    requires used == seq(512, i => i != 300) && d == 300
    ensures NoRun(Marked(used, d, 1, true), 1, 0, |used|)
  {
    var taken := Marked(used, d, 1, true);
    forall s: nat ensures !RunAt(taken, s, 1, 0, |used|) {
      if s < 512 {
        assert taken[s];
      }
    }
  }
}
