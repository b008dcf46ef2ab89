/** The kernel's virtual page allocator over the frame allocator and the page tables. */
module Vmm {
  import opened Words
  import opened Bits
  import opened Frames
  import opened Paging

  const KERNEL_PAGES: nat := 262144     // pages in the 1 GiB above KERNEL_BASE
  const MAP_FLAGS: nat := 3             // PAGE_PRESENT | PAGE_WRITABLE

  function AddrOf(page: nat): (r: nat) {
    KERNEL_BASE + page * BLOCK
  }

  lemma FrameAddress(f: nat)
    ensures f * BLOCK / BLOCK == f && f * BLOCK % BLOCK == 0 && PageFrame(f * BLOCK) == f * BLOCK
  {
  }

  /** Index of the page that v lies in. */
  function PageAt(v: nat): (r: nat)
    requires KERNEL_BASE <= v
  {
    (v - KERNEL_BASE) / BLOCK
  }

  lemma PageAddress(v: nat)
    requires KERNEL_BASE <= v && Aligned(v)
    ensures AddrOf(PageAt(v)) == v
  {
  }

  lemma PageIndex(page: nat)
    ensures PageAt(AddrOf(page)) == page
  {
  }

  lemma FrameBelow(f: nat, max: nat)
    requires f < max <= WORD / BLOCK
    ensures f * BLOCK < WORD - 1
  {
  }

  lemma AlignedAddresses(page: nat, f: nat)
    ensures Aligned(AddrOf(page)) && Aligned(f * BLOCK)
  {
  }

  lemma OneFrame(u: seq<bool>, f: nat)
    requires f < |u|
    ensures Marked(u, f * BLOCK / BLOCK, BlocksIn(BLOCK), false) == u[f := false]
  {
    FrameAddress(f);
    assert BlocksIn(BLOCK) == 1;
  }

  /** The physical address of a page is aligned, so it is never the failure value UINT32_MAX. */
  lemma FrameNotNone(ram: Ram, dir: nat, v: nat)
    requires Shaped(ram, dir) && v < WORD && Aligned(v)
    ensures Translate(ram, dir, v) != Some(WORD - 1)
  {
  }

  /** Different kernel pages never share a table entry. */
  lemma KernelPagesApart(ram: Ram, dir: nat, i: nat, j: nat)
    requires Shaped(ram, dir) && i < KERNEL_PAGES && j < KERNEL_PAGES && i != j
    ensures AddrOf(i) < WORD && AddrOf(j) < WORD && !SameEntry(ram, dir, AddrOf(i), AddrOf(j))
  {
    assert DirIndex(AddrOf(i)) >= KERNEL_SLOT && DirIndex(AddrOf(j)) >= KERNEL_SLOT;
    assert AddrOf(i) / BLOCK != AddrOf(j) / BLOCK;
    if SameEntry(ram, dir, AddrOf(i), AddrOf(j)) {
      SameEntryPages(ram, dir, AddrOf(i), AddrOf(j));
    }
  }

  /** Page i is live on frame f: it is marked and translated to f, which is in use and holds no table. */
  ghost predicate Backed(pages: seq<bool>, used: seq<bool>, ram: Ram, dir: nat, i: nat, f: nat)
    requires Shaped(ram, dir)
  {
    && i < |pages| && pages[i] && 0 < f < |used| && used[f] && f !in ram
    && AddrOf(i) < WORD && Translate(ram, dir, AddrOf(i)) == Some(f * BLOCK)
  }

  /** It stays so while frames only go into use as tables and its translation is left alone. */
  lemma BackedKept(pages: seq<bool>, u0: seq<bool>, u1: seq<bool>, r0: Ram, r1: Ram, dir: nat, i: nat, f: nat)
    requires Shaped(r0, dir) && Shaped(r1, dir) && Backed(pages, u0, r0, dir, i, f)
    requires TablesGrew(r0.Keys, u0, r1.Keys, u1)
    requires Translate(r1, dir, AddrOf(i)) == Translate(r0, dir, AddrOf(i))
    ensures Backed(pages, u1, r1, dir, i, f)
  {
    TakenNoTable(u0, u1, r0, r1, f);
  }

  /** Page frames taken before stay apart from the tables that come later. */
  lemma TakenNoTable(u0: seq<bool>, u1: seq<bool>, r0: Ram, r1: Ram, f: nat)
    requires TablesGrew(r0.Keys, u0, r1.Keys, u1) && f < |u0| && u0[f] && f !in r0
    ensures u1[f] && f !in r1
  {
    assert GrewAt(r0.Keys, u0, r1.Keys, u1, f);
  }

  ghost predicate AllBacked(pages: seq<bool>, used: seq<bool>, ram: Ram, dir: nat, live: map<nat, nat>)
    requires Shaped(ram, dir)
  {
    forall i {:trigger live[i]} :: i in live ==> Backed(pages, used, ram, dir, i, live[i])
  }

  ghost predicate OnOtherFrame(live: map<nat, nat>, i: nat, j: nat)
    requires i in live && j in live
  {
    i != j ==> live[i] != live[j]
  }

  /** No two live pages are on the same frame. */
  ghost predicate FramesApart(live: map<nat, nat>) {
    forall i, j {:trigger OnOtherFrame(live, i, j)} :: i in live && j in live ==> OnOtherFrame(live, i, j)
  }

  lemma FramesStillApart(live: map<nat, nat>, page: nat, f: nat)
    requires FramesApart(live)
    ensures f !in live.Values ==> FramesApart(live[page := f])
    ensures FramesApart(live - {page}) && (page in live ==> live[page] !in (live - {page}).Values)
  {
    var more, less := live[page := f], live - {page};
    if f !in live.Values {
      forall i, j | i in more && j in more ensures OnOtherFrame(more, i, j) {
        assert i != page && j != page ==> OnOtherFrame(live, i, j);
      }
    }
    forall i, j | i in less && j in less ensures OnOtherFrame(less, i, j) {
      assert OnOtherFrame(live, i, j);
    }
    forall i | page in live && i in less ensures less[i] != live[page] {
      assert OnOtherFrame(live, i, page);
    }
  }

  /** One more page bound to a frame taken for it. */
  lemma BoundPages(pages: seq<bool>, u0: seq<bool>, u1: seq<bool>, r0: Ram, r1: Ram, dir: nat, live: map<nat, nat>,
                   page: nat, frame: nat)
    requires Shaped(r0, dir) && Shaped(r1, dir) && TablesGrew(r0.Keys, u0, r1.Keys, u1)
      && AllBacked(pages, u0, r0, dir, live)
    requires page < |pages| <= KERNEL_PAGES && pages[page] && page !in live
    requires 0 < frame < |u0| && u0[frame] && frame !in r0 && AddrOf(page) < WORD
    requires SameEntry(r1, dir, AddrOf(page), AddrOf(page))
      && Retranslated(r0, r1, dir, AddrOf(page), Entry(frame * BLOCK, MAP_FLAGS))
    ensures AllBacked(pages, u1, r1, dir, live[page := frame])
  {
    TakenNoTable(u0, u1, r0, r1, frame);
    AlignedAddresses(page, frame);
    EntryDecoded(frame * BLOCK, MAP_FLAGS, AddrOf(page));
    forall i | i in live ensures Backed(pages, u1, r1, dir, i, live[i]) {
      KernelPagesApart(r1, dir, i, page);
      BackedKept(pages, u0, u1, r0, r1, dir, i, live[i]);
    }
  }

  /** One page fewer: its translation and its mark are gone. */
  lemma UnmappedPages(pages: seq<bool>, used: seq<bool>, r0: Ram, r1: Ram, dir: nat, live: map<nat, nat>, page: nat)
    requires Shaped(r0, dir) && Shaped(r1, dir) && r1.Keys == r0.Keys && AllBacked(pages, used, r0, dir, live)
    requires page < |pages| <= KERNEL_PAGES && AddrOf(page) < WORD && Retranslated(r0, r1, dir, AddrOf(page), 0)
    ensures AllBacked(pages[page := false], used, r1, dir, live - {page})
  {
    forall i | i in live && i != page ensures Backed(pages[page := false], used, r1, dir, i, live[i]) {
      KernelPagesApart(r1, dir, i, page);
      assert Backed(pages, used, r0, dir, i, live[i]);
    }
  }

  /** Its frame may come free as well. */
  lemma FreedFrame(pages: seq<bool>, used: seq<bool>, ram: Ram, dir: nat, live: map<nat, nat>, f: nat)
    requires Shaped(ram, dir) && AllBacked(pages, used, ram, dir, live) && f < |used| && f !in live.Values
    ensures AllBacked(pages, used[f := false], ram, dir, live)
  {
    forall i | i in live ensures Backed(pages, used[f := false], ram, dir, i, live[i]) {
      assert Backed(pages, used, ram, dir, i, live[i]);
    }
  }

  ghost predicate KeptAt(r0: Ram, r1: Ram, dir: nat, j: nat)
    requires Shaped(r0, dir) && Shaped(r1, dir) && AddrOf(j) < WORD
  {
    Translate(r1, dir, AddrOf(j)) == Translate(r0, dir, AddrOf(j))
  }

  /** No kernel page outside [start, start + n) is translated differently. */
  ghost predicate KernelKept(r0: Ram, r1: Ram, dir: nat, start: nat, n: nat)
    requires Shaped(r0, dir) && Shaped(r1, dir)
  {
    forall j: nat {:trigger KeptAt(r0, r1, dir, j)} :: j < KERNEL_PAGES && !(start <= j < start + n) ==>
      KeptAt(r0, r1, dir, j)
  }

  lemma RetranslatedKernel(r0: Ram, r1: Ram, dir: nat, page: nat, e: nat)
    requires Shaped(r0, dir) && Shaped(r1, dir) && page < KERNEL_PAGES && AddrOf(page) < WORD
    requires Retranslated(r0, r1, dir, AddrOf(page), e)
    ensures KernelKept(r0, r1, dir, page, 1)
  {
    forall j: nat | j < KERNEL_PAGES && j != page ensures KeptAt(r0, r1, dir, j) {
      KernelPagesApart(r1, dir, j, page);
    }
  }

  lemma KernelKeptStep(r0: Ram, r1: Ram, r2: Ram, dir: nat, start: nat, n: nat)
    requires Shaped(r0, dir) && Shaped(r1, dir) && Shaped(r2, dir)
    requires KernelKept(r0, r1, dir, start, n) && KernelKept(r1, r2, dir, start + n, 1)
    ensures KernelKept(r0, r2, dir, start, n + 1)
  {
    forall j: nat | j < KERNEL_PAGES && !(start <= j < start + n + 1) ensures KeptAt(r0, r2, dir, j) {
      assert KeptAt(r0, r1, dir, j) && KeptAt(r1, r2, dir, j);
    }
  }

  /** The pages of the run are not translated. */
  ghost predicate Unmapped(ram: Ram, dir: nat, start: nat, n: nat)
    requires Shaped(ram, dir) && start + n <= KERNEL_PAGES
  {
    forall k: nat {:trigger AddrOf(k)} :: start <= k < start + n ==>
      AddrOf(k) < WORD && Translate(ram, dir, AddrOf(k)) == None
  }

  /** The kernel pages of the run have lost their translation, and no other has changed. */
  ghost predicate Cleared(r0: Ram, r1: Ram, dir: nat, start: nat, n: nat)
    requires Shaped(r0, dir) && Shaped(r1, dir) && start + n <= KERNEL_PAGES
  {
    KernelKept(r0, r1, dir, start, n) && Unmapped(r1, dir, start, n)
  }

  /** A page retranslated by entry 0 has lost its translation. */
  lemma LostKernel(r0: Ram, r1: Ram, dir: nat, page: nat)
    requires Shaped(r0, dir) && Shaped(r1, dir) && page < KERNEL_PAGES && AddrOf(page) < WORD
    requires Retranslated(r0, r1, dir, AddrOf(page), 0)
    ensures Cleared(r0, r1, dir, page, 1)
  {
    RetranslatedKernel(r0, r1, dir, page, 0);
    if !SameEntry(r1, dir, AddrOf(page), AddrOf(page)) {
      assert TableOf(r1, dir, AddrOf(page)) == None;
    }
  }

  lemma ClearedStep(r0: Ram, r1: Ram, r2: Ram, dir: nat, start: nat, n: nat)
    requires Shaped(r0, dir) && Shaped(r1, dir) && Shaped(r2, dir) && start + n < KERNEL_PAGES
    requires Cleared(r0, r1, dir, start, n) && Cleared(r1, r2, dir, start + n, 1)
    ensures Cleared(r0, r2, dir, start, n + 1)
  {
    KernelKeptStep(r0, r1, r2, dir, start, n);
    forall k: nat | start <= k < start + n + 1 ensures AddrOf(k) < WORD && Translate(r2, dir, AddrOf(k)) == None {
      assert k < start + n ==> KeptAt(r1, r2, dir, k);
    }
  }

  // ---- tables for a run of pages ----

  /** Directory slot i leads to pages of the run. */
  predicate Under(i: nat, start: nat, n: nat) {
    KERNEL_SLOT <= i && 0 < n && (i - KERNEL_SLOT) * ENTRIES < start + n && start < (i - KERNEL_SLOT + 1) * ENTRIES
  }

  /** The slots under the run that have no table. */
  function EmptySlots(slots: seq<nat>, start: nat, n: nat): (s: set<nat>)
    ensures forall i: nat :: i in s <==> i < |slots| && !Present(slots[i]) && Under(i, start, n)
  {
    set i: nat | i < |slots| && !Present(slots[i]) && Under(i, start, n)
  }

  function SlotOf(page: nat): (slot: nat) {
    DirIndex(AddrOf(page))
  }

  lemma SlotInside(page: nat)
    requires page < KERNEL_PAGES
    ensures SlotOf(page) < ENTRIES && AddrOf(page) < WORD
  {
  }

  lemma UnderStep(j: nat, start: nat, i: nat)
    ensures Under(j, start, i + 1) <==> Under(j, start, i) || j == SlotOf(start + i)
  {
  }

  /** Mapping a page finds its slot with a table, or there must be a frame left for one. */
  ghost predicate Provided(ok: bool, d1: seq<nat>, d2: seq<nat>, page: nat, u1: seq<bool>, u2: seq<bool>) {
    && |d1| == ENTRIES && SlotOf(page) < ENTRIES
    && (ok <==> Present(d1[SlotOf(page)]) || FreeSeen(u1) > 0)
    && (ok ==> SlotAdded(d1, d2, SlotOf(page)))
    && (ok ==> FreeSeen(u1) == FreeSeen(u2) + if Present(d1[SlotOf(page)]) then 0 else 1)
  }

  /** A page has been supplied with a frame, and its slot with a table in another if it had none. */
  ghost predicate PageSupplied(d1: seq<nat>, d2: seq<nat>, page: nat, u1: seq<bool>, u2: seq<bool>) {
    && |d1| == ENTRIES && SlotOf(page) < ENTRIES && SlotAdded(d1, d2, SlotOf(page))
    && FreeSeen(u1) == FreeSeen(u2) + 1 + if Present(d1[SlotOf(page)]) then 0 else 1
  }

  /** The slots under the first i pages have got tables, each for one of the frames left. */
  ghost predicate Supplied(d0: seq<nat>, d1: seq<nat>, start: nat, i: nat, u0: seq<bool>, u1: seq<bool>) {
    && |d0| == |d1| == ENTRIES && FreeSeen(u1) + |EmptySlots(d0, start, i)| == FreeSeen(u0)
    && forall j: nat :: j < ENTRIES ==> (Present(d1[j]) <==> Present(d0[j]) || Under(j, start, i))
  }

  lemma SuppliedNone(d: seq<nat>, start: nat, u: seq<bool>)
    requires |d| == ENTRIES
    ensures Supplied(d, d, start, 0, u, u)
  {
    assert EmptySlots(d, start, 0) == {};
  }

  /** One more page needs one more table exactly if its slot is still empty. */
  lemma OneMoreSlot(d0: seq<nat>, d1: seq<nat>, start: nat, i: nat, u0: seq<bool>, u1: seq<bool>)
    requires Supplied(d0, d1, start, i, u0, u1) && SlotOf(start + i) < ENTRIES
    ensures |EmptySlots(d0, start, i + 1)| ==
      |EmptySlots(d0, start, i)| + if Present(d1[SlotOf(start + i)]) then 0 else 1
  {
    var slot, before, after := SlotOf(start + i), EmptySlots(d0, start, i), EmptySlots(d0, start, i + 1);
    forall j: nat ensures Under(j, start, i + 1) <==> Under(j, start, i) || j == slot {
      UnderStep(j, start, i);
    }
    if Present(d1[slot]) {
      assert after == before;
    } else {
      assert after == before + {slot} && slot !in before;
    }
  }

  lemma SuppliedStep(d0: seq<nat>, d1: seq<nat>, d2: seq<nat>, start: nat, i: nat, page: nat, u0: seq<bool>,
                     u1: seq<bool>, u2: seq<bool>)
    requires Supplied(d0, d1, start, i, u0, u1) && page == start + i && Provided(true, d1, d2, page, u1, u2)
    ensures Supplied(d0, d2, start, i + 1, u0, u2)
  {
    OneMoreSlot(d0, d1, start, i, u0, u1);
    forall j: nat | j < ENTRIES ensures Present(d2[j]) <==> Present(d0[j]) || Under(j, start, i + 1) {
      UnderStep(j, start, i);
    }
  }

  /** There are frames for the tables of the first i pages of the run but not for that of the next. */
  predicate StuckAt(slots: seq<nat>, start: nat, i: nat, u: seq<bool>) {
    |EmptySlots(slots, start, i)| <= FreeSeen(u) < |EmptySlots(slots, start, i + 1)|
  }

  /** A page that cannot be mapped means more empty slots under the run than frames left. */
  lemma SuppliedStuck(d0: seq<nat>, d1: seq<nat>, d2: seq<nat>, start: nat, i: nat, n: nat, page: nat, u0: seq<bool>,
                      u1: seq<bool>, u2: seq<bool>)
    requires Supplied(d0, d1, start, i, u0, u1) && i < n && page == start + i && Provided(false, d1, d2, page, u1, u2)
    ensures |EmptySlots(d0, start, n)| > FreeSeen(u0) && StuckAt(d0, start, i, u0)
  {
    OneMoreSlot(d0, d1, start, i, u0, u1);
    assert EmptySlots(d0, start, i + 1) <= EmptySlots(d0, start, n);
    SmallerSet(EmptySlots(d0, start, i + 1), EmptySlots(d0, start, n));
  }

  lemma {:induction false} SmallerSet(a: set<nat>, b: set<nat>)
    requires a <= b
    ensures |a| <= |b|
  {
    assert b == a + (b - a);
  }

  predicate LowestClear(s: seq<bool>, i: nat) {
    i < |s| && !s[i] && forall j :: 0 <= j < i ==> s[j]
  }

  /** vmm_alloc_page can have a page: an unmarked page, a frame for it, and another frame if the
      directory slot of the lowest unmarked page is empty. */
  ghost predicate PageToBeHad(pages: seq<bool>, used: seq<bool>, slots: seq<nat>) {
    exists page: nat {:trigger PageHadAt(pages, used, slots, page)} :: PageHadAt(pages, used, slots, page)
  }

  predicate PageHadAt(pages: seq<bool>, used: seq<bool>, slots: seq<nat>, page: nat) {
    LowestClear(pages, page) && SlotOf(page) < |slots| && FreeSeen(used) > if Present(slots[SlotOf(page)]) then 0 else 1
  }

  lemma PageHadIff(pages: seq<bool>, used: seq<bool>, slots: seq<nat>, page: nat)
    requires LowestClear(pages, page)
    ensures PageToBeHad(pages, used, slots) <==> PageHadAt(pages, used, slots, page)
  {
    forall k: nat ensures PageHadAt(pages, used, slots, k) ==> k == page {
    }
  }

  /** The lowest run of n pages starts at `start` and the lowest run of n frames at f, and besides
      these there is a frame for every empty directory slot under the run of pages. */
  ghost predicate HadAt(pages: seq<bool>, used: seq<bool>, slots: seq<nat>, n: nat, start: nat, f: nat) {
    && FirstRun(pages, start, n, 0, |pages|) && FirstRun(used, f, n, 0, |used|)
    && |EmptySlots(slots, start, n)| <= FreeSeen(Marked(used, f, n, true))
  }

  /** vmm_alloc_contiguous can have n pages. */
  ghost predicate RunToBeHad(pages: seq<bool>, used: seq<bool>, slots: seq<nat>, n: nat) {
    0 < n && exists start: nat, f: nat {:trigger HadAt(pages, used, slots, n, start, f)} ::
      HadAt(pages, used, slots, n, start, f)
  }

  lemma RunHadIff(pages: seq<bool>, used: seq<bool>, slots: seq<nat>, n: nat, start: nat, f: nat)
    requires 0 < n && FirstRun(pages, start, n, 0, |pages|) && FirstRun(used, f, n, 0, |used|)
    ensures RunToBeHad(pages, used, slots, n) <==> |EmptySlots(slots, start, n)| <= FreeSeen(Marked(used, f, n, true))
  {
    assert HadAt(pages, used, slots, n, start, f) <==>
      |EmptySlots(slots, start, n)| <= FreeSeen(Marked(used, f, n, true));
    forall s: nat, g: nat ensures HadAt(pages, used, slots, n, s, g) ==> s == start && g == f {
    }
  }

  lemma NoRunNotHad(pages: seq<bool>, used: seq<bool>, slots: seq<nat>, n: nat)
    ensures n == 0 || NoRun(pages, n, 0, |pages|) || NoRun(used, n, 0, |used|) ==> !RunToBeHad(pages, used, slots, n)
  {
  }

  /** The n pages from start on. */
  function PageSet(start: nat, n: nat): (s: set<nat>)
    ensures forall k :: k in s <==> start <= k < start + n
  {
    if n == 0 then {} else PageSet(start, n - 1) + {start + n - 1}
  }

  /** Pages start, start + 1, ... on frames f, f + 1, ... */
  function RunOf(start: nat, n: nat, f: nat): (m: map<nat, nat>)
    ensures m.Keys == PageSet(start, n)
    ensures forall k :: k in m ==> m[k] == f + (k - start)
  {
    if n == 0 then map[] else RunOf(start, n - 1, f)[start + n - 1 := f + n - 1]
  }

  lemma RunOfStep(live: map<nat, nat>, start: nat, n: nat, f: nat)
    ensures live - PageSet(start, 0) == live && live + RunOf(start, 0, f) == live
    ensures live - PageSet(start, n + 1) == live - PageSet(start, n) - {start + n}
    ensures live + RunOf(start, n + 1, f) == (live + RunOf(start, n, f))[start + n := f + n]
  {
  }

  /** Frame g is in use, but neither for a live page nor for a table. */
  ghost predicate Spare(live: map<nat, nat>, used: seq<bool>, ram: Ram, g: nat) {
    g < |used| && used[g] && g !in live.Values && g !in ram
  }

  /** The frames of [from, to) are spare. */
  ghost predicate SpareRun(live: map<nat, nat>, used: seq<bool>, ram: Ram, from: nat, to: nat) {
    forall g: nat {:trigger Spare(live, used, ram, g)} :: from <= g < to ==> Spare(live, used, ram, g)
  }

  /** Binding a page to frame f leaves the spare frames behind it spare. */
  lemma StillSpare(live: map<nat, nat>, u0: seq<bool>, u1: seq<bool>, r0: Ram, r1: Ram, page: nat, f: nat, to: nat)
    requires SpareRun(live, u0, r0, f, to) && TablesGrew(r0.Keys, u0, r1.Keys, u1)
    ensures SpareRun(live[page := f], u1, r1, f + 1, to)
  {
    var l := live[page := f];
    forall g: nat | f + 1 <= g < to ensures Spare(l, u1, r1, g) {
      assert Spare(live, u0, r0, g);
      TakenNoTable(u0, u1, r0, r1, g);
    }
  }

  /** What the table of live pages says about page k while a run of n pages is being bound. */
  ghost predicate ExtendedAt(live0: map<nat, nat>, start: nat, n: nat, i: nat, f: nat, live: map<nat, nat>, k: nat) {
    && (start <= k < start + n ==> k !in live0)
    && (k in live <==> k in live0 || start <= k < start + i)
    && (k in live ==> live[k] == if start <= k < start + i then f + (k - start) else live0[k])
  }

  /** The first i of n pages from `start` on, none of which was live, are live on the frames from f on. */
  ghost predicate Extended(live0: map<nat, nat>, start: nat, n: nat, i: nat, f: nat, live: map<nat, nat>) {
    forall k: nat {:trigger ExtendedAt(live0, start, n, i, f, live, k)} :: ExtendedAt(live0, start, n, i, f, live, k)
  }

  lemma ExtendedStart(live: map<nat, nat>, start: nat, n: nat, f: nat)
    requires forall k: nat :: start <= k < start + n ==> k !in live
    ensures Extended(live, start, n, 0, f, live)
  {
    forall k: nat ensures ExtendedAt(live, start, n, 0, f, live, k) {
    }
  }

  lemma ExtendedStep(live0: map<nat, nat>, start: nat, n: nat, i: nat, f: nat, live: map<nat, nat>)
    requires Extended(live0, start, n, i, f, live) && i < n
    ensures start + i !in live && Extended(live0, start, n, i + 1, f, live[start + i := f + i])
  {
    var l, next := live[start + i := f + i], i + 1;
    forall k: nat ensures ExtendedAt(live0, start, n, next, f, l, k) {
      assert ExtendedAt(live0, start, n, i, f, live, k);
    }
    assert ExtendedAt(live0, start, n, i, f, live, start + i);
  }

  lemma ExtendedIsRun(live0: map<nat, nat>, start: nat, n: nat, i: nat, f: nat, live: map<nat, nat>)
    requires Extended(live0, start, n, i, f, live) && i <= n
    ensures live == live0 + RunOf(start, i, f) && live - PageSet(start, i) == live0
  {
    var keys, all, rest := live0.Keys + PageSet(start, i), live0 + RunOf(start, i, f), live - PageSet(start, i);
    forall k: nat | k in keys ensures k in live {
      assert ExtendedAt(live0, start, n, i, f, live, k);
    }
    forall k: nat | k in live ensures k in keys && live[k] == all[k] {
      assert ExtendedAt(live0, start, n, i, f, live, k);
    }
    forall k: nat | k in live0 ensures k in rest {
      assert ExtendedAt(live0, start, n, i, f, live, k);
    }
  }

  lemma ExtendedLive(live0: map<nat, nat>, start: nat, n: nat, i: nat, f: nat, live: map<nat, nat>)
    requires Extended(live0, start, n, i, f, live)
    ensures forall k: nat :: start <= k < start + i ==> k in live && live[k] == f + (k - start)
  {
    forall k: nat | start <= k < start + i ensures k in live && live[k] == f + (k - start) {
      assert ExtendedAt(live0, start, n, i, f, live, k);
    }
  }

  /** The first i pages of a run are bound to the first i of its frames, tables apart nothing
      else has changed hands, and the other frames of the run are spare. */
  ghost predicate BoundRun(dir: nat, start: nat, n: nat, i: nat, f: nat, live0: map<nat, nat>, u0: seq<bool>,
                           r0: Ram, live: map<nat, nat>, u: seq<bool>, ram: Ram)
    requires Shaped(ram, dir)
  {
    && Shaped(r0, dir) && i <= n && Extended(live0, start, n, i, f, live)
    && TablesGrew(r0.Keys, Marked(u0, f, n, true), ram.Keys, u)
    && KernelKept(r0, ram, dir, start, i)
    && SpareRun(live, u, ram, f + i, f + n)
  }

  /** The next page is not live yet and its frame is spare. */
  lemma BoundRunNext(dir: nat, start: nat, n: nat, i: nat, f: nat, live0: map<nat, nat>, u0: seq<bool>, r0: Ram,
                     live: map<nat, nat>, u: seq<bool>, ram: Ram)
    requires Shaped(ram, dir) && BoundRun(dir, start, n, i, f, live0, u0, r0, live, u, ram) && i < n
    ensures start + i !in live && Spare(live, u, ram, f + i)
  {
    ExtendedStep(live0, start, n, i, f, live);
  }

  lemma BoundRunStep(dir: nat, start: nat, n: nat, i: nat, f: nat, live0: map<nat, nat>, u0: seq<bool>, r0: Ram,
                     l1: map<nat, nat>, u1: seq<bool>, r1: Ram, u2: seq<bool>, r2: Ram, page: nat, frame: nat)
    requires page == start + i && frame == f + i
    requires Shaped(r1, dir) && Shaped(r2, dir) && i < n && BoundRun(dir, start, n, i, f, live0, u0, r0, l1, u1, r1)
    requires TablesGrew(r1.Keys, u1, r2.Keys, u2) && KernelKept(r1, r2, dir, page, 1)
    ensures BoundRun(dir, start, n, i + 1, f, live0, u0, r0, l1[page := frame], u2, r2)
  {
    ExtendedStep(live0, start, n, i, f, l1);
    TablesGrewTwice(r0.Keys, Marked(u0, f, n, true), r1.Keys, u1, r2.Keys, u2);
    KernelKeptStep(r0, r1, r2, dir, start, i);
    StillSpare(l1, u1, u2, r1, r2, start + i, f + i, f + n);
  }

  /** Nothing bound yet: the pages and frames of the run have just been taken. */
  lemma BoundRunStart(dir: nat, start: nat, n: nat, f: nat, live: map<nat, nat>, u0: seq<bool>, ram: Ram)
    requires Shaped(ram, dir) && (forall k: nat :: start <= k < start + n ==> k !in live)
    requires SpareRun(live, Marked(u0, f, n, true), ram, f, f + n)
    ensures BoundRun(dir, start, n, 0, f, live, u0, ram, live, Marked(u0, f, n, true), ram)
  {
    ExtendedStart(live, start, n, f);
    NoTableGrew(ram.Keys, Marked(u0, f, n, true));
    forall j: nat | j < KERNEL_PAGES ensures AddrOf(j) < WORD && KeptAt(ram, ram, dir, j) {
    }
  }

  /** Frames taken and freed again leave behind only the tables that were made in between. */
  lemma GrewOnly(k0: set<nat>, u0: seq<bool>, k1: set<nat>, u1: seq<bool>, f: nat, n: nat)
    requires ClearRun(u0, f, n) && TablesGrew(k0, Marked(u0, f, n, true), k1, u1)
    requires forall g: nat :: f <= g < f + n ==> g !in k1
    ensures TablesGrew(k0, u0, k1, Marked(u1, f, n, false))
  {
    var taken, back := Marked(u0, f, n, true), Marked(u1, f, n, false);
    forall i: nat | i < |u0| ensures GrewAt(k0, u0, k1, back, i) {
      assert GrewAt(k0, taken, k1, u1, i);
    }
  }

  /** The frames in use afterwards are as many more as there are new tables. */
  lemma {:induction false} CountGrew(k0: set<nat>, u0: seq<bool>, k1: set<nat>, u1: seq<bool>)
    requires TablesGrew(k0, u0, k1, u1) && forall k <- k1 :: k < |u1|
    ensures Count(u1) == Count(u0) + |k1 - k0|
  {
    forall i: nat | i < |u0| ensures u1[i] == (u0[i] || i in k1 - k0) && (i in k1 - k0 ==> !u0[i]) {
      assert GrewAt(k0, u0, k1, u1, i);
    }
    CountGrewSet(k1 - k0, u0, u1);
  }

  lemma {:induction false} CountGrewSet(added: set<nat>, u0: seq<bool>, u1: seq<bool>)
    requires |u0| == |u1| && forall k <- added :: k < |u0| && !u0[k]
    requires forall i: nat :: i < |u0| ==> u1[i] == (u0[i] || i in added)
    ensures Count(u1) == Count(u0) + |added|
    decreases |added|
  {
    if added == {} {
      assert u0 == u1;
    } else {
      var k :| k in added;
      CountUpdate(u0, k, true);
      CountGrewSet(added - {k}, u0[k := true], u1);
    }
  }

  lemma MarksKept(pages: seq<bool>, more: seq<bool>, used: seq<bool>, taken: seq<bool>, ram: Ram, dir: nat,
                  live: map<nat, nat>)
    requires Shaped(ram, dir) && AllBacked(pages, used, ram, dir, live) && |pages| == |more| && |used| == |taken|
    requires forall i: nat :: i < |pages| && pages[i] && i in live ==> more[i]
    requires forall i: nat :: i < |used| && used[i] ==> taken[i]
    ensures AllBacked(more, taken, ram, dir, live)
  {
    forall i | i in live ensures Backed(more, taken, ram, dir, i, live[i]) {
      assert Backed(pages, used, ram, dir, i, live[i]);
    }
  }

  lemma ClearNotLive(pages: seq<bool>, used: seq<bool>, ram: Ram, dir: nat, live: map<nat, nat>, start: nat, n: nat)
    requires Shaped(ram, dir) && AllBacked(pages, used, ram, dir, live) && ClearRun(pages, start, n)
    ensures forall i: nat :: start <= i < start + n ==> i !in live
  {
    forall i | i in live ensures !(start <= i < start + n) {
      assert Backed(pages, used, ram, dir, i, live[i]);
    }
  }

  /** Frames that were free are spare once taken. */
  lemma TakenRunSpare(pages: seq<bool>, used: seq<bool>, ram: Ram, dir: nat, live: map<nat, nat>, f: nat, n: nat)
    requires Shaped(ram, dir) && AllBacked(pages, used, ram, dir, live) && ClearRun(used, f, n)
    requires forall a <- ram :: a < |used| && used[a]
    ensures SpareRun(live, Marked(used, f, n, true), ram, f, f + n)
  {
    var u := Marked(used, f, n, true);
    forall g: nat | f <= g < f + n ensures Spare(live, u, ram, g) {
      forall i | i in live ensures live[i] != g {
        assert Backed(pages, used, ram, dir, i, live[i]);
      }
    }
  }

  lemma KernelKeptTwice(r0: Ram, r1: Ram, r2: Ram, dir: nat, start: nat, n: nat)
    requires Shaped(r0, dir) && Shaped(r1, dir) && Shaped(r2, dir)
    requires KernelKept(r0, r1, dir, start, n) && KernelKept(r1, r2, dir, start, n)
    ensures KernelKept(r0, r2, dir, start, n)
  {
    forall j: nat | j < KERNEL_PAGES && !(start <= j < start + n)
      ensures AddrOf(j) < WORD && KeptAt(r0, r2, dir, j)
    {
      assert KeptAt(r0, r1, dir, j) && KeptAt(r1, r2, dir, j);
    }
  }

  /** What vmm_alloc_contiguous leaves behind when the i-th page could not be mapped: the
      first i pages and frames have come free again, the others stay taken. */
  ghost predicate HalfUndone(dir: nat, start: nat, n: nat, i: nat, f: nat, p0: seq<bool>, u0: seq<bool>, r0: Ram,
                             pages: seq<bool>, u: seq<bool>, ram: Ram)
    requires Shaped(r0, dir) && Shaped(ram, dir) && start + i <= KERNEL_PAGES
  {
    && pages == Marked(Marked(p0, start, n, true), start, i, false)
    && (exists u1 :: TablesGrew(r0.Keys, Marked(u0, f, n, true), ram.Keys, u1) && u == Marked(u1, f, i, false))
    && Cleared(r0, ram, dir, start, i)
  }

  lemma UndoneSoFar(dir: nat, start: nat, n: nat, i: nat, f: nat, p0: seq<bool>, u0: seq<bool>, r0: Ram,
                    live0: map<nat, nat>, u1: seq<bool>, r1: Ram, l1: map<nat, nat>, pages: seq<bool>, u: seq<bool>,
                    ram: Ram)
    requires Shaped(r1, dir) && Shaped(ram, dir) && start + n <= KERNEL_PAGES && ram.Keys == r1.Keys
    requires BoundRun(dir, start, n, i, f, live0, u0, r0, l1, u1, r1)
    requires pages == Marked(Marked(p0, start, n, true), start, i, false) && u == Marked(u1, f, i, false)
    requires Cleared(r1, ram, dir, start, i)
    ensures HalfUndone(dir, start, n, i, f, p0, u0, r0, pages, u, ram) && l1 - PageSet(start, i) == live0
  {
    ExtendedIsRun(live0, start, n, i, f, l1);
    KernelKeptTwice(r0, r1, ram, dir, start, i);
  }

  /** Binding a whole free run and releasing it again leaves only new tables behind. */
  lemma RunGone(dir: nat, start: nat, n: nat, f: nat, live0: map<nat, nat>, p0: seq<bool>, u0: seq<bool>, r0: Ram,
                l1: map<nat, nat>, u1: seq<bool>, r1: Ram, ram: Ram)
    requires Shaped(r1, dir) && Shaped(ram, dir) && start + n <= KERNEL_PAGES && ram.Keys == r1.Keys
    requires BoundRun(dir, start, n, n, f, live0, u0, r0, l1, u1, r1) && ClearRun(u0, f, n) && ClearRun(p0, start, n)
    requires (forall g: nat :: f <= g < f + n ==> g !in r1) && Cleared(r1, ram, dir, start, n)
    ensures l1 - PageSet(start, n) == live0 && Marked(Marked(p0, start, n, true), start, n, false) == p0
    ensures TablesGrew(r0.Keys, u0, ram.Keys, Marked(u1, f, n, false)) && Cleared(r0, ram, dir, start, n)
  {
    ExtendedIsRun(live0, start, n, n, f, l1);
    MarkedBack(p0, start, n);
    GrewOnly(r0.Keys, u0, r1.Keys, u1, f, n);
    KernelKeptTwice(r0, r1, ram, dir, start, n);
  }

  class PageAllocator {
    const frames: FrameAllocator
    const paging: PageTables
    const bitmap: array<bv8>   // vmm_bitmap
    const maxPages: nat
    ghost var live: map<nat, nat>  // pages handed out and not given back, with their frames

    /** Which virtual pages are marked. */
    ghost function Pages(): (s: seq<bool>)
      requires maxPages <= 8 * bitmap.Length
      reads bitmap
      ensures |s| == maxPages
    {
      Flags(bitmap[..], maxPages)
    }

    /** The parts fit together. */
    ghost predicate Wired()
      reads paging, frames, frames.bitmap
    {
      && paging.frames == frames && paging.Valid() && bitmap != frames.bitmap
      && maxPages <= 8 * bitmap.Length && maxPages <= KERNEL_PAGES
    }

    /** Both bitmaps agree with the translation on every live page, and no two live pages
        have the same frame. */
    ghost predicate Valid()
      reads this, paging, frames, frames.bitmap, bitmap
    {
      && Wired()
      && AllBacked(Pages(), frames.Used(), paging.ram, paging.dir, live)
      && FramesApart(live)
    }

    constructor (paging: PageTables, maxPages: nat)
      requires paging.Valid() && maxPages <= KERNEL_PAGES
      ensures Valid() && live == map[] && this.paging == paging && frames == paging.frames
      ensures fresh(bitmap) && Pages() == seq(maxPages, _ => false)
    {
      this.paging, frames, this.maxPages := paging, paging.frames, maxPages;
      bitmap := new bv8[(maxPages + 7) / 8](_ => 0);
      live := map[];
    }

    // ---- the page bitmap ----

    method FindFreePage() returns (page: int)
      requires maxPages <= 8 * bitmap.Length
      ensures page < 0 ==> page == -1 && forall i :: 0 <= i < maxPages ==> Pages()[i]
      ensures page >= 0 ==> page < maxPages && !Pages()[page] && forall i :: 0 <= i < page ==> Pages()[i]
    {
      var i := 0;
      while i < maxPages
        invariant i <= maxPages && forall j :: 0 <= j < i ==> Pages()[j]
      {
        var used := TestBit(bitmap, i, maxPages);
        if !used {
          return i;
        }
        i := i + 1;
      }
      return -1;
    }

    method FindContiguousFreePages(n: nat) returns (start: int)
      requires maxPages <= 8 * bitmap.Length && 0 < n
      ensures start < 0 ==> start == -1 && NoRun(Pages(), n, 0, maxPages)
      ensures start >= 0 ==> FirstRun(Pages(), start, n, 0, maxPages)
    {
      var i := 0;
      while i < maxPages
        invariant i <= maxPages
        invariant forall s: nat :: s < i ==> !RunAt(Pages(), s, n, 0, maxPages)
      {
        var taken := TestBit(bitmap, i, maxPages);
        if !taken {
          var j := 0;
          while j < n
            invariant j <= n && ClearRun(Pages(), i, j)
          {
            if i + j >= maxPages {
              break;
            }
            var used := TestBit(bitmap, i + j, maxPages);
            if used {
              break;
            }
            j := j + 1;
          }
          if j == n {
            return i;
          }
        }
        i := i + 1;
      }
      return -1;
    }

    method MarkPages(start: nat, n: nat, used: bool)
      requires Wired() && start + n <= maxPages
      modifies bitmap
      ensures Pages() == Marked(old(Pages()), start, n, used)
    {
      MarkedStep(Pages(), start, 0, used);
      var i := 0;
      while i < n
        invariant i <= n && Pages() == Marked(old(Pages()), start, i, used)
      {
        MarkedStep(old(Pages()), start, i, used);
        if used {
          SetBit(bitmap, start + i, maxPages);
        } else {
          ClearBit(bitmap, start + i, maxPages);
        }
        i := i + 1;
      }
    }

    // ---- binding and releasing one page ----

    /** Maps a marked page to a frame taken for it. */
    method Bind(page: nat, frame: nat) returns (ok: bool)
      requires Valid() && page < maxPages && Pages()[page] && page !in live
      requires 0 < frame < frames.maxBlocks && frames.Used()[frame] && frame !in live.Values && frame !in paging.ram
      modifies `live, paging`ram, frames`usedBlocks, frames.bitmap
      ensures Valid() && AddrOf(page) < WORD
      ensures TablesGrew(old(paging.ram.Keys), old(frames.Used()), paging.ram.Keys, frames.Used())
      ensures if ok
        then live == old(live)[page := frame]
          && Retranslated(old(paging.ram), paging.ram, paging.dir, AddrOf(page), Entry(frame * BLOCK, MAP_FLAGS))
        else live == old(live) && paging.ram == old(paging.ram) && frames.Used() == old(frames.Used())
      ensures Provided(ok, old(paging.ram[paging.dir]), paging.ram[paging.dir], page, old(frames.Used()), frames.Used())
    {
      ok := MapFor(page, frame);
      if ok {
        BoundPages(Pages(), old(frames.Used()), frames.Used(), old(paging.ram), paging.ram, paging.dir, live, page,
          frame);
        FramesStillApart(live, page, frame);
        live := live[page := frame];
      }
    }

    /** The table entry for the page, and a table if need be. */
    method MapFor(page: nat, frame: nat) returns (ok: bool)
      requires Wired() && page < maxPages && frame < frames.maxBlocks
      modifies paging`ram, frames`usedBlocks, frames.bitmap
      ensures Wired() && AddrOf(page) < WORD
      ensures TablesGrew(old(paging.ram.Keys), old(frames.Used()), paging.ram.Keys, frames.Used())
      ensures Provided(ok, old(paging.ram[paging.dir]), paging.ram[paging.dir], page, old(frames.Used()), frames.Used())
      ensures if ok
        then SameEntry(paging.ram, paging.dir, AddrOf(page), AddrOf(page))
          && Retranslated(old(paging.ram), paging.ram, paging.dir, AddrOf(page), Entry(frame * BLOCK, MAP_FLAGS))
        else paging.ram == old(paging.ram) && frames.Used() == old(frames.Used())
    {
      SlotInside(page);
      ok := paging.MapPage(frame * BLOCK, AddrOf(page), MAP_FLAGS);
    }

    /** The page's translation goes and its frame comes free. */
    method Detach(v: nat, phys: nat, ghost f: nat)
      requires Wired() && v < WORD && phys == f * BLOCK && 0 < f < frames.maxBlocks && f !in paging.ram
      modifies paging`ram, frames`usedBlocks, frames.bitmap
      ensures Wired() && frames.Used() == old(frames.Used())[f := false]
      ensures paging.ram.Keys == old(paging.ram.Keys) && Retranslated(old(paging.ram), paging.ram, paging.dir, v, 0)
    {
      ghost var u0 := frames.Used();
      paging.UnmapPage(v);
      OneFrame(u0, f);
      frames.MarkUnusedRegion(phys, BLOCK);
    }

    method ReleaseFrame(page: nat, phys: nat)
      requires Valid() && page in live && phys == live[page] * BLOCK && AddrOf(page) < WORD && page < maxPages
      requires 0 < live[page] < frames.maxBlocks && live[page] !in paging.ram
      modifies `live, bitmap, paging`ram, frames`usedBlocks, frames.bitmap
      ensures Valid() && live == old(live) - {page}
      ensures Pages() == old(Pages())[page := false] && frames.Used() == old(frames.Used()[live[page] := false])
      ensures paging.ram.Keys == old(paging.ram.Keys)
        && Retranslated(old(paging.ram), paging.ram, paging.dir, AddrOf(page), 0)
    {
      FramesStillApart(live, page, live[page]);
      Detach(AddrOf(page), phys, live[page]);
      UnmappedPages(Pages(), old(frames.Used()), old(paging.ram), paging.ram, paging.dir, live, page);
      FreedFrame(Pages()[page := false], old(frames.Used()), paging.ram, paging.dir, live - {page}, live[page]);
      Unmark(page);
    }

    method Unmark(page: nat)
      requires Wired() && page < maxPages
      requires AllBacked(Pages()[page := false], frames.Used(), paging.ram, paging.dir, live - {page})
      requires FramesApart(live)
      modifies `live, bitmap
      ensures Valid() && live == old(live) - {page} && Pages() == old(Pages())[page := false]
    {
      FramesStillApart(live, page, 0);
      ClearBit(bitmap, page, maxPages);
      live := live - {page};
    }

    // ---- single pages ----

    method Mark(page: nat)
      requires Valid() && page < maxPages
      modifies bitmap
      ensures Valid() && Pages() == old(Pages())[page := true]
    {
      SetBit(bitmap, page, maxPages);
      forall i | i in live ensures Backed(Pages(), frames.Used(), paging.ram, paging.dir, i, live[i]) {
        assert old(Backed(Pages(), frames.Used(), paging.ram, paging.dir, i, live[i]));
      }
    }

    /** A frame for a page: the lowest one the frame allocator finds. */
    method TakeFrame() returns (p: nat)
      requires Valid()
      modifies frames`usedBlocks, frames.bitmap
      ensures Valid()
      ensures p == NULL <==> FreeSeen(old(frames.Used())) == 0
      ensures p != NULL ==> FreeSeen(frames.Used()) == FreeSeen(old(frames.Used())) - 1
      ensures p == NULL ==> frames.Used() == old(frames.Used())
      ensures p != NULL ==>
        p == p / BLOCK * BLOCK && old(frames.LowestSeen(p / BLOCK))
          && frames.Used() == old(frames.Used())[p / BLOCK := true]
      ensures p != NULL ==> 0 < p / BLOCK < frames.maxBlocks && p / BLOCK !in live.Values && p / BLOCK !in paging.ram
    {
      p := frames.AllocBlock();
      forall i | i in live
        ensures Backed(Pages(), frames.Used(), paging.ram, paging.dir, i, live[i])
        ensures p != NULL ==> live[i] != p / BLOCK
      {
        assert old(Backed(Pages(), frames.Used(), paging.ram, paging.dir, i, live[i]));
      }
    }

    /** The page is live on the lowest free frame; tables apart, nothing else changed hands. */
    twostate predicate Taken(page: nat)
      requires old(Wired()) && Wired() && AddrOf(page) < WORD && paging.dir == old(paging.dir)
      reads `live, paging, frames.bitmap, frames, bitmap
    {
      && page in live && live == old(live)[page := live[page]] && live[page] < |old(frames.Used())|
      && (var f := live[page];
        && old(frames.LowestSeen(f))
        && TablesGrew(old(paging.ram.Keys), old(frames.Used())[f := true], paging.ram.Keys, frames.Used())
        && Retranslated(old(paging.ram), paging.ram, paging.dir, AddrOf(page), Entry(f * BLOCK, MAP_FLAGS)))
    }

    /** Nothing changed hands, except that one frame may have gone into use for good. */
    twostate predicate NothingTaken()
      requires old(Wired()) && Wired()
      reads `live, paging, frames.bitmap, frames, bitmap
    {
      && live == old(live) && paging.ram == old(paging.ram)
      && (frames.Used() == old(frames.Used())
        || exists f: nat ::
          f < |old(frames.Used())| && old(frames.LowestSeen(f)) && frames.Used() == old(frames.Used())[f := true])
    }

    method UnmarkIdle(page: nat)
      requires Valid() && page < maxPages && page !in live
      modifies bitmap
      ensures Valid() && Pages() == old(Pages())[page := false]
    {
      ClearBit(bitmap, page, maxPages);
      forall i | i in live ensures Backed(Pages(), frames.Used(), paging.ram, paging.dir, i, live[i]) {
        assert old(Backed(Pages(), frames.Used(), paging.ram, paging.dir, i, live[i]));
      }
    }

    /** Second part of vmm_alloc_page: a frame and a translation for the marked page. */
    method Back(page: nat) returns (ok: bool)
      requires Valid() && page < maxPages && Pages()[page] && page !in live
      modifies `live, bitmap, paging`ram, frames`usedBlocks, frames.bitmap
      ensures Valid() && AddrOf(page) < WORD
      ensures SlotOf(page) < ENTRIES
      ensures ok <==> FreeSeen(old(frames.Used())) > if Present(old(paging.ram[paging.dir])[SlotOf(page)]) then 0 else 1
      ensures !ok ==> (frames.Used() == old(frames.Used()) <==> FreeSeen(old(frames.Used())) == 0)
      ensures ok ==>
        PageSupplied(old(paging.ram[paging.dir]), paging.ram[paging.dir], page, old(frames.Used()), frames.Used())
      ensures if ok then Taken(page) && Pages() == old(Pages())
        else NothingTaken() && Pages() == old(Pages())[page := false]
    {
      SlotInside(page);
      var p := TakeFrame();
      if p == NULL {
        UnmarkIdle(page);
        return false;
      }
      ok := Bind(page, p / BLOCK);
      if !ok {
        frames.FreeBlock(p);
        UnmarkIdle(page);
      }
    }

    /** vmm_alloc_page: the lowest unmarked page on the lowest free frame. When no table can
        be had for it the page is unmarked again but the frame stays in use, because
        pmm_free_block does nothing. */
    method AllocPage() returns (v: nat)
      requires Valid()
      modifies `live, bitmap, paging`ram, frames`usedBlocks, frames.bitmap
      ensures Valid() && (v != NULL <==> PageToBeHad(old(Pages()), old(frames.Used()), old(paging.ram[paging.dir])))
      ensures v == NULL ==> NothingTaken() && Pages() == old(Pages())
      ensures v == NULL ==>
        (frames.Used() == old(frames.Used()) <==>
          SetRun(old(Pages()), 0, maxPages) || FreeSeen(old(frames.Used())) == 0)
      ensures v != NULL ==>
        exists page: nat ::
          && page < maxPages && v == AddrOf(page) < WORD && LowestClear(old(Pages()), page) && Taken(page)
          && Pages() == old(Pages())[page := true]
          && PageSupplied(old(paging.ram[paging.dir]), paging.ram[paging.dir], page, old(frames.Used()), frames.Used())
    {
      var page := FindFreePage();
      if page < 0 {
        return NULL;
      }
      PageHadIff(Pages(), frames.Used(), paging.ram[paging.dir], page);
      Mark(page);
      var ok := Back(page);
      v := if ok then AddrOf(page) else NULL;
    }

    /** v is the address of a page of ours that is translated. */
    ghost predicate Freeable(v: nat)
      requires Wired() && v < WORD
      reads paging, frames, frames.bitmap, bitmap
    {
      v != NULL && Aligned(v) && KERNEL_BASE <= v && PageAt(v) < maxPages && paging.At(v) != None
    }

    /** vmm_free_page: the page is unmapped and unmarked, but its frame never comes free. */
    method FreePage(v: nat)
      requires Valid() && v < WORD
      modifies `live, bitmap, paging`ram
      ensures Valid() && frames.Used() == old(frames.Used())
      ensures !old(Freeable(v)) ==> live == old(live) && Pages() == old(Pages()) && paging.ram == old(paging.ram)
      ensures old(Freeable(v)) ==>
        && live == old(live) - {PageAt(v)} && Pages() == old(Pages())[PageAt(v) := false]
        && Retranslated(old(paging.ram), paging.ram, paging.dir, v, 0)
    {
      if v == NULL || v % BLOCK != 0 || v < KERNEL_BASE {
        return;
      }
      var page := PageAt(v);
      PageAddress(v);
      if page >= maxPages {
        return;
      }
      var phys := paging.VirtToPhys(v);
      FrameNotNone(paging.ram, paging.dir, v);
      if phys == WORD - 1 {
        return;
      }
      frames.FreeBlock(phys);
      paging.UnmapPage(v);
      UnmappedPages(Pages(), frames.Used(), old(paging.ram), paging.ram, paging.dir, live, page);
      Unmark(page);
    }

    // ---- runs of pages ----

    /** The pages of the run are live on consecutive frames from f on. */
    ghost predicate LiveRun(start: nat, n: nat, f: nat)
      reads `live
    {
      forall k: nat :: start <= k < start + n ==> k in live && live[k] == f + (k - start)
    }

    /** State of the loop of vmm_free_contiguous after i rounds, the run starting at page
        `start` on frame f; the rest of the arguments is the state before the loop. */
    ghost predicate Releasing(start: nat, i: nat, f: nat, live0: map<nat, nat>, pages0: seq<bool>, used0: seq<bool>,
                              ram0: Ram)
      reads this, paging, frames, frames.bitmap, bitmap
    {
      && Valid() && Shaped(ram0, paging.dir) && start + i <= maxPages && live == live0 - PageSet(start, i)
      && Pages() == Marked(pages0, start, i, false)
      && frames.Used() == Marked(used0, f, i, false)
      && paging.ram.Keys == ram0.Keys && Cleared(ram0, paging.ram, paging.dir, start, i)
    }

    lemma NothingReleased(start: nat, f: nat)
      requires Valid() && start <= maxPages
      ensures Releasing(start, 0, f, live, Pages(), frames.Used(), paging.ram)
    {
      MarkedStep(Pages(), start, 0, false);
      MarkedStep(frames.Used(), f, 0, false);
      RunOfStep(live, start, 0, 0);
    }

    method ReleaseStep(start: nat, i: nat, phys: nat, ghost f: nat, ghost live0: map<nat, nat>,
                       ghost pages0: seq<bool>, ghost used0: seq<bool>, ghost ram0: Ram)
      requires Releasing(start, i, f, live0, pages0, used0, ram0) && phys == f * BLOCK
      requires start + i < maxPages && start + i in live0 && live0[start + i] == f + i
      modifies `live, bitmap, paging`ram, frames`usedBlocks, frames.bitmap
      ensures Releasing(start, i + 1, f, live0, pages0, used0, ram0)
    {
      ghost var r1 := paging.ram;
      ReleaseKernel(start + i, phys + i * BLOCK);
      ClearedStep(ram0, r1, paging.ram, paging.dir, start, i);
      MarkedStep(pages0, start, i, false);
      MarkedStep(used0, f, i, false);
      RunOfStep(live0, start, i, 0);
    }

    /** The loop of vmm_free_contiguous. */
    method ReleaseRun(start: nat, n: nat, phys: nat, ghost f: nat)
      requires Valid() && start + n <= maxPages && phys == f * BLOCK && LiveRun(start, n, f)
      modifies `live, bitmap, paging`ram, frames`usedBlocks, frames.bitmap
      ensures Releasing(start, n, f, old(live), old(Pages()), old(frames.Used()), old(paging.ram))
    {
      ghost var live0, pages0, used0, ram0 := live, Pages(), frames.Used(), paging.ram;
      NothingReleased(start, f);
      var i := 0;
      while i < n
        invariant i <= n && Releasing(start, i, f, live0, pages0, used0, ram0)
      {
        ReleaseStep(start, i, phys, f, live0, pages0, used0, ram0);
        i := i + 1;
      }
    }

    method ReleaseKernel(page: nat, phys: nat)
      requires Valid() && page in live && phys == live[page] * BLOCK
      modifies `live, bitmap, paging`ram, frames`usedBlocks, frames.bitmap
      ensures Valid() && live == old(live) - {page} && page < maxPages && old(live[page]) < frames.maxBlocks
      ensures Pages() == old(Pages())[page := false] && frames.Used() == old(frames.Used())[old(live[page]) := false]
      ensures paging.ram.Keys == old(paging.ram.Keys) && Cleared(old(paging.ram), paging.ram, paging.dir, page, 1)
    {
      assert Backed(Pages(), frames.Used(), paging.ram, paging.dir, page, live[page]);
      ReleaseFrame(page, phys);
      LostKernel(old(paging.ram), paging.ram, paging.dir, page);
    }

    /** vmm_free_contiguous on a run of live pages with consecutive frames: pages and frames
        come free and the pages lose their translations. */
    method FreeContiguous(v: nat, n: nat, ghost start: nat, ghost f: nat)
      requires Valid() && v < WORD && start + n <= maxPages
      requires v == NULL || n == 0 || (v == AddrOf(start) && LiveRun(start, n, f))
      modifies `live, bitmap, paging`ram, frames`usedBlocks, frames.bitmap
      ensures v == NULL || n == 0 ==>
        Valid() && live == old(live) && Pages() == old(Pages()) && frames.Used() == old(frames.Used())
          && paging.ram == old(paging.ram)
      ensures v != NULL ==> Releasing(start, n, f, old(live), old(Pages()), old(frames.Used()), old(paging.ram))
    {
      NothingReleased(start, f);
      if v == NULL || n == 0 {
        return;
      }
      assert start in live && live[start] == f;
      assert Backed(Pages(), frames.Used(), paging.ram, paging.dir, start, live[start]);
      var phys := paging.VirtToPhys(v);
      FrameBelow(f, frames.maxBlocks);
      if phys == WORD - 1 {
        return;
      }
      frames.FreeBlocks(phys, n);
      PageIndex(start);
      ReleaseRun(PageAt(v), n, phys, f);
    }

    // ---- allocation of runs ----

    /** Binds a page to a spare frame. */
    method BindSpare(page: nat, frame: nat) returns (ok: bool)
      requires Valid() && page < maxPages && Pages()[page] && page !in live && 0 < frame
        && Spare(live, frames.Used(), paging.ram, frame)
      modifies `live, paging`ram, frames`usedBlocks, frames.bitmap
      ensures Valid() && TablesGrew(old(paging.ram.Keys), old(frames.Used()), paging.ram.Keys, frames.Used())
      ensures if ok
        then live == old(live)[page := frame] && KernelKept(old(paging.ram), paging.ram, paging.dir, page, 1)
        else live == old(live) && frames.Used() == old(frames.Used()) && paging.ram == old(paging.ram)
      ensures Provided(ok, old(paging.ram[paging.dir]), paging.ram[paging.dir], page, old(frames.Used()), frames.Used())
    {
      ok := Bind(page, frame);
      if ok {
        RetranslatedKernel(old(paging.ram), paging.ram, paging.dir, page, Entry(frame * BLOCK, MAP_FLAGS));
      }
    }

    /** One round of the mapping loop; when it fails nothing has changed. */
    method BindStep(start: nat, n: nat, i: nat, f: nat, ghost live0: map<nat, nat>, ghost used0: seq<bool>,
                    ghost ram0: Ram) returns (ok: bool)
      requires Valid() && i < n && start + i < maxPages && Pages()[start + i] && 0 < f
      requires BoundRun(paging.dir, start, n, i, f, live0, used0, ram0, live, frames.Used(), paging.ram)
      modifies `live, paging`ram, frames`usedBlocks, frames.bitmap
      ensures Valid()
      ensures ok ==> BoundRun(paging.dir, start, n, i + 1, f, live0, used0, ram0, live, frames.Used(), paging.ram)
      ensures !ok ==> live == old(live) && frames.Used() == old(frames.Used()) && paging.ram == old(paging.ram)
      ensures Provided(ok, old(paging.ram[paging.dir]), paging.ram[paging.dir], start + i, old(frames.Used()),
        frames.Used())
    {
      ghost var l1, u1, r1 := live, frames.Used(), paging.ram;
      BoundRunNext(paging.dir, start, n, i, f, live0, used0, ram0, l1, u1, r1);
      var page, frame := start + i, f + i;
      ok := BindSpare(page, frame);
      if ok {
        BoundRunStep(paging.dir, start, n, i, f, live0, used0, ram0, l1, u1, r1, frames.Used(), paging.ram, page,
          frame);
      }
    }

    /** Marks the free pages of a run or, when no frames are to be had for them, unmarks them. */
    method MarkRun(start: nat, n: nat, used: bool)
      requires Valid() && start + n <= maxPages && forall i: nat :: start <= i < start + n ==> i !in live
      modifies bitmap
      ensures Valid() && Pages() == Marked(old(Pages()), start, n, used)
    {
      MarkPages(start, n, used);
      MarksKept(old(Pages()), Pages(), frames.Used(), frames.Used(), paging.ram, paging.dir, live);
    }

    /** n consecutive frames, the lowest there are. */
    method TakeFrames(n: nat) returns (p: nat)
      requires Valid()
      modifies frames`usedBlocks, frames.bitmap
      ensures Valid()
      ensures p == NULL <==> n == 0 || old(NoRun(frames.Used(), n, 0, frames.maxBlocks))
      ensures p == NULL ==> frames.Used() == old(frames.Used())
      ensures p != NULL ==>
        p < WORD && p == p / BLOCK * BLOCK && old(FirstRun(frames.Used(), p / BLOCK, n, 0, frames.maxBlocks))
      ensures p != NULL ==> frames.Used() == Marked(old(frames.Used()), p / BLOCK, n, true) && 0 < p / BLOCK
      ensures p != NULL ==> SpareRun(live, frames.Used(), paging.ram, p / BLOCK, p / BLOCK + n)
    {
      p := frames.AllocContiguous(n);
      if p != NULL {
        TakenRunSpare(Pages(), old(frames.Used()), paging.ram, paging.dir, live, p / BLOCK, n);
        MarksKept(Pages(), Pages(), old(frames.Used()), frames.Used(), paging.ram, paging.dir, live);
      }
    }

    /** The mapping loop of vmm_alloc_contiguous; it stops early when a page cannot be mapped. */
    method BindRun(start: nat, n: nat, f: nat, ghost used0: seq<bool>) returns (i: nat)
      requires Valid() && start + n <= maxPages && SetRun(Pages(), start, n) && 0 < f
      requires BoundRun(paging.dir, start, n, 0, f, live, used0, paging.ram, live, frames.Used(), paging.ram)
      modifies `live, paging`ram, frames`usedBlocks, frames.bitmap
      ensures Valid() && i <= n
      ensures BoundRun(paging.dir, start, n, i, f, old(live), used0, old(paging.ram), live, frames.Used(), paging.ram)
      ensures i == n <==> |EmptySlots(old(paging.ram[paging.dir]), start, n)| <= FreeSeen(old(frames.Used()))
      ensures i < n ==> StuckAt(old(paging.ram[paging.dir]), start, i, old(frames.Used()))
    {
      ghost var d0, u0 := paging.ram[paging.dir], frames.Used();
      SuppliedNone(d0, start, u0);
      i := 0;
      while i < n
        invariant i <= n && Valid()
        invariant BoundRun(paging.dir, start, n, i, f, old(live), used0, old(paging.ram), live, frames.Used(),
          paging.ram)
        invariant Supplied(d0, paging.ram[paging.dir], start, i, u0, frames.Used())
      {
        var ok := SupplyStep(start, n, i, f, old(live), used0, old(paging.ram), d0, u0);
        if !ok {
          return;
        }
        i := i + 1;
      }
    }

    /** The same with the tables the run needs counted. */
    method SupplyStep(start: nat, n: nat, i: nat, f: nat, ghost live0: map<nat, nat>, ghost used0: seq<bool>,
                      ghost ram0: Ram,
                      ghost d0: seq<nat>, ghost u0: seq<bool>) returns (ok: bool)
      requires Valid() && i < n && start + i < maxPages && Pages()[start + i] && 0 < f
      requires BoundRun(paging.dir, start, n, i, f, live0, used0, ram0, live, frames.Used(), paging.ram)
      requires Supplied(d0, paging.ram[paging.dir], start, i, u0, frames.Used())
      modifies `live, paging`ram, frames`usedBlocks, frames.bitmap
      ensures Valid()
      ensures ok ==> BoundRun(paging.dir, start, n, i + 1, f, live0, used0, ram0, live, frames.Used(), paging.ram)
      ensures ok ==> Supplied(d0, paging.ram[paging.dir], start, i + 1, u0, frames.Used())
      ensures !ok ==> live == old(live) && frames.Used() == old(frames.Used()) && paging.ram == old(paging.ram)
      ensures !ok ==> |EmptySlots(d0, start, n)| > FreeSeen(u0) && StuckAt(d0, start, i, u0)
    {
      ghost var d1, u1, page := paging.ram[paging.dir], frames.Used(), start + i;
      ok := BindStep(start, n, i, f, live0, used0, ram0);
      if ok {
        SuppliedStep(d0, d1, paging.ram[paging.dir], start, i, page, u0, u1, frames.Used());
      } else {
        SuppliedStuck(d0, d1, paging.ram[paging.dir], start, i, n, page, u0, u1, frames.Used());
      }
    }

    /** Marks a free run of pages and takes as many consecutive frames; without frames the
        pages are unmarked again. */
    method Reserve(start: nat, n: nat) returns (p: nat)
      requires Valid() && 0 < n && start + n <= maxPages && ClearRun(Pages(), start, n)
      modifies bitmap, frames`usedBlocks, frames.bitmap
      ensures Valid()
      ensures p == NULL <==> old(NoRun(frames.Used(), n, 0, frames.maxBlocks))
      ensures p == NULL ==> Pages() == old(Pages()) && frames.Used() == old(frames.Used())
      ensures p != NULL ==>
        p < WORD && p == p / BLOCK * BLOCK && 0 < p / BLOCK
          && old(FirstRun(frames.Used(), p / BLOCK, n, 0, frames.maxBlocks))
      ensures p != NULL ==>
        Pages() == Marked(old(Pages()), start, n, true)
          && frames.Used() == Marked(old(frames.Used()), p / BLOCK, n, true)
      ensures p != NULL ==>
        BoundRun(paging.dir, start, n, 0, p / BLOCK, live, old(frames.Used()), paging.ram, live, frames.Used(),
          paging.ram)
    {
      ClearNotLive(Pages(), frames.Used(), paging.ram, paging.dir, live, start, n);
      MarkRun(start, n, true);
      p := TakeFrames(n);
      if p == NULL {
        MarkRun(start, n, false);
        MarkedBack(old(Pages()), start, n);
      } else {
        BoundRunStart(paging.dir, start, n, p / BLOCK, live, old(frames.Used()), paging.ram);
      }
    }

    /** Maps the run, or frees what it has mapped of it so far. */
    method MapRun(start: nat, n: nat, f: nat, ghost pages0: seq<bool>, ghost used0: seq<bool>) returns (v: nat)
      requires Valid() && 0 < n && start + n <= maxPages && 0 < f && Pages() == Marked(pages0, start, n, true)
      requires BoundRun(paging.dir, start, n, 0, f, live, used0, paging.ram, live, frames.Used(), paging.ram)
      modifies `live, bitmap, paging`ram, frames`usedBlocks, frames.bitmap
      ensures Valid()
        && (v != NULL <==> |EmptySlots(old(paging.ram[paging.dir]), start, n)| <= FreeSeen(old(frames.Used())))
      ensures v != NULL ==> LiveRun(start, n, f) && live == old(live) + RunOf(start, n, f)
      ensures v != NULL ==>
        v == AddrOf(start) && Pages() == old(Pages())
          && BoundRun(paging.dir, start, n, n, f, old(live), used0, old(paging.ram), live, frames.Used(), paging.ram)
      ensures v == NULL ==> live == old(live) && exists i: nat ::
        && i < n && StuckAt(old(paging.ram[paging.dir]), start, i, old(frames.Used()))
        && HalfUndone(paging.dir, start, n, i, f, pages0, used0, old(paging.ram), Pages(), frames.Used(), paging.ram)
    {
      var i := BindRun(start, n, f, used0);
      v := AddrOf(start);
      if i < n {
        Undo(start, n, i, f, pages0, used0, old(live), old(paging.ram));
        v := NULL;
      } else {
        ExtendedIsRun(old(live), start, n, n, f, live);
        ExtendedLive(old(live), start, n, n, f, live);
      }
    }

    method Undo(start: nat, n: nat, i: nat, f: nat, ghost pages0: seq<bool>, ghost used0: seq<bool>,
                ghost live0: map<nat, nat>, ghost ram0: Ram)
      requires Valid() && i < n && start + n <= maxPages && Pages() == Marked(pages0, start, n, true)
      requires BoundRun(paging.dir, start, n, i, f, live0, used0, ram0, live, frames.Used(), paging.ram)
      modifies `live, bitmap, paging`ram, frames`usedBlocks, frames.bitmap
      ensures Valid() && live == live0
      ensures HalfUndone(paging.dir, start, n, i, f, pages0, used0, ram0, Pages(), frames.Used(), paging.ram)
    {
      ghost var l1, u1, r1 := live, frames.Used(), paging.ram;
      ExtendedLive(live0, start, n, i, f, live);
      FreeContiguous(AddrOf(start), i, start, f);
      UndoneSoFar(paging.dir, start, n, i, f, pages0, used0, ram0, live0, u1, r1, l1, Pages(), frames.Used(),
        paging.ram);
    }

    /** vmm_alloc_contiguous, once it has found its pages. */
    method AllocAt(start: nat, n: nat) returns (v: nat, ghost f: nat)
      requires Valid() && 0 < n && FirstRun(Pages(), start, n, 0, maxPages)
      modifies `live, bitmap, paging`ram, frames`usedBlocks, frames.bitmap
      ensures Valid() && AddrOf(start) < WORD
      ensures old(NoRun(frames.Used(), n, 0, frames.maxBlocks)) ==>
        v == NULL && live == old(live) && Pages() == old(Pages()) && frames.Used() == old(frames.Used())
          && paging.ram == old(paging.ram)
      ensures !old(NoRun(frames.Used(), n, 0, frames.maxBlocks)) ==>
        && old(FirstRun(frames.Used(), f, n, 0, frames.maxBlocks))
        && (v != NULL <==>
          |EmptySlots(old(paging.ram[paging.dir]), start, n)| <= FreeSeen(Marked(old(frames.Used()), f, n, true)))
        && if v != NULL then
          && v == AddrOf(start) && Pages() == Marked(old(Pages()), start, n, true)
          && LiveRun(start, n, f) && live == old(live) + RunOf(start, n, f)
          && BoundRun(paging.dir, start, n, n, f, old(live), old(frames.Used()), old(paging.ram), live,
            frames.Used(), paging.ram)
        else
          && live == old(live)
          && exists i: nat ::
            && i < n && StuckAt(old(paging.ram[paging.dir]), start, i, Marked(old(frames.Used()), f, n, true))
            && HalfUndone(paging.dir, start, n, i, f, old(Pages()), old(frames.Used()), old(paging.ram), Pages(),
              frames.Used(), paging.ram)
    {
      f := 0;
      SlotInside(start);
      var p := Reserve(start, n);
      if p == NULL {
        return NULL, f;
      }
      f := p / BLOCK;
      v := MapRun(start, n, p / BLOCK, old(Pages()), old(frames.Used()));
    }

    /** vmm_alloc_contiguous: the lowest run of n unmarked pages on the lowest run of n free
        frames, page start + k on frame f + k; NULL exactly if there is no run of pages or of
        frames, or not as many further frames as there are empty directory slots under the run. */
    method AllocContiguous(n: nat) returns (v: nat, ghost start: nat, ghost f: nat)
      requires Valid()
      modifies `live, bitmap, paging`ram, frames`usedBlocks, frames.bitmap
      ensures Valid() && (v != NULL <==> RunToBeHad(old(Pages()), old(frames.Used()), old(paging.ram[paging.dir]), n))
      ensures n == 0 || old(NoRun(Pages(), n, 0, maxPages)) || old(NoRun(frames.Used(), n, 0, frames.maxBlocks)) ==>
        v == NULL && live == old(live) && Pages() == old(Pages()) && frames.Used() == old(frames.Used())
          && paging.ram == old(paging.ram)
      ensures !(n == 0 || old(NoRun(Pages(), n, 0, maxPages)) || old(NoRun(frames.Used(), n, 0, frames.maxBlocks))) ==>
        && old(FirstRun(Pages(), start, n, 0, maxPages)) && old(FirstRun(frames.Used(), f, n, 0, frames.maxBlocks))
        && if v != NULL then
          && v == AddrOf(start) < WORD && Pages() == Marked(old(Pages()), start, n, true)
          && LiveRun(start, n, f) && live == old(live) + RunOf(start, n, f)
          && BoundRun(paging.dir, start, n, n, f, old(live), old(frames.Used()), old(paging.ram), live,
            frames.Used(), paging.ram)
        else
          && live == old(live)
          && exists i: nat ::
            && i < n && StuckAt(old(paging.ram[paging.dir]), start, i, Marked(old(frames.Used()), f, n, true))
            && HalfUndone(paging.dir, start, n, i, f, old(Pages()), old(frames.Used()), old(paging.ram), Pages(),
              frames.Used(), paging.ram)
    {
      start, f := 0, 0;
      NoRunNotHad(Pages(), frames.Used(), paging.ram[paging.dir], n);
      if n == 0 || n > maxPages {
        return NULL, start, f;
      }
      var s := FindContiguousFreePages(n);
      if s < 0 {
        return NULL, start, f;
      }
      start := s;
      v, f := AllocAt(s, n);
      if !old(NoRun(frames.Used(), n, 0, frames.maxBlocks)) {
        RunHadIff(old(Pages()), old(frames.Used()), old(paging.ram[paging.dir]), n, s, f);
      }
    }

    /** Page start + k of a live run is translated to the k-th page behind the run's first
        physical address, whose frame is in use and holds no table. */
    lemma RunTranslated(start: nat, n: nat, f: nat, k: nat)
      requires Valid() && LiveRun(start, n, f) && k < n
      ensures AddrOf(start) + k * BLOCK < WORD && paging.At(AddrOf(start) + k * BLOCK) == Some(f * BLOCK + k * BLOCK)
      ensures f + k < frames.maxBlocks && frames.Used()[f + k] && f + k !in paging.ram
      ensures start + k < maxPages && Pages()[start + k]
    {
      assert start + k in live && live[start + k] == f + k;
      assert Backed(Pages(), frames.Used(), paging.ram, paging.dir, start + k, f + k);
      assert AddrOf(start + k) == AddrOf(start) + k * BLOCK && (f + k) * BLOCK == f * BLOCK + k * BLOCK;
    }

    lemma RunInside(start: nat, n: nat, f: nat)
      requires Valid() && LiveRun(start, n, f) && 0 < n
      ensures AddrOf(start) < WORD && start + n <= maxPages
    {
      RunTranslated(start, n, f, 0);
      RunTranslated(start, n, f, n - 1);
    }

    /** Allocating a run and freeing it again restores both bitmaps, the count of used frames
        and the unmapped status of every page, up to the tables made for the mapping. */
    method AllocAndFree(n: nat) returns (v: nat)
      requires Valid()
      modifies `live, bitmap, paging`ram, frames`usedBlocks, frames.bitmap
      ensures Valid() && live == old(live)
        && (v != NULL <==> RunToBeHad(old(Pages()), old(frames.Used()), old(paging.ram[paging.dir]), n))
      ensures v != NULL ==> Pages() == old(Pages())
      ensures v != NULL ==> frames.usedBlocks == old(frames.usedBlocks) + |paging.ram.Keys - old(paging.ram.Keys)|
      ensures v != NULL ==> TablesGrew(old(paging.ram.Keys), old(frames.Used()), paging.ram.Keys, frames.Used())
      ensures v != NULL ==>
        exists start: nat ::
          old(FirstRun(Pages(), start, n, 0, maxPages)) && Cleared(old(paging.ram), paging.ram, paging.dir, start, n)
    {
      ghost var start, f;
      v, start, f := AllocContiguous(n);
      if v != NULL {
        GiveBack(v, n, start, f, old(live), old(Pages()), old(frames.Used()), old(paging.ram));
        CountGrew(old(paging.ram.Keys), old(frames.Used()), paging.ram.Keys, frames.Used());
      }
    }

    method GiveBack(v: nat, n: nat, ghost start: nat, ghost f: nat, ghost live0: map<nat, nat>,
                    ghost pages0: seq<bool>, ghost used0: seq<bool>, ghost ram0: Ram)
      requires Valid() && v == AddrOf(start) < WORD && start + n <= maxPages && LiveRun(start, n, f)
      requires ClearRun(pages0, start, n) && Pages() == Marked(pages0, start, n, true) && ClearRun(used0, f, n)
      requires BoundRun(paging.dir, start, n, n, f, live0, used0, ram0, live, frames.Used(), paging.ram)
      modifies `live, bitmap, paging`ram, frames`usedBlocks, frames.bitmap
      ensures Valid() && live == live0 && Pages() == pages0
      ensures TablesGrew(ram0.Keys, used0, paging.ram.Keys, frames.Used())
      ensures Cleared(ram0, paging.ram, paging.dir, start, n)
    {
      ghost var l1, u1, r1 := live, frames.Used(), paging.ram;
      RunNoTables(start, n, f);
      FreeContiguous(v, n, start, f);
      RunGone(paging.dir, start, n, f, live0, pages0, used0, ram0, l1, u1, r1, paging.ram);
    }

    lemma RunNoTables(start: nat, n: nat, f: nat)
      requires Valid() && LiveRun(start, n, f)
      ensures forall g: nat :: f <= g < f + n ==> g !in paging.ram
    {
      forall g: nat | f <= g < f + n ensures g !in paging.ram {
        RunTranslated(start, n, f, g - f);
      }
    }
  }
}
