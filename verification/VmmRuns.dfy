/** Arbitrary runs of a client of the virtual page allocator. */
module VmmRuns {
  import opened Words
  import opened Frames
  import opened Vmm

  datatype Request = TakePage(slot: nat) | GivePage(slot: nat) | TakeRun(slot: nat, n: nat) | GiveRun(slot: nat)

  /** What one slot of the client's table holds: n pages from page `start` on, behind them
      the frames from f on. */
  datatype Held = Nothing | Held(start: nat, n: nat, f: nat)

  predicate Has(h: Held, page: nat) {
    h.Held? && h.start <= page < h.start + h.n
  }

  /** The run in slot i is live and shares no page with the run in slot j. */
  ghost predicate SlotFits(slots: seq<Held>, live: map<nat, nat>, i: nat)
    requires i < |slots|
  {
    forall k: nat :: Has(slots[i], k) ==> k in live && live[k] == slots[i].f + (k - slots[i].start)
  }

  ghost predicate NoPageShared(slots: seq<Held>, i: nat, j: nat)
    requires i < |slots| && j < |slots|
  {
    i != j ==> forall k: nat :: !(Has(slots[i], k) && Has(slots[j], k))
  }

  /** Page k is in some slot's run. */
  ghost predicate InSlot(slots: seq<Held>, k: nat) {
    exists i: nat :: i < |slots| && Has(slots[i], k)
  }

  /** The live pages are exactly those of the table's runs, each in one run. */
  ghost predicate Holds(slots: seq<Held>, live: map<nat, nat>) {
    && (forall i: nat {:trigger SlotFits(slots, live, i)} :: i < |slots| ==> SlotFits(slots, live, i))
    && (forall i: nat, j: nat {:trigger NoPageShared(slots, i, j)} :: i < |slots| && j < |slots| ==>
      NoPageShared(slots, i, j))
    && (forall k {:trigger InSlot(slots, k)} :: k in live ==> InSlot(slots, k))
  }

  lemma HoldsMore(slots: seq<Held>, live: map<nat, nat>, i: nat, start: nat, n: nat, f: nat)
    requires Holds(slots, live) && i < |slots| && slots[i].Nothing?
    requires forall k: nat :: start <= k < start + n ==> k !in live
    ensures Holds(slots[i := Held(start, n, f)], live + RunOf(start, n, f))
  {
    var s, l := slots[i := Held(start, n, f)], live + RunOf(start, n, f);
    forall a: nat | a < |s| ensures SlotFits(s, l, a) {
      assert a != i ==> SlotFits(slots, live, a);
    }
    forall a: nat, b: nat | a < |s| && b < |s| ensures NoPageShared(s, a, b) {
      assert NoPageShared(slots, a, b);
      assert SlotFits(slots, live, a) && SlotFits(slots, live, b);
    }
    forall k | k in l ensures InSlot(s, k) {
      if k in PageSet(start, n) {
        assert Has(s[i], k);
      } else {
        assert InSlot(slots, k);
        var a: nat :| a < |slots| && Has(slots[a], k);
        assert Has(s[a], k);
      }
    }
  }

  lemma HoldsLess(slots: seq<Held>, live: map<nat, nat>, i: nat)
    requires Holds(slots, live) && i < |slots| && slots[i].Held?
    ensures Holds(slots[i := Nothing], live - PageSet(slots[i].start, slots[i].n))
  {
    var s, l := slots[i := Nothing], live - PageSet(slots[i].start, slots[i].n);
    forall a: nat | a < |s| ensures SlotFits(s, l, a) {
      assert SlotFits(slots, live, a) && NoPageShared(slots, a, i);
      forall k: nat | Has(s[a], k) ensures k in l && l[k] == s[a].f + (k - s[a].start) {
        assert Has(slots[a], k) && !Has(slots[i], k);
      }
    }
    forall a: nat, b: nat | a < |s| && b < |s| ensures NoPageShared(s, a, b) {
      assert NoPageShared(slots, a, b);
    }
    forall k | k in l ensures InSlot(s, k) {
      assert InSlot(slots, k);
      var a: nat :| a < |slots| && Has(slots[a], k);
      assert Has(s[a], k);
    }
  }

  ghost predicate SlotMatches(table: seq<(nat, nat)>, slots: seq<Held>, i: nat)
    requires i < |table| == |slots|
  {
    if slots[i].Nothing? then table[i].0 == NULL
    else table[i] == (AddrOf(slots[i].start), slots[i].n) && 0 < slots[i].n
  }

  /** The client's addresses and page counts are those of the runs it holds. */
  ghost predicate Matches(table: seq<(nat, nat)>, slots: seq<Held>) {
    |table| == |slots| && forall i: nat {:trigger SlotMatches(table, slots, i)} :: i < |table| ==>
      SlotMatches(table, slots, i)
  }

  lemma MatchesAfter(table: seq<(nat, nat)>, slots: seq<Held>, i: nat, t: (nat, nat), h: Held)
    requires Matches(table, slots) && i < |table|
    requires if h.Nothing? then t.0 == NULL else t == (AddrOf(h.start), h.n) && 0 < h.n
    ensures Matches(table[i := t], slots[i := h])
  {
    var a, b := table[i := t], slots[i := h];
    forall j: nat | j < |a| ensures SlotMatches(a, b, j) {
      assert SlotMatches(table, slots, j);
    }
  }

  class Client {
    const vmm: PageAllocator
    var table: seq<(nat, nat)>      // address and number of pages, address NULL for an empty slot
    ghost var slots: seq<Held>

    ghost predicate Valid()
      reads this, vmm, vmm.paging, vmm.frames, vmm.frames.bitmap, vmm.bitmap
    {
      vmm.Valid() && Matches(table, slots) && Holds(slots, vmm.live)
    }

    constructor (vmm: PageAllocator, n: nat)
      requires vmm.Valid() && vmm.live == map[]
      ensures Valid() && this.vmm == vmm && |table| == n
    {
      this.vmm, table, slots := vmm, seq(n, _ => (NULL, 0)), seq(n, _ => Nothing);
      new;
      forall i: nat | i < n ensures SlotMatches(table, slots, i) {
      }
    }

    /** The table of live pages grows by exactly the run handed out. */
    method Ask(n: nat) returns (v: nat, ghost start: nat, ghost f: nat)
      requires vmm.Valid()
      modifies vmm`live, vmm.bitmap, vmm.paging`ram, vmm.frames`usedBlocks, vmm.frames.bitmap
      ensures vmm.Valid() && (v == NULL ==> vmm.live == old(vmm.live))
      ensures v != NULL ==> 0 < n && v == AddrOf(start) && vmm.live == old(vmm.live) + RunOf(start, n, f)
      ensures v != NULL ==> forall k: nat :: start <= k < start + n ==> k !in old(vmm.live)
    {
      v, start, f := vmm.AllocContiguous(n);
      if v != NULL {
        ClearNotLive(old(vmm.Pages()), old(vmm.frames.Used()), old(vmm.paging.ram), vmm.paging.dir, old(vmm.live),
          start, n);
      }
    }

    /** Notes the run in the table. */
    method Enter(i: nat, v: nat, n: nat, ghost h: Held, ghost live0: map<nat, nat>)
      requires vmm.Valid() && Matches(table, slots) && Holds(slots, live0) && i < |table| && table[i].0 == NULL
      requires h.Held? && v == AddrOf(h.start) && n == h.n && 0 < n
        && forall k: nat :: h.start <= k < h.start + h.n ==> k !in live0
      modifies this
      ensures vmm.Valid() && Matches(table, slots) && |table| == old(|table|)
      ensures Holds(slots, live0 + RunOf(h.start, h.n, h.f))
    {
      assert SlotMatches(table, slots, i);
      HoldsMore(slots, live0, i, h.start, h.n, h.f);
      MatchesAfter(table, slots, i, (v, n), h);
      table, slots := table[i := (v, n)], slots[i := h];
    }

    /** Forgets the run. */
    method Clear(i: nat, ghost live0: map<nat, nat>)
      requires vmm.Valid() && Matches(table, slots) && Holds(slots, live0) && i < |table| && slots[i].Held?
      modifies this
      ensures vmm.Valid() && Matches(table, slots) && |table| == old(|table|)
        && Holds(slots, live0 - PageSet(old(slots[i].start), old(slots[i].n)))
    {
      HoldsLess(slots, live0, i);
      MatchesAfter(table, slots, i, (NULL, 0), Nothing);
      table, slots := table[i := (NULL, 0)], slots[i := Nothing];
    }

    method Take(i: nat, n: nat)
      requires Valid() && i < |table| && table[i].0 == NULL
      modifies this, vmm`live, vmm.bitmap, vmm.paging`ram, vmm.frames`usedBlocks, vmm.frames.bitmap
      ensures Valid() && |table| == old(|table|)
    {
      ghost var start, f;
      var v;
      v, start, f := Ask(n);
      if v != NULL {
        Enter(i, v, n, Held(start, n, f), old(vmm.live));
      }
    }

    lemma SlotIsRun(i: nat)
      requires Valid() && i < |slots| && slots[i].Held?
      ensures vmm.LiveRun(slots[i].start, slots[i].n, slots[i].f)
      ensures AddrOf(slots[i].start) < WORD && slots[i].start + slots[i].n <= vmm.maxPages
    {
      var h := slots[i];
      assert SlotMatches(table, slots, i);
      assert SlotFits(slots, vmm.live, i);
      forall k: nat | h.start <= k < h.start + h.n ensures k in vmm.live && vmm.live[k] == h.f + (k - h.start) {
        assert Has(h, k);
      }
      vmm.RunInside(h.start, h.n, h.f);
    }

    method Give(i: nat)
      requires Valid() && i < |table| && table[i].0 != NULL
      modifies this, vmm`live, vmm.bitmap, vmm.paging`ram, vmm.frames`usedBlocks, vmm.frames.bitmap
      ensures Valid() && |table| == old(|table|)
    {
      assert SlotMatches(table, slots, i);
      SlotIsRun(i);
      vmm.FreeContiguous(table[i].0, table[i].1, slots[i].start, slots[i].f);
      Clear(i, old(vmm.live));
    }

    lemma OnePage(live: map<nat, nat>, page: nat, f: nat)
      ensures live + RunOf(page, 1, f) == live[page := f] && live - PageSet(page, 1) == live - {page}
    {
      RunOfStep(live, page, 0, f);
    }

    method AskPage() returns (v: nat, ghost start: nat, ghost f: nat)
      requires vmm.Valid()
      modifies vmm`live, vmm.bitmap, vmm.paging`ram, vmm.frames`usedBlocks, vmm.frames.bitmap
      ensures vmm.Valid() && (v == NULL ==> vmm.live == old(vmm.live))
      ensures v != NULL ==> v == AddrOf(start) && vmm.live == old(vmm.live) + RunOf(start, 1, f)
      ensures v != NULL ==> forall k: nat :: start <= k < start + 1 ==> k !in old(vmm.live)
    {
      v := vmm.AllocPage();
      start, f := 0, 0;
      if v != NULL {
        start :| start < vmm.maxPages && v == AddrOf(start) < WORD && LowestClear(old(vmm.Pages()), start)
          && vmm.Taken(start);
        f := vmm.live[start];
        ClearNotLive(old(vmm.Pages()), old(vmm.frames.Used()), old(vmm.paging.ram), vmm.paging.dir, old(vmm.live),
          start, 1);
        OnePage(old(vmm.live), start, f);
      }
    }

    method TakeOne(i: nat)
      requires Valid() && i < |table| && table[i].0 == NULL
      modifies this, vmm`live, vmm.bitmap, vmm.paging`ram, vmm.frames`usedBlocks, vmm.frames.bitmap
      ensures Valid() && |table| == old(|table|)
    {
      ghost var start, f;
      var v;
      v, start, f := AskPage();
      if v != NULL {
        Enter(i, v, 1, Held(start, 1, f), old(vmm.live));
      }
    }

    /** Gives a one-page run back with vmm_free_page. */
    method GiveOne(i: nat)
      requires Valid() && i < |table| && table[i].0 != NULL && table[i].1 == 1
      modifies this, vmm`live, vmm.bitmap, vmm.paging`ram
      ensures Valid() && |table| == old(|table|)
    {
      assert SlotMatches(table, slots, i);
      SlotIsRun(i);
      OnePage(vmm.live, slots[i].start, 0);
      LetGo(table[i].0, slots[i].start, slots[i].f);
      Clear(i, old(vmm.live));
    }

    method LetGo(v: nat, ghost start: nat, ghost f: nat)
      requires vmm.Valid() && v == AddrOf(start) && vmm.LiveRun(start, 1, f)
      modifies vmm`live, vmm.bitmap, vmm.paging`ram
      ensures vmm.Valid() && vmm.live == old(vmm.live) - {start}
    {
      vmm.RunTranslated(start, 1, f, 0);
      PageIndex(start);
      AlignedAddresses(start, f);
      vmm.FreePage(v);
    }

    method Step(r: Request)
      requires Valid()
      modifies this, vmm`live, vmm.bitmap, vmm.paging`ram, vmm.frames`usedBlocks, vmm.frames.bitmap
      ensures Valid() && |table| == old(|table|)
    {
      var i := r.slot;
      if i < |table| {
        var v, n := table[i].0, table[i].1;
        match r
        case TakePage(_) =>
          if v == NULL {
            TakeOne(i);
          }
        case GivePage(_) =>
          if v != NULL && n == 1 {
            GiveOne(i);
          }
        case TakeRun(_, k) =>
          if v == NULL {
            Take(i, k);
          }
        case GiveRun(_) =>
          if v != NULL {
            Give(i);
          }
      }
    }

    /** Every run of requests keeps the joint invariant of bitmaps, tables and live pages. */
    method Run(rs: seq<Request>)
      requires Valid()
      modifies this, vmm`live, vmm.bitmap, vmm.paging`ram, vmm.frames`usedBlocks, vmm.frames.bitmap
      ensures Valid() && |table| == old(|table|)
    {
      for i := 0 to |rs|
        invariant Valid() && |table| == old(|table|)
      {
        Step(rs[i]);
      }
    }
  }
}
