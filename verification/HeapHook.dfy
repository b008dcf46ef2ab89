/** liballoc_alloc, the heap's way to pages: one vmm_alloc_page after the other. */
module HeapHook {
  import opened Words
  import opened Bits
  import opened Frames
  import opened Paging
  import opened Vmm

  // ---- the unmarked pages, lowest first ----

  function Clears(p: seq<bool>): (cs: seq<nat>) {
    if p == [] then [] else Clears(p[..|p| - 1]) + if p[|p| - 1] then [] else [|p| - 1]
  }

  lemma OrderedMore(cs: seq<nat>, top: nat)
    requires (forall j, k :: 0 <= j < k < |cs| ==> cs[j] < cs[k]) && forall c <- cs :: c < top
    ensures forall j, k :: 0 <= j < k < |cs + [top]| ==> (cs + [top])[j] < (cs + [top])[k]
  {
    assert forall k :: 0 <= k < |cs| ==> cs[k] in cs;
  }

  /** Exactly the unmarked pages, in order. */
  lemma {:induction false} ClearsAre(p: seq<bool>)
    ensures forall q: nat :: q in Clears(p) <==> q < |p| && !p[q]
    ensures forall j, k :: 0 <= j < k < |Clears(p)| ==> Clears(p)[j] < Clears(p)[k]
  {
    if p != [] {
      var init := p[..|p| - 1];
      ClearsAre(init);
      OrderedMore(Clears(init), |init|);
      assert forall q: nat :: q < |init| ==> p[q] == init[q];
    }
  }

  /** The pages with those of ps marked. */
  ghost predicate WithMarks(p: seq<bool>, ps: seq<nat>, q: seq<bool>) {
    |q| == |p| && forall i: nat {:trigger MarkedAt(p, ps, q, i)} :: i < |p| ==> MarkedAt(p, ps, q, i)
  }

  predicate MarkedAt(p: seq<bool>, ps: seq<nat>, q: seq<bool>, i: nat)
    requires i < |p| == |q|
  {
    q[i] <==> p[i] || i in ps
  }

  /** The k-th of them is not among those before. */
  lemma {:induction false} NotBefore(p: seq<bool>, k: nat)
    requires k < |Clears(p)|
    ensures Clears(p)[k] in Clears(p) && Clears(p)[k] !in Clears(p)[..k] && Clears(p)[k] < |p| && !p[Clears(p)[k]]
  {
    ClearsAre(p);
    var cs := Clears(p);
    assert forall c :: 0 <= c < k ==> cs[..k][c] == cs[c] < cs[k];
  }

  /** Once the first i of them are marked the lowest unmarked page is the next. */
  lemma {:induction false} NextClear(p: seq<bool>, i: nat, q: seq<bool>, page: nat)
    requires i <= |Clears(p)| && WithMarks(p, Clears(p)[..i], q) && LowestClear(q, page)
    ensures i < |Clears(p)| && page == Clears(p)[i]
  {
    var cs := Clears(p);
    ClearsAre(p);
    assert MarkedAt(p, cs[..i], q, page);
    assert page in cs && page !in cs[..i];
    assert forall c :: 0 <= c < i ==> cs[..i][c] == cs[c];
    var k :| 0 <= k < |cs| && cs[k] == page;
    if i < |cs| {
      NotBefore(p, i);
      assert MarkedAt(p, cs[..i], q, cs[i]);
    }
  }

  lemma {:induction false} SomeClear(p: seq<bool>, i: nat, q: seq<bool>)
    requires i < |Clears(p)| && WithMarks(p, Clears(p)[..i], q)
    ensures LowestClear(q, Clears(p)[i])
  {
    var cs := Clears(p);
    ClearsAre(p);
    NotBefore(p, i);
    assert forall c :: 0 <= c < i ==> cs[c] in cs[..i] by {
      assert forall c :: 0 <= c < i ==> cs[..i][c] == cs[c];
    }
    assert MarkedAt(p, cs[..i], q, cs[i]);
    forall j: nat | j < cs[i] ensures q[j] {
      assert MarkedAt(p, cs[..i], q, j);
      if !p[j] {
        assert j in cs;
        var k :| 0 <= k < |cs| && cs[k] == j;
      }
    }
  }

  lemma OneMoreMark(p: seq<bool>, i: nat, q: seq<bool>)
    requires i < |Clears(p)| && WithMarks(p, Clears(p)[..i], q) && Clears(p)[i] < |q|
    ensures WithMarks(p, Clears(p)[..i + 1], q[Clears(p)[i] := true])
  {
    var r, ps := q[Clears(p)[i] := true], Clears(p)[..i + 1];
    assert ps == Clears(p)[..i] + [Clears(p)[i]];
    forall j: nat | j < |p| ensures MarkedAt(p, ps, r, j) {
      assert MarkedAt(p, Clears(p)[..i], q, j);
    }
  }

  /** The n lowest unmarked pages are consecutive exactly if no marked page lies among the n pages
      from the lowest one on. */
  lemma {:induction false} ConsecutiveIff(p: seq<bool>, n: nat)
    requires 0 < n <= |Clears(p)|
    ensures (forall k :: 0 <= k < n ==> Clears(p)[k] == Clears(p)[0] + k) <==> ClearRun(p, Clears(p)[0], n)
  {
    var cs := Clears(p);
    ClearsAre(p);
    if ClearRun(p, cs[0], n) {
      forall k: nat | k < n ensures cs[k] == cs[0] + k {
        ConsecutiveAt(p, n, k);
      }
    } else if forall k :: 0 <= k < n ==> cs[k] == cs[0] + k {
      assert cs[n - 1] in cs;
      forall q | cs[0] <= q < cs[0] + n ensures !p[q] {
        assert cs[q - cs[0]] == q && cs[q - cs[0]] in cs;
      }
    }
  }

  lemma {:induction false} ConsecutiveAt(p: seq<bool>, n: nat, k: nat)
    requires k < n <= |Clears(p)| && ClearRun(p, Clears(p)[0], n)
    ensures Clears(p)[k] == Clears(p)[0] + k
  {
    var cs := Clears(p);
    ClearsAre(p);
    if k > 0 {
      ConsecutiveAt(p, n, k - 1);
      var q := cs[0] + k;
      assert q in cs;
      var m :| 0 <= m < |cs| && cs[m] == q;
      assert m > k - 1 && cs[k - 1] < cs[k];
    }
  }

  // ---- frames and tables for them ----

  /** The directory slots of the pages that have no table. */
  function SlotsFor(d: seq<nat>, ps: seq<nat>): (s: set<nat>) {
    if ps == [] then {} else
      var slot := SlotOf(ps[|ps| - 1]);
      SlotsFor(d, ps[..|ps| - 1]) + if slot < |d| && !Present(d[slot]) then {slot} else {}
  }

  lemma {:induction false} SlotsForFewer(d: seq<nat>, ps: seq<nat>, k: nat)
    requires k <= |ps|
    ensures SlotsFor(d, ps[..k]) <= SlotsFor(d, ps)
  {
    if k < |ps| {
      SlotsForFewer(d, ps[..|ps| - 1], k);
      assert ps[..|ps| - 1][..k] == ps[..k];
    } else {
      assert ps[..k] == ps;
    }
  }

  /** There are k unmarked pages, frames for the k lowest, and frames for the tables they lack. */
  ghost predicate Enough(p: seq<bool>, u: seq<bool>, d: seq<nat>, k: nat) {
    k <= |Clears(p)| && k + |SlotsFor(d, Clears(p)[..k])| <= FreeSeen(u)
  }

  /** The pages ps have been supplied. */
  ghost predicate AllSupplied(d0: seq<nat>, d1: seq<nat>, ps: seq<nat>, u0: seq<bool>, u1: seq<bool>) {
    && |d0| == |d1| == ENTRIES && FreeSeen(u1) + |ps| + |SlotsFor(d0, ps)| == FreeSeen(u0)
    && forall j: nat :: j < ENTRIES ==> (Present(d1[j]) <==> Present(d0[j]) || j in SlotsFor(d0, ps))
  }

  lemma {:induction false} OneMoreSlotFor(d0: seq<nat>, d1: seq<nat>, ps: seq<nat>, page: nat, u0: seq<bool>,
                                          u1: seq<bool>)
    requires AllSupplied(d0, d1, ps, u0, u1) && SlotOf(page) < ENTRIES
    ensures SlotsFor(d0, ps + [page]) == SlotsFor(d0, ps) + if Present(d1[SlotOf(page)]) then {} else {SlotOf(page)}
    ensures |SlotsFor(d0, ps + [page])| == |SlotsFor(d0, ps)| + if Present(d1[SlotOf(page)]) then 0 else 1
  {
    assert (ps + [page])[..|ps|] == ps;
  }

  lemma SuppliedMore(d0: seq<nat>, d1: seq<nat>, d2: seq<nat>, ps: seq<nat>, page: nat, u0: seq<bool>, u1: seq<bool>,
                     u2: seq<bool>)
    requires AllSupplied(d0, d1, ps, u0, u1) && PageSupplied(d1, d2, page, u1, u2)
    ensures AllSupplied(d0, d2, ps + [page], u0, u2)
  {
    OneMoreSlotFor(d0, d1, ps, page, u0, u1);
  }

  /** The next page is to be had exactly if there is enough for one more. */
  lemma {:induction false} HadIffEnough(p0: seq<bool>, i: nat, p1: seq<bool>, d0: seq<nat>, d1: seq<nat>,
                                        u0: seq<bool>, u1: seq<bool>)
    requires |p0| <= KERNEL_PAGES && i <= |Clears(p0)| && WithMarks(p0, Clears(p0)[..i], p1)
    requires AllSupplied(d0, d1, Clears(p0)[..i], u0, u1)
    ensures PageToBeHad(p1, u1, d1) <==> Enough(p0, u0, d0, i + 1)
  {
    var cs := Clears(p0);
    if i < |cs| {
      ClearsAre(p0);
      assert cs[i] in cs;
      SomeClear(p0, i, p1);
      SlotInside(cs[i]);
      PageHadIff(p1, u1, d1, cs[i]);
      OneMoreSlotFor(d0, d1, cs[..i], cs[i], u0, u1);
      assert cs[..i + 1] == cs[..i] + [cs[i]];
    } else {
      forall page: nat ensures !PageHadAt(p1, u1, d1, page) {
        if LowestClear(p1, page) {
          NextClear(p0, i, p1, page);
        }
      }
    }
  }

  lemma {:induction false} EnoughForFewer(p: seq<bool>, u: seq<bool>, d: seq<nat>, k: nat, n: nat)
    requires k <= n && Enough(p, u, d, n)
    ensures Enough(p, u, d, k)
  {
    var all := Clears(p)[..n];
    SlotsForFewer(d, all, k);
    assert all[..k] == Clears(p)[..k];
    SmallerSet(SlotsFor(d, Clears(p)[..k]), SlotsFor(d, all));
  }

  // ---- the hook ----

  /** The pages of ps have become live, and no other page's frame has changed. */
  ghost predicate LiveWith(live0: map<nat, nat>, ps: seq<nat>, live: map<nat, nat>) {
    forall k: nat {:trigger LiveAt(live0, ps, live, k)} :: LiveAt(live0, ps, live, k)
  }

  predicate LiveAt(live0: map<nat, nat>, ps: seq<nat>, live: map<nat, nat>, k: nat) {
    (k in live <==> k in live0 || k in ps) && (k in live && k !in ps ==> live[k] == live0[k])
  }

  /** State of the loop of liballoc_alloc after i pages: pages, frames, directory and live pages
      from those before the loop. */
  ghost predicate TakenSoFar(i: nat, p0: seq<bool>, u0: seq<bool>, d0: seq<nat>, live0: map<nat, nat>,
                             p1: seq<bool>, u1: seq<bool>, d1: seq<nat>, live1: map<nat, nat>) {
    && i <= |Clears(p0)| && WithMarks(p0, Clears(p0)[..i], p1) && AllSupplied(d0, d1, Clears(p0)[..i], u0, u1)
    && LiveWith(live0, Clears(p0)[..i], live1)
  }

  lemma TakenNone(p0: seq<bool>, u0: seq<bool>, d0: seq<nat>, live0: map<nat, nat>)
    requires |d0| == ENTRIES
    ensures TakenSoFar(0, p0, u0, d0, live0, p0, u0, d0, live0) && Enough(p0, u0, d0, 0)
  {
    var none := Clears(p0)[..0];
    assert none == [];
    forall i: nat | i < |p0| ensures MarkedAt(p0, none, p0, i) {
    }
    forall k: nat ensures LiveAt(live0, none, live0, k) {
    }
  }

  lemma TakenMore(i: nat, p0: seq<bool>, u0: seq<bool>, d0: seq<nat>, live0: map<nat, nat>,
                  p1: seq<bool>, u1: seq<bool>, d1: seq<nat>, live1: map<nat, nat>, page: nat, f: nat,
                  u2: seq<bool>, d2: seq<nat>)
    requires TakenSoFar(i, p0, u0, d0, live0, p1, u1, d1, live1)
    requires LowestClear(p1, page) && PageSupplied(d1, d2, page, u1, u2)
    ensures i < |Clears(p0)| && page == Clears(p0)[i]
    ensures TakenSoFar(i + 1, p0, u0, d0, live0, p1[page := true], u2, d2, live1[page := f])
  {
    var cs := Clears(p0);
    NextClear(p0, i, p1, page);
    OneMoreMark(p0, i, p1);
    SuppliedMore(d0, d1, d2, cs[..i], page, u0, u1, u2);
    var ps, live2 := cs[..i + 1], live1[page := f];
    assert ps == cs[..i] + [page];
    forall k: nat ensures LiveAt(live0, ps, live2, k) {
      assert LiveAt(live0, cs[..i], live1, k);
    }
  }

  ghost predicate Taking(vmm: PageAllocator, i: nat, p0: seq<bool>, u0: seq<bool>, d0: seq<nat>, live0: map<nat, nat>)
    reads vmm, vmm.paging, vmm.frames, vmm.frames.bitmap, vmm.bitmap
  {
    && vmm.Valid()
    && TakenSoFar(i, p0, u0, d0, live0, vmm.Pages(), vmm.frames.Used(), vmm.paging.ram[vmm.paging.dir], vmm.live)
  }

  /** The first i of the unmarked pages are marked and live. */
  ghost predicate Got(vmm: PageAllocator, i: nat, p0: seq<bool>, live0: map<nat, nat>)
    reads vmm, vmm.paging, vmm.frames, vmm.frames.bitmap, vmm.bitmap
  {
    && vmm.Valid() && i <= |Clears(p0)| && WithMarks(p0, Clears(p0)[..i], vmm.Pages())
    && LiveWith(live0, Clears(p0)[..i], vmm.live)
  }

  /** vmm_alloc_page, by values. */
  method Take(vmm: PageAllocator) returns (v: nat, ghost page: nat, ghost f: nat)
    requires vmm.Valid()
    modifies vmm`live, vmm.bitmap, vmm.paging`ram, vmm.frames`usedBlocks, vmm.frames.bitmap
    ensures vmm.Valid()
    ensures v != NULL <==>
      PageToBeHad(old(vmm.Pages()), old(vmm.frames.Used()), old(vmm.paging.ram[vmm.paging.dir]))
    ensures v == NULL ==> vmm.Pages() == old(vmm.Pages()) && vmm.live == old(vmm.live)
    ensures v != NULL ==> v == AddrOf(page) && LowestClear(old(vmm.Pages()), page)
    ensures v != NULL ==> vmm.Pages() == old(vmm.Pages())[page := true] && vmm.live == old(vmm.live)[page := f]
    ensures v != NULL ==> PageSupplied(old(vmm.paging.ram[vmm.paging.dir]), vmm.paging.ram[vmm.paging.dir], page,
      old(vmm.frames.Used()), vmm.frames.Used())
  {
    page, f := 0, 0;
    v := vmm.AllocPage();
    if v != NULL {
      page :| page < vmm.maxPages && v == AddrOf(page) < WORD && LowestClear(old(vmm.Pages()), page)
        && vmm.Taken(page) && vmm.Pages() == old(vmm.Pages())[page := true]
        && PageSupplied(old(vmm.paging.ram[vmm.paging.dir]), vmm.paging.ram[vmm.paging.dir], page,
          old(vmm.frames.Used()), vmm.frames.Used());
      f := vmm.live[page];
    }
  }

  /** One round of the loop. */
  method TakeNext(vmm: PageAllocator, ghost i: nat, ghost p0: seq<bool>, ghost u0: seq<bool>, ghost d0: seq<nat>,
                  ghost live0: map<nat, nat>) returns (v: nat)
    requires Taking(vmm, i, p0, u0, d0, live0)
    modifies vmm`live, vmm.bitmap, vmm.paging`ram, vmm.frames`usedBlocks, vmm.frames.bitmap
    ensures v != NULL <==> Enough(p0, u0, d0, i + 1)
    ensures v != NULL ==> Taking(vmm, i + 1, p0, u0, d0, live0) && v == AddrOf(Clears(p0)[i])
    ensures v == NULL ==> Got(vmm, i, p0, live0)
  {
    ghost var p1, d1, u1, l1 := vmm.Pages(), vmm.paging.ram[vmm.paging.dir], vmm.frames.Used(), vmm.live;
    HadIffEnough(p0, i, p1, d0, d1, u0, u1);
    ghost var page, f;
    v, page, f := Take(vmm);
    if v != NULL {
      TakenMore(i, p0, u0, d0, live0, p1, u1, d1, l1, page, f, vmm.frames.Used(), vmm.paging.ram[vmm.paging.dir]);
    }
  }

  /** What a failed call leaves live: all it has taken, without the i pages from the lowest one on. */
  ghost predicate Undone(live0: map<nat, nat>, cs: seq<nat>, i: nat, live: map<nat, nat>)
    requires i <= |cs|
  {
    forall k: nat {:trigger UndoneAt(live0, cs, i, live, k)} :: UndoneAt(live0, cs, i, live, k)
  }

  predicate UndoneAt(live0: map<nat, nat>, cs: seq<nat>, i: nat, live: map<nat, nat>, k: nat)
    requires i <= |cs|
  {
    && (k in live <==> (k in live0 || k in cs[..i]) && !(i > 0 && cs[0] <= k < cs[0] + i))
    && (k in live && k !in cs[..i] ==> live[k] == live0[k])
  }

  lemma TakingGot(vmm: PageAllocator, i: nat, p0: seq<bool>, u0: seq<bool>, d0: seq<nat>, live0: map<nat, nat>)
    requires Taking(vmm, i, p0, u0, d0, live0)
    ensures Got(vmm, i, p0, live0)
  {
  }

  /** They lie at least as far apart as consecutive pages. */
  lemma {:induction false} Spread(p: seq<bool>, i: nat, k: nat)
    requires i <= k < |Clears(p)|
    ensures Clears(p)[i] + (k - i) <= Clears(p)[k] < |p|
  {
    ClearsAre(p);
    NotBefore(p, k);
    if i < k {
      Spread(p, i, k - 1);
    }
  }

  /** liballoc_alloc. It gets the n lowest unmarked pages, exactly if there are so many with frames
      and tables for them, and answers the address of the first, as if the others came right behind
      it. When a page is not to be had it frees as many pages as it has got, from the first on. */
  method LiballocAlloc(vmm: PageAllocator, n: int) returns (v: nat, ghost got: nat)
    requires vmm.Valid()
    modifies vmm`live, vmm.bitmap, vmm.paging`ram, vmm.frames`usedBlocks, vmm.frames.bitmap
    ensures vmm.Valid()
    ensures v != NULL <==>
      0 < n && Enough(old(vmm.Pages()), old(vmm.frames.Used()), old(vmm.paging.ram[vmm.paging.dir]), n)
    ensures v != NULL ==> v == AddrOf(Clears(old(vmm.Pages()))[0])
    ensures v != NULL ==> WithMarks(old(vmm.Pages()), Clears(old(vmm.Pages()))[..n], vmm.Pages())
    ensures v != NULL ==> LiveWith(old(vmm.live), Clears(old(vmm.Pages()))[..n], vmm.live)
    ensures n <= 0 ==> vmm.Pages() == old(vmm.Pages()) && vmm.live == old(vmm.live)
    ensures v == NULL && 0 < n ==> got < n && got <= |Clears(old(vmm.Pages()))|
    ensures v == NULL && 0 < n ==>
      && Enough(old(vmm.Pages()), old(vmm.frames.Used()), old(vmm.paging.ram[vmm.paging.dir]), got)
      && !Enough(old(vmm.Pages()), old(vmm.frames.Used()), old(vmm.paging.ram[vmm.paging.dir]), got + 1)
      && Undone(old(vmm.live), Clears(old(vmm.Pages())), got, vmm.live)
  {
    got := 0;
    if n <= 0 {
      return NULL, got;
    }
    ghost var p0, u0, d0, live0 := vmm.Pages(), vmm.frames.Used(), vmm.paging.ram[vmm.paging.dir], vmm.live;
    TakenNone(p0, u0, d0, live0);
    var i;
    v, i := TakeUpTo(vmm, n, p0, u0, d0, live0);
    got := i;
    if i < n {
      NotEnough(p0, u0, d0, i + 1, n);
      GiveUp(vmm, v, i, p0, live0);
      v := NULL;
    }
  }

  /** The round, with the address of the first page kept. */
  method TakeRound(vmm: PageAllocator, v: nat, i: nat, ghost p0: seq<bool>, ghost u0: seq<bool>, ghost d0: seq<nat>,
                   ghost live0: map<nat, nat>) returns (more: bool, first: nat)
    requires Taking(vmm, i, p0, u0, d0, live0)
    requires if i == 0 then v == NULL else v == AddrOf(Clears(p0)[0])
    modifies vmm`live, vmm.bitmap, vmm.paging`ram, vmm.frames`usedBlocks, vmm.frames.bitmap
    ensures more <==> Enough(p0, u0, d0, i + 1)
    ensures more ==> Taking(vmm, i + 1, p0, u0, d0, live0) && first == AddrOf(Clears(p0)[0])
    ensures !more ==> Got(vmm, i, p0, live0) && first == v
  {
    first := v;
    var page := TakeNext(vmm, i, p0, u0, d0, live0);
    more := page != NULL;
    if more && i == 0 {
      first := page;
    }
  }

  /** The loop of liballoc_alloc, as far as it gets. */
  method TakeUpTo(vmm: PageAllocator, n: nat, ghost p0: seq<bool>, ghost u0: seq<bool>, ghost d0: seq<nat>,
                  ghost live0: map<nat, nat>) returns (v: nat, i: nat)
    requires Taking(vmm, 0, p0, u0, d0, live0) && Enough(p0, u0, d0, 0)
    modifies vmm`live, vmm.bitmap, vmm.paging`ram, vmm.frames`usedBlocks, vmm.frames.bitmap
    ensures i <= n && Enough(p0, u0, d0, i) && (i < n ==> !Enough(p0, u0, d0, i + 1))
    ensures Got(vmm, i, p0, live0)
    ensures if i == 0 then v == NULL else v == AddrOf(Clears(p0)[0])
  {
    v, i := NULL, 0;
    while i < n
      invariant i <= n && Taking(vmm, i, p0, u0, d0, live0) && Enough(p0, u0, d0, i)
      invariant if i == 0 then v == NULL else v == AddrOf(Clears(p0)[0])
    {
      var more;
      more, v := TakeRound(vmm, v, i, p0, u0, d0, live0);
      if !more {
        return;
      }
      i := i + 1;
    }
    TakingGot(vmm, n, p0, u0, d0, live0);
  }

  lemma NotEnough(p: seq<bool>, u: seq<bool>, d: seq<nat>, k: nat, n: nat)
    requires k <= n && !Enough(p, u, d, k)
    ensures !Enough(p, u, d, n)
  {
    if Enough(p, u, d, n) {
      EnoughForFewer(p, u, d, k, n);
    }
  }

  /** What the table of live pages says about page k without the n pages from `start` on. */
  ghost predicate FewerAt(live0: map<nat, nat>, start: nat, n: nat, live: map<nat, nat>, k: nat) {
    && (k in live <==> k in live0 && !(start <= k < start + n))
    && (k in live ==> live[k] == live0[k])
  }

  ghost predicate Fewer(live0: map<nat, nat>, start: nat, n: nat, live: map<nat, nat>) {
    forall k: nat {:trigger FewerAt(live0, start, n, live, k)} :: FewerAt(live0, start, n, live, k)
  }

  lemma NoneFewer(live: map<nat, nat>, start: nat)
    ensures Fewer(live, start, 0, live)
  {
    forall k: nat ensures FewerAt(live, start, 0, live, k) {
    }
  }

  lemma OneFewer(live0: map<nat, nat>, start: nat, j: nat, live: map<nat, nat>, page: nat)
    requires Fewer(live0, start, j, live) && page == start + j
    ensures Fewer(live0, start, j + 1, live - {page})
  {
    var next := j + 1;
    forall k: nat ensures FewerAt(live0, start, next, live - {page}, k) {
      assert FewerAt(live0, start, j, live, k);
    }
  }

  lemma FewerUndone(live0: map<nat, nat>, cs: seq<nat>, i: nat, live1: map<nat, nat>, live: map<nat, nat>)
    requires i <= |cs| && LiveWith(live0, cs[..i], live1)
    requires if i == 0 then live == live1 else Fewer(live1, cs[0], i, live)
    ensures Undone(live0, cs, i, live)
  {
    forall k: nat ensures UndoneAt(live0, cs, i, live, k) {
      assert LiveAt(live0, cs[..i], live1, k);
      assert i > 0 ==> FewerAt(live1, cs[0], i, live, k);
    }
  }

  /** The loop that frees what a failed call has got. */
  method GiveUp(vmm: PageAllocator, v: nat, i: nat, ghost p0: seq<bool>, ghost live0: map<nat, nat>)
    requires Got(vmm, i, p0, live0)
    requires i > 0 ==> v == AddrOf(Clears(p0)[0])
    modifies vmm`live, vmm.bitmap, vmm.paging`ram
    ensures vmm.Valid() && Undone(live0, Clears(p0), i, vmm.live)
  {
    ghost var live1 := vmm.live;
    if i > 0 {
      Spread(p0, 0, i - 1);
      FreeFrom(vmm, v, Clears(p0)[0], i);
    }
    FewerUndone(live0, Clears(p0), i, live1, vmm.live);
  }

  /** vmm_free_page on n pages in a row, some of which may not be live. */
  method FreeFrom(vmm: PageAllocator, v: nat, ghost start: nat, n: nat)
    requires vmm.Valid() && v == AddrOf(start) && start + n <= vmm.maxPages
    modifies vmm`live, vmm.bitmap, vmm.paging`ram
    ensures vmm.Valid() && Fewer(old(vmm.live), start, n, vmm.live)
  {
    ghost var live0 := vmm.live;
    NoneFewer(live0, start);
    var j := 0;
    while j < n
      invariant j <= n && vmm.Valid() && Fewer(live0, start, j, vmm.live)
    {
      FollowingPage(start, j);
      FreeNext(vmm, v + j * BLOCK, start + j, start, j, live0);
      j := j + 1;
    }
  }

  method FreeNext(vmm: PageAllocator, v: nat, ghost page: nat, ghost start: nat, ghost j: nat,
                  ghost live0: map<nat, nat>)
    requires vmm.Valid() && v == AddrOf(page) && page < vmm.maxPages && page == start + j
    requires Fewer(live0, start, j, vmm.live)
    modifies vmm`live, vmm.bitmap, vmm.paging`ram
    ensures vmm.Valid() && Fewer(live0, start, j + 1, vmm.live)
  {
    OneFewer(live0, start, j, vmm.live, page);
    FreeAt(vmm, v, page);
  }

  lemma FollowingPage(start: nat, j: nat)
    ensures AddrOf(start) + j * BLOCK == AddrOf(start + j)
  {
  }

  method FreeAt(vmm: PageAllocator, v: nat, ghost page: nat)
    requires vmm.Valid() && v == AddrOf(page) && page < vmm.maxPages
    modifies vmm`live, vmm.bitmap, vmm.paging`ram
    ensures vmm.Valid() && vmm.live == old(vmm.live) - {page}
  {
    SlotInside(page);
    PageIndex(page);
    AlignedAddresses(page, 0);
    LiveFreeable(vmm, v, page);
    vmm.FreePage(v);
  }

  /** A page that vmm_free_page does not free was not live. */
  lemma LiveFreeable(vmm: PageAllocator, v: nat, page: nat)
    requires vmm.Valid() && v == AddrOf(page) < WORD && PageAt(v) == page && Aligned(v)
    ensures page in vmm.live ==> vmm.Freeable(v)
    ensures page !in vmm.live ==> vmm.live - {page} == vmm.live
  {
    if page in vmm.live {
      assert Backed(vmm.Pages(), vmm.frames.Used(), vmm.paging.ram, vmm.paging.dir, page, vmm.live[page]);
    }
  }

  /** liballoc_free; -1 for NULL. */
  method LiballocFree(vmm: PageAllocator, ptr: nat, n: nat, ghost start: nat) returns (r: int)
    requires vmm.Valid() && start + n <= vmm.maxPages && (ptr == NULL || ptr == AddrOf(start))
    modifies vmm`live, vmm.bitmap, vmm.paging`ram
    ensures vmm.Valid() && r == if ptr == NULL then -1 else 0
    ensures if ptr == NULL then vmm.live == old(vmm.live) else Fewer(old(vmm.live), start, n, vmm.live)
  {
    if ptr == NULL {
      return -1;
    }
    FreeFrom(vmm, ptr, start, n);
    r := 0;
  }

  // ---- when the hook keeps its promise ----

  /** Taking the i pages from the lowest unmarked one on for those got leaves everything live that
      was, and nothing else, exactly if no marked page lies among them. That is what liballoc_alloc
      does when it fails, and liballoc_free with a block of i pages. */
  lemma {:induction false} UndoneIff(p: seq<bool>, live0: map<nat, nat>, i: nat, live: map<nat, nat>)
    requires 0 < i <= |Clears(p)| && Undone(live0, Clears(p), i, live)
    requires forall k: nat :: k in live0 ==> k < |p| && p[k]
    ensures live == live0 <==> ClearRun(p, Clears(p)[0], i)
  {
    var cs := Clears(p);
    ClearsAre(p);
    ConsecutiveIff(p, i);
    assert forall c :: 0 <= c < i ==> cs[..i][c] == cs[c];
    if ClearRun(p, cs[0], i) {
      forall k: nat ensures (k in live <==> k in live0) && (k in live ==> live[k] == live0[k]) {
        assert UndoneAt(live0, cs, i, live, k);
        if cs[0] <= k < cs[0] + i {
          assert cs[k - cs[0]] == k && cs[..i][k - cs[0]] == k;
        }
      }
    } else {
      var k :| 0 <= k < i && cs[k] != cs[0] + k;
      Spread(p, 0, k);
      Spread(p, k, i - 1);
      var last := cs[i - 1];
      assert cs[..i][i - 1] == last && last in cs;
      assert UndoneAt(live0, cs, i, live, last);
    }
  }

  /** A block from the hook, given back: what was live is again, exactly if no marked page lay
      among the n pages from the lowest unmarked one on. */
  method BorrowAndReturn(vmm: PageAllocator, n: int) returns (v: nat)
    requires vmm.Valid()
    modifies vmm`live, vmm.bitmap, vmm.paging`ram, vmm.frames`usedBlocks, vmm.frames.bitmap
    ensures vmm.Valid()
    ensures v != NULL ==> 0 < n <= |Clears(old(vmm.Pages()))|
    ensures v != NULL ==> (vmm.live == old(vmm.live) <==> ClearRun(old(vmm.Pages()), Clears(old(vmm.Pages()))[0], n))
  {
    ghost var p0, live0 := vmm.Pages(), vmm.live;
    LiveMarked(p0, vmm.frames.Used(), vmm.paging.ram, vmm.paging.dir, live0);
    ghost var got;
    v, got := LiballocAlloc(vmm, n);
    if v != NULL {
      ghost var live1 := vmm.live;
      Spread(p0, 0, n - 1);
      var r := LiballocFree(vmm, v, n, Clears(p0)[0]);
      FewerUndone(live0, Clears(p0), n, live1, vmm.live);
      UndoneIff(p0, live0, n, vmm.live);
    }
  }

  lemma LiveMarked(pages: seq<bool>, used: seq<bool>, ram: Ram, dir: nat, live: map<nat, nat>)
    requires Shaped(ram, dir) && AllBacked(pages, used, ram, dir, live)
    ensures forall k: nat :: k in live ==> k < |pages| && pages[k]
  {
    forall k: nat | k in live ensures k < |pages| && pages[k] {
      assert Backed(pages, used, ram, dir, k, live[k]);
    }
  }

  /** Page 1 is free, page 2 is taken, page 3 is free: two pages are not consecutive. */
  lemma {:induction false} Gap(p: seq<bool>)
    requires p == [true, false, true, false]
    ensures Clears(p) == [1, 3] && !ClearRun(p, 1, 2)
  {
    assert p[..3] == [true, false, true] && p[..3][..2] == [true, false] && p[..3][..2][..1] == [true];
    assert p[..3][..2][..1][..0] == [];
    assert Clears([true]) == Clears([]);
    assert Clears([true, false]) == [1];
    assert p[2];
  }
}
