/** realloc and its copy loop, over the bytes behind the tags; and arbitrary runs of a client. */
module HeapBytes {
  import opened Words
  import opened HeapSizes
  import opened Heap
  import opened HeapLaws

  newtype byte = x: int | 0 <= x < 256

  /** The bytes of the address space. Headers are kept apart, as tags. */
  class Memory {
    const ram: array<byte>

    constructor ()
      ensures fresh(ram) && ram.Length == WORD
    {
      ram := new byte[WORD](_ => 0);
    }

    ghost function Bytes(at: nat, n: nat): (r: seq<byte>)
      requires at + n <= ram.Length
      reads ram
    {
      ram[at..at + n]
    }

    /** Bytes outside [at, at + n) are as they were. */
    twostate predicate OnlyAt(new at: nat, new n: nat)
      reads ram
    {
      forall i :: 0 <= i < ram.Length && !(at <= i < at + n) ==> ram[i] == old(ram[i])
    }

    method CopyWords(dst: nat, src: nat, n: nat) returns (left: nat)
      requires dst + n <= ram.Length && src + n <= ram.Length && Apart(dst, n, src, n)
      modifies ram
      ensures left < 4 && left <= n && OnlyAt(dst, n - left)
      ensures forall i :: dst <= i < dst + n - left ==> ram[i] == old(ram[src + (i - dst)])
    {
      var d, s := dst, src;
      left := n;
      while left >= 4
        invariant left <= n && d == dst + (n - left) && s == src + (n - left)
        invariant forall i :: dst <= i < d ==> ram[i] == old(ram[src + (i - dst)])
        invariant OnlyAt(dst, n - left)
      {
        ram[d], ram[d + 1], ram[d + 2], ram[d + 3] := ram[s], ram[s + 1], ram[s + 2], ram[s + 3];
        d, s, left := d + 4, s + 4, left - 4;
      }
    }

    method CopyBytes(dst: nat, src: nat, n: nat)
      requires dst + n <= ram.Length && src + n <= ram.Length && Apart(dst, n, src, n)
      modifies ram
      ensures OnlyAt(dst, n)
      ensures forall i :: dst <= i < dst + n ==> ram[i] == old(ram[src + (i - dst)])
    {
      var d, s, left := dst, src, n;
      while left > 0
        invariant 0 <= left <= n && d == dst + (n - left) && s == src + (n - left)
        invariant forall i :: dst <= i < d ==> ram[i] == old(ram[src + (i - dst)])
        invariant OnlyAt(dst, n - left)
      {
        ram[d] := ram[s];
        d, s, left := d + 1, s + 1, left - 1;
      }
    }

    /** liballoc_memcpy between disjoint ranges: words first, then single bytes. */
    method Copy(dst: nat, src: nat, n: nat)
      requires dst + n <= ram.Length && src + n <= ram.Length && Apart(dst, n, src, n)
      modifies ram
      ensures Bytes(dst, n) == old(Bytes(src, n))
      ensures forall at: nat, k: nat {:trigger Bytes(at, k)} :: at + k <= ram.Length && Apart(dst, n, at, k) ==>
        Bytes(at, k) == old(Bytes(at, k))
    {
      var left := CopyWords(dst, src, n);
      CopyBytes(dst + (n - left), src + (n - left), left);
    }
  }

  /** What the client stored in its allocation. */
  ghost function Contents(m: Memory, p: Tag): (r: seq<byte>)
    requires m.ram.Length == WORD && p.addr + HEADER + p.size <= WORD
    reads m.ram, p`size
  {
    m.Bytes(p.addr + HEADER, p.size)
  }

  lemma LiveInRam(h: Allocator, p: Tag)
    requires h.Valid() && p in h.Live()
    ensures KERNEL_BASE < p.addr + HEADER && p.addr + HEADER + p.size <= WORD
  {
    assert h.ChainAt(p);
    assert h.BinnedAt(p);
  }

  /** t ends inside the address space, as every live allocation does. */
  predicate InRam(t: Tag)
    reads t`size
  {
    t.addr + HEADER + t.size <= WORD
  }

  lemma FirstBytes(m: Memory, t: Tag, n: nat)
    requires m.ram.Length == WORD && InRam(t) && n <= t.size
    ensures Contents(m, t)[..n] == m.Bytes(t.addr + HEADER, n)
  {
  }

  /** The copy in realloc: into the new allocation, or to address 0 when malloc failed. */
  method CopyOver(h: Allocator, m: Memory, p: Tag, r: Tag?, size: nat)
    requires h.Valid() && m.ram.Length == WORD && p in h.Live()
      && (r != null ==> r in h.Live() && r != p && r.size == size)
    modifies m.ram
    ensures InRam(p) && (r != null ==> InRam(r))
    ensures r != null ==> Contents(m, r)[..Least(p.size, size)] == old(Contents(m, p)[..Least(p.size, size)])
    ensures forall t <- h.Live() :: t != r && InRam(t) ==> Contents(m, t) == old(Contents(m, t))
  {
    LiveInRam(h, p);
    var n := Least(p.size, size);
    var dst := if r == null then 0 else r.addr + HEADER;
    if r != null {
      LiveInRam(h, r);
      LiveRangesDisjoint(h, p, r);
    }
    FirstBytes(m, p, n);
    m.Copy(dst, p.addr + HEADER, n);
    if r != null {
      FirstBytes(m, r, n);
    }
    forall t <- h.Live() | t != r && InRam(t) ensures Contents(m, t) == old(Contents(m, t)) {
      LiveInRam(h, t);
      if r != null {
        LiveRangesDisjoint(h, r, t);
      }
      assert Apart(dst, n, t.addr + HEADER, t.size);
    }
  }

  /** The bytes of all live allocations bar x are as they were. */
  twostate predicate ContentsKept(h: Allocator, m: Memory, new x: Tag?)
    requires m.ram.Length == WORD
    reads h`tags, h.tags`index, h.tags`size, m.ram
  {
    forall t <- h.Live() :: t != x ==>
      t in old(h.tags) && t in old(h.Live()) && t.size == old(t.size)
        && (InRam(t) ==> Contents(m, t) == old(Contents(m, t)))
  }

  /** The first two steps of realloc: a new allocation, and the copy into it. */
  method Duplicate(h: Allocator, m: Memory, p: Tag, size: nat, offer: nat) returns (r: Tag?)
    requires h.Valid() && m.ram.Length == WORD && size < WORD - HEADER && p in h.Live()
    requires offer == 0 || h.pages.CanLend(offer, PagesFor(size))
    modifies h.pages`lent, h, h.freePages, h.completePages, h.tags, m.ram
    ensures h.Valid() && p in h.Live()
    ensures h.Live() == old(h.Live()) + (if r == null then {} else {r})
    ensures forall t <- h.tags :: t in old(h.tags) || fresh(t)
    ensures r == null <==> offer == 0 && old(!h.Available(size))
    ensures r != null ==> r !in old(h.Live()) && r.size == size && InRam(r)
    ensures old(InRam(p))
    ensures r != null ==> Contents(m, r)[..Least(old(p.size), size)] == old(Contents(m, p)[..Least(p.size, size)])
    ensures ContentsKept(h, m, r)
  {
    LiveInRam(h, p);
    r := h.Malloc(size, offer);
    CopyOver(h, m, p, r, size);
  }

  /** realloc on a live allocation and a size other than 0. */
  method Move(h: Allocator, m: Memory, p: Tag, size: nat, offer: nat) returns (r: Tag?)
    requires h.Valid() && m.ram.Length == WORD && size < WORD - HEADER && p in h.Live()
    requires offer == 0 || h.pages.CanLend(offer, PagesFor(size))
    modifies h.pages`lent, h, h.freePages, h.completePages, h.tags, m.ram
    ensures h.Valid()
    ensures h.Live() == old(h.Live()) - {p} + (if r == null then {} else {r})
    ensures forall t <- h.tags :: t in old(h.tags) || fresh(t)
    ensures r == null <==> offer == 0 && old(!h.Available(size))
    ensures r != null ==> r !in old(h.Live()) && r.size == size && InRam(r)
    ensures old(InRam(p))
    ensures r != null ==> Contents(m, r)[..Least(old(p.size), size)] == old(Contents(m, p)[..Least(p.size, size)])
    ensures ContentsKept(h, m, r)
  {
    r := Duplicate(h, m, p, size, offer);
    h.Free(p);
  }

  /** realloc. When malloc succeeds, the bytes both sizes have in common are kept; when it
      fails, the old allocation is nevertheless freed. */
  method Realloc(h: Allocator, m: Memory, p: Tag?, size: nat, offer: nat) returns (r: Tag?)
    requires h.Valid() && m.ram.Length == WORD && size < WORD - HEADER && (p != null ==> p in h.Live())
    requires offer == 0 || h.pages.CanLend(offer, PagesFor(size))
    modifies h.pages`lent, h, h.freePages, h.completePages, h.tags, m.ram
    ensures h.Valid()
    ensures r == null <==> size == 0 || (offer == 0 && old(!h.Available(size)))
    ensures h.Live() == (if p == null then old(h.Live()) else old(h.Live()) - {p}) + (if r == null then {} else {r})
    ensures forall t <- h.tags :: t in old(h.tags) || fresh(t)
    ensures r != null ==> r !in old(h.Live()) && r.size == size && InRam(r)
    ensures p != null ==> old(InRam(p))
    ensures p != null && r != null ==>
      Contents(m, r)[..Least(old(p.size), size)] == old(Contents(m, p)[..Least(p.size, size)])
    ensures ContentsKept(h, m, r)
  {
    if p != null {
      LiveInRam(h, p);
    }
    if size == 0 {
      h.Free(p);
      return null;
    }
    if p == null {
      r := h.Malloc(size, offer);
      if r != null {
        LiveInRam(h, r);
      }
      return;
    }
    r := Move(h, m, p, size, offer);
  }
}
