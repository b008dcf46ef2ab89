/** The physical frame allocator: a bitmap, a count of used frames and a next-fit cursor. */
module Frames {
  import opened Words
  import opened Bits

  const BLOCK: nat := 4096
  const NULL: nat := 0

  /** Lengths are rounded up to whole blocks in 32-bit arithmetic. */
  function BlocksIn(size: nat): (r: nat) {
    (size + BLOCK - 1) % WORD / BLOCK
  }

  function AlignUp(addr: nat): (r: nat) {
    var a := (addr + BLOCK - 1) % WORD;
    a - a % BLOCK
  }

  /** Rounding an address up to a block wraps to 0 exactly above the last block. */
  lemma AlignUpCovers(addr: nat)
    requires addr < WORD
    ensures addr <= AlignUp(addr) < addr + BLOCK <==> addr <= WORD - BLOCK
    ensures addr > WORD - BLOCK ==> AlignUp(addr) == 0
  {
    if addr > WORD - BLOCK {
      assert (addr + BLOCK - 1) % WORD == addr + BLOCK - 1 - WORD;
    }
  }

  /** Frames past the last whole byte of the bitmap are never considered one by one. */
  function Seen(n: nat): (m: nat)
    ensures m <= n
  {
    n / 8 * 8
  }

  /** How many frames pmm_alloc_block can still hand out. */
  function FreeSeen(u: seq<bool>): (n: nat) {
    CountBound(u[..Seen(|u|)]);
    Seen(|u|) - Count(u[..Seen(|u|)])
  }

  /** None exactly if every frame of the whole bytes is in use. */
  lemma {:induction false} NoneSeen(u: seq<bool>)
    ensures FreeSeen(u) == 0 <==> forall i: nat :: i < Seen(|u|) ==> u[i]
  {
    CountBound(u[..Seen(|u|)]);
  }

  lemma {:induction false} OneTaken(u: seq<bool>, f: nat)
    requires f < Seen(|u|) && !u[f]
    ensures FreeSeen(u[f := true]) == FreeSeen(u) - 1
  {
    CountUpdate(u[..Seen(|u|)], f, true);
    assert u[f := true][..Seen(|u|)] == u[..Seen(|u|)][f := true];
  }

  /** n frames in a row are free from `start` on, with start in [from, to). */
  predicate RunAt(u: seq<bool>, start: nat, n: nat, from: nat, to: nat) {
    from <= start && start + n <= to <= |u| && ClearRun(u, start, n)
  }

  /** `start` is the lowest run of n free frames within [from, to). */
  ghost predicate FirstRun(u: seq<bool>, start: nat, n: nat, from: nat, to: nat) {
    RunAt(u, start, n, from, to) && forall s: nat :: RunAt(u, s, n, from, to) ==> start <= s
  }

  ghost predicate NoRun(u: seq<bool>, n: nat, from: nat, to: nat) {
    forall s: nat :: !RunAt(u, s, n, from, to)
  }

  /** The last `run` frames before `block` are free, and no more of those from `from` on. */
  ghost predicate Trailing(u: seq<bool>, from: nat, block: nat, run: nat) {
    && run <= block - from && block <= |u| && ClearRun(u, block - run, run)
    && (block - run == from || u[block - run - 1])
  }

  /** The next-fit cursor starts over behind the last frame. */
  function Cyclic(block: nat, max: nat): (r: nat)
    requires 0 < max
    ensures r < max
  {
    block % max
  }

  /** The lowest run from the cursor on or, if there is none, from frame 0 on. */
  ghost predicate NextFit(u: seq<bool>, last: nat, start: nat, n: nat) {
    if NoRun(u, n, last, |u|) then FirstRun(u, start, n, 0, |u|) else FirstRun(u, start, n, last, |u|)
  }

  lemma NextFitClear(u: seq<bool>, last: nat, start: nat, n: nat)
    requires NextFit(u, last, start, n)
    ensures ClearRun(u, start, n)
  {
  }

  lemma BlockAddress(b: nat)
    ensures b * BLOCK / BLOCK == b && b * BLOCK % BLOCK == 0
  {
  }

  lemma TrailingStep(u: seq<bool>, from: nat, block: nat, run: nat)
    requires from <= block < |u| && Trailing(u, from, block, run)
    ensures Trailing(u, from, block + 1, if u[block] then 0 else run + 1)
  {
  }

  lemma NoRunStep(u: seq<bool>, n: nat, from: nat, block: nat, run: nat)
    requires from <= block < |u| && NoRun(u, n, from, block) && run < n
    requires Trailing(u, from, block + 1, run)
    ensures NoRun(u, n, from, block + 1)
  {
    var next := block + 1;
    forall s: nat ensures !RunAt(u, s, n, from, next) {
      assert RunAt(u, s, n, from, next) ==> s + n == next || RunAt(u, s, n, from, block);
    }
  }

  lemma FirstRunFound(u: seq<bool>, n: nat, from: nat, block: nat, start: nat, end: nat)
    requires from <= block < end <= |u| && NoRun(u, n, from, block) && start + n == block + 1
      && RunAt(u, start, n, from, block + 1)
    ensures FirstRun(u, start, n, from, end)
  {
    forall s: nat | RunAt(u, s, n, from, end) ensures start <= s {
      assert s + n <= block ==> RunAt(u, s, n, from, block);
    }
  }

  /** The scan of [lo, top) is at `block`, behind `run` free frames from `first` on. */
  ghost predicate Scanned(u: seq<bool>, n: nat, lo: nat, top: nat, block: nat, run: nat, first: nat) {
    && lo <= block && run < n && top <= |u|
    && (block <= top ==> Trailing(u, lo, block, run) && (run > 0 ==> first == block - run))
    && NoRun(u, n, lo, if block < top then block else top)
    && (block > top ==> run == 0)
  }

  lemma ScannedFree(u: seq<bool>, n: nat, lo: nat, top: nat, block: nat, run: nat, first: nat)
    requires Scanned(u, n, lo, top, block, run, first) && block < top && !u[block]
    ensures var start := if run == 0 then block else first;
      if run + 1 == n then FirstRun(u, start, n, lo, top) else Scanned(u, n, lo, top, block + 1, run + 1, start)
  {
    TrailingStep(u, lo, block, run);
    if run + 1 == n {
      FirstRunFound(u, n, lo, block, if run == 0 then block else first, top);
    } else {
      NoRunStep(u, n, lo, block, run + 1);
    }
  }

  lemma FoundNone(u: seq<bool>, n: nat, lo: nat, top: nat, block: nat, run: nat, first: nat)
    requires Scanned(u, n, lo, top, block, run, first) && block >= top
    ensures NoRun(u, n, lo, top)
  {
  }

  lemma ScannedUsed(u: seq<bool>, n: nat, lo: nat, top: nat, block: nat, run: nat, first: nat)
    requires Scanned(u, n, lo, top, block, run, first) && (block < top ==> u[block])
    ensures Scanned(u, n, lo, top, block + 1, 0, first)
  {
    if block < top {
      TrailingStep(u, lo, block, run);
      NoRunStep(u, n, lo, block, 0);
    }
  }

  class FrameAllocator {
    const bitmap: array<bv8>      // pmm_memory_map
    const maxBlocks: nat
    var usedBlocks: nat
    var lastAlloc: nat

    /** Which frames are in use. */
    ghost function Used(): (u: seq<bool>)
      requires maxBlocks <= 8 * bitmap.Length
      reads bitmap
      ensures |u| == maxBlocks
    {
      Flags(bitmap[..], maxBlocks)
    }

    /** The counter is the number of set bits. */
    ghost predicate Sound()
      reads this, bitmap
    {
      && 0 < maxBlocks <= 8 * bitmap.Length && maxBlocks <= WORD / BLOCK
      && usedBlocks == Count(Used()) && lastAlloc < maxBlocks
    }

    /** Besides, frame 0 is never free, so that no frame's address is NULL. */
    ghost predicate Valid()
      reads this, bitmap
    {
      Sound() && Used()[0]
    }

    /** First part of pmm_init: an empty bitmap. A memory size whose rounding up wraps
        around would leave no frames at all. */
    constructor (memSize: nat)
      requires 0 < memSize <= WORD - BLOCK
      ensures Sound() && maxBlocks == BlocksIn(memSize) && lastAlloc == 0 && fresh(bitmap)
      ensures Used() == seq(maxBlocks, _ => false)
    {
      maxBlocks := BlocksIn(memSize);
      usedBlocks, lastAlloc := 0, 0;
      bitmap := new bv8[(BlocksIn(memSize) + 7) / 8](_ => 0);
      new;
      CountNone(Used());
    }

    /** Second part: low memory, the kernel image and the bitmap itself are in use. */
    method Reserve(kernelStart: nat, kernelSize: nat, bitmapAddr: nat)
      requires Sound() && kernelStart < WORD && kernelSize < WORD && bitmapAddr < WORD
      modifies bitmap, `usedBlocks
      ensures Valid()
      ensures var low := Marked(old(Used()), 0, 256, true);
        var kernel := Marked(low, kernelStart / BLOCK, BlocksIn(kernelSize), true);
        Used() == Marked(kernel, bitmapAddr / BLOCK, BlocksIn(maxBlocks / 8), true)
    {
      assert BlocksIn(0x100000) == 256;
      MarkUsedRegion(0, 0x100000);
      MarkUsedRegion(kernelStart, kernelSize);
      MarkUsedRegion(bitmapAddr, maxBlocks / 8);
    }

    method IsBlockFree(block: nat) returns (free: bool)
      requires Valid()
      ensures free <==> block < maxBlocks && !Used()[block]
    {
      if block >= maxBlocks {
        return false;
      }
      var used := TestBit(bitmap, block, maxBlocks);
      free := !used;
    }

    /** Sets the bit of one frame that was free. */
    method MarkBlockUsed(block: nat)
      requires 0 < maxBlocks <= 8 * bitmap.Length && block < maxBlocks && !Used()[block] && usedBlocks == Count(Used())
      modifies bitmap, `usedBlocks
      ensures Used() == old(Used())[block := true] && usedBlocks == Count(Used()) == old(usedBlocks) + 1
    {
      CountUpdate(Used(), block, true);
      SetBit(bitmap, block, maxBlocks);
      usedBlocks := usedBlocks + 1;
    }

    method MarkBlockUnused(block: nat)
      requires 0 < maxBlocks <= 8 * bitmap.Length && block < maxBlocks && Used()[block] && usedBlocks == Count(Used())
      modifies bitmap, `usedBlocks
      ensures Used() == old(Used())[block := false] && usedBlocks == Count(Used()) == old(usedBlocks) - 1
    {
      CountUpdate(Used(), block, false);
      CountBound(Used());
      ClearBit(bitmap, block, maxBlocks);
      usedBlocks := usedBlocks - 1;
    }

    /** pmm_mark_used_region: every frame the region touches by its length is in use. */
    method MarkUsedRegion(base: nat, size: nat)
      requires Sound() && base < WORD && size < WORD
      modifies bitmap, `usedBlocks
      ensures Sound() && Used() == Marked(old(Used()), base / BLOCK, BlocksIn(size), true)
    {
      UseSpan(base / BLOCK, BlocksIn(size));
    }

    method UseSpan(start: nat, num: nat)
      requires Sound()
      modifies bitmap, `usedBlocks
      ensures Sound() && Used() == Marked(old(Used()), start, num, true)
    {
      var i := 0;
      MarkedStep(Used(), start, 0, true);
      while i < num
        invariant i <= num && Sound()
        invariant Used() == Marked(old(Used()), start, i, true)
      {
        var block := start + i;
        MarkedStep(old(Used()), start, i, true);
        if block >= maxBlocks {
          break;
        }
        var used := TestBit(bitmap, block, maxBlocks);
        if !used {
          MarkBlockUsed(block);
        }
        i := i + 1;
      }
    }

    /** pmm_mark_unused_region, which must not reach frame 0. */
    method MarkUnusedRegion(base: nat, size: nat)
      requires Valid() && BLOCK <= base < WORD && size < WORD
      modifies bitmap, `usedBlocks
      ensures Valid() && Used() == Marked(old(Used()), base / BLOCK, BlocksIn(size), false)
    {
      FreeSpan(base / BLOCK, BlocksIn(size));
    }

    method FreeSpan(start: nat, num: nat)
      requires Valid() && 0 < start
      modifies bitmap, `usedBlocks
      ensures Valid() && Used() == Marked(old(Used()), start, num, false)
    {
      var i := 0;
      MarkedStep(Used(), start, 0, false);
      while i < num
        invariant i <= num && Valid()
        invariant Used() == Marked(old(Used()), start, i, false)
      {
        var block := start + i;
        MarkedStep(old(Used()), start, i, false);
        if block >= maxBlocks {
          break;
        }
        FreeOne(block);
        i := i + 1;
      }
    }

    method FreeOne(block: nat)
      requires Valid() && 0 < block < maxBlocks
      modifies bitmap, `usedBlocks
      ensures Valid() && Used() == old(Used())[block := false]
    {
      var used := TestBit(bitmap, block, maxBlocks);
      if used {
        MarkBlockUnused(block);
      }
    }

    /** The lowest free frame the byte-wise search of pmm_alloc_block can see. */
    ghost predicate LowestSeen(b: nat)
      requires maxBlocks <= 8 * bitmap.Length
      reads bitmap
    {
      && b < SeenBlocks() && !Used()[b]
      && (forall i :: 0 <= i < b ==> Used()[i])
    }

    function SeenBlocks(): (r: nat) {
      Seen(maxBlocks)
    }

    /** The lowest clear bit of one byte, 8 when there is none. */
    method ClearBitOf(byte: nat) returns (bit: nat)
      requires Valid() && byte < maxBlocks / 8
      ensures bit <= 8 && (forall i :: 8 * byte <= i < 8 * byte + bit ==> Used()[i])
      ensures bit < 8 ==> !Used()[8 * byte + bit]
    {
      if bitmap[byte] == 0xFF {
        FullByteFlags(bitmap[..], byte, maxBlocks);
        return 8;
      }
      bit := 0;
      while bit < 8
        invariant bit <= 8
        invariant forall i :: 8 * byte <= i < 8 * byte + bit ==> Used()[i]
      {
        var used := TestBit(bitmap, byte * 8 + bit, maxBlocks);
        if !used {
          return;
        }
        bit := bit + 1;
      }
    }

    /** The search of pmm_alloc_block, byte by byte; -1 when every whole byte is full. */
    method FindFreeBlock() returns (block: int)
      requires Valid()
      ensures block >= 0 ==> LowestSeen(block)
      ensures block < 0 ==> block == -1 && forall i :: 0 <= i < SeenBlocks() ==> Used()[i]
    {
      var byte := 0;
      while byte < maxBlocks / 8
        invariant byte <= maxBlocks / 8
        invariant forall i :: 0 <= i < 8 * byte ==> Used()[i]
      {
        var bit := ClearBitOf(byte);
        if bit < 8 {
          return byte * 8 + bit;
        }
        byte := byte + 1;
      }
      return -1;
    }

    /** pmm_alloc_block: NULL exactly if no frame is left that the search can see. */
    method AllocBlock() returns (p: nat)
      requires Valid()
      modifies bitmap, `usedBlocks
      ensures Valid() && (p == NULL <==> old(FreeSeen(Used())) == 0)
      ensures p != NULL ==> FreeSeen(Used()) == old(FreeSeen(Used())) - 1
      ensures p == NULL ==> Used() == old(Used()) && forall i :: 0 <= i < SeenBlocks() ==> Used()[i]
      ensures p != NULL ==>
        p % BLOCK == 0 && p < WORD && old(LowestSeen(p / BLOCK)) && Used() == old(Used())[p / BLOCK := true]
    {
      NoneSeen(Used());
      if usedBlocks >= maxBlocks {
        CountBound(Used());
        return NULL;
      }
      var block := FindFreeBlock();
      if block < 0 {
        return NULL;
      }
      OneTaken(Used(), block);
      MarkBlockUsed(block);
      p := block * BLOCK;
      assert p / BLOCK == block;
    }

    /** First fit over all frames; -1 when no run of n free frames exists. */
    method FindContiguousFreeBlocks(n: nat) returns (start: int)
      requires Valid() && 0 < n
      ensures start < 0 ==> NoRun(Used(), n, 0, maxBlocks)
      ensures start >= 0 ==> FirstRun(Used(), start, n, 0, maxBlocks)
    {
      var i := 0;
      while i < maxBlocks
        invariant i <= maxBlocks
        invariant forall s: nat :: s < i ==> !RunAt(Used(), s, n, 0, maxBlocks)
      {
        var free := IsBlockFree(i);
        if free {
          var j := 0;
          while j < n
            invariant j <= n && ClearRun(Used(), i, j)
          {
            if i + j >= maxBlocks {
              break;
            }
            var next := IsBlockFree(i + j);
            if !next {
              break;
            }
            j := j + 1;
          }
          if j == n {
            return i;
          }
        }
        i := i + 1;
      }
      return -1;
    }

    /** Takes the run of free frames that starts at `start`. */
    method MarkRun(start: nat, n: nat)
      requires 0 < maxBlocks <= 8 * bitmap.Length && usedBlocks == Count(Used()) && ClearRun(Used(), start, n)
      modifies bitmap, `usedBlocks
      ensures Used() == Marked(old(Used()), start, n, true)
      ensures usedBlocks == Count(Used()) == old(usedBlocks) + n
    {
      var i := 0;
      MarkedStep(Used(), start, 0, true);
      while i < n
        invariant i <= n && Used() == Marked(old(Used()), start, i, true)
        invariant usedBlocks == Count(Used()) == old(usedBlocks) + i
      {
        MarkedStep(old(Used()), start, i, true);
        MarkBlockUsed(start + i);
        i := i + 1;
      }
    }

    method AllocContiguous(n: nat) returns (p: nat)
      requires Valid()
      modifies bitmap, `usedBlocks
      ensures Valid()
      ensures p == NULL <==> n == 0 || old(NoRun(Used(), n, 0, maxBlocks))
      ensures p == NULL ==> Used() == old(Used())
      ensures p != NULL ==> p % BLOCK == 0 && p < WORD && old(FirstRun(Used(), p / BLOCK, n, 0, maxBlocks))
      ensures p != NULL ==> Used() == Marked(old(Used()), p / BLOCK, n, true) && usedBlocks == old(usedBlocks) + n
    {
      if n == 0 || n > maxBlocks {
        return NULL;
      }
      var start := FindContiguousFreeBlocks(n);
      if start < 0 {
        return NULL;
      }
      p := TakeRun(start, n);
    }

    method AllUsed(block: nat, n: nat) returns (all: bool)
      requires Valid() && block + n <= maxBlocks
      ensures all <==> SetRun(Used(), block, n)
    {
      var i := 0;
      while i < n
        invariant i <= n && SetRun(Used(), block, i)
      {
        var free := IsBlockFree(block + i);
        if free {
          return false;
        }
        i := i + 1;
      }
      return true;
    }

    /** pmm_free_contiguous: all of the run or, when any of it is free or out of range, none.
        The caller's range must not wrap around, nor start inside frame 0. */
    method FreeContiguous(p: nat, n: nat)
      requires Valid() && p < WORD && p / BLOCK + n < WORD && (p == NULL || BLOCK <= p)
      modifies bitmap, `usedBlocks
      ensures Valid()
      ensures Used() == if p != NULL && SetRun(old(Used()), p / BLOCK, n)
        then Marked(old(Used()), p / BLOCK, n, false) else old(Used())
    {
      MarkedStep(Used(), p / BLOCK, 0, false);
      if p == NULL || n == 0 {
        return;
      }
      var block := p / BLOCK;
      if block + n > maxBlocks {
        return;
      }
      var all := AllUsed(block, n);
      if !all {
        return;
      }
      var i := 0;
      while i < n
        invariant i <= n && Valid() && Used() == Marked(old(Used()), block, i, false)
      {
        MarkedStep(old(Used()), block, i, false);
        MarkBlockUnused(block + i);
        i := i + 1;
      }
    }

    /** pmm_free_block: the unbraced test at its head returns on every path. */
    method FreeBlock(p: nat)
    {
      return;
    }

    /** pmm_free_blocks frees frame by frame, hence not at all. */
    method FreeBlocks(p: nat, n: int)
      requires Valid() && p < WORD
      ensures Used() == old(Used()) && usedBlocks == old(usedBlocks)
    {
      if p == NULL || n <= 0 {
        return;
      }
      if p / BLOCK + n > maxBlocks {
        return;
      }
      for i := 0 to n {
        FreeBlock(p + i * BLOCK);
      }
    }

    // ---- next fit ----

    /** One pass of next fit from `from` on. `run0` frames in a row were free just before
        the pass; they never count, because the pass then starts at a frame in use. */
    method Pass(from: nat, n: nat, run0: nat, first0: nat) returns (run: nat, first: nat)
      requires Valid() && 0 < n && from <= maxBlocks && run0 < n && (run0 == 0 || (from < maxBlocks && Used()[from]))
      ensures run <= n
      ensures run == n ==> FirstRun(Used(), first, n, from, maxBlocks)
      ensures run < n ==> NoRun(Used(), n, from, maxBlocks)
    {
      run, first := run0, first0;
      var block := from;
      while block < maxBlocks
        invariant from <= block <= maxBlocks && run < n && (block == from ==> run == run0)
        invariant Scanned(Used(), n, from, maxBlocks, block, if block == from then 0 else run, first)
      {
        run, first := ScanStep(n, from, maxBlocks, block, run, first, block == from);
        if run == n {
          return;
        }
        block := block + 1;
      }
      FoundNone(Used(), n, from, maxBlocks, block, if block == from then 0 else run, first);
    }

    lemma NoRoomNoRun(n: nat)
      requires Valid() && usedBlocks + n > maxBlocks
      ensures NoRun(Used(), n, 0, maxBlocks)
    {
      var end := maxBlocks;
      forall s: nat ensures !RunAt(Used(), s, n, 0, end) {
        if RunAt(Used(), s, n, 0, end) {
          ClearRunFits(Used(), s, n);
        }
      }
    }

    /** The two passes of next fit, the second one from frame 0. */
    method TwoPasses(n: nat) returns (start: int)
      requires Valid() && 0 < n <= maxBlocks
      ensures start < 0 <==> NoRun(Used(), n, 0, maxBlocks)
      ensures start >= 0 ==> NextFit(Used(), lastAlloc, start, n)
    {
      var run: nat, first: nat, from, tries := 0, 0, lastAlloc, 0;
      while tries < 2
        invariant 0 <= tries <= 2 && run < n
        invariant from == if tries == 0 then lastAlloc else 0
        invariant tries == 0 ==> run == 0
        invariant tries >= 1 ==> NoRun(Used(), n, lastAlloc, maxBlocks)
        invariant tries == 2 ==> NoRun(Used(), n, 0, maxBlocks)
      {
        run, first := Pass(from, n, run, first);
        if run == n {
          ghost var end := maxBlocks;
          assert RunAt(Used(), first, n, from, end) && RunAt(Used(), first, n, 0, end);
          return first;
        }
        from := 0;
        tries := tries + 1;
      }
      return -1;
    }

    /** Marks a free run and answers its address. */
    method TakeRun(start: nat, n: nat) returns (p: nat)
      requires Valid() && 0 < n && ClearRun(Used(), start, n)
      modifies bitmap, `usedBlocks
      ensures Valid() && Used() == Marked(old(Used()), start, n, true) && usedBlocks == old(usedBlocks) + n
      ensures p != NULL && p % BLOCK == 0 && p < WORD && p / BLOCK == start
    {
      assert !Used()[start];
      MarkRun(start, n);
      p := start * BLOCK;
      BlockAddress(start);
    }

    method AllocBlocks(n: nat) returns (p: nat)
      requires Valid()
      modifies bitmap, `usedBlocks, `lastAlloc
      ensures Valid()
      ensures p == NULL <==> n == 0 || old(NoRun(Used(), n, 0, maxBlocks))
      ensures p == NULL ==> Used() == old(Used()) && lastAlloc == old(lastAlloc)
      ensures p != NULL ==> p % BLOCK == 0 && p < WORD && NextFit(old(Used()), old(lastAlloc), p / BLOCK, n)
      ensures p != NULL ==>
        Used() == Marked(old(Used()), p / BLOCK, n, true) && lastAlloc == Cyclic(p / BLOCK + n, maxBlocks)
    {
      var start := SearchNextFit(n);
      if start < 0 {
        return NULL;
      }
      NextFitClear(Used(), lastAlloc, start, n);
      p := TakeRun(start, n);
      lastAlloc := Cyclic(start + n, maxBlocks);
    }

    /** Its search, after the test that so many frames are free at all. */
    method SearchNextFit(n: nat) returns (start: int)
      requires Valid()
      ensures start < 0 <==> n == 0 || NoRun(Used(), n, 0, maxBlocks)
      ensures start >= 0 ==> NextFit(Used(), lastAlloc, start, n)
    {
      if n == 0 {
        return -1;
      }
      if n > maxBlocks || usedBlocks + n > maxBlocks {
        NoRoomNoRun(n);
        return -1;
      }
      start := TwoPasses(n);
    }

    /** pmm_alloc_blocks_in_range over the blocks from `first` up to `last`. */
    method AllocBlocksInRange(n: nat, startAddr: nat, endAddr: nat) returns (p: nat)
      requires Valid() && startAddr < WORD && endAddr < WORD
      modifies bitmap, `usedBlocks
      ensures Valid()
      ensures var lo, hi := AlignUp(startAddr) / BLOCK, endAddr / BLOCK;
        && (p == NULL <==>
          n == 0 || startAddr >= endAddr || old(NoRun(Used(), n, lo, if hi < maxBlocks then hi else maxBlocks)))
        && (p == NULL ==> Used() == old(Used()))
        && (p != NULL ==>
            && p % BLOCK == 0 && p < WORD
              && old(FirstRun(Used(), p / BLOCK, n, lo, if hi < maxBlocks then hi else maxBlocks))
            && Used() == Marked(old(Used()), p / BLOCK, n, true) && usedBlocks == old(usedBlocks) + n)
    {
      if n == 0 || startAddr >= endAddr {
        return NULL;
      }
      var lo, hi := AlignUp(startAddr) / BLOCK, endAddr / BLOCK;
      var start := ScanRange(n, lo, hi);
      if start < 0 {
        return NULL;
      }
      p := TakeRun(start, n);
    }

    /** The search of pmm_alloc_blocks_in_range; frames past the last one read as in use. */
    method ScanRange(n: nat, lo: nat, hi: nat) returns (start: int)
      requires Valid() && 0 < n
      ensures var top := if hi < maxBlocks then hi else maxBlocks;
        && (start < 0 ==> NoRun(Used(), n, lo, top))
        && (start >= 0 ==> FirstRun(Used(), start, n, lo, top))
    {
      ghost var top := if hi < maxBlocks then hi else maxBlocks;
      var run: nat, first: nat, block := 0, 0, lo;
      while block < hi
        invariant (block <= hi || lo > hi) && Scanned(Used(), n, lo, top, block, run, first)
      {
        run, first := ScanStep(n, lo, top, block, run, first, false);
        if run == n {
          return first;
        }
        block := block + 1;
      }
      FoundNone(Used(), n, lo, top, block, run, first);
      return -1;
    }

    /** One frame of a scan. A run counted before the scan began ends here, at a frame in use. */
    method ScanStep(n: nat, ghost lo: nat, ghost top: nat, block: nat, run: nat, first: nat,
                    ghost stale: bool) returns (run1: nat, first1: nat)
      requires Valid() && Scanned(Used(), n, lo, top, block, if stale then 0 else run, first)
        && (block < top <==> block < maxBlocks)
      requires stale && run > 0 ==> block < maxBlocks && Used()[block]
      ensures if run1 == n then FirstRun(Used(), first1, n, lo, top)
        else Scanned(Used(), n, lo, top, block + 1, run1, first1)
    {
      run1, first1 := run, first;
      var free := IsBlockFree(block);
      if free {
        ScannedFree(Used(), n, lo, top, block, run, first);
        if run == 0 {
          first1 := block;
        }
        run1 := run + 1;
      } else {
        ScannedUsed(Used(), n, lo, top, block, if stale then 0 else run, first);
        run1 := 0;
      }
    }

    /** Freeing what was just allocated restores bitmap and counter. */
    method AllocAndFree(n: nat) returns (p: nat)
      requires Valid()
      modifies bitmap, `usedBlocks
      ensures Valid() && Used() == old(Used()) && usedBlocks == old(usedBlocks)
    {
      p := AllocContiguous(n);
      if p != NULL {
        MarkedBack(old(Used()), p / BLOCK, n);
        FreeContiguous(p, n);
      }
    }
  }

  /** With all but the last of 1025 frames in use pmm_alloc_block finds none. */
  lemma {:induction false} LastFrame(u: seq<bool>)
    requires |u| == 1025 && !u[1024] && forall i :: 0 <= i < 1024 ==> u[i]
    ensures FreeSeen(u) == 0 && Count(u) == 1024
  {
    NoneSeen(u);
    CountBound(u[1024 := true]);
    CountUpdate(u, 1024, true);
  }

  method TakeSingle(frames: FrameAllocator) returns (more: bool)
    requires frames.Valid() && frames.maxBlocks == 1025 && !frames.Used()[1024]
    modifies frames.bitmap, frames`usedBlocks
    ensures frames.Valid() && !frames.Used()[1024]
    ensures if more then FreeSeen(frames.Used()) < old(FreeSeen(frames.Used())) else FreeSeen(frames.Used()) == 0
  {
    var p := frames.AllocBlock();
    more := p != NULL;
  }

  /** 1025 frames, the kernel in number 256 and the bitmap in number 257. */
  method Machine() returns (frames: FrameAllocator)
    ensures fresh(frames) && fresh(frames.bitmap) && frames.Valid()
    ensures frames.maxBlocks == 1025 && !frames.Used()[1024]
  {
    frames := new FrameAllocator(1025 * BLOCK);
    assert BlocksIn(1025 * BLOCK) == 1025;
    frames.Reserve(0x10_0000, BLOCK, 0x10_1000);
    assert BlocksIn(BLOCK) == 1 && BlocksIn(1025 / 8) == 1;
  }

  /** A machine with 1025 frames gets there by single frames alone: the kernel and the bitmap in the
      second megabyte, and then frames until there are no more, though the last one is free. */
  method TakeSingles() returns (frames: FrameAllocator)
    ensures fresh(frames) && frames.Valid() && frames.maxBlocks == 1025
    ensures frames.usedBlocks == 1024 && !frames.Used()[1024] && FreeSeen(frames.Used()) == 0
  {
    frames := Machine();
    var more := true;
    while more
      invariant fresh(frames) && fresh(frames.bitmap) && frames.Valid() && frames.maxBlocks == 1025
      invariant !frames.Used()[1024] && (!more ==> FreeSeen(frames.Used()) == 0)
      decreases more, FreeSeen(frames.Used())
    {
      more := TakeSingle(frames);
    }
    NoneSeen(frames.Used());
    LastFrame(frames.Used());
  }
}
