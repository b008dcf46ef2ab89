/** Size arithmetic of the heap allocator: exponents, bins and page counts. */
module HeapSizes {
  import opened Words

  const HEADER: nat := 32        // sizeof(struct boundary_tag): eight 32-bit words
  const PAGE_SIZE: nat := 4096
  const MIN_PAGES: nat := 16     // l_pageCount
  const MAX_COMPLETE: nat := 5
  const MAX_EXP: nat := 32
  const MIN_EXP: nat := 8

  function Log2(n: nat): (r: nat) {
    if n < 2 then 0 else 1 + Log2(n / 2)
  }

  lemma {:induction false} Log2Bounds(n: nat)
    requires n > 0
    ensures Pow2(Log2(n)) <= n < Pow2(Log2(n) + 1)
  {
    if n >= 2 {
      Log2Bounds(n / 2);
    }
  }

  lemma {:induction false} Pow2Monotone(a: nat, b: nat)
    requires a <= b
    ensures 0 < Pow2(a) <= Pow2(b)
  {
    if a < b {
      Pow2Monotone(a, b - 1);
    } else if a > 0 {
      Pow2Monotone(a - 1, b - 1);
    }
  }

  /** The exponent is the only one whose power-of-two interval holds n. */
  lemma {:induction false} Log2Unique(n: nat, e: nat)
    requires Pow2(e) <= n < Pow2(e + 1)
    ensures Log2(n) == e
  {
    Pow2Monotone(0, e);
    Log2Bounds(n);
    if Log2(n) < e {
      Pow2Monotone(Log2(n) + 1, e);
    } else if e < Log2(n) {
      Pow2Monotone(e + 1, Log2(n));
    }
  }

  lemma Pow2Constants()
    ensures Pow2(8) == 256
    ensures Pow2(31) == 0x8000_0000
    ensures Pow2(32) == WORD
  {
    assert Pow2(8) == 256;
    assert Pow2(16) == 256 * Pow2(8);
    assert Pow2(24) == 256 * Pow2(16);
    assert Pow2(31) == 128 * Pow2(24);
  }

  function Exponent(size: nat): (r: int) {
    if size < 256 then -1 else Log2(size)
  }

  /** The free list a tag with this much room behind its header belongs to. */
  function Bin(room: nat): (r: nat) {
    if room < 256 then MIN_EXP else Log2(room)
  }

  predicate InBin(k: int, realSize: nat) {
    HEADER <= realSize && k == Bin(realSize - HEADER)
  }

  /** Room for the request behind the header, and for one more header behind it. */
  predicate Fits(realSize: nat, size: nat) {
    realSize - HEADER >= (size + HEADER) % WORD
  }

  method GetExp(size: nat) returns (e: int)
    requires size < WORD
    ensures e == Exponent(size)
    ensures size < 256 <==> e == -1
  {
    Pow2Constants();
    if size < 256 {
      return -1;
    }
    var shift := MIN_EXP;
    while shift < MAX_EXP
      invariant MIN_EXP <= shift <= MAX_EXP
      invariant shift == MIN_EXP || Pow2(shift - 1) <= size
    {
      if Pow2(shift) > size {
        break;
      }
      shift := shift + 1;
    }
    Log2Unique(size, shift - 1);
    e := shift - 1;
  }

  /** getexp returns the n for which 2^n <= size < 2^(n+1). */
  lemma ExponentBounds(size: nat)
    requires 256 <= size < WORD
    ensures MIN_EXP <= Exponent(size) < MAX_EXP && Pow2(Exponent(size)) <= size < Pow2(Exponent(size) + 1)
  {
    BinRange(size);
    Log2Bounds(size);
  }

  lemma BinRange(room: nat)
    requires room < WORD
    ensures MIN_EXP <= Bin(room) < MAX_EXP
    ensures Bin(room) == if Exponent(room) < MIN_EXP then MIN_EXP else Exponent(room)
  {
    if 256 <= room {
      Pow2Constants();
      Log2Bounds(room);
      if Log2(room) < 8 {
        Pow2Monotone(Log2(room) + 1, 8);
      }
      if Log2(room) > 31 {
        Pow2Monotone(32, Log2(room));
      }
    }
  }

  /** The test of malloc for excess room: the (int) cast of the unsigned remainder is positive
      and its exponent is not -1, so at least 256 bytes remain behind a second header. */
  method WorthSplitting(realSize: nat, size: nat) returns (worth: bool)
    requires HEADER + size <= realSize <= WORD - KERNEL_BASE
    ensures worth <==> realSize >= size + 2 * HEADER + 256
  {
    if realSize < size + 2 * HEADER {
      assert (realSize - size - 2 * HEADER) % WORD == realSize - size - 2 * HEADER + WORD;
    }
    var remainder := (realSize - size - 2 * HEADER) % WORD;
    worth := false;
    if 0 < remainder < WORD / 2 {
      var childIndex := GetExp(remainder);
      worth := childIndex >= 0;
    }
  }

  /** getexp, with sizes below the quantum put into the first list in use. */
  method GetBin(room: nat) returns (index: nat)
    requires room < WORD
    ensures index == Bin(room) && MIN_EXP <= index < MAX_EXP
  {
    var e := GetExp(room);
    BinRange(room);
    index := if e < MIN_EXP then MIN_EXP else e;
  }

  /** Pages requested for a block, in the 32-bit arithmetic of the allocator. */
  function PagesFor(size: nat): (r: nat) {
    var usage := (size + HEADER) % WORD;
    var pages := usage / PAGE_SIZE + if usage % PAGE_SIZE != 0 then 1 else 0;
    if pages < MIN_PAGES then MIN_PAGES else pages
  }

  /** The block asked for holds the request and its header exactly when
      size + HEADER does not wrap around. */
  lemma PagesForFits(size: nat)
    requires size < WORD
    ensures PagesFor(size) * PAGE_SIZE >= size + HEADER <==> size < WORD - HEADER
    ensures PagesFor(size) <= WORD / PAGE_SIZE
  {
    if size >= WORD - HEADER {
      assert (size + HEADER) % WORD == size + HEADER - WORD;
    }
  }
}
