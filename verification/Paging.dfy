/** Two-level page tables. The directory and the tables are frames of 1024 words, looked
    up by frame number, which is the physical address divided by the frame size. */
module Paging {
  import opened Words
  import opened Frames

  const ENTRIES: nat := 1024
  const KERNEL_SLOT: nat := 768       // directory slot of 0xC0000000

  type Ram = map<nat, seq<nat>>   // frame number to the words in the frame

  // ---- entries ----

  function PageFrame(a: nat): (r: nat) {
    a - a % BLOCK
  }

  function FrameNo(a: nat): (r: nat) {
    a / BLOCK
  }

  predicate Aligned(a: nat) {
    a % BLOCK == 0
  }

  predicate Present(e: nat) {
    e % 2 == 1
  }

  function Entry(phys: nat, flags: nat): (r: nat) {
    Or(Or(PageFrame(phys), flags), 1)
  }

  lemma {:induction false} OrFlags(q: nat, flags: nat)
    requires flags < BLOCK
    ensures Or(q * BLOCK, flags) == q * BLOCK + flags
  {
    assert Pow2(4) == 16 && Pow2(8) == 16 * Pow2(4) && Pow2(12) == 16 * Pow2(8);
    OrDisjoint(q, flags, 12);
  }

  lemma {:induction false} OrOne(x: nat)
    ensures Or(x, 1) == x - x % 2 + 1
  {
    OrZero(x / 2);
  }

  lemma EntryParts(q: nat, flags: nat, e: nat)
    requires flags < BLOCK && e == q * BLOCK + flags - flags % 2 + 1
    ensures Present(e) && PageFrame(e) == q * BLOCK && e % BLOCK == if flags % 2 == 1 then flags else flags + 1
  {
    var low := flags - flags % 2 + 1;
    assert low < BLOCK && e == q * BLOCK + low;
  }

  lemma EvenSum(h: nat, flags: nat)
    ensures (2 * h + flags) % 2 == flags % 2
  {
  }

  /** With flags below the page size, an entry keeps the frame, the flags and the present bit. */
  lemma {:induction false} EntryLaw(phys: nat, flags: nat)
    requires flags < BLOCK
    ensures var e := Entry(phys, flags);
      Present(e) && PageFrame(e) == PageFrame(phys) && e % BLOCK == (if flags % 2 == 1 then flags else flags + 1)
  {
    var q := phys / BLOCK;
    assert PageFrame(phys) == q * BLOCK;
    OrFlags(q, flags);
    OrOne(q * BLOCK + flags);
    EvenSum(q * 2048, flags);
    EntryParts(q, flags, Entry(phys, flags));
  }

  /** With flags below the page size, the entry for phys leads to phys's frame. */
  lemma {:induction false} EntryDecoded(phys: nat, flags: nat, v: nat)
    requires flags < BLOCK
    ensures Decoded(Entry(phys, flags), v) == Some(PageFrame(phys) + v % BLOCK)
    ensures Aligned(phys) && Aligned(v) ==> Decoded(Entry(phys, flags), v) == Some(phys)
  {
    EntryLaw(phys, flags);
  }

  // ---- translation ----

  function DirIndex(v: nat): (r: nat) {
    v / 0x40_0000
  }

  function TableIndex(v: nat): (r: nat) {
    v / BLOCK % ENTRIES
  }

  /** Every present directory entry leads to a table; slots 0 and 768 share one, as
      paging_init made them, and no others do. */
  ghost predicate Shaped(ram: Ram, dir: nat) {
    && dir in ram
    && (forall a <- ram :: |ram[a]| == ENTRIES && 0 < a)
    && Present(ram[dir][0]) && ram[dir][KERNEL_SLOT] == ram[dir][0]
    && (forall i {:trigger SlotLeads(ram, dir, i)} :: 0 <= i < ENTRIES ==> SlotLeads(ram, dir, i))
    && (forall i, j {:trigger SlotsApart(ram, dir, i, j)} :: 0 <= i < j < ENTRIES ==> SlotsApart(ram, dir, i, j))
  }

  predicate SlotLeads(ram: Ram, dir: nat, i: nat)
    requires dir in ram && i < |ram[dir]|
  {
    Present(ram[dir][i]) ==> FrameNo(ram[dir][i]) in ram && FrameNo(ram[dir][i]) != dir
  }

  predicate SlotsApart(ram: Ram, dir: nat, i: nat, j: nat)
    requires dir in ram && i < |ram[dir]| && j < |ram[dir]|
  {
    Present(ram[dir][i]) && Present(ram[dir][j]) && FrameNo(ram[dir][i]) == FrameNo(ram[dir][j]) ==>
      i == 0 && j == KERNEL_SLOT
  }

  /** The directory d1 has tables where d0 has, and in `slot`. */
  ghost predicate SlotAdded(d0: seq<nat>, d1: seq<nat>, slot: nat) {
    |d0| == |d1| == ENTRIES && forall j: nat :: j < ENTRIES ==> (Present(d1[j]) <==> Present(d0[j]) || j == slot)
  }

  /** The table that holds the entry of v, if its directory slot is present. */
  function TableOf(ram: Ram, dir: nat, v: nat): (r: Option<nat>)
    requires dir in ram && |ram[dir]| == ENTRIES && v < WORD
  {
    var e := ram[dir][DirIndex(v)];
    if Present(e) then Some(FrameNo(e)) else None
  }

  /** What table entry e says about v. */
  function Decoded(e: nat, v: nat): (r: Option<nat>) {
    if Present(e) then Some(PageFrame(e) + v % BLOCK) else None
  }

  /** The physical address behind v. */
  ghost function Translate(ram: Ram, dir: nat, v: nat): (r: Option<nat>)
    requires Shaped(ram, dir) && v < WORD
  {
    assert SlotLeads(ram, dir, DirIndex(v));
    match TableOf(ram, dir, v)
    case None => None
    case Some(t) =>
      Decoded(ram[t][TableIndex(v)], v)
  }

  /** u and v are translated by the very same table entry. */
  ghost predicate SameEntry(ram: Ram, dir: nat, u: nat, v: nat)
    requires Shaped(ram, dir) && u < WORD && v < WORD
  {
    TableOf(ram, dir, u).Some? && TableOf(ram, dir, u) == TableOf(ram, dir, v) && TableIndex(u) == TableIndex(v)
  }

  /** v is the kernel's image of u, which lies in the first four megabytes. */
  predicate Image(u: nat, v: nat) {
    DirIndex(u) == 0 && v / BLOCK == u / BLOCK + KERNEL_SLOT * ENTRIES
  }

  /** The same page, or one and its image. */
  predicate SamePage(u: nat, v: nat) {
    u / BLOCK == v / BLOCK || Image(u, v) || Image(v, u)
  }

  lemma PageNumber(v: nat)
    requires v < WORD
    ensures v / BLOCK == DirIndex(v) * ENTRIES + TableIndex(v) && DirIndex(v) < ENTRIES
  {
  }

  /** Two addresses share an entry exactly if they are the same page, or one and its image. */
  lemma SameEntryPages(ram: Ram, dir: nat, u: nat, v: nat)
    requires Shaped(ram, dir) && u < WORD && v < WORD && TableOf(ram, dir, v).Some?
    ensures SameEntry(ram, dir, u, v) <==> SamePage(u, v)
  {
    var i, j := DirIndex(u), DirIndex(v);
    PageNumber(u);
    PageNumber(v);
    assert i < j ==> SlotsApart(ram, dir, i, j);
    assert j < i ==> SlotsApart(ram, dir, j, i);
  }

  function Zeros(): (r: seq<nat>) {
    seq<nat>(ENTRIES, _ => 0)
  }

  lemma TableEntry(t: nat)
    ensures FrameNo(t * BLOCK + 3) == t && Present(t * BLOCK + 3) && PageFrame(t * BLOCK + 3) == t * BLOCK
  {
  }

  /** A fresh zeroed table in an empty slot changes no translation. */
  function WithTable(ram: Ram, dir: nat, slot: nat, t: nat): (r: Ram)
    requires dir in ram && slot < |ram[dir]|
  {
    var entry: nat := t * BLOCK + 3;  // present and writable
    var slots: seq<nat> := ram[dir][slot := entry];
    ram[t := Zeros()][dir := slots]
  }

  lemma {:induction false} WithTableShaped(ram: Ram, dir: nat, slot: nat, t: nat)
    requires Shaped(ram, dir) && slot < ENTRIES && !Present(ram[dir][slot]) && t !in ram && 0 < t
    ensures Shaped(WithTable(ram, dir, slot, t), dir)
  {
    var r := WithTable(ram, dir, slot, t);
    TableEntry(t);
    forall i | 0 <= i < ENTRIES ensures SlotLeads(r, dir, i) {
      assert SlotLeads(ram, dir, i);
    }
    forall i, j | 0 <= i < j < ENTRIES ensures SlotsApart(r, dir, i, j) {
      if i != slot && j != slot {
        assert SlotsApart(ram, dir, i, j);
      } else {
        assert SlotLeads(ram, dir, if i == slot then j else i);
      }
    }
  }

  lemma {:induction false} WithTableLaw(ram: Ram, dir: nat, slot: nat, t: nat, v: nat)
    requires Shaped(ram, dir) && slot < ENTRIES && !Present(ram[dir][slot]) && t !in ram && 0 < t && v < WORD
    ensures Shaped(WithTable(ram, dir, slot, t), dir)
    ensures Translate(WithTable(ram, dir, slot, t), dir, v) == Translate(ram, dir, v)
    ensures DirIndex(v) == slot ==> TableOf(WithTable(ram, dir, slot, t), dir, v) == Some(t)
  {
    WithTableShaped(ram, dir, slot, t);
    TableEntry(t);
    assert SlotLeads(ram, dir, DirIndex(v));
  }

  lemma {:induction false} WithTableKeeps(ram: Ram, dir: nat, slot: nat, t: nat)
    requires Shaped(ram, dir) && slot < ENTRIES && !Present(ram[dir][slot]) && t !in ram && 0 < t
    ensures var r := WithTable(ram, dir, slot, t);
      && Shaped(r, dir) && r.Keys == ram.Keys + {t} && SlotAdded(ram[dir], r[dir], slot)
      && (forall v: nat :: v < WORD ==> Translate(r, dir, v) == Translate(ram, dir, v))
  {
    WithTableShaped(ram, dir, slot, t);
    TableEntry(t);
    var r := WithTable(ram, dir, slot, t);
    forall v: nat | v < WORD ensures Translate(r, dir, v) == Translate(ram, dir, v) {
      WithTableLaw(ram, dir, slot, t, v);
    }
  }

  /** The pages that share the entry of v are now translated by entry e, all others as before. */
  ghost predicate Retranslated(r0: Ram, r1: Ram, dir: nat, v: nat, e: nat)
    requires Shaped(r0, dir) && Shaped(r1, dir) && v < WORD
  {
    forall u: nat :: u < WORD ==>
      Translate(r1, dir, u) == if SameEntry(r1, dir, u, v) then Decoded(e, u) else Translate(r0, dir, u)
  }

  /** The entry of v becomes e. */
  function WithEntry(ram: Ram, dir: nat, v: nat, e: nat): (r: Ram)
    requires dir in ram && |ram[dir]| == ENTRIES && v < WORD && SlotLeads(ram, dir, DirIndex(v))
    requires TableOf(ram, dir, v).Some? && |ram[TableOf(ram, dir, v).value]| == ENTRIES
  {
    var t := TableOf(ram, dir, v).value;
    var table: seq<nat> := ram[t][TableIndex(v) := e];
    ram[t := table]
  }

  /** Writing one entry retranslates the pages that share it and no other. */
  lemma {:induction false} WithEntryLaw(ram: Ram, dir: nat, v: nat, e: nat, u: nat)
    requires Shaped(ram, dir) && v < WORD && u < WORD && SlotLeads(ram, dir, DirIndex(v)) && TableOf(ram, dir, v).Some?
    ensures Shaped(WithEntry(ram, dir, v, e), dir)
    ensures SameEntry(WithEntry(ram, dir, v, e), dir, u, v) <==> SameEntry(ram, dir, u, v)
    ensures Translate(WithEntry(ram, dir, v, e), dir, u) ==
      if SameEntry(ram, dir, u, v) then Decoded(e, u) else Translate(ram, dir, u)
  {
    var r := WithEntry(ram, dir, v, e);
    assert r[dir] == ram[dir];
    forall i | 0 <= i < ENTRIES ensures SlotLeads(r, dir, i) {
      assert SlotLeads(ram, dir, i);
    }
    forall i, j | 0 <= i < j < ENTRIES ensures SlotsApart(r, dir, i, j) {
      assert SlotsApart(ram, dir, i, j);
    }
    assert SlotLeads(ram, dir, DirIndex(u));
  }

  lemma {:induction false} WithEntryKeeps(ram: Ram, dir: nat, v: nat, e: nat)
    requires Shaped(ram, dir) && v < WORD && SlotLeads(ram, dir, DirIndex(v)) && TableOf(ram, dir, v).Some?
    ensures var r := WithEntry(ram, dir, v, e);
      && Shaped(r, dir) && r.Keys == ram.Keys && SameEntry(r, dir, v, v)
      && Retranslated(ram, r, dir, v, e) && r[dir] == ram[dir]
  {
    assert SlotLeads(ram, dir, DirIndex(v));
    WithEntryLaw(ram, dir, v, e, v);
    var r := WithEntry(ram, dir, v, e);
    forall u: nat | u < WORD
      ensures Translate(r, dir, u) == if SameEntry(r, dir, u, v) then Decoded(e, u) else Translate(ram, dir, u)
    {
      WithEntryLaw(ram, dir, v, e, u);
    }
  }

  /** Frame i went into use only if it was free and became a table. */
  ghost predicate GrewAt(k0: set<nat>, u0: seq<bool>, k1: set<nat>, u1: seq<bool>, i: nat)
    requires i < |u0| == |u1|
  {
    u1[i] == (u0[i] || i in k1 - k0) && (u0[i] ==> i !in k1 - k0)
  }

  /** Frames went into use only as new tables, in frames that were free, and none came free. */
  ghost predicate TablesGrew(k0: set<nat>, u0: seq<bool>, k1: set<nat>, u1: seq<bool>) {
    k0 <= k1 && |u0| == |u1| && forall i: nat {:trigger GrewAt(k0, u0, k1, u1, i)} :: i < |u0| ==>
      GrewAt(k0, u0, k1, u1, i)
  }

  lemma NoTableGrew(k: set<nat>, u: seq<bool>)
    ensures TablesGrew(k, u, k, u)
  {
    forall i: nat | i < |u| ensures GrewAt(k, u, k, u, i) {
    }
  }

  lemma OneTableGrew(k: set<nat>, u: seq<bool>, f: nat)
    requires f < |u| && !u[f] && f !in k
    ensures TablesGrew(k, u, k + {f}, u[f := true])
  {
    var v := u[f := true];
    forall i: nat | i < |u| ensures GrewAt(k, u, k + {f}, v, i) {
    }
  }

  lemma TablesGrewTwice(k0: set<nat>, u0: seq<bool>, k1: set<nat>, u1: seq<bool>, k2: set<nat>, u2: seq<bool>)
    requires TablesGrew(k0, u0, k1, u1) && TablesGrew(k1, u1, k2, u2)
    ensures TablesGrew(k0, u0, k2, u2)
  {
    forall i: nat | i < |u0| ensures GrewAt(k0, u0, k2, u2, i) {
      assert GrewAt(k0, u0, k1, u1, i) && GrewAt(k1, u1, k2, u2, i);
    }
  }

  /** The translation law of paging_map_page for flags below the page size: v and its image
      lead to phys's frame, and every other page where it led before. */
  lemma {:induction false} MappedLaw(r0: Ram, r1: Ram, dir: nat, v: nat, phys: nat, flags: nat, u: nat)
    requires Shaped(r0, dir) && Shaped(r1, dir) && v < WORD && u < WORD && flags < BLOCK
    requires SameEntry(r1, dir, v, v) && Retranslated(r0, r1, dir, v, Entry(phys, flags))
    ensures Translate(r1, dir, u) == if SamePage(u, v) then Some(PageFrame(phys) + u % BLOCK) else Translate(r0, dir, u)
  {
    EntryDecoded(phys, flags, u);
    SameEntryPages(r1, dir, u, v);
  }

  function Identity(): (r: seq<nat>) {
    seq<nat>(ENTRIES, i requires 0 <= i => i * BLOCK + 3)
  }

  lemma IdentityEntry(v: nat)
    ensures Decoded(Identity()[TableIndex(v)], v) == Some(v % 0x40_0000)
  {
    TableEntry(TableIndex(v));
    FourMegabytes(v);
  }

  lemma FourMegabytes(v: nat)
    ensures TableIndex(v) * BLOCK + v % BLOCK == v % 0x40_0000
  {
    var a, b, r := v / BLOCK / ENTRIES, TableIndex(v), v % BLOCK;
    assert v == 0x40_0000 * a + (b * BLOCK + r) && b * BLOCK + r < 0x40_0000;
  }

  /** The directory and the table set up at boot translate the first four megabytes, and
      their image at the kernel's base, to themselves. */
  lemma {:induction false} BootLaw(dir: nat, first: nat)
    requires dir != first && 0 < dir && 0 < first
    ensures var slots: seq<nat> := Zeros()[0 := first * BLOCK + 3][KERNEL_SLOT := first * BLOCK + 3];
      var ram: Ram := map[dir := slots, first := Identity()];
      && Shaped(ram, dir)
      && (forall v: nat :: v < WORD ==>
          Translate(ram, dir, v) == if DirIndex(v) == 0 || DirIndex(v) == KERNEL_SLOT then Some(v % 0x40_0000)
            else None)
  {
    var slots: seq<nat> := Zeros()[0 := first * BLOCK + 3][KERNEL_SLOT := first * BLOCK + 3];
    var ram: Ram := map[dir := slots, first := Identity()];
    TableEntry(first);
    forall v: nat | v < WORD
      ensures Translate(ram, dir, v) == if DirIndex(v) == 0 || DirIndex(v) == KERNEL_SLOT then Some(v % 0x40_0000)
        else None
    {
      IdentityEntry(v);
    }
  }

  class PageTables {
    const frames: FrameAllocator
    var dir: nat      // frame of page_directory
    var ram: Ram      // the frames that hold the directory and the tables

    /** The frames of the directory and the tables are in use. */
    ghost predicate TablesUsed()
      requires frames.maxBlocks <= 8 * frames.bitmap.Length
      reads `ram, frames.bitmap
    {
      forall a <- ram :: a < frames.maxBlocks && frames.Used()[a]
    }

    ghost predicate Valid()
      reads this, frames, frames.bitmap
    {
      frames.Valid() && Shaped(ram, dir) && TablesUsed()
    }

    /** The physical address behind v, None where virt_to_phys answers UINT32_MAX. */
    ghost function At(v: nat): (r: Option<nat>)
      requires Shaped(ram, dir) && v < WORD
      reads `ram, `dir
    {
      Translate(ram, dir, v)
    }

    constructor (frames: FrameAllocator)
      ensures this.frames == frames && ram == map[]
    {
      this.frames, dir, ram := frames, 0, map[];
    }

    method VirtToPhys(v: nat) returns (p: nat)
      requires Valid() && v < WORD
      ensures p == match At(v) case None => WORD - 1 case Some(a) => a
      ensures p == WORD - 1 ==> At(v) == None || v % BLOCK == BLOCK - 1
    {
      var e := ram[dir][DirIndex(v)];
      assert SlotLeads(ram, dir, DirIndex(v));
      if !Present(e) {
        return WORD - 1;
      }
      var table := ram[FrameNo(e)];
      if !Present(table[TableIndex(v)]) {
        return WORD - 1;
      }
      p := PageFrame(table[TableIndex(v)]) + v % BLOCK;
    }

    /** The directory slot of v gets a zeroed table in a fresh frame, unless it has one. */
    method EnsureTable(v: nat) returns (ok: bool)
      requires Valid() && v < WORD
      modifies this`ram, frames`usedBlocks, frames.bitmap
      ensures Valid()
      ensures ok <==> old(TableOf(ram, dir, v)).Some? || old(FreeSeen(frames.Used())) > 0
      ensures old(TableOf(ram, dir, v)).Some? ==> ram == old(ram) && frames.Used() == old(frames.Used())
      ensures ok && old(TableOf(ram, dir, v)) == None ==> FreeSeen(frames.Used()) == old(FreeSeen(frames.Used())) - 1
      ensures ok ==> SlotAdded(old(ram[dir]), ram[dir], DirIndex(v))
      ensures !ok ==> ram == old(ram) && frames.Used() == old(frames.Used())
      ensures forall u: nat :: u < WORD ==> Translate(ram, dir, u) == Translate(old(ram), dir, u)
      ensures TablesGrew(old(ram.Keys), old(frames.Used()), ram.Keys, frames.Used())
    {
      var slot := DirIndex(v);
      if !Present(ram[dir][slot]) {
        var p := frames.AllocBlock();
        if p == NULL {
          return false;
        }
        var t := FrameNo(p);
        WithTableKeeps(ram, dir, slot, t);
        OneTableGrew(ram.Keys, old(frames.Used()), t);
        ram := WithTable(ram, dir, slot, t);
      }
      return true;
    }

    /** paging_map_page: the pages that share the entry of v are translated by the new
        entry, and no other page's translation changes. */
    method MapPage(phys: nat, v: nat, flags: nat) returns (ok: bool)
      requires Valid() && v < WORD && phys < WORD && flags < WORD
      modifies this`ram, frames`usedBlocks, frames.bitmap
      ensures Valid() && TablesGrew(old(ram.Keys), old(frames.Used()), ram.Keys, frames.Used())
      ensures ok <==> old(TableOf(ram, dir, v)).Some? || old(FreeSeen(frames.Used())) > 0
      ensures ok && old(TableOf(ram, dir, v)) == None ==> FreeSeen(frames.Used()) == old(FreeSeen(frames.Used())) - 1
      ensures ok ==> SlotAdded(old(ram[dir]), ram[dir], DirIndex(v))
      ensures old(TableOf(ram, dir, v)).Some? ==> ram.Keys == old(ram.Keys) && frames.Used() == old(frames.Used())
      ensures if ok then SameEntry(ram, dir, v, v) && Retranslated(old(ram), ram, dir, v, Entry(phys, flags))
        else ram == old(ram) && frames.Used() == old(frames.Used())
    {
      ok := EnsureTable(v);
      if ok {
        SetEntry(v, Entry(phys, flags));
      }
    }

    method SetEntry(v: nat, e: nat)
      requires Valid() && v < WORD && TableOf(ram, dir, v).Some?
      modifies this`ram
      ensures Valid() && ram.Keys == old(ram.Keys) && SameEntry(ram, dir, v, v) && ram[dir] == old(ram[dir])
      ensures Retranslated(old(ram), ram, dir, v, e)
    {
      assert SlotLeads(ram, dir, DirIndex(v));
      WithEntryKeeps(ram, dir, v, e);
      ram := WithEntry(ram, dir, v, e);
    }

    /** paging_unmap_page: the page, and any that shares its entry, is no longer translated. */
    method UnmapPage(v: nat)
      requires Valid() && v < WORD
      modifies this`ram
      ensures Valid() && ram.Keys == old(ram.Keys)
      ensures At(v) == None && Retranslated(old(ram), ram, dir, v, 0)
    {
      var e := ram[dir][DirIndex(v)];
      assert SlotLeads(ram, dir, DirIndex(v));
      if !Present(e) {
        return;
      }
      if !Present(ram[FrameNo(e)][TableIndex(v)]) {
        return;
      }
      SetEntry(v, 0);
    }

    /** The identity entries of the first table. */
    method IdentityTable() returns (table: seq<nat>)
      ensures table == Identity()
    {
      table := Zeros();
      var i := 0;
      while i < ENTRIES
        invariant i <= ENTRIES && |table| == ENTRIES
        invariant forall j :: 0 <= j < i ==> table[j] == j * BLOCK + 3
      {
        table := table[i := i * BLOCK + 3];
        i := i + 1;
      }
    }

    /** paging_init: one table of identity entries serves both slot 0 and the kernel's slot. */
    method Init() returns (ok: bool)
      requires frames.Valid() && ram == map[]
      modifies this, frames`usedBlocks, frames.bitmap
      ensures ok <==> old(FreeSeen(frames.Used())) >= 2
      ensures ok ==> Valid()
      ensures ok ==> forall v: nat :: v < WORD ==>
        At(v) == if DirIndex(v) == 0 || DirIndex(v) == KERNEL_SLOT then Some(v % 0x40_0000) else None
    {
      var p := frames.AllocBlock();
      if p == NULL {
        return false;
      }
      dir := FrameNo(p);
      var q := frames.AllocBlock();
      if q == NULL {
        return false;
      }
      var first := FrameNo(q);
      var table := IdentityTable();
      var slots: seq<nat> := Zeros()[0 := first * BLOCK + 3][KERNEL_SLOT := first * BLOCK + 3];
      ram := map[dir := slots, first := table];
      BootLaw(dir, first);
      return true;
    }
  }
}
