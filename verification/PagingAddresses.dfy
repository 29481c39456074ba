// The operations of mm/memory.c at linear addresses: what each byte of linear memory reads afterwards, by the
// processor's own walk through directory and table (section 5.2 of the Intel 80386 Programmer's Reference Manual).
module PagingAddresses {
  import opened Base
  import opened PagingModel
  import opened PagingInvariant
  import opened PagingSteps
  import opened PagingTables
  import opened PagingFork
  import opened PagingWrites
  import opened PagingMap
  import opened PagingFrames

  // ---- what the processor does ---------------------------------------------------------------

  // Bits 22-31 of an address select the directory slot, bits 12-21 the table entry, the rest the byte.
  function EntryAt(s: Mem, a: nat): Pte
    requires Shaped(s) && a < 0x1_0000_0000
  {
    var slot := s.dir[a / 0x40_0000];
    if slot.present then s.tables[slot.frame][a / 0x1000 % 0x400] else NO_PTE
  }

  function ByteAt(s: Mem, a: nat): Option<byte>
    requires Shaped(s) && a < 0x1_0000_0000
  {
    var e := EntryAt(s, a);
    if e.present && e.frame < |s.data| then Some(s.data[e.frame][a % 0x1000]) else None
  }

  predicate WritableAt(s: Mem, a: nat)
    requires Shaped(s) && a < 0x1_0000_0000
  {
    EntryAt(s, a).present && EntryAt(s, a).writable
  }

  // The frame behind a is in main memory and nobody shares it.
  predicate AloneAt(s: Mem, a: nat)
    requires Shaped(s) && a < 0x1_0000_0000
  {
    var f := EntryAt(s, a).frame;
    s.start <= f < s.start + |s.counts| && s.counts[f - s.start] == 1
  }

  // The addresses followed: the 640KB of process 0, and all from 64MB on.
  predicate Tracked(a: nat) { a < 0xA_0000 || 0x400_0000 <= a < 0x1_0000_0000 }

  predicate User32(a: nat) { 0x400_0000 <= a < 0x1_0000_0000 }

  // Every byte reads the same in t as in s.
  ghost predicate BytesSame(s: Mem, t: Mem)
    requires Shaped(s) && Shaped(t)
  {
    forall b: nat :: Tracked(b) ==> ByteAt(t, b) == ByteAt(s, b)
  }

  // ---- indices -------------------------------------------------------------------------------

  lemma Indices(a: nat)
    requires a < 0x1_0000_0000
    ensures DirIndex(a) == a / 0x40_0000 && DirIndex(a) < 1024
    ensures TableIndex(a) == a / 0x1000 % 0x400 && TableIndex(a) < 1024
    ensures DirIndex(a) * 0x40_0000 + TableIndex(a) * 0x1000 + a % 0x1000 == a
  {
  }

  // Two addresses have the same entry exactly when they are in the same 4KB page.
  lemma SameEntryIff(a: nat, b: nat)
    requires a < 0x1_0000_0000 && b < 0x1_0000_0000
    ensures DirIndex(a) == DirIndex(b) && TableIndex(a) == TableIndex(b) <==> a / 0x1000 == b / 0x1000
  {
    Indices(a);
    Indices(b);
  }

  // The number of 4MB slots that `size` bytes take, rounded up, as long as the 32-bit sum does not wrap.
  lemma SlotsForIs(size: nat)
    requires size < 0x1_0000_0000
    ensures size <= 0xFFC0_0000 ==> SlotsFor(size) * 0x40_0000 >= size
    ensures size <= 0xFFC0_0000 && SlotsFor(size) > 0 ==> (SlotsFor(size) - 1) * 0x40_0000 < size
    ensures size > 0xFFC0_0000 ==> SlotsFor(size) == 0
  {
  }

  // a lies in one of the 4MB slots that the `size` bytes from addr on touch.
  predicate InSlots(a: nat, addr: nat, size: nat) {
    addr <= a && (a - addr) / 0x40_0000 * 0x40_0000 < size
  }

  // Those slots hold every one of the bytes, and every page that one of them is in.
  lemma InSlotsMeans(a: nat, b: nat, addr: nat, size: nat)
    requires addr % 0x40_0000 == 0 && addr <= b < addr + size && a / 0x1000 == b / 0x1000
    ensures InSlots(a, addr, size) && InSlots(b, addr, size)
  {
    var n := addr / 0x40_0000;
    assert addr == n * 0x40_0000;
    SlotOffset(a, n);
    SlotOffset(b, n);
  }

  lemma SlotOffset(a: nat, n: nat)
    requires n * 0x40_0000 <= a / 0x1000 * 0x1000
    ensures a >= n * 0x40_0000 && (a - n * 0x40_0000) / 0x40_0000 == a / 0x1000 / 0x400 - n
  {
  }

  lemma InSlotsIff(a: nat, addr: nat, size: nat)
    requires a < 0x1_0000_0000 && addr % 0x40_0000 == 0 && size <= 0xFFC0_0000
    ensures InSlots(a, addr, size) <==> DirIndex(addr) <= DirIndex(a) < DirIndex(addr) + SlotsFor(size)
  {
    SlotsForIs(size);
    if addr <= a {
      assert (a - addr) / 0x40_0000 == DirIndex(a) - DirIndex(addr);
    }
  }

  lemma AtPage(s: Mem, a: nat)
    requires Shaped(s) && Tracked(a)
    ensures Key(DirIndex(a), TableIndex(a)) && EntryAt(s, a) == Entry(s, DirIndex(a), TableIndex(a))
    ensures var v := Page(s, DirIndex(a), TableIndex(a));
      ByteAt(s, a) == if v.Some? then Some(v.value[a % 0x1000]) else None
  {
    Indices(a);
  }

  lemma UserIndices(a: nat)
    requires User32(a)
    ensures User(DirIndex(a)) && TableIndex(a) < SLOTS && Tracked(a)
  {
    Indices(a);
  }

  lemma SamePagesSameBytes(s: Mem, t: Mem)
    requires Shaped(s) && Shaped(t) && forall d, k :: Key(d, k) ==> Page(t, d, k) == Page(s, d, k)
    ensures BytesSame(s, t)
  {
    hide Shaped, Page, ByteAt, Key;
    forall b: nat | Tracked(b) ensures ByteAt(t, b) == ByteAt(s, b) {
      AtPage(s, b);
      AtPage(t, b);
    }
  }

  // One page shows v, and the others what they showed.
  lemma OnlyPageBytes(s: Mem, t: Mem, a: nat, v: seq<byte>)
    requires Shaped(s) && Shaped(t) && User32(a) && |v| == PAGE_SIZE
    requires OnlyPage(s, t, DirIndex(a), TableIndex(a), Some(v))
    ensures forall b: nat :: Tracked(b) ==>
      ByteAt(t, b) == if b / 0x1000 == a / 0x1000 then Some(v[b % 0x1000]) else ByteAt(s, b)
  {
    hide Shaped, Page, ByteAt, Key;
    forall b: nat | Tracked(b)
      ensures ByteAt(t, b) == if b / 0x1000 == a / 0x1000 then Some(v[b % 0x1000]) else ByteAt(s, b) {
      AtPage(s, b);
      AtPage(t, b);
      SameEntryIff(a, b);
    }
  }

  // ---- free_page_tables ----------------------------------------------------------------------

  // A range that is not aligned to 4MB, or starts inside physical memory, is left alone.
  lemma FreeLeftAlone(s: Mem, addr: nat, size: nat)
    requires Shaped(s) && addr + size <= 0x1_0000_0000 && size <= 0xFFC0_0000
    requires addr % 0x40_0000 != 0 || addr < (s.start + |s.counts|) * 0x1000
    ensures DirIndex(addr) + SlotsFor(size) <= SLOTS && FreePageTables(s, addr, size) == s
  {
    SlotsForIs(size);
  }

  // After free_page_tables nothing is mapped in the slots that the range touches, every page that overlaps it
  // (InSlotsMeans) included; every other byte reads as before.
  lemma FreeByAddress(s: Mem, addr: nat, size: nat)
    requires Inv(s) && User32(addr) && addr % 0x40_0000 == 0 && addr + size <= 0x1_0000_0000
    requires (s.start + |s.counts|) * 0x1000 <= addr
    ensures DirIndex(addr) + SlotsFor(size) <= SLOTS && Inv(FreePageTables(s, addr, size))
    ensures forall b: nat :: Tracked(b) ==>
      ByteAt(FreePageTables(s, addr, size), b) == if InSlots(b, addr, size) then None else ByteAt(s, b)
    ensures FreePageTables(s, addr, size).start == s.start && |FreePageTables(s, addr, size).counts| == |s.counts|
  {
    hide TablesApart, Counted, WritableAlone, SamePlace, HeldOnce, FreeSlots;
    Indices(addr);
    SlotsForIs(size);
    FreeSlotsKeeps(s, DirIndex(addr), SlotsFor(size));
    GoneBytes(s, FreePageTables(s, addr, size), addr, size);
  }

  lemma GoneBytes(s: Mem, t: Mem, addr: nat, size: nat)
    requires Shaped(s) && Shaped(t) && User32(addr) && addr % 0x40_0000 == 0 && size <= 0xFFC0_0000
    requires DirIndex(addr) + SlotsFor(size) <= SLOTS && SlotsGone(s, t, DirIndex(addr), SlotsFor(size))
    ensures forall b: nat :: Tracked(b) ==> ByteAt(t, b) == if InSlots(b, addr, size) then None else ByteAt(s, b)
  {
    hide Shaped, ByteAt, InSlots;
    forall b: nat | Tracked(b) ensures ByteAt(t, b) == if InSlots(b, addr, size) then None else ByteAt(s, b) {
      AtPage(s, b);
      AtPage(t, b);
      InSlotsIff(b, addr, size);
    }
  }

  // ---- copy_page_tables and copy_memory ------------------------------------------------------

  // Neither address may be off a 4MB boundary; otherwise nothing is copied.
  lemma CopyMisaligned(s: Mem, from: nat, to: nat, size: nat)
    requires Shaped(s) && from + size <= 0x1_0000_0000 && to + size <= 0x1_0000_0000 && size <= 0xFFC0_0000
    ensures DirIndex(from) + SlotsFor(size) <= SLOTS && DirIndex(to) + SlotsFor(size) <= SLOTS
    ensures CopyPageTables(s, from, to, size).1 == Misaligned ==>
      CopyPageTables(s, from, to, size).0 == s && (from % 0x40_0000 != 0 || to % 0x40_0000 != 0)
    ensures from % 0x40_0000 != 0 || to % 0x40_0000 != 0 ==> CopyPageTables(s, from, to, size) == (s, Misaligned)
  {
    SlotsForIs(size);
    if from % 0x40_0000 == 0 && to % 0x40_0000 == 0 {
      CopyNotMisaligned(s, DirIndex(from), DirIndex(to), SlotsFor(size), EntriesToCopy(DirIndex(from)));
    }
  }

  lemma {:induction false} CopyNotMisaligned(s: Mem, fd: nat, td: nat, c: nat, n: nat)
    requires Shaped(s) && fd + c <= SLOTS && td + c <= SLOTS && n <= SLOTS
    ensures CopySlots(s, fd, td, c, n).1 != Misaligned
    decreases c
  {
    hide Shaped, CopyEntries, GetPhyPage;
    if c > 0 {
      var (t, o) := CopySlot(s, fd, td, n);
      if o == Done { CopyNotMisaligned(t, fd + 1, td + 1, c - 1, n); }
    }
  }

  // What a process at `base` with `limit` bytes may hand to process q: 64MB each, process 0 its first slot.
  predicate MayForkAt(base: nat, limit: nat, q: nat) {
    && base % 0x400_0000 == 0 && base / 0x400_0000 < 16 && 0 < q < 16 && base != q * 0x400_0000
    && limit <= (if base == 0 then 0x40_0000 else 0x400_0000)
  }

  // The child of process 0 gets the 640KB; any other child gets the slots that the parent's limit touches.
  function ForkedByte(s: Mem, base: nat, limit: nat, q: nat, a: nat): Option<byte>
    requires Shaped(s) && MayForkAt(base, limit, q) && Tracked(a)
  {
    if !InSlots(a, q * 0x400_0000, limit) then ByteAt(s, a)
    else if base == 0 && a - q * 0x400_0000 >= 0xA_0000 then None
    else
      assert a - q * 0x400_0000 < 0x400_0000;
      ByteAt(s, a - q * 0x400_0000 + base)
  }

  lemma ForkSlots(base: nat, limit: nat, q: nat)
    requires MayForkAt(base, limit, q)
    ensures MayFork(base / PROCESS_MEM_SPACE, q, SlotsFor(limit))
    ensures DirIndex(base) == WINDOW * (base / PROCESS_MEM_SPACE) && DirIndex(q * PROCESS_MEM_SPACE) == WINDOW * q
    ensures base % SLOT_SIZE == 0 && q * PROCESS_MEM_SPACE % SLOT_SIZE == 0
  {
    WindowBase(q);
    WindowBase(base / PROCESS_MEM_SPACE);
    ProcessSlots(limit);
  }

  // copy_memory is Fork on the two windows: physical memory ends below the child's.
  lemma CopyMemoryForks(s: Mem, base: nat, limit: nat, q: nat)
    requires Inv(s) && MayForkAt(base, limit, q) && (s.start + |s.counts|) * 0x1000 <= 0x400_0000
    ensures CopyMemory(s, base, base, limit, limit, q) == Fork(s, base / PROCESS_MEM_SPACE, q, SlotsFor(limit))
  {
    hide TablesApart, Counted, WritableAlone, SamePlace, HeldOnce, CopySlots, FreeSlots, Shaped;
    ForkSlots(base, limit, q);
    var p := base / PROCESS_MEM_SPACE;
    CopySlotsKeeps(s, WINDOW * p, WINDOW * q, SlotsFor(limit), EntriesToCopy(WINDOW * p));
  }

  // Moving an address by whole slots.
  lemma Shifted(a: nat, n: nat, b: nat, m: nat)
    requires n * 0x40_0000 <= a && a - n * 0x40_0000 == b - m * 0x40_0000
    ensures a / 0x40_0000 - n == b / 0x40_0000 - m
    ensures a / 0x1000 % 0x400 == b / 0x1000 % 0x400 && a % 0x1000 == b % 0x1000
  {
    var x, y := a / 0x40_0000, a % 0x40_0000;
    assert b == 0x40_0000 * (x - n + m) + y;
    DivUnique(b, 0x40_0000, x - n + m, y);
    InSlot(a);
    InSlot(b);
  }

  lemma InSlot(a: nat)
    ensures a / 0x1000 % 0x400 == a % 0x40_0000 / 0x1000 && a % 0x1000 == a % 0x40_0000 % 0x1000
  {
  }

  // Where a byte of the child comes from.
  lemma ForkIndices(base: nat, limit: nat, q: nat, a: nat)
    requires MayForkAt(base, limit, q) && Tracked(a) && InSlots(a, q * 0x400_0000, limit)
    ensures q * 0x400_0000 <= a && a - q * 0x400_0000 < 0x400_0000
    ensures var b := a - q * 0x400_0000 + base;
      && b < 0x1_0000_0000 && b % 0x1000 == a % 0x1000 && TableIndex(b) == TableIndex(a)
      && DirIndex(b) == DirIndex(a) - WINDOW * q + WINDOW * (base / PROCESS_MEM_SPACE)
    ensures base == 0 ==> (a - q * 0x400_0000 < 0xA_0000 <==> TableIndex(a) < 160)
    ensures base != 0 ==> User32(a - q * 0x400_0000 + base)
  {
    ForkSlots(base, limit, q);
    InSlotsBound(a, q * 0x400_0000, limit);
    var p := base / PROCESS_MEM_SPACE;
    assert base == 16 * p * 0x40_0000;
    Shifted(a, 16 * q, a - q * 0x400_0000 + base, 16 * p);
    if base == 0 { InSlotsBound(a, q * 0x400_0000, 0x40_0000); }
  }

  lemma InSlotsBound(a: nat, addr: nat, size: nat)
    requires InSlots(a, addr, size)
    ensures a - addr < (size + 0x3F_FFFF) / 0x40_0000 * 0x40_0000
    ensures addr % 0x40_0000 == 0 && size <= 0x40_0000 ==> (a - addr < 0xA_0000 <==> a / 0x1000 % 0x400 < 160)
  {
    var n := addr / 0x40_0000;
    if addr == n * 0x40_0000 { Shifted(a, n, a - addr, 0); }
  }

  lemma ForkedBytesAt(s: Mem, t: Mem, base: nat, limit: nat, q: nat, a: nat)
    requires Shaped(s) && Shaped(t) && MayForkAt(base, limit, q) && Tracked(a)
    requires MayFork(base / PROCESS_MEM_SPACE, q, SlotsFor(limit)) && Key(DirIndex(a), TableIndex(a))
    requires ForkedPage(s, t, base / PROCESS_MEM_SPACE, q, SlotsFor(limit), DirIndex(a), TableIndex(a))
    ensures ByteAt(t, a) == ForkedByte(s, base, limit, q, a)
  {
    hide Shaped, ByteAt, Page, InSlots, Key, DirIndex, TableIndex, SlotsFor;
    ForkSlots(base, limit, q);
    InSlotsIff(a, q * 0x400_0000, limit);
    AtPage(t, a);
    AtPage(s, a);
    if InSlots(a, q * 0x400_0000, limit) {
      ForkIndices(base, limit, q, a);
      if base != 0 || a - q * 0x400_0000 < 0xA_0000 { AtPage(s, a - q * 0x400_0000 + base); }
    }
  }

  // The child's slots that the limit touches have no table yet.
  predicate ChildEmpty(s: Mem, limit: nat, q: nat)
    requires Shaped(s) && q < 16
  {
    forall d :: 16 * q <= d < 16 * q + 16 && (d - 16 * q) * 0x40_0000 < limit ==> !s.dir[d].present
  }

  // How many tables a process at `base` has below its limit.
  ghost function TablesBelow(s: Mem, base: nat, limit: nat): nat
    requires Shaped(s) && base + limit <= 0x1_0000_0000 && base % 0x40_0000 == 0
  {
    TablesIn(s, base / 0x40_0000, (limit + 0x3F_FFFF) / 0x40_0000)
  }

  // copy_memory halts when the parent's segments differ. Otherwise it succeeds exactly when there is a frame for
  // each table of the parent below the limit. Then every byte of the child reads as the parent's and all others
  // as before; if it fails, every byte, the counts, the directory and the kernel's frames are as before.
  lemma ForkByAddress(s: Mem, base: nat, limit: nat, q: nat)
    requires Inv(s) && MayForkAt(base, limit, q) && (s.start + |s.counts|) * 0x1000 <= 0x400_0000
    requires ChildEmpty(s, limit, q)
    ensures var (t, o) := CopyMemory(s, base, base, limit, limit, q);
      && Inv(t) && t.start == s.start && |t.counts| == |s.counts|
      && o == (if TablesBelow(s, base, limit) <= |FreeFrames(s)| then Done else NoMemory)
      && (o == Done ==> forall a: nat :: Tracked(a) ==> ByteAt(t, a) == ForkedByte(s, base, limit, q, a))
      && (o == NoMemory ==> t.counts == s.counts && t.dir == s.dir && t.held == s.held && BytesSame(s, t))
  {
    hide TablesApart, Counted, WritableAlone, SamePlace, HeldOnce, Fork, CopyMemory, FreeFrames, ByteAt, Page,
      ForkedPage, ForkedByte, BytesSame, InSlots, Shaped, TablesIn;
    CopyMemoryForks(s, base, limit, q);
    ForkSlots(base, limit, q);
    ChildSlotsEmpty(s, limit, q);
    var p, c := base / PROCESS_MEM_SPACE, SlotsFor(limit);
    ForkFrames(s, p, q, c);
    ForkSizes(s, p, q, c);
    var (t, o) := Fork(s, p, q, c);
    if o == Done {
      ForkCopies(s, p, q, c);
      forall a: nat | Tracked(a) ensures ByteAt(t, a) == ForkedByte(s, base, limit, q, a) {
        AtPage(s, a);
        ForkedBytesAt(s, t, base, limit, q, a);
      }
    } else {
      ForkRollsBack(s, p, q, c);
      SamePagesSameBytes(s, t);
    }
  }

  lemma ChildSlotsEmpty(s: Mem, limit: nat, q: nat)
    requires Shaped(s) && 0 < q < 16 && limit <= 0x400_0000 && ChildEmpty(s, limit, q)
    ensures SlotsFor(limit) == (limit + 0x3F_FFFF) / 0x40_0000 <= 16
    ensures forall d :: WINDOW * q <= d < WINDOW * q + SlotsFor(limit) ==> !s.dir[d].present
  {
    SlotsForIs(limit);
    forall d | WINDOW * q <= d < WINDOW * q + SlotsFor(limit) ensures !s.dir[d].present {
      assert (d - 16 * q) * 0x40_0000 < limit;
    }
  }

  lemma ForkSizes(s: Mem, p: nat, q: nat, c: nat)
    requires Inv(s) && MayFork(p, q, c)
    ensures Fork(s, p, q, c).0.start == s.start && |Fork(s, p, q, c).0.counts| == |s.counts|
  {
    hide TablesApart, Counted, WritableAlone, SamePlace, HeldOnce, CopySlots, FreeSlots;
    CopySlotsKeeps(s, WINDOW * p, WINDOW * q, c, EntriesToCopy(WINDOW * p));
    var (t, o) := CopySlots(s, WINDOW * p, WINDOW * q, c, EntriesToCopy(WINDOW * p));
    if o == NoMemory { FreeSlotsKeeps(t, WINDOW * q, c); }
  }

  // In particular every byte below the limit, or of the 640KB when the parent is process 0.
  lemma ChildReadsParent(s: Mem, base: nat, limit: nat, q: nat, x: nat)
    requires Inv(s) && MayForkAt(base, limit, q) && (s.start + |s.counts|) * 0x1000 <= 0x400_0000
    requires ChildEmpty(s, limit, q) && CopyMemory(s, base, base, limit, limit, q).1 == Done
    requires x < limit && (base == 0 ==> x < 0xA_0000)
    ensures ByteAt(CopyMemory(s, base, base, limit, limit, q).0, q * 0x400_0000 + x) == ByteAt(s, base + x)
    ensures base != 0 ==> ByteAt(CopyMemory(s, base, base, limit, limit, q).0, base + x) == ByteAt(s, base + x)
  {
    hide TablesApart, Counted, WritableAlone, SamePlace, HeldOnce, CopyMemory, ByteAt, Shaped;
    ForkByAddress(s, base, limit, q);
    var t := CopyMemory(s, base, base, limit, limit, q).0;
    assert ByteAt(t, q * 0x400_0000 + x) == ForkedByte(s, base, limit, q, q * 0x400_0000 + x);
    if base != 0 { assert ByteAt(t, base + x) == ForkedByte(s, base, limit, q, base + x); }
  }

  // Unequal segments halt the kernel before anything is copied.
  lemma UnequalSegmentsHalt(s: Mem, codeBase: nat, dataBase: nat, codeLimit: nat, dataLimit: nat, q: nat)
    requires Inv(s) && MayForkAt(codeBase, dataLimit, q) && ChildEmpty(s, dataLimit, q)
    requires (s.start + |s.counts|) * 0x1000 <= 0x400_0000
    ensures var (t, o) := CopyMemory(s, codeBase, dataBase, codeLimit, dataLimit, q);
      && (o == Halted <==> codeLimit != dataLimit || codeBase != dataBase)
      && (o == Halted ==> t == s)
  {
    hide TablesApart, Counted, WritableAlone, SamePlace, HeldOnce, CopyPageTables, FreePageTables, ByteAt, Shaped;
    if codeLimit == dataLimit && codeBase == dataBase { ForkByAddress(s, codeBase, dataLimit, q); }
  }

  // ---- do_wp_page ----------------------------------------------------------------------------

  // Only the entry of the fault changes.
  lemma FaultEntries(s: Mem, d: nat, k: nat)
    requires Inv(s) && User(d) && k < SLOTS && Entry(s, d, k).present && Entry(s, d, k).frame < |s.data|
    ensures var t := DoWpPage(s, d, k);
      && t.start == s.start && |t.counts| == |s.counts|
      && forall c, j :: 0 <= c < SLOTS && 0 <= j < SLOTS && !(c == d && j == k) ==> Entry(t, c, j) == Entry(s, c, j)
  {
    hide Counted, SamePlace, HeldOnce;
    if InMain(s, Entry(s, d, k).frame) && Count(s, Entry(s, d, k).frame) == 1 {
      UnshareAlone(s, d, k);
    } else {
      var (t, f) := GetPhyPage(s);
      GetPhyPageKeeps(s);
      if f != 0 {
        if InMain(t, Entry(t, d, k).frame) { MappedIsCounted(t, d, k); }
        UnshareEffect(t, DoWpPage(s, d, k), f, d, k);
      }
    }
  }

  lemma FaultWritable(s: Mem, t: Mem, a: nat, b: nat)
    requires Shaped(s) && Shaped(t) && User32(a) && Tracked(b) && b / 0x1000 != a / 0x1000
    requires forall c, j :: 0 <= c < SLOTS && 0 <= j < SLOTS && !(c == DirIndex(a) && j == TableIndex(a)) ==>
      Entry(t, c, j) == Entry(s, c, j)
    ensures WritableAt(t, b) <==> WritableAt(s, b)
  {
    hide Shaped, Entry;
    SameEntryIff(a, b);
    Indices(b);
    AtPage(s, b);
    AtPage(t, b);
  }

  lemma MappedAt(s: Mem, a: nat)
    requires Inv(s) && User32(a)
    ensures User(DirIndex(a)) && TableIndex(a) < SLOTS && EntryAt(s, a) == Entry(s, DirIndex(a), TableIndex(a))
    ensures ByteAt(s, a).Some? <==> Entry(s, DirIndex(a), TableIndex(a)).present
    ensures ByteAt(s, a).Some? ==> s.dir[DirIndex(a)].present && EntryAt(s, a).frame < |s.data|
  {
    UserIndices(a);
    AtPage(s, a);
  }

  // A write fault at a changes no byte anywhere. The page of a can be written afterwards exactly when it could
  // be before, or its frame is not shared, or some frame is free; no other page becomes writable or read-only.
  lemma FaultByAddress(s: Mem, a: nat)
    requires Inv(s) && User32(a) && ByteAt(s, a).Some?
    ensures DirIndex(a) < SLOTS && TableIndex(a) < SLOTS && s.dir[DirIndex(a)].present
    ensures Entry(s, DirIndex(a), TableIndex(a)).frame < |s.data|
    ensures var t := DoWpPage(s, DirIndex(a), TableIndex(a));
      && Inv(t) && BytesSame(s, t)
      && (WritableAt(t, a) <==> WritableAt(s, a) || AloneAt(s, a) || 0 in s.counts)
      && forall b: nat :: Tracked(b) && b / 0x1000 != a / 0x1000 ==> (WritableAt(t, b) <==> WritableAt(s, b))
  {
    hide TablesApart, Counted, WritableAlone, SamePlace, HeldOnce, DoWpPage, ByteAt, Page;
    MappedAt(s, a);
    var d, k := DirIndex(a), TableIndex(a);
    var t := DoWpPage(s, d, k);
    DoWpPageKeeps(s, d, k);
    FaultEntries(s, d, k);
    SamePagesSameBytes(s, t);
    MappedAt(t, a);
    forall b: nat | Tracked(b) && b / 0x1000 != a / 0x1000 ensures WritableAt(t, b) <==> WritableAt(s, b) {
      FaultWritable(s, t, a, b);
    }
  }

  // ---- a store -------------------------------------------------------------------------------

  lemma OneByte(v: seq<byte>, a: nat, x: byte, b: nat)
    requires |v| == PAGE_SIZE && b / 0x1000 == a / 0x1000
    ensures v[a % 0x1000 := x][b % 0x1000] == if b == a then x else v[b % 0x1000]
  {
    assert b % 0x1000 == a % 0x1000 <==> b == a;
  }

  // A store at a is done exactly when a is mapped and its page writable, not shared, or some frame is free. It
  // changes the byte at a and no other, of this or any other process; where it is not done nothing changes.
  lemma StoreByAddress(s: Mem, a: nat, x: byte)
    requires Inv(s) && User32(a)
    ensures DirIndex(a) < SLOTS && TableIndex(a) < SLOTS
    ensures var e := Entry(s, DirIndex(a), TableIndex(a)); e.present ==> e.frame < |s.data|
    ensures var (t, ok) := UserWrite(s, DirIndex(a), TableIndex(a), a % 0x1000, x);
      && Inv(t) && t.start == s.start && |t.counts| == |s.counts|
      && (ok <==> ByteAt(s, a).Some? && (WritableAt(s, a) || AloneAt(s, a) || 0 in s.counts))
      && (ok ==> forall b: nat :: Tracked(b) ==> ByteAt(t, b) == if b == a then Some(x) else ByteAt(s, b))
      && (!ok ==> BytesSame(s, t))
  {
    hide TablesApart, Counted, WritableAlone, SamePlace, HeldOnce, UserWrite, ByteAt, DoWpPage, OnlyPage, CanUnshare;
    MappedAt(s, a);
    var d, k := DirIndex(a), TableIndex(a);
    UserWriteKeeps(s, d, k, a % 0x1000, x);
    StoreSizes(s, d, k, a % 0x1000, x);
    CanUnshareAt(s, a);
    var (t, ok) := UserWrite(s, d, k, a % 0x1000, x);
    if ok {
      AtPage(s, a);
      var v := Page(s, d, k).value;
      OnlyPageBytes(s, t, a, v[a % 0x1000 := x]);
      forall b: nat | Tracked(b) ensures ByteAt(t, b) == if b == a then Some(x) else ByteAt(s, b) {
        StoredByte(s, a, x, b);
      }
    } else {
      SamePagesSameBytes(s, t);
    }
  }

  lemma StoredByte(s: Mem, a: nat, x: byte, b: nat)
    requires Inv(s) && User32(a) && Tracked(b) && Key(DirIndex(a), TableIndex(a))
    requires Page(s, DirIndex(a), TableIndex(a)).Some?
    ensures var v := Page(s, DirIndex(a), TableIndex(a)).value;
      && |v| == PAGE_SIZE
      && (if b / 0x1000 == a / 0x1000 then Some(v[a % 0x1000 := x][b % 0x1000]) else ByteAt(s, b))
        == if b == a then Some(x) else ByteAt(s, b)
  {
    AtPage(s, b);
    SameEntryIff(a, b);
    if b / 0x1000 == a / 0x1000 { OneByte(Page(s, DirIndex(a), TableIndex(a)).value, a, x, b); }
  }

  lemma CanUnshareAt(s: Mem, a: nat)
    requires Inv(s) && User32(a) && DirIndex(a) < SLOTS && TableIndex(a) < SLOTS
    ensures CanUnshare(s, DirIndex(a), TableIndex(a)) <==> AloneAt(s, a) || 0 in s.counts
  {
    MappedAt(s, a);
  }

  lemma StoreSizes(s: Mem, d: nat, k: nat, o: nat, x: byte)
    requires Inv(s) && User(d) && k < SLOTS && o < PAGE_SIZE
    requires Entry(s, d, k).present ==> Entry(s, d, k).frame < |s.data|
    ensures var t := UserWrite(s, d, k, o, x).0; t.start == s.start && |t.counts| == |s.counts|
  {
    hide TablesApart, Counted, WritableAlone, SamePlace, HeldOnce, DoWpPage;
    if Entry(s, d, k).present { FaultEntries(s, d, k); }
  }

  // ---- map_page, get_empty_page --------------------------------------------------------------

  // A frame outside main memory, or not counted exactly once, is refused and nothing changes.
  lemma MapRefused(s: Mem, f: nat, a: nat)
    requires Shaped(s) && a < 0x1_0000_0000
    ensures DirIndex(a) < SLOTS && TableIndex(a) < SLOTS
    ensures f < s.start || f >= s.start + |s.counts| || s.counts[f - s.start] != 1 ==>
      MapPage(s, f, DirIndex(a), TableIndex(a)) == (s, 0)
  {
    Indices(a);
  }

  lemma MapEntry(s: Mem, f: nat, d: nat, k: nat)
    requires Inv(s) && f in s.held && User(d) && k < SLOTS && MapPage(s, f, d, k).1 != 0
    ensures var (t, r) := MapPage(s, f, d, k);
      r == f && t.dir[d].present && Entry(t, d, k) == Pte(f, true, true) && f !in t.held
      && t.start == s.start && |t.counts| == |s.counts|
  {
    hide Counted, WritableAlone, SamePlace;
  }

  // A frame that the kernel holds, mapped at a where no page is: it fails, changing nothing, exactly when the
  // page needs a table and no frame is free. Otherwise the page of a is the frame, writable, and every other
  // byte reads as before.
  lemma MapByAddress(s: Mem, f: nat, a: nat)
    requires Inv(s) && User32(a) && f in s.held && ByteAt(s, a).None?
    ensures DirIndex(a) < SLOTS && TableIndex(a) < SLOTS && f < |s.data|
    ensures var (t, r) := MapPage(s, f, DirIndex(a), TableIndex(a));
      && (r == 0 <==> !s.dir[a / 0x40_0000].present && 0 !in s.counts)
      && (r == 0 ==> t == s)
      && (r != 0 ==> r == f && Inv(t) && WritableAt(t, a) && f !in t.held)
      && (r != 0 ==> forall b: nat :: Tracked(b) ==>
            ByteAt(t, b) == if b / 0x1000 == a / 0x1000 then Some(s.data[f][b % 0x1000]) else ByteAt(s, b))
  {
    hide TablesApart, Counted, WritableAlone, SamePlace, MapPage, ByteAt, Page, OnlyPage;
    MappedAt(s, a);
    Indices(a);
    var d, k := DirIndex(a), TableIndex(a);
    MapPageExact(s, f, d, k);
    var (t, r) := MapPage(s, f, d, k);
    if r != 0 {
      MapEntry(s, f, d, k);
      MappedAt(t, a);
      OnlyPageBytes(s, t, a, s.data[f]);
    }
  }

  lemma GrownEntry(s: Mem, d: nat, k: nat)
    requires Inv(s) && User(d) && k < SLOTS && !Entry(s, d, k).present
    ensures var (t, ok) := GetEmptyPage(s, d, k);
      && (ok ==> Entry(t, d, k).present && Entry(t, d, k).writable)
      && t.start == s.start && |t.counts| == |s.counts|
  {
    hide TablesApart, Counted, WritableAlone, SamePlace, MapPage;
    GetPhyPageKeeps(s);
    var (t, f) := GetPhyPage(s);
    if f != 0 {
      TookKeeps(s, t, f);
      MapPageExact(t, f, d, k);
      if MapPage(t, f, d, k).1 != 0 { MapEntry(t, f, d, k); }
    }
  }

  // A new page at a where none is: it succeeds exactly when there is a frame for the page, and one more if it
  // needs a table. Then the page of a reads 0 and is writable; every other byte reads as before. If it fails,
  // every byte, the counts, the directory and the kernel's frames are as before.
  lemma GrowByAddress(s: Mem, a: nat)
    requires Inv(s) && User32(a) && ByteAt(s, a).None?
    ensures DirIndex(a) < SLOTS && TableIndex(a) < SLOTS
    ensures var (t, ok) := GetEmptyPage(s, DirIndex(a), TableIndex(a));
      && Inv(t) && t.start == s.start && |t.counts| == |s.counts|
      && (ok <==> (if s.dir[a / 0x40_0000].present then 1 else 2) <= |FreeFrames(s)|)
      && (ok ==> WritableAt(t, a))
      && (ok ==> forall b: nat :: Tracked(b) ==>
            ByteAt(t, b) == if b / 0x1000 == a / 0x1000 then Some(0) else ByteAt(s, b))
      && (!ok ==> t.counts == s.counts && t.dir == s.dir && t.held == s.held && BytesSame(s, t))
  {
    hide TablesApart, Counted, WritableAlone, SamePlace, HeldOnce, GetEmptyPage, ByteAt, Page, FreeFrames;
    MappedAt(s, a);
    Indices(a);
    var d, k := DirIndex(a), TableIndex(a);
    GetEmptyPageKeeps(s, d, k);
    GetEmptyPageFrames(s, d, k);
    GrownEntry(s, d, k);
    var (t, ok) := GetEmptyPage(s, d, k);
    if ok {
      MappedAt(t, a);
      OnlyPageBytes(s, t, a, Zeros());
    } else {
      forall e, j | Key(e, j) ensures Page(t, e, j) == Page(s, e, j) { NoPage(s, d, k); }
      SamePagesSameBytes(s, t);
    }
  }

  lemma NoPage(s: Mem, d: nat, k: nat)
    requires Inv(s) && User(d) && k < SLOTS && !Entry(s, d, k).present
    ensures Page(s, d, k) == None
  {
  }
}
