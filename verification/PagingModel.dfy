// The state that mm/memory.c works on, and each of its operations as a step on that state.
//
// Linear memory is one directory of 1024 slots; process p owns the 16 slots that start at 16 * p
// (PROCESS_MEM_SPACE is 64MB, a slot is 4MB). Slots below 16 are the kernel's identity map, which is
// also process 0. Physical memory is a row of 4KB frames; the frames from `start` on are main memory
// and each has a reference count in `counts`.
module PagingModel {
  import opened Base

  const SLOTS: nat := 1024          // entries in the directory and in each table
  const PAGE_SIZE: nat := 4096
  const WINDOW: nat := 16           // directory slots of one process
  const KERNEL_ENTRIES: nat := 160  // the 640KB copied when the source is address 0
  const NR_PROCESS: nat := 16

  // A directory or table entry: frame number, P bit and R/W bit.
  datatype Pte = Pte(frame: nat, present: bool, writable: bool)

  const NO_PTE := Pte(0, false, false)

  // A frame is seen as a table or as bytes. `held` lists the frames that the kernel has taken with
  // get_phy_page and not yet entered in the directory or in a table.
  datatype Mem = Mem(
    start: nat,
    counts: seq<nat>,
    dir: seq<Pte>,
    tables: seq<seq<Pte>>,
    data: seq<seq<byte>>,
    held: set<nat>
  )

  datatype Outcome = Done | NoMemory | Halted | Misaligned

  function Zeros(): (r: seq<byte>)
    ensures |r| == PAGE_SIZE && forall i :: 0 <= i < PAGE_SIZE ==> r[i] == 0
  {
    seq(PAGE_SIZE, i => 0)
  }

  function EmptyTable(): (r: seq<Pte>)
    ensures |r| == SLOTS && forall k :: 0 <= k < SLOTS ==> r[k] == NO_PTE
  {
    seq(SLOTS, i => NO_PTE)
  }

  predicate Shaped(s: Mem) {
    && 1 <= s.start
    && |s.dir| == SLOTS
    && |s.tables| == |s.data| == s.start + |s.counts|
    && (forall f :: 0 <= f < |s.tables| ==> |s.tables[f]| == SLOTS)
    && (forall f :: 0 <= f < |s.data| ==> |s.data[f]| == PAGE_SIZE)
    && (forall i :: 0 <= i < |s.counts| ==> s.counts[i] < 256)
    && (forall d :: 0 <= d < SLOTS && s.dir[d].present ==> s.dir[d].frame < |s.tables|)
  }

  predicate InMain(s: Mem, f: nat) { s.start <= f < s.start + |s.counts| }

  function Count(s: Mem, f: nat): nat
    requires InMain(s, f)
  {
    s.counts[f - s.start]
  }

  // The table entry that the directory leads to.
  function Entry(s: Mem, d: nat, k: nat): Pte
    requires Shaped(s) && d < SLOTS && k < SLOTS
  {
    if s.dir[d].present then s.tables[s.dir[d].frame][k] else NO_PTE
  }

  // ---- single writes -------------------------------------------------------------------------

  function SetCount(s: Mem, f: nat, n: nat): Mem
    requires InMain(s, f)
  {
    s.(counts := s.counts[f - s.start := n])
  }

  function SetEntry(s: Mem, d: nat, k: nat, e: Pte): Mem
    requires Shaped(s) && d < SLOTS && k < SLOTS && s.dir[d].present
  {
    s.(tables := s.tables[s.dir[d].frame := s.tables[s.dir[d].frame][k := e]])
  }

  // ---- frames: get_phy_page and free_phy_page ------------------------------------------------

  // The position of the first zero count at or after i, or |counts|.
  function FirstFree(counts: seq<nat>, i: nat): (r: nat)
    requires i <= |counts|
    ensures i <= r <= |counts|
    ensures r < |counts| ==> counts[r] == 0
    ensures forall j :: i <= j < r ==> counts[j] != 0
    decreases |counts| - i
  {
    if i == |counts| || counts[i] == 0 then i else FirstFree(counts, i + 1)
  }

  // Frame 0 stands for failure, as address 0 does in the source.
  function GetPhyPage(s: Mem): (r: (Mem, nat))
    requires Shaped(s)
    ensures Shaped(r.0)
  {
    var i := FirstFree(s.counts, 0);
    if i == |s.counts| then (s, 0)
    else
      var f := s.start + i;
      (s.(counts := s.counts[i := 1], tables := s.tables[f := EmptyTable()], data := s.data[f := Zeros()],
          held := s.held + {f}), f)
  }

  function FreePhyPage(s: Mem, f: nat): (r: Mem)
    requires Shaped(s)
    ensures Shaped(r)
  {
    if !InMain(s, f) || Count(s, f) == 0 then s
    else SetCount(s, f, Count(s, f) - 1).(held := s.held - {f})
  }

  // ---- free_page_tables ----------------------------------------------------------------------

  function ClearEntry(s: Mem, d: nat, k: nat): (r: Mem)
    requires Shaped(s) && d < SLOTS && k < SLOTS && s.dir[d].present
    ensures Shaped(r) && r.dir == s.dir
  {
    var e := Entry(s, d, k);
    var t := if e.present then FreePhyPage(s, e.frame) else s;
    SetEntry(t, d, k, NO_PTE)
  }

  // The first n entries of slot d's table cleared.
  function ClearEntries(s: Mem, d: nat, n: nat): (r: Mem)
    requires Shaped(s) && d < SLOTS && n <= SLOTS && s.dir[d].present
    ensures Shaped(r) && r.dir == s.dir
  {
    if n == 0 then s else ClearEntry(ClearEntries(s, d, n - 1), d, n - 1)
  }

  function DropTable(s: Mem, d: nat): (r: Mem)
    requires Shaped(s) && d < SLOTS && s.dir[d].present
    ensures Shaped(r)
  {
    FreePhyPage(s, s.dir[d].frame).(dir := s.dir[d := NO_PTE])
  }

  function FreeSlot(s: Mem, d: nat): (r: Mem)
    requires Shaped(s) && d < SLOTS
    ensures Shaped(r)
  {
    if !s.dir[d].present then s else DropTable(ClearEntries(s, d, SLOTS), d)
  }

  function FreeSlots(s: Mem, d: nat, n: nat): (r: Mem)
    requires Shaped(s) && d + n <= SLOTS
    ensures Shaped(r)
    decreases n
  {
    if n == 0 then s else FreeSlots(FreeSlot(s, d), d + 1, n - 1)
  }

  // ---- copy_page_tables ----------------------------------------------------------------------

  function CopyEntry(s: Mem, fd: nat, td: nat, k: nat): (r: Mem)
    requires Shaped(s) && fd < SLOTS && td < SLOTS && k < SLOTS
    requires s.dir[fd].present && s.dir[td].present
    ensures Shaped(r) && r.dir == s.dir
  {
    var e := Entry(s, fd, k);
    if !e.present then s
    else
      var c := e.(writable := false);
      var t := SetEntry(s, td, k, c);
      if InMain(s, c.frame) then SetCount(SetEntry(t, fd, k, c), c.frame, (Count(s, c.frame) + 1) % 256)
      else t
  }

  function CopyEntries(s: Mem, fd: nat, td: nat, n: nat): (r: Mem)
    requires Shaped(s) && fd < SLOTS && td < SLOTS && n <= SLOTS
    requires s.dir[fd].present && s.dir[td].present
    ensures Shaped(r) && r.dir == s.dir
  {
    if n == 0 then s else CopyEntry(CopyEntries(s, fd, td, n - 1), fd, td, n - 1)
  }

  // A frame the kernel holds becomes the table of slot d.
  function InstallTable(s: Mem, d: nat, f: nat): (r: Mem)
    requires Shaped(s) && d < SLOTS && f < |s.tables|
    ensures Shaped(r)
  {
    s.(dir := s.dir[d := Pte(f, true, true)], held := s.held - {f})
  }

  function CopySlot(s: Mem, fd: nat, td: nat, n: nat): (r: (Mem, Outcome))
    requires Shaped(s) && fd < SLOTS && td < SLOTS && n <= SLOTS
    ensures Shaped(r.0)
  {
    if s.dir[td].present then (s, Halted)
    else if !s.dir[fd].present then (s, Done)
    else
      var (t, f) := GetPhyPage(s);
      if f == 0 then (s, NoMemory)
      else (CopyEntries(InstallTable(t, td, f), fd, td, n), Done)
  }

  function CopySlots(s: Mem, fd: nat, td: nat, c: nat, n: nat): (r: (Mem, Outcome))
    requires Shaped(s) && fd + c <= SLOTS && td + c <= SLOTS && n <= SLOTS
    ensures Shaped(r.0)
    decreases c
  {
    if c == 0 then (s, Done)
    else
      var (t, o) := CopySlot(s, fd, td, n);
      if o != Done then (t, o) else CopySlots(t, fd + 1, td + 1, c - 1, n)
  }

  function EntriesToCopy(fd: nat): nat { if fd == 0 then KERNEL_ENTRIES else SLOTS }

  // What copy_memory comes to: process q receives c slots of process p, or is rolled back.
  function Fork(s: Mem, p: nat, q: nat, c: nat): (r: (Mem, Outcome))
    requires Shaped(s) && p < NR_PROCESS && q < NR_PROCESS && c <= WINDOW
    ensures Shaped(r.0)
  {
    var (t, o) := CopySlots(s, WINDOW * p, WINDOW * q, c, EntriesToCopy(WINDOW * p));
    if o == NoMemory then (FreeSlots(t, WINDOW * q, c), NoMemory) else (t, o)
  }

  // ---- the same at linear addresses ----------------------------------------------------------

  const SLOT_SIZE: nat := 0x40_0000
  const PROCESS_MEM_SPACE: nat := 0x400_0000

  // How many slots `size` bytes take, in 32-bit arithmetic.
  function SlotsFor(size: nat): nat { ((size + 0x3F_FFFF) % U32) / SLOT_SIZE }

  // The directory and table index of a linear address.
  function DirIndex(a: nat): nat { a / SLOT_SIZE }
  function TableIndex(a: nat): nat { a / PAGE_SIZE % SLOTS }

  // Process p starts at the first of its 16 slots.
  lemma WindowBase(p: nat)
    ensures p * PROCESS_MEM_SPACE % SLOT_SIZE == 0
    ensures DirIndex(p * PROCESS_MEM_SPACE) == WINDOW * p
  {
    assert p * PROCESS_MEM_SPACE == WINDOW * p * SLOT_SIZE;
  }

  lemma ProcessSlots(size: nat)
    requires size <= PROCESS_MEM_SPACE
    ensures SlotsFor(size) <= WINDOW
  {
  }

  function CopyPageTables(s: Mem, from: nat, to: nat, size: nat): (r: (Mem, Outcome))
    requires Shaped(s) && DirIndex(from) + SlotsFor(size) <= SLOTS && DirIndex(to) + SlotsFor(size) <= SLOTS
    ensures Shaped(r.0)
  {
    if from % SLOT_SIZE != 0 || to % SLOT_SIZE != 0 then (s, Misaligned)
    else CopySlots(s, DirIndex(from), DirIndex(to), SlotsFor(size), EntriesToCopy(DirIndex(from)))
  }

  // Addresses inside physical memory belong to the kernel and are left alone.
  function FreePageTables(s: Mem, addr: nat, size: nat): (r: Mem)
    requires Shaped(s) && DirIndex(addr) + SlotsFor(size) <= SLOTS
    ensures Shaped(r)
  {
    if addr % SLOT_SIZE != 0 || addr < (s.start + |s.counts|) * PAGE_SIZE then s
    else FreeSlots(s, DirIndex(addr), SlotsFor(size))
  }

  // copy_memory of kernel/fork.c. The segment bases and limits of the parent come as values; the
  // child's memory starts at its number times 64MB.
  function CopyMemory(s: Mem, codeBase: nat, dataBase: nat, codeLimit: nat, dataLimit: nat, procNr: nat)
    : (r: (Mem, Outcome))
    requires Shaped(s) && codeBase % PROCESS_MEM_SPACE == 0 && codeBase / PROCESS_MEM_SPACE < NR_PROCESS
    requires 0 < procNr < NR_PROCESS && dataLimit <= PROCESS_MEM_SPACE
    ensures Shaped(r.0)
  {
    if codeLimit != dataLimit || codeBase != dataBase then (s, Halted)
    else
      var newBase := procNr * PROCESS_MEM_SPACE;
      WindowBase(procNr);
      WindowBase(codeBase / PROCESS_MEM_SPACE);
      ProcessSlots(dataLimit);
      var (t, o) := CopyPageTables(s, codeBase, newBase, dataLimit);
      if o == NoMemory then (FreePageTables(t, newBase, dataLimit), NoMemory) else (t, o)
  }

  // ---- map_page, get_empty_page --------------------------------------------------------------

  // Returns the mapped frame, or 0.
  function MapPage(s: Mem, f: nat, d: nat, k: nat): (r: (Mem, nat))
    requires Shaped(s) && d < SLOTS && k < SLOTS
    ensures Shaped(r.0)
  {
    if !InMain(s, f) || Count(s, f) != 1 then (s, 0)
    else if s.dir[d].present then (SetEntry(s, d, k, Pte(f, true, true)).(held := s.held - {f}), f)
    else
      var (t, g) := GetPhyPage(s);
      if g == 0 then (s, 0)
      else (SetEntry(InstallTable(t, d, g), d, k, Pte(f, true, true)).(held := t.held - {g} - {f}), f)
  }

  function GetEmptyPage(s: Mem, d: nat, k: nat): (r: (Mem, bool))
    requires Shaped(s) && d < SLOTS && k < SLOTS
    ensures Shaped(r.0)
  {
    var (t, f) := GetPhyPage(s);
    if f == 0 then (s, false)
    else
      var (u, g) := MapPage(t, f, d, k);
      if g == 0 then (FreePhyPage(u, f), false) else (u, true)
  }

  // ---- do_wp_page and a store by the processor -----------------------------------------------

  // Entry (d, k) leaves its frame for a copy in frame f.
  function MoveTo(s: Mem, d: nat, k: nat, f: nat): (r: Mem)
    requires Shaped(s) && d < SLOTS && k < SLOTS && s.dir[d].present && f < |s.data|
    requires Entry(s, d, k).frame < |s.data|
    ensures Shaped(r)
  {
    var o := Entry(s, d, k).frame;
    var t := if InMain(s, o) then SetCount(s, o, (Count(s, o) + 255) % 256) else s;
    SetEntry(t, d, k, Pte(f, true, true)).(data := t.data[f := t.data[o]], held := t.held - {f})
  }

  function DoWpPage(s: Mem, d: nat, k: nat): (r: Mem)
    requires Shaped(s) && d < SLOTS && k < SLOTS && s.dir[d].present
    requires Entry(s, d, k).frame < |s.data|
    ensures Shaped(r)
  {
    var e := Entry(s, d, k);
    if InMain(s, e.frame) && Count(s, e.frame) == 1 then SetEntry(s, d, k, e.(writable := true))
    else
      var (t, f) := GetPhyPage(s);
      if f == 0 then s else MoveTo(t, d, k, f)
  }

  function StoreByte(s: Mem, f: nat, o: nat, b: byte): (r: Mem)
    requires Shaped(s) && f < |s.data| && o < PAGE_SIZE
    ensures Shaped(r)
  {
    s.(data := s.data[f := s.data[f][o := b]])
  }

  // A store to (d, k, o): a read-only page faults into do_wp_page first; the store is done if the
  // entry is writable afterwards. The result says whether it was done.
  function UserWrite(s: Mem, d: nat, k: nat, o: nat, b: byte): (r: (Mem, bool))
    requires Shaped(s) && d < SLOTS && k < SLOTS && o < PAGE_SIZE
    requires Entry(s, d, k).present ==> Entry(s, d, k).frame < |s.data|
    ensures Shaped(r.0)
  {
    if !Entry(s, d, k).present then (s, false)
    else
      var t := if Entry(s, d, k).writable then s else DoWpPage(s, d, k);
      var e := Entry(t, d, k);
      if e.writable && e.frame < |t.data| then (StoreByte(t, e.frame, o, b), true) else (t, false)
  }
}
