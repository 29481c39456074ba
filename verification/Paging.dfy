// mm/memory.c and copy_memory of kernel/fork.c, in place.
module Paging {
  import opened Base
  import M = PagingModel
  import R = PagingRefinement

  // The kernel's table for slot d maps linear address a to physical address a.
  function IdentityTable(d: nat): (r: seq<M.Pte>)
    ensures |r| == M.SLOTS && forall k :: 0 <= k < M.SLOTS ==> r[k] == M.Pte(M.SLOTS * d + k, true, true)
  {
    seq(M.SLOTS, k requires 0 <= k => M.Pte(M.SLOTS * d + k, true, true))
  }

  // The directory and tables that the constructor fills in are those of a booted machine.
  lemma BootLayout(m: M.Mem, kernelTables: nat)
    requires M.KERNEL_ENTRIES <= m.start && kernelTables + M.WINDOW <= m.start && m.held == {}
    requires |m.dir| == M.SLOTS && |m.tables| == |m.data| == m.start + |m.counts|
    requires forall d :: 0 <= d < M.SLOTS ==>
      m.dir[d] == if d < M.WINDOW then M.Pte(kernelTables + d, true, true) else M.NO_PTE
    requires forall f :: 0 <= f < |m.tables| ==>
      m.tables[f] ==
        if kernelTables <= f < kernelTables + M.WINDOW then IdentityTable(f - kernelTables) else M.EmptyTable()
    requires forall f :: 0 <= f < |m.data| ==> m.data[f] == M.Zeros()
    requires forall i :: 0 <= i < |m.counts| ==> m.counts[i] == 0
    ensures M.Shaped(m) && R.Booted(m)
  {
    assert m.tables[kernelTables] == IdentityTable(0);
  }

  class Memory {
    const start: nat
    const counts: array<nat>          // mem_map
    const dir: array<M.Pte>           // sys_pgdir
    const tables: array<seq<M.Pte>>   // frames read as page tables
    const data: array<seq<byte>>      // frames read as bytes
    ghost var held: set<nat>

    ghost predicate Valid()
      reads this, counts, dir, tables, data
    {
      && counts as object != dir && counts as object != tables && counts as object != data
      && dir as object != tables && dir as object != data && tables as object != data
      && M.Shaped(Abs())
    }

    ghost function Abs(): M.Mem
      reads this, counts, dir, tables, data
    {
      M.Mem(start, counts[..], dir[..], tables[..], data[..], held)
    }

    // The state that mem_init and the boot code leave: `pages` free frames from `start` on, and the
    // kernel's 16 tables in the frames from `kernelTables` on.
    constructor (start: nat, pages: nat, kernelTables: nat)
      requires M.KERNEL_ENTRIES <= start && kernelTables + M.WINDOW <= start
      ensures Valid() && R.Booted(Abs()) && this.start == start && counts.Length == pages
    {
      hide M.Shaped, R.Booted;
      this.start := start;
      counts := new nat[pages](i => 0);
      dir := new M.Pte[M.SLOTS](d => if 0 <= d < M.WINDOW then M.Pte(kernelTables + d, true, true) else M.NO_PTE);
      tables := new seq<M.Pte>[start + pages](f =>
        if kernelTables <= f < kernelTables + M.WINDOW then IdentityTable(f - kernelTables) else M.EmptyTable());
      data := new seq<byte>[start + pages](f => M.Zeros());
      held := {};
      new;
      assert forall d :: 0 <= d < M.SLOTS ==>
        dir[..][d] == if d < M.WINDOW then M.Pte(kernelTables + d, true, true) else M.NO_PTE;
      assert forall f :: 0 <= f < data.Length ==> data[..][f] == M.Zeros();
      assert forall f :: 0 <= f < tables.Length ==>
        tables[..][f] ==
          if kernelTables <= f < kernelTables + M.WINDOW then IdentityTable(f - kernelTables) else M.EmptyTable();
      BootLayout(Abs(), kernelTables);
    }

    // ---- single writes ---------------------------------------------------------------------

    method PutCount(f: nat, n: nat)
      requires Valid() && M.InMain(Abs(), f) && n < 256
      modifies counts
      ensures Valid() && Abs() == M.SetCount(old(Abs()), f, n)
    {
      counts[f - start] := n;
      assert counts[..] == old(counts[..])[f - start := n];
    }

    method PutEntry(d: nat, k: nat, e: M.Pte)
      requires Valid() && d < M.SLOTS && k < M.SLOTS && dir[d].present
      modifies tables
      ensures Valid() && Abs() == M.SetEntry(old(Abs()), d, k, e)
    {
      var f := dir[d].frame;
      tables[f] := tables[f][k := e];
      assert tables[..] == old(tables[..])[f := old(tables[..])[f][k := e]];
    }

    method PutDir(d: nat, e: M.Pte)
      requires Valid() && d < M.SLOTS && (e.present ==> e.frame < tables.Length)
      modifies dir
      ensures Valid() && Abs() == old(Abs()).(dir := old(Abs()).dir[d := e])
    {
      dir[d] := e;
      assert dir[..] == old(dir[..])[d := e];
    }

    // ---- frames ----------------------------------------------------------------------------

    method GetPhyPage() returns (f: nat)
      requires Valid()
      modifies this, counts, tables, data
      ensures Valid() && (Abs(), f) == M.GetPhyPage(old(Abs()))
      ensures f == 0 ==> Abs() == old(Abs())
      ensures f != 0 ==> M.InMain(Abs(), f) && Abs().dir == old(Abs()).dir
    {
      var i := 0;
      while i < counts.Length && counts[i] != 0
        invariant i <= counts.Length && M.FirstFree(counts[..], 0) == M.FirstFree(counts[..], i)
      {
        i := i + 1;
      }
      if i >= counts.Length {
        return 0;
      }
      f := start + i;
      counts[i] := 1;
      tables[f] := M.EmptyTable();
      data[f] := M.Zeros();
      held := held + {f};
      assert counts[..] == old(counts[..])[i := 1];
      assert tables[..] == old(tables[..])[f := M.EmptyTable()];
      assert data[..] == old(data[..])[f := M.Zeros()];
    }

    method FreePhyPage(f: nat)
      requires Valid()
      modifies this, counts
      ensures Valid() && Abs() == M.FreePhyPage(old(Abs()), f)
    {
      if f < start || f >= start + counts.Length {
        return;
      }
      if counts[f - start] == 0 {
        return;
      }
      PutCount(f, counts[f - start] - 1);
      held := held - {f};
    }

    // ---- free_page_tables ------------------------------------------------------------------

    method ClearTable(d: nat)
      requires Valid() && d < M.SLOTS && dir[d].present
      modifies this, counts, tables
      ensures Valid() && Abs() == M.ClearEntries(old(Abs()), d, M.SLOTS)
    {
      var i := 0;
      while i < M.SLOTS
        invariant i <= M.SLOTS && Valid() && dir[d].present && Abs() == M.ClearEntries(old(Abs()), d, i)
      {
        var e := tables[dir[d].frame][i];
        if e.present {
          FreePhyPage(e.frame);
        }
        PutEntry(d, i, M.NO_PTE);
        i := i + 1;
      }
    }

    method FreeSlot(d: nat)
      requires Valid() && d < M.SLOTS
      modifies this, counts, dir, tables
      ensures Valid() && Abs() == M.FreeSlot(old(Abs()), d)
    {
      hide M.ClearEntries;
      if dir[d].present {
        ClearTable(d);
        FreePhyPage(dir[d].frame);
        PutDir(d, M.NO_PTE);
      }
    }

    method FreeRange(first: nat, count: nat)
      requires Valid() && first + count <= M.SLOTS
      modifies this, counts, dir, tables
      ensures Valid() && Abs() == M.FreeSlots(old(Abs()), first, count)
    {
      hide M.FreeSlot;
      var d, n := first, count;
      while n > 0
        invariant d + n == first + count && Valid()
        invariant M.FreeSlots(Abs(), d, n) == M.FreeSlots(old(Abs()), first, count)
      {
        FreeSlot(d);
        d, n := d + 1, n - 1;
      }
    }

    method FreePageTables(addr: nat, size: nat)
      requires Valid() && M.DirIndex(addr) + M.SlotsFor(size) <= M.SLOTS
      modifies this, counts, dir, tables
      ensures Valid() && Abs() == M.FreePageTables(old(Abs()), addr, size)
    {
      if addr % M.SLOT_SIZE != 0 || addr < (start + counts.Length) * M.PAGE_SIZE {
        return;
      }
      FreeRange(M.DirIndex(addr), M.SlotsFor(size));
    }

    // ---- copy_page_tables ------------------------------------------------------------------

    method CopyEntry(fd: nat, td: nat, k: nat)
      requires Valid() && fd < M.SLOTS && td < M.SLOTS && k < M.SLOTS && dir[fd].present && dir[td].present
      modifies counts, tables
      ensures Valid() && Abs() == M.CopyEntry(old(Abs()), fd, td, k)
    {
      var page := tables[dir[fd].frame][k];
      if page.present {
        page := page.(writable := false);
        PutEntry(td, k, page);
        if start <= page.frame < start + counts.Length {
          PutEntry(fd, k, page);
          PutCount(page.frame, (counts[page.frame - start] + 1) % 256);
        }
      }
    }

    method CopyTable(fd: nat, td: nat, n: nat)
      requires Valid() && fd < M.SLOTS && td < M.SLOTS && n <= M.SLOTS && dir[fd].present && dir[td].present
      modifies counts, tables
      ensures Valid() && Abs() == M.CopyEntries(old(Abs()), fd, td, n)
    {
      hide M.CopyEntry;
      var k := 0;
      while k < n
        invariant k <= n && Valid() && Abs() == M.CopyEntries(old(Abs()), fd, td, k)
      {
        CopyEntry(fd, td, k);
        k := k + 1;
      }
    }

    method CopySlot(fd: nat, td: nat, n: nat) returns (o: M.Outcome)
      requires Valid() && fd < M.SLOTS && td < M.SLOTS && n <= M.SLOTS
      modifies this, counts, dir, tables, data
      ensures Valid() && (Abs(), o) == M.CopySlot(old(Abs()), fd, td, n)
    {
      hide M.CopyEntries, M.GetPhyPage;
      if dir[td].present {
        return M.Halted;
      }
      if !dir[fd].present {
        return M.Done;
      }
      var f := GetPhyPage();
      if f == 0 {
        return M.NoMemory;
      }
      PutDir(td, M.Pte(f, true, true));
      held := held - {f};
      CopyTable(fd, td, n);
      return M.Done;
    }

    method CopyRange(from: nat, to: nat, count: nat, n: nat) returns (o: M.Outcome)
      requires Valid() && from + count <= M.SLOTS && to + count <= M.SLOTS && n <= M.SLOTS
      modifies this, counts, dir, tables, data
      ensures Valid() && (Abs(), o) == M.CopySlots(old(Abs()), from, to, count, n)
    {
      hide M.CopySlot;
      var fd, td, c := from, to, count;
      while c > 0
        invariant fd + c == from + count && td + c == to + count && Valid()
        invariant M.CopySlots(Abs(), fd, td, c, n) == M.CopySlots(old(Abs()), from, to, count, n)
      {
        o := CopySlot(fd, td, n);
        if o != M.Done {
          return;
        }
        fd, td, c := fd + 1, td + 1, c - 1;
      }
      return M.Done;
    }

    method CopyPageTables(from: nat, to: nat, size: nat) returns (o: M.Outcome)
      requires Valid() && M.DirIndex(from) + M.SlotsFor(size) <= M.SLOTS && M.DirIndex(to) + M.SlotsFor(size) <= M.SLOTS
      modifies this, counts, dir, tables, data
      ensures Valid() && (Abs(), o) == M.CopyPageTables(old(Abs()), from, to, size)
    {
      if from % M.SLOT_SIZE != 0 || to % M.SLOT_SIZE != 0 {
        return M.Misaligned;
      }
      var n := if from == 0 then M.KERNEL_ENTRIES else M.SLOTS;
      o := CopyRange(M.DirIndex(from), M.DirIndex(to), M.SlotsFor(size), n);
    }

    // copy_memory of kernel/fork.c. The segment bases and limits of the parent come as values.
    method CopyMemory(codeBase: nat, dataBase: nat, codeLimit: nat, dataLimit: nat, procNr: nat) returns (o: M.Outcome)
      requires Valid() && codeBase % M.PROCESS_MEM_SPACE == 0 && codeBase / M.PROCESS_MEM_SPACE < M.NR_PROCESS
      requires 0 < procNr < M.NR_PROCESS && dataLimit <= M.PROCESS_MEM_SPACE
      modifies this, counts, dir, tables, data
      ensures Valid()
      ensures (Abs(), o) == M.CopyMemory(old(Abs()), codeBase, dataBase, codeLimit, dataLimit, procNr)
    {
      hide M.CopySlots, M.FreeSlots, M.CopyPageTables, M.FreePageTables;
      if codeLimit != dataLimit || codeBase != dataBase {
        return M.Halted;
      }
      var newBase := procNr * M.PROCESS_MEM_SPACE;
      M.WindowBase(procNr);
      M.WindowBase(codeBase / M.PROCESS_MEM_SPACE);
      M.ProcessSlots(dataLimit);
      o := CopyPageTables(codeBase, newBase, dataLimit);
      if o == M.NoMemory {
        FreePageTables(newBase, dataLimit);
      }
    }

    // ---- map_page, get_empty_page ----------------------------------------------------------

    method MapPage(f: nat, address: nat) returns (r: nat)
      requires Valid() && M.DirIndex(address) < M.SLOTS
      modifies this, counts, dir, tables, data
      ensures Valid() && (Abs(), r) == M.MapPage(old(Abs()), f, M.DirIndex(address), M.TableIndex(address))
    {
      var d, k := M.DirIndex(address), M.TableIndex(address);
      if f < start || f >= start + counts.Length {
        return 0;
      }
      if counts[f - start] != 1 {
        return 0;
      }
      if !dir[d].present {
        var g := GetPhyPage();
        if g == 0 {
          return 0;
        }
        PutDir(d, M.Pte(g, true, true));
        held := held - {g};
      }
      PutEntry(d, k, M.Pte(f, true, true));
      held := held - {f};
      return f;
    }

    method GetEmptyPage(address: nat) returns (r: nat)
      requires Valid() && M.DirIndex(address) < M.SLOTS
      modifies this, counts, dir, tables, data
      ensures Valid()
      ensures var (t, ok) := M.GetEmptyPage(old(Abs()), M.DirIndex(address), M.TableIndex(address));
        Abs() == t && r == if ok then address else 0
    {
      var page := GetPhyPage();
      if page == 0 {
        return 0;
      }
      var g := MapPage(page, address);
      if g == 0 {
        FreePhyPage(page);
        return 0;
      }
      return address;
    }

    // ---- do_wp_page ------------------------------------------------------------------------

    method DoWpPage(address: nat)
      requires Valid() && M.DirIndex(address) < M.SLOTS && dir[M.DirIndex(address)].present
      requires tables[dir[M.DirIndex(address)].frame][M.TableIndex(address)].frame < data.Length
      modifies this, counts, tables, data
      ensures Valid() && Abs() == M.DoWpPage(old(Abs()), M.DirIndex(address), M.TableIndex(address))
    {
      var d, k := M.DirIndex(address), M.TableIndex(address);
      var pte := tables[dir[d].frame][k];
      var oldPage := pte.frame;
      if start <= oldPage && counts[oldPage - start] == 1 {
        PutEntry(d, k, pte.(writable := true));
        return;
      }
      var newPage := GetPhyPage();
      if newPage != 0 {
        MoveTo(d, k, newPage);
      }
    }

    // Entry (d, k) leaves its frame for a copy in newPage.
    method MoveTo(d: nat, k: nat, newPage: nat)
      requires Valid() && d < M.SLOTS && k < M.SLOTS && dir[d].present && newPage < data.Length
      requires tables[dir[d].frame][k].frame < data.Length
      modifies this, counts, tables, data
      ensures Valid() && Abs() == M.MoveTo(old(Abs()), d, k, newPage)
    {
      var oldPage := tables[dir[d].frame][k].frame;
      if start <= oldPage {
        PutCount(oldPage, (counts[oldPage - start] + 255) % 256);
      }
      PutEntry(d, k, M.Pte(newPage, true, true));
      CopyPage(newPage, oldPage);
      held := held - {newPage};
    }

    method CopyPage(to: nat, from: nat)
      requires Valid() && to < data.Length && from < data.Length
      modifies data
      ensures Valid() && Abs() == old(Abs()).(data := old(Abs()).data[to := old(Abs()).data[from]])
    {
      data[to] := data[from];
      assert data[..] == old(data[..])[to := old(data[..])[from]];
    }
  }
}
