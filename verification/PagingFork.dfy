// Fork and exit: copying the slots of one process to another, freeing them, and the rollback of a
// copy that ran out of frames.
module PagingFork {
  import opened Base
  import opened PagingModel
  import opened PagingInvariant
  import opened PagingSteps
  import opened PagingTables

  // ---- freeing -------------------------------------------------------------------------------

  // The first n entries of slot d are absent in t and nothing else changed.
  ghost predicate Cleared(s: Mem, t: Mem, d: nat, n: nat)
    requires Shaped(s) && Shaped(t) && d < SLOTS && n <= SLOTS
  {
    && t.start == s.start && |t.counts| == |s.counts| && t.held == s.held && t.data == s.data && t.dir == s.dir
    && forall c, j :: 0 <= c < SLOTS && 0 <= j < SLOTS ==>
         Entry(t, c, j) == if c == d && j < n then NO_PTE else Entry(s, c, j)
  }

  lemma {:induction false} ClearEntriesKeeps(s: Mem, d: nat, n: nat)
    requires Inv(s) && User(d) && s.dir[d].present && n <= SLOTS
    ensures Inv(ClearEntries(s, d, n)) && Cleared(s, ClearEntries(s, d, n), d, n)
  {
    hide TablesApart, Counted, WritableAlone, SamePlace, HeldOnce, ClearEntry;
    if n > 0 {
      ClearEntriesKeeps(s, d, n - 1);
      ClearNext(s, ClearEntries(s, d, n - 1), d, n);
    }
  }

  lemma ClearNext(s: Mem, t: Mem, d: nat, n: nat)
    requires Inv(s) && Inv(t) && User(d) && t.dir[d].present && 0 < n <= SLOTS && Cleared(s, t, d, n - 1)
    ensures Inv(ClearEntry(t, d, n - 1)) && Cleared(s, ClearEntry(t, d, n - 1), d, n)
  {
    hide TablesApart, Counted, WritableAlone, SamePlace, ClearEntry, Cleared;
    ClearEntryKeeps(t, d, n - 1);
    ClearedNext(s, t, ClearEntry(t, d, n - 1), d, n);
  }

  lemma ClearedNext(s: Mem, t: Mem, u: Mem, d: nat, n: nat)
    requires Shaped(s) && Shaped(t) && Shaped(u) && d < SLOTS && 0 < n <= SLOTS && 0 !in s.held
    requires Cleared(s, t, d, n - 1) && OneEntry(t, u, d, n - 1, NO_PTE, 0) && u.data == t.data
    ensures Cleared(s, u, d, n)
  {
  }

  // t is s with the slots d .. d + n - 1 empty.
  ghost predicate SlotsGone(s: Mem, t: Mem, d: nat, n: nat)
    requires Shaped(s) && Shaped(t) && d + n <= SLOTS
  {
    && t.start == s.start && |t.counts| == |s.counts| && t.held == s.held && t.data == s.data
    && (forall c :: 0 <= c < SLOTS ==> t.dir[c] == if d <= c < d + n then NO_PTE else s.dir[c])
    && forall c, j :: 0 <= c < SLOTS && 0 <= j < SLOTS && !(d <= c < d + n) ==> Entry(t, c, j) == Entry(s, c, j)
  }

  lemma FreeSlotKeeps(s: Mem, d: nat)
    requires Inv(s) && User(d)
    ensures Inv(FreeSlot(s, d)) && SlotsGone(s, FreeSlot(s, d), d, 1)
  {
    hide Counted, WritableAlone, SamePlace, HeldOnce, ClearEntries;
    if s.dir[d].present {
      ClearEntriesKeeps(s, d, SLOTS);
      var t := ClearEntries(s, d, SLOTS);
      DropTableKeeps(t, d);
      GoneAfterClear(s, t, DropTable(t, d), d);
    }
  }

  lemma GoneAfterClear(s: Mem, t: Mem, u: Mem, d: nat)
    requires Shaped(s) && Shaped(t) && Shaped(u) && User(d) && Cleared(s, t, d, SLOTS) && SlotGone(t, u, d)
    ensures SlotsGone(s, u, d, 1)
  {
  }

  lemma GoneThenGone(s: Mem, t: Mem, u: Mem, d: nat, n: nat)
    requires Shaped(s) && Shaped(t) && Shaped(u) && 0 < n && d + n <= SLOTS
    requires SlotsGone(s, t, d, 1) && SlotsGone(t, u, d + 1, n - 1)
    ensures SlotsGone(s, u, d, n)
  {
  }

  // free_page_tables: every page of the range is unmapped, every other entry and page is unchanged.
  lemma {:induction false} FreeSlotsKeeps(s: Mem, d: nat, n: nat)
    requires Inv(s) && WINDOW <= d && d + n <= SLOTS
    ensures Inv(FreeSlots(s, d, n)) && SlotsGone(s, FreeSlots(s, d, n), d, n)
    decreases n
  {
    hide TablesApart, Counted, WritableAlone, SamePlace, HeldOnce, FreeSlot;
    if n > 0 {
      FreeSlotKeeps(s, d);
      var t := FreeSlot(s, d);
      FreeSlotsKeeps(t, d + 1, n - 1);
      GoneThenGone(s, t, FreeSlots(t, d + 1, n - 1), d, n);
    }
  }

  // ---- copying -------------------------------------------------------------------------------

  // Outside the slots td .. td + c - 1, t keeps the entries (up to the write bit) and pages of s.
  ghost predicate KeptOutside(s: Mem, t: Mem, td: nat, c: nat)
    requires Shaped(s) && Shaped(t) && td + c <= SLOTS
  {
    && t.start == s.start && |t.counts| == |s.counts| && t.held == s.held
    && (forall d :: 0 <= d < SLOTS && !(td <= d < td + c) ==> t.dir[d] == s.dir[d])
    && (forall d, k :: 0 <= d < SLOTS && 0 <= k < SLOTS && !(td <= d < td + c) ==>
         SameFrame(Entry(s, d, k), Entry(t, d, k)))
    && (forall d, k :: Key(d, k) && !(td <= d < td + c) ==> Page(t, d, k) == Page(s, d, k))
  }

  // Only the slots fd .. fd + c - 1 and td .. td + c - 1 can have changed entries.
  ghost predicate OthersSame(s: Mem, t: Mem, fd: nat, td: nat, c: nat)
    requires Shaped(s) && Shaped(t)
  {
    forall d, k :: 0 <= d < SLOTS && 0 <= k < SLOTS && !(fd <= d < fd + c) && !(td <= d < td + c) ==>
      Entry(t, d, k) == Entry(s, d, k)
  }

  lemma CopiedPages(s: Mem, t: Mem, fd: nat, td: nat, n: nat)
    requires Shaped(s) && Shaped(t) && MayCopy(fd, td, n) && Copied(s, t, fd, td, n)
    requires forall k :: 0 <= k < SLOTS ==> !Entry(s, td, k).present
    ensures KeptOutside(s, t, td, 1) && OthersSame(s, t, fd, td, 1)
    ensures forall k :: 0 <= k < SLOTS ==> Page(t, td, k) == if k < n then Page(s, fd, k) else None
  {
    forall d, k | Key(d, k) && d != td ensures Page(t, d, k) == Page(s, d, k) {
      assert SameFrame(Entry(s, d, k), Entry(t, d, k));
    }
    forall k | 0 <= k < SLOTS ensures Page(t, td, k) == if k < n then Page(s, fd, k) else None {
      if k < n {
        assert SameFrame(Entry(s, fd, k), Entry(t, td, k));
      } else {
        assert SameFrame(Entry(s, td, k), Entry(t, td, k));
      }
    }
  }

  lemma TableReady(s: Mem, t: Mem, u: Mem, f: nat, td: nat)
    requires Inv(s) && Took(s, t, f) && Count(s, f) == 0 && User(td) && !s.dir[td].present
    requires u == InstallTable(t, td, f)
    ensures Inv(t) && Inv(u) && SameEntries(s, u) && u.held == s.held
    ensures u.dir == s.dir[td := Pte(f, true, true)]
    ensures forall d, k :: Key(d, k) ==> Page(u, d, k) == Page(s, d, k)
  {
    TookKeeps(s, t, f);
    InstallTableKeeps(t, td, f);
    TookPages(s, t, f);
    forall d, k | Key(d, k) ensures Page(u, d, k) == Page(s, d, k) {
      assert Page(t, d, k) == Page(s, d, k);
      assert Entry(u, d, k) == Entry(t, d, k);
    }
  }

  lemma CopySlotKeeps(s: Mem, fd: nat, td: nat, n: nat)
    requires Inv(s) && MayCopy(fd, td, n)
    ensures var (t, o) := CopySlot(s, fd, td, n);
      && Inv(t)
      && (o != Done ==> t == s)
      && (o == Halted ==> s.dir[td].present) && o != Misaligned
      && KeptOutside(s, t, td, 1) && OthersSame(s, t, fd, td, 1)
      && (o == Done ==> forall k :: 0 <= k < SLOTS ==> Page(t, td, k) == if k < n then Page(s, fd, k) else None)
  {
    hide Counted, WritableAlone, SamePlace, HeldOnce, CopyEntries;
    if s.dir[td].present || !s.dir[fd].present { return; }
    GetPhyPageKeeps(s);
    var (t, f) := GetPhyPage(s);
    if f == 0 { return; }
    var u := InstallTable(t, td, f);
    TableReady(s, t, u, f, td);
    CopyEntriesKeeps(u, fd, td, n);
    var v := CopyEntries(u, fd, td, n);
    CopiedPages(u, v, fd, td, n);
    KeptAfterTable(s, u, v, fd, td);
  }

  lemma KeptAfterTable(s: Mem, u: Mem, v: Mem, fd: nat, td: nat)
    requires Shaped(s) && Shaped(u) && Shaped(v) && User(td) && SameEntries(s, u) && u.held == s.held
    requires u.dir == s.dir[td := u.dir[td]] && KeptOutside(u, v, td, 1) && OthersSame(u, v, fd, td, 1)
    requires forall d, k :: Key(d, k) ==> Page(u, d, k) == Page(s, d, k)
    ensures KeptOutside(s, v, td, 1) && OthersSame(s, v, fd, td, 1)
  {
    forall d, k | 0 <= d < SLOTS && 0 <= k < SLOTS && d != td ensures SameFrame(Entry(s, d, k), Entry(v, d, k)) {
      assert SameFrame(Entry(u, d, k), Entry(v, d, k));
    }
  }

  // The callers of copy_page_tables: the same slots of another process, or slot 0 of process 0.
  predicate MayCopySlots(fd: nat, td: nat, c: nat, n: nat) {
    && fd + c <= SLOTS && WINDOW <= td && td + c <= SLOTS && c <= WINDOW && n <= SLOTS
    && (|| c == 0
        || (WINDOW <= fd && fd != td && fd % WINDOW == td % WINDOW)
        || (fd == 0 && c == 1 && n <= KERNEL_ENTRIES))
  }

  // The slots td .. td + c - 1 of t hold the first n entries of fd .. fd + c - 1 of s.
  ghost predicate PagesCopied(s: Mem, t: Mem, fd: nat, td: nat, c: nat, n: nat)
    requires Shaped(s) && Shaped(t) && MayCopySlots(fd, td, c, n)
  {
    forall d, k :: td <= d < td + c && 0 <= k < SLOTS ==>
      Page(t, d, k) == if k < n then Page(s, d - td + fd, k) else None
  }

  lemma KeptThenKept(s: Mem, t: Mem, u: Mem, td: nat, c: nat)
    requires Shaped(s) && Shaped(t) && Shaped(u) && c > 0 && td + c <= SLOTS
    requires KeptOutside(s, t, td, 1) && KeptOutside(t, u, td + 1, c - 1)
    ensures KeptOutside(s, u, td, c)
  {
    forall d, k | 0 <= d < SLOTS && 0 <= k < SLOTS && !(td <= d < td + c)
      ensures SameFrame(Entry(s, d, k), Entry(u, d, k))
    {
      assert SameFrame(Entry(s, d, k), Entry(t, d, k));
      assert SameFrame(Entry(t, d, k), Entry(u, d, k));
    }
    forall d, k | Key(d, k) && !(td <= d < td + c) ensures Page(u, d, k) == Page(s, d, k) {
      assert Page(t, d, k) == Page(s, d, k);
    }
  }

  lemma CopiedThenCopied(s: Mem, t: Mem, u: Mem, fd: nat, td: nat, c: nat, n: nat)
    requires Shaped(s) && Shaped(t) && Shaped(u) && c > 0 && MayCopySlots(fd, td, c, n)
    requires KeptOutside(s, t, td, 1) && KeptOutside(t, u, td + 1, c - 1)
    requires PagesCopied(t, u, fd + 1, td + 1, c - 1, n)
    requires forall k :: 0 <= k < SLOTS ==> Page(t, td, k) == if k < n then Page(s, fd, k) else None
    ensures PagesCopied(s, u, fd, td, c, n)
  {
    forall d, k | td <= d < td + c && 0 <= k < SLOTS
      ensures Page(u, d, k) == if k < n then Page(s, d - td + fd, k) else None {
      if d == td {
        assert Page(u, td, k) == Page(t, td, k);
      } else if k < n {
        assert Page(u, d, k) == Page(t, d - td + fd, k);
      }
    }
  }

  lemma OthersThenOthers(s: Mem, t: Mem, u: Mem, fd: nat, td: nat, c: nat)
    requires Shaped(s) && Shaped(t) && Shaped(u) && c > 0
    requires OthersSame(s, t, fd, td, 1) && OthersSame(t, u, fd + 1, td + 1, c - 1)
    ensures OthersSame(s, u, fd, td, c)
  {
    forall d, k | 0 <= d < SLOTS && 0 <= k < SLOTS && !(fd <= d < fd + c) && !(td <= d < td + c)
      ensures Entry(u, d, k) == Entry(s, d, k) {
      assert Entry(t, d, k) == Entry(s, d, k);
    }
  }

  // What a copy of c slots leaves behind, by outcome.
  ghost predicate CopyResult(s: Mem, t: Mem, o: Outcome, fd: nat, td: nat, c: nat, n: nat)
    requires Shaped(s) && Shaped(t) && MayCopySlots(fd, td, c, n)
  {
    && KeptOutside(s, t, td, c) && OthersSame(s, t, fd, td, c) && o != Misaligned
    && (o == Done ==> PagesCopied(s, t, fd, td, c, n))
    && (o == Halted ==> exists d :: td <= d < td + c && s.dir[d].present)
  }

  lemma CopyResultNext(s: Mem, t: Mem, u: Mem, o: Outcome, fd: nat, td: nat, c: nat, n: nat)
    requires Shaped(s) && Shaped(t) && Shaped(u) && c > 0 && MayCopySlots(fd, td, c, n)
    requires CopyResult(s, t, Done, fd, td, 1, n) && CopyResult(t, u, o, fd + 1, td + 1, c - 1, n)
    ensures CopyResult(s, u, o, fd, td, c, n)
  {
    KeptThenKept(s, t, u, td, c);
    OthersThenOthers(s, t, u, fd, td, c);
    if o == Done {
      forall k | 0 <= k < SLOTS ensures Page(t, td, k) == if k < n then Page(s, fd, k) else None {}
      CopiedThenCopied(s, t, u, fd, td, c, n);
    }
  }

  lemma CopySlotResult(s: Mem, fd: nat, td: nat, c: nat, n: nat)
    requires Inv(s) && c > 0 && MayCopySlots(fd, td, c, n)
    ensures var (t, o) := CopySlot(s, fd, td, n); Inv(t) && CopyResult(s, t, o, fd, td, 1, n)
  {
    hide TablesApart, Counted, WritableAlone, SamePlace, HeldOnce, CopySlot;
    CopySlotKeeps(s, fd, td, n);
  }

  // copy_page_tables, whatever its outcome.
  lemma {:induction false} CopySlotsKeeps(s: Mem, fd: nat, td: nat, c: nat, n: nat)
    requires Inv(s) && MayCopySlots(fd, td, c, n)
    ensures Inv(CopySlots(s, fd, td, c, n).0)
    ensures CopyResult(s, CopySlots(s, fd, td, c, n).0, CopySlots(s, fd, td, c, n).1, fd, td, c, n)
    decreases c
  {
    hide TablesApart, Counted, WritableAlone, SamePlace, HeldOnce, CopySlot;
    if c > 0 {
      CopySlotResult(s, fd, td, c, n);
      var (t, o) := CopySlot(s, fd, td, n);
      if o == Done {
        CopySlotsKeeps(t, fd + 1, td + 1, c - 1, n);
        var (u, o') := CopySlots(t, fd + 1, td + 1, c - 1, n);
        CopyResultNext(s, t, u, o', fd, td, c, n);
      } else {
        CopyStopped(s, t, o, fd, td, c, n);
      }
    }
  }

  lemma CopyStopped(s: Mem, t: Mem, o: Outcome, fd: nat, td: nat, c: nat, n: nat)
    requires Shaped(s) && Shaped(t) && c > 0 && MayCopySlots(fd, td, c, n)
    requires o != Done && CopyResult(s, t, o, fd, td, 1, n)
    ensures CopyResult(s, t, o, fd, td, c, n)
  {
  }

  // ---- fork and its rollback -----------------------------------------------------------------

  predicate MayFork(p: nat, q: nat, c: nat) {
    p < NR_PROCESS && 0 < q < NR_PROCESS && p != q && c <= WINDOW && (p == 0 ==> c <= 1)
  }

  // Two states with the same references have the same counts.
  lemma SameRefsSameCounts(s: Mem, t: Mem)
    requires Inv(s) && Inv(t) && t.start == s.start && |t.counts| == |s.counts| && t.dir == s.dir && t.held == s.held
    requires forall d, k :: 0 <= d < SLOTS && 0 <= k < SLOTS ==> SameFrame(Entry(s, d, k), Entry(t, d, k))
    ensures t.counts == s.counts
  {
    forall f | InMain(s, f) ensures Count(t, f) == Count(s, f) {
      forall x ensures x in Refs(t, f) <==> x in Refs(s, f) {
        assert x in Refs(t, f) <==> Points(t, x, f);
        assert x in Refs(s, f) <==> Points(s, x, f);
      }
      assert Refs(t, f) == Refs(s, f);
    }
    forall i | 0 <= i < |s.counts| ensures t.counts[i] == s.counts[i] {
      assert Count(t, s.start + i) == Count(s, s.start + i);
    }
  }

  // What t shows at (d, k) after process q copied c slots of process p in s.
  ghost predicate ForkedPage(s: Mem, t: Mem, p: nat, q: nat, c: nat, d: nat, k: nat)
    requires Shaped(s) && Shaped(t) && MayFork(p, q, c) && Key(d, k)
  {
    Page(t, d, k) ==
      if !(WINDOW * q <= d < WINDOW * q + c) then Page(s, d, k)
      else if k < EntriesToCopy(WINDOW * p) then Page(s, d - WINDOW * q + WINDOW * p, k)
      else None
  }

  // The child gets a copy of every page of the parent; nobody else's pages change.
  lemma ForkCopies(s: Mem, p: nat, q: nat, c: nat)
    requires Inv(s) && MayFork(p, q, c) && Fork(s, p, q, c).1 == Done
    ensures Inv(Fork(s, p, q, c).0)
    ensures forall d, k :: Key(d, k) ==> ForkedPage(s, Fork(s, p, q, c).0, p, q, c, d, k)
  {
    hide TablesApart, Counted, WritableAlone, SamePlace, HeldOnce, CopySlots, FreeSlots;
    CopySlotsKeeps(s, WINDOW * p, WINDOW * q, c, EntriesToCopy(WINDOW * p));
  }

  // When frames run out at any point, the rollback restores every count, the directory and every
  // page; only write bits of the parent's entries may have been cleared.
  lemma ForkRollsBack(s: Mem, p: nat, q: nat, c: nat)
    requires Inv(s) && MayFork(p, q, c) && Fork(s, p, q, c).1 == NoMemory
    requires forall d :: WINDOW * q <= d < WINDOW * q + c ==> !s.dir[d].present
    ensures var t := Fork(s, p, q, c).0;
      && Inv(t) && t.counts == s.counts && t.dir == s.dir && t.held == s.held
      && (forall d, k :: 0 <= d < SLOTS && 0 <= k < SLOTS ==> SameFrame(Entry(s, d, k), Entry(t, d, k)))
      && (forall d, k :: 0 <= d < SLOTS && 0 <= k < SLOTS && !(WINDOW * p <= d < WINDOW * p + c) ==>
           Entry(t, d, k) == Entry(s, d, k))
      && (forall d, k :: Key(d, k) ==> Page(t, d, k) == Page(s, d, k))
  {
    hide Counted, WritableAlone, SamePlace, HeldOnce, FreeSlots, CopySlots;
    var td := WINDOW * q;
    CopySlotsKeeps(s, WINDOW * p, td, c, EntriesToCopy(WINDOW * p));
    var t := CopySlots(s, WINDOW * p, td, c, EntriesToCopy(WINDOW * p)).0;
    FreeSlotsKeeps(t, td, c);
    var u := FreeSlots(t, td, c);
    RolledBack(s, t, u, WINDOW * p, td, c);
    SameRefsSameCounts(s, u);
  }

  lemma RolledBack(s: Mem, t: Mem, u: Mem, fd: nat, td: nat, c: nat)
    requires Shaped(s) && Shaped(t) && Shaped(u) && WINDOW <= td && td + c <= SLOTS
    requires KeptOutside(s, t, td, c) && OthersSame(s, t, fd, td, c) && SlotsGone(t, u, td, c)
    requires forall d :: td <= d < td + c ==> s.dir[d] == NO_PTE
    ensures u.dir == s.dir
    ensures forall d, k :: 0 <= d < SLOTS && 0 <= k < SLOTS ==> SameFrame(Entry(s, d, k), Entry(u, d, k))
    ensures forall d, k :: 0 <= d < SLOTS && 0 <= k < SLOTS && !(fd <= d < fd + c) ==> Entry(u, d, k) == Entry(s, d, k)
    ensures forall d, k :: Key(d, k) ==> Page(u, d, k) == Page(s, d, k)
  {
    forall d | 0 <= d < SLOTS ensures u.dir[d] == s.dir[d] {
      assert u.dir[d] == if td <= d < td + c then NO_PTE else t.dir[d];
    }
    forall d, k | Key(d, k) ensures Page(u, d, k) == Page(s, d, k) {
      if !(td <= d < td + c) { assert Page(t, d, k) == Page(s, d, k); }
    }
  }

  // The same holds when the copy meets no table of the child: it never halts the kernel.
  lemma ForkNeverHalts(s: Mem, p: nat, q: nat, c: nat)
    requires Inv(s) && MayFork(p, q, c)
    requires forall d :: WINDOW * q <= d < WINDOW * q + c ==> !s.dir[d].present
    ensures Fork(s, p, q, c).1 in {Done, NoMemory}
  {
    hide TablesApart, Counted, WritableAlone, SamePlace, HeldOnce, FreeSlots, CopySlots;
    CopySlotsKeeps(s, WINDOW * p, WINDOW * q, c, EntriesToCopy(WINDOW * p));
  }
}
