// Lines of mm/memory.c and kernel/fork.c that the model repairs, as they stand, and exactly when
// each agrees with the repaired operation.
module PagingAsWritten {
  import opened Base
  import opened PagingModel
  import opened PagingInvariant
  import opened PagingSteps
  import opened PagingTables
  import opened PagingFork

  // get_phy_page without the line that marks the frame used.
  function GetPhyPageAsWritten(s: Mem): (Mem, nat)
    requires Shaped(s)
  {
    var i := FirstFree(s.counts, 0);
    if i == |s.counts| then (s, 0)
    else (s.(tables := s.tables[s.start + i := EmptyTable()], data := s.data[s.start + i := Zeros()]), s.start + i)
  }

  // It hands out the same frame for ever, and is right only when there is none to hand out.
  lemma UnmarkedFrame(s: Mem)
    requires Shaped(s)
    ensures var (t, f) := GetPhyPageAsWritten(s);
      && Shaped(t) && GetPhyPageAsWritten(t).1 == f
      && ((t, f) == GetPhyPage(s) <==> 0 !in s.counts)
  {
    var (t, f) := GetPhyPageAsWritten(s);
    var i := FirstFree(s.counts, 0);
    if i < |s.counts| {
      assert GetPhyPage(s).0.counts[i] == 1;
    } else {
      assert 0 !in s.counts;
    }
  }

  // free_phy_page testing mem_map[0] in place of mem_map[i]; the byte wraps.
  function FreePhyPageAsWritten(s: Mem, f: nat): Mem
    requires Shaped(s)
  {
    if !InMain(s, f) || s.counts[0] == 0 then s
    else SetCount(s, f, (Count(s, f) + 255) % 256).(held := s.held - {f})
  }

  lemma WrongGuard(s: Mem, f: nat)
    requires Inv(s)
    ensures FreePhyPageAsWritten(s, f).counts == FreePhyPage(s, f).counts <==>
      !InMain(s, f) || (s.counts[0] == 0 <==> Count(s, f) == 0)
  {
    if InMain(s, f) {
      assert FreePhyPage(s, f).counts[f - s.start] == if Count(s, f) == 0 then 0 else Count(s, f) - 1;
      assert FreePhyPageAsWritten(s, f).counts[f - s.start] ==
        if s.counts[0] == 0 then Count(s, f) else (Count(s, f) + 255) % 256;
    }
  }

  // The inner loop of copy_page_tables: `continue` leaves both pointers on the absent entry.
  function CopyEntriesAsWritten(s: Mem, fd: nat, td: nat, k: nat, left: nat): (r: Mem)
    requires Shaped(s) && fd < SLOTS && td < SLOTS && k + left <= SLOTS && s.dir[fd].present && s.dir[td].present
    decreases left
  {
    if left == 0 then s
    else if !Entry(s, fd, k).present then CopyEntriesAsWritten(s, fd, td, k, left - 1)
    else CopyEntriesAsWritten(CopyEntry(s, fd, td, k), fd, td, k + 1, left - 1)
  }

  // The length of the leading run of present entries among k .. k + left - 1.
  function LeadingRun(s: Mem, d: nat, k: nat, left: nat): (r: nat)
    requires Shaped(s) && d < SLOTS && k + left <= SLOTS
    ensures r <= left && (forall j :: k <= j < k + r ==> Entry(s, d, j).present)
    ensures r < left ==> !Entry(s, d, k + r).present
    decreases left
  {
    if left == 0 || !Entry(s, d, k).present then 0 else 1 + LeadingRun(s, d, k + 1, left - 1)
  }

  lemma {:induction false} StuckOnAbsent(s: Mem, fd: nat, td: nat, k: nat, left: nat)
    requires Shaped(s) && fd < SLOTS && td < SLOTS && k + left <= SLOTS && k < SLOTS && s.dir[fd].present
    requires s.dir[td].present
    requires !Entry(s, fd, k).present
    ensures CopyEntriesAsWritten(s, fd, td, k, left) == s
    decreases left
  {
    if left > 0 { StuckOnAbsent(s, fd, td, k, left - 1); }
  }

  lemma KeptEntry(s: Mem, fd: nat, td: nat, n: nat, c: nat, j: nat)
    requires Inv(s) && MayCopy(fd, td, n) && s.dir[fd].present && s.dir[td].present
    requires forall k :: 0 <= k < SLOTS ==> !Entry(s, td, k).present
    requires c < SLOTS && j < SLOTS && (c != td || n <= j)
    ensures SameFrame(Entry(s, c, j), Entry(CopyEntries(s, fd, td, n), c, j))
  {
    CopyEntriesKeeps(s, fd, td, n);
  }

  lemma GotEntry(s: Mem, fd: nat, td: nat, n: nat, k: nat)
    requires Inv(s) && MayCopy(fd, td, n) && s.dir[fd].present && s.dir[td].present && k < n
    requires forall k :: 0 <= k < SLOTS ==> !Entry(s, td, k).present
    ensures SameFrame(Entry(s, fd, k), Entry(CopyEntries(s, fd, td, n), td, k))
  {
    CopyEntriesKeeps(s, fd, td, n);
  }

  lemma AbsentCopiesNothing(s: Mem, fd: nat, td: nat, k: nat)
    requires Shaped(s) && fd < SLOTS && td < SLOTS && k < SLOTS && s.dir[fd].present && s.dir[td].present
    requires !Entry(s, fd, k).present
    ensures CopyEntry(s, fd, td, k) == s
  {
  }

  // Only the entries before the first absent one are copied.
  lemma {:induction false} CopiesLeadingRun(s: Mem, fd: nat, td: nat, k: nat, left: nat)
    requires Inv(s) && MayCopy(fd, td, k + left) && s.dir[fd].present && s.dir[td].present
    requires forall j :: 0 <= j < SLOTS ==> !Entry(s, td, j).present
    ensures CopyEntriesAsWritten(CopyEntries(s, fd, td, k), fd, td, k, left)
         == CopyEntries(s, fd, td, k + LeadingRun(s, fd, k, left))
    decreases left
  {
    hide TablesApart, Counted, WritableAlone, SamePlace, HeldOnce, CopyEntry, Entry;
    if left > 0 {
      KeptEntry(s, fd, td, k, fd, k);
      if Entry(s, fd, k).present {
        CopiesLeadingRun(s, fd, td, k + 1, left - 1);
      } else {
        StuckOnAbsent(CopyEntries(s, fd, td, k), fd, td, k, left);
      }
    }
  }

  lemma {:induction false} AbsentTailCopiesNothing(s: Mem, fd: nat, td: nat, m: nat, n: nat)
    requires Inv(s) && MayCopy(fd, td, n) && m <= n && s.dir[fd].present && s.dir[td].present
    requires forall j :: 0 <= j < SLOTS ==> !Entry(s, td, j).present
    requires forall j :: m <= j < n ==> !Entry(s, fd, j).present
    ensures CopyEntries(s, fd, td, n) == CopyEntries(s, fd, td, m)
    decreases n
  {
    hide TablesApart, Counted, WritableAlone, SamePlace, HeldOnce, CopyEntry;
    if m < n {
      AbsentTailCopiesNothing(s, fd, td, m, n - 1);
      KeptEntry(s, fd, td, n - 1, fd, n - 1);
      AbsentCopiesNothing(CopyEntries(s, fd, td, n - 1), fd, td, n - 1);
    }
  }

  // A present entry after an absent one is left out.
  lemma LaterIsLeftOut(s: Mem, fd: nat, td: nat, m: nat, n: nat, j: nat)
    requires Inv(s) && MayCopy(fd, td, n) && s.dir[fd].present && s.dir[td].present
    requires forall k :: 0 <= k < SLOTS ==> !Entry(s, td, k).present
    requires m <= j < n && Entry(s, fd, j).present
    ensures CopyEntries(s, fd, td, m) != CopyEntries(s, fd, td, n)
  {
    hide Inv, CopyEntries, Entry;
    KeptEntry(s, fd, td, m, td, j);
    GotEntry(s, fd, td, n, j);
  }

  // No entry is present after an absent one exactly when none is after the leading run.
  lemma NothingAfterRun(s: Mem, d: nat, n: nat)
    requires Shaped(s) && d < SLOTS && n <= SLOTS
    ensures (forall i, j :: 0 <= i < j < n && Entry(s, d, j).present ==> Entry(s, d, i).present)
      <==> forall j :: LeadingRun(s, d, 0, n) <= j < n ==> !Entry(s, d, j).present
  {
    hide Entry, Shaped;
  }

  // The table is copied whole exactly when no entry is present after an absent one.
  lemma SkippedAdvance(s: Mem, fd: nat, td: nat, n: nat)
    requires Inv(s) && MayCopy(fd, td, n) && s.dir[fd].present && s.dir[td].present
    requires forall j :: 0 <= j < SLOTS ==> !Entry(s, td, j).present
    ensures CopyEntriesAsWritten(s, fd, td, 0, n) == CopyEntries(s, fd, td, n) <==>
      forall i, j :: 0 <= i < j < n && Entry(s, fd, j).present ==> Entry(s, fd, i).present
  {
    hide Inv, CopyEntry, CopyEntries, CopyEntriesAsWritten, LeadingRun, Entry, Shaped;
    InvIsShaped(s);
    var m := LeadingRun(s, fd, 0, n);
    NothingAfterRun(s, fd, n);
    CopiesLeadingRun(s, fd, td, 0, n);
    NoneCopied(s, fd, td);
    if j: nat :| m <= j < n && Entry(s, fd, j).present {
      LaterIsLeftOut(s, fd, td, m, n, j);
    } else {
      AbsentTailCopiesNothing(s, fd, td, m, n);
    }
  }

  lemma NoneCopied(s: Mem, fd: nat, td: nat)
    requires Shaped(s) && fd < SLOTS && td < SLOTS && s.dir[fd].present && s.dir[td].present
    ensures CopyEntries(s, fd, td, 0) == s
  {
  }

  lemma InvIsShaped(s: Mem)
    requires Inv(s)
    ensures Shaped(s)
  {
  }

  // The outer loop never advances either directory pointer.
  function CopySlotsAsWritten(s: Mem, fd: nat, td: nat, c: nat, n: nat): (Mem, Outcome)
    requires Shaped(s) && fd < SLOTS && td < SLOTS && n <= SLOTS
    decreases c
  {
    if c == 0 then (s, Done)
    else
      var (t, o) := CopySlot(s, fd, td, n);
      if o != Done then (t, o) else CopySlotsAsWritten(t, fd, td, c - 1, n)
  }

  lemma {:induction false} StuckOnAbsentSlot(s: Mem, fd: nat, td: nat, c: nat, n: nat)
    requires Shaped(s) && fd < SLOTS && td < SLOTS && n <= SLOTS && !s.dir[fd].present && !s.dir[td].present
    ensures CopySlotsAsWritten(s, fd, td, c, n) == (s, Done)
    decreases c
  {
    hide CopyEntries;
    if c > 0 { StuckOnAbsentSlot(s, fd, td, c - 1, n); }
  }

  // The first slot is copied, and the second turn finds it in its way.
  lemma StuckOnPresentSlot(s: Mem, fd: nat, td: nat, c: nat, n: nat)
    requires Inv(s) && MayCopy(fd, td, n) && c > 0 && s.dir[fd].present && !s.dir[td].present
    ensures CopySlotsAsWritten(s, fd, td, c, n) ==
      if 0 !in s.counts then (s, NoMemory)
      else if c == 1 then CopySlot(s, fd, td, n)
      else (CopySlot(s, fd, td, n).0, Halted)
  {
    hide TablesApart, Counted, WritableAlone, SamePlace, HeldOnce, CopyEntries;
    GetPhyPageKeeps(s);
    var (t, o) := CopySlot(s, fd, td, n);
    if o == Done { assert t.dir[td].present; }
  }

  lemma NothingToCopy(s: Mem, fd: nat, td: nat, c: nat, n: nat)
    requires Shaped(s) && fd + c <= SLOTS && td + c <= SLOTS && n <= SLOTS
    requires forall d :: (fd <= d < fd + c || td <= d < td + c) ==> !s.dir[d].present
    ensures CopySlots(s, fd, td, c, n) == (s, Done)
    decreases c
  {
    hide CopyEntries;
    if c > 0 {
      NothingToCopy(s, fd + 1, td + 1, c - 1, n);
    }
  }

  lemma CopySlotDir(s: Mem, fd: nat, td: nat, n: nat)
    requires Inv(s) && MayCopy(fd, td, n)
    ensures Shaped(s) && Inv(CopySlot(s, fd, td, n).0)
    ensures forall d :: 0 <= d < SLOTS && d != td ==> CopySlot(s, fd, td, n).0.dir[d] == s.dir[d]
    ensures s.dir[fd].present && CopySlot(s, fd, td, n).1 == Done ==> CopySlot(s, fd, td, n).0.dir[td].present
  {
    hide TablesApart, Counted, WritableAlone, SamePlace, HeldOnce, CopyEntries;
    CopySlotKeeps(s, fd, td, n);
  }

  lemma CopySlotsDir(s: Mem, fd: nat, td: nat, c: nat, n: nat)
    requires Inv(s) && MayCopySlots(fd, td, c, n)
    ensures Shaped(s)
    ensures forall d :: 0 <= d < SLOTS && !(td <= d < td + c) ==> CopySlots(s, fd, td, c, n).0.dir[d] == s.dir[d]
  {
    hide TablesApart, Counted, WritableAlone, SamePlace, HeldOnce, CopySlots;
    CopySlotsKeeps(s, fd, td, c, n);
  }

  lemma MayCopyNext(fd: nat, td: nat, c: nat, n: nat)
    requires MayCopySlots(fd, td, c, n) && c > 0
    ensures MayCopy(fd, td, n) && fd + c <= SLOTS && td + c <= SLOTS && n <= SLOTS
    ensures MayCopySlots(fd + 1, td + 1, c - 1, n)
  {
  }

  lemma WindowsApart(fd: nat, td: nat, c: nat, n: nat)
    requires MayCopySlots(fd, td, c, n)
    ensures !(fd <= td < fd + c)
  {
  }

  lemma CopySlotsNext(s: Mem, fd: nat, td: nat, c: nat, n: nat)
    requires Shaped(s) && fd + c <= SLOTS && td + c <= SLOTS && n <= SLOTS && c > 0
    ensures var (t, o) := CopySlot(s, fd, td, n);
      && (o == Done ==> CopySlots(s, fd, td, c, n) == CopySlots(t, fd + 1, td + 1, c - 1, n))
      && (o != Done ==> CopySlots(s, fd, td, c, n) == (t, o))
  {
    hide CopySlot, Shaped;
  }

  // A slot that was copied is there.
  lemma {:induction false} CopiedIsPresent(s: Mem, fd: nat, td: nat, c: nat, n: nat, d: nat)
    requires Inv(s) && MayCopySlots(fd, td, c, n) && d < c && s.dir[fd + d].present
    requires CopySlots(s, fd, td, c, n).1 == Done
    ensures CopySlots(s, fd, td, c, n).0.dir[td + d].present
    decreases c
  {
    hide *;
    InvIsShaped(s);
    MayCopyNext(fd, td, c, n);
    WindowsApart(fd, td, c, n);
    CopySlotsNext(s, fd, td, c, n);
    CopySlotDir(s, fd, td, n);
    var t := CopySlot(s, fd, td, n).0;
    CopySlotsDir(t, fd + 1, td + 1, c - 1, n);
    if d > 0 { CopiedIsPresent(t, fd + 1, td + 1, c - 1, n, d - 1); }
  }

  // Into an empty range of slots, copying is right exactly when there is at most one slot to copy,
  // when the first one finds no frame, or when there is no table to copy.
  lemma StuckDirectory(s: Mem, fd: nat, td: nat, c: nat, n: nat)
    requires Inv(s) && MayCopySlots(fd, td, c, n) && fd < SLOTS && td < SLOTS
    requires forall d :: td <= d < td + c ==> !s.dir[d].present
    ensures CopySlotsAsWritten(s, fd, td, c, n) == CopySlots(s, fd, td, c, n) <==>
      c <= 1 || (s.dir[fd].present && 0 !in s.counts) || forall d :: fd <= d < fd + c ==> !s.dir[d].present
  {
    hide Inv, CopySlot;
    InvIsShaped(s);
    if c > 0 {
      CopySlotsKeeps(s, fd, td, c, n);
      if s.dir[fd].present {
        StuckOnPresentSlot(s, fd, td, c, n);
        FirstSlot(s, fd, td, n);
      } else {
        StuckOnAbsentSlot(s, fd, td, c, n);
        StuckBehindAbsent(s, fd, td, c, n);
      }
    }
  }

  lemma FirstSlot(s: Mem, fd: nat, td: nat, n: nat)
    requires Inv(s) && MayCopy(fd, td, n) && s.dir[fd].present && !s.dir[td].present
    ensures CopySlot(s, fd, td, n).1 == if 0 in s.counts then Done else NoMemory
    ensures 0 !in s.counts ==> CopySlot(s, fd, td, n).0 == s
  {
    hide TablesApart, Counted, WritableAlone, SamePlace, HeldOnce, CopyEntries;
    GetPhyPageKeeps(s);
  }

  lemma StuckBehindAbsent(s: Mem, fd: nat, td: nat, c: nat, n: nat)
    requires Inv(s) && MayCopySlots(fd, td, c, n) && c > 0 && !s.dir[fd].present
    requires forall d :: td <= d < td + c ==> !s.dir[d].present
    ensures CopySlots(s, fd, td, c, n) == (s, Done) <==> forall d :: fd <= d < fd + c ==> !s.dir[d].present
  {
    hide TablesApart, Counted, WritableAlone, SamePlace, HeldOnce, CopySlots;
    if d: nat :| fd <= d < fd + c && s.dir[d].present {
      if CopySlots(s, fd, td, c, n).1 == Done { CopiedIsPresent(s, fd, td, c, n, d - fd); }
    } else {
      NothingToCopy(s, fd, td, c, n);
    }
  }

  // ---- free_page_tables ----------------------------------------------------------------------

  // Its loop counts `left` down from the size in bytes, and stays on the first absent slot. None: it walks on past
  // the end of the directory.
  function FreeSlotsAsWritten(s: Mem, d: nat, left: nat): (r: Option<Mem>)
    requires Shaped(s) && d <= SLOTS
    ensures r.Some? ==> Shaped(r.value)
    decreases left
  {
    if left == 0 then Some(s)
    else if d == SLOTS then None
    else if !s.dir[d].present then Some(s)
    else FreeSlotsAsWritten(FreeSlot(s, d), d + 1, left - 1)
  }

  // Where the run of present slots that starts at d ends, after at most `left` of them.
  function RunEnd(dir: seq<Pte>, d: nat, left: nat): (r: nat)
    requires d <= |dir|
    ensures d <= r <= d + left && r <= |dir| && (forall e :: d <= e < r ==> dir[e].present)
    ensures r < d + left && r < |dir| ==> !dir[r].present
    decreases left
  {
    if left == 0 || d == |dir| || !dir[d].present then d else RunEnd(dir, d + 1, left - 1)
  }

  lemma {:induction false} FreesRun(s: Mem, d: nat, left: nat)
    requires Inv(s) && WINDOW <= d <= SLOTS
    ensures var r := RunEnd(s.dir, d, left);
      FreeSlotsAsWritten(s, d, left) == if r == SLOTS && r < d + left then None else Some(FreeSlots(s, d, r - d))
    decreases left
  {
    hide TablesApart, Counted, WritableAlone, SamePlace, HeldOnce, FreeSlot;
    if left > 0 && d < SLOTS && s.dir[d].present {
      FreeSlotKeeps(s, d);
      var t := FreeSlot(s, d);
      FreesRun(t, d + 1, left - 1);
      SameRunEnd(s.dir, t.dir, d + 1, left - 1);
    }
  }

  lemma {:induction false} SameRunEnd(a: seq<Pte>, b: seq<Pte>, d: nat, left: nat)
    requires |a| == |b| && d <= |a| && forall e :: d <= e < |a| ==> a[e] == b[e]
    ensures RunEnd(a, d, left) == RunEnd(b, d, left)
    decreases left
  {
    if left > 0 && d < |a| { SameRunEnd(a, b, d + 1, left - 1); }
  }

  lemma {:induction false} FreeSlotsSplit(s: Mem, d: nat, m: nat, n: nat)
    requires Shaped(s) && m <= n && d + n <= SLOTS
    ensures FreeSlots(s, d, n) == FreeSlots(FreeSlots(s, d, m), d + m, n - m)
    decreases m
  {
    hide FreeSlot, Shaped;
    if m > 0 { FreeSlotsSplit(FreeSlot(s, d), d + 1, m - 1, n - 1); }
  }

  lemma {:induction false} FreeAbsent(s: Mem, d: nat, n: nat)
    requires Shaped(s) && d + n <= SLOTS && forall e :: d <= e < d + n ==> !s.dir[e].present
    ensures FreeSlots(s, d, n) == s
    decreases n
  {
    hide Shaped;
    if n > 0 { FreeAbsent(s, d + 1, n - 1); }
  }

  // Freeing two ranges from d on gives the same result exactly when nothing lies between their ends.
  lemma SameFree(s: Mem, d: nat, m: nat, n: nat)
    requires Inv(s) && WINDOW <= d && m <= n && d + n <= SLOTS
    ensures Shaped(s)
    ensures FreeSlots(s, d, m) == FreeSlots(s, d, n) <==> forall e :: d + m <= e < d + n ==> !s.dir[e].present
  {
    hide TablesApart, Counted, WritableAlone, SamePlace, HeldOnce, FreeSlots;
    FreeSlotsKeeps(s, d, m);
    FreeSlotsKeeps(s, d, n);
    var t := FreeSlots(s, d, m);
    if e: nat :| d + m <= e < d + n && s.dir[e].present {
      assert t.dir[e] == s.dir[e] && FreeSlots(s, d, n).dir[e] == NO_PTE;
    } else {
      FreeSlotsSplit(s, d, m, n);
      FreeAbsent(t, d + m, n - m);
    }
  }

  // free_page_tables is right exactly when no present slot of the range follows an absent one, and
  // the run of present slots does not go on past the range, into the next process or off the directory.
  lemma FreesTooMuch(s: Mem, d: nat, n: nat, left: nat)
    requires Inv(s) && WINDOW <= d && d + n <= SLOTS && n <= left
    ensures FreeSlotsAsWritten(s, d, left) == Some(FreeSlots(s, d, n)) <==>
      && (forall e, g :: d <= e < g < d + n && s.dir[g].present ==> s.dir[e].present)
      && !(n < left && forall e :: d <= e <= d + n && e < SLOTS ==> s.dir[e].present)
  {
    hide Inv, FreeSlots, FreeSlotsAsWritten, RunEnd;
    InvIsShaped(s);
    FreesRun(s, d, left);
    var r := RunEnd(s.dir, d, left);
    if r <= d + n {
      SameFree(s, d, r - d, n);
      assert r < d + n ==> !s.dir[r].present;
    } else {
      SameFree(s, d, n, r - d);
      assert s.dir[d + n].present;
    }
  }

  // copy_memory taking success for failure: it frees the copy and reports FALSE, and reports TRUE
  // when the copy failed. None where copy_page_tables halts.
  function ForkAsWritten(s: Mem, p: nat, q: nat, c: nat): (r: (Mem, Option<bool>))
    requires Shaped(s) && p < NR_PROCESS && q < NR_PROCESS && c <= WINDOW
    ensures Shaped(r.0)
  {
    var (t, o) := CopySlots(s, WINDOW * p, WINDOW * q, c, EntriesToCopy(WINDOW * p));
    match o
    case Done => (FreeSlots(t, WINDOW * q, c), Some(false))
    case NoMemory => (t, Some(true))
    case _ => (t, None)
  }

  lemma NoForkSucceeds(s: Mem, p: nat, q: nat, c: nat)
    requires Inv(s) && MayFork(p, q, c)
    ensures ForkAsWritten(s, p, q, c).1 ==
      match Fork(s, p, q, c).1 case Done => Some(false) case NoMemory => Some(true) case _ => None
    ensures ForkAsWritten(s, p, q, c).1 == Some(false) ==>
      Inv(ForkAsWritten(s, p, q, c).0)
      && forall d, k :: WINDOW * q <= d < WINDOW * q + c && 0 <= k < SLOTS ==>
        Page(ForkAsWritten(s, p, q, c).0, d, k) == None
  {
    hide TablesApart, Counted, WritableAlone, SamePlace, HeldOnce, CopySlots, FreeSlots;
    CopySlotsKeeps(s, WINDOW * p, WINDOW * q, c, EntriesToCopy(WINDOW * p));
    var (t, o) := CopySlots(s, WINDOW * p, WINDOW * q, c, EntriesToCopy(WINDOW * p));
    FreeSlotsKeeps(t, WINDOW * q, c);
  }
}
