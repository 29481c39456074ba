// kernel/fork.c: copy_process, as far as it goes for frames.
module PagingProcess {
  import opened Base
  import opened PagingModel
  import opened PagingInvariant
  import opened PagingSteps
  import opened PagingTables
  import opened PagingFork
  import opened PagingFrames

  // A frame for the process record, then copy_memory. None where it fails; the frame then goes back.
  function CopyProcess(s: Mem, p: nat, q: nat, c: nat): (r: (Mem, Option<nat>))
    requires Shaped(s) && p < NR_PROCESS && q < NR_PROCESS && c <= WINDOW
    ensures Shaped(r.0)
  {
    var (t, f) := GetPhyPage(s);
    if f == 0 then (t, None)
    else
      var (u, o) := Fork(t, p, q, c);
      if o == Done then (u, Some(f)) else (FreePhyPage(u, f), None)
  }

  // It succeeds exactly when there is a frame for the process and one for each table of the parent. The frame is
  // used by nothing else, the child's pages are the parent's, and nobody else's pages change. If it fails, whichever
  // frame was missing, every count, the directory, the kernel's frames and every page are as before.
  lemma CopyProcessKeeps(s: Mem, p: nat, q: nat, c: nat)
    requires Inv(s) && MayFork(p, q, c)
    requires forall d :: WINDOW * q <= d < WINDOW * q + c ==> !s.dir[d].present
    ensures var (t, r) := CopyProcess(s, p, q, c);
      && Inv(t)
      && (r.Some? <==> 1 + TablesIn(s, WINDOW * p, c) <= |FreeFrames(s)|)
      && (r.Some? ==> r.value !in s.held && t.held == s.held + {r.value})
      && (r.Some? ==> InMain(t, r.value) && Count(t, r.value) == 1)
      && (r.Some? ==> forall d, k :: Key(d, k) ==> ForkedPage(s, t, p, q, c, d, k))
      && (r.None? ==> t.counts == s.counts && t.dir == s.dir && t.held == s.held)
      && (r.None? ==> forall d, k :: Key(d, k) ==> Page(t, d, k) == Page(s, d, k))
  {
    hide TablesApart, Counted, WritableAlone, SamePlace, HeldOnce, Fork, Page, GetPhyPage, FreePhyPage, EntriesToCopy,
      FreeFrames, TablesIn;
    GetPhyPageKeeps(s);
    TookFrame(s);
    var (t, f) := GetPhyPage(s);
    if f != 0 {
      TookPages(s, t, f);
      NewFrame(s, t, f);
      ForkFrames(t, p, q, c);
      SameTablesIn(s, t, WINDOW * p, c);
      ForkHolds(t, p, q, c);
      var (u, o) := Fork(t, p, q, c);
      if o == Done {
        ForkCopies(t, p, q, c);
        ForkedSame(s, t, u, p, q, c);
        HeldCount(u, f);
      } else {
        ForkRollsBack(t, p, q, c);
        HeldCount(t, f);
        GaveKeeps(u, f);
        GaveEntries(u, f);
        GaveBack(s, t, u, f);
      }
    }
  }

  lemma NewFrame(s: Mem, t: Mem, f: nat)
    requires Inv(s) && Took(s, t, f) && Count(s, f) == 0
    ensures f !in s.held && t.dir == s.dir && t.held == s.held + {f} && t.counts == s.counts[f - s.start := 1]
  {
    if f in s.held { FreeMeansNoRefs(s, f); }
  }

  // A frame in the kernel's hands counts one.
  lemma HeldCount(s: Mem, f: nat)
    requires Inv(s) && f in s.held
    ensures InMain(s, f) && Count(s, f) == 1
  {
    GaveEntries(s, f);
    GaveCounted(s, f, f);
  }

  lemma ForkHolds(s: Mem, p: nat, q: nat, c: nat)
    requires Inv(s) && MayFork(p, q, c)
    ensures Fork(s, p, q, c).0.start == s.start
    ensures Fork(s, p, q, c).1 == Done ==> Fork(s, p, q, c).0.held == s.held
  {
    hide TablesApart, Counted, WritableAlone, SamePlace, HeldOnce, CopySlots, FreeSlots;
    CopySlotsKeeps(s, WINDOW * p, WINDOW * q, c, EntriesToCopy(WINDOW * p));
    var (t, o) := CopySlots(s, WINDOW * p, WINDOW * q, c, EntriesToCopy(WINDOW * p));
    if o == NoMemory { FreeSlotsKeeps(t, WINDOW * q, c); }
  }

  lemma ForkedSame(s: Mem, t: Mem, u: Mem, p: nat, q: nat, c: nat)
    requires Shaped(s) && Shaped(t) && Shaped(u) && MayFork(p, q, c)
    requires forall d, k :: Key(d, k) ==> Page(t, d, k) == Page(s, d, k)
    requires forall d, k :: Key(d, k) ==> ForkedPage(t, u, p, q, c, d, k)
    ensures forall d, k :: Key(d, k) ==> ForkedPage(s, u, p, q, c, d, k)
  {
    hide Page;
    forall d, k | Key(d, k) ensures ForkedPage(s, u, p, q, c, d, k) { assert ForkedPage(t, u, p, q, c, d, k); }
  }

  lemma GaveBack(s: Mem, t: Mem, u: Mem, f: nat)
    requires Inv(s) && Took(s, t, f) && Count(s, f) == 0 && f !in s.held
    requires Inv(u) && u.counts == t.counts && u.dir == t.dir && u.held == t.held && u.start == s.start && f in u.held
    requires forall d, k :: Key(d, k) ==> Page(u, d, k) == Page(t, d, k) == Page(s, d, k)
    ensures var v := FreePhyPage(u, f);
      && v.counts == s.counts && v.dir == s.dir && v.held == s.held
      && forall d, k :: Key(d, k) ==> Page(v, d, k) == Page(s, d, k)
  {
    hide TablesApart, Counted, WritableAlone, SamePlace, HeldOnce;
    var v := FreePhyPage(u, f);
    GaveEntries(u, f);
    assert v.held == s.held;
    assert v.counts == s.counts;
  }
}
