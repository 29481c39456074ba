// Over every run, processes behave as if each had a private memory.
module PagingRefinement {
  import opened Base
  import opened PagingModel
  import opened PagingInvariant
  import opened PagingSteps
  import opened PagingTables
  import opened PagingFork
  import opened PagingWrites
  import opened PagingMap

  datatype Event =
    | Forked(p: nat, q: nat, c: nat)                  // copy_memory
    | Exited(q: nat, c: nat)                          // free_page_tables on a process's slots
    | Wrote(d: nat, k: nat, o: nat, b: byte)          // a store by a process, with its write fault
    | Grew(d: nat, k: nat)                            // get_empty_page
    | KernelTook                                      // get_phy_page, for a process record say
    | KernelStored(f: nat, o: nat, b: byte)           // a store of the kernel to a frame it took
    | KernelGave(f: nat)                              // free_phy_page on a frame it took

  predicate Reachable(d: int) { WINDOW <= d < WINDOW * NR_PROCESS }

  // A fork goes to a free process slot, a new page to an address that has none, and the kernel uses
  // only the frames it took.
  predicate Allowed(s: Mem, e: Event)
    requires Shaped(s)
  {
    match e
    case Forked(p, q, c) => MayFork(p, q, c) && forall d :: WINDOW * q <= d < WINDOW * q + c ==> !s.dir[d].present
    case Exited(q, c) => 0 < q < NR_PROCESS && c <= WINDOW
    case Wrote(d, k, o, b) =>
      Reachable(d) && k < SLOTS && o < PAGE_SIZE && (Entry(s, d, k).present ==> Entry(s, d, k).frame < |s.data|)
    case Grew(d, k) => Reachable(d) && k < SLOTS && !Entry(s, d, k).present
    case KernelTook => true
    case KernelStored(f, o, b) => f in s.held && f < |s.data| && o < PAGE_SIZE
    case KernelGave(f) => f in s.held
  }

  // The state after an event and whether it succeeded.
  function Step(s: Mem, e: Event): (r: (Mem, bool))
    requires Shaped(s) && Allowed(s, e)
    ensures Shaped(r.0)
  {
    match e
    case Forked(p, q, c) => var (t, o) := Fork(s, p, q, c); (t, o == Done)
    case Exited(q, c) => (FreeSlots(s, WINDOW * q, c), true)
    case Wrote(d, k, o, b) => UserWrite(s, d, k, o, b)
    case Grew(d, k) => GetEmptyPage(s, d, k)
    case KernelTook => (GetPhyPage(s).0, GetPhyPage(s).1 != 0)
    case KernelStored(f, o, b) => (StoreByte(s, f, o, b), true)
    case KernelGave(f) => (FreePhyPage(s, f), true)
  }

  // ---- the simple machine: one map from places to page contents ------------------------------

  datatype Place = Place(d: nat, k: nat)

  ghost function Places(): (r: set<Place>)
    ensures forall x: Place :: x in r <==> Key(x.d, x.k)
  {
    set d: nat, k: nat | d < SLOTS && k < SLOTS && Key(d, k) :: Place(d, k)
  }

  type Pages = map<Place, seq<byte>>

  ghost function At(s: Mem, x: Place): Option<seq<byte>>
    requires Shaped(s) && Key(x.d, x.k)
  {
    Page(s, x.d, x.k)
  }

  // What every process holds, as one map.
  ghost function Private(s: Mem): (m: Pages)
    requires Shaped(s)
    ensures forall x: Place :: x in m <==> Key(x.d, x.k) && At(s, x).Some?
    ensures forall x :: x in m ==> m[x] == At(s, x).value
  {
    map x | x in Places() && At(s, x).Some? :: At(s, x).value
  }

  predicate InChild(q: nat, c: nat, x: Place) { WINDOW * q <= x.d < WINDOW * q + c }

  // The parent's place that a place of the child is copied from.
  function Source(p: nat, q: nat, x: Place): Place
    requires WINDOW * q <= x.d
  {
    Place(x.d - WINDOW * q + WINDOW * p, x.k)
  }

  ghost predicate Inherits(m: Pages, p: nat, q: nat, x: Place) {
    WINDOW * q <= x.d && x.k < EntriesToCopy(WINDOW * p) && Source(p, q, x) in m
  }

  ghost function PrivateStep(m: Pages, e: Event, ok: bool): Pages {
    if !ok then m else
    match e
    case Forked(p, q, c) =>
      map x | x in Places() && (if InChild(q, c, x) then Inherits(m, p, q, x) else x in m) ::
        if InChild(q, c, x) then m[Source(p, q, x)] else m[x]
    case Exited(q, c) => map x | x in m && !InChild(q, c, x) :: m[x]
    case Wrote(d, k, o, b) =>
      if Place(d, k) in m && o < |m[Place(d, k)]| then m[Place(d, k) := m[Place(d, k)][o := b]] else m
    case Grew(d, k) => m[Place(d, k) := Zeros()]
    case _ => m
  }

  // ---- one step ------------------------------------------------------------------------------

  // Present user slots belong to one of the 16 processes.
  ghost predicate InProcesses(s: Mem)
    requires Shaped(s)
  {
    forall d :: User(d) && s.dir[d].present ==> Reachable(d)
  }

  lemma ForkRefines(s: Mem, p: nat, q: nat, c: nat)
    requires Inv(s) && InProcesses(s) && Allowed(s, Forked(p, q, c))
    ensures var (t, ok) := Step(s, Forked(p, q, c));
      Inv(t) && InProcesses(t) && Private(t) == PrivateStep(Private(s), Forked(p, q, c), ok)
  {
    hide TablesApart, Counted, WritableAlone, SamePlace, HeldOnce, CopySlots, FreeSlots;
    var (t, o) := Fork(s, p, q, c);
    ForkNeverHalts(s, p, q, c);
    CopySlotsKeeps(s, WINDOW * p, WINDOW * q, c, EntriesToCopy(WINDOW * p));
    if o == Done {
      ForkCopies(s, p, q, c);
      ForkedPages(s, t, p, q, c);
    } else {
      ForkRollsBack(s, p, q, c);
      SamePagesRefine(s, t);
    }
  }

  lemma ForkedAt(s: Mem, t: Mem, p: nat, q: nat, c: nat, x: Place)
    requires Shaped(s) && Shaped(t) && MayFork(p, q, c)
    requires Key(x.d, x.k) ==> ForkedPage(s, t, p, q, c, x.d, x.k)
    ensures var n := PrivateStep(Private(s), Forked(p, q, c), true);
      (x in Private(t) <==> x in n) && (x in n ==> Private(t)[x] == n[x])
  {
    hide Page, Shaped, EntriesToCopy;
    SourceIsKey(p, q, c, x);
    if Key(x.d, x.k) && InChild(q, c, x) && x.k < EntriesToCopy(WINDOW * p) {
      assert At(t, x) == At(s, Source(p, q, x));
    } else if Key(x.d, x.k) {
      assert At(t, x) == if InChild(q, c, x) then None else At(s, x);
    }
  }

  lemma ForkedPages(s: Mem, t: Mem, p: nat, q: nat, c: nat)
    requires Shaped(s) && Shaped(t) && MayFork(p, q, c)
    requires forall d, k :: Key(d, k) ==> ForkedPage(s, t, p, q, c, d, k)
    ensures Private(t) == PrivateStep(Private(s), Forked(p, q, c), true)
  {
    hide ForkedPage, Private, PrivateStep, Shaped;
    var n := PrivateStep(Private(s), Forked(p, q, c), true);
    forall x: Place ensures (x in Private(t) <==> x in n) && (x in n ==> Private(t)[x] == n[x]) {
      ForkedAt(s, t, p, q, c, x);
    }
  }

  lemma SourceIsKey(p: nat, q: nat, c: nat, x: Place)
    requires MayFork(p, q, c)
    ensures InChild(q, c, x) && x.k < EntriesToCopy(WINDOW * p) ==>
      Source(p, q, x) == Place(x.d - WINDOW * q + WINDOW * p, x.k) && Key(Source(p, q, x).d, x.k) && Key(x.d, x.k)
  {
  }

  lemma ExitRefines(s: Mem, q: nat, c: nat)
    requires Inv(s) && InProcesses(s) && Allowed(s, Exited(q, c))
    ensures var (t, ok) := Step(s, Exited(q, c));
      Inv(t) && InProcesses(t) && Private(t) == PrivateStep(Private(s), Exited(q, c), ok)
  {
    hide TablesApart, Counted, WritableAlone, SamePlace, HeldOnce, FreeSlots;
    var t := FreeSlots(s, WINDOW * q, c);
    FreeSlotsKeeps(s, WINDOW * q, c);
    GonePages(s, t, q, c);
  }

  lemma GonePages(s: Mem, t: Mem, q: nat, c: nat)
    requires Shaped(s) && Shaped(t) && 0 < q < NR_PROCESS && c <= WINDOW && SlotsGone(s, t, WINDOW * q, c)
    ensures Private(t) == PrivateStep(Private(s), Exited(q, c), true)
  {
    forall x: Place | Key(x.d, x.k) ensures At(t, x) == if InChild(q, c, x) then None else At(s, x) {}
  }

  lemma OnlyPageRefines(s: Mem, t: Mem, d: nat, k: nat, v: seq<byte>)
    requires Shaped(s) && Shaped(t) && Key(d, k) && OnlyPage(s, t, d, k, Some(v))
    ensures Private(t) == Private(s)[Place(d, k) := v]
  {
    forall x: Place | Key(x.d, x.k) ensures At(t, x) == if x == Place(d, k) then Some(v) else At(s, x) {}
  }

  lemma SamePagesRefine(s: Mem, t: Mem)
    requires Shaped(s) && Shaped(t) && forall d, k :: Key(d, k) ==> Page(t, d, k) == Page(s, d, k)
    ensures Private(t) == Private(s)
  {
    forall x: Place | Key(x.d, x.k) ensures At(t, x) == At(s, x) {}
  }

  lemma WriteKeepsDir(s: Mem, d: nat, k: nat, o: nat, b: byte)
    requires Shaped(s) && d < SLOTS && k < SLOTS && o < PAGE_SIZE
    requires Entry(s, d, k).present ==> Entry(s, d, k).frame < |s.data|
    ensures UserWrite(s, d, k, o, b).0.dir == s.dir
  {
  }

  lemma WriteRefines(s: Mem, d: nat, k: nat, o: nat, b: byte)
    requires Inv(s) && InProcesses(s) && Allowed(s, Wrote(d, k, o, b))
    ensures var (t, ok) := Step(s, Wrote(d, k, o, b));
      Inv(t) && InProcesses(t) && Private(t) == PrivateStep(Private(s), Wrote(d, k, o, b), ok)
  {
    hide TablesApart, Counted, WritableAlone, SamePlace, HeldOnce, OnlyPage, UserWrite, Private;
    var (t, ok) := UserWrite(s, d, k, o, b);
    UserWriteKeeps(s, d, k, o, b);
    WriteKeepsDir(s, d, k, o, b);
    if ok {
      OnlyPageRefines(s, t, d, k, Page(s, d, k).value[o := b]);
      assert At(s, Place(d, k)) == Page(s, d, k);
    } else {
      SamePagesRefine(s, t);
    }
  }

  lemma GrewRefines(s: Mem, d: nat, k: nat)
    requires Inv(s) && InProcesses(s) && Allowed(s, Grew(d, k))
    ensures var (t, ok) := Step(s, Grew(d, k));
      Inv(t) && InProcesses(t) && Private(t) == PrivateStep(Private(s), Grew(d, k), ok)
  {
    hide TablesApart, Counted, WritableAlone, SamePlace, HeldOnce;
    var (t, ok) := GetEmptyPage(s, d, k);
    GetEmptyPageKeeps(s, d, k);
    if ok {
      OnlyPageRefines(s, t, d, k, Zeros());
    } else {
      SamePagesRefine(s, t);
    }
  }

  lemma TookRefines(s: Mem)
    requires Inv(s) && InProcesses(s)
    ensures var (t, ok) := Step(s, KernelTook);
      Inv(t) && InProcesses(t) && Private(t) == PrivateStep(Private(s), KernelTook, ok)
  {
    hide TablesApart, Counted, WritableAlone, SamePlace, HeldOnce;
    var (t, f) := GetPhyPage(s);
    GetPhyPageKeeps(s);
    if f != 0 {
      TookPages(s, t, f);
      SamePagesRefine(s, t);
    }
  }

  lemma GaveRefines(s: Mem, f: nat)
    requires Inv(s) && InProcesses(s) && f in s.held
    ensures var (t, ok) := Step(s, KernelGave(f));
      Inv(t) && InProcesses(t) && Private(t) == PrivateStep(Private(s), KernelGave(f), ok)
  {
    hide TablesApart, Counted, WritableAlone, SamePlace, HeldOnce, FreePhyPage;
    var t := FreePhyPage(s, f);
    GaveKeeps(s, f);
    GaveEntries(s, f);
    SamePages(s, t);
    SamePagesRefine(s, t);
  }

  // No process maps a frame that the kernel took.
  lemma StoredRefines(s: Mem, f: nat, o: nat, b: byte)
    requires Inv(s) && InProcesses(s) && Allowed(s, KernelStored(f, o, b))
    ensures var (t, ok) := Step(s, KernelStored(f, o, b));
      Inv(t) && InProcesses(t) && Private(t) == PrivateStep(Private(s), KernelStored(f, o, b), ok)
  {
    hide Counted, WritableAlone, SamePlace;
    var t := StoreByte(s, f, o, b);
    SameTables(s, t);
    SameRefsKeep(s, t);
    forall d, k | Key(d, k) ensures Page(t, d, k) == Page(s, d, k) {
      if User(d) { HeldAlone(s, f, PteRef(d, k)); }
    }
    SamePagesRefine(s, t);
  }

  lemma StepRefines(s: Mem, e: Event)
    requires Inv(s) && InProcesses(s) && Allowed(s, e)
    ensures Inv(Step(s, e).0) && InProcesses(Step(s, e).0)
    ensures Private(Step(s, e).0) == PrivateStep(Private(s), e, Step(s, e).1)
  {
    hide TablesApart, Counted, WritableAlone, SamePlace, HeldOnce, InProcesses, Private, PrivateStep, Step;
    match e
    case Forked(p, q, c) => ForkRefines(s, p, q, c);
    case Exited(q, c) => ExitRefines(s, q, c);
    case Wrote(d, k, o, b) => WriteRefines(s, d, k, o, b);
    case Grew(d, k) => GrewRefines(s, d, k);
    case KernelTook => TookRefines(s);
    case KernelStored(f, o, b) => StoredRefines(s, f, o, b);
    case KernelGave(f) => GaveRefines(s, f);
  }

  // ---- whole runs ----------------------------------------------------------------------------

  predicate AllowedRun(s: Mem, es: seq<Event>)
    requires Shaped(s)
    decreases |es|
  {
    es == [] || (Allowed(s, es[0]) && AllowedRun(Step(s, es[0]).0, es[1..]))
  }

  function Run(s: Mem, es: seq<Event>): (r: Mem)
    requires Shaped(s) && AllowedRun(s, es)
    ensures Shaped(r)
    decreases |es|
  {
    if es == [] then s else Run(Step(s, es[0]).0, es[1..])
  }

  // Which events of the run succeeded.
  function Successes(s: Mem, es: seq<Event>): (r: seq<bool>)
    requires Shaped(s) && AllowedRun(s, es)
    ensures |r| == |es|
    decreases |es|
  {
    if es == [] then [] else [Step(s, es[0]).1] + Successes(Step(s, es[0]).0, es[1..])
  }

  ghost function PrivateRun(m: Pages, es: seq<Event>, oks: seq<bool>): Pages
    requires |oks| == |es|
    decreases |es|
  {
    if es == [] then m else PrivateRun(PrivateStep(m, es[0], oks[0]), es[1..], oks[1..])
  }

  // Over every run, each process's memory is what it would be with a private copy of its own.
  lemma {:induction false} RunRefines(s: Mem, es: seq<Event>)
    requires Inv(s) && InProcesses(s) && AllowedRun(s, es)
    ensures Inv(Run(s, es)) && InProcesses(Run(s, es))
    ensures Private(Run(s, es)) == PrivateRun(Private(s), es, Successes(s, es))
    decreases |es|
  {
    hide TablesApart, Counted, WritableAlone, SamePlace, HeldOnce, InProcesses, Private, PrivateStep, Step;
    if es != [] {
      StepRefines(s, es[0]);
      RunRefines(Step(s, es[0]).0, es[1..]);
      assert Successes(s, es)[1..] == Successes(Step(s, es[0]).0, es[1..]);
    }
  }

  // mem_init and the boot code: no process has a table, no frame is counted, and the kernel's own
  // tables and the 640KB of process 0 lie below main memory.
  ghost predicate Booted(s: Mem) {
    && Shaped(s) && s.held == {} && s.start >= KERNEL_ENTRIES
    && (forall i :: 0 <= i < |s.counts| ==> s.counts[i] == 0)
    && (forall d :: User(d) ==> s.dir[d] == NO_PTE)
    && (forall d :: 0 <= d < WINDOW && s.dir[d].present ==> s.dir[d].frame < s.start)
    && (forall k :: 0 <= k < KERNEL_ENTRIES && Entry(s, 0, k).present ==> Entry(s, 0, k).frame == k)
  }

  lemma BootKeeps(s: Mem)
    requires Booted(s)
    ensures Inv(s) && InProcesses(s)
  {
    forall f | InMain(s, f) ensures Count(s, f) == |Refs(s, f)| {
      forall x ensures !Points(s, x, f) {}
      assert Refs(s, f) == {};
    }
  }

  // A frame with two references is a page, and writable through none of them.
  ghost predicate SharedReadOnly(t: Mem, f: nat)
    requires Shaped(t)
  {
    |Refs(t, f)| >= 2 ==> forall x :: x in Refs(t, f) ==> x.PteRef? && !Entry(t, x.d, x.k).writable
  }

  lemma FrameIsSound(t: Mem, f: nat)
    requires Inv(t) && InProcesses(t) && InMain(t, f)
    ensures Count(t, f) == |Refs(t, f)| <= NR_PROCESS && SharedReadOnly(t, f)
  {
    assert Count(t, f) == |Refs(t, f)|;
    if x :| x in Refs(t, f) && x.PteRef? {
      SharersBounded(t, x.d, x.k, NR_PROCESS);
      forall y | y in Refs(t, f) && |Refs(t, f)| >= 2 ensures y.PteRef? && !Entry(t, y.d, y.k).writable {
        assert Points(t, y, f);
      }
    } else if x :| x in Refs(t, f) {
      OnlyRef(t, f, x);
    } else {
      assert Refs(t, f) == {};
    }
  }

  // In every reachable state the count of each main-memory frame is the number of table entries,
  // directory entries and kernel holders that refer to it, at most one for each process; a frame
  // with two of them is a page and writable through none.
  lemma EveryRunIsSound(s: Mem, es: seq<Event>, f: nat)
    requires Booted(s) && AllowedRun(s, es) && InMain(Run(s, es), f)
    ensures var t := Run(s, es); Count(t, f) == |Refs(t, f)| <= NR_PROCESS && SharedReadOnly(t, f)
  {
    BootKeeps(s);
    RunRefines(s, es);
    FrameIsSound(Run(s, es), f);
  }

  // Low pages are shared with process 0, which writes them without a fault. A process that still
  // maps such a page sees the write, and then only: that is the one exception to privacy.
  lemma KernelWriteSeen(s: Mem, f: nat, o: nat, b: byte, d: nat, k: nat)
    requires Inv(s) && 0 < f < s.start && o < PAGE_SIZE && Key(d, k)
    ensures Page(StoreByte(s, f, o, b), d, k) != Page(s, d, k) <==> Shows(Entry(s, d, k), f) && s.data[f][o] != b
  {
    var t := StoreByte(s, f, o, b);
    assert Entry(t, d, k) == Entry(s, d, k);
    if Shows(Entry(s, d, k), f) {
      assert t.data[f][o] == b;
      if s.data[f][o] == b { assert t.data[f] == s.data[f]; }
    }
  }
}
