// How many frames the operations take: copy_page_tables one for each table that it copies, and no more;
// get_empty_page one, or two when the page needs a table as well.
module PagingFrames {
  import opened Base
  import opened PagingModel
  import opened PagingInvariant
  import opened PagingSteps
  import opened PagingTables
  import opened PagingFork
  import opened PagingMap

  // The frames that get_phy_page can still hand out, as indices into the counts.
  ghost function FreeFrames(s: Mem): set<nat> {
    set i: nat | i < |s.counts| && s.counts[i] == 0
  }

  // How many of the slots d .. d + c - 1 have a table.
  function TablesIn(s: Mem, d: nat, c: nat): nat
    requires Shaped(s) && d + c <= SLOTS
    decreases c
  {
    if c == 0 then 0 else (if s.dir[d].present then 1 else 0) + TablesIn(s, d + 1, c - 1)
  }

  lemma {:induction false} SameTablesIn(s: Mem, t: Mem, d: nat, c: nat)
    requires Shaped(s) && Shaped(t) && d + c <= SLOTS
    requires forall e :: d <= e < d + c ==> t.dir[e] == s.dir[e]
    ensures TablesIn(t, d, c) == TablesIn(s, d, c)
    decreases c
  {
    if c > 0 { SameTablesIn(s, t, d + 1, c - 1); }
  }

  // get_phy_page fails exactly when no frame is free, and otherwise takes the first one.
  lemma TookFrame(s: Mem)
    requires Inv(s)
    ensures var (t, f) := GetPhyPage(s);
      && (f == 0 <==> FreeFrames(s) == {})
      && (f != 0 ==> forall i: nat :: i in FreeFrames(s) ==> f - s.start <= i)
      && (f != 0 ==> InMain(s, f) && f - s.start in FreeFrames(s) && FreeFrames(t) == FreeFrames(s) - {f - s.start})
  {
    hide TablesApart, Counted, WritableAlone, SamePlace, HeldOnce;
    var (t, f) := GetPhyPage(s);
    GetPhyPageKeeps(s);
    if f == 0 {
      assert FreeFrames(s) == {};
    } else {
      assert f - s.start in FreeFrames(s);
    }
  }

  lemma NoRefsNoCount(s: Mem, f: nat)
    requires Inv(s) && InMain(s, f)
    ensures Count(s, f) == 0 <==> Refs(s, f) == {}
  {
    assert Count(s, f) == |Refs(s, f)|;
  }

  // What refers to a frame after entries were copied stands for a reference that there was before.
  lemma CopiedFrom(u: Mem, v: Mem, fd: nat, td: nat, n: nat, x: Ref, f: nat) returns (y: Ref)
    requires Inv(u) && Shaped(v) && MayCopy(fd, td, n) && Copied(u, v, fd, td, n) && InMain(u, f) && Points(v, x, f)
    ensures Points(u, y, f)
  {
    hide Counted, WritableAlone, SamePlace, HeldOnce;
    y := if x.PteRef? && x.d == td && x.k < n then PteRef(fd, x.k) else x;
    if x.PteRef? && x.d == td && x.k < n {
      assert SameFrame(Entry(u, fd, x.k), Entry(v, td, x.k));
    }
  }

  lemma CopiedRefs(u: Mem, v: Mem, fd: nat, td: nat, n: nat, f: nat)
    requires Inv(u) && Shaped(v) && MayCopy(fd, td, n) && Copied(u, v, fd, td, n) && InMain(u, f)
    requires forall k :: 0 <= k < SLOTS ==> !Entry(u, td, k).present
    ensures Refs(u, f) == {} <==> Refs(v, f) == {}
  {
    hide TablesApart, Counted, WritableAlone, SamePlace, HeldOnce;
    if x :| x in Refs(u, f) {
      assert Points(v, x, f);
    } else if x :| x in Refs(v, f) {
      var y := CopiedFrom(u, v, fd, td, n, x, f);
    }
  }

  lemma CopiedFrames(u: Mem, v: Mem, fd: nat, td: nat, n: nat)
    requires Inv(u) && Inv(v) && MayCopy(fd, td, n) && Copied(u, v, fd, td, n)
    requires forall k :: 0 <= k < SLOTS ==> !Entry(u, td, k).present
    ensures FreeFrames(v) == FreeFrames(u)
  {
    hide Inv;
    forall i: nat | i < |u.counts| ensures v.counts[i] == 0 <==> u.counts[i] == 0 {
      CopiedCount(u, v, fd, td, n, u.start + i);
    }
  }

  lemma CopiedCount(u: Mem, v: Mem, fd: nat, td: nat, n: nat, f: nat)
    requires Inv(u) && Inv(v) && MayCopy(fd, td, n) && Copied(u, v, fd, td, n) && InMain(u, f)
    requires forall k :: 0 <= k < SLOTS ==> !Entry(u, td, k).present
    ensures InMain(v, f) && (Count(v, f) == 0 <==> Count(u, f) == 0)
  {
    hide TablesApart, Counted, WritableAlone, SamePlace, HeldOnce;
    CopiedRefs(u, v, fd, td, n, f);
    NoRefsNoCount(u, f);
    NoRefsNoCount(v, f);
  }

  // One slot into an empty one: a frame if there is a table to copy.
  lemma CopySlotFrames(s: Mem, fd: nat, td: nat, n: nat)
    requires Inv(s) && MayCopy(fd, td, n) && !s.dir[td].present
    ensures var (t, o) := CopySlot(s, fd, td, n);
      && o == (if s.dir[fd].present && FreeFrames(s) == {} then NoMemory else Done)
      && (o == Done ==> |FreeFrames(t)| == |FreeFrames(s)| - (if s.dir[fd].present then 1 else 0))
  {
    hide Counted, WritableAlone, SamePlace, HeldOnce, CopyEntries, FreeFrames, Copied, CopyEntry;
    if s.dir[fd].present {
      TookFrame(s);
      GetPhyPageKeeps(s);
      var (t, f) := GetPhyPage(s);
      if f != 0 {
        var u := InstallTable(t, td, f);
        TableReady(s, t, u, f, td);
        CopyEntriesKeeps(u, fd, td, n);
        CopiedFrames(u, CopyEntries(u, fd, td, n), fd, td, n);
        SameFreeFrames(t, u);
      }
    }
  }

  lemma SameFreeFrames(t: Mem, u: Mem)
    requires t.counts == u.counts
    ensures FreeFrames(u) == FreeFrames(t)
  {
  }

  lemma MayCopyRest(fd: nat, td: nat, c: nat, n: nat)
    requires c > 0 && MayCopySlots(fd, td, c, n)
    ensures MayCopySlots(fd + 1, td + 1, c - 1, n) && MayCopy(fd, td, n)
    ensures !(fd + 1 <= td < fd + c)
  {
  }

  // The slots behind the first: the child's are still empty, and the parent has the same tables.
  lemma SlotsBehind(s: Mem, t: Mem, fd: nat, td: nat, c: nat)
    requires Shaped(s) && Shaped(t) && c > 0 && fd + c <= SLOTS && td + c <= SLOTS
    requires forall d :: 0 <= d < SLOTS && d != td ==> t.dir[d] == s.dir[d]
    requires forall d :: td <= d < td + c ==> !s.dir[d].present
    requires !(fd + 1 <= td < fd + c)
    ensures forall d :: td + 1 <= d < td + c ==> !t.dir[d].present
    ensures TablesIn(t, fd + 1, c - 1) == TablesIn(s, fd + 1, c - 1)
  {
    hide Shaped;
    SameTablesIn(s, t, fd + 1, c - 1);
  }

  lemma FirstSlot(s: Mem, fd: nat, td: nat, n: nat)
    requires Inv(s) && MayCopy(fd, td, n)
    ensures var t := CopySlot(s, fd, td, n).0;
      Inv(t) && forall d :: 0 <= d < SLOTS && d != td ==> t.dir[d] == s.dir[d]
  {
    hide TablesApart, Counted, WritableAlone, SamePlace, HeldOnce, CopySlot;
    CopySlotKeeps(s, fd, td, n);
  }

  // copy_page_tables into empty slots succeeds exactly when there is a frame for each table.
  lemma {:induction false} CopySlotsFrames(s: Mem, fd: nat, td: nat, c: nat, n: nat)
    requires Inv(s) && MayCopySlots(fd, td, c, n)
    requires forall d :: td <= d < td + c ==> !s.dir[d].present
    ensures CopySlots(s, fd, td, c, n).1 == if TablesIn(s, fd, c) <= |FreeFrames(s)| then Done else NoMemory
    decreases c
  {
    hide TablesApart, Counted, WritableAlone, SamePlace, HeldOnce, CopySlot, FreeFrames, MayCopy;
    if c > 0 {
      MayCopyRest(fd, td, c, n);
      FirstSlot(s, fd, td, n);
      CopySlotFrames(s, fd, td, n);
      var (t, o) := CopySlot(s, fd, td, n);
      if o == Done {
        SlotsBehind(s, t, fd, td, c);
        CopySlotsFrames(t, fd + 1, td + 1, c - 1, n);
      } else {
        EmptyHasNone(s);
      }
    }
  }

  lemma EmptyHasNone(s: Mem)
    ensures FreeFrames(s) == {} <==> |FreeFrames(s)| == 0
  {
  }

  // So does fork.
  lemma ForkFrames(s: Mem, p: nat, q: nat, c: nat)
    requires Inv(s) && MayFork(p, q, c)
    requires forall d :: WINDOW * q <= d < WINDOW * q + c ==> !s.dir[d].present
    ensures Fork(s, p, q, c).1 == if TablesIn(s, WINDOW * p, c) <= |FreeFrames(s)| then Done else NoMemory
  {
    hide TablesApart, Counted, WritableAlone, SamePlace, HeldOnce, CopySlots, FreeSlots, FreeFrames;
    CopySlotsFrames(s, WINDOW * p, WINDOW * q, c, EntriesToCopy(WINDOW * p));
  }

  // get_empty_page needs a frame for the page, and one for its table if there is none.
  lemma GetEmptyPageFrames(s: Mem, d: nat, k: nat)
    requires Inv(s) && User(d) && k < SLOTS && !Entry(s, d, k).present
    ensures GetEmptyPage(s, d, k).1 <==> (if s.dir[d].present then 1 else 2) <= |FreeFrames(s)|
  {
    hide TablesApart, Counted, WritableAlone, SamePlace, MapPage, FreeFrames;
    GetPhyPageKeeps(s);
    TookFrame(s);
    var (t, f) := GetPhyPage(s);
    if f != 0 {
      TookKeeps(s, t, f);
      MapPageExact(t, f, d, k);
      TookFrame(t);
      GetPhyPageKeeps(t);
      NoneFree(t);
      assert |FreeFrames(t)| == |FreeFrames(s)| - 1;
    }
  }

  lemma NoneFree(s: Mem)
    ensures FreeFrames(s) == {} <==> 0 !in s.counts
  {
    if 0 in s.counts {
      var i: nat :| i < |s.counts| && s.counts[i] == 0;
      assert i in FreeFrames(s);
    }
  }
}
