// What every operation of mm/memory.c keeps: each count is the number of references, and a frame
// with two references is writable through none of them.
module PagingInvariant {
  import opened Base
  import opened PagingModel

  predicate User(d: int) { WINDOW <= d < SLOTS }

  // ---- references ----------------------------------------------------------------------------

  datatype Ref = DirRef(d: nat) | PteRef(d: nat, k: nat) | HeldRef

  ghost predicate Points(s: Mem, r: Ref, f: nat)
    requires Shaped(s)
  {
    match r
    case DirRef(d) => User(d) && s.dir[d].present && s.dir[d].frame == f
    case PteRef(d, k) => User(d) && k < SLOTS && Entry(s, d, k).present && Entry(s, d, k).frame == f
    case HeldRef => f in s.held
  }

  ghost function AllRefs(): (r: set<Ref>)
    ensures HeldRef in r
    ensures forall d :: User(d) ==> DirRef(d) in r
    ensures forall d, k :: User(d) && 0 <= k < SLOTS ==> PteRef(d, k) in r
  {
    (set d | 0 <= d < SLOTS :: DirRef(d)) +
    (set d, k | 0 <= d < SLOTS && 0 <= k < SLOTS :: PteRef(d, k)) + {HeldRef}
  }

  // Everything that refers to frame f.
  ghost function Refs(s: Mem, f: nat): (r: set<Ref>)
    requires Shaped(s)
    ensures forall x :: x in r <==> Points(s, x, f)
  {
    set x | x in AllRefs() && Points(s, x, f)
  }

  // ---- the invariant -------------------------------------------------------------------------

  // A user slot leads to a main-memory frame of its own; the kernel's tables are in low memory,
  // and the 640KB that process 0 hands on are low frames.
  ghost predicate TablesApart(s: Mem)
    requires Shaped(s)
  {
    && (forall d :: User(d) && s.dir[d].present ==> InMain(s, s.dir[d].frame) && Count(s, s.dir[d].frame) == 1)
    && (forall d, e :: User(d) && User(e) && d != e && s.dir[d].present && s.dir[e].present
          ==> s.dir[d].frame != s.dir[e].frame)
    && (forall d :: User(d) && !s.dir[d].present ==> s.dir[d] == NO_PTE)
    && (forall d :: 0 <= d < WINDOW && s.dir[d].present ==> s.dir[d].frame < s.start)
    && (forall k :: 0 <= k < KERNEL_ENTRIES && Entry(s, 0, k).present ==> Entry(s, 0, k).frame < s.start)
  }

  ghost predicate Counted(s: Mem)
    requires Shaped(s)
  {
    forall f :: InMain(s, f) ==> Count(s, f) == |Refs(s, f)|
  }

  // Writable means not shared: a main-memory frame with one reference.
  ghost predicate WritableAlone(s: Mem)
    requires Shaped(s)
  {
    forall d, k :: User(d) && 0 <= k < SLOTS && Entry(s, d, k).present ==>
      && Entry(s, d, k).frame < |s.tables|
      && (Entry(s, d, k).writable ==> InMain(s, Entry(s, d, k).frame) && Count(s, Entry(s, d, k).frame) == 1)
  }

  // A main-memory frame is mapped at one offset within the processes that share it.
  ghost predicate SamePlace(s: Mem)
    requires Shaped(s)
  {
    forall d, k, e, j :: User(d) && User(e) && 0 <= k < SLOTS && 0 <= j < SLOTS
      && Entry(s, d, k).present && Entry(s, e, j).present
      && Entry(s, d, k).frame == Entry(s, e, j).frame && InMain(s, Entry(s, d, k).frame)
      ==> k == j && d % WINDOW == e % WINDOW
  }

  ghost predicate HeldOnce(s: Mem)
    requires Shaped(s)
  {
    forall f :: f in s.held ==> InMain(s, f) && Count(s, f) == 1
  }

  ghost predicate Inv(s: Mem) {
    Shaped(s) && TablesApart(s) && Counted(s) && WritableAlone(s) && SamePlace(s) && HeldOnce(s)
  }

  // ---- consequences --------------------------------------------------------------------------

  lemma OnlyRef(s: Mem, f: nat, r: Ref)
    requires Inv(s) && InMain(s, f) && Count(s, f) == 1 && Points(s, r, f)
    ensures Refs(s, f) == {r}
  {
    SubsetSize({r}, Refs(s, f));
    var rest := Refs(s, f) - {r};
    assert Refs(s, f) == rest + {r};
    assert |rest| == 0;
  }

  lemma FreeMeansNoRefs(s: Mem, f: nat)
    requires Inv(s) && InMain(s, f) && Count(s, f) == 0
    ensures Refs(s, f) == {}
    ensures f !in s.held
    ensures forall d :: User(d) && s.dir[d].present ==> s.dir[d].frame != f
    ensures forall d, k :: User(d) && 0 <= k < SLOTS && Entry(s, d, k).present ==> Entry(s, d, k).frame != f
  {
    assert Refs(s, f) == {};
    forall d | User(d) && s.dir[d].present ensures s.dir[d].frame != f { assert DirRef(d) !in Refs(s, f); }
    forall d, k | User(d) && 0 <= k < SLOTS && Entry(s, d, k).present ensures Entry(s, d, k).frame != f {
      assert PteRef(d, k) !in Refs(s, f);
    }
    assert HeldRef !in Refs(s, f);
  }

  // No page of any process is a page table of any process.
  lemma TablesAreNotMapped(s: Mem, d: nat, e: nat, k: nat)
    requires Inv(s) && User(d) && User(e) && k < SLOTS && s.dir[d].present && Entry(s, e, k).present
    ensures Entry(s, e, k).frame != s.dir[d].frame
  {
    var f := s.dir[d].frame;
    OnlyRef(s, f, DirRef(d));
    assert PteRef(e, k) !in Refs(s, f);
  }

  // Only one process maps a frame whose count is one.
  lemma MappedAlone(s: Mem, d: nat, k: nat, e: nat, j: nat)
    requires Inv(s) && User(d) && User(e) && k < SLOTS && j < SLOTS
    requires Entry(s, d, k).present && Entry(s, e, j).present && Entry(s, d, k).frame == Entry(s, e, j).frame
    requires InMain(s, Entry(s, d, k).frame) && Count(s, Entry(s, d, k).frame) == 1
    ensures d == e && k == j
  {
    OnlyRef(s, Entry(s, d, k).frame, PteRef(d, k));
    assert PteRef(e, j) in Refs(s, Entry(s, d, k).frame);
  }

  // ---- what a process sees -------------------------------------------------------------------

  // The pages followed: every user page, and the 640KB of process 0 that its children inherit.
  predicate Key(d: int, k: int) {
    (User(d) && 0 <= k < SLOTS) || (d == 0 && 0 <= k < KERNEL_ENTRIES)
  }

  // The contents at directory slot d, table index k.
  ghost function Page(s: Mem, d: nat, k: nat): Option<seq<byte>>
    requires Shaped(s) && Key(d, k)
  {
    if Entry(s, d, k).present && Entry(s, d, k).frame < |s.data| then Some(s.data[Entry(s, d, k).frame]) else None
  }
}
