// Each operation of mm/memory.c keeps the invariant; what it does to the entries is stated beside it.
module PagingSteps {
  import opened Base
  import opened PagingModel
  import opened PagingInvariant

  // ---- one entry -----------------------------------------------------------------------------

  // t differs from s in entry (d, k), which becomes e, and in that frame h is no longer held.
  ghost predicate OneEntry(s: Mem, t: Mem, d: nat, k: nat, e: Pte, h: nat)
    requires Shaped(s) && Shaped(t)
  {
    && t.dir == s.dir && t.start == s.start && |t.counts| == |s.counts|
    && t.held == s.held - {h}
    && forall c, j :: 0 <= c < SLOTS && 0 <= j < SLOTS ==>
        Entry(t, c, j) == if c == d && j == k then e else Entry(s, c, j)
  }

  function One(b: bool): int { if b then 1 else 0 }

  function Shows(e: Pte, f: nat): bool { e.present && e.frame == f }

  // The counts follow the change of that entry.
  ghost predicate CountsFollow(s: Mem, t: Mem, was: Pte, e: Pte, h: nat)
    requires t.start == s.start && |t.counts| == |s.counts|
  {
    forall f :: InMain(s, f) ==>
      Count(t, f) == Count(s, f) - One(Shows(was, f)) - One(f == h && h in s.held) + One(Shows(e, f))
  }

  // The new entry may be placed at (d, k).
  ghost predicate Fits(s: Mem, t: Mem, d: nat, k: nat, e: Pte, h: nat)
    requires Shaped(s) && t.start == s.start && |t.counts| == |s.counts|
  {
    e.present ==>
      && e.frame < |s.tables|
      && (e.writable ==> InMain(s, e.frame) && Count(t, e.frame) == 1)
      && (InMain(s, e.frame) ==>
          && (e.frame in s.held ==> e.frame == h)
          && (forall c :: User(c) && s.dir[c].present ==> s.dir[c].frame != e.frame)
          && (forall c, j :: User(c) && 0 <= j < SLOTS && Shows(Entry(s, c, j), e.frame)
                ==> j == k && c % WINDOW == d % WINDOW))
  }

  lemma SetEntryEffect(s: Mem, d: nat, k: nat, e: Pte)
    requires Shaped(s) && TablesApart(s) && User(d) && s.dir[d].present && k < SLOTS
    ensures Shaped(SetEntry(s, d, k, e))
    ensures forall c, j :: 0 <= c < SLOTS && 0 <= j < SLOTS ==>
        Entry(SetEntry(s, d, k, e), c, j) == if c == d && j == k then e else Entry(s, c, j)
  {
  }

  lemma OneEntryRefs(s: Mem, t: Mem, d: nat, k: nat, e: Pte, h: nat, f: nat)
    requires Shaped(s) && Shaped(t) && User(d) && k < SLOTS && OneEntry(s, t, d, k, e, h)
    ensures Refs(t, f) == Refs(s, f) - {PteRef(d, k)} - (if f == h then {HeldRef} else {})
                          + (if Shows(e, f) then {PteRef(d, k)} else {})
  {
    var now := Refs(s, f) - {PteRef(d, k)} - (if f == h then {HeldRef} else {})
                + (if Shows(e, f) then {PteRef(d, k)} else {});
    forall x ensures x in Refs(t, f) <==> x in now {
      assert x in Refs(t, f) <==> Points(t, x, f);
      assert x in Refs(s, f) <==> Points(s, x, f);
    }
  }

  lemma OneEntryCounted(s: Mem, t: Mem, d: nat, k: nat, e: Pte, h: nat, f: nat)
    requires Shaped(s) && Shaped(t) && User(d) && k < SLOTS && OneEntry(s, t, d, k, e, h)
    requires CountsFollow(s, t, Entry(s, d, k), e, h) && InMain(s, f) && Count(s, f) == |Refs(s, f)|
    ensures Count(t, f) == |Refs(t, f)|
  {
    var p := PteRef(d, k);
    var was := Refs(s, f);
    OneEntryRefs(s, t, d, k, e, h, f);
    assert p in was <==> Points(s, p, f);
    assert HeldRef in was <==> Points(s, HeldRef, f);
    var less := was - {p};
    assert |less| == |was| - One(p in was);
    var kept := less - (if f == h then {HeldRef} else {});
    assert |kept| == |less| - One(f == h && h in s.held);
    assert |Refs(t, f)| == |kept| + One(Shows(e, f));
  }

  lemma MappedIsCounted(s: Mem, d: nat, k: nat)
    requires Inv(s) && User(d) && k < SLOTS && Entry(s, d, k).present && InMain(s, Entry(s, d, k).frame)
    ensures Count(s, Entry(s, d, k).frame) >= 1
    ensures Entry(s, d, k).frame !in s.held
  {
    var f := Entry(s, d, k).frame;
    assert PteRef(d, k) in Refs(s, f);
    SubsetSize({PteRef(d, k)}, Refs(s, f));
    if f in s.held {
      OnlyRef(s, f, HeldRef);
    }
  }

  lemma OneEntryWritable(s: Mem, t: Mem, d: nat, k: nat, e: Pte, h: nat)
    requires Inv(s) && Shaped(t) && User(d) && k < SLOTS && OneEntry(s, t, d, k, e, h)
    requires CountsFollow(s, t, Entry(s, d, k), e, h) && Fits(s, t, d, k, e, h)
    requires e.present && InMain(s, e.frame) && e.frame !in s.held ==>
      !exists c, j ::
        User(c) && 0 <= j < SLOTS && (c != d || j != k) && Shows(Entry(s, c, j), e.frame) && Entry(s, c, j).writable
    ensures WritableAlone(t)
  {
    forall c, j | User(c) && 0 <= j < SLOTS && Entry(t, c, j).present
      ensures Entry(t, c, j).frame < |t.tables|
      ensures Entry(t, c, j).writable ==> InMain(t, Entry(t, c, j).frame) && Count(t, Entry(t, c, j).frame) == 1
    {
      if c != d || j != k {
        var x := Entry(s, c, j);
        assert Entry(t, c, j) == x;
        if x.writable {
          MappedIsCounted(s, c, j);
          if Shows(Entry(s, d, k), x.frame) { MappedAlone(s, c, j, d, k); }
          assert !Shows(e, x.frame);
        }
      }
    }
  }

  lemma OneEntryTables(s: Mem, t: Mem, d: nat, k: nat, e: Pte, h: nat)
    requires Inv(s) && Shaped(t) && User(d) && k < SLOTS && OneEntry(s, t, d, k, e, h)
    requires CountsFollow(s, t, Entry(s, d, k), e, h) && Fits(s, t, d, k, e, h)
    ensures TablesApart(t)
  {
    forall c | User(c) && t.dir[c].present ensures Count(t, t.dir[c].frame) == 1 {
      OnlyRef(s, s.dir[c].frame, DirRef(c));
      assert HeldRef !in Refs(s, s.dir[c].frame);
      if Entry(s, d, k).present { TablesAreNotMapped(s, c, d, k); }
    }
  }

  lemma OneEntryHeld(s: Mem, t: Mem, d: nat, k: nat, e: Pte, h: nat)
    requires Inv(s) && Shaped(t) && User(d) && k < SLOTS && OneEntry(s, t, d, k, e, h)
    requires CountsFollow(s, t, Entry(s, d, k), e, h) && Fits(s, t, d, k, e, h)
    ensures HeldOnce(t)
  {
    forall f | f in t.held ensures InMain(t, f) && Count(t, f) == 1 {
      OnlyRef(s, f, HeldRef);
      assert PteRef(d, k) !in Refs(s, f);
    }
  }

  // Placing an entry that fits, with the counts following, keeps the invariant.
  lemma OneEntryKeeps(s: Mem, t: Mem, d: nat, k: nat, e: Pte, h: nat)
    requires Inv(s) && Shaped(t) && User(d) && k < SLOTS && OneEntry(s, t, d, k, e, h)
    requires CountsFollow(s, t, Entry(s, d, k), e, h) && Fits(s, t, d, k, e, h)
    requires e.present && InMain(s, e.frame) && e.frame !in s.held ==>
      !exists c, j ::
        User(c) && 0 <= j < SLOTS && (c != d || j != k) && Shows(Entry(s, c, j), e.frame) && Entry(s, c, j).writable
    ensures Inv(t)
  {
    OneEntryWritable(s, t, d, k, e, h);
    OneEntryTables(s, t, d, k, e, h);
    OneEntryHeld(s, t, d, k, e, h);
    forall f | InMain(t, f) ensures Count(t, f) == |Refs(t, f)| { OneEntryCounted(s, t, d, k, e, h, f); }
    assert SamePlace(t);
  }

  lemma ClearEntryEffect(s: Mem, d: nat, k: nat)
    requires Shaped(s) && TablesApart(s) && User(d) && s.dir[d].present && k < SLOTS && 0 !in s.held
    requires Entry(s, d, k).present && InMain(s, Entry(s, d, k).frame) ==>
      Count(s, Entry(s, d, k).frame) >= 1 && Entry(s, d, k).frame !in s.held
    ensures OneEntry(s, ClearEntry(s, d, k), d, k, NO_PTE, 0)
    ensures CountsFollow(s, ClearEntry(s, d, k), Entry(s, d, k), NO_PTE, 0)
    ensures ClearEntry(s, d, k).data == s.data
  {
    SetEntryEffect(s, d, k, NO_PTE);
    var t := ClearEntry(s, d, k);
    assert t.tables == SetEntry(s, d, k, NO_PTE).tables;
    forall c, j | 0 <= c < SLOTS && 0 <= j < SLOTS
      ensures Entry(t, c, j) == if c == d && j == k then NO_PTE else Entry(s, c, j) {
      assert Entry(t, c, j) == Entry(SetEntry(s, d, k, NO_PTE), c, j);
    }
  }

  lemma ClearEntryKeeps(s: Mem, d: nat, k: nat)
    requires Inv(s) && User(d) && s.dir[d].present && k < SLOTS
    ensures Inv(ClearEntry(s, d, k))
    ensures OneEntry(s, ClearEntry(s, d, k), d, k, NO_PTE, 0)
    ensures ClearEntry(s, d, k).data == s.data
  {
    if Entry(s, d, k).present && InMain(s, Entry(s, d, k).frame) { MappedIsCounted(s, d, k); }
    ClearEntryEffect(s, d, k);
    OneEntryKeeps(s, ClearEntry(s, d, k), d, k, NO_PTE, 0);
  }

  // ---- the count cannot overflow its byte ----------------------------------------------------

  function WindowOf(r: Ref): nat {
    match r
    case DirRef(d) => d / WINDOW
    case PteRef(d, k) => d / WINDOW
    case HeldRef => 0
  }

  // A mapped frame has at most one reference in each of the first n process windows.
  lemma SharersBounded(s: Mem, d: nat, k: nat, n: nat)
    requires Inv(s) && User(d) && k < SLOTS && Entry(s, d, k).present && InMain(s, Entry(s, d, k).frame)
    requires forall c :: User(c) && s.dir[c].present ==> c < WINDOW * n
    ensures Count(s, Entry(s, d, k).frame) <= n
  {
    var f := Entry(s, d, k).frame;
    MappedIsCounted(s, d, k);
    forall x | x in Refs(s, f) ensures x.PteRef? && WindowOf(x) < n {
      if x.DirRef? { TablesAreNotMapped(s, x.d, d, k); }
    }
    ImageSize(Refs(s, f), WindowOf, n);
  }

  // ---- copy_page_tables ----------------------------------------------------------------------

  predicate SameFrame(e: Pte, e': Pte) {
    e'.present == e.present && (e.present ==> e'.frame == e.frame && (e'.writable ==> e.writable))
  }

  // Slot td receives the first n entries of slot fd; every other entry keeps its frame, and
  // outside the two slots its write bit.
  ghost predicate Copied(s: Mem, t: Mem, fd: nat, td: nat, n: nat)
    requires Shaped(s) && Shaped(t) && fd < SLOTS && td < SLOTS && n <= SLOTS
  {
    && t.dir == s.dir && t.start == s.start && |t.counts| == |s.counts| && t.held == s.held && t.data == s.data
    && (forall k :: 0 <= k < n ==> SameFrame(Entry(s, fd, k), Entry(t, td, k)))
    && (forall c, j :: 0 <= c < SLOTS && 0 <= j < SLOTS && !(c == td && j < n)
          ==> SameFrame(Entry(s, c, j), Entry(t, c, j)))
    && (forall c, j :: 0 <= c < SLOTS && 0 <= j < SLOTS && c != fd && c != td ==> Entry(t, c, j) == Entry(s, c, j))
  }

  ghost predicate EntryCopied(s: Mem, t: Mem, fd: nat, td: nat, k: nat)
    requires Shaped(s) && Shaped(t) && fd < SLOTS && td < SLOTS && k < SLOTS
  {
    && t.dir == s.dir && t.start == s.start && |t.counts| == |s.counts| && t.held == s.held && t.data == s.data
    && SameFrame(Entry(s, fd, k), Entry(t, td, k))
    && (forall c, j :: 0 <= c < SLOTS && 0 <= j < SLOTS && !(c == td && j == k)
          ==> SameFrame(Entry(s, c, j), Entry(t, c, j)))
    && (forall c, j :: 0 <= c < SLOTS && 0 <= j < SLOTS && c != fd && c != td ==> Entry(t, c, j) == Entry(s, c, j))
  }

  // What copy_memory asks for: the same slot of another process, or process 0's first 160 entries.
  predicate MayCopy(fd: nat, td: nat, n: nat) {
    User(td) && n <= SLOTS && ((User(fd) && fd != td && fd % WINDOW == td % WINDOW) || (fd == 0 && n <= KERNEL_ENTRIES))
  }

  lemma ShareLow(s: Mem, fd: nat, td: nat, k: nat)
    requires Inv(s) && MayCopy(fd, td, k + 1) && s.dir[fd].present && s.dir[td].present
    requires !Entry(s, td, k).present && Entry(s, fd, k).present && !InMain(s, Entry(s, fd, k).frame)
    ensures Inv(CopyEntry(s, fd, td, k)) && EntryCopied(s, CopyEntry(s, fd, td, k), fd, td, k)
  {
    hide Counted, SamePlace;
    var c := Entry(s, fd, k).(writable := false);
    SetEntryEffect(s, td, k, c);
    OneEntryKeeps(s, CopyEntry(s, fd, td, k), td, k, c, 0);
  }

  // First half of sharing a main-memory page: the parent's entry becomes read-only.
  lemma ShareMainParent(s: Mem, fd: nat, k: nat)
    requires Inv(s) && User(fd) && k < SLOTS && s.dir[fd].present
    requires Entry(s, fd, k).present && InMain(s, Entry(s, fd, k).frame)
    ensures var c := Entry(s, fd, k).(writable := false);
      Inv(SetEntry(s, fd, k, c)) && OneEntry(s, SetEntry(s, fd, k, c), fd, k, c, 0)
  {
    hide Counted;
    var c := Entry(s, fd, k).(writable := false);
    var u := SetEntry(s, fd, k, c);
    SetEntryEffect(s, fd, k, c);
    forall e | User(e) && s.dir[e].present ensures s.dir[e].frame != c.frame { TablesAreNotMapped(s, e, fd, k); }
    MappedIsCounted(s, fd, k);
    forall e, j | User(e) && 0 <= j < SLOTS && (e != fd || j != k) && Shows(Entry(s, e, j), c.frame)
      ensures !Entry(s, e, j).writable {
      if Entry(s, e, j).writable { MappedAlone(s, e, j, fd, k); }
    }
    OneEntryKeeps(s, u, fd, k, c, 0);
  }

  // Second half: the child's entry appears and the count goes up.
  lemma ShareMain(s: Mem, fd: nat, td: nat, k: nat)
    requires Inv(s) && MayCopy(fd, td, k + 1) && s.dir[fd].present && s.dir[td].present && User(fd)
    requires !Entry(s, td, k).present && Entry(s, fd, k).present && InMain(s, Entry(s, fd, k).frame)
    ensures Inv(CopyEntry(s, fd, td, k)) && EntryCopied(s, CopyEntry(s, fd, td, k), fd, td, k)
  {
    hide Counted, WritableAlone, SamePlace, CopyEntry;
    var c := Entry(s, fd, k).(writable := false);
    var u := SetEntry(s, fd, k, c);
    ShareMainParent(s, fd, k);
    SharersBounded(s, fd, k, SLOTS / WINDOW);
    ShareMainEffect(s, u, fd, td, k);
    ShareMainFits(u, fd, td, k, c);
    OneEntryKeeps(u, CopyEntry(s, fd, td, k), td, k, c, 0);
  }

  lemma ShareMainEffect(s: Mem, u: Mem, fd: nat, td: nat, k: nat)
    requires Shaped(s) && Shaped(u) && TablesApart(u) && User(fd) && User(td) && fd != td && k < SLOTS && 0 !in s.held
    requires s.dir[fd].present && s.dir[td].present
    requires !Entry(s, td, k).present && Entry(s, fd, k).present && InMain(s, Entry(s, fd, k).frame)
    requires Count(s, Entry(s, fd, k).frame) < 255 && u == SetEntry(s, fd, k, Entry(s, fd, k).(writable := false))
    ensures CopyEntry(s, fd, td, k).data == u.data
    ensures OneEntry(u, CopyEntry(s, fd, td, k), td, k, Entry(s, fd, k).(writable := false), 0)
    ensures CountsFollow(u, CopyEntry(s, fd, td, k), NO_PTE, Entry(s, fd, k).(writable := false), 0)
  {
    var c := Entry(s, fd, k).(writable := false);
    var t := CopyEntry(s, fd, td, k);
    SetEntryEffect(u, td, k, c);
    assert s.dir[fd].frame != s.dir[td].frame by { assert u.dir[fd].frame != u.dir[td].frame; }
    assert t.tables == SetEntry(u, td, k, c).tables;
    SameTables(t, SetEntry(u, td, k, c));
  }

  lemma SameTables(s: Mem, t: Mem)
    requires Shaped(s) && Shaped(t) && s.dir == t.dir && s.tables == t.tables
    ensures forall c, j :: 0 <= c < SLOTS && 0 <= j < SLOTS ==> Entry(s, c, j) == Entry(t, c, j)
  {
  }

  lemma ShareMainFits(u: Mem, fd: nat, td: nat, k: nat, c: Pte)
    requires Inv(u) && MayCopy(fd, td, k + 1) && User(fd) && k < SLOTS
    requires c == Entry(u, fd, k) && c.present && !c.writable && InMain(u, c.frame)
    ensures c.frame < |u.tables| && c.frame !in u.held
    ensures forall e :: User(e) && u.dir[e].present ==> u.dir[e].frame != c.frame
    ensures forall e, j :: User(e) && 0 <= j < SLOTS && Shows(Entry(u, e, j), c.frame)
              ==> j == k && e % WINDOW == td % WINDOW && !Entry(u, e, j).writable
  {
    forall e | User(e) && u.dir[e].present ensures u.dir[e].frame != c.frame { TablesAreNotMapped(u, e, fd, k); }
    MappedIsCounted(u, fd, k);
    forall e, j | User(e) && 0 <= j < SLOTS && Shows(Entry(u, e, j), c.frame)
      ensures !Entry(u, e, j).writable {
      if Entry(u, e, j).writable { MappedAlone(u, e, j, fd, k); }
    }
  }

  lemma KernelEntriesLow(s: Mem, fd: nat, td: nat, k: nat)
    requires Inv(s) && MayCopy(fd, td, k + 1) && Entry(s, fd, k).present && InMain(s, Entry(s, fd, k).frame)
    ensures User(fd)
  {
  }

  lemma CopyEntryKeeps(s: Mem, fd: nat, td: nat, k: nat)
    requires Inv(s) && MayCopy(fd, td, k + 1) && s.dir[fd].present && s.dir[td].present && !Entry(s, td, k).present
    ensures Inv(CopyEntry(s, fd, td, k)) && EntryCopied(s, CopyEntry(s, fd, td, k), fd, td, k)
  {
    hide TablesApart, Counted, WritableAlone, SamePlace, HeldOnce;
    var e := Entry(s, fd, k);
    if e.present && InMain(s, e.frame) {
      KernelEntriesLow(s, fd, td, k);
      ShareMain(s, fd, td, k);
    } else if e.present {
      ShareLow(s, fd, td, k);
    }
  }

  lemma CopiedOneMore(s: Mem, t: Mem, u: Mem, fd: nat, td: nat, n: nat)
    requires Shaped(s) && Shaped(t) && Shaped(u) && fd < SLOTS && td < SLOTS && fd != td && 0 < n <= SLOTS
    requires Copied(s, t, fd, td, n - 1) && EntryCopied(t, u, fd, td, n - 1)
    ensures Copied(s, u, fd, td, n)
  {
    forall c, j | 0 <= c < SLOTS && 0 <= j < SLOTS && !(c == td && j < n)
      ensures SameFrame(Entry(s, c, j), Entry(u, c, j)) {
      assert SameFrame(Entry(s, c, j), Entry(t, c, j));
    }
    forall k | 0 <= k < n ensures SameFrame(Entry(s, fd, k), Entry(u, td, k)) {
      if k < n - 1 {
        assert SameFrame(Entry(t, td, k), Entry(u, td, k));
      } else {
        assert SameFrame(Entry(s, fd, k), Entry(t, fd, k));
      }
    }
  }

  lemma {:induction false} CopyEntriesKeeps(s: Mem, fd: nat, td: nat, n: nat)
    requires Inv(s) && MayCopy(fd, td, n) && s.dir[fd].present && s.dir[td].present
    requires forall k :: 0 <= k < SLOTS ==> !Entry(s, td, k).present
    ensures Inv(CopyEntries(s, fd, td, n)) && Copied(s, CopyEntries(s, fd, td, n), fd, td, n)
  {
    hide TablesApart, Counted, WritableAlone, SamePlace, HeldOnce, CopyEntry;
    if n > 0 {
      CopyEntriesKeeps(s, fd, td, n - 1);
      var t := CopyEntries(s, fd, td, n - 1);
      assert SameFrame(Entry(s, td, n - 1), Entry(t, td, n - 1));
      CopyNext(s, t, fd, td, n);
    }
  }

  lemma CopyNext(s: Mem, t: Mem, fd: nat, td: nat, n: nat)
    requires Shaped(s) && Inv(t) && n > 0 && MayCopy(fd, td, n) && t.dir[fd].present && t.dir[td].present
    requires Copied(s, t, fd, td, n - 1) && !Entry(t, td, n - 1).present
    ensures Inv(CopyEntry(t, fd, td, n - 1)) && Copied(s, CopyEntry(t, fd, td, n - 1), fd, td, n)
  {
    hide TablesApart, Counted, WritableAlone, SamePlace, HeldOnce, CopyEntry, Copied;
    CopyEntryKeeps(t, fd, td, n - 1);
    CopiedOneMore(s, t, CopyEntry(t, fd, td, n - 1), fd, td, n);
  }
}
