// The write fault, stores by the processor, and mapping a new page.
module PagingWrites {
  import opened Base
  import opened PagingModel
  import opened PagingInvariant
  import opened PagingSteps
  import opened PagingTables

  // Every page but (d, k) is the same, and (d, k) shows v.
  ghost predicate OnlyPage(s: Mem, t: Mem, d: nat, k: nat, v: Option<seq<byte>>)
    requires Shaped(s) && Shaped(t)
  {
    forall c, j :: Key(c, j) ==> Page(t, c, j) == if c == d && j == k then v else Page(s, c, j)
  }

  // ---- do_wp_page ----------------------------------------------------------------------------

  lemma UnshareAlone(s: Mem, d: nat, k: nat)
    requires Inv(s) && User(d) && k < SLOTS && Entry(s, d, k).present
    requires InMain(s, Entry(s, d, k).frame) && Count(s, Entry(s, d, k).frame) == 1
    ensures Inv(DoWpPage(s, d, k)) && OnlyPage(s, DoWpPage(s, d, k), d, k, Page(s, d, k))
    ensures OneEntry(s, DoWpPage(s, d, k), d, k, Entry(s, d, k).(writable := true), 0)
  {
    hide Counted;
    var e := Entry(s, d, k).(writable := true);
    SetEntryEffect(s, d, k, e);
    forall c | User(c) && s.dir[c].present ensures s.dir[c].frame != e.frame { TablesAreNotMapped(s, c, d, k); }
    MappedIsCounted(s, d, k);
    forall c, j | User(c) && 0 <= j < SLOTS && Shows(Entry(s, c, j), e.frame) ensures c == d && j == k {
      MappedAlone(s, d, k, c, j);
    }
    OneEntryKeeps(s, DoWpPage(s, d, k), d, k, e, 0);
  }

  // t, with f just taken, becomes u when entry (d, k) leaves its old frame for a copy in f.
  lemma UnshareEffect(t: Mem, u: Mem, f: nat, d: nat, k: nat)
    requires Shaped(t) && TablesApart(t) && User(d) && k < SLOTS && Entry(t, d, k).present
    requires Entry(t, d, k).frame < |t.data|
    requires InMain(t, f) && f in t.held && f != Entry(t, d, k).frame
    requires InMain(t, Entry(t, d, k).frame) ==> 1 <= Count(t, Entry(t, d, k).frame)
    requires u == MoveTo(t, d, k, f)
    ensures Shaped(u) && OneEntry(t, u, d, k, Pte(f, true, true), f)
    ensures CountsFollow(t, u, Entry(t, d, k), Pte(f, true, true), f)
    ensures u.data == t.data[f := t.data[Entry(t, d, k).frame]]
  {
    var e := Pte(f, true, true);
    SetEntryEffect(t, d, k, e);
    SameTables(u, SetEntry(t, d, k, e));
  }

  lemma HeldFrameFree(t: Mem, f: nat)
    requires Inv(t) && f in t.held
    ensures InMain(t, f) && Count(t, f) == 1
    ensures forall c :: User(c) && t.dir[c].present ==> t.dir[c].frame != f
    ensures forall c, j :: Key(c, j) && Entry(t, c, j).present ==> Entry(t, c, j).frame != f
  {
    OnlyRef(t, f, HeldRef);
    forall c | User(c) && t.dir[c].present ensures t.dir[c].frame != f { assert DirRef(c) !in Refs(t, f); }
    forall c, j | Key(c, j) && Entry(t, c, j).present ensures Entry(t, c, j).frame != f {
      if User(c) { assert PteRef(c, j) !in Refs(t, f); }
    }
  }

  lemma UnshareCopyKeeps(t: Mem, u: Mem, f: nat, d: nat, k: nat)
    requires Inv(t) && Shaped(u) && f in t.held && User(d) && k < SLOTS && Entry(t, d, k).present
    requires OneEntry(t, u, d, k, Pte(f, true, true), f)
    requires CountsFollow(t, u, Entry(t, d, k), Pte(f, true, true), f)
    ensures Inv(u)
  {
    hide TablesApart, Counted, WritableAlone, SamePlace;
    HeldFrameFree(t, f);
    OneEntryKeeps(t, u, d, k, Pte(f, true, true), f);
  }

  lemma UnshareCopyPages(t: Mem, u: Mem, f: nat, d: nat, k: nat)
    requires Inv(t) && Shaped(u) && f in t.held && User(d) && k < SLOTS && Entry(t, d, k).present
    requires OneEntry(t, u, d, k, Pte(f, true, true), f)
    requires u.data == t.data[f := t.data[Entry(t, d, k).frame]]
    ensures OnlyPage(t, u, d, k, Page(t, d, k))
  {
    hide Counted, SamePlace;
    HeldFrameFree(t, f);
  }

  // The fault can be resolved: the frame is not shared, or some frame is free.
  predicate CanUnshare(s: Mem, d: nat, k: nat)
    requires Shaped(s) && d < SLOTS && k < SLOTS
  {
    (InMain(s, Entry(s, d, k).frame) && Count(s, Entry(s, d, k).frame) == 1) || 0 in s.counts
  }

  lemma UnshareCopy(s: Mem, t: Mem, f: nat, d: nat, k: nat)
    requires Inv(s) && User(d) && k < SLOTS && Entry(s, d, k).present && Entry(s, d, k).frame < |s.data|
    requires !(InMain(s, Entry(s, d, k).frame) && Count(s, Entry(s, d, k).frame) == 1)
    requires (t, f) == GetPhyPage(s) && f != 0
    ensures Inv(DoWpPage(s, d, k)) && OnlyPage(s, DoWpPage(s, d, k), d, k, Page(s, d, k))
    ensures Entry(DoWpPage(s, d, k), d, k) == Pte(f, true, true)
  {
    hide TablesApart, Counted, WritableAlone, SamePlace, HeldOnce;
    var u := DoWpPage(s, d, k);
    GetPhyPageKeeps(s);
    TookKeeps(s, t, f);
    TookPages(s, t, f);
    if InMain(t, Entry(t, d, k).frame) { MappedIsCounted(t, d, k); }
    UnshareEffect(t, u, f, d, k);
    UnshareCopyKeeps(t, u, f, d, k);
    UnshareCopyPages(t, u, f, d, k);
  }

  // A write fault keeps the invariant and every page, and makes the entry writable if it can.
  lemma DoWpPageKeeps(s: Mem, d: nat, k: nat)
    requires Inv(s) && User(d) && k < SLOTS && Entry(s, d, k).present && Entry(s, d, k).frame < |s.data|
    ensures Inv(DoWpPage(s, d, k)) && OnlyPage(s, DoWpPage(s, d, k), d, k, Page(s, d, k))
    ensures Entry(DoWpPage(s, d, k), d, k).present
    ensures Entry(DoWpPage(s, d, k), d, k).writable <==> Entry(s, d, k).writable || CanUnshare(s, d, k)
  {
    hide TablesApart, Counted, SamePlace, HeldOnce;
    if InMain(s, Entry(s, d, k).frame) && Count(s, Entry(s, d, k).frame) == 1 {
      UnshareAlone(s, d, k);
    } else {
      var (t, f) := GetPhyPage(s);
      GetPhyPageKeeps(s);
      if f != 0 {
        UnshareCopy(s, t, f, d, k);
        assert s.counts[f - s.start] == 0;
      }
    }
  }

  // ---- a store -------------------------------------------------------------------------------

  lemma StoreByteKeeps(s: Mem, d: nat, k: nat, o: nat, b: byte)
    requires Inv(s) && User(d) && k < SLOTS && o < PAGE_SIZE && Entry(s, d, k).present && Entry(s, d, k).writable
    ensures Entry(s, d, k).frame < |s.data|
    ensures var t := StoreByte(s, Entry(s, d, k).frame, o, b);
      Inv(t) && OnlyPage(s, t, d, k, Some(s.data[Entry(s, d, k).frame][o := b]))
  {
    var f := Entry(s, d, k).frame;
    var t := StoreByte(s, f, o, b);
    StoreByteInv(s, f, o, b);
    forall c, j | Key(c, j)
      ensures Page(t, c, j) == if c == d && j == k then Some(s.data[f][o := b]) else Page(s, c, j) {
      if User(c) && Shows(Entry(s, c, j), f) { MappedAlone(s, d, k, c, j); }
    }
  }

  lemma StoreByteInv(s: Mem, f: nat, o: nat, b: byte)
    requires Inv(s) && f < |s.data| && o < PAGE_SIZE
    ensures Inv(StoreByte(s, f, o, b)) && SameEntries(s, StoreByte(s, f, o, b))
  {
    SameRefsKeep(s, StoreByte(s, f, o, b));
  }

  // A store by a process reaches its own page and no other; it fails exactly when the page is
  // absent, or is shared and no frame is free.
  lemma UserWriteKeeps(s: Mem, d: nat, k: nat, o: nat, b: byte)
    requires Inv(s) && User(d) && k < SLOTS && o < PAGE_SIZE
    ensures Entry(s, d, k).present ==> Entry(s, d, k).frame < |s.data|
    ensures var (t, ok) := UserWrite(s, d, k, o, b);
      && Inv(t)
      && (ok <==> Entry(s, d, k).present && (Entry(s, d, k).writable || CanUnshare(s, d, k)))
      && (ok ==> OnlyPage(s, t, d, k, Some(Page(s, d, k).value[o := b])))
      && (!ok ==> forall c, j :: Key(c, j) ==> Page(t, c, j) == Page(s, c, j))
  {
    hide TablesApart, Counted, SamePlace, HeldOnce;
    if Entry(s, d, k).present {
      var t := if Entry(s, d, k).writable then s else DoWpPage(s, d, k);
      DoWpPageKeeps(s, d, k);
      if Entry(t, d, k).writable { StoreByteKeeps(t, d, k, o, b); }
    }
  }
}
