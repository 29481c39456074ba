// Whole tables: taking a frame, installing and dropping a table, copying and freeing slots.
module PagingTables {
  import opened Base
  import opened PagingModel
  import opened PagingInvariant
  import opened PagingSteps

  // ---- get_phy_page --------------------------------------------------------------------------

  // Same entries; every page keeps its contents.
  ghost predicate SameEntries(s: Mem, t: Mem)
    requires Shaped(s) && Shaped(t)
  {
    t.start == s.start && |t.counts| == |s.counts|
    && forall c, j :: 0 <= c < SLOTS && 0 <= j < SLOTS ==> Entry(t, c, j) == Entry(s, c, j)
  }

  // t is s after frame f, referred to by nothing, was zeroed and handed to the kernel.
  ghost predicate Took(s: Mem, t: Mem, f: nat)
    requires Shaped(s)
  {
    && InMain(s, f)
    && t == s.(counts := s.counts[f - s.start := 1], tables := s.tables[f := EmptyTable()],
               data := s.data[f := Zeros()], held := s.held + {f})
  }

  lemma TookEntries(s: Mem, t: Mem, f: nat)
    requires Shaped(s) && TablesApart(s) && Took(s, t, f)
    requires forall d :: User(d) && s.dir[d].present ==> s.dir[d].frame != f
    ensures Shaped(t) && SameEntries(s, t)
  {
  }

  lemma TookCounted(s: Mem, t: Mem, f: nat, g: nat)
    requires Shaped(s) && Shaped(t) && SameEntries(s, t) && t.dir == s.dir && t.held == s.held + {f}
    requires InMain(s, f) && InMain(s, g) && Refs(s, f) == {} && Count(s, g) == |Refs(s, g)|
    requires Count(t, g) == if g == f then 1 else Count(s, g)
    ensures Count(t, g) == |Refs(t, g)|
  {
    var more := if g == f then {HeldRef} else {};
    forall x ensures x in Refs(t, g) <==> x in Refs(s, g) + more {
      assert x in Refs(t, g) <==> Points(t, x, g);
      assert x in Refs(s, g) <==> Points(s, x, g);
    }
    assert Refs(t, g) == Refs(s, g) + more;
  }

  lemma EntriesKeep(s: Mem, t: Mem)
    requires Inv(s) && Shaped(t) && SameEntries(s, t)
    requires forall f :: InMain(s, f) && Count(s, f) == 1 ==> Count(t, f) == 1
    ensures WritableAlone(t) && SamePlace(t)
  {
  }

  // Only the contents of frames differ.
  lemma SameRefsKeep(s: Mem, t: Mem)
    requires Inv(s) && Shaped(t) && SameEntries(s, t) && t.dir == s.dir && t.held == s.held && t.counts == s.counts
    ensures Inv(t)
  {
    EntriesKeep(s, t);
    SameRefsCounted(s, t);
  }

  lemma SameRefsCounted(s: Mem, t: Mem)
    requires Shaped(s) && Shaped(t) && Counted(s)
    requires SameEntries(s, t) && t.dir == s.dir && t.held == s.held && t.counts == s.counts
    ensures Counted(t)
  {
    forall g | InMain(t, g) ensures Count(t, g) == |Refs(t, g)| {
      forall x ensures x in Refs(t, g) <==> x in Refs(s, g) {
        assert x in Refs(t, g) <==> Points(t, x, g);
        assert x in Refs(s, g) <==> Points(s, x, g);
      }
      assert Refs(t, g) == Refs(s, g);
      assert Count(s, g) == |Refs(s, g)|;
    }
  }

  lemma TookKeeps(s: Mem, t: Mem, f: nat)
    requires Inv(s) && Took(s, t, f) && Count(s, f) == 0
    ensures Inv(t) && SameEntries(s, t) && Refs(s, f) == {} && f !in s.held
    ensures forall c, j :: User(c) && 0 <= j < SLOTS && Entry(s, c, j).present ==> Entry(s, c, j).frame != f
  {
    hide WritableAlone, SamePlace;
    FreeMeansNoRefs(s, f);
    TookEntries(s, t, f);
    forall g | InMain(t, g) ensures Count(t, g) == |Refs(t, g)| { TookCounted(s, t, f, g); }
    EntriesKeep(s, t);
  }

  // The frame handed out was referred to by nothing, is zeroed and is now held once.
  lemma GetPhyPageKeeps(s: Mem)
    requires Inv(s)
    ensures Inv(GetPhyPage(s).0) && SameEntries(s, GetPhyPage(s).0)
    ensures GetPhyPage(s).1 == 0 ==> GetPhyPage(s).0 == s && forall i :: 0 <= i < |s.counts| ==> s.counts[i] != 0
    ensures GetPhyPage(s).1 != 0 ==> Took(s, GetPhyPage(s).0, GetPhyPage(s).1) && Count(s, GetPhyPage(s).1) == 0
  {
    var (t, f) := GetPhyPage(s);
    if f != 0 {
      TookKeeps(s, t, f);
    }
  }

  lemma TookPages(s: Mem, t: Mem, f: nat)
    requires Inv(s) && Inv(t) && Took(s, t, f) && Count(s, f) == 0
    ensures forall d, k :: Key(d, k) ==> Page(t, d, k) == Page(s, d, k)
  {
    TookKeeps(s, t, f);
  }

  // ---- free_phy_page on a frame that the kernel holds -----------------------------------------

  lemma GaveEntries(s: Mem, f: nat)
    requires Inv(s) && f in s.held
    ensures var t := FreePhyPage(s, f);
      && SameEntries(s, t) && t.dir == s.dir && t.tables == s.tables && t.data == s.data && t.held == s.held - {f}
      && InMain(s, f) && Count(t, f) == 0 && forall g :: InMain(s, g) && g != f ==> Count(t, g) == Count(s, g)
  {
    hide TablesApart, Counted, WritableAlone, SamePlace;
    SameTables(s, FreePhyPage(s, f));
  }

  lemma GaveCounted(s: Mem, f: nat, g: nat)
    requires Inv(s) && f in s.held && InMain(s, g)
    ensures Refs(s, f) == {HeldRef}
    ensures Count(FreePhyPage(s, f), g) == |Refs(FreePhyPage(s, f), g)|
  {
    hide TablesApart, WritableAlone, SamePlace, FreePhyPage;
    GaveEntries(s, f);
    OnlyRef(s, f, HeldRef);
    var t := FreePhyPage(s, f);
    var gone := if g == f then {HeldRef} else {};
    forall x ensures x in Refs(t, g) <==> x in Refs(s, g) - gone {
      assert x in Refs(t, g) <==> Points(t, x, g);
      assert x in Refs(s, g) <==> Points(s, x, g);
    }
    assert Refs(t, g) == Refs(s, g) - gone;
  }

  // Nothing else refers to such a frame, so that giving it back keeps the invariant and every entry.
  lemma GaveKeeps(s: Mem, f: nat)
    requires Inv(s) && f in s.held
    ensures Inv(FreePhyPage(s, f)) && SameEntries(s, FreePhyPage(s, f))
  {
    hide FreePhyPage;
    GaveEntries(s, f);
    var t := FreePhyPage(s, f);
    forall g | InMain(t, g) ensures Count(t, g) == |Refs(t, g)| { GaveCounted(s, f, g); }
    GaveApart(s, t, f);
  }

  lemma GaveApart(s: Mem, t: Mem, f: nat)
    requires Inv(s) && f in s.held && Shaped(t) && SameEntries(s, t) && t.dir == s.dir && t.held == s.held - {f}
    requires forall g :: InMain(s, g) && g != f ==> Count(t, g) == Count(s, g)
    ensures TablesApart(t) && WritableAlone(t) && SamePlace(t) && HeldOnce(t)
  {
    hide Counted;
    forall d | User(d) && s.dir[d].present ensures s.dir[d].frame != f { HeldAlone(s, f, DirRef(d)); }
    forall d, k | User(d) && 0 <= k < SLOTS && Entry(s, d, k).present ensures Entry(s, d, k).frame != f {
      HeldAlone(s, f, PteRef(d, k));
    }
  }

  lemma HeldAlone(s: Mem, f: nat, r: Ref)
    requires Inv(s) && f in s.held && r != HeldRef
    ensures !Points(s, r, f)
  {
    hide TablesApart, WritableAlone, SamePlace;
    OnlyRef(s, f, HeldRef);
    assert r in Refs(s, f) <==> Points(s, r, f);
  }

  // ---- a table enters or leaves the directory ------------------------------------------------

  lemma InstallTableRefs(s: Mem, t: Mem, d: nat, f: nat, g: nat)
    requires Shaped(s) && Shaped(t) && SameEntries(s, t) && User(d) && !s.dir[d].present
    requires t.dir == s.dir[d := Pte(f, true, true)] && t.held == s.held - {f}
    ensures g != f ==> Refs(t, g) == Refs(s, g)
    ensures g == f && Refs(s, f) == {HeldRef} ==> Refs(t, g) == {DirRef(d)}
  {
    forall x ensures x in Refs(t, g) <==> (x in Refs(s, g) && !(g == f && x == HeldRef)) || (g == f && x == DirRef(d)) {
      assert x in Refs(t, g) <==> Points(t, x, g);
      assert x in Refs(s, g) <==> Points(s, x, g);
    }
  }

  lemma InstallTableEntries(s: Mem, d: nat, f: nat)
    requires Shaped(s) && User(d) && !s.dir[d].present && f < |s.tables| && s.tables[f] == EmptyTable()
    ensures SameEntries(s, InstallTable(s, d, f))
  {
  }

  lemma InstallTableApart(s: Mem, t: Mem, d: nat, f: nat)
    requires Shaped(s) && Shaped(t) && SameEntries(s, t) && TablesApart(s) && User(d) && !s.dir[d].present
    requires t.dir == s.dir[d := Pte(f, true, true)] && t.counts == s.counts
    requires InMain(s, f) && Count(s, f) == 1 && Refs(s, f) == {HeldRef}
    ensures TablesApart(t)
  {
    forall c | User(c) && s.dir[c].present ensures s.dir[c].frame != f { assert DirRef(c) !in Refs(s, f); }
  }

  lemma InstallTableCounted(s: Mem, t: Mem, d: nat, f: nat)
    requires Shaped(s) && Shaped(t) && SameEntries(s, t) && User(d) && !s.dir[d].present && Counted(s)
    requires t.dir == s.dir[d := Pte(f, true, true)] && t.held == s.held - {f} && t.counts == s.counts
    requires InMain(s, f) && Refs(s, f) == {HeldRef}
    ensures Counted(t)
  {
    forall g | InMain(t, g) ensures Count(t, g) == |Refs(t, g)| {
      InstallTableRefs(s, t, d, f, g);
      assert Count(s, g) == |Refs(s, g)|;
    }
  }

  lemma InstallTableKeeps(s: Mem, d: nat, f: nat)
    requires Inv(s) && User(d) && !s.dir[d].present && f in s.held && s.tables[f] == EmptyTable()
    ensures Inv(InstallTable(s, d, f)) && SameEntries(s, InstallTable(s, d, f))
  {
    hide TablesApart, Counted, WritableAlone, SamePlace;
    var t := InstallTable(s, d, f);
    OnlyRef(s, f, HeldRef);
    InstallTableEntries(s, d, f);
    InstallTableApart(s, t, d, f);
    InstallTableCounted(s, t, d, f);
    EntriesKeep(s, t);
  }

  lemma DropTableCounted(s: Mem, t: Mem, d: nat, g: nat)
    requires Shaped(s) && Shaped(t) && t.start == s.start && |t.counts| == |s.counts| && t.held == s.held
    requires InMain(s, g)
    requires User(d) && s.dir[d].present && t.dir == s.dir[d := NO_PTE]
    requires forall k :: 0 <= k < SLOTS ==> !Entry(s, d, k).present
    requires forall c, j :: 0 <= c < SLOTS && 0 <= j < SLOTS && c != d ==> Entry(t, c, j) == Entry(s, c, j)
    requires Count(s, g) == |Refs(s, g)| && Count(t, g) == Count(s, g) - One(s.dir[d].frame == g)
    ensures Count(t, g) == |Refs(t, g)|
  {
    forall x ensures x in Refs(t, g) <==> x in Refs(s, g) - {DirRef(d)} {
      assert x in Refs(t, g) <==> Points(t, x, g);
      assert x in Refs(s, g) <==> Points(s, x, g);
    }
    assert Refs(t, g) == Refs(s, g) - {DirRef(d)};
    assert DirRef(d) in Refs(s, g) <==> s.dir[d].frame == g;
  }

  // t is s without the table of slot d.
  ghost predicate SlotGone(s: Mem, t: Mem, d: nat)
    requires Shaped(s) && Shaped(t) && d < SLOTS
  {
    && t.start == s.start && |t.counts| == |s.counts| && t.held == s.held && t.data == s.data
    && t.dir == s.dir[d := NO_PTE]
    && forall c, j :: 0 <= c < SLOTS && 0 <= j < SLOTS && c != d ==> Entry(t, c, j) == Entry(s, c, j)
  }

  lemma DropTableKeeps(s: Mem, d: nat)
    requires Inv(s) && User(d) && s.dir[d].present
    requires forall k :: 0 <= k < SLOTS ==> !Entry(s, d, k).present
    ensures Inv(DropTable(s, d)) && SlotGone(s, DropTable(s, d), d)
  {
    hide WritableAlone, SamePlace, HeldOnce;
    var t := DropTable(s, d);
    var f := s.dir[d].frame;
    OnlyRef(s, f, DirRef(d));
    assert HeldRef !in Refs(s, f);
    forall g | InMain(t, g) ensures Count(t, g) == |Refs(t, g)| { DropTableCounted(s, t, d, g); }
    DropTableWritable(s, t, d);
    DropTableRest(s, t, d);
  }

  lemma DropTableRest(s: Mem, t: Mem, d: nat)
    requires Inv(s) && User(d) && s.dir[d].present && Shaped(t) && SlotGone(s, t, d) && s.dir[d].frame !in s.held
    requires forall g :: InMain(s, g) && g != s.dir[d].frame ==> Count(t, g) == Count(s, g)
    ensures TablesApart(t) && SamePlace(t) && HeldOnce(t)
  {
  }

  lemma DropTableWritable(s: Mem, t: Mem, d: nat)
    requires Inv(s) && User(d) && s.dir[d].present && Shaped(t) && SlotGone(s, t, d)
    requires forall g :: InMain(s, g) && g != s.dir[d].frame ==> Count(t, g) == Count(s, g)
    ensures WritableAlone(t)
  {
    forall c, j | User(c) && 0 <= j < SLOTS && Entry(t, c, j).present
      ensures Entry(t, c, j).frame < |t.tables|
      ensures Entry(t, c, j).writable ==> InMain(t, Entry(t, c, j).frame) && Count(t, Entry(t, c, j).frame) == 1 {
      assert c != d;
      assert Entry(t, c, j) == Entry(s, c, j);
      TablesAreNotMapped(s, d, c, j);
    }
  }
}
