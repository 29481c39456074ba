// map_page and get_empty_page.
module PagingMap {
  import opened Base
  import opened PagingModel
  import opened PagingInvariant
  import opened PagingSteps
  import opened PagingTables
  import opened PagingWrites

  // Entry (d, k) taken over by frame f, which the kernel held.
  function Enter(s: Mem, d: nat, k: nat, f: nat): (r: Mem)
    requires Shaped(s) && d < SLOTS && k < SLOTS && s.dir[d].present
    ensures Shaped(r)
  {
    SetEntry(s, d, k, Pte(f, true, true)).(held := s.held - {f})
  }

  lemma EnterEffect(s: Mem, d: nat, k: nat, f: nat)
    requires Shaped(s) && TablesApart(s) && User(d) && k < SLOTS && s.dir[d].present
    ensures OneEntry(s, Enter(s, d, k, f), d, k, Pte(f, true, true), f)
    ensures Enter(s, d, k, f).data == s.data && Enter(s, d, k, f).counts == s.counts
  {
    SetEntryEffect(s, d, k, Pte(f, true, true));
    SameTables(Enter(s, d, k, f), SetEntry(s, d, k, Pte(f, true, true)));
  }

  lemma EnterKeeps(s: Mem, d: nat, k: nat, f: nat)
    requires Inv(s) && User(d) && k < SLOTS && s.dir[d].present && f in s.held
    requires !(Entry(s, d, k).present && InMain(s, Entry(s, d, k).frame))
    ensures Inv(Enter(s, d, k, f)) && OnlyPage(s, Enter(s, d, k, f), d, k, Some(s.data[f]))
  {
    hide Counted, WritableAlone, SamePlace;
    EnterEffect(s, d, k, f);
    HeldFrameFree(s, f);
    OneEntryKeeps(s, Enter(s, d, k, f), d, k, Pte(f, true, true), f);
  }

  lemma ReplacedRef(s: Mem, t: Mem, d: nat, k: nat, e: Pte, h: nat, o: nat)
    requires Shaped(s) && Shaped(t) && User(d) && k < SLOTS && OneEntry(s, t, d, k, e, h)
    requires Shows(Entry(s, d, k), o) && !Shows(e, o) && h != o
    ensures |Refs(s, o)| == |Refs(t, o)| + 1
  {
    OneEntryRefs(s, t, d, k, e, h, o);
    assert PteRef(d, k) in Refs(s, o);
  }

  // Mapping over a present page forgets a reference: its count stays one too high for ever.
  lemma EnterLeaks(s: Mem, d: nat, k: nat, f: nat)
    requires Inv(s) && User(d) && k < SLOTS && s.dir[d].present && f in s.held
    requires Entry(s, d, k).present && InMain(s, Entry(s, d, k).frame)
    ensures !Inv(Enter(s, d, k, f))
    ensures Count(Enter(s, d, k, f), Entry(s, d, k).frame) == |Refs(Enter(s, d, k, f), Entry(s, d, k).frame)| + 1
  {
    hide TablesApart, WritableAlone, SamePlace, HeldOnce, Enter;
    EnterEffect(s, d, k, f);
    MappedIsCounted(s, d, k);
    ReplacedRef(s, Enter(s, d, k, f), d, k, Pte(f, true, true), f, Entry(s, d, k).frame);
  }

  // map_page with a frame the kernel holds: how it ends, and exactly when it keeps the invariant.
  lemma MapPageExact(s: Mem, f: nat, d: nat, k: nat)
    requires Inv(s) && f in s.held && User(d) && k < SLOTS
    ensures MapPage(s, f, d, k).1 == 0 <==> !s.dir[d].present && 0 !in s.counts
    ensures MapPage(s, f, d, k).1 == 0 ==> MapPage(s, f, d, k).0 == s
    ensures MapPage(s, f, d, k).1 != 0 ==>
      (Inv(MapPage(s, f, d, k).0) <==> !(Entry(s, d, k).present && InMain(s, Entry(s, d, k).frame)))
    ensures Inv(MapPage(s, f, d, k).0) && MapPage(s, f, d, k).1 != 0 ==>
      OnlyPage(s, MapPage(s, f, d, k).0, d, k, Some(s.data[f]))
  {
    hide TablesApart, Counted, WritableAlone, SamePlace;
    if s.dir[d].present {
      assert MapPage(s, f, d, k).0 == Enter(s, d, k, f);
      if Entry(s, d, k).present && InMain(s, Entry(s, d, k).frame) {
        EnterLeaks(s, d, k, f);
      } else {
        EnterKeeps(s, d, k, f);
      }
    } else {
      MapNewTable(s, f, d, k);
    }
  }

  lemma MapNewTable(s: Mem, f: nat, d: nat, k: nat)
    requires Inv(s) && f in s.held && User(d) && k < SLOTS && !s.dir[d].present
    ensures MapPage(s, f, d, k).1 == 0 <==> 0 !in s.counts
    ensures MapPage(s, f, d, k).1 == 0 ==> MapPage(s, f, d, k).0 == s
    ensures MapPage(s, f, d, k).1 != 0 ==>
      Inv(MapPage(s, f, d, k).0) && OnlyPage(s, MapPage(s, f, d, k).0, d, k, Some(s.data[f]))
  {
    hide TablesApart, Counted, WritableAlone, SamePlace;
    GetPhyPageKeeps(s);
    var (t, g) := GetPhyPage(s);
    if g != 0 {
      assert s.counts[g - s.start] == 0;
      TookKeeps(s, t, g);
      TookPages(s, t, g);
      InstallTableKeeps(t, d, g);
      var u := InstallTable(t, d, g);
      assert MapPage(s, f, d, k).0 == Enter(u, d, k, f);
      assert u.data[f] == s.data[f];
      EnterKeeps(u, d, k, f);
    }
  }

  // get_empty_page at an unmapped address: a fresh page of zeros, or no change at all.
  lemma GetEmptyPageKeeps(s: Mem, d: nat, k: nat)
    requires Inv(s) && User(d) && k < SLOTS && !Entry(s, d, k).present
    ensures Inv(GetEmptyPage(s, d, k).0)
    ensures GetEmptyPage(s, d, k).1 ==> OnlyPage(s, GetEmptyPage(s, d, k).0, d, k, Some(Zeros()))
    ensures !GetEmptyPage(s, d, k).1 ==>
      var t := GetEmptyPage(s, d, k).0;
      t.counts == s.counts && t.held == s.held && t.dir == s.dir && OnlyPage(s, t, d, k, None)
  {
    hide TablesApart, Counted, WritableAlone, SamePlace, MapPage;
    GetPhyPageKeeps(s);
    var (t, f) := GetPhyPage(s);
    if f != 0 {
      TookKeeps(s, t, f);
      TookPages(s, t, f);
      MapPageExact(t, f, d, k);
      if MapPage(t, f, d, k).1 == 0 {
        GiveBack(s, t, f);
        SamePages(t, FreePhyPage(t, f));
      }
    }
  }

  lemma GiveBack(s: Mem, t: Mem, f: nat)
    requires Inv(s) && Shaped(t) && Took(s, t, f) && Count(s, f) == 0 && SameEntries(s, t) && f !in s.held
    ensures var u := FreePhyPage(t, f);
      Inv(u) && u.counts == s.counts && u.held == s.held && u.dir == s.dir && SameEntries(s, u)
      && u.data == t.data && u.tables == t.tables
  {
    hide TablesApart, Counted, WritableAlone, SamePlace;
    var u := FreePhyPage(t, f);
    assert u.counts == s.counts;
    assert u.held == s.held;
    SameTables(t, u);
    SameRefsKeep(s, u);
  }

  lemma SamePages(t: Mem, u: Mem)
    requires Shaped(t) && Shaped(u) && u.data == t.data && u.tables == t.tables && u.dir == t.dir
    ensures forall d, k :: Key(d, k) ==> Page(u, d, k) == Page(t, d, k)
  {
  }
}
