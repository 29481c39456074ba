// ib_map and ib_map_new through the cache.
module FilesSeenMap {
  import opened Base
  import F = FilesModel
  import I = FilesInvariant
  import P = FilesMap
  import C = CacheModel
  import K = CacheProofs
  import opened FilesCached
  import opened FilesSeen

  predicate OfZone(m: Mounted, k: Option<C.Key>) {
    k.Some? && k.value.dev == m.dev && m.first <= k.value.block < m.nblocks
  }

  // One more reference to the buffer of a block of the zone does not make its count wrap. CacheRuns.WrappedIsTaken
  // shows what it would do.
  predicate Room(m: Mounted) {
    && C.Shaped(m.cache)
    && forall i :: 0 <= i < |m.cache.bufs| && OfZone(m, m.cache.bufs[i].key) ==>
         m.cache.bufs[i].count < C.COUNT_LIMIT - 1
  }

  // Nor do two.
  predicate Low(m: Mounted) {
    && C.Shaped(m.cache)
    && forall i :: 0 <= i < |m.cache.bufs| && OfZone(m, m.cache.bufs[i].key) ==>
         m.cache.bufs[i].count < C.COUNT_LIMIT - 2
  }

  lemma LowRoom(m: Mounted)
    requires Low(m)
    ensures Room(m)
  {
  }

  ghost predicate Ready(m: Mounted) { Fit(m) && K.Inv(m.cache) && Room(m) }

  // What every call that runs to its end leaves: as many references as before, and held buffers where they were.
  ghost predicate Fine(m: Mounted, n: Mounted) {
    && Fit(m) && Kin(m, n) && K.Inv(n.cache) && n.cache.refs == m.cache.refs
    && forall i :: 0 <= i < |m.cache.bufs| && m.cache.bufs[i].count != 0 ==> n.cache.bufs[i].key == m.cache.bufs[i].key
  }

  lemma FineSelf(m: Mounted)
    requires Ready(m)
    ensures Fine(m, m)
  {
  }

  lemma FineThen(m: Mounted, n: Mounted, o: Mounted)
    requires K.Inv(m.cache) && Fine(m, n) && Fine(n, o)
    ensures Fine(m, o)
  {
    hide K.Inv, Fit;
    K.InvShaped(m.cache);
    K.InvShaped(n.cache);
  }

  lemma FineReady(m: Mounted, n: Mounted)
    requires Ready(m) && Fine(m, n)
    ensures Ready(n)
  {
    hide K.Inv;
    K.InvShaped(m.cache);
    K.InvShaped(n.cache);
  }

  lemma KeptFine(m: Mounted, n: Mounted)
    requires Fit(m) && Kin(m, n) && Kept(m.cache, n.cache) && n.cache.refs == m.cache.refs
    ensures Fine(m, n)
  {
    hide K.Inv;
  }

  // ---- buffers of used blocks ----------------------------------------------------------------

  lemma ReadSeen(m: Mounted, b: nat, ok: bool)
    requires Fit(m) && K.Inv(m.cache) && Room(m) && m.first <= b < m.nblocks
    ensures var (d, g) := C.Bread(m.cache, At(m, b), ok);
      var n := m.(cache := d);
      && Fit(n) && K.Inv(d) && Kept(m.cache, d) && Seen(n) == Seen(m) && !g.Halted?
      && (g.Failed? ==> !ok && Fine(m, n))
      && (g.Buffer? ==> d.refs == m.cache.refs[g.i := m.cache.refs[g.i] + 1] && d.bufs[g.i].key == Some(At(m, b)))
      && (g.Buffer? ==> d.bufs[g.i].uptodate && d.bufs[g.i].count != 0)
      && (g.Buffer? && !Unused(m, b) ==> d.bufs[g.i].data == Seen(m).disk[b])
  {
    hide K.Inv, C.Logical, K.HeldStay, C.Bread, C.Find, C.FirstIdle;
    ReadBuffer(m.cache, At(m, b), ok);
    K.BreadKeeps(m.cache, At(m, b), ok, At(m, b));
    var (d, g) := C.Bread(m.cache, At(m, b), ok);
    var n := m.(cache := d);
    SeenSame(m, n);
    if g.Failed? { KeptFine(m, n); }
    K.InvShaped(m.cache);
    if g.Buffer? {
      K.InvShaped(d);
      StayedOrIdle(m, d, g.i, b);
    }
    SeenBlock(m, b);
  }

  // The buffer handed out was the block's, or idle.
  lemma StayedOrIdle(m: Mounted, d: C.Cache, i: nat, b: nat)
    requires Fit(m) && Room(m) && m.first <= b < m.nblocks && K.HeldStay(m.cache, d)
    requires i < |d.bufs| && d.bufs[i].key == Some(At(m, b))
    ensures m.cache.bufs[i].count < C.COUNT_LIMIT - 1
  {
  }

  // Nothing but the data of the buffer of a used block changes.
  lemma StoreSeen(m: Mounted, j: nat, b: nat, data: Block)
    requires Fit(m) && K.Inv(m.cache) && j < |m.cache.bufs| && m.cache.bufs[j].key == Some(At(m, b))
    requires b < m.nblocks && !Unused(m, b)
    ensures var n := m.(cache := C.Store(m.cache, j, data));
      && Fit(n) && K.Inv(n.cache) && n.cache.refs == m.cache.refs && Fine(m, n)
      && Seen(n) == Seen(m).(disk := Seen(m).disk[b := data])
  {
    hide K.Inv, C.Logical;
    var n := m.(cache := C.Store(m.cache, j, data));
    forall l: C.Key
      ensures C.Logical(n.cache, l) == if l == At(m, b) then data else C.Logical(m.cache, l)
    {
      K.StoreKeeps(m.cache, j, data, l);
    }
    K.StoreKeeps(m.cache, j, data, At(m, b));
    var t := Seen(m).disk[b := data];
    forall c | 0 <= c < m.nblocks ensures Shown(n, c) == t[c] { SeenBlock(m, c); }
    assert Seen(n).disk == t;
  }

  // The data of a valid buffer of a used block.
  lemma BufferSeen(m: Mounted, j: nat, b: nat)
    requires Fit(m) && K.Inv(m.cache) && j < |m.cache.bufs| && m.cache.bufs[j].key == Some(At(m, b))
    requires m.cache.bufs[j].uptodate && b < m.nblocks && !Unused(m, b)
    ensures Seen(m).disk[b] == m.cache.bufs[j].data
  {
    hide K.Inv, C.Logical;
    K.LogicalIs(m.cache, At(m, b));
    SeenBlock(m, b);
  }

  // The buffer that was read for the call goes back.
  lemma ReleasedSeen(m: Mounted, r: Out, j: nat)
    requires Fit(m) && C.Shaped(m.cache) && j < |m.cache.bufs| && Kin(m, r.m) && K.Inv(r.m.cache)
    requires r.m.cache.refs == m.cache.refs[j := m.cache.refs[j] + 1]
    requires forall i :: 0 <= i < |m.cache.bufs| && m.cache.bufs[i].count != 0 ==>
      r.m.cache.bufs[i].key == m.cache.bufs[i].key
    ensures var o := Released(r, j);
      && (o.end.Ran? ==> r.end.Ran? && Fine(m, o.m) && Seen(o.m) == Seen(r.m) && o.b == r.b && o.bad == r.bad)
  {
    hide K.Inv, C.Logical, C.Brelease, K.HeldStay;
    GiveBack(r.m.cache, j);
    var d := C.Brelease(r.m.cache, j);
    if r.end.Ran? && d.Some? {
      assert m.cache.refs[j := m.cache.refs[j] + 1][j := m.cache.refs[j]] == m.cache.refs;
      SeenSame(r.m, r.m.(cache := d.value));
      KeysAfterRelease(r.m.cache, j);
    }
  }

  lemma KeysAfterRelease(c: C.Cache, j: nat)
    requires C.Shaped(c) && j < |c.bufs| && C.Brelease(c, j).Some?
    ensures forall i :: 0 <= i < |c.bufs| ==> C.Brelease(c, j).value.bufs[i].key == c.bufs[i].key
  {
  }

  // ---- slots ---------------------------------------------------------------------------------

  lemma PointerSlotSeen(m: Mounted, f: nat, i: nat, create: bool)
    requires Ready(m) && f < |m.inodes| && i < 9
    ensures var r := PointerSlot(m, f, i, create);
      r.end.Ran? ==> (Seen(r.m), r.b) == P.TakeIf(Seen(m), P.InInode(f, i), create) && Fine(m, r.m) && r.bad == {}
  {
    hide K.Inv, NewBlock, F.NewBlock;
    var s := Seen(m);
    NewBlockSeen(m);
    FineSelf(m);
    var r := NewBlock(m);
    I.NewBlockExact(s);
    if create && m.inodes[f].data[i] == 0 && r.end.Ran? {
      var (t, b) := F.NewBlock(s);
      KeptFine(m, r.m);
      var n := r.m.(inodes := r.m.inodes[f := r.m.inodes[f].(data := r.m.inodes[f].data[i := r.b])]);
      OnlyInodes(r.m, n);
      if b == 0 {
        assert m.inodes[f].data[i := 0] == m.inodes[f].data;
        assert n.inodes == m.inodes;
      }
    }
  }

  lemma OnlyInodes(m: Mounted, n: Mounted)
    requires Fit(m) && n == m.(inodes := n.inodes)
    ensures Fit(n) && Seen(n) == Seen(m).(inodes := n.inodes)
  {
    assert forall b :: 0 <= b < m.nblocks ==> Shown(n, b) == Shown(m, b);
    assert Seen(n).disk == Seen(m).disk;
  }

  predicate InIndex(x: F.Slot) { x.SingleEntry? || x.DoubleIndex? || x.DoubleEntry? }

  // The block of an index slot is in use.
  lemma HolderUsed(m: Mounted, x: F.Slot)
    requires Fit(m) && I.Safe(Seen(m)) && F.Placed(Seen(m), x) && InIndex(x)
    ensures var c := F.Val(Seen(m), I.Holder(x));
      && 0 < c < m.nblocks && m.first <= c && !Unused(m, c) && I.Index(x) < F.WORDS
      && F.Val(Seen(m), x) == F.U16At(Seen(m).disk[c], I.Index(x))
  {
    hide I.Safe, F.Val, F.Placed;
    HolderZone(Seen(m), x);
    assert F.Bit(Seen(m), F.Val(Seen(m), I.Holder(x)));
  }

  lemma HolderZone(s: F.FS, x: F.Slot)
    requires I.Safe(s) && F.Placed(s, x) && InIndex(x)
    ensures var c := F.Val(s, I.Holder(x));
      && F.Shaped(s) && F.InZone(s, c) && F.Bit(s, c) && I.Index(x) < F.WORDS
      && F.Val(s, x) == F.U16At(s.disk[c], I.Index(x))
  {
    hide I.Safe;
    I.SafeMeans(s);
    assert F.Val(s, I.Holder(x)) != 0;
  }

  // The buffer of an index block, held.
  ghost predicate HasIndex(m: Mounted, j: nat, x: F.Slot) {
    && Fit(m) && K.Inv(m.cache) && I.Safe(Seen(m)) && F.Placed(Seen(m), x) && InIndex(x) && j < |m.cache.bufs|
    && m.cache.bufs[j].key == Some(At(m, F.Val(Seen(m), I.Holder(x))))
    && m.cache.bufs[j].uptodate && m.cache.bufs[j].count != 0
  }

  lemma WordSlotSeen(m: Mounted, j: nat, x: F.Slot, create: bool)
    requires HasIndex(m, j, x)
    ensures I.Index(x) < F.WORDS
    ensures var r := WordSlot(m, j, I.Index(x), create);
      r.end.Ran? ==> (Seen(r.m), r.b) == P.TakeIf(Seen(m), x, create) && Fine(m, r.m) && r.bad == {}
  {
    hide K.Inv, NewBlock, F.NewBlock, I.Safe, F.Val, F.Placed, C.Store;
    var s, i := Seen(m), I.Index(x);
    var c := F.Val(s, I.Holder(x));
    HolderUsed(m, x);
    BufferSeen(m, j, c);
    NewBlockSeen(m);
    SelfKept(m.cache);
    KeptFine(m, m);
    var r := NewBlock(m);
    if create && F.Val(s, x) == 0 && r.end.Ran? {
      KeptFine(m, r.m);
      I.NewBlockExact(s);
      P.HolderStays(s, x);
      if r.b != 0 { WordStored(m, r.m, j, x, r.b); }
    }
  }

  lemma WordStored(m: Mounted, n: Mounted, j: nat, x: F.Slot, b: nat)
    requires HasIndex(m, j, x) && Fine(m, n) && Kept(m.cache, n.cache) && 0 < b < F.MAX_BLOCKS
    requires (Seen(n), b) == F.NewBlock(Seen(m)) && F.Placed(Seen(n), x)
    requires F.Val(Seen(n), I.Holder(x)) == F.Val(Seen(m), I.Holder(x))
    ensures I.Index(x) < F.WORDS
    ensures var o := n.(cache := C.Store(n.cache, j, F.PutU16(n.cache.bufs[j].data, I.Index(x), b)));
      Seen(o) == F.Store(Seen(n), x, b) && Fine(m, o)
  {
    hide K.Inv, F.NewBlock, I.Safe, F.Val, F.Placed, C.Store;
    var c := F.Val(Seen(m), I.Holder(x));
    HolderUsed(m, x);
    I.NewBlockExact(Seen(m));
    assert m.dev == n.dev && n.cache.bufs[j].key == Some(At(n, c)) && n.cache.bufs[j].uptodate;
    assert !Unused(n, c) by { assert F.Bit(Seen(m), c); assert F.Bit(Seen(n), c); }
    BufferSeen(n, j, c);
    var data := F.PutU16(n.cache.bufs[j].data, I.Index(x), b);
    StoreSeen(n, j, c, data);
    StoreIsSetWord(Seen(n), x, b);
    FineThen(m, n, n.(cache := C.Store(n.cache, j, data)));
  }

  lemma StoreIsSetWord(s: F.FS, x: F.Slot, b: nat)
    requires F.Placed(s, x) && InIndex(x) && b < F.MAX_BLOCKS
    ensures I.Index(x) < F.WORDS && F.Val(s, I.Holder(x)) < |s.disk|
    ensures F.Store(s, x, b) == F.SetWord(s, F.Val(s, I.Holder(x)), I.Index(x), b)
  {
  }

  // ---- an index block ------------------------------------------------------------------------

  // Reading the index block above x and taking its word is what the model does with slot x, unless the device does
  // not answer.
  lemma UnderIndexSeen(m: Mounted, x: F.Slot, create: bool, dead: set<nat>)
    requires Ready(m) && I.Safe(Seen(m)) && F.Placed(Seen(m), x) && InIndex(x)
    ensures I.Index(x) < F.WORDS
    ensures var c := F.Val(Seen(m), I.Holder(x));
      var r := UnderIndex(m, c, I.Index(x), create, dead);
      r.end.Ran? ==>
        && Fine(m, r.m) && r.bad <= dead
        && if r.bad == {} then (Seen(r.m), r.b) == P.TakeIf(Seen(m), x, create)
           else r.bad == {c} && Seen(r.m) == Seen(m) && r.b == 0
  {
    hide K.Inv, C.Bread, WordSlot, Released, I.Safe, F.Val, F.Placed, P.TakeIf, K.HeldStay;
    HolderUsed(m, x);
    var c := F.Val(Seen(m), I.Holder(x));
    ReadSeen(m, c, c !in dead);
    var (d, g) := C.Bread(m.cache, At(m, c), c !in dead);
    if g.Buffer? {
      var n := m.(cache := d);
      WordSlotSeen(n, g.i, x, create);
      var w := WordSlot(n, g.i, I.Index(x), create);
      if w.end.Ran? {
        KeysThrough(m, n, w.m, g.i);
        ReleasedSeen(m, w, g.i);
      } else {
        NotRan(w, g.i);
      }
    }
  }

  lemma NotRan(r: Out, j: nat)
    requires Fit(r.m) && j < |r.m.cache.bufs|
    ensures Released(r, j).end.Ran? ==> r.end.Ran?
  {
  }

  lemma KeysThrough(m: Mounted, n: Mounted, o: Mounted, j: nat)
    requires K.Inv(m.cache) && Kept(m.cache, n.cache) && Fine(n, o) && |n.cache.bufs| == |m.cache.bufs|
    requires j < |m.cache.refs| && n.cache.refs == m.cache.refs[j := m.cache.refs[j] + 1] && n.cache.bufs[j].count != 0
    ensures forall i :: 0 <= i < |m.cache.bufs| && m.cache.bufs[i].count != 0 ==>
      o.cache.bufs[i].key == m.cache.bufs[i].key
  {
    hide K.Inv;
    K.InvShaped(m.cache);
    K.InvShaped(n.cache);
  }

  // ---- ib_map_helper -------------------------------------------------------------------------

  lemma TakeIfKeeps(s: F.FS, x: F.Slot, create: bool)
    requires I.Safe(s) && F.Shaped(s) && F.Placed(s, x)
    ensures var (t, b) := P.TakeIf(s, x, create); I.Safe(t) && (create ==> P.Took(s, t, x, b))
  {
    hide I.Safe, F.Val, F.Placed, P.Took, F.Take, I.Sound;
    if create { P.TakeKeeps(s, x); }
  }

  // The pair that ib_map or ib_map_new of the model gives for a leaf in the single index block,
  function SingleOf(s: F.FS, f: nat, i: nat, create: bool, bad: set<nat>): (F.FS, nat)
    requires F.Shaped(s)
  {
    if create then F.NewInSingle(s, f, i, bad)
    else (s, if F.Readable(s, F.SingleEntry(f, i), bad) then F.Val(s, F.SingleEntry(f, i)) else 0)
  }

  // and in the double one.
  function DoubleOf(s: F.FS, f: nat, i: nat, j: nat, create: bool, bad: set<nat>): (F.FS, nat)
    requires F.Shaped(s)
  {
    if create then F.NewInDouble(s, f, i, j, bad)
    else (s, if F.Readable(s, F.DoubleEntry(f, i, j), bad) then F.Val(s, F.DoubleEntry(f, i, j)) else 0)
  }

  lemma SingleOfSteps(s: F.FS, f: nat, i: nat, create: bool, bad: set<nat>)
    requires F.Shaped(s)
    ensures var (t, c) := P.TakeIf(s, F.Single(f), create);
      && F.Shaped(t)
      && (c == 0 || c in bad ==> SingleOf(s, f, i, create, bad) == (t, 0))
      && (c != 0 && c !in bad ==> SingleOf(s, f, i, create, bad) == P.TakeIf(t, F.SingleEntry(f, i), create))
  {
    hide F.Take;
  }

  lemma DoubleOfSteps(s: F.FS, f: nat, i: nat, j: nat, create: bool, bad: set<nat>)
    requires F.Shaped(s)
    ensures var (t, c) := P.TakeIf(s, F.Double(f), create);
      && F.Shaped(t)
      && (c == 0 || c in bad ==> DoubleOf(s, f, i, j, create, bad) == (t, 0))
      && (c != 0 && c !in bad ==>
           var (u, e) := P.TakeIf(t, F.DoubleIndex(f, i), create);
           && F.Shaped(u)
           && (e == 0 || e in bad ==> DoubleOf(s, f, i, j, create, bad) == (u, 0))
           && (e != 0 && e !in bad ==>
                DoubleOf(s, f, i, j, create, bad) == P.TakeIf(u, F.DoubleEntry(f, i, j), create)))
  {
    hide F.Take;
  }

  lemma InSingleSeen(m: Mounted, f: nat, i: nat, create: bool, dead: set<nat>)
    requires Ready(m) && I.Safe(Seen(m)) && f < |m.inodes| && i < F.WORDS
    ensures var r := InSingle(m, f, i, create, dead);
      r.end.Ran? ==>
        && Fine(m, r.m) && r.bad <= dead && (Seen(r.m), r.b) == SingleOf(Seen(m), f, i, create, r.bad)
        && (r.b != 0 ==> r.bad == {})
  {
    hide K.Inv, I.Safe, I.Sound, F.Val, P.TakeIf, P.Took, PointerSlot, UnderIndex, SingleOf, Room;
    var s := Seen(m);
    PointerSlotSeen(m, f, F.INDEX_LEVEL1, create);
    assert F.Placed(s, F.Single(f));
    hide F.Placed;
    TakeIfKeeps(s, F.Single(f), create);
    var p := PointerSlot(m, f, F.INDEX_LEVEL1, create);
    if p.end.Ran? && p.b == 0 {
      SingleOfSteps(s, f, i, create, {});
    } else if p.end.Ran? {
      FineReady(m, p.m);
      P.PlacedBelow(s, Seen(p.m), F.Single(f), p.b, create, F.SingleEntry(f, i));
      UnderIndexSeen(p.m, F.SingleEntry(f, i), create, dead);
      var r := UnderIndex(p.m, p.b, i, create, dead);
      if r.end.Ran? {
        SingleOfSteps(s, f, i, create, r.bad);
        FineThen(m, p.m, r.m);
      }
    }
  }

  lemma InDoubleSeen(m: Mounted, f: nat, i: nat, j: nat, create: bool, dead: set<nat>)
    requires Ready(m) && I.Safe(Seen(m)) && f < |m.inodes| && i < F.WORDS && j < F.WORDS
    ensures var r := InDouble(m, f, i, j, create, dead);
      r.end.Ran? ==>
        && Fine(m, r.m) && r.bad <= dead && (Seen(r.m), r.b) == DoubleOf(Seen(m), f, i, j, create, r.bad)
        && (r.b != 0 ==> r.bad == {})
  {
    hide K.Inv, I.Safe, I.Sound, F.Val, P.TakeIf, P.Took, PointerSlot, UnderIndex, DoubleOf, Room;
    var s := Seen(m);
    PointerSlotSeen(m, f, F.INDEX_LEVEL2, create);
    assert F.Placed(s, F.Double(f));
    hide F.Placed;
    TakeIfKeeps(s, F.Double(f), create);
    var p := PointerSlot(m, f, F.INDEX_LEVEL2, create);
    if p.end.Ran? && p.b == 0 {
      DoubleOfSteps(s, f, i, j, create, {});
    } else if p.end.Ran? {
      FineReady(m, p.m);
      P.PlacedBelow(s, Seen(p.m), F.Double(f), p.b, create, F.DoubleIndex(f, i));
      DoubleBelowSeen(m, p.m, f, i, j, p.b, create, dead);
    }
  }

  // With the double index block c there.
  lemma DoubleBelowSeen(m: Mounted, p: Mounted, f: nat, i: nat, j: nat, c: nat, create: bool, dead: set<nat>)
    requires Ready(m) && I.Safe(Seen(m)) && i < F.WORDS && j < F.WORDS && f < |p.inodes| && c != 0
    requires Ready(p) && Fine(m, p) && I.Safe(Seen(p)) && (Seen(p), c) == P.TakeIf(Seen(m), F.Double(f), create)
    requires F.Placed(Seen(p), F.DoubleIndex(f, i)) && F.Val(Seen(p), F.Double(f)) == c
    ensures var q := UnderIndex(p, c, i, create, dead);
      var r := if !q.end.Ran? || q.b == 0 then q else UnderIndex(q.m, q.b, j, create, dead);
      r.end.Ran? ==>
        && Fine(m, r.m) && r.bad <= dead && (Seen(r.m), r.b) == DoubleOf(Seen(m), f, i, j, create, r.bad)
        && (r.b != 0 ==> r.bad == {})
  {
    hide K.Inv, I.Safe, I.Sound, F.Val, F.Placed, P.TakeIf, P.Took, UnderIndex, DoubleOf, Room;
    var t := Seen(p);
    UnderIndexSeen(p, F.DoubleIndex(f, i), create, dead);
    var q := UnderIndex(p, c, i, create, dead);
    TakeIfKeeps(t, F.DoubleIndex(f, i), create);
    if q.end.Ran? {
      FineThen(m, p, q.m);
      FineReady(p, q.m);
      DoubleOfSteps(Seen(m), f, i, j, create, q.bad);
      if q.b != 0 {
        P.PlacedBelow(t, Seen(q.m), F.DoubleIndex(f, i), q.b, create, F.DoubleEntry(f, i, j));
        Different(Seen(q.m), F.Double(f), F.DoubleIndex(f, i));
        UnderIndexSeen(q.m, F.DoubleEntry(f, i, j), create, dead);
        var r := UnderIndex(q.m, q.b, j, create, dead);
        if r.end.Ran? {
          FineThen(m, q.m, r.m);
          DoubleOfSteps(Seen(m), f, i, j, create, r.bad);
        }
      }
    }
  }

  lemma Different(s: F.FS, x: F.Slot, y: F.Slot)
    requires I.Safe(s) && x != y && F.Val(s, x) != 0
    ensures F.Val(s, x) != F.Val(s, y)
  {
    hide F.Val;
    I.SafeMeans(s);
  }

  // ib_map and ib_map_new through the cache give what the model gives, with the index blocks that the device did
  // not answer for as the unreadable ones.
  lemma IbMapSeen(m: Mounted, f: nat, n: int, create: bool, dead: set<nat>)
    requires Ready(m) && I.Safe(Seen(m)) && f < |m.inodes|
    ensures var r := IbMapHelper(m, f, n, create, dead);
      r.end.Ran? ==>
        && Fine(m, r.m) && r.bad <= dead && (r.b != 0 ==> r.bad == {})
        && (create ==> (Seen(r.m), r.b) == F.IbMapNew(Seen(m), f, n, r.bad))
        && (!create ==> Seen(r.m) == Seen(m) && r.b == F.IbMap(Seen(m), f, n, r.bad))
  {
    hide K.Inv, I.Safe, F.Val, F.Take, PointerSlot, InSingle, InDouble, F.NewInSingle, F.NewInDouble, Room;
    FineSelf(m);
    if 0 <= n < F.DIRECT {
      PointerSlotSeen(m, f, n, create);
    } else if F.DIRECT <= n < F.DIRECT + F.WORDS {
      InSingleSeen(m, f, n - F.DIRECT, create, dead);
    } else if F.DIRECT + F.WORDS <= n < F.LIMIT {
      var k := n - (F.DIRECT + F.WORDS);
      InDoubleSeen(m, f, k / F.WORDS, k % F.WORDS, create, dead);
    }
  }
}
