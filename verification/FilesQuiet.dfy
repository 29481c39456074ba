// When a call of the file layer runs to its end: nobody else holds a block of the data zone, and two buffers are idle.
module FilesQuiet {
  import opened Base
  import F = FilesModel
  import I = FilesInvariant
  import P = FilesMap
  import D = FilesData
  import T = FilesTruncate
  import C = CacheModel
  import K = CacheProofs
  import opened FilesCached
  import opened FilesSeen
  import opened FilesSeenMap
  import opened FilesSeenData
  import opened FilesSeenTruncate

  function Idle(c: C.Cache): set<nat> { set j: nat | j < |c.bufs| && c.bufs[j].count == 0 }

  // Of the buffers of zone blocks those in `mine` are held and no others, and k buffers are idle.
  ghost predicate Quiet(m: Mounted, mine: set<nat>, k: nat) {
    && (forall j :: j in mine ==> j < |m.cache.bufs| && m.cache.bufs[j].count != 0)
    && (forall j :: 0 <= j < |m.cache.bufs| && m.cache.bufs[j].count != 0 && OfZone(m, m.cache.bufs[j].key) ==>
         j in mine)
    && |Idle(m.cache)| >= k
  }

  // Nobody holds a block of the zone, and two buffers are idle.
  ghost predicate Calm(m: Mounted) { Fit(m) && K.Inv(m.cache) && Quiet(m, {}, 2) }

  // Then no count of a buffer of the zone can wrap.
  lemma CalmReady(m: Mounted)
    requires Calm(m)
    ensures Ready(m) && Low(m) && Quiet(m, {}, 2)
  {
    hide K.Inv;
    K.InvShaped(m.cache);
  }

  lemma CalmFine(m: Mounted, n: Mounted)
    requires Calm(m) && Fine(m, n)
    ensures Calm(n) && |n.inodes| == |m.inodes|
  {
    hide K.Inv, Quiet;
    QuietFine(m, n, {}, 2);
  }

  lemma QuietFine(m: Mounted, n: Mounted, mine: set<nat>, k: nat)
    requires K.Inv(m.cache) && Fine(m, n) && Quiet(m, mine, k)
    ensures Quiet(n, mine, k)
  {
    hide K.Inv;
    K.InvShaped(m.cache);
    K.InvShaped(n.cache);
    assert Idle(n.cache) == Idle(m.cache);
  }

  lemma QuietRead(m: Mounted, n: Mounted, j: nat, mine: set<nat>, k: nat)
    requires K.Inv(m.cache) && Kept(m.cache, n.cache) && Quiet(m, mine, k + 1)
    requires n == m.(cache := n.cache) && j < |m.cache.bufs| && n.cache.refs == m.cache.refs[j := m.cache.refs[j] + 1]
    requires n.cache.bufs[j].count != 0
    ensures Quiet(n, mine + {j}, k)
  {
    hide K.Inv, Idle;
    ReadCounts(m.cache, n.cache, j);
    var left := Idle(m.cache) - {j};
    SubsetSize(left, Idle(n.cache));
    assert Idle(m.cache) <= left + {j};
    SubsetSize(Idle(m.cache), left + {j});
  }

  lemma ReadCounts(c: C.Cache, d: C.Cache, j: nat)
    requires K.Inv(c) && K.Inv(d) && j < |c.bufs| == |d.bufs| && d.refs == c.refs[j := c.refs[j] + 1]
    ensures forall i :: 0 <= i < |c.bufs| && i != j ==> d.bufs[i].count == c.bufs[i].count
    ensures Idle(c) - {j} <= Idle(d)
  {
    hide K.Inv;
    K.InvShaped(c);
    K.InvShaped(d);
  }

  lemma SomeIdle(c: C.Cache)
    requires |Idle(c)| >= 1
    ensures C.FirstIdle(c.bufs, 0) < |c.bufs|
  {
    var j :| j in Idle(c);
    assert c.bufs[j].count == 0;
  }

  lemma Less(m: Mounted, mine: set<nat>, k: nat, l: nat)
    requires Quiet(m, mine, k) && l <= k
    ensures Quiet(m, mine, l)
  {
  }

  // ---- ib_map and ib_map_new -----------------------------------------------------------------

  // The buffers in `mine` are of other blocks than b.
  ghost predicate NotMine(m: Mounted, mine: set<nat>, b: nat) {
    forall j :: j in mine && j < |m.cache.bufs| ==> m.cache.bufs[j].key != Some(At(m, b))
  }

  // Nobody holds the buffer of zone block b.
  lemma NotHeld(m: Mounted, mine: set<nat>, b: nat)
    requires Fit(m) && K.Inv(m.cache) && Quiet(m, mine, 0) && NotMine(m, mine, b) && m.first <= b < m.nblocks
    ensures var j := C.Find(m.cache.bufs, At(m, b), 0);
      j < |m.cache.bufs| ==> m.cache.refs[j] % C.COUNT_LIMIT == 0
  {
    hide K.Inv;
    K.InvShaped(m.cache);
  }

  lemma NewBlockRuns(m: Mounted, mine: set<nat>)
    requires Fit(m) && K.Inv(m.cache) && Quiet(m, mine, 1)
    requires F.NewBlock(Seen(m)).1 != 0 ==> NotMine(m, mine, F.NewBlock(Seen(m)).1)
    ensures NewBlock(m).end.Ran?
  {
    hide K.Inv, NewBlock, F.NewBlock, C.Find, C.FirstIdle, NotMine;
    NewBlockSeen(m);
    SomeIdle(m.cache);
    I.NewBlockExact(Seen(m));
    var b := F.NewBlock(Seen(m)).1;
    if b != 0 {
      assert F.InZone(Seen(m), b);
      NotHeld(m, mine, b);
    }
  }

  lemma NothingMine(m: Mounted, b: nat)
    ensures NotMine(m, {}, b)
  {
  }

  lemma PointerSlotRuns(m: Mounted, f: nat, i: nat, create: bool)
    requires Ready(m) && f < |m.inodes| && i < 9 && Quiet(m, {}, 1)
    ensures PointerSlot(m, f, i, create).end.Ran?
  {
    hide K.Inv, NewBlock, Quiet;
    NothingMine(m, F.NewBlock(Seen(m)).1);
    NewBlockRuns(m, {});
  }

  lemma WordSlotRuns(m: Mounted, j: nat, x: F.Slot, create: bool)
    requires HasIndex(m, j, x) && Quiet(m, {j}, 1)
    ensures I.Index(x) < F.WORDS && WordSlot(m, j, I.Index(x), create).end.Ran?
  {
    hide K.Inv, NewBlock, F.NewBlock, Quiet, I.Safe, F.Val, F.Placed;
    HolderUsed(m, x);
    I.NewBlockExact(Seen(m));
    assert F.Bit(Seen(m), F.Val(Seen(m), I.Holder(x)));
    NewBlockRuns(m, {j});
  }

  // A buffer that is still held can be given back.
  lemma GoesBack(c: C.Cache, d: C.Cache, j: nat)
    requires K.Inv(c) && K.Inv(d) && j < |c.bufs| == |d.bufs| && d.refs == c.refs && c.bufs[j].count != 0
    ensures C.Shaped(d) && C.Brelease(d, j).Some?
  {
    hide K.Inv;
    K.InvShaped(c);
    K.InvShaped(d);
  }

  lemma ReleasedRuns(r: Out, j: nat)
    requires Fit(r.m) && j < |r.m.cache.bufs| && r.end.Ran? && C.Brelease(r.m.cache, j).Some?
    ensures Released(r, j).end.Ran?
  {
  }

  // A read of a block does not wait, and does not halt.
  lemma ReadRuns(m: Mounted, b: nat, ok: bool)
    requires Fit(m) && K.Inv(m.cache) && Room(m) && m.first <= b < m.nblocks && |Idle(m.cache)| >= 1
    ensures var g := C.Bread(m.cache, At(m, b), ok).1; g.Failed? || g.Buffer?
  {
    hide K.Inv, C.Bread, C.Find, C.FirstIdle, K.HeldStay, Idle;
    SomeIdle(m.cache);
    K.BreadKeeps(m.cache, At(m, b), ok, At(m, b));
    ReadSeen(m, b, ok);
  }

  lemma UnderIndexRuns(m: Mounted, x: F.Slot, create: bool, dead: set<nat>)
    requires Ready(m) && I.Safe(Seen(m)) && F.Placed(Seen(m), x) && InIndex(x) && Quiet(m, {}, 2)
    ensures I.Index(x) < F.WORDS && UnderIndex(m, F.Val(Seen(m), I.Holder(x)), I.Index(x), create, dead).end.Ran?
  {
    hide K.Inv, C.Bread, WordSlot, Released, I.Safe, F.Val, F.Placed, P.TakeIf, K.HeldStay, Room, Quiet;
    HolderUsed(m, x);
    var c := F.Val(Seen(m), I.Holder(x));
    QuietIdle(m, {}, 2);
    ReadRuns(m, c, c !in dead);
    ReadSeen(m, c, c !in dead);
    var (d, g) := C.Bread(m.cache, At(m, c), c !in dead);
    if g.Buffer? {
      var n := m.(cache := d);
      QuietRead(m, n, g.i, {}, 1);
      assert {} + {g.i} == {g.i};
      WordSlotRuns(n, g.i, x, create);
      WordSlotSeen(n, g.i, x, create);
      var w := WordSlot(n, g.i, I.Index(x), create);
      GoesBack(d, w.m.cache, g.i);
      ReleasedRuns(w, g.i);
    }
  }

  lemma QuietIdle(m: Mounted, mine: set<nat>, k: nat)
    requires Quiet(m, mine, k)
    ensures |Idle(m.cache)| >= k
  {
  }

  lemma InSingleRuns(m: Mounted, f: nat, i: nat, create: bool, dead: set<nat>)
    requires Ready(m) && I.Safe(Seen(m)) && f < |m.inodes| && i < F.WORDS && Quiet(m, {}, 2)
    ensures InSingle(m, f, i, create, dead).end.Ran?
  {
    hide K.Inv, I.Safe, I.Sound, F.Val, P.TakeIf, P.Took, PointerSlot, UnderIndex, Room, Quiet;
    var s := Seen(m);
    Less(m, {}, 2, 1);
    PointerSlotRuns(m, f, F.INDEX_LEVEL1, create);
    PointerSlotSeen(m, f, F.INDEX_LEVEL1, create);
    assert F.Placed(s, F.Single(f));
    hide F.Placed;
    TakeIfKeeps(s, F.Single(f), create);
    var p := PointerSlot(m, f, F.INDEX_LEVEL1, create);
    if p.b != 0 {
      FineReady(m, p.m);
      QuietFine(m, p.m, {}, 2);
      P.PlacedBelow(s, Seen(p.m), F.Single(f), p.b, create, F.SingleEntry(f, i));
      UnderIndexRuns(p.m, F.SingleEntry(f, i), create, dead);
    }
  }

  lemma InDoubleRuns(m: Mounted, f: nat, i: nat, j: nat, create: bool, dead: set<nat>)
    requires Ready(m) && I.Safe(Seen(m)) && f < |m.inodes| && i < F.WORDS && j < F.WORDS && Quiet(m, {}, 2)
    ensures InDouble(m, f, i, j, create, dead).end.Ran?
  {
    hide K.Inv, I.Safe, I.Sound, F.Val, P.TakeIf, P.Took, PointerSlot, UnderIndex, Room, Quiet;
    var s := Seen(m);
    Less(m, {}, 2, 1);
    PointerSlotRuns(m, f, F.INDEX_LEVEL2, create);
    PointerSlotSeen(m, f, F.INDEX_LEVEL2, create);
    assert F.Placed(s, F.Double(f));
    hide F.Placed;
    TakeIfKeeps(s, F.Double(f), create);
    var p := PointerSlot(m, f, F.INDEX_LEVEL2, create);
    if p.b != 0 {
      FineReady(m, p.m);
      QuietFine(m, p.m, {}, 2);
      P.PlacedBelow(s, Seen(p.m), F.Double(f), p.b, create, F.DoubleIndex(f, i));
      DoubleBelowRuns(p.m, f, i, j, create, dead);
    }
  }

  lemma DoubleBelowRuns(p: Mounted, f: nat, i: nat, j: nat, create: bool, dead: set<nat>)
    requires Ready(p) && I.Safe(Seen(p)) && F.Placed(Seen(p), F.DoubleIndex(f, i)) && f < |p.inodes| && Quiet(p, {}, 2)
    requires i < F.WORDS && j < F.WORDS
    ensures var q := UnderIndex(p, F.Val(Seen(p), F.Double(f)), i, create, dead);
      q.end.Ran? && (q.b != 0 ==> UnderIndex(q.m, q.b, j, create, dead).end.Ran?)
  {
    hide K.Inv, I.Safe, I.Sound, F.Val, F.Placed, P.TakeIf, P.Took, UnderIndex, Room, Quiet;
    var t := Seen(p);
    UnderIndexRuns(p, F.DoubleIndex(f, i), create, dead);
    UnderIndexSeen(p, F.DoubleIndex(f, i), create, dead);
    var q := UnderIndex(p, F.Val(t, F.Double(f)), i, create, dead);
    TakeIfKeeps(t, F.DoubleIndex(f, i), create);
    if q.b != 0 {
      FineReady(p, q.m);
      QuietFine(p, q.m, {}, 2);
      P.PlacedBelow(t, Seen(q.m), F.DoubleIndex(f, i), q.b, create, F.DoubleEntry(f, i, j));
      UnderIndexRuns(q.m, F.DoubleEntry(f, i, j), create, dead);
    }
  }

  // ib_map and ib_map_new run to their end.
  lemma IbMapRuns(m: Mounted, f: nat, n: int, create: bool, dead: set<nat>)
    requires Calm(m) && I.Safe(Seen(m)) && f < |m.inodes|
    ensures IbMapHelper(m, f, n, create, dead).end.Ran?
  {
    hide K.Inv, I.Safe, PointerSlot, InSingle, InDouble, Room, Quiet;
    CalmReady(m);
    Less(m, {}, 2, 1);
    if 0 <= n < F.DIRECT {
      PointerSlotRuns(m, f, n, create);
    } else if F.DIRECT <= n < F.DIRECT + F.WORDS {
      InSingleRuns(m, f, n - F.DIRECT, create, dead);
    } else if F.DIRECT + F.WORDS <= n < F.LIMIT {
      var k := n - (F.DIRECT + F.WORDS);
      InDoubleRuns(m, f, k / F.WORDS, k % F.WORDS, create, dead);
    }
  }

  // ---- file_write and file_read --------------------------------------------------------------

  lemma PutInBlockRuns(p: Out, pos: nat, d: seq<byte>, dead: set<nat>)
    requires Ready(p.m) && p.end.Ran? && Quiet(p.m, {}, 1) && p.m.first <= p.b < p.m.nblocks && !Unused(p.m, p.b)
    ensures PutInBlock(p, pos, d, dead).end.Ran?
  {
    hide K.Inv, Room, C.Bread, C.Store, Released, PutBytes, K.HeldStay, Quiet;
    QuietIdle(p.m, {}, 1);
    ReadRuns(p.m, p.b, p.b !in dead);
    ReadSeen(p.m, p.b, p.b !in dead);
    var (e, g) := C.Bread(p.m.cache, At(p.m, p.b), p.b !in dead);
    if g.Buffer? {
      var chars := Chars(pos, |d|);
      var data := PutBytes(e.bufs[g.i].data, pos % BLOCK_SIZE, d[..chars]);
      var n := p.m.(cache := e);
      StoreSeen(n, g.i, p.b, data);
      var o := n.(cache := C.Store(e, g.i, data));
      GoesBack(e, o.cache, g.i);
      ReleasedRuns(Out(o, chars, Ran, p.bad), g.i);
    }
  }

  lemma GetFromBlockRuns(p: Out, pos: nat, count: nat, dead: set<nat>)
    requires Ready(p.m) && p.end.Ran? && Quiet(p.m, {}, 1) && p.m.first <= p.b < p.m.nblocks
    ensures GetFromBlock(p, pos, count, dead).0.end.Ran?
  {
    hide K.Inv, Room, C.Bread, Released, K.HeldStay, Quiet;
    QuietIdle(p.m, {}, 1);
    ReadRuns(p.m, p.b, p.b !in dead);
    ReadSeen(p.m, p.b, p.b !in dead);
    var (e, g) := C.Bread(p.m.cache, At(p.m, p.b), p.b !in dead);
    if g.Buffer? {
      GoesBack(e, e, g.i);
      ReleasedRuns(Out(p.m.(cache := e), 0, Ran, p.bad), g.i);
    }
  }

  lemma WriteStepRuns(m: Mounted, f: nat, pos: nat, d: seq<byte>, dead: set<nat>)
    requires Ready(m) && I.Safe(Seen(m)) && f < |m.inodes| && Quiet(m, {}, 2)
    ensures WriteStep(m, f, pos, d, dead).end.Ran?
  {
    hide K.Inv, I.Safe, I.Sound, F.Val, F.IbMapNew, IbMapHelper, Room, I.ZoneFull, PutBytes, PutInBlock, Quiet;
    IbMapRuns(m, f, pos / BLOCK_SIZE, true, dead);
    IbMapSeen(m, f, pos / BLOCK_SIZE, true, dead);
    var p := IbMapHelper(m, f, pos / BLOCK_SIZE, true, dead);
    if p.b != 0 {
      FineReady(m, p.m);
      QuietFine(m, p.m, {}, 2);
      Less(p.m, {}, 2, 1);
      D.MapForWrite(Seen(m), f, pos, {});
      D.FollowsSafe(Seen(m), Seen(p.m));
      P.LeafInjective(f, pos / BLOCK_SIZE, f, pos / BLOCK_SIZE);
      Used(p.m, F.Leaf(f, pos / BLOCK_SIZE));
      PutInBlockRuns(p, pos, d, dead);
    }
  }

  lemma {:induction false} WriteLoopRuns(m: Mounted, f: nat, pos: nat, d: seq<byte>, dead: nat -> set<nat>, k: nat)
    requires Ready(m) && I.Safe(Seen(m)) && f < |m.inodes| && Quiet(m, {}, 2)
    ensures WriteLoop(m, f, pos, d, dead, k).end.Ran?
    decreases |d|
  {
    hide K.Inv, I.Safe, I.Sound, WriteStep, F.WriteStep, Room, Quiet;
    if d != [] {
      WriteStepRuns(m, f, pos, d, dead(k));
      WriteStepSeen(m, f, pos, d, dead(k));
      var o := WriteStep(m, f, pos, d, dead(k));
      D.StepKeeps(Seen(m), f, pos, d, o.bad);
      if o.b > 0 {
        FineReady(m, o.m);
        QuietFine(m, o.m, {}, 2);
        D.FollowsSafe(Seen(m), Seen(o.m));
        WriteLoopRuns(o.m, f, pos + o.b, d[o.b..], dead, k + 1);
      }
    }
  }

  // file_write runs to its end.
  lemma FileWriteRuns(m: Mounted, f: nat, h: F.File, d: seq<byte>, dead: nat -> set<nat>)
    requires Calm(m) && I.Safe(Seen(m)) && f < |m.inodes|
    ensures FileWrite(m, f, h, d, dead).0.end.Ran?
  {
    hide K.Inv, I.Safe, WriteLoop, Room, Quiet;
    CalmReady(m);
    WriteLoopRuns(m, f, if h.append then m.inodes[f].size else h.offset, d, dead, 0);
  }

  lemma ReadStepRuns(m: Mounted, f: nat, pos: nat, count: nat, dead: set<nat>)
    requires Ready(m) && I.Safe(Seen(m)) && f < |m.inodes| && Quiet(m, {}, 2)
    ensures ReadStep(m, f, pos, count, dead).0.end.Ran?
  {
    hide K.Inv, I.Safe, IbMapHelper, GetFromBlock, Room, Quiet, F.IbMap;
    IbMapRuns(m, f, pos / BLOCK_SIZE, false, dead);
    IbMapSeen(m, f, pos / BLOCK_SIZE, false, dead);
    var p := IbMapHelper(m, f, pos / BLOCK_SIZE, false, dead);
    FineReady(m, p.m);
    QuietFine(m, p.m, {}, 2);
    Less(p.m, {}, 2, 1);
    if p.b != 0 {
      MapNotAbove(Seen(m), f, pos / BLOCK_SIZE);
      GetFromBlockRuns(p, pos, count, dead);
    }
  }

  lemma {:induction false} ReadLoopRuns(m: Mounted, f: nat, pos: nat, count: nat, dead: nat -> set<nat>, k: nat)
    requires Ready(m) && I.Safe(Seen(m)) && f < |m.inodes| && Quiet(m, {}, 2)
    ensures ReadLoop(m, f, pos, count, dead, k).0.end.Ran?
    decreases count
  {
    hide K.Inv, I.Safe, ReadStep, F.ReadStep, Room, Quiet;
    if count > 0 {
      ReadStepRuns(m, f, pos, count, dead(k));
      ReadStepSeen(m, f, pos, count, dead(k));
      var (o, a) := ReadStep(m, f, pos, count, dead(k));
      if a != [] {
        FineReady(m, o.m);
        QuietFine(m, o.m, {}, 2);
        ReadLoopRuns(o.m, f, pos + |a|, count - |a|, dead, k + 1);
      }
    }
  }

  // file_read runs to its end.
  lemma FileReadRuns(m: Mounted, f: nat, h: F.File, count: nat, dead: nat -> set<nat>)
    requires Calm(m) && I.Safe(Seen(m)) && f < |m.inodes|
    ensures FileRead(m, f, h, count, dead).0.end.Ran?
  {
    hide K.Inv, I.Safe, ReadLoop, Room, Quiet;
    CalmReady(m);
    ReadLoopRuns(m, f, h.offset, count, dead, 0);
  }
}
