// file_write and file_read through the cache.
module FilesSeenData {
  import opened Base
  import F = FilesModel
  import I = FilesInvariant
  import P = FilesMap
  import D = FilesData
  import C = CacheModel
  import K = CacheProofs
  import opened FilesCached
  import opened FilesSeen
  import opened FilesSeenMap

  // ---- a data block is not an index block on the way to it -----------------------------------

  lemma SingleNotAbove(s: F.FS, f: nat, i: nat)
    requires I.Safe(s) && F.Shaped(s) && f < |s.inodes| && i < F.WORDS && F.NewInSingle(s, f, i, {}).1 != 0
    ensures F.NewInSingle(s, f, i, {F.NewInSingle(s, f, i, {}).1}) == F.NewInSingle(s, f, i, {})
  {
    hide I.Safe, I.Sound, F.Val, F.Take, P.Took;
    var x := F.SingleEntry(f, i);
    assert F.Placed(s, F.Single(f));
    hide F.Placed;
    P.TakeKeeps(s, F.Single(f));
    var (t, c) := F.Take(s, F.Single(f));
    P.TookPlaces(s, t, F.Single(f), c, x);
    NotBelow(t, F.Single(f), x);
  }

  // The block taken for slot x is not the one that slot z names.
  lemma NotBelow(t: F.FS, z: F.Slot, x: F.Slot)
    requires I.Safe(t) && F.Shaped(t) && F.Placed(t, x) && z != x && F.Val(t, z) != 0
    ensures F.Take(t, x).1 != F.Val(t, z)
  {
    hide I.Safe, I.Sound, F.Val, F.Take, F.Placed;
    P.TakeKeeps(t, x);
    var (u, b) := F.Take(t, x);
    TookVals(t, u, x, b, z);
    I.SafeMeans(u);
  }

  lemma TookVals(t: F.FS, u: F.FS, x: F.Slot, b: nat, z: F.Slot)
    requires P.Took(t, u, x, b) && z != x
    ensures F.Val(u, x) == b && F.Val(u, z) == F.Val(t, z)
  {
    hide F.Val;
  }

  lemma IndexNotAbove(s: F.FS, f: nat, i: nat, j: nat)
    requires I.Safe(s) && F.Shaped(s) && F.Placed(s, F.DoubleIndex(f, i)) && f < |s.inodes| && i < F.WORDS
    requires j < F.WORDS
    requires F.NewInIndex(s, f, i, j, {}).1 != 0 && F.Val(s, F.Double(f)) != 0
    ensures var r := F.NewInIndex(s, f, i, j, {}); F.NewInIndex(s, f, i, j, {r.1}) == r && r.1 != F.Val(s, F.Double(f))
  {
    hide I.Safe, I.Sound, F.Val, F.Take, P.Took, F.Placed;
    var x := F.DoubleEntry(f, i, j);
    P.TakeKeeps(s, F.DoubleIndex(f, i));
    var (t, c) := F.Take(s, F.DoubleIndex(f, i));
    P.TookPlaces(s, t, F.DoubleIndex(f, i), c, x);
    NotBelow(t, F.DoubleIndex(f, i), x);
    NotBelow(t, F.Double(f), x);
  }

  lemma DoubleNotAbove(s: F.FS, f: nat, i: nat, j: nat)
    requires I.Safe(s) && F.Shaped(s) && f < |s.inodes| && i < F.WORDS && j < F.WORDS
    requires F.NewInDouble(s, f, i, j, {}).1 != 0
    ensures F.NewInDouble(s, f, i, j, {F.NewInDouble(s, f, i, j, {}).1}) == F.NewInDouble(s, f, i, j, {})
  {
    hide I.Safe, I.Sound, F.Val, F.Take, P.Took, F.NewInIndex;
    assert F.Placed(s, F.Double(f));
    hide F.Placed;
    P.TakeKeeps(s, F.Double(f));
    var (t, c) := F.Take(s, F.Double(f));
    P.TookPlaces(s, t, F.Double(f), c, F.DoubleIndex(f, i));
    IndexNotAbove(t, f, i, j);
  }

  lemma NewNotAbove(s: F.FS, f: nat, n: int)
    requires I.Safe(s) && f < |s.inodes|
    ensures F.Shaped(s)
    ensures var r := F.IbMapNew(s, f, n, {}); r.1 != 0 ==> F.IbMapNew(s, f, n, {r.1}) == r
  {
    hide I.Safe, F.Take, F.NewInSingle, F.NewInDouble;
    I.SafeShaped(s);
    if F.IbMapNew(s, f, n, {}).1 != 0 {
      if F.DIRECT <= n < F.DIRECT + F.WORDS {
        SingleNotAbove(s, f, n - F.DIRECT);
      } else if F.DIRECT + F.WORDS <= n < F.LIMIT {
        var m := n - (F.DIRECT + F.WORDS);
        DoubleNotAbove(s, f, m / F.WORDS, m % F.WORDS);
      }
    }
  }

  lemma MapNotAbove(s: F.FS, f: nat, n: int)
    requires I.Safe(s)
    ensures var b := F.IbMap(s, f, n, {});
      b != 0 ==> F.IbMap(s, f, n, {b}) == b && F.Shaped(s) && F.InZone(s, b) && F.Bit(s, b)
  {
    hide I.Safe, F.Val;
    I.SafeMeans(s);
  }

  // ---- file_write ----------------------------------------------------------------------------

  // A turn of file_write through the cache is the model's, with the blocks that the device did not answer for.
  lemma WriteStepSeen(m: Mounted, f: nat, pos: nat, d: seq<byte>, dead: set<nat>)
    requires Ready(m) && I.Safe(Seen(m)) && f < |m.inodes|
    ensures var r := WriteStep(m, f, pos, d, dead);
      r.end.Ran? ==> Fine(m, r.m) && r.bad <= dead && (Seen(r.m), r.b) == F.WriteStep(Seen(m), f, pos, d, r.bad)
  {
    hide K.Inv, I.Safe, I.Sound, F.Val, F.IbMapNew, IbMapHelper, Room, I.ZoneFull, PutBytes, PutInBlock;
    IbMapSeen(m, f, pos / BLOCK_SIZE, true, dead);
    var p := IbMapHelper(m, f, pos / BLOCK_SIZE, true, dead);
    if p.end.Ran? && p.b != 0 {
      FineReady(m, p.m);
      D.MapForWrite(Seen(m), f, pos, {});
      NewNotAbove(Seen(m), f, pos / BLOCK_SIZE);
      D.FollowsSafe(Seen(m), Seen(p.m));
      P.LeafInjective(f, pos / BLOCK_SIZE, f, pos / BLOCK_SIZE);
      Used(p.m, F.Leaf(f, pos / BLOCK_SIZE));
      PutSeen(m, p, pos, d, dead);
    }
  }

  lemma Used(m: Mounted, x: F.Slot)
    requires Fit(m) && I.Safe(Seen(m)) && F.Val(Seen(m), x) != 0
    ensures m.first <= F.Val(Seen(m), x) < m.nblocks && !Unused(m, F.Val(Seen(m), x))
  {
    hide F.Val;
    I.SafeMeans(Seen(m));
    assert F.Bit(Seen(m), F.Val(Seen(m), x));
  }

  lemma PutSeen(m: Mounted, p: Out, pos: nat, d: seq<byte>, dead: set<nat>)
    requires Ready(m) && Ready(p.m) && Fine(m, p.m) && p.bad == {}
    requires p.m.first <= p.b < p.m.nblocks && !Unused(p.m, p.b)
    ensures var r := PutInBlock(p, pos, d, dead);
      r.end.Ran? ==>
        && Fine(m, r.m)
        && if r.bad == {} then r.b == Chars(pos, |d|) && Seen(r.m) == D.Put(Seen(p.m), p.b, pos % BLOCK_SIZE, d[..r.b])
           else r.bad == {p.b} && p.b in dead && Seen(r.m) == Seen(p.m) && r.b == 0
  {
    hide K.Inv, Room, C.Bread, C.Store, Released, PutBytes, K.HeldStay;
    ReadSeen(p.m, p.b, p.b !in dead);
    var (e, g) := C.Bread(p.m.cache, At(p.m, p.b), p.b !in dead);
    var n := p.m.(cache := e);
    if g.Failed? {
      FineThen(m, p.m, n);
    } else if g.Buffer? {
      var chars := Chars(pos, |d|);
      var data := PutBytes(e.bufs[g.i].data, pos % BLOCK_SIZE, d[..chars]);
      StoreSeen(n, g.i, p.b, data);
      var o := n.(cache := C.Store(e, g.i, data));
      KeysThrough(p.m, n, o, g.i);
      ReleasedSeen(p.m, Out(o, chars, Ran, p.bad), g.i);
      var r := Released(Out(o, chars, Ran, p.bad), g.i);
      if r.end.Ran? { FineThen(m, p.m, r.m); }
    }
  }

  // The loop looks at the errors of its own turns only.
  lemma {:induction false} SameErrors(s: F.FS, f: nat, pos: nat, d: seq<byte>, bad: nat -> set<nat>,
      ill: nat -> set<nat>, k: nat)
    requires F.Shaped(s) && forall j: nat :: j >= k ==> ill(j) == bad(j)
    ensures F.WriteLoop(s, f, pos, d, ill, k) == F.WriteLoop(s, f, pos, d, bad, k)
    decreases |d|
  {
    hide F.WriteStep, F.WriteLoop, F.Shaped;
    D.WriteUnfolds(s, f, pos, d, bad, k);
    D.WriteUnfolds(s, f, pos, d, ill, k);
    if d != [] {
      var (t, n) := F.WriteStep(s, f, pos, d, bad(k));
      if n > 0 { SameErrors(t, f, pos + n, d[n..], bad, ill, k + 1); }
    }
  }

  ghost predicate Within(bad: nat -> set<nat>, dead: nat -> set<nat>) { forall j: nat :: bad(j) <= dead(j) }

  lemma LoopUnfolds(m: Mounted, f: nat, pos: nat, d: seq<byte>, dead: nat -> set<nat>, k: nat)
    requires Fit(m) && f < |m.inodes| && d != []
    ensures var (r, o) := (WriteLoop(m, f, pos, d, dead, k), WriteStep(m, f, pos, d, dead(k)));
      && r.bad(k) == o.bad && (r.end.Ran? ==> o.end.Ran?)
      && (!o.end.Ran? || o.b == 0 ==> r.m == o.m && r.count == o.b && forall j: nat :: j != k ==> r.bad(j) == {})
      && (o.end.Ran? && o.b > 0 ==>
           var q := WriteLoop(o.m, f, pos + o.b, d[o.b..], dead, k + 1);
           r.m == q.m && r.count == o.b + q.count && r.end == q.end && forall j: nat :: j != k ==> r.bad(j) == q.bad(j))
  {
    hide WriteStep, Fit;
  }

  lemma {:induction false} WriteLoopSeen(m: Mounted, f: nat, pos: nat, d: seq<byte>, dead: nat -> set<nat>, k: nat)
    requires Ready(m) && I.Safe(Seen(m)) && f < |m.inodes|
    ensures var r := WriteLoop(m, f, pos, d, dead, k);
      r.end.Ran? ==>
        && Fine(m, r.m) && Within(r.bad, dead)
        && (Seen(r.m), r.count) == F.WriteLoop(Seen(m), f, pos, d, r.bad, k)
    decreases |d|
  {
    hide K.Inv, I.Safe, I.Sound, WriteStep, F.WriteStep, WriteLoop, F.WriteLoop, Room, F.Shaped, Seen, Within;
    var r := WriteLoop(m, f, pos, d, dead, k);
    if d == [] {
      NothingWritten(m, f, pos, dead, k);
    } else if r.end.Ran? {
      LoopUnfolds(m, f, pos, d, dead, k);
      WriteStepSeen(m, f, pos, d, dead(k));
      var o := WriteStep(m, f, pos, d, dead(k));
      D.WriteUnfolds(Seen(m), f, pos, d, r.bad, k);
      if o.b > 0 {
        D.StepKeeps(Seen(m), f, pos, d, o.bad);
        FineReady(m, o.m);
        D.FollowsSafe(Seen(m), Seen(o.m));
        WriteLoopSeen(o.m, f, pos + o.b, d[o.b..], dead, k + 1);
        var q := WriteLoop(o.m, f, pos + o.b, d[o.b..], dead, k + 1);
        FineThen(m, o.m, q.m);
        SameErrors(Seen(o.m), f, pos + o.b, d[o.b..], q.bad, r.bad, k + 1);
        WithinLater(r.bad, q.bad, dead, k);
      } else {
        WithinLater(r.bad, _ => {}, dead, k);
      }
    }
  }

  lemma NothingWritten(m: Mounted, f: nat, pos: nat, dead: nat -> set<nat>, k: nat)
    requires Ready(m) && f < |m.inodes|
    ensures var r := WriteLoop(m, f, pos, [], dead, k);
      && Fine(m, r.m) && Within(r.bad, dead)
      && (Seen(r.m), r.count) == F.WriteLoop(Seen(m), f, pos, [], r.bad, k)
  {
    FineSelf(m);
  }

  lemma WithinLater(bad: nat -> set<nat>, later: nat -> set<nat>, dead: nat -> set<nat>, k: nat)
    requires bad(k) <= dead(k) && forall j: nat :: j != k ==> bad(j) == later(j)
    requires Within(later, dead) || forall j: nat :: j != k ==> bad(j) == {}
    ensures Within(bad, dead)
  {
    forall j: nat ensures bad(j) <= dead(j) { assert j != k ==> bad(j) == later(j); }
  }

  // file_write through the cache is file_write of the model.
  lemma FileWriteSeen(m: Mounted, f: nat, h: F.File, d: seq<byte>, dead: nat -> set<nat>)
    requires Ready(m) && I.Safe(Seen(m)) && f < |m.inodes|
    ensures var (r, h1) := FileWrite(m, f, h, d, dead);
      r.end.Ran? ==>
        && Fine(m, r.m) && Within(r.bad, dead)
        && (Seen(r.m), h1, r.count) == F.FileWrite(Seen(m), f, h, d, r.bad)
  {
    hide K.Inv, I.Safe, WriteLoop, F.WriteLoop, Room;
    var pos := if h.append then m.inodes[f].size else h.offset;
    WriteLoopSeen(m, f, pos, d, dead, 0);
    var r := WriteLoop(m, f, pos, d, dead, 0);
    if r.end.Ran? {
      var n := if r.count > 0 then Grow(r.m, f, pos + r.count) else r.m;
      OnlyInodes(r.m, n);
    }
  }

  // ---- file_read -----------------------------------------------------------------------------

  lemma GetSeen(m: Mounted, p: Out, pos: nat, count: nat, dead: set<nat>)
    requires Ready(m) && Ready(p.m) && Fine(m, p.m) && p.bad == {}
    requires p.m.first <= p.b < p.m.nblocks && !Unused(p.m, p.b)
    ensures var (r, a) := GetFromBlock(p, pos, count, dead);
      r.end.Ran? ==>
        && Fine(m, r.m) && Seen(r.m) == Seen(p.m)
        && if r.bad == {} then a == Seen(p.m).disk[p.b][pos % BLOCK_SIZE..pos % BLOCK_SIZE + Chars(pos, count)]
           else r.bad == {p.b} && p.b in dead && a == []
  {
    hide K.Inv, Room, C.Bread, Released, K.HeldStay;
    ReadSeen(p.m, p.b, p.b !in dead);
    var (e, g) := C.Bread(p.m.cache, At(p.m, p.b), p.b !in dead);
    var n := p.m.(cache := e);
    if g.Failed? {
      FineThen(m, p.m, n);
    } else if g.Buffer? {
      KeysSame(p.m, n);
      ReleasedSeen(p.m, Out(n, 0, Ran, p.bad), g.i);
      var r := Released(Out(n, 0, Ran, p.bad), g.i);
      if r.end.Ran? { FineThen(m, p.m, r.m); }
    }
  }

  lemma KeysSame(m: Mounted, n: Mounted)
    requires Kept(m.cache, n.cache)
    ensures |n.cache.bufs| == |m.cache.bufs|
    ensures forall i :: 0 <= i < |m.cache.bufs| && m.cache.bufs[i].count != 0 ==>
      n.cache.bufs[i].key == m.cache.bufs[i].key
  {
    hide K.Inv;
  }

  lemma ReadStepSeen(m: Mounted, f: nat, pos: nat, count: nat, dead: set<nat>)
    requires Ready(m) && I.Safe(Seen(m)) && f < |m.inodes|
    ensures var (r, a) := ReadStep(m, f, pos, count, dead);
      r.end.Ran? ==>
        Fine(m, r.m) && r.bad <= dead && Seen(r.m) == Seen(m) && a == F.ReadStep(Seen(m), f, pos, count, r.bad)
  {
    hide K.Inv, I.Safe, F.Val, F.IbMap, IbMapHelper, Room, GetFromBlock;
    IbMapSeen(m, f, pos / BLOCK_SIZE, false, dead);
    var p := IbMapHelper(m, f, pos / BLOCK_SIZE, false, dead);
    if p.end.Ran? && p.b != 0 {
      FineReady(m, p.m);
      MapNotAbove(Seen(m), f, pos / BLOCK_SIZE);
      assert !Unused(p.m, p.b) by { assert F.Bit(Seen(p.m), p.b); }
      GetSeen(m, p, pos, count, dead);
    }
  }

  lemma ReadUnfolds(s: F.FS, f: nat, pos: nat, count: nat, bad: nat -> set<nat>, k: nat)
    ensures count == 0 ==> F.ReadLoop(s, f, pos, count, bad, k) == []
    ensures var a := F.ReadStep(s, f, pos, count, bad(k));
      && (a == [] ==> F.ReadLoop(s, f, pos, count, bad, k) == [])
      && (a != [] ==>
           F.ReadLoop(s, f, pos, count, bad, k) == a + F.ReadLoop(s, f, pos + |a|, count - |a|, bad, k + 1))
  {
    hide F.ReadStep;
  }

  lemma {:induction false} SameReadErrors(s: F.FS, f: nat, pos: nat, count: nat, bad: nat -> set<nat>,
      ill: nat -> set<nat>, k: nat)
    requires forall j: nat :: j >= k ==> ill(j) == bad(j)
    ensures F.ReadLoop(s, f, pos, count, ill, k) == F.ReadLoop(s, f, pos, count, bad, k)
    decreases count
  {
    hide F.ReadStep, F.ReadLoop;
    ReadUnfolds(s, f, pos, count, bad, k);
    ReadUnfolds(s, f, pos, count, ill, k);
    var a := F.ReadStep(s, f, pos, count, bad(k));
    if a != [] { SameReadErrors(s, f, pos + |a|, count - |a|, bad, ill, k + 1); }
  }

  lemma {:induction false} ReadLoopSeen(m: Mounted, f: nat, pos: nat, count: nat, dead: nat -> set<nat>, k: nat)
    requires Ready(m) && I.Safe(Seen(m)) && f < |m.inodes|
    ensures var (r, a) := ReadLoop(m, f, pos, count, dead, k);
      r.end.Ran? ==>
        && Fine(m, r.m) && Within(r.bad, dead) && Seen(r.m) == Seen(m)
        && a == F.ReadLoop(Seen(m), f, pos, count, r.bad, k)
    decreases count
  {
    hide K.Inv, I.Safe, ReadStep, F.ReadStep, F.ReadLoop, Room;
    FineSelf(m);
    var r := ReadLoop(m, f, pos, count, dead, k).0;
    ReadUnfolds(Seen(m), f, pos, count, r.bad, k);
    if count > 0 && r.end.Ran? {
      ReadStepSeen(m, f, pos, count, dead(k));
      var (o, a) := ReadStep(m, f, pos, count, dead(k));
      if a != [] {
        FineReady(m, o.m);
        ReadLoopSeen(o.m, f, pos + |a|, count - |a|, dead, k + 1);
        var q := ReadLoop(o.m, f, pos + |a|, count - |a|, dead, k + 1).0;
        FineThen(m, o.m, q.m);
        SameReadErrors(Seen(m), f, pos + |a|, count - |a|, q.bad, r.bad, k + 1);
      }
    }
  }

  // file_read through the cache is file_read of the model, and changes nothing that the file layer sees.
  lemma FileReadSeen(m: Mounted, f: nat, h: F.File, count: nat, dead: nat -> set<nat>)
    requires Ready(m) && I.Safe(Seen(m)) && f < |m.inodes|
    ensures var (r, a, h1) := FileRead(m, f, h, count, dead);
      r.end.Ran? ==>
        && Fine(m, r.m) && Within(r.bad, dead) && Seen(r.m) == Seen(m)
        && (a, h1) == F.FileRead(Seen(m), f, h, count, r.bad)
  {
    hide K.Inv, I.Safe, ReadLoop, F.ReadLoop, Room;
    ReadLoopSeen(m, f, h.offset, count, dead, 0);
  }
}
