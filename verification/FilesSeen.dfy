// What the file layer sees through the cache, and that each call on buffers does to it what the file model says.
module FilesSeen {
  import opened Base
  import F = FilesModel
  import I = FilesInvariant
  import P = FilesMap
  import C = CacheModel
  import K = CacheProofs
  import opened FilesCached

  // ---- the disk that the file layer sees -----------------------------------------------------

  predicate Unused(m: Mounted, b: nat)
    requires Fit(m)
  {
    m.first <= b < m.nblocks && !m.bits[b - m.first + 1]
  }

  // A free block counts as zero, whatever the device still holds.
  function Shown(m: Mounted, b: nat): Block
    requires Fit(m)
  {
    if Unused(m, b) then ZeroBlock() else C.Logical(m.cache, At(m, b))
  }

  function Seen(m: Mounted): (s: F.FS)
    requires Fit(m)
    ensures F.Shaped(s) && s.inodes == m.inodes
  {
    F.FS(m.first, m.nblocks, m.bits, seq(m.nblocks, b requires 0 <= b < m.nblocks => Shown(m, b)), m.inodes)
  }

  // The same with the free blocks of the zone zeroed.
  function Clean(s: F.FS): (t: F.FS)
    requires F.Shaped(s)
    ensures F.Shaped(t) && t == s.(disk := t.disk) && |t.disk| == |s.disk|
    ensures forall b :: 0 <= b < s.nblocks ==>
      t.disk[b] == if F.InZone(s, b) && !F.Bit(s, b) then ZeroBlock() else s.disk[b]
  {
    s.(disk := seq(s.nblocks, b requires 0 <= b < s.nblocks =>
      if F.InZone(s, b) && !F.Bit(s, b) then ZeroBlock() else s.disk[b]))
  }

  ghost predicate SameLogical(c: C.Cache, d: C.Cache) { forall l: C.Key :: C.Logical(d, l) == C.Logical(c, l) }

  lemma SeenSame(m: Mounted, n: Mounted)
    requires Fit(m) && Fit(n) && n == m.(cache := n.cache) && SameLogical(m.cache, n.cache)
    ensures Seen(n) == Seen(m)
  {
    hide C.Logical;
    assert forall b :: 0 <= b < m.nblocks ==> Shown(n, b) == Shown(m, b);
  }

  lemma SeenBlock(m: Mounted, b: nat)
    requires Fit(m) && b < m.nblocks
    ensures Seen(m).disk[b] == Shown(m, b)
  {
  }

  // ---- calls on the cache --------------------------------------------------------------------

  // The cache is in order, and held buffers keep block and contents.
  ghost predicate Kept(c: C.Cache, d: C.Cache) { K.Inv(d) && K.HeldStay(c, d) }

  lemma ReadBuffer(c: C.Cache, k: C.Key, ok: bool)
    requires K.Inv(c)
    ensures C.Shaped(c)
    ensures var (d, g) := C.Bread(c, k, ok);
      && Kept(c, d) && SameLogical(c, d)
      && (g.Failed? ==> d.refs == c.refs && !ok)
      && (g.Buffer? ==> d.refs == c.refs[g.i := c.refs[g.i] + 1] && d.bufs[g.i].key == Some(k))
      && (g.Buffer? ==> d.bufs[g.i].uptodate && d.bufs[g.i].data == C.Logical(c, k))
  {
    hide K.Inv, C.Logical, K.HeldStay, C.Bread, C.Find, C.FirstIdle;
    K.InvShaped(c);
    forall l: C.Key ensures C.Logical(C.Bread(c, k, ok).0, l) == C.Logical(c, l) { K.BreadKeeps(c, k, ok, l); }
    K.BreadKeeps(c, k, ok, k);
    BreadRefs(c, k, ok);
  }

  lemma BreadRefs(c: C.Cache, k: C.Key, ok: bool)
    requires K.Inv(c) && C.Shaped(c)
    ensures var (d, g) := C.Bread(c, k, ok);
      && (g.Failed? ==> d.refs == c.refs)
      && (g.Buffer? ==> d.refs == c.refs[g.i := c.refs[g.i] + 1])
  {
    hide K.Inv, C.GetBuffer, C.Find, C.FirstIdle;
    K.GetKeepsCounts(c, k);
    var (e, r) := C.GetBuffer(c, k);
    if r.Some? { assert c.refs[r.value := c.refs[r.value] + 1][r.value := c.refs[r.value]] == c.refs; }
  }

  lemma GiveBack(c: C.Cache, j: nat)
    requires K.Inv(c) && j < |c.bufs|
    ensures C.Shaped(c)
    ensures C.Brelease(c, j).Some? ==>
      var d := C.Brelease(c, j).value;
      Kept(c, d) && SameLogical(c, d) && c.refs[j] > 0 && d.refs == c.refs[j := c.refs[j] - 1]
  {
    hide K.Inv, C.Logical, K.HeldStay, C.Brelease;
    K.InvShaped(c);
    if C.Brelease(c, j).Some? {
      var d := C.Brelease(c, j).value;
      forall l: C.Key ensures C.Logical(d, l) == C.Logical(c, l) { K.BreleaseKeeps(c, j, l); }
      K.BreleaseKeeps(c, j, C.Key(0, 0));
      ReleaseRefs(c, j);
    }
  }

  lemma ReleaseRefs(c: C.Cache, j: nat)
    requires K.Inv(c) && C.Shaped(c) && j < |c.bufs| && C.Brelease(c, j).Some?
    ensures c.refs[j] > 0 && C.Brelease(c, j).value.refs == c.refs[j := c.refs[j] - 1]
  {
    K.InvShaped(c);
  }

  // ---- new_block -----------------------------------------------------------------------------

  // A buffer taken while nobody held it, zeroed and given back.
  lemma ZeroBuffer(c: C.Cache, k: C.Key)
    requires K.Inv(c)
    ensures C.Shaped(c)
    ensures var (d, g) := C.GetBuffer(c, k);
      g.Some? && d.bufs[g.value].count == 1 ==>
        var e := C.Brelease(C.Store(d, g.value, ZeroBlock()), g.value);
        && e.Some? && Kept(c, e.value) && e.value.refs == c.refs
        && forall l: C.Key :: C.Logical(e.value, l) == if l == k then ZeroBlock() else C.Logical(c, l)
  {
    hide K.Inv, C.Logical, K.HeldStay, C.GetBuffer, C.Find, C.FirstIdle;
    K.InvShaped(c);
    K.GetKeepsCounts(c, k);
    K.GetBufferKeeps(c, k, k);
    var (d, g) := C.GetBuffer(c, k);
    if g.Some? && d.bufs[g.value].count == 1 {
      var j := g.value;
      K.InvShaped(d);
      var s := C.Store(d, j, ZeroBlock());
      var e := C.Brelease(s, j);
      forall l: C.Key ensures C.Logical(e.value, l) == if l == k then ZeroBlock() else C.Logical(c, l) {
        K.GetBufferKeeps(c, k, l);
        K.StoreKeeps(d, j, ZeroBlock(), l);
        K.BreleaseKeeps(s, j, l);
      }
      K.StoreKeeps(d, j, ZeroBlock(), k);
      K.BreleaseKeeps(s, j, k);
      assert c.refs[j := c.refs[j] + 1][j := c.refs[j]] == c.refs;
      WasIdle(c, d, e.value, j);
    }
  }

  lemma WasIdle(c: C.Cache, d: C.Cache, e: C.Cache, j: nat)
    requires K.HeldStay(c, d) && C.Shaped(e) && |e.bufs| == |d.bufs| && j < |c.bufs|
    requires c.bufs[j].count == 0 && forall i :: 0 <= i < |c.bufs| && i != j ==> e.bufs[i] == d.bufs[i]
    ensures K.HeldStay(c, e)
  {
  }

  // new_block through the cache is new_block of the model. It sleeps exactly when the block has no buffer and all
  // are held, and halts exactly when somebody holds its buffer.
  lemma NewBlockSeen(m: Mounted)
    requires Fit(m) && K.Inv(m.cache)
    ensures var (r, b) := (NewBlock(m), F.NewBlock(Seen(m)).1);
      var j := C.Find(m.cache.bufs, At(m, b), 0);
      && (r.end.Ran? ==> (Seen(r.m), r.b) == F.NewBlock(Seen(m)) && Kept(m.cache, r.m.cache))
      && (r.end.Ran? ==> r.m.cache.refs == m.cache.refs)
      && (r.end.Asleep? <==> b != 0 && j == |m.cache.bufs| == C.FirstIdle(m.cache.bufs, 0))
      && (r.end.Halted? <==> b != 0 && j < |m.cache.bufs| && m.cache.refs[j] % C.COUNT_LIMIT != 0)
      && !r.end.InUse?
  {
    hide K.Inv, C.Logical, K.HeldStay, C.GetBuffer, C.Brelease, C.Store, C.Find, C.FirstIdle;
    K.InvShaped(m.cache);
    var i := F.FirstClear(m.bits, 0);
    var b := i + m.first - 1;
    SelfKept(m.cache);
    if i < |m.bits| && b < m.nblocks {
      ZeroBuffer(m.cache, At(m, b));
      CountAfterGet(m.cache, At(m, b));
      K.GetBufferKeeps(m.cache, At(m, b), At(m, b));
      var r := NewBlock(m);
      if r.end.Ran? { TakenSeen(m, r.m, b); }
    } else if i < |m.bits| {
      var n := m.(bits := m.bits[i := true]);
      assert forall c :: 0 <= c < m.nblocks ==> Shown(n, c) == Shown(m, c);
      assert Seen(n).disk == Seen(m).disk;
    }
  }

  lemma SelfKept(c: C.Cache)
    requires K.Inv(c)
    ensures Kept(c, c)
  {
    K.InvShaped(c);
    K.SelfStays(c);
  }

  // The count is 1 afterwards exactly when nobody held the buffer.
  lemma CountAfterGet(c: C.Cache, k: C.Key)
    requires K.Inv(c)
    ensures C.Shaped(c)
    ensures var (d, g) := C.GetBuffer(c, k);
      g.Some? ==> (d.bufs[g.value].count == 1 <==>
        C.Find(c.bufs, k, 0) == |c.bufs| || c.refs[C.Find(c.bufs, k, 0)] % C.COUNT_LIMIT == 0)
  {
    hide K.Inv, C.WriteBack, C.Find, C.FirstIdle;
    K.InvShaped(c);
  }

  lemma TakenSeen(m: Mounted, n: Mounted, b: nat)
    requires Fit(m) && Fit(n) && Unused(m, b) && n == m.(cache := n.cache, bits := m.bits[b - m.first + 1 := true])
    requires forall l: C.Key ::
      C.Logical(n.cache, l) == if l == At(m, b) then ZeroBlock() else C.Logical(m.cache, l)
    ensures Seen(n) == F.SetBit(Seen(m), b, true).(disk := Seen(m).disk[b := ZeroBlock()])
  {
    hide C.Logical;
    var t := Seen(m).disk[b := ZeroBlock()];
    forall c | 0 <= c < m.nblocks ensures Shown(n, c) == t[c] { SeenBlock(m, c); }
    assert Seen(n).disk == t;
  }

  // ---- free_block ----------------------------------------------------------------------------

  // free_block through the cache is free_block of the model, up to what a free block holds. It leaves the block in
  // use exactly when somebody holds its buffer, and otherwise halts exactly when the model says so.
  lemma FreeBlockSeen(m: Mounted, b: nat)
    requires Fit(m) && K.Inv(m.cache)
    ensures var (r, o) := (FreeBlock(m, b), F.FreeBlock(Seen(m), b));
      var j := C.Find(m.cache.bufs, At(m, b), 0);
      && (r.end.Ran? ==> o.Some? && Seen(r.m) == Clean(o.value) && Kept(m.cache, r.m.cache))
      && (r.end.Ran? ==> r.m.cache.refs == m.cache.refs)
      && (r.end.InUse? <==> m.first <= b < m.nblocks && j < |m.cache.bufs| && m.cache.refs[j] % C.COUNT_LIMIT != 0)
      && (r.end.Halted? <==> !r.end.InUse? && o.None?)
      && !r.end.Asleep?
  {
    hide K.Inv, C.Logical, K.HeldStay, C.FreeBuffer, C.Find;
    K.InvShaped(m.cache);
    if m.first <= b < m.nblocks {
      var k := At(m, b);
      var d := C.FreeBuffer(m.cache, k).0;
      forall l: C.Key | l != k ensures C.Logical(d, l) == C.Logical(m.cache, l) { K.FreeBufferKeeps(m.cache, k, l); }
      K.FreeBufferKeeps(m.cache, k, k);
      if FreeBlock(m, b).end.Ran? { FreedSeen(m, FreeBlock(m, b).m, b); }
    }
  }

  lemma FreedSeen(m: Mounted, n: Mounted, b: nat)
    requires Fit(m) && Fit(n) && m.first <= b < m.nblocks
    requires n == m.(cache := n.cache, bits := m.bits[b - m.first + 1 := false])
    requires forall l: C.Key :: l != At(m, b) ==> C.Logical(n.cache, l) == C.Logical(m.cache, l)
    ensures Seen(n) == Clean(F.SetBit(Seen(m), b, false))
  {
    hide C.Logical;
    var t := Clean(F.SetBit(Seen(m), b, false));
    forall c | 0 <= c < m.nblocks ensures Shown(n, c) == t.disk[c] { SeenBlock(m, c); }
    assert Seen(n).disk == t.disk;
  }

  lemma SeenIsClean(m: Mounted)
    requires Fit(m)
    ensures Clean(Seen(m)) == Seen(m)
  {
    forall b | 0 <= b < m.nblocks ensures Clean(Seen(m)).disk[b] == Seen(m).disk[b] { SeenBlock(m, b); }
    assert Clean(Seen(m)).disk == Seen(m).disk;
  }
}
