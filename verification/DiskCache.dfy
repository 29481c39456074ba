// The requests that the buffer cache makes of the disk: when they are served, the cache's own account of the device is
// right; and what becomes of a write that the drive refuses.
module DiskCache {
  import opened Base
  import opened Elevator
  import H = DiskModel
  import P = DiskProofs
  import S = DiskService
  import X = DiskTransfer
  import C = CacheModel
  import K = CacheProofs

  predicate Known(h: H.Hd, dev: nat) { H.Configured(h) && H.Minor(dev) < 5 * h.count }

  // Sector j of block n of a device.
  function SectorPlace(h: H.Hd, dev: nat, n: nat, j: nat): H.Place
    requires Known(h, dev)
  {
    H.Place(H.Minor(dev) / 5, n * 4 + j + h.parts[H.Minor(dev)].start)
  }

  // Block n of a device, as its two sectors lie on the drive.
  function BlockOn(h: H.Hd, dev: nat, n: nat): Block
    requires Known(h, dev)
  {
    seq(BLOCK_SIZE, x requires 0 <= x < BLOCK_SIZE =>
      H.OnMedia(h, SectorPlace(h, dev, n, x / H.SECTOR_SIZE))[x % H.SECTOR_SIZE])
  }

  // The cache is right about the device.
  ghost predicate Stands(h: H.Hd, c: C.Cache, dev: nat) {
    Known(h, dev) && forall n: nat :: C.OnDisk(c, C.Key(dev, n)) == BlockOn(h, dev, n)
  }

  // And about a buffer.
  predicate Alike(b: H.Buf, e: C.Buf) {
    e.key == Some(C.Key(b.dev, b.block)) && e.dirty == b.dirty && e.uptodate == b.uptodate && e.data == b.data
  }

  // The first n bytes of one block, the rest of another.
  function Partly(a: Block, b: Block, n: nat): Block { a[..Min(n, BLOCK_SIZE)] + b[Min(n, BLOCK_SIZE)..] }

  // end_request after errors: the buffer stays changed, but counts as not valid; `part` has reached the device.
  function WriteFails(c: C.Cache, i: nat, part: Block): C.Cache
    requires i < |c.bufs| && c.bufs[i].key.Some?
  {
    C.SetBuf(c.(device := c.device[c.bufs[i].key.value := part]), i, c.bufs[i].(uptodate := false))
  }

  // ---- requests served -----------------------------------------------------------------------

  lemma SameBlock(h: H.Hd, g: H.Hd, r: Request, x: nat)
    requires Known(h, r.dev) && r.buf < |h.bufs| && X.SameDisk(h, g) && x < BLOCK_SIZE
    requires g.bufs[r.buf].block == h.bufs[r.buf].block
    ensures Known(g, r.dev) && BlockOn(g, r.dev, h.bufs[r.buf].block)[x] == X.ByteOnMedia(g, r, x)
  {
  }

  // Blocks of one device do not overlap.
  lemma OtherBlock(h: H.Hd, g: H.Hd, r: Request, n: nat)
    requires Known(h, r.dev) && r.buf < |h.bufs| && X.SameDisk(h, g) && n != h.bufs[r.buf].block
    requires forall p :: p != X.PlaceOf(h, r, 0) && p != X.PlaceOf(h, r, 1) ==> H.OnMedia(g, p) == H.OnMedia(h, p)
    ensures Known(g, r.dev) && BlockOn(g, r.dev, n) == BlockOn(h, r.dev, n)
  {
    forall x | 0 <= x < BLOCK_SIZE ensures BlockOn(g, r.dev, n)[x] == BlockOn(h, r.dev, n)[x] {
      assert x / H.SECTOR_SIZE < 2;
      assert SectorPlace(h, r.dev, n, x / H.SECTOR_SIZE) != X.PlaceOf(h, r, 0);
      assert SectorPlace(h, r.dev, n, x / H.SECTOR_SIZE) != X.PlaceOf(h, r, 1);
    }
  }

  // What a write has put on the device when it ends.
  lemma WriteDid(h: H.Hd, g: H.Hd, r: Request, n: nat, end: Option<bool>, used: set<nat>, c: C.Cache, d: C.Cache)
    requires X.Did(h, g, r, n, end, used) && r.cmd == Write && r.dev == h.bufs[r.buf].dev && Stands(h, c, r.dev)
    requires var k := C.Key(r.dev, h.bufs[r.buf].block);
      d.device == c.device[k := Partly(h.bufs[r.buf].data, C.OnDisk(c, k), n)]
    ensures Stands(g, d, r.dev)
  {
    var b := h.bufs[r.buf].block;
    X.DidFacts(h, g, r, n, end, used);
    forall m: nat ensures C.OnDisk(d, C.Key(r.dev, m)) == BlockOn(g, r.dev, m) {
      if m == b {
        forall x | 0 <= x < BLOCK_SIZE ensures BlockOn(g, r.dev, m)[x] == C.OnDisk(d, C.Key(r.dev, m))[x] {
          SameBlock(h, g, r, x);
          SameBlock(h, h, r, x);
        }
      } else {
        OtherBlock(h, g, r, m);
      }
    }
  }

  lemma ReadDid(h: H.Hd, g: H.Hd, r: Request, n: nat, end: Option<bool>, used: set<nat>, c: C.Cache)
    requires X.Did(h, g, r, n, end, used) && r.cmd == Read && r.dev == h.bufs[r.buf].dev && Stands(h, c, r.dev)
    ensures Stands(g, c, r.dev)
    ensures g.bufs[r.buf].data == Partly(C.OnDisk(c, C.Key(r.dev, h.bufs[r.buf].block)), h.bufs[r.buf].data, n)
  {
    var b := h.bufs[r.buf].block;
    X.DidFacts(h, g, r, n, end, used);
    forall m: nat ensures BlockOn(g, r.dev, m) == BlockOn(h, r.dev, m) {
      assert forall x :: 0 <= x < BLOCK_SIZE ==> BlockOn(g, r.dev, m)[x] == BlockOn(h, r.dev, m)[x];
    }
    var part := Partly(C.OnDisk(c, C.Key(r.dev, b)), h.bufs[r.buf].data, n);
    forall x | 0 <= x < BLOCK_SIZE ensures g.bufs[r.buf].data[x] == part[x] { SameBlock(h, h, r, x); }
    assert g.bufs[r.buf].data == part;
  }

  // Over every run, at the latest with the 14th interrupt a write of the cache has ended. If the last answer was
  // good, device and buffer are what the cache's write-back says; if not, part of the block has reached the device,
  // and the buffer is changed but not valid.
  lemma WriteServed(h: H.Hd, es: seq<S.Event>, c: C.Cache, i: nat)
    requires P.Inv(h) && h.queue != [] && P.Fresh(h.queue[0]) && h.queue[0].cmd == Write
    requires S.AllowedRun(h, es) && S.Irqs(es) >= H.MAX_ERRORS * H.SECTORS
    requires K.Inv(c) && i < |c.bufs| && c.bufs[i].dirty && h.queue[0].buf < |h.bufs|
    requires Alike(h.bufs[h.queue[0].buf], c.bufs[i]) && Stands(h, c, h.queue[0].dev)
    ensures var (r, k) := (h.queue[0], X.ServedAt(h, es));
      && 1 <= k <= |es| && S.Irqs(es[..k]) <= H.MAX_ERRORS * H.SECTORS && S.AllowedRun(h, es[..k])
      && var g := S.Run(h, es[..k]);
         && es[k - 1].Irq? && r.buf < |g.bufs|
         && (es[k - 1].ok ==>
              Stands(g, C.WriteBack(c, i), r.dev) && Alike(g.bufs[r.buf], C.WriteBack(c, i).bufs[i]))
         && (!es[k - 1].ok ==>
              exists n ::
                && 0 <= n < BLOCK_SIZE
                && var d := WriteFails(c, i, Partly(c.bufs[i].data, C.OnDisk(c, c.bufs[i].key.value), n));
                   Stands(g, d, r.dev) && Alike(g.bufs[r.buf], d.bufs[i]))
  {
    hide P.Queued, P.OnCourse, S.AllowedRun, S.Run, S.Irqs, X.ServedAt, X.Did, X.Used, K.Inv, Stands, Partly;
    X.RequestServed(h, es);
    K.OneBuffer(c, i);
    var (r, k) := (h.queue[0], X.ServedAt(h, es));
    var g := S.Run(h, es[..k]);
    var used := X.Used(es[..k]);
    HeadDev(h);
    var key := C.Key(r.dev, h.bufs[r.buf].block);
    if es[k - 1].ok {
      EndedBuffer(h, g, r, BLOCK_SIZE, true, used);
      AllOf(h.bufs[r.buf].data, C.OnDisk(c, key));
      WriteDid(h, g, r, BLOCK_SIZE, Some(true), used, c, C.WriteBack(c, i));
    } else {
      var n :| 0 <= n < BLOCK_SIZE && X.Did(h, g, r, n, Some(false), used);
      EndedBuffer(h, g, r, n, false, used);
      var d := WriteFails(c, i, Partly(c.bufs[i].data, C.OnDisk(c, key), n));
      WriteDid(h, g, r, n, Some(false), used, c, d);
    }
  }

  // A read of the cache: the buffer becomes the block that the cache thinks is on the device, and the device stays.
  lemma ReadServed(h: H.Hd, es: seq<S.Event>, c: C.Cache, i: nat)
    requires P.Inv(h) && h.queue != [] && P.Fresh(h.queue[0]) && h.queue[0].cmd == Read
    requires S.AllowedRun(h, es) && S.Irqs(es) >= H.MAX_ERRORS * H.SECTORS
    requires i < |c.bufs| && h.queue[0].buf < |h.bufs|
    requires Alike(h.bufs[h.queue[0].buf], c.bufs[i]) && Stands(h, c, h.queue[0].dev)
    ensures var (r, k) := (h.queue[0], X.ServedAt(h, es));
      && 1 <= k <= |es| && S.Irqs(es[..k]) <= H.MAX_ERRORS * H.SECTORS && S.AllowedRun(h, es[..k])
      && var g := S.Run(h, es[..k]);
         && es[k - 1].Irq? && r.buf < |g.bufs| && Stands(g, c, r.dev)
         && (es[k - 1].ok ==>
              Alike(g.bufs[r.buf], c.bufs[i].(data := C.OnDisk(c, c.bufs[i].key.value), uptodate := true)))
         && (!es[k - 1].ok ==> !g.bufs[r.buf].uptodate && g.bufs[r.buf].dirty == c.bufs[i].dirty)
  {
    hide P.Queued, P.OnCourse, S.AllowedRun, S.Run, S.Irqs, X.ServedAt, X.Did, X.Used, Stands, Partly;
    X.RequestServed(h, es);
    var (r, k) := (h.queue[0], X.ServedAt(h, es));
    var g := S.Run(h, es[..k]);
    var used := X.Used(es[..k]);
    HeadDev(h);
    if es[k - 1].ok {
      EndedBuffer(h, g, r, BLOCK_SIZE, true, used);
      ReadDid(h, g, r, BLOCK_SIZE, Some(true), used, c);
      AllOf(C.OnDisk(c, C.Key(r.dev, h.bufs[r.buf].block)), h.bufs[r.buf].data);
    } else {
      var n :| 0 <= n < BLOCK_SIZE && X.Did(h, g, r, n, Some(false), used);
      EndedBuffer(h, g, r, n, false, used);
      ReadDid(h, g, r, n, Some(false), used, c);
    }
  }

  lemma HeadDev(h: H.Hd)
    requires P.Inv(h) && h.queue != []
    ensures h.queue[0].buf < |h.bufs| && h.queue[0].dev == h.bufs[h.queue[0].buf].dev
  {
    assert P.Aligned(h, h.queue[0]);
  }

  lemma EndedBuffer(h: H.Hd, g: H.Hd, r: Request, n: nat, ok: bool, used: set<nat>)
    requires X.Did(h, g, r, n, Some(ok), used)
    ensures r.buf < |h.bufs| == |g.bufs|
    ensures var b := H.Finished(h.bufs[r.buf], r.cmd, ok);
      g.bufs[r.buf] == b.(data := g.bufs[r.buf].data)
    ensures r.cmd == Write ==> g.bufs[r.buf].data == h.bufs[r.buf].data
  {
  }

  lemma AllOf(a: Block, b: Block)
    ensures Partly(a, b, BLOCK_SIZE) == a
  {
  }

  // ---- a write that fails --------------------------------------------------------------------

  // Written again, it is as if it had not failed: nobody sees anything, and the device has the block.
  lemma TriedAgain(c: C.Cache, i: nat, part: Block)
    requires K.Inv(c) && i < |c.bufs| && c.bufs[i].dirty && c.bufs[i].key.Some?
    ensures var d := C.WriteBack(WriteFails(c, i, part), i);
      C.SetBuf(d, i, d.bufs[i].(uptodate := true)) == C.WriteBack(c, i)
  {
    K.OneBuffer(c, i);
    var k := c.bufs[i].key.value;
    assert c.device[k := part][k := c.bufs[i].data] == c.device[k := c.bufs[i].data];
    var d := C.WriteBack(WriteFails(c, i, part), i);
    assert C.SetBuf(d, i, d.bufs[i].(uptodate := true)).bufs == C.WriteBack(c, i).bufs;
  }

  // But bread reads a buffer that is not valid, changed or not: what was stored in it is gone, unless just that had
  // reached the device.
  lemma FailedWriteIsLost(c: C.Cache, i: nat, part: Block)
    requires K.Inv(c) && i < |c.bufs| && c.bufs[i].dirty && c.bufs[i].key.Some?
    ensures var k := c.bufs[i].key.value;
      var (d, g) := C.Bread(WriteFails(c, i, part), k, true);
      && g == C.Buffer(i) && d.bufs[i].data == part
      && (C.Logical(d, k) == C.Logical(c, k) <==> part == c.bufs[i].data)
  {
    var k := c.bufs[i].key.value;
    K.FindIs(c, k, i);
    var f := WriteFails(c, i, part);
    FoundThere(c, f, k, i);
    FoundThere(c, C.Bread(f, k, true).0, k, i);
  }

  lemma FoundThere(c: C.Cache, f: C.Cache, k: C.Key, i: nat)
    requires K.Inv(c) && i < |c.bufs| && c.bufs[i].key == Some(k) && |f.bufs| == |c.bufs|
    requires forall j :: 0 <= j < |c.bufs| ==> f.bufs[j].key == c.bufs[j].key
    ensures C.Find(f.bufs, k, 0) == i
  {
  }
}
