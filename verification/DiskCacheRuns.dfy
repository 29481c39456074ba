// The buffer cache over the request machine, over every run: any number of requests queued, and at each moment the
// cache's account of device and buffers is right but for the request under way.
module DiskCacheRuns {
  import opened Base
  import opened Elevator
  import H = DiskModel
  import P = DiskProofs
  import S = DiskService
  import X = DiskTransfer
  import C = CacheModel
  import K = CacheProofs
  import opened DiskCache

  // ---- the devices ---------------------------------------------------------------------------

  // Block n of the device lies in its partition.
  predicate InRange(h: H.Hd, dev: nat, n: nat)
    requires Known(h, dev)
  {
    n * 4 + H.SECTORS <= h.parts[H.Minor(dev)].size
  }

  predicate Disjoint(a: H.Partition, b: H.Partition) { a.start + a.size <= b.start || b.start + b.size <= a.start }

  // The devices in use are partitions that do not overlap, and all buffers of the disk are for them.
  ghost predicate Scope(h: H.Hd, devs: set<nat>) {
    && H.Configured(h)
    && (forall d :: d in devs ==> d / 0x100 == H.MAJOR_HD && H.Minor(d) < 5 * h.count)
    && (forall d, e :: d in devs && e in devs && d != e && H.Minor(d) / 5 == H.Minor(e) / 5 ==>
          Disjoint(h.parts[H.Minor(d)], h.parts[H.Minor(e)]))
    && forall i :: 0 <= i < |h.bufs| ==> InScope(h, h.bufs[i].dev, devs)
  }

  predicate InScope(h: H.Hd, dev: nat, devs: set<nat>) {
    dev / 0x100 == H.MAJOR_HD && H.Minor(dev) < 5 * h.count ==> dev in devs
  }

  lemma ScopeSame(h: H.Hd, g: H.Hd, devs: set<nat>)
    requires Scope(h, devs) && g.parts == h.parts && g.count == h.count && g.drives == h.drives
    requires forall i :: 0 <= i < |g.bufs| ==> InScope(g, g.bufs[i].dev, devs)
    ensures Scope(g, devs)
  {
  }

  lemma ScopeBuf(h: H.Hd, devs: set<nat>, i: nat)
    requires Scope(h, devs) && i < |h.bufs|
    ensures H.Configured(h) && InScope(h, h.bufs[i].dev, devs)
  {
  }

  lemma ScopeKeeps(h: H.Hd, g: H.Hd, devs: set<nat>)
    requires Scope(h, devs) && g.parts == h.parts && g.count == h.count && g.drives == h.drives
    requires |g.bufs| == |h.bufs| && forall i :: 0 <= i < |h.bufs| ==> g.bufs[i].dev == h.bufs[i].dev
    ensures Scope(g, devs)
  {
    hide Scope;
    forall i | 0 <= i < |g.bufs| ensures InScope(g, g.bufs[i].dev, devs) { ScopeBuf(h, devs, i); }
    ScopeSame(h, g, devs);
  }

  lemma ScopeKnown(h: H.Hd, devs: set<nat>)
    requires Scope(h, devs)
    ensures forall d :: d in devs ==> Known(h, d)
  {
  }

  // ---- what the cache makes of the end of a request ------------------------------------------

  // A good write is a write-back, a good read fills the buffer. A failed one has moved the bytes below r.at.
  function Completed(c: C.Cache, r: Request, ok: bool): (d: C.Cache)
    ensures |d.bufs| == |c.bufs|
  {
    if r.buf >= |c.bufs| || c.bufs[r.buf].key.None? then c
    else
      var (b, k) := (c.bufs[r.buf], c.bufs[r.buf].key.value);
      match (r.cmd, ok)
      case (Write, true) => C.SetBuf(c.(device := c.device[k := b.data]), r.buf, b.(dirty := false, uptodate := true))
      case (Write, false) => WriteFails(c, r.buf, Partly(b.data, C.OnDisk(c, k), r.at))
      case (Read, true) => C.SetBuf(c, r.buf, b.(data := C.OnDisk(c, k), uptodate := true))
      case (Read, false) => C.SetBuf(c, r.buf, b.(data := Partly(C.OnDisk(c, k), b.data, r.at), uptodate := false))
  }

  // That is the cache model's write-back, and its fill.
  lemma CompletedIs(c: C.Cache, r: Request)
    requires K.Inv(c) && r.buf < |c.bufs| && c.bufs[r.buf].key.Some?
    ensures r.cmd == Write && c.bufs[r.buf].dirty ==> Completed(c, r, true) == C.WriteBack(c, r.buf)
    ensures r.cmd == Read && !c.bufs[r.buf].uptodate ==>
      forall l: C.Key :: C.Logical(Completed(c, r, true), l) == C.Logical(c, l)
    ensures r.cmd == Read && !c.bufs[r.buf].uptodate ==> K.Inv(Completed(c, r, true))
  {
    K.OneBuffer(c, r.buf);
    var k := c.bufs[r.buf].key.value;
    hide C.Logical, K.Inv;
    if r.cmd == Read && !c.bufs[r.buf].uptodate {
      forall l: C.Key ensures C.Logical(Completed(c, r, true), l) == C.Logical(c, l) { K.FillKeeps(c, r.buf, k, l); }
      K.FillKeeps(c, r.buf, k, k);
    }
  }

  // The requests that do_hd_request ends because their partition cannot hold them.
  function Turned(h: H.Hd, c: C.Cache): (d: C.Cache)
    requires H.Shaped(h)
    ensures |d.bufs| == |c.bufs|
    decreases |h.queue|
  {
    if h.queue == [] || !H.Rejected(h, h.queue[0]) then c
    else Turned(H.EndRequest(h, false), Completed(c, h.queue[0], false))
  }

  // A new request in the queue, before do_hd_request.
  function Asked(h: H.Hd, cmd: Cmd, i: nat): H.Hd
    requires i < |h.bufs|
  {
    var b := h.bufs[i];
    var r := Request(H.FreeSlot(h.queue, 0), b.dev, cmd, 0, b.block * 4, H.SECTORS, 0, i);
    H.SetBuf(h, i, b.(locked := true)).(queue := Insert(h.queue, r))
  }

  predicate Starts(h: H.Hd, cmd: Cmd, i: nat)
    requires i < |h.bufs|
  {
    var b := h.bufs[i];
    b.dev / 0x100 == H.MAJOR_HD && !b.locked && !H.NothingToDo(cmd, b) && h.queue == []
  }

  ghost function CacheStep(h: H.Hd, c: C.Cache, e: S.Event): (d: C.Cache)
    requires S.Allowed(h, e) && P.Inv(h) && |c.bufs| == |h.bufs|
    ensures |d.bufs| == |c.bufs|
  {
    match e
    case Use(i, b) =>
      C.SetBuf(c, i, C.Buf(Some(C.Key(b.dev, b.block)), c.bufs[i].count, b.dirty, b.uptodate, b.data))
    case Ask(cmd, i) => if Starts(h, cmd, i) && H.Shaped(Asked(h, cmd, i)) then Turned(Asked(h, cmd, i), c) else c
    case Irq(ok) =>
      if h.queue == [] || h.phase.Idle? || !H.HeadStep(h, ok).1 then c
      else Turned(H.HeadStep(h, ok).0, Completed(c, h.queue[0], ok))
  }

  // ---- the two states side by side -----------------------------------------------------------

  predicate SameFlags(b: H.Buf, e: C.Buf) {
    e.key == Some(C.Key(b.dev, b.block)) && e.dirty == b.dirty && e.uptodate == b.uptodate
  }

  // Every queued request is for a device of the disk.
  ghost predicate QueueInScope(h: H.Hd, devs: set<nat>) {
    forall k :: 0 <= k < |h.queue| ==> InScope(h, h.queue[k].dev, devs) && h.queue[k].dev / 0x100 == H.MAJOR_HD
  }

  ghost predicate BufsAgree(h: H.Hd, c: C.Cache) {
    |c.bufs| == |h.bufs| && forall i :: 0 <= i < |h.bufs| ==> Alike(h.bufs[i], c.bufs[i])
  }

  ghost predicate DiskAgrees(h: H.Hd, c: C.Cache, devs: set<nat>) {
    forall d, n: nat :: d in devs && Known(h, d) && InRange(h, d, n) ==> C.OnDisk(c, C.Key(d, n)) == BlockOn(h, d, n)
  }

  // No request is under way: everything agrees.
  ghost predicate Settled(h: H.Hd, c: C.Cache, devs: set<nat>) {
    && P.Queued(h) && Scope(h, devs) && QueueInScope(h, devs) && BufsAgree(h, c) && DiskAgrees(h, c, devs)
    && forall k :: 0 <= k < |h.queue| ==> P.Fresh(h.queue[k])
  }

  // Buffer i, or block n of device d, is what the first request is about.
  predicate ReadsInto(h: H.Hd, i: nat) { h.queue != [] && h.queue[0].cmd == Read && h.queue[0].buf == i }

  predicate WritesTo(h: H.Hd, d: nat, n: nat) {
    && h.queue != [] && h.queue[0].cmd == Write && h.queue[0].buf < |h.bufs|
    && h.bufs[h.queue[0].buf].dev == d && h.bufs[h.queue[0].buf].block == n
  }

  // The first request has moved the bytes below `at`.
  ghost predicate HeadMoved(h: H.Hd, c: C.Cache) {
    h.queue != [] ==>
      var q := h.queue[0];
      && q.buf < |h.bufs| == |c.bufs| && Known(h, q.dev) && q.at <= BLOCK_SIZE
      && var (b, e) := (h.bufs[q.buf], c.bufs[q.buf]);
         && q.dev == b.dev && InRange(h, q.dev, b.block)
         && (q.cmd == Read ==> b.data == Partly(C.OnDisk(c, C.Key(b.dev, b.block)), e.data, q.at))
         && (q.cmd == Write ==> BlockOn(h, b.dev, b.block) == Partly(e.data, C.OnDisk(c, C.Key(b.dev, b.block)), q.at))
  }

  ghost predicate BufsJoin(h: H.Hd, c: C.Cache) {
    && |c.bufs| == |h.bufs|
    && (forall i :: 0 <= i < |h.bufs| ==> SameFlags(h.bufs[i], c.bufs[i]))
    && forall i :: 0 <= i < |h.bufs| && !ReadsInto(h, i) ==> h.bufs[i].data == c.bufs[i].data
  }

  ghost predicate DiskJoins(h: H.Hd, c: C.Cache, devs: set<nat>) {
    forall d, n: nat :: d in devs && Known(h, d) && InRange(h, d, n) && !WritesTo(h, d, n) ==>
      C.OnDisk(c, C.Key(d, n)) == BlockOn(h, d, n)
  }

  // Everything agrees, but for what the first request has done so far.
  ghost predicate Joined(h: H.Hd, c: C.Cache, devs: set<nat>) {
    P.Inv(h) && Scope(h, devs) && QueueInScope(h, devs) && HeadMoved(h, c) && BufsJoin(h, c) && DiskJoins(h, c, devs)
  }

  // All buffers but number i are as before on both sides.
  predicate OthersSame(h: H.Hd, c: C.Cache, g: H.Hd, d: C.Cache, i: nat) {
    && |g.bufs| == |h.bufs| && |d.bufs| == |c.bufs| == |h.bufs|
    && forall j :: 0 <= j < |h.bufs| && j != i ==> g.bufs[j] == h.bufs[j] && d.bufs[j] == c.bufs[j]
  }

  lemma EndBufs(h: H.Hd, c: C.Cache, g: H.Hd, d: C.Cache, i: nat)
    requires BufsJoin(h, c) && OthersSame(h, c, g, d, i) && i < |h.bufs| && Alike(g.bufs[i], d.bufs[i])
    requires h.queue != [] ==> h.queue[0].buf == i
    ensures BufsAgree(g, d)
  {
  }

  // All blocks but block m of device e are as before on both sides.
  ghost predicate BlocksSame(h: H.Hd, c: C.Cache, g: H.Hd, d: C.Cache, devs: set<nat>, e: nat, m: nat) {
    && g.parts == h.parts && g.count == h.count && g.drives == h.drives
    && forall f, n: nat :: f in devs && Known(h, f) && InRange(h, f, n) && (f != e || n != m) ==>
         BlockOn(g, f, n) == BlockOn(h, f, n) && C.OnDisk(d, C.Key(f, n)) == C.OnDisk(c, C.Key(f, n))
  }

  lemma EndDisk(h: H.Hd, c: C.Cache, g: H.Hd, d: C.Cache, devs: set<nat>, e: nat, m: nat)
    requires DiskJoins(h, c, devs) && BlocksSame(h, c, g, d, devs, e, m) && Known(g, e)
    requires C.OnDisk(d, C.Key(e, m)) == BlockOn(g, e, m)
    requires forall f, n: nat :: WritesTo(h, f, n) ==> f == e && n == m
    ensures DiskAgrees(g, d, devs)
  {
    hide BlockOn;
  }

  // In particular for every buffer that is not locked.
  lemma UnlockedIsAlike(h: H.Hd, c: C.Cache, devs: set<nat>, i: nat)
    requires Joined(h, c, devs) && i < |h.bufs| && !h.bufs[i].locked
    ensures i < |c.bufs| && Alike(h.bufs[i], c.bufs[i])
  {
    if h.queue != [] { assert P.Names(h.queue, h.queue[0].buf); }
  }

  // ---- putting a request to the drive --------------------------------------------------------

  lemma QueuedAt(h: H.Hd, k: nat)
    requires P.Queued(h) && k < |h.queue|
    ensures P.Aligned(h, h.queue[k])
  {
  }

  // Ended before anything was moved.
  lemma TurnedDown(h: H.Hd, c: C.Cache, devs: set<nat>)
    requires Settled(h, c, devs) && h.queue != []
    ensures H.Shaped(h) && Settled(H.EndRequest(h, false), Completed(c, h.queue[0], false), devs)
  {
    hide P.Queued, Scope, BlockOn, Partly;
    P.EndFreesOne(h, false);
    ScopeKnown(h, devs);
    QueuedAt(h, 0);
    var q := h.queue[0];
    var (g, d) := (H.EndRequest(h, false), Completed(c, q, false));
    var k := c.bufs[q.buf].key.value;
    NothingOf(c.bufs[q.buf].data, C.OnDisk(c, k));
    NothingOf(C.OnDisk(c, k), c.bufs[q.buf].data);
    assert forall l :: 0 <= l < |g.queue| ==> g.queue[l] == h.queue[l + 1];
    ScopeKeeps(h, g, devs);
    SameMedia(h, g);
    forall l: C.Key ensures C.OnDisk(d, l) == C.OnDisk(c, l) {}
  }

  lemma NothingOf(a: Block, b: Block)
    ensures Partly(a, b, 0) == b
  {
  }

  lemma SameMedia(h: H.Hd, g: H.Hd)
    requires g.parts == h.parts && g.count == h.count && g.drives == h.drives && g.media == h.media
    ensures forall d: nat :: Known(h, d) == Known(g, d)
    ensures forall d: nat, n: nat :: Known(h, d) ==> BlockOn(g, d, n) == BlockOn(h, d, n)
  {
    forall d: nat, n: nat | Known(h, d) ensures BlockOn(g, d, n) == BlockOn(h, d, n) { SameBlockOn(h, g, d, n); }
  }

  lemma SameBlockOn(h: H.Hd, g: H.Hd, d: nat, n: nat)
    requires g.parts == h.parts && g.count == h.count && g.drives == h.drives && g.media == h.media && Known(h, d)
    ensures Known(g, d) && BlockOn(g, d, n) == BlockOn(h, d, n)
  {
    var (a, b) := (BlockOn(g, d, n), BlockOn(h, d, n));
    assert forall x :: 0 <= x < BLOCK_SIZE ==> a[x] == b[x];
  }

  lemma CommandJoins(h: H.Hd, c: C.Cache, devs: set<nat>)
    requires Settled(h, c, devs) && H.Shaped(h) && h.queue != [] && !H.Rejected(h, h.queue[0])
    ensures Joined(H.Command(h), c, devs)
  {
    hide P.Queued, Scope, BlockOn, Partly;
    P.CommandOnCourse(h);
    ScopeKnown(h, devs);
    QueuedAt(h, 0);
    var q := h.queue[0];
    var g := H.Command(h);
    ScopeKeeps(h, g, devs);
    SameMedia(h, g);
    var k := c.bufs[q.buf].key.value;
    NothingOf(c.bufs[q.buf].data, C.OnDisk(c, k));
    NothingOf(C.OnDisk(c, k), c.bufs[q.buf].data);
  }

  lemma {:induction false} StartJoins(h: H.Hd, c: C.Cache, devs: set<nat>)
    requires Settled(h, c, devs)
    ensures H.Shaped(h) && Joined(H.DoHdRequest(h), Turned(h, c), devs)
    decreases |h.queue|
  {
    hide Settled, Joined, H.EndRequest, H.Command, H.Rejected, Completed;
    SettledShaped(h, c, devs);
    if h.queue == [] {
      IdleJoins(h, c, devs);
    } else if H.Rejected(h, h.queue[0]) {
      TurnedDown(h, c, devs);
      StartJoins(H.EndRequest(h, false), Completed(c, h.queue[0], false), devs);
    } else {
      CommandJoins(h, c, devs);
    }
  }

  lemma SettledShaped(h: H.Hd, c: C.Cache, devs: set<nat>)
    requires Settled(h, c, devs)
    ensures H.Shaped(h)
  {
    P.InvShaped(h);
  }

  lemma IdleJoins(h: H.Hd, c: C.Cache, devs: set<nat>)
    requires Settled(h, c, devs) && h.queue == []
    ensures Joined(h.(phase := H.Idle), c, devs)
  {
    P.IdleQueued(h);
    SameMedia(h, h.(phase := H.Idle));
  }

  // ---- one sector ----------------------------------------------------------------------------

  // Where the drive is.
  lemma HeadPlace(h: H.Hd)
    requires P.Inv(h) && h.queue != []
    ensures var q := h.queue[0];
      && q.buf < |h.bufs| && q.dev == h.bufs[q.buf].dev && Known(h, q.dev) && h.phase.Busy?
      && (q.at == 0 || q.at == H.SECTOR_SIZE) && q.at + H.SECTOR_SIZE * q.left == BLOCK_SIZE && q.left >= 1
      && h.phase.place == SectorPlace(h, q.dev, h.bufs[q.buf].block, q.at / H.SECTOR_SIZE)
      && h.phase.sent == H.Chunk(h.bufs[q.buf].data, q.at)
  {
    assert P.Aligned(h, h.queue[0]);
  }

  // The next sector of a takes the place of that of b.
  lemma PartlyMore(a: Block, b: Block, n: nat, d: Block)
    requires n == 0 || n == H.SECTOR_SIZE
    requires forall x :: 0 <= x < BLOCK_SIZE ==>
      d[x] == if n <= x < n + H.SECTOR_SIZE then a[x] else Partly(a, b, n)[x]
    ensures d == Partly(a, b, n + H.SECTOR_SIZE)
  {
    assert forall x :: 0 <= x < BLOCK_SIZE ==> d[x] == Partly(a, b, n + H.SECTOR_SIZE)[x];
  }

  // A sector read.
  lemma ReadMoves(h: H.Hd, a: Block, b: Block)
    requires P.Inv(h) && H.Shaped(h) && h.queue != [] && h.queue[0].cmd == Read && h.phase.Busy?
    requires var q := h.queue[0];
      q.buf < |h.bufs| && Known(h, q.dev) && a == BlockOn(h, q.dev, h.bufs[q.buf].block)
      && h.bufs[q.buf].data == Partly(a, b, q.at)
    ensures var (q, g) := (h.queue[0], H.Moved(h));
      q.buf < |g.bufs| && g.bufs[q.buf].data == Partly(a, b, q.at + H.SECTOR_SIZE)
  {
    HeadPlace(h);
    var (q, g) := (h.queue[0], H.Moved(h));
    var s := H.OnMedia(h, h.phase.place);
    forall x | 0 <= x < BLOCK_SIZE
      ensures g.bufs[q.buf].data[x] == if q.at <= x < q.at + H.SECTOR_SIZE then a[x] else Partly(a, b, q.at)[x]
    {
      if q.at <= x < q.at + H.SECTOR_SIZE {
        assert x / H.SECTOR_SIZE == q.at / H.SECTOR_SIZE && x % H.SECTOR_SIZE == x - q.at;
        assert a[x] == s[x - q.at];
      }
    }
    hide *;
    PartlyMore(a, b, q.at, g.bufs[q.buf].data);
  }

  // A sector written changes its own block and no other block of any device in use.
  lemma WriteMoves(h: H.Hd, devs: set<nat>, a: Block, b: Block)
    requires P.Inv(h) && H.Shaped(h) && Scope(h, devs) && h.queue != [] && h.queue[0].cmd == Write && h.phase.Busy?
    requires var q := h.queue[0];
      && q.buf < |h.bufs| && q.dev in devs && InRange(h, q.dev, h.bufs[q.buf].block) && a == h.bufs[q.buf].data
      && BlockOn(h, q.dev, h.bufs[q.buf].block) == Partly(a, b, q.at)
    ensures var (q, g) := (h.queue[0], H.Moved(h));
      && Known(g, q.dev)
      && BlockOn(g, q.dev, h.bufs[q.buf].block) == Partly(a, b, q.at + H.SECTOR_SIZE)
      && forall d, n: nat :: d in devs && InRange(h, d, n) && (d != q.dev || n != h.bufs[q.buf].block) ==>
           Known(g, d) && BlockOn(g, d, n) == BlockOn(h, d, n)
  {
    HeadPlace(h);
    var (q, g) := (h.queue[0], H.Moved(h));
    var m := h.bufs[q.buf].block;
    forall x | 0 <= x < BLOCK_SIZE
      ensures BlockOn(g, q.dev, m)[x] == if q.at <= x < q.at + H.SECTOR_SIZE then a[x] else Partly(a, b, q.at)[x]
    {
      if q.at <= x < q.at + H.SECTOR_SIZE {
        assert x / H.SECTOR_SIZE == q.at / H.SECTOR_SIZE && x % H.SECTOR_SIZE == x - q.at;
      } else {
        assert x / H.SECTOR_SIZE != q.at / H.SECTOR_SIZE;
        assert BlockOn(g, q.dev, m)[x] == BlockOn(h, q.dev, m)[x];
      }
    }
    PartlyMore(a, b, q.at, BlockOn(g, q.dev, m));
    forall d, n: nat | d in devs && InRange(h, d, n) && (d != q.dev || n != m)
      ensures Known(g, d) && BlockOn(g, d, n) == BlockOn(h, d, n)
    {
      OtherPlaces(h, devs, q.dev, m, q.at / H.SECTOR_SIZE, d, n);
      AwayFrom(h, g, h.phase.place, d, n);
    }
  }

  lemma AwayFrom(h: H.Hd, g: H.Hd, p: H.Place, d: nat, n: nat)
    requires Known(h, d) && g == h.(media := g.media)
    requires forall q :: q != p ==> H.OnMedia(g, q) == H.OnMedia(h, q)
    requires forall j: nat :: j < 2 ==> SectorPlace(h, d, n, j) != p
    ensures Known(g, d) && BlockOn(g, d, n) == BlockOn(h, d, n)
  {
    var (a, b) := (BlockOn(g, d, n), BlockOn(h, d, n));
    forall x | 0 <= x < BLOCK_SIZE ensures a[x] == b[x] { assert x / H.SECTOR_SIZE < 2; }
  }

  // Two blocks of devices in use share no sector.
  lemma OtherPlaces(h: H.Hd, devs: set<nat>, e: nat, m: nat, i: nat, d: nat, n: nat)
    requires Scope(h, devs) && e in devs && d in devs && InRange(h, e, m) && InRange(h, d, n) && i < 2
    requires d != e || n != m
    ensures forall j: nat :: j < 2 ==> SectorPlace(h, d, n, j) != SectorPlace(h, e, m, i)
  {
    if d != e { assert H.Minor(d) != H.Minor(e); }
  }

  // ---- one interrupt -------------------------------------------------------------------------

  // A state in which only r's buffer or the drive differ, as far as the two tell of them.
  lemma HeadInScope(h: H.Hd, c: C.Cache, devs: set<nat>)
    requires Joined(h, c, devs) && h.queue != []
    ensures h.queue[0].dev in devs
  {
    assert InScope(h, h.queue[0].dev, devs);
  }

  lemma MovedRead(h: H.Hd, c: C.Cache, devs: set<nat>)
    requires Joined(h, c, devs) && H.Shaped(h) && h.queue != [] && h.queue[0].cmd == Read && h.phase.Busy?
    ensures var (q, g) := (h.queue[0], H.Moved(h));
      && q.buf < |h.bufs| == |c.bufs| && Known(h, q.dev)
      && g == h.(bufs := g.bufs) && |g.bufs| == |h.bufs|
      && (forall i :: 0 <= i < |h.bufs| && i != q.buf ==> g.bufs[i] == h.bufs[i])
      && g.bufs[q.buf] == h.bufs[q.buf].(data := g.bufs[q.buf].data)
      && g.bufs[q.buf].data ==
           Partly(C.OnDisk(c, C.Key(h.bufs[q.buf].dev, h.bufs[q.buf].block)), c.bufs[q.buf].data, q.at + H.SECTOR_SIZE)
  {
    hide P.Queued, BlockOn, Partly;
    HeadInScope(h, c, devs);
    var q := h.queue[0];
    ReadMoves(h, C.OnDisk(c, C.Key(h.bufs[q.buf].dev, h.bufs[q.buf].block)), c.bufs[q.buf].data);
  }

  lemma MovedWrite(h: H.Hd, c: C.Cache, devs: set<nat>)
    requires Joined(h, c, devs) && H.Shaped(h) && h.queue != [] && h.queue[0].cmd == Write && h.phase.Busy?
    ensures var (q, g) := (h.queue[0], H.Moved(h));
      && q.buf < |h.bufs| == |c.bufs| && Known(g, q.dev) && g == h.(media := g.media)
      && BlockOn(g, q.dev, h.bufs[q.buf].block) ==
           Partly(c.bufs[q.buf].data, C.OnDisk(c, C.Key(h.bufs[q.buf].dev, h.bufs[q.buf].block)), q.at + H.SECTOR_SIZE)
      && forall d, n: nat :: d in devs && InRange(h, d, n) && (d != q.dev || n != h.bufs[q.buf].block) ==>
           Known(g, d) && BlockOn(g, d, n) == BlockOn(h, d, n)
  {
    hide P.Queued, BlockOn, Partly;
    HeadInScope(h, c, devs);
    var q := h.queue[0];
    WriteMoves(h, devs, c.bufs[q.buf].data, C.OnDisk(c, C.Key(h.bufs[q.buf].dev, h.bufs[q.buf].block)));
  }

  // How the interrupt that ends the first request ends it,
  lemma EndedAs(h: H.Hd, ok: bool)
    requires H.Shaped(h) && h.queue != [] && h.phase.Busy? && H.HeadStep(h, ok).1
    ensures var (q, m) := (h.queue[0], if ok then H.Moved(h) else h);
      && q.buf < |m.bufs| && (ok ==> q.left == 1)
      && H.HeadStep(h, ok).0 == H.SetBuf(m, q.buf, H.Finished(m.bufs[q.buf], q.cmd, ok)).(queue := h.queue[1..])
  {
    hide H.Rejected;
    var q := h.queue[0];
    assert h.queue[0 := q.(errors := q.errors + 1)][1..] == h.queue[1..];
  }

  // and how another one leaves it.
  lemma GoesAs(h: H.Hd, ok: bool)
    requires H.Shaped(h) && h.queue != [] && h.phase.Busy? && !H.HeadStep(h, ok).1
    ensures var (q, m, g) := (h.queue[0], if ok then H.Moved(h) else h, H.HeadStep(h, ok).0);
      && g == m.(queue := g.queue, phase := g.phase) && g.queue != [] && g.queue == h.queue[0 := g.queue[0]]
      && g.queue[0].buf == q.buf && g.queue[0].cmd == q.cmd && g.queue[0].dev == q.dev
      && g.queue[0].at == if ok then q.at + H.SECTOR_SIZE else q.at
  {
    hide H.Rejected;
  }

  // The flags of a buffer, and its data unless it is being read into.
  lemma JoinFlags(h: H.Hd, c: C.Cache, i: nat)
    requires BufsJoin(h, c) && i < |h.bufs|
    ensures i < |c.bufs| == |h.bufs| && SameFlags(h.bufs[i], c.bufs[i])
    ensures !ReadsInto(h, i) ==> h.bufs[i].data == c.bufs[i].data
  {
  }

  lemma CompletedRead(c: C.Cache, r: Request, ok: bool)
    requires r.buf < |c.bufs| && c.bufs[r.buf].key.Some? && r.cmd == Read
    ensures var (d, b, k) := (Completed(c, r, ok), c.bufs[r.buf], c.bufs[r.buf].key.value);
      && d == c.(bufs := d.bufs) && (forall j :: 0 <= j < |c.bufs| && j != r.buf ==> d.bufs[j] == c.bufs[j])
      && d.bufs[r.buf] ==
           b.(data := if ok then C.OnDisk(c, k) else Partly(C.OnDisk(c, k), b.data, r.at), uptodate := ok)
  {
  }

  lemma CompletedWrite(c: C.Cache, r: Request, ok: bool)
    requires r.buf < |c.bufs| && c.bufs[r.buf].key.Some? && r.cmd == Write
    ensures var (d, b, k) := (Completed(c, r, ok), c.bufs[r.buf], c.bufs[r.buf].key.value);
      && (forall j :: 0 <= j < |c.bufs| && j != r.buf ==> d.bufs[j] == c.bufs[j])
      && d.bufs[r.buf] == b.(dirty := b.dirty && !ok, uptodate := ok)
      && (forall l: C.Key :: l != k ==> C.OnDisk(d, l) == C.OnDisk(c, l))
      && C.OnDisk(d, k) == if ok then b.data else Partly(b.data, C.OnDisk(c, k), r.at)
  {
  }

  lemma SameDisk(h: H.Hd, c: C.Cache, g: H.Hd, d: C.Cache, devs: set<nat>)
    requires DiskJoins(h, c, devs) && d.device == c.device && h.queue != [] && h.queue[0].cmd == Read
    requires g.parts == h.parts && g.count == h.count && g.drives == h.drives && g.media == h.media
    ensures DiskAgrees(g, d, devs)
  {
    SameMedia(h, g);
    hide BlockOn;
    assert forall l: C.Key :: C.OnDisk(d, l) == C.OnDisk(c, l);
  }

  lemma ReadEnds(h: H.Hd, c: C.Cache, devs: set<nat>, ok: bool)
    requires Joined(h, c, devs) && H.Shaped(h) && h.queue != [] && h.phase.Busy? && H.HeadStep(h, ok).1
    requires h.queue[0].cmd == Read
    ensures Settled(H.HeadStep(h, ok).0, Completed(c, h.queue[0], ok), devs)
  {
    hide P.Queued, H.Moved, H.HeadStep, Partly, BlockOn, Scope, BufsJoin, DiskJoins, BufsAgree, DiskAgrees, Completed;
    var q := h.queue[0];
    EndedAs(h, ok);
    EndKeeps(h, ok);
    HeadPlace(h);
    if ok { MovedRead(h, c, devs); }
    var (b, k) := (h.bufs[q.buf], C.Key(h.bufs[q.buf].dev, h.bufs[q.buf].block));
    AllOf(C.OnDisk(c, k), c.bufs[q.buf].data);
    var (g, d) := (H.HeadStep(h, ok).0, Completed(c, q, ok));
    ScopeKnown(h, devs);
    ScopeKeeps(h, g, devs);
    SameMedia(h, g);
    JoinFlags(h, c, q.buf);
    CompletedRead(c, q, ok);
    EndBufs(h, c, g, d, q.buf);
    SameDisk(h, c, g, d, devs);
  }

  lemma WriteEnds(h: H.Hd, c: C.Cache, devs: set<nat>, ok: bool)
    requires Joined(h, c, devs) && H.Shaped(h) && h.queue != [] && h.phase.Busy? && H.HeadStep(h, ok).1
    requires h.queue[0].cmd == Write
    ensures Settled(H.HeadStep(h, ok).0, Completed(c, h.queue[0], ok), devs)
  {
    hide P.Queued, H.Moved, H.HeadStep, Partly, BlockOn, Scope, BufsJoin, DiskJoins, BufsAgree, DiskAgrees, Completed;
    var q := h.queue[0];
    EndedAs(h, ok);
    EndKeeps(h, ok);
    HeadPlace(h);
    HeadInScope(h, c, devs);
    var m := if ok then H.Moved(h) else h;
    if ok { MovedWrite(h, c, devs); }
    var k := C.Key(h.bufs[q.buf].dev, h.bufs[q.buf].block);
    AllOf(c.bufs[q.buf].data, C.OnDisk(c, k));
    var (g, d) := (H.HeadStep(h, ok).0, Completed(c, q, ok));
    ScopeKnown(h, devs);
    ScopeKeeps(h, g, devs);
    SameMedia(m, g);
    JoinFlags(h, c, q.buf);
    CompletedWrite(c, q, ok);
    EndBufs(h, c, g, d, q.buf);
    EndDisk(h, c, g, d, devs, k.dev, k.block);
  }

  // What the invariant says when the first request has ended.
  lemma EndKeeps(h: H.Hd, ok: bool)
    requires P.Inv(h) && H.Shaped(h) && h.queue != [] && h.phase.Busy? && H.HeadStep(h, ok).1
    ensures P.Queued(H.HeadStep(h, ok).0) && forall k :: 1 <= k < |h.queue| ==> P.Fresh(h.queue[k])
  {
    P.HeadStepKeeps(h, ok);
  }

  lemma EndJoins(h: H.Hd, c: C.Cache, devs: set<nat>, ok: bool)
    requires Joined(h, c, devs) && H.Shaped(h) && h.queue != [] && h.phase.Busy? && H.HeadStep(h, ok).1
    ensures Settled(H.HeadStep(h, ok).0, Completed(c, h.queue[0], ok), devs)
  {
    hide Joined, Settled, H.HeadStep, Completed;
    if h.queue[0].cmd == Read { ReadEnds(h, c, devs, ok); } else { WriteEnds(h, c, devs, ok); }
  }

  lemma GoJoins(h: H.Hd, c: C.Cache, devs: set<nat>, ok: bool)
    requires Joined(h, c, devs) && H.Shaped(h) && h.queue != [] && h.phase.Busy? && !H.HeadStep(h, ok).1
    ensures Joined(H.HeadStep(h, ok).0, c, devs)
  {
    hide P.Queued, P.OnCourse, H.Moved, H.HeadStep, Partly, BlockOn, Scope;
    var q := h.queue[0];
    GoesAs(h, ok);
    P.HeadStepKeeps(h, ok);
    HeadPlace(h);
    HeadInScope(h, c, devs);
    var m := if ok then H.Moved(h) else h;
    if ok { if q.cmd == Read { MovedRead(h, c, devs); } else { MovedWrite(h, c, devs); } }
    var g := H.HeadStep(h, ok).0;
    HeadPlace(g);
    ScopeKnown(h, devs);
    ScopeKeeps(h, g, devs);
    SameMedia(m, g);
    if q.cmd == Read { SameMedia(h, m); }
    assert forall k :: 0 <= k < |g.queue| ==> g.queue[k].dev == h.queue[k].dev;
  }

  // ---- any event -----------------------------------------------------------------------------

  lemma UseJoins(h: H.Hd, c: C.Cache, devs: set<nat>, i: nat, b: H.Buf)
    requires Joined(h, c, devs) && S.Allowed(h, S.Use(i, b)) && InScope(h, b.dev, devs)
    ensures Joined(S.Step(h, S.Use(i, b)), CacheStep(h, c, S.Use(i, b)), devs)
  {
    hide P.Queued, P.OnCourse, Partly, Scope, BlockOn, BufsJoin, DiskJoins;
    S.UseKeeps(h, i, b);
    JoinFlags(h, c, i);
    var (g, d) := (H.SetBuf(h, i, b), CacheStep(h, c, S.Use(i, b)));
    ScopeKnown(h, devs);
    forall j | 0 <= j < |g.bufs| ensures InScope(g, g.bufs[j].dev, devs) { ScopeBuf(h, devs, j); }
    ScopeSame(h, g, devs);
    NotTheHead(h, i);
    SameMedia(h, g);
    UsedBuf(h, c, g, d, i);
    SameAtHead(h, c, g, d, devs);
  }

  lemma UsedBuf(h: H.Hd, c: C.Cache, g: H.Hd, d: C.Cache, i: nat)
    requires BufsJoin(h, c) && OthersSame(h, c, g, d, i) && i < |h.bufs| && Alike(g.bufs[i], d.bufs[i])
    requires g.queue == h.queue && (h.queue != [] ==> h.queue[0].buf != i)
    ensures BufsJoin(g, d)
  {
  }

  // Neither drive nor device changed, nor the buffer of the first request.
  lemma SameAtHead(h: H.Hd, c: C.Cache, g: H.Hd, d: C.Cache, devs: set<nat>)
    requires DiskJoins(h, c, devs) && d.device == c.device && |g.bufs| == |h.bufs|
    requires g.parts == h.parts && g.count == h.count && g.drives == h.drives && g.media == h.media
    requires h.queue == [] <==> g.queue == []
    requires h.queue != [] ==>
      && g.queue[0].buf == h.queue[0].buf && g.queue[0].cmd == h.queue[0].cmd
      && (h.queue[0].buf < |h.bufs| ==>
           && g.bufs[h.queue[0].buf].dev == h.bufs[h.queue[0].buf].dev
           && g.bufs[h.queue[0].buf].block == h.bufs[h.queue[0].buf].block)
    ensures DiskJoins(g, d, devs)
  {
    SameMedia(h, g);
    hide BlockOn;
    assert forall l: C.Key :: C.OnDisk(d, l) == C.OnDisk(c, l);
  }

  lemma NotTheHead(h: H.Hd, i: nat)
    requires P.Inv(h) && i < |h.bufs| && !h.bufs[i].locked
    ensures h.queue != [] ==> h.queue[0].buf != i
  {
    if h.queue != [] { assert P.Names(h.queue, h.queue[0].buf); }
  }

  // A request that waits behind another.
  lemma QueuedJoins(h: H.Hd, c: C.Cache, devs: set<nat>, cmd: Cmd, i: nat)
    requires Joined(h, c, devs) && i < |h.bufs| && !h.bufs[i].locked && h.bufs[i].dev / 0x100 == H.MAJOR_HD
    requires h.queue != [] && P.Inv(Asked(h, cmd, i))
    ensures Joined(Asked(h, cmd, i), c, devs)
  {
    hide P.Queued, P.OnCourse, Partly, Insert, Asked, BlockOn, H.FreeSlot, Scope;
    var g := Asked(h, cmd, i);
    AskedQueue(h, devs, cmd, i);
    AskedRest(h, cmd, i);
    ScopeKnown(h, devs);
    NotTheHead(h, i);
    SameMedia(h, g);
    forall j | 0 <= j < |g.bufs| ensures SameFlags(g.bufs[j], c.bufs[j]) { assert SameFlags(h.bufs[j], c.bufs[j]); }
  }

  // Only the queue and a lock are new.
  lemma AskedRest(h: H.Hd, cmd: Cmd, i: nat)
    requires i < |h.bufs|
    ensures var g := Asked(h, cmd, i);
      && g == h.(queue := g.queue, bufs := g.bufs) && |g.bufs| == |h.bufs|
      && forall j :: 0 <= j < |h.bufs| ==> g.bufs[j] == h.bufs[j].(locked := g.bufs[j].locked)
  {
    hide Insert;
  }

  lemma AskedQueue(h: H.Hd, devs: set<nat>, cmd: Cmd, i: nat)
    requires QueueInScope(h, devs) && Scope(h, devs) && i < |h.bufs| && h.bufs[i].dev / 0x100 == H.MAJOR_HD
    ensures QueueInScope(Asked(h, cmd, i), devs) && Scope(Asked(h, cmd, i), devs)
    ensures h.queue != [] ==> Asked(h, cmd, i).queue != [] && Asked(h, cmd, i).queue[0] == h.queue[0]
  {
    hide Insert, H.FreeSlot, Scope;
    var g := Asked(h, cmd, i);
    var b := h.bufs[i];
    var r := Request(H.FreeSlot(h.queue, 0), b.dev, cmd, 0, b.block * 4, H.SECTORS, 0, i);
    InsertKeeps(h.queue, r);
    InsertedFrom(h.queue, r);
    ScopeBuf(h, devs, i);
    ScopeKeeps(h, g, devs);
    forall k | 0 <= k < |g.queue| ensures InScope(g, g.queue[k].dev, devs) && g.queue[k].dev / 0x100 == H.MAJOR_HD {
      if g.queue[k] != r { var l :| 0 <= l < |h.queue| && h.queue[l] == g.queue[k]; }
    }
  }

  lemma InsertedFrom(q: seq<Request>, r: Request)
    ensures forall k :: 0 <= k < |Insert(q, r)| ==> Insert(q, r)[k] == r || Insert(q, r)[k] in q
  {
    hide Insert;
    InsertKeeps(q, r);
    forall k | 0 <= k < |Insert(q, r)| ensures Insert(q, r)[k] == r || Insert(q, r)[k] in q {
      assert Insert(q, r)[k] in multiset(Insert(q, r));
    }
  }

  // A request that finds the queue empty.
  lemma FirstSettles(h: H.Hd, c: C.Cache, devs: set<nat>, cmd: Cmd, i: nat)
    requires Joined(h, c, devs) && i < |h.bufs| && !h.bufs[i].locked && h.bufs[i].dev / 0x100 == H.MAJOR_HD
    requires h.queue == []
    ensures Settled(Asked(h, cmd, i), c, devs)
  {
    hide P.Aligned, Partly;
    var g := Asked(h, cmd, i);
    var b := h.bufs[i];
    var r := Request(H.FreeSlot(h.queue, 0), b.dev, cmd, 0, b.block * 4, H.SECTORS, 0, i);
    assert !H.SlotUsed(h.queue, 0);
    S.QueuedInsert(h, i, r);
    AskedQueue(h, devs, cmd, i);
    SameMedia(h, g);
    assert g.queue == [r];
  }

  lemma AskJoins(h: H.Hd, c: C.Cache, devs: set<nat>, cmd: Cmd, i: nat)
    requires Joined(h, c, devs) && S.Allowed(h, S.Ask(cmd, i))
    ensures Joined(S.Step(h, S.Ask(cmd, i)), CacheStep(h, c, S.Ask(cmd, i)), devs)
  {
    hide Joined, Settled, H.DoHdRequest, Turned, Insert, Scope, P.Queued, P.OnCourse;
    JoinedInv(h, c, devs);
    S.RwBlkKeeps(h, cmd, i);
    var b := h.bufs[i];
    if b.dev / 0x100 == H.MAJOR_HD && !b.locked && !H.NothingToDo(cmd, b) {
      if h.queue == [] {
        FirstSettles(h, c, devs, cmd, i);
        SettledShaped(Asked(h, cmd, i), c, devs);
        StartJoins(Asked(h, cmd, i), c, devs);
      } else {
        QueuedJoins(h, c, devs, cmd, i);
      }
    }
  }

  lemma JoinedInv(h: H.Hd, c: C.Cache, devs: set<nat>)
    requires Joined(h, c, devs)
    ensures P.Inv(h) && H.Shaped(h) && |c.bufs| == |h.bufs| && H.Configured(h)
    ensures h.queue != [] ==> h.phase.Busy?
  {
    P.InvShaped(h);
  }

  // Each event of the disk keeps the two in step.
  lemma StepJoins(h: H.Hd, c: C.Cache, devs: set<nat>, e: S.Event)
    requires Joined(h, c, devs) && S.Allowed(h, e) && (e.Use? ==> InScope(h, e.b.dev, devs))
    ensures P.Inv(h) && |c.bufs| == |h.bufs| && Joined(S.Step(h, e), CacheStep(h, c, e), devs)
  {
    JoinedInv(h, c, devs);
    match e
    case Use(i, b) => UseJoins(h, c, devs, i, b);
    case Ask(cmd, i) => AskJoins(h, c, devs, cmd, i);
    case Irq(ok) => IrqJoins(h, c, devs, ok);
  }

  lemma IrqJoins(h: H.Hd, c: C.Cache, devs: set<nat>, ok: bool)
    requires Joined(h, c, devs) && S.Allowed(h, S.Irq(ok))
    ensures P.Inv(h) && |c.bufs| == |h.bufs|
    ensures Joined(S.Step(h, S.Irq(ok)), CacheStep(h, c, S.Irq(ok)), devs)
  {
    hide Joined, Settled, H.DoHdRequest, Turned, H.HeadStep, Completed;
    JoinedInv(h, c, devs);
    if h.queue != [] {
      if H.HeadStep(h, ok).1 {
        EndJoins(h, c, devs, ok);
        SettledShaped(H.HeadStep(h, ok).0, Completed(c, h.queue[0], ok), devs);
        StartJoins(H.HeadStep(h, ok).0, Completed(c, h.queue[0], ok), devs);
      } else {
        GoJoins(h, c, devs, ok);
      }
    }
  }

  // ---- runs ----------------------------------------------------------------------------------

  // Buffers are used for devices in scope only.
  ghost predicate UsesInScope(h: H.Hd, es: seq<S.Event>, devs: set<nat>) {
    forall k :: 0 <= k < |es| && es[k].Use? ==> InScope(h, es[k].b.dev, devs)
  }

  ghost function CacheRun(h: H.Hd, c: C.Cache, es: seq<S.Event>): C.Cache
    requires S.AllowedRun(h, es) && P.Inv(h) && |c.bufs| == |h.bufs|
    decreases |es|
  {
    if es == [] then c
    else
      var (g, d) := (S.Step(h, es[0]), CacheStep(h, c, es[0]));
      if P.Inv(g) && |d.bufs| == |g.bufs| then CacheRun(g, d, es[1..]) else c
  }

  lemma AskedShaped(h: H.Hd, cmd: Cmd, i: nat)
    requires P.Inv(h) && i < |h.bufs| && Starts(h, cmd, i)
    ensures H.Shaped(Asked(h, cmd, i))
  {
    hide P.Aligned, Insert;
    var b := h.bufs[i];
    assert !H.SlotUsed(h.queue, 0);
    S.QueuedInsert(h, i, Request(H.FreeSlot(h.queue, 0), b.dev, cmd, 0, b.block * 4, H.SECTORS, 0, i));
    P.InvShaped(Asked(h, cmd, i));
  }

  lemma SameCount(h: H.Hd, g: H.Hd, e: S.Event)
    requires S.Allowed(h, e) && g == S.Step(h, e) && P.Inv(h)
    ensures g.count == h.count
  {
    hide P.Queued, P.OnCourse, H.Rejected, Insert, H.DoHdRequest, H.FreeSlot;
    match e
    case Use(i, b) =>
    case Ask(cmd, i) =>
      if Starts(h, cmd, i) {
        AskedShaped(h, cmd, i);
        X.DoHdRequestMovesNothing(Asked(h, cmd, i));
      }
    case Irq(ok) =>
      if h.queue != [] && h.phase.Busy? && H.HeadStep(h, ok).1 { X.DoHdRequestMovesNothing(H.HeadStep(h, ok).0); }
  }

  // Over every run, with any number of requests queued, by the cache and in whatever order the elevator serves them:
  // every buffer and block is what the cache's account says, where each request that has ended is a write-back or a
  // fill, or has failed; only the first request of the queue can be half done.
  lemma {:induction false} RunJoins(h: H.Hd, c: C.Cache, devs: set<nat>, es: seq<S.Event>)
    requires Joined(h, c, devs) && S.AllowedRun(h, es) && UsesInScope(h, es, devs)
    ensures P.Inv(h) && |c.bufs| == |h.bufs| && Joined(S.Run(h, es), CacheRun(h, c, es), devs)
    decreases |es|
  {
    hide Joined, S.Step, CacheStep, S.Allowed, P.Inv;
    JoinedInv(h, c, devs);
    if es != [] {
      StepJoins(h, c, devs, es[0]);
      var (g, d) := (S.Step(h, es[0]), CacheStep(h, c, es[0]));
      JoinedInv(g, d, devs);
      SameCount(h, g, es[0]);
      assert forall k :: 0 <= k < |es| - 1 ==> es[1..][k] == es[k + 1];
      RunJoins(g, d, devs, es[1..]);
    }
  }

  // From a quiet disk that the cache is right about. When the queue is empty again, the cache is right about
  // everything.
  lemma EveryRunJoins(h: H.Hd, c: C.Cache, devs: set<nat>, es: seq<S.Event>)
    requires h.queue == [] && h.phase.Idle? && Scope(h, devs) && |c.bufs| == |h.bufs|
    requires forall i :: 0 <= i < |h.bufs| ==> !h.bufs[i].locked && Alike(h.bufs[i], c.bufs[i])
    requires forall d, n: nat :: d in devs && InRange(h, d, n) ==> C.OnDisk(c, C.Key(d, n)) == BlockOn(h, d, n)
    requires S.AllowedRun(h, es) && UsesInScope(h, es, devs)
    ensures P.Inv(h)
    ensures var (g, d) := (S.Run(h, es), CacheRun(h, c, es));
      && |d.bufs| == |g.bufs| && Scope(g, devs) && HeadMoved(g, d)
      && (forall i :: 0 <= i < |g.bufs| && !g.bufs[i].locked ==> Alike(g.bufs[i], d.bufs[i]))
      && forall e, n: nat :: e in devs && InRange(g, e, n) && !WritesTo(g, e, n) ==>
           C.OnDisk(d, C.Key(e, n)) == BlockOn(g, e, n)
  {
    assert Joined(h, c, devs);
    hide S.AllowedRun, S.Run, CacheRun, P.Inv, HeadMoved;
    RunJoins(h, c, devs, es);
    var (g, d) := (S.Run(h, es), CacheRun(h, c, es));
    forall i | 0 <= i < |g.bufs| && !g.bufs[i].locked ensures Alike(g.bufs[i], d.bufs[i]) {
      UnlockedIsAlike(g, d, devs, i);
    }
  }
}
