// What rw_blk queues, and what do_hd_request puts to the drive, in terms of the buffer and the request alone.
module DiskAsk {
  import opened Base
  import opened Elevator
  import opened DiskModel
  import opened DiskProofs
  import opened DiskService
  import F = DiskFairness

  // ---- do_hd_request -------------------------------------------------------------------------

  // The drive and the partition of the request exist, and a block at its sector lies within the partition.
  predicate InPartition(h: Hd, dev: nat, start: nat)
    requires Configured(h)
  {
    dev % 0x100 < 5 * h.count && start + 2 <= h.parts[dev % 0x100].size
  }

  // The first request that its partition can hold, or the length of the queue.
  function FirstHeld(h: Hd, q: seq<Request>): (n: nat)
    requires Configured(h)
    ensures n <= |q| && (n < |q| ==> InPartition(h, q[n].dev, q[n].start))
    ensures forall k :: 0 <= k < n ==> !InPartition(h, q[k].dev, q[k].start)
  {
    if q == [] || InPartition(h, q[0].dev, q[0].start) then 0 else 1 + FirstHeld(h, q[1..])
  }

  // The drive works on the next sector of request r: its own sector, counted from the start of the partition, and
  // for a write with the bytes of the buffer that belong there.
  predicate PutToDrive(h: Hd, r: Request)
    requires Configured(h)
  {
    && r.dev % 0x100 < 5 * h.count && r.buf < |h.bufs| && r.at + 512 <= 1024
    && h.phase == Busy(Place(r.dev % 0x100 / 5, h.parts[r.dev % 0x100].start + r.start),
                       h.bufs[r.buf].data[r.at..r.at + 512])
  }

  lemma CommandPuts(h: Hd)
    requires Queued(h) && h.queue != [] && InPartition(h, h.queue[0].dev, h.queue[0].start)
    ensures Shaped(h) && !Rejected(h, h.queue[0]) && PutToDrive(Command(h), h.queue[0])
    ensures Command(h) == h.(phase := Command(h).phase)
  {
    InvShaped(h);
    var r := h.queue[0];
    SplitInverts(r.start + h.parts[Minor(r.dev)].start, h.drives[Minor(r.dev) / 5]);
  }

  lemma EndIs(h: Hd, ok: bool)
    requires Shaped(h) && h.queue != []
    ensures var (q, g) := (h.queue[0], EndRequest(h, ok));
      && g == h.(queue := h.queue[1..], bufs := g.bufs) && |g.bufs| == |h.bufs| && q.buf < |h.bufs|
      && g.bufs[q.buf] == h.bufs[q.buf].(uptodate := ok, locked := false,
           dirty := h.bufs[q.buf].dirty && !(ok && q.cmd == Write))
      && forall i :: 0 <= i < |h.bufs| && i != q.buf ==> g.bufs[i] == h.bufs[i]
  {
  }

  // do_hd_request ends in error exactly the requests before the first one that its partition can hold, and puts that
  // one to the drive. Nothing else changes.
  lemma {:induction false} DoHdRequestExact(h: Hd)
    requires Queued(h)
    ensures Shaped(h) && Configured(DoHdRequest(h))
    ensures var (g, n) := (DoHdRequest(h), FirstHeld(h, h.queue));
      && g.queue == h.queue[n..] && g.media == h.media
      && g.parts == h.parts && g.drives == h.drives && g.count == h.count && |g.bufs| == |h.bufs|
      && (g.queue == [] ==> g.phase == Idle)
      && (g.queue != [] ==> PutToDrive(g, g.queue[0]))
      && (forall i: nat :: i < |h.bufs| && (forall k :: 0 <= k < n ==> h.queue[k].buf != i) ==> g.bufs[i] == h.bufs[i])
      && (forall k :: 0 <= k < n ==>
           && h.queue[k].buf < |h.bufs|
           && g.bufs[h.queue[k].buf] == h.bufs[h.queue[k].buf].(uptodate := false, locked := false))
    decreases |h.queue|
  {
    hide Queued, EndRequest, Command, PutToDrive, Fits;
    InvShaped(h);
    if h.queue != [] {
      if InPartition(h, h.queue[0].dev, h.queue[0].start) {
        CommandPuts(h);
      } else {
        var e := EndRequest(h, false);
        EndFreesOne(h, false);
        EndIs(h, false);
        DoHdRequestExact(e);
        EndedFirst(h, e, FirstHeld(h, h.queue));
        SameHeld(h, e, e.queue);
      }
    }
  }

  lemma {:induction false} SameHeld(h: Hd, e: Hd, q: seq<Request>)
    requires Configured(h) && Configured(e) && e.parts == h.parts && e.count == h.count
    ensures FirstHeld(e, q) == FirstHeld(h, q)
  {
    if q != [] { SameHeld(h, e, q[1..]); }
  }

  lemma EndedFirst(h: Hd, e: Hd, n: nat)
    requires Queued(h) && h.queue != [] && 1 <= n <= |h.queue| && e.queue == h.queue[1..]
    ensures forall k :: 0 <= k < n - 1 ==> e.queue[k] == h.queue[k + 1] && e.queue[k].buf != h.queue[0].buf
    ensures e.queue[n - 1..] == h.queue[n..]
    ensures forall k :: 1 <= k < n ==> h.queue[k] == e.queue[k - 1]
  {
  }

  // ---- rw_blk --------------------------------------------------------------------------------

  // A transfer is wanted: a changed buffer is to be written, or one that is not valid to be read.
  predicate Wanted(cmd: Cmd, b: Buf) {
    (cmd == Write && b.dirty) || (cmd == Read && !b.uptodate)
  }

  // The request for buffer i, whose number is that of a free slot.
  function RequestFor(slot: nat, b: Buf, cmd: Cmd, i: nat): Request {
    Request(slot, b.dev, cmd, 0, b.block * 4, 2, 0, i)
  }

  ghost function Slots(q: seq<Request>): (r: set<nat>)
    ensures forall s :: s in r <==> SlotUsed(q, s)
  {
    set k | 0 <= k < |q| :: q[k].slot
  }

  // As many slots as requests, if they differ.
  lemma {:induction false} SlotsCount(q: seq<Request>)
    ensures |Slots(q)| <= |q|
    ensures (forall k, l :: 0 <= k < l < |q| ==> q[k].slot != q[l].slot) ==> |Slots(q)| == |q|
  {
    if q != [] {
      var n := |q| - 1;
      var p := q[..n];
      SlotsCount(p);
      forall x ensures SlotUsed(q, x) <==> SlotUsed(p, x) || x == q[n].slot {
        if k :| 0 <= k < |q| && q[k].slot == x && k != n { assert p[k].slot == x; }
        if k :| 0 <= k < |p| && p[k].slot == x { assert q[k].slot == x; }
        assert q[n].slot == q[n].slot;
      }
      assert Slots(q) == Slots(p) + {q[n].slot};
      if forall k, l :: 0 <= k < l < |q| ==> q[k].slot != q[l].slot {
        forall k | 0 <= k < |p| ensures p[k].slot != q[n].slot { assert q[k].slot != q[n].slot; }
      }
    }
  }

  lemma SlotsBelow(h: Hd)
    requires Queued(h)
    ensures Slots(h.queue) <= Below(32) && |Slots(h.queue)| == |h.queue|
  {
    hide Below;
    SlotsCount(h.queue);
    forall x | x in Slots(h.queue) ensures x < 32 {
      var k :| 0 <= k < |h.queue| && h.queue[k].slot == x;
      assert Aligned(h, h.queue[k]);
    }
  }

  // All slots are used exactly when 32 requests are queued.
  lemma PoolFull(h: Hd)
    requires Queued(h)
    ensures FreeSlot(h.queue, 0) == 32 <==> |h.queue| == 32
    ensures |h.queue| <= 32
  {
    hide Queued, Below, SlotUsed;
    SlotsBelow(h);
    BelowSize(32);
    SubsetSize(Slots(h.queue), Below(32));
    var s := FreeSlot(h.queue, 0);
    if s == 32 {
      SubsetSize(Below(32), Slots(h.queue));
    } else {
      SubsetSize(Slots(h.queue), Below(32) - {s});
    }
  }

  // rw_blk, in every case. A device other than the hard disk is not served. The caller sleeps while the buffer is
  // locked, and where a transfer is wanted and all 32 slots are used. Where none is wanted nothing changes.
  lemma RwBlkCases(h: Hd, cmd: Cmd, i: nat)
    requires Inv(h) && i < |h.bufs|
    ensures Shaped(h)
    ensures var b := h.bufs[i];
      && (b.dev / 0x100 != 3 ==> RwBlk(h, cmd, i) == Some(h))
      && (b.dev / 0x100 == 3 ==>
           && (RwBlk(h, cmd, i) == None <==> b.locked || (Wanted(cmd, b) && |h.queue| == 32))
           && (!b.locked && !Wanted(cmd, b) ==> RwBlk(h, cmd, i) == Some(h)))
  {
    hide DoHdRequest, Insert, FreeSlot;
    InvShaped(h);
    PoolFull(h);
  }

  // Position p is the first one behind the first request where r lies between its neighbours in the elevator's
  // order, up or down, or the end of the queue.
  predicate IsPlace(q: seq<Request>, r: Request, p: nat) {
    && 0 < p <= |q|
    && (forall k :: 0 <= k && k + 1 < p ==> !Between(q[k], r, q[k + 1]))
    && (p < |q| ==> (InOrder(q[p - 1], r) && InOrder(r, q[p])) || (InOrder(r, q[p - 1]) && InOrder(q[p], r)))
  }

  lemma PlaceIs(q: seq<Request>, r: Request) returns (p: nat)
    requires q != []
    ensures IsPlace(q, r, p) && p <= |q| && Insert(q, r) == q[..p] + [r] + q[p..]
  {
    p := Position(q, r, 0) + 1;
  }

  // Where a transfer is wanted and there is a slot, the buffer is locked and one request for it is added: this
  // command, for the two sectors from four times the block number on. In a queue that is not empty it goes where
  // the elevator has its place, and nothing else changes.
  lemma RwBlkQueues(h: Hd, cmd: Cmd, i: nat)
    requires Inv(h) && i < |h.bufs| && h.bufs[i].dev / 0x100 == 3 && !h.bufs[i].locked
    requires Wanted(cmd, h.bufs[i]) && h.queue != [] && |h.queue| < 32
    ensures Shaped(h) && RwBlk(h, cmd, i).Some?
    ensures var (b, g) := (h.bufs[i], RwBlk(h, cmd, i).value);
      && g == h.(queue := g.queue, bufs := h.bufs[i := b.(locked := true)])
      && exists s: nat, p: nat ::
           && s < 32 && !SlotUsed(h.queue, s) && 0 < p <= |h.queue|
           && g.queue == h.queue[..p] + [RequestFor(s, b, cmd, i)] + h.queue[p..]
           && IsPlace(h.queue, RequestFor(s, b, cmd, i), p)
  {
    hide Insert, FreeSlot, IsPlace;
    InvShaped(h);
    PoolFull(h);
    var p := PlaceIs(h.queue, RequestFor(FreeSlot(h.queue, 0), h.bufs[i], cmd, i));
  }

  // With an empty queue the request goes to the drive at once, if the block lies in its partition. If not it has
  // ended already: the buffer is not valid, and not locked.
  lemma RwBlkStarts(h: Hd, cmd: Cmd, i: nat)
    requires Inv(h) && i < |h.bufs| && h.bufs[i].dev / 0x100 == 3 && !h.bufs[i].locked
    requires Wanted(cmd, h.bufs[i]) && h.queue == []
    ensures Shaped(h) && RwBlk(h, cmd, i).Some?
    ensures var (b, g) := (h.bufs[i], RwBlk(h, cmd, i).value);
      && g == h.(queue := g.queue, bufs := g.bufs, phase := g.phase) && |g.bufs| == |h.bufs| && Configured(g)
      && (forall j :: 0 <= j < |h.bufs| && j != i ==> g.bufs[j] == h.bufs[j])
      && if InPartition(h, b.dev, b.block * 4) then
           && (exists s: nat :: s < 32 && g.queue == [RequestFor(s, b, cmd, i)])
           && g.bufs[i] == b.(locked := true) && PutToDrive(g, g.queue[0])
         else
           g.queue == [] && g.bufs[i] == b.(uptodate := false, locked := false) && g.phase == Idle
  {
    hide FreeSlot, Queued, PutToDrive, DoHdRequest;
    InvShaped(h);
    PoolFull(h);
    var b := h.bufs[i];
    var r := RequestFor(FreeSlot(h.queue, 0), b, cmd, i);
    var n := SetBuf(h, i, b.(locked := true)).(queue := [r]);
    QueuedInsert(h, i, r);
    DoHdRequestExact(n);
    assert FirstHeld(n, [r]) == if InPartition(n, r.dev, r.start) then 0 else 1 + FirstHeld(n, [r][1..]);
    assert n.queue[0] == r;
  }
}
