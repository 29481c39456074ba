// From rw_blk to the end of its request, over every run: the block on the device and the buffer.
module DiskDone {
  import opened Base
  import opened Elevator
  import opened DiskModel
  import opened DiskProofs
  import opened DiskService
  import opened DiskAsk
  import opened DiskAnswers
  import X = DiskTransfer
  import F = DiskFairness

  // Byte x of a block of a device, where its partition has it on the drive.
  function DeviceByte(h: Hd, dev: nat, block: nat, x: nat): byte
    requires Configured(h) && dev % 0x100 < 5 * h.count && x < 1024
  {
    OnMedia(h, Place(dev % 0x100 / 5, h.parts[dev % 0x100].start + (block * 4 + x / 512)))[x % 512]
  }

  // The request that rw_blk makes for buffer i.
  predicate IsAsk(h: Hd, r: Request, b: Buf, cmd: Cmd, i: nat)
    requires Configured(h)
  {
    i < |h.bufs| && r == RequestFor(r.slot, b, cmd, i) && InPartition(h, b.dev, b.block * 4)
  }

  // It waits behind the first request, and nobody touches its buffer.
  ghost predicate Waits(h: Hd, r: Request, b: Buf) {
    && b.locked && r.buf < |h.bufs| && h.bufs[r.buf] == b && exists k :: 0 < k < |h.queue| && h.queue[k] == r
  }

  // It is the first request: the bytes below `at` are the same on the device and in the buffer, and a write has not
  // changed the buffer.
  ghost predicate IsFirst(h: Hd, r: Request, b: Buf) {
    && b.locked && Configured(h) && r.dev % 0x100 < 5 * h.count && r.buf < |h.bufs| && h.queue != []
    && var q := h.queue[0];
       && q.buf == r.buf && q.cmd == r.cmd && q.dev == r.dev && q.at <= 1024
       && q.start * 512 == b.block * 2048 + q.at && r.dev == b.dev
       && h.bufs[r.buf] == b.(data := h.bufs[r.buf].data) && (r.cmd == Write ==> h.bufs[r.buf].data == b.data)
       && forall x :: 0 <= x < q.at ==> DeviceByte(h, b.dev, b.block, x) == h.bufs[r.buf].data[x]
  }

  // It is over, with the given last answer: after a good one device and buffer are the same block.
  ghost predicate IsDone(h: Hd, r: Request, b: Buf, ok: bool) {
    && Configured(h) && b.dev % 0x100 < 5 * h.count && r.buf < |h.bufs| && !Names(h.queue, r.buf)
    && h.bufs[r.buf] == b.(uptodate := ok, locked := false, dirty := b.dirty && !(ok && r.cmd == Write),
                           data := h.bufs[r.buf].data)
    && (r.cmd == Write ==> h.bufs[r.buf].data == b.data)
    && (ok ==> forall x :: 0 <= x < 1024 ==> DeviceByte(h, b.dev, b.block, x) == h.bufs[r.buf].data[x])
  }

  // ---- waiting -------------------------------------------------------------------------------

  lemma FreshFirst(h: Hd, r: Request, b: Buf, cmd: Cmd)
    requires Configured(h) && h.queue != [] && h.queue[0] == r && IsAsk(h, r, b, cmd, r.buf)
    requires b.locked && h.bufs[r.buf] == b
    ensures IsFirst(h, r, b)
  {
  }

  // Somebody else's request ends, and those behind it that do not fit, of which r is none.
  lemma MovesUp(h: Hd, g: Hd, ok: bool, r: Request, b: Buf, cmd: Cmd, k: nat)
    requires Configured(h) && Configured(g) && X.SameDisk(h, g) && IsAsk(h, r, b, cmd, r.buf) && b.locked
    requires forall k, l :: 0 <= k < l < |h.queue| ==> h.queue[k].buf != h.queue[l].buf
    requires 0 < k < |h.queue| && h.queue[k] == r && h.bufs[r.buf] == b && IsOver(h, g, ok)
    ensures Waits(g, r, b) || IsFirst(g, r, b)
  {
    hide IsFirst;
    var n := FirstHeld(h, h.queue[1..]);
    assert h.queue[1..][k - 1] == r;
    assert n <= k - 1;
    assert g.queue[k - 1 - n] == r;
    if k - 1 - n == 0 { FreshFirst(g, r, b, cmd); }
  }

  // An interrupt while it waits.
  lemma IrqWaits(h: Hd, ok: bool, r: Request, b: Buf, cmd: Cmd)
    requires Inv(h) && Waits(h, r, b) && IsAsk(h, r, b, cmd, r.buf)
    ensures Shaped(h)
    ensures var g := Interrupt(h, ok); X.SameDisk(h, g) && (Waits(g, r, b) || IsFirst(g, r, b))
  {
    hide Queued, OnCourse, Interrupt, SectorMoved, IsFirst, IsOver, IsAsk;
    InvShaped(h);
    var k :| 0 < k < |h.queue| && h.queue[k] == r;
    AnswerEffect(h, ok);
    QueueDistinct(h);
    var g := Interrupt(h, ok);
    if LastAnswer(h, ok) {
      MovesUp(h, g, ok, r, b, cmd, k);
    } else {
      assert g.queue[k] == r;
    }
  }

  lemma QueueDistinct(h: Hd)
    requires Queued(h)
    ensures forall k, l :: 0 <= k < l < |h.queue| ==> h.queue[k].buf != h.queue[l].buf
  {
  }

  lemma OtherWaits(h: Hd, e: Event, r: Request, b: Buf)
    requires Inv(h) && Allowed(h, e) && !e.Irq? && Waits(h, r, b)
    ensures X.SameDisk(h, Step(h, e)) && Waits(Step(h, e), r, b)
  {
    hide Queued, OnCourse, RwBlk, Insert, DoHdRequest;
    var k :| 0 < k < |h.queue| && h.queue[k] == r;
    match e
    case Use(i, c) => assert Step(h, e).queue[k] == r;
    case Ask(cmd, i) =>
      X.AskKeepsHead(h, cmd, i);
      AskKeepsMember(h, cmd, i, k);
  }

  lemma AskKeepsMember(h: Hd, cmd: Cmd, i: nat, k: nat)
    requires Shaped(h) && i < |h.bufs| && 0 < k < |h.queue| && RwBlk(h, cmd, i).Some?
    ensures exists l :: 0 < l < |RwBlk(h, cmd, i).value.queue| && RwBlk(h, cmd, i).value.queue[l] == h.queue[k]
  {
    hide Insert, DoHdRequest, FreeSlot;
    var g := RwBlk(h, cmd, i).value;
    if g != h {
      var r := RequestFor(FreeSlot(h.queue, 0), h.bufs[i], cmd, i);
      var p := InsertAt(h.queue, r);
      InsertedAt(h.queue, r, p);
      assert g.queue[if k < p then k else k + 1] == h.queue[k];
    } else {
      assert g.queue[k] == h.queue[k];
    }
  }

  // ---- in service ----------------------------------------------------------------------------

  lemma SectorBytes(h: Hd, r: Request, b: Buf, x: nat)
    requires Inv(h) && IsFirst(h, r, b) && x < 1024
    ensures var q := h.queue[0];
      && q.left >= 1 && q.at == 1024 - 512 * q.left && q.dev % 0x100 < 5 * h.count
      && (q.at <= x < q.at + 512 <==>
           NextPlace(h, q) == Place(b.dev % 0x100 / 5, h.parts[b.dev % 0x100].start + (b.block * 4 + x / 512)))
      && (q.at <= x < q.at + 512 ==> x % 512 == x - q.at)
  {
    hide Queued, OnCourse;
    HeadErrors(h);
  }

  lemma MovedByte(h: Hd, g: Hd, ok: bool, r: Request, b: Buf, x: nat)
    requires Inv(h) && IsFirst(h, r, b) && X.SameDisk(h, g) && Configured(g) && x < 1024
    requires h.queue[0].dev % 0x100 < 5 * h.count && SectorMoved(h, g, ok)
    ensures var q := h.queue[0];
      x < (if ok then q.at + 512 else q.at) ==> DeviceByte(g, b.dev, b.block, x) == g.bufs[r.buf].data[x]
    ensures r.cmd == Write ==> g.bufs[r.buf].data[x] == b.data[x]
  {
    hide Inv;
    SectorBytes(h, r, b, x);
  }

  lemma IrqServes(h: Hd, ok: bool, r: Request, b: Buf)
    requires Inv(h) && IsFirst(h, r, b)
    ensures Shaped(h)
    ensures var g := Interrupt(h, ok); X.SameDisk(h, g) && (IsFirst(g, r, b) || IsDone(g, r, b, ok))
  {
    hide Queued, OnCourse, Interrupt, SectorMoved, DeviceByte;
    InvShaped(h);
    AnswerEffect(h, ok);
    HeadErrors(h);
    var g := Interrupt(h, ok);
    forall x | 0 <= x < 1024
      ensures x < (if ok then h.queue[0].at + 512 else h.queue[0].at) ==>
        DeviceByte(g, b.dev, b.block, x) == g.bufs[r.buf].data[x]
      ensures r.cmd == Write ==> g.bufs[r.buf].data[x] == b.data[x]
    {
      MovedByte(h, g, ok, r, b, x);
    }
    if r.cmd == Write { assert g.bufs[r.buf].data == b.data; }
    if LastAnswer(h, ok) { OverUnnamed(h, g, ok); }
  }

  lemma OtherServes(h: Hd, e: Event, r: Request, b: Buf)
    requires Inv(h) && Allowed(h, e) && !e.Irq? && IsFirst(h, r, b)
    ensures X.SameDisk(h, Step(h, e)) && IsFirst(Step(h, e), r, b)
  {
    hide Queued, OnCourse, Step;
    OtherEvent(h, e);
  }

  // ---- runs ----------------------------------------------------------------------------------

  ghost predicate Going(h: Hd, r: Request, b: Buf) { Waits(h, r, b) || IsFirst(h, r, b) }

  lemma GoingIsNamed(h: Hd, r: Request, b: Buf)
    requires Going(h, r, b)
    ensures Names(h.queue, r.buf)
  {
    if !Waits(h, r, b) { assert h.queue[0].buf == r.buf; }
  }

  lemma StepGoes(h: Hd, e: Event, r: Request, b: Buf, cmd: Cmd)
    requires Inv(h) && Allowed(h, e) && Going(h, r, b) && IsAsk(h, r, b, cmd, r.buf)
    ensures Inv(Step(h, e)) && X.SameDisk(h, Step(h, e))
    ensures Going(Step(h, e), r, b) || (e.Irq? && IsDone(Step(h, e), r, b, e.ok))
  {
    hide Queued, OnCourse, RwBlk, Interrupt, Waits, IsFirst, IsDone, DoHdRequest;
    StepKeeps(h, e);
    if Waits(h, r, b) {
      if e.Irq? { IrqWaits(h, e.ok, r, b, cmd); } else { OtherWaits(h, e, r, b); }
    } else {
      if e.Irq? { IrqServes(h, e.ok, r, b); } else { OtherServes(h, e, r, b); }
    }
  }

  // Every request that is over by the end of the run is done, with the answer of the interrupt that ended it.
  lemma {:induction false} GoesUntilDone(h: Hd, es: seq<Event>, r: Request, b: Buf, cmd: Cmd)
    requires Inv(h) && AllowedRun(h, es) && Going(h, r, b) && IsAsk(h, r, b, cmd, r.buf)
    ensures var k := F.OverAt(h, es, r.buf);
      && AllowedRun(h, es[..k])
      && (Going(Run(h, es[..k]), r, b)
          || (1 <= k <= |es| && es[k - 1].Irq? && IsDone(Run(h, es[..k]), r, b, es[k - 1].ok)))
    decreases |es|
  {
    hide Step, Inv, Allowed, Waits, IsFirst, IsDone, Shaped, Going, Names;
    GoingIsNamed(h, r, b);
    var k := F.OverAt(h, es, r.buf);
    if es == [] {
      assert es[..k] == [];
    } else {
      var g := Step(h, es[0]);
      StepGoes(h, es[0], r, b, cmd);
      X.Prefix(h, es, k);
      if Going(g, r, b) {
        GoesUntilDone(g, es[1..], r, b, cmd);
      } else {
        DoneIsUnnamed(g, r, b, es[0].ok);
        assert es[1..][..0] == [];
      }
    }
  }

  lemma DoneIsUnnamed(h: Hd, r: Request, b: Buf, ok: bool)
    requires IsDone(h, r, b, ok)
    ensures !Names(h.queue, r.buf)
  {
  }

  lemma AskGoes(h: Hd, cmd: Cmd, i: nat) returns (r: Request)
    requires Inv(h) && i < |h.bufs| && h.bufs[i].dev / 0x100 == 3 && !h.bufs[i].locked
    requires Wanted(cmd, h.bufs[i]) && |h.queue| < 32 && InPartition(h, h.bufs[i].dev, h.bufs[i].block * 4)
    ensures Shaped(h) && RwBlk(h, cmd, i).Some?
    ensures var (b, g) := (h.bufs[i].(locked := true), RwBlk(h, cmd, i).value);
      && Inv(g) && Going(g, r, b) && r.buf == i && r.cmd == cmd && IsAsk(g, r, b, cmd, i)
  {
    hide Queued, OnCourse, RwBlk, PutToDrive, IsFirst;
    RwBlkKeeps(h, cmd, i);
    var b := h.bufs[i].(locked := true);
    if h.queue == [] {
      RwBlkStarts(h, cmd, i);
      var g := RwBlk(h, cmd, i).value;
      r := g.queue[0];
      FreshFirst(g, r, b, cmd);
    } else {
      RwBlkQueues(h, cmd, i);
      var g := RwBlk(h, cmd, i).value;
      var s: nat, p: nat :| s < 32 && !SlotUsed(h.queue, s) && 0 < p <= |h.queue|
        && g.queue == h.queue[..p] + [RequestFor(s, h.bufs[i], cmd, i)] + h.queue[p..];
      r := RequestFor(s, h.bufs[i], cmd, i);
      assert g.queue[p] == r;
    }
  }

  // rw_blk of a changed buffer for writing, or of one that is not valid for reading, whose block lies in its
  // partition, and then any run, with new requests, errors, and callers at work on other buffers. As soon as no
  // request names the buffer any more it is unlocked, and valid exactly if the last answer was good; then device and
  // buffer hold the same block, a write having changed nothing in the buffer and left it clean. If all answers
  // were good the last one was.
  lemma AskedIsDone(h: Hd, cmd: Cmd, i: nat, es: seq<Event>)
    requires Inv(h) && i < |h.bufs| && h.bufs[i].dev / 0x100 == 3 && !h.bufs[i].locked
    requires (cmd == Write && h.bufs[i].dirty) || (cmd == Read && !h.bufs[i].uptodate)
    requires |h.queue| < 32 && InPartition(h, h.bufs[i].dev, h.bufs[i].block * 4)
    requires Shaped(h) && RwBlk(h, cmd, i).Some? && AllowedRun(RwBlk(h, cmd, i).value, es)
    ensures var (b, g) := (h.bufs[i], RwBlk(h, cmd, i).value);
      var k := F.OverAt(g, es, i);
      && AllowedRun(g, es[..k])
      && var t := Run(g, es[..k]);
         !Names(t.queue, i) ==>
           && 1 <= k <= |es| && es[k - 1].Irq?
           && var ok := es[k - 1].ok;
              && ((forall e :: e in es && e.Irq? ==> e.ok) ==> ok)
              && Configured(t) && b.dev % 0x100 < 5 * t.count && i < |t.bufs|
              && t.bufs[i] == b.(uptodate := ok, dirty := b.dirty && !(ok && cmd == Write), data := t.bufs[i].data)
              && (cmd == Write ==> t.bufs[i].data == b.data)
              && (ok ==> forall x :: 0 <= x < 1024 ==> DeviceByte(t, b.dev, b.block, x) == t.bufs[i].data[x])
  {
    hide Inv, RwBlk, Going, Step, Allowed, DeviceByte, IsAsk;
    var r := AskGoes(h, cmd, i);
    var b, g := h.bufs[i].(locked := true), RwBlk(h, cmd, i).value;
    GoesUntilDone(g, es, r, b, cmd);
    var k := F.OverAt(g, es, i);
    var t := Run(g, es[..k]);
    if !Names(t.queue, i) {
      if Going(t, r, b) { GoingIsNamed(t, r, b); }
      assert es[k - 1] in es;
    }
  }
}
