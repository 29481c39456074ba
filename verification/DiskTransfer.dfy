// What a request has done by the time it ends, and how soon it ends, over every run of the disk.
module DiskTransfer {
  import opened Base
  import opened Elevator
  import opened DiskModel
  import opened DiskProofs
  import opened DiskService

  // ---- what is done so far -------------------------------------------------------------------

  // The place of sector j of the block that r asks for.
  function PlaceOf(h: Hd, r: Request, j: nat): Place
    requires Configured(h) && Minor(r.dev) < 5 * h.count && r.buf < |h.bufs|
  {
    Place(Minor(r.dev) / 5, h.bufs[r.buf].block * 4 + j + h.parts[Minor(r.dev)].start)
  }

  // Byte x of the buffer comes from, or goes to, this byte of the drive.
  function ByteOnMedia(h: Hd, r: Request, x: nat): byte
    requires Configured(h) && Minor(r.dev) < 5 * h.count && r.buf < |h.bufs| && x < BLOCK_SIZE
  {
    OnMedia(h, PlaceOf(h, r, x / SECTOR_SIZE))[x % SECTOR_SIZE]
  }

  // The buffer of a request under way, or of one that has ended well or not.
  function Marked(b: Buf, cmd: Cmd, end: Option<bool>): Buf {
    if end.Some? then Finished(b, cmd, end.value) else b
  }

  predicate SameDisk(h: Hd, g: Hd) {
    g.parts == h.parts && g.drives == h.drives && g.count == h.count && |g.bufs| == |h.bufs|
  }

  // With respect to the state s in which request r was first put to the drive, h has done exactly
  // the bytes below n of r: a read copied them to the buffer and left the drive alone, a write put
  // them on the drive and left the buffer alone. The data of other buffers is as before, but for
  // those in `used`.
  ghost predicate Did(s: Hd, h: Hd, r: Request, n: nat, end: Option<bool>, used: set<nat>) {
    && Configured(s) && Minor(r.dev) < 5 * s.count && r.buf < |s.bufs| && n <= BLOCK_SIZE && SameDisk(s, h)
    && h.bufs[r.buf] == Marked(s.bufs[r.buf], r.cmd, end).(data := h.bufs[r.buf].data)
    && (forall i :: 0 <= i < |s.bufs| && i != r.buf && i !in used ==> h.bufs[i].data == s.bufs[i].data)
    && (if r.cmd == Read then
          h.media == s.media
          && forall x :: 0 <= x < BLOCK_SIZE ==>
               h.bufs[r.buf].data[x] == if x < n then ByteOnMedia(s, r, x) else s.bufs[r.buf].data[x]
        else
          h.bufs[r.buf].data == s.bufs[r.buf].data
          && (forall x :: 0 <= x < BLOCK_SIZE ==>
                ByteOnMedia(h, r, x) == if x < n then s.bufs[r.buf].data[x] else ByteOnMedia(s, r, x))
          && forall p :: p != PlaceOf(s, r, 0) && p != PlaceOf(s, r, 1) ==> OnMedia(h, p) == OnMedia(s, p))
  }

  // The first request of h is r, as far as it has got.
  predicate Continues(h: Hd, r: Request) {
    h.queue != [] && h.queue[0].buf == r.buf && h.queue[0].cmd == r.cmd && h.queue[0].dev == r.dev
  }

  // The drive is at the sector of byte `at`, because buffer, sector and count move together.
  lemma AtSector(s: Hd, h: Hd, r: Request, used: set<nat>)
    requires Inv(h) && Continues(h, r) && Did(s, h, r, h.queue[0].at, None, used)
    ensures var q := h.queue[0];
      && h.phase.Busy? && (q.at == 0 || q.at == SECTOR_SIZE) && q.at + SECTOR_SIZE * q.left == BLOCK_SIZE
      && r.buf < |h.bufs| && Configured(s) && Minor(r.dev) < 5 * s.count && r.buf < |s.bufs|
      && h.phase.place == PlaceOf(s, r, q.at / SECTOR_SIZE) == PlaceOf(h, r, q.at / SECTOR_SIZE)
      && h.phase.sent == Chunk(h.bufs[r.buf].data, q.at)
  {
    hide Did;
    DidFacts(s, h, r, h.queue[0].at, None, used);
    assert Aligned(h, h.queue[0]);
  }

  lemma DidFacts(s: Hd, h: Hd, r: Request, n: nat, end: Option<bool>, used: set<nat>)
    requires Did(s, h, r, n, end, used)
    ensures Configured(s) && Configured(h) && Minor(r.dev) < 5 * s.count && r.buf < |s.bufs| && SameDisk(s, h)
    ensures h.bufs[r.buf].block == s.bufs[r.buf].block
    ensures end.Some? ==> !h.bufs[r.buf].locked && h.bufs[r.buf].uptodate == end.value
  {
  }

  // g is h but for the contents of r's buffer or of the drive.
  ghost predicate Beside(h: Hd, g: Hd, r: Request) {
    && SameDisk(h, g) && r.buf < |h.bufs| && g.bufs[r.buf] == h.bufs[r.buf].(data := g.bufs[r.buf].data)
    && forall i :: 0 <= i < |h.bufs| && i != r.buf ==> g.bufs[i] == h.bufs[i]
  }

  // A sector read.
  lemma DidRead(s: Hd, h: Hd, g: Hd, r: Request, n: nat, used: set<nat>)
    requires Did(s, h, r, n, None, used) && r.cmd == Read && (n == 0 || n == SECTOR_SIZE)
    requires Beside(h, g, r) && g.media == h.media
    requires g.bufs[r.buf].data == PutBytes(h.bufs[r.buf].data, n, OnMedia(h, PlaceOf(s, r, n / SECTOR_SIZE)))
    ensures Did(s, g, r, n + SECTOR_SIZE, None, used)
  {
    hide PutBytes;
    forall x | 0 <= x < BLOCK_SIZE
      ensures g.bufs[r.buf].data[x] == if x < n + SECTOR_SIZE then ByteOnMedia(s, r, x) else s.bufs[r.buf].data[x]
    {
      if n <= x < n + SECTOR_SIZE { assert x / SECTOR_SIZE == n / SECTOR_SIZE && x % SECTOR_SIZE == x - n; }
    }
  }

  // A sector written.
  lemma DidWrite(s: Hd, h: Hd, g: Hd, r: Request, n: nat, used: set<nat>)
    requires Did(s, h, r, n, None, used) && r.cmd == Write && (n == 0 || n == SECTOR_SIZE)
    requires Beside(h, g, r) && g.bufs[r.buf].data == h.bufs[r.buf].data
    requires g.media == h.media[PlaceOf(s, r, n / SECTOR_SIZE) := Chunk(h.bufs[r.buf].data, n)]
    ensures Did(s, g, r, n + SECTOR_SIZE, None, used)
  {
    forall x | 0 <= x < BLOCK_SIZE
      ensures ByteOnMedia(g, r, x) == if x < n + SECTOR_SIZE then s.bufs[r.buf].data[x] else ByteOnMedia(s, r, x)
    {
      if n <= x < n + SECTOR_SIZE {
        assert x / SECTOR_SIZE == n / SECTOR_SIZE && x % SECTOR_SIZE == x - n;
      } else {
        assert x / SECTOR_SIZE != n / SECTOR_SIZE;
        assert ByteOnMedia(g, r, x) == ByteOnMedia(h, r, x);
      }
    }
  }

  // Neither r's buffer nor the drive changed; other buffers changed in flags, or are used.
  lemma DidSame(s: Hd, h: Hd, g: Hd, r: Request, n: nat, end: Option<bool>, used: set<nat>, more: set<nat>)
    requires Did(s, h, r, n, end, used) && SameDisk(h, g) && g.media == h.media && used <= more
    requires forall i :: 0 <= i < |h.bufs| && i != r.buf && i !in more ==> g.bufs[i].data == h.bufs[i].data
    requires g.bufs[r.buf] == h.bufs[r.buf]
    ensures Did(s, g, r, n, end, more)
  {
    assert r.cmd == Write ==> forall x :: 0 <= x < BLOCK_SIZE ==> ByteOnMedia(g, r, x) == ByteOnMedia(h, r, x);
  }

  lemma EndDid(s: Hd, h: Hd, r: Request, n: nat, ok: bool, used: set<nat>)
    requires Did(s, h, r, n, None, used) && Shaped(h) && Continues(h, r)
    ensures Did(s, EndRequest(h, ok), r, n, Some(ok), used)
  {
    var g := EndRequest(h, ok);
    assert r.cmd == Write ==> forall x :: 0 <= x < BLOCK_SIZE ==> ByteOnMedia(g, r, x) == ByteOnMedia(h, r, x);
  }

  // ---- one interrupt -------------------------------------------------------------------------

  lemma SectorDid(s: Hd, h: Hd, r: Request, used: set<nat>)
    requires Inv(h) && Shaped(h) && h.phase.Busy? && Continues(h, r) && Did(s, h, r, h.queue[0].at, None, used)
    ensures var (g, ended) := OnSector(h);
      && (!ended ==> Continues(g, r) && Did(s, g, r, g.queue[0].at, None, used))
      && (ended ==> Did(s, g, r, BLOCK_SIZE, Some(true), used))
  {
    hide Did, Queued, EndRequest;
    AtSector(s, h, r, used);
    DidFacts(s, h, r, h.queue[0].at, None, used);
    var q := h.queue[0];
    var g := Moved(h);
    if q.cmd == Read { DidRead(s, h, g, r, q.at, used); } else { DidWrite(s, h, g, r, q.at, used); }
    if q.left == 1 {
      EndDid(s, g, r, q.at + SECTOR_SIZE, true, used);
    } else {
      DidSame(s, g, OnSector(h).0, r, q.at + SECTOR_SIZE, None, used, used);
    }
  }

  lemma ErrorDid(s: Hd, h: Hd, r: Request, used: set<nat>)
    requires Inv(h) && Shaped(h) && Continues(h, r) && Did(s, h, r, h.queue[0].at, None, used)
    ensures var (g, ended) := OnError(h);
      && (!ended ==> Continues(g, r) && Did(s, g, r, g.queue[0].at, None, used))
      && (ended ==> Did(s, g, r, h.queue[0].at, Some(false), used))
  {
    hide Did, Queued, EndRequest, Rejected;
    var q := h.queue[0];
    var e := h.(queue := h.queue[0 := q.(errors := q.errors + 1)]);
    DidFacts(s, h, r, q.at, None, used);
    DidSame(s, h, e, r, q.at, None, used, used);
    if OnError(h).1 {
      EndDid(s, e, r, q.at, false, used);
    } else {
      DidSame(s, e, Command(e), r, q.at, None, used, used);
    }
  }

  lemma HeadStepDid(s: Hd, h: Hd, r: Request, ok: bool, used: set<nat>)
    requires Inv(h) && Shaped(h) && h.phase.Busy? && Continues(h, r) && Did(s, h, r, h.queue[0].at, None, used)
    ensures var (g, ended) := HeadStep(h, ok);
      && (!ended ==> Continues(g, r) && Did(s, g, r, g.queue[0].at, None, used))
      && (ended ==> Did(s, g, r, if ok then BLOCK_SIZE else h.queue[0].at, Some(ok), used))
  {
    hide Did, Queued, OnError, OnSector;
    if ok { SectorDid(s, h, r, used); } else { ErrorDid(s, h, r, used); }
  }

  // Putting the next request to the drive moves no data, and leaves alone the buffers that no request names.
  lemma {:induction false} DoHdRequestMovesNothing(h: Hd)
    requires Shaped(h)
    ensures var g := DoHdRequest(h);
      && SameDisk(h, g) && g.media == h.media
      && (forall i :: 0 <= i < |h.bufs| ==> g.bufs[i].data == h.bufs[i].data)
      && (forall i :: 0 <= i < |h.bufs| && !Names(h.queue, i) ==> g.bufs[i] == h.bufs[i])
    decreases |h.queue|
  {
    hide Rejected;
    if h.queue != [] && Rejected(h, h.queue[0]) {
      var e := EndRequest(h, false);
      DoHdRequestMovesNothing(e);
      forall i | 0 <= i < |h.bufs| && !Names(h.queue, i) ensures DoHdRequest(h).bufs[i] == h.bufs[i] {
        assert h.queue[0].buf != i;
        if k :| 0 <= k < |e.queue| && e.queue[k].buf == i { assert h.queue[k + 1].buf == i; }
      }
    }
  }

  // ---- runs ----------------------------------------------------------------------------------

  // The buffers that callers work on.
  function Used(es: seq<Event>): set<nat> {
    if es == [] then {} else (if es[0].Use? then {es[0].i} else {}) + Used(es[1..])
  }

  // Event e is the interrupt that ends the first request.
  ghost predicate Ends(h: Hd, e: Event)
    requires Shaped(h)
  {
    e.Irq? && h.queue != [] && h.phase.Busy? && HeadStep(h, e.ok).1
  }

  // How many events it takes until the first request has ended.
  ghost function ServedAt(h: Hd, es: seq<Event>): (k: nat)
    requires AllowedRun(h, es)
    ensures k <= |es|
    decreases |es|
  {
    if es == [] then 0
    else if Ends(h, es[0]) then 1 else 1 + ServedAt(Step(h, es[0]), es[1..])
  }

  function UsedBy(e: Event): set<nat> { if e.Use? then {e.i} else {} }

  // An event that does not end the first request.
  lemma StepServes(s: Hd, h: Hd, r: Request, e: Event, used: set<nat>)
    requires Inv(h) && Allowed(h, e) && Continues(h, r) && Did(s, h, r, h.queue[0].at, None, used) && !Ends(h, e)
    ensures var g := Step(h, e);
      && Continues(g, r) && Did(s, g, r, g.queue[0].at, None, used + UsedBy(e))
      && Left(g.queue[0]) <= Left(h.queue[0]) - if e.Irq? then 1 else 0
  {
    hide Did, HeadStep, Left, Insert;
    HeadLeft(h);
    DidFacts(s, h, r, h.queue[0].at, None, used);
    assert Names(h.queue, r.buf);
    match e
    case Irq(ok) =>
      HeadStepDid(s, h, r, ok, used);
      HeadStepKeeps(h, ok);
      assert used + UsedBy(e) == used;
    case Use(i, b) => DidSame(s, h, Step(h, e), r, h.queue[0].at, None, used, used + UsedBy(e));
    case Ask(cmd, i) =>
      AskKeepsHead(h, cmd, i);
      DidSame(s, h, Step(h, e), r, h.queue[0].at, None, used, used + UsedBy(e));
  }

  // A new request is put behind the first one and moves no data.
  lemma AskKeepsHead(h: Hd, cmd: Cmd, i: nat)
    requires Shaped(h) && h.queue != [] && i < |h.bufs| && RwBlk(h, cmd, i).Some?
    ensures var g := RwBlk(h, cmd, i).value;
      && SameDisk(h, g) && g.media == h.media && g.queue != [] && g.queue[0] == h.queue[0]
      && (forall j :: 0 <= j < |h.bufs| ==>
           g.bufs[j].data == h.bufs[j].data && (h.bufs[j].locked ==> g.bufs[j] == h.bufs[j]))
  {
    hide Insert, Rejected;
    var b := h.bufs[i];
    InsertKeeps(h.queue, Request(FreeSlot(h.queue, 0), b.dev, cmd, 0, b.block * 4, SECTORS, 0, i));
  }

  // The interrupt that ends it.
  lemma EndServes(s: Hd, h: Hd, r: Request, e: Event, used: set<nat>)
    requires Inv(h) && Allowed(h, e) && Continues(h, r) && Did(s, h, r, h.queue[0].at, None, used) && Ends(h, e)
    ensures Did(s, Step(h, e), r, if e.ok then BLOCK_SIZE else h.queue[0].at, Some(e.ok), used)
  {
    hide Did, HeadStep, DoHdRequest, Queued;
    HeadStepDid(s, h, r, e.ok, used);
    HeadStepKeeps(h, e.ok);
    var g := HeadStep(h, e.ok).0;
    var n := if e.ok then BLOCK_SIZE else h.queue[0].at;
    DidFacts(s, g, r, n, Some(e.ok), used);
    DoHdRequestMovesNothing(g);
    UnlockedIsUnnamed(g, r.buf);
    DidSame(s, g, DoHdRequest(g), r, n, Some(e.ok), used, used);
  }

  lemma UnlockedIsUnnamed(h: Hd, i: nat)
    requires Queued(h) && i < |h.bufs|
    ensures h.bufs[i].locked <==> Names(h.queue, i)
  {
  }

  lemma Prefix(h: Hd, es: seq<Event>, k: nat)
    requires AllowedRun(h, es) && 1 <= k <= |es|
    ensures es[..k] != [] && es[..k][0] == es[0] && es[..k][1..] == es[1..][..k - 1]
    ensures Irqs(es[..k]) == (if es[0].Irq? then 1 else 0) + Irqs(es[1..][..k - 1])
    ensures Used(es[..k]) == UsedBy(es[0]) + Used(es[1..][..k - 1])
    ensures AllowedRun(Step(h, es[0]), es[1..][..k - 1]) ==>
      AllowedRun(h, es[..k]) && Run(h, es[..k]) == Run(Step(h, es[0]), es[1..][..k - 1])
  {
  }

  // The first request stays the first and an interrupt brings it nearer to its end.
  lemma StepLeft(h: Hd, e: Event)
    requires Inv(h) && Allowed(h, e) && h.queue != [] && !Ends(h, e)
    ensures var g := Step(h, e);
      && g.queue != [] && g.queue[0].buf == h.queue[0].buf
      && Left(g.queue[0]) <= Left(h.queue[0]) - if e.Irq? then 1 else 0
  {
    hide HeadStep, Left, Insert, Queued, RwBlk;
    HeadLeft(h);
    match e
    case Irq(ok) => HeadStepSameBuf(h, ok);
    case Use(i, b) =>
    case Ask(cmd, i) => AskKeepsHead(h, cmd, i);
  }

  lemma HeadStepSameBuf(h: Hd, ok: bool)
    requires Inv(h) && Shaped(h) && h.queue != [] && h.phase.Busy? && !HeadStep(h, ok).1
    ensures var g := HeadStep(h, ok).0;
      g.queue != [] && g.queue[0].buf == h.queue[0].buf && Left(g.queue[0]) < Left(h.queue[0])
  {
    hide Left, Queued, EndRequest, Rejected;
    HeadStepKeeps(h, ok);
  }

  lemma EndedIsUnnamed(h: Hd, e: Event)
    requires Inv(h) && Allowed(h, e) && h.queue != [] && Ends(h, e)
    ensures Inv(Step(h, e)) && !Names(Step(h, e).queue, h.queue[0].buf)
  {
    hide Queued, DoHdRequest, EndRequest;
    StepKeeps(h, e);
    HeadStepKeeps(h, e.ok);
    var g := HeadStep(h, e.ok).0;
    HeadUnlocked(h, e.ok);
    UnlockedIsUnnamed(g, h.queue[0].buf);
    DoHdRequestMovesNothing(g);
    UnlockedIsUnnamed(DoHdRequest(g), h.queue[0].buf);
  }

  lemma HeadUnlocked(h: Hd, ok: bool)
    requires Inv(h) && Shaped(h) && h.queue != [] && h.phase.Busy? && HeadStep(h, ok).1
    ensures var g := HeadStep(h, ok).0; h.queue[0].buf < |g.bufs| && !g.bufs[h.queue[0].buf].locked
  {
    hide Rejected, Queued;
  }

  // Whatever is first in the queue ends within Left interrupts, at most 7 for each sector that it still wants.
  lemma {:induction false} EndsInTime(h: Hd, es: seq<Event>)
    requires Inv(h) && h.queue != [] && AllowedRun(h, es) && Irqs(es) >= Left(h.queue[0])
    ensures Left(h.queue[0]) <= MAX_ERRORS * h.queue[0].left
    ensures var k := ServedAt(h, es);
      && 1 <= k <= |es| && Irqs(es[..k]) <= Left(h.queue[0]) && AllowedRun(h, es[..k]) && es[k - 1].Irq?
      && Inv(Run(h, es[..k])) && !Names(Run(h, es[..k]).queue, h.queue[0].buf)
    decreases |es|
  {
    hide Step, RwBlk, Shaped, Ends, Left, Inv;
    HeadLeft(h);
    assert es != [];
    var k := ServedAt(h, es);
    Prefix(h, es, k);
    if Ends(h, es[0]) {
      IsIrq(h, es[0]);
      EndedIsUnnamed(h, es[0]);
      assert es[..1] == [es[0]];
    } else {
      StepLeft(h, es[0]);
      StepKeeps(h, es[0]);
      EndsInTime(Step(h, es[0]), es[1..]);
    }
  }

  // What the first interrupt that ends r leaves behind.
  ghost predicate Served(s: Hd, g: Hd, r: Request, last: Event, used: set<nat>) {
    && Inv(g) && !Names(g.queue, r.buf) && last.Irq?
    && if last.ok then Did(s, g, r, BLOCK_SIZE, Some(true), used)
       else exists n :: 0 <= n < BLOCK_SIZE && Did(s, g, r, n, Some(false), used)
  }

  lemma ServedNow(s: Hd, h: Hd, r: Request, e: Event, used: set<nat>)
    requires Inv(h) && Allowed(h, e) && Continues(h, r) && Did(s, h, r, h.queue[0].at, None, used) && Ends(h, e)
    ensures Served(s, Step(h, e), r, e, used)
  {
    hide Did, Step, Ends, Queued, OnCourse;
    EndServes(s, h, r, e, used);
    StepKeeps(h, e);
    AtSector(s, h, r, used);
    IsIrq(h, e);
    var g := Step(h, e);
    DidFacts(s, g, r, if e.ok then BLOCK_SIZE else h.queue[0].at, Some(e.ok), used);
    UnlockedIsUnnamed(g, r.buf);
  }

  lemma IsIrq(h: Hd, e: Event)
    requires Shaped(h) && Ends(h, e)
    ensures e.Irq?
  {
  }

  lemma {:induction false} RunServes(s: Hd, h: Hd, r: Request, es: seq<Event>, used: set<nat>)
    requires Inv(h) && Continues(h, r) && Did(s, h, r, h.queue[0].at, None, used)
    requires AllowedRun(h, es) && Irqs(es) >= Left(h.queue[0])
    ensures var k := ServedAt(h, es);
      && 1 <= k <= |es| && Irqs(es[..k]) <= Left(h.queue[0]) && AllowedRun(h, es[..k])
      && Served(s, Run(h, es[..k]), r, es[k - 1], used + Used(es[..k]))
    decreases |es|
  {
    hide Did, Step, RwBlk, Shaped, Ends, Left, Served, Inv;
    HeadLeft(h);
    var k := ServedAt(h, es);
    assert es != [];
    Prefix(h, es, k);
    if Ends(h, es[0]) {
      IsIrq(h, es[0]);
      ServedNow(s, h, r, es[0], used);
      assert used + Used(es[..1]) == used;
      assert es[..1] == [es[0]];
    } else {
      StepServes(s, h, r, es[0], used);
      StepKeeps(h, es[0]);
      RunServes(s, Step(h, es[0]), r, es[1..], used + UsedBy(es[0]));
      assert used + UsedBy(es[0]) + Used(es[1..][..k - 1]) == used + Used(es[..k]);
    }
  }

  // Over every run, with new requests and with callers at work on other buffers, a request that has just been put
  // to the drive ends at the latest with the 14th interrupt. At that moment, if the last answer was good, a read
  // has left exactly the block's sectors in the buffer and a write has put exactly the buffer there; otherwise only
  // a proper part of that was done. Nothing else on the drive has changed, nor the data of any buffer that nobody
  // used.
  lemma RequestServed(h: Hd, es: seq<Event>)
    requires Inv(h) && h.queue != [] && Fresh(h.queue[0]) && AllowedRun(h, es) && Irqs(es) >= MAX_ERRORS * SECTORS
    ensures var (r, k) := (h.queue[0], ServedAt(h, es));
      && 1 <= k <= |es| && Irqs(es[..k]) <= MAX_ERRORS * SECTORS && AllowedRun(h, es[..k])
      && Served(h, Run(h, es[..k]), r, es[k - 1], Used(es[..k]))
  {
    hide Did, Inv, AllowedRun, Run, Irqs, ServedAt, Served, Used;
    HeadLeft(h);
    NothingDone(h);
    RunServes(h, h, h.queue[0], es, {});
    assert forall u: set<nat> :: {} + u == u;
  }

  lemma NothingDone(h: Hd)
    requires Inv(h) && h.queue != [] && Fresh(h.queue[0])
    ensures h.queue[0].at == 0 && Did(h, h, h.queue[0], 0, None, {})
  {
    assert Aligned(h, h.queue[0]);
  }
}
