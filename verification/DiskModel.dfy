// kernel/blk: the request pool of the hard disk, and the transfers its interrupts drive. The drive
// is an oracle: at each interrupt it says whether the sector was transferred.
module DiskModel {
  import opened Base
  import opened Elevator

  const NR_REQUEST: nat := 32
  const MAX_ERRORS: nat := 7
  const MAJOR_HD: nat := 3
  const SECTOR_SIZE: nat := 512
  const SECTORS: nat := 2          // in a block

  type Sector = s: seq<byte> | |s| == SECTOR_SIZE witness seq(SECTOR_SIZE, i => 0)

  datatype Buf = Buf(dev: nat, block: nat, dirty: bool, uptodate: bool, locked: bool, data: Block)

  datatype Partition = Partition(start: nat, size: nat)
  datatype Drive = Drive(heads: nat, track: nat)   // `track`: sectors per track

  // A sector of a drive, by its number on the whole drive.
  datatype Place = Place(drive: nat, sector: nat)

  // The command the drive is working on: the next sector it will transfer, and for a write the data
  // it was sent.
  datatype Phase = Idle | Busy(place: Place, sent: Sector)

  datatype Hd = Hd(
    queue: seq<Request>, bufs: seq<Buf>, phase: Phase, media: map<Place, Sector>,
    parts: seq<Partition>, drives: seq<Drive>, count: nat)

  // One or two drives, five partition entries each; no entry leads to a division by zero.
  predicate Configured(h: Hd) {
    && 1 <= h.count <= 2 && |h.parts| == 10 && |h.drives| == 2
    && forall d :: 0 <= d < h.count ==> h.drives[d].heads > 0 && h.drives[d].track > 0
  }

  function OnMedia(h: Hd, p: Place): Sector {
    if p in h.media then h.media[p] else seq(SECTOR_SIZE, i => 0)
  }

  // ---- cylinders, heads and sectors ----------------------------------------------------------

  datatype Chs = Chs(cylinder: nat, head: nat, sector: nat)

  function Split(n: nat, d: Drive): Chs
    requires d.heads > 0 && d.track > 0
  {
    Chs(n / d.track / d.heads, n / d.track % d.heads, n % d.track + 1)
  }

  // The sector that a drive finds at a cylinder, head and sector.
  function Absolute(c: Chs, d: Drive): nat
    requires c.sector >= 1
  {
    (c.cylinder * d.heads + c.head) * d.track + c.sector - 1
  }

  // ---- requests ------------------------------------------------------------------------------

  function Minor(dev: nat): nat { dev % 0x100 }

  predicate Rejected(h: Hd, r: Request)
    requires Configured(h)
  {
    Minor(r.dev) >= 5 * h.count || r.start + 2 > h.parts[Minor(r.dev)].size
  }

  function Chunk(b: Block, at: nat): (r: Sector)
    requires at + SECTOR_SIZE <= BLOCK_SIZE
  {
    b[at..at + SECTOR_SIZE]
  }

  // Requests fit their buffers.
  predicate Fits(h: Hd, r: Request) {
    r.buf < |h.bufs| && 1 <= r.left <= SECTORS && r.at + SECTOR_SIZE * r.left == BLOCK_SIZE
  }

  predicate Shaped(h: Hd) {
    Configured(h) && forall k :: 0 <= k < |h.queue| ==> Fits(h, h.queue[k])
  }

  function SetBuf(h: Hd, i: nat, b: Buf): Hd
    requires i < |h.bufs|
  {
    h.(bufs := h.bufs[i := b])
  }

  // The buffer once its request is over; a successful write leaves it clean.
  function Finished(b: Buf, cmd: Cmd, ok: bool): Buf {
    b.(uptodate := ok, locked := false, dirty := b.dirty && !(ok && cmd == Write))
  }

  function EndRequest(h: Hd, ok: bool): (r: Hd)
    requires Shaped(h) && h.queue != []
    ensures Shaped(r) && |r.queue| == |h.queue| - 1
  {
    var q := h.queue[0];
    SetBuf(h, q.buf, Finished(h.bufs[q.buf], q.cmd, ok)).(queue := h.queue[1..])
  }

  // The command for the first request.
  function Command(h: Hd): Hd
    requires Shaped(h) && h.queue != [] && !Rejected(h, h.queue[0])
  {
    var r := h.queue[0];
    var m := Minor(r.dev);
    var d := h.drives[m / 5];
    h.(phase := Busy(Place(m / 5, Absolute(Split(r.start + h.parts[m].start, d), d)), Chunk(h.bufs[r.buf].data, r.at)))
  }

  // do_hd_request: the first request is put to the drive; those that the partition cannot hold end
  // in error.
  function DoHdRequest(h: Hd): (r: Hd)
    requires Shaped(h)
    ensures Shaped(r)
    decreases |h.queue|
  {
    if h.queue == [] then h.(phase := Idle)
    else if Rejected(h, h.queue[0]) then DoHdRequest(EndRequest(h, false))
    else Command(h)
  }

  // ---- interrupts ----------------------------------------------------------------------------

  // failed_rw, then the request is put to the drive again, if it is still there. The flag says
  // whether it ended.
  function OnError(h: Hd): (r: (Hd, bool))
    requires Shaped(h) && h.queue != []
    ensures Shaped(r.0)
  {
    var q := h.queue[0];
    var g := h.(queue := h.queue[0 := q.(errors := q.errors + 1)]);
    if q.errors + 1 >= MAX_ERRORS || Rejected(g, g.queue[0]) then (EndRequest(g, false), true) else (Command(g), false)
  }

  // A sector went through: its data moves,
  function Moved(h: Hd): (r: Hd)
    requires Shaped(h) && h.queue != [] && h.phase.Busy?
    ensures Shaped(r) && r == h.(bufs := r.bufs, media := r.media)
  {
    var q := h.queue[0];
    var p := h.phase.place;
    var b := h.bufs[q.buf];
    if q.cmd == Read then SetBuf(h, q.buf, b.(data := PutBytes(b.data, q.at, OnMedia(h, p))))
    else h.(media := h.media[p := h.phase.sent])
  }

  // and the request moves on, or ends.
  function Advance(g: Hd): (r: (Hd, bool))
    requires Shaped(g) && g.queue != [] && g.phase.Busy?
    ensures Shaped(r.0)
  {
    var q := g.queue[0];
    var p := g.phase.place;
    if q.left == 1 then (EndRequest(g, true), true)
    else
      var n := q.(errors := 0, at := q.at + SECTOR_SIZE, start := q.start + 1, left := q.left - 1);
      (g.(queue := g.queue[0 := n],
          phase := Busy(Place(p.drive, p.sector + 1), Chunk(g.bufs[q.buf].data, n.at))), false)
  }

  function OnSector(h: Hd): (r: (Hd, bool))
    requires Shaped(h) && h.queue != [] && h.phase.Busy?
    ensures Shaped(r.0)
  {
    Advance(Moved(h))
  }

  function HeadStep(h: Hd, ok: bool): (r: (Hd, bool))
    requires Shaped(h) && h.queue != [] && h.phase.Busy?
    ensures Shaped(r.0)
  {
    if ok then OnSector(h) else OnError(h)
  }

  // An interrupt; without a command under way it is unexpected and ignored.
  function Interrupt(h: Hd, ok: bool): (r: Hd)
    requires Shaped(h)
    ensures Shaped(r)
  {
    if h.queue == [] || h.phase.Idle? then h
    else
      var (g, ended) := HeadStep(h, ok);
      if ended then DoHdRequest(g) else g
  }

  // ---- rw_blk --------------------------------------------------------------------------------

  predicate SlotUsed(q: seq<Request>, s: nat) { exists k :: 0 <= k < |q| && q[k].slot == s }

  // The first free slot from s on, NR_REQUEST if there is none.
  function FreeSlot(q: seq<Request>, s: nat): (r: nat)
    requires s <= NR_REQUEST
    ensures s <= r <= NR_REQUEST && (r < NR_REQUEST ==> !SlotUsed(q, r))
    ensures forall t :: s <= t < r ==> SlotUsed(q, t)
    decreases NR_REQUEST - s
  {
    if s == NR_REQUEST || !SlotUsed(q, s) then s else FreeSlot(q, s + 1)
  }

  function NothingToDo(cmd: Cmd, b: Buf): bool { (cmd == Read && b.uptodate) || (cmd == Write && !b.dirty) }

  // None: the caller sleeps, on the buffer's lock or for a slot.
  function RwBlk(h: Hd, cmd: Cmd, i: nat): (r: Option<Hd>)
    requires Shaped(h) && i < |h.bufs|
    ensures r.Some? ==> Shaped(r.value)
  {
    var b := h.bufs[i];
    if b.dev / 0x100 != MAJOR_HD then Some(h)
    else if b.locked then None
    else if NothingToDo(cmd, b) then Some(h)
    else
      var s := FreeSlot(h.queue, 0);
      if s == NR_REQUEST then None
      else
        var r := Request(s, b.dev, cmd, 0, b.block * 4, SECTORS, 0, i);
        var g := SetBuf(h, i, b.(locked := true));
        var n := g.(queue := Insert(h.queue, r));
        if h.queue == [] then Some(DoHdRequest(n)) else Some(n)
  }
}
