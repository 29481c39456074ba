// Every run of the disk: new requests, interrupts, and callers that work on buffers of their own.
module DiskService {
  import opened Base
  import opened Elevator
  import opened DiskModel
  import opened DiskProofs

  lemma HeadLeft(h: Hd)
    requires Inv(h) && h.queue != []
    ensures 1 <= Left(h.queue[0]) <= MAX_ERRORS * h.queue[0].left && h.phase.Busy?
  {
    assert Aligned(h, h.queue[0]);
  }

  // ---- every run -----------------------------------------------------------------------------

  // rw_blk keeps the invariant.
  lemma RwBlkKeeps(h: Hd, cmd: Cmd, i: nat)
    requires Inv(h) && i < |h.bufs|
    ensures Shaped(h)
    ensures RwBlk(h, cmd, i).Some? ==> Inv(RwBlk(h, cmd, i).value)
  {
    InvShaped(h);
    if RwBlk(h, cmd, i).Some? && RwBlk(h, cmd, i).value != h {
      var b := h.bufs[i];
      var r := Request(FreeSlot(h.queue, 0), b.dev, cmd, 0, b.block * 4, SECTORS, 0, i);
      var n := SetBuf(h, i, b.(locked := true)).(queue := Insert(h.queue, r));
      QueuedInsert(h, i, r);
      hide Queued;
      if h.queue == [] { DoHdRequestKeeps(n); } else { CourseInsert(h, n, i, r); }
    }
  }

  lemma InsertAt(q: seq<Request>, r: Request) returns (p: nat)
    ensures p <= |q| && Insert(q, r) == q[..p] + [r] + q[p..] && (q != [] ==> p > 0)
  {
    if q == [] { p := 0; } else { p := Position(q, r, 0) + 1; }
  }

  lemma InsertedAt(q: seq<Request>, r: Request, p: nat)
    requires p <= |q|
    ensures var t := q[..p] + [r] + q[p..];
      && |t| == |q| + 1 && t[p] == r && (forall k :: 0 <= k < p ==> t[k] == q[k])
      && (forall k :: p < k < |t| ==> t[k] == q[k - 1])
  {
  }

  lemma DistinctInsert(q: seq<Request>, r: Request, p: nat)
    requires Distinct(q) && p <= |q| && !SlotUsed(q, r.slot) && !Names(q, r.buf)
    ensures Distinct(q[..p] + [r] + q[p..])
  {
    InsertedAt(q, r, p);
    var t := q[..p] + [r] + q[p..];
    forall k, l | 0 <= k < l < |t| ensures t[k].buf != t[l].buf && t[k].slot != t[l].slot {
      var i, j := if k < p then k else k - 1, if l < p then l else l - 1;
      if k != p { assert q[i].buf == t[k].buf && q[i].slot == t[k].slot; }
      if l != p { assert q[j].buf == t[l].buf && q[j].slot == t[l].slot; }
    }
  }

  lemma NamesInsert(q: seq<Request>, r: Request, p: nat, i: nat)
    requires p <= |q|
    ensures Names(q[..p] + [r] + q[p..], i) <==> i == r.buf || Names(q, i)
  {
    InsertedAt(q, r, p);
    var t := q[..p] + [r] + q[p..];
    if k :| 0 <= k < |q| && q[k].buf == i { assert t[if k < p then k else k + 1].buf == i; }
    if k :| 0 <= k < |t| && t[k].buf == i && k != p { assert q[if k < p then k else k - 1].buf == i; }
    assert t[p].buf == r.buf;
  }

  lemma AlignedInsert(h: Hd, i: nat, r: Request, p: nat)
    requires AllAligned(h) && TailFresh(h.queue) && i < |h.bufs| && p <= |h.queue| && (h.queue != [] ==> p > 0)
    requires r == Request(r.slot, h.bufs[i].dev, r.cmd, 0, h.bufs[i].block * 4, SECTORS, 0, i) && r.slot < NR_REQUEST
    ensures var g := SetBuf(h, i, h.bufs[i].(locked := true)).(queue := h.queue[..p] + [r] + h.queue[p..]);
      AllAligned(g) && TailFresh(g.queue)
  {
    InsertedAt(h.queue, r, p);
    var g := SetBuf(h, i, h.bufs[i].(locked := true)).(queue := h.queue[..p] + [r] + h.queue[p..]);
    forall k | 0 <= k < |g.queue| ensures Aligned(g, g.queue[k]) && (k > 0 ==> Fresh(g.queue[k])) {
      if k < p { assert Aligned(h, h.queue[k]); } else if k > p { assert Aligned(h, h.queue[k - 1]); }
    }
  }

  lemma QueuedInsert(h: Hd, i: nat, r: Request)
    requires Queued(h) && i < |h.bufs| && !h.bufs[i].locked && r.slot < NR_REQUEST && !SlotUsed(h.queue, r.slot)
    requires r == Request(r.slot, h.bufs[i].dev, r.cmd, 0, h.bufs[i].block * 4, SECTORS, 0, i)
    ensures Queued(SetBuf(h, i, h.bufs[i].(locked := true)).(queue := Insert(h.queue, r)))
  {
    hide Insert, Aligned, Distinct, Names, TailFresh, AllAligned, SlotUsed;
    var q := h.queue;
    var p := InsertAt(q, r);
    var g := SetBuf(h, i, h.bufs[i].(locked := true)).(queue := Insert(q, r));
    AlignedInsert(h, i, r, p);
    DistinctInsert(q, r, p);
    forall j | 0 <= j < |g.bufs| ensures g.bufs[j].locked <==> Names(g.queue, j) { NamesInsert(q, r, p, j); }
  }

  lemma CourseInsert(h: Hd, n: Hd, i: nat, r: Request)
    requires Inv(h) && h.queue != [] && i < |h.bufs| && !h.bufs[i].locked
    requires n == SetBuf(h, i, h.bufs[i].(locked := true)).(queue := Insert(h.queue, r))
    ensures OnCourse(n)
  {
    InsertKeeps(h.queue, r);
    assert h.bufs[h.queue[0].buf].locked;
  }

  // Whoever finds a buffer unlocked may do with it what it likes: change its data, or make it the buffer of another
  // block.
  datatype Event = Ask(cmd: Cmd, i: nat) | Irq(ok: bool) | Use(i: nat, b: Buf)

  // A caller that would sleep is not in the run until it can go on.
  ghost predicate Allowed(h: Hd, e: Event) {
    && Shaped(h)
    && (e.Ask? ==> e.i < |h.bufs| && RwBlk(h, e.cmd, e.i).Some?)
    && (e.Use? ==> e.i < |h.bufs| && !h.bufs[e.i].locked && !e.b.locked)
  }

  ghost function Step(h: Hd, e: Event): Hd
    requires Allowed(h, e)
  {
    match e
    case Ask(cmd, i) => RwBlk(h, cmd, i).value
    case Irq(ok) => Interrupt(h, ok)
    case Use(i, b) => SetBuf(h, i, b)
  }

  // No queued request is about a buffer that is not locked.
  lemma UseKeeps(h: Hd, i: nat, b: Buf)
    requires Inv(h) && i < |h.bufs| && !h.bufs[i].locked && !b.locked
    ensures Inv(SetBuf(h, i, b))
  {
    var g := SetBuf(h, i, b);
    forall k | 0 <= k < |g.queue| ensures Aligned(g, g.queue[k]) && g.queue[k].buf != i {
      assert Aligned(h, h.queue[k]);
      assert Names(h.queue, h.queue[k].buf);
    }
    forall j | 0 <= j < |g.bufs| ensures g.bufs[j].locked <==> Names(g.queue, j) {
      assert j != i ==> (h.bufs[j].locked <==> Names(h.queue, j));
    }
  }

  lemma StepKeeps(h: Hd, e: Event)
    requires Inv(h) && Allowed(h, e)
    ensures Inv(Step(h, e))
  {
    hide Inv, RwBlk, Interrupt, Shaped;
    match e
    case Ask(cmd, i) => RwBlkKeeps(h, cmd, i);
    case Irq(ok) => InterruptKeeps(h, ok);
    case Use(i, b) => UseKeeps(h, i, b);
  }

  ghost predicate AllowedRun(h: Hd, es: seq<Event>)
    decreases |es|
  {
    es == [] || (Allowed(h, es[0]) && AllowedRun(Step(h, es[0]), es[1..]))
  }

  ghost function Run(h: Hd, es: seq<Event>): Hd
    requires AllowedRun(h, es)
    decreases |es|
  {
    if es == [] then h else Run(Step(h, es[0]), es[1..])
  }

  lemma {:induction false} RunKeeps(h: Hd, es: seq<Event>)
    requires Inv(h) && AllowedRun(h, es)
    ensures Inv(Run(h, es))
    decreases |es|
  {
    hide Inv, Step, Allowed;
    if es != [] {
      StepKeeps(h, es[0]);
      RunKeeps(Step(h, es[0]), es[1..]);
    }
  }

  // After every run from a quiet disk, buffers are locked exactly while one request asks for them.
  lemma EveryRunIsSound(h: Hd, es: seq<Event>)
    requires Configured(h) && h.queue == [] && h.phase.Idle? && forall i :: 0 <= i < |h.bufs| ==> !h.bufs[i].locked
    requires AllowedRun(h, es)
    ensures var g := Run(h, es);
      && (forall i :: 0 <= i < |g.bufs| ==> (g.bufs[i].locked <==> Names(g.queue, i)))
      && (forall k, l :: 0 <= k < l < |g.queue| ==>
           g.queue[k].buf != g.queue[l].buf && g.queue[k].slot != g.queue[l].slot)
  {
    hide AllowedRun, Run;
    RunKeeps(h, es);
  }

  // ---- draining the queue --------------------------------------------------------------------

  function Interrupts(h: Hd, oks: seq<bool>): (r: Hd)
    requires Shaped(h)
    ensures Shaped(r)
    decreases |oks|
  {
    if oks == [] then h else Interrupts(Interrupt(h, oks[0]), oks[1..])
  }

  // The interrupts that all queued requests can take.
  function Work(h: Hd): int {
    if h.queue == [] then 0 else Left(h.queue[0]) + MAX_ERRORS * SECTORS * (|h.queue| - 1)
  }

  lemma WorkShrinks(h: Hd, ok: bool)
    requires Inv(h) && h.queue != []
    ensures Shaped(h) && Inv(Interrupt(h, ok)) && Work(Interrupt(h, ok)) < Work(h)
  {
    hide HeadStep, DoHdRequest, Queued, OnCourse, Left;
    InvShaped(h);
    HeadLeft(h);
    InterruptKeeps(h, ok);
    HeadStepKeeps(h, ok);
    var (g, ended) := HeadStep(h, ok);
    if ended {
      DoHdRequestKeeps(g);
      WorkAtMost(DoHdRequest(g));
    }
  }

  lemma WorkAtMost(h: Hd)
    requires Inv(h)
    ensures 0 <= Work(h) <= MAX_ERRORS * SECTORS * |h.queue|
  {
    if h.queue != [] {
      HeadLeft(h);
      assert Aligned(h, h.queue[0]);
    }
  }

  // How many requests are added, and how many interrupts come.
  function Asks(es: seq<Event>): nat {
    if es == [] then 0 else (if es[0].Ask? then 1 else 0) + Asks(es[1..])
  }

  function Irqs(es: seq<Event>): nat {
    if es == [] then 0 else (if es[0].Irq? then 1 else 0) + Irqs(es[1..])
  }

  // There is always something to do.
  ghost predicate NeverQuiet(h: Hd, es: seq<Event>)
    requires AllowedRun(h, es)
    decreases |es|
  {
    h.queue != [] && (es == [] || NeverQuiet(Step(h, es[0]), es[1..]))
  }

  lemma StepWork(h: Hd, e: Event)
    requires Inv(h) && Allowed(h, e) && h.queue != []
    ensures e.Irq? ==> Work(Step(h, e)) <= Work(h) - 1
    ensures e.Ask? ==> Work(Step(h, e)) <= Work(h) + MAX_ERRORS * SECTORS
    ensures e.Use? ==> Work(Step(h, e)) == Work(h)
  {
    hide Interrupt, Queued, OnCourse, Left, Insert;
    match e
    case Irq(ok) => WorkShrinks(h, ok);
    case Use(i, b) =>
    case Ask(cmd, i) =>
      var b := h.bufs[i];
      var r := Request(FreeSlot(h.queue, 0), b.dev, cmd, 0, b.block * 4, SECTORS, 0, i);
      InsertKeeps(h.queue, r);
      InsertLength(h.queue, r);
  }

  // While the queue does not run empty, every interrupt is progress: there are at most 14 of them for each request,
  // those that were added on the way included.
  lemma {:induction false} WorkBalances(h: Hd, es: seq<Event>)
    requires Inv(h) && AllowedRun(h, es) && NeverQuiet(h, es)
    ensures Irqs(es) + Work(Run(h, es)) <= Work(h) + MAX_ERRORS * SECTORS * Asks(es)
    ensures Irqs(es) < MAX_ERRORS * SECTORS * (|h.queue| + Asks(es))
    decreases |es|
  {
    hide Step, Inv, Work, RwBlk, Shaped;
    WorkAtMost(h);
    if es != [] {
      StepWork(h, es[0]);
      StepKeeps(h, es[0]);
      WorkBalances(Step(h, es[0]), es[1..]);
    }
    RunKeeps(h, es);
    StaysBusy(h, es);
    WorkThere(Run(h, es));
  }

  lemma {:induction false} StaysBusy(h: Hd, es: seq<Event>)
    requires AllowedRun(h, es) && NeverQuiet(h, es)
    ensures Run(h, es).queue != []
    decreases |es|
  {
    hide Step, Shaped;
    if es != [] { StaysBusy(Step(h, es[0]), es[1..]); }
  }

  lemma WorkThere(h: Hd)
    requires Inv(h) && h.queue != []
    ensures Work(h) >= 1
  {
    HeadLeft(h);
  }

  // With no new requests they empty the queue, whatever they say.
  lemma {:induction false} QueueDrains(h: Hd, oks: seq<bool>)
    requires Inv(h) && |oks| >= Work(h)
    ensures Shaped(h) && Interrupts(h, oks).queue == []
    ensures Work(h) <= MAX_ERRORS * SECTORS * |h.queue|
    decreases |oks|
  {
    hide Interrupt, Queued, OnCourse, Left;
    InvShaped(h);
    WorkAtMost(h);
    if h.queue != [] {
      HeadLeft(h);
      WorkShrinks(h, oks[0]);
      QueueDrains(Interrupt(h, oks[0]), oks[1..]);
    } else {
      QuietStays(h, oks);
    }
  }

  lemma {:induction false} QuietStays(h: Hd, oks: seq<bool>)
    requires Shaped(h) && h.queue == []
    ensures Interrupts(h, oks) == h
    decreases |oks|
  {
    if oks != [] { QuietStays(h, oks[1..]); }
  }
}
