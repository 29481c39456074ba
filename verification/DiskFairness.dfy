// No request waits for ever: the elevator lets new requests in ahead of a waiting one only between places that the
// drive has to pass anyway.
module DiskFairness {
  import opened Base
  import opened Elevator
  import opened DiskModel
  import opened DiskProofs
  import opened DiskService
  import opened DiskTransfer

  // ---- the order as one line of numbers ------------------------------------------------------

  // Devices are below d, blocks below b.
  datatype Bounds = Bounds(d: nat, b: nat)

  predicate Within(r: Request, z: Bounds) { r.dev < z.d && r.start / 4 < z.b }

  function Half(r: Request, z: Bounds): nat { (if r.cmd == Read then 0 else z.d) + r.dev }

  function Rank(r: Request, z: Bounds): nat { Half(r, z) * z.b + r.start / 4 }

  lemma Lexicographic(k: nat, l: nat, x: nat, y: nat, m: nat)
    requires x < m && y < m
    ensures k * m + x < l * m + y <==> k < l || (k == l && x < y)
    ensures k * m + x == l * m + y <==> k == l && x == y
  {
    if k < l {
      assert (l - k) * m >= m by { MulAtLeast(m, l - k); assert (l - k) * m == m * (l - k); }
      assert l * m == k * m + (l - k) * m;
    } else if l < k {
      assert (k - l) * m >= m by { MulAtLeast(m, k - l); assert (k - l) * m == m * (k - l); }
      assert k * m == l * m + (k - l) * m;
    }
  }

  // Requests for different blocks, or different commands, are in the elevator's order exactly when their ranks are.
  lemma RankOrders(a: Request, r: Request, z: Bounds)
    requires Within(a, z) && Within(r, z)
    ensures Rank(a, z) == Rank(r, z) <==> a.cmd == r.cmd && a.dev == r.dev && a.start / 4 == r.start / 4
    ensures Rank(a, z) != Rank(r, z) ==> (InOrder(a, r) <==> Rank(a, z) < Rank(r, z))
  {
    Lexicographic(Half(a, z), Half(r, z), a.start / 4, r.start / 4, z.b);
  }

  function Gap(a: Request, r: Request, z: Bounds): nat {
    if Rank(a, z) < Rank(r, z) then Rank(r, z) - Rank(a, z) else Rank(a, z) - Rank(r, z)
  }

  // ---- the way to a waiting request ----------------------------------------------------------

  // How far the drive goes, in ranks, from the first request to the one for buffer i.
  function Way(q: seq<Request>, i: nat, z: Bounds): nat {
    if |q| <= 1 || q[0].buf == i then 0 else Gap(q[0], q[1], z) + Way(q[1..], i, z)
  }

  predicate AllWithin(q: seq<Request>, z: Bounds) { forall k :: 0 <= k < |q| ==> Within(q[k], z) }

  ghost predicate RanksDiffer(q: seq<Request>, z: Bounds) {
    forall k, l :: 0 <= k < l < |q| ==> Rank(q[k], z) != Rank(q[l], z)
  }

  // r lies on the way from a to c.
  lemma OnTheWay(a: Request, r: Request, c: Request, z: Bounds)
    requires Within(a, z) && Within(r, z) && Within(c, z) && Between(a, r, c)
    requires Rank(a, z) != Rank(r, z) && Rank(r, z) != Rank(c, z)
    ensures Gap(a, r, z) + Gap(r, c, z) == Gap(a, c, z)
  {
    hide Rank;
    RankOrders(a, r, z);
    RankOrders(r, a, z);
    RankOrders(r, c, z);
    RankOrders(c, r, z);
  }

  // Putting r where it lies between its neighbours, or last, leaves the way to every other request as it is.
  lemma {:induction false} PutOnTheWay(q: seq<Request>, r: Request, p: nat, i: nat, z: Bounds)
    requires p < |q| && AllWithin(q, z) && Within(r, z) && Names(q, i) && r.buf != i
    requires forall k :: 0 <= k < |q| ==> Rank(q[k], z) != Rank(r, z)
    requires p + 1 < |q| ==> Between(q[p], r, q[p + 1])
    ensures Way(PutAfter(q, r, p), i, z) == Way(q, i, z)
    decreases |q|
  {
    hide Rank, Gap, Between, Within;
    var t := PutAfter(q, r, p);
    if q[0].buf != i {
      NamesTail(q, i);
      if p == 0 {
        assert t == [q[0], r] + q[1..];
        assert t[1..] == [r] + q[1..] && t[1..][1..] == q[1..];
        OnTheWay(q[0], r, q[1], z);
      } else {
        assert t[1..] == PutAfter(q[1..], r, p - 1);
        PutOnTheWay(q[1..], r, p - 1, i, z);
      }
    }
  }

  lemma NamesTail(q: seq<Request>, i: nat)
    requires Names(q, i) && q[0].buf != i
    ensures |q| > 1 && Names(q[1..], i)
  {
    var k :| 0 <= k < |q| && q[k].buf == i;
    assert q[1..][k - 1].buf == i;
  }

  lemma InsertOnTheWay(q: seq<Request>, r: Request, i: nat, z: Bounds)
    requires q != [] && AllWithin(q, z) && Within(r, z) && Names(q, i) && r.buf != i
    requires forall k :: 0 <= k < |q| ==> Rank(q[k], z) != Rank(r, z)
    ensures Way(Insert(q, r), i, z) == Way(q, i, z)
  {
    hide Rank, Way;
    PutOnTheWay(q, r, Position(q, r, 0), i, z);
  }

  // When the first request is over, the way is shorter by at least one rank.
  lemma WayShortens(q: seq<Request>, i: nat, z: Bounds)
    requires Names(q, i) && q[0].buf != i && RanksDiffer(q, z)
    ensures |q| > 1 && Names(q[1..], i) && Way(q[1..], i, z) < Way(q, i, z)
  {
    hide Rank;
    NamesTail(q, i);
  }

  // And no longer if more are over.
  lemma {:induction false} WaySuffix(q: seq<Request>, n: nat, i: nat, z: Bounds)
    requires n <= |q| && Names(q[n..], i) && forall k :: 0 <= k < n ==> q[k].buf != i
    ensures Way(q[n..], i, z) <= Way(q, i, z)
    decreases n
  {
    hide Gap;
    if n > 0 {
      assert q[1..][n - 1..] == q[n..];
      WaySuffix(q[1..], n - 1, i, z);
    }
  }

  // All the ranks there are.
  function Line(z: Bounds): nat { 2 * z.d * z.b }

  // From one request to the next at most the whole line.
  lemma {:induction false} WayBound(q: seq<Request>, i: nat, z: Bounds)
    requires AllWithin(q, z) && q != []
    ensures Way(q, i, z) <= (|q| - 1) * Line(z)
  {
    hide Rank, Line, Within;
    if |q| > 1 && q[0].buf != i {
      RankBound(q[0], z);
      RankBound(q[1], z);
      WayBound(q[1..], i, z);
      OneMore(|q| - 1, Line(z));
    } else {
      Scale(0, |q| - 1, Line(z));
    }
  }

  lemma OneMore(n: nat, m: nat)
    requires n >= 1
    ensures n * m == (n - 1) * m + m
  {
  }

  lemma Scale(a: nat, b: nat, m: nat)
    requires a <= b
    ensures a * m <= b * m
  {
    assert b * m == a * m + (b - a) * m;
    assert (b - a) * m >= 0;
  }

  lemma RankBound(r: Request, z: Bounds)
    requires Within(r, z)
    ensures Rank(r, z) < Line(z)
  {
    Lexicographic(Half(r, z), 2 * z.d, r.start / 4, 0, z.b);
  }

  // ---- states --------------------------------------------------------------------------------

  // No two buffers are for one block, as the cache has it, and all are within bounds.
  ghost predicate Tidy(h: Hd, z: Bounds) {
    && (forall i, j :: 0 <= i < j < |h.bufs| ==> h.bufs[i].dev != h.bufs[j].dev || h.bufs[i].block != h.bufs[j].block)
    && forall i :: 0 <= i < |h.bufs| ==> h.bufs[i].dev < z.d && h.bufs[i].block < z.b
  }

  // A request is about the block of its buffer, however far it has got.
  lemma BlockOf(h: Hd, k: nat)
    requires Inv(h) && k < |h.queue|
    ensures var r := h.queue[k]; r.buf < |h.bufs| && r.start / 4 == h.bufs[r.buf].block && r.dev == h.bufs[r.buf].dev
  {
    assert Aligned(h, h.queue[k]);
  }

  lemma TidyQueue(h: Hd, z: Bounds)
    requires Inv(h) && Tidy(h, z)
    ensures AllWithin(h.queue, z) && RanksDiffer(h.queue, z)
  {
    hide Rank;
    forall k | 0 <= k < |h.queue| ensures Within(h.queue[k], z) { BlockOf(h, k); }
    forall k, l | 0 <= k < l < |h.queue| ensures Rank(h.queue[k], z) != Rank(h.queue[l], z) {
      BlockOf(h, k);
      BlockOf(h, l);
      RankOrders(h.queue[k], h.queue[l], z);
      assert h.queue[k].buf != h.queue[l].buf;
    }
  }

  // How many interrupts the request for buffer i can still have to wait, its own included.
  function Patience(h: Hd, i: nat, z: Bounds): int
    requires h.queue != []
  {
    Left(h.queue[0]) + MAX_ERRORS * SECTORS * Way(h.queue, i, z)
  }

  lemma SameRank(a: Request, r: Request, z: Bounds)
    requires a.cmd == r.cmd && a.dev == r.dev && a.start / 4 == r.start / 4
    ensures Rank(a, z) == Rank(r, z)
  {
  }

  // ---- one event -----------------------------------------------------------------------------

  lemma AskWaits(h: Hd, cmd: Cmd, j: nat, i: nat, z: Bounds)
    requires Inv(h) && Shaped(h) && Tidy(h, z) && j < |h.bufs| && RwBlk(h, cmd, j).Some? && Names(h.queue, i)
    ensures var g := RwBlk(h, cmd, j).value;
      && Names(g.queue, i) && g.queue[0] == h.queue[0] && Way(g.queue, i, z) == Way(h.queue, i, z)
  {
    hide Rank, Way, Tidy, Queued, OnCourse, Insert, Names;
    SomethingNamed(h.queue, i);
    AskKeepsHead(h, cmd, j);
    if RwBlk(h, cmd, j).value != h {
      var b := h.bufs[j];
      var r := Request(FreeSlot(h.queue, 0), b.dev, cmd, 0, b.block * 4, SECTORS, 0, j);
      NewIsTidy(h, r, j, i, z);
      InsertOnTheWay(h.queue, r, i, z);
      NamesInsertAt(h.queue, r, i);
    }
  }

  lemma SomethingNamed(q: seq<Request>, i: nat)
    requires Names(q, i)
    ensures q != []
  {
  }

  lemma NamesInsertAt(q: seq<Request>, r: Request, i: nat)
    requires Names(q, i)
    ensures Names(Insert(q, r), i)
  {
    hide Insert;
    var p := InsertAt(q, r);
    NamesInsert(q, r, p, i);
  }

  lemma NewIsTidy(h: Hd, r: Request, j: nat, i: nat, z: Bounds)
    requires Inv(h) && Tidy(h, z) && j < |h.bufs| && !h.bufs[j].locked && Names(h.queue, i)
    requires r.buf == j && r.dev == h.bufs[j].dev && r.start == h.bufs[j].block * 4
    ensures AllWithin(h.queue, z) && Within(r, z) && r.buf != i
    ensures forall k :: 0 <= k < |h.queue| ==> Rank(h.queue[k], z) != Rank(r, z)
  {
    hide Rank;
    TidyQueue(h, z);
    NamedIsLocked(h, i);
    forall k | 0 <= k < |h.queue| ensures Rank(h.queue[k], z) != Rank(r, z) {
      BlockOf(h, k);
      RankOrders(h.queue[k], r, z);
      assert Names(h.queue, h.queue[k].buf);
      NamedIsLocked(h, h.queue[k].buf);
    }
  }

  lemma NamedIsLocked(h: Hd, i: nat)
    requires Inv(h) && Names(h.queue, i)
    ensures i < |h.bufs| && h.bufs[i].locked
  {
    var k :| 0 <= k < |h.queue| && h.queue[k].buf == i;
    assert Aligned(h, h.queue[k]);
  }

  // What do_hd_request leaves of the queue is its end.
  lemma {:induction false} DoHdRequestSuffix(h: Hd) returns (n: nat)
    requires Shaped(h)
    ensures n <= |h.queue| && DoHdRequest(h).queue == h.queue[n..]
    decreases |h.queue|
  {
    hide Rejected;
    n := 0;
    if h.queue != [] && Rejected(h, h.queue[0]) {
      var k := DoHdRequestSuffix(EndRequest(h, false));
      n := k + 1;
      assert EndRequest(h, false).queue[k..] == h.queue[k + 1..];
    }
  }

  // The interrupt that ends the first request, when that is not the one for buffer i: the way is shorter afterwards,
  // or the request for buffer i is over too.
  lemma EndingWaits(h: Hd, e: Event, i: nat, z: Bounds)
    requires Inv(h) && Allowed(h, e) && Tidy(h, z) && Names(h.queue, i) && h.queue[0].buf != i && Ends(h, e)
    ensures var g := Step(h, e); Names(g.queue, i) ==> Way(g.queue, i, z) < Way(h.queue, i, z)
  {
    hide HeadStep, DoHdRequest, Queued, OnCourse, Rank, Way, Tidy;
    TidyQueue(h, z);
    WayShortens(h.queue, i, z);
    EndedQueue(h, e.ok);
    var g := HeadStep(h, e.ok).0;
    var n := DoHdRequestSuffix(g);
    if Names(g.queue[n..], i) {
      NotBefore(h, g.queue, n, i);
      WaySuffix(g.queue, n, i, z);
    }
  }

  // A request is ended with the first one of the queue taken off.
  lemma EndedQueue(h: Hd, ok: bool)
    requires Inv(h) && Shaped(h) && h.queue != [] && h.phase.Busy? && HeadStep(h, ok).1
    ensures HeadStep(h, ok).0.queue == h.queue[1..]
  {
    hide Rejected, Queued;
  }

  lemma NotBefore(h: Hd, q: seq<Request>, n: nat, i: nat)
    requires Inv(h) && h.queue != [] && q == h.queue[1..] && n <= |q| && Names(q[n..], i)
    ensures forall k :: 0 <= k < n ==> q[k].buf != i
  {
    var l :| 0 <= l < |q[n..]| && q[n..][l].buf == i;
    assert h.queue[1 + n + l].buf == i;
    forall k | 0 <= k < n ensures q[k].buf != i { assert h.queue[1 + k] == q[k]; }
  }

  // Any other event leaves the way as it is, and an interrupt brings the first request nearer to its end.
  lemma OtherWaits(h: Hd, e: Event, i: nat, z: Bounds)
    requires Inv(h) && Allowed(h, e) && Tidy(h, z) && Names(h.queue, i) && !Ends(h, e)
    ensures var g := Step(h, e);
      && Names(g.queue, i) && Way(g.queue, i, z) == Way(h.queue, i, z)
      && Left(g.queue[0]) <= Left(h.queue[0]) - if e.Irq? then 1 else 0
  {
    hide HeadStep, Queued, OnCourse, Rank, Way, Tidy, Left, RwBlk, Names;
    SomethingNamed(h.queue, i);
    StepLeft(h, e);
    match e
    case Ask(cmd, j) => AskWaits(h, cmd, j, i, z);
    case Use(j, b) =>
    case Irq(ok) => HeadMoves(h, ok, i, z);
  }

  lemma HeadMoves(h: Hd, ok: bool, i: nat, z: Bounds)
    requires Inv(h) && Shaped(h) && h.queue != [] && Names(h.queue, i) && !Ends(h, Irq(ok))
    ensures var g := Interrupt(h, ok); Names(g.queue, i) && Way(g.queue, i, z) == Way(h.queue, i, z)
  {
    hide Queued, OnCourse, Rank, Left, HeadStep;
    HeadLeft(h);
    HeadStepKeeps(h, ok);
    var g := HeadStep(h, ok).0;
    SameHeadBlock(h, ok);
    BlockOf(h, 0);
    BlockOf(g, 0);
    SameRank(h.queue[0], g.queue[0], z);
    assert g.queue[1..] == h.queue[1..];
    var k :| 0 <= k < |h.queue| && h.queue[k].buf == i;
    assert g.queue[k].buf == i;
    if |h.queue| > 1 { GapSame(h.queue[0], g.queue[0], h.queue[1], z); }
  }

  lemma GapSame(a: Request, c: Request, r: Request, z: Bounds)
    requires Rank(a, z) == Rank(c, z)
    ensures Gap(a, r, z) == Gap(c, r, z)
  {
    hide Rank;
  }

  lemma SameHeadBlock(h: Hd, ok: bool)
    requires Inv(h) && Shaped(h) && h.queue != [] && h.phase.Busy? && !HeadStep(h, ok).1
    ensures var g := HeadStep(h, ok).0;
      && g.queue != [] && |g.queue| == |h.queue| && g.queue[0].buf == h.queue[0].buf && g.queue[0].cmd == h.queue[0].cmd
      && |g.bufs| == |h.bufs|
      && (h.queue[0].buf < |h.bufs| ==> g.bufs[h.queue[0].buf].block == h.bufs[h.queue[0].buf].block)
      && (h.queue[0].buf < |h.bufs| ==> g.bufs[h.queue[0].buf].dev == h.bufs[h.queue[0].buf].dev)
  {
    hide Rejected, Queued;
  }

  // ---- runs ----------------------------------------------------------------------------------

  ghost predicate TidyRun(h: Hd, es: seq<Event>, z: Bounds)
    requires AllowedRun(h, es)
    decreases |es|
  {
    Tidy(h, z) && (es == [] || TidyRun(Step(h, es[0]), es[1..], z))
  }

  // How many events it takes until no request for buffer i is queued.
  ghost function OverAt(h: Hd, es: seq<Event>, i: nat): (k: nat)
    requires AllowedRun(h, es)
    ensures k <= |es|
    decreases |es|
  {
    if es == [] || !Names(h.queue, i) then 0 else 1 + OverAt(Step(h, es[0]), es[1..], i)
  }

  // Either the request for buffer i is over, or the next event leaves it less to wait for.
  lemma StepPatience(h: Hd, e: Event, i: nat, z: Bounds)
    requires Inv(h) && Allowed(h, e) && Tidy(h, z) && Names(h.queue, i)
    ensures Inv(Step(h, e)) && h.queue != []
    ensures var g := Step(h, e);
      Names(g.queue, i) ==> g.queue != [] && Patience(g, i, z) <= Patience(h, i, z) - if e.Irq? then 1 else 0
  {
    hide Inv, Step, Allowed, Way, Tidy, Left, Ends, Names;
    StepKeeps(h, e);
    SomethingNamed(h.queue, i);
    var g := Step(h, e);
    AllowedShaped(h, e);
    if Names(g.queue, i) {
      SomethingNamed(g.queue, i);
      if Ends(h, e) {
        NewHeadLeft(h, g);
        if h.queue[0].buf == i { EndedIsUnnamed(h, e); } else { EndingWaits(h, e, i, z); }
      } else {
        OtherWaits(h, e, i, z);
      }
    }
  }

  lemma AllowedShaped(h: Hd, e: Event)
    requires Allowed(h, e)
    ensures Shaped(h)
  {
  }

  lemma NewHeadLeft(h: Hd, g: Hd)
    requires Inv(h) && Inv(g) && h.queue != [] && g.queue != []
    ensures 1 <= Left(h.queue[0]) && Left(g.queue[0]) <= MAX_ERRORS * SECTORS
  {
    HeadLeft(h);
    HeadLeft(g);
    assert Aligned(g, g.queue[0]);
  }

  lemma NoPatienceLeft(h: Hd, i: nat, z: Bounds)
    requires Inv(h) && h.queue != []
    ensures Patience(h, i, z) >= 1
  {
    hide Way;
    HeadLeft(h);
  }

  // Over every run, whatever new requests come, the request for buffer i is over after at most 14 interrupts for
  // each rank on the way to it, and 14 more for itself.
  lemma {:induction false} NobodyStarves(h: Hd, es: seq<Event>, i: nat, z: Bounds)
    requires Inv(h) && AllowedRun(h, es) && TidyRun(h, es, z) && Names(h.queue, i)
    requires h.queue != [] && Irqs(es) >= Patience(h, i, z)
    ensures var k := OverAt(h, es, i);
      && Irqs(es[..k]) <= Patience(h, i, z) && AllowedRun(h, es[..k]) && !Names(Run(h, es[..k]).queue, i)
    decreases |es|
  {
    hide Inv, Step, Allowed, Patience, Tidy, Names;
    NoPatienceLeft(h, i, z);
    assert es != [];
    var g := Step(h, es[0]);
    StepPatience(h, es[0], i, z);
    var k := OverAt(h, es, i);
    Prefix(h, es, k);
    if Names(g.queue, i) {
      SomethingNamed(g.queue, i);
      NobodyStarves(g, es[1..], i, z);
    } else {
      assert OverAt(g, es[1..], i) == 0 && k == 1;
      assert es[1..][..k - 1] == [];
    }
  }

  // In numbers: 32 slots, and at most the whole line between any two requests.
  lemma PatienceBound(h: Hd, i: nat, z: Bounds)
    requires Inv(h) && Tidy(h, z) && h.queue != []
    ensures |h.queue| <= NR_REQUEST
    ensures Patience(h, i, z) <= MAX_ERRORS * SECTORS * ((NR_REQUEST - 1) * Line(z) + 1)
  {
    hide Way, Left, Line, Tidy, Queued, OnCourse;
    NewHeadLeft(h, h);
    TidyQueue(h, z);
    WayBound(h.queue, i, z);
    QueueFits(h);
    Scale(|h.queue| - 1, NR_REQUEST - 1, Line(z));
  }

  // Slots are numbers below 32 and no two requests share one.
  lemma QueueFits(h: Hd)
    requires Queued(h)
    ensures |h.queue| <= NR_REQUEST
  {
    var slots := seq(|h.queue|, k requires 0 <= k < |h.queue| => h.queue[k].slot);
    forall k | 0 <= k < |slots| ensures slots[k] < NR_REQUEST { assert Aligned(h, h.queue[k]); }
    hide Queued, Aligned;
    Pigeonhole(slots, NR_REQUEST);
  }

  lemma Pigeonhole(s: seq<nat>, n: nat)
    requires forall k :: 0 <= k < |s| ==> s[k] < n
    requires forall k, l :: 0 <= k < l < |s| ==> s[k] != s[l]
    ensures |s| <= n
  {
    hide Below;
    BelowSize(|s|);
    ImageSize(Below(|s|), (k: nat) => if k < |s| then s[k] else 0, n);
  }
}
