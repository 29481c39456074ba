// The request machine over every pattern of success and error.
module DiskProofs {
  import opened Base
  import opened Elevator
  import opened DiskModel

  // ---- cylinders, heads and sectors ----------------------------------------------------------

  // The split gives a place on the drive, and it is the place of the sector asked for; and only the
  // split does.
  lemma SplitInverts(n: nat, d: Drive)
    requires d.heads > 0 && d.track > 0
    ensures Absolute(Split(n, d), d) == n
    ensures Split(n, d).head < d.heads && 1 <= Split(n, d).sector <= d.track
  {
    var t := n / d.track;
    assert n == d.track * t + n % d.track;
    assert t == d.heads * (t / d.heads) + t % d.heads;
    assert t / d.heads * d.heads == d.heads * (t / d.heads);
    assert t * d.track == d.track * t;
  }

  lemma SplitOfAbsolute(c: Chs, d: Drive)
    requires c.head < d.heads && 1 <= c.sector <= d.track
    ensures Split(Absolute(c, d), d) == c
  {
    var t := c.cylinder * d.heads + c.head;
    assert t * d.track == d.track * t && c.cylinder * d.heads == d.heads * c.cylinder;
    DivUnique(Absolute(c, d), d.track, t, c.sector - 1);
    DivUnique(t, d.heads, c.cylinder, c.head);
  }

  // ---- the invariant -------------------------------------------------------------------------

  // Request r asks for the sectors of its buffer that are left.
  predicate Aligned(h: Hd, r: Request) {
    && Fits(h, r) && r.slot < NR_REQUEST && r.errors < MAX_ERRORS
    && r.start + r.left == h.bufs[r.buf].block * 4 + SECTORS && r.dev == h.bufs[r.buf].dev
  }

  predicate Fresh(r: Request) { r.errors == 0 && r.left == SECTORS }

  ghost predicate AllAligned(h: Hd) { forall k :: 0 <= k < |h.queue| ==> Aligned(h, h.queue[k]) }

  // Only the first request has been worked on.
  ghost predicate TailFresh(q: seq<Request>) { forall k :: 0 < k < |q| ==> Fresh(q[k]) }

  ghost predicate Distinct(q: seq<Request>) {
    forall k, l :: 0 <= k < l < |q| ==> q[k].buf != q[l].buf && q[k].slot != q[l].slot
  }

  ghost predicate Names(q: seq<Request>, i: nat) { exists k :: 0 <= k < |q| && q[k].buf == i }

  ghost predicate Locks(h: Hd) {
    forall i :: 0 <= i < |h.bufs| ==> (h.bufs[i].locked <==> Names(h.queue, i))
  }

  // A buffer is locked exactly when a queued request names it, and then only one does.
  ghost predicate Queued(h: Hd) {
    Configured(h) && AllAligned(h) && TailFresh(h.queue) && Distinct(h.queue) && Locks(h)
  }

  // The drive is at the sector the first request wants next, and was sent what that one holds there.
  predicate OnCourse(h: Hd)
    requires Configured(h)
  {
    if h.queue == [] then h.phase.Idle?
    else
      var r := h.queue[0];
      && Minor(r.dev) < 5 * h.count && h.phase.Busy?
      && h.phase.place == Place(Minor(r.dev) / 5, r.start + h.parts[Minor(r.dev)].start)
      && (Fits(h, r) ==> h.phase.sent == Chunk(h.bufs[r.buf].data, r.at))
  }

  ghost predicate Inv(h: Hd) { Queued(h) && OnCourse(h) }

  lemma InvShaped(h: Hd)
    requires Queued(h)
    ensures Shaped(h)
  {
  }

  // end_request takes the first request from the queue, frees its slot and unlocks its buffer; it
  // changes no other buffer.
  lemma EndFreesOne(h: Hd, ok: bool)
    requires Queued(h) && h.queue != []
    ensures Shaped(h) && Queued(EndRequest(h, ok))
    ensures EndRequest(h, ok).queue == h.queue[1..]
    ensures h.bufs[h.queue[0].buf].locked && !EndRequest(h, ok).bufs[h.queue[0].buf].locked
    ensures forall i :: 0 <= i < |h.bufs| && i != h.queue[0].buf ==> EndRequest(h, ok).bufs[i] == h.bufs[i]
    ensures SlotUsed(h.queue, h.queue[0].slot) && !SlotUsed(h.queue[1..], h.queue[0].slot)
  {
    var g := EndRequest(h, ok);
    assert forall k :: 0 <= k < |g.queue| ==> g.queue[k] == h.queue[k + 1];
    forall k | 0 <= k < |g.queue| ensures Aligned(g, g.queue[k]) { assert Aligned(h, h.queue[k + 1]); }
    forall i | 0 <= i < |g.bufs| ensures g.bufs[i].locked <==> Names(g.queue, i) {
      if i != h.queue[0].buf && h.bufs[i].locked {
        var k :| 0 <= k < |h.queue| && h.queue[k].buf == i;
        assert g.queue[k - 1].buf == i;
      }
    }
    assert h.queue[0].slot == h.queue[0].slot;
  }

  lemma CommandOnCourse(h: Hd)
    requires Queued(h) && Shaped(h) && h.queue != [] && !Rejected(h, h.queue[0])
    ensures Inv(Command(h))
  {
    var r := h.queue[0];
    SplitInverts(r.start + h.parts[Minor(r.dev)].start, h.drives[Minor(r.dev) / 5]);
    assert forall k :: 0 <= k < |h.queue| ==> Aligned(h, h.queue[k]) && Aligned(Command(h), h.queue[k]);
  }

  lemma {:induction false} DoHdRequestKeeps(h: Hd)
    requires Queued(h)
    ensures Shaped(h) && Inv(DoHdRequest(h)) && |DoHdRequest(h).queue| <= |h.queue|
    decreases |h.queue|
  {
    hide Queued, EndRequest, Command, Rejected;
    InvShaped(h);
    IdleQueued(h);
    if h.queue != [] {
      if Rejected(h, h.queue[0]) {
        EndFreesOne(h, false);
        DoHdRequestKeeps(EndRequest(h, false));
      } else {
        CommandOnCourse(h);
        CommandQueue(h);
      }
    }
  }

  lemma CommandQueue(h: Hd)
    requires Shaped(h) && h.queue != [] && !Rejected(h, h.queue[0])
    ensures Command(h).queue == h.queue
  {
  }

  lemma IdleQueued(h: Hd)
    requires Queued(h)
    ensures Queued(h.(phase := Idle))
  {
    assert forall k :: 0 <= k < |h.queue| ==> Aligned(h, h.queue[k]) && Aligned(h.(phase := Idle), h.queue[k]);
  }

  // ---- one interrupt -------------------------------------------------------------------------

  // How many more interrupts a request can take.
  function Left(r: Request): int { MAX_ERRORS * (r.left - 1) + MAX_ERRORS - r.errors }

  // The first request is replaced by one for the same buffer.
  lemma NewHead(h: Hd, g: Hd, r: Request)
    requires Queued(h) && h.queue != [] && g.queue == h.queue[0 := r] && g.parts == h.parts && g.drives == h.drives
    requires g.count == h.count
    requires r.buf == h.queue[0].buf && r.slot == h.queue[0].slot && Aligned(g, r)
    requires |g.bufs| == |h.bufs| && forall i :: 0 <= i < |h.bufs| ==> g.bufs[i] == h.bufs[i].(data := g.bufs[i].data)
    ensures Queued(g)
  {
    forall k | 0 <= k < |g.queue| ensures Aligned(g, g.queue[k]) { assert Aligned(h, h.queue[k]); }
    forall i | 0 <= i < |g.bufs| ensures g.bufs[i].locked <==> Names(g.queue, i) {
      if h.bufs[i].locked {
        var k :| 0 <= k < |h.queue| && h.queue[k].buf == i;
        assert g.queue[k].buf == i;
      }
      if k :| 0 <= k < |g.queue| && g.queue[k].buf == i { assert h.queue[k].buf == i; }
    }
  }

  lemma OnErrorKeeps(h: Hd)
    requires Inv(h) && h.queue != []
    ensures Shaped(h)
    ensures var (g, ended) := OnError(h);
      && (ended ==> Queued(g) && |g.queue| == |h.queue| - 1)
      && (!ended ==> Inv(g) && g.queue == h.queue[0 := g.queue[0]] && Left(g.queue[0]) == Left(h.queue[0]) - 1)
  {
    hide EndRequest, Command, Rejected;
    var q := h.queue[0];
    assert Aligned(h, q);
    InvShaped(h);
    var e := h.(queue := h.queue[0 := q.(errors := q.errors + 1)]);
    if q.errors + 1 >= MAX_ERRORS {
      EndSkewed(h, e);
    } else {
      NewHead(h, e, e.queue[0]);
      if Rejected(e, e.queue[0]) {
        EndFreesOne(e, false);
      } else {
        CommandOnCourse(e);
        CommandQueue(e);
      }
    }
  }

  // Ending a request does not depend on its error count.
  lemma EndSkewed(h: Hd, e: Hd)
    requires Queued(h) && h.queue != [] && e == h.(queue := e.queue)
    requires e.queue == h.queue[0 := h.queue[0].(errors := h.queue[0].errors + 1)]
    ensures Shaped(e) && Shaped(h) && EndRequest(e, false) == EndRequest(h, false) && Queued(EndRequest(e, false))
    ensures |EndRequest(e, false).queue| == |h.queue| - 1
  {
    EndFreesOne(h, false);
    assert e.queue[1..] == h.queue[1..];
    assert forall k :: 0 <= k < |h.queue| ==> Aligned(h, h.queue[k]);
  }

  lemma OnSectorKeeps(h: Hd)
    requires Inv(h) && h.queue != []
    ensures Shaped(h) && h.phase.Busy?
    ensures var (g, ended) := OnSector(h);
      && (ended ==> Queued(g) && |g.queue| == |h.queue| - 1)
      && (!ended ==> Inv(g) && g.queue == h.queue[0 := g.queue[0]] && Left(g.queue[0]) < Left(h.queue[0]))
  {
    hide EndRequest;
    InvShaped(h);
    var q := h.queue[0];
    assert Aligned(h, q);
    var (p, b) := (h.phase.place, h.bufs[q.buf]);
    var g := if q.cmd == Read then SetBuf(h, q.buf, b.(data := PutBytes(b.data, q.at, OnMedia(h, p))))
             else h.(media := h.media[p := h.phase.sent]);
    if q.left == 1 {
      assert g.queue == h.queue[0 := q];
      NewHead(h, g, q);
      EndFreesOne(g, true);
    } else {
      NewHead(h, OnSector(h).0, OnSector(h).0.queue[0]);
    }
  }

  lemma HeadStepKeeps(h: Hd, ok: bool)
    requires Inv(h) && h.queue != []
    ensures Shaped(h) && h.phase.Busy?
    ensures var (g, ended) := HeadStep(h, ok);
      && (ended ==> Queued(g) && |g.queue| == |h.queue| - 1)
      && (!ended ==> Inv(g) && g.queue == h.queue[0 := g.queue[0]] && Left(g.queue[0]) < Left(h.queue[0]))
  {
    hide OnError, OnSector, Queued, Left;
    if ok { OnSectorKeeps(h); } else { OnErrorKeeps(h); }
  }

  lemma InterruptKeeps(h: Hd, ok: bool)
    requires Inv(h)
    ensures Shaped(h) && Inv(Interrupt(h, ok))
  {
    hide HeadStep, DoHdRequest, Queued, OnCourse;
    InvShaped(h);
    if h.queue != [] && h.phase.Busy? {
      HeadStepKeeps(h, ok);
      if HeadStep(h, ok).1 { DoHdRequestKeeps(HeadStep(h, ok).0); }
    }
  }
}
