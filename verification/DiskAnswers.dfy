// What each answer of the drive does to the first request, and how a request ends, from the answers alone.
module DiskAnswers {
  import opened Base
  import opened Elevator
  import opened DiskModel
  import opened DiskProofs
  import opened DiskService
  import opened DiskAsk
  import X = DiskTransfer
  import F = DiskFairness

  // ---- one interrupt -------------------------------------------------------------------------

  // The place of the sector that r wants next.
  function NextPlace(h: Hd, r: Request): Place
    requires Configured(h) && r.dev % 0x100 < 5 * h.count
  {
    Place(r.dev % 0x100 / 5, h.parts[r.dev % 0x100].start + r.start)
  }

  // Between h and g a good answer moved the next sector of the first request, to its buffer or to the drive; a bad
  // one moved nothing.
  ghost predicate SectorMoved(h: Hd, g: Hd, ok: bool)
    requires Configured(h) && h.queue != [] && h.queue[0].dev % 0x100 < 5 * h.count
  {
    var (q, p) := (h.queue[0], NextPlace(h, h.queue[0]));
    && q.buf < |h.bufs| == |g.bufs| && q.at + 512 <= 1024
    && (forall x :: 0 <= x < 1024 ==>
         var read := ok && q.cmd == Read && q.at <= x < q.at + 512;
         g.bufs[q.buf].data[x] == if read then OnMedia(h, p)[x - q.at] else h.bufs[q.buf].data[x])
    && forall o: Place :: OnMedia(g, o) ==
         if ok && q.cmd == Write && o == p then h.bufs[q.buf].data[q.at..q.at + 512] else OnMedia(h, o)
  }

  // The first request goes on: a good answer takes it to its second sector with no errors counted, a bad one counts
  // one more.
  predicate GoesOn(h: Hd, g: Hd, ok: bool)
    requires h.queue != []
  {
    var q := h.queue[0];
    && g.queue == h.queue[0 := if ok then q.(errors := 0, at := 512, start := q.start + 1, left := 1)
                               else q.(errors := q.errors + 1)]
    && q.buf < |h.bufs| == |g.bufs| && g.bufs[q.buf] == h.bufs[q.buf].(data := g.bufs[q.buf].data)
    && forall j :: 0 <= j < |h.bufs| && j != q.buf ==> g.bufs[j] == h.bufs[j]
  }

  // It is over: its buffer is valid or not, and clean after a good write. The requests behind it that their
  // partition cannot hold are over as well.
  ghost predicate IsOver(h: Hd, g: Hd, ok: bool)
    requires Configured(h) && h.queue != []
  {
    var (q, n) := (h.queue[0], FirstHeld(h, h.queue[1..]));
    && g.queue == h.queue[1 + n..] && q.buf < |h.bufs| == |g.bufs|
    && g.bufs[q.buf] == h.bufs[q.buf].(uptodate := ok, locked := false,
         dirty := h.bufs[q.buf].dirty && !(ok && q.cmd == Write), data := g.bufs[q.buf].data)
    && forall j: nat :: j < |h.bufs| && j != q.buf && (forall k :: 1 <= k <= n ==> h.queue[k].buf != j) ==>
         g.bufs[j] == h.bufs[j]
  }

  // The answer ends the first request: good for its last sector, or the seventh error in a row, or an error where
  // the block, taken to be two sectors long still, would not fit the partition.
  predicate LastAnswer(h: Hd, ok: bool)
    requires Configured(h) && h.queue != []
  {
    var q := h.queue[0];
    if ok then q.left == 1 else q.errors + 1 >= 7 || !InPartition(h, q.dev, q.start)
  }

  // Every answer, exactly.
  lemma AnswerEffect(h: Hd, ok: bool)
    requires Inv(h) && h.queue != []
    ensures Shaped(h) && h.queue[0].dev % 0x100 < 5 * h.count && h.queue[0].errors < 7
    ensures var g := Interrupt(h, ok);
      && Inv(g) && X.SameDisk(h, g) && SectorMoved(h, g, ok)
      && if LastAnswer(h, ok) then IsOver(h, g, ok) else GoesOn(h, g, ok)
  {
    hide DoHdRequest, Queued, OnError, OnSector, SectorMoved, IsOver, GoesOn, Fits;
    InvShaped(h);
    HeadLeft(h);
    InterruptKeeps(h, ok);
    HeadStepKeeps(h, ok);
    HeadErrors(h);
    if ok { GoodAnswer(h); } else { BadAnswer(h); }
    var (g, ended) := HeadStep(h, ok);
    if ended {
      DoHdRequestExact(g);
      X.DoHdRequestMovesNothing(g);
      SameHeld(h, g, h.queue[1..]);
      OverNow(h, g, DoHdRequest(g), ok);
      MovedOn(h, g, DoHdRequest(g), ok);
    }
  }

  lemma HeadErrors(h: Hd)
    requires Inv(h) && h.queue != []
    ensures var q := h.queue[0];
      && q.errors < 7 && q.dev % 0x100 < 5 * h.count && q.buf < |h.bufs|
      && 1 <= q.left <= 2 && q.at == 1024 - 512 * q.left
      && h.phase == Busy(NextPlace(h, q), h.bufs[q.buf].data[q.at..q.at + 512])
  {
    assert Aligned(h, h.queue[0]);
  }

  // The state between the end of the request and the start of the next.
  ghost predicate EndedAs(h: Hd, g: Hd, ok: bool)
    requires Configured(h) && h.queue != []
  {
    var q := h.queue[0];
    && g.queue == h.queue[1..] && q.buf < |h.bufs| == |g.bufs|
    && g.bufs[q.buf] == h.bufs[q.buf].(uptodate := ok, locked := false,
         dirty := h.bufs[q.buf].dirty && !(ok && q.cmd == Write), data := g.bufs[q.buf].data)
    && forall j :: 0 <= j < |h.bufs| && j != q.buf ==> g.bufs[j] == h.bufs[j]
  }

  lemma GoodAnswer(h: Hd)
    requires Inv(h) && Shaped(h) && h.queue != [] && h.phase.Busy? && h.queue[0].dev % 0x100 < 5 * h.count
    ensures var (g, ended) := HeadStep(h, true);
      && X.SameDisk(h, g) && SectorMoved(h, g, true) && ended == LastAnswer(h, true)
      && if ended then EndedAs(h, g, true) else GoesOn(h, g, true)
  {
    hide Queued, EndRequest, SectorMoved, EndedAs, GoesOn;
    HeadErrors(h);
    var m := Moved(h);
    GoodMoves(h);
    if h.queue[0].left == 1 {
      EndIs(m, true);
      EndedMoved(h, m, EndRequest(m, true), true);
      MovedOn(h, m, EndRequest(m, true), true);
    } else {
      GoesOnNow(h);
      MovedOn(h, m, OnSector(h).0, true);
    }
  }

  lemma EndedMoved(h: Hd, m: Hd, g: Hd, ok: bool)
    requires Configured(h) && h.queue != [] && h.queue[0].buf < |h.bufs| == |m.bufs| == |g.bufs|
    requires m.queue == h.queue && g.queue == h.queue[1..]
    requires m.bufs[h.queue[0].buf] == h.bufs[h.queue[0].buf].(data := m.bufs[h.queue[0].buf].data)
    requires forall j :: 0 <= j < |h.bufs| && j != h.queue[0].buf ==> m.bufs[j] == h.bufs[j] == g.bufs[j]
    requires g.bufs[h.queue[0].buf] == m.bufs[h.queue[0].buf].(uptodate := ok, locked := false,
         dirty := m.bufs[h.queue[0].buf].dirty && !(ok && h.queue[0].cmd == Write))
    ensures EndedAs(h, g, ok)
  {
  }

  lemma GoesOnNow(h: Hd)
    requires Inv(h) && Shaped(h) && h.queue != [] && h.phase.Busy? && h.queue[0].left == 2
    ensures GoesOn(h, OnSector(h).0, true)
  {
    HeadErrors(h);
  }

  lemma GoodMoves(h: Hd)
    requires Inv(h) && Shaped(h) && h.queue != [] && h.phase.Busy? && h.queue[0].dev % 0x100 < 5 * h.count
    ensures var (q, m) := (h.queue[0], Moved(h));
      && SectorMoved(h, m, true) && X.SameDisk(h, m) && m.queue == h.queue && q.buf < |h.bufs|
      && m.bufs[q.buf] == h.bufs[q.buf].(data := m.bufs[q.buf].data)
      && forall j :: 0 <= j < |h.bufs| && j != q.buf ==> m.bufs[j] == h.bufs[j]
  {
    hide Queued;
    HeadErrors(h);
  }

  // The rest of the step moves no data.
  lemma MovedOn(h: Hd, m: Hd, g: Hd, ok: bool)
    requires Configured(h) && h.queue != [] && h.queue[0].dev % 0x100 < 5 * h.count && SectorMoved(h, m, ok)
    requires g.media == m.media && |g.bufs| == |m.bufs|
    requires forall j :: 0 <= j < |m.bufs| ==> g.bufs[j].data == m.bufs[j].data
    ensures SectorMoved(h, g, ok)
  {
    assert forall o: Place :: OnMedia(g, o) == OnMedia(m, o);
  }

  lemma BadAnswer(h: Hd)
    requires Inv(h) && Shaped(h) && h.queue != [] && h.phase.Busy? && h.queue[0].dev % 0x100 < 5 * h.count
    ensures var (g, ended) := HeadStep(h, false);
      && X.SameDisk(h, g) && SectorMoved(h, g, false) && ended == LastAnswer(h, false)
      && if ended then EndedAs(h, g, false) else GoesOn(h, g, false)
  {
    hide Queued, EndRequest, SectorMoved, EndedAs, GoesOn, Command;
    HeadErrors(h);
    var q := h.queue[0];
    var e := h.(queue := h.queue[0 := q.(errors := q.errors + 1)]);
    NothingMoved(h);
    if OnError(h).1 {
      EndIs(e, false);
      EndedMoved(h, h, EndRequest(e, false), false);
      MovedOn(h, h, EndRequest(e, false), false);
    } else {
      CommandIs(e);
      GoesOnAgain(h, e, Command(e));
      MovedOn(h, h, Command(e), false);
    }
  }

  lemma CommandIs(h: Hd)
    requires Shaped(h) && h.queue != [] && !Rejected(h, h.queue[0])
    ensures Command(h) == h.(phase := Command(h).phase)
  {
  }

  lemma GoesOnAgain(h: Hd, e: Hd, g: Hd)
    requires h.queue != [] && h.queue[0].buf < |h.bufs|
    requires e == h.(queue := h.queue[0 := h.queue[0].(errors := h.queue[0].errors + 1)])
    requires g == e.(phase := g.phase)
    ensures GoesOn(h, g, false)
  {
  }

  lemma NothingMoved(h: Hd)
    requires Inv(h) && h.queue != [] && h.queue[0].dev % 0x100 < 5 * h.count
    ensures SectorMoved(h, h, false)
  {
    HeadErrors(h);
  }

  lemma OverNow(h: Hd, g: Hd, t: Hd, ok: bool)
    requires Queued(h) && Queued(g) && h.queue != [] && EndedAs(h, g, ok)
    requires g.parts == h.parts && g.count == h.count && g.drives == h.drives && |t.bufs| == |g.bufs|
    requires var n := FirstHeld(h, h.queue[1..]);
      && t.queue == g.queue[n..]
      && (forall i: nat :: i < |g.bufs| && (forall k :: 0 <= k < n ==> g.queue[k].buf != i) ==> t.bufs[i] == g.bufs[i])
    ensures IsOver(h, t, ok)
  {
    var n := FirstHeld(h, h.queue[1..]);
    assert g.queue[n..] == h.queue[1 + n..];
    forall k | 0 <= k < n ensures g.queue[k].buf != h.queue[0].buf { assert g.queue[k] == h.queue[k + 1]; }
    forall j: nat | j < |h.bufs| && j != h.queue[0].buf && (forall k :: 1 <= k <= n ==> h.queue[k].buf != j)
      ensures t.bufs[j] == h.bufs[j] {
      forall k | 0 <= k < n ensures g.queue[k].buf != j { assert g.queue[k] == h.queue[k + 1]; }
    }
  }

  // ---- the answers of a run ------------------------------------------------------------------

  function Answers(es: seq<Event>): seq<bool> {
    if es == [] then [] else (if es[0].Irq? then [es[0].ok] else []) + Answers(es[1..])
  }

  // How many errors come first.
  function Errors(a: seq<bool>): (n: nat)
    ensures n <= |a| && (forall k :: 0 <= k < n ==> !a[k]) && (n < |a| ==> a[n])
  {
    if a == [] || a[0] then 0 else 1 + Errors(a[1..])
  }

  // The first request is r, on its first or its second sector, with e errors in a row so far.
  predicate HeadIs(h: Hd, r: Request, second: bool, e: nat) {
    && h.queue != [] && r.left == 2 && r.at == 0
    && h.queue[0] == if second then r.(errors := e, at := 512, start := r.start + 1, left := 1) else r.(errors := e)
  }

  // How many errors in a row its second sector may have: only one, where the block ends the partition.
  function SecondLimit(h: Hd, r: Request): nat
    requires Configured(h) && r.dev % 0x100 < 5 * h.count
  {
    if r.start + 3 <= h.parts[r.dev % 0x100].size then 7 else 1
  }

  // The request for buffer i is over, and the buffer is b but for its data and what the end of the request makes
  // of its flags.
  ghost predicate OverAs(g: Hd, i: nat, b: Buf, cmd: Cmd, ok: bool) {
    && !Names(g.queue, i) && i < |g.bufs|
    && g.bufs[i] == b.(uptodate := ok, locked := false, dirty := b.dirty && !(ok && cmd == Write),
                       data := g.bufs[i].data)
  }

  // It was over for the first time at the n-th interrupt.
  ghost predicate OverAfter(h: Hd, es: seq<Event>, i: nat, b: Buf, cmd: Cmd, n: nat, ok: bool)
    requires AllowedRun(h, es)
  {
    var k := F.OverAt(h, es, i);
    Irqs(es[..k]) == n && AllowedRun(h, es[..k]) && OverAs(Run(h, es[..k]), i, b, cmd, ok)
  }

  // An event that is no interrupt leaves the first request and its buffer alone.
  lemma OtherEvent(h: Hd, e: Event)
    requires Inv(h) && Allowed(h, e) && !e.Irq? && h.queue != []
    ensures var (q, g) := (h.queue[0], Step(h, e));
      && Inv(g) && X.SameDisk(h, g) && g.media == h.media && g.queue != [] && g.queue[0] == q
      && q.buf < |h.bufs| && g.bufs[q.buf] == h.bufs[q.buf]
  {
    hide Queued, OnCourse, RwBlk;
    StepKeeps(h, e);
    HeadErrors(h);
    HeadLocked(h);
    if e.Ask? { X.AskKeepsHead(h, e.cmd, e.i); }
  }

  lemma HeadLocked(h: Hd)
    requires Inv(h) && h.queue != []
    ensures Configured(h) && h.queue[0].buf < |h.bufs|
    ensures h.bufs[h.queue[0].buf].locked && Names(h.queue, h.queue[0].buf)
  {
    assert Aligned(h, h.queue[0]);
    assert h.queue[0].buf == h.queue[0].buf;
  }

  lemma AnswersNext(es: seq<Event>)
    requires es != []
    ensures es[0].Irq? ==> Answers(es) == [es[0].ok] + Answers(es[1..]) && Answers(es)[1..] == Answers(es[1..])
    ensures es[0].Irq? ==> Errors(Answers(es)) == if es[0].ok then 0 else 1 + Errors(Answers(es[1..]))
    ensures !es[0].Irq? ==> Answers(es) == Answers(es[1..])
  {
  }

  // What holds from the next state on holds from this one, one event later.
  lemma OverNext(h: Hd, es: seq<Event>, i: nat, b: Buf, cmd: Cmd, n: nat, ok: bool)
    requires AllowedRun(h, es) && es != [] && Names(h.queue, i)
    requires OverAfter(Step(h, es[0]), es[1..], i, b, cmd, n, ok)
    ensures OverAfter(h, es, i, b, cmd, n + if es[0].Irq? then 1 else 0, ok)
  {
    hide Step, Allowed, OverAs, Names;
    var k := F.OverAt(h, es, i);
    X.Prefix(h, es, k);
  }

  lemma OverHere(h: Hd, es: seq<Event>, i: nat, b: Buf, cmd: Cmd, ok: bool)
    requires AllowedRun(h, es) && OverAs(h, i, b, cmd, ok)
    ensures OverAfter(h, es, i, b, cmd, 0, ok)
  {
    hide Step, Allowed;
    assert es[..0] == [];
  }

  // How a request on its second sector, with e errors in a row, turns out: well at the first good answer, or badly
  // when the limit of errors is reached, and no sooner.
  ghost predicate SecondTurnsOut(h: Hd, es: seq<Event>, r: Request, b: Buf, e: nat)
    requires AllowedRun(h, es) && Configured(h) && r.dev % 0x100 < 5 * h.count && e < SecondLimit(h, r)
  {
    var (s, limit) := (Errors(Answers(es)), SecondLimit(h, r));
    && (e + s >= limit ==> OverAfter(h, es, r.buf, b, r.cmd, limit - e, false))
    && (e + s < limit && s < |Answers(es)| ==> OverAfter(h, es, r.buf, b, r.cmd, s + 1, true))
    && (e + s < limit && s == |Answers(es)| ==> Names(Run(h, es).queue, r.buf))
  }

  lemma SecondOther(h: Hd, es: seq<Event>, r: Request, b: Buf, e: nat)
    requires AllowedRun(h, es) && es != [] && !es[0].Irq? && Names(h.queue, r.buf)
    requires Configured(h) && r.dev % 0x100 < 5 * h.count && e < SecondLimit(h, r) && X.SameDisk(h, Step(h, es[0]))
    requires Configured(Step(h, es[0])) && SecondTurnsOut(Step(h, es[0]), es[1..], r, b, e)
    ensures SecondTurnsOut(h, es, r, b, e)
  {
    hide Step, OverAfter, Names, Shaped, Answers, Errors;
    AnswersNext(es);
    CarryOver(h, es, r, b);
  }

  lemma SecondEnds(h: Hd, es: seq<Event>, r: Request, b: Buf, e: nat)
    requires AllowedRun(h, es) && es != [] && es[0].Irq? && Names(h.queue, r.buf)
    requires Configured(h) && r.dev % 0x100 < 5 * h.count && e < SecondLimit(h, r)
    requires (es[0].ok || e + 1 == SecondLimit(h, r)) && OverAs(Step(h, es[0]), r.buf, b, r.cmd, es[0].ok)
    ensures SecondTurnsOut(h, es, r, b, e)
  {
    hide Step, OverAfter, Names, Shaped, Answers, Errors, OverAs;
    AnswersNext(es);
    OverHere(Step(h, es[0]), es[1..], r.buf, b, r.cmd, es[0].ok);
    OverNext(h, es, r.buf, b, r.cmd, 0, es[0].ok);
  }

  lemma SecondBad(h: Hd, es: seq<Event>, r: Request, b: Buf, e: nat)
    requires AllowedRun(h, es) && es != [] && es[0] == Irq(false) && Names(h.queue, r.buf)
    requires Configured(h) && r.dev % 0x100 < 5 * h.count && e + 1 < SecondLimit(h, r) && X.SameDisk(h, Step(h, es[0]))
    requires Configured(Step(h, es[0])) && SecondTurnsOut(Step(h, es[0]), es[1..], r, b, e + 1)
    ensures SecondTurnsOut(h, es, r, b, e)
  {
    hide Step, OverAfter, Names, Shaped, Answers, Errors;
    AnswersNext(es);
    CarryOver(h, es, r, b);
  }

  lemma {:induction false} SecondSector(h: Hd, es: seq<Event>, r: Request, b: Buf, e: nat)
    requires Inv(h) && AllowedRun(h, es) && HeadIs(h, r, true, e) && r.dev % 0x100 < 5 * h.count
    requires r.buf < |h.bufs| && h.bufs[r.buf] == b.(data := h.bufs[r.buf].data) && e < SecondLimit(h, r)
    ensures SecondTurnsOut(h, es, r, b, e)
    decreases |es|
  {
    hide Step, Inv, OverAs, OverAfter, Names, SectorMoved, Shaped, SecondTurnsOut;
    HeadLocked(h);
    if es == [] {
      SecondGoing(h, r, b, e);
    } else {
      var g := Step(h, es[0]);
      StepKeeps(h, es[0]);
      if !es[0].Irq? {
        OtherEvent(h, es[0]);
        SecondSector(g, es[1..], r, b, e);
        SecondOther(h, es, r, b, e);
      } else {
        IrqSecond(h, es[0], r, b, e);
        if es[0].ok || e + 1 == SecondLimit(h, r) {
          SecondEnds(h, es, r, b, e);
        } else {
          SecondSector(g, es[1..], r, b, e + 1);
          SecondBad(h, es, r, b, e);
        }
      }
    }
  }

  lemma SecondGoing(h: Hd, r: Request, b: Buf, e: nat)
    requires Configured(h) && r.dev % 0x100 < 5 * h.count && e < SecondLimit(h, r) && Names(h.queue, r.buf)
    ensures SecondTurnsOut(h, [], r, b, e)
  {
    assert Answers([]) == [];
  }

  lemma CarryOver(h: Hd, es: seq<Event>, r: Request, b: Buf)
    requires AllowedRun(h, es) && es != [] && Names(h.queue, r.buf)
    ensures forall n: nat, ok :: OverAfter(Step(h, es[0]), es[1..], r.buf, b, r.cmd, n, ok) ==>
      OverAfter(h, es, r.buf, b, r.cmd, n + if es[0].Irq? then 1 else 0, ok)
  {
    hide Step, Allowed, OverAs, OverAfter, Names;
    forall n: nat, ok | OverAfter(Step(h, es[0]), es[1..], r.buf, b, r.cmd, n, ok)
      ensures OverAfter(h, es, r.buf, b, r.cmd, n + if es[0].Irq? then 1 else 0, ok) {
      OverNext(h, es, r.buf, b, r.cmd, n, ok);
    }
  }

  lemma IrqSecond(h: Hd, e: Event, r: Request, b: Buf, n: nat)
    requires Inv(h) && Allowed(h, e) && e.Irq? && HeadIs(h, r, true, n) && r.dev % 0x100 < 5 * h.count
    requires r.buf < |h.bufs| && h.bufs[r.buf] == b.(data := h.bufs[r.buf].data) && n < SecondLimit(h, r)
    ensures var g := Step(h, e);
      && X.SameDisk(h, g)
      && if e.ok || n + 1 == SecondLimit(h, r) then OverAs(g, r.buf, b, r.cmd, e.ok)
         else HeadIs(g, r, true, n + 1) && g.bufs[r.buf] == b.(data := g.bufs[r.buf].data)
  {
    hide Interrupt, Queued, OnCourse, SectorMoved;
    AnswerEffect(h, e.ok);
    if e.ok || n + 1 == SecondLimit(h, r) { OverUnnamed(h, Interrupt(h, e.ok), e.ok); }
  }

  lemma OverUnnamed(h: Hd, g: Hd, ok: bool)
    requires Inv(h) && Inv(g) && h.queue != [] && IsOver(h, g, ok)
    ensures !Names(g.queue, h.queue[0].buf)
  {
    X.UnlockedIsUnnamed(g, h.queue[0].buf);
  }

  lemma IrqFirst(h: Hd, e: Event, r: Request, b: Buf, n: nat)
    requires Inv(h) && Allowed(h, e) && e.Irq? && HeadIs(h, r, false, n) && n < 7 && InPartition(h, r.dev, r.start)
    requires r.buf < |h.bufs| && h.bufs[r.buf] == b.(data := h.bufs[r.buf].data)
    ensures var g := Step(h, e);
      && X.SameDisk(h, g)
      && if e.ok then HeadIs(g, r, true, 0) && g.bufs[r.buf] == b.(data := g.bufs[r.buf].data)
         else if n + 1 == 7 then OverAs(g, r.buf, b, r.cmd, false)
         else HeadIs(g, r, false, n + 1) && g.bufs[r.buf] == b.(data := g.bufs[r.buf].data)
  {
    hide Interrupt, Queued, OnCourse, SectorMoved;
    AnswerEffect(h, e.ok);
    if !e.ok && n + 1 == 7 { OverUnnamed(h, Interrupt(h, e.ok), e.ok); }
  }

  // How a request on its first sector, with e errors in a row, turns out.
  ghost predicate TurnsOut(h: Hd, es: seq<Event>, r: Request, b: Buf, e: nat)
    requires AllowedRun(h, es) && Configured(h) && r.dev % 0x100 < 5 * h.count && e < 7
  {
    var (a, limit) := (Answers(es), SecondLimit(h, r));
    var s := Errors(a);
    && (e + s >= 7 ==> OverAfter(h, es, r.buf, b, r.cmd, 7 - e, false))
    && (e + s < 7 && s == |a| ==> Names(Run(h, es).queue, r.buf))
    && (e + s < 7 && s < |a| ==>
         var u := Errors(a[s + 1..]);
         && (u >= limit ==> OverAfter(h, es, r.buf, b, r.cmd, s + 1 + limit, false))
         && (u < limit && s + 1 + u < |a| ==> OverAfter(h, es, r.buf, b, r.cmd, s + u + 2, true))
         && (u < limit && s + 1 + u == |a| ==> Names(Run(h, es).queue, r.buf)))
  }

  // An event that is no interrupt, the seventh error, an earlier one, and a good answer.
  lemma FirstOther(h: Hd, es: seq<Event>, r: Request, b: Buf, e: nat)
    requires AllowedRun(h, es) && es != [] && !es[0].Irq? && Names(h.queue, r.buf) && e < 7
    requires Configured(h) && r.dev % 0x100 < 5 * h.count && X.SameDisk(h, Step(h, es[0]))
    requires Configured(Step(h, es[0])) && TurnsOut(Step(h, es[0]), es[1..], r, b, e)
    ensures TurnsOut(h, es, r, b, e)
  {
    hide Step, OverAfter, Names, Shaped, Answers, Errors;
    AnswersNext(es);
    CarryOver(h, es, r, b);
  }

  lemma FirstEnds(h: Hd, es: seq<Event>, r: Request, b: Buf)
    requires AllowedRun(h, es) && es != [] && es[0] == Irq(false) && Names(h.queue, r.buf)
    requires Configured(h) && r.dev % 0x100 < 5 * h.count && OverAs(Step(h, es[0]), r.buf, b, r.cmd, false)
    ensures TurnsOut(h, es, r, b, 6)
  {
    hide Step, OverAfter, Names, Shaped, Answers, Errors, OverAs;
    AnswersNext(es);
    OverHere(Step(h, es[0]), es[1..], r.buf, b, r.cmd, false);
    OverNext(h, es, r.buf, b, r.cmd, 0, false);
  }

  lemma FirstBad(h: Hd, es: seq<Event>, r: Request, b: Buf, e: nat)
    requires AllowedRun(h, es) && es != [] && es[0] == Irq(false) && Names(h.queue, r.buf) && e < 6
    requires Configured(h) && r.dev % 0x100 < 5 * h.count && X.SameDisk(h, Step(h, es[0]))
    requires Configured(Step(h, es[0])) && TurnsOut(Step(h, es[0]), es[1..], r, b, e + 1)
    ensures TurnsOut(h, es, r, b, e)
  {
    hide Step, OverAfter, Names, Shaped, Answers, Errors;
    LaterErrors(es);
    CarryOver(h, es, r, b);
  }

  lemma FirstGood(h: Hd, es: seq<Event>, r: Request, b: Buf, e: nat)
    requires AllowedRun(h, es) && es != [] && es[0] == Irq(true) && Names(h.queue, r.buf) && e < 7
    requires Configured(h) && r.dev % 0x100 < 5 * h.count && X.SameDisk(h, Step(h, es[0]))
    requires Configured(Step(h, es[0])) && SecondTurnsOut(Step(h, es[0]), es[1..], r, b, 0)
    ensures TurnsOut(h, es, r, b, e)
  {
    hide Step, OverAfter, Names, Shaped, Answers, Errors;
    AnswersNext(es);
    CarryOver(h, es, r, b);
    assert Answers(es)[0 + 1..] == Answers(es[1..]);
  }

  lemma {:induction false} FirstSector(h: Hd, es: seq<Event>, r: Request, b: Buf, e: nat)
    requires Inv(h) && AllowedRun(h, es) && HeadIs(h, r, false, e) && e < 7 && InPartition(h, r.dev, r.start)
    requires r.buf < |h.bufs| && h.bufs[r.buf] == b.(data := h.bufs[r.buf].data)
    ensures TurnsOut(h, es, r, b, e)
    decreases |es|
  {
    hide Step, Inv, OverAs, OverAfter, Names, SectorMoved, Shaped, TurnsOut, SecondTurnsOut;
    HeadLocked(h);
    if es == [] {
      StillGoing(h, r, b, e);
    } else {
      var g := Step(h, es[0]);
      StepKeeps(h, es[0]);
      if !es[0].Irq? {
        OtherEvent(h, es[0]);
        FirstSector(g, es[1..], r, b, e);
        FirstOther(h, es, r, b, e);
      } else {
        IrqFirst(h, es[0], r, b, e);
        if es[0].ok {
          SecondSector(g, es[1..], r, b, 0);
          FirstGood(h, es, r, b, e);
        } else if e + 1 == 7 {
          FirstEnds(h, es, r, b);
        } else {
          FirstSector(g, es[1..], r, b, e + 1);
          FirstBad(h, es, r, b, e);
        }
      }
    }
  }

  lemma StillGoing(h: Hd, r: Request, b: Buf, e: nat)
    requires Configured(h) && r.dev % 0x100 < 5 * h.count && e < 7 && Names(h.queue, r.buf)
    ensures TurnsOut(h, [], r, b, e)
  {
    assert Answers([]) == [];
  }

  lemma LaterErrors(es: seq<Event>)
    requires es != [] && es[0] == Irq(false)
    ensures var (a, c) := (Answers(es), Answers(es[1..]));
      && |a| == 1 + |c| && Errors(a) == 1 + Errors(c)
      && (Errors(c) < |c| ==> a[Errors(a) + 1..] == c[Errors(c) + 1..])
  {
  }

  // A request that was just put to the drive, over every run. It ends badly at the seventh error, if the first seven
  // answers are errors; or, after s < 7 errors and a good answer, when its second sector has had seven errors in a
  // row (one, if the block ends the partition). With fewer, u, before the second good answer it ends well, at
  // answer s + u + 2. Until then it goes on.
  lemma RequestTurnsOut(h: Hd, es: seq<Event>)
    requires Inv(h) && h.queue != [] && Fresh(h.queue[0]) && InPartition(h, h.queue[0].dev, h.queue[0].start)
    requires AllowedRun(h, es)
    ensures h.queue[0].buf < |h.bufs| && TurnsOut(h, es, h.queue[0], h.bufs[h.queue[0].buf], 0)
  {
    hide Inv, TurnsOut;
    HeadErrors(h);
    FirstSector(h, es, h.queue[0], h.bufs[h.queue[0].buf], 0);
  }

  // So with 14 answers it is over, and its buffer is not valid exactly when one of its sectors had that many errors
  // in a row.
  lemma InvalidIff(h: Hd, es: seq<Event>)
    requires Inv(h) && h.queue != [] && Fresh(h.queue[0]) && InPartition(h, h.queue[0].dev, h.queue[0].start)
    requires AllowedRun(h, es) && |Answers(es)| >= 14
    ensures var (i, a) := (h.queue[0].buf, Answers(es));
      && AllowedRun(h, es[..F.OverAt(h, es, i)])
      && var g := Run(h, es[..F.OverAt(h, es, i)]);
         && !Names(g.queue, i) && i < |g.bufs| && !g.bufs[i].locked
         && (!g.bufs[i].uptodate <==>
              || Errors(a) >= 7
              || Errors(a[Errors(a) + 1..]) >= SecondLimit(h, h.queue[0]))
  {
    hide Inv, AllowedRun, Run, Answers;
    RequestTurnsOut(h, es);
  }
}
