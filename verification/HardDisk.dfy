// kernel/blk in place: the pool of request slots, the list threaded through it, and the interrupt
// handlers of the hard disk.
module HardDisk {
  import opened Base
  import opened Elevator
  import M = DiskModel
  import P = DiskProofs
  import S = DiskService

  predicate Has(slots: seq<Option<Request>>, i: nat) { i < |slots| && slots[i].Some? }

  function At(slots: seq<Option<Request>>, i: nat): Request
    requires Has(slots, i)
  {
    slots[i].value
  }

  // The requests of the slots in `order`.
  ghost function QueueOf(slots: seq<Option<Request>>, order: seq<nat>): (q: seq<Request>)
    requires forall k :: 0 <= k < |order| ==> Has(slots, order[k])
    ensures |q| == |order| && forall k :: 0 <= k < |q| ==> q[k] == At(slots, order[k])
  {
    seq(|order|, k requires 0 <= k < |order| => At(slots, order[k]))
  }

  function NextIn(order: seq<nat>, k: nat): Option<nat> {
    if k + 1 < |order| then Some(order[k + 1]) else None
  }

  // The registers of a drive for sector n, and the sector they stand for.
  lemma SplitIs(n: nat, d: M.Drive)
    requires d.heads > 0 && d.track > 0
    ensures M.Split(n, d) == M.Chs(n / d.track / d.heads, n / d.track % d.heads, n % d.track + 1)
    ensures M.Absolute(M.Split(n, d), d) == n
  {
    P.SplitInverts(n, d);
  }

  // `order` lists each slot in use once.
  ghost predicate Lists(slots: seq<Option<Request>>, order: seq<nat>) {
    && (forall k :: 0 <= k < |order| ==> Has(slots, order[k]))
    && (forall k, l :: 0 <= k < l < |order| ==> order[k] != order[l])
    && (forall i: nat :: Has(slots, i) ==> i in order && At(slots, i).slot == i)
  }

  ghost predicate Linked(next: seq<Option<nat>>, order: seq<nat>) {
    forall k :: 0 <= k < |order| ==> order[k] < |next| && next[order[k]] == NextIn(order, k)
  }

  // The list from `head` visits exactly the slots in use, in the given order.
  ghost predicate Threads(slots: seq<Option<Request>>, next: seq<Option<nat>>, head: Option<nat>, order: seq<nat>) {
    && |slots| == |next| == M.NR_REQUEST && Lists(slots, order) && Linked(next, order)
    && head == (if order == [] then None else Some(order[0]))
  }

  class HardDisk {
    const slots: array<Option<Request>>   // blk_request, None for dev == -1
    const next: array<Option<nat>>
    const bufs: array<M.Buf>
    const parts: seq<M.Partition>
    const drives: seq<M.Drive>
    const count: nat
    var head: Option<nat>                 // current_request
    var phase: M.Phase
    var media: map<M.Place, M.Sector>
    ghost var order: seq<nat>

    ghost predicate Valid()
      reads this, slots, next, bufs
    {
      && slots as object != next && slots as object != bufs && next as object != bufs
      && Threads(slots[..], next[..], head, order) && M.Shaped(Abs())
    }

    ghost function Abs(): M.Hd
      requires Threads(slots[..], next[..], head, order)
      reads this, slots, next, bufs
    {
      M.Hd(QueueOf(slots[..], order), bufs[..], phase, media, parts, drives, count)
    }

    // blk_dev_init, with the pool's own number of slots.
    constructor (n: nat, parts: seq<M.Partition>, drives: seq<M.Drive>, count: nat)
      requires 1 <= count <= 2 && |parts| == 10 && |drives| == 2
      requires forall d :: 0 <= d < count ==> drives[d].heads > 0 && drives[d].track > 0
      ensures Valid() && P.Inv(Abs()) && fresh(slots) && fresh(next) && fresh(bufs) && bufs.Length == n
    {
      slots := new Option<Request>[M.NR_REQUEST](i => None);
      next := new Option<nat>[M.NR_REQUEST](i => None);
      bufs := new M.Buf[n](i => M.Buf(0, 0, false, false, false, ZeroBlock()));
      this.parts, this.drives, this.count := parts, drives, count;
      head, phase, media, order := None, M.Idle, map[], [];
      new;
      assert forall i: nat :: !Has(slots[..], i);
      assert forall i :: 0 <= i < n ==> bufs[..][i] == M.Buf(0, 0, false, false, false, ZeroBlock());
    }

    method EndRequest(ok: bool)
      requires Valid() && head.Some?
      modifies slots, bufs, this`head, this`order
      ensures Valid() && Abs() == M.EndRequest(old(Abs()), ok)
    {
      hide Lists, Linked, NextIn;
      FirstInQueue(slots[..], order);
      ghost var h := Abs();
      var i := head.value;
      var r := slots[i].value;
      bufs[r.buf] := M.Finished(bufs[r.buf], r.cmd, ok);
      slots[i] := None;
      head := next[i];
      order := order[1..];
      EndLists(old(slots[..]), old(order));
      EndLinked(next[..], old(order));
      assert slots[..] == old(slots[..])[i := None];
      assert bufs[..] == old(bufs[..])[r.buf := M.Finished(old(bufs[..])[r.buf], r.cmd, ok)];
    }

    // do_hd_request; a request that its partition cannot hold ends, and the next one is tried.
    method DoHdRequest()
      requires Valid()
      modifies slots, bufs, this`head, this`order, this`phase
      ensures Valid() && Abs() == M.DoHdRequest(old(Abs()))
    {
      hide M.EndRequest, M.Command;
      while head.Some?
        invariant Valid() && M.DoHdRequest(Abs()) == M.DoHdRequest(old(Abs()))
        decreases |order|
      {
        FirstInQueue(slots[..], order);
        var r := slots[head.value].value;
        var minor := r.dev % 0x100;
        if minor >= 5 * count || r.start + 2 > parts[minor].size {
          EndRequest(false);
        } else {
          HdCmdOut(r, minor);
          return;
        }
      }
      phase := M.Idle;
    }

    // The command registers: cylinder, head and sector of the request's next sector.
    method HdCmdOut(r: Request, minor: nat)
      requires Valid() && Abs().queue != [] && r == Abs().queue[0] && minor == r.dev % 0x100 && !M.Rejected(Abs(), r)
      modifies this`phase
      ensures Valid() && Abs() == M.Command(old(Abs()))
      ensures phase.Busy? && phase.place == M.Place(minor / 5, r.start + parts[minor].start)
    {
      hide M.Absolute, M.Split, Lists, Linked, M.Chunk;
      var block := r.start + parts[minor].start;
      var d := drives[minor / 5];
      var sector := block % d.track + 1;
      var track := block / d.track;
      var cylinder := track / d.heads;
      var h := track % d.heads;
      SplitIs(block, d);
      phase := M.Busy(M.Place(minor / 5, M.Absolute(M.Chs(cylinder, h, sector), d)), M.Chunk(bufs[r.buf].data, r.at));
    }

    // Slot i, which is free, is filled with r and put in an empty list.
    method AddFirst(i: nat, r: Request)
      requires Valid() && i < M.NR_REQUEST && slots[i].None? && r.slot == i && M.Fits(Abs(), r) && head.None?
      modifies slots, next, this`head, this`order
      ensures Valid() && old(Abs()).queue == [] && Abs() == old(Abs()).(queue := [r])
    {
      OnlySlot(slots[..], i, r);
      slots[i], next[i] := Some(r), None;
      head, order := Some(i), [i];
      assert slots[..] == old(slots[..])[i := Some(r)];
      assert QueueOf(slots[..], order) == [r];
    }

    // Links slot i, which gets r, after the t-th slot of the list.
    method Splice(i: nat, r: Request, tmp: nat, ghost t: nat)
      requires Valid() && i < M.NR_REQUEST && slots[i].None? && r.slot == i && M.Fits(Abs(), r)
      requires t < |order| && tmp == order[t] && tmp < M.NR_REQUEST
      requires M.Shaped(Abs().(queue := PutAfter(Abs().queue, r, t)))
      modifies slots, next, this`order
      ensures Valid() && t < |old(Abs()).queue| && Abs() == old(Abs()).(queue := PutAfter(old(Abs()).queue, r, t))
    {
      hide Lists, Linked, NextIn;
      ghost var o := order[..t + 1] + [i] + order[t + 1..];
      InsertLists(slots[..], order, i, r, t + 1);
      InsertLinked(slots[..], next[..], order, i, t);
      next[i] := next[tmp];
      next[tmp] := Some(i);
      slots[i] := Some(r);
      order := o;
      assert slots[..] == old(slots[..])[i := Some(r)];
      assert next[..] == old(next[..])[i := old(next[..])[tmp]][tmp := Some(i)];
      assert o[0] == old(order)[0];
    }

    // In a list that is not empty, the place is found by the elevator rule.
    method AddAfter(i: nat, r: Request)
      requires Valid() && i < M.NR_REQUEST && slots[i].None? && r.slot == i && M.Fits(Abs(), r) && head.Some?
      modifies slots, next, this`order
      ensures Valid() && old(Abs()).queue != [] && Abs() == old(Abs()).(queue := Insert(old(Abs()).queue, r))
    {
      hide Between, Lists, Linked, PutAfter, M.Fits;
      ghost var q := Abs().queue;
      InsertShaped(Abs(), r);
      OrderInUse(slots[..], next[..], order);
      var tmp := head.value;
      ghost var t := 0;
      while next[tmp].Some? && !Between(slots[tmp].value, r, slots[next[tmp].value].value)
        invariant t < |order| && tmp == order[t] && Position(q, r, 0) == Position(q, r, t)
        decreases |order| - t
      {
        tmp := next[tmp].value;
        t := t + 1;
      }
      Splice(i, r, tmp, t);
    }

    method AddRequest(i: nat, r: Request)
      requires Valid() && i < M.NR_REQUEST && slots[i].None? && r.slot == i && M.Fits(Abs(), r)
      modifies slots, next, bufs, this`head, this`order, this`phase
      ensures Valid() && M.Shaped(old(Abs()).(queue := Insert(old(Abs()).queue, r)))
      ensures var n := old(Abs()).(queue := Insert(old(Abs()).queue, r));
        Abs() == if old(Abs()).queue == [] then M.DoHdRequest(n) else n
    {
      hide M.DoHdRequest, Lists, Linked;
      InsertShaped(Abs(), r);
      if head.None? {
        AddFirst(i, r);
        DoHdRequest();
      } else {
        AddAfter(i, r);
      }
    }

    // The first slot that is not in use.
    method FindSlot() returns (s: nat)
      requires Valid()
      ensures s == M.FreeSlot(Abs().queue, 0) && (s < M.NR_REQUEST ==> slots[s].None?)
    {
      SlotsInUse(slots[..], next[..], head, order);
      s := 0;
      while s < M.NR_REQUEST && slots[s].Some?
        invariant s <= M.NR_REQUEST && M.FreeSlot(Abs().queue, 0) == M.FreeSlot(Abs().queue, s)
      {
        s := s + 1;
      }
    }

    // False where the caller would sleep.
    method RwBlk(cmd: Cmd, i: nat) returns (done: bool)
      requires Valid() && i < bufs.Length
      modifies slots, next, bufs, this`head, this`order, this`phase
      ensures Valid() && done == M.RwBlk(old(Abs()), cmd, i).Some?
      ensures Abs() == if done then M.RwBlk(old(Abs()), cmd, i).value else old(Abs())
    {
      hide M.DoHdRequest, Insert, M.FreeSlot;
      var b := bufs[i];
      if b.dev / 0x100 != M.MAJOR_HD {
        return true;
      }
      if b.locked {
        return false;
      }
      if (cmd == Read && b.uptodate) || (cmd == Write && !b.dirty) {
        return true;
      }
      var s := FindSlot();
      if s == M.NR_REQUEST {
        return false;
      }
      bufs[i] := b.(locked := true);
      assert bufs[..] == old(bufs[..])[i := b.(locked := true)];
      AddRequest(s, Request(s, b.dev, cmd, 0, b.block * 4, M.SECTORS, 0, i));
      return true;
    }

    // ---- interrupts ------------------------------------------------------------------------

    // Replaces the record of the request in service.
    method SetHead(r: Request)
      requires Valid() && head.Some? && r.slot == head.value && M.Fits(Abs(), r)
      modifies slots
      ensures Valid() && Abs() == old(Abs()).(queue := old(Abs()).queue[0 := r])
    {
      HeadLists(slots[..], order, r);
      slots[head.value] := Some(r);
      assert slots[..] == old(slots[..])[head.value := Some(r)];
    }

    method FailedRw()
      requires Valid() && head.Some?
      modifies slots, bufs, this`head, this`order
      ensures Valid() && M.Shaped(old(Abs())) && old(Abs()).queue != []
      ensures Abs() == AfterFailure(old(Abs()))
    {
      hide M.EndRequest, Lists, Linked;
      FirstInQueue(slots[..], order);
      var r := slots[head.value].value;
      SetHead(r.(errors := r.errors + 1));
      if r.errors + 1 >= M.MAX_ERRORS {
        EndRequest(false);
      }
    }

    // The request in service moves on to its next sector, or ends.
    method NextSector()
      requires Valid() && head.Some? && phase.Busy?
      modifies slots, bufs, this`head, this`order, this`phase
      ensures Valid() && M.Shaped(old(Abs())) && old(Abs()).queue != []
      ensures var (g, ended) := M.Advance(old(Abs())); Abs() == if ended then M.DoHdRequest(g) else g
    {
      hide M.EndRequest, M.DoHdRequest, Lists, Linked;
      FirstInQueue(slots[..], order);
      var r := slots[head.value].value;
      var p := phase.place;
      if r.left > 1 {
        SetHead(r.(errors := 0, at := r.at + M.SECTOR_SIZE, start := r.start + 1, left := r.left - 1));
        phase := M.Busy(M.Place(p.drive, p.sector + 1), M.Chunk(bufs[r.buf].data, r.at + M.SECTOR_SIZE));
        return;
      }
      EndRequest(true);
      DoHdRequest();
    }

    method Fail()
      requires Valid() && head.Some? && phase.Busy?
      modifies slots, bufs, this`head, this`order, this`phase
      ensures Valid() && Abs() == M.Interrupt(old(Abs()), false)
    {
      hide M.Interrupt, M.DoHdRequest, AfterFailure, Lists, Linked;
      FailureIsError(Abs());
      FailedRw();
      DoHdRequest();
    }

    method IntHdRead(ok: bool)
      requires Valid() && head.Some? && phase.Busy? && Abs().queue[0].cmd == Read
      modifies slots, bufs, this`head, this`order, this`phase
      ensures Valid() && Abs() == M.Interrupt(old(Abs()), ok)
    {
      hide M.DoHdRequest, M.Advance, M.OnError, Lists, Linked;
      if !ok {
        Fail();
        return;
      }
      FirstInQueue(slots[..], order);
      var r := slots[head.value].value;
      var p := phase.place;
      var sector := if p in media then media[p] else seq(M.SECTOR_SIZE, i => 0 as byte);
      bufs[r.buf] := bufs[r.buf].(data := PutBytes(bufs[r.buf].data, r.at, sector));
      ghost var b := old(bufs[..])[r.buf];
      assert bufs[..] == old(bufs[..])[r.buf := b.(data := PutBytes(b.data, r.at, sector))];
      NextSector();
    }

    method IntHdWrite(ok: bool)
      requires Valid() && head.Some? && phase.Busy? && Abs().queue[0].cmd == Write
      modifies slots, bufs, this`head, this`order, this`phase, this`media
      ensures Valid() && Abs() == M.Interrupt(old(Abs()), ok)
    {
      hide M.DoHdRequest, M.Advance, M.OnError, Lists, Linked;
      if !ok {
        Fail();
        return;
      }
      media := media[phase.place := phase.sent];
      NextSector();
    }

    method IrqHdHandler(ok: bool)
      requires Valid()
      modifies slots, bufs, this`head, this`order, this`phase, this`media
      ensures Valid() && Abs() == M.Interrupt(old(Abs()), ok)
    {
      hide M.HeadStep, M.DoHdRequest, Lists, Linked;
      if head.Some? && phase.Busy? {
        FirstInQueue(slots[..], order);
        if slots[head.value].value.cmd == Read {
          IntHdRead(ok);
        } else {
          IntHdWrite(ok);
        }
      }
    }
  }

  // failed_rw on the first request.
  function AfterFailure(h: M.Hd): (r: M.Hd)
    requires M.Shaped(h) && h.queue != []
    ensures M.Shaped(r)
  {
    var q := h.queue[0];
    var e := h.(queue := h.queue[0 := q.(errors := q.errors + 1)]);
    if q.errors + 1 >= M.MAX_ERRORS then M.EndRequest(e, false) else e
  }

  // failed_rw followed by do_hd_request is the model's error step.
  lemma FailureIsError(h: M.Hd)
    requires M.Shaped(h) && h.queue != [] && h.phase.Busy?
    ensures M.Interrupt(h, false) == M.DoHdRequest(AfterFailure(h))
  {
    hide M.EndRequest, M.Command, M.Rejected;
  }

  lemma FirstInQueue(slots: seq<Option<Request>>, order: seq<nat>)
    requires Lists(slots, order)
    ensures order != [] ==> Has(slots, order[0]) && At(slots, order[0]).slot == order[0]
  {
    if order != [] { assert Has(slots, order[0]); }
  }

  lemma OrderInUse(slots: seq<Option<Request>>, next: seq<Option<nat>>, order: seq<nat>)
    requires Lists(slots, order) && Linked(next, order)
    ensures forall k :: 0 <= k < |order| ==>
      Has(slots, order[k]) && order[k] < |next| && next[order[k]] == NextIn(order, k)
  {
  }

  // A slot is free exactly when no queued request has it.
  lemma SlotsInUse(slots: seq<Option<Request>>, next: seq<Option<nat>>, head: Option<nat>, order: seq<nat>)
    requires Threads(slots, next, head, order)
    ensures forall s: nat :: s < M.NR_REQUEST ==> M.SlotUsed(QueueOf(slots, order), s) == slots[s].Some?
  {
    var q := QueueOf(slots, order);
    forall k | 0 <= k < |q| ensures q[k].slot == order[k] && Has(slots, order[k]) { assert Has(slots, order[k]); }
    forall s: nat | s < M.NR_REQUEST && slots[s].Some? ensures M.SlotUsed(q, s) {
      assert Has(slots, s);
      var k :| 0 <= k < |order| && order[k] == s;
      assert q[k].slot == s;
    }
  }

  lemma InsertShaped(h: M.Hd, r: Request)
    requires M.Shaped(h) && M.Fits(h, r)
    ensures M.Shaped(h.(queue := Insert(h.queue, r)))
  {
    var g := h.(queue := Insert(h.queue, r));
    forall k | 0 <= k < |g.queue| ensures M.Fits(g, g.queue[k]) {
      assert g.queue[k] == r || g.queue[k] in h.queue;
    }
  }

  lemma OnlySlot(slots: seq<Option<Request>>, i: nat, r: Request)
    requires Lists(slots, []) && i < |slots| && r.slot == i
    ensures Lists(slots[i := Some(r)], [i])
  {
    var t := slots[i := Some(r)];
    forall j: nat | j != i ensures !Has(t, j) { assert Has(t, j) ==> Has(slots, j); }
    assert At(t, i).slot == i;
  }

  lemma EndLists(slots: seq<Option<Request>>, order: seq<nat>)
    requires order != [] && Lists(slots, order)
    ensures order[0] < |slots| && Lists(slots[order[0] := None], order[1..])
    ensures QueueOf(slots[order[0] := None], order[1..]) == QueueOf(slots, order)[1..]
  {
    assert Has(slots, order[0]);
    var t := slots[order[0] := None];
    forall i: nat | Has(t, i) ensures i in order[1..] && At(t, i).slot == i {
      assert Has(slots, i);
      var k :| 0 <= k < |order| && order[k] == i;
      assert order[1..][k - 1] == i;
    }
    forall k | 0 <= k < |order[1..]| ensures Has(t, order[1..][k]) { assert Has(slots, order[k + 1]); }
  }

  lemma EndLinked(next: seq<Option<nat>>, order: seq<nat>)
    requires order != [] && Linked(next, order)
    ensures order[0] < |next| && Linked(next, order[1..])
    ensures next[order[0]] == if order[1..] == [] then None else Some(order[1..][0])
  {
    var rest := order[1..];
    forall k: nat | k < |rest| ensures rest[k] < |next| && next[rest[k]] == NextIn(rest, k) {
      assert rest[k] == order[k + 1];
      assert next[order[k + 1]] == NextIn(order, k + 1);
    }
    assert next[order[0]] == NextIn(order, 0);
  }

  lemma HeadLists(slots: seq<Option<Request>>, order: seq<nat>, r: Request)
    requires Lists(slots, order) && order != [] && r.slot == order[0] && order[0] < |slots|
    ensures Lists(slots[order[0] := Some(r)], order)
    ensures QueueOf(slots[order[0] := Some(r)], order) == QueueOf(slots, order)[0 := r]
  {
    var t := slots[order[0] := Some(r)];
    forall i: nat ensures Has(t, i) == Has(slots, i) { assert Has(slots, order[0]); }
  }

  lemma InsertLists(slots: seq<Option<Request>>, order: seq<nat>, i: nat, r: Request, p: nat)
    requires Lists(slots, order) && i < |slots| && slots[i].None? && r.slot == i && p <= |order|
    ensures Lists(slots[i := Some(r)], order[..p] + [i] + order[p..])
    ensures QueueOf(slots[i := Some(r)], order[..p] + [i] + order[p..]) ==
      QueueOf(slots, order)[..p] + [r] + QueueOf(slots, order)[p..]
  {
    var t, o := slots[i := Some(r)], order[..p] + [i] + order[p..];
    forall k: nat | k < |order| ensures order[k] != i { assert Has(slots, order[k]); }
    forall k | 0 <= k < |o| ensures Has(t, o[k]) {
      if k < p { assert Has(slots, order[k]); } else if k > p { assert Has(slots, order[k - 1]); }
    }
    forall j: nat | Has(t, j) ensures j in o && At(t, j).slot == j {
      if j == i {
        assert o[p] == j;
      } else {
        assert Has(slots, j);
        var k :| 0 <= k < |order| && order[k] == j;
        assert o[if k < p then k else k + 1] == j;
      }
    }
  }

  lemma InsertLinkAt(next: seq<Option<nat>>, order: seq<nat>, i: nat, t: nat, k: nat)
    requires Linked(next, order) && t < |order| && i < |next| && order[t] < |next| && k <= |order|
    requires forall l :: 0 <= l < |order| ==> order[l] != i && (l != t ==> order[l] != order[t])
    ensures var n, o := next[i := next[order[t]]][order[t] := Some(i)], order[..t + 1] + [i] + order[t + 1..];
      o[k] < |n| && n[o[k]] == NextIn(o, k)
  {
    var o := order[..t + 1] + [i] + order[t + 1..];
    assert next[order[t]] == NextIn(order, t);
    if k < t {
      assert o[k] == order[k] && next[order[k]] == NextIn(order, k);
    } else if k > t + 1 {
      assert o[k] == order[k - 1] && next[order[k - 1]] == NextIn(order, k - 1);
    }
  }

  lemma InsertLinked(slots: seq<Option<Request>>, next: seq<Option<nat>>, order: seq<nat>, i: nat, t: nat)
    requires Lists(slots, order) && Linked(next, order) && t < |order| && i < |next| && !Has(slots, i)
    ensures order[t] < |next|
    ensures Linked(next[i := next[order[t]]][order[t] := Some(i)], order[..t + 1] + [i] + order[t + 1..])
  {
    hide NextIn;
    assert next[order[t]] == NextIn(order, t);
    forall l | 0 <= l < |order| ensures order[l] != i { assert Has(slots, order[l]); }
    var n, o := next[i := next[order[t]]][order[t] := Some(i)], order[..t + 1] + [i] + order[t + 1..];
    forall k: nat | k < |o| ensures o[k] < |n| && n[o[k]] == NextIn(o, k) { InsertLinkAt(next, order, i, t, k); }
  }
}
