// kernel/blk/rw_blk.c: the order of requests and where a new one is put.
module Elevator {
  import opened Base

  datatype Cmd = Read | Write

  // `slot` is the place of the request in the pool, `at` how far into the buffer it has got.
  datatype Request = Request(slot: nat, dev: nat, cmd: Cmd, errors: nat, start: nat, left: nat, at: nat, buf: nat)

  // Reads before writes, then by device, then by sector.
  predicate InOrder(a: Request, b: Request) {
    || (a.cmd == Read && b.cmd == Write)
    || (a.cmd == b.cmd && a.dev < b.dev)
    || (a.cmd == b.cmd && a.dev == b.dev && a.start < b.start)
  }

  predicate SameKey(a: Request, b: Request) { a.cmd == b.cmd && a.dev == b.dev && a.start == b.start }

  lemma InOrderIsStrict(a: Request, b: Request, c: Request)
    ensures !(InOrder(a, b) && InOrder(b, a))
    ensures InOrder(a, b) && InOrder(b, c) ==> InOrder(a, c)
    ensures InOrder(a, b) || InOrder(b, a) || SameKey(a, b)
  {
  }

  // r fits between a and b, going up or going down.
  predicate Between(a: Request, r: Request, b: Request) {
    (InOrder(a, r) && InOrder(r, b)) || (InOrder(r, a) && InOrder(b, r))
  }

  // The queued request after which r is put: the first with r between it and its successor, or the
  // last.
  function Position(q: seq<Request>, r: Request, from: nat): (p: nat)
    requires from < |q|
    ensures from <= p < |q|
    ensures forall i :: from <= i < p ==> !Between(q[i], r, q[i + 1])
    ensures p + 1 < |q| ==> Between(q[p], r, q[p + 1])
    decreases |q| - from
  {
    if from + 1 == |q| || Between(q[from], r, q[from + 1]) then from else Position(q, r, from + 1)
  }

  // r put right after q[p].
  function PutAfter(q: seq<Request>, r: Request, p: nat): seq<Request>
    requires p < |q|
  {
    q[..p + 1] + [r] + q[p + 1..]
  }

  function Insert(q: seq<Request>, r: Request): seq<Request> {
    if q == [] then [r] else PutAfter(q, r, Position(q, r, 0))
  }

  lemma PutAfterKeeps(q: seq<Request>, r: Request, p: nat)
    requires p < |q|
    ensures var t := PutAfter(q, r, p);
      t[0] == q[0] && multiset(t) == multiset(q) + multiset{r} && t[p + 1] == r && t[..p + 1] + t[p + 2..] == q
  {
    assert q == q[..p + 1] + q[p + 1..];
    var t := PutAfter(q, r, p);
    assert t[..p + 1] == q[..p + 1] && t[p + 2..] == q[p + 1..];
  }

  // The request in service stays first, the others keep their order, and r is added once.
  lemma InsertKeeps(q: seq<Request>, r: Request)
    ensures multiset(Insert(q, r)) == multiset(q) + multiset{r}
    ensures q != [] ==> Insert(q, r)[0] == q[0]
    ensures q != [] ==>
      exists p :: 0 < p < |Insert(q, r)| && Insert(q, r)[p] == r && Insert(q, r)[..p] + Insert(q, r)[p + 1..] == q
  {
    hide PutAfter, Position, Between;
    if q != [] {
      var p := Position(q, r, 0);
      PutAfterKeeps(q, r, p);
      InsertLength(q, r);
      assert Insert(q, r)[p + 1] == r;
    }
  }

  lemma InsertLength(q: seq<Request>, r: Request)
    ensures |Insert(q, r)| == |q| + 1
  {
  }

  // If r has a key of its own, some neighbours have it between them exactly when it lies strictly
  // between the least and the greatest key queued.
  lemma {:induction false} Crosses(q: seq<Request>, r: Request, i: nat, j: nat)
    requires i < j < |q| && (forall k :: 0 <= k < |q| ==> !SameKey(q[k], r)) && InOrder(q[i], r) != InOrder(q[j], r)
    ensures exists k :: i <= k < j && Between(q[k], r, q[k + 1])
    decreases j - i
  {
    hide InOrder, SameKey;
    InOrderIsStrict(q[i], r, q[i]);
    InOrderIsStrict(q[i + 1], r, q[i + 1]);
    if InOrder(q[i], r) == InOrder(q[i + 1], r) {
      Crosses(q, r, i + 1, j);
      var k :| i + 1 <= k < j && Between(q[k], r, q[k + 1]);
    } else {
      assert Between(q[i], r, q[i + 1]);
    }
  }

  lemma PlacedAtCrossing(q: seq<Request>, r: Request)
    requires q != [] && forall k :: 0 <= k < |q| ==> !SameKey(q[k], r)
    ensures Position(q, r, 0) + 1 < |q| <==>
      exists i, j :: 0 <= i < |q| && 0 <= j < |q| && InOrder(q[i], r) && InOrder(r, q[j])
  {
    var p := Position(q, r, 0);
    if p + 1 < |q| {
      if InOrder(q[p], r) { assert InOrder(r, q[p + 1]); } else { assert InOrder(r, q[p]) && InOrder(q[p + 1], r); }
    }
    if i, j :| 0 <= i < |q| && 0 <= j < |q| && InOrder(q[i], r) && InOrder(r, q[j]) {
      InOrderIsStrict(r, q[j], r);
      Crosses(q, r, if i < j then i else j, if i < j then j else i);
    }
  }

  // ---- reversals and travel ------------------------------------------------------------------

  predicate Turns(a: Request, b: Request, c: Request) {
    (InOrder(a, b) && InOrder(c, b)) || (InOrder(b, a) && InOrder(b, c))
  }

  // How often the queue changes direction.
  function Reversals(q: seq<Request>): nat {
    if |q| < 3 then 0 else (if Turns(q[0], q[1], q[2]) then 1 else 0) + Reversals(q[1..])
  }

  function Distance(a: Request, b: Request): nat { if a.start < b.start then b.start - a.start else a.start - b.start }

  // The sectors passed over when the queue is served in order.
  function Travel(q: seq<Request>): nat {
    if |q| < 2 then 0 else Distance(q[0], q[1]) + Travel(q[1..])
  }

  lemma PutAfterTail(q: seq<Request>, r: Request, p: nat)
    requires 0 < p < |q|
    ensures PutAfter(q, r, p)[1..] == PutAfter(q[1..], r, p - 1) && PutAfter(q, r, p)[0] == q[0]
    ensures PutAfter(q, r, p)[1] == q[1]
  {
  }

  lemma {:induction false} CrossingAddsNoTravel(q: seq<Request>, r: Request, p: nat)
    requires p + 1 < |q| && Between(q[p], r, q[p + 1])
    requires forall k :: 0 <= k < |q| ==> q[k].cmd == r.cmd && q[k].dev == r.dev
    ensures Travel(PutAfter(q, r, p)) == Travel(q)
  {
    if p == 0 {
      assert PutAfter(q, r, 0)[1..] == [r] + q[1..];
      assert ([r] + q[1..])[1..] == q[1..];
    } else {
      PutAfterTail(q, r, p);
      CrossingAddsNoTravel(q[1..], r, p - 1);
    }
  }

  lemma {:induction false} CrossingAddsNoReversal(q: seq<Request>, r: Request, p: nat)
    requires p + 1 < |q| && Between(q[p], r, q[p + 1])
    ensures Reversals(PutAfter(q, r, p)) == Reversals(q)
  {
    if p == 0 {
      var t := PutAfter(q, r, 0);
      assert t[1..] == [r] + q[1..];
      assert ([r] + q[1..])[1..] == q[1..];
      SameDirection(q[0], r, q[1]);
      if |q| > 2 { assert Turns(r, q[1], q[2]) == Turns(q[0], q[1], q[2]); }
      assert !Turns(q[0], r, q[1]);
    } else {
      PutAfterTail(q, r, p);
      CrossingAddsNoReversal(q[1..], r, p - 1);
      if p == 1 { SameDirection(q[1], r, q[2]); }
    }
  }

  lemma SameDirection(a: Request, r: Request, b: Request)
    requires Between(a, r, b)
    ensures InOrder(a, r) == InOrder(a, b) == InOrder(r, b)
    ensures InOrder(r, a) == InOrder(b, a) == InOrder(b, r)
  {
  }

  // A new request with a key of its own between the least and the greatest queued adds no change of
  // direction, and if all concern one command and device it adds no travel.
  lemma ElevatorStaysOnCourse(q: seq<Request>, r: Request, i: nat, j: nat)
    requires i < |q| && j < |q| && InOrder(q[i], r) && InOrder(r, q[j])
    requires forall k :: 0 <= k < |q| ==> !SameKey(q[k], r)
    ensures Reversals(Insert(q, r)) == Reversals(q)
    ensures (forall k :: 0 <= k < |q| ==> q[k].cmd == r.cmd && q[k].dev == r.dev) ==> Travel(Insert(q, r)) == Travel(q)
  {
    PlacedAtCrossing(q, r);
    var p := Position(q, r, 0);
    assert Insert(q, r) == PutAfter(q, r, p);
    CrossingAddsNoReversal(q, r, p);
    if forall k :: 0 <= k < |q| ==> q[k].cmd == r.cmd && q[k].dev == r.dev { CrossingAddsNoTravel(q, r, p); }
  }
}
