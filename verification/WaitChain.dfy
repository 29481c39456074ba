// The chain of sleepers that sleep_on builds: the head cell points at the newest, and each sleeper
// keeps the previous head in a local variable on its own stack.
module WaitChain {
  import opened Base

  // `tmp` holds the local variable of every process inside sleep_on.
  datatype Chain = Chain(head: Option<nat>, tmp: map<nat, Option<nat>>, runnable: set<nat>)

  // sleep_on up to its call of schedule.
  function Join(w: Chain, p: nat): Chain {
    Chain(Some(p), w.tmp[p := w.head], w.runnable - {p})
  }

  // wake_up on the process at the head.
  function WakeHead(w: Chain): Chain {
    if w.head.Some? then w.(runnable := w.runnable + {w.head.value}) else w
  }

  // The rest of sleep_on, once process p runs again.
  function Resume(w: Chain, p: nat): Chain
    requires p in w.tmp
  {
    var next := w.tmp[p];
    Chain(next, w.tmp - {p}, if next.Some? then w.runnable + {next.value} else w.runnable)
  }

  datatype Event = Wakes | Resumes(p: nat) | Other(q: nat, runs: bool)

  // A process resumes when it is runnable; other processes stop and start as they like.
  predicate Allowed(w: Chain, e: Event) {
    match e
    case Wakes => true
    case Resumes(p) => p in w.tmp && p in w.runnable
    case Other(q, runs) => q !in w.tmp
  }

  function Step(w: Chain, e: Event): Chain
    requires Allowed(w, e)
  {
    match e
    case Wakes => WakeHead(w)
    case Resumes(p) => Resume(w, p)
    case Other(q, runs) => w.(runnable := if runs then w.runnable + {q} else w.runnable - {q})
  }

  predicate AllowedRun(w: Chain, es: seq<Event>)
    decreases |es|
  {
    es == [] || (Allowed(w, es[0]) && AllowedRun(Step(w, es[0]), es[1..]))
  }

  function Run(w: Chain, es: seq<Event>): Chain
    requires AllowedRun(w, es)
    decreases |es|
  {
    if es == [] then w else Run(Step(w, es[0]), es[1..])
  }

  // The processes that resumed, in order.
  function Resumed(es: seq<Event>): seq<nat> {
    if es == [] then [] else (if es[0].Resumes? then [es[0].p] else []) + Resumed(es[1..])
  }

  // ---- chains --------------------------------------------------------------------------------

  // Following the local variables from the head visits c.
  predicate Links(head: Option<nat>, tmp: map<nat, Option<nat>>, c: seq<nat>)
    decreases |c|
  {
    if c == [] then head == None
    else head == Some(c[0]) && c[0] in tmp && Links(tmp[c[0]], tmp, c[1..])
  }

  predicate Distinct(c: seq<nat>) {
    c == [] || (c[0] !in c[1..] && Distinct(c[1..]))
  }

  // c lists the sleepers from the head on; all but the first are asleep.
  ghost predicate IsChain(w: Chain, c: seq<nat>) {
    && Links(w.head, w.tmp, c) && Distinct(c)
    && (forall p :: p in w.tmp <==> p in c)
    && (c != [] ==> forall p :: p in c[1..] ==> p !in w.runnable)
  }

  lemma {:induction false} LinksFrame(head: Option<nat>, tmp: map<nat, Option<nat>>, other: map<nat, Option<nat>>,
      c: seq<nat>)
    requires Links(head, tmp, c) && forall p :: p in c ==> p in other && (p in tmp ==> other[p] == tmp[p])
    ensures Links(head, other, c)
    decreases |c|
  {
    if c != [] { LinksFrame(tmp[c[0]], tmp, other, c[1..]); }
  }

  // A sleeper points at a later member of its chain.
  lemma {:induction false} PointsLater(head: Option<nat>, tmp: map<nat, Option<nat>>, c: seq<nat>, p: nat)
    requires Links(head, tmp, c) && p in c && p in tmp && tmp[p].Some?
    ensures tmp[p].value in c[1..]
    decreases |c|
  {
    if p == c[0] {
      assert c[1..] != [];
    } else {
      assert p in c[1..];
      PointsLater(tmp[c[0]], tmp, c[1..], p);
    }
  }

  lemma JoinKeeps(w: Chain, c: seq<nat>, p: nat)
    requires IsChain(w, c) && p !in c && (c != [] ==> c[0] !in w.runnable)
    ensures IsChain(Join(w, p), [p] + c)
  {
    assert ([p] + c)[1..] == c;
    LinksFrame(w.head, w.tmp, Join(w, p).tmp, c);
  }

  function Joins(w: Chain, ps: seq<nat>): Chain {
    if ps == [] then w else Join(Joins(w, ps[..|ps| - 1]), ps[|ps| - 1])
  }

  function Newest(ps: seq<nat>): (r: seq<nat>)
    ensures |r| == |ps| && forall i :: 0 <= i < |ps| ==> r[i] == ps[|ps| - 1 - i]
  {
    if ps == [] then [] else [ps[|ps| - 1]] + Newest(ps[..|ps| - 1])
  }

  // Any number of processes going to sleep one after the other form a chain, newest first.
  lemma {:induction false} SleepersFormChain(running: set<nat>, ps: seq<nat>)
    requires forall i, j :: 0 <= i < j < |ps| ==> ps[i] != ps[j]
    ensures IsChain(Joins(Chain(None, map[], running), ps), Newest(ps))
    ensures Joins(Chain(None, map[], running), ps).runnable == running - (set p | p in ps)
  {
    if ps != [] {
      var qs := ps[..|ps| - 1];
      SleepersFormChain(running, qs);
      JoinKeeps(Joins(Chain(None, map[], running), qs), Newest(qs), ps[|ps| - 1]);
    }
  }

  lemma FirstOrRest(c: seq<nat>, p: nat)
    requires p in c
    ensures c != [] && (p != c[0] ==> p in c[1..])
  {
  }

  // Only the head can resume; it wakes the next, and nobody else starts or stops.
  lemma ResumeKeeps(w: Chain, c: seq<nat>, p: nat)
    requires IsChain(w, c) && p in w.tmp && p in w.runnable
    ensures c != [] && p == c[0]
    ensures IsChain(Resume(w, p), c[1..])
    ensures Resume(w, p).runnable == w.runnable + if |c| > 1 then {c[1]} else {}
  {
    FirstOrRest(c, p);
    LinksFrame(w.tmp[p], w.tmp, Resume(w, p).tmp, c[1..]);
  }

  lemma StepKeeps(w: Chain, c: seq<nat>, e: Event)
    requires IsChain(w, c) && Allowed(w, e)
    ensures e.Resumes? ==>
      c != [] && e.p == c[0] && IsChain(Step(w, e), c[1..]) && (|c| > 1 ==> c[1] in Step(w, e).runnable)
    ensures !e.Resumes? ==> IsChain(Step(w, e), c) && (c != [] && c[0] in w.runnable ==> c[0] in Step(w, e).runnable)
    ensures e.Wakes? ==> Step(w, e).runnable == w.runnable + if c != [] then {c[0]} else {}
  {
    match e
    case Resumes(p) => ResumeKeeps(w, c, p);
    case Other(q, runs) =>
    case Wakes =>
  }

  // Whatever else happens, sleepers leave one at a time, newest first; and once the head is awake
  // the chain keeps an awake head until it is empty.
  lemma {:induction false} DrainsInOrder(w: Chain, c: seq<nat>, es: seq<Event>)
    requires IsChain(w, c) && AllowedRun(w, es)
    ensures |Resumed(es)| <= |c| && Resumed(es) == c[..|Resumed(es)|]
    ensures IsChain(Run(w, es), c[|Resumed(es)|..])
    ensures (c != [] ==> c[0] in w.runnable) && |Resumed(es)| < |c| ==> c[|Resumed(es)|] in Run(w, es).runnable
    decreases |es|
  {
    hide IsChain, Step, Allowed;
    if es != [] {
      StepKeeps(w, c, es[0]);
      if es[0].Resumes? {
        DrainsInOrder(Step(w, es[0]), c[1..], es[1..]);
        var n := |Resumed(es[1..])|;
        assert Resumed(es) == [c[0]] + Resumed(es[1..]);
        assert c[..n + 1] == [c[0]] + c[1..][..n];
        assert c[1..][n..] == c[n + 1..];
      } else {
        DrainsInOrder(Step(w, es[0]), c, es[1..]);
        assert Resumed(es) == Resumed(es[1..]);
      }
    }
  }

  lemma HeadInside(w: Chain, c: seq<nat>)
    requires IsChain(w, c)
    ensures c == [] ==> w.head == None && w.tmp == map[]
    ensures c != [] ==> c[0] in w.tmp
  {
    if c != [] { assert c[0] in c; }
  }

  // One wake_up drains a chain of any length: when nobody in it can run any further, everybody has
  // left, newest first, and the head is null.
  lemma OneWakeUpDrains(w: Chain, c: seq<nat>, es: seq<Event>)
    requires IsChain(w, c) && AllowedRun(WakeHead(w), es)
    requires forall p :: p in Run(WakeHead(w), es).tmp ==> p !in Run(WakeHead(w), es).runnable
    ensures Resumed(es) == c
    ensures Run(WakeHead(w), es).head == None && Run(WakeHead(w), es).tmp == map[]
  {
    StepKeeps(w, c, Wakes);
    DrainsInOrder(WakeHead(w), c, es);
    HeadInside(Run(WakeHead(w), es), c[|Resumed(es)|..]);
    assert c[..|c|] == c;
  }

  // ---- a process that joins while the chain drains -------------------------------------------

  // x sleeps in the chain's bookkeeping, but neither the head nor any sleeper points at it.
  predicate Lost(w: Chain, x: nat) {
    x in w.tmp && x !in w.runnable && w.head != Some(x) && forall p :: p in w.tmp ==> w.tmp[p] != Some(x)
  }

  // If x joins after the head c[0] was woken but before it resumed, c[0] drops x from the chain.
  lemma JoinerIsDropped(w: Chain, c: seq<nat>, x: nat)
    requires IsChain(w, c) && c != [] && c[0] in w.runnable && x !in c
    ensures Allowed(Join(w, x), Resumes(c[0]))
    ensures Lost(Step(Join(w, x), Resumes(c[0])), x)
  {
    var u := Step(Join(w, x), Resumes(c[0]));
    forall p | p in u.tmp ensures u.tmp[p] != Some(x) {
      if p == x { assert u.tmp[x] == Some(c[0]); } else if w.tmp[p].Some? { PointsLater(w.head, w.tmp, c, p); }
    }
    if w.tmp[c[0]].Some? { PointsLater(w.head, w.tmp, c, c[0]); }
  }

  // No run ever wakes a lost process.
  lemma {:induction false} LostForEver(w: Chain, x: nat, es: seq<Event>)
    requires Lost(w, x) && AllowedRun(w, es)
    ensures Lost(Run(w, es), x)
    decreases |es|
  {
    if es != [] {
      LostForEver(Step(w, es[0]), x, es[1..]);
    }
  }

  // ---- wake_up as its callers write it -------------------------------------------------------

  // Most callers pass the address of the head cell. The first field of a process record is its
  // state and PROCESS_RUNNING is 0, so the call stores 0 in the cell.
  function WakeCell(w: Chain): Chain { w.(head := None) }

  // It wakes nobody, and loses the whole chain; it is right exactly when nobody sleeps.
  lemma WakeCellLosesChain(w: Chain, c: seq<nat>)
    requires IsChain(w, c) && (c != [] ==> c[0] !in w.runnable)
    ensures WakeCell(w).runnable == w.runnable
    ensures WakeCell(w) == WakeHead(w) <==> c == []
    ensures c != [] ==> Lost(WakeCell(w), c[0])
  {
    if c != [] {
      forall p | p in w.tmp ensures w.tmp[p] != Some(c[0]) {
        if w.tmp[p].Some? { PointsLater(w.head, w.tmp, c, p); }
      }
    }
  }
}
