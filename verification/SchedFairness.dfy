// How long a runnable process can wait: bounds on clock interrupts over every run.
module SchedFairness {
  import opened Base
  import opened SchedModel
  import opened SchedProofs

  // ---- sums over the process table -----------------------------------------------------------

  function Ticks(x: Option<Task>): nat { if x.Some? then x.value.ticks else 0 }

  // The most ticks a process can hold, 2 * priority - 1.
  function Cap(x: Option<Task>): nat {
    if x.Some? && x.value.priority >= 1 then 2 * x.value.priority - 1 else 0
  }

  function Sum(t: Table, w: Option<Task> -> nat): nat {
    if t == [] then 0 else w(t[0]) + Sum(t[1..], w)
  }

  lemma {:induction false} SumUpdate(t: Table, w: Option<Task> -> nat, i: nat, x: Option<Task>)
    requires i < |t|
    ensures Sum(t[i := x], w) + w(t[i]) == Sum(t, w) + w(x)
  {
    if i == 0 {
      assert t[0 := x][1..] == t[1..];
    } else {
      assert t[i := x][1..] == t[1..][i - 1 := x];
      SumUpdate(t[1..], w, i - 1, x);
    }
  }

  lemma {:induction false} SumAtMost(t: Table, u: Table, v: Option<Task> -> nat, w: Option<Task> -> nat)
    requires |t| == |u| && forall i :: 0 <= i < |t| ==> v(t[i]) <= w(u[i])
    ensures Sum(t, v) <= Sum(u, w)
  {
    if t != [] { SumAtMost(t[1..], u[1..], v, w); }
  }

  lemma {:induction false} SumMember(t: Table, w: Option<Task> -> nat, i: nat)
    requires i < |t|
    ensures w(t[i]) <= Sum(t, w)
  {
    if i > 0 { SumMember(t[1..], w, i - 1); }
  }

  // T of the bounds below: the ticks of all processes when everyone is full.
  function Capacity(s: Sys): nat { Sum(s.table, Cap) }

  function Held(s: Sys): nat { Sum(s.table, Ticks) }

  lemma HeldAtMostCapacity(s: Sys)
    requires Inv(s)
    ensures Held(s) <= Capacity(s)
  {
    forall i | 0 <= i < |s.table| ensures Ticks(s.table[i]) <= Cap(s.table[i]) { assert Bounded(s.table[i]); }
    SumAtMost(s.table, s.table, Ticks, Cap);
  }

  // ---- one event -----------------------------------------------------------------------------

  // The table that schedule sees during the event.
  function Before(s: Sys, e: Event): Table
    requires Allowed(s, e) && !e.Fork?
  {
    match e
    case Timer => SetTicks(s.table, s.current, (s.table[s.current].value.ticks + U32 - 1) % U32)
    case Sleep => SetState(s.table, s.current, Uninterruptible)
    case Wake(p) => SetState(s.table, p, Running)
    case Yield => SetState(s.table, s.current, Running)
  }

  // The event makes schedule refill every process.
  predicate CausesRefill(s: Sys, e: Event)
    requires Allowed(s, e) && !e.Fork?
  {
    && !e.Wake? && !(e.Timer? && (s.table[s.current].value.ticks + U32 - 1) % U32 > 0)
    && Scan(Before(s, e), |s.table|).0 == 0
  }

  lemma BeforeTable(s: Sys, e: Event)
    requires Inv(s) && Allowed(s, e) && !e.Fork?
    ensures |Before(s, e)| == |s.table|
    ensures Sum(Before(s, e), Cap) == Capacity(s)
    ensures Sum(Before(s, e), Ticks) == Held(s) - if e.Timer? then 1 else 0
    ensures forall i :: 0 <= i < |s.table| && !(e.Timer? && i == s.current) ==>
      Ticks(Before(s, e)[i]) == Ticks(s.table[i])
    ensures forall i :: 0 <= i < |s.table| ==> Cap(Before(s, e)[i]) == Cap(s.table[i]) && Bounded(Before(s, e)[i])
  {
    hide Sum, Switch, Schedule;
    StepKeeps(s, e);
    var i := if e.Wake? then e.p else s.current;
    assert Bounded(s.table[i]);
    SumUpdate(s.table, Ticks, i, Before(s, e)[i]);
    SumUpdate(s.table, Cap, i, Before(s, e)[i]);
    assert Before(s, e) == s.table[i := Before(s, e)[i]];
  }

  lemma StepTable(s: Sys, e: Event)
    requires Inv(s) && Allowed(s, e) && !e.Fork?
    ensures Step(s, e).table == if CausesRefill(s, e) then Refill(Before(s, e)) else Before(s, e)
  {
    hide Scan;
    StepKeeps(s, e);
    if e.Timer? {
      assert SetTicks(s.table, s.current, 0) == s.table[s.current := Some(s.table[s.current].value.(ticks := 0))];
    }
  }

  lemma RefillSums(t: Table)
    requires forall i :: 0 <= i < |t| ==> Bounded(t[i])
    ensures Sum(Refill(t), Cap) == Sum(t, Cap) && Sum(Refill(t), Ticks) <= Sum(t, Cap)
    ensures forall i :: 0 <= i < |t| ==> Ticks(Refill(t)[i]) <= Cap(t[i])
  {
    forall i | 0 <= i < |t| ensures Cap(Refill(t)[i]) == Cap(t[i]) && Ticks(Refill(t)[i]) <= Cap(t[i]) {
      assert Bounded(t[i]);
    }
    SumAtMost(Refill(t), t, Cap, Cap);
    SumAtMost(t, Refill(t), Cap, Cap);
    SumAtMost(Refill(t), t, Ticks, Cap);
  }

  lemma StepCapacity(s: Sys, e: Event)
    requires Inv(s) && Allowed(s, e) && !e.Fork?
    ensures Capacity(Step(s, e)) == Capacity(s)
  {
    BeforeTable(s, e);
    StepTable(s, e);
    RefillSums(Before(s, e));
  }

  // ---- between two refills -------------------------------------------------------------------

  function Timers(es: seq<Event>): nat {
    if es == [] then 0 else (if es[0].Timer? then 1 else 0) + Timers(es[1..])
  }

  predicate NoFork(es: seq<Event>) { forall i :: 0 <= i < |es| ==> !es[i].Fork? }

  predicate NoRefill(s: Sys, es: seq<Event>)
    requires AllowedRun(s, es) && NoFork(es)
    decreases |es|
  {
    es == [] || (!CausesRefill(s, es[0]) && NoRefill(Step(s, es[0]), es[1..]))
  }

  // Between refills each clock interrupt takes exactly one tick from the system, so at most T of
  // them fall between two refills.
  lemma {:induction false} TimersBetweenRefills(s: Sys, es: seq<Event>)
    requires Inv(s) && AllowedRun(s, es) && NoFork(es) && NoRefill(s, es)
    ensures Timers(es) + Held(Run(s, es)) == Held(s) <= Capacity(s)
    decreases |es|
  {
    HeldAtMostCapacity(s);
    if es != [] {
      StepKeeps(s, es[0]);
      BeforeTable(s, es[0]);
      StepTable(s, es[0]);
      TimersBetweenRefills(Step(s, es[0]), es[1..]);
    }
  }

  // ---- no starvation -------------------------------------------------------------------------

  // Process i is runnable before every event of the run and after it.
  predicate StaysRunnable(s: Sys, es: seq<Event>, i: nat)
    requires AllowedRun(s, es)
    decreases |es|
  {
    && i < |s.table| && Runs(s.table[i])
    && (es != [] ==> StaysRunnable(Step(s, es[0]), es[1..], i))
  }

  // The clock interrupts that take a tick from process i.
  function Charges(s: Sys, es: seq<Event>, i: nat): nat
    requires AllowedRun(s, es)
    decreases |es|
  {
    if es == [] then 0
    else (if es[0].Timer? && s.current == i then 1 else 0) + Charges(Step(s, es[0]), es[1..], i)
  }

  // How many clock interrupts may still pass process i by: the others' ticks, and if i has none
  // itself, the others' next refill as well.
  function Wait(s: Sys, i: nat): int
    requires i < |s.table|
  {
    Held(s) - Ticks(s.table[i]) + if Ticks(s.table[i]) > 0 then 0 else Capacity(s) - Cap(s.table[i])
  }

  // Such an interrupt uses up a unit of the wait, and no event makes the wait longer.
  lemma WaitShrinks(s: Sys, e: Event, i: nat)
    requires Inv(s) && Allowed(s, e) && !e.Fork? && !(e.Timer? && s.current == i)
    requires i < |s.table| && Runs(s.table[i]) && i < |Step(s, e).table| && Runs(Step(s, e).table[i])
    ensures Wait(Step(s, e), i) + (if e.Timer? then 1 else 0) <= Wait(s, i)
  {
    hide Sum, Switch, Schedule, Step;
    BeforeTable(s, e);
    StepTable(s, e);
    StepCapacity(s, e);
    var b := Before(s, e);
    RefillSums(b);
    if CausesRefill(s, e) {
      ScanFinds(b, |b|);
      assert Bounded(s.table[i]);
      assert Runs(b[i]) && Ticks(b[i]) == 0;
      assert Ticks(Step(s, e).table[i]) >= 1;
      OthersAtMost(Step(s, e), i);
      if e.Timer? { SumMember(s.table, Ticks, s.current); }
    }
  }

  lemma OthersAtMost(s: Sys, i: nat)
    requires i < |s.table| && forall j :: 0 <= j < |s.table| ==> Ticks(s.table[j]) <= Cap(s.table[j])
    ensures Held(s) - Ticks(s.table[i]) <= Capacity(s) - Cap(s.table[i])
  {
    var t := s.table[i := None];
    SumUpdate(s.table, Ticks, i, None);
    SumUpdate(s.table, Cap, i, None);
    SumAtMost(t, t, Ticks, Cap);
  }

  // A fork adds a process, with its ticks and its room for more.
  lemma ForkWait(s: Sys, q: nat, i: nat)
    requires Inv(s) && Allowed(s, Fork(q)) && i < |s.table| && Runs(s.table[i])
    ensures Wait(Step(s, Fork(q)), i) + 2 * Capacity(s) <= Wait(s, i) + 2 * Capacity(Step(s, Fork(q)))
  {
    hide Sum;
    assert Bounded(s.table[s.current]);
    var x := Step(s, Fork(q)).table[q];
    assert Step(s, Fork(q)).table == s.table[q := x];
    SumUpdate(s.table, Ticks, q, x);
    SumUpdate(s.table, Cap, q, x);
  }

  lemma {:induction false} UnchargedIsShort(s: Sys, es: seq<Event>, i: nat)
    requires Inv(s) && AllowedRun(s, es) && StaysRunnable(s, es, i) && Charges(s, es, i) == 0
    ensures Timers(es) + 2 * Capacity(s) <= Wait(s, i) + 2 * Capacity(Run(s, es))
    decreases |es|
  {
    hide Wait, Step, Capacity;
    if es == [] {
      WaitIsNat(s, i);
    } else {
      StepKeeps(s, es[0]);
      UnchargedIsShort(Step(s, es[0]), es[1..], i);
      if es[0].Fork? {
        ForkWait(s, es[0].q, i);
      } else {
        WaitShrinks(s, es[0], i);
        StepCapacity(s, es[0]);
      }
    }
  }

  lemma WaitIsNat(s: Sys, i: nat)
    requires i < |s.table|
    ensures Wait(s, i) >= 0
  {
    SumMember(s.table, Ticks, i);
    SumMember(s.table, Cap, i);
  }

  // A process that stays runnable is charged a tick within 2T - 1 clock interrupts, whatever forks, sleeps, wakes
  // and yields the others do. T is taken at the end of the run: forks add to it.
  lemma NoStarvation(s: Sys, es: seq<Event>, i: nat)
    requires Inv(s) && AllowedRun(s, es) && StaysRunnable(s, es, i)
    requires Timers(es) >= 2 * Capacity(Run(s, es)) - 1
    ensures Charges(s, es, i) >= 1
  {
    forall j | 0 <= j < |s.table| ensures Ticks(s.table[j]) <= Cap(s.table[j]) { assert Bounded(s.table[j]); }
    OthersAtMost(s, i);
    assert Bounded(s.table[i]);
    SumMember(s.table, Cap, i);
    assert Wait(s, i) <= 2 * Capacity(s) - 2;
    if Charges(s, es, i) == 0 {
      UnchargedIsShort(s, es, i);
    }
  }

  lemma {:induction false} SumBound(t: Table, n: nat)
    requires forall i :: 0 <= i < |t| ==> Cap(t[i]) <= n
    ensures Sum(t, Cap) <= n * |t|
  {
    if t != [] { SumBound(t[1..], n); }
  }

  // With priorities of 31 at most, 1951 clock interrupts are enough for a table of 16.
  lemma StarvationBound(s: Sys, es: seq<Event>)
    requires Inv(s) && AllowedRun(s, es) && |s.table| == 16
    ensures 2 * Capacity(Run(s, es)) - 1 <= 1951
  {
    RunKeeps(s, es);
    var t := Run(s, es).table;
    forall i | 0 <= i < |t| ensures Cap(t[i]) <= 61 { assert Bounded(t[i]); }
    SumBound(t, 61);
  }
}
