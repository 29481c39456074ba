// What each event does to the process table, in terms of its records alone, and whose turn it is over a run.
module SchedTurns {
  import opened Base
  import opened SchedModel
  import opened SchedProofs
  import opened SchedFairness

  // ---- one event -----------------------------------------------------------------------------

  predicate IsRunning(x: Option<Task>) { x.Some? && x.value.state == Running }

  // schedule turns table t into u and chooses c: the first of the runnable processes with most ticks, after every
  // process was given half its ticks and its priority if no runnable one had a tick left.
  ghost predicate Picks(t: Table, u: Table, c: nat) {
    var refill := forall i :: 0 <= i < |t| && IsRunning(t[i]) ==> t[i].value.ticks == 0;
    && |u| == |t| && c < |u| && IsRunning(u[c]) && u[c].value.ticks >= 1
    && (forall i :: 0 <= i < |t| && t[i].None? ==> u[i] == None)
    && (forall i :: 0 <= i < |t| && t[i].Some? ==>
         var x := t[i].value;
         u[i] == Some(if refill then Task(x.state, x.ticks / 2 + x.priority, x.priority) else x))
    && (forall j :: 0 <= j < |u| && IsRunning(u[j]) ==> u[j].value.ticks <= u[c].value.ticks)
    && (forall j :: 0 <= j < c && IsRunning(u[j]) ==> u[j].value.ticks < u[c].value.ticks)
  }

  // The table after schedule, record by record.
  lemma ScheduledTable(t: Table, u: Table, c: nat)
    requires c < |u| && Runs(u[c]) && u[c].value.ticks >= 1
    requires u == t || (u == Refill(t) && forall i :: 0 <= i < |t| && Runs(t[i]) ==> t[i].value.ticks == 0)
    requires forall j :: 0 <= j < |u| && Runs(u[j]) ==> u[j].value.ticks <= u[c].value.ticks
    requires forall j :: 0 <= j < c && Runs(u[j]) ==> u[j].value.ticks < u[c].value.ticks
    ensures Picks(t, u, c)
  {
    if u == t {
      AgainstRefill(t, c);
    } else {
      assert forall i :: 0 <= i < |t| && IsRunning(t[i]) ==> Runs(t[i]);
    }
  }

  lemma SwitchPicks(s: Sys)
    requires forall i :: 0 <= i < |s.table| ==> Bounded(s.table[i])
    requires exists j :: 0 <= j < |s.table| && IsRunning(s.table[j])
    ensures Picks(s.table, Switch(s).table, Switch(s).current)
  {
    hide Picks, Schedule, Spins;
    var j :| 0 <= j < |s.table| && IsRunning(s.table[j]);
    assert Runs(s.table[j]) && Bounded(s.table[j]);
    ScheduleChooses(s.table);
    ScheduledTable(s.table, Schedule(s.table).0, Schedule(s.table).1.value);
  }

  // A table with a runnable process that has a tick is not refilled.
  lemma AgainstRefill(t: Table, c: nat)
    requires c < |t| && Runs(t[c]) && t[c].value.ticks >= 1
    ensures exists i :: 0 <= i < |t| && IsRunning(t[i]) && t[i].value.ticks != 0
  {
    assert IsRunning(t[c]);
  }

  // The clock interrupt: with n > 1 ticks the current process has n - 1 and goes on, and nobody else's record
  // changes; with its last tick gone the processor goes to whom schedule picks.
  lemma TimerEffect(s: Sys)
    requires Inv(s)
    ensures var (x, t) := (s.table[s.current].value, Step(s, Timer));
      if x.ticks > 1 then
        && t.current == s.current && |t.table| == |s.table|
        && t.table[s.current] == Some(Task(Running, x.ticks - 1, x.priority))
        && forall i :: 0 <= i < |s.table| && i != s.current ==> t.table[i] == s.table[i]
      else Picks(s.table[s.current := Some(Task(Running, 0, x.priority))], t.table, t.current)
  {
    StepKeeps(s, Timer);
    var x := s.table[s.current].value;
    if x.ticks == 1 {
      var u := s.(table := SetTicks(s.table, s.current, 0));
      assert u.table == s.table[s.current := Some(Task(Running, 0, x.priority))];
      assert IsRunning(u.table[s.current]);
      SwitchPicks(u);
    }
  }

  // Where the count is 0 all the same, it wraps to 2^32 - 1 and the current process goes on.
  lemma TimerWraps(s: Sys)
    requires Alive(s) && s.table[s.current].value.ticks == 0
    ensures Step(s, Timer).current == s.current
    ensures Step(s, Timer).table == s.table[s.current := Some(s.table[s.current].value.(ticks := 0xFFFF_FFFF))]
  {
    assert U32 - 1 == 0xFFFF_FFFF;
  }

  // sleep_on takes the current process out of the choice; sys_pause does not.
  lemma SleepEffect(s: Sys)
    requires Inv(s) && Allowed(s, Sleep)
    ensures var (x, t) := (s.table[s.current].value, Step(s, Sleep));
      Picks(s.table[s.current := Some(Task(Uninterruptible, x.ticks, x.priority))], t.table, t.current)
  {
    var u := s.(table := SetState(s.table, s.current, Uninterruptible));
    var j :| 0 <= j < |s.table| && j != s.current && Runs(s.table[j]);
    assert IsRunning(u.table[j]);
    assert Bounded(s.table[s.current]);
    SwitchPicks(u);
  }

  lemma YieldEffect(s: Sys)
    requires Inv(s)
    ensures Picks(s.table, Step(s, Yield).table, Step(s, Yield).current)
  {
    assert SetState(s.table, s.current, Running) == s.table;
    assert IsRunning(s.table[s.current]);
    SwitchPicks(s);
  }

  // wake_up and copy_process leave the processor where it is. The child starts runnable, with its parent's ticks
  // and priority; no other record changes.
  lemma WakeForkEffect(s: Sys, e: Event)
    requires Inv(s) && Allowed(s, e) && (e.Wake? || e.Fork?)
    ensures var t := Step(s, e);
      && t.current == s.current && |t.table| == |s.table|
      && (e.Wake? ==>
           && t.table[e.p] == Some(Task(Running, s.table[e.p].value.ticks, s.table[e.p].value.priority))
           && forall i :: 0 <= i < |s.table| && i != e.p ==> t.table[i] == s.table[i])
      && (e.Fork? ==>
           && s.table[e.q] == None
           && t.table[e.q] == Some(Task(Running, s.table[s.current].value.ticks, s.table[s.current].value.priority))
           && forall i :: 0 <= i < |s.table| && i != e.q ==> t.table[i] == s.table[i])
  {
    StepKeeps(s, e);
  }

  // ---- turns ---------------------------------------------------------------------------------

  predicate GivesWay(e: Event) { e.Sleep? || e.Yield? }

  // A process with n ticks keeps the processor for the next n - 1 clock interrupts, unless it sleeps or yields:
  // each takes one tick, and no wake-up or fork adds or takes any.
  lemma {:induction false} KeepsItsTurn(s: Sys, es: seq<Event>)
    requires Inv(s) && AllowedRun(s, es) && forall i :: 0 <= i < |es| ==> !GivesWay(es[i])
    requires Timers(es) < s.table[s.current].value.ticks
    ensures var t := Run(s, es);
      && t.current == s.current && |t.table| == |s.table| && t.table[s.current].Some?
      && t.table[s.current].value.ticks == s.table[s.current].value.ticks - Timers(es)
    decreases |es|
  {
    if es != [] {
      assert !GivesWay(es[0]);
      StepKeeps(s, es[0]);
      if es[0].Timer? { TimerEffect(s); } else { WakeForkEffect(s, es[0]); }
      KeepsItsTurn(Step(s, es[0]), es[1..]);
    }
  }

  // And at the n-th one it loses the processor, to whom schedule picks.
  lemma TurnEnds(s: Sys, es: seq<Event>)
    requires Inv(s) && AllowedRun(s, es) && forall i :: 0 <= i < |es| ==> !GivesWay(es[i])
    requires Timers(es) == s.table[s.current].value.ticks - 1
    ensures Inv(Run(s, es)) && Run(s, es).current == s.current
    ensures var (t, u) := (Run(s, es), Step(Run(s, es), Timer));
      Picks(t.table[s.current := Some(Task(Running, 0, t.table[s.current].value.priority))], u.table, u.current)
  {
    RunKeeps(s, es);
    KeepsItsTurn(s, es);
    TimerEffect(Run(s, es));
  }

  // Process 0 starts with the processor, and 15 ticks.
  lemma FirstTurn(es: seq<Event>)
    requires AllowedRun(Initial(), es) && Timers(es) < 15 && forall i :: 0 <= i < |es| ==> !GivesWay(es[i])
    ensures Run(Initial(), es).current == 0 && |Run(Initial(), es).table| == 16
  {
    KeepsItsTurn(Initial(), es);
  }

  // ---- a child runs --------------------------------------------------------------------------

  // Process i is not the one that sleeps, in any event of the run.
  predicate NeverSleeps(s: Sys, es: seq<Event>, i: nat)
    requires AllowedRun(s, es)
    decreases |es|
  {
    es == [] || (!(es[0].Sleep? && s.current == i) && NeverSleeps(Step(s, es[0]), es[1..], i))
  }

  lemma StateStays(s: Sys, e: Event, i: nat)
    requires Inv(s) && Allowed(s, e) && i < |s.table| && Runs(s.table[i]) && !(e.Sleep? && s.current == i)
    ensures i < |Step(s, e).table| && Runs(Step(s, e).table[i])
  {
    StepKeeps(s, e);
    match e
    case Timer => TimerEffect(s);
    case Sleep => SleepEffect(s);
    case Yield => YieldEffect(s);
    case Wake(p) => WakeForkEffect(s, e);
    case Fork(q) => WakeForkEffect(s, e);
  }

  lemma {:induction false} StaysAwake(s: Sys, es: seq<Event>, i: nat)
    requires Inv(s) && AllowedRun(s, es) && i < |s.table| && Runs(s.table[i]) && NeverSleeps(s, es, i)
    ensures StaysRunnable(s, es, i)
    decreases |es|
  {
    if es != [] {
      StepKeeps(s, es[0]);
      StateStays(s, es[0], i);
      StaysAwake(Step(s, es[0]), es[1..], i);
    }
  }

  // A forked child gets a tick of the processor within 1951 clock interrupts, unless it goes to sleep itself.
  lemma ChildRuns(s: Sys, q: nat, es: seq<Event>)
    requires Inv(s) && |s.table| == 16 && Allowed(s, Fork(q)) && AllowedRun(Step(s, Fork(q)), es)
    requires NeverSleeps(Step(s, Fork(q)), es, q) && Timers(es) >= 1951
    ensures Charges(Step(s, Fork(q)), es, q) >= 1
  {
    var t := Step(s, Fork(q));
    StepKeeps(s, Fork(q));
    WakeForkEffect(s, Fork(q));
    StaysAwake(t, es, q);
    StarvationBound(t, es);
    NoStarvation(t, es, q);
  }
}
