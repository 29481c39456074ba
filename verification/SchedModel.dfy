// kernel/sched.c: the process table, the choice of the next process and the clock interrupt.
module SchedModel {
  import opened Base

  const NR_PROCESS: nat := 16
  const MAX_PRIORITY: nat := 31

  datatype State = Running | Interruptible | Uninterruptible | Stopped

  // The fields of a process record that scheduling uses.
  datatype Task = Task(state: State, ticks: nat, priority: nat)

  type Table = seq<Option<Task>>

  datatype Sys = Sys(table: Table, current: nat)

  predicate Runs(x: Option<Task>) { x.Some? && x.value.state == Running }

  // ---- schedule ------------------------------------------------------------------------------

  // The scan of the first n slots: the largest tick count of a runnable process, -1 if none, and
  // the first slot that has it.
  function Scan(t: Table, n: nat): (r: (int, Option<nat>))
    requires n <= |t|
  {
    if n == 0 then (-1, None)
    else
      var (max, hit) := Scan(t, n - 1);
      if Runs(t[n - 1]) && t[n - 1].value.ticks > max then (t[n - 1].value.ticks, Some(n - 1)) else (max, hit)
  }

  function Refilled(x: Option<Task>): Option<Task> {
    if x.Some? then Some(x.value.(ticks := x.value.ticks / 2 + x.value.priority)) else None
  }

  function Refill(t: Table): (r: Table)
    ensures |r| == |t| && forall i :: 0 <= i < |t| ==> r[i] == Refilled(t[i])
  {
    seq(|t|, i requires 0 <= i < |t| => Refilled(t[i]))
  }

  // The table after schedule, and the process chosen; None when no process is runnable.
  function Schedule(t: Table): (r: (Table, Option<nat>)) {
    if Scan(t, |t|).0 != 0 then (t, Scan(t, |t|).1) else (Refill(t), Scan(Refill(t), |t|).1)
  }

  // schedule would refill for ever: every runnable process has no ticks and no priority.
  predicate Spins(t: Table) {
    && (exists i :: 0 <= i < |t| && Runs(t[i]))
    && forall i :: 0 <= i < |t| && Runs(t[i]) ==> t[i].value.ticks == 0 && t[i].value.priority == 0
  }

  // ---- events --------------------------------------------------------------------------------

  datatype Event = Timer | Sleep | Wake(p: nat) | Yield | Fork(q: nat)

  function SetState(t: Table, i: nat, st: State): Table
    requires i < |t| && t[i].Some?
  {
    t[i := Some(t[i].value.(state := st))]
  }

  function SetTicks(t: Table, i: nat, n: nat): Table
    requires i < |t| && t[i].Some?
  {
    t[i := Some(t[i].value.(ticks := n))]
  }

  function Switch(s: Sys): Sys {
    var (t, hit) := Schedule(s.table);
    Sys(t, if hit.Some? then hit.value else s.current)
  }

  predicate Alive(s: Sys) { s.current < |s.table| && s.table[s.current].Some? }

  // irq_timer_handler: the unsigned tick count is decremented, at 0 the processor is given away.
  function OnTimer(s: Sys): Sys
    requires Alive(s)
  {
    var n := (s.table[s.current].value.ticks + U32 - 1) % U32;
    if n > 0 then s.(table := SetTicks(s.table, s.current, n))
    else Switch(s.(table := SetTicks(s.table, s.current, 0)))
  }

  predicate Allowed(s: Sys, e: Event) {
    && Alive(s)
    && match e
       case Timer => true
       case Sleep => exists j :: 0 <= j < |s.table| && j != s.current && Runs(s.table[j])
       case Wake(p) => p < |s.table| && s.table[p].Some?
       case Yield => true
       case Fork(q) => q < |s.table| && s.table[q].None?
  }

  function Step(s: Sys, e: Event): Sys
    requires Allowed(s, e)
  {
    match e
    case Timer => OnTimer(s)
    case Sleep => Switch(s.(table := SetState(s.table, s.current, Uninterruptible)))
    case Wake(p) => s.(table := SetState(s.table, p, Running))
    case Yield => Switch(s.(table := SetState(s.table, s.current, Running)))
    case Fork(q) => s.(table := s.table[q := Some(s.table[s.current].value.(state := Running))])
  }

  predicate AllowedRun(s: Sys, es: seq<Event>)
    decreases |es|
  {
    es == [] || (Allowed(s, es[0]) && AllowedRun(Step(s, es[0]), es[1..]))
  }

  function Run(s: Sys, es: seq<Event>): Sys
    requires AllowedRun(s, es)
    decreases |es|
  {
    if es == [] then s else Run(Step(s, es[0]), es[1..])
  }
}
