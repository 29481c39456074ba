// kernel/sched.c in place: the process table, the current process and the heads of wait chains.
module Scheduler {
  import opened Base
  import opened SchedModel
  import P = SchedProofs
  import W = WaitChain

  // The cell that sleep_on is given. `tmp` records the local variable of every sleeper.
  class WaitQueue {
    var head: Option<nat>
    ghost var tmp: map<nat, Option<nat>>

    constructor ()
      ensures head == None && tmp == map[]
    {
      head, tmp := None, map[];
    }
  }

  ghost function RunnableIn(t: Table): set<nat> { set i | 0 <= i < |t| && Runs(t[i]) }

  lemma RefillKeepsRunnable(t: Table)
    ensures RunnableIn(Refill(t)) == RunnableIn(t)
  {
    forall i | 0 <= i < |t| ensures Runs(Refill(t)[i]) == Runs(t[i]) {}
  }

  class Scheduler {
    const table: array<Option<Task>>
    var current: nat

    ghost predicate Valid()
      reads this, table
    {
      current < table.Length && table[current].Some?
    }

    ghost function Abs(): Sys
      reads this, table
    {
      Sys(table[..], current)
    }

    // The chain that sleep_on built at q.
    ghost function ChainAt(q: WaitQueue): W.Chain
      reads this, table, q
    {
      W.Chain(q.head, q.tmp, RunnableIn(table[..]))
    }

    // sched_init.
    constructor ()
      ensures Valid() && Abs() == P.Initial() && fresh(table)
    {
      table := new Option<Task>[NR_PROCESS](i => if i == 0 then Some(Task(Running, 15, 15)) else None);
      current := 0;
      new;
      assert table[..] == P.Initial().table;
    }

    method Put(i: nat, x: Task)
      requires i < table.Length && current < table.Length && table[current].Some?
      modifies table
      ensures Valid() && table[..] == old(table[..])[i := Some(x)]
    {
      table[i] := Some(x);
    }

    method RefillAll()
      requires Valid()
      modifies table
      ensures Valid() && table[..] == Refill(old(table[..]))
    {
      for i := 0 to table.Length
        invariant forall k :: 0 <= k < table.Length ==>
          table[k] == if k < i then Refilled(old(table[..])[k]) else old(table[..])[k]
      {
        if table[i].Some? {
          var x := table[i].value;
          table[i] := Some(x.(ticks := x.ticks / 2 + x.priority));
        }
      }
    }

    method FindMost() returns (max: int, hit: Option<nat>)
      ensures (max, hit) == Scan(table[..], table.Length)
    {
      max, hit := -1, None;
      for i := 0 to table.Length
        invariant (max, hit) == Scan(table[..], i)
      {
        if table[i].Some? && table[i].value.state == Running && table[i].value.ticks > max {
          max, hit := table[i].value.ticks, Some(i);
        }
      }
    }

    // Picks the next process, refilling first if no runnable process has a tick left.
    method Schedule()
      requires Valid() && !Spins(table[..])
      modifies this`current, table
      ensures Abs() == Switch(old(Abs()))
      ensures Valid() && RunnableIn(table[..]) == old(RunnableIn(table[..]))
    {
      var hit: Option<nat>;
      ghost var full := false;
      P.SpinsForEver(table[..]);
      P.ScanFinds(table[..], table.Length);
      P.ScanFinds(Refill(table[..]), table.Length);
      RefillKeepsRunnable(table[..]);
      while true
        invariant Valid() && current == old(current)
        invariant table[..] == if full then Refill(old(table[..])) else old(table[..])
        invariant full ==> Scan(old(table[..]), table.Length).0 == 0
        decreases !full
      {
        var max: int;
        max, hit := FindMost();
        if max != 0 { break; }
        RefillAll();
        full := true;
      }
      if hit.Some? { current := hit.value; }
    }

    // The tick count is unsigned: at 0 the decrement wraps. When the last tick goes and no runnable
    // process has anything to be given, the source never returns from schedule.
    method IrqTimerHandler()
      requires Valid()
      requires (table[current].value.ticks + U32 - 1) % U32 == 0 ==> !Spins(SetTicks(table[..], current, 0))
      modifies this`current, table
      ensures Valid() && Abs() == OnTimer(old(Abs()))
    {
      var x := table[current].value;
      var n := (x.ticks + U32 - 1) % U32;
      Put(current, x.(ticks := n));
      if n > 0 { return; }
      Put(current, x.(ticks := 0));
      assert table[..] == SetTicks(old(table[..]), current, 0);
      Schedule();
    }

    method WakeUp(p: Option<nat>)
      requires Valid() && (p.Some? ==> p.value < table.Length && table[p.value].Some?)
      modifies table
      ensures Valid()
      ensures Abs() == if p.Some? then Step(old(Abs()), Wake(p.value)) else old(Abs())
      ensures RunnableIn(table[..]) == old(RunnableIn(table[..])) + if p.Some? then {p.value} else {}
    {
      if p.Some? {
        Put(p.value, table[p.value].value.(state := Running));
      }
    }

    method SysPause()
      requires Valid() && !Spins(SetState(table[..], current, Running))
      modifies this`current, table
      ensures Valid() && Abs() == Step(old(Abs()), Yield)
    {
      Put(current, table[current].value.(state := Running));
      Schedule();
    }

    // sleep_on up to its return from schedule; `tmp` is the sleeper's local variable. With nobody
    // else runnable the sleeper itself goes on.
    method SleepOn(q: WaitQueue) returns (tmp: Option<nat>)
      requires Valid() && !Spins(SetState(table[..], current, Uninterruptible))
      modifies this`current, table, q
      ensures Valid()
      ensures Abs() == Switch(old(Abs()).(table := SetState(old(Abs()).table, old(current), Uninterruptible)))
      ensures ChainAt(q) == W.Join(old(ChainAt(q)), old(current)) && tmp == q.tmp[old(current)]
    {
      tmp := q.head;
      q.head := Some(current);
      q.tmp := q.tmp[current := tmp];
      Put(current, table[current].value.(state := Uninterruptible));
      assert RunnableIn(table[..]) == old(RunnableIn(table[..])) - {current};
      Schedule();
    }

    // The rest of sleep_on, once the sleeper runs again: it steps down and wakes the next one.
    method LeaveSleepOn(q: WaitQueue, tmp: Option<nat>)
      requires Valid() && current in q.tmp && q.tmp[current] == tmp
      requires tmp.Some? ==> tmp.value < table.Length && table[tmp.value].Some?
      modifies table, q
      ensures Valid() && current == old(current)
      ensures ChainAt(q) == W.Resume(old(ChainAt(q)), current)
    {
      q.head := tmp;
      q.tmp := q.tmp - {current};
      WakeUp(tmp);
    }

    // The part of copy_process that concerns scheduling: the child starts with its parent's ticks
    // and priority.
    method CopyProcess(q: nat)
      requires Valid() && q < table.Length && table[q].None?
      modifies table
      ensures Valid() && Abs() == Step(old(Abs()), Fork(q))
    {
      Put(q, table[current].value.(state := Running));
    }
  }
}
