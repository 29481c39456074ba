// Three expressions of kernel/sched.c as they are written, and exactly when each agrees with the
// comment beside it.
module SchedAsWritten {
  import opened Base
  import opened SchedModel
  import P = SchedProofs

  // The tick count is unsigned, so comparing it with max converts max, and -1 becomes the largest
  // 32-bit number.
  function Scan(t: Table, n: nat): (r: (int, Option<nat>))
    requires n <= |t|
  {
    if n == 0 then (-1, None)
    else
      var (max, hit) := Scan(t, n - 1);
      if Runs(t[n - 1]) && t[n - 1].value.ticks > max % U32 then (t[n - 1].value.ticks, Some(n - 1)) else (max, hit)
  }

  // No tick count exceeds it: schedule leaves its loop at once with hit unset. That is the scan the
  // comment describes exactly when nobody is runnable.
  lemma {:induction false} HitIsNeverSet(t: Table, n: nat)
    requires n <= |t| && forall i :: 0 <= i < |t| && t[i].Some? ==> t[i].value.ticks < U32
    ensures Scan(t, n) == (-1, None)
    ensures Scan(t, n) == SchedModel.Scan(t, n) <==> forall i :: 0 <= i < n ==> !Runs(t[i])
  {
    if n > 0 { HitIsNeverSet(t, n - 1); }
    P.ScanFinds(t, n);
  }

  function ShiftRight(t: nat, k: nat): nat {
    if k == 0 then t else ShiftRight(t, k - 1) / 2
  }

  // `ticks >> 1 + priority` shifts by 1 + priority, of which the processor takes the low five bits;
  // the comment wants ticks / 2 + priority.
  function Refilled(x: Task): Task { x.(ticks := ShiftRight(x.ticks, (1 + x.priority) % 32)) }

  lemma {:induction false} ShiftAtMost(t: nat, k: nat)
    ensures ShiftRight(t, 1 + k) <= t / 2
  {
    if k > 0 { ShiftAtMost(t, k - 1); }
  }

  // They agree exactly for priority 0, and where the shift does nothing and the formula happens not
  // to change the count either.
  lemma ShiftAgrees(x: Task)
    ensures Some(Refilled(x)) == SchedModel.Refilled(Some(x)) <==>
      x.priority == 0 || (x.priority % 32 == 31 && x.ticks - x.ticks / 2 == x.priority)
  {
    var k := (1 + x.priority) % 32;
    if x.priority % 32 == 31 {
      assert k == 0;
    } else {
      assert k == 1 + x.priority % 32;
      ShiftAtMost(x.ticks, x.priority % 32);
      assert ShiftRight(x.ticks, 1) == x.ticks / 2;
    }
  }

  lemma {:induction false} ShiftOfZero(k: nat)
    ensures ShiftRight(0, k) == 0
  {
    if k > 0 { ShiftOfZero(k - 1); }
  }

  function RefillRounds(x: Task, k: nat): Task {
    if k == 0 then x else Refilled(RefillRounds(x, k - 1))
  }

  // With the shift, a process that ran out of ticks never gets any, whatever its priority: once
  // every runnable process is at 0, schedule loops for ever.
  lemma {:induction false} NoTicksForEver(x: Task, k: nat)
    requires x.ticks == 0
    ensures RefillRounds(x, k) == x
  {
    ShiftOfZero((1 + x.priority) % 32);
    if k > 0 { NoTicksForEver(x, k - 1); }
  }

  // sys_pause stores the running state where its comment promises an interruptible sleep, so it
  // only yields: the process that pauses is still a candidate.
  lemma PauseOnlyYields(s: Sys)
    requires P.Inv(s)
    ensures Runs(Step(s, Yield).table[s.current])
    ensures Step(s, Yield) == Switch(s)
  {
    assert SetState(s.table, s.current, Running) == s.table;
    P.StepKeeps(s, Yield);
    assert Runs(Refill(s.table)[s.current]);
  }
}
