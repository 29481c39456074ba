// Properties of the scheduler over every run.
module SchedProofs {
  import opened Base
  import opened SchedModel

  // ---- the choice ----------------------------------------------------------------------------

  // What a scan of the first n slots finds.
  lemma {:induction false} ScanFinds(t: Table, n: nat)
    requires n <= |t|
    ensures var (max, hit) := Scan(t, n);
      && (hit.None? <==> max == -1) && max >= -1
      && (hit.None? ==> forall j :: 0 <= j < n ==> !Runs(t[j]))
      && (hit.Some? ==> hit.value < n && Runs(t[hit.value]) && t[hit.value].value.ticks == max)
      && (forall j :: 0 <= j < n && Runs(t[j]) ==> t[j].value.ticks <= max)
      && (hit.Some? ==> forall j :: 0 <= j < hit.value && Runs(t[j]) ==> t[j].value.ticks < max)
  {
    if n > 0 { ScanFinds(t, n - 1); }
  }

  // With a runnable process of positive priority, schedule ends after at most one refill: it picks
  // the first runnable process of most ticks, and that process has a tick to run.
  lemma ScheduleChooses(t: Table)
    requires exists i :: 0 <= i < |t| && Runs(t[i]) && (t[i].value.priority >= 1 || t[i].value.ticks >= 1)
    ensures var (u, hit) := Schedule(t);
      && !Spins(t)
      && (u == t || (u == Refill(t) && forall i :: 0 <= i < |t| && Runs(t[i]) ==> t[i].value.ticks == 0))
      && |u| == |t| && hit.Some? && hit.value < |u| && Runs(u[hit.value]) && u[hit.value].value.ticks >= 1
      && (forall j :: 0 <= j < |u| && Runs(u[j]) ==> u[j].value.ticks <= u[hit.value].value.ticks)
      && (forall j :: 0 <= j < hit.value && Runs(u[j]) ==> u[j].value.ticks < u[hit.value].value.ticks)
  {
    ScanFinds(t, |t|);
    ScanFinds(Refill(t), |t|);
    var i :| 0 <= i < |t| && Runs(t[i]) && (t[i].value.priority >= 1 || t[i].value.ticks >= 1);
    assert Runs(Refill(t)[i]);
  }

  // The refill loop can never end exactly when every runnable process has nothing to be given.
  lemma SpinsForEver(t: Table)
    ensures Spins(t) <==> Scan(t, |t|).0 == 0 && Scan(Refill(t), |t|).0 == 0
    ensures Spins(t) ==> Spins(Refill(t))
  {
    ScanFinds(t, |t|);
    ScanFinds(Refill(t), |t|);
    if Spins(t) {
      var i :| 0 <= i < |t| && Runs(t[i]);
      assert Runs(Refill(t)[i]);
      var h := Scan(t, |t|).1.value;
      var g := Scan(Refill(t), |t|).1.value;
      assert Runs(t[h]) && Runs(t[g]);
    } else if Scan(t, |t|).0 == 0 && Scan(Refill(t), |t|).0 == 0 {
      var h := Scan(t, |t|).1.value;
      assert Runs(t[h]);
      forall i | 0 <= i < |t| && Runs(t[i]) ensures t[i].value.ticks == 0 && t[i].value.priority == 0 {
        assert Runs(Refill(t)[i]);
      }
    }
  }

  // ---- tick bounds ---------------------------------------------------------------------------

  predicate Bounded(x: Option<Task>) {
    x.Some? ==> 1 <= x.value.priority <= MAX_PRIORITY && x.value.ticks <= 2 * x.value.priority - 1
  }

  predicate Inv(s: Sys) {
    && Alive(s) && Runs(s.table[s.current]) && s.table[s.current].value.ticks >= 1
    && forall i :: 0 <= i < |s.table| ==> Bounded(s.table[i])
  }

  // sched_init: process 0 alone, with 15 ticks and priority 15.
  function Initial(): Sys {
    Sys([Some(Task(Running, 15, 15))] + seq(NR_PROCESS - 1, i => None), 0)
  }

  lemma SwitchKeeps(s: Sys)
    requires forall i :: 0 <= i < |s.table| ==> Bounded(s.table[i])
    requires exists j :: 0 <= j < |s.table| && Runs(s.table[j])
    ensures Inv(Switch(s))
    ensures Switch(s).table == s.table || (Switch(s).table == Refill(s.table)
      && forall i :: 0 <= i < |s.table| && Runs(s.table[i]) ==> s.table[i].value.ticks == 0)
  {
    var j :| 0 <= j < |s.table| && Runs(s.table[j]);
    assert Bounded(s.table[j]);
    ScheduleChooses(s.table);
  }

  // Every event keeps the bounds; in particular the current process has a tick when the clock
  // interrupts, so the unsigned decrement never wraps.
  lemma StepKeeps(s: Sys, e: Event)
    requires Inv(s) && Allowed(s, e)
    ensures Inv(Step(s, e)) && |Step(s, e).table| == |s.table|
    ensures (s.table[s.current].value.ticks + U32 - 1) % U32 == s.table[s.current].value.ticks - 1
  {
    assert Bounded(s.table[s.current]);
    match e
    case Timer =>
      if s.table[s.current].value.ticks == 1 {
        var u := s.(table := SetTicks(s.table, s.current, 0));
        assert Runs(u.table[u.current]);
        SwitchKeeps(u);
      }
    case Sleep =>
      var j :| 0 <= j < |s.table| && j != s.current && Runs(s.table[j]);
      var u := s.(table := SetState(s.table, s.current, Uninterruptible));
      assert Runs(u.table[j]);
      SwitchKeeps(u);
    case Yield =>
      var u := s.(table := SetState(s.table, s.current, Running));
      assert Runs(u.table[u.current]);
      SwitchKeeps(u);
    case Wake(p) =>
    case Fork(q) =>
  }

  lemma {:induction false} RunKeeps(s: Sys, es: seq<Event>)
    requires Inv(s) && AllowedRun(s, es)
    ensures Inv(Run(s, es)) && |Run(s, es).table| == |s.table|
    decreases |es|
  {
    if es != [] {
      StepKeeps(s, es[0]);
      RunKeeps(Step(s, es[0]), es[1..]);
    }
  }

  lemma EveryRunIsBounded(es: seq<Event>)
    requires AllowedRun(Initial(), es)
    ensures Inv(Run(Initial(), es))
  {
    RunKeeps(Initial(), es);
  }

  // ---- a sleeper's ticks ---------------------------------------------------------------------

  function Pow2(k: nat): (r: nat)
    ensures r >= 1
  {
    if k == 0 then 1 else 2 * Pow2(k - 1)
  }

  function Refills(t: nat, p: nat, k: nat): nat {
    if k == 0 then t else Refills(t, p, k - 1) / 2 + p
  }

  lemma HalvingTwice(x: nat, m: nat)
    requires m >= 1
    ensures x / m / 2 == x / (2 * m)
  {
    var q := x / m;
    var r := x % m;
    assert x == m * q + r;
    var h := q / 2;
    var b := q % 2;
    assert x == (2 * m) * h + (m * b + r) by {
      assert q == 2 * h + b;
      assert m * q == m * (2 * h) + m * b;
      assert m * (2 * h) == (2 * m) * h;
    }
    assert 0 <= m * b + r < 2 * m;
    DivUnique(x, 2 * m, h, m * b + r);
  }

  // After k refills a process that stays idle holds 2p - 1 - floor((2p - 1 - t) / 2^k) ticks.
  lemma {:induction false} SleeperTicks(t: nat, p: nat, k: nat)
    requires p >= 1 && t <= 2 * p - 1
    ensures Refills(t, p, k) == 2 * p - 1 - (2 * p - 1 - t) / Pow2(k)
  {
    if k > 0 {
      SleeperTicks(t, p, k - 1);
      var x, m := 2 * p - 1 - t, Pow2(k - 1);
      HalvingTwice(x, m);
      QuotientAtMost(x, m);
      HalfAndPriority(p, x / m);
    }
  }

  // One refill in terms of what is missing to 2p - 1.
  lemma HalfAndPriority(p: nat, y: nat)
    requires y <= 2 * p - 1
    ensures (2 * p - 1 - y) / 2 + p == 2 * p - 1 - y / 2
  {
  }

  lemma QuotientAtMost(x: nat, m: nat)
    requires m >= 1
    ensures 0 <= x / m <= x
  {
    var q := x / m;
    assert x == m * q + x % m;
    if q >= 1 { MulAtLeast(q, m); }
    assert m * q == q * m;
  }

  lemma {:induction false} RefillTable(t: Table, i: nat, k: nat)
    requires i < |t| && t[i].Some?
    ensures |RefillTimes(t, k)| == |t| && RefillTimes(t, k)[i].Some?
    ensures RefillTimes(t, k)[i].value.ticks == Refills(t[i].value.ticks, t[i].value.priority, k)
    ensures RefillTimes(t, k)[i].value.priority == t[i].value.priority
  {
    if k > 0 { RefillTable(t, i, k - 1); }
  }

  function RefillTimes(t: Table, k: nat): Table {
    if k == 0 then t else Refill(RefillTimes(t, k - 1))
  }
}
