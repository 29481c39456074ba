// fs/block_dev.c: a block device as one flat array of bytes.
module BlockDev {
  import opened Base
  import opened CacheModel
  import opened CacheProofs

  // Byte p of the device, through the cache.
  function Flat(c: Cache, dev: nat, p: nat): byte {
    Logical(c, Key(dev, p / BLOCK_SIZE))[p % BLOCK_SIZE]
  }

  // ---- the loops -----------------------------------------------------------------------------

  // How a call ends. Asleep: every buffer is held, and the caller waits for one. Stopped: the kernel halts in
  // brelease, which finds the count at 0.
  datatype Outcome = Done | NoAnswer | Asleep | Stopped

  function Ending(g: Got): Outcome {
    match g
    case Sleeps => Asleep
    case Failed => NoAnswer
    case Halted => Stopped
    case Buffer(_) => Done
  }

  // One turn of block_write: the bytes of d that go into the block of pos.
  function WriteStep(c: Cache, dev: nat, pos: nat, d: seq<byte>, ok: bool): (r: (Cache, nat, Outcome))
    requires Shaped(c)
    ensures Shaped(r.0) && r.1 <= |d| && (r.2.Done? && d != [] ==> r.1 > 0)
  {
    var (e, g) := Bread(c, Key(dev, pos / BLOCK_SIZE), ok);
    if !g.Buffer? then (e, 0, Ending(g))
    else
      var n := Chars(pos, |d|);
      var f := Store(e, g.i, PutBytes(e.bufs[g.i].data, pos % BLOCK_SIZE, d[..n]));
      if Brelease(f, g.i).Some? then (Brelease(f, g.i).value, n, Done) else (f, n, Stopped)
  }

  function ReadStep(c: Cache, dev: nat, pos: nat, count: nat, ok: bool): (r: (Cache, seq<byte>, Outcome))
    requires Shaped(c)
    ensures Shaped(r.0) && |r.1| <= count && (r.2.Done? && count > 0 ==> r.1 != [])
  {
    var (e, g) := Bread(c, Key(dev, pos / BLOCK_SIZE), ok);
    if !g.Buffer? then (e, [], Ending(g))
    else
      var a := e.bufs[g.i].data[pos % BLOCK_SIZE..pos % BLOCK_SIZE + Chars(pos, count)];
      if Brelease(e, g.i).Some? then (Brelease(e, g.i).value, a, Done) else (e, a, Stopped)
  }

  // In turn k the device answers a read if ok(k).
  function WriteLoop(c: Cache, dev: nat, pos: nat, d: seq<byte>, ok: nat -> bool, k: nat): (r: (Cache, nat, Outcome))
    requires Shaped(c)
    ensures Shaped(r.0) && r.1 <= |d|
    decreases |d|
  {
    if d == [] then (c, 0, Done)
    else
      var (e, n, o) := WriteStep(c, dev, pos, d, ok(k));
      if o != Done then (e, n, o)
      else
        var (f, m, q) := WriteLoop(e, dev, pos + n, d[n..], ok, k + 1);
        (f, n + m, q)
  }

  function ReadLoop(c: Cache, dev: nat, pos: nat, count: nat, ok: nat -> bool, k: nat): (r: (Cache, seq<byte>, Outcome))
    requires Shaped(c)
    ensures Shaped(r.0) && |r.1| <= count
    decreases count
  {
    if count == 0 then (c, [], Done)
    else
      var (e, a, o) := ReadStep(c, dev, pos, count, ok(k));
      if o != Done then (e, a, o)
      else
        var (f, b, q) := ReadLoop(e, dev, pos + |a|, count - |a|, ok, k + 1);
        (f, a + b, q)
  }

  // ---- what a turn keeps ---------------------------------------------------------------------

  // No buffer has as many references as its count can tell apart from none.
  predicate Countable(c: Cache) {
    Shaped(c) && forall i :: 0 <= i < |c.refs| ==> c.refs[i] < COUNT_LIMIT - 1
  }

  // Some buffer is idle, so that nobody has to sleep, and no count is about to wrap.
  predicate Ready(c: Cache) { Countable(c) && FirstIdle(c.bufs, 0) < |c.bufs| }

  predicate SameCounts(c: Cache, d: Cache) {
    && Shaped(c) && Shaped(d) && |d.bufs| == |c.bufs| && d.refs == c.refs
    && forall i :: 0 <= i < |c.bufs| ==> d.bufs[i].count == c.bufs[i].count
  }

  lemma ReadyThen(c: Cache, d: Cache)
    requires Ready(c) && SameCounts(c, d)
    ensures Ready(d)
  {
    assert d.bufs[FirstIdle(c.bufs, 0)].count == 0;
  }

  // d has one reference more than c, to buffer i.
  predicate OneMore(c: Cache, d: Cache, i: nat) {
    && Shaped(c) && Shaped(d) && |d.bufs| == |c.bufs| && i < |c.bufs| && d.refs == c.refs[i := c.refs[i] + 1]
    && d.bufs[i].count == c.bufs[i].count + 1
    && forall j :: 0 <= j < |c.bufs| && j != i ==> d.bufs[j].count == c.bufs[j].count
  }

  lemma GetTakesOne(c: Cache, k: Key)
    requires Inv(c) && Ready(c)
    ensures GetBuffer(c, k).1.Some? && OneMore(c, GetBuffer(c, k).0, GetBuffer(c, k).1.value)
  {
    hide Inv, GetBuffer, Logical, HeldStay;
    GetBufferKeeps(c, k, k);
    GetKeepsCounts(c, k);
    InvShaped(c);
    assert c.refs[GetBuffer(c, k).1.value] < COUNT_LIMIT - 1;
  }

  lemma ReleaseGivesBack(c: Cache, d: Cache, i: nat)
    requires OneMore(c, d, i)
    ensures Brelease(d, i).Some? && SameCounts(c, Brelease(d, i).value)
  {
    assert c.refs[i := c.refs[i] + 1][i := c.refs[i]] == c.refs;
  }

  lemma BreadTakesOne(c: Cache, k: Key, ok: bool)
    requires Inv(c) && Ready(c)
    ensures var (d, g) := Bread(c, k, ok);
      && (g.Failed? || g.Buffer?) && (g.Failed? ==> SameCounts(c, d)) && (g.Buffer? ==> OneMore(c, d, g.i))
  {
    hide GetBuffer, Ready, Brelease, Inv;
    GetTakesOne(c, k);
    InvShaped(c);
    var (e, r) := GetBuffer(c, k);
    ReleaseGivesBack(c, e, r.value);
  }

  // ---- one turn ------------------------------------------------------------------------------

  // The byte that lies at p after d was written at pos.
  function Over(v: byte, dev: nat, pos: nat, d: seq<byte>, l: nat, p: nat): byte {
    if l == dev && pos <= p < pos + |d| then d[p - pos] else v
  }

  lemma WriteStepKeeps(c: Cache, dev: nat, pos: nat, d: seq<byte>, ok: bool, l: nat, p: nat)
    requires Inv(c)
    ensures Shaped(c)
    ensures var (f, n, o) := WriteStep(c, dev, pos, d, ok);
      && Inv(f) && Flat(f, l, p) == Over(Flat(c, l, p), dev, pos, d[..n], l, p)
      && (o.NoAnswer? ==> !ok)
  {
    hide Inv, Bread, Logical, Brelease, Store, HeldStay, PutBytes, Shaped, Find, FirstIdle;
    InvShaped(c);
    var k, q := Key(dev, pos / BLOCK_SIZE), Key(l, p / BLOCK_SIZE);
    BreadKeeps(c, k, ok, q);
    var (e, g) := Bread(c, k, ok);
    InvShaped(e);
    if g.Buffer? {
      var n := Chars(pos, |d|);
      var data := PutBytes(e.bufs[g.i].data, pos % BLOCK_SIZE, d[..n]);
      StoreKeeps(e, g.i, data, q);
      BreleaseKeeps(Store(e, g.i, data), g.i, q);
    }
  }

  // With an idle buffer and no count about to wrap, the turn is over, or the device did not answer; and that stays so.
  lemma WriteStepReady(c: Cache, dev: nat, pos: nat, d: seq<byte>, ok: bool)
    requires Inv(c) && Ready(c)
    ensures var (f, n, o) := WriteStep(c, dev, pos, d, ok); Ready(f) && (o.Done? || o.NoAnswer?)
  {
    hide Inv, Ready, Bread, Logical, Brelease, Store, OneMore, SameCounts, PutBytes;
    InvShaped(c);
    BreadTakesOne(c, Key(dev, pos / BLOCK_SIZE), ok);
    var (e, g) := Bread(c, Key(dev, pos / BLOCK_SIZE), ok);
    if g.Buffer? {
      var data := PutBytes(e.bufs[g.i].data, pos % BLOCK_SIZE, d[..Chars(pos, |d|)]);
      StoreCounts(c, e, g.i, data);
      ReleaseGivesBack(c, Store(e, g.i, data), g.i);
      ReadyThen(c, Brelease(Store(e, g.i, data), g.i).value);
    } else {
      ReadyThen(c, e);
    }
  }

  lemma StoreCounts(c: Cache, e: Cache, i: nat, data: Block)
    requires OneMore(c, e, i)
    ensures OneMore(c, Store(e, i, data), i)
  {
  }

  lemma ReadStepKeeps(c: Cache, dev: nat, pos: nat, count: nat, ok: bool, l: nat, p: nat)
    requires Inv(c)
    ensures Shaped(c)
    ensures var (f, a, o) := ReadStep(c, dev, pos, count, ok);
      && Inv(f) && Flat(f, l, p) == Flat(c, l, p) && (o.NoAnswer? ==> !ok)
      && (l == dev && pos <= p < pos + |a| ==> a[p - pos] == Flat(c, l, p))
  {
    hide Inv, Bread, Logical, Brelease, HeldStay, Find, FirstIdle;
    InvShaped(c);
    var k, q := Key(dev, pos / BLOCK_SIZE), Key(l, p / BLOCK_SIZE);
    BreadKeeps(c, k, ok, q);
    var (e, g) := Bread(c, k, ok);
    InvShaped(e);
    if g.Buffer? { BreleaseKeeps(e, g.i, q); }
  }

  lemma ReadStepReady(c: Cache, dev: nat, pos: nat, count: nat, ok: bool)
    requires Inv(c) && Ready(c)
    ensures var (f, a, o) := ReadStep(c, dev, pos, count, ok); Ready(f) && (o.Done? || o.NoAnswer?)
  {
    hide Inv, Ready, Bread, Logical, Brelease, OneMore, SameCounts;
    InvShaped(c);
    BreadTakesOne(c, Key(dev, pos / BLOCK_SIZE), ok);
    var (e, g) := Bread(c, Key(dev, pos / BLOCK_SIZE), ok);
    if g.Buffer? {
      ReleaseGivesBack(c, e, g.i);
      ReadyThen(c, Brelease(e, g.i).value);
    } else {
      ReadyThen(c, e);
    }
  }

  // ---- block_write ---------------------------------------------------------------------------

  ghost predicate Answers(ok: nat -> bool) { forall j :: ok(j) }

  lemma AnswersAt(ok: nat -> bool, k: nat)
    ensures Answers(ok) ==> ok(k)
  {
  }

  lemma WriteUnfolds(c: Cache, dev: nat, pos: nat, d: seq<byte>, ok: nat -> bool, k: nat)
    requires Shaped(c)
    ensures d == [] ==> WriteLoop(c, dev, pos, d, ok, k) == (c, 0, Done)
    ensures var (e, n, o) := WriteStep(c, dev, pos, d, ok(k));
      && (d != [] && o != Done ==> WriteLoop(c, dev, pos, d, ok, k) == (e, n, o))
      && (d != [] && o == Done ==>
           var (f, m, q) := WriteLoop(e, dev, pos + n, d[n..], ok, k + 1);
           WriteLoop(c, dev, pos, d, ok, k) == (f, n + m, q))
  {
    hide WriteStep, Shaped;
  }

  lemma OverThen(v: byte, dev: nat, pos: nat, d: seq<byte>, n: nat, m: nat, l: nat, p: nat)
    requires n <= |d| && m <= |d| - n
    ensures Over(Over(v, dev, pos, d[..n], l, p), dev, pos + n, d[n..][..m], l, p) ==
      Over(v, dev, pos, d[..n + m], l, p)
  {
  }

  // However it ends, block_write has written to a flat array: the bytes it reports, from pos on, and nothing else.
  // If it is done, it has written all of them.
  lemma {:induction false} WriteIsFlat(c: Cache, dev: nat, pos: nat, d: seq<byte>, ok: nat -> bool, k: nat, l: nat,
      p: nat)
    requires Inv(c)
    ensures Shaped(c)
    ensures var (f, n, o) := WriteLoop(c, dev, pos, d, ok, k);
      && Inv(f) && Flat(f, l, p) == Over(Flat(c, l, p), dev, pos, d[..n], l, p)
      && (o.Done? ==> n == |d|) && (o.NoAnswer? ==> !Answers(ok))
    decreases |d|
  {
    hide *;
    InvShaped(c);
    WriteUnfolds(c, dev, pos, d, ok, k);
    NothingOver(Flat(c, l, p), dev, pos, d, l, p);
    if d != [] {
      AnswersAt(ok, k);
      WriteStepKeeps(c, dev, pos, d, ok(k), l, p);
      var (e, n, o) := WriteStep(c, dev, pos, d, ok(k));
      if o == Done {
        WriteIsFlat(e, dev, pos + n, d[n..], ok, k + 1, l, p);
        OverThen(Flat(c, l, p), dev, pos, d, n, WriteLoop(e, dev, pos + n, d[n..], ok, k + 1).1, l, p);
      }
    }
  }

  lemma NothingOver(v: byte, dev: nat, pos: nat, d: seq<byte>, l: nat, p: nat)
    ensures Over(v, dev, pos, d[..0], l, p) == v
  {
  }

  // Nobody sleeps and nothing halts as long as a buffer is idle and no count is about to wrap.
  lemma {:induction false} WriteIsReady(c: Cache, dev: nat, pos: nat, d: seq<byte>, ok: nat -> bool, k: nat)
    requires Inv(c) && Ready(c)
    ensures var (f, n, o) := WriteLoop(c, dev, pos, d, ok, k);
      Ready(f) && (o.Done? || o.NoAnswer?) && (Answers(ok) ==> o.Done?)
    decreases |d|
  {
    hide *;
    InvShaped(c);
    WriteUnfolds(c, dev, pos, d, ok, k);
    if d != [] {
      AnswersAt(ok, k);
      WriteStepKeeps(c, dev, pos, d, ok(k), 0, 0);
      WriteStepReady(c, dev, pos, d, ok(k));
      var (e, n, o) := WriteStep(c, dev, pos, d, ok(k));
      if o == Done { WriteIsReady(e, dev, pos + n, d[n..], ok, k + 1); }
    }
  }

  // ---- block_read ----------------------------------------------------------------------------

  lemma ReadUnfolds(c: Cache, dev: nat, pos: nat, count: nat, ok: nat -> bool, k: nat)
    requires Shaped(c)
    ensures count == 0 ==> ReadLoop(c, dev, pos, count, ok, k) == (c, [], Done)
    ensures var (e, a, o) := ReadStep(c, dev, pos, count, ok(k));
      && (count > 0 && o != Done ==> ReadLoop(c, dev, pos, count, ok, k) == (e, a, o))
      && (count > 0 && o == Done ==>
           var (f, b, q) := ReadLoop(e, dev, pos + |a|, count - |a|, ok, k + 1);
           ReadLoop(c, dev, pos, count, ok, k) == (f, a + b, q))
  {
    hide ReadStep, Shaped;
  }

  // block_read changes no byte and returns those from pos on; all that were asked for if it is done.
  lemma {:induction false} ReadIsFlat(c: Cache, dev: nat, pos: nat, count: nat, ok: nat -> bool, k: nat, l: nat, p: nat)
    requires Inv(c)
    ensures Shaped(c)
    ensures var (f, r, o) := ReadLoop(c, dev, pos, count, ok, k);
      && Inv(f) && Flat(f, l, p) == Flat(c, l, p) && (o.Done? ==> |r| == count) && (o.NoAnswer? ==> !Answers(ok))
      && (l == dev && pos <= p < pos + |r| ==> r[p - pos] == Flat(c, l, p))
    decreases count
  {
    hide *;
    InvShaped(c);
    ReadUnfolds(c, dev, pos, count, ok, k);
    if count > 0 {
      AnswersAt(ok, k);
      ReadStepKeeps(c, dev, pos, count, ok(k), l, p);
      var (e, a, o) := ReadStep(c, dev, pos, count, ok(k));
      if o == Done { ReadIsFlat(e, dev, pos + |a|, count - |a|, ok, k + 1, l, p); }
    }
  }

  lemma {:induction false} ReadIsReady(c: Cache, dev: nat, pos: nat, count: nat, ok: nat -> bool, k: nat)
    requires Inv(c) && Ready(c)
    ensures var (f, r, o) := ReadLoop(c, dev, pos, count, ok, k);
      Ready(f) && (o.Done? || o.NoAnswer?) && (Answers(ok) ==> o.Done?)
    decreases count
  {
    hide *;
    InvShaped(c);
    ReadUnfolds(c, dev, pos, count, ok, k);
    if count > 0 {
      AnswersAt(ok, k);
      ReadStepKeeps(c, dev, pos, count, ok(k), 0, 0);
      ReadStepReady(c, dev, pos, count, ok(k));
      var (e, a, o) := ReadStep(c, dev, pos, count, ok(k));
      if o == Done { ReadIsReady(e, dev, pos + |a|, count - |a|, ok, k + 1); }
    }
  }

  // A read after a write, however either ends, returns what was written as far as it gets: all of it if a buffer is
  // idle, no count is about to wrap and the device answers.
  lemma ReadAfterWrite(c: Cache, dev: nat, pos: nat, d: seq<byte>, ok: nat -> bool, answers: nat -> bool)
    requires Inv(c)
    ensures Shaped(c)
    ensures var (f, n, o) := WriteLoop(c, dev, pos, d, ok, 0);
      var r := ReadLoop(f, dev, pos, n, answers, 0).1;
      r == d[..|r|] && (Ready(c) && Answers(answers) ==> |r| == n)
  {
    hide *;
    InvShaped(c);
    WriteIsFlat(c, dev, pos, d, ok, 0, dev, pos);
    var (f, n, o) := WriteLoop(c, dev, pos, d, ok, 0);
    ReadIsFlat(f, dev, pos, n, answers, 0, dev, pos);
    if Ready(c) {
      WriteIsReady(c, dev, pos, d, ok, 0);
      ReadIsReady(f, dev, pos, n, answers, 0);
    }
    var r := ReadLoop(f, dev, pos, n, answers, 0).1;
    forall i | 0 <= i < |r| ensures r[i] == d[i] {
      WriteIsFlat(c, dev, pos, d, ok, 0, dev, pos + i);
      ReadIsFlat(f, dev, pos, n, answers, 0, dev, pos + i);
      OverInside(Flat(c, dev, pos + i), dev, pos, d[..n], pos + i);
    }
    assert r == d[..|r|];
  }

  lemma OverInside(v: byte, dev: nat, pos: nat, d: seq<byte>, p: nat)
    requires pos <= p < pos + |d|
    ensures Over(v, dev, pos, d, dev, p) == d[p - pos]
  {
  }
}
