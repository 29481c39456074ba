// Every run of the cache calls, and three lines as they are written.
module CacheRuns {
  import opened Base
  import opened CacheModel
  import opened CacheProofs

  datatype Event =
    | Get(k: Key)
    | Read(k: Key, ok: bool)
    | Release(i: nat)
    | Put(i: nat, data: Block)
    | Sync(dev: nat)
    | Drop(dev: nat)
    | Free(k: Key)

  // A caller releases and changes only buffers that it holds.
  ghost predicate Allowed(c: Cache, e: Event) {
    && Shaped(c)
    && match e
       case Release(i) => i < |c.bufs| && c.bufs[i].count != 0
       case Put(i, data) => i < |c.bufs| && c.bufs[i].count != 0 && c.bufs[i].key.Some?
       case _ => true
  }

  ghost function Step(c: Cache, e: Event): Cache
    requires Allowed(c, e)
  {
    match e
    case Get(k) => GetBuffer(c, k).0
    case Read(k, ok) => Bread(c, k, ok).0
    case Release(i) => Brelease(c, i).value
    case Put(i, data) => Store(c, i, data)
    case Sync(dev) => SyncDev(c, dev, |c.bufs|)
    case Drop(dev) => InvalidDevBuffers(c, dev)
    case Free(k) => FreeBuffer(c, k).0
  }

  ghost predicate AllowedRun(c: Cache, es: seq<Event>)
    decreases |es|
  {
    es == [] || (Allowed(c, es[0]) && AllowedRun(Step(c, es[0]), es[1..]))
  }

  ghost function Run(c: Cache, es: seq<Event>): Cache
    requires AllowedRun(c, es)
    decreases |es|
  {
    if es == [] then c else Run(Step(c, es[0]), es[1..])
  }

  // Block k of a plain disk after the event: only stores change it, and a drop of
  // its device or of its buffer by free_block.
  ghost function Seen(c: Cache, e: Event, k: Key, v: Block): Block
    requires Allowed(c, e)
  {
    match e
    case Put(i, data) => if c.bufs[i].key == Some(k) then data else v
    case Drop(dev) => if k.dev == dev then OnDisk(c, k) else v
    case Free(l) => if l == k && FreeBuffer(c, l).1 then OnDisk(c, k) else v
    case _ => v
  }

  ghost function SeenRun(c: Cache, es: seq<Event>, k: Key, v: Block): Block
    requires AllowedRun(c, es)
    decreases |es|
  {
    if es == [] then v else SeenRun(Step(c, es[0]), es[1..], k, Seen(c, es[0], k, v))
  }

  lemma StepRefines(c: Cache, e: Event, k: Key)
    requires Inv(c) && Allowed(c, e)
    ensures Inv(Step(c, e)) && Logical(Step(c, e), k) == Seen(c, e, k, Logical(c, k))
  {
    hide Inv, Logical, GetBuffer, Bread, Store, SyncDev, InvalidDevBuffers, FreeBuffer, HeldStay;
    InvShaped(c);
    match e
    case Get(l) => GetBufferKeeps(c, l, k);
    case Read(l, ok) => BreadKeeps(c, l, ok, k);
    case Release(i) => BreleaseKeeps(c, i, k);
    case Put(i, data) => StoreKeeps(c, i, data, k);
    case Sync(dev) => SyncKeeps(c, dev, |c.bufs|, k);
    case Drop(dev) => InvalidKeeps(c, dev, k);
    case Free(l) => FreeBufferKeeps(c, l, k);
  }

  // Over every run the logical disk is that plain disk: reading, evicting, writing back and
  // synchronising are invisible.
  lemma {:induction false} RunRefines(c: Cache, es: seq<Event>, k: Key)
    requires Inv(c) && AllowedRun(c, es)
    ensures Inv(Run(c, es)) && Logical(Run(c, es), k) == SeenRun(c, es, k, Logical(c, k))
    decreases |es|
  {
    hide Inv, Logical, Step, Seen, Allowed;
    if es != [] {
      StepRefines(c, es[0], k);
      RunRefines(Step(c, es[0]), es[1..], k);
    }
  }

  // mem_buffer_init: no buffer is bound.
  ghost predicate Initial(c: Cache) {
    && Shaped(c) && (forall i :: 0 <= i < |c.refs| ==> c.refs[i] == 0)
    && forall i :: 0 <= i < |c.bufs| ==> c.bufs[i] == Buf(None, 0, false, false, c.bufs[i].data)
  }

  lemma EveryRunRefines(c: Cache, es: seq<Event>, k: Key)
    requires Initial(c) && AllowedRun(c, es)
    ensures Inv(Run(c, es)) && Logical(Run(c, es), k) == SeenRun(c, es, k, OnDisk(c, k))
  {
    assert Inv(c);
    LogicalIs(c, k);
    RunRefines(c, es, k);
  }

  // ---- held buffers --------------------------------------------------------------------------

  ghost predicate HeldThroughout(c: Cache, es: seq<Event>, i: nat)
    requires AllowedRun(c, es)
    decreases |es|
  {
    && i < |c.bufs| && c.bufs[i].count != 0
    && (es != [] ==> HeldThroughout(Step(c, es[0]), es[1..], i))
  }

  lemma StepKeepsHeld(c: Cache, e: Event, i: nat)
    requires Inv(c) && Allowed(c, e) && i < |c.bufs| && c.bufs[i].count != 0
    ensures |Step(c, e).bufs| == |c.bufs| && Step(c, e).bufs[i].key == c.bufs[i].key
  {
    hide Inv, Logical, GetBuffer, Bread, SyncDev, InvalidDevBuffers, FreeBuffer;
    InvShaped(c);
    var k := Key(0, 0);
    match e
    case Get(l) => GetBufferKeeps(c, l, k);
    case Read(l, ok) => BreadKeeps(c, l, ok, k);
    case Release(j) =>
    case Put(j, data) =>
    case Sync(dev) => SyncKeeps(c, dev, |c.bufs|, k);
    case Drop(dev) =>
    case Free(l) => FreeBufferKeeps(c, l, k);
  }

  // While somebody holds a buffer it stays the buffer of its block.
  lemma {:induction false} HeldIsNeverRebound(c: Cache, es: seq<Event>, i: nat)
    requires Inv(c) && AllowedRun(c, es) && HeldThroughout(c, es, i)
    ensures i < |Run(c, es).bufs| && Run(c, es).bufs[i].key == c.bufs[i].key
    decreases |es|
  {
    hide Inv, Step, Allowed;
    if es != [] {
      StepRefines(c, es[0], Key(0, 0));
      StepKeepsHeld(c, es[0], i);
      HeldIsNeverRebound(Step(c, es[0]), es[1..], i);
    }
  }

  // The 256th reference makes a held buffer look idle.
  lemma CountWraps(c: Cache, i: nat)
    requires Inv(c) && i < |c.bufs| && c.refs[i] > 0
    ensures Hold(c, i).bufs[i].count == 0 <==> (c.refs[i] + 1) % COUNT_LIMIT == 0
  {
    CountUp(c.refs[i]);
  }

  // Then a buffer that somebody holds is handed to the next who asks for a block without one: exactly when no buffer
  // before it is idle.
  lemma WrappedIsTaken(c: Cache, i: nat, l: Key)
    requires Inv(c) && i < |c.bufs| && c.bufs[i].key.Some? && Find(c.bufs, l, 0) == |c.bufs|
    ensures Shaped(Hold(c, i))
    ensures GetBuffer(Hold(c, i), l).1 == Some(i) <==>
      (c.refs[i] + 1) % COUNT_LIMIT == 0 && forall j :: 0 <= j < i ==> c.refs[j] % COUNT_LIMIT != 0
  {
    hide Inv, WriteBack;
    InvShaped(c);
    CountUp(c.refs[i]);
    var d := Hold(c, i);
    assert forall j :: 0 <= j < |c.bufs| ==> c.bufs[j].key != Some(l) && d.bufs[j].key == c.bufs[j].key;
    assert d.bufs[i].count == (c.refs[i] + 1) % COUNT_LIMIT;
    assert forall j :: 0 <= j < |c.bufs| && j != i ==> d.bufs[j].count == c.refs[j] % COUNT_LIMIT;
    var r := FirstIdle(d.bufs, 0);
    assert Find(d.bufs, l, 0) == |d.bufs|;
    assert GetBuffer(d, l).1 == if r == |d.bufs| then None else Some(r);
  }

  // ---- as written ----------------------------------------------------------------------------

  // kernel/buffer.c:147-150: nobody clears the dirty flag when the write is done.
  function WriteBackOnce(c: Cache, i: nat): Cache
    requires i < |c.bufs|
  {
    var b := c.bufs[i];
    if b.dirty && b.key.Some? then c.(device := c.device[b.key.value := b.data]) else c
  }

  function WriteBackTurns(c: Cache, i: nat, n: nat): (r: Cache)
    requires i < |c.bufs|
    ensures r.bufs == c.bufs
  {
    if n == 0 then c else WriteBackOnce(WriteBackTurns(c, i, n - 1), i)
  }

  // The loop ends after some number of turns, with what WriteBack gives, exactly when the buffer was
  // not dirty.
  lemma WriteLoopNeverEnds(c: Cache, i: nat)
    requires Inv(c) && i < |c.bufs|
    ensures (exists n: nat :: !WriteBackTurns(c, i, n).bufs[i].dirty) <==> !c.bufs[i].dirty
    ensures WriteBackOnce(c, i) == WriteBack(c, i) <==> !c.bufs[i].dirty
  {
    assert WriteBackTurns(c, i, 0).bufs[i] == c.bufs[i];
    assert BufOk(c, c.bufs[i]);
  }

  // fs/inode.c:196-203 and fs/inode.c:222-228: a word of an index block is changed, its buffer is
  // not marked.
  function StoreUnmarked(c: Cache, i: nat, data: Block): Cache
    requires i < |c.bufs|
  {
    SetBuf(c, i, c.bufs[i].(data := data))
  }

  // When the buffer is next taken for another block, the change is lost; it survives exactly when
  // nothing was changed.
  lemma UnmarkedIsLost(c: Cache, i: nat, data: Block, k: Key, l: Key)
    requires Inv(c) && i < |c.bufs| && c.bufs[i].key == Some(k) && c.bufs[i].uptodate && !c.bufs[i].dirty && l != k
    requires Find(c.bufs, l, 0) == |c.bufs|
    ensures var d := StoreUnmarked(c, i, data); Logical(d, k) == data
    ensures var d := StoreUnmarked(c, i, data);
      Logical(Rebind(WriteBack(d, i), i, l), k) == data <==> data == Logical(c, k)
  {
    var d := StoreUnmarked(c, i, data);
    LogicalIs(c, k);
    assert BufOk(c, c.bufs[i]);
    UnmarkedFind(c, d, i, k);
    var e := Rebind(WriteBack(d, i), i, l);
    assert e == Rebind(c, i, l).(bufs := e.bufs);
    assert forall j :: 0 <= j < |e.bufs| ==> e.bufs[j].key != Some(k);
  }

  lemma UnmarkedFind(c: Cache, d: Cache, i: nat, k: Key)
    requires Inv(c) && i < |c.bufs| && c.bufs[i].key == Some(k)
    requires |d.bufs| == |c.bufs| && forall j :: 0 <= j < |c.bufs| ==> d.bufs[j].key == c.bufs[j].key
    ensures Find(d.bufs, k, 0) == i
  {
  }
}
