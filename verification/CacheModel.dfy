// kernel/buffer.c with each call atomic: the buffers, the disks under them, and the disk that the
// callers see.
module CacheModel {
  import opened Base

  const COUNT_LIMIT: nat := 0x100   // the count of a buffer is a byte

  datatype Key = Key(dev: nat, block: nat)

  // `key` is None for the device number -1 of a buffer that was never used.
  datatype Buf = Buf(key: Option<Key>, count: nat, dirty: bool, uptodate: bool, data: Block)

  // `refs` counts the references that callers hold, `device` is what the disks hold.
  datatype Cache = Cache(bufs: seq<Buf>, refs: seq<nat>, device: map<Key, Block>)

  predicate Shaped(c: Cache) { |c.refs| == |c.bufs| }

  function OnDisk(c: Cache, k: Key): Block {
    if k in c.device then c.device[k] else ZeroBlock()
  }

  // The first buffer for k, the number of buffers if there is none.
  function Find(bufs: seq<Buf>, k: Key, from: nat): (r: nat)
    requires from <= |bufs|
    ensures from <= r <= |bufs| && (r < |bufs| ==> bufs[r].key == Some(k))
    ensures forall i :: from <= i < r ==> bufs[i].key != Some(k)
    decreases |bufs| - from
  {
    if from == |bufs| || bufs[from].key == Some(k) then from else Find(bufs, k, from + 1)
  }

  function FirstIdle(bufs: seq<Buf>, from: nat): (r: nat)
    requires from <= |bufs|
    ensures from <= r <= |bufs| && (r < |bufs| ==> bufs[r].count == 0)
    ensures forall i :: from <= i < r ==> bufs[i].count != 0
    decreases |bufs| - from
  {
    if from == |bufs| || bufs[from].count == 0 then from else FirstIdle(bufs, from + 1)
  }

  // The logical disk: a valid cached block covers the device.
  function Logical(c: Cache, k: Key): Block {
    var i := Find(c.bufs, k, 0);
    if i < |c.bufs| && c.bufs[i].uptodate then c.bufs[i].data else OnDisk(c, k)
  }

  // ---- the calls -----------------------------------------------------------------------------

  function SetBuf(c: Cache, i: nat, b: Buf): Cache
    requires i < |c.bufs|
  {
    c.(bufs := c.bufs[i := b])
  }

  function SetRefs(c: Cache, i: nat, n: nat): Cache
    requires i < |c.refs|
  {
    c.(refs := c.refs[i := n])
  }

  // A request to write buffer i, served.
  function WriteBack(c: Cache, i: nat): (r: Cache)
    requires i < |c.bufs|
    ensures |r.bufs| == |c.bufs| && r.refs == c.refs
  {
    var b := c.bufs[i];
    if b.dirty && b.key.Some? then SetBuf(c.(device := c.device[b.key.value := b.data]), i, b.(dirty := false)) else c
  }

  // A reference to buffer i is handed out.
  function Hold(c: Cache, i: nat): Cache
    requires Shaped(c) && i < |c.bufs|
  {
    SetRefs(SetBuf(c, i, c.bufs[i].(count := (c.bufs[i].count + 1) % COUNT_LIMIT)), i, c.refs[i] + 1)
  }

  // Idle buffer i becomes the buffer for k.
  function Rebind(c: Cache, i: nat, k: Key): Cache
    requires Shaped(c) && i < |c.bufs|
  {
    SetRefs(SetBuf(c, i, Buf(Some(k), 1, false, false, c.bufs[i].data)), i, c.refs[i] + 1)
  }

  // None: every buffer is held, and the caller sleeps.
  function GetBuffer(c: Cache, k: Key): (r: (Cache, Option<nat>))
    requires Shaped(c)
    ensures Shaped(r.0) && |r.0.bufs| == |c.bufs| && (r.1.Some? ==> r.1.value < |c.bufs|)
  {
    var i := Find(c.bufs, k, 0);
    if i < |c.bufs| then (Hold(c, i), Some(i))
    else
      var j := FirstIdle(c.bufs, 0);
      if j == |c.bufs| then (c, None) else (Rebind(WriteBack(c, j), j, k), Some(j))
  }

  // brelease; None where the kernel halts.
  function Brelease(c: Cache, i: nat): (r: Option<Cache>)
    requires Shaped(c) && i < |c.bufs|
    ensures r.Some? ==> Shaped(r.value) && |r.value.bufs| == |c.bufs|
  {
    if c.bufs[i].count == 0 then None
    else
      var refs := if c.refs[i] > 0 then c.refs[i] - 1 else 0;
      Some(SetRefs(SetBuf(c, i, c.bufs[i].(count := c.bufs[i].count - 1)), i, refs))
  }

  // Halted: brelease finds the count at 0, after 256 references.
  datatype Got = Sleeps | Failed | Halted | Buffer(i: nat)

  // `ok`: the device answers a read, if one is needed.
  function Bread(c: Cache, k: Key, ok: bool): (r: (Cache, Got))
    requires Shaped(c)
    ensures Shaped(r.0) && |r.0.bufs| == |c.bufs| && (r.1.Buffer? ==> r.1.i < |c.bufs|)
  {
    var (d, r) := GetBuffer(c, k);
    if r.None? then (d, Sleeps)
    else
      var i := r.value;
      if d.bufs[i].uptodate then (d, Buffer(i))
      else if ok then (SetBuf(d, i, d.bufs[i].(data := OnDisk(d, k), uptodate := true)), Buffer(i))
      else if Brelease(d, i).Some? then (Brelease(d, i).value, Failed)
      else (d, Halted)
  }

  // A caller changes the data of a buffer it holds and marks it.
  function Store(c: Cache, i: nat, data: Block): (r: Cache)
    requires i < |c.bufs|
    ensures |r.bufs| == |c.bufs| && r.refs == c.refs
  {
    SetBuf(c, i, c.bufs[i].(data := data, dirty := true, uptodate := true))
  }

  function SyncDev(c: Cache, dev: nat, n: nat): (r: Cache)
    requires n <= |c.bufs|
    ensures |r.bufs| == |c.bufs| && r.refs == c.refs
  {
    if n == 0 then c
    else
      var d := SyncDev(c, dev, n - 1);
      if d.bufs[n - 1].key.Some? && d.bufs[n - 1].key.value.dev == dev then WriteBack(d, n - 1) else d
  }

  function Invalid(b: Buf): Buf { b.(dirty := false, uptodate := false) }

  function InvalidDevBuffers(c: Cache, dev: nat): (r: Cache)
    ensures |r.bufs| == |c.bufs| && r.refs == c.refs && r.device == c.device
    ensures forall i :: 0 <= i < |c.bufs| ==>
      r.bufs[i] == if c.bufs[i].key.Some? && c.bufs[i].key.value.dev == dev then Invalid(c.bufs[i]) else c.bufs[i]
  {
    c.(bufs := seq(|c.bufs|, i requires 0 <= i < |c.bufs| =>
      if c.bufs[i].key.Some? && c.bufs[i].key.value.dev == dev then Invalid(c.bufs[i]) else c.bufs[i]))
  }

  // The first half of free_block: drops the buffer of a block, if there is one. False where it finds
  // the buffer held and returns, keeping the reference it has just taken.
  function FreeBuffer(c: Cache, k: Key): (r: (Cache, bool))
    requires Shaped(c)
    ensures Shaped(r.0) && |r.0.bufs| == |c.bufs|
  {
    var i := Find(c.bufs, k, 0);
    if i == |c.bufs| then (c, true)
    else
      var d := Hold(c, i);
      if d.bufs[i].count != 1 then (d, false)
      else
        var e := SetBuf(d, i, Invalid(d.bufs[i]));
        (if Brelease(e, i).Some? then Brelease(e, i).value else e, true)
  }
}
