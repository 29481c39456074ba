// Which buffer get_buffer hands out, what it costs, and when bread gives one, in terms of the buffers alone.
module CacheExact {
  import opened Base
  import opened CacheModel
  import opened CacheProofs

  predicate IsFor(c: Cache, k: Key, i: nat) { i < |c.bufs| && c.bufs[i].key == Some(k) }

  predicate IsIdle(c: Cache, i: nat) { i < |c.bufs| && c.bufs[i].count == 0 }

  ghost predicate HasBuffer(c: Cache, k: Key) { exists i: nat :: IsFor(c, k, i) }

  ghost predicate HasIdle(c: Cache) { exists i: nat :: IsIdle(c, i) }

  // The block's own buffer gets one more reference, counted in a byte, and nothing else changes.
  lemma GetsOwn(c: Cache, k: Key, i: nat)
    requires Shaped(c) && IsFor(c, k, i) && forall j: nat :: j < i ==> !IsFor(c, k, j)
    ensures var b := c.bufs[i];
      GetBuffer(c, k) ==
        (c.(bufs := c.bufs[i := b.(count := (b.count + 1) % 256)], refs := c.refs[i := c.refs[i] + 1]), Some(i))
  {
    assert Find(c.bufs, k, 0) == i by {
      assert IsFor(c, k, i);
      forall j: nat | j < i ensures c.bufs[j].key != Some(k) { assert !IsFor(c, k, j); }
    }
  }

  // Without one, the first idle buffer becomes the block's: not valid, not changed, with one reference. What it held
  // goes to the device first, if it was changed; nothing else does.
  lemma GetsIdle(c: Cache, k: Key, i: nat)
    requires Shaped(c) && !HasBuffer(c, k) && IsIdle(c, i) && forall j: nat :: j < i ==> !IsIdle(c, j)
    ensures var b := c.bufs[i];
      GetBuffer(c, k) ==
        (Cache(c.bufs[i := Buf(Some(k), 1, false, false, b.data)], c.refs[i := c.refs[i] + 1],
               if b.dirty && b.key.Some? then c.device[b.key.value := b.data] else c.device), Some(i))
  {
    NotFound(c, k);
    assert FirstIdle(c.bufs, 0) == i by {
      assert IsIdle(c, i);
      forall j: nat | j < i ensures c.bufs[j].count != 0 { assert !IsIdle(c, j); }
    }
    var b := Buf(Some(k), 1, false, false, c.bufs[i].data);
    assert WriteBack(c, i).bufs[i := b] == c.bufs[i := b];
  }

  // Where there is none either, the caller sleeps.
  lemma GetsNone(c: Cache, k: Key)
    requires Shaped(c) && !HasBuffer(c, k) && !HasIdle(c)
    ensures GetBuffer(c, k) == (c, None)
  {
    NotFound(c, k);
    if FirstIdle(c.bufs, 0) < |c.bufs| { assert IsIdle(c, FirstIdle(c.bufs, 0)); }
  }

  lemma NotFound(c: Cache, k: Key)
    ensures HasBuffer(c, k) <==> Find(c.bufs, k, 0) < |c.bufs|
  {
    if Find(c.bufs, k, 0) < |c.bufs| { assert IsFor(c, k, Find(c.bufs, k, 0)); }
  }

  lemma NoneIdle(c: Cache)
    ensures HasIdle(c) <==> FirstIdle(c.bufs, 0) < |c.bufs|
  {
    if FirstIdle(c.bufs, 0) < |c.bufs| { assert IsIdle(c, FirstIdle(c.bufs, 0)); }
  }

  ghost predicate HasValid(c: Cache, k: Key) { exists i: nat :: IsFor(c, k, i) && c.bufs[i].uptodate }

  // bread gives a buffer exactly when there is one to be had and it is valid already or the device answers. Then it
  // has one reference more. Where the device does not answer the references are as before.
  lemma BreadAnswers(c: Cache, k: Key, ok: bool)
    requires Inv(c)
    ensures Shaped(c)
    ensures var (d, r) := Bread(c, k, ok);
      && (r.Buffer? <==> (HasBuffer(c, k) || HasIdle(c)) && (ok || HasValid(c, k)))
      && (r.Sleeps? <==> !HasBuffer(c, k) && !HasIdle(c))
      && (r.Buffer? ==> d.refs == c.refs[r.i := c.refs[r.i] + 1])
      && (r.Failed? ==> d.refs == c.refs)
  {
    hide Inv, Logical, GetBuffer, Find, FirstIdle, HasBuffer, HasIdle, HasValid;
    InvShaped(c);
    GetBufferKeeps(c, k, k);
    GetKeepsCounts(c, k);
    NotFound(c, k);
    NoneIdle(c);
    var (d, r) := GetBuffer(c, k);
    if r.Some? {
      ValidGot(c, k);
      assert c.refs[r.value := c.refs[r.value] + 1][r.value := c.refs[r.value]] == c.refs;
    }
  }

  // The buffer handed out is valid exactly when the block had a valid one.
  lemma ValidGot(c: Cache, k: Key)
    requires Inv(c) && Shaped(c) && GetBuffer(c, k).1.Some?
    ensures var (d, r) := GetBuffer(c, k); d.bufs[r.value].uptodate <==> HasValid(c, k)
  {
    NotFound(c, k);
    InvShaped(c);
    if HasBuffer(c, k) {
      var i := Find(c.bufs, k, 0);
      assert IsFor(c, k, i);
      OneBuffer(c, i);
      forall j: nat | IsFor(c, k, j) ensures j == i {}
    }
  }

  // brelease halts on a count of 0, and otherwise takes one reference from this buffer.
  lemma ReleaseExact(c: Cache, i: nat)
    requires Shaped(c) && i < |c.bufs| && (c.bufs[i].count > 0 ==> c.refs[i] > 0)
    ensures Brelease(c, i) ==
      if c.bufs[i].count == 0 then None
      else Some(c.(bufs := c.bufs[i := c.bufs[i].(count := c.bufs[i].count - 1)], refs := c.refs[i := c.refs[i] - 1]))
  {
  }
}
