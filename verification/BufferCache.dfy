// kernel/buffer.c and fs/block_dev.c in place.
module BufferCache {
  import opened Base
  import M = CacheModel
  import P = CacheProofs
  import R = CacheRuns
  import D = BlockDev

  class BufferCache {
    const bufs: array<M.Buf>
    var device: map<M.Key, Block>
    ghost var refs: seq<nat>

    ghost predicate Valid()
      reads this, bufs
    {
      P.Inv(Abs())
    }

    ghost function Abs(): M.Cache
      reads this, bufs
    {
      M.Cache(bufs[..], refs, device)
    }

    // mem_buffer_init.
    constructor (n: nat, device: map<M.Key, Block>)
      ensures Valid() && R.Initial(Abs()) && this.device == device && bufs.Length == n && fresh(bufs)
    {
      bufs := new M.Buf[n](i => M.Buf(None, 0, false, false, ZeroBlock()));
      this.device := device;
      refs := seq(n, i => 0);
      new;
      assert forall i :: 0 <= i < n ==> bufs[..][i] == M.Buf(None, 0, false, false, ZeroBlock());
    }

    method SetBuf(i: nat, b: M.Buf)
      requires i < bufs.Length
      modifies bufs
      ensures Abs() == M.SetBuf(old(Abs()), i, b)
    {
      bufs[i] := b;
      assert bufs[..] == old(bufs[..])[i := b];
    }

    method FindBuffer(k: M.Key) returns (r: Option<nat>)
      requires |refs| == bufs.Length
      modifies this`refs, bufs
      ensures var i := M.Find(old(Abs()).bufs, k, 0);
        if i < bufs.Length then r == Some(i) && Abs() == M.Hold(old(Abs()), i) else r == None && Abs() == old(Abs())
    {
      var i := 0;
      while i < bufs.Length
        invariant i <= bufs.Length && Abs() == old(Abs()) && M.Find(bufs[..], k, 0) == M.Find(bufs[..], k, i)
      {
        if bufs[i].key == Some(k) {
          refs := refs[i := refs[i] + 1];
          SetBuf(i, bufs[i].(count := (bufs[i].count + 1) % M.COUNT_LIMIT));
          return Some(i);
        }
        i := i + 1;
      }
      return None;
    }

    // rw_blk(WRITE) on a changed buffer, up to the end of the request.
    method WriteBack(i: nat)
      requires i < bufs.Length && bufs[i].dirty && bufs[i].key.Some?
      modifies this`device, bufs
      ensures Abs() == M.WriteBack(old(Abs()), i)
    {
      device := device[bufs[i].key.value := bufs[i].data];
      SetBuf(i, bufs[i].(dirty := false));
    }

    method FindIdle() returns (i: nat)
      ensures i == M.FirstIdle(bufs[..], 0)
    {
      i := 0;
      while i < bufs.Length && bufs[i].count != 0
        invariant i <= bufs.Length && M.FirstIdle(bufs[..], 0) == M.FirstIdle(bufs[..], i)
      {
        i := i + 1;
      }
    }

    // The changed buffer is written until it is clean.
    method Clean(i: nat)
      requires Valid() && i < bufs.Length
      modifies this`device, bufs
      ensures Valid() && Abs() == M.WriteBack(old(Abs()), i)
    {
      hide P.Inv;
      P.WriteBackKeeps(Abs(), i);
      CleanIsClean(Abs(), i);
      while bufs[i].dirty
        invariant bufs[i].dirty ==> Abs() == old(Abs()) && bufs[i].key.Some?
        invariant !bufs[i].dirty ==> Abs() == M.WriteBack(old(Abs()), i)
        decreases bufs[i].dirty
      {
        WriteBack(i);
      }
    }

    method Rebind(i: nat, k: M.Key)
      requires M.Shaped(Abs()) && i < bufs.Length
      modifies this`refs, bufs
      ensures M.Shaped(old(Abs())) && Abs() == M.Rebind(old(Abs()), i, k)
    {
      refs := refs[i := refs[i] + 1];
      SetBuf(i, M.Buf(Some(k), 1, false, false, bufs[i].data));
    }

    // None where the caller would sleep.
    method GetBuffer(k: M.Key) returns (r: Option<nat>)
      requires Valid()
      modifies this, bufs
      ensures Valid() && M.Shaped(old(Abs())) && (Abs(), r) == M.GetBuffer(old(Abs()), k)
    {
      hide P.Inv, M.WriteBack, M.Rebind, M.Hold, M.Logical, P.HeldStay;
      P.InvShaped(Abs());
      P.GetBufferKeeps(Abs(), k, k);
      r := FindBuffer(k);
      if r.Some? {
        return;
      }
      var i := FindIdle();
      if i == bufs.Length {
        return None;
      }
      Clean(i);
      P.InvShaped(Abs());
      Rebind(i, k);
      return Some(i);
    }

    // False where the kernel halts.
    method Brelease(i: nat) returns (ok: bool)
      requires Valid() && i < bufs.Length
      modifies this`refs, bufs
      ensures Valid() && M.Shaped(old(Abs())) && ok == M.Brelease(old(Abs()), i).Some?
      ensures Abs() == if ok then M.Brelease(old(Abs()), i).value else old(Abs())
    {
      P.BreleaseKeeps(Abs(), i, M.Key(0, 0));
      if bufs[i].count == 0 {
        return false;
      }
      refs := refs[i := refs[i] - 1];
      SetBuf(i, bufs[i].(count := bufs[i].count - 1));
      return true;
    }

    // `ok`: the device answers a read, if one is needed.
    method Bread(k: M.Key, ok: bool) returns (g: M.Got)
      requires Valid()
      modifies this, bufs
      ensures Valid() && M.Shaped(old(Abs())) && (Abs(), g) == M.Bread(old(Abs()), k, ok)
    {
      hide M.GetBuffer, P.Inv, M.Logical, P.HeldStay;
      P.InvShaped(Abs());
      P.BreadKeeps(Abs(), k, ok, k);
      var r := GetBuffer(k);
      P.InvShaped(Abs());
      if r.None? {
        return M.Sleeps;
      }
      var i := r.value;
      if bufs[i].uptodate {
        return M.Buffer(i);
      }
      if ok {
        SetBuf(i, bufs[i].(data := if k in device then device[k] else ZeroBlock(), uptodate := true));
        return M.Buffer(i);
      }
      var released := Brelease(i);
      return if released then M.Failed else M.Halted;
    }

    method SyncDev(dev: nat)
      requires Valid()
      modifies this`device, bufs
      ensures Valid() && Abs() == M.SyncDev(old(Abs()), dev, bufs.Length)
    {
      hide M.WriteBack;
      for i := 0 to bufs.Length
        invariant Valid() && Abs() == M.SyncDev(old(Abs()), dev, i)
      {
        P.WriteBackKeeps(Abs(), i);
        CleanIsClean(Abs(), i);
        if bufs[i].key.Some? && bufs[i].key.value.dev == dev {
          if bufs[i].dirty {
            WriteBack(i);
          }
        }
      }
    }

    method InvalidDevBuffers(dev: nat)
      requires Valid()
      modifies bufs
      ensures Valid() && Abs() == M.InvalidDevBuffers(old(Abs()), dev)
    {
      P.InvalidKeeps(Abs(), dev, M.Key(0, 0));
      for i := 0 to bufs.Length
        invariant forall j :: 0 <= j < bufs.Length ==>
          bufs[j] == if j < i then M.InvalidDevBuffers(old(Abs()), dev).bufs[j] else old(bufs[..])[j]
      {
        if bufs[i].key.Some? && bufs[i].key.value.dev == dev {
          bufs[i] := M.Invalid(bufs[i]);
        }
      }
      assert bufs[..] == M.InvalidDevBuffers(old(Abs()), dev).bufs;
    }

    // The first half of free_block, with the header given back rather than its data.
    method FreeBuffer(k: M.Key) returns (freed: bool)
      requires Valid()
      modifies this`refs, bufs
      ensures Valid() && M.Shaped(old(Abs())) && (Abs(), freed) == M.FreeBuffer(old(Abs()), k)
    {
      hide P.Inv, M.Logical, P.HeldStay;
      P.InvShaped(Abs());
      P.FreeBufferKeeps(Abs(), k, k);
      var r := FindBuffer(k);
      if r.None? {
        return true;
      }
      var i := r.value;
      if bufs[i].count != 1 {
        return false;
      }
      P.HoldKeeps(old(Abs()), i, k);
      P.InvalidBuffer(Abs(), i, k, k);
      SetBuf(i, M.Invalid(bufs[i]));
      var ok := Brelease(i);
      return true;
    }

    // ---- block_dev.c -----------------------------------------------------------------------

    // Copies buffer[from..from + n] into buffer i,
    method CopyBytes(i: nat, at: nat, buffer: array<byte>, from: nat, n: nat)
      requires i < bufs.Length && at + n <= BLOCK_SIZE && from + n <= buffer.Length && buffer as object != bufs
      modifies bufs
      ensures bufs[i] == old(bufs[i]).(data := PutBytes(old(bufs[i]).data, at, buffer[from..from + n]))
      ensures forall j :: 0 <= j < bufs.Length && j != i ==> bufs[j] == old(bufs[j])
    {
      ghost var b := bufs[i];
      var k := 0;
      while k < n
        invariant k <= n && bufs[i] == b.(data := PutBytes(b.data, at, buffer[from..from + k]))
        invariant forall j :: 0 <= j < bufs.Length && j != i ==> bufs[j] == old(bufs[j])
      {
        PutOne(b.data, at, buffer[from..from + k], buffer[from + k]);
        assert buffer[from..from + k + 1] == buffer[from..from + k] + [buffer[from + k]];
        bufs[i] := bufs[i].(data := bufs[i].data[at + k := buffer[from + k]]);
        k := k + 1;
      }
    }

    // and marks it.
    method CopyIn(i: nat, at: nat, buffer: array<byte>, from: nat, n: nat)
      requires Valid() && i < bufs.Length && bufs[i].key.Some? && bufs[i].uptodate && at + n <= BLOCK_SIZE
      requires from + n <= buffer.Length
      requires buffer as object != bufs
      modifies bufs
      ensures Valid() && Abs() == M.Store(old(Abs()), i, PutBytes(old(bufs[i]).data, at, buffer[from..from + n]))
    {
      hide P.Inv, PutBytes, M.Logical;
      P.StoreKeeps(Abs(), i, PutBytes(bufs[i].data, at, buffer[from..from + n]), M.Key(0, 0));
      CopyBytes(i, at, buffer, from, n);
      bufs[i] := bufs[i].(dirty := true);
      assert bufs[..] == old(bufs[..])[i := bufs[i]];
    }

    // One turn of block_write, for the `left` bytes of the buffer that start at `from`.
    method WriteTurn(dev: nat, block: nat, offset: nat, buffer: array<byte>, from: nat, left: nat, ok: bool)
      returns (n: nat, o: D.Outcome)
      requires Valid() && offset < BLOCK_SIZE && from + left <= buffer.Length && left > 0 && buffer as object != bufs
      modifies this, bufs
      ensures Valid() && M.Shaped(old(Abs())) && M.Shaped(Abs())
      ensures (Abs(), n, o) == D.WriteStep(old(Abs()), dev, block * BLOCK_SIZE + offset, buffer[from..from + left], ok)
    {
      hide P.Inv, M.Bread, M.Brelease, M.Store, M.Logical, PutBytes, M.Find, M.FirstIdle, P.HeldStay;
      ghost var d := buffer[from..from + left];
      P.BreadKeeps(Abs(), M.Key(dev, block), ok, M.Key(dev, block));
      var g := Bread(M.Key(dev, block), ok);
      P.InvShaped(Abs());
      if !g.Buffer? {
        return 0, D.Ending(g);
      }
      n := BLOCK_SIZE - offset;
      if n > left { n := left; }
      assert d[..n] == buffer[from..from + n];
      CopyIn(g.i, offset, buffer, from, n);
      P.InvShaped(Abs());
      var released := Brelease(g.i);
      P.InvShaped(Abs());
      o := if released then D.Done else D.Stopped;
    }

    // Returns the new position as well.
    method BlockWrite(dev: nat, pos: nat, buffer: array<byte>, count: nat, ok: nat -> bool)
      returns (end: nat, written: nat, o: D.Outcome)
      requires Valid() && count <= buffer.Length && buffer as object != bufs
      modifies this, bufs
      ensures Valid() && M.Shaped(old(Abs())) && end == pos + written
      ensures (Abs(), written, o) == D.WriteLoop(old(Abs()), dev, pos, buffer[..count], ok, 0)
    {
      hide P.Inv, D.WriteStep, D.WriteLoop, WriteAt;
      ghost var c, d := Abs(), buffer[..count];
      P.InvShaped(c);
      var block: nat, offset: nat := pos / BLOCK_SIZE, pos % BLOCK_SIZE;
      var left, k := count, 0;
      end, written, o := pos, 0, D.Done;
      WriteBegins(c, dev, pos, d, ok);
      while left > 0
        invariant Valid() && M.Shaped(Abs()) && written + left == count && end == pos + written && o == D.Done
        invariant left > 0 ==> offset < BLOCK_SIZE && block * BLOCK_SIZE + offset == end
        invariant WriteAt(c, Abs(), dev, pos, d, written, ok, k)
      {
        ghost var e := Abs();
        assert buffer[written..written + left] == d[written..];
        var n;
        n, o := WriteTurn(dev, block, offset, buffer, written, left, ok(k));
        StepAmount(e, dev, end, d[written..], ok(k));
        WriteNext(c, e, dev, pos, d, written, ok, k);
        block, offset := block + 1, 0;
        end, written, left, k := end + n, written + n, left - n, k + 1;
        if o != D.Done {
          return;
        }
      }
      WriteEnds(c, Abs(), dev, pos, d, ok, k);
    }

    method CopyOut(i: nat, at: nat, buffer: array<byte>, from: nat, n: nat)
      requires i < bufs.Length && at + n <= BLOCK_SIZE && from + n <= buffer.Length && buffer as object != bufs
      modifies buffer
      ensures buffer[..] == old(buffer[..from]) + bufs[i].data[at..at + n] + old(buffer[from + n..])
    {
      var k := 0;
      while k < n
        invariant k <= n
        invariant forall j :: 0 <= j < buffer.Length ==>
          buffer[j] == if from <= j < from + k then bufs[i].data[at + j - from] else old(buffer[..])[j]
      {
        buffer[from + k] := bufs[i].data[at + k];
        k := k + 1;
      }
      assert buffer[..] == old(buffer[..from]) + bufs[i].data[at..at + n] + old(buffer[from + n..]);
    }

    method ReadTurn(dev: nat, block: nat, offset: nat, buffer: array<byte>, from: nat, left: nat, ok: bool)
      returns (n: nat, o: D.Outcome)
      requires Valid() && offset < BLOCK_SIZE && from + left <= buffer.Length && left > 0 && buffer as object != bufs
      modifies this, bufs, buffer
      ensures Valid() && M.Shaped(old(Abs())) && M.Shaped(Abs())
      ensures var (f, a, q) := D.ReadStep(old(Abs()), dev, block * BLOCK_SIZE + offset, left, ok);
        Abs() == f && o == q && n == |a| && buffer[..] == old(buffer[..from]) + a + old(buffer[from + n..])
    {
      hide P.Inv, M.Bread, M.Brelease, M.Logical, M.Find, M.FirstIdle, P.HeldStay;
      P.BreadKeeps(Abs(), M.Key(dev, block), ok, M.Key(dev, block));
      var g := Bread(M.Key(dev, block), ok);
      P.InvShaped(Abs());
      if !g.Buffer? {
        assert buffer[..] == buffer[..from] + [] + buffer[from..];
        return 0, D.Ending(g);
      }
      n := BLOCK_SIZE - offset;
      if n > left { n := left; }
      CopyOut(g.i, offset, buffer, from, n);
      var released := Brelease(g.i);
      P.InvShaped(Abs());
      o := if released then D.Done else D.Stopped;
    }

    method BlockRead(dev: nat, pos: nat, buffer: array<byte>, count: nat, ok: nat -> bool)
      returns (end: nat, read: nat, o: D.Outcome)
      requires Valid() && count <= buffer.Length && buffer as object != bufs
      modifies this, bufs, buffer
      ensures Valid() && M.Shaped(old(Abs())) && end == pos + read && read <= count
      ensures (Abs(), buffer[..read], o) == D.ReadLoop(old(Abs()), dev, pos, count, ok, 0)
      ensures buffer[read..] == old(buffer[read..])
    {
      hide P.Inv, D.ReadStep, D.ReadLoop, ReadAt;
      ghost var c, was := Abs(), buffer[..];
      P.InvShaped(c);
      var block: nat, offset: nat := pos / BLOCK_SIZE, pos % BLOCK_SIZE;
      var k := 0;
      end, read, o := pos, 0, D.Done;
      ReadBegins(c, dev, pos, count, ok);
      assert buffer[..0] == [];
      while read < count
        invariant Valid() && M.Shaped(Abs()) && read <= count && end == pos + read && buffer[read..] == was[read..]
        invariant read < count ==> offset < BLOCK_SIZE && block * BLOCK_SIZE + offset == end
        invariant o == D.Done && ReadAt(c, Abs(), dev, pos, buffer[..read], count, ok, k)
        decreases count - read
      {
        ghost var e, now := Abs(), buffer[..];
        var n;
        n, o := ReadTurn(dev, block, offset, buffer, read, count - read, ok(k));
        ghost var a := D.ReadStep(e, dev, end, count - read, ok(k)).1;
        StepLength(e, dev, end, count - read, ok(k));
        ReadNext(c, e, dev, pos, now[..read], count, ok, k);
        assert buffer[..read + n] == now[..read] + a;
        assert buffer[read + n..] == was[read + n..];
        block, offset := block + 1, 0;
        end, read, k := end + n, read + n, k + 1;
        if o != D.Done {
          return;
        }
      }
      ReadEnds(c, Abs(), dev, pos, buffer[..read], count, ok, k);
    }
  }

  lemma PutOne(b: Block, at: nat, d: seq<byte>, v: byte)
    requires at + |d| < BLOCK_SIZE
    ensures PutBytes(b, at, d)[at + |d| := v] == PutBytes(b, at, d + [v])
  {
  }

  // The loop of block_write after k turns, in state e, with `written` bytes written.
  ghost predicate WriteAt(c: M.Cache, e: M.Cache, dev: nat, pos: nat, d: seq<byte>, written: nat, ok: nat -> bool,
      k: nat)
    requires M.Shaped(c) && M.Shaped(e) && written <= |d|
  {
    var (f, m, o) := D.WriteLoop(e, dev, pos + written, d[written..], ok, k);
    D.WriteLoop(c, dev, pos, d, ok, 0) == (f, written + m, o)
  }

  lemma WriteBegins(c: M.Cache, dev: nat, pos: nat, d: seq<byte>, ok: nat -> bool)
    requires M.Shaped(c)
    ensures WriteAt(c, c, dev, pos, d, 0, ok, 0)
  {
    hide D.WriteLoop;
    assert d[0..] == d;
  }

  lemma WriteNext(c: M.Cache, e: M.Cache, dev: nat, pos: nat, d: seq<byte>, written: nat, ok: nat -> bool, k: nat)
    requires M.Shaped(c) && M.Shaped(e) && written < |d| && WriteAt(c, e, dev, pos, d, written, ok, k)
    ensures var (f, n, o) := D.WriteStep(e, dev, pos + written, d[written..], ok(k));
      && (o != D.Done ==> D.WriteLoop(c, dev, pos, d, ok, 0) == (f, written + n, o))
      && (o == D.Done ==> WriteAt(c, f, dev, pos, d, written + n, ok, k + 1))
  {
    hide D.WriteLoop, D.WriteStep, M.Shaped;
    D.WriteUnfolds(e, dev, pos + written, d[written..], ok, k);
    var n := D.WriteStep(e, dev, pos + written, d[written..], ok(k)).1;
    assert d[written..][n..] == d[written + n..];
  }

  lemma WriteEnds(c: M.Cache, e: M.Cache, dev: nat, pos: nat, d: seq<byte>, ok: nat -> bool, k: nat)
    requires M.Shaped(c) && M.Shaped(e) && WriteAt(c, e, dev, pos, d, |d|, ok, k)
    ensures D.WriteLoop(c, dev, pos, d, ok, 0) == (e, |d|, D.Done)
  {
    hide D.WriteStep, M.Shaped;
  }

  // The loop of block_read after k turns, in state e, with `got` read.
  ghost predicate ReadAt(c: M.Cache, e: M.Cache, dev: nat, pos: nat, got: seq<byte>, count: nat, ok: nat -> bool,
      k: nat)
    requires M.Shaped(c) && M.Shaped(e) && |got| <= count
  {
    var (f, b, o) := D.ReadLoop(e, dev, pos + |got|, count - |got|, ok, k);
    D.ReadLoop(c, dev, pos, count, ok, 0) == (f, got + b, o)
  }

  lemma ReadBegins(c: M.Cache, dev: nat, pos: nat, count: nat, ok: nat -> bool)
    requires M.Shaped(c)
    ensures ReadAt(c, c, dev, pos, [], count, ok, 0)
  {
    hide D.ReadLoop;
    var b := D.ReadLoop(c, dev, pos, count, ok, 0).1;
    assert [] + b == b;
  }

  lemma ReadNext(c: M.Cache, e: M.Cache, dev: nat, pos: nat, got: seq<byte>, count: nat, ok: nat -> bool, k: nat)
    requires M.Shaped(c) && M.Shaped(e) && |got| < count && ReadAt(c, e, dev, pos, got, count, ok, k)
    ensures var (f, a, o) := D.ReadStep(e, dev, pos + |got|, count - |got|, ok(k));
      && (o != D.Done ==> D.ReadLoop(c, dev, pos, count, ok, 0) == (f, got + a, o))
      && (o == D.Done ==> ReadAt(c, f, dev, pos, got + a, count, ok, k + 1))
  {
    hide D.ReadLoop, D.ReadStep, M.Shaped;
    D.ReadUnfolds(e, dev, pos + |got|, count - |got|, ok, k);
    var (f, a, o) := D.ReadStep(e, dev, pos + |got|, count - |got|, ok(k));
    if o == D.Done {
      var b := D.ReadLoop(f, dev, pos + |got| + |a|, count - |got| - |a|, ok, k + 1).1;
      assert got + (a + b) == (got + a) + b;
    }
  }

  lemma ReadEnds(c: M.Cache, e: M.Cache, dev: nat, pos: nat, got: seq<byte>, count: nat, ok: nat -> bool, k: nat)
    requires M.Shaped(c) && M.Shaped(e) && |got| == count && ReadAt(c, e, dev, pos, got, count, ok, k)
    ensures D.ReadLoop(c, dev, pos, count, ok, 0) == (e, got, D.Done)
  {
    hide D.ReadStep, M.Shaped;
    assert got + [] == got;
  }

  // A turn that does not finish the job ends at a block boundary.
  lemma StepAmount(c: M.Cache, dev: nat, pos: nat, d: seq<byte>, ok: bool)
    requires M.Shaped(c)
    ensures var (_, n, o) := D.WriteStep(c, dev, pos, d, ok);
      o.Done? && n < |d| ==> n > 0 && pos % BLOCK_SIZE + n == BLOCK_SIZE
  {
  }

  lemma StepLength(c: M.Cache, dev: nat, pos: nat, count: nat, ok: bool)
    requires M.Shaped(c)
    ensures var (_, a, o) := D.ReadStep(c, dev, pos, count, ok);
      o.Done? && |a| < count ==> a != [] && pos % BLOCK_SIZE + |a| == BLOCK_SIZE
  {
  }

  lemma CleanIsClean(c: M.Cache, i: nat)
    requires P.Inv(c) && i < |c.bufs|
    ensures c.bufs[i].dirty ==> c.bufs[i].key.Some?
    ensures !c.bufs[i].dirty ==> M.WriteBack(c, i) == c
  {
    assert P.BufOk(c, c.bufs[i]);
  }
}
