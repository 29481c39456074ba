// The file layer in place: the data map, the blocks in the buffer cache and the inodes in memory.
module Files {
  import opened Base
  import M = FilesModel
  import I = FilesInvariant
  import P = FilesMap
  import T = FilesTruncate
  import D = FilesData
  import R = FilesRuns

  const MAP_BITS: nat := 8192

  class FileSystem {
    const first: nat
    const maps: nat                // data map blocks in memory
    const bits: array<bool>
    const blocks: array<Block>
    const inodes: array<M.Inode>

    ghost predicate Valid()
      reads this, bits, blocks, inodes
    {
      && bits as object != blocks && bits as object != inodes && blocks as object != inodes
      && bits.Length == maps * MAP_BITS && M.Shaped(Abs())
    }

    ghost function Abs(): M.FS
      reads this, bits, blocks, inodes
    {
      M.FS(first, blocks.Length, bits[..], blocks[..], inodes[..])
    }

    // A disk with no files' blocks; the bits past the zone are set, as mkfs leaves them.
    constructor (first: nat, nblocks: nat, maps: nat, files: nat)
      requires 1 <= first <= nblocks < M.MAX_BLOCKS && nblocks - first < maps * MAP_BITS
      ensures Valid() && R.Empty(Abs()) && fresh(bits) && fresh(blocks) && fresh(inodes)
      ensures this.first == first && blocks.Length == nblocks && inodes.Length == files
    {
      this.first, this.maps := first, maps;
      bits := new bool[maps * MAP_BITS](i => i == 0 || i + first - 1 >= nblocks);
      blocks := new Block[nblocks](i => ZeroBlock());
      inodes := new M.Inode[files](i => M.Inode([0, 0, 0, 0, 0, 0, 0, 0, 0], 0));
      new;
      assert forall i :: 0 <= i < |bits[..]| ==> bits[..][i] == (i == 0 || i + first - 1 >= nblocks);
      assert forall f :: 0 <= f < files ==> inodes[..][f] == M.Inode([0, 0, 0, 0, 0, 0, 0, 0, 0], 0);
    }

    // ---- bitmap.c --------------------------------------------------------------------------

    method NewBlock() returns (b: nat)
      requires Valid()
      modifies bits, blocks
      ensures Valid() && (Abs(), b) == M.NewBlock(old(Abs()))
    {
      var i, j := 0, 0;
      while i < maps
        invariant i <= maps && j < MAP_BITS && (i == maps ==> j == 0)
        invariant M.FirstClear(bits[..], 0) == M.FirstClear(bits[..], i * MAP_BITS + j)
      {
        j := 0;
        while j < MAP_BITS && bits[i * MAP_BITS + j]
          invariant j <= MAP_BITS
          invariant M.FirstClear(bits[..], 0) == M.FirstClear(bits[..], i * MAP_BITS + j)
        {
          j := j + 1;
        }
        if j < MAP_BITS { break; }
        i, j := i + 1, 0;
      }
      if i >= maps {
        return 0;
      }
      bits[i * MAP_BITS + j] := true;
      assert bits[..] == old(bits[..])[i * MAP_BITS + j := true];
      b := i * MAP_BITS + j + first - 1;
      if b >= blocks.Length {
        return 0;
      }
      blocks[b] := ZeroBlock();
      assert blocks[..] == old(blocks[..])[b := ZeroBlock()];
    }

    // `ok` is false where the kernel halts.
    method FreeBlock(b: nat) returns (ok: bool)
      requires Valid()
      modifies bits
      ensures Valid() && ok == M.FreeBlock(old(Abs()), b).Some?
      ensures Abs() == if ok then M.FreeBlock(old(Abs()), b).value else old(Abs())
    {
      if b < first || b >= blocks.Length {
        return false;
      }
      var index := b - first + 1;
      ok := bits[index];
      bits[index] := false;
      assert bits[..] == old(bits[..])[index := false];
    }

    // ---- inode.c ---------------------------------------------------------------------------

    // A block number in the inode; with `create`, a new block if there is none.
    method PointerSlot(f: nat, i: nat, create: bool) returns (b: nat)
      requires Valid() && I.Safe(Abs()) && f < inodes.Length && i < 9
      modifies bits, blocks, inodes
      ensures Valid() && I.Safe(Abs()) && (Abs(), b) == P.TakeIf(old(Abs()), P.InInode(f, i), create)
      ensures create ==> P.Took(old(Abs()), Abs(), P.InInode(f, i), b)
    {
      hide I.Safe, I.Sound, M.NewBlock, P.Took;
      ghost var s := Abs();
      P.TakeKeeps(s, P.InInode(f, i));
      b := inodes[f].data[i];
      if create && b == 0 {
        b := NewBlock();
        I.NewBlockExact(s);
        inodes[f] := inodes[f].(data := inodes[f].data[i := b]);
        assert inodes[..] == s.inodes[f := s.inodes[f].(data := s.inodes[f].data[i := b])];
        if b == 0 {
          assert s.inodes[f].data[i := 0] == s.inodes[f].data;
          assert inodes[..] == s.inodes;
        }
      }
    }

    method PutWord(c: nat, i: nat, v: nat)
      requires Valid() && 0 < c < blocks.Length && i < M.WORDS && v < M.MAX_BLOCKS
      modifies blocks
      ensures Valid() && Abs() == M.SetWord(old(Abs()), c, i, v)
    {
      blocks[c] := M.PutU16(blocks[c], i, v);
      assert blocks[..] == old(blocks[..])[c := M.PutU16(old(blocks[..])[c], i, v)];
    }

    // A block number in index block c, which belongs to the slot above x.
    method WordSlot(c: nat, i: nat, create: bool, ghost x: M.Slot) returns (b: nat)
      requires Valid() && I.Safe(Abs()) && M.Placed(Abs(), x)
      requires (x.SingleEntry? || x.DoubleIndex? || x.DoubleEntry?) && c == M.Val(Abs(), I.Holder(x)) && i == I.Index(x)
      modifies bits, blocks
      ensures Valid() && I.Safe(Abs()) && (Abs(), b) == P.TakeIf(old(Abs()), x, create)
      ensures create ==> P.Took(old(Abs()), Abs(), x, b)
    {
      hide I.Safe, I.Sound, M.NewBlock, P.Took, M.PutU16;
      ghost var s := Abs();
      P.TakeKeeps(s, x);
      b := M.U16At(blocks[c], i);
      if create && b == 0 {
        b := NewBlock();
        I.NewBlockExact(s);
        if b != 0 {
          P.HolderStays(s, x);
          PutWord(c, i, b);
        }
      }
    }

    // ib_map_helper: ib_map without `create`, ib_map_new with it.
    method IbMapHelper(f: nat, n: int, create: bool, bad: set<nat>) returns (b: nat)
      requires Valid() && I.Safe(Abs()) && f < inodes.Length
      modifies bits, blocks, inodes
      ensures Valid() && I.Safe(Abs())
      ensures create ==> (Abs(), b) == M.IbMapNew(old(Abs()), f, n, bad)
      ensures !create ==> Abs() == old(Abs()) && b == M.IbMap(Abs(), f, n, bad)
    {
      hide I.Safe, I.Sound, M.Take, P.Took, M.Val, M.Shaped, M.Word;
      if n < 0 || n >= M.LIMIT {
        return 0;
      }
      if n < M.DIRECT {
        b := PointerSlot(f, n, create);
      } else if n < M.DIRECT + M.WORDS {
        b := InSingle(f, n - M.DIRECT, create, bad);
      } else {
        var m := n - (M.DIRECT + M.WORDS);
        b := InDouble(f, m / M.WORDS, m % M.WORDS, create, bad);
      }
    }

    method InSingle(f: nat, i: nat, create: bool, bad: set<nat>) returns (b: nat)
      requires Valid() && I.Safe(Abs()) && f < inodes.Length && i < M.WORDS
      modifies bits, blocks, inodes
      ensures Valid() && I.Safe(Abs())
      ensures create ==> (Abs(), b) == M.NewInSingle(old(Abs()), f, i, bad)
      ensures !create ==> Abs() == old(Abs())
      ensures !create ==>
        b == if M.Readable(Abs(), M.SingleEntry(f, i), bad) then M.Val(Abs(), M.SingleEntry(f, i)) else 0
    {
      hide I.Safe, I.Sound, M.Take, P.Took, M.Shaped;
      ghost var s := Abs();
      var c := PointerSlot(f, M.INDEX_LEVEL1, create);
      if c == 0 || c in bad {
        return 0;
      }
      P.PlacedBelow(s, Abs(), M.Single(f), c, create, M.SingleEntry(f, i));
      b := WordSlot(c, i, create, M.SingleEntry(f, i));
    }

    method InDouble(f: nat, i: nat, j: nat, create: bool, bad: set<nat>) returns (b: nat)
      requires Valid() && I.Safe(Abs()) && f < inodes.Length && i < M.WORDS && j < M.WORDS
      modifies bits, blocks, inodes
      ensures Valid() && I.Safe(Abs())
      ensures create ==> (Abs(), b) == M.NewInDouble(old(Abs()), f, i, j, bad)
      ensures !create ==> Abs() == old(Abs())
      ensures !create ==>
        b == if M.Readable(Abs(), M.DoubleEntry(f, i, j), bad) then M.Val(Abs(), M.DoubleEntry(f, i, j)) else 0
    {
      hide I.Safe, I.Sound, M.Take, P.Took, M.Shaped;
      ghost var s := Abs();
      var c := PointerSlot(f, M.INDEX_LEVEL2, create);
      if c == 0 || c in bad {
        return 0;
      }
      P.PlacedBelow(s, Abs(), M.Double(f), c, create, M.DoubleIndex(f, i));
      ghost var t := Abs();
      var e := WordSlot(c, i, create, M.DoubleIndex(f, i));
      if e == 0 || e in bad {
        return 0;
      }
      P.PlacedBelow(t, Abs(), M.DoubleIndex(f, i), e, create, M.DoubleEntry(f, i, j));
      b := WordSlot(e, j, create, M.DoubleEntry(f, i, j));
    }

    // ---- truncate.c ------------------------------------------------------------------------

    method FreeLevel1(b: nat, bad: set<nat>) returns (ok: bool)
      requires Valid()
      modifies bits
      ensures Valid() && ok == M.FreeLevel1(old(Abs()), b, bad).Some?
      ensures ok ==> Abs() == M.FreeLevel1(old(Abs()), b, bad).value
    {
      hide M.FreeBlock;
      if b == 0 {
        return true;
      }
      if b !in bad {
        for i := 0 to M.WORDS
          invariant Valid() && Some(Abs()) == M.FreeEntries(old(Abs()), b, i)
        {
          var p := if b < blocks.Length then M.U16At(blocks[b], i) else 0;
          if p != 0 {
            ok := FreeBlock(p);
            if !ok {
              FreeEntriesHalts(old(Abs()), b, i + 1, M.WORDS);
              return false;
            }
          }
        }
      }
      ok := FreeBlock(b);
    }

    method FreeLevel2(b: nat, bad: set<nat>) returns (ok: bool)
      requires Valid()
      modifies bits
      ensures Valid() && ok == M.FreeLevel2(old(Abs()), b, bad).Some?
      ensures ok ==> Abs() == M.FreeLevel2(old(Abs()), b, bad).value
    {
      hide M.FreeBlock, M.FreeLevel1;
      if b == 0 {
        return true;
      }
      if b !in bad {
        for i := 0 to M.WORDS
          invariant Valid() && Some(Abs()) == M.FreeIndexes(old(Abs()), b, bad, i)
        {
          var p := if b < blocks.Length then M.U16At(blocks[b], i) else 0;
          ok := FreeLevel1(p, bad);
          if !ok {
            FreeIndexesHalts(old(Abs()), b, bad, i + 1, M.WORDS);
            return false;
          }
        }
      }
      ok := FreeBlock(b);
    }

    method ClearPointer(f: nat, i: nat)
      requires Valid() && f < inodes.Length && i < 9
      modifies inodes
      ensures Valid() && Abs() == M.SetPointer(old(Abs()), f, i, 0)
    {
      inodes[f] := inodes[f].(data := inodes[f].data[i := 0]);
      assert inodes[..] == old(inodes[..])[f := old(inodes[..])[f].(data := old(inodes[..])[f].data[i := 0])];
    }

    method FreeDirect(f: nat) returns (ok: bool)
      requires Valid() && f < inodes.Length
      modifies bits, inodes
      ensures Valid() && ok == M.FreeDirect(old(Abs()), f, M.DIRECT).Some?
      ensures ok ==> Abs() == M.FreeDirect(old(Abs()), f, M.DIRECT).value
    {
      hide M.FreeBlock;
      for i := 0 to M.DIRECT
        invariant Valid() && Some(Abs()) == M.FreeDirect(old(Abs()), f, i)
      {
        var p := inodes[f].data[i];
        if p != 0 {
          ok := FreeBlock(p);
          if !ok {
            FreeDirectHalts(old(Abs()), f, i + 1, M.DIRECT);
            return false;
          }
        }
        ClearPointer(f, i);
      }
      return true;
    }

    // It always ends: the kernel never halts here.
    method Truncate(f: nat, bad: set<nat>)
      requires Valid() && I.Safe(Abs()) && f < inodes.Length
      modifies bits, inodes
      ensures Valid() && Some(Abs()) == M.Truncate(old(Abs()), f, bad)
      ensures I.Safe(Abs())
    {
      hide I.Safe, I.Sound, M.FreeDirect, M.FreeLevel1, M.FreeLevel2, M.Val, M.Shaped;
      T.TruncateKeeps(Abs(), f, bad);
      var ok := FreeDirect(f);
      ok := FreeLevel1(inodes[f].data[M.INDEX_LEVEL1], bad);
      ok := FreeLevel2(inodes[f].data[M.INDEX_LEVEL2], bad);
      ClearPointer(f, M.INDEX_LEVEL1);
      ClearPointer(f, M.INDEX_LEVEL2);
      ghost var t := inodes[..];
      inodes[f] := inodes[f].(size := 0);
      assert inodes[..] == t[f := t[f].(size := 0)];
      I.SafeShaped(Abs());
    }

    // ---- file_dev.c ------------------------------------------------------------------------

    // Copies buffer[from..from + n] into block b.
    method CopyIn(b: nat, at: nat, buffer: array<byte>, from: nat, n: nat)
      requires Valid() && b < blocks.Length && at + n <= BLOCK_SIZE && from + n <= buffer.Length
      modifies blocks
      ensures Valid() && Abs() == D.Put(old(Abs()), b, at, buffer[from..from + n])
    {
      var block := blocks[b];
      var k := 0;
      while k < n
        invariant k <= n && block == PutBytes(old(blocks[..])[b], at, buffer[from..from + k])
      {
        block := block[at + k := buffer[from + k]];
        k := k + 1;
        assert block == PutBytes(old(blocks[..])[b], at, buffer[from..from + k]);
      }
      blocks[b] := block;
      assert blocks[..] == old(blocks[..])[b := block];
    }

    // One turn of file_write's loop, for the `left` bytes of the buffer that start at `from`.
    method WriteTurn(f: nat, pos: nat, buffer: array<byte>, from: nat, left: nat, bad: set<nat>) returns (n: nat)
      requires Valid() && I.Safe(Abs()) && f < inodes.Length && from + left <= buffer.Length && left > 0
      modifies bits, blocks, inodes
      ensures Valid() && I.Safe(Abs())
      ensures (Abs(), n) == M.WriteStep(old(Abs()), f, pos, buffer[from..from + left], bad)
    {
      hide I.Safe, I.Sound, M.IbMapNew, M.Shaped, M.Val, I.ZoneFull, D.SameSizes, PutBytes;
      ghost var d := buffer[from..from + left];
      D.StepKeeps(Abs(), f, pos, d, bad);
      D.MapForWrite(Abs(), f, pos, bad);
      var b := IbMapHelper(f, pos / BLOCK_SIZE, true, bad);
      if b == 0 || b in bad {
        return 0;
      }
      var offset := pos % BLOCK_SIZE;
      n := BLOCK_SIZE - offset;
      if n > left { n := left; }
      assert d[..n] == buffer[from..from + n];
      CopyIn(b, offset, buffer, from, n);
    }

    method WriteAll(f: nat, start: nat, buffer: array<byte>, count: nat, bad: nat -> set<nat>) returns (written: nat)
      requires Valid() && I.Safe(Abs()) && f < inodes.Length && count <= buffer.Length
      modifies bits, blocks, inodes
      ensures Valid() && I.Safe(Abs())
      ensures (Abs(), written) == M.WriteLoop(old(Abs()), f, start, buffer[..count], bad, 0)
    {
      hide *;
      ghost var s, d := Abs(), buffer[..count];
      var left, k := count, 0;
      written := 0;
      WriteBegins(s, f, start, d, bad);
      while left > 0
        invariant Valid() && I.Safe(Abs()) && M.Shaped(Abs()) && written + left == count
        invariant WriteAt(s, Abs(), f, start, d, bad, written, k)
      {
        ghost var t := Abs();
        assert buffer[written..written + left] == d[written..];
        var n := WriteTurn(f, start + written, buffer, written, left, bad(k));
        I.SafeShaped(Abs());
        WriteNext(s, t, f, start, d, bad, written, k);
        if n == 0 { return; }
        written, left, k := written + n, left - n, k + 1;
      }
      WriteEnds(s, Abs(), f, start, d, bad, k);
    }

    method FileWrite(f: nat, h: M.File, buffer: array<byte>, count: nat, bad: nat -> set<nat>)
      returns (h1: M.File, written: nat)
      requires Valid() && I.Safe(Abs()) && f < inodes.Length && count <= buffer.Length
      modifies bits, blocks, inodes
      ensures Valid() && I.Safe(Abs())
      ensures (Abs(), h1, written) == M.FileWrite(old(Abs()), f, h, buffer[..count], bad)
    {
      hide I.Safe, I.Sound, M.Shaped, M.WriteLoop, I.SameUse;
      var start := if h.append then inodes[f].size else h.offset;
      written := WriteAll(f, start, buffer, count, bad);
      ghost var t := Abs();
      if written > 0 && start + written > inodes[f].size {
        inodes[f] := inodes[f].(size := start + written);
        assert inodes[..] == t.inodes[f := t.inodes[f].(size := start + written)];
      }
      D.SameTreeUse(t, Abs());
      I.SameUseKeeps(t, Abs());
      I.SafeShaped(Abs());
      h1 := if h.append then h else h.(offset := start + written);
    }

    // Copies n bytes of block b into the buffer.
    method CopyOut(b: nat, at: nat, buffer: array<byte>, from: nat, n: nat)
      requires Valid() && b < blocks.Length && at + n <= BLOCK_SIZE && from + n <= buffer.Length
      requires buffer as object != bits
      requires buffer as object != blocks && buffer as object != inodes
      modifies buffer
      ensures Valid() && Abs() == old(Abs())
      ensures buffer[..] == old(buffer[..from]) + blocks[b][at..at + n] + old(buffer[from + n..])
    {
      var k := 0;
      while k < n
        invariant k <= n
        invariant forall j :: 0 <= j < buffer.Length ==>
          buffer[j] == if from <= j < from + k then blocks[b][at + j - from] else old(buffer[..])[j]
      {
        buffer[from + k] := blocks[b][at + k];
        k := k + 1;
      }
      assert buffer[..] == old(buffer[..from]) + blocks[b][at..at + n] + old(buffer[from + n..]);
    }

    // One turn of file_read's loop.
    method ReadTurn(f: nat, pos: nat, buffer: array<byte>, from: nat, left: nat, bad: set<nat>) returns (n: nat)
      requires Valid() && I.Safe(Abs()) && f < inodes.Length && from + left <= buffer.Length && left > 0
      requires buffer as object != bits && buffer as object != blocks && buffer as object != inodes
      modifies bits, blocks, inodes, buffer
      ensures Valid() && Abs() == old(Abs()) && n == |M.ReadStep(Abs(), f, pos, left, bad)|
      ensures buffer[..] == old(buffer[..from]) + M.ReadStep(Abs(), f, pos, left, bad) + old(buffer[from + n..])
    {
      hide I.Safe, M.IbMap, M.Shaped;
      var b := IbMapHelper(f, pos / BLOCK_SIZE, false, bad);
      if b == 0 || b in bad || b >= blocks.Length {
        assert buffer[..] == buffer[..from] + [] + buffer[from..];
        return 0;
      }
      n := BLOCK_SIZE - pos % BLOCK_SIZE;
      if n > left { n := left; }
      CopyOut(b, pos % BLOCK_SIZE, buffer, from, n);
    }

    method FileRead(f: nat, h: M.File, buffer: array<byte>, count: nat, bad: nat -> set<nat>)
      returns (h1: M.File, read: nat)
      requires Valid() && I.Safe(Abs()) && f < inodes.Length && count <= buffer.Length
      requires buffer as object != bits && buffer as object != blocks && buffer as object != inodes
      modifies bits, blocks, inodes, buffer
      ensures Valid() && Abs() == old(Abs()) && read <= count
      ensures (buffer[..read], h1) == M.FileRead(old(Abs()), f, h, count, bad)
      ensures buffer[read..] == old(buffer[read..])
    {
      hide I.Safe, M.Shaped, M.ReadLoop, M.ReadStep;
      ghost var s, was := Abs(), buffer[..];
      var k := 0;
      read := 0;
      while read < count
        invariant Valid() && Abs() == s && read <= count && buffer[read..] == was[read..]
        invariant buffer[..read] + M.ReadLoop(s, f, h.offset + read, count - read, bad, k)
                  == M.ReadLoop(s, f, h.offset, count, bad, 0)
        decreases count - read
      {
        ghost var now := buffer[..];
        ReadUnfolds(s, f, h.offset + read, count - read, bad, k);
        var n := ReadTurn(f, h.offset + read, buffer, read, count - read, bad(k));
        ghost var a := M.ReadStep(s, f, h.offset + read, count - read, bad(k));
        assert buffer[..read + n] == now[..read] + a;
        assert buffer[read + n..] == was[read + n..];
        if n == 0 { break; }
        read, k := read + n, k + 1;
      }
      ReadUnfolds(s, f, h.offset + read, count - read, bad, k);
      assert buffer[..read] == M.ReadLoop(s, f, h.offset, count, bad, 0);
      h1 := h.(offset := h.offset + read);
    }
  }

  // The loop of file_write after `written` bytes and k turns, in state t.
  ghost predicate WriteAt(s: M.FS, t: M.FS, f: nat, start: nat, d: seq<byte>, bad: nat -> set<nat>, written: nat,
      k: nat)
    requires M.Shaped(s) && M.Shaped(t) && written <= |d|
  {
    var (u, n) := M.WriteLoop(t, f, start + written, d[written..], bad, k);
    M.WriteLoop(s, f, start, d, bad, 0) == (u, written + n)
  }

  lemma WriteBegins(s: M.FS, f: nat, start: nat, d: seq<byte>, bad: nat -> set<nat>)
    requires I.Safe(s)
    ensures M.Shaped(s) && WriteAt(s, s, f, start, d, bad, 0, 0)
  {
    hide M.WriteLoop;
    assert d[0..] == d;
  }

  lemma WriteNext(s: M.FS, t: M.FS, f: nat, start: nat, d: seq<byte>, bad: nat -> set<nat>, written: nat, k: nat)
    requires M.Shaped(s) && M.Shaped(t) && written < |d| && WriteAt(s, t, f, start, d, bad, written, k)
    ensures var (u, n) := M.WriteStep(t, f, start + written, d[written..], bad(k));
      && (n == 0 ==> M.WriteLoop(s, f, start, d, bad, 0) == (u, written))
      && (n > 0 ==> WriteAt(s, u, f, start, d, bad, written + n, k + 1))
  {
    hide M.WriteLoop, M.WriteStep, M.Shaped;
    D.WriteUnfolds(t, f, start + written, d[written..], bad, k);
    var n := M.WriteStep(t, f, start + written, d[written..], bad(k)).1;
    assert d[written..][n..] == d[written + n..];
  }

  lemma WriteEnds(s: M.FS, t: M.FS, f: nat, start: nat, d: seq<byte>, bad: nat -> set<nat>, k: nat)
    requires M.Shaped(s) && M.Shaped(t) && WriteAt(s, t, f, start, d, bad, |d|, k)
    ensures M.WriteLoop(s, f, start, d, bad, 0) == (t, |d|)
  {
    hide M.WriteLoop, M.WriteStep, M.Shaped;
    D.WriteUnfolds(t, f, start + |d|, d[|d|..], bad, k);
  }

  lemma ReadUnfolds(s: M.FS, f: nat, pos: nat, count: nat, bad: nat -> set<nat>, k: nat)
    ensures var a := M.ReadStep(s, f, pos, count, bad(k));
      M.ReadLoop(s, f, pos, count, bad, k) ==
        if a == [] then [] else a + M.ReadLoop(s, f, pos + |a|, count - |a|, bad, k + 1)
  {
    hide M.ReadStep;
  }

  lemma {:induction false} FreeEntriesHalts(s: M.FS, b: nat, n: nat, m: nat)
    requires M.Shaped(s) && n <= m <= M.WORDS && M.FreeEntries(s, b, n).None?
    ensures M.FreeEntries(s, b, m).None?
  {
    if n < m { FreeEntriesHalts(s, b, n, m - 1); }
  }

  lemma {:induction false} FreeIndexesHalts(s: M.FS, b: nat, bad: set<nat>, n: nat, m: nat)
    requires M.Shaped(s) && n <= m <= M.WORDS && M.FreeIndexes(s, b, bad, n).None?
    ensures M.FreeIndexes(s, b, bad, m).None?
  {
    if n < m { FreeIndexesHalts(s, b, bad, n, m - 1); }
  }

  lemma {:induction false} FreeDirectHalts(s: M.FS, f: nat, n: nat, m: nat)
    requires M.Shaped(s) && f < |s.inodes| && n <= m <= M.DIRECT && M.FreeDirect(s, f, n).None?
    ensures M.FreeDirect(s, f, m).None?
  {
    if n < m { FreeDirectHalts(s, f, n, m - 1); }
  }
}
