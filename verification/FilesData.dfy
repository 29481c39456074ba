// file_write and file_read as operations on the bytes of a file.
module FilesData {
  import opened Base
  import opened FilesModel
  import opened FilesInvariant
  import opened FilesMap

  // Byte p of file f, None where the file has no block.
  function FileByte(s: FS, f: nat, p: nat): Option<byte> {
    var b := IbMap(s, f, p / BLOCK_SIZE, {});
    if b == 0 || b >= |s.disk| then None else Some(s.disk[b][p % BLOCK_SIZE])
  }

  lemma ByteOfLeaf(s: FS, f: nat, p: nat)
    requires Safe(s)
    ensures FileByte(s, f, p) ==
      if p / BLOCK_SIZE < LIMIT && 0 < Val(s, Leaf(f, p / BLOCK_SIZE)) < |s.disk|
      then Some(s.disk[Val(s, Leaf(f, p / BLOCK_SIZE))][p % BLOCK_SIZE]) else None
    ensures Shaped(s) && (p / BLOCK_SIZE < LIMIT ==> Val(s, Leaf(f, p / BLOCK_SIZE)) < |s.disk|)
  {
    SafeMeans(s);
    hide Val, Leaf;
    ReadableAlways(s, f, p / BLOCK_SIZE);
  }

  // ---- storing bytes in a data block ---------------------------------------------------------

  function Put(s: FS, b: nat, at: nat, d: seq<byte>): FS
    requires b < |s.disk| && at + |d| <= BLOCK_SIZE
  {
    s.(disk := s.disk[b := PutBytes(s.disk[b], at, d)])
  }

  lemma PutKeepsVal(s: FS, o: Owner, x: Slot, at: nat, d: seq<byte>, y: Slot)
    requires Owned(s, o) && IsLeaf(x) && 0 < Val(s, x) < |s.disk| && at + |d| <= BLOCK_SIZE
    ensures Val(Put(s, Val(s, x), at, d), y) == Val(s, y)
  {
    var b := Val(s, x);
    assert o[b] == x;
    forall c: nat, i: nat ensures c != b ==> Word(Put(s, b, at, d), c, i) == Word(s, c, i) {}
    assert Val(s, Single(y.f)) != b && Val(s, Double(y.f)) != b;
    if y.DoubleEntry? { assert Val(s, DoubleIndex(y.f, y.i)) != b; }
  }

  lemma PutUse(s: FS, x: Slot, at: nat, d: seq<byte>)
    requires Safe(s) && IsLeaf(x) && 0 < Val(s, x) < |s.disk| && at + |d| <= BLOCK_SIZE
    ensures SameUse(s, Put(s, Val(s, x), at, d))
  {
    hide Val, NoLeak;
    var o := AnOwner(s);
    forall y ensures Val(Put(s, Val(s, x), at, d), y) == Val(s, y) { PutKeepsVal(s, o, x, at, d, y); }
  }

  lemma PutKeeps(s: FS, x: Slot, at: nat, d: seq<byte>)
    requires Safe(s) && IsLeaf(x) && 0 < Val(s, x) < |s.disk| && at + |d| <= BLOCK_SIZE
    ensures var t := Put(s, Val(s, x), at, d);
      Safe(t) && (Sound(s) ==> Sound(t)) && (forall y :: Val(t, y) == Val(s, y))
  {
    hide Val, Safe, Sound, Put;
    PutUse(s, x, at, d);
    SameUseKeeps(s, Put(s, Val(s, x), at, d));
  }

  lemma LeafVals(s: FS, x: Slot, y: Slot)
    requires Safe(s) && Val(s, x) != 0
    ensures Val(s, x) == Val(s, y) <==> x == y
  {
    hide Val;
    SafeMeans(s);
  }

  lemma PutByte(s: FS, f: nat, n: nat, at: nat, d: seq<byte>, g: nat, p: nat)
    requires Safe(s) && n < LIMIT && 0 < Val(s, Leaf(f, n)) < |s.disk| && at + |d| <= BLOCK_SIZE
    ensures FileByte(Put(s, Val(s, Leaf(f, n)), at, d), g, p) ==
      if g == f && n * BLOCK_SIZE + at <= p < n * BLOCK_SIZE + at + |d| then Some(d[p - n * BLOCK_SIZE - at])
      else FileByte(s, g, p)
  {
    hide Val, Leaf, Safe, Sound, FileByte, Shaped;
    var x, q := Leaf(f, n), p / BLOCK_SIZE;
    var t := Put(s, Val(s, x), at, d);
    LeafInjective(f, n, f, n);
    PutKeeps(s, x, at, d);
    ByteOfLeaf(s, g, p);
    ByteOfLeaf(t, g, p);
    if q < LIMIT { LeafInjective(f, n, g, q); LeafVals(s, Leaf(f, n), Leaf(g, q)); }
  }

  // ---- one ib_map_new ------------------------------------------------------------------------

  // It turns the missing bytes of the one block into zeros, if it returns a block.
  lemma MapByte(s: FS, f: nat, n: int, bad: set<nat>, g: nat, p: nat)
    requires Safe(s) && f < |s.inodes|
    ensures Shaped(s)
    ensures var (t, b) := IbMapNew(s, f, n, bad);
      FileByte(t, g, p) ==
        if b != 0 && g == f && p / BLOCK_SIZE == n && FileByte(s, g, p) == None then Some(0) else FileByte(s, g, p)
  {
    hide IbMapNew, Safe, Sound, FileByte, Mapped, Val, Leaf;
    IbMapNewKeeps(s, f, n, bad);
    var (t, b) := IbMapNew(s, f, n, bad);
    var q := p / BLOCK_SIZE;
    ByteOfLeaf(s, g, p);
    ByteOfLeaf(t, g, p);
    if 0 <= n < LIMIT && q < LIMIT {
      MappedByte(s, t, f, n, b, bad, g, q);
    }
  }

  lemma MappedByte(s: FS, t: FS, f: nat, n: nat, b: nat, bad: set<nat>, g: nat, m: nat)
    requires n < LIMIT && m < LIMIT && Mapped(s, t, Leaf(f, n), b, bad)
    requires Val(s, Leaf(g, m)) < |s.disk| && Val(t, Leaf(g, m)) < |t.disk|
    ensures var v, w := Val(s, Leaf(g, m)), Val(t, Leaf(g, m));
      if b != 0 && g == f && m == n && v == 0 then w == b && t.disk[w] == ZeroBlock()
      else w == v && (v != 0 ==> t.disk[w] == s.disk[v])
  {
    LeafInjective(f, n, g, m);
    assert Val(s, Leaf(g, m)) != 0 ==> KeptAt(s, t, Leaf(g, m));
    hide Val, Leaf, Readable, ZoneFull, ZeroBlock;
  }

  // ---- file_write ----------------------------------------------------------------------------

  predicate SameSizes(s: FS, t: FS) {
    |t.inodes| == |s.inodes| && forall g :: 0 <= g < |s.inodes| ==> t.inodes[g].size == s.inodes[g].size
  }

  // What every operation on file data keeps.
  ghost predicate Follows(s: FS, t: FS) {
    Safe(s) && Safe(t) && (Sound(s) ==> Sound(t)) && SameSizes(s, t)
  }

  lemma FollowsThen(s: FS, t: FS, u: FS)
    requires Follows(s, t) && Follows(t, u)
    ensures Follows(s, u)
  {
    hide Safe, Sound;
  }

  lemma FollowsSafe(s: FS, t: FS)
    requires Follows(s, t)
    ensures Safe(s) && Safe(t) && |t.inodes| == |s.inodes|
  {
    hide Safe, Sound;
  }

  lemma FollowsSound(s: FS, t: FS)
    requires Follows(s, t) && Sound(s)
    ensures Sound(t)
  {
    hide Safe, Sound;
  }

  lemma FollowsSelf(s: FS)
    requires Safe(s)
    ensures Follows(s, s)
  {
    hide Safe, Sound;
  }

  lemma MapForWrite(s: FS, f: nat, pos: nat, bad: set<nat>)
    requires Safe(s) && f < |s.inodes|
    ensures Shaped(s)
    ensures var (t, b) := IbMapNew(s, f, pos / BLOCK_SIZE, bad);
      && Follows(s, t)
      && (b != 0 ==> pos / BLOCK_SIZE < LIMIT && 0 < b < |t.disk| && Val(t, Leaf(f, pos / BLOCK_SIZE)) == b)
      && (b == 0 && bad == {} ==> pos / BLOCK_SIZE >= LIMIT || ZoneFull(t))
  {
    IbMapNewKeeps(s, f, pos / BLOCK_SIZE, bad);
    hide Val, Leaf, IbMapNew, Safe, Sound, ZoneFull;
  }

  // One turn of the loop: a block is mapped, then n bytes are put into it.
  lemma StepKeeps(s: FS, f: nat, pos: nat, d: seq<byte>, bad: set<nat>)
    requires Safe(s) && f < |s.inodes|
    ensures Shaped(s)
    ensures var (t, n) := WriteStep(s, f, pos, d, bad);
      && Follows(s, t)
      && (n == 0 && d != [] && bad == {} ==> pos / BLOCK_SIZE >= LIMIT || ZoneFull(t))
  {
    hide Safe, Sound, Val, Leaf, IbMapNew, ZoneFull, Shaped;
    MapForWrite(s, f, pos, bad);
    var (t, b) := IbMapNew(s, f, pos / BLOCK_SIZE, bad);
    if b != 0 && b !in bad {
      LeafInjective(f, pos / BLOCK_SIZE, f, pos / BLOCK_SIZE);
      PutKeeps(t, Leaf(f, pos / BLOCK_SIZE), pos % BLOCK_SIZE, d[..Chars(pos, |d|)]);
    }
  }

  // The block that the turn maps, also if it then puts nothing in it.
  function StepMaps(s: FS, f: nat, pos: nat, bad: set<nat>): set<nat>
    requires Shaped(s)
  {
    if IbMapNew(s, f, pos / BLOCK_SIZE, bad).1 != 0 then {pos / BLOCK_SIZE} else {}
  }

  // What writing n bytes of d at pos in file f, with the blocks `mapped`, makes of one byte.
  function After(before: Option<byte>, f: nat, pos: nat, n: nat, d: seq<byte>, mapped: set<nat>, g: nat,
      p: nat): Option<byte>
    requires n <= |d|
  {
    if g == f && pos <= p < pos + n then Some(d[p - pos])
    else if g == f && before == None && p / BLOCK_SIZE in mapped then Some(0)
    else before
  }

  lemma StepByte(s: FS, f: nat, pos: nat, d: seq<byte>, bad: set<nat>, g: nat, p: nat)
    requires Safe(s) && f < |s.inodes|
    ensures Shaped(s)
    ensures var (t, n) := WriteStep(s, f, pos, d, bad);
      FileByte(t, g, p) == After(FileByte(s, g, p), f, pos, n, d, StepMaps(s, f, pos, bad), g, p)
  {
    hide Safe, Sound, Val, Leaf, IbMapNew, ZoneFull, FileByte, Shaped, SameSizes;
    MapForWrite(s, f, pos, bad);
    MapByte(s, f, pos / BLOCK_SIZE, bad, g, p);
    var (t, b) := IbMapNew(s, f, pos / BLOCK_SIZE, bad);
    if b != 0 && b !in bad {
      PutByte(t, f, pos / BLOCK_SIZE, pos % BLOCK_SIZE, d[..Chars(pos, |d|)], g, p);
    }
  }

  ghost predicate NoErrors(bad: nat -> set<nat>) { forall j :: bad(j) == {} }

  lemma WriteUnfolds(s: FS, f: nat, pos: nat, d: seq<byte>, bad: nat -> set<nat>, k: nat)
    requires Shaped(s)
    ensures d == [] ==> WriteLoop(s, f, pos, d, bad, k) == (s, 0)
    ensures var (t, n) := WriteStep(s, f, pos, d, bad(k));
      && (d != [] && n == 0 ==> WriteLoop(s, f, pos, d, bad, k) == (t, 0))
      && (n > 0 ==>
           var (u, m) := WriteLoop(t, f, pos + n, d[n..], bad, k + 1); WriteLoop(s, f, pos, d, bad, k) == (u, n + m))
  {
    hide WriteStep, Shaped;
  }

  lemma NoErrorsAt(bad: nat -> set<nat>, k: nat)
    ensures NoErrors(bad) ==> bad(k) == {}
  {
  }

  lemma {:induction false} WriteKeeps(s: FS, f: nat, pos: nat, d: seq<byte>, bad: nat -> set<nat>, k: nat)
    requires Safe(s) && f < |s.inodes|
    ensures Shaped(s)
    ensures var (t, n) := WriteLoop(s, f, pos, d, bad, k);
      && Follows(s, t)
      && (n < |d| && NoErrors(bad) ==> (pos + n) / BLOCK_SIZE >= LIMIT || ZoneFull(t))
    decreases |d|
  {
    hide *;
    SafeShaped(s);
    FollowsSelf(s);
    WriteUnfolds(s, f, pos, d, bad, k);
    if d != [] {
      NoErrorsAt(bad, k);
      StepKeeps(s, f, pos, d, bad(k));
      var (t, n) := WriteStep(s, f, pos, d, bad(k));
      FollowsSafe(s, t);
      if n > 0 {
        WriteKeeps(t, f, pos + n, d[n..], bad, k + 1);
        FollowsThen(s, t, WriteLoop(t, f, pos + n, d[n..], bad, k + 1).0);
      }
    }
  }

  // The blocks that the loop maps.
  function LoopMaps(s: FS, f: nat, pos: nat, d: seq<byte>, bad: nat -> set<nat>, k: nat): set<nat>
    requires Shaped(s)
    decreases |d|
  {
    if d == [] then {}
    else
      var (t, n) := WriteStep(s, f, pos, d, bad(k));
      StepMaps(s, f, pos, bad(k)) + if n == 0 then {} else LoopMaps(t, f, pos + n, d[n..], bad, k + 1)
  }

  lemma MapsUnfold(s: FS, f: nat, pos: nat, d: seq<byte>, bad: nat -> set<nat>, k: nat)
    requires Shaped(s)
    ensures d == [] ==> LoopMaps(s, f, pos, d, bad, k) == {}
    ensures d != [] ==>
      var (t, n) := WriteStep(s, f, pos, d, bad(k));
      LoopMaps(s, f, pos, d, bad, k) ==
        StepMaps(s, f, pos, bad(k)) + if n == 0 then {} else LoopMaps(t, f, pos + n, d[n..], bad, k + 1)
  {
    hide WriteStep, StepMaps, Shaped;
  }

  lemma StepMapsBlock(s: FS, f: nat, pos: nat, d: seq<byte>, bad: set<nat>)
    requires Shaped(s)
    ensures StepMaps(s, f, pos, bad) <= {pos / BLOCK_SIZE}
    ensures var n := WriteStep(s, f, pos, d, bad).1;
      && (n > 0 ==> StepMaps(s, f, pos, bad) == {pos / BLOCK_SIZE})
      && n <= |d| && pos % BLOCK_SIZE + n <= BLOCK_SIZE
      && (0 < n < |d| ==> pos % BLOCK_SIZE + n == BLOCK_SIZE)
  {
    hide IbMapNew;
  }

  // They are the blocks of the bytes written, and possibly the next one, if the write is short.
  lemma {:induction false} LoopMapsBlocks(s: FS, f: nat, pos: nat, d: seq<byte>, bad: nat -> set<nat>, k: nat)
    requires Shaped(s)
    ensures var n := WriteLoop(s, f, pos, d, bad, k).1;
      && (forall p :: pos <= p < pos + n ==> p / BLOCK_SIZE in LoopMaps(s, f, pos, d, bad, k))
      && (forall j :: j in LoopMaps(s, f, pos, d, bad, k) ==>
            pos / BLOCK_SIZE <= j <= (pos + n) / BLOCK_SIZE && j * BLOCK_SIZE < pos + |d|)
    decreases |d|
  {
    hide WriteStep, StepMaps, Shaped, WriteLoop, LoopMaps;
    WriteUnfolds(s, f, pos, d, bad, k);
    MapsUnfold(s, f, pos, d, bad, k);
    if d != [] {
      StepMapsBlock(s, f, pos, d, bad(k));
      var (t, n) := WriteStep(s, f, pos, d, bad(k));
      if n > 0 {
        LoopMapsBlocks(t, f, pos + n, d[n..], bad, k + 1);
        forall p | pos <= p < pos + n ensures p / BLOCK_SIZE == pos / BLOCK_SIZE {}
      }
    }
  }

  // One turn, then the rest.
  lemma AfterThen(b: Option<byte>, f: nat, pos: nat, n: nat, m: nat, d: seq<byte>, x: set<nat>, y: set<nat>, g: nat,
      p: nat)
    requires n <= |d| && m <= |d| - n
    ensures After(After(b, f, pos, n, d, x, g, p), f, pos + n, m, d[n..], y, g, p) ==
      After(b, f, pos, n + m, d, x + y, g, p)
  {
  }

  lemma AfterNothing(b: Option<byte>, f: nat, pos: nat, d: seq<byte>, g: nat, p: nat)
    ensures After(b, f, pos, 0, d, {}, g, p) == b
  {
  }

  lemma {:induction false} WriteByte(s: FS, f: nat, pos: nat, d: seq<byte>, bad: nat -> set<nat>, k: nat, g: nat,
      p: nat)
    requires Safe(s) && f < |s.inodes|
    ensures Shaped(s)
    ensures var (t, n) := WriteLoop(s, f, pos, d, bad, k);
      FileByte(t, g, p) == After(FileByte(s, g, p), f, pos, n, d, LoopMaps(s, f, pos, d, bad, k), g, p)
    decreases |d|
  {
    hide *;
    SafeShaped(s);
    WriteUnfolds(s, f, pos, d, bad, k);
    MapsUnfold(s, f, pos, d, bad, k);
    AfterNothing(FileByte(s, g, p), f, pos, d, g, p);
    if d != [] {
      StepKeeps(s, f, pos, d, bad(k));
      StepByte(s, f, pos, d, bad(k), g, p);
      var (t, n) := WriteStep(s, f, pos, d, bad(k));
      FollowsSafe(s, t);
      if n > 0 {
        WriteByte(t, f, pos + n, d[n..], bad, k + 1, g, p);
        AfterThen(FileByte(s, g, p), f, pos, n, WriteLoop(t, f, pos + n, d[n..], bad, k + 1).1, d,
                  StepMaps(s, f, pos, bad(k)), LoopMaps(t, f, pos + n, d[n..], bad, k + 1), g, p);
      } else {
        assert StepMaps(s, f, pos, bad(k)) + {} == StepMaps(s, f, pos, bad(k));
      }
    }
  }

  // Sizes are not part of the block map.
  predicate SameTree(s: FS, t: FS) {
    && t.first == s.first && t.nblocks == s.nblocks && t.bits == s.bits && t.disk == s.disk && |t.inodes| == |s.inodes|
    && forall g :: 0 <= g < |s.inodes| ==> t.inodes[g].data == s.inodes[g].data
  }

  lemma SameTreeVal(s: FS, t: FS, y: Slot)
    requires SameTree(s, t)
    ensures Val(t, y) == Val(s, y)
  {
  }

  lemma SameTreeUse(s: FS, t: FS)
    requires Shaped(s) && SameTree(s, t)
    ensures SameUse(s, t)
  {
    forall y ensures Val(t, y) == Val(s, y) { SameTreeVal(s, t, y); }
  }

  lemma SameTreeByte(s: FS, t: FS, g: nat, p: nat)
    requires SameTree(s, t)
    ensures FileByte(t, g, p) == FileByte(s, g, p)
  {
    ReadableAlways(s, g, p / BLOCK_SIZE);
    ReadableAlways(t, g, p / BLOCK_SIZE);
    if p / BLOCK_SIZE < LIMIT { SameTreeVal(s, t, Leaf(g, p / BLOCK_SIZE)); }
    hide Val, IbMap, Leaf;
  }

  // The sizes after a write of n bytes at pos.
  predicate Grown(s: FS, t: FS, f: nat, pos: nat, n: nat) {
    && |t.inodes| == |s.inodes| && f < |s.inodes|
    && (forall g :: 0 <= g < |s.inodes| && g != f ==> t.inodes[g].size == s.inodes[g].size)
    && t.inodes[f].size == if n > 0 && pos + n > s.inodes[f].size then pos + n else s.inodes[f].size
  }

  lemma GrowGrows(s: FS, t: FS, f: nat, pos: nat, n: nat)
    requires Follows(s, t) && f < |s.inodes|
    ensures var u := if n > 0 then Grow(t, f, pos + n) else t; Grown(s, u, f, pos, n) && SameTree(t, u)
  {
    hide Safe, Sound;
  }

  // file_write keeps the invariant, grows the file to the last byte written and moves the offset
  // unless it appends. Without read errors it is short only at the largest file size or on a full
  // disk.
  lemma FileWriteKeeps(s: FS, f: nat, h: File, d: seq<byte>, bad: nat -> set<nat>)
    requires Safe(s) && f < |s.inodes|
    ensures Shaped(s)
    ensures var pos := WriteStart(s, f, h);
      var (t, h1, n) := FileWrite(s, f, h, d, bad);
      && Safe(t) && (Sound(s) ==> Sound(t)) && n <= |d| && Grown(s, t, f, pos, n)
      && (h.append ==> h1 == h) && (!h.append ==> h1 == File(h.offset + n, false))
      && (n < |d| && NoErrors(bad) ==> (pos + n) / BLOCK_SIZE >= LIMIT || ZoneFull(t))
  {
    hide Safe, Sound, WriteLoop, ZoneFull, NoErrors, Shaped, Follows, SameSizes, SameTree, SameUse, Grown, Grow;
    SafeShaped(s);
    var pos := WriteStart(s, f, h);
    WriteKeeps(s, f, pos, d, bad, 0);
    var (t, n) := WriteLoop(s, f, pos, d, bad, 0);
    FollowsSafe(s, t);
    if Sound(s) { FollowsSound(s, t); }
    GrowGrows(s, t, f, pos, n);
    var u := if n > 0 then Grow(t, f, pos + n) else t;
    SafeShaped(t);
    SameTreeUse(t, u);
    SameUseKeeps(t, u);
    SafeShaped(u);
  }

  // The blocks that file_write maps: those of the bytes it writes, and, if it is short, possibly one
  // more.
  function WriteMaps(s: FS, f: nat, h: File, d: seq<byte>, bad: nat -> set<nat>): set<nat>
    requires Shaped(s) && f < |s.inodes|
  {
    LoopMaps(s, f, WriteStart(s, f, h), d, bad, 0)
  }

  lemma WriteMapsBlocks(s: FS, f: nat, h: File, d: seq<byte>, bad: nat -> set<nat>)
    requires Shaped(s) && f < |s.inodes|
    ensures var (pos, n, m) := (WriteStart(s, f, h), FileWrite(s, f, h, d, bad).2, WriteMaps(s, f, h, d, bad));
      && (forall p :: pos <= p < pos + n ==> p / BLOCK_SIZE in m)
      && (forall j :: j in m ==> pos / BLOCK_SIZE <= j <= (pos + n) / BLOCK_SIZE && j * BLOCK_SIZE < pos + |d|)
  {
    hide WriteLoop, LoopMaps, Shaped, Grow;
    LoopMapsBlocks(s, f, WriteStart(s, f, h), d, bad, 0);
  }

  // It stores an exact prefix of the data from the start position on; missing bytes of the blocks it
  // mapped become zero, and every other byte of every file is as it was.
  lemma FileWriteBytes(s: FS, f: nat, h: File, d: seq<byte>, bad: nat -> set<nat>, g: nat, p: nat)
    requires Safe(s) && f < |s.inodes|
    ensures Shaped(s)
    ensures var (t, h1, n) := FileWrite(s, f, h, d, bad);
      n <= |d|
      && FileByte(t, g, p) == After(FileByte(s, g, p), f, WriteStart(s, f, h), n, d, WriteMaps(s, f, h, d, bad), g, p)
  {
    hide Safe, Sound, WriteLoop, ZoneFull, NoErrors, Shaped, Follows, SameSizes, SameTree, Grown, Grow, FileByte, After;
    SafeShaped(s);
    var pos := WriteStart(s, f, h);
    WriteKeeps(s, f, pos, d, bad, 0);
    WriteByte(s, f, pos, d, bad, 0, g, p);
    var (t, n) := WriteLoop(s, f, pos, d, bad, 0);
    GrowGrows(s, t, f, pos, n);
    SameTreeByte(t, if n > 0 then Grow(t, f, pos + n) else t, g, p);
  }

  // ---- file_read -----------------------------------------------------------------------------

  ghost predicate Reads(s: FS, f: nat, pos: nat, r: seq<byte>) {
    forall i :: 0 <= i < |r| ==> FileByte(s, f, pos + i) == Some(r[i])
  }

  lemma ReadStepGives(s: FS, f: nat, pos: nat, count: nat, bad: set<nat>)
    requires Safe(s) && count > 0
    ensures var r := ReadStep(s, f, pos, count, bad);
      Reads(s, f, pos, r) && (r == [] && bad == {} ==> FileByte(s, f, pos) == None)
  {
    SafeMeans(s);
    var b := IbMap(s, f, pos / BLOCK_SIZE, bad);
    var r := ReadStep(s, f, pos, count, bad);
    ReadableAlways(s, f, pos / BLOCK_SIZE);
    assert b != 0 ==> b == IbMap(s, f, pos / BLOCK_SIZE, {});
    hide Safe, Val, Leaf, IbMap;
    forall i | 0 <= i < |r| ensures FileByte(s, f, pos + i) == Some(r[i]) {
      assert (pos + i) / BLOCK_SIZE == pos / BLOCK_SIZE && (pos + i) % BLOCK_SIZE == pos % BLOCK_SIZE + i;
    }
  }

  lemma ReadsThen(s: FS, f: nat, pos: nat, a: seq<byte>, r: seq<byte>)
    requires Reads(s, f, pos, a) && Reads(s, f, pos + |a|, r)
    ensures Reads(s, f, pos, a + r)
  {
    hide FileByte;
    forall i | |a| <= i < |a + r| ensures FileByte(s, f, pos + i) == Some((a + r)[i]) {
      assert pos + i == pos + |a| + (i - |a|);
    }
  }

  // What is read is what the file holds; without read errors it stops short only at a missing block.
  lemma {:induction false} ReadGives(s: FS, f: nat, pos: nat, count: nat, bad: nat -> set<nat>, k: nat)
    requires Safe(s)
    ensures var r := ReadLoop(s, f, pos, count, bad, k);
      && |r| <= count && Reads(s, f, pos, r)
      && (|r| < count && NoErrors(bad) ==> FileByte(s, f, pos + |r|) == None)
    decreases count
  {
    hide Safe, FileByte, ReadStep;
    if count > 0 {
      ReadStepGives(s, f, pos, count, bad(k));
      assert NoErrors(bad) ==> bad(k) == {};
      hide NoErrors;
      var a := ReadStep(s, f, pos, count, bad(k));
      if a != [] {
        ReadGives(s, f, pos + |a|, count - |a|, bad, k + 1);
        ReadsThen(s, f, pos, a, ReadLoop(s, f, pos + |a|, count - |a|, bad, k + 1));
      }
    }
  }

  lemma WrittenReads(s: FS, f: nat, h: File, d: seq<byte>, bad: nat -> set<nat>)
    requires Safe(s) && f < |s.inodes|
    ensures Shaped(s)
    ensures var (t, h1, n) := FileWrite(s, f, h, d, bad);
      Safe(t) && n <= |d| && Reads(t, f, WriteStart(s, f, h), d[..n])
  {
    hide FileWrite, FileByte, Safe, Sound, Grown, NoErrors, ZoneFull, Shaped;
    SafeShaped(s);
    FileWriteKeeps(s, f, h, d, bad);
    var (t, h1, n) := FileWrite(s, f, h, d, bad);
    forall i | 0 <= i < n ensures FileByte(t, f, WriteStart(s, f, h) + i) == Some(d[i]) {
      FileWriteBytes(s, f, h, d, bad, f, WriteStart(s, f, h) + i);
    }
  }

  lemma ReadsSome(s: FS, f: nat, pos: nat, a: seq<byte>, i: nat)
    requires Reads(s, f, pos, a)
    ensures i < |a| ==> FileByte(s, f, pos + i) == Some(a[i])
  {
    hide FileByte;
  }

  lemma SameReads(s: FS, f: nat, pos: nat, a: seq<byte>, r: seq<byte>)
    requires Reads(s, f, pos, a) && Reads(s, f, pos, r) && |r| <= |a|
    requires |r| < |a| ==> FileByte(s, f, pos + |r|) == None
    ensures r == a
  {
    hide FileByte, Reads;
    ReadsSome(s, f, pos, a, |r|);
    forall i | 0 <= i < |r| ensures r[i] == a[i] {
      ReadsSome(s, f, pos, a, i);
      ReadsSome(s, f, pos, r, i);
    }
  }

  // Reading back at the position of a write returns the bytes written, through all three levels.
  lemma ReadBack(s: FS, f: nat, h: File, d: seq<byte>, bad: nat -> set<nat>, none: nat -> set<nat>)
    requires Safe(s) && f < |s.inodes| && NoErrors(none)
    ensures Shaped(s)
    ensures var (t, h1, n) := FileWrite(s, f, h, d, bad);
      && n <= |d|
      && FileRead(t, f, File(WriteStart(s, f, h), false), n, none) == (d[..n], File(WriteStart(s, f, h) + n, false))
  {
    hide FileWrite, FileByte, Safe, NoErrors, Reads, ReadLoop, Shaped;
    SafeShaped(s);
    WrittenReads(s, f, h, d, bad);
    var (t, h1, n) := FileWrite(s, f, h, d, bad);
    ReadGives(t, f, WriteStart(s, f, h), n, none, 0);
    SameReads(t, f, WriteStart(s, f, h), d[..n], ReadLoop(t, f, WriteStart(s, f, h), n, none, 0));
  }
}
