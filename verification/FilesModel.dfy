// fs/bitmap.c, the block maps of fs/inode.c, fs/truncate.c and fs/file_dev.c, over the disk as its
// users see it through the buffer cache. Each bread may fail: `bad` holds the blocks that cannot be
// read during a call.
module FilesModel {
  import opened Base

  const WORDS: nat := 512
  const DIRECT: nat := 7
  const INDEX_LEVEL1: nat := 7
  const INDEX_LEVEL2: nat := 8
  const LIMIT: nat := 7 + 512 + 512 * 512   // blocks a file can have
  const MAX_BLOCKS: nat := 0x10000          // block numbers are 16-bit

  type Pointers = p: seq<nat> | |p| == 9 witness [0, 0, 0, 0, 0, 0, 0, 0, 0]

  datatype Inode = Inode(data: Pointers, size: nat)

  // Bit i of the data map stands for block first + i - 1; bit 0 is reserved.
  datatype FS = FS(first: nat, nblocks: nat, bits: seq<bool>, disk: seq<Block>, inodes: seq<Inode>)

  predicate Shaped(s: FS) {
    && 1 <= s.first <= s.nblocks < MAX_BLOCKS && |s.disk| == s.nblocks
    && s.nblocks - s.first < |s.bits| && s.bits[0]
  }

  predicate InZone(s: FS, b: nat) { s.first <= b < s.nblocks }

  predicate Bit(s: FS, b: nat)
    requires Shaped(s) && InZone(s, b)
  {
    s.bits[b - s.first + 1]
  }

  // ---- blocks --------------------------------------------------------------------------------

  // The 16-bit words of an index block, low byte first.
  function U16At(b: Block, i: nat): (r: nat)
    requires i < WORDS
    ensures r < 0x10000
  {
    b[2 * i] as nat + 0x100 * b[2 * i + 1] as nat
  }

  function PutU16(b: Block, i: nat, v: nat): (r: Block)
    requires i < WORDS && v < 0x10000
    ensures forall k :: 0 <= k < WORDS ==> U16At(r, k) == if k == i then v else U16At(b, k)
  {
    b[2 * i := (v % 0x100) as byte][2 * i + 1 := (v / 0x100) as byte]
  }

  // ---- the pointer tree ----------------------------------------------------------------------

  // The places that hold a block number: nine in the inode, the words of index blocks below it.
  datatype Slot =
    | Direct(f: nat, i: nat)
    | Single(f: nat)
    | SingleEntry(f: nat, i: nat)
    | Double(f: nat)
    | DoubleIndex(f: nat, i: nat)
    | DoubleEntry(f: nat, i: nat, j: nat)

  function Pointer(s: FS, f: nat, i: nat): nat {
    if f < |s.inodes| && i < 9 then s.inodes[f].data[i] else 0
  }

  function Word(s: FS, b: nat, i: nat): nat {
    if 0 < b < |s.disk| && i < WORDS then U16At(s.disk[b], i) else 0
  }

  // The block number a slot holds, 0 if none.
  function Val(s: FS, x: Slot): nat {
    match x
    case Direct(f, i) => if i < DIRECT then Pointer(s, f, i) else 0
    case Single(f) => Pointer(s, f, INDEX_LEVEL1)
    case SingleEntry(f, i) => Word(s, Pointer(s, f, INDEX_LEVEL1), i)
    case Double(f) => Pointer(s, f, INDEX_LEVEL2)
    case DoubleIndex(f, i) => Word(s, Pointer(s, f, INDEX_LEVEL2), i)
    case DoubleEntry(f, i, j) => Word(s, Word(s, Pointer(s, f, INDEX_LEVEL2), i), j)
  }

  function SetPointer(s: FS, f: nat, i: nat, v: nat): FS
    requires f < |s.inodes| && i < 9
  {
    s.(inodes := s.inodes[f := s.inodes[f].(data := s.inodes[f].data[i := v])])
  }

  function SetWord(s: FS, b: nat, i: nat, v: nat): FS
    requires b < |s.disk| && i < WORDS && v < 0x10000
  {
    s.(disk := s.disk[b := PutU16(s.disk[b], i, v)])
  }

  // The slot exists: its file does, and so does the index block that holds it.
  predicate Placed(s: FS, x: Slot) {
    && x.f < |s.inodes|
    && match x
       case Direct(f, i) => i < DIRECT
       case Single(f) => true
       case SingleEntry(f, i) => i < WORDS && 0 < Val(s, Single(f)) < |s.disk|
       case Double(f) => true
       case DoubleIndex(f, i) => i < WORDS && 0 < Val(s, Double(f)) < |s.disk|
       case DoubleEntry(f, i, j) => i < WORDS && j < WORDS && 0 < Val(s, DoubleIndex(f, i)) < |s.disk|
  }

  function Store(s: FS, x: Slot, v: nat): FS
    requires v < MAX_BLOCKS
  {
    if !Placed(s, x) then s
    else
      match x
      case Direct(f, i) => SetPointer(s, f, i, v)
      case Single(f) => SetPointer(s, f, INDEX_LEVEL1, v)
      case SingleEntry(f, i) => SetWord(s, Val(s, Single(f)), i, v)
      case Double(f) => SetPointer(s, f, INDEX_LEVEL2, v)
      case DoubleIndex(f, i) => SetWord(s, Val(s, Double(f)), i, v)
      case DoubleEntry(f, i, j) => SetWord(s, Val(s, DoubleIndex(f, i)), j, v)
  }

  // ---- new_block and free_block --------------------------------------------------------------

  function FirstClear(bits: seq<bool>, from: nat): (r: nat)
    requires from <= |bits|
    ensures from <= r <= |bits| && (forall i :: from <= i < r ==> bits[i]) && (r < |bits| ==> !bits[r])
    decreases |bits| - from
  {
    if from == |bits| || !bits[from] then from else FirstClear(bits, from + 1)
  }

  function SetBit(s: FS, b: nat, v: bool): FS
    requires Shaped(s) && InZone(s, b)
  {
    s.(bits := s.bits[b - s.first + 1 := v])
  }

  // A block that was free, zeroed; 0 if there is none. The bit is set before the block number is
  // compared with the size of the disk.
  function NewBlock(s: FS): (FS, nat)
    requires Shaped(s)
  {
    var i := FirstClear(s.bits, 0);
    if i == |s.bits| then (s, 0)
    else
      var t := s.(bits := s.bits[i := true]);
      var b := i + s.first - 1;
      if b >= s.nblocks then (t, 0) else (t.(disk := t.disk[b := ZeroBlock()]), b)
  }

  // None stands for a halt of the kernel.
  function FreeBlock(s: FS, b: nat): Option<FS>
    requires Shaped(s)
  {
    if InZone(s, b) && Bit(s, b) then Some(SetBit(s, b, false)) else None
  }

  // ---- ib_map and ib_map_new -----------------------------------------------------------------

  function Leaf(f: nat, n: nat): (x: Slot)
    requires n < LIMIT
  {
    if n < DIRECT then Direct(f, n)
    else if n < DIRECT + WORDS then SingleEntry(f, n - DIRECT)
    else
      var m := n - (DIRECT + WORDS);
      DoubleEntry(f, m / WORDS, m % WORDS)
  }

  // The index blocks above a slot can be read.
  predicate Readable(s: FS, x: Slot, bad: set<nat>) {
    match x
    case SingleEntry(f, i) => Val(s, Single(f)) !in bad
    case DoubleIndex(f, i) => Val(s, Double(f)) !in bad
    case DoubleEntry(f, i, j) => Val(s, Double(f)) !in bad && Val(s, DoubleIndex(f, i)) !in bad
    case _ => true
  }

  function IbMap(s: FS, f: nat, n: int, bad: set<nat>): nat {
    if n < 0 || n >= LIMIT || !Readable(s, Leaf(f, n), bad) then 0 else Val(s, Leaf(f, n))
  }

  // The block number in slot x; a new block is put there if there is none.
  function Take(s: FS, x: Slot): (r: (FS, nat))
    requires Shaped(s)
    ensures Shaped(r.0) && |r.0.inodes| == |s.inodes| && |r.0.disk| == |s.disk|
  {
    if Val(s, x) != 0 then (s, Val(s, x))
    else
      var (t, b) := NewBlock(s);
      if b == 0 then (t, 0) else (Store(t, x, b), b)
  }

  function NewInSingle(s: FS, f: nat, i: nat, bad: set<nat>): (r: (FS, nat))
    requires Shaped(s)
    ensures Shaped(r.0) && |r.0.inodes| == |s.inodes| && |r.0.disk| == |s.disk|
  {
    var (t, b) := Take(s, Single(f));
    if b == 0 || b in bad then (t, 0) else Take(t, SingleEntry(f, i))
  }

  function NewInIndex(s: FS, f: nat, i: nat, j: nat, bad: set<nat>): (r: (FS, nat))
    requires Shaped(s)
    ensures Shaped(r.0) && |r.0.inodes| == |s.inodes| && |r.0.disk| == |s.disk|
  {
    var (t, b) := Take(s, DoubleIndex(f, i));
    if b == 0 || b in bad then (t, 0) else Take(t, DoubleEntry(f, i, j))
  }

  function NewInDouble(s: FS, f: nat, i: nat, j: nat, bad: set<nat>): (r: (FS, nat))
    requires Shaped(s)
    ensures Shaped(r.0) && |r.0.inodes| == |s.inodes| && |r.0.disk| == |s.disk|
  {
    var (t, b) := Take(s, Double(f));
    if b == 0 || b in bad then (t, 0) else NewInIndex(t, f, i, j, bad)
  }

  function IbMapNew(s: FS, f: nat, n: int, bad: set<nat>): (r: (FS, nat))
    requires Shaped(s)
    ensures Shaped(r.0) && |r.0.inodes| == |s.inodes| && |r.0.disk| == |s.disk|
  {
    if n < 0 || n >= LIMIT then (s, 0)
    else if n < DIRECT then Take(s, Direct(f, n))
    else if n < DIRECT + WORDS then NewInSingle(s, f, n - DIRECT, bad)
    else
      var m := n - (DIRECT + WORDS);
      NewInDouble(s, f, m / WORDS, m % WORDS, bad)
  }

  // ---- truncate ------------------------------------------------------------------------------

  // Frees the block that a slot names, if it names one.
  function FreeIf(s: FS, b: nat): (r: Option<FS>)
    requires Shaped(s)
    ensures r.Some? ==> r.value == s.(bits := r.value.bits) && Shaped(r.value)
  {
    if b != 0 then FreeBlock(s, b) else Some(s)
  }

  // The first n words of index block b name blocks to free.
  function FreeEntries(s: FS, b: nat, n: nat): (r: Option<FS>)
    requires Shaped(s) && n <= WORDS
    ensures r.Some? ==> r.value == s.(bits := r.value.bits) && Shaped(r.value)
  {
    if n == 0 then Some(s)
    else
      var t := FreeEntries(s, b, n - 1);
      if t.Some? then FreeIf(t.value, Word(s, b, n - 1)) else None
  }

  function FreeLevel1(s: FS, b: nat, bad: set<nat>): (r: Option<FS>)
    requires Shaped(s)
    ensures r.Some? ==> r.value == s.(bits := r.value.bits) && Shaped(r.value)
  {
    if b == 0 then Some(s)
    else
      var t := if b in bad then Some(s) else FreeEntries(s, b, WORDS);
      if t.Some? then FreeBlock(t.value, b) else None
  }

  function FreeIndexes(s: FS, b: nat, bad: set<nat>, n: nat): (r: Option<FS>)
    requires Shaped(s) && n <= WORDS
    ensures r.Some? ==> r.value == s.(bits := r.value.bits) && Shaped(r.value)
  {
    if n == 0 then Some(s)
    else
      var t := FreeIndexes(s, b, bad, n - 1);
      if t.Some? then FreeLevel1(t.value, Word(s, b, n - 1), bad) else None
  }

  function FreeLevel2(s: FS, b: nat, bad: set<nat>): (r: Option<FS>)
    requires Shaped(s)
    ensures r.Some? ==> r.value == s.(bits := r.value.bits) && Shaped(r.value)
  {
    if b == 0 then Some(s)
    else
      var t := if b in bad then Some(s) else FreeIndexes(s, b, bad, WORDS);
      if t.Some? then FreeBlock(t.value, b) else None
  }

  function FreeDirect(s: FS, f: nat, n: nat): (r: Option<FS>)
    requires Shaped(s) && f < |s.inodes| && n <= DIRECT
    ensures r.Some? ==> Shaped(r.value) && r.value.disk == s.disk && |r.value.inodes| == |s.inodes|
  {
    if n == 0 then Some(s)
    else
      var t := FreeDirect(s, f, n - 1);
      if t.None? then None
      else
        var u := FreeIf(t.value, Pointer(t.value, f, n - 1));
        if u.Some? then Some(SetPointer(u.value, f, n - 1, 0)) else None
  }

  function ClearInode(s: FS, f: nat): FS
    requires f < |s.inodes|
  {
    var t := SetPointer(SetPointer(s, f, INDEX_LEVEL1, 0), f, INDEX_LEVEL2, 0);
    t.(inodes := t.inodes[f := t.inodes[f].(size := 0)])
  }

  function Truncate(s: FS, f: nat, bad: set<nat>): Option<FS>
    requires Shaped(s) && f < |s.inodes|
  {
    var t := FreeDirect(s, f, DIRECT);
    if t.None? then None
    else
      var u := FreeLevel1(t.value, Pointer(t.value, f, INDEX_LEVEL1), bad);
      if u.None? then None
      else
        var v := FreeLevel2(u.value, Pointer(u.value, f, INDEX_LEVEL2), bad);
        if v.None? then None
        else
          Some(ClearInode(v.value, f))
  }

  // ---- file_write and file_read --------------------------------------------------------------

  // One turn of file_write's loop: the bytes of d that go into the block of pos, 0 of them if the
  // block cannot be had.
  function WriteStep(s: FS, f: nat, pos: nat, d: seq<byte>, bad: set<nat>): (r: (FS, nat))
    requires Shaped(s)
    ensures Shaped(r.0) && |r.0.inodes| == |s.inodes| && |r.0.disk| == |s.disk| && r.1 <= |d|
  {
    var (t, b) := IbMapNew(s, f, pos / BLOCK_SIZE, bad);
    if b == 0 || b in bad || b >= |t.disk| then (t, 0)
    else
      var n := Chars(pos, |d|);
      (t.(disk := t.disk[b := PutBytes(t.disk[b], pos % BLOCK_SIZE, d[..n])]), n)
  }

  // Turn k of the loop finds the blocks bad(k) unreadable.
  function WriteLoop(s: FS, f: nat, pos: nat, d: seq<byte>, bad: nat -> set<nat>, k: nat): (r: (FS, nat))
    requires Shaped(s)
    ensures Shaped(r.0) && |r.0.inodes| == |s.inodes| && |r.0.disk| == |s.disk| && r.1 <= |d|
    decreases |d|
  {
    if d == [] then (s, 0)
    else
      var (t, n) := WriteStep(s, f, pos, d, bad(k));
      if n == 0 then (t, 0)
      else
        var (u, m) := WriteLoop(t, f, pos + n, d[n..], bad, k + 1);
        (u, n + m)
  }

  datatype File = File(offset: nat, append: bool)

  function Grow(s: FS, f: nat, end: nat): FS
    requires f < |s.inodes|
  {
    if end > s.inodes[f].size then s.(inodes := s.inodes[f := s.inodes[f].(size := end)]) else s
  }

  function WriteStart(s: FS, f: nat, h: File): nat
    requires f < |s.inodes|
  {
    if h.append then s.inodes[f].size else h.offset
  }

  // The new state, the new file handle and the number of bytes written.
  function FileWrite(s: FS, f: nat, h: File, d: seq<byte>, bad: nat -> set<nat>): (FS, File, nat)
    requires Shaped(s) && f < |s.inodes|
  {
    var pos := WriteStart(s, f, h);
    var (t, n) := WriteLoop(s, f, pos, d, bad, 0);
    var u := if n > 0 then Grow(t, f, pos + n) else t;
    (u, if h.append then h else h.(offset := pos + n), n)
  }

  function ReadStep(s: FS, f: nat, pos: nat, count: nat, bad: set<nat>): (r: seq<byte>)
    ensures |r| <= count
  {
    var b := IbMap(s, f, pos / BLOCK_SIZE, bad);
    if b == 0 || b in bad || b >= |s.disk| then []
    else s.disk[b][pos % BLOCK_SIZE..pos % BLOCK_SIZE + Chars(pos, count)]
  }

  function ReadLoop(s: FS, f: nat, pos: nat, count: nat, bad: nat -> set<nat>, k: nat): (r: seq<byte>)
    ensures |r| <= count
    decreases count
  {
    if count == 0 then []
    else
      var a := ReadStep(s, f, pos, count, bad(k));
      if a == [] then [] else a + ReadLoop(s, f, pos + |a|, count - |a|, bad, k + 1)
  }

  function FileRead(s: FS, f: nat, h: File, count: nat, bad: nat -> set<nat>): (seq<byte>, File) {
    var d := ReadLoop(s, f, h.offset, count, bad, 0);
    (d, h.(offset := h.offset + |d|))
  }
}
