// The file layer through the buffer cache: each block is read with bread and given back with brelease, and the
// blocks that new_block and free_block handle may be in buffers that somebody holds.
module FilesCached {
  import opened Base
  import F = FilesModel
  import C = CacheModel

  // The bits of the data map stand in memory, their own buffers are not modelled.
  datatype Mounted = Mounted(
    cache: C.Cache, dev: nat, first: nat, nblocks: nat, bits: seq<bool>, inodes: seq<F.Inode>)

  predicate Fit(m: Mounted) {
    && 1 <= m.first <= m.nblocks < F.MAX_BLOCKS && m.nblocks - m.first < |m.bits| && m.bits[0] && C.Shaped(m.cache)
  }

  // What no call changes.
  predicate Kin(m: Mounted, n: Mounted) {
    && Fit(n) && n.dev == m.dev && n.first == m.first && n.nblocks == m.nblocks
    && |n.bits| == |m.bits| && |n.inodes| == |m.inodes| && |n.cache.bufs| == |m.cache.bufs|
  }

  function At(m: Mounted, b: nat): C.Key { C.Key(m.dev, b) }

  // How a call ends. Asleep: every buffer is held, and get_buffer waits. Halted: the kernel halts. InUse: the call ran
  // to its end, but free_block has met a buffer that somebody holds, and has left its block in use.
  datatype End = Ran | Asleep | Halted | InUse

  function Both(a: End, b: End): End { if b.Ran? then a else b }

  predicate Goes(e: End) { e.Ran? || e.InUse? }

  // The state and the block number that a call leaves, and the blocks that the device did not answer for.
  datatype Out = Out(m: Mounted, b: nat, end: End, bad: set<nat>)

  // ---- bitmap.c ------------------------------------------------------------------------------

  function NewBlock(m: Mounted): (r: Out)
    requires Fit(m)
    ensures Kin(m, r.m) && r.bad == {}
  {
    var i := F.FirstClear(m.bits, 0);
    if i == |m.bits| then Out(m, 0, Ran, {})
    else
      var n := m.(bits := m.bits[i := true]);
      var b := i + m.first - 1;
      if b >= m.nblocks then Out(n, 0, Ran, {})
      else
        var (c, g) := C.GetBuffer(m.cache, At(m, b));
        if g.None? then Out(n.(cache := c), 0, Asleep, {})
        else if c.bufs[g.value].count != 1 then Out(n.(cache := c), 0, Halted, {})
        else
          var d := C.Brelease(C.Store(c, g.value, ZeroBlock()), g.value);
          if d.None? then Out(n.(cache := c), 0, Halted, {}) else Out(n.(cache := d.value), b, Ran, {})
  }

  function FreeBlock(m: Mounted, b: nat): (r: Out)
    requires Fit(m)
    ensures Kin(m, r.m) && r.bad == {}
  {
    if !(m.first <= b < m.nblocks) then Out(m, 0, Halted, {})
    else
      var (c, freed) := C.FreeBuffer(m.cache, At(m, b));
      if !freed then Out(m.(cache := c), 0, InUse, {})
      else if !m.bits[b - m.first + 1] then Out(m.(cache := c), 0, Halted, {})
      else Out(m.(cache := c, bits := m.bits[b - m.first + 1 := false]), 0, Ran, {})
  }

  // ---- inode.c -------------------------------------------------------------------------------

  // A block number in the inode; with `create`, a new block if there is none.
  function PointerSlot(m: Mounted, f: nat, i: nat, create: bool): (r: Out)
    requires Fit(m) && f < |m.inodes| && i < 9
    ensures Kin(m, r.m)
  {
    var v := m.inodes[f].data[i];
    if v != 0 || !create then Out(m, v, Ran, {})
    else
      var r := NewBlock(m);
      var n := r.m;
      r.(m := n.(inodes := n.inodes[f := n.inodes[f].(data := n.inodes[f].data[i := r.b])]))
  }

  // A block number in the index block in buffer j.
  function WordSlot(m: Mounted, j: nat, i: nat, create: bool): (r: Out)
    requires Fit(m) && j < |m.cache.bufs| && i < F.WORDS
    ensures Kin(m, r.m)
  {
    var v := F.U16At(m.cache.bufs[j].data, i);
    if v != 0 || !create then Out(m, v, Ran, {})
    else
      var r := NewBlock(m);
      if r.b == 0 || r.b >= F.MAX_BLOCKS then r
      else r.(m := r.m.(cache := C.Store(r.m.cache, j, F.PutU16(r.m.cache.bufs[j].data, i, r.b))))
  }

  // The end of a call that holds buffer j.
  function Released(r: Out, j: nat): (o: Out)
    requires Fit(r.m) && j < |r.m.cache.bufs|
    ensures Kin(r.m, o.m)
  {
    var d := C.Brelease(r.m.cache, j);
    if !Goes(r.end) then r
    else if d.None? then r.(end := Halted)
    else r.(m := r.m.(cache := d.value))
  }

  // Index block c is read, word i of it is taken, and its buffer is given back.
  function UnderIndex(m: Mounted, c: nat, i: nat, create: bool, dead: set<nat>): (r: Out)
    requires Fit(m) && i < F.WORDS
    ensures Kin(m, r.m)
  {
    var (d, g) := C.Bread(m.cache, At(m, c), c !in dead);
    var n := m.(cache := d);
    match g
    case Sleeps => Out(n, 0, Asleep, {})
    case Halted => Out(n, 0, End.Halted, {})
    case Failed => Out(n, 0, Ran, {c})
    case Buffer(j) => Released(WordSlot(n, j, i, create), j)
  }

  function InSingle(m: Mounted, f: nat, i: nat, create: bool, dead: set<nat>): (r: Out)
    requires Fit(m) && f < |m.inodes| && i < F.WORDS
    ensures Kin(m, r.m)
  {
    var p := PointerSlot(m, f, F.INDEX_LEVEL1, create);
    if !p.end.Ran? || p.b == 0 then p else UnderIndex(p.m, p.b, i, create, dead)
  }

  function InDouble(m: Mounted, f: nat, i: nat, j: nat, create: bool, dead: set<nat>): (r: Out)
    requires Fit(m) && f < |m.inodes| && i < F.WORDS && j < F.WORDS
    ensures Kin(m, r.m)
  {
    var p := PointerSlot(m, f, F.INDEX_LEVEL2, create);
    if !p.end.Ran? || p.b == 0 then p
    else
      var q := UnderIndex(p.m, p.b, i, create, dead);
      if !q.end.Ran? || q.b == 0 then q else UnderIndex(q.m, q.b, j, create, dead)
  }

  // ib_map_helper: ib_map without `create`, ib_map_new with it.
  function IbMapHelper(m: Mounted, f: nat, n: int, create: bool, dead: set<nat>): (r: Out)
    requires Fit(m) && f < |m.inodes|
    ensures Kin(m, r.m)
  {
    if n < 0 || n >= F.LIMIT then Out(m, 0, Ran, {})
    else if n < F.DIRECT then PointerSlot(m, f, n, create)
    else if n < F.DIRECT + F.WORDS then InSingle(m, f, n - F.DIRECT, create, dead)
    else
      var k := n - (F.DIRECT + F.WORDS);
      InDouble(m, f, k / F.WORDS, k % F.WORDS, create, dead)
  }

  // ---- file_dev.c ----------------------------------------------------------------------------

  // Block p.b is read, changed and given back; p is what the call has done before.
  function PutInBlock(p: Out, pos: nat, d: seq<byte>, dead: set<nat>): (r: Out)
    requires Fit(p.m)
    ensures Kin(p.m, r.m) && r.b <= |d|
  {
    var (e, g) := C.Bread(p.m.cache, At(p.m, p.b), p.b !in dead);
    var n := p.m.(cache := e);
    match g
    case Sleeps => Out(n, 0, Asleep, p.bad)
    case Halted => Out(n, 0, End.Halted, p.bad)
    case Failed => Out(n, 0, Ran, p.bad + {p.b})
    case Buffer(j) =>
      var chars := Chars(pos, |d|);
      var data := PutBytes(e.bufs[j].data, pos % BLOCK_SIZE, d[..chars]);
      Released(Out(n.(cache := C.Store(e, j, data)), chars, Ran, p.bad), j)
  }

  // One turn of file_write's loop; r.b is the number of bytes of d that it puts into the block of pos.
  function WriteStep(m: Mounted, f: nat, pos: nat, d: seq<byte>, dead: set<nat>): (r: Out)
    requires Fit(m) && f < |m.inodes|
    ensures Kin(m, r.m) && r.b <= |d|
  {
    var p := IbMapHelper(m, f, pos / BLOCK_SIZE, true, dead);
    if !p.end.Ran? || p.b == 0 then p.(b := 0) else PutInBlock(p, pos, d, dead)
  }

  // And what fails in each turn.
  datatype Loop = Loop(m: Mounted, count: nat, end: End, bad: nat -> set<nat>)

  function Failing(k: nat, now: set<nat>, later: nat -> set<nat>): nat -> set<nat> {
    j => if j == k then now else later(j)
  }

  function WriteLoop(m: Mounted, f: nat, pos: nat, d: seq<byte>, dead: nat -> set<nat>, k: nat): (r: Loop)
    requires Fit(m) && f < |m.inodes|
    ensures Kin(m, r.m) && r.count <= |d|
    decreases |d|
  {
    if d == [] then Loop(m, 0, Ran, _ => {})
    else
      var o := WriteStep(m, f, pos, d, dead(k));
      if !o.end.Ran? || o.b == 0 then Loop(o.m, o.b, o.end, Failing(k, o.bad, _ => {}))
      else
        var r := WriteLoop(o.m, f, pos + o.b, d[o.b..], dead, k + 1);
        Loop(r.m, o.b + r.count, r.end, Failing(k, o.bad, r.bad))
  }

  function Grow(m: Mounted, f: nat, end: nat): (r: Mounted)
    requires Fit(m) && f < |m.inodes|
    ensures Kin(m, r)
  {
    if end > m.inodes[f].size then m.(inodes := m.inodes[f := m.inodes[f].(size := end)]) else m
  }

  function FileWrite(m: Mounted, f: nat, h: F.File, d: seq<byte>, dead: nat -> set<nat>): (r: (Loop, F.File))
    requires Fit(m) && f < |m.inodes|
    ensures Kin(m, r.0.m)
  {
    var pos := if h.append then m.inodes[f].size else h.offset;
    var r := WriteLoop(m, f, pos, d, dead, 0);
    (r.(m := if r.count > 0 then Grow(r.m, f, pos + r.count) else r.m),
     if h.append then h else h.(offset := pos + r.count))
  }

  // The bytes read go with the state.
  function GetFromBlock(p: Out, pos: nat, count: nat, dead: set<nat>): (r: (Out, seq<byte>))
    requires Fit(p.m)
    ensures Kin(p.m, r.0.m) && |r.1| <= count
  {
    var (e, g) := C.Bread(p.m.cache, At(p.m, p.b), p.b !in dead);
    var n := p.m.(cache := e);
    match g
    case Sleeps => (Out(n, 0, Asleep, p.bad), [])
    case Halted => (Out(n, 0, End.Halted, p.bad), [])
    case Failed => (Out(n, 0, Ran, p.bad + {p.b}), [])
    case Buffer(j) =>
      (Released(Out(n, 0, Ran, p.bad), j), e.bufs[j].data[pos % BLOCK_SIZE..pos % BLOCK_SIZE + Chars(pos, count)])
  }

  function ReadStep(m: Mounted, f: nat, pos: nat, count: nat, dead: set<nat>): (r: (Out, seq<byte>))
    requires Fit(m) && f < |m.inodes|
    ensures Kin(m, r.0.m) && |r.1| <= count
  {
    var p := IbMapHelper(m, f, pos / BLOCK_SIZE, false, dead);
    if !p.end.Ran? || p.b == 0 then (p, []) else GetFromBlock(p, pos, count, dead)
  }

  function ReadLoop(m: Mounted, f: nat, pos: nat, count: nat, dead: nat -> set<nat>, k: nat): (r: (Loop, seq<byte>))
    requires Fit(m) && f < |m.inodes|
    ensures Kin(m, r.0.m) && |r.1| <= count
    decreases count
  {
    if count == 0 then (Loop(m, 0, Ran, _ => {}), [])
    else
      var (o, a) := ReadStep(m, f, pos, count, dead(k));
      if !o.end.Ran? || a == [] then (Loop(o.m, 0, o.end, Failing(k, o.bad, _ => {})), a)
      else
        var (r, b) := ReadLoop(o.m, f, pos + |a|, count - |a|, dead, k + 1);
        (Loop(r.m, 0, r.end, Failing(k, o.bad, r.bad)), a + b)
  }

  function FileRead(m: Mounted, f: nat, h: F.File, count: nat, dead: nat -> set<nat>): (r: (Loop, seq<byte>, F.File))
    requires Fit(m) && f < |m.inodes|
    ensures Kin(m, r.0.m)
  {
    var (r, d) := ReadLoop(m, f, h.offset, count, dead, 0);
    (r, d, h.(offset := h.offset + |d|))
  }

  // ---- truncate.c ----------------------------------------------------------------------------

  // One call after another, the first of which has left r.
  function Then(r: Out, o: Out): Out { Out(o.m, 0, Both(r.end, o.end), r.bad + o.bad) }

  // The first n words of the index block in buffer j name blocks to free.
  function FreeWords(m: Mounted, j: nat, n: nat): (r: Out)
    requires Fit(m) && j < |m.cache.bufs| && n <= F.WORDS
    ensures Kin(m, r.m)
  {
    if n == 0 then Out(m, 0, Ran, {})
    else
      var r := FreeWords(m, j, n - 1);
      var w := F.U16At(r.m.cache.bufs[j].data, n - 1);
      if !Goes(r.end) || w == 0 then r else Then(r, FreeBlock(r.m, w))
  }

  function FreeLevel1(m: Mounted, b: nat, dead: set<nat>): (r: Out)
    requires Fit(m)
    ensures Kin(m, r.m)
  {
    if b == 0 then Out(m, 0, Ran, {})
    else
      var (d, g) := C.Bread(m.cache, At(m, b), b !in dead);
      var n := m.(cache := d);
      match g
      case Sleeps => Out(n, 0, Asleep, {})
      case Halted => Out(n, 0, End.Halted, {})
      case Failed => Then(Out(n, 0, Ran, {b}), FreeBlock(n, b))
      case Buffer(j) =>
        var r := Released(FreeWords(n, j, F.WORDS), j);
        if !Goes(r.end) then r else Then(r, FreeBlock(r.m, b))
  }

  function FreeIndexes(m: Mounted, j: nat, dead: set<nat>, n: nat): (r: Out)
    requires Fit(m) && j < |m.cache.bufs| && n <= F.WORDS
    ensures Kin(m, r.m)
  {
    if n == 0 then Out(m, 0, Ran, {})
    else
      var r := FreeIndexes(m, j, dead, n - 1);
      if !Goes(r.end) then r else Then(r, FreeLevel1(r.m, F.U16At(r.m.cache.bufs[j].data, n - 1), dead))
  }

  function FreeLevel2(m: Mounted, b: nat, dead: set<nat>): (r: Out)
    requires Fit(m)
    ensures Kin(m, r.m)
  {
    if b == 0 then Out(m, 0, Ran, {})
    else
      var (d, g) := C.Bread(m.cache, At(m, b), b !in dead);
      var n := m.(cache := d);
      match g
      case Sleeps => Out(n, 0, Asleep, {})
      case Halted => Out(n, 0, End.Halted, {})
      case Failed => Then(Out(n, 0, Ran, {b}), FreeBlock(n, b))
      case Buffer(j) =>
        var r := Released(FreeIndexes(n, j, dead, F.WORDS), j);
        if !Goes(r.end) then r else Then(r, FreeBlock(r.m, b))
  }

  function SetPointer(m: Mounted, f: nat, i: nat, v: nat): (r: Mounted)
    requires Fit(m) && f < |m.inodes| && i < 9
    ensures Kin(m, r)
  {
    m.(inodes := m.inodes[f := m.inodes[f].(data := m.inodes[f].data[i := v])])
  }

  function FreeDirect(m: Mounted, f: nat, n: nat): (r: Out)
    requires Fit(m) && f < |m.inodes| && n <= F.DIRECT
    ensures Kin(m, r.m)
  {
    if n == 0 then Out(m, 0, Ran, {})
    else
      var r := FreeDirect(m, f, n - 1);
      if !Goes(r.end) then r
      else
        var v := r.m.inodes[f].data[n - 1];
        var o := if v == 0 then r else Then(r, FreeBlock(r.m, v));
        if !Goes(o.end) then o else o.(m := SetPointer(o.m, f, n - 1, 0))
  }

  function ClearInode(m: Mounted, f: nat): (r: Mounted)
    requires Fit(m) && f < |m.inodes|
    ensures Kin(m, r)
  {
    var n := SetPointer(SetPointer(m, f, F.INDEX_LEVEL1, 0), f, F.INDEX_LEVEL2, 0);
    n.(inodes := n.inodes[f := n.inodes[f].(size := 0)])
  }

  function Truncate(m: Mounted, f: nat, dead: set<nat>): (r: Out)
    requires Fit(m) && f < |m.inodes|
    ensures Kin(m, r.m)
  {
    var p := FreeDirect(m, f, F.DIRECT);
    if !Goes(p.end) then p
    else
      var q := Then(p, FreeLevel1(p.m, p.m.inodes[f].data[F.INDEX_LEVEL1], dead));
      if !Goes(q.end) then q
      else
        var r := Then(q, FreeLevel2(q.m, q.m.inodes[f].data[F.INDEX_LEVEL2], dead));
        if !Goes(r.end) then r else r.(m := ClearInode(r.m, f))
  }
}
