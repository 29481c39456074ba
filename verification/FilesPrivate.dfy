// Files as private arrays: for each file a size and its bytes, with no disk behind them.
module FilesPrivate {
  import opened Base
  import opened FilesModel
  import opened FilesInvariant
  import opened FilesMap
  import T = FilesTruncate
  import opened FilesData

  // ---- the simple machine --------------------------------------------------------------------

  const END: nat := LIMIT * BLOCK_SIZE   // bytes a file can have

  // A byte is missing until it is written or its block is mapped.
  datatype Private = Private(size: nat, bytes: map<nat, byte>)

  const NOTHING: Private := Private(0, map[])

  function At(x: Private, p: nat): Option<byte> { if p in x.bytes then Some(x.bytes[p]) else None }

  ghost function Bytes(v: nat -> Option<byte>): (r: map<nat, byte>)
    ensures forall p: nat :: p in r <==> p < END && v(p).Some?
    ensures forall p :: p in r ==> r[p] == v(p).value
  {
    map p: nat | p < END && v(p).Some? :: v(p).value
  }

  // How a call ends: the number of bytes that file_write reports, and whether one more block was mapped than the
  // bytes need, or any by ib_map_new.
  datatype Outcome = Outcome(count: nat, more: bool)

  // The blocks of n bytes at pos, and with `more` the block after them.
  function Blocks(pos: nat, n: nat, more: bool): (r: set<nat>)
    ensures forall j :: j in r <==>
      pos / BLOCK_SIZE <= j <= (pos + n) / BLOCK_SIZE && (more || (n > 0 && j * BLOCK_SIZE < pos + n))
  {
    set j: nat | pos / BLOCK_SIZE <= j <= (pos + n) / BLOCK_SIZE && (more || (n > 0 && j * BLOCK_SIZE < pos + n))
  }

  // file_write: the start of an append and the new size come from the array's own size.
  ghost function Written(x: Private, h: File, d: seq<byte>, o: Outcome): Private {
    var pos := if h.append then x.size else h.offset;
    var n := Min(o.count, |d|);
    Private(if n > 0 && pos + n > x.size then pos + n else x.size,
            Bytes((p: nat) => After(At(x, p), 0, pos, n, d, Blocks(pos, n, o.more), 0, p)))
  }

  // ib_map_new.
  ghost function Extended(x: Private, n: int, o: Outcome): Private {
    if !o.more then x
    else x.(bytes := Bytes((p: nat) => if At(x, p) == None && p / BLOCK_SIZE == n then Some(0) else At(x, p)))
  }

  // ---- the disk as such a machine ------------------------------------------------------------

  ghost function ViewOf(s: FS, f: nat): Private
    requires f < |s.inodes|
  {
    Private(s.inodes[f].size, Bytes((p: nat) => FileByte(s, f, p)))
  }

  ghost function View(s: FS): (r: seq<Private>)
    ensures |r| == |s.inodes| && forall f :: 0 <= f < |r| ==> r[f] == ViewOf(s, f)
  {
    seq(|s.inodes|, f requires 0 <= f < |s.inodes| => ViewOf(s, f))
  }

  // No byte lies past the largest size.
  lemma ViewAt(s: FS, f: nat, p: nat)
    requires Safe(s) && f < |s.inodes|
    ensures At(ViewOf(s, f), p) == FileByte(s, f, p)
  {
    hide FileByte, Safe, Val, Leaf;
    ByteOfLeaf(s, f, p);
  }

  // What has the same bytes has the same map.
  lemma SameBytes(x: Private, v: nat -> Option<byte>)
    requires forall p :: p in x.bytes ==> p < END
    requires forall p :: 0 <= p < END ==> At(x, p) == v(p)
    ensures x.bytes == Bytes(v)
  {
    forall p | p in x.bytes ensures p in Bytes(v) && Bytes(v)[p] == x.bytes[p] { assert At(x, p) == v(p); }
    forall p | p in Bytes(v) ensures p in x.bytes { assert At(x, p) == v(p); }
  }

  // ---- file_write ----------------------------------------------------------------------------

  ghost function WriteOutcome(s: FS, f: nat, h: File, d: seq<byte>, bad: nat -> set<nat>): Outcome
    requires Shaped(s) && f < |s.inodes|
  {
    var n := FileWrite(s, f, h, d, bad).2;
    Outcome(n, (WriteStart(s, f, h) + n) / BLOCK_SIZE in WriteMaps(s, f, h, d, bad))
  }

  // The blocks mapped are as the outcome says.
  lemma MapsAreBlocks(s: FS, f: nat, h: File, d: seq<byte>, bad: nat -> set<nat>)
    requires Shaped(s) && f < |s.inodes|
    ensures var o := WriteOutcome(s, f, h, d, bad);
      WriteMaps(s, f, h, d, bad) == Blocks(WriteStart(s, f, h), o.count, o.more)
  {
    hide FileWrite, WriteMaps, Shaped;
    WriteMapsBlocks(s, f, h, d, bad);
    var o := WriteOutcome(s, f, h, d, bad);
    var (pos, n, m) := (WriteStart(s, f, h), o.count, WriteMaps(s, f, h, d, bad));
    forall j: nat ensures j in m <==> j in Blocks(pos, n, o.more) {
      if pos / BLOCK_SIZE <= j && j * BLOCK_SIZE < pos + n && n > 0 {
        var p := if j * BLOCK_SIZE < pos then pos else j * BLOCK_SIZE;
        assert p / BLOCK_SIZE == j;
      }
      if j in m && !(j * BLOCK_SIZE < pos + n && n > 0) { assert j == (pos + n) / BLOCK_SIZE; }
    }
  }

  lemma WriteView(s: FS, f: nat, h: File, d: seq<byte>, bad: nat -> set<nat>)
    requires Safe(s) && f < |s.inodes|
    ensures Shaped(s)
    ensures View(FileWrite(s, f, h, d, bad).0) ==
      View(s)[f := Written(View(s)[f], h, d, WriteOutcome(s, f, h, d, bad))]
  {
    hide Safe, Sound, Shaped, FileByte, FileWrite, WriteMaps, ZoneFull, NoErrors, After;
    SafeShaped(s);
    FileWriteKeeps(s, f, h, d, bad);
    var t := FileWrite(s, f, h, d, bad).0;
    forall g | 0 <= g < |s.inodes|
      ensures ViewOf(t, g) ==
        if g == f then Written(ViewOf(s, f), h, d, WriteOutcome(s, f, h, d, bad)) else ViewOf(s, g)
    {
      WriteViewOf(s, f, h, d, bad, g);
    }
  }

  lemma WriteViewOf(s: FS, f: nat, h: File, d: seq<byte>, bad: nat -> set<nat>, g: nat)
    requires Safe(s) && f < |s.inodes| && g < |s.inodes|
    ensures Shaped(s) && g < |FileWrite(s, f, h, d, bad).0.inodes|
    ensures ViewOf(FileWrite(s, f, h, d, bad).0, g) ==
      if g == f then Written(ViewOf(s, f), h, d, WriteOutcome(s, f, h, d, bad)) else ViewOf(s, g)
  {
    hide Safe, Sound, Shaped, FileByte, FileWrite, WriteMaps, ZoneFull, NoErrors;
    SafeShaped(s);
    FileWriteKeeps(s, f, h, d, bad);
    MapsAreBlocks(s, f, h, d, bad);
    var (t, h1, n) := FileWrite(s, f, h, d, bad);
    var o := WriteOutcome(s, f, h, d, bad);
    var pos := WriteStart(s, f, h);
    forall p: nat | p < END
      ensures At(ViewOf(t, g), p) ==
        if g == f then After(At(ViewOf(s, f), p), 0, pos, n, d, Blocks(pos, n, o.more), 0, p) else At(ViewOf(s, g), p)
    {
      FileWriteBytes(s, f, h, d, bad, g, p);
      ViewAt(s, g, p);
      ViewAt(t, g, p);
    }
    if g == f {
      SameBytes(ViewOf(t, f), (p: nat) => After(At(ViewOf(s, f), p), 0, pos, n, d, Blocks(pos, n, o.more), 0, p));
    } else {
      SameMaps(ViewOf(t, g), ViewOf(s, g));
    }
  }

  lemma SameMaps(x: Private, y: Private)
    requires forall p :: p in x.bytes || p in y.bytes ==> p < END
    requires forall p :: 0 <= p < END ==> At(x, p) == At(y, p)
    ensures x.bytes == y.bytes
  {
    forall p | p in x.bytes || p in y.bytes ensures p in x.bytes && p in y.bytes && x.bytes[p] == y.bytes[p] {
      assert At(x, p) == At(y, p);
    }
  }

  // ---- ib_map_new and truncate ---------------------------------------------------------------

  ghost function NewOutcome(s: FS, f: nat, n: int, bad: set<nat>): Outcome
    requires Shaped(s)
  {
    Outcome(0, IbMapNew(s, f, n, bad).1 != 0)
  }

  lemma NewView(s: FS, f: nat, n: int, bad: set<nat>)
    requires Safe(s) && f < |s.inodes|
    ensures Shaped(s)
    ensures View(IbMapNew(s, f, n, bad).0) == View(s)[f := Extended(View(s)[f], n, NewOutcome(s, f, n, bad))]
  {
    hide Safe, Sound, Shaped, FileByte, IbMapNew;
    SafeShaped(s);
    var t := IbMapNew(s, f, n, bad).0;
    forall g | 0 <= g < |s.inodes|
      ensures g < |t.inodes|
      ensures ViewOf(t, g) == if g == f then Extended(ViewOf(s, f), n, NewOutcome(s, f, n, bad)) else ViewOf(s, g)
    {
      NewViewOf(s, f, n, bad, g);
    }
  }

  lemma NewViewOf(s: FS, f: nat, n: int, bad: set<nat>, g: nat)
    requires Safe(s) && f < |s.inodes| && g < |s.inodes|
    ensures Shaped(s)
    ensures ViewOf(IbMapNew(s, f, n, bad).0, g) ==
      if g == f then Extended(ViewOf(s, f), n, NewOutcome(s, f, n, bad)) else ViewOf(s, g)
  {
    hide Safe, Sound, Shaped, FileByte, IbMapNew, Mapped, Leaf, ZoneFull;
    SafeShaped(s);
    IbMapNewKeeps(s, f, n, bad);
    NewSizes(s, f, n, bad);
    var (t, b) := IbMapNew(s, f, n, bad);
    var x := ViewOf(s, g);
    forall p: nat | p < END
      ensures At(ViewOf(t, g), p) ==
        if b != 0 && g == f && At(x, p) == None && p / BLOCK_SIZE == n then Some(0) else At(x, p)
    {
      MapByte(s, f, n, bad, g, p);
      ViewAt(s, g, p);
      ViewAt(t, g, p);
    }
    if g == f && b != 0 {
      SameBytes(ViewOf(t, f), (p: nat) => if At(x, p) == None && p / BLOCK_SIZE == n then Some(0) else At(x, p));
    } else {
      SameMaps(ViewOf(t, g), x);
    }
  }

  lemma NewSizes(s: FS, f: nat, n: int, bad: set<nat>)
    requires Safe(s) && f < |s.inodes|
    ensures Shaped(s)
    ensures var t := IbMapNew(s, f, n, bad).0;
      |t.inodes| == |s.inodes| && forall g :: 0 <= g < |s.inodes| ==> t.inodes[g].size == s.inodes[g].size
  {
    hide Safe, Sound, IbMapNew, Leaf, Readable, Val;
    SafeShaped(s);
    IbMapNewKeeps(s, f, n, bad);
  }

  lemma CutView(s: FS, f: nat, bad: set<nat>)
    requires Safe(s) && f < |s.inodes|
    ensures Shaped(s) && Truncate(s, f, bad).Some?
    ensures View(Truncate(s, f, bad).value) == View(s)[f := NOTHING]
  {
    hide Safe, Sound, Shaped, FileByte, Truncate, Val;
    T.TruncateKeeps(s, f, bad);
    var t := Truncate(s, f, bad).value;
    forall g | 0 <= g < |s.inodes| ensures ViewOf(t, g) == if g == f then NOTHING else ViewOf(s, g) {
      forall p: nat | p < END ensures At(ViewOf(t, g), p) == if g == f then None else At(ViewOf(s, g), p) {
        CutByte(s, f, bad, g, p);
        ViewAt(s, g, p);
        ViewAt(t, g, p);
      }
      SameMaps(ViewOf(t, g), if g == f then NOTHING else ViewOf(s, g));
    }
  }

  lemma CutByte(s: FS, f: nat, bad: set<nat>, g: nat, p: nat)
    requires Safe(s) && f < |s.inodes|
    ensures Shaped(s) && Truncate(s, f, bad).Some?
    ensures FileByte(Truncate(s, f, bad).value, g, p) == if f == g then None else FileByte(s, g, p)
  {
    hide Safe, Sound, Val, Shaped, Leaf, Truncate, FileByte;
    T.TruncateKeeps(s, f, bad);
    var t := Truncate(s, f, bad).value;
    ByteOfLeaf(s, g, p);
    ByteOfLeaf(t, g, p);
    LeafFile(g, p / BLOCK_SIZE);
  }

  lemma LeafFile(g: nat, n: nat)
    ensures n < LIMIT ==> Leaf(g, n).f == g
  {
  }
}
