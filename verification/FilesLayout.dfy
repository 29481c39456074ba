// Where things lie on the disk: the bytes of index words, the way from an inode to a block of its file, and the bit of
// the map that stands for a block.
module FilesLayout {
  import opened Base
  import opened FilesModel
  import opened FilesInvariant
  import opened FilesMap

  // ---- index words ---------------------------------------------------------------------------

  // A 16-bit word lies in two bytes, the low one first.
  function WordIn(b: Block, i: nat): nat
    requires i < 512
  {
    b[2 * i] as nat + 256 * b[2 * i + 1] as nat
  }

  // Storing v changes the two bytes of its word, to v modulo 256 and v / 256, and no other.
  lemma WordBytes(b: Block, i: nat, v: nat)
    requires i < WORDS && v < 0x10000
    ensures i < 512 && U16At(b, i) == WordIn(b, i)
    ensures forall k :: 0 <= k < 1024 ==>
      PutU16(b, i, v)[k] as nat == if k == 2 * i then v % 256 else if k == 2 * i + 1 then v / 256 else b[k] as nat
  {
  }

  // ---- from an inode to a block --------------------------------------------------------------

  // Entry i of the index block p, read from its bytes; 0 if there is no such block or it cannot be read.
  function Follow(s: FS, p: nat, i: nat, bad: set<nat>): nat
    requires i < 512
  {
    if 0 < p < |s.disk| && p !in bad then WordIn(s.disk[p], i) else 0
  }

  // Seven block numbers in the inode; the next 512 in the index block that its eighth number names; and 512 times
  // 512 more under the one that its ninth names.
  function Walk(s: FS, f: nat, n: int, bad: set<nat>): nat {
    if n < 0 || f >= |s.inodes| then 0
    else if n < 7 then s.inodes[f].data[n]
    else if n < 519 then Follow(s, s.inodes[f].data[7], n - 7, bad)
    else if n < 262663 then Follow(s, Follow(s, s.inodes[f].data[8], (n - 519) / 512, bad), (n - 519) % 512, bad)
    else 0
  }

  // ib_map walks that way, for every file, block number and set of unreadable blocks.
  lemma MapIsWalk(s: FS, f: nat, n: int, bad: set<nat>)
    requires Shaped(s)
    ensures IbMap(s, f, n, bad) == Walk(s, f, n, bad)
  {
    hide Shaped;
    if 519 <= n < 262663 {
      var m := n - 519;
      assert Leaf(f, n) == DoubleEntry(f, m / 512, m % 512);
      assert 0 <= m / 512 < 512;
    }
  }

  // After ib_map_new the block that it returned is at the end of that way. No other way leads elsewhere than before,
  // and none that led to a block.
  lemma NewIsWalked(s: FS, f: nat, n: int, g: nat, m: int, bad: set<nat>)
    requires Safe(s) && f < |s.inodes|
    ensures Shaped(s)
    ensures var (t, b) := IbMapNew(s, f, n, bad);
      && (b != 0 ==> Walk(t, f, n, bad) == b)
      && ((g, m) != (f, n) || Walk(s, g, m, {}) != 0 ==> Walk(t, g, m, {}) == Walk(s, g, m, {}))
  {
    hide Safe, IbMapNew, IbMap, Walk;
    SafeShaped(s);
    var t := IbMapNew(s, f, n, bad).0;
    NewChangesOneEntry(s, f, n, g, m, bad);
    MapIsWalk(t, f, n, bad);
    MapIsWalk(s, g, m, {});
    MapIsWalk(t, g, m, {});
  }

  // ---- the map of free blocks ----------------------------------------------------------------

  // Block b of the zone is bit b - first + 1. free_block clears that bit, and halts where b lies outside or the bit
  // is clear.
  lemma FreedBit(s: FS, b: nat)
    requires Shaped(s)
    ensures s.first <= b < s.nblocks ==> b - s.first + 1 < |s.bits|
    ensures FreeBlock(s, b) ==
      if s.first <= b < s.nblocks && s.bits[b - s.first + 1]
      then Some(s.(bits := s.bits[b - s.first + 1 := false])) else None
  {
  }

  // new_block sets the first clear bit, whatever it stands for. If that is a block of the zone it is zeroed and
  // returned; if there is none, or it stands for none, 0 is.
  lemma TakenBit(s: FS, i: nat)
    requires Shaped(s) && i <= |s.bits|
    requires (forall j :: 0 <= j < i ==> s.bits[j]) && (i < |s.bits| ==> !s.bits[i])
    ensures i < |s.bits| ==> i >= 1
    ensures NewBlock(s) ==
      if i == |s.bits| then (s, 0)
      else if s.first + i - 1 >= s.nblocks then (s.(bits := s.bits[i := true]), 0)
      else (s.(bits := s.bits[i := true], disk := s.disk[s.first + i - 1 := ZeroBlock()]), s.first + i - 1)
  {
    assert FirstClear(s.bits, 0) == i;
  }
}
