// The free blocks in the order in which new_block hands them out, and exactly when ib_map_new fails.
module FilesFree {
  import opened Base
  import opened FilesModel
  import opened FilesInvariant
  import opened FilesMap

  // ---- the free list -------------------------------------------------------------------------

  // The free blocks of the zone from b on, in ascending order.
  function FreeFrom(s: FS, b: nat): seq<nat>
    requires Shaped(s) && s.first <= b <= s.nblocks
    decreases s.nblocks - b
  {
    if b == s.nblocks then [] else (if Bit(s, b) then [] else [b]) + FreeFrom(s, b + 1)
  }

  function FreeList(s: FS): seq<nat>
    requires Shaped(s)
  {
    FreeFrom(s, s.first)
  }

  // Below b nothing is free, so the list starts at b.
  lemma {:induction false} SkipUsed(s: FS, a: nat, b: nat)
    requires Shaped(s) && s.first <= a <= b <= s.nblocks && forall c: nat :: a <= c < b ==> Bit(s, c)
    ensures FreeFrom(s, a) == FreeFrom(s, b)
    decreases b - a
  {
    if a < b { SkipUsed(s, a + 1, b); }
  }

  lemma {:induction false} SameFrom(s: FS, t: FS, b: nat)
    requires Shaped(s) && Shaped(t) && t.first == s.first && t.nblocks == s.nblocks && s.first <= b <= s.nblocks
    requires forall c: nat :: b <= c < s.nblocks ==> Bit(t, c) == Bit(s, c)
    ensures FreeFrom(t, b) == FreeFrom(s, b)
    decreases s.nblocks - b
  {
    if b < s.nblocks { SameFrom(s, t, b + 1); }
  }

  // new_block takes the head of the list; on an empty list it fails.
  lemma NewTakesHead(s: FS)
    requires Shaped(s)
    ensures var (t, b) := NewBlock(s);
      && Shaped(t)
      && (b == 0 <==> FreeList(s) == [])
      && (b == 0 ==> FreeList(t) == [])
      && (b != 0 ==> FreeList(s) == [b] + FreeList(t))
  {
    hide NewBlock;
    NewBlockExact(s);
    var (t, b) := NewBlock(s);
    if b == 0 {
      SkipUsed(s, s.first, s.nblocks);
      SkipUsed(t, s.first, s.nblocks);
    } else {
      SkipUsed(s, s.first, b);
      SameFrom(s, t, b + 1);
      SkipUsed(t, s.first, b + 1);
    }
  }

  // ---- what ib_map_new needs -----------------------------------------------------------------

  function One(b: bool): nat { if b then 1 else 0 }

  // How many blocks are missing on the way to leaf x, itself included.
  function Missing(s: FS, x: Slot): nat {
    match x
    case SingleEntry(f, i) => One(Val(s, Single(f)) == 0) + One(Val(s, x) == 0)
    case DoubleEntry(f, i, j) => One(Val(s, Double(f)) == 0) + One(Val(s, DoubleIndex(f, i)) == 0) + One(Val(s, x) == 0)
    case _ => One(Val(s, x) == 0)
  }

  // An index block that is there already cannot be read.
  predicate Blocked(s: FS, x: Slot, bad: set<nat>) {
    match x
    case SingleEntry(f, i) => Val(s, Single(f)) != 0 && Val(s, Single(f)) in bad
    case DoubleEntry(f, i, j) =>
      || (Val(s, Double(f)) != 0 && Val(s, Double(f)) in bad)
      || (Val(s, DoubleIndex(f, i)) != 0 && Val(s, DoubleIndex(f, i)) in bad)
    case _ => false
  }

  // A missing index block is taken from the free list and cannot be read; the last block taken is
  // the data block.
  predicate NewBlocked(free: seq<nat>, missing: nat, bad: set<nat>) {
    exists i :: 0 <= i < missing - 1 && i < |free| && free[i] in bad
  }

  predicate Fails(s: FS, x: Slot, bad: set<nat>)
    requires Shaped(s)
  {
    Blocked(s, x, bad) || Missing(s, x) > |FreeList(s)| || NewBlocked(FreeList(s), Missing(s, x), bad)
  }

  // Taking a block for one slot.
  lemma TakeFromList(s: FS, x: Slot)
    requires Safe(s) && Placed(s, x)
    ensures Shaped(s)
    ensures var (t, b) := Take(s, x);
      && Safe(t) && Shaped(t) && |t.inodes| == |s.inodes| && Val(t, x) == b < |t.disk|
      && (forall y :: y != x ==> Val(t, y) == Val(s, y))
      && (Val(s, x) != 0 ==> (t, b) == (s, Val(s, x)))
      && (Val(s, x) == 0 && FreeList(s) == [] ==> b == 0)
      && (Val(s, x) == 0 && FreeList(s) != [] ==> b == FreeList(s)[0] && b != 0 && FreeList(t) == FreeList(s)[1..])
  {
    hide Val, FreeList, NewBlock, Placed, Safe, Sound;
    SafeShaped(s);
    TakeKeeps(s, x);
    if Val(s, x) == 0 {
      NewTakesHead(s);
      var (t, b) := NewBlock(s);
      if b != 0 {
        StoreFrame(t, x, b);
        SameList(t, Store(t, x, b));
      }
    }
  }

  lemma SameList(s: FS, t: FS)
    requires Shaped(s) && Shaped(t) && t.first == s.first && t.nblocks == s.nblocks && t.bits == s.bits
    ensures FreeList(t) == FreeList(s)
  {
    SameFrom(s, t, s.first);
  }

  // The first `missing - 1` blocks of the list, with the head taken.
  lemma NextBlocked(free: seq<nat>, missing: nat, bad: set<nat>)
    requires free != [] && missing >= 2
    ensures NewBlocked(free, missing, bad) <==> free[0] in bad || NewBlocked(free[1..], missing - 1, bad)
  {
    if i :| 0 <= i < missing - 1 && i < |free| && free[i] in bad {
      if i > 0 { assert free[1..][i - 1] in bad; }
    }
    if i :| 0 <= i < missing - 2 && i < |free[1..]| && free[1..][i] in bad { assert free[i + 1] in bad; }
  }

  // Two slots one below the other: the index block z and the slot x in it.
  lemma TwoFail(s: FS, z: Slot, x: Slot, bad: set<nat>)
    requires Safe(s) && Shaped(s) && Placed(s, z) && !IsLeaf(z) && IsLeaf(x)
    requires (x.SingleEntry? || x.DoubleEntry?) && Holder(x) == z && Index(x) < WORDS
    requires x.DoubleEntry? ==> x.i < WORDS
    ensures Val(s, z) == 0 ==> Val(s, x) == 0
    ensures var (t, c) := Take(s, z);
      var b := if c == 0 || c in bad then 0 else Take(t, x).1;
      var missing := One(Val(s, z) == 0) + One(Val(s, x) == 0);
      b == 0 <==>
        (Val(s, z) != 0 && Val(s, z) in bad) || missing > |FreeList(s)| || NewBlocked(FreeList(s), missing, bad)
  {
    hide Safe, Take, FreeList, NewBlocked;
    TakeFromList(s, z);
    var (t, c) := Take(s, z);
    if c != 0 && c !in bad {
      assert Placed(t, x);
      TakeFromList(t, x);
    }
    NoneBlocked(FreeList(s), bad);
    if Val(s, z) == 0 && FreeList(s) != [] {
      NextBlocked(FreeList(s), 2, bad);
      NoneBlocked(FreeList(s)[1..], bad);
    }
  }

  lemma NoneBlocked(free: seq<nat>, bad: set<nat>)
    ensures !NewBlocked(free, 0, bad) && !NewBlocked(free, 1, bad)
  {
  }

  lemma DoubleFails(s: FS, f: nat, i: nat, j: nat, bad: set<nat>)
    requires Safe(s) && Shaped(s) && f < |s.inodes| && i < WORDS && j < WORDS
    ensures NewInDouble(s, f, i, j, bad).1 == 0 <==> Fails(s, DoubleEntry(f, i, j), bad)
  {
    hide Safe, Take, FreeList, NewBlocked;
    var y, z, x := Double(f), DoubleIndex(f, i), DoubleEntry(f, i, j);
    TakeFromList(s, y);
    var (t, c) := Take(s, y);
    if c != 0 && c !in bad {
      assert Placed(t, z);
      TwoFail(t, z, x, bad);
    }
    if Val(s, y) == 0 {
      assert Val(s, z) == 0 && Val(s, x) == 0;
      if FreeList(s) != [] { NextBlocked(FreeList(s), 3, bad); }
    }
  }

  // ib_map_new returns 0 exactly when the block number is out of range, an index block on the way
  // cannot be read, be it there already or newly taken, or there are fewer free blocks than are
  // missing on the way.
  lemma NewFails(s: FS, f: nat, n: int, bad: set<nat>)
    requires Safe(s) && f < |s.inodes|
    ensures Shaped(s)
    ensures IbMapNew(s, f, n, bad).1 == 0 <==> !(0 <= n < LIMIT) || Fails(s, Leaf(f, n), bad)
  {
    hide Safe, Take, FreeList, NewBlocked, NewInSingle, NewInDouble, Val;
    SafeShaped(s);
    ThreeLevels(s, f, n, bad);
    if 0 <= n < DIRECT {
      TakeFromList(s, Direct(f, n));
      NoneBlocked(FreeList(s), bad);
    } else if DIRECT <= n < DIRECT + WORDS {
      TwoFail(s, Single(f), SingleEntry(f, n - DIRECT), bad);
      SingleIsTwo(s, f, n - DIRECT, bad);
    } else if DIRECT + WORDS <= n < LIMIT {
      var m := n - (DIRECT + WORDS);
      DoubleFails(s, f, m / WORDS, m % WORDS, bad);
    }
  }

  lemma SingleIsTwo(s: FS, f: nat, i: nat, bad: set<nat>)
    requires Shaped(s)
    ensures var (t, c) := Take(s, Single(f));
      NewInSingle(s, f, i, bad).1 == if c == 0 || c in bad then 0 else Take(t, SingleEntry(f, i)).1
  {
    hide Take;
  }
}
