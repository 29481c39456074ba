// The block map of a file: ib_map_new extends it at one place and changes nothing else.
module FilesMap {
  import opened Base
  import opened FilesModel
  import opened FilesInvariant

  predicate IsLeaf(x: Slot) { x.Direct? || x.SingleEntry? || x.DoubleEntry? }

  // x is y, or an index block above y.
  predicate OnPath(x: Slot, y: Slot) {
    || x == y
    || match y
       case SingleEntry(f, i) => x == Single(f)
       case DoubleIndex(f, i) => x == Double(f)
       case DoubleEntry(f, i, j) => x == Double(f) || x == DoubleIndex(f, i)
       case _ => false
  }

  lemma LeafInjective(f: nat, n: nat, g: nat, m: nat)
    requires n < LIMIT && m < LIMIT
    ensures IsLeaf(Leaf(f, n)) && Leaf(f, n).f == f
    ensures Leaf(f, n) == Leaf(g, m) <==> f == g && n == m
    ensures OnPath(Leaf(g, m), Leaf(f, n)) <==> f == g && n == m
  {
    var p, q := n - (DIRECT + WORDS), m - (DIRECT + WORDS);
    assert p == WORDS * (p / WORDS) + p % WORDS && q == WORDS * (q / WORDS) + q % WORDS;
  }

  // Every leaf slot is some block of a file.
  lemma LeafOnto(x: Slot)
    requires IsLeaf(x) && (x.Direct? ==> x.i < DIRECT) && (!x.Direct? ==> x.i < WORDS)
    requires x.DoubleEntry? ==> x.j < WORDS
    ensures exists n: nat :: n < LIMIT && Leaf(x.f, n) == x
  {
    var n := match x
      case Direct(_, i) => i
      case SingleEntry(_, i) => DIRECT + i
      case DoubleEntry(_, i, j) => DIRECT + WORDS + WORDS * i + j
      case _ => 0;
    if x.DoubleEntry? {
      DivUnique(n - (DIRECT + WORDS), WORDS, x.i, x.j);
    }
    assert Leaf(x.f, n) == x;
  }

  // ---- one slot ------------------------------------------------------------------------------

  // File data, sizes and the geometry of the disk are kept.
  ghost predicate Carries(s: FS, t: FS) {
    && Shaped(s) && Shaped(t) && t.first == s.first && t.nblocks == s.nblocks
    && |t.inodes| == |s.inodes| && (forall f :: 0 <= f < |s.inodes| ==> t.inodes[f].size == s.inodes[f].size)
    && forall y :: Val(s, y) != 0 ==> KeptAt(s, t, y)
  }

  predicate KeptAt(s: FS, t: FS, y: Slot) {
    && Val(t, y) == Val(s, y)
    && (IsLeaf(y) && Val(s, y) < |s.disk| && Val(s, y) < |t.disk| ==> t.disk[Val(s, y)] == s.disk[Val(s, y)])
  }

  // A store in the tree touches no data block.
  lemma StoreKeepsData(t: FS, o: Owner, x: Slot, b: nat, c: nat)
    requires Prepared(t, o, b) && Placed(t, x) && c < |t.disk|
    requires c in o && IsLeaf(o[c])
    ensures Store(t, x, b).disk[c] == t.disk[c]
  {
    if x.SingleEntry? || x.DoubleIndex? || x.DoubleEntry? {
      assert Val(t, Holder(x)) in o && o[Val(t, Holder(x))] == Holder(x);
    }
  }

  // What taking a block for slot x does.
  ghost predicate Took(s: FS, t: FS, x: Slot, b: nat) {
    && Carries(s, t) && Val(t, x) == b
    && (forall y :: y != x ==> Val(t, y) == Val(s, y))
    && (b == 0 <==> Val(s, x) == 0 && ZoneFull(s))
    && (b == 0 ==> ZoneFull(t))
    && (b != 0 ==> b < t.nblocks && (Val(s, x) == 0 && IsLeaf(x) ==> t.disk[b] == ZeroBlock()))
  }

  lemma FreshCarries(s: FS, o: Owner, x: Slot, b: nat)
    requires Owned(s, o) && InZone(s, b) && !Bit(s, b) && Placed(s, x) && Val(s, x) == 0
    requires Attached(s, Store(Fresh(s, b), x, b), x, b)
    ensures Carries(s, Store(Fresh(s, b), x, b))
    ensures IsLeaf(x) ==> Store(Fresh(s, b), x, b).disk[b] == ZeroBlock()
  {
    var t := Fresh(s, b);
    var u := Store(t, x, b);
    AttachPrepared(s, o, x, b);
    StoreFrame(t, x, b);
    hide Store, Placed;
    forall y | Val(s, y) != 0 ensures KeptAt(s, u, y) {
      if IsLeaf(y) { StoreKeepsData(t, o, x, b, Val(s, y)); }
    }
    if IsLeaf(x) { StoreSkipsFresh(t, o, x, b); }
  }

  lemma StoreSkipsFresh(t: FS, o: Owner, x: Slot, b: nat)
    requires Prepared(t, o, b) && Placed(t, x)
    ensures Store(t, x, b).disk[b] == t.disk[b]
  {
    if x.SingleEntry? || x.DoubleIndex? || x.DoubleEntry? {
      assert Val(t, Holder(x)) in o;
    }
  }

  lemma TakeFree(s: FS, o: Owner, x: Slot)
    requires Owned(s, o) && Placed(s, x) && Val(s, x) == 0
    ensures var (t, b) := Take(s, x); Took(s, t, x, b)
    ensures var (t, b) := Take(s, x); Owned(t, if b == 0 then o else o[b := x])
    ensures var (t, b) := Take(s, x); NoLeak(s, o) ==> NoLeak(t, if b == 0 then o else o[b := x])
  {
    NewBlockExact(s);
    var (t, b) := NewBlock(s);
    if b == 0 {
      PaddingChangesNothing(s, t);
      SameUseOwned(s, t, o);
    } else {
      AttachIsAttached(s, o, x, b);
      FreshCarries(s, o, x, b);
      AttachedKeeps(s, o, Store(Fresh(s, b), x, b), x, b);
      hide Val, Store, Owned, Placed, NewBlock;
      assert t == Fresh(s, b);
    }
  }

  // Bits beyond the zone concern nobody.
  lemma PaddingChangesNothing(s: FS, t: FS)
    requires Shaped(s) && Shaped(t) && t == s.(bits := t.bits)
    requires forall b: nat :: InZone(s, b) ==> Bit(t, b) == Bit(s, b)
    ensures SameUse(s, t) && Carries(s, t)
  {
    assert forall c, i :: Word(t, c, i) == Word(s, c, i);
    assert forall y :: Val(t, y) == Val(s, y);
  }

  lemma TakeHeld(s: FS, x: Slot)
    requires Safe(s) && Val(s, x) != 0
    ensures Took(s, s, x, Val(s, x))
  {
    SafeMeans(s);
    hide Val;
  }

  lemma TakeKeeps(s: FS, x: Slot)
    requires Safe(s) && Placed(s, x)
    ensures var (t, b) := Take(s, x); Safe(t) && (Sound(s) ==> Sound(t)) && Took(s, t, x, b)
  {
    hide Val, Owned, NoLeak, Took, NewBlock, Placed, Store;
    if Val(s, x) == 0 {
      var o := AnOwner(s);
      TakeFree(s, o, x);
    } else {
      TakeHeld(s, x);
    }
  }

  // ---- ib_map_new ----------------------------------------------------------------------------

  // What ib_map_new does for leaf x, returning b.
  ghost predicate Mapped(s: FS, t: FS, x: Slot, b: nat, bad: set<nat>) {
    && Carries(s, t)
    && (forall y :: !OnPath(y, x) ==> Val(t, y) == Val(s, y))
    && (b != 0 ==> Val(t, x) == b < t.nblocks && Readable(t, x, bad))
    && (b != 0 && Val(s, x) == 0 ==> t.disk[b] == ZeroBlock())
    && (b == 0 ==> Val(t, x) == Val(s, x) && (!Readable(t, x, bad) || (Val(t, x) == 0 && ZoneFull(t))))
  }

  lemma CarriesTrans(s: FS, t: FS, u: FS)
    requires Carries(s, t) && Carries(t, u)
    ensures Carries(s, u)
  {
    forall y | Val(s, y) != 0 ensures KeptAt(s, u, y) {
      assert KeptAt(s, t, y) && KeptAt(t, u, y);
    }
  }

  // Taking the index block z above x on the way.
  lemma MappedVia(s: FS, t: FS, u: FS, z: Slot, x: Slot, c: nat, b: nat, bad: set<nat>)
    requires OnPath(z, x) && z != x && IsLeaf(x) && Took(s, t, z, c) && c != 0 && Mapped(t, u, x, b, bad)
    ensures Mapped(s, u, x, b, bad)
  {
    hide Val, Shaped, ZoneFull, Readable;
    CarriesTrans(s, t, u);
  }

  lemma MappedLast(s: FS, t: FS, x: Slot, b: nat, bad: set<nat>)
    requires IsLeaf(x) && Took(s, t, x, b) && Readable(s, x, bad)
    ensures Mapped(s, t, x, b, bad)
  {
    assert Readable(t, x, bad);
  }

  // The walk stops at index block z: it is missing or cannot be read.
  lemma MappedStops(s: FS, t: FS, z: Slot, x: Slot, c: nat, bad: set<nat>)
    requires OnPath(z, x) && z != x && IsLeaf(x) && Took(s, t, z, c) && (c == 0 || c in bad)
    ensures Mapped(s, t, x, 0, bad)
  {
    if c == 0 { assert Val(t, x) == 0; }
  }

  // With its index block taken, a slot is placed.
  lemma TookPlaces(s: FS, t: FS, z: Slot, c: nat, x: Slot)
    requires Took(s, t, z, c) && c != 0 && z.f < |s.inodes| && !IsLeaf(z)
    requires (x.SingleEntry? || x.DoubleIndex? || x.DoubleEntry?) && Holder(x) == z && Index(x) < WORDS
    requires x.DoubleEntry? ==> x.i < WORDS
    ensures Shaped(t) && |t.inodes| == |s.inodes| && Placed(t, x) && Val(t, z) == c
    ensures z.DoubleIndex? ==> Val(t, Double(z.f)) == Val(s, Double(z.f))
  {
  }

  lemma NewInSingleKeeps(s: FS, f: nat, i: nat, bad: set<nat>)
    requires Safe(s) && Shaped(s) && f < |s.inodes| && i < WORDS
    ensures var (t, b) := NewInSingle(s, f, i, bad);
      Safe(t) && (Sound(s) ==> Sound(t)) && Mapped(s, t, SingleEntry(f, i), b, bad)
  {
    hide Val, Safe, Sound, Mapped, Carries, Take, ZoneFull, Took, Shaped;
    var x := SingleEntry(f, i);
    assert Placed(s, Single(f));
    hide Placed;
    TakeKeeps(s, Single(f));
    var (t, c) := Take(s, Single(f));
    if c == 0 || c in bad {
      MappedStops(s, t, Single(f), x, c, bad);
    } else {
      TookPlaces(s, t, Single(f), c, x);
      TakeKeeps(t, x);
      MappedLast(t, Take(t, x).0, x, Take(t, x).1, bad);
      MappedVia(s, t, Take(t, x).0, Single(f), x, c, Take(t, x).1, bad);
    }
  }

  lemma NewInIndexKeeps(s: FS, f: nat, i: nat, j: nat, bad: set<nat>)
    requires Safe(s) && Shaped(s) && Placed(s, DoubleIndex(f, i)) && i < WORDS && j < WORDS && Val(s, Double(f)) !in bad
    ensures var (t, b) := NewInIndex(s, f, i, j, bad);
      Safe(t) && (Sound(s) ==> Sound(t)) && Mapped(s, t, DoubleEntry(f, i, j), b, bad)
  {
    hide Val, Safe, Sound, Mapped, Carries, Take, ZoneFull, Took, Shaped;
    var x := DoubleEntry(f, i, j);
    TakeKeeps(s, DoubleIndex(f, i));
    var (t, d) := Take(s, DoubleIndex(f, i));
    if d == 0 || d in bad {
      MappedStops(s, t, DoubleIndex(f, i), x, d, bad);
    } else {
      TookPlaces(s, t, DoubleIndex(f, i), d, x);
      TakeKeeps(t, x);
      MappedLast(t, Take(t, x).0, x, Take(t, x).1, bad);
      MappedVia(s, t, Take(t, x).0, DoubleIndex(f, i), x, d, Take(t, x).1, bad);
    }
  }

  lemma NewInDoubleKeeps(s: FS, f: nat, i: nat, j: nat, bad: set<nat>)
    requires Safe(s) && Shaped(s) && f < |s.inodes| && i < WORDS && j < WORDS
    ensures var (t, b) := NewInDouble(s, f, i, j, bad);
      Safe(t) && (Sound(s) ==> Sound(t)) && Mapped(s, t, DoubleEntry(f, i, j), b, bad)
  {
    hide Val, Safe, Sound, Mapped, Carries, Take, ZoneFull, Took, Shaped, NewInIndex;
    assert Placed(s, Double(f));
    hide Placed;
    TakeKeeps(s, Double(f));
    var (t, c) := Take(s, Double(f));
    if c == 0 || c in bad {
      MappedStops(s, t, Double(f), DoubleEntry(f, i, j), c, bad);
    } else {
      TookPlaces(s, t, Double(f), c, DoubleIndex(f, i));
      NewInIndexKeeps(t, f, i, j, bad);
      var (u, b) := NewInIndex(t, f, i, j, bad);
      MappedVia(s, t, u, Double(f), DoubleEntry(f, i, j), c, b, bad);
    }
  }

  lemma NewInInodeKeeps(s: FS, f: nat, n: nat, bad: set<nat>)
    requires Safe(s) && Shaped(s) && f < |s.inodes| && n < DIRECT
    ensures var (t, b) := Take(s, Direct(f, n));
      Safe(t) && (Sound(s) ==> Sound(t)) && Mapped(s, t, Direct(f, n), b, bad)
  {
    hide Safe, Sound, Mapped, Val, Take, Took, Shaped;
    TakeKeeps(s, Direct(f, n));
    MappedLast(s, Take(s, Direct(f, n)).0, Direct(f, n), Take(s, Direct(f, n)).1, bad);
  }

  // The three cases of ib_map_helper, and the slot each is about.
  lemma ThreeLevels(s: FS, f: nat, n: int, bad: set<nat>)
    requires Shaped(s)
    ensures !(0 <= n < LIMIT) ==> IbMapNew(s, f, n, bad) == (s, 0)
    ensures 0 <= n < DIRECT ==> Leaf(f, n) == Direct(f, n) && IbMapNew(s, f, n, bad) == Take(s, Direct(f, n))
    ensures DIRECT <= n < DIRECT + WORDS ==>
      Leaf(f, n) == SingleEntry(f, n - DIRECT) && IbMapNew(s, f, n, bad) == NewInSingle(s, f, n - DIRECT, bad)
    ensures DIRECT + WORDS <= n < LIMIT ==>
      var m := n - (DIRECT + WORDS);
      && m / WORDS < WORDS && Leaf(f, n) == DoubleEntry(f, m / WORDS, m % WORDS)
      && IbMapNew(s, f, n, bad) == NewInDouble(s, f, m / WORDS, m % WORDS, bad)
  {
    hide Shaped, Take, NewInSingle, NewInDouble;
  }

  // ib_map_new keeps the invariant; the slot of block n holds what it returns, fresh blocks are
  // zero, and every other slot, data block and size is as before.
  lemma IbMapNewKeeps(s: FS, f: nat, n: int, bad: set<nat>)
    requires Safe(s) && f < |s.inodes|
    ensures Shaped(s)
    ensures var (t, b) := IbMapNew(s, f, n, bad);
      Safe(t) && (Sound(s) ==> Sound(t))
      && (0 <= n < LIMIT ==> Mapped(s, t, Leaf(f, n), b, bad))
      && (!(0 <= n < LIMIT) ==> t == s && b == 0)
  {
    hide *;
    SafeShaped(s);
    ThreeLevels(s, f, n, bad);
    if 0 <= n < DIRECT {
      NewInInodeKeeps(s, f, n, bad);
    } else if DIRECT <= n < DIRECT + WORDS {
      NewInSingleKeeps(s, f, n - DIRECT, bad);
    } else if DIRECT + WORDS <= n < LIMIT {
      var m := n - (DIRECT + WORDS);
      NewInDoubleKeeps(s, f, m / WORDS, m % WORDS, bad);
    }
  }

  lemma MappedEntry(s: FS, t: FS, f: nat, n: nat, b: nat, bad: set<nat>, g: nat, m: nat)
    requires n < LIMIT && m < LIMIT && Mapped(s, t, Leaf(f, n), b, bad)
    ensures (g, m) != (f, n) ==> Val(t, Leaf(g, m)) == Val(s, Leaf(g, m))
    ensures Val(s, Leaf(g, m)) != 0 ==> Val(t, Leaf(g, m)) == Val(s, Leaf(g, m))
  {
    LeafInjective(f, n, g, m);
    hide Val, Leaf, Readable;
    assert Val(s, Leaf(g, m)) != 0 ==> KeptAt(s, t, Leaf(g, m));
  }

  lemma MappedReturned(s: FS, t: FS, f: nat, n: nat, b: nat, bad: set<nat>)
    requires n < LIMIT && Mapped(s, t, Leaf(f, n), b, bad) && b != 0
    ensures IbMap(t, f, n, bad) == b && IbMap(t, f, n, {}) == b
  {
    hide Val, Leaf, Carries;
  }

  lemma ReadableAlways(s: FS, f: nat, n: int)
    ensures IbMap(s, f, n, {}) == if 0 <= n < LIMIT then Val(s, Leaf(f, n)) else 0
  {
    hide Val, Leaf;
  }

  // The map of the whole disk: ib_map_new(f, n) changes no entry but (f, n), and what it returns is
  // what ib_map then returns.
  lemma NewChangesOneEntry(s: FS, f: nat, n: int, g: nat, m: int, bad: set<nat>)
    requires Safe(s) && f < |s.inodes|
    ensures Shaped(s)
    ensures var (t, b) := IbMapNew(s, f, n, bad);
      && ((g, m) != (f, n) ==> IbMap(t, g, m, {}) == IbMap(s, g, m, {}))
      && (b != 0 ==> IbMap(t, f, n, bad) == b && IbMap(t, f, n, {}) == b)
      && (IbMap(s, g, m, {}) != 0 ==> IbMap(t, g, m, {}) == IbMap(s, g, m, {}))
  {
    SafeShaped(s);
    hide Safe, Sound, Val, IbMapNew, IbMap, Mapped, Leaf;
    IbMapNewKeeps(s, f, n, bad);
    var (t, b) := IbMapNew(s, f, n, bad);
    ReadableAlways(s, g, m);
    ReadableAlways(t, g, m);
    if 0 <= n < LIMIT {
      if b != 0 { MappedReturned(s, t, f, n, b, bad); }
      if 0 <= m < LIMIT { MappedEntry(s, t, f, n, b, bad, g, m); }
    }
  }

  // ---- one step of ib_map_helper -------------------------------------------------------------

  // What "if (new && !i) i = new_block(...)" leaves in slot x.
  function TakeIf(s: FS, x: Slot, create: bool): (FS, nat)
    requires Shaped(s)
  {
    if create then Take(s, x) else (s, Val(s, x))
  }

  function InInode(f: nat, i: nat): Slot
    requires i < 9
  {
    if i == INDEX_LEVEL1 then Single(f) else if i == INDEX_LEVEL2 then Double(f) else Direct(f, i)
  }

  // Taking a new block moves no index block.
  lemma HolderStays(s: FS, x: Slot)
    requires Safe(s) && Placed(s, x) && Val(s, x) == 0 && (x.SingleEntry? || x.DoubleIndex? || x.DoubleEntry?)
    ensures Shaped(s)
    ensures var (t, b) := NewBlock(s); Placed(t, x) && Val(t, Holder(x)) == Val(s, Holder(x))
  {
    var o := AnOwner(s);
    NewBlockExact(s);
    var (t, b) := NewBlock(s);
    if b == 0 {
      PaddingChangesNothing(s, t);
    } else {
      assert t == Fresh(s, b);
      FreshKeepsVal(s, o, b, Holder(x));
    }
  }

  lemma PlacedBelow(s: FS, t: FS, z: Slot, c: nat, create: bool, x: Slot)
    requires Shaped(s) && Safe(s) && (t, c) == TakeIf(s, z, create) && c != 0 && z.f < |s.inodes| && !IsLeaf(z)
    requires create ==> Took(s, t, z, c)
    requires (x.SingleEntry? || x.DoubleIndex? || x.DoubleEntry?) && Holder(x) == z && Index(x) < WORDS
    requires x.DoubleEntry? ==> x.i < WORDS
    ensures Placed(t, x) && Val(t, z) == c && |t.inodes| == |s.inodes|
    ensures z.DoubleIndex? ==> Val(t, Double(z.f)) == Val(s, Double(z.f))
  {
    hide Val, Safe, Take, Took, Placed;
    if create {
      TookPlaces(s, t, z, c, x);
    } else {
      TakeHeld(s, z);
      TookPlaces(s, s, z, c, x);
    }
  }
}
