// The invariant of the block tree: the set bits of the data zone are exactly the blocks that slots
// name, and no block is named twice.
module FilesInvariant {
  import opened Base
  import opened FilesModel

  // `o` gives for each block in use the one slot that names it.
  type Owner = map<nat, Slot>

  ghost predicate Owned(s: FS, o: Owner) {
    && Shaped(s)
    && (forall x :: Val(s, x) != 0 ==> Val(s, x) in o && o[Val(s, x)] == x)
    && (forall b :: b in o ==> InZone(s, b) && Bit(s, b) && Val(s, o[b]) == b)
  }

  // No bit is set without an owner.
  ghost predicate NoLeak(s: FS, o: Owner)
    requires Shaped(s)
  {
    forall b :: InZone(s, b) && Bit(s, b) ==> b in o
  }

  // Nothing is named twice, out of the zone or free.
  ghost predicate Safe(s: FS) { exists o :: Owned(s, o) }

  // And nothing is lost.
  ghost predicate Sound(s: FS) { exists o :: Owned(s, o) && NoLeak(s, o) }

  lemma SafeShaped(s: FS)
    requires Safe(s)
    ensures Shaped(s)
  {
  }

  // What the two say without the owner map.
  lemma SafeMeans(s: FS)
    requires Safe(s)
    ensures Shaped(s)
    ensures forall x :: Val(s, x) != 0 ==> InZone(s, Val(s, x)) && Bit(s, Val(s, x))
    ensures forall x, y :: Val(s, x) != 0 && Val(s, x) == Val(s, y) ==> x == y
  {
    var o :| Owned(s, o);
  }

  lemma SoundMeans(s: FS)
    requires Sound(s)
    ensures Safe(s) && s.bits[0]
    ensures forall b :: InZone(s, b) ==> (Bit(s, b) <==> exists x :: Val(s, x) == b)
  {
    var o :| Owned(s, o) && NoLeak(s, o);
    forall b | InZone(s, b) && Bit(s, b) ensures exists x :: Val(s, x) == b {
      assert b in o;
      assert Val(s, o[b]) == b;
    }
  }

  lemma AnOwner(s: FS) returns (o: Owner)
    requires Safe(s)
    ensures Owned(s, o) && (Sound(s) ==> NoLeak(s, o))
  {
    if Sound(s) { o :| Owned(s, o) && NoLeak(s, o); } else { o :| Owned(s, o); }
  }

  // The same blocks in the same slots.
  ghost predicate SameUse(s: FS, t: FS) {
    && Shaped(s) && Shaped(t) && t.first == s.first && t.nblocks == s.nblocks
    && (forall y :: Val(t, y) == Val(s, y))
    && (forall b: nat :: InZone(s, b) ==> Bit(t, b) == Bit(s, b))
  }

  lemma SameUseOwned(s: FS, t: FS, o: Owner)
    requires Owned(s, o) && SameUse(s, t)
    ensures Owned(t, o) && (NoLeak(s, o) ==> NoLeak(t, o)) && (ZoneFull(s) ==> ZoneFull(t))
  {
    hide Val, Shaped, Bit;
  }

  lemma SameUseKeeps(s: FS, t: FS)
    requires Safe(s) && SameUse(s, t)
    ensures Safe(t) && (Sound(s) ==> Sound(t)) && (ZoneFull(s) ==> ZoneFull(t))
  {
    hide Owned, NoLeak, ZoneFull, SameUse;
    var o := AnOwner(s);
    SameUseOwned(s, t, o);
  }

  // ---- new_block -----------------------------------------------------------------------------

  ghost predicate ZoneFull(s: FS)
    requires Shaped(s)
  {
    forall b :: InZone(s, b) ==> Bit(s, b)
  }

  // new_block fails exactly when the zone is full; otherwise it takes the first free block and
  // zeroes it. Either way no other bit of the zone and no other block changes.
  lemma NewBlockExact(s: FS)
    requires Shaped(s)
    ensures var (t, b) := NewBlock(s);
      && Shaped(t) && t.first == s.first && t.nblocks == s.nblocks && t.inodes == s.inodes
      && (b == 0 <==> ZoneFull(s))
      && (forall c: nat :: InZone(s, c) && c != b ==> Bit(t, c) == Bit(s, c) && t.disk[c] == s.disk[c])
      && (b == 0 ==> t.disk == s.disk)
      && (b != 0 ==> InZone(s, b) && !Bit(s, b) && Bit(t, b))
      && (b != 0 ==> t == SetBit(s, b, true).(disk := s.disk[b := ZeroBlock()]))
      && (b != 0 ==> forall c :: InZone(s, c) && !Bit(s, c) ==> b <= c)
  {
    var i := FirstClear(s.bits, 0);
    var b := i + s.first - 1;
    if i < |s.bits| && b < s.nblocks {
      assert InZone(s, b) && !Bit(s, b);
    } else {
      forall c: nat | InZone(s, c) ensures Bit(s, c) { assert c - s.first + 1 < i; }
    }
  }

  // ---- putting a new block in the tree -------------------------------------------------------

  // new_block's effect on a free block b.
  function Fresh(s: FS, b: nat): (r: FS)
    requires Shaped(s) && InZone(s, b)
    ensures Shaped(r)
  {
    SetBit(s, b, true).(disk := s.disk[b := ZeroBlock()])
  }

  lemma FreshWord(s: FS, b: nat, c: nat, i: nat)
    requires Shaped(s) && InZone(s, b)
    ensures Word(Fresh(s, b), c, i) == if c == b then 0 else Word(s, c, i)
  {
  }

  // No slot reads a free block.
  lemma FreshKeepsVal(s: FS, o: Owner, b: nat, y: Slot)
    requires Owned(s, o) && InZone(s, b) && !Bit(s, b)
    ensures Val(Fresh(s, b), y) == Val(s, y)
  {
    match y
    case SingleEntry(f, i) =>
      assert Val(s, Single(f)) != b;
      FreshWord(s, b, Val(s, Single(f)), i);
    case DoubleIndex(f, i) =>
      assert Val(s, Double(f)) != b;
      FreshWord(s, b, Val(s, Double(f)), i);
    case DoubleEntry(f, i, j) =>
      assert Val(s, Double(f)) != b && Val(s, DoubleIndex(f, i)) != b;
      FreshWord(s, b, Val(s, Double(f)), i);
      FreshWord(s, b, Val(s, DoubleIndex(f, i)), j);
    case _ =>
  }

  // t is s, where block numbers agree with an owner map, with the words of b all 0.
  ghost predicate Prepared(t: FS, o: Owner, b: nat) {
    && 0 < b < |t.disk| < MAX_BLOCKS && b !in o
    && (forall x :: Val(t, x) != 0 ==> Val(t, x) in o && o[Val(t, x)] == x)
    && (forall i :: Word(t, b, i) == 0)
  }

  lemma StoreInInode(t: FS, o: Owner, x: Slot, b: nat, y: Slot)
    requires Prepared(t, o, b) && Placed(t, x) && Val(t, x) == 0 && (x.Direct? || x.Single? || x.Double?)
    ensures Val(Store(t, x, b), y) == if y == x then b else Val(t, y)
  {
    var u := Store(t, x, b);
    assert forall c, i :: Word(u, c, i) == Word(t, c, i);
    if y.DoubleEntry? && x == Double(y.f) { assert Word(t, b, y.i) == 0; }
  }

  // The slot whose words are block c.
  function Holder(x: Slot): Slot
    requires x.SingleEntry? || x.DoubleIndex? || x.DoubleEntry?
  {
    match x
    case SingleEntry(f, i) => Single(f)
    case DoubleIndex(f, i) => Double(f)
    case DoubleEntry(f, i, j) => DoubleIndex(f, i)
  }

  function Index(x: Slot): nat
    requires x.SingleEntry? || x.DoubleIndex? || x.DoubleEntry?
  {
    match x
    case SingleEntry(f, i) => i
    case DoubleIndex(f, i) => i
    case DoubleEntry(f, i, j) => j
  }

  lemma StoreInBlock(t: FS, o: Owner, x: Slot, b: nat, y: Slot)
    requires Prepared(t, o, b) && Placed(t, x) && Val(t, x) == 0 && (x.SingleEntry? || x.DoubleIndex? || x.DoubleEntry?)
    ensures Val(Store(t, x, b), y) == if y == x then b else Val(t, y)
  {
    var u := Store(t, x, b);
    var c := Val(t, Holder(x));
    assert c in o && o[c] == Holder(x);
    forall d: nat, i: nat ensures Word(u, d, i) == if d == c && i == Index(x) then b else Word(t, d, i) {
      if d == c && i < WORDS { assert U16At(u.disk[c], i) == if i == Index(x) then b else U16At(t.disk[c], i); }
    }
    if y.SingleEntry? || y.DoubleIndex? || y.DoubleEntry? {
      assert Val(t, Holder(y)) == c ==> Holder(y) == Holder(x);
      if y.DoubleEntry? { assert Val(t, Double(y.f)) == c ==> Double(y.f) == Holder(x); }
    }
  }

  // A free block stored in an empty slot: that slot now names it and every other is as before.
  lemma AttachVal(s: FS, o: Owner, x: Slot, b: nat, y: Slot)
    requires Owned(s, o) && InZone(s, b) && !Bit(s, b) && Placed(s, x) && Val(s, x) == 0
    ensures Val(Store(Fresh(s, b), x, b), y) == if y == x then b else Val(s, y)
  {
    var t := Fresh(s, b);
    forall z ensures Val(t, z) == Val(s, z) { FreshKeepsVal(s, o, b, z); }
    forall i ensures Word(t, b, i) == 0 { FreshWord(s, b, b, i); }
    hide Val;
    AttachPrepared(s, o, x, b);
    if x.Direct? || x.Single? || x.Double? {
      StoreInInode(t, o, x, b, y);
    } else {
      StoreInBlock(t, o, x, b, y);
    }
  }

  lemma AttachPrepared(s: FS, o: Owner, x: Slot, b: nat)
    requires Owned(s, o) && InZone(s, b) && !Bit(s, b) && Placed(s, x)
    ensures Prepared(Fresh(s, b), o, b) && Placed(Fresh(s, b), x)
  {
    var t := Fresh(s, b);
    forall z ensures Val(t, z) == Val(s, z) { FreshKeepsVal(s, o, b, z); }
    forall i ensures Word(t, b, i) == 0 { FreshWord(s, b, b, i); }
  }

  lemma StoreFrame(t: FS, x: Slot, v: nat)
    requires Shaped(t) && v < MAX_BLOCKS
    ensures var u := Store(t, x, v);
      && Shaped(u) && u.first == t.first && u.nblocks == t.nblocks && u.bits == t.bits
      && |u.inodes| == |t.inodes| && forall f :: 0 <= f < |t.inodes| ==> u.inodes[f].size == t.inodes[f].size
  {
  }

  // u is s with b taken and named by x.
  ghost predicate Attached(s: FS, u: FS, x: Slot, b: nat) {
    && Shaped(s) && Shaped(u) && u.first == s.first && u.nblocks == s.nblocks
    && (forall y :: Val(u, y) == if y == x then b else Val(s, y))
    && (forall c: nat :: InZone(s, c) ==> Bit(u, c) == (c == b || Bit(s, c)))
  }

  lemma AttachedKeeps(s: FS, o: Owner, u: FS, x: Slot, b: nat)
    requires Owned(s, o) && InZone(s, b) && !Bit(s, b) && Val(s, x) == 0 && Attached(s, u, x, b)
    ensures Owned(u, o[b := x])
    ensures NoLeak(s, o) ==> NoLeak(u, o[b := x])
  {
    assert b != 0;
    hide Val, Shaped, Bit;
  }

  lemma OwnedShaped(s: FS, o: Owner)
    requires Owned(s, o)
    ensures Shaped(s)
  {
  }

  lemma AttachIsAttached(s: FS, o: Owner, x: Slot, b: nat)
    requires Owned(s, o) && InZone(s, b) && !Bit(s, b) && Placed(s, x) && Val(s, x) == 0
    ensures Attached(s, Store(Fresh(s, b), x, b), x, b)
  {
    hide Val, Store, Owned, Placed;
    OwnedShaped(s, o);
    forall y ensures Val(Store(Fresh(s, b), x, b), y) == if y == x then b else Val(s, y) { AttachVal(s, o, x, b, y); }
    StoreFrame(Fresh(s, b), x, b);
  }
}
