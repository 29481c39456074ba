// truncate: every block of the file is freed exactly once, nothing else changes.
module FilesTruncate {
  import opened Base
  import opened FilesModel
  import opened FilesInvariant
  import opened FilesMap

  // The order in which truncate visits the slots of a file: an index block after its words.
  const SINGLE: nat := DIRECT
  const DOUBLE: nat := SINGLE + WORDS + 1
  const END: nat := DOUBLE + (WORDS + 1) * WORDS + 1

  function Rank(x: Slot): nat {
    match x
    case Direct(f, i) => i
    case SingleEntry(f, i) => SINGLE + i
    case Single(f) => SINGLE + WORDS
    case DoubleEntry(f, i, j) => DOUBLE + (WORDS + 1) * i + j
    case DoubleIndex(f, i) => DOUBLE + (WORDS + 1) * i + WORDS
    case Double(f) => DOUBLE + (WORDS + 1) * WORDS
  }

  predicate InRange(x: Slot) {
    && (x.Direct? ==> x.i < DIRECT)
    && (x.SingleEntry? || x.DoubleIndex? || x.DoubleEntry? ==> x.i < WORDS)
    && (x.DoubleEntry? ==> x.j < WORDS)
  }

  lemma RankInjective(x: Slot, y: Slot)
    requires InRange(x) && InRange(y) && x.f == y.f && Rank(x) == Rank(y)
    ensures x == y
  {
    if (x.DoubleEntry? || x.DoubleIndex?) && (y.DoubleEntry? || y.DoubleIndex?) {
      var p := if x.DoubleEntry? then x.j else WORDS;
      var q := if y.DoubleEntry? then y.j else WORDS;
      DivUnique(Rank(x) - DOUBLE, WORDS + 1, x.i, p);
      DivUnique(Rank(y) - DOUBLE, WORDS + 1, y.i, q);
    }
  }

  lemma HeldInRange(s: FS, x: Slot)
    requires Val(s, x) != 0
    ensures InRange(x) && Rank(x) < END
  {
  }

  // Block b is freed by the time the slots of rank below r have been visited.
  predicate Freed(s: FS, o: Owner, f: nat, bad: set<nat>, r: nat, b: nat) {
    b in o && o[b].f == f && Rank(o[b]) < r && Readable(s, o[b], bad)
  }

  // t is s with the bits of those blocks cleared.
  ghost predicate Sweep(s: FS, t: FS, o: Owner, f: nat, bad: set<nat>, r: nat) {
    && Shaped(s) && Shaped(t) && t.first == s.first && t.nblocks == s.nblocks && t.disk == s.disk
    && |t.bits| == |s.bits|
    && forall b: nat :: InZone(s, b) ==> Bit(t, b) == (Bit(s, b) && !Freed(s, o, f, bad, r, b))
  }

  lemma FreeStep(s: FS, t: FS, o: Owner, f: nat, bad: set<nat>, x: Slot)
    requires Owned(s, o) && Sweep(s, t, o, f, bad, Rank(x)) && x.f == f && Readable(s, x, bad) && Val(s, x) != 0
    ensures FreeBlock(t, Val(s, x)).Some?
    ensures Sweep(s, FreeBlock(t, Val(s, x)).value, o, f, bad, Rank(x) + 1)
  {
    var v := Val(s, x);
    HeldInRange(s, x);
    hide Readable;
    assert v in o && o[v] == x && Bit(t, v);
    var u := FreeBlock(t, v).value;
    forall b: nat | InZone(s, b) ensures Bit(u, b) == (Bit(s, b) && !Freed(s, o, f, bad, Rank(x) + 1, b)) {
      if b in o && b != v && o[b].f == f && Rank(o[b]) == Rank(x) {
        HeldInRange(s, o[b]);
        RankInjective(o[b], x);
      }
    }
  }

  // Nothing to free between two ranks.
  lemma SkipTo(s: FS, t: FS, o: Owner, f: nat, bad: set<nat>, r: nat, q: nat)
    requires Sweep(s, t, o, f, bad, r) && r <= q
    requires forall b :: b in o && o[b].f == f && r <= Rank(o[b]) < q ==> !Readable(s, o[b], bad)
    ensures Sweep(s, t, o, f, bad, q)
  {
    hide Readable, Rank;
    assert forall b: nat :: Freed(s, o, f, bad, q, b) == Freed(s, o, f, bad, r, b);
  }

  lemma Visit(s: FS, t: FS, o: Owner, f: nat, bad: set<nat>, x: Slot)
    requires Owned(s, o) && Sweep(s, t, o, f, bad, Rank(x)) && x.f == f && Readable(s, x, bad) && InRange(x)
    ensures FreeIf(t, Val(s, x)).Some?
    ensures Sweep(s, FreeIf(t, Val(s, x)).value, o, f, bad, Rank(x) + 1)
  {
    if Val(s, x) != 0 {
      FreeStep(s, t, o, f, bad, x);
    } else {
      forall b | b in o && o[b].f == f ensures Rank(o[b]) != Rank(x) {
        HeldInRange(s, o[b]);
        if Rank(o[b]) == Rank(x) { RankInjective(o[b], x); }
      }
      SkipTo(s, t, o, f, bad, Rank(x), Rank(x) + 1);
    }
  }

  // ---- bits only go down ---------------------------------------------------------------------

  lemma {:induction false} EntriesClear(s: FS, b: nat, n: nat, c: nat)
    requires Shaped(s) && n <= WORDS && InZone(s, c) && !Bit(s, c) && FreeEntries(s, b, n).Some?
    ensures !Bit(FreeEntries(s, b, n).value, c)
  {
    hide Word;
    if n > 0 { EntriesClear(s, b, n - 1, c); }
  }

  lemma FreedHalts(s: FS, w: nat, bad: set<nat>)
    requires Shaped(s) && w != 0 && (InZone(s, w) ==> !Bit(s, w))
    ensures FreeLevel1(s, w, bad).None?
  {
    hide FreeEntries;
    if InZone(s, w) && FreeEntries(s, w, WORDS).Some? { EntriesClear(s, w, WORDS, w); }
  }

  // What free_level1 leaves of the bits.
  lemma Level1Clears(s: FS, w: nat, bad: set<nat>, c: nat)
    requires Shaped(s) && FreeLevel1(s, w, bad).Some?
    ensures var t := FreeLevel1(s, w, bad).value;
      && (w != 0 ==> InZone(s, w) && Bit(s, w) && !Bit(t, w))
      && (InZone(s, c) && !Bit(s, c) ==> !Bit(t, c))
  {
    if w != 0 {
      if !(InZone(s, w) && Bit(s, w)) { FreedHalts(s, w, bad); }
      if w !in bad && InZone(s, c) && !Bit(s, c) { EntriesClear(s, w, WORDS, c); }
    }
  }

  // And freeing the blocks that the words of b name.
  lemma {:induction false} IndexesClear(s: FS, b: nat, bad: set<nat>, n: nat, c: nat)
    requires Shaped(s) && n <= WORDS && FreeIndexes(s, b, bad, n).Some?
    ensures var t := FreeIndexes(s, b, bad, n).value;
      && (InZone(s, c) && !Bit(s, c) ==> !Bit(t, c))
      && forall i :: 0 <= i < n && Word(s, b, i) == c != 0 ==> InZone(s, c) && Bit(s, c) && !Bit(t, c)
  {
    hide FreeLevel1, Word, Shaped;
    if n > 0 {
      IndexesClear(s, b, bad, n - 1, c);
      IndexesClear(s, b, bad, n - 1, Word(s, b, n - 1));
      Level1Clears(FreeIndexes(s, b, bad, n - 1).value, Word(s, b, n - 1), bad, c);
    }
  }

  // ---- one index block of data blocks --------------------------------------------------------

  // The index block is the single one, or number k of the double one.
  function Parent(f: nat, k: Option<nat>): Slot {
    if k.Some? then DoubleIndex(f, k.value) else Single(f)
  }

  function Child(f: nat, k: Option<nat>, i: nat): Slot {
    if k.Some? then DoubleEntry(f, k.value, i) else SingleEntry(f, i)
  }

  function First(k: Option<nat>): nat { if k.Some? then DOUBLE + (WORDS + 1) * k.value else SINGLE }

  lemma EntrySwept(s: FS, t: FS, o: Owner, f: nat, bad: set<nat>, k: Option<nat>, i: nat)
    requires Owned(s, o) && Sweep(s, t, o, f, bad, First(k) + i) && i < WORDS && (k.Some? ==> k.value < WORDS)
    requires Readable(s, Parent(f, k), bad) && Val(s, Parent(f, k)) !in bad
    ensures FreeIf(t, Word(s, Val(s, Parent(f, k)), i)).Some?
    ensures Sweep(s, FreeIf(t, Word(s, Val(s, Parent(f, k)), i)).value, o, f, bad, First(k) + i + 1)
  {
    hide Owned, Sweep, FreeIf;
    Visit(s, t, o, f, bad, Child(f, k, i));
  }

  lemma {:induction false} EntriesSwept(s: FS, t: FS, o: Owner, f: nat, bad: set<nat>, k: Option<nat>, n: nat)
    requires Owned(s, o) && Sweep(s, t, o, f, bad, First(k)) && n <= WORDS && (k.Some? ==> k.value < WORDS)
    requires Readable(s, Parent(f, k), bad) && Val(s, Parent(f, k)) !in bad
    ensures FreeEntries(t, Val(s, Parent(f, k)), n).Some?
    ensures Sweep(s, FreeEntries(t, Val(s, Parent(f, k)), n).value, o, f, bad, First(k) + n)
  {
    hide Owned, Sweep, Word, Val, First, Readable, Parent, FreeIf, Shaped;
    SweepShaped(s, t, o, f, bad, First(k));
    if n > 0 {
      EntriesSwept(s, t, o, f, bad, k, n - 1);
      SameWord(s, t, o, f, bad, First(k), Val(s, Parent(f, k)), n - 1);
      EntrySwept(s, FreeEntries(t, Val(s, Parent(f, k)), n - 1).value, o, f, bad, k, n - 1);
    }
  }

  lemma SameWord(s: FS, t: FS, o: Owner, f: nat, bad: set<nat>, r: nat, b: nat, i: nat)
    requires Sweep(s, t, o, f, bad, r)
    ensures Word(t, b, i) == Word(s, b, i)
  {
  }

  lemma SweepShaped(s: FS, t: FS, o: Owner, f: nat, bad: set<nat>, r: nat)
    requires Sweep(s, t, o, f, bad, r)
    ensures Shaped(s) && Shaped(t)
  {
  }

  // A slot of file f between the ranks of an index block is one of its words.
  lemma BetweenIsChild(f: nat, k: Option<nat>, y: Slot)
    requires InRange(y) && y.f == f && First(k) <= Rank(y) < First(k) + WORDS && (k.Some? ==> k.value < WORDS)
    ensures y == Child(f, k, Rank(y) - First(k))
  {
    RankInjective(y, Child(f, k, Rank(y) - First(k)));
  }

  lemma Level1Swept(s: FS, t: FS, o: Owner, f: nat, bad: set<nat>, k: Option<nat>)
    requires Owned(s, o) && Sweep(s, t, o, f, bad, First(k)) && (k.Some? ==> k.value < WORDS)
    requires Readable(s, Parent(f, k), bad)
    ensures FreeLevel1(t, Val(s, Parent(f, k)), bad).Some?
    ensures Sweep(s, FreeLevel1(t, Val(s, Parent(f, k)), bad).value, o, f, bad, First(k) + WORDS + 1)
  {
    var p := Parent(f, k);
    var b := Val(s, p);
    assert Rank(p) == First(k) + WORDS && InRange(p);
    if b != 0 && b !in bad {
      EntriesSwept(s, t, o, f, bad, k, WORDS);
      hide Val, Sweep, Owned, Rank, InRange;
      Visit(s, FreeEntries(t, b, WORDS).value, o, f, bad, p);
    } else {
      forall c | c in o && o[c].f == f && First(k) <= Rank(o[c]) < First(k) + WORDS ensures !Readable(s, o[c], bad) {
        HeldInRange(s, o[c]);
        BetweenIsChild(f, k, o[c]);
      }
      SkipTo(s, t, o, f, bad, First(k), First(k) + WORDS);
      hide Val, Sweep, Owned, Rank, InRange;
      Visit(s, t, o, f, bad, p);
    }
  }

  // ---- the double index block ----------------------------------------------------------------

  lemma FirstIndex()
    ensures First(Some(0)) == DOUBLE
  {
  }

  lemma IndexSwept(s: FS, t: FS, o: Owner, f: nat, bad: set<nat>, k: nat)
    requires Owned(s, o) && Sweep(s, t, o, f, bad, First(Some(k))) && k < WORDS && Val(s, Double(f)) !in bad
    ensures FreeLevel1(t, Word(s, Val(s, Double(f)), k), bad).Some?
    ensures Sweep(s, FreeLevel1(t, Word(s, Val(s, Double(f)), k), bad).value, o, f, bad, First(Some(k + 1)))
  {
    hide Owned, Sweep, FreeLevel1;
    Level1Swept(s, t, o, f, bad, Some(k));
  }

  lemma {:induction false} IndexesSwept(s: FS, t: FS, o: Owner, f: nat, bad: set<nat>, b: nat, n: nat)
    requires Owned(s, o) && Sweep(s, t, o, f, bad, DOUBLE) && n <= WORDS && b == Val(s, Double(f)) && b !in bad
    ensures FreeIndexes(t, b, bad, n).Some?
    ensures Sweep(s, FreeIndexes(t, b, bad, n).value, o, f, bad, First(Some(n)))
  {
    hide Owned, Sweep, Word, Val, FreeLevel1, Shaped, First;
    SweepShaped(s, t, o, f, bad, DOUBLE);
    FirstIndex();
    if n > 0 {
      IndexesSwept(s, t, o, f, bad, b, n - 1);
      SameWord(s, t, o, f, bad, DOUBLE, b, n - 1);
      IndexSwept(s, FreeIndexes(t, b, bad, n - 1).value, o, f, bad, n - 1);
    }
  }

  lemma Level2Swept(s: FS, t: FS, o: Owner, f: nat, bad: set<nat>)
    requires Owned(s, o) && Sweep(s, t, o, f, bad, DOUBLE)
    ensures FreeLevel2(t, Val(s, Double(f)), bad).Some?
    ensures Sweep(s, FreeLevel2(t, Val(s, Double(f)), bad).value, o, f, bad, END)
  {
    var b := Val(s, Double(f));
    assert Rank(Double(f)) + 1 == END;
    if b != 0 && b !in bad {
      IndexesSwept(s, t, o, f, bad, b, WORDS);
      hide Val, Sweep, Owned;
      Visit(s, FreeIndexes(t, b, bad, WORDS).value, o, f, bad, Double(f));
    } else {
      forall c | c in o && o[c].f == f && DOUBLE <= Rank(o[c]) < END - 1 ensures !Readable(s, o[c], bad) {
        HeldInRange(s, o[c]);
        assert o[c].DoubleEntry? || o[c].DoubleIndex?;
      }
      SkipTo(s, t, o, f, bad, DOUBLE, END - 1);
      hide Val, Sweep, Owned, InRange;
      Visit(s, t, o, f, bad, Double(f));
    }
  }

  // ---- the direct slots ----------------------------------------------------------------------

  // The inodes of s, with the first n pointers of file f zeroed.
  ghost predicate Zeroed(s: FS, t: FS, f: nat, n: nat) {
    && |t.inodes| == |s.inodes|
    && (forall g :: 0 <= g < |s.inodes| && g != f ==> t.inodes[g] == s.inodes[g])
    && (f < |s.inodes| ==> forall i :: 0 <= i < 9 ==> t.inodes[f].data[i] == if i < n then 0 else s.inodes[f].data[i])
  }

  lemma PointerZeroed(s: FS, t: FS, u: FS, f: nat, n: nat)
    requires f < |s.inodes| && n < DIRECT && Zeroed(s, t, f, n) && u.inodes == t.inodes
    ensures Pointer(t, f, n) == Val(s, Direct(f, n))
    ensures Zeroed(s, SetPointer(u, f, n, 0), f, n + 1)
  {
  }

  lemma SweepInodes(s: FS, t: FS, o: Owner, f: nat, bad: set<nat>, r: nat, i: nat)
    requires Sweep(s, t, o, f, bad, r) && f < |t.inodes| && i < 9
    ensures Sweep(s, SetPointer(t, f, i, 0), o, f, bad, r)
  {
  }

  lemma {:induction false} DirectSwept(s: FS, o: Owner, f: nat, bad: set<nat>, n: nat)
    requires Owned(s, o) && f < |s.inodes| && n <= DIRECT
    ensures Shaped(s) && FreeDirect(s, f, n).Some? && Sweep(s, FreeDirect(s, f, n).value, o, f, bad, n)
    ensures Zeroed(s, FreeDirect(s, f, n).value, f, n)
  {
    hide Owned, Sweep, Zeroed, Val, FreeIf, Pointer, Shaped, SetPointer;
    DirectStart(s, o, f, bad);
    if n > 0 {
      DirectSwept(s, o, f, bad, n - 1);
      var t := FreeDirect(s, f, n - 1).value;
      PointerZeroed(s, t, t, f, n - 1);
      Visit(s, t, o, f, bad, Direct(f, n - 1));
      var u := FreeIf(t, Pointer(t, f, n - 1)).value;
      PointerZeroed(s, t, u, f, n - 1);
      SweepInodes(s, u, o, f, bad, n, n - 1);
    }
  }

  lemma DirectStart(s: FS, o: Owner, f: nat, bad: set<nat>)
    requires Owned(s, o)
    ensures Shaped(s) && Sweep(s, s, o, f, bad, 0) && Zeroed(s, s, f, 0)
  {
  }

  // ---- the whole of truncate -----------------------------------------------------------------

  // t is s without file f's blocks; the bits of those that were read are clear.
  ghost predicate Truncated(s: FS, t: FS, o: Owner, f: nat, bad: set<nat>) {
    && Sweep(s, t, o, f, bad, END) && Zeroed(s, t, f, 9) && f < |s.inodes| && t.inodes[f].size == 0
  }

  lemma ClearKeeps(s: FS, t: FS, v: FS, o: Owner, f: nat, bad: set<nat>)
    requires f < |s.inodes| && Zeroed(s, t, f, DIRECT) && v.inodes == t.inodes && Sweep(s, v, o, f, bad, END)
    ensures Truncated(s, ClearInode(v, f), o, f, bad)
  {
    hide Freed;
  }

  lemma LastPointers(s: FS, t: FS, f: nat)
    requires Zeroed(s, t, f, DIRECT)
    ensures Pointer(t, f, INDEX_LEVEL1) == Val(s, Single(f)) && Pointer(t, f, INDEX_LEVEL2) == Val(s, Double(f))
  {
  }

  lemma TruncateSweeps(s: FS, o: Owner, f: nat, bad: set<nat>)
    requires Owned(s, o) && f < |s.inodes|
    ensures Truncate(s, f, bad).Some? && Truncated(s, Truncate(s, f, bad).value, o, f, bad)
  {
    assert Shaped(s);
    hide Owned, Shaped, Val, FreeDirect, FreeLevel1, FreeLevel2, Sweep, Zeroed, Truncated, Pointer, ClearInode;
    DirectSwept(s, o, f, bad, DIRECT);
    var t := FreeDirect(s, f, DIRECT).value;
    LastPointers(s, t, f);
    Level1Swept(s, t, o, f, bad, None);
    var u := FreeLevel1(t, Pointer(t, f, INDEX_LEVEL1), bad).value;
    LastPointers(s, u, f);
    Level2Swept(s, u, o, f, bad);
    ClearKeeps(s, t, FreeLevel2(u, Pointer(u, f, INDEX_LEVEL2), bad).value, o, f, bad);
  }

  // The file's map is empty, every other file's map is as before.
  lemma TruncatedVal(s: FS, t: FS, o: Owner, f: nat, bad: set<nat>, y: Slot)
    requires Truncated(s, t, o, f, bad)
    ensures Val(t, y) == if y.f == f then 0 else Val(s, y)
  {
    assert forall c, i :: Word(t, c, i) == Word(s, c, i);
    assert forall g, i :: g != f ==> Pointer(t, g, i) == Pointer(s, g, i);
    assert forall i :: Pointer(t, f, i) == 0;
  }

  // The owners that are left.
  ghost function Others(o: Owner, f: nat): Owner { map b | b in o && o[b].f != f :: o[b] }

  lemma TruncatedKeeps(s: FS, t: FS, o: Owner, f: nat, bad: set<nat>)
    requires Owned(s, o) && Truncated(s, t, o, f, bad)
    ensures Owned(t, Others(o, f))
  {
    forall y ensures Val(t, y) == if y.f == f then 0 else Val(s, y) { TruncatedVal(s, t, o, f, bad, y); }
    hide Val, Zeroed, Readable, Rank;
  }

  // truncate never halts and never frees a block twice; what it leaves is the same disk without the
  // file: its map is empty and its size 0, every other file is as before.
  lemma TruncateKeeps(s: FS, f: nat, bad: set<nat>)
    requires Safe(s) && f < |s.inodes|
    ensures Shaped(s) && Truncate(s, f, bad).Some?
    ensures var t := Truncate(s, f, bad).value;
      Safe(t) && t.disk == s.disk && |t.inodes| == |s.inodes| && t.inodes[f].size == 0
      && (forall y :: Val(t, y) == if y.f == f then 0 else Val(s, y))
      && (forall g :: 0 <= g < |s.inodes| && g != f ==> t.inodes[g] == s.inodes[g])
  {
    var o := AnOwner(s);
    TruncateSweeps(s, o, f, bad);
    var t := Truncate(s, f, bad).value;
    TruncatedKeeps(s, t, o, f, bad);
    forall y ensures Val(t, y) == if y.f == f then 0 else Val(s, y) { TruncatedVal(s, t, o, f, bad, y); }
    hide Val, Truncate, Owned;
  }

  // The blocks of the zone that become free are exactly those of the file whose index blocks could
  // be read.
  lemma TruncateFrees(s: FS, f: nat, bad: set<nat>, b: nat)
    requires Safe(s) && f < |s.inodes|
    ensures Shaped(s) && Truncate(s, f, bad).Some? && Shaped(Truncate(s, f, bad).value)
    ensures var t := Truncate(s, f, bad).value;
      InZone(s, b) ==>
        && InZone(t, b)
        && (Bit(t, b) <==>
             Bit(s, b) && !(exists x: Slot :: x.f == f && Val(s, x) == b && Readable(s, x, bad)))
  {
    var o := AnOwner(s);
    TruncateSweeps(s, o, f, bad);
    hide Truncate, Zeroed, Readable;
    if InZone(s, b) {
      if Freed(s, o, f, bad, END, b) {
        assert Val(s, o[b]) == b;
      } else if x: Slot :| x.f == f && Val(s, x) == b && Readable(s, x, bad) {
        HeldInRange(s, x);
      }
    }
  }

  // No block is lost exactly when every index block of the file with anything below it was read.
  lemma TruncateSoundIff(s: FS, f: nat, bad: set<nat>)
    requires Sound(s) && f < |s.inodes|
    ensures Shaped(s) && Truncate(s, f, bad).Some?
    ensures Sound(Truncate(s, f, bad).value) <==> forall x: Slot :: x.f == f && Val(s, x) != 0 ==> Readable(s, x, bad)
  {
    SoundMeans(s);
    var o := AnOwner(s);
    TruncateSweeps(s, o, f, bad);
    var t := Truncate(s, f, bad).value;
    TruncatedKeeps(s, t, o, f, bad);
    hide Truncate, Zeroed;
    if forall x: Slot :: x.f == f && Val(s, x) != 0 ==> Readable(s, x, bad) {
      AllFreed(s, t, o, f, bad);
    } else {
      var x: Slot :| x.f == f && Val(s, x) != 0 && !Readable(s, x, bad);
      LostBlock(s, t, o, f, bad, x);
    }
  }

  lemma AllFreed(s: FS, t: FS, o: Owner, f: nat, bad: set<nat>)
    requires Owned(s, o) && NoLeak(s, o) && Sweep(s, t, o, f, bad, END) && Owned(t, Others(o, f))
    requires forall x: Slot :: x.f == f && Val(s, x) != 0 ==> Readable(s, x, bad)
    ensures Sound(t)
  {
    forall b | InZone(t, b) && Bit(t, b) ensures b in Others(o, f) {
      assert b in o && Val(s, o[b]) == b;
      HeldInRange(s, o[b]);
    }
    assert NoLeak(t, Others(o, f));
  }

  lemma LostBlock(s: FS, t: FS, o: Owner, f: nat, bad: set<nat>, x: Slot)
    requires Owned(s, o) && Truncated(s, t, o, f, bad) && x.f == f && Val(s, x) != 0 && !Readable(s, x, bad)
    ensures !Sound(t)
  {
    var b := Val(s, x);
    assert b in o && o[b] == x && !Freed(s, o, f, bad, END, b);
    assert Bit(t, b);
    if Sound(t) {
      SoundMeans(t);
      var y :| Val(t, y) == b;
      TruncatedVal(s, t, o, f, bad, y);
    }
  }
}
