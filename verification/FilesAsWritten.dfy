// Lines of fs/inode.c, fs/truncate.c and fs/file_dev.c as they are written, and exactly when each
// does what the rest of the model has in its place.
module FilesAsWritten {
  import opened Base
  import opened FilesModel
  import opened FilesInvariant
  import opened FilesMap
  import opened FilesFree
  import T = FilesTruncate
  import opened FilesData

  // ---- fs/truncate.c:32-38 -------------------------------------------------------------------

  // The loop never moves its pointer: each of its turns frees what the first word names.
  function FreeFirst(s: FS, b: nat, n: nat): (r: Option<FS>)
    requires Shaped(s)
    ensures r.Some? ==> r.value == s.(bits := r.value.bits) && Shaped(r.value)
  {
    if n == 0 then Some(s)
    else
      var t := FreeFirst(s, b, n - 1);
      if t.Some? then FreeIf(t.value, Word(s, b, 0)) else None
  }

  function Level1(s: FS, b: nat, bad: set<nat>): Option<FS>
    requires Shaped(s)
  {
    if b == 0 then Some(s)
    else
      var t := if b in bad then Some(s) else FreeFirst(s, b, WORDS);
      if t.Some? then FreeBlock(t.value, b) else None
  }

  lemma {:induction false} FirstHaltsTwice(s: FS, b: nat, n: nat)
    requires Shaped(s)
    ensures Word(s, b, 0) == 0 ==> FreeFirst(s, b, n) == Some(s)
    ensures Word(s, b, 0) != 0 && n == 1 ==> FreeFirst(s, b, n) == FreeBlock(s, Word(s, b, 0))
    ensures Word(s, b, 0) != 0 && n >= 2 ==> FreeFirst(s, b, n).None?
  {
    hide Word;
    if n == 1 { assert FreeFirst(s, b, 0) == Some(s); }
    if n > 0 { FirstHaltsTwice(s, b, n - 1); }
  }

  lemma {:induction false} EmptyEntries(s: FS, b: nat, n: nat)
    requires Shaped(s) && n <= WORDS && forall i :: 0 <= i < n ==> Word(s, b, i) == 0
    ensures FreeEntries(s, b, n) == Some(s)
  {
    hide Word, Shaped;
    if n > 0 { EmptyEntries(s, b, n - 1); }
  }

  // The block that slot x names is free in u, where x has been visited, and in use in t, where it has not.
  lemma FreedLater(s: FS, t: FS, u: FS, o: Owner, f: nat, bad: set<nat>, r: nat, q: nat, x: Slot)
    requires Owned(s, o) && T.Sweep(s, t, o, f, bad, r) && T.Sweep(s, u, o, f, bad, q)
    requires x.f == f && r <= T.Rank(x) < q && Val(s, x) != 0 && Readable(s, x, bad)
    ensures InZone(t, Val(s, x)) && Bit(t, Val(s, x)) && !Bit(u, Val(s, x))
  {
    hide T.Rank, Readable;
    assert o[Val(s, x)] == x;
  }

  // A block of its own is all that the written loop frees if it survives, so a block named below is left in use.
  lemma OnlyItself(t: FS, b: nat, c: nat)
    requires Shaped(t) && InZone(t, c) && Bit(t, c) && b != c && FreeBlock(t, b).Some?
    ensures Bit(FreeBlock(t, b).value, c)
  {
  }

  lemma Level1At(s: FS, t: FS, o: Owner, f: nat, bad: set<nat>)
    requires Owned(s, o) && T.Sweep(s, t, o, f, bad, T.SINGLE)
    ensures Shaped(t)
    ensures var b := Val(s, Single(f));
      && (Level1(t, b, bad).None? <==> b != 0 && b !in bad && Word(t, b, 0) != 0)
      && (Level1(t, b, bad) == FreeLevel1(t, b, bad) <==>
          b == 0 || b in bad || forall i :: 0 <= i < WORDS ==> Word(t, b, i) == 0)
  {
    var b := Val(s, Single(f));
    T.Level1Swept(s, t, o, f, bad, None);
    FirstHaltsTwice(t, b, WORDS);
    if b != 0 && b !in bad {
      BitThere(s, t, o, f, bad, T.SINGLE, Single(f));
      if forall i :: 0 <= i < WORDS ==> Word(t, b, i) == 0 {
        EmptyEntries(t, b, WORDS);
      } else if Word(t, b, 0) == 0 {
        var i :| 0 <= i < WORDS && Word(t, b, i) != 0;
        T.SameWord(s, t, o, f, bad, T.SINGLE, b, i);
        var x := SingleEntry(f, i);
        FreedLater(s, t, FreeLevel1(t, b, bad).value, o, f, bad, T.SINGLE, T.DOUBLE, x);
        OnlyItself(t, b, Val(s, x));
      }
    }
  }

  // A slot that has not been visited yet still names a block in use.
  lemma BitThere(s: FS, t: FS, o: Owner, f: nat, bad: set<nat>, r: nat, x: Slot)
    requires Owned(s, o) && T.Sweep(s, t, o, f, bad, r) && x.f == f && r <= T.Rank(x) && Val(s, x) != 0
    ensures FreeBlock(t, Val(s, x)).Some?
  {
    hide T.Rank;
    assert o[Val(s, x)] == x;
  }

  // When truncate comes to the single index block b, the loop halts the kernel exactly when b can be read and its
  // first word names a block; it frees what it should exactly when there is nothing to free.
  lemma Level1Agrees(s: FS, f: nat, bad: set<nat>)
    requires Safe(s) && f < |s.inodes|
    ensures Shaped(s) && FreeDirect(s, f, DIRECT).Some?
    ensures var (t, b) := (FreeDirect(s, f, DIRECT).value, Val(s, Single(f)));
      && (Level1(t, b, bad).None? <==> b != 0 && b !in bad && Word(t, b, 0) != 0)
      && (Level1(t, b, bad) == FreeLevel1(t, b, bad) <==>
          b == 0 || b in bad || forall i :: 0 <= i < WORDS ==> Word(t, b, i) == 0)
  {
    hide Owned, T.Sweep, T.Zeroed, Val, FreeDirect, Level1, FreeLevel1;
    var o := AnOwner(s);
    T.DirectSwept(s, o, f, bad, DIRECT);
    Level1At(s, FreeDirect(s, f, DIRECT).value, o, f, bad);
  }

  // ---- fs/truncate.c:64-70 -------------------------------------------------------------------

  // The pointer stays here too, for 513 turns.
  function FreeFirstLevel1(s: FS, b: nat, bad: set<nat>, n: nat): (r: Option<FS>)
    requires Shaped(s)
    ensures r.Some? ==> r.value == s.(bits := r.value.bits) && Shaped(r.value)
  {
    if n == 0 then Some(s)
    else
      var t := FreeFirstLevel1(s, b, bad, n - 1);
      if t.Some? then FreeLevel1(t.value, Word(s, b, 0), bad) else None
  }

  function Level2(s: FS, b: nat, bad: set<nat>): Option<FS>
    requires Shaped(s)
  {
    if b == 0 then Some(s)
    else
      var t := if b in bad then Some(s) else FreeFirstLevel1(s, b, bad, WORDS + 1);
      if t.Some? then FreeBlock(t.value, b) else None
  }

  lemma {:induction false} FirstLevel1HaltsTwice(s: FS, b: nat, bad: set<nat>, n: nat)
    requires Shaped(s)
    ensures Word(s, b, 0) == 0 ==> FreeFirstLevel1(s, b, bad, n) == Some(s)
    ensures Word(s, b, 0) != 0 && n >= 1 && FreeFirstLevel1(s, b, bad, n).Some? ==>
      InZone(s, Word(s, b, 0)) && !Bit(FreeFirstLevel1(s, b, bad, n).value, Word(s, b, 0))
    ensures Word(s, b, 0) != 0 && n >= 2 ==> FreeFirstLevel1(s, b, bad, n).None?
  {
    hide Word, FreeEntries;
    if n > 0 { FirstLevel1HaltsTwice(s, b, bad, n - 1); }
    if n >= 2 && Word(s, b, 0) != 0 && FreeFirstLevel1(s, b, bad, n - 1).Some? {
      T.FreedHalts(FreeFirstLevel1(s, b, bad, n - 1).value, Word(s, b, 0), bad);
    }
  }

  lemma {:induction false} EmptyIndexes(s: FS, b: nat, bad: set<nat>, n: nat)
    requires Shaped(s) && n <= WORDS && forall i :: 0 <= i < n ==> Word(s, b, i) == 0
    ensures FreeIndexes(s, b, bad, n) == Some(s)
  {
    hide Word, Shaped;
    if n > 0 { EmptyIndexes(s, b, bad, n - 1); }
  }

  lemma Level2At(s: FS, t: FS, o: Owner, f: nat, bad: set<nat>)
    requires Owned(s, o) && T.Sweep(s, t, o, f, bad, T.DOUBLE)
    ensures Shaped(t)
    ensures var b := Val(s, Double(f));
      && (Level2(t, b, bad).None? <==> b != 0 && b !in bad && Word(t, b, 0) != 0)
      && (Level2(t, b, bad) == FreeLevel2(t, b, bad) <==>
          b == 0 || b in bad || forall i :: 0 <= i < WORDS ==> Word(t, b, i) == 0)
  {
    hide Owned, T.Sweep, Val, Word, FreeIndexes, FreeFirstLevel1;
    var b := Val(s, Double(f));
    T.SweepShaped(s, t, o, f, bad, T.DOUBLE);
    T.Level2Swept(s, t, o, f, bad);
    FirstLevel1HaltsTwice(t, b, bad, WORDS + 1);
    if b != 0 && b !in bad {
      BitThere(s, t, o, f, bad, T.DOUBLE, Double(f));
      if forall i :: 0 <= i < WORDS ==> Word(t, b, i) == 0 {
        EmptyIndexes(t, b, bad, WORDS);
      } else if Word(t, b, 0) == 0 {
        var i :| 0 <= i < WORDS && Word(t, b, i) != 0;
        Level2Differs(s, t, o, f, bad, i);
      }
    }
  }

  // The written loop frees nothing, so the block that word i names stays in use.
  lemma Level2Differs(s: FS, t: FS, o: Owner, f: nat, bad: set<nat>, i: nat)
    requires Owned(s, o) && T.Sweep(s, t, o, f, bad, T.DOUBLE) && Shaped(t) && Val(s, Double(f)) !in bad
    requires i < WORDS && Word(t, Val(s, Double(f)), i) != 0 && FreeBlock(t, Val(s, Double(f))).Some?
    ensures FreeBlock(t, Val(s, Double(f))) != FreeLevel2(t, Val(s, Double(f)), bad)
  {
    hide Owned, T.Sweep, FreeIndexes, Word, FreeLevel2;
    var b := Val(s, Double(f));
    T.SameWord(s, t, o, f, bad, T.DOUBLE, b, i);
    T.Level2Swept(s, t, o, f, bad);
    var x := DoubleIndex(f, i);
    FreedLater(s, t, FreeLevel2(t, b, bad).value, o, f, bad, T.DOUBLE, T.END, x);
    NotItself(s, o, x, Double(f));
    OnlyItself(t, b, Val(s, x));
  }

  lemma NotItself(s: FS, o: Owner, x: Slot, y: Slot)
    requires Owned(s, o) && x != y && Val(s, x) != 0
    ensures Val(s, x) != Val(s, y)
  {
  }

  // The state in which truncate calls free_level2.
  function AtLevel2(s: FS, f: nat, bad: set<nat>): (r: Option<FS>)
    requires Shaped(s) && f < |s.inodes|
    ensures r.Some? ==> Shaped(r.value)
  {
    var t := FreeDirect(s, f, DIRECT);
    if t.Some? then FreeLevel1(t.value, Pointer(t.value, f, INDEX_LEVEL1), bad) else None
  }

  // And the same of the double index block: its loop halts the kernel exactly when the first word names an index
  // block, and is right exactly when no word does.
  lemma Level2Agrees(s: FS, f: nat, bad: set<nat>)
    requires Safe(s) && f < |s.inodes|
    ensures Shaped(s) && AtLevel2(s, f, bad).Some?
    ensures var (t, b) := (AtLevel2(s, f, bad).value, Val(s, Double(f)));
      && (Level2(t, b, bad).None? <==> b != 0 && b !in bad && Word(t, b, 0) != 0)
      && (Level2(t, b, bad) == FreeLevel2(t, b, bad) <==>
          b == 0 || b in bad || forall i :: 0 <= i < WORDS ==> Word(t, b, i) == 0)
  {
    hide Owned, T.Sweep, T.Zeroed, Val, FreeDirect, Level2, FreeLevel1, FreeLevel2, Pointer;
    var o := AnOwner(s);
    T.DirectSwept(s, o, f, bad, DIRECT);
    var t := FreeDirect(s, f, DIRECT).value;
    T.LastPointers(s, t, f);
    T.Level1Swept(s, t, o, f, bad, None);
    Level2At(s, FreeLevel1(t, Pointer(t, f, INDEX_LEVEL1), bad).value, o, f, bad);
  }

  // ---- fs/truncate.c:95-99 -------------------------------------------------------------------

  // Every direct slot is freed, empty or not.
  function FreeDirectAll(s: FS, f: nat, n: nat): (r: Option<FS>)
    requires Shaped(s) && f < |s.inodes| && n <= DIRECT
    ensures r.Some? ==> Shaped(r.value) && r.value.disk == s.disk && |r.value.inodes| == |s.inodes|
  {
    if n == 0 then Some(s)
    else
      var t := FreeDirectAll(s, f, n - 1);
      if t.None? then None
      else
        var u := FreeBlock(t.value, Pointer(t.value, f, n - 1));
        if u.Some? then Some(SetPointer(u.value, f, n - 1, 0)) else None
  }

  lemma ZeroHalts(s: FS)
    requires Shaped(s)
    ensures FreeBlock(s, 0).None?
  {
  }

  lemma {:induction false} DirectSame(s: FS, o: Owner, f: nat, n: nat)
    requires Owned(s, o) && f < |s.inodes| && n <= DIRECT
    ensures Shaped(s)
    ensures (forall i :: 0 <= i < n ==> Pointer(s, f, i) != 0) ==> FreeDirectAll(s, f, n) == FreeDirect(s, f, n)
    ensures (exists i :: 0 <= i < n && Pointer(s, f, i) == 0) ==> FreeDirectAll(s, f, n).None?
  {
    hide Owned, T.Sweep, T.Zeroed, FreeBlock, Shaped, Pointer, SetPointer;
    OwnedShaped(s, o);
    if n > 0 {
      DirectSame(s, o, f, n - 1);
      T.DirectSwept(s, o, f, {}, n - 1);
      var t := FreeDirect(s, f, n - 1).value;
      T.PointerZeroed(s, t, t, f, n - 1);
      ZeroHalts(t);
    }
  }

  // So truncate halts the kernel unless all seven direct slots are in use.
  lemma DirectAgrees(s: FS, f: nat)
    requires Safe(s) && f < |s.inodes|
    ensures Shaped(s)
    ensures FreeDirectAll(s, f, DIRECT) == FreeDirect(s, f, DIRECT) <==>
      forall i :: 0 <= i < DIRECT ==> Pointer(s, f, i) != 0
    ensures FreeDirectAll(s, f, DIRECT).None? <==> exists i :: 0 <= i < DIRECT && Pointer(s, f, i) == 0
  {
    hide Owned, Pointer, FreeDirectAll, FreeDirect;
    var o := AnOwner(s);
    DirectSame(s, o, f, DIRECT);
    T.DirectSwept(s, o, f, {}, DIRECT);
  }

  // ---- fs/inode.c:101 and fs/inode.c:122-156 -------------------------------------------------

  // `block > 7 + 512 + 512 * 512` lets one block number too many through, and its word in the
  // double index block lies past the end of it.
  lemma LimitOffByOne(n: int)
    ensures (n < 0 || n > LIMIT) != (n < 0 || n >= LIMIT) <==> n == LIMIT
    ensures n >= LIMIT ==> (n - (DIRECT + WORDS)) / WORDS >= WORDS
  {
  }

  // ib_map_new for a block below the single index block. If that block is there, nothing is read at all: the value
  // returned is not set, `unset` stands for it, and a pointer that is not set is released. If it is missing, the
  // new number goes to word n of the fresh index block, not to word n - 7; from n = 512 on that is past the end of
  // its buffer, in the buffer that lies behind it in memory. `beside` says which block that one holds.
  function NewUnderSingle(s: FS, f: nat, n: nat, bad: set<nat>, unset: nat, beside: nat -> Option<nat>): (r: (FS, nat))
    requires Shaped(s) && DIRECT <= n < DIRECT + WORDS
    ensures Shaped(r.0)
  {
    if Val(s, Single(f)) != 0 then (s, unset)
    else
      var (t, c) := Take(s, Single(f));
      if c == 0 || c in bad then (t, 0)
      else if Word(t, c, n - DIRECT) != 0 then (t, Word(t, c, n - DIRECT))
      else
        var (u, b) := NewBlock(t);
        (if b == 0 then u else StoreAt(u, c, n, b, beside), b)
  }

  function StoreAt(s: FS, c: nat, n: nat, v: nat, beside: nat -> Option<nat>): (r: FS)
    requires n < DIRECT + WORDS && v < MAX_BLOCKS
    ensures r == s.(disk := r.disk) && |r.disk| == |s.disk|
  {
    if n < WORDS then if c < |s.disk| then SetWord(s, c, n, v) else s
    else if beside(c).Some? && beside(c).value < |s.disk| then SetWord(s, beside(c).value, n - WORDS, v)
    else s
  }

  // The store never reaches the word it is meant for.
  lemma StoreMisses(s: FS, c: nat, n: nat, v: nat, beside: nat -> Option<nat>)
    requires DIRECT <= n < DIRECT + WORDS && v < MAX_BLOCKS
    ensures Word(StoreAt(s, c, n, v, beside), c, n - DIRECT) == Word(s, c, n - DIRECT)
  {
  }

  // When the value that is not set happens to be right, and nothing had to be done.
  predicate NothingToDo(s: FS, f: nat, n: nat, bad: set<nat>, unset: nat)
    requires DIRECT <= n < DIRECT + WORDS
  {
    var (c, v) := (Val(s, Single(f)), Val(s, SingleEntry(f, n - DIRECT)));
    unset == (if c in bad then 0 else v) && (c in bad || v != 0 || false !in s.bits)
  }

  // The written lines do the right thing exactly when, with the index block there, the value that is not set
  // happens to be the one to return and no block can be added; with it missing, when no block can be added either:
  // at most one is free, or the one that becomes the index block cannot be read.
  lemma SingleAgrees(s: FS, f: nat, n: nat, bad: set<nat>, unset: nat, beside: nat -> Option<nat>)
    requires Safe(s) && f < |s.inodes| && DIRECT <= n < DIRECT + WORDS
    ensures Shaped(s)
    ensures NewUnderSingle(s, f, n, bad, unset, beside) == IbMapNew(s, f, n, bad) <==>
      if Val(s, Single(f)) != 0 then NothingToDo(s, f, n, bad, unset)
      else |FreeList(s)| <= 1 || FreeList(s)[0] in bad
  {
    SafeShaped(s);
    ThreeLevels(s, f, n, bad);
    if Val(s, Single(f)) != 0 {
      SinglePresent(s, f, n, bad, unset, beside);
    } else {
      SingleMissing(s, f, n, bad, unset, beside);
    }
  }

  lemma SinglePresent(s: FS, f: nat, n: nat, bad: set<nat>, unset: nat, beside: nat -> Option<nat>)
    requires Safe(s) && Shaped(s) && f < |s.inodes| && DIRECT <= n < DIRECT + WORDS && Val(s, Single(f)) != 0
    ensures NewUnderSingle(s, f, n, bad, unset, beside) == NewInSingle(s, f, n - DIRECT, bad) <==>
      NothingToDo(s, f, n, bad, unset)
  {
    hide Safe, Val, NewBlock;
    if Val(s, SingleEntry(f, n - DIRECT)) == 0 {
      UnchangedIff(s);
      NewBlockExact(s);
      var (t, b) := NewBlock(s);
      if b != 0 { StoreFrame(t, SingleEntry(f, n - DIRECT), b); }
    }
  }

  // new_block changes something exactly when a bit is clear, be it one beyond the zone.
  lemma UnchangedIff(s: FS)
    requires Shaped(s)
    ensures var (t, b) := NewBlock(s);
      && (t.bits == s.bits <==> false !in s.bits)
      && (false !in s.bits ==> (t, b) == (s, 0))
  {
    var i := FirstClear(s.bits, 0);
    if i < |s.bits| { assert NewBlock(s).0.bits[i] != s.bits[i]; }
  }

  lemma SingleMissing(s: FS, f: nat, n: nat, bad: set<nat>, unset: nat, beside: nat -> Option<nat>)
    requires Safe(s) && Shaped(s) && f < |s.inodes| && DIRECT <= n < DIRECT + WORDS && Val(s, Single(f)) == 0
    ensures NewUnderSingle(s, f, n, bad, unset, beside) == NewInSingle(s, f, n - DIRECT, bad) <==>
      |FreeList(s)| <= 1 || FreeList(s)[0] in bad
  {
    hide Safe, FreeList, NewBlock;
    var x := SingleEntry(f, n - DIRECT);
    TakeFromList(s, Single(f));
    var (t, c) := Take(s, Single(f));
    if c != 0 && c !in bad {
      assert Placed(t, x) && Val(t, x) == 0 && Word(t, c, n - DIRECT) == 0;
      NewTakesHead(t);
      TakeFromList(t, x);
      var (u, b) := NewBlock(t);
      if b != 0 {
        StoreMisses(u, c, n, b, beside);
        NewBlockExact(t);
        assert Word(u, c, n - DIRECT) == 0;
      }
    }
  }

  // What it hands out is not found under block n; below 512 it is found under block n + 7.
  lemma StoredElsewhere(s: FS, f: nat, n: nat, bad: set<nat>, unset: nat, beside: nat -> Option<nat>)
    requires Safe(s) && f < |s.inodes| && DIRECT <= n < DIRECT + WORDS && Val(s, Single(f)) == 0
    ensures Shaped(s)
    ensures var (t, b) := NewUnderSingle(s, f, n, bad, unset, beside);
      && IbMap(t, f, n, {}) == 0
      && (b != 0 && n < WORDS ==> IbMap(t, f, n + DIRECT, {}) == b)
  {
    SafeShaped(s);
    hide Safe, FreeList, NewBlock, Val, IbMap, StoreAt, Word, Take;
    LeafNames(s, f, n);
    TakeFromList(s, Single(f));
    var (t, c) := Take(s, Single(f));
    LeafNames(t, f, n);
    if c != 0 && c !in bad {
      NewBlockExact(t);
      var (u, b) := NewBlock(t);
      if b != 0 { FreshIsMissed(t, f, n, c, beside); }
      LeafNames(if b == 0 then u else StoreAt(u, c, n, b, beside), f, n);
      if b == 0 { SameWords(t, u, f, n); }
    }
  }

  lemma LeafNames(s: FS, f: nat, n: nat)
    requires DIRECT <= n < DIRECT + WORDS
    ensures Val(s, Single(f)) == Pointer(s, f, INDEX_LEVEL1)
    ensures IbMap(s, f, n, {}) == Val(s, SingleEntry(f, n - DIRECT)) == Word(s, Val(s, Single(f)), n - DIRECT)
    ensures n < WORDS ==> IbMap(s, f, n + DIRECT, {}) == Word(s, Val(s, Single(f)), n)
    ensures Val(s, Single(f)) == 0 ==> Val(s, SingleEntry(f, n - DIRECT)) == 0
  {
  }

  lemma SameWords(s: FS, t: FS, f: nat, n: nat)
    requires t.disk == s.disk && t.inodes == s.inodes && DIRECT <= n < DIRECT + WORDS
    ensures Word(t, Val(t, Single(f)), n - DIRECT) == Word(s, Val(s, Single(f)), n - DIRECT)
  {
  }

  lemma FreshIsMissed(t: FS, f: nat, n: nat, c: nat, beside: nat -> Option<nat>)
    requires Shaped(t) && DIRECT <= n < DIRECT + WORDS && 0 < c < |t.disk| && Word(t, c, n - DIRECT) == 0
    requires Val(t, Single(f)) == c && NewBlock(t).1 != 0
    ensures var (u, b) := NewBlock(t);
      var v := StoreAt(u, c, n, b, beside);
      && Val(v, Single(f)) == c && Word(v, c, n - DIRECT) == 0 && (n < WORDS ==> Word(v, c, n) == b)
  {
    hide NewBlock, Word;
    NewBlockExact(t);
    var (u, b) := NewBlock(t);
    FreshWord(t, b, c, n - DIRECT);
    StoreMisses(u, c, n, b, beside);
    if n < WORDS { StoreHits(u, c, n, b); }
  }

  lemma StoreHits(s: FS, c: nat, n: nat, v: nat)
    requires 0 < c < |s.disk| && n < WORDS && v < MAX_BLOCKS
    ensures Word(SetWord(s, c, n, v), c, n) == v
  {
  }

  // ---- fs/file_dev.c:41 and fs/file_dev.c:114 ------------------------------------------------

  // `while(count < 0)` does nothing for a count that is not negative; for a negative one it makes one turn, in
  // which no byte moves and the count is added to the number returned.
  function Read(s: FS, f: nat, h: File, count: int, bad: nat -> set<nat>): (seq<byte>, int) {
    var b := IbMap(s, f, h.offset / BLOCK_SIZE, bad(0));
    ([], if count >= 0 || b == 0 || b in bad(0) then 0 else count)
  }

  // That is right exactly when nothing is asked for or the first block cannot be had.
  lemma ReadAgrees(s: FS, f: nat, h: File, count: int, bad: nat -> set<nat>)
    requires Safe(s)
    ensures var d := if count <= 0 then [] else FileRead(s, f, h, count, bad).0;
      var b := IbMap(s, f, h.offset / BLOCK_SIZE, bad(0));
      Read(s, f, h, count, bad) == (d, |d|) <==> count == 0 || b == 0 || b in bad(0)
  {
    ByteOfLeaf(s, f, h.offset);
    hide Safe, Val, Leaf;
    if count > 0 {
      var b := IbMap(s, f, h.offset / BLOCK_SIZE, bad(0));
      assert b != 0 && b !in bad(0) ==> |ReadStep(s, f, h.offset, count, bad(0))| > 0;
      assert |FileRead(s, f, h, count, bad).0| >= |ReadStep(s, f, h.offset, count, bad(0))|;
    }
  }
}
