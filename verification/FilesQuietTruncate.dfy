// truncate runs to its end, too.
module FilesQuietTruncate {
  import opened Base
  import F = FilesModel
  import I = FilesInvariant
  import T = FilesTruncate
  import C = CacheModel
  import K = CacheProofs
  import opened FilesCached
  import opened FilesSeen
  import opened FilesSeenMap
  import opened FilesSeenTruncate
  import opened FilesQuiet

  // The blocks of the buffers in `mine` are in use at u.
  ghost predicate StillUsed(m: Mounted, mine: set<nat>, u: F.FS) {
    && F.Shaped(u) && u.first == m.first && u.nblocks == m.nblocks
    && forall j :: j in mine && j < |m.cache.bufs| && OfZone(m, m.cache.bufs[j].key) ==>
         F.Bit(u, m.cache.bufs[j].key.value.block)
  }

  // What was free or is freed on the way to u is not one of them.
  lemma FreedNotMine(m: Mounted, mine: set<nat>, u: F.FS, b: nat)
    requires StillUsed(m, mine, u) && (F.InZone(u, b) ==> !F.Bit(u, b)) && m.first <= b < m.nblocks
    ensures NotMine(m, mine, b)
  {
  }

  lemma StillUsedEarlier(m: Mounted, mine: set<nat>, t: F.FS, u: F.FS)
    requires StillUsed(m, mine, u) && F.Shaped(t) && t.first == u.first && t.nblocks == u.nblocks
    requires forall c :: F.InZone(t, c) && F.Bit(u, c) ==> F.Bit(t, c)
    ensures StillUsed(m, mine, t)
  {
  }

  lemma StillUsedLater(m: Mounted, n: Mounted, mine: set<nat>, k: nat, u: F.FS)
    requires StillUsed(m, mine, u) && Quiet(m, mine, k) && n.dev == m.dev && n.first == m.first
    requires n.nblocks == m.nblocks
    requires |n.cache.bufs| == |m.cache.bufs|
    requires forall i :: 0 <= i < |m.cache.bufs| && m.cache.bufs[i].count != 0 ==>
      n.cache.bufs[i].key == m.cache.bufs[i].key
    ensures StillUsed(n, mine, u)
  {
  }

  lemma FreeBlockRuns(m: Mounted, t: F.FS, b: nat, mine: set<nat>)
    requires Shows(m, t) && Quiet(m, mine, 0) && NotMine(m, mine, b) && F.FreeBlock(t, b).Some?
    ensures FreeBlock(m, b).end.Ran?
  {
    hide K.Inv, FreeBlock, F.FreeBlock, Clean, C.Find, NotMine, Quiet;
    ShowsFacts(m, t);
    FreeBlockSeen(m, b);
    CleanFree(t, b);
    FreeIsZone(t, b);
    NotHeld(m, mine, b);
  }

  lemma FreeIsZone(t: F.FS, b: nat)
    requires F.Shaped(t) && F.FreeBlock(t, b).Some?
    ensures F.InZone(t, b) && F.Shaped(F.FreeBlock(t, b).value) && !F.Bit(F.FreeBlock(t, b).value, b)
    ensures forall c :: F.InZone(t, c) && F.Bit(F.FreeBlock(t, b).value, c) ==> F.Bit(t, c)
  {
  }

  // ---- the words of one index block ----------------------------------------------------------

  lemma {:induction false} FreeWordsRuns(m: Mounted, j: nat, t: F.FS, b: nat, n: nat, mine: set<nat>)
    requires HoldsWords(m, j, t, b) && n <= F.WORDS && Quiet(m, mine, 0)
    requires F.Shaped(t) && F.FreeEntries(t, b, n).Some? && StillUsed(m, mine, F.FreeEntries(t, b, n).value)
    ensures FreeWords(m, j, n).end.Ran?
  {
    hide FreeBlock, F.FreeBlock, K.Inv, Clean, F.Word, K.HeldStay, Quiet, StillUsed, Shows;
    ShowsFacts(m, t);
    if n > 0 {
      var u, v, w := F.FreeEntries(t, b, n - 1).value, F.FreeEntries(t, b, n).value, F.Word(t, b, n - 1);
      if w != 0 { FreeIsZone(u, w); }
      StillUsedEarlier(m, mine, u, v);
      FreeWordsRuns(m, j, t, b, n - 1, mine);
      FreeWordsShows(m, j, t, b, n - 1);
      var r := FreeWords(m, j, n - 1);
      HoldsLater(m, r.m, j, t, u, b);
      WordIs(r.m, j, u, b, n - 1);
      SameWordOnDisk(t, u, b, n - 1);
      if w != 0 { WordRuns(m, r.m, u, w, mine); }
    }
  }

  lemma WordRuns(m: Mounted, p: Mounted, u: F.FS, w: nat, mine: set<nat>)
    requires K.Inv(m.cache) && Still(m, p) && Shows(p, u) && Quiet(m, mine, 0) && F.FreeBlock(u, w).Some?
    requires StillUsed(m, mine, F.FreeBlock(u, w).value)
    ensures FreeBlock(p, w).end.Ran?
  {
    hide FreeBlock, F.FreeBlock, K.Inv, Clean, Quiet, StillUsed, NotMine, Shows;
    ShowsFacts(p, u);
    FreeIsZone(u, w);
    StillFine(m, p);
    QuietFine(m, p, mine, 0);
    StillUsedLater(m, p, mine, 0, F.FreeBlock(u, w).value);
    UsedShape(p, mine, F.FreeBlock(u, w).value);
    FreedNotMine(p, mine, F.FreeBlock(u, w).value, w);
    FreeBlockRuns(p, u, w, mine);
  }

  lemma UsedShape(m: Mounted, mine: set<nat>, u: F.FS)
    requires StillUsed(m, mine, u)
    ensures u.first == m.first && u.nblocks == m.nblocks
  {
  }

  // ---- free_level1 ---------------------------------------------------------------------------

  // Whether block b can be read or not, it can be freed, and the blocks in `mine` are then still in use.
  ghost predicate Level1Goes(m: Mounted, t: F.FS, b: nat, mine: set<nat>) {
    && F.Shaped(t)
    && F.FreeLevel1(t, b, {}).Some? && StillUsed(m, mine, F.FreeLevel1(t, b, {}).value)
    && F.FreeLevel1(t, b, {b}).Some? && StillUsed(m, mine, F.FreeLevel1(t, b, {b}).value)
  }

  lemma FreeLevel1Runs(m: Mounted, t: F.FS, b: nat, dead: set<nat>, mine: set<nat>)
    requires Shows(m, t) && Room(m) && Quiet(m, mine, 1) && Level1Goes(m, t, b, mine)
    ensures FreeLevel1(m, b, dead).end.Ran?
  {
    hide FreeBlock, F.FreeBlock, K.Inv, Clean, C.Bread, FreeWords;
    hide F.FreeEntries, Released, K.HeldStay, Room, Quiet, StillUsed;
    ShowsFacts(m, t);
    if b != 0 {
      T.Level1Clears(t, b, {b}, b);
      QuietIdle(m, mine, 1);
      ReadRuns(m, b, b !in dead);
      ReadSeen(m, b, b !in dead);
      var (d, g) := C.Bread(m.cache, At(m, b), b !in dead);
      var n := m.(cache := d);
      if g.Failed? {
        StillRead(m, n);
        Less(m, mine, 1, 0);
        WordRuns(m, n, t, b, mine);
      } else {
        Level1HeldRuns(m, n, g.i, t, b, mine);
      }
    }
  }

  lemma Level1HeldRuns(m: Mounted, n: Mounted, j: nat, t: F.FS, b: nat, mine: set<nat>)
    requires Shows(m, t) && Room(m) && Quiet(m, mine, 1) && Level1Goes(m, t, b, mine) && b != 0
    requires n == m.(cache := n.cache) && Kin(m, n) && Kept(m.cache, n.cache) && Shows(n, t)
    requires j < |m.cache.bufs| && n.cache.refs == m.cache.refs[j := m.cache.refs[j] + 1]
    requires n.cache.bufs[j].uptodate && n.cache.bufs[j].count != 0 && n.cache.bufs[j].key == Some(At(m, b))
    requires b < m.nblocks && !Unused(m, b) ==> n.cache.bufs[j].data == Seen(m).disk[b]
    ensures var r := Released(FreeWords(n, j, F.WORDS), j);
      r.end.Ran? && FreeBlock(r.m, b).end.Ran?
  {
    hide FreeBlock, F.FreeBlock, K.Inv, Clean, FreeWords, F.FreeEntries, Released, K.HeldStay, Room, Quiet, StillUsed;
    ShowsFacts(m, t);
    T.Level1Clears(t, b, {}, b);
    var u := F.FreeEntries(t, b, F.WORDS).value;
    FreeIsZone(u, b);
    QuietRead(m, n, j, mine, 0);
    Level1Used(m, n, j, t, u, b, mine);
    FreeWordsRuns(n, j, t, b, F.WORDS, mine + {j});
    FreeWordsShows(n, j, t, b, F.WORDS);
    var w := FreeWords(n, j, F.WORDS);
    GoesBack(n.cache, w.m.cache, j);
    ReleasedRuns(w, j);
    StillThrough(m, n, w, j);
    var r := Released(w, j);
    ShowsSame(w.m, r.m, u);
    Less(m, mine, 1, 0);
    WordRuns(m, r.m, u, b, mine);
  }

  // Before the index block itself is freed, its own block is in use as well.
  lemma Level1Used(m: Mounted, n: Mounted, j: nat, t: F.FS, u: F.FS, b: nat, mine: set<nat>)
    requires Quiet(m, mine, 1) && Kept(m.cache, n.cache) && n == m.(cache := n.cache)
    requires |n.cache.bufs| == |m.cache.bufs|
    requires F.Shaped(u) && F.FreeBlock(u, b).Some? && StillUsed(m, mine, F.FreeBlock(u, b).value)
    requires j < |n.cache.bufs| && n.cache.bufs[j].key == Some(At(m, b))
    ensures StillUsed(n, mine + {j}, u)
  {
    hide K.Inv;
  }

  // ---- free_level2 ---------------------------------------------------------------------------

  // Whichever index blocks cannot be read, all words can be freed, and block b is then still in use.
  ghost predicate IndexesGo(t: F.FS, b: nat) {
    && F.Shaped(t) && F.InZone(t, b)
    && forall bad :: F.FreeIndexes(t, b, bad, F.WORDS).Some? && F.Bit(F.FreeIndexes(t, b, bad, F.WORDS).value, b)
  }

  lemma {:induction false} IndexesPrefix(t: F.FS, b: nat, bad: set<nat>, n: nat, k: nat, c: nat)
    requires F.Shaped(t) && n <= k <= F.WORDS && F.FreeIndexes(t, b, bad, k).Some? && F.InZone(t, c)
    requires F.Bit(F.FreeIndexes(t, b, bad, k).value, c)
    ensures F.FreeIndexes(t, b, bad, n).Some? && F.Bit(F.FreeIndexes(t, b, bad, n).value, c)
    decreases k
  {
    hide F.FreeLevel1, F.Word;
    if n < k {
      T.Level1Clears(F.FreeIndexes(t, b, bad, k - 1).value, F.Word(t, b, k - 1), bad, c);
      IndexesPrefix(t, b, bad, n, k - 1, c);
    }
  }

  lemma IndexesGoAt(t: F.FS, b: nat, bad: set<nat>, n: nat)
    requires IndexesGo(t, b) && n <= F.WORDS
    ensures F.FreeIndexes(t, b, bad, n).Some? && F.Bit(F.FreeIndexes(t, b, bad, n).value, b)
  {
    hide F.FreeIndexes;
    IndexesPrefix(t, b, bad, n, F.WORDS, b);
  }

  // The next word can be freed, whether its block can be read or not, and b is then still in use.
  lemma NextGoes(t: F.FS, b: nat, bad: set<nat>, n: nat)
    requires IndexesGo(t, b) && 0 < n <= F.WORDS && F.FreeIndexes(t, b, bad, n - 1).Some?
    requires WereFreed(t, F.FreeIndexes(t, b, bad, n - 1).value, bad)
    ensures var (u, w) := (F.FreeIndexes(t, b, bad, n - 1).value, F.Word(t, b, n - 1));
      && F.FreeLevel1(u, w, {}).Some? && F.Bit(F.FreeLevel1(u, w, {}).value, b)
      && F.FreeLevel1(u, w, {w}).Some? && F.Bit(F.FreeLevel1(u, w, {w}).value, b)
  {
    hide F.FreeLevel1, F.Word, IndexesGo;
    ZoneOfIndexes(t, b);
    var (u, w) := (F.FreeIndexes(t, b, bad, n - 1).value, F.Word(t, b, n - 1));
    IndexesGoAt(t, b, bad, n);
    T.Level1Clears(u, w, bad, w);
    Level1SameBad(u, w, bad, {});
    if w == 0 {
      Level1SameBad(u, w, {}, {w});
    } else {
      UnreadGoes(u, w);
      NextIndex(t, b, bad, {w}, n);
      IndexesGoAt(t, b, bad + {w}, n);
    }
  }

  lemma UnreadGoes(u: F.FS, w: nat)
    requires F.Shaped(u) && F.InZone(u, w) && F.Bit(u, w)
    ensures F.FreeLevel1(u, w, {w}).Some?
  {
  }

  lemma {:induction false} FreeIndexesRuns(m: Mounted, j: nat, t: F.FS, b: nat, dead: set<nat>, n: nat)
    requires HoldsWords(m, j, t, b) && Room(m) && n <= F.WORDS && Quiet(m, {j}, 1) && IndexesGo(t, b)
    requires m.cache.bufs[j].key == Some(At(m, b))
    ensures FreeIndexes(m, j, dead, n).end.Ran?
  {
    hide FreeLevel1, F.FreeLevel1, K.Inv, Clean, F.Word, K.HeldStay;
    hide WereFreed, Room, F.FreeIndexes, Quiet, Shows, IndexesGo;
    hide Level1Goes;
    ShowsFacts(m, t);
    ZoneOfIndexes(t, b);
    if n > 0 {
      FreeIndexesRuns(m, j, t, b, dead, n - 1);
      FreeIndexesShows(m, j, t, b, dead, n - 1);
      var r := FreeIndexes(m, j, dead, n - 1);
      var u := F.FreeIndexes(t, b, r.bad, n - 1).value;
      HoldsLater(m, r.m, j, t, u, b);
      WordIs(r.m, j, u, b, n - 1);
      SameWordOnDisk(t, u, b, n - 1);
      StillRoom(m, r.m);
      StillFine(m, r.m);
      QuietFine(m, r.m, {j}, 1);
      ShowsFacts(r.m, u);
      NextGoes(t, b, r.bad, n);
      OneMine(r.m, j, u, F.Word(t, b, n - 1), b);
      FreeLevel1Runs(r.m, u, F.Word(t, b, n - 1), dead, {j});
    }
  }

  lemma OneMine(m: Mounted, j: nat, u: F.FS, w: nat, b: nat)
    requires j < |m.cache.bufs| && m.cache.bufs[j].key == Some(At(m, b)) && F.Shaped(u) && F.InZone(u, b)
    requires u.first == m.first && u.nblocks == m.nblocks
    requires F.FreeLevel1(u, w, {}).Some? && F.Bit(F.FreeLevel1(u, w, {}).value, b)
    requires F.FreeLevel1(u, w, {w}).Some? && F.Bit(F.FreeLevel1(u, w, {w}).value, b)
    ensures Level1Goes(m, u, w, {j})
  {
    hide F.FreeLevel1;
  }

  lemma FreeLevel2Runs(m: Mounted, t: F.FS, b: nat, dead: set<nat>)
    requires Shows(m, t) && Low(m) && Quiet(m, {}, 2) && F.Shaped(t)
    requires forall bad :: F.FreeLevel2(t, b, bad).Some?
    ensures FreeLevel2(m, b, dead).end.Ran?
  {
    hide FreeBlock, K.Inv, Clean, C.Bread, FreeIndexes, F.FreeIndexes, Released, K.HeldStay, Low, Quiet, F.FreeLevel2;
    ShowsFacts(m, t);
    if b != 0 {
      LowRoom(m);
      QuietIdle(m, {}, 2);
      Level2Goes(t, b);
      ZoneOfIndexes(t, b);
      ReadRuns(m, b, b !in dead);
      ReadSeen(m, b, b !in dead);
      var (d, g) := C.Bread(m.cache, At(m, b), b !in dead);
      var n := m.(cache := d);
      Level2Goes(t, b);
      if g.Failed? {
        StillRead(m, n);
        NobodyUses(n, t, b);
        Less(m, {}, 2, 0);
        StillFine(m, n);
        QuietFine(m, n, {}, 0);
        NothingMine(n, b);
        FreeBlockRuns(n, t, b, {});
      } else {
        Level2HeldRuns(m, n, g.i, t, b, dead);
      }
    }
  }

  lemma NobodyUses(m: Mounted, t: F.FS, b: nat)
    requires F.Shaped(t) && F.FreeLevel2(t, b, {b}).Some? && b != 0
    ensures F.FreeBlock(t, b).Some?
  {
  }

  lemma Level2Goes(t: F.FS, b: nat)
    requires F.Shaped(t) && b != 0 && forall bad :: F.FreeLevel2(t, b, bad).Some?
    ensures IndexesGo(t, b) && F.FreeLevel2(t, b, {b}).Some? && F.Bit(t, b)
  {
    hide F.FreeIndexes, F.FreeBlock;
    assert F.FreeLevel2(t, b, {b}).Some?;
    FreeHasBit(t, b);
    forall bad ensures F.FreeIndexes(t, b, bad, F.WORDS).Some? && F.Bit(F.FreeIndexes(t, b, bad, F.WORDS).value, b) {
      assert F.FreeLevel2(t, b, bad - {b}).Some?;
      FreeHasBit(F.FreeIndexes(t, b, bad - {b}, F.WORDS).value, b);
      T.IndexesClear(t, b, bad - {b}, F.WORDS, b);
      forall i | 0 <= i < F.WORDS && F.Word(t, b, i) != 0
        ensures F.Word(t, b, i) in bad - {b} <==> F.Word(t, b, i) in bad
      {
      }
      SameBad(t, b, bad - {b}, bad, F.WORDS);
    }
  }

  lemma FreeHasBit(t: F.FS, b: nat)
    requires F.Shaped(t) && F.FreeBlock(t, b).Some?
    ensures F.InZone(t, b) && F.Bit(t, b)
  {
  }

  lemma Level2HeldRuns(m: Mounted, n: Mounted, j: nat, t: F.FS, b: nat, dead: set<nat>)
    requires Shows(m, t) && Low(m) && Quiet(m, {}, 2) && IndexesGo(t, b) && F.Bit(t, b)
    requires n == m.(cache := n.cache) && Kin(m, n) && Kept(m.cache, n.cache) && Shows(n, t)
    requires j < |m.cache.bufs| && n.cache.refs == m.cache.refs[j := m.cache.refs[j] + 1]
    requires n.cache.bufs[j].uptodate && n.cache.bufs[j].count != 0 && n.cache.bufs[j].key == Some(At(m, b))
    requires b < m.nblocks && !Unused(m, b) ==> n.cache.bufs[j].data == Seen(m).disk[b]
    ensures var r := Released(FreeIndexes(n, j, dead, F.WORDS), j);
      r.end.Ran? && FreeBlock(r.m, b).end.Ran?
  {
    hide FreeBlock, F.FreeBlock, K.Inv, Clean, FreeIndexes, F.FreeIndexes;
    hide Released, K.HeldStay, Low, Room, Quiet, IndexesGo;
    ShowsFacts(m, t);
    ZoneOfIndexes(t, b);
    LowRoom(m);
    OneTaken(m, n, j);
    QuietRead(m, n, j, {}, 1);
    assert {} + {j} == {j};
    FreeIndexesRuns(n, j, t, b, dead, F.WORDS);
    FreeIndexesShows(n, j, t, b, dead, F.WORDS);
    var w := FreeIndexes(n, j, dead, F.WORDS);
    var u := F.FreeIndexes(t, b, w.bad, F.WORDS).value;
    IndexesGoAt(t, b, w.bad, F.WORDS);
    GoesBack(n.cache, w.m.cache, j);
    ReleasedRuns(w, j);
    StillThrough(m, n, w, j);
    var r := Released(w, j);
    ShowsSame(w.m, r.m, u);
    BitFrees(u, b);
    Less(m, {}, 2, 0);
    StillFine(m, r.m);
    QuietFine(m, r.m, {}, 0);
    NothingMine(r.m, b);
    FreeBlockRuns(r.m, u, b, {});
  }

  lemma ZoneOfIndexes(t: F.FS, b: nat)
    requires IndexesGo(t, b)
    ensures F.Shaped(t) && F.InZone(t, b)
  {
  }

  lemma BitFrees(t: F.FS, b: nat)
    requires F.Shaped(t) && F.InZone(t, b) && F.Bit(t, b)
    ensures F.FreeBlock(t, b).Some?
  {
  }

  // ---- all of it -----------------------------------------------------------------------------

  lemma {:induction false} FreeDirectRuns(m: Mounted, t: F.FS, f: nat, n: nat)
    requires Shows(m, t) && F.Shaped(t) && f < |m.inodes| && |t.inodes| == |m.inodes| && n <= F.DIRECT
    requires Quiet(m, {}, 0) && F.FreeDirect(t, f, n).Some?
    ensures FreeDirect(m, f, n).end.Ran?
  {
    hide FreeBlock, F.FreeBlock, K.Inv, Clean, K.HeldStay, F.SetPointer, SetPointer, Shows, Quiet;
    ShowsFacts(m, t);
    if n > 0 {
      FreeDirectRuns(m, t, f, n - 1);
      FreeDirectShows(m, t, f, n - 1);
      var r := FreeDirect(m, f, n - 1);
      var u := F.FreeDirect(t, f, n - 1).value;
      DirectStep(m, r.m, u, f, n - 1);
      StillFine(m, r.m);
      QuietFine(m, r.m, {}, 0);
      var v := r.m.inodes[f].data[n - 1];
      NothingMine(r.m, v);
      if v != 0 { FreeBlockRuns(r.m, u, v, {}); }
    }
  }

  // Everything about the trees in the model that the calls need.
  lemma ModelGoes(s: F.FS, f: nat, bad: set<nat>)
    requires I.Safe(s) && f < |s.inodes|
    ensures F.Shaped(s) && F.FreeDirect(s, f, F.DIRECT).Some?
    ensures var t := F.FreeDirect(s, f, F.DIRECT).value;
      var u := F.FreeLevel1(t, F.Pointer(t, f, F.INDEX_LEVEL1), bad);
      u.Some? && F.FreeLevel2(u.value, F.Pointer(u.value, f, F.INDEX_LEVEL2), bad).Some?
  {
    hide F.FreeDirect, F.FreeLevel1, F.FreeLevel2, I.Owned, T.Truncated;
    var o := I.AnOwner(s);
    I.OwnedShaped(s, o);
    T.TruncateSweeps(s, o, f, bad);
  }

  // The second tree can be freed whatever cannot be read of it, after the first one was freed without `now`.
  lemma SecondGoes(s: F.FS, f: nat, now: set<nat>)
    requires I.Safe(s) && f < |s.inodes|
    ensures F.Shaped(s) && F.FreeDirect(s, f, F.DIRECT).Some?
    ensures var t := F.FreeDirect(s, f, F.DIRECT).value;
      var b := F.Pointer(t, f, F.INDEX_LEVEL1);
      now <= {b} && (b == 0 ==> now == {}) ==>
        var u := F.FreeLevel1(t, b, now);
        u.Some? && forall bad :: F.FreeLevel2(u.value, F.Pointer(u.value, f, F.INDEX_LEVEL2), bad).Some?
  {
    hide F.FreeDirect, F.FreeLevel1, F.FreeLevel2, I.Safe;
    ModelGoes(s, f, now);
    var t := F.FreeDirect(s, f, F.DIRECT).value;
    var b := F.Pointer(t, f, F.INDEX_LEVEL1);
    if now <= {b} && (b == 0 ==> now == {}) {
      var u := F.FreeLevel1(t, b, now).value;
      var e := F.Pointer(u, f, F.INDEX_LEVEL2);
      T.Level1Clears(t, b, now, b);
      forall bad ensures F.FreeLevel2(u, e, bad).Some? {
        var ill := bad - {b} + now;
        ModelGoes(s, f, ill);
        Level1SameBad(t, b, now, ill);
        Level2SameBad(u, e, ill, bad);
      }
    }
  }

  // truncate runs to its end.
  lemma TruncateRuns(m: Mounted, f: nat, dead: set<nat>)
    requires Calm(m) && I.Safe(Seen(m)) && f < |m.inodes|
    ensures Truncate(m, f, dead).end.Ran?
  {
    hide K.Inv, Clean, K.HeldStay, FreeDirect, F.FreeDirect, FreeLevel1;
    hide F.FreeLevel1, FreeLevel2, F.FreeLevel2, Low, Quiet;
    hide I.Safe, Room, Level1Goes;
    CalmReady(m);
    var s := Seen(m);
    SeenIsClean(m);
    Less(m, {}, 2, 0);
    ModelGoes(s, f, {});
    FreeDirectRuns(m, s, f, F.DIRECT);
    FreeDirectShows(m, s, f, F.DIRECT);
    var p := FreeDirect(m, f, F.DIRECT);
    LevelsRun(m, p.m, f, dead);
  }

  lemma LevelsRun(m: Mounted, p: Mounted, f: nat, dead: set<nat>)
    requires Ready(m) && Low(m) && I.Safe(Seen(m)) && f < |m.inodes| == |p.inodes| && Quiet(m, {}, 2) && Still(m, p)
    requires F.FreeDirect(Seen(m), f, F.DIRECT).Some? && Shows(p, F.FreeDirect(Seen(m), f, F.DIRECT).value)
    ensures var q := FreeLevel1(p, p.inodes[f].data[F.INDEX_LEVEL1], dead);
      q.end.Ran? && FreeLevel2(q.m, q.m.inodes[f].data[F.INDEX_LEVEL2], dead).end.Ran?
  {
    hide K.Inv, Clean, K.HeldStay, FreeLevel1, F.FreeLevel1, FreeLevel2, F.FreeLevel2, Low, Quiet, F.FreeDirect, Shows;
    hide I.Safe, Room, Level1Goes;
    var t := F.FreeDirect(Seen(m), f, F.DIRECT).value;
    LowRoom(m);
    StillRoom(m, p);
    ShowsFacts(p, t);
    StillFine(m, p);
    QuietFine(m, p, {}, 2);
    Less(p, {}, 2, 1);
    var b := p.inodes[f].data[F.INDEX_LEVEL1];
    NoneMine(m, p, t, f, b);
    FreeLevel1Runs(p, t, b, dead, {});
    FreeLevel1Shows(p, t, b, dead);
    var q := FreeLevel1(p, b, dead);
    var u := F.FreeLevel1(t, b, q.bad).value;
    ShowsFacts(q.m, u);
    StillThen(m, p, q.m);
    StillLow(m, q.m);
    StillFine(m, q.m);
    QuietFine(m, q.m, {}, 2);
    SecondGoes(Seen(m), f, q.bad);
    assert b == F.Pointer(t, f, F.INDEX_LEVEL1);
    assert q.m.inodes[f].data[F.INDEX_LEVEL2] == F.Pointer(u, f, F.INDEX_LEVEL2);
    FreeLevel2Runs(q.m, u, q.m.inodes[f].data[F.INDEX_LEVEL2], dead);
  }

  lemma NoneMine(m: Mounted, p: Mounted, t: F.FS, f: nat, b: nat)
    requires Fit(m) && I.Safe(Seen(m)) && f < |m.inodes| && F.FreeDirect(Seen(m), f, F.DIRECT) == Some(t)
    requires F.Shaped(t) && b == F.Pointer(t, f, F.INDEX_LEVEL1) && t.first == p.first && t.nblocks == p.nblocks
    ensures Level1Goes(p, t, b, {})
  {
    hide F.FreeDirect, F.FreeLevel1, F.FreeLevel2, I.Safe;
    ModelGoes(Seen(m), f, {});
    ModelGoes(Seen(m), f, {b});
  }
}
