// truncate through the cache.
module FilesSeenTruncate {
  import opened Base
  import F = FilesModel
  import T = FilesTruncate
  import C = CacheModel
  import K = CacheProofs
  import opened FilesCached
  import opened FilesSeen
  import opened FilesSeenMap

  // What a call leaves that stores into no buffer: held buffers stay as they are, not only where they are.
  ghost predicate Still(m: Mounted, n: Mounted) {
    Fit(m) && Kin(m, n) && Kept(m.cache, n.cache) && n.cache.refs == m.cache.refs
  }

  lemma StillThen(m: Mounted, n: Mounted, o: Mounted)
    requires K.Inv(m.cache) && Still(m, n) && Still(n, o)
    ensures Still(m, o)
  {
    hide K.Inv, K.HeldStay, Fit;
    K.InvShaped(m.cache);
    K.InvShaped(n.cache);
    K.HeldStayThen(m.cache, n.cache, o.cache);
  }

  lemma StillSelf(m: Mounted)
    requires Fit(m) && K.Inv(m.cache)
    ensures Still(m, m)
  {
    SelfKept(m.cache);
  }

  lemma StillFine(m: Mounted, n: Mounted)
    requires Still(m, n)
    ensures Fine(m, n)
  {
    hide K.Inv;
  }

  lemma StillRoom(m: Mounted, n: Mounted)
    requires K.Inv(m.cache) && Still(m, n) && Room(m)
    ensures Room(n)
  {
    hide K.Inv;
    K.InvShaped(m.cache);
    K.InvShaped(n.cache);
  }

  // The buffer that is held stays as it is.
  lemma StillBuffer(m: Mounted, n: Mounted, j: nat)
    requires Still(m, n) && K.Inv(m.cache) && j < |m.cache.bufs| && m.cache.bufs[j].uptodate
    requires m.cache.bufs[j].count != 0
    ensures n.cache.bufs[j].uptodate && n.cache.bufs[j].data == m.cache.bufs[j].data && n.cache.bufs[j].count != 0
  {
    hide K.Inv;
    K.InvShaped(m.cache);
    K.InvShaped(n.cache);
  }

  // A buffer was read, something was done while it was held, and it was given back.
  lemma StillThrough(m: Mounted, n: Mounted, r: Out, j: nat)
    requires Fit(m) && K.Inv(m.cache) && Kin(m, n) && Kept(m.cache, n.cache) && Still(n, r.m)
    requires j < |m.cache.bufs| && n.cache.bufs[j].count != 0 && n.cache.refs == m.cache.refs[j := m.cache.refs[j] + 1]
    ensures var o := Released(r, j);
      o.end.Ran? ==> r.end.Ran? && Still(m, o.m) && Seen(o.m) == Seen(r.m) && o.bad == r.bad && o.m.bits == r.m.bits
  {
    hide K.Inv, C.Logical, C.Brelease, K.HeldStay;
    GiveBack(r.m.cache, j);
    var d := C.Brelease(r.m.cache, j);
    if r.end.Ran? && d.Some? {
      assert m.cache.refs[j := m.cache.refs[j] + 1][j := m.cache.refs[j]] == m.cache.refs;
      SeenSame(r.m, r.m.(cache := d.value));
      CountsUp(m.cache, n.cache, j);
      K.InvShaped(n.cache);
      K.InvShaped(r.m.cache);
      K.HeldStayThen(m.cache, n.cache, r.m.cache);
      K.HeldStayThen(m.cache, r.m.cache, d.value);
    }
  }

  lemma CountsUp(c: C.Cache, d: C.Cache, j: nat)
    requires K.Inv(c) && K.Inv(d) && j < |c.bufs| == |d.bufs| && d.refs == c.refs[j := c.refs[j] + 1]
    requires d.bufs[j].count != 0
    ensures forall i :: 0 <= i < |c.bufs| && c.bufs[i].count != 0 ==> d.bufs[i].count != 0
  {
    hide K.Inv;
    K.InvShaped(c);
    K.InvShaped(d);
  }

  // ---- free_block up to the contents of free blocks ------------------------------------------

  // m shows what the model has at t.
  ghost predicate Shows(m: Mounted, t: F.FS) { Fit(m) && K.Inv(m.cache) && F.Shaped(t) && Seen(m) == Clean(t) }

  lemma ShowsFacts(m: Mounted, t: F.FS)
    requires Shows(m, t)
    ensures Fit(m) && K.Inv(m.cache)
    ensures F.Shaped(t) && m.bits == t.bits && m.inodes == t.inodes && m.first == t.first && m.nblocks == t.nblocks
    ensures forall b :: 0 <= b < m.nblocks && !Unused(m, b) ==> Seen(m).disk[b] == t.disk[b]
  {
    assert Clean(t).bits == t.bits;
  }

  lemma CleanFree(t: F.FS, b: nat)
    requires F.Shaped(t)
    ensures F.FreeBlock(Clean(t), b).Some? <==> F.FreeBlock(t, b).Some?
    ensures F.FreeBlock(t, b).Some? ==> Clean(F.FreeBlock(Clean(t), b).value) == Clean(F.FreeBlock(t, b).value)
  {
    if F.FreeBlock(t, b).Some? {
      assert Clean(F.FreeBlock(Clean(t), b).value).disk == Clean(F.FreeBlock(t, b).value).disk;
    }
  }

  lemma FreeShows(m: Mounted, t: F.FS, b: nat)
    requires Shows(m, t)
    ensures var r := FreeBlock(m, b);
      r.end.Ran? ==> F.FreeBlock(t, b).Some? && Shows(r.m, F.FreeBlock(t, b).value) && Still(m, r.m)
  {
    hide K.Inv, FreeBlock, F.FreeBlock, Clean, K.HeldStay, C.Find;
    FreeBlockSeen(m, b);
    CleanFree(t, b);
    FreeShaped(t, b);
  }

  lemma FreeShaped(t: F.FS, b: nat)
    requires F.Shaped(t)
    ensures F.FreeBlock(t, b).Some? ==> F.Shaped(F.FreeBlock(t, b).value)
  {
  }

  // ---- free_level1 ---------------------------------------------------------------------------

  // Buffer j is held and has the words of block b.
  ghost predicate HoldsWords(m: Mounted, j: nat, t: F.FS, b: nat) {
    && Shows(m, t) && j < |m.cache.bufs| && m.cache.bufs[j].uptodate && m.cache.bufs[j].count != 0
    && 0 < b < |t.disk| && t.disk[b] == m.cache.bufs[j].data
  }

  lemma WordIs(m: Mounted, j: nat, t: F.FS, b: nat, i: nat)
    requires HoldsWords(m, j, t, b) && i < F.WORDS
    ensures F.U16At(m.cache.bufs[j].data, i) == F.Word(t, b, i)
  {
  }

  lemma HoldsLater(m: Mounted, n: Mounted, j: nat, t: F.FS, u: F.FS, b: nat)
    requires HoldsWords(m, j, t, b) && Still(m, n) && Shows(n, u) && u.disk == t.disk
    ensures HoldsWords(n, j, u, b)
  {
    hide K.Inv, Clean;
    StillBuffer(m, n, j);
  }

  lemma {:induction false} FreeWordsShows(m: Mounted, j: nat, t: F.FS, b: nat, n: nat)
    requires HoldsWords(m, j, t, b) && n <= F.WORDS
    ensures F.Shaped(t)
    ensures var r := FreeWords(m, j, n);
      r.end.Ran? ==>
        F.FreeEntries(t, b, n).Some? && Shows(r.m, F.FreeEntries(t, b, n).value) && Still(m, r.m) && r.bad == {}
  {
    hide FreeBlock, F.FreeBlock, F.Word, HoldsWords, Shows, Still;
    HoldsFacts(m, j, t, b);
    if n > 0 {
      FreeWordsShows(m, j, t, b, n - 1);
      var r := FreeWords(m, j, n - 1);
      if r.end.Ran? { OneWordShows(m, r.m, j, t, F.FreeEntries(t, b, n - 1).value, b, n - 1); }
    }
  }

  lemma HoldsFacts(m: Mounted, j: nat, t: F.FS, b: nat)
    requires HoldsWords(m, j, t, b)
    ensures Fit(m) && j < |m.cache.bufs| && F.Shaped(t) && Shows(m, t) && Still(m, m)
  {
    hide K.Inv, Clean, K.HeldStay;
    StillSelf(m);
  }

  // The next word, after the state p was reached.
  lemma OneWordShows(m: Mounted, p: Mounted, j: nat, t: F.FS, u: F.FS, b: nat, i: nat)
    requires HoldsWords(m, j, t, b) && Still(m, p) && Shows(p, u) && u.disk == t.disk && i < F.WORDS
    ensures j < |p.cache.bufs| && Fit(p) && F.Shaped(u)
    ensures var w := F.U16At(p.cache.bufs[j].data, i);
      && w == F.Word(t, b, i)
      && (w != 0 && FreeBlock(p, w).end.Ran? ==>
           F.FreeBlock(u, w).Some? && Shows(FreeBlock(p, w).m, F.FreeBlock(u, w).value) && Still(m, FreeBlock(p, w).m))
  {
    hide FreeBlock, F.FreeBlock, K.Inv, Clean, F.Word, K.HeldStay;
    HoldsLater(m, p, j, t, u, b);
    WordIs(p, j, u, b, i);
    SameWordOnDisk(t, u, b, i);
    FreeShows(p, u, F.Word(t, b, i));
    if FreeBlock(p, F.Word(t, b, i)).end.Ran? { StillThen(m, p, FreeBlock(p, F.Word(t, b, i)).m); }
  }

  lemma SameWordOnDisk(t: F.FS, u: F.FS, b: nat, i: nat)
    requires u.disk == t.disk
    ensures F.Word(u, b, i) == F.Word(t, b, i)
  {
  }

  // A free block stays free.
  lemma {:induction false} StaysUnused(m: Mounted, j: nat, n: nat, b: nat)
    requires Fit(m) && j < |m.cache.bufs| && n <= F.WORDS && Unused(m, b)
    ensures Unused(FreeWords(m, j, n).m, b)
  {
    hide FreeBlock;
    if n > 0 {
      StaysUnused(m, j, n - 1, b);
      var r := FreeWords(m, j, n - 1);
      FreeBlockStays(r.m, F.U16At(r.m.cache.bufs[j].data, n - 1), b);
    }
  }

  lemma FreeBlockStays(m: Mounted, w: nat, b: nat)
    requires Fit(m) && Unused(m, b)
    ensures Unused(FreeBlock(m, w).m, b)
  {
  }

  lemma FreeUnused(m: Mounted, b: nat)
    requires Fit(m) && (m.first <= b < m.nblocks ==> Unused(m, b))
    ensures !FreeBlock(m, b).end.Ran?
  {
  }

  // Outside the zone free_block halts in the end, whatever the words that were read.
  lemma OutsideHalts1(m: Mounted, b: nat, dead: set<nat>)
    requires Fit(m) && !(m.first <= b < m.nblocks) && b != 0
    ensures !FreeLevel1(m, b, dead).end.Ran?
  {
    hide FreeWords, Released, C.Bread;
  }

  lemma OutsideHalts2(m: Mounted, b: nat, dead: set<nat>)
    requires Fit(m) && !(m.first <= b < m.nblocks) && b != 0
    ensures !FreeLevel2(m, b, dead).end.Ran?
  {
    hide FreeIndexes, Released, C.Bread;
  }

  // free_level1 through the cache.
  lemma FreeLevel1Shows(m: Mounted, t: F.FS, b: nat, dead: set<nat>)
    requires Shows(m, t) && Room(m)
    ensures F.Shaped(t)
    ensures var r := FreeLevel1(m, b, dead);
      r.end.Ran? ==>
        && r.bad <= {b} && r.bad <= dead && (b == 0 ==> r.bad == {}) && Still(m, r.m)
        && F.FreeLevel1(t, b, r.bad).Some? && Shows(r.m, F.FreeLevel1(t, b, r.bad).value)
  {
    hide FreeBlock, F.FreeBlock, K.Inv, Clean, C.Bread, FreeWords, F.FreeEntries, Released, K.HeldStay, Room;
    StillSelf(m);
    ShowsFacts(m, t);
    if !(m.first <= b < m.nblocks) {
      if b != 0 { OutsideHalts1(m, b, dead); }
    } else {
      ReadSeen(m, b, b !in dead);
      var (d, g) := C.Bread(m.cache, At(m, b), b !in dead);
      var n := m.(cache := d);
      if g.Failed? {
        StillRead(m, n);
        FreeShows(n, t, b);
        if FreeBlock(n, b).end.Ran? { StillThen(m, n, FreeBlock(n, b).m); }
      } else if g.Buffer? {
        Level1Held(m, n, g.i, t, b);
      }
    }
  }

  // Nothing came of the read.
  lemma StillRead(m: Mounted, n: Mounted)
    requires Fit(m) && Fine(m, n) && Kept(m.cache, n.cache)
    ensures Still(m, n)
  {
  }

  // With block b in buffer j.
  lemma Level1Held(m: Mounted, n: Mounted, j: nat, t: F.FS, b: nat)
    requires Shows(m, t) && Room(m) && Kin(m, n) && Kept(m.cache, n.cache) && Shows(n, t) && b != 0
    requires j < |m.cache.bufs| && n.cache.refs == m.cache.refs[j := m.cache.refs[j] + 1]
    requires n.cache.bufs[j].uptodate && n.cache.bufs[j].count != 0 && n.dev == m.dev && n.bits == m.bits
    requires b < m.nblocks && !Unused(m, b) ==> n.cache.bufs[j].data == Seen(m).disk[b]
    ensures F.Shaped(t)
    ensures var r := Released(FreeWords(n, j, F.WORDS), j);
      var o := Then(r, FreeBlock(r.m, b));
      Goes(r.end) && o.end.Ran? ==>
        o.bad == {} && Still(m, o.m) && F.FreeLevel1(t, b, {}).Some? && Shows(o.m, F.FreeLevel1(t, b, {}).value)
  {
    hide FreeBlock, F.FreeBlock, K.Inv, Clean, FreeWords, F.FreeEntries, Released, K.HeldStay, Room;
    ShowsFacts(m, t);
    var w := FreeWords(n, j, F.WORDS);
    var r := Released(w, j);
    StillSelf(n);
    if Goes(r.end) && Then(r, FreeBlock(r.m, b)).end.Ran? {
      NotRan(w, j);
      if !(m.first <= b < m.nblocks) {
        FreeUnused(r.m, b);
      } else if Unused(m, b) {
        StaysUnused(n, j, F.WORDS, b);
        ReleasedBits(w, j);
        FreeUnused(r.m, b);
      } else {
        FreeWordsShows(n, j, t, b, F.WORDS);
        StillThrough(m, n, w, j);
        var u := F.FreeEntries(t, b, F.WORDS).value;
        ShowsSame(w.m, r.m, u);
        FreeShows(r.m, u, b);
        StillThen(m, r.m, FreeBlock(r.m, b).m);
      }
    }
  }

  lemma ReleasedBits(r: Out, j: nat)
    requires Fit(r.m) && j < |r.m.cache.bufs|
    ensures Released(r, j).m.bits == r.m.bits
  {
  }

  lemma ShowsSame(m: Mounted, n: Mounted, t: F.FS)
    requires Shows(m, t) && Fit(n) && K.Inv(n.cache) && Seen(n) == Seen(m)
    ensures Shows(n, t)
  {
  }

  // ---- free_level2 ---------------------------------------------------------------------------

  lemma {:induction false} SameBad(t: F.FS, b: nat, bad: set<nat>, ill: set<nat>, n: nat)
    requires F.Shaped(t) && n <= F.WORDS
    requires forall i :: 0 <= i < n && F.Word(t, b, i) != 0 ==> (F.Word(t, b, i) in bad <==> F.Word(t, b, i) in ill)
    ensures F.FreeIndexes(t, b, ill, n) == F.FreeIndexes(t, b, bad, n)
  {
    hide F.Word, F.FreeEntries, F.FreeBlock;
    if n > 0 { SameBad(t, b, bad, ill, n - 1); }
  }

  lemma Level1SameBad(t: F.FS, w: nat, bad: set<nat>, ill: set<nat>)
    requires F.Shaped(t) && (w != 0 ==> (w in bad <==> w in ill))
    ensures F.FreeLevel1(t, w, ill) == F.FreeLevel1(t, w, bad)
  {
  }

  // The unreadable blocks were in use before and are free afterwards.
  ghost predicate WereFreed(t: F.FS, u: F.FS, bad: set<nat>)
    requires F.Shaped(t) && F.Shaped(u)
  {
    forall c :: c in bad ==> F.InZone(t, c) && F.Bit(t, c) && F.InZone(u, c) && !F.Bit(u, c)
  }

  lemma {:induction false} FreeIndexesShows(m: Mounted, j: nat, t: F.FS, b: nat, dead: set<nat>, n: nat)
    requires HoldsWords(m, j, t, b) && Room(m) && n <= F.WORDS
    ensures F.Shaped(t)
    ensures var r := FreeIndexes(m, j, dead, n);
      r.end.Ran? ==>
        && r.bad <= dead && Still(m, r.m)
        && F.FreeIndexes(t, b, r.bad, n).Some? && Shows(r.m, F.FreeIndexes(t, b, r.bad, n).value)
        && WereFreed(t, F.FreeIndexes(t, b, r.bad, n).value, r.bad)
  {
    hide FreeLevel1, F.FreeLevel1, K.Inv, Clean, F.Word, K.HeldStay, WereFreed, Room, F.FreeIndexes, Shows;
    ShowsFacts(m, t);
    StillSelf(m);
    FewIndexes(t, b);
    if n > 0 {
      FreeIndexesShows(m, j, t, b, dead, n - 1);
      var r := FreeIndexes(m, j, dead, n - 1);
      if r.end.Ran? {
        var u := F.FreeIndexes(t, b, r.bad, n - 1).value;
        HoldsLater(m, r.m, j, t, u, b);
        WordIs(r.m, j, u, b, n - 1);
        SameWordOnDisk(t, u, b, n - 1);
        StillRoom(m, r.m);
        var w := F.Word(t, b, n - 1);
        FreeLevel1Shows(r.m, u, w, dead);
        var o := FreeLevel1(r.m, w, dead);
        if o.end.Ran? {
          StillThen(m, r.m, o.m);
          NextIndex(t, b, r.bad, o.bad, n);
        }
      }
    }
  }

  lemma FewIndexes(t: F.FS, b: nat)
    requires F.Shaped(t)
    ensures F.FreeIndexes(t, b, {}, 0) == Some(t) && WereFreed(t, t, {})
  {
  }

  // The sets of unreadable blocks of two steps put together.
  lemma NextIndex(t: F.FS, b: nat, bad: set<nat>, now: set<nat>, n: nat)
    requires F.Shaped(t) && 0 < n <= F.WORDS && F.FreeIndexes(t, b, bad, n - 1).Some?
    requires var u := F.FreeIndexes(t, b, bad, n - 1).value;
      var w := F.Word(t, b, n - 1);
      WereFreed(t, u, bad) && now <= {w} && F.FreeLevel1(u, w, now).Some? && (w == 0 ==> now == {})
    ensures F.FreeIndexes(t, b, bad + now, n) ==
      F.FreeLevel1(F.FreeIndexes(t, b, bad, n - 1).value, F.Word(t, b, n - 1), now)
    ensures WereFreed(t, F.FreeIndexes(t, b, bad + now, n).value, bad + now)
  {
    hide F.FreeLevel1, F.Word;
    var u, w := F.FreeIndexes(t, b, bad, n - 1).value, F.Word(t, b, n - 1);
    var v := F.FreeLevel1(u, w, now).value;
    T.Level1Clears(u, w, now, 0);
    forall i | 0 <= i < n - 1 && F.Word(t, b, i) != 0
      ensures F.Word(t, b, i) in bad <==> F.Word(t, b, i) in bad + now
    {
      T.IndexesClear(t, b, bad, n - 1, F.Word(t, b, i));
    }
    SameBad(t, b, bad, bad + now, n - 1);
    Level1SameBad(u, w, now, bad + now);
    forall c | c in bad + now ensures F.InZone(t, c) && F.Bit(t, c) && F.InZone(v, c) && !F.Bit(v, c) {
      T.Level1Clears(u, w, now, c);
      T.IndexesClear(t, b, bad, n - 1, c);
    }
  }

  lemma Level2SameBad(t: F.FS, b: nat, bad: set<nat>, ill: set<nat>)
    requires F.Shaped(t) && F.FreeLevel2(t, b, bad).Some?
    requires forall c :: F.InZone(t, c) && F.Bit(t, c) ==> (c in bad <==> c in ill)
    ensures F.FreeLevel2(t, b, ill) == F.FreeLevel2(t, b, bad)
  {
    hide F.FreeLevel1, F.Word, F.FreeIndexes;
    if b != 0 {
      if b !in bad {
        forall i | 0 <= i < F.WORDS && F.Word(t, b, i) != 0
          ensures F.Word(t, b, i) in bad <==> F.Word(t, b, i) in ill
        {
          T.IndexesClear(t, b, bad, F.WORDS, F.Word(t, b, i));
        }
        SameBad(t, b, bad, ill, F.WORDS);
        if F.InZone(t, b) && !F.Bit(t, b) { T.IndexesClear(t, b, bad, F.WORDS, b); }
      }
    }
  }

  // free_level2 through the cache.
  lemma FreeLevel2Shows(m: Mounted, t: F.FS, b: nat, dead: set<nat>)
    requires Shows(m, t) && Low(m)
    ensures F.Shaped(t)
    ensures var r := FreeLevel2(m, b, dead);
      r.end.Ran? ==>
        && r.bad <= dead && Still(m, r.m)
        && F.FreeLevel2(t, b, r.bad).Some? && Shows(r.m, F.FreeLevel2(t, b, r.bad).value)
        && forall c :: c in r.bad ==> F.InZone(t, c) && F.Bit(t, c)
  {
    hide FreeBlock, K.Inv, Clean, C.Bread, FreeIndexes, F.FreeIndexes, Released, K.HeldStay, Low;
    StillSelf(m);
    ShowsFacts(m, t);
    if !(m.first <= b < m.nblocks) {
      if b != 0 { OutsideHalts2(m, b, dead); }
    } else {
      LowRoom(m);
      ReadSeen(m, b, b !in dead);
      var (d, g) := C.Bread(m.cache, At(m, b), b !in dead);
      var n := m.(cache := d);
      if g.Failed? {
        StillRead(m, n);
        FreeShows(n, t, b);
        if FreeBlock(n, b).end.Ran? { StillThen(m, n, FreeBlock(n, b).m); }
      } else if g.Buffer? {
        Level2Held(m, n, g.i, t, b, dead);
      }
    }
  }

  lemma OneTaken(m: Mounted, n: Mounted, j: nat)
    requires K.Inv(m.cache) && Low(m) && Kept(m.cache, n.cache) && Kin(m, n) && j < |m.cache.bufs|
    requires n.cache.refs == m.cache.refs[j := m.cache.refs[j] + 1]
    ensures Room(n)
  {
    hide K.Inv;
    K.InvShaped(m.cache);
    K.InvShaped(n.cache);
  }

  lemma {:induction false} IndexesStayUnused(m: Mounted, j: nat, dead: set<nat>, n: nat, b: nat)
    requires Fit(m) && j < |m.cache.bufs| && n <= F.WORDS && Unused(m, b)
    ensures Unused(FreeIndexes(m, j, dead, n).m, b)
  {
    hide FreeLevel1;
    if n > 0 {
      IndexesStayUnused(m, j, dead, n - 1, b);
      var r := FreeIndexes(m, j, dead, n - 1);
      Level1StaysUnused(r.m, F.U16At(r.m.cache.bufs[j].data, n - 1), dead, b);
    }
  }

  lemma Level1StaysUnused(m: Mounted, w: nat, dead: set<nat>, b: nat)
    requires Fit(m) && Unused(m, b)
    ensures Unused(FreeLevel1(m, w, dead).m, b)
  {
    hide FreeWords, C.Bread, FreeBlock, Released;
    if w != 0 {
      var (d, g) := C.Bread(m.cache, At(m, w), w !in dead);
      var n := m.(cache := d);
      FreeBlockStays(n, w, b);
      if g.Buffer? {
        StaysUnused(n, g.i, F.WORDS, b);
        var r := FreeWords(n, g.i, F.WORDS);
        ReleasedBits(r, g.i);
        FreeBlockStays(Released(r, g.i).m, w, b);
      }
    }
  }

  // With block b in buffer j.
  lemma Level2Held(m: Mounted, n: Mounted, j: nat, t: F.FS, b: nat, dead: set<nat>)
    requires Shows(m, t) && Low(m) && Kin(m, n) && Kept(m.cache, n.cache) && Shows(n, t) && b != 0
    requires j < |m.cache.bufs| && n.cache.refs == m.cache.refs[j := m.cache.refs[j] + 1]
    requires n.cache.bufs[j].uptodate && n.cache.bufs[j].count != 0 && n.dev == m.dev && n.bits == m.bits
    requires b < m.nblocks && !Unused(m, b) ==> n.cache.bufs[j].data == Seen(m).disk[b]
    ensures F.Shaped(t)
    ensures var r := Released(FreeIndexes(n, j, dead, F.WORDS), j);
      var o := Then(r, FreeBlock(r.m, b));
      Goes(r.end) && o.end.Ran? ==>
        && o.bad <= dead && Still(m, o.m)
        && F.FreeLevel2(t, b, o.bad).Some? && Shows(o.m, F.FreeLevel2(t, b, o.bad).value)
        && forall c :: c in o.bad ==> F.InZone(t, c) && F.Bit(t, c)
  {
    hide FreeBlock, F.FreeBlock, K.Inv, Clean, FreeIndexes, F.FreeIndexes, Released, K.HeldStay, Low, Room, Shows;
    ShowsFacts(m, t);
    LowRoom(m);
    OneTaken(m, n, j);
    var w := FreeIndexes(n, j, dead, F.WORDS);
    var r := Released(w, j);
    StillSelf(n);
    if Goes(r.end) && Then(r, FreeBlock(r.m, b)).end.Ran? {
      NotRan(w, j);
      if !(m.first <= b < m.nblocks) {
        FreeUnused(r.m, b);
      } else if Unused(m, b) {
        IndexesStayUnused(n, j, dead, F.WORDS, b);
        ReleasedBits(w, j);
        FreeUnused(r.m, b);
      } else {
        FreeIndexesShows(n, j, t, b, dead, F.WORDS);
        StillThrough(m, n, w, j);
        var u := F.FreeIndexes(t, b, w.bad, F.WORDS).value;
        ShowsSame(w.m, r.m, u);
        FreeShows(r.m, u, b);
        StillThen(m, r.m, FreeBlock(r.m, b).m);
        StillUsedBlock(u, b);
        assert b !in w.bad;
        assert w.bad + {} == w.bad;
      }
    }
  }

  lemma StillUsedBlock(t: F.FS, b: nat)
    requires F.Shaped(t) && F.FreeBlock(t, b).Some?
    ensures F.InZone(t, b) && F.Bit(t, b)
  {
  }

  // ---- the direct slots, and all of it -------------------------------------------------------

  lemma CleanPointer(m: Mounted, t: F.FS, f: nat, i: nat, v: nat)
    requires Shows(m, t) && f < |m.inodes| && i < 9
    ensures |t.inodes| == |m.inodes| && Shows(SetPointer(m, f, i, v), F.SetPointer(t, f, i, v))
  {
    ShowsFacts(m, t);
    OnlyInodes(m, SetPointer(m, f, i, v));
    assert Clean(F.SetPointer(t, f, i, v)).disk == Clean(t).disk;
  }

  lemma {:induction false} FreeDirectShows(m: Mounted, t: F.FS, f: nat, n: nat)
    requires Shows(m, t) && f < |m.inodes| && n <= F.DIRECT
    ensures F.Shaped(t) && f < |t.inodes|
    ensures var r := FreeDirect(m, f, n);
      r.end.Ran? ==>
        F.FreeDirect(t, f, n).Some? && Shows(r.m, F.FreeDirect(t, f, n).value) && Still(m, r.m) && r.bad == {}
  {
    hide FreeBlock, F.FreeBlock, K.Inv, Clean, K.HeldStay, F.SetPointer, SetPointer, Shows;
    ShowsFacts(m, t);
    StillSelf(m);
    if n > 0 {
      FreeDirectShows(m, t, f, n - 1);
      var r := FreeDirect(m, f, n - 1);
      if r.end.Ran? {
        var u := F.FreeDirect(t, f, n - 1).value;
        ShowsFacts(r.m, u);
        DirectStep(m, r.m, u, f, n - 1);
      }
    }
  }

  lemma DirectStep(m: Mounted, p: Mounted, u: F.FS, f: nat, i: nat)
    requires K.Inv(m.cache) && Still(m, p) && Shows(p, u) && f < |p.inodes| && i < F.DIRECT
    ensures F.Shaped(u) && |u.inodes| == |p.inodes| && F.Pointer(u, f, i) == p.inodes[f].data[i]
    ensures var v := p.inodes[f].data[i];
      && (v == 0 ==> Shows(SetPointer(p, f, i, 0), F.SetPointer(u, f, i, 0)) && Still(m, SetPointer(p, f, i, 0)))
      && (v != 0 && FreeBlock(p, v).end.Ran? ==>
           var q := SetPointer(FreeBlock(p, v).m, f, i, 0);
           F.FreeBlock(u, v).Some? && Shows(q, F.SetPointer(F.FreeBlock(u, v).value, f, i, 0)) && Still(m, q))
  {
    hide FreeBlock, F.FreeBlock, K.Inv, Clean, K.HeldStay, F.SetPointer, Shows;
    ShowsFacts(p, u);
    var v := p.inodes[f].data[i];
    CleanPointer(p, u, f, i, 0);
    FreeShows(p, u, v);
    if v != 0 && FreeBlock(p, v).end.Ran? {
      StillThen(m, p, FreeBlock(p, v).m);
      CleanPointer(FreeBlock(p, v).m, F.FreeBlock(u, v).value, f, i, 0);
    }
  }

  // truncate through the cache is truncate of the model, up to what free blocks hold, with the index blocks that
  // the device did not answer for.
  lemma TruncateSeen(m: Mounted, f: nat, dead: set<nat>)
    requires Ready(m) && Low(m) && f < |m.inodes|
    ensures var r := Truncate(m, f, dead);
      r.end.Ran? ==>
        && r.bad <= dead && Fine(m, r.m)
        && F.Truncate(Seen(m), f, r.bad).Some? && F.Shaped(F.Truncate(Seen(m), f, r.bad).value)
        && Seen(r.m) == Clean(F.Truncate(Seen(m), f, r.bad).value)
  {
    hide K.Inv, Clean, K.HeldStay, FreeDirect, F.FreeDirect, FreeLevel1, F.FreeLevel1, FreeLevel2, F.FreeLevel2, Low;
    var s := Seen(m);
    SeenIsClean(m);
    FreeDirectShows(m, s, f, F.DIRECT);
    var p := FreeDirect(m, f, F.DIRECT);
    if Truncate(m, f, dead).end.Ran? {
      var t := F.FreeDirect(s, f, F.DIRECT).value;
      LevelsShow(m, p.m, t, f, dead);
      var q := FreeLevel1(p.m, p.m.inodes[f].data[F.INDEX_LEVEL1], dead);
      var r := FreeLevel2(q.m, q.m.inodes[f].data[F.INDEX_LEVEL2], dead);
      assert {} + q.bad + r.bad == q.bad + r.bad;
    }
  }

  // The two trees, after the direct slots.
  lemma LevelsShow(m: Mounted, p: Mounted, t: F.FS, f: nat, dead: set<nat>)
    requires Ready(m) && Low(m) && Still(m, p) && Shows(p, t) && f < |p.inodes|
    ensures F.Shaped(t) && |t.inodes| == |p.inodes|
    ensures var q := FreeLevel1(p, p.inodes[f].data[F.INDEX_LEVEL1], dead);
      var r := FreeLevel2(q.m, q.m.inodes[f].data[F.INDEX_LEVEL2], dead);
      q.end.Ran? && r.end.Ran? ==>
        var bad := q.bad + r.bad;
        var u := F.FreeLevel1(t, F.Pointer(t, f, F.INDEX_LEVEL1), bad);
        && bad <= dead && u.Some? && Fine(m, ClearInode(r.m, f))
        && var v := F.FreeLevel2(u.value, F.Pointer(u.value, f, F.INDEX_LEVEL2), bad);
           v.Some? && F.Shaped(F.ClearInode(v.value, f)) && Seen(ClearInode(r.m, f)) == Clean(F.ClearInode(v.value, f))
  {
    hide K.Inv, Clean, K.HeldStay, FreeLevel1, F.FreeLevel1, FreeLevel2;
    hide F.FreeLevel2, Low, Shows, ClearInode, F.ClearInode;
    LowRoom(m);
    StillRoom(m, p);
    StillLow(m, p);
    ShowsFacts(p, t);
    var b := p.inodes[f].data[F.INDEX_LEVEL1];
    FreeLevel1Shows(p, t, b, dead);
    var q := FreeLevel1(p, b, dead);
    if q.end.Ran? {
      var u := F.FreeLevel1(t, b, q.bad).value;
      StillLow(p, q.m);
      ShowsFacts(q.m, u);
      var e := q.m.inodes[f].data[F.INDEX_LEVEL2];
      FreeLevel2Shows(q.m, u, e, dead);
      var r := FreeLevel2(q.m, e, dead);
      if r.end.Ran? {
        T.Level1Clears(t, b, q.bad, b);
        Level1SameBad(t, b, q.bad, q.bad + r.bad);
        Level2SameBad(u, e, r.bad, q.bad + r.bad);
        StillThen(m, p, q.m);
        StillThen(m, q.m, r.m);
        ClearShows(m, r.m, F.FreeLevel2(u, e, r.bad).value, f);
      }
    }
  }

  lemma StillLow(m: Mounted, n: Mounted)
    requires K.Inv(m.cache) && Still(m, n) && Low(m)
    ensures Low(n)
  {
    hide K.Inv;
    K.InvShaped(m.cache);
    K.InvShaped(n.cache);
  }

  lemma ClearShows(m: Mounted, n: Mounted, t: F.FS, f: nat)
    requires Still(m, n) && Shows(n, t) && f < |n.inodes|
    ensures |t.inodes| == |n.inodes| && Fine(m, ClearInode(n, f)) && F.Shaped(F.ClearInode(t, f))
    ensures Seen(ClearInode(n, f)) == Clean(F.ClearInode(t, f))
  {
    hide K.Inv;
    ShowsFacts(n, t);
    OnlyInodes(n, ClearInode(n, f));
    assert Clean(F.ClearInode(t, f)).disk == Clean(t).disk;
  }
}
