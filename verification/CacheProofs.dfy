// What each call does to the logical disk and to the buffers that callers hold.
module CacheProofs {
  import opened Base
  import opened CacheModel

  // A block has at most one buffer; a changed buffer is valid; a valid unchanged one equals the
  // device; the count of a buffer is the number of its references, as a byte.
  ghost predicate Inv(c: Cache) {
    && Shaped(c)
    && (forall i, j :: 0 <= i < j < |c.bufs| && c.bufs[i].key.Some? ==> c.bufs[j].key != c.bufs[i].key)
    && (forall i :: 0 <= i < |c.bufs| ==> BufOk(c, c.bufs[i]) && c.bufs[i].count == c.refs[i] % COUNT_LIMIT)
  }

  predicate BufOk(c: Cache, b: Buf) {
    && (b.dirty || b.uptodate ==> b.key.Some?)
    && (b.dirty ==> b.uptodate)
    && (b.uptodate && !b.dirty && b.key.Some? ==> b.data == OnDisk(c, b.key.value))
  }

  lemma FindIs(c: Cache, k: Key, i: nat)
    requires Inv(c) && i < |c.bufs| && c.bufs[i].key == Some(k)
    ensures Find(c.bufs, k, 0) == i
  {
  }

  // The logical block of a bound buffer, and of a block without one.
  lemma LogicalIs(c: Cache, k: Key)
    requires Inv(c)
    ensures forall i :: 0 <= i < |c.bufs| && c.bufs[i].key == Some(k) ==>
      Logical(c, k) == if c.bufs[i].uptodate then c.bufs[i].data else OnDisk(c, k)
    ensures (forall i :: 0 <= i < |c.bufs| ==> c.bufs[i].key != Some(k)) ==> Logical(c, k) == OnDisk(c, k)
  {
    forall i: nat | i < |c.bufs| && c.bufs[i].key == Some(k) ensures Find(c.bufs, k, 0) == i { FindIs(c, k, i); }
  }

  lemma OneBuffer(c: Cache, i: nat)
    requires Inv(c) && i < |c.bufs|
    ensures BufOk(c, c.bufs[i])
    ensures c.bufs[i].key.Some? ==> forall j :: 0 <= j < |c.bufs| && j != i ==> c.bufs[j].key != c.bufs[i].key
  {
  }

  lemma InvShaped(c: Cache)
    requires Inv(c)
    ensures Shaped(c)
    ensures forall i :: 0 <= i < |c.bufs| ==>
      c.bufs[i].count == c.refs[i] % COUNT_LIMIT && c.bufs[i].count < COUNT_LIMIT
  {
  }

  // ---- one buffer changes --------------------------------------------------------------------

  // Only buffer i differs, and it keeps its key.
  lemma SetKeeps(c: Cache, i: nat, b: Buf, n: nat)
    requires Inv(c) && i < |c.bufs| && b.key == c.bufs[i].key && BufOk(c, b) && b.count == n % COUNT_LIMIT
    ensures Inv(SetRefs(SetBuf(c, i, b), i, n))
  {
  }

  lemma SetLogical(c: Cache, i: nat, b: Buf, n: nat, k: Key)
    requires Inv(c) && i < |c.bufs| && b.key == c.bufs[i].key && BufOk(c, b) && b.count == n % COUNT_LIMIT
    ensures Logical(SetRefs(SetBuf(c, i, b), i, n), k) ==
      if b.key == Some(k) then if b.uptodate then b.data else OnDisk(c, k) else Logical(c, k)
  {
    hide Inv, Logical, BufOk;
    InvShaped(c);
    OneBuffer(c, i);
    var d := SetRefs(SetBuf(c, i, b), i, n);
    SetKeeps(c, i, b, n);
    LogicalIs(c, k);
    LogicalIs(d, k);
    if forall j :: 0 <= j < |c.bufs| ==> c.bufs[j].key != Some(k) {
      assert forall j :: 0 <= j < |d.bufs| ==> d.bufs[j].key != Some(k);
    } else {
      var j :| 0 <= j < |c.bufs| && c.bufs[j].key == Some(k);
      assert d.bufs[j].key == Some(k);
    }
  }

  lemma RefsSame(c: Cache, i: nat)
    requires i < |c.refs|
    ensures SetRefs(c, i, c.refs[i]) == c
  {
    assert c.refs[i := c.refs[i]] == c.refs;
  }

  // ---- write back ----------------------------------------------------------------------------

  lemma WriteBackKeeps(c: Cache, i: nat)
    requires Inv(c) && i < |c.bufs|
    ensures Inv(WriteBack(c, i)) && !WriteBack(c, i).bufs[i].dirty
    ensures forall j :: 0 <= j < |c.bufs| ==> WriteBack(c, i).bufs[j] == c.bufs[j].(dirty := c.bufs[j].dirty && j != i)
  {
    var d := WriteBack(c, i);
    forall j | 0 <= j < |d.bufs| ensures BufOk(d, d.bufs[j]) {
      assert BufOk(c, c.bufs[j]);
      assert j < i ==> c.bufs[j].key.Some? ==> c.bufs[i].key != c.bufs[j].key;
    }
  }

  // Writing back is invisible, and puts the logical block on the device.
  lemma WriteBackInvisible(c: Cache, i: nat, k: Key)
    requires Inv(c) && i < |c.bufs|
    ensures Logical(WriteBack(c, i), k) == Logical(c, k)
    ensures c.bufs[i].key == Some(k) ==> OnDisk(WriteBack(c, i), k) == Logical(c, k)
    ensures c.bufs[i].key != Some(k) ==> OnDisk(WriteBack(c, i), k) == OnDisk(c, k)
  {
    hide Inv, Logical;
    var d := WriteBack(c, i);
    WriteBackKeeps(c, i);
    LogicalIs(c, k);
    LogicalIs(d, k);
    OneBuffer(c, i);
    if forall j :: 0 <= j < |c.bufs| ==> c.bufs[j].key != Some(k) {
      assert forall j :: 0 <= j < |d.bufs| ==> d.bufs[j].key != Some(k);
    } else {
      var j :| 0 <= j < |c.bufs| && c.bufs[j].key == Some(k);
      assert d.bufs[j].key == Some(k);
    }
  }

  // ---- get_buffer ----------------------------------------------------------------------------

  lemma RebindKeeps(c: Cache, i: nat, k: Key)
    requires Inv(c) && i < |c.bufs| && !c.bufs[i].dirty && c.bufs[i].count == 0 && Find(c.bufs, k, 0) == |c.bufs|
    ensures Inv(Rebind(c, i, k))
  {
  }

  lemma RebindInvisible(c: Cache, i: nat, k: Key, l: Key)
    requires Inv(c) && i < |c.bufs| && !c.bufs[i].dirty && c.bufs[i].count == 0 && Find(c.bufs, k, 0) == |c.bufs|
    ensures Logical(Rebind(c, i, k), l) == Logical(c, l)
  {
    hide Inv, Logical;
    InvShaped(c);
    var d := Rebind(c, i, k);
    RebindKeeps(c, i, k);
    OneBuffer(c, i);
    LogicalIs(c, l);
    LogicalIs(d, l);
    if l == k {
      assert d.bufs[i].key == Some(l);
    } else if forall j :: 0 <= j < |c.bufs| ==> c.bufs[j].key != Some(l) {
      assert forall j :: 0 <= j < |d.bufs| ==> d.bufs[j].key != Some(l);
    } else {
      var j :| 0 <= j < |c.bufs| && c.bufs[j].key == Some(l);
      if j == i {
        assert forall h :: 0 <= h < |d.bufs| ==> d.bufs[h].key != Some(l);
      } else {
        assert d.bufs[j].key == Some(l);
      }
    }
  }

  // Buffers that somebody holds stay as they are, apart from their counts.
  ghost predicate HeldStay(c: Cache, d: Cache) {
    && Shaped(c) && Shaped(d) && |d.bufs| == |c.bufs|
    && forall i :: 0 <= i < |c.bufs| && c.bufs[i].count != 0 ==> SameContents(c.bufs[i], d.bufs[i])
  }

  predicate SameContents(b: Buf, e: Buf) {
    e.key == b.key && (b.uptodate ==> e.uptodate && e.data == b.data)
  }

  lemma HoldKeeps(c: Cache, i: nat, l: Key)
    requires Inv(c) && i < |c.bufs|
    ensures Inv(Hold(c, i)) && HeldStay(c, Hold(c, i)) && Logical(Hold(c, i), l) == Logical(c, l)
  {
    hide Inv, Logical;
    InvShaped(c);
    var b := c.bufs[i].(count := (c.bufs[i].count + 1) % COUNT_LIMIT);
    OneBuffer(c, i);
    CountUp(c.refs[i]);
    SetKeeps(c, i, b, c.refs[i] + 1);
    SetLogical(c, i, b, c.refs[i] + 1, l);
    LogicalIs(c, l);
  }

  lemma CountUp(n: nat)
    ensures (n % COUNT_LIMIT + 1) % COUNT_LIMIT == (n + 1) % COUNT_LIMIT
  {
  }

  lemma CountDown(n: nat)
    requires n % COUNT_LIMIT != 0
    ensures n > 0 && n % COUNT_LIMIT - 1 == (n - 1) % COUNT_LIMIT
  {
  }

  // get_buffer: the caller gets the one buffer of its block, held; no block of the logical disk
  // changes, and no held buffer is bound to another block. It sleeps exactly when the block has no
  // buffer and every buffer is held.
  lemma GetBufferKeeps(c: Cache, k: Key, l: Key)
    requires Inv(c)
    ensures var (d, r) := GetBuffer(c, k);
      && Inv(d) && HeldStay(c, d) && Logical(d, l) == Logical(c, l)
      && (r.Some? ==> r.value < |d.bufs| && d.bufs[r.value].key == Some(k))
      && (r.None? <==> Find(c.bufs, k, 0) == |c.bufs| && FirstIdle(c.bufs, 0) == |c.bufs|)
  {
    hide Inv, Logical, BufOk;
    InvShaped(c);
    var i := Find(c.bufs, k, 0);
    if i < |c.bufs| {
      HoldKeeps(c, i, l);
    } else {
      var j := FirstIdle(c.bufs, 0);
      SelfStays(c);
      if j < |c.bufs| {
        WriteBackKeeps(c, j);
        WriteBackInvisible(c, j, l);
        var e := WriteBack(c, j);
        assert Find(e.bufs, k, 0) == |e.bufs|;
        InvShaped(e);
        RebindKeeps(e, j, k);
        RebindInvisible(e, j, k, l);
      }
    }
  }

  lemma SelfStays(c: Cache)
    requires Shaped(c)
    ensures HeldStay(c, c)
  {
  }

  // ---- brelease ------------------------------------------------------------------------------

  lemma BreleaseKeeps(c: Cache, i: nat, l: Key)
    requires Inv(c) && i < |c.bufs|
    ensures Shaped(c) && (Brelease(c, i).None? <==> c.refs[i] % COUNT_LIMIT == 0)
    ensures Brelease(c, i).Some? ==> var d := Brelease(c, i).value;
      Inv(d) && HeldStay(c, d) && Logical(d, l) == Logical(c, l) && d.refs[i] == c.refs[i] - 1
  {
    hide Inv, Logical;
    InvShaped(c);
    if c.bufs[i].count != 0 {
      var b := c.bufs[i].(count := c.bufs[i].count - 1);
      OneBuffer(c, i);
      CountDown(c.refs[i]);
      SetKeeps(c, i, b, c.refs[i] - 1);
      SetLogical(c, i, b, c.refs[i] - 1, l);
      LogicalIs(c, l);
    }
  }

  // ---- bread ---------------------------------------------------------------------------------

  // Reading buffer i from the device, where it was not valid.
  lemma FillKeeps(c: Cache, i: nat, k: Key, l: Key)
    requires Inv(c) && i < |c.bufs| && c.bufs[i].key == Some(k) && !c.bufs[i].uptodate
    ensures var d := SetBuf(c, i, c.bufs[i].(data := OnDisk(c, k), uptodate := true));
      Inv(d) && HeldStay(c, d) && Logical(d, l) == Logical(c, l)
  {
    hide Inv, Logical;
    InvShaped(c);
    var b := c.bufs[i].(data := OnDisk(c, k), uptodate := true);
    OneBuffer(c, i);
    SetKeeps(c, i, b, c.refs[i]);
    SetLogical(c, i, b, c.refs[i], l);
    RefsSame(SetBuf(c, i, b), i);
    LogicalIs(c, l);
  }

  lemma HeldStayThen(c: Cache, d: Cache, e: Cache)
    requires HeldStay(c, d) && HeldStay(d, e)
    requires forall i :: 0 <= i < |c.bufs| && c.bufs[i].count != 0 ==> d.bufs[i].count != 0
    ensures HeldStay(c, e)
  {
  }

  // Something is done to buffer i, which somebody was handed in d, while it is not valid.
  lemma HeldStayBut(c: Cache, d: Cache, e: Cache, i: nat)
    requires HeldStay(c, d) && i < |c.bufs| && Shaped(e) && |e.bufs| == |d.bufs|
    requires e.bufs[i].key == d.bufs[i].key && !d.bufs[i].uptodate
    requires forall j :: 0 <= j < |c.bufs| && j != i ==> e.bufs[j] == d.bufs[j]
    ensures HeldStay(c, e)
  {
  }

  // One reference more, to the buffer handed out.
  lemma GetKeepsCounts(c: Cache, k: Key)
    requires Inv(c)
    ensures Shaped(c)
    ensures var (d, r) := GetBuffer(c, k);
      && (r.None? ==> d == c)
      && (forall i :: 0 <= i < |c.bufs| && r != Some(i) ==> d.bufs[i].count == c.bufs[i].count)
      && (r.Some? ==> d.bufs[r.value].count == (c.bufs[r.value].count + 1) % COUNT_LIMIT)
      && (r.Some? ==> d.refs == c.refs[r.value := c.refs[r.value] + 1])
  {
    hide Inv, WriteBack, FirstIdle, Find;
    InvShaped(c);
    var j := FirstIdle(c.bufs, 0);
    if j < |c.bufs| {
      WriteBackKeeps(c, j);
      InvShaped(WriteBack(c, j));
    }
  }

  // bread: as get_buffer, and what it returns holds the logical block. It fails only when the device did not
  // answer, and halts only when then the count it gives back is one of the 256th reference.
  lemma BreadKeeps(c: Cache, k: Key, ok: bool, l: Key)
    requires Inv(c)
    ensures Shaped(c)
    ensures var (d, r) := Bread(c, k, ok);
      && Inv(d) && HeldStay(c, d) && Logical(d, l) == Logical(c, l)
      && (r.Buffer? ==> d.bufs[r.i].key == Some(k) && d.bufs[r.i].uptodate && d.bufs[r.i].data == Logical(d, k))
      && (r.Sleeps? <==> Find(c.bufs, k, 0) == |c.bufs| && FirstIdle(c.bufs, 0) == |c.bufs|)
      && (r.Failed? || r.Halted? ==> !ok)
      && (r.Halted? ==> Find(c.bufs, k, 0) < |c.bufs| && (c.refs[Find(c.bufs, k, 0)] + 1) % COUNT_LIMIT == 0)
  {
    hide Inv, Logical, BufOk, HeldStay, GetBuffer, Find, FirstIdle;
    InvShaped(c);
    GetBufferKeeps(c, k, l);
    GetKeepsCounts(c, k);
    var (e, g) := GetBuffer(c, k);
    InvShaped(e);
    if g.Some? {
      var i := g.value;
      if e.bufs[i].uptodate {
        LogicalIs(e, k);
      } else if ok {
        FillKeeps(e, i, k, l);
        HeldStayBut(c, e, SetBuf(e, i, e.bufs[i].(data := OnDisk(e, k), uptodate := true)), i);
        LogicalIs(Bread(c, k, ok).0, k);
      } else {
        BreleaseKeeps(e, i, l);
        if Brelease(e, i).Some? {
          HeldStayBut(c, e, Brelease(e, i).value, i);
        } else {
          HaltsFound(c, k);
        }
      }
    }
  }

  // A count that is 0 although the buffer was handed out belongs to one that was found.
  lemma HaltsFound(c: Cache, k: Key)
    requires Inv(c) && Shaped(c) && GetBuffer(c, k).1.Some?
    ensures var (d, r) := GetBuffer(c, k);
      d.bufs[r.value].count == 0 ==>
        Find(c.bufs, k, 0) == r.value < |c.bufs| && (c.refs[r.value] + 1) % COUNT_LIMIT == 0
  {
    hide Inv, WriteBack, Find, FirstIdle;
    InvShaped(c);
    if Find(c.bufs, k, 0) < |c.bufs| { CountUp(c.refs[Find(c.bufs, k, 0)]); }
  }

  // ---- a caller's store ----------------------------------------------------------------------

  lemma StoreKeeps(c: Cache, i: nat, data: Block, l: Key)
    requires Inv(c) && i < |c.bufs| && c.bufs[i].key.Some?
    ensures Inv(Store(c, i, data))
    ensures Logical(Store(c, i, data), l) == if c.bufs[i].key == Some(l) then data else Logical(c, l)
  {
    hide Inv, Logical;
    InvShaped(c);
    var b := c.bufs[i].(data := data, dirty := true, uptodate := true);
    SetKeeps(c, i, b, c.refs[i]);
    SetLogical(c, i, b, c.refs[i], l);
    RefsSame(SetBuf(c, i, b), i);
  }

  // ---- sync_dev and invalid_dev_buffers ------------------------------------------------------

  ghost predicate OfDev(b: Buf, dev: nat) { b.key.Some? && b.key.value.dev == dev }

  lemma {:induction false} SyncKeeps(c: Cache, dev: nat, n: nat, l: Key)
    requires Inv(c) && n <= |c.bufs|
    ensures Inv(SyncDev(c, dev, n)) && Logical(SyncDev(c, dev, n), l) == Logical(c, l)
    ensures forall i :: 0 <= i < |c.bufs| ==>
      SyncDev(c, dev, n).bufs[i] == c.bufs[i].(dirty := c.bufs[i].dirty && !(i < n && OfDev(c.bufs[i], dev)))
  {
    hide Inv, Logical, BufOk, WriteBack;
    if n > 0 {
      SyncKeeps(c, dev, n - 1, l);
      var d := SyncDev(c, dev, n - 1);
      WriteBackKeeps(d, n - 1);
      WriteBackInvisible(d, n - 1, l);
    }
  }

  // After sync_dev the device holds the logical disk, which has not changed.
  lemma SyncReachesDevice(c: Cache, dev: nat, k: Key)
    requires Inv(c) && k.dev == dev
    ensures OnDisk(SyncDev(c, dev, |c.bufs|), k) == Logical(c, k)
  {
    hide SyncDev;
    SyncKeeps(c, dev, |c.bufs|, k);
    var d := SyncDev(c, dev, |c.bufs|);
    LogicalIs(d, k);
    if i: nat :| i < |d.bufs| && d.bufs[i].key == Some(k) {
      assert BufOk(d, d.bufs[i]);
    }
  }

  lemma InvalidInv(c: Cache, dev: nat)
    requires Inv(c)
    ensures Inv(InvalidDevBuffers(c, dev))
  {
    hide InvalidDevBuffers;
    var d := InvalidDevBuffers(c, dev);
    forall i | 0 <= i < |d.bufs| ensures BufOk(d, d.bufs[i]) { assert BufOk(c, c.bufs[i]); }
  }

  // invalid_dev_buffers drops what its device's buffers hold over the disk, and nothing else.
  lemma InvalidKeeps(c: Cache, dev: nat, l: Key)
    requires Inv(c)
    ensures Inv(InvalidDevBuffers(c, dev))
    ensures Logical(InvalidDevBuffers(c, dev), l) == if l.dev == dev then OnDisk(c, l) else Logical(c, l)
  {
    hide Inv, Logical, BufOk, InvalidDevBuffers;
    var d := InvalidDevBuffers(c, dev);
    InvalidInv(c, dev);
    LogicalIs(c, l);
    LogicalIs(d, l);
    if forall j :: 0 <= j < |c.bufs| ==> c.bufs[j].key != Some(l) {
      assert forall j :: 0 <= j < |d.bufs| ==> d.bufs[j].key != Some(l);
    } else {
      var j :| 0 <= j < |c.bufs| && c.bufs[j].key == Some(l);
      assert d.bufs[j].key == Some(l);
    }
  }

  // ---- free_block ----------------------------------------------------------------------------

  lemma InvalidBuffer(c: Cache, i: nat, k: Key, l: Key)
    requires Inv(c) && i < |c.bufs| && c.bufs[i].key == Some(k)
    ensures var d := SetBuf(c, i, Invalid(c.bufs[i]));
      Inv(d) && Logical(d, l) == if l == k then OnDisk(c, l) else Logical(c, l)
  {
    hide Inv, Logical;
    InvShaped(c);
    SetKeeps(c, i, Invalid(c.bufs[i]), c.refs[i]);
    SetLogical(c, i, Invalid(c.bufs[i]), c.refs[i], l);
    RefsSame(SetBuf(c, i, Invalid(c.bufs[i])), i);
  }

  lemma HeldCopy(c: Cache, e: Cache, i: nat)
    requires Shaped(c) && Shaped(e) && i < |c.bufs| && |e.bufs| == |c.bufs| && c.bufs[i].count == 0
    requires forall j :: 0 <= j < |c.bufs| && j != i ==> e.bufs[j] == c.bufs[j]
    ensures HeldStay(c, e)
  {
  }

  lemma FreeIdle(c: Cache, i: nat, k: Key, l: Key)
    requires Inv(c) && i < |c.bufs| && c.bufs[i].key == Some(k) && c.bufs[i].count == 0
    ensures Shaped(c) && Shaped(Hold(c, i)) && Hold(c, i).bufs[i].count == 1
    ensures var d := Hold(c, i);
      var e := SetBuf(d, i, Invalid(d.bufs[i]));
      && Brelease(e, i).Some? && Inv(Brelease(e, i).value) && HeldStay(c, Brelease(e, i).value)
      && Brelease(e, i).value.refs == c.refs
      && Logical(Brelease(e, i).value, l) == if l == k then OnDisk(c, l) else Logical(c, l)
  {
    hide Inv, Logical, HeldStay;
    InvShaped(c);
    HoldKeeps(c, i, l);
    var d := Hold(c, i);
    InvalidBuffer(d, i, k, l);
    var e := SetBuf(d, i, Invalid(d.bufs[i]));
    BreleaseKeeps(e, i, l);
    assert c.refs[i := c.refs[i] + 1][i := c.refs[i]] == c.refs;
    HeldCopy(c, Brelease(e, i).value, i);
  }

  // free_block discards what is cached for its block and nothing else, unless somebody holds the
  // buffer: then it frees nothing and leaves one reference too many behind.
  lemma FreeBufferKeeps(c: Cache, k: Key, l: Key)
    requires Inv(c)
    ensures Shaped(c)
    ensures var i := Find(c.bufs, k, 0);
      var (d, freed) := FreeBuffer(c, k);
      && Inv(d) && HeldStay(c, d) && (freed <==> i == |c.bufs| || c.refs[i] % COUNT_LIMIT == 0)
      && (freed ==> d.refs == c.refs) && (!freed ==> d.refs == c.refs[i := c.refs[i] + 1])
      && Logical(d, l) == if freed && l == k then OnDisk(c, l) else Logical(c, l)
  {
    hide Inv, Logical, HeldStay, Find, Brelease, Invalid, BufOk;
    InvShaped(c);
    LogicalIs(c, k);
    var i := Find(c.bufs, k, 0);
    if i == |c.bufs| {
      SelfStays(c);
    } else if c.bufs[i].count == 0 {
      FreeIdle(c, i, k, l);
    } else {
      HoldKeeps(c, i, l);
    }
  }
}
