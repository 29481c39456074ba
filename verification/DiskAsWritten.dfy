// Lines of kernel/blk/hd.c as they are written, and exactly when each does what the rest of the
// model has in its place.
module DiskAsWritten {
  import opened Base
  import opened Elevator
  import opened DiskModel
  import opened DiskProofs

  // kernel/blk/hd.c:330: the end of the block is compared with the length of the request itself.
  predicate RejectedByLength(h: Hd, r: Request)
    requires Configured(h)
  {
    Minor(r.dev) > 5 * h.count || r.start + 2 > r.left
  }

  // Of the requests with one or two sectors left only a new one for sector 0 is then accepted, and the outcome is
  // right exactly when that is also all that fits the partition.
  lemma OnlyTheFirstBlock(h: Hd, r: Request)
    requires Configured(h) && 1 <= r.left <= SECTORS && Minor(r.dev) < 5 * h.count
    ensures !RejectedByLength(h, r) <==> r.start == 0 && r.left == SECTORS
    ensures RejectedByLength(h, r) == Rejected(h, r) <==>
      (r.start == 0 && r.left == SECTORS <==> r.start + 2 <= h.parts[Minor(r.dev)].size)
  {
  }

  // kernel/blk/hd.c:330 tests the minor number with `>`.
  predicate MinorRejected(h: Hd, m: nat) { m > 5 * h.count }

  // One number too many gets through, and its drive does not exist.
  lemma OneMinorTooMany(h: Hd, m: nat)
    requires Configured(h)
    ensures MinorRejected(h, m) == (m >= 5 * h.count) <==> m != 5 * h.count
    ensures m == 5 * h.count ==> m / 5 == h.count && (h.count == 2 ==> m >= |h.parts|)
  {
  }

  // kernel/blk/hd.c:330-378 without a return after end_request: the place of the request that was just ended is
  // put to the drive, with the command and the buffer of the one behind it. None stands for a null pointer or an
  // index past the partitions.
  function GoesOn(h: Hd): Option<Hd>
    requires Shaped(h) && h.queue != []
  {
    if !Rejected(h, h.queue[0]) then Some(Command(h))
    else
      var g := EndRequest(h, false);
      if g.queue == [] || Minor(h.queue[0].dev) >= 5 * h.count then None
      else
        var (m, next) := (Minor(h.queue[0].dev), g.queue[0]);
        var d := h.drives[m / 5];
        var place := Place(m / 5, Absolute(Split(h.queue[0].start + h.parts[m].start, d), d));
        Some(g.(phase := Busy(place, Chunk(g.bufs[next.buf].data, next.at))))
  }

  // The drive and the sector on it that a request wants next.
  function Wanted(h: Hd, r: Request): Place
    requires Configured(h) && Minor(r.dev) < 5 * h.count
  {
    Place(Minor(r.dev) / 5, r.start + h.parts[Minor(r.dev)].start)
  }

  // That is right exactly when the first request need not be ended, or the next one is good and happens to want
  // the very sector of the one that was ended.
  lemma GoesOnAgrees(h: Hd)
    requires Queued(h) && h.queue != []
    ensures Shaped(h)
    ensures GoesOn(h) == Some(DoHdRequest(h)) <==>
      var r := h.queue[0];
      || !Rejected(h, r)
      || (&& |h.queue| > 1 && Minor(r.dev) < 5 * h.count && !Rejected(h, h.queue[1])
          && Wanted(h, h.queue[1]) == Wanted(h, r))
  {
    hide Queued, EndRequest, Split, Absolute;
    InvShaped(h);
    var r := h.queue[0];
    if Rejected(h, r) {
      EndFreesOne(h, false);
      var g := EndRequest(h, false);
      SameConfig(h);
      ShortestQueue(g);
      if |h.queue| > 1 && Minor(r.dev) < 5 * h.count {
        AbsoluteSector(h, r);
        if !Rejected(h, h.queue[1]) { AbsoluteSector(h, h.queue[1]); }
      }
    }
  }

  lemma SameConfig(h: Hd)
    requires Shaped(h) && h.queue != []
    ensures var g := EndRequest(h, false);
      && g.parts == h.parts && g.drives == h.drives && g.count == h.count
      && forall r :: Rejected(g, r) == Rejected(h, r)
  {
  }

  lemma AbsoluteSector(h: Hd, r: Request)
    requires Configured(h) && Minor(r.dev) < 5 * h.count
    ensures var (n, d) := (r.start + h.parts[Minor(r.dev)].start, h.drives[Minor(r.dev) / 5]);
      Absolute(Split(n, d), d) == n
  {
    SplitInverts(r.start + h.parts[Minor(r.dev)].start, h.drives[Minor(r.dev) / 5]);
  }

  // do_hd_request leaves the queue as it is exactly when the first request is not ended.
  lemma {:induction false} ShortestQueue(h: Hd)
    requires Shaped(h)
    ensures |DoHdRequest(h).queue| <= |h.queue|
    ensures h.queue != [] && Rejected(h, h.queue[0]) ==> |DoHdRequest(h).queue| < |h.queue|
    decreases |h.queue|
  {
    hide EndRequest, Rejected;
    if h.queue != [] && Rejected(h, h.queue[0]) { ShortestQueue(EndRequest(h, false)); }
  }

  // The check asks for two sectors even when one is left to do: when the second sector of a block
  // fails, the block is tried again exactly when it does not end at the last sector of its partition.
  lemma LastBlockIsNotRetried(h: Hd)
    requires Queued(h) && h.queue != [] && h.queue[0].left == 1 && h.queue[0].errors + 1 < MAX_ERRORS
    requires Minor(h.queue[0].dev) < 5 * h.count
    ensures Shaped(h)
    ensures OnError(h).1 <==> h.bufs[h.queue[0].buf].block * 4 + 3 > h.parts[Minor(h.queue[0].dev)].size
  {
    assert Aligned(h, h.queue[0]);
  }
}
