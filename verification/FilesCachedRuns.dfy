// Every run of the file layer through the buffer cache, from the bytes of the caller to the buffers and back.
module FilesCachedRuns {
  import opened Base
  import F = FilesModel
  import I = FilesInvariant
  import P = FilesMap
  import D = FilesData
  import T = FilesTruncate
  import V = FilesPrivate
  import R = FilesRuns
  import C = CacheModel
  import K = CacheProofs
  import opened FilesCached
  import opened FilesSeen
  import opened FilesSeenMap
  import opened FilesSeenData
  import opened FilesSeenTruncate
  import opened FilesQuiet
  import opened FilesQuietTruncate

  // The four calls, and whatever else happens to the cache in between: it may write back, evict, fill and bind
  // buffers, as long as the disk that the file layer sees is the same and two buffers are left to it.
  datatype Event =
    | Write(f: nat, h: F.File, d: seq<byte>, errors: nat -> set<nat>)
    | New(f: nat, n: int, dead: set<nat>)
    | Cut(f: nat, dead: set<nat>)
    | Read(f: nat, h: F.File, count: nat, errors: nat -> set<nat>)
    | Elsewhere(c: C.Cache)

  ghost predicate Good(m: Mounted) { Calm(m) && I.Safe(Seen(m)) }

  ghost predicate Allowed(m: Mounted, e: Event) {
    && Fit(m)
    && match e
       case Elsewhere(c) =>
         var n := m.(cache := c);
         |c.bufs| == |m.cache.bufs| && Calm(n) && Seen(n) == Seen(m)
       case Write(f, h, d, errors) => f < |m.inodes|
       case New(f, n, dead) => f < |m.inodes|
       case Cut(f, dead) => f < |m.inodes|
       case Read(f, h, count, errors) => f < |m.inodes|
  }

  ghost function Step(m: Mounted, e: Event): Mounted
    requires Allowed(m, e)
  {
    match e
    case Write(f, h, d, errors) => FileWrite(m, f, h, d, errors).0.m
    case New(f, n, dead) => IbMapHelper(m, f, n, true, dead).m
    case Cut(f, dead) => Truncate(m, f, dead).m
    case Read(f, h, count, errors) => FileRead(m, f, h, count, errors).0.m
    case Elsewhere(c) => m.(cache := c)
  }

  // ---- what free blocks hold does not matter -------------------------------------------------

  lemma CleanVal(s: F.FS, y: F.Slot)
    requires I.Safe(s) && F.Shaped(s)
    ensures F.Val(Clean(s), y) == F.Val(s, y)
  {
    hide I.Safe, F.Word, Clean;
    assert forall i :: F.Pointer(Clean(s), y.f, i) == F.Pointer(s, y.f, i);
    match y
    case SingleEntry(f, i) => CleanWord(s, F.Single(f), i);
    case DoubleIndex(f, i) => CleanWord(s, F.Double(f), i);
    case DoubleEntry(f, i, j) =>
      CleanWord(s, F.Double(f), i);
      CleanWord(s, F.DoubleIndex(f, i), j);
    case _ =>
  }

  lemma CleanWord(s: F.FS, z: F.Slot, i: nat)
    requires I.Safe(s) && F.Shaped(s)
    ensures F.Word(Clean(s), F.Val(s, z), i) == F.Word(s, F.Val(s, z), i)
  {
    hide F.Val;
    I.SafeMeans(s);
  }

  lemma CleanKeeps(s: F.FS)
    requires I.Safe(s)
    ensures F.Shaped(s) && I.Safe(Clean(s))
  {
    hide I.Safe, F.Val, Clean;
    I.SafeShaped(s);
    forall y ensures F.Val(Clean(s), y) == F.Val(s, y) { CleanVal(s, y); }
    CleanBits(s);
    I.SameUseKeeps(s, Clean(s));
  }

  lemma CleanBits(s: F.FS)
    requires F.Shaped(s) && forall y :: F.Val(Clean(s), y) == F.Val(s, y)
    ensures I.SameUse(s, Clean(s))
  {
    hide F.Val;
  }

  lemma CleanByte(s: F.FS, g: nat, p: nat)
    requires I.Safe(s)
    ensures F.Shaped(s) && D.FileByte(Clean(s), g, p) == D.FileByte(s, g, p)
  {
    hide I.Safe, F.Val, D.FileByte, F.Leaf;
    I.SafeMeans(s);
    CleanKeeps(s);
    D.ByteOfLeaf(s, g, p);
    D.ByteOfLeaf(Clean(s), g, p);
    if p / BLOCK_SIZE < F.LIMIT { CleanVal(s, F.Leaf(g, p / BLOCK_SIZE)); }
  }

  // ---- one event -----------------------------------------------------------------------------

  // What the event is for the file model, with the blocks that the device did not answer for when they were read.
  ghost function Model(m: Mounted, e: Event): Option<R.Event>
    requires Allowed(m, e)
  {
    match e
    case Write(f, h, d, errors) => Some(R.Write(f, h, d, FileWrite(m, f, h, d, errors).0.bad))
    case New(f, n, dead) => Some(R.New(f, n, IbMapHelper(m, f, n, true, dead).bad))
    case Cut(f, dead) => Some(R.Cut(f, Truncate(m, f, dead).bad))
    case _ => None
  }

  // n shows what the model has at t, up to what free blocks hold.
  ghost predicate Follows(m: Mounted, n: Mounted, t: F.FS) {
    Fit(n) && |n.inodes| == |m.inodes| && F.Shaped(t) && (Seen(n) == t || Seen(n) == Clean(t))
  }

  lemma WriteStays(m: Mounted, f: nat, h: F.File, d: seq<byte>, errors: nat -> set<nat>)
    requires Good(m) && f < |m.inodes|
    ensures var r := FileWrite(m, f, h, d, errors).0;
      && r.end.Ran? && Calm(r.m) && |r.m.inodes| == |m.inodes|
      && Seen(r.m) == F.FileWrite(Seen(m), f, h, d, r.bad).0
  {
    hide K.Inv, I.Safe, FileWrite, F.FileWrite, Quiet, Room;
    CalmReady(m);
    FileWriteRuns(m, f, h, d, errors);
    FileWriteSeen(m, f, h, d, errors);
    CalmFine(m, FileWrite(m, f, h, d, errors).0.m);
  }

  lemma NewStays(m: Mounted, f: nat, n: int, dead: set<nat>)
    requires Good(m) && f < |m.inodes|
    ensures var r := IbMapHelper(m, f, n, true, dead);
      && r.end.Ran? && Calm(r.m) && |r.m.inodes| == |m.inodes|
      && (Seen(r.m), r.b) == F.IbMapNew(Seen(m), f, n, r.bad)
  {
    hide K.Inv, I.Safe, IbMapHelper, F.IbMapNew, Quiet, Room;
    CalmReady(m);
    IbMapRuns(m, f, n, true, dead);
    IbMapSeen(m, f, n, true, dead);
    CalmFine(m, IbMapHelper(m, f, n, true, dead).m);
  }

  lemma CutStays(m: Mounted, f: nat, dead: set<nat>)
    requires Good(m) && f < |m.inodes|
    ensures var r := Truncate(m, f, dead);
      && r.end.Ran? && Calm(r.m) && |r.m.inodes| == |m.inodes|
      && F.Truncate(Seen(m), f, r.bad).Some? && F.Shaped(F.Truncate(Seen(m), f, r.bad).value)
      && Seen(r.m) == Clean(F.Truncate(Seen(m), f, r.bad).value)
  {
    hide K.Inv, I.Safe, Truncate, F.Truncate, Quiet, Room, Clean;
    CalmReady(m);
    TruncateRuns(m, f, dead);
    TruncateSeen(m, f, dead);
    CalmFine(m, Truncate(m, f, dead).m);
  }

  lemma ReadStays(m: Mounted, f: nat, h: F.File, count: nat, errors: nat -> set<nat>)
    requires Good(m) && f < |m.inodes|
    ensures var (r, a, h1) := FileRead(m, f, h, count, errors);
      && r.end.Ran? && Calm(r.m) && |r.m.inodes| == |m.inodes| && Seen(r.m) == Seen(m)
      && Within(r.bad, errors) && (a, h1) == F.FileRead(Seen(m), f, h, count, r.bad)
  {
    hide K.Inv, I.Safe, FileRead, F.FileRead, Quiet, Room;
    CalmReady(m);
    FileReadRuns(m, f, h, count, errors);
    FileReadSeen(m, f, h, count, errors);
    CalmFine(m, FileRead(m, f, h, count, errors).0.m);
  }

  // Each call runs to its end, keeps the state good, and does to the disk that the file layer sees what the file
  // model says, up to what free blocks hold.
  lemma StepFollows(m: Mounted, e: Event)
    requires Good(m) && Allowed(m, e)
    ensures Good(Step(m, e))
    ensures var x := Model(m, e);
      && (x.None? ==> Seen(Step(m, e)) == Seen(m) && |Step(m, e).inodes| == |m.inodes|)
      && (x.Some? ==> R.Allowed(Seen(m), x.value) && Follows(m, Step(m, e), R.Step(Seen(m), x.value)))
  {
    hide K.Inv, I.Safe, Quiet, Room, Clean, FileWrite;
    hide IbMapHelper, Truncate, FileRead, F.FileWrite, F.IbMapNew, F.Truncate;
    match e
    case Elsewhere(c) =>
    case Write(f, h, d, errors) =>
      WriteStays(m, f, h, d, errors);
      R.StepKeeps(Seen(m), Model(m, e).value);
    case New(f, n, dead) =>
      NewStays(m, f, n, dead);
      R.StepKeeps(Seen(m), Model(m, e).value);
    case Cut(f, dead) =>
      CutStays(m, f, dead);
      R.StepKeeps(Seen(m), Model(m, e).value);
      CleanKeeps(R.Step(Seen(m), Model(m, e).value));
    case Read(f, h, count, errors) =>
      ReadStays(m, f, h, count, errors);
  }

  // ---- runs ----------------------------------------------------------------------------------

  ghost predicate AllowedRun(m: Mounted, es: seq<Event>)
    decreases |es|
  {
    |es| == 0 || (Allowed(m, es[0]) && AllowedRun(Step(m, es[0]), es[1..]))
  }

  ghost function Run(m: Mounted, es: seq<Event>): Mounted
    requires AllowedRun(m, es)
    decreases |es|
  {
    if |es| == 0 then m else Run(Step(m, es[0]), es[1..])
  }

  // The arrays of the file model, driven by the calls themselves: there is no disk and no cache here, and which
  // blocks the device does not answer for plays no part.
  ghost function PrivateStep(fs: seq<V.Private>, e: Event, o: V.Outcome): (r: seq<V.Private>)
    ensures |r| == |fs|
  {
    match e
    case Write(f, h, d, errors) => R.PrivateStep(fs, R.Write(f, h, d, errors), o)
    case New(f, n, dead) => R.PrivateStep(fs, R.New(f, n, dead), o)
    case Cut(f, dead) => R.PrivateStep(fs, R.Cut(f, dead), o)
    case _ => fs
  }

  ghost function PrivateRun(fs: seq<V.Private>, es: seq<Event>, os: seq<V.Outcome>): (r: seq<V.Private>)
    requires |os| == |es|
    ensures |r| == |fs|
    decreases |es|
  {
    if |es| == 0 then fs else PrivateRun(PrivateStep(fs, es[0], os[0]), es[1..], os[1..])
  }

  // The count is the one that file_write returns.
  ghost function OutcomeOf(m: Mounted, e: Event): V.Outcome
    requires Allowed(m, e)
  {
    match e
    case Write(f, h, d, errors) =>
      var r := FileWrite(m, f, h, d, errors).0;
      V.Outcome(r.count, V.WriteOutcome(Seen(m), f, h, d, r.bad).more)
    case New(f, n, dead) => V.Outcome(0, IbMapHelper(m, f, n, true, dead).b != 0)
    case _ => V.Outcome(0, false)
  }

  ghost function Outcomes(m: Mounted, es: seq<Event>): (r: seq<V.Outcome>)
    requires AllowedRun(m, es)
    ensures |r| == |es|
    decreases |es|
  {
    if |es| == 0 then [] else [OutcomeOf(m, es[0])] + Outcomes(Step(m, es[0]), es[1..])
  }

  lemma CleanView(s: F.FS)
    requires I.Safe(s)
    ensures F.Shaped(s) && V.View(Clean(s)) == V.View(s)
  {
    hide I.Safe, D.FileByte, F.Shaped;
    I.SafeShaped(s);
    CleanKeeps(s);
    var t := Clean(s);
    forall f | 0 <= f < |s.inodes| ensures V.ViewOf(t, f) == V.ViewOf(s, f) {
      forall p: nat | p < V.END ensures V.At(V.ViewOf(t, f), p) == V.At(V.ViewOf(s, f), p) {
        CleanByte(s, f, p);
        V.ViewAt(s, f, p);
        V.ViewAt(t, f, p);
      }
      V.SameMaps(V.ViewOf(t, f), V.ViewOf(s, f));
    }
  }

  // The call reports what the model reports.
  lemma SameOutcome(m: Mounted, e: Event)
    requires Good(m) && Allowed(m, e)
    ensures var x := Model(m, e);
      x.Some? ==>
        && R.Allowed(Seen(m), x.value)
        && forall fs :: R.PrivateStep(fs, x.value, R.OutcomeOf(Seen(m), x.value)) == PrivateStep(fs, e, OutcomeOf(m, e))
  {
    hide K.Inv, I.Safe, Quiet, Room, FileWrite, IbMapHelper, Truncate, F.FileWrite, F.IbMapNew, F.Truncate;
    match e
    case Write(f, h, d, errors) =>
      CalmReady(m);
      FileWriteRuns(m, f, h, d, errors);
      FileWriteSeen(m, f, h, d, errors);
    case New(f, n, dead) => NewStays(m, f, n, dead);
    case _ =>
  }

  lemma StepView(m: Mounted, e: Event)
    requires Good(m) && Allowed(m, e)
    ensures Good(Step(m, e)) && |Step(m, e).inodes| == |m.inodes|
    ensures V.View(Seen(Step(m, e))) == PrivateStep(V.View(Seen(m)), e, OutcomeOf(m, e))
  {
    hide K.Inv, Room, I.Safe, Quiet, Clean, Step, Allowed, OutcomeOf, V.View;
    hide R.OutcomeOf, R.PrivateStep, R.Step, R.Allowed;
    StepFollows(m, e);
    SameOutcome(m, e);
    var x := Model(m, e);
    if x.Some? {
      R.StepRefines(Seen(m), x.value);
      R.StepKeeps(Seen(m), x.value);
      CleanView(R.Step(Seen(m), x.value));
    }
  }

  // Over every run through the cache each file is private memory to its writer, sizes and bytes: no eviction, no
  // write-back, no other file and no reuse of a block shows.
  lemma {:induction false} FilesArePrivate(m: Mounted, es: seq<Event>)
    requires Good(m) && AllowedRun(m, es)
    ensures Good(Run(m, es)) && |Run(m, es).inodes| == |m.inodes|
    ensures V.View(Seen(Run(m, es))) == PrivateRun(V.View(Seen(m)), es, Outcomes(m, es))
    decreases |es|
  {
    hide Good, Step, V.View, PrivateStep, OutcomeOf, Allowed, Fit;
    if |es| > 0 {
      StepView(m, es[0]);
      FilesArePrivate(Step(m, es[0]), es[1..]);
    }
  }

  // What file_read returns, in terms of a private array: its bytes from the offset on, short only at a missing byte
  // if every read is answered.
  ghost predicate Reads(x: V.Private, at: nat, count: nat, a: seq<byte>, errors: nat -> set<nat>) {
    && |a| <= count
    && (forall p :: at <= p < at + |a| ==> V.At(x, p) == Some(a[p - at]))
    && (|a| < count && D.NoErrors(errors) ==> V.At(x, at + |a|) == None)
  }

  // After a run it reads the private array of its file.
  lemma ReadIsPrivate(m: Mounted, es: seq<Event>, g: nat, h: F.File, count: nat, errors: nat -> set<nat>)
    requires Good(m) && AllowedRun(m, es) && g < |m.inodes|
    ensures Good(Run(m, es)) && g < |Run(m, es).inodes|
    ensures var (r, a, h1) := FileRead(Run(m, es), g, h, count, errors);
      && r.end.Ran? && h1 == h.(offset := h.offset + |a|)
      && Reads(PrivateRun(V.View(Seen(m)), es, Outcomes(m, es))[g], h.offset, count, a, errors)
  {
    hide K.Inv, Room, I.Safe, Quiet, Run, PrivateRun, Outcomes, AllowedRun, FileRead, V.View;
    FilesArePrivate(m, es);
    ReadHere(Run(m, es), g, h, count, errors);
  }

  lemma ReadHere(n: Mounted, g: nat, h: F.File, count: nat, errors: nat -> set<nat>)
    requires Good(n) && g < |n.inodes|
    ensures var (r, a, h1) := FileRead(n, g, h, count, errors);
      r.end.Ran? && h1 == h.(offset := h.offset + |a|) && Reads(V.ViewOf(Seen(n), g), h.offset, count, a, errors)
  {
    hide K.Inv, Room, I.Safe, Quiet, D.FileByte, FileRead, F.ReadLoop, D.NoErrors, V.ViewOf;
    ReadStays(n, g, h, count, errors);
    var (r, a, h1) := FileRead(n, g, h, count, errors);
    D.ReadGives(Seen(n), g, h.offset, count, r.bad, 0);
    forall p | h.offset <= p < h.offset + |a| ensures V.At(V.ViewOf(Seen(n), g), p) == Some(a[p - h.offset]) {
      D.ReadsSome(Seen(n), g, h.offset, a, p - h.offset);
      V.ViewAt(Seen(n), g, p);
    }
    V.ViewAt(Seen(n), g, h.offset + |a|);
    if D.NoErrors(errors) { NoneWithin(r.bad, errors); }
  }

  lemma NoneWithin(bad: nat -> set<nat>, errors: nat -> set<nat>)
    requires Within(bad, errors) && D.NoErrors(errors)
    ensures D.NoErrors(bad)
  {
    forall j ensures bad(j) == {} { assert bad(j) <= errors(j); }
  }

  // ---- where runs start, and what happens in between -----------------------------------------

  // A disk without files' blocks, and a cache with two buffers or more that nobody holds.
  lemma FreshIsGood(m: Mounted)
    requires Fit(m) && K.Inv(m.cache) && |m.cache.bufs| >= 2
    requires forall i :: 0 <= i < |m.cache.refs| ==> m.cache.refs[i] == 0
    requires R.Empty(Seen(m))
    ensures Good(m)
  {
    hide K.Inv, R.Empty, I.Safe;
    K.InvShaped(m.cache);
    R.EmptyIsSound(Seen(m));
    assert {0, 1} <= Idle(m.cache);
    SubsetSize({0, 1}, Idle(m.cache));
  }

  // So from start-up every file is such an array, empty at first, and what is read is what it holds.
  lemma EveryRunIsPrivate(m: Mounted, es: seq<Event>, g: nat, h: F.File, count: nat, errors: nat -> set<nat>)
    requires Fit(m) && K.Inv(m.cache) && |m.cache.bufs| >= 2
    requires forall i :: 0 <= i < |m.cache.refs| ==> m.cache.refs[i] == 0
    requires R.Empty(Seen(m)) && AllowedRun(m, es) && g < |m.inodes|
    ensures var fs := PrivateRun(R.Blank(Seen(m)), es, Outcomes(m, es));
      && Good(Run(m, es)) && g < |Run(m, es).inodes| && V.View(Seen(Run(m, es))) == fs
      && var (r, a, h1) := FileRead(Run(m, es), g, h, count, errors);
         r.end.Ran? && h1 == h.(offset := h.offset + |a|) && Reads(fs[g], h.offset, count, a, errors)
  {
    hide K.Inv, R.Empty, I.Safe, Good, Run, AllowedRun, PrivateRun, Outcomes, FileRead, Reads, V.View;
    FreshIsGood(m);
    R.EmptyView(Seen(m));
    FilesArePrivate(m, es);
    ReadIsPrivate(m, es, g, h, count, errors);
  }

  // sync_dev of any device may come at any time.
  lemma SyncIsElsewhere(m: Mounted, dev: nat)
    requires Good(m)
    ensures Allowed(m, Elsewhere(C.SyncDev(m.cache, dev, |m.cache.bufs|)))
  {
    hide K.Inv, I.Safe, C.Logical, C.SyncDev;
    var d := C.SyncDev(m.cache, dev, |m.cache.bufs|);
    forall l: C.Key ensures C.Logical(d, l) == C.Logical(m.cache, l) { K.SyncKeeps(m.cache, dev, |m.cache.bufs|, l); }
    K.SyncKeeps(m.cache, dev, |m.cache.bufs|, C.Key(0, 0));
    SeenSame(m, m.(cache := d));
    assert Idle(d) == Idle(m.cache);
  }
}
