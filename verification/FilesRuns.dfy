// Every run of file_write, ib_map_new and truncate on any set of files.
module FilesRuns {
  import opened Base
  import opened FilesModel
  import opened FilesInvariant
  import opened FilesMap
  import T = FilesTruncate
  import opened FilesData
  import opened FilesPrivate

  datatype Event =
    | Write(f: nat, h: File, d: seq<byte>, errors: nat -> set<nat>)
    | New(f: nat, n: int, bad: set<nat>)
    | Cut(f: nat, bad: set<nat>)

  ghost predicate Allowed(s: FS, e: Event) { Shaped(s) && e.f < |s.inodes| }

  // A halt of the kernel would leave the state as it is; TruncateKeeps shows that there is none.
  ghost function Step(s: FS, e: Event): FS
    requires Allowed(s, e)
  {
    match e
    case Write(f, h, d, errors) => FileWrite(s, f, h, d, errors).0
    case New(f, n, bad) => IbMapNew(s, f, n, bad).0
    case Cut(f, bad) => if Truncate(s, f, bad).Some? then Truncate(s, f, bad).value else s
  }

  ghost predicate AllowedRun(s: FS, es: seq<Event>)
    decreases |es|
  {
    |es| == 0 || (Allowed(s, es[0]) && AllowedRun(Step(s, es[0]), es[1..]))
  }

  ghost function Run(s: FS, es: seq<Event>): FS
    requires AllowedRun(s, es)
    decreases |es|
  {
    if |es| == 0 then s else Run(Step(s, es[0]), es[1..])
  }

  // A disk without files' blocks.
  ghost predicate Empty(s: FS) {
    && Shaped(s) && (forall b :: InZone(s, b) ==> !Bit(s, b))
    && forall f, i :: Pointer(s, f, i) == 0
  }

  lemma EmptyIsSound(s: FS)
    requires Empty(s)
    ensures Safe(s) && Sound(s)
  {
    forall x ensures Val(s, x) == 0 { EmptyVal(s, x); }
    hide Val, Pointer;
    var o: Owner := map[];
    assert Owned(s, o) && NoLeak(s, o);
  }

  lemma EmptyVal(s: FS, x: Slot)
    requires forall f, i :: Pointer(s, f, i) == 0
    ensures Val(s, x) == 0
  {
  }

  // ---- the invariant -------------------------------------------------------------------------

  // A truncate that could read every index block it needed.
  ghost predicate Complete(s: FS, e: Event) {
    e.Cut? ==> forall x: Slot :: x.f == e.f && Val(s, x) != 0 ==> Readable(s, x, e.bad)
  }

  lemma StepKeeps(s: FS, e: Event)
    requires Safe(s) && Allowed(s, e)
    ensures Safe(Step(s, e)) && |Step(s, e).inodes| == |s.inodes|
    ensures Sound(s) && Complete(s, e) ==> Sound(Step(s, e))
  {
    hide Safe, Sound, FileWrite, IbMapNew, Truncate, Val, Readable, Shaped, ZoneFull, Mapped;
    match e
    case Write(f, h, d, errors) => FileWriteKeeps(s, f, h, d, errors);
    case New(f, n, bad) => IbMapNewKeeps(s, f, n, bad);
    case Cut(f, bad) =>
      T.TruncateKeeps(s, f, bad);
      if Sound(s) { T.TruncateSoundIff(s, f, bad); }
  }

  ghost predicate CompleteRun(s: FS, es: seq<Event>)
    requires AllowedRun(s, es)
    decreases |es|
  {
    |es| == 0 || (Complete(s, es[0]) && CompleteRun(Step(s, es[0]), es[1..]))
  }

  lemma {:induction false} RunKeeps(s: FS, es: seq<Event>)
    requires Safe(s) && AllowedRun(s, es)
    ensures Safe(Run(s, es)) && |Run(s, es).inodes| == |s.inodes|
    ensures Sound(s) && CompleteRun(s, es) ==> Sound(Run(s, es))
    decreases |es|
  {
    hide Safe, Sound, Step, Complete, Allowed;
    if |es| > 0 {
      StepKeeps(s, es[0]);
      RunKeeps(Step(s, es[0]), es[1..]);
    }
  }

  // Over every run from an empty disk: every block that a file reaches is in the zone, its bit is
  // set and it is reached once; and unless a truncate could not read an index block, the set bits
  // are exactly those blocks and the reserved bit.
  lemma EveryRunIsSound(s: FS, es: seq<Event>)
    requires Empty(s) && AllowedRun(s, es)
    ensures var t := Run(s, es);
      && Shaped(t) && t.bits[0]
      && (forall x :: Val(t, x) != 0 ==> InZone(t, Val(t, x)) && Bit(t, Val(t, x)))
      && (forall x, y :: Val(t, x) != 0 && Val(t, x) == Val(t, y) ==> x == y)
      && (CompleteRun(s, es) ==> forall b :: InZone(t, b) ==> (Bit(t, b) <==> exists x :: Val(t, x) == b))
  {
    hide Safe, Sound, Step, Complete, Allowed, Val, Empty;
    EmptyIsSound(s);
    RunKeeps(s, es);
    SafeMeans(Run(s, es));
    if CompleteRun(s, es) { SoundMeans(Run(s, es)); }
  }

  // ---- the block map over runs ---------------------------------------------------------------

  ghost predicate Cuts(es: seq<Event>, f: nat) { exists i :: 0 <= i < |es| && es[i].Cut? && es[i].f == f }

  lemma WriteExtends(s: FS, f: nat, pos: nat, d: seq<byte>, bad: set<nat>, x: Slot)
    requires Safe(s) && f < |s.inodes| && Val(s, x) != 0
    ensures Shaped(s) && Val(WriteStep(s, f, pos, d, bad).0, x) == Val(s, x)
  {
    IbMapNewKeeps(s, f, pos / BLOCK_SIZE, bad);
    MapForWrite(s, f, pos, bad);
    hide Val, Leaf, IbMapNew, Safe, Sound, ZoneFull;
    var (t, b) := IbMapNew(s, f, pos / BLOCK_SIZE, bad);
    assert pos / BLOCK_SIZE < LIMIT ==> KeptAt(s, t, x);
    if b != 0 && b !in bad {
      LeafInjective(f, pos / BLOCK_SIZE, f, pos / BLOCK_SIZE);
      PutKeeps(t, Leaf(f, pos / BLOCK_SIZE), pos % BLOCK_SIZE, d[..Chars(pos, |d|)]);
    }
  }

  lemma {:induction false} WriteLoopExtends(s: FS, f: nat, pos: nat, d: seq<byte>, bad: nat -> set<nat>, k: nat,
      x: Slot)
    requires Safe(s) && f < |s.inodes| && Val(s, x) != 0
    ensures Shaped(s) && Val(WriteLoop(s, f, pos, d, bad, k).0, x) == Val(s, x)
    decreases |d|
  {
    hide *;
    SafeShaped(s);
    WriteUnfolds(s, f, pos, d, bad, k);
    if d != [] {
      FilesData.StepKeeps(s, f, pos, d, bad(k));
      WriteExtends(s, f, pos, d, bad(k), x);
      var (t, n) := WriteStep(s, f, pos, d, bad(k));
      FollowsSafe(s, t);
      if n > 0 {
        WriteLoopExtends(t, f, pos + n, d[n..], bad, k + 1, x);
      }
    }
  }

  // An entry of a block map stays until its own file is truncated.
  lemma StepKeepsEntry(s: FS, e: Event, x: Slot)
    requires Safe(s) && Allowed(s, e) && Val(s, x) != 0 && !(e.Cut? && e.f == x.f)
    ensures Val(Step(s, e), x) == Val(s, x)
  {
    hide Safe, Sound, Val, Shaped, ZoneFull, WriteLoop, IbMapNew, Truncate, Leaf;
    match e
    case Write(f, h, d, errors) =>
      var pos := WriteStart(s, f, h);
      WriteLoopExtends(s, f, pos, d, errors, 0, x);
      var (t, n) := WriteLoop(s, f, pos, d, errors, 0);
      SameTreeVal(t, if n > 0 then Grow(t, f, pos + n) else t, x);
    case New(f, n, bad) =>
      IbMapNewKeeps(s, f, n, bad);
      if 0 <= n < LIMIT { assert KeptAt(s, IbMapNew(s, f, n, bad).0, x); }
    case Cut(f, bad) =>
      T.TruncateKeeps(s, f, bad);
  }

  lemma {:induction false} EntriesStay(s: FS, es: seq<Event>, f: nat, n: nat)
    requires Safe(s) && AllowedRun(s, es) && n < LIMIT && Val(s, Leaf(f, n)) != 0 && !Cuts(es, f)
    ensures Val(Run(s, es), Leaf(f, n)) == Val(s, Leaf(f, n))
    decreases |es|
  {
    hide Safe, Sound, Step, Val, Leaf, Allowed;
    if |es| > 0 {
      StepKeeps(s, es[0]);
      LeafInjective(f, n, f, n);
      StepKeepsEntry(s, es[0], Leaf(f, n));
      assert forall i :: 0 <= i < |es| - 1 ==> es[1..][i] == es[i + 1];
      EntriesStay(Step(s, es[0]), es[1..], f, n);
    }
  }

  // What ib_map_new returns, every later ib_map returns, until the file is truncated.
  lemma NewIsReturnedLater(s: FS, f: nat, n: nat, bad: set<nat>, es: seq<Event>)
    requires Safe(s) && Allowed(s, New(f, n, bad)) && IbMapNew(s, f, n, bad).1 != 0
    requires AllowedRun(IbMapNew(s, f, n, bad).0, es) && !Cuts(es, f)
    ensures IbMap(Run(IbMapNew(s, f, n, bad).0, es), f, n, {}) == IbMapNew(s, f, n, bad).1
  {
    hide Safe, Sound, Val, Leaf, Run, AllowedRun, Cuts, Step, IbMap, IbMapNew;
    StepKeeps(s, New(f, n, bad));
    NewChangesOneEntry(s, f, n, f, n, bad);
    var t := IbMapNew(s, f, n, bad).0;
    StepIsNew(s, f, n, bad);
    ReadableAlways(t, f, n);
    ReadableAlways(Run(t, es), f, n);
    EntriesStay(t, es, f, n);
  }

  lemma StepIsNew(s: FS, f: nat, n: nat, bad: set<nat>)
    requires Allowed(s, New(f, n, bad))
    ensures Step(s, New(f, n, bad)) == IbMapNew(s, f, n, bad).0
  {
    hide IbMapNew;
  }

  // ---- files as private arrays over runs -----------------------------------------------------

  // What the calls report, and whether the last block asked for was mapped.
  ghost function OutcomeOf(s: FS, e: Event): Outcome
    requires Allowed(s, e)
  {
    match e
    case Write(f, h, d, errors) => WriteOutcome(s, f, h, d, errors)
    case New(f, n, bad) => NewOutcome(s, f, n, bad)
    case Cut(f, bad) => Outcome(0, false)
  }

  ghost function Outcomes(s: FS, es: seq<Event>): (r: seq<Outcome>)
    requires AllowedRun(s, es)
    ensures |r| == |es|
    decreases |es|
  {
    if |es| == 0 then [] else [OutcomeOf(s, es[0])] + Outcomes(Step(s, es[0]), es[1..])
  }

  // The private arrays after an event. There is no disk here, and which blocks cannot be read plays no part.
  ghost function PrivateStep(fs: seq<Private>, e: Event, o: Outcome): (r: seq<Private>)
    ensures |r| == |fs|
  {
    if e.f >= |fs| then fs
    else
      match e
      case Write(f, h, d, _) => fs[f := Written(fs[f], h, d, o)]
      case New(f, n, _) => fs[f := Extended(fs[f], n, o)]
      case Cut(f, _) => fs[f := NOTHING]
  }

  ghost function PrivateRun(fs: seq<Private>, es: seq<Event>, os: seq<Outcome>): (r: seq<Private>)
    requires |os| == |es|
    ensures |r| == |fs|
    decreases |es|
  {
    if |es| == 0 then fs else PrivateRun(PrivateStep(fs, es[0], os[0]), es[1..], os[1..])
  }

  lemma StepRefines(s: FS, e: Event)
    requires Safe(s) && Allowed(s, e)
    ensures View(Step(s, e)) == PrivateStep(View(s), e, OutcomeOf(s, e))
  {
    hide Safe, Sound, Shaped, View, WriteOutcome, NewOutcome, Written, Extended, FileWrite, IbMapNew, Truncate;
    match e
    case Write(f, h, d, errors) => WriteView(s, f, h, d, errors);
    case New(f, n, bad) => NewView(s, f, n, bad);
    case Cut(f, bad) => CutView(s, f, bad);
  }

  // Over every run the shared disk is what private arrays would be, sizes and bytes: a byte is the last one written
  // there since the file was last truncated, zero if only its block was mapped since, and missing otherwise,
  // whatever happened to other files.
  lemma {:induction false} FilesArePrivate(s: FS, es: seq<Event>)
    requires Safe(s) && AllowedRun(s, es)
    ensures View(Run(s, es)) == PrivateRun(View(s), es, Outcomes(s, es))
    decreases |es|
  {
    hide Safe, Step, View, PrivateStep, OutcomeOf, Allowed;
    if |es| > 0 {
      StepKeeps(s, es[0]);
      StepRefines(s, es[0]);
      FilesArePrivate(Step(s, es[0]), es[1..]);
    }
  }

  // The arrays of a disk without files' blocks: no bytes.
  ghost function Blank(s: FS): (r: seq<Private>)
    ensures |r| == |s.inodes| && forall f :: 0 <= f < |r| ==> r[f] == Private(s.inodes[f].size, map[])
  {
    seq(|s.inodes|, f requires 0 <= f < |s.inodes| => Private(s.inodes[f].size, map[]))
  }

  lemma EmptyView(s: FS)
    requires Empty(s)
    ensures View(s) == Blank(s)
  {
    forall f | 0 <= f < |s.inodes| ensures ViewOf(s, f) == Private(s.inodes[f].size, map[]) {
      forall p: nat | p < END ensures At(ViewOf(s, f), p) == None { EmptyByte(s, f, p); }
      SameMaps(ViewOf(s, f), Private(s.inodes[f].size, map[]));
    }
  }

  lemma EmptyByte(s: FS, f: nat, p: nat)
    requires Empty(s)
    ensures FileByte(s, f, p) == None
  {
    hide Pointer, Val, Leaf, FileByte;
    EmptyIsSound(s);
    ByteOfLeaf(s, f, p);
    if p / BLOCK_SIZE < LIMIT { EmptyVal(s, Leaf(f, p / BLOCK_SIZE)); }
  }

  // From an empty disk.
  lemma EveryRunIsPrivate(s: FS, es: seq<Event>)
    requires Empty(s) && AllowedRun(s, es)
    ensures View(Run(s, es)) == PrivateRun(Blank(s), es, Outcomes(s, es))
  {
    hide Empty, Safe, Sound, View;
    EmptyIsSound(s);
    EmptyView(s);
    FilesArePrivate(s, es);
  }
}
