// Over every run, byte by byte: where the byte at a linear address comes from.
module PagingPrivate {
  import opened Base
  import opened PagingModel
  import opened PagingInvariant
  import opened PagingTables
  import opened PagingWrites
  import opened PagingAddresses
  import R = PagingRefinement

  datatype Call =
    | ForkAt(base: nat, limit: nat, q: nat)      // copy_memory of a process at `base` into process q
    | ExitAt(addr: nat, size: nat)               // free_page_tables
    | StoreAt(a: nat, x: byte)                   // a store by a process, with its write fault
    | GrowAt(a: nat)                             // get_empty_page
    | KernelTook                                 // get_phy_page
    | KernelStored(f: nat, o: nat, x: byte)      // a store of the kernel to a frame it took
    | KernelGave(f: nat)                         // free_phy_page on a frame it took

  // A fork goes to a free process slot, a new page to an address that has none, and the kernel uses only the
  // frames it took.
  predicate Allowed(s: Mem, c: Call)
    requires Shaped(s)
  {
    match c
    case ForkAt(base, limit, q) => MayForkAt(base, limit, q) && ChildEmpty(s, limit, q)
    case ExitAt(addr, size) => User32(addr) && addr + size <= 0x1_0000_0000
    case StoreAt(a, x) => User32(a)
    case GrowAt(a) => User32(a) && ByteAt(s, a).None?
    case KernelTook => true
    case KernelStored(f, o, x) => f in s.held && f < |s.data| && o < 0x1000
    case KernelGave(f) => f in s.held
  }

  // The invariant, with physical memory ending at 64MB or below (init/kmain.c caps it there).
  ghost predicate Sound(s: Mem) { Inv(s) && (s.start + |s.counts|) * 0x1000 <= 0x400_0000 }

  lemma CallFits(s: Mem, c: Call)
    requires Sound(s) && Allowed(s, c)
    ensures c.ExitAt? ==> DirIndex(c.addr) + SlotsFor(c.size) <= SLOTS
    ensures c.StoreAt? ==> DirIndex(c.a) < SLOTS && TableIndex(c.a) < SLOTS
    ensures c.StoreAt? ==> var e := Entry(s, DirIndex(c.a), TableIndex(c.a)); e.present ==> e.frame < |s.data|
    ensures c.GrowAt? ==> DirIndex(c.a) < SLOTS && TableIndex(c.a) < SLOTS
  {
    match c
    case ExitAt(addr, size) => SlotsForIs(size);
    case StoreAt(a, x) => StoreByAddress(s, a, x);
    case GrowAt(a) => Indices(a);
    case _ =>
  }

  // The state after a call and whether it succeeded.
  ghost function Step(s: Mem, c: Call): (r: (Mem, bool))
    requires Sound(s) && Allowed(s, c)
    ensures Shaped(r.0)
  {
    CallFits(s, c);
    match c
    case ForkAt(base, limit, q) => var (t, o) := CopyMemory(s, base, base, limit, limit, q); (t, o == Done)
    case ExitAt(addr, size) => (FreePageTables(s, addr, size), true)
    case StoreAt(a, x) => UserWrite(s, DirIndex(a), TableIndex(a), a % 0x1000, x)
    case GrowAt(a) => GetEmptyPage(s, DirIndex(a), TableIndex(a))
    case KernelTook => (GetPhyPage(s).0, GetPhyPage(s).1 != 0)
    case KernelStored(f, o, x) => (StoreByte(s, f, o, x), true)
    case KernelGave(f) => (FreePhyPage(s, f), true)
  }

  // What the byte at a is after a call that succeeded, when `was` gives the bytes before it.
  function ByteAfter(was: nat -> Option<byte>, c: Call, a: nat): Option<byte> {
    match c
    case ForkAt(base, limit, q) =>
      if !InSlots(a, q * 0x400_0000, limit) then was(a)
      else if base == 0 && a - q * 0x400_0000 >= 0xA_0000 then None
      else was(a - q * 0x400_0000 + base)
    case ExitAt(addr, size) => if addr % 0x40_0000 == 0 && InSlots(a, addr, size) then None else was(a)
    case StoreAt(b, x) => if a == b then Some(x) else was(a)
    case GrowAt(b) => if a / 0x1000 == b / 0x1000 then Some(0) else was(a)
    case _ => was(a)
  }

  ghost function Bytes(s: Mem): nat -> Option<byte>
    requires Shaped(s)
  {
    (a: nat) => if Tracked(a) then ByteAt(s, a) else None
  }

  ghost predicate Follows(s: Mem, t: Mem, c: Call, ok: bool)
    requires Shaped(s) && Shaped(t)
  {
    forall a: nat :: Tracked(a) ==> Bytes(t)(a) == if ok then ByteAfter(Bytes(s), c, a) else Bytes(s)(a)
  }

  // ---- one call ------------------------------------------------------------------------------

  lemma ForkFollows(s: Mem, base: nat, limit: nat, q: nat)
    requires Sound(s) && Allowed(s, ForkAt(base, limit, q))
    ensures var (t, ok) := Step(s, ForkAt(base, limit, q)); Sound(t) && Follows(s, t, ForkAt(base, limit, q), ok)
  {
    hide TablesApart, Counted, WritableAlone, SamePlace, HeldOnce, Shaped, CopyMemory, ByteAt, InSlots, ChildEmpty;
    ForkByAddress(s, base, limit, q);
    var (t, o) := CopyMemory(s, base, base, limit, limit, q);
    forall a: nat | Tracked(a) && o == Done ensures Bytes(t)(a) == ByteAfter(Bytes(s), ForkAt(base, limit, q), a) {
      ForkedFrom(s, base, limit, q, a);
    }
  }

  lemma ForkedFrom(s: Mem, base: nat, limit: nat, q: nat, a: nat)
    requires Shaped(s) && MayForkAt(base, limit, q) && Tracked(a)
    ensures ForkedByte(s, base, limit, q, a) == ByteAfter(Bytes(s), ForkAt(base, limit, q), a)
  {
    hide Shaped, ByteAt;
    if InSlots(a, q * 0x400_0000, limit) { ForkIndices(base, limit, q, a); }
  }

  lemma ExitFollows(s: Mem, addr: nat, size: nat)
    requires Sound(s) && Allowed(s, ExitAt(addr, size))
    ensures var (t, ok) := Step(s, ExitAt(addr, size)); Sound(t) && Follows(s, t, ExitAt(addr, size), ok)
  {
    hide TablesApart, Counted, WritableAlone, SamePlace, HeldOnce, Shaped, FreePageTables, ByteAt, InSlots;
    if addr % 0x40_0000 == 0 {
      FreeByAddress(s, addr, size);
    } else {
      FreeLeftAlone(s, addr, size);
    }
  }

  lemma StoreFollows(s: Mem, a: nat, x: byte)
    requires Sound(s) && Allowed(s, StoreAt(a, x))
    ensures var (t, ok) := Step(s, StoreAt(a, x)); Sound(t) && Follows(s, t, StoreAt(a, x), ok)
  {
    hide TablesApart, Counted, WritableAlone, SamePlace, HeldOnce, Shaped, UserWrite, ByteAt;
    StoreByAddress(s, a, x);
  }

  lemma GrowFollows(s: Mem, a: nat)
    requires Sound(s) && Allowed(s, GrowAt(a))
    ensures var (t, ok) := Step(s, GrowAt(a)); Sound(t) && Follows(s, t, GrowAt(a), ok)
  {
    hide TablesApart, Counted, WritableAlone, SamePlace, HeldOnce, Shaped, GetEmptyPage, ByteAt;
    GrowByAddress(s, a);
  }

  // Taking a frame, storing to it and giving it back are seen by no process.
  lemma KernelFollows(s: Mem, c: Call)
    requires Sound(s) && Allowed(s, c) && (c.KernelTook? || c.KernelStored? || c.KernelGave?)
    ensures var (t, ok) := Step(s, c); Sound(t) && Follows(s, t, c, ok)
  {
    hide TablesApart, Counted, WritableAlone, SamePlace, HeldOnce, ByteAt, FreePhyPage, GetPhyPage, StoreByte;
    var t := Step(s, c).0;
    match c
    case KernelTook =>
      GetPhyPageKeeps(s);
      if GetPhyPage(s).1 != 0 { TookPages(s, t, GetPhyPage(s).1); }
      SamePagesSameBytes(s, t);
    case KernelStored(f, o, x) =>
      StoredPages(s, f, o, x);
      SamePagesSameBytes(s, t);
    case KernelGave(f) =>
      GaveKeeps(s, f);
      GaveEntries(s, f);
      GavePages(s, t);
      SamePagesSameBytes(s, t);
  }

  lemma GavePages(s: Mem, t: Mem)
    requires Shaped(s) && Shaped(t) && t.data == s.data && t.tables == s.tables && t.dir == s.dir
    ensures forall d, k :: Key(d, k) ==> Page(t, d, k) == Page(s, d, k)
  {
  }

  lemma StoredPages(s: Mem, f: nat, o: nat, x: byte)
    requires Inv(s) && f in s.held && f < |s.data| && o < PAGE_SIZE
    ensures Inv(StoreByte(s, f, o, x)) && StoreByte(s, f, o, x).start == s.start
    ensures StoreByte(s, f, o, x).counts == s.counts
    ensures forall d, k :: Key(d, k) ==> Page(StoreByte(s, f, o, x), d, k) == Page(s, d, k)
  {
    hide Counted, WritableAlone, SamePlace;
    StoreByteInv(s, f, o, x);
    forall d, k | Key(d, k) ensures Page(StoreByte(s, f, o, x), d, k) == Page(s, d, k) {
      if User(d) { HeldAlone(s, f, PteRef(d, k)); }
    }
  }

  // One call: every byte afterwards is the one that ByteAfter names.
  lemma StepFollows(s: Mem, c: Call)
    requires Sound(s) && Allowed(s, c)
    ensures Sound(Step(s, c).0) && Follows(s, Step(s, c).0, c, Step(s, c).1)
  {
    hide Sound, Step, Inv, ByteAt, InSlots;
    match c
    case ForkAt(base, limit, q) => ForkFollows(s, base, limit, q);
    case ExitAt(addr, size) => ExitFollows(s, addr, size);
    case StoreAt(a, x) => StoreFollows(s, a, x);
    case GrowAt(a) => GrowFollows(s, a);
    case _ => KernelFollows(s, c);
  }

  // ---- whole runs ----------------------------------------------------------------------------

  // The state after the calls, or None if one of them was not allowed.
  ghost function Run(s: Mem, cs: seq<Call>): Option<Mem>
    requires Sound(s)
    decreases |cs|
  {
    if cs == [] then Some(s) else
      var n := |cs| - 1;
      var t := Run(s, cs[..n]);
      if t.Some? && Sound(t.value) && Allowed(t.value, cs[n]) then Some(Step(t.value, cs[n]).0) else None
  }

  ghost predicate Succeeded(s: Mem, c: Call) {
    Sound(s) && Allowed(s, c) && Step(s, c).1
  }

  // The byte at a after the calls, traced back through them: who stored it, or whose it was at a fork.
  ghost function Traced(s: Mem, cs: seq<Call>): nat -> Option<byte>
    requires Sound(s) && Run(s, cs).Some?
    decreases |cs|
  {
    if cs == [] then Bytes(s) else
      var n := |cs| - 1;
      if Succeeded(Run(s, cs[..n]).value, cs[n]) then (a: nat) => ByteAfter(Traced(s, cs[..n]), cs[n], a)
      else Traced(s, cs[..n])
  }

  // Over every run each byte of each process is what it stored itself last, or else what its parent had there at
  // the fork, and so on back; nothing that others do reaches it.
  lemma {:induction false} BytesArePrivate(s: Mem, cs: seq<Call>)
    requires Sound(s) && Run(s, cs).Some?
    ensures Sound(Run(s, cs).value)
    ensures forall a: nat :: Tracked(a) ==> Bytes(Run(s, cs).value)(a) == Traced(s, cs)(a)
    decreases |cs|
  {
    hide Sound, Step, Inv, ByteAt, Allowed, ByteAfter, Bytes, Tracked;
    if cs != [] {
      var n := |cs| - 1;
      BytesArePrivate(s, cs[..n]);
      var t := Run(s, cs[..n]).value;
      StepFollows(t, cs[n]);
      forall a: nat | Tracked(a) ensures Bytes(Run(s, cs).value)(a) == Traced(s, cs)(a) {
        SameAfter(t, Traced(s, cs[..n]), cs[n], a);
      }
    }
  }

  // ByteAfter looks at tracked bytes only.
  lemma SameAfter(t: Mem, was: nat -> Option<byte>, c: Call, a: nat)
    requires Sound(t) && Allowed(t, c) && Tracked(a)
    requires forall b: nat :: Tracked(b) ==> Bytes(t)(b) == was(b)
    ensures ByteAfter(Bytes(t), c, a) == ByteAfter(was, c, a)
  {
    hide TablesApart, Counted, WritableAlone, SamePlace, HeldOnce, Shaped, ByteAt, ChildEmpty, Bytes;
    if c.ForkAt? && InSlots(a, c.q * 0x400_0000, c.limit) { ForkIndices(c.base, c.limit, c.q, a); }
  }

  // In particular from start-up, when no process but the first has memory.
  lemma EveryRunIsPrivate(s: Mem, cs: seq<Call>, a: nat)
    requires R.Booted(s) && Sound(s) && Run(s, cs).Some? && Tracked(a)
    ensures Sound(Run(s, cs).value) && Bytes(Run(s, cs).value)(a) == Traced(s, cs)(a)
    ensures User32(a) ==> Bytes(s)(a) == None
  {
    BytesArePrivate(s, cs);
    if User32(a) { MappedAt(s, a); }
  }
}
