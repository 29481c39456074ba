// Which reads of the file layer fail: those of blocks that the device does not answer for and that no buffer holds.
module FilesReads {
  import opened Base
  import opened FilesCached
  import F = FilesModel
  import C = CacheModel
  import K = CacheProofs
  import E = CacheExact

  // The device does not answer for b, and no buffer has it.
  ghost predicate Lost(m: Mounted, b: nat, dead: set<nat>) { b in dead && !E.HasValid(m.cache, At(m, b)) }

  lemma ReadFails(m: Mounted, b: nat, dead: set<nat>)
    requires Fit(m) && K.Inv(m.cache)
    ensures var g := C.Bread(m.cache, At(m, b), b !in dead).1;
      (g.Buffer? ==> !Lost(m, b, dead)) && (g.Failed? ==> Lost(m, b, dead))
  {
    hide C.Bread, E.HasBuffer, E.HasIdle, E.HasValid, K.Inv;
    K.BreadKeeps(m.cache, At(m, b), b !in dead, At(m, b));
    E.BreadAnswers(m.cache, At(m, b), b !in dead);
  }

  lemma NewTakesNothingBad(m: Mounted, j: nat, i: nat, create: bool)
    requires Fit(m) && j < |m.cache.bufs| && i < F.WORDS
    ensures WordSlot(m, j, i, create).bad == {}
  {
    hide NewBlock;
  }

  // An index block of ib_map and ib_map_new.
  lemma IndexFails(m: Mounted, c: nat, i: nat, create: bool, dead: set<nat>)
    requires Fit(m) && K.Inv(m.cache) && i < F.WORDS
    ensures var r := UnderIndex(m, c, i, create, dead);
      r.end.Ran? ==> r.bad == if Lost(m, c, dead) then {c} else {}
  {
    hide C.Bread, WordSlot, K.Inv, E.HasValid;
    ReadFails(m, c, dead);
    var (d, g) := C.Bread(m.cache, At(m, c), c !in dead);
    if g.Buffer? { NewTakesNothingBad(m.(cache := d), g.i, i, create); }
  }

  // A data block of file_write and of file_read, which come to it with p.
  lemma DataFails(p: Out, pos: nat, d: seq<byte>, dead: set<nat>)
    requires Fit(p.m) && K.Inv(p.m.cache)
    ensures var (r, a) := (PutInBlock(p, pos, d, dead), GetFromBlock(p, pos, |d|, dead));
      && (r.end.Ran? ==> r.bad == p.bad + (if Lost(p.m, p.b, dead) then {p.b} else {}))
      && (r.end.Ran? && d != [] ==> (r.b == 0 <==> Lost(p.m, p.b, dead)))
      && (a.0.end.Ran? ==> a.0.bad == p.bad + (if Lost(p.m, p.b, dead) then {p.b} else {}))
      && (a.0.end.Ran? && d != [] ==> (a.1 == [] <==> Lost(p.m, p.b, dead)))
  {
    hide C.Bread, C.Brelease, K.Inv, E.HasValid, C.Store;
    ReadFails(p.m, p.b, dead);
  }

  // A single index block of truncate. Where it fails, the blocks that it names stay in use.
  lemma Level1Fails(m: Mounted, b: nat, dead: set<nat>)
    requires Fit(m) && K.Inv(m.cache) && b != 0
    ensures var r := FreeLevel1(m, b, dead);
      && (Goes(r.end) ==> r.bad == if Lost(m, b, dead) then {b} else {})
      && (r.end.Ran? && Lost(m, b, dead) ==>
           forall i :: 0 <= i < |m.bits| && i != b - m.first + 1 ==> r.m.bits[i] == m.bits[i])
  {
    hide C.Bread, C.Brelease, K.Inv, E.HasValid, FreeWords, C.FreeBuffer;
    ReadFails(m, b, dead);
    var (d, g) := C.Bread(m.cache, At(m, b), b !in dead);
    if g.Buffer? { WordsReadNothing(m.(cache := d), g.i, F.WORDS); }
  }

  lemma {:induction false} WordsReadNothing(m: Mounted, j: nat, n: nat)
    requires Fit(m) && j < |m.cache.bufs| && n <= F.WORDS
    ensures FreeWords(m, j, n).bad == {}
  {
    hide FreeBlock, F.U16At;
    if n > 0 { WordsReadNothing(m, j, n - 1); }
  }
}
