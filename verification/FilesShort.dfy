// When file_write and file_read stop short, whatever blocks cannot be read at each turn of their loops.
module FilesShort {
  import opened Base
  import opened FilesModel
  import opened FilesInvariant
  import opened FilesMap
  import opened FilesData

  // The turn of the loop, from 0, that comes to the byte n after pos.
  function TurnOf(pos: nat, n: nat): (k: nat)
    ensures k == (pos + n) / 1024 - pos / 1024
  {
    (pos + n) / 1024 - pos / 1024
  }

  // One turn: no byte where the block cannot be mapped or read, and else as many as the block and the data have.
  lemma WriteTurn(s: FS, f: nat, pos: nat, d: seq<byte>, bad: set<nat>)
    requires Shaped(s) && d != []
    ensures var ((t, n), (u, b)) := (WriteStep(s, f, pos, d, bad), IbMapNew(s, f, pos / 1024, bad));
      && (b == 0 || b in bad || b >= |u.disk| ==> n == 0 && t == u)
      && (b != 0 && b !in bad && b < |u.disk| ==> n == if |d| < 1024 - pos % 1024 then |d| else 1024 - pos % 1024)
  {
    hide IbMapNew;
  }

  lemma OneTurnOn(pos: nat, n: nat, m: nat)
    requires 0 < n && n == 1024 - pos % 1024
    ensures TurnOf(pos, n + m) == 1 + TurnOf(pos + n, m)
  {
  }

  // file_write stops short exactly where the block of its next byte cannot be mapped, or not be read, in that turn:
  // at the start or at the end of a block, with everything before it written as if there were no more to write.
  ghost predicate StopsAt(s: FS, f: nat, pos: nat, d: seq<byte>, bad: nat -> set<nat>, k: nat, t: FS, n: nat)
    requires Shaped(s) && n <= |d|
  {
    var (u, m) := WriteLoop(s, f, pos, d[..n], bad, k);
    var (v, b) := IbMapNew(u, f, (pos + n) / 1024, bad(k + TurnOf(pos, n)));
    && m == n && t == v && (n == 0 || (pos + n) % 1024 == 0)
    && (b == 0 || b in bad(k + TurnOf(pos, n)) || b >= |v.disk|)
  }

  lemma {:induction false} LoopStops(s: FS, f: nat, pos: nat, d: seq<byte>, bad: nat -> set<nat>, k: nat)
    requires Shaped(s)
    ensures var (t, n) := WriteLoop(s, f, pos, d, bad, k); n < |d| ==> StopsAt(s, f, pos, d, bad, k, t, n)
    decreases |d|
  {
    hide Shaped, WriteLoop, WriteStep, IbMapNew, StopsAt;
    WriteUnfolds(s, f, pos, d, bad, k);
    if d != [] {
      WriteTurn(s, f, pos, d, bad(k));
      var (t, n) := WriteStep(s, f, pos, d, bad(k));
      if n == 0 {
        StopsHere(s, f, pos, d, bad, k);
      } else if n < |d| {
        LoopStops(t, f, pos + n, d[n..], bad, k + 1);
        var (u, m) := WriteLoop(t, f, pos + n, d[n..], bad, k + 1);
        if m < |d| - n { StopsLater(s, f, pos, d, bad, k, n, m); }
      } else {
        assert d[n..] == [];
        WriteUnfolds(t, f, pos + n, d[n..], bad, k + 1);
      }
    }
  }

  lemma StopsHere(s: FS, f: nat, pos: nat, d: seq<byte>, bad: nat -> set<nat>, k: nat)
    requires Shaped(s) && d != [] && WriteStep(s, f, pos, d, bad(k)).1 == 0
    ensures StopsAt(s, f, pos, d, bad, k, WriteStep(s, f, pos, d, bad(k)).0, 0)
  {
    hide Shaped, IbMapNew, WriteStep, WriteLoop;
    WriteTurn(s, f, pos, d, bad(k));
    WriteUnfolds(s, f, pos, d[..0], bad, k);
  }

  lemma StopsLater(s: FS, f: nat, pos: nat, d: seq<byte>, bad: nat -> set<nat>, k: nat, n: nat, m: nat)
    requires Shaped(s) && 0 < n < |d| && m < |d| - n
    requires var t := WriteStep(s, f, pos, d, bad(k)).0;
      && WriteStep(s, f, pos, d, bad(k)).1 == n && WriteLoop(t, f, pos + n, d[n..], bad, k + 1).1 == m
      && StopsAt(t, f, pos + n, d[n..], bad, k + 1, WriteLoop(t, f, pos + n, d[n..], bad, k + 1).0, m)
    ensures var t := WriteStep(s, f, pos, d, bad(k)).0;
      StopsAt(s, f, pos, d, bad, k, WriteLoop(t, f, pos + n, d[n..], bad, k + 1).0, n + m)
  {
    hide Shaped, IbMapNew, WriteStep, WriteLoop, TurnOf;
    WriteTurn(s, f, pos, d, bad(k));
    OneTurnOn(pos, n, m);
    var e := d[..n + m];
    assert e[..n] == d[..n] && e[n..] == d[n..][..m];
    ShorterTurn(s, f, pos, d, e, bad(k), n);
    WriteUnfolds(s, f, pos, e, bad, k);
  }

  lemma ShorterTurn(s: FS, f: nat, pos: nat, d: seq<byte>, e: seq<byte>, bad: set<nat>, n: nat)
    requires Shaped(s) && 0 < n <= |e| <= |d| && n == 1024 - pos % 1024 && e[..n] == d[..n]
    requires WriteStep(s, f, pos, d, bad).1 == n
    ensures WriteStep(s, f, pos, e, bad) == WriteStep(s, f, pos, d, bad)
  {
    hide IbMapNew;
  }

  // On a disk in order, in terms of file_write.
  lemma WriteStops(s: FS, f: nat, h: File, d: seq<byte>, bad: nat -> set<nat>)
    requires Safe(s) && f < |s.inodes|
    ensures Shaped(s) && FileWrite(s, f, h, d, bad).2 <= |d|
    ensures var (pos, n) := (WriteStart(s, f, h), FileWrite(s, f, h, d, bad).2);
      var (u, m) := WriteLoop(s, f, pos, d[..n], bad, 0);
      n < |d| ==>
        && m == n && (n == 0 || (pos + n) % 1024 == 0)
        && var b := IbMapNew(u, f, (pos + n) / 1024, bad(TurnOf(pos, n))).1;
           b == 0 || b in bad(TurnOf(pos, n))
  {
    hide Safe, Sound, WriteLoop, IbMapNew, Shaped, TurnOf, Follows;
    SafeShaped(s);
    var pos := WriteStart(s, f, h);
    LoopStops(s, f, pos, d, bad, 0);
    var n := WriteLoop(s, f, pos, d, bad, 0).1;
    WriteKeeps(s, f, pos, d[..n], bad, 0);
    var u := WriteLoop(s, f, pos, d[..n], bad, 0).0;
    FollowsSafe(s, u);
    MapForWrite(u, f, pos + n, bad(TurnOf(pos, n)));
  }

  lemma ReadTurn(s: FS, f: nat, pos: nat, count: nat, bad: set<nat>)
    requires Safe(s) && count > 0
    ensures var (a, b) := (ReadStep(s, f, pos, count, bad), IbMap(s, f, pos / 1024, bad));
      && (b == 0 || b in bad ==> a == [])
      && (b != 0 && b !in bad ==> |a| == if count < 1024 - pos % 1024 then count else 1024 - pos % 1024)
  {
    hide IbMap, Safe;
    MapInDisk(s, f, pos / 1024, bad);
  }

  lemma ReadUnfolds(s: FS, f: nat, pos: nat, count: nat, bad: nat -> set<nat>, k: nat)
    requires count > 0
    ensures var a := ReadStep(s, f, pos, count, bad(k));
      |ReadLoop(s, f, pos, count, bad, k)| ==
        if a == [] then 0 else |a| + |ReadLoop(s, f, pos + |a|, count - |a|, bad, k + 1)|
  {
    hide ReadStep;
  }

  // file_read stops short exactly where its next block is not there, or cannot be read, in that turn.
  lemma {:induction false} ReadStops(s: FS, f: nat, pos: nat, count: nat, bad: nat -> set<nat>, k: nat)
    requires Safe(s)
    ensures var n := |ReadLoop(s, f, pos, count, bad, k)|;
      n < count ==>
        && (n == 0 || (pos + n) % 1024 == 0)
        && var b := IbMap(s, f, (pos + n) / 1024, bad(k + TurnOf(pos, n)));
           b == 0 || b in bad(k + TurnOf(pos, n))
    decreases count
  {
    hide IbMap, Safe, TurnOf, ReadStep, ReadLoop;
    if count > 0 {
      ReadTurn(s, f, pos, count, bad(k));
      ReadUnfolds(s, f, pos, count, bad, k);
      var a := ReadStep(s, f, pos, count, bad(k));
      if a != [] && |a| < count {
        ReadStops(s, f, pos + |a|, count - |a|, bad, k + 1);
        OneTurnOn(pos, |a|, |ReadLoop(s, f, pos + |a|, count - |a|, bad, k + 1)|);
      }
    }
  }

  lemma MapInDisk(s: FS, f: nat, n: nat, bad: set<nat>)
    requires Safe(s)
    ensures IbMap(s, f, n, bad) < |s.disk|
  {
    SafeMeans(s);
    hide Val, Leaf;
    assert IbMap(s, f, n, bad) != 0 ==> IbMap(s, f, n, bad) == Val(s, Leaf(f, n));
  }
}
