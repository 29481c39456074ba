// Types shared by every part of the model.
module Base {

  datatype Option<+T> = None | Some(value: T)

  newtype byte = x: int | 0 <= x < 0x100

  const U32 := 0x1_0000_0000

  // ---- disk blocks ---------------------------------------------------------------------------

  const BLOCK_SIZE: nat := 1024

  type Block = b: seq<byte> | |b| == BLOCK_SIZE witness seq(BLOCK_SIZE, i => 0)

  function ZeroBlock(): (r: Block)
    ensures forall i :: 0 <= i < BLOCK_SIZE ==> r[i] == 0
  {
    seq(BLOCK_SIZE, i => 0)
  }

  function PutBytes(b: Block, at: nat, d: seq<byte>): (r: Block)
    requires at + |d| <= BLOCK_SIZE
    ensures forall k :: 0 <= k < BLOCK_SIZE ==> r[k] == if at <= k < at + |d| then d[k - at] else b[k]
  {
    b[..at] + d + b[at + |d|..]
  }

  function Min(a: nat, b: nat): nat { if a < b then a else b }

  // How many of `count` bytes at position pos go into the block of pos.
  function Chars(pos: nat, count: nat): nat { Min(BLOCK_SIZE - pos % BLOCK_SIZE, count) }

  // ---- sizes of sets -------------------------------------------------------------------------

  // The indices 0 .. n - 1, used to bound the size of a set of numbers.
  function Below(n: nat): (r: set<nat>)
    ensures forall i :: i in r <==> 0 <= i < n
  {
    if n == 0 then {} else Below(n - 1) + {n - 1}
  }

  lemma {:induction false} BelowSize(n: nat)
    ensures |Below(n)| == n
  {
    if n > 0 {
      BelowSize(n - 1);
    }
  }

  lemma {:induction false} SubsetSize<T>(a: set<T>, b: set<T>)
    requires a <= b
    ensures |a| <= |b|
  {
    if a != {} {
      var x :| x in a;
      SubsetSize(a - {x}, b - {x});
    }
  }

  lemma {:induction false} ImageSize<T>(s: set<T>, g: T -> nat, n: nat)
    requires forall x :: x in s ==> g(x) < n
    requires forall x, y :: x in s && y in s && g(x) == g(y) ==> x == y
    ensures |s| <= n
  {
    var image := set x | x in s :: g(x);
    SameSize(s, g, image);
    SubsetSize(image, Below(n));
    BelowSize(n);
  }

  lemma {:induction false} SameSize<T>(s: set<T>, g: T -> nat, image: set<nat>)
    requires image == set x | x in s :: g(x)
    requires forall x, y :: x in s && y in s && g(x) == g(y) ==> x == y
    ensures |s| == |image|
  {
    if s != {} {
      var x :| x in s;
      assert image - {g(x)} == set y | y in s - {x} :: g(y);
      SameSize(s - {x}, g, image - {g(x)});
    }
  }

  // ---- division ------------------------------------------------------------------------------

  lemma MulAtLeast(m: int, k: int)
    requires m > 0 && k >= 1
    ensures m * k >= m
  {
    assert m * k == m + m * (k - 1);
    assert m * (k - 1) >= 0;
  }

  // Quotient and remainder are determined by x == m * q + r.
  lemma DivUnique(x: int, m: int, q: int, r: int)
    requires m > 0 && x == m * q + r && 0 <= r < m
    ensures x / m == q && x % m == r
  {
    var p, s := x / m, x % m;
    assert x == m * p + s && 0 <= s < m;
    var k := q - p;
    assert m * k == m * q - m * p;
    if k >= 1 {
      MulAtLeast(m, k);
    } else if k <= -1 {
      MulAtLeast(m, -k);
    }
  }
}
