/** 32-bit sequence numbers: C's uint32_t arithmetic and the signed comparisons
    of `SEQ_LT` and friends, which read the 32-bit difference as an int. */
module Seq32 {
  const M: int := 0x1_0000_0000
  const HALF: int := 0x8000_0000

  /** A quarter of the sequence space: the bound set on ring sizes. */
  const LIMIT: int := 0x4000_0000

  type u32 = x: int | 0 <= x < 0x1_0000_0000

  /** Conversion of an unbounded position to a sequence number. */
  function Wrap(x: int): u32 { x % M }

  /** `a + n` on a uint32_t. */
  function Add(a: u32, n: int): u32 { Wrap(a + n) }

  /** `a - b` on uint32_t operands, before any conversion to a signed type. */
  function USub(a: u32, b: u32): u32 { Wrap(a - b) }

  /** `(int)(a - b)`. */
  function Diff(a: u32, b: u32): int {
    var d := USub(a, b);
    if d < HALF then d else d - M
  }

  predicate SeqLT(a: u32, b: u32) { Diff(a, b) < 0 }
  predicate SeqLEQ(a: u32, b: u32) { Diff(a, b) <= 0 }
  predicate SeqGT(a: u32, b: u32) { Diff(a, b) > 0 }

  /** The comparison macros order positions correctly whenever the positions
      lie less than half the space apart, wherever 2^32 falls between them. */
  lemma {:induction false} DiffOfWrap(x: int, y: int)
    requires -HALF <= x - y < HALF
    ensures Diff(Wrap(x), Wrap(y)) == x - y
    ensures SeqLT(Wrap(x), Wrap(y)) <==> x < y
    ensures SeqLEQ(Wrap(x), Wrap(y)) <==> x <= y
    ensures SeqGT(Wrap(x), Wrap(y)) <==> x > y
    ensures x >= y ==> USub(Wrap(x), Wrap(y)) == x - y
  {
    WrapSub(x, y);
  }

  lemma {:induction false} WrapSub(x: int, y: int)
    ensures USub(Wrap(x), Wrap(y)) == Wrap(x - y)
  {
    var a, b := x / M, y / M;
    assert x == a * M + Wrap(x) && y == b * M + Wrap(y);
    WrapShift(Wrap(x) - Wrap(y), a - b);
  }

  lemma {:induction false} WrapShift(x: int, k: int)
    ensures Wrap(x + k * M) == Wrap(x)
    decreases if k < 0 then -k else k
  {
    if k > 0 {
      WrapShift(x, k - 1);
      assert Wrap(x + k * M) == Wrap(x + (k - 1) * M + M);
    } else if k < 0 {
      WrapShift(x, k + 1);
      assert Wrap(x + k * M) == Wrap(x + (k + 1) * M - M);
    }
  }

  lemma {:induction false} AddOfWrap(x: int, n: int)
    ensures Add(Wrap(x), n) == Wrap(x + n)
  {
    WrapShift(Wrap(x) + n, x / M);
    assert x == (x / M) * M + Wrap(x);
  }

  /** Less than half the space apart, the farther ahead at most half. */
  predicate Near(x: int, y: int) { -HALF < x - y <= HALF }

  lemma {:induction false} NearOrder(x: int, y: int)
    requires Near(x, y)
    ensures SeqLT(Wrap(y), Wrap(x)) <==> y < x
    ensures Wrap(x) == Wrap(y) <==> x == y
  {
    WrapSub(y, x);
    WrapSub(x, y);
  }

  /** The exact condition: later positions are at most half the space ahead, and
      others not, up to multiples of 2^32. */
  lemma {:induction false} OrderExact(x: int, y: int)
    ensures (SeqLT(Wrap(y), Wrap(x)) <==> y < x) <==> (y < x <==> 0 < (x - y) % M <= HALF)
  {
    WrapSub(y, x);
  }

  /** Moving by the signed difference always lands on the other number. */
  lemma {:induction false} DiffAdd(a: u32, b: u32)
    ensures Add(b, Diff(a, b)) == a
    ensures -HALF <= Diff(a, b) < HALF
    ensures Diff(a, b) == 0 <==> a == b
  {
    var d := USub(a, b);
    assert d == a - b || d == a - b + M;
  }
}
