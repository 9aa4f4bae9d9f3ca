/** The Internet checksum: src/slirp/cksum.c, against the plain 16-bit ones'
    complement sum of section 2 of RFC 1071. Words are little-endian, as on the
    hosts the program is built for; the checksum field is stored the same way. */
module Cksum {
  import opened Basics

  /** A non-negative C `int`: every assignment below is checked for overflow. */
  type cint = x: int | 0 <= x < 0x8000_0000

  // ----- the plain sum -----

  /** 16-bit ones' complement addition: end-around carry. */
  function OnesAdd(a: nat, b: nat): nat { if a + b > 65535 then a + b - 65535 else a + b }

  /** The `k`-th word; an odd last byte is padded with a zero. */
  function Word(d: seq<byte>, k: nat): nat
    requires 2 * k < |d|
  {
    d[2 * k] as int + if 2 * k + 1 < |d| then 256 * d[2 * k + 1] as int else 0
  }

  /** The ones' complement sum of the first `k` words. */
  function OnesSum(d: seq<byte>, k: nat): nat
    requires 2 * k <= |d| + 1
  {
    if k == 0 then 0 else OnesAdd(OnesSum(d, k - 1), Word(d, k - 1))
  }

  function Plain(d: seq<byte>): nat { OnesSum(d, (|d| + 1) / 2) }

  // ----- ones' complement values of unbounded sums -----

  /** The 16-bit ones' complement value of `x`: zero only for zero. */
  function Canon(x: nat): (r: nat)
    ensures r <= 65535 && (r == 0 <==> x == 0)
  {
    if x == 0 then 0 else (x - 1) % 65535 + 1
  }

  lemma {:induction false} CanonShift(x: nat, k: nat)
    requires x > 0
    ensures Canon(x + 65535 * k) == Canon(x)
  {
    if k > 0 {
      CanonShift(x, k - 1);
      assert x + 65535 * k - 1 == (x + 65535 * (k - 1) - 1) + 65535;
    }
  }

  lemma {:induction false} CanonAdd(x: nat, b: nat)
    requires b <= 65535
    ensures Canon(x + b) == OnesAdd(Canon(x), b)
  {
  }

  /** Only the ones' complement value of an operand matters. */
  lemma {:induction false} CanonScaled(x: nat, m: nat, e: nat)
    requires m > 0
    ensures Canon(m * Canon(x) + e) == Canon(m * x + e)
  {
    if x > 0 {
      var c, q := Canon(x), (x - 1) / 65535;
      assert x == c + 65535 * q;
      hide Canon;
      Times(m, c, q);
      CanonShift(m * c + e, m * q);
    }
  }

  lemma {:induction false} Times(m: nat, c: nat, q: nat)
    requires m > 0 && c > 0
    ensures m * (c + 65535 * q) == m * c + 65535 * (m * q) && m * c > 0 && m * q >= 0
  {
    assert m * (c + 65535 * q) == m * c + m * (65535 * q);
    assert m * (65535 * q) == 65535 * (m * q);
  }

  // ----- the code -----

  /** REDUCE: add the halves of the 32-bit value, then ADDCARRY. */
  function Reduce(sum: cint): (r: cint)
    ensures r == Canon(sum)
  {
    var t := sum % 65536 + sum / 65536;
    CanonShift(if t > 0 then t else 1, sum / 65536);
    if t > 65535 then t - 65535 else t
  }

  /** The uint16_t at byte offset `p`. */
  function Load(d: seq<byte>, p: nat): nat
    requires p + 2 <= |d|
  {
    d[p] as int + 256 * d[p + 1] as int
  }

  /** `k` words from byte `a` on, without carries. */
  function Span(d: seq<byte>, a: nat, k: nat): (s: nat)
    requires a + 2 * k <= |d|
    ensures s <= 65535 * k
  {
    if k == 0 then 0 else Span(d, a, k - 1) + Load(d, a + 2 * (k - 1))
  }

  /** Four unrolled additions. */
  method AddFour(sum: cint, d: seq<byte>, w: nat, ghost a: nat, ghost k: nat) returns (sum': cint)
    requires |d| < 65536 && w == a + 2 * k && w + 8 <= |d| && sum == Span(d, a, k)
    ensures sum' == Span(d, a, k + 4)
  {
    sum' := sum + Load(d, w);
    assert sum' == Span(d, a, k + 1);
    sum' := sum' + Load(d, w + 2);
    assert sum' == Span(d, a, k + 2);
    sum' := sum' + Load(d, w + 4);
    assert sum' == Span(d, a, k + 3);
    sum' := sum' + Load(d, w + 6);
  }

  /** Lines 90-102: the unrolled loops. */
  method Unrolled(d: seq<byte>, a: nat, len: nat) returns (sum: cint, w: nat, left: nat, ghost k: nat)
    requires |d| < 65536 && a + len <= |d|
    ensures w == a + 2 * k && w + left == a + len && left < 8 && sum == Span(d, a, k)
  {
    sum, w, k := 0, a, 0;
    var mlen: int := len - 32;
    while mlen >= 0
      invariant mlen >= -32 && w == a + 2 * k && w + mlen + 32 == a + len && sum == Span(d, a, k)
      decreases mlen
    {
      sum := AddFour(sum, d, w, a, k);
      sum := AddFour(sum, d, w + 8, a, k + 4);
      sum := AddFour(sum, d, w + 16, a, k + 8);
      sum := AddFour(sum, d, w + 24, a, k + 12);
      w, k := w + 32, k + 16;
      mlen := mlen - 32;
    }
    mlen := mlen + 32 - 8;
    while mlen >= 0
      invariant mlen >= -8 && w == a + 2 * k && w + mlen + 8 == a + len && sum == Span(d, a, k)
      decreases mlen
    {
      sum := AddFour(sum, d, w, a, k);
      w, k := w + 8, k + 4;
      mlen := mlen - 8;
    }
    left := mlen + 8;
  }

  /** Lines 105-108: the last words, one at a time. */
  method LastWords(d: seq<byte>, sum: cint, a: nat, w: nat, left: nat, ghost k: nat)
    returns (sum': cint, w': nat, left': nat, ghost k': nat)
    requires |d| < 65536 && w == a + 2 * k && w + left <= |d| && left < 8 && sum == Canon(Span(d, a, k))
    ensures w' == a + 2 * k' && w' + left' == w + left && left' < 2
    ensures sum' < 65536 * 4 && Canon(sum') == Canon(Span(d, a, k'))
  {
    hide Canon;
    sum', w', left', k' := sum, w, left, k;
    CanonScaled(Span(d, a, k), 1, 0);
    while left' >= 2
      invariant w' == a + 2 * k' && w' + left' == w + left && left' <= left
      invariant sum' <= 65535 + 65535 * ((left - left') / 2) && Canon(sum') == Canon(Span(d, a, k'))
    {
      CanonAdd(sum', Load(d, w'));
      CanonAdd(Span(d, a, k'), Load(d, w'));
      sum' := sum' + Load(d, w');
      w', left', k' := w' + 2, left' - 2, k' + 1;
    }
  }

  /** Lines 78-85 and 110-121, data at an odd address: keep the first byte, sum
      from the second on, shift by one byte and add the first byte back, with
      the last one if it is left over. */
  method FromOdd(d: seq<byte>) returns (sum: cint)
    requires 0 < |d| < 65536
    ensures Canon(sum) == Canon(Whole(d))
  {
    hide Canon, Span, Whole;
    var w, left;
    ghost var k;
    sum, w, left, k := Unrolled(d, 1, |d| - 1);
    sum, w, left, k := LastWords(d, Reduce(sum), 1, w, left, k);
    sum := Reduce(sum);
    var e := if left == 1 then Load([d[0], d[w]], 0) else d[0];
    Rotated(d, k);
    CanonScaled(Span(d, 1, k), 256, e);
    sum := sum * 256 + e;
  }

  /** The same from an even address. */
  method FromEven(d: seq<byte>) returns (sum: cint)
    requires |d| < 65536
    ensures Canon(sum) == Canon(Whole(d))
  {
    hide Canon, Span;
    var w, left;
    ghost var k;
    sum, w, left, k := Unrolled(d, 0, |d|);
    if left != 0 {
      sum, w, left, k := LastWords(d, Reduce(sum), 0, w, left, k);
    }
    if left == 1 {
      CanonAdd(sum, d[w]);
      CanonAdd(Span(d, 0, k), d[w]);
      sum := sum + d[w];
    }
  }

  /** `cksum` of an mbuf holding `m`, which begins at an odd address or not. It
      is the complement of the plain sum, wherever the data begins. */
  method Checksum(m: seq<byte>, odd: bool, len: nat) returns (r: u16)
    requires |m| < 65536
    ensures r == 65535 - Plain(m[..Min(len, |m|)])
  {
    hide Canon, Whole, Plain;
    var d := m[..Min(len, |m|)];
    PlainIsCanon(d);
    var sum;
    if odd && d != [] {
      sum := FromOdd(d);
    } else {
      sum := FromEven(d);
    }
    sum := Reduce(sum);
    r := 65535 - sum;
  }

  // ----- why it is the same -----

  /** All of `d` without carries. */
  function Whole(d: seq<byte>): nat { Span(d, 0, |d| / 2) + if |d| % 2 == 1 then d[|d| - 1] else 0 }

  lemma {:induction false} OnesSumIsCanon(d: seq<byte>, k: nat)
    requires 2 * k <= |d|
    ensures OnesSum(d, k) == Canon(Span(d, 0, k))
  {
    if k > 0 {
      OnesSumIsCanon(d, k - 1);
      CanonAdd(Span(d, 0, k - 1), Word(d, k - 1));
    }
  }

  lemma {:induction false} PlainIsCanon(d: seq<byte>)
    ensures Plain(d) == Canon(Whole(d)) <= 65535
  {
    OnesSumIsCanon(d, |d| / 2);
    if |d| % 2 == 1 {
      CanonAdd(Span(d, 0, |d| / 2), d[|d| - 1]);
    }
  }

  /** The bytes at even offsets 2, 4, ..., 2k. */
  function Evens(d: seq<byte>, k: nat): nat
    requires 2 * k < |d|
  {
    if k == 0 then 0 else Evens(d, k - 1) + d[2 * k]
  }

  /** Summing from the second byte on and then shifting by one byte gives, up to
      a multiple of 65535, the sum from the first byte on. */
  lemma {:induction false} RotatedSpan(d: seq<byte>, k: nat)
    requires 2 * k < |d|
    ensures 256 * Span(d, 1, k) + d[0] == Span(d, 0, k) + d[2 * k] + 65535 * Evens(d, k)
  {
    if k > 0 {
      RotatedSpan(d, k - 1);
    }
  }

  lemma {:induction false} Rotated(d: seq<byte>, k: nat)
    requires 2 * k < |d| <= 2 * k + 2
    ensures var e := if |d| == 2 * k + 2 then Load([d[0], d[|d| - 1]], 0) else d[0];
            Canon(256 * Span(d, 1, k) + e) == Canon(Whole(d))
  {
    var e := if |d| == 2 * k + 2 then Load([d[0], d[|d| - 1]], 0) else d[0];
    RotatedSpan(d, k);
    EvensIn(d, k);
    assert Span(d, 0, k) + d[2 * k] <= Whole(d) && 256 * Span(d, 1, k) + e == Whole(d) + 65535 * Evens(d, k);
    hide Canon, Whole, Span;
    if Whole(d) > 0 {
      CanonShift(Whole(d), Evens(d, k));
    }
  }

  lemma {:induction false} EvensIn(d: seq<byte>, k: nat)
    requires 2 * k < |d|
    ensures Evens(d, k) <= Span(d, 0, k) + d[2 * k]
  {
    if k > 0 {
      EvensIn(d, k - 1);
    }
  }

  // ----- storing and verifying -----

  /** `d` with the 16-bit value `v` at offset `p`. */
  function Stored(d: seq<byte>, p: nat, v: u16): (d': seq<byte>)
    requires p + 2 <= |d|
    ensures |d'| == |d|
  {
    d[p := v % 256][p + 1 := v / 256]
  }

  lemma {:induction false} SpanStored(d: seq<byte>, p: nat, v: u16, k: nat)
    requires 2 * p + 2 <= |d| && 2 * k <= |d| && Load(d, 2 * p) == 0
    ensures Span(Stored(d, 2 * p, v), 0, k) == Span(d, 0, k) + if p < k then v else 0
  {
    if k > 0 {
      SpanStored(d, p, v, k - 1);
    }
  }

  /** Storing the checksum in a zeroed field at an even offset makes the data
      sum up to a checksum of zero. */
  lemma {:induction false} StoredVerifies(d: seq<byte>, p: nat)
    requires 2 * p + 2 <= |d| && Load(d, 2 * p) == 0
    ensures Plain(d) <= 65535 && Plain(Stored(d, 2 * p, 65535 - Plain(d))) == 65535
  {
    hide Canon, Plain, Span;
    PlainIsCanon(d);
    var v := 65535 - Plain(d);
    var d' := Stored(d, 2 * p, v);
    PlainIsCanon(d');
    SpanStored(d, p, v, |d| / 2);
    assert Whole(d') == Whole(d) + v;
    CanonAdd(Whole(d), v);
  }

  /** Header preparation and verification (ip_output.c, lines 81-82; ip_input.c,
      line 100): whatever the two buffers' alignment. */
  method StoreThenVerify(d: seq<byte>, p: nat, odd: bool, odd': bool) returns (d': seq<byte>, again: u16)
    requires |d| < 65536 && 2 * p + 2 <= |d| && Load(d, 2 * p) == 0
    ensures |d'| == |d| && (forall i :: 0 <= i < |d| && i != 2 * p && i != 2 * p + 1 ==> d'[i] == d[i])
    ensures again == 0
  {
    StoredVerifies(d, p);
    var r := Checksum(d, odd, |d|);
    assert d[..|d|] == d;
    d' := Stored(d, 2 * p, r);
    again := Checksum(d', odd', |d'|);
    assert d'[..|d'|] == d';
  }
}
