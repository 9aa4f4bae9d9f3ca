/** The queue that `tcp_reass` and `ip_reass` both keep: received pieces of one
    byte stream, sorted by position, trimmed so that no two overlap.
    Positions here are unbounded; the TCP side maps its 32-bit sequence
    numbers onto them. */
module Pieces {
  import opened Basics

  /** A run of bytes at `off`. `mark` is the flag that travels with the piece's
      right end: FIN for a TCP segment, "more fragments" for an IP fragment. */
  datatype Piece = Piece(off: int, data: seq<byte>, mark: bool) {
    function End(): int { off + |data| }

    predicate Has(x: int) { off <= x < End() }

    /** `m_adj(m, i)` with the matching change of offset and length. */
    function Drop(i: nat): Piece
      requires i <= |data|
    {
      Piece(off + i, data[i..], mark)
    }
  }

  predicate Sorted(q: seq<Piece>) {
    forall i, j :: 0 <= i < j < |q| ==> q[i].End() <= q[j].off
  }

  ghost predicate Has(q: seq<Piece>, x: int) {
    exists i :: 0 <= i < |q| && q[i].Has(x)
  }

  /** `p` is a slice of the stream `s`. */
  predicate SliceOf(p: Piece, s: seq<byte>) {
    0 <= p.off && p.End() <= |s| && p.data == s[p.off..p.End()]
  }

  predicate SlicesOf(q: seq<Piece>, s: seq<byte>) {
    forall i :: 0 <= i < |q| ==> SliceOf(q[i], s)
  }

  /** Every right end and mark in `q` satisfies `f`. */
  ghost predicate Ends(q: seq<Piece>, f: (int, bool) -> bool) {
    forall i :: 0 <= i < |q| ==> f(q[i].End(), q[i].mark)
  }

  /** Index of the first piece that begins after `off`. */
  function After(q: seq<Piece>, off: int): (k: nat)
    ensures k <= |q|
    ensures forall i :: 0 <= i < k ==> q[i].off <= off
    ensures k < |q| ==> off < q[k].off
  {
    if q == [] || q[0].off > off then 0 else
      var k := 1 + After(q[1..], off);
      assert forall i :: 1 <= i < k ==> q[i] == q[1..][i - 1];
      k
  }

  /** Cut everything before `end` off the front of `q`. */
  function Trim(q: seq<Piece>, end: int): seq<Piece> {
    if q == [] || end <= q[0].off then q
    else if end - q[0].off < |q[0].data| then [q[0].Drop(end - q[0].off)] + q[1..]
    else Trim(q[1..], end)
  }

  /** What is left of an arriving piece `p` once the piece before it has been
      consulted; None when that piece already supplies all of it. */
  function AfterPred(q: seq<Piece>, k: nat, p: Piece): Option<Piece>
    requires k <= |q|
  {
    if k == 0 then Some(p) else
      var i := q[k - 1].End() - p.off;
      if i <= 0 then Some(p)
      else if i >= |p.data| then None
      else Some(p.Drop(i))
  }

  function Insert(q: seq<Piece>, p: Piece): seq<Piece> {
    var k := After(q, p.off);
    match AfterPred(q, k, p)
    case None => q
    case Some(r) => q[..k] + [r] + Trim(q[k..], r.End())
  }

  // ----- what one insertion keeps -----

  lemma {:induction false} TrimFacts(q: seq<Piece>, end: int)
    requires Sorted(q)
    ensures Sorted(Trim(q, end)) && |Trim(q, end)| <= |q|
    ensures forall i :: 0 <= i < |Trim(q, end)| ==> end <= Trim(q, end)[i].off
  {
    if q == [] || end <= q[0].off {
      assert forall i :: 0 <= i < |q| ==> q[0].off <= q[i].off;
    } else if end - q[0].off < |q[0].data| {
      var t := Trim(q, end);
      assert forall i :: 1 <= i < |q| ==> t[i] == q[i] && q[0].End() <= q[i].off;
    } else {
      TrimFacts(q[1..], end);
    }
  }

  lemma {:induction false} TrimCovers(q: seq<Piece>, end: int, x: int)
    requires Sorted(q)
    ensures Has(Trim(q, end), x) <==> Has(q, x) && end <= x
  {
    hide Has;
    if q == [] {
      assert !Has(q, x) by { HasSplit(q, 0, x); HasNone(x); }
    } else {
      HasSplit(q, 1, x);
      assert q[..1] == [q[0]];
      HasOne(q[0], x);
      HasAfter(q, x);
      if end <= q[0].off {
      } else if end - q[0].off < |q[0].data| {
        var d := q[0].Drop(end - q[0].off);
        HasConcat([d], q[1..], x);
        HasOne(d, x);
      } else {
        TrimCovers(q[1..], end, x);
      }
    }
  }

  lemma {:induction false} HasNone(x: int)
    ensures !Has([], x)
  {
  }

  /** Everything after the first piece lies beyond its end. */
  lemma {:induction false} HasAfter(q: seq<Piece>, x: int)
    requires Sorted(q) && q != []
    ensures Has(q[1..], x) ==> q[0].End() <= x
  {
  }

  lemma {:induction false} HasSplit(q: seq<Piece>, k: nat, x: int)
    requires k <= |q|
    ensures Has(q, x) <==> Has(q[..k], x) || Has(q[k..], x)
  {
  }

  lemma {:induction false} HasConcat(a: seq<Piece>, b: seq<Piece>, x: int)
    ensures Has(a + b, x) <==> Has(a, x) || Has(b, x)
  {
    HasSplit(a + b, |a|, x);
    assert (a + b)[..|a|] == a && (a + b)[|a|..] == b;
  }

  lemma {:induction false} HasOne(p: Piece, x: int)
    ensures Has([p], x) <==> p.Has(x)
  {
    assert [p][0].Has(x) <==> p.Has(x);
  }

  /** Order and disjointness survive, and the queue covers exactly the old
      positions and those of the new piece. */
  lemma {:induction false} InsertFacts(q: seq<Piece>, p: Piece)
    requires Sorted(q)
    ensures Sorted(Insert(q, p))
    ensures forall x :: Has(Insert(q, p), x) <==> Has(q, x) || p.Has(x)
  {
    InsertSorted(q, p);
    forall x
      ensures Has(Insert(q, p), x) <==> Has(q, x) || p.Has(x)
    {
      InsertCovers(q, p, x);
    }
  }

  lemma {:induction false} InsertSorted(q: seq<Piece>, p: Piece)
    requires Sorted(q)
    ensures Sorted(Insert(q, p))
  {
    var k := After(q, p.off);
    var a := AfterPred(q, k, p);
    if a.Some? {
      var t := Trim(q[k..], a.value.End());
      TrimFacts(q[k..], a.value.End());
      assert forall i :: 0 <= i < k ==> q[i].End() <= a.value.off;
      SortedJoin(q, k, a.value, t);
    }
  }

  lemma {:induction false} SortedJoin(q: seq<Piece>, k: nat, r: Piece, t: seq<Piece>)
    requires Sorted(q) && Sorted(t) && k <= |q|
    requires forall i :: 0 <= i < k ==> q[i].End() <= r.off
    requires forall i :: 0 <= i < |t| ==> r.End() <= t[i].off
    ensures Sorted(q[..k] + [r] + t)
  {
  }

  lemma {:induction false} InsertCovers(q: seq<Piece>, p: Piece, x: int)
    requires Sorted(q)
    ensures Has(Insert(q, p), x) <==> Has(q, x) || p.Has(x)
  {
    var k := After(q, p.off);
    var a := AfterPred(q, k, p);
    if a.None? {
      if p.Has(x) { assert q[k - 1].Has(x); }
    } else {
      var t := Trim(q[k..], a.value.End());
      TrimCovers(q[k..], a.value.End(), x);
      HasConcat(q[..k] + [a.value], t, x);
      HasConcat(q[..k], [a.value], x);
      HasOne(a.value, x);
      HasSplit(q, k, x);
      InsertGap(q, p, a.value, x);
    }
  }

  /** The bytes cut off the front of `p` are in the piece before it, and
      nothing after position `k` begins before `r`. */
  lemma {:induction false} InsertGap(q: seq<Piece>, p: Piece, r: Piece, x: int)
    requires Sorted(q)
    requires AfterPred(q, After(q, p.off), p) == Some(r)
    ensures p.Has(x) ==> r.Has(x) || Has(q[..After(q, p.off)], x)
    ensures r.Has(x) ==> p.Has(x)
    ensures Has(q[After(q, p.off)..], x) && x < r.End() ==> r.Has(x)
  {
    hide After, Sorted;
    var k := After(q, p.off);
    if p.Has(x) && !r.Has(x) {
      assert q[..k][k - 1].Has(x);
    }
    if Has(q[k..], x) {
      var i :| 0 <= i < |q[k..]| && q[k..][i].Has(x);
      BeginsLater(q, p, r, k + i);
    }
  }

  lemma {:induction false} BeginsLater(q: seq<Piece>, p: Piece, r: Piece, i: nat)
    requires Sorted(q) && AfterPred(q, After(q, p.off), p) == Some(r) && After(q, p.off) <= i < |q|
    ensures r.off <= q[i].off
  {
    hide After;
    var k := After(q, p.off);
    assert k < i ==> q[k].off <= q[k].End() <= q[i].off;
    assert k > 0 ==> q[k - 1].End() <= q[i].off;
  }

  /** Pieces of one stream stay pieces of that stream. */
  lemma {:induction false} InsertSlices(q: seq<Piece>, p: Piece, s: seq<byte>)
    requires SlicesOf(q, s) && SliceOf(p, s)
    ensures SlicesOf(Insert(q, p), s)
  {
    var k := After(q, p.off);
    match AfterPred(q, k, p) {
      case None =>
      case Some(r) =>
        assert r.data == s[r.off..r.End()];
        TrimSlices(q[k..], r.End(), s);
    }
  }

  lemma {:induction false} TrimSlices(q: seq<Piece>, end: int, s: seq<byte>)
    requires SlicesOf(q, s)
    ensures SlicesOf(Trim(q, end), s)
  {
    if q == [] || end <= q[0].off {
    } else if end - q[0].off < |q[0].data| {
      assert SliceOf(q[0], s);
      var d := q[0].Drop(end - q[0].off);
      assert d.data == s[d.off..d.End()];
    } else {
      TrimSlices(q[1..], end, s);
    }
  }

  /** Every right end in the result is the right end, with its mark, of a piece
      received: what holds of those holds of the result's. */
  lemma {:induction false} InsertEnds(q: seq<Piece>, p: Piece, f: (int, bool) -> bool)
    requires Ends(q, f) && f(p.End(), p.mark)
    ensures Ends(Insert(q, p), f)
  {
    var k := After(q, p.off);
    match AfterPred(q, k, p) {
      case None =>
      case Some(r) => TrimEnds(q[k..], r.End(), f);
    }
  }

  lemma {:induction false} TrimEnds(q: seq<Piece>, end: int, f: (int, bool) -> bool)
    requires Ends(q, f)
    ensures Ends(Trim(q, end), f)
  {
    if q == [] || end <= q[0].off {
    } else if end - q[0].off < |q[0].data| {
      assert f(q[0].End(), q[0].mark);
    } else {
      TrimEnds(q[1..], end, f);
    }
  }

  /** Insertion creates nothing outside the bounds of what is there. */
  lemma {:induction false} InsertBetween(q: seq<Piece>, p: Piece, lo: int, hi: int)
    requires forall i :: 0 <= i < |q| ==> lo <= q[i].off && q[i].End() <= hi
    requires lo <= p.off && p.End() <= hi
    ensures forall i :: 0 <= i < |Insert(q, p)| ==> lo <= Insert(q, p)[i].off && Insert(q, p)[i].End() <= hi
  {
    var k := After(q, p.off);
    var a := AfterPred(q, k, p);
    if a.Some? {
      TrimBetween(q[k..], a.value.End(), lo, hi);
    }
  }

  lemma {:induction false} TrimBetween(q: seq<Piece>, end: int, lo: int, hi: int)
    requires forall i :: 0 <= i < |q| ==> lo <= q[i].off && q[i].End() <= hi
    ensures forall i :: 0 <= i < |Trim(q, end)| ==> lo <= Trim(q, end)[i].off && Trim(q, end)[i].End() <= hi
  {
    if q != [] && end > q[0].off && end - q[0].off >= |q[0].data| {
      TrimBetween(q[1..], end, lo, hi);
    }
  }
}
