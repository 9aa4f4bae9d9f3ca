/** The out-of-order segment queue of `tcp_reass` (src/slirp/tcp_input.c) on
    32-bit sequence numbers, tied to positions in the peer's byte stream, and
    what its delivery loop takes off the front. */
module TcpQueue {
  import opened Basics
  import opened Pieces
  import opened Seq32

  /** A queued segment: `ti_seq`, its mbuf's bytes and the FIN bit of the
      header's own `ti_flags`. */
  datatype QSeg = QSeg(sn: u32, data: seq<byte>, fin: bool) {
    /** `ti_seq + ti_len`. */
    function Next(): u32 { Add(sn, |data|) }

    /** `m_adj(m, i); ti_len -= i; ti_seq += i`. */
    function Drop(i: nat): QSeg
      requires i <= |data|
    {
      QSeg(Add(sn, i), data[i..], fin)
    }
  }

  // ----- 32-bit segments stand for pieces of the stream -----

  /** `g` is the piece that `s` carries, when the stream's byte 0 has sequence
      number `base` (mod 2^32). */
  predicate Stands(s: QSeg, g: Piece, base: int) {
    s.sn == Wrap(base + g.off) && s.data == g.data && s.fin == g.mark
  }

  predicate StandFor(q: seq<QSeg>, gq: seq<Piece>, base: int) {
    |q| == |gq| && forall i :: 0 <= i < |q| ==> Stands(q[i], gq[i], base)
  }

  /** All of `gq` lies between `lo` and `hi`, less than half the sequence
      space apart. */
  predicate Between(gq: seq<Piece>, lo: int, hi: int) {
    hi - lo < HALF && forall i :: 0 <= i < |gq| ==> lo <= gq[i].off && gq[i].End() <= hi
  }

  lemma {:induction false} StandsNext(s: QSeg, g: Piece, base: int)
    requires Stands(s, g, base)
    ensures s.Next() == Wrap(base + g.End())
    ensures forall i :: 0 <= i <= |g.data| ==> Stands(s.Drop(i), g.Drop(i), base)
  {
    AddOfWrap(base + g.off, |g.data|);
    forall i | 0 <= i <= |g.data| ensures Stands(s.Drop(i), g.Drop(i), base) {
      AddOfWrap(base + g.off, i);
    }
  }

  /** The comparison and the two differences that `tcp_reass` takes. */
  lemma {:induction false} Compare(a: QSeg, ga: Piece, b: QSeg, gb: Piece, base: int)
    requires Stands(a, ga, base) && Stands(b, gb, base)
    requires -HALF <= ga.off - gb.off < HALF
    requires -HALF <= ga.End() - gb.off < HALF
    ensures SeqGT(a.sn, b.sn) <==> ga.off > gb.off
    ensures Diff(a.Next(), b.sn) == ga.End() - gb.off
  {
    StandsNext(a, ga, base);
    DiffOfWrap(base + ga.off, base + gb.off);
    DiffOfWrap(base + ga.End(), base + gb.off);
  }

  /** Lines 119-179 of `tcp_reass`: the same queue surgery as `ip_reass`, done
      with wrapping comparisons. */
  method Enqueue(q: seq<QSeg>, ti0: QSeg, ghost gq: seq<Piece>, ghost g: Piece, ghost base: int, ghost lo: int,
                 ghost hi: int)
    returns (r: seq<QSeg>)
    requires StandFor(q, gq, base) && Stands(ti0, g, base)
    requires Between(gq, lo, hi) && lo <= g.off && g.End() <= hi
    ensures StandFor(r, Insert(gq, g), base)
  {
    hide Wrap, Diff, Trim, After;
    var k := Find(q, ti0, gq, g, base, lo, hi);
    var ti := ti0;
    ghost var gi := g;
    if k > 0 {
      Compare(q[k - 1], gq[k - 1], ti, g, base);
      var i := Diff(q[k - 1].Next(), ti.sn);
      if i > 0 {
        if i >= |ti.data| {
          return q;
        }
        StandsNext(ti, g, base);
        ti, gi := ti.Drop(i), g.Drop(i);
      }
    }
    assert AfterPred(gq, k, g) == Some(gi);
    var rest := TrimAfter(q[k..], ti, gq[k..], gi, base, lo, hi);
    r := q[..k] + [ti] + rest;
    StandJoin(q, gq, k, ti, gi, rest, Trim(gq[k..], gi.End()), base);
  }

  lemma {:induction false} StandJoin(q: seq<QSeg>, gq: seq<Piece>, k: nat, ti: QSeg, gi: Piece,
                                     t: seq<QSeg>, gt: seq<Piece>, base: int)
    requires StandFor(q, gq, base) && k <= |q| && Stands(ti, gi, base) && StandFor(t, gt, base)
    ensures StandFor(q[..k] + [ti] + t, gq[..k] + [gi] + gt, base)
  {
  }

  method Find(q: seq<QSeg>, ti: QSeg, ghost gq: seq<Piece>, ghost g: Piece, ghost base: int, ghost lo: int,
              ghost hi: int)
    returns (k: nat)
    requires StandFor(q, gq, base) && Stands(ti, g, base)
    requires Between(gq, lo, hi) && lo <= g.off && g.End() <= hi
    ensures k == After(gq, g.off) && k <= |q|
  {
    k := 0;
    while k < |q|
      invariant k <= |q|
      invariant forall i :: 0 <= i < k ==> gq[i].off <= g.off
    {
      Compare(q[k], gq[k], ti, g, base);
      if SeqGT(q[k].sn, ti.sn) {
        break;
      }
      k := k + 1;
    }
  }

  method TrimAfter(q: seq<QSeg>, ti: QSeg, ghost gq: seq<Piece>, ghost g: Piece, ghost base: int, ghost lo: int,
                   ghost hi: int)
    returns (rest: seq<QSeg>)
    requires StandFor(q, gq, base) && Stands(ti, g, base)
    requires Between(gq, lo, hi) && lo <= g.off && g.End() <= hi
    ensures StandFor(rest, Trim(gq, g.End()), base)
  {
    rest := q;
    ghost var gr := gq;
    while rest != []
      invariant StandFor(rest, gr, base) && Between(gr, lo, hi)
      invariant Trim(gr, g.End()) == Trim(gq, g.End())
      decreases |rest|
    {
      Compare(ti, g, rest[0], gr[0], base);
      var i := Diff(ti.Next(), rest[0].sn);
      if i <= 0 {
        break;
      }
      if i < |rest[0].data| {
        StandsNext(rest[0], gr[0], base);
        rest, gr := [rest[0].Drop(i)] + rest[1..], [gr[0].Drop(i)] + gr[1..];
        break;
      }
      rest, gr := rest[1..], gr[1..];
    }
  }

  // ----- presenting in-order data -----

  /** What the delivery loop of lines 193-207 takes off the front of a queue
      when `nxt` is expected: the remaining queue, the bytes and the FIN bit of
      the last segment taken. */
  datatype Drained = Drained(rest: seq<Piece>, data: seq<byte>, fin: bool)

  function Drain(q: seq<Piece>, nxt: int): Drained {
    if !Ready(q, nxt) then Drained(q, [], false)
    else
      var d := Drain(q[1..], q[0].End());
      Drained(d.rest, q[0].data + d.data, if Ready(q[1..], q[0].End()) then d.fin else q[0].mark)
  }

  /** The loop condition: a first segment exists and is the one expected. */
  predicate Ready(q: seq<Piece>, nxt: int) { q != [] && q[0].off == nxt }

  /** Draining delivers exactly the stream from `nxt` on, ... */
  lemma {:induction false} DrainData(q: seq<Piece>, nxt: int, s: seq<byte>)
    requires SlicesOf(q, s) && 0 <= nxt <= |s|
    ensures var end := nxt + |Drain(q, nxt).data|; end <= |s| && Drain(q, nxt).data == s[nxt..end]
  {
    if Ready(q, nxt) {
      assert SliceOf(q[0], s);
      var m := q[0].End();
      DrainData(q[1..], m, s);
      var e := Drain(q[1..], m);
      assert s[nxt..m] + s[m..m + |e.data|] == s[nxt..m + |e.data|];
    }
  }

  lemma {:induction false} DrainSuffix(q: seq<Piece>, nxt: int)
    ensures var r := Drain(q, nxt).rest; |r| <= |q| && r == q[|q| - |r|..]
  {
    if Ready(q, nxt) {
      DrainSuffix(q[1..], q[0].End());
      var r := Drain(q, nxt).rest;
      assert q[1..][|q[1..]| - |r|..] == q[|q| - |r|..];
    }
  }

  /** ... up to the first byte that is missing: what is left lies beyond it. */
  lemma {:induction false} DrainBeyond(q: seq<Piece>, nxt: int)
    requires Sorted(q) && forall i :: 0 <= i < |q| ==> nxt <= q[i].off
    ensures var d := Drain(q, nxt); forall i :: 0 <= i < |d.rest| ==> nxt + |d.data| < d.rest[i].off
  {
    if Ready(q, nxt) {
      forall i | 0 <= i < |q[1..]| ensures q[0].End() <= q[1..][i].off {
        assert q[1..][i] == q[i + 1];
      }
      DrainBeyond(q[1..], q[0].End());
      assert nxt + |Drain(q, nxt).data| == q[0].End() + |Drain(q[1..], q[0].End()).data|;
    } else {
      forall i | 0 <= i < |q| ensures nxt < q[i].off {
        if i > 0 {
          assert q[0].off <= q[0].End() <= q[i].off;
        }
      }
    }
  }

  lemma {:induction false} DrainEnd(q: seq<Piece>, nxt: int, hi: int)
    requires nxt <= hi && forall i :: 0 <= i < |q| ==> q[i].End() <= hi
    ensures nxt + |Drain(q, nxt).data| <= hi
  {
    if Ready(q, nxt) {
      DrainEnd(q[1..], q[0].End(), hi);
    }
  }

  /** The bytes delivered and those still queued are those that were queued. */
  lemma {:induction false} DrainCovers(q: seq<Piece>, nxt: int, x: int)
    ensures Has(q, x) <==> nxt <= x < nxt + |Drain(q, nxt).data| || Has(Drain(q, nxt).rest, x)
  {
    if Ready(q, nxt) {
      DrainCovers(q[1..], q[0].End(), x);
      HasSplit(q, 1, x);
      assert q[..1] == [q[0]];
      HasOne(q[0], x);
    }
  }

  /** A FIN reported by the loop is that of a segment ending where it stopped. */
  lemma {:induction false} DrainFin(q: seq<Piece>, nxt: int, n: int)
    requires FinsAtEnd(q, n) && Drain(q, nxt).fin
    ensures nxt + |Drain(q, nxt).data| == n
  {
    if Ready(q[1..], q[0].End()) {
      DrainFin(q[1..], q[0].End(), n);
    } else {
      assert Drain(q, nxt).data == q[0].data;
    }
  }

  /** The inline case of the `TCP_REASS` macro (next segment in order, queue
      empty) gives what the general routine gives. */
  lemma {:induction false} InlineAgrees(g: Piece)
    ensures Drain(Insert([], g), g.off) == Drained([], g.data, g.mark)
  {
  }

  // ----- FIN marks -----

  /** Every FIN in the queue sits at the end of an `n`-byte stream. */
  predicate FinsAtEnd(q: seq<Piece>, n: int) {
    forall i :: 0 <= i < |q| ==> q[i].mark ==> q[i].End() == n
  }

  /** Inserting keeps the FINs right exactly when the new segment's own FIN is
      at the end of the stream or the segment is dropped as already supplied. */
  lemma {:induction false} InsertFins(q: seq<Piece>, p: Piece, n: int)
    requires FinsAtEnd(q, n)
    ensures FinsAtEnd(Insert(q, p), n) <==>
            (p.mark ==> p.End() == n) || AfterPred(q, After(q, p.off), p).None?
  {
    var k := After(q, p.off);
    var a := AfterPred(q, k, p);
    if a.Some? {
      var f := (e: int, m: bool) => m ==> e == n;
      TrimEnds(q[k..], a.value.End(), f);
      var t := Trim(q[k..], a.value.End());
      assert forall i :: 0 <= i < |t| ==> f(t[i].End(), t[i].mark);
      assert Insert(q, p)[k] == a.value;
    }
  }

  // ----- one arrival -----

  /** What the receiver keeps about its queue: pieces of the stream in order,
      all beyond the next expected position `pos` and inside the window that
      ends at `edge`, with any FIN at the end of the stream. */
  predicate QueueOk(gq: seq<Piece>, pos: int, edge: int, peer: seq<byte>) {
    && Sorted(gq) && SlicesOf(gq, peer) && FinsAtEnd(gq, |peer|)
    && forall i :: 0 <= i < |gq| ==> pos < gq[i].off && gq[i].End() <= edge
  }

  /** Inserting a piece that lies in the window and presenting what has become
      contiguous: the bytes presented are exactly the stream's next ones up to
      the first missing byte, the queue invariant holds again, bytes presented
      and queued are those there were and the new ones, and a FIN comes out
      only at the end of the stream, with the queue empty. */
  lemma {:induction false} ReassFacts(gq: seq<Piece>, pos: int, edge: int, g: Piece, peer: seq<byte>)
    requires QueueOk(gq, pos, edge, peer) && 0 <= pos <= |peer| && pos <= edge
    requires SliceOf(g, peer) && pos <= g.off && g.End() <= edge
    requires g.mark ==> g.End() == |peer|
    ensures var d := Drain(Insert(gq, g), pos); var end := pos + |d.data|;
            QueueOk(d.rest, end, edge, peer) && end <= edge && end <= |peer| && d.data == peer[pos..end] &&
            (d.fin ==> end == |peer| && d.rest == []) &&
            (g.data == [] ==> d.data == [])
    ensures var d := Drain(Insert(gq, g), pos);
            forall x :: pos <= x < pos + |d.data| || Has(d.rest, x) <==> Has(gq, x) || g.Has(x)
  {
    hide Has, Insert, Drain;
    var q := Insert(gq, g);
    InsertFacts(gq, g);
    InsertSlices(gq, g, peer);
    InsertFins(gq, g, |peer|);
    InsertBetween(gq, g, pos, edge);
    var d := Drain(q, pos);
    DrainData(q, pos, peer);
    DrainSuffix(q, pos);
    DrainBeyond(q, pos);
    DrainEnd(q, pos, edge);
    if d.fin {
      DrainFin(q, pos, |peer|);
      NothingBeyond(d.rest, |peer|);
    }
    if g.data == [] {
      EmptyPresentsNothing(gq, pos, g);
    }
    forall x ensures pos <= x < pos + |d.data| || Has(d.rest, x) <==> Has(gq, x) || g.Has(x) {
      DrainCovers(q, pos, x);
    }
  }

  lemma {:induction false} NothingBeyond(q: seq<Piece>, n: int)
    requires forall i :: 0 <= i < |q| ==> n < q[i].off
    requires forall i :: 0 <= i < |q| ==> q[i].End() <= n
    ensures q == []
  {
    assert q != [] ==> q[0].off <= q[0].End();
  }

  lemma {:induction false} EmptyPresentsNothing(gq: seq<Piece>, pos: int, g: Piece)
    requires g.data == [] && forall i :: 0 <= i < |gq| ==> pos < gq[i].off
    ensures Drain(Insert(gq, g), pos).data == []
  {
  }
}
