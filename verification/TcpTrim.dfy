/** Trimming an arriving segment to the receive window: src/slirp/tcp_input.c,
    lines 719-805, and what it leaves in terms of the peer's byte stream. */
module TcpTrim {
  import opened Basics
  import opened Pieces
  import opened Seq32
  import opened TcpQueue

  /** A segment as it reaches an established connection, options stripped.
      SYN and URG are not set. */
  datatype Segment = Segment(sn: u32, ack: u32, hasAck: bool, fin: bool, rst: bool, win: u16, data: seq<byte>)

  /** `ti_seq`, the mbuf, the FIN bit of the local `tiflags`, and whether
      TF_ACKNOW was set on the way. The header's own FIN bit never changes. */
  datatype Cut = Cut(sn: u32, data: seq<byte>, fin: bool, ackNow: bool)

  /** Lines 719-758: drop what lies before `nxt`. */
  function TrimLeft(nxt: u32, s: Segment): Cut {
    var todrop := Diff(nxt, s.sn);
    if todrop <= 0 then Cut(s.sn, s.data, s.fin, false)
    else if todrop > |s.data| || (todrop == |s.data| && !s.fin) then
      Cut(Add(s.sn, |s.data|), [], false, true)
    else Cut(Add(s.sn, todrop), s.data[todrop..], s.fin, false)
  }

  /** Lines 773-805: drop what lies beyond the window; None is `dropafterack`. */
  function TrimRight(nxt: u32, wnd: nat, c: Cut): Option<Cut> {
    var todrop := Diff(Add(c.sn, |c.data|), Add(nxt, wnd));
    if todrop <= 0 then Some(c)
    else if todrop >= |c.data| then
      if wnd == 0 && c.sn == nxt then Some(Cut(c.sn, [], false, true)) else None
    else Some(Cut(c.sn, c.data[..|c.data| - todrop], false, c.ackNow))
  }

  /** The data is cut at the window's right edge while the header says FIN: the
      local flags lose the FIN, but the header's copy, which both forms of
      TCP_REASS read, keeps it. */
  predicate CutsFin(nxt: u32, wnd: nat, s: Segment) {
    var c := TrimRight(nxt, wnd, TrimLeft(nxt, s));
    s.fin && c.Some? && c.value.data != [] && !c.value.fin
  }

  // ----- meaning -----

  /** Sequence numbers and data of `s` are consistent with the stream `peer`,
      whose byte 0 is numbered `base`: `s` begins at position `p`. A segment
      with neither data nor FIN may carry any number. */
  predicate Conforms(s: Segment, p: int, base: int, peer: seq<byte>) {
    && s.sn == Wrap(base + p)
    && (s.data != [] || s.fin ==> SliceOf(Piece(p, s.data, s.fin), peer))
    && (s.fin ==> p + |s.data| == |peer|)
  }

  /** `s`, at `p`, lies less than 2^31 from the next expected position `n`. */
  predicate InReach(s: Segment, p: int, n: int) {
    -HALF < p - n && p - n + |s.data| < HALF
  }

  lemma {:induction false} LeftMeans(s: Segment, p: int, base: int, n: int)
    requires s.sn == Wrap(base + p) && InReach(s, p, n)
    ensures var c := TrimLeft(Wrap(base + n), s); var e := p + |s.data|;
            if p >= n then c == Cut(s.sn, s.data, s.fin, false)
            else if e > n || (e == n && s.fin) then c == Cut(Wrap(base + n), s.data[n - p..], s.fin, false)
            else c == Cut(Wrap(base + e), [], false, true)
  {
    DiffOfWrap(base + n, base + p);
    AddOfWrap(base + p, |s.data|);
    AddOfWrap(base + p, n - p);
  }

  lemma {:induction false} RightMeans(c: Cut, p: int, base: int, n: int, wnd: nat)
    requires c.sn == Wrap(base + p) && wnd < HALF / 2
    requires -HALF < p - n && p - n + |c.data| < HALF
    requires p >= n || (c.data == [] && !c.fin)
    ensures var r := TrimRight(Wrap(base + n), wnd, c); var e := p + |c.data|;
            if p < n then r.None? || r == Some(c)
            else if e <= n + wnd then r == Some(c)
            else if p >= n + wnd then r == if wnd == 0 && p == n then Some(Cut(c.sn, [], false, true)) else None
            else r == Some(Cut(c.sn, c.data[..n + wnd - p], false, c.ackNow))
  {
    hide Wrap, Add, Diff, USub;
    var e := p + |c.data|;
    AddOfWrap(base + p, |c.data|);
    AddOfWrap(base + n, wnd);
    DiffOfWrap(base + p, base + n);
    DiffAdd(c.sn, Wrap(base + n));
    if p >= n {
      DiffOfWrap(base + e, base + n + wnd);
    }
  }

  /** What trimming keeps of a segment's data, and when it keeps the FIN. */
  lemma {:induction false} TrimShape(s: Segment, p: int, base: int, n: int, wnd: nat)
    requires s.sn == Wrap(base + p) && InReach(s, p, n) && wnd < HALF / 2
    ensures var r := TrimRight(Wrap(base + n), wnd, TrimLeft(Wrap(base + n), s)); var e := p + |s.data|;
            r.Some? && (r.value.data != [] || r.value.fin) ==>
              r.value.sn == Wrap(base + Max(p, n)) && Max(p, n) <= Min(e, n + wnd) &&
              r.value.data == s.data[Max(p, n) - p..Min(e, n + wnd) - p] &&
              (r.value.fin <==> s.fin && e <= n + wnd) && (s.data != [] || s.fin)
  {
    hide Wrap, TrimLeft, TrimRight;
    var c := TrimLeft(Wrap(base + n), s);
    LeftMeans(s, p, base, n);
    var q := if c.data == [] && !c.fin then p + |s.data| else Max(p, n);
    RightMeans(c, q, base, n, wnd);
  }

  lemma {:induction false} SubSlice(data: seq<byte>, p: int, a: int, b: int, peer: seq<byte>)
    requires 0 <= p && p + |data| <= |peer| && data == peer[p..p + |data|] && p <= a <= b <= p + |data|
    ensures data[a - p..b - p] == peer[a..b]
  {
    forall k | 0 <= k < b - a ensures data[a - p..b - p][k] == peer[a..b][k] {
      assert data[a - p + k] == peer[p + (a - p + k)];
    }
  }

  /** The window's right edge cuts the data of a segment that carries a FIN. */
  predicate FinCut(s: Segment, p: int, n: int, wnd: nat) { s.fin && Max(p, n) < n + wnd < p + |s.data| }

  /** That is exactly when the two copies of the FIN disagree. */
  lemma {:induction false} CutsFinExact(s: Segment, p: int, base: int, n: int, wnd: nat)
    requires s.sn == Wrap(base + p) && InReach(s, p, n) && wnd < HALF / 2
    ensures CutsFin(Wrap(base + n), wnd, s) <==> FinCut(s, p, n, wnd)
  {
    hide Wrap, TrimLeft, TrimRight;
    var c := TrimLeft(Wrap(base + n), s);
    LeftMeans(s, p, base, n);
    RightMeans(c, if c.data == [] && !c.fin then p + |s.data| else Max(p, n), base, n, wnd);
  }

  /** What trimming leaves of a conforming segment: nothing, or the part of the
      stream the segment shares with the window [n, n + wnd). The FIN that will
      be queued with it is at the end of the stream unless the window cuts it. */
  lemma {:induction false} TrimMeans(s: Segment, p: int, base: int, n: int, wnd: nat, peer: seq<byte>)
    requires Conforms(s, p, base, peer) && InReach(s, p, n) && wnd < HALF / 2
    ensures var r := TrimRight(Wrap(base + n), wnd, TrimLeft(Wrap(base + n), s));
            r.Some? && (r.value.data != [] || r.value.fin) ==>
              var g := Piece(Max(p, n), r.value.data, s.fin);
              Stands(QSeg(r.value.sn, r.value.data, s.fin), g, base) &&
              SliceOf(g, peer) && n <= g.off && g.End() == Min(p + |s.data|, n + wnd) &&
              ((s.fin ==> g.End() == |peer|) <==> !FinCut(s, p, n, wnd)) &&
              (r.value.fin ==> s.fin && g.End() == |peer|)
  {
    hide Wrap, TrimLeft, TrimRight, SliceOf, FinCut, InReach, Max, Min;
    TrimShape(s, p, base, n, wnd);
    var r := TrimRight(Wrap(base + n), wnd, TrimLeft(Wrap(base + n), s));
    if r.Some? && (r.value.data != [] || r.value.fin) {
      SharedPart(s, p, n, wnd, r.value.data, peer);
    }
  }

  /** The part of a segment's data inside the window, in terms of the stream. */
  lemma {:induction false} SharedPart(s: Segment, p: int, n: int, wnd: nat, data: seq<byte>, peer: seq<byte>)
    requires SliceOf(Piece(p, s.data, s.fin), peer) && (s.fin ==> p + |s.data| == |peer|)
    requires Max(p, n) <= Min(p + |s.data|, n + wnd)
    requires data == s.data[Max(p, n) - p..Min(p + |s.data|, n + wnd) - p] && (data != [] || p + |s.data| <= n + wnd)
    ensures var g := Piece(Max(p, n), data, s.fin);
            SliceOf(g, peer) && n <= g.off && g.End() == Min(p + |s.data|, n + wnd) &&
            (s.fin && p + |s.data| <= n + wnd ==> g.End() == |peer|) &&
            ((s.fin ==> g.End() == |peer|) <==> !FinCut(s, p, n, wnd))
  {
    SubSlice(s.data, p, Max(p, n), Min(p + |s.data|, n + wnd), peer);
  }

  /** The positions a segment contributes: exactly those it shares with the
      window. */
  lemma {:induction false} TrimKeeps(s: Segment, p: int, base: int, n: int, wnd: nat, peer: seq<byte>)
    requires Conforms(s, p, base, peer) && InReach(s, p, n) && wnd < HALF / 2
    requires Max(p, n) < Min(p + |s.data|, n + wnd)
    ensures var r := TrimRight(Wrap(base + n), wnd, TrimLeft(Wrap(base + n), s));
            r.Some? && |r.value.data| == Min(p + |s.data|, n + wnd) - Max(p, n)
  {
    LeftMeans(s, p, base, n);
    RightMeans(TrimLeft(Wrap(base + n), s), Max(p, n), base, n, wnd);
  }

  /** A peer that stays inside the window never loses its FIN this way. */
  lemma {:induction false} WindowRespected(s: Segment, p: int, base: int, n: int, wnd: nat, peer: seq<byte>)
    requires Conforms(s, p, base, peer) && InReach(s, p, n) && wnd < HALF / 2
    requires p + |s.data| <= n + wnd
    ensures !CutsFin(Wrap(base + n), wnd, s)
  {
    CutsFinExact(s, p, base, n, wnd);
  }

  /** The failing case is real: three bytes and a FIN into a window of two.
      Two bytes are kept, the local FIN flag is cleared, and the segment that
      TCP_REASS presents still reports a FIN, one byte short of the end. */
  lemma {:induction false} CutFinWitness()
    ensures var peer: seq<byte> := [1, 2, 3];
            var s := Segment(0, 0, true, true, false, 100, peer);
            Conforms(s, 0, 0, peer) && InReach(s, 0, 0) && CutsFin(0, 2, s) &&
            var c := TrimRight(0, 2, TrimLeft(0, s)).value;
            !c.fin && Drain(Insert([], Piece(0, c.data, s.fin)), 0) == Drained([], [1, 2], true)
  {
    var peer: seq<byte> := [1, 2, 3];
    var s := Segment(0, 0, true, true, false, 100, peer);
    assert SliceOf(Piece(0, s.data, s.fin), peer);
    var c := TrimLeft(0, s);
    assert c == Cut(0, peer, true, false);
    assert peer[..2] == [1, 2];
    assert TrimRight(0, 2, c) == Some(Cut(0, [1, 2], false, false));
    InlineAgrees(Piece(0, [1, 2], true));
  }
}
