/** The receiving half of a connection: src/slirp/tcp_input.c, `tcp_reass` and
    the TCP_REASS macro, `sbappend` of src/slirp/sbuf.c, and the window that
    src/slirp/tcp_output.c advertises.

    The ring `so_rcv` is a byte sequence here; module Sbuf proves that the ring
    buffer behaves as one. The peer's stream and the position reached in it are
    ghost. */
module TcpRecv {
  import opened Basics
  import opened Pieces
  import opened Seq32
  import opened TcpQueue
  import opened TcpTrim

  /** Receive variables of the control block and of its socket. `toHost` is
      what the host socket has taken. */
  datatype Rcv = Rcv(nxt: u32, adv: u32, segq: seq<QSeg>, buf: seq<byte>, cap: nat, toHost: seq<byte>) {
    /** `sbspace(&so->so_rcv)`. */
    function Space(): int { cap - |buf| }

    /** Everything handed to the socket. */
    function Given(): seq<byte> { toHost + buf }
  }

  /** What the receiver has seen of the peer: its stream, whose byte 0 is
      numbered `base`; the number of bytes presented; whether the FIN has been;
      the queue in stream positions; the positions of all bytes accepted; the
      advertised edge; whether bytes were discarded because the socket can take
      no more. */
  datatype Seen = Seen(peer: seq<byte>, base: int, pos: nat, fin: bool, gq: seq<Piece>,
                       accepted: iset<int>, advPos: int, lost: bool)
  {
    /** The next expected position; the FIN takes one. */
    function Nxt(): int { pos + if fin then 1 else 0 }
  }

  /** How far past the advertised edge the peer may get: the edge then no longer
      moves, and 2^31 beyond it the window computation takes it to be ahead. */
  const OVERRUN: int := HALF - 1

  /** No byte at or beyond this position is accepted. */
  ghost function Edge(r: Rcv, g: Seen): int { Min(g.pos + r.Space(), g.advPos + OVERRUN) }

  /** The receiver's invariant: the bytes handed to the socket are exactly the
      stream's first `pos` (a prefix of them once some were discarded), the
      queue holds exactly the other accepted bytes, in order and inside the
      window, the FIN counts only after all data, and the advertised edge is
      covered by free space. */
  ghost predicate RcvInv(r: Rcv, g: Seen) {
    && Ring(r)
    && Numbers(r, g)
    && StandFor(r.segq, g.gq, g.base) && QueueOk(g.gq, g.pos, Edge(r, g), g.peer)
    && (g.fin ==> g.pos == |g.peer| && r.segq == [])
    && Presented(r, g)
    && Accepted(g.accepted, g.pos, g.gq)
  }

  ghost predicate Ring(r: Rcv) { |r.buf| <= r.cap < LIMIT }

  ghost predicate Numbers(r: Rcv, g: Seen) {
    && g.pos <= |g.peer| && g.pos <= g.advPos + OVERRUN
    && r.nxt == Wrap(g.base + g.Nxt())
    && r.adv == Wrap(g.base + g.advPos) && g.Nxt() - HALF <= g.advPos <= g.Nxt() + r.Space()
  }

  ghost predicate Presented(r: Rcv, g: Seen)
    requires g.pos <= |g.peer|
  {
    r.Given() <= g.peer[..g.pos] && (!g.lost ==> r.Given() == g.peer[..g.pos])
  }

  ghost predicate Accepted(acc: iset<int>, pos: int, gq: seq<Piece>) {
    forall x :: x in acc <==> 0 <= x < pos || Has(gq, x)
  }

  // ----- handing data to the socket -----

  /** `sbappend` without urgent data: write to the host what it takes when the
      ring is empty (`ret` is what the send returns), and ring the rest. The
      room that `sbappendsb` leaves to its callers is a precondition. */
  method SbAppend(r: Rcv, m: seq<byte>, ret: int) returns (r': Rcv)
    requires |m| <= r.Space()
    ensures r'.Given() == r.Given() + m
    ensures r' == r.(buf := r'.buf, toHost := r'.toHost)
    ensures |r'.buf| <= |r.buf| + |m|
    ensures r'.toHost == if r.buf == [] && ret > 0 then r.toHost + m[..Min(ret, |m|)] else r.toHost
  {
    r' := r;
    if m == [] {
      return;
    }
    if r.buf == [] && ret > 0 {
      var n := Min(ret, |m|);
      r' := r.(toHost := r.toHost + m[..n], buf := m[n..]);
      assert m[..n] + m[n..] == m;
    } else {
      r' := r.(buf := r.buf + m);
    }
  }

  lemma {:induction false} SameNumber(q: seq<QSeg>, gq: seq<Piece>, base: int, pos: int, edge: int)
    requires StandFor(q, gq, base) && Between(gq, pos, edge)
    ensures q != [] && q[0].sn == Wrap(base + pos) <==> Ready(gq, pos)
  {
  }

  lemma {:induction false} DrainStep(q: seq<Piece>, pos: int)
    ensures !Ready(q, pos) ==> Drain(q, pos) == Drained(q, [], false)
    ensures Ready(q, pos) ==> q != [] && q[0].off == pos
    ensures Ready(q, pos) ==>
              var d := Drain(q[1..], q[0].End());
              Drain(q, pos).rest == d.rest && Drain(q, pos).data == q[0].data + d.data &&
              Drain(q, pos).fin == if Ready(q[1..], q[0].End()) then d.fin else q[0].mark
  {
  }

  /** The queue and numbers that the delivery loop works on. */
  ghost predicate Lined(r: Rcv, gq: seq<Piece>, base: int, pos: int, edge: int) {
    && Ring(r) && r.nxt == Wrap(base + pos) && edge <= pos + r.Space()
    && StandFor(r.segq, gq, base) && Sorted(gq) && Between(gq, pos, edge)
  }

  /** What delivering `m` does to the socket side. */
  ghost predicate Delivered(r: Rcv, r': Rcv, m: seq<byte>, cantSend: bool) {
    && r'.adv == r.adv && r'.cap == r.cap && |r'.buf| <= |r.buf| + |m|
    && (cantSend ==> r'.buf == r.buf && r'.toHost == r.toHost)
    && (!cantSend ==> r'.Given() == r.Given() + m)
  }

  /** The body of the delivery loop. */
  method PresentOne(r: Rcv, cantSend: bool, ret: int, ghost gq: seq<Piece>, ghost base: int, ghost pos: int,
                    ghost edge: int)
    returns (r': Rcv, fin: bool)
    requires Lined(r, gq, base, pos, edge) && Ready(gq, pos)
    ensures Lined(r', gq[1..], base, gq[0].End(), edge) && fin == gq[0].mark && |r'.segq| < |r.segq|
    ensures Delivered(r, r', gq[0].data, cantSend)
  {
    var ti := r.segq[0];
    AddOfWrap(base + pos, |ti.data|);
    assert forall i :: 1 <= i < |gq| ==> gq[0].End() <= gq[i].off;
    fin := ti.fin;
    r' := r.(nxt := Add(r.nxt, |ti.data|), segq := r.segq[1..]);
    if !cantSend {
      r' := SbAppend(r', ti.data, ret);
    }
  }

  /** Lines 181-208 of `tcp_reass`: hand the socket what has become contiguous,
      advancing rcv_nxt. `io(k)` is the result of the k-th send. */
  method Present(r: Rcv, cantSend: bool, io: nat -> int, ghost gq: seq<Piece>, ghost base: int, ghost pos: int,
                 ghost edge: int)
    returns (r': Rcv, fin: bool)
    requires Lined(r, gq, base, pos, edge)
    ensures Lined(r', Drain(gq, pos).rest, base, pos + |Drain(gq, pos).data|, edge)
    ensures fin == Drain(gq, pos).fin
    ensures Delivered(r, r', Drain(gq, pos).data, cantSend)
  {
    hide Drain, Ready, Sorted, StandFor, Between, Wrap;
    r', fin := r, false;
    var k := 0;
    ghost var q, p, done := gq, pos, [];
    ghost var goal := Drain(gq, pos);
    DrainStep(gq, pos);
    while r'.segq != [] && r'.segq[0].sn == r'.nxt
      invariant Lined(r', q, base, p, edge) && p == pos + |done|
      invariant Drain(q, p).rest == goal.rest && done + Drain(q, p).data == goal.data
      invariant goal.fin == if Ready(q, p) then Drain(q, p).fin else fin
      invariant Delivered(r, r', done, cantSend)
      decreases |r'.segq|
    {
      SameNumber(r'.segq, q, base, p, edge);
      DrainStep(q, p);
      Assoc(done, q[0].data, Drain(q[1..], q[0].End()).data);
      Assoc(r.Given(), done, q[0].data);
      r', fin := PresentOne(r', cantSend, io(k), q, base, p, edge);
      k := k + 1;
      done, q, p := done + q[0].data, q[1..], q[0].End();
    }
    SameNumber(r'.segq, q, base, p, edge);
    DrainStep(q, p);
  }

  // ----- queueing and presenting -----

  lemma {:induction false} StandEmpty(q: seq<QSeg>, gq: seq<Piece>, base: int)
    requires StandFor(q, gq, base)
    ensures q == [] <==> gq == []
  {
  }

  lemma {:induction false} InsertReady(gq: seq<Piece>, pos: int, edge: int, g: Piece, peer: seq<byte>)
    requires QueueOk(gq, pos, edge, peer) && pos <= g.off && g.End() <= edge && edge - pos < HALF
    ensures Between(gq, pos, edge)
    ensures Sorted(Insert(gq, g)) && Between(Insert(gq, g), pos, edge)
  {
    InsertSorted(gq, g);
    InsertBetween(gq, g, pos, edge);
  }

  lemma {:induction false} PrefixAfter(a: seq<byte>, peer: seq<byte>, pos: nat, d: seq<byte>)
    requires pos + |d| <= |peer| && d == peer[pos..pos + |d|]
    ensures a == peer[..pos] ==> a + d == peer[..pos + |d|]
    ensures a <= peer[..pos] ==> a <= peer[..pos + |d|]
  {
  }

  lemma {:induction false} QueueWider(gq: seq<Piece>, pos: int, edge: int, edge': int, peer: seq<byte>)
    requires QueueOk(gq, pos, edge, peer) && edge <= edge'
    ensures QueueOk(gq, pos, edge', peer)
  {
  }

  /** Presented and queued bytes still make up what has been accepted. */
  lemma {:induction false} AcceptedAfter(acc: iset<int>, gq: seq<Piece>, pos: nat, p: Piece, d: Drained)
    requires Accepted(acc, pos, gq)
    requires forall x :: pos <= x < pos + |d.data| || Has(d.rest, x) <==> Has(gq, x) || p.Has(x)
    ensures Accepted(acc + Positions(p), pos + |d.data|, d.rest)
  {
  }

  ghost function Positions(p: Piece): iset<int> { iset x | p.Has(x) }

  /** A piece that may be queued now: a slice of the stream, not before the next
      expected byte, inside the window, its FIN (if any) at the stream's end. */
  ghost predicate Acceptable(r: Rcv, g: Seen, p: Piece) {
    && SliceOf(p, g.peer) && g.pos <= p.off && p.End() <= Edge(r, g)
    && (p.mark ==> p.End() == |g.peer|)
  }

  /** What the receiver has seen once `p` has been queued and everything
      contiguous presented. */
  ghost function SeeMore(g: Seen, p: Piece, cantSend: bool): Seen {
    var d := Drain(Insert(g.gq, p), g.pos);
    g.(pos := g.pos + |d.data|, gq := d.rest, accepted := g.accepted + Positions(p),
       lost := g.lost || (cantSend && d.data != []))
  }

  /** `tcp_reass`: queue an accepted segment and present what it completes. */
  method TcpReass(r: Rcv, ti: QSeg, cantSend: bool, io: nat -> int, ghost g: Seen, ghost p: Piece)
    returns (r': Rcv, fin: bool)
    requires RcvInv(r, g) && !g.fin && Stands(ti, p, g.base) && Acceptable(r, g, p)
    requires g.lost && !cantSend ==> p.data == []
    ensures RcvInv(r', SeeMore(g, p, cantSend))
    ensures fin == Drain(Insert(g.gq, p), g.pos).fin
    ensures fin ==> SeeMore(g, p, cantSend).pos == |g.peer| && r'.segq == []
    ensures Delivered(r, r', Drain(Insert(g.gq, p), g.pos).data, cantSend)
  {
    hide Drain, Insert, Has, Wrap, SliceOf, Sorted, StandFor, Stands, Between, QueueOk, Positions;
    ghost var edge := Edge(r, g);
    ghost var d := Drain(Insert(g.gq, p), g.pos);
    ReassFacts(g.gq, g.pos, edge, p, g.peer);
    InsertReady(g.gq, g.pos, edge, p, g.peer);
    PrefixAfter(r.Given(), g.peer, g.pos, d.data);
    AcceptedAfter(g.accepted, g.gq, g.pos, p, d);
    var q := Enqueue(r.segq, ti, g.gq, p, g.base, g.pos, edge);
    r', fin := Present(r.(segq := q), cantSend, io, Insert(g.gq, p), g.base, g.pos, edge);
    ghost var g' := SeeMore(g, p, cantSend);
    QueueWider(d.rest, g'.pos, edge, Edge(r', g'), g.peer);
    StandEmpty(r'.segq, d.rest, g.base);
  }

  /** Data in order with nothing queued goes straight to the socket. This leaves
      what queueing it and draining the queue would leave. */
  method AppendInOrder(r: Rcv, data: seq<byte>, ret: int, ghost g: Seen, ghost p: Piece) returns (r': Rcv)
    requires RcvInv(r, g) && !g.fin && (g.lost ==> data == []) && r.segq == []
    requires p.off == g.pos && p.data == data && Acceptable(r, g, p)
    ensures RcvInv(r', SeeMore(g, p, false))
    ensures Drain(Insert(g.gq, p), g.pos) == Drained([], data, p.mark)
    ensures p.mark ==> SeeMore(g, p, false).pos == |g.peer|
    ensures Delivered(r, r', data, false)
    ensures r'.nxt == Add(r.nxt, |data|) && r'.segq == []
  {
    hide Drain, Insert, Has, Wrap, Sorted, Between, Positions, Ready, QueueOk, Accepted, SliceOf;
    InlineAgrees(p);
    ReassFacts(g.gq, g.pos, Edge(r, g), p, g.peer);
    PrefixAfter(r.Given(), g.peer, g.pos, data);
    AcceptedAfter(g.accepted, g.gq, g.pos, p, Drained([], data, p.mark));
    AddOfWrap(g.base + g.pos, |data|);
    r' := SbAppend(r.(nxt := Add(r.nxt, |data|)), data, ret);
    ghost var g' := SeeMore(g, p, false);
    QueueWider([], g'.pos, Edge(r, g), Edge(r', g'), g.peer);
  }

  /** The TCP_REASS macro: the common case in line, the rest by `tcp_reass`.
      Both leave the same state, presented bytes and FIN bit. `inline` tells
      which was taken, for the choice between a delayed and an immediate ACK. */
  method Reass(r: Rcv, ti: QSeg, established: bool, cantSend: bool, io: nat -> int, ghost g: Seen, ghost p: Piece)
    returns (r': Rcv, fin: bool, inline: bool)
    requires RcvInv(r, g) && !g.fin && Stands(ti, p, g.base) && Acceptable(r, g, p)
    requires g.lost && !cantSend ==> p.data == []
    requires established ==> !cantSend
    ensures RcvInv(r', SeeMore(g, p, cantSend))
    ensures fin == Drain(Insert(g.gq, p), g.pos).fin
    ensures fin ==> SeeMore(g, p, cantSend).pos == |g.peer| && r'.segq == []
    ensures Delivered(r, r', Drain(Insert(g.gq, p), g.pos).data, cantSend)
    ensures inline <==> established && ti.sn == r.nxt && r.segq == []
    ensures inline ==> r'.nxt == Add(r.nxt, |ti.data|) && fin == ti.fin && r'.segq == []
  {
    hide Drain, Insert, Has, Wrap, Sorted, Between, Positions, Ready;
    if ti.sn == r.nxt && r.segq == [] && established {
      DiffOfWrap(g.base + p.off, g.base + g.pos);
      DiffAdd(ti.sn, r.nxt);
      inline, fin := true, ti.fin;
      r' := AppendInOrder(r, ti.data, io(0), g, p);
    } else {
      inline := false;
      r', fin := TcpReass(r, ti, cantSend, io, g, p);
    }
  }

  /** Line 1192: the FIN takes one sequence number, once, after all data. */
  method TakeFin(r: Rcv, ghost g: Seen) returns (r': Rcv)
    requires RcvInv(r, g) && !g.fin && g.pos == |g.peer| && r.segq == []
    ensures RcvInv(r', g.(fin := true)) && r' == r.(nxt := Add(r.nxt, 1))
  {
    AddOfWrap(g.base + g.pos, 1);
    r' := r.(nxt := Add(r.nxt, 1));
  }

  /** `sowrite`: the host takes the first `n` bytes of the ring. */
  method HostTakes(r: Rcv, n: nat, ghost g: Seen) returns (r': Rcv)
    requires RcvInv(r, g) && n <= |r.buf|
    ensures RcvInv(r', g) && r' == r.(toHost := r.toHost + r.buf[..n], buf := r.buf[n..])
    ensures r'.Given() == r.Given()
  {
    r' := r.(toHost := r.toHost + r.buf[..n], buf := r.buf[n..]);
    assert r.buf[..n] + r.buf[n..] == r.buf;
    QueueWider(g.gq, g.pos, Edge(r, g), Edge(r', g), g.peer);
  }

  // ----- the advertised window -----

  /** `win` as computed by lines 361-366 of `tcp_output`. The conversion of
      `rcv_adv - rcv_nxt` to long is from an unsigned type. */
  function AdvertisedWin(space: int, cap: int, maxseg: int, adv: u32, nxt: u32): int {
    var w := if space < cap / 4 && space < maxseg then 0 else space;
    var w' := if w > TCP_MAXWIN then TCP_MAXWIN else w;
    Max(w', USub(adv, nxt))
  }

  /** The right edge after a segment with that window has been sent. */
  function AdvanceAdv(win: int, adv: u32, nxt: u32): u32 {
    if win > 0 && SeqGT(Add(nxt, win), adv) then Add(nxt, win) else adv
  }

  /** Where the advertised edge `a` goes with a segment: over all free space after
      `n` that a window can show, if that is a segment or a quarter of the ring;
      and never back. */
  ghost function Opened(space: int, cap: int, maxseg: int, a: int, n: int): int {
    if space >= maxseg || space >= cap / 4 then Max(a, n + Min(space, TCP_MAXWIN)) else a
  }

  /** The advertised edge never moves left and never passes the free space.
      While the peer has not overrun it (`n <= a`), it is opened as far as that
      goes and the window sent is what it then says; once the peer has, the
      window sent is the wrapped difference, at least 2^31, and the edge stays
      where it was. */
  lemma {:induction false} AdvertiseFacts(space: int, cap: int, maxseg: int, base: int, a: int, n: int)
    requires 0 <= space <= cap < LIMIT && n - HALF <= a <= n + space
    ensures var adv, nxt := Wrap(base + a), Wrap(base + n);
            var win := AdvertisedWin(space, cap, maxseg, adv, nxt);
            var a' := if a < n then a else Opened(space, cap, maxseg, a, n);
            AdvanceAdv(win, adv, nxt) == Wrap(base + a') && a <= a' <= n + space &&
            (n <= a ==> 0 <= win == a' - n) && (a < n ==> win == a - n + M)
  {
    hide Wrap, Add, USub, Diff, SeqGT;
    var adv, nxt := Wrap(base + a), Wrap(base + n);
    var win := AdvertisedWin(space, cap, maxseg, adv, nxt);
    WrapNear(a - n);
    WrapSub(base + a, base + n);
    AddOfWrap(base + n, win);
    if a >= n {
      assert USub(adv, nxt) == a - n;
      DiffOfWrap(base + n + win, base + a);
    } else {
      assert USub(adv, nxt) == a - n + M;
      assert win == a - n + M;
      WrapShift(base + a, 1);
      DiffOfWrap(base + a, base + a);
    }
  }

  lemma {:induction false} WrapNear(x: int)
    requires -HALF <= x < HALF
    ensures Wrap(x) == if x >= 0 then x else x + M
  {
  }

  /** The window computed is the truth (at most the free space) exactly when the
      peer has not overrun the advertised edge. The field that is sent has its
      lower 16 bits, so past the edge it is still the truth when those of the
      wrapped difference happen to be small. */
  lemma {:induction false} WindowFieldHonest(space: int, cap: int, maxseg: int, base: int, a: int, n: int)
    requires 0 <= space <= cap < LIMIT && n - HALF <= a <= n + space
    ensures var win := AdvertisedWin(space, cap, maxseg, Wrap(base + a), Wrap(base + n));
            (win <= space <==> n <= a) && (win % 0x1_0000 <= space <==> n <= a || (a - n) % 0x1_0000 <= space)
  {
    hide AdvertisedWin, Wrap;
    AdvertiseFacts(space, cap, maxseg, base, a, n);
    LowBits(a - n);
  }

  lemma {:induction false} LowBits(x: int)
    ensures (x + M) % 0x1_0000 == x % 0x1_0000
  {
  }

  /** Lines 516-521 of `tcp_input`, the window a segment is trimmed to: it is the
      free space exactly until the peer is more than 2^31 past the edge (or so
      far that the edge seems to be inside the free space again). */
  lemma {:induction false} WindowIsSpace(space: int, base: int, a: int, n: int)
    requires 0 <= space < LIMIT && n - M < a <= n + space
    ensures Max(space, Diff(Wrap(base + a), Wrap(base + n))) == space <==> n - a <= HALF || a + M - n <= space
  {
    WrapSub(base + a, base + n);
  }

  /** Otherwise the window is larger than the ring has room for. */
  lemma {:induction false} WindowTooLarge(base: int, n: int)
    ensures Max(8192, Diff(Wrap(base + n - HALF - 1), Wrap(base + n))) == HALF - 1
  {
    WrapSub(base + n - HALF - 1, base + n);
  }

  /** The failing case is real: a FIN taken at a closed window leaves the edge
      one behind, and the 16-bit window field then reads 65535. */
  lemma {:induction false} FinAtClosedWindow(cap: nat, maxseg: nat, base: int, n: int)
    requires cap < LIMIT
    ensures AdvertisedWin(0, cap, maxseg, Wrap(base + n), Wrap(base + n + 1)) % 0x1_0000 == TCP_MAXWIN
  {
    WrapSub(base + n, base + n + 1);
    assert USub(Wrap(base + n), Wrap(base + n + 1)) == M - 1;
  }

  /** What a segment's window does to the remembered edge. */
  ghost function SeeAdvertised(r: Rcv, maxseg: nat, g: Seen): Seen {
    g.(advPos := if g.advPos < g.Nxt() then g.advPos else Opened(r.Space(), r.cap, maxseg, g.advPos, g.Nxt()))
  }

  /** A window field that shows the remembered edge. */
  ghost predicate ShowsEdge(win: u16, g: Seen) { win == (g.advPos - g.Nxt()) % 0x1_0000 }

  /** Lines 358-367 and 469-470 of `tcp_output`: the window field of a segment,
      and the edge to remember. The edge never moves left. */
  method Advertise(r: Rcv, maxseg: nat, ghost g: Seen) returns (r': Rcv, win: u16)
    requires RcvInv(r, g)
    ensures RcvInv(r', SeeAdvertised(r, maxseg, g)) && g.advPos <= SeeAdvertised(r, maxseg, g).advPos
    ensures r' == r.(adv := r'.adv) && ShowsEdge(win, SeeAdvertised(r, maxseg, g))
  {
    hide Wrap, Diff, USub, Add, Has, StandFor, QueueOk, AdvertisedWin, AdvanceAdv, Opened;
    var w := AdvertisedWin(r.Space(), r.cap, maxseg, r.adv, r.nxt);
    AdvertiseFacts(r.Space(), r.cap, maxseg, g.base, g.advPos, g.Nxt());
    LowBits(g.advPos - g.Nxt());
    r' := r.(adv := AdvanceAdv(w, r.adv, r.nxt));
    QueueWider(g.gq, g.pos, Edge(r, g), Edge(r', SeeAdvertised(r, maxseg, g)), g.peer);
    win := w % 0x1_0000;
  }
}
