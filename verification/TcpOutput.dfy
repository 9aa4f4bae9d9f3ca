/** `tcp_output` (src/slirp/tcp_output.c): the loop that turns what the ring
    holds and what the receiver owes into segments. */
module TcpOutput {
  import opened Basics
  import opened Pieces
  import opened Seq32
  import opened TcpQueue
  import opened TcpRecv
  import opened TcpSend

  /** A segment handed to `ip_output`. */
  datatype OutSeg = OutSeg(sn: u32, ack: u32, fin: bool, win: u16, data: seq<byte>)

  /** The data of `o` is the host's data at the position its number stands for. */
  ghost predicate RightBytes(o: OutSeg, host: seq<byte>, base: int) {
    o.data != [] ==> exists at :: CarriesAt(o, at, host, base)
  }

  ghost predicate CarriesAt(o: OutSeg, at: int, host: seq<byte>, base: int) {
    o.sn == Wrap(base + at) && SliceOf(Piece(at, o.data, false), host)
  }

  /** Every data segment of `w` carries the host's bytes for its number. */
  ghost predicate WireOk(w: seq<OutSeg>, host: seq<byte>, base: int) {
    forall i :: 0 <= i < |w| ==> RightBytes(w[i], host, base)
  }

  /** More bytes from the host change nothing about those already sent. */
  lemma {:induction false} WireGrows(w: seq<OutSeg>, host: seq<byte>, m: seq<byte>, base: int)
    requires WireOk(w, host, base)
    ensures WireOk(w, host + m, base)
  {
    forall i | 0 <= i < |w| ensures RightBytes(w[i], host + m, base) {
      if w[i].data != [] {
        var at :| CarriesAt(w[i], at, host, base);
        assert (host + m)[at..at + |w[i].data|] == host[at..at + |w[i].data|];
        assert CarriesAt(w[i], at, host + m, base);
      }
    }
  }

  /** Lines 186-199: the window has opened enough to tell the peer. */
  predicate WindowUpdate(r: Rcv, maxseg: nat) {
    r.Space() > 0 &&
    var adv := Min(r.Space(), TCP_MAXWIN) - USub(r.adv, r.nxt);
    adv >= 2 * maxseg || 2 * adv >= r.cap
  }

  /** In terms of the peer's stream: the peer may send to the remembered edge, and
      the free space that a window can show goes two segments or half the ring
      beyond it. */
  lemma {:induction false} WindowUpdateMeans(r: Rcv, maxseg: nat, g: Seen)
    requires RcvInv(r, g)
    ensures var more := g.Nxt() + Min(r.Space(), TCP_MAXWIN) - g.advPos;
            WindowUpdate(r, maxseg) <==>
            r.Space() > 0 && g.Nxt() <= g.advPos && (more >= 2 * maxseg || 2 * more >= r.cap)
  {
    hide USub, StandFor, QueueOk, Accepted, Presented;
    WrapSub(g.base + g.advPos, g.base + g.Nxt());
  }

  /** What segments tell the peer about the receive window: each shows the edge, as
      far as it can be opened; without one the edge stays. */
  ghost predicate Told(r: Rcv, maxseg: nat, g: Seen, g': Seen, out: seq<OutSeg>) {
    if out == [] then g' == g
    else g' == SeeAdvertised(r, maxseg, g) && forall i :: 0 <= i < |out| ==> ShowsEdge(out[i].win, g')
  }

  lemma {:induction false} ToldMore(r: Rcv, r': Rcv, maxseg: nat, g: Seen, g1: Seen, g2: Seen, out: seq<OutSeg>,
                                    more: seq<OutSeg>)
    requires Told(r, maxseg, g, g1, out) && Told(r', maxseg, g1, g2, more) && r' == r.(adv := r'.adv)
    ensures Told(r, maxseg, g, g2, out + more)
  {
  }

  lemma {:induction false} ToldNone(r: Rcv, maxseg: nat, g: Seen)
    ensures Told(r, maxseg, g, g, [])
  {
  }

  /** The edge shown to a peer that has not passed it is less than two segments and
      less than half the ring short of the free space a window can show, unless
      that space is less than a segment and a quarter of the ring. */
  ghost predicate Reopened(r: Rcv, maxseg: nat, g: Seen) {
    g.Nxt() <= g.advPos && r.Space() > 0 && (r.Space() >= maxseg || r.Space() >= r.cap / 4) ==>
      var short := g.Nxt() + Min(r.Space(), TCP_MAXWIN) - g.advPos; short < 2 * maxseg && 2 * short < r.cap
  }

  /** An output with memory reopens the window. */
  lemma {:induction false} Reopens(force: bool, mem: nat, r: Rcv, s: Snd, cwnd: u32, g: Seen, r': Rcv, g': Seen,
                                   out: seq<OutSeg>)
    requires RcvInv(r, g) && mem > 0 && Starts(force, mem, r, s, cwnd, [], out) && Told(r, s.maxseg, g, g', out)
    requires r' == r.(adv := r'.adv) && s.maxseg > 0
    ensures Reopened(r', s.maxseg, g')
  {
    hide RcvInv, WindowUpdate, Worth, SendsNext, Probes;
    RingBound(r, g);
    WindowUpdateMeans(r, s.maxseg, g);
  }

  lemma {:induction false} RingBound(r: Rcv, g: Seen)
    requires RcvInv(r, g)
    ensures 0 <= r.Space() <= r.cap
  {
  }

  /** `o` tells the peer where the receiver stands: it acknowledges all it has, and
      shows the edge, which is as far open as it can be. */
  ghost predicate Current(o: OutSeg, r: Rcv, maxseg: nat, g: Seen) {
    o.ack == r.nxt && ShowsEdge(o.win, g) && g == SeeAdvertised(r, maxseg, g)
  }

  /** The last segment of an output does; without one the edge stays. */
  ghost predicate LastShows(w: seq<OutSeg>, w': seq<OutSeg>, r: Rcv, maxseg: nat, g: Seen, g': Seen) {
    if |w'| <= |w| then g'.advPos == g.advPos else Current(w'[|w'| - 1], r, maxseg, g')
  }

  lemma {:induction false} ToldLast(r: Rcv, r': Rcv, maxseg: nat, g: Seen, g': Seen, w: seq<OutSeg>, out: seq<OutSeg>)
    requires Told(r, maxseg, g, g', out) && r' == r.(adv := r'.adv)
    requires forall i :: 0 <= i < |out| ==> out[i].ack == r.nxt
    ensures LastShows(w, w + out, r', maxseg, g, g')
  {
  }

  /** A segment is right: it acknowledges rcv_nxt, its data belongs to its
      number, its FIN stands right after the host's last byte. */
  ghost predicate SegOk(o: OutSeg, nxt: u32, h: Given) {
    && o.ack == nxt && RightBytes(o, h.host, h.base)
    && (o.fin ==> Add(o.sn, |o.data|) == Wrap(h.base + |h.host|))
  }

  /** `o` carries the next bytes the window allows, from snd_nxt on. */
  ghost predicate SendsNext(o: OutSeg, s: Snd) {
    0 <= s.Off() && s.Off() + Sendable(s) <= |s.buf| && 0 < Sendable(s) &&
    o.sn == s.nxt && o.data == s.buf[s.Off()..s.Off() + Sendable(s)]
  }

  /** `o` carries the byte at snd_nxt and no more. */
  ghost predicate Probes(o: OutSeg, s: Snd) {
    s.buf != [] && o.sn == s.nxt && o.data == s.buf[..1]
  }

  /** The first segment of a call (`mem`: there is an mbuf for it): there is one if
      a window update is due, it carries the next bytes if they are worth
      sending, and it is a probe if forced into a closed window. */
  ghost predicate First(force: bool, mem: bool, r: Rcv, s: Snd, out: seq<OutSeg>) {
    && (mem && WindowUpdate(r, s.maxseg) ==> out != [])
    && (!force && mem && Worth(s) ==> out != [] && SendsNext(out[0], s))
    && (force && mem && s.Off() == 0 == s.Win() && s.buf != [] ==> out != [] && Probes(out[0], s))
  }

  lemma {:induction false} FirstMore(force: bool, mem: bool, r: Rcv, s: Snd, out: seq<OutSeg>, more: seq<OutSeg>)
    ensures out == [] ==> out + more == more
    ensures out != [] && First(force, mem, r, s, out) ==> First(force, mem, r, s, out + more)
  {
    hide WindowUpdate, Worth, SendsNext, Probes;
  }

  /** What goes out first, after `w` has been sent: something if a window update is
      due, the next bytes if they are worth it, a probe if forced into a closed
      window. */
  ghost predicate Starts(force: bool, mem: nat, r: Rcv, s: Snd, cwnd: u32, w: seq<OutSeg>, w': seq<OutSeg>) {
    && (mem > 0 && WindowUpdate(r, s.maxseg) ==> |w| < |w'|)
    && (!force && mem > 0 && Worth(s.(cwnd := cwnd)) ==> |w| < |w'| && SendsNext(w'[|w|], s.(cwnd := cwnd)))
    && (force && mem > 0 && s.Off() == 0 == s.wnd && s.buf != [] ==> |w| < |w'| && Probes(w'[|w|], s))
  }

  lemma {:induction false} StartsAfter(force: bool, mem: nat, r: Rcv, s: Snd, cwnd: u32, w: seq<OutSeg>,
                                       out: seq<OutSeg>)
    requires Starts(force, mem, r, s, cwnd, [], out)
    ensures Starts(force, mem, r, s, cwnd, w, w + out)
  {
    hide WindowUpdate, Worth, SendsNext, Probes;
  }

  /** What `tcp_output` leaves alone. */
  ghost predicate OnlyOutput(r: Rcv, r': Rcv, s: Snd, s': Snd, t: Timers, t': Timers, g: Seen, g': Seen) {
    && r' == r.(adv := r'.adv) && g' == g.(advPos := g'.advPos) && g.advPos <= g'.advPos
    && s' == s.(nxt := s'.nxt, max := s'.max, sentFin := s'.sentFin, cwnd := s'.cwnd) && s.MaxOff() <= s'.MaxOff()
    && t' == t.(rexmt := t'.rexmt, persist := t'.persist, shift := t'.shift, rtt := t'.rtt, rtseq := t'.rtseq)
  }

  /** Lines 252-472, once an mbuf is there: build one segment, hand it to IP, and
      remember the window it advertised. */
  method Emit(r: Rcv, s: Snd, t: Timers, force: bool, d: Decision, ghost g: Seen, ghost h: Given)
    returns (r': Rcv, s': Snd, t': Timers, o: OutSeg, ghost g': Seen)
    requires RcvInv(r, g) && SndInv(s, h) && TimersInv(t) && Fits(s, d) && (d.fin ==> !h.finAcked)
    ensures RcvInv(r', g') && SndInv(s', h) && TimersInv(t')
    ensures OnlyOutput(r, r', s, s', t, t', g, g') && s'.cwnd == s.cwnd
    ensures SegOk(o, r.nxt, h) && o.fin == d.fin && |o.data| == d.len
    ensures g' == SeeAdvertised(r, s.maxseg, g) && ShowsEdge(o.win, g')
    ensures d.len > 0 ==> o.sn == s.nxt && o.data == s.buf[s.Off()..s.Off() + d.len]
    ensures s.sentFin ==> s'.sentFin
    ensures s'.sentFin ==> s.sentFin || d.fin
    ensures !force || t.persist == 0 ==>
              s'.Off() == (if d.fin then |s.buf| + 1 else s.Off() + d.len) && (d.fin ==> s'.sentFin)
    ensures t'.persist == 0 || t'.persist == t.persist
    ensures t.persist == 0 ==> t'.shift == t.shift
    ensures force && t.persist > 0 ==> t' == t
  {
    hide Wrap, Diff, USub, Add, RcvInv, SliceOf, Opened, ShowsEdge;
    var m, sn, win;
    s', m, sn := Compose(s, t, d, h);
    ghost var at := h.una + s.Off();
    s', t' := Advance(s', t, force, d, h);
    g' := SeeAdvertised(r, s.maxseg, g);
    r', win := Advertise(r, s.maxseg, g);
    o := OutSeg(sn, r.nxt, d.fin, win, m);
    if d.len > 0 {
      assert CarriesAt(o, at, h.host, h.base);
    }
  }

  /** What a connection's halves keep between steps. */
  ghost predicate Halves(r: Rcv, s: Snd, t: Timers, g: Seen, h: Given) {
    RcvInv(r, g) && SndInv(s, h) && TimersInv(t) && s.maxseg > 0
  }

  /** One pass from the `again:` label: at most one segment (`mem` says whether
      there is an mbuf for it). Another pass follows after a full-sized segment
      with more behind it. */
  method Pass(r: Rcv, s: Snd, t: Timers, force: bool, wantFin: bool, ackNow: bool, mem: bool, ghost g: Seen,
              ghost h: Given)
    returns (r': Rcv, s': Snd, t': Timers, out: seq<OutSeg>, again: bool, ghost g': Seen)
    requires Halves(r, s, t, g, h) && (wantFin ==> !h.finAcked)
    ensures Halves(r', s', t', g', h) && OnlyOutput(r, r', s, s', t, t', g, g') && s'.cwnd == s.cwnd
    ensures |out| <= 1 && (mem && ackNow ==> |out| == 1)
    ensures out != [] ==> mem && SegOk(out[0], r.nxt, h) && (out[0].fin ==> wantFin)
    ensures (s.sentFin ==> s'.sentFin) && (s'.sentFin ==> s.sentFin || wantFin)
    ensures again ==> |out| == 1 && s.Off() < s'.Off() < |s.buf|
    ensures mem && !again && !force && s.Win() >= |s.buf| ==> s'.Off() >= |s.buf| && (wantFin ==> s'.sentFin)
    ensures First(force, mem, r, s, out) && (out == [] ==> r' == r) && Told(r, s.maxseg, g, g', out)
    ensures force && s.Win() == 0 && t.persist > 0 ==> t'.persist == t.persist && !again
    ensures !force ==> t'.persist == t.persist || t'.persist == 0 || out == []
    ensures !force && t.persist == 0 && t'.persist == 0 ==> t'.shift == t.shift
    ensures !force && out != [] && t.persist == 0 ==> t'.persist == 0
    ensures !force && t.persist == 0 ==> t'.persist == 0 || t'.persist >= TCPTV_PERSMIN
  {
    hide Wrap, Diff, USub, Add, RcvInv, SegOk, WindowUpdate, Opened, ShowsEdge;
    r', out, again, g' := r, [], false, g;
    var d, o;
    s', t', d := Decide(s, t, force, wantFin, ackNow, WindowUpdate(r, s.maxseg), h);
    if d.send && mem {
      r', s', t', o, g' := Emit(r, s', t', force, d, g, h);
      out, again := [o], d.again;
    }
  }

  /** What one call of `tcp_output` does: right segments only; an owed ACK, a due
      window update and what is worth sending go out, through an open window all
      of it and the FIN; each segment shows the receive window; the backoff
      stays unless persist state is entered or left. */
  ghost predicate Sent(r: Rcv, s: Snd, t: Timers, force: bool, wantFin: bool, ackNow: bool, mem: nat, g: Seen, h: Given,
                       r': Rcv, s': Snd, t': Timers, out: seq<OutSeg>, g': Seen) {
    && OnlyOutput(r, r', s, s', t, t', g, g')
    && s'.cwnd == (if s.max == s.una && t.idle >= t.cur then Wrap(s.maxseg) else s.cwnd)
    && (forall i :: 0 <= i < |out| ==> SegOk(out[i], r.nxt, h) && (out[i].fin ==> wantFin))
    && (s.sentFin ==> s'.sentFin) && (s'.sentFin ==> s.sentFin || wantFin)
    && (ackNow && mem > 0 ==> out != [])
    && Starts(force, mem, r, s, s'.cwnd, [], out) && Told(r, s.maxseg, g, g', out)
    && (force && s.wnd == 0 && t.persist > 0 ==> t'.persist == t.persist)
    && (!force && mem > |s.buf| && s'.Win() >= |s.buf| ==> s'.Off() >= |s.buf| && (wantFin ==> s'.sentFin))
    && (!force && t.persist == 0 && t'.persist == 0 ==> t'.shift == t.shift)
    && (!force && t.persist == 0 ==> t'.persist == 0 || t'.persist >= TCPTV_PERSMIN)
  }

  /** `tcp_output`. `wantFin` is the FIN bit of the state's output flags, `mem`
      the number of `m_get` calls that will succeed. Besides keeping the
      invariants, it sends an owed ACK, and with an open window and enough mbufs
      everything in the ring and the FIN. */
  method Output(r: Rcv, s: Snd, t: Timers, force: bool, wantFin: bool, ackNow: bool, mem: nat, ghost g: Seen,
                ghost h: Given)
    returns (r': Rcv, s': Snd, t': Timers, out: seq<OutSeg>, ghost g': Seen)
    requires Halves(r, s, t, g, h) && (wantFin ==> !h.finAcked)
    ensures Halves(r', s', t', g', h) && Sent(r, s, t, force, wantFin, ackNow, mem, g, h, r', s', t', out, g')
  {
    hide Wrap, Diff, USub, Add, Halves, SegOk, Worth, SendsNext, WindowUpdate, Told;
    s' := s;
    if s.max == s.una && t.idle >= t.cur {
      s' := s.(cwnd := Wrap(s.maxseg));
    }
    NewCwnd(r, s, s', t, g, h);
    r', s', t', out, g' := Passes(r, s', t, force, wantFin, ackNow, mem, g, h);
  }

  /** All its passes. */
  method Passes(r: Rcv, s: Snd, t: Timers, force: bool, wantFin: bool, ackNow: bool, mem: nat, ghost g: Seen,
                ghost h: Given)
    returns (r': Rcv, s': Snd, t': Timers, out: seq<OutSeg>, ghost g': Seen)
    requires Halves(r, s, t, g, h) && (wantFin ==> !h.finAcked) && 0 <= s.Off()
    ensures Halves(r', s', t', g', h) && OnlyOutput(r, r', s, s', t, t', g, g') && s'.cwnd == s.cwnd
    ensures forall i :: 0 <= i < |out| ==> SegOk(out[i], r.nxt, h) && (out[i].fin ==> wantFin)
    ensures (s.sentFin ==> s'.sentFin) && (s'.sentFin ==> s.sentFin || wantFin)
    ensures ackNow && mem > 0 ==> out != []
    ensures First(force, mem > 0, r, s, out) && Told(r, s.maxseg, g, g', out)
    ensures force && s.Win() == 0 && t.persist > 0 ==> t'.persist == t.persist
    ensures !force && mem > |s.buf| && s.Win() >= |s.buf| ==> s'.Off() >= |s.buf| && (wantFin ==> s'.sentFin)
    ensures !force && t.persist == 0 && t'.persist == 0 ==> t'.shift == t.shift
    ensures !force && t.persist == 0 ==> t'.persist == 0 || t'.persist >= TCPTV_PERSMIN
  {
    hide Wrap, Diff, USub, Add, Halves, SegOk, First, Told;
    r', s', t', out, g' := r, s, t, [], g;
    ToldNone(r, s.maxseg, g);
    var left := mem;
    var again := true;
    while again
      invariant Halves(r', s', t', g', h) && OnlyOutput(r, r', s, s', t, t', g, g') && s'.cwnd == s.cwnd
      invariant left + |out| == mem && (|out| == 0 ==> again)
      invariant forall i :: 0 <= i < |out| ==> SegOk(out[i], r.nxt, h) && (out[i].fin ==> wantFin)
      invariant (s.sentFin ==> s'.sentFin) && (s'.sentFin ==> s.sentFin || wantFin)
      invariant again && out != [] ==> |out| <= s'.Off() < |s.buf|
      invariant again ==> 0 <= s'.Off()
      invariant !again && !force && s.Win() >= |s.buf| ==> s'.Off() >= |s.buf| && (wantFin ==> s'.sentFin)
      invariant !force && t.persist == 0 ==> t'.persist == 0 && t'.shift == t.shift
      invariant out == [] ==> s' == s && r' == r
      invariant Told(r, s.maxseg, g, g', out)
      invariant out != [] ==> First(force, mem > 0, r, s, out)
      invariant force && s.Win() == 0 && t.persist > 0 ==> t'.persist == t.persist
      decreases again, |s.buf| + 1 - s'.Off()
    {
      var more;
      ghost var r1, g1 := r', g';
      r', s', t', more, again, g' := Pass(r', s', t', force, wantFin, ackNow && out == [], left > 0, g', h);
      FirstMore(force, mem > 0, r, s, out, more);
      ToldMore(r, r1, s.maxseg, g, g1, g', out, more);
      out := out + more;
      left := left - |more|;
      if more == [] {
        return;
      }
    }
  }

  lemma {:induction false} NewCwnd(r: Rcv, s: Snd, s': Snd, t: Timers, g: Seen, h: Given)
    requires Halves(r, s, t, g, h) && s' == s.(cwnd := s'.cwnd)
    ensures Halves(r, s', t, g, h) && 0 <= s.Off()
  {
  }
}
