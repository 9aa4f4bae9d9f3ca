/** One TCP connection from the end of the handshake on: the segment-arrival
    code of src/slirp/tcp_input.c, the timers of tcp_timer.c, the closing of
    tcp_subr.c and the socket calls of socket.c, over the two halves modelled
    in TcpRecv and TcpSend. */
module Tcp {
  import opened Basics
  import opened Pieces
  import opened Seq32
  import opened TcpQueue
  import opened TcpTrim
  import opened TcpRecv
  import opened TcpSend
  import opened TcpOutput

  const TCPREXMTTHRESH: nat := 3
  const TCPTV_MSL: nat := 10
  const TCPTV_KEEP_IDLE: nat := 14400
  const TCPTV_KEEPINTVL: nat := 150
  const TCP_MAXIDLE: nat := 1200

  datatype State = Established | CloseWait | FinWait1 | Closing | LastAck | FinWait2 | TimeWait | Closed

  /** `tcp_outflags[state] & TH_FIN`. */
  predicate SendsFin(s: State) { s.FinWait1? || s.Closing? || s.LastAck? }

  /** `t_state > TCPS_CLOSE_WAIT`: the user has closed. */
  predicate UserClosed(s: State) { !s.Established? && !s.CloseWait? }

  /** The bits of `so_state` that matter after the handshake. */
  datatype Sock = Sock(noFd: bool, connected: bool, cantRcv: bool, cantSend: bool, fwDrain: bool) {
    /** `sofcantrcvmore` and `sofcantsendmore`: half closed, or, the second time,
        gone altogether. */
    function CantRcvMore(): Sock {
      if cantSend then Sock(true, false, false, false, false) else this.(cantRcv := true)
    }

    function CantSendMore(): Sock {
      if cantRcv then Sock(true, false, false, false, false) else this.(cantSend := true)
    }
  }

  /** A socket shut in both directions, in either order, is gone; shut in one, it can
      still do the other. */
  lemma {:induction false} ShutBoth(so: Sock)
    requires !so.cantRcv && !so.cantSend
    ensures so.CantRcvMore().CantSendMore() == so.CantSendMore().CantRcvMore() == Sock(true, false, false, false, false)
    ensures so.CantRcvMore() == so.(cantRcv := true) && so.CantSendMore() == so.(cantSend := true)
  {
  }

  /** The state that the two ends of a connection have come to (section 3.5 of
      RFC 793): whether the host's side has ended and which end came first,
      whether the peer's FIN has been taken, and whether ours is acknowledged. */
  function Phase(end: End, finSeen: bool, finAcked: bool): State {
    match end
    case NotEnded => if finSeen then CloseWait else Established
    case EndedFirst =>
      if finSeen then if finAcked then TimeWait else Closing
      else if finAcked then FinWait2 else FinWait1
    case EndedSecond => if finAcked then Closed else LastAck
  }

  /** The record after the host's side has closed. */
  function EndedNow(h: Given, finSeen: bool): Given {
    h.(end := if !h.end.NotEnded? then h.end else if finSeen then EndedSecond else EndedFirst)
  }

  predicate NoFins(w: seq<OutSeg>) { forall i :: 0 <= i < |w| ==> !w[i].fin }

  /** State and bookkeeping agree: a state other than CLOSED is that of the ends,
      and the socket can still do what they need. */
  ghost predicate Control(st: State, so: Sock, sentFin: bool, finSeen: bool, h: Given, lost: bool) {
    && (lost ==> so.cantSend || so.noFd)
    && (h.end.EndedSecond? ==> finSeen)
    && (!st.Closed? ==> st == Phase(h.end, finSeen, h.finAcked))
    && (st.Established? ==> so == Sock(false, true, false, false, false) && !sentFin && !lost)
    && (st.CloseWait? ==> !so.noFd && !so.cantRcv && !sentFin)
  }

  /** In TIME_WAIT the 2MSL timer is running. */
  predicate Waits(st: State, t: Timers) { st.TimeWait? ==> 0 < t.msl2 <= 2 * TCPTV_MSL }

  /** Where the send window was taken from: the place of the segment in the peer's
      stream, and of its ACK in ours. */
  datatype Origin = Origin(sn: int, ack: int)

  ghost predicate Origins(wl1: u32, wl2: u32, base: int, hbase: int, f: Origin) {
    wl1 == Wrap(base + f.sn) && wl2 == Wrap(hbase + f.ack)
  }

  /** All of a connection at one moment, with its ghost part. */
  datatype Conn = Conn(rcv: Rcv, snd: Snd, tmr: Timers, state: State, so: Sock, ackNow: bool, delAck: bool,
                       wire: seq<OutSeg>, seen: Seen, given: Given, from: Origin)

  /** How segment processing continues after the ACK field has been looked at. */
  datatype Verdict = Stop | AfterAck | GoOn(need: bool)

  /** The control block with its socket. */
  class Tcpcb {
    var rcv: Rcv
    var snd: Snd
    var tmr: Timers
    var state: State
    /** TF_ACKNOW and TF_DELACK. */
    var ackNow: bool
    var delAck: bool
    var so: Sock
    /** Every segment sent. */
    var wire: seq<OutSeg>

    ghost var seen: Seen
    ghost var given: Given
    ghost var from: Origin

    ghost predicate Inv()
      reads this
    {
      && Halves(rcv, snd, tmr, seen, given)
      && (!state.Closed? ==> 32 <= snd.maxseg) && Origins(snd.wl1, snd.wl2, seen.base, given.base, from)
      && WireOk(wire, given.host, given.base) && (given.end.NotEnded? ==> NoFins(wire))
      && Control(state, so, snd.sentFin, seen.fin, given, seen.lost) && Waits(state, tmr)
    }

    ghost function Now(): Conn
      reads this
    {
      Conn(rcv, snd, tmr, state, so, ackNow, delAck, wire, seen, given, from)
    }

    /** A connection whose handshake has just ended: the peer's initial number is
        `irs`, ours is `iss` and has been acknowledged, and `window` is what our
        SYN advertised. */
    constructor (peer: seq<byte>, irs: u32, iss: u32, window: nat, maxseg: nat, rcvCap: nat, sndCap: nat,
                 wnd: u16, cwnd: u32, ssthresh: u32, t: Timers)
      requires window <= rcvCap < LIMIT && sndCap < LIMIT && 32 <= maxseg < LIMIT && TimersInv(t)
      ensures Inv() && state.Established? && wire == []
      ensures seen.peer == peer && seen.base == irs + 1 && seen.Nxt() == 0 && seen.advPos == window
      ensures given == Given([], iss + 1, 0, false, NotEnded) && rcv.cap == rcvCap && snd.cap == sndCap
    {
      rcv := Rcv(Wrap(irs + 1), Wrap(irs + 1 + window), [], [], rcvCap, []);
      snd := Snd(Wrap(iss + 1), Wrap(iss + 1), Wrap(iss + 1), wnd, cwnd, ssthresh, wnd, Wrap(irs + 1), Wrap(iss + 1),
                 [], sndCap, false, maxseg, 0);
      tmr, state, ackNow, delAck := t, Established, false, false;
      so, wire := Sock(false, true, false, false, false), [];
      seen := Seen(peer, irs + 1, 0, false, [], iset{}, window, false);
      given, from := Given([], iss + 1, 0, false, NotEnded), Origin(0, 0);
      new;
      hide Wrap, Diff, USub;
      FreshReceiver(rcv, seen);
      FreshSender(snd, given);
    }

    /** `tcp_output` on this connection. */
    method TcpOutput(force: bool, mem: nat)
      requires Inv() && !state.Closed?
      modifies this`rcv, this`snd, this`tmr, this`ackNow, this`delAck, this`wire, this`seen
      ensures Inv() && Outputs(force, mem, old(Now()), Now())
    {
      hide Halves, Wrap, Origins, NoFins, WireOk, Outputs, Sent;
      GoodNow(this);
      var r, s, t, out;
      ghost var g;
      r, s, t, out, g := Output(rcv, snd, tmr, force, SendsFin(state), ackNow, mem, seen, given);
      OutputDone(force, mem, Now(), r, s, t, out, g);
      rcv, snd, tmr, seen, wire := r, s, t, g, wire + out;
      if out != [] {
        ackNow, delAck := false, false;
      }
    }

    /** `tcp_output` if there is a reason for it. */
    method OutputIf(go: bool, mem: nat)
      requires Inv() && !state.Closed?
      modifies this`rcv, this`snd, this`tmr, this`ackNow, this`delAck, this`wire, this`seen
      ensures Inv() && Quiet(old(snd), old(tmr), snd, tmr) && Onward(old(seen), seen)
      ensures EdgeKept(old(rcv), old(seen), rcv, seen)
      ensures rcv == old(rcv).(adv := rcv.adv) && seen == old(seen).(advPos := seen.advPos)
      ensures snd.una == old(snd.una) && snd.buf == old(snd.buf) && old(wire) <= wire
      ensures SameWindow(old(snd), snd) && tmr.msl2 == old(tmr.msl2) && Shown(old(Now()), Now())
      ensures go && old(ackNow) && mem > 0 ==> |old(wire)| < |wire|
      ensures |wire| == |old(wire)| ==> delAck == old(delAck)
    {
      hide Halves, WireOk, SegOk, Control, Wrap, Diff, USub, Add, Origins;
      if go {
        TcpOutput(false, mem);
      }
    }

    /** Lines 943-959: the third duplicate ACK resends one segment from snd_una
        and then puts snd_nxt back. */
    method FastRetransmit(mem: nat)
      requires Inv() && !state.Closed?
      modifies this`rcv, this`snd, this`tmr, this`ackNow, this`delAck, this`wire, this`seen
      ensures Inv() && Retransmits(mem, old(Now()), Now())
    {
      hide RcvInv, Wrap, USub, Add, Diff, WireOk, SegOk, Origins, Retransmits, Outputs, NoFins;
      GoodNow(this);
      var onxt := snd.nxt;
      var win := Max(snd.Win() / 2 / snd.maxseg, 2);
      DiffAdd(snd.una, snd.una);
      snd := snd.(ssthresh := Wrap(win * snd.maxseg), nxt := snd.una, cwnd := Wrap(snd.maxseg));
      tmr := tmr.(rexmt := 0, rtt := 0);
      ghost var m := Now();
      TcpOutput(false, mem);
      GoodNow(this);
      RetransmitDone(mem, old(Now()), m, Now());
      snd := snd.(cwnd := Wrap(snd.ssthresh + snd.maxseg * snd.dupacks),
                  nxt := if SeqGT(onxt, snd.nxt) then onxt else snd.nxt);
    }

    /** Lines 903-969: an ACK of nothing new. Duplicates count; the third makes
        us resend, later ones inflate the congestion window. */
    method OldAck(ack: u32, len: nat, win: u16, mem: nat) returns (v: Verdict)
      requires Inv() && !state.Closed?
      modifies this`rcv, this`snd, this`tmr, this`ackNow, this`delAck, this`wire, this`seen
      ensures Inv()
      ensures rcv == old(rcv).(adv := rcv.adv) && seen == old(seen).(advPos := seen.advPos)
      ensures old(seen.advPos) <= seen.advPos
      ensures snd.una == old(snd.una) && snd.buf == old(snd.buf)
      ensures v == GoOn(false) || (v == Stop && len == 0)
      ensures SameWindow(old(snd), snd) && tmr.msl2 == old(tmr.msl2) && Shown(old(Now()), Now())
      ensures snd.dupacks == if len == 0 && win == old(snd.wnd) && ack == old(snd.una) && old(tmr.rexmt) > 0
                             then old(snd.dupacks) + 1 else 0
      ensures old(wire) <= wire && Quiet(old(snd), old(tmr), snd, tmr) && Onward(old(seen), seen)
      ensures EdgeKept(old(rcv), old(seen), rcv, seen)
      ensures v.GoOn? ==> snd == old(snd).(dupacks := snd.dupacks) && tmr == old(tmr) && wire == old(wire)
      ensures v.GoOn? ==> ackNow == old(ackNow) && delAck == old(delAck) && rcv == old(rcv) && seen == old(seen)
      ensures v.Stop? <==> len == 0 && win == old(snd.wnd) && ack == old(snd.una) &&
                           old(tmr.rexmt) > 0 && old(snd.dupacks) + 1 >= TCPREXMTTHRESH
      ensures v.Stop? && old(snd.dupacks) + 1 == TCPREXMTTHRESH && mem > 0 && Outstanding(old(snd)) ==>
                Resent(old(wire), wire, old(snd.una), old(snd.buf), Min(old(snd.wnd), old(snd.maxseg)))
    {
      hide RcvInv, Wrap, USub, Add, Diff, WireOk, SegOk, Origins;
      if len == 0 && win == snd.wnd {
        if tmr.rexmt == 0 || ack != snd.una {
          snd := snd.(dupacks := 0);
        } else {
          snd := snd.(dupacks := snd.dupacks + 1);
          if snd.dupacks == TCPREXMTTHRESH {
            FastRetransmit(mem);
            return Stop;
          } else if snd.dupacks > TCPREXMTTHRESH {
            snd := snd.(cwnd := Wrap(snd.cwnd + snd.maxseg));
            TcpOutput(false, mem);
            return Stop;
          }
        }
      } else {
        snd := snd.(dupacks := 0);
      }
      v := GoOn(false);
    }

    /** Lines 975-1091: an ACK of something outstanding drops it from the ring
        and, if it covers our FIN, moves the closing states on. */
    method NewAck(ack: u32) returns (v: Verdict)
      requires Inv() && !state.Closed? && 0 < Diff(ack, snd.una)
      modifies this`snd, this`tmr, this`state, this`given
      ensures Inv()
      ensures given.host == old(given.host) && given.base == old(given.base)
      ensures v.AfterAck? <==> Diff(ack, old(snd.una)) > old(snd.MaxOff())
      ensures v.Stop? <==> state.Closed?
      ensures v.AfterAck? ==> snd == Deflated(old(snd)) && state == old(state) && given == old(given) && tmr == old(tmr)
      ensures !v.AfterAck? ==>
                snd == DropAcked(Deflated(old(snd)), ack) &&
                SameWindow(old(snd).(wnd := WindowLeft(ack, old(snd))), snd)
      ensures Shown(old(Now()), Now()) && (v.AfterAck? ==> SameWindow(old(snd), snd))
      ensures !v.AfterAck? ==> snd.una == ack && given == Acknowledge(old(given), Diff(ack, old(snd.una)))
      ensures !v.AfterAck? ==> snd.buf == old(snd.buf)[Min(Diff(ack, old(snd.una)), |old(snd.buf)|)..]
      ensures !v.AfterAck? ==> state == AfterFinAck(old(state), given.finAcked)
      ensures old(state).TimeWait? ==> tmr.msl2 == old(tmr.msl2)
      ensures Quiet(old(snd), old(tmr), snd, tmr) && (old(tmr.persist) == 0 ==> tmr.persist == 0)
      ensures !v.AfterAck? && !(old(state).Closing? && given.finAcked) ==>
                tmr.rexmt == (if ack == snd.max then 0 else if tmr.persist == 0 then tmr.cur else old(tmr.rexmt))
      ensures old(state).FinWait1? && state.FinWait2? && so.cantRcv ==> tmr.msl2 == TCP_MAXIDLE
      ensures !v.AfterAck? && old(tmr.rtt) > 0 && SeqGT(ack, old(tmr.rtseq)) ==> Sampled(old(tmr), tmr)
    {
      hide RcvInv, WireOk, Wrap, USub, Add, Diff, Origins;
      snd := Deflated(snd);
      AckInRange(snd, ack);
      DiffAdd(ack, snd.una);
      if SeqGT(ack, snd.max) {
        return AfterAck;
      }
      DropAckedFacts(snd, ack, given);
      var ourFin := OurFinIsAcked(snd, ack);
      var need := ack == snd.max;
      tmr := TimersAfterAck(tmr, snd, ack);
      given := Acknowledge(given, Diff(ack, snd.una));
      snd := DropAcked(snd, ack);
      if ourFin {
        tmr := TimersAfterFinAck(tmr, state, so);
        state := AfterFinAck(state, true);
      }
      v := if state.Closed? then Stop else GoOn(need);
    }

    /** Lines 1166-1172: merge the segment's text into the queue, unless nothing
        of it is left. `fin` comes back as the FIN bit of `tiflags`. */
    method DataArrives(s: Segment, c: Cut, io: nat -> int, ghost p: int) returns (fin: bool)
      requires Inv() && !state.Closed?
      requires Arrivable(s, p, rcv, seen) && s.hasAck && !s.rst && Kept(rcv, s) == Some(c)
      requires so.noFd && UserClosed(state) ==> c.data == []
      modifies this`rcv, this`seen, this`ackNow, this`delAck
      ensures Inv()
      ensures fin ==> !seen.fin && seen.pos == |seen.peer| && rcv.segq == []
      ensures HasText(c) ==>
                !seen.fin && Took(old(seen), seen, KeptPiece(s, p, c, old(seen))) &&
                (ackNow || delAck) && fin == DueFin(old(seen), KeptPiece(s, p, c, old(seen))) &&
                Delivered(old(rcv), rcv, Due(old(seen), KeptPiece(s, p, c, old(seen))), so.cantSend)
      ensures EdgeKept(old(rcv), old(seen), rcv, seen)
      ensures Onward(old(seen), seen) && seen.advPos == old(seen.advPos) && seen.Nxt() < old(seen.Nxt()) + LIMIT
      ensures HasText(c) ==> !old(seen.fin)
      ensures !HasText(c) ==>
                !fin && rcv == old(rcv) && seen == old(seen) && ackNow == old(ackNow) && delAck == old(delAck)
    {
      hide SndInv, WireOk, Wrap, Diff, USub, Add, Drain, Insert, Positions, Origins;
      KeptAcceptable(s, p, rcv, seen);
      if HasText(c) && !state.TimeWait? {
        ghost var piece := KeptPiece(s, p, c, seen);
        DueFits(rcv, seen, piece);
        var inline;
        rcv, fin, inline := Reass(rcv, QSeg(c.sn, c.data, s.fin), state.Established?, so.cantSend, io, seen, piece);
        seen := SeeMore(seen, piece, so.cantSend);
        if inline {
          delAck := true;
        } else {
          ackNow := true;
        }
      } else {
        fin := false;
      }
    }

    /** Lines 1178-1225: the peer's FIN, after all its data. */
    method FinArrives()
      requires Inv() && !state.Closed? && !seen.fin && seen.pos == |seen.peer| && rcv.segq == []
      modifies this`rcv, this`seen, this`so, this`ackNow, this`state, this`tmr
      ensures Inv() && ackNow
      ensures seen == old(seen).(fin := true) && rcv == old(rcv).(nxt := Add(old(rcv.nxt), 1))
      ensures state == AfterText(old(state), true)
      ensures so == if old(rcv.buf) != [] then old(so).(fwDrain := true) else old(so).CantSendMore()
      ensures tmr.shift == old(tmr.shift) && (old(tmr.persist) == 0 ==> tmr.persist == 0)
      ensures tmr.cur == old(tmr.cur) && Estimate(tmr) == Estimate(old(tmr))
      ensures old(state).TimeWait? ==> tmr == old(tmr)
    {
      hide RcvInv, SndInv, WireOk, Wrap, Add, Origins;
      so := if rcv.buf != [] then so.(fwDrain := true) else so.CantSendMore();
      ackNow := true;
      rcv := TakeFin(rcv, seen);
      seen := seen.(fin := true);
      match state {
        case Established => state := CloseWait;
        case FinWait1 => state := Closing;
        case FinWait2 =>
          state := TimeWait;
          tmr := Cancelled(tmr).(msl2 := 2 * TCPTV_MSL);
        case _ =>
      }
    }

    /** Lines 1156-1234: the text and, if the queue now ends in one, the FIN. */
    method TextArrives(s: Segment, c: Cut, io: nat -> int, ghost p: int)
      requires Inv() && !state.Closed?
      requires Arrivable(s, p, rcv, seen) && s.hasAck && !s.rst && Kept(rcv, s) == Some(c)
      requires so.noFd && UserClosed(state) ==> c.data == []
      modifies this`rcv, this`seen, this`so, this`ackNow, this`delAck, this`state, this`tmr
      ensures Inv() && !state.Closed? && old(seen.advPos) == seen.advPos && Onward(old(seen), seen)
      ensures EdgeKept(old(rcv), old(seen), rcv, seen)
      ensures tmr.shift == old(tmr.shift) && (old(tmr.persist) == 0 ==> tmr.persist == 0)
      ensures tmr.cur == old(tmr.cur) && Estimate(tmr) == Estimate(old(tmr))
      ensures old(state).TimeWait? ==> tmr == old(tmr)
      ensures HasText(c) ==> ackNow || delAck
      ensures TextTaken(s, p, c, old(so), old(rcv), old(seen), rcv, seen)
      ensures state == AfterText(old(state), seen.fin && !old(seen.fin))
    {
      hide Halves, WireOk, SegOk, Wrap, Diff, USub, Add, Drain, Insert, Positions, Kept, Arrivable, Origins;
      var fin := DataArrives(s, c, io, p);
      if fin {
        FinArrives();
      }
    }

    /** Lines 1097-1115: take the peer's window from a newer segment. */
    method UpdateWindow(sn: u32, ack: u32, win: u16, ghost at: int, ghost k: int) returns (update: bool)
      requires Inv() && sn == Wrap(seen.base + at) && ack == Wrap(given.base + k)
      modifies this`snd, this`from
      ensures Inv() && update == NewerWindow(old(snd), sn, ack, win)
      ensures from == if update then Origin(at, k) else old(from)
      ensures snd == WindowStep(old(snd), sn, ack, win)
      ensures snd.una == old(snd.una) && snd.buf == old(snd.buf) && snd.maxseg == old(snd.maxseg)
    {
      hide Halves, WireOk, SeqLT, Control;
      update := NewerWindow(snd, sn, ack, win);
      if update {
        WindowKeeps(rcv, snd, tmr, seen, given, sn, ack, win);
        snd, from := WithWindow(snd, sn, ack, win), Origin(at, k);
      }
    }

    /** Lines 1094-1234: window update, text and FIN. */
    method WindowAndText(s: Segment, c: Cut, io: nat -> int, ghost p: int, ghost k: int) returns (update: bool)
      requires Inv() && !state.Closed? && s.ack == Wrap(given.base + k)
      requires Arrivable(s, p, rcv, seen) && s.hasAck && !s.rst && Kept(rcv, s) == Some(c)
      requires so.noFd && UserClosed(state) ==> c.data == []
      modifies this
      ensures Inv() && !state.Closed? && TextDone(s, p, c, k, old(Now()), Now()) && wire == old(wire)
      ensures update == NewerWindow(old(snd), c.sn, s.ack, s.win)
      ensures (HasText(c) ==> ackNow || delAck) && (old(tmr.persist) == 0 ==> tmr.persist == 0)
    {
      hide Halves, WireOk, SegOk, Wrap, Diff, USub, Add, TextTaken, Kept, Arrivable, NewerWindow, WindowStep, Control;
      hide Origins, NoFins, Waits, AfterText;
      KeptAt(s, p, c, rcv, snd, tmr, seen, given);
      update := UpdateWindow(c.sn, s.ack, s.win, CutAt(s, p, seen.Nxt()), k);
      TextArrives(s, c, io, p);
    }

    /** Lines 1094-1254: all that and the closing output. */
    method Step6(s: Segment, c: Cut, need: bool, mem: nat, io: nat -> int, ghost p: int, ghost k: int)
      requires Inv() && !state.Closed? && s.ack == Wrap(given.base + k)
      requires Arrivable(s, p, rcv, seen) && s.hasAck && !s.rst && Kept(rcv, s) == Some(c)
      requires so.noFd && UserClosed(state) ==> c.data == []
      modifies this
      ensures Inv() && !state.Closed? && TextDone(s, p, c, k, old(Now()), Now())
      ensures HasText(c) && mem > 0 ==> delAck || |old(wire)| < |wire|
    {
      hide Halves, WireOk, SegOk, Wrap, Diff, USub, Add, Kept, Arrivable, NewerWindow, Control;
      hide Origins, NoFins, Waits, TextDone, LastShows, EdgeKept, Onward, Quiet;
      var update := WindowAndText(s, c, io, p, k);
      ghost var m := Now();
      if 0 < |c.data| <= 5 && s.data != [] && s.data[0] == 27 {
        ackNow := true;
      }
      OutputIf(need || update || ackNow, mem);
      TextThenOutput(s, p, c, k, old(Now()), m, Now());
    }

    /** Lines 852-1091: the ACK field of a trimmed segment. */
    method AckField(s: Segment, c: Cut, mem: nat) returns (v: Verdict)
      requires Inv() && !state.Closed?
      modifies this
      ensures Inv() && AckDone(s, c, v, old(Now()), Now()) && Moved(s.ack, old(Now()), Now())
      ensures ThirdResent(s, c, mem, old(snd), old(tmr), old(wire), wire)
    {
      hide RcvInv, SndInv, WireOk, SegOk, Wrap, Diff, USub, Add, Acknowledge, EdgeKept, Origins;
      hide LastShows, NoFins, DropAcked, Resent, Estimate;
      WndIsSpace(rcv, snd, tmr, seen, given);
      AckedFins(snd, given);
      DiffAdd(s.ack, snd.una);
      if SeqLEQ(s.ack, snd.una) {
        v := OldAck(s.ack, |c.data|, s.win, mem);
      } else {
        v := NewAck(s.ack);
      }
      EdgeStays(old(rcv), old(seen), rcv, seen);
    }

    /** Lines 852-1266: a trimmed segment with an ACK. */
    method AckAndText(s: Segment, c: Cut, mem: nat, io: nat -> int, ghost p: int)
      requires Inv() && !state.Closed?
      requires Arrivable(s, p, rcv, seen) && s.hasAck && !s.rst && Kept(rcv, s) == Some(c)
      requires so.noFd && UserClosed(state) ==> c.data == []
      modifies this
      ensures Inv() && Moved(s.ack, old(Now()), Now())
      ensures if Diff(s.ack, old(snd.una)) <= old(snd.MaxOff()) then EffectOf(s, p, c, old(Now()), Now())
              else state == old(state) && Untouched(old(Now()), Now())
      ensures Diff(s.ack, old(snd.una)) <= old(snd.MaxOff()) && c.data != [] && mem > 0 && !state.Closed? ==>
                delAck || |old(wire)| < |wire|
      ensures !state.Closed? ==> ThirdResent(s, c, mem, old(snd), old(tmr), old(wire), wire)
    {
      hide Halves, WireOk, SegOk, Wrap, Diff, USub, Add, Kept, Arrivable, EffectOf, TextDone, Acked, Control, Origins;
      hide Resent, Outstanding;
      WndIsSpace(rcv, snd, tmr, seen, given);
      DiffAdd(snd.una, snd.una);
      ghost var k := AckAt(s.ack, snd, given);
      AckStands(s.ack, rcv, snd, tmr, seen, given);
      var v := AckField(s, c, mem);
      ghost var m := Now();
      StillUserClosed(old(state), m.given.finAcked);
      match v {
        case Stop => AckOnly(s, p, c, v, old(Now()), m);
        case AfterAck =>
          ackNow := true;
          TcpOutput(false, mem);
          AckThenOutput(s.ack, old(Now()), m, Now());
        case GoOn(need) =>
          Step6(s, c, need, mem, io, p, k);
          AckThenText(s, p, c, v, k, old(Now()), m, Now());
      }
    }

    /** Lines 510-1266: full processing of a segment. */
    method GeneralInput(s: Segment, mem: nat, io: nat -> int, ghost p: int)
      requires Inv() && !state.Closed? && Arrivable(s, p, rcv, seen)
      modifies this
      ensures Inv() && Moved(s.ack, old(Now()), Now())
      ensures Effect(s, p, old(Now()), Now())
      ensures mem > 0 && TakesData(s, old(rcv), old(snd)) && !state.Closed? ==> delAck || |old(wire)| < |wire|
      ensures FastResent(s, mem, old(Now()), Now())
    {
      hide Halves, WireOk, SegOk, Wrap, Diff, USub, Add, Arrivable, Kept, Effect, TakesData, EffectOf, Origins;
      hide ThirdResent, Current, NoFins;
      WndIsSpace(rcv, snd, tmr, seen, given);
      LessData(rcv, s, snd);
      var wnd := Max(rcv.Space(), Diff(rcv.adv, rcv.nxt));
      var c := TrimLeft(rcv.nxt, s);
      var k := TrimRight(rcv.nxt, wnd, c);
      ghost var a := Now();
      if c.ackNow {
        ackNow := true;
      }
      ghost var m := Now();
      if so.noFd && UserClosed(state) && c.data != [] {
        state := Closed;
      } else if k.None? {
        ackNow := ackNow || !s.rst;
        OutputIf(!s.rst, mem);
      } else {
        InWindow(s, k.value, mem, io, p);
        EffectOfFrom(s, p, k.value, a, m, Now());
      }
      WholeEffect(s, p, a, Now());
    }

    /** Lines 807-1266: a segment of which the window keeps something. */
    method InWindow(s: Segment, c: Cut, mem: nat, io: nat -> int, ghost p: int)
      requires Inv() && !state.Closed?
      requires Arrivable(s, p, rcv, seen) && Kept(rcv, s) == Some(c)
      requires so.noFd && UserClosed(state) ==> c.data == []
      modifies this
      ensures Inv() && Moved(s.ack, old(Now()), Now())
      ensures if s.rst then state.Closed? && Untouched(old(Now()), Now())
              else if !s.hasAck || Diff(s.ack, old(snd.una)) > old(snd.MaxOff()) then
                state == old(state) && Untouched(old(Now()), Now())
              else EffectOf(s, p, c, old(Now()), Now())
      ensures mem > 0 && TakesData(s, old(rcv), old(snd)) && !state.Closed? ==> delAck || |old(wire)| < |wire|
      ensures FastResent(s, mem, old(Now()), Now())
    {
      hide Halves, WireOk, SegOk, Wrap, Diff, USub, Add, Kept, Arrivable, EffectOf, Acked, Origins, ThirdResent;
      ghost var a := Now();
      if c.ackNow {
        ackNow := true;
      }
      if s.rst {
        state := Closed;
      } else if s.hasAck {
        ghost var m := Now();
        AckAndText(s, c, mem, io, p);
        EffectOfFrom(s, p, c, a, m, Now());
      }
    }

    /** Lines 449-468: the sender's side of a pure ACK for outstanding data. */
    method TakeAck(ack: u32)
      requires Inv() && state.Established? && snd.nxt == snd.max && SeqGT(ack, snd.una) && SeqLEQ(ack, snd.max)
      modifies this`snd, this`tmr, this`given
      ensures Inv() && 0 < Diff(ack, old(snd.una)) <= old(snd.MaxOff()) && snd.una == ack != old(snd.una)
      ensures Acked(ack, old(snd), old(given), snd, given) && !given.finAcked
      ensures given.host == old(given.host) && given.base == old(given.base) && snd.maxseg == old(snd.maxseg)
      ensures tmr.rexmt == (if ack == snd.max then 0 else if tmr.persist == 0 then tmr.cur else old(tmr.rexmt))
      ensures old(tmr.rtt) > 0 && SeqGT(ack, old(tmr.rtseq)) ==> Sampled(old(tmr), tmr)
      ensures SameWindow(old(snd), snd)
    {
      hide RcvInv, WireOk, SegOk, Wrap, USub, Add, Diff, Origins;
      FastAckFacts(snd, ack, given);
      DiffAdd(ack, snd.una);
      if tmr.rtt > 0 && SeqGT(ack, tmr.rtseq) {
        tmr := XmitTimer(tmr);
      }
      given := Acknowledge(given, Diff(ack, snd.una));
      snd := snd.(buf := snd.buf[Diff(ack, snd.una)..], una := ack);
      if snd.una == snd.max {
        tmr := tmr.(rexmt := 0);
      } else if tmr.persist == 0 {
        tmr := tmr.(rexmt := tmr.cur);
      }
    }

    /** Lines 446-481: a pure ACK for outstanding data. */
    method PredictedAck(s: Segment, mem: nat, ghost p: int)
      requires Inv() && Arrivable(s, p, rcv, seen) && Candidate(s, state, rcv, snd) && PredictsAck(s, snd)
      modifies this
      ensures Inv() && state.Established? && !seen.fin
      ensures Moved(s.ack, old(Now()), Now())
      ensures Effect(s, p, old(Now()), Now()) && snd.wnd == s.win && FastResent(s, mem, old(Now()), Now())
      ensures !TakesData(s, old(rcv), old(snd))
    {
      hide Halves, WireOk, SegOk, Wrap, USub, Add, Diff, Kept, Took, Due, Effect, Acknowledge, Arrivable, Origins;
      NothingKept(s, p, rcv, snd, tmr, seen, given);
      TakeAck(s.ack);
      OutputIf(snd.buf != [], mem);
      PredictedEffect(s, p, old(Now()), Now());
    }

    /** Lines 486-507: data in order with nothing queued. */
    method PredictedData(s: Segment, mem: nat, ret: int, ghost p: int)
      requires Inv() && Arrivable(s, p, rcv, seen) && Candidate(s, state, rcv, snd) && PredictsData(s, rcv, snd)
      modifies this
      ensures Inv() && state.Established? && !seen.fin
      ensures Moved(s.ack, old(Now()), Now())
      ensures Effect(s, p, old(Now()), Now()) && snd.wnd == s.win && FastResent(s, mem, old(Now()), Now())
      ensures mem > 0 ==> |old(wire)| < |wire|
    {
      hide WireOk, SegOk, Wrap, USub, Add, Diff, TrimLeft, TrimRight, Drain, Insert, Positions, Effect, Origins;
      CandidateKept(s, p, rcv, seen);
      KeptAcceptable(s, p, rcv, seen);
      ghost var piece := KeptPiece(s, p, Cut(s.sn, s.data, false, false), seen);
      DueFits(rcv, seen, piece);
      DiffAdd(s.ack, snd.una);
      rcv := AppendInOrder(rcv, s.data, ret, seen, piece);
      seen := SeeMore(seen, piece, false);
      ghost var g := seen;
      ackNow := true;
      TcpOutput(false, mem);
      TookAdv(old(seen), g, seen, piece);
      PredictedEffect(s, p, old(Now()), Now());
    }

    /** `tcp_input` on this connection (lines 396-1266). Header prediction has the
        effect that full processing has. */
    method Input(s: Segment, mem: nat, io: nat -> int, ghost p: int)
      requires Inv() && Arrivable(s, p, rcv, seen)
      modifies this
      ensures Inv()
      ensures Moved(s.ack, old(Now()), Now())
      ensures Effect(s, p, old(Now()), Now()) && WindowFollows(s, p, old(Now()), Now())
      ensures mem > 0 && TakesData(s, old(rcv), old(snd)) && !state.Closed? ==> delAck || |old(wire)| < |wire|
      ensures FastResent(s, mem, old(Now()), Now())
      ensures old(state).Closed? ==> Now() == old(Now())
    {
      hide Halves, WireOk, SegOk, Control, Arrivable, TakesData, Effect, WindowFollows, Origins, NoFins, FastResent;
      GoodNow(this);
      if state.Closed? {
        ClosedEffect(s, p, Now());
        return;
      }
      OtherTimers(rcv, snd, tmr, seen, given);
      tmr := tmr.(idle := 0, keep := TCPTV_KEEP_IDLE);
      ghost var a := Now();
      if Candidate(s, state, rcv, snd) && PredictsAck(s, snd) {
        PredictedAck(s, mem, p);
      } else if Candidate(s, state, rcv, snd) && PredictsData(s, rcv, snd) {
        PredictedData(s, mem, io(0), p);
      } else {
        GeneralInput(s, mem, io, p);
      }
      EffectFrom(s, p, old(Now()), a, Now());
      WindowMeans(s, p, old(Now()), Now());
    }

    /** The retransmit case of `tcp_timers`, when the timer has run down. Every
        expiry uses up one of the expiries left, and the one that finds none
        drops the connection. */
    method RexmtExpires(mem: nat)
      requires Inv() && !state.Closed? && tmr.rexmt == 0 && tmr.persist == 0
      modifies this
      ensures Inv() && Expires(mem, old(Now()), Now())
    {
      hide RcvInv, WireOk, SegOk, Wrap, USub, Add, Diff, Origins, NoFins, Expires, Outputs;
      GoodNow(this);
      if GivesUp(snd.maxseg, tmr.shift) {
        SlowStartKeeps(snd, snd.maxseg / 2, given);
        snd := snd.(maxseg := snd.maxseg / 2);
        tmr := tmr.(shift := TCP_MAXRXTSHIFT);
        state := Closed;
        LastExpiry(mem, old(Now()), Now());
        return;
      }
      var (m, k) := Expired(snd.maxseg, tmr.shift);
      SlowStartKeeps(snd, m, given);
      tmr := BackedOff(tmr, k);
      snd := SlowStart(snd, m);
      ghost var c := Now();
      TcpOutput(false, mem);
      ExpiryDone(mem, old(Now()), c, Now());
    }

    /** The persist case of `tcp_timers`: probe the closed window with one byte. */
    method PersistExpires(mem: nat)
      requires Inv() && !state.Closed? && tmr.rexmt == 0 && tmr.persist == 0
      modifies this
      ensures Inv() && Steady(old(Now()), Now())
      ensures state == old(state) && snd.maxseg == old(snd.maxseg)
      ensures tmr.msl2 == old(tmr.msl2) && tmr.idle == old(tmr.idle) && snd.wnd == old(snd.wnd)
      ensures tmr.cur == old(tmr.cur) && Estimate(tmr) == Estimate(old(tmr))
      ensures snd.wnd == 0 ==>
                tmr.persist == SetPersist(old(tmr)).persist && TCPTV_PERSMIN <= tmr.persist <= TCPTV_PERSMAX
      ensures mem > 0 && snd.wnd == 0 && old(snd.Off()) == 0 && snd.buf != [] ==>
                Resent(old(wire), wire, old(snd.nxt), snd.buf, 1)
    {
      hide RcvInv, SndInv, WireOk, SegOk, Wrap, Add, Diff, Backoff, Origins;
      tmr := SetPersist(tmr);
      TcpOutput(true, mem);
    }

    /** `tcp_slowtimo` for this connection: run the four timers down and handle
        those that expire. `expired` tells whether the retransmit timer did. */
    method SlowTimo(mem: nat) returns (expired: bool)
      requires Inv()
      modifies this
      ensures Inv() && Ticked(mem, expired, old(Now()), Now())
    {
      hide Halves, WireOk, SegOk, Expired, GivesUp, Control, SetPersist, Origins;
      expired := false;
      if state.Closed? {
        return;
      }
      OtherTimers(rcv, snd, tmr, seen, given);
      ghost var a := Now();
      expired := RexmtTick(mem);
      if state.Closed? {
        return;
      }
      ghost var b := Now();
      PersistTick(mem);
      ghost var c := Now();
      LateTimers();
      TicksJoin(mem, expired, a, b, c, Now());
    }

    /** The first turn of its loop: the retransmit timer. */
    method RexmtTick(mem: nat) returns (expired: bool)
      requires Inv() && !state.Closed?
      modifies this
      ensures Inv() && RexmtTicked(mem, expired, old(Now()), Now())
    {
      hide Halves, WireOk, SegOk, Expired, GivesUp, Control, Origins;
      OtherTimers(rcv, snd, tmr, seen, given);
      expired := tmr.rexmt == 1;
      if tmr.rexmt > 0 {
        tmr := tmr.(rexmt := tmr.rexmt - 1);
        if tmr.rexmt == 0 {
          RexmtExpires(mem);
        }
      }
    }

    /** The second: the persist timer. */
    method PersistTick(mem: nat)
      requires Inv() && !state.Closed?
      modifies this
      ensures Inv() && PersistTicked(mem, old(Now()), Now())
    {
      hide Halves, WireOk, SegOk, Control, SetPersist, Origins;
      OtherTimers(rcv, snd, tmr, seen, given);
      if tmr.persist > 0 {
        tmr := tmr.(persist := tmr.persist - 1);
        if tmr.persist == 0 {
          PersistExpires(mem);
        }
      }
    }

    /** The keep-alive and 2MSL timers and the idle counters. */
    method LateTimers()
      requires Inv() && !state.Closed?
      modifies this`tmr, this`state
      ensures Inv() && tmr == old(tmr).(keep := tmr.keep, msl2 := tmr.msl2, idle := tmr.idle, rtt := tmr.rtt)
      ensures !state.Closed? ==>
                tmr.idle == old(tmr.idle) + 1 && tmr.rtt == old(tmr.rtt) + (if old(tmr.rtt) > 0 then 1 else 0) &&
                tmr.msl2 == (if old(tmr.msl2) == 1 then TCPTV_KEEPINTVL else Max(old(tmr.msl2) - 1, 0))
      ensures state == if TimeIsUp(old(Now())) then Closed else old(state)
    {
      hide RcvInv, SndInv, WireOk, Origins;
      tmr := tmr.(keep := if tmr.keep == 1 then TCPTV_KEEP_IDLE else Max(tmr.keep - 1, 0));
      if tmr.msl2 > 0 {
        tmr := tmr.(msl2 := tmr.msl2 - 1);
        if tmr.msl2 == 0 {
          if !state.TimeWait? && tmr.idle <= TCP_MAXIDLE {
            tmr := tmr.(msl2 := TCPTV_KEEPINTVL);
          } else {
            state := Closed;
            return;
          }
        }
      }
      tmr := tmr.(idle := tmr.idle + 1, rtt := if tmr.rtt > 0 then tmr.rtt + 1 else 0);
    }

    /** `tcp_fasttimo` for this connection: a delayed ACK is sent now. */
    method FastTimo(mem: nat)
      requires Inv()
      modifies this
      ensures Inv() && Steady(old(Now()), Now())
      ensures state == old(state) && Quiet(old(snd), old(tmr), snd, tmr) && tmr.msl2 == old(tmr.msl2)
      ensures !old(state).Closed? && old(delAck) && mem > 0 ==>
                |old(wire)| < |wire| && !delAck && Reopened(rcv, snd.maxseg, seen)
      ensures old(state).Closed? || !old(delAck) ==> Now() == old(Now())
    {
      hide Halves, WireOk, SegOk, Control, Origins;
      if !state.Closed? && delAck {
        delAck, ackNow := false, true;
        TcpOutput(false, mem);
      }
    }

    /** `tcp_sockclosed`, after one direction of the socket has been shut: send
        our FIN, if that is still to be done. */
    method SockClosed(mem: nat)
      requires Halves(rcv, snd, tmr, seen, given) && !state.Closed? && 32 <= snd.maxseg
      requires Origins(snd.wl1, snd.wl2, seen.base, given.base, from)
      requires WireOk(wire, given.host, given.base) && (given.end.NotEnded? ==> NoFins(wire))
      requires Control(AfterClose(state), so, snd.sentFin, seen.fin, given, seen.lost) && Waits(state, tmr)
      modifies this
      ensures Inv() && Steady(old(Now()), Now())
      ensures Quiet(old(snd), old(tmr), snd, tmr) && so == old(so) && state == AfterClose(old(state))
      ensures tmr.msl2 == old(tmr.msl2) && Ended(mem, Now())
    {
      hide Halves, WireOk, SegOk, Origins;
      match state {
        case Established => state := FinWait1;
        case CloseWait => state := LastAck;
        case _ =>
      }
      TcpOutput(false, mem);
    }

    /** `soread` with data, and the `tcp_output` after it (slirp.c, line 424).
        That no FIN has been sent is a condition the program does not check. */
    method HostGivesData(m: seq<byte>, mem: nat)
      requires Inv() && !state.Closed? && |m| <= snd.cap - |snd.buf| && !snd.sentFin
      modifies this
      ensures Inv() && Quiet(old(snd), old(tmr), snd, tmr) && Onward(old(seen), seen) && state == old(state)
      ensures EdgeKept(old(rcv), old(seen), rcv, seen)
      ensures given == old(given).(host := old(given.host) + m)
      ensures rcv == old(rcv).(adv := rcv.adv) && seen == old(seen).(advPos := seen.advPos) && so == old(so)
      ensures tmr.msl2 == old(tmr.msl2) && SameWindow(old(snd), snd) && from == old(from)
      ensures Shown(old(Now()), Now()) && (mem > 0 ==> Reopened(rcv, snd.maxseg, seen))
      ensures snd.una == old(snd.una) && snd.buf == old(snd.buf) + m && old(wire) <= wire
    {
      hide RcvInv, WireOk, SegOk, Wrap, Diff, USub, Add, Origins;
      HostGives(snd, m, given);
      WireGrows(wire, given.host, m, given.base);
      snd := snd.(buf := snd.buf + m);
      given := given.(host := given.host + m);
      TcpOutput(false, mem);
    }

    /** `soread` at the end of the host's data: close our direction. */
    method HostEnds(mem: nat)
      requires Inv() && !state.Closed?
      modifies this
      ensures Inv() && Steady(old(Now()).(given := EndedNow(old(given), old(seen).fin)), Now())
      ensures Quiet(old(snd), old(tmr), snd, tmr) && so == old(so).CantRcvMore() && tmr.msl2 == old(tmr.msl2)
      ensures state == AfterClose(old(state)) && Ended(mem, Now())
    {
      hide RcvInv, WireOk, SegOk, Wrap, Diff, USub, Add, Origins;
      so := so.CantRcvMore();
      given := EndedNow(given, seen.fin);
      SockClosed(mem);
    }

    /** A failed `sowrite`: the host takes no more. */
    method HostFails(mem: nat)
      requires Inv() && !state.Closed?
      modifies this
      ensures Inv() && Steady(old(Now()).(given := EndedNow(old(given), old(seen).fin)), Now())
      ensures Quiet(old(snd), old(tmr), snd, tmr) && so == old(so).CantSendMore() && tmr.msl2 == old(tmr.msl2)
      ensures state == AfterClose(old(state)) && Ended(mem, Now())
    {
      hide RcvInv, WireOk, SegOk, Wrap, Diff, USub, Add, Origins;
      so := so.CantSendMore();
      given := EndedNow(given, seen.fin);
      SockClosed(mem);
    }

    /** `sowrite`: the host takes the first `n` bytes. A socket that was only
        waiting for its ring to drain is then shut down. */
    method HostTakesData(n: nat)
      requires Inv() && !state.Closed? && n <= |rcv.buf|
      modifies this`rcv, this`so
      ensures Inv() && rcv == old(rcv).(toHost := old(rcv.toHost) + old(rcv.buf)[..n], buf := old(rcv.buf)[n..])
      ensures so == if old(so).fwDrain && rcv.buf == [] then old(so).CantSendMore() else old(so)
    {
      hide RcvInv, SndInv, WireOk, Origins;
      rcv := HostTakes(rcv, n, seen);
      if so.fwDrain && rcv.buf == [] {
        so := so.CantSendMore();
      }
    }

    /** A socket call, whichever it is. */
    method HandleHost(e: Event, mem: nat)
      requires Inv() && (e.HostData? || e.HostEof? || e.HostError? || e.HostWrite?)
      requires Admits(e, state, so, rcv, snd, seen.Nxt(), seen.advPos, seen.base, seen.peer)
      modifies this
      ensures Inv() && Quiet(old(snd), old(tmr), snd, tmr) && Onward(old(seen), seen) && old(wire) <= wire
      ensures given.base == old(given.base) && old(given.host) <= given.host && !state.Closed?
      ensures Does(e, mem, false, old(Now()), Now())
    {
      hide Halves, WireOk, SegOk, Control, Origins;
      match e {
        case HostData(m) => HostGivesData(m, mem);
        case HostEof => HostEnds(mem);
        case HostError => HostFails(mem);
        case HostWrite(n) => HostTakesData(n);
        case _ =>
      }
    }

    /** One event, whichever it is. */
    method Handle(e: Event, mem: nat, io: nat -> int) returns (expired: bool)
      requires Inv() && Admits(e, state, so, rcv, snd, seen.Nxt(), seen.advPos, seen.base, seen.peer)
      modifies this
      ensures Inv() && Onward(old(seen), seen) && EdgeKept(old(rcv), old(seen), rcv, seen) && old(wire) <= wire
      ensures given.base == old(given.base) && old(given.host) <= given.host
      ensures Does(e, mem, expired, old(Now()), Now())
      ensures Follows(Watch(old(Now()), false), Watch(Now(), expired))
    {
      hide Halves, WireOk, SegOk, Control, Effect, Conforms, InReach, FinCut, InTime, Origins, FastResent;
      hide TakesData, EdgeKept, Follows, Ticked;
      expired := false;
      OtherTimers(rcv, snd, tmr, seen, given);
      match e {
        case Arrive(seg, p) => Input(seg, mem, io, p);
        case SlowTick =>
          expired := SlowTimo(mem);
          TickSteady(mem, expired, old(Now()), Now());
        case FastTick => FastTimo(mem);
        case _ => HandleHost(e, mem);
      }
      OtherTimers(rcv, snd, tmr, seen, given);
      EventFollows(e, mem, expired, old(Now()), Now());
    }
  }

  // ----- retransmission -----

  /** The backoff state after one more expiry of the retransmit timer, before
      line 189: the shift grows to 12, then the segment size is halved and the
      shift starts again from 6. */
  function Expired(maxseg: nat, shift: nat): (nat, nat) {
    if shift + 1 > TCP_MAXRXTSHIFT then (maxseg / 2, 6) else (maxseg, shift + 1)
  }

  /** The expiry that drops the connection. */
  predicate GivesUp(maxseg: nat, shift: nat) { shift + 1 > TCP_MAXRXTSHIFT && maxseg / 2 < 32 }

  /** The number of expiries until the connection is dropped, this one included. */
  function ExpiriesLeft(maxseg: nat, shift: nat): (n: nat)
    requires shift <= TCP_MAXRXTSHIFT
    ensures n > 0
    decreases maxseg, TCP_MAXRXTSHIFT - shift
  {
    if GivesUp(maxseg, shift) then 1
    else
      var (m, k) := Expired(maxseg, shift);
      1 + ExpiriesLeft(m, k)
  }

  /** In closed form: the rest of the present round, and seven for every halving
      that leaves at least 32. */
  lemma {:induction false} ExpiriesClosedForm(maxseg: nat, shift: nat)
    requires shift <= TCP_MAXRXTSHIFT
    ensures ExpiriesLeft(maxseg, shift) == TCP_MAXRXTSHIFT - shift + 1 + 7 * Halvings(maxseg)
    decreases maxseg, TCP_MAXRXTSHIFT - shift
  {
    if !GivesUp(maxseg, shift) {
      ExpiriesClosedForm(Expired(maxseg, shift).0, Expired(maxseg, shift).1);
    }
  }

  function Halvings(maxseg: nat): nat { if maxseg / 2 < 32 then 0 else 1 + Halvings(maxseg / 2) }

  /** From the usual Ethernet segment size and no backoff: 48 expiries. */
  lemma {:induction false} EthernetExpiries()
    ensures ExpiriesLeft(1460, 0) == 48
  {
    ExpiriesClosedForm(1460, 0);
    assert Halvings(45) == 0 && Halvings(91) == 1 && Halvings(182) == 2 && Halvings(365) == 3;
  }

  /** The round-trip estimate behind the timeout, and the timeout at a backoff. */
  function Estimate(t: Timers): nat { t.srtt / 8 + t.rttvar }

  function Timeout(est: nat, shift: nat): nat { Clamp(est * Backoff(shift), TCPTV_MIN, TCPTV_REXMTMAX) }

  lemma {:induction false} TimeoutDoubles(est: nat, k: nat)
    requires est > 0 && k >= 1
    ensures Timeout(est, k + 1) == if k < 6 then Min(2 * Timeout(est, k), TCPTV_REXMTMAX) else Timeout(est, k)
  {
    hide Backoff;
    BackoffDoubles(k);
    BackoffDoubles(k - 1);
    Times(1, est, Backoff(k));
    if k < 6 {
      BackoffBelow(k);
      assert est * (2 * Backoff(k)) == 2 * (est * Backoff(k));
    }
  }

  lemma {:induction false} TimeoutTop(est: nat)
    ensures forall k :: k >= 6 ==> Timeout(est, k) == Timeout(est, 6)
  {
  }

  /** Lines 189-209 of tcp_timer.c: the timers after an expiry with backoff `shift`. */
  function BackedOff(t: Timers, shift: nat): (t': Timers)
    requires shift <= TCP_MAXRXTSHIFT && t.persist == 0
    ensures TimersInv(t') && t'.rexmt > 0 && t'.shift == shift && t'.persist == 0 && t'.idle == t.idle
    ensures t'.msl2 == t.msl2 && Estimate(t') == Estimate(t)
  {
    var cur := Timeout(Estimate(t), shift);
    var bogus := shift > TCP_MAXRXTSHIFT / 4;
    t.(shift := shift, cur := cur, rexmt := cur, rtt := 0,
       rttvar := if bogus then t.rttvar + t.srtt / 8 else t.rttvar, srtt := if bogus then 0 else t.srtt)
  }

  /** Lines 205-241 of tcp_timer.c: start again at snd_una, one segment at a time. */
  function SlowStart(s: Snd, maxseg: nat): Snd
    requires maxseg > 0
  {
    var win := Max(s.Win() / 2 / maxseg, 2);
    s.(maxseg := maxseg, nxt := s.una, cwnd := Wrap(maxseg), ssthresh := Wrap(win * maxseg), dupacks := 0)
  }

  /** The first segment sent since `w` is a retransmission of the oldest
      unacknowledged bytes, up to `limit` of them. */
  ghost predicate Resent(w: seq<OutSeg>, w': seq<OutSeg>, una: u32, buf: seq<byte>, limit: nat) {
    |w| < |w'| && w'[|w|].sn == una && w'[|w|].data == buf[..Min(|buf|, limit)]
  }

  /** From snd_una on with a congestion window of one segment. */
  lemma {:induction false} Restart(s: Snd)
    requires s.nxt == s.una && s.cwnd == Wrap(s.maxseg) && 0 < s.maxseg < LIMIT
    ensures s.Off() == 0 && Wrap(s.maxseg) == s.maxseg
    ensures s.buf != [] && s.wnd > 0 ==> Sendable(s) > 0
    ensures forall o :: SendsNext(o, s) ==> o.sn == s.una && o.data == s.buf[..Min(|s.buf|, Min(s.wnd, s.maxseg))]
  {
  }

  lemma {:induction false} SlowStartKeeps(s: Snd, maxseg: nat, h: Given)
    requires SndInv(s, h) && 0 < maxseg <= s.maxseg
    ensures SndInv(SlowStart(s, maxseg), h) && SndInv(s.(maxseg := maxseg), h)
  {
  }

  // ----- header prediction -----

  /** The common part of the guard, lines 436-441 of tcp_input.c. */
  predicate Candidate(seg: Segment, st: State, r: Rcv, s: Snd) {
    && st.Established? && seg.hasAck && !seg.fin && !seg.rst && seg.sn == r.nxt
    && seg.win != 0 && seg.win == s.wnd && s.nxt == s.max
  }

  /** Lines 442-445. */
  predicate PredictsAck(seg: Segment, s: Snd) {
    seg.data == [] && SeqGT(seg.ack, s.una) && SeqLEQ(seg.ack, s.max) && s.cwnd >= s.wnd
  }

  /** Lines 442 and 483-485. */
  predicate PredictsData(seg: Segment, r: Rcv, s: Snd) {
    seg.data != [] && seg.ack == s.una && r.segq == [] && |seg.data| <= r.Space()
  }

  /** Dropping what is acknowledged without touching the congestion or the send
      window is enough when nothing is being resent. */
  lemma {:induction false} FastAckFacts(s: Snd, ack: u32, h: Given)
    requires SndInv(s, h) && !s.sentFin && s.nxt == s.max && SeqGT(ack, s.una) && SeqLEQ(ack, s.max)
    ensures 0 < Diff(ack, s.una) <= s.MaxOff() && Diff(ack, s.una) <= |s.buf|
    ensures SndInv(s.(buf := s.buf[Diff(ack, s.una)..], una := ack), Acknowledge(h, Diff(ack, s.una)))
    ensures !Acknowledge(h, Diff(ack, s.una)).finAcked
  {
    hide Wrap, USub, Add, Diff;
    AckInRange(s, ack);
    AckMoves(s, ack);
    DropAckedFacts(s, ack, h);
  }

  /** A candidate's data lies inside the window as it is. */
  lemma {:induction false} CandidateKept(seg: Segment, p: int, r: Rcv, g: Seen)
    requires RcvInv(r, g) && Arrivable(seg, p, r, g) && seg.sn == r.nxt && !seg.fin && |seg.data| <= r.Space()
    ensures p == g.Nxt() && Kept(r, seg) == Some(Cut(seg.sn, seg.data, false, false))
  {
    hide Wrap, StandFor, QueueOk, Accepted, Presented;
    DiffOfWrap(g.base + p, g.base + g.Nxt());
    DiffAdd(seg.sn, r.nxt);
    LeftMeans(seg, p, g.base, g.Nxt());
    RightMeans(TrimLeft(r.nxt, seg), p, g.base, g.Nxt(), r.Space());
  }

  lemma {:induction false} NothingKept(seg: Segment, p: int, r: Rcv, s: Snd, t: Timers, g: Seen, h: Given)
    requires Halves(r, s, t, g, h) && Arrivable(seg, p, r, g) && seg.sn == r.nxt && !seg.fin && seg.data == []
    ensures r.Space() >= 0 && Kept(r, seg) == Some(Cut(seg.sn, [], false, false))
  {
    hide SndInv, TrimLeft, TrimRight;
    CandidateKept(seg, p, r, g);
  }

  /** The fast paths and the general path agree: whatever has the effect leaves
      the same rcv_nxt, presented bytes, queue, snd_una, ring, state and FIN
      status. */
  lemma {:induction false} EffectDetermines(seg: Segment, p: int, a: Conn, b: Conn, b': Conn)
    requires Effect(seg, p, a, b) && Effect(seg, p, a, b')
    requires Onward(a.seen, b.seen) && Onward(a.seen, b'.seen) && RcvInv(b.rcv, b.seen) && RcvInv(b'.rcv, b'.seen)
    ensures b.rcv.nxt == b'.rcv.nxt && b.rcv.Given() == b'.rcv.Given() && b.rcv.segq == b'.rcv.segq
    ensures b.snd.una == b'.snd.una && b.snd.buf == b'.snd.buf && b.given == b'.given
    ensures b.seen.fin == b'.seen.fin && b.state == b'.state
  {
    hide Wrap, QueueOk, Accepted, Presented, Drain, Insert, TrimLeft, TrimRight;
    hide WindowTaken, WindowLeft, Resends, UserClosed;
    if b.seen.gq == b'.seen.gq {
      SameStands(b.rcv.segq, b'.rcv.segq, b.seen.gq, a.seen.base);
    }
  }

  lemma {:induction false} SameStands(q1: seq<QSeg>, q2: seq<QSeg>, gq: seq<Piece>, base: int)
    requires StandFor(q1, gq, base) && StandFor(q2, gq, base)
    ensures q1 == q2
  {
  }

  /** The segment brings data into the window; it is then acknowledged at once, or
      marked for the fast timer. */
  ghost predicate TakesData(seg: Segment, r: Rcv, s: Snd) {
    && r.Space() >= 0 && seg.hasAck && !seg.rst && Diff(seg.ack, s.una) <= s.MaxOff()
    && Kept(r, seg).Some? && Kept(r, seg).value.data != []
  }

  /** The effect of an arrivable segment, in any state, on what both ends can
      see. It closes the connection, or changes nothing, or has the effect of
      its ACK and of what the window keeps of its text. */
  ghost predicate Effect(seg: Segment, p: int, a: Conn, b: Conn) {
    if a.state.Closed? then b == a
    else
      && a.rcv.Space() >= 0
      && var k := Kept(a.rcv, seg);
         if (a.so.noFd && UserClosed(a.state) && TrimLeft(a.rcv.nxt, seg).data != []) || (k.Some? && seg.rst) then
           b.state.Closed? && Untouched(a, b)
         else if k.None? || !seg.hasAck || Diff(seg.ack, a.snd.una) > a.snd.MaxOff() then
           b.state == a.state && Untouched(a, b)
         else EffectOf(seg, p, k.value, a, b)
  }

  /** Neither stream moves. */
  ghost predicate Untouched(a: Conn, b: Conn) {
    && b.rcv == a.rcv.(adv := b.rcv.adv) && b.seen == a.seen.(advPos := b.seen.advPos)
    && b.snd.una == a.snd.una && b.snd.buf == a.snd.buf && b.given == a.given
    && SameWindow(a.snd, b.snd) && b.from == a.from
  }

  /** The acknowledged bytes leave the send ring; our FIN, if acknowledged, moves
      the state on; the text that lies in the window is accepted and, once
      contiguous, handed to the socket; the peer's FIN moves the state on. An
      ACK that makes us resend goes no further. */
  ghost predicate EffectOf(seg: Segment, p: int, c: Cut, a: Conn, b: Conn) {
    && Acked(seg.ack, a.snd, a.given, b.snd, b.given)
    && var st := AfterFinAck(a.state, b.given.finAcked);
       if st.Closed? || Resends(seg, c, a.snd, a.tmr) then
         && b.state == st && b.rcv == a.rcv.(adv := b.rcv.adv) && b.seen == a.seen.(advPos := b.seen.advPos)
         && b.from == a.from && b.snd.wnd == WindowLeft(seg.ack, a.snd)
       else
         && TextTaken(seg, p, c, a.so, a.rcv, a.seen, b.rcv, b.seen)
         && b.state == AfterText(st, b.seen.fin && !a.seen.fin)
         && WindowTaken(seg, p, c, a, b)
  }

  /** The send window is the segment's, or, if the segment is not newer than the
      one the window was last taken from, what its ACK leaves of the old one.
      Header prediction is for segments with the same window, and keeps it. */
  ghost predicate WindowTaken(seg: Segment, p: int, c: Cut, a: Conn, b: Conn) {
    var left := WindowLeft(seg.ack, a.snd);
    if NewerWindow(a.snd.(wnd := left), c.sn, seg.ack, seg.win) then
      b.snd.wnd == seg.win &&
      ((b.snd.maxWnd == Max(a.snd.maxWnd, seg.win) &&
        b.from == Origin(CutAt(seg, p, a.seen.Nxt()), AckAt(seg.ack, a.snd, a.given))) ||
       (Predicted(seg, a) && b.from == a.from))
    else (b.snd.wnd == left || (Predicted(seg, a) && b.snd.wnd == seg.win)) && b.from == a.from
  }

  /** Header prediction takes the segment. */
  predicate Predicted(seg: Segment, a: Conn) {
    Candidate(seg, a.state, a.rcv, a.snd) && (PredictsAck(seg, a.snd) || PredictsData(seg, a.rcv, a.snd))
  }

  /** Where the left trim leaves the beginning of a segment at `p`. */
  function CutAt(seg: Segment, p: int, n: int): int { if p >= n then p else Min(n, p + |seg.data|) }

  /** The place in our stream, FIN included, that an ACK stands for. */
  function AckAt(ack: u32, s: Snd, h: Given): int { h.una + (if h.finAcked then 1 else 0) + Diff(ack, s.una) }

  /** (`at`, `k`, `win`) lies above where the send window was taken from and what
      is left of it, in this order. */
  predicate Above(at: int, k: int, win: int, f: Origin, left: int) {
    at > f.sn || (at == f.sn && (k > f.ack || (k == f.ack && win > left)))
  }

  /** The send window in terms of the two streams: a segment of which the window
      keeps something and whose ACK is in range gives it if it lies above the
      last one that did, and header prediction keeps it; any other leaves what
      its ACK does. Both places must be near the last ones. */
  ghost predicate WindowFollows(seg: Segment, p: int, a: Conn, b: Conn) {
    var at, k := CutAt(seg, p, a.seen.Nxt()), AckAt(seg.ack, a.snd, a.given);
    var left := WindowLeft(seg.ack, a.snd);
    !b.state.Closed? && a.rcv.Space() >= 0 && Kept(a.rcv, seg).Some? && seg.hasAck &&
    Diff(seg.ack, a.snd.una) <= a.snd.MaxOff() && Near(at, a.from.sn) && Near(k, a.from.ack) ==>
      b.snd.wnd == if Above(at, k, seg.win, a.from, left) || Predicted(seg, a) then seg.win else left
  }

  /** The tests of lines 1099-1102 compare those places. */
  lemma {:induction false} NewerMeans(s: Snd, base: int, hbase: int, f: Origin, at: int, k: int, win: u16)
    requires Origins(s.wl1, s.wl2, base, hbase, f) && Near(at, f.sn) && Near(k, f.ack)
    ensures NewerWindow(s, Wrap(base + at), Wrap(hbase + k), win) <==> Above(at, k, win, f, s.wnd)
  {
    hide Wrap, SeqLT;
    NearOrder(base + at, base + f.sn);
    NearOrder(hbase + k, hbase + f.ack);
  }

  /** The nearness is needed: header prediction does not record where it took
      segments, and more than half the space beyond the last one recorded no
      window is taken. */
  lemma {:induction false} StaleWindow(s: Snd, base: int, hbase: int, f: Origin, ack: u32, win: u16)
    requires Origins(s.wl1, s.wl2, base, hbase, f)
    ensures !NewerWindow(s, Wrap(base + f.sn + HALF + 1), ack, win)
  {
    OrderExact(base + f.sn + HALF + 1, base + f.sn);
    WrapSub(base + f.sn + HALF + 1, base + f.sn);
  }

  lemma {:induction false} KeptAt(s: Segment, p: int, c: Cut, r: Rcv, snd: Snd, t: Timers, g: Seen, h: Given)
    requires Halves(r, snd, t, g, h) && Arrivable(s, p, r, g) && Kept(r, s) == Some(c)
    ensures c.sn == Wrap(g.base + CutAt(s, p, g.Nxt()))
  {
    hide Wrap, TrimLeft, SndInv, StandFor, QueueOk, Accepted, Presented;
    LeftMeans(s, p, g.base, g.Nxt());
  }

  lemma {:induction false} AckStands(ack: u32, r: Rcv, s: Snd, t: Timers, g: Seen, h: Given)
    requires Halves(r, s, t, g, h)
    ensures ack == Wrap(h.base + AckAt(ack, s, h))
  {
    hide Wrap, Diff, Add, RcvInv;
    DiffAdd(ack, s.una);
    AddOfWrap(h.base + h.una + if h.finAcked then 1 else 0, Diff(ack, s.una));
  }

  lemma {:induction false} WindowMeans(seg: Segment, p: int, a: Conn, b: Conn)
    requires Good(a) && Arrivable(seg, p, a.rcv, a.seen) && Effect(seg, p, a, b)
    requires Predicted(seg, a) ==> b.snd.wnd == seg.win
    ensures WindowFollows(seg, p, a, b)
  {
    hide Halves, WireOk, Control, Acked, TextTaken, Diff, Wrap, Candidate, PredictsAck, PredictsData, Above;
    hide TrimLeft, TrimRight, Arrivable, CutAt, AckAt, NewerWindow, NoFins, Near, Origins;
    var at, k := CutAt(seg, p, a.seen.Nxt()), AckAt(seg.ack, a.snd, a.given);
    var s := a.snd.(wnd := WindowLeft(seg.ack, a.snd));
    if a.rcv.Space() >= 0 && Kept(a.rcv, seg).Some? && Near(at, a.from.sn) && Near(k, a.from.ack) {
      KeptAt(seg, p, Kept(a.rcv, seg).value, a.rcv, a.snd, a.tmr, a.seen, a.given);
      AckStands(seg.ack, a.rcv, a.snd, a.tmr, a.seen, a.given);
      NewerMeans(s, a.seen.base, a.given.base, a.from, at, k, seg.win);
      ResendSame(seg, Kept(a.rcv, seg).value, a.snd, a.tmr);
    }
  }

  /** An ACK that makes us resend brings the window we have. */
  lemma {:induction false} ResendSame(seg: Segment, c: Cut, s: Snd, t: Timers)
    ensures Resends(seg, c, s, t) ==> WindowLeft(seg.ack, s) == s.wnd == seg.win
  {
  }

  /** Of the state before, flags and other timers do not matter. */
  ghost predicate Alike(a: Conn, a': Conn) {
    a' == a.(ackNow := a'.ackNow, delAck := a'.delAck, tmr := a'.tmr) && a'.tmr.rexmt == a.tmr.rexmt
  }

  lemma {:induction false} EffectOfFrom(seg: Segment, p: int, c: Cut, a: Conn, a': Conn, b: Conn)
    requires Alike(a, a')
    ensures EffectOf(seg, p, c, a', b) ==> EffectOf(seg, p, c, a, b)
    ensures Untouched(a', b) ==> Untouched(a, b)
    ensures forall mem :: FastResent(seg, mem, a', b) ==> FastResent(seg, mem, a, b)
  {
    hide Acked, TextTaken, Resent, Outstanding, TrimLeft, TrimRight;
  }

  lemma {:induction false} EffectFrom(seg: Segment, p: int, a: Conn, a': Conn, b: Conn)
    requires Alike(a, a') && !a.state.Closed? && Effect(seg, p, a', b)
    ensures Effect(seg, p, a, b)
    ensures forall mem :: FastResent(seg, mem, a', b) ==> FastResent(seg, mem, a, b)
  {
    hide EffectOf, Untouched, TrimLeft, TrimRight, FastResent;
    if a.rcv.Space() >= 0 {
      var k := Kept(a.rcv, seg);
      EffectOfFrom(seg, p, if k.Some? then k.value else Cut(0, [], false, false), a, a', b);
    }
  }

  lemma {:induction false} ClosedEffect(seg: Segment, p: int, a: Conn)
    requires a.state.Closed?
    ensures Effect(seg, p, a, a) && WindowFollows(seg, p, a, a) && forall mem :: FastResent(seg, mem, a, a)
  {
  }

  /** A segment kept whole on an established connection. */
  lemma {:induction false} PredictedEffect(seg: Segment, p: int, a: Conn, b: Conn)
    requires a.state.Established? && b.state.Established? && !a.so.noFd && !a.so.cantSend && a.rcv.Space() >= 0
    requires var c := Cut(seg.sn, seg.data, false, false);
             Kept(a.rcv, seg) == Some(c) && TextTaken(seg, p, c, a.so, a.rcv, a.seen, b.rcv, b.seen) &&
             !Resends(seg, c, a.snd, a.tmr)
    requires seg.hasAck && !seg.rst && Diff(seg.ack, a.snd.una) <= a.snd.MaxOff()
    requires Acked(seg.ack, a.snd, a.given, b.snd, b.given)
    requires !b.given.finAcked && !b.seen.fin && b.snd.wnd == seg.win && b.from == a.from && Predicted(seg, a)
    ensures Effect(seg, p, a, b) && forall mem :: FastResent(seg, mem, a, b)
  {
    hide Acked, TextTaken, TrimLeft, TrimRight, Predicted, NewerWindow, Outstanding;
  }

  /** Data is outstanding that the peer has room for. */
  predicate Outstanding(s: Snd) { 0 < s.MaxOff() && s.buf != [] && s.wnd > 0 }

  /** The third duplicate ACK makes us resend the oldest unacknowledged bytes. */
  ghost predicate ThirdResent(seg: Segment, c: Cut, mem: nat, s: Snd, t: Timers, w: seq<OutSeg>, w': seq<OutSeg>) {
    mem > 0 && Outstanding(s) && Resends(seg, c, s, t) && s.dupacks + 1 == TCPREXMTTHRESH ==>
      Resent(w, w', s.una, s.buf, Min(s.wnd, s.maxseg))
  }

  ghost predicate FastResent(seg: Segment, mem: nat, a: Conn, b: Conn) {
    !b.state.Closed? && a.rcv.Space() >= 0 && Kept(a.rcv, seg).Some? && seg.hasAck ==>
      ThirdResent(seg, Kept(a.rcv, seg).value, mem, a.snd, a.tmr, a.wire, b.wire)
  }

  /** The third or a later duplicate ACK. */
  predicate Resends(seg: Segment, c: Cut, s: Snd, t: Timers) {
    c.data == [] && seg.win == s.wnd && seg.ack == s.una && t.rexmt > 0 && s.dupacks + 1 >= TCPREXMTTHRESH
  }

  ghost predicate Acked(ack: u32, s: Snd, h: Given, s': Snd, h': Given) {
    if Diff(ack, s.una) <= 0 then s'.una == s.una && s'.buf == s.buf && h' == h
    else
      && s'.una == ack && s'.buf == s.buf[Min(Diff(ack, s.una), |s.buf|)..]
      && h.una <= |h.host| && h' == Acknowledge(h, Diff(ack, s.una))
  }

  lemma {:induction false} AckedFins(s: Snd, h: Given)
    requires SndInv(s, h)
    ensures h.finAcked ==> s.sentFin
  {
  }

  lemma {:induction false} EdgeStays(r: Rcv, g: Seen, r': Rcv, g': Seen)
    requires r' == r.(adv := r'.adv) && g' == g.(advPos := g'.advPos)
    ensures EdgeKept(r, g, r', g')
  {
  }

  lemma {:induction false} StillUserClosed(st: State, finAcked: bool)
    ensures UserClosed(AfterFinAck(st, finAcked)) <==> UserClosed(st)
  {
  }

  /** Lines 516-521: the advertised window never exceeds the free space. */
  lemma {:induction false} WndIsSpace(r: Rcv, s: Snd, t: Timers, g: Seen, h: Given)
    requires Halves(r, s, t, g, h)
    ensures 0 <= r.Space() && Diff(r.adv, r.nxt) <= r.Space() && h.una <= |h.host| && 0 <= s.MaxOff()
  {
    hide Wrap, QueueOk, StandFor, Accepted, Presented;
    DiffOfWrap(g.base + g.advPos, g.base + g.Nxt());
  }

  lemma {:induction false} FreshReceiver(r: Rcv, g: Seen)
    requires r == Rcv(Wrap(g.base), Wrap(g.base + g.advPos), [], [], r.cap, [])
    requires g == Seen(g.peer, g.base, 0, false, [], iset{}, g.advPos, false) && 0 <= g.advPos <= r.cap < LIMIT
    ensures RcvInv(r, g)
  {
    hide Wrap;
  }

  lemma {:induction false} FreshSender(s: Snd, h: Given)
    requires h == Given([], h.base, 0, false, h.end) && s.cap < LIMIT && s.maxseg < LIMIT
    requires s.una == Wrap(h.base) && s.nxt == s.una && s.max == s.una && s.buf == [] && !s.sentFin
    ensures SndInv(s, h)
  {
  }

  /** The timers matter to the invariant only through theirs. */
  lemma {:induction false} OtherTimers(r: Rcv, s: Snd, t: Timers, g: Seen, h: Given)
    requires Halves(r, s, t, g, h)
    ensures TimersInv(t) && forall t' :: TimersInv(t') ==> Halves(r, s, t', g, h)
  {
  }

  lemma {:induction false} LessData(r: Rcv, s: Segment, snd: Snd)
    requires r.Space() >= 0
    ensures Kept(r, s) == TrimRight(r.nxt, r.Space(), TrimLeft(r.nxt, s))
    ensures Kept(r, s).Some? && TrimLeft(r.nxt, s).data == [] ==> Kept(r, s).value.data == []
    ensures Kept(r, s).None? ==> !TakesData(s, r, snd)
  {
  }

  /** The cases of `Effect`. */
  lemma {:induction false} WholeEffect(seg: Segment, p: int, a: Conn, b: Conn)
    requires !a.state.Closed? && a.rcv.Space() >= 0
    requires var k := Kept(a.rcv, seg);
             if a.so.noFd && UserClosed(a.state) && TrimLeft(a.rcv.nxt, seg).data != [] then
               b.state.Closed? && Untouched(a, b)
             else if k.None? then b.state == a.state && Untouched(a, b)
             else if seg.rst then b.state.Closed? && Untouched(a, b)
             else if !seg.hasAck || Diff(seg.ack, a.snd.una) > a.snd.MaxOff() then b.state == a.state && Untouched(a, b)
             else EffectOf(seg, p, k.value, a, b)
    ensures Effect(seg, p, a, b)
  {
    hide EffectOf, TrimLeft, TrimRight;
  }

  /** What a segment's text and FIN do, before or after the closing output. */
  ghost predicate TextTaken(seg: Segment, p: int, c: Cut, so: Sock, r: Rcv, g: Seen, r': Rcv, g': Seen) {
    var piece := KeptPiece(seg, p, c, g);
    if HasText(c) then
      && !g.fin && Took(g, g', piece) && g'.fin == DueFin(g, piece)
      && r'.Given() == r.Given() + if so.cantSend then [] else Due(g, piece)
    else g' == g.(advPos := g'.advPos) && r' == r.(adv := r'.adv)
  }

  lemma {:induction false} TextThenOutput(seg: Segment, p: int, c: Cut, k: int, a: Conn, m: Conn, b: Conn)
    requires TextDone(seg, p, c, k, a, m) && m.wire == a.wire && b.state == m.state && b.from == m.from
    requires b.rcv == m.rcv.(adv := b.rcv.adv) && b.seen == m.seen.(advPos := b.seen.advPos)
    requires Quiet(m.snd, m.tmr, b.snd, b.tmr) && Onward(m.seen, b.seen) && EdgeKept(m.rcv, m.seen, b.rcv, b.seen)
    requires b.snd.una == m.snd.una && b.snd.buf == m.snd.buf && b.given == m.given && m.wire <= b.wire
    requires b.tmr.msl2 == m.tmr.msl2 && SameWindow(m.snd, b.snd) && Shown(m, b)
    requires m.tmr.persist == 0 || a.tmr.persist > 0
    ensures TextDone(seg, p, c, k, a, b)
  {
    hide NewerWindow, Due, DueFin, Took, Current;
    TookAdv(a.seen, m.seen, b.seen, KeptPiece(seg, p, c, a.seen));
  }

  lemma {:induction false} TookAdv(g: Seen, g1: Seen, g2: Seen, p: Piece)
    requires g2 == g1.(advPos := g2.advPos)
    ensures Took(g, g1, p) ==> Took(g, g2, p)
  {
  }

  /** The test of lines 1099-1102: the segment is newer than the one the send
      window was last taken from. */
  predicate NewerWindow(s: Snd, sn: u32, ack: u32, win: u16) {
    SeqLT(s.wl1, sn) || (s.wl1 == sn && (SeqLT(s.wl2, ack) || (s.wl2 == ack && win > s.wnd)))
  }

  function WithWindow(s: Snd, sn: u32, ack: u32, win: u16): Snd {
    s.(wnd := win, wl1 := sn, wl2 := ack, maxWnd := Max(s.maxWnd, win))
  }

  /** The send window after a segment, if its ACK leaves it as it is in `s`. */
  function WindowStep(s: Snd, sn: u32, ack: u32, win: u16): Snd {
    if NewerWindow(s, sn, ack, win) then WithWindow(s, sn, ack, win) else s
  }

  /** A segment's window counts once: seen again it is not newer, and a segment
      that begins before the last one taken is not either. */
  lemma {:induction false} WindowOnce(s: Snd, sn: u32, ack: u32, win: u16, sn': u32, ack': u32, win': u16)
    ensures !NewerWindow(WithWindow(s, sn, ack, win), sn, ack, win)
    ensures SeqLT(sn', sn) && Diff(sn', sn) > -HALF ==> !NewerWindow(WithWindow(s, sn, ack, win), sn', ack', win')
  {
  }

  lemma {:induction false} WindowKeeps(r: Rcv, s: Snd, t: Timers, g: Seen, h: Given, sn: u32, ack: u32, win: u16)
    requires Halves(r, s, t, g, h)
    ensures Halves(r, WithWindow(s, sn, ack, win), t, g, h)
  {
  }

  // ----- an arriving segment against the receive window -----

  /** What is left of `s` after both trims (None: only an ACK goes back). The
      window is max(free space, advertised); the invariant makes that the free
      space. */
  function Kept(r: Rcv, s: Segment): Option<Cut>
    requires r.Space() >= 0
  {
    TrimRight(r.nxt, r.Space(), TrimLeft(r.nxt, s))
  }

  predicate HasText(c: Cut) { c.data != [] || c.fin }

  /** The piece of the stream that `c` carries. */
  ghost function KeptPiece(s: Segment, p: int, c: Cut, g: Seen): Piece {
    Piece(Max(p, g.Nxt()), c.data, s.fin)
  }

  /** The part of the segment that lies inside the window (of size `wnd` from `n`
      on), if any, does not take the receiver 2^31 past the advertised edge `a`. */
  predicate InTime(s: Segment, p: int, n: int, wnd: int, a: int) {
    n + wnd < p || Min(p + |s.data|, n + wnd) <= a + OVERRUN
  }

  /** A segment the theorems are about: it carries a slice of the peer's stream
      at `p`, lies within 2^31 of the next expected byte, does not take the
      receiver 2^31 past what it advertised, and is not a FIN-bearing segment
      cut at the window's right edge. */
  ghost predicate Arrivable(s: Segment, p: int, r: Rcv, g: Seen) {
    && r.Space() >= 0
    && Conforms(s, p, g.base, g.peer) && InReach(s, p, g.Nxt())
    && (s.hasAck && !s.rst ==> !FinCut(s, p, g.Nxt(), r.Space()) && InTime(s, p, g.Nxt(), r.Space(), g.advPos))
  }

  /** Bytes that become presentable with `p`, and whether the FIN does. */
  ghost function Due(g: Seen, p: Piece): seq<byte> { Drain(Insert(g.gq, p), g.pos).data }

  ghost function DueFin(g: Seen, p: Piece): bool { Drain(Insert(g.gq, p), g.pos).fin }

  lemma {:induction false} DueFits(r: Rcv, g: Seen, p: Piece)
    requires RcvInv(r, g) && Acceptable(r, g, p)
    ensures |Due(g, p)| <= r.Space()
  {
    hide Insert, Drain, Has, StandFor, Accepted, Presented;
    ReassFacts(g.gq, g.pos, Edge(r, g), p, g.peer);
  }

  /** The backoff is reset only by an ACK or on leaving persist state, and the
      round-trip estimate changes only with an ACK. */
  ghost predicate Quiet(s: Snd, t: Timers, s': Snd, t': Timers) {
    && s'.maxseg == s.maxseg && (t.persist == 0 && t'.persist == 0 && s'.una == s.una ==> t'.shift == t.shift)
    && (s'.una == s.una ==> t'.cur == t.cur && Estimate(t') == Estimate(t))
  }

  /** The receiver moves forward only, less than a quarter of the sequence space
      at a time. */
  ghost predicate Onward(g: Seen, g': Seen) {
    && g'.peer == g.peer && g'.base == g.base
    && g.Nxt() <= g'.Nxt() <= g.Nxt() + LIMIT && g.advPos <= g'.advPos
  }

  /** The receive window's right edge, rcv_nxt plus the free space, never moves
      left. */
  ghost predicate EdgeKept(r: Rcv, g: Seen, r': Rcv, g': Seen) { g.Nxt() + r.Space() <= g'.Nxt() + r'.Space() }

  /** What the clock and the socket calls do at most: neither stream moves, more
      segments may have been sent. */
  ghost predicate Steady(a: Conn, b: Conn) {
    Untouched(a, b) && a.seen.advPos <= b.seen.advPos && a.wire <= b.wire && Shown(a, b)
  }

  /** The last segment sent since `a`, if there is one, tells the peer where the
      receiver stands: all that has been received in order is acknowledged, and
      the window is as far open as it can be. */
  ghost predicate Shown(a: Conn, b: Conn) { LastShows(a.wire, b.wire, b.rcv, b.snd.maxseg, a.seen, b.seen) }

  /** What `tcp_output` does to a connection. */
  ghost predicate Outputs(force: bool, mem: nat, a: Conn, b: Conn) {
    && OnlyOutput(a.rcv, b.rcv, a.snd, b.snd, a.tmr, b.tmr, a.seen, b.seen)
    && b.(rcv := a.rcv, snd := a.snd, tmr := a.tmr, ackNow := a.ackNow, delAck := a.delAck, wire := a.wire,
          seen := a.seen) == a
    && b.snd.cwnd == (if a.snd.max == a.snd.una && a.tmr.idle >= a.tmr.cur then Wrap(a.snd.maxseg) else a.snd.cwnd)
    && a.wire <= b.wire && (forall i :: |a.wire| <= i < |b.wire| ==> SegOk(b.wire[i], b.rcv.nxt, b.given))
    && (a.ackNow && mem > 0 ==> |a.wire| < |b.wire| && !b.ackNow && !b.delAck)
    && (!force && mem > |b.snd.buf| && b.snd.Win() >= |b.snd.buf| ==>
          b.snd.Off() >= |b.snd.buf| && (SendsFin(b.state) ==> b.snd.sentFin))
    && (|b.wire| == |a.wire| ==> b.ackNow == a.ackNow && b.delAck == a.delAck)
    && Starts(force, mem, a.rcv, a.snd, b.snd.cwnd, a.wire, b.wire)
    && Shown(a, b) && (mem > 0 ==> Reopened(b.rcv, b.snd.maxseg, b.seen))
    && (force && a.snd.wnd == 0 && a.tmr.persist > 0 ==> b.tmr.persist == a.tmr.persist)
    && (!force ==> Quiet(a.snd, a.tmr, b.snd, b.tmr))
    && Onward(a.seen, b.seen) && EdgeKept(a.rcv, a.seen, b.rcv, b.seen)
    && (!force && a.tmr.persist == 0 ==> b.tmr.persist == 0 || b.tmr.persist >= TCPTV_PERSMIN)
  }

  /** The connection after it has sent `out`. */
  ghost function WithSent(a: Conn, r: Rcv, s: Snd, t: Timers, out: seq<OutSeg>, g: Seen): Conn {
    a.(rcv := r, snd := s, tmr := t, seen := g, wire := a.wire + out,
       ackNow := out == [] && a.ackNow, delAck := out == [] && a.delAck)
  }

  lemma {:induction false} OutputDone(force: bool, mem: nat, a: Conn, r: Rcv, s: Snd, t: Timers, out: seq<OutSeg>,
                                      g: Seen)
    requires Good(a) && !a.state.Closed? && Halves(r, s, t, g, a.given)
    requires Sent(a.rcv, a.snd, a.tmr, force, SendsFin(a.state), a.ackNow, mem, a.seen, a.given, r, s, t, out, g)
    ensures Good(WithSent(a, r, s, t, out, g)) && Outputs(force, mem, a, WithSent(a, r, s, t, out, g))
  {
    var b := WithSent(a, r, s, t, out, g);
    hide Halves, SegOk, Wrap, Diff, Starts, Origins, Told, LastShows, Reopened, Control, NoFins, WireOk;
    hide Quiet, Onward, EdgeKept, Waits;
    WireJoin(a.wire, out, b.rcv.nxt, a.given);
    OutputMoves(force, a.rcv, b.rcv, a.snd, b.snd, a.tmr, b.tmr, a.seen, b.seen, a.state);
    OutputFins(a.state, a.so, a.snd.sentFin, b.snd.sentFin, b.seen.fin, a.given, b.seen.lost, a.wire, out);
    OutputShows(force, mem, a.rcv, b.rcv, a.snd, b.snd, a.tmr, a.seen, b.seen, a.given, a.wire, out);
    StartsAfter(force, mem, a.rcv, a.snd, b.snd.cwnd, a.wire, out);
  }

  lemma {:induction false} OutputMoves(force: bool, r: Rcv, r': Rcv, s: Snd, s': Snd, t: Timers, t': Timers, g: Seen,
                                       g': Seen, st: State)
    requires OnlyOutput(r, r', s, s', t, t', g, g')
    requires !force && t.persist == 0 && t'.persist == 0 ==> t'.shift == t.shift
    ensures (!force ==> Quiet(s, t, s', t')) && Onward(g, g') && EdgeKept(r, g, r', g')
    ensures Waits(st, t) ==> Waits(st, t')
  {
    hide Diff;
  }

  /** Output sends a FIN only in a state that has one to send. */
  lemma {:induction false} OutputFins(st: State, so: Sock, sentFin: bool, sentFin': bool, finSeen: bool, h: Given,
                                      lost: bool, w: seq<OutSeg>, out: seq<OutSeg>)
    requires Control(st, so, sentFin, finSeen, h, lost) && !st.Closed? && (sentFin' ==> sentFin || SendsFin(st))
    requires forall i :: 0 <= i < |out| ==> (out[i].fin ==> SendsFin(st))
    ensures Control(st, so, sentFin', finSeen, h, lost)
    ensures h.end.NotEnded? && NoFins(w) ==> NoFins(w + out)
  {
  }

  lemma {:induction false} OutputShows(force: bool, mem: nat, r: Rcv, r': Rcv, s: Snd, s': Snd, t: Timers, g: Seen,
                                       g': Seen, h: Given, w: seq<OutSeg>, out: seq<OutSeg>)
    requires Halves(r, s, t, g, h) && Starts(force, mem, r, s, s'.cwnd, [], out) && Told(r, s.maxseg, g, g', out)
    requires r' == r.(adv := r'.adv) && s'.maxseg == s.maxseg
    requires forall i :: 0 <= i < |out| ==> SegOk(out[i], r.nxt, h)
    ensures LastShows(w, w + out, r', s'.maxseg, g, g') && (mem > 0 ==> Reopened(r', s'.maxseg, g'))
  {
    hide RcvInv, SndInv, Starts, Told, Reopened, RightBytes, LastShows;
    ToldLast(r, r', s.maxseg, g, g', w, out);
    if mem > 0 {
      Reopens(force, mem, r, s, s'.cwnd, g, r', g', out);
    }
  }

  /** What any segment does at most. In particular no byte leaves the send ring,
      and snd_una does not move, except by an ACK of it. */
  ghost predicate Moved(ack: u32, a: Conn, b: Conn) {
    && Quiet(a.snd, a.tmr, b.snd, b.tmr) && Onward(a.seen, b.seen) && EdgeKept(a.rcv, a.seen, b.rcv, b.seen)
    && b.given.host == a.given.host && b.given.base == a.given.base && a.wire <= b.wire
    && ((b.snd.una == a.snd.una && b.snd.buf == a.snd.buf && b.given == a.given) ||
        (0 < Diff(ack, a.snd.una) <= a.snd.MaxOff() && Acked(ack, a.snd, a.given, b.snd, b.given)))
    && (a.state.TimeWait? && !b.state.Closed? ==> b.tmr.msl2 == a.tmr.msl2) && Shown(a, b)
  }

  /** What an ACK field has done, and how processing goes on: not at all after an
      ACK of what was never sent, with the text unless the connection is closed
      or we had to resend. */
  ghost predicate AckDone(seg: Segment, c: Cut, v: Verdict, a: Conn, b: Conn) {
    if Diff(seg.ack, a.snd.una) > a.snd.MaxOff() then
      v.AfterAck? && b.state == a.state && b.tmr == a.tmr && Untouched(a, b) && b.wire == a.wire
    else
      && Acked(seg.ack, a.snd, a.given, b.snd, b.given) && b.state == AfterFinAck(a.state, b.given.finAcked)
      && (v.Stop? <==> b.state.Closed? || Resends(seg, c, a.snd, a.tmr)) && !v.AfterAck?
      && b.rcv == a.rcv.(adv := b.rcv.adv) && b.seen == a.seen.(advPos := b.seen.advPos)
      && (v.GoOn? ==> b.rcv == a.rcv && b.seen == a.seen && b.so == a.so && b.wire == a.wire &&
                      (a.tmr.persist == 0 ==> b.tmr.persist == 0))
      && SameWindow(a.snd.(wnd := WindowLeft(seg.ack, a.snd)), b.snd) && b.from == a.from
  }

  /** What an ACK leaves of the send window until the segment's own is taken. */
  function WindowLeft(ack: u32, s: Snd): u32 {
    if Diff(ack, s.una) > 0 then Wrap(s.wnd - Min(Diff(ack, s.una), |s.buf|)) else s.wnd
  }

  ghost predicate SameWindow(s: Snd, s': Snd) {
    s'.wnd == s.wnd && s'.wl1 == s.wl1 && s'.wl2 == s.wl2 && s'.maxWnd == s.maxWnd
  }

  /** What the text step does to the rest. */
  ghost predicate TextDone(seg: Segment, p: int, c: Cut, k: int, a: Conn, b: Conn) {
    && TextTaken(seg, p, c, a.so, a.rcv, a.seen, b.rcv, b.seen)
    && b.state == AfterText(a.state, b.seen.fin && !a.seen.fin)
    && Quiet(a.snd, a.tmr, b.snd, b.tmr) && Onward(a.seen, b.seen) && EdgeKept(a.rcv, a.seen, b.rcv, b.seen)
    && b.snd.una == a.snd.una && b.snd.buf == a.snd.buf && b.given == a.given && a.wire <= b.wire
    && (a.state.TimeWait? ==> b.tmr.msl2 == a.tmr.msl2) && Shown(a, b)
    && SameWindow(WindowStep(a.snd, c.sn, seg.ack, seg.win), b.snd)
    && b.from == if NewerWindow(a.snd, c.sn, seg.ack, seg.win) then Origin(CutAt(seg, p, a.seen.Nxt()), k) else a.from
  }

  lemma {:induction false} AckThenText(seg: Segment, p: int, c: Cut, v: Verdict, k: int, a: Conn, m: Conn, b: Conn)
    requires AckDone(seg, c, v, a, m) && v.GoOn? && Moved(seg.ack, a, m) && TextDone(seg, p, c, k, m, b)
    requires k == AckAt(seg.ack, a.snd, a.given)
    ensures Moved(seg.ack, a, b) && EffectOf(seg, p, c, a, b)
  {
    hide Acknowledge, TextTaken, Diff, Took, Due;
  }

  lemma {:induction false} AckThenOutput(ack: u32, a: Conn, m: Conn, b: Conn)
    requires Moved(ack, a, m) && Untouched(a, m) && m.tmr == a.tmr && b.tmr.msl2 == m.tmr.msl2
    requires m.wire == a.wire && Shown(m, b)
    requires Quiet(m.snd, m.tmr, b.snd, b.tmr) && Untouched(m, b) && m.seen.advPos <= b.seen.advPos && m.wire <= b.wire
    ensures Moved(ack, a, b) && Untouched(a, b)
  {
    hide Diff;
  }

  /** Nothing more is done with a segment after an ACK that stops it. */
  lemma {:induction false} AckOnly(seg: Segment, p: int, c: Cut, v: Verdict, a: Conn, b: Conn)
    requires AckDone(seg, c, v, a, b) && v.Stop?
    ensures EffectOf(seg, p, c, a, b)
  {
    hide Acked, TextTaken, Diff;
  }

  /** `p` has been accepted, and everything contiguous presented. */
  ghost predicate Took(g: Seen, g': Seen, p: Piece) {
    var d := Drain(Insert(g.gq, p), g.pos);
    g'.accepted == g.accepted + Positions(p) && g'.pos == g.pos + |d.data| && g'.gq == d.rest
  }

  /** What trimming keeps of an arrivable segment may be queued; nothing is kept
      once the FIN has been consumed. */
  lemma {:induction false} KeptAcceptable(s: Segment, p: int, r: Rcv, g: Seen)
    requires RcvInv(r, g) && Arrivable(s, p, r, g) && s.hasAck && !s.rst
    ensures var k := Kept(r, s); k.Some? && HasText(k.value) ==>
              !g.fin && Acceptable(r, g, KeptPiece(s, p, k.value, g)) &&
              Stands(QSeg(k.value.sn, k.value.data, s.fin), KeptPiece(s, p, k.value, g), g.base)
  {
    hide Wrap, TrimLeft, TrimRight, StandFor, QueueOk, Accepted, Presented;
    TrimMeans(s, p, g.base, g.Nxt(), r.Space(), g.peer);
  }

  /** Lines 991-1004: take a round-trip sample, stop or restart the retransmit
      timer. */
  function TimersAfterAck(t: Timers, s: Snd, ack: u32): (t': Timers)
    ensures TimersInv(t) ==> TimersInv(t')
  {
    var t1 := if t.rtt > 0 && SeqGT(ack, t.rtseq) then XmitTimer(t) else t;
    if ack == s.max then t1.(rexmt := 0)
    else if t1.persist == 0 then t1.(rexmt := t1.cur)
    else t1
  }

  /** The measured round trip has gone into the estimate, and the backoff is off. */
  predicate Sampled(t: Timers, t': Timers) {
    var u := XmitTimer(t);
    t'.srtt == u.srtt && t'.rttvar == u.rttvar && t'.cur == u.cur && t'.rtt == 0 && t'.shift == 0
  }

  /** The timers in the switch of lines 1033-1081, when our FIN is acked. */
  function TimersAfterFinAck(t: Timers, st: State, so: Sock): (t': Timers)
    ensures TimersInv(t) ==> TimersInv(t')
  {
    match st
    case FinWait1 => if so.cantRcv then t.(msl2 := TCP_MAXIDLE) else t
    case Closing => Cancelled(t).(msl2 := 2 * TCPTV_MSL)
    case _ => t
  }

  /** `tcp_canceltimers`. */
  function Cancelled(t: Timers): Timers { t.(rexmt := 0, persist := 0, keep := 0, msl2 := 0) }

  /** Where closing the host side takes the connection. */
  function AfterClose(st: State): State {
    match st
    case Established => FinWait1
    case CloseWait => LastAck
    case _ => st
  }

  /** Where the peer's FIN takes it. */
  function AfterText(st: State, fin: bool): State {
    if !fin then st
    else match st
      case Established => CloseWait
      case FinWait1 => Closing
      case FinWait2 => TimeWait
      case _ => st
  }

  /** Where an ACK that covers our FIN (or not) takes the connection. In
      TIME_WAIT nothing is outstanding, so line 1088 is never reached. */
  function AfterFinAck(st: State, finAcked: bool): State {
    if !finAcked then st
    else match st
      case FinWait1 => FinWait2
      case Closing => TimeWait
      case LastAck => Closed
      case _ => st
  }

  /** Lines 975-978: the end of fast recovery. */
  function Deflated(s: Snd): Snd {
    s.(dupacks := 0, cwnd := if s.dupacks > TCPREXMTTHRESH && s.cwnd > s.ssthresh then s.ssthresh else s.cwnd)
  }

  /** The ACK that ends fast recovery brings the inflated congestion window back to
      the threshold, and opens it by one segment from there. */
  lemma {:induction false} RecoveryEnds(s: Snd)
    requires s.dupacks > TCPREXMTTHRESH && s.ssthresh + s.maxseg < M
    ensures OpenedCwnd(Deflated(s)) == Min(Min(s.cwnd, s.ssthresh) + s.maxseg, TCP_MAXWIN) && Deflated(s).dupacks == 0
  {
    hide OpenedCwnd;
    CwndGrows(Deflated(s));
  }

  /** Positive differences: the test of line 979. */
  lemma {:induction false} AckInRange(s: Snd, ack: u32)
    requires 0 <= s.MaxOff() <= LIMIT && 0 < Diff(ack, s.una)
    ensures SeqGT(ack, s.max) <==> Diff(ack, s.una) > s.MaxOff()
  {
    DiffAdd(ack, s.una);
    DiffAdd(s.max, s.una);
    Rel(s.una, Diff(ack, s.una), s.MaxOff());
  }

  lemma {:induction false} WireJoin(w: seq<OutSeg>, out: seq<OutSeg>, nxt: u32, h: Given)
    requires WireOk(w, h.host, h.base) && forall i :: 0 <= i < |out| ==> SegOk(out[i], nxt, h)
    ensures WireOk(w + out, h.host, h.base)
    ensures forall i :: |w| <= i < |w + out| ==> SegOk((w + out)[i], nxt, h)
  {
  }

  // ----- runs -----

  /** Everything that can happen to a connection. `Arrive` names the stream
      position at which the peer's segment begins; `HostWrite(n)` is a send that
      takes `n` bytes. */
  datatype Event =
    | Arrive(seg: Segment, p: int)
    | SlowTick
    | FastTick
    | HostData(m: seq<byte>)
    | HostEof
    | HostError
    | HostWrite(n: nat)

  /** The event can happen now, and is within the assumptions: `Arrivable`, and
      no host data after our FIN. `n` is the next expected position and `a` the
      advertised edge. */
  predicate Admits(e: Event, st: State, so: Sock, r: Rcv, s: Snd, n: int, a: int, base: int, peer: seq<byte>) {
    match e
    case Arrive(seg, p) =>
      && r.Space() >= 0 && Conforms(seg, p, base, peer) && InReach(seg, p, n)
      && (seg.hasAck && !seg.rst ==> !FinCut(seg, p, n, r.Space()) && InTime(seg, p, n, r.Space(), a))
    case HostData(m) => !st.Closed? && so.connected && !so.cantRcv && 0 < |m| <= s.cap - |s.buf| && !s.sentFin
    case HostEof => !st.Closed? && so.connected && !so.cantRcv
    case HostError => !st.Closed? && so.connected && !so.cantSend && r.buf != []
    case HostWrite(k) => !st.Closed? && so.connected && !so.cantSend && 0 < k <= |r.buf|
    case _ => true
  }

  /** What each event does, by kind. */
  ghost predicate Does(e: Event, mem: nat, expired: bool, a: Conn, b: Conn) {
    (!e.SlowTick? ==> !expired) && Shown(a, b) &&
    match e
    case Arrive(seg, p) =>
      Effect(seg, p, a, b) && WindowFollows(seg, p, a, b) && FastResent(seg, mem, a, b) &&
      (mem > 0 && !b.state.Closed? && TakesData(seg, a.rcv, a.snd) ==> b.delAck || |a.wire| < |b.wire|) &&
      (a.state.TimeWait? && !b.state.Closed? ==> b.tmr.msl2 == a.tmr.msl2)
    case SlowTick => Ticked(mem, expired, a, b)
    case FastTick =>
      if a.state.Closed? || !a.delAck then b == a
      else
        && Steady(a, b) && b.state == a.state && b.tmr.msl2 == a.tmr.msl2
        && (mem > 0 ==> |a.wire| < |b.wire| && !b.delAck && Reopened(b.rcv, b.snd.maxseg, b.seen))
    case HostData(m) =>
      && b.given == a.given.(host := a.given.host + m) && b.snd.una == a.snd.una && b.snd.buf == a.snd.buf + m
      && b.rcv == a.rcv.(adv := b.rcv.adv) && b.seen == a.seen.(advPos := b.seen.advPos)
      && b.state == a.state && a.wire <= b.wire && b.tmr.msl2 == a.tmr.msl2
      && SameWindow(a.snd, b.snd) && b.from == a.from && (mem > 0 ==> Reopened(b.rcv, b.snd.maxseg, b.seen))
    case HostEof =>
      && Steady(a.(given := EndedNow(a.given, a.seen.fin)), b) && b.so == a.so.CantRcvMore()
      && b.state == AfterClose(a.state) && b.tmr.msl2 == a.tmr.msl2 && Ended(mem, b)
    case HostError =>
      && Steady(a.(given := EndedNow(a.given, a.seen.fin)), b) && b.so == a.so.CantSendMore()
      && b.state == AfterClose(a.state) && b.tmr.msl2 == a.tmr.msl2 && Ended(mem, b)
    case HostWrite(n) =>
      n <= |a.rcv.buf| &&
      var r := a.rcv.(toHost := a.rcv.toHost + a.rcv.buf[..n], buf := a.rcv.buf[n..]);
      b == a.(rcv := r, so := if a.so.fwDrain && r.buf == [] then a.so.CantSendMore() else a.so)
  }

  /** Closing the host's side sends the FIN, if it is still to be sent, through an
      open window, and reopens the receive window. */
  ghost predicate Ended(mem: nat, b: Conn) {
    && (mem > |b.snd.buf| && b.snd.Win() >= |b.snd.buf| && SendsFin(b.state) ==> b.snd.sentFin)
    && (mem > 0 ==> Reopened(b.rcv, b.snd.maxseg, b.seen))
  }

  lemma {:induction false} TickSteady(mem: nat, expired: bool, a: Conn, b: Conn)
    requires Ticked(mem, expired, a, b)
    ensures Steady(a, b)
  {
  }

  /** What an event does to the backoff, and to the window's edge. */
  lemma {:induction false} EventFollows(e: Event, mem: nat, expired: bool, a: Conn, b: Conn)
    requires Does(e, mem, expired, a, b) && a.tmr.shift <= TCP_MAXRXTSHIFT && b.tmr.shift <= TCP_MAXRXTSHIFT
    requires !e.SlowTick? ==> Quiet(a.snd, a.tmr, b.snd, b.tmr) && (a.state.Closed? ==> b.state.Closed?)
    ensures Follows(Watch(a, false), Watch(b, expired))
    ensures !e.Arrive? ==> EdgeKept(a.rcv, a.seen, b.rcv, b.seen)
  {
    hide Effect, TakesData, Expired, GivesUp;
  }

  /** A fast retransmission: the oldest unacknowledged bytes are resent, the
      threshold is half the window, the congestion window is inflated, and snd_nxt
      is no further back than before. */
  ghost predicate Retransmits(mem: nat, a: Conn, b: Conn) {
    && b.rcv == a.rcv.(adv := b.rcv.adv) && b.seen == a.seen.(advPos := b.seen.advPos)
    && a.seen.advPos <= b.seen.advPos && b.snd.una == a.snd.una && b.snd.buf == a.snd.buf && b.snd.Off() >= a.snd.Off()
    && a.wire <= b.wire && Quiet(a.snd, a.tmr, b.snd, b.tmr) && Onward(a.seen, b.seen)
    && EdgeKept(a.rcv, a.seen, b.rcv, b.seen) && SameWindow(a.snd, b.snd) && b.tmr.msl2 == a.tmr.msl2 && Shown(a, b)
    && (mem > 0 && Outstanding(a.snd) ==> Resent(a.wire, b.wire, b.snd.una, b.snd.buf, Min(b.snd.wnd, b.snd.maxseg)))
    && b.snd.maxseg > 0 && b.snd.ssthresh == Wrap(Max(a.snd.Win() / 2 / b.snd.maxseg, 2) * b.snd.maxseg)
    && b.snd.cwnd == Wrap(b.snd.ssthresh + b.snd.maxseg * b.snd.dupacks) && b.snd.dupacks == a.snd.dupacks
  }

  /** The end of it: `m` is before the output, `b` after. */
  lemma {:induction false} RetransmitDone(mem: nat, a: Conn, m: Conn, b: Conn)
    requires Good(a) && Good(b) && !a.state.Closed? && Outputs(false, mem, m, b)
    requires m == a.(snd := a.snd.(ssthresh := m.snd.ssthresh, nxt := a.snd.una, cwnd := Wrap(a.snd.maxseg)),
                     tmr := a.tmr.(rexmt := 0, rtt := 0))
    requires a.snd.maxseg > 0 && m.snd.ssthresh == Wrap(Max(a.snd.Win() / 2 / a.snd.maxseg, 2) * a.snd.maxseg)
    ensures var s := b.snd.(cwnd := Wrap(b.snd.ssthresh + b.snd.maxseg * b.snd.dupacks),
                            nxt := if SeqGT(a.snd.nxt, b.snd.nxt) then a.snd.nxt else b.snd.nxt);
            Halves(b.rcv, s, b.tmr, b.seen, b.given) && Retransmits(mem, a, b.(snd := s))
  {
    hide RcvInv, Wrap, USub, Add, Diff, WireOk, SegOk, Sendable, SendsNext, Origins, Current, NoFins, Reopened, Control;
    DiffAdd(a.snd.una, a.snd.una);
    Restart(m.snd);
    Step(b.snd.una, a.snd.nxt, 0, b.snd.nxt, 0);
    AddZero(a.snd.nxt);
  }

  /** An expiry of the retransmit timer: the connection is dropped if it gives up;
      if not, the backoff goes on, the timeout with it, and the oldest
      unacknowledged bytes are resent with a congestion window of one segment. */
  ghost predicate Expires(mem: nat, a: Conn, b: Conn) {
    && Steady(a, b) && b.state == (if GivesUp(a.snd.maxseg, a.tmr.shift) then Closed else a.state)
    && b.tmr.msl2 == a.tmr.msl2 && b.tmr.idle == a.tmr.idle && b.snd.wnd == a.snd.wnd
    && (b.tmr.persist == 0 || b.tmr.persist >= TCPTV_PERSMIN)
    && (!b.state.Closed? ==>
          && b.snd.maxseg == Expired(a.snd.maxseg, a.tmr.shift).0
          && (b.tmr.persist == 0 ==> b.tmr.shift == Expired(a.snd.maxseg, a.tmr.shift).1)
          && b.tmr.cur == Timeout(Estimate(a.tmr), Expired(a.snd.maxseg, a.tmr.shift).1)
          && Estimate(b.tmr) == Estimate(a.tmr)
          && b.snd.dupacks == 0 && b.snd.cwnd == b.snd.maxseg > 0
          && b.snd.ssthresh == Wrap(Max(a.snd.Win() / 2 / b.snd.maxseg, 2) * b.snd.maxseg)
          && (mem > 0 && 0 < a.snd.MaxOff() && b.snd.buf != [] && b.snd.wnd > 0 ==>
                Resent(a.wire, b.wire, b.snd.una, b.snd.buf, Min(b.snd.wnd, b.snd.maxseg))))
  }

  lemma {:induction false} LastExpiry(mem: nat, a: Conn, b: Conn)
    requires GivesUp(a.snd.maxseg, a.tmr.shift) && a.tmr.persist == 0
    requires b == a.(snd := a.snd.(maxseg := b.snd.maxseg), tmr := a.tmr.(shift := b.tmr.shift), state := Closed)
    ensures Expires(mem, a, b)
  {
  }

  lemma {:induction false} ExpiryDone(mem: nat, a: Conn, m: Conn, b: Conn)
    requires Good(a) && !a.state.Closed? && !GivesUp(a.snd.maxseg, a.tmr.shift) && a.tmr.persist == 0
    requires var (maxseg, k) := Expired(a.snd.maxseg, a.tmr.shift);
             m == a.(snd := SlowStart(a.snd, maxseg), tmr := BackedOff(a.tmr, k))
    requires Outputs(false, mem, m, b)
    ensures Expires(mem, a, b)
  {
    hide RcvInv, WireOk, SegOk, USub, Add, Diff, Sendable, SendsNext, Origins, Current, NoFins, Reopened, Timeout;
    hide EdgeKept, Onward, Control;
    DiffAdd(a.snd.una, a.snd.una);
    Restart(m.snd);
  }

  /** The retransmit timer's part of a tick. */
  ghost predicate RexmtTicked(mem: nat, expired: bool, a: Conn, b: Conn) {
    && Steady(a, b) && (expired <==> a.tmr.rexmt == 1)
    && b.state == (if expired && GivesUp(a.snd.maxseg, a.tmr.shift) then Closed else a.state)
    && b.snd.wnd == a.snd.wnd && b.tmr.msl2 == a.tmr.msl2 && b.tmr.idle == a.tmr.idle
    && (!expired ==> b == a.(tmr := a.tmr.(rexmt := Max(a.tmr.rexmt - 1, 0))))
    && (expired ==> a.tmr.persist == 0)
    && (expired && !b.state.Closed? ==> Expires(mem, a, b))
  }

  /** The persist timer's part. */
  ghost predicate PersistTicked(mem: nat, a: Conn, b: Conn) {
    && Steady(a, b) && b.state == a.state && b.snd.maxseg == a.snd.maxseg && b.snd.wnd == a.snd.wnd
    && b.tmr.msl2 == a.tmr.msl2 && b.tmr.idle == a.tmr.idle
    && b.tmr.cur == a.tmr.cur && Estimate(b.tmr) == Estimate(a.tmr)
    && (a.tmr.persist != 1 ==> b == a.(tmr := a.tmr.(persist := Max(a.tmr.persist - 1, 0))))
    && (a.tmr.persist == 1 && a.snd.wnd == 0 ==>
          TCPTV_PERSMIN <= b.tmr.persist <= TCPTV_PERSMAX &&
          (mem > 0 && a.snd.Off() == 0 && a.snd.buf != [] ==> Resent(a.wire, b.wire, a.snd.nxt, a.snd.buf, 1)))
  }

  /** A whole tick: timers run down, neither stream moves; a retransmission
      resends the oldest unacknowledged bytes, a closed window is probed and the
      persist timer rearmed; the connection closes when it gives up or its time
      is over, and only then. */
  ghost predicate Ticked(mem: nat, expired: bool, a: Conn, b: Conn) {
    if a.state.Closed? then b == a && !expired
    else
      && Steady(a, b) && (expired <==> a.tmr.rexmt == 1)
      && b.state == (if (expired && GivesUp(a.snd.maxseg, a.tmr.shift)) || TimeIsUp(a) then Closed else a.state)
      && (!b.state.Closed? ==>
            && b.tmr.msl2 == (if a.tmr.msl2 == 1 then TCPTV_KEEPINTVL else Max(a.tmr.msl2 - 1, 0))
            && Estimate(b.tmr) == Estimate(a.tmr)
            && b.tmr.cur == (if expired then Timeout(Estimate(a.tmr), Expired(a.snd.maxseg, a.tmr.shift).1)
                             else a.tmr.cur)
            && (a.tmr.persist == 0 && b.tmr.persist == 0 ==>
                  (b.snd.maxseg, b.tmr.shift) ==
                  if expired then Expired(a.snd.maxseg, a.tmr.shift) else (a.snd.maxseg, a.tmr.shift))
            && (!expired && a.tmr.persist != 1 ==>
                  b.tmr.rexmt == Max(a.tmr.rexmt - 1, 0) && b.tmr.persist == Max(a.tmr.persist - 1, 0) &&
                  b.wire == a.wire)
            && (a.tmr.persist == 1 && a.snd.wnd == 0 ==> TCPTV_PERSMIN <= b.tmr.persist <= TCPTV_PERSMAX)
            && (mem > 0 && a.snd.buf != [] ==>
                  && (expired && 0 < a.snd.MaxOff() && a.snd.wnd > 0 ==>
                        Resent(a.wire, b.wire, a.snd.una, a.snd.buf, Min(a.snd.wnd, b.snd.maxseg)))
                  && (a.tmr.persist == 1 && a.snd.wnd == 0 && a.snd.Off() == 0 ==>
                        Resent(a.wire, b.wire, a.snd.nxt, a.snd.buf, 1))))
  }

  /** The 2MSL timer is about to expire for good. */
  predicate TimeIsUp(a: Conn) { a.tmr.msl2 == 1 && (a.state.TimeWait? || a.tmr.idle > TCP_MAXIDLE) }

  lemma {:induction false} TicksJoin(mem: nat, expired: bool, a: Conn, b: Conn, c: Conn, d: Conn)
    requires !a.state.Closed? && !b.state.Closed? && (a.tmr.rexmt == 0 || a.tmr.persist == 0)
    requires RexmtTicked(mem, expired, a, b) && PersistTicked(mem, b, c)
    requires d.state == if TimeIsUp(c) then Closed else c.state
    requires d == c.(tmr := d.tmr, state := d.state)
    requires d.tmr == c.tmr.(keep := d.tmr.keep, msl2 := d.tmr.msl2, idle := d.tmr.idle, rtt := d.tmr.rtt)
    requires !d.state.Closed? ==> d.tmr.msl2 == if c.tmr.msl2 == 1 then TCPTV_KEEPINTVL else Max(c.tmr.msl2 - 1, 0)
    ensures Ticked(mem, expired, a, d)
  {
    hide Expired, GivesUp, Diff;
  }

  /** What a run shows of retransmission. */
  datatype Obs = Obs(una: u32, persist: nat, maxseg: nat, shift: nat, cur: nat, est: nat, expired: bool, closed: bool)

  function Watch(a: Conn, expired: bool): Obs {
    Obs(a.snd.una, a.tmr.persist, a.snd.maxseg, a.tmr.shift, a.tmr.cur, Estimate(a.tmr), expired, a.state.Closed?)
  }

  /** Nothing is acknowledged and persist state is not entered. */
  predicate Losing(a: Obs, b: Obs) { a.una == b.una && a.persist == 0 && b.persist == 0 }

  /** What each event does to them. */
  predicate Follows(a: Obs, b: Obs) {
    && a.shift <= TCP_MAXRXTSHIFT && b.shift <= TCP_MAXRXTSHIFT
    && (a.closed ==> b.closed && !b.expired)
    && (b.expired && GivesUp(a.maxseg, a.shift) ==> b.closed)
    && (!b.closed && Losing(a, b) ==>
          && (b.maxseg, b.shift) == (if b.expired then Expired(a.maxseg, a.shift) else (a.maxseg, a.shift))
          && b.est == a.est && b.cur == if b.expired then Timeout(a.est, b.shift) else a.cur)
  }

  /** In a losing streak the timeout doubles from one expiry to the next, until the
      backoff reaches 64 and up to its bound: `tr[i]` and `tr[j]` are expiries
      with none in between. */
  lemma {:induction false} TimeoutsDouble(tr: seq<Obs>, i: nat, j: nat)
    requires Trace(tr) && 0 < i < j < |tr| && tr[i].expired && tr[j].expired && !tr[j].closed && tr[i].est > 0
    requires forall k :: i <= k <= j ==> Losing(tr[k - 1], tr[k])
    requires forall k :: i < k < j ==> !tr[k].expired
    ensures tr[j].cur == if tr[i].shift < 6 then Min(2 * tr[i].cur, TCPTV_REXMTMAX) else tr[i].cur
    ensures tr[i].cur == Timeout(tr[i].est, tr[i].shift) && tr[i].shift >= 1
  {
    hide Timeout, GivesUp;
    StreakKeeps(tr, i, j - 1);
    assert Follows(tr[j - 1], tr[j]) && Losing(tr[j - 1], tr[j]);
    assert Follows(tr[i - 1], tr[i]) && Losing(tr[i - 1], tr[i]);
    TimeoutDoubles(tr[i].est, tr[i].shift);
    TimeoutTop(tr[i].est);
  }

  lemma {:induction false} StreakKeeps(tr: seq<Obs>, i: nat, j: nat)
    requires Trace(tr) && 0 < i <= j < |tr| && (exists k :: j <= k < |tr| && !tr[k].closed)
    requires forall k :: i < k <= j ==> Losing(tr[k - 1], tr[k]) && !tr[k].expired
    ensures !tr[j].closed && !tr[i].closed
    ensures tr[j].est == tr[i].est && tr[j].cur == tr[i].cur && tr[j].shift == tr[i].shift
    decreases j
  {
    hide Timeout, Expired, GivesUp;
    var k :| j <= k < |tr| && !tr[k].closed;
    OpenBefore(tr, j, k);
    if i < j {
      StreakKeeps(tr, i, j - 1);
      assert Follows(tr[j - 1], tr[j]) && Losing(tr[j - 1], tr[j]);
    }
  }

  /** What is open was open before. */
  lemma {:induction false} OpenBefore(tr: seq<Obs>, j: nat, k: nat)
    requires Trace(tr) && j <= k < |tr| && !tr[k].closed
    ensures !tr[j].closed
    decreases k
  {
    hide Timeout, Expired, GivesUp;
    if j < k {
      assert Follows(tr[k - 1], tr[k]);
      OpenBefore(tr, j, k - 1);
    }
  }

  predicate Trace(tr: seq<Obs>) { forall k :: 0 < k < |tr| ==> Follows(tr[k - 1], tr[k]) }

  /** Expiries of the retransmit timer after `tr[i]`, up to `tr[j]`. */
  function Expiries(tr: seq<Obs>, i: nat, j: nat): nat
    requires i <= j < |tr|
    decreases j
  {
    if i == j then 0 else Expiries(tr, i, j - 1) + if tr[j].expired then 1 else 0
  }

  /** A losing streak is finite and ends in a drop: with nothing acknowledged and
      no persist state, whatever else happens, the retransmit timer expires at
      most `ExpiriesLeft` times, and the last of these closes the connection. */
  lemma {:induction false} LosingStreakEnds(tr: seq<Obs>, i: nat, j: nat)
    requires Trace(tr) && i <= j < |tr| && tr[i].shift <= TCP_MAXRXTSHIFT
    requires forall k :: i < k <= j ==> Losing(tr[k - 1], tr[k])
    ensures Expiries(tr, i, j) <= ExpiriesLeft(tr[i].maxseg, tr[i].shift)
    ensures Expiries(tr, i, j) == ExpiriesLeft(tr[i].maxseg, tr[i].shift) ==> tr[j].closed
    ensures !tr[j].closed ==>
              tr[j].shift <= TCP_MAXRXTSHIFT &&
              Expiries(tr, i, j) + ExpiriesLeft(tr[j].maxseg, tr[j].shift) == ExpiriesLeft(tr[i].maxseg, tr[i].shift)
    decreases j
  {
    if i < j {
      LosingStreakEnds(tr, i, j - 1);
      assert Follows(tr[j - 1], tr[j]) && Losing(tr[j - 1], tr[j]);
    }
  }

  lemma {:induction false} UnsignedMove(x: int, y: int)
    requires x <= y < x + M
    ensures USub(Wrap(y), Wrap(x)) == y - x
  {
    WrapSub(y, x);
  }

  /** Numbers seen before and after an event tell how far the positions moved. */
  lemma {:induction false} FollowNumbers(r: Rcv, g: Seen, r': Rcv, g': Seen)
    requires RcvInv(r, g) && RcvInv(r', g') && Onward(g, g')
    ensures g'.Nxt() == g.Nxt() + USub(r'.nxt, r.nxt) && g'.advPos == g.advPos + USub(r'.adv, r.adv)
  {
    hide StandFor, QueueOk, Accepted, Presented, Wrap, USub;
    UnsignedMove(g.base + g.Nxt(), g'.base + g'.Nxt());
    UnsignedMove(g.base + g.advPos, g'.base + g'.advPos);
  }

  /** The invariant of a connection, as a value. */
  ghost predicate Good(a: Conn) {
    && Halves(a.rcv, a.snd, a.tmr, a.seen, a.given) && (!a.state.Closed? ==> 32 <= a.snd.maxseg)
    && Origins(a.snd.wl1, a.snd.wl2, a.seen.base, a.given.base, a.from)
    && WireOk(a.wire, a.given.host, a.given.base) && (a.given.end.NotEnded? ==> NoFins(a.wire))
    && Control(a.state, a.so, a.snd.sentFin, a.seen.fin, a.given, a.seen.lost) && Waits(a.state, a.tmr)
  }

  ghost predicate Admitted(e: Event, a: Conn) {
    Admits(e, a.state, a.so, a.rcv, a.snd, a.seen.Nxt(), a.seen.advPos, a.seen.base, a.seen.peer)
  }

  /** `hist` is a history of the events: all moments meet the invariant, admitted
      events have their effect and others none. */
  ghost predicate History(hist: seq<Conn>, ev: seq<Event>, mem: nat -> nat, tr: seq<Obs>) {
    && |hist| == |tr| <= |ev| + 1
    && (forall i :: 0 <= i < |hist| ==> Good(hist[i]))
    && forall i :: 0 < i < |hist| ==> Happens(ev[i - 1], mem(i - 1), tr[i], hist[i - 1], hist[i])
  }

  ghost predicate Happens(e: Event, mem: nat, o: Obs, a: Conn, b: Conn) {
    o == Watch(b, o.expired) && if Admitted(e, a) then Does(e, mem, o.expired, a, b) else b == a && !o.expired
  }

  /** Slow ticks among the events from `i` on, before `j`. */
  function SlowTicks(ev: seq<Event>, i: nat, j: nat): nat
    requires i <= j <= |ev|
    decreases j
  {
    if i == j then 0 else SlowTicks(ev, i, j - 1) + if ev[j - 1].SlowTick? then 1 else 0
  }

  /** TIME_WAIT ends: whatever else happens, the connection leaves it only by
      closing, and is closed after at most 20 ticks. */
  lemma {:induction false} TimeWaitEnds(hist: seq<Conn>, ev: seq<Event>, mem: nat -> nat, tr: seq<Obs>, i: nat, j: nat)
    requires History(hist, ev, mem, tr) && i <= j < |hist| && hist[i].state.TimeWait?
    ensures hist[j].state.Closed? ||
            (hist[j].state.TimeWait? && hist[j].tmr.msl2 + SlowTicks(ev, i, j) <= hist[i].tmr.msl2 <= 2 * TCPTV_MSL)
    ensures SlowTicks(ev, i, j) >= 2 * TCPTV_MSL ==> hist[j].state.Closed?
    decreases j
  {
    hide Good, Happens;
    WaitsThen(hist[i]);
    if i < j {
      TimeWaitEnds(hist, ev, mem, tr, i, j - 1);
      WaitsThen(hist[j]);
      StillWaits(ev[j - 1], mem(j - 1), tr[j], hist[j - 1], hist[j]);
    }
  }

  lemma {:induction false} WaitsThen(a: Conn)
    requires Good(a)
    ensures Waits(a.state, a.tmr)
  {
  }

  lemma {:induction false} StillWaits(e: Event, mem: nat, o: Obs, a: Conn, b: Conn)
    requires Good(a) && Happens(e, mem, o, a, b) && (a.state.TimeWait? || a.state.Closed?)
    ensures b.state.Closed? ||
            (a.state.TimeWait? && b.state.TimeWait? && b.tmr.msl2 <= a.tmr.msl2 - if e.SlowTick? then 1 else 0)
  {
    hide Halves, WireOk, TextTaken, Acked, TakesData, TrimLeft, TrimRight, Resent, Expired, GivesUp;
  }

  /** The two ends determine the state of a connection that is not closed, and the
      state tells what they are. */
  lemma {:induction false} StateExact(a: Conn)
    requires Good(a) && !a.state.Closed?
    ensures a.state.Established? <==> a.given.end.NotEnded? && !a.seen.fin
    ensures a.state.CloseWait? <==> a.given.end.NotEnded? && a.seen.fin
    ensures a.state.FinWait1? <==> a.given.end.EndedFirst? && !a.seen.fin && !a.given.finAcked
    ensures a.state.FinWait2? <==> a.given.end.EndedFirst? && !a.seen.fin && a.given.finAcked
    ensures a.state.Closing? <==> a.given.end.EndedFirst? && a.seen.fin && !a.given.finAcked
    ensures a.state.TimeWait? <==> a.given.end.EndedFirst? && a.seen.fin && a.given.finAcked
    ensures a.state.LastAck? <==> a.given.end.EndedSecond? && !a.given.finAcked
    ensures UserClosed(a.state) <==> !a.given.end.NotEnded?
    ensures SendsFin(a.state) <==> !a.given.end.NotEnded? && !a.given.finAcked
  {
    hide Halves, WireOk, NoFins;
  }

  /** The host's side closes with this event. */
  ghost predicate HostCloses(e: Event, a: Conn) { (e.HostEof? || e.HostError?) && Admitted(e, a) }

  lemma {:induction false} EndStep(e: Event, mem: nat, o: Obs, a: Conn, b: Conn)
    requires Happens(e, mem, o, a, b)
    ensures b.given.end == if HostCloses(e, a) then EndedNow(a.given, a.seen.fin).end else a.given.end
  {
    hide Admits, TextTaken, WindowTaken, TrimLeft, TrimRight, Resent, Expired, GivesUp, TakesData;
  }

  /** The record of the host's end over any run: it stands as long as no end of the
      host's data and no failed write has come, and says whether the first of
      them came before the peer's FIN had been taken. */
  lemma {:induction false} EndIsFirst(hist: seq<Conn>, ev: seq<Event>, mem: nat -> nat, tr: seq<Obs>, i: nat, j: nat)
    requires History(hist, ev, mem, tr) && i <= j < |hist| && hist[i].given.end.NotEnded?
    ensures hist[j].given.end.NotEnded? <==> forall k :: i <= k < j ==> !HostCloses(ev[k], hist[k])
    ensures forall k :: i <= k < j && HostCloses(ev[k], hist[k]) &&
                        (forall l :: i <= l < k ==> !HostCloses(ev[l], hist[l])) ==>
              hist[j].given.end == if hist[k].seen.fin then EndedSecond else EndedFirst
    decreases j
  {
    hide Good, Happens, HostCloses;
    if i < j {
      EndIsFirst(hist, ev, mem, tr, i, j - 1);
      EndStep(ev[j - 1], mem(j - 1), tr[j], hist[j - 1], hist[j]);
    }
  }

  /** We never end the host's stream on our own: a FIN is on the wire only after
      the end of the host's data or a failed write. */
  lemma {:induction false} FinAfterEnd(hist: seq<Conn>, ev: seq<Event>, mem: nat -> nat, tr: seq<Obs>, i: nat, j: nat)
    requires History(hist, ev, mem, tr) && i <= j < |hist| && hist[i].given.end.NotEnded?
    ensures !NoFins(hist[j].wire) ==> exists k :: i <= k < j && HostCloses(ev[k], hist[k])
  {
    hide Happens, Halves, WireOk, NoFins, Control, HostCloses;
    EndIsFirst(hist, ev, mem, tr, i, j);
    assert Good(hist[j]);
  }

  lemma {:induction false} GoodNow(c: Tcpcb)
    requires c.Inv()
    ensures Good(c.Now())
  {
  }

  lemma {:induction false} HistoryGrows(hist: seq<Conn>, ev: seq<Event>, mem: nat -> nat, tr: seq<Obs>, b: Conn, o: Obs)
    requires 0 < |hist| <= |ev| && History(hist, ev, mem, tr) && Good(b)
    requires Happens(ev[|hist| - 1], mem(|hist| - 1), o, hist[|hist| - 1], b)
    ensures History(hist + [b], ev, mem, tr + [o])
  {
    hide Good, Happens;
  }

  lemma {:induction false} StartHistory(a: Conn, ev: seq<Event>, mem: nat -> nat)
    requires Good(a)
    ensures History([a], ev, mem, [Watch(a, false)]) && Trace([Watch(a, false)])
  {
  }

  lemma {:induction false} TraceGrows(tr: seq<Obs>, o: Obs)
    requires tr != [] && Trace(tr) && Follows(tr[|tr| - 1], o)
    ensures Trace(tr + [o])
  {
    hide Follows;
  }

  /** Any run: events in any order and number, those outside the assumptions left
      out. The connection's invariant holds throughout and every event has its
      effect; so what the socket was given is a prefix of the peer's stream, and
      every segment sent carries the host's bytes for its number. `n` and `a`
      are the positions of rcv_nxt and rcv_adv in the peer's stream at the
      start. */
  method Run(c: Tcpcb, ev: seq<Event>, peer: seq<byte>, base: int, n: int, a: int, mem: nat -> nat,
             io: nat -> nat -> int)
    returns (tr: seq<Obs>, ghost hist: seq<Conn>)
    requires c.Inv() && c.seen.peer == peer && c.seen.base == base && c.seen.Nxt() == n && c.seen.advPos == a
    modifies c
    ensures c.Inv() && |tr| == |ev| + 1 && Trace(tr)
    ensures |hist| == |ev| + 1 && History(hist, ev, mem, tr) && hist[0] == old(c.Now()) && hist[|ev|] == c.Now()
    ensures c.seen.pos <= |peer| && (!c.seen.lost ==> c.rcv.Given() == peer[..c.seen.pos])
    ensures c.rcv.Given() <= peer && old(c.wire) <= c.wire && old(c.given.host) <= c.given.host
    ensures WireOk(c.wire, c.given.host, c.given.base)
    ensures c.state.TimeWait? ==> c.seen.fin && c.seen.pos == |peer| && c.given.finAcked
  {
    hide WireOk, SegOk, Follows, Admits, Does, QueueOk, StandFor, Accepted, SndInv, History, Trace, Good;
    GoodNow(c);
    StartHistory(c.Now(), ev, mem);
    var next, adv := n, a;
    tr := [Obs(c.snd.una, c.tmr.persist, c.snd.maxseg, c.tmr.shift, c.tmr.cur, Estimate(c.tmr), false,
               c.state.Closed?)];
    hist := [c.Now()];
    var i := 0;
    while i < |ev|
      invariant 0 <= i <= |ev| && |tr| == i + 1 && Trace(tr)
      invariant |hist| == i + 1 && History(hist, ev, mem, tr) && hist[0] == old(c.Now()) && hist[i] == c.Now()
      invariant c.Inv() && c.seen.peer == peer && c.seen.base == base && c.seen.Nxt() == next && c.seen.advPos == adv
      invariant old(c.wire) <= c.wire && old(c.given.host) <= c.given.host
      invariant Same(tr[i], Watch(c.Now(), false))
    {
      var expired := false;
      ghost var was := c.Now();
      var nxt, edge := c.rcv.nxt, c.rcv.adv;
      if Admits(ev[i], c.state, c.so, c.rcv, c.snd, next, adv, base, peer) {
        expired := c.Handle(ev[i], mem(i), io(i));
        FollowNumbers(was.rcv, was.seen, c.rcv, c.seen);
        next, adv := next + USub(c.rcv.nxt, nxt), adv + USub(c.rcv.adv, edge);
      } else {
        Idle(Watch(was, false));
      }
      SameFollows(tr[i], Watch(was, false), Watch(c.Now(), expired));
      var o := Obs(c.snd.una, c.tmr.persist, c.snd.maxseg, c.tmr.shift, c.tmr.cur, Estimate(c.tmr), expired,
                   c.state.Closed?);
      GoodNow(c);
      HistoryGrows(hist, ev, mem, tr, c.Now(), o);
      TraceGrows(tr, o);
      tr, hist := tr + [o], hist + [c.Now()];
      i := i + 1;
    }
  }

  predicate Same(a: Obs, b: Obs) { a == b.(expired := a.expired) }

  lemma {:induction false} SameFollows(a: Obs, a': Obs, b: Obs)
    requires Same(a, a') && Follows(a', b)
    ensures Follows(a, b)
  {
  }

  lemma {:induction false} Idle(a: Obs)
    requires a.shift <= TCP_MAXRXTSHIFT && !a.expired
    ensures Follows(a, a)
  {
  }
}
