/** The sending half of a connection: src/slirp/tcp_output.c and the ACK
    processing of src/slirp/tcp_input.c.

    The ring `so_snd` is a byte sequence here; module Sbuf proves that the ring
    buffer behaves as one. The host's stream and the position acknowledged are
    ghost. */
module TcpSend {
  import opened Basics
  import opened Pieces
  import opened Seq32

  const TCP_MAXRXTSHIFT: nat := 12
  const TCPTV_PERSMIN: nat := 10
  const TCPTV_PERSMAX: nat := 120
  const TCPTV_MIN: nat := 2
  const TCPTV_REXMTMAX: nat := 24

  /** Send variables of the control block and the ring `so_snd`; `sentFin` is
      TF_SENTFIN. */
  datatype Snd = Snd(una: u32, nxt: u32, max: u32, wnd: u32, cwnd: u32, ssthresh: u32, maxWnd: u32,
                     wl1: u32, wl2: u32, buf: seq<byte>, cap: nat, sentFin: bool, maxseg: nat, dupacks: nat)
  {
    /** `snd_nxt - snd_una` and `snd_max - snd_una`. */
    function Off(): int { Diff(nxt, una) }
    function MaxOff(): int { Diff(max, una) }

    /** `min(snd_wnd, snd_cwnd)`. */
    function Win(): int { Min(wnd, cwnd) }
  }

  /** The four timers, the backoff, and the round-trip estimator. */
  datatype Timers = Timers(rexmt: nat, persist: nat, keep: nat, msl2: nat, shift: nat, cur: nat,
                           rtt: nat, rtseq: u32, srtt: nat, rttvar: nat, idle: nat)

  /** Whether the host's side has closed, and if so whether before or after the
      peer's FIN was taken. */
  datatype End = NotEnded | EndedFirst | EndedSecond

  /** What the host has given: its stream, whose byte 0 is numbered `base`; the
      number of bytes acknowledged; whether our FIN has been; its end. */
  datatype Given = Given(host: seq<byte>, base: int, una: nat, finAcked: bool, end: End)

  /** The sender's invariant: snd_una <= snd_nxt <= snd_max, the ring holds
      exactly the host's stream from snd_una on, and snd_max counts the FIN
      exactly from the time it is recorded as sent until it is acked. */
  ghost predicate SndInv(s: Snd, h: Given) {
    && |s.buf| <= s.cap < LIMIT && s.maxseg < LIMIT
    && h.una <= |h.host| && s.buf == h.host[h.una..]
    && s.una == Wrap(h.base + h.una + if h.finAcked then 1 else 0)
    && 0 <= s.Off() <= s.MaxOff() <= |s.buf| + 1
    && FinCounted(s, h)
  }

  /** FIN accounting. */
  ghost predicate FinCounted(s: Snd, h: Given) {
    && (s.sentFin && !h.finAcked ==> s.MaxOff() == |s.buf| + 1)
    && (!s.sentFin ==> s.MaxOff() <= |s.buf|)
    && (h.finAcked ==> s.sentFin && s.buf == [] && s.MaxOff() == 0)
  }

  /** Retransmit and persist timers never run together. */
  predicate TimersInv(t: Timers) {
    (t.rexmt == 0 || t.persist == 0) && t.shift <= TCP_MAXRXTSHIFT
  }

  // ----- offsets from snd_una -----

  lemma {:induction false} Rel(una: u32, a: int, b: int)
    requires -HALF <= a - b < HALF
    ensures Diff(Add(una, a), Add(una, b)) == a - b
  {
    DiffOfWrap(una + a, una + b);
  }

  lemma {:induction false} AddZero(una: u32)
    ensures Add(una, 0) == una
  {
  }

  lemma {:induction false} Compound(una: u32, a: int, b: int)
    ensures Add(Add(una, a), b) == Add(una, a + b)
  {
  }

  /** Moving snd_nxt on by `step`, and the tests of lines 150 and 409. */
  lemma {:induction false} Step(una: u32, nxt: u32, step: int, mx: u32, cc: nat)
    requires 0 <= Diff(nxt, una) && -1 <= Diff(nxt, una) + step <= 2 * LIMIT - 1
    requires 0 <= Diff(mx, una) <= LIMIT && cc < LIMIT
    ensures Diff(Add(nxt, step), una) == Diff(nxt, una) + step
    ensures SeqGT(Add(nxt, step), mx) <==> Diff(nxt, una) + step > Diff(mx, una)
    ensures SeqLT(Add(nxt, step), Add(una, cc)) <==> Diff(nxt, una) + step < cc
    ensures SeqLT(nxt, mx) <==> Diff(nxt, una) < Diff(mx, una)
    ensures nxt == mx <==> Diff(nxt, una) == Diff(mx, una)
  {
    hide Wrap, USub, Diff, Add;
    var o, m := Diff(nxt, una), Diff(mx, una);
    AddZero(una);
    DiffAdd(nxt, una);
    DiffAdd(mx, una);
    DiffAdd(nxt, mx);
    Compound(una, o, step);
    Rel(una, o + step, 0);
    Rel(una, o + step, m);
    Rel(una, o + step, cc);
    Rel(una, o, m);
  }

  // ----- persist state -----

  /** `tcp_backoff[k]`. */
  function Backoff(k: nat): nat {
    if k >= 6 then 64 else [1, 2, 4, 8, 16, 32][k]
  }

  /** It doubles with every step, up to 64. */
  lemma {:induction false} BackoffDoubles(k: nat)
    ensures Backoff(0) == 1 && Backoff(k + 1) == Min(2 * Backoff(k), 64) && 1 <= Backoff(k) <= 64
    ensures k >= 6 ==> Backoff(k) == 64
  {
    assert k < 6 ==> [1, 2, 4, 8, 16, 32][k] <= 32;
  }

  /** TCPT_RANGESET. */
  function Clamp(v: int, lo: nat, hi: nat): (r: nat)
    requires lo <= hi
    ensures lo <= r <= hi
  {
    if v < lo then lo else if v > hi then hi else v
  }

  /** `tcp_setpersist`. */
  function SetPersist(t: Timers): Timers {
    t.(persist := Clamp((t.srtt / 4 + t.rttvar) / 2 * Backoff(t.shift), TCPTV_PERSMIN, TCPTV_PERSMAX),
       shift := if t.shift < TCP_MAXRXTSHIFT then t.shift + 1 else t.shift)
  }

  /** The persist timer backs off: set again it is twice as long, up to its bound,
      until the backoff has reached 64. */
  lemma {:induction false} PersistDoubles(t: Timers)
    requires t.shift <= TCP_MAXRXTSHIFT
    ensures var p, p' := SetPersist(t).persist, SetPersist(SetPersist(t)).persist;
            p <= p' && (t.shift >= 6 ==> p' == p) &&
            (t.shift < 6 && p > TCPTV_PERSMIN ==> p' == Min(2 * p, TCPTV_PERSMAX))
  {
    hide Backoff;
    PersistSteps((t.srtt / 4 + t.rttvar) / 2, t.shift);
  }

  lemma {:induction false} PersistSteps(est: nat, k: nat)
    ensures k >= 6 ==> est * Backoff(k) == est * Backoff(k + 1) == est * 64
    ensures k < 6 ==> est * Backoff(k + 1) == 2 * (est * Backoff(k))
    ensures est * Backoff(k) >= 0
  {
    hide Backoff;
    BackoffDoubles(k);
    BackoffDoubles(k + 1);
    if k < 6 {
      BackoffBelow(k);
      assert est * (2 * Backoff(k)) == 2 * (est * Backoff(k));
    }
  }

  lemma {:induction false} BackoffBelow(k: nat)
    requires k < 6
    ensures Backoff(k) <= 32 && (k >= 1 ==> Backoff(k) >= 2)
  {
  }

  // ----- what to send -----

  /** What `tcp_output` has settled on before the `send:` label. */
  datatype Decision = Decision(send: bool, len: nat, fin: bool, again: bool)

  /** How much unforced output may send from snd_nxt on. */
  function Sendable(s: Snd): int { Min(Max(Min(|s.buf|, s.Win()) - s.Off(), 0), s.maxseg) }

  /** Worth sending as new data: a full segment, the rest of the ring, or half the
      largest window the peer has offered. */
  predicate NotSilly(s: Snd, len: nat) {
    len > 0 && (len == s.maxseg || s.Off() + len >= |s.buf| || (s.maxWnd > 0 && len >= s.maxWnd / 2))
  }

  /** There is something to send from snd_nxt on, and reason enough: it is resent,
      or worth sending as new data. */
  predicate Worth(s: Snd) { Sendable(s) > 0 && (s.Off() < s.MaxOff() || NotSilly(s, Sendable(s))) }

  /** What is being sent fits: data from the ring at snd_nxt, a FIN only at the
      end of the data. */
  ghost predicate Fits(s: Snd, d: Decision) {
    && d.len <= s.maxseg && (d.len > 0 ==> s.Off() + d.len <= |s.buf|)
    && (d.fin ==> s.Off() + d.len >= |s.buf|)
  }

  /** Lines 84-151 of `tcp_output`: how much to send and whether a FIN can go
      with it (`wantFin` is the FIN bit of the state's output flags). Pulls
      snd_nxt back when the window has closed. */
  method Amount(s: Snd, t: Timers, force: bool, wantFin: bool, ghost h: Given)
    returns (s': Snd, t': Timers, d: Decision)
    requires SndInv(s, h) && TimersInv(t)
    ensures SndInv(s', h) && TimersInv(t') && Fits(s', d) && (d.fin ==> wantFin)
    ensures s' == s || (s' == s.(nxt := s.una) && d.len == 0)
    ensures d.again ==> d.len == s.maxseg && s'.Off() + d.len < |s.buf|
    ensures d.again && s.maxseg > 0 ==> !force || t'.persist == 0
    ensures !force && s.Win() >= |s.buf| && !d.again ==> s'.Off() + d.len >= |s.buf| && (wantFin ==> d.fin)
    ensures t' == t.(rexmt := t'.rexmt, persist := t'.persist, shift := t'.shift)
    ensures !force ==> t'.persist == t.persist && t'.shift == t.shift
    ensures force && s.Win() == 0 ==> t'.persist == t.persist && s' == s
    ensures !force ==> d.len == Sendable(s)
    ensures force && s.Win() == 0 && s.Off() == 0 && s.maxseg > 0 ==> d.len == Min(|s.buf|, 1)
  {
    hide Wrap, Add, USub, Diff;
    s', t' := s, t;
    var off := s.Off();
    var win := s.Win();
    var fin := wantFin;
    if force {
      if win == 0 {
        if off < |s.buf| {
          fin := false;
        }
        win := 1;
      } else {
        t' := t.(persist := 0, shift := 0);
      }
    }
    var len := Min(|s.buf|, win) - off;
    if len < 0 {
      len := 0;
      if win == 0 {
        DiffAdd(s.una, s.una);
        t' := t'.(rexmt := 0);
        s' := s.(nxt := s.una);
      }
    }
    var sendalot := false;
    if len > s.maxseg {
      len := s.maxseg;
      sendalot := true;
    }
    Step(s'.una, s'.nxt, len, s'.max, |s.buf|);
    if SeqLT(Add(s'.nxt, len), Add(s'.una, |s.buf|)) {
      fin := false;
    }
    d := Decision(false, len, fin, sendalot);
  }

  /** Lines 84-250: how much to send, whether with a FIN, and whether at all; if
      not, whether to wait for the window to open. `update` is the window-update
      test of lines 186-199. */
  method Decide(s: Snd, t: Timers, force: bool, wantFin: bool, ackNow: bool, update: bool, ghost h: Given)
    returns (s': Snd, t': Timers, d: Decision)
    requires SndInv(s, h) && TimersInv(t) && s.maxseg > 0
    ensures SndInv(s', h) && TimersInv(t') && Fits(s', d) && (d.fin ==> wantFin)
    ensures s' == s || (s' == s.(nxt := s.una) && d.len == 0)
    ensures d.again ==> d.send && d.len == s.maxseg && s'.Off() + d.len < |s.buf|
    ensures d.again ==> !force || t'.persist == 0
    ensures ackNow ==> d.send
    ensures !force ==> d.len == Sendable(s)
    ensures d.len > 0 && (force || s.Off() < s.MaxOff()) ==> d.send
    ensures d.send ==> d.len > 0 || d.fin || ackNow || update
    ensures update || NotSilly(s, d.len) ==> d.send
    ensures force && s.Win() == 0 && t.persist > 0 ==> t'.persist == t.persist
    ensures d.send && !force && !d.fin && !ackNow && !update && s.Off() >= s.MaxOff() ==> NotSilly(s, d.len)
    ensures force && s.Win() == 0 && s.Off() == 0 ==> d.len == Min(|s.buf|, 1)
    ensures !force && s.Win() >= |s.buf| && !d.again ==>
              s'.Off() + (if d.send then d.len else 0) >= |s.buf| &&
              (wantFin && !s.sentFin ==> d.send && d.fin)
    ensures !d.send && |s.buf| > 0 ==> t'.rexmt > 0 || t'.persist > 0
    ensures t' == t.(rexmt := t'.rexmt, persist := t'.persist, shift := t'.shift)
    ensures !force ==>
              (t'.persist == t.persist && t'.shift == t.shift) ||
              (!d.send && t.persist == 0 && t'.persist >= TCPTV_PERSMIN)
  {
    hide Wrap, Add, USub, Diff, Backoff;
    s', t', d := Amount(s, t, force, wantFin, h);
    Step(s'.una, s'.nxt, 0, s'.max, 0);
    var send := d.len > 0 && (d.len == s.maxseg || d.len + s'.Off() >= |s.buf| || force
                              || (d.len >= s.maxWnd / 2 && s.maxWnd > 0) || SeqLT(s'.nxt, s'.max));
    send := send || update || ackNow || (d.fin && (!s.sentFin || s'.nxt == s'.una));
    if !send && |s.buf| > 0 && t'.rexmt == 0 && t'.persist == 0 {
      t' := SetPersist(t'.(shift := 0));
    }
    d := d.(send := send);
  }

  // ----- sending it -----

  /** Lines 292-351: copy the data out of the ring and number the segment. A FIN
      sent again keeps its number. */
  method Compose(s: Snd, t: Timers, d: Decision, ghost h: Given) returns (s': Snd, m: seq<byte>, sn: u32)
    requires SndInv(s, h) && Fits(s, d) && (d.fin ==> !h.finAcked)
    ensures SndInv(s', h) && s' == s.(nxt := s'.nxt)
    ensures s'.Off() == s.Off() - (if d.fin && s.sentFin && s.nxt == s.max then 1 else 0)
    ensures d.fin ==> s'.Off() + d.len == |s.buf|
    ensures |m| == d.len && (d.len > 0 ==> s' == s && m == s.buf[s.Off()..s.Off() + d.len])
    ensures d.len > 0 ==>
              sn == s.nxt == Wrap(h.base + h.una + s.Off()) && SliceOf(Piece(h.una + s.Off(), m, false), h.host)
    ensures d.fin ==> Add(sn, d.len) == Wrap(h.base + |h.host|)
  {
    hide Wrap, Diff, USub, Add;
    s' := s;
    m := if d.len > 0 then s.buf[s.Off()..s.Off() + d.len] else [];
    Step(s.una, s.nxt, -1, s.max, 0);
    if d.fin && s.sentFin && s.nxt == s.max {
      s' := s.(nxt := Add(s.nxt, -1));
    }
    sn := if d.len > 0 || d.fin || t.persist > 0 then s'.nxt else s'.max;
    if !h.finAcked {
      NumberOf(s', h);
    }
    AddOfWrap(h.base + h.una + s'.Off(), d.len);
    if d.len > 0 {
      RingSlice(s.buf, h, s.Off(), d.len);
    }
  }

  /** The stream position that snd_nxt stands for. */
  lemma {:induction false} NumberOf(s: Snd, h: Given)
    requires s.una == Wrap(h.base + h.una) && 0 <= s.Off()
    ensures s.nxt == Wrap(h.base + h.una + s.Off())
  {
    hide Wrap, USub, Diff, Add;
    DiffAdd(s.nxt, s.una);
    AddOfWrap(h.base + h.una, s.Off());
  }

  lemma {:induction false} RingSlice(buf: seq<byte>, h: Given, off: nat, len: nat)
    requires h.una <= |h.host| && buf == h.host[h.una..] && off + len <= |buf|
    ensures SliceOf(Piece(h.una + off, buf[off..off + len], false), h.host)
  {
    assert buf[off..off + len] == h.host[h.una + off..h.una + off + len];
  }

  /** Lines 394-439: move snd_nxt and snd_max over what is being sent, record the
      FIN, start the retransmit timer. A forced probe in persist state only
      moves snd_max. */
  method Advance(s: Snd, t: Timers, force: bool, d: Decision, ghost h: Given) returns (s': Snd, t': Timers)
    requires SndInv(s, h) && TimersInv(t)
    requires d.len > 0 ==> s.Off() + d.len <= |s.buf|
    requires d.fin ==> !h.finAcked && s.Off() + d.len == |s.buf|
    ensures SndInv(s', h) && TimersInv(t')
    ensures s' == s.(nxt := s'.nxt, max := s'.max, sentFin := s'.sentFin)
    ensures var probe := force && t.persist > 0;
            (s'.sentFin <==> s.sentFin || (d.fin && !probe)) &&
            s'.Off() == s.Off() + (if probe then 0 else d.len + (if d.fin then 1 else 0)) &&
            s'.MaxOff() == Max(s.MaxOff(), if probe then s.Off() + d.len else s'.Off())
    ensures t' == t.(rexmt := t'.rexmt, persist := t'.persist, shift := t'.shift, rtt := t'.rtt, rtseq := t'.rtseq)
    ensures !force && s'.Off() > 0 && t.cur > 0 ==> t'.rexmt > 0
    ensures t'.persist == 0 || t'.persist == t.persist
    ensures t.persist == 0 ==> t'.shift == t.shift
    ensures force && t.persist > 0 ==> t' == t
  {
    hide Wrap, Diff, USub, Add;
    s', t' := s, t;
    if !force || t.persist == 0 {
      var step := d.len + if d.fin then 1 else 0;
      Step(s.una, s.nxt, step, s.max, 0);
      s' := s.(nxt := Add(s.nxt, step), sentFin := s.sentFin || d.fin);
      if SeqGT(s'.nxt, s'.max) {
        s' := s'.(max := s'.nxt);
        if t.rtt == 0 {
          t' := t.(rtt := 1, rtseq := s.nxt);
        }
      }
      DiffAdd(s'.nxt, s'.una);
      if t'.rexmt == 0 && s'.nxt != s'.una {
        t' := t'.(rexmt := t'.cur);
        if t'.persist > 0 {
          t' := t'.(persist := 0, shift := 0);
        }
      }
    } else {
      Step(s.una, s.nxt, d.len, s.max, 0);
      if SeqGT(Add(s.nxt, d.len), s.max) {
        s' := s.(max := Add(s.nxt, d.len));
      }
    }
  }

  // ----- acknowledgements -----

  /** `tcp_xmit_timer`: fold a measured round trip into the estimate. */
  function XmitTimer(t: Timers): Timers {
    var delta := t.rtt - 1 - t.srtt / 8;
    var srtt := if t.srtt == 0 then t.rtt * 8 else Max(t.srtt + delta, 1);
    var dev := (if delta < 0 then -delta else delta) - t.rttvar / 4;
    var rttvar := if t.srtt == 0 then t.rtt * 2 else Max(t.rttvar + dev, 1);
    t.(srtt := srtt, rttvar := rttvar, rtt := 0, shift := 0,
       cur := Clamp(srtt / 8 + rttvar, TCPTV_MIN, TCPTV_REXMTMAX))
  }

  /** While no round trip takes more than `r` ticks, the estimator stays in range
      (for r = 4000, within 16 bits), and the timeout between 2 and 24 ticks. */
  lemma {:induction false} EstimatorBounded(t: Timers, r: nat)
    requires 0 < t.rtt <= r && t.srtt <= 8 * r + 7 && (t.srtt > 0 ==> t.rttvar <= 4 * r + 3)
    ensures var t' := XmitTimer(t);
            && t'.srtt <= 8 * r + 7 && t'.rttvar <= 4 * r + 3 && t'.srtt > 0
            && t'.cur == Clamp(t'.srtt / 8 + t'.rttvar, TCPTV_MIN, TCPTV_REXMTMAX) && t'.shift == 0 && t'.rtt == 0
  {
  }

  /** The smoothed round trip (in eighths of a tick) moves towards every sample of
      `rtt - 1` ticks and never past it, and the deviation (in quarters) towards
      the sample's distance from it; the first sample sets both. */
  lemma {:induction false} EstimatorTracks(t: Timers)
    requires t.rtt > 0
    ensures var t', m := XmitTimer(t), t.rtt - 1; var dev := Max(m - t.srtt / 8, t.srtt / 8 - m);
            if t.srtt == 0 then t'.srtt == 8 * t.rtt && t'.rttvar == 2 * t.rtt
            else
              && Towards(t.srtt, t'.srtt, t.srtt / 8, t'.srtt / 8, m)
              && (t.rttvar > 0 ==> Towards(t.rttvar, t'.rttvar, t.rttvar / 4, t'.rttvar / 4, dev))
  {
  }

  /** From `x` to `x'`, whose whole parts are `q` and `q'`, is towards `m`. */
  predicate Towards(x: int, x': int, q: int, q': int, m: int) {
    if q < m then x < x' && q' <= m
    else if q > m then x' <= x && m <= q' && (x > 1 ==> x' < x)
    else x' == x
  }

  /** The congestion window never passes the largest window. Below the threshold
      every ACK of something new opens it by exactly one segment; above, by the
      part of a segment that makes it one segment for every window of segments
      (as long as it holds at least one segment, and does not wrap). */
  lemma {:induction false} CwndGrows(s: Snd)
    ensures OpenedCwnd(s) <= TCP_MAXWIN
    ensures s.cwnd + s.maxseg < M && s.cwnd <= s.ssthresh ==> OpenedCwnd(s) == Min(s.cwnd + s.maxseg, TCP_MAXWIN)
    ensures s.cwnd + s.maxseg < M && s.cwnd > s.ssthresh && s.maxseg <= s.cwnd ==>
              exists part: nat :: OpenedCwnd(s) == Min(s.cwnd + part, TCP_MAXWIN) && part <= s.maxseg &&
                                  part * s.cwnd <= s.maxseg * s.maxseg < (part + 1) * s.cwnd
  {
    hide Wrap;
    if s.cwnd > s.ssthresh && s.maxseg <= s.cwnd {
      var part := s.maxseg * s.maxseg / s.cwnd;
      AtMost(s.maxseg, s.cwnd);
      Small(s.cwnd + part);
      Quotient(s.maxseg * s.maxseg, s.cwnd);
    } else {
      Small(s.cwnd + s.maxseg);
    }
  }

  lemma {:induction false} Quotient(a: nat, c: nat)
    requires c > 0
    ensures (a / c) * c <= a < (a / c + 1) * c
  {
    assert a == (a / c) * c + a % c;
  }

  lemma {:induction false} Small(x: nat)
    ensures x < M ==> Wrap(x) == x
  {
  }

  lemma {:induction false} AtMost(a: nat, c: nat)
    requires 0 < c && a <= c
    ensures 0 <= a * a / c <= a
  {
    var q := a * a / c;
    assert q * c <= a * a;
    Times(a, c, a);
    assert (a + 1) * c == a * c + c;
    if q > a {
      Times(a + 1, q, c);
    }
  }

  lemma {:induction false} Times(x: nat, y: nat, c: nat)
    requires x <= y
    ensures x * c <= y * c
  {
  }

  /** The effect of an ACK on the host's stream: the bytes acknowledged, and the
      FIN if the ACK goes one past them. */
  ghost function Acknowledge(h: Given, acked: int): Given
    requires 0 <= acked && h.una <= |h.host|
  {
    h.(una := Min(h.una + acked, |h.host|), finAcked := h.finAcked || acked > |h.host| - h.una)
  }

  /** Lines 1012-1018: slow start below the threshold, linear growth above. */
  function OpenedCwnd(s: Snd): u32 {
    var incr := if s.cwnd > s.ssthresh then s.maxseg * s.maxseg / s.cwnd else s.maxseg;
    Min(Wrap(s.cwnd + incr), TCP_MAXWIN)
  }

  /** Lines 1012-1031: open the congestion window, drop what is acknowledged
      from the ring, move snd_una and, if need be, snd_nxt. */
  function DropAcked(s: Snd, ack: u32): Snd
    requires 0 <= Diff(ack, s.una)
  {
    var n := Min(Diff(ack, s.una), |s.buf|);
    s.(cwnd := OpenedCwnd(s), wnd := Wrap(s.wnd - n), buf := s.buf[n..],
       una := ack, nxt := if SeqLT(s.nxt, ack) then ack else s.nxt)
  }

  /** Line 1020: the test that takes an ACK to cover our FIN. */
  predicate OurFinIsAcked(s: Snd, ack: u32) { Diff(ack, s.una) > |s.buf| }

  /** An ACK of something outstanding drops exactly the acknowledged bytes, and
      `acked > sb_cc` holds exactly when the recorded FIN is acknowledged. */
  lemma {:induction false} DropAckedFacts(s: Snd, ack: u32, h: Given)
    requires SndInv(s, h) && 0 < Diff(ack, s.una) <= s.MaxOff()
    ensures SndInv(DropAcked(s, ack), Acknowledge(h, Diff(ack, s.una)))
    ensures OurFinIsAcked(s, ack) <==> s.sentFin && !h.finAcked && ack == s.max
    ensures OurFinIsAcked(s, ack) <==> Acknowledge(h, Diff(ack, s.una)).finAcked
  {
    hide Wrap, Diff, USub, Add;
    var n := Min(Diff(ack, s.una), |s.buf|);
    AckMoves(s, ack);
    AckNumber(s, ack, h);
    assert h.host[h.una..][n..] == h.host[h.una + n..];
  }

  lemma {:induction false} AckMoves(s: Snd, ack: u32)
    requires 0 <= s.Off() <= s.MaxOff() <= LIMIT && 0 < Diff(ack, s.una) <= s.MaxOff()
    ensures Diff(s.max, ack) == s.MaxOff() - Diff(ack, s.una)
    ensures Diff(s.nxt, ack) == s.Off() - Diff(ack, s.una)
    ensures Diff(ack, ack) == 0
    ensures ack == s.max <==> Diff(ack, s.una) == s.MaxOff()
  {
    hide Wrap, Diff, USub, Add;
    DiffAdd(s.max, s.una);
    DiffAdd(s.nxt, s.una);
    DiffAdd(ack, s.una);
    DiffAdd(ack, ack);
    DiffAdd(s.max, ack);
    Rel(s.una, s.MaxOff(), Diff(ack, s.una));
    Rel(s.una, s.Off(), Diff(ack, s.una));
  }

  lemma {:induction false} AckNumber(s: Snd, ack: u32, h: Given)
    requires SndInv(s, h) && 0 < Diff(ack, s.una) <= s.MaxOff()
    ensures !h.finAcked && ack == Wrap(h.base + h.una + Diff(ack, s.una))
  {
    DiffAdd(ack, s.una);
    AddOfWrap(h.base + h.una, Diff(ack, s.una));
  }

  /** `soread`'s bytes go to the end of the ring. This keeps the invariant
      exactly when no FIN has been sent. */
  lemma {:induction false} HostGives(s: Snd, m: seq<byte>, h: Given)
    requires SndInv(s, h) && |m| <= s.cap - |s.buf|
    ensures SndInv(s.(buf := s.buf + m), h.(host := h.host + m)) <==> m == [] || !s.sentFin
  {
    assert (h.host + m)[h.una..] == h.host[h.una..] + m;
  }

  /** What goes wrong otherwise: the ACK of the FIN is then taken for an ACK of
      the first new byte, which leaves the ring although no segment sent so far
      reaches it, and the FIN is not recognised as acknowledged. */
  lemma {:induction false} FinRace(s: Snd, m: seq<byte>, h: Given)
    requires SndInv(s, h) && s.sentFin && !h.finAcked && m != []
    ensures var s' := s.(buf := s.buf + m);
            Diff(s.max, s.una) == |s.buf| + 1 && DropAcked(s', s.max).buf == m[1..] && !OurFinIsAcked(s', s.max)
  {
  }
}
