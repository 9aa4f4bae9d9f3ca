/** The ring buffer under each direction of a connection: src/slirp/sbuf.c, and
    the transfers between it and the host socket in src/slirp/socket.c. Pointers
    into the buffer are offsets from its start. */
module Sbuf {
  import opened Basics

  /** The slot `i` places after `r` in a ring of `n` slots. */
  function Slot(n: nat, r: nat, i: nat): int { if r + i < n then r + i else r + i - n }

  /** The `c` bytes from slot `r` on. */
  function RingOf(d: seq<byte>, r: nat, c: nat): (s: seq<byte>)
    requires c <= |d| && (r < |d| || r == 0)
    ensures |s| == c
  {
    seq(c, i requires 0 <= i < c => d[Slot(|d|, r, i)])
  }

  /** Bytes stored in the free slots after the contents extend them. */
  lemma {:induction false} RingGrows(d: seq<byte>, d': seq<byte>, r: nat, c: nat, m: seq<byte>)
    requires c + |m| <= |d| == |d'| && (r < |d| || r == 0)
    requires forall i :: 0 <= i < c ==> d'[Slot(|d|, r, i)] == d[Slot(|d|, r, i)]
    requires forall i :: c <= i < c + |m| ==> d'[Slot(|d|, r, i)] == m[i - c]
    ensures RingOf(d', r, c + |m|) == RingOf(d, r, c) + m
  {
  }

  /** `len` bytes from slot `from` on, in one or two parts. */
  function Around(d: seq<byte>, from: nat, len: nat): (s: seq<byte>)
    requires from <= |d| && len <= |d|
    ensures |s| == len
  {
    if from + len <= |d| then d[from..from + len] else d[from..] + d[..from + len - |d|]
  }

  /** Some bytes of the ring. */
  lemma {:induction false} RingPart(d: seq<byte>, r: nat, c: nat, off: nat, len: nat)
    requires off + len <= c <= |d| && (r < |d| || r == 0)
    ensures 0 <= Slot(|d|, r, off) <= |d| && RingOf(d, r, c)[off..off + len] == Around(d, Slot(|d|, r, off), len)
  {
    hide RingOf, Around;
    var s, a := RingOf(d, r, c)[off..off + len], Around(d, Slot(|d|, r, off), len);
    forall i | 0 <= i < len ensures s[i] == a[i] {
      RingAt(d, r, c, off, i);
      AroundAt(d, Slot(|d|, r, off), len, i);
    }
  }

  lemma {:induction false} RingAt(d: seq<byte>, r: nat, c: nat, off: nat, i: nat)
    requires off + i < c <= |d| && r < |d|
    ensures 0 <= Slot(|d|, r, off) < |d| && RingOf(d, r, c)[off + i] == d[Slot(|d|, Slot(|d|, r, off), i)]
  {
    assert Slot(|d|, Slot(|d|, r, off), i) == Slot(|d|, r, off + i);
  }

  lemma {:induction false} AroundAt(d: seq<byte>, from: nat, len: nat, i: nat)
    requires from <= |d| && i < len <= |d|
    ensures Around(d, from, len)[i] == d[Slot(|d|, from, i)]
  {
  }

  /** A part of the buffer handed to `recv` or `send`. */
  datatype Iovec = Iovec(start: nat, len: nat)

  /** How much of `space` free bytes is offered to the host: all of it or, above
      one mss, the largest multiple of the mss. */
  function Offer(space: nat, mss: nat): (n: nat)
    requires mss > 0
    ensures n <= space && (space > 0 ==> n > 0) && (space <= mss ==> n == space)
    ensures space > mss ==> n == space / mss * mss && space - n < mss
  {
    if space > mss then space - space % mss else space
  }

  /** `total` slots from `at` on, in one or two parts. */
  function Parts(cap: nat, at: nat, total: nat): seq<Iovec>
    requires at <= cap
  {
    if total == 0 then []
    else if at + total <= cap then [Iovec(at, total)]
    else [Iovec(at, cap - at), Iovec(0, at + total - cap)]
  }

  /** How many bytes two host calls move over those parts: the first call is for
      the first part, and only if it fills that part there is a second for the
      rest. The calls would return `ret1` and `ret2`, `limit` is what there is. */
  function Taken(cap: nat, at: nat, total: nat, limit: nat, ret1: int, ret2: int): (n: nat)
    requires at <= cap && (at < cap || total == 0)
    ensures n <= total && n <= limit && (n == 0 <==> total == 0 || limit == 0 || ret1 <= 0)
    ensures ret1 >= total && ret2 >= total ==> n == Min(total, limit)
    ensures var first := Min(total, cap - at);
            if n < first then n == Min(Max(ret1, 0), limit)
            else first > 0 ==> ret1 >= first && n - first == Min(Max(ret2, 0), Min(total - first, limit - first))
  {
    var first := Min(total, cap - at);
    var n := Min(Max(ret1, 0), Min(first, limit));
    if first < total && n == first && ret2 > 0 then n + Min(ret2, Min(total - first, limit - n)) else n
  }

  class Ring {
    const data: array<byte>
    var rptr: nat
    var wptr: nat
    var cc: nat

    ghost predicate Valid()
      reads this
    {
      && cc <= data.Length && (rptr < data.Length || rptr == 0)
      && wptr == Slot(data.Length, rptr, cc)
    }

    /** The bytes in the ring, oldest first. */
    ghost function Contents(): seq<byte>
      reads this, data
      requires Valid()
    {
      RingOf(data[..], rptr, cc)
    }

    ghost function Space(): nat
      reads this
      requires Valid()
    {
      data.Length - cc
    }

    /** `sbreserve` of a fresh buffer. */
    constructor (size: nat)
      ensures Valid() && fresh(data) && data.Length == size && Contents() == []
    {
      data := new byte[size](_ => 0);
      rptr, wptr, cc := 0, 0, 0;
    }

    /** `memcpy` into the buffer. */
    method Store(at: nat, m: seq<byte>)
      requires at + |m| <= data.Length
      modifies data
      ensures forall k :: 0 <= k < data.Length ==> data[k] == if at <= k < at + |m| then m[k - at] else old(data[k])
    {
      var i := 0;
      while i < |m|
        invariant 0 <= i <= |m|
        invariant forall k :: 0 <= k < data.Length ==> data[k] == if at <= k < at + i then m[k - at] else old(data[k])
      {
        data[at + i] := m[i];
        i := i + 1;
      }
    }

    /** Move the write pointer over `n` bytes already stored in the free slots. */
    method Commit(n: nat)
      requires Valid() && n <= Space()
      modifies this`wptr, this`cc
      ensures Valid() && rptr == old(rptr) && cc == old(cc) + n
    {
      cc := cc + n;
      wptr := wptr + n;
      if wptr >= data.Length {
        wptr := wptr - data.Length;
      }
    }

    /** Move the read pointer over `n` bytes. */
    method Advance(n: nat)
      requires Valid() && n <= cc
      modifies this`rptr, this`cc
      ensures Valid() && Contents() == old(Contents())[n..] && cc == old(cc) - n
      ensures rptr == Slot(data.Length, old(rptr), n)
    {
      cc := cc - n;
      rptr := rptr + n;
      if rptr >= data.Length {
        rptr := rptr - data.Length;
      }
      ghost var c := Contents();
      assert forall i :: 0 <= i < cc ==> c[i] == old(Contents())[n..][i];
    }

    /** The copying of lines 130-147: what fits of `m` into the free slots. */
    method StoreFree(m: seq<byte>) returns (n: nat)
      requires Valid() && (Space() > 0 || m == [])
      modifies data
      ensures n == Min(|m|, Space())
      ensures forall i :: 0 <= i < cc ==> data[Slot(data.Length, rptr, i)] == old(data[Slot(data.Length, rptr, i)])
      ensures forall i :: cc <= i < cc + n ==> data[Slot(data.Length, rptr, i)] == m[i - cc]
    {
      if wptr < rptr {
        n := Min(rptr - wptr, |m|);
        Store(wptr, m[..n]);
      } else {
        n := Min(data.Length - wptr, |m|);
        Store(wptr, m[..n]);
        if n < |m| {
          var nn := Min(rptr, |m| - n);
          Store(0, m[n..n + nn]);
          n := n + nn;
        }
      }
    }

    /** `sbappendsb`: what fits of `m` goes to the end. A full ring must not be
        appended to. */
    method Append(m: seq<byte>)
      requires Valid() && (Space() > 0 || m == [])
      modifies this, data
      ensures Valid() && Contents() == old(Contents()) + m[..Min(|m|, old(Space()))] && rptr == old(rptr)
    {
      hide RingOf;
      var n := StoreFree(m);
      RingGrows(old(data[..]), data[..], rptr, cc, m[..n]);
      Commit(n);
    }

    /** `sbdrop`. */
    method Drop(num: nat)
      requires Valid()
      modifies this`rptr, this`cc
      ensures Valid() && Contents() == old(Contents())[Min(num, old(cc))..]
      ensures rptr == Slot(data.Length, old(rptr), Min(num, old(cc)))
    {
      Advance(Min(num, cc));
    }

    /** `sbcopy`: `len` bytes from `off` on, whether or not they wrap. */
    method Copy(off: nat, len: nat) returns (to: seq<byte>)
      requires Valid() && off + len <= cc
      ensures to == Contents()[off..off + len]
    {
      hide RingOf, Around;
      var from := rptr + off;
      if from >= data.Length {
        from := from - data.Length;
      }
      RingPart(data[..], rptr, cc, off, len);
      to := CopyFrom(from, len, from < wptr);
    }

    /** Lines 171-180 of it: `straight` if the bytes end before the write pointer. */
    method CopyFrom(from: nat, len: nat, straight: bool) returns (to: seq<byte>)
      requires from <= data.Length && len <= cc <= data.Length && (straight ==> from + len <= data.Length)
      ensures to == Around(data[..], from, len)
    {
      var d := data[..];
      if straight {
        to := d[from..from + Min(len, cc)];
      } else {
        var n := Min(|d| - from, len);
        to := d[from..from + n];
        if n < len {
          assert d[from..from + n] == d[from..];
          to := to + d[..len - n];
        }
      }
    }

    /** `sopreprbuf`: the free slots to read into, in order. A full ring offers
        none. */
    method Prepare(mss: nat) returns (iov: seq<Iovec>, total: nat)
      requires Valid() && mss > 0
      ensures total == Offer(Space(), mss) && iov == Parts(data.Length, wptr, total)
    {
      var len := data.Length - cc;
      if len <= 0 {
        return [], 0;
      }
      if wptr < rptr {
        var n := Min(rptr - wptr, len);
        n := if n > mss then n - n % mss else n;
        return [Iovec(wptr, n)], n;
      }
      var n0 := Min(data.Length - wptr, len);
      len := len - n0;
      if len == 0 {
        n0 := if n0 > mss then n0 - n0 % mss else n0;
        return [Iovec(wptr, n0)], n0;
      }
      var n1 := Min(rptr, len);
      total := n0 + n1;
      if total <= mss {
        return [Iovec(wptr, n0), Iovec(0, n1)], total;
      }
      var lss := total % mss;
      if n1 > lss {
        return [Iovec(wptr, n0), Iovec(0, n1 - lss)], total - lss;
      }
      return [Iovec(wptr, n0 - (lss - n1))], total - lss;
    }

    /** Bytes stored in the first free slots and committed are appended. */
    method Fill(iov: seq<Iovec>, ghost total: nat, m: seq<byte>)
      requires Valid() && |m| <= total <= Space() && iov == Parts(data.Length, wptr, total)
      modifies this`wptr, this`cc, data
      ensures Valid() && Contents() == old(Contents()) + m && rptr == old(rptr)
    {
      hide RingOf;
      if iov != [] {
        var n := Min(iov[0].len, |m|);
        Store(iov[0].start, m[..n]);
        if n < |m| {
          Store(iov[1].start, m[n..]);
        }
      }
      RingGrows(old(data[..]), data[..], rptr, cc, m);
      Commit(|m|);
    }

    /** `soread`: a first `recv` into the first part and, if that fills it, a
        second into the second. `avail` is what the host has, `ret1` and `ret2`
        what the calls are willing to return (at most what is there and fits);
        an error or the end of data is reported only from the first. */
    method Read(mss: nat, avail: seq<byte>, ret1: int, ret2: int) returns (nn: int)
      requires Valid() && mss > 0 && Space() > 0
      modifies this`wptr, this`cc, data
      ensures Valid() && rptr == old(rptr)
      ensures var n := old(Taken(data.Length, wptr, Offer(Space(), mss), |avail|, ret1, ret2));
              nn == (if n == 0 then -1 else n) && Contents() == old(Contents()) + avail[..n]
    {
      var iov, total := Prepare(mss);
      nn := Min(ret1, Min(iov[0].len, |avail|));
      if nn <= 0 {
        return -1;
      }
      if |iov| == 2 && nn == iov[0].len && ret2 > 0 {
        nn := nn + Min(ret2, Min(iov[1].len, |avail| - nn));
      }
      Fill(iov, total, avail[..nn]);
    }

    /** `soreadbuf`: all of `buf` or, if the host was offered less room, -1. */
    method ReadBuf(mss: nat, buf: seq<byte>) returns (nn: int)
      requires Valid() && mss > 0
      modifies this`wptr, this`cc, data
      ensures Valid() && Contents() == old(Contents()) + (if nn == -1 then [] else buf) && rptr == old(rptr)
      ensures nn == if |buf| > old(Offer(Space(), mss)) then -1 else |buf|
    {
      var iov, total := Prepare(mss);
      if total < |buf| {
        return -1;
      }
      Fill(iov, total, buf);
      nn := |buf|;
    }

    /** Lines 360-379 of `sowrite`: the occupied slots, in order. */
    method Occupied() returns (iov: seq<Iovec>)
      requires Valid() && cc > 0
      ensures iov == Parts(data.Length, rptr, cc)
    {
      var len := cc;
      if rptr < wptr {
        return [Iovec(rptr, Min(wptr - rptr, len))];
      }
      var n0 := Min(data.Length - rptr, len);
      len := len - n0;
      iov := if len > 0 then [Iovec(rptr, n0), Iovec(0, Min(wptr, len))] else [Iovec(rptr, n0)];
    }

    /** `sowrite`: offer the oldest bytes to the host in one or two parts; `ret1`
        and `ret2` are the results of the sends. What it took leaves the ring. */
    method Write(ret1: int, ret2: int) returns (nn: int, sent: seq<byte>)
      requires Valid() && cc > 0
      modifies this`rptr, this`cc
      ensures var n := old(Taken(data.Length, rptr, cc, cc, ret1, ret2));
              nn == (if n == 0 then -1 else n) && sent == old(Contents())[..n] &&
              Valid() && Contents() == old(Contents())[n..] && rptr == Slot(data.Length, old(rptr), n)
    {
      hide RingOf;
      if ret1 <= 0 {
        return -1, [];
      }
      hide Taken, Parts, Around;
      var iov := Occupied();
      var n := Sent(iov, ret1, ret2);
      sent := FromParts(iov, n, rptr, cc);
      RingPart(data[..], rptr, cc, 0, n);
      assert Contents()[0..0 + n] == Contents()[..n];
      nn := n;
      Advance(n);
    }

    /** Its calls: a second one only if the first sends its whole part. */
    method Sent(iov: seq<Iovec>, ret1: int, ret2: int) returns (n: nat)
      requires Valid() && cc > 0 && ret1 > 0 && iov == Parts(data.Length, rptr, cc)
      ensures n == Taken(data.Length, rptr, cc, cc, ret1, ret2)
    {
      n := Min(ret1, iov[0].len);
      if |iov| == 2 && n == iov[0].len && ret2 > 0 {
        n := n + Min(ret2, iov[1].len);
      }
    }

    /** The first `n` bytes of one or two parts. */
    method FromParts(iov: seq<Iovec>, n: nat, ghost at: nat, ghost total: nat) returns (m: seq<byte>)
      requires 0 < n <= total <= data.Length && at <= data.Length && iov == Parts(data.Length, at, total)
      ensures m == Around(data[..], at, n)
    {
      var d := data[..];
      var k := Min(n, iov[0].len);
      m := d[iov[0].start..iov[0].start + k];
      if k < n {
        m := m + d[iov[1].start..iov[1].start + (n - k)];
      }
    }

    ghost function Now(): Fifo
      reads this, data
      requires Valid()
    {
      Fifo(Contents(), rptr, data.Length)
    }
  }

  // ----- the reference: a bounded byte queue -----

  /** The contents, oldest first; where they begin in a buffer of `cap` bytes,
      which matters only for how host calls are split. */
  datatype Fifo = Fifo(bytes: seq<byte>, at: nat, cap: nat) {
    predicate Fits() { |bytes| <= cap && (at < cap || at == 0) }

    /** `m` at the end, `n` bytes off the front. */
    function Put(m: seq<byte>): Fifo { this.(bytes := bytes + m) }

    function Take(n: nat): Fifo
      requires n <= |bytes|
    {
      Fifo(bytes[n..], Slot(cap, at, n), cap)
    }
  }

  /** One use of a ring. */
  datatype Op =
    | PutBytes(m: seq<byte>)
    | DropBytes(num: nat)
    | CopyBytes(off: nat, len: nat)
    | ReadHost(avail: seq<byte>, ret1: int, ret2: int)
    | ReadBuffer(buf: seq<byte>)
    | WriteHost(ret1: int, ret2: int)

  /** Bytes that went in, left from the front, or were copied. */
  datatype Flow = In(m: seq<byte>) | Out(m: seq<byte>) | Copied(m: seq<byte>)

  /** What each use does to the queue. */
  function Step(f: Fifo, mss: nat, op: Op): (r: (Fifo, Flow))
    requires f.Fits() && mss > 0
    ensures r.0.Fits() && r.0.cap == f.cap
  {
    var space := f.cap - |f.bytes|;
    match op
    case PutBytes(m) => var n := Min(|m|, space); (f.Put(m[..n]), In(m[..n]))
    case DropBytes(num) => var n := Min(num, |f.bytes|); (f.Take(n), Out(f.bytes[..n]))
    case CopyBytes(off, len) =>
      var o := Min(off, |f.bytes|);
      (f, Copied(f.bytes[o..o + Min(len, |f.bytes| - o)]))
    case ReadHost(avail, ret1, ret2) =>
      var n := Taken(f.cap, Slot(f.cap, f.at, |f.bytes|), Offer(space, mss), |avail|, ret1, ret2);
      (f.Put(avail[..n]), In(avail[..n]))
    case ReadBuffer(buf) => var m := if |buf| <= Offer(space, mss) then buf else []; (f.Put(m), In(m))
    case WriteHost(ret1, ret2) =>
      var n := Taken(f.cap, f.at, |f.bytes|, |f.bytes|, ret1, ret2);
      (f.Take(n), Out(f.bytes[..n]))
  }

  /** Any sequence of uses. */
  function Steps(f: Fifo, mss: nat, ops: seq<Op>): (r: (Fifo, seq<Flow>))
    requires f.Fits() && mss > 0
    ensures r.0.Fits() && r.0.cap == f.cap && |r.1| == |ops|
  {
    if ops == [] then (f, [])
    else
      var (g, log) := Steps(f, mss, ops[..|ops| - 1]);
      var (g', x) := Step(g, mss, ops[|ops| - 1]);
      (g', log + [x])
  }

  function Ins(log: seq<Flow>): seq<byte> {
    if log == [] then [] else Ins(log[..|log| - 1]) + if log[|log| - 1].In? then log[|log| - 1].m else []
  }

  function Outs(log: seq<Flow>): seq<byte> {
    if log == [] then [] else Outs(log[..|log| - 1]) + if log[|log| - 1].Out? then log[|log| - 1].m else []
  }

  lemma {:induction false} StepKeeps(f: Fifo, mss: nat, op: Op)
    requires f.Fits() && mss > 0
    ensures var (g, x) := Step(f, mss, op);
            match x
            case In(m) => g.bytes == f.bytes + m
            case Out(m) => f.bytes == m + g.bytes
            case Copied(m) => g == f
  {
    hide Taken, Offer;
  }

  lemma {:induction false} LogOne(log: seq<Flow>, x: Flow)
    ensures Ins(log + [x]) == Ins(log) + if x.In? then x.m else []
    ensures Outs(log + [x]) == Outs(log) + if x.Out? then x.m else []
  {
    assert (log + [x])[..|log|] == log;
  }

  /** Bytes out, then bytes still held, are the bytes held at first, then the
      bytes in: nothing is lost, repeated or reordered, over any uses. */
  lemma {:induction false} StepsKeep(f: Fifo, mss: nat, ops: seq<Op>)
    requires f.Fits() && mss > 0
    ensures var (g, log) := Steps(f, mss, ops); Outs(log) + g.bytes == f.bytes + Ins(log)
    decreases |ops|
  {
    if ops != [] {
      var (g, log) := Steps(f, mss, ops[..|ops| - 1]);
      var (g', x) := Step(g, mss, ops[|ops| - 1]);
      StepsKeep(f, mss, ops[..|ops| - 1]);
      StepKeeps(g, mss, ops[|ops| - 1]);
      LogOne(log, x);
      Shift(f.bytes, Ins(log), Outs(log), g.bytes, x, g'.bytes);
    }
  }

  lemma {:induction false} Shift(before: seq<byte>, ins: seq<byte>, outs: seq<byte>, now: seq<byte>, x: Flow,
                                 now': seq<byte>)
    requires outs + now == before + ins
    requires match x case In(m) => now' == now + m case Out(m) => now == m + now' case Copied(_) => now' == now
    ensures (outs + if x.Out? then x.m else []) + now' == before + (ins + if x.In? then x.m else [])
  {
    match x
    case In(m) =>
      Assoc(outs, now, m);
      Assoc(before, ins, m);
      assert outs + [] == outs;
    case Out(m) =>
      Assoc(outs, m, now');
      assert ins + [] == ins;
    case Copied(_) =>
      assert outs + [] == outs && ins + [] == ins;
  }

  /** Any sequence of uses of the ring is the same sequence of uses of the queue,
      move for move. */
  method Drive(r: Ring, mss: nat, ops: seq<Op>) returns (log: seq<Flow>)
    requires r.Valid() && mss > 0
    modifies r, r.data
    ensures r.Valid() && old(r.Now()).Fits() && (r.Now(), log) == Steps(old(r.Now()), mss, ops)
    ensures Outs(log) + r.Contents() == old(r.Contents()) + Ins(log)
  {
    hide RingOf, Step;
    log := [];
    var i := 0;
    while i < |ops|
      invariant 0 <= i <= |ops| && r.Valid() && (r.Now(), log) == Steps(old(r.Now()), mss, ops[..i])
    {
      var f := Use(r, mss, ops[i]);
      assert ops[..i + 1][..i] == ops[..i];
      log := log + [f];
      i := i + 1;
    }
    assert ops[..i] == ops;
    StepsKeep(old(r.Now()), mss, ops);
  }

  /** One use. What it finds no room for stays outside: a full ring is neither
      appended to nor read into, an empty one not written. */
  method Use(r: Ring, mss: nat, op: Op) returns (f: Flow)
    requires r.Valid() && mss > 0
    modifies r, r.data
    ensures r.Valid() && old(r.Now()).Fits() && (r.Now(), f) == Step(old(r.Now()), mss, op)
  {
    hide RingOf, Taken, Offer;
    var free := r.data.Length - r.cc;
    match op {
      case PutBytes(m) =>
        if free > 0 {
          r.Append(m);
        }
        f := In(m[..Min(|m|, free)]);
        assert free == 0 ==> old(r.Contents()) + m[..0] == old(r.Contents());
      case DropBytes(num) =>
        var m := r.Copy(0, Min(num, r.cc));
        r.Drop(num);
        f := Out(m);
      case CopyBytes(off, len) =>
        var o := Min(off, r.cc);
        var m := r.Copy(o, Min(len, r.cc - o));
        f := Copied(m);
      case _ => f := UseHost(r, mss, op);
    }
  }

  /** One transfer from or to the host. */
  method UseHost(r: Ring, mss: nat, op: Op) returns (f: Flow)
    requires r.Valid() && mss > 0 && (op.ReadHost? || op.ReadBuffer? || op.WriteHost?)
    modifies r, r.data
    ensures r.Valid() && old(r.Now()).Fits() && (r.Now(), f) == Step(old(r.Now()), mss, op)
  {
    hide RingOf, Taken, Offer;
    match op {
      case ReadHost(avail, ret1, ret2) =>
        var nn := -1;
        if r.cc < r.data.Length {
          nn := r.Read(mss, avail, ret1, ret2);
        }
        f := In(if nn == -1 then [] else avail[..nn]);
        assert avail[..0] == [] && old(r.Contents()) + [] == old(r.Contents());
      case ReadBuffer(buf) =>
        var nn := r.ReadBuf(mss, buf);
        f := In(if nn == -1 then [] else buf);
      case WriteHost(ret1, ret2) =>
        var sent := [];
        if r.cc > 0 {
          var nn;
          nn, sent := r.Write(ret1, ret2);
        }
        f := Out(sent);
    }
  }
}
