/** The available and the used ring of a virtio queue, with their 16-bit free
    running indices (src/virtio.cc, lines 563-577 and 617-647; sections 2.6.6 to
    2.6.8 of VIRTIO 1.1). */
module VirtioRing {
  import opened Basics
  import opened Virtio

  // ----- masks and wrapping indices -----

  /** Bitwise and. */
  function And(a: nat, b: nat): nat {
    if a == 0 || b == 0 then 0 else 2 * And(a / 2, b / 2) + if a % 2 == 1 && b % 2 == 1 then 1 else 0
  }

  predicate Pow2(n: nat) { n == 1 || (n > 1 && n % 2 == 0 && Pow2(n / 2)) }

  lemma {:induction false} Remainder(x: nat, m: nat, q: int, r: nat)
    requires r < m && x == m * q + r
    ensures x % m == r
  {
    var q', r' := x / m, x % m;
    assert x == m * q' + r';
    assert m * (q - q') == m * q - m * q' && m * (q' - q) == m * q' - m * q;
    if q > q' {
      Scale(m, q - q');
    } else if q < q' {
      Scale(m, q' - q);
    }
  }

  lemma {:induction false} Scale(m: nat, k: nat)
    requires k > 0
    ensures m * k >= m
  {
  }

  lemma {:induction false} Double(x: nat, m: nat)
    requires m > 0
    ensures x % (2 * m) == 2 * (x / 2 % m) + x % 2
  {
    var a, b := x / 2, x % 2;
    var q := a / m;
    assert a == m * q + a % m;
    assert x == (2 * m) * q + (2 * (a % m) + b);
    Remainder(x, 2 * m, q, 2 * (a % m) + b);
  }

  /** `x & (n - 1)` is `x` modulo `n` for a queue size `n`. */
  lemma {:induction false} MaskIsMod(x: nat, n: nat)
    requires Pow2(n)
    ensures And(x, n - 1) == x % n
    decreases n
  {
    if n > 1 {
      MaskIsMod(x / 2, n / 2);
      Double(x, n / 2);
      if x > 0 {
        assert (n - 1) / 2 == n / 2 - 1 && (n - 1) % 2 == 1;
      }
    }
  }

  /** The test that a queue size written by the guest must pass (lines 854-858)
      admits exactly the powers of two. */
  lemma {:induction false} SizeGuard(v: nat)
    requires v > 0
    ensures And(v, v - 1) == 0 <==> Pow2(v)
    decreases v
  {
    if v % 2 == 0 {
      assert (v - 1) / 2 == v / 2 - 1;
      SizeGuard(v / 2);
    } else if v > 1 {
      assert (v - 1) / 2 == v / 2 && (v - 1) % 2 == 0;
      AndSelf(v / 2);
    }
  }

  lemma {:induction false} AndSelf(v: nat)
    ensures And(v, v) == v
    decreases v
  {
    if v > 0 {
      AndSelf(v / 2);
    }
  }

  /** The quotient of two powers of two. */
  function Quotient(n: nat, m: nat): (k: nat)
    requires Pow2(n) && Pow2(m) && n <= m
    ensures m == n * k
    decreases m
  {
    if n == m then 1
    else
      HalfStill(n, m);
      2 * Quotient(n, m / 2)
  }

  lemma {:induction false} HalfStill(n: nat, m: nat)
    requires Pow2(n) && Pow2(m) && n < m
    ensures n <= m / 2 && Pow2(m / 2)
    decreases n
  {
    if n > 1 {
      HalfStill(n / 2, m / 2);
    }
  }

  lemma {:induction false} ModMod(p: nat, n: nat, k: nat)
    requires 0 < n && 0 < n * k
    ensures p % (n * k) % n == p % n
  {
    var q, r := p / (n * k), p % (n * k);
    assert p == n * k * q + r && r == n * (r / n) + r % n;
    assert n * (k * q + r / n) == n * k * q + n * (r / n);
    Remainder(p, n, k * q + r / n, r % n);
  }

  /** A 16-bit index finds the slot of the position it counts. */
  lemma {:induction false} SlotOfIndex(p: nat, n: nat)
    requires Pow2(n) && n <= 0x1_0000
    ensures And(p % 0x1_0000, n - 1) == p % n
  {
    MaskIsMod(p % 0x1_0000, n);
    assert Pow2(0x1_0000) by {
      assert Pow2(16) && Pow2(256) && Pow2(4096);
    }
    ModMod(p, n, Quotient(n, 0x1_0000));
  }

  /** Positions less than a ring apart have different slots. */
  lemma {:induction false} SlotsDiffer(p: nat, p': nat, n: nat)
    requires 0 < n && p < p' < p + n
    ensures p % n != p' % n
  {
    if p % n == p' % n {
      var q, q' := p / n, p' / n;
      assert p == n * q + p % n && p' == n * q' + p' % n;
      assert n * (q' - q) == p' - p && n * (q - q') == p - p';
      if q' > q {
        Scale(n, q' - q);
      } else if q' < q {
        Scale(n, q - q');
      }
    }
  }

  // ----- layout -----

  /** A queue in guest RAM: descriptor table, available ring, used ring. */
  datatype Queue = Queue(t: Table, avail: nat, used: nat) {
    /** The parts fit and do not overlap. */
    predicate Laid(size: nat) {
      && Pow2(t.num) && t.num <= 0x8000 && t.base + 16 * t.num <= size
      && avail + 4 + 2 * t.num <= size && used + 4 + 8 * t.num <= size
      && (used + 4 + 8 * t.num <= t.base || t.base + 16 * t.num <= used)
      && (used + 4 + 8 * t.num <= avail || avail + 4 + 2 * t.num <= used)
      && (avail + 4 + 2 * t.num <= t.base || t.base + 16 * t.num <= avail)
    }

    predicate InUsed(a: nat) { used <= a < used + 4 + 8 * t.num }

    /** Part of what the device only reads. */
    predicate Guarded(a: nat) { !t.Outside(a) || avail <= a < avail + 4 + 2 * t.num }

    function UsedSlot(k: nat): nat { used + 4 + 8 * k }
    function AvailSlot(k: nat): nat { avail + 4 + 2 * k }
  }

  /** `pub` lists the chain heads the driver has published, ever; the available
      ring still holds those from `done` on. */
  ghost predicate AvailOk(m: seq<byte>, q: Queue, pub: seq<nat>, done: nat)
    requires q.Laid(|m|)
  {
    && done <= |pub| <= done + q.t.num && Le16(m, q.avail + 2) == |pub| % 0x1_0000
    && forall p :: done <= p < |pub| ==> HeadAt(m, q, p % q.t.num) == pub[p]
  }

  function HeadAt(m: seq<byte>, q: Queue, k: nat): u16
    requires q.Laid(|m|) && k < q.t.num
  {
    Le16(m, q.AvailSlot(k))
  }

  /** `u` lists the used entries (head, bytes written), ever; the used ring holds
      the latest of them. */
  ghost predicate UsedOk(m: seq<byte>, q: Queue, u: seq<(nat, nat)>)
    requires q.Laid(|m|)
  {
    && Le16(m, q.used + 2) == |u| % 0x1_0000
    && forall p :: 0 <= p < |u| <= p + q.t.num ==> UsedAt(m, q, p % q.t.num) == u[p]
  }

  function UsedAt(m: seq<byte>, q: Queue, k: nat): (nat, nat)
    requires q.Laid(|m|) && k < q.t.num
  {
    (Le32(m, q.UsedSlot(k)), Le32(m, q.UsedSlot(k) + 4))
  }

  // ----- the used ring -----

  function Bytes16(v: u16): seq<byte> { [v % 256, v / 256] }

  function Bytes32(v: nat): seq<byte>
    requires v < 0x1_0000_0000
  {
    Bytes16(v % 0x1_0000) + Bytes16(v / 0x1_0000)
  }

  method Write16(ram: array<byte>, at: nat, v: u16)
    requires at + 2 <= ram.Length
    modifies ram
    ensures Le16(ram[..], at) == v
    ensures forall k :: 0 <= k < ram.Length && (k < at || at + 2 <= k) ==> ram[k] == old(ram[k])
  {
    StoreBytes(ram, at, Bytes16(v));
  }

  method Write32(ram: array<byte>, at: nat, v: nat)
    requires at + 4 <= ram.Length && v < 0x1_0000_0000
    modifies ram
    ensures Le32(ram[..], at) == v
    ensures forall k :: 0 <= k < ram.Length && (k < at || at + 4 <= k) ==> ram[k] == old(ram[k])
  {
    StoreBytes(ram, at, Bytes32(v));
    assert ram[at] == Bytes32(v)[0] && ram[at + 1] == Bytes32(v)[1];
    assert ram[at + 2] == Bytes32(v)[2] && ram[at + 3] == Bytes32(v)[3];
  }

  /** A used entry: its head and its length. */
  method WriteEntry(ram: array<byte>, at: nat, idx: nat, len: nat)
    requires at + 8 <= ram.Length && idx < 0x1_0000_0000 && len < 0x1_0000_0000
    modifies ram
    ensures Le32(ram[..], at) == idx && Le32(ram[..], at + 4) == len
    ensures forall k :: 0 <= k < ram.Length && (k < at || at + 8 <= k) ==> ram[k] == old(ram[k])
  {
    Write32(ram, at, idx);
    ghost var m := ram[..];
    Write32(ram, at + 4, len);
    assert Le32(m, at) == Le32(ram[..], at);
  }

  /** `virtio_consume_desc`: one more used entry, in ring order, whatever the
      16-bit index. */
  method ConsumeDesc(ram: array<byte>, q: Queue, idx: nat, len: nat, ghost u: seq<(nat, nat)>)
    requires q.Laid(ram.Length) && UsedOk(ram[..], q, u) && idx < 0x1_0000_0000 && len < 0x1_0000_0000
    modifies ram
    ensures UsedOk(ram[..], q, u + [(idx, len)])
    ensures forall a :: 0 <= a < ram.Length && !q.InUsed(a) ==> ram[a] == old(ram[a])
  {
    var index: int := Le16(ram[..], q.used + 2);
    SlotOfIndex(|u|, q.t.num);
    Write16(ram, q.used + 2, (index + 1) % 0x1_0000);
    ghost var m := ram[..];
    var k := And(index, q.t.num - 1);
    var addr := q.UsedSlot(k);
    WriteEntry(ram, addr, idx, len);
    OneMoreUsed(old(ram[..]), ram[..], q, u, idx, len);
  }

  /** The two agree on all slots but `k`. */
  ghost predicate OutsideSlot(m: seq<byte>, m': seq<byte>, q: Queue, k: nat) {
    && |m| == |m'|
    && forall a :: q.UsedSlot(0) <= a < |m| && (a < q.UsedSlot(k) || q.UsedSlot(k) + 8 <= a) ==> m'[a] == m[a]
  }

  lemma {:induction false} SlotKept(m: seq<byte>, m': seq<byte>, q: Queue, i: nat, k: nat)
    requires |m| == |m'| && q.Laid(|m|) && i < q.t.num && k < q.t.num && i != k && OutsideSlot(m, m', q, k)
    ensures UsedAt(m', q, i) == UsedAt(m, q, i)
  {
    var s := q.UsedSlot(i);
    assert forall a :: s <= a < s + 8 ==> m'[a] == m[a];
  }

  lemma {:induction false} OneMoreUsed(m: seq<byte>, m': seq<byte>, q: Queue, u: seq<(nat, nat)>, idx: nat, len: nat)
    requires |m| == |m'| && q.Laid(|m|) && UsedOk(m, q, u)
    requires Le16(m', q.used + 2) == (Le16(m, q.used + 2) + 1) % 0x1_0000
    requires UsedAt(m', q, |u| % q.t.num) == (idx, len)
    requires OutsideSlot(m, m', q, |u| % q.t.num)
    ensures UsedOk(m', q, u + [(idx, len)])
  {
    hide OutsideSlot, UsedAt;
    NextIndex(|u|);
    var u' := u + [(idx, len)];
    forall p | 0 <= p < |u'| <= p + q.t.num ensures UsedAt(m', q, p % q.t.num) == u'[p] {
      if p < |u| {
        OlderUsed(m, m', q, u, p);
      }
    }
  }

  lemma {:induction false} OlderUsed(m: seq<byte>, m': seq<byte>, q: Queue, u: seq<(nat, nat)>, p: nat)
    requires |m| == |m'| && q.Laid(|m|) && UsedOk(m, q, u) && p < |u| < p + q.t.num
    requires OutsideSlot(m, m', q, |u| % q.t.num)
    ensures UsedAt(m', q, p % q.t.num) == u[p]
  {
    hide OutsideSlot, UsedAt;
    SlotsDiffer(p, |u|, q.t.num);
    SlotKept(m, m', q, p % q.t.num, |u| % q.t.num);
  }

  /** The next head, at `last_avail_idx` (lines 632-633). */
  lemma {:induction false} NextHead(m: seq<byte>, q: Queue, pub: seq<nat>, done: nat)
    requires q.Laid(|m|) && AvailOk(m, q, pub, done)
    ensures done % 0x1_0000 == Le16(m, q.avail + 2) <==> done == |pub|
    ensures And(done % 0x1_0000, q.t.num - 1) == done % q.t.num < q.t.num
    ensures done < |pub| ==> HeadAt(m, q, done % q.t.num) == pub[done]
  {
    assert q.t.num > 0;
    hide And, Pow2;
    SlotOfIndex(done, q.t.num);
    SameIndex(done, |pub|);
  }

  lemma {:induction false} SameIndex(a: nat, b: nat)
    requires a <= b <= a + 0x8000
    ensures a % 0x1_0000 == b % 0x1_0000 <==> a == b
  {
  }

  lemma {:induction false} AvailKept(m: seq<byte>, m': seq<byte>, q: Queue, pub: seq<nat>, done: nat)
    requires |m| == |m'| && q.Laid(|m|) && AvailOk(m, q, pub, done)
    requires forall a :: 0 <= a < |m| && q.Guarded(a) ==> m'[a] == m[a]
    ensures AvailOk(m', q, pub, done)
  {
    forall p | done <= p < |pub| ensures HeadAt(m', q, p % q.t.num) == pub[p] {
      var a := q.AvailSlot(p % q.t.num);
      assert q.Guarded(a) && q.Guarded(a + 1);
      assert HeadAt(m, q, p % q.t.num) == pub[p];
    }
    assert q.Guarded(q.avail + 2) && q.Guarded(q.avail + 3);
  }

  lemma {:induction false} AvailIndex(m: seq<byte>, q: Queue, pub: seq<nat>, done: nat)
    requires q.Laid(|m|) && AvailOk(m, q, pub, done)
    ensures Le16(m, q.avail + 2) == |pub| % 0x1_0000 && done <= |pub|
  {
  }

  lemma {:induction false} NextIndex(done: nat)
    ensures (done % 0x1_0000 + 1) % 0x1_0000 == (done + 1) % 0x1_0000
  {
  }

  /** The two agree outside the available ring. */
  ghost predicate OnlyAvail(m: seq<byte>, m': seq<byte>, q: Queue) {
    |m| == |m'| && forall a :: 0 <= a < |m| && (a < q.avail || q.avail + 4 + 2 * q.t.num <= a) ==> m'[a] == m[a]
  }

  lemma {:induction false} OneMoreAvail(m: seq<byte>, m1: seq<byte>, m': seq<byte>, q: Queue, pub: seq<nat>,
                                        done: nat, head: u16)
    requires |m| == |m1| == |m'| && q.Laid(|m|) && AvailOk(m, q, pub, done) && |pub| < done + q.t.num
    requires var s := q.AvailSlot(|pub| % q.t.num);
             Le16(m1, s) == head && forall a :: 0 <= a < |m| && (a < s || s + 2 <= a) ==> m1[a] == m[a]
    requires Le16(m', q.avail + 2) == (|pub| + 1) % 0x1_0000
    requires forall a :: 0 <= a < |m| && (a < q.avail + 2 || q.avail + 4 <= a) ==> m'[a] == m1[a]
    ensures AvailOk(m', q, pub + [head as nat], done) && OnlyAvail(m, m', q)
  {
    var pub' := pub + [head as nat];
    var k := |pub| % q.t.num;
    forall p | done <= p < |pub'| ensures HeadAt(m', q, p % q.t.num) == pub'[p] {
      var s := q.AvailSlot(p % q.t.num);
      assert m'[s] == m1[s] && m'[s + 1] == m1[s + 1];
      if p < |pub| {
        SlotsDiffer(p, |pub|, q.t.num);
        assert m1[s] == m[s] && m1[s + 1] == m[s + 1];
        assert HeadAt(m, q, p % q.t.num) == pub[p];
      }
    }
  }

  /** The driver's side of the available ring: one more head, whatever the 16-bit
      index. */
  method WriteAvail(ram: array<byte>, q: Queue, head: u16, ghost pub: seq<nat>, ghost done: nat)
    requires q.Laid(ram.Length) && AvailOk(ram[..], q, pub, done) && |pub| < done + q.t.num
    modifies ram
    ensures AvailOk(ram[..], q, pub + [head as nat], done) && OnlyAvail(old(ram[..]), ram[..], q)
  {
    hide AvailOk, OnlyAvail;
    var n: int := Le16(ram[..], q.avail + 2);
    AvailIndex(ram[..], q, pub, done);
    SlotOfIndex(|pub|, q.t.num);
    NextIndex(|pub|);
    Write16(ram, q.AvailSlot(And(n, q.t.num - 1)), head);
    ghost var m1 := ram[..];
    Write16(ram, q.avail + 2, (n + 1) % 0x1_0000);
    OneMoreAvail(old(ram[..]), m1, ram[..], q, pub, done, head);
  }

  // ----- handing chains over and back -----

  predicate Distinct(s: seq<nat>) { forall i, j :: 0 <= i < j < |s| ==> s[i] != s[j] }

  /** The device may write the chain's buffers: they lie outside the rings and the
      descriptor table. */
  predicate WellPlaced(q: Queue, ch: seq<Desc>) {
    forall i :: 0 <= i < |Writable(ch)| ==> !q.Guarded(Writable(ch)[i]) && !q.InUsed(Writable(ch)[i])
  }

  /** The chain at `head` may be handed to the device. */
  ghost predicate Pending(m: seq<byte>, q: Queue, head: nat, ch: seq<Desc>) {
    ChainAt(m, q.t, head, ch) && WellPlaced(q, ch) && |Writable(ch)| < 0x8000_0000
  }

  lemma {:induction false} PendingKept(m: seq<byte>, m': seq<byte>, q: Queue, head: nat, ch: seq<Desc>)
    requires |m| == |m'| && Pending(m, q, head, ch)
    requires forall a :: 0 <= a < |m| && q.Guarded(a) ==> m'[a] == m[a]
    ensures Pending(m', q, head, ch)
  {
    hide ChainAt, WellPlaced;
    ChainFrame(m, m', q.t, head, ch);
  }

  lemma {:induction false} UsedKept(m: seq<byte>, m': seq<byte>, q: Queue, u: seq<(nat, nat)>)
    requires |m| == |m'| && q.Laid(|m|) && UsedOk(m, q, u)
    requires forall a :: 0 <= a < |m| && q.InUsed(a) ==> m'[a] == m[a]
    ensures UsedOk(m', q, u)
  {
    forall p | 0 <= p < |u| <= p + q.t.num ensures UsedAt(m', q, p % q.t.num) == u[p] {
      var s := q.UsedSlot(p % q.t.num);
      assert forall a :: s <= a < s + 8 ==> q.InUsed(a);
      assert UsedAt(m, q, p % q.t.num) == u[p];
    }
    assert q.InUsed(q.used + 2) && q.InUsed(q.used + 3);
  }

  /** Store a reply at the start of the chain's writable part, as much of it as
      fits, and pass the chain back with one used entry. */
  method PassBack(ram: array<byte>, q: Queue, idx: nat, buf: seq<byte>, ghost u: seq<(nat, nat)>, ghost ch: seq<Desc>)
    requires q.Laid(ram.Length) && UsedOk(ram[..], q, u) && Pending(ram[..], q, idx, ch)
    requires buf != [] && idx < 0x1_0000 && |buf| < 0x1_0000_0000
    modifies ram
    ensures UsedOk(ram[..], q, u + [(idx, |buf|)]) && InRam(Writable(ch), ram.Length)
    ensures forall a :: 0 <= a < ram.Length && !q.InUsed(a) && a !in Writable(ch) ==> ram[a] == old(ram[a])
    ensures forall a :: 0 <= a < ram.Length && q.Guarded(a) ==> ram[a] == old(ram[a])
    ensures var n := Min(|buf|, |Writable(ch)|);
            Distinct(Writable(ch)) ==> Gather(ram[..], Writable(ch)[..n]) == buf[..n]
  {
    hide ChainAt, Scatter, Lead, FromWrite, UsedOk;
    StoreReply(ram, q, idx, buf, ch);
    ghost var m1 := ram[..];
    UsedKept(old(ram[..]), m1, q, u);
    ConsumeDesc(ram, q, idx, |buf|, u);
    ghost var s := Writable(ch)[..Min(|buf|, |Writable(ch)|)];
    assert forall a :: a in s ==> a in Writable(ch);
    assert Distinct(Writable(ch)) ==> Gather(ram[..], s) == Gather(m1, s);
  }

  /** The first half of it: only writable bytes change. */
  method StoreReply(ram: array<byte>, q: Queue, idx: nat, buf: seq<byte>, ghost ch: seq<Desc>)
    requires q.Laid(ram.Length) && Pending(ram[..], q, idx, ch) && buf != []
    modifies ram
    ensures InRam(Writable(ch), ram.Length)
    ensures forall a :: 0 <= a < ram.Length && a !in Writable(ch) ==> ram[a] == old(ram[a])
    ensures var n := Min(|buf|, |Writable(ch)|);
            Distinct(Writable(ch)) ==> Gather(ram[..], Writable(ch)[..n]) == buf[..n]
  {
    hide ChainAt, Scatter, Lead, FromWrite;
    ghost var n := Min(|buf|, |Writable(ch)|);
    ghost var s := Writable(ch)[..n];
    ghost var m0 := ram[..];
    var _ := CopyToQueue(ram, q.t, idx, 0, buf, ch);
    assert Writable(ch)[0..0 + n] == s && forall a :: a in s ==> a in Writable(ch);
    if n == 0 {
      assert s == [];
    } else {
      ScatterFacts(m0, s, buf[..n]);
    }
  }
}
