/** IP reassembly: src/slirp/ip_input.c. A queue of fragments per
    (id, source, destination, protocol), filled by `ip_reass`, aged by
    `ip_slowtimo`, and turned back into one packet once it has no hole. */
module IpReass {
  import opened Basics
  import opened Pieces

  const IP_MF: int := 0x2000
  const IP_DF: int := 0x4000
  const IPFRAGTTL: nat := 60

  datatype Key = Key(id: u16, src: int, dst: int, proto: int)

  /** One `struct ipq`; a piece's mark is the MF flag kept in `ip_tos & 1`. */
  datatype FragQueue = FragQueue(key: Key, ttl: nat, frags: seq<Piece>)

  // ----- the header's offset field -----

  predicate MoreFragments(ipOff: u16) { ipOff / IP_MF % 2 == 1 }

  /** `ip_off <<= 3` on a uint16_t: the three flag bits leave at the top. */
  function ByteOffset(ipOff: u16): u16 { ipOff * 8 % 0x1_0000 }

  /** `ip_off & ~IP_DF` is non-zero. */
  predicate NotWhole(ipOff: u16) { ipOff != 0 && ipOff != IP_DF }

  predicate IsFragment(ipOff: u16) {
    NotWhole(ipOff) && (MoreFragments(ipOff) || ByteOffset(ipOff) > 0)
  }

  function Decode(ipOff: u16, payload: seq<byte>): Piece {
    Piece(ByteOffset(ipOff), payload, MoreFragments(ipOff))
  }

  // ----- when a fragment belongs to a datagram -----

  /** `p` is a fragment of the datagram `d`: a slice of it, flagged MF exactly
      when bytes follow. */
  predicate FragmentOf(p: Piece, d: seq<byte>) {
    SliceOf(p, d) && (p.mark <==> p.End() < |d|)
  }

  predicate FragmentsOf(q: seq<Piece>, d: seq<byte>) {
    forall i :: 0 <= i < |q| ==> FragmentOf(q[i], d)
  }

  ghost predicate Covers(q: seq<Piece>, d: seq<byte>) {
    forall x :: 0 <= x < |d| ==> Has(q, x)
  }

  /** The state of a queue while a datagram is being collected: only fragments
      of `d`, and some byte of `d` still missing. */
  ghost predicate Pending(q: seq<Piece>, d: seq<byte>) {
    FragmentsOf(q, d) && !Covers(q, d)
  }

  lemma {:induction false} InsertFragments(q: seq<Piece>, p: Piece, d: seq<byte>)
    requires FragmentsOf(q, d) && FragmentOf(p, d)
    ensures FragmentsOf(Insert(q, p), d)
  {
    var f := (e: int, m: bool) => m <==> e < |d|;
    InsertSlices(q, p, d);
    InsertEnds(q, p, f);
    forall i | 0 <= i < |Insert(q, p)|
      ensures FragmentOf(Insert(q, p)[i], d)
    {
      assert f(Insert(q, p)[i].End(), Insert(q, p)[i].mark);
    }
  }

  // ----- the completion test -----

  /** The pieces follow one another without a hole from `next` on. */
  predicate Contiguous(q: seq<Piece>, next: int) {
    q == [] || (q[0].off == next && Contiguous(q[1..], q[0].End()))
  }

  function LastEnd(q: seq<Piece>, next: int): int {
    if q == [] then next else q[|q| - 1].End()
  }

  function Payload(q: seq<Piece>): seq<byte> {
    if q == [] then [] else q[0].data + Payload(q[1..])
  }

  predicate Complete(q: seq<Piece>) {
    Contiguous(q, 0) && q != [] && !q[|q| - 1].mark
  }

  lemma {:induction false} CoverGivesContiguous(q: seq<Piece>, next: int, d: seq<byte>)
    requires Sorted(q) && SlicesOf(q, d) && 0 <= next <= |d|
    requires forall i :: 0 <= i < |q| ==> next <= q[i].off
    requires forall x :: next <= x < |d| ==> Has(q, x)
    ensures Contiguous(q, next) && LastEnd(q, next) == |d|
  {
    if q == [] {
      assert !Has(q, next);
    } else {
      FirstAtEdge(q, next, d);
      forall x | q[0].End() <= x < |d|
        ensures Has(q[1..], x)
      {
        HasSplit(q, 1, x);
        HasOne(q[0], x);
        assert q[..1] == [q[0]];
      }
      assert forall i :: 0 <= i < |q[1..]| ==> q[1..][i] == q[i + 1];
      CoverGivesContiguous(q[1..], q[0].End(), d);
    }
  }

  lemma {:induction false} FirstAtEdge(q: seq<Piece>, next: int, d: seq<byte>)
    requires q != [] && Sorted(q) && SlicesOf(q, d) && 0 <= next <= |d| && next <= q[0].off
    requires next < |d| ==> Has(q, next)
    ensures q[0].off == next && q[0].End() <= |d|
  {
    assert SliceOf(q[0], d);
    if next < |d| {
      var i :| 0 <= i < |q| && q[i].Has(next);
      assert i > 0 ==> q[0].End() <= q[i].off;
    }
  }

  lemma {:induction false} ContiguousPayload(q: seq<Piece>, next: int, d: seq<byte>)
    requires SlicesOf(q, d) && 0 <= next <= |d| && Contiguous(q, next)
    ensures next <= LastEnd(q, next) <= |d|
    ensures Payload(q) == d[next..LastEnd(q, next)]
    ensures forall x :: next <= x < LastEnd(q, next) ==> Has(q, x)
  {
    if q != [] {
      assert SliceOf(q[0], d);
      ContiguousPayload(q[1..], q[0].End(), d);
      assert LastEnd(q, next) == LastEnd(q[1..], q[0].End());
      forall x | next <= x < LastEnd(q, next)
        ensures Has(q, x)
      {
        HasSplit(q, 1, x);
        HasOne(q[0], x);
        assert q[..1] == [q[0]];
      }
    }
  }

  /** The test the code makes (no hole, last fragment without MF) succeeds
      exactly when every byte of the datagram is there, and then the
      concatenation is the datagram. */
  lemma {:induction false} CompleteIffCovered(q: seq<Piece>, d: seq<byte>)
    requires Sorted(q) && FragmentsOf(q, d) && q != []
    ensures Complete(q) <==> Covers(q, d)
    ensures Complete(q) ==> Payload(q) == d
  {
    assert SlicesOf(q, d);
    if Covers(q, d) {
      CoverGivesContiguous(q, 0, d);
      assert FragmentOf(q[|q| - 1], d);
    }
    if Complete(q) {
      assert FragmentOf(q[|q| - 1], d);
      ContiguousPayload(q, 0, d);
    }
  }

  // ----- ageing -----

  /** One pass of `ip_slowtimo`. */
  function Aged(ipq: seq<FragQueue>): seq<FragQueue> {
    if ipq == [] then []
    else if ipq[0].ttl <= 1 then Aged(ipq[1..])
    else [ipq[0].(ttl := ipq[0].ttl - 1)] + Aged(ipq[1..])
  }

  ghost predicate DistinctKeys(ipq: seq<FragQueue>) {
    forall i, j :: 0 <= i < j < |ipq| ==> ipq[i].key != ipq[j].key
  }

  ghost predicate Live(f: FragQueue) {
    f.ttl > 0 && f.frags != [] && Sorted(f.frags) && forall i :: 0 <= i < |f.frags| ==> 0 <= f.frags[i].off
  }

  /** Every queue in the aged list is an old one with one tick less to live,
      and a queue is dropped exactly when its last tick is used up. */
  lemma {:induction false} AgedFacts(ipq: seq<FragQueue>, f: FragQueue)
    ensures f in Aged(ipq) <==> f.ttl >= 1 && f.(ttl := f.ttl + 1) in ipq
  {
    if ipq != [] {
      AgedFacts(ipq[1..], f);
      var g := f.(ttl := f.ttl + 1);
      assert g in ipq <==> g == ipq[0] || g in ipq[1..];
      assert f.ttl >= 1 ==> (g == ipq[0] <==> ipq[0].ttl > 1 && f == ipq[0].(ttl := ipq[0].ttl - 1));
    }
  }

  lemma {:induction false} AgedDistinct(ipq: seq<FragQueue>)
    requires DistinctKeys(ipq)
    ensures DistinctKeys(Aged(ipq))
  {
    if ipq != [] {
      AgedDistinct(ipq[1..]);
      var r := Aged(ipq[1..]);
      forall j | 0 <= j < |r|
        ensures r[j].key != ipq[0].key
      {
        AgedFacts(ipq[1..], r[j]);
        assert r[j] in r;
        var i :| 0 <= i < |ipq[1..]| && ipq[1..][i] == r[j].(ttl := r[j].ttl + 1);
        assert ipq[i + 1].key == r[j].key;
      }
    }
  }

  // ----- the fragments held for one key -----

  function QueueIn(ipq: seq<FragQueue>, key: Key): Option<FragQueue> {
    if ipq == [] then None
    else if ipq[0].key == key then Some(ipq[0])
    else QueueIn(ipq[1..], key)
  }

  function HeldIn(ipq: seq<FragQueue>, key: Key): seq<Piece> {
    match QueueIn(ipq, key)
    case None => []
    case Some(f) => f.frags
  }

  lemma {:induction false} QueueSplice(a: seq<FragQueue>, f: seq<FragQueue>, b: seq<FragQueue>, key: Key)
    requires forall i :: 0 <= i < |f| ==> f[i].key != key
    ensures QueueIn(a + f + b, key) == QueueIn(a + b, key)
  {
    if a != [] {
      assert (a + f + b)[1..] == a[1..] + f + b && (a + b)[1..] == a[1..] + b;
      QueueSplice(a[1..], f, b, key);
    } else if f != [] {
      assert a + f + b == f + b && (f + b)[1..] == a + f[1..] + b;
      QueueSplice(a, f[1..], b, key);
    } else {
      assert a + f + b == a + b;
    }
  }

  lemma {:induction false} QueueAt(ipq: seq<FragQueue>, i: nat)
    requires i < |ipq| && forall j :: 0 <= j < i ==> ipq[j].key != ipq[i].key
    ensures QueueIn(ipq, ipq[i].key) == Some(ipq[i])
  {
    if i > 0 {
      QueueAt(ipq[1..], i - 1);
    }
  }

  lemma {:induction false} QueueNone(ipq: seq<FragQueue>, key: Key)
    requires forall j :: 0 <= j < |ipq| ==> ipq[j].key != key
    ensures QueueIn(ipq, key) == None
  {
    if ipq != [] {
      QueueNone(ipq[1..], key);
    }
  }

  /** A queue found is one of the list's, with that key. */
  lemma {:induction false} QueueFound(ipq: seq<FragQueue>, key: Key)
    requires ValidTable(ipq) && QueueIn(ipq, key).Some?
    ensures QueueIn(ipq, key).value.key == key && Live(QueueIn(ipq, key).value)
  {
    if ipq[0].key != key {
      RestValid(ipq);
      QueueFound(ipq[1..], key);
    }
  }

  lemma {:induction false} RestValid(ipq: seq<FragQueue>)
    requires ValidTable(ipq) && ipq != []
    ensures ValidTable(ipq[1..])
  {
  }

  /** One tick: a queue loses one of its ticks, or goes with its last. */
  function AgedQueue(f: Option<FragQueue>): Option<FragQueue> {
    if f.None? || f.value.ttl <= 1 then None else Some(f.value.(ttl := f.value.ttl - 1))
  }

  lemma {:induction false} QueueAged(ipq: seq<FragQueue>, key: Key)
    requires ValidTable(ipq)
    ensures QueueIn(Aged(ipq), key) == AgedQueue(QueueIn(ipq, key))
    decreases |ipq|
  {
    if ipq != [] {
      RestValid(ipq);
      QueueAged(ipq[1..], key);
      if ipq[0].ttl > 1 {
        assert Aged(ipq)[1..] == Aged(ipq[1..]);
      } else if ipq[0].key == key {
        forall j | 0 <= j < |ipq[1..]| ensures ipq[1..][j].key != key {
          assert ipq[1..][j] == ipq[j + 1];
        }
        QueueNone(ipq[1..], key);
      }
    }
  }

  /** What one fragment does to the queue of its datagram. */
  lemma {:induction false} StepFacts(h: seq<Piece>, p: Piece, d: seq<byte>)
    requires Sorted(h) && FragmentsOf(h, d) && FragmentOf(p, d)
    ensures Sorted(Insert(h, p)) && FragmentsOf(Insert(h, p), d)
    ensures forall x :: Has(Insert(h, p), x) <==> Has(h, x) || p.Has(x)
    ensures Covers(Insert(h, p), d) <==> Covers(h + [p], d)
  {
    InsertFacts(h, p);
    InsertFragments(h, p, d);
    forall x
      ensures Has(Insert(h, p), x) <==> Has(h + [p], x)
    {
      HasConcat(h, [p], x);
      HasOne(p, x);
    }
  }

  /** Each key has at most one queue, and every queue is non-empty, in order
      and not yet expired. */
  ghost predicate ValidTable(ipq: seq<FragQueue>) {
    DistinctKeys(ipq) && forall i :: 0 <= i < |ipq| ==> Live(ipq[i])
  }

  lemma {:induction false} AgedValid(ipq: seq<FragQueue>)
    requires ValidTable(ipq)
    ensures ValidTable(Aged(ipq))
  {
    AgedDistinct(ipq);
    var a := Aged(ipq);
    forall i | 0 <= i < |a|
      ensures Live(a[i])
    {
      assert a[i] in a;
      AgedFacts(ipq, a[i]);
      var g := a[i].(ttl := a[i].ttl + 1);
      assert g in ipq;
      assert Live(g);
    }
  }

  lemma {:induction false} DistinctRemove(was: seq<FragQueue>, i: nat)
    requires ValidTable(was) && i < |was|
    ensures ValidTable(was[..i] + was[i + 1..])
    ensures var now := was[..i] + was[i + 1..]; forall j :: 0 <= j < |now| ==> now[j].key != was[i].key
  {
  }

  lemma {:induction false} TableRemove(was: seq<FragQueue>, i: nat)
    requires ValidTable(was) && i < |was|
    ensures ValidTable(was[..i] + was[i + 1..])
    ensures QueueIn(was[..i] + was[i + 1..], was[i].key) == None
    ensures forall k :: k != was[i].key ==> QueueIn(was[..i] + was[i + 1..], k) == QueueIn(was, k)
  {
    var now := was[..i] + was[i + 1..];
    DistinctRemove(was, i);
    QueueNone(now, was[i].key);
    forall k | k != was[i].key ensures QueueIn(now, k) == QueueIn(was, k) {
      QueueSplice(was[..i], [was[i]], was[i + 1..], k);
      assert was == was[..i] + [was[i]] + was[i + 1..];
    }
  }

  lemma {:induction false} TableUpdate(was: seq<FragQueue>, i: nat, f: FragQueue)
    requires ValidTable(was) && i < |was| && Live(f) && f.key == was[i].key
    ensures ValidTable(was[i := f])
    ensures QueueIn(was[i := f], f.key) == Some(f)
    ensures forall k :: k != f.key ==> QueueIn(was[i := f], k) == QueueIn(was, k)
  {
    var now := was[i := f];
    TableRemove(was, i);
    QueueAt(now, i);
    TableRemove(now, i);
    assert now[..i] + now[i + 1..] == was[..i] + was[i + 1..];
  }

  lemma {:induction false} TablePush(was: seq<FragQueue>, f: FragQueue)
    requires ValidTable(was) && Live(f) && forall j :: 0 <= j < |was| ==> was[j].key != f.key
    ensures ValidTable([f] + was)
    ensures QueueIn([f] + was, f.key) == Some(f)
    ensures forall k :: k != f.key ==> QueueIn([f] + was, k) == QueueIn(was, k)
  {
    assert ([f] + was)[1..] == was;
  }

  // ----- the stack's fragment table -----

  class FragTable {
    /** `slirp->ipq`, newest queue first. */
    var ipq: seq<FragQueue>

    ghost predicate Valid()
      reads this
    {
      ValidTable(ipq)
    }

    /** The queue of a key, and what it holds. */
    ghost function Queue(key: Key): Option<FragQueue>
      reads this
    {
      QueueIn(ipq, key)
    }

    ghost function Held(key: Key): seq<Piece>
      reads this
    {
      HeldIn(ipq, key)
    }

    constructor ()
      ensures Valid() && ipq == []
    {
      ipq := [];
    }

    /** The lookup of lines 171-180. */
    method Find(key: Key) returns (i: nat)
      ensures i <= |ipq|
      ensures i < |ipq| ==> ipq[i].key == key
      ensures i == |ipq| ==> forall j :: 0 <= j < |ipq| ==> ipq[j].key != key
    {
      i := 0;
      while i < |ipq| && ipq[i].key != key
        invariant i <= |ipq|
        invariant forall j :: 0 <= j < i ==> ipq[j].key != key
      {
        i := i + 1;
      }
    }

    /** The list surgery of lines 285-333: find the place, trim against the
        piece before, trim or dequeue the pieces after, link in. */
    static method Enqueue(frags: seq<Piece>, p: Piece) returns (dropped: bool, r: seq<Piece>)
      ensures r == Insert(frags, p)
      ensures dropped <==> AfterPred(frags, After(frags, p.off), p).None?
      ensures dropped ==> r == frags
      ensures !dropped ==> r != []
    {
      hide After, Trim;
      var q := FindPlace(frags, p.off);
      var ip := p;
      if q > 0 {
        var i := frags[q - 1].End() - p.off;
        if i > 0 {
          if i >= |p.data| {
            return true, frags;
          }
          ip := p.Drop(i);
        }
      }
      var rest := TrimRest(frags[q..], ip.End());
      r := frags[..q] + [ip] + rest;
      dropped := false;
    }

    /** Lines 288-291: the first fragment that begins later. */
    static method FindPlace(frags: seq<Piece>, off: int) returns (q: nat)
      ensures q == After(frags, off) <= |frags|
    {
      q := 0;
      while q < |frags| && frags[q].off <= off
        invariant q <= |frags|
        invariant forall i :: 0 <= i < q ==> frags[i].off <= off
      {
        q := q + 1;
      }
    }

    /** Lines 314-326: trim or dequeue what begins before `end`. */
    static method TrimRest(frags: seq<Piece>, end: int) returns (rest: seq<Piece>)
      ensures rest == Trim(frags, end)
    {
      rest := frags;
      while rest != [] && end > rest[0].off
        invariant Trim(rest, end) == Trim(frags, end)
        decreases |rest|
      {
        var i := end - rest[0].off;
        if i < |rest[0].data| {
          return [rest[0].Drop(i)] + rest[1..];
        }
        rest := rest[1..];
      }
    }

    /** The scan of lines 334-342. */
    static method TestComplete(frags: seq<Piece>) returns (ok: bool)
      requires frags != []
      ensures ok <==> Complete(frags)
    {
      var next, q := 0, 0;
      while q < |frags|
        invariant q <= |frags|
        invariant Contiguous(frags, 0) <==> Contiguous(frags[q..], next)
      {
        if frags[q].off != next {
          return false;
        }
        next := next + |frags[q].data|;
        assert frags[q..][1..] == frags[q + 1..];
        q := q + 1;
      }
      ok := !frags[|frags| - 1].mark;
    }

    /** The `m_cat` loop of lines 347-355. */
    static method Concatenate(frags: seq<Piece>) returns (m: seq<byte>)
      requires frags != []
      ensures m == Payload(frags)
    {
      m := frags[0].data;
      var q := 1;
      while q < |frags|
        invariant 1 <= q <= |frags|
        invariant Payload(frags) == m + Payload(frags[q..])
      {
        assert frags[q..][1..] == frags[q + 1..];
        m := m + frags[q].data;
        q := q + 1;
      }
    }

    /** `ip_reass`. `mem` says whether the `m_get` for a new queue succeeds.
        `d` is any datagram the fragment and the queue are consistent with. */
    method Reass(key: Key, p: Piece, mem: bool, ghost d: seq<byte>) returns (out: Option<seq<byte>>)
      requires Valid() && FragmentOf(p, d)
      requires p.off > 0 || p.mark
      requires Held(key) != [] ==> Pending(Held(key), d)
      modifies this
      ensures Valid()
      ensures forall k :: k != key ==> Queue(k) == old(Queue(k))
      ensures old(Held(key)) == [] && !mem ==> out.None? && Held(key) == []
      ensures old(Held(key)) != [] || mem ==>
                (out.Some? <==> Covers(old(Held(key)) + [p], d))
      ensures (old(Held(key)) != [] || mem) && out.None? ==>
                Held(key) != [] && Pending(Held(key), d)
      ensures (old(Held(key)) != [] || mem) && out.None? ==>
                forall x :: Has(Held(key), x) <==> Has(old(Held(key)), x) || p.Has(x)
      ensures out.Some? ==> out.value == d && Held(key) == []
      ensures Queue(key).Some? <==> out.None? && (old(Queue(key)).Some? || mem)
      ensures old(Queue(key)).None? ==> out.None?
      ensures Queue(key).Some? ==>
                Queue(key).value.ttl == if old(Queue(key)).Some? then old(Queue(key)).value.ttl else IPFRAGTTL
    {
      var i := Find(key);
      if i == |ipq| {
        QueueNone(ipq, key);
        forall x ensures Has([p], x) <==> p.Has(x) { HasOne(p, x); }
        out := Open(key, p, mem, d);
      } else {
        QueueAt(ipq, i);
        StepFacts(ipq[i].frags, p, d);
        out := Extend(i, p, d);
      }
    }

    /** Lines 267-283: the first fragment of a datagram opens its queue. */
    method Open(key: Key, p: Piece, mem: bool, ghost d: seq<byte>) returns (out: Option<seq<byte>>)
      requires Valid() && FragmentOf(p, d)
      requires p.off > 0 || p.mark
      requires forall j :: 0 <= j < |ipq| ==> ipq[j].key != key
      modifies this
      ensures Valid() && out == None
      ensures !mem ==> ipq == old(ipq)
      ensures mem ==> Queue(key) == Some(FragQueue(key, IPFRAGTTL, [p])) && Pending([p], d) && !Covers([] + [p], d)
      ensures forall k :: k != key ==> Queue(k) == old(Queue(k))
    {
      if mem {
        CompleteIffCovered([p], d);
        assert [] + [p] == [p];
        TablePush(ipq, FragQueue(key, IPFRAGTTL, [p]));
        ipq := [FragQueue(key, IPFRAGTTL, [p])] + ipq;
      }
      out := None;
    }

    /** Lines 285-387 on an existing queue. */
    method Extend(i: nat, p: Piece, ghost d: seq<byte>) returns (out: Option<seq<byte>>)
      requires Valid() && FragmentOf(p, d)
      requires i < |ipq| && Pending(ipq[i].frags, d)
      modifies this
      ensures Valid()
      ensures out.Some? <==> Covers(old(ipq[i].frags) + [p], d)
      ensures out.Some? ==> out.value == d && Queue(old(ipq[i].key)).None?
      ensures out.None? ==> Queue(old(ipq[i].key)) == Some(old(ipq[i]).(frags := Insert(old(ipq[i].frags), p)))
      ensures out.None? ==> Pending(Insert(old(ipq[i].frags), p), d)
      ensures forall k :: k != old(ipq[i].key) ==> Queue(k) == old(Queue(k))
    {
      var fp := ipq[i];
      StepFacts(fp.frags, p, d);
      var dropped, frags := Enqueue(fp.frags, p);
      if dropped {
        QueueAt(ipq, i);
        return None;
      }
      CompleteIffCovered(frags, d);
      TableUpdate(ipq, i, fp.(frags := frags));
      TableRemove(ipq, i);
      ghost var was := ipq;
      ipq := ipq[i := fp.(frags := frags)];
      var ok := TestComplete(frags);
      if !ok {
        return None;
      }
      var m := Concatenate(frags);
      ipq := ipq[..i] + ipq[i + 1..];
      assert ipq == was[..i] + was[i + 1..];
      out := Some(m);
    }

    /** The part of `ip_input` that deals with fragments (lines 164-211).
        A datagram without MF and at offset 0 is passed on as it is, and its
        key's half-collected fragments are discarded if a reserved flag sent
        it down the fragment path. */
    method Input(key: Key, ipOff: u16, payload: seq<byte>, mem: bool, ghost d: seq<byte>)
      returns (out: Option<seq<byte>>)
      requires Valid()
      requires IsFragment(ipOff) ==> FragmentOf(Decode(ipOff, payload), d)
      requires IsFragment(ipOff) && Held(key) != [] ==> Pending(Held(key), d)
      modifies this
      ensures Valid()
      ensures forall k :: k != key ==> Queue(k) == old(Queue(k))
      ensures !IsFragment(ipOff) ==> out == Some(payload)
      ensures !IsFragment(ipOff) ==> Held(key) == if NotWhole(ipOff) then [] else old(Held(key))
      ensures IsFragment(ipOff) && old(Held(key)) == [] && !mem ==> out.None? && Held(key) == []
      ensures IsFragment(ipOff) && (old(Held(key)) != [] || mem) ==>
                (out.Some? <==> Covers(old(Held(key)) + [Decode(ipOff, payload)], d))
      ensures IsFragment(ipOff) && (old(Held(key)) != [] || mem) && out.None? ==>
                Held(key) != [] && Pending(Held(key), d) &&
                forall x :: Has(Held(key), x) <==> Has(old(Held(key)), x) || Decode(ipOff, payload).Has(x)
      ensures IsFragment(ipOff) && out.Some? ==> out.value == d && Held(key) == []
    {
      if NotWhole(ipOff) {
        var mf := MoreFragments(ipOff);
        var off := ByteOffset(ipOff);
        if mf || off > 0 {
          out := Reass(key, Piece(off, payload, mf), mem, d);
        } else {
          var i := Find(key);
          if i < |ipq| {
            TableRemove(ipq, i);
            ipq := ipq[..i] + ipq[i + 1..];
          } else {
            QueueNone(ipq, key);
          }
          out := Some(payload);
        }
      } else {
        out := Some(payload);
      }
    }

    /** `ip_slowtimo`: one tick off every queue, expired ones freed. */
    method SlowTimo()
      requires Valid()
      modifies this
      ensures Valid() && ipq == Aged(old(ipq)) && forall k :: Queue(k) == AgedQueue(old(Queue(k)))
    {
      var l, kept := 0, [];
      while l < |ipq|
        invariant l <= |ipq| && kept + Aged(ipq[l..]) == Aged(ipq)
      {
        assert ipq[l..][1..] == ipq[l + 1..];
        if ipq[l].ttl > 1 {
          kept := kept + [ipq[l].(ttl := ipq[l].ttl - 1)];
        }
        l := l + 1;
      }
      assert kept == Aged(ipq);
      AgedValid(ipq);
      forall k ensures QueueIn(kept, k) == AgedQueue(QueueIn(ipq, k)) {
        QueueAged(ipq, k);
      }
      ipq := kept;
    }
  }

  /** Soundness and completeness over a whole run: fragments of `d` arriving
      in any order, overlapping and repeated in any way, give nothing until
      together they first cover `d`; the arrival that completes the cover
      yields exactly `d`. */
  method ReassembleRun(t: FragTable, key: Key, arrivals: seq<Piece>, ghost d: seq<byte>)
    returns (n: nat, out: Option<seq<byte>>)
    requires t.Valid() && t.Held(key) == [] && d != []
    requires FragmentsOf(arrivals, d)
    requires forall i :: 0 <= i < |arrivals| ==> arrivals[i].off > 0 || arrivals[i].mark
    modifies t
    ensures t.Valid() && n <= |arrivals|
    ensures out.Some? <==> Covers(arrivals, d)
    ensures out.Some? ==> n > 0 && Covers(arrivals[..n], d) && !Covers(arrivals[..n - 1], d)
    ensures out.Some? ==> out.value == d && t.Held(key) == []
    ensures forall k :: k != key ==> t.Queue(k) == old(t.Queue(k))
  {
    n, out := 0, None;
    assert !Has(arrivals[..0], 0);
    while n < |arrivals|
      invariant n <= |arrivals| && t.Valid() && out.None? && !Covers(arrivals[..n], d)
      invariant forall k :: k != key ==> t.Queue(k) == old(t.Queue(k))
      invariant t.Held(key) != [] ==> Pending(t.Held(key), d)
      invariant forall x :: Has(t.Held(key), x) <==> Has(arrivals[..n], x)
    {
      ghost var h, p := t.Held(key), arrivals[n];
      ghost var seen := arrivals[..n] + [p];
      assert arrivals[..n + 1] == seen;
      forall x
        ensures Has(seen, x) <==> Has(h + [p], x)
        ensures Has(seen, x) <==> Has(h, x) || p.Has(x)
      {
        HasConcat(arrivals[..n], [p], x);
        HasConcat(h, [p], x);
        HasOne(p, x);
      }
      out := t.Reass(key, arrivals[n], true, d);
      n := n + 1;
      if out.Some? {
        PrefixCovers(arrivals, n, d);
        return;
      }
    }
    assert arrivals[..n] == arrivals;
  }

  lemma {:induction false} PrefixCovers(arrivals: seq<Piece>, n: nat, d: seq<byte>)
    requires n <= |arrivals| && Covers(arrivals[..n], d)
    ensures Covers(arrivals, d)
  {
    forall x | 0 <= x < |d| ensures Has(arrivals, x) {
      HasSplit(arrivals, n, x);
    }
  }

  // ----- any run -----

  /** What can happen to the table. `mem` says whether there is memory for a new
      queue. */
  datatype Arrival = Fragment(key: Key, p: Piece, mem: bool) | Tick

  /** What has been received for a datagram since its queue was opened, the ticks
      it has left, and the datagram. */
  datatype Coll = Coll(got: seq<Piece>, ttl: nat, d: seq<byte>)

  /** The reference: what an arrival does to the collections, and what comes out.
      A fragment of `d` opens a collection for it or joins the one there is. */
  ghost function Step(v: map<Key, Coll>, e: Arrival, d: seq<byte>): (map<Key, Coll>, Option<seq<byte>>) {
    match e
    case Fragment(key, p, mem) =>
      if key !in v then (if mem then v[key := Coll([p], IPFRAGTTL, d)] else v, None)
      else if Covers(v[key].got + [p], v[key].d) then (v - {key}, Some(v[key].d))
      else (v[key := v[key].(got := v[key].got + [p])], None)
    case Tick => (map key | key in v && v[key].ttl > 1 :: v[key].(ttl := v[key].ttl - 1), None)
  }

  /** `ds[i]` is the datagram of the i-th arrival. */
  ghost function Steps(ev: seq<Arrival>, ds: seq<seq<byte>>): (r: (map<Key, Coll>, seq<Option<seq<byte>>>))
    requires |ev| == |ds|
    ensures |r.1| == |ev|
  {
    if ev == [] then (map[], [])
    else
      var n := |ev| - 1;
      var (v, outs) := Steps(ev[..n], ds[..n]);
      var (v', out) := Step(v, ev[n], ds[n]);
      (v', outs + [out])
  }

  /** The queue of a key stands for its collection. */
  ghost predicate Stands(f: Option<FragQueue>, v: map<Key, Coll>, key: Key) {
    && (f.Some? <==> key in v)
    && (f.Some? ==>
          f.value.ttl == v[key].ttl && Pending(f.value.frags, v[key].d) && SameBytes(f.value.frags, v[key].got))
  }

  ghost predicate SameBytes(a: seq<Piece>, b: seq<Piece>) { forall x :: Has(a, x) <==> Has(b, x) }

  lemma {:induction false} SameCover(a: seq<Piece>, b: seq<Piece>, p: Piece, c: seq<Piece>, d: seq<byte>)
    requires SameBytes(a, b)
    ensures Covers(a + [p], d) <==> Covers(b + [p], d)
    ensures (forall x :: Has(c, x) <==> Has(a, x) || p.Has(x)) ==> SameBytes(c, b + [p])
  {
    hide Has;
    forall x
      ensures Has(a + [p], x) <==> Has(b + [p], x)
      ensures Has(b + [p], x) <==> Has(a, x) || p.Has(x)
    {
      HasConcat(a, [p], x);
      HasConcat(b, [p], x);
      HasOne(p, x);
    }
  }

  /** A fragment the theorem is about: one of `d`, and `d` is what its key is being
      collected for, if anything. A key without a collection may carry another
      datagram than before. */
  ghost predicate Consistent(v: map<Key, Coll>, e: Arrival, d: seq<byte>) {
    e.Fragment? ==> FragmentOf(e.p, d) && (e.p.off > 0 || e.p.mark) && (e.key in v ==> v[e.key].d == d)
  }

  /** Any run: fragments of any number of datagrams interleaved, in any order,
      overlapping and repeated, identifiers used again, with memory failing and
      time passing. What comes out, and when, is exactly what the reference says:
      a datagram comes out when the fragments received since its queue was opened
      first cover it. */
  method Run(ev: seq<Arrival>, ghost ds: seq<seq<byte>>) returns (t: FragTable, outs: seq<Option<seq<byte>>>)
    requires |ev| == |ds|
    requires forall i :: 0 <= i < |ev| ==> Consistent(Steps(ev[..i], ds[..i]).0, ev[i], ds[i])
    ensures fresh(t) && t.Valid() && outs == Steps(ev, ds).1
    ensures forall key :: Stands(t.Queue(key), Steps(ev, ds).0, key)
  {
    t := new FragTable();
    outs := [];
    for i := 0 to |ev|
      invariant fresh(t) && t.Valid() && outs == Steps(ev[..i], ds[..i]).1
      invariant forall key :: Stands(t.Queue(key), Steps(ev[..i], ds[..i]).0, key)
    {
      assert ev[..i + 1][..i] == ev[..i] && ds[..i + 1][..i] == ds[..i];
      var out := Arrive(t, ev[i], Steps(ev[..i], ds[..i]).0, ds[i]);
      outs := outs + [out];
    }
    assert ev[..|ev|] == ev && ds[..|ev|] == ds;
  }

  /** One arrival. */
  method Arrive(t: FragTable, e: Arrival, ghost v: map<Key, Coll>, ghost d: seq<byte>) returns (out: Option<seq<byte>>)
    requires t.Valid() && Consistent(v, e, d) && forall key :: Stands(t.Queue(key), v, key)
    modifies t
    ensures t.Valid() && out == Step(v, e, d).1
    ensures forall key :: Stands(t.Queue(key), Step(v, e, d).0, key)
  {
    hide Has, Covers, FragmentsOf, QueueIn;
    match e {
      case Fragment(key, p, mem) =>
        assert Stands(t.Queue(key), v, key);
        ghost var f, got := t.Queue(key), if key in v then v[key].got else [];
        if f.Some? {
          QueueFound(t.ipq, key);
        }
        SameCover(t.Held(key), got, p, [], d);
        out := t.Reass(key, p, mem, d);
        SameCover(if f.Some? then f.value.frags else [], got, p, t.Held(key), d);
        assert [] + [p] == [p];
        forall k ensures Stands(t.Queue(k), Step(v, e, d).0, k) {
          assert Stands(old(t.Queue(k)), v, k);
        }
      case Tick =>
        t.SlowTimo();
        out := None;
        forall k ensures Stands(t.Queue(k), Step(v, e, d).0, k) {
          assert Stands(old(t.Queue(k)), v, k);
        }
    }
  }
}
