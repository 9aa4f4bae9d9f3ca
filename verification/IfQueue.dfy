/** The output scheduler: src/slirp/if.c. Packets wait in per-session lists on
    a fast and a batch queue; a roving pointer serves the batch sessions in
    turn. The two levels of doubly linked lists are sequences of sessions, and
    the pointer `next_m` is the packet at the head of a batch session. */
module IfQueue {
  import opened Basics

  /** A packet; `so` is its socket (`ifq_so`), None for one sent without. */
  datatype Mbuf = Mbuf(so: Option<nat>, data: seq<byte>)

  /** A list of packets of one session: the mbuf on the queue and, behind its
      `ifs_next`, the others. */
  datatype Session = Session(so: Option<nat>, head: seq<byte>, rest: seq<seq<byte>>) {
    function First(): Mbuf { Mbuf(so, head) }
    function Packets(): seq<seq<byte>> { [head] + rest }
    function Size(): nat { 1 + |rest| }

    /** The list without its first packet, if any packet is left. */
    function Tail(): seq<Session> {
      if rest == [] then [] else [Session(so, rest[0], rest[1..])]
    }

    function Append(d: seq<byte>): Session { Session(so, head, rest + [d]) }
  }

  /** No two lists of `q` belong to the same session. */
  predicate Distinct(q: seq<Session>) {
    forall i, j :: 0 <= i < j < |q| ==> q[i].so != q[j].so
  }

  predicate Absent(q: seq<Session>, so: Option<nat>) {
    forall i :: 0 <= i < |q| ==> q[i].so != so
  }

  function Own(s: Session, so: Option<nat>): seq<seq<byte>> {
    if s.so == so then s.Packets() else []
  }

  /** The packets of one session in `q`, in the order they would leave. */
  function Of(q: seq<Session>, so: Option<nat>): seq<seq<byte>> {
    if q == [] then [] else Own(q[0], so) + Of(q[1..], so)
  }

  function Total(q: seq<Session>): nat {
    if q == [] then 0 else q[0].Size() + Total(q[1..])
  }

  function IfOf(m: Mbuf, so: Option<nat>): seq<seq<byte>> { if m.so == so then [m.data] else [] }

  /** The packets of one session in a log. */
  function Proj(l: seq<Mbuf>, so: Option<nat>): seq<seq<byte>> {
    if l == [] then [] else Proj(l[..|l| - 1], so) + IfOf(l[|l| - 1], so)
  }

  function Get(m: map<nat, int>, so: nat): int { if so in m then m[so] else 0 }

  // ----- facts about the nested lists -----

  lemma {:induction false} OfConcat(a: seq<Session>, b: seq<Session>, so: Option<nat>)
    ensures Of(a + b, so) == Of(a, so) + Of(b, so)
    ensures Total(a + b) == Total(a) + Total(b)
  {
    if a == [] {
      assert a + b == b;
    } else {
      assert (a + b)[1..] == a[1..] + b;
      OfConcat(a[1..], b, so);
      Assoc(Own(a[0], so), Of(a[1..], so), Of(b, so));
    }
  }

  lemma {:induction false} OfCons(q: seq<Session>, so: Option<nat>)
    ensures q == [] ==> Of(q, so) == [] && Total(q) == 0
    ensures q != [] ==> Of(q, so) == Own(q[0], so) + Of(q[1..], so) && Total(q) == q[0].Size() + Total(q[1..])
  {
  }

  lemma {:induction false} OfOne(s: Session, so: Option<nat>)
    ensures Of([s], so) == Own(s, so) && Total([s]) == s.Size()
  {
  }

  lemma {:induction false} OfAbsent(q: seq<Session>, so: Option<nat>)
    requires Absent(q, so)
    ensures Of(q, so) == []
  {
    if q != [] {
      OfAbsent(q[1..], so);
    }
  }

  /** Splitting a queue around one of its lists. */
  lemma {:induction false} Around(q: seq<Session>, i: nat, so: Option<nat>)
    requires i < |q|
    ensures Of(q, so) == Of(q[..i], so) + Own(q[i], so) + Of(q[i + 1..], so)
    ensures Total(q) == Total(q[..i]) + q[i].Size() + Total(q[i + 1..])
  {
    hide Of, Total;
    assert q == q[..i] + [q[i]] + q[i + 1..];
    OfConcat(q[..i] + [q[i]], q[i + 1..], so);
    OfConcat(q[..i], [q[i]], so);
    OfOne(q[i], so);
  }

  lemma {:induction false} AroundDistinct(q: seq<Session>, i: nat)
    requires Distinct(q) && i < |q|
    ensures Of(q[..i], q[i].so) == [] && Of(q[i + 1..], q[i].so) == []
    ensures Of(q, q[i].so) == q[i].Packets()
  {
    OfAbsent(q[..i], q[i].so);
    OfAbsent(q[i + 1..], q[i].so);
    Around(q, i, q[i].so);
  }

  /** Replacing a list by another of the same session. */
  lemma {:induction false} Replace(q: seq<Session>, i: nat, s: Session, so: Option<nat>)
    requires Distinct(q) && i < |q| && s.so == q[i].so
    ensures Distinct(q[i := s])
    ensures Of(q[i := s], so) == if so == s.so then s.Packets() else Of(q, so)
    ensures Total(q[i := s]) == Total(q) - q[i].Size() + s.Size()
  {
    hide Of, Total;
    var r := q[i := s];
    assert r[..i] == q[..i] && r[i + 1..] == q[i + 1..];
    Around(q, i, so);
    Around(r, i, so);
    AroundDistinct(q, i);
  }

  /** Taking a list out. */
  lemma {:induction false} Remove(q: seq<Session>, i: nat, so: Option<nat>)
    requires Distinct(q) && i < |q|
    ensures Of(q[..i] + q[i + 1..], so) == if so == q[i].so then [] else Of(q, so)
    ensures Total(q[..i] + q[i + 1..]) == Total(q) - q[i].Size()
  {
    hide Of, Total;
    OfConcat(q[..i], q[i + 1..], so);
    Around(q, i, so);
    AroundDistinct(q, i);
  }

  lemma {:induction false} RemoveDistinct(q: seq<Session>, i: nat)
    requires Distinct(q) && i < |q|
    ensures Distinct(q[..i] + q[i + 1..]) && Absent(q[..i] + q[i + 1..], q[i].so)
  {
  }

  /** Putting a list in front or at the back. */
  lemma {:induction false} Attach(q: seq<Session>, s: Session, so: Option<nat>)
    ensures Of([s] + q, so) == Own(s, so) + Of(q, so)
    ensures Of(q + [s], so) == Of(q, so) + Own(s, so)
    ensures Total([s] + q) == Total(q) + s.Size() && Total(q + [s]) == Total(q) + s.Size()
  {
    OfConcat([s], q, so);
    OfConcat(q, [s], so);
    OfOne(s, so);
  }

  lemma {:induction false} ProjAppend(l: seq<Mbuf>, m: Mbuf, so: Option<nat>)
    ensures Proj(l + [m], so) == Proj(l, so) + IfOf(m, so)
  {
  }

  // ----- round robin -----

  /** The batch sessions in the order they will be served, `p` first. */
  function Rotation(q: seq<Session>, p: nat): seq<Session>
    requires p <= |q|
  {
    q[p..] + q[..p]
  }

  /** Serving one packet from a rotation: the first session sends its head and
      goes to the back with what it has left. */
  function Served(r: seq<Session>): seq<Session>
    requires r != []
  {
    r[1..] + r[0].Tail()
  }

  lemma {:induction false} TailTotal(s: Session)
    ensures Total(s.Tail()) == s.Size() - 1
  {
  }

  lemma {:induction false} ServedTotal(r: seq<Session>)
    requires r != []
    ensures Total(Served(r)) == Total(r) - 1
  {
    OfConcat(r[1..], r[0].Tail(), None);
    TailTotal(r[0]);
  }

  /** The first `k` packets sent from a rotation. */
  ghost function Sends(r: seq<Session>, k: nat): seq<Mbuf>
    requires k <= Total(r)
    decreases k
  {
    if k == 0 then [] else
      ServedTotal(r);
      [r[0].First()] + Sends(Served(r), k - 1)
  }

  lemma {:induction false} SendsOne(r: seq<Session>, k: nat)
    requires 0 < k <= Total(r)
    ensures r != [] && k - 1 <= Total(Served(r))
    ensures Sends(r, k) == [r[0].First()] + Sends(Served(r), k - 1)
  {
    ServedTotal(r);
  }

  ghost function Heads(r: seq<Session>): seq<Mbuf> {
    seq(|r|, i requires 0 <= i < |r| => r[i].First())
  }

  /** What the sessions of `a` have left after sending one packet each. */
  ghost function Tails(a: seq<Session>): seq<Session> {
    if a == [] then [] else a[0].Tail() + Tails(a[1..])
  }

  lemma {:induction false} TailsTotal(a: seq<Session>)
    ensures Total(Tails(a)) == Total(a) - |a|
  {
    if a != [] {
      TailsTotal(a[1..]);
      TailTotal(a[0]);
      OfConcat(a[0].Tail(), Tails(a[1..]), None);
    }
  }

  lemma {:induction false} RoundTotal(a: seq<Session>, b: seq<Session>)
    ensures Total(a + b) == Total(a) + Total(b)
    ensures Total(b + Tails(a)) == Total(a) + Total(b) - |a|
  {
    OfConcat(a, b, None);
    TailsTotal(a);
    OfConcat(b, Tails(a), None);
  }

  lemma {:induction false} OneTurn(a: seq<Session>, b: seq<Session>)
    requires a != []
    ensures Served(a + b) == a[1..] + (b + a[0].Tail()) && (a + b)[0] == a[0]
  {
  }

  /** One round: every session of `a` sends its head before any of them, or
      any session of `b`, sends anything else. */
  lemma {:induction false} FirstRound(a: seq<Session>, b: seq<Session>, k: nat)
    requires |a| + k <= Total(a + b) && k <= Total(b + Tails(a))
    ensures Sends(a + b, |a| + k) == Heads(a) + Sends(b + Tails(a), k)
  {
    hide Total, Sends;
    if a == [] {
      assert a + b == b && b + [] == b && Heads(a) + Sends(b, k) == Sends(b, k);
    } else {
      var bx := b + a[0].Tail();
      OneTurn(a, b);
      ServedTotal(a + b);
      Assoc(b, a[0].Tail(), Tails(a[1..]));
      FirstRound(a[1..], bx, k);
      SendsOne(a + b, |a| + k);
      assert Heads(a) == [a[0].First()] + Heads(a[1..]);
      Assoc([a[0].First()], Heads(a[1..]), Sends(b + Tails(a), k));
    }
  }

  /** Between two packets of one session, every other waiting session sends
      exactly one: the next packets after `r[0]`'s head are the heads of all
      the others, in rotation order, and then comes `r[0]`'s second packet. */
  lemma {:induction false} RoundRobin(r: seq<Session>)
    requires r != [] && r[0].rest != []
    ensures |r| + 1 <= Total(r)
    ensures Sends(r, |r| + 1) == Heads(r) + [Mbuf(r[0].so, r[0].rest[0])]
  {
    TotalAtLeast(r[1..]);
    assert r + [] == r;
    RoundTotal(r, []);
    FirstRound(r, [], 1);
    var c := Tails(r);
    assert [] + c == c && c[0] == r[0].Tail()[0];
    ServedTotal(c);
    assert Sends(c, 1) == [c[0].First()] + Sends(Served(c), 0);
  }

  lemma {:induction false} TotalAtLeast(r: seq<Session>)
    ensures Total(r) >= |r|
  {
    if r != [] {
      TotalAtLeast(r[1..]);
    }
  }

  // ----- the pointer -----

  /** Position of the session `next_m` points at; 0 when it points at the
      queue head itself, from where the first session is taken. */
  function NextPos(q: seq<Session>, nextM: Option<Mbuf>): (i: nat)
    ensures i <= |q|
  {
    match nextM
    case None => 0
    case Some(m) => HeadIndex(q, m)
  }

  function HeadIndex(q: seq<Session>, m: Mbuf): (i: nat)
    ensures i <= |q|
    ensures i < |q| ==> q[i].First() == m
    ensures i == |q| ==> forall j :: 0 <= j < |q| ==> q[j].First() != m
  {
    if q == [] || q[0].First() == m then 0 else
      var i := 1 + HeadIndex(q[1..], m);
      assert forall j :: 1 <= j < |q| ==> q[j] == q[1..][j - 1];
      i
  }

  predicate PointsInto(q: seq<Session>, nextM: Option<Mbuf>) {
    nextM.Some? ==> exists i :: 0 <= i < |q| && q[i].First() == nextM.value
  }

  /** The batch queue and pointer after the session at `i` has been served. */
  function BatchServed(q: seq<Session>, i: nat): seq<Session>
    requires i < |q|
  {
    q[..i] + q[i].Tail() + q[i + 1..]
  }

  function NextAfter(q: seq<Session>, i: nat): Option<Mbuf>
    requires i < |q|
  {
    if i + 1 < |q| then Some(q[i + 1].First()) else None
  }

  lemma {:induction false} BatchServedDistinct(q: seq<Session>, i: nat)
    requires Distinct(q) && i < |q|
    ensures Distinct(BatchServed(q, i))
  {
    if q[i].rest == [] {
      RemoveDistinct(q, i);
      assert BatchServed(q, i) == q[..i] + q[i + 1..];
    } else {
      assert BatchServed(q, i) == q[i := q[i].Tail()[0]];
    }
  }

  /** Serving through the pointer is one turn of the rotation, and leaves the
      pointer on a batch session or on the queue head. */
  lemma {:induction false} BatchRotates(q: seq<Session>, i: nat)
    requires Distinct(q) && i < |q|
    ensures PointsInto(BatchServed(q, i), NextAfter(q, i))
    ensures Rotation(q, i)[0] == q[i]
    ensures Rotation(BatchServed(q, i), NextPos(BatchServed(q, i), NextAfter(q, i))) == Served(Rotation(q, i))
  {
    var b := BatchServed(q, i);
    var j := i + |q[i].Tail()|;
    assert b[..j] == q[..i] + q[i].Tail() && b[j..] == q[i + 1..];
    assert Rotation(b, j) == Served(Rotation(q, i));
    if i + 1 < |q| {
      assert b[j] == q[i + 1];
      BatchServedDistinct(q, i);
      assert HeadIndex(b, b[j].First()) == j;
    } else {
      assert Rotation(b, j) == Rotation(b, 0);
    }
  }

  /** Serving the first list of the fast queue. */
  function FastServed(q: seq<Session>): seq<Session>
    requires q != []
  {
    q[0].Tail() + q[1..]
  }

  /** The next `n` packets to leave: the fast queue list by list, then the
      batch sessions in rotation. */
  ghost function Order(fastq: seq<Session>, rot: seq<Session>, n: nat): seq<Mbuf>
    requires n <= Total(fastq) + Total(rot)
    decreases n
  {
    if n == 0 then []
    else if fastq != [] then
      FastTotal(fastq);
      [fastq[0].First()] + Order(FastServed(fastq), rot, n - 1)
    else Sends(rot, n)
  }

  lemma {:induction false} FastTotal(q: seq<Session>)
    requires q != []
    ensures Total(FastServed(q)) == Total(q) - 1
  {
    TailTotal(q[0]);
    OfConcat(q[0].Tail(), q[1..], None);
  }

  lemma {:induction false} OrderTake(f: seq<Session>, r: seq<Session>, n: nat, m: Mbuf, f': seq<Session>,
                                     r': seq<Session>)
    requires 0 < n <= Total(f) + Total(r)
    requires f != [] ==> m == f[0].First() && f' == FastServed(f) && r' == r
    requires f == [] ==> r != [] && m == r[0].First() && f' == [] && r' == Served(r)
    ensures n - 1 <= Total(f') + Total(r')
    ensures Order(f, r, n) == [m] + Order(f', r', n - 1)
  {
    if f != [] { FastTotal(f); } else { ServedTotal(r); }
  }

  lemma {:induction false} OrderLength(f: seq<Session>, r: seq<Session>, n: nat)
    requires n <= Total(f) + Total(r)
    ensures |Order(f, r, n)| == n
    decreases n
  {
    if n > 0 {
      if f != [] {
        FastTotal(f);
        OrderLength(FastServed(f), r, n - 1);
      } else {
        ServedTotal(r);
        OrderLength([], Served(r), n - 1);
      }
    }
  }

  lemma {:induction false} RotationTotal(q: seq<Session>, p: nat)
    requires p <= |q|
    ensures Total(Rotation(q, p)) == Total(q)
  {
    hide Of, Total;
    OfConcat(q[p..], q[..p], None);
    OfConcat(q[..p], q[p..], None);
    assert q[..p] + q[p..] == q;
  }

  // ----- what has been handed over, what waits, what has left -----

  /** The packets of one session still queued, in the order they will leave. */
  function Waiting(f: seq<Session>, b: seq<Session>, so: Option<nat>): seq<seq<byte>> {
    Of(f, so) + Of(b, so)
  }

  /** For each session, the packets sent followed by those waiting are exactly
      the packets handed over, in order, and its counter is the number waiting. */
  ghost predicate Ledger(f: seq<Session>, b: seq<Session>, queued: map<nat, int>, sent: seq<Mbuf>, log: seq<Mbuf>) {
    forall so :: Accounted(f, b, queued, sent, log, so)
  }

  ghost predicate Accounted(f: seq<Session>, b: seq<Session>, queued: map<nat, int>,
                            sent: seq<Mbuf>, log: seq<Mbuf>, so: Option<nat>)
  {
    && (so.Some? ==> Get(queued, so.value) == |Waiting(f, b, so)|)
    && Proj(sent, so) + Waiting(f, b, so) == Proj(log, so)
  }

  function Bump(queued: map<nat, int>, so: Option<nat>, delta: int): map<nat, int> {
    if so.Some? then queued[so.value := Get(queued, so.value) + delta] else queued
  }

  lemma {:induction false} LedgerSend(f: seq<Session>, b: seq<Session>, f': seq<Session>, b': seq<Session>,
                   queued: map<nat, int>, sent: seq<Mbuf>, log: seq<Mbuf>, m: Mbuf)
    requires Ledger(f, b, queued, sent, log)
    requires forall so :: Waiting(f, b, so) == IfOf(m, so) + Waiting(f', b', so)
    ensures Ledger(f', b', Bump(queued, m.so, -1), sent + [m], log)
  {
    forall so ensures Accounted(f', b', Bump(queued, m.so, -1), sent + [m], log, so) {
      assert Accounted(f, b, queued, sent, log, so);
      ProjAppend(sent, m, so);
      Assoc(Proj(sent, so), IfOf(m, so), Waiting(f', b', so));
    }
  }

  lemma {:induction false} LedgerHas(f: seq<Session>, b: seq<Session>, f': seq<Session>, b': seq<Session>,
                   queued: map<nat, int>, sent: seq<Mbuf>, log: seq<Mbuf>, m: Mbuf)
    requires Ledger(f, b, queued, sent, log)
    requires forall so :: Waiting(f, b, so) == IfOf(m, so) + Waiting(f', b', so)
    ensures m.so.Some? ==> Get(queued, m.so.value) > 0
  {
    hide Waiting;
    assert Accounted(f, b, queued, sent, log, m.so);
  }

  lemma {:induction false} LedgerPut(f: seq<Session>, b: seq<Session>, f': seq<Session>, b': seq<Session>,
                  queued: map<nat, int>, sent: seq<Mbuf>, log: seq<Mbuf>, m: Mbuf)
    requires Ledger(f, b, queued, sent, log)
    requires forall so :: Waiting(f', b', so) == Waiting(f, b, so) + IfOf(m, so)
    ensures Ledger(f', b', Bump(queued, m.so, 1), sent, log + [m])
  {
    forall so ensures Accounted(f', b', Bump(queued, m.so, 1), sent, log + [m], so) {
      assert Accounted(f, b, queued, sent, log, so);
      ProjAppend(log, m, so);
      Assoc(Proj(sent, so), Waiting(f, b, so), IfOf(m, so));
    }
  }

  lemma {:induction false} LedgerSame(f: seq<Session>, b: seq<Session>, f': seq<Session>, b': seq<Session>,
                   queued: map<nat, int>, sent: seq<Mbuf>, log: seq<Mbuf>)
    requires Ledger(f, b, queued, sent, log)
    requires forall so :: Waiting(f', b', so) == Waiting(f, b, so)
    ensures Ledger(f', b', queued, sent, log)
  {
    forall so ensures Accounted(f', b', queued, sent, log, so) {
      assert Accounted(f, b, queued, sent, log, so);
    }
  }

  lemma {:induction false} TailOf(s: Session, so: Option<nat>)
    ensures Own(s, so) == IfOf(s.First(), so) + Of(s.Tail(), so)
  {
    if s.rest != [] { OfOne(s.Tail()[0], so); }
  }

  lemma {:induction false} WaitingFastServed(f: seq<Session>, b: seq<Session>, so: Option<nat>)
    requires f != []
    ensures Waiting(f, b, so) == IfOf(f[0].First(), so) + Waiting(FastServed(f), b, so)
  {
    hide Of, Total, Own, IfOf;
    OfCons(f, so);
    TailOf(f[0], so);
    OfConcat(f[0].Tail(), f[1..], so);
    var x, t, r := IfOf(f[0].First(), so), Of(f[0].Tail(), so), Of(f[1..], so);
    Assoc(x, t, r);
    Assoc(x, t + r, Of(b, so));
  }

  lemma {:induction false} WaitingBatchServed(b: seq<Session>, i: nat, so: Option<nat>)
    requires Distinct(b) && i < |b|
    ensures Waiting([], b, so) == IfOf(b[i].First(), so) + Waiting([], BatchServed(b, i), so)
    ensures Total(BatchServed(b, i)) == Total(b) - 1
  {
    hide Of, Total;
    Around(b, i, so);
    AroundDistinct(b, i);
    OfCons([], so);
    TailOf(b[i], so);
    TailTotal(b[i]);
    OfConcat(b[..i], b[i].Tail(), so);
    OfConcat(b[..i] + b[i].Tail(), b[i + 1..], so);
  }

  // ----- placing a packet -----

  /** A packet added to its session's list on the batch queue. */
  lemma {:induction false} PutBatch(f: seq<Session>, q: seq<Session>, i: nat, m: Mbuf, nextM: Option<Mbuf>,
                                    so: Option<nat>)
    requires Distinct(q) && i < |q| && q[i].so == m.so && PointsInto(q, nextM)
    ensures var r := q[i := q[i].Append(m.data)];
            Distinct(r) && PointsInto(r, nextM) && Total(r) == Total(q) + 1 &&
            Waiting(f, r, so) == Waiting(f, q, so) + IfOf(m, so)
  {
    hide Of, Total;
    var r := q[i := q[i].Append(m.data)];
    Replace(q, i, q[i].Append(m.data), so);
    AroundDistinct(q, i);
    if nextM.Some? {
      var j :| 0 <= j < |q| && q[j].First() == nextM.value;
      assert r[j].First() == nextM.value;
    }
    assert q[i].Append(m.data).Packets() == q[i].Packets() + [m.data];
    Assoc(Of(f, so), Of(q, so), IfOf(m, so));
  }

  lemma {:induction false} OwnOne(m: Mbuf, so: Option<nat>)
    ensures Own(Session(m.so, m.data, []), so) == IfOf(m, so)
  {
  }

  /** A packet that opens a list at the end of the batch queue. */
  lemma {:induction false} OpenBatch(f: seq<Session>, q: seq<Session>, m: Mbuf, nextM: Option<Mbuf>, so: Option<nat>)
    requires Distinct(q) && Absent(q, m.so) && PointsInto(q, nextM)
    ensures var r := q + [Session(m.so, m.data, [])];
            Distinct(r) && PointsInto(r, nextM) && Total(r) == Total(q) + 1 &&
            Waiting(f, r, so) == Waiting(f, q, so) + IfOf(m, so)
  {
    hide Of, Total;
    var s := Session(m.so, m.data, []);
    Attach(q, s, so);
    OwnOne(m, so);
    if nextM.Some? {
      var j :| 0 <= j < |q| && q[j].First() == nextM.value;
      assert (q + [s])[j].First() == nextM.value;
    }
    Assoc(Of(f, so), Of(q, so), IfOf(m, so));
  }

  /** A packet added to the last list of the fast queue, or opening one there,
      when its session has nothing on the batch queue. */
  lemma {:induction false} PutFast(f: seq<Session>, q: seq<Session>, m: Mbuf, so: Option<nat>)
    requires Absent(q, m.so)
    ensures var r := f + [Session(m.so, m.data, [])];
            Total(r) == Total(f) + 1 && Waiting(r, q, so) == Waiting(f, q, so) + IfOf(m, so)
    ensures f != [] && f[|f| - 1].so == m.so ==>
              var r := f[|f| - 1 := f[|f| - 1].Append(m.data)];
              Total(r) == Total(f) + 1 && Waiting(r, q, so) == Waiting(f, q, so) + IfOf(m, so)
  {
    hide Of, Total;
    OfAbsent(q, m.so);
    OwnOne(m, so);
    Attach(f, Session(m.so, m.data, []), so);
    if f != [] && f[|f| - 1].so == m.so {
      var n := |f| - 1;
      var s := f[n].Append(m.data);
      assert f == f[..n] + [f[n]] && f[n := s] == f[..n] + [s];
      Attach(f[..n], f[n], so);
      Attach(f[..n], s, so);
      assert s.Packets() == f[n].Packets() + [m.data];
      Assoc(Of(f[..n], so), Own(f[n], so), IfOf(m, so));
    }
  }

  /** Moving a batch list to the front of the batch queue changes no session's
      order and leaves the pointer on a list head. */
  lemma {:induction false} MoveFront(f: seq<Session>, q: seq<Session>, i: nat, nextM: Option<Mbuf>, so: Option<nat>)
    requires Distinct(q) && i < |q| && PointsInto(q, nextM)
    ensures var r := [q[i]] + (q[..i] + q[i + 1..]);
            Distinct(r) && PointsInto(r, nextM) && Total(r) == Total(q) &&
            Waiting(f, r, so) == Waiting(f, q, so)
  {
    hide Of, Total;
    var rest := q[..i] + q[i + 1..];
    Remove(q, i, so);
    RemoveDistinct(q, i);
    Attach(rest, q[i], so);
    AroundDistinct(q, i);
    if nextM.Some? {
      var j :| 0 <= j < |q| && q[j].First() == nextM.value;
      assert ([q[i]] + rest)[if j == i then 0 else if j < i then j + 1 else j].First() == nextM.value;
    }
  }

  /** Downgrading the last fast list keeps its session in order: what else the
      session has on the fast queue leaves first. */
  lemma {:induction false} MoveDown(f: seq<Session>, q: seq<Session>, nextM: Option<Mbuf>, so: Option<nat>)
    requires f != [] && Distinct(q) && PointsInto(q, nextM) && Absent(q, f[|f| - 1].so)
    ensures var n := |f| - 1; var r := [f[n]] + q;
            Distinct(r) && PointsInto(r, nextM) &&
            Total(f[..n]) + Total(r) == Total(f) + Total(q) &&
            Waiting(f[..n], r, so) == Waiting(f, q, so)
  {
    hide Of, Total;
    var n := |f| - 1;
    assert f == f[..n] + [f[n]];
    Attach(f[..n], f[n], so);
    Attach(q, f[n], so);
    if nextM.Some? {
      var j :| 0 <= j < |q| && q[j].First() == nextM.value;
      assert ([f[n]] + q)[j + 1].First() == nextM.value;
    }
    Assoc(Of(f[..n], so), Own(f[n], so), Of(q, so));
  }

  /** Where `if_output` put a packet: in a batch list, or in the last fast list. */
  datatype Where = OnBatch(i: nat) | OnFast

  /** The list of a session, or the queue's length. */
  function IndexOf(q: seq<Session>, so: Option<nat>): (i: nat)
    ensures i <= |q| && (i < |q| ==> q[i].so == so) && (i == |q| ==> Absent(q, so))
  {
    if q == [] || q[0].so == so then 0
    else
      var i := 1 + IndexOf(q[1..], so);
      assert forall j :: 1 <= j < |q| ==> q[j] == q[1..][j - 1];
      i
  }

  lemma {:induction false} IndexIs(q: seq<Session>, i: nat)
    requires Distinct(q) && i < |q|
    ensures IndexOf(q, q[i].so) == i
  {
  }

  /** Which queue a packet goes to: batch if its session is there already or is
      not interactive. */
  predicate GoesToBatch(b: seq<Session>, m: Mbuf, lowDelay: bool) {
    IndexOf(b, m.so) < |b| || m.so.None? || !lowDelay
  }

  /** The batch queue with one more packet, and the fast queue with one more: in
      its session's list (on the fast queue only if that is the last one), or in
      a new list at the end. */
  function BatchPut(q: seq<Session>, m: Mbuf): seq<Session> {
    var i := IndexOf(q, m.so);
    if i < |q| then q[i := q[i].Append(m.data)] else q + [Session(m.so, m.data, [])]
  }

  function FastPut(q: seq<Session>, m: Mbuf): seq<Session> {
    var n := |q| - 1;
    if n >= 0 && q[n].so == m.so then q[n := q[n].Append(m.data)] else q + [Session(m.so, m.data, [])]
  }

  /** The test of lines 122-123, on the counters with this packet in them. */
  predicate Hogs(queued: map<nat, int>, nqueued: map<nat, int>, so: Option<nat>) {
    so.Some? && Get(nqueued, so.value) >= 6 && Get(nqueued, so.value) - Get(queued, so.value) >= 3
  }

  /** A packet handed over or sent, in the order it happened. */
  datatype Act = In(m: Mbuf) | Out(m: Mbuf)

  /** The packets handed over and those sent. */
  function HandedOver(acts: seq<Act>): seq<Mbuf> {
    if acts == [] then []
    else
      var x := acts[|acts| - 1];
      HandedOver(acts[..|acts| - 1]) + if x.In? then [x.m] else []
  }

  function SentOut(acts: seq<Act>): seq<Mbuf> {
    if acts == [] then []
    else
      var x := acts[|acts| - 1];
      SentOut(acts[..|acts| - 1]) + if x.Out? then [x.m] else []
  }

  ghost predicate Recorded(acts: seq<Act>, sent: seq<Mbuf>, log: seq<Mbuf>) {
    HandedOver(acts) == log && SentOut(acts) == sent
  }

  lemma {:induction false} RecordOne(acts: seq<Act>, x: Act, sent: seq<Mbuf>, log: seq<Mbuf>)
    requires Recorded(acts, sent, log)
    ensures Recorded(acts + [x], if x.Out? then sent + [x.m] else sent, if x.In? then log + [x.m] else log)
  {
    assert (acts + [x])[..|acts|] == acts;
  }

  /** How many of session `k` were handed over, and sent. */
  function Ins(acts: seq<Act>, k: nat): nat {
    if acts == [] then 0
    else
      var x := acts[|acts| - 1];
      Ins(acts[..|acts| - 1], k) + if x.In? && x.m.so == Some(k) then 1 else 0
  }

  function Outs(acts: seq<Act>, k: nat): nat {
    if acts == [] then 0
    else
      var x := acts[|acts| - 1];
      Outs(acts[..|acts| - 1], k) + if x.Out? && x.m.so == Some(k) then 1 else 0
  }

  /** The last moment at which none of its packets was waiting. */
  function LastIdle(acts: seq<Act>, k: nat): (i: nat)
    ensures i <= |acts| && Ins(acts[..i], k) == Outs(acts[..i], k)
    ensures forall j :: i < j <= |acts| ==> Ins(acts[..j], k) != Outs(acts[..j], k)
  {
    var n := |acts|;
    assert acts[..n] == acts;
    if Ins(acts, k) == Outs(acts, k) then n
    else
      var i := LastIdle(acts[..n - 1], k);
      assert forall j :: 0 <= j < n ==> acts[..n - 1][..j] == acts[..j];
      i
  }

  /** What has happened since. */
  function Burst(acts: seq<Act>, k: nat): seq<Act> { acts[LastIdle(acts, k)..] }

  /** A session has queued six packets or more without pausing, three or more of
      which have been sent. */
  predicate Greedy(acts: seq<Act>, so: Option<nat>) {
    so.Some? && Ins(Burst(acts, so.value), so.value) >= 6 && Outs(Burst(acts, so.value), so.value) >= 3
  }

  /** The counters of `k` are the packets waiting, and those handed over since none
      was. */
  ghost predicate CountsFor(acts: seq<Act>, queued: map<nat, int>, nqueued: map<nat, int>, k: nat) {
    && Get(queued, k) == Ins(acts, k) - Outs(acts, k) >= 0
    && Get(nqueued, k) == Ins(Burst(acts, k), k)
  }

  ghost predicate Counts(acts: seq<Act>, queued: map<nat, int>, nqueued: map<nat, int>) {
    forall k: nat :: CountsFor(acts, queued, nqueued, k)
  }

  lemma {:induction false} InsJoin(a: seq<Act>, b: seq<Act>, k: nat)
    ensures Ins(a + b, k) == Ins(a, k) + Ins(b, k) && Outs(a + b, k) == Outs(a, k) + Outs(b, k)
    decreases |b|
  {
    if b == [] {
      assert a + b == a;
    } else {
      var n := |b| - 1;
      assert (a + b)[..|a + b| - 1] == a + b[..n];
      InsJoin(a, b[..n], k);
    }
  }

  /** One more act in a session's burst, unless it ends it. */
  lemma {:induction false} BurstStep(acts: seq<Act>, x: Act, k: nat)
    requires Ins(acts, k) >= Outs(acts, k)
    ensures var acts' := acts + [x]; var d := Ins(acts', k) - Outs(acts', k);
            && Ins(acts', k) == Ins(acts, k) + (if x.In? && x.m.so == Some(k) then 1 else 0)
            && Outs(acts', k) == Outs(acts, k) + (if x.Out? && x.m.so == Some(k) then 1 else 0)
            && Ins(Burst(acts', k), k) ==
               (if d == 0 then 0 else Ins(Burst(acts, k), k) + (if x.In? && x.m.so == Some(k) then 1 else 0))
            && (Ins(acts, k) == Outs(acts, k) ==> Ins(Burst(acts, k), k) == 0)
  {
    hide Burst;
    var acts' := acts + [x];
    assert acts'[..|acts|] == acts;
    InsJoin(Burst(acts, k), [x], k);
    BurstIs(acts, x, k);
  }

  lemma {:induction false} BurstIs(acts: seq<Act>, x: Act, k: nat)
    ensures var acts' := acts + [x];
            Burst(acts', k) == if Ins(acts', k) == Outs(acts', k) then [] else Burst(acts, k) + [x]
    ensures Ins(acts, k) == Outs(acts, k) ==> Burst(acts, k) == []
    ensures Ins([x], k) == (if x.In? && x.m.so == Some(k) then 1 else 0)
  {
    assert (acts + [x])[..|acts|] == acts;
  }

  /** The test of the code, on its counters, is that the session is greedy. */
  lemma {:induction false} HogsMeans(acts: seq<Act>, queued: map<nat, int>, nqueued: map<nat, int>, so: Option<nat>)
    requires Counts(acts, queued, nqueued)
    ensures Hogs(queued, nqueued, so) <==> Greedy(acts, so)
  {
    hide Ins, Outs, LastIdle;
    if so.Some? {
      var k := so.value;
      assert CountsFor(acts, queued, nqueued, k);
      var i := LastIdle(acts, k);
      assert acts[..i] + acts[i..] == acts;
      InsJoin(acts[..i], acts[i..], k);
    }
  }

  lemma {:induction false} CountsPut(acts: seq<Act>, queued: map<nat, int>, nqueued: map<nat, int>, m: Mbuf)
    requires Counts(acts, queued, nqueued)
    ensures Counts(acts + [In(m)], Bump(queued, m.so, 1), Bump(nqueued, m.so, 1))
  {
    hide Ins, Outs, Burst;
    forall k: nat ensures CountsFor(acts + [In(m)], Bump(queued, m.so, 1), Bump(nqueued, m.so, 1), k) {
      assert CountsFor(acts, queued, nqueued, k);
      BurstStep(acts, In(m), k);
    }
  }

  lemma {:induction false} CountsSend(acts: seq<Act>, queued: map<nat, int>, nqueued: map<nat, int>, m: Mbuf,
                                      nqueued': map<nat, int>)
    requires Counts(acts, queued, nqueued) && (m.so.Some? ==> Get(queued, m.so.value) > 0)
    requires var q := Bump(queued, m.so, -1);
             nqueued' == if m.so.Some? && Get(q, m.so.value) == 0 then nqueued[m.so.value := 0] else nqueued
    ensures Counts(acts + [Out(m)], Bump(queued, m.so, -1), nqueued')
  {
    hide Ins, Outs, Burst;
    forall k: nat ensures CountsFor(acts + [Out(m)], Bump(queued, m.so, -1), nqueued', k) {
      assert CountsFor(acts, queued, nqueued, k);
      BurstStep(acts, Out(m), k);
    }
  }

  /** Both queues after a packet: put in its place and, if its session hogs the
      link, that session's list moved to the front of the batch queue. */
  function Queued(f: seq<Session>, b: seq<Session>, m: Mbuf, lowDelay: bool, hogs: bool): (seq<Session>, seq<Session>) {
    if GoesToBatch(b, m, lowDelay) then
      var b' := BatchPut(b, m);
      var i := IndexOf(b, m.so);
      (f, if hogs && i < |b'| then [b'[i]] + (b'[..i] + b'[i + 1..]) else b')
    else
      var f' := FastPut(f, m);
      var n := |f'| - 1;
      if hogs && n >= 0 then (f'[..n], [f'[n]] + b) else (f', b)
  }

  /** The same in terms of where the packet was put. */
  lemma {:induction false} QueuedIs(f: seq<Session>, b: seq<Session>, m: Mbuf, lowDelay: bool, w: Where,
                                    f': seq<Session>, b': seq<Session>)
    requires w.OnBatch? <==> GoesToBatch(b, m, lowDelay)
    requires w.OnBatch? ==> f' == f && b' == BatchPut(b, m) && w.i == IndexOf(b, m.so) < |b'|
    requires w.OnFast? ==> b' == b && f' == FastPut(f, m) && f' != []
    ensures Queued(f, b, m, lowDelay, false) == (f', b')
    ensures Queued(f, b, m, lowDelay, true) ==
            if w.OnBatch? then (f', [b'[w.i]] + (b'[..w.i] + b'[w.i + 1..]))
            else (f'[..|f'| - 1], [f'[|f'| - 1]] + b')
  {
    hide BatchPut, FastPut, IndexOf, GoesToBatch;
  }

  // ----- the queues of one stack -----

  class Scheduler {
    var fastq: seq<Session>
    var batchq: seq<Session>
    var nextM: Option<Mbuf>
    var ifQueued: int
    var soQueued: map<nat, int>
    var soNqueued: map<nat, int>
    var sent: seq<Mbuf>
    /** Every packet ever handed to `if_output`; and every packet handed over or
        sent, in the order that happened. */
    ghost var log: seq<Mbuf>
    ghost var acts: seq<Act>

    /** One batch list per session; `next_m` is the head of a batch session or
        the queue head itself. */
    ghost predicate Shape()
      reads this`batchq, this`nextM
    {
      Distinct(batchq) && PointsInto(batchq, nextM)
    }

    ghost predicate Valid()
      reads this
    {
      && Shape() && ifQueued == Total(fastq) + Total(batchq) && Ledger(fastq, batchq, soQueued, sent, log)
      && Counts(acts, soQueued, soNqueued) && Recorded(acts, sent, log)
    }

    /** The batch sessions in the order they will be served. */
    ghost function Turn(): (r: seq<Session>)
      reads this`batchq, this`nextM
      ensures Total(r) == Total(batchq)
    {
      RotationTotal(batchq, NextPos(batchq, nextM));
      Rotation(batchq, NextPos(batchq, nextM))
    }

    constructor ()
      ensures Valid() && ifQueued == 0 && sent == [] && log == []
    {
      fastq, batchq, nextM := [], [], None;
      ifQueued, soQueued, soNqueued := 0, map[], map[];
      sent, log, acts := [], [], [];
    }

    /** Lines 168-193 of `if_start`: choose a packet and unlink it. */
    method Unlink() returns (ifm: Mbuf)
      requires Shape() && Total(fastq) + Total(batchq) > 0
      modifies this`fastq, this`batchq, this`nextM
      ensures Shape() && Total(fastq) + Total(batchq) == old(Total(fastq) + Total(batchq)) - 1
      ensures old(fastq) != [] ==> ifm == old(fastq)[0].First() && fastq == FastServed(old(fastq))
      ensures old(fastq) != [] ==> batchq == old(batchq) && nextM == old(nextM)
      ensures old(fastq) == [] ==> fastq == [] && old(Turn()) != [] && ifm == old(Turn())[0].First()
      ensures old(fastq) == [] ==> Turn() == Served(old(Turn()))
      ensures forall so :: Waiting(old(fastq), old(batchq), so) == IfOf(ifm, so) + Waiting(fastq, batchq, so)
    {
      if fastq != [] {
        FastTotal(fastq);
        ifm := fastq[0].First();
        fastq := FastServed(fastq);
        forall so ensures Waiting(old(fastq), batchq, so) == IfOf(ifm, so) + Waiting(fastq, batchq, so) {
          WaitingFastServed(old(fastq), batchq, so);
        }
      } else {
        var i := NextPos(batchq, nextM);
        BatchServedDistinct(batchq, i);
        BatchRotates(batchq, i);
        WaitingBatchServed(batchq, i, None);
        ifm := batchq[i].First();
        nextM := NextAfter(batchq, i);
        batchq := BatchServed(batchq, i);
        forall so ensures Waiting([], old(batchq), so) == IfOf(ifm, so) + Waiting([], batchq, so) {
          WaitingBatchServed(old(batchq), i, so);
        }
      }
    }

    /** Lines 163-205 of `if_start`: take one packet, count and send it. */
    method SendOne() returns (ifm: Mbuf)
      requires Valid() && ifQueued > 0
      modifies this
      ensures Valid() && log == old(log) && ifQueued == old(ifQueued) - 1
      ensures sent == old(sent) + [ifm] && acts == old(acts) + [Out(ifm)]
      ensures old(fastq) != [] ==> ifm == old(fastq)[0].First() && fastq == FastServed(old(fastq))
      ensures old(fastq) != [] ==> Turn() == old(Turn())
      ensures old(fastq) == [] ==> fastq == [] && old(Turn()) != [] && ifm == old(Turn())[0].First()
      ensures old(fastq) == [] ==> Turn() == Served(old(Turn()))
      ensures soQueued == Bump(old(soQueued), ifm.so, -1)
      ensures soNqueued == if ifm.so.Some? && Get(soQueued, ifm.so.value) == 0
                           then old(soNqueued)[ifm.so.value := 0] else old(soNqueued)
    {
      hide Waiting, Distinct, PointsInto, Served, FastServed, Counts, Recorded, Ledger, Total, Rotation, NextPos;
      ifm := Unlink();
      LedgerHas(old(fastq), old(batchq), fastq, batchq, soQueued, sent, log, ifm);
      LedgerSend(old(fastq), old(batchq), fastq, batchq, soQueued, sent, log, ifm);
      ifQueued := ifQueued - 1;
      soQueued := Bump(soQueued, ifm.so, -1);
      if ifm.so.Some? && Get(soQueued, ifm.so.value) == 0 {
        soNqueued := soNqueued[ifm.so.value := 0];
      }
      CountsSend(acts, old(soQueued), old(soNqueued), ifm, soNqueued);
      RecordOne(acts, Out(ifm), sent, log);
      sent, acts := sent + [ifm], acts + [Out(ifm)];
    }

    method SendNext(ghost n: nat)
      requires Valid() && 0 < n <= ifQueued
      modifies this
      ensures Valid() && log == old(log) && ifQueued == old(ifQueued) - 1
      ensures sent + Order(fastq, Turn(), n - 1) == old(sent) + Order(old(fastq), old(Turn()), n)
    {
      hide Ledger, Distinct, PointsInto, Served, FastServed, Rotation, Counts, Recorded;
      var ifm := SendOne();
      OrderTake(old(fastq), old(Turn()), n, ifm, fastq, Turn());
      Assoc(old(sent), [ifm], Order(fastq, Turn(), n - 1));
    }

    /** `if_start`; `room` is how often `slirp_can_output` will say yes. */
    method IfStart(room: nat)
      requires Valid()
      modifies this
      ensures Valid() && log == old(log)
      ensures ifQueued == old(ifQueued) - Min(room, old(ifQueued))
      ensures sent == old(sent) + Order(old(fastq), old(Turn()), Min(room, old(ifQueued)))
    {
      hide Order, Ledger, Distinct, PointsInto, Rotation, Counts, Recorded;
      var left := room;
      ghost var n := Min(room, ifQueued);
      ghost var goal := sent + Order(fastq, Turn(), n);
      while ifQueued > 0 && left > 0
        invariant Valid() && log == old(log)
        invariant n == Min(left, ifQueued) && ifQueued - n == old(ifQueued) - Min(room, old(ifQueued))
        invariant sent + Order(fastq, Turn(), n) == goal
        decreases left
      {
        SendNext(n);
        left := left - 1;
        n := n - 1;
      }
      OrderLength(fastq, Turn(), n);
    }

    /** Lines 77-106 of `if_output`: find or open the session's list. */
    method Place(ifm: Mbuf, lowDelay: bool) returns (w: Where)
      requires Shape()
      modifies this`fastq, this`batchq
      ensures Shape() && Total(fastq) + Total(batchq) == old(Total(fastq) + Total(batchq)) + 1
      ensures forall so :: Waiting(fastq, batchq, so) == Waiting(old(fastq), old(batchq), so) + IfOf(ifm, so)
      ensures w.OnBatch? <==> !old(Absent(batchq, ifm.so)) || ifm.so.None? || !lowDelay
      ensures w.OnBatch? ==> fastq == old(fastq) && w.i < |batchq| && batchq[w.i].so == ifm.so
      ensures w.OnFast? ==> batchq == old(batchq) && Absent(batchq, ifm.so)
      ensures w.OnFast? ==> fastq != [] && fastq[|fastq| - 1].so == ifm.so
      ensures w.OnBatch? <==> GoesToBatch(old(batchq), ifm, lowDelay)
      ensures w.OnBatch? ==> batchq == BatchPut(old(batchq), ifm) && w.i == IndexOf(old(batchq), ifm.so)
      ensures w.OnFast? ==> fastq == FastPut(old(fastq), ifm)
    {
      hide Waiting, PointsInto, Distinct, Total, Of;
      var j := |batchq|;
      while j > 0 && batchq[j - 1].so != ifm.so
        invariant 0 <= j <= |batchq|
        invariant forall k :: j <= k < |batchq| ==> batchq[k].so != ifm.so
      {
        j := j - 1;
      }
      if j > 0 {
        IndexIs(batchq, j - 1);
        PutBatch(fastq, batchq, j - 1, ifm, nextM, None);
        batchq := batchq[j - 1 := batchq[j - 1].Append(ifm.data)];
        forall so ensures Waiting(fastq, batchq, so) == Waiting(fastq, old(batchq), so) + IfOf(ifm, so) {
          PutBatch(fastq, old(batchq), j - 1, ifm, nextM, so);
        }
        return OnBatch(j - 1);
      }
      assert Absent(batchq, ifm.so);
      if ifm.so.Some? && lowDelay {
        var n := |fastq| - 1;
        PutFast(fastq, batchq, ifm, None);
        if n >= 0 && fastq[n].so == ifm.so {
          fastq := fastq[n := fastq[n].Append(ifm.data)];
        } else {
          fastq := fastq + [Session(ifm.so, ifm.data, [])];
        }
        forall so ensures Waiting(fastq, batchq, so) == Waiting(old(fastq), batchq, so) + IfOf(ifm, so) {
          PutFast(old(fastq), batchq, ifm, so);
        }
        w := OnFast;
      } else {
        OpenBatch(fastq, batchq, ifm, nextM, None);
        batchq := batchq + [Session(ifm.so, ifm.data, [])];
        forall so ensures Waiting(fastq, batchq, so) == Waiting(fastq, old(batchq), so) + IfOf(ifm, so) {
          OpenBatch(fastq, old(batchq), ifm, nextM, so);
        }
        w := OnBatch(|batchq| - 1);
      }
    }

    /** Lines 125-129: the packet's list goes to the front of the batch queue,
        also when it was on the batch queue already. */
    method Downgrade(w: Where)
      requires Shape()
      requires w.OnBatch? ==> w.i < |batchq|
      requires w.OnFast? ==> fastq != [] && Absent(batchq, fastq[|fastq| - 1].so)
      modifies this`fastq, this`batchq
      ensures Shape() && Total(fastq) + Total(batchq) == old(Total(fastq) + Total(batchq))
      ensures forall so :: Waiting(fastq, batchq, so) == Waiting(old(fastq), old(batchq), so)
      ensures fastq == old(if w.OnBatch? then fastq else fastq[..|fastq| - 1])
      ensures batchq == old(if w.OnBatch? then [batchq[w.i]] + (batchq[..w.i] + batchq[w.i + 1..])
                            else [fastq[|fastq| - 1]] + batchq)
    {
      match w {
        case OnBatch(i) =>
          MoveFront(fastq, batchq, i, nextM, None);
          batchq := [batchq[i]] + (batchq[..i] + batchq[i + 1..]);
          forall so ensures Waiting(fastq, batchq, so) == Waiting(fastq, old(batchq), so) {
            MoveFront(fastq, old(batchq), i, nextM, so);
          }
        case OnFast =>
          MoveDown(fastq, batchq, nextM, None);
          var n := |fastq| - 1;
          fastq, batchq := fastq[..n], [fastq[n]] + batchq;
          forall so ensures Waiting(fastq, batchq, so) == Waiting(old(fastq), old(batchq), so) {
            MoveDown(old(fastq), old(batchq), nextM, so);
          }
      }
    }

    /** Lines 60-131 of `if_output`: queue and count a packet, and downgrade
        its session once it has queued 6 in a row and 3 of them have left. */
    method Enqueue(ifm: Mbuf, lowDelay: bool)
      requires Valid()
      modifies this
      ensures Valid() && log == old(log) + [ifm] && ifQueued == old(ifQueued) + 1
      ensures sent == old(sent) && nextM == old(nextM)
      ensures soQueued == Bump(old(soQueued), ifm.so, 1) && soNqueued == Bump(old(soNqueued), ifm.so, 1)
      ensures acts == old(acts) + [In(ifm)]
      ensures (fastq, batchq) == Queued(old(fastq), old(batchq), ifm, lowDelay, Greedy(acts, ifm.so))
      ensures Greedy(acts, ifm.so) ==> batchq != [] && batchq[0].so == ifm.so
    {
      hide Waiting, Distinct, PointsInto, BatchPut, FastPut, Absent, Queued, GoesToBatch, IndexOf, Counts, Recorded;
      hide Greedy, Hogs, Ledger, Total;
      var w := Place(ifm, lowDelay);
      LedgerPut(old(fastq), old(batchq), fastq, batchq, soQueued, sent, log, ifm);
      ifQueued := ifQueued + 1;
      soQueued := Bump(soQueued, ifm.so, 1);
      soNqueued := Bump(soNqueued, ifm.so, 1);
      CountsPut(acts, old(soQueued), old(soNqueued), ifm);
      RecordOne(acts, In(ifm), sent, log);
      log, acts := log + [ifm], acts + [In(ifm)];
      HogsMeans(acts, soQueued, soNqueued, ifm.so);
      ghost var f, b := fastq, batchq;
      if Hogs(soQueued, soNqueued, ifm.so) {
        Downgrade(w);
        LedgerSame(f, b, fastq, batchq, soQueued, sent, log);
      }
      QueuedIs(old(fastq), old(batchq), ifm, lowDelay, w, f, b);
    }

    /** `if_output`. */
    method IfOutput(ifm: Mbuf, lowDelay: bool, room: nat)
      requires Valid()
      modifies this
      ensures Valid() && log == old(log) + [ifm]
      ensures ifQueued == old(ifQueued) + 1 - Min(room, old(ifQueued) + 1)
      ensures var (f, b) := Queued(old(fastq), old(batchq), ifm, lowDelay, Greedy(old(acts) + [In(ifm)], ifm.so));
              var r := Rotation(b, NextPos(b, old(nextM)));
              old(ifQueued) + 1 == Total(f) + Total(r) &&
              sent == old(sent) + Order(f, r, Min(room, old(ifQueued) + 1))
    {
      hide Queued, Greedy, Counts, Recorded;
      Enqueue(ifm, lowDelay);
      OrderLength(fastq, Turn(), Min(room, ifQueued));
      IfStart(room);
    }
  }

  /** One call made on the scheduler. */
  datatype Event = Send(ifm: Mbuf, lowDelay: bool, room: nat) | Poll(room: nat)

  /** The packets handed over by `events`. */
  function Handed(events: seq<Event>): seq<Mbuf> {
    if events == [] then []
    else
      var n := |events| - 1;
      Handed(events[..n]) + (if events[n].Send? then [events[n].ifm] else [])
  }

  /** How many packets are left: each call sends as many as there is room for. */
  function Left(events: seq<Event>): nat {
    if events == [] then 0
    else
      var e := events[|events| - 1];
      Max(Left(events[..|events| - 1]) + (if e.Send? then 1 else 0) - e.room, 0)
  }

  /** Over every interleaving of `if_output` and `if_start`, from empty queues:
      for each session the packets sent so far are a prefix of the packets
      handed over, and the rest is still queued. */
  method Run(events: seq<Event>) returns (s: Scheduler)
    ensures s.Valid() && fresh(s)
    ensures s.log == Handed(events) && s.ifQueued == Left(events)
    ensures forall so :: Proj(s.sent, so) <= Proj(Handed(events), so)
    ensures s.ifQueued == 0 ==> forall so :: Proj(s.sent, so) == Proj(Handed(events), so)
  {
    s := new Scheduler();
    for n := 0 to |events|
      invariant s.Valid() && fresh(s) && s.log == Handed(events[..n]) && s.ifQueued == Left(events[..n])
    {
      assert events[..n + 1][..n] == events[..n];
      match events[n] {
        case Send(ifm, lowDelay, room) => s.IfOutput(ifm, lowDelay, room);
        case Poll(room) => s.IfStart(room);
      }
    }
    assert events[..|events|] == events;
    TotalAtLeast(s.fastq);
    TotalAtLeast(s.batchq);
    forall so
      ensures Proj(s.sent, so) <= Proj(s.log, so)
      ensures s.ifQueued == 0 ==> Proj(s.sent, so) == Proj(s.log, so)
    {
      assert Accounted(s.fastq, s.batchq, s.soQueued, s.sent, s.log, so);
    }
  }
}
