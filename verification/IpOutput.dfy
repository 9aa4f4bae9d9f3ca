/** IP output: src/slirp/ip_output.c. Splits a datagram that does not fit the
    link into fragments, all of which are queued or none. */
module IpOutput {
  import opened Basics
  import opened Pieces
  import opened IpReass

  const IF_MTU: nat := 1500
  const HLEN: nat := 20

  /** A packet as handed to `if_output`: the header's offset field, in host
      order, and the bytes after the 20-byte header. */
  datatype Packet = Packet(ipOff: u16, payload: seq<byte>)

  /** Data bytes per fragment: `(IF_MTU - hlen) & ~7`. */
  const STEP: nat := 1480

  /** The fragment of `d` that begins `1480 * i` bytes in. */
  function Tile(d: seq<byte>, i: nat): Packet
    requires STEP * i < |d| && |d| + HLEN < 0x1_0000
  {
    var from := STEP * i;
    var last := from + STEP >= |d|;
    Packet(185 * i + (if last then 0 else IP_MF),
           if last then d[from..] else d[from..from + STEP])
  }

  /** `pkts` are the fragments of `d` numbered from `k` on. */
  predicate TiledFrom(d: seq<byte>, k: nat, pkts: seq<Packet>)
    requires |d| + HLEN < 0x1_0000
  {
    forall i :: 0 <= i < |pkts| ==> STEP * (k + i) < |d| && pkts[i] == Tile(d, k + i)
  }

  /** How many fragments `d` needs. */
  function Tiles(d: seq<byte>): nat { (|d| + STEP - 1) / STEP }

  /** `ip_output`. `budget` is the number of `m_get` calls that will succeed.
      `m_copy` cannot fail: a fresh mbuf has 1562 - 56 - 20 = 1486 bytes free. */
  method Output(d: seq<byte>, df: bool, budget: nat) returns (error: int, pkts: seq<Packet>)
    requires |d| + HLEN < 0x1_0000
    ensures |d| + HLEN <= IF_MTU ==> error == 0 && pkts == [Packet(if df then IP_DF else 0, d)]
    ensures |d| + HLEN > IF_MTU ==>
              (error == 0 <==> !df && budget >= Tiles(d) - 1)
    ensures error != 0 ==> pkts == []
    ensures |d| + HLEN > IF_MTU && error == 0 ==> |pkts| == Tiles(d)
    ensures |d| + HLEN > IF_MTU && error == 0 ==> TiledFrom(d, 0, pkts)
  {
    var ipLen := HLEN + |d|;
    if ipLen <= IF_MTU {
      return 0, [Packet(if df then IP_DF else 0, d)];
    }
    if df {
      return -1, [];
    }
    var ok, chain := Rest(d, budget);
    if !ok {
      return -1, [];
    }
    TileIs(d, 0);
    error, pkts := 0, [Packet(IP_MF, d[..STEP])] + chain;
  }

  /** The loop of lines 113-144: all fragments after the first. */
  method Rest(d: seq<byte>, budget: nat) returns (ok: bool, chain: seq<Packet>)
    requires |d| + HLEN < 0x1_0000 && STEP < |d|
    ensures ok <==> budget >= Tiles(d) - 1
    ensures ok ==> |chain| + 1 == Tiles(d)
    ensures ok ==> TiledFrom(d, 1, chain)
  {
    hide Tile, Tiles;
    TileIs(d, 0);
    var ipLen := HLEN + |d|;
    var len := STEP;
    chain := [];
    var mem := budget;
    var off := HLEN + len;
    while off < ipLen
      invariant HLEN + STEP <= off <= ipLen
      invariant mem == budget - |chain|
      invariant off < ipLen ==> off == HLEN + STEP * (|chain| + 1) && len == STEP
      invariant off == ipLen ==> |chain| + 1 == Tiles(d)
      invariant TiledFrom(d, 1, chain)
      decreases ipLen - off
    {
      TileIs(d, |chain| + 1);
      if mem == 0 {
        return false, [];
      }
      mem := mem - 1;
      var ipOff := (off - HLEN) / 8;
      if off + len >= ipLen {
        len := ipLen - off;
      } else {
        ipOff := ipOff + IP_MF;
      }
      chain := chain + [Packet(ipOff, d[off - HLEN..off - HLEN + len])];
      off := off + len;
    }
    ok := true;
  }

  lemma {:induction false} TileIs(d: seq<byte>, i: nat)
    requires |d| + HLEN < 0x1_0000 && STEP * i < |d|
    ensures i < Tiles(d)
    ensures STEP * (i + 1) >= |d| ==>
              i + 1 == Tiles(d) && Tile(d, i) == Packet(STEP * i / 8, d[STEP * i..|d|])
    ensures STEP * (i + 1) < |d| ==>
              i + 1 < Tiles(d) && Tile(d, i) == Packet(STEP * i / 8 + IP_MF, d[STEP * i..STEP * i + STEP])
  {
  }

  /** Every fragment fits the link, starts on an 8-byte boundary, and reads
      back through `ip_input`'s decoding as a fragment of the datagram at the
      right place, with MF on all but the last. */
  lemma {:induction false} TileDecodes(d: seq<byte>, i: nat)
    requires STEP * i < |d| && |d| + HLEN < 0x1_0000 && |d| > STEP
    ensures var t := Tile(d, i); var p := Decode(t.ipOff, t.payload);
            IsFragment(t.ipOff) && FragmentOf(p, d) && p.off == STEP * i && p.off % 8 == 0 &&
            0 < |t.payload| && |t.payload| + HLEN <= IF_MTU &&
            (p.mark <==> i + 1 < Tiles(d)) &&
            p.End() == (if i + 1 < Tiles(d) then STEP * (i + 1) else |d|)
  {
    assert i < 45;
    var t := Tile(d, i);
    if STEP * i + STEP < |d| {
      assert t.ipOff == 185 * i + IP_MF;
      assert (185 * i + IP_MF) / IP_MF == 1;
      assert ByteOffset(t.ipOff) == (1480 * i + 0x1_0000) % 0x1_0000;
    }
  }

  function Decoded(p: Packet): Piece { Decode(p.ipOff, p.payload) }

  /** Fragmenting and then reassembling is the identity, whatever the order in
      which the fragments arrive and however often each is repeated, as long
      as each arrives at least once. */
  method RoundTrip(t: FragTable, key: Key, d: seq<byte>, arrivals: seq<nat>) returns (out: Option<seq<byte>>)
    requires t.Valid() && t.Held(key) == []
    requires STEP < |d| && |d| + HLEN < 0x1_0000
    requires forall j :: 0 <= j < |arrivals| ==> arrivals[j] < Tiles(d)
    requires forall i :: 0 <= i < Tiles(d) ==> i in arrivals
    modifies t
    ensures out == Some(d)
  {
    var error, pkts := Output(d, false, Tiles(d));
    var got: seq<Piece> := [];
    for n := 0 to |arrivals|
      invariant |got| == n
      invariant forall j :: 0 <= j < n ==> got[j] == Decoded(pkts[arrivals[j]])
    {
      got := got + [Decoded(pkts[arrivals[n]])];
    }
    forall j | 0 <= j < |got|
      ensures FragmentOf(got[j], d) && (got[j].off > 0 || got[j].mark)
    {
      TileDecodes(d, arrivals[j]);
    }
    TilesCover(d, pkts, arrivals, got);
    var n;
    n, out := ReassembleRun(t, key, got, d);
  }

  lemma {:induction false} TilesCover(d: seq<byte>, pkts: seq<Packet>, arrivals: seq<nat>, got: seq<Piece>)
    requires STEP < |d| && |d| + HLEN < 0x1_0000 && |pkts| == Tiles(d) && |got| == |arrivals|
    requires TiledFrom(d, 0, pkts)
    requires forall j :: 0 <= j < |arrivals| ==> arrivals[j] < Tiles(d) && got[j] == Decoded(pkts[arrivals[j]])
    requires forall i :: 0 <= i < Tiles(d) ==> i in arrivals
    ensures Covers(got, d)
  {
    forall x | 0 <= x < |d|
      ensures Has(got, x)
    {
      var i := x / STEP;
      assert i in arrivals;
      var j :| 0 <= j < |arrivals| && arrivals[j] == i;
      TileDecodes(d, i);
      assert got[j].Has(x);
    }
  }
}
