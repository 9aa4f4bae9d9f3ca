/** The block device on a virtio queue: the file-backed disk of src/virtio.cc
    (lines 147-221) and its request handling (lines 960-1079; section 5.2.6 of
    VIRTIO 1.1). */
module VirtioBlk {
  import opened Basics
  import opened Virtio
  import opened VirtioRing

  const SECTOR: nat := 512
  const T_IN: nat := 0
  const T_OUT: nat := 1
  const S_OK: byte := 0
  const S_IOERR: byte := 1

  datatype Mode = ReadOnly | ReadWrite | Snapshot

  /** Sector `k`: its copy if there is one, else the image's. */
  function SectorOf(image: seq<byte>, table: map<nat, seq<byte>>, k: nat): seq<byte>
    requires SECTOR * k + SECTOR <= |image|
  {
    if k in table then table[k] else image[SECTOR * k..SECTOR * k + SECTOR]
  }

  /** The `j`-th sector of a buffer. */
  function Part(b: seq<byte>, j: nat): seq<byte>
    requires SECTOR * j + SECTOR <= |b|
  {
    b[SECTOR * j..SECTOR * j + SECTOR]
  }

  /** The range test of line 203, on 64-bit unsigned operands. */
  predicate PastEnd(sector: nat, n: nat, nb: nat) { (sector + n) % 0x1_0000_0000_0000_0000 > nb }

  /** It recognises the requests that reach past the end, except those whose end
      wraps round 2^64 to inside the disk. */
  lemma {:induction false} PastEndExact(sector: nat, n: nat, nb: nat)
    requires sector < 0x1_0000_0000_0000_0000 && n < 0x8000_0000 && nb < 0x8000_0000_0000_0000
    ensures (PastEnd(sector, n, nb) <==> sector + n > nb) <==>
            sector + n < 0x1_0000_0000_0000_0000 || sector + n - 0x1_0000_0000_0000_0000 > nb
  {
  }

  /** Such a request exists: one sector, the last that 64 bits can number. */
  lemma {:induction false} PastEndWraps(nb: nat)
    ensures !PastEnd(0xFFFF_FFFF_FFFF_FFFF, 1, nb)
  {
  }

  lemma {:induction false} PartsAppend(b: seq<byte>, n: nat, s: seq<byte>)
    requires |b| == SECTOR * n && |s| == SECTOR
    ensures Part(b + s, n) == s && forall j :: 0 <= j < n ==> Part(b + s, j) == Part(b, j)
  {
  }

  lemma {:induction false} PartsOfSlice(image: seq<byte>, a: nat, n: nat, b: seq<byte>)
    requires SECTOR * n <= |b| && SECTOR * a + |b| <= |image| && b == image[SECTOR * a..SECTOR * a + |b|]
    ensures forall j :: 0 <= j < n ==> Part(b, j) == SectorOf(image, map[], a + j)
  {
    forall j | 0 <= j < n ensures Part(b, j) == SectorOf(image, map[], a + j) {
      var x, y := Part(b, j), SectorOf(image, map[], a + j);
      forall i | 0 <= i < SECTOR ensures x[i] == y[i] {
        assert b[SECTOR * j + i] == image[SECTOR * a + (SECTOR * j + i)];
      }
    }
  }

  /** How many of `n` sectors from `sector` on a disk of `nb` sectors has. */
  function Within(sector: nat, n: nat, nb: nat): nat { if sector >= nb then 0 else Min(n, nb - sector) }

  /** A file after writing `b` at `at`; what lies between its end and `at` reads as
      zeros. */
  function Overlay(f: seq<byte>, at: nat, b: seq<byte>): seq<byte> {
    if b == [] then f
    else
      var front := if at <= |f| then f[..at] else f + seq(at - |f|, _ => 0);
      front + b + if at + |b| < |f| then f[at + |b|..] else []
  }

  lemma {:induction false} OverlaySize(f: seq<byte>, at: nat, b: seq<byte>)
    ensures |f| <= |Overlay(f, at, b)|
  {
  }

  lemma {:induction false} OverlayAt(f: seq<byte>, at: nat, b: seq<byte>, i: nat)
    requires i < |f|
    ensures var f' := Overlay(f, at, b); |f| <= |f'| && f'[i] == if at <= i < at + |b| then b[i - at] else f[i]
  {
  }

  class Disk {
    const mode: Mode
    const nb: nat
    var image: seq<byte>
    var table: map<nat, seq<byte>>

    ghost predicate Valid()
      reads this
    {
      && SECTOR * nb < 0x8000_0000_0000_0000 && SECTOR * nb <= |image| && (!mode.Snapshot? ==> table == map[])
      && forall k :: k in table ==> k < nb && |table[k]| == SECTOR
    }

    /** `block_device_init`. */
    constructor (mode: Mode, image: seq<byte>)
      requires |image| < 0x8000_0000_0000_0000
      ensures Valid() && this.mode == mode && nb == |image| / SECTOR && this.image == image && table == map[]
    {
      this.mode, this.image := mode, image;
      nb, table := |image| / SECTOR, map[];
    }

    /** `bf_read_async`: as much as the file has (`buf` is short if it has less);
        a snapshot must be asked for its own sectors only. */
    method ReadAsync(sector: nat, n: nat) returns (buf: seq<byte>)
      requires Valid() && (mode.Snapshot? ==> sector + n <= nb)
      ensures SECTOR * Within(sector, n, nb) <= |buf| <= SECTOR * n
      ensures forall j :: 0 <= j < Within(sector, n, nb) ==> Part(buf, j) == SectorOf(image, table, sector + j)
    {
      if mode.Snapshot? {
        buf := ReadSectors(sector, n);
      } else {
        buf := image[Min(SECTOR * sector, |image|)..Min(SECTOR * (sector + n), |image|)];
        if sector < nb {
          PartsOfSlice(image, sector, Within(sector, n, nb), buf);
        }
      }
    }

    /** Its loop for snapshots, sector by sector. */
    method ReadSectors(sector: nat, n: nat) returns (buf: seq<byte>)
      requires Valid() && sector + n <= nb
      ensures |buf| == SECTOR * n
      ensures forall j :: 0 <= j < n ==> Part(buf, j) == SectorOf(image, table, sector + j)
    {
      hide Part;
      buf := [];
      var i := 0;
      while i < n
        invariant 0 <= i <= n && |buf| == SECTOR * i
        invariant forall j :: 0 <= j < i ==> Part(buf, j) == SectorOf(image, table, sector + j)
      {
        var k := sector + i;
        var s := if k !in table then image[SECTOR * k..SECTOR * k + SECTOR] else table[k];
        PartsAppend(buf, i, s);
        buf := buf + s;
        i := i + 1;
      }
    }

    /** `bf_write_async`: refused on a read-only disk and, on a snapshot, past the
        end; the sectors written change and no others, a snapshot's image not at
        all. A read-write disk's file grows if need be. */
    method WriteAsync(sector: nat, buf: seq<byte>, n: nat) returns (ok: bool)
      requires Valid() && SECTOR * n <= |buf|
      requires mode.Snapshot? ==> sector + n <= nb || PastEnd(sector, n, nb)
      modifies this
      ensures Valid() && (!mode.ReadWrite? ==> image == old(image))
      ensures ok <==> !mode.ReadOnly? && (mode.ReadWrite? || sector + n <= nb)
      ensures !ok ==> image == old(image) && table == old(table)
      ensures ok ==>
                forall k :: 0 <= k < nb ==>
                  SectorOf(image, table, k) ==
                  if sector <= k < sector + n then Part(buf, k - sector) else old(SectorOf(image, table, k))
    {
      match mode {
        case ReadOnly => ok := false;
        case ReadWrite =>
          image := Overlay(image, SECTOR * sector, buf[..SECTOR * n]);
          ok := true;
          Overwritten(old(image), buf, sector, n, nb);
        case Snapshot =>
          if PastEnd(sector, n, nb) {
            return false;
          }
          CopySectors(sector, buf, n);
          ok := true;
      }
    }

    /** Its copy-on-write loop. */
    method CopySectors(sector: nat, buf: seq<byte>, n: nat)
      requires Valid() && mode.Snapshot? && SECTOR * n <= |buf| && sector + n <= nb
      modifies this`table
      ensures Valid()
      ensures Patched(image, old(table), table, buf, sector, n, nb)
    {
      hide Part, Patched;
      PatchNone(image, table, buf, sector, nb);
      var i := 0;
      while i < n
        invariant 0 <= i <= n && Valid() && Patched(image, old(table), table, buf, sector, i, nb)
      {
        PartSize(buf, i);
        PatchOne(image, old(table), table, buf, sector, i, nb);
        table := table[sector + i := Part(buf, i)];
        i := i + 1;
      }
    }
  }

  /** `n` sectors of `buf` from `sector` on, and no others, differ. */
  ghost predicate Patched(image: seq<byte>, tb: map<nat, seq<byte>>, tb': map<nat, seq<byte>>, buf: seq<byte>,
                          sector: nat, n: nat, nb: nat)
    requires SECTOR * nb <= |image| && SECTOR * n <= |buf|
  {
    forall k :: 0 <= k < nb ==>
      SectorOf(image, tb', k) == if sector <= k < sector + n then Part(buf, k - sector) else SectorOf(image, tb, k)
  }

  lemma {:induction false} PatchNone(image: seq<byte>, tb: map<nat, seq<byte>>, buf: seq<byte>, sector: nat, nb: nat)
    requires SECTOR * nb <= |image|
    ensures Patched(image, tb, tb, buf, sector, 0, nb)
  {
  }

  lemma {:induction false} PatchOne(image: seq<byte>, tb: map<nat, seq<byte>>, tb': map<nat, seq<byte>>, buf: seq<byte>,
                                    sector: nat, i: nat, nb: nat)
    requires SECTOR * nb <= |image| && SECTOR * (i + 1) <= |buf| && sector + i < nb
    requires Patched(image, tb, tb', buf, sector, i, nb)
    ensures Patched(image, tb, tb'[sector + i := Part(buf, i)], buf, sector, i + 1, nb)
  {
    hide SectorOf, Part;
    var t := tb'[sector + i := Part(buf, i)];
    forall k | 0 <= k < nb
      ensures SectorOf(image, t, k) ==
              if sector <= k < sector + i + 1 then Part(buf, k - sector) else SectorOf(image, tb, k)
    {
      OneSector(image, tb', sector + i, Part(buf, i), k);
    }
  }

  lemma {:induction false} OneSector(image: seq<byte>, table: map<nat, seq<byte>>, s: nat, v: seq<byte>, k: nat)
    requires SECTOR * k + SECTOR <= |image|
    ensures SectorOf(image, table[s := v], k) == if k == s then v else SectorOf(image, table, k)
  {
  }

  lemma {:induction false} PartSize(b: seq<byte>, j: nat)
    requires SECTOR * j + SECTOR <= |b|
    ensures |Part(b, j)| == SECTOR
  {
  }

  lemma {:induction false} Overwritten(image: seq<byte>, buf: seq<byte>, sector: nat, n: nat, nb: nat)
    requires SECTOR * nb <= |image| && SECTOR * n <= |buf|
    ensures var image' := Overlay(image, SECTOR * sector, buf[..SECTOR * n]);
            |image| <= |image'| &&
            forall k :: 0 <= k < nb ==>
              SectorOf(image', map[], k) ==
              if sector <= k < sector + n then Part(buf, k - sector) else SectorOf(image, map[], k)
  {
    hide Overlay;
    var b := buf[..SECTOR * n];
    var image' := Overlay(image, SECTOR * sector, b);
    OverlaySize(image, SECTOR * sector, b);
    forall k | 0 <= k < nb
      ensures SectorOf(image', map[], k) ==
              if sector <= k < sector + n then Part(buf, k - sector) else SectorOf(image, map[], k)
    {
      var s := SectorOf(image', map[], k);
      var r := if sector <= k < sector + n then Part(buf, k - sector) else SectorOf(image, map[], k);
      assert |s| == |r| == SECTOR;
      forall i | 0 <= i < SECTOR ensures s[i] == r[i] {
        OverlayAt(image, SECTOR * sector, b, SECTOR * k + i);
        SectorAt(image', k, i);
        SectorAt(image, k, i);
        if sector <= k < sector + n {
          PartAt(buf, n, k - sector, i);
        }
      }
    }
  }

  lemma {:induction false} SectorAt(image: seq<byte>, k: nat, i: nat)
    requires SECTOR * k + SECTOR <= |image| && i < SECTOR
    ensures |SectorOf(image, map[], k)| == SECTOR && SectorOf(image, map[], k)[i] == image[SECTOR * k + i]
  {
  }

  lemma {:induction false} PartAt(b: seq<byte>, n: nat, j: nat, i: nat)
    requires SECTOR * n <= |b| && j < n && i < SECTOR
    ensures |Part(b, j)| == SECTOR && Part(b, j)[i] == b[..SECTOR * n][SECTOR * j + i]
  {
  }

  // ----- what a run of requests means -----

  /** What a chain asks for: `data` is what follows the 16-byte header in its
      readable part, `w` the size of its writable part. */
  datatype Request = NoRequest | Request(kind: nat, sector: nat, data: seq<byte>, w: nat)

  /** What became of it: passed over by the code, outside the model, or answered. A
      read's `data` are the sectors the disk has, `w` is the size of the reply. */
  datatype Done =
    | Ignored
    | Outside
    | DidRead(sector: nat, data: seq<byte>, w: nat)
    | DidWrite(sector: nat, data: seq<byte>)
    | WriteFailed

  ghost function RequestOf(m: seq<byte>, ch: seq<Desc>): Request
    requires InRam(Readable(ch), |m|)
  {
    if !Ordered(ch) || |Readable(ch)| < 16 then NoRequest
    else
      var b := Gather(m, Readable(ch));
      Request(Le32(b, 0), Le64(b, 8), b[16..], |Writable(ch)|)
  }

  /** Requests that the code answers in a defined way: a byte for the status is
      there; a snapshot is read inside its sectors only, and a write past its end
      is recognised as such; file offsets stay below 2^63. */
  predicate Modelled(mode: Mode, nb: nat, q: Request)
    requires q.Request?
  {
    && q.w >= 1
    && if q.kind == T_IN then
         if mode.Snapshot? then q.sector + (q.w - 1) / SECTOR <= nb
         else SECTOR * (q.sector + (q.w - 1) / SECTOR) < 0x8000_0000_0000_0000
       else
         var n := |q.data| / SECTOR;
         match mode
         case ReadOnly => true
         case ReadWrite => SECTOR * (q.sector + n) < 0x8000_0000_0000_0000
         case Snapshot => q.sector + n <= nb || PastEnd(q.sector, n, nb)
  }

  predicate Covers(e: Done, k: nat) { e.DidWrite? && e.sector <= k < e.sector + |e.data| / SECTOR }

  /** The last data written to sector `k`, or the image's if none was. */
  function Latest(log: seq<Done>, image: seq<byte>, k: nat): seq<byte>
    requires SECTOR * k + SECTOR <= |image|
  {
    if log == [] then image[SECTOR * k..SECTOR * k + SECTOR]
    else
      var e := log[|log| - 1];
      if Covers(e, k) then Part(e.data, k - e.sector) else Latest(log[..|log| - 1], image, k)
  }

  /** The latest data of `n` sectors. */
  function LatestOf(log: seq<Done>, image: seq<byte>, sector: nat, n: nat): seq<byte>
    requires n > 0 ==> SECTOR * (sector + n) <= |image|
  {
    if n == 0 then [] else LatestOf(log, image, sector, n - 1) + Latest(log, image, sector + n - 1)
  }

  /** The reference: the one right answer to `q` after `log`, on a disk of `nb`
      sectors that held `image` at first. A read gives the latest data of the
      sectors there are; a write takes whole sectors, and is refused on a
      read-only disk and past a snapshot's end. Other types are not answered. */
  function Answer(log: seq<Done>, image: seq<byte>, mode: Mode, nb: nat, q: Request): Done
    requires SECTOR * nb <= |image|
  {
    if q.NoRequest? || (q.kind != T_IN && q.kind != T_OUT) then Ignored
    else if !Modelled(mode, nb, q) then Outside
    else if q.kind == T_IN then
      DidRead(q.sector, LatestOf(log, image, q.sector, Within(q.sector, (q.w - 1) / SECTOR, nb)), q.w)
    else
      var n := |q.data| / SECTOR;
      if mode.ReadOnly? || (mode.Snapshot? && q.sector + n > nb) then WriteFailed
      else DidWrite(q.sector, q.data[..SECTOR * n])
  }

  /** Which chains are answered, in terms of their bytes `b` and the disk. Passed over
      are those whose descriptors are out of order, that are too short for a
      header, or of another type. Not answered in a defined way are those without
      a byte for the status, reads and writes at file offsets from 2^63 on, reads
      past a snapshot's end, and writes there whose end wraps round 2^64. All
      others are answered. */
  lemma {:induction false} AnsweredExact(log: seq<Done>, image: seq<byte>, mode: Mode, nb: nat, m: seq<byte>,
                                         ch: seq<Desc>)
    requires SECTOR * nb <= |image| && InRam(Readable(ch), |m|)
    ensures var e, b, w := Answer(log, image, mode, nb, RequestOf(m, ch)), Gather(m, Readable(ch)), |Writable(ch)|;
            && (e.Ignored? <==> !Ordered(ch) || |b| < 16 || Le32(b, 0) > 1)
            && (e.Outside? <==> Ordered(ch) && |b| >= 16 && ((w == 0 && Le32(b, 0) <= 1) || Excluded(b, w, mode, nb)))
            && (e.DidRead? <==> Ordered(ch) && |b| >= 16 && w > 0 && Le32(b, 0) == 0 && !Excluded(b, w, mode, nb))
            && (e.DidWrite? || e.WriteFailed? <==>
                Ordered(ch) && |b| >= 16 && w > 0 && Le32(b, 0) == 1 && !Excluded(b, w, mode, nb))
  {
    hide Le32, Le64, Gather, Lead, FromWrite, Ordered, Latest, LatestOf;
  }

  /** The requests that the code has no defined answer to, status byte or not. */
  predicate Excluded(b: seq<byte>, w: nat, mode: Mode, nb: nat)
    requires |b| >= 16
  {
    if Le32(b, 0) == 0 && w > 0 then
      var end := Le64(b, 8) + (w - 1) / SECTOR;
      if mode.Snapshot? then end > nb else SECTOR * end >= 0x8000_0000_0000_0000
    else if Le32(b, 0) == 1 && w > 0 then
      var end := Le64(b, 8) + (|b| - 16) / SECTOR;
      (mode.ReadWrite? && SECTOR * end >= 0x8000_0000_0000_0000) ||
      (mode.Snapshot? && end > nb && end % 0x1_0000_0000_0000_0000 <= nb)
    else false
  }

  /** A read, or a write, of sectors that the disk has, with a byte for the
      status. */
  predicate ReadsInside(b: seq<byte>, w: nat, nb: nat) {
    |b| >= 16 && Le32(b, 0) == 0 && w > 0 && Le64(b, 8) + (w - 1) / SECTOR <= nb
  }

  predicate WritesInside(b: seq<byte>, w: nat, mode: Mode, nb: nat) {
    |b| >= 16 && Le32(b, 0) == 1 && w > 0 && !mode.ReadOnly? && Le64(b, 8) + (|b| - 16) / SECTOR <= nb
  }

  /** `r` holds the disk's sectors from `sector` on, and a status of zero at its
      end. */
  ghost predicate HasSectors(r: seq<byte>, im: seq<byte>, tb: map<nat, seq<byte>>, sector: nat, nb: nat)
    requires SECTOR * nb <= |im|
  {
    |r| > 0 && sector + (|r| - 1) / SECTOR <= nb && r[|r| - 1] == S_OK &&
    forall j :: 0 <= j < (|r| - 1) / SECTOR ==> Part(r, j) == SectorOf(im, tb, sector + j)
  }

  /** The disk's sectors from `sector` on are now those of `data`, and the others as
      before. */
  ghost predicate NowHas(im: seq<byte>, tb: map<nat, seq<byte>>, im': seq<byte>, tb': map<nat, seq<byte>>,
                         data: seq<byte>, sector: nat, nb: nat)
    requires SECTOR * nb <= |im| && SECTOR * nb <= |im'|
  {
    forall k :: 0 <= k < nb ==>
      SectorOf(im', tb', k) ==
      if sector <= k < sector + |data| / SECTOR then Part(data, k - sector) else SectorOf(im, tb, k)
  }

  /** What follows for such a read from the right answer. */
  lemma {:induction false} InsideRead(log: seq<Done>, image: seq<byte>, mode: Mode, nb: nat, q: Queue, ch: seq<Desc>,
                                      h: Handover, e: Done, im: seq<byte>, tb: map<nat, seq<byte>>, head: nat)
    requires SECTOR * nb <= |image| && SECTOR * nb <= |im| && SECTOR * nb < 0x8000_0000_0000_0000
    requires InRam(Readable(ch), |h.before|) && Ordered(ch)
    requires ReadsInside(Gather(h.before, Readable(ch)), |Writable(ch)|, nb)
    requires forall k :: 0 <= k < nb ==> SectorOf(im, tb, k) == Latest(log, image, k)
    requires e == Answer(log, image, mode, nb, RequestOf(h.before, ch)) && Found(e, q, ch, h)
    ensures EntryOf(e, head) == [(head, |Writable(ch)|)] && InRam(Writable(ch), |h.after|)
    ensures Distinct(Writable(ch)) ==>
              HasSectors(Gather(h.after, Writable(ch)), im, tb, Le64(Gather(h.before, Readable(ch)), 8), nb)
  {
    hide Le32, Le64, Gather, Lead, FromWrite, Ordered, Latest, LatestOf, SectorOf, Part;
    AnsweredExact(log, image, mode, nb, h.before, ch);
    var b, w := Gather(h.before, Readable(ch)), |Writable(ch)|;
    var sector, n := Le64(b, 8), (w - 1) / SECTOR;
    if Distinct(Writable(ch)) {
      var r := Gather(h.after, Writable(ch));
      forall j | 0 <= j < n ensures Part(r, j) == SectorOf(im, tb, sector + j) {
        LatestPart(log, image, sector, n, j);
        FrontPart(r, e.data, j);
      }
    }
  }

  lemma {:induction false} FrontPart(r: seq<byte>, d: seq<byte>, j: nat)
    requires SECTOR * j + SECTOR <= |d| <= |r| && r[..|d|] == d
    ensures Part(r, j) == Part(d, j)
  {
    var x, y := Part(r, j), Part(d, j);
    forall i | 0 <= i < SECTOR ensures x[i] == y[i] {
      assert r[..|d|][SECTOR * j + i] == r[SECTOR * j + i];
    }
  }

  lemma {:induction false} LatestPart(log: seq<Done>, image: seq<byte>, sector: nat, n: nat, j: nat)
    requires j < n && SECTOR * (sector + n) <= |image|
    ensures var d := LatestOf(log, image, sector, n);
            |d| == SECTOR * n && Part(d, j) == Latest(log, image, sector + j)
  {
    hide Latest;
    LatestSize(log, image, sector, n - 1);
    WholeSector(log, image, sector + n - 1);
    if j < n - 1 {
      LatestPart(log, image, sector, n - 1, j);
    }
  }

  lemma {:induction false} LatestSize(log: seq<Done>, image: seq<byte>, sector: nat, n: nat)
    requires n > 0 ==> SECTOR * (sector + n) <= |image|
    ensures |LatestOf(log, image, sector, n)| == SECTOR * n
  {
    hide Latest;
    if n > 0 {
      LatestSize(log, image, sector, n - 1);
      WholeSector(log, image, sector + n - 1);
    }
  }

  lemma {:induction false} WholeSector(log: seq<Done>, image: seq<byte>, k: nat)
    requires SECTOR * k + SECTOR <= |image|
    ensures |Latest(log, image, k)| == SECTOR
    decreases |log|
  {
    if log != [] {
      WholeSector(log[..|log| - 1], image, k);
    }
  }

  /** And for such a write. */
  lemma {:induction false} InsideWrite(log: seq<Done>, image: seq<byte>, mode: Mode, nb: nat, q: Queue, ch: seq<Desc>,
                                       h: Handover, e: Done, im: seq<byte>, tb: map<nat, seq<byte>>, im': seq<byte>,
                                       tb': map<nat, seq<byte>>, head: nat)
    requires SECTOR * nb <= |image| && SECTOR * nb <= |im| && SECTOR * nb <= |im'|
    requires SECTOR * nb < 0x8000_0000_0000_0000 && InRam(Readable(ch), |h.before|) && Ordered(ch)
    requires WritesInside(Gather(h.before, Readable(ch)), |Writable(ch)|, mode, nb)
    requires forall k :: 0 <= k < nb ==> SectorOf(im, tb, k) == Latest(log, image, k)
    requires forall k :: 0 <= k < nb ==> SectorOf(im', tb', k) == Latest(log + [e], image, k)
    requires e == Answer(log, image, mode, nb, RequestOf(h.before, ch)) && Found(e, q, ch, h)
    ensures EntryOf(e, head) == [(head, 1)] && Writable(ch) != [] && InRam(Writable(ch), |h.after|)
    ensures Distinct(Writable(ch)) ==> h.after[Writable(ch)[0]] == S_OK
    ensures var b := Gather(h.before, Readable(ch)); NowHas(im, tb, im', tb', b[16..], Le64(b, 8), nb)
  {
    hide Le32, Le64, Gather, Lead, FromWrite, Ordered, Latest, LatestOf, SectorOf, Part;
    AnsweredExact(log, image, mode, nb, h.before, ch);
    var b := Gather(h.before, Readable(ch));
    var sector, data := Le64(b, 8), b[16..];
    var n := |data| / SECTOR;
    forall k | 0 <= k < nb
      ensures SectorOf(im', tb', k) ==
              if sector <= k < sector + |data| / SECTOR then Part(data, k - sector) else SectorOf(im, tb, k)
    {
      LatestStep(log, e, image, k);
      if sector <= k < sector + n {
        PartOfFront(data, n, k - sector);
      }
    }
  }

  /** The last write to a sector is what is read, whatever came in between. */
  lemma {:induction false} LastWriteRead(log: seq<Done>, e: Done, more: seq<Done>, image: seq<byte>, k: nat)
    requires SECTOR * k + SECTOR <= |image| && Covers(e, k) && forall i :: 0 <= i < |more| ==> !Covers(more[i], k)
    ensures Latest(log + [e] + more, image, k) == Part(e.data, k - e.sector)
    decreases |more|
  {
    if more == [] {
      assert log + [e] + more == log + [e];
      LatestStep(log, e, image, k);
    } else {
      var n := |more| - 1;
      LastWriteRead(log, e, more[..n], image, k);
      assert log + [e] + more == log + [e] + more[..n] + [more[n]];
      LatestStep(log + [e] + more[..n], more[n], image, k);
    }
  }

  lemma {:induction false} LatestStep(log: seq<Done>, e: Done, image: seq<byte>, k: nat)
    requires SECTOR * k + SECTOR <= |image|
    ensures Latest(log + [e], image, k) == if Covers(e, k) then Part(e.data, k - e.sector) else Latest(log, image, k)
  {
  }

  /** A buffer whose sectors are the latest is the latest data. */
  lemma {:induction false} BufferIsLatest(b: seq<byte>, log: seq<Done>, image: seq<byte>, sector: nat, n: nat)
    requires (n > 0 ==> SECTOR * (sector + n) <= |image|) && |b| == SECTOR * n
    requires forall j :: 0 <= j < n ==> Part(b, j) == Latest(log, image, sector + j)
    ensures b == LatestOf(log, image, sector, n)
  {
    hide Latest;
    if n > 0 {
      var c := b[..SECTOR * (n - 1)];
      forall j | 0 <= j < n - 1 ensures Part(c, j) == Latest(log, image, sector + j) {
        assert Part(c, j) == Part(b, j);
      }
      BufferIsLatest(c, log, image, sector, n - 1);
      assert b == c + Part(b, n - 1);
    }
  }

  /** The disk shows the latest data; only a read-write disk's image changes. */
  ghost predicate Shows(d: Disk, log: seq<Done>, image: seq<byte>)
    reads d
  {
    && d.Valid() && SECTOR * d.nb <= |image| && (!d.mode.ReadWrite? ==> d.image == image)
    && forall k :: 0 <= k < d.nb ==> SectorOf(d.image, d.table, k) == Latest(log, image, k)
  }

  /** The used entries for the requests answered, in the order published. */
  function Entries(log: seq<Done>, pub: seq<nat>): seq<(nat, nat)>
    requires |log| <= |pub|
  {
    if log == [] then []
    else
      var n := |log| - 1;
      Entries(log[..n], pub) + EntryOf(log[n], pub[n])
  }

  function EntryOf(e: Done, head: nat): seq<(nat, nat)> {
    if e.Ignored? || e.Outside? then [] else [(head, if e.DidRead? then e.w else 1)]
  }

  lemma {:induction false} EntriesStep(log: seq<Done>, pub: seq<nat>, e: Done)
    requires |log| < |pub|
    ensures Entries(log + [e], pub) == Entries(log, pub) + EntryOf(e, pub[|log|])
  {
    assert (log + [e])[..|log|] == log;
  }

  /** More heads published change nothing about those answered. */
  lemma {:induction false} EntriesMore(log: seq<Done>, pub: seq<nat>, head: nat)
    requires |log| <= |pub|
    ensures Entries(log, pub + [head]) == Entries(log, pub)
    decreases |log|
  {
    if log != [] {
      EntriesMore(log[..|log| - 1], pub, head);
    }
  }

  // ----- hand-overs -----

  /** Guest RAM when a chain is handed to the device and when it is passed back. */
  datatype Handover = Handover(before: seq<byte>, after: seq<byte>)

  /** What the guest finds afterwards: for a read the data at the start and a
      status of zero at the end of the writable part, for a write its status at
      the start; nothing else but the used ring has changed. */
  ghost predicate Found(e: Done, q: Queue, ch: seq<Desc>, h: Handover) {
    && |h.before| == |h.after| && InRam(Writable(ch), |h.after|)
    && (forall a :: 0 <= a < |h.before| && !q.InUsed(a) && a !in Writable(ch) ==> h.after[a] == h.before[a])
    && match e
       case Ignored => h.after == h.before
       case Outside => h.after == h.before
       case DidRead(_, data, w) =>
         |data| < w == |Writable(ch)| &&
         (Distinct(Writable(ch)) ==>
            var b := Gather(h.after, Writable(ch)); b[..|data|] == data && b[w - 1] == S_OK)
       case _ =>
         |Writable(ch)| >= 1 &&
         (Distinct(Writable(ch)) ==> h.after[Writable(ch)[0]] == if e.DidWrite? then S_OK else S_IOERR)
  }

  /** The hand-over of `ch` was answered rightly. */
  ghost predicate Served(log: seq<Done>, i: nat, d: Disk, image: seq<byte>, q: Queue, ch: seq<Desc>, h: Handover)
    requires i < |log|
  {
    && SECTOR * d.nb <= |image| && InRam(Readable(ch), |h.before|)
    && log[i] == Answer(log[..i], image, d.mode, d.nb, RequestOf(h.before, ch))
    && Found(log[i], q, ch, h)
  }

  /** So was every one so far. */
  ghost predicate AllServed(log: seq<Done>, d: Disk, image: seq<byte>, q: Queue, chains: seq<seq<Desc>>,
                            hs: seq<Handover>) {
    |log| == |hs| <= |chains| && forall i :: 0 <= i < |log| ==> Served(log, i, d, image, q, chains[i], hs[i])
  }

  lemma {:induction false} AllServedStep(log: seq<Done>, d: Disk, image: seq<byte>, q: Queue, chains: seq<seq<Desc>>,
                                         hs: seq<Handover>, e: Done, h: Handover)
    requires AllServed(log, d, image, q, chains, hs) && |log| < |chains|
    requires Served(log + [e], |log|, d, image, q, chains[|log|], h)
    ensures AllServed(log + [e], d, image, q, chains, hs + [h])
  {
    hide Answer, Found;
    forall i | 0 <= i < |log + [e]| ensures Served(log + [e], i, d, image, q, chains[i], (hs + [h])[i]) {
      if i < |log| {
        assert Served(log, i, d, image, q, chains[i], hs[i]) && (log + [e])[..i] == log[..i];
      }
    }
  }

  lemma {:induction false} AllServedMore(log: seq<Done>, d: Disk, image: seq<byte>, q: Queue, chains: seq<seq<Desc>>,
                                         hs: seq<Handover>, ch: seq<Desc>)
    requires AllServed(log, d, image, q, chains, hs)
    ensures AllServed(log, d, image, q, chains + [ch], hs)
  {
    hide Served;
    forall i | 0 <= i < |log| ensures Served(log, i, d, image, q, (chains + [ch])[i], hs[i]) {
      assert Served(log, i, d, image, q, chains[i], hs[i]);
    }
  }

  /** Hand-overs that follow one another without the guest in between, from RAM
      `m` to RAM `m'`. */
  ghost predicate Linked(hs: seq<Handover>, m: seq<byte>, m': seq<byte>) {
    if hs == [] then m' == m
    else hs[|hs| - 1].after == m' && Linked(hs[..|hs| - 1], m, hs[|hs| - 1].before)
  }

  lemma {:induction false} LinkedNone(m: seq<byte>)
    ensures Linked([], m, m)
  {
  }

  lemma {:induction false} LinkedMore(hs: seq<Handover>, m0: seq<byte>, m: seq<byte>, m': seq<byte>)
    requires Linked(hs, m0, m)
    ensures Linked(hs + [Handover(m, m')], m0, m')
  {
    assert (hs + [Handover(m, m')])[..|hs|] == hs;
  }

  // ----- the device -----

  class Device {
    const ram: array<byte>
    const q: Queue
    const disk: Disk
    /** `last_avail_idx`. */
    var last: u16

    /** All heads published, and their chains; how many have been handed to the
        device; all used entries; what became of the requests, and guest RAM at
        each hand-over. */
    ghost var pub: seq<nat>
    ghost var chains: seq<seq<Desc>>
    ghost var done: nat
    ghost var used: seq<(nat, nat)>
    ghost var log: seq<Done>
    ghost var hs: seq<Handover>
    ghost const image: seq<byte>

    /** After a reset, before the driver has published anything. */
    constructor (ram: array<byte>, q: Queue, disk: Disk)
      requires q.Laid(ram.Length) && ram.Length < 0x1_0000_0000 && Le16(ram[..], q.avail + 2) == 0
      requires Le16(ram[..], q.used + 2) == 0 && disk.Valid() && disk.table == map[]
      ensures Inv() && this.ram == ram && this.q == q && this.disk == disk
      ensures pub == [] && log == [] && image == disk.image
    {
      this.ram, this.q, this.disk := ram, q, disk;
      last, pub, chains, done, used, log, hs, image := 0, [], [], 0, [], [], [], disk.image;
    }

    /** What a request needs and keeps, `log` being what became of the others. */
    ghost predicate Ready(log: seq<Done>)
      reads this, ram, disk
    {
      q.Laid(ram.Length) && ram.Length < 0x1_0000_0000 && UsedOk(ram[..], q, used) && Shows(disk, log, image)
    }

    ghost predicate Inv()
      reads this, ram, disk
    {
      && Ready(log) && AvailOk(ram[..], q, pub, done) && last == done % 0x1_0000
      && |chains| == |pub| && (forall p :: done <= p < |pub| ==> Pending(ram[..], q, pub[p], chains[p]))
      && |log| == done && AllServed(log, disk, image, q, chains, hs) && used == Entries(log, pub)
    }

    /** The end of `virtio_block_req_end`: put the reply into the chain's writable
        part and pass the chain back. */
    method Reply(idx: nat, buf: seq<byte>, ghost ch: seq<Desc>, ghost log': seq<Done>)
      requires Ready(log') && Pending(ram[..], q, idx, ch) && 0 < |buf| <= |Writable(ch)| && idx < 0x1_0000
      modifies ram, this`used
      ensures Ready(log') && used == old(used) + [(idx, |buf|)] && InRam(Writable(ch), ram.Length)
      ensures forall a :: 0 <= a < ram.Length && !q.InUsed(a) && a !in Writable(ch) ==> ram[a] == old(ram[a])
      ensures Distinct(Writable(ch)) ==> Gather(ram[..], Writable(ch)[..|buf|]) == buf
    {
      hide UsedOk, Lead, FromWrite, WellPlaced, ChainAt;
      PassBack(ram, q, idx, buf, used, ch);
      used := used + [(idx, |buf|)];
    }

    /** A read: what the disk has of the sectors, and a status of zero at the end.
        What lies between is whatever the buffer held; zeros here. */
    method ReadRequest(idx: nat, sector: nat, w: nat, ghost ch: seq<Desc>) returns (e: Done)
      requires Ready(log) && Pending(ram[..], q, idx, ch) && idx < 0x1_0000 && w == |Writable(ch)| >= 1
      requires disk.mode.Snapshot? ==> sector + (w - 1) / SECTOR <= disk.nb
      modifies ram, this`used
      ensures Ready(log + [e]) && used == old(used) + [(idx, w)]
      ensures e == DidRead(sector, LatestOf(log, image, sector, Within(sector, (w - 1) / SECTOR, disk.nb)), w)
      ensures Found(e, q, ch, Handover(old(ram[..]), ram[..]))
    {
      hide Pending, UsedOk, Lead, FromWrite, SectorOf, Latest;
      var n := Within(sector, (w - 1) / SECTOR, disk.nb);
      var buf := disk.ReadAsync(sector, (w - 1) / SECTOR);
      var data := buf[..SECTOR * n];
      forall j | 0 <= j < n ensures Part(data, j) == Latest(log, image, sector + j) {
        PartOfFront(buf, n, j);
      }
      BufferIsLatest(data, log, image, sector, n);
      e := DidRead(sector, data, w);
      var reply := buf + seq(w - 1 - |buf|, _ => 0) + [S_OK];
      Reply(idx, reply, ch, log);
      assert Writable(ch)[..w] == Writable(ch) && reply[..|data|] == data;
      ReadKeeps(log, e, image, disk.nb);
    }

    /** A write: the status only. It succeeds exactly on a read-write disk and
        inside a snapshot. */
    method WriteRequest(idx: nat, sector: nat, data: seq<byte>, ghost ch: seq<Desc>) returns (e: Done)
      requires Ready(log) && Pending(ram[..], q, idx, ch) && idx < 0x1_0000 && |Writable(ch)| >= 1
      requires var n := |data| / SECTOR; disk.mode.Snapshot? ==> sector + n <= disk.nb || PastEnd(sector, n, disk.nb)
      modifies ram, disk, this`used
      ensures var n := |data| / SECTOR;
              e == if disk.mode.ReadOnly? || (disk.mode.Snapshot? && sector + n > disk.nb) then WriteFailed
                   else DidWrite(sector, data[..SECTOR * n])
      ensures Ready(log + [e]) && Found(e, q, ch, Handover(old(ram[..]), ram[..]))
      ensures used == old(used) + [(idx, 1)]
    {
      hide Pending, UsedOk, Lead, FromWrite;
      ghost var im, tb := disk.image, disk.table;
      var n := |data| / SECTOR;
      var whole := data[..SECTOR * n];
      var ok := disk.WriteAsync(sector, whole, n);
      e := if ok then DidWrite(sector, whole) else WriteFailed;
      WriteKeeps(im, tb, disk.image, disk.table, disk.nb, log, e, image);
      var status := if ok then S_OK else S_IOERR;
      Reply(idx, [status], ch, log + [e]);
      assert Distinct(Writable(ch)) ==> Gather(ram[..], Writable(ch)[..1])[0] == status;
    }

    /** One chain gets the right answer; in particular a read or a write of sectors
        the disk has always gets its data, its status and one used entry. */
    method Recv(idx: nat, ghost ch: seq<Desc>) returns (e: Done)
      requires Ready(log) && Pending(ram[..], q, idx, ch) && idx < 0x1_0000
      modifies ram, disk, this`used
      ensures Ready(log + [e]) && InRam(Readable(ch), ram.Length) && InRam(Writable(ch), ram.Length)
      ensures e == Answer(log, image, disk.mode, disk.nb, RequestOf(old(ram[..]), ch))
      ensures Found(e, q, ch, Handover(old(ram[..]), ram[..]))
      ensures used == old(used) + EntryOf(e, idx)
      ensures SECTOR * disk.nb <= |old(disk.image)| && SECTOR * disk.nb <= |disk.image|
      ensures var b, w := Gather(old(ram[..]), Readable(ch)), |Writable(ch)|;
              Ordered(ch) && ReadsInside(b, w, disk.nb) ==>
                used == old(used) + [(idx, w)] &&
                (Distinct(Writable(ch)) ==>
                   HasSectors(Gather(ram[..], Writable(ch)), old(disk.image), old(disk.table), Le64(b, 8), disk.nb))
      ensures var b, w := Gather(old(ram[..]), Readable(ch)), |Writable(ch)|;
              Ordered(ch) && WritesInside(b, w, disk.mode, disk.nb) ==>
                used == old(used) + [(idx, 1)] && (Distinct(Writable(ch)) ==> ram[Writable(ch)[0]] == S_OK) &&
                NowHas(old(disk.image), old(disk.table), disk.image, disk.table, b[16..], Le64(b, 8), disk.nb)
    {
      hide UsedOk, Pending, Lead, FromWrite, Gather, Latest, SectorOf, LatestOf, Le32, Le64, Answer, Found, EntryOf;
      hide HasSectors, NowHas, ReadsInside, WritesInside, RequestOf, Distinct, Ordered;
      ghost var im, tb, m := disk.image, disk.table, ram[..];
      e := Respond(idx, ch);
      ghost var h := Handover(m, ram[..]);
      FoundSize(e, q, ch, h);
      if Ordered(ch) && ReadsInside(Gather(m, Readable(ch)), |Writable(ch)|, disk.nb) {
        InsideRead(log, image, disk.mode, disk.nb, q, ch, h, e, im, tb, idx);
      }
      if Ordered(ch) && WritesInside(Gather(m, Readable(ch)), |Writable(ch)|, disk.mode, disk.nb) {
        InsideWrite(log, image, disk.mode, disk.nb, q, ch, h, e, im, tb, disk.image, disk.table, idx);
        assert h.after[Writable(ch)[0]] == ram[Writable(ch)[0]];
      }
    }

    /** Lines 634-643 and `virtio_block_recv_request`. */
    method Respond(idx: nat, ghost ch: seq<Desc>) returns (e: Done)
      requires Ready(log) && Pending(ram[..], q, idx, ch) && idx < 0x1_0000
      modifies ram, disk, this`used
      ensures Ready(log + [e]) && InRam(Readable(ch), ram.Length)
      ensures e == Answer(log, image, disk.mode, disk.nb, RequestOf(old(ram[..]), ch))
      ensures Found(e, q, ch, Handover(old(ram[..]), ram[..]))
      ensures used == old(used) + EntryOf(e, idx)
    {
      hide UsedOk, Lead, FromWrite, WellPlaced, ChainAt, Gather, Shows, Latest, LatestOf, Le32, Le64;
      e := Ignored;
      var sizes := GetDescRwSize(ram, q.t, idx, ch);
      var h := CopyFromQueue(ram, q.t, idx, 0, 16, ch);
      var _, _ := SkipReadable(ram, q.t, idx, ch);
      PassedOver(disk, log, Ignored, image);
      PassedOver(disk, log, Outside, image);
      if sizes.None? || h.None? {
        return;
      }
      var (r, w) := sizes.value;
      var data := CopyFromQueue(ram, q.t, idx, 16, r - 16, ch);
      HeaderAndData(ram[..], ch, h.value, data.value);
      var request := Request(Le32(h.value, 0), Le64(h.value, 8), data.value, w);
      if request.kind != T_IN && request.kind != T_OUT {
        return;
      }
      if !Modelled(disk.mode, disk.nb, request) {
        e := Outside;
        return;
      }
      hide Ready, Found;
      if request.kind == T_IN {
        e := ReadRequest(idx, request.sector, w, ch);
      } else {
        e := WriteRequest(idx, request.sector, data.value, ch);
      }
    }

    /** `queue_notify`: every published head is handed over once and in order,
        whatever the 16-bit indices, and each gets the right answer: `now` are the
        hand-overs made. */
    method Notify() returns (handed: seq<nat>, ghost now: seq<Handover>)
      requires Inv()
      modifies this, ram, disk
      ensures Inv() && pub == old(pub) && chains == old(chains) && done == |pub|
      ensures old(done) <= |pub| && handed == pub[old(done)..] && old(log) <= log && old(used) <= used
      ensures hs == old(hs) + now && |now| == |handed| && Linked(now, old(ram[..]), ram[..])
    {
      hide UsedOk, Pending, Shows, AllServed, Entries, AvailOk, Linked;
      handed, now := [], [];
      LinkedNone(ram[..]);
      AvailIndex(ram[..], q, pub, done);
      var availIdx := Le16(ram[..], q.avail + 2);
      while last != availIdx
        invariant Inv() && pub == old(pub) && chains == old(chains) && availIdx == |pub| % 0x1_0000
        invariant old(done) <= done <= |pub| && handed == pub[old(done)..done] && old(log) <= log && old(used) <= used
        invariant hs == old(hs) + now && |now| == |handed| && Linked(now, old(ram[..]), ram[..])
        decreases |pub| - done
      {
        NextHead(ram[..], q, pub, done);
        AvailIndex(ram[..], q, pub, done);
        ghost var m := ram[..];
        var idx := Next();
        LinkedMore(now, old(ram[..]), m, ram[..]);
        handed, now := handed + [idx], now + [Handover(m, ram[..])];
      }
      NextHead(ram[..], q, pub, done);
      AvailIndex(ram[..], q, pub, done);
    }

    /** One turn of its loop. */
    method Next() returns (idx: nat)
      requires Inv() && done < |pub|
      modifies this, ram, disk
      ensures Inv() && pub == old(pub) && chains == old(chains) && done == old(done) + 1 <= |pub|
      ensures idx == pub[old(done)]
      ensures old(log) <= log && old(used) <= used && hs == old(hs) + [Handover(old(ram[..]), ram[..])]
    {
      hide UsedOk, Pending, Shows, AllServed, Entries, AvailOk;
      NextHead(ram[..], q, pub, done);
      idx := HeadAt(ram[..], q, And(last, q.t.num - 1));
      One(idx);
      AvailIndex(ram[..], q, pub, done);
    }

    /** The driver's side: publish one more chain, whose descriptors are in place
        (section 2.6.13 of VIRTIO 1.1). */
    method Publish(head: u16, ghost ch: seq<Desc>)
      requires Inv() && |pub| < done + q.t.num && Pending(ram[..], q, head, ch)
      modifies ram, this`pub, this`chains
      ensures Inv() && pub == old(pub) + [head] && chains == old(chains) + [ch] && OnlyAvail(old(ram[..]), ram[..], q)
    {
      hide UsedOk, Pending, Shows, AllServed, AvailOk, Entries;
      ghost var m := ram[..];
      WriteAvail(ram, q, head, pub, done);
      ghost var m' := ram[..];
      AvailIndex(m, q, pub, done);
      UsedStill(m, m', q, used);
      PendingAll(m, m', q, pub, chains, done);
      PendingStill(m, m', q, head, ch);
      EntriesMore(log, pub, head);
      AllServedMore(log, disk, image, q, chains, hs, ch);
      pub, chains := pub + [head as nat], chains + [ch];
      assert ram[..] == m';
    }

    /** The driver stores `b` at `at`: anywhere but in the rings and in the
        descriptors of chains the device has not been handed yet. */
    method Store(at: nat, b: seq<byte>)
      requires Inv() && at + |b| <= ram.Length && OffRings(q, at, |b|)
      requires forall p :: done <= p < |pub| ==> OffDescs(q.t, Visits(pub[p], chains[p]), at, |b|)
      modifies ram
      ensures Inv() && ram[..] == Patch(old(ram[..]), at, b)
    {
      hide UsedOk, Pending, Shows, AllServed, AvailOk, Entries, OffRings, OffDescs, Visits;
      ghost var m := ram[..];
      StoreBytes(ram, at, b);
      ghost var m' := ram[..];
      assert m' == Patch(m, at, b);
      RingsStay(m, q, pub, done, used, at, b);
      forall p | done <= p < |pub| ensures Pending(m', q, pub[p], chains[p]) {
        PendingStays(m, q, pub[p], chains[p], at, b);
      }
    }

    /** All of the device and of guest RAM at one moment. */
    ghost function Now(): Moment
      reads this, ram
    {
      Moment(ram[..], pub, chains, done, used, log, hs)
    }

    /** The body of that turn. */
    method One(idx: nat)
      requires Inv() && done < |pub| && idx == pub[done] < 0x1_0000
      modifies this, ram, disk
      ensures Inv() && pub == old(pub) && chains == old(chains) && done == old(done) + 1
      ensures old(log) <= log && old(used) <= used && hs == old(hs) + [Handover(old(ram[..]), ram[..])]
    {
      hide UsedOk, Pending, Latest, SectorOf, Found, Answer, AvailOk, AllServed, Entries, Lead, EntryOf;
      ghost var m := ram[..];
      assert Pending(m, q, pub[done], chains[done]);
      var e := Recv(idx, chains[done]);
      ghost var m' := ram[..];
      GuardedKept(e, m, m', q, pub[done], chains[done]);
      AvailKept(m, m', q, pub, done);
      AvailTaken(m', q, pub, done);
      forall p | done < p < |pub| ensures Pending(m', q, pub[p], chains[p]) {
        PendingKept(m, m', q, pub[p], chains[p]);
      }
      OneServed(log, e, disk, image, q, chains, hs, Handover(m, m'));
      EntriesStep(log, pub, e);
      NextIndex(done);
      last := (last + 1) % 0x1_0000;
      log, hs := log + [e], hs + [Handover(m, m')];
      done := done + 1;
      assert ram[..] == m';
    }
  }

  lemma {:induction false} FoundSize(e: Done, q: Queue, ch: seq<Desc>, h: Handover)
    requires Found(e, q, ch, h)
    ensures |h.before| == |h.after| && InRam(Writable(ch), |h.after|)
  {
  }

  lemma {:induction false} HeaderAndData(m: seq<byte>, ch: seq<Desc>, h: seq<byte>, d: seq<byte>)
    requires Ordered(ch) && |Readable(ch)| >= 16 && InRam(Readable(ch), |m|)
    requires h == Gather(m, Readable(ch)[0..16])
    requires d == if |Readable(ch)| == 16 then [] else Gather(m, Readable(ch)[16..16 + (|Readable(ch)| - 16)])
    ensures RequestOf(m, ch) == Request(Le32(h, 0), Le64(h, 8), d, |Writable(ch)|)
  {
    hide Gather, Lead, FromWrite, Le32, Le64;
    var s := Readable(ch);
    var b := Gather(m, s);
    GatherSlice(m, s, 0, 16);
    GatherSlice(m, s, 16, |s| - 16);
    assert b[16..16 + (|s| - 16)] == b[16..];
    HeaderFields(b);
  }

  lemma {:induction false} HeaderFields(b: seq<byte>)
    requires |b| >= 16
    ensures Le32(b[0..16], 0) == Le32(b, 0) && Le64(b[0..16], 8) == Le64(b, 8)
  {
  }

  lemma {:induction false} ReadKeeps(log: seq<Done>, e: Done, image: seq<byte>, nb: nat)
    requires SECTOR * nb <= |image| && !e.DidWrite?
    ensures forall k :: 0 <= k < nb ==> Latest(log + [e], image, k) == Latest(log, image, k)
  {
    forall k | 0 <= k < nb ensures Latest(log + [e], image, k) == Latest(log, image, k) {
      LatestStep(log, e, image, k);
    }
  }

  lemma {:induction false} PassedOver(d: Disk, log: seq<Done>, e: Done, image: seq<byte>)
    requires Shows(d, log, image) && !e.DidWrite?
    ensures Shows(d, log + [e], image)
  {
    ReadKeeps(log, e, image, d.nb);
  }

  lemma {:induction false} PartOfFront(b: seq<byte>, n: nat, j: nat)
    requires SECTOR * n <= |b| && j < n
    ensures Part(b[..SECTOR * n], j) == Part(b, j)
  {
  }

  /** A write keeps disk and history in step. */
  lemma {:induction false} WriteKeeps(im: seq<byte>, tb: map<nat, seq<byte>>, im': seq<byte>,
                                      tb': map<nat, seq<byte>>, nb: nat, log: seq<Done>, e: Done, image: seq<byte>)
    requires SECTOR * nb <= |im| && SECTOR * nb <= |im'| && SECTOR * nb <= |image|
    requires forall k :: 0 <= k < nb ==> SectorOf(im, tb, k) == Latest(log, image, k)
    requires forall k :: 0 <= k < nb ==>
               SectorOf(im', tb', k) == if Covers(e, k) then Part(e.data, k - e.sector) else SectorOf(im, tb, k)
    ensures forall k :: 0 <= k < nb ==> SectorOf(im', tb', k) == Latest(log + [e], image, k)
  {
    hide SectorOf, Latest;
    forall k | 0 <= k < nb ensures SectorOf(im', tb', k) == Latest(log + [e], image, k) {
      LatestStep(log, e, image, k);
    }
  }

  lemma {:induction false} OneServed(log: seq<Done>, e: Done, d: Disk, image: seq<byte>, q: Queue,
                                     chains: seq<seq<Desc>>, hs: seq<Handover>, h: Handover)
    requires AllServed(log, d, image, q, chains, hs) && |log| < |chains| && SECTOR * d.nb <= |image|
    requires InRam(Readable(chains[|log|]), |h.before|)
    requires e == Answer(log, image, d.mode, d.nb, RequestOf(h.before, chains[|log|])) && Found(e, q, chains[|log|], h)
    ensures AllServed(log + [e], d, image, q, chains, hs + [h])
  {
    hide Answer, Found;
    assert (log + [e])[..|log|] == log;
    AllServedStep(log, d, image, q, chains, hs, e, h);
  }

  /** An answer leaves the table and the available ring alone. */
  lemma {:induction false} GuardedKept(e: Done, m: seq<byte>, m': seq<byte>, q: Queue, head: nat, ch: seq<Desc>)
    requires Pending(m, q, head, ch) && Found(e, q, ch, Handover(m, m')) && q.Laid(|m|)
    ensures |m| == |m'| && forall a :: 0 <= a < |m| && q.Guarded(a) ==> m'[a] == m[a]
  {
    hide Lead, FromWrite;
  }

  lemma {:induction false} UsedStill(m: seq<byte>, m': seq<byte>, q: Queue, u: seq<(nat, nat)>)
    requires q.Laid(|m|) && OnlyAvail(m, m', q) && UsedOk(m, q, u)
    ensures UsedOk(m', q, u)
  {
    hide UsedOk;
    UsedKept(m, m', q, u);
  }

  lemma {:induction false} PendingStill(m: seq<byte>, m': seq<byte>, q: Queue, head: nat, ch: seq<Desc>)
    requires q.Laid(|m|) && OnlyAvail(m, m', q) && Pending(m, q, head, ch)
    ensures Pending(m', q, head, ch)
  {
    hide ChainAt, WellPlaced;
    ChainFrame(m, m', q.t, head, ch);
  }

  lemma {:induction false} PendingAll(m: seq<byte>, m': seq<byte>, q: Queue, pub: seq<nat>, chains: seq<seq<Desc>>,
                                      done: nat)
    requires q.Laid(|m|) && OnlyAvail(m, m', q) && |pub| == |chains|
    requires forall p :: done <= p < |pub| ==> Pending(m, q, pub[p], chains[p])
    ensures forall p :: done <= p < |pub| ==> Pending(m', q, pub[p], chains[p])
  {
    hide Pending, OnlyAvail;
    forall p | done <= p < |pub| ensures Pending(m', q, pub[p], chains[p]) {
      PendingStill(m, m', q, pub[p], chains[p]);
    }
  }

  lemma {:induction false} AvailTaken(m: seq<byte>, q: Queue, pub: seq<nat>, done: nat)
    requires q.Laid(|m|) && AvailOk(m, q, pub, done) && done < |pub|
    ensures AvailOk(m, q, pub, done + 1)
  {
  }

  // ----- stores by the driver -----

  /** `n` bytes at `at` lie outside both rings. */
  predicate OffRings(q: Queue, at: nat, n: nat) {
    && (at + n <= q.avail || q.avail + 4 + 2 * q.t.num <= at)
    && (at + n <= q.used || q.used + 4 + 8 * q.t.num <= at)
  }

  lemma {:induction false} RingsStay(m: seq<byte>, q: Queue, pub: seq<nat>, done: nat, u: seq<(nat, nat)>, at: nat,
                                     b: seq<byte>)
    requires q.Laid(|m|) && AvailOk(m, q, pub, done) && UsedOk(m, q, u) && at + |b| <= |m| && OffRings(q, at, |b|)
    ensures AvailOk(Patch(m, at, b), q, pub, done) && UsedOk(Patch(m, at, b), q, u)
  {
    hide UsedOk;
    var m' := Patch(m, at, b);
    assert forall a :: 0 <= a < |m| && (a < at || at + |b| <= a) ==> m'[a] == m[a];
    UsedKept(m, m', q, u);
    forall p | done <= p < |pub| ensures HeadAt(m', q, p % q.t.num) == pub[p] {
      assert HeadAt(m, q, p % q.t.num) == pub[p];
    }
  }

  lemma {:induction false} PendingStays(m: seq<byte>, q: Queue, head: nat, ch: seq<Desc>, at: nat, b: seq<byte>)
    requires Pending(m, q, head, ch) && at + |b| <= |m| && OffDescs(q.t, Visits(head, ch), at, |b|)
    ensures Pending(Patch(m, at, b), q, head, ch)
  {
    hide ChainAt, WellPlaced, OffDescs, Visits;
    ChainStays(m, q.t, head, ch, at, b);
  }

  // ----- runs -----

  datatype Moment = Moment(ram: seq<byte>, pub: seq<nat>, chains: seq<seq<Desc>>, done: nat, used: seq<(nat, nat)>,
                           log: seq<Done>, hs: seq<Handover>)

  /** What can happen: the driver stores bytes, publishes the chain at a head, or
      notifies the device. */
  datatype Event = Stores(at: nat, b: seq<byte>) | Publishes(head: u16) | Notifies

  /** The event is one a driver may cause now: `heads` and `chs` are the chains
      published and not yet handed over. */
  predicate Admits(e: Event, m: seq<byte>, q: Queue, heads: seq<nat>, chs: seq<seq<Desc>>)
    requires |heads| == |chs|
  {
    match e
    case Stores(at, b) =>
      && at + |b| <= |m| && OffRings(q, at, |b|)
      && forall p :: 0 <= p < |heads| ==> OffDescs(q.t, Visits(heads[p], chs[p]), at, |b|)
    case Publishes(head) =>
      && |heads| < q.t.num
      && var ch := Walk(m, q.t, head, q.t.num);
         ch.Some? && WellPlaced(q, ch.value) && |Writable(ch.value)| < 0x8000_0000
    case Notifies => true
  }

  ghost predicate Admitted(e: Event, q: Queue, a: Moment)
    requires a.done <= |a.pub| == |a.chains|
  {
    Admits(e, a.ram, q, a.pub[a.done..], a.chains[a.done..])
  }

  /** What it does. */
  ghost predicate Does(e: Event, q: Queue, a: Moment, b: Moment) {
    match e
    case Stores(at, bytes) => at + |bytes| <= |a.ram| && b == a.(ram := Patch(a.ram, at, bytes))
    case Publishes(head) =>
      exists ch :: b == a.(ram := b.ram, pub := a.pub + [head as nat], chains := a.chains + [ch]) &&
                   ChainAt(a.ram, q.t, head, ch) && OnlyAvail(a.ram, b.ram, q)
    case Notifies =>
      && b.pub == a.pub && b.chains == a.chains && b.done == |b.pub| && a.log <= b.log && a.used <= b.used
      && a.hs <= b.hs && Linked(b.hs[|a.hs|..], a.ram, b.ram)
  }

  ghost predicate Happens(e: Event, q: Queue, a: Moment, b: Moment) {
    a.done <= |a.pub| == |a.chains| && if Admitted(e, q, a) then Does(e, q, a, b) else b == a
  }

  ghost predicate History(hist: seq<Moment>, ev: seq<Event>, q: Queue) {
    |hist| <= |ev| + 1 && forall i :: 0 < i < |hist| ==> Happens(ev[i - 1], q, hist[i - 1], hist[i])
  }

  /** Any run of a driver that stores, publishes and notifies in any order: every
      request handed over so far has had the one right answer, decoded from RAM as
      it was then, and the used ring lists exactly those answers. */
  method Run(d: Device, ev: seq<Event>) returns (ghost hist: seq<Moment>)
    requires d.Inv() && d.done == |d.pub|
    modifies d, d.ram, d.disk
    ensures d.Inv() && |hist| == |ev| + 1 && History(hist, ev, d.q)
    ensures hist[0] == old(d.Now()) && hist[|ev|] == d.Now()
    ensures AllServed(d.log, d.disk, d.image, d.q, d.chains, d.hs) && d.used == Entries(d.log, d.pub)
    ensures old(d.pub) <= d.pub && old(d.log) <= d.log
  {
    hide UsedOk, Pending, Shows, AllServed, AvailOk, Entries, Admits, Does, Linked;
    var heads: seq<nat>, chs: seq<seq<Desc>> := [], [];
    hist := [d.Now()];
    for i := 0 to |ev|
      invariant d.Inv() && d.done <= |d.pub| && heads == d.pub[d.done..] && chs == d.chains[d.done..]
      invariant |hist| == i + 1 && History(hist, ev, d.q) && hist[0] == old(d.Now()) && hist[i] == d.Now()
      invariant old(d.pub) <= d.pub && old(d.log) <= d.log
    {
      ghost var a := d.Now();
      if Admits(ev[i], d.ram[..], d.q, heads, chs) {
        heads, chs := Handle(d, ev[i], heads, chs);
      }
      hist := hist + [d.Now()];
    }
  }

  /** One event. */
  method Handle(d: Device, e: Event, heads: seq<nat>, chs: seq<seq<Desc>>)
    returns (heads': seq<nat>, chs': seq<seq<Desc>>)
    requires d.Inv() && d.done <= |d.pub| && heads == d.pub[d.done..] && chs == d.chains[d.done..]
    requires Admits(e, d.ram[..], d.q, heads, chs)
    modifies d, d.ram, d.disk
    ensures d.Inv() && d.done <= |d.pub| && heads' == d.pub[d.done..] && chs' == d.chains[d.done..]
    ensures Does(e, d.q, old(d.Now()), d.Now()) && old(d.pub) <= d.pub && old(d.log) <= d.log
  {
    hide UsedOk, Shows, AllServed, AvailOk, Entries, Linked, Walk, WellPlaced, OffRings, OffDescs, Visits, ChainAt;
    heads', chs' := heads, chs;
    match e {
      case Stores(at, b) => d.Store(at, b);
      case Publishes(head) =>
        var ch := Walk(d.ram[..], d.q.t, head, d.q.t.num).value;
        WalkFinds(d.ram[..], d.q.t, head, d.q.t.num, ch);
        d.Publish(head, ch);
        heads', chs' := heads + [head as nat], chs + [ch];
      case Notifies =>
        var _, _ := d.Notify();
        heads', chs' := [], [];
    }
  }
}
