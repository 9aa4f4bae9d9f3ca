/** The virtio split queue of src/virtio.cc: descriptor chains in guest RAM and
    scatter/gather copies over them (sections 2.6.4 and 2.6.5 of VIRTIO 1.1). */
module Virtio {
  import opened Basics

  const PAGE: nat := 4096

  // ----- little-endian fields in guest RAM -----

  function Le16(m: seq<byte>, a: nat): u16
    requires a + 2 <= |m|
  {
    m[a] as int + 256 * m[a + 1] as int
  }

  function Le32(m: seq<byte>, a: nat): nat
    requires a + 4 <= |m|
  {
    Le16(m, a) + 0x1_0000 * (Le16(m, a + 2) as int)
  }

  function Le64(m: seq<byte>, a: nat): nat
    requires a + 8 <= |m|
  {
    Le32(m, a) + 0x1_0000_0000 * Le32(m, a + 4)
  }

  /** A buffer descriptor; bits 0 and 1 of the flags are NEXT and WRITE. */
  datatype Desc = Desc(addr: nat, len: nat, flags: u16, next: u16) {
    predicate HasNext() { flags % 2 == 1 }
    predicate Writable() { flags / 2 % 2 == 1 }
  }

  /** Where a queue lives in guest RAM: `num` descriptors of 16 bytes each. */
  datatype Table = Table(base: nat, num: nat) {
    predicate Holds(idx: nat, size: nat) { idx < num && base + 16 * num <= size }

    /** `a` lies outside the descriptor table. */
    predicate Outside(a: nat) { a < base || base + 16 * num <= a }
  }

  function DescAt(m: seq<byte>, t: Table, idx: nat): Desc
    requires t.Holds(idx, |m|)
  {
    var a := t.base + 16 * idx;
    Desc(Le64(m, a), Le32(m, a + 8), Le16(m, a + 12), Le16(m, a + 14))
  }

  /** `ch` is the chain of descriptors that starts at `idx`. That it is finite is
      what acyclic means. Its descriptors lie in the table and its buffers in
      RAM. */
  ghost predicate ChainAt(m: seq<byte>, t: Table, idx: nat, ch: seq<Desc>)
    decreases |ch|
  {
    && ch != [] && t.Holds(idx, |m|) && ch[0] == DescAt(m, t, idx) && ch[0].addr + ch[0].len <= |m|
    && if ch[0].HasNext() then ChainAt(m, t, ch[0].next, ch[1..]) else |ch| == 1
  }

  // ----- what a chain stands for -----

  /** The addresses `a`, ..., `a + n - 1`. */
  function Range(a: nat, n: nat): (s: seq<nat>)
    ensures |s| == n
  {
    seq(n, i requires 0 <= i < n => a + i)
  }

  /** The addresses of the leading descriptors of one kind, in order. */
  function Lead(ch: seq<Desc>, write: bool): seq<nat>
    decreases |ch|
  {
    if ch == [] || ch[0].Writable() != write then [] else Range(ch[0].addr, ch[0].len) + Lead(ch[1..], write)
  }

  /** The chain from its first writable descriptor on. */
  function FromWrite(ch: seq<Desc>): seq<Desc>
    decreases |ch|
  {
    if ch == [] || ch[0].Writable() then ch else FromWrite(ch[1..])
  }

  function Readable(ch: seq<Desc>): seq<nat> { Lead(ch, false) }
  function Writable(ch: seq<Desc>): seq<nat> { Lead(FromWrite(ch), true) }

  /** No readable descriptor follows a writable one. */
  predicate Ordered(ch: seq<Desc>) {
    forall i, j :: 0 <= i < j < |ch| && ch[i].Writable() ==> ch[j].Writable()
  }

  function AllSlots(ch: seq<Desc>): seq<nat>
    decreases |ch|
  {
    if ch == [] then [] else Range(ch[0].addr, ch[0].len) + AllSlots(ch[1..])
  }

  lemma {:induction false} OrderedTail(ch: seq<Desc>)
    requires ch != []
    ensures Ordered(ch) ==> Ordered(ch[1..])
    ensures Ordered(ch) && ch[0].Writable() ==> forall j :: 0 <= j < |ch| ==> ch[j].Writable()
    ensures Ordered(ch[1..]) && !ch[0].Writable() ==> Ordered(ch)
  {
  }

  lemma {:induction false} AllWritable(ch: seq<Desc>)
    requires forall j :: 0 <= j < |ch| ==> ch[j].Writable()
    ensures Lead(ch, true) == AllSlots(ch) && Lead(ch, false) == []
    decreases |ch|
  {
    if ch != [] {
      AllWritable(ch[1..]);
    }
  }

  /** In an ordered chain the readable and the writable bytes are all the bytes. */
  lemma {:induction false} OrderedCovers(ch: seq<Desc>)
    requires Ordered(ch)
    ensures Readable(ch) + Writable(ch) == AllSlots(ch)
    decreases |ch|
  {
    if ch != [] {
      OrderedTail(ch);
      if ch[0].Writable() {
        AllWritable(ch);
      } else {
        OrderedCovers(ch[1..]);
        Assoc(Range(ch[0].addr, ch[0].len), Readable(ch[1..]), Writable(ch[1..]));
      }
    }
  }

  /** The bytes at `s`. */
  function Gather(m: seq<byte>, s: seq<nat>): (b: seq<byte>)
    requires InRam(s, |m|)
    ensures |b| == |s|
  {
    seq(|s|, i requires 0 <= i < |s| => m[s[i]])
  }

  lemma {:induction false} GatherSlice(m: seq<byte>, s: seq<nat>, at: nat, n: nat)
    requires InRam(s, |m|) && at + n <= |s|
    ensures Gather(m, s[at..at + n]) == Gather(m, s)[at..at + n]
  {
  }

  predicate InRam(s: seq<nat>, size: nat) { forall i :: 0 <= i < |s| ==> s[i] < size }

  /** RAM after storing `b` at `s`, first to last. */
  function Scatter(m: seq<byte>, s: seq<nat>, b: seq<byte>): (m': seq<byte>)
    requires InRam(s, |m|) && |b| == |s|
    ensures |m'| == |m|
    decreases |s|
  {
    if s == [] then m else Scatter(m, s[..|s| - 1], b[..|b| - 1])[s[|s| - 1] := b[|b| - 1]]
  }

  /** Storing touches nothing else, and where no address repeats reads back what
      was stored. */
  lemma {:induction false} ScatterFacts(m: seq<byte>, s: seq<nat>, b: seq<byte>)
    requires InRam(s, |m|) && |b| == |s|
    ensures var m' := Scatter(m, s, b);
            (forall a :: 0 <= a < |m| && a !in s ==> m'[a] == m[a]) &&
            ((forall i, j :: 0 <= i < j < |s| ==> s[i] != s[j]) ==> Gather(m', s) == b)
    decreases |s|
  {
    if s != [] {
      var n := |s| - 1;
      ScatterFacts(m, s[..n], b[..n]);
      var m1, m' := Scatter(m, s[..n], b[..n]), Scatter(m, s, b);
      assert forall a :: a !in s ==> a !in s[..n];
      if forall i, j :: 0 <= i < j < |s| ==> s[i] != s[j] {
        forall i | 0 <= i < |s| ensures Gather(m', s)[i] == b[i] {
          if i < n {
            assert Gather(m1, s[..n])[i] == b[..n][i];
          }
        }
      }
    }
  }

  lemma {:induction false} ScatterJoin(m: seq<byte>, s: seq<nat>, b: seq<byte>, s2: seq<nat>, b2: seq<byte>)
    requires InRam(s, |m|) && |b| == |s| && InRam(s2, |m|) && |b2| == |s2|
    ensures InRam(s + s2, |m|) && Scatter(m, s + s2, b + b2) == Scatter(Scatter(m, s, b), s2, b2)
    decreases |s2|
  {
    if s2 == [] {
      assert s + s2 == s && b + b2 == b;
    } else {
      var n := |s2| - 1;
      ScatterJoin(m, s, b, s2[..n], b2[..n]);
      assert (s + s2)[..|s + s2| - 1] == s + s2[..n] && (b + b2)[..|b + b2| - 1] == b + b2[..n];
    }
  }

  lemma {:induction false} ScatterRange(m: seq<byte>, a: nat, b: seq<byte>, m': seq<byte>)
    requires a + |b| <= |m| == |m'|
    requires forall k :: 0 <= k < |m| ==> m'[k] == if a <= k < a + |b| then b[k - a] else m[k]
    ensures InRam(Range(a, |b|), |m|) && m' == Scatter(m, Range(a, |b|), b)
    decreases |b|
  {
    if b == [] {
      assert m' == m;
    } else {
      var n := |b| - 1;
      var m1 := m'[a + n := m[a + n]];
      ScatterRange(m, a, b[..n], m1);
      assert Range(a, |b|)[..n] == Range(a, n);
      assert m' == m1[a + n := b[n]];
    }
  }

  // ----- copying to and from guest RAM -----

  /** `memcpy_from_ram_intrapage`: byte by byte. */
  method LoadBytes(ram: array<byte>, at: nat, count: nat) returns (buf: seq<byte>)
    requires at + count <= ram.Length
    ensures buf == ram[at..at + count]
  {
    buf := [];
    while |buf| < count
      invariant |buf| <= count && buf == ram[at..at + |buf|]
    {
      buf := buf + [ram[at + |buf|]];
    }
  }

  /** `memcpy_to_ram_intrapage`. */
  method StoreBytes(ram: array<byte>, at: nat, b: seq<byte>)
    requires at + |b| <= ram.Length
    modifies ram
    ensures forall k :: 0 <= k < ram.Length ==> ram[k] == if at <= k < at + |b| then b[k - at] else old(ram[k])
  {
    var i := 0;
    while i < |b|
      invariant 0 <= i <= |b|
      invariant forall k :: 0 <= k < ram.Length ==> ram[k] == if at <= k < at + i then b[k - at] else old(ram[k])
    {
      ram[at + i] := b[i];
      i := i + 1;
    }
  }

  /** `virtio_memcpy_from_ram`: page by page. */
  method FromRam(ram: array<byte>, addr: nat, count: nat) returns (buf: seq<byte>)
    requires addr + count <= ram.Length
    ensures buf == ram[addr..addr + count]
  {
    buf := [];
    while |buf| < count
      invariant |buf| <= count && buf == ram[addr..addr + |buf|]
    {
      var at := addr + |buf|;
      var l: nat := Min(count - |buf|, PAGE - at % PAGE);
      var more := LoadBytes(ram, at, l);
      assert ram[addr..at + l] == ram[addr..at] + ram[at..at + l];
      buf := buf + more;
    }
  }

  /** `virtio_memcpy_to_ram`, the same for stores. */
  method ToRam(ram: array<byte>, addr: nat, buf: seq<byte>)
    requires addr + |buf| <= ram.Length
    modifies ram
    ensures InRam(Range(addr, |buf|), ram.Length) && ram[..] == Scatter(old(ram[..]), Range(addr, |buf|), buf)
  {
    var done := 0;
    while done < |buf|
      invariant 0 <= done <= |buf|
      invariant forall k :: 0 <= k < ram.Length ==>
                  ram[k] == if addr <= k < addr + done then buf[k - addr] else old(ram[k])
    {
      var l := Min(|buf| - done, PAGE - (addr + done) % PAGE);
      StoreBytes(ram, addr + done, buf[done..done + l]);
      done := done + l;
    }
    ScatterRange(old(ram[..]), addr, buf, ram[..]);
  }

  // ----- walking chains -----

  /** `get_desc_rw_size`: the sizes of the two parts, or None if a readable
      descriptor follows a writable one. */
  method GetDescRwSize(ram: array<byte>, t: Table, idx: nat, ghost ch: seq<Desc>) returns (r: Option<(nat, nat)>)
    requires ChainAt(ram[..], t, idx, ch)
    ensures r == if Ordered(ch) then Some((|Readable(ch)|, |Writable(ch)|)) else None
  {
    var at: nat := idx;
    var desc := DescAt(ram[..], t, at);
    var readSize: nat := 0;
    ghost var c := ch;
    while !desc.Writable()
      invariant ChainAt(ram[..], t, at, c) && desc == c[0] && (Ordered(ch) <==> Ordered(c))
      invariant readSize + |Readable(c)| == |Readable(ch)| && Writable(c) == Writable(ch)
      decreases |c|
    {
      readSize := readSize + desc.len;
      OrderedTail(c);
      if !desc.HasNext() {
        assert c[1..] == [];
        assert Readable(c) == Range(desc.addr, desc.len) + Readable([]) && Writable(c) == Writable([]) == [];
        return Some((readSize, 0));
      }
      at, c := desc.next, c[1..];
      desc := DescAt(ram[..], t, at);
    }
    var writeSize := WriteSize(ram, t, at, c);
    r := if writeSize.None? then None else Some((readSize, writeSize.value));
  }

  /** Its second loop, from the first writable descriptor on. */
  method WriteSize(ram: array<byte>, t: Table, idx: nat, ghost ch: seq<Desc>) returns (r: Option<nat>)
    requires ChainAt(ram[..], t, idx, ch) && ch[0].Writable()
    ensures r == if Ordered(ch) then Some(|Lead(ch, true)|) else None
  {
    var at: nat, n: nat := idx, 0;
    ghost var c, k := ch, 0;
    while true
      invariant ChainAt(ram[..], t, at, c) && 0 <= k < |ch| && c == ch[k..]
      invariant forall i :: 0 <= i < k ==> ch[i].Writable()
      invariant n + |Lead(c, true)| == |Lead(ch, true)|
      decreases |c|
    {
      var desc := DescAt(ram[..], t, at);
      assert desc == ch[k];
      if !desc.Writable() {
        return None;
      }
      n := n + desc.len;
      if !desc.HasNext() {
        assert c[1..] == [];
        return Some(n);
      }
      at, c, k := desc.next, c[1..], k + 1;
    }
  }

  lemma {:induction false} LeadInRam(m: seq<byte>, t: Table, idx: nat, ch: seq<Desc>, write: bool)
    requires ChainAt(m, t, idx, ch)
    ensures InRam(Lead(ch, write), |m|)
    decreases |ch|
  {
    if ch[0].Writable() == write {
      if ch[0].HasNext() {
        LeadInRam(m, t, ch[0].next, ch[1..], write);
      } else {
        assert ch[1..] == [];
      }
    }
  }

  /** Changes outside the table leave chains as they are. */
  lemma {:induction false} ChainFrame(m: seq<byte>, m': seq<byte>, t: Table, idx: nat, ch: seq<Desc>)
    requires ChainAt(m, t, idx, ch) && |m| == |m'|
    requires forall a :: 0 <= a < |m| && !t.Outside(a) ==> m'[a] == m[a]
    ensures ChainAt(m', t, idx, ch)
    decreases |ch|
  {
    SameDesc(m, m', t, idx);
    if ch[0].HasNext() {
      ChainFrame(m, m', t, ch[0].next, ch[1..]);
    }
  }

  lemma {:induction false} SameDesc(m: seq<byte>, m': seq<byte>, t: Table, idx: nat)
    requires t.Holds(idx, |m|) && |m| == |m'|
    requires forall a :: 0 <= a < |m| && !t.Outside(a) ==> m'[a] == m[a]
    ensures DescAt(m, t, idx) == DescAt(m', t, idx)
  {
    var a := t.base + 16 * idx;
    assert forall k :: a <= k < a + 16 ==> m'[k] == m[k];
  }

  // ----- stores by the guest -----

  /** RAM with `b` stored at `at`. */
  function Patch(m: seq<byte>, at: nat, b: seq<byte>): (m': seq<byte>)
    requires at + |b| <= |m|
    ensures |m'| == |m|
  {
    m[..at] + b + m[at + |b|..]
  }

  /** The descriptors a chain uses, by index. */
  function Visits(idx: nat, ch: seq<Desc>): seq<nat>
    decreases |ch|
  {
    [idx] + if |ch| > 1 then Visits(ch[0].next, ch[1..]) else []
  }

  /** `n` bytes at `at` lie outside these descriptors. */
  predicate OffDescs(t: Table, idxs: seq<nat>, at: nat, n: nat) {
    forall i :: 0 <= i < |idxs| ==> at + n <= t.base + 16 * idxs[i] || t.base + 16 * idxs[i] + 16 <= at
  }

  /** A store outside a chain's own descriptors leaves the chain as it is, even
      inside the table. */
  lemma {:induction false} ChainStays(m: seq<byte>, t: Table, idx: nat, ch: seq<Desc>, at: nat, b: seq<byte>)
    requires ChainAt(m, t, idx, ch) && at + |b| <= |m| && OffDescs(t, Visits(idx, ch), at, |b|)
    ensures ChainAt(Patch(m, at, b), t, idx, ch)
    decreases |ch|
  {
    hide DescAt, Patch;
    assert Visits(idx, ch)[0] == idx;
    DescStays(m, t, idx, at, b);
    if ch[0].HasNext() {
      forall i | 0 <= i < |Visits(ch[0].next, ch[1..])|
        ensures Visits(ch[0].next, ch[1..])[i] == Visits(idx, ch)[i + 1]
      {
      }
      ChainStays(m, t, ch[0].next, ch[1..], at, b);
    }
  }

  lemma {:induction false} DescStays(m: seq<byte>, t: Table, idx: nat, at: nat, b: seq<byte>)
    requires t.Holds(idx, |m|) && at + |b| <= |m|
    requires at + |b| <= t.base + 16 * idx || t.base + 16 * idx + 16 <= at
    ensures DescAt(Patch(m, at, b), t, idx) == DescAt(m, t, idx)
  {
    var a, m' := t.base + 16 * idx, Patch(m, at, b);
    assert forall k :: a <= k < a + 16 ==> m'[k] == m[k];
  }

  /** The chain at `idx`, if it has at most `fuel` descriptors and lies in the
      table and in RAM. */
  function Walk(m: seq<byte>, t: Table, idx: nat, fuel: nat): Option<seq<Desc>>
    decreases fuel
  {
    if fuel == 0 || !t.Holds(idx, |m|) then None
    else
      var d := DescAt(m, t, idx);
      if d.addr + d.len > |m| then None
      else if !d.HasNext() then Some([d])
      else
        match Walk(m, t, d.next, fuel - 1)
        case None => None
        case Some(rest) => Some([d] + rest)
  }

  lemma {:induction false} WalkFinds(m: seq<byte>, t: Table, idx: nat, fuel: nat, ch: seq<Desc>)
    ensures Walk(m, t, idx, fuel) == Some(ch) <==> ChainAt(m, t, idx, ch) && |ch| <= fuel
    decreases fuel
  {
    hide DescAt;
    assert |ch| == 1 ==> ch == [ch[0]];
    if fuel > 0 && t.Holds(idx, |m|) && DescAt(m, t, idx).HasNext() {
      var d := DescAt(m, t, idx);
      var w := Walk(m, t, d.next, fuel - 1);
      if w.Some? {
        assert ([d] + w.value)[1..] == w.value;
      }
      if ch != [] {
        WalkFinds(m, t, d.next, fuel - 1, ch[1..]);
        assert ch == [ch[0]] + ch[1..];
      }
    }
  }

  /** The second loop of `memcpy_to_from_queue`: the descriptor that holds byte
      `offset` of the leading part of the given kind, and where in it. */
  method Locate(ram: array<byte>, t: Table, idx: nat, offset: nat, write: bool, ghost ch: seq<Desc>)
    returns (found: bool, at: nat, off: nat, ghost c: seq<Desc>)
    requires ChainAt(ram[..], t, idx, ch)
    ensures found <==> offset < |Lead(ch, write)|
    ensures found ==>
              ChainAt(ram[..], t, at, c) && c != [] && c[0].Writable() == write && off < c[0].len && off <= offset
    ensures found ==> Lead(ch, write)[offset - off..] == Lead(c, write)
  {
    at, off, c := idx, offset, ch;
    while true
      invariant ChainAt(ram[..], t, at, c) && 0 <= off <= offset
      invariant offset - off <= |Lead(ch, write)| && Lead(ch, write)[offset - off..] == Lead(c, write)
      decreases |c|
    {
      var desc := DescAt(ram[..], t, at);
      if desc.Writable() != write {
        return false, at, off, c;
      }
      if off < desc.len {
        return true, at, off, c;
      }
      if !desc.HasNext() {
        assert c[1..] == [];
        return false, at, off, c;
      }
      at, off := desc.next, off - desc.len;
      assert Lead(c, write)[desc.len..] == Lead(c[1..], write);
      c := c[1..];
    }
  }

  lemma {:induction false} ChainStep(m: seq<byte>, t: Table, idx: nat, ch: seq<Desc>)
    requires ChainAt(m, t, idx, ch)
    ensures ch != [] && t.Holds(idx, |m|) && ch[0] == DescAt(m, t, idx) && ch[0].addr + ch[0].len <= |m|
    ensures if ch[0].HasNext() then ChainAt(m, t, ch[0].next, ch[1..]) else ch[1..] == []
  {
  }

  /** One step of the copying loop: `l` bytes at `off` in the first descriptor
      are the next `l` of the slots `s` from `k` on. */
  lemma {:induction false} CopyStep(c: seq<Desc>, write: bool, off: nat, l: nat, s: seq<nat>, k: nat)
    requires c != [] && c[0].Writable() == write && off + l <= c[0].len
    requires k <= |s| && off <= |Lead(c, write)| && s[k..] == Lead(c, write)[off..]
    ensures k + l <= |s| && s[k..][..l] == Range(c[0].addr + off, l)
    ensures off + l <= |Lead(c, write)| && s[k + l..] == Lead(c, write)[off + l..]
    ensures off + l == c[0].len ==> s[k + l..] == Lead(c[1..], write)[0..]
    ensures off + l == c[0].len && (c[1..] == [] || c[1..][0].Writable() != write) ==> k + l == |s|
  {
  }

  /** `memcpy_from_queue`: `count` bytes from `offset` on of the readable part,
      or -1 (None) if it does not have them. */
  method CopyFromQueue(ram: array<byte>, t: Table, idx: nat, offset: nat, count: nat, ghost ch: seq<Desc>)
    returns (r: Option<seq<byte>>)
    requires ChainAt(ram[..], t, idx, ch)
    ensures InRam(Readable(ch), ram.Length)
    ensures r == if count == 0 then Some([])
                 else if offset + count <= |Readable(ch)| then
                   Some(Gather(ram[..], Readable(ch)[offset..offset + count]))
                 else None
  {
    hide ChainAt, Lead, DescAt, Gather, Range;
    LeadInRam(ram[..], t, idx, ch, false);
    if count == 0 {
      return Some([]);
    }
    ghost var s := Readable(ch);
    ghost var c;
    var found, at: nat, off: nat;
    found, at, off, c := Locate(ram, t, idx, offset, false, ch);
    if !found {
      return None;
    }
    var buf := [];
    while true
      invariant ChainAt(ram[..], t, at, c) && c != [] && !c[0].Writable() && off <= c[0].len && |buf| < count
      invariant offset + |buf| <= |s| && off <= |Lead(c, false)| && s[offset + |buf|..] == Lead(c, false)[off..]
      invariant buf == Gather(ram[..], s[offset..offset + |buf|])
      decreases |c|, count - |buf|, c[0].len - off
    {
      ChainStep(ram[..], t, at, c);
      var desc := DescAt(ram[..], t, at);
      var l := Min(count - |buf|, desc.len - off);
      CopyStep(c, false, off, l, s, offset + |buf|);
      var more := FromRam(ram, desc.addr + off, l);
      GatherMore(ram[..], s, offset, |buf|, l, desc.addr + off);
      buf := buf + more;
      if |buf| == count {
        return Some(buf);
      }
      off := off + l;
      if off == desc.len {
        if !desc.HasNext() {
          return None;
        }
        at, off := desc.next, 0;
        c := c[1..];
        ChainStep(ram[..], t, at, c);
        if DescAt(ram[..], t, at).Writable() {
          return None;
        }
      }
    }
  }

  lemma {:induction false} GatherMore(m: seq<byte>, s: seq<nat>, offset: nat, n: nat, l: nat, a: nat)
    requires InRam(s, |m|) && offset + n + l <= |s| && a + l <= |m|
    requires s[offset + n..][..l] == Range(a, l)
    ensures Gather(m, s[offset..offset + n]) + m[a..a + l] == Gather(m, s[offset..offset + n + l])
  {
    assert s[offset..offset + n + l] == s[offset..offset + n] + s[offset + n..][..l];
    assert m[a..a + l] == Gather(m, Range(a, l));
  }

  /** `memcpy_to_queue`: store `buf` from `offset` on in the writable part.
      Returns false (-1) if it does not fit; what fits has then been stored. */
  method CopyToQueue(ram: array<byte>, t: Table, idx: nat, offset: nat, buf: seq<byte>, ghost ch: seq<Desc>)
    returns (ok: bool)
    requires ChainAt(ram[..], t, idx, ch) && forall i :: 0 <= i < |Writable(ch)| ==> t.Outside(Writable(ch)[i])
    modifies ram
    ensures InRam(Writable(ch), ram.Length)
    ensures ok <==> buf == [] || offset + |buf| <= |Writable(ch)|
    ensures var n := if offset < |Writable(ch)| then Min(|buf|, |Writable(ch)| - offset) else 0;
            ram[..] == if n == 0 then old(ram[..])
                       else Scatter(old(ram[..]), Writable(ch)[offset..offset + n], buf[..n])
  {
    hide ChainAt, FromWrite, Scatter;
    NoSlots();
    var found, at := SkipReadable(ram, t, idx, ch);
    hide Lead;
    if buf == [] {
      return true;
    }
    if !found {
      return false;
    }
    ok := StoreInQueue(ram, t, at, offset, buf, FromWrite(ch));
  }

  lemma {:induction false} NoSlots()
    ensures Lead([], true) == []
  {
  }

  /** The first loop of `memcpy_to_from_queue`: the first writable descriptor. */
  method SkipReadable(ram: array<byte>, t: Table, idx: nat, ghost ch: seq<Desc>) returns (found: bool, at: nat)
    requires ChainAt(ram[..], t, idx, ch)
    ensures found <==> FromWrite(ch) != []
    ensures found ==> ChainAt(ram[..], t, at, FromWrite(ch))
    ensures InRam(Writable(ch), ram.Length)
  {
    at := idx;
    ghost var c := ch;
    while true
      invariant ChainAt(ram[..], t, at, c) && FromWrite(c) == FromWrite(ch)
      decreases |c|
    {
      var desc := DescAt(ram[..], t, at);
      if desc.Writable() {
        LeadInRam(ram[..], t, at, c, true);
        return true, at;
      }
      if !desc.HasNext() {
        assert c[1..] == [];
        return false, at;
      }
      at, c := desc.next, c[1..];
    }
  }

  method StoreInQueue(ram: array<byte>, t: Table, idx: nat, offset: nat, buf: seq<byte>, ghost ch: seq<Desc>)
    returns (ok: bool)
    requires ChainAt(ram[..], t, idx, ch) && buf != []
    requires var s := Lead(ch, true); InRam(s, ram.Length) && forall i :: 0 <= i < |s| ==> t.Outside(s[i])
    modifies ram
    ensures ok <==> offset + |buf| <= |Lead(ch, true)|
    ensures var s := Lead(ch, true);
            var n := if offset < |s| then Min(|buf|, |s| - offset) else 0;
            ram[..] == if n == 0 then old(ram[..]) else Scatter(old(ram[..]), s[offset..offset + n], buf[..n])
  {
    hide ChainAt, Lead, DescAt, Scatter, Range;
    ghost var s := Lead(ch, true);
    ghost var m0 := ram[..];
    ghost var c;
    var found, at: nat, off: nat;
    found, at, off, c := Locate(ram, t, idx, offset, true, ch);
    if !found {
      return false;
    }
    var done := 0;
    assert Scatter(m0, s[offset..offset], buf[..0]) == m0 by {
      ScatterFacts(m0, s[offset..offset], buf[..0]);
    }
    while true
      invariant ChainAt(ram[..], t, at, c) && c != [] && c[0].Writable() && off <= c[0].len && 0 <= done < |buf|
      invariant offset + done <= |s| && off <= |Lead(c, true)| && s[offset + done..] == Lead(c, true)[off..]
      invariant ram[..] == Scatter(m0, s[offset..offset + done], buf[..done])
      decreases |c|, |buf| - done, c[0].len - off
    {
      ChainStep(ram[..], t, at, c);
      var desc := DescAt(ram[..], t, at);
      var l := Min(|buf| - done, desc.len - off);
      CopyStep(c, true, off, l, s, offset + done);
      ghost var m := ram[..];
      ToRam(ram, desc.addr + off, buf[done..done + l]);
      StoreStep(m0, m, ram[..], t, at, c, s, offset, done, buf, l, desc.addr + off);
      ChainStep(ram[..], t, at, c);
      done := done + l;
      if done == |buf| {
        assert buf[..done] == buf;
        return true;
      }
      off := off + l;
      if off == desc.len {
        if !desc.HasNext() {
          return false;
        }
        at, off := desc.next, 0;
        c := c[1..];
        ChainStep(ram[..], t, at, c);
        if !DescAt(ram[..], t, at).Writable() {
          return false;
        }
      }
    }
  }

  /** One store of the copying loop: the stores so far are one, and the chain is
      still there. */
  lemma {:induction false} StoreStep(m0: seq<byte>, m: seq<byte>, m': seq<byte>, t: Table, at: nat, c: seq<Desc>,
                                     s: seq<nat>, offset: nat, done: nat, buf: seq<byte>, l: nat, a: nat)
    requires InRam(s, |m0|) && offset + done + l <= |s| && done + l <= |buf| && a + l <= |m0|
    requires s[offset + done..][..l] == Range(a, l) && forall i :: 0 <= i < |s| ==> t.Outside(s[i])
    requires m == Scatter(m0, s[offset..offset + done], buf[..done]) && ChainAt(m, t, at, c)
    requires InRam(Range(a, l), |m|) && m' == Scatter(m, Range(a, l), buf[done..done + l])
    ensures m' == Scatter(m0, s[offset..offset + done + l], buf[..done + l]) && ChainAt(m', t, at, c)
  {
    hide Scatter, ChainAt, Range;
    StoredMore(m0, s, offset, done, buf, l, a);
    StaysOutside(m, m', s[offset + done..offset + done + l], buf[done..done + l], t);
    ChainFrame(m, m', t, at, c);
  }

  lemma {:induction false} StoredMore(m0: seq<byte>, s: seq<nat>, offset: nat, done: nat, buf: seq<byte>, l: nat,
                                      a: nat)
    requires InRam(s, |m0|) && offset + done + l <= |s| && done + l <= |buf| && a + l <= |m0|
    requires s[offset + done..][..l] == Range(a, l)
    ensures s[offset + done..offset + done + l] == Range(a, l) && InRam(Range(a, l), |m0|)
    ensures Scatter(Scatter(m0, s[offset..offset + done], buf[..done]), Range(a, l), buf[done..done + l]) ==
            Scatter(m0, s[offset..offset + done + l], buf[..done + l])
  {
    assert s[offset + done..offset + done + l] == s[offset + done..][..l];
    ScatterJoin(m0, s[offset..offset + done], buf[..done], Range(a, l), buf[done..done + l]);
    assert s[offset..offset + done] + Range(a, l) == s[offset..offset + done + l];
    assert buf[..done] + buf[done..done + l] == buf[..done + l];
  }

  lemma {:induction false} StaysOutside(m: seq<byte>, m': seq<byte>, s: seq<nat>, b: seq<byte>, t: Table)
    requires InRam(s, |m|) && |b| == |s| && m' == Scatter(m, s, b) && forall i :: 0 <= i < |s| ==> t.Outside(s[i])
    ensures forall a :: 0 <= a < |m| && !t.Outside(a) ==> m'[a] == m[a]
  {
    ScatterFacts(m, s, b);
  }
}
