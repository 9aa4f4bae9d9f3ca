/** The 9P device on a virtio queue (src/virtio.cc, lines 1114-1163 and
    1212-2078): message fields, the fid table, one reply for every request. The
    host file system is abstract: it answers each call with a result. */
module P9 {
  import opened Basics
  import opened Virtio
  import opened VirtioRing

  const HEADER: nat := 7
  const P9_EPROTO: nat := 71
  const P9_ENOTSUP: nat := 524
  const MAX_MSIZE: nat := 0xE000

  // ----- fields -----

  /** A field of a message: 8, 16, 32 and 64 bits, and a string. */
  datatype Val = B(b: byte) | H(h: u16) | W(w: nat) | D(d: nat) | S(s: seq<byte>) {
    predicate Fits() {
      match this
      case W(v) => v < 0x1_0000_0000
      case D(v) => v < 0x1_0000_0000_0000_0000
      case S(v) => |CString(v)| <= 65535
      case _ => true
    }

    function Kind(): Kind {
      match this
      case B(_) => KB
      case H(_) => KH
      case W(_) => KW
      case D(_) => KD
      case S(_) => KS
    }

    /** As it is after a round trip: a string ends at its first NUL. */
    function Seen(): Val { if S? then S(CString(s)) else this }
  }

  /** A letter of a format. */
  datatype Kind = KB | KH | KW | KD | KS

  /** What C takes `s` to be. */
  function CString(s: seq<byte>): (r: seq<byte>)
    ensures r <= s && (r == s <==> 0 !in s)
  {
    if s == [] || s[0] == 0 then [] else [s[0]] + CString(s[1..])
  }

  function Bytes64(v: nat): seq<byte>
    requires v < 0x1_0000_0000_0000_0000
  {
    Bytes32(v % 0x1_0000_0000) + Bytes32(v / 0x1_0000_0000)
  }

  function Encode1(v: Val): seq<byte>
    requires v.Fits()
  {
    match v
    case B(b) => [b]
    case H(h) => Bytes16(h)
    case W(w) => Bytes32(w)
    case D(d) => Bytes64(d)
    case S(s) => Bytes16(|CString(s)|) + CString(s)
  }

  predicate AllFit(vs: seq<Val>) { forall i :: 0 <= i < |vs| ==> vs[i].Fits() }

  function Encode(vs: seq<Val>): seq<byte>
    requires AllFit(vs)
  {
    if vs == [] then [] else Encode1(vs[0]) + Encode(vs[1..])
  }

  /** `marshall`. */
  method Marshall(vs: seq<Val>) returns (buf: seq<byte>)
    requires AllFit(vs)
    ensures buf == Encode(vs)
  {
    hide Encode1;
    buf := [];
    var i := 0;
    while i < |vs|
      invariant 0 <= i <= |vs| && buf + Encode(vs[i..]) == Encode(vs)
    {
      assert vs[i..][1..] == vs[i + 1..];
      Assoc(buf, Encode1(vs[i]), Encode(vs[i + 1..]));
      buf := buf + Encode1(vs[i]);
      i := i + 1;
    }
  }

  /** The field of kind `k` at `at`, and where it ends; None if it is not all
      there. */
  function Parse1(b: seq<byte>, at: nat, k: Kind): Option<(Val, nat)> {
    match k
    case KB => if at + 1 <= |b| then Some((B(b[at]), at + 1)) else None
    case KH => if at + 2 <= |b| then Some((H(Le16(b, at)), at + 2)) else None
    case KW => if at + 4 <= |b| then Some((W(Le32(b, at)), at + 4)) else None
    case KD => if at + 8 <= |b| then Some((D(Le64(b, at)), at + 8)) else None
    case KS =>
      if at + 2 <= |b| && at + 2 + Le16(b, at) <= |b| then
        Some((S(b[at + 2..at + 2 + Le16(b, at)]), at + 2 + Le16(b, at)))
      else None
  }

  function Parse(b: seq<byte>, at: nat, f: seq<Kind>): Option<(seq<Val>, nat)>
    decreases |f|
  {
    if f == [] then Some(([], at))
    else
      match Parse1(b, at, f[0])
      case None => None
      case Some((v, next)) => Before([v], Parse(b, next, f[1..]))
  }

  function Before(vs: seq<Val>, r: Option<(seq<Val>, nat)>): Option<(seq<Val>, nat)> {
    match r
    case None => None
    case Some((rest, end)) => Some((vs + rest, end))
  }

  lemma {:induction false} BeforeBefore(vs: seq<Val>, v: Val, r: Option<(seq<Val>, nat)>)
    ensures Before([], r) == r && Before(vs, Before([v], r)) == Before(vs + [v], r)
  {
    if r.Some? {
      assert [] + r.value.0 == r.value.0 && vs + ([v] + r.value.0) == vs + [v] + r.value.0;
    }
  }

  function Kinds(vs: seq<Val>): seq<Kind> { seq(|vs|, i requires 0 <= i < |vs| => vs[i].Kind()) }
  function AllSeen(vs: seq<Val>): seq<Val> { seq(|vs|, i requires 0 <= i < |vs| => vs[i].Seen()) }

  lemma {:induction false} Le16Bytes(b: seq<byte>, at: nat, v: u16)
    requires at + 2 <= |b| && b[at..at + 2] == Bytes16(v)
    ensures Le16(b, at) == v
  {
  }

  lemma {:induction false} Le32Bytes(b: seq<byte>, at: nat, v: nat)
    requires v < 0x1_0000_0000 && at + 4 <= |b| && b[at..at + 4] == Bytes32(v)
    ensures Le32(b, at) == v
  {
  }

  lemma {:induction false} Le64Bytes(b: seq<byte>, at: nat, v: nat)
    requires v < 0x1_0000_0000_0000_0000 && at + 8 <= |b| && b[at..at + 8] == Bytes64(v)
    ensures Le64(b, at) == v
  {
    hide Bytes32;
    assert |Bytes32(v % 0x1_0000_0000)| == 4 by { Len32(v % 0x1_0000_0000); }
    assert b[at..at + 4] == b[at..at + 8][..4] && b[at + 4..at + 8] == b[at..at + 8][4..];
    Le32Bytes(b, at, v % 0x1_0000_0000);
    Le32Bytes(b, at + 4, v / 0x1_0000_0000);
  }

  lemma {:induction false} Len32(v: nat)
    requires v < 0x1_0000_0000
    ensures |Bytes32(v)| == 4
  {
  }

  lemma {:induction false} RoundTrip1(b: seq<byte>, at: nat, v: Val)
    requires v.Fits() && at + |Encode1(v)| <= |b| && b[at..at + |Encode1(v)|] == Encode1(v)
    ensures Parse1(b, at, v.Kind()) == Some((v.Seen(), at + |Encode1(v)|))
  {
    match v
    case B(_) =>
      assert b[at] == b[at..at + 1][0];
    case H(h) => Le16Bytes(b, at, h);
    case W(w) => Le32Bytes(b, at, w);
    case D(d) => Le64Bytes(b, at, d);
    case S(s) => StringBytes(b, at, CString(s));
  }

  lemma {:induction false} StringBytes(b: seq<byte>, at: nat, s: seq<byte>)
    requires |s| < 0x1_0000 && at + 2 + |s| <= |b| && b[at..at + 2 + |s|] == Bytes16(|s|) + s
    ensures Le16(b, at) == |s| && b[at + 2..at + 2 + |s|] == s
  {
    var e := Bytes16(|s|) + s;
    assert b[at..at + 2] == e[..2] && b[at + 2..at + 2 + |s|] == e[2..];
    Le16Bytes(b, at, |s|);
  }

  /** Fields survive the round trip, strings up to their first NUL, whatever
      surrounds them. */
  lemma {:induction false} RoundTrip(b: seq<byte>, at: nat, vs: seq<Val>)
    requires AllFit(vs) && at + |Encode(vs)| <= |b| && b[at..at + |Encode(vs)|] == Encode(vs)
    ensures Parse(b, at, Kinds(vs)) == Some((AllSeen(vs), at + |Encode(vs)|))
    decreases |vs|
  {
    hide Encode1, Parse1;
    if vs != [] {
      var e, r := Encode1(vs[0]), vs[1..];
      assert Encode(vs) == e + Encode(r);
      assert b[at..at + |e|] == Encode(vs)[..|e|] && b[at + |e|..at + |Encode(vs)|] == Encode(vs)[|e|..];
      RoundTrip1(b, at, vs[0]);
      RoundTrip(b, at + |e|, r);
      assert Kinds(vs)[0] == vs[0].Kind() && Kinds(vs)[1..] == Kinds(r) && AllSeen(vs) == [vs[0].Seen()] + AllSeen(r);
    } else {
      assert Kinds(vs) == [] && AllSeen(vs) == [];
    }
  }

  /** Without NULs they survive as they are, and with one they do not. */
  lemma {:induction false} SeenAsIs(vs: seq<Val>)
    ensures AllSeen(vs) == vs <==> forall i :: 0 <= i < |vs| && vs[i].S? ==> 0 !in vs[i].s
  {
  }

  /** `unmarshall`: fields of the chain's readable part, wherever descriptors
      break it. */
  method Unmarshall(ram: array<byte>, t: Table, idx: nat, offset: nat, f: seq<Kind>, ghost ch: seq<Desc>)
    returns (r: Option<(seq<Val>, nat)>)
    requires ChainAt(ram[..], t, idx, ch)
    ensures InRam(Readable(ch), ram.Length) && r == Parse(Gather(ram[..], Readable(ch)), offset, f)
  {
    hide ChainAt, Lead;
    LeadInRam(ram[..], t, idx, ch, false);
    ghost var b := Gather(ram[..], Readable(ch));
    var vs: seq<Val>, at: nat, i := [], offset, 0;
    assert f[0..] == f;
    BeforeBefore(vs, B(0), Parse(b, at, f));
    while i < |f|
      invariant 0 <= i <= |f|
      invariant Parse(b, offset, f) == Before(vs, Parse(b, at, f[i..]))
    {
      assert f[i..][1..] == f[i + 1..];
      var field := Field(ram, t, idx, at, f[i], ch);
      if field.None? {
        return None;
      }
      BeforeBefore(vs, field.value.0, Parse(b, field.value.1, f[i + 1..]));
      vs, at, i := vs + [field.value.0], field.value.1, i + 1;
    }
    assert f[i..] == [] && vs + [] == vs;
    r := Some((vs, at));
  }

  /** One field of it. */
  method Field(ram: array<byte>, t: Table, idx: nat, at: nat, k: Kind, ghost ch: seq<Desc>)
    returns (r: Option<(Val, nat)>)
    requires ChainAt(ram[..], t, idx, ch)
    ensures InRam(Readable(ch), ram.Length) && r == Parse1(Gather(ram[..], Readable(ch)), at, k)
  {
    hide ChainAt, Lead;
    ghost var s := Readable(ch);
    var n := match k case KB => 1 case KH => 2 case KW => 4 case KD => 8 case KS => 2;
    var b := CopyFromQueue(ram, t, idx, at, n, ch);
    if b.None? {
      return None;
    }
    GatherSlice(ram[..], s, at, n);
    match k {
      case KB => r := Some((B(b.value[0]), at + 1));
      case KH => r := Some((H(Le16(b.value, 0)), at + 2));
      case KW => r := Some((W(Le32(b.value, 0)), at + 4));
      case KD => r := Some((D(Le64(b.value, 0)), at + 8));
      case KS =>
        var len := Le16(b.value, 0);
        var str := CopyFromQueue(ram, t, idx, at + 2, len, ch);
        if str.None? {
          return None;
        }
        GatherSlice(ram[..], s, at + 2, len);
        r := Some((S(str.value), at + 2 + len));
    }
  }

  /** Fields marshalled and stored over the readable part of any chain, from any
      offset on, are the fields unmarshalled. `s` are the addresses of that part,
      none twice and none in the descriptor table. */
  method Transfer(ram: array<byte>, t: Table, idx: nat, offset: nat, vs: seq<Val>, s: seq<nat>, ghost ch: seq<Desc>)
    returns (r: Option<(seq<Val>, nat)>)
    requires ChainAt(ram[..], t, idx, ch) && AllFit(vs) && s == Readable(ch) && Distinct(s)
    requires offset + |Encode(vs)| <= |s| && forall i :: 0 <= i < |s| ==> t.Outside(s[i])
    modifies ram
    ensures r == Some((AllSeen(vs), offset + |Encode(vs)|))
  {
    hide ChainAt, Lead, Encode, Parse, Scatter;
    LeadInRam(ram[..], t, idx, ch, false);
    ghost var m := ram[..];
    var buf := Marshall(vs);
    ghost var part := s[offset..offset + |buf|];
    StoreAt(ram, s[offset..offset + |buf|], buf);
    StaysOutside(m, ram[..], part, buf, t);
    ChainFrame(m, ram[..], t, idx, ch);
    ScatterFacts(m, part, buf);
    GatherSlice(ram[..], s, offset, |buf|);
    RoundTrip(Gather(ram[..], s), offset, vs);
    r := Unmarshall(ram, t, idx, offset, Kinds(vs), ch);
  }

  /** The driver's stores, byte by byte. */
  method StoreAt(ram: array<byte>, s: seq<nat>, b: seq<byte>)
    requires InRam(s, ram.Length) && |b| == |s|
    modifies ram
    ensures ram[..] == Scatter(old(ram[..]), s, b)
  {
    ghost var m := ram[..];
    var i := 0;
    while i < |s|
      invariant 0 <= i <= |s| && ram[..] == Scatter(m, s[..i], b[..i])
    {
      assert s[..i + 1][..i] == s[..i] && b[..i + 1][..i] == b[..i];
      ram[s[i]] := b[i];
      i := i + 1;
    }
    assert s[..i] == s && b[..i] == b;
  }

  // ----- fids -----

  /** A fid and the file object it owns. */
  datatype Fid = Fid(fid: nat, file: nat)

  function MapOf(l: seq<Fid>): map<nat, nat> {
    if l == [] then map[] else MapOf(l[1..])[l[0].fid := l[0].file]
  }

  predicate UniqueKeys(l: seq<Fid>) { forall i, j :: 0 <= i < j < |l| ==> l[i].fid != l[j].fid }
  predicate UniqueFiles(l: seq<Fid>) { forall i, j :: 0 <= i < j < |l| ==> l[i].file != l[j].file }
  ghost predicate Owns(l: seq<Fid>, file: nat) { exists i :: 0 <= i < |l| && l[i].file == file }

  lemma {:induction false} MapOfAt(l: seq<Fid>, k: nat)
    requires UniqueKeys(l)
    ensures k in MapOf(l) <==> exists i :: 0 <= i < |l| && l[i].fid == k
    ensures forall i :: 0 <= i < |l| && l[i].fid == k ==> MapOf(l)[k] == l[i].file
    decreases |l|
  {
    if l != [] {
      MapOfAt(l[1..], k);
      assert forall i :: 0 <= i < |l| - 1 ==> l[1..][i] == l[i + 1];
      if l[0].fid == k {
        assert 0 <= 0 < |l| && l[0].fid == k;
      } else if exists i :: 0 <= i < |l| && l[i].fid == k {
        var i :| 0 <= i < |l| && l[i].fid == k;
        assert l[1..][i - 1].fid == k;
      }
    }
  }

  /** Two lists with unique keys and the same entries are the same map. */
  lemma {:induction false} MapOfSame(l: seq<Fid>, m: map<nat, nat>)
    requires UniqueKeys(l)
    requires forall i :: 0 <= i < |l| ==> l[i].fid in m && m[l[i].fid] == l[i].file
    requires forall k :: k in m ==> exists i :: 0 <= i < |l| && l[i].fid == k
    ensures MapOf(l) == m
  {
    forall k: nat ensures k in MapOf(l) <==> k in m
      ensures k in m ==> k in MapOf(l) && MapOf(l)[k] == m[k]
    {
      MapOfAt(l, k);
    }
  }

  class FidTable {
    var list: seq<Fid>
    /** File objects ever obtained from the file system, and those given back to
        it, in order. */
    ghost var made: set<nat>
    ghost var freed: seq<nat>

    /** The list is a map, and every object obtained is owned by exactly one fid
        or has been given back, once. */
    ghost predicate Inv()
      reads this
    {
      && UniqueKeys(list) && UniqueFiles(list)
      && (forall i, j :: 0 <= i < j < |freed| ==> freed[i] != freed[j])
      && (forall i :: 0 <= i < |list| ==> list[i].file in made && list[i].file !in freed)
      && (forall x :: x in made <==> Owns(list, x) || x in freed)
    }

    ghost function View(): map<nat, nat>
      reads this
    {
      MapOf(list)
    }

    constructor ()
      ensures Inv() && View() == map[] && made == {} && freed == []
    {
      list, made, freed := [], {}, [];
    }

    /** `fid_find1`. */
    method Find(fid: nat) returns (at: Option<nat>)
      requires Inv()
      ensures at.None? <==> fid !in View()
      ensures at.Some? ==> at.value < |list| && list[at.value].fid == fid && View()[fid] == list[at.value].file
    {
      MapOfAt(list, fid);
      var i := 0;
      while i < |list|
        invariant 0 <= i <= |list| && forall j :: 0 <= j < i ==> list[j].fid != fid
      {
        if list[i].fid == fid {
          return Some(i);
        }
        i := i + 1;
      }
      at := None;
    }

    /** `fid_delete`: the object goes back to the file system, the entry goes. */
    method Delete(fid: nat)
      requires Inv()
      modifies this
      ensures Inv() && View() == old(View()) - {fid} && made == old(made)
      ensures freed == old(freed) + if fid in old(View()) then [old(View())[fid]] else []
    {
      hide UniqueKeys, UniqueFiles, MapOf;
      var at := Find(fid);
      if at.Some? {
        var i := at.value;
        freed := freed + [list[i].file];
        list := list[..i] + list[i + 1..];
        Removed(old(list), i);
        RemovedMap(old(list), i);
        forall x ensures x in made <==> Owns(list, x) || x in freed {
          assert x in made <==> Owns(old(list), x) || x in old(freed);
        }
      }
    }

    /** `fid_set`: a fid used again gives its old object back first. `file` is new
        from the file system. */
    method Set(fid: nat, file: nat)
      requires Inv() && file !in made
      modifies this
      ensures Inv() && View() == old(View())[fid := file] && made == old(made) + {file}
      ensures freed == old(freed) + if fid in old(View()) then [old(View())[fid]] else []
    {
      hide UniqueKeys, UniqueFiles, MapOf;
      var at := Find(fid);
      if at.Some? {
        var i := at.value;
        freed := freed + [list[i].file];
        list := list[i := Fid(fid, file)];
        Replaced(old(list), i, file);
      } else {
        MapOfAt(list, fid);
        list := [Fid(fid, file)] + list;
        Added(old(list), fid, file);
      }
      made := made + {file};
      forall x ensures x in made <==> Owns(list, x) || x in freed {
        assert x in old(made) <==> Owns(old(list), x) || x in old(freed);
      }
    }
  }

  lemma {:induction false} Removed(l: seq<Fid>, i: nat)
    requires i < |l| && UniqueKeys(l) && UniqueFiles(l)
    ensures var r := l[..i] + l[i + 1..];
            UniqueKeys(r) && UniqueFiles(r) && !Owns(r, l[i].file) &&
            forall x :: Owns(l, x) <==> Owns(r, x) || x == l[i].file
  {
    var r := l[..i] + l[i + 1..];
    assert forall j :: 0 <= j < |r| ==> r[j] == if j < i then l[j] else l[j + 1];
    forall x ensures Owns(l, x) <==> Owns(r, x) || x == l[i].file {
      if Owns(l, x) && x != l[i].file {
        var j :| 0 <= j < |l| && l[j].file == x;
        assert r[if j < i then j else j - 1] == l[j];
      }
    }
  }

  lemma {:induction false} RemovedMap(l: seq<Fid>, i: nat)
    requires i < |l| && UniqueKeys(l) && UniqueKeys(l[..i] + l[i + 1..])
    ensures MapOf(l[..i] + l[i + 1..]) == MapOf(l) - {l[i].fid}
  {
    var r, m := l[..i] + l[i + 1..], MapOf(l) - {l[i].fid};
    forall j | 0 <= j < |r| ensures r[j].fid in m && m[r[j].fid] == r[j].file {
      var j' := if j < i then j else j + 1;
      assert r[j] == l[j'];
      MapOfAt(l, l[j'].fid);
    }
    forall k | k in m ensures exists j :: 0 <= j < |r| && r[j].fid == k {
      MapOfAt(l, k);
      var j :| 0 <= j < |l| && l[j].fid == k;
      assert r[if j < i then j else j - 1] == l[j];
    }
    MapOfSame(r, m);
  }

  lemma {:induction false} Replaced(l: seq<Fid>, i: nat, file: nat)
    requires i < |l| && UniqueKeys(l) && UniqueFiles(l) && !Owns(l, file)
    ensures var r := l[i := Fid(l[i].fid, file)];
            UniqueKeys(r) && UniqueFiles(r) && MapOf(r) == MapOf(l)[l[i].fid := file] && !Owns(r, l[i].file) &&
            forall x :: Owns(r, x) <==> x == file || (Owns(l, x) && x != l[i].file)
  {
    ReplacedMap(l, i, file);
    var r := l[i := Fid(l[i].fid, file)];
    forall x ensures Owns(r, x) <==> x == file || (Owns(l, x) && x != l[i].file) {
      assert r[i].file == file;
      if Owns(l, x) && x != l[i].file {
        var j :| 0 <= j < |l| && l[j].file == x;
        assert r[j].file == x;
      }
    }
  }

  lemma {:induction false} ReplacedMap(l: seq<Fid>, i: nat, file: nat)
    requires i < |l| && UniqueKeys(l)
    ensures var r := l[i := Fid(l[i].fid, file)]; UniqueKeys(r) && MapOf(r) == MapOf(l)[l[i].fid := file]
  {
    var r, m := l[i := Fid(l[i].fid, file)], MapOf(l)[l[i].fid := file];
    forall j | 0 <= j < |r| ensures r[j].fid in m && m[r[j].fid] == r[j].file {
      MapOfAt(l, l[j].fid);
    }
    forall k | k in m ensures exists j :: 0 <= j < |r| && r[j].fid == k {
      MapOfAt(l, k);
      assert r[i].fid == l[i].fid;
      if k != l[i].fid {
        var j :| 0 <= j < |l| && l[j].fid == k;
        assert r[j].fid == k;
      }
    }
    MapOfSame(r, m);
  }

  lemma {:induction false} Added(l: seq<Fid>, fid: nat, file: nat)
    requires UniqueKeys(l) && UniqueFiles(l) && fid !in MapOf(l) && !Owns(l, file)
    ensures var r := [Fid(fid, file)] + l;
            UniqueKeys(r) && UniqueFiles(r) && MapOf(r) == MapOf(l)[fid := file] &&
            forall x :: Owns(r, x) <==> x == file || Owns(l, x)
  {
    var r := [Fid(fid, file)] + l;
    assert r[1..] == l;
    MapOfAt(l, fid);
    forall x ensures Owns(r, x) <==> x == file || Owns(l, x) {
      assert r[0].file == file;
      if Owns(l, x) {
        var j :| 0 <= j < |l| && l[j].file == x;
        assert r[j + 1].file == x;
      }
    }
  }

  // ----- requests -----

  /** The fields of each supported request; None: unsupported. */
  function Format(id: byte): Option<seq<Kind>> {
    match id
    case 8 => Some([])
    case 12 => Some([KW, KW])
    case 14 => Some([KW, KS, KW, KW, KW])
    case 16 => Some([KW, KS, KS, KW])
    case 18 => Some([KW, KS, KW, KW, KW, KW])
    case 22 => Some([KW])
    case 24 => Some([KW, KD])
    case 26 => Some([KW, KW, KW, KW, KW, KD, KD, KD, KD, KD])
    case 40 => Some([KW, KD, KW])
    case 50 => Some([KW])
    case 52 => Some([KW, KB, KW, KD, KD, KW, KS])
    case 54 => Some([KW, KB, KD, KD, KW, KS])
    case 70 => Some([KW, KW, KS])
    case 72 => Some([KW, KS, KW, KW])
    case 74 => Some([KW, KS, KW, KS])
    case 76 => Some([KW, KS, KW])
    case 100 => Some([KW, KS])
    case 104 => Some([KW, KW, KS, KS, KW])
    case 108 => Some([KH])
    case 110 => Some([KW, KW, KH])
    case 116 => Some([KW, KD, KW])
    case 118 => Some([KW, KD, KW])
    case 120 => Some([KW])
    case _ => None
  }

  const XATTRWALK: byte := 30
  const VERSION: byte := 100
  const ATTACH: byte := 104
  const WALK: byte := 110
  const WRITE: byte := 118
  const CLUNK: byte := 120

  predicate Matches(vs: seq<Val>, f: seq<Kind>) { Kinds(vs) == f }

  lemma {:induction false} ParseMatches(b: seq<byte>, at: nat, f: seq<Kind>)
    ensures var r := Parse(b, at, f); r.Some? ==> Matches(r.value.0, f) && at <= r.value.1
    decreases |f|
  {
    if f != [] && Parse1(b, at, f[0]).Some? {
      var (v, next) := Parse1(b, at, f[0]).value;
      ParseMatches(b, next, f[1..]);
      var r := Parse(b, next, f[1..]);
      if r.Some? {
        assert Kinds([v] + r.value.0) == [v.Kind()] + Kinds(r.value.0) == f;
      }
    }
  }

  lemma {:induction false} FieldKinds(id: byte, vs: seq<Val>)
    requires Format(id).Some? && Matches(vs, Format(id).value)
    ensures id in {VERSION, ATTACH, CLUNK} ==> vs != [] && vs[0].W?
    ensures id == WALK ==> |vs| == 3 && vs[0].W? && vs[1].W? && vs[2].H?
    ensures id == WRITE ==> |vs| == 3 && vs[2].W?
  {
    var f := Kinds(vs);
    assert forall i :: 0 <= i < |vs| ==> f[i] == vs[i].Kind();
  }

  /** The fids a request must find. */
  function Needs(id: byte, vs: seq<Val>): seq<nat>
    requires Format(id).Some? && Matches(vs, Format(id).value)
  {
    var f := Kinds(vs);
    if id in {8, 50, 100, 104, 108, 120} then []
    else if id == 70 then assert f[0] == KW && f[1] == KW; [vs[0].w, vs[1].w]
    else if id == 74 then assert f[0] == KW && f[2] == KW; [vs[0].w, vs[2].w]
    else assert f[0] == KW; [vs[0].w]
  }

  /** The rest of the message that a request reads is there: the names of a walk,
      the data of a write. */
  predicate RestThere(b: seq<byte>, at: nat, id: byte, vs: seq<Val>)
    requires Format(id).Some? && Matches(vs, Format(id).value)
  {
    var f := Kinds(vs);
    if id == WALK then assert f[2] == KH; Parse(b, at, Names(vs[2].h)).Some?
    else if id == WRITE then assert f[2] == KW; DataThere(b, at, vs[2].w)
    else true
  }

  /** The copy of a write's data succeeds. A count of 2^31 or more is a negative
      int there: nothing is copied, and only the start has to be in the message. */
  predicate DataThere(b: seq<byte>, at: nat, count: nat) {
    count == 0 || if count < 0x8000_0000 then at + count <= |b| else at < |b|
  }

  /** So it tells whether the data is there exactly for counts below 2^31 (or when
      not even the start is there). */
  lemma {:induction false} DataThereExact(b: seq<byte>, at: nat, count: nat)
    requires |b| < 0x8000_0000
    ensures (DataThere(b, at, count) <==> count == 0 || at + count <= |b|) <==> count < 0x8000_0000 || at >= |b|
  {
  }

  function Names(n: nat): seq<Kind> { seq(n, _ => KS) }

  /** What the file system answers: an error, or a reply body and, for attach and
      walk, a file object. */
  datatype FsAnswer = FsAnswer(fail: Option<nat>, body: seq<byte>, file: nat)

  datatype Reply = Reply(kind: nat, tag: u16, body: seq<byte>)

  /** `virtio_9p_send_error`: type 6 + 1. */
  function Error(tag: u16, code: nat): Reply
    requires code < 0x1_0000_0000
  {
    Reply(7, tag, Bytes32(code))
  }

  function Version(msize: nat): seq<Val> { [W(Min(msize, MAX_MSIZE)), S([57, 80, 50, 48, 48, 48, 46, 76])] }

  /** The reply to a message `b`, and the fids after it. */
  function Serve(b: seq<byte>, view: map<nat, nat>, fs: FsAnswer): (Reply, map<nat, nat>)
    requires fs.fail.Some? ==> fs.fail.value < 0x1_0000_0000
  {
    if |b| < HEADER then (Error(0, P9_EPROTO), view)
    else if b[4] == XATTRWALK then (Error(Le16(b, 5), P9_ENOTSUP), view)
    else if Format(b[4]).None? || Parse(b, HEADER, Format(b[4]).value).None? then (Error(Le16(b, 5), P9_EPROTO), view)
    else
      var (vs, at) := Parse(b, HEADER, Format(b[4]).value).value;
      ParseMatches(b, HEADER, Format(b[4]).value);
      Perform(b, b[4], Le16(b, 5), vs, at, view, fs)
  }

  /** The same once its fields have been read. */
  function Perform(b: seq<byte>, id: byte, tag: u16, vs: seq<Val>, at: nat, view: map<nat, nat>,
                   fs: FsAnswer): (Reply, map<nat, nat>)
    requires Format(id).Some? && Matches(vs, Format(id).value)
    requires fs.fail.Some? ==> fs.fail.value < 0x1_0000_0000
  {
    if !(forall k :: k in Needs(id, vs) ==> k in view) || !RestThere(b, at, id, vs) then (Error(tag, P9_EPROTO), view)
    else Effects(id, tag, vs, view, fs)
  }

  function Effects(id: byte, tag: u16, vs: seq<Val>, view: map<nat, nat>, fs: FsAnswer): (Reply, map<nat, nat>)
    requires Format(id).Some? && Matches(vs, Format(id).value)
    requires fs.fail.Some? ==> fs.fail.value < 0x1_0000_0000
  {
    var f := Kinds(vs);
    if id == CLUNK then assert f[0] == KW; (Reply(id as int + 1, tag, []), view - {vs[0].w})
    else if id == VERSION then assert f[0] == KW; (Reply(id as int + 1, tag, Encode(Version(vs[0].w))), view)
    else if fs.fail.Some? && MayFail(id) then (Error(tag, fs.fail.value), view)
    else if id == ATTACH then assert f[0] == KW; (Reply(id as int + 1, tag, fs.body), view[vs[0].w := fs.file])
    else if id == WALK then assert f[1] == KW; (Reply(id as int + 1, tag, fs.body), view[vs[1].w := fs.file])
    else (Reply(id as int + 1, tag, if Bare(id) then [] else fs.body), view)
  }

  /** Replies without a body: to setattr, fsync, link, renameat, unlinkat, flush. */
  predicate Bare(id: byte) { id in {26, 50, 70, 74, 76, 108} }

  /** The two agree on all fids but `k`. */
  ghost predicate SameBut(v: map<nat, nat>, v': map<nat, nat>, k: nat) {
    forall x :: x != k && (x in v || x in v') ==> x in v && x in v' && v'[x] == v[x]
  }

  predicate MayFail(id: byte) { id !in {8, 50, 108} }

  /** Every request gets a reply with its tag (0 if the header cannot be read),
      of type one more than its own or 7; and only attach, walk and clunk that
      succeed touch the fids, one fid each. */
  lemma {:induction false} ServeFacts(b: seq<byte>, view: map<nat, nat>, fs: FsAnswer)
    requires fs.fail.Some? ==> fs.fail.value < 0x1_0000_0000
    ensures var (r, view') := Serve(b, view, fs);
            && r.tag == (if |b| < HEADER then 0 else Le16(b, 5))
            && (r.kind == 7 || (|b| >= HEADER && r.kind == b[4] as int + 1 <= 121))
            && (view' != view ==> r.kind in {105, 111, 121})
            && exists k: nat :: SameBut(view, view', k)
  {
    if |b| >= HEADER && b[4] != XATTRWALK && Format(b[4]).Some? && Parse(b, HEADER, Format(b[4]).value).Some? {
      var (vs, at) := Parse(b, HEADER, Format(b[4]).value).value;
      ParseMatches(b, HEADER, Format(b[4]).value);
      EffectsFacts(b[4], Le16(b, 5), vs, view, fs);
    }
    assert SameBut(view, view, 0);
  }

  lemma {:induction false} EffectsFacts(id: byte, tag: u16, vs: seq<Val>, view: map<nat, nat>, fs: FsAnswer)
    requires Format(id).Some? && Matches(vs, Format(id).value)
    requires fs.fail.Some? ==> fs.fail.value < 0x1_0000_0000
    ensures var (r, view') := Effects(id, tag, vs, view, fs);
            && r.tag == tag && (r.kind == 7 || r.kind == id as int + 1 <= 121)
            && (view' != view ==> r.kind in {105, 111, 121})
            && exists k: nat :: SameBut(view, view', k)
  {
    var f := Kinds(vs);
    var k := if id == CLUNK || id == ATTACH then assert f[0] == KW; vs[0].w
             else if id == WALK then assert f[1] == KW; vs[1].w
             else 0;
    assert SameBut(view, Effects(id, tag, vs, view, fs).1, k);
  }

  // ----- the same from the bytes of a message -----

  /** `n` strings are there from `at` on. */
  predicate NamesThere(b: seq<byte>, at: nat, n: nat)
    decreases n
  {
    n == 0 || (at + 2 <= |b| && at + 2 + Le16(b, at) <= |b| && NamesThere(b, at + 2 + Le16(b, at), n - 1))
  }

  /** An attach is whole: fid, afid, two strings and a uid. */
  predicate AttachThere(b: seq<byte>) {
    |b| >= 17 && |b| >= 19 + Le16(b, 15) && |b| >= 23 + Le16(b, 15) + Le16(b, 17 + Le16(b, 15))
  }

  /** What a message means for the fids, from its bytes: an attach binds the fid at
      7 to the new object, a walk the one at 11 if the one at 7 is bound, a clunk
      removes the one at 7; all others leave them as they are. Each gets its own
      reply, or an error if it is not whole, names no fid, or the file system
      refuses. */
  lemma {:induction false} ServeMeans(b: seq<byte>, view: map<nat, nat>, fs: FsAnswer)
    requires fs.fail.Some? ==> fs.fail.value < 0x1_0000_0000
    ensures |b| < 7 ==> Serve(b, view, fs) == (Error(0, P9_EPROTO), view)
    ensures |b| >= 7 && b[4] == 120 ==>
              Serve(b, view, fs) == if |b| < 11 then (Error(Le16(b, 5), P9_EPROTO), view)
                                    else (Reply(121, Le16(b, 5), []), view - {Le32(b, 7)})
    ensures |b| >= 7 && b[4] == 104 ==>
              Serve(b, view, fs) == if !AttachThere(b) then (Error(Le16(b, 5), P9_EPROTO), view)
                                    else if fs.fail.Some? then (Error(Le16(b, 5), fs.fail.value), view)
                                    else (Reply(105, Le16(b, 5), fs.body), view[Le32(b, 7) := fs.file])
    ensures |b| >= 7 && b[4] == 110 ==>
              Serve(b, view, fs) == if |b| < 17 || Le32(b, 7) !in view || !NamesThere(b, 17, Le16(b, 15)) then
                                      (Error(Le16(b, 5), P9_EPROTO), view)
                                    else if fs.fail.Some? then (Error(Le16(b, 5), fs.fail.value), view)
                                    else (Reply(111, Le16(b, 5), fs.body), view[Le32(b, 11) := fs.file])
    ensures |b| >= 7 && b[4] !in {104, 110, 120} ==> Serve(b, view, fs).1 == view
  {
    hide Bytes32, Le16, Le32, Parse, Perform, NamesThere, AttachThere;
    if |b| >= 7 && b[4] in {104, 110, 120} {
      var f := Format(b[4]).value;
      var r := Parse(b, 7, f);
      if b[4] == 120 {
        assert [KW] + [] == [KW];
        ParseWord(b, 7, []);
        ParseWord(b, 11, []);
      } else if b[4] == 104 {
        AttachFields(b);
      } else {
        WalkFields(b);
      }
      if r.Some? {
        ParseMatches(b, 7, f);
        PerformMeans(b, b[4], Le16(b, 5), r.value.0, r.value.1, view, fs);
      }
    } else if |b| >= 7 && b[4] != XATTRWALK && Format(b[4]).Some? && Parse(b, 7, Format(b[4]).value).Some? {
      var (vs, at) := Parse(b, 7, Format(b[4]).value).value;
      ParseMatches(b, 7, Format(b[4]).value);
      OthersKeep(b, b[4], Le16(b, 5), vs, at, view, fs);
    }
  }

  lemma {:induction false} PerformMeans(b: seq<byte>, id: byte, tag: u16, vs: seq<Val>, at: nat, view: map<nat, nat>,
                                        fs: FsAnswer)
    requires id in {104, 110, 120} && Format(id).Some? && Matches(vs, Format(id).value)
    requires fs.fail.Some? ==> fs.fail.value < 0x1_0000_0000
    ensures vs != [] && vs[0].W? && (id == 110 ==> |vs| == 3 && vs[1].W? && vs[2].H?)
    ensures var r := Perform(b, id, tag, vs, at, view, fs);
            r == if id == 110 && (vs[0].w !in view || !NamesThere(b, at, vs[2].h)) then (Error(tag, P9_EPROTO), view)
                 else if id == 120 then (Reply(121, tag, []), view - {vs[0].w})
                 else if fs.fail.Some? then (Error(tag, fs.fail.value), view)
                 else (Reply(id as int + 1, tag, fs.body), view[(if id == 104 then vs[0].w else vs[1].w) := fs.file])
  {
    hide Bytes32, Parse, NamesThere, Matches, Format, Names;
    FieldKinds(id, vs);
    if id == 110 {
      NamesParse(b, at, vs[2].h);
    }
  }

  lemma {:induction false} OthersKeep(b: seq<byte>, id: byte, tag: u16, vs: seq<Val>, at: nat, view: map<nat, nat>,
                                      fs: FsAnswer)
    requires id !in {104, 110, 120} && Format(id).Some? && Matches(vs, Format(id).value)
    requires fs.fail.Some? ==> fs.fail.value < 0x1_0000_0000
    ensures Perform(b, id, tag, vs, at, view, fs).1 == view
  {
    hide Bytes32, Parse, Encode, RestThere, Needs, Format, Matches;
  }

  /** The other messages: a reply of their own means that the fid at 7, which all but
      statfs, fsync, version and flush have, is bound, and for link the one at 11
      as well; that the file system did not refuse (statfs, fsync, version and
      flush cannot be refused); and it has the file system's body, none, or
      version's. Conversely, when all that holds and the fields are there, link,
      renameat and write aside, that is the reply. xattrwalk and unknown types get
      an error. */
  lemma {:induction false} OtherReplies(b: seq<byte>, view: map<nat, nat>, fs: FsAnswer)
    requires |b| >= 7 && b[4] !in {104, 110, 120} && (fs.fail.Some? ==> fs.fail.value < 0x1_0000_0000)
    ensures var r := Serve(b, view, fs).0;
            && (b[4] == 30 ==> r == Error(Le16(b, 5), P9_ENOTSUP))
            && (b[4] !in {8, 12, 14, 16, 18, 22, 24, 26, 30, 40, 50, 52, 54, 70, 72, 74, 76, 100, 108, 116, 118} ==>
                  r == Error(Le16(b, 5), P9_EPROTO))
            && (r.kind != 7 ==> r.kind == b[4] as int + 1 && r.tag == Le16(b, 5))
            && (r.kind != 7 && b[4] !in {8, 50, 100, 108} ==> |b| >= 11 && Le32(b, 7) in view && fs.fail.None?)
            && (r.kind != 7 && b[4] == 70 ==> |b| >= 15 && Le32(b, 11) in view)
            && (fs.fail.None? && Format(b[4]).Some? && Parse(b, 7, Format(b[4]).value).Some? &&
                b[4] !in {30, 70, 74, 118} && (b[4] in {8, 50, 100, 108} || (|b| >= 11 && Le32(b, 7) in view)) ==>
                  r.kind == b[4] as int + 1)
            && (r.kind != 7 && b[4] != 100 ==> r.body == if b[4] in {26, 50, 70, 74, 76, 108} then [] else fs.body)
            && (r.kind != 7 && b[4] == 100 ==>
                  |b| >= 11 && r.body == Encode([W(Min(Le32(b, 7), 0xE000)), S([57, 80, 50, 48, 48, 48, 46, 76])]))
  {
    hide Bytes32, Le16, Le32, Parse, Perform, Encode, Matches;
    if b[4] != XATTRWALK && Format(b[4]).Some? && Parse(b, 7, Format(b[4]).value).Some? {
      var f := Format(b[4]).value;
      var (vs, at) := Parse(b, 7, f).value;
      ParseMatches(b, 7, f);
      FirstWord(b, f);
      SecondWord(b, f);
      OtherPerforms(b, b[4], Le16(b, 5), vs, at, view, fs);
    }
  }

  lemma {:induction false} FirstWord(b: seq<byte>, f: seq<Kind>)
    ensures f != [] && f[0] == KW && Parse(b, 7, f).Some? ==>
              |b| >= 11 && Parse(b, 7, f).value.0 != [] && Parse(b, 7, f).value.0[0] == W(Le32(b, 7))
  {
    if f != [] && f[0] == KW {
      assert [KW] + f[1..] == f;
      ParseWord(b, 7, f[1..]);
    }
  }

  lemma {:induction false} SecondWord(b: seq<byte>, f: seq<Kind>)
    ensures |f| >= 2 && f[0] == KW && f[1] == KW && Parse(b, 7, f).Some? ==>
              |b| >= 15 && |Parse(b, 7, f).value.0| >= 2 && Parse(b, 7, f).value.0[1] == W(Le32(b, 11))
  {
    hide Le32;
    if |f| >= 2 && f[0] == KW && f[1] == KW {
      assert [KW] + f[1..] == f && [KW] + f[2..] == f[1..];
      ParseWord(b, 7, f[1..]);
      ParseWord(b, 11, f[2..]);
    }
  }

  predicate Bound(vs: seq<Val>, view: map<nat, nat>) { vs != [] && vs[0].W? && vs[0].w in view }

  lemma {:induction false} OtherPerforms(b: seq<byte>, id: byte, tag: u16, vs: seq<Val>, at: nat, view: map<nat, nat>,
                                         fs: FsAnswer)
    requires id !in {30, 104, 110, 120} && Format(id).Some? && Matches(vs, Format(id).value)
    requires fs.fail.Some? ==> fs.fail.value < 0x1_0000_0000
    ensures var r := Perform(b, id, tag, vs, at, view, fs).0;
            && (r.kind != 7 ==> r.kind == id as int + 1 && r.tag == tag)
            && (r.kind != 7 && id !in {8, 50, 100, 108} ==>
                  vs != [] && vs[0].W? && vs[0].w in view && fs.fail.None?)
            && (r.kind != 7 && id == 70 ==> |vs| >= 2 && vs[1].W? && vs[1].w in view)
            && (fs.fail.None? && id !in {70, 74, 118} && (id in {8, 50, 100, 108} || Bound(vs, view)) ==>
                  r.kind == id as int + 1)
            && (r.kind != 7 && id != 100 ==> r.body == if id in {26, 50, 70, 74, 76, 108} then [] else fs.body)
            && (r.kind != 7 && id == 100 ==> vs != [] && vs[0].W? && r.body == Encode(Version(vs[0].w)))
  {
    hide Bytes32, Parse, Encode, Version;
    var f := Kinds(vs);
    assert forall i :: 0 <= i < |vs| ==> f[i] == vs[i].Kind();
    var ks := Needs(id, vs);
    if id == 70 {
      assert ks[0] in ks && ks[1] in ks;
    } else if ks != [] {
      assert ks[0] in ks;
    }
  }

  // ----- runs of messages -----

  /** A message and what the file system answers to it. */
  datatype Call = Call(b: seq<byte>, fs: FsAnswer)

  predicate Sane(c: Call) { c.fs.fail.Some? ==> c.fs.fail.value < 0x1_0000_0000 }
  predicate AllSane(cs: seq<Call>) { forall i :: 0 <= i < |cs| ==> Sane(cs[i]) }

  /** The fids after a run of messages. */
  function After(view: map<nat, nat>, cs: seq<Call>): map<nat, nat>
    requires AllSane(cs)
  {
    if cs == [] then view
    else
      var n := |cs| - 1;
      Serve(cs[n].b, After(view, cs[..n]), cs[n].fs).1
  }

  lemma {:induction false} CallsMore(cs: seq<Call>, c: Call)
    requires AllSane(cs) && Sane(c)
    ensures AllSane(cs + [c]) && After(map[], cs + [c]) == Serve(c.b, After(map[], cs), c.fs).1
  {
    hide Serve;
    assert (cs + [c])[..|cs|] == cs;
  }

  /** The fid that a message with this reply bound or removed. */
  function Touched(b: seq<byte>, kind: nat): Option<nat>
    requires |b| < 17 ==> kind !in {105, 111}
    requires |b| < 11 ==> kind != 121
  {
    if kind == 105 || kind == 121 then Some(Le32(b, 7)) else if kind == 111 then Some(Le32(b, 11)) else None
  }

  /** The message of a run that touches fid `k`. */
  ghost predicate Touches(view: map<nat, nat>, cs: seq<Call>, i: nat, k: nat)
    requires i < |cs| && AllSane(cs)
  {
    var b, kind := cs[i].b, Serve(cs[i].b, After(view, cs[..i]), cs[i].fs).0.kind;
    (|b| < 17 ==> kind !in {105, 111}) && (|b| < 11 ==> kind != 121) && Touched(b, kind) == Some(k)
  }

  lemma {:induction false} TouchStep(view: map<nat, nat>, cs: seq<Call>, i: nat, k: nat)
    requires i < |cs| && AllSane(cs)
    ensures var v, v' := After(view, cs[..i]), After(view, cs[..i + 1]);
            if Touches(view, cs, i, k) then
              if cs[i].b[4] == 120 then k !in v' else k in v' && v'[k] == cs[i].fs.file
            else (k in v <==> k in v') && (k in v ==> v'[k] == v[k])
  {
    hide Serve, Le16, Le32, Bytes32, NamesThere;
    assert cs[..i + 1][..i] == cs[..i];
    ServeMeans(cs[i].b, After(view, cs[..i]), cs[i].fs);
    ServeFacts(cs[i].b, After(view, cs[..i]), cs[i].fs);
  }

  /** Over any run: a fid is bound to the object of the last message that touched it,
      unless that was a clunk; if none did it is as it was. */
  lemma {:induction false} LastTouch(view: map<nat, nat>, cs: seq<Call>, from: nat, k: nat)
    requires from <= |cs| && AllSane(cs) && forall j :: from <= j < |cs| ==> !Touches(view, cs, j, k)
    ensures var v, v' := After(view, cs[..from]), After(view, cs);
            (k in v <==> k in v') && (k in v ==> v'[k] == v[k])
    ensures from > 0 && Touches(view, cs, from - 1, k) ==>
              var v := After(view, cs);
              if cs[from - 1].b[4] == 120 then k !in v else k in v && v[k] == cs[from - 1].fs.file
    decreases |cs| - from
  {
    hide Touches, After;
    assert cs[..|cs|] == cs;
    if from < |cs| {
      TouchStep(view, cs, from, k);
      LastTouch(view, cs, from + 1, k);
    }
    if from > 0 {
      TouchStep(view, cs, from - 1, k);
    }
  }

  lemma {:induction false} ParseWord(b: seq<byte>, at: nat, f: seq<Kind>)
    ensures Parse(b, at, [KW] + f) == if at + 4 <= |b| then Before([W(Le32(b, at))], Parse(b, at + 4, f)) else None
    ensures Parse(b, at, []) == Some(([], at))
  {
    assert ([KW] + f)[1..] == f;
  }

  lemma {:induction false} ParseHalf(b: seq<byte>, at: nat, f: seq<Kind>)
    ensures Parse(b, at, [KH] + f) == if at + 2 <= |b| then Before([H(Le16(b, at))], Parse(b, at + 2, f)) else None
  {
    assert ([KH] + f)[1..] == f;
  }

  lemma {:induction false} ParseString(b: seq<byte>, at: nat, f: seq<Kind>)
    ensures Parse(b, at, [KS] + f) ==
            if at + 2 <= |b| && at + 2 + Le16(b, at) <= |b| then
              Before([S(b[at + 2..at + 2 + Le16(b, at)])], Parse(b, at + 2 + Le16(b, at), f))
            else None
  {
    assert ([KS] + f)[1..] == f;
  }

  lemma {:induction false} WalkFields(b: seq<byte>)
    ensures var r := Parse(b, 7, [KW, KW, KH]);
            if |b| >= 17 then r == Some(([W(Le32(b, 7)), W(Le32(b, 11)), H(Le16(b, 15))], 17)) else r.None?
  {
    hide Parse, Le16, Le32;
    assert [KW] + [KW, KH] == [KW, KW, KH] && [KW] + [KH] == [KW, KH] && [KH] + [] == [KH];
    ParseWord(b, 7, [KW, KH]);
    ParseWord(b, 11, [KH]);
    ParseHalf(b, 15, []);
    ParseWord(b, 17, []);
    if |b| >= 17 {
      var x, y, z := W(Le32(b, 7)), W(Le32(b, 11)), H(Le16(b, 15));
      assert [x] + ([y] + ([z] + [])) == [x, y, z];
    }
  }

  lemma {:induction false} AttachFields(b: seq<byte>)
    ensures var r := Parse(b, 7, [KW, KW, KS, KS, KW]);
            (r.Some? <==> AttachThere(b)) && (r.Some? ==> |r.value.0| == 5 && r.value.0[0] == W(Le32(b, 7)))
  {
    hide Parse, Le16, Le32;
    assert [KW] + [KW, KS, KS, KW] == [KW, KW, KS, KS, KW] && [KW] + [KS, KS, KW] == [KW, KS, KS, KW];
    assert [KS] + [KS, KW] == [KS, KS, KW] && [KS] + [KW] == [KS, KW] && [KW] + [] == [KW];
    ParseWord(b, 7, [KW, KS, KS, KW]);
    ParseWord(b, 11, [KS, KS, KW]);
    ParseString(b, 15, [KS, KW]);
    if |b| >= 17 {
      var at := 17 + Le16(b, 15);
      ParseString(b, at, [KW]);
      if |b| >= at + 2 {
        ParseWord(b, at + 2 + Le16(b, at), []);
        ParseWord(b, at + 6 + Le16(b, at), []);
      }
    }
  }

  lemma {:induction false} NamesParse(b: seq<byte>, at: nat, n: nat)
    ensures Parse(b, at, Names(n)).Some? <==> NamesThere(b, at, n)
    decreases n
  {
    hide Parse, Le16;
    ParseWord(b, at, []);
    if n > 0 {
      assert Names(n) == [KS] + Names(n - 1);
      ParseString(b, at, Names(n - 1));
      if at + 2 <= |b| {
        NamesParse(b, at + 2 + Le16(b, at), n - 1);
      }
    } else {
      assert Names(n) == [];
    }
  }

  /** A reply as bytes. */
  function Message(r: Reply): seq<byte>
    requires |r.body| + HEADER < 0x1_0000_0000
  {
    Bytes32(|r.body| + HEADER) + [r.kind % 256] + Bytes16(r.tag) + r.body
  }

  class Device {
    const ram: array<byte>
    const q: Queue
    const fids: FidTable
    var msize: nat
    ghost var used: seq<(nat, nat)>
    /** All messages so far. */
    ghost var calls: seq<Call>

    ghost predicate Ready()
      reads this, ram, fids
    {
      q.Laid(ram.Length) && UsedOk(ram[..], q, used) && fids.Inv()
    }

    ghost predicate Inv()
      reads this, ram, fids
    {
      Ready() && AllSane(calls) && fids.View() == After(map[], calls)
    }

    constructor (ram: array<byte>, q: Queue)
      requires q.Laid(ram.Length) && Le16(ram[..], q.used + 2) == 0
      ensures Inv() && this.ram == ram && this.q == q && fresh(fids) && fids.View() == map[]
      ensures used == [] && calls == []
    {
      this.ram, this.q := ram, q;
      fids := new FidTable();
      msize, used, calls := 0, [], [];
    }

    /** `fid_find` for all fids a request names. */
    method FindAll(ks: seq<nat>) returns (all: bool)
      requires fids.Inv()
      ensures all <==> forall k :: k in ks ==> k in fids.View()
    {
      var i := 0;
      while i < |ks|
        invariant 0 <= i <= |ks| && forall j :: 0 <= j < i ==> ks[j] in fids.View()
      {
        var at := fids.Find(ks[i]);
        if at.None? {
          return false;
        }
        i := i + 1;
      }
      all := true;
    }

    /** The switch of `virtio_9p_recv_request`: what to reply, and the fids. */
    method Process(idx: nat, fs: FsAnswer, ghost ch: seq<Desc>) returns (r: Reply)
      requires Ready() && ChainAt(ram[..], q.t, idx, ch) && fs.file !in fids.made
      requires fs.fail.Some? ==> fs.fail.value < 0x1_0000_0000
      modifies fids, this`msize
      ensures Ready() && InRam(Readable(ch), ram.Length)
      ensures (r, fids.View()) == Serve(Gather(ram[..], Readable(ch)), old(fids.View()), fs)
    {
      hide ChainAt, Lead, UsedOk, Perform, Format, Parse, Gather, Bytes32;
      LeadInRam(ram[..], q.t, idx, ch, false);
      ghost var b := Gather(ram[..], Readable(ch));
      var h := CopyFromQueue(ram, q.t, idx, 0, HEADER, ch);
      if h.None? {
        return Error(0, P9_EPROTO);
      }
      GatherSlice(ram[..], Readable(ch), 0, HEADER);
      var id, tag := h.value[4], Le16(h.value, 5);
      if id == XATTRWALK {
        return Error(tag, P9_ENOTSUP);
      }
      if Format(id).None? {
        return Error(tag, P9_EPROTO);
      }
      var fields := Unmarshall(ram, q.t, idx, HEADER, Format(id).value, ch);
      if fields.None? {
        return Error(tag, P9_EPROTO);
      }
      ParseMatches(b, HEADER, Format(id).value);
      r := Act(idx, id, tag, fields.value.0, fields.value.1, fs, ch);
    }

    /** One request with its fields. */
    method Act(idx: nat, id: byte, tag: u16, vs: seq<Val>, at: nat, fs: FsAnswer, ghost ch: seq<Desc>)
      returns (r: Reply)
      requires Ready() && ChainAt(ram[..], q.t, idx, ch) && fs.file !in fids.made
      requires Format(id).Some? && Matches(vs, Format(id).value)
      requires fs.fail.Some? ==> fs.fail.value < 0x1_0000_0000
      modifies fids, this`msize
      ensures Ready() && InRam(Readable(ch), ram.Length)
      ensures (r, fids.View()) == Perform(Gather(ram[..], Readable(ch)), id, tag, vs, at, old(fids.View()), fs)
    {
      hide ChainAt, Lead, UsedOk, Format, Effects;
      LeadInRam(ram[..], q.t, idx, ch, false);
      var found := FindAll(Needs(id, vs));
      if !found {
        return Error(tag, P9_EPROTO);
      }
      var there := ReadRest(idx, id, vs, at, ch);
      if !there {
        return Error(tag, P9_EPROTO);
      }
      r := Finish(id, tag, vs, fs);
    }

    /** The names of a walk (lines 1972-1978), the data of a write (lines
        2039-2044). */
    method ReadRest(idx: nat, id: byte, vs: seq<Val>, at: nat, ghost ch: seq<Desc>) returns (there: bool)
      requires ChainAt(ram[..], q.t, idx, ch) && Format(id).Some? && Matches(vs, Format(id).value)
      ensures InRam(Readable(ch), ram.Length)
      ensures there <==> RestThere(Gather(ram[..], Readable(ch)), at, id, vs)
    {
      hide ChainAt, Lead, Parse;
      LeadInRam(ram[..], q.t, idx, ch, false);
      there := true;
      ghost var f := Kinds(vs);
      if id == WALK {
        assert f[2] == KH;
        var names := Unmarshall(ram, q.t, idx, at, Names(vs[2].h), ch);
        there := names.Some?;
      } else if id == WRITE {
        assert f[2] == KW;
        if vs[2].w < 0x8000_0000 {
          var data := CopyFromQueue(ram, q.t, idx, at, vs[2].w, ch);
          there := data.Some?;
        } else {
          var found, desc, off, _ := Locate(ram, q.t, idx, at, false, ch);
          there := found;
        }
      }
    }

    /** The file system call, the fids and the reply. */
    method Finish(id: byte, tag: u16, vs: seq<Val>, fs: FsAnswer) returns (r: Reply)
      requires fids.Inv() && fs.file !in fids.made
      requires Format(id).Some? && Matches(vs, Format(id).value)
      requires fs.fail.Some? ==> fs.fail.value < 0x1_0000_0000
      modifies fids, this`msize
      ensures fids.Inv() && (r, fids.View()) == Effects(id, tag, vs, old(fids.View()), fs)
    {
      hide Format, Matches, Encode, Bytes32;
      FieldKinds(id, vs);
      if id == CLUNK {
        fids.Delete(vs[0].w);
        return Reply(id as int + 1, tag, []);
      }
      if id == VERSION {
        msize := Min(vs[0].w, MAX_MSIZE);
        var body := Marshall(Version(vs[0].w));
        return Reply(id as int + 1, tag, body);
      }
      if fs.fail.Some? && MayFail(id) {
        return Error(tag, fs.fail.value);
      }
      if id == ATTACH {
        fids.Set(vs[0].w, fs.file);
      } else if id == WALK {
        fids.Set(vs[1].w, fs.file);
      }
      r := Reply(id as int + 1, tag, if Bare(id) then [] else fs.body);
    }

    /** The driver stores `b` at `at`, outside the used ring. */
    method Store(at: nat, b: seq<byte>)
      requires Inv() && at + |b| <= ram.Length && (at + |b| <= q.used || q.used + 4 + 8 * q.t.num <= at)
      modifies ram
      ensures Inv() && ram[..] == Patch(old(ram[..]), at, b) && fids.View() == old(fids.View())
    {
      hide UsedOk, After;
      StoreBytes(ram, at, b);
      UsedKept(old(ram[..]), ram[..], q, used);
    }

    /** `virtio_9p_recv_request` on queue 0: exactly one used entry, and the reply
        in the chain's writable part as far as it has room. */
    method Recv(idx: nat, fs: FsAnswer, ghost ch: seq<Desc>) returns (r: Reply)
      requires Inv() && Pending(ram[..], q, idx, ch) && idx < 0x1_0000 && fs.file !in fids.made
      requires |fs.body| < 0x8000_0000
      requires fs.fail.Some? ==> fs.fail.value < 0x1_0000_0000
      modifies ram, fids, this
      ensures Inv() && InRam(Readable(ch), ram.Length) && InRam(Writable(ch), ram.Length) && |r.body| < 0x8000_0000
      ensures (r, fids.View()) == Serve(Gather(old(ram[..]), Readable(ch)), old(fids.View()), fs)
      ensures used == old(used) + [(idx, |r.body| + HEADER)]
      ensures calls == old(calls) + [Call(Gather(old(ram[..]), Readable(ch)), fs)]
      ensures var n := Min(|Message(r)|, |Writable(ch)|);
              Distinct(Writable(ch)) ==> Gather(ram[..], Writable(ch)[..n]) == Message(r)[..n]
      ensures forall a :: 0 <= a < ram.Length && !q.InUsed(a) && a !in Writable(ch) ==> ram[a] == old(ram[a])
      ensures forall a :: 0 <= a < ram.Length && q.Guarded(a) ==> ram[a] == old(ram[a])
    {
      hide ChainAt, Lead, UsedOk, WellPlaced, Serve, Bytes32, After, AllSane, Gather;
      LeadInRam(ram[..], q.t, idx, ch, false);
      ghost var b := Gather(ram[..], Readable(ch));
      r := Process(idx, fs, ch);
      BodySmall(b, old(fids.View()), fs);
      Len32(|r.body| + HEADER);
      var buf := Message(r);
      PassBack(ram, q, idx, buf, used, ch);
      used := used + [(idx, |buf|)];
      CallsMore(calls, Call(b, fs));
      calls := calls + [Call(b, fs)];
    }
  }

  lemma {:induction false} BodySmall(b: seq<byte>, view: map<nat, nat>, fs: FsAnswer)
    requires fs.fail.Some? ==> fs.fail.value < 0x1_0000_0000
    requires |fs.body| < 0x8000_0000
    ensures |Serve(b, view, fs).0.body| < 0x8000_0000
  {
    hide Format, Parse, Encode, Needs, RestThere, Effects, Matches;
    ErrorSize(0);
    if |b| >= HEADER && Format(b[4]).Some? && Parse(b, HEADER, Format(b[4]).value).Some? {
      var (vs, at) := Parse(b, HEADER, Format(b[4]).value).value;
      ParseMatches(b, HEADER, Format(b[4]).value);
      EffectsSmall(b[4], Le16(b, 5), vs, view, fs);
    }
  }

  lemma {:induction false} EffectsSmall(id: byte, tag: u16, vs: seq<Val>, view: map<nat, nat>, fs: FsAnswer)
    requires Format(id).Some? && Matches(vs, Format(id).value)
    requires fs.fail.Some? ==> fs.fail.value < 0x1_0000_0000
    requires |fs.body| < 0x8000_0000
    ensures |Effects(id, tag, vs, view, fs).0.body| < 0x8000_0000
  {
    hide Format, Encode, Matches;
    FieldKinds(id, vs);
    if id == VERSION {
      VersionSmall(vs[0].w);
    }
  }

  lemma {:induction false} ErrorSize(tag: u16)
    ensures forall code :: 0 <= code < 0x1_0000_0000 ==> |Error(tag, code).body| == 4
  {
  }

  lemma {:induction false} VersionSmall(msize: nat)
    ensures |Encode(Version(msize))| <= 65541 + 4
  {
    var v := Version(msize);
    assert v[1..] == [v[1]] && [v[1]][1..] == [];
    assert Encode(v) == Encode1(v[0]) + Encode([v[1]]);
  }
}
