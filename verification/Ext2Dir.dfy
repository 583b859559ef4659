/**
  One directory block of src/ext2.c: bytes tiled by records of a 32-bit inode
  number, a 16-bit record length, a name length, a file type and the name.
  The operations that dir_add and dir_remove perform inside a block, on its
  bytes, are shown to keep the tiling and to add or delete exactly one entry.
 */
module Ext2Dir {
  import opened Types

  type Name = seq<Byte>

  // ----- Little-endian words -----

  function Le(b: seq<Byte>): nat {
    if b == [] then 0 else b[0] as int + 256 * Le(b[1..])
  }

  function ToLe(v: nat, n: nat): (b: seq<Byte>)
    ensures |b| == n
  {
    if n == 0 then [] else [v % 256] + ToLe(v / 256, n - 1)
  }

  function Pow256(n: nat): nat {
    if n == 0 then 1 else 256 * Pow256(n - 1)
  }

  lemma {:induction false} LeRoundTrip(v: nat, n: nat)
    requires v < Pow256(n)
    ensures Le(ToLe(v, n)) == v
  {
    if n > 0 {
      LeRoundTrip(v / 256, n - 1);
      assert ToLe(v, n)[1..] == ToLe(v / 256, n - 1);
    }
  }

  lemma Powers()
    ensures Pow256(2) == 0x1_0000 && Pow256(4) == 0x1_0000_0000
  {
    assert Pow256(3) == 0x100_0000;
  }

  lemma PutSlices(b: seq<Byte>, o: nat, v: seq<Byte>, p: nat, q: nat)
    requires o + |v| <= |b| && p <= q <= |b|
    ensures q <= o || o + |v| <= p ==> Splice(b, o, v)[p..q] == b[p..q]
    ensures Splice(b, o, v)[o..o + |v|] == v
    ensures o <= p && q <= o + |v| ==> Splice(b, o, v)[p..q] == v[p - o..q - o]
  {
    var r := Splice(b, o, v);
    assert r[0..o] == b[0..o];
    assert r[o + |v|..|r|] == b[o + |v|..|b|];
    if q <= o {
      SliceOfSlice(r, 0, o, p, q);
      SliceOfSlice(b, 0, o, p, q);
    } else if o + |v| <= p {
      SliceOfSlice(r, o + |v|, |r|, p, q);
      SliceOfSlice(b, o + |v|, |b|, p, q);
    }
  }

  /** The 32-bit word at byte offset `o`. */
  function Word32(b: seq<Byte>, o: nat): nat
    requires o + 4 <= |b|
  {
    Le(b[o..o + 4])
  }

  /** Entry `k` of a block of 32-bit words, zero past the end. */
  function WordAt(b: seq<Byte>, k: nat): nat {
    if 4 * k + 4 <= |b| then Word32(b, 4 * k) else 0
  }

  function PutWord(b: seq<Byte>, o: nat, v: nat): (r: seq<Byte>)
    requires o + 4 <= |b|
    ensures |r| == |b|
  {
    Splice(b, o, ToLe(v, 4))
  }

  lemma PutWordAt(b: seq<Byte>, k: nat, v: nat, j: nat)
    requires 4 * k + 4 <= |b| && v < 0x1_0000_0000
    ensures WordAt(PutWord(b, 4 * k, v), j) == if j == k then v else WordAt(b, j)
  {
    Powers();
    LeRoundTrip(v, 4);
    if 4 * j + 4 <= |b| {
      PutSlices(b, 4 * k, ToLe(v, 4), 4 * j, 4 * j + 4);
    }
  }

  function Zeros(n: nat): (z: seq<Byte>)
    ensures |z| == n && forall i :: 0 <= i < n ==> z[i] == 0
  {
    seq(n, _ => 0)
  }

  // ----- Records -----

  function Ino(b: seq<Byte>, off: nat): nat
    requires off + 8 <= |b|
  {
    Word32(b, off)
  }

  function RecLen(b: seq<Byte>, off: nat): nat
    requires off + 8 <= |b|
  {
    Le(b[off + 4..off + 6])
  }

  function NameLen(b: seq<Byte>, off: nat): nat
    requires off + 8 <= |b|
  {
    b[off + 6]
  }

  /** The file type of the entry. */
  function TypeOf(b: seq<Byte>, off: nat): Byte
    requires off + 8 <= |b|
  {
    b[off + 7]
  }

  const FT_REG: Byte := 1
  const FT_DIR: Byte := 2

  function RoundUp4(x: nat): nat {
    (x + 3) / 4 * 4
  }

  lemma LeBytes(b: seq<Byte>)
    ensures |b| == 2 ==> Le(b) == b[0] as int + 256 * (b[1] as int)
    ensures |b| == 4 ==>
              Le(b) == b[0] as int + 0x100 * (b[1] as int) + 0x1_0000 * (b[2] as int) + 0x100_0000 * (b[3] as int)
  {
    if |b| == 2 {
      assert b[1..][1..] == [];
    } else if |b| == 4 {
      assert b[1..][1..][1..][1..] == [];
      assert Le(b[1..][1..][1..]) == b[3] as int && Le(b[1..][1..]) == b[2] as int + 256 * (b[3] as int);
    }
  }

  /** The format of a directory record, byte by byte. */
  lemma RecordFormat(b: seq<Byte>, off: nat)
    requires off + 8 <= |b|
    ensures Ino(b, off) == b[off] as int + 0x100 * (b[off + 1] as int) + 0x1_0000 * (b[off + 2] as int) +
                           0x100_0000 * (b[off + 3] as int)
    ensures RecLen(b, off) == b[off + 4] as int + 0x100 * (b[off + 5] as int)
    ensures NameLen(b, off) == b[off + 6] as int && TypeOf(b, off) == b[off + 7]
  {
    LeBytes(b[off..off + 4]);
    LeBytes(b[off + 4..off + 6]);
  }

  /** The format of a block of pointers. */
  lemma PointerFormat(b: seq<Byte>, k: nat)
    requires 4 * k + 4 <= |b|
    ensures WordAt(b, k) == b[4 * k] as int + 0x100 * (b[4 * k + 1] as int) + 0x1_0000 * (b[4 * k + 2] as int) +
                            0x100_0000 * (b[4 * k + 3] as int)
  {
    LeBytes(b[4 * k..4 * k + 4]);
  }

  /** A record that fits: inside the block, and covering its header and name. */
  predicate HeaderOk(b: seq<Byte>, off: nat) {
    && off + 8 <= |b|
    && 8 <= RecLen(b, off) && off + RecLen(b, off) <= |b|
    && (Ino(b, off) != 0 ==> 8 + NameLen(b, off) <= RecLen(b, off))
  }

  function NextOff(b: seq<Byte>, off: nat): nat
    requires HeaderOk(b, off)
  {
    off + RecLen(b, off)
  }

  function NameOf(b: seq<Byte>, off: nat): Name
    requires HeaderOk(b, off) && Ino(b, off) != 0
  {
    b[off + 8..off + 8 + NameLen(b, off)]
  }

  /** From `off` to the end, the block is exactly covered by 4-aligned records. */
  predicate Tiled(b: seq<Byte>, off: nat)
    decreases |b| - off
  {
    off % 4 == 0 && (off == |b| || (off < |b| && HeaderOk(b, off) && Tiled(b, NextOff(b, off))))
  }

  /** A live entry: where its record starts, the inode it names, its name and its file type. */
  datatype Ent = Ent(off: nat, ino: nat, name: Name, kind: Byte)

  predicate Here(b: seq<Byte>, off: nat, e: Ent) {
    HeaderOk(b, off) && Ino(b, off) != 0 && e == Ent(off, Ino(b, off), NameOf(b, off), TypeOf(b, off))
  }

  /** `e` is one of the entries from `off` to the end. */
  predicate In(b: seq<Byte>, off: nat, e: Ent)
    requires Tiled(b, off)
    decreases |b| - off
  {
    off < |b| && (Here(b, off, e) || In(b, NextOff(b, off), e))
  }

  /** Walking records from `o` arrives at `off`. */
  predicate Boundary(b: seq<Byte>, o: nat, off: nat)
    decreases off - o
  {
    o == off || (o < off && HeaderOk(b, o) && Boundary(b, NextOff(b, o), off))
  }

  predicate InUpto(b: seq<Byte>, o: nat, off: nat, e: Ent)
    requires Boundary(b, o, off)
    decreases off - o
  {
    o < off && (Here(b, o, e) || InUpto(b, NextOff(b, o), off, e))
  }

  lemma {:induction false} InSplit(b: seq<Byte>, o: nat, off: nat, e: Ent)
    requires Tiled(b, o) && Boundary(b, o, off)
    ensures off <= |b| && Tiled(b, off)
    ensures In(b, o, e) <==> InUpto(b, o, off, e) || In(b, off, e)
    decreases off - o
  {
    if o < off {
      InSplit(b, NextOff(b, o), off, e);
    }
  }

  lemma {:induction false} BoundaryStep(b: seq<Byte>, o: nat, off: nat)
    requires Boundary(b, o, off) && HeaderOk(b, off)
    ensures Boundary(b, o, NextOff(b, off))
    decreases off - o
  {
    if o < off {
      BoundaryStep(b, NextOff(b, o), off);
    }
  }

  lemma {:induction false} InFrom(b: seq<Byte>, o: nat, e: Ent)
    requires Tiled(b, o) && In(b, o, e)
    ensures o <= e.off < |b| && e.ino != 0
    decreases |b| - o
  {
    if !Here(b, o, e) {
      InFrom(b, NextOff(b, o), e);
    }
  }

  lemma {:induction false} InUptoBefore(b: seq<Byte>, o: nat, off: nat, e: Ent)
    requires Boundary(b, o, off) && InUpto(b, o, off, e)
    ensures o <= e.off < off
    decreases off - o
  {
    if !Here(b, o, e) {
      InUptoBefore(b, NextOff(b, o), off, e);
    }
  }

  // ----- Frames -----

  predicate Agree(b: seq<Byte>, c: seq<Byte>, lo: nat, hi: nat) {
    |b| == |c| && lo <= hi <= |b| && b[lo..hi] == c[lo..hi]
  }

  lemma AgreeSub(b: seq<Byte>, c: seq<Byte>, lo: nat, hi: nat, l: nat, h: nat)
    requires Agree(b, c, lo, hi) && lo <= l <= h <= hi
    ensures Agree(b, c, l, h)
  {
    SliceOfSlice(b, lo, hi, l, h);
    SliceOfSlice(c, lo, hi, l, h);
  }

  lemma SliceOfSlice<T>(s: seq<T>, lo: nat, hi: nat, l: nat, h: nat)
    requires lo <= l <= h <= hi <= |s|
    ensures s[l..h] == s[lo..hi][l - lo..h - lo]
  {
    forall i | 0 <= i < h - l ensures s[l..h][i] == s[lo..hi][l - lo..h - lo][i] {
    }
  }

  lemma SameHeader(b: seq<Byte>, c: seq<Byte>, o: nat)
    requires Agree(b, c, o, o + 8)
    ensures Ino(c, o) == Ino(b, o) && RecLen(c, o) == RecLen(b, o) && NameLen(c, o) == NameLen(b, o)
    ensures TypeOf(c, o) == TypeOf(b, o)
  {
    AgreeSub(b, c, o, o + 8, o, o + 4);
    AgreeSub(b, c, o, o + 8, o + 4, o + 6);
    assert b[o + 6] == b[o..o + 8][6] && c[o + 6] == c[o..o + 8][6];
    assert b[o + 7] == b[o..o + 8][7] && c[o + 7] == c[o..o + 8][7];
  }

  lemma SameHere(b: seq<Byte>, c: seq<Byte>, o: nat, e: Ent)
    requires HeaderOk(b, o) && Agree(b, c, o, NextOff(b, o))
    ensures HeaderOk(c, o) && RecLen(c, o) == RecLen(b, o) && (Here(c, o, e) <==> Here(b, o, e))
  {
    AgreeSub(b, c, o, NextOff(b, o), o, o + 8);
    SameHeader(b, c, o);
    if Ino(b, o) != 0 {
      AgreeSub(b, c, o, NextOff(b, o), o + 8, o + 8 + NameLen(b, o));
    }
  }

  lemma {:induction false} SuffixSame(b: seq<Byte>, c: seq<Byte>, o: nat, e: Ent)
    requires Tiled(b, o) && Agree(b, c, o, |b|)
    ensures Tiled(c, o) && (In(c, o, e) <==> In(b, o, e))
    decreases |b| - o
  {
    if o < |b| {
      AgreeSub(b, c, o, |b|, o, NextOff(b, o));
      SameHere(b, c, o, e);
      AgreeSub(b, c, o, |b|, NextOff(b, o), |b|);
      SuffixSame(b, c, NextOff(b, o), e);
    }
  }

  lemma BoundaryWithin(b: seq<Byte>, o: nat, off: nat)
    requires Boundary(b, o, off) && o < off
    ensures NextOff(b, o) <= off
  {
  }

  lemma {:induction false} PrefixSame(b: seq<Byte>, c: seq<Byte>, o: nat, off: nat, e: Ent)
    requires Boundary(b, o, off) && Agree(b, c, o, off)
    ensures Boundary(c, o, off) && (InUpto(c, o, off, e) <==> InUpto(b, o, off, e))
    decreases off - o
  {
    if o < off {
      BoundaryWithin(b, o, off);
      AgreeSub(b, c, o, off, o, NextOff(b, o));
      SameHere(b, c, o, e);
      AgreeSub(b, c, o, off, NextOff(b, o), off);
      PrefixSame(b, c, NextOff(b, o), off, e);
    }
  }

  lemma {:induction false} TiledJoin(b: seq<Byte>, c: seq<Byte>, o: nat, off: nat)
    requires Tiled(b, o) && Boundary(b, o, off) && Agree(b, c, o, off) && off <= |c| && Tiled(c, off)
    ensures Tiled(c, o)
    decreases off - o
  {
    if o < off {
      BoundaryWithin(b, o, off);
      AgreeSub(b, c, o, off, o, NextOff(b, o));
      SameHere(b, c, o, Ent(0, 0, [], 0));
      AgreeSub(b, c, o, off, NextOff(b, o), off);
      TiledJoin(b, c, NextOff(b, o), off);
    }
  }

  /** Rewriting the block from `off` on: its entries before `off` stay. */
  lemma Rewritten(b: seq<Byte>, c: seq<Byte>, off: nat, e: Ent)
    requires Tiled(b, 0) && Boundary(b, 0, off) && Agree(b, c, 0, off) && Tiled(c, off)
    ensures Tiled(c, 0) && Boundary(c, 0, off)
    ensures In(c, 0, e) <==> InUpto(b, 0, off, e) || In(c, off, e)
  {
    TiledJoin(b, c, 0, off);
    PrefixSame(b, c, 0, off, e);
    InSplit(c, 0, off, e);
  }

  // ----- Adding an entry in a block -----

  function Header(ino: nat, len: nat, nameLen: nat, kind: Byte): (h: seq<Byte>)
    requires nameLen < 256
    ensures |h| == 8
  {
    ToLe(ino, 4) + ToLe(len, 2) + [nameLen, kind]
  }

  /** A whole record written at `off`: its header, then its name. */
  function PutRecord(b: seq<Byte>, off: nat, ino: nat, len: nat, name: Name, kind: Byte): (c: seq<Byte>)
    requires off + 8 + |name| <= |b| && |name| < 256
    ensures |c| == |b|
  {
    Splice(b, off, Header(ino, len, |name|, kind) + name)
  }

  function PutLen(b: seq<Byte>, off: nat, len: nat): (c: seq<Byte>)
    requires off + 8 <= |b|
    ensures |c| == |b|
  {
    Splice(b, off + 4, ToLe(len, 2))
  }

  lemma PutRecordFields(b: seq<Byte>, off: nat, ino: nat, len: nat, name: Name, kind: Byte)
    requires off + 8 + |name| <= |b| && |name| < 256
    requires ino < 0x1_0000_0000 && len < 0x1_0000
    ensures var c := PutRecord(b, off, ino, len, name, kind);
            && Ino(c, off) == ino && RecLen(c, off) == len && NameLen(c, off) == |name|
            && TypeOf(c, off) == kind && c[off + 8..off + 8 + |name|] == name
            && Agree(b, c, 0, off) && Agree(b, c, off + 8 + |name|, |b|)
  {
    var v := Header(ino, len, |name|, kind) + name;
    Powers();
    LeRoundTrip(ino, 4);
    LeRoundTrip(len, 2);
    PutSlices(b, off, v, off, off + 4);
    PutSlices(b, off, v, off + 4, off + 6);
    PutSlices(b, off, v, off + 6, off + 7);
    PutSlices(b, off, v, off + 7, off + 8);
    PutSlices(b, off, v, off + 8, off + 8 + |name|);
    PutSlices(b, off, v, 0, off);
    PutSlices(b, off, v, off + 8 + |name|, |b|);
    assert v[0..4] == ToLe(ino, 4) && v[4..6] == ToLe(len, 2) && v[8..8 + |name|] == name;
    assert Splice(b, off, v)[off + 6] == Splice(b, off, v)[off + 6..off + 7][0] == v[6..7][0] == |name|;
    assert Splice(b, off, v)[off + 7] == Splice(b, off, v)[off + 7..off + 8][0] == v[7..8][0] == kind;
  }

  lemma PutLenFields(b: seq<Byte>, off: nat, len: nat)
    requires off + 8 <= |b| && len < 0x1_0000
    ensures var c := PutLen(b, off, len);
            && Ino(c, off) == Ino(b, off) && RecLen(c, off) == len && NameLen(c, off) == NameLen(b, off)
            && TypeOf(c, off) == TypeOf(b, off) && Agree(b, c, 0, off) && Agree(b, c, off + 6, |b|)
  {
    var v := ToLe(len, 2);
    Powers();
    LeRoundTrip(len, 2);
    PutSlices(b, off + 4, v, off, off + 4);
    PutSlices(b, off + 4, v, 0, off);
    PutSlices(b, off + 4, v, off + 6, |b|);
    var c := PutLen(b, off, len);
    assert c[off + 7] == c[off + 6..][1] && b[off + 7] == b[off + 6..][1];
  }

  /** Bytes of the record at `off` that its own header and name take. */
  function Used(b: seq<Byte>, off: nat): nat
    requires HeaderOk(b, off)
  {
    if Ino(b, off) == 0 then 0 else RoundUp4(8 + NameLen(b, off))
  }

  predicate HasRoom(b: seq<Byte>, off: nat, name: Name)
    requires HeaderOk(b, off)
  {
    RecLen(b, off) - Used(b, off) >= RoundUp4(8 + |name|)
  }

  /** Where the new record goes: over an empty one, or in the slack of a live one. */
  function NewOff(b: seq<Byte>, off: nat): nat
    requires HeaderOk(b, off)
  {
    off + Used(b, off)
  }

  lemma RoundUpFits(x: nat, lo: nat, hi: nat)
    requires lo % 4 == 0
    ensures x <= RoundUp4(x) && (lo + RoundUp4(x)) % 4 == 0
    ensures lo + x <= hi && hi % 4 == 0 ==> lo + RoundUp4(x) <= hi
  {
  }

  /** In a tiled block a live record's own bytes, rounded up, end within it and aligned. */
  lemma UsedFits(b: seq<Byte>, off: nat)
    requires Tiled(b, off) && off < |b|
    ensures NewOff(b, off) <= NextOff(b, off) && NewOff(b, off) % 4 == 0
    ensures Ino(b, off) != 0 ==> off + 8 + NameLen(b, off) <= NewOff(b, off)
  {
    RoundUpFits(8 + NameLen(b, off), off, NextOff(b, off));
  }

  function AddAt(b: seq<Byte>, off: nat, ino: nat, name: Name, kind: Byte): (c: seq<Byte>)
    requires HeaderOk(b, off) && |name| < 256 && HasRoom(b, off, name)
    ensures |c| == |b|
  {
    var used := Used(b, off);
    RoundUpFits(8 + |name|, 0, 0);
    if Ino(b, off) == 0 then
      PutRecord(b, off, ino, RecLen(b, off), name, kind)
    else
      PutRecord(PutLen(b, off, used), off + used, ino, RecLen(b, off) - used, name, kind)
  }

  /** A new record of `c` that ends where one of `b` did. */
  lemma TailRecord(b: seq<Byte>, c: seq<Byte>, o: nat, t: nat, ino: nat, name: Name, kind: Byte, e: Ent)
    requires o % 4 == 0 && o + 8 + |name| <= t <= |b| && Tiled(b, t) && Agree(b, c, t, |b|)
    requires ino != 0 && Ino(c, o) == ino && RecLen(c, o) == t - o && NameLen(c, o) == |name|
    requires TypeOf(c, o) == kind && c[o + 8..o + 8 + |name|] == name
    ensures Tiled(c, o) && (In(c, o, e) <==> e == Ent(o, ino, name, kind) || In(b, t, e))
  {
    SuffixSame(b, c, t, e);
    ConsRecord(c, o, t, e);
  }

  /** A record whose length alone changed, to one that still covers its name. */
  lemma ResizedRecord(b: seq<Byte>, c: seq<Byte>, o: nat, e: Ent)
    requires HeaderOk(b, o) && |c| == |b| && Ino(c, o) == Ino(b, o) && NameLen(c, o) == NameLen(b, o)
    requires 8 <= RecLen(c, o) && o + RecLen(c, o) <= |c| && TypeOf(c, o) == TypeOf(b, o)
    requires Ino(b, o) != 0 ==> 8 + NameLen(b, o) <= RecLen(c, o) && Agree(b, c, o + 8, o + 8 + NameLen(b, o))
    ensures HeaderOk(c, o) && (Here(c, o, e) <==> Here(b, o, e))
  {
  }

  /** A record of `c` followed by a tiled rest. */
  lemma ConsRecord(c: seq<Byte>, o: nat, t: nat, e: Ent)
    requires o % 4 == 0 && HeaderOk(c, o) && RecLen(c, o) == t - o && Tiled(c, t)
    ensures Tiled(c, o) && (In(c, o, e) <==> Here(c, o, e) || In(c, t, e))
  {
  }

  /** In `c` the record of `b` at `off` ends at `o`, and a new one goes from there to `t`. */
  ghost predicate Split(b: seq<Byte>, c: seq<Byte>, off: nat, o: nat, t: nat, ino: nat, name: Name, kind: Byte)
    requires t <= |b| == |c| && off + 8 <= |b| && off + 8 + NameLen(b, off) <= o && o + 8 + |name| <= t
  {
    && Agree(b, c, 0, off) && Agree(b, c, off + 8, off + 8 + NameLen(b, off)) && Agree(b, c, t, |b|)
    && Ino(c, off) == Ino(b, off) && NameLen(c, off) == NameLen(b, off) && RecLen(c, off) == o - off
    && TypeOf(c, off) == TypeOf(b, off) && TypeOf(c, o) == kind
    && Ino(c, o) == ino && RecLen(c, o) == t - o && NameLen(c, o) == |name| && c[o + 8..o + 8 + |name|] == name
  }

  lemma CutAndPut(b: seq<Byte>, off: nat, o: nat, t: nat, ino: nat, name: Name, kind: Byte)
    requires t <= |b| <= 32768 && 0 < ino < 0x1_0000_0000 && |name| < 256
    requires off + 8 <= |b| && off + 8 + NameLen(b, off) <= o && o + 8 + |name| <= t
    ensures Split(b, PutRecord(PutLen(b, off, o - off), o, ino, t - o, name, kind), off, o, t, ino, name, kind)
  {
    var d := PutLen(b, off, o - off);
    var c := PutRecord(d, o, ino, t - o, name, kind);
    PutLenFields(b, off, o - off);
    PutRecordFields(d, o, ino, t - o, name, kind);
    AgreeSub(d, c, 0, o, off, off + 8);
    SameHeader(d, c, off);
    AgreeSub(d, c, 0, o, 0, off);
    var n := off + 8 + NameLen(b, off);
    AgreeSub(b, d, off + 6, |b|, off + 8, n);
    AgreeSub(d, c, 0, o, off + 8, n);
    AgreeSub(b, d, off + 6, |b|, t, |b|);
    AgreeSub(d, c, o + 8 + |name|, |b|, t, |b|);
  }

  /** There is room for the new record behind the live one. */
  lemma RoomFits(b: seq<Byte>, off: nat, name: Name)
    requires Tiled(b, off) && off < |b| && Ino(b, off) != 0 && HasRoom(b, off, name)
    ensures NewOff(b, off) % 4 == 0 && off + 8 + NameLen(b, off) <= NewOff(b, off)
    ensures NewOff(b, off) + 8 + |name| <= NextOff(b, off) <= |b|
  {
    UsedFits(b, off);
    RoundUpFits(8 + |name|, 0, 0);
  }

  /** What splitting leaves of the old record and writes as the new one. */
  lemma SplitFields(b: seq<Byte>, off: nat, ino: nat, name: Name, kind: Byte)
    requires |b| <= 32768 && HeaderOk(b, off) && Ino(b, off) != 0
    requires 0 < ino < 0x1_0000_0000 && |name| < 256 && HasRoom(b, off, name)
    requires off + 8 + NameLen(b, off) <= NewOff(b, off) && NewOff(b, off) + 8 + |name| <= NextOff(b, off) <= |b|
    ensures Split(b, AddAt(b, off, ino, name, kind), off, NewOff(b, off), NextOff(b, off), ino, name, kind)
  {
    CutAndPut(b, off, NewOff(b, off), NextOff(b, off), ino, name, kind);
    AddAtSplits(b, off, ino, name, kind);
  }

  lemma AddAtSplits(b: seq<Byte>, off: nat, ino: nat, name: Name, kind: Byte)
    requires HeaderOk(b, off) && Ino(b, off) != 0 && |name| < 256 && HasRoom(b, off, name)
    requires off + 8 <= NewOff(b, off) && NewOff(b, off) + 8 + |name| <= NextOff(b, off) <= |b|
    ensures var o, t := NewOff(b, off), NextOff(b, off);
            AddAt(b, off, ino, name, kind) == PutRecord(PutLen(b, off, o - off), o, ino, t - o, name, kind)
  {
  }

  /** From `off` on, once the entry is written over the empty record there. */
  lemma AddedOver(b: seq<Byte>, off: nat, ino: nat, name: Name, kind: Byte, e: Ent)
    requires |b| <= 32768 && Tiled(b, off) && off < |b| && Ino(b, off) == 0
    requires 0 < ino < 0x1_0000_0000 && |name| < 256 && HasRoom(b, off, name)
    ensures var c := AddAt(b, off, ino, name, kind);
            && Agree(b, c, 0, off) && Tiled(c, off)
            && (In(c, off, e) <==> In(b, NextOff(b, off), e) || e == Ent(off, ino, name, kind))
  {
    var c := AddAt(b, off, ino, name, kind);
    RoundUpFits(8 + |name|, 0, 0);
    PutRecordFields(b, off, ino, RecLen(b, off), name, kind);
    AgreeSub(b, c, off + 8 + |name|, |b|, NextOff(b, off), |b|);
    TailRecord(b, c, off, NextOff(b, off), ino, name, kind, e);
  }

  /** From `off` on, once the live record there is cut and the entry follows it. */
  lemma AddedAfter(b: seq<Byte>, off: nat, ino: nat, name: Name, kind: Byte, e: Ent)
    requires |b| <= 32768 && Tiled(b, off) && off < |b| && Ino(b, off) != 0
    requires 0 < ino < 0x1_0000_0000 && |name| < 256 && HasRoom(b, off, name)
    ensures var c := AddAt(b, off, ino, name, kind);
            && Agree(b, c, 0, off) && Tiled(c, off)
            && (In(c, off, e) <==>
                 Here(b, off, e) || e == Ent(NewOff(b, off), ino, name, kind) || In(b, NextOff(b, off), e))
  {
    var c := AddAt(b, off, ino, name, kind);
    RoomFits(b, off, name);
    SplitFields(b, off, ino, name, kind);
    TailRecord(b, c, NewOff(b, off), NextOff(b, off), ino, name, kind, e);
    ResizedRecord(b, c, off, e);
    ConsRecord(c, off, NewOff(b, off), e);
  }

  /** dir_add inside a block: the tiling stays and exactly one entry appears. */
  lemma AddAtOk(b: seq<Byte>, off: nat, ino: nat, name: Name, kind: Byte, e: Ent)
    requires |b| <= 32768 && Tiled(b, 0) && Boundary(b, 0, off) && off < |b|
    requires HeaderOk(b, off) && 0 < ino < 0x1_0000_0000 && |name| < 256 && HasRoom(b, off, name)
    ensures var c := AddAt(b, off, ino, name, kind);
            Tiled(c, 0) && (In(c, 0, e) <==> In(b, 0, e) || e == Ent(NewOff(b, off), ino, name, kind))
  {
    InSplit(b, 0, off, e);
    if Ino(b, off) == 0 {
      AddedOver(b, off, ino, name, kind, e);
    } else {
      AddedAfter(b, off, ino, name, kind, e);
    }
    Rewritten(b, AddAt(b, off, ino, name, kind), off, e);
  }

  /**
    Room for a name: `used` bytes for the record's own header and name, if it is live, and `need` for the new ones, each
    rounded up to a multiple of 4. The new record takes all the rest.
   */
  lemma RoomIs(b: seq<Byte>, off: nat, ino: nat, name: Name, kind: Byte, used: nat, need: nat)
    requires |b| <= 32768 && HeaderOk(b, off) && off % 4 == 0 && 0 < ino < 0x1_0000_0000 && |name| < 256
    requires used % 4 == 0 && need % 4 == 0 && 8 + |name| <= need < 12 + |name|
    requires if Ino(b, off) == 0 then used == 0 else 8 + NameLen(b, off) <= used < 12 + NameLen(b, off)
    ensures HasRoom(b, off, name) <==> RecLen(b, off) - used >= need
    ensures HasRoom(b, off, name) ==>
              var c := AddAt(b, off, ino, name, kind);
              && Ino(c, off + used) == ino && RecLen(c, off + used) == RecLen(b, off) - used
              && (Ino(b, off) != 0 ==> RecLen(c, off) == used)
  {
    assert RoundUp4(8 + |name|) == need;
    if Ino(b, off) != 0 {
      assert RoundUp4(8 + NameLen(b, off)) == used;
    }
    if HasRoom(b, off, name) {
      if Ino(b, off) == 0 {
        PutRecordFields(b, off, ino, RecLen(b, off), name, kind);
      } else {
        SplitFields(b, off, ino, name, kind);
      }
    }
  }

  // ----- Removing an entry in a block -----

  /** Clears the first record, or lets the previous record absorb this one. */
  function RemoveAt(b: seq<Byte>, prev: nat, off: nat): (c: seq<Byte>)
    requires HeaderOk(b, off) && HeaderOk(b, prev)
    ensures |c| == |b|
  {
    if prev == off then PutWord(b, off, 0) else PutLen(b, prev, RecLen(b, prev) + RecLen(b, off))
  }

  lemma ClearedHere(b: seq<Byte>, off: nat, e: Ent)
    requires Tiled(b, off) && off < |b|
    ensures var c := RemoveAt(b, off, off);
            Agree(b, c, 0, off) && Tiled(c, off) && (In(c, off, e) <==> In(b, NextOff(b, off), e))
  {
    var c := RemoveAt(b, off, off);
    var v := ToLe(0, 4);
    Powers();
    LeRoundTrip(0, 4);
    PutSlices(b, off, v, 0, off);
    PutSlices(b, off, v, off + 4, off + 6);
    PutSlices(b, off, v, NextOff(b, off), |b|);
    assert Ino(c, off) == 0 && RecLen(c, off) == RecLen(b, off);
    SuffixSame(b, c, NextOff(b, off), e);
  }

  lemma AbsorbedHere(b: seq<Byte>, prev: nat, e: Ent)
    requires |b| <= 32768 && Tiled(b, prev) && prev < |b| && NextOff(b, prev) < |b|
    requires HeaderOk(b, NextOff(b, prev)) && Tiled(b, NextOff(b, NextOff(b, prev)))
    ensures var off := NextOff(b, prev);
            var c := RemoveAt(b, prev, off);
            Agree(b, c, 0, prev) && Tiled(c, prev) &&
              (In(c, prev, e) <==> Here(b, prev, e) || In(b, NextOff(b, off), e))
  {
    var off := NextOff(b, prev);
    var c := RemoveAt(b, prev, off);
    var len := RecLen(b, prev) + RecLen(b, off);
    PutLenFields(b, prev, len);
    AgreeSub(b, c, prev + 6, |b|, prev + len, |b|);
    SuffixSame(b, c, prev + len, e);
    if Ino(b, prev) != 0 {
      AgreeSub(b, c, prev + 6, |b|, prev + 8, prev + 8 + NameLen(b, prev));
    }
    ResizedRecord(b, c, prev, e);
    ConsRecord(c, prev, prev + len, e);
  }

  /** dir_remove inside a block: the tiling stays and exactly the entry at `off` is gone. */
  lemma RemoveAtOk(b: seq<Byte>, prev: nat, off: nat, e: Ent)
    requires |b| <= 32768 && Tiled(b, 0) && Boundary(b, 0, prev) && off < |b| && HeaderOk(b, off)
    requires HeaderOk(b, prev) && Ino(b, off) != 0
    requires if prev == off then off == 0 else off == NextOff(b, prev)
    ensures var c := RemoveAt(b, prev, off);
            Tiled(c, 0) && (In(c, 0, e) <==> In(b, 0, e) && !Here(b, off, e))
  {
    var c := RemoveAt(b, prev, off);
    InSplit(b, 0, prev, e);
    if prev == off {
      ClearedHere(b, off, e);
    } else {
      AbsorbedHere(b, prev, e);
    }
    Rewritten(b, c, prev, e);
    if Here(b, off, e) {
      GoneOnce(b, prev, off, e);
    }
  }

  /** The entry at `off` is neither before it nor after it. */
  lemma GoneOnce(b: seq<Byte>, prev: nat, off: nat, e: Ent)
    requires Tiled(b, 0) && Boundary(b, 0, prev) && Tiled(b, off) && off < |b| && prev <= off && Here(b, off, e)
    requires prev < off ==> HeaderOk(b, prev)
    ensures !InUpto(b, 0, prev, e) && !In(b, NextOff(b, off), e) && (prev < off ==> !Here(b, prev, e))
  {
    if InUpto(b, 0, prev, e) {
      InUptoBefore(b, 0, prev, e);
    }
    if In(b, NextOff(b, off), e) {
      InFrom(b, NextOff(b, off), e);
    }
  }

  // ----- Scanning a block -----

  lemma {:induction false} UptoStep(b: seq<Byte>, o: nat, off: nat, e: Ent)
    requires Boundary(b, o, off) && HeaderOk(b, off)
    ensures Boundary(b, o, NextOff(b, off))
    ensures InUpto(b, o, NextOff(b, off), e) <==> InUpto(b, o, off, e) || Here(b, off, e)
    decreases off - o
  {
    BoundaryStep(b, o, off);
    if o < off {
      UptoStep(b, NextOff(b, o), off, e);
    }
  }

  /** The records before `off` do not carry `name`. */
  ghost predicate NotBefore(b: seq<Byte>, off: nat, name: Name) {
    Boundary(b, 0, off) && forall e :: InUpto(b, 0, off, e) ==> e.name != name
  }

  lemma NotBeforeStep(b: seq<Byte>, off: nat, name: Name)
    requires NotBefore(b, off, name) && HeaderOk(b, off)
    requires Ino(b, off) == 0 || NameOf(b, off) != name
    ensures NotBefore(b, NextOff(b, off), name)
  {
    BoundaryStep(b, 0, off);
    forall e | InUpto(b, 0, NextOff(b, off), e) ensures e.name != name {
      UptoStep(b, 0, off, e);
    }
  }

  /** The first live record named `name`, and the record before it (itself when it is first). */
  method FindRecord(b: seq<Byte>, name: Name) returns (found: bool, prev: nat, off: nat)
    requires Tiled(b, 0)
    ensures found ==> Boundary(b, 0, prev) && HeaderOk(b, prev) && HeaderOk(b, off) && off < |b|
    ensures found ==>
              Ino(b, off) != 0 && NameOf(b, off) == name && In(b, 0, Ent(off, Ino(b, off), name, TypeOf(b, off)))
    ensures found ==> if prev == off then off == 0 else off == NextOff(b, prev)
    ensures !found ==> forall e :: In(b, 0, e) ==> e.name != name
  {
    found, prev, off := false, 0, 0;
    while off + 8 <= |b|
      invariant Tiled(b, off) && off <= |b| && NotBefore(b, off, name)
      invariant Boundary(b, 0, prev) && (if prev == off then off == 0 else HeaderOk(b, prev) && off == NextOff(b, prev))
      decreases |b| - off
    {
      if Ino(b, off) != 0 && NameOf(b, off) == name {
        InSplit(b, 0, off, Ent(off, Ino(b, off), name, TypeOf(b, off)));
        return true, prev, off;
      }
      NotBeforeStep(b, off, name);
      prev := off;
      off := NextOff(b, off);
    }
    forall e | In(b, 0, e) ensures e.name != name {
      InSplit(b, 0, off, e);
    }
  }

  predicate Real(name: Name) {
    name != DOT && name != DOT_DOT
  }

  /** The records before `off` are free or carry "." or "..". */
  ghost predicate DotsBefore(b: seq<Byte>, off: nat) {
    Boundary(b, 0, off) && forall e :: InUpto(b, 0, off, e) ==> !Real(e.name)
  }

  lemma DotsBeforeStep(b: seq<Byte>, off: nat)
    requires DotsBefore(b, off) && HeaderOk(b, off)
    requires Ino(b, off) == 0 || !Real(NameOf(b, off))
    ensures DotsBefore(b, NextOff(b, off))
  {
    BoundaryStep(b, 0, off);
    forall e | InUpto(b, 0, NextOff(b, off), e) ensures !Real(e.name) {
      UptoStep(b, 0, off, e);
    }
  }

  /** count_cb over one block: a live record other than "." and "..". */
  method FindReal(b: seq<Byte>) returns (found: bool, ghost e: Ent)
    requires Tiled(b, 0)
    ensures found ==> In(b, 0, e) && Real(e.name)
    ensures !found ==> forall f :: In(b, 0, f) ==> !Real(f.name)
  {
    found, e := false, Ent(0, 0, [], 0);
    var off := 0;
    while off + 8 <= |b|
      invariant Tiled(b, off) && off <= |b| && DotsBefore(b, off)
      decreases |b| - off
    {
      if Ino(b, off) != 0 && Real(NameOf(b, off)) {
        e := Ent(off, Ino(b, off), NameOf(b, off), TypeOf(b, off));
        InSplit(b, 0, off, e);
        return true, e;
      }
      DotsBeforeStep(b, off);
      off := NextOff(b, off);
    }
    forall f | In(b, 0, f) ensures !Real(f.name) {
      InSplit(b, 0, off, f);
    }
  }

  /** Some record from `off` on has room for `name`. */
  ghost predicate RoomFrom(b: seq<Byte>, off: nat, name: Name)
    decreases |b| - off
  {
    off + 8 <= |b| && HeaderOk(b, off) &&
      (HasRoom(b, off, name) || (off < NextOff(b, off) && RoomFrom(b, NextOff(b, off), name)))
  }

  /** The first record with room for `name`. */
  method FindRoom(b: seq<Byte>, name: Name) returns (found: bool, off: nat)
    requires Tiled(b, 0)
    ensures found ==> Boundary(b, 0, off) && off < |b| && HeaderOk(b, off) && HasRoom(b, off, name)
    ensures found <==> RoomFrom(b, 0, name)
  {
    found, off := false, 0;
    while off + 8 <= |b|
      invariant Tiled(b, off) && off <= |b| && Boundary(b, 0, off) && (RoomFrom(b, 0, name) <==> RoomFrom(b, off, name))
      decreases |b| - off
    {
      if HasRoom(b, off, name) {
        return true, off;
      }
      BoundaryStep(b, 0, off);
      off := NextOff(b, off);
    }
  }

  /** A block that holds one record over its whole length: the first entry of a fresh directory block. */
  function Solo(bs: nat, ino: nat, name: Name, kind: Byte): (b: seq<Byte>)
    requires 8 + |name| <= bs && |name| < 256
    ensures |b| == bs
  {
    PutRecord(Zeros(bs), 0, ino, bs, name, kind)
  }

  lemma SoloOk(bs: nat, ino: nat, name: Name, kind: Byte, e: Ent)
    requires 8 + |name| <= bs <= 32768 && bs % 4 == 0 && |name| < 256 && 0 < ino < 0x1_0000_0000
    ensures Tiled(Solo(bs, ino, name, kind), 0)
    ensures In(Solo(bs, ino, name, kind), 0, e) <==> e == Ent(0, ino, name, kind)
  {
    var b := Solo(bs, ino, name, kind);
    PutRecordFields(Zeros(bs), 0, ino, bs, name, kind);
    assert Tiled(b, bs) && Agree(b, b, bs, bs);
    TailRecord(b, b, 0, bs, ino, name, kind, e);
  }

  const DOT: Name := ['.' as int]
  const DOT_DOT: Name := ['.' as int, '.' as int]

  /** The first block of a new directory: "." and "..". */
  function DotBlock(bs: nat, self: nat, parent: nat, kind: Byte): (b: seq<Byte>)
    requires 64 <= bs
    ensures |b| == bs
  {
    PutRecord(PutRecord(Zeros(bs), 0, self, 12, DOT, kind), 12, parent, bs - 12, DOT_DOT, kind)
  }

  lemma DotBlockOk(bs: nat, self: nat, parent: nat, kind: Byte, e: Ent)
    requires 64 <= bs <= 32768 && bs % 4 == 0 && 0 < self < 0x1_0000_0000 && 0 < parent < 0x1_0000_0000
    ensures var b := DotBlock(bs, self, parent, kind);
            Tiled(b, 0) && (In(b, 0, e) <==> e == Ent(0, self, DOT, kind) || e == Ent(12, parent, DOT_DOT, kind))
  {
    var d := PutRecord(Zeros(bs), 0, self, 12, DOT, kind);
    var b := DotBlock(bs, self, parent, kind);
    PutRecordFields(Zeros(bs), 0, self, 12, DOT, kind);
    PutRecordFields(d, 12, parent, bs - 12, DOT_DOT, kind);
    assert Tiled(b, bs) && Agree(b, b, bs, bs);
    TailRecord(b, b, 12, bs, parent, DOT_DOT, kind, e);
    AgreeSub(d, b, 0, 12, 0, 8);
    SameHeader(d, b, 0);
    AgreeSub(d, b, 0, 12, 8, 9);
    assert NameOf(b, 0) == DOT;
    ConsRecord(b, 0, 12, e);
  }
}
