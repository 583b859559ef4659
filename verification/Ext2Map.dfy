/**
  How src/ext2.c maps a file's logical blocks onto the disk: twelve direct
  pointers, a single-indirect and a double-indirect block, all of them blocks of
  little-endian words; and how read_file turns that into bytes.

  A pointer to no block is 0. Triple indirection is not supported by the code.
 */
module Ext2Map {
  import opened Types
  import opened Ext2Dir
  import Arith

  type Block = seq<Byte>
  type Disk = map<nat, Block>

  datatype Kind = Unused | Regular | Directory

  datatype Inode = Inode(kind: Kind, size: nat, links: nat, blocks: nat, ptr: seq<nat>)

  /** The places of an inode's block tree that can hold a pointer. */
  datatype Slot = Direct(n: nat) | Ind | Single(k: nat) | Dbl | Mid(k: nat) | Double(k: nat, j: nat)

  function Word(disk: Disk, b: nat, k: nat): nat {
    if b != 0 && b in disk then WordAt(disk[b], k) else 0
  }

  function SlotPtr(ino: Inode, disk: Disk, s: Slot): nat {
    if |ino.ptr| != 15 then 0
    else match s
      case Direct(n) => if n < 12 then ino.ptr[n] else 0
      case Ind => ino.ptr[12]
      case Single(k) => Word(disk, ino.ptr[12], k)
      case Dbl => ino.ptr[13]
      case Mid(k) => Word(disk, ino.ptr[13], k)
      case Double(k, j) => Word(disk, Word(disk, ino.ptr[13], k), j)
  }

  /** The slot of logical block `n`, with `per` words in a block. */
  function DataSlot(per: nat, n: nat): Slot
    requires per > 0
  {
    if n < 12 then Direct(n)
    else if n - 12 < per then Single(n - 12)
    else Double((n - 12 - per) / per, (n - 12 - per) % per)
  }

  /** block_of: the disk block of logical block `n0`, 0 for a hole or out of range. */
  function BlockOf(ino: Inode, disk: Disk, per: nat, n0: nat): nat
    requires |ino.ptr| == 15 && per > 0
  {
    if n0 < 12 then ino.ptr[n0]
    else
      var n := n0 - 12;
      if n < per then
        if ino.ptr[12] != 0 then Word(disk, ino.ptr[12], n) else 0
      else
        var m := n - per;
        if m < per * per && ino.ptr[13] != 0 then
          var dbl := Word(disk, ino.ptr[13], m / per);
          if dbl != 0 then Word(disk, dbl, m % per) else 0
        else 0
  }

  /** Every block is `4 * per` bytes. */
  predicate Sized(disk: Disk, per: nat) {
    forall b :: b in disk ==> |disk[b]| == 4 * per
  }

  lemma BlockOfIsSlot(ino: Inode, disk: Disk, per: nat, n: nat)
    requires |ino.ptr| == 15 && per > 0 && Sized(disk, per)
    ensures BlockOf(ino, disk, per, n) == SlotPtr(ino, disk, DataSlot(per, n))
  {
    if n >= 12 + per {
      var m := n - 12 - per;
      if m >= per * per {
        QuotientAtLeast(m, per);
        assert Word(disk, ino.ptr[13], m / per) == 0;
      }
    }
  }

  lemma QuotientAtLeast(m: nat, per: nat)
    requires per > 0 && m >= per * per
    ensures m / per >= per
  {
    Arith.NumberOf(per, m);
    if m / per < per {
      Arith.MulStep(m / per, per, per);
    }
  }

  lemma DoubleSlot(per: nat, j: nat, i: nat)
    requires i < per
    ensures DataSlot(per, 12 + per + (j * per + i)) == Double(j, i)
  {
    Arith.NumberParts(per, j, i);
  }

  // ----- map_blocks -----

  /** All `n` block numbers at once, reading each indirect block only once. */
  method MapBlocks(ino: Inode, disk: Disk, per: nat, n: nat) returns (phys: array<nat>)
    requires |ino.ptr| == 15 && per > 0 && Sized(disk, per)
    ensures fresh(phys) && phys.Length == n
    ensures forall i :: 0 <= i < n ==> phys[i] == BlockOf(ino, disk, per, i)
  {
    phys := new nat[n](_ => 0);
    for i := 0 to 12
      invariant forall k :: 0 <= k < i && k < n ==> phys[k] == ino.ptr[k]
      invariant forall k :: i <= k < n ==> phys[k] == 0
    {
      if i < n {
        phys[i] := ino.ptr[i];
      }
    }
    if n > 12 && ino.ptr[12] != 0 {
      FillRow(phys, disk, ino.ptr[12], 12, per);
    }
    assert forall k :: 0 <= k < n && k < 12 + per ==> phys[k] == BlockOf(ino, disk, per, k);
    if n > 12 + per && ino.ptr[13] != 0 {
      MapDouble(ino, disk, per, phys);
    }
    forall i | 0 <= i < n ensures phys[i] == BlockOf(ino, disk, per, i) {
      BlockOfIsSlot(ino, disk, per, i);
    }
  }

  /** The words of indirect block `b`, copied to `phys` from index `base`. */
  method FillRow(phys: array<nat>, disk: Disk, b: nat, base: nat, per: nat)
    requires base <= phys.Length
    modifies phys
    ensures forall k :: base <= k < phys.Length && k < base + per ==> phys[k] == Word(disk, b, k - base)
    ensures forall k :: 0 <= k < phys.Length && !(base <= k < base + per) ==> phys[k] == old(phys[k])
  {
    var i := 0;
    while i < per && base + i < phys.Length
      invariant 0 <= i <= per && base + i <= phys.Length
      invariant forall k :: base <= k < base + i ==> phys[k] == Word(disk, b, k - base)
      invariant forall k :: 0 <= k < phys.Length && !(base <= k < base + i) ==> phys[k] == old(phys[k])
    {
      phys[base + i] := Word(disk, b, i);
      i := i + 1;
    }
  }

  /** Rows `[0, j)` of the double-indirect tree are in place, the rest is still zero. */
  ghost predicate RowsDone(phys: seq<nat>, ino: Inode, disk: Disk, per: nat, j: nat)
    requires per > 0
  {
    forall k {:trigger phys[k]} :: 12 + per <= k < |phys| ==>
      phys[k] == if k < 12 + per + j * per then SlotPtr(ino, disk, DataSlot(per, k)) else 0
  }

  method MapDouble(ino: Inode, disk: Disk, per: nat, phys: array<nat>)
    requires |ino.ptr| == 15 && per > 0 && Sized(disk, per) && ino.ptr[13] != 0
    requires RowsDone(phys[..], ino, disk, per, 0)
    modifies phys
    ensures forall k :: 0 <= k < phys.Length && k < 12 + per ==> phys[k] == old(phys[k])
    ensures forall k :: 12 + per <= k < phys.Length ==> phys[k] == SlotPtr(ino, disk, DataSlot(per, k))
  {
    var j := 0;
    while j < per
      invariant 0 <= j <= per && RowsDone(phys[..], ino, disk, per, j)
      invariant forall k :: 0 <= k < phys.Length && k < 12 + per ==> phys[k] == old(phys[k])
    {
      var base := 12 + per + j * per;
      if base >= phys.Length {
        RowsPast(phys[..], ino, disk, per, j);
        return;
      }
      var l2 := Word(disk, ino.ptr[13], j);
      ghost var before := phys[..];
      if l2 != 0 {
        FillRow(phys, disk, l2, base, per);
      }
      RowFilled(before, phys[..], ino, disk, per, j);
      j := j + 1;
    }
    RowsPast(phys[..], ino, disk, per, per);
  }

  lemma RowFilled(p: seq<nat>, p': seq<nat>, ino: Inode, disk: Disk, per: nat, j: nat)
    requires |ino.ptr| == 15 && per > 0 && RowsDone(p, ino, disk, per, j) && |p'| == |p|
    requires var base := 12 + per + j * per;
             var l2 := Word(disk, ino.ptr[13], j);
             && (forall k :: base <= k < |p| && k < base + per ==>
                p'[k] == if l2 != 0 then Word(disk, l2, k - base) else p[k])
             && (forall k :: 0 <= k < |p| && !(base <= k < base + per) ==> p'[k] == p[k])
    ensures RowsDone(p', ino, disk, per, j + 1)
  {
    var base := 12 + per + j * per;
    assert (j + 1) * per == j * per + per;
    forall k | base <= k < |p'| && k < base + per ensures p'[k] == SlotPtr(ino, disk, DataSlot(per, k)) {
      DoubleSlot(per, j, k - base);
    }
  }

  /** Past the last row only zeros are left, and only zeros belong there. */
  lemma RowsPast(p: seq<nat>, ino: Inode, disk: Disk, per: nat, j: nat)
    requires |ino.ptr| == 15 && per > 0 && Sized(disk, per) && RowsDone(p, ino, disk, per, j)
    requires |p| <= 12 + per + j * per || j == per
    ensures forall k :: 12 + per <= k < |p| ==> p[k] == SlotPtr(ino, disk, DataSlot(per, k))
  {
    forall k | 12 + per <= k < |p| ensures p[k] == SlotPtr(ino, disk, DataSlot(per, k)) {
      if k >= 12 + per + j * per {
        QuotientAtLeast(k - 12 - per, per);
      }
    }
  }

  // ----- read_file -----

  /** Logical block `n` as a reader sees it: a hole reads as zeros. */
  function Chunk(ino: Inode, disk: Disk, per: nat, n: nat): (c: Block)
    requires |ino.ptr| == 15 && per > 0 && Sized(disk, per)
    ensures |c| == 4 * per
  {
    var b := BlockOf(ino, disk, per, n);
    if b != 0 && b in disk then disk[b] else Zeros(4 * per)
  }

  /** The length of `k` blocks. */
  function Span(bs: nat, k: nat): nat {
    if k == 0 then 0 else Span(bs, k - 1) + bs
  }

  lemma {:induction false} SpanIsProduct(bs: nat, k: nat)
    ensures Span(bs, k) == k * bs
  {
    if k > 0 {
      SpanIsProduct(bs, k - 1);
      assert k * bs == (k - 1) * bs + bs;
    }
  }

  function Chunks(ino: Inode, disk: Disk, per: nat, k: nat): (c: seq<Byte>)
    requires |ino.ptr| == 15 && per > 0 && Sized(disk, per)
    ensures |c| == Span(4 * per, k)
  {
    if k == 0 then [] else Chunks(ino, disk, per, k - 1) + Chunk(ino, disk, per, k - 1)
  }

  function CeilDiv(a: nat, b: nat): nat
    requires b > 0
  {
    (a + b - 1) / b
  }

  lemma CeilBounds(a: nat, b: nat)
    requires b > 0
    ensures a <= CeilDiv(a, b) * b < a + b
    ensures CeilDiv(a, b) == a / b + (if a % b > 0 then 1 else 0)
  {
    Arith.NumberOf(b, a);
    var q, r := a / b, a % b;
    if r > 0 {
      Arith.NumberParts(b, q + 1, r - 1);
      assert (q + 1) * b + (r - 1) == a + b - 1;
    } else {
      Arith.NumberParts(b, q, b - 1);
    }
  }

  /** The file's contents: its blocks one after the other, cut to its size. */
  function FileBytes(ino: Inode, disk: Disk, per: nat): (c: seq<Byte>)
    requires |ino.ptr| == 15 && per > 0 && Sized(disk, per)
    ensures |c| == ino.size
  {
    CeilBounds(ino.size, 4 * per);
    SpanIsProduct(4 * per, CeilDiv(ino.size, 4 * per));
    Chunks(ino, disk, per, CeilDiv(ino.size, 4 * per))[..ino.size]
  }

  /** The device transfer of `n` consecutive blocks. */
  function RunBytes(disk: Disk, b: nat, n: nat): seq<Byte>
    requires forall i :: b <= i < b + n ==> i in disk
  {
    if n == 0 then [] else RunBytes(disk, b, n - 1) + disk[b + n - 1]
  }

  /** A physically contiguous run of logical blocks reads as those blocks do. */
  lemma {:induction false} RunIsChunks(ino: Inode, disk: Disk, per: nat, i: nat, b: nat, n: nat)
    requires |ino.ptr| == 15 && per > 0 && Sized(disk, per) && b > 0
    requires forall k :: i <= k < i + n ==> BlockOf(ino, disk, per, k) == b + (k - i)
    requires forall k :: b <= k < b + n ==> k in disk
    ensures Chunks(ino, disk, per, i + n) == Chunks(ino, disk, per, i) + RunBytes(disk, b, n)
  {
    if n > 0 {
      RunIsChunks(ino, disk, per, i, b, n - 1);
      assert BlockOf(ino, disk, per, i + n - 1) == b + n - 1;
    }
  }

  /** Every block the inode maps can be read. */
  ghost predicate Readable(ino: Inode, disk: Disk, per: nat)
    requires |ino.ptr| == 15 && per > 0
  {
    forall n: nat {:trigger BlockOf(ino, disk, per, n)} ::
      BlockOf(ino, disk, per, n) != 0 ==> BlockOf(ino, disk, per, n) in disk
  }

  /** Whole blocks, then what is left of the last one. */
  lemma FileBytesParts(ino: Inode, disk: Disk, per: nat, full: nat, rem: nat)
    requires |ino.ptr| == 15 && per > 0 && Sized(disk, per)
    requires rem < 4 * per && ino.size == full * (4 * per) + rem
    ensures FileBytes(ino, disk, per) ==
            Chunks(ino, disk, per, full) + (if rem > 0 then Chunk(ino, disk, per, full)[..rem] else [])
  {
    var bs := 4 * per;
    CeilBounds(ino.size, bs);
    Arith.NumberParts(bs, full, rem);
    SpanIsProduct(bs, full);
    var whole := Chunks(ino, disk, per, full);
    if rem > 0 {
      assert Chunks(ino, disk, per, full + 1) == whole + Chunk(ino, disk, per, full);
    }
  }

  /** The blocks of a contiguous run can all be read. */
  lemma RunReadable(ino: Inode, disk: Disk, per: nat, i: nat, b: nat, n: nat)
    requires |ino.ptr| == 15 && per > 0 && Readable(ino, disk, per) && b > 0
    requires forall k :: i <= k < i + n ==> BlockOf(ino, disk, per, k) == b + (k - i)
    ensures forall k :: b <= k < b + n ==> k in disk
  {
    forall k | b <= k < b + n ensures k in disk {
      assert BlockOf(ino, disk, per, i + (k - b)) == k;
    }
  }

  /** read_file: whole blocks in coalesced runs, then the partial tail. */
  method ReadFile(ino: Inode, disk: Disk, per: nat) returns (out: seq<Byte>)
    requires |ino.ptr| == 15 && per > 0 && Sized(disk, per) && Readable(ino, disk, per)
    ensures out == FileBytes(ino, disk, per)
  {
    var bs := 4 * per;
    CeilBounds(ino.size, bs);
    var nblocks, full, rem := CeilDiv(ino.size, bs), ino.size / bs, ino.size % bs;
    var phys := MapBlocks(ino, disk, per, nblocks);
    out := ReadWhole(ino, disk, per, phys, full);
    Arith.NumberOf(bs, ino.size);
    FileBytesParts(ino, disk, per, full, rem);
    if rem > 0 {
      if phys[full] == 0 {
        out := out + Zeros(rem);
      } else {
        out := out + disk[phys[full]][..rem];
      }
    }
  }

  method ReadWhole(ino: Inode, disk: Disk, per: nat, phys: array<nat>, full: nat) returns (out: seq<Byte>)
    requires |ino.ptr| == 15 && per > 0 && Sized(disk, per) && Readable(ino, disk, per)
    requires full <= phys.Length && forall i :: 0 <= i < full ==> phys[i] == BlockOf(ino, disk, per, i)
    ensures out == Chunks(ino, disk, per, full)
  {
    out := [];
    var i := 0;
    while i < full
      invariant 0 <= i <= full && out == Chunks(ino, disk, per, i)
    {
      if phys[i] == 0 {
        out := out + Zeros(4 * per);
        i := i + 1;
      } else {
        var run := RunLength(phys, i, full);
        RunReadable(ino, disk, per, i, phys[i], run);
        RunIsChunks(ino, disk, per, i, phys[i], run);
        out := out + RunBytes(disk, phys[i], run);
        i := i + run;
      }
    }
  }

  /** The longest run from `i` of consecutive block numbers, below `full`. */
  method RunLength(phys: array<nat>, i: nat, full: nat) returns (run: nat)
    requires i < full <= phys.Length
    ensures 1 <= run <= full - i
    ensures forall k :: i <= k < i + run ==> phys[k] == phys[i] + (k - i)
    ensures i + run < full ==> phys[i + run] != phys[i] + run
  {
    run := 1;
    while i + run < full && phys[i + run] == phys[i] + run
      invariant 1 <= run <= full - i
      invariant forall k :: i <= k < i + run ==> phys[k] == phys[i] + (k - i)
    {
      run := run + 1;
    }
  }

  // ----- What write_file puts in a file's blocks -----

  /** A block of the data from byte `lo`, padded with zeros. */
  function PieceAt(data: seq<Byte>, bs: nat, lo: nat): (p: Block)
    ensures |p| == bs
  {
    if lo >= |data| then Zeros(bs)
    else if lo + bs <= |data| then data[lo..lo + bs]
    else data[lo..] + Zeros(lo + bs - |data|)
  }

  function Piece(data: seq<Byte>, bs: nat, m: nat): (p: Block)
    ensures |p| == bs
  {
    PieceAt(data, bs, Span(bs, m))
  }

  lemma JoinPiece(data: seq<Byte>, bs: nat, lo: nat)
    requires lo < |data|
    ensures var n := if lo + bs <= |data| then lo + bs else |data|;
            (data[..lo] + PieceAt(data, bs, lo))[..n] == data[..n]
  {
    if lo + bs <= |data| {
      assert data[..lo] + data[lo..lo + bs] == data[..lo + bs];
    } else {
      assert data[..lo] + data[lo..] == data;
    }
  }

  lemma {:induction false} PiecesJoin(ino: Inode, disk: Disk, per: nat, data: seq<Byte>, k: nat)
    requires |ino.ptr| == 15 && per > 0 && Sized(disk, per)
    requires forall m: nat {:trigger Chunk(ino, disk, per, m)} :: m < k ==>
             Chunk(ino, disk, per, m) == Piece(data, 4 * per, m)
    requires k == 0 || Span(4 * per, k - 1) < |data|
    ensures var n := if Span(4 * per, k) <= |data| then Span(4 * per, k) else |data|;
            n <= |Chunks(ino, disk, per, k)| && Chunks(ino, disk, per, k)[..n] == data[..n]
  {
    if k > 0 {
      var lo := Span(4 * per, k - 1);
      PiecesJoin(ino, disk, per, data, k - 1);
      assert Chunks(ino, disk, per, k - 1) == data[..lo];
      assert Chunk(ino, disk, per, k - 1) == PieceAt(data, 4 * per, lo);
      JoinPiece(data, 4 * per, lo);
    }
  }

  /** `data` as far as `k` blocks go, then zeros. */
  function Torn(data: seq<Byte>, bs: nat, k: nat): (t: seq<Byte>)
    ensures |t| == |data|
  {
    var n := Span(bs, k);
    if n >= |data| then data else data[..n] + Zeros(|data| - n)
  }

  lemma {:induction false} SpanGrows(bs: nat, j: nat, k: nat)
    requires j <= k
    ensures Span(bs, j) <= Span(bs, k)
  {
    if j < k {
      SpanGrows(bs, j, k - 1);
    }
  }

  lemma TornPiece(data: seq<Byte>, bs: nat, k: nat, m: nat)
    ensures Piece(Torn(data, bs, k), bs, m) == if m < k then Piece(data, bs, m) else Zeros(bs)
  {
    if m < k {
      SpanGrows(bs, m + 1, k);
    } else {
      SpanGrows(bs, k, m);
    }
    TornPieceAt(data, bs, k, Span(bs, m));
  }

  lemma TornPieceAt(data: seq<Byte>, bs: nat, k: nat, lo: nat)
    requires lo + bs <= Span(bs, k) || Span(bs, k) <= lo
    ensures PieceAt(Torn(data, bs, k), bs, lo) == if lo + bs <= Span(bs, k) then PieceAt(data, bs, lo) else Zeros(bs)
  {
    var t := Torn(data, bs, k);
    if Span(bs, k) < |data| && lo < |data| {
      if lo + bs <= Span(bs, k) {
        assert t[lo..lo + bs] == data[lo..lo + bs];
      } else if lo + bs <= |data| {
        assert t[lo..lo + bs] == Zeros(bs);
      } else {
        assert t[lo..] + Zeros(lo + bs - |data|) == Zeros(bs);
      }
    }
  }

  /** A file whose blocks are the pieces of `data` reads as `data`. */
  lemma PiecesRead(ino: Inode, disk: Disk, per: nat, data: seq<Byte>)
    requires |ino.ptr| == 15 && per > 0 && Sized(disk, per) && ino.size == |data|
    requires forall m: nat {:trigger Chunk(ino, disk, per, m)} ::
               m < CeilDiv(|data|, 4 * per) ==> Chunk(ino, disk, per, m) == Piece(data, 4 * per, m)
    ensures FileBytes(ino, disk, per) == data
  {
    var bs := 4 * per;
    var k := CeilDiv(|data|, bs);
    CeilBounds(|data|, bs);
    SpanIsProduct(bs, k);
    PiecesJoin(ino, disk, per, data, k);
    assert data[..|data|] == data;
  }
}
