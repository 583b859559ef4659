/**
  The operations of src/ext2.c on a mounted volume. `fs` is the state the code
  reads and writes; `h` is what it stands for. The in-memory copies of inodes that
  an operation works on are local variables, written back with WriteInode.
 */
module Ext2Fs {
  import opened Types
  import opened Ext2Dir
  import opened Ext2Map
  import opened Ext2Own
  import opened Ext2Alloc
  import opened Arith
  import opened Ext2Core
  import opened Ext2Links
  import opened Ext2Path

  /** The inode table on disk agrees with the live inodes, except those in `out`, held in memory. */
  ghost predicate OnDisk(fs: Fs, h: Ghost, out: set<nat>) {
    forall i {:trigger h.tbl[i]} :: i in h.tbl && i !in out ==> i in fs.inodes && fs.inodes[i] == h.tbl[i]
  }

  /** An inode number is in use exactly when it is live, reserved or in `extra`. */
  ghost predicate Numbered(g: Geo, fs: Fs, h: Ghost, extra: set<nat>) {
    forall i: nat {:trigger InoUsed(g, fs.inos, i)} :: InoUsed(g, fs.inos, i) <==>
      i in h.tbl || i in g.special || i in extra
  }

  ghost predicate Owned(h: Ghost) {
    forall b {:trigger h.own[b]} :: b in h.own ==> h.own[b].ino in h.tbl
  }

  ghost predicate OwnsNothing(own: Own, i: nat) {
    forall b {:trigger own[b]} :: b in own ==> own[b].ino != i
  }

  datatype Op = Put(path: seq<Byte>, data: seq<Byte>) | MkDir(path: seq<Byte>) | Rm(path: seq<Byte>)

  /** No removal of "." or "..". */
  ghost predicate Sensible(op: Op) {
    op.Rm? && Components(op.path) != [] ==> Real(Last(Components(op.path)))
  }

  /** What an operation that succeeded left at its path. */
  ghost predicate Did(g: Geo, fs: Fs, h: Ghost, op: Op) {
    match op
    case Put(path, data) => |data| < 0x1_0000_0000 ==> ContentsIn(g, fs, h, path) == Some(data)
    case MkDir(path) => FreshDir(h, FindIn(h, path))
    case Rm(path) => FindIn(h, path) == 0
  }

  class Volume {
    const g: Geo
    var fs: Fs
    ghost var h: Ghost

    ghost predicate Synced(out: set<nat>)
      reads this
    {
      OnDisk(fs, h, out)
    }

    ghost predicate InosExact()
      reads this
    {
      Numbered(g, fs, h, {})
    }

    ghost predicate OwnersLive()
      reads this
    {
      Owned(h)
    }

    /** The volume between operations. */
    ghost predicate Valid()
      reads this
    {
      Core(g, fs, h) && LinksOk(g, h.tbl, h.names, h.up) && Synced({}) && InosExact() && OwnersLive()
    }

    /** A volume as mounted: `h` is what it stands for. */
    constructor (g: Geo, fs: Fs, ghost h: Ghost)
      requires Core(g, fs, h) && LinksOk(g, h.tbl, h.names, h.up) && OnDisk(fs, h, {}) && Numbered(g, fs, h, {})
      requires Owned(h)
      ensures Valid() && this.g == g && this.fs == fs && this.h == h
    {
      this.g, this.fs, this.h := g, fs, h;
    }

    /** alloc_block: a zeroed block that nobody owned, 0 when the disk is full. */
    method AllocBlock() returns (b: nat)
      requires Core(g, fs, h)
      modifies `fs
      ensures Core(g, fs, h)
      ensures b == 0 ==> fs == old(fs) && fs.blocks.total == 0
      ensures b != 0 ==> fs.blocks.total == old(fs.blocks.total) - 1
      ensures b != 0 ==> Ownable(g, fs, b) && b !in h.own && !BlockUsed(g, old(fs.blocks), b)
      ensures b != 0 ==> fs.disk == old(fs.disk)[b := Zeros(4 * g.per)]
      ensures fs == old(fs).(blocks := fs.blocks, disk := fs.disk) && Grows(g, old(fs.blocks), fs.blocks)
      ensures SameBut(g, old(fs), h, fs, h, {})
      ensures b != 0 ==> TookBlock(g, old(fs.blocks), fs.blocks, b)
    {
      var p', r := Allocate(fs.blocks, g.bpg);
      if r < 0 {
        SameButRefl(g, fs, h, fs, h, {});
        return 0;
      }
      b := g.first + r;
      TakenBelow(p', g.bpg, r);
      assert BlockUsed(g, p', b);
      assert !BlockUsed(g, fs.blocks, b);
      assert b != 0 && b !in g.reserved;
      assert b in fs.disk by {
        assert Storable(g, b);
      }
      OwnedBlock(g, fs, h.own, b);
      forall c: nat ensures BlockUsed(g, p', c) <==> BlockUsed(g, fs.blocks, c) || c == b {
        if c >= g.first {
          assert Taken(p', g.bpg, c - g.first) <==> Taken(fs.blocks, g.bpg, c - g.first) || c - g.first == r;
        }
      }
      CoreFreeWrite(g, fs, h, p', b, Zeros(4 * g.per));
      fs := fs.(blocks := p', disk := fs.disk[b := Zeros(4 * g.per)]);
      SameButWrite(g, old(fs), h, fs, h, b, Zeros(4 * g.per), {});
    }

    /** write_block to a block that no inode points to yet. */
    method WriteFresh(b: nat, v: Block)
      requires Core(g, fs, h) && b in fs.disk && b !in h.own && |v| == 4 * g.per
      modifies `fs
      ensures Core(g, fs, h) && fs == old(fs).(disk := old(fs.disk)[b := v])
      ensures SameBut(g, old(fs), h, fs, h, {})
    {
      CoreFreeWrite(g, fs, h, fs.blocks, b, v);
      SameButWrite(g, fs, h, fs.(disk := fs.disk[b := v]), h, b, v, {});
      fs := fs.(disk := fs.disk[b := v]);
    }

    /** free_block on a block of no inode: the volume stays in order exactly when it was in use, or is no block. */
    method FreeBlock(b: nat)
      requires Core(g, fs, h) && b !in h.own && b !in g.reserved
      modifies `fs
      ensures fs == old(fs).(blocks := fs.blocks)
      ensures Core(g, fs, h) <==> BlockUsed(g, old(fs.blocks), b) || !InRange(g, old(fs.blocks), b)
      ensures fs.blocks.total == old(fs.blocks.total) + if InRange(g, old(fs.blocks), b) then 1 else 0
      ensures forall c: nat :: BlockUsed(g, fs.blocks, c) <==> BlockUsed(g, old(fs.blocks), c) && c != b
    {
      if b < g.first {
        return;
      }
      var p' := Release(fs.blocks, g.bpg, b - g.first);
      forall c: nat ensures BlockUsed(g, p', c) <==> BlockUsed(g, fs.blocks, c) && c != b {
        if c >= g.first {
          assert Taken(p', g.bpg, c - g.first) <==> Taken(fs.blocks, g.bpg, c - g.first) && c - g.first != b - g.first;
        }
      }
      if BlockUsed(g, fs.blocks, b) {
        CoreRelease(g, fs, h, p', b);
      }
      fs := fs.(blocks := p');
    }

    /** The pointer of logical block `n0`, allocating the single-indirect block on demand. */
    method SetBlockOf(i: nat, ino: Inode, n0: nat, b: nat) returns (ok: bool, ino': Inode)
      requires Core(g, fs, h) && i in h.tbl && h.tbl[i] == ino && Ownable(g, fs, b) && b !in h.own
      requires ino.kind == Directory ==> n0 >= DirBlocks(ino, g.per)
      modifies `fs, `h
      ensures Core(g, fs, h) && Grows(g, old(fs.blocks), fs.blocks)
      ensures !ok ==> ino' == ino && fs == old(fs) && h == old(h)
      ensures ok ==> BlockSet(g, old(fs), old(h), fs, h, i, ino, ino', n0, b)
      ensures ok ==> Kept(g, old(fs), old(h), fs, h) && b in h.own
      ensures !ok ==> n0 >= 12 + g.per || (n0 >= 12 && fs.blocks.total == 0)
    {
      if n0 < 12 {
        ino' := SetDirectOf(i, ino, n0, b);
        return true, ino';
      }
      if n0 - 12 >= g.per {
        return false, ino;
      }
      ok, ino' := SetIndirectOf(i, ino, n0 - 12, b);
    }

    method SetDirectOf(i: nat, ino: Inode, n: nat, b: nat) returns (ino': Inode)
      requires Core(g, fs, h) && i in h.tbl && h.tbl[i] == ino && Ownable(g, fs, b) && b !in h.own
      requires n < 12 && (ino.kind == Directory ==> n >= DirBlocks(ino, g.per))
      modifies `h
      ensures Core(g, fs, h) && BlockSet(g, fs, old(h), fs, h, i, ino, ino', n, b)
      ensures Kept(g, fs, old(h), fs, h) && b in h.own
    {
      LinkDirect(g, fs, h, i, n, b);
      DirectSet(g, fs, h, i, n, b);
      ino' := Counting(WithPtr(ino, n, b), g.per);
      h := h.(own := h.own[b := Role(i, Direct(n))], tbl := h.tbl[i := ino']);
    }

    method SetIndirectOf(i: nat, ino: Inode, n: nat, b: nat) returns (ok: bool, ino': Inode)
      requires Core(g, fs, h) && i in h.tbl && h.tbl[i] == ino && Ownable(g, fs, b) && b !in h.own
      requires n < g.per && (ino.kind == Directory ==> 12 + n >= DirBlocks(ino, g.per))
      modifies `fs, `h
      ensures Core(g, fs, h) && Grows(g, old(fs.blocks), fs.blocks)
      ensures !ok ==> ino' == ino && fs == old(fs) && h == old(h) && fs.blocks.total == 0
      ensures ok ==> BlockSet(g, old(fs), old(h), fs, h, i, ino, ino', 12 + n, b)
      ensures ok ==> Kept(g, old(fs), old(h), fs, h) && b in h.own
    {
      ok, ino' := EnsureInd(i, ino);
      if !ok {
        return;
      }
      ghost var fs1, h1, ino1 := fs, h, ino';
      ino' := SetSingleOf(i, ino', n, b);
      KeptTrans(g, old(fs), old(h), fs1, h1, fs, h);
      ReadyThenSet(g, old(fs), old(h), fs1, h1, fs, h, i, ino, ino1, ino', 12 + n, b);
    }

    /** `tmp[n] = blk` in the single-indirect block. */
    method SetSingleOf(i: nat, ino: Inode, n: nat, b: nat) returns (ino': Inode)
      requires Core(g, fs, h) && i in h.tbl && h.tbl[i] == ino && Ownable(g, fs, b) && b !in h.own
      requires n < g.per && |ino.ptr| == 15 && ino.ptr[12] != 0
      requires ino.kind == Directory ==> 12 + n >= DirBlocks(ino, g.per)
      modifies `fs, `h
      ensures Core(g, fs, h) && fs.blocks == old(fs.blocks)
      ensures BlockSet(g, old(fs), old(h), fs, h, i, ino, ino', 12 + n, b)
      ensures Kept(g, old(fs), old(h), fs, h) && b in h.own
    {
      LinkSingle(g, fs, h, i, n, b);
      SingleSet(g, fs, h, i, n, b);
      ino' := Counting(ino, g.per);
      fs := fs.(disk := WithWord(fs.disk, ino.ptr[12], n, b));
      h := h.(own := h.own[b := Role(i, Single(n))], tbl := h.tbl[i := ino']);
    }

    /** The single-indirect block, allocated when there is none. */
    method EnsureInd(i: nat, ino: Inode) returns (ok: bool, ino': Inode)
      requires Core(g, fs, h) && i in h.tbl && h.tbl[i] == ino
      modifies `fs, `h
      ensures Core(g, fs, h) && Grows(g, old(fs.blocks), fs.blocks)
      ensures !ok ==> ino' == ino && fs == old(fs) && h == old(h) && fs.blocks.total == 0
      ensures ok ==> IndReady(g, old(fs), old(h), fs, h, i, ino, ino') && Kept(g, old(fs), old(h), fs, h)
      ensures ok ==> forall b :: Ownable(g, old(fs), b) && b !in old(h.own) ==>
                       Ownable(g, fs, b) && b !in h.own && fs.disk[b] == old(fs.disk)[b]
    {
      ok, ino' := true, ino;
      if ino.ptr[12] == 0 {
        var ind := AllocBlock();
        if ind == 0 {
          return false, ino;
        }
        LinkInd(g, fs, h, i, ind);
        IndSet(g, old(fs), fs, h, i, ind);
        ino' := Counting(WithPtr(ino, 12, ind), g.per);
        h := h.(own := h.own[ind := Role(i, Ind)], tbl := h.tbl[i := ino']);
      } else {
        assert h.tbl[i := ino] == h.tbl;
        SameButRefl(g, fs, h, fs, h, {i});
      }
    }

    /** Inode `i` owns nothing any more, as far as the table goes. */
    ghost predicate Emptied(i: nat)
      reads this
    {
      i in h.tbl ==> h.tbl[i].kind == Regular && h.tbl[i].ptr == seq(15, _ => 0)
    }

    /** free_block on a block of the emptied inode `i`. */
    method Discard(i: nat, b: nat)
      requires Core(g, fs, h) && Emptied(i) && b in h.own && h.own[b].ino == i
      modifies `fs, `h
      ensures Core(g, fs, h) && h == old(h).(own := old(h.own) - {b}) && fs == old(fs).(blocks := fs.blocks)
      ensures forall c: nat :: BlockUsed(g, fs.blocks, c) <==> BlockUsed(g, old(fs.blocks), c) && c != b
    {
      OwnedBlock(g, fs, h.own, b);
      CoreDisown(g, fs, h, h.own - {b}, h.tbl, h.names, i);
      h := h.(own := h.own - {b});
      FreeBlock(b);
    }

    /** The blocks in the slots passed so far are free, the others still owned. */
    ghost predicate Freeing(i: nat, ino: Inode, p: Progress)
      reads this
    {
      && Core(g, fs, h) && Emptied(i) && Pending(i, ino, fs.disk, h.own, p)
      && forall s {:trigger Passed(p, s)} :: Passed(p, s) && SlotPtr(ino, fs.disk, s) != 0 ==>
           !BlockUsed(g, fs.blocks, SlotPtr(ino, fs.disk, s))
    }

    /** Frees the pointer in slot `s`, if there is one. */
    method FreeSlot(i: nat, ino: Inode, s: Slot, ghost p: Progress, ghost p': Progress)
      requires Freeing(i, ino, p) && !Passed(p, s)
      requires forall t {:trigger Passed(p', t)} :: Passed(p', t) <==> Passed(p, t) || t == s
      modifies `fs, `h
      ensures Freeing(i, ino, p') && Lost(old(h.own), h.own, i)
      ensures h == old(h).(own := h.own) && fs == old(fs).(blocks := fs.blocks)
      ensures OnlyFreed(g, old(fs.blocks), fs.blocks)
    {
      var b := SlotPtr(ino, fs.disk, s);
      assert SlotOk(i, ino, fs.disk, h.own, s);
      if b != 0 {
        Discard(i, b);
      }
      PassSlot(i, ino, fs.disk, old(h.own), h.own, p, p', s);
    }

    /** Slots that hold nothing may be passed for free. */
    lemma SkipSlots(i: nat, ino: Inode, p: Progress, p': Progress)
      requires Freeing(i, ino, p)
      requires forall t {:trigger Passed(p', t)} :: Passed(p, t) ==> Passed(p', t)
      requires forall t {:trigger Passed(p', t)} :: Passed(p', t) && !Passed(p, t) ==> SlotPtr(ino, fs.disk, t) == 0
      ensures Freeing(i, ino, p')
    {
    }

    /** free_all_blocks: every block the inode points to is freed, each of them once. */
    method FreeAllBlocks(i: nat, ino: Inode)
      requires Core(g, fs, h) && Emptied(i) && InodeOk(i, ino, fs.disk, h.own)
      modifies `fs, `h
      ensures Core(g, fs, h) && h == old(h).(own := Others(old(h.own), i)) && fs == old(fs).(blocks := fs.blocks)
      ensures Freed(g, fs.blocks, ino, fs.disk) && OnlyFreed(g, old(fs.blocks), fs.blocks)
    {
      FreeDirect(i, ino);
      FreeSingle(i, ino);
      FreeDouble(i, ino);
      forall s | SlotPtr(ino, fs.disk, s) != 0 ensures Passed(Progress(12, g.per, true, g.per, 0, true), s) {
        PassedAll(ino, fs.disk, g.per, s);
      }
      CoreDisown(g, fs, h, Others(h.own, i), h.tbl, h.names, i);
      assert Others(h.own, i) == Others(old(h.own), i);
      h := h.(own := Others(h.own, i));
    }

    method FreeDirect(i: nat, ino: Inode)
      requires Freeing(i, ino, Progress(0, 0, false, 0, 0, false))
      modifies `fs, `h
      ensures Freeing(i, ino, Progress(12, 0, false, 0, 0, false)) && Lost(old(h.own), h.own, i)
      ensures h == old(h).(own := h.own) && fs == old(fs).(blocks := fs.blocks)
      ensures OnlyFreed(g, old(fs.blocks), fs.blocks)
    {
      for k := 0 to 12
        invariant Freeing(i, ino, Progress(k, 0, false, 0, 0, false)) && Lost(old(h.own), h.own, i)
        invariant h == old(h).(own := h.own) && fs == old(fs).(blocks := fs.blocks)
        invariant OnlyFreed(g, old(fs.blocks), fs.blocks)
      {
        FreeSlot(i, ino, Direct(k), Progress(k, 0, false, 0, 0, false), Progress(k + 1, 0, false, 0, 0, false));
      }
    }

    method FreeSingle(i: nat, ino: Inode)
      requires Freeing(i, ino, Progress(12, 0, false, 0, 0, false)) && |ino.ptr| == 15
      modifies `fs, `h
      ensures Freeing(i, ino, Progress(12, g.per, true, 0, 0, false)) && Lost(old(h.own), h.own, i)
      ensures h == old(h).(own := h.own) && fs == old(fs).(blocks := fs.blocks)
      ensures OnlyFreed(g, old(fs.blocks), fs.blocks)
    {
      if ino.ptr[12] == 0 {
        SkipSlots(i, ino, Progress(12, 0, false, 0, 0, false), Progress(12, g.per, true, 0, 0, false));
        return;
      }
      for k := 0 to g.per
        invariant Freeing(i, ino, Progress(12, k, false, 0, 0, false)) && Lost(old(h.own), h.own, i)
        invariant h == old(h).(own := h.own) && fs == old(fs).(blocks := fs.blocks)
        invariant OnlyFreed(g, old(fs.blocks), fs.blocks)
      {
        FreeSlot(i, ino, Single(k), Progress(12, k, false, 0, 0, false), Progress(12, k + 1, false, 0, 0, false));
      }
      FreeSlot(i, ino, Ind, Progress(12, g.per, false, 0, 0, false), Progress(12, g.per, true, 0, 0, false));
    }

    method FreeDouble(i: nat, ino: Inode)
      requires Freeing(i, ino, Progress(12, g.per, true, 0, 0, false)) && |ino.ptr| == 15
      modifies `fs, `h
      ensures Freeing(i, ino, Progress(12, g.per, true, g.per, 0, true)) && Lost(old(h.own), h.own, i)
      ensures h == old(h).(own := h.own) && fs == old(fs).(blocks := fs.blocks)
      ensures OnlyFreed(g, old(fs.blocks), fs.blocks)
    {
      if ino.ptr[13] == 0 {
        SkipSlots(i, ino, Progress(12, g.per, true, 0, 0, false), Progress(12, g.per, true, g.per, 0, true));
        return;
      }
      for r := 0 to g.per
        invariant Freeing(i, ino, Progress(12, g.per, true, r, 0, false)) && Lost(old(h.own), h.own, i)
        invariant h == old(h).(own := h.own) && fs == old(fs).(blocks := fs.blocks)
        invariant OnlyFreed(g, old(fs.blocks), fs.blocks)
      {
        FreeRow(i, ino, r);
      }
      FreeSlot(i, ino, Dbl, Progress(12, g.per, true, g.per, 0, false), Progress(12, g.per, true, g.per, 0, true));
    }

    /** One second-level table: its entries, then the table itself. */
    method FreeRow(i: nat, ino: Inode, r: nat)
      requires Freeing(i, ino, Progress(12, g.per, true, r, 0, false)) && |ino.ptr| == 15
      modifies `fs, `h
      ensures Freeing(i, ino, Progress(12, g.per, true, r + 1, 0, false)) && Lost(old(h.own), h.own, i)
      ensures h == old(h).(own := h.own) && fs == old(fs).(blocks := fs.blocks)
      ensures OnlyFreed(g, old(fs.blocks), fs.blocks)
    {
      if SlotPtr(ino, fs.disk, Mid(r)) == 0 {
        SkipSlots(i, ino, Progress(12, g.per, true, r, 0, false), Progress(12, g.per, true, r + 1, 0, false));
        return;
      }
      for k := 0 to g.per
        invariant Freeing(i, ino, Progress(12, g.per, true, r, k, false)) && Lost(old(h.own), h.own, i)
        invariant h == old(h).(own := h.own) && fs == old(fs).(blocks := fs.blocks)
        invariant OnlyFreed(g, old(fs.blocks), fs.blocks)
      {
        FreeSlot(i, ino, Double(r, k), Progress(12, g.per, true, r, k, false),
          Progress(12, g.per, true, r, k + 1, false));
      }
      FreeMid(i, ino, r);
    }

    method FreeMid(i: nat, ino: Inode, r: nat)
      requires Freeing(i, ino, Progress(12, g.per, true, r, g.per, false)) && |ino.ptr| == 15
      modifies `fs, `h
      ensures Freeing(i, ino, Progress(12, g.per, true, r + 1, 0, false)) && Lost(old(h.own), h.own, i)
      ensures h == old(h).(own := h.own) && fs == old(fs).(blocks := fs.blocks)
      ensures OnlyFreed(g, old(fs.blocks), fs.blocks)
    {
      var b := SlotPtr(ino, fs.disk, Mid(r));
      assert SlotOk(i, ino, fs.disk, h.own, Mid(r));
      if b != 0 {
        Discard(i, b);
      }
      ghost var p, p' := Progress(12, g.per, true, r, g.per, false), Progress(12, g.per, true, r + 1, 0, false);
      PassSlot(i, ino, fs.disk, old(h.own), h.own, p, p', Mid(r));
      forall s | Passed(p', s) && !Passed(p, s) && s != Mid(r) ensures SlotPtr(ino, fs.disk, s) == 0 {
        PassedAll(ino, fs.disk, g.per, s);
      }
    }

    /** The inode that `name` names in directory `d`, 0 when there is none. */
    method DirFind(d: nat, ino: Inode, name: Name) returns (target: nat)
      requires Core(g, fs, h) && d in h.tbl && h.tbl[d] == ino && ino.kind == Directory
      ensures target == (if Key(d, name) in h.names then h.names[Key(d, name)].target else 0)
      ensures Key(d, name) in h.names ==> target != 0
    {
      if Key(d, name) in h.names {
        FoundEntry(d, ino, fs.disk, h.names, g.per, name);
      }
      var bi := 0;
      DirLoopBound(ino, g.per, bi);
      while bi * (4 * g.per) < ino.size
        invariant bi <= DirBlocks(ino, g.per) && (bi * (4 * g.per) < ino.size <==> bi < DirBlocks(ino, g.per))
        invariant Key(d, name) in h.names ==> h.names[Key(d, name)].n >= bi
        decreases DirBlocks(ino, g.per) - bi
      {
        assert BlockNames(d, ino, fs.disk, h.names, g.per, bi);
        var phys := BlockOf(ino, fs.disk, g.per, bi);
        if phys != 0 {
          var found, prev, off := FindRecord(fs.disk[phys], name);
          if found {
            target := Ino(fs.disk[phys], off);
            assert Listed(h.names, d, bi, Ent(off, target, name, TypeOf(fs.disk[phys], off)));
            return;
          }
        }
        if Key(d, name) in h.names {
          assert NameFound(ino, fs.disk, h.names, g.per, Key(d, name));
        }
        bi := bi + 1;
        DirLoopBound(ino, g.per, bi);
      }
      target := 0;
    }

    /** Block `bi` of directory `d` takes the new entry. */
    method AddInBlock(d: nat, ino: Inode, name: Name, child: nat, kind: Byte, bi: nat, off: nat)
      requires Core(g, fs, h) && d in h.tbl && h.tbl[d] == ino && ino.kind == Directory
      requires Key(d, name) !in h.names && 0 < child < 0x1_0000_0000 && |name| < 256
      requires bi < DirBlocks(ino, g.per) && BlockOf(ino, fs.disk, g.per, bi) != 0
      requires var w := BlockOf(ino, fs.disk, g.per, bi);
               && w in fs.disk && Tiled(fs.disk[w], 0) && Boundary(fs.disk[w], 0, off) && off < |fs.disk[w]|
               && HeaderOk(fs.disk[w], off) && HasRoom(fs.disk[w], off, name)
      modifies `fs, `h
      ensures Core(g, fs, h) && NameAdded(old(h), h, d, name, child, kind, ino)
      ensures fs == old(fs).(disk := fs.disk) && SameBut(g, old(fs), old(h), fs, h, {d})
    {
      var w := BlockOf(ino, fs.disk, g.per, bi);
      var v := AddAt(fs.disk[w], off, child, name, kind);
      ghost var names' := h.names[Key(d, name) := Entry(child, bi, NewOff(fs.disk[w], off), kind)];
      BlockOfRole(d, ino, fs.disk, h.own, g.per, bi);
      DirAdded(d, ino, fs.disk, h.own, h.names, g.per, bi, off, child, name, kind);
      CoreDirBlock(g, fs, h, d, ino, w, v, names');
      assert h.tbl[d := ino] == h.tbl;
      SameButWrite(g, fs, h, fs.(disk := fs.disk[w := v]), h.(names := names'), w, v, {d});
      fs := fs.(disk := fs.disk[w := v]);
      h := h.(names := names');
    }

    /** Looks for a record with room and adds the entry there. */
    method AddInPlace(d: nat, ino: Inode, name: Name, child: nat, kind: Byte) returns (done: bool)
      requires Core(g, fs, h) && d in h.tbl && h.tbl[d] == ino && ino.kind == Directory
      requires Key(d, name) !in h.names && 0 < child < 0x1_0000_0000 && |name| < 256
      modifies `fs, `h
      ensures Core(g, fs, h)
      ensures !done ==> fs == old(fs) && h == old(h) && NoSlack(ino, fs.disk, g.per, DirBlocks(ino, g.per), name)
      ensures done ==> NameAdded(old(h), h, d, name, child, kind, ino) && fs == old(fs).(disk := fs.disk)
      ensures SameBut(g, old(fs), old(h), fs, h, {d})
    {
      SameButRefl(g, fs, h, fs, h, {d});
      var bi := 0;
      DirLoopBound(ino, g.per, bi);
      while bi * (4 * g.per) < ino.size
        invariant bi <= DirBlocks(ino, g.per) && (bi * (4 * g.per) < ino.size <==> bi < DirBlocks(ino, g.per))
        invariant fs == old(fs) && h == old(h) && NoSlack(ino, fs.disk, g.per, bi, name)
        decreases DirBlocks(ino, g.per) - bi
      {
        assert BlockNames(d, ino, fs.disk, h.names, g.per, bi);
        var phys := BlockOf(ino, fs.disk, g.per, bi);
        if phys != 0 {
          var found, off := FindRoom(fs.disk[phys], name);
          if found {
            AddInBlock(d, ino, name, child, kind, bi, off);
            return true;
          }
        }
        bi := bi + 1;
        DirLoopBound(ino, g.per, bi);
      }
      done := false;
    }

    method WriteInode(i: nat, ino: Inode)
      modifies `fs
      ensures fs == old(fs).(inodes := old(fs.inodes)[i := ino])
    {
      fs := fs.(inodes := fs.inodes[i := ino]);
    }

    /** A block just mapped past the end of directory `d` gets the entry, and the size covers it. */
    method FillGrown(d: nat, ino: Inode, name: Name, child: nat, kind: Byte, blk: nat) returns (ino': Inode)
      requires Core(g, fs, h) && d in h.tbl && h.tbl[d] == ino && ino.kind == Directory
      requires Key(d, name) !in h.names && 0 < child < 0x1_0000_0000 && 0 < |name| < 256
      requires blk != 0 && BlockOf(ino, fs.disk, g.per, DirBlocks(ino, g.per)) == blk
      modifies `fs, `h
      ensures Core(g, fs, h) && NameAdded(old(h), h, d, name, child, kind, ino')
      ensures ino' == ino.(size := ino.size + 4 * g.per) && fs.inodes == old(fs.inodes)[d := ino']
      ensures fs == old(fs).(disk := fs.disk, inodes := fs.inodes) && SameBut(g, old(fs), old(h), fs, h, {d})
    {
      var n := DirBlocks(ino, g.per);
      var v := Solo(4 * g.per, child, name, kind);
      ino' := ino.(size := ino.size + 4 * g.per);
      ghost var names' := h.names[Key(d, name) := Entry(child, n, 0, kind)];
      BlockOfRole(d, ino, fs.disk, h.own, g.per, n);
      DirGrown(d, ino, fs.disk, h.own, h.names, g.per, child, name, kind);
      CoreDirBlock(g, fs, h, d, ino', blk, v, names');
      SameButWrite(g, fs, h, fs.(disk := fs.disk[blk := v]), h.(tbl := h.tbl[d := ino'], names := names'), blk, v, {d});
      fs := fs.(disk := fs.disk[blk := v]);
      h := h.(tbl := h.tbl[d := ino'], names := names');
      WriteInode(d, ino');
      SameButTransDisk(g, old(fs), old(h), fs.(inodes := old(fs.inodes)), fs, h, {d});
      CoreInodes(g, fs.(inodes := old(fs.inodes)), h, fs.inodes);
    }

    /** A new block at the end of directory `d`, holding the entry. */
    method GrowDir(d: nat, ino: Inode, name: Name, child: nat, kind: Byte) returns (done: bool, ino': Inode)
      requires Core(g, fs, h) && d in h.tbl && h.tbl[d] == ino && ino.kind == Directory
      requires Key(d, name) !in h.names && 0 < child < 0x1_0000_0000 && 0 < |name| < 256
      modifies `fs, `h
      ensures Core(g, fs, h) && fs.inos == old(fs.inos)
      ensures !done ==> h == old(h) && fs.inodes == old(fs.inodes) && ino' == ino && NoRoomLeft(g, fs, ino)
      ensures !done ==> fs.blocks.total == if old(fs.blocks.total) == 0 then 0 else old(fs.blocks.total) - 1
      ensures done ==> NameAdded(old(h).(own := h.own), h, d, name, child, kind, ino')
      ensures done ==> ino'.kind == Directory && ino'.links == ino.links && fs.inodes == old(fs.inodes)[d := ino']
      ensures OwnMore(old(h.own), h.own, d) && SameBut(g, old(fs), old(h), fs, h, {d})
      ensures done ==> Kept(g, old(fs), old(h), fs, h)
    {
      done, ino' := false, ino;
      var blk := AllocBlock();
      SameButMore(g, old(fs), h, fs, h, {}, {d});
      if blk == 0 {
        return;
      }
      ghost var fs1 := fs;
      done, ino' := MapGrown(d, ino, name, child, kind, blk);
      SameButTrans(g, old(fs), old(h), fs1, old(h), fs, h, {d});
      if done {
        KeptTook(g, old(fs), old(h), fs1, fs, h, blk);
      }
    }

    /** Maps a fresh block at the end of directory `d` and fills it. */
    method MapGrown(d: nat, ino: Inode, name: Name, child: nat, kind: Byte, blk: nat) returns (done: bool, ino': Inode)
      requires Core(g, fs, h) && d in h.tbl && h.tbl[d] == ino && ino.kind == Directory
      requires Key(d, name) !in h.names && 0 < child < 0x1_0000_0000 && 0 < |name| < 256
      requires Ownable(g, fs, blk) && blk !in h.own
      modifies `fs, `h
      ensures Core(g, fs, h) && fs.inos == old(fs.inos)
      ensures !done ==> h == old(h) && fs == old(fs) && ino' == ino && NoRoomLeft(g, fs, ino)
      ensures done ==> NameAdded(old(h).(own := h.own), h, d, name, child, kind, ino')
      ensures done ==> ino'.kind == Directory && ino'.links == ino.links && fs.inodes == old(fs.inodes)[d := ino']
      ensures OwnMore(old(h.own), h.own, d) && SameBut(g, old(fs), old(h), fs, h, {d})
      ensures done ==> Kept(g, old(fs), old(h), fs, h) && blk in h.own
    {
      SameButRefl(g, fs, h, fs, h, {d});
      done, ino' := SetBlockOf(d, ino, DirBlocks(ino, g.per), blk);
      if done {
        ghost var fs2, h2, ino2 := fs, h, ino';
        ino' := FillGrown(d, ino', name, child, kind, blk);
        GrownFilled(g, old(fs), old(h), fs2, h2, fs, h, d, ino, ino2, ino', name, child, kind, DirBlocks(ino, g.per),
          blk);
      }
    }

    /** dir_add: the entry goes into the slack of a record, over an empty one, or into a new block. */
    method DirAdd(d: nat, ino: Inode, name: Name, child: nat, kind: Byte) returns (done: bool, ino': Inode)
      requires Core(g, fs, h) && d in h.tbl && h.tbl[d] == ino && ino.kind == Directory
      requires Key(d, name) !in h.names && 0 < child < 0x1_0000_0000 && 0 < |name| < 256
      modifies `fs, `h
      ensures Core(g, fs, h) && fs.inos == old(fs.inos)
      ensures !done ==> h == old(h) && fs.inodes == old(fs.inodes) && ino' == ino && NoRoomLeft(g, fs, ino)
      ensures !done ==> fs.blocks.total == if old(fs.blocks.total) == 0 then 0 else old(fs.blocks.total) - 1
      ensures !done ==> NoSlack(ino, old(fs.disk), g.per, DirBlocks(ino, g.per), name)
      ensures done ==> NameAdded(old(h).(own := h.own), h, d, name, child, kind, ino')
      ensures done ==> ino'.kind == Directory && ino'.links == ino.links
      ensures done ==> fs.inodes == old(fs.inodes)[d := ino'] || (fs.inodes == old(fs.inodes) && ino' == ino)
      ensures OwnMore(old(h.own), h.own, d) && SameBut(g, old(fs), old(h), fs, h, {d})
      ensures done ==> Kept(g, old(fs), old(h), fs, h)
    {
      done := AddInPlace(d, ino, name, child, kind);
      ino' := ino;
      if !done {
        done, ino' := GrowDir(d, ino, name, child, kind);
      }
    }

    /** Block `bi` of directory `d` gives up the entry at `off`. */
    method RemoveInBlock(d: nat, ino: Inode, name: Name, bi: nat, prev: nat, off: nat)
      requires Core(g, fs, h) && d in h.tbl && h.tbl[d] == ino && ino.kind == Directory
      requires bi < DirBlocks(ino, g.per) && BlockOf(ino, fs.disk, g.per, bi) != 0
      requires var w := BlockOf(ino, fs.disk, g.per, bi);
               && w in fs.disk && Tiled(fs.disk[w], 0) && Boundary(fs.disk[w], 0, prev) && HeaderOk(fs.disk[w], prev)
               && off < |fs.disk[w]| && HeaderOk(fs.disk[w], off) && Ino(fs.disk[w], off) != 0
               && (if prev == off then off == 0 else off == NextOff(fs.disk[w], prev))
               && In(fs.disk[w], 0, Ent(off, Ino(fs.disk[w], off), name, TypeOf(fs.disk[w], off))) &&
                  NameOf(fs.disk[w], off) == name
      modifies `fs, `h
      ensures Core(g, fs, h) && h == old(h).(names := old(h.names) - {Key(d, name)})
      ensures fs == old(fs).(disk := fs.disk) && SameBut(g, old(fs), old(h), fs, h, {d})
    {
      var w := BlockOf(ino, fs.disk, g.per, bi);
      var v := RemoveAt(fs.disk[w], prev, off);
      BlockOfRole(d, ino, fs.disk, h.own, g.per, bi);
      DirRemoved(d, ino, fs.disk, h.own, h.names, g.per, bi, prev, off, name);
      CoreDirBlock(g, fs, h, d, ino, w, v, h.names - {Key(d, name)});
      assert h.tbl[d := ino] == h.tbl;
      SameButWrite(g, fs, h, fs.(disk := fs.disk[w := v]), h.(names := h.names - {Key(d, name)}), w, v, {d});
      fs := fs.(disk := fs.disk[w := v]);
      h := h.(names := h.names - {Key(d, name)});
    }

    /** dir_remove: exactly the entry of `name` is gone. */
    method DirRemove(d: nat, ino: Inode, name: Name) returns (done: bool)
      requires Core(g, fs, h) && d in h.tbl && h.tbl[d] == ino && ino.kind == Directory
      modifies `fs, `h
      ensures Core(g, fs, h) && (done <==> Key(d, name) in old(h.names))
      ensures h == old(h).(names := old(h.names) - {Key(d, name)})
      ensures fs == old(fs).(disk := fs.disk) && SameBut(g, old(fs), old(h), fs, h, {d})
    {
      SameButRefl(g, fs, h, fs, h, {d});
      if Key(d, name) in h.names {
        FoundEntry(d, ino, fs.disk, h.names, g.per, name);
      }
      var bi := 0;
      DirLoopBound(ino, g.per, bi);
      while bi * (4 * g.per) < ino.size
        invariant bi <= DirBlocks(ino, g.per) && (bi * (4 * g.per) < ino.size <==> bi < DirBlocks(ino, g.per))
        invariant Key(d, name) in h.names ==> h.names[Key(d, name)].n >= bi
        invariant fs == old(fs) && h == old(h)
        decreases DirBlocks(ino, g.per) - bi
      {
        assert BlockNames(d, ino, fs.disk, h.names, g.per, bi);
        var phys := BlockOf(ino, fs.disk, g.per, bi);
        if phys != 0 {
          var found, prev, off := FindRecord(fs.disk[phys], name);
          if found {
            assert Listed(h.names, d, bi, Ent(off, Ino(fs.disk[phys], off), name, TypeOf(fs.disk[phys], off)));
            RemoveInBlock(d, ino, name, bi, prev, off);
            return true;
          }
        }
        if Key(d, name) in h.names {
          assert NameFound(ino, fs.disk, h.names, g.per, Key(d, name));
        }
        bi := bi + 1;
        DirLoopBound(ino, g.per, bi);
      }
      assert h.names - {Key(d, name)} == h.names;
      done := false;
    }

    /** alloc_inode: a number no live inode has, 0 when there is none left. */
    method AllocInode() returns (i: nat)
      requires Core(g, fs, h)
      modifies `fs
      ensures Core(g, fs, h) && fs == old(fs).(inos := fs.inos)
      ensures i == 0 ==> fs == old(fs) && fs.inos.total == 0
      ensures i != 0 ==> i !in h.tbl && i !in g.special && i < 0x1_0000_0000 && !InoUsed(g, old(fs.inos), i)
      ensures i != 0 ==> forall j: nat :: InoUsed(g, fs.inos, j) <==> InoUsed(g, old(fs.inos), j) || j == i
    {
      var p', r := Allocate(fs.inos, g.ipg);
      if r < 0 {
        return 0;
      }
      i := r + 1;
      TakenBelow(p', g.ipg, r);
      forall j: nat ensures InoUsed(g, p', j) <==> InoUsed(g, fs.inos, j) || j == i {
        if j >= 1 {
          assert Taken(p', g.ipg, j - 1) <==> Taken(fs.inos, g.ipg, j - 1) || j - 1 == r;
        }
      }
      LiveInode(g, fs, h, i);
      CoreInos(g, fs, h, p');
      fs := fs.(inos := p');
    }

    /** free_inode, on a number no live inode has any more; number 0 wraps past every group. */
    method FreeInode(i: nat)
      requires Core(g, fs, h) && i !in h.tbl && i !in g.special
      modifies `fs
      ensures fs == old(fs).(inos := fs.inos)
      ensures Core(g, fs, h) <==> InoUsed(g, old(fs.inos), i) || !InoInRange(g, old(fs.inos), i)
      ensures forall j: nat :: InoUsed(g, fs.inos, j) <==> InoUsed(g, old(fs.inos), j) && j != i
    {
      if i == 0 {
        return;
      }
      var p' := Release(fs.inos, g.ipg, i - 1);
      forall j: nat ensures InoUsed(g, p', j) <==> InoUsed(g, fs.inos, j) && j != i {
        if j >= 1 {
          assert Taken(p', g.ipg, j - 1) <==> Taken(fs.inos, g.ipg, j - 1) && j - 1 != i - 1;
        }
      }
      if InoUsed(g, fs.inos, i) {
        CoreInos(g, fs, h, p');
      }
      fs := fs.(inos := p');
    }

    // ----- Paths -----

    /** Where a path leads, 0 when it leads nowhere. */
    ghost function Find(path: seq<Byte>): nat
      reads this
    {
      FindIn(h, path)
    }

    /** resolve: follows the components of `path` from the root. */
    method Resolve(path: seq<Byte>) returns (i: nat)
      requires Valid()
      ensures i == Find(path) && (i != 0 ==> i in h.tbl)
    {
      i := ROOT;
      var p := 0;
      assert path[0..] == path;
      while p < |path|
        invariant 0 <= p <= |path| && i in h.tbl
        invariant Find(path) == Walk(h.tbl, h.names, i, Components(path[p..]))
        decreases |path| - p
      {
        if path[p] == SLASH {
          assert path[p..][1..] == path[p + 1..];
          p := p + 1;
        } else {
          var n := ComponentLength(path, p);
          var name := path[p..p + n];
          FirstComponent(path, p, n);
          i := Enter(i, name);
          if i == 0 {
            return;
          }
          p := p + n;
        }
      }
      assert path[p..] == [];
    }

    /** One component: the inode it names in directory `i`, 0 when there is none or `i` is a file. */
    method Enter(i: nat, name: Name) returns (next: nat)
      requires Valid() && i in h.tbl
      ensures next == (if h.tbl[i].kind == Directory && Key(i, name) in h.names then h.names[Key(i, name)].target
              else 0)
      ensures next != 0 <==> h.tbl[i].kind == Directory && Key(i, name) in h.names
      ensures next != 0 ==> next in h.tbl
    {
      var ino := fs.inodes[i];
      if ino.kind != Directory {
        return 0;
      }
      next := DirFind(i, ino, name);
      if next != 0 {
        assert KeyOk(g, h.tbl, h.names, h.up, Key(i, name));
      }
    }

    method ComponentLength(path: seq<Byte>, p: nat) returns (n: nat)
      requires p < |path| && path[p] != SLASH
      ensures n == NameEnd(path[p..]) && n > 0
    {
      n := 0;
      while p + n < |path| && path[p + n] != SLASH
        invariant p + n <= |path| && forall k :: p <= k < p + n ==> path[k] != SLASH
      {
        n := n + 1;
      }
      NameEndIs(path[p..], n);
    }

    /** resolve_parent: the directory that holds the last component of `path`. */
    method ResolveParent(path: seq<Byte>) returns (ok: bool, d: nat, ino: Inode, base: Name, ghost comps: seq<Name>)
      requires Valid()
      ensures ok ==> d in h.tbl && h.tbl[d] == ino && ino.kind == Directory && 0 < |base| < 256
      ensures ok ==> Components(path) == comps + [base] && Walk(h.tbl, h.names, ROOT, comps) == d
      ensures ok ==> Find(path) == if Key(d, base) in h.names then h.names[Key(d, base)].target else 0
      ensures !ok && Components(path) != [] && ShortEnough(path) ==> Find(path) == 0
      ensures ok ==> KeyIn(h, path) == Key(d, base)
      ensures ok <==> ShortEnough(path) && HasParent(h, path)
    {
      d, ino, base, comps := 0, Inode(Unused, 0, 0, 0, []), [], [];
      var slash, len;
      ok, slash, len := SplitPath(path);
      if !ok {
        return;
      }
      base := path[slash..len];
      comps := Components(path[..slash]);
      assert path == path[..slash] + base + path[len..];
      LastComponent(path[..slash], base, path[len..]);
      assert (comps + [base])[..|comps|] == comps;
      d := Resolve(path[..slash]);
      TargetsNotZero(g, fs, h);
      WalkLast(h.tbl, h.names, ROOT, comps, base);
      if d == 0 {
        return false, d, ino, base, comps;
      }
      ino := fs.inodes[d];
      ok := ino.kind == Directory;
    }

    /** The bytes of the regular file at `path`. */
    ghost function Contents(path: seq<Byte>): Option<seq<Byte>>
      reads this
    {
      ContentsIn(g, fs, h, path)
    }

    /** ext2_read_path. */
    method ReadPath(path: seq<Byte>) returns (r: Option<seq<Byte>>)
      requires Valid()
      ensures r == Contents(path)
    {
      var i := Resolve(path);
      if i == 0 {
        LiveInode(g, fs, h, 0);
        return None;
      }
      var ino := fs.inodes[i];
      BlocksReadable(g, fs, h, i);
      if ino.kind != Regular {
        return None;
      }
      var bytes := ReadFile(ino, fs.disk, g.per);
      r := Some(bytes);
    }

    // ----- write_file -----

    /** Allocates a block and writes piece `bi` to it. */
    method AllocPiece(i: nat, ino: Inode, data: seq<Byte>, bi: nat, ghost fs0: Fs, ghost h0: Ghost) returns (blk: nat)
      requires Filling(g, fs, h, i, ino, data, bi, fs0, h0)
      modifies `fs
      ensures Filling(g, fs, h, i, ino, data, bi, fs0, h0)
      ensures blk != 0 ==> Ownable(g, fs, blk) && blk !in h.own && fs.disk[blk] == Piece(data, 4 * g.per, bi)
      ensures blk == 0 ==> fs.blocks.total == 0 && fs == old(fs)
      ensures blk != 0 ==> TookBlock(g, old(fs.blocks), fs.blocks, blk)
    {
      blk := AllocBlock();
      if blk == 0 {
        return;
      }
      var v := Piece(data, 4 * g.per, bi);
      WriteFresh(blk, v);
      assert fs.disk == old(fs.disk)[blk := v];
      HoldsKept(g, old(fs), h, i, ino, data, bi, fs, blk, v);
      SameButWrite(g, old(fs), h, fs, h, blk, v, {i});
      SameButTrans(g, fs0, h0, old(fs), h, fs, h, {i});
    }

    /** One turn of the loop: a block is allocated, written and mapped. */
    method WritePiece(i: nat, ino: Inode, data: seq<Byte>, bi: nat, ghost fs0: Fs, ghost h0: Ghost)
      returns (ok: bool, ino': Inode)
      requires Filling(g, fs, h, i, ino, data, bi, fs0, h0)
      modifies `fs, `h
      ensures Filling(g, fs, h, i, ino', data, if ok then bi + 1 else bi, fs0, h0)
      ensures !ok ==> fs.blocks.total <= 1 || bi >= 12 + g.per
      ensures ino' == ino.(ptr := ino'.ptr, blocks := ino'.blocks) && Kept(g, old(fs), old(h), fs, h)
    {
      ino' := ino;
      var blk := AllocPiece(i, ino, data, bi, fs0, h0);
      if blk == 0 {
        return false, ino;
      }
      ghost var fs1, h1 := fs, h;
      ok, ino' := SetBlockOf(i, ino, bi, blk);
      if ok {
        KeptTook(g, old(fs), old(h), fs1, fs, h, blk);
        FillMore(g, fs1, h1, fs, h, i, ino, ino', data, bi, blk, fs0, h0);
      } else {
        FreeBlock(blk);
        SameButTransDisk(g, fs0, h0, fs1, fs, h, {i});
      }
    }

    /** Inode `i` is a live file with no blocks, held in memory; all else is as between operations. */
    ghost predicate Opened(i: nat, ino: Inode)
      reads this
    {
      && Core(g, fs, h) && LinksOk(g, h.tbl, h.names, h.up) && Synced({i}) && InosExact() && OwnersLive()
      && i in h.tbl && h.tbl[i] == ino && ino.kind == Regular && Blank(ino) && OwnsNothing(h.own, i)
    }

    /** An existing file is emptied. */
    method Truncate(i: nat) returns (ino: Inode)
      requires Valid() && i in h.tbl && h.tbl[i].kind == Regular
      modifies `fs, `h
      ensures Opened(i, ino) && h.names == old(h.names) && h.up == old(h.up) && ino.links == old(h.tbl[i].links)
      ensures h.tbl == old(h.tbl)[i := ino] && SameBut(g, old(fs), old(h), fs, h, {i})
      ensures Freed(g, fs.blocks, old(h.tbl[i]), old(fs.disk)) && NoneLost(g, old(fs.blocks), fs.blocks, h.own)
    {
      var was := fs.inodes[i];
      ino := was.(size := 0, blocks := 0, ptr := seq(15, _ => 0));
      ghost var own := h.own;
      CoreEmptied(i, was, ino);
      h := h.(tbl := h.tbl[i := ino]);
      FreeAllBlocks(i, was);
      LinksKept(g, old(h.tbl), h.tbl, h.names, h.up);
      SameButRefl(g, old(fs), old(h), fs, h, {i});
    }

    lemma CoreEmptied(i: nat, was: Inode, ino: Inode)
      requires Core(g, fs, h) && i in h.tbl && h.tbl[i] == was && was.kind == Regular
      requires ino == was.(size := 0, blocks := 0, ptr := seq(15, _ => 0))
      ensures Core(g, fs, h.(tbl := h.tbl[i := ino]))
      ensures InodeOk(i, was, fs.disk, h.own)
    {
      CoreDisown(g, fs, h, h.own, h.tbl[i := ino], h.names, i);
      assert h.(own := h.own, tbl := h.tbl[i := ino], names := h.names) == h.(tbl := h.tbl[i := ino]);
    }

    /** Number `i` is in use but not live yet; all else is as between operations, except the tree. */
    ghost predicate Reserved(i: nat)
      reads this
    {
      && Core(g, fs, h) && Synced({}) && OwnersLive() && i !in h.tbl && i !in g.special && 0 < i < 0x1_0000_0000
      && Numbered(g, fs, h, {i})
    }

    method Unreserve(i: nat)
      requires Reserved(i) && LinksOk(g, h.tbl, h.names, h.up)
      modifies `fs
      ensures Valid() && fs == old(fs).(inos := fs.inos)
    {
      assert InoUsed(g, fs.inos, i);
      FreeInode(i);
    }

    /** A fresh inode number, entered under `base` in directory `d`; 0 when either fails. */
    method Reserve(d: nat, parent: Inode, base: Name) returns (i: nat, ghost parent': Inode)
      requires Valid() && d in h.tbl && h.tbl[d] == parent && parent.kind == Directory
      requires 0 < |base| < 256 && Key(d, base) !in h.names
      modifies `fs, `h
      ensures i == 0 ==> Valid() && h == old(h) && (fs.inos.total == 0 || NoRoomLeft(g, fs, parent))
      ensures i == 0 ==> fs.blocks.total >= old(fs.blocks.total) - 1
      ensures i != 0 ==>
                Reserved(i) && NameAdded(old(h).(own := h.own), h, d, base, i, TypeByte(g, Regular), parent') &&
                parent'.kind == Directory && parent'.links == parent.links
      ensures SameBut(g, old(fs), old(h), fs, h, {d}) && (i != 0 ==> Kept(g, old(fs), old(h), fs, h))
    {
      parent' := parent;
      i := AllocInode();
      SameButRefl(g, old(fs), old(h), fs, h, {d});
      if i == 0 {
        return;
      }
      ghost var fs1 := fs;
      var done;
      done, parent' := DirAdd(d, parent, base, i, TypeByte(g, Regular));
      SameButTransDisk2(g, old(fs), fs1, old(h), fs, h, {d});
      if !done {
        ghost var fs2 := fs;
        Unreserve(i);
        SameButTransDisk(g, old(fs), old(h), fs2, fs, h, {d});
        i := 0;
      }
    }

    /** A new, empty file under a name that was free; 0 when there is no inode or no room for the name. */
    method Create(d: nat, parent: Inode, base: Name) returns (i: nat, ino: Inode)
      requires Valid() && d in h.tbl && h.tbl[d] == parent && parent.kind == Directory
      requires 0 < |base| < 256 && Key(d, base) !in h.names
      modifies `fs, `h
      ensures i == 0 ==> Valid() && h == old(h) && (fs.inos.total == 0 || NoRoomLeft(g, fs, parent))
      ensures i == 0 ==> fs.blocks.total >= old(fs.blocks.total) - 1
      ensures i != 0 ==> Opened(i, ino) && FileMade(old(h), h, Key(d, base), i)
      ensures SameBut(g, old(fs), old(h), fs, h, {d, i}) && (i != 0 ==> Kept(g, old(fs), old(h), fs, h))
    {
      ino := Inode(Regular, 0, 1, 0, seq(15, _ => 0));
      ghost var parent';
      i, parent' := Reserve(d, parent, base);
      SameButMore(g, old(fs), old(h), fs, h, {d}, {d, i});
      if i != 0 {
        Adopt(d, base, i, ino, parent', old(fs), old(h));
      }
    }

    /** The inode reserved and named becomes a live, empty file. */
    ghost method Adopt(d: nat, base: Name, i: nat, ino: Inode, parent': Inode, fs0: Fs, h0: Ghost)
      requires Reserved(i) && i !in h0.tbl && LinksOk(g, h0.tbl, h0.names, h0.up) && SameBut(g, fs0, h0, fs, h, {d, i})
      requires NameAdded(h0.(own := h.own), h, d, base, i, TypeByte(g, Regular), parent') && parent'.kind == Directory
      requires d in h0.tbl && h0.tbl[d].kind == Directory && Key(d, base) !in h0.names
      requires ino == Inode(Regular, 0, 1, 0, seq(15, _ => 0)) && parent'.links == h0.tbl[d].links
      modifies `h
      ensures Opened(i, ino) && FileMade(h0, h, Key(d, base), i)
      ensures SameBut(g, fs0, h0, fs, h, {d, i}) && h.own == old(h.own)
    {
      CoreNewFile(g, fs, h, i, ino);
      FileLinked(g, h0.tbl, h.tbl[i := ino], h0.names, h.names, h.up, Key(d, base), i);
      SameButAdded(g, fs0, h0, fs, h, h.(tbl := h.tbl[i := ino]), {d, i});
      h := h.(tbl := h.tbl[i := ino]);
    }

    /** The block loop of write_file on an empty file; it stops at the first block that cannot be had. */
    method FillFile(i: nat, ino: Inode, data: seq<Byte>, nblocks: nat) returns (ok: bool, ino': Inode, ghost done: nat)
      requires Core(g, fs, h) && i in h.tbl && h.tbl[i] == ino && ino.kind == Regular && Blank(ino)
      requires OwnsNothing(h.own, i)
      modifies `fs, `h
      ensures Filling(g, fs, h, i, ino', data, done, old(fs), old(h))
      ensures done <= nblocks && (ok <==> done == nblocks) && (!ok ==> fs.blocks.total <= 1 || done >= 12 + g.per)
      ensures ino' == ino.(ptr := ino'.ptr, blocks := ino'.blocks) && Kept(g, old(fs), old(h), fs, h)
    {
      ino', done := ino, 0;
      HoldsNothing(g, fs, h, i, ino, data);
      SameButRefl(g, fs, h, fs, h, {i});
      assert h.tbl[i := ino] == h.tbl;
      for bi := 0 to nblocks
        invariant Filling(g, fs, h, i, ino', data, bi, old(fs), old(h)) && done == bi
        invariant ino' == ino.(ptr := ino'.ptr, blocks := ino'.blocks) && Kept(g, old(fs), old(h), fs, h)
      {
        ghost var fs1, h1 := fs, h;
        ok, ino' := WritePiece(i, ino', data, bi, old(fs), old(h));
        KeptTrans(g, old(fs), old(h), fs1, h1, fs, h);
        if !ok {
          return;
        }
        done := bi + 1;
      }
      ok := true;
    }

    /** The inode gets its size and is written back. */
    method FinishFile(i: nat, ino: Inode, size: nat) returns (ino': Inode)
      requires Core(g, fs, h) && LinksOk(g, h.tbl, h.names, h.up) && Synced({i}) && InosExact() && OwnersLive()
      requires i in h.tbl && h.tbl[i] == ino && ino.kind == Regular
      modifies `fs, `h
      ensures Valid() && ino' == ino.(size := size % 0x1_0000_0000)
      ensures h == old(h).(tbl := old(h.tbl)[i := ino']) && fs == old(fs).(inodes := fs.inodes)
    {
      ino' := ino.(size := size % 0x1_0000_0000);
      CoreTouch(g, fs, h, i, ino');
      h := h.(tbl := h.tbl[i := ino']);
      LinksKept(g, old(h.tbl), h.tbl, h.names, h.up);
      CoreInodes(g, fs, h, fs.inodes[i := ino']);
      WriteInode(i, ino');
    }

    /** The block loop on an opened file: all but file `i` is as between operations. */
    method FillOpened(i: nat, ino: Inode, data: seq<Byte>, nblocks: nat)
      returns (ok: bool, ino': Inode, ghost done: nat)
      requires Opened(i, ino)
      modifies `fs, `h
      ensures Filling(g, fs, h, i, ino', data, done, old(fs), old(h)) && done <= nblocks && (ok <==> done == nblocks)
      ensures !ok ==> fs.blocks.total <= 1 || done >= 12 + g.per
      ensures Kept(g, old(fs), old(h), fs, h)
      ensures LinksOk(g, h.tbl, h.names, h.up) && Synced({i}) && InosExact() && OwnersLive() && ino'.links == ino.links
    {
      ok, ino', done := FillFile(i, ino, data, nblocks);
      LinksKept(g, old(h.tbl), h.tbl, h.names, h.up);
    }

    /** Fills the opened file `i` with `data` and closes it. */
    method WriteOpened(i: nat, ino: Inode, data: seq<Byte>) returns (ok: bool, ghost ino': Inode, ghost done: nat)
      requires Opened(i, ino)
      modifies `fs, `h
      ensures Valid() && h == old(h).(own := h.own, tbl := old(h.tbl)[i := ino']) && ino'.links == ino.links
      ensures FileWritten(g, fs, h, i, ino', data, done)
      ensures ok && |data| < 0x1_0000_0000 ==> Torn(data, 4 * g.per, done) == data
      ensures !ok ==> fs.blocks.total <= 1 || |data| > MaxFile(g.per)
      ensures SameBut(g, old(fs), old(h), fs, h, {i}) && Kept(g, old(fs), old(h), fs, h)
    {
      var nblocks := BlockCount(g.per, |data|);
      var in1;
      ok, in1, done := FillOpened(i, ino, data, nblocks);
      BlocksFor(g.per, data, done);
      ino' := CloseFile(i, in1, data, done, old(fs), old(h));
    }

    /** The file that holds `done` pieces gets its size and is written back. */
    method CloseFile(i: nat, ino: Inode, data: seq<Byte>, ghost done: nat, ghost fs0: Fs, ghost h0: Ghost)
      returns (ghost ino': Inode)
      requires Filling(g, fs, h, i, ino, data, done, fs0, h0)
      requires LinksOk(g, h.tbl, h.names, h.up) && Synced({i}) && InosExact() && OwnersLive()
      modifies `fs, `h
      ensures Valid() && h == h0.(own := h.own, tbl := h0.tbl[i := ino']) && fs.blocks == old(fs.blocks)
      ensures ino'.links == ino.links && h.own == old(h.own)
      ensures FileWritten(g, fs, h, i, ino', data, done) && SameBut(g, fs0, h0, fs, h, {i})
    {
      ino' := FinishFile(i, ino, |data|);
      WrittenFile(g, old(fs), old(h), fs, h, i, ino, ino', data, done);
      SameButThen(g, fs0, h0, old(fs), old(h), fs, h, {i});
    }

    /** The file at `path`, emptied or new; 0 when it cannot be had, with nothing else touched. */
    method OpenFile(path: seq<Byte>) returns (i: nat, ino: Inode)
      requires Valid()
      modifies `fs, `h
      ensures i == 0 ==>
                Valid() && h == old(h) && Refuses(g, fs, h, path) && fs.blocks.total >= old(fs.blocks.total) - 1
      ensures i != 0 ==> Opened(i, ino) && Find(path) == i && TreeGrows(old(h), h) && Wrote(old(h), h, path)
      ensures i != 0 ==> ShortEnough(path) && old(HasParent(h, path))
      ensures FilesSame(g, old(fs), old(h), fs, h, i)
      ensures i != 0 ==> NoneLost(g, old(fs.blocks), fs.blocks, h.own)
      ensures i != 0 && old(Find(path)) != 0 ==> Freed(g, fs.blocks, old(h.tbl[Find(path)]), old(fs.disk))
    {
      ino := Inode(Unused, 0, 0, 0, []);
      SameButRefl(g, fs, h, fs, h, {});
      var ok, d, parent, base;
      ghost var comps;
      ok, d, parent, base, comps := ResolveParent(path);
      if !ok {
        return 0, ino;
      }
      i := Enter(d, base);
      if i == 0 {
        i, ino := CreateAt(path, d, parent, base, comps);
      } else if fs.inodes[i].kind == Regular {
        ino := Truncate(i);
        FindKept(g, fs, old(h), h, comps, base, path);
      } else {
        i := 0;
      }
    }

    /** Create, where `path` leads. */
    method CreateAt(path: seq<Byte>, d: nat, parent: Inode, base: Name, ghost comps: seq<Name>)
      returns (i: nat, ino: Inode)
      requires Valid() && d in h.tbl && h.tbl[d] == parent && parent.kind == Directory
      requires 0 < |base| < 256 && Key(d, base) !in h.names
      requires Components(path) == comps + [base] && Walk(h.tbl, h.names, ROOT, comps) == d
      modifies `fs, `h
      ensures i == 0 ==> Valid() && h == old(h) && (fs.inos.total == 0 || NoRoomLeft(g, fs, parent))
      ensures i == 0 ==> fs.blocks.total >= old(fs.blocks.total) - 1
      ensures i != 0 ==>
                Opened(i, ino) && Find(path) == i && TreeGrows(old(h), h) && FileMade(old(h), h, Key(d, base), i)
      ensures FilesSame(g, old(fs), old(h), fs, h, i) && (i != 0 ==> Kept(g, old(fs), old(h), fs, h))
    {
      i, ino := Create(d, parent, base);
      if i != 0 {
        FindKept(g, fs, old(h), h, comps, base, path);
      }
    }

    /**
      write_file: the file at `path` then reads as `data`, and no other file is touched, whatever the outcome. When it
      cannot be opened nothing changes, and the reason is one of those of Refuses. When the disk fills up the file has
      its full length, with zeros from the first block that could not be had.
     */
    method WriteFile(path: seq<Byte>, data: seq<Byte>) returns (ok: bool, ghost begun: bool)
      requires Valid()
      modifies `fs, `h
      ensures Valid() && (ok ==> begun)
      ensures begun ==> Replaced(g, old(fs), old(h), fs, h, path) && ShortEnough(path) && old(HasParent(h, path))
      ensures !begun ==> NotOpened(g, old(fs), old(h), fs, h, path)
      ensures ok && |data| < 0x1_0000_0000 ==> Contents(path) == Some(data)
      ensures begun && !ok ==> TornAt(path, data) && (fs.blocks.total <= 1 || |data| > MaxFile(g.per))
    {
      var i, ino := OpenFile(path);
      begun := i != 0;
      if i == 0 {
        ok := false;
        FilesKept(g, old(fs), old(h), fs, h, 0);
        return;
      }
      ok := WriteAt(path, i, ino, data, old(fs), old(h));
    }

    /** Fills the file opened at `path`. */
    method WriteAt(path: seq<Byte>, i: nat, ino: Inode, data: seq<Byte>, ghost fs0: Fs, ghost h0: Ghost)
      returns (ok: bool)
      requires Opened(i, ino) && i != 0 && Find(path) == i && TreeGrows(h0, h) && Wrote(h0, h, path)
      requires Core(g, fs0, h0) && FilesSame(g, fs0, h0, fs, h, i) && NoneLost(g, fs0.blocks, fs.blocks, h.own)
      requires FindIn(h0, path) != 0 ==>
                 FindIn(h0, path) in h0.tbl && Freed(g, fs.blocks, h0.tbl[FindIn(h0, path)], fs0.disk)
      modifies `fs, `h
      ensures Valid() && Replaced(g, fs0, h0, fs, h, path)
      ensures ok && |data| < 0x1_0000_0000 ==> Contents(path) == Some(data)
      ensures TornAt(path, data) && (!ok ==> fs.blocks.total <= 1 || |data| > MaxFile(g.per))
    {
      ghost var fs1, h1, ino', done := fs, h, ino, 0;
      ok, ino', done := WriteOpened(i, ino, data);
      WrittenAt(g, fs0, h0, fs1, h1, fs, h, path, i, ino', data, done);
    }

    /** The file at `path` has all the bytes of `data` that some number of blocks hold, then zeros. */
    ghost predicate TornAt(path: seq<Byte>, data: seq<Byte>)
      reads this
    {
      var bs := 4 * g.per;
      |data| < 0x1_0000_0000 ==> exists k: nat {:trigger Torn(data, bs, k)} :: Contents(path) == Some(Torn(data, bs, k))
    }

    // ----- mkdir -----

    /** A fresh inode number and a block that holds "." and ".."; 0 when either is not to be had. */
    method PrepareDir(d: nat) returns (i: nat, blk: nat)
      requires Valid() && d in h.tbl
      modifies `fs
      ensures i == 0 ==> Valid() && (fs.inos.total == 0 || fs.blocks.total == 0) && fs.blocks == old(fs.blocks)
      ensures i != 0 ==> fs.blocks.total == old(fs.blocks.total) - 1 && TookBlock(g, old(fs.blocks), fs.blocks, blk)
      ensures i != 0 ==> Core(g, fs, h) && Synced({}) && Numbered(g, fs, h, {i}) && i !in h.tbl && i !in g.special
      ensures i != 0 ==> 0 < i < 0x1_0000_0000 && Ownable(g, fs, blk) && blk !in h.own
      ensures i != 0 ==> fs.disk[blk] == DotBlock(4 * g.per, i, d, TypeByte(g, Directory))
      ensures i != 0 ==> i in fs.inodes && fs.inodes[i] == FirstDir(g.per, blk)
      ensures SameBut(g, old(fs), h, fs, h, {})
    {
      blk := 0;
      i := AllocInode();
      SameButRefl(g, old(fs), h, fs, h, {});
      if i == 0 {
        return;
      }
      blk := AllocBlock();
      if blk == 0 {
        FreeInode(i);
        SameButRefl(g, old(fs), h, fs, h, {});
        i := 0;
        return;
      }
      var v := DotBlock(4 * g.per, i, d, TypeByte(g, Directory));
      WriteFresh(blk, v);
      assert fs.disk == old(fs.disk)[blk := v];
      CoreInodes(g, fs, h, fs.inodes[i := FirstDir(g.per, blk)]);
      WriteInode(i, FirstDir(g.per, blk));
      SameButWrite(g, old(fs), h, fs, h, blk, v, {});
    }

    /** The directory that PrepareDir set up, live but not named yet. */
    ghost predicate Unnamed(h0: Ghost, d: nat, i: nat, blk: nat)
      reads this
    {
      && Core(g, fs, h) && Synced({}) && InosExact() && Owned(h0) && LinksOk(g, h0.tbl, h0.names, h0.up)
      && i !in h0.tbl && blk !in h0.own && 0 < i < 0x1_0000_0000 &&
         h == Born(h0, d, i, FirstDir(g.per, blk), blk, TypeByte(g, Directory))
    }

    method NewDir(d: nat) returns (i: nat, blk: nat)
      requires Valid() && d in h.tbl
      modifies `fs, `h
      ensures i == 0 ==>
                Valid() && h == old(h) && (fs.inos.total == 0 || fs.blocks.total == 0) && fs.blocks == old(fs.blocks)
      ensures i != 0 ==> Unnamed(old(h), d, i, blk) && fs.blocks.total == old(fs.blocks.total) - 1
      ensures i != 0 ==> Kept(g, old(fs), old(h), fs, h)
      ensures SameBut(g, old(fs), old(h), fs, h, {})
    {
      i, blk := PrepareDir(d);
      if i == 0 {
        return;
      }
      LiveInode(g, fs, h, d);
      forall k: Key | k in h.names ensures k.dir != i {
        assert KeyOk(g, h.tbl, h.names, h.up, k);
      }
      CoreNewDir(g, fs, h, d, i, blk);
      SameButAdded(g, old(fs), h, fs, h, Born(h, d, i, FirstDir(g.per, blk), blk, TypeByte(g, Directory)), {});
      h := Born(h, d, i, FirstDir(g.per, blk), blk, TypeByte(g, Directory));
    }

    /** Gives the block and the inode back. */
    method DropDir(d: nat, i: nat, blk: nat, ghost h0: Ghost)
      requires Unnamed(h0, d, i, blk)
      modifies `fs, `h
      ensures Valid() && h == h0 && fs.disk == old(fs.disk) && fs.blocks.total == old(fs.blocks.total) + 1
    {
      forall k: Key | k in h0.names ensures k.dir != i {
        assert KeyOk(g, h0.tbl, h0.names, h0.up, k);
      }
      OwnedBlock(g, fs, h.own, blk);
      LiveInode(g, fs, h, i);
      CoreDisown(g, fs, h, h0.own, h0.tbl, h0.names, i);
      assert h.(own := h0.own, tbl := h0.tbl, names := h0.names) == h0;
      h := h0;
      FreeBlock(blk);
      FreeInode(i);
    }

    /** The new directory gets its name, and the parent a link for the "..". */
    method LinkDir(d: nat, parent: Inode, base: Name, i: nat, blk: nat, ghost h0: Ghost) returns (done: bool)
      requires Unnamed(h0, d, i, blk) && d in h0.tbl && h0.tbl[d] == parent && parent.kind == Directory
      requires 0 < |base| < 256 && Key(d, base) !in h0.names
      modifies `fs, `h
      ensures Valid() && (!done ==> h == h0 && Tight(g, fs, parent) && fs.blocks.total >= old(fs.blocks.total))
      ensures done ==> DirMade(h0, h, d, base, i) && LinkAdded(h0, h, d) && Kept(g, old(fs), old(h), fs, h)
      ensures done ==> i in h.tbl && Accounted(i, h.tbl[i], fs.disk, h.own, g.per)
      ensures SameBut(g, old(fs), h0, fs, h, {d})
    {
      var parent';
      done, parent' := AddDirName(d, parent, base, i, blk, h0);
      if done {
        ghost var fs1, h1 := fs, h;
        CountDir(d, parent');
        Counted(g, old(fs), h0, fs1, h1, fs, h, d, base, i, blk, parent');
      } else {
        ghost var fs2, h2 := fs, h;
        DropDir(d, i, blk, h0);
        SameButThen(g, old(fs), h0, fs2, h2, fs, h, {d});
      }
    }

    /** The parent's link for the ".." of its new directory. */
    method CountDir(d: nat, parent: Inode)
      requires Valid() && d in h.tbl && h.tbl[d] == parent && parent.kind == Directory
      modifies `fs, `h
      ensures Valid() && h == old(h).(tbl := old(h.tbl)[d := parent.(links := (parent.links + 1) % 0x1_0000)])
      ensures fs == old(fs).(inodes := fs.inodes)
    {
      TouchDir(d, parent.(links := (parent.links + 1) % 0x1_0000));
    }

    method AddDirName(d: nat, parent: Inode, base: Name, i: nat, blk: nat, ghost h0: Ghost)
      returns (done: bool, parent': Inode)
      requires Unnamed(h0, d, i, blk) && d in h0.tbl && h0.tbl[d] == parent && parent.kind == Directory
      requires 0 < |base| < 256 && Key(d, base) !in h0.names
      modifies `fs, `h
      ensures !done ==>
                Unnamed(h0, d, i, blk) && NoRoomLeft(g, fs, parent) && fs.blocks.total >= old(fs.blocks.total) - 1
      ensures done ==> Kept(g, old(fs), old(h), fs, h) && OwnsOne(h.own, i, blk)
      ensures done ==> Valid() && IsMade(g, h0, h, d, base, i, blk, parent') && parent'.kind == Directory
      ensures parent'.links == parent.links && SameBut(g, old(fs), h0, fs, h, {d})
    {
      OwnedBlock(g, fs, h.own, blk);
      done, parent' := DirAdd(d, parent, base, i, TypeByte(g, Directory));
      SameButLess(g, old(fs), old(h), h0, fs, h, {d});
      if done {
        NameDir(d, base, i, blk, parent', h0, old(fs), old(h));
      }
    }

    /** dir_add gave the new directory its name. */
    ghost method NameDir(d: nat, base: Name, i: nat, blk: nat, parent: Inode, h0: Ghost, fs1: Fs, h1: Ghost)
      requires Core(g, fs, h) && LinksOk(g, h0.tbl, h0.names, h0.up) && Owned(h0)
      requires OnDisk(fs1, h1, {}) && Numbered(g, fs1, h1, {}) && i != 0 && blk != 0 && d in h0.tbl && i !in h0.tbl
      requires h1 == Born(h0, d, i, FirstDir(g.per, blk), blk, TypeByte(g, Directory))
      requires h0.tbl[d].kind == Directory && Key(d, base) !in h0.names && parent.kind == Directory
      requires NameAdded(h1.(own := h.own), h, d, base, i, TypeByte(g, Directory), parent) && OwnMore(h1.own, h.own, d)
      requires fs.inos == fs1.inos && SameBut(g, fs1, h0, fs, h, {d})
      requires fs.inodes == fs1.inodes[d := parent] || (fs.inodes == fs1.inodes && parent == h0.tbl[d])
      modifies `h
      ensures Valid() && IsMade(g, h0, h, d, base, i, blk, parent) && h.own == old(h.own) && OwnsOne(h.own, i, blk)
      ensures SameBut(g, fs1, h0, fs, h, {d})
    {
      Named(g, fs1, h0, h1, fs, h, d, base, i, blk, parent);
      OwnsFirst(g, fs, h0, h1, h, d, i, blk);
      SetUp(Key(d, base), i, h0, fs1);
    }

    /** The tree learns the name of its new directory. */
    ghost method SetUp(k: Key, i: nat, h0: Ghost, fs0: Fs)
      requires Core(g, fs, h) && Synced({}) && InosExact() && OwnersLive() && LinksOk(g, h.tbl, h.names, h.up[i := k])
      requires SameBut(g, fs0, h0, fs, h, {k.dir})
      modifies `h
      ensures Valid() && h == old(h).(up := old(h.up)[i := k]) && SameBut(g, fs0, h0, fs, h, {k.dir})
    {
      SameButAdded(g, fs0, h0, fs, h, h.(up := h.up[i := k]), {k.dir});
      h := h.(up := h.up[i := k]);
    }

    /** A directory's inode with another link count is written back. */
    method TouchDir(d: nat, ino: Inode)
      requires Valid() && d in h.tbl && h.tbl[d].kind == Directory && ino == h.tbl[d].(links := ino.links)
      modifies `fs, `h
      ensures Valid() && h == old(h).(tbl := old(h.tbl)[d := ino]) && fs == old(fs).(inodes := old(fs.inodes)[d := ino])
    {
      CoreTouch(g, fs, h, d, ino);
      h := h.(tbl := h.tbl[d := ino]);
      LinksKept(g, old(h.tbl), h.tbl, h.names, h.up);
      CoreInodes(g, fs, h, fs.inodes[d := ino]);
      WriteInode(d, ino);
    }

    /** Inode `i` owns exactly the blocks it points to, and its `blocks` field counts them. */
    ghost predicate AccountedAt(i: nat)
      reads this
    {
      i in h.tbl && Accounted(i, h.tbl[i], fs.disk, h.own, g.per)
    }

    /** mkdir: a fresh empty directory at `path`, or nothing changes; no file is touched. */
    method Mkdir(path: seq<Byte>) returns (ok: bool)
      requires Valid()
      modifies `fs, `h
      ensures Valid() && (!ok ==> h == old(h)) && TreeGrows(old(h), h)
      ensures !ok ==> || !ShortEnough(path) || !HasParent(h, path) || Find(path) != 0
                      || fs.inos.total == 0 || Tight(g, fs, h.tbl[KeyIn(h, path).dir])
      ensures ok ==> old(Find(path)) == 0 && Find(path) !in old(h.tbl) && FreshDir(h, Find(path))
      ensures ok ==> ShortEnough(path) && old(HasParent(h, path)) && old(KeyIn(h, path) !in h.names)
      ensures ok ==> LinkAdded(old(h), h, old(KeyIn(h, path)).dir) && AccountedAt(Find(path))
      ensures ok ==> DirMade(old(h), h, old(KeyIn(h, path)).dir, old(KeyIn(h, path)).name, Find(path))
      ensures if ok then NoneLost(g, old(fs.blocks), fs.blocks, h.own) else fs.blocks.total >= old(fs.blocks.total) - 1
      ensures forall p {:trigger Contents(p)} :: old(Contents(p)).Some? ==> Contents(p) == old(Contents(p))
    {
      SameButRefl(g, fs, h, fs, h, {});
      var d, parent, base;
      ghost var comps;
      ok, d, parent, base, comps := ResolveParent(path);
      if ok {
        var i := Enter(d, base);
        ok := i == 0;
        if ok {
          ok := MakeDir(d, parent, base);
          if ok {
            TargetsNotZero(g, fs, h);
            FindKept(g, fs, old(h), h, comps, base, path);
          }
        }
      }
      LiveInode(g, old(fs), old(h), 0);
      FilesKept(g, old(fs), old(h), fs, h, 0);
    }

    method MakeDir(d: nat, parent: Inode, base: Name) returns (ok: bool)
      requires Valid() && d in h.tbl && h.tbl[d] == parent && parent.kind == Directory
      requires 0 < |base| < 256 && Key(d, base) !in h.names
      modifies `fs, `h
      ensures Valid() && FilesSame(g, old(fs), old(h), fs, h, 0)
      ensures !ok ==> h == old(h) && (fs.inos.total == 0 || Tight(g, fs, parent))
      ensures !ok ==> fs.blocks.total >= old(fs.blocks.total) - 1
      ensures ok ==> Kept(g, old(fs), old(h), fs, h)
      ensures ok ==>
                Key(d, base) in h.names && DirMade(old(h), h, d, base, h.names[Key(d, base)].target) &&
                LinkAdded(old(h), h, d) && AccountedAt(h.names[Key(d, base)].target)
    {
      var i, blk := NewDir(d);
      ok := i != 0;
      if ok {
        ghost var fs1, h1 := fs, h;
        ok := LinkDir(d, parent, base, i, blk, old(h));
        SameButJoin(g, old(fs), old(h), fs1, h1, fs, h, {d});
        if ok {
          KeptTrans(g, old(fs), old(h), fs1, h1, fs, h);
        }
      }
    }

    // ----- remove -----

    /** walk_dir with count_cb: whether directory `i` holds anything but "." and "..". */
    method IsEmptyDir(i: nat, ino: Inode) returns (empty: bool)
      requires Core(g, fs, h) && i in h.tbl && h.tbl[i] == ino && ino.kind == Directory
      ensures empty <==> EmptyDir(h.names, i)
    {
      var bi := 0;
      DirLoopBound(ino, g.per, bi);
      while bi * (4 * g.per) < ino.size
        invariant bi <= DirBlocks(ino, g.per) && (bi * (4 * g.per) < ino.size <==> bi < DirBlocks(ino, g.per))
        invariant forall k: Key :: k in h.names && k.dir == i && h.names[k].n < bi ==> !Real(k.name)
        decreases DirBlocks(ino, g.per) - bi
      {
        assert BlockNames(i, ino, fs.disk, h.names, g.per, bi);
        var phys := BlockOf(ino, fs.disk, g.per, bi);
        if phys != 0 {
          var found, e := FindReal(fs.disk[phys]);
          if found {
            assert Listed(h.names, i, bi, e);
            return false;
          }
        }
        forall k: Key | k in h.names && k.dir == i && h.names[k].n == bi ensures !Real(k.name) {
          assert NameFound(ino, fs.disk, h.names, g.per, k);
        }
        bi := bi + 1;
        DirLoopBound(ino, g.per, bi);
      }
      forall k: Key | k in h.names && k.dir == i ensures h.names[k].n < DirBlocks(ino, g.per) {
        assert NameFound(ino, fs.disk, h.names, g.per, k);
      }
      empty := true;
    }

    /** Inode `i` has lost its last name; its blocks, its table entry and its number go back. */
    method ReleaseInode(i: nat, ino: Inode)
      requires Core(g, fs, h) && LinksOk(g, h.tbl, h.names, h.up) && Synced({}) && Numbered(g, fs, h, {i})
      requires i !in h.tbl && i !in g.special && InodeOk(i, ino, fs.disk, h.own)
      requires forall b {:trigger h.own[b]} :: b in h.own ==> h.own[b].ino in h.tbl || h.own[b].ino == i
      modifies `fs, `h
      ensures Valid() && h == old(h).(own := Others(old(h.own), i)) && fs.disk == old(fs.disk)
      ensures Released(g, fs, i, ino)
      ensures OnlyFreed(g, old(fs.blocks), fs.blocks)
    {
      FreeAllBlocks(i, ino);
      CoreInodes(g, fs, h, fs.inodes[i := ZeroInode()]);
      WriteInode(i, ZeroInode());
      FreeInode(i);
    }

    /** The record of name `k` of inode `i` is gone from its block; the inode is as it was. */
    ghost predicate Cut(h0: Ghost, k: Key, i: nat, ino: Inode)
      reads this
    {
      && Core(g, fs, h) && Synced({}) && InosExact() && OwnersLive() && LinksOk(g, h0.tbl, h0.names, h0.up)
      && h == h0.(names := h0.names - {k}) && k in h0.names && h0.names[k].target == i && i in h.tbl && h.tbl[i] == ino
    }

    method ForgetDir(k: Key, i: nat, ino: Inode, ghost h0: Ghost)
      requires Cut(h0, k, i, ino) && Real(k.name) && ino.kind == Directory && EmptyDir(h0.names, i)
      modifies `fs, `h
      ensures Valid() && fs.disk == old(fs.disk) && Released(g, fs, i, ino) && k.dir != i
      ensures OnlyFreed(g, old(fs.blocks), fs.blocks) && h.own == Others(h0.own, i)
      ensures h == h0.(own := h.own, tbl := h0.tbl - {i}, names := WithoutDir(h0.names, k, i), up := h0.up - {i})
    {
      DirUnlinked(g, h.tbl, h.tbl - {i}, h0.names, h.up, k, i);
      LiveInode(g, fs, h, i);
      CoreDisown(g, fs, h, h.own, h.tbl - {i}, WithoutDir(h0.names, k, i), i);
      assert InodeOk(i, h.tbl[i], fs.disk, h.own);
      h := h.(tbl := h.tbl - {i}, names := WithoutDir(h0.names, k, i), up := h.up - {i});
      CoreUp(g, fs, h.(up := h0.up), h);
      ReleaseInode(i, ino);
    }

    method ForgetFile(k: Key, i: nat, ino: Inode, ghost h0: Ghost)
      requires Cut(h0, k, i, ino) && ino.kind == Regular && ino.links <= 1
      modifies `fs, `h
      ensures Valid() && fs.disk == old(fs.disk) && Released(g, fs, i, ino)
      ensures OnlyFreed(g, old(fs.blocks), fs.blocks) && h.own == Others(h0.own, i)
      ensures h == h0.(own := h.own, tbl := h0.tbl - {i}, names := h0.names - {k})
    {
      FileUnlinked(g, h.tbl, h.tbl - {i}, h0.names, h.up, k, i);
      LiveInode(g, fs, h, i);
      CoreDisown(g, fs, h, h.own, h.tbl - {i}, h.names, i);
      assert InodeOk(i, h.tbl[i], fs.disk, h.own);
      h := h.(tbl := h.tbl - {i});
      ReleaseInode(i, ino);
    }

    method RelinkFile(k: Key, i: nat, ino: Inode, ghost h0: Ghost)
      requires Cut(h0, k, i, ino) && ino.kind == Regular && ino.links > 1
      modifies `fs, `h
      ensures Valid() && fs.disk == old(fs.disk) && fs.blocks == old(fs.blocks)
      ensures h == h0.(tbl := h0.tbl[i := ino.(links := ino.links - 1)], names := h0.names - {k})
    {
      var ino' := ino.(links := ino.links - 1);
      FileUnlinked(g, h.tbl, h.tbl[i := ino'], h0.names, h.up, k, i);
      CoreTouch(g, fs, h, i, ino');
      h := h.(tbl := h.tbl[i := ino']);
      CoreInodes(g, fs, h, fs.inodes[i := ino']);
      WriteInode(i, ino');
    }

    /** An empty directory goes, with the link its ".." held. */
    method RemoveDir(d: nat, parent: Inode, base: Name, i: nat, ino: Inode)
      requires Valid() && d in h.tbl && h.tbl[d] == parent && parent.kind == Directory
      requires Real(base) && NameSet(h.names, h.names, Key(d, base), i)
      requires i in h.tbl && h.tbl[i] == ino && ino.kind == Directory && EmptyDir(h.names, i)
      modifies `fs, `h
      ensures Valid() && Unlinked(old(h), h, Key(d, base), i) && Released(g, fs, i, ino)
      ensures SameBut(g, old(fs), old(h), fs, h, {d, i}) && OnlyFreed(g, old(fs.blocks), fs.blocks)
      ensures h.own == Others(old(h.own), i)
    {
      var done := DirRemove(d, parent, base);
      ghost var fs1, h1 := fs, h;
      SameButMore(g, old(fs), old(h), fs1, h1, {d}, {d, i});
      ForgetDir(Key(d, base), i, ino, old(h));
      TouchDir(d, OneLinkLess(parent));
      DirGone(old(h), h, Key(d, base), i, parent);
      SameButThen(g, old(fs), old(h), fs1, h1, fs, h, {d, i});
    }

    method DropLink(k: Key, i: nat, ino: Inode, ghost h0: Ghost)
      requires Cut(h0, k, i, ino) && ino.kind == Regular
      modifies `fs, `h
      ensures Valid() && fs.disk == old(fs.disk) && (i !in h.tbl ==> Released(g, fs, i, ino))
      ensures OnlyFreed(g, old(fs.blocks), fs.blocks) && h.own == if ino.links <= 1 then Others(h0.own, i) else h0.own
      ensures if ino.links <= 1 then h == h0.(own := h.own, tbl := h0.tbl - {i}, names := h0.names - {k})
              else h == h0.(tbl := h0.tbl[i := ino.(links := ino.links - 1)], names := h0.names - {k})
    {
      var links := if ino.links > 0 then ino.links - 1 else 0;
      if links == 0 {
        ForgetFile(k, i, ino, h0);
      } else {
        RelinkFile(k, i, ino, h0);
      }
    }

    /** One name of a file goes, and the file with it when it was the last link. */
    method RemoveFile(d: nat, parent: Inode, base: Name, i: nat, ino: Inode)
      requires Valid() && d in h.tbl && h.tbl[d] == parent && parent.kind == Directory
      requires NameSet(h.names, h.names, Key(d, base), i)
      requires i in h.tbl && h.tbl[i] == ino && ino.kind == Regular
      modifies `fs, `h
      ensures Valid() && Unlinked(old(h), h, Key(d, base), i) && (i !in h.tbl ==> Released(g, fs, i, ino))
      ensures SameBut(g, old(fs), old(h), fs, h, {d, i}) && SameReads(ino, old(fs.disk), fs.disk, g.per)
      ensures OnlyFreed(g, old(fs.blocks), fs.blocks) && h.own == if ino.links <= 1 then Others(old(h.own), i)
              else old(h.own)
    {
      var done := DirRemove(d, parent, base);
      assert SameInode(g, old(fs), old(h), fs, h, i);
      ghost var fs1, h1 := fs, h;
      SameButMore(g, old(fs), old(h), fs1, h1, {d}, {d, i});
      DropLink(Key(d, base), i, ino, old(h));
      SameButThen(g, old(fs), old(h), fs1, h1, fs, h, {d, i});
    }

    /** remove: the name at `path` goes, and with it the file or empty directory; or nothing changes. */
    method Remove(path: seq<Byte>) returns (ok: bool)
      requires Valid() && (Components(path) != [] ==> Real(Last(Components(path))))
      modifies `fs, `h
      ensures Valid() && (!ok ==> h == old(h) && fs == old(fs))
      ensures ok <==>
                && ShortEnough(path) && Components(path) != []
                && old(Find(path)) != 0 && !old(FullDir(h, Find(path)))
      ensures ok ==>
                old(Find(path)) != 0 && Find(path) == 0 && Unlinked(old(h), h, old(KeyIn(h, path)), old(Find(path)))
      ensures ok ==> OnlyFreed(g, old(fs.blocks), fs.blocks)
      ensures ok ==> h.own == if old(Find(path)) in h.tbl then old(h.own) else Others(old(h.own), old(Find(path)))
      ensures ok && old(Find(path)) !in h.tbl ==> Released(g, fs, old(Find(path)), old(h.tbl[Find(path)]))
      ensures forall p {:trigger Contents(p)} :: Contents(p).Some? ==> Contents(p) == old(Contents(p))
    {
      var d, parent, base;
      ghost var comps;
      ok, d, parent, base, comps := ResolveParent(path);
      if !ok {
        return;
      }
      var i := Enter(d, base);
      if i == 0 {
        return false;
      }
      var ino := fs.inodes[i];
      if ino.kind == Directory {
        ok := IsEmptyDir(i, ino);
        if !ok {
          return;
        }
        RemoveDir(d, parent, base, i, ino);
      } else {
        RemoveFile(d, parent, base, i, ino);
      }
      assert (comps + [base])[..|comps|] == comps;
      Gone(g, old(fs), old(h), fs, h, comps, base, path, i);
      StillReads(g, old(fs), old(h), fs, h, comps, base, i);
      ok := true;
    }

    /** A file that was written where there was none and removed again leaves nothing behind. */
    method WriteThenRemove(path: seq<Byte>, data: seq<Byte>) returns (ok: bool, ghost i: nat, ghost ino: Inode)
      requires Valid() && Find(path) == 0 && (Components(path) != [] ==> Real(Last(Components(path))))
      modifies `fs, `h
      ensures Valid() && (ok ==> Released(g, fs, i, ino) && i !in old(h.tbl))
      ensures ok ==> h.names == old(h.names) && h.tbl.Keys == old(h.tbl.Keys)
    {
      ok, i := WriteNew(path, data);
      ino := ZeroInode();
      if ok {
        ino := h.tbl[i];
        RemoveNew(path, i, ino, old(h));
      }
    }

    /** A write where there was no file. */
    method WriteNew(path: seq<Byte>, data: seq<Byte>) returns (ok: bool, ghost i: nat)
      requires Valid() && Find(path) == 0
      modifies `fs, `h
      ensures Valid() && (ok ==> i == Find(path) && IsNew(old(h), h, path, i))
    {
      LiveInode(g, fs, h, 0);
      ghost var begun;
      ok, begun := WriteFile(path, data);
      i := Find(path);
    }

    /** The removal of a file just made. */
    method RemoveNew(path: seq<Byte>, ghost i: nat, ghost ino: Inode, ghost h0: Ghost)
      requires Valid() && (Components(path) != [] ==> Real(Last(Components(path))))
      requires i == Find(path) && IsNew(h0, h, path, i) && h.tbl[i] == ino
      modifies `fs, `h
      ensures Valid() && Released(g, fs, i, ino) && h.names == h0.names && h.tbl.Keys == h0.tbl.Keys && i !in h0.tbl
    {
      ghost var h1 := h;
      KeyKept(h0, h, path);
      var gone := Remove(path);
      Forgotten(h0, h1, h, path, i);
    }

    // ----- Runs -----

    method Apply(op: Op) returns (ok: bool)
      requires Valid() && Sensible(op)
      modifies `fs, `h
      ensures Valid() && (ok ==> Did(g, fs, h, op)) && (old(LinksExact(h)) ==> LinksExact(h))
    {
      match op {
        case Put(path, data) => ok := ApplyPut(path, data);
        case MkDir(path) => ok := ApplyMkDir(path);
        case Rm(path) => ok := ApplyRm(path);
      }
    }

    method ApplyPut(path: seq<Byte>, data: seq<Byte>) returns (ok: bool)
      requires Valid()
      modifies `fs, `h
      ensures Valid() && (ok ==> Did(g, fs, h, Put(path, data))) && (old(LinksExact(h)) ==> LinksExact(h))
    {
      ghost var begun;
      ok, begun := WriteFile(path, data);
      if begun && old(LinksExact(h)) {
        ExactWrote(g, old(h), h, path);
      }
    }

    method ApplyMkDir(path: seq<Byte>) returns (ok: bool)
      requires Valid()
      modifies `fs, `h
      ensures Valid() && (ok ==> Did(g, fs, h, MkDir(path))) && (old(LinksExact(h)) ==> LinksExact(h))
    {
      ok := Mkdir(path);
      if ok && old(LinksExact(h)) {
        ExactMade(g, old(h), h, path);
      }
    }

    method ApplyRm(path: seq<Byte>) returns (ok: bool)
      requires Valid() && Sensible(Rm(path))
      modifies `fs, `h
      ensures Valid() && (ok ==> Did(g, fs, h, Rm(path))) && (old(LinksExact(h)) ==> LinksExact(h))
    {
      ok := Remove(path);
      if ok && old(LinksExact(h)) {
        ExactUnlinked(g, old(h), h, old(KeyIn(h, path)), old(Find(path)));
      }
    }

    /** Any sequence of operations, whether they succeed or fail, keeps the volume consistent. */
    method Run(ops: seq<Op>) returns (results: seq<bool>)
      requires Valid() && forall op :: op in ops ==> Sensible(op)
      modifies `fs, `h
      ensures Valid() && |results| == |ops| && (old(LinksExact(h)) ==> LinksExact(h))
    {
      results := [];
      for k := 0 to |ops|
        invariant Valid() && |results| == k && (old(LinksExact(h)) ==> LinksExact(h))
      {
        assert ops[k] in ops;
        var ok := Apply(ops[k]);
        results := results + [ok];
      }
    }

    /** What was written is what is read back. */
    method WriteThenRead(path: seq<Byte>, data: seq<Byte>) returns (ok: bool, r: Option<seq<Byte>>)
      requires Valid() && |data| < 0x1_0000_0000
      modifies `fs, `h
      ensures Valid() && (ok ==> r == Some(data))
    {
      ghost var begun;
      ok, begun := WriteFile(path, data);
      r := ReadPath(path);
    }
  }

  // ----- A volume -----

  const TINY := Geo(256, 1, 2, 2, 1, {1}, {1}, true)
  const TINY_ROOT := FirstDir(256, 2)

  function TinyFs(): Fs {
    Fs(Pool([[true, true]], [0], 0), Pool([[true, true]], [0], 0), map[ROOT := TINY_ROOT],
       map[2 := DotBlock(1024, ROOT, ROOT, FT_DIR)])
  }

  const NOTHING := Ghost(map[], map[], map[], map[])

  lemma TinyCore()
    ensures Core(TINY, TinyFs(), NOTHING)
  {
  }

  /** A volume in order: a metadata block, a data block, two inode numbers, and a root directory with "." and "..". */
  method Tiny() returns (v: Volume)
    ensures fresh(v) && v.Valid() && v.h.tbl.Keys == {ROOT} && v.g == TINY
  {
    TinyCore();
    ghost var h := Born(NOTHING, ROOT, ROOT, TINY_ROOT, 2, FT_DIR);
    CoreNewDir(TINY, TinyFs(), NOTHING, ROOT, ROOT, 2);
    v := new Volume(TINY, TinyFs(), h);
  }

  /**
    What a valid volume promises, in terms of the state the code works on: the counts are those of the
    bitmaps, every block an allocated inode reaches is in use, and no block is reached twice.
   */
  lemma Consistent(v: Volume, i: nat, j: nat, s: Slot, t: Slot)
    requires v.Valid() && InoUsed(v.g, v.fs.inos, i) && i !in v.g.special && InoUsed(v.g, v.fs.inos, j)
    requires j !in v.g.special
    ensures PoolOk(v.fs.blocks, v.g.bpg) && PoolOk(v.fs.inos, v.g.ipg)
    ensures i in v.fs.inodes && j in v.fs.inodes
    ensures var p := SlotPtr(v.fs.inodes[i], v.fs.disk, s);
            p != 0 ==>
              && BlockUsed(v.g, v.fs.blocks, p) && p !in v.g.reserved
              && (p == SlotPtr(v.fs.inodes[j], v.fs.disk, t) ==> i == j && s == t)
  {
    var inoI, inoJ := v.h.tbl[i], v.h.tbl[j];
    assert SlotOk(i, inoI, v.fs.disk, v.h.own, s);
    assert SlotOk(j, inoJ, v.fs.disk, v.h.own, t);
    OwnedBlock(v.g, v.fs, v.h.own, SlotPtr(inoI, v.fs.disk, s));
  }

  /** The most that direct and single-indirect blocks can hold. */
  function MaxFile(per: nat): nat {
    Span(4 * per, 12 + per)
  }

  /** Why a file cannot be opened or a directory made at `path`: no place, no inode, or no room for the name. */
  ghost predicate Refuses(g: Geo, fs: Fs, h: Ghost, path: seq<Byte>) {
    || !ShortEnough(path) || !HasParent(h, path)
    || (FindIn(h, path) in h.tbl && h.tbl[FindIn(h, path)].kind != Regular)
    || fs.inos.total == 0 || NoRoomLeft(g, fs, h.tbl[KeyIn(h, path).dir])
  }

  /** The part of `path` before its last component leads to a directory. */
  ghost predicate HasParent(h: Ghost, path: seq<Byte>) {
    var d := KeyIn(h, path).dir;
    Components(path) != [] && d in h.tbl && h.tbl[d].kind == Directory
  }

  /** Every file reads as before. */
  ghost predicate SameContents(g: Geo, fs: Fs, h: Ghost, fs': Fs, h': Ghost) {
    forall p {:trigger ContentsIn(g, fs', h', p)} ::
      ContentsIn(g, fs, h, p).Some? ==> ContentsIn(g, fs', h', p) == ContentsIn(g, fs, h, p)
  }

  /** File `i` after `done` blocks: what they hold and then zeros, and its `blocks` field counts what it owns. */
  ghost predicate FileWritten(g: Geo, fs: Fs, h: Ghost, i: nat, ino: Inode, data: seq<Byte>, done: nat) {
    && |ino.ptr| == 15 && g.per > 0 && Sized(fs.disk, g.per) && ino.kind == Regular
    && Accounted(i, ino, fs.disk, h.own, g.per)
    && (|data| < 0x1_0000_0000 ==> FileBytes(ino, fs.disk, g.per) == Torn(data, 4 * g.per, done))
  }

  /** The blocks that a file of `n` bytes takes, as a 32-bit number. */
  function BlockCount(per: nat, n: nat): nat
    requires per > 0
  {
    CeilDiv(n, 4 * per) % 0x1_0000_0000
  }

  /** How far `done` blocks of them go. */
  lemma BlocksFor(per: nat, data: seq<Byte>, done: nat)
    requires per > 0 && done <= BlockCount(per, |data|)
    ensures done == BlockCount(per, |data|) && |data| < 0x1_0000_0000 ==> Torn(data, 4 * per, done) == data
    ensures 12 + per <= done < BlockCount(per, |data|) ==> |data| > MaxFile(per)
  {
    var n := |data|;
    var bs, c := 4 * per, CeilDiv(n, 4 * per);
    CeilSpan(n, bs, c);
    if done >= c {
      SpanGrows(bs, c, done);
    } else if 12 + per <= done {
      SpanGrows(bs, 12 + per, done);
      SpanGrows(bs, done, c - 1);
    }
    if c > 0 {
      SpanAtLeast(bs, c - 1);
    }
  }

  lemma CeilSpan(n: nat, bs: nat, c: nat)
    requires bs > 0 && c == CeilDiv(n, bs)
    ensures n <= Span(bs, c) && (c > 0 ==> Span(bs, c - 1) < n)
  {
    CeilBounds(n, bs);
    SpanIsProduct(bs, c);
  }

  lemma {:induction false} SpanAtLeast(bs: nat, k: nat)
    requires bs > 0
    ensures k <= Span(bs, k)
  {
    if k > 0 {
      SpanAtLeast(bs, k - 1);
    }
  }

  lemma WrittenFile(g: Geo, fs: Fs, h: Ghost, fs': Fs, h': Ghost, i: nat, ino: Inode, ino': Inode, data: seq<Byte>,
                    done: nat)
    requires GeoOk(g, fs) && Holds(g, fs, h, i, ino, data, done) && fs'.disk == fs.disk && h'.own == h.own
    requires ino' == ino.(size := |data| % 0x1_0000_0000) && ino.kind == Regular
    ensures FileWritten(g, fs', h', i, ino', data, done)
  {
    forall b | b in h.own && h.own[b].ino == i ensures SlotPtr(ino', fs'.disk, h.own[b].slot) == b {
      assert SlotPtr(ino, fs.disk, h.own[b].slot) == b;
    }
    if |data| < 0x1_0000_0000 {
      var torn := Torn(data, 4 * g.per, done);
      forall m: nat ensures Chunk(ino', fs'.disk, g.per, m) == Piece(torn, 4 * g.per, m) {
        TornPiece(data, 4 * g.per, done, m);
        SameBlockOf(ino, ino', fs.disk, g.per, m);
        assert m < done ==> Chunk(ino, fs.disk, g.per, m) == Piece(data, 4 * g.per, m);
        assert m >= done ==> BlockOf(ino, fs.disk, g.per, m) == 0;
      }
      PiecesRead(ino', fs'.disk, g.per, torn);
    }
  }

  ghost function FindIn(h: Ghost, path: seq<Byte>): nat {
    Walk(h.tbl, h.names, ROOT, Components(path))
  }

  ghost function ContentsIn(g: Geo, fs: Fs, h: Ghost, path: seq<Byte>): Option<seq<Byte>> {
    var i := FindIn(h, path);
    if i in h.tbl && h.tbl[i].kind == Regular && |h.tbl[i].ptr| == 15 && g.per > 0 && Sized(fs.disk, g.per) then
      Some(FileBytes(h.tbl[i], fs.disk, g.per))
    else
      None
  }

  /** Nothing that could be found before is lost or turned into something else. */
  ghost predicate TreeGrows(h: Ghost, h': Ghost) {
    && SameKinds(h.tbl, h'.tbl)
    && forall k {:trigger h.names[k]} :: k in h.names ==> k in h'.names && h'.names[k].target == h.names[k].target
  }

  /** No block that inode `ino` pointed to is in use. */
  ghost predicate Freed(g: Geo, p: Pool, ino: Inode, disk: Disk) {
    forall s {:trigger SlotPtr(ino, disk, s)} :: SlotPtr(ino, disk, s) != 0 ==> !BlockUsed(g, p, SlotPtr(ino, disk, s))
  }

  ghost predicate OnlyFreed(g: Geo, p: Pool, p': Pool) {
    forall b: nat {:trigger BlockUsed(g, p', b)} :: BlockUsed(g, p', b) ==> BlockUsed(g, p, b)
  }

  /** What inode `ino` pointed to is free, or has an owner again. */
  ghost predicate Recycled(g: Geo, p: Pool, own: Own, ino: Inode, disk: Disk) {
    forall s {:trigger SlotPtr(ino, disk, s)} ::
      var b := SlotPtr(ino, disk, s); b != 0 && BlockUsed(g, p, b) ==> b in own
  }

  lemma FreedThenKept(g: Geo, fs1: Fs, fs: Fs, h: Ghost, ino: Inode, disk: Disk)
    requires Freed(g, fs1.blocks, ino, disk) && NoneLost(g, fs1.blocks, fs.blocks, h.own)
    ensures Recycled(g, fs.blocks, h.own, ino, disk)
  {
  }

  /** Every block that came into use has an owner. */
  ghost predicate NoneLost(g: Geo, p: Pool, p': Pool, own: Own) {
    forall b: nat {:trigger BlockUsed(g, p', b)} :: BlockUsed(g, p', b) ==> BlockUsed(g, p, b) || b in own
  }

  /** Block `b` came into use, and no other. */
  ghost predicate TookBlock(g: Geo, p: Pool, p': Pool, b: nat) {
    forall c: nat {:trigger BlockUsed(g, p', c)} :: BlockUsed(g, p', c) <==> BlockUsed(g, p, c) || c == b
  }

  /** And every block that was owned still is. */
  ghost predicate Kept(g: Geo, fs: Fs, h: Ghost, fs': Fs, h': Ghost) {
    NoneLost(g, fs.blocks, fs'.blocks, h'.own) && h.own.Keys <= h'.own.Keys
  }

  lemma KeptTrans(g: Geo, fs: Fs, h: Ghost, fs1: Fs, h1: Ghost, fs2: Fs, h2: Ghost)
    requires Kept(g, fs, h, fs1, h1) && Kept(g, fs1, h1, fs2, h2)
    ensures Kept(g, fs, h, fs2, h2)
  {
    forall b: nat | BlockUsed(g, fs2.blocks, b) ensures BlockUsed(g, fs.blocks, b) || b in h2.own {
      assert BlockUsed(g, fs1.blocks, b) ==> BlockUsed(g, fs.blocks, b) || b in h1.own;
    }
  }

  lemma LostNone(g: Geo, fs: Fs, fs1: Fs, h1: Ghost, fs2: Fs, h2: Ghost)
    requires NoneLost(g, fs.blocks, fs1.blocks, h1.own) && Kept(g, fs1, h1, fs2, h2)
    ensures NoneLost(g, fs.blocks, fs2.blocks, h2.own)
  {
    forall b: nat | BlockUsed(g, fs2.blocks, b) ensures BlockUsed(g, fs.blocks, b) || b in h2.own {
      assert BlockUsed(g, fs1.blocks, b) ==> BlockUsed(g, fs.blocks, b) || b in h1.own;
    }
  }

  /**
    The file at `path` was opened and written: one file with one link more, or only the inode that was there changed.
    Its `blocks` field counts what it owns, no block is lost, and every other file reads as before.
   */
  ghost predicate Replaced(g: Geo, fs: Fs, h: Ghost, fs': Fs, h': Ghost, path: seq<Byte>) {
    var i := FindIn(h', path);
    && TreeGrows(h, h') && Wrote(h, h', path) && i != 0 && i in h'.tbl &&
       Accounted(i, h'.tbl[i], fs'.disk, h'.own, g.per)
    && NoneLost(g, fs.blocks, fs'.blocks, h'.own)
    && (FindIn(h, path) != 0 ==> i in h.tbl && Recycled(g, fs'.blocks, h'.own, h.tbl[i], fs.disk))
    && forall p {:trigger ContentsIn(g, fs', h', p)} :: ContentsIn(g, fs, h, p).Some? && FindIn(h, p) != i ==>
         ContentsIn(g, fs', h', p) == ContentsIn(g, fs, h, p)
  }

  /** The file at `path` could not be opened, and all is as it was but for a block that a directory may have lost. */
  ghost predicate NotOpened(g: Geo, fs: Fs, h: Ghost, fs': Fs, h': Ghost, path: seq<Byte>) {
    h' == h && Refuses(g, fs', h', path) && SameContents(g, fs, h, fs', h') && fs'.blocks.total >= fs.blocks.total - 1
  }

  /** The file opened at `path` was filled and closed. */
  lemma WrittenAt(g: Geo, fs0: Fs, h0: Ghost, fs1: Fs, h1: Ghost, fs: Fs, h: Ghost, path: seq<Byte>, i: nat, ino: Inode,
                  data: seq<Byte>, done: nat)
    requires Core(g, fs0, h0) && i != 0 && i in h1.tbl && h1.tbl[i].kind == Regular && FindIn(h1, path) == i
    requires TreeGrows(h0, h1) && Wrote(h0, h1, path) && FilesSame(g, fs0, h0, fs1, h1, i)
    requires NoneLost(g, fs0.blocks, fs1.blocks, h1.own) && Kept(g, fs1, h1, fs, h) && SameBut(g, fs1, h1, fs, h, {i})
    requires h == h1.(own := h.own, tbl := h1.tbl[i := ino]) && ino.links == h1.tbl[i].links
    requires FileWritten(g, fs, h, i, ino, data, done)
    requires FindIn(h0, path) != 0 ==>
               FindIn(h0, path) in h0.tbl && Freed(g, fs1.blocks, h0.tbl[FindIn(h0, path)], fs0.disk)
    ensures Replaced(g, fs0, h0, fs, h, path)
    ensures |data| < 0x1_0000_0000 ==> ContentsIn(g, fs, h, path) == Some(Torn(data, 4 * g.per, done))
  {
    if FindIn(h0, path) != 0 {
      FreedThenKept(g, fs1, fs, h, h0.tbl[FindIn(h0, path)], fs0.disk);
    }
    SameFound(g, fs, h1, h, path);
    FilesSameMore(g, fs0, h0, fs1, h1, fs, h, i);
    TreeStill(h0, h1, h, i, ino);
    FilesKept(g, fs0, h0, fs, h, i);
    WroteMore(h0, h1, h, path, ino);
    LostNone(g, fs0, fs1, h1, fs, h);
  }

  lemma TreeStill(h0: Ghost, h1: Ghost, h: Ghost, i: nat, ino: Inode)
    requires TreeGrows(h0, h1) && i in h1.tbl && h == h1.(own := h.own, tbl := h1.tbl[i := ino])
    requires ino.kind == h1.tbl[i].kind
    ensures TreeGrows(h0, h)
  {
    forall j | j in h0.tbl ensures j in h.tbl && h.tbl[j].kind == h0.tbl[j].kind {
      assert h1.tbl[j].kind == h0.tbl[j].kind;
    }
  }

  /** A block that was taken and then got its owner. */
  lemma KeptTook(g: Geo, fs: Fs, h: Ghost, fs1: Fs, fs2: Fs, h2: Ghost, b: nat)
    requires TookBlock(g, fs.blocks, fs1.blocks, b) && Kept(g, fs1, h, fs2, h2) && b in h2.own
    ensures Kept(g, fs, h, fs2, h2)
  {
    forall c: nat | BlockUsed(g, fs2.blocks, c) ensures BlockUsed(g, fs.blocks, c) || c in h2.own {
      assert BlockUsed(g, fs1.blocks, c) ==> BlockUsed(g, fs.blocks, c) || c == b;
    }
  }

  /** File `i`, with one link, was made under `k`: one name and one inode more, and nothing else but the directory. */
  ghost predicate FileMade(h: Ghost, h': Ghost, k: Key, i: nat) {
    && k !in h.names && NameSet(h.names, h'.names, k, i) && i !in h.tbl && h'.up == h.up
    && h'.tbl.Keys == h.tbl.Keys + {i} && h'.tbl[i].kind == Regular && h'.tbl[i].links == 1 && k.dir in h.tbl
    && h'.tbl[k.dir] == h.tbl[k.dir].(size := h'.tbl[k.dir].size, blocks := h'.tbl[k.dir].blocks,
       ptr := h'.tbl[k.dir].ptr)
    && forall j {:trigger h.tbl[j]} :: j in h.tbl && j != k.dir ==> h'.tbl[j] == h.tbl[j]
  }

  /** What a write does to the tree: a new file with one link under a name that was free, or only the inode changes. */
  ghost predicate Wrote(h: Ghost, h': Ghost, path: seq<Byte>) {
    var i := FindIn(h', path);
    if FindIn(h, path) == 0 then FileMade(h, h', KeyIn(h, path), i)
    else
      && i == FindIn(h, path) && i in h.tbl && i in h'.tbl
      && h' == h.(own := h'.own, tbl := h.tbl[i := h'.tbl[i]]) && h'.tbl[i].kind == h.tbl[i].kind
      && h'.tbl[i].links == h.tbl[i].links
  }

  lemma WroteMore(h: Ghost, h1: Ghost, h2: Ghost, path: seq<Byte>, ino: Inode)
    requires Wrote(h, h1, path)
    requires var i := FindIn(h1, path);
             && FindIn(h2, path) == i && i in h1.tbl && h2 == h1.(own := h2.own, tbl := h1.tbl[i := ino])
             && ino.kind == h1.tbl[i].kind && ino.links == h1.tbl[i].links
    ensures Wrote(h, h2, path)
  {
    var i := FindIn(h1, path);
    if FindIn(h, path) == 0 {
      forall j | j in h.tbl && j != KeyIn(h, path).dir ensures h2.tbl[j] == h.tbl[j] {
        assert h1.tbl[j] == h.tbl[j];
      }
    } else {
      assert h.tbl[i := h1.tbl[i]][i := ino] == h.tbl[i := ino];
    }
  }

  /** Every regular file but `i` is the same inode with the same contents. */
  ghost predicate FilesSame(g: Geo, fs: Fs, h: Ghost, fs': Fs, h': Ghost, i: nat) {
    forall j {:trigger SameInode(g, fs, h, fs', h', j)} :: j in h.tbl && j != i && h.tbl[j].kind == Regular ==>
      SameInode(g, fs, h, fs', h', j)
  }

  /** The last component of `path` still leads where the name map says. */
  lemma FindKept(g: Geo, fs: Fs, h: Ghost, h': Ghost, comps: seq<Name>, base: Name, path: seq<Byte>)
    requires TreeGrows(h, h') && Components(path) == comps + [base]
    requires Core(g, fs, h') && LinksOk(g, h'.tbl, h'.names, h'.up)
    requires var d := Walk(h.tbl, h.names, ROOT, comps);
             d in h.tbl && d != 0 && h.tbl[d].kind == Directory && Key(d, base) in h'.names
    ensures FindIn(h', path) == h'.names[Key(Walk(h.tbl, h.names, ROOT, comps), base)].target
  {
    var d := Walk(h.tbl, h.names, ROOT, comps);
    WalkKept(h.tbl, h'.tbl, h.names, h'.names, ROOT, comps);
    TargetsNotZero(g, fs, h');
    WalkLast(h'.tbl, h'.names, ROOT, comps, base);
    assert h.tbl[d].kind == h'.tbl[d].kind;
  }

  lemma SameFound(g: Geo, fs: Fs, h: Ghost, h': Ghost, path: seq<Byte>)
    requires TreeGrows(h, h') && FindIn(h, path) != 0
    ensures FindIn(h', path) == FindIn(h, path)
  {
    WalkKept(h.tbl, h'.tbl, h.names, h'.names, ROOT, Components(path));
  }

  lemma FilesSameMore(g: Geo, fs: Fs, h: Ghost, fs1: Fs, h1: Ghost, fs2: Fs, h2: Ghost, i: nat)
    requires FilesSame(g, fs, h, fs1, h1, i) && SameBut(g, fs1, h1, fs2, h2, {i})
    ensures FilesSame(g, fs, h, fs2, h2, i)
  {
    forall j | j in h.tbl && j != i && h.tbl[j].kind == Regular ensures SameInode(g, fs, h, fs2, h2, j) {
      assert SameInode(g, fs, h, fs1, h1, j);
      assert SameInode(g, fs1, h1, fs2, h2, j);
      forall n: nat ensures Chunk(h.tbl[j], fs2.disk, g.per, n) == Chunk(h.tbl[j], fs.disk, g.per, n) {
        assert Chunk(h.tbl[j], fs1.disk, g.per, n) == Chunk(h.tbl[j], fs.disk, g.per, n);
      }
    }
  }

  /** What every path to a file but `i` reads. */
  lemma FilesKept(g: Geo, fs: Fs, h: Ghost, fs': Fs, h': Ghost, i: nat)
    requires Core(g, fs, h) && FilesSame(g, fs, h, fs', h', i) && TreeGrows(h, h')
    ensures forall p {:trigger ContentsIn(g, fs', h', p)} ::
              ContentsIn(g, fs, h, p).Some? && FindIn(h, p) != i ==>
                ContentsIn(g, fs', h', p) == ContentsIn(g, fs, h, p)
  {
    forall p | ContentsIn(g, fs, h, p).Some? && FindIn(h, p) != i
      ensures ContentsIn(g, fs', h', p) == ContentsIn(g, fs, h, p)
    {
      var j := FindIn(h, p);
      LiveInode(g, fs, h, j);
      SameFound(g, fs, h, h', p);
      assert SameInode(g, fs, h, fs', h', j);
      SameChunks(h.tbl[j], fs.disk, fs'.disk, g.per, CeilDiv(h.tbl[j].size, 4 * g.per));
    }
  }

  lemma {:induction false} SameChunks(ino: Inode, disk: Disk, disk': Disk, per: nat, n: nat)
    requires SameReads(ino, disk, disk', per)
    ensures Chunks(ino, disk', per, n) == Chunks(ino, disk, per, n)
  {
    if n > 0 {
      SameChunks(ino, disk, disk', per, n - 1);
    }
  }

  /** Directory `i` was made under `base` in directory `d`. */
  ghost predicate DirMade(h: Ghost, h': Ghost, d: nat, base: Name, i: nat) {
    && i != 0 && i !in h.tbl && TreeGrows(h, h') && Key(d, base) in h'.names && h'.names[Key(d, base)].target == i
    && FreshDir(h', i) && h'.names[Key(i, DOT_DOT)].target == d
    && ThreeMore(h, h', Key(d, base), Key(i, DOT), Key(i, DOT_DOT)) && OneMore(h.tbl, h'.tbl, d, i)
  }

  ghost predicate ThreeMore(h: Ghost, h': Ghost, k: Key, dot: Key, dotDot: Key) {
    h'.names.Keys == h.names.Keys + {k, dot, dotDot}
  }

  /** Inode `i` is new, and of the others only directory `d` changed, which grew or gained a link. */
  ghost predicate OneMore(tbl: Table, tbl': Table, d: nat, i: nat) {
    && tbl'.Keys == tbl.Keys + {i} && d in tbl && tbl'[d].kind == tbl[d].kind
    && forall j {:trigger tbl[j]} :: j in tbl && j != d ==> tbl'[j] == tbl[j]
  }

  /** Block `blk` is the only one of inode `i`. */
  ghost predicate OwnsOne(own: Own, i: nat, blk: nat) {
    && blk in own && own[blk] == Role(i, Direct(0))
    && forall b {:trigger own[b]} :: b in own && own[b].ino == i ==> b == blk
  }

  lemma FirstAccounted(i: nat, per: nat, blk: nat, disk: Disk, own: Own)
    requires OwnsOne(own, i, blk)
    ensures Accounted(i, FirstDir(per, blk), disk, own, per)
  {
    assert Mine(own, i) == {blk};
  }

  lemma OwnsFirst(g: Geo, fs: Fs, h0: Ghost, h: Ghost, h': Ghost, d: nat, i: nat, blk: nat)
    requires Core(g, fs, h') && Owned(h0) && i !in h0.tbl && d != i && blk != 0
    requires h == Born(h0, d, i, FirstDir(g.per, blk), blk, TypeByte(g, Directory))
    requires OwnMore(h.own, h'.own, d) && i in h'.tbl && h'.tbl[i] == FirstDir(g.per, blk)
    ensures OwnsOne(h'.own, i, blk)
  {
    assert InodeOk(i, h'.tbl[i], fs.disk, h'.own);
    assert SlotOk(i, h'.tbl[i], fs.disk, h'.own, Direct(0));
    forall b | b in h'.own && h'.own[b].ino == i ensures b == blk {
      assert b in h0.own ==> h0.own[b].ino in h0.tbl;
    }
  }

  /** Directory `d` has one link more, in 16 bits. */
  ghost predicate LinkAdded(h: Ghost, h': Ghost, d: nat) {
    d in h.tbl && d in h'.tbl && h'.tbl[d].links == (h.tbl[d].links + 1) % 0x1_0000
  }

  /** A new directory, linked by its name and its ".", that holds "." and ".." only. */
  ghost predicate FreshDir(h: Ghost, i: nat) {
    && i in h.tbl && h.tbl[i].kind == Directory && h.tbl[i].links == 2 && EmptyDir(h.names, i)
    && Key(i, DOT) in h.names && h.names[Key(i, DOT)].target == i && Key(i, DOT_DOT) in h.names
  }

  /** Of fewer inodes to begin with. */
  lemma SameButLess(g: Geo, fs: Fs, h: Ghost, h0: Ghost, fs': Fs, h': Ghost, but: set<nat>)
    requires SameBut(g, fs, h, fs', h', but) && KeepsTbl(h0, h, but)
    ensures SameBut(g, fs, h0, fs', h', but)
  {
    forall j | j in h0.tbl && j !in but ensures SameInode(g, fs, h0, fs', h', j) {
      var was := h0.tbl[j];
      assert SameInode(g, fs, h, fs', h', j);
    }
  }

  lemma SameButJoin(g: Geo, fs: Fs, h: Ghost, fs1: Fs, h1: Ghost, fs2: Fs, h2: Ghost, but: set<nat>)
    requires SameBut(g, fs, h, fs1, h1, {}) && SameBut(g, fs1, h, fs2, h2, but)
    ensures SameBut(g, fs, h, fs2, h2, but)
  {
    forall j | j in h.tbl && j !in but ensures SameInode(g, fs, h, fs2, h2, j) {
      assert SameInode(g, fs, h, fs1, h1, j);
      assert SameInode(g, fs1, h, fs2, h2, j);
      forall n: nat ensures Chunk(h.tbl[j], fs2.disk, g.per, n) == Chunk(h.tbl[j], fs.disk, g.per, n) {
        assert Chunk(h.tbl[j], fs1.disk, g.per, n) == Chunk(h.tbl[j], fs.disk, g.per, n);
      }
    }
  }

  /** dir_add gave the new directory its name: the tree is whole again. */
  lemma Named(g: Geo, fs: Fs, h0: Ghost, h: Ghost, fs': Fs, h': Ghost, d: nat, base: Name, i: nat, blk: nat,
              parent: Inode)
    requires LinksOk(g, h0.tbl, h0.names, h0.up) && Owned(h0) && OnDisk(fs, h, {}) && Numbered(g, fs, h, {})
    requires i != 0 && i !in h0.tbl && h == Born(h0, d, i, FirstDir(g.per, blk), blk, TypeByte(g, Directory))
    requires d in h0.tbl && h0.tbl[d].kind == Directory && Key(d, base) !in h0.names
    requires NameAdded(h.(own := h'.own), h', d, base, i, TypeByte(g, Directory), parent) && OwnMore(h.own, h'.own, d)
    requires parent.kind == Directory
    requires fs'.inos == fs.inos
    requires (fs'.inodes == fs.inodes[d := parent] || (fs'.inodes == fs.inodes && parent == h0.tbl[d]))
    ensures OnDisk(fs', h', {}) && Numbered(g, fs', h', {}) && Owned(h')
    ensures LinksOk(g, h'.tbl, h'.names, h'.up[i := Key(d, base)])
  {
    forall j | j in h'.tbl ensures j in fs'.inodes && fs'.inodes[j] == h'.tbl[j] {
      assert j in h.tbl;
      var was := h.tbl[j];
    }
    forall b | b in h'.own ensures h'.own[b].ino in h'.tbl {
      assert b in h0.own ==> h0.own[b].ino in h0.tbl;
    }
    DirLinked(g, h0.tbl, h'.tbl, h0.names, h'.names, h0.up, Key(d, base), i);
  }

  /** The tree with directory `i`, in block `blk`, under `base` in directory `d`, whose inode is then `parent`. */
  ghost predicate IsMade(g: Geo, h: Ghost, h': Ghost, d: nat, base: Name, i: nat, blk: nat, parent: Inode) {
    var k, kind := Key(d, base), TypeByte(g, Directory);
    && h'.tbl == h.tbl[i := FirstDir(g.per, blk)][d := parent] && d != i && k in h'.names && h'.names[k].target == i
    && h'.names == h.names[Key(i, DOT) := Entry(i, 0, 0, kind)][Key(i, DOT_DOT) := Entry(d, 0, 12,
       kind)][k := h'.names[k]]
  }

  /** The directory that holds the new one got its link. */
  lemma Counted(g: Geo, fs0: Fs, h0: Ghost, fs1: Fs, h1: Ghost, fs: Fs, h: Ghost, d: nat, base: Name, i: nat, blk: nat,
                parent: Inode)
    requires LinksOk(g, h0.tbl, h0.names, h0.up) && IsMade(g, h0, h1, d, base, i, blk, parent)
    requires OwnsOne(h1.own, i, blk)
    requires i != 0 && i !in h0.tbl && d in h0.tbl && h0.tbl[d].kind == Directory && Key(d, base) !in h0.names
    requires SameBut(g, fs0, h0, fs1, h1, {d}) && fs.disk == fs1.disk
    requires parent.kind == Directory && parent.links == h0.tbl[d].links
    requires h == h1.(tbl := h1.tbl[d := parent.(links := (parent.links + 1) % 0x1_0000)])
    ensures DirMade(h0, h, d, base, i) && LinkAdded(h0, h, d) && SameBut(g, fs0, h0, fs, h, {d})
    ensures i in h.tbl && Accounted(i, h.tbl[i], fs.disk, h.own, g.per)
  {
    SameButThen(g, fs0, h0, fs1, h1, fs, h, {d});
    MadeDir(g, h0, h, d, base, i, blk, parent.(links := (parent.links + 1) % 0x1_0000));
    FirstAccounted(i, g.per, blk, fs.disk, h.own);
  }

  lemma MadeDir(g: Geo, h0: Ghost, h: Ghost, d: nat, base: Name, i: nat, blk: nat, parent: Inode)
    requires LinksOk(g, h0.tbl, h0.names, h0.up) && IsMade(g, h0, h, d, base, i, blk, parent)
    requires i != 0 && i !in h0.tbl && d in h0.tbl && h0.tbl[d].kind == Directory && Key(d, base) !in h0.names
    requires parent.kind == Directory
    ensures DirMade(h0, h, d, base, i)
  {
    assert NodeOk(h0.tbl, h0.names, d);
    forall k: Key | k in h0.names ensures k.dir != i && k in h.names && h.names[k].target == h0.names[k].target {
      assert KeyOk(g, h0.tbl, h0.names, h0.up, k);
    }
    assert EmptyDir(h.names, i);
  }

  function ZeroInode(): Inode {
    Inode(Unused, 0, 0, 0, seq(15, _ => 0))
  }

  /** Number `i` is unused and zeroed, and every block that its inode `ino` pointed to is free. */
  ghost predicate Released(g: Geo, fs: Fs, i: nat, ino: Inode) {
    && i in fs.inodes && fs.inodes[i] == ZeroInode() && !InoUsed(g, fs.inos, i)
    && Freed(g, fs.blocks, ino, fs.disk)
  }

  /** Name `k` of inode `i` is gone, and the inode too unless it is a file with links left; nothing else is. */
  ghost predicate Unlinked(h: Ghost, h': Ghost, k: Key, i: nat) {
    && i in h.tbl && k.dir in h.tbl && k in h.names && h.names[k].target == i
    && h'.names == (if h.tbl[i].kind == Directory then WithoutDir(h.names, k, i) else h.names - {k})
    && (h.tbl[i].kind != Directory ==>
          h'.tbl == if h.tbl[i].links > 1 then h.tbl[i := h.tbl[i].(links := h.tbl[i].links - 1)] else h.tbl - {i})
    && (h.tbl[i].kind == Directory ==>
          k.dir != i && h'.tbl == (h.tbl - {i})[k.dir := OneLinkLess(h.tbl[k.dir])])
  }

  /** A directory that has lost the ".." of another. */
  function OneLinkLess(ino: Inode): Inode {
    ino.(links := if ino.links > 0 then ino.links - 1 else 0)
  }

  /** File `i` was made at `path`, which could be resolved. */
  ghost predicate IsNew(h: Ghost, h': Ghost, path: seq<Byte>, i: nat) {
    && ShortEnough(path) && HasParent(h, path) && 0 !in h.tbl && i != 0 && i in h'.tbl
    && FileMade(h, h', KeyIn(h, path), i) && TreeGrows(h, h')
  }

  lemma KeyKept(h: Ghost, h': Ghost, path: seq<Byte>)
    requires TreeGrows(h, h') && HasParent(h, path) && 0 !in h.tbl
    ensures KeyIn(h', path) == KeyIn(h, path)
  {
    var comps := Components(path);
    WalkKept(h.tbl, h'.tbl, h.names, h'.names, ROOT, comps[..|comps| - 1]);
  }

  lemma Forgotten(h: Ghost, h1: Ghost, h2: Ghost, path: seq<Byte>, i: nat)
    requires FileMade(h, h1, KeyIn(h, path), i) && Unlinked(h1, h2, KeyIn(h, path), i)
    ensures h2.names == h.names && h2.tbl.Keys == h.tbl.Keys && i !in h2.tbl
  {
  }

  lemma DirGone(h: Ghost, h': Ghost, k: Key, i: nat, parent: Inode)
    requires i in h.tbl && h.tbl[i].kind == Directory && k.dir != i && k.dir in h.tbl && h.tbl[k.dir] == parent
    requires k in h.names && h.names[k].target == i
    requires h'.names == WithoutDir(h.names, k, i)
    requires h'.tbl == (h.tbl - {i})[k.dir := OneLinkLess(parent)]
    ensures Unlinked(h, h', k, i)
  {
  }

  /** The link count of every file is the number of its names. */
  ghost predicate LinksExact(h: Ghost) {
    forall i {:trigger h.tbl[i]} :: i in h.tbl && h.tbl[i].kind == Regular ==> h.tbl[i].links == |Refs(h.names, i)|
  }

  lemma ExactWrote(g: Geo, h: Ghost, h': Ghost, path: seq<Byte>)
    requires LinksOk(g, h.tbl, h.names, h.up) && LinksExact(h) && Wrote(h, h', path) && HasParent(h, path)
    ensures LinksExact(h')
  {
    var i, k := FindIn(h', path), KeyIn(h, path);
    if FindIn(h, path) == 0 {
      assert NodeOk(h.tbl, h.names, k.dir) && Real(k.name);
      NoRefs(g, h.tbl, h.names, h.up, i);
      forall j | j in h'.tbl && h'.tbl[j].kind == Regular ensures h'.tbl[j].links == |Refs(h'.names, j)| {
        if j == i {
          assert Refs(h'.names, i) == {k};
        } else {
          var was := h.tbl[j];
          assert Refs(h'.names, j) == Refs(h.names, j);
        }
      }
    } else {
      forall j | j in h'.tbl && h'.tbl[j].kind == Regular ensures h'.tbl[j].links == |Refs(h'.names, j)| {
        var was := h.tbl[j];
      }
    }
  }

  lemma ExactDirMade(h: Ghost, h': Ghost, d: nat, base: Name, i: nat)
    requires LinksExact(h) && DirMade(h, h', d, base, i) && h.tbl[d].kind == Directory && Key(d, base) !in h.names
    requires forall k: Key :: k in h.names ==> k.dir != i
    ensures LinksExact(h')
  {
    forall j | j in h'.tbl && h'.tbl[j].kind == Regular ensures h'.tbl[j].links == |Refs(h'.names, j)| {
      var was := h.tbl[j];
      forall k: Key ensures k in Refs(h'.names, j) <==> k in Refs(h.names, j) {
        assert k in h.names ==> h'.names[k].target == h.names[k].target;
      }
      assert Refs(h'.names, j) == Refs(h.names, j);
    }
  }

  lemma ExactMade(g: Geo, h: Ghost, h': Ghost, path: seq<Byte>)
    requires LinksOk(g, h.tbl, h.names, h.up) && LinksExact(h) && HasParent(h, path) && KeyIn(h, path) !in h.names
    requires DirMade(h, h', KeyIn(h, path).dir, KeyIn(h, path).name, FindIn(h', path))
    ensures LinksExact(h')
  {
    var i := FindIn(h', path);
    forall k: Key | k in h.names ensures k.dir != i {
      assert KeyOk(g, h.tbl, h.names, h.up, k);
    }
    ExactDirMade(h, h', KeyIn(h, path).dir, KeyIn(h, path).name, i);
  }

  lemma ExactUnlinked(g: Geo, h: Ghost, h': Ghost, k: Key, i: nat)
    requires LinksOk(g, h.tbl, h.names, h.up) && LinksExact(h) && Unlinked(h, h', k, i) && Real(k.name)
    requires h.tbl[i].kind == Directory ==> EmptyDir(h.names, i)
    ensures LinksExact(h')
  {
    assert KeyOk(g, h.tbl, h.names, h.up, k);
    forall j | j in h'.tbl && h'.tbl[j].kind == Regular ensures h'.tbl[j].links == |Refs(h'.names, j)| {
      var was := h.tbl[j];
      if j == i {
        assert Refs(h'.names, i) == Refs(h.names, i) - {k};
      } else {
        assert forall l {:trigger h.names[l]} :: l in h.names && !(l in h'.names) ==> l == k || !Real(l.name);
        assert Refs(h'.names, j) == Refs(h.names, j);
      }
    }
  }

  function Last<T>(s: seq<T>): T
    requires s != []
  {
    s[|s| - 1]
  }

  /** The name map's key for the last component of `path`. */
  ghost function KeyIn(h: Ghost, path: seq<Byte>): Key {
    var comps := Components(path);
    if comps == [] then Key(0, []) else Key(Walk(h.tbl, h.names, ROOT, comps[..|comps| - 1]), Last(comps))
  }

  ghost predicate FullDir(h: Ghost, i: nat) {
    i in h.tbl && h.tbl[i].kind == Directory && !EmptyDir(h.names, i)
  }

  /** The removal of the last component of `path`. */
  ghost predicate RemovedAt(g: Geo, fs: Fs, h: Ghost, fs': Fs, h': Ghost, comps: seq<Name>, base: Name, i: nat) {
    var d := Walk(h.tbl, h.names, ROOT, comps);
    && Key(d, base) in h.names && Unlinked(h, h', Key(d, base), i) && d in h.tbl && h.tbl[d].kind == Directory
    && SameBut(g, fs, h, fs', h', {d, i})
  }

  /** After a removal the path leads nowhere. */
  lemma Gone(g: Geo, fs: Fs, h: Ghost, fs': Fs, h': Ghost, comps: seq<Name>, base: Name, path: seq<Byte>, i: nat)
    requires Core(g, fs', h') && LinksOk(g, h'.tbl, h'.names, h'.up)
    requires Components(path) == comps + [base] && RemovedAt(g, fs, h, fs', h', comps, base, i)
    ensures FindIn(h', path) == 0
  {
    assert TreeGrows(h', h);
    TargetsNotZero(g, fs', h');
    WalkLast(h'.tbl, h'.names, ROOT, comps, base);
    if Walk(h'.tbl, h'.names, ROOT, comps) != 0 {
      WalkKept(h'.tbl, h.tbl, h'.names, h.names, ROOT, comps);
    }
  }

  /** After a removal every file still there reads as before. */
  lemma StillReads(g: Geo, fs: Fs, h: Ghost, fs': Fs, h': Ghost, comps: seq<Name>, base: Name, i: nat)
    requires Core(g, fs', h') && RemovedAt(g, fs, h, fs', h', comps, base, i)
    requires i in h'.tbl ==> SameReads(h.tbl[i], fs.disk, fs'.disk, g.per)
    ensures forall p {:trigger ContentsIn(g, fs', h', p)} ::
              ContentsIn(g, fs', h', p).Some? ==> ContentsIn(g, fs', h', p) == ContentsIn(g, fs, h, p)
  {
    assert TreeGrows(h', h);
    forall p | ContentsIn(g, fs', h', p).Some? ensures ContentsIn(g, fs', h', p) == ContentsIn(g, fs, h, p) {
      var j := FindIn(h', p);
      LiveInode(g, fs', h', j);
      SameFound(g, fs, h', h, p);
      if j != i {
        assert SameInode(g, fs, h, fs', h', j);
      }
      SameBytes(h.tbl[j], h'.tbl[j], fs.disk, fs'.disk, g.per);
    }
  }

  lemma SameBytes(ino: Inode, ino': Inode, disk: Disk, disk': Disk, per: nat)
    requires SameReads(ino, disk, disk', per) && ino' == ino.(links := ino'.links)
    ensures FileBytes(ino', disk', per) == FileBytes(ino, disk, per)
  {
    var n := CeilDiv(ino.size, 4 * per);
    SameChunks(ino, disk, disk', per, n);
    SameLinkChunks(ino, ino', disk', per, n);
  }

  lemma {:induction false} SameLinkChunks(ino: Inode, ino': Inode, disk: Disk, per: nat, n: nat)
    requires |ino.ptr| == 15 && per > 0 && Sized(disk, per) && ino'.ptr == ino.ptr
    ensures Chunks(ino', disk, per, n) == Chunks(ino, disk, per, n)
  {
    if n > 0 {
      SameBlockOf(ino, ino', disk, per, n - 1);
      SameLinkChunks(ino, ino', disk, per, n - 1);
    }
  }

  ghost predicate NameSet(names: Names, names': Names, k: Key, i: nat) {
    k in names' && names'[k].target == i && names' == names[k := names'[k]]
  }

  /** Inodes stay what they are. */
  ghost predicate SameKinds(tbl: Table, tbl': Table) {
    forall j {:trigger tbl[j]} :: j in tbl ==> j in tbl' && tbl'[j].kind == tbl[j].kind
  }

  lemma BlocksReadable(g: Geo, fs: Fs, h: Ghost, i: nat)
    requires Core(g, fs, h) && i in h.tbl
    ensures |h.tbl[i].ptr| == 15 && Readable(h.tbl[i], fs.disk, g.per)
  {
    var ino := h.tbl[i];
    forall n: nat | BlockOf(ino, fs.disk, g.per, n) != 0 ensures BlockOf(ino, fs.disk, g.per, n) in fs.disk {
      BlockOfRole(i, ino, fs.disk, h.own, g.per, n);
      OwnedBlock(g, fs, h.own, BlockOf(ino, fs.disk, g.per, n));
    }
  }

  lemma TargetsNotZero(g: Geo, fs: Fs, h: Ghost)
    requires Core(g, fs, h) && LinksOk(g, h.tbl, h.names, h.up)
    ensures 0 !in h.tbl && forall k :: k in h.names ==> h.names[k].target != 0
  {
    LiveInode(g, fs, h, 0);
    forall k | k in h.names ensures h.names[k].target != 0 {
      assert KeyOk(g, h.tbl, h.names, h.up, k);
    }
  }

  /** The name map gained `name` in directory `d`, whose inode is now `ino`; nothing else changed. */
  ghost predicate NameAdded(h: Ghost, h': Ghost, d: nat, name: Name, child: nat, kind: Byte, ino: Inode) {
    && Key(d, name) in h'.names && h'.names[Key(d, name)].target == child && h'.names[Key(d, name)].kind == kind
    && h'.names == h.names[Key(d, name) := h'.names[Key(d, name)]]
    && h'.tbl == h.tbl[d := ino] && h'.up == h.up && h'.own == h.own
  }

  /** No record in the first `n` blocks of directory `ino` has room for `name`. */
  ghost predicate NoSlack(ino: Inode, disk: Disk, per: nat, n: nat, name: Name) {
    && |ino.ptr| == 15 && per > 0
    && forall m: nat {:trigger BlockOf(ino, disk, per, m)} :: m < n ==>
         var b := BlockOf(ino, disk, per, m); b != 0 && b in disk ==> !RoomFrom(disk[b], 0, name)
  }

  /** Directory `ino` cannot grow: the disk is full, or it has as many blocks as set_block_of can map. */
  ghost predicate NoRoomLeft(g: Geo, fs: Fs, ino: Inode) {
    g.per > 0 && (fs.blocks.total == 0 || DirBlocks(ino, g.per) >= 12 + g.per)
  }

  /** Directory `ino` could not grow while a block was held that is free again. */
  ghost predicate Tight(g: Geo, fs: Fs, ino: Inode) {
    g.per > 0 && (fs.blocks.total <= 1 || DirBlocks(ino, g.per) >= 12 + g.per)
  }

  /** A block mapped at the end of directory `d` and then filled with the new entry. */
  lemma GrownFilled(g: Geo, fs0: Fs, h0: Ghost, fs1: Fs, h1: Ghost, fs2: Fs, h2: Ghost, d: nat, ino: Inode,
                    ino1: Inode, ino2: Inode, name: Name, child: nat, kind: Byte, n: nat, blk: nat)
    requires BlockSet(g, fs0, h0, fs1, h1, d, ino, ino1, n, blk)
    requires NameAdded(h1, h2, d, name, child, kind, ino2) && SameBut(g, fs1, h1, fs2, h2, {d})
    ensures NameAdded(h0.(own := h2.own), h2, d, name, child, kind, ino2)
    ensures OwnMore(h0.own, h2.own, d) && SameBut(g, fs0, h0, fs2, h2, {d})
  {
    SameButTrans(g, fs0, h0, fs1, h1, fs2, h2, {d});
    assert h0.tbl[d := ino1][d := ino2] == h0.tbl[d := ino2];
  }

  /** The loops over a directory's blocks run while `bi * block_size < size`. */
  lemma DirLoopBound(ino: Inode, per: nat, bi: nat)
    requires per > 0 && ino.size == DirBlocks(ino, per) * (4 * per)
    ensures bi * (4 * per) < ino.size <==> bi < DirBlocks(ino, per)
  {
    if bi < DirBlocks(ino, per) {
      MulStep(bi, DirBlocks(ino, per), 4 * per);
    } else if DirBlocks(ino, per) < bi {
      MulStep(DirBlocks(ino, per), bi, 4 * per);
    }
  }

  /** A listed name has a record, and it names an inode. */
  lemma FoundEntry(d: nat, ino: Inode, disk: Disk, names: Names, per: nat, name: Name)
    requires |ino.ptr| == 15 && per > 0 && DirOk(d, ino, disk, names, per) && Key(d, name) in names
    ensures names[Key(d, name)].target != 0 && names[Key(d, name)].n < DirBlocks(ino, per)
  {
    var e := names[Key(d, name)];
    assert NameFound(ino, disk, names, per, Key(d, name));
    InFrom(disk[BlockOf(ino, disk, per, e.n)], 0, Ent(e.off, e.target, name, e.kind));
  }

  /** Past the words of a block there are no pointers. */
  lemma PassedAll(ino: Inode, disk: Disk, per: nat, s: Slot)
    requires Sized(disk, per)
    ensures SlotPtr(ino, disk, s) != 0 ==> match s
              case Direct(n) => n < 12
              case Single(k) => k < per
              case Mid(k) => k < per
              case Double(k, j) => k < per && j < per
              case Ind => true
              case Dbl => true
  {
  }

  /** Only blocks of inode `i` lost their owner. */
  ghost predicate Lost(own: Own, own': Own, i: nat) {
    && (forall b {:trigger own'[b]} :: b in own' ==> b in own && own'[b] == own[b])
    && (forall b {:trigger own[b]} :: b in own && own[b].ino != i ==> b in own')
  }

  lemma TakenBelow(p: Pool, n: nat, r: nat)
    requires Taken(p, n, r)
    ensures r < |p.bits| * n
  {
    NumberOf(n, r);
    MulStep(r / n, |p.bits|, n);
  }
}
