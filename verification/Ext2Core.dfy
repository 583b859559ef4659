/**
  The consistency of an ext2 file system as src/ext2.c keeps it, and what each
  kind of disk update does to it: counts match bitmaps, every reachable block is
  in use and reachable once, and every directory block is tiled by records that
  spell out the name map.

  `Fs` is what the code reads and writes. `Ghost` is what it stands for: the owner
  of each block, the inode table with the copies a running operation holds in
  memory, and the names in each directory.
 */
module Ext2Core {
  import opened Types
  import opened Ext2Dir
  import opened Ext2Map
  import opened Ext2Own
  import opened Ext2Alloc
  import opened Arith

  const ROOT: nat := 2

  /** Fixed at mount: words per block, first data block, group sizes, the number of groups, the metadata blocks and
      inodes, and whether directory entries carry file types. */
  datatype Geo = Geo(per: nat, first: nat, bpg: nat, ipg: nat, groups: nat, reserved: set<nat>, special: set<nat>,
                     typed: bool)

  /** The file type that a directory entry gives an inode. */
  function TypeByte(g: Geo, kind: Kind): Byte {
    if !g.typed then 0 else if kind == Directory then FT_DIR else FT_REG
  }

  datatype Fs = Fs(blocks: Pool, inos: Pool, inodes: map<nat, Inode>, disk: Disk)

  datatype Key = Key(dir: nat, name: Name)
  datatype Entry = Entry(target: nat, n: nat, off: nat, kind: Byte)
  type Names = map<Key, Entry>

  datatype Ghost = Ghost(own: Own, tbl: map<nat, Inode>, names: Names, up: map<nat, Key>)

  ghost predicate BlockUsed(g: Geo, p: Pool, b: nat) {
    b >= g.first && Taken(p, g.bpg, b - g.first)
  }

  /** `b` has a bit in some bitmap. */
  ghost predicate InRange(g: Geo, p: Pool, b: nat) {
    g.bpg > 0 && b >= g.first && (b - g.first) / g.bpg < |p.bits|
  }

  ghost predicate InoUsed(g: Geo, p: Pool, i: nat) {
    i >= 1 && Taken(p, g.ipg, i - 1)
  }

  ghost predicate InoInRange(g: Geo, p: Pool, i: nat) {
    g.ipg > 0 && i >= 1 && (i - 1) / g.ipg < |p.bits|
  }

  /** A block of the volume that is not metadata. */
  predicate Storable(g: Geo, b: nat) {
    g.bpg > 0 && b >= g.first && (b - g.first) / g.bpg < g.groups && b !in g.reserved
  }

  /** The disk holds every block that is not metadata, and nothing else. */
  ghost predicate DiskOk(g: Geo, disk: Disk) {
    forall b: nat {:trigger Storable(g, b)} :: b in disk <==> Storable(g, b)
  }

  ghost predicate GeoOk(g: Geo, fs: Fs) {
    && 256 <= g.per && 4 * g.per <= 32768
    && PoolOk(fs.blocks, g.bpg) && PoolOk(fs.inos, g.ipg)
    && g.bpg < 0x1_0000 && g.ipg < 0x1_0000 && |fs.blocks.bits| == |fs.inos.bits| == g.groups
    && g.first + |fs.blocks.bits| * g.bpg <= 0x1_0000_0000
    && |fs.inos.bits| * g.ipg < 0x1_0000_0000
    && (forall b :: b in g.reserved ==> BlockUsed(g, fs.blocks, b))
    && (g.first == 0 ==> 0 in g.reserved)
    && (forall i :: i in g.special ==> InoUsed(g, fs.inos, i))
    && Sized(fs.disk, g.per) && DiskOk(g, fs.disk)
  }

  /** A block an inode may own: in use, on the disk, and not metadata. */
  ghost predicate Ownable(g: Geo, fs: Fs, b: nat) {
    b != 0 && b < 0x1_0000_0000 && BlockUsed(g, fs.blocks, b) && b in fs.disk && b !in g.reserved
  }

  ghost predicate OwnOk(g: Geo, fs: Fs, own: Own) {
    forall b {:trigger own[b]} :: b in own ==> Ownable(g, fs, b)
  }

  ghost predicate TblOk(g: Geo, fs: Fs, own: Own, tbl: map<nat, Inode>) {
    forall i {:trigger tbl[i]} :: i in tbl ==>
      && InodeOk(i, tbl[i], fs.disk, own) && tbl[i].kind != Unused
      && InoUsed(g, fs.inos, i) && i !in g.special && i < 0x1_0000_0000
  }

  // ----- Directories -----

  function DirBlocks(ino: Inode, per: nat): nat
    requires per > 0
  {
    ino.size / (4 * per)
  }

  ghost predicate Listed(names: Names, d: nat, n: nat, e: Ent) {
    Key(d, e.name) in names && names[Key(d, e.name)] == Entry(e.ino, n, e.off, e.kind)
  }

  /** Block `n` of directory `d` is tiled, and every live record in it is in the name map. */
  ghost predicate BlockNames(d: nat, ino: Inode, disk: Disk, names: Names, per: nat, n: nat)
    requires |ino.ptr| == 15 && per > 0
  {
    var b := BlockOf(ino, disk, per, n);
    b != 0 ==> b in disk && Tiled(disk[b], 0) && forall e {:trigger In(disk[b], 0, e)} :: In(disk[b], 0, e) ==>
      Listed(names, d, n, e)
  }

  /** The record of a name is where the name map says. */
  ghost predicate NameFound(ino: Inode, disk: Disk, names: Names, per: nat, k: Key)
    requires |ino.ptr| == 15 && per > 0 && k in names
  {
    var e := names[k];
    var b := BlockOf(ino, disk, per, e.n);
    && e.n < DirBlocks(ino, per) && b != 0 && b in disk && Tiled(disk[b], 0)
    && In(disk[b], 0, Ent(e.off, e.target, k.name, e.kind))
  }

  ghost predicate DirOk(d: nat, ino: Inode, disk: Disk, names: Names, per: nat)
    requires |ino.ptr| == 15 && per > 0
  {
    && ino.size == DirBlocks(ino, per) * (4 * per)
    && (forall n: nat {:trigger BlockNames(d, ino, disk, names, per, n)} ::
          n < DirBlocks(ino, per) ==> BlockNames(d, ino, disk, names, per, n))
    && (forall k {:trigger NameFound(ino, disk, names, per, k)} ::
          k in names && k.dir == d ==> NameFound(ino, disk, names, per, k))
  }

  ghost predicate DirsOk(g: Geo, disk: Disk, tbl: map<nat, Inode>, names: Names)
    requires g.per > 0
  {
    forall d {:trigger tbl[d]} :: d in tbl && tbl[d].kind == Directory ==>
      |tbl[d].ptr| == 15 && DirOk(d, tbl[d], disk, names, g.per)
  }

  ghost predicate Core(g: Geo, fs: Fs, h: Ghost) {
    && GeoOk(g, fs)
    && OwnOk(g, fs, h.own)
    && TblOk(g, fs, h.own, h.tbl)
    && DirsOk(g, fs.disk, h.tbl, h.names)
  }

  // ----- What a disk write keeps -----

  /** The contents of a block of inode `i` are not those of block `w`. */
  ghost predicate NotMine(i: nat, own: Own, w: nat) {
    w in own ==> own[w].ino != i
  }

  lemma ChunkKept(i: nat, ino: Inode, disk: Disk, own: Own, w: nat, v: Block, per: nat, n: nat)
    requires InodeOk(i, ino, disk, own) && NotMine(i, own, w) && per > 0 && Sized(disk, per) && |v| == 4 * per
    ensures BlockOf(ino, disk[w := v], per, n) == BlockOf(ino, disk, per, n)
    ensures Chunk(ino, disk[w := v], per, n) == Chunk(ino, disk, per, n)
    ensures var b := BlockOf(ino, disk, per, n); b != 0 ==> b != w
  {
    WriteKeepsBlockOf(i, ino, disk, own, w, v, per, n);
    if BlockOf(ino, disk, per, n) != 0 {
      BlockOfRole(i, ino, disk, own, per, n);
    }
  }

  lemma DirKept(d: nat, ino: Inode, disk: Disk, own: Own, names: Names, w: nat, v: Block, per: nat)
    requires InodeOk(d, ino, disk, own) && NotMine(d, own, w) && per > 0 && Sized(disk, per) && |v| == 4 * per
    requires DirOk(d, ino, disk, names, per)
    ensures DirOk(d, ino, disk[w := v], names, per)
  {
    var disk' := disk[w := v];
    forall n: nat | n < DirBlocks(ino, per) ensures BlockNames(d, ino, disk', names, per, n) {
      assert BlockNames(d, ino, disk, names, per, n);
      ChunkKept(d, ino, disk, own, w, v, per, n);
    }
    forall k | k in names && k.dir == d ensures NameFound(ino, disk', names, per, k) {
      assert NameFound(ino, disk, names, per, k);
      ChunkKept(d, ino, disk, own, w, v, per, names[k].n);
    }
  }

  /** Names in other directories may come and go. */
  lemma DirNamesKept(d: nat, ino: Inode, disk: Disk, names: Names, names': Names, per: nat)
    requires |ino.ptr| == 15 && per > 0 && DirOk(d, ino, disk, names, per)
    requires forall k: Key :: k.dir == d ==> (k in names <==> k in names') && (k in names ==> names'[k] == names[k])
    ensures DirOk(d, ino, disk, names', per)
  {
    forall n: nat | n < DirBlocks(ino, per) ensures BlockNames(d, ino, disk, names', per, n) {
      assert BlockNames(d, ino, disk, names, per, n);
    }
    forall k | k in names' && k.dir == d ensures NameFound(ino, disk, names', per, k) {
      assert NameFound(ino, disk, names, per, k);
    }
  }

  lemma DataSlotInjective(per: nat, m: nat, n: nat)
    requires per > 0 && DataSlot(per, m) == DataSlot(per, n)
    ensures m == n
  {
    if m >= 12 + per {
      NumberOf(per, m - 12 - per);
      NumberOf(per, n - 12 - per);
    }
  }

  /** Rewriting data block `n` of an inode leaves its other blocks alone. */
  lemma OtherChunkKept(i: nat, ino: Inode, disk: Disk, own: Own, per: nat, n: nat, v: Block, m: nat)
    requires InodeOk(i, ino, disk, own) && per > 0 && Sized(disk, per) && |v| == 4 * per
    requires BlockOf(ino, disk, per, n) != 0
    ensures var w := BlockOf(ino, disk, per, n);
            && BlockOf(ino, disk[w := v], per, m) == BlockOf(ino, disk, per, m)
            && (BlockOf(ino, disk, per, m) == w ==> m == n)
  {
    var w := BlockOf(ino, disk, per, n);
    BlockOfRole(i, ino, disk, own, per, n);
    WriteKeepsBlockOf(i, ino, disk, own, w, v, per, m);
    if BlockOf(ino, disk, per, m) == w {
      BlockOfRole(i, ino, disk, own, per, m);
      DataSlotInjective(per, m, n);
    }
  }

  /** A directory after one of its blocks was rewritten to list the names of `names'`. */
  lemma DirRewritten(d: nat, ino: Inode, disk: Disk, own: Own, names: Names, names': Names, per: nat, n: nat, v: Block)
    requires InodeOk(d, ino, disk, own) && per > 0 && Sized(disk, per) && |v| == 4 * per
    requires DirOk(d, ino, disk, names, per) && n < DirBlocks(ino, per)
    requires var w := BlockOf(ino, disk, per, n);
             w != 0 && w in disk && Tiled(v, 0)
    requires forall e {:trigger In(v, 0, e)} :: In(v, 0, e) ==> Listed(names', d, n, e)
    requires forall k: Key {:trigger k in names'} :: k in names' && k.dir == d ==>
               if names'[k].n == n then In(v, 0, Ent(names'[k].off, names'[k].target, k.name, names'[k].kind))
               else k in names && names[k] == names'[k]
    requires forall k: Key {:trigger k in names} :: k in names && k.dir == d && names[k].n != n ==>
               k in names' && names'[k] == names[k]
    ensures DirOk(d, ino, disk[BlockOf(ino, disk, per, n) := v], names', per)
  {
    var w := BlockOf(ino, disk, per, n);
    var disk' := disk[w := v];
    forall m: nat | m < DirBlocks(ino, per) ensures BlockNames(d, ino, disk', names', per, m) {
      assert BlockNames(d, ino, disk, names, per, m);
      OtherChunkKept(d, ino, disk, own, per, n, v, m);
    }
    forall k | k in names' && k.dir == d ensures NameFound(ino, disk', names', per, k) {
      OtherChunkKept(d, ino, disk, own, per, n, v, names'[k].n);
      if names'[k].n != n {
        assert NameFound(ino, disk, names, per, k);
      }
    }
  }

  /** dir_add in block `n`: the name map gains one entry. */
  lemma DirAdded(d: nat, ino: Inode, disk: Disk, own: Own, names: Names, per: nat, n: nat, off: nat,
                 child: nat, name: Name, kind: Byte)
    requires InodeOk(d, ino, disk, own) && per > 0 && 4 * per <= 32768 && Sized(disk, per)
    requires DirOk(d, ino, disk, names, per) && n < DirBlocks(ino, per) && Key(d, name) !in names
    requires BlockOf(ino, disk, per, n) != 0 && 0 < child < 0x1_0000_0000 && |name| < 256
    requires var w := BlockOf(ino, disk, per, n);
             && w in disk && Tiled(disk[w], 0) && Boundary(disk[w], 0, off) && off < |disk[w]|
             && HeaderOk(disk[w], off) && HasRoom(disk[w], off, name)
    ensures var w := BlockOf(ino, disk, per, n);
            var v := AddAt(disk[w], off, child, name, kind);
            DirOk(d, ino, disk[w := v], names[Key(d, name) := Entry(child, n, NewOff(disk[w], off), kind)], per)
  {
    var w := BlockOf(ino, disk, per, n);
    var b := disk[w];
    var v := AddAt(b, off, child, name, kind);
    var names' := names[Key(d, name) := Entry(child, n, NewOff(b, off), kind)];
    assert BlockNames(d, ino, disk, names, per, n);
    AddAtOk(b, off, child, name, kind, Ent(0, 0, [], 0));
    forall e | In(v, 0, e) ensures Listed(names', d, n, e) {
      AddAtOk(b, off, child, name, kind, e);
      assert In(b, 0, e) ==> Listed(names, d, n, e);
    }
    forall k: Key | k in names' && k.dir == d && names'[k].n == n
      ensures In(v, 0, Ent(names'[k].off, names'[k].target, k.name, names'[k].kind))
    {
      AddAtOk(b, off, child, name, kind, Ent(names'[k].off, names'[k].target, k.name, names'[k].kind));
      if k != Key(d, name) {
        assert NameFound(ino, disk, names, per, k);
      }
    }
    DirRewritten(d, ino, disk, own, names, names', per, n, v);
  }

  /** dir_remove in block `n`: the name map loses one entry. */
  lemma DirRemoved(d: nat, ino: Inode, disk: Disk, own: Own, names: Names, per: nat, n: nat, prev: nat, off: nat,
                   name: Name)
    requires InodeOk(d, ino, disk, own) && per > 0 && 4 * per <= 32768 && Sized(disk, per)
    requires DirOk(d, ino, disk, names, per) && n < DirBlocks(ino, per)
    requires BlockOf(ino, disk, per, n) != 0
    requires var w := BlockOf(ino, disk, per, n);
             && w in disk && Tiled(disk[w], 0) && Boundary(disk[w], 0, prev) && HeaderOk(disk[w], prev)
             && off < |disk[w]| && HeaderOk(disk[w], off) && Ino(disk[w], off) != 0
             && (if prev == off then off == 0 else off == NextOff(disk[w], prev))
             && In(disk[w], 0, Ent(off, Ino(disk[w], off), name, TypeOf(disk[w], off))) && NameOf(disk[w], off) == name
    ensures var w := BlockOf(ino, disk, per, n);
            DirOk(d, ino, disk[w := RemoveAt(disk[w], prev, off)], names - {Key(d, name)}, per)
  {
    var w := BlockOf(ino, disk, per, n);
    var b := disk[w];
    var v := RemoveAt(b, prev, off);
    var names' := names - {Key(d, name)};
    var gone := Ent(off, Ino(b, off), name, TypeOf(b, off));
    assert BlockNames(d, ino, disk, names, per, n);
    assert Listed(names, d, n, gone);
    RemoveAtOk(b, prev, off, gone);
    forall e | In(v, 0, e) ensures Listed(names', d, n, e) {
      RemoveAtOk(b, prev, off, e);
      assert Listed(names, d, n, e);
    }
    forall k: Key | k in names' && k.dir == d && names'[k].n == n
      ensures In(v, 0, Ent(names'[k].off, names'[k].target, k.name, names'[k].kind))
    {
      assert NameFound(ino, disk, names, per, k);
      RemoveAtOk(b, prev, off, Ent(names[k].off, names[k].target, k.name, names[k].kind));
    }
    DirRewritten(d, ino, disk, own, names, names', per, n, v);
  }

  // ----- What each kind of update does to a consistent file system -----

  /** `p'` marks at least what `p` does. */
  ghost predicate Grows(g: Geo, p: Pool, p': Pool) {
    && PoolOk(p', g.bpg) && |p'.bits| == |p.bits|
    && forall b {:trigger BlockUsed(g, p', b)} :: BlockUsed(g, p, b) ==> BlockUsed(g, p', b)
  }

  /** Writing a block nobody owns, possibly one just taken from the bitmap. */
  lemma CoreFreeWrite(g: Geo, fs: Fs, h: Ghost, p': Pool, w: nat, v: Block)
    requires Core(g, fs, h) && w in fs.disk && w !in h.own && |v| == 4 * g.per && Grows(g, fs.blocks, p')
    ensures Core(g, fs.(blocks := p', disk := fs.disk[w := v]), h)
  {
    var fs' := fs.(blocks := p', disk := fs.disk[w := v]);
    forall b | b in h.own ensures Ownable(g, fs', b) {
      assert h.own[b] == h.own[b];
    }
    forall i | i in h.tbl ensures InodeOk(i, h.tbl[i], fs'.disk, h.own) {
      WriteKeepsInode(i, h.tbl[i], fs.disk, h.own, w, v);
    }
    forall d | d in h.tbl && h.tbl[d].kind == Directory ensures DirOk(d, h.tbl[d], fs'.disk, h.names, g.per) {
      DirKept(d, h.tbl[d], fs.disk, h.own, h.names, w, v, g.per);
    }
  }

  /** `own'` adds blocks of inode `i` only. */
  ghost predicate OwnGrows(g: Geo, fs: Fs, own: Own, own': Own, i: nat) {
    && (forall b {:trigger own[b]} :: b in own ==> b in own' && own'[b] == own[b])
    && (forall b {:trigger own'[b]} :: b in own' && b !in own ==> own'[b].ino == i && Ownable(g, fs, b))
  }

  /** Inode `i` changes, together with one block `w` that is its own. */
  lemma CoreInode(g: Geo, fs: Fs, h: Ghost, i: nat, ino: Inode, own': Own, w: nat, v: Block)
    requires Core(g, fs, h) && i in h.tbl && ino.kind == h.tbl[i].kind && |v| == 4 * g.per
    requires OwnGrows(g, fs, h.own, own', i) && w in own' && own'[w].ino == i
    requires InodeOk(i, ino, fs.disk[w := v], own')
    requires ino.kind == Directory ==> DirOk(i, ino, fs.disk[w := v], h.names, g.per)
    ensures Core(g, fs.(disk := fs.disk[w := v]), h.(own := own', tbl := h.tbl[i := ino]))
  {
    var fs', tbl' := fs.(disk := fs.disk[w := v]), h.tbl[i := ino];
    assert w in h.own ==> own'[w] == h.own[w];
    forall b | b in own' ensures Ownable(g, fs', b) {
      if b in h.own {
        assert own'[b] == h.own[b];
      }
    }
    forall j | j in tbl' && j != i ensures InodeOk(j, tbl'[j], fs'.disk, own') {
      assert tbl'[j] == h.tbl[j];
      WriteKeepsInode(j, h.tbl[j], fs.disk, h.own, w, v);
      OwnKeepsInode(j, h.tbl[j], fs'.disk, h.own, own');
    }
    assert h.tbl[i] == h.tbl[i];
    forall d | d in tbl' && tbl'[d].kind == Directory ensures DirOk(d, tbl'[d], fs'.disk, h.names, g.per) {
      if d != i {
        assert tbl'[d] == h.tbl[d];
        DirKept(d, h.tbl[d], fs.disk, h.own, h.names, w, v, g.per);
      }
    }
  }

  /** One block of directory `d` is rewritten together with its inode and its names. */
  lemma CoreDirBlock(g: Geo, fs: Fs, h: Ghost, d: nat, ino: Inode, w: nat, v: Block, names': Names)
    requires Core(g, fs, h) && d in h.tbl && h.tbl[d].kind == ino.kind == Directory && |v| == 4 * g.per
    requires w in h.own && h.own[w].ino == d && IsData(h.own[w].slot)
    requires forall k: Key :: k.dir != d ==>
               (k in h.names <==> k in names') && (k in names' ==> names'[k] == h.names[k])
    requires ino.ptr == h.tbl[d].ptr && |ino.ptr| == 15 && DirOk(d, ino, fs.disk[w := v], names', g.per)
    ensures Core(g, fs.(disk := fs.disk[w := v]), h.(tbl := h.tbl[d := ino], names := names'))
  {
    var fs' := fs.(disk := fs.disk[w := v]);
    var tbl' := h.tbl[d := ino];
    forall b | b in h.own ensures Ownable(g, fs', b) {
      OwnedBlock(g, fs, h.own, b);
    }
    forall i | i in tbl'
      ensures InodeOk(i, tbl'[i], fs'.disk, h.own) && InoUsed(g, fs.inos, i) && i !in g.special && i < 0x1_0000_0000
    {
      var was := h.tbl[i];
      WriteKeepsInode(i, was, fs.disk, h.own, w, v);
      if i == d {
        SameSlots(was, ino, d, fs'.disk, h.own);
      }
    }
    forall e | e in tbl' && tbl'[e].kind == Directory ensures DirOk(e, tbl'[e], fs'.disk, names', g.per) {
      if e != d {
        DirKept(e, h.tbl[e], fs.disk, h.own, h.names, w, v, g.per);
        DirNamesKept(e, h.tbl[e], fs'.disk, h.names, names', g.per);
      }
    }
  }

  /** A block that nobody owns goes back to the bitmap. */
  lemma CoreRelease(g: Geo, fs: Fs, h: Ghost, p': Pool, r: nat)
    requires Core(g, fs, h) && r !in h.own && r !in g.reserved && PoolOk(p', g.bpg) && |p'.bits| == |fs.blocks.bits|
    requires forall b {:trigger BlockUsed(g, p', b)} :: BlockUsed(g, fs.blocks, b) && b != r ==> BlockUsed(g, p', b)
    ensures Core(g, fs.(blocks := p'), h)
  {
    var fs' := fs.(blocks := p');
    forall b | b in h.own ensures Ownable(g, fs', b) {
      assert h.own[b] == h.own[b];
    }
  }

  /** Inode `i` is given up, or replaced by one that owns nothing; its blocks lose their owner. */
  lemma CoreDisown(g: Geo, fs: Fs, h: Ghost, own': Own, tbl': map<nat, Inode>, names': Names, i: nat)
    requires Core(g, fs, h)
    requires forall b {:trigger own'[b]} :: b in own' ==> b in h.own && own'[b] == h.own[b]
    requires forall b {:trigger h.own[b]} :: b in h.own && h.own[b].ino != i ==> b in own'
    requires forall j {:trigger tbl'[j]} :: j in tbl' ==> if j == i then
               tbl'[i].kind == Regular && tbl'[i].ptr == seq(15, _ => 0) && i in h.tbl
             else j in h.tbl && tbl'[j] == h.tbl[j]
    requires forall k: Key :: k.dir != i ==>
               (k in h.names <==> k in names') && (k in names' ==> names'[k] == h.names[k])
    ensures Core(g, fs, h.(own := own', tbl := tbl', names := names'))
  {
    forall b | b in own' ensures Ownable(g, fs, b) {
      assert h.own[b] == own'[b];
    }
    forall j | j in tbl'
      ensures InodeOk(j, tbl'[j], fs.disk, own') && InoUsed(g, fs.inos, j) && j !in g.special && j < 0x1_0000_0000
    {
      assert h.tbl[j] == h.tbl[j];
      if j == i {
        EmptyInode(i, tbl'[i], fs.disk, own');
      } else {
        OwnKeepsInode(j, h.tbl[j], fs.disk, h.own, own');
      }
    }
    forall d | d in tbl' && tbl'[d].kind == Directory ensures DirOk(d, tbl'[d], fs.disk, names', g.per) {
      assert h.tbl[d] == tbl'[d];
      DirNamesKept(d, h.tbl[d], fs.disk, h.names, names', g.per);
    }
  }

  // ----- What an update keeps of every other inode -----

  /** Inode `ino` reads the same, block by block. */
  ghost predicate SameReads(ino: Inode, disk: Disk, disk': Disk, per: nat) {
    && |ino.ptr| == 15 && per > 0 && Sized(disk, per) && Sized(disk', per)
    && forall n: nat {:trigger Chunk(ino, disk', per, n)} :: Chunk(ino, disk', per, n) == Chunk(ino, disk, per, n)
  }

  ghost predicate SameInode(g: Geo, fs: Fs, h: Ghost, fs': Fs, h': Ghost, j: nat) {
    j in h.tbl && j in h'.tbl && h'.tbl[j] == h.tbl[j] && SameReads(h.tbl[j], fs.disk, fs'.disk, g.per)
  }

  /** Every inode outside `but` is as it was, and so are its contents. */
  ghost predicate SameBut(g: Geo, fs: Fs, h: Ghost, fs': Fs, h': Ghost, but: set<nat>) {
    forall j {:trigger SameInode(g, fs, h, fs', h', j)} :: j in h.tbl && j !in but ==> SameInode(g, fs, h, fs', h', j)
  }

  lemma SameButTrans(g: Geo, fs: Fs, h: Ghost, fs1: Fs, h1: Ghost, fs2: Fs, h2: Ghost, but: set<nat>)
    requires SameBut(g, fs, h, fs1, h1, but) && SameBut(g, fs1, h1, fs2, h2, but)
    ensures SameBut(g, fs, h, fs2, h2, but)
  {
    forall j | j in h.tbl && j !in but ensures SameInode(g, fs, h, fs2, h2, j) {
      assert SameInode(g, fs, h, fs1, h1, j);
      assert SameInode(g, fs1, h1, fs2, h2, j);
      forall n: nat ensures Chunk(h.tbl[j], fs2.disk, g.per, n) == Chunk(h.tbl[j], fs.disk, g.per, n) {
        assert Chunk(h.tbl[j], fs1.disk, g.per, n) == Chunk(h.tbl[j], fs.disk, g.per, n);
      }
    }
  }

  lemma SameButMore(g: Geo, fs: Fs, h: Ghost, fs': Fs, h': Ghost, but: set<nat>, but': set<nat>)
    requires SameBut(g, fs, h, fs', h', but) && but <= but'
    ensures SameBut(g, fs, h, fs', h', but')
  {
    forall j | j in h.tbl && j !in but' ensures SameInode(g, fs, h, fs', h', j) {
    }
  }

  ghost predicate KeepsTbl(h: Ghost, h': Ghost, but: set<nat>) {
    forall j {:trigger h.tbl[j]} :: j in h.tbl && j !in but ==> j in h'.tbl && h'.tbl[j] == h.tbl[j]
  }

  /** A write to a block that only inodes in `but` may own. */
  lemma SameButWrite(g: Geo, fs: Fs, h: Ghost, fs': Fs, h': Ghost, w: nat, v: Block, but: set<nat>)
    requires Core(g, fs, h) && |v| == 4 * g.per && fs'.disk == fs.disk[w := v] && KeepsTbl(h, h', but)
    requires w in h.own ==> h.own[w].ino in but
    ensures SameBut(g, fs, h, fs', h', but)
  {
    forall j | j in h.tbl && j !in but ensures SameInode(g, fs, h, fs', h', j) {
      var ino := h.tbl[j];
      forall n: nat ensures Chunk(ino, fs'.disk, g.per, n) == Chunk(ino, fs.disk, g.per, n) {
        ChunkKept(j, ino, fs.disk, h.own, w, v, g.per, n);
      }
    }
  }

  lemma SameButRefl(g: Geo, fs: Fs, h: Ghost, fs': Fs, h': Ghost, but: set<nat>)
    requires Core(g, fs, h) && fs'.disk == fs.disk && KeepsTbl(h, h', but)
    ensures SameBut(g, fs, h, fs', h', but)
  {
    forall j | j in h.tbl && j !in but ensures SameInode(g, fs, h, fs', h', j) {
      var ino := h.tbl[j];
    }
  }

  lemma OwnedBlock(g: Geo, fs: Fs, own: Own, b: nat)
    requires OwnOk(g, fs, own)
    ensures b in own ==> Ownable(g, fs, b)
  {
    var r := if b in own then own[b] else Role(0, Ind);
  }

  // ----- One more block in an inode -----

  /** Only slot `s` changed, from nothing known to `b`. */
  ghost predicate OneSlot(ino: Inode, disk: Disk, ino': Inode, disk': Disk, s: Slot, b: nat) {
    forall t {:trigger SlotPtr(ino', disk', t)} ::
      SlotPtr(ino', disk', t) == if t == s then b else SlotPtr(ino, disk, t)
  }

  /** Logical block `n` now maps to `b`, and every other one as before. */
  ghost predicate Mapped(ino: Inode, disk: Disk, ino': Inode, disk': Disk, per: nat, n: nat, b: nat) {
    && |ino.ptr| == |ino'.ptr| == 15 && per > 0
    && forall m: nat {:trigger BlockOf(ino', disk', per, m)} ::
         BlockOf(ino', disk', per, m) == if m == n then b else BlockOf(ino, disk, per, m)
  }

  lemma SlotMapped(ino: Inode, disk: Disk, ino': Inode, disk': Disk, per: nat, n: nat, b: nat)
    requires |ino.ptr| == |ino'.ptr| == 15 && per > 0 && Sized(disk, per) && Sized(disk', per)
    requires OneSlot(ino, disk, ino', disk', DataSlot(per, n), b)
    ensures Mapped(ino, disk, ino', disk', per, n, b)
  {
    forall m: nat ensures BlockOf(ino', disk', per, m) == if m == n then b else BlockOf(ino, disk, per, m) {
      BlockOfIsSlot(ino, disk, per, m);
      BlockOfIsSlot(ino', disk', per, m);
      if m != n && DataSlot(per, m) == DataSlot(per, n) {
        DataSlotInjective(per, m, n);
      }
    }
  }

  /** A directory that gains blocks only past its end is as it was. */
  lemma DirPastEnd(d: nat, ino: Inode, disk: Disk, ino': Inode, disk': Disk, names: Names, per: nat)
    requires |ino.ptr| == |ino'.ptr| == 15 && per > 0 && ino'.size == ino.size
    requires forall m: nat {:trigger BlockOf(ino', disk', per, m)} :: m < DirBlocks(ino, per) ==>
               BlockOf(ino', disk', per, m) == BlockOf(ino, disk, per, m)
    requires forall m: nat {:trigger BlockOf(ino, disk, per, m)} :: m < DirBlocks(ino, per) ==>
               var b := BlockOf(ino, disk, per, m); b != 0 && b in disk ==> b in disk' && disk'[b] == disk[b]
    requires DirOk(d, ino, disk, names, per)
    ensures DirOk(d, ino', disk', names, per)
  {
    forall m: nat | m < DirBlocks(ino', per) ensures BlockNames(d, ino', disk', names, per, m) {
      assert BlockNames(d, ino, disk, names, per, m);
      assert BlockOf(ino', disk', per, m) == BlockOf(ino, disk, per, m);
    }
    forall k | k in names && k.dir == d ensures NameFound(ino', disk', names, per, k) {
      assert NameFound(ino, disk, names, per, k);
      assert BlockOf(ino', disk', per, names[k].n) == BlockOf(ino, disk, per, names[k].n);
    }
  }

  function Counting(ino: Inode, per: nat): Inode {
    ino.(blocks := ino.blocks + 4 * per / 512)
  }

  /** A direct block: the inode after `in->block[n] = blk`. */
  lemma LinkDirect(g: Geo, fs: Fs, h: Ghost, i: nat, n: nat, b: nat)
    requires Core(g, fs, h) && i in h.tbl && n < 12 && Ownable(g, fs, b) && b !in h.own
    requires h.tbl[i].kind == Directory ==> n >= DirBlocks(h.tbl[i], g.per)
    ensures |h.tbl[i].ptr| == 15
    ensures var ino := Counting(WithPtr(h.tbl[i], n, b), g.per);
            var own' := h.own[b := Role(i, Direct(n))];
            && Core(g, fs, h.(own := own', tbl := h.tbl[i := ino]))
            && OneSlot(h.tbl[i], fs.disk, ino, fs.disk, DataSlot(g.per, n), b)
  {
    var ino := Counting(WithPtr(h.tbl[i], n, b), g.per);
    var own' := h.own[b := Role(i, Direct(n))];
    var v := fs.disk[b];
    assert fs.disk[b := v] == fs.disk;
    DirectOk(i, h.tbl[i], fs.disk, h.own, n, b);
    SameSlots(WithPtr(h.tbl[i], n, b), ino, i, fs.disk, own');
    forall t ensures SlotPtr(ino, fs.disk, t) == if t == Direct(n) then b else SlotPtr(h.tbl[i], fs.disk, t) {
      SetDirect(i, h.tbl[i], fs.disk, h.own, n, b, t);
    }
    if ino.kind == Directory {
      SlotMapped(h.tbl[i], fs.disk, ino, fs.disk, g.per, n, b);
      DirPastEnd(i, h.tbl[i], fs.disk, ino, fs.disk, h.names, g.per);
    }
    CoreInode(g, fs, h, i, ino, own', b, v);
    assert fs.(disk := fs.disk) == fs;
  }

  /** Only the pointers of an inode matter for ownership. */
  lemma SameSlots(ino: Inode, ino': Inode, i: nat, disk: Disk, own: Own)
    requires InodeOk(i, ino, disk, own) && ino'.ptr == ino.ptr
    ensures InodeOk(i, ino', disk, own)
  {
    forall s ensures SlotOk(i, ino', disk, own, s) {
      assert SlotOk(i, ino, disk, own, s);
    }
  }

  /** A zeroed block becomes the single-indirect block. */
  lemma LinkInd(g: Geo, fs: Fs, h: Ghost, i: nat, b: nat)
    requires Core(g, fs, h) && i in h.tbl && Ownable(g, fs, b) && b !in h.own
    requires |h.tbl[i].ptr| == 15 && h.tbl[i].ptr[12] == 0 && fs.disk[b] == Zeros(4 * g.per)
    ensures var ino := Counting(WithPtr(h.tbl[i], 12, b), g.per);
            var own' := h.own[b := Role(i, Ind)];
            && Core(g, fs, h.(own := own', tbl := h.tbl[i := ino]))
            && OneSlot(h.tbl[i], fs.disk, ino, fs.disk, Ind, b)
            && forall m: nat {:trigger BlockOf(ino, fs.disk, g.per, m)} ::
                 BlockOf(ino, fs.disk, g.per, m) == BlockOf(h.tbl[i], fs.disk, g.per, m)
  {
    var ino := Counting(WithPtr(h.tbl[i], 12, b), g.per);
    var own' := h.own[b := Role(i, Ind)];
    var v := fs.disk[b];
    assert fs.disk[b := v] == fs.disk;
    IndOk(i, h.tbl[i], fs.disk, h.own, b);
    SameSlots(WithPtr(h.tbl[i], 12, b), ino, i, fs.disk, own');
    forall t ensures SlotPtr(ino, fs.disk, t) == if t == Ind then b else SlotPtr(h.tbl[i], fs.disk, t) {
      SetInd(i, h.tbl[i], fs.disk, h.own, b, t);
    }
    forall m: nat ensures BlockOf(ino, fs.disk, g.per, m) == BlockOf(h.tbl[i], fs.disk, g.per, m) {
      BlockOfIsSlot(h.tbl[i], fs.disk, g.per, m);
      BlockOfIsSlot(ino, fs.disk, g.per, m);
    }
    if ino.kind == Directory {
      DirPastEnd(i, h.tbl[i], fs.disk, ino, fs.disk, h.names, g.per);
    }
    CoreInode(g, fs, h, i, ino, own', b, v);
    assert fs.(disk := fs.disk) == fs;
  }

  /** A data block is never one of the inode's pointer blocks. */
  lemma DataNotInd(i: nat, ino: Inode, disk: Disk, own: Own, per: nat, m: nat)
    requires InodeOk(i, ino, disk, own) && per > 0 && Sized(disk, per) && BlockOf(ino, disk, per, m) != 0
    ensures BlockOf(ino, disk, per, m) != ino.ptr[12]
  {
    BlockOfRole(i, ino, disk, own, per, m);
    if ino.ptr[12] != 0 {
      assert SlotOk(i, ino, disk, own, Ind);
    }
  }

  /** A word of the single-indirect block: the inode after block `12 + k` is set to `b`. */
  lemma LinkSingle(g: Geo, fs: Fs, h: Ghost, i: nat, k: nat, b: nat)
    requires Core(g, fs, h) && i in h.tbl && k < g.per && Ownable(g, fs, b) && b !in h.own
    requires |h.tbl[i].ptr| == 15 && h.tbl[i].ptr[12] != 0
    requires h.tbl[i].kind == Directory ==> 12 + k >= DirBlocks(h.tbl[i], g.per)
    ensures h.tbl[i].ptr[12] in h.own && h.own[h.tbl[i].ptr[12]] == Role(i, Ind)
    ensures h.tbl[i].ptr[12] in fs.disk && 4 * k + 4 <= |fs.disk[h.tbl[i].ptr[12]]|
    ensures var ino := Counting(h.tbl[i], g.per);
            var own' := h.own[b := Role(i, Single(k))];
            var disk' := WithWord(fs.disk, h.tbl[i].ptr[12], k, b);
            && Core(g, fs.(disk := disk'), h.(own := own', tbl := h.tbl[i := ino]))
            && OneSlot(h.tbl[i], fs.disk, ino, disk', DataSlot(g.per, 12 + k), b)
  {
    var old_ := h.tbl[i];
    var t := old_.ptr[12];
    assert SlotOk(i, old_, fs.disk, h.own, Ind);
    OwnedBlock(g, fs, h.own, t);
    var ino := Counting(old_, g.per);
    var own' := h.own[b := Role(i, Single(k))];
    var disk' := WithWord(fs.disk, t, k, b);
    SingleOk(i, old_, fs.disk, h.own, k, b);
    SameSlots(old_, ino, i, disk', own');
    forall s ensures SlotPtr(ino, disk', s) == if s == Single(k) then b else SlotPtr(old_, fs.disk, s) {
      SetSingle(i, old_, fs.disk, h.own, k, b, s);
    }
    if ino.kind == Directory {
      SlotMapped(old_, fs.disk, ino, disk', g.per, 12 + k, b);
      forall m: nat | m < DirBlocks(old_, g.per)
        ensures var c := BlockOf(old_, fs.disk, g.per, m); c != 0 && c in fs.disk ==>
                c in disk' && disk'[c] == fs.disk[c]
      {
        if BlockOf(old_, fs.disk, g.per, m) != 0 {
          DataNotInd(i, old_, fs.disk, h.own, g.per, m);
        }
      }
      DirPastEnd(i, old_, fs.disk, ino, disk', h.names, g.per);
    }
    CoreInode(g, fs, h, i, ino, own', t, disk'[t]);
  }

  /** The chunks of an inode that gained block `b` at `n`: one new, the others as they were. */
  ghost predicate Appended(ino: Inode, disk: Disk, ino': Inode, disk': Disk, per: nat, n: nat, v: Block) {
    && |ino.ptr| == |ino'.ptr| == 15 && per > 0 && Sized(disk, per) && Sized(disk', per)
    && forall m: nat {:trigger Chunk(ino', disk', per, m)} ::
         Chunk(ino', disk', per, m) == if m == n then v else Chunk(ino, disk, per, m)
  }

  lemma ChunksAppended(i: nat, ino: Inode, disk: Disk, own: Own, ino': Inode, disk': Disk, per: nat, n: nat, b: nat)
    requires InodeOk(i, ino, disk, own) && per > 0 && Sized(disk, per) && Sized(disk', per)
    requires Mapped(ino, disk, ino', disk', per, n, b) && b != 0 && b in disk && b !in own
    requires forall c :: c in disk && (c !in own || IsData(own[c].slot)) && c != ino'.ptr[12] ==>
               c in disk' && disk'[c] == disk[c]
    requires b != ino'.ptr[12] && (ino'.ptr[12] != ino.ptr[12] ==> ino'.ptr[12] !in own)
    requires forall c :: c in own ==> c in disk
    ensures Appended(ino, disk, ino', disk', per, n, disk[b])
  {
    forall m: nat ensures Chunk(ino', disk', per, m) == if m == n then disk[b] else Chunk(ino, disk, per, m) {
      assert BlockOf(ino', disk', per, m) == if m == n then b else BlockOf(ino, disk, per, m);
      if m != n && BlockOf(ino, disk, per, m) != 0 {
        BlockOfRole(i, ino, disk, own, per, m);
        DataNotInd(i, ino, disk, own, per, m);
      }
    }
  }

  /** Blocks that gained an owner belong to `i`. */
  ghost predicate OwnMore(own: Own, own': Own, i: nat) {
    forall b {:trigger own'[b]} :: b in own' ==> own'[b].ino == i || (b in own && own[b] == own'[b])
  }

  /** What set_block_of leaves: logical block `n` of inode `i` is `b`, and the rest of the volume is as it was. */
  ghost predicate BlockSet(g: Geo, fs: Fs, h: Ghost, fs': Fs, h': Ghost, i: nat, ino: Inode, ino': Inode, n: nat,
                           b: nat) {
    && g.per > 0 && h'.tbl == h.tbl[i := ino'] && h'.names == h.names && h'.up == h.up
    && ino' == ino.(ptr := ino'.ptr, blocks := ino'.blocks)
    && b in fs.disk && Appended(ino, fs.disk, ino', fs'.disk, g.per, n, fs.disk[b])
    && Mapped(ino, fs.disk, ino', fs'.disk, g.per, n, b)
    && (Accounted(i, ino, fs.disk, h.own, g.per) && BlockOf(ino, fs.disk, g.per, n) == 0 ==>
          Accounted(i, ino', fs'.disk, h'.own, g.per))
    && SameBut(g, fs, h, fs', h', {i}) && OwnMore(h.own, h'.own, i)
    && fs' == fs.(blocks := fs'.blocks, disk := fs'.disk)
  }

  lemma DirectSet(g: Geo, fs: Fs, h: Ghost, i: nat, n: nat, b: nat)
    requires Core(g, fs, h) && i in h.tbl && n < 12 && Ownable(g, fs, b) && b !in h.own
    requires h.tbl[i].kind == Directory ==> n >= DirBlocks(h.tbl[i], g.per)
    ensures |h.tbl[i].ptr| == 15
    ensures var ino' := Counting(WithPtr(h.tbl[i], n, b), g.per);
            var h' := h.(own := h.own[b := Role(i, Direct(n))], tbl := h.tbl[i := ino']);
            BlockSet(g, fs, h, fs, h', i, h.tbl[i], ino', n, b)
  {
    var ino := h.tbl[i];
    var ino' := Counting(WithPtr(ino, n, b), g.per);
    var h' := h.(own := h.own[b := Role(i, Direct(n))], tbl := h.tbl[i := ino']);
    LinkDirect(g, fs, h, i, n, b);
    SlotMapped(ino, fs.disk, ino', fs.disk, g.per, n, b);
    forall m: nat
      ensures Chunk(ino', fs.disk, g.per, m) == if m == n then fs.disk[b] else Chunk(ino, fs.disk, g.per, m)
    {
      assert BlockOf(ino', fs.disk, g.per, m) == if m == n then b else BlockOf(ino, fs.disk, g.per, m);
    }
    BlockOfIsSlot(ino, fs.disk, g.per, n);
    if Accounted(i, ino, fs.disk, h.own, g.per) && BlockOf(ino, fs.disk, g.per, n) == 0 {
      OwnedBlock(g, fs, h.own, 0);
      AccountMore(i, ino, ino', fs.disk, fs.disk, h.own, Direct(n), b, g.per);
    }
    SameButRefl(g, fs, h, fs, h', {i});
  }

  /** Inode `i` has its single-indirect block, and reads as before. */
  ghost predicate IndReady(g: Geo, fs: Fs, h: Ghost, fs': Fs, h': Ghost, i: nat, ino: Inode, ino': Inode) {
    && h'.tbl == h.tbl[i := ino'] && h'.names == h.names && h'.up == h.up
    && |ino.ptr| == |ino'.ptr| == 15 && ino'.ptr[12] != 0
    && ino' == ino.(ptr := ino'.ptr, blocks := ino'.blocks)
    && g.per > 0 && Sized(fs.disk, g.per) && Sized(fs'.disk, g.per)
    && (forall m: nat {:trigger Chunk(ino', fs'.disk, g.per, m)} ::
          Chunk(ino', fs'.disk, g.per, m) == Chunk(ino, fs.disk, g.per, m))
    && (forall m: nat {:trigger BlockOf(ino', fs'.disk, g.per, m)} ::
          BlockOf(ino', fs'.disk, g.per, m) == BlockOf(ino, fs.disk, g.per, m))
    && (Accounted(i, ino, fs.disk, h.own, g.per) ==> Accounted(i, ino', fs'.disk, h'.own, g.per))
    && SameBut(g, fs, h, fs', h', {i}) && OwnMore(h.own, h'.own, i)
    && fs' == fs.(blocks := fs'.blocks, disk := fs'.disk)
  }

  lemma IndSet(g: Geo, fs: Fs, fs1: Fs, h: Ghost, i: nat, ind: nat)
    requires Core(g, fs, h) && Core(g, fs1, h) && i in h.tbl && Ownable(g, fs1, ind) && ind !in h.own
    requires |h.tbl[i].ptr| == 15 && h.tbl[i].ptr[12] == 0
    requires fs1.disk == fs.disk[ind := Zeros(4 * g.per)] && fs1 == fs.(blocks := fs1.blocks, disk := fs1.disk)
    ensures var ino' := Counting(WithPtr(h.tbl[i], 12, ind), g.per);
            IndReady(g, fs, h, fs1, h.(own := h.own[ind := Role(i, Ind)], tbl := h.tbl[i := ino']), i, h.tbl[i], ino')
  {
    var ino := h.tbl[i];
    var ino' := Counting(WithPtr(ino, 12, ind), g.per);
    var h' := h.(own := h.own[ind := Role(i, Ind)], tbl := h.tbl[i := ino']);
    LinkInd(g, fs1, h, i, ind);
    forall m: nat
      ensures BlockOf(ino', fs1.disk, g.per, m) == BlockOf(ino, fs.disk, g.per, m)
      ensures Chunk(ino', fs1.disk, g.per, m) == Chunk(ino, fs.disk, g.per, m)
    {
      ChunkKept(i, ino, fs.disk, h.own, ind, Zeros(4 * g.per), g.per, m);
      assert BlockOf(ino', fs1.disk, g.per, m) == BlockOf(ino, fs1.disk, g.per, m);
    }
    if Accounted(i, ino, fs.disk, h.own, g.per) {
      OwnedBlock(g, fs, h.own, 0);
      forall t ensures SlotPtr(ino, fs1.disk, t) == SlotPtr(ino, fs.disk, t) {
        WriteKeepsPtr(i, ino, fs.disk, h.own, ind, Zeros(4 * g.per), t);
      }
      forall t ensures SlotPtr(ino', fs1.disk, t) == if t == Ind then ind else SlotPtr(ino, fs.disk, t) {
        assert SlotPtr(ino', fs1.disk, t) == if t == Ind then ind else SlotPtr(ino, fs1.disk, t);
      }
      AccountMore(i, ino, ino', fs.disk, fs1.disk, h.own, Ind, ind, g.per);
    }
    SameButWrite(g, fs, h, fs1, h', ind, Zeros(4 * g.per), {i});
  }

  lemma SingleSet(g: Geo, fs: Fs, h: Ghost, i: nat, k: nat, b: nat)
    requires Core(g, fs, h) && i in h.tbl && k < g.per && Ownable(g, fs, b) && b !in h.own
    requires |h.tbl[i].ptr| == 15 && h.tbl[i].ptr[12] != 0
    requires h.tbl[i].kind == Directory ==> 12 + k >= DirBlocks(h.tbl[i], g.per)
    ensures h.tbl[i].ptr[12] in fs.disk && 4 * k + 4 <= |fs.disk[h.tbl[i].ptr[12]]|
    ensures var ino' := Counting(h.tbl[i], g.per);
            var fs' := fs.(disk := WithWord(fs.disk, h.tbl[i].ptr[12], k, b));
            var h' := h.(own := h.own[b := Role(i, Single(k))], tbl := h.tbl[i := ino']);
            BlockSet(g, fs, h, fs', h', i, h.tbl[i], ino', 12 + k, b)
  {
    LinkSingle(g, fs, h, i, k, b);
    var ino := h.tbl[i];
    var t := ino.ptr[12];
    var ino' := Counting(ino, g.per);
    var fs' := fs.(disk := WithWord(fs.disk, t, k, b));
    var h' := h.(own := h.own[b := Role(i, Single(k))], tbl := h.tbl[i := ino']);
    SlotMapped(ino, fs.disk, ino', fs'.disk, g.per, 12 + k, b);
    forall c | c in h.own ensures c in fs.disk {
      OwnedBlock(g, fs, h.own, c);
    }
    ChunksAppended(i, ino, fs.disk, h.own, ino', fs'.disk, g.per, 12 + k, b);
    BlockOfIsSlot(ino, fs.disk, g.per, 12 + k);
    if Accounted(i, ino, fs.disk, h.own, g.per) && BlockOf(ino, fs.disk, g.per, 12 + k) == 0 {
      OwnedBlock(g, fs, h.own, 0);
      AccountMore(i, ino, ino', fs.disk, fs'.disk, h.own, Single(k), b, g.per);
    }
    SameButWrite(g, fs, h, fs', h', t, fs'.disk[t], {i});
  }

  lemma ReadyThenSet(g: Geo, fs: Fs, h: Ghost, fs1: Fs, h1: Ghost, fs2: Fs, h2: Ghost, i: nat,
                     ino: Inode, ino1: Inode, ino2: Inode, n: nat, b: nat)
    requires IndReady(g, fs, h, fs1, h1, i, ino, ino1) && BlockSet(g, fs1, h1, fs2, h2, i, ino1, ino2, n, b)
    requires b in fs.disk && fs1.disk[b] == fs.disk[b]
    ensures BlockSet(g, fs, h, fs2, h2, i, ino, ino2, n, b)
  {
    forall m: nat
      ensures Chunk(ino2, fs2.disk, g.per, m) == if m == n then fs.disk[b] else Chunk(ino, fs.disk, g.per, m)
    {
      assert Chunk(ino1, fs1.disk, g.per, m) == Chunk(ino, fs.disk, g.per, m);
    }
    forall m: nat ensures BlockOf(ino2, fs2.disk, g.per, m) == if m == n then b else BlockOf(ino, fs.disk, g.per, m) {
      assert BlockOf(ino1, fs1.disk, g.per, m) == BlockOf(ino, fs.disk, g.per, m);
    }
    assert BlockOf(ino1, fs1.disk, g.per, n) == BlockOf(ino, fs.disk, g.per, n);
    SameButTrans(g, fs, h, fs1, h1, fs2, h2, {i});
  }

  /** A directory grown by one block that holds one entry. */
  lemma DirGrown(d: nat, ino: Inode, disk: Disk, own: Own, names: Names, per: nat, child: nat, name: Name, kind: Byte)
    requires InodeOk(d, ino, disk, own) && 16 <= per && 4 * per <= 32768 && Sized(disk, per)
    requires DirOk(d, ino, disk, names, per) && Key(d, name) !in names
    requires 0 < child < 0x1_0000_0000 && 0 < |name| < 256 && 8 + |name| <= 4 * per
    requires BlockOf(ino, disk, per, DirBlocks(ino, per)) != 0
    ensures var w := BlockOf(ino, disk, per, DirBlocks(ino, per));
            var v := Solo(4 * per, child, name, kind);
            DirOk(d, ino.(size := ino.size + 4 * per), disk[w := v],
              names[Key(d, name) := Entry(child, DirBlocks(ino, per), 0, kind)], per)
  {
    var n := DirBlocks(ino, per);
    var w := BlockOf(ino, disk, per, n);
    var v := Solo(4 * per, child, name, kind);
    var ino' := ino.(size := ino.size + 4 * per);
    var names' := names[Key(d, name) := Entry(child, n, 0, kind)];
    GrownSize(ino, per);
    SoloOk(4 * per, child, name, kind, Ent(0, child, name, kind));
    var disk' := disk[w := v];
    forall m: nat | m < n + 1 ensures BlockNames(d, ino', disk', names', per, m) {
      forall e | In(v, 0, e) ensures e == Ent(0, child, name, kind) {
        SoloOk(4 * per, child, name, kind, e);
      }
      GrownBlock(d, ino, disk, own, names, per, v, child, name, kind, m);
    }
    forall k | k in names' && k.dir == d ensures NameFound(ino', disk', names', per, k) {
      OtherChunkKept(d, ino, disk, own, per, n, v, names'[k].n);
      SameBlockOf(ino, ino', disk', per, names'[k].n);
      if k != Key(d, name) {
        assert NameFound(ino, disk, names, per, k);
      }
    }
  }

  lemma GrownSize(ino: Inode, per: nat)
    requires per > 0 && ino.size == DirBlocks(ino, per) * (4 * per)
    ensures var ino' := ino.(size := ino.size + 4 * per);
            DirBlocks(ino', per) == DirBlocks(ino, per) + 1 && ino'.size == DirBlocks(ino', per) * (4 * per)
  {
    var n := DirBlocks(ino, per);
    assert (n + 1) * (4 * per) == n * (4 * per) + 4 * per;
    NumberParts(4 * per, n + 1, 0);
  }

  lemma GrownBlock(d: nat, ino: Inode, disk: Disk, own: Own, names: Names, per: nat, v: Block, child: nat, name: Name,
                   kind: Byte, m: nat)
    requires InodeOk(d, ino, disk, own) && per > 0 && Sized(disk, per) && |v| == 4 * per && Tiled(v, 0)
    requires DirOk(d, ino, disk, names, per) && Key(d, name) !in names && m <= DirBlocks(ino, per)
    requires BlockOf(ino, disk, per, DirBlocks(ino, per)) != 0
    requires forall e {:trigger In(v, 0, e)} :: In(v, 0, e) ==> e == Ent(0, child, name, kind)
    ensures var n := DirBlocks(ino, per);
            var w := BlockOf(ino, disk, per, n);
            BlockNames(d, ino.(size := ino.size + 4 * per), disk[w := v],
              names[Key(d, name) := Entry(child, n, 0, kind)], per, m)
  {
    var n := DirBlocks(ino, per);
    var w := BlockOf(ino, disk, per, n);
    OtherChunkKept(d, ino, disk, own, per, n, v, m);
    SameBlockOf(ino, ino.(size := ino.size + 4 * per), disk[w := v], per, m);
    if m < n {
      assert BlockNames(d, ino, disk, names, per, m);
    }
  }

  lemma SameBlockOf(ino: Inode, ino': Inode, disk: Disk, per: nat, n: nat)
    requires |ino.ptr| == 15 && ino'.ptr == ino.ptr && per > 0
    ensures BlockOf(ino', disk, per, n) == BlockOf(ino, disk, per, n)
  {
  }

  /** The inode table on disk is no part of the consistency of blocks and names. */
  lemma CoreInodes(g: Geo, fs: Fs, h: Ghost, inodes: map<nat, Inode>)
    requires Core(g, fs, h)
    ensures Core(g, fs.(inodes := inodes), h)
  {
    var fs' := fs.(inodes := inodes);
    forall b | b in h.own ensures Ownable(g, fs', b) {
      OwnedBlock(g, fs, h.own, b);
    }
  }

  lemma SameButTransDisk(g: Geo, fs: Fs, h: Ghost, fs1: Fs, fs2: Fs, h': Ghost, but: set<nat>)
    requires SameBut(g, fs, h, fs1, h', but) && fs2.disk == fs1.disk
    ensures SameBut(g, fs, h, fs2, h', but)
  {
    forall j | j in h.tbl && j !in but ensures SameInode(g, fs, h, fs2, h', j) {
      assert SameInode(g, fs, h, fs1, h', j);
    }
  }

  /** The inode bitmap may change as long as it covers the live and the reserved inodes. */
  lemma CoreInos(g: Geo, fs: Fs, h: Ghost, p': Pool)
    requires Core(g, fs, h) && PoolOk(p', g.ipg) && |p'.bits| == |fs.inos.bits|
    requires forall j: nat {:trigger InoUsed(g, p', j)} :: InoUsed(g, fs.inos, j) && (j in h.tbl || j in g.special) ==>
             InoUsed(g, p', j)
    ensures Core(g, fs.(inos := p'), h)
  {
    var fs' := fs.(inos := p');
    forall b | b in h.own ensures Ownable(g, fs', b) {
      OwnedBlock(g, fs, h.own, b);
    }
  }

  lemma LiveInode(g: Geo, fs: Fs, h: Ghost, i: nat)
    requires Core(g, fs, h)
    ensures i in h.tbl ==> InoUsed(g, fs.inos, i) && i !in g.special && 0 < i < 0x1_0000_0000
  {
    var kind := if i in h.tbl then h.tbl[i].kind else Unused;
  }

  // ----- Writing a file piece by piece -----

  /** File `i` holds the first `bi` pieces of `data` and nothing else. */
  ghost predicate Holds(g: Geo, fs: Fs, h: Ghost, i: nat, ino: Inode, data: seq<Byte>, bi: nat) {
    && |ino.ptr| == 15 && g.per > 0 && Sized(fs.disk, g.per)
    && (forall m: nat {:trigger Chunk(ino, fs.disk, g.per, m)} :: m < bi ==>
       Chunk(ino, fs.disk, g.per, m) == Piece(data, 4 * g.per, m))
    && (forall m: nat {:trigger BlockOf(ino, fs.disk, g.per, m)} :: m >= bi ==> BlockOf(ino, fs.disk, g.per, m) == 0)
    && Accounted(i, ino, fs.disk, h.own, g.per)
  }

  /** While file `i` is being written: the rest of the volume is as in `fs0`, `h0`. */
  ghost predicate Filling(g: Geo, fs: Fs, h: Ghost, i: nat, ino: Inode, data: seq<Byte>, bi: nat, fs0: Fs, h0: Ghost) {
    && Core(g, fs, h) && i in h.tbl && h.tbl[i] == ino && ino.kind == Regular
    && Holds(g, fs, h, i, ino, data, bi)
    && h == h0.(own := h.own, tbl := h0.tbl[i := ino]) && OwnMore(h0.own, h.own, i)
    && SameBut(g, fs0, h0, fs, h, {i})
    && fs == fs0.(blocks := fs.blocks, disk := fs.disk)
  }

  /** Writing a block nobody owns does not disturb the file. */
  lemma HoldsKept(g: Geo, fs: Fs, h: Ghost, i: nat, ino: Inode, data: seq<Byte>, bi: nat, fs': Fs, w: nat, v: Block)
    requires Core(g, fs, h) && i in h.tbl && h.tbl[i] == ino && Holds(g, fs, h, i, ino, data, bi)
    requires w !in h.own && |v| == 4 * g.per && fs'.disk == fs.disk[w := v]
    ensures Holds(g, fs', h, i, ino, data, bi)
  {
    forall m: nat
      ensures BlockOf(ino, fs'.disk, g.per, m) == BlockOf(ino, fs.disk, g.per, m)
      ensures Chunk(ino, fs'.disk, g.per, m) == Chunk(ino, fs.disk, g.per, m)
    {
      ChunkKept(i, ino, fs.disk, h.own, w, v, g.per, m);
    }
    forall b | b in h.own && h.own[b].ino == i ensures SlotPtr(ino, fs'.disk, h.own[b].slot) == b {
      WriteKeepsPtr(i, ino, fs.disk, h.own, w, v, h.own[b].slot);
    }
  }

  /** Mapping a block that holds the next piece. */
  lemma HoldsMore(g: Geo, fs: Fs, h: Ghost, fs': Fs, h': Ghost, i: nat, ino: Inode, ino': Inode, data: seq<Byte>,
                  bi: nat, b: nat)
    requires Core(g, fs', h') && Holds(g, fs, h, i, ino, data, bi)
    requires BlockSet(g, fs, h, fs', h', i, ino, ino', bi, b) && fs.disk[b] == Piece(data, 4 * g.per, bi)
    ensures Holds(g, fs', h', i, ino', data, bi + 1)
  {
    assert BlockOf(ino, fs.disk, g.per, bi) == 0;
    forall m: nat | m < bi + 1 ensures Chunk(ino', fs'.disk, g.per, m) == Piece(data, 4 * g.per, m) {
      assert m < bi ==> Chunk(ino, fs.disk, g.per, m) == Piece(data, 4 * g.per, m);
    }
    forall m: nat | m >= bi + 1 ensures BlockOf(ino', fs'.disk, g.per, m) == 0 {
      assert BlockOf(ino, fs.disk, g.per, m) == 0;
    }
  }

  lemma OwnMoreTrans(own: Own, own1: Own, own2: Own, i: nat)
    requires OwnMore(own, own1, i) && OwnMore(own1, own2, i)
    ensures OwnMore(own, own2, i)
  {
    forall b | b in own2 ensures own2[b].ino == i || (b in own && own[b] == own2[b]) {
      if own2[b].ino != i {
        assert own1[b] == own2[b];
      }
    }
  }

  lemma FillMore(g: Geo, fs: Fs, h: Ghost, fs': Fs, h': Ghost, i: nat, ino: Inode, ino': Inode, data: seq<Byte>,
                 bi: nat, b: nat,
                 fs0: Fs, h0: Ghost)
    requires Filling(g, fs, h, i, ino, data, bi, fs0, h0) && Core(g, fs', h')
    requires BlockSet(g, fs, h, fs', h', i, ino, ino', bi, b) && fs.disk[b] == Piece(data, 4 * g.per, bi)
    ensures Filling(g, fs', h', i, ino', data, bi + 1, fs0, h0)
  {
    HoldsMore(g, fs, h, fs', h', i, ino, ino', data, bi, b);
    OwnMoreTrans(h0.own, h.own, h'.own, i);
    SameButTrans(g, fs0, h0, fs, h, fs', h', {i});
    assert h0.tbl[i := ino][i := ino'] == h0.tbl[i := ino'];
  }

  /** An inode with no blocks. */
  ghost predicate Blank(ino: Inode) {
    ino.ptr == seq(15, _ => 0) && ino.blocks == 0
  }

  lemma HoldsNothing(g: Geo, fs: Fs, h: Ghost, i: nat, ino: Inode, data: seq<Byte>)
    requires Core(g, fs, h) && Blank(ino) && forall b {:trigger h.own[b]} :: b in h.own ==> h.own[b].ino != i
    ensures Holds(g, fs, h, i, ino, data, 0)
  {
    forall m: nat ensures BlockOf(ino, fs.disk, g.per, m) == 0 {
      BlockOfIsSlot(ino, fs.disk, g.per, m);
      EmptyInode(i, ino, fs.disk, h.own);
    }
    assert Mine(h.own, i) == {};
  }

  /** A live file with no blocks yet. */
  lemma CoreNewFile(g: Geo, fs: Fs, h: Ghost, i: nat, ino: Inode)
    requires Core(g, fs, h) && Blank(ino) && ino.kind == Regular
    requires InoUsed(g, fs.inos, i) && i !in g.special && i < 0x1_0000_0000
    ensures Core(g, fs, h.(tbl := h.tbl[i := ino]))
  {
    var tbl' := h.tbl[i := ino];
    EmptyInode(i, ino, fs.disk, h.own);
    forall j | j in tbl' && j != i ensures InodeOk(j, tbl'[j], fs.disk, h.own) && InoUsed(g, fs.inos, j) {
      var was := h.tbl[j];
    }
    forall d | d in tbl' && tbl'[d].kind == Directory
      ensures |tbl'[d].ptr| == 15 && DirOk(d, tbl'[d], fs.disk, h.names, g.per)
    {
      var was := h.tbl[d];
    }
  }

  /** The fields of an inode other than its pointers, kind and size of a directory. */
  lemma CoreTouch(g: Geo, fs: Fs, h: Ghost, i: nat, ino: Inode)
    requires Core(g, fs, h) && i in h.tbl && ino.ptr == h.tbl[i].ptr && ino.kind == h.tbl[i].kind
    requires ino.kind == Directory ==> ino.size == h.tbl[i].size
    ensures Core(g, fs, h.(tbl := h.tbl[i := ino]))
  {
    var tbl' := h.tbl[i := ino];
    var old_ := h.tbl[i];
    SameSlots(old_, ino, i, fs.disk, h.own);
    forall j | j in tbl' && j != i ensures InodeOk(j, tbl'[j], fs.disk, h.own) && InoUsed(g, fs.inos, j) {
      var was := h.tbl[j];
    }
    forall d | d in tbl' && tbl'[d].kind == Directory
      ensures |tbl'[d].ptr| == 15 && DirOk(d, tbl'[d], fs.disk, h.names, g.per)
    {
      if d == i {
        forall m: nat ensures BlockOf(ino, fs.disk, g.per, m) == BlockOf(old_, fs.disk, g.per, m) {
          SameBlockOf(old_, ino, fs.disk, g.per, m);
        }
        DirPastEnd(i, old_, fs.disk, ino, fs.disk, h.names, g.per);
      } else {
        var was := h.tbl[d];
      }
    }
  }

  lemma SameButTransDisk2(g: Geo, fs: Fs, fs1: Fs, h: Ghost, fs2: Fs, h': Ghost, but: set<nat>)
    requires SameBut(g, fs1, h, fs2, h', but) && fs1.disk == fs.disk
    ensures SameBut(g, fs, h, fs2, h', but)
  {
    forall j | j in h.tbl && j !in but ensures SameInode(g, fs, h, fs2, h', j) {
      assert SameInode(g, fs1, h, fs2, h', j);
    }
  }

  /** A later change to inodes in `but` alone. */
  lemma SameButAdded(g: Geo, fs: Fs, h: Ghost, fs': Fs, h1: Ghost, h2: Ghost, but: set<nat>)
    requires SameBut(g, fs, h, fs', h1, but)
    requires forall j {:trigger h1.tbl[j]} :: j in h.tbl && j in h1.tbl && j !in but ==>
             j in h2.tbl && h2.tbl[j] == h1.tbl[j]
    ensures SameBut(g, fs, h, fs', h2, but)
  {
    forall j | j in h.tbl && j !in but ensures SameInode(g, fs, h, fs', h2, j) {
      assert SameInode(g, fs, h, fs', h1, j);
      var was := h1.tbl[j];
    }
  }

  // ----- A new directory -----

  /** Inode `i` becomes a directory in `d` that holds "." and ".." in block `blk`. */
  ghost function Born(h: Ghost, d: nat, i: nat, ino: Inode, blk: nat, kind: Byte): Ghost {
    h.(own := h.own[blk := Role(i, Direct(0))], tbl := h.tbl[i := ino],
       names := h.names[Key(i, DOT) := Entry(i, 0, 0, kind)][Key(i, DOT_DOT) := Entry(d, 0, 12, kind)])
  }

  function FirstDir(per: nat, blk: nat): Inode {
    Inode(Directory, 4 * per, 2, 4 * per / 512, [blk] + seq(14, _ => 0))
  }

  lemma NewDirOk(i: nat, ino: Inode, disk: Disk, names: Names, per: nat, d: nat, blk: nat, kind: Byte)
    requires 16 <= per && 4 * per <= 32768 && Sized(disk, per) && ino == FirstDir(per, blk) && blk != 0 && blk in disk
    requires disk[blk] == DotBlock(4 * per, i, d, kind) && 0 < i < 0x1_0000_0000 && 0 < d < 0x1_0000_0000
    requires forall k: Key :: k in names && k.dir == i ==> k.name == DOT || k.name == DOT_DOT
    requires Key(i, DOT) in names && names[Key(i, DOT)] == Entry(i, 0, 0, kind)
    requires Key(i, DOT_DOT) in names && names[Key(i, DOT_DOT)] == Entry(d, 0, 12, kind)
    ensures DirOk(i, ino, disk, names, per)
  {
    NumberParts(4 * per, 1, 0);
    assert BlockOf(ino, disk, per, 0) == blk;
    var b := disk[blk];
    DotBlockOk(4 * per, i, d, kind, Ent(0, i, DOT, kind));
    DotBlockOk(4 * per, i, d, kind, Ent(12, d, DOT_DOT, kind));
    forall e | In(b, 0, e) ensures Listed(names, i, 0, e) {
      DotBlockOk(4 * per, i, d, kind, e);
    }
    assert BlockNames(i, ino, disk, names, per, 0);
    forall k | k in names && k.dir == i ensures NameFound(ino, disk, names, per, k) {
      assert k == Key(i, DOT) || k == Key(i, DOT_DOT);
    }
  }

  lemma CoreNewDir(g: Geo, fs: Fs, h: Ghost, d: nat, i: nat, blk: nat)
    requires Core(g, fs, h) && i !in h.tbl && InoUsed(g, fs.inos, i) && i !in g.special && 0 < i < 0x1_0000_0000
    requires Ownable(g, fs, blk) && blk !in h.own && fs.disk[blk] == DotBlock(4 * g.per, i, d, TypeByte(g, Directory))
    requires 0 < d < 0x1_0000_0000
    requires forall k: Key :: k in h.names ==> k.dir != i
    ensures Core(g, fs, Born(h, d, i, FirstDir(g.per, blk), blk, TypeByte(g, Directory)))
  {
    var ino := FirstDir(g.per, blk);
    var h' := Born(h, d, i, ino, blk, TypeByte(g, Directory));
    forall b | b in h'.own ensures Ownable(g, fs, b) {
      OwnedBlock(g, fs, h.own, b);
    }
    var none := Inode(Regular, 0, 0, 0, seq(15, _ => 0));
    EmptyInode(i, none, fs.disk, h.own);
    DirectOk(i, none, fs.disk, h.own, 0, blk);
    assert WithPtr(none, 0, blk).ptr == ino.ptr;
    SameSlots(WithPtr(none, 0, blk), ino, i, fs.disk, h'.own);
    forall j | j in h'.tbl && j != i ensures InodeOk(j, h'.tbl[j], fs.disk, h'.own) && InoUsed(g, fs.inos, j) {
      var was := h.tbl[j];
      OwnKeepsInode(j, was, fs.disk, h.own, h'.own);
    }
    NewDirOk(i, ino, fs.disk, h'.names, g.per, d, blk, TypeByte(g, Directory));
    forall e | e in h'.tbl && h'.tbl[e].kind == Directory
      ensures |h'.tbl[e].ptr| == 15 && DirOk(e, h'.tbl[e], fs.disk, h'.names, g.per)
    {
      if e != i {
        var was := h.tbl[e];
        DirNamesKept(e, was, fs.disk, h.names, h'.names, g.per);
      }
    }
  }

  /** A later change that writes no block and alters inodes in `but` alone. */
  lemma SameButThen(g: Geo, fs: Fs, h: Ghost, fs1: Fs, h1: Ghost, fs2: Fs, h2: Ghost, but: set<nat>)
    requires SameBut(g, fs, h, fs1, h1, but) && fs2.disk == fs1.disk
    requires forall j {:trigger h1.tbl[j]} :: j in h.tbl && j in h1.tbl && j !in but ==>
             j in h2.tbl && h2.tbl[j] == h1.tbl[j]
    ensures SameBut(g, fs, h, fs2, h2, but)
  {
    SameButAdded(g, fs, h, fs1, h1, h2, but);
    SameButTransDisk(g, fs, h, fs1, fs2, h2, but);
  }

  lemma CoreUp(g: Geo, fs: Fs, h: Ghost, h': Ghost)
    requires Core(g, fs, h) && h' == h.(up := h'.up)
    ensures Core(g, fs, h')
  {
  }
}
