/**
  A volume of src/ext2.c on a device, behind the block cache of src/bcache.c: bitmaps, group descriptors, the inode
  table and data blocks go through the cache, the superblock straight to the device, and every mutator flushes on
  its way out.
 */
module Ext2Mount {
  import opened Types
  import opened Ext2Map
  import opened Ext2Alloc
  import opened Ext2Dir
  import opened Ext2Path
  import opened Ext2Core
  import opened Ext2Links
  import opened Ext2Fs
  import Bcache

  datatype Which = OfBlocks | OfInodes

  /** What metadata blocks hold: a group's free count and bitmap, and inodes. */
  datatype Item = GroupFree(w: Which, k: nat) | Bitmap(w: Which, k: nat) | InodeAt(i: nat)
  datatype Value = Count(n: nat) | Bits(bits: seq<bool>) | Node(inode: Inode)

  /** A block of the device; a metadata block holds several items. */
  datatype Cell = Meta(items: map<Item, Value>) | Data(v: Block)

  /** The counts that the superblock holds. */
  datatype Super = Super(blocks: int, inodes: int)

  /** The block that holds each item. */
  type Layout = Item -> nat

  ghost predicate Placed(g: Geo, at: Layout) {
    forall x: Item :: at(x) in g.reserved
  }

  predicate IsItem(g: Geo, x: Item) {
    match x
    case GroupFree(_, k) => k < g.groups
    case Bitmap(_, k) => k < g.groups
    case InodeAt(i) => 1 <= i <= g.ipg * g.groups
  }

  function Counts(w: Which, n: nat): seq<Item> {
    seq(n, k requires 0 <= k < n => GroupFree(w, k))
  }

  function Bitmaps(w: Which, n: nat): seq<Item> {
    seq(n, k requires 0 <= k < n => Bitmap(w, k))
  }

  function InodeItems(n: nat): seq<Item> {
    seq(n, i requires 0 <= i < n => InodeAt(i + 1))
  }

  function Items(g: Geo): set<Item> {
    (set x | x in Counts(OfBlocks, g.groups)) + (set x | x in Counts(OfInodes, g.groups)) +
    (set x | x in Bitmaps(OfBlocks, g.groups)) + (set x | x in Bitmaps(OfInodes, g.groups)) +
    (set x | x in InodeItems(g.ipg * g.groups))
  }

  lemma ItemsAre(g: Geo, x: Item)
    ensures x in Items(g) <==> IsItem(g, x)
  {
    match x
    case GroupFree(w, k) =>
      if k < g.groups {
        assert Counts(w, g.groups)[k] == x;
        assert w == OfBlocks || w == OfInodes;
      }
    case Bitmap(w, k) =>
      if k < g.groups {
        assert Bitmaps(w, g.groups)[k] == x;
        assert w == OfBlocks || w == OfInodes;
      }
    case InodeAt(i) =>
      if 1 <= i <= g.ipg * g.groups {
        assert InodeItems(g.ipg * g.groups)[i - 1] == x;
      }
  }

  function PoolOf(fs: Fs, w: Which): Pool {
    if w == OfBlocks then fs.blocks else fs.inos
  }

  function ValueOf(fs: Fs, x: Item): Option<Value> {
    match x
    case GroupFree(w, k) => if k < |PoolOf(fs, w).free| then Some(Count(PoolOf(fs, w).free[k])) else None
    case Bitmap(w, k) => if k < |PoolOf(fs, w).bits| then Some(Bits(PoolOf(fs, w).bits[k])) else None
    case InodeAt(i) => if i in fs.inodes then Some(Node(fs.inodes[i])) else None
  }

  function MetaCell(g: Geo, at: Layout, fs: Fs, b: nat): Cell {
    Meta(map x | x in Items(g) && at(x) == b && ValueOf(fs, x).Some? :: ValueOf(fs, x).value)
  }

  /** The volume as blocks. */
  function Image(g: Geo, at: Layout, fs: Fs): map<nat, Cell> {
    (map b | b in (set x | x in Items(g) :: at(x)) :: MetaCell(g, at, fs, b)) +
    (map b | b in fs.disk :: Data(fs.disk[b]))
  }

  function SuperOf(fs: Fs): Super {
    Super(fs.blocks.total, fs.inos.total)
  }

  ghost predicate Within(image: map<nat, Cell>, blocks: map<nat, Cell>) {
    forall b :: b in image ==> b in blocks && blocks[b] == image[b]
  }

  // ----- Reading a volume back -----

  function Find(at: Layout, blocks: map<nat, Cell>, x: Item): Option<Value> {
    if at(x) in blocks && blocks[at(x)].Meta? && x in blocks[at(x)].items then Some(blocks[at(x)].items[x]) else None
  }

  function FindCount(at: Layout, blocks: map<nat, Cell>, x: Item): nat {
    match Find(at, blocks, x) case Some(Count(n)) => n case _ => 0
  }

  function FindBits(at: Layout, blocks: map<nat, Cell>, x: Item): seq<bool> {
    match Find(at, blocks, x) case Some(Bits(bits)) => bits case _ => []
  }

  function FindPool(g: Geo, at: Layout, blocks: map<nat, Cell>, w: Which, total: int): Pool {
    Pool(seq(g.groups, k requires 0 <= k < g.groups => FindBits(at, blocks, Bitmap(w, k))),
         seq(g.groups, k requires 0 <= k < g.groups => FindCount(at, blocks, GroupFree(w, k))), total)
  }

  predicate HasInode(at: Layout, blocks: map<nat, Cell>, i: nat) {
    var x := Find(at, blocks, InodeAt(i));
    x.Some? && x.value.Node?
  }

  /** The volume that a mount finds on the device. */
  function MountFs(g: Geo, at: Layout, super: Super, blocks: map<nat, Cell>): Fs {
    Fs(FindPool(g, at, blocks, OfBlocks, super.blocks), FindPool(g, at, blocks, OfInodes, super.inodes),
       map i: nat | 1 <= i <= g.ipg * g.groups && HasInode(at, blocks, i) :: Find(at, blocks, InodeAt(i)).value.inode,
       map b | b in blocks && Storable(g, b) && blocks[b].Data? :: blocks[b].v)
  }

  lemma FindsItem(g: Geo, at: Layout, fs: Fs, blocks: map<nat, Cell>, x: Item)
    requires DiskOk(g, fs.disk) && Placed(g, at) && Within(Image(g, at, fs), blocks) && IsItem(g, x)
    ensures Find(at, blocks, x) == ValueOf(fs, x)
  {
    ItemsAre(g, x);
    assert !Storable(g, at(x));
    assert Image(g, at, fs)[at(x)] == MetaCell(g, at, fs, at(x));
    assert blocks[at(x)] == MetaCell(g, at, fs, at(x));
  }

  lemma FindsPool(g: Geo, at: Layout, fs: Fs, blocks: map<nat, Cell>, w: Which)
    requires GeoOk(g, fs) && Placed(g, at) && Within(Image(g, at, fs), blocks)
    ensures FindPool(g, at, blocks, w, PoolOf(fs, w).total) == PoolOf(fs, w)
  {
    var (p, q) := (PoolOf(fs, w), FindPool(g, at, blocks, w, PoolOf(fs, w).total));
    forall k | 0 <= k < g.groups ensures q.bits[k] == p.bits[k] && q.free[k] == p.free[k] {
      FindsItem(g, at, fs, blocks, Bitmap(w, k));
      FindsItem(g, at, fs, blocks, GroupFree(w, k));
    }
    assert q.bits == p.bits && q.free == p.free;
  }

  lemma FindsData(g: Geo, at: Layout, fs: Fs, super: Super, blocks: map<nat, Cell>)
    requires GeoOk(g, fs) && Within(Image(g, at, fs), blocks)
    ensures MountFs(g, at, super, blocks).disk == fs.disk
  {
    var disk := MountFs(g, at, super, blocks).disk;
    forall b: nat ensures b in disk <==> b in fs.disk {
      if b in fs.disk {
        assert Image(g, at, fs)[b] == Data(fs.disk[b]);
      }
    }
    forall b: nat | b in disk ensures disk[b] == fs.disk[b] {
      assert Image(g, at, fs)[b] == Data(fs.disk[b]);
    }
  }

  /** A mount of a device that holds the volume finds the volume, but for inode numbers it does not have. */
  lemma MountFinds(g: Geo, at: Layout, fs: Fs, blocks: map<nat, Cell>)
    requires GeoOk(g, fs) && Placed(g, at) && Within(Image(g, at, fs), blocks)
    ensures MountFs(g, at, SuperOf(fs), blocks) ==
            fs.(inodes := map i | i in fs.inodes && 1 <= i <= g.ipg * g.groups :: fs.inodes[i])
  {
    FindsPool(g, at, fs, blocks, OfBlocks);
    FindsPool(g, at, fs, blocks, OfInodes);
    FindsData(g, at, fs, SuperOf(fs), blocks);
    forall i: nat | 1 <= i <= g.ipg * g.groups ensures Find(at, blocks, InodeAt(i)) == ValueOf(fs, InodeAt(i)) {
      FindsItem(g, at, fs, blocks, InodeAt(i));
    }
  }

  /** A used inode number is one that the inode table has. */
  lemma UsedInTable(g: Geo, fs: Fs, i: nat)
    requires GeoOk(g, fs) && InoUsed(g, fs.inos, i)
    ensures 1 <= i <= g.ipg * g.groups
  {
    Below(i - 1, g.ipg, g.groups);
  }

  lemma Below(r: nat, n: nat, groups: nat)
    requires n > 0 && r / n < groups
    ensures r < n * groups
  {
    assert r == n * (r / n) + r % n;
    assert n * (r / n) + n <= n * groups by {
      assert n * (r / n + 1) <= n * groups;
    }
  }

  /** The blocks of a volume are the same whatever it holds. */
  lemma SameBlocks(g: Geo, at: Layout, fs: Fs, fs': Fs)
    requires GeoOk(g, fs) && GeoOk(g, fs')
    ensures Image(g, at, fs).Keys == Image(g, at, fs').Keys
  {
    forall b: nat ensures b in fs.disk <==> b in fs'.disk {
      assert b in fs.disk <==> Storable(g, b);
    }
  }

  function Changed(before: map<nat, Cell>, after: map<nat, Cell>): set<nat> {
    set b | b in after && !(b in before && before[b] == after[b])
  }

  /** The writes of an operation: afterwards a reader of the cache sees `after`. */
  method Store(c: Bcache.Cache<Cell>, before: map<nat, Cell>, after: map<nat, Cell>)
    requires c.Valid() && c.Safe() && Within(before, c.view) && after.Keys == before.Keys
    modifies c
    ensures c.Valid() && c.Safe() && Within(after, c.view)
  {
    var todo := Changed(before, after);
    while todo != {}
      invariant c.Valid() && c.Safe() && todo <= after.Keys
      invariant forall b :: b in after ==> b in c.view && (b !in todo ==> c.view[b] == after[b])
    {
      var b :| b in todo;
      var _ := Bcache.Perform(c, Bcache.DoWrite(b, after[b]));
      todo := todo - {b};
    }
  }

  /** The writes of an operation and the flush: afterwards the device holds `after`. */
  method Settle(c: Bcache.Cache<Cell>, before: map<nat, Cell>, after: map<nat, Cell>) returns (synced: bool)
    requires c.Valid() && c.Safe() && Within(before, c.view) && after.Keys == before.Keys
    modifies c
    ensures c.Valid() && c.Safe() && Within(after, c.view) && synced && c.disk.blocks == c.view
  {
    Store(c, before, after);
    var a := Bcache.Perform(c, Bcache.DoSync);
    synced := a.ok;
  }

  class Mounted {
    const v: Volume
    const c: Bcache.Cache<Cell>
    const at: Layout
    var super: Super

    ghost predicate Valid()
      reads this, v, c
    {
      && v.Valid() && c.Valid() && c.Safe() && Placed(v.g, at)
      && super == SuperOf(v.fs) && Within(Image(v.g, at, v.fs), c.view)
    }

    /** Everything a reader of the cache sees is on the device. */
    ghost predicate Flushed()
      reads c
    {
      c.disk.blocks == c.view
    }

    /** The cache of a volume whose blocks are on the device. */
    constructor (v: Volume, at: Layout, device: Bcache.Disk<Cell>, nslots: nat, size: nat)
      requires v.Valid() && Placed(v.g, at) && Within(Image(v.g, at, v.fs), device.blocks) && device.bad == {}
      requires 0 < nslots <= Bcache.TWO32 / 2
      ensures Valid() && Flushed() && this.v == v && this.at == at && fresh(c)
    {
      this.v, this.at, super := v, at, SuperOf(v.fs);
      c := new Bcache.Cache<Cell>(nslots, Meta(map[]), device, size);
    }

    /** A public mutator: the operation, its writes, and the flush on the way out. */
    method Mutate(op: Op) returns (ok: bool, synced: bool)
      requires Valid() && Sensible(op)
      modifies this, v`fs, v`h, c
      ensures Valid() && synced && Flushed() && (ok ==> Did(v.g, v.fs, v.h, op))
    {
      var before := Image(v.g, at, v.fs);
      ghost var fs0 := v.fs;
      ok := v.Apply(op);
      SameBlocks(v.g, at, fs0, v.fs);
      super := SuperOf(v.fs);
      synced := Settle(c, before, Image(v.g, at, v.fs));
    }

    /** After any run of mutators, the device holds the volume. */
    method Run(ops: seq<Op>) returns (results: seq<bool>)
      requires Valid() && Flushed()
      requires forall op :: op in ops ==> Sensible(op)
      modifies this, v`fs, v`h, c
      ensures Valid() && Flushed() && |results| == |ops|
    {
      results := [];
      for k := 0 to |ops|
        invariant Valid() && Flushed() && |results| == k
      {
        assert ops[k] in ops;
        var ok, _ := Mutate(ops[k]);
        results := results + [ok];
      }
    }

    /** A mount of the device as it stands: a consistent volume with the same inodes, names and contents. */
    method Remount() returns (w: Volume)
      requires Valid() && Flushed()
      ensures fresh(w) && w.Valid() && w.g == v.g && w.h == v.h
      ensures w.fs.disk == v.fs.disk && w.fs.blocks == v.fs.blocks && w.fs.inos == v.fs.inos
      ensures forall p {:trigger w.Contents(p)} :: w.Contents(p) == v.Contents(p)
    {
      var fs := MountFs(v.g, at, super, c.disk.blocks);
      MountFinds(v.g, at, v.fs, c.disk.blocks);
      CoreInodes(v.g, v.fs, v.h, fs.inodes);
      forall i | i in v.h.tbl ensures i in fs.inodes && fs.inodes[i] == v.h.tbl[i] {
        assert v.h.tbl[i] == v.h.tbl[i];
        UsedInTable(v.g, v.fs, i);
      }
      w := new Volume(v.g, fs, v.h);
    }

    /** What was written is what is read back after a new mount of the device. */
    method WriteRemountRead(path: seq<Byte>, data: seq<Byte>) returns (ok: bool, r: Option<seq<Byte>>)
      requires Valid() && |data| < 0x1_0000_0000
      modifies this, v`fs, v`h, c
      ensures Valid() && Flushed() && (ok ==> r == Some(data))
    {
      var synced;
      ok, synced := Mutate(Put(path, data));
      var w := Remount();
      r := w.ReadPath(path);
    }
  }

  /** The small volume, its metadata in block 1, on a device and mounted. */
  method TinyMounted() returns (m: Mounted)
    ensures m.Valid() && m.Flushed()
  {
    var v := Tiny();
    var at: Layout := (_: Item) => 1;
    m := new Mounted(v, at, Bcache.Disk(Image(v.g, at, v.fs), {}), 8, 0);
  }
}
