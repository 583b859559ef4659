/**
  Who owns which block in src/ext2.c. `own` gives every owned block one role: the
  inode that owns it and the slot of that inode's block tree that points to it.
  Since a block has one role, no block can be reached twice, whether from two
  inodes or from two places of the same one.
 */
module Ext2Own {
  import opened Types
  import opened Ext2Dir
  import opened Ext2Map

  datatype Role = Role(ino: nat, slot: Slot)
  type Own = map<nat, Role>

  ghost predicate SlotOk(i: nat, ino: Inode, disk: Disk, own: Own, s: Slot) {
    var p := SlotPtr(ino, disk, s);
    p != 0 ==> p in own && own[p] == Role(i, s)
  }

  /** Everything inode `i` points to is owned, in that very role. */
  ghost predicate InodeOk(i: nat, ino: Inode, disk: Disk, own: Own) {
    && |ino.ptr| == 15 && ino.ptr[14] == 0
    && forall s {:trigger SlotOk(i, ino, disk, own, s)} :: SlotOk(i, ino, disk, own, s)
  }

  predicate IsData(s: Slot) {
    s.Direct? || s.Single? || s.Double?
  }

  /** Block `w` is not one of the pointer blocks of inode `i`. */
  ghost predicate NotTable(i: nat, own: Own, w: nat) {
    w in own && own[w].ino == i ==> IsData(own[w].slot)
  }

  /** Writing a block that is no pointer block of `i` moves none of its pointers. */
  lemma WriteKeepsPtr(i: nat, ino: Inode, disk: Disk, own: Own, w: nat, v: Block, s: Slot)
    requires InodeOk(i, ino, disk, own) && NotTable(i, own, w)
    ensures SlotPtr(ino, disk[w := v], s) == SlotPtr(ino, disk, s)
  {
    assert SlotOk(i, ino, disk, own, Ind);
    assert SlotOk(i, ino, disk, own, Dbl);
    if s.Double? {
      assert SlotOk(i, ino, disk, own, Mid(s.k));
    }
  }

  lemma WriteKeepsInode(i: nat, ino: Inode, disk: Disk, own: Own, w: nat, v: Block)
    requires InodeOk(i, ino, disk, own) && NotTable(i, own, w)
    ensures InodeOk(i, ino, disk[w := v], own)
  {
    var disk' := disk[w := v];
    forall s ensures SlotOk(i, ino, disk', own, s) {
      WriteKeepsPtr(i, ino, disk, own, w, v, s);
      assert SlotOk(i, ino, disk, own, s);
    }
  }

  lemma WriteKeepsBlockOf(i: nat, ino: Inode, disk: Disk, own: Own, w: nat, v: Block, per: nat, n: nat)
    requires InodeOk(i, ino, disk, own) && NotTable(i, own, w)
    requires per > 0 && Sized(disk, per) && |v| == 4 * per
    ensures BlockOf(ino, disk[w := v], per, n) == BlockOf(ino, disk, per, n)
  {
    BlockOfIsSlot(ino, disk, per, n);
    BlockOfIsSlot(ino, disk[w := v], per, n);
    WriteKeepsPtr(i, ino, disk, own, w, v, DataSlot(per, n));
  }

  /** The block of logical block `n` has the role that says so. */
  lemma BlockOfRole(i: nat, ino: Inode, disk: Disk, own: Own, per: nat, n: nat)
    requires InodeOk(i, ino, disk, own) && per > 0 && Sized(disk, per) && BlockOf(ino, disk, per, n) != 0
    ensures var b := BlockOf(ino, disk, per, n); b in own && own[b] == Role(i, DataSlot(per, n))
  {
    BlockOfIsSlot(ino, disk, per, n);
    assert SlotOk(i, ino, disk, own, DataSlot(per, n));
  }

  /** Ownership of other inodes' blocks may come and go. */
  lemma OwnKeepsInode(i: nat, ino: Inode, disk: Disk, own: Own, own': Own)
    requires InodeOk(i, ino, disk, own)
    requires forall b :: b in own && own[b].ino == i ==> b in own' && own'[b] == own[b]
    ensures InodeOk(i, ino, disk, own')
  {
    forall s ensures SlotOk(i, ino, disk, own', s) {
      assert SlotOk(i, ino, disk, own, s);
    }
  }

  /** An inode with no pointers owns nothing. */
  lemma EmptyInode(i: nat, ino: Inode, disk: Disk, own: Own)
    requires ino.ptr == seq(15, _ => 0)
    ensures InodeOk(i, ino, disk, own)
    ensures forall s :: SlotPtr(ino, disk, s) == 0
  {
  }

  // ----- set_block_of -----

  function WithPtr(ino: Inode, k: nat, b: nat): Inode
    requires k < |ino.ptr|
  {
    ino.(ptr := ino.ptr[k := b])
  }

  /** A direct pointer set: only that slot changes. */
  lemma SetDirect(i: nat, ino: Inode, disk: Disk, own: Own, n: nat, b: nat, s: Slot)
    requires InodeOk(i, ino, disk, own) && n < 12
    ensures SlotPtr(WithPtr(ino, n, b), disk, s) == if s == Direct(n) then b else SlotPtr(ino, disk, s)
  {
  }

  lemma DirectOk(i: nat, ino: Inode, disk: Disk, own: Own, n: nat, b: nat)
    requires InodeOk(i, ino, disk, own) && n < 12 && b !in own
    ensures InodeOk(i, WithPtr(ino, n, b), disk, own[b := Role(i, Direct(n))])
  {
    var ino', own' := WithPtr(ino, n, b), own[b := Role(i, Direct(n))];
    forall s ensures SlotOk(i, ino', disk, own', s) {
      SetDirect(i, ino, disk, own, n, b, s);
      assert SlotOk(i, ino, disk, own, s);
    }
  }

  /** A zeroed block becomes the single-indirect block: no slot but that one changes. */
  lemma SetInd(i: nat, ino: Inode, disk: Disk, own: Own, b: nat, s: Slot)
    requires InodeOk(i, ino, disk, own) && ino.ptr[12] == 0 && b !in own
    requires b in disk && disk[b] == Zeros(|disk[b]|)
    ensures SlotPtr(WithPtr(ino, 12, b), disk, s) == if s == Ind then b else SlotPtr(ino, disk, s)
  {
    if s.Single? {
      ZeroWord(|disk[b]|, s.k);
    }
  }

  lemma ZeroWord(n: nat, k: nat)
    ensures WordAt(Zeros(n), k) == 0
  {
    if 4 * k + 4 <= n {
      ZeroLe(Zeros(n)[4 * k..4 * k + 4]);
    }
  }

  lemma {:induction false} ZeroLe(b: seq<Byte>)
    requires forall i :: 0 <= i < |b| ==> b[i] == 0
    ensures Le(b) == 0
  {
    if b != [] {
      ZeroLe(b[1..]);
    }
  }

  lemma IndOk(i: nat, ino: Inode, disk: Disk, own: Own, b: nat)
    requires InodeOk(i, ino, disk, own) && ino.ptr[12] == 0 && b !in own
    requires b in disk && disk[b] == Zeros(|disk[b]|)
    ensures InodeOk(i, WithPtr(ino, 12, b), disk, own[b := Role(i, Ind)])
  {
    var ino', own' := WithPtr(ino, 12, b), own[b := Role(i, Ind)];
    forall s ensures SlotOk(i, ino', disk, own', s) {
      SetInd(i, ino, disk, own, b, s);
      assert SlotOk(i, ino, disk, own, s);
    }
  }

  function WithWord(disk: Disk, t: nat, k: nat, b: nat): Disk
    requires t in disk && 4 * k + 4 <= |disk[t]|
  {
    disk[t := PutWord(disk[t], 4 * k, b)]
  }

  /** One word of the single-indirect block set: only that slot changes. */
  lemma SetSingle(i: nat, ino: Inode, disk: Disk, own: Own, k: nat, b: nat, s: Slot)
    requires InodeOk(i, ino, disk, own) && ino.ptr[12] != 0 && ino.ptr[12] in disk
    requires 4 * k + 4 <= |disk[ino.ptr[12]]| && b < 0x1_0000_0000
    ensures SlotPtr(ino, WithWord(disk, ino.ptr[12], k, b), s) == if s == Single(k) then b else SlotPtr(ino, disk, s)
  {
    var t := ino.ptr[12];
    assert SlotOk(i, ino, disk, own, Ind);
    assert SlotOk(i, ino, disk, own, Dbl);
    match s
    case Single(j) => PutWordAt(disk[t], k, b, j);
    case Double(j, _) => assert SlotOk(i, ino, disk, own, Mid(j));
    case _ =>
  }

  lemma SingleOk(i: nat, ino: Inode, disk: Disk, own: Own, k: nat, b: nat)
    requires InodeOk(i, ino, disk, own) && ino.ptr[12] != 0 && ino.ptr[12] in disk
    requires 4 * k + 4 <= |disk[ino.ptr[12]]| && b < 0x1_0000_0000 && b !in own
    ensures InodeOk(i, ino, WithWord(disk, ino.ptr[12], k, b), own[b := Role(i, Single(k))])
  {
    var disk', own' := WithWord(disk, ino.ptr[12], k, b), own[b := Role(i, Single(k))];
    forall s ensures SlotOk(i, ino, disk', own', s) {
      SetSingle(i, ino, disk, own, k, b, s);
      assert SlotOk(i, ino, disk, own, s);
    }
  }

  // ----- The `blocks` field -----

  ghost function Mine(own: Own, i: nat): set<nat> {
    set b | b in own && own[b].ino == i
  }

  /**
    The blocks owned by `i` are exactly those it points to, and its `blocks` field
    counts them, data and indirect blocks alike, in 512-byte sectors.
   */
  ghost predicate Accounted(i: nat, ino: Inode, disk: Disk, own: Own, per: nat) {
    && (forall b {:trigger own[b]} :: b in own && own[b].ino == i ==> SlotPtr(ino, disk, own[b].slot) == b)
    && ino.blocks == (4 * per / 512) * |Mine(own, i)|
  }

  lemma MineGrows(own: Own, b: nat, r: Role)
    requires b !in own
    ensures |Mine(own[b := r], r.ino)| == |Mine(own, r.ino)| + 1
  {
    assert Mine(own[b := r], r.ino) == Mine(own, r.ino) + {b};
  }

  /** One more block, in a slot that was empty, and one more in the count. */
  lemma AccountMore(i: nat, ino: Inode, ino': Inode, disk: Disk, disk': Disk, own: Own, s: Slot, b: nat, per: nat)
    requires Accounted(i, ino, disk, own, per) && b !in own && SlotPtr(ino, disk, s) == 0 && 0 !in own
    requires ino'.blocks == ino.blocks + 4 * per / 512
    requires forall t :: SlotPtr(ino', disk', t) == if t == s then b else SlotPtr(ino, disk, t)
    ensures Accounted(i, ino', disk', own[b := Role(i, s)], per)
  {
    MineGrows(own, b, Role(i, s));
    var own' := own[b := Role(i, s)];
    forall c | c in own' && own'[c].ino == i ensures SlotPtr(ino', disk', own'[c].slot) == c {
      if c != b {
        assert own[c] == own'[c];
      }
    }
    var u := 4 * per / 512;
    assert u * (|Mine(own, i)| + 1) == u * |Mine(own, i)| + u;
  }

  // ----- free_all_blocks -----

  /** How far free_all_blocks has come: pointers below each mark are freed. */
  datatype Progress = Progress(direct: nat, single: nat, ind: bool, row: nat, col: nat, dbl: bool)

  predicate Passed(p: Progress, s: Slot) {
    match s
    case Direct(n) => n < p.direct
    case Single(k) => k < p.single
    case Ind => p.ind
    case Double(k, j) => k < p.row || (k == p.row && j < p.col)
    case Mid(k) => k < p.row
    case Dbl => p.dbl
  }

  /** The pointers not yet passed are still owned. */
  ghost predicate Pending(i: nat, ino: Inode, disk: Disk, own: Own, p: Progress) {
    forall s {:trigger SlotOk(i, ino, disk, own, s)} :: !Passed(p, s) ==> SlotOk(i, ino, disk, own, s)
  }

  /** Passing slot `s`, whose block (if any) lost its owner. */
  lemma PassSlot(i: nat, ino: Inode, disk: Disk, own: Own, own': Own, p: Progress, p': Progress, s: Slot)
    requires Pending(i, ino, disk, own, p)
    requires forall t :: !Passed(p', t) ==> !Passed(p, t) && t != s
    requires var b := SlotPtr(ino, disk, s);
             if b == 0 then own' == own else b in own && own[b] == Role(i, s) && own' == own - {b}
    ensures Pending(i, ino, disk, own', p')
  {
    forall t | !Passed(p', t) ensures SlotOk(i, ino, disk, own', t) {
      assert SlotOk(i, ino, disk, own, t);
    }
  }

  /** The blocks that belong to other inodes. */
  ghost function Others(own: Own, i: nat): Own {
    map b | b in own && own[b].ino != i :: own[b]
  }
}
