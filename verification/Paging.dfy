/**
  The four-level page tables of src/paging.c. Physical memory is a map from the
  address of a frame to the 512 entries it holds as a table; `place` gives each
  table the indices that lead to it, so the tables form a tree. A panic is a
  result `false`.
 */
module Paging {
  import opened Frames
  import Arith

  const ADDR_LIMIT: nat := 0x10_0000_0000_0000
  const VA_SPAN: nat := 0x1_0000_0000_0000
  const TWO64: nat := 0x1_0000_0000_0000_0000

  /** The sign-extended bits of a higher-half address, which the tables ignore. */
  const HIGH: nat := 0xffff_0000_0000_0000
  const IOMAP_BASE: nat := 0xffff_e000_0000_0000
  const IOMAP_END: nat := 0xffff_e000_4000_0000

  type Table = t: seq<nat> | |t| == 512 witness seq(512, _ => 0)
  type Memory = map<nat, Table>
  type Places = map<nat, seq<nat>>

  datatype PhysAddr = Unmapped | At(pa: nat)

  /** What an access may do, and whether it bypasses the caches. */
  datatype Rights = Rights(write: bool, user: bool, uncached: bool)

  const ALL := Rights(true, true, false)

  /** An entry above limits what the entries below it allow; the last one decides on caching. */
  function Both(above: Rights, below: Rights): Rights {
    Rights(above.write && below.write, above.user && below.user, below.uncached)
  }

  // ----- Entries and indices -----

  predicate Present(e: nat) {
    e % 2 == 1
  }

  predicate Large(e: nat) {
    e / 128 % 2 == 1
  }

  /** `e & PTE_ADDR`: bits 12 to 51. */
  function AddrOf(e: nat): nat {
    e % ADDR_LIMIT / 4096 * 4096
  }

  /** The entry that map_page writes for the PAGEF_ flags P 1, RW 2, U 4 and UC 8. */
  function LeafEntry(pa: nat, flags: nat): nat {
    AddrOf(pa) + flags % 2 + 2 * (flags / 2 % 2) + 4 * (flags / 4 % 2) + 24 * (flags / 8 % 2)
  }

  /** Bits RW, U/S, and PWT with PCD. */
  function RightsOf(e: nat): Rights {
    Rights(e / 2 % 2 == 1, e / 4 % 2 == 1, e / 8 % 4 == 3)
  }

  /** The rights that the PAGEF_ flags ask for; a page that is not present restricts nothing. */
  function Granted(flags: nat): Rights {
    if flags % 2 == 0 then ALL else Rights(flags / 2 % 2 == 1, flags / 4 % 2 == 1, flags / 8 % 2 == 1)
  }

  lemma Scaled(x: nat, y: nat)
    ensures (2 * x + y) / 2 == x + y / 2 && (4 * x + y) / 4 == x + y / 4 && (8 * x + y) / 8 == x + y / 8
    ensures (2 * x + y) % 2 == y % 2 && (4 * x + y) % 4 == y % 4
  {
  }

  /** The rights lie below the page number. */
  lemma LowBits(page: nat, bits: nat)
    ensures RightsOf(4096 * page + bits) == RightsOf(bits)
  {
    Scaled(2048 * page, bits);
    Scaled(1024 * page, bits / 2);
    Scaled(1024 * page, bits);
    Scaled(512 * page, bits / 4);
    Scaled(512 * page, bits);
    Scaled(128 * page, bits / 8);
  }

  lemma EntryFields(pa: nat, bits: nat)
    requires bits < 128
    ensures AddrOf(AddrOf(pa) + bits) == AddrOf(pa)
    ensures (Present(AddrOf(pa) + bits) <==> bits % 2 == 1) && !Large(AddrOf(pa) + bits)
  {
    var n := pa % ADDR_LIMIT / 4096;
    assert AddrOf(pa) == 4096 * n && n < 0x100_0000_0000;
    assert (4096 * n + bits) / 128 == 32 * n;
    assert (4096 * n + bits) % ADDR_LIMIT == 4096 * n + bits;
  }

  lemma LeafFields(pa: nat, flags: nat)
    ensures AddrOf(LeafEntry(pa, flags)) == AddrOf(pa) && (Present(LeafEntry(pa, flags)) <==> flags % 2 == 1)
  {
    EntryFields(pa, flags % 2 + 2 * (flags / 2 % 2) + 4 * (flags / 4 % 2) + 24 * (flags / 8 % 2));
  }

  lemma LeafRightsOf(pa: nat, flags: nat)
    requires flags % 2 == 1
    ensures RightsOf(LeafEntry(pa, flags)) == Granted(flags)
  {
    var page := pa % ADDR_LIMIT / 4096;
    assert AddrOf(pa) == 4096 * page;
    FlagBits(flags % 2, flags / 2 % 2, flags / 4 % 2, flags / 8 % 2);
    LowBits(page, flags % 2 + 2 * (flags / 2 % 2) + 4 * (flags / 4 % 2) + 24 * (flags / 8 % 2));
  }

  lemma FlagBits(p: nat, w: nat, u: nat, c: nat)
    requires p < 2 && w < 2 && u < 2 && c < 2
    ensures RightsOf(p + 2 * w + 4 * u + 24 * c) == Rights(w == 1, u == 1, c == 1)
  {
  }

  /** What one entry of a level-`k` table covers: 512 GiB, 1 GiB, 2 MiB or 4 KiB. */
  function Reach(k: nat): nat {
    if k == 0 then 0x80_0000_0000 else if k == 1 then 0x4000_0000 else if k == 2 then 0x20_0000 else 0x1000
  }

  function Index(va: nat, k: nat): (i: nat)
    ensures i < 512
  {
    va / Reach(k) % 512
  }

  function Path(va: nat): seq<nat> {
    [Index(va, 0), Index(va, 1), Index(va, 2), Index(va, 3)]
  }

  /** Bits 12 to 47 decide the path. */
  lemma PathIsPage(va: nat, va': nat)
    ensures Path(va) == Path(va') <==> va % VA_SPAN / 4096 == va' % VA_SPAN / 4096
  {
    PathDigits(va);
    PathDigits(va');
    SameDigits(Path(va), Path(va'));
  }

  lemma SameDigits(p: seq<nat>, q: seq<nat>)
    requires |p| == |q| == 4 && forall k :: 0 <= k < 4 ==> p[k] < 512 && q[k] < 512
    ensures p == q <==> Digits(p[0], p[1], p[2], p[3]) == Digits(q[0], q[1], q[2], q[3])
  {
    SameDigit(512 * (512 * p[0] + p[1]) + p[2], p[3], 512 * (512 * q[0] + q[1]) + q[2], q[3]);
    SameDigit(512 * p[0] + p[1], p[2], 512 * q[0] + q[1], q[2]);
    SameDigit(p[0], p[1], q[0], q[1]);
  }

  lemma SameDigit(a: nat, d: nat, b: nat, e: nat)
    requires d < 512 && e < 512
    ensures 512 * a + d == 512 * b + e <==> a == b && d == e
  {
  }

  /** The page number in base 512. */
  function Digits(a: nat, b: nat, c: nat, d: nat): nat {
    512 * (512 * (512 * a + b) + c) + d
  }

  lemma PathDigits(va: nat)
    ensures va % VA_SPAN / 4096 == Digits(Index(va, 0), Index(va, 1), Index(va, 2), Index(va, 3))
  {
    var a := va / 4096;
    assert va % VA_SPAN / 4096 == a % 0x10_0000_0000;
    LastDigit(a, 0x800_0000);
    assert va / 0x20_0000 == a / 512;
    LastDigit(a / 512, 0x4_0000);
    assert va / 0x4000_0000 == a / 512 / 512;
    LastDigit(a / 512 / 512, 512);
    assert va / 0x80_0000_0000 == a / 512 / 512 / 512;
  }

  lemma LastDigit(a: nat, n: nat)
    requires n == 0x800_0000 || n == 0x4_0000 || n == 512
    ensures a % (512 * n) == 512 * (a / 512 % n) + a % 512
  {
  }

  // ----- Walking -----

  /** physical_address from table `t` of level `k` on. */
  function WalkFrom(mem: Memory, t: nat, k: nat, va: nat): PhysAddr
    requires k <= 3
    decreases 3 - k
  {
    if t !in mem then Unmapped
    else
      var e := mem[t][Index(va, k)];
      if !Present(e) then Unmapped
      else if k == 3 || (k > 0 && Large(e)) then At(AddrOf(e) + va % Reach(k))
      else WalkFrom(mem, AddrOf(e), k + 1, va)
  }

  /** What the entries of levels `k` to `n - 1` on the way of `va` allow together. */
  function RightsFrom(mem: Memory, t: nat, k: nat, n: nat, va: nat): Rights
    requires k <= n <= 4
    decreases 4 - k
  {
    if k == n || t !in mem then ALL
    else
      var e := mem[t][Index(va, k)];
      if !Present(e) then ALL
      else if k == 3 || (k > 0 && Large(e)) then RightsOf(e)
      else Both(RightsOf(e), RightsFrom(mem, AddrOf(e), k + 1, n, va))
  }

  /** No entry on the way of `va` maps a large page. */
  ghost predicate SmallFrom(mem: Memory, t: nat, k: nat, va: nat)
    requires k <= 3
    decreases 3 - k
  {
    k == 3 || t !in mem ||
    var e := mem[t][Index(va, k)];
    Present(e) ==> !(k > 0 && Large(e)) && SmallFrom(mem, AddrOf(e), k + 1, va)
  }

  /** Entry `e` of a level-`k` table leads to another table. */
  predicate Links(e: nat, k: nat) {
    Present(e) && !(k > 0 && Large(e))
  }

  ghost predicate ChildOk(mem: Memory, place: Places, t: nat, i: nat)
    requires t in mem && i < 512 && t in place
  {
    |place[t]| < 3 && Links(mem[t][i], |place[t]|) ==>
      AddrOf(mem[t][i]) in place && place[AddrOf(mem[t][i])] == place[t] + [i]
  }

  ghost predicate TableOk(mem: Memory, place: Places, t: nat)
    requires t in place
  {
    t in mem && |place[t]| <= 3 && forall i {:trigger ChildOk(mem, place, t, i)} :: 0 <= i < 512 ==>
      ChildOk(mem, place, t, i)
  }

  /** Every table has one place in the tree, and its entries lead one level down. */
  ghost predicate Tree(mem: Memory, place: Places, root: nat) {
    && root in place && place[root] == []
    && forall t {:trigger TableOk(mem, place, t)} :: t in place ==> TableOk(mem, place, t)
  }

  /** Table `x` is the same, except perhaps entry `i` of table `t`. */
  ghost predicate SameTable(mem: Memory, mem': Memory, t: nat, i: nat, x: nat) {
    && x in mem && x in mem' && (x != t ==> mem'[x] == mem[x])
    && (x == t ==> forall j {:trigger mem'[t][j]} :: 0 <= j < 512 && j != i ==> mem'[t][j] == mem[t][j])
  }

  /** The tables of `place` are the same, except perhaps that entry. */
  ghost predicate SameEntries(mem: Memory, mem': Memory, place: Places, t: nat, i: nat) {
    forall x {:trigger SameTable(mem, mem', t, i, x)} :: x in place ==> SameTable(mem, mem', t, i, x)
  }

  lemma PathStep(va: nat, k: nat)
    requires k < 4
    ensures Path(va)[..k] + [Index(va, k)] == Path(va)[..k + 1]
  {
  }

  /** A changed entry is felt by the addresses whose path goes through it, and by no others. */
  lemma {:induction false} WalkKept(mem: Memory, mem': Memory, place: Places, root: nat, t: nat, i: nat, x: nat, k: nat,
                                    va: nat)
    requires Tree(mem, place, root) && t in place && SameEntries(mem, mem', place, t, i) && t in mem'
    requires k <= 3 && x in place && place[x] == Path(va)[..k]
    requires |place[t]| <= 3 && Path(va)[..|place[t]| + 1] != place[t] + [i]
    ensures WalkFrom(mem', x, k, va) == WalkFrom(mem, x, k, va)
    ensures SmallFrom(mem, x, k, va) ==> SmallFrom(mem', x, k, va)
    decreases 3 - k
  {
    assert TableOk(mem, place, t) && TableOk(mem, place, x) && SameTable(mem, mem', t, i, x);
    PathStep(va, k);
    var j := Index(va, k);
    assert mem'[x][j] == mem[x][j];
    assert ChildOk(mem, place, x, j);
    if k < 3 && Links(mem[x][j], k) {
      WalkKept(mem, mem', place, root, t, i, AddrOf(mem[x][j]), k + 1, va);
    }
  }

  lemma {:induction false} RightsKept(mem: Memory, mem': Memory, place: Places, root: nat, t: nat, i: nat, x: nat,
                                      k: nat, n: nat, va: nat)
    requires Tree(mem, place, root) && t in place && SameEntries(mem, mem', place, t, i) && t in mem'
    requires k <= n <= 4 && k <= 3 && x in place && place[x] == Path(va)[..k]
    requires |place[t]| <= 3 && (|place[t]| < n ==> Path(va)[..|place[t]| + 1] != place[t] + [i])
    ensures RightsFrom(mem', x, k, n, va) == RightsFrom(mem, x, k, n, va)
    decreases 3 - k
  {
    if k < n {
      assert TableOk(mem, place, t) && TableOk(mem, place, x) && SameTable(mem, mem', t, i, x);
      PathStep(va, k);
      var j := Index(va, k);
      assert mem'[x][j] == mem[x][j];
      assert ChildOk(mem, place, x, j);
      if k < 3 && Links(mem[x][j], k) {
        RightsKept(mem, mem', place, root, t, i, AddrOf(mem[x][j]), k + 1, n, va);
      }
    }
  }

  /** Linking an empty table where there was none changes no translation. */
  lemma {:induction false} LinkKeeps(mem: Memory, mem': Memory, place: Places, root: nat, t: nat, i: nat, f: nat,
                                     x: nat, k: nat, va: nat)
    requires Tree(mem, place, root) && t in place && SameEntries(mem, mem', place, t, i) && t in mem' && i < 512
    requires |place[t]| < 3 && t in mem && !Present(mem[t][i])
    requires f in mem' && mem'[f] == seq(512, _ => 0) && AddrOf(mem'[t][i]) == f && !Large(mem'[t][i])
    requires k <= 3 && x in place && place[x] == Path(va)[..k]
    ensures WalkFrom(mem', x, k, va) == WalkFrom(mem, x, k, va)
    ensures SmallFrom(mem, x, k, va) ==> SmallFrom(mem', x, k, va)
    decreases 3 - k
  {
    assert TableOk(mem, place, x) && SameTable(mem, mem', t, i, x);
    PathStep(va, k);
    var j := Index(va, k);
    assert ChildOk(mem, place, x, j);
    if x == t && j == i {
      assert !Present(mem'[f][Index(va, k + 1)]);
    } else {
      assert mem'[x][j] == mem[x][j];
      if k < 3 && Links(mem[x][j], k) {
        LinkKeeps(mem, mem', place, root, t, i, f, AddrOf(mem[x][j]), k + 1, va);
      }
    }
  }

  /** An entry with RW and U/S set limits nothing. */
  lemma {:induction false} RightsLinked(mem: Memory, mem': Memory, place: Places, root: nat, t: nat, i: nat, f: nat,
                                        x: nat, k: nat, n: nat, va: nat)
    requires Tree(mem, place, root) && t in place && SameEntries(mem, mem', place, t, i) && t in mem' && i < 512
    requires |place[t]| < 3 && t in mem && !Present(mem[t][i]) && RightsOf(mem'[t][i]) == ALL
    requires f in mem' && mem'[f] == seq(512, _ => 0) && AddrOf(mem'[t][i]) == f && !Large(mem'[t][i])
    requires k <= n <= 4 && k <= 3 && x in place && place[x] == Path(va)[..k]
    ensures RightsFrom(mem', x, k, n, va) == RightsFrom(mem, x, k, n, va)
    decreases 3 - k
  {
    if k < n {
      assert TableOk(mem, place, x) && SameTable(mem, mem', t, i, x);
      PathStep(va, k);
      var j := Index(va, k);
      assert ChildOk(mem, place, x, j);
      if x == t && j == i {
        assert k + 1 < n ==> !Present(mem'[f][Index(va, k + 1)]);
      } else {
        assert mem'[x][j] == mem[x][j];
        if k < 3 && Links(mem[x][j], k) {
          RightsLinked(mem, mem', place, root, t, i, f, AddrOf(mem[x][j]), k + 1, n, va);
        }
      }
    }
  }

  /** A fresh, empty table `f` under entry `i` of `t` keeps the tree. */
  lemma TreeLinked(mem: Memory, mem': Memory, place: Places, root: nat, t: nat, i: nat, f: nat)
    requires Tree(mem, place, root) && t in place && i < 512 && |place[t]| < 3 && f !in place
    requires t in mem && t in mem' && mem' == mem[f := seq(512, _ => 0)][t := mem[t][i := mem'[t][i]]]
    requires AddrOf(mem'[t][i]) == f
    ensures Tree(mem', place[f := place[t] + [i]], root)
    ensures SameEntries(mem, mem', place, t, i)
  {
    var place' := place[f := place[t] + [i]];
    forall x | x in place' ensures TableOk(mem', place', x) {
      if x != f {
        assert TableOk(mem, place, x);
        forall j | 0 <= j < 512 ensures ChildOk(mem', place', x, j) {
          assert ChildOk(mem, place, x, j);
        }
      } else {
        forall j | 0 <= j < 512 ensures ChildOk(mem', place', f, j) {
          assert mem'[f][j] == 0;
        }
      }
    }
    forall x | x in place ensures SameTable(mem, mem', t, i, x) {
      assert TableOk(mem, place, x);
    }
  }

  /** An entry of a last-level table is no link, whatever it holds. */
  lemma TreeLeaf(mem: Memory, place: Places, root: nat, t: nat, i: nat, e: nat)
    requires Tree(mem, place, root) && t in place && i < 512 && |place[t]| == 3 && t in mem
    ensures Tree(mem[t := mem[t][i := e]], place, root)
    ensures SameEntries(mem, mem[t := mem[t][i := e]], place, t, i)
  {
    var mem' := mem[t := mem[t][i := e]];
    forall x | x in place ensures TableOk(mem', place, x) {
      assert TableOk(mem, place, x);
      forall j | 0 <= j < 512 ensures ChildOk(mem', place, x, j) {
        assert ChildOk(mem, place, x, j);
      }
    }
    forall x | x in place ensures SameTable(mem, mem', t, i, x) {
      assert TableOk(mem, place, x);
    }
  }

  /** Entry `i` of `t` is the link to `child`. */
  ghost predicate LinkedTo(mem: Memory, t: nat, i: nat, k: nat, child: nat) {
    t in mem && i < 512 && Links(mem[t][i], k) && AddrOf(mem[t][i]) == child
  }

  class AddressSpace {
    const frames: FrameAllocator
    const root: nat
    var mem: Memory
    var iomapNext: nat
    ghost var place: Places

    /** The tables form a tree, none of them is free, and every free frame is memory. */
    ghost predicate Valid()
      reads this, frames
    {
      && frames.Valid() && Tree(mem, place, root)
      && (forall t {:trigger t in place} :: t in place ==> !frames.IsFree(t))
      && (forall f: nat {:trigger frames.IsFree(f)} :: frames.IsFree(f) ==> f in mem && f < ADDR_LIMIT)
    }

    /** paging_init adopts the boot loader's tables, which lie outside the managed region. */
    constructor (frames: FrameAllocator, root: nat, mem: Memory, ghost place: Places)
      requires frames.Valid() && Tree(mem, place, root)
      requires forall t {:trigger t in place} :: t in place ==> !frames.IsFree(t)
      requires forall f: nat {:trigger frames.IsFree(f)} :: frames.IsFree(f) ==> f in mem && f < ADDR_LIMIT
      ensures Valid() && this.frames == frames && this.root == root && this.mem == mem && iomapNext == IOMAP_BASE
    {
      this.frames := frames;
      this.root := root;
      this.mem := mem;
      this.place := place;
      iomapNext := IOMAP_BASE;
    }

    ghost function Translate(va: nat): PhysAddr
      reads this
    {
      Xlate(mem, root, va)
    }

    ghost predicate Small(va: nat)
      reads this
    {
      IsSmall(mem, root, va)
    }

    /** physical_address. */
    method PhysicalAddress(va: nat) returns (r: PhysAddr)
      requires Valid()
      ensures r == Translate(va)
    {
      assert TableOk(mem, place, root) && ChildOk(mem, place, root, Index(va, 0));
      var e := mem[root][Index(va, 0)];
      if !Present(e) {
        return Unmapped;
      }
      var t := AddrOf(e);
      assert TableOk(mem, place, t) && ChildOk(mem, place, t, Index(va, 1));
      e := mem[t][Index(va, 1)];
      if !Present(e) {
        return Unmapped;
      }
      if Large(e) {
        return At(AddrOf(e) + va % 0x4000_0000);
      }
      t := AddrOf(e);
      assert TableOk(mem, place, t) && ChildOk(mem, place, t, Index(va, 2));
      e := mem[t][Index(va, 2)];
      if !Present(e) {
        return Unmapped;
      }
      if Large(e) {
        return At(AddrOf(e) + va % 0x20_0000);
      }
      t := AddrOf(e);
      assert TableOk(mem, place, t);
      e := mem[t][Index(va, 3)];
      if !Present(e) {
        return Unmapped;
      }
      return At(AddrOf(e) + va % 0x1000);
    }

    /** level_next: the table below entry `i` of `t`, linked in empty when there is none. */
    method LevelNext(t: nat, i: nat) returns (ok: bool, child: nat)
      requires Valid() && t in place && |place[t]| < 3 && i < 512 && t in mem
      requires Present(mem[t][i]) ==> Links(mem[t][i], |place[t]|)
      modifies this`mem, this`place, frames
      ensures Valid() && forall x :: x in old(place) ==> x in place && place[x] == old(place)[x]
      ensures ok ==>
                child in place && child in mem && place[child] == old(place[t]) + [i] &&
                LinkedTo(mem, t, i, |place[t]|, child)
      ensures SameEntries(old(mem), mem, old(place), t, i)
      ensures Keeps(old(mem), mem, root) && (!ok ==> frames.total == 0)
    {
      assert TableOk(mem, place, t) && ChildOk(mem, place, t, i);
      child := AddrOf(mem[t][i]);
      ok := true;
      if Present(mem[t][i]) {
        assert TableOk(mem, place, child);
        SelfSame(mem, place, root, t, i);
        return;
      }
      ok, child := frames.Alloc();
      if !ok {
        SelfSame(mem, place, root, t, i);
        return;
      }
      Link(t, i, child);
    }

    /** An empty table in frame `child`, linked present, writable and for users. */
    method Link(t: nat, i: nat, child: nat)
      requires Tree(mem, place, root) && t in place && |place[t]| < 3 && i < 512 && t in mem && !Present(mem[t][i])
      requires child !in place && child % 4096 == 0 && child < ADDR_LIMIT
      modifies this`mem, this`place
      ensures Tree(mem, place, root) && place == old(place)[child := old(place[t]) + [i]]
      ensures mem.Keys == old(mem.Keys) + {child} && LinkedTo(mem, t, i, |place[t]|, child)
      ensures SameEntries(old(mem), mem, old(place), t, i) && Keeps(old(mem), mem, root)
    {
      EntryFields(child, 7);
      assert AddrOf(child) == child;
      LowBits(child / 4096, 7);
      mem := mem[child := seq(512, _ => 0)];
      mem := mem[t := mem[t][i := child + 7]];
      assert mem[t][i] == child + 7;
      TreeLinked(old(mem), mem, place, root, t, i, child);
      LinkedKeeps(old(mem), mem, place, root, t, i, child);
      place := place[child := place[t] + [i]];
    }

    /** The first two level_next calls of map_page. */
    method DescendTwo(va: nat) returns (ok: bool, t1: nat, t2: nat)
      requires Valid() && Small(va)
      modifies this`mem, this`place, frames
      ensures Valid() && Keeps(old(mem), mem, root) && (!ok ==> frames.total == 0)
      ensures ok ==> {t1, t2} <= place.Keys && place[t1] == Path(va)[..1] && place[t2] == Path(va)[..2]
      ensures ok ==> LinkedTo(mem, root, Index(va, 0), 0, t1) && LinkedTo(mem, t1, Index(va, 1), 1, t2)
    {
      t2 := 0;
      assert TableOk(mem, place, root);
      ok, t1 := LevelNext(root, Index(va, 0));
      if !ok {
        return;
      }
      assert Small(va) && SmallFrom(mem, t1, 1, va);
      ghost var mem1 := mem;
      ok, t2 := LevelNext(t1, Index(va, 1));
      assert SameTable(mem1, mem, t1, Index(va, 1), root);
    }

    /** The three level_next calls of map_page: the last-level table of `va`. */
    method Descend(va: nat) returns (ok: bool, pt: nat, ghost t1: nat, ghost t2: nat)
      requires Valid() && Small(va)
      modifies this`mem, this`place, frames
      ensures Valid() && if ok then Chain(mem, place, root, t1, t2, pt, va) else frames.total == 0
      ensures Keeps(old(mem), mem, root)
    {
      t1, t2, pt := 0, 0, 0;
      var a, b;
      ok, a, b := DescendTwo(va);
      if !ok {
        return;
      }
      assert Small(va) && SmallFrom(mem, a, 1, va) && SmallFrom(mem, b, 2, va);
      ghost var mem2 := mem;
      assert TableOk(mem, place, b);
      ok, pt := LevelNext(b, Index(va, 2));
      assert SameTable(mem2, mem, b, Index(va, 2), root) && SameTable(mem2, mem, b, Index(va, 2), a);
      t1, t2 := a, b;
    }

    /**
      map_page: the page of `va` then translates to the page of `pa`, or to nothing without the present
      flag, with the rights asked for as far as the tables above allow them, and every other address
      as before. `false` is the panic of frame_alloc, and then no frame is left.
     */
    method MapPage(va: nat, pa: nat, flags: nat) returns (ok: bool)
      requires Valid() && Small(va)
      modifies this`mem, this`place, frames
      ensures Valid() && (!ok ==> frames.total == 0)
      ensures if ok then Maps(old(mem), mem, root, va, pa, flags) else Keeps(old(mem), mem, root)
    {
      var pt;
      ghost var t1, t2;
      ok, pt, t1, t2 := Descend(va);
      if !ok {
        return;
      }
      ghost var mem0 := mem;
      var e := LeafEntry(pa, flags);
      TreeLeaf(mem, place, root, pt, Index(va, 3), e);
      LeafMaps(mem, place, root, t1, t2, pt, va, pa, flags);
      mem := mem[pt := mem[pt][Index(va, 3) := e]];
      KeepsMaps(old(mem), mem0, mem, root, va, pa, flags);
    }

    /** The loop of iomap. */
    method MapWindow(start: nat, base: nat, pages: nat, flags: nat) returns (ok: bool)
      requires Valid() && WindowFree(mem, root) && start % 4096 == 0 && base % 4096 == 0
      requires IOMAP_BASE <= start && start + 4096 * pages <= IOMAP_END && base + 4096 * pages <= ADDR_LIMIT
      modifies this`mem, this`place, frames
      ensures Valid() && WindowFree(mem, root) && if ok then Window(old(mem), mem, root, start, base, pages, flags)
              else frames.total == 0
    {
      for i := 0 to pages
        invariant Valid() && WindowFree(mem, root) && Window(old(mem), mem, root, start, base, i, flags)
      {
        ghost var mem0 := mem;
        assert IsSmall(mem, root, start + i * 4096);
        ok := MapPage(start + i * 4096, base + i * 4096, flags);
        if !ok {
          return;
        }
        WindowMore(old(mem), mem0, mem, root, start, base, i, flags);
      }
      ok := true;
    }

    /**
      iomap: a window of device memory. Byte for byte it translates to the device's addresses, and every
      address outside it as before, so windows handed out one after another never meet. `false` is a panic.
     */
    method IoMap(pa: nat, len: nat, flags: nat) returns (ok: bool, va: nat)
      requires Valid() && WindowFree(mem, root) && iomapNext % 4096 == 0 && IOMAP_BASE <= iomapNext <= IOMAP_END
      requires pa + len + 8192 <= ADDR_LIMIT && NoWrap(iomapNext, pa, len)
      modifies this, frames
      ensures Valid() && WindowFree(mem, root) && iomapNext % 4096 == 0 && old(iomapNext) <= iomapNext <= IOMAP_END
      ensures !ok ==> frames.total == 0 || !WindowFits(old(iomapNext), pa, len)
      ensures ok ==> WindowFits(old(iomapNext), pa, len)
      ensures ok ==> old(iomapNext) <= va && va + len <= iomapNext
      ensures ok ==> forall v: nat {:trigger Translate(v)} :: va <= v < va + len ==>
              Translate(v) == Mapping(pa + (v - va), flags)
      ensures ok ==> forall v: nat {:trigger RightsTo(mem, root, 4, v)} :: va <= v < va + len ==>
                       RightsTo(mem, root, 4, v) == Both(RightsTo(old(mem), root, 3, v), Granted(flags))
      ensures ok ==> forall v: nat {:trigger Translate(v)} ::
                       !InWindow(v, old(iomapNext), (iomapNext - old(iomapNext)) / 4096) ==>
                         Translate(v) == old(Translate(v))
    {
      var off := pa % 4096;
      var base := pa - off;
      var pages := PageCount64(pa, len);
      var start := iomapNext;
      va := start + off;
      WindowPages(pa, len, off, pages);
      BoundCheckIff(start, pa, len);
      if !WindowPasses(start, pa, len) {
        return false, va;
      }
      ok := MapWindow(start, base, pages, flags);
      if !ok {
        return;
      }
      NextAligned(start, pages);
      iomapNext := start + pages * 4096;
      forall v: nat | va <= v < va + len ensures Translate(v) == Mapping(pa + (v - va), flags) {
        WindowByte(old(mem), mem, root, start, base, pages, flags, v);
      }
      forall v: nat | va <= v < va + len
        ensures RightsTo(mem, root, 4, v) == Both(RightsTo(old(mem), root, 3, v), Granted(flags))
      {
        WindowByte(old(mem), mem, root, start, base, pages, flags, v);
      }
    }
  }

  lemma LinkedKeeps(mem: Memory, mem': Memory, place: Places, root: nat, t: nat, i: nat, f: nat)
    requires Tree(mem, place, root) && t in place && SameEntries(mem, mem', place, t, i) && t in mem' && i < 512
    requires |place[t]| < 3 && t in mem && !Present(mem[t][i]) && RightsOf(mem'[t][i]) == ALL
    requires f in mem' && mem'[f] == seq(512, _ => 0) && AddrOf(mem'[t][i]) == f && !Large(mem'[t][i])
    ensures Keeps(mem, mem', root)
  {
    forall va: nat
      ensures Xlate(mem', root, va) == Xlate(mem, root, va)
      ensures IsSmall(mem, root, va) ==> IsSmall(mem', root, va)
    {
      LinkKeeps(mem, mem', place, root, t, i, f, root, 0, va);
    }
    forall va: nat, n: nat | n <= 4 ensures RightsTo(mem', root, n, va) == RightsTo(mem, root, n, va) {
      RightsLinked(mem, mem', place, root, t, i, f, root, 0, n, va);
    }
  }

  /** The tables on the way of `va`. */
  ghost predicate Chain(mem: Memory, place: Places, root: nat, t1: nat, t2: nat, pt: nat, va: nat) {
    && {t1, t2, pt} <= place.Keys && pt in mem
    && place[t1] == Path(va)[..1] && place[t2] == Path(va)[..2] && place[pt] == Path(va)[..3]
    && LinkedTo(mem, root, Index(va, 0), 0, t1) && LinkedTo(mem, t1, Index(va, 1), 1, t2) &&
       LinkedTo(mem, t2, Index(va, 2), 2, pt)
  }

  function Mapping(pa: nat, flags: nat): PhysAddr {
    if flags % 2 == 1 then At(pa) else Unmapped
  }

  ghost function Xlate(mem: Memory, root: nat, va: nat): PhysAddr {
    WalkFrom(mem, root, 0, va)
  }

  /** Slot `i` of the table at `t` holds the present entry `e`. */
  ghost predicate HasEntry(mem: Memory, t: nat, i: nat, e: nat) {
    t in mem && i < 512 && mem[t][i] == e && e % 2 == 1
  }

  lemma SameQuotient(va: nat, d: nat, n: nat)
    requires n > 0 && va % n + d < n
    ensures (va + d) / n == va / n && (va + d) % n == va % n + d
  {
    Arith.NumberOf(n, va);
    Arith.NumberParts(n, va / n, va % n + d);
  }

  lemma HigherIndices(va: nat)
    ensures va / 0x80_0000_0000 == va / 0x4000_0000 / 512 && va / 0x4000_0000 == va / 0x20_0000 / 512
    ensures va / 0x20_0000 == va / 0x1000 / 512
  {
  }

  /** A 1 GiB page, where bit 7 is set in the second entry: 2^30 consecutive bytes from the entry's address on. */
  lemma HugePage(mem: Memory, root: nat, va: nat, d: nat, e0: nat, e1: nat)
    requires HasEntry(mem, root, va / 0x80_0000_0000 % 512, e0)
    requires HasEntry(mem, e0 % 0x10_0000_0000_0000 / 4096 * 4096, va / 0x4000_0000 % 512, e1) && e1 / 128 % 2 == 1
    requires va % 0x4000_0000 + d < 0x4000_0000
    ensures Xlate(mem, root, va).At? && Xlate(mem, root, va + d) == At(Xlate(mem, root, va).pa + d)
    ensures va % 0x4000_0000 == 0 ==> Xlate(mem, root, va).pa == e1 % 0x10_0000_0000_0000 / 4096 * 4096
  {
    SameQuotient(va, d, 0x4000_0000);
    HigherIndices(va);
    HigherIndices(va + d);
  }

  /** A 2 MiB page, where bit 7 is set in the third entry and not in the second. */
  lemma LargePage(mem: Memory, root: nat, va: nat, d: nat, e0: nat, e1: nat, e2: nat)
    requires HasEntry(mem, root, va / 0x80_0000_0000 % 512, e0)
    requires HasEntry(mem, e0 % 0x10_0000_0000_0000 / 4096 * 4096, va / 0x4000_0000 % 512, e1) && e1 / 128 % 2 == 0
    requires HasEntry(mem, e1 % 0x10_0000_0000_0000 / 4096 * 4096, va / 0x20_0000 % 512, e2) && e2 / 128 % 2 == 1
    requires va % 0x20_0000 + d < 0x20_0000
    ensures Xlate(mem, root, va).At? && Xlate(mem, root, va + d) == At(Xlate(mem, root, va).pa + d)
    ensures va % 0x20_0000 == 0 ==> Xlate(mem, root, va).pa == e2 % 0x10_0000_0000_0000 / 4096 * 4096
  {
    SameQuotient(va, d, 0x20_0000);
    HigherIndices(va);
    HigherIndices(va + d);
  }

  /** A 4 KiB page, under tables all the way. */
  lemma SmallPage(mem: Memory, root: nat, va: nat, d: nat, e0: nat, e1: nat, e2: nat, e3: nat)
    requires HasEntry(mem, root, va / 0x80_0000_0000 % 512, e0)
    requires HasEntry(mem, e0 % 0x10_0000_0000_0000 / 4096 * 4096, va / 0x4000_0000 % 512, e1) && e1 / 128 % 2 == 0
    requires HasEntry(mem, e1 % 0x10_0000_0000_0000 / 4096 * 4096, va / 0x20_0000 % 512, e2) && e2 / 128 % 2 == 0
    requires HasEntry(mem, e2 % 0x10_0000_0000_0000 / 4096 * 4096, va / 0x1000 % 512, e3) && va % 0x1000 + d < 0x1000
    ensures Xlate(mem, root, va).At? && Xlate(mem, root, va + d) == At(Xlate(mem, root, va).pa + d)
    ensures va % 0x1000 == 0 ==> Xlate(mem, root, va).pa == e3 % 0x10_0000_0000_0000 / 4096 * 4096
  {
    SameQuotient(va, d, 0x1000);
    HigherIndices(va);
    HigherIndices(va + d);
  }

  ghost predicate IsSmall(mem: Memory, root: nat, va: nat) {
    SmallFrom(mem, root, 0, va)
  }

  /** What the first `n` levels allow at `va`. */
  ghost function RightsTo(mem: Memory, root: nat, n: nat, va: nat): Rights
    requires n <= 4
  {
    RightsFrom(mem, root, 0, n, va)
  }

  /** Every address translates as before, with the same rights. */
  ghost predicate Keeps(mem: Memory, mem': Memory, root: nat) {
    && (forall v: nat, n: nat {:trigger RightsTo(mem', root, n, v)} :: n <= 4 ==>
       RightsTo(mem', root, n, v) == RightsTo(mem, root, n, v))
    && (forall v: nat {:trigger Xlate(mem', root, v)} :: Xlate(mem', root, v) == Xlate(mem, root, v))
    && (forall v: nat {:trigger IsSmall(mem', root, v)} :: IsSmall(mem, root, v) ==> IsSmall(mem', root, v))
  }

  /** The page of `va` translates to the page of `pa` with the rights of `flags`, and every other address as before. */
  ghost predicate Maps(mem: Memory, mem': Memory, root: nat, va: nat, pa: nat, flags: nat) {
    && (forall v: nat, n: nat {:trigger RightsTo(mem', root, n, v)} :: n <= 4 ==>
          RightsTo(mem', root, n, v) ==
          if Path(v) == Path(va) && n == 4 then Both(RightsTo(mem, root, 3, v), Granted(flags))
            else RightsTo(mem, root, n, v))
    && (forall v: nat {:trigger Xlate(mem', root, v)} ::
          Xlate(mem', root, v) == if Path(v) == Path(va) then Mapping(AddrOf(pa) + v % 4096, flags)
            else Xlate(mem, root, v))
    && (forall v: nat {:trigger IsSmall(mem', root, v)} :: IsSmall(mem, root, v) ==> IsSmall(mem', root, v))
  }

  lemma KeepsMaps(mem: Memory, mem1: Memory, mem2: Memory, root: nat, va: nat, pa: nat, flags: nat)
    requires Keeps(mem, mem1, root) && Maps(mem1, mem2, root, va, pa, flags)
    ensures Maps(mem, mem2, root, va, pa, flags)
  {
  }

  lemma LeafMaps(mem: Memory, place: Places, root: nat, t1: nat, t2: nat, pt: nat, va: nat, pa: nat, flags: nat)
    requires Tree(mem, place, root) && Chain(mem, place, root, t1, t2, pt, va)
    ensures Maps(mem, mem[pt := mem[pt][Index(va, 3) := LeafEntry(pa, flags)]], root, va, pa, flags)
  {
    var e := LeafEntry(pa, flags);
    var mem' := mem[pt := mem[pt][Index(va, 3) := e]];
    LeafFields(pa, flags);
    if flags % 2 == 1 {
      LeafRightsOf(pa, flags);
    }
    forall v: nat
      ensures Xlate(mem', root, v) == if Path(v) == Path(va) then Mapping(AddrOf(pa) + v % 4096, flags)
              else Xlate(mem, root, v)
      ensures IsSmall(mem, root, v) ==> IsSmall(mem', root, v)
    {
      LeafWritten(mem, place, root, t1, t2, pt, va, e, v);
    }
    forall v: nat, n: nat | n <= 4
      ensures RightsTo(mem', root, n, v) ==
              if Path(v) == Path(va) && n == 4 then Both(RightsTo(mem, root, 3, v), Granted(flags))
                else RightsTo(mem, root, n, v)
    {
      LeafRights(mem, place, root, t1, t2, pt, va, e, v, n);
    }
  }

  lemma LeafRights(mem: Memory, place: Places, root: nat, t1: nat, t2: nat, pt: nat, va: nat, e: nat, v: nat, n: nat)
    requires Tree(mem, place, root) && Chain(mem, place, root, t1, t2, pt, va) && n <= 4
    ensures var mem' := mem[pt := mem[pt][Index(va, 3) := e]];
            RightsFrom(mem', root, 0, n, v) ==
            if Path(v) == Path(va) && n == 4 then
              Both(RightsFrom(mem, root, 0, 3, v), if Present(e) then RightsOf(e) else ALL)
            else RightsFrom(mem, root, 0, n, v)
  {
    var mem' := mem[pt := mem[pt][Index(va, 3) := e]];
    assert Path(va)[..3] + [Index(va, 3)] == Path(va);
    assert Path(v)[..0] == [] && Path(v)[..4] == Path(v);
    if Path(v) == Path(va) && n == 4 {
      SameIndices(v, va);
      assert root != pt && t1 != pt && t2 != pt;
    } else {
      TreeLeaf(mem, place, root, pt, Index(va, 3), e);
      RightsKept(mem, mem', place, root, pt, Index(va, 3), root, 0, n, v);
    }
  }

  lemma LeafWritten(mem: Memory, place: Places, root: nat, t1: nat, t2: nat, pt: nat, va: nat, e: nat, v: nat)
    requires Tree(mem, place, root) && Chain(mem, place, root, t1, t2, pt, va)
    ensures var mem' := mem[pt := mem[pt][Index(va, 3) := e]];
            && (WalkFrom(mem', root, 0, v) ==
                if Path(v) == Path(va) then (if Present(e) then At(AddrOf(e) + v % 4096) else Unmapped)
                  else WalkFrom(mem, root, 0, v))
            && (SmallFrom(mem, root, 0, v) ==> SmallFrom(mem', root, 0, v))
  {
    var mem' := mem[pt := mem[pt][Index(va, 3) := e]];
    assert Path(va)[..3] + [Index(va, 3)] == Path(va);
    assert Path(v)[..0] == [] && Path(v)[..4] == Path(v);
    if Path(v) == Path(va) {
      SameIndices(v, va);
      assert root != pt && t1 != pt && t2 != pt;
    } else {
      TreeLeaf(mem, place, root, pt, Index(va, 3), e);
      WalkKept(mem, mem', place, root, pt, Index(va, 3), root, 0, v);
    }
  }

  lemma SameIndices(v: nat, va: nat)
    requires Path(v) == Path(va)
    ensures Index(v, 0) == Index(va, 0) && Index(v, 1) == Index(va, 1) && Index(v, 2) == Index(va, 2)
    ensures Index(v, 3) == Index(va, 3)
  {
    assert Path(v)[0] == Path(va)[0] && Path(v)[1] == Path(va)[1] && Path(v)[2] == Path(va)[2] &&
           Path(v)[3] == Path(va)[3];
  }

  // ----- Device windows -----

  /** No large page in the range that iomap hands out. */
  ghost predicate WindowFree(mem: Memory, root: nat) {
    forall v: nat {:trigger IsSmall(mem, root, v)} :: IOMAP_BASE <= v < IOMAP_END ==> IsSmall(mem, root, v)
  }

  /** `v` has the low 48 bits of an address in the `n` pages from `start`. */
  predicate InWindow(v: nat, start: nat, n: nat) {
    start - HIGH <= v % VA_SPAN < start - HIGH + 4096 * n
  }

  /** The first `n` pages from `start` translate to those from `base`, and every other address as before. */
  ghost predicate Window(mem: Memory, mem': Memory, root: nat, start: nat, base: nat, n: nat, flags: nat) {
    && (forall v: nat {:trigger Xlate(mem', root, v)} ::
          Xlate(mem', root, v) ==
          if InWindow(v, start, n) then Mapping(base + (v % VA_SPAN - (start - HIGH)), flags) else Xlate(mem, root, v))
    && (forall v: nat, m: nat {:trigger RightsTo(mem', root, m, v)} :: m <= 4 ==>
          RightsTo(mem', root, m, v) ==
          if InWindow(v, start, n) && m == 4 then Both(RightsTo(mem, root, 3, v), Granted(flags))
            else RightsTo(mem, root, m, v))
  }

  /** The addresses of page `n` of the window. */
  lemma WindowPage(v: nat, start: nat, base: nat, n: nat)
    requires start % 4096 == 0 && base % 4096 == 0 && IOMAP_BASE <= start && start + 4096 * n < IOMAP_END
    requires base + 4096 * n < ADDR_LIMIT
    ensures Path(v) == Path(start + n * 4096) <==> InWindow(v, start, n + 1) && !InWindow(v, start, n)
    ensures Path(v) == Path(start + n * 4096) ==>
            AddrOf(base + n * 4096) + v % 4096 == base + (v % VA_SPAN - (start - HIGH))
  {
    PathIsPage(v, start + n * 4096);
    PageNumber(v, start, n);
    WindowGrows(v, start, n);
    if InPage(v, start + n * 4096 - HIGH) {
      WindowOffset(v, start, base, n);
    }
  }

  lemma WindowGrows(v: nat, start: nat, n: nat)
    requires IOMAP_BASE <= start
    ensures InPage(v, start + n * 4096 - HIGH) <==> InWindow(v, start, n + 1) && !InWindow(v, start, n)
  {
  }

  lemma WindowOffset(v: nat, start: nat, base: nat, n: nat)
    requires start % 4096 == 0 && base % 4096 == 0 && IOMAP_BASE <= start && base + 4096 * n < ADDR_LIMIT
    requires InPage(v, start + n * 4096 - HIGH)
    ensures AddrOf(base + n * 4096) + v % 4096 == base + (v % VA_SPAN - (start - HIGH))
  {
    PageAddress(base, n);
    PageOffset(v, start + n * 4096 - HIGH);
  }

  lemma PageAddress(base: nat, n: nat)
    requires base % 4096 == 0 && base + 4096 * n < ADDR_LIMIT
    ensures AddrOf(base + n * 4096) == base + n * 4096
  {
    assert (base + n * 4096) % ADDR_LIMIT == base + n * 4096;
  }

  lemma WindowPages(pa: nat, len: nat, off: nat, pages: nat)
    requires off == pa % 4096 && pages == PageCount64(pa, len) && len + off + 4095 < TWO64
    ensures off < 4096 && (pa - off) % 4096 == 0 && len + off <= pages * 4096 < len + off + 4096
    ensures pages == PageCount(pa, len)
  {
  }

  lemma NextAligned(start: nat, pages: nat)
    requires start % 4096 == 0
    ensures (start + pages * 4096) % 4096 == 0 && (start + pages * 4096 - start) / 4096 == pages
  {
  }

  lemma WindowByte(mem: Memory, mem': Memory, root: nat, start: nat, base: nat, n: nat, flags: nat, v: nat)
    requires Window(mem, mem', root, start, base, n, flags) && IOMAP_BASE <= start <= v < start + 4096 * n <= IOMAP_END
    ensures Xlate(mem', root, v) == Mapping(base + (v - start), flags)
    ensures RightsTo(mem', root, 4, v) == Both(RightsTo(mem, root, 3, v), Granted(flags))
  {
    LowHalf(v);
    assert InWindow(v, start, n);
  }

  /** The pages that `len` bytes from `pa` on touch, as a number and as the code computes it. */
  function PageCount(pa: nat, len: nat): nat {
    (len + pa % 4096 + 4095) / 4096
  }

  function PageCount64(pa: nat, len: nat): nat {
    (len + pa % 4096 + 4095) % TWO64 / 4096
  }

  /** iomap's bound check, in 64-bit arithmetic. */
  predicate WindowPasses(start: nat, pa: nat, len: nat) {
    (start + PageCount64(pa, len) * 4096) % TWO64 <= IOMAP_END
  }

  predicate WindowFits(start: nat, pa: nat, len: nat) {
    start + PageCount(pa, len) * 4096 <= IOMAP_END
  }

  /** Neither the rounded length nor the end of the window wraps. */
  predicate NoWrap(start: nat, pa: nat, len: nat) {
    len + pa % 4096 + 4095 < TWO64 && start + PageCount(pa, len) * 4096 < TWO64
  }

  /**
    The bound check tells whether the window fits exactly when nothing wraps; or when no page is left
    and the length wraps to a page of its own.
   */
  lemma BoundCheckIff(start: nat, pa: nat, len: nat)
    requires IOMAP_BASE <= start <= IOMAP_END && start % 4096 == 0 && len < TWO64
    ensures (WindowPasses(start, pa, len) <==> WindowFits(start, pa, len)) <==>
            NoWrap(start, pa, len) || (start == IOMAP_END && len + pa % 4096 > TWO64)
  {
    var x := len + pa % 4096 + 4095;
    if x < TWO64 {
      EndCheckIff(start, PageCount(pa, len));
    } else {
      assert x % TWO64 == x - TWO64 < 2 * 4096;
      EndCheckIff(start, PageCount64(pa, len));
      LastPage(start);
    }
  }

  lemma EndCheckIff(start: nat, pages: nat)
    requires IOMAP_BASE <= start <= IOMAP_END && pages * 4096 < TWO64
    ensures ((start + pages * 4096) % TWO64 <= IOMAP_END <==> start + pages * 4096 <= IOMAP_END) <==>
            start + pages * 4096 < TWO64
  {
  }

  lemma LastPage(start: nat)
    requires start <= IOMAP_END && start % 4096 == 0
    ensures start + 4096 <= IOMAP_END <==> start != IOMAP_END
  {
  }

  /** A window of 32 TiB is let through: its end wraps. */
  lemma WrappedWindowPasses()
    ensures var start, len := IOMAP_BASE, 0x2000_0000_0000;
            WindowPasses(start, 0, len) && !WindowFits(start, 0, len)
  {
  }

  /** So is one of 2^64 - 1 bytes, wherever the next one starts: its page count is 0. */
  lemma WrappedCountPasses(start: nat)
    requires IOMAP_BASE <= start <= IOMAP_END
    ensures var len := TWO64 - 1;
            PageCount64(0, len) == 0 && WindowPasses(start, 0, len) && !WindowFits(start, 0, len)
  {
  }

  /** Page `n` of the window is what page `n` adds to the window. */
  predicate InPage(v: nat, page: nat) {
    page <= v % VA_SPAN < page + 4096
  }

  lemma PageNumber(v: nat, start: nat, n: nat)
    requires start % 4096 == 0 && IOMAP_BASE <= start && start + 4096 * n < IOMAP_END
    ensures v % VA_SPAN / 4096 == (start + n * 4096) % VA_SPAN / 4096 <==> InPage(v, start + n * 4096 - HIGH)
  {
    var page := start + n * 4096 - HIGH;
    LowHalf(start + n * 4096);
    assert page == 4096 * (start / 4096 + n - HIGH / 4096);
    SamePageNumber(v % VA_SPAN, page, page / 4096);
  }

  lemma LowHalf(x: nat)
    requires HIGH <= x < HIGH + VA_SPAN
    ensures x % VA_SPAN == x - HIGH
  {
  }

  lemma SamePageNumber(w: nat, page: nat, k: nat)
    requires page == 4096 * k
    ensures w / 4096 == page / 4096 <==> page <= w < page + 4096
  {
  }

  /** The offset in the window is the page's and the offset in the page. */
  lemma PageOffset(v: nat, page: nat)
    requires page % 4096 == 0 && InPage(v, page)
    ensures v % 4096 == v % VA_SPAN - page
  {
    SameOffset(v);
  }

  lemma SameOffset(v: nat)
    ensures v % VA_SPAN % 4096 == v % 4096
  {
  }

  lemma WindowMore(mem: Memory, mem1: Memory, mem2: Memory, root: nat, start: nat, base: nat, n: nat, flags: nat)
    requires Window(mem, mem1, root, start, base, n, flags)
    requires Maps(mem1, mem2, root, start + n * 4096, base + n * 4096, flags)
    requires start % 4096 == 0 && base % 4096 == 0 && IOMAP_BASE <= start && start + 4096 * n < IOMAP_END
    requires base + 4096 * n < ADDR_LIMIT
    ensures Window(mem, mem2, root, start, base, n + 1, flags)
  {
    forall v: nat
      ensures Xlate(mem2, root, v) ==
              if InWindow(v, start, n + 1) then Mapping(base + (v % VA_SPAN - (start - HIGH)), flags)
                else Xlate(mem, root, v)
    {
      WindowPage(v, start, base, n);
      var was := Xlate(mem1, root, v);
    }
    forall v: nat, m: nat | m <= 4
      ensures RightsTo(mem2, root, m, v) ==
              if InWindow(v, start, n + 1) && m == 4 then Both(RightsTo(mem, root, 3, v), Granted(flags))
                else RightsTo(mem, root, m, v)
    {
      WindowPage(v, start, base, n);
      var was := RightsTo(mem1, root, m, v);
      var above := RightsTo(mem1, root, 3, v);
    }
  }

  lemma SelfSame(mem: Memory, place: Places, root: nat, t: nat, i: nat)
    requires Tree(mem, place, root)
    ensures SameEntries(mem, mem, place, t, i)
  {
    forall x | x in place ensures SameTable(mem, mem, t, i, x) {
      assert TableOk(mem, place, x);
    }
  }
}
