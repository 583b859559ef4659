/**
  Data pointers and the transfer loop of src/nvme.c. The controller's reading of
  a command's PRP fields follows section 4.3 of the NVMe 1.3 specification.
 */
module Prp {
  import opened Types
  import opened Paging
  import Arith

  const PAGE: nat := 4096

  /** prp1, prp2 as an address or as the list it points to. */
  datatype Second = Page(pa: nat) | List(entries: seq<nat>)
  datatype Prps = Prps(prp1: nat, prp2: Second)

  /** Where the controller finds byte `i` of a transfer of `len` bytes. */
  function DeviceAddress(p: Prps, len: nat, i: nat): nat {
    var first := First(p.prp1);
    if i < first then p.prp1 + i
    else match p.prp2
      case Page(pa) => pa + (i - first)
      case List(entries) =>
        var j := (i - first) / PAGE;
        if j < |entries| then entries[j] + (i - first) % PAGE else 0
  }

  /** A second page is an address when the transfer needs no more than two pages, and a list otherwise. */
  ghost predicate WellTyped(p: Prps, len: nat) {
    var first := First(p.prp1);
    len > first ==> (p.prp2.Page? <==> len - first <= PAGE)
  }

  /** The bytes of a page lie in order in physical memory. */
  lemma {:induction false} SamePageFrom(mem: Memory, t: nat, k: nat, va: nat, d: nat)
    requires k <= 3 && va % PAGE + d < PAGE
    ensures WalkFrom(mem, t, k, va + d) ==
            (match WalkFrom(mem, t, k, va) case Unmapped => Unmapped case At(pa) => At(pa + d))
    ensures WalkFrom(mem, t, k, va).At? ==> WalkFrom(mem, t, k, va).pa % PAGE == va % PAGE
    decreases 3 - k
  {
    SameIndex(va, d, k);
    if t in mem {
      var e := mem[t][Index(va, k)];
      if Present(e) {
        if k == 3 || (k > 0 && Large(e)) {
          Offsets(va, d, k, e);
        } else {
          SamePageFrom(mem, AddrOf(e), k + 1, va, d);
        }
      }
    }
  }

  lemma SameIndex(va: nat, d: nat, k: nat)
    requires k <= 3 && va % PAGE + d < PAGE
    ensures Index(va + d, k) == Index(va, k)
  {
    assert (va + d) / 4096 == va / 4096;
    assert forall x: nat {:trigger x / 0x20_0000} :: x / 0x20_0000 == x / 4096 / 512;
    assert forall x: nat {:trigger x / 0x4000_0000} :: x / 0x4000_0000 == x / 4096 / 0x4_0000;
    assert forall x: nat {:trigger x / 0x80_0000_0000} :: x / 0x80_0000_0000 == x / 4096 / 0x800_0000;
  }

  lemma Offsets(va: nat, d: nat, k: nat, e: nat)
    requires 0 < k <= 3 && va % PAGE + d < PAGE
    ensures (va + d) % Reach(k) == va % Reach(k) + d
    ensures (AddrOf(e) + va % Reach(k)) % PAGE == va % PAGE
  {
    assert (va + d) / PAGE == va / PAGE && (va + d) % PAGE == va % PAGE + d;
    var n := if k == 1 then 0x4_0000 else if k == 2 then 512 else 1;
    InReach(va, n);
    InReach(va + d, n);
    var a := e % ADDR_LIMIT / 4096;
    assert AddrOf(e) + va % Reach(k) == PAGE * (a + va / PAGE % n) + va % PAGE;
  }

  lemma InReach(va: nat, n: nat)
    requires n == 0x4_0000 || n == 512 || n == 1
    ensures va % (PAGE * n) == PAGE * (va / PAGE % n) + va % PAGE
  {
  }

  lemma SamePage(mem: Memory, root: nat, va: nat, d: nat)
    requires va % PAGE + d < PAGE
    ensures Xlate(mem, root, va + d) == (match Xlate(mem, root, va) case Unmapped => Unmapped case At(pa) => At(pa + d))
    ensures Xlate(mem, root, va).At? ==> Xlate(mem, root, va).pa % PAGE == va % PAGE
  {
    SamePageFrom(mem, root, 0, va, d);
  }

  /** Where byte `i` of the buffer at `va` lies. */
  ghost function ByteAt(mem: Memory, root: nat, va: nat, i: nat): PhysAddr {
    Xlate(mem, root, va + i)
  }

  /** Every byte of [va, va + len) is mapped. */
  ghost predicate Mapped(mem: Memory, root: nat, va: nat, len: nat) {
    forall i: nat {:trigger ByteAt(mem, root, va, i)} :: i < len ==> ByteAt(mem, root, va, i).At?
  }

  /** The command's pointers lead, byte for byte, to the buffer. */
  ghost predicate Points(mem: Memory, root: nat, va: nat, len: nat, p: Prps) {
    && WellTyped(p, len) && (p.prp2.List? ==> |p.prp2.entries| <= 512)
    && forall i: nat {:trigger ByteAt(mem, root, va, i)} :: i < len ==>
       ByteAt(mem, root, va, i) == At(DeviceAddress(p, len, i))
  }

  /** Bytes left in the page of `va`. */
  function First(va: nat): (n: nat)
    ensures 0 < n <= PAGE && (va + n) % PAGE == 0
  {
    PAGE - va % PAGE
  }

  lemma InPage(mem: Memory, root: nat, va: nat, pa: nat, d: nat)
    requires Xlate(mem, root, va) == At(pa) && d < First(va)
    ensures Xlate(mem, root, va + d) == At(pa + d) && First(pa) == First(va)
  {
    SamePage(mem, root, va, d);
  }

  /** Byte `i` of the buffer, in a page after the first one. */
  lemma InRest(mem: Memory, root: nat, va: nat, pa: nat, i: nat)
    requires i >= First(va) && Xlate(mem, root, va + First(va) + (i - First(va)) / PAGE * PAGE) == At(pa)
    ensures ByteAt(mem, root, va, i) == At(pa + (i - First(va)) % PAGE)
  {
    var rest, k := va + First(va), i - First(va);
    PageParts(rest, k);
    InPage(mem, root, rest + k / PAGE * PAGE, pa, k % PAGE);
    assert rest + k / PAGE * PAGE + k % PAGE == va + i;
  }

  lemma PageParts(rest: nat, k: nat)
    requires rest % PAGE == 0
    ensures (rest + k / PAGE * PAGE) % PAGE == 0 && k / PAGE * PAGE + k % PAGE == k
  {
  }

  lemma OnePage(mem: Memory, root: nat, va: nat, pa: nat, len: nat)
    requires Xlate(mem, root, va) == At(pa) && 0 < len <= First(va)
    ensures Points(mem, root, va, len, Prps(pa, Page(0)))
  {
    InPage(mem, root, va, pa, 0);
    forall i: nat | i < len ensures ByteAt(mem, root, va, i) == At(DeviceAddress(Prps(pa, Page(0)), len, i)) {
      InPage(mem, root, va, pa, i);
    }
  }

  lemma TwoPages(mem: Memory, root: nat, va: nat, pa: nat, pb: nat, len: nat)
    requires Xlate(mem, root, va) == At(pa) && Xlate(mem, root, va + First(va)) == At(pb)
    requires First(va) < len <= First(va) + PAGE
    ensures Points(mem, root, va, len, Prps(pa, Page(pb)))
  {
    InPage(mem, root, va, pa, 0);
    forall i: nat | i < len ensures ByteAt(mem, root, va, i) == At(DeviceAddress(Prps(pa, Page(pb)), len, i)) {
      if i < First(va) {
        InPage(mem, root, va, pa, i);
      } else {
        InPage(mem, root, va + First(va), pb, i - First(va));
        assert va + First(va) + (i - First(va)) == va + i;
      }
    }
  }

  /** The page-aligned pages from `rest` on are those of the list. */
  ghost predicate Lists(mem: Memory, root: nat, rest: nat, list: seq<nat>) {
    forall j: nat {:trigger list[j]} :: j < |list| ==> Xlate(mem, root, rest + j * PAGE) == At(list[j])
  }

  lemma ManyPages(mem: Memory, root: nat, va: nat, pa: nat, list: seq<nat>, len: nat)
    requires Xlate(mem, root, va) == At(pa) && First(va) + PAGE < len <= 512 * PAGE
    requires |list| == (len - First(va) + PAGE - 1) / PAGE && Lists(mem, root, va + First(va), list)
    ensures Points(mem, root, va, len, Prps(pa, List(list)))
  {
    InPage(mem, root, va, pa, 0);
    forall i: nat | i < len ensures ByteAt(mem, root, va, i) == At(DeviceAddress(Prps(pa, List(list)), len, i)) {
      if i < First(va) {
        InPage(mem, root, va, pa, i);
      } else {
        var j := (i - First(va)) / PAGE;
        PageOf(i - First(va), len - First(va));
        var e := list[j];
        InRest(mem, root, va, e, i);
      }
    }
  }

  lemma PageOf(i: nat, n: nat)
    requires i < n
    ensures i / PAGE < (n + PAGE - 1) / PAGE
  {
  }

  lemma Hole(mem: Memory, root: nat, va: nat, i: nat, len: nat)
    requires i < len && Xlate(mem, root, va + i) == Unmapped
    ensures !Mapped(mem, root, va, len)
  {
    assert ByteAt(mem, root, va, i) == Unmapped;
  }

  /** build_prps: it succeeds exactly when the whole buffer is mapped, and then names exactly its bytes. */
  method BuildPrps(space: AddressSpace, va: nat, len: nat) returns (ok: bool, p: Prps)
    requires space.Valid() && 0 < len <= 512 * PAGE
    ensures ok <==> Mapped(space.mem, space.root, va, len)
    ensures ok ==> Points(space.mem, space.root, va, len, p)
  {
    p := Prps(0, Page(0));
    var a := space.PhysicalAddress(va);
    if a.Unmapped? {
      Hole(space.mem, space.root, va, 0, len);
      return false, p;
    }
    var first := First(va);
    if len <= first {
      OnePage(space.mem, space.root, va, a.pa, len);
      return true, Prps(a.pa, Page(0));
    }
    var rest := va + first;
    var pages := (len - first + PAGE - 1) / PAGE;
    if pages == 1 {
      var b := space.PhysicalAddress(rest);
      if b.Unmapped? {
        Hole(space.mem, space.root, va, first, len);
        return false, p;
      }
      TwoPages(space.mem, space.root, va, a.pa, b.pa, len);
      return true, Prps(a.pa, Page(b.pa));
    }
    var list;
    ok, list := FillList(space, rest, pages);
    if ok {
      ManyPages(space.mem, space.root, va, a.pa, list, len);
      p := Prps(a.pa, List(list));
    } else {
      Hole(space.mem, space.root, va, first + |list| * PAGE, len);
    }
  }

  /** The loop over the remaining pages; it stops at the first one that is not mapped. */
  method FillList(space: AddressSpace, rest: nat, pages: nat) returns (ok: bool, list: seq<nat>)
    requires space.Valid()
    ensures if ok then |list| == pages
            else |list| < pages && Xlate(space.mem, space.root, rest + |list| * PAGE) == Unmapped
    ensures Lists(space.mem, space.root, rest, list)
  {
    list := [];
    for i := 0 to pages
      invariant |list| == i && Lists(space.mem, space.root, rest, list)
    {
      var e := space.PhysicalAddress(rest + i * PAGE);
      if e.Unmapped? {
        return false, list;
      }
      list := list + [e.pa];
    }
    ok := true;
  }

  // ----- The transfer loop -----

  /** A read or write command: the block address in two halves, the block count less one, and the pointers. */
  datatype Command = Command(write: bool, cdw10: nat, cdw11: nat, cdw12: nat, prps: Prps, direct: bool)

  function Lba(c: Command): nat {
    c.cdw10 + c.cdw11 * 0x1_0000_0000
  }

  function Blocks(c: Command): nat {
    c.cdw12 + 1
  }

  function Total(cs: seq<Command>): nat {
    if cs == [] then 0 else Total(cs[..|cs| - 1]) + Blocks(cs[|cs| - 1])
  }

  /** ns.max_cmd_blocks: one PRP list page, and what the controller allows. */
  function MaxCmdBlocks(mdts: nat, bs: nat): (n: nat)
    requires 0 < bs <= PAGE
    ensures 1 <= n && n * bs <= 512 * PAGE
  {
    Pow2Bound(mdts);
    WholeBlocks(MaxBytes(mdts), bs);
    MaxBytes(mdts) / bs
  }

  function MaxBytes(mdts: nat): (n: nat)
    ensures n >= PAGE
  {
    if mdts != 0 && mdts < 9 then Pow2(mdts) * PAGE else 512 * PAGE
  }

  lemma WholeBlocks(bytes: nat, bs: nat)
    requires 0 < bs <= bytes
    ensures 1 <= bytes / bs && bytes / bs * bs <= bytes < (bytes / bs + 1) * bs
  {
    Arith.NumberOf(bs, bytes);
  }

  /** The controller takes transfers of that many bytes: 2^mdts pages, or any number when MDTS is 0. */
  ghost predicate Takes(mdts: nat, bytes: nat) {
    mdts == 0 || bytes <= Pow2(mdts) * PAGE
  }

  /** The cap is the largest block count that the controller takes and one list page covers. */
  lemma MaxCmdBlocksIs(mdts: nat, bs: nat, n: nat)
    requires 0 < bs <= PAGE
    ensures n <= MaxCmdBlocks(mdts, bs) <==> n * bs <= 512 * PAGE && Takes(mdts, n * bs)
  {
    Pow2Bound(mdts);
    WholeBlocks(MaxBytes(mdts), bs);
    var most := MaxCmdBlocks(mdts, bs);
    if mdts >= 9 {
      Pow2Monotone(9, mdts);
      assert Pow2(9) == 2 * Pow2(8) && Pow2(8) == 256;
    }
    if n > most {
      Arith.MulStep(most, n, bs);
    } else if 0 < n {
      Product(n, most, bs);
    }
  }

  function Pow2(k: nat): (p: nat)
    ensures p >= 1
  {
    if k == 0 then 1 else 2 * Pow2(k - 1)
  }

  lemma Pow2Bound(k: nat)
    ensures k < 9 ==> Pow2(k) <= 256
  {
    if k < 9 {
      Pow2Monotone(k, 8);
      assert Pow2(8) == 256;
    }
  }

  lemma {:induction false} Pow2Monotone(j: nat, k: nat)
    requires j <= k
    ensures Pow2(j) <= Pow2(k)
    decreases k
  {
    if j < k {
      Pow2Monotone(j, k - 1);
    }
  }

  /** What a caller asks for: blocks from `lba` on, to or from the buffer at `buf`. */
  datatype Request = Request(lba: nat, count: nat, buf: nat, write: bool)

  /** The namespace's block size, the controller's transfer limit, and the bounce page. */
  datatype Driver = Driver(bs: nat, mdts: nat, bounce: nat)

  ghost predicate Sensible(r: Request, d: Driver) {
    && 0 < d.bs <= PAGE && d.bounce % PAGE == 0 && r.lba + r.count <= 0x1_0000_0000_0000_0000
  }

  /** The most that the next command may move after `done` blocks. */
  function NextMost(r: Request, d: Driver, done: nat): nat
    requires 0 < d.bs <= PAGE && done <= r.count
  {
    if r.count - done < MaxCmdBlocks(d.mdts, d.bs) then r.count - done else MaxCmdBlocks(d.mdts, d.bs)
  }

  /**
    The next command after `done` blocks moves the blocks that follow them, as many as the controller takes and one
    list page covers: straight to or from their place in the buffer when all of that is mapped, and else no more than
    the bounce page holds.
   */
  ghost predicate NextIs(mem: Memory, root: nat, r: Request, d: Driver, done: nat, c: Command) {
    && 0 < d.bs <= PAGE && done < r.count && Lba(c) == r.lba + done && c.write == r.write
    && (if c.direct then
          Blocks(c) == NextMost(r, d, done) && Points(mem, root, r.buf + done * d.bs, Blocks(c) * d.bs, c.prps)
        else
          && !Mapped(mem, root, r.buf + done * d.bs, NextMost(r, d, done) * d.bs) && c.prps == Prps(d.bounce, Page(0))
          && Blocks(c) == if NextMost(r, d, done) < PAGE / d.bs then NextMost(r, d, done) else PAGE / d.bs)
  }

  /** Command `k` follows the commands before it. */
  ghost predicate InTurn(mem: Memory, root: nat, cs: seq<Command>, k: nat, r: Request, d: Driver)
    requires k < |cs|
  {
    NextIs(mem, root, r, d, Total(cs[..k]), cs[k])
  }

  ghost predicate AllInTurn(mem: Memory, root: nat, cs: seq<Command>, r: Request, d: Driver) {
    forall k: nat {:trigger InTurn(mem, root, cs, k, r, d)} :: k < |cs| ==> InTurn(mem, root, cs, k, r, d)
  }

  lemma MoreInTurn(mem: Memory, root: nat, cs: seq<Command>, c: Command, r: Request, d: Driver)
    requires AllInTurn(mem, root, cs, r, d) && NextIs(mem, root, r, d, Total(cs), c)
    ensures AllInTurn(mem, root, cs + [c], r, d) && Total(cs + [c]) == Total(cs) + Blocks(c)
  {
    var cs' := cs + [c];
    assert cs'[..|cs|] == cs;
    forall k: nat | k < |cs'| ensures InTurn(mem, root, cs', k, r, d) {
      if k < |cs| {
        assert InTurn(mem, root, cs, k, r, d);
        assert cs'[..k] == cs[..k];
      }
    }
  }

  /** A command stays within what is left, and takes no more than the controller and its pointers do. */
  lemma NextFits(mem: Memory, root: nat, r: Request, d: Driver, done: nat, c: Command)
    requires NextIs(mem, root, r, d, done, c)
    ensures done + Blocks(c) <= r.count && Blocks(c) * d.bs <= 512 * PAGE && Takes(d.mdts, Blocks(c) * d.bs)
    ensures !c.direct ==> Blocks(c) * d.bs <= PAGE
  {
    MaxCmdBlocksIs(d.mdts, d.bs, Blocks(c));
    PerPage(d.bs);
    if !c.direct {
      Product(Blocks(c), PAGE / d.bs, d.bs);
    }
  }

  // ----- The bytes that move -----

  /** The namespace and physical memory, as bytes; memory never written holds zeros. */
  datatype Machine = Machine(disk: seq<Byte>, ram: map<nat, Byte>)

  function Peek(ram: map<nat, Byte>, a: nat): Byte {
    if a in ram then ram[a] else 0
  }

  /** The bytes at the given physical addresses. */
  function Gather(ram: map<nat, Byte>, places: seq<nat>): (v: seq<Byte>)
    ensures |v| == |places|
  {
    seq(|places|, i requires 0 <= i < |places| => Peek(ram, places[i]))
  }

  /** One byte after the other stored at the given physical addresses. */
  function Scatter(ram: map<nat, Byte>, places: seq<nat>, v: seq<Byte>): map<nat, Byte>
    requires |v| == |places|
  {
    var n := |places|;
    if n == 0 then ram else Scatter(ram, places[..n - 1], v[..n - 1])[places[n - 1] := v[n - 1]]
  }

  ghost predicate Distinct(places: seq<nat>) {
    forall i, j :: 0 <= i < j < |places| ==> places[i] != places[j]
  }

  lemma {:induction false} Scattered(ram: map<nat, Byte>, places: seq<nat>, v: seq<Byte>, a: nat)
    requires |v| == |places|
    ensures a !in places ==> Peek(Scatter(ram, places, v), a) == Peek(ram, a)
    ensures Distinct(places) ==>
              forall i :: 0 <= i < |places| && places[i] == a ==> Peek(Scatter(ram, places, v), a) == v[i]
  {
    var n := |places|;
    if n > 0 {
      Scattered(ram, places[..n - 1], v[..n - 1], a);
    }
  }

  lemma StoredInside(ram: map<nat, Byte>, places: seq<nat>, at: nat, v: seq<Byte>)
    requires at + |v| <= |places| && Distinct(places)
    ensures Gather(Scatter(ram, places[at..at + |v|], v), places) == Splice(Gather(ram, places), at, v)
  {
    var part := places[at..at + |v|];
    var ram' := Scatter(ram, part, v);
    forall i | 0 <= i < |places| ensures Peek(ram', places[i]) == Splice(Gather(ram, places), at, v)[i] {
      Scattered(ram, part, v, places[i]);
      if at <= i < at + |v| {
        assert part[i - at] == places[i];
      }
    }
  }

  lemma StoredOutside(ram: map<nat, Byte>, places: seq<nat>, other: seq<nat>, v: seq<Byte>)
    requires |v| == |other| && forall a :: a in other ==> a !in places
    ensures Gather(Scatter(ram, other, v), places) == Gather(ram, places)
  {
    forall i | 0 <= i < |places| ensures Peek(Scatter(ram, other, v), places[i]) == Peek(ram, places[i]) {
      Scattered(ram, other, v, places[i]);
    }
  }

  lemma GatherPart(ram: map<nat, Byte>, places: seq<nat>, at: nat, n: nat)
    requires at + n <= |places|
    ensures Gather(ram, places[at..at + n]) == Gather(ram, places)[at..at + n]
  {
  }

  /** The physical addresses of the `n` bytes from `va` on, as the processor translates them. */
  function Places(cpu: nat -> nat, va: nat, n: nat): (places: seq<nat>)
    ensures |places| == n
  {
    seq(n, i requires 0 <= i < n => cpu(va + i))
  }

  function Consecutive(pa: nat, n: nat): (places: seq<nat>)
    ensures |places| == n
  {
    seq(n, i requires 0 <= i < n => pa + i)
  }

  /** The physical addresses the controller derives from a command's pointers. */
  function DevicePlaces(p: Prps, len: nat): (places: seq<nat>)
    ensures |places| == len
  {
    seq(len, i requires 0 <= i < len => DeviceAddress(p, len, i))
  }

  /** Where the kernel's page tables map a byte of the buffer, the processor finds it there. */
  ghost predicate Agrees(mem: Memory, root: nat, cpu: nat -> nat, va: nat, n: nat) {
    forall i: nat {:trigger ByteAt(mem, root, va, i)} :: i < n && ByteAt(mem, root, va, i).At? ==>
      cpu(va + i) == ByteAt(mem, root, va, i).pa
  }

  /** The controller works on the processor's bytes `x` to `x + len` of the buffer. */
  lemma DeviceSeesBuffer(mem: Memory, root: nat, cpu: nat -> nat, va: nat, n: nat, x: nat, len: nat, p: Prps)
    requires Agrees(mem, root, cpu, va, n) && x + len <= n && Points(mem, root, va + x, len, p)
    ensures DevicePlaces(p, len) == Places(cpu, va, n)[x..x + len]
  {
    forall i | 0 <= i < len ensures DevicePlaces(p, len)[i] == Places(cpu, va, n)[x..x + len][i] {
      assert ByteAt(mem, root, va + x, i) == At(DeviceAddress(p, len, i));
      assert va + x + i == va + (x + i) && ByteAt(mem, root, va, x + i) == ByteAt(mem, root, va + x, i);
    }
  }

  lemma DeviceSeesBounce(bounce: nat, len: nat)
    requires bounce % PAGE == 0 && len <= PAGE
    ensures DevicePlaces(Prps(bounce, Page(0)), len) == Consecutive(bounce, len)
  {
  }

  /** No byte of the buffer is stored where another one is, or in the bounce page. */
  ghost predicate Apart(places: seq<nat>, bounce: nat) {
    Distinct(places) && forall a :: a in places ==> !(bounce <= a < bounce + PAGE)
  }

  /** Memory outside the buffer and the bounce page is as it was. */
  ghost predicate Kept(ram: map<nat, Byte>, ram': map<nat, Byte>, places: seq<nat>, bounce: nat) {
    forall a: nat {:trigger Peek(ram', a)} :: a !in places && !(bounce <= a < bounce + PAGE) ==>
      Peek(ram', a) == Peek(ram, a)
  }

  lemma KeptOn(ram: map<nat, Byte>, ram1: map<nat, Byte>, ram2: map<nat, Byte>, places: seq<nat>, bounce: nat)
    requires Kept(ram, ram1, places, bounce) && (ram1 == ram2 || Kept(ram1, ram2, places, bounce))
    ensures Kept(ram, ram2, places, bounce)
  {
    forall a: nat | a !in places && !(bounce <= a < bounce + PAGE) ensures Peek(ram2, a) == Peek(ram, a) {
      assert Peek(ram1, a) == Peek(ram, a);
    }
  }

  lemma ScatterKeeps(ram: map<nat, Byte>, places: seq<nat>, bounce: nat, other: seq<nat>, v: seq<Byte>)
    requires |v| == |other| && forall a :: a in other ==> a in places || bounce <= a < bounce + PAGE
    ensures Kept(ram, Scatter(ram, other, v), places, bounce)
  {
    forall a: nat | a !in places && !(bounce <= a < bounce + PAGE)
      ensures Peek(Scatter(ram, other, v), a) == Peek(ram, a)
    {
      Scattered(ram, other, v, a);
    }
  }

  /**
    The controller executes a command on the `n` bytes of the namespace from `pos` on: it reads and writes physical
    memory through the command's pointers alone.
   */
  function Executed(m: Machine, c: Command, pos: nat, n: nat): Machine
    requires pos + n <= |m.disk|
  {
    if c.write then m.(disk := Splice(m.disk, pos, Gather(m.ram, DevicePlaces(c.prps, n))))
    else m.(ram := Scatter(m.ram, DevicePlaces(c.prps, n), m.disk[pos..pos + n]))
  }

  /** The namespace and the caller's buffer, as bytes. */
  datatype Media = Media(disk: seq<Byte>, buf: seq<Byte>)

  function Seen(m: Machine, places: seq<nat>): Media {
    Media(m.disk, Gather(m.ram, places))
  }

  lemma SpliceMore(s: seq<Byte>, at: nat, v: seq<Byte>, x: nat, y: nat)
    requires x <= y <= |v| && at + y <= |s|
    ensures Splice(Splice(s, at, v[..x]), at + x, v[x..y]) == Splice(s, at, v[..y])
  {
    var t := Splice(s, at, v[..x]);
    assert t[..at + x] == s[..at] + v[..x];
    assert t[at + y..] == s[at + y..];
    assert v[..x] + v[x..y] == v[..y];
  }

  /** Bytes `x` to `y` moved between the buffer and the namespace, whose position `pos` goes with the buffer's start. */
  function Moved(m: Media, write: bool, pos: nat, x: nat, y: nat): Media
    requires x <= y <= |m.buf| && pos + y <= |m.disk|
  {
    if write then m.(disk := Splice(m.disk, pos + x, m.buf[x..y]))
    else m.(buf := Splice(m.buf, x, m.disk[pos + x..pos + y]))
  }

  /** A copy by the processor. */
  function Copied(ram: map<nat, Byte>, from: seq<nat>, to: seq<nat>): map<nat, Byte>
    requires |from| == |to|
  {
    Scatter(ram, to, Gather(ram, from))
  }

  lemma StoredAll(ram: map<nat, Byte>, places: seq<nat>, v: seq<Byte>)
    requires |v| == |places| && Distinct(places)
    ensures Gather(Scatter(ram, places, v), places) == v
  {
    assert places[0..0 + |v|] == places;
    StoredInside(ram, places, 0, v);
  }

  lemma DirectRead(ram: map<nat, Byte>, places: seq<nat>, at: nat, bounce: nat, v: seq<Byte>)
    requires at + |v| <= |places| && Apart(places, bounce)
    ensures var ram' := Scatter(ram, places[at..at + |v|], v);
            Gather(ram', places) == Splice(Gather(ram, places), at, v) && Kept(ram, ram', places, bounce)
  {
    StoredInside(ram, places, at, v);
    ScatterKeeps(ram, places, bounce, places[at..at + |v|], v);
  }

  lemma BounceWrite(ram: map<nat, Byte>, places: seq<nat>, at: nat, bounce: nat, n: nat)
    requires at + n <= |places| && n <= PAGE && Apart(places, bounce)
    ensures var ram' := Copied(ram, places[at..at + n], Consecutive(bounce, n));
            && Gather(ram', Consecutive(bounce, n)) == Gather(ram, places)[at..at + n]
            && Gather(ram', places) == Gather(ram, places) && Kept(ram, ram', places, bounce)
  {
    var v := Gather(ram, places[at..at + n]);
    StoredAll(ram, Consecutive(bounce, n), v);
    StoredOutside(ram, places, Consecutive(bounce, n), v);
    ScatterKeeps(ram, places, bounce, Consecutive(bounce, n), v);
    GatherPart(ram, places, at, n);
  }

  lemma BounceRead(ram: map<nat, Byte>, places: seq<nat>, at: nat, bounce: nat, v: seq<Byte>)
    requires at + |v| <= |places| && |v| <= PAGE && Apart(places, bounce)
    ensures var page := Consecutive(bounce, |v|);
            var ram' := Copied(Scatter(ram, page, v), page, places[at..at + |v|]);
            Gather(ram', places) == Splice(Gather(ram, places), at, v) && Kept(ram, ram', places, bounce)
  {
    var page := Consecutive(bounce, |v|);
    var ram1 := Scatter(ram, page, v);
    StoredAll(ram, page, v);
    StoredOutside(ram, places, page, v);
    ScatterKeeps(ram, places, bounce, page, v);
    DirectRead(ram1, places, at, bounce, v);
  }

  /** The command's pointers lead to bytes `at` to `at + n` of the buffer, or to the bounce page. */
  ghost predicate Directed(c: Command, places: seq<nat>, at: nat, n: nat, bounce: nat) {
    && at + n <= |places| && Apart(places, bounce) && (!c.direct ==> n <= PAGE)
    && DevicePlaces(c.prps, n) == if c.direct then places[at..at + n] else Consecutive(bounce, n)
  }

  /** A write command, after the copy to the bounce page; a refused one has only made the copy. */
  method Outgoing(m: Machine, c: Command, places: seq<nat>, pos: nat, at: nat, n: nat, bounce: nat, accepted: bool)
    returns (m': Machine)
    requires c.write && Directed(c, places, at, n, bounce) && (accepted ==> pos + at + n <= |m.disk|)
    ensures Kept(m.ram, m'.ram, places, bounce)
    ensures Seen(m', places) ==
            if accepted then Moved(Seen(m, places), true, pos, at, at + n) else Seen(m, places)
  {
    m' := m;
    if !c.direct {
      BounceWrite(m.ram, places, at, bounce, n);
      m' := m.(ram := Copied(m.ram, places[at..at + n], Consecutive(bounce, n)));
    } else {
      GatherPart(m.ram, places, at, n);
    }
    if accepted {
      m' := Executed(m', c, pos + at, n);
    }
  }

  /** Memory after a read command's bytes `v`, and the copy from the bounce page. */
  function Landed(ram: map<nat, Byte>, c: Command, places: seq<nat>, at: nat, bounce: nat, v: seq<Byte>): map<nat, Byte>
    requires at + |v| <= |places|
  {
    var ram1 := Scatter(ram, DevicePlaces(c.prps, |v|), v);
    if c.direct then ram1 else Copied(ram1, Consecutive(bounce, |v|), places[at..at + |v|])
  }

  lemma ReadLands(ram: map<nat, Byte>, c: Command, places: seq<nat>, at: nat, bounce: nat, v: seq<Byte>)
    requires Directed(c, places, at, |v|, bounce)
    ensures Gather(Landed(ram, c, places, at, bounce, v), places) == Splice(Gather(ram, places), at, v)
    ensures Kept(ram, Landed(ram, c, places, at, bounce, v), places, bounce)
  {
    if c.direct {
      DirectRead(ram, places, at, bounce, v);
    } else {
      BounceRead(ram, places, at, bounce, v);
    }
  }

  method Incoming(m: Machine, c: Command, places: seq<nat>, pos: nat, at: nat, n: nat, bounce: nat)
    returns (m': Machine)
    requires !c.write && at + n <= |places| && pos + n <= |m.disk|
    ensures m' == Machine(m.disk, Landed(m.ram, c, places, at, bounce, m.disk[pos..pos + n]))
  {
    m' := Executed(m, c, pos, n);
    if !c.direct {
      m' := m'.(ram := Copied(m'.ram, Consecutive(bounce, n), places[at..at + n]));
    }
  }

  lemma ReadMoves(m: Machine, m': Machine, c: Command, places: seq<nat>, pos: nat, at: nat, n: nat, bounce: nat)
    requires Directed(c, places, at, n, bounce) && pos + at + n <= |m.disk|
    requires m' == Machine(m.disk, Landed(m.ram, c, places, at, bounce, m.disk[pos + at..pos + at + n]))
    ensures Kept(m.ram, m'.ram, places, bounce)
    ensures Seen(m', places) == Moved(Seen(m, places), false, pos, at, at + n)
  {
    ReadLands(m.ram, c, places, at, bounce, m.disk[pos + at..pos + at + n]);
    assert pos + at + n == pos + (at + n);
  }

  /** One command, with the copies to and from the bounce page around it. */
  method Chunk(m: Machine, c: Command, places: seq<nat>, pos: nat, at: nat, n: nat, bounce: nat, accepted: bool)
    returns (m': Machine)
    requires Directed(c, places, at, n, bounce) && (accepted ==> pos + at + n <= |m.disk|)
    ensures Kept(m.ram, m'.ram, places, bounce)
    ensures Seen(m', places) ==
            if accepted then Moved(Seen(m, places), c.write, pos, at, at + n) else Seen(m, places)
  {
    m' := m;
    if c.write {
      m' := Outgoing(m, c, places, pos, at, n, bounce, accepted);
    } else if accepted {
      m' := Incoming(m, c, places, pos + at, at, n, bounce);
      ReadMoves(m, m', c, places, pos, at, n, bounce);
    }
  }

  /** The first `n` bytes were moved, or there are none. */
  ghost predicate Partly(m: Media, m': Media, write: bool, pos: nat, n: nat) {
    if n == 0 then m' == m else pos + n <= |m.disk| && n <= |m.buf| && m' == Moved(m, write, pos, 0, n)
  }

  /** A chunk after `x` bytes makes it `y` bytes. */
  lemma PartlyMore(m: Media, m1: Media, write: bool, pos: nat, x: nat, y: nat)
    requires x < y <= |m.buf| && pos + y <= |m.disk| && Partly(m, m1, write, pos, x)
    ensures |m1.buf| == |m.buf| && |m1.disk| == |m.disk| && Partly(m, Moved(m1, write, pos, x, y), write, pos, y)
  {
    if x > 0 {
      if write {
        SpliceMore(m.disk, pos, m.buf, x, y);
        assert m.buf[0..x] == m.buf[..x] && m.buf[0..y] == m.buf[..y];
      } else {
        var v := m.disk[pos..pos + y];
        assert v[..x] == m.disk[pos..pos + x] && v[x..y] == m.disk[pos + x..pos + y] && v[..y] == v;
        SpliceMore(m.buf, 0, v, x, y);
      }
    }
  }

  /** The controller accepts no command past the end of the namespace. */
  ghost predicate Bounded(device: Command -> bool, bs: nat, size: nat) {
    forall c :: device(c) ==> (Lba(c) + Blocks(c)) * bs <= size
  }

  lemma Bytes(lba: nat, done: nat, n: nat, bs: nat)
    ensures (lba + done) * bs == lba * bs + done * bs && (done + n) * bs == done * bs + n * bs
    ensures (lba + done + n) * bs == lba * bs + done * bs + n * bs
  {
  }

  /** The commands of a transfer that all succeeded. */
  ghost predicate Succeeded(cs: seq<Command>, device: Command -> bool, write: bool) {
    forall c :: c in cs ==> device(c) && c.write == write
  }

  /** The machine after the commands of a transfer that have all succeeded. */
  ghost predicate Progress(mem: Memory, root: nat, r: Request, d: Driver, device: Command -> bool, places: seq<nat>,
                           m: Machine, m': Machine, cs: seq<Command>) {
    && AllInTurn(mem, root, cs, r, d) && Total(cs) <= r.count && Succeeded(cs, device, r.write)
    && Kept(m.ram, m'.ram, places, d.bounce)
    && Partly(Seen(m, places), Seen(m', places), r.write, r.lba * d.bs, Total(cs) * d.bs)
  }

  /** The machine after a command that failed. */
  ghost predicate Stopped(mem: Memory, root: nat, r: Request, d: Driver, device: Command -> bool, places: seq<nat>,
                          m: Machine, m': Machine, cs: seq<Command>)
    requires cs != []
  {
    var (before, c) := (cs[..|cs| - 1], cs[|cs| - 1]);
    && AllInTurn(mem, root, cs, r, d) && Total(cs) <= r.count
    && Succeeded(before, device, r.write) && !device(c) && c.write == r.write
    && Kept(m.ram, m'.ram, places, d.bounce)
    && Partly(Seen(m, places), Seen(m', places), r.write, r.lba * d.bs, Total(before) * d.bs)
  }

  /**
    nvme_rw: `device` tells which commands succeed, and `cpu` where the processor finds the bytes of the buffer.
    Success means that the whole buffer was moved; a failure, that the blocks of the commands before it were.
   */
  method ReadWrite(space: AddressSpace, r: Request, d: Driver, device: Command -> bool, cpu: nat -> nat, m: Machine)
    returns (ok: bool, cs: seq<Command>, m': Machine)
    requires space.Valid() && Sensible(r, d) && Bounded(device, d.bs, |m.disk|)
    requires Agrees(space.mem, space.root, cpu, r.buf, r.count * d.bs)
    requires Apart(Places(cpu, r.buf, r.count * d.bs), d.bounce)
    ensures r.count == 0 ==> !ok && cs == [] && m' == m
    ensures ok ==> Total(cs) == r.count > 0
    ensures var places := Places(cpu, r.buf, r.count * d.bs);
            if ok || r.count == 0 then Progress(space.mem, space.root, r, d, device, places, m, m', cs)
            else cs != [] && Stopped(space.mem, space.root, r, d, device, places, m, m', cs)
  {
    cs, m' := [], m;
    if r.count == 0 {
      return false, cs, m';
    }
    var places := Places(cpu, r.buf, r.count * d.bs);
    while Total(cs) < r.count
      invariant Progress(space.mem, space.root, r, d, device, places, m, m', cs)
      decreases r.count - Total(cs)
    {
      var c;
      c, m' := Turn(space, r, d, device, cpu, m, m', places, cs);
      cs := cs + [c];
      if !device(c) {
        return false, cs, m';
      }
    }
    ok := true;
  }

  lemma Appended(cs: seq<Command>, c: Command, device: Command -> bool, write: bool)
    requires Succeeded(cs, device, write) && c.write == write
    ensures (cs + [c])[..|cs|] == cs && (device(c) ==> Succeeded(cs + [c], device, write))
  {
  }

  /** One turn of the loop. */
  method Turn(space: AddressSpace, r: Request, d: Driver, device: Command -> bool, ghost cpu: nat -> nat,
              ghost m0: Machine, m: Machine, places: seq<nat>, cs: seq<Command>)
    returns (c: Command, m': Machine)
    requires space.Valid() && Sensible(r, d) && Bounded(device, d.bs, |m0.disk|)
    requires places == Places(cpu, r.buf, r.count * d.bs) && Apart(places, d.bounce)
    requires Agrees(space.mem, space.root, cpu, r.buf, r.count * d.bs)
    requires Progress(space.mem, space.root, r, d, device, places, m0, m, cs) && Total(cs) < r.count
    ensures Total(cs + [c]) > Total(cs)
    ensures if device(c) then Progress(space.mem, space.root, r, d, device, places, m0, m', cs + [c])
            else Stopped(space.mem, space.root, r, d, device, places, m0, m', cs + [c])
  {
    var done := Total(cs);
    c := NextCommand(space, r, d, done);
    m' := Submit(space.mem, space.root, r, d, device, cpu, m0, m, places, cs, done, c);
  }

  method Submit(ghost mem: Memory, ghost root: nat, r: Request, d: Driver, device: Command -> bool,
                ghost cpu: nat -> nat, ghost m0: Machine, m: Machine, places: seq<nat>, ghost cs: seq<Command>,
                done: nat, c: Command) returns (m': Machine)
    requires Sensible(r, d) && Bounded(device, d.bs, |m0.disk|)
    requires places == Places(cpu, r.buf, r.count * d.bs) && Apart(places, d.bounce)
    requires Agrees(mem, root, cpu, r.buf, r.count * d.bs)
    requires Progress(mem, root, r, d, device, places, m0, m, cs) && Total(cs) == done
    requires NextIs(mem, root, r, d, done, c)
    ensures Total(cs + [c]) > Total(cs)
    ensures if device(c) then Progress(mem, root, r, d, device, places, m0, m', cs + [c])
            else Stopped(mem, root, r, d, device, places, m0, m', cs + [c])
  {
    NextFits(mem, root, r, d, done, c);
    SeesPart(mem, root, cpu, r, d, done, c);
    m' := Advance(m0, m, c, places, r.lba, done, d, device(c));
    MoreInTurn(mem, root, cs, c, r, d);
    Appended(cs, c, device, r.write);
  }

  lemma SeesPart(mem: Memory, root: nat, cpu: nat -> nat, r: Request, d: Driver, done: nat, c: Command)
    requires Sensible(r, d) && done + Blocks(c) <= r.count && Agrees(mem, root, cpu, r.buf, r.count * d.bs)
    requires Apart(Places(cpu, r.buf, r.count * d.bs), d.bounce)
    requires if c.direct then Points(mem, root, r.buf + done * d.bs, Blocks(c) * d.bs, c.prps)
             else c.prps == Prps(d.bounce, Page(0)) && Blocks(c) * d.bs <= PAGE
    ensures Directed(c, Places(cpu, r.buf, r.count * d.bs), done * d.bs, Blocks(c) * d.bs, d.bounce)
  {
    assert done * d.bs + Blocks(c) * d.bs <= r.count * d.bs by {
      Bytes(0, done, Blocks(c), d.bs);
      Product(done + Blocks(c), r.count, d.bs);
    }
    IsDirected(mem, root, cpu, r.buf, r.count * d.bs, c, done * d.bs, Blocks(c) * d.bs, d.bounce);
  }

  lemma IsDirected(mem: Memory, root: nat, cpu: nat -> nat, va: nat, size: nat, c: Command, at: nat, n: nat,
                   bounce: nat)
    requires Agrees(mem, root, cpu, va, size) && at + n <= size && bounce % PAGE == 0
    requires Apart(Places(cpu, va, size), bounce)
    requires if c.direct then Points(mem, root, va + at, n, c.prps) else c.prps == Prps(bounce, Page(0)) && n <= PAGE
    ensures Directed(c, Places(cpu, va, size), at, n, bounce)
  {
    if c.direct {
      DeviceSeesBuffer(mem, root, cpu, va, size, at, n, c.prps);
    } else {
      DeviceSeesBounce(bounce, n);
    }
  }

  /** The next command of a transfer that has moved `done` blocks since `m0`. */
  method Advance(ghost m0: Machine, m: Machine, c: Command, places: seq<nat>, lba: nat, done: nat, d: Driver,
                 accepted: bool) returns (m': Machine)
    requires 0 < d.bs && Lba(c) == lba + done && Directed(c, places, done * d.bs, Blocks(c) * d.bs, d.bounce)
    requires accepted ==> (Lba(c) + Blocks(c)) * d.bs <= |m0.disk|
    requires Kept(m0.ram, m.ram, places, d.bounce)
    requires Partly(Seen(m0, places), Seen(m, places), c.write, lba * d.bs, done * d.bs)
    ensures Kept(m0.ram, m'.ram, places, d.bounce)
    ensures accepted ==> Partly(Seen(m0, places), Seen(m', places), c.write, lba * d.bs, (done + Blocks(c)) * d.bs)
    ensures !accepted ==> Partly(Seen(m0, places), Seen(m', places), c.write, lba * d.bs, done * d.bs)
  {
    var pos, at, n := lba * d.bs, done * d.bs, Blocks(c) * d.bs;
    assert n > 0 by {
      Product(1, Blocks(c), d.bs);
    }
    assert (done + Blocks(c)) * d.bs == at + n && (Lba(c) + Blocks(c)) * d.bs == pos + at + n by {
      Bytes(lba, done, Blocks(c), d.bs);
    }
    m' := Onward(m0, m, c, places, pos, at, n, d.bounce, accepted);
  }

  method Onward(ghost m0: Machine, m: Machine, c: Command, places: seq<nat>, pos: nat, at: nat, n: nat, bounce: nat,
                accepted: bool) returns (m': Machine)
    requires Directed(c, places, at, n, bounce) && n > 0 && (accepted ==> pos + at + n <= |m0.disk|)
    requires Kept(m0.ram, m.ram, places, bounce) && Partly(Seen(m0, places), Seen(m, places), c.write, pos, at)
    ensures Kept(m0.ram, m'.ram, places, bounce)
    ensures Partly(Seen(m0, places), Seen(m', places), c.write, pos, if accepted then at + n else at)
  {
    assert at + n <= |places|;
    if accepted {
      PartlyMore(Seen(m0, places), Seen(m, places), c.write, pos, at, at + n);
      assert pos + at + n <= |m.disk|;
    }
    m' := Chunk(m, c, places, pos, at, n, bounce, accepted);
    assert Kept(m0.ram, m'.ram, places, bounce) by {
      KeptOn(m0.ram, m.ram, m'.ram, places, bounce);
    }
  }

  /** The command of one turn: straight to the buffer, or a page's worth through the bounce buffer. */
  method NextCommand(space: AddressSpace, r: Request, d: Driver, done: nat) returns (c: Command)
    requires space.Valid() && Sensible(r, d) && done < r.count
    ensures NextIs(space.mem, space.root, r, d, done, c)
  {
    var lba, left, most := r.lba + done, r.count - done, MaxCmdBlocks(d.mdts, d.bs);
    var n := if left < most then left else most;
    Product(n, most, d.bs);
    var direct, prps := BuildPrps(space, r.buf + done * d.bs, n * d.bs);
    if !direct {
      var per := PAGE / d.bs;
      PerPage(d.bs);
      n := if n < per then n else per;
      prps := Prps(d.bounce, Page(0));
    }
    c := Command(r.write, lba % 0x1_0000_0000, lba / 0x1_0000_0000, n - 1, prps, direct);
  }

  lemma Product(n: nat, m: nat, bs: nat)
    requires 0 < n <= m && bs > 0
    ensures 0 < n * bs <= m * bs
  {
    if n < m {
      Arith.MulStep(n, m, bs);
    }
    Arith.MulStep(0, n, bs);
  }

  lemma PerPage(bs: nat)
    requires 0 < bs <= PAGE
    ensures 1 <= PAGE / bs && PAGE / bs * bs <= PAGE
  {
    Arith.NumberOf(bs, PAGE);
  }

  /** Every requested block belongs to exactly one command. */
  lemma {:induction false} CoveredOnce(mem: Memory, root: nat, cs: seq<Command>, r: Request, d: Driver, b: nat)
    requires AllInTurn(mem, root, cs, r, d) && r.lba <= b < r.lba + Total(cs)
    ensures exists k :: 0 <= k < |cs| && Moves(cs[k], b)
    ensures forall j, k :: 0 <= j < |cs| && 0 <= k < |cs| && Moves(cs[j], b) && Moves(cs[k], b) ==> j == k
    decreases |cs|
  {
    var n := |cs| - 1;
    var init := cs[..n];
    assert InTurn(mem, root, cs, n, r, d);
    forall k: nat | k < n ensures InTurn(mem, root, init, k, r, d) {
      assert InTurn(mem, root, cs, k, r, d);
      assert init[..k] == cs[..k];
    }
    forall k: nat | k < n ensures Lba(cs[k]) + Blocks(cs[k]) <= r.lba + Total(init) {
      assert InTurn(mem, root, cs, k, r, d);
      TotalGrows(cs, k + 1, n);
      assert cs[..k + 1][..k] == cs[..k];
    }
    if b < r.lba + Total(init) {
      CoveredOnce(mem, root, init, r, d, b);
      var k :| 0 <= k < |init| && Moves(init[k], b);
      assert Moves(cs[k], b);
      forall j | 0 <= j < |cs| && Moves(cs[j], b) ensures j < n && Moves(init[j], b) {
      }
    } else {
      assert Moves(cs[n], b);
      forall j | 0 <= j < |cs| && Moves(cs[j], b) ensures j == n {
      }
    }
  }

  predicate Moves(c: Command, b: nat) {
    Lba(c) <= b < Lba(c) + Blocks(c)
  }

  lemma {:induction false} TotalGrows(cs: seq<Command>, j: nat, k: nat)
    requires j <= k <= |cs|
    ensures Total(cs[..j]) <= Total(cs[..k])
    decreases k - j
  {
    if j < k {
      TotalGrows(cs, j, k - 1);
      assert cs[..k][..k - 1] == cs[..k - 1];
    }
  }
}
