/**
  The slab heap of src/memory.c: size-class slabs with free lists threaded through
  their free blocks, and runs of whole slabs for large requests. `Store` is what
  the code reads and writes, with slab descriptors by index and -1 for NULL;
  `Shape` is what it stands for. A pointer stored in memory takes one cell.
 */
module Heap {
  import opened Arith

  const SLAB: nat := 65536
  const LARGE: nat := 0xFFFF_FFFF
  const TWO64: nat := 0x1_0000_0000_0000_0000
  const CLASS_SIZE: seq<nat> :=
    [16, 32, 48, 64, 96, 128, 192, 256, 384, 512, 768, 1024, 1536, 2048, 3072, 4096, 6144, 8192]

  datatype Cell = Data(byte: nat) | Link(next: nat)
  datatype Desc = Desc(next: int, freeList: nat, cls: nat, freeCount: nat, nslabs: nat)
  datatype Store = Store(carved: nat, descs: seq<Desc>, partial: seq<int>, freeRuns: int, mem: map<nat, Cell>)

  /** What a carved slab is: small blocks of one class, or part of the run that starts at slab `head`. */
  datatype Kind = Small(c: nat) | Live(head: nat) | Free(head: nat)
  datatype Shape = Shape(kind: seq<Kind>, free: seq<seq<nat>>, parts: seq<seq<nat>>, runs: seq<nat>,
                         live: map<nat, nat>)

  /** The region: its first slab's address, where the slabs end, and how many fit. */
  datatype Region = Region(base: nat, end: nat, limit: int, sizes: seq<nat>)

  predicate ClassOk(n: nat) {
    16 <= n <= SLAB && n % 16 == 0
  }

  /** All classes are multiples of 16 that fit a slab. */
  ghost predicate RegionOk(r: Region) {
    && 0 < r.base && r.base % SLAB == 0 && |r.sizes| > 0
    && (forall c :: 0 <= c < |r.sizes| ==> ClassOk(r.sizes[c]))
    && |r.sizes| < LARGE
    && r.base < TWO64 && r.end < TWO64 && r.base <= r.end + SLAB && 0 <= r.limit <= LARGE
    && (if r.end < r.base then r.limit == 0 else r.limit * SLAB == r.end - r.base)
  }

  function SlabBase(r: Region, s: nat): nat {
    r.base + s * SLAB
  }

  // ----- Blocks of a slab -----

  /** Offset `x` is where a block starts when blocks of size `bs` are laid out from offset `o` on. */
  predicate OnGrid(o: nat, bs: nat, x: int)
    decreases SLAB - o
  {
    bs > 0 && o + bs <= SLAB && (x == o || OnGrid(o + bs, bs, x))
  }

  /** How many blocks fit from offset `o` on. */
  function GridCount(o: nat, bs: nat): nat
    requires bs > 0
    decreases SLAB - o
  {
    if o + bs > SLAB then 0 else 1 + GridCount(o + bs, bs)
  }

  lemma {:induction false} GridCountIs(o: nat, bs: nat, k: nat)
    requires bs > 0 && o == k * bs && o <= SLAB
    ensures GridCount(o, bs) == SLAB / bs - k
    decreases SLAB - o
  {
    NumberOf(bs, SLAB);
    if o + bs <= SLAB {
      assert o + bs == (k + 1) * bs;
      GridCountIs(o + bs, bs, k + 1);
    } else {
      SameParts(bs, k, SLAB - o, SLAB / bs, SLAB % bs);
    }
  }

  lemma {:induction false} OnGridInside(o: nat, bs: nat, x: int)
    requires OnGrid(o, bs, x) && bs % 16 == 0 && o % 16 == 0
    ensures o <= x && x + bs <= SLAB && x % 16 == 0
    decreases SLAB - o
  {
    if x != o {
      OnGridInside(o + bs, bs, x);
    }
  }

  lemma {:induction false} OnGridFrom(o: nat, bs: nat, x: int)
    requires OnGrid(o, bs, x)
    ensures o <= x
    decreases SLAB - o
  {
    if x != o {
      OnGridFrom(o + bs, bs, x);
    }
  }

  lemma {:induction false} OnGridApart(o: nat, bs: nat, x: int, z: int)
    requires OnGrid(o, bs, x) && OnGrid(o, bs, z) && x < z
    ensures x + bs <= z
    decreases SLAB - o
  {
    OnGridFrom(o, bs, x);
    if x == o {
      OnGridFrom(o + bs, bs, z);
    } else {
      OnGridApart(o + bs, bs, x, z);
    }
  }

  /** `p` is the start of one of the blocks of size `bs` in the slab at `lo`. */
  predicate IsBlock(lo: nat, bs: nat, p: nat) {
    OnGrid(0, bs, p - lo)
  }

  lemma BlockInside(lo: nat, bs: nat, p: nat)
    requires 16 <= bs <= SLAB && bs % 16 == 0 && IsBlock(lo, bs, p) && lo % 16 == 0
    ensures lo <= p && p + bs <= lo + SLAB && p % 16 == 0
  {
    OnGridInside(0, bs, p - lo);
  }

  lemma BlocksApart(lo: nat, bs: nat, p: nat, q: nat)
    requires bs > 0 && IsBlock(lo, bs, p) && IsBlock(lo, bs, q) && p < q
    ensures p + bs <= q
  {
    OnGridApart(0, bs, p - lo, q - lo);
  }

  /** `n` blocks from `p` on, in order. */
  function Blocks(p: nat, bs: nat, n: nat): (l: seq<nat>)
    ensures |l| == n
    decreases n
  {
    if n == 0 then [] else [p] + Blocks(p + bs, bs, n - 1)
  }

  lemma {:induction false} InBlocks(lo: nat, o: nat, bs: nat, q: nat)
    requires bs > 0
    ensures q in Blocks(lo + o, bs, GridCount(o, bs)) <==> OnGrid(o, bs, q - lo)
    decreases SLAB - o
  {
    if o + bs <= SLAB {
      InBlocks(lo, o + bs, bs, q);
      var rest := Blocks(lo + o + bs, bs, GridCount(o + bs, bs));
      assert Blocks(lo + o, bs, GridCount(o, bs)) == [lo + o] + rest;
    }
  }

  ghost predicate NoDup<T>(l: seq<T>) {
    forall i, j :: 0 <= i < j < |l| ==> l[i] != l[j]
  }

  lemma {:induction false} BlocksNoDup(p: nat, bs: nat, n: nat)
    requires bs > 0
    ensures NoDup(Blocks(p, bs, n)) && forall q :: q in Blocks(p, bs, n) ==> q >= p
    decreases n
  {
    if n > 0 {
      BlocksNoDup(p + bs, bs, n - 1);
      var l, rest := Blocks(p, bs, n), Blocks(p + bs, bs, n - 1);
      assert l == [p] + rest;
      forall i, j | 0 <= i < j < |l| ensures l[i] != l[j] {
        assert l[j] == rest[j - 1] && rest[j - 1] in rest;
        assert i > 0 ==> l[i] == rest[i - 1];
      }
    }
  }

  // ----- Linked lists -----

  /** Following the links from `p` visits `l` and ends at NULL. */
  ghost predicate Chain(mem: map<nat, Cell>, p: nat, l: seq<nat>)
    decreases |l|
  {
    if l == [] then p == 0
    else p == l[0] && p != 0 && p in mem && mem[p].Link? && Chain(mem, mem[p].next, l[1..])
  }

  lemma {:induction false} ChainKept(mem: map<nat, Cell>, mem': map<nat, Cell>, p: nat, l: seq<nat>)
    requires Chain(mem, p, l) && forall q :: q in l && q in mem ==> q in mem' && mem'[q] == mem[q]
    ensures Chain(mem', p, l)
    decreases |l|
  {
    if l != [] {
      ChainKept(mem, mem', mem[p].next, l[1..]);
    }
  }

  /** Following `next` from slab `h` visits `l` and ends at NULL. */
  ghost predicate Linked(descs: seq<Desc>, h: int, l: seq<nat>)
    decreases |l|
  {
    if l == [] then h == -1
    else h == l[0] && 0 <= h < |descs| && Linked(descs, descs[h].next, l[1..])
  }

  lemma {:induction false} LinkedKept(descs: seq<Desc>, descs': seq<Desc>, h: int, l: seq<nat>)
    requires Linked(descs, h, l) && |descs'| == |descs|
    requires forall k :: 0 <= k < |l| && l[k] < |descs| ==> descs'[l[k]].next == descs[l[k]].next
    ensures Linked(descs', h, l)
    decreases |l|
  {
    if l != [] {
      LinkedKept(descs, descs', descs[h].next, l[1..]);
    }
  }

  lemma {:induction false} LinkedAt(descs: seq<Desc>, h: int, l: seq<nat>, k: nat)
    requires Linked(descs, h, l) && k < |l|
    ensures l[k] < |descs| && Linked(descs, descs[l[k]].next, l[k + 1..])
    decreases |l|
  {
    if k > 0 {
      LinkedAt(descs, descs[h].next, l[1..], k - 1);
      assert l[1..][k..] == l[k + 1..];
    }
  }

  /** `*pp = r->next` with `pp` inside the list: element `k` drops out. */
  lemma {:induction false} LinkedCut(descs: seq<Desc>, h: int, l: seq<nat>, k: nat)
    requires Linked(descs, h, l) && NoDup(l) && 0 < k < |l| && l[k - 1] < |descs| && l[k] < |descs|
    ensures Linked(descs[l[k - 1] := descs[l[k - 1]].(next := descs[l[k]].next)], h, l[..k] + l[k + 1..])
    decreases |l|
  {
    var descs' := descs[l[k - 1] := descs[l[k - 1]].(next := descs[l[k]].next)];
    var l' := l[..k] + l[k + 1..];
    if k == 1 {
      LinkedAt(descs, h, l, 1);
      LinkedKept(descs, descs', descs[l[1]].next, l[2..]);
      assert l'[1..] == l[2..];
    } else {
      assert l[1..][k - 1] == l[k] && l[1..][k - 2] == l[k - 1];
      LinkedCut(descs, descs[h].next, l[1..], k - 1);
      assert l'[1..] == l[1..][..k - 1] + l[1..][k..];
      assert l[0] != l[k - 1];
    }
  }

  // ----- The invariant -----

  ghost predicate Sane(r: Region, st: Store, g: Shape) {
    && |g.kind| == |g.free| == st.carved <= |st.descs| && st.carved <= r.limit <= |st.descs|
    && |st.partial| == |g.parts| == |r.sizes|
    && forall a {:trigger a in st.mem} :: r.base <= a < r.base + r.limit * SLAB ==> a in st.mem
  }

  ghost predicate SmallOk(r: Region, st: Store, g: Shape, s: nat)
    requires Sane(r, st, g) && s < st.carved
  {
    g.kind[s].Small? ==>
      var c, d := g.kind[s].c, st.descs[s];
      && c < |r.sizes| && r.sizes[c] > 0 && d.cls == c && d.nslabs == 1 && d.freeCount == |g.free[s]|
      && Chain(st.mem, d.freeList, g.free[s]) && NoDup(g.free[s])
      && forall p :: p in g.free[s] ==> IsBlock(SlabBase(r, s), r.sizes[c], p)
  }

  /** Slab `s` lies in the run that its kind names. */
  ghost predicate RunOk(st: Store, g: Shape, s: nat)
    requires |g.kind| == st.carved <= |st.descs| && s < st.carved
  {
    !g.kind[s].Small? ==>
      var h := g.kind[s].head;
      h <= s && g.kind[h] == g.kind[s] && st.descs[h].cls == LARGE && s < h + st.descs[h].nslabs
  }

  /** A run that starts at `h` is made of slabs of its own. */
  ghost predicate HeadOk(st: Store, g: Shape, h: nat)
    requires |g.kind| == st.carved <= |st.descs| && h < st.carved
  {
    !g.kind[h].Small? && g.kind[h].head == h ==>
      var n := st.descs[h].nslabs;
      1 <= n && h + n <= st.carved && forall s {:trigger g.kind[s]} :: h <= s < h + n ==> g.kind[s] == g.kind[h]
  }

  ghost predicate SlabOk(r: Region, st: Store, g: Shape, s: nat)
    requires Sane(r, st, g) && s < st.carved
  {
    SmallOk(r, st, g, s) && RunOk(st, g, s) && HeadOk(st, g, s)
  }

  ghost predicate HasFree(g: Shape, c: nat, s: nat) {
    s < |g.kind| && s < |g.free| && g.kind[s] == Small(c) && g.free[s] != []
  }

  /** The partial list of class `c` holds exactly the slabs of that class with a free block. */
  ghost predicate PartOk(st: Store, g: Shape, c: nat)
    requires c < |st.partial| == |g.parts|
  {
    && Linked(st.descs, st.partial[c], g.parts[c]) && NoDup(g.parts[c])
    && forall s {:trigger s in g.parts[c]} {:trigger HasFree(g, c, s)} :: s in g.parts[c] <==> HasFree(g, c, s)
  }

  ghost predicate FreeHead(g: Shape, h: nat) {
    h < |g.kind| && g.kind[h] == Free(h)
  }

  ghost predicate RunsOk(st: Store, g: Shape) {
    && Linked(st.descs, st.freeRuns, g.runs) && NoDup(g.runs)
    && forall h {:trigger h in g.runs} {:trigger FreeHead(g, h)} :: h in g.runs <==> FreeHead(g, h)
  }

  function SlabOf(r: Region, p: nat): nat
    requires p >= r.base
  {
    (p - r.base) / SLAB
  }

  /** `p` is where a block or a live run starts. */
  ghost predicate Unit(r: Region, g: Shape, p: nat) {
    p >= r.base &&
    var s := SlabOf(r, p);
    s < |g.kind| && match g.kind[s]
      case Small(c) => c < |r.sizes| && r.sizes[c] > 0 && IsBlock(SlabBase(r, s), r.sizes[c], p)
      case Live(h) => h == s && p == SlabBase(r, s)
      case Free(_) => false
  }

  /** The space at `p`. */
  ghost function Room(r: Region, st: Store, g: Shape, p: nat): nat
    requires Sane(r, st, g) && Unit(r, g, p)
  {
    var s := SlabOf(r, p);
    if g.kind[s].Small? then r.sizes[g.kind[s].c] else st.descs[s].nslabs * SLAB
  }

  /** The live blocks with all the space each of them may use. */
  ghost function Rooms(r: Region, st: Store, g: Shape): map<nat, nat>
    requires Sane(r, st, g)
  {
    map p | p in g.live && Unit(r, g, p) :: Room(r, st, g, p)
  }

  ghost predicate Handed(r: Region, g: Shape, p: nat) {
    Unit(r, g, p) && SlabOf(r, p) < |g.free| && (g.kind[SlabOf(r, p)].Small? ==> p !in g.free[SlabOf(r, p)])
  }

  /** Exactly the blocks handed out are live, each with at least the room that was asked for. */
  ghost predicate LiveOk(r: Region, st: Store, g: Shape, p: nat)
    requires Sane(r, st, g)
  {
    (p in g.live <==> Handed(r, g, p)) && (p in g.live ==> 0 < g.live[p] <= Room(r, st, g, p))
  }

  ghost predicate SlabsOk(r: Region, st: Store, g: Shape)
    requires Sane(r, st, g)
  {
    forall s: nat {:trigger SlabOk(r, st, g, s)} :: s < st.carved ==> SlabOk(r, st, g, s)
  }

  ghost predicate PartsOk(st: Store, g: Shape)
    requires |st.partial| == |g.parts|
  {
    forall c: nat {:trigger PartOk(st, g, c)} :: c < |st.partial| ==> PartOk(st, g, c)
  }

  ghost predicate AllLive(r: Region, st: Store, g: Shape)
    requires Sane(r, st, g)
  {
    forall p: nat {:trigger p in g.live} {:trigger Handed(r, g, p)} :: LiveOk(r, st, g, p)
  }

  ghost predicate Inv(r: Region, st: Store, g: Shape) {
    RegionOk(r) && Sane(r, st, g) && SlabsOk(r, st, g) && PartsOk(st, g) && RunsOk(st, g) && AllLive(r, st, g)
  }

  // ----- What the invariant means for blocks -----

  lemma UnitRoom(r: Region, st: Store, g: Shape, p: nat)
    requires Inv(r, st, g) && Unit(r, g, p)
    ensures p % 16 == 0 && Room(r, st, g, p) > 0
    ensures SlabBase(r, SlabOf(r, p)) <= p && p + Room(r, st, g, p) <= SlabBase(r, st.carved)
    ensures g.kind[SlabOf(r, p)].Small? ==> p + Room(r, st, g, p) <= SlabBase(r, SlabOf(r, p) + 1)
  {
    var s := SlabOf(r, p);
    assert SlabOk(r, st, g, s);
    SlabAligned(r, s);
    if g.kind[s].Small? {
      BlockInside(SlabBase(r, s), r.sizes[g.kind[s].c], p);
    }
  }

  /** Rooms do not overlap. */
  lemma RoomsApart(r: Region, st: Store, g: Shape, p: nat, q: nat)
    requires Inv(r, st, g) && Unit(r, g, p) && Unit(r, g, q) && p < q
    ensures p + Room(r, st, g, p) <= q
  {
    var s, t := SlabOf(r, p), SlabOf(r, q);
    UnitRoom(r, st, g, p);
    UnitRoom(r, st, g, q);
    assert SlabOk(r, st, g, s);
    if s == t {
      if g.kind[s].Small? {
        BlocksApart(SlabBase(r, s), r.sizes[g.kind[s].c], p, q);
      }
    } else {
      var other := g.kind[t];
    }
  }

  /** Live blocks are 16-aligned, inside the carved slabs, as large as requested and pairwise disjoint. */
  lemma LiveDisjoint(r: Region, st: Store, g: Shape, p: nat, q: nat)
    requires Inv(r, st, g) && p in g.live && q in g.live && p != q
    ensures p % 16 == 0 && r.base <= p && p + g.live[p] <= SlabBase(r, st.carved)
    ensures p + g.live[p] <= q || q + g.live[q] <= p
  {
    assert LiveOk(r, st, g, p) && LiveOk(r, st, g, q);
    UnitRoom(r, st, g, p);
    if p < q {
      RoomsApart(r, st, g, p, q);
    } else {
      RoomsApart(r, st, g, q, p);
    }
  }

  // ----- Taking a block of a small slab -----

  function Zeroed(mem: map<nat, Cell>, p: nat, n: nat): map<nat, Cell> {
    map a | a in mem :: if p <= a < p + n then Data(0) else mem[a]
  }

  /** Cells outside [p, p + n) are the same. */
  ghost predicate SameOutside(mem: map<nat, Cell>, mem': map<nat, Cell>, p: nat, n: nat) {
    forall a {:trigger a in mem'} {:trigger mem'[a]} :: a in mem ==>
      a in mem' && (a < p || a >= p + n ==> mem'[a] == mem[a])
  }

  lemma SlabOfAddress(r: Region, s: nat, p: nat)
    requires SlabBase(r, s) <= p < SlabBase(r, s) + SLAB
    ensures SlabOf(r, p) == s
  {
  }

  lemma FreeUnit(r: Region, st: Store, g: Shape, s: nat, q: nat)
    requires Inv(r, st, g) && s < st.carved && g.kind[s].Small? && q in g.free[s]
    ensures Unit(r, g, q) && SlabOf(r, q) == s
  {
    var c := FreeBlock(r, st, g, s, q);
    BlockInside(SlabBase(r, s), r.sizes[c], q);
    SlabOfAddress(r, s, q);
  }

  lemma FreeBlock(r: Region, st: Store, g: Shape, s: nat, q: nat) returns (c: nat)
    requires Inv(r, st, g) && s < st.carved && g.kind[s].Small? && q in g.free[s]
    ensures g.kind[s] == Small(c) && c < |r.sizes| && IsBlock(SlabBase(r, s), r.sizes[c], q)
    ensures 16 <= r.sizes[c] <= SLAB && r.sizes[c] % 16 == 0 && SlabBase(r, s) % 16 == 0
  {
    c := g.kind[s].c;
    assert SlabOk(r, st, g, s);
    SlabAligned(r, s);
  }

  lemma SlabAligned(r: Region, s: nat)
    requires r.base % SLAB == 0
    ensures SlabBase(r, s) % 16 == 0
  {
    var k := r.base / SLAB;
    var x := 4096 * k + 4096 * s;
    assert r.base == SLAB * k;
    assert SlabBase(r, s) == 16 * x;
    Sixteens(x);
  }

  lemma Sixteens(x: nat)
    ensures 16 * x % 16 == 0
  {
  }

  lemma TailOf<T>(l: seq<T>, x: T)
    requires l != [] && NoDup(l)
    ensures NoDup(l[1..]) && (x in l[1..] <==> x in l && x != l[0])
  {
    if x in l[1..] {
      var k :| 0 <= k < |l| - 1 && l[1..][k] == x;
      assert l[k + 1] == x;
    }
  }

  /** Free blocks of other slabs, and other free blocks of this slab, lie outside the room of unit `p`. */
  lemma FreeOutside(r: Region, st: Store, g: Shape, p: nat, s: nat, q: nat)
    requires Inv(r, st, g) && Unit(r, g, p) && s < st.carved && g.kind[s].Small? && q in g.free[s] && q != p
    ensures q < p || q >= p + Room(r, st, g, p)
  {
    FreeUnit(r, st, g, s, q);
    if p < q {
      RoomsApart(r, st, g, p, q);
    }
  }

  /** The store after slab `s` of class `c` gave its first free block away. */
  function Popped(st: Store, s: nat, c: nat, n: nat): Store
    requires s < |st.descs| && c < |st.partial| && st.descs[s].freeList in st.mem && st.mem[st.descs[s].freeList].Link?
    requires st.descs[s].freeCount > 0
  {
    var d := st.descs[s];
    var p := d.freeList;
    var d' := d.(freeList := st.mem[p].next, freeCount := d.freeCount - 1);
    if d'.freeCount == 0 then
      st.(descs := st.descs[s := d'.(next := -1)], partial := st.partial[c := d.next], mem := Zeroed(st.mem, p, n))
    else
      st.(descs := st.descs[s := d'], mem := Zeroed(st.mem, p, n))
  }

  ghost function PoppedShape(g: Shape, s: nat, c: nat, n: nat): Shape
    requires s < |g.free| && g.free[s] != [] && c < |g.parts| && g.parts[c] != []
  {
    var free' := g.free[s := g.free[s][1..]];
    g.(free := free', parts := if free'[s] == [] then g.parts[c := g.parts[c][1..]]
      else g.parts, live := g.live[g.free[s][0] := n])
  }

  /** The first slab of a partial list and its first free block. */
  lemma FirstFree(r: Region, st: Store, g: Shape, c: nat)
    requires Inv(r, st, g) && c < |r.sizes| && g.parts[c] != []
    ensures var s := g.parts[c][0];
            && st.partial[c] == s && s < st.carved && g.kind[s] == Small(c) && g.free[s] != []
            && var p := g.free[s][0];
            && st.descs[s].freeList == p && p in st.mem && st.mem[p].Link? && st.descs[s].freeCount == |g.free[s]|
            && Unit(r, g, p) && SlabOf(r, p) == s && Room(r, st, g, p) == r.sizes[c]
  {
    assert PartOk(st, g, c);
    var s := g.parts[c][0];
    assert s in g.parts[c] && HasFree(g, c, s);
    assert SlabOk(r, st, g, s);
    assert g.free[s][0] in g.free[s];
    FreeUnit(r, st, g, s, g.free[s][0]);
  }

  lemma PoppedSlabs(r: Region, st: Store, g: Shape, c: nat, n: nat)
    requires Inv(r, st, g) && c < |r.sizes| && g.parts[c] != [] && 0 < n <= r.sizes[c]
    requires var s := g.parts[c][0];
             && s < st.carved && g.free[s] != [] && st.descs[s].freeCount > 0
             && st.descs[s].freeList in st.mem && st.mem[st.descs[s].freeList].Link?
    ensures var s := g.parts[c][0];
            Sane(r, Popped(st, s, c, n), PoppedShape(g, s, c, n)) &&
              SlabsOk(r, Popped(st, s, c, n), PoppedShape(g, s, c, n))
  {
    FirstFree(r, st, g, c);
    var s := g.parts[c][0];
    var p := g.free[s][0];
    var st', g' := Popped(st, s, c, n), PoppedShape(g, s, c, n);
    forall t: nat | t < st'.carved ensures SlabOk(r, st', g', t) {
      assert SlabOk(r, st, g, t);
      if g.kind[t].Small? {
        forall q | q in g'.free[t] ensures q in g.free[t] && q != p {
          if t != s {
            FreeUnit(r, st, g, t, q);
          }
        }
        forall q | q in g'.free[t] && q in st.mem ensures q in st'.mem && st'.mem[q] == st.mem[q] {
          FreeOutside(r, st, g, p, t, q);
        }
        ChainKept(st.mem, st'.mem, st'.descs[t].freeList, g'.free[t]);
      }
      assert HeadOk(st', g', t);
    }
  }

  lemma PoppedParts(r: Region, st: Store, g: Shape, c: nat, n: nat)
    requires Inv(r, st, g) && c < |r.sizes| && g.parts[c] != [] && 0 < n <= r.sizes[c]
    requires var s := g.parts[c][0];
             && s < st.carved && g.free[s] != [] && st.descs[s].freeCount > 0
             && st.descs[s].freeList in st.mem && st.mem[st.descs[s].freeList].Link?
    ensures var s := g.parts[c][0];
            PartsOk(Popped(st, s, c, n), PoppedShape(g, s, c, n)) &&
              RunsOk(Popped(st, s, c, n), PoppedShape(g, s, c, n))
  {
    FirstFree(r, st, g, c);
    var s := g.parts[c][0];
    var st', g' := Popped(st, s, c, n), PoppedShape(g, s, c, n);
    assert PartOk(st, g, c);
    forall k: nat | k < |st'.partial| ensures PartOk(st', g', k) {
      assert PartOk(st, g, k);
      assert k != c ==> !HasFree(g, k, s);
      forall t ensures t in g'.parts[k] <==> HasFree(g', k, t) {
        assert t in g.parts[k] <==> HasFree(g, k, t);
        TailOf(g.parts[c], t);
      }
      if k == c && g'.free[s] == [] {
        TailOf(g.parts[c], s);
        LinkedKept(st.descs, st'.descs, st.descs[s].next, g.parts[c][1..]);
      } else {
        assert k != c ==> s !in g.parts[k];
        LinkedKept(st.descs, st'.descs, st.partial[k], g.parts[k]);
      }
    }
    assert s !in g.runs by {
      assert !FreeHead(g, s);
    }
    LinkedKept(st.descs, st'.descs, st.freeRuns, g.runs);
    forall h ensures h in g'.runs <==> FreeHead(g', h) {
      assert h in g.runs <==> FreeHead(g, h);
    }
  }

  lemma PoppedLive(r: Region, st: Store, g: Shape, c: nat, n: nat)
    requires Inv(r, st, g) && c < |r.sizes| && g.parts[c] != [] && 0 < n <= r.sizes[c]
    requires var s := g.parts[c][0];
             && s < st.carved && g.free[s] != [] && st.descs[s].freeCount > 0
             && st.descs[s].freeList in st.mem && st.mem[st.descs[s].freeList].Link?
    requires var s := g.parts[c][0]; Sane(r, Popped(st, s, c, n), PoppedShape(g, s, c, n))
    ensures var s := g.parts[c][0]; AllLive(r, Popped(st, s, c, n), PoppedShape(g, s, c, n))
  {
    FirstFree(r, st, g, c);
    var s := g.parts[c][0];
    var p := g.free[s][0];
    var st', g' := Popped(st, s, c, n), PoppedShape(g, s, c, n);
    assert SlabOk(r, st, g, s);
    forall q: nat ensures LiveOk(r, st', g', q) {
      assert LiveOk(r, st, g, q);
      TailOf(g.free[s], q);
      assert Unit(r, g', q) <==> Unit(r, g, q);
    }
  }

  lemma PoppedInv(r: Region, st: Store, g: Shape, c: nat, n: nat)
    requires Inv(r, st, g) && c < |r.sizes| && g.parts[c] != [] && 0 < n <= r.sizes[c]
    ensures var s := g.parts[c][0];
            && s < st.carved && g.free[s] != [] && st.descs[s].freeCount > 0 && st.descs[s].freeList in st.mem &&
               st.mem[st.descs[s].freeList].Link?
            && Inv(r, Popped(st, s, c, n), PoppedShape(g, s, c, n))
  {
    FirstFree(r, st, g, c);
    PoppedSlabs(r, st, g, c, n);
    PoppedParts(r, st, g, c, n);
    PoppedLive(r, st, g, c, n);
  }

  // ----- Giving a block back to a small slab -----

  function Pushed(st: Store, s: nat, p: nat): Store
    requires s < |st.descs| && st.descs[s].cls < |st.partial|
  {
    var d := st.descs[s];
    var d' := d.(freeList := p, freeCount := d.freeCount + 1);
    var mem' := st.mem[p := Link(d.freeList)];
    if d.freeCount == 0 then
      st.(descs := st.descs[s := d'.(next := st.partial[d.cls])], partial := st.partial[d.cls := s], mem := mem')
    else
      st.(descs := st.descs[s := d'], mem := mem')
  }

  ghost function PushedShape(g: Shape, s: nat, c: nat, p: nat): Shape
    requires s < |g.free| && c < |g.parts|
  {
    g.(free := g.free[s := [p] + g.free[s]], parts := if g.free[s] == [] then g.parts[c := [s] + g.parts[c]]
      else g.parts,
       live := g.live - {p})
  }

  lemma PushedInv(r: Region, st: Store, g: Shape, s: nat, p: nat)
    requires Inv(r, st, g) && p in g.live && p >= r.base && s == SlabOf(r, p) < st.carved && g.kind[s].Small?
    ensures var c := g.kind[s].c;
            st.descs[s].cls == c < |st.partial| && Inv(r, Pushed(st, s, p), PushedShape(g, s, c, p))
  {
    var c := g.kind[s].c;
    assert SlabOk(r, st, g, s) && LiveOk(r, st, g, p);
    PushedSlabs(r, st, g, s, c, p);
    PushedParts(r, st, g, s, c, p);
    var st', g' := Pushed(st, s, p), PushedShape(g, s, c, p);
    forall q: nat ensures LiveOk(r, st', g', q) {
      assert LiveOk(r, st, g, q);
      assert Unit(r, g', q) <==> Unit(r, g, q);
    }
  }

  lemma PushedSlabs(r: Region, st: Store, g: Shape, s: nat, c: nat, p: nat)
    requires Inv(r, st, g) && s < st.carved && g.kind[s] == Small(c) && st.descs[s].cls == c < |st.partial|
    requires Handed(r, g, p) && SlabOf(r, p) == s && p in g.live
    ensures Sane(r, Pushed(st, s, p), PushedShape(g, s, c, p)) && SlabsOk(r, Pushed(st, s, p), PushedShape(g, s, c, p))
  {
    var st', g' := Pushed(st, s, p), PushedShape(g, s, c, p);
    UnitRoom(r, st, g, p);
    forall t: nat | t < st'.carved ensures SlabOk(r, st', g', t) {
      assert SlabOk(r, st, g, t);
      if g.kind[t].Small? {
        forall q | q in g.free[t] && q in st.mem ensures q != p && st'.mem[q] == st.mem[q] {
          FreeUnit(r, st, g, t, q);
        }
        ChainKept(st.mem, st'.mem, st.descs[t].freeList, g.free[t]);
        assert t == s ==> g'.free[s][1..] == g.free[s];
      }
      assert HeadOk(st', g', t);
    }
  }

  lemma PushedParts(r: Region, st: Store, g: Shape, s: nat, c: nat, p: nat)
    requires Inv(r, st, g) && s < st.carved && g.kind[s] == Small(c) && st.descs[s].cls == c < |st.partial|
    ensures PartsOk(Pushed(st, s, p), PushedShape(g, s, c, p)) && RunsOk(Pushed(st, s, p), PushedShape(g, s, c, p))
  {
    var st', g' := Pushed(st, s, p), PushedShape(g, s, c, p);
    assert SlabOk(r, st, g, s);
    forall k: nat | k < |st'.partial| ensures PartOk(st', g', k) {
      assert PartOk(st, g, k);
      assert s in g.parts[k] <==> HasFree(g, k, s);
      forall t ensures t in g'.parts[k] <==> HasFree(g', k, t) {
        assert t in g.parts[k] <==> HasFree(g, k, t);
      }
      LinkedKept(st.descs, st'.descs, st.partial[k], g.parts[k]);
      if k == c && g.free[s] == [] {
        assert g'.parts[c][1..] == g.parts[c];
      }
    }
    assert s !in g.runs by {
      assert !FreeHead(g, s);
    }
    LinkedKept(st.descs, st'.descs, st.freeRuns, g.runs);
    forall h ensures h in g'.runs <==> FreeHead(g', h) {
      assert h in g.runs <==> FreeHead(g, h);
    }
  }

  // ----- A fresh small slab -----

  function Carved(st: Store, c: nat, fl: nat, count: nat, mem': map<nat, Cell>): Store
    requires st.carved < |st.descs| && c < |st.partial|
  {
    st.(carved := st.carved + 1, descs := st.descs[st.carved := Desc(-1, fl, c, count, 1)],
        partial := st.partial[c := st.carved], mem := mem')
  }

  ghost function CarvedShape(g: Shape, c: nat, blocks: seq<nat>): Shape
    requires c < |g.parts|
  {
    g.(kind := g.kind + [Small(c)], free := g.free + [blocks], parts := g.parts[c := [|g.kind|]])
  }

  lemma CarvedInv(r: Region, st: Store, g: Shape, c: nat, fl: nat, mem': map<nat, Cell>)
    requires Inv(r, st, g) && c < |r.sizes| && g.parts[c] == [] && st.carved + 1 <= r.limit
    requires var bs := r.sizes[c];
             var blocks := Blocks(SlabBase(r, st.carved), bs, SLAB / bs);
             Chain(mem', fl, blocks) && SameOutside(st.mem, mem', SlabBase(r, st.carved), SLAB)
    ensures var bs := r.sizes[c];
            var blocks := Blocks(SlabBase(r, st.carved), bs, SLAB / bs);
            Inv(r, Carved(st, c, fl, SLAB / bs, mem'), CarvedShape(g, c, blocks))
  {
    var bs := r.sizes[c];
    var lo := SlabBase(r, st.carved);
    var blocks := Blocks(lo, bs, SLAB / bs);
    var st', g' := Carved(st, c, fl, SLAB / bs, mem'), CarvedShape(g, c, blocks);
    CarvedSlabs(r, st, g, c, fl, mem');
    CarvedParts(r, st, g, c, fl, mem');
    NewBlocks(lo, bs, SLAB / bs);
    CarvedLive(r, st, g, c, fl, SLAB / bs, blocks, mem');
  }

  /** All blocks of the new slab are free, so nothing more is live. */
  lemma CarvedLive(r: Region, st: Store, g: Shape, c: nat, fl: nat, count: nat, blocks: seq<nat>, mem': map<nat, Cell>)
    requires Inv(r, st, g) && c < |r.sizes| && st.carved + 1 <= r.limit && r.sizes[c] > 0
    requires Sane(r, Carved(st, c, fl, count, mem'), CarvedShape(g, c, blocks))
    requires forall q {:trigger IsBlock(SlabBase(r, st.carved), r.sizes[c], q)} ::
             IsBlock(SlabBase(r, st.carved), r.sizes[c], q) ==> q in blocks
    ensures AllLive(r, Carved(st, c, fl, count, mem'), CarvedShape(g, c, blocks))
  {
    var st', g' := Carved(st, c, fl, count, mem'), CarvedShape(g, c, blocks);
    forall q: nat ensures LiveOk(r, st', g', q) {
      assert LiveOk(r, st, g, q);
      if q >= r.base && SlabOf(r, q) < st.carved {
        assert Unit(r, g', q) <==> Unit(r, g, q);
      } else {
        assert Unit(r, g', q) ==> q in blocks;
      }
    }
  }

  lemma CarvedSlabs(r: Region, st: Store, g: Shape, c: nat, fl: nat, mem': map<nat, Cell>)
    requires Inv(r, st, g) && c < |r.sizes| && st.carved + 1 <= r.limit
    requires var bs := r.sizes[c];
             Chain(mem', fl, Blocks(SlabBase(r, st.carved), bs, SLAB / bs)) &&
               SameOutside(st.mem, mem', SlabBase(r, st.carved), SLAB)
    ensures var bs := r.sizes[c];
            var st', g' := Carved(st, c, fl, SLAB / bs, mem'),
              CarvedShape(g, c, Blocks(SlabBase(r, st.carved), bs, SLAB / bs));
            Sane(r, st', g') && SlabsOk(r, st', g')
  {
    var bs := r.sizes[c];
    var lo := SlabBase(r, st.carved);
    var blocks := Blocks(lo, bs, SLAB / bs);
    var st', g' := Carved(st, c, fl, SLAB / bs, mem'), CarvedShape(g, c, blocks);
    NewBlocks(lo, bs, SLAB / bs);
    CarvedOld(r, st, g, c, fl, SLAB / bs, blocks, mem');
    forall t: nat | t < st'.carved ensures SlabOk(r, st', g', t) {
      if t == st.carved {
        assert st'.descs[t] == Desc(-1, fl, c, SLAB / bs, 1) && g'.free[t] == blocks && g'.kind[t] == Small(c);
      }
    }
  }

  lemma NewBlocks(lo: nat, bs: nat, n: nat)
    requires bs > 0 && n == SLAB / bs
    ensures NoDup(Blocks(lo, bs, n)) && forall q {:trigger IsBlock(lo, bs, q)} :: q in Blocks(lo, bs, n) <==>
            IsBlock(lo, bs, q)
  {
    BlocksNoDup(lo, bs, n);
    GridCountIs(0, bs, 0);
    forall q: nat ensures q in Blocks(lo, bs, n) <==> IsBlock(lo, bs, q) {
      InBlocks(lo, 0, bs, q);
    }
  }

  lemma CarvedOld(r: Region, st: Store, g: Shape, c: nat, fl: nat, count: nat, blocks: seq<nat>, mem': map<nat, Cell>)
    requires Inv(r, st, g) && c < |r.sizes| && st.carved + 1 <= r.limit
    requires SameOutside(st.mem, mem', SlabBase(r, st.carved), SLAB)
    ensures var st', g' := Carved(st, c, fl, count, mem'), CarvedShape(g, c, blocks);
            Sane(r, st', g') && forall t: nat {:trigger SlabOk(r, st', g', t)} :: t < st.carved ==>
              SlabOk(r, st', g', t)
  {
    var st', g' := Carved(st, c, fl, count, mem'), CarvedShape(g, c, blocks);
    forall t: nat | t < st.carved ensures SlabOk(r, st', g', t) {
      SlabKept(r, st, g, st', g', t);
    }
  }

  /** An address in slab `t` is outside the `n` slabs from `s` on. */
  lemma OtherSlabs(r: Region, t: nat, s: nat, n: nat, q: nat)
    requires !(s <= t < s + n) && SlabBase(r, t) <= q < SlabBase(r, t) + SLAB
    ensures q < SlabBase(r, s) || q >= SlabBase(r, s) + n * SLAB
  {
  }

  /** The slabs carved before are what they were. */
  ghost predicate SameSlabs(st: Store, g: Shape, st': Store, g': Shape) {
    && |g.kind| == |g.free| == st.carved <= |st.descs| && |g'.kind| == |g'.free| == st'.carved <= |st'.descs| &&
       st.carved <= st'.carved
    && forall s {:trigger g'.kind[s]} :: 0 <= s < st.carved ==>
         g'.kind[s] == g.kind[s] && g'.free[s] == g.free[s] && st'.descs[s] == st.descs[s]
  }

  lemma SlabKept(r: Region, st: Store, g: Shape, st': Store, g': Shape, t: nat)
    requires Inv(r, st, g) && Sane(r, st', g') && SameSlabs(st, g, st', g') && t < st.carved
    requires SameOutside(st.mem, st'.mem, SlabBase(r, st.carved), (st'.carved - st.carved) * SLAB)
    ensures SlabOk(r, st', g', t)
  {
    assert SlabOk(r, st, g, t);
    var k := g'.kind[t];
    if k.Small? {
      forall q | q in g.free[t] && q in st.mem ensures q in st'.mem && st'.mem[q] == st.mem[q] {
        SlabAligned(r, t);
        BlockInside(SlabBase(r, t), r.sizes[k.c], q);
        OtherSlabs(r, t, st.carved, st'.carved - st.carved, q);
      }
      ChainKept(st.mem, st'.mem, st.descs[t].freeList, g.free[t]);
    } else {
      var h := g'.kind[k.head];
    }
  }

  lemma CarvedParts(r: Region, st: Store, g: Shape, c: nat, fl: nat, mem': map<nat, Cell>)
    requires Inv(r, st, g) && c < |r.sizes| && g.parts[c] == [] && st.carved + 1 <= r.limit
    ensures var bs := r.sizes[c];
            var st', g' := Carved(st, c, fl, SLAB / bs, mem'),
              CarvedShape(g, c, Blocks(SlabBase(r, st.carved), bs, SLAB / bs));
            PartsOk(st', g') && RunsOk(st', g')
  {
    var bs := r.sizes[c];
    var s := st.carved;
    var blocks := Blocks(SlabBase(r, s), bs, SLAB / bs);
    var st', g' := Carved(st, c, fl, SLAB / bs, mem'), CarvedShape(g, c, blocks);
    assert SLAB / bs >= 1 by {
      NumberOf(bs, SLAB);
    }
    forall k: nat | k < |st'.partial| ensures PartOk(st', g', k) {
      assert PartOk(st, g, k);
      assert s !in g.parts[k] by {
        assert !HasFree(g, k, s);
      }
      forall t ensures t in g'.parts[k] <==> HasFree(g', k, t) {
        assert t in g.parts[k] <==> HasFree(g, k, t);
      }
      if k != c {
        LinkedKept(st.descs, st'.descs, st.partial[k], g.parts[k]);
      }
    }
    assert s !in g.runs by {
      assert !FreeHead(g, s);
    }
    LinkedKept(st.descs, st'.descs, st.freeRuns, g.runs);
    forall h ensures h in g'.runs <==> FreeHead(g', h) {
      assert h in g.runs <==> FreeHead(g, h);
    }
  }

  // ----- Runs -----

  function RunCarved(r: Region, st: Store, n: nat, total: nat): Store
    requires st.carved < |st.descs|
  {
    st.(carved := st.carved + n, descs := st.descs[st.carved := st.descs[st.carved].(cls := LARGE, nslabs := n)],
        mem := Zeroed(st.mem, SlabBase(r, st.carved), total))
  }

  ghost function RunCarvedShape(r: Region, g: Shape, n: nat, total: nat): Shape {
    var s := |g.kind|;
    g.(kind := g.kind + seq(n, _ => Live(s)), free := g.free + seq(n, _ => []), live := g.live[SlabBase(r, s) := total])
  }

  lemma RunCarvedInv(r: Region, st: Store, g: Shape, n: nat, total: nat)
    requires Inv(r, st, g) && 1 <= n && st.carved + n <= r.limit && 0 < total <= n * SLAB
    ensures Inv(r, RunCarved(r, st, n, total), RunCarvedShape(r, g, n, total))
  {
    var s := st.carved;
    var st', g' := RunCarved(r, st, n, total), RunCarvedShape(r, g, n, total);
    RunCarvedSlabs(r, st, g, n, total);
    RunCarvedLists(r, st, g, n, total);
    forall q: nat ensures LiveOk(r, st', g', q) {
      assert LiveOk(r, st, g, q);
      if q >= r.base && SlabOf(r, q) < s {
        assert Unit(r, g', q) <==> Unit(r, g, q);
      } else if q == SlabBase(r, s) {
        SlabOfAddress(r, s, q);
      }
    }
  }

  lemma RunCarvedSlabs(r: Region, st: Store, g: Shape, n: nat, total: nat)
    requires Inv(r, st, g) && 1 <= n && st.carved + n <= r.limit && 0 < total <= n * SLAB
    ensures var st', g' := RunCarved(r, st, n, total), RunCarvedShape(r, g, n, total);
            Sane(r, st', g') && SlabsOk(r, st', g')
  {
    var st', g' := RunCarved(r, st, n, total), RunCarvedShape(r, g, n, total);
    forall t: nat | t < st'.carved ensures SlabOk(r, st', g', t) {
      if t < st.carved {
        SlabKept(r, st, g, st', g', t);
      }
    }
  }

  lemma RunCarvedLists(r: Region, st: Store, g: Shape, n: nat, total: nat)
    requires Inv(r, st, g) && 1 <= n && st.carved + n <= r.limit
    ensures var st', g' := RunCarved(r, st, n, total), RunCarvedShape(r, g, n, total);
            PartsOk(st', g') && RunsOk(st', g')
  {
    var st', g' := RunCarved(r, st, n, total), RunCarvedShape(r, g, n, total);
    forall k: nat | k < |st'.partial| ensures PartOk(st', g', k) {
      assert PartOk(st, g, k);
      forall t ensures t in g'.parts[k] <==> HasFree(g', k, t) {
        assert t in g.parts[k] <==> HasFree(g, k, t);
      }
      LinkedKept(st.descs, st'.descs, st.partial[k], g.parts[k]);
    }
    LinkedKept(st.descs, st'.descs, st.freeRuns, g.runs);
    forall h ensures h in g'.runs <==> FreeHead(g', h) {
      assert h in g.runs <==> FreeHead(g, h);
    }
  }

  /** Runs other than the one that starts at `s` keep their extent. */
  ghost predicate OtherRuns(st: Store, g: Shape, st': Store, g': Shape, s: nat) {
    && |g.kind| == |g'.kind| == st.carved == st'.carved <= |st.descs| == |st'.descs| && s < st.carved &&
       g'.free == g.free
    && (forall t {:trigger g'.kind[t]} :: 0 <= t < st.carved && !(s <= t < s + st.descs[s].nslabs) ==>
          && g'.kind[t] == g.kind[t] && st'.descs[t] == st.descs[t].(next := st'.descs[t].next))
  }

  lemma OtherSlab(r: Region, st: Store, g: Shape, st': Store, g': Shape, s: nat, t: nat)
    requires Inv(r, st, g) && Sane(r, st', g') && OtherRuns(st, g, st', g', s) && !g.kind[s].Small?
    requires g.kind[s].head == s
    requires SameOutside(st.mem, st'.mem, SlabBase(r, s), st.descs[s].nslabs * SLAB)
    requires t < st.carved && !(s <= t < s + st.descs[s].nslabs)
    ensures SlabOk(r, st', g', t)
  {
    var k := g'.kind[t];
    if k.Small? {
      OtherSmall(r, st, g, st', g', s, t);
    } else {
      OtherRun(r, st, g, st', g', s, t);
    }
  }

  lemma OtherSmall(r: Region, st: Store, g: Shape, st': Store, g': Shape, s: nat, t: nat)
    requires Inv(r, st, g) && Sane(r, st', g') && OtherRuns(st, g, st', g', s)
    requires SameOutside(st.mem, st'.mem, SlabBase(r, s), st.descs[s].nslabs * SLAB)
    requires t < st.carved && !(s <= t < s + st.descs[s].nslabs) && g.kind[t].Small?
    ensures SlabOk(r, st', g', t)
  {
    assert SlabOk(r, st, g, t);
    var k := g'.kind[t];
    forall q | q in g.free[t] && q in st.mem ensures q in st'.mem && st'.mem[q] == st.mem[q] {
      SlabAligned(r, t);
      BlockInside(SlabBase(r, t), r.sizes[k.c], q);
      OtherSlabs(r, t, s, st.descs[s].nslabs, q);
    }
    ChainKept(st.mem, st'.mem, st.descs[t].freeList, g.free[t]);
  }

  lemma OtherRun(r: Region, st: Store, g: Shape, st': Store, g': Shape, s: nat, t: nat)
    requires Inv(r, st, g) && Sane(r, st', g') && OtherRuns(st, g, st', g', s) && !g.kind[s].Small?
    requires g.kind[s].head == s
    requires t < st.carved && !(s <= t < s + st.descs[s].nslabs) && !g.kind[t].Small?
    ensures SlabOk(r, st', g', t)
  {
    assert SlabOk(r, st, g, s) && SlabOk(r, st, g, t);
    var k := g'.kind[t];
    var h := k.head;
    assert SlabOk(r, st, g, h);
    var kh := g'.kind[h];
    if h == t {
      forall u | t <= u < t + st.descs[t].nslabs ensures g'.kind[u] == g'.kind[t] {
        var ku := g.kind[u];
      }
    }
  }

  function RunFreed(st: Store, s: nat): Store
    requires s < |st.descs|
  {
    st.(descs := st.descs[s := st.descs[s].(next := st.freeRuns)], freeRuns := s)
  }

  ghost function RunFreedShape(g: Shape, s: nat, n: nat, p: nat): Shape {
    g.(kind := seq(|g.kind|, t requires 0 <= t < |g.kind| => if s <= t < s + n then Free(s) else g.kind[t]),
       runs := [s] + g.runs, live := g.live - {p})
  }

  lemma RunFreedInv(r: Region, st: Store, g: Shape, s: nat, p: nat)
    requires Inv(r, st, g) && p in g.live && s < st.carved && g.kind[s] == Live(s) && p == SlabBase(r, s)
    ensures Inv(r, RunFreed(st, s), RunFreedShape(g, s, st.descs[s].nslabs, p))
  {
    var n := st.descs[s].nslabs;
    var st', g' := RunFreed(st, s), RunFreedShape(g, s, n, p);
    assert SlabOk(r, st, g, s);
    forall t: nat | t < st'.carved ensures SlabOk(r, st', g', t) {
      if !(s <= t < s + n) {
        OtherSlab(r, st, g, st', g', s, t);
      } else {
        var k := g.kind[t];
      }
    }
    RunFreedLists(r, st, g, s, p);
    forall q: nat ensures LiveOk(r, st', g', q) {
      assert LiveOk(r, st, g, q);
      if q >= r.base && SlabOf(r, q) < st.carved {
        var t := SlabOf(r, q);
        var k, k' := g.kind[t], g'.kind[t];
      }
    }
  }

  lemma RunFreedLists(r: Region, st: Store, g: Shape, s: nat, p: nat)
    requires Inv(r, st, g) && s < st.carved && g.kind[s] == Live(s)
    ensures var st', g' := RunFreed(st, s), RunFreedShape(g, s, st.descs[s].nslabs, p);
            PartsOk(st', g') && RunsOk(st', g')
  {
    var n := st.descs[s].nslabs;
    var st', g' := RunFreed(st, s), RunFreedShape(g, s, n, p);
    assert SlabOk(r, st, g, s);
    forall k: nat | k < |st'.partial| ensures PartOk(st', g', k) {
      assert PartOk(st, g, k);
      assert s !in g.parts[k] by {
        assert !HasFree(g, k, s);
      }
      forall t: nat ensures t in g'.parts[k] <==> HasFree(g', k, t) {
        assert t in g.parts[k] <==> HasFree(g, k, t);
        if t < st.carved {
          var was, now := g.kind[t], g'.kind[t];
        }
      }
      LinkedKept(st.descs, st'.descs, st.partial[k], g.parts[k]);
    }
    assert s !in g.runs by {
      assert !FreeHead(g, s);
    }
    LinkedKept(st.descs, st'.descs, st.freeRuns, g.runs);
    assert g'.runs[1..] == g.runs;
    forall h: nat ensures h in g'.runs <==> FreeHead(g', h) {
      assert h in g.runs <==> FreeHead(g, h);
      if h < st.carved {
        var was, now := g.kind[h], g'.kind[h];
      }
    }
  }

  /** `r->next` is passed on to whatever pointed at the run at position `k`. */
  function RunUnlinked(st: Store, prev: int, s: nat): Store
    requires s < |st.descs| && -1 <= prev < |st.descs|
  {
    if prev == -1 then st.(freeRuns := st.descs[s].next)
    else st.(descs := st.descs[prev := st.descs[prev].(next := st.descs[s].next)])
  }

  /** The run at `s` gives its first `n` slabs away; what is left becomes a free run of its own. */
  function RunTaken(r: Region, st: Store, prev: int, s: nat, n: nat, total: nat): Store
    requires s < |st.descs| && -1 <= prev < |st.descs| && s + n < |st.descs| + (if st.descs[s].nslabs > n then 0 else 1)
  {
    var st1 := RunUnlinked(st, prev, s);
    var more := st.descs[s].nslabs;
    var st2 := if more > n then
                 st1.(descs := st1.descs[s + n := st1.descs[s + n].(nslabs := more - n, cls := LARGE,
                   next := st1.freeRuns)], freeRuns := s + n)
               else st1;
    st2.(descs := st2.descs[s := st2.descs[s].(nslabs := n, cls := LARGE)],
      mem := Zeroed(st.mem, SlabBase(r, s), total))
  }

  ghost function RunTakenShape(r: Region, g: Shape, k: nat, more: nat, n: nat, total: nat): Shape
    requires k < |g.runs|
  {
    var s := g.runs[k];
    g.(kind := seq(|g.kind|, t requires 0 <= t < |g.kind| =>
                 if s <= t < s + n then Live(s) else if s + n <= t < s + more then Free(s + n) else g.kind[t]),
       runs := (if more > n then [s + n] else []) + (g.runs[..k] + g.runs[k + 1..]),
         live := g.live[SlabBase(r, s) := total])
  }

  ghost predicate CanTake(r: Region, st: Store, g: Shape, k: nat, n: nat, total: nat) {
    && Inv(r, st, g) && k < |g.runs| && g.runs[k] < st.carved && 1 <= n <= st.descs[g.runs[k]].nslabs &&
       0 < total <= n * SLAB
    && g.runs[k] + st.descs[g.runs[k]].nslabs <= st.carved
  }

  ghost function Prev(g: Shape, k: nat): int
    requires k < |g.runs|
  {
    if k == 0 then -1 else g.runs[k - 1]
  }

  lemma RunAt(r: Region, st: Store, g: Shape, k: nat)
    requires Inv(r, st, g) && k < |g.runs|
    ensures g.runs[k] < st.carved && g.kind[g.runs[k]] == Free(g.runs[k])
    ensures 1 <= st.descs[g.runs[k]].nslabs && g.runs[k] + st.descs[g.runs[k]].nslabs <= st.carved
  {
    assert g.runs[k] in g.runs && FreeHead(g, g.runs[k]);
    assert SlabOk(r, st, g, g.runs[k]);
  }

  /** Taking element `k` out of the free-run list. */
  lemma Unlinked(r: Region, st: Store, g: Shape, k: nat)
    requires Inv(r, st, g) && k < |g.runs|
    ensures var s, prev := g.runs[k], Prev(g, k);
            && s < |st.descs| && -1 <= prev < |st.descs|
            && Linked(RunUnlinked(st, prev, s).descs, RunUnlinked(st, prev, s).freeRuns, g.runs[..k] + g.runs[k + 1..])
  {
    RunAt(r, st, g, k);
    LinkedAt(st.descs, st.freeRuns, g.runs, k);
    if k == 0 {
      assert g.runs[..0] + g.runs[1..] == g.runs[1..];
    } else {
      RunAt(r, st, g, k - 1);
      LinkedCut(st.descs, st.freeRuns, g.runs, k);
    }
  }

  lemma WithoutAt<T>(l: seq<T>, k: nat, x: T)
    requires NoDup(l) && k < |l|
    ensures NoDup(l[..k] + l[k + 1..]) && (x in l[..k] + l[k + 1..] <==> x in l && x != l[k])
  {
    var m := l[..k] + l[k + 1..];
    forall i | 0 <= i < |m| ensures m[i] == l[if i < k then i else i + 1] {
    }
    if x in l && x != l[k] {
      var i :| 0 <= i < |l| && l[i] == x;
      assert m[if i < k then i else i - 1] == x;
    }
  }

  lemma RunTakenSlabs(r: Region, st: Store, g: Shape, k: nat, n: nat, total: nat)
    requires CanTake(r, st, g, k, n, total) && -1 <= Prev(g, k) < st.carved
    ensures var s := g.runs[k];
            var st', g' := RunTaken(r, st, Prev(g, k), s, n, total),
              RunTakenShape(r, g, k, st.descs[s].nslabs, n, total);
            Sane(r, st', g') && SlabsOk(r, st', g')
  {
    var s := g.runs[k];
    var more := st.descs[s].nslabs;
    var st', g' := RunTaken(r, st, Prev(g, k), s, n, total), RunTakenShape(r, g, k, more, n, total);
    RunAt(r, st, g, k);
    assert SlabOk(r, st, g, s);
    if k > 0 {
      RunAt(r, st, g, k - 1);
      var kp := g.kind[g.runs[k - 1]];
    }
    forall t: nat | t < st'.carved ensures SlabOk(r, st', g', t) {
      if !(s <= t < s + more) {
        OtherSlab(r, st, g, st', g', s, t);
      } else {
        TakenSlab(r, st, g, k, n, total, t);
      }
    }
  }

  lemma TakenSlab(r: Region, st: Store, g: Shape, k: nat, n: nat, total: nat, t: nat)
    requires CanTake(r, st, g, k, n, total) && -1 <= Prev(g, k) < st.carved
    requires g.runs[k] <= t < g.runs[k] + st.descs[g.runs[k]].nslabs <= st.carved
    requires var s := g.runs[k];
             Sane(r, RunTaken(r, st, Prev(g, k), s, n, total), RunTakenShape(r, g, k, st.descs[s].nslabs, n, total))
    ensures var s := g.runs[k];
            var st', g' := RunTaken(r, st, Prev(g, k), s, n, total),
              RunTakenShape(r, g, k, st.descs[s].nslabs, n, total);
            t < st'.carved && SlabOk(r, st', g', t)
  {
    var s := g.runs[k];
    RunAt(r, st, g, k);
    assert SlabOk(r, st, g, s);
    if k > 0 {
      RunAt(r, st, g, k - 1);
      var kp := g.kind[g.runs[k - 1]];
    }
    var was := g.kind[t];
  }

  lemma RunTakenMembers(r: Region, st: Store, g: Shape, k: nat, n: nat, total: nat)
    requires CanTake(r, st, g, k, n, total)
    ensures var g' := RunTakenShape(r, g, k, st.descs[g.runs[k]].nslabs, n, total);
            NoDup(g'.runs) && forall h: nat {:trigger h in g'.runs} {:trigger FreeHead(g', h)} :: h in g'.runs <==>
              FreeHead(g', h)
  {
    var s := g.runs[k];
    var more := st.descs[s].nslabs;
    var g' := RunTakenShape(r, g, k, more, n, total);
    var rest := g.runs[..k] + g.runs[k + 1..];
    RunAt(r, st, g, k);
    assert SlabOk(r, st, g, s);
    WithoutAt(g.runs, k, s + n);
    if more > n {
      var was := g.kind[s + n];
      assert !FreeHead(g, s + n);
    }
    forall h: nat ensures h in g'.runs <==> FreeHead(g', h) {
      WithoutAt(g.runs, k, h);
      assert h in g.runs <==> FreeHead(g, h);
      if h < st.carved {
        var was, now := g.kind[h], g'.kind[h];
      }
    }
  }

  lemma RunTakenLists(r: Region, st: Store, g: Shape, k: nat, n: nat, total: nat)
    requires CanTake(r, st, g, k, n, total) && -1 <= Prev(g, k) < st.carved
    ensures var s := g.runs[k];
            var st', g' := RunTaken(r, st, Prev(g, k), s, n, total),
              RunTakenShape(r, g, k, st.descs[s].nslabs, n, total);
            RunsOk(st', g')
  {
    var s := g.runs[k];
    var more := st.descs[s].nslabs;
    var st', g' := RunTaken(r, st, Prev(g, k), s, n, total), RunTakenShape(r, g, k, more, n, total);
    var rest := g.runs[..k] + g.runs[k + 1..];
    RunTakenMembers(r, st, g, k, n, total);
    Unlinked(r, st, g, k);
    if more > n {
      assert g'.runs == [s + n] + rest && g'.runs[1..] == rest;
      TailOf(g'.runs, s + n);
    } else {
      assert g'.runs == rest;
    }
    Relinked(r, st, Prev(g, k), s, n, total, rest);
  }

  lemma Relinked(r: Region, st: Store, prev: int, s: nat, n: nat, total: nat, rest: seq<nat>)
    requires s < |st.descs| && -1 <= prev < |st.descs| && s + n < |st.descs| + (if st.descs[s].nslabs > n then 0 else 1)
    requires Linked(RunUnlinked(st, prev, s).descs, RunUnlinked(st, prev, s).freeRuns, rest)
    requires st.descs[s].nslabs > n > 0 ==> s + n !in rest
    requires n > 0
    ensures var st' := RunTaken(r, st, prev, s, n, total);
            Linked(st'.descs, st'.freeRuns, (if st.descs[s].nslabs > n then [s + n] else []) + rest)
  {
    var st1, st' := RunUnlinked(st, prev, s), RunTaken(r, st, prev, s, n, total);
    LinkedKept(st1.descs, st'.descs, st1.freeRuns, rest);
    if st.descs[s].nslabs > n {
      var l := [s + n] + rest;
      assert l[1..] == rest && st'.descs[s + n].next == st1.freeRuns;
    } else {
      assert [] + rest == rest;
    }
  }

  lemma RunTakenParts(r: Region, st: Store, g: Shape, k: nat, n: nat, total: nat)
    requires CanTake(r, st, g, k, n, total) && -1 <= Prev(g, k) < st.carved
    ensures var s := g.runs[k];
            var st', g' := RunTaken(r, st, Prev(g, k), s, n, total),
              RunTakenShape(r, g, k, st.descs[s].nslabs, n, total);
            PartsOk(st', g')
  {
    var s := g.runs[k];
    var more := st.descs[s].nslabs;
    var st', g' := RunTaken(r, st, Prev(g, k), s, n, total), RunTakenShape(r, g, k, more, n, total);
    RunAt(r, st, g, k);
    assert SlabOk(r, st, g, s);
    if k > 0 {
      RunAt(r, st, g, k - 1);
    }
    forall c: nat | c < |st'.partial| ensures PartOk(st', g', c) {
      assert PartOk(st, g, c);
      forall t: nat ensures t in g'.parts[c] <==> HasFree(g', c, t) {
        assert t in g.parts[c] <==> HasFree(g, c, t);
        if t < st.carved {
          var was, now := g.kind[t], g'.kind[t];
        }
      }
      forall i | 0 <= i < |g.parts[c]|
        ensures g.parts[c][i] < |st.descs| ==> st'.descs[g.parts[c][i]].next == st.descs[g.parts[c][i]].next
      {
        var t := g.parts[c][i];
        assert t in g.parts[c] && HasFree(g, c, t);
        var was := g.kind[t];
        assert more > n ==> g.kind[s + n] == Free(s);
        assert t != s && (more > n ==> t != s + n) && t != Prev(g, k);
      }
      LinkedKept(st.descs, st'.descs, st.partial[c], g.parts[c]);
    }
  }

  lemma RunTakenInv(r: Region, st: Store, g: Shape, k: nat, n: nat, total: nat)
    requires CanTake(r, st, g, k, n, total)
    ensures -1 <= Prev(g, k) < st.carved
    ensures var s := g.runs[k];
            var st', g' := RunTaken(r, st, Prev(g, k), s, n, total),
              RunTakenShape(r, g, k, st.descs[s].nslabs, n, total);
            Inv(r, st', g')
  {
    RunAt(r, st, g, k);
    if k > 0 {
      RunAt(r, st, g, k - 1);
    }
    RunTakenSlabs(r, st, g, k, n, total);
    RunTakenLists(r, st, g, k, n, total);
    RunTakenParts(r, st, g, k, n, total);
    RunTakenLive(r, st, g, k, n, total);
  }

  lemma RunTakenLive(r: Region, st: Store, g: Shape, k: nat, n: nat, total: nat)
    requires CanTake(r, st, g, k, n, total) && -1 <= Prev(g, k) < st.carved
    requires var s := g.runs[k];
             Sane(r, RunTaken(r, st, Prev(g, k), s, n, total), RunTakenShape(r, g, k, st.descs[s].nslabs, n, total))
    ensures var s := g.runs[k];
            AllLive(r, RunTaken(r, st, Prev(g, k), s, n, total), RunTakenShape(r, g, k, st.descs[s].nslabs, n, total))
  {
    RunAt(r, st, g, k);
    if k > 0 {
      RunAt(r, st, g, k - 1);
    }
    var s := g.runs[k];
    var more := st.descs[s].nslabs;
    var st', g' := RunTaken(r, st, Prev(g, k), s, n, total), RunTakenShape(r, g, k, more, n, total);
    assert SlabOk(r, st, g, s);
    SlabOfAddress(r, s, SlabBase(r, s));
    forall q: nat ensures LiveOk(r, st', g', q) {
      assert LiveOk(r, st, g, q);
      if q >= r.base && SlabOf(r, q) < st.carved {
        var t := SlabOf(r, q);
        var was, now := g.kind[t], g'.kind[t];
      }
    }
  }

  // ----- The allocator -----

  /** size_to_class: the smallest class that holds `n` bytes, if any does. */
  method SizeToClass(sizes: seq<nat>, n: nat) returns (c: nat)
    ensures c <= |sizes| && (c < |sizes| ==> n <= sizes[c])
    ensures forall k :: 0 <= k < c ==> sizes[k] < n
  {
    c := 0;
    while c < |sizes| && sizes[c] < n
      invariant c <= |sizes| && forall k :: 0 <= k < c ==> sizes[k] < n
    {
      c := c + 1;
    }
  }

  /** The number of slabs a large request takes, as a 32-bit number. */
  function SlabsFor(total: nat): nat {
    (total + SLAB - 1) / SLAB % 0x1_0000_0000
  }

  /** The count is enough exactly when it was not truncated. */
  lemma SlabsSuffice(total: nat)
    requires total > 0
    ensures total <= SlabsFor(total) * SLAB <==> total <= 0xFFFF_FFFF * SLAB
  {
    var n := (total + SLAB - 1) / SLAB;
    assert total <= n * SLAB < total + SLAB;
  }

  /** A request of 2^48 bytes takes no slab at all. */
  lemma TruncatedCount()
    ensures var total := 0x1_0000_0000 * SLAB;
            SlabsFor(total) == 0 && !(total <= SlabsFor(total) * SLAB)
  {
  }

  /** carve's bound check for `n` slabs, in 64-bit arithmetic. */
  predicate CarvePasses(r: Region, carved: nat, n: nat) {
    (SlabBase(r, carved) + n * SLAB) % TWO64 <= r.end
  }

  /** The end of `n` more slabs does not wrap. */
  predicate CarveFits(r: Region, carved: nat, n: nat) {
    SlabBase(r, carved) + n * SLAB < TWO64
  }

  /** The check tells whether `n` slabs are left exactly when the sum does not wrap. */
  lemma CarveCheckIff(r: Region, carved: nat, n: nat)
    requires RegionOk(r) && carved <= r.limit && 0 < n <= LARGE
    ensures (CarvePasses(r, carved, n) <==> carved + n <= r.limit) <==> CarveFits(r, carved, n)
  {
    var sum := SlabBase(r, carved) + n * SLAB;
    assert sum == r.base + (carved + n) * SLAB && n * SLAB < 0x1_0000_0000_0000;
    if sum < TWO64 {
      assert sum % TWO64 == sum;
    } else {
      assert sum - TWO64 < n * SLAB;
      assert sum % TWO64 == sum - TWO64;
    }
  }

  /** Of the requests that pass, the region has room for exactly those with a whole count and a sum below 2^64. */
  lemma CarveRight(r: Region, carved: nat, total: nat)
    requires RegionOk(r) && carved <= r.limit && total > 0 && CarvePasses(r, carved, SlabsFor(total))
    ensures total <= (r.limit - carved) * SLAB <==> total <= LARGE * SLAB && CarveFits(r, carved, SlabsFor(total))
  {
    var n := SlabsFor(total);
    if total <= LARGE * SLAB {
      CountIs(total);
      CarveCheckIff(r, carved, n);
    }
  }

  lemma CountIs(total: nat)
    requires 0 < total <= LARGE * SLAB
    ensures 0 < SlabsFor(total) <= LARGE && (SlabsFor(total) - 1) * SLAB < total <= SlabsFor(total) * SLAB
  {
    var n := (total + SLAB - 1) / SLAB;
    assert total <= n * SLAB < total + SLAB;
  }

  /** In a heap of 1 GiB at the kernel's heap window a request of 2^46 bytes passes, with a count that is whole. */
  lemma WrappedCarvePasses()
    ensures var r := Region(0xffff_c000_0001_0000, 0xffff_c000_4000_0000, 16383, CLASS_SIZE);
            var total := 0x4000_0000_0000;
            && RegionOk(r) && total <= LARGE * SLAB && total == SlabsFor(total) * SLAB
            && CarvePasses(r, 0, SlabsFor(total)) && total > r.limit * SLAB
  {
    ClassesOk(0xffff_c000_0001_0000, 0xffff_c000_4000_0000, 16383);
  }

  /** heap_init's layout: the slabs start after one descriptor of 32 bytes per slab, rounded up. */
  function InitBase(start: nat, size: nat): nat {
    (start + 32 * (size / SLAB) + SLAB - 1) / SLAB * SLAB
  }

  function InitEnd(start: nat, size: nat): nat {
    (start + size) / SLAB * SLAB
  }

  /** The base wraps to 0 exactly when the region starts in the topmost slab, or its descriptors reach into it. */
  lemma BaseWrapsIff(start: nat, size: nat)
    ensures InitBase(start, size) < TWO64 <==> start + 32 * (size / SLAB) <= TWO64 - SLAB
  {
  }

  function InitLimit(start: nat, size: nat): nat {
    var end := InitEnd(start, size);
    if end < InitBase(start, size) then 0 else (end - InitBase(start, size)) / SLAB
  }

  /** The descriptors and the slabs lie apart, inside the region. */
  lemma RegionBounds(start: nat, size: nat)
    requires 0 < start
    ensures 0 < InitBase(start, size) && InitBase(start, size) % SLAB == 0
    ensures start + 32 * (size / SLAB) <= InitBase(start, size)
    ensures InitLimit(start, size) <= size / SLAB && InitEnd(start, size) <= start + size
    ensures InitBase(start, size) <= InitEnd(start, size) + SLAB
    ensures var base, end := InitBase(start, size), InitEnd(start, size);
            if end < base then InitLimit(start, size) == 0 else InitLimit(start, size) * SLAB == end - base
    ensures InitLimit(start, size) > 0 ==> InitBase(start, size) + InitLimit(start, size) * SLAB <= start + size
  {
    var maxSlabs := size / SLAB;
    var a, b := (start + 32 * maxSlabs + SLAB - 1) / SLAB, (start + size) / SLAB;
    assert a * SLAB >= start + 32 * maxSlabs && b * SLAB <= start + size;
    assert b >= a ==> (b * SLAB - a * SLAB) / SLAB == b - a;
  }

  lemma ClassesOk(base: nat, end: nat, limit: int)
    requires 0 < base < TWO64 && base % SLAB == 0 && end < TWO64 && base <= end + SLAB && 0 <= limit <= LARGE
    requires if end < base then limit == 0 else limit * SLAB == end - base
    ensures RegionOk(Region(base, end, limit, CLASS_SIZE)) && |CLASS_SIZE| == 18
  {
    forall c | 0 <= c < 18 ensures ClassOk(CLASS_SIZE[c]) {
      ClassesAre(c);
    }
  }

  lemma ClassesAre(c: nat)
    requires c < 18
    ensures |CLASS_SIZE| == 18 && ClassOk(CLASS_SIZE[c])
  {
    if c < 9 {
      assert CLASS_SIZE[..9] == [16, 32, 48, 64, 96, 128, 192, 256, 384];
      assert CLASS_SIZE[c] == CLASS_SIZE[..9][c];
    } else {
      assert CLASS_SIZE[9..] == [512, 768, 1024, 1536, 2048, 3072, 4096, 6144, 8192];
      assert CLASS_SIZE[c] == CLASS_SIZE[9..][c - 9];
    }
  }

  lemma EmptyInv(r: Region, maxSlabs: nat, mem: map<nat, Cell>)
    requires RegionOk(r) && 0 <= r.limit <= maxSlabs && |r.sizes| == 18
    requires forall a {:trigger a in mem} :: r.base <= a < r.base + r.limit * SLAB ==> a in mem
    ensures Inv(r, Store(0, seq(maxSlabs, _ => Desc(-1, 0, 0, 0, 0)), seq(18, _ => -1), -1, mem),
            Shape([], [], seq(18, _ => []), [], map[]))
  {
    var st := Store(0, seq(maxSlabs, _ => Desc(-1, 0, 0, 0, 0)), seq(18, _ => -1), -1, mem);
    var g := Shape([], [], seq(18, _ => []), [], map[]);
    forall p: nat ensures LiveOk(r, st, g, p) {
    }
  }

  const PTRDIFF_MAX: int := 0x7FFF_FFFF_FFFF_FFFF

  /** What heap_alloc refuses to look at. */
  predicate BadRequest(size: int, align: int, count: int) {
    align > 16 || size <= 0 || count < 0 || size * count > PTRDIFF_MAX
  }

  /** The bytes that a request is for. */
  function Asked(size: int, count: int): int {
    if count == 0 then 1 else size * count
  }

  /** The smallest class that holds `n` bytes. */
  predicate IsClass(c: nat, n: nat) {
    c < 18 && n <= CLASS_SIZE[c] && forall k :: 0 <= k < c ==> CLASS_SIZE[k] < n
  }

  ghost predicate NoBlock(g: Shape, c: nat) {
    forall s: nat {:trigger HasFree(g, c, s)} :: !HasFree(g, c, s)
  }

  ghost predicate NoRun(st: Store, g: Shape, n: nat) {
    forall h: nat {:trigger FreeHead(g, h)} :: FreeHead(g, h) && h < |st.descs| ==> st.descs[h].nslabs < n
  }

  /** Nothing that was given back serves a request: no block of its class is free, or no run is long enough. */
  ghost predicate Short(st: Store, g: Shape, total: nat) {
    if total <= 8192 then forall c: nat {:trigger IsClass(c, total)} :: IsClass(c, total) ==> NoBlock(g, c)
    else NoRun(st, g, SlabsFor(total))
  }

  /** And there are not enough fresh slabs. */
  ghost predicate Exhausted(r: Region, st: Store, g: Shape, total: nat) {
    Short(st, g, total) && st.carved + SlabsNeeded(total) > r.limit
  }

  /** The space that a request gets: a block of the smallest class, or whole slabs. */
  ghost predicate Fitted(room: nat, total: nat) {
    if total <= 8192 then forall c: nat {:trigger IsClass(c, total)} :: IsClass(c, total) ==> room == CLASS_SIZE[c]
    else room == SlabsFor(total) * SLAB
  }

  /** Run `k` of the list is the first with at least `n` slabs. */
  ghost predicate FirstFits(st: Store, g: Shape, n: nat, k: nat) {
    && k < |g.runs| && g.runs[k] < |st.descs| && st.descs[g.runs[k]].nslabs >= n
    && forall j :: 0 <= j < k ==> g.runs[j] < |st.descs| && st.descs[g.runs[j]].nslabs < n
  }

  /** A run that fits is free. */
  lemma FitIsFree(r: Region, st: Store, g: Shape, n: nat, k: nat)
    requires Inv(r, st, g) && FirstFits(st, g, n, k)
    ensures !NoRun(st, g, n)
  {
    RunAt(r, st, g, k);
    assert FreeHead(g, g.runs[k]);
  }

  lemma NoFit(st: Store, g: Shape, n: nat)
    requires RunsOk(st, g) && forall j :: 0 <= j < |g.runs| ==> g.runs[j] < |st.descs| && st.descs[g.runs[j]].nslabs < n
    ensures NoRun(st, g, n)
  {
    forall h: nat | FreeHead(g, h) ensures h < |st.descs| && st.descs[h].nslabs < n {
      assert h in g.runs;
    }
  }

  lemma OneFit(st: Store, g: Shape, n: nat, j: nat, k: nat)
    requires FirstFits(st, g, n, j) && FirstFits(st, g, n, k)
    ensures j == k
  {
  }

  lemma OneClass(c: nat, n: nat)
    requires IsClass(c, n)
    ensures forall d: nat {:trigger IsClass(d, n)} :: IsClass(d, n) ==> d == c
  {
    forall d: nat | IsClass(d, n) ensures d == c {
      var sizes := (CLASS_SIZE[c], CLASS_SIZE[d]);
    }
  }

  /** An empty partial list means that no block of the class is free. */
  lemma NoneFree(r: Region, st: Store, g: Shape, c: nat, n: nat)
    requires Inv(r, st, g) && r.sizes == CLASS_SIZE && IsClass(c, n) && n <= 8192
    ensures PartOk(st, g, c) && (Short(st, g, n) <==> g.parts[c] == [])
  {
    assert PartOk(st, g, c);
    OneClass(c, n);
    if g.parts[c] != [] {
      assert g.parts[c][0] in g.parts[c] && HasFree(g, c, g.parts[c][0]);
    }
  }

  /** A block of a class of size `room` is free, or a run of that size. */
  ghost predicate Vacant(st: Store, g: Shape, room: nat) {
    || (exists c: nat {:trigger NoBlock(g, c)} :: c < 18 && CLASS_SIZE[c] == room && !NoBlock(g, c))
    || (exists h: nat {:trigger FreeHead(g, h)} ::
          FreeHead(g, h) && h < |st.descs| && st.descs[h].nslabs * SLAB == room)
  }

  lemma SizesDiffer(c: nat, d: nat)
    requires c < d < 18
    ensures CLASS_SIZE[c] < CLASS_SIZE[d]
  {
    ClassesAre(c);
    ClassesAre(d);
  }

  /** Space of the size that a request gets serves it. */
  lemma VacantServes(r: Region, st: Store, g: Shape, room: nat, total: nat)
    requires Inv(r, st, g) && 0 < total <= LARGE * SLAB && Fitted(room, total) && Vacant(st, g, room)
    ensures !Short(st, g, total)
  {
    CountIs(total);
    if total <= 8192 {
      var k := SomeClass(total);
      VacantBlock(r, st, g, k);
    } else {
      VacantRun(st, g, SlabsFor(total));
    }
  }

  lemma AtMost(c: nat)
    requires c < 18
    ensures CLASS_SIZE[c] <= 8192
  {
    if c < 17 {
      SizesDiffer(c, 17);
    }
  }

  lemma SomeClass(n: nat) returns (c: nat)
    requires n <= 8192
    ensures IsClass(c, n)
  {
    c := 0;
    assert CLASS_SIZE[17] == 8192;
    while CLASS_SIZE[c] < n
      invariant c < 18 && forall k :: 0 <= k < c ==> CLASS_SIZE[k] < n
      decreases 18 - c
    {
      c := c + 1;
    }
  }

  lemma VacantBlock(r: Region, st: Store, g: Shape, k: nat)
    requires Inv(r, st, g) && k < 18 && Vacant(st, g, CLASS_SIZE[k])
    ensures !NoBlock(g, k)
  {
    AtMost(k);
    forall h: nat | FreeHead(g, h) && h < |st.descs| ensures st.descs[h].nslabs * SLAB != CLASS_SIZE[k] {
      assert SlabOk(r, st, g, h);
    }
    var c: nat :| c < 18 && CLASS_SIZE[c] == CLASS_SIZE[k] && !NoBlock(g, c);
    if c < k {
      SizesDiffer(c, k);
    } else if k < c {
      SizesDiffer(k, c);
    }
  }

  lemma VacantRun(st: Store, g: Shape, n: nat)
    requires n >= 1 && Vacant(st, g, n * SLAB)
    ensures !NoRun(st, g, n)
  {
    forall c: nat | c < 18 ensures CLASS_SIZE[c] != n * SLAB {
      AtMost(c);
    }
    var h: nat :| FreeHead(g, h) && h < |st.descs| && st.descs[h].nslabs * SLAB == n * SLAB;
  }

  /** The slab count of a request is whole, and the end of the slabs it may carve does not wrap. */
  predicate Countable(r: Region, carved: nat, size: int, count: int) {
    size > 0 && count >= 0 && size * count <= PTRDIFF_MAX ==>
      Asked(size, count) <= LARGE * SLAB && CarveFits(r, carved, SlabsNeeded(Asked(size, count)))
  }

  lemma Overflows(size: int, count: int)
    requires size > 0 && count > 0
    ensures size > PTRDIFF_MAX / count <==> size * count > PTRDIFF_MAX
  {
    var q := PTRDIFF_MAX / count;
    NumberOf(count, PTRDIFF_MAX);
    if size > q {
      MulStep(q, size, count);
    } else if size < q {
      MulStep(size, q, count);
    }
  }

  class HeapAllocator {
    const r: Region
    var st: Store
    ghost var g: Shape

    ghost predicate Valid()
      reads this
    {
      Inv(r, st, g) && r.sizes == CLASS_SIZE
    }

    /** heap_init over [start, start + size): the descriptors come first, then the slabs. */
    constructor (start: nat, size: nat, mem: map<nat, Cell>)
      requires 0 < start && start + size < TWO64 && size / SLAB <= LARGE && start + 32 * (size / SLAB) <= TWO64 - SLAB
      requires forall a {:trigger a in mem} :: start <= a < start + size ==> a in mem
      ensures Valid() && g.live == map[] && st.mem == mem && |st.descs| == size / SLAB
      ensures start + 32 * |st.descs| <= r.base && (r.limit > 0 ==> r.base + r.limit * SLAB <= start + size)
      ensures st.carved == 0 && r.base < start + 32 * |st.descs| + SLAB && start + size < r.base + (r.limit + 1) * SLAB
    {
      var maxSlabs, base := size / SLAB, InitBase(start, size) % TWO64;
      var end, limit := InitEnd(start, size), InitLimit(start, size);
      BaseWrapsIff(start, size);
      RegionBounds(start, size);
      ClassesOk(base, end, limit);
      r := Region(base, end, limit, CLASS_SIZE);
      st := Store(0, seq(maxSlabs, _ => Desc(-1, 0, 0, 0, 0)), seq(18, _ => -1), -1, mem);
      g := Shape([], [], seq(18, _ => []), [], map[]);
      EmptyInv(Region(base, end, limit, CLASS_SIZE), maxSlabs, mem);
    }

    /** A fresh slab of class `c`, all its blocks free; false is the panic of carve. */
    method NewSlab(c: nat) returns (ok: bool)
      requires Valid() && c < 18 && g.parts[c] == [] && CarveFits(r, st.carved, 1)
      modifies `st, `g
      ensures ok <==> old(st.carved) < r.limit
      ensures Valid() && (!ok ==> st == old(st) && g == old(g))
      ensures ok ==> g.parts[c] != [] && g.live == old(g.live) && Rooms(r, st, g) == old(Rooms(r, st, g))
      ensures ok ==> st.carved == old(st.carved) + 1
      ensures CellsKept(old(Rooms(r, st, g)), old(st.mem), st.mem)
    {
      LiveMapped(r, st, g);
      ok := CarvePasses(r, st.carved, 1);
      CarveCheckIff(r, st.carved, 1);
      if ok {
        var bs := r.sizes[c];
        var count := SLAB / bs;
        var lo := SlabBase(r, st.carved);
        var mem, fl := Thread(st.mem, lo, bs, count);
        CarvedInv(r, st, g, c, fl, mem);
        LiveBelow(r, st, g);
        KeptOutside(r, st, g, mem, lo, SLAB, Rooms(r, st, g));
        st := Carved(st, c, fl, count, mem);
        g := CarvedShape(g, c, Blocks(lo, bs, count));
        CarvedRooms(r, old(st), old(g), st, g);
      }
    }

    /** alloc_small. */
    method AllocSmall(n: nat) returns (ok: bool, p: nat)
      requires Valid() && 0 < n <= 8192 && CarveFits(r, st.carved, 1)
      modifies `st, `g
      ensures Valid() && CellsKept(old(Rooms(r, st, g)), old(st.mem), st.mem)
      ensures ok <==> !old(Exhausted(r, st, g, n))
      ensures ok ==> p !in old(g.live) && g.live == old(g.live)[p := n] && ZeroAt(st.mem, p, n)
      ensures ok ==> p in Rooms(r, st, g) && Fitted(Rooms(r, st, g)[p], n)
      ensures ok ==> st.carved == old(st.carved) + if old(Short(st, g, n)) then 1 else 0
      ensures !ok ==> g == old(g) && st == old(st)
    {
      p := 0;
      var c := SizeToClass(r.sizes, n);
      assert r.sizes[17] == 8192;
      OneClass(c, n);
      NoneFree(r, st, g, c, n);
      ok := true;
      LiveMapped(r, st, g);
      if st.partial[c] == -1 {
        ok := NewSlab(c);
        if !ok {
          return;
        }
      }
      assert PartOk(st, g, c);
      p := TakeBlock(c, n, old(st.mem));
      RoomOf(r, st, g, p);
    }

    method TakeBlock(c: nat, n: nat, ghost mem0: map<nat, Cell>) returns (p: nat)
      requires Valid() && c < 18 && g.parts[c] != [] && 0 < n <= r.sizes[c] && CellsKept(Rooms(r, st, g), mem0, st.mem)
      modifies `st, `g
      ensures Valid() && CellsKept(old(Rooms(r, st, g)), mem0, st.mem)
      ensures p !in old(g.live) && g.live == old(g.live)[p := n] && ZeroAt(st.mem, p, n)
      ensures st.carved == old(st.carved) && Unit(r, g, p) && Room(r, st, g, p) == r.sizes[c]
    {
      FirstFree(r, st, g, c);
      PoppedInv(r, st, g, c, n);
      var s := st.partial[c];
      p := st.descs[s].freeList;
      assert p in g.free[s] && LiveOk(r, st, g, p);
      UnitRoom(r, st, g, p);
      OthersApart(r, st, g, p);
      KeptOutside(r, st, g, Zeroed(st.mem, p, n), p, n, Rooms(r, st, g));
      KeptTrans(Rooms(r, st, g), mem0, st.mem, Zeroed(st.mem, p, n));
      st := Popped(st, s, c, n);
      g := PoppedShape(g, s, c, n);
    }

    /** alloc_large: first fit over the free runs, else fresh slabs. */
    method AllocLarge(total: nat) returns (ok: bool, p: nat)
      requires Valid() && 8192 < total <= LARGE * SLAB && CarveFits(r, st.carved, SlabsFor(total))
      modifies `st, `g
      ensures Valid() && CellsKept(old(Rooms(r, st, g)), old(st.mem), st.mem)
      ensures ok <==> !old(Exhausted(r, st, g, total))
      ensures ok ==> p !in old(g.live) && g.live == old(g.live)[p := total] && ZeroAt(st.mem, p, total)
      ensures ok ==> p in Rooms(r, st, g) && Fitted(Rooms(r, st, g)[p], total)
      ensures ok ==> st.carved == old(st.carved) + if old(Short(st, g, total)) then SlabsFor(total) else 0
      ensures ok ==> forall k: nat {:trigger old(FirstFits(st, g, SlabsFor(total), k))} ::
                old(FirstFits(st, g, SlabsFor(total), k)) ==> p == SlabBase(r, old(g.runs[k]))
      ensures !ok ==> g == old(g) && st == old(st)
    {
      var n := SlabsFor(total);
      CountIs(total);
      LiveMapped(r, st, g);
      var prev, cur;
      ghost var k;
      prev, cur, k := FindRun(n);
      if cur != -1 {
        forall j: nat | FirstFits(st, g, n, j) ensures j == k {
          OneFit(st, g, n, j, k);
        }
        p := TakeRun(prev, cur, k, n, total);
        RoomOf(r, st, g, p);
        return true, p;
      }
      ok := CarvePasses(r, st.carved, n);
      CarveCheckIff(r, st.carved, n);
      p := SlabBase(r, st.carved);
      if ok {
        CarveRun(n, total);
      }
    }

    /** The search of the free-run list: the first run of at least `n` slabs. */
    method FindRun(n: nat) returns (prev: int, cur: int, ghost k: nat)
      requires Valid()
      ensures cur == -1 <==> NoRun(st, g, n)
      ensures cur == -1 ==> forall j: nat {:trigger FirstFits(st, g, n, j)} :: !FirstFits(st, g, n, j)
      ensures cur != -1 ==> FirstFits(st, g, n, k) && cur == g.runs[k] && prev == Prev(g, k)
    {
      prev, cur, k := -1, st.freeRuns, 0;
      while cur != -1
        invariant k <= |g.runs| && Linked(st.descs, cur, g.runs[k..])
        invariant k < |g.runs| ==> prev == Prev(g, k)
        invariant forall j :: 0 <= j < k ==> g.runs[j] < |st.descs| && st.descs[g.runs[j]].nslabs < n
        decreases |g.runs| - k
      {
        LinkedAt(st.descs, st.freeRuns, g.runs, k);
        RunAt(r, st, g, k);
        if st.descs[cur].nslabs >= n {
          FitIsFree(r, st, g, n, k);
          return;
        }
        prev, cur, k := cur, st.descs[cur].next, k + 1;
      }
      NoFit(st, g, n);
    }

    /** Fresh slabs for a large request. */
    method CarveRun(n: nat, total: nat)
      requires Valid() && 1 <= n && st.carved + n <= r.limit && 0 < total <= n * SLAB
      modifies `st, `g
      ensures Valid() && CellsKept(old(Rooms(r, st, g)), old(st.mem), st.mem) && st.carved == old(st.carved) + n
      ensures var p := SlabBase(r, old(st.carved));
              && p !in old(g.live) && g.live == old(g.live)[p := total] && ZeroAt(st.mem, p, total)
              && p in Rooms(r, st, g) && Rooms(r, st, g)[p] == n * SLAB
    {
      var p := SlabBase(r, st.carved);
      RunCarvedInv(r, st, g, n, total);
      LiveBelow(r, st, g);
      LiveMapped(r, st, g);
      KeptOutside(r, st, g, Zeroed(st.mem, p, total), p, total, Rooms(r, st, g));
      g := RunCarvedShape(r, g, n, total);
      st := RunCarved(r, st, n, total);
      RoomOf(r, st, g, p);
    }

    method TakeRun(prev: int, s: nat, ghost k: nat, n: nat, total: nat) returns (p: nat)
      requires Valid() && k < |g.runs| && s == g.runs[k] && prev == Prev(g, k) && s < |st.descs|
      requires 1 <= n <= st.descs[s].nslabs && 0 < total <= n * SLAB
      modifies `st, `g
      ensures Valid() && CellsKept(old(Rooms(r, st, g)), old(st.mem), st.mem)
      ensures p !in old(g.live) && g.live == old(g.live)[p := total] && ZeroAt(st.mem, p, total)
      ensures st.carved == old(st.carved) && p == SlabBase(r, s) && Unit(r, g, p) && Room(r, st, g, p) == n * SLAB
    {
      RunAt(r, st, g, k);
      RunTakenInv(r, st, g, k, n, total);
      RunApart(r, st, g, s);
      p := SlabBase(r, s);
      KeptOutside(r, st, g, Zeroed(st.mem, p, total), p, total, Rooms(r, st, g));
      g := RunTakenShape(r, g, k, st.descs[s].nslabs, n, total);
      st := RunTaken(r, st, prev, s, n, total);
    }

    /**
      heap_alloc: a zeroed block of `size * count` bytes. False is a panic: on a bad request, or when nothing given back
      serves it and too few fresh slabs are left.
     */
    method Alloc(size: int, align: int, count: int) returns (ok: bool, p: nat)
      requires Valid() && Countable(r, st.carved, size, count)
      modifies `st, `g
      ensures Valid() && CellsKept(old(Rooms(r, st, g)), old(st.mem), st.mem)
      ensures ok <==> !BadRequest(size, align, count) && !old(Exhausted(r, st, g, Asked(size, count)))
      ensures ok ==> var total := Asked(size, count);
                     && p !in old(g.live) && g.live == old(g.live)[p := total] && ZeroAt(st.mem, p, total)
                     && p in Rooms(r, st, g) && Fitted(Rooms(r, st, g)[p], total)
                     && st.carved == old(st.carved) + if old(Short(st, g, total)) then SlabsNeeded(total) else 0
      ensures !ok ==> g == old(g) && st == old(st)
    {
      LiveMapped(r, st, g);
      if size > 0 && count > 0 {
        Overflows(size, count);
      }
      if align > 16 || size <= 0 || count < 0 || (count > 0 && size > PTRDIFF_MAX / count) {
        return false, 0;
      }
      var total := size * count;
      assert total == 0 <==> count == 0;
      if total == 0 {
        total := 1;
      }
      if total <= 8192 {
        ok, p := AllocSmall(total);
      } else {
        ok, p := AllocLarge(total);
      }
    }

    /** heap_free of NULL or of a block handed out before: its space can be had again. */
    method Release(p: nat)
      requires Valid() && (p != 0 ==> p in g.live)
      modifies `st, `g
      ensures Valid() && g.live == old(g.live) - {p} && st.carved == old(st.carved)
      ensures p != 0 ==> p in old(Rooms(r, st, g)) && Vacant(st, g, old(Rooms(r, st, g))[p])
      ensures CellsKept(old(Rooms(r, st, g)) - {p}, old(st.mem), st.mem)
    {
      if p == 0 {
        LiveMapped(r, st, g);
        assert LiveOk(r, st, g, 0);
        return;
      }
      RoomOf(r, st, g, p);
      var s := SlabOf(r, p);
      assert LiveOk(r, st, g, p) && SlabOk(r, st, g, s);
      if st.descs[s].cls == LARGE {
        ReleaseRun(p, s);
      } else {
        ReleaseBlock(p, s);
      }
    }

    method ReleaseRun(p: nat, s: nat)
      requires Valid() && p in g.live && r.base <= p && s == SlabOf(r, p) < st.carved && g.kind[s].Live?
      modifies `st, `g
      ensures Valid() && g.live == old(g.live) - {p} && st.carved == old(st.carved)
      ensures Vacant(st, g, old(st.descs[s].nslabs) * SLAB)
      ensures CellsKept(old(Rooms(r, st, g)) - {p}, old(st.mem), st.mem)
    {
      LiveMapped(r, st, g);
      assert LiveOk(r, st, g, p) && SlabOk(r, st, g, s);
      RunFreedInv(r, st, g, s, p);
      g := RunFreedShape(g, s, st.descs[s].nslabs, p);
      st := RunFreed(st, s);
      assert FreeHead(g, s);
    }

    method ReleaseBlock(p: nat, s: nat)
      requires Valid() && p in g.live && r.base <= p && s == SlabOf(r, p) < st.carved && g.kind[s].Small?
      modifies `st, `g
      ensures Valid() && g.live == old(g.live) - {p} && st.carved == old(st.carved)
      ensures old(g.kind[s].c) < 18 && Vacant(st, g, CLASS_SIZE[old(g.kind[s].c)])
      ensures CellsKept(old(Rooms(r, st, g)) - {p}, old(st.mem), st.mem)
    {
      assert LiveOk(r, st, g, p) && SlabOk(r, st, g, s);
      PushedInv(r, st, g, s, p);
      OthersApart(r, st, g, p);
      UnitRoom(r, st, g, p);
      KeptOutside(r, st, g, st.mem[p := Link(st.descs[s].freeList)], p, 1, Rooms(r, st, g) - {p});
      g := PushedShape(g, s, g.kind[s].c, p);
      st := Pushed(st, s, p);
      assert HasFree(g, g.kind[s].c, s) && !NoBlock(g, g.kind[s].c);
    }

    /** What was given back can be had again, without a fresh slab. */
    method AllocAgain(size: int, align: int, count: int) returns (ok: bool, again: bool)
      requires Valid() && Served(r, size, count)
      modifies `st, `g
      ensures Valid() && (ok ==> again && st.carved <= old(st.carved) + SlabsNeeded(Asked(size, count)))
    {
      var p;
      ghost var total := Asked(size, count);
      BumpBelowTop(r, st.carved, SlabsNeeded(total));
      ok, p := Alloc(size, align, count);
      again := false;
      if ok {
        ghost var room := Rooms(r, st, g)[p];
        RoomOf(r, st, g, p);
        Release(p);
        VacantServes(r, st, g, room, total);
        BumpBelowTop(r, st.carved, SlabsNeeded(total));
        again, p := Alloc(size, align, count);
      }
    }

    /** A caller writes a byte of a block it holds, up to its usable size: no other block changes. */
    method Write(p: nat, i: nat, byte: nat)
      requires Valid() && p in Rooms(r, st, g) && i < Rooms(r, st, g)[p]
      modifies `st
      ensures Valid() && st == old(st).(mem := old(st.mem)[p + i := Data(byte)])
      ensures Rooms(r, st, g) == old(Rooms(r, st, g)) && CellsKept(Rooms(r, st, g) - {p}, old(st.mem), st.mem)
    {
      RoomOf(r, st, g, p);
      OthersApart(r, st, g, p);
      KeptOutside(r, st, g, st.mem[p + i := Data(byte)], p + i, 1, Rooms(r, st, g) - {p});
      WrittenInv(r, st, g, p, i, byte);
      st := st.(mem := st.mem[p + i := Data(byte)]);
    }

    /** Any run of requests, releases and writes to live blocks keeps the heap in order. */
    method Run(ops: seq<Op>)
      requires Valid() && forall op :: op in ops && op.Get? ==> Served(r, op.size, op.count)
      modifies `st, `g
      ensures Valid()
    {
      var held: map<nat, int> := map[];
      for k := 0 to |ops|
        invariant Valid() && forall p :: p in held ==> p in g.live && held[p] == g.live[p]
      {
        assert ops[k] in ops;
        match ops[k] {
          case Get(size, align, count) =>
            BumpBelowTop(r, st.carved, SlabsNeeded(Asked(size, count)));
            var ok, p := Alloc(size, align, count);
            if ok {
              held := held[p := Asked(size, count)];
            }
          case Drop(p) =>
            if p in held {
              Release(p);
              held := held - {p};
            }
          case Poke(p, i, byte) =>
            if p in held {
              var n := UsableSize(p);
              if i < n {
                Write(p, i, byte);
              }
            }
        }
      }
    }

    /** heap_usable_size: at least what was asked for, and no other block is in it. */
    method UsableSize(p: nat) returns (n: nat)
      requires Valid() && p in g.live
      ensures p in Rooms(r, st, g) && n == Rooms(r, st, g)[p] && g.live[p] <= n && p + n <= SlabBase(r, st.carved)
      ensures forall q {:trigger q in g.live} :: q in g.live && q != p ==> q + g.live[q] <= p || p + n <= q
    {
      assert LiveOk(r, st, g, p);
      var s := SlabOf(r, p);
      assert SlabOk(r, st, g, s);
      UnitRoom(r, st, g, p);
      n := if st.descs[s].cls == LARGE then st.descs[s].nslabs * SLAB else r.sizes[st.descs[s].cls];
      forall q | q in g.live && q != p ensures q + g.live[q] <= p || p + n <= q {
        assert LiveOk(r, st, g, q);
        if p < q {
          RoomsApart(r, st, g, p, q);
        } else {
          RoomsApart(r, st, g, q, p);
        }
      }
    }
  }

  /** The slabs that a request for `total` bytes may carve. */
  function SlabsNeeded(total: int): nat {
    if total <= 8192 then 1 else SlabsFor(total)
  }

  function Top(r: Region): nat {
    if r.end < r.base then r.base else r.end
  }

  /** Whatever was carved before, a request has a whole slab count and no sum that wraps. */
  predicate Served(r: Region, size: int, count: int) {
    size > 0 && count >= 0 && size * count <= PTRDIFF_MAX ==>
      Asked(size, count) <= LARGE * SLAB && Top(r) + SlabsNeeded(Asked(size, count)) * SLAB < TWO64
  }

  lemma BumpBelowTop(r: Region, carved: nat, n: nat)
    requires RegionOk(r) && carved <= r.limit
    ensures Top(r) + n * SLAB < TWO64 ==> CarveFits(r, carved, n)
  {
  }

  datatype Op = Get(size: int, align: int, count: int) | Drop(p: nat) | Poke(p: nat, i: nat, byte: nat)

  lemma WrittenInv(r: Region, st: Store, g: Shape, p: nat, i: nat, byte: nat)
    requires Inv(r, st, g) && Unit(r, g, p) && p in g.live && i < Room(r, st, g, p)
    ensures Inv(r, st.(mem := st.mem[p + i := Data(byte)]), g)
  {
    var st' := st.(mem := st.mem[p + i := Data(byte)]);
    assert LiveOk(r, st, g, p);
    UnitRoom(r, st, g, p);
    forall t: nat | t < st.carved ensures SlabOk(r, st', g, t) {
      assert SlabOk(r, st, g, t);
      if g.kind[t].Small? {
        forall q | q in g.free[t] && q in st.mem ensures q in st'.mem && st'.mem[q] == st.mem[q] {
          FreeUnit(r, st, g, t, q);
          assert q != p;
          FreeOutside(r, st, g, p, t, q);
        }
        ChainKept(st.mem, st'.mem, st.descs[t].freeList, g.free[t]);
      }
      assert HeadOk(st', g, t);
    }
    forall c: nat | c < |st.partial| ensures PartOk(st', g, c) {
      assert PartOk(st, g, c);
    }
    forall q: nat ensures LiveOk(r, st', g, q) {
      assert LiveOk(r, st, g, q);
    }
  }

  /** A small slab is on the partial list of its class exactly when its free list is not empty. */
  lemma PartialIff(r: Region, st: Store, g: Shape, s: nat)
    requires Inv(r, st, g) && s < st.carved && g.kind[s].Small?
    ensures st.descs[s].cls == g.kind[s].c < |st.partial|
    ensures Linked(st.descs, st.partial[st.descs[s].cls], g.parts[st.descs[s].cls])
    ensures s in g.parts[st.descs[s].cls] <==> st.descs[s].freeList != 0
    ensures st.descs[s].freeList != 0 <==> st.descs[s].freeCount != 0
  {
    assert SlabOk(r, st, g, s);
    assert PartOk(st, g, g.kind[s].c);
    assert s in g.parts[g.kind[s].c] <==> HasFree(g, g.kind[s].c, s);
  }

  ghost predicate ZeroAt(mem: map<nat, Cell>, p: nat, n: nat) {
    forall a {:trigger mem[a]} :: p <= a < p + n ==> a in mem && mem[a] == Data(0)
  }

  lemma BlockAt(bs: nat, i: nat)
    requires bs > 0 && i < SLAB / bs
    ensures i * bs == Times(i, bs) && Times(i, bs) + bs <= SLAB
  {
    TimesIs(i, bs);
    TimesIs(SLAB / bs, bs);
    TimesStep(i, SLAB / bs, bs);
    NumberOf(bs, SLAB);
  }

  /** One more block in front of a threaded list. */
  lemma ThreadMore(mem: map<nat, Cell>, fl: nat, blk: nat, bs: nat, n: nat)
    requires Chain(mem, fl, Blocks(blk + bs, bs, n)) && bs > 0 && blk > 0
    ensures Chain(mem[blk := Link(fl)], blk, Blocks(blk, bs, n + 1))
  {
    BlocksNoDup(blk + bs, bs, n);
    var l, rest := Blocks(blk, bs, n + 1), Blocks(blk + bs, bs, n);
    assert l == [blk] + rest && l[1..] == rest;
    ChainKept(mem, mem[blk := Link(fl)], fl, rest);
  }

  /** Threads `count` blocks from `lo` on, from the last to the first. */
  method Thread(mem: map<nat, Cell>, lo: nat, bs: nat, count: nat) returns (mem': map<nat, Cell>, fl: nat)
    requires 0 < lo && 0 < bs && count == SLAB / bs
    ensures Chain(mem', fl, Blocks(lo, bs, count)) && SameOutside(mem, mem', lo, SLAB)
  {
    mem', fl := mem, 0;
    var i: nat := count;
    ghost var top := lo + Times(i, bs);
    while i > 0
      invariant i <= count && top == lo + Times(i, bs) && Chain(mem', fl, Blocks(top, bs, count - i))
      invariant SameOutside(mem, mem', lo, SLAB)
    {
      i := i - 1;
      var blk := lo + i * bs;
      BlockAt(bs, i);
      assert top == blk + bs;
      ThreadMore(mem', fl, blk, bs, count - i - 1);
      mem' := mem'[blk := Link(fl)];
      fl := blk;
      top := blk;
    }
    assert top == lo;
  }

  /** The cells of [p, p + n) are the same. */
  ghost predicate SameCells(mem: map<nat, Cell>, mem': map<nat, Cell>, p: nat, n: nat) {
    forall a {:trigger a in mem'} {:trigger mem'[a]} :: p <= a < p + n ==> a in mem && a in mem' && mem'[a] == mem[a]
  }

  /** No byte that a block of `rooms` may use is written to. */
  ghost predicate CellsKept(rooms: map<nat, nat>, mem: map<nat, Cell>, mem': map<nat, Cell>) {
    forall p {:trigger rooms[p]} :: p in rooms ==> SameCells(mem, mem', p, rooms[p])
  }

  lemma KeptTrans(rooms: map<nat, nat>, mem: map<nat, Cell>, mem1: map<nat, Cell>, mem2: map<nat, Cell>)
    requires CellsKept(rooms, mem, mem1) && CellsKept(rooms, mem1, mem2)
    ensures CellsKept(rooms, mem, mem2)
  {
    forall p | p in rooms ensures SameCells(mem, mem2, p, rooms[p]) {
      assert SameCells(mem, mem1, p, rooms[p]) && SameCells(mem1, mem2, p, rooms[p]);
      forall a | p <= a < p + rooms[p] ensures a in mem && a in mem2 && mem2[a] == mem[a] {
        assert a in mem2;
        assert a in mem1;
      }
    }
  }

  /** The rooms of live blocks are those of the invariant. */
  lemma RoomOf(r: Region, st: Store, g: Shape, q: nat)
    requires Inv(r, st, g)
    ensures q in Rooms(r, st, g) <==> q in g.live
    ensures q in g.live ==> Unit(r, g, q) && Rooms(r, st, g)[q] == Room(r, st, g, q) && g.live[q] <= Room(r, st, g, q)
    ensures q in g.live ==> r.base <= q && q + Room(r, st, g, q) <= SlabBase(r, st.carved)
  {
    assert LiveOk(r, st, g, q);
    if q in g.live {
      UnitRoom(r, st, g, q);
    }
  }

  /** A change outside the blocks of `rooms`. */
  lemma KeptOutside(r: Region, st: Store, g: Shape, mem': map<nat, Cell>, lo: nat, n: nat, rooms: map<nat, nat>)
    requires Inv(r, st, g) && SameOutside(st.mem, mem', lo, n)
    requires forall q {:trigger rooms[q]} :: q in rooms ==>
               q in Rooms(r, st, g) && rooms[q] == Rooms(r, st, g)[q] && (q + rooms[q] <= lo || lo + n <= q)
    ensures CellsKept(rooms, st.mem, mem')
  {
    forall q | q in rooms ensures SameCells(st.mem, mem', q, rooms[q]) {
      RoomOf(r, st, g, q);
      forall a | q <= a < q + rooms[q] ensures a in st.mem && a in mem' && mem'[a] == st.mem[a] {
        assert a in st.mem;
      }
    }
  }

  lemma LiveMapped(r: Region, st: Store, g: Shape)
    requires Inv(r, st, g)
    ensures CellsKept(Rooms(r, st, g), st.mem, st.mem)
  {
    KeptOutside(r, st, g, st.mem, 0, 0, Rooms(r, st, g));
  }

  /** Live blocks lie below the slabs not carved yet. */
  lemma LiveBelow(r: Region, st: Store, g: Shape)
    requires Inv(r, st, g)
    ensures var rooms := Rooms(r, st, g);
            forall p {:trigger rooms[p]} :: p in rooms ==> p + rooms[p] <= SlabBase(r, st.carved)
    ensures SlabBase(r, st.carved) !in g.live
  {
    var rooms := Rooms(r, st, g);
    forall p | p in rooms ensures p + rooms[p] <= SlabBase(r, st.carved) {
      RoomOf(r, st, g, p);
    }
    assert LiveOk(r, st, g, SlabBase(r, st.carved));
  }

  /** Live blocks lie outside the room of any other unit. */
  lemma OthersApart(r: Region, st: Store, g: Shape, p: nat)
    requires Inv(r, st, g) && Unit(r, g, p)
    ensures var rooms := Rooms(r, st, g);
            forall q {:trigger rooms[q]} :: q in rooms && q != p ==> q + rooms[q] <= p || p + Room(r, st, g, p) <= q
  {
    var rooms := Rooms(r, st, g);
    forall q | q in rooms && q != p ensures q + rooms[q] <= p || p + Room(r, st, g, p) <= q {
      RoomOf(r, st, g, q);
      if p < q {
        RoomsApart(r, st, g, p, q);
      } else {
        RoomsApart(r, st, g, q, p);
      }
    }
  }

  /** Live blocks lie outside a free run. */
  lemma RunApart(r: Region, st: Store, g: Shape, s: nat)
    requires Inv(r, st, g) && s < st.carved && g.kind[s] == Free(s)
    ensures var rooms := Rooms(r, st, g);
            forall q {:trigger rooms[q]} :: q in rooms ==>
              q + rooms[q] <= SlabBase(r, s) || SlabBase(r, s + st.descs[s].nslabs) <= q
    ensures SlabBase(r, s) !in g.live
  {
    assert SlabOk(r, st, g, s);
    var rooms := Rooms(r, st, g);
    forall q | q in rooms ensures q + rooms[q] <= SlabBase(r, s) || SlabBase(r, s + st.descs[s].nslabs) <= q {
      RoomOf(r, st, g, q);
      UnitRoom(r, st, g, q);
      var t := SlabOf(r, q);
      assert SlabOk(r, st, g, t);
      var kt := g.kind[t];
    }
    SlabOfAddress(r, s, SlabBase(r, s));
    assert LiveOk(r, st, g, SlabBase(r, s));
  }

  /** A slab carved for small blocks leaves the rooms of live blocks. */
  lemma CarvedRooms(r: Region, st: Store, g: Shape, st': Store, g': Shape)
    requires Inv(r, st, g) && Inv(r, st', g') && g'.live == g.live && st'.carved >= st.carved
    requires forall s {:trigger g'.kind[s]} :: 0 <= s < st.carved ==> g'.kind[s] == g.kind[s]
    requires forall s {:trigger st'.descs[s]} :: 0 <= s < st.carved ==> st'.descs[s].nslabs == st.descs[s].nslabs
    ensures Rooms(r, st', g') == Rooms(r, st, g)
  {
    forall q ensures q in Rooms(r, st', g') <==> q in Rooms(r, st, g) {
      RoomOf(r, st, g, q);
      RoomOf(r, st', g', q);
    }
    forall q | q in Rooms(r, st, g) ensures Rooms(r, st', g')[q] == Rooms(r, st, g)[q] {
      RoomOf(r, st, g, q);
      RoomOf(r, st', g', q);
      var t := SlabOf(r, q);
      assert g'.kind[t] == g.kind[t] && st'.descs[t].nslabs == st.descs[t].nslabs;
    }
  }
}
