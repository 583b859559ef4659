/**
  Block and inode allocation of src/ext2.c: one bitmap per group, a free count
  per group descriptor and a total in the superblock. Blocks and inodes use the
  same bookkeeping; `n` is the number of bits per group.
 */
module Ext2Alloc {
  import opened Arith

  /** `bits[g][i]` is set when item `i` of group `g` is in use. */
  datatype Pool = Pool(bits: seq<seq<bool>>, free: seq<nat>, total: int)

  function Sum(f: seq<nat>): nat {
    if f == [] then 0 else f[0] + Sum(f[1..])
  }

  ghost predicate GroupOk(p: Pool, n: nat, g: nat)
    requires g < |p.bits| == |p.free|
  {
    |p.bits[g]| == n && p.free[g] == Clear(p.bits[g])
  }

  /** Every group's free count is its clear bits, and the superblock's is their sum. */
  ghost predicate PoolOk(p: Pool, n: nat) {
    && n > 0 && |p.bits| == |p.free|
    && (forall g: nat {:trigger GroupOk(p, n, g)} :: g < |p.bits| ==> GroupOk(p, n, g))
    && p.total == Sum(p.free)
  }

  ghost predicate Bit(p: Pool, g: nat, i: nat) {
    g < |p.bits| && i < |p.bits[g]| && p.bits[g][i]
  }

  ghost predicate Taken(p: Pool, n: nat, r: nat) {
    n > 0 && Bit(p, r / n, r % n)
  }

  lemma {:induction false} SumAfterSet(f: seq<nat>, g: nat, v: nat)
    requires g < |f|
    ensures Sum(f[g := v]) + f[g] == Sum(f) + v
  {
    if g > 0 {
      SumAfterSet(f[1..], g - 1, v);
      assert f[g := v][1..] == f[1..][g - 1 := v];
    }
  }

  /** Item `i` of group `g` is marked used and both counts drop by one. */
  function Take(p: Pool, g: nat, i: nat): Pool
    requires g < |p.bits| == |p.free| && i < |p.bits[g]| && p.free[g] > 0
  {
    p.(bits := p.bits[g := p.bits[g][i := true]], free := p.free[g := p.free[g] - 1], total := p.total - 1)
  }

  function Give(p: Pool, g: nat, i: nat): Pool
    requires g < |p.bits| == |p.free| && i < |p.bits[g]|
  {
    p.(bits := p.bits[g := p.bits[g][i := false]], free := p.free[g := p.free[g] + 1], total := p.total + 1)
  }

  lemma TakeOk(p: Pool, n: nat, g: nat, i: nat)
    requires PoolOk(p, n) && g < |p.bits| && i < |p.bits[g]| && !p.bits[g][i] && p.free[g] > 0
    ensures PoolOk(Take(p, g, i), n)
  {
    var p' := Take(p, g, i);
    assert GroupOk(p, n, g);
    ClearAfterSet(p.bits[g], i);
    SumAfterSet(p.free, g, p.free[g] - 1);
    forall h: nat | h < |p'.bits| ensures GroupOk(p', n, h) {
      assert GroupOk(p, n, h);
    }
  }

  /** Freeing keeps the counts right exactly when the item was in use: nothing in the code checks it. */
  lemma GiveOk(p: Pool, n: nat, g: nat, i: nat)
    requires PoolOk(p, n) && g < |p.bits| && i < |p.bits[g]|
    ensures PoolOk(Give(p, g, i), n) <==> p.bits[g][i]
  {
    var p' := Give(p, g, i);
    assert GroupOk(p, n, g);
    ClearAfterSet(p.bits[g], i);
    SumAfterSet(p.free, g, p.free[g] + 1);
    if p.bits[g][i] {
      forall h: nat | h < |p'.bits| ensures GroupOk(p', n, h) {
        assert GroupOk(p, n, h);
      }
    } else {
      assert p.bits[g][i := false] == p.bits[g];
      assert !GroupOk(p', n, g);
    }
  }

  /** One bit changed: in the numbering of items, exactly one item did. */
  lemma OneItem(p: Pool, p': Pool, n: nat, g: nat, i: nat, r: nat)
    requires i < n && forall h: nat, j: nat :: (h, j) != (g, i) ==> (Bit(p', h, j) <==> Bit(p, h, j))
    ensures Taken(p, n, Number(n, g, i)) <==> Bit(p, g, i)
    ensures Taken(p', n, r) <==> if r == Number(n, g, i) then Bit(p', g, i) else Taken(p, n, r)
  {
    NumberParts(n, g, i);
    NumberOf(n, r);
  }

  /** The first clear bit below `n`, or -1. */
  method BitmapAlloc(bm: seq<bool>, n: nat) returns (found: int)
    requires n <= |bm|
    ensures found == -1 ==> forall i :: 0 <= i < n ==> bm[i]
    ensures found != -1 ==> 0 <= found < n && !bm[found] && forall i :: 0 <= i < found ==> bm[i]
  {
    found := -1;
    for i := 0 to n
      invariant forall j :: 0 <= j < i ==> bm[j]
    {
      if !bm[i] {
        return i;
      }
    }
  }

  ghost predicate Full(p: Pool, g: nat)
    requires g < |p.bits|
  {
    forall i :: 0 <= i < |p.bits[g]| ==> p.bits[g][i]
  }

  /** The scan over groups in alloc_block and alloc_inode: fails only when every bit is set. */
  method Allocate(p: Pool, n: nat) returns (p': Pool, r: int)
    requires PoolOk(p, n)
    ensures PoolOk(p', n) && |p'.bits| == |p.bits|
    ensures r == -1 ==> p' == p && p.total == 0 && forall g: nat :: g < |p.bits| ==> Full(p, g)
    ensures r != -1 ==> p'.total == p.total - 1
    ensures r != -1 ==> r >= 0 && !Taken(p, n, r) && forall q: nat :: Taken(p', n, q) <==> Taken(p, n, q) || q == r
    ensures r != -1 ==> forall q: nat :: q < r ==> Taken(p, n, q)
  {
    for g := 0 to |p.bits|
      invariant forall h: nat :: h < g ==> Full(p, h)
    {
      assert GroupOk(p, n, g);
      if p.free[g] == 0 {
        NoClearIsFull(p.bits[g]);
        continue;
      }
      var bit := BitmapAlloc(p.bits[g], n);
      if bit < 0 {
        continue;
      }
      TakeOk(p, n, g, bit);
      p', r := Take(p, g, bit), Number(n, g, bit);
      forall q: nat ensures Taken(p', n, q) <==> Taken(p, n, q) || q == r {
        OneItem(p, p', n, g, bit, q);
      }
      OneItem(p, p', n, g, bit, r);
      forall q: nat | q < r ensures Taken(p, n, q) {
        TakenBefore(p, n, g, bit, q);
      }
      return;
    }
    NoneLeft(p, n);
    return p, -1;
  }

  /** Every item before bit `i` of group `g` is taken when the groups before it are full and the bits before it set. */
  lemma TakenBefore(p: Pool, n: nat, g: nat, i: nat, q: nat)
    requires PoolOk(p, n) && g < |p.bits| && |p.bits[g]| == n && i < n && q < Number(n, g, i)
    requires (forall h: nat :: h < g ==> Full(p, h)) && forall j :: 0 <= j < i ==> p.bits[g][j]
    ensures Taken(p, n, q)
  {
    NumberOf(n, q);
    if q / n > g {
      MulStep(g, q / n, n);
    }
    if q / n < g {
      assert Full(p, q / n) && GroupOk(p, n, q / n);
    }
  }

  /** A pool whose groups are full has no free items. */
  lemma NoneLeft(p: Pool, n: nat)
    requires PoolOk(p, n) && forall g: nat :: g < |p.bits| ==> Full(p, g)
    ensures p.total == 0
  {
    forall g | 0 <= g < |p.free| ensures p.free[g] == 0 {
      assert GroupOk(p, n, g) && Full(p, g);
      NoneClear(p.bits[g]);
    }
    SumOfNone(p.free);
  }

  lemma {:induction false} SumOfNone(f: seq<nat>)
    requires forall g :: 0 <= g < |f| ==> f[g] == 0
    ensures Sum(f) == 0
  {
    if f != [] {
      SumOfNone(f[1..]);
    }
  }

  lemma {:induction false} NoClearIsFull(s: seq<bool>)
    requires Clear(s) == 0
    ensures forall i :: 0 <= i < |s| ==> s[i]
  {
    forall i | 0 <= i < |s| ensures s[i] {
      ClearAfterSet(s, i);
    }
  }

  /** free_block and free_inode: clears a bit and both counts follow, which is right exactly when the bit was set. */
  method Release(p: Pool, n: nat, r: nat) returns (p': Pool)
    requires PoolOk(p, n)
    ensures |p'.bits| == |p.bits| && forall q: nat :: Taken(p', n, q) <==> Taken(p, n, q) && q != r
    ensures r / n >= |p.bits| ==> p' == p
    ensures r / n < |p.bits| ==> p'.total == p.total + 1 && (PoolOk(p', n) <==> Taken(p, n, r))
  {
    if r / n >= |p.bits| {
      return p;
    }
    assert GroupOk(p, n, r / n);
    NumberOf(n, r);
    GiveOk(p, n, r / n, r % n);
    p' := Give(p, r / n, r % n);
    forall q: nat ensures Taken(p', n, q) <==> Taken(p, n, q) && q != r {
      OneItem(p, p', n, r / n, r % n, q);
    }
  }
}
