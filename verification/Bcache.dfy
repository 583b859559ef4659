/**
  The write-back block cache of src/bcache.c. Pointers between slots are slot
  numbers and `NIL` is the null pointer; the fields of `struct bcache_slot` are
  the sequences `blk`, `valid`, `dirty`, `data`, `prev`, `next` and `hnext`,
  indexed by slot. `prev`/`next` thread the LRU list, `hnext` the hash chains.

  `view` is the flat disk the cache stands for: what a reader must see for every
  block, whether it is cached, dirty, evicted or never touched.
 */
module Bcache {
  import opened Types
  import opened Arith

  const NIL: int := -1
  const READAHEAD: nat := 3
  const TWO32: nat := 0x1_0000_0000

  /** The device: the blocks it answers for, and those whose writes fail. */
  datatype Disk<T> = Disk(blocks: map<nat, T>, bad: set<nat>) {
    predicate Writable(b: nat) {
      b in blocks && b !in bad
    }
  }

  ghost predicate Distinct(q: seq<nat>) {
    forall i, j :: 0 <= i < j < |q| ==> q[i] != q[j]
  }

  ghost function At(q: seq<nat>, i: int): int {
    if 0 <= i < |q| then q[i] else NIL
  }

  ghost function Without(q: seq<nat>, k: nat): seq<nat>
    requires k < |q|
  {
    q[..k] + q[k + 1..]
  }

  lemma WithoutMembers(q: seq<nat>, k: nat)
    requires Distinct(q) && k < |q|
    ensures forall y :: y in Without(q, k) <==> y in q && y != q[k]
  {
    forall y ensures y in Without(q, k) <==> y in q && y != q[k] {
      if y in q && y != q[k] {
        var i :| 0 <= i < |q| && q[i] == y;
        assert Without(q, k)[if i < k then i else i - 1] == y;
      }
    }
  }

  // ----- The LRU list -----

  ghost predicate Linked(prev: seq<int>, next: seq<int>, q: seq<nat>, i: int) {
    && 0 <= i < |q| && q[i] < |prev| && q[i] < |next|
    && prev[q[i]] == At(q, i - 1) && next[q[i]] == At(q, i + 1)
  }

  /** `q` lists slots, most recently used first, as the links thread them. */
  ghost predicate LruOk(prev: seq<int>, next: seq<int>, head: int, tail: int, q: seq<nat>) {
    && Distinct(q)
    && (forall i {:trigger Linked(prev, next, q, i)} :: 0 <= i < |q| ==> Linked(prev, next, q, i))
    && head == At(q, 0) && tail == At(q, |q| - 1)
  }

  /** A link field after `s[x] := v`, skipped when `x` is null. */
  function Set(s: seq<int>, x: int, v: int): seq<int> {
    if 0 <= x < |s| then s[x := v] else s
  }

  /** The neighbours of the slot at `i` once the one at `k` is bypassed. */
  /** The list without `x`. */
  ghost function Removed(q: seq<nat>, x: nat): seq<nat> {
    if q == [] then [] else if q[0] == x then q[1..] else [q[0]] + Removed(q[1..], x)
  }

  /** The list after a use of `x`. */
  ghost function Fronted(q: seq<nat>, x: nat): seq<nat> {
    [x] + Removed(q, x)
  }

  /** Block `b + i`, in 32 bits. */
  function Ahead(b: nat, i: nat): nat {
    (b + i) % TWO32
  }

  lemma NonEmpty(q: seq<nat>)
    ensures q == [] || exists y :: y in q
  {
    if q != [] {
      assert q[0] in q;
    }
  }

  /** A list of all the slots is as long as there are slots. */
  lemma {:induction false} AllSlots(q: seq<nat>, n: nat)
    requires Distinct(q) && forall y: nat :: y in q <==> y < n
    ensures |q| == n
    decreases n
  {
    if n == 0 {
      NonEmpty(q);
    } else {
      assert n - 1 in q;
      var k :| 0 <= k < |q| && q[k] == n - 1;
      WithoutMembers(q, k);
      AllSlots(Without(q, k), n - 1);
    }
  }

  /** Blocks in front are not the tail's. */
  lemma NotTheTail(q: seq<nat>, where: map<nat, nat>, blk: seq<nat>, valid: seq<bool>, fetched: seq<nat>, t: nat)
    requires Distinct(q) && |fetched| < |q| && t == q[|q| - 1] && t < |blk| == |valid| && ResidentOk(blk, valid, where)
    requires forall i :: 0 <= i < |fetched| ==> fetched[i] in where && where[fetched[i]] == q[i]
    ensures valid[t] ==> blk[t] !in fetched
  {
    forall i | 0 <= i < |fetched| && valid[t] ensures fetched[i] != blk[t] {
      assert where[fetched[i]] == q[i] != t;
    }
  }

  /** A block that takes the tail's slot moves the others back by one. */
  lemma StillInFront(q: seq<nat>, q': seq<nat>, where: map<nat, nat>, where': map<nat, nat>, blk: seq<nat>,
                     valid: seq<bool>, fetched: seq<nat>, n: nat, t: nat)
    requires Distinct(q) && q != [] && t == q[|q| - 1] && q' == Fronted(q, t) && |fetched| < |q| - 1
    requires t < |blk| == |valid| && n !in where && ResidentOk(blk, valid, where)
    requires forall i :: 0 <= i < |fetched| ==> fetched[i] in where && where[fetched[i]] == q[i]
    requires where' == (if valid[t] then where - {blk[t]} else where)[n := t]
    ensures |q'| == |q|
    ensures var more := [n] + fetched;
            forall i :: 0 <= i < |more| ==> more[i] in where' && where'[more[i]] == q'[i]
  {
    WithoutIs(q, |q| - 1);
    assert q' == [t] + q[..|q| - 1];
    var more := [n] + fetched;
    forall i | 0 <= i < |more| ensures more[i] in where' && where'[more[i]] == q'[i] {
      if i > 0 {
        assert fetched[i - 1] in where && where[fetched[i - 1]] == q[i - 1] && q[i - 1] != t;
      }
    }
  }

  lemma {:induction false} WithoutIs(q: seq<nat>, k: nat)
    requires Distinct(q) && k < |q|
    ensures Without(q, k) == Removed(q, q[k])
  {
    if k > 0 {
      assert q[0] != q[k] && Distinct(q[1..]);
      WithoutIs(q[1..], k - 1);
      assert Without(q, k) == [q[0]] + Without(q[1..], k - 1);
    } else {
      assert Without(q, 0) == q[1..];
    }
  }

  lemma UnlinkedAt(prev: seq<int>, next: seq<int>, q: seq<nat>, k: nat, i: nat)
    requires Distinct(q) && k < |q| && i < |q| && i != k
    requires Linked(prev, next, q, k) && Linked(prev, next, q, i)
    ensures var p, n := prev[q[k]], next[q[k]];
            && Set(next, p, n)[q[i]] == (if i == k - 1 then At(q, k + 1) else At(q, i + 1))
            && Set(prev, n, p)[q[i]] == (if i == k + 1 then At(q, k - 1) else At(q, i - 1))
  {
    if k > 0 && i != k - 1 {
      assert q[i] != q[k - 1];
    }
    if k + 1 < |q| && i != k + 1 {
      assert q[i] != q[k + 1];
    }
  }

  lemma UnlinkOk(prev: seq<int>, next: seq<int>, head: int, tail: int, q: seq<nat>, k: nat)
    requires LruOk(prev, next, head, tail, q) && k < |q|
    ensures Linked(prev, next, q, k)
    ensures var x, p, n := q[k], prev[q[k]], next[q[k]];
            LruOk(Set(Set(prev, n, p), x, NIL), Set(Set(next, p, n), x, NIL),
                  if p == NIL then n else head, if n == NIL then p else tail, Without(q, k))
  {
    var r := Without(q, k);
    assert Linked(prev, next, q, k);
    var x, p, n := q[k], prev[q[k]], next[q[k]];
    forall i | 0 <= i < |r|
      ensures Linked(Set(Set(prev, n, p), x, NIL), Set(Set(next, p, n), x, NIL), r, i)
    {
      var o := if i < k then i else i + 1;
      assert Linked(prev, next, q, o) && q[o] != q[k];
      UnlinkedAt(prev, next, q, k, o);
    }
  }

  /** Slot `x` leaves a list of all the slots. */
  lemma Unlinked(prev: seq<int>, next: seq<int>, head: int, tail: int, q: seq<nat>, x: nat) returns (k: nat)
    requires LruOk(prev, next, head, tail, q) && x < |prev| && forall i :: 0 <= i < |prev| <==> i in q
    ensures k < |q| && q[k] == x && Linked(prev, next, q, k)
    ensures var p, n := prev[x], next[x];
            LruOk(Set(Set(prev, n, p), x, NIL), Set(Set(next, p, n), x, NIL),
                  if p == NIL then n else head, if n == NIL then p else tail, Without(q, k))
    ensures forall y :: y in Without(q, k) <==> 0 <= y < |prev| && y != x
  {
    assert x in q;
    k :| k < |q| && q[k] == x;
    UnlinkOk(prev, next, head, tail, q, k);
    WithoutMembers(q, k);
  }

  lemma PushFrontOk(prev: seq<int>, next: seq<int>, head: int, tail: int, q: seq<nat>, x: nat)
    requires LruOk(prev, next, head, tail, q) && x < |prev| && x < |next| && x !in q
    ensures LruOk(Set(prev[x := NIL], head, x), next[x := head], x, if tail == NIL then x else tail, [x] + q)
  {
    var r := [x] + q;
    var prev', next' := Set(prev[x := NIL], head, x), next[x := head];
    forall i | 0 <= i < |r| ensures Linked(prev', next', r, i) {
      if i > 0 {
        assert Linked(prev, next, q, i - 1) && r[i] == q[i - 1];
        assert i > 1 ==> q[0] != q[i - 1];
      } else if q != [] {
        assert Linked(prev, next, q, 0);
      }
    }
  }

  lemma PushBackOk(prev: seq<int>, next: seq<int>, head: int, tail: int, q: seq<nat>, x: nat)
    requires LruOk(prev, next, head, tail, q) && x < |prev| && x < |next| && x !in q
    ensures LruOk(prev[x := tail], Set(next[x := NIL], tail, x), if head == NIL then x else head, x, q + [x])
  {
    var r := q + [x];
    var prev', next' := prev[x := tail], Set(next[x := NIL], tail, x);
    forall i | 0 <= i < |r| ensures Linked(prev', next', r, i) {
      if i < |q| {
        assert Linked(prev, next, q, i) && r[i] == q[i];
        assert i < |q| - 1 ==> q[i] != q[|q| - 1];
      } else if q != [] {
        assert Linked(prev, next, q, |q| - 1);
      }
    }
  }

  // ----- The hash chains -----

  function Pow2(k: nat): (n: nat)
    ensures n > 0
  {
    if k == 0 then 1 else 2 * Pow2(k - 1)
  }

  ghost predicate IsPow2(n: nat) {
    exists k: nat :: n == Pow2(k)
  }

  /** `x & mask`, bit by bit. */
  function Masked(x: nat, mask: nat): nat {
    if mask == 0 then 0 else x % 2 * (mask % 2) + 2 * Masked(x / 2, mask / 2)
  }

  /** Selecting a bucket with a mask is taking the remainder, since there is a power of two of them. */
  lemma {:induction false} MaskIsRemainder(x: nat, n: nat, k: nat)
    requires n == Pow2(k)
    ensures Masked(x, n - 1) == BucketOf(x, n)
    decreases k
  {
    if k > 0 {
      var m := Pow2(k - 1);
      MaskIsRemainder(x / 2, m, k - 1);
      MaskStep(x, n, m);
    } else {
      assert x % 1 == 0;
    }
  }

  lemma MaskStep(x: nat, n: nat, m: nat)
    requires n == 2 * m > 0 && Masked(x / 2, m - 1) == BucketOf(x / 2, m)
    ensures Masked(x, n - 1) == BucketOf(x, n)
  {
    assert (n - 1) / 2 == m - 1 && (n - 1) % 2 == 1;
    assert Masked(x, n - 1) == x % 2 + 2 * Masked(x / 2, m - 1);
    HalfRemainder(x, x / 2, x % 2, n, m);
  }

  lemma HalfRemainder(x: nat, h: nat, b: nat, n: nat, m: nat)
    requires n == 2 * m > 0 && b < 2 && x == 2 * h + b
    ensures x % n == b + 2 * (h % m)
  {
    var q, r := Divided(h, m);
    var q', r' := Divided(x, n);
    HalfParts(h, b, m, q, r, q', r');
  }

  lemma Divided(a: nat, m: nat) returns (q: nat, r: nat)
    requires m > 0
    ensures a == q * m + r && r < m && r == a % m
  {
    q, r := a / m, a % m;
  }

  lemma HalfParts(h: nat, b: nat, m: nat, q: nat, r: nat, q': nat, r': nat)
    requires b < 2 && h == q * m + r && r < m && 2 * h + b == q' * (2 * m) + r' && r' < 2 * m
    ensures r' == b + 2 * r
  {
    assert 2 * (q * m) == q * (2 * m);
    SameParts(2 * m, q, 2 * r + b, q', r');
  }

  lemma {:induction false} Pow2Grows(j: nat, k: nat)
    requires j <= k
    ensures Pow2(j) <= Pow2(k)
  {
    if j < k {
      Pow2Grows(j, k - 1);
    }
  }

  lemma HighestPower()
    ensures Pow2(31) == TWO32 / 2
  {
    assert Pow2(8) == 0x100;
    assert Pow2(16) == 0x1_0000;
    assert Pow2(24) == 0x100_0000;
  }

  function BucketOf(blk: nat, nb: nat): (b: nat)
    requires nb > 0
    ensures b < nb
  {
    blk % nb
  }

  ghost predicate Hashed(blk: seq<nat>, hnext: seq<int>, c: seq<nat>, b: nat, nb: nat, i: int) {
    && 0 <= i < |c| && c[i] < |blk| && c[i] < |hnext| && nb > 0
    && hnext[c[i]] == At(c, i + 1) && BucketOf(blk[c[i]], nb) == b
  }

  /** `c` lists the slots of bucket `b`, in the order the `hnext` links give. */
  ghost predicate ChainOk(blk: seq<nat>, hnext: seq<int>, head: int, c: seq<nat>, b: nat, nb: nat) {
    && Distinct(c)
    && head == At(c, 0)
    && (forall i {:trigger Hashed(blk, hnext, c, b, nb, i)} :: 0 <= i < |c| ==> Hashed(blk, hnext, c, b, nb, i))
  }

  ghost predicate HashOk(blk: seq<nat>, hnext: seq<int>, buckets: seq<int>, chains: seq<seq<nat>>) {
    && |buckets| == |chains| > 0
    && forall b: nat {:trigger ChainOk(blk, hnext, buckets[b], chains[b], b, |chains|)} ::
         b < |chains| ==> ChainOk(blk, hnext, buckets[b], chains[b], b, |chains|)
  }

  ghost predicate OnChain(blk: seq<nat>, chains: seq<seq<nat>>, i: nat)
    requires i < |blk| && |chains| > 0
  {
    i in chains[BucketOf(blk[i], |chains|)]
  }

  /** The slots threaded on a chain are exactly the valid ones, and `extra`. */
  ghost predicate HashedOk(blk: seq<nat>, valid: seq<bool>, chains: seq<seq<nat>>, extra: int) {
    && |chains| > 0 && |valid| == |blk|
    && forall i: nat {:trigger OnChain(blk, chains, i)} ::
         i < |blk| ==> (OnChain(blk, chains, i) <==> valid[i] || i == extra)
  }

  lemma ChainKept(blk: seq<nat>, hnext: seq<int>, blk': seq<nat>, hnext': seq<int>,
                  head: int, c: seq<nat>, b: nat, nb: nat, x: nat, y: nat)
    requires ChainOk(blk, hnext, head, c, b, nb)
    requires x !in c && y !in c && |blk'| == |blk| && |hnext'| == |hnext|
    requires forall i :: 0 <= i < |blk| && i != x && i != y ==> blk'[i] == blk[i]
    requires forall i :: 0 <= i < |hnext| && i != x && i != y ==> hnext'[i] == hnext[i]
    ensures ChainOk(blk', hnext', head, c, b, nb)
  {
    forall i | 0 <= i < |c| ensures Hashed(blk', hnext', c, b, nb, i) {
      assert Hashed(blk, hnext, c, b, nb, i);
    }
  }

  /** A slot sits on no chain but that of its own block number. */
  lemma ChainOf(blk: seq<nat>, hnext: seq<int>, bs: seq<int>, cs: seq<seq<nat>>, x: nat, d: nat)
    requires HashOk(blk, hnext, bs, cs) && x < |blk| && d < |cs| && x in cs[d]
    ensures d == BucketOf(blk[x], |cs|)
  {
    assert ChainOk(blk, hnext, bs[d], cs[d], d, |cs|);
    var i :| 0 <= i < |cs[d]| && cs[d][i] == x;
    assert Hashed(blk, hnext, cs[d], d, |cs|, i);
  }

  /** Slot `x`, on no chain, goes to the front of its bucket. */
  lemma InsertOk(blk: seq<nat>, hnext: seq<int>, bs: seq<int>, cs: seq<seq<nat>>, x: nat)
    requires HashOk(blk, hnext, bs, cs) && x < |blk| && x < |hnext| && !OnChain(blk, cs, x)
    ensures var b := BucketOf(blk[x], |cs|);
            HashOk(blk, hnext[x := bs[b]], bs[b := x], cs[b := [x] + cs[b]])
  {
    var b := BucketOf(blk[x], |cs|);
    var h', bs', cs' := hnext[x := bs[b]], bs[b := x], cs[b := [x] + cs[b]];
    forall d: nat | d < |cs'| ensures ChainOk(blk, h', bs'[d], cs'[d], d, |cs'|) {
      assert ChainOk(blk, hnext, bs[d], cs[d], d, |cs|);
      if x in cs[d] {
        ChainOf(blk, hnext, bs, cs, x, d);
      }
      if d == b {
        forall i | 0 <= i < |cs'[d]| ensures Hashed(blk, h', cs'[d], d, |cs'|, i) {
          if i > 0 {
            assert Hashed(blk, hnext, cs[d], d, |cs|, i - 1);
          }
        }
      } else {
        ChainKept(blk, hnext, blk, h', bs[d], cs[d], d, |cs|, x, x);
      }
    }
  }

  lemma RemovedChain(blk: seq<nat>, hnext: seq<int>, h: int, c: seq<nat>, b: nat, nb: nat, k: nat)
    requires ChainOk(blk, hnext, h, c, b, nb) && k < |c|
    ensures Hashed(blk, hnext, c, b, nb, k)
    ensures var n := hnext[c[k]];
            ChainOk(blk, Set(Set(hnext, At(c, k - 1), n), c[k], NIL), if k == 0 then n else h, Without(c, k), b, nb)
  {
    var r := Without(c, k);
    assert Hashed(blk, hnext, c, b, nb, k);
    var n := hnext[c[k]];
    var h' := Set(Set(hnext, At(c, k - 1), n), c[k], NIL);
    if k > 0 {
      assert Hashed(blk, hnext, c, b, nb, k - 1);
    }
    forall i | 0 <= i < |r| ensures Hashed(blk, h', r, b, nb, i) {
      var o := if i < k then i else i + 1;
      assert r[i] == c[o] && c[o] != c[k] && Hashed(blk, hnext, c, b, nb, o);
      if o != k - 1 && k > 0 {
        assert c[o] != c[k - 1];
      }
    }
  }

  /** Slot `x`, at `k` on its chain, is bypassed. */
  lemma RemoveOk(blk: seq<nat>, hnext: seq<int>, bs: seq<int>, cs: seq<seq<nat>>, x: nat, k: nat)
    requires HashOk(blk, hnext, bs, cs) && x < |blk| && x < |hnext|
    requires var c := cs[BucketOf(blk[x], |cs|)]; k < |c| && c[k] == x
    ensures var b := BucketOf(blk[x], |cs|);
            HashOk(blk, Set(Set(hnext, At(cs[b], k - 1), hnext[x]), x, NIL),
                   if k == 0 then bs[b := hnext[x]] else bs, cs[b := Without(cs[b], k)])
  {
    var b := BucketOf(blk[x], |cs|);
    var c := cs[b];
    var h' := Set(Set(hnext, At(c, k - 1), hnext[x]), x, NIL);
    var bs', cs' := if k == 0 then bs[b := hnext[x]] else bs, cs[b := Without(c, k)];
    assert ChainOk(blk, hnext, bs[b], c, b, |cs|);
    RemovedChain(blk, hnext, bs[b], c, b, |cs|, k);
    if k > 0 {
      assert Hashed(blk, hnext, c, b, |cs|, k - 1);
    }
    var y := if k == 0 then x else c[k - 1];
    assert y in c && x in c;
    ChainOf(blk, hnext, bs, cs, y, b);
    forall d: nat | d < |cs'| ensures ChainOk(blk, h', bs'[d], cs'[d], d, |cs'|) {
      if d != b {
        assert ChainOk(blk, hnext, bs[d], cs[d], d, |cs|);
        if x in cs[d] {
          ChainOf(blk, hnext, bs, cs, x, d);
        }
        if y in cs[d] {
          ChainOf(blk, hnext, bs, cs, y, d);
        }
        ChainKept(blk, hnext, blk, h', bs[d], cs[d], d, |cs|, x, y);
      }
    }
  }

  /** Chain `b` has lost slot `x`; order and the other chains are as they were. */
  ghost predicate Unchained(cs: seq<seq<nat>>, cs': seq<seq<nat>>, b: nat, x: nat) {
    b < |cs| && exists k :: 0 <= k < |cs[b]| && cs[b][k] == x && cs' == cs[b := Without(cs[b], k)]
  }

  lemma InsertedHashed(blk: seq<nat>, valid: seq<bool>, cs: seq<seq<nat>>, x: nat)
    requires HashedOk(blk, valid, cs, NIL) && x < |blk|
    ensures var b := BucketOf(blk[x], |cs|); HashedOk(blk, valid, cs[b := [x] + cs[b]], x)
  {
    var b := BucketOf(blk[x], |cs|);
    var cs' := cs[b := [x] + cs[b]];
    forall i: nat | i < |blk| ensures OnChain(blk, cs', i) <==> valid[i] || i == x {
      assert OnChain(blk, cs, i) <==> valid[i];
    }
  }

  /** Slot `x` leaves its chain and is no longer valid. */
  lemma RemovedHashed(blk: seq<nat>, hnext: seq<int>, bs: seq<int>, valid: seq<bool>, cs: seq<seq<nat>>,
                      extra: int, x: nat, k: nat)
    requires HashOk(blk, hnext, bs, cs) && HashedOk(blk, valid, cs, extra) && x < |blk|
    requires extra == x || extra == NIL
    requires var c := cs[BucketOf(blk[x], |cs|)]; k < |c| && c[k] == x
    ensures var b := BucketOf(blk[x], |cs|); HashedOk(blk, valid[x := false], cs[b := Without(cs[b], k)], NIL)
  {
    var b := BucketOf(blk[x], |cs|);
    var cs', valid' := cs[b := Without(cs[b], k)], valid[x := false];
    assert ChainOk(blk, hnext, bs[b], cs[b], b, |cs|);
    WithoutMembers(cs[b], k);
    forall i: nat | i < |blk| ensures OnChain(blk, cs', i) <==> valid'[i] {
      assert OnChain(blk, cs, i) <==> valid[i] || i == extra;
    }
  }

  lemma InstalledHash(blk: seq<nat>, valid: seq<bool>, cs: seq<seq<nat>>, x: nat)
    requires HashedOk(blk, valid, cs, x) && x < |blk|
    ensures HashedOk(blk, valid[x := true], cs, NIL)
  {
    var valid' := valid[x := true];
    forall i: nat | i < |blk| ensures OnChain(blk, cs, i) <==> valid'[i] {
      assert OnChain(blk, cs, i) <==> valid[i] || i == x;
    }
  }

  /** A slot on no chain may take another block number. */
  lemma RenamedHash(blk: seq<nat>, hnext: seq<int>, bs: seq<int>, valid: seq<bool>, cs: seq<seq<nat>>, x: nat, b: nat)
    requires HashOk(blk, hnext, bs, cs) && HashedOk(blk, valid, cs, NIL) && x < |blk| && !valid[x]
    ensures HashOk(blk[x := b], hnext, bs, cs) && HashedOk(blk[x := b], valid, cs, NIL)
  {
    var blk' := blk[x := b];
    assert !OnChain(blk, cs, x);
    forall d: nat | d < |cs| ensures ChainOk(blk', hnext, bs[d], cs[d], d, |cs|) && x !in cs[d] {
      assert ChainOk(blk, hnext, bs[d], cs[d], d, |cs|);
      if x in cs[d] {
        ChainOf(blk, hnext, bs, cs, x, d);
      }
      ChainKept(blk, hnext, blk', hnext, bs[d], cs[d], d, |cs|, x, x);
    }
    forall i: nat | i < |blk'| ensures OnChain(blk', cs, i) <==> valid[i] {
      if i != x {
        assert OnChain(blk, cs, i) <==> valid[i];
      }
    }
  }

  // ----- What is resident, and what a reader sees -----

  /** `where` names, for each resident block, the one slot that holds it. */
  ghost predicate ResidentOk(blk: seq<nat>, valid: seq<bool>, where: map<nat, nat>) {
    && |blk| == |valid|
    && (forall i :: 0 <= i < |blk| && valid[i] ==> blk[i] in where && where[blk[i]] == i)
    && (forall b :: b in where ==> where[b] < |blk| && valid[where[b]] && blk[where[b]] == b)
  }

  ghost predicate ViewOk<T>(dirty: seq<bool>, data: seq<T>, disk: Disk<T>, where: map<nat, nat>, view: map<nat, T>) {
    && |dirty| == |data|
    && (forall b :: b in where ==> where[b] < |data| && b in view && view[b] == data[where[b]])
    && (forall b :: b in disk.blocks && b !in where ==> b in view && view[b] == disk.blocks[b])
    && (forall b :: b in view ==> b in disk.blocks || b in where)
    && (forall b :: b in where && !dirty[where[b]] ==> b in disk.blocks && disk.blocks[b] == data[where[b]])
  }

  /** The view once a block leaves the cache: the device's own copy shows through. */
  ghost function Uncovered<T>(view: map<nat, T>, b: nat, disk: Disk<T>): map<nat, T> {
    if b in disk.blocks then view[b := disk.blocks[b]] else view - {b}
  }

  /** The views agree on every block the device accepts writes for. */
  ghost predicate WritableKept<T>(view: map<nat, T>, view': map<nat, T>, disk: Disk<T>) {
    forall b {:trigger disk.Writable(b)} :: disk.Writable(b) ==>
      (b in view <==> b in view') && (b in view ==> view'[b] == view[b])
  }

  /** Devices that answer for the same blocks and refuse the same writes. */
  ghost predicate SameDevice<T>(disk: Disk<T>, disk': Disk<T>) {
    disk'.bad == disk.bad && disk'.blocks.Keys == disk.blocks.Keys
  }

  lemma WritableTrans<T>(v0: map<nat, T>, v1: map<nat, T>, v2: map<nat, T>, d1: Disk<T>, d2: Disk<T>)
    requires WritableKept(v0, v1, d1) && WritableKept(v1, v2, d2) && SameDevice(d1, d2)
    ensures WritableKept(v0, v2, d2)
  {
    forall b | d2.Writable(b) ensures (b in v0 <==> b in v2) && (b in v0 ==> v2[b] == v0[b]) {
      assert d1.Writable(b);
    }
  }

  lemma ViewKept<T>(view: map<nat, T>, b: nat, disk: Disk<T>)
    ensures b in view ==> (Uncovered(view, b, disk) == view <==> b in disk.blocks && disk.blocks[b] == view[b])
  {
  }

  lemma FlushedView<T>(blk: seq<nat>, valid: seq<bool>, dirty: seq<bool>, data: seq<T>, disk: Disk<T>,
                       where: map<nat, nat>, view: map<nat, T>, x: nat)
    requires ResidentOk(blk, valid, where) && ViewOk(dirty, data, disk, where, view)
    requires x < |valid| && valid[x] && |data| == |valid|
    ensures ViewOk(dirty[x := false], data, disk.(blocks := disk.blocks[blk[x] := data[x]]), where, view)
  {
  }

  lemma EvictedView<T>(blk: seq<nat>, valid: seq<bool>, dirty: seq<bool>, data: seq<T>, disk: Disk<T>,
                       where: map<nat, nat>, view: map<nat, T>, x: nat)
    requires ResidentOk(blk, valid, where) && ViewOk(dirty, data, disk, where, view)
    requires x < |valid| && valid[x] && |data| == |valid|
    ensures ResidentOk(blk, valid[x := false], where - {blk[x]})
    ensures ViewOk(dirty[x := false], data, disk, where - {blk[x]}, Uncovered(view, blk[x], disk))
    ensures !dirty[x] ==> Uncovered(view, blk[x], disk) == view
  {
  }

  /** Slot `x`, holding nothing, comes to hold its data for its block. */
  lemma PublishedView<T>(blk: seq<nat>, valid: seq<bool>, dirty: seq<bool>, data: seq<T>, disk: Disk<T>,
                         where: map<nat, nat>, view: map<nat, T>, x: nat)
    requires ResidentOk(blk, valid, where) && ViewOk(dirty, data, disk, where, view)
    requires x < |valid| && !valid[x] && |data| == |valid| && blk[x] !in where
    requires dirty[x] || (blk[x] in disk.blocks && disk.blocks[blk[x]] == data[x])
    ensures ResidentOk(blk, valid[x := true], where[blk[x] := x])
    ensures ViewOk(dirty, data, disk, where[blk[x] := x], view[blk[x] := data[x]])
  {
  }

  /** Blocks `b .. b + n` of a flat disk, or nothing when one is missing. */
  function Range<T>(view: map<nat, T>, b: nat, n: nat): Option<seq<T>> {
    if n == 0 then Some([])
    else
      var r := Range(view, b, n - 1);
      if r.Some? && b + n - 1 in view then Some(r.value + [view[b + n - 1]]) else None
  }

  lemma {:induction false} RangeAgrees<T>(u: map<nat, T>, v: map<nat, T>, b: nat, n: nat)
    requires forall i :: b <= i < b + n ==> (i in u <==> i in v) && (i in u ==> u[i] == v[i])
    ensures Range(u, b, n) == Range(v, b, n)
  {
    if n > 0 {
      RangeAgrees(u, v, b, n - 1);
    }
  }

  lemma {:induction false} RangeMisses<T>(v: map<nat, T>, b: nat, i: nat, n: nat)
    requires i < n && b + i !in v
    ensures Range(v, b, n).None?
  {
    if i < n - 1 {
      RangeMisses(v, b, i, n - 1);
    }
  }

  /** The smallest power of two that is no less than the number of slots, by doubling in 32 bits. */
  method BucketCount(nslots: nat) returns (nb: nat)
    requires 0 < nslots <= TWO32 / 2
    ensures IsPow2(nb) && nslots <= nb && (nb > 1 ==> nb / 2 < nslots)
  {
    nb := 1;
    ghost var k, top := 0, 31;
    HighestPower();
    while nb < nslots
      invariant nb == Pow2(k) && k <= top && (nb > 1 ==> nb / 2 < nslots)
    {
      Pow2Grows(k + 1, top);
      nb, k := nb * 2 % TWO32, k + 1;
    }
  }

  class Cache<T> {
    var blk: seq<nat>
    var valid: seq<bool>
    var dirty: seq<bool>
    var data: seq<T>
    var prev: seq<int>
    var next: seq<int>
    var hnext: seq<int>
    var buckets: seq<int>
    var lruHead: int
    var lruTail: int
    const nslots: nat
    const nbuckets: nat
    const total: nat
    var writebacks: nat
    var disk: Disk<T>

    ghost var lru: seq<nat>
    ghost var chains: seq<seq<nat>>
    ghost var where: map<nat, nat>
    ghost var view: map<nat, T>

    ghost predicate Shape()
      reads this
    {
      && 0 < nslots == |blk| == |valid| == |dirty| == |data| == |prev| == |next| == |hnext|
      && |buckets| == nbuckets && IsPow2(nbuckets)
    }

    /** The LRU list is a permutation of the slots. */
    ghost predicate Lru()
      reads `prev, `next, `lruHead, `lruTail, `lru
    {
      LruOk(prev, next, lruHead, lruTail, lru) && forall i :: 0 <= i < |prev| <==> i in lru
    }

    /** The chains hold exactly the valid slots, and `extra`. */
    ghost predicate Hash(extra: int)
      reads `blk, `valid, `hnext, `buckets, `chains
    {
      HashOk(blk, hnext, buckets, chains) && HashedOk(blk, valid, chains, extra)
    }

    ghost predicate Contents()
      reads `blk, `valid, `dirty, `data, `disk, `where, `view
    {
      ResidentOk(blk, valid, where) && ViewOk(dirty, data, disk, where, view)
    }

    ghost predicate Valid()
      reads this
    {
      Shape() && Lru() && Hash(NIL) && Contents()
    }

    /** Every block a reader can see is one the device accepts writes for. */
    ghost predicate Safe()
      reads this
    {
      forall b :: b in view ==> disk.Writable(b)
    }

    /** Evicting slot `x` drops a write: it is dirty and the device refuses it. */
    ghost predicate Loses(x: int)
      reads this
    {
      Shape() && 0 <= x < |blk| && valid[x] && dirty[x] && !disk.Writable(blk[x])
    }

    /** Slot `j` holds data the device does not. */
    ghost predicate Unwritten(j: int)
      reads this
    {
      Shape() && 0 <= j < |blk| && valid[j] && dirty[j]
    }

    constructor (nslots: nat, zero: T, device: Disk<T>, size: nat)
      requires 0 < nslots <= TWO32 / 2
      ensures Valid() && view == device.blocks && disk == device && where == map[] && this.nslots == nslots
      ensures forall j :: !Unwritten(j)
    {
      blk, valid, dirty := seq(nslots, _ => 0), seq(nslots, _ => false), seq(nslots, _ => false);
      data, prev, next, hnext := seq(nslots, _ => zero), seq(nslots, _ => NIL), seq(nslots, _ => NIL),
        seq(nslots, _ => NIL);
      lruHead, lruTail, writebacks, disk := NIL, NIL, 0, device;
      this.nslots, total := nslots, size;
      lru, where, view := [], map[], device.blocks;
      var nb := BucketCount(nslots);
      nbuckets := nb;
      buckets := seq(nb, _ => NIL);
      chains := seq(nb, _ => []);
      new;
      Seed();
    }

    /** Every slot goes on the LRU list. */
    method Seed()
      requires Shape() && lru == [] && lruHead == lruTail == NIL
      modifies `prev, `next, `lruHead, `lruTail, `lru
      ensures Shape() && Lru()
    {
      for i := 0 to nslots
        invariant Shape() && LruOk(prev, next, lruHead, lruTail, lru)
        invariant forall y :: y in lru <==> 0 <= y < i
      {
        LruPushFront(i);
      }
    }

    method LruUnlink(x: nat)
      requires Shape() && Lru() && x < |prev|
      modifies `prev, `next, `lruHead, `lruTail, `lru
      ensures Shape() && LruOk(prev, next, lruHead, lruTail, lru)
      ensures forall y :: y in lru <==> 0 <= y < |prev| && y != x
      ensures exists k :: 0 <= k < |old(lru)| && old(lru)[k] == x && lru == Without(old(lru), k)
    {
      ghost var k := Unlinked(prev, next, lruHead, lruTail, lru, x);
      var p, n := prev[x], next[x];
      lruHead, lruTail := if p == NIL then n else lruHead, if n == NIL then p else lruTail;
      next, prev := Set(next, p, n), Set(prev, n, p);
      next, prev := Set(next, x, NIL), Set(prev, x, NIL);
      lru := Without(lru, k);
    }

    method LruPushFront(x: nat)
      requires Shape() && LruOk(prev, next, lruHead, lruTail, lru) && x < |prev| && x !in lru
      modifies `prev, `next, `lruHead, `lruTail, `lru
      ensures Shape() && LruOk(prev, next, lruHead, lruTail, lru)
      ensures lru == [x] + old(lru) && lruHead == x
    {
      PushFrontOk(prev, next, lruHead, lruTail, lru, x);
      prev := prev[x := NIL];
      next := next[x := lruHead];
      if lruHead != NIL {
        prev := Set(prev, lruHead, x);
      }
      lruHead := x;
      if lruTail == NIL {
        lruTail := x;
      }
      lru := [x] + lru;
    }

    method LruPushBack(x: nat)
      requires Shape() && LruOk(prev, next, lruHead, lruTail, lru) && x < |prev|
      requires forall y :: y in lru <==> 0 <= y < |prev| && y != x
      modifies `prev, `next, `lruHead, `lruTail, `lru
      ensures Shape() && Lru() && lruTail == x
    {
      PushBackOk(prev, next, lruHead, lruTail, lru, x);
      next := next[x := NIL];
      prev := prev[x := lruTail];
      if lruTail != NIL {
        next := Set(next, lruTail, x);
      }
      lruTail := x;
      if lruHead == NIL {
        lruHead := x;
      }
      lru := lru + [x];
    }

    method LruTouch(x: nat)
      requires Shape() && Lru() && x < |prev|
      modifies `prev, `next, `lruHead, `lruTail, `lru
      ensures Shape() && Lru() && lruHead == x && lru == Fronted(old(lru), x)
    {
      if lruHead == x {
        return;
      }
      LruUnlink(x);
      ghost var k :| 0 <= k < |old(lru)| && old(lru)[k] == x && lru == Without(old(lru), k);
      WithoutIs(old(lru), k);
      LruPushFront(x);
    }

    method HashInsert(x: nat)
      requires Shape() && Hash(NIL) && x < |blk| && !valid[x]
      modifies `hnext, `buckets, `chains
      ensures Shape() && Hash(x)
    {
      assert !OnChain(blk, chains, x);
      InsertOk(blk, hnext, buckets, chains, x);
      InsertedHashed(blk, valid, chains, x);
      var b := BucketOf(blk[x], |buckets|);
      hnext := hnext[x := buckets[b]];
      buckets := buckets[b := x];
      chains := chains[b := [x] + chains[b]];
    }

    /** Walks the chain of `x` to the slot whose `hnext` is `x`, or null when `x` is first. */
    method HashBefore(x: nat, ghost k: nat) returns (p: int)
      requires Shape() && HashOk(blk, hnext, buckets, chains) && x < |blk|
      requires var c := chains[BucketOf(blk[x], |chains|)]; k < |c| && c[k] == x
      ensures p == At(chains[BucketOf(blk[x], |chains|)], k - 1)
    {
      var b := BucketOf(blk[x], |buckets|);
      ghost var c := chains[b];
      assert ChainOk(blk, hnext, buckets[b], c, b, |chains|);
      var cur := buckets[b];
      p := NIL;
      ghost var i := 0;
      while cur != NIL && cur != x
        invariant 0 <= i <= k && cur == c[i] && p == At(c, i - 1)
        decreases k - i
      {
        assert Hashed(blk, hnext, c, b, |chains|, i);
        p := cur;
        cur := hnext[cur];
        i := i + 1;
      }
    }

    /** Takes slot `x` off its chain; the slot is marked invalid in the same step. */
    method HashRemove(x: nat, ghost extra: int)
      requires Shape() && Hash(extra) && x < |blk| && (if valid[x] then extra == NIL else extra == x)
      modifies `hnext, `buckets, `chains, `valid
      ensures Shape() && Hash(NIL) && valid == old(valid)[x := false]
      ensures Unchained(old(chains), chains, BucketOf(blk[x], |old(chains)|), x)
    {
      assert OnChain(blk, chains, x);
      var b := BucketOf(blk[x], |buckets|);
      ghost var k :| 0 <= k < |chains[b]| && chains[b][k] == x;
      RemoveOk(blk, hnext, buckets, chains, x, k);
      RemovedHashed(blk, hnext, buckets, valid, chains, extra, x, k);
      var p := HashBefore(x, k);
      var n := hnext[x];
      if p == NIL {
        buckets := buckets[b := n];
      } else {
        hnext := Set(hnext, p, n);
      }
      hnext := hnext[x := NIL];
      valid := valid[x := false];
      chains := chains[b := Without(chains[b], k)];
    }

    method Lookup(b: nat) returns (x: int)
      requires Valid()
      ensures x == (if b in where then where[b] else NIL)
    {
      var h := BucketOf(b, |buckets|);
      ghost var c := chains[h];
      assert ChainOk(blk, hnext, buckets[h], c, h, |chains|);
      x := buckets[h];
      ghost var i := 0;
      while x != NIL
        invariant 0 <= i <= |c| && x == At(c, i)
        invariant forall j :: 0 <= j < i ==> c[j] < |blk| && !(valid[c[j]] && blk[c[j]] == b)
        decreases |c| - i
      {
        assert Hashed(blk, hnext, c, h, |chains|, i);
        if valid[x] && blk[x] == b {
          return;
        }
        x := hnext[x];
        i := i + 1;
      }
      assert b in where ==> OnChain(blk, chains, where[b]);
    }

    /** Writes a dirty slot back; on success it is clean. */
    method Flush(x: nat) returns (ok: bool)
      requires Valid() && x < |blk|
      modifies `dirty, `disk, `writebacks
      ensures Valid() && ok == !old(Loses(x))
      ensures dirty == (if old(valid[x]) && ok then old(dirty)[x := false] else old(dirty))
      ensures SameDevice(old(disk), disk)
      ensures !(valid[x] && old(dirty[x])) ==> disk == old(disk) && writebacks == old(writebacks)
      ensures !ok ==> disk == old(disk)
    {
      if !valid[x] || !dirty[x] {
        return true;
      }
      if !disk.Writable(blk[x]) {
        return false;
      }
      FlushedView(blk, valid, dirty, data, disk, where, view, x);
      disk := disk.(blocks := disk.blocks[blk[x] := data[x]]);
      dirty := dirty[x := false];
      writebacks := writebacks + 1;
      ok := true;
    }

    /** Empties slot `x`: whatever the device holds shows through. */
    method Drop(x: nat)
      requires Valid() && x < |blk| && valid[x]
      modifies `hnext, `buckets, `chains, `valid, `dirty, `where, `view
      ensures Valid() && !valid[x]
      ensures where == old(where) - {blk[x]}
      ensures view == Uncovered(old(view), blk[x], disk)
      ensures !old(dirty[x]) ==> view == old(view)
    {
      EvictedView(blk, valid, dirty, data, disk, where, view, x);
      HashRemove(x, NIL);
      dirty, where, view := dirty[x := false], where - {blk[x]}, Uncovered(view, blk[x], disk);
    }

    /** Writes slot `x` back, best effort, and empties it. */
    method Evict(x: nat)
      requires Valid() && x < |blk|
      modifies `hnext, `buckets, `chains, `valid, `dirty, `disk, `writebacks, `where, `view
      ensures Valid() && !valid[x]
      ensures where == if old(valid[x]) then old(where) - {blk[x]} else old(where)
      ensures view == if old(Loses(x)) then Uncovered(old(view), blk[x], old(disk)) else old(view)
      ensures SameDevice(old(disk), disk)
      ensures !(old(valid[x]) && old(dirty[x])) ==> disk == old(disk) && writebacks == old(writebacks)
    {
      if valid[x] {
        var ok := Flush(x);
        Drop(x);
      }
    }

    /** The victim's data is nowhere but in its slot, and the device refuses it. */
    ghost predicate Drops(x: int)
      reads this
    {
      Loses(x) && !(blk[x] in disk.blocks && disk.blocks[blk[x]] == data[x])
    }

    /** A slot was claimed: hashed under its new block, not yet valid. */
    ghost predicate Claimed(x: int, b: nat)
      reads this
    {
      && Shape() && Lru() && Hash(x) && Contents()
      && 0 <= x < |blk| && !valid[x] && blk[x] == b && b !in where
    }

    /** The slot used least recently. */
    ghost function Victim(): nat
      reads this
    {
      if lru == [] then 0 else lru[|lru| - 1]
    }

    /** The resident blocks once the LRU tail has been reused. */
    ghost function TailGone(): map<nat, nat>
      reads this
    {
      if Shape() && 0 <= lruTail < |blk| && valid[lruTail] then where - {blk[lruTail]} else where
    }

    /** What a reader sees once the LRU tail has been reused. */
    ghost function TailEvicted(): map<nat, T>
      reads this
    {
      if Loses(lruTail) then Uncovered(view, blk[lruTail], disk) else view
    }

    /**
      Reusing the tail keeps the view exactly when the victim is clean, or its
      write-back succeeds, or the device already holds its value.
     */
    lemma EvictionKeepsView()
      requires Valid()
      ensures TailEvicted() == view <==> !Drops(lruTail)
      ensures Safe() ==> TailEvicted() == view
    {
      if Loses(lruTail) {
        ViewKept(view, blk[lruTail], disk);
      }
    }

    /** Reuses the LRU tail for block `b`. */
    method Claim(b: nat) returns (x: nat)
      requires Valid() && b !in where
      modifies this
      ensures Claimed(x, b) && lruHead == x && view == old(TailEvicted())
      ensures x == old(lruTail) == old(Victim()) && lru == Fronted(old(lru), x) && where == old(TailGone())
      ensures (b in view <==> b in old(view)) && (b in view ==> view[b] == old(view)[b])
      ensures SameDevice(old(disk), disk)
      ensures !old(Unwritten(lruTail)) ==> disk == old(disk) && writebacks == old(writebacks)
    {
      x := TailSlot();
      Evict(x);
      Relabel(x, b);
    }

    /** Hashes an empty slot under block `b` and moves it to the front. */
    method Relabel(x: nat, b: nat)
      requires Valid() && x < |blk| && !valid[x] && b !in where
      modifies `blk, `hnext, `buckets, `chains, `prev, `next, `lruHead, `lruTail, `lru
      ensures Claimed(x, b) && lruHead == x && lru == Fronted(old(lru), x)
    {
      Rehash(x, b);
      LruTouch(x);
    }

    method Rehash(x: nat, b: nat)
      requires Valid() && x < |blk| && !valid[x] && b !in where
      modifies `blk, `hnext, `buckets, `chains
      ensures Claimed(x, b)
    {
      Rename(x, b);
      HashInsert(x);
    }

    method TailSlot() returns (x: nat)
      requires Shape() && Lru()
      ensures x == lruTail < |blk|
    {
      assert 0 in lru;
      assert lru[|lru| - 1] in lru;
      x := lruTail;
    }

    method Rename(x: nat, b: nat)
      requires Valid() && x < |blk| && !valid[x]
      modifies `blk
      ensures Valid() && blk == old(blk)[x := b]
    {
      RenamedHash(blk, hnext, buckets, valid, chains, x, b);
      blk := blk[x := b];
    }

    /** Fills a claimed slot and marks it valid. */
    method Install(x: nat, v: T, d: bool)
      requires x < |blk| && Claimed(x, blk[x])
      requires d || (blk[x] in disk.blocks && disk.blocks[blk[x]] == v)
      modifies `valid, `dirty, `data, `where, `view
      ensures Valid() && valid[x] && data[x] == v && dirty[x] == d && x < |blk|
      ensures where == old(where)[blk[x] := x] && view == old(view)[blk[x] := v]
    {
      data, dirty := data[x := v], dirty[x := d];
      Publish(x);
    }

    method Publish(x: nat)
      requires x < |blk| && Claimed(x, blk[x])
      requires dirty[x] || (blk[x] in disk.blocks && disk.blocks[blk[x]] == data[x])
      modifies `valid, `where, `view
      ensures Valid() && valid[x]
      ensures where == old(where)[blk[x] := x] && view == old(view)[blk[x] := data[x]]
    {
      PublishedView(blk, valid, dirty, data, disk, where, view, x);
      InstalledHash(blk, valid, chains, x);
      valid, where, view := valid[x := true], where[blk[x] := x], view[blk[x] := data[x]];
    }

    /** Undoes a claim whose device read failed. */
    method Unclaim(x: nat)
      requires x < |blk| && Claimed(x, blk[x])
      modifies `blk, `hnext, `buckets, `chains, `valid
      ensures Valid()
    {
      HashRemove(x, x);
      Rename(x, 0);
    }

    /** Brings `b` into the cache without read-ahead; null when the device cannot read it. */
    method Fill(b: nat) returns (x: int)
      requires Valid()
      modifies this
      ensures Valid()
      ensures x == NIL <==> b !in old(view)
      ensures x != NIL ==> 0 <= x < |blk| && b in where && where[b] == x && data[x] == old(view)[b]
      ensures view == if b in old(where) then old(view) else old(TailEvicted())
      ensures lru == Fronted(old(lru), if b in old(where) then old(where)[b] else old(Victim()))
      ensures where == if b in old(where) then old(where) else if x == NIL then old(TailGone())
              else old(TailGone())[b := old(Victim())]
      ensures b in old(where) || !old(Unwritten(lruTail)) ==> disk == old(disk) && writebacks == old(writebacks)
      ensures SameDevice(old(disk), disk)
    {
      x := Lookup(b);
      if x != NIL {
        LruTouch(x);
      } else {
        x := Load(b);
      }
    }

    /** A miss: claims a slot and reads the device into it. */
    method Load(b: nat) returns (x: int)
      requires Valid() && b !in where
      modifies this
      ensures Valid()
      ensures x == NIL <==> b !in old(view)
      ensures x != NIL ==> 0 <= x < |blk| && b in where && where[b] == x && data[x] == old(view)[b]
      ensures view == old(TailEvicted()) && lru == Fronted(old(lru), old(Victim()))
      ensures where == if x == NIL then old(TailGone()) else old(TailGone())[b := old(Victim())]
      ensures !old(Unwritten(lruTail)) ==> disk == old(disk) && writebacks == old(writebacks)
      ensures SameDevice(old(disk), disk)
    {
      x := Claim(b);
      x := ReadIn(x, b);
    }

    /** The device read into a claimed slot, which is given up when the read fails. */
    method ReadIn(x: nat, b: nat) returns (y: int)
      requires Claimed(x, b)
      modifies `blk, `hnext, `buckets, `chains, `valid, `dirty, `data, `where, `view
      ensures Valid() && view == old(view) && where == if y == NIL then old(where) else old(where)[b := x]
      ensures y == NIL <==> b !in view
      ensures y != NIL ==> y == x < |blk| && b in where && where[b] == x && data[x] == view[b]
    {
      assert b in view <==> b in disk.blocks;
      y := NIL;
      if b in disk.blocks {
        Install(x, disk.blocks[b], false);
        y := x;
      } else {
        Unclaim(x);
      }
    }

    /** Prefetching stops before block `n`: it is past the end or unreadable, or the next victim is dirty. */
    ghost predicate Stops(n: nat)
      reads this
    {
      (total != 0 && n >= total) || n !in view || Unwritten(lruTail)
    }

    /** The blocks just fetched are at the front of the list. */
    ghost predicate InFront(fetched: seq<nat>)
      reads this
    {
      && |fetched| <= |lru|
      && forall i :: 0 <= i < |fetched| ==> fetched[i] in where && where[fetched[i]] == lru[i]
    }

    /** One turn of the loop of readahead. */
    method Prefetch(n: nat, ghost fetched: seq<nat>) returns (go: bool, ghost more: seq<nat>)
      requires Valid() && (nslots > |fetched| ==> InFront(fetched))
      modifies this
      ensures Valid() && view == old(view) && disk == old(disk) && writebacks == old(writebacks)
      ensures go ==> n in where && (n in old(where) || n in more)
      ensures !go ==> Stops(n)
      ensures more == fetched || more == [n] + fetched
      ensures nslots > |more| ==> (go ==> InFront(more)) && forall f :: f in more ==> f in where
      ensures forall m :: m in where ==> m in old(where) || m in more
    {
      more := fetched;
      AllSlots(lru, nslots);
      if total != 0 && n >= total {
        return false, more;
      }
      var x := Lookup(n);
      if x != NIL {
        return true, more;
      }
      var t := TailSlot();
      if valid[t] && dirty[t] {
        return false, more;
      }
      go, more := PrefetchMiss(n, t, fetched);
    }

    method PrefetchMiss(n: nat, t: nat, ghost fetched: seq<nat>) returns (go: bool, ghost more: seq<nat>)
      requires Valid() && |lru| == nslots && (nslots > |fetched| ==> InFront(fetched))
      requires n !in where && t == lruTail < |blk| && !Unwritten(t)
      modifies this
      ensures Valid() && view == old(view) && disk == old(disk) && writebacks == old(writebacks)
      ensures go <==> n in view
      ensures more == (if go then [n] + fetched else fetched) && (go ==> n in where)
      ensures nslots > |more| ==> (go ==> InFront(more)) && forall f :: f in more ==> f in where
      ensures forall m :: m in where ==> m in old(where) || m in more
    {
      if nslots > |fetched| {
        NotTheTail(lru, where, blk, valid, fetched, t);
      }
      more := fetched;
      var x := Fill(n);
      go := x != NIL;
      if go {
        more := [n] + fetched;
        if nslots > |more| {
          StillInFront(old(lru), lru, old(where), where, old(blk), old(valid), fetched, n, t);
        }
      }
    }

    /** The `m` blocks after `b` were resident in `was` or are now, and prefetching stopped after them. */
    ghost predicate ReadUpTo(b: nat, was: map<nat, nat>, m: nat)
      reads this
    {
      && m <= READAHEAD && (m < READAHEAD ==> Stops(Ahead(b, m + 1)))
      && forall i: nat {:trigger Ahead(b, i)} :: 1 <= i <= m ==> Ahead(b, i) in was || Ahead(b, i) in where
    }

    ghost predicate HasReadAhead(b: nat, was: map<nat, nat>)
      reads this
    {
      exists m :: ReadUpTo(b, was, m)
    }

    /** Prefetches the next blocks, stopping rather than force a write-back. */
    method Readahead(b: nat) returns (ghost fetched: seq<nat>, ghost m: nat)
      requires Valid()
      modifies this
      ensures Valid() && view == old(view)
      ensures disk == old(disk) && writebacks == old(writebacks)
      ensures m <= READAHEAD && (m < READAHEAD ==> Stops(Ahead(b, m + 1)))
      ensures forall i: nat {:trigger Ahead(b, i)} :: 1 <= i <= m ==>
              Ahead(b, i) in old(where) || Ahead(b, i) in fetched
      ensures nslots > READAHEAD ==> forall n :: n in fetched ==> n in where
    {
      fetched, m := [], 0;
      for i := 1 to READAHEAD + 1
        invariant Valid() && view == old(view) && disk == old(disk) && writebacks == old(writebacks)
        invariant m == i - 1 && |fetched| <= m && (nslots > |fetched| ==> InFront(fetched))
        invariant nslots > |fetched| ==> forall f :: f in fetched ==> f in where
        invariant forall j: nat {:trigger Ahead(b, j)} :: 1 <= j <= m ==>
                  Ahead(b, j) in old(where) || Ahead(b, j) in fetched
        invariant forall n :: n in where ==> n in old(where) || n in fetched
      {
        var go;
        go, fetched := Prefetch(Ahead(b, i), fetched);
        if !go {
          return;
        }
        m := i;
      }
    }

    lemma OnlySlot(b: nat)
      requires Valid() && nslots == 1 && b in where
      ensures lruTail == where[b] == 0 && blk[0] == b && valid[0]
    {
      assert 0 in lru && lru[|lru| - 1] in lru;
    }

    /** With every visible block writable, no eviction can drop anything. */
    lemma SafeLosesNothing(x: int)
      requires Valid() && Safe()
      ensures !Loses(x)
    {
    }

    method Read(b: nat) returns (r: Option<T>)
      requires Valid()
      modifies this
      ensures Valid()
      ensures r == if b in old(view) then Some(old(view)[b]) else None
      ensures view == if b in old(where) then old(view) else old(TailEvicted())
      ensures old(Safe()) ==> view == old(view) && Safe()
      ensures WritableKept(old(view), view, disk) && SameDevice(old(disk), disk)
      ensures b in old(where) ==> where == old(where) && lru == Fronted(old(lru), where[b])
      ensures b !in old(where) && r.Some? && nslots > READAHEAD ==>
                HasReadAhead(b, old(TailGone())[b := old(Victim())])
    {
      EvictionKeepsView();
      var x := Lookup(b);
      if x != NIL {
        LruTouch(x);
        return Some(data[x]);
      }
      x := Fill(b);
      if x == NIL {
        return None;
      }
      r := Some(data[x]);
      ghost var was := where;
      ghost var fetched, m := Readahead(b);
      assert nslots > READAHEAD ==> ReadUpTo(b, was, m);
    }

    method Write(b: nat, v: T)
      requires Valid()
      modifies this
      ensures Valid() && b in where && Unwritten(where[b])
      ensures view == (if b in old(where) then old(view) else old(TailEvicted()))[b := v]
      ensures b in old(where) || !old(Unwritten(lruTail)) ==> disk == old(disk)
      ensures old(Safe()) ==> view == old(view)[b := v] && (disk.Writable(b) ==> Safe())
      ensures SameDevice(old(disk), disk)
      ensures lru == Fronted(old(lru), where[b])
      ensures where == if b in old(where) then old(where) else old(TailGone())[b := old(Victim())]
    {
      EvictionKeepsView();
      var x := Lookup(b);
      if x == NIL {
        WriteMiss(b, v);
      } else {
        WriteHit(b, x, v);
      }
    }

    /** Overwriting a resident block. */
    method WriteHit(b: nat, x: nat, v: T)
      requires Valid() && b in where && where[b] == x
      modifies `data, `dirty, `view, `prev, `next, `lruHead, `lruTail, `lru
      ensures Valid() && Unwritten(x) && view == old(view)[b := v] && lru == Fronted(old(lru), x)
    {
      LruTouch(x);
      Overwrite(x, v);
    }

    /** Overwriting a whole block that is not resident: no device read. */
    method WriteMiss(b: nat, v: T)
      requires Valid() && b !in where
      modifies this
      ensures Valid() && b in where && Unwritten(where[b]) && view == old(TailEvicted())[b := v]
      ensures !old(Unwritten(lruTail)) ==> disk == old(disk)
      ensures lru == Fronted(old(lru), old(Victim())) && where == old(TailGone())[b := old(Victim())]
      ensures SameDevice(old(disk), disk)
    {
      var x := Claim(b);
      Install(x, v, true);
    }

    method Overwrite(x: nat, v: T)
      requires Valid() && x < |blk| && valid[x]
      modifies `data, `dirty, `view
      ensures Valid() && dirty[x] && view == old(view)[blk[x] := v]
    {
      data, dirty := data[x := v], dirty[x := true];
      view := view[blk[x] := v];
    }

    method Forget(b: nat)
      requires Valid()
      modifies this
      ensures Valid() && b !in where && (b in old(where) ==> lruTail == old(where)[b])
      ensures view == if b in old(where) && old(Loses(where[b])) then Uncovered(old(view), b, old(disk)) else old(view)
      ensures old(Safe()) ==> view == old(view) && Safe()
      ensures SameDevice(old(disk), disk)
    {
      var x := Lookup(b);
      if x == NIL {
        return;
      }
      if Safe() {
        SafeLosesNothing(x);
      }
      Evict(x);
      Demote(x);
    }

    /** To the eviction end of the list. */
    method Demote(x: nat)
      requires Valid() && x < |blk|
      modifies `prev, `next, `lruHead, `lruTail, `lru
      ensures Valid() && lruTail == x
    {
      LruUnlink(x);
      LruPushBack(x);
    }

    /** Writes every dirty block back: only refused ones stay dirty, and with none left the device equals the view. */
    method Sync() returns (ok: bool)
      requires Valid()
      modifies `dirty, `disk, `writebacks
      ensures Valid()
      ensures forall j :: Unwritten(j) ==> !disk.Writable(blk[j])
      ensures ok <==> forall j :: !Unwritten(j)
      ensures ok ==> disk.blocks == view
      ensures SameDevice(old(disk), disk)
    {
      ok := true;
      for i := 0 to |blk|
        invariant Valid()
        invariant forall j :: j < i && Unwritten(j) ==> !disk.Writable(blk[j])
        invariant ok <==> forall j :: j < i ==> !Unwritten(j)
        invariant SameDevice(old(disk), disk)
      {
        ok := SyncStep(i, ok);
      }
      if ok {
        CleanDisk();
      }
    }

    method SyncStep(i: nat, ok: bool) returns (ok': bool)
      requires Valid() && i < |blk|
      requires forall j :: j < i && Unwritten(j) ==> !disk.Writable(blk[j])
      requires ok <==> forall j :: j < i ==> !Unwritten(j)
      modifies `dirty, `disk, `writebacks
      ensures Valid()
      ensures forall j :: j < i + 1 && Unwritten(j) ==> !disk.Writable(blk[j])
      ensures ok' <==> forall j :: j < i + 1 ==> !Unwritten(j)
      ensures SameDevice(old(disk), disk)
    {
      var done := Flush(i);
      ok' := ok && done;
      assert forall j :: j < i ==> (Unwritten(j) <==> old(Unwritten(j)));
      assert Unwritten(i) <==> !done;
    }

    lemma NothingRefused()
      requires Valid() && Safe() && forall j :: Unwritten(j) ==> !disk.Writable(blk[j])
      ensures forall j :: !Unwritten(j)
    {
    }

    lemma CleanDisk()
      requires Valid() && forall j :: !Unwritten(j)
      ensures disk.blocks == view
    {
      assert forall b :: b in where ==> !Unwritten(where[b]);
    }

    /** `n` consecutive blocks: straight from the device when none is resident, else block by block. */
    method ReadRun(b: nat, n: nat) returns (r: Option<seq<T>>)
      requires Valid() && b + n <= TWO32
      modifies this
      ensures Valid() && WritableKept(old(view), view, disk)
      ensures old(RunSafe(b, n)) ==> r == Range(old(view), b, n)
      ensures old(Safe()) ==> Safe() && view == old(view)
      ensures SameDevice(old(disk), disk)
    {
      var resident := AnyResident(b, n);
      if resident {
        r := ReadEach(b, n);
      } else {
        RangeAgrees(disk.blocks, view, b, n);
        r := Range(disk.blocks, b, n);
      }
    }

    /** The blocks of the run are safe from evictions: writable, or nothing in the cache is refused. */
    ghost predicate RunSafe(b: nat, n: nat)
      reads this
    {
      Safe() || forall i :: b <= i < b + n ==> disk.Writable(i)
    }

    method ReadEach(b: nat, n: nat) returns (r: Option<seq<T>>)
      requires Valid() && b + n <= TWO32
      modifies this
      ensures Valid() && WritableKept(old(view), view, disk) && (old(Safe()) ==> Safe() && view == old(view))
      ensures old(RunSafe(b, n)) ==> r == Range(old(view), b, n)
      ensures SameDevice(old(disk), disk)
    {
      var got := [];
      for i := 0 to n
        invariant Valid() && WritableKept(old(view), view, disk) && (old(Safe()) ==> Safe() && view == old(view))
        invariant old(RunSafe(b, n)) ==> Range(old(view), b, i) == Some(got)
        invariant SameDevice(old(disk), disk)
      {
        ghost var device := disk;
        var x := ReadNext(b + i, old(view));
        if old(RunSafe(b, n)) {
          assert old(Safe()) || old(disk).Writable(b + i) == device.Writable(b + i) == true;
          assert x == if b + i in old(view) then Some(old(view)[b + i]) else None;
        }
        if x.None? {
          if old(RunSafe(b, n)) {
            RangeMisses(old(view), b, i, n);
          }
          return None;
        }
        got := got + [x.value];
      }
      r := Some(got);
    }

    /** A read that keeps what earlier ones kept. */
    method ReadNext(b: nat, ghost view0: map<nat, T>) returns (r: Option<T>)
      requires Valid() && WritableKept(view0, view, disk)
      modifies this
      ensures Valid() && r == (if b in old(view) then Some(old(view)[b]) else None)
      ensures WritableKept(view0, view, disk) && SameDevice(old(disk), disk)
      ensures old(Safe()) ==> view == old(view) && Safe()
    {
      r := Read(b);
      WritableTrans(view0, old(view), view, old(disk), disk);
    }

    method AnyResident(b: nat, n: nat) returns (any: bool)
      requires Valid()
      ensures any <==> exists i :: b <= i < b + n && i in where
    {
      for i := b to b + n
        invariant forall j :: b <= j < i ==> j !in where
      {
        var x := Lookup(i);
        if x != NIL {
          return true;
        }
      }
      any := false;
    }
  }

  // ----- Any sequence of operations -----

  datatype Op<T> = DoRead(b: nat) | DoWrite(b: nat, v: T) | DoReadRun(b: nat, n: nat) | DoForget(b: nat) | DoSync

  datatype Answer<T> = Block(r: Option<T>) | Blocks(rs: Option<seq<T>>) | Nothing | Synced(ok: bool)

  /** What the same operation answers on a flat disk, and leaves of it. */
  function FlatAnswer<T>(v: map<nat, T>, op: Op<T>): Answer<T> {
    match op
    case DoRead(b) => Block(if b in v then Some(v[b]) else None)
    case DoReadRun(b, n) => Blocks(Range(v, b, n))
    case DoSync => Synced(true)
    case DoWrite(_, _) => Nothing
    case DoForget(_) => Nothing
  }

  function FlatView<T>(v: map<nat, T>, op: Op<T>): map<nat, T> {
    if op.DoWrite? then v[op.b := op.v] else v
  }

  function FlatAnswers<T>(v: map<nat, T>, ops: seq<Op<T>>): seq<Answer<T>> {
    if ops == [] then []
    else FlatAnswers(v, ops[..|ops| - 1]) + [FlatAnswer(FlatFinal(v, ops[..|ops| - 1]), ops[|ops| - 1])]
  }

  function FlatFinal<T>(v: map<nat, T>, ops: seq<Op<T>>): map<nat, T> {
    if ops == [] then v else FlatView(FlatFinal(v, ops[..|ops| - 1]), ops[|ops| - 1])
  }

  /** The device answers for every block the operations write and every run stays in its number range. */
  predicate Permitted<T>(d: Disk<T>, op: Op<T>) {
    && (op.DoWrite? ==> d.Writable(op.b))
    && (op.DoReadRun? ==> op.b + op.n <= TWO32)
  }

  method Perform<T>(c: Cache<T>, op: Op<T>) returns (a: Answer<T>)
    requires c.Valid() && c.Safe() && Permitted(c.disk, op)
    modifies c
    ensures c.Valid() && c.Safe()
    ensures a == FlatAnswer(old(c.view), op) && c.view == FlatView(old(c.view), op)
    ensures op.DoSync? ==> c.disk.blocks == c.view
    ensures SameDevice(old(c.disk), c.disk)
  {
    match op
    case DoRead(b) =>
      var r := c.Read(b);
      a := Block(r);
    case DoWrite(b, v) =>
      c.Write(b, v);
      a := Nothing;
    case DoReadRun(b, n) =>
      var rs := c.ReadRun(b, n);
      a := Blocks(rs);
    case DoForget(b) =>
      c.Forget(b);
      a := Nothing;
    case DoSync =>
      var ok := c.Sync();
      c.NothingRefused();
      a := Synced(ok);
  }

  /** Every answer of a run, with its evictions and read-ahead, is the flat disk's. */
  method RunAll<T>(c: Cache<T>, ops: seq<Op<T>>) returns (answers: seq<Answer<T>>)
    requires c.Valid() && c.Safe() && forall i :: 0 <= i < |ops| ==> Permitted(c.disk, ops[i])
    modifies c
    ensures c.Valid() && c.Safe()
    ensures answers == FlatAnswers(old(c.view), ops) && c.view == FlatFinal(old(c.view), ops)
  {
    answers := [];
    for i := 0 to |ops|
      invariant c.Valid() && c.Safe()
      invariant SameDevice(old(c.disk), c.disk)
      invariant answers == FlatAnswers(old(c.view), ops[..i]) && c.view == FlatFinal(old(c.view), ops[..i])
    {
      assert ops[..i + 1][..i] == ops[..i];
      var a := Perform(c, ops[i]);
      answers := answers + [a];
    }
    assert ops[..|ops|] == ops;
  }

  /** An operation that flushes on the way out: whatever blocks it reads and writes, the device holds the result. */
  method Durably<T>(c: Cache<T>, ops: seq<Op<T>>) returns (answers: seq<Answer<T>>, ok: bool)
    requires c.Valid() && c.Safe() && forall i :: 0 <= i < |ops| ==> Permitted(c.disk, ops[i])
    modifies c
    ensures c.Valid() && c.Safe() && ok
    ensures answers == FlatAnswers(old(c.view), ops) && c.disk.blocks == c.view == FlatFinal(old(c.view), ops)
  {
    answers := RunAll(c, ops);
    ok := c.Sync();
    c.NothingRefused();
  }

  /**
    Despite its comment, `claim` does not keep a victim whose write-back fails: in
    a one-slot cache, a block written and then displaced reads as it was before.
   */
  method DroppedWrite() returns (r: Option<int>)
    ensures r == Some(0)
  {
    var c := new Cache<int>(1, 0, Disk(map[0 := 0, 1 := 0], {0}), 2);
    c.Write(0, 7);
    c.OnlySlot(0);
    assert c.Loses(0) && c.disk.blocks[0] == 0;
    assert c.TailEvicted()[0] == 0;
    assert 1 !in c.where by {
      if 1 in c.where {
        c.OnlySlot(1);
      }
    }
    var other := c.Read(1);
    r := c.Read(0);
  }
}
