/**
  The physical frame allocator: the bit set of src/bitset.c and the counts of
  src/frames.c on top of it. A 32-bit word is its 32 bits, so `|= 1 << k` and
  `&= ~(1 << k)` are updates of bit `k`.
 */
module Frames {
  import opened Arith

  const FRAME: nat := 4096
  const WRAP: nat := 0x1_0000_0000

  type Word = w: seq<bool> | |w| == 32 witness seq(32, _ => false)

  /** Bit `i` of the set, in word `i / 32`. */
  ghost predicate IsSet(words: seq<Word>, i: nat) {
    i / 32 < |words| && words[i / 32][i % 32]
  }

  ghost predicate IsClear(words: seq<Word>, i: nat) {
    i / 32 < |words| && !words[i / 32][i % 32]
  }

  function ClearBits(words: seq<Word>): nat {
    if words == [] then 0 else Clear(words[0]) + ClearBits(words[1..])
  }

  function WithBit(words: seq<Word>, i: nat, v: bool): (r: seq<Word>)
    ensures |r| == |words|
  {
    if i / 32 < |words| then words[i / 32 := words[i / 32][i % 32 := v]] else words
  }

  /** One bit changes, and no other. */
  lemma BitAfter(words: seq<Word>, i: nat, v: bool, j: nat)
    ensures i / 32 < |words| ==> (IsSet(WithBit(words, i, v), j) <==> if j == i then v else IsSet(words, j))
    ensures i / 32 < |words| ==> (IsClear(WithBit(words, i, v), j) <==> if j == i then !v else IsClear(words, j))
  {
    if j != i && j / 32 == i / 32 {
      assert j % 32 != i % 32;
    }
  }

  lemma {:induction false} ClearBitsAfter(words: seq<Word>, q: nat, w: Word)
    requires q < |words|
    ensures ClearBits(words[q := w]) + Clear(words[q]) == ClearBits(words) + Clear(w)
  {
    if q > 0 {
      ClearBitsAfter(words[1..], q - 1, w);
      assert words[q := w][1..] == words[1..][q - 1 := w];
    }
  }

  lemma {:induction false} ClearBitsBound(words: seq<Word>)
    ensures ClearBits(words) <= 32 * |words|
  {
    if words != [] {
      ClearBound(words[0]);
      ClearBitsBound(words[1..]);
    }
  }

  /** Changing a bit changes the count by one, changing nothing changes nothing. */
  lemma CountAfter(words: seq<Word>, i: nat, v: bool)
    ensures IsClear(words, i) && v ==> ClearBits(WithBit(words, i, v)) == ClearBits(words) - 1
    ensures IsSet(words, i) && !v ==> ClearBits(WithBit(words, i, v)) == ClearBits(words) + 1
    ensures !(IsClear(words, i) && v) && !(IsSet(words, i) && !v) ==> WithBit(words, i, v) == words
  {
    if i / 32 < |words| {
      var w := words[i / 32];
      ClearAfterSet(w, i % 32);
      ClearBitsAfter(words, i / 32, w[i % 32 := v]);
      assert w[i % 32] == v ==> w[i % 32 := v] == w && words[i / 32 := w] == words;
    }
  }

  /** bitset_search: the first clear bit, None when there is none. */
  method Search(words: seq<Word>) returns (found: bool, r: nat)
    ensures found ==> IsClear(words, r) && r < 32 * |words|
    ensures found ==> forall j: nat :: j < r ==> !IsClear(words, j)
    ensures !found ==> forall j: nat :: !IsClear(words, j)
  {
    for i := 0 to |words|
      invariant forall j: nat :: j < 32 * i ==> !IsClear(words, j)
    {
      if words[i] != seq(32, _ => true) {
        for bit := 0 to 32
          invariant forall k :: 0 <= k < bit ==> words[i][k]
        {
          if !words[i][bit] {
            forall j: nat | 32 * i <= j < 32 * i + bit ensures !IsClear(words, j) {
              assert j / 32 == i && j % 32 == j - 32 * i;
            }
            assert (32 * i + bit) / 32 == i && (32 * i + bit) % 32 == bit;
            return true, 32 * i + bit;
          }
        }
      }
      forall j: nat | 32 * i <= j < 32 * i + 32 ensures !IsClear(words, j) {
        assert j / 32 == i && j % 32 == j - 32 * i;
      }
    }
    return false, 0;
  }

  /** The words that bitset_init leaves for `size` items: clear for the items, set past them. */
  method InitWords(size: nat) returns (words: seq<Word>)
    ensures |words| == (size + 31) / 32 && ClearBits(words) == size
    ensures forall i: nat {:trigger IsClear(words, i)} :: IsClear(words, i) <==> i < size
  {
    var full, rest := size / 32, size % 32;
    words := seq(full, _ => seq(32, _ => false));
    AllClear(words);
    if rest > 0 {
      var last: Word := seq(32, k => k >= rest);
      ClearTail(last, rest);
      ClearBitsSnoc(words, last);
      words := words + [last];
    }
    forall i: nat ensures IsClear(words, i) <==> i < size {
      assert i == 32 * (i / 32) + i % 32;
    }
  }

  lemma {:induction false} AllClear(words: seq<Word>)
    requires forall k :: 0 <= k < |words| ==> words[k] == seq(32, _ => false)
    ensures ClearBits(words) == 32 * |words|
  {
    if words != [] {
      ClearTail(words[0], 32);
      AllClear(words[1..]);
    }
  }

  lemma {:induction false} ClearTail(s: seq<bool>, n: nat)
    requires n <= |s| && forall k :: 0 <= k < |s| ==> (s[k] <==> k >= n)
    ensures Clear(s) == n
  {
    if s != [] {
      if n == 0 {
        NoneClear(s);
      } else {
        assert forall k :: 0 <= k < |s| - 1 ==> s[1..][k] == s[k + 1];
        ClearTail(s[1..], n - 1);
      }
    }
  }

  lemma {:induction false} ClearBitsSnoc(words: seq<Word>, w: Word)
    ensures ClearBits(words + [w]) == ClearBits(words) + Clear(w)
  {
    if words == [] {
      assert [w][1..] == [];
      assert words + [w] == [w];
    } else {
      assert (words + [w])[1..] == words[1..] + [w];
      ClearBitsSnoc(words[1..], w);
    }
  }

  class FrameAllocator {
    var words: seq<Word>
    var start: nat
    var total: nat
    var managed: nat
    /** Frames in the region, the bitmap's own included. */
    ghost var count: nat

    /** The free count is the number of clear bits, and only frames of the region are ever free. */
    ghost predicate Valid()
      reads this
    {
      && total == ClearBits(words) && start % FRAME == 0 && |words| < WRAP / 32
      && forall i: nat {:trigger IsClear(words, i)} :: IsClear(words, i) ==> i < count
    }

    ghost predicate IsFree(f: nat)
      reads this
    {
      f >= start && (f - start) % FRAME == 0 && IsClear(words, (f - start) / FRAME)
    }

    /** frames_init: the frames that hold the bitmap are used, all others are free. */
    constructor (base: nat, len: nat)
      requires base + FRAME < 0x1_0000_0000_0000_0000 && FrameCount(len) < WRAP - 32
      ensures Valid() && count == FrameCount(len) && start == FirstFrame(base)
      ensures managed == total == count - MetaFrames(count)
      ensures forall i: nat :: IsClear(words, i) <==> MetaFrames(count) <= i < count
    {
      start := FirstFrame(base);
      var frames := FrameCount(len);
      count := frames;
      var ws := InitWords(frames);
      var needed := MetaFrames(frames);
      MetaFits(frames);
      var i := 0;
      while i < needed
        invariant i <= needed <= frames && |ws| == (frames + 31) / 32 && ClearBits(ws) == frames - i
        invariant forall j: nat {:trigger IsClear(ws, j)} :: IsClear(ws, j) <==> i <= j < frames
      {
        CountAfter(ws, i, true);
        forall j: nat ensures IsClear(WithBit(ws, i, true), j) <==> i + 1 <= j < frames {
          BitAfter(ws, i, true, j);
        }
        ws := WithBit(ws, i, true);
        i := i + 1;
      }
      words := ws;
      total := frames - needed;
      managed := frames - needed;
    }

    /** frame_alloc: a frame that was free and no longer is; false is the panic. */
    method Alloc() returns (ok: bool, frame: nat)
      requires Valid()
      modifies this
      ensures Valid() && start == old(start) && managed == old(managed) && count == old(count)
      ensures |words| == |old(words)|
      ensures !ok ==> unchanged(this) && total == 0
      ensures ok ==> old(IsFree(frame)) && frame % FRAME == 0 && total == old(total) - 1
      ensures ok ==> forall f: nat {:trigger IsFree(f)} :: IsFree(f) <==> old(IsFree(f)) && f != frame
    {
      var i;
      ok, i := AllocBit();
      frame := start + FRAME * i;
      assert (frame - start) / FRAME == i && (frame - start) % FRAME == 0;
      if ok {
        forall f: nat ensures IsFree(f) <==> old(IsFree(f)) && f != frame {
          if f >= start && (f - start) % FRAME == 0 {
            assert f == start + FRAME * ((f - start) / FRAME);
          }
        }
      }
    }

    /** The first clear bit is set and the count follows. */
    method AllocBit() returns (ok: bool, i: nat)
      requires Valid()
      modifies this
      ensures Valid() && start == old(start) && managed == old(managed) && count == old(count)
      ensures |words| == |old(words)|
      ensures !ok ==> unchanged(this) && total == 0
      ensures ok ==> old(IsClear(words, i)) && total == old(total) - 1
      ensures ok ==> forall j: nat {:trigger IsClear(words, j)} :: IsClear(words, j) <==>
              old(IsClear(words, j)) && j != i
    {
      ok, i := Search(words);
      if !ok {
        NoneFree(words);
        return;
      }
      CountAfter(words, i, true);
      forall j: nat ensures IsClear(WithBit(words, i, true), j) <==> IsClear(words, j) && j != i {
        BitAfter(words, i, true, j);
      }
      words := WithBit(words, i, true);
      total := total - 1;
    }

    /** frame_free: the counts stay exact when and only when the frame was in use; false is the panic. */
    method Free(frame: nat) returns (ok: bool)
      requires Valid()
      modifies this
      ensures ok <==> frame >= start
      ensures !ok ==> words == old(words) && total == old(total)
      ensures ok ==> total == (old(total) + 1) % WRAP && |words| == |old(words)|
      ensures ok ==> (total == ClearBits(words) <==> old(IsSet(words, (frame - start) / FRAME % WRAP)))
      ensures ok && total != ClearBits(words) ==> words == old(words)
      ensures ok && old(IsSet(words, (frame - start) / FRAME % WRAP)) ==>
                forall j: nat {:trigger IsClear(words, j)} :: IsClear(words, j) <==>
                  old(IsClear(words, j)) || j == (frame - start) / FRAME % WRAP
      ensures start == old(start) && managed == old(managed) && count == old(count)
    {
      if frame < start {
        return false;
      }
      var i := (frame - start) / FRAME % WRAP;
      CountAfter(words, i, false);
      ClearBitsBound(words);
      forall j: nat | i / 32 < |words| ensures IsClear(WithBit(words, i, false), j) <==> IsClear(words, j) || j == i {
        BitAfter(words, i, false, j);
      }
      words := WithBit(words, i, false);
      total := (total + 1) % WRAP;
      return true;
    }

    /** Freeing what was allocated brings the allocator back. */
    method AllocThenFree() returns (ok: bool)
      requires Valid()
      modifies this
      ensures Valid() && total == old(total)
      ensures forall j: nat {:trigger IsClear(words, j)} :: IsClear(words, j) <==> old(IsClear(words, j))
    {
      var i;
      ok, i := AllocBit();
      if ok {
        assert i < WRAP && !IsClear(words, i) && IsSet(words, i);
        assert (start + FRAME * i - start) / FRAME % WRAP == i;
        ClearBitsBound(words);
        var done := Free(start + FRAME * i);
      }
    }
  }

  /** A frame freed twice is counted twice: one more free frame than there are clear bits. */
  method FreedTwice() returns (a: FrameAllocator)
    ensures a.total == ClearBits(a.words) + 1
  {
    a := new FrameAllocator(0, 3 * FRAME);
    assert a.total == 2;
    var ok, i := a.AllocBit();
    assert i < WRAP && !IsClear(a.words, i) && IsSet(a.words, i);
    var frame := a.start + FRAME * i;
    assert (frame - a.start) / FRAME % WRAP == i;
    ok := a.Free(frame);
    assert IsClear(a.words, i);
    ok := a.Free(frame);
  }

  /** Frames that the bitmap for `frames` frames takes. */
  function MetaFrames(frames: nat): nat {
    (4 * ((frames + 31) / 32) + FRAME - 1) / FRAME
  }

  /** They hold the bitmap, one bit a frame in 32-bit words, and one frame less does not. */
  lemma MetaFramesIs(frames: nat, words: nat)
    requires frames <= 32 * words < frames + 32
    ensures 4 * words <= MetaFrames(frames) * 4096
    ensures MetaFrames(frames) > 0 ==> (MetaFrames(frames) - 1) * 4096 < 4 * words
  {
    assert (frames + 31) / 32 == words;
  }

  lemma MetaFits(frames: nat)
    ensures MetaFrames(frames) <= frames
  {
  }

  lemma {:induction false} NoneFree(words: seq<Word>)
    requires forall j: nat :: !IsClear(words, j)
    ensures ClearBits(words) == 0
  {
    if words != [] {
      forall k | 0 <= k < 32 ensures words[0][k] {
        assert !IsClear(words, k);
      }
      NoneClear(words[0]);
      forall j: nat ensures !IsClear(words[1..], j) {
        assert (j + 32) / 32 == j / 32 + 1 && (j + 32) % 32 == j % 32;
        assert !IsClear(words, j + 32);
      }
      NoneFree(words[1..]);
    }
  }

  /** The frames that frames_init manages in [base, base + len): the first one, and how many. */
  function FirstFrame(base: nat): nat {
    (base + FRAME - 1) / FRAME * FRAME
  }

  function FrameCount(len: nat): nat {
    len / FRAME % WRAP
  }

  /** Frame `i` lies in the region. */
  predicate FrameInside(base: nat, len: nat, i: nat) {
    FirstFrame(base) + i * FRAME + FRAME <= base + len
  }

  /**
    frames_init keeps the frame count of the unaligned region: all frames lie inside it exactly when there are
    none, when what rounding the base up skips is no more than what rounding the length down leaves over, or
    when the count was truncated to 32 bits.
   */
  lemma FramesInRegion(base: nat, len: nat)
    ensures (forall i :: 0 <= i < FrameCount(len) ==> FrameInside(base, len, i)) <==>
            FrameCount(len) == 0 || FirstFrame(base) - base <= len % FRAME || len / FRAME >= WRAP
  {
    var n := FrameCount(len);
    if n > 0 {
      LastInside(base, len, n);
      if FrameInside(base, len, n - 1) {
        forall i | 0 <= i < n ensures FrameInside(base, len, i) {
        }
      }
    }
  }

  lemma LastInside(base: nat, len: nat, n: nat)
    requires n == FrameCount(len) > 0
    ensures FrameInside(base, len, n - 1) <==> FirstFrame(base) - base <= len % FRAME || len / FRAME >= WRAP
  {
    assert 0 <= FirstFrame(base) - base < FRAME;
    assert len == len / FRAME * FRAME + len % FRAME;
    assert (n - 1) * FRAME + FRAME == n * FRAME;
    if len / FRAME >= WRAP {
      assert n <= len / FRAME - WRAP;
    }
  }

  /** A region whose last frame ends 2048 bytes past it. */
  lemma FrameOutsideRegion()
    ensures FrameCount(8192) == 2 && !FrameInside(2048, 8192, 1)
  {
  }
}
