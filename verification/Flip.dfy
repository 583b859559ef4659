/**
  Double buffering in src/gfx.c: a packed back buffer, a packed shadow of what the
  screen shows, and the framebuffer, whose rows are `pitch` bytes apart. A pixel
  is its four bytes.
 */
module Flip {
  import opened Types
  import opened Arith

  const TILE: nat := 32

  datatype Pixel = Pixel(b0: nat, b1: nat, b2: nat, b3: nat)

  const BLACK: Pixel := Pixel(0, 0, 0, 0)

  /** The bytes of a row of pixels. */
  function Bytes(ps: seq<Pixel>): (b: seq<nat>)
    ensures |b| == 4 * |ps|
  {
    if ps == [] then []
    else
      var p := ps[|ps| - 1];
      Bytes(ps[..|ps| - 1]) + [p.b0, p.b1, p.b2, p.b3]
  }

  /** The pixel whose bytes start at `o`. */
  function PixelAt(fb: seq<nat>, o: nat): Pixel {
    if o + 4 <= |fb| then Pixel(fb[o], fb[o + 1], fb[o + 2], fb[o + 3]) else BLACK
  }

  lemma {:induction false} BytesAt(ps: seq<Pixel>, k: nat)
    requires k < |ps|
    ensures PixelAt(Bytes(ps), 4 * k) == ps[k]
  {
    if k < |ps| - 1 {
      BytesAt(ps[..|ps| - 1], k);
    }
  }

  lemma PixelIn(fb: seq<nat>, o: nat, src: seq<Pixel>, k: nat)
    requires o + 4 * |src| <= |fb| && k < |src|
    ensures PixelAt(Splice(fb, o, Bytes(src)), o + 4 * k) == src[k]
  {
    BytesAt(src, k);
  }

  lemma PixelAway(fb: seq<nat>, o: nat, v: seq<nat>, p: nat)
    requires o + |v| <= |fb| && p + 4 <= |fb| && (p + 4 <= o || o + |v| <= p)
    ensures PixelAt(Splice(fb, o, v), p) == PixelAt(fb, p)
  {
  }

  /** Sizes: `pitch` bytes a row in the framebuffer. */
  datatype Mode = Mode(width: nat, height: nat, pitch: nat)

  datatype Screen = Screen(fb: seq<nat>, back: seq<Pixel>, shadow: seq<Pixel>)

  ghost predicate Wf(m: Mode, s: Screen) {
    && 4 * m.width <= m.pitch && |s.fb| == Times(m.height, m.pitch)
    && |s.back| == |s.shadow| == Times(m.height, m.width)
  }

  /** Rows start `w` apart. */
  lemma RowFits(w: nat, h: nat, y: nat, x: nat)
    requires y < h && x <= w
    ensures Times(y, w) + x <= Times(h, w)
  {
    TimesStep(y, h, w);
  }

  lemma RowsApart(w: nat, y: nat, y': nat)
    requires y < y'
    ensures Times(y, w) + w <= Times(y', w)
  {
    TimesStep(y, y', w);
  }

  /** The pixel the screen shows at (x, y). */
  function Shown(m: Mode, fb: seq<nat>, y: nat, x: nat): Pixel {
    PixelAt(fb, Times(y, m.pitch) + 4 * x)
  }

  function Packed(m: Mode, buf: seq<Pixel>, y: nat, x: nat): Pixel {
    if Times(y, m.width) + x < |buf| then buf[Times(y, m.width) + x] else BLACK
  }

  // ----- One row of a tile -----

  ghost predicate InRow(y: nat, x0: nat, x1: nat, v: nat, u: nat) {
    v == y && x0 <= u < x1
  }

  function RowOf(m: Mode, buf: seq<Pixel>, y: nat, x0: nat, x1: nat): (r: seq<Pixel>)
    requires |buf| == Times(m.height, m.width) && y < m.height && x0 <= x1 <= m.width
    ensures |r| == x1 - x0
  {
    RowFits(m.width, m.height, y, x1);
    buf[Times(y, m.width) + x0..Times(y, m.width) + x1]
  }

  lemma RowAt(m: Mode, buf: seq<Pixel>, y: nat, x0: nat, x1: nat, x: nat)
    requires |buf| == Times(m.height, m.width) && y < m.height && x0 <= x < x1 <= m.width
    ensures RowOf(m, buf, y, x0, x1)[x - x0] == Packed(m, buf, y, x)
  {
    RowFits(m.width, m.height, y, x1);
  }

  /** A pixel lies in the bytes copied, or apart from them. */
  lemma Offsets(m: Mode, y: nat, x0: nat, n: nat, v: nat, u: nat)
    requires 4 * m.width <= m.pitch && y < m.height && x0 + n <= m.width && v < m.height && u < m.width
    ensures var o, p := Times(y, m.pitch) + 4 * x0, Times(v, m.pitch) + 4 * u;
            && o + 4 * n <= Times(m.height, m.pitch) && p + 4 <= Times(m.height, m.pitch)
            && (if InRow(y, x0, x0 + n, v, u) then p == o + 4 * (u - x0) else p + 4 <= o || o + 4 * n <= p)
  {
    RowFits(m.pitch, m.height, y, 4 * x0 + 4 * n);
    RowFits(m.pitch, m.height, v, 4 * u + 4);
    if v < y {
      RowsApart(m.pitch, v, y);
    } else if y < v {
      RowsApart(m.pitch, y, v);
    }
  }

  /** `fb'` is `fb` with the pixels of `src` at `o`. */
  ghost predicate Patched(fb: seq<nat>, fb': seq<nat>, o: nat, src: seq<Pixel>) {
    && |fb'| == |fb| && o + 4 * |src| <= |fb|
    && (forall k: nat {:trigger src[k]} :: k < |src| ==> PixelAt(fb', o + 4 * k) == src[k])
    && (forall p: nat {:trigger PixelAt(fb', p)} :: p + 4 <= |fb| && (p + 4 <= o || o + 4 * |src| <= p) ==>
       PixelAt(fb', p) == PixelAt(fb, p))
  }

  lemma SplicePatches(fb: seq<nat>, o: nat, src: seq<Pixel>)
    requires o + 4 * |src| <= |fb|
    ensures Patched(fb, Splice(fb, o, Bytes(src)), o, src)
  {
    forall k: nat | k < |src| ensures PixelAt(Splice(fb, o, Bytes(src)), o + 4 * k) == src[k] {
      PixelIn(fb, o, src, k);
    }
    forall p: nat | p + 4 <= |fb| && (p + 4 <= o || o + 4 * |src| <= p)
      ensures PixelAt(Splice(fb, o, Bytes(src)), p) == PixelAt(fb, p)
    {
      PixelAway(fb, o, Bytes(src), p);
    }
  }

  lemma ShownAfter(m: Mode, fb: seq<nat>, fb': seq<nat>, y: nat, x0: nat, src: seq<Pixel>, v: nat, u: nat)
    requires 4 * m.width <= m.pitch && |fb| == Times(m.height, m.pitch) && y < m.height && x0 + |src| <= m.width
    requires v < m.height && u < m.width && Patched(fb, fb', Times(y, m.pitch) + 4 * x0, src)
    ensures Shown(m, fb', v, u) == if InRow(y, x0, x0 + |src|, v, u) then src[u - x0] else Shown(m, fb, v, u)
  {
    Offsets(m, y, x0, |src|, v, u);
    if InRow(y, x0, x0 + |src|, v, u) {
      var p := src[u - x0];
    }
  }

  lemma PackedAfter(m: Mode, buf: seq<Pixel>, y: nat, x0: nat, src: seq<Pixel>, v: nat, u: nat)
    requires |buf| == Times(m.height, m.width) && y < m.height && x0 + |src| <= m.width
    requires v < m.height && u < m.width
    ensures Times(y, m.width) + x0 + |src| <= |buf|
    ensures Packed(m, Splice(buf, Times(y, m.width) + x0, src), v, u) ==
            if InRow(y, x0, x0 + |src|, v, u) then src[u - x0] else Packed(m, buf, v, u)
  {
    var o, p := Times(y, m.width) + x0, Times(v, m.width) + u;
    PackedOffsets(m, y, x0, |src|, v, u);
    SpliceAt(buf, o, src, p);
  }

  /** A pixel lies in the row copied, or apart from it. */
  lemma PackedOffsets(m: Mode, y: nat, x0: nat, n: nat, v: nat, u: nat)
    requires y < m.height && x0 + n <= m.width && v < m.height && u < m.width
    ensures var o, p := Times(y, m.width) + x0, Times(v, m.width) + u;
            && o + n <= Times(m.height, m.width) && p < Times(m.height, m.width)
            && (if InRow(y, x0, x0 + n, v, u) then p == o + (u - x0) else p < o || o + n <= p)
  {
    RowFits(m.width, m.height, y, x0 + n);
    RowFits(m.width, m.height, v, u + 1);
    if v < y {
      RowsApart(m.width, v, y);
    } else if y < v {
      RowsApart(m.width, y, v);
    }
  }

  lemma SpliceAt<T>(s: seq<T>, o: nat, v: seq<T>, p: nat)
    requires o + |v| <= |s| && p < |s|
    ensures Splice(s, o, v)[p] == if o <= p < o + |v| then v[p - o] else s[p]
  {
  }

  // ----- Regions of the screen -----

  /** The tiles before (tx, ty) in reading order, or rows y0 to y of one tile. */
  datatype Area = Upto(ty: nat, y1: nat, tx: nat) | Tile(x0: nat, y0: nat, x1: nat, y: nat)

  predicate Inside(a: Area, v: nat, u: nat) {
    match a
    case Upto(ty, y1, tx) => v < ty || (v < y1 && u < tx)
    case Tile(x0, y0, x1, y) => y0 <= v < y && x0 <= u < x1
  }

  /** Inside the area the screen and the shadow show the back buffer; elsewhere they are as in `s0`. */
  ghost predicate PixelOk(m: Mode, s0: Screen, s: Screen, a: Area, v: nat, u: nat)
    requires Wf(m, s0) && Wf(m, s) && v < m.height && u < m.width
  {
    if Inside(a, v, u) then
      Shown(m, s.fb, v, u) == Packed(m, s.back, v, u) == Packed(m, s.shadow, v, u)
    else
      Shown(m, s.fb, v, u) == Shown(m, s0.fb, v, u) && Packed(m, s.shadow, v, u) == Packed(m, s0.shadow, v, u)
  }

  ghost predicate Flipped(m: Mode, s0: Screen, s: Screen, a: Area) {
    && Wf(m, s0) && Wf(m, s) && s.back == s0.back
    && forall v: nat, u: nat {:trigger PixelOk(m, s0, s, a, v, u)} :: v < m.height && u < m.width ==>
       PixelOk(m, s0, s, a, v, u)
  }

  /** The screen shows what the shadow says. */
  ghost predicate InSync(m: Mode, s: Screen) {
    Wf(m, s) && forall v: nat, u: nat {:trigger Shown(m, s.fb, v, u)} :: v < m.height && u < m.width ==>
      Shown(m, s.fb, v, u) == Packed(m, s.shadow, v, u)
  }

  /** The screen shows the back buffer. */
  ghost predicate ShowsBack(m: Mode, s: Screen) {
    Wf(m, s) && forall v: nat, u: nat {:trigger Shown(m, s.fb, v, u)} :: v < m.height && u < m.width ==>
      Shown(m, s.fb, v, u) == Packed(m, s.back, v, u)
  }

  /** Nothing in the area was redrawn since the last flip. */
  ghost predicate Clean(m: Mode, s: Screen, a: Area) {
    Wf(m, s) && forall v: nat, u: nat {:trigger Inside(a, v, u)} :: v < m.height && u < m.width && Inside(a, v, u) ==>
      Packed(m, s.back, v, u) == Packed(m, s.shadow, v, u)
  }

  function CopyRow(m: Mode, s: Screen, y: nat, x0: nat, x1: nat): Screen
    requires Wf(m, s) && y < m.height && x0 <= x1 <= m.width
  {
    RowFits(m.pitch, m.height, y, 4 * x1);
    RowFits(m.width, m.height, y, x1);
    var src := RowOf(m, s.back, y, x0, x1);
    s.(fb := Splice(s.fb, Times(y, m.pitch) + 4 * x0, Bytes(src)),
      shadow := Splice(s.shadow, Times(y, m.width) + x0, src))
  }

  lemma CopyRowPixel(m: Mode, s: Screen, y: nat, x0: nat, x1: nat, v: nat, u: nat)
    requires Wf(m, s) && y < m.height && x0 <= x1 <= m.width && v < m.height && u < m.width
    ensures var s' := CopyRow(m, s, y, x0, x1);
            && Wf(m, s') && s'.back == s.back
            && Shown(m, s'.fb, v, u) == (if InRow(y, x0, x1, v, u) then Packed(m, s.back, v, u)
               else Shown(m, s.fb, v, u))
            && Packed(m, s'.shadow, v, u) == (if InRow(y, x0, x1, v, u) then Packed(m, s.back, v, u)
               else Packed(m, s.shadow, v, u))
  {
    CopyRowShown(m, s, y, x0, x1, v, u);
    var src := RowOf(m, s.back, y, x0, x1);
    PackedAfter(m, s.shadow, y, x0, src, v, u);
    if InRow(y, x0, x1, v, u) {
      RowAt(m, s.back, y, x0, x1, u);
    }
  }

  lemma CopyRowShown(m: Mode, s: Screen, y: nat, x0: nat, x1: nat, v: nat, u: nat)
    requires Wf(m, s) && y < m.height && x0 <= x1 <= m.width && v < m.height && u < m.width
    ensures |CopyRow(m, s, y, x0, x1).fb| == |s.fb|
    ensures Shown(m, CopyRow(m, s, y, x0, x1).fb, v, u) == if InRow(y, x0, x1, v, u) then Packed(m, s.back, v, u)
            else Shown(m, s.fb, v, u)
  {
    var src := RowOf(m, s.back, y, x0, x1);
    RowFits(m.pitch, m.height, y, 4 * x1);
    SplicePatches(s.fb, Times(y, m.pitch) + 4 * x0, src);
    ShownAfter(m, s.fb, CopyRow(m, s, y, x0, x1).fb, y, x0, src, v, u);
    if InRow(y, x0, x1, v, u) {
      RowAt(m, s.back, y, x0, x1, u);
    }
  }

  lemma RowFlipped(m: Mode, s0: Screen, s: Screen, y: nat, x0: nat, y0: nat, x1: nat)
    requires Flipped(m, s0, s, Tile(x0, y0, x1, y)) && y0 <= y < m.height && x0 <= x1 <= m.width
    ensures Flipped(m, s0, CopyRow(m, s, y, x0, x1), Tile(x0, y0, x1, y + 1))
  {
    var s' := CopyRow(m, s, y, x0, x1);
    var area, area' := Tile(x0, y0, x1, y), Tile(x0, y0, x1, y + 1);
    forall v: nat, u: nat | v < m.height && u < m.width ensures PixelOk(m, s0, s', area', v, u) {
      assert PixelOk(m, s0, s, area, v, u);
      CopyRowPixel(m, s, y, x0, x1, v, u);
    }
  }

  /** row_differs: two pixels at a time, and the odd one. */
  method RowDiffers(a: seq<Pixel>, b: seq<Pixel>) returns (r: bool)
    requires |a| == |b|
    ensures r <==> a != b
  {
    var i := 0;
    while i + 2 <= |a|
      invariant 0 <= i <= |a| && a[..i] == b[..i]
    {
      if a[i..i + 2] != b[i..i + 2] {
        assert a[i..i + 2] == [a[i], a[i + 1]] && b[i..i + 2] == [b[i], b[i + 1]];
        return true;
      }
      assert a[..i + 2] == a[..i] + a[i..i + 2] && b[..i + 2] == b[..i] + b[i..i + 2];
      i := i + 2;
    }
    r := i < |a| && a[i] != b[i];
    if !r {
      forall k | 0 <= k < |a| ensures a[k] == b[k] {
        assert k < i ==> a[k] == a[..i][k] && b[k] == b[..i][k];
      }
    }
  }

  /** The diff of one tile. */
  method TileDiffers(m: Mode, s: Screen, x0: nat, y0: nat, x1: nat, y1: nat) returns (dirty: bool)
    requires Wf(m, s) && x0 <= x1 <= m.width && y0 <= y1 <= m.height
    ensures dirty <==> !Clean(m, s, Tile(x0, y0, x1, y1))
  {
    for y := y0 to y1
      invariant Clean(m, s, Tile(x0, y0, x1, y))
    {
      var a, b := RowOf(m, s.back, y, x0, x1), RowOf(m, s.shadow, y, x0, x1);
      dirty := RowDiffers(a, b);
      if dirty {
        var k :| 0 <= k < |a| && a[k] != b[k];
        RowAt(m, s.back, y, x0, x1, x0 + k);
        RowAt(m, s.shadow, y, x0, x1, x0 + k);
        assert Inside(Tile(x0, y0, x1, y1), y, x0 + k);
        return;
      }
      forall v: nat, u: nat | v < m.height && u < m.width && Inside(Tile(x0, y0, x1, y + 1), v, u)
        ensures Packed(m, s.back, v, u) == Packed(m, s.shadow, v, u)
      {
        if v == y {
          RowAt(m, s.back, y, x0, x1, u);
          RowAt(m, s.shadow, y, x0, x1, u);
        } else {
          assert Inside(Tile(x0, y0, x1, y), v, u);
        }
      }
    }
    dirty := false;
  }

  lemma NothingFlipped(m: Mode, s: Screen, a: Area)
    requires Wf(m, s) && forall v: nat, u: nat {:trigger Inside(a, v, u)} :: v < m.height && u < m.width ==>
             !Inside(a, v, u)
    ensures Flipped(m, s, s, a)
  {
    forall v: nat, u: nat | v < m.height && u < m.width ensures PixelOk(m, s, s, a, v, u) {
      assert !Inside(a, v, u);
    }
  }

  /** One more tile done: copied when it differed, left alone when it did not. */
  lemma TileDone(m: Mode, s0: Screen, s1: Screen, s2: Screen, done: Area, tile: Area, more: Area, dirty: bool)
    requires InSync(m, s0) && Flipped(m, s0, s1, done) && tile.Tile?
    requires if dirty then Flipped(m, s1, s2, tile) else s2 == s1 && Clean(m, s1, tile)
    requires forall v: nat, u: nat {:trigger Inside(more, v, u)} :: v < m.height && u < m.width ==>
               (Inside(more, v, u) <==> Inside(done, v, u) || Inside(tile, v, u)) &&
                 !(Inside(done, v, u) && Inside(tile, v, u))
    ensures Flipped(m, s0, s2, more)
    ensures Clean(m, s0, more) <==> Clean(m, s0, done) && Clean(m, s1, tile)
  {
    forall v: nat, u: nat | v < m.height && u < m.width ensures PixelOk(m, s0, s2, more, v, u) {
      assert PixelOk(m, s0, s1, done, v, u);
      assert Inside(more, v, u) <==> Inside(done, v, u) || Inside(tile, v, u);
      if dirty {
        assert PixelOk(m, s1, s2, tile, v, u);
      }
      assert Shown(m, s0.fb, v, u) == Packed(m, s0.shadow, v, u);
    }
    if Clean(m, s0, more) {
      forall v: nat, u: nat | v < m.height && u < m.width && Inside(tile, v, u)
        ensures Packed(m, s1.back, v, u) == Packed(m, s1.shadow, v, u)
      {
        assert Inside(more, v, u) && PixelOk(m, s0, s1, done, v, u);
      }
      forall v: nat, u: nat | v < m.height && u < m.width && Inside(done, v, u)
        ensures Packed(m, s0.back, v, u) == Packed(m, s0.shadow, v, u)
      {
        assert Inside(more, v, u);
      }
    }
    if Clean(m, s0, done) && Clean(m, s1, tile) {
      forall v: nat, u: nat | v < m.height && u < m.width && Inside(more, v, u)
        ensures Packed(m, s0.back, v, u) == Packed(m, s0.shadow, v, u)
      {
        assert PixelOk(m, s0, s1, done, v, u);
        assert Inside(done, v, u) || Inside(tile, v, u);
      }
    }
  }

  class Display {
    const m: Mode
    var s: Screen
    var lastTiles: nat

    ghost predicate Valid()
      reads this
    {
      InSync(m, s)
    }

    /** flip_tile. */
    method FlipTile(x0: nat, y0: nat, x1: nat, y1: nat)
      requires Wf(m, s) && x0 <= x1 <= m.width && y0 <= y1 <= m.height
      modifies `s
      ensures Flipped(m, old(s), s, Tile(x0, y0, x1, y1))
    {
      NothingFlipped(m, s, Tile(x0, y0, x1, y0));
      for y := y0 to y1
        invariant Flipped(m, old(s), s, Tile(x0, y0, x1, y))
      {
        RowFlipped(m, old(s), s, y, x0, y0, x1);
        s := CopyRow(m, s, y, x0, x1);
      }
    }

    /** One row of tiles. */
    method FlipRow(ty: nat, y1: nat, count: nat, ghost s0: Screen) returns (tiles: nat)
      requires InSync(m, s0) && Flipped(m, s0, s, Upto(ty, y1, 0)) && ty <= y1 <= m.height
      requires count == 0 <==> Clean(m, s0, Upto(ty, y1, 0))
      modifies `s
      ensures Flipped(m, s0, s, Upto(ty, y1, m.width)) && (tiles == 0 <==> Clean(m, s0, Upto(ty, y1, m.width)))
    {
      tiles := count;
      var tx := 0;
      while tx < m.width
        invariant 0 <= tx <= m.width && Flipped(m, s0, s, Upto(ty, y1, tx))
        invariant (tiles == 0 <==> Clean(m, s0, Upto(ty, y1, tx)))
      {
        var x1 := if tx + TILE > m.width then m.width else tx + TILE;
        ghost var s1 := s;
        var dirty := TileDiffers(m, s, tx, ty, x1, y1);
        if dirty {
          FlipTile(tx, ty, x1, y1);
          tiles := tiles + 1;
        }
        TileDone(m, s0, s1, s, Upto(ty, y1, tx), Tile(tx, ty, x1, y1), Upto(ty, y1, x1), dirty);
        tx := x1;
      }
    }

    /** gfx_flip: then the screen shows the back buffer, and the tile count is 0 exactly when it already did. */
    method GfxFlip()
      requires Valid()
      modifies `s, `lastTiles
      ensures Valid() && ShowsBack(m, s) && s.back == old(s.back)
      ensures lastTiles == 0 <==> ShowsBack(m, old(s))
    {
      var tiles := 0;
      NothingFlipped(m, s, Upto(0, 0, m.width));
      var ty := 0;
      while ty < m.height
        invariant 0 <= ty <= m.height && Flipped(m, old(s), s, Upto(ty, ty, m.width))
        invariant tiles == 0 <==> Clean(m, old(s), Upto(ty, ty, m.width))
      {
        var y1 := if ty + TILE > m.height then m.height else ty + TILE;
        SameArea(m, old(s), s, Upto(ty, ty, m.width), Upto(ty, y1, 0));
        tiles := FlipRow(ty, y1, tiles, old(s));
        SameArea(m, old(s), s, Upto(ty, y1, m.width), Upto(y1, y1, m.width));
        ty := y1;
      }
      lastTiles := tiles;
      AllFlipped(m, old(s), s, Upto(ty, ty, m.width));
    }

    /** The copy of gfx_flip_full: in one piece when the rows are contiguous, else row by row. */
    method CopyAll()
      requires Valid()
      modifies `s
      ensures ShowsBack(m, s) && s.back == old(s.back)
    {
      if m.pitch == 4 * m.width {
        WholeCopy(m, s);
        s := s.(fb := Bytes(s.back));
        return;
      }
      NothingFlipped(m, s, Tile(0, 0, m.width, 0));
      for y := 0 to m.height
        invariant Flipped(m, old(s), s, Tile(0, 0, m.width, y))
      {
        RowFlipped(m, old(s), s, y, 0, 0, m.width);
        s := CopyRow(m, s, y, 0, m.width);
      }
      AllFlipped(m, old(s), s, Tile(0, 0, m.width, m.height));
    }

    /** gfx_flip_full. */
    method GfxFlipFull()
      requires Valid()
      modifies `s, `lastTiles
      ensures Valid() && ShowsBack(m, s) && s.back == old(s.back) && lastTiles == TileCount(m)
    {
      CopyAll();
      SyncedShadow(m, s);
      s := s.(shadow := s.back);
      lastTiles := TileCount(m);
    }

    /** A draw, in buffered mode: only the back buffer changes. */
    method Plot(x: nat, y: nat, p: Pixel)
      requires Valid() && x < m.width && y < m.height
      modifies `s
      ensures Valid() && s == old(s).(back := s.back) && |s.back| == |old(s.back)|
    {
      RowFits(m.width, m.height, y, x + 1);
      s := s.(back := s.back[Times(y, m.width) + x := p]);
    }

    /** gfx_buffer(true): both buffers are seeded from the screen. */
    constructor (m: Mode, fb: seq<nat>)
      requires 4 * m.width <= m.pitch && |fb| == Times(m.height, m.pitch)
      ensures Valid() && this.m == m && s.fb == fb && ShowsBack(m, s)
    {
      this.m := m;
      var back := SeedBack(m, fb);
      s := Screen(fb, back, back);
      lastTiles := 0;
    }

    /** Any run of draws and flips: the shadow is what the screen shows. */
    method Run(ops: seq<Op>)
      requires Valid()
      modifies `s, `lastTiles
      ensures Valid()
    {
      for k := 0 to |ops|
        invariant Valid()
      {
        match ops[k] {
          case Draw(x, y, p) =>
            if x < m.width && y < m.height {
              Plot(x, y, p);
            }
          case FlipTiles => GfxFlip();
          case FlipAll => GfxFlipFull();
        }
      }
    }
  }

  datatype Op = Draw(x: nat, y: nat, p: Pixel) | FlipTiles | FlipAll

  /** The rows of the screen, packed. */
  method SeedBack(m: Mode, fb: seq<nat>) returns (back: seq<Pixel>)
    requires 4 * m.width <= m.pitch && |fb| == Times(m.height, m.pitch)
    ensures |back| == Times(m.height, m.width)
    ensures forall v: nat, u: nat {:trigger Shown(m, fb, v, u)} :: v < m.height && u < m.width ==>
            Shown(m, fb, v, u) == Packed(m, back, v, u)
  {
    back := seq(Times(m.height, m.width), _ => Pixel(0, 0, 0, 0));
    for y := 0 to m.height
      invariant |back| == Times(m.height, m.width)
      invariant forall v: nat, u: nat {:trigger Shown(m, fb, v, u)} :: v < y && u < m.width ==>
                Shown(m, fb, v, u) == Packed(m, back, v, u)
    {
      RowFits(m.width, m.height, y, m.width);
      var row := seq(m.width, u requires 0 <= u < m.width => Shown(m, fb, y, u));
      ghost var was := back;
      back := Splice(back, Times(y, m.width), row);
      forall v: nat, u: nat | v < y + 1 && u < m.width ensures Shown(m, fb, v, u) == Packed(m, back, v, u) {
        PackedAfter(m, was, y, 0, row, v, u);
      }
    }
  }

  lemma SameArea(m: Mode, s0: Screen, s: Screen, a: Area, b: Area)
    requires Flipped(m, s0, s, a)
    requires forall v: nat, u: nat {:trigger Inside(b, v, u)} :: v < m.height && u < m.width ==>
             (Inside(a, v, u) <==> Inside(b, v, u))
    ensures Flipped(m, s0, s, b) && (Clean(m, s0, b) <==> Clean(m, s0, a))
  {
    forall v: nat, u: nat | v < m.height && u < m.width ensures PixelOk(m, s0, s, b, v, u) {
      assert PixelOk(m, s0, s, a, v, u);
      assert Inside(a, v, u) <==> Inside(b, v, u);
    }
    forall v: nat, u: nat | v < m.height && u < m.width ensures Inside(a, v, u) <==> Inside(b, v, u) {
    }
  }

  lemma AllFlipped(m: Mode, s0: Screen, s: Screen, a: Area)
    requires Flipped(m, s0, s, a) && InSync(m, s0)
    requires forall v: nat, u: nat {:trigger Inside(a, v, u)} :: v < m.height && u < m.width ==> Inside(a, v, u)
    ensures ShowsBack(m, s) && InSync(m, s) && (Clean(m, s0, a) <==> ShowsBack(m, s0))
  {
    forall v: nat, u: nat | v < m.height && u < m.width
      ensures Shown(m, s.fb, v, u) == Packed(m, s.back, v, u) == Packed(m, s.shadow, v, u)
    {
      assert PixelOk(m, s0, s, a, v, u) && Inside(a, v, u);
    }
    if Clean(m, s0, a) {
      forall v: nat, u: nat | v < m.height && u < m.width ensures Shown(m, s0.fb, v, u) == Packed(m, s0.back, v, u) {
        assert Inside(a, v, u);
      }
    }
    if ShowsBack(m, s0) {
      forall v: nat, u: nat | v < m.height && u < m.width && Inside(a, v, u)
        ensures Packed(m, s0.back, v, u) == Packed(m, s0.shadow, v, u)
      {
        assert Shown(m, s0.fb, v, u) == Packed(m, s0.shadow, v, u);
      }
    }
  }

  function TileCount(m: Mode): nat {
    ((m.width + TILE - 1) / TILE) * ((m.height + TILE - 1) / TILE)
  }

  lemma SyncedShadow(m: Mode, s: Screen)
    requires ShowsBack(m, s)
    ensures InSync(m, s.(shadow := s.back)) && ShowsBack(m, s.(shadow := s.back))
  {
    var s' := s.(shadow := s.back);
    forall v: nat, u: nat | v < m.height && u < m.width ensures Shown(m, s'.fb, v, u) == Packed(m, s'.shadow, v, u) {
      assert Shown(m, s.fb, v, u) == Packed(m, s.back, v, u);
    }
  }

  lemma {:induction false} TimesFour(a: nat, b: nat)
    ensures Times(a, 4 * b) == 4 * Times(a, b)
  {
    if a > 0 {
      TimesFour(a - 1, b);
    }
  }

  lemma WholeCopy(m: Mode, s: Screen)
    requires Wf(m, s) && m.pitch == 4 * m.width
    ensures |Bytes(s.back)| == |s.fb|
    ensures ShowsBack(m, s.(fb := Bytes(s.back)))
  {
    TimesFour(m.height, m.width);
    var s' := s.(fb := Bytes(s.back));
    forall v: nat, u: nat | v < m.height && u < m.width ensures Shown(m, s'.fb, v, u) == Packed(m, s'.back, v, u) {
      TimesFour(v, m.width);
      RowFits(m.width, m.height, v, u + 1);
      BytesAt(s.back, Times(v, m.width) + u);
    }
  }
}
