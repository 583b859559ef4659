/** gfx_line of src/gfx.c: Bresenham's algorithm, whose error term is exact. */
module Line {
  import opened Arith

  datatype Point = Point(x: int, y: int)

  function Abs(v: int): nat {
    if v < 0 then -v else v
  }

  function Sign(v: int): int {
    if v < 0 then -1 else 1
  }

  /** Steps from `a` to `v` in the direction of `d`. */
  function Steps(a: int, v: int, d: int): int {
    if d < 0 then a - v else v - a
  }

  function Max(a: nat, b: nat): nat {
    if a < b then b else a
  }

  /** How far `k` steps of one axis and `j` of the other are off the line, in units of one over the longer side. */
  function Off(k: nat, j: nat, adx: nat, ady: nat): int {
    Times(k, ady) - Times(j, adx)
  }

  lemma OffIs(k: nat, j: nat, adx: nat, ady: nat)
    ensures Off(k, j, adx, ady) == k * ady - j * adx
  {
    TimesIs(k, ady);
    TimesIs(j, adx);
  }

  lemma OffStep(k: nat, j: nat, adx: nat, ady: nat)
    ensures Off(k + 1, j, adx, ady) == Off(k, j, adx, ady) + ady
    ensures Off(k, j + 1, adx, ady) == Off(k, j, adx, ady) - adx
    ensures Off(k + 1, j + 1, adx, ady) == Off(k, j, adx, ady) + ady - adx
  {
  }

  /** Within half a pixel of the line, along the shorter axis. */
  ghost predicate Close(d: int, adx: int, ady: int) {
    if adx > ady then -adx < 2 * d <= adx else if adx == ady then d == 0 else -ady <= 2 * d < ady
  }

  /** One turn of the loop: the longer axis always moves, the shorter one when that brings the point nearer. */
  lemma Turn(d: int, adx: int, ady: int)
    requires 0 <= adx && 0 <= ady && (adx > 0 || ady > 0) && Close(d, adx, ady)
    ensures var e2 := 2 * (adx - ady - d);
            && -3 * (adx + ady) <= e2 <= 3 * (adx + ady)
            && (adx >= ady ==> e2 > -ady) && (ady >= adx ==> e2 < adx)
            && Close(d + (if e2 > -ady then ady else 0) - (if e2 < adx then adx else 0), adx, ady)
  {
  }

  /** Off by less than a whole unit at a corner means on it. */
  lemma AtEnd(k: nat, j: nat, adx: nat, ady: nat)
    requires Close(Off(k, j, adx, ady), adx, ady) && k <= adx && j <= ady && (adx > 0 || ady > 0)
    ensures adx >= ady && k == adx ==> j == ady
    ensures adx < ady && j == ady ==> k == adx
  {
    TimesSwap(adx, ady);
    if j < ady {
      TimesStep(j, ady, adx);
    }
    if k < adx {
      TimesStep(k, adx, ady);
    }
  }

  /** Neither axis runs past its end. */
  lemma NoOvershoot(k: nat, j: nat, adx: nat, ady: nat)
    requires Close(Off(k, j, adx, ady), adx, ady) && (adx > 0 || ady > 0)
    ensures adx >= ady && k <= adx ==> j <= ady
    ensures adx < ady && j <= ady ==> k <= adx
  {
    TimesSwap(adx, ady);
    if k < adx {
      TimesStep(k, adx, ady);
    } else if k > adx {
      TimesStep(adx, k, ady);
    }
    if j < ady {
      TimesStep(j, ady, adx);
    } else if j > ady {
      TimesStep(ady, j, adx);
    }
  }

  /** A turn of the loop before the end is reached. */
  lemma Move(kx: nat, ky: nat, d: int, adx: nat, ady: nat)
    requires d == Off(kx, ky, adx, ady) && Close(d, adx, ady) && kx <= adx && ky <= ady && !(kx == adx && ky == ady)
    ensures var e2 := 2 * (adx - ady - d);
            var kx', ky' := kx + (if e2 > -(ady as int) then 1 else 0), ky + (if e2 < adx then 1 else 0);
            var d' := d + (if e2 > -(ady as int) then ady else 0) - (if e2 < adx then adx else 0);
            && d' == Off(kx', ky', adx, ady) && Close(d', adx, ady) && kx' <= adx && ky' <= ady
            && (if adx >= ady then kx' == kx + 1 else ky' == ky + 1)
  {
    AtEnd(kx, ky, adx, ady);
    OffStep(kx, ky, adx, ady);
    Turn(d, adx, ady);
    var e2 := 2 * (adx - ady - d);
    NoOvershoot(kx + (if e2 > -(ady as int) then 1 else 0), ky + (if e2 < adx then 1 else 0), adx, ady);
  }

  /** Point number `k` of the line from (x0, y0) to (x1, y1). */
  ghost predicate PointOk(p: Point, k: nat, x0: int, y0: int, x1: int, y1: int) {
    var adx, ady := Abs(x1 - x0), Abs(y1 - y0);
    var kx, ky := Steps(x0, p.x, x1 - x0), Steps(y0, p.y, y1 - y0);
    && 0 <= kx <= adx && 0 <= ky <= ady
    && (if adx >= ady then kx == k && 2 * Abs(Off(kx, ky, adx, ady)) <= adx
        else ky == k && 2 * Abs(Off(kx, ky, adx, ady)) <= ady)
  }

  /** The same, with plain products. */
  ghost predicate NearLine(p: Point, k: nat, x0: int, y0: int, x1: int, y1: int) {
    var adx, ady := Abs(x1 - x0), Abs(y1 - y0);
    var kx, ky := Steps(x0, p.x, x1 - x0), Steps(y0, p.y, y1 - y0);
    && 0 <= kx <= adx && 0 <= ky <= ady
    && (if adx >= ady then kx == k && 2 * Abs(kx * ady - ky * adx) <= adx
        else ky == k && 2 * Abs(kx * ady - ky * adx) <= ady)
  }

  lemma IsNearLine(p: Point, k: nat, x0: int, y0: int, x1: int, y1: int)
    requires PointOk(p, k, x0, y0, x1, y1)
    ensures NearLine(p, k, x0, y0, x1, y1)
  {
    OffIs(Steps(x0, p.x, x1 - x0), Steps(y0, p.y, y1 - y0), Abs(x1 - x0), Abs(y1 - y0));
  }

  lemma AllNearLine(ps: seq<Point>, x0: int, y0: int, x1: int, y1: int)
    requires PointsOk(ps, x0, y0, x1, y1)
    ensures forall k {:trigger ps[k]} :: 0 <= k < |ps| ==> NearLine(ps[k], k, x0, y0, x1, y1)
  {
    forall k | 0 <= k < |ps| ensures NearLine(ps[k], k, x0, y0, x1, y1) {
      IsNearLine(ps[k], k, x0, y0, x1, y1);
    }
  }

  ghost predicate PointsOk(ps: seq<Point>, x0: int, y0: int, x1: int, y1: int) {
    forall k {:trigger ps[k]} :: 0 <= k < |ps| ==> PointOk(ps[k], k, x0, y0, x1, y1)
  }

  /**
    The points plotted: one for each step of the longer axis and one more, from end to end, each within
    half a pixel of the line along the shorter axis and none past either end.
   */
  method GfxLine(x0: int, y0: int, x1: int, y1: int) returns (ps: seq<Point>)
    ensures |ps| == Max(Abs(x1 - x0), Abs(y1 - y0)) + 1
    ensures ps[0] == Point(x0, y0) && ps[|ps| - 1] == Point(x1, y1)
    ensures forall k {:trigger ps[k]} :: 0 <= k < |ps| ==> NearLine(ps[k], k, x0, y0, x1, y1)
  {
    var adx: int, ady: int := Abs(x1 - x0), Abs(y1 - y0);
    var s := Walker(x0, y0, adx - ady, 0, 0);
    assert Off(0, 0, adx, ady) == 0;
    ps := [];
    while true
      invariant At(s, x0, y0, x1, y1) && |ps| == Turns(s, adx, ady) && PointsOk(ps, x0, y0, x1, y1)
      decreases Max(adx, ady) - |ps|
    {
      Placed(ps, s.x, s.y, s.kx, s.ky, x0, y0, x1, y1);
      ps := ps + [Point(s.x, s.y)];
      if s.x == x1 && s.y == y1 {
        FirstPoint(ps[0], x0, y0, x1, y1);
        AllNearLine(ps, x0, y0, x1, y1);
        break;
      }
      s := Step(s, x0, y0, x1, y1);
    }
  }

  /** Steps made along the longer axis. */
  function Turns(s: Walker, adx: nat, ady: nat): nat {
    if adx >= ady then s.kx else s.ky
  }

  /** The rest of a turn: the error term decides which axes move. */
  method Step(s: Walker, x0: int, y0: int, x1: int, y1: int) returns (s': Walker)
    requires At(s, x0, y0, x1, y1) && !(s.x == x1 && s.y == y1)
    ensures At(s', x0, y0, x1, y1)
    ensures Turns(s', Abs(x1 - x0), Abs(y1 - y0)) == Turns(s, Abs(x1 - x0), Abs(y1 - y0)) + 1
  {
    var adx: int, ady: int := Abs(x1 - x0), Abs(y1 - y0);
    s' := s;
    var e2 := 2 * s.err;
    if e2 > -ady {
      s' := s'.(err := s'.err - ady, x := s'.x + Sign(x1 - x0), kx := s'.kx + 1);
    }
    if e2 < adx {
      s' := s'.(err := s'.err + adx, y := s'.y + Sign(y1 - y0), ky := s'.ky + 1);
    }
    MoveAt(s, s', x0, y0, x1, y1);
  }

  /** The loop's variables, the point and the error term, and the steps made along each axis, which decide nothing. */
  datatype Walker = Walker(x: int, y: int, err: int, kx: nat, ky: nat)

  /** The error term is the one that belongs to the point, which is near the line. */
  ghost predicate At(s: Walker, x0: int, y0: int, x1: int, y1: int) {
    var adx, ady := Abs(x1 - x0), Abs(y1 - y0);
    && Steps(x0, s.x, x1 - x0) == s.kx <= adx && Steps(y0, s.y, y1 - y0) == s.ky <= ady
    && s.err == adx - ady - Off(s.kx, s.ky, adx, ady) && Close(Off(s.kx, s.ky, adx, ady), adx, ady)
  }

  lemma MoveAt(s: Walker, s': Walker, x0: int, y0: int, x1: int, y1: int)
    requires At(s, x0, y0, x1, y1) && !(s.x == x1 && s.y == y1)
    requires var adx: int, ady: int := Abs(x1 - x0), Abs(y1 - y0);
             && (if 2 * s.err > -ady then s'.x == s.x + Sign(x1 - x0) && s'.kx == s.kx + 1
                 else s'.x == s.x && s'.kx == s.kx)
             && (if 2 * s.err < adx then s'.y == s.y + Sign(y1 - y0) && s'.ky == s.ky + 1
                 else s'.y == s.y && s'.ky == s.ky)
             && s'.err == s.err - (if 2 * s.err > -ady then ady else 0) + (if 2 * s.err < adx then adx else 0)
    ensures At(s', x0, y0, x1, y1)
    ensures if Abs(x1 - x0) >= Abs(y1 - y0) then s'.kx == s.kx + 1 else s'.ky == s.ky + 1
  {
    var adx, ady := Abs(x1 - x0), Abs(y1 - y0);
    Move(s.kx, s.ky, Off(s.kx, s.ky, adx, ady), adx, ady);
  }

  lemma FirstPoint(p: Point, x0: int, y0: int, x1: int, y1: int)
    requires PointOk(p, 0, x0, y0, x1, y1)
    ensures p == Point(x0, y0)
  {
    var adx, ady := Abs(x1 - x0), Abs(y1 - y0);
    var kx: nat, ky: nat := Steps(x0, p.x, x1 - x0), Steps(y0, p.y, y1 - y0);
    TimesAtLeast(ky, adx);
    TimesAtLeast(kx, ady);
  }

  lemma Placed(ps: seq<Point>, x: int, y: int, kx: nat, ky: nat, x0: int, y0: int, x1: int, y1: int)
    requires Steps(x0, x, x1 - x0) == kx && Steps(y0, y, y1 - y0) == ky && PointsOk(ps, x0, y0, x1, y1)
    requires var adx, ady := Abs(x1 - x0), Abs(y1 - y0);
             kx <= adx && ky <= ady && Close(Off(kx, ky, adx, ady), adx, ady) && |ps| == if adx >= ady then kx else ky
    ensures PointsOk(ps + [Point(x, y)], x0, y0, x1, y1)
  {
    assert PointOk(Point(x, y), |ps|, x0, y0, x1, y1);
  }
}
