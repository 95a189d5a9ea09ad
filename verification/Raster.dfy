/** Lines and circles on the screen. */
module Raster {
  import opened Arithmetic
  import opened Words

  datatype Point = Point(x: int, y: int)

  // ----- lines -----

  /** How far p is off the line, times the length of the longer side. */
  function Off(a: Point, b: Point, p: Point): int {
    (b.x - a.x) * (p.y - a.y) - (b.y - a.y) * (p.x - a.x)
  }

  function Span(a: Point, b: Point): nat { Max(Abs(b.x - a.x), Abs(b.y - a.y)) }

  /** Within half a pixel, measured along the shorter side. */
  predicate Near(a: Point, b: Point, p: Point) { 2 * Abs(Off(a, b, p)) <= Span(a, b) }

  function Transposed(p: Point): Point { Point(p.y, p.x) }

  lemma NearTransposed(a: Point, b: Point, p: Point)
    ensures Near(Transposed(a), Transposed(b), Transposed(p)) == Near(a, b, p)
  {
    assert Off(Transposed(a), Transposed(b), Transposed(p)) == -Off(a, b, p);
  }

  lemma NearReversed(a: Point, b: Point, p: Point)
    ensures Near(b, a, p) == Near(a, b, p)
  {
    var u, v, x, y := b.x - a.x, b.y - a.y, p.x - a.x, p.y - a.y;
    assert Off(b, a, p) == -u * (y - v) + v * (x - u);
    assert -u * (y - v) + v * (x - u) == -(u * y - v * x);
    assert Off(b, a, p) == -Off(a, b, p);
  }

  /** One pixel for each place along the longer side, each next to the one before. */
  predicate Path(px: seq<Point>) {
    forall k :: 0 <= k < |px| - 1 ==> Max(Abs(px[k + 1].x - px[k].x), Abs(px[k + 1].y - px[k].y)) == 1
  }

  predicate OnWords(p: Point) { -32768 <= p.x < 32768 && -32768 <= p.y < 32768 }

  function Transposes(a: Point, b: Point): bool { Abs(b.y - a.y) > Abs(b.x - a.x) }

  /** Ends whose distance is a word, and of which none is the last along the longer
      side: from there the loop could not go on (`LoopEnds`). */
  predicate OnGrid(a: Point, b: Point) {
    && OnWords(a) && OnWords(b) && Span(a, b) <= 32767
    && (if Transposes(a, b) then Max(a.y, b.y) else Max(a.x, b.x)) < 32767
  }

  /** A word that is counted up n times. */
  function CountedUp(x: Int16, n: nat): Int16 {
    if n == 0 then x else Short(CountedUp(x, n - 1) + 1)
  }

  lemma {:induction false} CountedUpTo(x: Int16, n: nat)
    requires x + n < 32768
    ensures CountedUp(x, n) == x + n
  {
    if n > 0 {
      CountedUpTo(x, n - 1);
    }
  }

  /** Counting x0 up ends the loop over x0 <= x1 just when x1 is not the last word. */
  lemma LoopEnds(x0: Int16, x1: Int16)
    requires x0 <= x1
    ensures (exists n: nat :: CountedUp(x0, n) > x1) <==> x1 < 32767
  {
    if x1 < 32767 {
      var n: int := x1 + 1 - x0;
      CountedUpTo(x0, n);
      assert CountedUp(x0, n) > x1;
    }
  }

  /** drawLine: the pixels in the order in which they are drawn. */
  method DrawLine(a: Point, b: Point) returns (px: seq<Point>)
    requires OnGrid(a, b)
    ensures |px| == Span(a, b) + 1 && Path(px)
    ensures {px[0], px[|px| - 1]} == {a, b}
    ensures forall k :: 0 <= k < |px| ==> Near(a, b, px[k])
  {
    hide Near, Off;
    var p, q := a, b;
    var steep := Transposes(p, q);
    if steep {
      p, q := Transposed(p), Transposed(q);
    }
    if p.x > q.x {
      p, q := q, p;
    }
    px := Trace(p, q, steep);
    forall k | 0 <= k < |px| ensures Near(a, b, px[k]) {
      NearTransposed(a, b, Transposed(px[k]));
      NearTransposed(a, b, px[k]);
      NearReversed(Transposed(a), Transposed(b), Transposed(px[k]));
      NearReversed(a, b, px[k]);
    }
  }

  /** The loop, for a line that is no steeper than it is long. */
  method Trace(a: Point, b: Point, steep: bool) returns (px: seq<Point>)
    requires OnWords(a) && OnWords(b) && a.x <= b.x < 32767 && Abs(b.y - a.y) <= b.x - a.x <= 32767
    ensures |px| == b.x - a.x + 1 && Path(px)
    ensures px[0] == Turned(a, steep) && px[|px| - 1] == Turned(b, steep)
    ensures forall k :: 0 <= k < |px| ==> Near(a, b, Turned(px[k], steep))
  {
    hide Near, Path, Drift, Beside, Drawn;
    var x0: Int16, y0: Int16 := a.x, a.y;
    var dx: Int16 := b.x - a.x;
    var dy: Int16 := Abs(b.y - a.y);
    var err: Int16 := dx / 2;
    var ystep: Int16 := if a.y < b.y then 1 else -1;
    px := [];
    ghost var up, e := 0, 0;         // steps taken along the shorter side, and where that leaves us
    DriftNone(dx, dy);
    DrawnNone(a, b, steep);
    while x0 <= b.x
      invariant |px| == x0 - a.x <= dx + 1 && 0 <= up
      invariant y0 == Short(Across(a, b, up)) && up <= (if |px| <= dx then dy else dy + 1)
      invariant up <= |px| && (dx == 0 ==> up == 0)
      invariant Drift(dx, dy, |px|, up, e) && err == dx / 2 - e && 0 <= err && (err < dx || dx == 0)
      invariant Drawn(a, b, steep, px) && Beside(px, x0, Across(a, b, up), steep)
      invariant |px| == dx + 1 ==> px[dx] == Turned(b, steep)
    {
      ghost var k := |px|;
      NearBy(a, b, k, up, e);
      if k == dx {
        LastUp(dx, dy, up, e);
      }
      var pixel := if steep then Point(y0, x0) else Point(x0, y0);
      DrawnOn(a, b, steep, px, Point(x0, y0));
      px := px + [pixel];
      err := err - dy;
      DriftNext(dx, dy, k, up, e);
      e := e + dy;
      ghost var y1 := y0;
      if err < 0 {
        y0 := Short(y0 + ystep);
        err := err + dx;
        up := up + 1;
        e := e - dx;
      }
      UpAtMost(dx, dy, k + 1, up, e);
      x0 := x0 + 1;
      BesideNow(px, y1, x0, Across(a, b, up), steep);
    }
    DrawnIs(a, b, steep, px);
  }

  /** up steps along the shorter side. */
  function Across(a: Point, b: Point, up: int): int { if a.y < b.y then a.y + up else a.y - up }

  function Turned(p: Point, steep: bool): Point { if steep then Transposed(p) else p }

  /** What holds of the pixels so far. */
  ghost predicate Drawn(a: Point, b: Point, steep: bool, px: seq<Point>) {
    && Path(px) && (|px| > 0 ==> px[0] == Turned(a, steep))
    && forall k :: 0 <= k < |px| ==> Near(a, b, Turned(px[k], steep))
  }

  lemma DrawnNone(a: Point, b: Point, steep: bool)
    ensures Drawn(a, b, steep, []) && Beside([], a.x, a.y, steep)
  {
  }

  lemma DrawnOn(a: Point, b: Point, steep: bool, px: seq<Point>, p: Point)
    requires Drawn(a, b, steep, px) && Near(a, b, p) && Beside(px, p.x, p.y, steep) && (px == [] ==> p == a)
    ensures Drawn(a, b, steep, px + [Turned(p, steep)])
  {
    hide Near;
  }

  lemma DrawnIs(a: Point, b: Point, steep: bool, px: seq<Point>)
    requires Drawn(a, b, steep, px)
    ensures Path(px) && (|px| > 0 ==> px[0] == Turned(a, steep))
    ensures forall k :: 0 <= k < |px| ==> Near(a, b, Turned(px[k], steep))
  {
    hide Near;
  }

  /** A pixel at x and y will touch the last one. */
  predicate Beside(px: seq<Point>, x: int, y: int, steep: bool) {
    px != [] ==> var q := Turned(px[|px| - 1], steep); q.x == x - 1 && Abs(y - q.y) <= 1
  }

  lemma BesideNow(px: seq<Point>, y: int, x': int, y': int, steep: bool)
    requires px != [] && px[|px| - 1] == (if steep then Point(y, x' - 1) else Point(x' - 1, y)) && Abs(y' - y) <= 1
    ensures Beside(px, x', y', steep)
  {
  }

  /** k places along and up steps across, e is the distance still to make up, times dx. */
  ghost predicate Drift(dx: int, dy: int, k: int, up: int, e: int) { e == k * dy - up * dx }

  lemma DriftNone(dx: int, dy: int)
    ensures Drift(dx, dy, 0, 0, 0)
  {
  }

  lemma DriftNext(dx: int, dy: int, k: int, up: int, e: int)
    requires Drift(dx, dy, k, up, e)
    ensures Drift(dx, dy, k + 1, up, e + dy) && Drift(dx, dy, k + 1, up + 1, e + dy - dx)
  {
  }

  /** The error term bounds the distance from the line. */
  lemma NearBy(a: Point, b: Point, k: nat, up: nat, e: int)
    requires a.x <= b.x && Abs(b.y - a.y) <= b.x - a.x
    requires var dx, dy := b.x - a.x, Abs(b.y - a.y);
             Drift(dx, dy, k, up, e) && 0 <= dx / 2 - e && (dx / 2 - e < dx || dx == 0)
    ensures Near(a, b, Point(a.x + k, Across(a, b, up)))
  {
    hide Off, Drift;
    OffIs(a, b, k, up, e);
    if b.x == a.x {
      DriftZero(k, up, e);
    }
  }

  lemma DriftZero(k: int, up: int, e: int)
    requires Drift(0, 0, k, up, e)
    ensures e == 0
  {
  }

  lemma OffIs(a: Point, b: Point, k: int, up: int, e: int)
    requires Drift(b.x - a.x, Abs(b.y - a.y), k, up, e)
    ensures Off(a, b, Point(a.x + k, Across(a, b, up))) == if a.y < b.y then -e else e
  {
    hide Off;
    if a.y < b.y {
      OffAt(a, b, k, up);
      Negative(b.x - a.x, up, b.y - a.y, k);
    } else {
      OffAt(a, b, k, -up);
      Negative(b.x - a.x, up, b.y - a.y, k);
    }
  }

  lemma OffAt(a: Point, b: Point, k: int, v: int)
    ensures Off(a, b, Point(a.x + k, a.y + v)) == (b.x - a.x) * v - (b.y - a.y) * k
  {
    var p := Point(a.x + k, a.y + v);
    assert p.y - a.y == v && p.x - a.x == k;
  }

  lemma Negative(d: int, v: int, h: int, k: int)
    ensures d * v == v * d && d * -v == -(v * d) && h * k == k * h == -(k * -h)
  {
  }

  /** The shorter side is never overstepped by more than one. */
  lemma UpAtMost(dx: nat, dy: nat, k: nat, up: nat, e: int)
    requires Drift(dx, dy, k, up, e) && 0 <= dx / 2 - e && (dx / 2 - e < dx || dx == 0) && dy <= dx && k <= dx + 1
    requires dx == 0 ==> up == 0
    ensures up <= if k <= dx then dy else dy + 1
  {
    var most := if k <= dx then dy else dy + 1;
    MulMono(k, if k <= dx then dx else dx + 1, dy);
    assert (dx + 1) * dy == dx * dy + dy && dx * (dy + 1) == dx * dy + dx;
    assert dx * (up - most) == up * dx - dx * most;
    if up > most && dx > 0 {
      MulAtLeast(dx, up - most);
    }
  }

  /** At the far end all the steps have been taken. */
  lemma LastUp(dx: nat, dy: nat, up: nat, e: int)
    requires Drift(dx, dy, dx, up, e) && 0 <= dx / 2 - e && (dx / 2 - e < dx || dx == 0) && dy <= dx && up <= dx
    ensures up == dy
  {
    if dx > 0 {
      assert e == dx * (dy - up) == -(dx * (up - dy));
      if dy > up {
        MulAtLeast(dx, dy - up);
      } else if up > dy {
        MulAtLeast(dx, up - dy);
      }
    }
  }

  // ----- circles -----

  /** The four mirror images of (u, v), and those of (v, u). */
  predicate Mirrors(c: Point, q: Point, p: Point) {
    var u, v := Abs(p.x - c.x), Abs(p.y - c.y);
    (u == Abs(q.x) && v == Abs(q.y)) || (u == Abs(q.y) && v == Abs(q.x))
  }

  function Four(c: Point, r: int): seq<Point> {
    [Point(c.x, c.y + r), Point(c.x, c.y - r), Point(c.x + r, c.y), Point(c.x - r, c.y)]
  }

  function Eight(c: Point, q: Point): seq<Point> {
    [Point(c.x + q.x, c.y + q.y), Point(c.x - q.x, c.y + q.y), Point(c.x + q.x, c.y - q.y), Point(c.x - q.x, c.y - q.y),
     Point(c.x + q.y, c.y + q.x), Point(c.x - q.y, c.y + q.x), Point(c.x + q.y, c.y - q.x), Point(c.x - q.y, c.y - q.x)]
  }

  lemma FourMirror(c: Point, r: int, p: Point)
    ensures p in Four(c, r) <==> Mirrors(c, Point(0, r), p)
  {
  }

  lemma EightMirror(c: Point, q: Point, p: Point)
    ensures p in Eight(c, q) <==> Mirrors(c, q, p)
  {
  }

  /** Exactly the mirror images of the points of one octant. */
  ghost predicate Covers(c: Point, octant: seq<Point>, px: seq<Point>) {
    forall p :: p in px <==> exists k :: 0 <= k < |octant| && Mirrors(c, octant[k], p)
  }

  lemma CoversFirst(c: Point, r: int)
    ensures Covers(c, [Point(0, r)], Four(c, r))
  {
    hide Mirrors, Four;
    forall p ensures p in Four(c, r) <==> exists k :: 0 <= k < 1 && Mirrors(c, [Point(0, r)][k], p) {
      FourMirror(c, r, p);
      assert [Point(0, r)][0] == Point(0, r);
    }
  }

  lemma CoversMore(c: Point, octant: seq<Point>, px: seq<Point>, q: Point)
    requires Covers(c, octant, px)
    ensures Covers(c, octant + [q], px + Eight(c, q))
  {
    hide Mirrors, Eight;
    var more := octant + [q];
    forall p ensures p in px + Eight(c, q) <==> exists k :: 0 <= k < |more| && Mirrors(c, more[k], p) {
      EightMirror(c, q, p);
      assert more[|octant|] == q;
      if p in px {
        var k :| 0 <= k < |octant| && Mirrors(c, octant[k], p);
        assert more[k] == octant[k];
      }
    }
  }

  function Error(r: int, u: int, v: int): int { u * u + v * v - r * r }

  /** No further off the circle than the larger coordinate. */
  predicate Close(r: int, u: int, v: int) { Abs(Error(r, u, v)) <= Max(Abs(u), Abs(v)) }

  lemma CloseMirrors(r: int, c: Point, q: Point, p: Point)
    requires Close(r, q.x, q.y) && Mirrors(c, q, p)
    ensures Close(r, p.x - c.x, p.y - c.y)
  {
    SquareAbs(p.x - c.x);
    SquareAbs(p.y - c.y);
    SquareAbs(q.x);
    SquareAbs(q.y);
  }

  lemma SquareAbs(v: int)
    ensures Abs(v) * Abs(v) == v * v
  {
  }

  /** One octant: a step across each time, at most one step down, until the diagonal is reached. */
  ghost predicate Arc(r: int, octant: seq<Point>) {
    && octant != [] && octant[0] == Point(0, r)
    && (forall k :: 0 <= k < |octant| ==> octant[k].x == k)
    && (forall k :: 0 <= k < |octant| - 1 ==> octant[k].x < octant[k].y)
    && (forall k :: 0 <= k < |octant| - 1 ==> octant[k + 1].y == octant[k].y || octant[k + 1].y == octant[k].y - 1)
  }

  /** The pixels that points come out as: coordinates are cut to words. */
  function Pixels(ps: seq<Point>): (px: seq<Point>)
    ensures |px| == |ps|
  {
    seq(|ps|, i requires 0 <= i < |ps| => Point(Short(ps[i].x), Short(ps[i].y)))
  }

  lemma PixelsConcat(a: seq<Point>, b: seq<Point>)
    ensures Pixels(a + b) == Pixels(a) + Pixels(b)
  {
    hide Short;
  }

  /** drawCircle: the pixels in the order in which they are drawn, and the points meant. */
  method DrawCircle(c: Point, r: int) returns (px: seq<Point>, ghost ps: seq<Point>, ghost octant: seq<Point>)
    requires -16383 <= r <= 16384
    ensures Arc(r, octant) && octant[|octant| - 1].x >= octant[|octant| - 1].y
    ensures px == Pixels(ps) && Covers(c, octant, ps)
    ensures forall p :: p in ps ==> Close(r, p.x - c.x, p.y - c.y)
  {
    hide Covers, Close, Eight, Four, Error, Arc, Pixels, Short;
    var f: Int16 := 1 - r;
    var ddFx: Int16 := 1;
    var ddFy: Int16 := -2 * r;
    var x: Int16, y: Int16 := 0, r;
    px, ps := Pixels(Four(c, r)), Four(c, r);
    octant := [Point(0, r)];
    CoversFirst(c, r);
    CloseFirst(r);
    ArcFirst(r);
    while x < y
      invariant 0 <= x <= y + 1 || (x == 0 && y == r)
      invariant y <= r && ddFx == 2 * x + 1 && ddFy == -2 * y
      invariant f == Error(r, x, y) + 2 * x + 1 - y
      invariant Close(r, x, y) && Covers(c, octant, ps) && px == Pixels(ps) && Arc(r, octant)
      invariant octant != [] && octant[|octant| - 1] == Point(x, y)
      invariant forall k :: 0 <= k < |octant| ==> Close(r, octant[k].x, octant[k].y)
    {
      CloseNext(r, x, y);
      if f >= 0 {
        y := y - 1;
        ddFy := ddFy + 2;
        f := f + ddFy;
      }
      x := x + 1;
      ddFx := ddFx + 2;
      f := f + ddFx;
      CoversMore(c, octant, ps, Point(x, y));
      PixelsConcat(ps, Eight(c, Point(x, y)));
      ArcMore(r, octant, Point(x, y));
      px := px + Pixels(Eight(c, Point(x, y)));
      ps := ps + Eight(c, Point(x, y));
      octant := octant + [Point(x, y)];
    }
    forall p | p in ps ensures Close(r, p.x - c.x, p.y - c.y) {
      var k := CoveredBy(c, octant, ps, p);
      CloseMirrors(r, c, octant[k], p);
    }
  }

  lemma CoveredBy(c: Point, octant: seq<Point>, px: seq<Point>, p: Point) returns (k: nat)
    requires Covers(c, octant, px) && p in px
    ensures k < |octant| && Mirrors(c, octant[k], p)
  {
    hide Mirrors;
    k :| 0 <= k < |octant| && Mirrors(c, octant[k], p);
  }

  lemma CloseFirst(r: int)
    ensures Close(r, 0, r) && Error(r, 0, r) == 0
  {
  }

  lemma ArcFirst(r: int)
    ensures Arc(r, [Point(0, r)])
  {
  }

  lemma ArcMore(r: int, octant: seq<Point>, q: Point)
    requires Arc(r, octant)
    requires var p := octant[|octant| - 1]; p.x < p.y && q.x == p.x + 1 && (q.y == p.y || q.y == p.y - 1)
    ensures Arc(r, octant + [q])
  {
  }

  /** The decision term f keeps the next point close, and stays within a word. */
  lemma CloseNext(r: int, x: nat, y: nat)
    requires Close(r, x, y) && x < y <= r <= 16384
    ensures var f := Error(r, x, y) + 2 * x + 1 - y;
            var y' := if f >= 0 then y - 1 else y;
            && Close(r, x + 1, y')
            && Error(r, x + 1, y') == (if f >= 0 then f - y' else f + y')
            && x < 12000 && -32768 <= Error(r, x + 1, y') + 2 * x + 3 - y' < 32768
  {
    assert (x + 1) * (x + 1) == x * x + 2 * x + 1;
    assert (y - 1) * (y - 1) == y * y - 2 * y + 1;
    NearDiagonal(r, x, y);
  }

  lemma NearDiagonal(r: int, x: nat, y: nat)
    requires Error(r, x, y) <= y && x < y <= r <= 16384
    ensures x < 12000
  {
    MulMono(r, 16384, r);
    MulMono(r, 16384, 16384);
    assert y * y - y == (y - 1) * y;
    if x >= 12000 {
      MulMono(12000, x, 12000);
      MulMono(12000, x, x);
      MulMono(12000, y - 1, 12000);
      MulMono(12000, y - 1, y);
    }
  }
}
