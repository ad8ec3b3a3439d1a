/** The display buffer: one bit a pixel, eight rows to a page, and the line rasteriser that draws into it. */
module Oled {
  newtype int32 = n: int | -0x8000_0000 <= n < 0x8000_0000

  const WIDTH: int32 := 128
  const HEIGHT: int32 := 64
  const BUFFER_SIZE := 1024
  /** Coordinates up to here keep all the arithmetic of a line inside 32 bits. */
  const COORD_LIMIT: int32 := 0x1000_0000

  datatype Point = Point(x: int, y: int)

  predicate OnScreen(p: Point) {
    0 <= p.x < 128 && 0 <= p.y < 64
  }

  /** The byte a pixel lives in: pages of eight rows, one byte a column. */
  function Place(p: Point): nat
    requires OnScreen(p)
    ensures Place(p) < BUFFER_SIZE
  {
    p.x + p.y / 8 * 128
  }

  lemma PlaceOf(p: Point)
    requires OnScreen(p)
    ensures Place(p) == p.x + p.y / 8 * 128
  {
  }

  lemma OnePlace(p: Point, q: Point)
    requires OnScreen(p) && OnScreen(q) && Place(p) == Place(q) && p.y % 8 == q.y % 8
    ensures p == q
  {
    assert p.y == p.y / 8 * 8 + p.y % 8;
  }

  // ---- bits --------------------------------------------------------------------------------

  predicate Bit(b: bv8, k: nat)
    requires k < 8
  {
    (b >> k) & 1 == 1
  }

  lemma SetBit(b: bv8, k: nat, m: nat)
    requires k < 8 && m < 8
    ensures Bit(b | (1 << k), m) == (m == k || Bit(b, m))
    ensures Bit(b & !(1 << k), m) == (m != k && Bit(b, m))
  {
    ShiftCases(k);
    ShiftCases(m);
    RightShiftCases(b, m);
    RightShiftCases(b | (1 << k), m);
    RightShiftCases(b & !(1 << k), m);
  }

  lemma ShiftCases(k: nat)
    requires k < 8
    ensures 1 << k == match k
      case 0 => 1 case 1 => 2 case 2 => 4 case 3 => 8 case 4 => 16 case 5 => 32 case 6 => 64 case _ => 128 as bv8
  {
  }

  lemma RightShiftCases(b: bv8, m: nat)
    requires m < 8
    ensures Bit(b, m) == (b & (1 << m) != 0)
  {
    ShiftCases(m);
  }

  // ---- the ideal path ------------------------------------------------------------------------

  function Abs(n: int): nat {
    if n < 0 then -n else n
  }

  function Sign(n: int): int {
    if n > 0 then 1 else -1
  }

  function Steps(p: Point, q: Point): nat {
    Longer(Abs(q.x - p.x), Abs(q.y - p.y))
  }

  function Longer(a: nat, b: nat): nat {
    if a >= b then a else b
  }

  /** n / d rounded to the nearest integer, halves up. */
  function Nearest(n: nat, d: nat): nat {
    if d == 0 then 0 else (2 * n + d) / (2 * d)
  }

  /** Step k of the way from p to q: both coordinates are the ideal ones rounded, counted away from p. */
  function LinePoint(p: Point, q: Point, k: nat): Point {
    Point(p.x + Sign(q.x - p.x) * Nearest(Abs(q.x - p.x) * k, Steps(p, q)),
          p.y + Sign(q.y - p.y) * Nearest(Abs(q.y - p.y) * k, Steps(p, q)))
  }

  ghost predicate OnLine(p: Point, q: Point, steps: nat, r: Point) {
    exists k :: 0 <= k < steps && LinePoint(p, q, k) == r
  }

  lemma DivIff(n: nat, d: nat, r: nat)
    requires d > 0
    ensures r == n / d <==> d * r <= n < d * r + d
  {
    var t := n / d;
    if r < t {
      assert d * r + d == d * (r + 1) <= d * t;
    } else if r > t {
      assert d * r >= d * (t + 1) == d * t + d;
    }
  }

  lemma NearestIff(n: nat, d: nat, r: nat)
    requires d > 0
    ensures r == Nearest(n, d) <==> -(d as int) < 2 * (d * r - n) <= d
  {
    DivIff(2 * n + d, 2 * d, r);
    assert 2 * d * r == 2 * (d * r);
  }

  lemma NearestWhole(d: nat, k: nat)
    requires d > 0
    ensures Nearest(d * k, d) == k
  {
    NearestIff(d * k, d, k);
  }

  lemma LineEnds(p: Point, q: Point)
    ensures LinePoint(p, q, 0) == p
    ensures LinePoint(p, q, Steps(p, q)) == q
  {
    var m, a, b := Steps(p, q), Abs(q.x - p.x), Abs(q.y - p.y);
    if m > 0 {
      NearestIff(0, m, 0);
      NearestWhole(m, a);
      NearestWhole(m, b);
      assert a * m == m * a && b * m == m * b;
    }
  }

  /** Along the longer axis each step advances by one; across it no point is more than half a pixel off. */
  lemma WithinHalfPixel(p: Point, q: Point, k: nat)
    requires k <= Steps(p, q)
    ensures var r := LinePoint(p, q, k); var a, b := Abs(q.x - p.x), Abs(q.y - p.y);
      && (a >= b ==> r.x == p.x + Sign(q.x - p.x) * k && Abs(2 * (a * Abs(r.y - p.y) - b * k)) <= a)
      && (b >= a ==> r.y == p.y + Sign(q.y - p.y) * k && Abs(2 * (b * Abs(r.x - p.x) - a * k)) <= b)
  {
    hide Nearest;
    var a, b := Abs(q.x - p.x), Abs(q.y - p.y);
    if a + b == 0 {
      NearestZero();
    } else if a >= b {
      NearestWhole(a, k);
      HalfOff(b * k, a);
      if a == b { NearestWhole(b, k); }
    } else {
      NearestWhole(b, k);
      HalfOff(a * k, b);
    }
  }

  lemma HalfOff(n: nat, d: nat)
    requires d > 0
    ensures Abs(2 * (d * Nearest(n, d) - n)) <= d
  {
    NearestIff(n, d, Nearest(n, d));
  }

  /** Consecutive points of a line touch. */
  lemma PointsTouch(p: Point, q: Point, k: nat)
    requires k < Steps(p, q)
    ensures var r, s := LinePoint(p, q, k), LinePoint(p, q, k + 1); Abs(s.x - r.x) <= 1 && Abs(s.y - r.y) <= 1
  {
    hide Nearest;
    var a, b, m := Abs(q.x - p.x), Abs(q.y - p.y), Steps(p, q);
    NearestSlow(a, k, m);
    NearestSlow(b, k, m);
  }

  lemma NearestSlow(c: nat, k: nat, m: nat)
    requires 0 < m && c <= m
    ensures Nearest(c * k, m) <= Nearest(c * (k + 1), m) <= Nearest(c * k, m) + 1
  {
    var r, s := Nearest(c * k, m), Nearest(c * (k + 1), m);
    NearestIff(c * k, m, r);
    NearestIff(c * (k + 1), m, s);
    hide Nearest;
    Times(c, k);
    Times(m, r);
    Times(m, r + 1);
    Times(m, s);
    if s > r + 1 {
      Monotone(m, r + 2, s);
    } else if s < r {
      Monotone(m, s + 1, r);
    }
  }

  // ---- the running error -----------------------------------------------------------------------

  /** How far the point is off the ideal line, times the length of the line's longer side. */
  function Gap(a: nat, b: nat, i: nat, j: nat): int {
    a * j - b * i
  }

  /** After i steps in x and j in y, k in all, towards a point a columns and b rows away; `d` is `Gap`. */
  predicate Near(a: nat, b: nat, k: nat, i: nat, j: nat, d: int) {
    if a >= b then i == k && -(a as int) <= 2 * d <= a && (a > 0 ==> -(a as int) < 2 * d)
    else j == k && -(b as int) <= 2 * d < b
  }

  /** Both comparisons with `err` decide rightly: the next point is near the ideal line again. */
  lemma StepStaysNear(a: nat, b: nat, k: nat, i: nat, j: nat, d: int)
    requires Near(a, b, k, i, j, d)
    ensures var err := d + a - b; var across, up := 2 * err >= -(b as int), 2 * err <= a;
      && Near(a, b, k + 1, if across then i + 1 else i, if up then j + 1 else j,
              d - (if across then b else 0) + (if up then a else 0))
      && -3 * Longer(a, b) <= 2 * err <= 3 * Longer(a, b)
  {
  }

  lemma NearIsRounded(a: nat, b: nat, k: nat, i: nat, j: nat)
    requires Near(a, b, k, i, j, Gap(a, b, i, j)) && (a + b == 0 ==> i == j == 0)
    ensures k <= Longer(a, b) ==> i == Nearest(a * k, Longer(a, b)) && j == Nearest(b * k, Longer(a, b)) && i <= a && j <= b
    ensures i == a && j == b ==> k == Longer(a, b)
    ensures k == Longer(a, b) ==> i == a && j == b
  {
    hide Nearest, Gap;
    if a + b == 0 {
      NearestZero();
    } else if a >= b && k <= a {
      NearestWhole(a, k);
      GapAcross(a, b, k, j);
      Within(b, k, a, j);
    } else if a < b && k <= b {
      NearestWhole(b, k);
      GapUp(a, b, i, k);
      Within(a, k, b, i);
    }
  }

  lemma GapAcross(a: nat, b: nat, k: nat, j: nat)
    ensures Gap(a, b, k, j) == a * j - b * k
  {
  }

  lemma GapUp(a: nat, b: nat, i: nat, k: nat)
    ensures Gap(a, b, i, k) == a * k - b * i
  {
  }

  lemma NearestZero()
    ensures Nearest(0, 0) == 0
  {
  }

  lemma Within(c: nat, k: nat, m: nat, r: nat)
    requires k <= m && m > 0 && -(m as int) < 2 * (m * r - c * k) <= m
    ensures r == Nearest(c * k, m) && r <= c && (k == m ==> r == c)
  {
    NearestIff(c * k, m, r);
    hide Nearest;
    Monotone(c, k, m);
    if r > c {
      Monotone(m, c + 1, r);
    } else if r < c && k == m {
      Monotone(m, r + 1, c);
    }
    Times(m, r);
    Times(m, c);
  }

  lemma Monotone(c: nat, k: nat, m: nat)
    requires k <= m
    ensures c * k <= c * m == m * c
  {
  }

  lemma Times(c: nat, n: nat)
    ensures c * (n + 1) == c * n + c
  {
  }

  /** Where the loop is after k steps: on the ideal line, with the error that belongs there. */
  ghost predicate Walk(p: Point, q: Point, k: nat, i: nat, j: nat, err: int) {
    var a, b := Abs(q.x - p.x), Abs(q.y - p.y);
    && i <= a && j <= b && k <= Steps(p, q) && err == Gap(a, b, i, j) + a - b
    && Near(a, b, k, i, j, Gap(a, b, i, j))
  }

  function Moved(p: Point, q: Point, i: nat, j: nat): Point {
    Point(if p.x < q.x then p.x + i else p.x - i, if p.y < q.y then p.y + j else p.y - j)
  }

  lemma WalkStart(p: Point, q: Point)
    ensures Walk(p, q, 0, 0, 0, Abs(q.x - p.x) - Abs(q.y - p.y)) && Moved(p, q, 0, 0) == p
    ensures forall r :: !OnLine(p, q, 0, r)
  {
  }

  lemma WalkHere(p: Point, q: Point, k: nat, i: nat, j: nat, err: int)
    requires Walk(p, q, k, i, j, err)
    ensures Moved(p, q, i, j) == LinePoint(p, q, k)
    ensures Moved(p, q, i, j) == q <==> k == Steps(p, q)
    ensures i <= Abs(q.x - p.x) && j <= Abs(q.y - p.y)
  {
    hide Nearest, Near;
    NearIsRounded(Abs(q.x - p.x), Abs(q.y - p.y), k, i, j);
  }

  lemma WalkNext(p: Point, q: Point, k: nat, i: nat, j: nat, err: int)
    requires Walk(p, q, k, i, j, err) && k < Steps(p, q)
    ensures var a, b := Abs(q.x - p.x), Abs(q.y - p.y);
      var across, up := 2 * err >= -(b as int), 2 * err <= a;
      && -3 * Longer(a, b) <= 2 * err <= 3 * Longer(a, b)
      && Walk(p, q, k + 1, if across then i + 1 else i, if up then j + 1 else j,
              err - (if across then b else 0) + (if up then a else 0))
  {
    hide Near, Nearest, Gap;
    var a, b := Abs(q.x - p.x), Abs(q.y - p.y);
    var i1 := if 2 * err >= -(b as int) then i + 1 else i;
    var j1 := if 2 * err <= a then j + 1 else j;
    var d := Gap(a, b, i, j);
    StepStaysNear(a, b, k, i, j, d);
    GapMoves(a, b, i, j, i1, j1);
    assert Near(a, b, k + 1, i1, j1, Gap(a, b, i1, j1));
    NearInBox(a, b, k + 1, i1, j1);
  }

  lemma NearInBox(a: nat, b: nat, k: nat, i: nat, j: nat)
    requires Near(a, b, k, i, j, Gap(a, b, i, j)) && 0 < k <= Longer(a, b)
    ensures i <= a && j <= b
  {
    NearIsRounded(a, b, k, i, j);
  }

  lemma GapMoves(a: nat, b: nat, i: nat, j: nat, i1: nat, j1: nat)
    requires i <= i1 <= i + 1 && j <= j1 <= j + 1
    ensures Gap(a, b, i1, j1) == Gap(a, b, i, j) - (if i1 == i + 1 then b else 0) + (if j1 == j + 1 then a else 0)
  {
    Times(a, j);
    Times(b, i);
  }

  lemma OnLineNext(p: Point, q: Point, k: nat)
    ensures forall r :: OnLine(p, q, k + 1, r) <==> OnLine(p, q, k, r) || r == LinePoint(p, q, k)
  {
  }

  // ---- drawing ---------------------------------------------------------------------------------

  class Screen {
    const buffer: array<bv8>

    ghost predicate Valid() {
      buffer.Length == BUFFER_SIZE
    }

    constructor ()
      ensures Valid() && fresh(buffer) && forall p :: OnScreen(p) ==> !Lit(p)
    {
      buffer := new bv8[BUFFER_SIZE](_ => 0);
    }

    predicate Lit(p: Point)
      requires Valid() && OnScreen(p)
      reads buffer
    {
      Bit(buffer[Place(p)], p.y % 8)
    }

    /** Eight rows to a page of 128 bytes, one byte a column, the top row in the lowest bit. */
    lemma LitBit(p: Point)
      requires Valid()
      ensures OnScreen(p) <==> 0 <= p.x < 128 && 0 <= p.y < 64
      ensures buffer.Length == 1024
      ensures OnScreen(p) ==> (Lit(p) <==> buffer[p.x + p.y / 8 * 128] & (1 << (p.y % 8)) != 0)
    {
      if OnScreen(p) {
        PlaceOf(p);
        RightShiftCases(buffer[Place(p)], p.y % 8);
      }
    }

    method Pixel(x: int32, y: int32, on: bool)
      requires Valid()
      modifies buffer
      ensures forall p :: OnScreen(p) ==> Lit(p) == if p == Point(x as int, y as int) then on else old(Lit(p))
    {
      if x < 0 || x >= WIDTH || y < 0 || y >= HEIGHT { return; }
      hide Bit, Place;
      ghost var q := Point(x as int, y as int);
      PlaceOf(q);
      var index := x as int + y as int / 8 * 128;
      var k := y as int % 8;
      var b := buffer[index];
      if on {
        buffer[index] := b | (1 << k);
      } else {
        buffer[index] := b & !(1 << k);
      }
      forall p | OnScreen(p)
        ensures Lit(p) == if p == q then on else old(Lit(p))
      {
        PlaceOf(p);
        if Place(p) == Place(q) && p.y % 8 == k { OnePlace(p, q); }
        SetBit(b, k, p.y % 8);
      }
    }

    /** `oled_line` */
    method Line(x0: int32, y0: int32, x1: int32, y1: int32) returns (ghost steps: nat)
      requires Valid()
      requires -COORD_LIMIT <= x0 <= COORD_LIMIT && -COORD_LIMIT <= y0 <= COORD_LIMIT
      requires -COORD_LIMIT <= x1 <= COORD_LIMIT && -COORD_LIMIT <= y1 <= COORD_LIMIT
      modifies buffer
      ensures var p, q := Point(x0 as int, y0 as int), Point(x1 as int, y1 as int);
        && steps == Steps(p, q)
        && forall r :: OnScreen(r) ==> (Lit(r) <==> old(Lit(r)) || OnLine(p, q, steps + 1, r))
    {
      hide LinePoint, OnLine, Lit, Walk;
      ghost var p, q := Point(x0 as int, y0 as int), Point(x1 as int, y1 as int);
      var x, y := x0, y0;
      var dx := if x1 < x0 then x0 - x1 else x1 - x0;
      var sx := if x0 < x1 then 1 else -1;
      var dy := -(if y1 < y0 then y0 - y1 else y1 - y0);
      var sy := if y0 < y1 then 1 else -1;
      var err := dx + dy;
      ghost var i: nat, j: nat := 0, 0;
      steps := 0;
      WalkStart(p, q);
      while true
        invariant Walk(p, q, steps, i, j, err as int) && steps <= Steps(p, q)
        invariant Point(x as int, y as int) == Moved(p, q, i, j)
        invariant forall r :: OnScreen(r) ==> (Lit(r) <==> old(Lit(r)) || OnLine(p, q, steps, r))
        decreases Steps(p, q) - steps
      {
        WalkHere(p, q, steps, i, j, err as int);
        OnLineNext(p, q, steps);
        Pixel(x, y, true);
        if x == x1 && y == y1 { break; }
        WalkNext(p, q, steps, i, j, err as int);
        var e2 := 2 * err;
        if e2 >= dy {
          err := err + dy;
          x := x + sx;
          i := i + 1;
        }
        if e2 <= dx {
          err := err + dx;
          y := y + sy;
          j := j + 1;
        }
        steps := steps + 1;
      }
    }
  }
}
