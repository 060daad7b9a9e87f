/** One animation frame of the decorative bubbles (`animateBubbles`, repeated verbatim
    as `animateFooterBubbles`): advance, clamp with reflection, and the push away from
    the pointer. Coordinates are container-relative pixels, as reals. */
module Bubbles {

  /** One bubble's state: top-left position, velocity per frame, the radius fixed at
      creation (half its larger side) and its fixed speed. */
  datatype Bubble = Bubble(x: real, y: real, dx: real, dy: real, r: real, speed: real)

  /** A width and a height, measured again every frame (the container's rectangle,
      a bubble's `offsetWidth` and `offsetHeight`). */
  datatype Size = Size(width: real, height: real)

  /** The pointer, relative to the container's top-left corner. */
  datatype Point = Point(x: real, y: real)

  /** The extra distance, beyond its radius, at which a bubble flees the pointer. */
  const RepulsionMargin: real := 24.0

  /** Where the pointer is put when it leaves the container. */
  const Sentinel: Point := Point(-1000.0, -1000.0)

  /** One axis of the frame: move by `v`, then if below 0 put at 0 and flip `v`, then if
      above `limit` put at `limit` and flip `v` (again). */
  function AxisStep(p: real, v: real, limit: real): (res: (real, real))
    ensures res.0 <= limit
    ensures 0.0 <= limit ==> 0.0 <= res.0
    ensures res.1 == v || res.1 == -v
    ensures 0.0 <= p + v <= limit ==> res == (p + v, v)
    ensures p + v < 0.0 <= limit ==> res == (0.0, -v)
    ensures 0.0 <= p + v && limit < p + v ==> res == (limit, -v)
    ensures p + v < 0.0 && limit < 0.0 ==> res == (limit, v)
  {
    var q := p + v;
    var low := if q < 0.0 then (0.0, -v) else (q, v);
    if low.0 > limit then (limit, -low.1) else low
  }

  /** The advance-and-clamp part of a frame, both axes, within `[0, W - w] x [0, H - h]`. */
  function Advance(b: Bubble, box: Size, size: Size): (a: Bubble)
    ensures a.r == b.r && a.speed == b.speed
    ensures a.x <= box.width - size.width && a.y <= box.height - size.height
    ensures size.width <= box.width ==> 0.0 <= a.x
    ensures size.height <= box.height ==> 0.0 <= a.y
    ensures a.dx == b.dx || a.dx == -b.dx
    ensures a.dy == b.dy || a.dy == -b.dy
  {
    var (x, dx) := AxisStep(b.x, b.dx, box.width - size.width);
    var (y, dy) := AxisStep(b.y, b.dy, box.height - size.height);
    b.(x := x, y := y, dx := dx, dy := dy)
  }

  /** The offset from the pointer to the bubble's centre. */
  function Offset(b: Bubble, size: Size, mouse: Point): (real, real)
  {
    (b.x + size.width / 2.0 - mouse.x, b.y + size.height / 2.0 - mouse.y)
  }

  /** `Math.hypot(ox, oy) < r + 24`, compared on squares: both sides are exact reals and
      the hypotenuse is never negative. */
  predicate TooClose(b: Bubble, size: Size, mouse: Point)
    ensures TooClose(b, size, mouse) ==> 0.0 < b.r + RepulsionMargin
  {
    var (ox, oy) := Offset(b, size, mouse);
    var reach := b.r + RepulsionMargin;
    0.0 < reach && ox * ox + oy * oy < reach * reach
  }

  /** The push: when too close, the velocity becomes `speed` times the direction `heading`
      gives for the offset (the `cos`/`sin` of its `atan2`), and the position moves by
      twice that velocity, with no clamp afterwards. */
  function Repel(b: Bubble, size: Size, mouse: Point, heading: (real, real) -> (real, real)): (p: Bubble)
    ensures p.r == b.r && p.speed == b.speed
    ensures !TooClose(b, size, mouse) ==> p == b
    ensures TooClose(b, size, mouse) ==>
              var (ux, uy) := heading(Offset(b, size, mouse).0, Offset(b, size, mouse).1);
              p.dx == ux * b.speed && p.dy == uy * b.speed &&
              p.x == b.x + 2.0 * p.dx && p.y == b.y + 2.0 * p.dy
  {
    if TooClose(b, size, mouse) then
      var (ox, oy) := Offset(b, size, mouse);
      var (ux, uy) := heading(ox, oy);
      var dx, dy := ux * b.speed, uy * b.speed;
      b.(x := b.x + dx * 2.0, y := b.y + dy * 2.0, dx := dx, dy := dy)
    else
      b
  }

  /** One bubble's whole frame: radius and speed are kept, and a bubble that is not
      pushed ends it within `[0, W - w] x [0, H - h]` (when the box holds it). */
  function FrameStep(b: Bubble, box: Size, size: Size, mouse: Point, heading: (real, real) -> (real, real)): (next: Bubble)
    ensures next.r == b.r && next.speed == b.speed
    ensures !TooClose(Advance(b, box, size), size, mouse) ==>
              next.x <= box.width - size.width && next.y <= box.height - size.height &&
              (size.width <= box.width ==> 0.0 <= next.x) &&
              (size.height <= box.height ==> 0.0 <= next.y)
  {
    Repel(Advance(b, box, size), size, mouse, heading)
  }

  /** The larger of two lengths. */
  function Max(a: real, c: real): (m: real)
    ensures a <= m && c <= m && (m == a || m == c)
  {
    if a < c then c else a
  }

  /** With the pointer absent, a bubble inside the container whose radius is at most
      half its larger side, as the bubbles are created, is never pushed: its centre lies
      beyond that half-side plus 1000 px from the sentinel on one axis. */
  lemma SentinelOutOfReach(b: Bubble, size: Size)
    requires 0.0 <= b.x && 0.0 <= b.y && 0.0 <= size.width && 0.0 <= size.height
    requires b.r <= Max(size.width, size.height) / 2.0
    ensures !TooClose(b, size, Sentinel)
  {
    var (ox, oy) := Offset(b, size, Sentinel);
    var reach := b.r + RepulsionMargin;
    if 0.0 < reach {
      if size.height <= size.width {
        assert reach < ox;
        SquareLess(reach, ox);
        SquareNonNegative(oy);
      } else {
        assert reach < oy;
        SquareLess(reach, oy);
        SquareNonNegative(ox);
      }
    }
  }

  /** A pointer that is too close lies strictly within `r + 24` of the centre on each
      axis. */
  lemma TooCloseWithinReach(b: Bubble, size: Size, mouse: Point)
    requires TooClose(b, size, mouse)
    ensures var (ox, oy) := Offset(b, size, mouse);
            var reach := b.r + RepulsionMargin;
            -reach < ox < reach && -reach < oy < reach
  {
    var (ox, oy) := Offset(b, size, mouse);
    var reach := b.r + RepulsionMargin;
    var ax, ay := if ox < 0.0 then -ox else ox, if oy < 0.0 then -oy else oy;
    assert ax * ax == ox * ox && ay * ay == oy * oy;
    SquareNonNegative(ox);
    SquareNonNegative(oy);
    if reach <= ax {
      SquareAtLeast(reach, ax);
    }
    if reach <= ay {
      SquareAtLeast(reach, ay);
    }
  }

  /** With the pointer absent, a frame only advances, clamps and reflects. */
  lemma AbsentPointerOnlyReflects(b: Bubble, box: Size, size: Size, heading: (real, real) -> (real, real))
    requires 0.0 <= size.width <= box.width && 0.0 <= size.height <= box.height
    requires b.r <= Max(size.width, size.height) / 2.0
    ensures FrameStep(b, box, size, Sentinel, heading) == Advance(b, box, size)
  {
    SentinelOutOfReach(Advance(b, box, size), size);
  }

  /** A push replaces the velocity by one of magnitude `speed` when the heading is a
      unit vector. */
  lemma RepelSetsSpeed(b: Bubble, size: Size, mouse: Point, heading: (real, real) -> (real, real))
    requires TooClose(b, size, mouse)
    requires var (ux, uy) := heading(Offset(b, size, mouse).0, Offset(b, size, mouse).1);
             ux * ux + uy * uy == 1.0
    ensures var p := Repel(b, size, mouse, heading);
            p.dx * p.dx + p.dy * p.dy == b.speed * b.speed
  {
    var (ux, uy) := heading(Offset(b, size, mouse).0, Offset(b, size, mouse).1);
    var s := b.speed;
    calc {
      (ux * s) * (ux * s) + (uy * s) * (uy * s);
      (ux * ux + uy * uy) * (s * s);
      s * s;
    }
  }

  /** With the true heading, a positive multiple of the offset, the new velocity points
      away from the pointer. */
  lemma RepelMovesAway(b: Bubble, size: Size, mouse: Point, heading: (real, real) -> (real, real), k: real)
    requires TooClose(b, size, mouse) && 0.0 < b.speed && 0.0 < k
    requires Offset(b, size, mouse) != (0.0, 0.0)
    requires heading(Offset(b, size, mouse).0, Offset(b, size, mouse).1) ==
             (k * Offset(b, size, mouse).0, k * Offset(b, size, mouse).1)
    ensures var p := Repel(b, size, mouse, heading);
            var (ox, oy) := Offset(b, size, mouse);
            p.dx * ox + p.dy * oy > 0.0
  {
    var p := Repel(b, size, mouse, heading);
    var (ox, oy) := Offset(b, size, mouse);
    var s := b.speed;
    var ks, q := k * s, ox * ox + oy * oy;
    SquareNonNegative(ox);
    SquareNonNegative(oy);
    if ox != 0.0 {
      SquarePositive(ox);
    } else {
      SquarePositive(oy);
    }
    PositiveProduct(k, s);
    PositiveProduct(ks, q);
    assert p.dx == (k * ox) * s && p.dy == (k * oy) * s;
    calc {
      p.dx * ox + p.dy * oy;
      ((k * ox) * s) * ox + ((k * oy) * s) * oy;
      ks * (ox * ox) + ks * (oy * oy);
      ks * q;
    }
  }

  lemma PositiveProduct(a: real, c: real)
    requires 0.0 < a && 0.0 < c
    ensures 0.0 < a * c
  {
  }

  lemma SquarePositive(a: real)
    requires a != 0.0
    ensures 0.0 < a * a
  {
    if 0.0 < a {
      PositiveProduct(a, a);
    } else {
      PositiveProduct(-a, -a);
      assert (-a) * (-a) == a * a;
    }
  }

  lemma SquareNonNegative(a: real)
    ensures 0.0 <= a * a
  {
    if a != 0.0 {
      SquarePositive(a);
    }
  }

  lemma SquareAtLeast(a: real, c: real)
    requires 0.0 < a <= c
    ensures a * a <= c * c
  {
    if a < c {
      SquareLess(a, c);
    }
  }

  lemma SquareLess(a: real, c: real)
    requires 0.0 < a < c
    ensures a * a < c * c
  {
    PositiveProduct(a, c - a);
    PositiveProduct(c, c - a);
    assert a * (c - a) == a * c - a * a;
    assert c * (c - a) == c * c - a * c;
  }

  /** The push is not followed by a clamp: pushed toward the wall it touches, a bubble
      ends the frame outside the container. */
  lemma PushCanLeaveContainer(heading: (real, real) -> (real, real))
    requires heading(-5.0, 0.0) == (-1.0, 0.0)
    ensures FrameStep(Bubble(0.0, 50.0, -1.0, 0.0, 5.0, 1.0), Size(100.0, 100.0), Size(10.0, 10.0),
                      Point(10.0, 55.0), heading).x == -2.0
  {
    var a := Advance(Bubble(0.0, 50.0, -1.0, 0.0, 5.0, 1.0), Size(100.0, 100.0), Size(10.0, 10.0));
    assert a == Bubble(0.0, 50.0, 1.0, 0.0, 5.0, 1.0);
    assert Offset(a, Size(10.0, 10.0), Point(10.0, 55.0)) == (-5.0, 0.0);
    assert TooClose(a, Size(10.0, 10.0), Point(10.0, 55.0));
  }

  /** `n` frames against the same container, sizes and pointer. */
  function Frames(b: Bubble, box: Size, size: Size, mouse: Point, heading: (real, real) -> (real, real), n: nat): (e: Bubble)
    ensures e.r == b.r && e.speed == b.speed
  {
    if n == 0 then b else FrameStep(Frames(b, box, size, mouse, heading, n - 1), box, size, mouse, heading)
  }

  /** While the pointer stays away and the container holds the bubble, every frame leaves
      it inside `[0, W - w] x [0, H - h]` and its velocity components keep their magnitude. */
  lemma {:induction false} AbsentPointerKeepsBubbleInside(b: Bubble, box: Size, size: Size, heading: (real, real) -> (real, real), n: nat)
    requires 0.0 <= size.width <= box.width && 0.0 <= size.height <= box.height
    requires b.r <= Max(size.width, size.height) / 2.0
    ensures var e := Frames(b, box, size, Sentinel, heading, n);
            e.r == b.r && e.speed == b.speed &&
            (e.dx == b.dx || e.dx == -b.dx) && (e.dy == b.dy || e.dy == -b.dy) &&
            (n > 0 ==> 0.0 <= e.x <= box.width - size.width && 0.0 <= e.y <= box.height - size.height)
  {
    if n > 0 {
      var prev := Frames(b, box, size, Sentinel, heading, n - 1);
      AbsentPointerKeepsBubbleInside(b, box, size, heading, n - 1);
      AbsentPointerOnlyReflects(prev, box, size, heading);
    }
  }

  /** The body of the frame loop for one bubble, statement by statement. */
  method StepBubble(b: Bubble, box: Size, size: Size, mouse: Point, heading: (real, real) -> (real, real))
    returns (next: Bubble)
    ensures next == FrameStep(b, box, size, mouse, heading)
  {
    var w, h := size.width, size.height;
    var x, y, dx, dy := b.x + b.dx, b.y + b.dy, b.dx, b.dy;
    if x < 0.0 { x := 0.0; dx := -dx; }
    if y < 0.0 { y := 0.0; dy := -dy; }
    if x > box.width - w { x := box.width - w; dx := -dx; }
    if y > box.height - h { y := box.height - h; dy := -dy; }
    next := b.(x := x, y := y, dx := dx, dy := dy);
    assert next == Advance(b, box, size);
    if TooClose(next, size, mouse) {
      var (ox, oy) := Offset(next, size, mouse);
      var (ux, uy) := heading(ox, oy);
      dx := ux * b.speed;
      dy := uy * b.speed;
      x := x + dx * 2.0;
      y := y + dy * 2.0;
      next := b.(x := x, y := y, dx := dx, dy := dy);
    }
  }

  /** The frame callback: re-measured container `box`, this frame's bubble `sizes`, the
      pointer and the heading. Each bubble is updated in order, only from its own state. */
  method AnimateFrame(bubbles: array<Bubble>, box: Size, sizes: seq<Size>, mouse: Point, heading: (real, real) -> (real, real))
    requires |sizes| == bubbles.Length
    modifies bubbles
    ensures forall i | 0 <= i < bubbles.Length :: bubbles[i] == FrameStep(old(bubbles[i]), box, sizes[i], mouse, heading)
  {
    for i := 0 to bubbles.Length
      invariant forall k | 0 <= k < i :: bubbles[k] == FrameStep(old(bubbles[k]), box, sizes[k], mouse, heading)
      invariant forall k | i <= k < bubbles.Length :: bubbles[k] == old(bubbles[k])
    {
      bubbles[i] := StepBubble(bubbles[i], box, sizes[i], mouse, heading);
    }
  }
}
