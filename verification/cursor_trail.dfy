/**
 * The cursor trail (class CursorTrail in js/main.js): `maxCoords` points, the
 * first set by the mouse, each later one easing 30% of the way towards its
 * predecessor on every animation frame.  Writing the points into the circles'
 * `left`/`top` styles and the frame re-scheduling are not modelled.
 */
module CursorTrail {

  /** `this.maxCoords`. */
  const MaxCoords: nat := 20

  datatype Point = Point(x: real, y: real)

  /** `createTrail()`: `maxCoords` points, all at the origin. */
  function CreateTrail(): (coords: seq<Point>)
    ensures |coords| == MaxCoords
    ensures forall i :: 0 <= i < |coords| ==> coords[i] == Point(0.0, 0.0)
  {
    seq(MaxCoords, _ => Point(0.0, 0.0))
  }

  /** The `mousemove` listener: the head of the trail jumps to the pointer, nothing else moves. */
  function MouseMove(coords: seq<Point>, clientX: real, clientY: real): (r: seq<Point>)
    requires |coords| > 0
    ensures |r| == |coords|
    ensures r[0] == Point(clientX, clientY)
    ensures r[1..] == coords[1..]
  {
    coords[0 := Point(clientX, clientY)]
  }

  /** `v` lies on the closed segment between `a` and `b`. */
  predicate Between(a: real, b: real, v: real) {
    (a <= v <= b) || (b <= v <= a)
  }

  /**
   * One coordinate's update, `c += (prev - c) * 0.3`: it lands between where
   * it was and the predecessor's coordinate, with the gap cut to 70%.
   */
  function Approach(c: real, prev: real): (r: real)
    ensures Between(c, prev, r)
    ensures r - prev == 0.7 * (c - prev)
  {
    c + (prev - c) * 0.3
  }

  /** One point's update: both coordinates approach the predecessor's. */
  function Follow(p: Point, prev: Point): (q: Point)
    ensures Between(p.x, prev.x, q.x) && Between(p.y, prev.y, q.y)
    ensures q.x - prev.x == 0.7 * (p.x - prev.x)
    ensures q.y - prev.y == 0.7 * (p.y - prev.y)
  {
    Point(Approach(p.x, prev.x), Approach(p.y, prev.y))
  }

  /**
   * The intended frame update, stated pointwise: the head stays, every other
   * point follows the position its predecessor had before the frame.
   */
  function Followed(coords: seq<Point>): (r: seq<Point>)
  {
    seq(|coords|, i requires 0 <= i < |coords| => if i == 0 then coords[0] else Follow(coords[i], coords[i - 1]))
  }

  /**
   * `animate()`: the loop runs from the tail to the head, updating the array in
   * place; because the predecessor `i - 1` is updated only after `i`, every
   * point follows its predecessor's value from before the frame.
   */
  method Animate(coords: seq<Point>) returns (r: seq<Point>)
    ensures r == Followed(coords)
    ensures |r| == |coords|
    ensures |coords| > 0 ==> r[0] == coords[0]
    ensures forall i :: 0 < i < |coords| ==> r[i] == Follow(coords[i], coords[i - 1])
  {
    var a := new Point[|coords|](k requires 0 <= k < |coords| => coords[k]);
    var i := a.Length - 1;
    while i > 0
      invariant if a.Length == 0 then i == -1 else 0 <= i < a.Length
      invariant forall k :: 0 <= k <= i && k < a.Length ==> a[k] == coords[k]
      invariant forall k :: i < k < a.Length && 0 < k ==> a[k] == Follow(coords[k], coords[k - 1])
      decreases i
    {
      a[i] := Follow(a[i], a[i - 1]);
      i := i - 1;
    }
    r := a[..];
    forall k | 0 <= k < |r|
      ensures r[k] == Followed(coords)[k]
    {
      if k > 0 {
        assert r[k] == Follow(coords[k], coords[k - 1]);
      }
    }
  }

  /** An axis-aligned box `[minX, maxX] x [minY, maxY]`. */
  datatype Box = Box(minX: real, maxX: real, minY: real, maxY: real)

  predicate InBox(p: Point, b: Box) {
    b.minX <= p.x <= b.maxX && b.minY <= p.y <= b.maxY
  }

  predicate AllInBox(coords: seq<Point>, b: Box) {
    forall i :: 0 <= i < |coords| ==> InBox(coords[i], b)
  }

  /** A frame never carries the trail outside any box that held it before. */
  lemma FrameStaysInBox(coords: seq<Point>, b: Box)
    requires AllInBox(coords, b)
    ensures AllInBox(Followed(coords), b)
  {
  }

  /** `0.7^n`: the share of a gap left after `n` frames. */
  function Remaining(n: nat): (f: real)
    ensures 0.0 < f <= 1.0
  {
    if n == 0 then 1.0 else 0.7 * Remaining(n - 1)
  }

  /**
   * One more frame in front of a run: if the run leaves `f` of the gap
   * `c - head` and the frame cut the original gap `p - head` to `0.7` of it,
   * then `0.7 * f` of the original gap is left.
   */
  lemma GapShrinks(a: real, head: real, c: real, p: real, f: real)
    requires a - head == f * (c - head)
    requires c - head == 0.7 * (p - head)
    ensures a - head == (0.7 * f) * (p - head)
  {
  }

  /** `n` animation frames without mouse movement. */
  function Frames(coords: seq<Point>, n: nat): seq<Point>
    decreases n
  {
    if n == 0 then coords else Frames(Followed(coords), n - 1)
  }

  /** Frames keep the length of the trail and the position of its head. */
  lemma {:induction false} FramesKeepHead(coords: seq<Point>, n: nat)
    ensures |Frames(coords, n)| == |coords|
    ensures |coords| > 0 ==> Frames(coords, n)[0] == coords[0]
    decreases n
  {
    if n > 0 {
      FramesKeepHead(Followed(coords), n - 1);
    }
  }

  /** A point following a resting predecessor for `n` frames. */
  function Chase(p: Point, head: Point, n: nat): Point
    decreases n
  {
    if n == 0 then p else Chase(Follow(p, head), head, n - 1)
  }

  /** One coordinate approaching a resting target for `n` frames. */
  function ApproachN(c: real, target: real, n: nat): real
    decreases n
  {
    if n == 0 then c else ApproachN(Approach(c, target), target, n - 1)
  }

  /** While the target rests, a coordinate's offset from it shrinks to `0.7^n` in `n` frames. */
  lemma {:induction false} ApproachConverges(c: real, target: real, n: nat)
    ensures ApproachN(c, target, n) - target == Remaining(n) * (c - target)
    decreases n
  {
    if n > 0 {
      var c' := Approach(c, target);
      ApproachConverges(c', target, n - 1);
      GapShrinks(ApproachN(c', target, n - 1), target, c', c, Remaining(n - 1));
    }
  }

  /** Chasing a resting head is approaching it on each axis separately. */
  lemma {:induction false} ChaseByAxis(p: Point, head: Point, n: nat)
    ensures Chase(p, head, n) == Point(ApproachN(p.x, head.x, n), ApproachN(p.y, head.y, n))
    decreases n
  {
    if n > 0 {
      ChaseByAxis(Follow(p, head), head, n - 1);
    }
  }

  /** While its predecessor rests, a point's offset from it shrinks to `0.7^n` in `n` frames. */
  lemma ChaseConverges(p: Point, head: Point, n: nat)
    ensures Chase(p, head, n).x - head.x == Remaining(n) * (p.x - head.x)
    ensures Chase(p, head, n).y - head.y == Remaining(n) * (p.y - head.y)
  {
    ChaseByAxis(p, head, n);
    ApproachConverges(p.x, head.x, n);
    ApproachConverges(p.y, head.y, n);
  }

  /** While the mouse rests, the first follower of the trail chases the resting head. */
  lemma {:induction false} FirstFollowerChasesHead(coords: seq<Point>, n: nat)
    requires |coords| >= 2
    ensures |Frames(coords, n)| == |coords|
    ensures Frames(coords, n)[1] == Chase(coords[1], coords[0], n)
    decreases n
  {
    FramesKeepHead(coords, n);
    if n > 0 {
      var c := Followed(coords);
      assert c[0] == coords[0] && c[1] == Follow(coords[1], coords[0]);
      FirstFollowerChasesHead(c, n - 1);
    }
  }

  /**
   * While the mouse rests, the first follower closes in on the head
   * geometrically: after `n` frames its offset is `0.7^n` of the initial one.
   */
  lemma {:induction false} FirstFollowerConverges(coords: seq<Point>, n: nat)
    requires |coords| >= 2
    ensures |Frames(coords, n)| == |coords|
    ensures Frames(coords, n)[1].x - coords[0].x == Remaining(n) * (coords[1].x - coords[0].x)
    ensures Frames(coords, n)[1].y - coords[0].y == Remaining(n) * (coords[1].y - coords[0].y)
  {
    FirstFollowerChasesHead(coords, n);
    ChaseConverges(coords[1], coords[0], n);
  }
}
