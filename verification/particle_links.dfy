/**
 * The connection pass of `ParticleSystem.animate()` in js/main.js: every
 * unordered pair of particles closer than `connectionDistance` gets a line
 * whose stroke alpha fades linearly with the distance.
 *
 * The real numbers have no square root, so "distance < connectionDistance"
 * is decided on squared lengths (`dx*dx + dy*dy < c*c`); `SquaredTestAgrees`
 * shows this is the same decision for the true, non-negative distance, and
 * the alpha is a function of that distance taken as given.
 */
module ParticleLinks {
  import opened Particles

  /** `this.connectionDistance`. */
  const ConnectionDistance: real := 150.0
  /** The stroke alpha of a line between two coinciding particles. */
  const MaxAlpha: real := 0.3

  /** A line drawn between particles `i` and `j` of the collection, `i < j`. */
  datatype Link = Link(i: nat, j: nat)

  /** `dx * dx + dy * dy` for the two particles' positions. */
  function Distance2(p: Particle, q: Particle): (d2: real)
    ensures d2 >= 0.0
  {
    var dx := p.x - q.x;
    var dy := p.y - q.y;
    dx * dx + dy * dy
  }

  /**
   * The edge test `distance < connectionDistance`, on squared lengths.  Two
   * close particles are less than `connectionDistance` apart on each axis, and
   * a particle is close to any particle at its own position.
   */
  predicate Close(p: Particle, q: Particle)
    ensures Close(p, q) ==> Abs(p.x - q.x) < ConnectionDistance && Abs(p.y - q.y) < ConnectionDistance
    ensures p.x == q.x && p.y == q.y ==> Close(p, q)
  {
    AxisWithin(p, q);
    Distance2(p, q) < ConnectionDistance * ConnectionDistance
  }

  /** A vector shorter than `connectionDistance` is shorter than it on each axis. */
  lemma AxisWithin(p: Particle, q: Particle)
    ensures Distance2(p, q) < ConnectionDistance * ConnectionDistance ==>
      Abs(p.x - q.x) < ConnectionDistance && Abs(p.y - q.y) < ConnectionDistance
  {
    var dx, dy := p.x - q.x, p.y - q.y;
    assert Distance2(p, q) == dx * dx + dy * dy;
    if Abs(dx) >= ConnectionDistance {
      assert dx * dx == Abs(dx) * Abs(dx) >= ConnectionDistance * Abs(dx) >= ConnectionDistance * ConnectionDistance;
    }
    if Abs(dy) >= ConnectionDistance {
      assert dy * dy == Abs(dy) * Abs(dy) >= ConnectionDistance * Abs(dy) >= ConnectionDistance * ConnectionDistance;
    }
  }

  /** `d` is the Euclidean distance whose square is `d2`. */
  predicate IsRoot(d: real, d2: real) {
    d >= 0.0 && d * d == d2
  }

  /** Swapping the two particles changes neither the squared distance nor the edge decision. */
  lemma CloseSymmetric(p: Particle, q: Particle)
    ensures Distance2(p, q) == Distance2(q, p)
    ensures Close(p, q) <==> Close(q, p)
  {
  }

  /** Comparing squares decides `d < connectionDistance` for a non-negative distance. */
  lemma SquaredTestAgrees(d: real, d2: real)
    requires IsRoot(d, d2)
    ensures d < ConnectionDistance <==> d2 < ConnectionDistance * ConnectionDistance
  {
    var c := ConnectionDistance;
    if d < c {
      assert d * d <= d * c;
      assert d * c < c * c;
    } else {
      assert d * d >= c * d;
      assert c * d >= c * c;
    }
  }

  /** The edge decision of `animate()` for the true distance `d` agrees with `Close`. */
  lemma CloseMeansWithinDistance(p: Particle, q: Particle, d: real)
    requires IsRoot(d, Distance2(p, q))
    ensures Close(p, q) <==> d < ConnectionDistance
  {
    SquaredTestAgrees(d, Distance2(p, q));
  }

  /** `(1 - distance / connectionDistance) * 0.3`, the stroke alpha of a line of length `d`. */
  function StrokeAlpha(d: real): (a: real)
    ensures 0.0 <= d < ConnectionDistance ==> 0.0 < a <= MaxAlpha
    ensures d == 0.0 ==> a == MaxAlpha
    ensures d == ConnectionDistance ==> a == 0.0
  {
    (1.0 - d / ConnectionDistance) * MaxAlpha
  }

  /** Longer lines are strictly fainter. */
  lemma StrokeAlphaDecreasing(d1: real, d2: real)
    requires d1 < d2
    ensures StrokeAlpha(d1) > StrokeAlpha(d2)
  {
  }

  /** `a` is visited before `b` in the `i`-then-`j` order of the nested loops. */
  predicate Before(a: Link, b: Link) {
    a.i < b.i || (a.i == b.i && a.j < b.j)
  }

  /** Every link joins two distinct, close particles of `ps`, the lower index first. */
  predicate Sound(links: seq<Link>, ps: seq<Particle>) {
    forall k :: 0 <= k < |links| ==>
      links[k].i < links[k].j < |ps| && Close(ps[links[k].i], ps[links[k].j])
  }

  /** The links are listed in strictly increasing visiting order. */
  predicate Ordered(links: seq<Link>) {
    forall k1, k2 :: 0 <= k1 < k2 < |links| ==> Before(links[k1], links[k2])
  }

  /**
   * The nested `i < j` loops of `animate()`: the result lists exactly the close
   * unordered pairs, each once, in the order the loops visit them.
   */
  method Connections(ps: seq<Particle>) returns (links: seq<Link>)
    ensures Sound(links, ps)
    ensures forall a, b :: 0 <= a < b < |ps| && Close(ps[a], ps[b]) ==> Link(a, b) in links
    ensures Ordered(links)
  {
    var n := |ps|;
    links := [];
    var i := 0;
    while i < n
      invariant 0 <= i <= n
      invariant Sound(links, ps) && Ordered(links)
      invariant forall k :: 0 <= k < |links| ==> links[k].i < i
      invariant forall a, b :: 0 <= a < i && a < b < n && Close(ps[a], ps[b]) ==> Link(a, b) in links
    {
      var row := ConnectRow(ps, i, links);
      assert forall l :: l in links ==> l in row;
      links := row;
      i := i + 1;
    }
  }

  /**
   * The inner loop for particle `i`: appends, in order of `j`, a link to every
   * close particle `j > i`, keeping what earlier rows found.
   */
  method ConnectRow(ps: seq<Particle>, i: nat, links0: seq<Link>) returns (links: seq<Link>)
    requires i < |ps|
    requires Sound(links0, ps) && Ordered(links0)
    requires forall k :: 0 <= k < |links0| ==> links0[k].i < i
    ensures Sound(links, ps) && Ordered(links)
    ensures links0 <= links
    ensures forall k :: 0 <= k < |links| ==> links[k].i <= i
    ensures forall b :: i < b < |ps| && Close(ps[i], ps[b]) ==> Link(i, b) in links
  {
    var n := |ps|;
    links := links0;
    var j := i + 1;
    while j < n
      invariant i + 1 <= j <= n
      invariant Sound(links, ps) && Ordered(links)
      invariant links0 <= links
      invariant forall k :: 0 <= k < |links| ==> Before(links[k], Link(i, j))
      invariant forall b :: i < b < j && Close(ps[i], ps[b]) ==> Link(i, b) in links
    {
      if Close(ps[i], ps[j]) {
        links := links + [Link(i, j)];
      }
      j := j + 1;
    }
  }

  /** No pair is linked twice: the visiting order is strict. */
  lemma ConnectionsDistinct(links: seq<Link>)
    requires Ordered(links)
    ensures forall k1, k2 :: 0 <= k1 < k2 < |links| ==> links[k1] != links[k2]
  {
  }

  /** One frame of `animate()`: move every particle, then link the moved particles. */
  method Animate(s: ParticleSystem) returns (next: ParticleSystem, links: seq<Link>)
    ensures next == Step(s)
    ensures |next.particles| == |s.particles|
    ensures Sound(links, next.particles) && Ordered(links)
    ensures forall a, b :: 0 <= a < b < |next.particles| && Close(next.particles[a], next.particles[b]) ==>
      Link(a, b) in links
  {
    next := Step(s);
    links := Connections(next.particles);
  }
}
