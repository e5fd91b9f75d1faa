/**
 * The particle background (class ParticleSystem in js/main.js): creation from
 * random draws, the per-frame position update with edge reflection, and the
 * resize handler.  Coordinates and velocities are exact reals standing in for
 * JavaScript numbers; the update only adds, negates and compares, so no
 * rounding behaviour is lost that the rule depends on.  The canvas size is an
 * integer number of pixels, as `window.innerWidth` / `innerHeight` are.
 */
module Particles {

  /** `this.particleCount`. */
  const ParticleCount: nat := 80
  /** Largest speed component a freshly created particle can have. */
  const MaxSpeed: real := 0.25

  datatype Particle = Particle(x: real, y: real, vx: real, vy: real, radius: real)

  /** The particles and the canvas size they bounce in. */
  datatype ParticleSystem = ParticleSystem(particles: seq<Particle>, width: nat, height: nat)

  /** Five successive `Math.random()` results, each in `[0, 1)`, used for one particle. */
  datatype Draw = Draw(rx: real, ry: real, rvx: real, rvy: real, rradius: real)

  function Abs(r: real): real {
    if r < 0.0 then -r else r
  }

  predicate Unit(r: real) {
    0.0 <= r < 1.0
  }

  predicate ValidDraw(d: Draw) {
    Unit(d.rx) && Unit(d.ry) && Unit(d.rvx) && Unit(d.rvy) && Unit(d.rradius)
  }

  /** The reflection test of one axis: the coordinate left `[0, size]`. */
  predicate Outside(c: real, size: nat) {
    c < 0.0 || c > size as real
  }

  /** A random fraction of a non-negative length stays within that length. */
  lemma ScaleWithin(r: real, size: real)
    requires Unit(r) && 0.0 <= size
    ensures 0.0 <= r * size <= size
  {
  }

  /** `Math.random() * size`: a random coordinate on a canvas side of length `size`. */
  function Scale(r: real, size: nat): (c: real)
    requires Unit(r)
    ensures 0.0 <= c <= size as real
  {
    ScaleWithin(r, size as real);
    r * (size as real)
  }

  /** One particle of `createParticles`: position uniform over the canvas, small velocity, radius in `[1, 3)`. */
  function NewParticle(d: Draw, width: nat, height: nat): (p: Particle)
    requires ValidDraw(d)
    ensures 0.0 <= p.x <= width as real
    ensures 0.0 <= p.y <= height as real
    ensures -MaxSpeed <= p.vx < MaxSpeed && -MaxSpeed <= p.vy < MaxSpeed
    ensures 1.0 <= p.radius < 3.0
  {
    Particle(
      Scale(d.rx, width),
      Scale(d.ry, height),
      (d.rvx - 0.5) * 0.5,
      (d.rvy - 0.5) * 0.5,
      d.rradius * 2.0 + 1.0)
  }

  /** The shape every particle keeps for life: radius in `[1, 3)` and speed components at most `MaxSpeed`. */
  predicate Shaped(p: Particle) {
    1.0 <= p.radius < 3.0 && Abs(p.vx) <= MaxSpeed && Abs(p.vy) <= MaxSpeed
  }

  /**
   * The per-axis containment the reflection rule maintains: the coordinate is
   * on the canvas, or one velocity step brings it back onto it.
   */
  predicate Near(c: real, v: real, size: nat) {
    (0.0 <= c <= size as real) || (0.0 <= c + v <= size as real)
  }

  predicate Contained(p: Particle, width: nat, height: nat) {
    Near(p.x, p.vx, width) && Near(p.y, p.vy, height)
  }

  /** What holds of the system from construction on, as long as the canvas keeps its size. */
  predicate Good(s: ParticleSystem) {
    && |s.particles| == ParticleCount
    && (forall i :: 0 <= i < |s.particles| ==> Shaped(s.particles[i]))
    && (forall i :: 0 <= i < |s.particles| ==> Contained(s.particles[i], s.width, s.height))
  }

  /**
   * `setupCanvas` followed by `createParticles`: `particleCount` particles from
   * the random draws, on a canvas of the window's size.  Every created particle
   * starts on the canvas.  The constructor then runs one `animate()` frame, so
   * the system it returns is `Step(Create(..))`, which `StepKeepsGood` keeps `Good`.
   */
  function Create(draws: seq<Draw>, width: nat, height: nat): (s: ParticleSystem)
    requires |draws| == ParticleCount
    requires forall i :: 0 <= i < |draws| ==> ValidDraw(draws[i])
    ensures Good(s)
    ensures s.width == width && s.height == height
    ensures forall i :: 0 <= i < |s.particles| ==>
      0.0 <= s.particles[i].x <= width as real && 0.0 <= s.particles[i].y <= height as real
  {
    ParticleSystem(seq(|draws|, i requires 0 <= i < |draws| => NewParticle(draws[i], width, height)), width, height)
  }

  /**
   * One particle's update in `animate()`: move by the velocity, then negate a
   * velocity component whose new coordinate is off the canvas, each axis on
   * its own.  Speeds and the radius never change.
   */
  function Move(p: Particle, width: nat, height: nat): (q: Particle)
    ensures q.x == p.x + p.vx && q.y == p.y + p.vy
    ensures Outside(q.x, width) ==> q.vx == -p.vx
    ensures !Outside(q.x, width) ==> q.vx == p.vx
    ensures Outside(q.y, height) ==> q.vy == -p.vy
    ensures !Outside(q.y, height) ==> q.vy == p.vy
    ensures Abs(q.vx) == Abs(p.vx) && Abs(q.vy) == Abs(p.vy)
    ensures q.radius == p.radius
  {
    var x := p.x + p.vx;
    var y := p.y + p.vy;
    var vx := if Outside(x, width) then -p.vx else p.vx;
    var vy := if Outside(y, height) then -p.vy else p.vy;
    Particle(x, y, vx, vy, p.radius)
  }

  /** The update loop of `animate()` over all particles; the drawing is not modelled. */
  function Step(s: ParticleSystem): (r: ParticleSystem)
    ensures |r.particles| == |s.particles|
    ensures r.width == s.width && r.height == s.height
    ensures forall i :: 0 <= i < |s.particles| ==> r.particles[i] == Move(s.particles[i], s.width, s.height)
  {
    s.(particles := seq(|s.particles|, i requires 0 <= i < |s.particles| => Move(s.particles[i], s.width, s.height)))
  }

  /** `handleResize()`: the canvas takes the window's new size; no particle is touched. */
  function Resize(s: ParticleSystem, width: nat, height: nat): (r: ParticleSystem)
    ensures r.particles == s.particles
    ensures r.width == width && r.height == height
    ensures width == s.width && height == s.height ==> r == s
  {
    s.(width := width, height := height)
  }

  /** `n` animation frames without a resize. */
  function Frames(s: ParticleSystem, n: nat): ParticleSystem
    decreases n
  {
    if n == 0 then s else Frames(Step(s), n - 1)
  }

  /** The reflection rule keeps one axis within one velocity step of `[0, size]`. */
  lemma NearPreserved(c: real, v: real, size: nat)
    requires Near(c, v, size)
    ensures var c' := c + v;
      Near(c', if Outside(c', size) then -v else v, size)
  {
  }

  /** A particle within one velocity step of the canvas stays so after a move. */
  lemma MoveKeepsContained(p: Particle, width: nat, height: nat)
    requires Contained(p, width, height)
    ensures Contained(Move(p, width, height), width, height)
  {
  }

  /** One frame keeps the system `Good`. */
  lemma StepKeepsGood(s: ParticleSystem)
    requires Good(s)
    ensures Good(Step(s))
  {
  }

  /**
   * For all time without a resize: the particle count stays `particleCount`,
   * radii and speeds keep their creation bounds, the canvas size is unchanged,
   * and every particle is on the canvas or one velocity step from it.
   */
  lemma {:induction false} FramesKeepGood(s: ParticleSystem, n: nat)
    requires Good(s)
    ensures Good(Frames(s, n))
    ensures Frames(s, n).width == s.width && Frames(s, n).height == s.height
    decreases n
  {
    if n > 0 {
      StepKeepsGood(s);
      FramesKeepGood(Step(s), n - 1);
    }
  }

  /** How far a coordinate lies beyond `[0, size]`. */
  function Overshoot(c: real, size: nat): (o: real)
    ensures o >= 0.0
    ensures o == 0.0 <==> 0.0 <= c <= size as real
  {
    if c < 0.0 then -c else if c > size as real then c - size as real else 0.0
  }

  /** Containment means a particle is never more than one velocity step off the canvas. */
  lemma NearBoundsOvershoot(c: real, v: real, size: nat)
    requires Near(c, v, size)
    ensures Overshoot(c, size) <= Abs(v)
  {
  }

  /**
   * A particle just inside the right edge moving right: the first frame takes
   * it past the edge and reverses it, the second brings it back where it was.
   */
  lemma ReflectionAtRightEdge(p: Particle, width: nat, height: nat)
    requires width >= 1 && p.x == width as real - 0.1 && p.vx == 1.0
    ensures Move(p, width, height).x == width as real + 0.9
    ensures Move(p, width, height).vx == -1.0
    ensures Move(Move(p, width, height), width, height).x == width as real - 0.1
    ensures Move(Move(p, width, height), width, height).vx == -1.0
  {
  }

  /**
   * After the canvas shrinks, a particle beyond the right edge that is still
   * beyond it after one step is trapped there: its x-velocity flips on every
   * frame, so every two frames it is back at the same x with the same x-velocity.
   */
  lemma TrappedBeyondRightEdge(p: Particle, width: nat, height: nat)
    requires p.x > width as real && p.x + p.vx > width as real
    ensures var q := Move(Move(p, width, height), width, height);
      q.x == p.x && q.vx == p.vx
  {
  }
}
