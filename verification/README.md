# Portfolio page interactivity, modelled in Dafny

The portfolio page's script `js/main.js` drives a few small animations. This
project models the discrete logic inside them as pure step functions over
immutable values and proves what each step promises:

- **TypeWriter** (`typewriter.dfy`): the typing effect. A state is the word
  list, the pause `wait`, the text shown so far, the word counter and the mode
  (typing or deleting). `Type` is one call of `type()`: it returns the next
  state and the delay before the next call. With an empty word list
  `type()` throws, and the model returns a failure. Over any run, the text after
  each call is a prefix of the current word. The counter only ever grows, by at
  most one per call. A whole cycle (type the word out, delete it) takes
  `2 * max(1, |word|)` calls and ends in the same situation for the next word.
  A character here is a Unicode code point (see "## Left out").
- **Particles** (`particles.dfy`): the particle background. Particles are
  created from the `Math.random()` values they consume. `Move` is one particle's
  per-frame update with edge reflection, `Step` is the update loop, and
  `Resize` is the resize handler. As long as the canvas keeps its size, every
  particle stays on the canvas or within one velocity step of it. The particle
  count, the radii and the speed bounds also never change.
- **ParticleLinks** (`particle_links.dfy`): the connection pass. The nested
  `i < j` loops find exactly the close unordered pairs, each once, in visiting
  order. The edge test is symmetric. The stroke alpha lies in `(0, 0.3]` for
  drawn edges and falls strictly as the distance grows.
- **CursorTrail** (`cursor_trail.dfy`): the cursor trail. The mouse sets the
  head; on each frame every later point moves 30% of the way toward its
  predecessor. The in-place descending loop uses each predecessor's value from
  before the frame. Points stay between their old position and their
  predecessor's. While the mouse rests, the first follower's offset from the
  head shrinks to `0.7^n` after `n` frames.
- **NavLinks** (`nav_links.dfy`): active-link highlighting. For an intersecting
  section `id`, exactly the links whose `href` is `#id` are active. After a
  batch of observer entries, the last intersecting entry decides.

Numbers are modelled as exact `real`s. The particle and trail updates only add,
negate, compare and scale by constants, so exact arithmetic is a faithful
stand-in for the rules as written; rounding is not modelled. Dafny's reals have
no square root, so the edge test `distance < connectionDistance` is decided on
squared lengths. `ParticleLinks.SquaredTestAgrees` shows this is the same
decision for the true non-negative distance. The canvas size is a whole number
of pixels (`window.innerWidth`, `window.innerHeight`), so it is a `nat`.

## Particles after a resize

One might expect the reflection rule to push particles that a shrinking resize
left outside the canvas back in. The code does not do that. A particle whose x and x + vx both lie beyond the new width has its
x-velocity flipped on every frame, so it oscillates in place outside the canvas
forever. `Particles.TrappedBeyondRightEdge` states this. The model follows the
code. The containment invariant `Particles.Good` is proved only for runs
without a resize.

## Model

| member | source | states |
|---|---|---|
| `TypeWriter.Type` | js/main.js:285-313 | fails exactly when the word list is empty; otherwise keeps words and pause, leaves the text a prefix of the current word, and raises the counter by at most one. From the state before the call it decides the case: typing on (one more character, delay 100), completing the word (full word, deleting mode, delay `wait`), deleting on (one character less, delay 50), or finishing the deletion (empty text, typing mode, next word, delay 500) |
| `TypeWriter.Create` | js/main.js:275-283 | the constructor's first `type()` fails exactly for an empty word list; otherwise it keeps the words and the pause `wait` and starts at word 0. For a first word of two or more characters it shows that word's first character in typing mode after delay 100. A first word of at most one character is already complete: the text is the whole word, the mode is deleting and the delay is `wait` |
| `TypeWriter.RunInvariant` | js/main.js:303-310 | over any number of calls, words and pause stay fixed, the word counter never decreases and grows at most one per call, and after at least one call the text is a prefix of the current word |
| `TypeWriter.TypingPhase` | js/main.js:289-305 | typing from the first `k` characters reaches the full word, now in deleting mode, after exactly `n - k` calls, `n` the word's length |
| `TypeWriter.DeletingPhase` | js/main.js:289-310 | deleting from the first `k >= 1` characters reaches the empty text, typing mode and the next word after exactly `k` calls |
| `TypeWriter.CycleEmptyWord` | js/main.js:303-310 | an empty word is "completed" on the first call and "deleted" on the second, landing on the next word |
| `TypeWriter.CycleToNextWord` | js/main.js:285-313 | from an empty text in typing mode, exactly `2 * max(1, n)` calls later, `n` the word's length, the effect is in the same situation for the next word |
| `Particles.Scale` | js/main.js:32-33 | a random fraction of a canvas side lies within `[0, side]` |
| `Particles.NewParticle` | js/main.js:31-37 | a created particle lies on the canvas, has speed components in `[-0.25, 0.25)` and a radius in `[1, 3)` |
| `Particles.Create` | js/main.js:29-39 | the constructor's particles number `particleCount`, keep the canvas size, start on the canvas and satisfy the lifetime invariant `Good` |
| `Particles.Move` | js/main.js:46-51 | the position advances by the velocity; each velocity component is negated exactly when the new coordinate on its own axis is off the canvas and kept otherwise; speeds and the radius are unchanged |
| `Particles.Step` | js/main.js:45-51 | one frame keeps the particle count and canvas size and applies `Move` to every particle independently |
| `Particles.Resize` | js/main.js:82-85 | a resize changes only the stored canvas size, leaves every particle untouched, and is a no-op for the current size |
| `Particles.NearPreserved` | js/main.js:46-51 | with the canvas size fixed, "on the canvas or one velocity step from it" on one axis survives a move with reflection |
| `Particles.MoveKeepsContained` | js/main.js:46-51 | a particle contained on both axes stays contained after its move |
| `Particles.StepKeepsGood` | js/main.js:45-51 | one frame preserves the invariant: count `particleCount`, radius and speed bounds, containment |
| `Particles.FramesKeepGood` | js/main.js:45-51 | any number of frames without a resize preserves the invariant and the canvas size |
| `Particles.NearBoundsOvershoot` | js/main.js:46-51 | a contained coordinate is never further off the canvas than its velocity's magnitude |
| `Particles.ReflectionAtRightEdge` | js/main.js:46-50 | a particle at `width - 0.1` moving right at 1 goes to `width + 0.9` with velocity -1, then back to `width - 0.1` |
| `Particles.TrappedBeyondRightEdge` | js/main.js:46-50 | a particle with x and x + vx both beyond the width returns to the same x and x-velocity every two frames |
| `ParticleLinks.Distance2` | js/main.js:63-65 | the squared distance is non-negative |
| `ParticleLinks.Close` | js/main.js:63-67 | an edge joins two particles less than `connectionDistance` apart on each axis, and a particle at the same position as another is always joined to it |
| `ParticleLinks.CloseSymmetric` | js/main.js:63-67 | the squared distance and the edge decision do not depend on the order of the two particles |
| `ParticleLinks.SquaredTestAgrees` | js/main.js:65-67 | for a non-negative distance, `d < 150` holds exactly when `d*d < 150*150` |
| `ParticleLinks.CloseMeansWithinDistance` | js/main.js:63-67 | the squared-length test draws an edge exactly when the true distance is below `connectionDistance` |
| `ParticleLinks.StrokeAlpha` | js/main.js:68-70 | the alpha of a drawn edge (`0 <= d < 150`) lies in `(0, 0.3]`; it is 0.3 at distance 0 and 0 at distance 150 |
| `ParticleLinks.StrokeAlphaDecreasing` | js/main.js:68-70 | a longer edge is strictly fainter |
| `ParticleLinks.Connections` | js/main.js:61-77 | every listed link joins two close particles with `i < j`; every close pair is listed; links are in strictly increasing loop order |
| `ParticleLinks.ConnectRow` | js/main.js:62-76 | the inner loop for particle `i` keeps earlier links and appends, in order, a link to every close `j > i` |
| `ParticleLinks.ConnectionsDistinct` | js/main.js:61-62 | links listed in loop order are pairwise distinct, so no pair is drawn twice |
| `ParticleLinks.Animate` | js/main.js:41-80 | a frame moves every particle and then links exactly the close pairs of the moved particles, each once |
| `CursorTrail.CreateTrail` | js/main.js:224-240 | the trail has `maxCoords` (20) points, all at the origin |
| `CursorTrail.MouseMove` | js/main.js:243-246 | the head takes the pointer position; the length and every other point stay unchanged |
| `CursorTrail.Approach` | js/main.js:253 | one coordinate lands between its old value and the predecessor's, with the gap cut to 70% |
| `CursorTrail.Follow` | js/main.js:253-254 | a point lands between its old position and its predecessor on each axis, with the gap to the predecessor cut to 70% |
| `CursorTrail.Animate` | js/main.js:251-258 | the tail-to-head in-place loop keeps the length and the head, and moves every later point toward its predecessor's value from before the frame |
| `CursorTrail.FrameStaysInBox` | js/main.js:252-255 | a frame never carries the trail outside a box that contained it before |
| `CursorTrail.ApproachConverges` | js/main.js:253 | a coordinate approaching a resting target keeps `0.7^n` of its offset after `n` frames |
| `CursorTrail.ChaseByAxis` | js/main.js:253-254 | a point chasing a resting head moves on each axis independently |
| `CursorTrail.ChaseConverges` | js/main.js:253-254 | a point following a resting predecessor keeps `0.7^n` of its offset after `n` frames |
| `CursorTrail.FirstFollowerChasesHead` | js/main.js:252-255 | while the mouse rests, the first follower moves exactly as a point chasing the fixed head |
| `CursorTrail.FirstFollowerConverges` | js/main.js:252-255 | while the mouse rests, the first follower's offset from the head is `0.7^n` of the original after `n` frames |
| `NavLinks.Highlight` | js/main.js:142-147 | for an intersecting section `id`, link `k` is active exactly when its href is `#id` |
| `NavLinks.HighlightCount` | js/main.js:142-147 | with distinct hrefs, exactly one link is active if some link points at the section, and none otherwise |
| `NavLinks.Apply` | js/main.js:139-147 | an intersecting entry leaves link `k` active exactly when its href is `#id`, for every link; an entry that does not intersect changes nothing |
| `NavLinks.Observe` | js/main.js:138-149 | handling a batch keeps one state per link, and a batch with no intersecting entry leaves the links as they were |
| `NavLinks.LastIntersecting` | js/main.js:139-140 | there is no result exactly when no entry intersects; otherwise the result is the id of an intersecting entry after which no entry intersects |
| `NavLinks.ObserveLastWins` | js/main.js:139-149 | after a batch of entries, the links show the highlight of the last intersecting entry, or are unchanged if no entry intersects |

## Left out

- Canvas drawing (`clearRect`, `arc`, `fill`, `stroke`, colour strings) and the trail circles' `left`/`top` styles: these are presentation through browser APIs.
- `requestAnimationFrame` and `setTimeout` re-scheduling: the model covers one tick. `TypeWriter.Run`, `Particles.Frames` and `CursorTrail.Frames` iterate ticks explicitly.
- `Math.random()`: its values are a parameter (`Particles.Draw`, five values in `[0, 1)` per particle). `Particles.Create` takes exactly `particleCount` draws.
- IEEE-754 rounding and `Math.sqrt`: numbers are exact reals, and the edge test compares squared lengths.
- `window.innerWidth` and `window.innerHeight`: the new size is a parameter of `Particles.Resize` and `Particles.Create`.
- `TypeWriter.Type`: a word is modelled as a Dafny string, a sequence of Unicode code points, while `.length` and `.substring` count UTF-16 code units. The two agree only for text inside the Basic Multilingual Plane. For a word with characters outside it (an emoji, say), the page takes more `type()` calls per cycle than `2 * max(1, |word|)` and can show a lone surrogate halfway through a character. The same holds for `TypeWriter.Create` and the cycle lemmas.
- `TypeWriter.Type`: the word counter is an unbounded `nat`. A JavaScript number stops counting exactly beyond 2^53 increments, which a page never reaches.
- `TypeWriter.Create`: `parseInt(wait, 10)` is not modelled; `wait` is a given `nat`. The default 3000 is `TypeWriter.DefaultWait`. The `innerHTML` write is not modelled.
- `CursorTrail.MouseMove`: requires a non-empty trail. On an empty trail the listener would throw, but the trail always has `maxCoords` points. The desktop-only start-up check (`innerWidth > 768`) is not modelled.
- `NavLinks.Highlight`: hrefs are strings. A link without an `href` attribute (`null`) is not modelled; it never matches.
- Smooth scrolling, navbar class toggling, scroll-reveal styling, tech-card tilt, parallax, the ripple effect and its injected CSS, console logging, performance timing and image preloading: these are DOM glue with no discrete logic beyond style writes.
