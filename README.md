# Asteroids: the update loop, verified

A model of the per-frame logic of a small Asteroids game, written in Go on
the ebiten engine. The player's ship stays at the centre of a 640 x 480
screen; the world scrolls past it. Each call of `Update` advances a tick
counter and then runs one of two states:

- **Playing**:
  - the ship turns, thrusts, coasts and is speed-capped;
  - the world position and a five-layer parallax star field follow it;
  - Space fires a bullet on every tenth tick;
  - bullets age and expire;
  - asteroids drift and wrap around the screen;
  - a Special asteroid pulses, counts down from 180 and then bursts into 100 particles;
  - a bullet hitting an asteroid splits it in two (above size 25) or removes it, for 10 points;
  - particles age, cool and expire;
  - the game is over when no asteroid is left.
- **GameOver**: Space restarts with five fresh asteroids.

The project has one module per file:

| file | module | contents |
|---|---|---|
| `geometry.dfy` | `Geometry` | Go's truncating `math.Mod`, the asteroid and star wrap-arounds, the hit test |
| `entities.dfy` | `Entities` | constants, entity datatypes, the outside inputs (`Keys`, `Env`), per-entity steps |
| `spawning.dfy` | `Spawning` | `createAsteroid`, the particle burst, the random asteroid and star fields |
| `pruning.dfy` | `Pruning` | the step-and-delete pass shared by bullets and particles |
| `collisions.dfy` | `Collisions` | the asteroid pass: one slot (`Step`), the whole walk (`Pass`), and what the walk keeps |
| `rules.dfy` | `Rules` | the game as a value `World`, a Playing tick, `restartGame`, `Update` as `Tick`, the invariant `Inv` |
| `game.dfy` | `Asteroids` | the `Game` class and the imperative methods |

In `game.dfy`, the `Game` class holds the fields of the source's `Game`
struct. Its methods are `Update`, `UpdatePlaying`, `UpdateGameOver` and
`RestartGame`. Each method is proved to leave the fields equal to the
matching function of `Rules`, applied to the old fields; `Update` also keeps
the invariant `Rules.Inv`. The passes are imperative loops in the source's
shape:

- the bullet and particle loops delete the slot they look at and look at it again;
- the asteroid loop re-reads the slice length while splits append to it;
- `createAsteroid` fills its outline slot by slot.

Each loop is proved equal to the specification function it implements.

Outside inputs are parameters:

- the held keys (`Keys`);
- `math.Cos`, `math.Sin` and `math.Sqrt`, which are uninterpreted here;
- the process-wide random generator, modelled as a stream `rand: nat -> real`.

The game records how many values it has drawn from the stream (`draws`), so
every random choice is pinned to a position in the stream. float64
arithmetic is modelled by exact reals.

## Model

| member | source | states |
|---|---|---|
| `Asteroids.Game.Update` | main.go:96-105 | the new fields are `Tick` of the old ones; with draws in [0, 1) and a true square root (`SoundEnv`) a game satisfying `Inv` still does |
| `Asteroids.Game.UpdatePlaying` | main.go:107-255 | the fields become `PlayingTick` of the game it starts from |
| `Asteroids.Game.UpdateGameOver` | main.go:257-261 | with Space the fields become `Restart` of the old ones; without it nothing changes |
| `Asteroids.Game.RestartGame` | main.go:263-276 | the fields become `Restart` of the old ones |
| `Asteroids.Game.constructor` | main.go:446-464 | the fields are the starting game `Initial`; with draws in [0, 1) it satisfies `Inv` |
| `Asteroids.PlayingStep` | main.go:107-255 | the imperative Playing tick, in the source's order, equals `PlayingTick` |
| `Asteroids.SteerShip` | main.go:108-130 | the step-by-step turn, thrust, friction and cap equals `Steer` |
| `Asteroids.ScrollStars` | main.go:137-143 | the slot-by-slot star update equals `ScrolledStars` |
| `Asteroids.AdvanceBullets` | main.go:156-165 | the in-place loop that deletes spent bullets and steps back equals `BulletPass` |
| `Asteroids.AdvanceParticles` | main.go:234-249 | the in-place loop that deletes spent particles and steps back equals `ParticlePass` |
| `Asteroids.AdvanceAsteroids` | main.go:168-232 | the loop that re-reads the growing and shrinking slice terminates and equals `Pass` from slot 0 |
| `Asteroids.VisitSlot` | main.go:169-231 | one turn of the asteroid loop equals `Step` on the advanced asteroid |
| `Asteroids.StrikeSlot` | main.go:215-231 | the hit branch: two `createAsteroid` calls in source order (first appended, second into slot i), or removal |
| `Asteroids.AppendBurst` | main.go:190-207 | the 100 appends equal the `Burst`, and consume 200 draws |
| `Asteroids.FindHit` | main.go:215-216 | the scan with `break` returns the first hitting bullet, as `FirstHit` |
| `Asteroids.LayOutAsteroids` | main.go:273-275 | the fill of a fresh slice equals `AsteroidField`, 16 draws per asteroid |
| `Asteroids.LayOutStars` | main.go:457-464 | the fill of 200 stars equals `StarField`, 4 draws per star |
| `Rules.Tick` | main.go:96-105 | the tick rises by exactly 1; GameOver without Space changes nothing else; GameOver with Space gives Playing with 5 asteroids; after a Playing tick the game is over iff no asteroid is left |
| `Rules.PlayingTick` | main.go:251-254 | after the Playing passes, GameOver iff the asteroid slice is empty; the tick is not touched |
| `Rules.Restart` | main.go:263-276 | zeroed ship; exactly 5 asteroids of size 30 with countdown 180; no bullets or particles; score 0, Playing, world at the origin; stars and tick kept |
| `Rules.RestartForgetsThePast` | main.go:263-276 | two games with the same stars, tick and generator position restart to the same game |
| `Rules.Initial` | main.go:446-464 | the starting game: 15 asteroids, 200 stars, Playing, score 0, tick 0, nothing in flight |
| `Rules.InitialInv` | main.go:446-464 | with draws in [0, 1) the starting game satisfies `Inv` |
| `Rules.TickKeepsInv` | main.go:96-105 | with draws in [0, 1) and a true square root, `Tick` keeps `Inv`: GameOver iff no asteroids, all asteroids placed, every star on the screen in layer 1..5, bullets and particles live, score a non-negative multiple of 10 |
| `Rules.PlayingKeepsInv` | main.go:107-255 | with a true square root a Playing tick keeps `Inv`; the capped velocity keeps every star on the screen |
| `Rules.RestartInv` | main.go:263-276 | with draws in [0, 1), restarting leads to a game satisfying `Inv` whatever came before (given the kept stars are on the screen) |
| `Rules.PlayingBulletsLive` | main.go:146-165 | after firing, the bullet pass and the asteroid pass, every bullet has 1..60 ticks left |
| `Rules.PlayingAsteroidsPlaced` | main.go:168-232 | after a Playing tick every asteroid is well formed and on the screen |
| `Rules.PlayingParticlesLive` | main.go:184-249 | after the bursts and the particle pass every particle has a whole number 1..180 of ticks left |
| `Rules.PlayingScore` | main.go:226-228 | the score rises by exactly 10 per bullet the asteroid pass consumes, and that pass adds no bullet |
| `Rules.ScoreStep` | main.go:228 | adding 10 per consumed bullet keeps a non-negative multiple of 10 |
| `Rules.ScrolledStars` | main.go:137-143 | every star is scrolled once, pointwise; stars in their band stay in it; stars on the screen stay on it when both velocity components are within [-5, 5] |
| `Rules.Fired` | main.go:146-154 | one bullet is appended iff Space is held and tick % 10 == 0; the earlier bullets are untouched; the new one has lifetime 60 |
| `Rules.BulletPass` | main.go:156-165 | no contract of its own: the bullet loop as `AgeAndPrune` with `MoveBullet` and `lifetime > 0`; its members are stated by `BulletPassMembers` and `BulletSurvivorsLive` |
| `Rules.ParticlePass` | main.go:234-249 | no contract of its own: the particle loop as `AgeAndPrune` with `AgeParticle` and `lifetime > 0`; its members are stated by `ParticlePassMembers` and `ParticleSurvivorsLive` |
| `Rules.BulletSurvivorsLive` | main.go:156-165 | a bullet that survives the bullet pass is still live |
| `Rules.ParticleSurvivorsLive` | main.go:234-249 | a particle that survives the particle pass is still live |
| `Rules.BulletPassMembers` | main.go:156-165 | a bullet is left iff it is some bullet moved by its velocity less the ship's, with exactly one tick less, still positive |
| `Rules.ParticlePassMembers` | main.go:234-249 | a particle is left iff it is some particle aged by one tick whose life is still positive |
| `Pruning.AgeAndPrune` | main.go:156-165 | the step-then-delete pass: each element is stepped and kept iff the stepped value is alive; the result is never longer than the input |
| `Pruning.AgeAndPruneInPlace` | main.go:157-165 | one turn of the delete-and-step-back loop keeps "survivors of the visited prefix, then the unvisited rest" |
| `Pruning.AgeAndPruneAppend` | main.go:157-165 | the pass over a concatenation is the concatenation of the passes, so survivors keep their relative order |
| `Pruning.AgeAndPruneMembers` | main.go:157-165 | an element is left iff it is alive and the step of some element |
| `Pruning.AgeAndPruneAllAlive` | main.go:157-165 | when every stepped element is alive the pass deletes nothing |
| `Pruning.AgeAndPruneNoneAlive` | main.go:157-165 | when no stepped element is alive the pass leaves nothing |
| `Pruning.AgeAndPruneKeeps` | main.go:157-165 | an invariant that the step carries to survivors holds of every survivor |
| `Collisions.Remove` | main.go:209 | `append(s[:i], s[i+1:]...)`: one shorter, slots before i kept, later slots shifted down by one |
| `Collisions.Advanced` | main.go:169-187 | after the move and wrap the asteroid is on the screen; velocity, outline and kind are kept; rotation advances by the rotation speed; a Special countdown drops by 1, a Normal asteroid keeps its size and countdown |
| `Collisions.AdvancedWellFormed` | main.go:184-188 | a well-formed asteroid expires this tick iff it is Special with countdown 1; otherwise it is still placed |
| `Collisions.FirstHit` | main.go:215-216 | a found index hits and no earlier bullet does; None means no bullet hits |
| `Collisions.Strike` | main.go:218-228 | no contract of its own: the hit branch, bullet j deleted and +10; above size 25 the second `createAsteroid` into slot i and the first appended, otherwise slot i removed; `Step` states its effect |
| `Collisions.Step` | main.go:168-232 | one slot: expiry removes it, appends 100 fresh particles, leaves bullets and score alone; a miss keeps it; a hit consumes only the first hitting bullet for +10 and splits (above 25: net +1, halves in slot i and at the end) or removes it (net -1); earlier slots untouched; the visit makes progress |
| `Collisions.Pass` | main.go:168-232 | no contract of its own: the asteroid loop from slot i, each slot advanced and then visited by `Step`, re-reading the length after every visit; terminates because each visit consumes a bullet or moves on; `PassScore`, `PassBullets`, `PassParticles`, `PassPlaces` and `PassWithoutBullets` state what it keeps |
| `Collisions.PassScore` | main.go:226-228 | over the whole walk the score rises by exactly 10 per consumed bullet, and no bullet is added |
| `Collisions.PassBullets` | main.go:215-231 | the bullets left after the walk are a sub-multiset of those before |
| `Collisions.PassParticles` | main.go:188-207 | the walk only appends particles, in whole bursts of 100, each with lifetime 180 and live |
| `Collisions.PassPlaces` | main.go:168-232 | every asteroid the walk leaves is well formed and on the screen |
| `Collisions.NewChildPlaced` | main.go:218-220 | a split child is placed and has half its parent's size |
| `Collisions.PassWithoutBullets` | main.go:215-231 | with no bullets in flight the walk keeps the score and never adds an asteroid |
| `Spawning.CreateAsteroid` | main.go:340-367 | the imperative `createAsteroid` equals `NewAsteroid` and consumes 14 draws |
| `Spawning.NewAsteroid` | main.go:340-367 | no contract of its own: `createAsteroid` as a value, draws k..k+3 for kind, dx, dy and rotation speed, k+4..k+13 for the outline; `NewAsteroidShape` states its shape |
| `Spawning.NewAsteroidShape` | main.go:340-357 | position and size as given, rotation 0, countdown 180, 20 coordinates, Special iff the first draw is below 0.1; velocities in [-2, 2) and rotation speed in [-0.05, 0.05) for draws in [0, 1) |
| `Spawning.RadiusBounds` | main.go:361 | every vertex radius lies in [3 size / 8, 5 size / 8) |
| `Spawning.Outline` | main.go:359-364 | the first n vertices as 2n coordinates, cos then sin of the vertex angle times the vertex radius; `OutlineVertex` and `VertexOnCircle` state each vertex |
| `Spawning.OutlineVertex` | main.go:359-364 | coordinate pair i is cos and sin of i tenths of a turn, times the radius from draw i |
| `Spawning.VertexOnCircle` | main.go:359-364 | with a true sine and cosine, vertex i lies at its radius from the centre |
| `Spawning.NewParticle` | main.go:191-205 | a burst particle starts at the asteroid's position, opaque yellow, with 180 ticks |
| `Spawning.Burst` | main.go:190-207 | the 100-particle burst as a value: exactly n particles, particle i from draws k + 2i and k + 2i + 1; `BurstFresh` states each particle's start |
| `Spawning.BurstFresh` | main.go:190-207 | every particle of a burst is at the asteroid's position, with lifetime 180 and live |
| `Spawning.AsteroidField` | main.go:273-275 | exactly n asteroids laid out one after another, 16 draws each (the same fill starts the game at main.go:453-455) |
| `Spawning.FieldAsteroid` | main.go:453-455 | no contract of its own: `createAsteroid` at `rand.Intn(640)`, `rand.Intn(480)`, size 30; `AsteroidFieldShape` states what it gives |
| `Spawning.AsteroidFieldShape` | main.go:273-275 | every laid-out asteroid is well formed, of size 30 with countdown 180, and on the screen for draws in [0, 1) |
| `Spawning.StarField` | main.go:457-464 | exactly n stars laid out one after another, 4 draws each |
| `Spawning.FieldStar` | main.go:458-463 | no contract of its own: a star at `rand.Intn(640)`, `rand.Intn(480)`, brightness `rand.Float64()*0.5 + 0.5`, layer `rand.Intn(5) + 1`; `StarFieldPlaced` states its ranges |
| `Spawning.StarFieldPlaced` | main.go:457-464 | every starting star is on the screen, in layer 1..5, with brightness in [0.5, 1) |
| `Geometry.GoMod` | main.go:141-142 | no contract of its own: Go's `math.Mod(v, m)` for m > 0, v minus m times v / m truncated toward zero; `GoModRange` states its range and sign |
| `Geometry.GoModRange` | main.go:175-176 | `math.Mod` by a screen side keeps the dividend's sign, stays below the modulus in magnitude, and is zero iff the dividend is a whole number of moduli |
| `Geometry.WrapAsteroid` | main.go:175-182 | the asteroid wrap lands in [0, m) for every input, and leaves an in-range value alone |
| `Geometry.WrapStar` | main.go:141-142 | the star wrap stays within (-m, m) and lands in [0, m) iff the input is at least -m (or a whole multiple after the shift) |
| `Geometry.Distance` | main.go:425-427 | no contract of its own: `distance` over the supplied square root |
| `Geometry.Hit` | main.go:216 | no contract of its own: the hit test squared, 4 d^2 < size^2 with size > 0; `HitIsDistanceTest` proves it equal to `distance(...) < size / 2` |
| `Geometry.HitIsDistanceTest` | main.go:425-427 | the squared test equals `distance(...) < size / 2` for any true square root |
| `Entities.Intn` | main.go:274 | `rand.Intn(n)` read from one draw in [0, 1) lies in [0, n) |
| `Entities.Steer` | main.go:108-130 | thrusting iff Up is held; the heading changes by -0.1 for Left and +0.1 for Right; with a true square root both velocity components end in [-5, 5] |
| `Entities.CapSpeed` | main.go:126-130 | a velocity whose speed is at most 5 is left unchanged; with a true square root both components of the result lie in [-5, 5] |
| `Entities.CappedComponents` | main.go:126-130 | with a true square root: below the cap each component is already in [-5, 5]; above it each rescaled component `c / speed * 5` is in [-5, 5] |
| `Entities.ScrollStar` | main.go:137-143 | layer and brightness kept; a star in a valid layer ends within one screen of the origin; a placed star stays placed when the ship's velocity components are within the cap |
| `Entities.NewBullet` | main.go:147-153 | a new bullet has lifetime 60 |
| `Entities.MoveBullet` | main.go:158-160 | no contract of its own: the bullet moves by its velocity less the ship's and loses one tick; `BulletPassMembers` states this of every bullet left |
| `Entities.AgeParticle` | main.go:237-243 | no contract of its own: the particle moves by its velocity, loses one tick, and red and green are scaled by life / 180; `CoolingNeverBrightens` and `FirstCooling` state its effect |
| `Entities.Fade` | main.go:242-243 | no contract of its own: `uint8(float64(c) * (l / 180))`; `FadeBelow` proves it never exceeds c for 0 <= l < 180 |
| `Entities.FadeBelow` | main.go:242-243 | for a life left in [0, 180) the faded channel is at most the channel before |
| `Entities.ByteOf` | main.go:242-243 | the conversion to uint8 truncates an in-range value |
| `Entities.CoolingNeverBrightens` | main.go:235-248 | one particle tick never raises red or green, keeps blue and alpha, and a survivor is still live |
| `Entities.FirstCooling` | main.go:242-243 | a fresh particle shows red and green 253 after its first tick, with 179 ticks left |

## Left out

- Rendering is not part of this model, because it changes no game state: `Draw`, `drawAsteroid`, `Layout`, the text and the font.
- Window setup, font loading, `ebiten.RunGame` and the time-based seeding in `main` are I/O and are left out. The starting game they set up is the constructor.
- `ebiten.IsKeyPressed` becomes the `Keys` parameter. Each call of `Update` reads one `Keys` value, which assumes no key changes state in the middle of a frame.
- `rand.Float64` and `rand.Intn` are read from a stream of values at explicit positions. `Intn(n)` is modelled as the whole part of one draw times n. Go's generator may consume a different number of internal values per `Intn` call; only the order of draws is modelled.
- float64 arithmetic is modelled as exact real arithmetic: no rounding, no NaN, no infinities.
- `math.Cos`, `math.Sin` and `math.Sqrt` are uninterpreted functions. Lemmas that need their meaning require it explicitly (`IsSqrt`, `IsTrig`).
- Steer: the contract does not state that the speed after the cap is at most 5, only that each velocity component lies in [-5, 5]. The full bound needs nonlinear division that the solver does not close.
- CapSpeed: above a speed of 5 only the component bounds are stated, not that the new speed is exactly 5.
- The Special asteroid's size pulse, 30 * (1 + sin(e / 180 * pi) / 2), is computed but nothing about it is proved, since sin is uninterpreted.
- Colour cooling is computed exactly, and only monotonicity and the first tick are proved. The rest of the compounding uint8 fade is not characterised.
- Collisions.Step: the split writes the second child into slot i, which is what the source intends. In Go, `a` points into the slice's backing array. When the `append` of the first child reallocates, `*a = ...` writes to the old array, and slot i keeps the advanced pre-split asteroid, while only the first half-size child is appended. This is not rare: the slice starts with length equal to capacity (`make([]Asteroid, 15)` at the start, `make([]Asteroid, 5)` at every restart), so the first split of each game reallocates unless an asteroid was removed before it. Slice capacity is not modelled, so this behaviour is left out.
- `Game.tick` is a Go `int` (64 bits). The model's tick is unbounded, so overflow after 2^63 ticks is not modelled.
- The passes are modelled on sequence values, which the `Game` methods store back into their fields. In-place aliasing of slice elements, other than the split case above, never matters to the source's result.
- The wrap lemmas are proved for the two screen sides, 640 and 480, the only moduli the source uses.

Notes where the code and the obvious reading of it differ, followed here:

- The pulse scales the constant 30, not the asteroid's own size, so a Special child of a split grows back to the full pulse size.
- Bullets and particles are never wrapped. Only asteroids and stars are.
- Particles from a burst are appended before the particle pass of the same tick, so they end their first tick with 179 ticks left and already cooled.
- The colour fade multiplies the already faded value each tick, so it compounds. It applies to red and green only.
- The star wrap has no fix-up for a negative result: a star moved more than one screen to the left or up would stay off screen. That never happens, because the speed cap keeps each velocity component within [-5, 5], so every star stays on the screen (`Rules.TickKeepsInv`). Without the square root's meaning the model proves only that a star stays within one screen of the origin.
