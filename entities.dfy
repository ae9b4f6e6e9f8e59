/**
 * The game's entities (ship, asteroid, bullet, star, particle), its
 * constants, the outside world it reads each tick (keys, math functions and
 * the random generator), and the per-entity steps of one tick of play.
 */
module Entities {
  import opened Geometry

  const ShipSize: real := 20.0
  const AsteroidSize: real := 30.0
  const MaxVelocity: real := 5.0
  const Acceleration: real := 0.1
  const Friction: real := 0.99
  const TurnStep: real := 0.1
  const BulletSpeed: real := 10.0
  const BulletLifetime: int := 60
  const FireCooldown: nat := 10
  const NumStars: nat := 200
  const NumStarLayers: int := 5
  const NumAsteroidVertices: nat := 10
  const SpecialAsteroidProb: real := 0.1
  const SpecialAsteroidExpansionTime: int := 180
  const SplitThreshold: real := 25.0
  const HitScore: int := 10
  const BurstSize: nat := 100
  const ParticleSpeed: real := 5.0
  const ParticleLifetime: real := 180.0
  /** Go's math.Pi, as a float64. */
  const Pi: real := 3.141592653589793

  newtype byte = v: int | 0 <= v < 256

  datatype GameState = Playing | GameOver
  datatype AsteroidKind = Normal | Special

  datatype Ship = Ship(angle: real, dx: real, dy: real, thrusting: bool)

  datatype Asteroid = Asteroid(
    x: real, y: real, dx: real, dy: real,
    size: real, rotation: real, rotationSpeed: real,
    points: seq<real>,
    kind: AsteroidKind,
    expansionTime: int)

  datatype Bullet = Bullet(x: real, y: real, dx: real, dy: real, lifetime: int)

  datatype Star = Star(x: real, y: real, brightness: real, layer: int)

  datatype Rgba = Rgba(r: byte, g: byte, b: byte, a: byte)

  datatype Particle = Particle(x: real, y: real, dx: real, dy: real, color: Rgba, lifetime: real)

  /** Which of the four keys the game polls are held during this tick. */
  datatype Keys = Keys(left: bool, right: bool, up: bool, space: bool)

  /**
   * What the update reads from outside: math.Cos, math.Sin and math.Sqrt,
   * and the process-wide random generator, as the stream of values it
   * returns (rand(k) is the k-th draw since the program started).
   */
  datatype Env = Env(cos: real -> real, sin: real -> real, sqrt: real -> real, rand: nat -> real)

  /** rand.Float64 returns values in [0, 1). */
  ghost predicate UnitStream(rand: nat -> real) {
    forall k: nat :: 0.0 <= rand(k) < 1.0
  }

  /** rand.Intn(n), read as the integer part of one draw scaled by n. */
  function Intn(n: nat, u: real): (r: int)
    ensures 0 < n && 0.0 <= u < 1.0 ==> 0 <= r < n
  {
    ScaledDraw(n, u);
    (u * n as real).Floor
  }

  lemma ScaledDraw(n: nat, u: real)
    ensures 0 < n && 0.0 <= u < 1.0 ==> 0.0 <= u * n as real < n as real
  {
    if 0 < n && 0.0 <= u < 1.0 {
      MulMono(n as real, 0.0, u);
      MulStrict(n as real, u, 1.0);
    }
  }

  /**
   * Go's conversion of a float64 to uint8. In range it truncates toward
   * zero; out of range Go leaves the result to the implementation, and this
   * model takes the low eight bits of the truncated value.
   */
  function ByteOf(v: real): (r: byte)
    ensures 0.0 <= v < 256.0 ==> r as int == v.Floor
  {
    (Trunc(v) % 256) as byte
  }

  // ---------------------------------------------------------------------
  // Invariants of the entities that the game keeps.

  /** An asteroid as createAsteroid builds it and the update keeps it: a 10-vertex outline, and a countdown that only a Special asteroid runs down, and that never rests at zero. */
  predicate WellFormed(a: Asteroid) {
    |a.points| == 2 * NumAsteroidVertices &&
    (a.kind == Normal ==> a.expansionTime == SpecialAsteroidExpansionTime) &&
    (a.kind == Special ==> 1 <= a.expansionTime <= SpecialAsteroidExpansionTime)
  }

  /** A well-formed asteroid on the screen. */
  predicate Placed(a: Asteroid) {
    WellFormed(a) && OnScreen(a.x, a.y)
  }

  /** A star on the screen, in one of the parallax layers 1..5. */
  predicate StarPlaced(s: Star) {
    OnScreen(s.x, s.y) && 1 <= s.layer <= NumStarLayers
  }

  /**
   * A star within one screen of the origin, in one of the layers 1..5. The
   * star wrap keeps every star in this band, whatever the ship does.
   */
  predicate StarInBand(s: Star) {
    -ScreenWidth < s.x < ScreenWidth && -ScreenHeight < s.y < ScreenHeight && 1 <= s.layer <= NumStarLayers
  }

  /** A bullet that still has ticks to live, no more than it was fired with. */
  predicate BulletLive(b: Bullet) {
    1 <= b.lifetime <= BulletLifetime
  }

  /** A particle that still has a whole number of ticks to live, no more than it was spawned with. */
  predicate ParticleLive(p: Particle) {
    p.lifetime == p.lifetime.Floor as real && 1.0 <= p.lifetime <= ParticleLifetime
  }

  // ---------------------------------------------------------------------
  // The ship.

  /**
   * Ship control for one tick: turn by 0.1 for each held turn key, thrust
   * along the heading while Up is held, apply friction, and cap the speed at
   * MaxVelocity by rescaling.
   */
  function Steer(s: Ship, keys: Keys, env: Env): (r: Ship)
    ensures r.thrusting == keys.up
    ensures r.angle == s.angle - (if keys.left then TurnStep else 0.0) + (if keys.right then TurnStep else 0.0)
    ensures IsSqrt(env.sqrt) ==> -MaxVelocity <= r.dx <= MaxVelocity && -MaxVelocity <= r.dy <= MaxVelocity
  {
    var a1 := if keys.left then s.angle - TurnStep else s.angle;
    var angle := if keys.right then a1 + TurnStep else a1;
    var tx := if keys.up then s.dx + env.cos(angle) * Acceleration else s.dx;
    var ty := if keys.up then s.dy + env.sin(angle) * Acceleration else s.dy;
    var v := CapSpeed(env.sqrt, tx * Friction, ty * Friction);
    Ship(angle, v.0, v.1, keys.up)
  }

  /**
   * The speed cap: when the speed sqrt(x*x + y*y) is above MaxVelocity the
   * velocity is rescaled to that speed, otherwise it is kept as it is.
   */
  function CapSpeed(sqrt: real -> real, x: real, y: real): (v: (real, real))
    ensures sqrt(x * x + y * y) <= MaxVelocity ==> v == (x, y)
    ensures IsSqrt(sqrt) ==> -MaxVelocity <= v.0 <= MaxVelocity && -MaxVelocity <= v.1 <= MaxVelocity
  {
    var speed := sqrt(x * x + y * y);
    CappedComponents(sqrt, x, y);
    if speed > MaxVelocity then (x / speed * MaxVelocity, y / speed * MaxVelocity) else (x, y)
  }

  /**
   * With a true square root each velocity component after the cap lies in
   * [-MaxVelocity, MaxVelocity]: a component is at most the speed, and the
   * rescaling maps the speed to MaxVelocity.
   */
  lemma CappedComponents(sqrt: real -> real, x: real, y: real)
    ensures var speed := sqrt(x * x + y * y);
      IsSqrt(sqrt) && speed > MaxVelocity ==>
        -MaxVelocity <= x / speed * MaxVelocity <= MaxVelocity && -MaxVelocity <= y / speed * MaxVelocity <= MaxVelocity
    ensures var speed := sqrt(x * x + y * y);
      IsSqrt(sqrt) && speed <= MaxVelocity ==> -MaxVelocity <= x <= MaxVelocity && -MaxVelocity <= y <= MaxVelocity
  {
    if IsSqrt(sqrt) {
      var s := Root(sqrt, x * x + y * y);
      ComponentBelowSpeed(x, y, s);
      ComponentBelowSpeed(y, x, s);
      if s > MaxVelocity {
        ScaledComponent(x, s);
        ScaledComponent(y, s);
      }
    }
  }

  /** A component of a vector of length s lies in [-s, s]. */
  lemma ComponentBelowSpeed(x: real, y: real, s: real)
    requires 0.0 <= s && s * s == x * x + y * y
    ensures -s <= x <= s
  {
    if x > s {
      MulStrict(x + s, s, x);
    } else if x < -s {
      MulStrict(s - x, x, -s);
    }
  }

  /** A component in [-s, s] divided by s > MaxVelocity and scaled by MaxVelocity lies in [-MaxVelocity, MaxVelocity]. */
  lemma ScaledComponent(x: real, s: real)
    requires MaxVelocity < s && -s <= x <= s
    ensures -MaxVelocity <= x / s * MaxVelocity <= MaxVelocity
  {
    var q := x / s;
    assert q * s == x;
    if q > 1.0 {
      MulStrict(s, 1.0, q);
    } else if q < -1.0 {
      MulStrict(s, q, -1.0);
    }
    assert -1.0 <= q <= 1.0;
    assert x / s * MaxVelocity == q * 5.0;
  }

  // ---------------------------------------------------------------------
  // Stars, bullets and particles, one step each.

  /**
   * A star scrolls against the ship's motion, scaled by its layer over the
   * number of layers, and wraps with math.Mod(v + side, side). A star in a
   * valid layer always ends in the band within one screen of the origin; a
   * placed star stays placed when the ship's velocity components are within
   * the cap; the layer and brightness never change.
   */
  function ScrollStar(s: Star, sdx: real, sdy: real): (r: Star)
    ensures r.layer == s.layer && r.brightness == s.brightness
    ensures 1 <= s.layer <= NumStarLayers ==> StarInBand(r)
    ensures StarPlaced(s) && -MaxVelocity <= sdx <= MaxVelocity && -MaxVelocity <= sdy <= MaxVelocity ==> StarPlaced(r)
  {
    var f := s.layer as real / NumStarLayers as real;
    var dx, dy := sdx * f, sdy * f;
    ParallaxBound(sdx, s.layer);
    ParallaxBound(sdy, s.layer);
    StarCoordPlaced(s.x, dx, ScreenWidth);
    StarCoordPlaced(s.y, dy, ScreenHeight);
    s.(x := WrapStar(s.x - dx, ScreenWidth), y := WrapStar(s.y - dy, ScreenHeight))
  }

  /** A coordinate on the screen moved by at most the speed cap wraps back onto the screen. */
  lemma StarCoordPlaced(p: real, d: real, m: real)
    requires IsScreenSide(m)
    ensures 0.0 <= p < m && -MaxVelocity <= d <= MaxVelocity ==> 0.0 <= WrapStar(p - d, m) < m
  {
  }

  lemma ParallaxBound(d: real, layer: int)
    ensures 1 <= layer <= NumStarLayers && -MaxVelocity <= d <= MaxVelocity ==>
      -MaxVelocity <= d * (layer as real / NumStarLayers as real) <= MaxVelocity
  {
    if layer < 1 || layer > NumStarLayers {
    } else if layer == 1 {
      assert d * (layer as real / 5.0) == d * 0.2;
    } else if layer == 2 {
      assert d * (layer as real / 5.0) == d * 0.4;
    } else if layer == 3 {
      assert d * (layer as real / 5.0) == d * 0.6;
    } else if layer == 4 {
      assert d * (layer as real / 5.0) == d * 0.8;
    } else {
      assert d * (layer as real / 5.0) == d;
    }
  }

  /** A new bullet at the ship's nose, flying along the heading, with 60 ticks to live. */
  function NewBullet(s: Ship, env: Env): (b: Bullet)
    ensures b.lifetime == BulletLifetime
  {
    Bullet(ScreenWidth / 2.0 + env.cos(s.angle) * ShipSize,
           ScreenHeight / 2.0 + env.sin(s.angle) * ShipSize,
           env.cos(s.angle) * BulletSpeed,
           env.sin(s.angle) * BulletSpeed,
           BulletLifetime)
  }

  /** One tick of a bullet: it moves by its velocity less the ship's, and loses one tick of life. */
  function MoveBullet(b: Bullet, sdx: real, sdy: real): Bullet {
    b.(x := b.x + (b.dx - sdx), y := b.y + (b.dy - sdy), lifetime := b.lifetime - 1)
  }

  /** The bullet pass keeps exactly the bullets with life left. */
  predicate BulletAlive(b: Bullet) {
    b.lifetime > 0
  }

  /**
   * One tick of a particle: it moves by its velocity, loses one tick of
   * life, and its red and green fade by the fraction of the 180-tick budget
   * left (compounding, since each tick scales the already faded value).
   */
  function AgeParticle(p: Particle): Particle {
    var l := p.lifetime - 1.0;
    p.(x := p.x + p.dx, y := p.y + p.dy,
       color := p.color.(r := Fade(p.color.r, l), g := Fade(p.color.g, l)),
       lifetime := l)
  }

  /** uint8(float64(c) * (l / 180)): a colour channel scaled by the life left. */
  function Fade(c: byte, l: real): byte {
    ByteOf(c as real * (l / ParticleLifetime))
  }

  /** The particle pass keeps exactly the particles with life left. */
  predicate ParticleAlive(p: Particle) {
    p.lifetime > 0.0
  }

  /**
   * Cooling of a live particle never brightens it: red and green do not
   * rise, blue and alpha stay, and a survivor is still live.
   */
  lemma CoolingNeverBrightens(p: Particle)
    requires ParticleLive(p)
    ensures AgeParticle(p).color.r <= p.color.r && AgeParticle(p).color.g <= p.color.g
    ensures AgeParticle(p).color.b == p.color.b && AgeParticle(p).color.a == p.color.a
    ensures ParticleAlive(AgeParticle(p)) ==> ParticleLive(AgeParticle(p))
  {
    var l := p.lifetime - 1.0;
    var q := AgeParticle(p);
    assert q.color == p.color.(r := Fade(p.color.r, l), g := Fade(p.color.g, l));
    FadeBelow(p.color.r, l);
    FadeBelow(p.color.g, l);
    CountDown(p.lifetime);
  }

  /** One tick off a whole number of ticks leaves a whole number, and a positive one is at least 1. */
  lemma CountDown(t: real)
    requires t == t.Floor as real
    ensures t - 1.0 == (t - 1.0).Floor as real
    ensures t - 1.0 > 0.0 ==> t - 1.0 >= 1.0
  {
    assert (t - 1.0).Floor == t.Floor - 1;
  }

  lemma FadeBelow(c: byte, l: real)
    requires 0.0 <= l < ParticleLifetime
    ensures Fade(c, l) <= c
  {
    var t := l / ParticleLifetime;
    var v := c as real * t;
    if c > 0 {
      MulMono(c as real, 0.0, t);
      MulStrict(c as real, t, 1.0);
    }
    assert 0.0 <= v <= c as real;
    assert ByteOf(v) as int == v.Floor;
  }

  /** A freshly spawned, fully hot particle shows red and green 253 after its first tick. */
  lemma FirstCooling(p: Particle)
    requires p.lifetime == ParticleLifetime && p.color.r == 255 && p.color.g == 255
    ensures AgeParticle(p).color.r == 253 && AgeParticle(p).color.g == 253
    ensures AgeParticle(p).lifetime == 179.0
  {
    assert 253.0 <= 255.0 * (179.0 / 180.0) < 254.0;
  }
}
