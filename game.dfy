/**
 * The Game object: its fields, and Update with the methods it runs, written
 * as the source writes them (in-place updates, loops that delete the slot
 * they are looking at and step back, a loop that appends to the slice it is
 * walking). Each pass works on the slice it is given and hands back the new
 * one, which the Game method stores into its field. Each method is proved
 * to produce exactly what the functions in Rules say, and Update to keep
 * the invariant Rules.Inv.
 */
module Asteroids {
  import opened Geometry
  import opened Entities
  import opened Spawning
  import opened Pruning
  import opened Collisions
  import opened Rules

  /** Go's zero value of an Asteroid, which make([]Asteroid, n) fills a fresh slice with. */
  const ZeroAsteroid: Asteroid := Asteroid(0.0, 0.0, 0.0, 0.0, 0.0, 0.0, 0.0, [], Normal, 0)

  class Game {
    var ship: Ship
    var asteroids: seq<Asteroid>
    var bullets: seq<Bullet>
    var stars: seq<Star>
    var particles: seq<Particle>
    var score: int
    var state: GameState
    var worldX: real
    var worldY: real
    var tick: nat
    /** Position of the process-wide random generator: how many values it has handed out. */
    var draws: nat

    /** The fields as one value. */
    function Snapshot(): World
      reads this
    {
      World(ship, asteroids, bullets, stars, particles, score, state, worldX, worldY, tick, draws)
    }

    predicate Valid()
      reads this
    {
      Inv(Snapshot())
    }

    /**
     * The game main sets up: the Playing state, then 15 asteroids and 200
     * stars drawn from the generator, everything else zero.
     */
    constructor (env: Env)
      ensures Snapshot() == Initial(env)
      ensures UnitStream(env.rand) ==> Valid()
    {
      var field, next := LayOutAsteroids(InitialAsteroids, env, 0);
      var sky, last := LayOutStars(env, next);
      ship := Ship(0.0, 0.0, 0.0, false);
      asteroids := field;
      bullets := [];
      stars := sky;
      particles := [];
      score := 0;
      state := Playing;
      worldX := 0.0;
      worldY := 0.0;
      tick := 0;
      draws := last;
      new;
      if UnitStream(env.rand) {
        InitialInv(env);
      }
    }

    /**
     * Update: the tick advances, then the state decides what runs. The new
     * fields are Rules.Tick of the old ones, and with draws in [0, 1) and a
     * true square root a game
     * satisfying the invariant still does.
     */
    method Update(keys: Keys, env: Env)
      modifies this
      ensures Snapshot() == Tick(old(Snapshot()), keys, env)
      ensures old(Valid()) && SoundEnv(env) ==> Valid()
    {
      ghost var w := Snapshot();
      tick := tick + 1;
      ghost var w1 := w.(tick := w.tick + 1);
      if state == Playing {
        UpdatePlaying(keys, env, w1);
      } else {
        UpdateGameOver(keys, env, w1);
      }
      TickKeepsInv(w, keys, env);
    }

    /** updateGameOver on the game w (its tick already advanced): Space restarts the game; otherwise nothing changes. */
    method UpdateGameOver(keys: Keys, env: Env, ghost w: World)
      requires Snapshot() == w
      modifies this
      ensures Snapshot() == if keys.space then Restart(w, env) else w
    {
      if keys.space {
        RestartGame(env);
      }
    }

    /** restartGame: everything but the stars and the tick is overwritten, and five new asteroids are laid out. */
    method RestartGame(env: Env)
      modifies this
      ensures Snapshot() == Restart(old(Snapshot()), env)
    {
      ghost var w := Restart(old(Snapshot()), env);
      var field, next := LayOutAsteroids(RestartAsteroids, env, draws);
      assert field == w.asteroids;
      ship, asteroids, bullets, particles, score, state, worldX, worldY, draws :=
        Ship(0.0, 0.0, 0.0, false), field, [], [], 0, Playing, 0.0, 0.0, next;
    }

    /** updatePlaying on the game w (its tick already advanced): the fields become the Playing tick of w. */
    method UpdatePlaying(keys: Keys, env: Env, ghost w: World)
      requires Snapshot() == w && w.state == Playing
      modifies this
      ensures Snapshot() == PlayingTick(w, keys, env)
    {
      var next := PlayingStep(Snapshot(), keys, env);
      Store(next);
    }

    /** Overwrites every field with the components of w. */
    method Store(w: World)
      modifies this
      ensures Snapshot() == w
    {
      ship, asteroids, bullets, stars, particles, score, state, worldX, worldY, tick, draws :=
        w.ship, w.asteroids, w.bullets, w.stars, w.particles, w.score, w.state, w.worldX, w.worldY, w.tick, w.draws;
    }
  }

  // ---------------------------------------------------------------------
  // The steps of a tick.

  /**
   * The body of updatePlaying on the game's fields, in the source's order:
   * the ship turns, thrusts and coasts; the world position and the stars
   * follow it; a bullet is fired on every tenth tick while Space is held;
   * then the bullet, asteroid and particle passes; the game is over when
   * the asteroid slice is empty.
   */
  method PlayingStep(w: World, keys: Keys, env: Env) returns (r: World)
    requires w.state == Playing
    ensures r == PlayingTick(w, keys, env)
  {
    var ship := SteerShip(w.ship, keys, env);
    var worldX, worldY := w.worldX + ship.dx, w.worldY + ship.dy;
    var stars := ScrollStars(w.stars, ship.dx, ship.dy);
    var bullets := w.bullets;
    if keys.space && w.tick % FireCooldown == 0 {
      bullets := bullets + [NewBullet(ship, env)];
    }
    assert bullets == Fired(w.bullets, ship, keys, w.tick, env);
    bullets := AdvanceBullets(bullets, ship.dx, ship.dy);
    var swept := AdvanceAsteroids(Sweep(w.asteroids, bullets, w.particles, w.score, w.draws), ship.dx, ship.dy, env);
    var particles := AdvanceParticles(swept.particles);
    var state := if |swept.asteroids| == 0 then GameOver else w.state;
    r := World(ship, swept.asteroids, swept.bullets, stars, particles, swept.score, state,
               worldX, worldY, w.tick, swept.draws);
  }

  /** The ship's turn, thrust, friction and speed cap, in the source's order. */
  method SteerShip(ship: Ship, keys: Keys, env: Env) returns (s: Ship)
    ensures s == Steer(ship, keys, env)
  {
    s := ship;
    if keys.left {
      s := s.(angle := s.angle - TurnStep);
    }
    if keys.right {
      s := s.(angle := s.angle + TurnStep);
    }
    s := s.(thrusting := keys.up);
    if s.thrusting {
      s := s.(dx := s.dx + env.cos(s.angle) * Acceleration);
      s := s.(dy := s.dy + env.sin(s.angle) * Acceleration);
    }
    s := s.(dx := s.dx * Friction);
    s := s.(dy := s.dy * Friction);
    var v := CapSpeed(env.sqrt, s.dx, s.dy);
    s := s.(dx := v.0, dy := v.1);
  }

  /** Every star scrolls by the ship's velocity, scaled by its layer, and wraps; updated slot by slot. */
  method ScrollStars(stars: seq<Star>, sdx: real, sdy: real) returns (r: seq<Star>)
    ensures r == ScrolledStars(stars, sdx, sdy)
  {
    r := stars;
    var i: nat := 0;
    while i < |r|
      invariant i <= |r| == |stars|
      invariant forall k :: 0 <= k < i ==> r[k] == ScrollStar(stars[k], sdx, sdy)
      invariant forall k :: i <= k < |r| ==> r[k] == stars[k]
    {
      r := r[i := ScrollStar(r[i], sdx, sdy)];
      i := i + 1;
    }
  }

  /**
   * The bullet pass: each bullet moves by its velocity less the ship's and
   * loses a tick of life; a spent bullet is deleted from its slot and the
   * same slot is looked at again.
   */
  method AdvanceBullets(bullets: seq<Bullet>, sdx: real, sdy: real) returns (r: seq<Bullet>)
    ensures r == BulletPass(bullets, sdx, sdy)
  {
    r := bullets;
    ghost var done: nat := 0;
    var i: nat := 0;
    while i < |r|
      invariant done <= |bullets| && i <= |r| && |r| - i == |bullets| - done
      invariant r[..i] == BulletPass(bullets[..done], sdx, sdy)
      invariant r[i..] == bullets[done..]
      decreases |r| - i
    {
      AgeAndPruneInPlace(bullets, done, r, i, BulletStep(sdx, sdy), BulletAlive);
      var b := r[i];
      b := b.(x := b.x + (b.dx - sdx), y := b.y + (b.dy - sdy));
      b := b.(lifetime := b.lifetime - 1);
      assert b == BulletStep(sdx, sdy)(r[i]);
      r := r[i := b];
      if b.lifetime <= 0 {
        r := r[..i] + r[i + 1..];
      } else {
        i := i + 1;
      }
      done := done + 1;
    }
    assert bullets[..done] == bullets;
    assert r == r[..i];
  }

  /**
   * The particle pass: each particle moves, loses a tick of life and has its
   * red and green scaled by the life left; a spent particle is deleted from
   * its slot and the same slot is looked at again.
   */
  method AdvanceParticles(particles: seq<Particle>) returns (r: seq<Particle>)
    ensures r == ParticlePass(particles)
  {
    r := particles;
    ghost var done: nat := 0;
    var i: nat := 0;
    while i < |r|
      invariant done <= |particles| && i <= |r| && |r| - i == |particles| - done
      invariant r[..i] == ParticlePass(particles[..done])
      invariant r[i..] == particles[done..]
      decreases |r| - i
    {
      AgeAndPruneInPlace(particles, done, r, i, AgeParticle, ParticleAlive);
      var p := r[i];
      p := p.(x := p.x + p.dx, y := p.y + p.dy);
      p := p.(lifetime := p.lifetime - 1.0);
      p := p.(color := p.color.(r := Fade(p.color.r, p.lifetime)));
      p := p.(color := p.color.(g := Fade(p.color.g, p.lifetime)));
      assert p == AgeParticle(r[i]);
      r := r[i := p];
      if p.lifetime <= 0.0 {
        r := r[..i] + r[i + 1..];
      } else {
        i := i + 1;
      }
      done := done + 1;
    }
    assert particles[..done] == particles;
    assert r == r[..i];
  }

  /**
   * The asteroid pass. The loop re-reads the length of the slice, which
   * grows by one on a split and shrinks by one on a removal; it ends
   * because every visit either consumes a bullet or leaves one slot fewer
   * to visit.
   */
  method AdvanceAsteroids(s0: Sweep, sdx: real, sdy: real, env: Env) returns (s: Sweep)
    ensures s == Pass(s0, 0, sdx, sdy, env)
  {
    s := s0;
    var i: nat := 0;
    while i < |s.asteroids|
      invariant i <= |s.asteroids|
      invariant Pass(s, i, sdx, sdy, env) == Pass(s0, 0, sdx, sdy, env)
      decreases |s.bullets|, |s.asteroids| - i
    {
      var st := VisitSlot(s, i, sdx, sdy, env);
      s, i := st.sweep, st.next;
    }
  }

  /**
   * One turn of the asteroid loop at slot i: the asteroid moves, wraps and
   * pulses; an expired one explodes and is removed; otherwise the first
   * bullet touching it is consumed, for 10 points, and the asteroid splits
   * (the second child in its slot, the first appended) or is removed.
   * Returns the new state and the slot to visit next.
   */
  method VisitSlot(s: Sweep, i: nat, sdx: real, sdy: real, env: Env) returns (st: Stepped)
    requires i < |s.asteroids|
    ensures st == Step(s, i, Advanced(s.asteroids[i], sdx, sdy, env), env)
  {
    var a := Advanced(s.asteroids[i], sdx, sdy, env);
    if a.kind == Special && a.expansionTime <= 0 {
      var particles, draws := AppendBurst(s.particles, a.x, a.y, env, s.draws);
      var asteroids := s.asteroids[i := a];
      asteroids := asteroids[..i] + asteroids[i + 1..];
      return Stepped(s.(asteroids := asteroids, particles := particles, draws := draws), i, Expired);
    }
    var h := FindHit(a, s.bullets);
    if h.None? {
      return Stepped(s.(asteroids := s.asteroids[i := a]), i + 1, Missed);
    }
    st := StrikeSlot(s, i, a, h.value, env);
  }

  /** The hit branch of the asteroid loop: bullet j is deleted, the score rises by 10, and the asteroid splits or is removed. */
  method StrikeSlot(s: Sweep, i: nat, a: Asteroid, j: nat, env: Env) returns (st: Stepped)
    requires i < |s.asteroids| && j < |s.bullets|
    ensures st == Strike(s, i, a, j, env)
  {
    var asteroids := s.asteroids[i := a];
    var bullets := s.bullets[..j] + s.bullets[j + 1..];
    var score := s.score + HitScore;
    if a.size > SplitThreshold {
      var first, n1 := CreateAsteroid(a.x, a.y, a.size / 2.0, env, s.draws);
      asteroids := asteroids + [first];
      var second, n2 := CreateAsteroid(a.x, a.y, a.size / 2.0, env, n1);
      asteroids := asteroids[i := second];
      return Stepped(Sweep(asteroids, bullets, s.particles, score, n2), i + 1, Split);
    }
    asteroids := asteroids[..i] + asteroids[i + 1..];
    return Stepped(Sweep(asteroids, bullets, s.particles, score, s.draws), i, Destroyed);
  }

  /** The explosion of an expired Special asteroid: 100 particles appended one by one at (x, y). */
  method AppendBurst(particles: seq<Particle>, x: real, y: real, env: Env, k: nat) returns (r: seq<Particle>, next: nat)
    ensures r == particles + Burst(x, y, env, k, BurstSize)
    ensures next == k + ParticleDraws * BurstSize
  {
    r := particles;
    next := k;
    var j: nat := 0;
    while j < BurstSize
      invariant j <= BurstSize
      invariant r == particles + Burst(x, y, env, k, j)
      invariant next == k + ParticleDraws * j
    {
      r := r + [NewParticle(x, y, env, next)];
      assert ParticleDraws * (j + 1) == ParticleDraws * j + ParticleDraws;
      next := next + ParticleDraws;
      j := j + 1;
    }
  }

  /** The hit scan: the index of the first bullet within half the asteroid's size of its centre. */
  method FindHit(a: Asteroid, bullets: seq<Bullet>) returns (h: Option<nat>)
    ensures h == FirstHit(a, bullets)
  {
    var j: nat := 0;
    while j < |bullets|
      invariant j <= |bullets|
      invariant FirstHitFrom(a, bullets, j) == FirstHit(a, bullets)
    {
      if HitBy(a, bullets[j]) {
        return Some(j);
      }
      j := j + 1;
    }
    return None;
  }

  // ---------------------------------------------------------------------
  // Laying out fields.

  /** make([]Asteroid, n), then createAsteroid at a random integer position of the screen into each slot. */
  method LayOutAsteroids(n: nat, env: Env, k: nat) returns (field: seq<Asteroid>, next: nat)
    ensures field == AsteroidField(env, k, n)
    ensures next == k + FieldAsteroidDraws * n
  {
    field := seq(n, _ => ZeroAsteroid);
    next := k;
    var i: nat := 0;
    while i < n
      invariant i <= n && |field| == n
      invariant field[..i] == AsteroidField(env, k, i)
      invariant next == k + FieldAsteroidDraws * i
    {
      var x := Intn(640, env.rand(next));
      var y := Intn(480, env.rand(next + 1));
      var a, after := CreateAsteroid(x as real, y as real, AsteroidSize, env, next + 2);
      assert a == FieldAsteroid(env, next);
      assert AsteroidField(env, k, i + 1) == AsteroidField(env, k, i) + [a];
      FillSlot(field, i, a);
      field := field[i := a];
      assert after == next + FieldAsteroidDraws;
      assert FieldAsteroidDraws * (i + 1) == FieldAsteroidDraws * i + FieldAsteroidDraws;
      next := after;
      i := i + 1;
    }
    assert field == field[..n];
  }

  /** make([]Star, numStars), then a random star into each slot. */
  method LayOutStars(env: Env, k: nat) returns (sky: seq<Star>, next: nat)
    ensures sky == StarField(env, k, NumStars)
    ensures next == k + StarDraws * NumStars
  {
    sky := seq(NumStars, _ => Star(0.0, 0.0, 0.0, 0));
    next := k;
    var i: nat := 0;
    while i < NumStars
      invariant i <= NumStars && |sky| == NumStars
      invariant sky[..i] == StarField(env, k, i)
      invariant next == k + StarDraws * i
    {
      var star := Star(Intn(640, env.rand(next)) as real, Intn(480, env.rand(next + 1)) as real,
                       env.rand(next + 2) * 0.5 + 0.5, Intn(NumStarLayers as nat, env.rand(next + 3)) + 1);
      assert star == FieldStar(env, next);
      assert StarField(env, k, i + 1) == StarField(env, k, i) + [star];
      FillSlot(sky, i, star);
      sky := sky[i := star];
      assert StarDraws * (i + 1) == StarDraws * i + StarDraws;
      next := next + StarDraws;
      i := i + 1;
    }
    assert sky == sky[..NumStars];
  }
}
