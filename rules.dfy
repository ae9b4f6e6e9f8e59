/**
 * The whole game as a value, and one call of Update as a function of it:
 * the tick counter, the Playing/GameOver state machine, the order of the
 * Playing tick's passes (ship, world position, stars, firing, bullets,
 * asteroids, particles, terminal check), and restartGame. The Game class
 * is proved to change its fields exactly as these functions say.
 */
module Rules {
  import opened Geometry
  import opened Entities
  import opened Spawning
  import opened Pruning
  import opened Collisions

  /** Number of asteroids restartGame lays out. */
  const RestartAsteroids: nat := 5
  /** Number of asteroids the program starts with. */
  const InitialAsteroids: nat := 15

  /** Every field of the game that Update reads or writes, and the position of the random generator. */
  datatype World = World(
    ship: Ship,
    asteroids: seq<Asteroid>,
    bullets: seq<Bullet>,
    stars: seq<Star>,
    particles: seq<Particle>,
    score: int,
    state: GameState,
    worldX: real,
    worldY: real,
    tick: nat,
    draws: nat)

  /**
   * What every reachable game satisfies: the game is over exactly when no
   * asteroid is left; every asteroid is well formed and on the screen;
   * every star is on the screen in a valid layer; every
   * bullet and particle is live; the score is a non-negative multiple of 10.
   */
  predicate Inv(w: World) {
    (w.state == GameOver <==> |w.asteroids| == 0) &&
    AllPlaced(w.asteroids) && AllStarsPlaced(w.stars) && AllBulletsLive(w.bullets) && AllParticlesLive(w.particles) &&
    0 <= w.score && w.score % HitScore == 0
  }

  predicate AllPlaced(s: seq<Asteroid>) {
    forall k :: 0 <= k < |s| ==> Placed(s[k])
  }

  predicate AllStarsPlaced(s: seq<Star>) {
    forall k :: 0 <= k < |s| ==> StarPlaced(s[k])
  }

  predicate AllInBand(s: seq<Star>) {
    forall k :: 0 <= k < |s| ==> StarInBand(s[k])
  }

  predicate AllBulletsLive(s: seq<Bullet>) {
    forall k :: 0 <= k < |s| ==> BulletLive(s[k])
  }

  predicate AllParticlesLive(s: seq<Particle>) {
    forall k :: 0 <= k < |s| ==> ParticleLive(s[k])
  }

  // ---------------------------------------------------------------------
  // The passes of a Playing tick.

  /** Every star scrolled once by the ship's velocity. */
  function ScrolledStars(stars: seq<Star>, sdx: real, sdy: real): (r: seq<Star>)
    ensures |r| == |stars|
    ensures forall i :: 0 <= i < |r| ==> r[i] == ScrollStar(stars[i], sdx, sdy)
    ensures AllInBand(stars) ==> AllInBand(r)
    ensures AllStarsPlaced(stars) && -MaxVelocity <= sdx <= MaxVelocity && -MaxVelocity <= sdy <= MaxVelocity ==>
      AllStarsPlaced(r)
  {
    seq(|stars|, i requires 0 <= i < |stars| => ScrollStar(stars[i], sdx, sdy))
  }

  /**
   * Firing: one new bullet at the end when Space is held and the tick is a
   * multiple of the cooldown, otherwise the bullets as they were.
   */
  function Fired(bullets: seq<Bullet>, ship: Ship, keys: Keys, tick: nat, env: Env): (r: seq<Bullet>)
    ensures |r| == |bullets| + (if keys.space && tick % FireCooldown == 0 then 1 else 0)
    ensures r[..|bullets|] == bullets
    ensures |r| > |bullets| ==> r[|bullets|] == NewBullet(ship, env) && r[|bullets|].lifetime == BulletLifetime
  {
    if keys.space && tick % FireCooldown == 0 then bullets + [NewBullet(ship, env)] else bullets
  }

  /** The bullet pass's step for a ship velocity (sdx, sdy). */
  function BulletStep(sdx: real, sdy: real): Bullet -> Bullet {
    b => MoveBullet(b, sdx, sdy)
  }

  /** The bullet pass: every bullet moves and ages one tick, the spent ones are deleted. */
  function BulletPass(bullets: seq<Bullet>, sdx: real, sdy: real): seq<Bullet> {
    AgeAndPrune(bullets, BulletStep(sdx, sdy), BulletAlive)
  }

  /** The particle pass: every particle moves, ages and cools one tick, the spent ones are deleted. */
  function ParticlePass(particles: seq<Particle>): seq<Particle> {
    AgeAndPrune(particles, AgeParticle, ParticleAlive)
  }

  /** The asteroid pass over the whole slice, from slot 0. */
  function AsteroidPass(w: World, bullets: seq<Bullet>, sdx: real, sdy: real, env: Env): Sweep {
    Pass(Sweep(w.asteroids, bullets, w.particles, w.score, w.draws), 0, sdx, sdy, env)
  }

  /**
   * updatePlaying on a game whose tick has already been advanced. After it
   * the game is over exactly when no asteroid is left, and the tick is as
   * it was.
   */
  function PlayingTick(w: World, keys: Keys, env: Env): (r: World)
    requires w.state == Playing
    ensures r.state == GameOver <==> |r.asteroids| == 0
    ensures r.tick == w.tick
  {
    var ship := Steer(w.ship, keys, env);
    var bullets := BulletPass(Fired(w.bullets, ship, keys, w.tick, env), ship.dx, ship.dy);
    var sweep := AsteroidPass(w, bullets, ship.dx, ship.dy, env);
    World(ship, sweep.asteroids, sweep.bullets, ScrolledStars(w.stars, ship.dx, ship.dy),
          ParticlePass(sweep.particles), sweep.score,
          if |sweep.asteroids| == 0 then GameOver else w.state,
          w.worldX + ship.dx, w.worldY + ship.dy, w.tick, sweep.draws)
  }

  /** The bullets in flight when the asteroid pass of a Playing tick begins: fired, moved and pruned. */
  function BulletsBeforeSweep(w: World, keys: Keys, env: Env): seq<Bullet> {
    var ship := Steer(w.ship, keys, env);
    BulletPass(Fired(w.bullets, ship, keys, w.tick, env), ship.dx, ship.dy)
  }

  /**
   * A Playing tick never lowers the score: it rises by exactly 10 for each
   * bullet the asteroid pass consumes, and no bullet appears during that pass.
   */
  lemma PlayingScore(w: World, keys: Keys, env: Env)
    requires w.state == Playing
    ensures var r := PlayingTick(w, keys, env);
      var before := BulletsBeforeSweep(w, keys, env);
      |r.bullets| <= |before| && r.score == w.score + HitScore * (|before| - |r.bullets|)
  {
    var ship := Steer(w.ship, keys, env);
    var bullets := BulletsBeforeSweep(w, keys, env);
    PassScore(Sweep(w.asteroids, bullets, w.particles, w.score, w.draws), 0, ship.dx, ship.dy, env);
  }

  /** Adding 10 per consumed bullet keeps a score that is a non-negative multiple of 10 one. */
  lemma {:induction false} ScoreStep(score: int, consumed: nat)
    requires 0 <= score && score % HitScore == 0
    ensures 0 <= score + HitScore * consumed && (score + HitScore * consumed) % HitScore == 0
  {
    if consumed > 0 {
      ScoreStep(score, consumed - 1);
      assert score + HitScore * consumed == (score + HitScore * (consumed - 1)) + 10;
    }
  }

  // ---------------------------------------------------------------------
  // restartGame and the tick.

  /**
   * restartGame: a zeroed ship, five fresh full-size asteroids at random
   * integer positions, no bullets or particles, score 0, Playing, the world
   * position at the origin; the stars and the tick are left alone.
   */
  function Restart(w: World, env: Env): (r: World)
    ensures r.ship == Ship(0.0, 0.0, 0.0, false)
    ensures |r.asteroids| == RestartAsteroids
    ensures forall a <- r.asteroids :: a.size == AsteroidSize && a.expansionTime == SpecialAsteroidExpansionTime
    ensures r.bullets == [] && r.particles == []
    ensures r.score == 0 && r.state == Playing && r.worldX == 0.0 && r.worldY == 0.0
    ensures r.stars == w.stars && r.tick == w.tick
  {
    AsteroidFieldShape(env, w.draws, RestartAsteroids);
    World(Ship(0.0, 0.0, 0.0, false), AsteroidField(env, w.draws, RestartAsteroids), [], w.stars, [], 0, Playing,
          0.0, 0.0, w.tick, w.draws + FieldAsteroidDraws * RestartAsteroids)
  }

  /** Whatever came before, restartGame leads to the same game: only the stars, the tick and the generator position carry over. */
  lemma RestartForgetsThePast(w1: World, w2: World, env: Env)
    requires w1.stars == w2.stars && w1.tick == w2.tick && w1.draws == w2.draws
    ensures Restart(w1, env) == Restart(w2, env)
  {
  }

  /**
   * Update: the tick advances by exactly one, then the state decides. In
   * Playing the Playing tick runs, after which the game is over exactly
   * when no asteroid is left. In GameOver, Space restarts the game and
   * without it nothing but the tick changes.
   */
  function Tick(w: World, keys: Keys, env: Env): (r: World)
    ensures r.tick == w.tick + 1
    ensures w.state == GameOver && !keys.space ==> r == w.(tick := w.tick + 1)
    ensures w.state == GameOver && keys.space ==> r.state == Playing && |r.asteroids| == RestartAsteroids
    ensures w.state == Playing ==> (r.state == GameOver <==> |r.asteroids| == 0)
  {
    var w1 := w.(tick := w.tick + 1);
    if w.state == Playing then PlayingTick(w1, keys, env)
    else if keys.space then Restart(w1, env)
    else w1
  }

  /** The game the program starts with: 15 asteroids, then 200 stars, all from the generator's first draws. */
  function Initial(env: Env): (w: World)
    ensures |w.asteroids| == InitialAsteroids && |w.stars| == NumStars
    ensures w.state == Playing && w.score == 0 && w.tick == 0 && w.bullets == [] && w.particles == []
  {
    var starsFrom := FieldAsteroidDraws * InitialAsteroids;
    World(Ship(0.0, 0.0, 0.0, false), AsteroidField(env, 0, InitialAsteroids), [],
          StarField(env, starsFrom, NumStars), [], 0, Playing, 0.0, 0.0, 0, starsFrom + StarDraws * NumStars)
  }

  // ---------------------------------------------------------------------
  // The invariant.

  /** With draws in [0, 1) the starting game satisfies the invariant. */
  lemma InitialInv(env: Env)
    requires UnitStream(env.rand)
    ensures Inv(Initial(env))
  {
    var w := Initial(env);
    AsteroidFieldShape(env, 0, InitialAsteroids);
    StarFieldPlaced(env, FieldAsteroidDraws * InitialAsteroids, NumStars);
    forall k | 0 <= k < |w.stars| ensures StarPlaced(w.stars[k]) {
      assert w.stars[k] in w.stars;
    }
    forall k | 0 <= k < |w.asteroids| ensures Placed(w.asteroids[k]) {
      assert w.asteroids[k] in w.asteroids;
    }
  }

  /** The environment the program runs in: draws in [0, 1) and a true square root. */
  ghost predicate SoundEnv(env: Env) {
    UnitStream(env.rand) && IsSqrt(env.sqrt)
  }

  /** With draws in [0, 1) and a true square root, every Update keeps the invariant. */
  lemma TickKeepsInv(w: World, keys: Keys, env: Env)
    ensures Inv(w) && SoundEnv(env) ==> Inv(Tick(w, keys, env))
  {
    var w1 := w.(tick := w.tick + 1);
    if !(Inv(w) && SoundEnv(env)) {
    } else if w.state == Playing {
      PlayingKeepsInv(w1, keys, env);
    } else if keys.space {
      RestartInv(w1, env);
    }
  }

  /** With draws in [0, 1), restartGame leads to a game satisfying the invariant, whatever came before, provided the stars it keeps are on the screen. */
  lemma RestartInv(w: World, env: Env)
    requires AllStarsPlaced(w.stars) && UnitStream(env.rand)
    ensures Inv(Restart(w, env))
  {
    var r := Restart(w, env);
    assert r.asteroids == AsteroidField(env, w.draws, RestartAsteroids);
    AsteroidFieldShape(env, w.draws, RestartAsteroids);
    forall k | 0 <= k < |r.asteroids| ensures Placed(r.asteroids[k]) {
      assert r.asteroids[k] in r.asteroids;
    }
  }

  /**
   * A Playing tick keeps the invariant. The square root matters for the
   * stars: it bounds each velocity component by MaxVelocity, so a star never
   * moves further than it is wrapped back.
   */
  lemma PlayingKeepsInv(w: World, keys: Keys, env: Env)
    requires Inv(w) && w.state == Playing && IsSqrt(env.sqrt)
    ensures Inv(PlayingTick(w, keys, env))
  {
    var r := PlayingTick(w, keys, env);
    assert AllBulletsLive(r.bullets) by { PlayingBulletsLive(w, keys, env); }
    assert AllPlaced(r.asteroids) by { PlayingAsteroidsPlaced(w, keys, env); }
    assert AllParticlesLive(r.particles) by { PlayingParticlesLive(w, keys, env); }
    assert AllStarsPlaced(r.stars) by {
      var ship := Steer(w.ship, keys, env);
      assert r.stars == ScrolledStars(w.stars, ship.dx, ship.dy);
    }
    assert 0 <= r.score && r.score % HitScore == 0 by {
      PlayingScore(w, keys, env);
      ScoreStep(w.score, |BulletsBeforeSweep(w, keys, env)| - |r.bullets|);
    }
  }

  lemma PlayingBulletsLive(w: World, keys: Keys, env: Env)
    requires AllBulletsLive(w.bullets) && w.state == Playing
    ensures AllBulletsLive(PlayingTick(w, keys, env).bullets)
  {
    var ship := Steer(w.ship, keys, env);
    var fired := Fired(w.bullets, ship, keys, w.tick, env);
    var bullets := BulletPass(fired, ship.dx, ship.dy);
    var s0 := Sweep(w.asteroids, bullets, w.particles, w.score, w.draws);
    var after := Pass(s0, 0, ship.dx, ship.dy, env).bullets;
    assert AllBulletsLive(fired) by {
      forall k | 0 <= k < |fired| ensures BulletLive(fired[k]) {
        if k < |w.bullets| {
          assert fired[k] == fired[..|w.bullets|][k];
        }
      }
    }
    BulletSurvivorsLive(fired, ship.dx, ship.dy);
    PassBullets(s0, 0, ship.dx, ship.dy, env);
    forall k | 0 <= k < |after| ensures BulletLive(after[k]) {
      assert after[k] in multiset(after);
      assert after[k] in multiset(bullets);
    }
  }

  lemma PlayingAsteroidsPlaced(w: World, keys: Keys, env: Env)
    requires AllPlaced(w.asteroids) && w.state == Playing
    ensures AllPlaced(PlayingTick(w, keys, env).asteroids)
  {
    var ship := Steer(w.ship, keys, env);
    var bullets := BulletsBeforeSweep(w, keys, env);
    var s0 := Sweep(w.asteroids, bullets, w.particles, w.score, w.draws);
    PassPlaces(s0, 0, ship.dx, ship.dy, env);
  }

  lemma PlayingParticlesLive(w: World, keys: Keys, env: Env)
    requires AllParticlesLive(w.particles) && w.state == Playing
    ensures AllParticlesLive(PlayingTick(w, keys, env).particles)
  {
    var ship := Steer(w.ship, keys, env);
    var bullets := BulletsBeforeSweep(w, keys, env);
    var s0 := Sweep(w.asteroids, bullets, w.particles, w.score, w.draws);
    var swept := Pass(s0, 0, ship.dx, ship.dy, env).particles;
    PassParticles(s0, 0, ship.dx, ship.dy, env);
    forall k | 0 <= k < |swept| ensures ParticleLive(swept[k]) {
      if k < |w.particles| {
        assert swept[k] == swept[..|w.particles|][k];
      }
    }
    ParticleSurvivorsLive(swept);
  }

  /** A bullet that survives the bullet pass is still live: it lost one tick of at most 60 and has some left. */
  lemma BulletSurvivorsLive(bullets: seq<Bullet>, sdx: real, sdy: real)
    requires AllBulletsLive(bullets)
    ensures AllBulletsLive(BulletPass(bullets, sdx, sdy))
  {
    var r := BulletPass(bullets, sdx, sdy);
    AgeAndPruneKeeps(bullets, BulletStep(sdx, sdy), BulletAlive, BulletLive);
    forall k | 0 <= k < |r| ensures BulletLive(r[k]) {
      assert r[k] in r;
    }
  }

  /** A particle that survives the particle pass is still live. */
  lemma ParticleSurvivorsLive(particles: seq<Particle>)
    requires AllParticlesLive(particles)
    ensures AllParticlesLive(ParticlePass(particles))
  {
    var r := ParticlePass(particles);
    forall p | ParticleLive(p) && ParticleAlive(AgeParticle(p)) ensures ParticleLive(AgeParticle(p)) {
      CoolingNeverBrightens(p);
    }
    AgeAndPruneKeeps(particles, AgeParticle, ParticleAlive, ParticleLive);
    forall k | 0 <= k < |r| ensures ParticleLive(r[k]) {
      assert r[k] in r;
    }
  }

  /**
   * The bullet pass in the source's terms: a bullet is left exactly when it
   * is some bullet moved by its velocity less the ship's with one tick less
   * to live, and that is still positive; the survivors keep their order,
   * and bullets fired later stay behind those fired earlier.
   */
  lemma BulletPassMembers(bullets: seq<Bullet>, sdx: real, sdy: real, y: Bullet)
    ensures y in BulletPass(bullets, sdx, sdy) <==>
      y.lifetime > 0 && exists i :: 0 <= i < |bullets| && y == MoveBullet(bullets[i], sdx, sdy)
  {
    AgeAndPruneMembers(bullets, BulletStep(sdx, sdy), BulletAlive, y);
  }

  /** The particle pass in the source's terms: a particle is left exactly when it is some particle aged one tick whose life is still positive. */
  lemma ParticlePassMembers(particles: seq<Particle>, y: Particle)
    ensures y in ParticlePass(particles) <==>
      y.lifetime > 0.0 && exists i :: 0 <= i < |particles| && y == AgeParticle(particles[i])
  {
    AgeAndPruneMembers(particles, AgeParticle, ParticleAlive, y);
  }
}
