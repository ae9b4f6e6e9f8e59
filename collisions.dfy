/**
 * The asteroid pass of one Playing tick. Slot by slot, each asteroid is
 * moved, wrapped and rotated; a Special asteroid counts down and pulses, and
 * when its countdown runs out it is replaced by a burst of particles;
 * otherwise the first bullet that hits it is consumed, the score rises, and
 * the asteroid splits in two or is removed. The slice grows and shrinks
 * while it is being walked, and the walk re-reads its length, so a child
 * appended by a split is visited later in the same pass.
 *
 * In the source the pointer to the current slot is taken before the split
 * appends the first child; when that append moves the slice, the second
 * child is written to the old backing array and lost. This model follows
 * the evident intent: slot i receives the second child.
 */
module Collisions {
  import opened Geometry
  import opened Entities
  import opened Spawning

  datatype Option<T> = None | Some(value: T)

  /** What the asteroid pass reads and writes of the game. */
  datatype Sweep = Sweep(asteroids: seq<Asteroid>, bullets: seq<Bullet>, particles: seq<Particle>, score: int, draws: nat)

  /** What became of the asteroid in the slot visited. */
  datatype Outcome = Expired | Split | Destroyed | Missed

  /** One slot visited: the new state, the next slot to visit, and what happened. */
  datatype Stepped = Stepped(sweep: Sweep, next: nat, outcome: Outcome)

  /** s with slot i deleted: append(s[:i], s[i+1:]...). */
  function Remove<T>(s: seq<T>, i: nat): (r: seq<T>)
    requires i < |s|
    ensures |r| == |s| - 1
    ensures forall k :: 0 <= k < i ==> r[k] == s[k]
    ensures forall k :: i <= k < |r| ==> r[k] == s[k + 1]
  {
    s[..i] + s[i + 1..]
  }

  lemma RemoveIsSubset<T>(s: seq<T>, i: nat)
    requires i < |s|
    ensures multiset(Remove(s, i)) <= multiset(s)
  {
    assert s == s[..i] + ([s[i]] + s[i + 1..]);
  }

  // ---------------------------------------------------------------------
  // Moving one asteroid.

  /**
   * An asteroid's motion for one tick: it drifts by its velocity less the
   * ship's, wraps onto the screen, and turns by its rotation speed. A
   * Special asteroid also counts down one tick and gets the pulsing size
   * 30 * (1 + sin(e / 180 * pi) / 2) for its new countdown e. The result is
   * always on the screen, and an asteroid that was on the screen and does
   * not move relative to the ship stays where it is.
   */
  function Advanced(a: Asteroid, sdx: real, sdy: real, env: Env): (r: Asteroid)
    ensures OnScreen(r.x, r.y)
    ensures r.dx == a.dx && r.dy == a.dy && r.rotationSpeed == a.rotationSpeed
    ensures r.rotation == a.rotation + a.rotationSpeed
    ensures r.points == a.points && r.kind == a.kind
    ensures a.kind == Normal ==> r.size == a.size && r.expansionTime == a.expansionTime
    ensures a.kind == Special ==> r.expansionTime == a.expansionTime - 1
    ensures OnScreen(a.x, a.y) && a.dx == sdx && a.dy == sdy ==> r.x == a.x && r.y == a.y
  {
    var moved := a.(x := WrapAsteroid(a.x + (a.dx - sdx), ScreenWidth),
                    y := WrapAsteroid(a.y + (a.dy - sdy), ScreenHeight),
                    rotation := a.rotation + a.rotationSpeed);
    if a.kind == Special then
      var e := a.expansionTime - 1;
      moved.(expansionTime := e,
             size := AsteroidSize * (1.0 + env.sin(e as real / SpecialAsteroidExpansionTime as real * Pi) * 0.5))
    else moved
  }

  /** A Special asteroid whose countdown has run out explodes instead of being tested for hits. */
  predicate Expires(a: Asteroid) {
    a.kind == Special && a.expansionTime <= 0
  }

  /** A well-formed asteroid that survives its advance is still well formed. */
  lemma AdvancedWellFormed(a: Asteroid, sdx: real, sdy: real, env: Env)
    requires WellFormed(a)
    ensures !Expires(Advanced(a, sdx, sdy, env)) ==> Placed(Advanced(a, sdx, sdy, env))
    ensures Expires(Advanced(a, sdx, sdy, env)) <==> a.kind == Special && a.expansionTime == 1
  {
  }

  // ---------------------------------------------------------------------
  // The hit scan.

  /** distance(a.x, a.y, b.x, b.y) < a.size / 2, in squared form. */
  predicate HitBy(a: Asteroid, b: Bullet) {
    Hit(a.x, a.y, b.x, b.y, a.size)
  }

  /**
   * The index of the first bullet that hits a, if any: a found index hits
   * and no earlier bullet does; None means no bullet hits.
   */
  function FirstHit(a: Asteroid, bullets: seq<Bullet>): (h: Option<nat>)
    ensures h.Some? ==>
      h.value < |bullets| && HitBy(a, bullets[h.value]) && forall j :: 0 <= j < h.value ==> !HitBy(a, bullets[j])
    ensures h.None? ==> forall j :: 0 <= j < |bullets| ==> !HitBy(a, bullets[j])
  {
    FirstHitFrom(a, bullets, 0)
  }

  function FirstHitFrom(a: Asteroid, bullets: seq<Bullet>, j: nat): (h: Option<nat>)
    requires j <= |bullets|
    ensures h.Some? ==>
      j <= h.value < |bullets| && HitBy(a, bullets[h.value]) && forall k :: j <= k < h.value ==> !HitBy(a, bullets[k])
    ensures h.None? ==> forall k :: j <= k < |bullets| ==> !HitBy(a, bullets[k])
    decreases |bullets| - j
  {
    if j == |bullets| then None
    else if HitBy(a, bullets[j]) then Some(j)
    else FirstHitFrom(a, bullets, j + 1)
  }

  // ---------------------------------------------------------------------
  // One slot of the pass.

  /**
   * Settling slot i of the pass, once its asteroid has been advanced to a.
   *
   * Expired: a Special asteroid whose countdown ran out is deleted, 100
   * particles at its wrapped position are appended, no bullet is tested,
   * and slot i is visited again (it now holds the next asteroid).
   *
   * Otherwise the first bullet that hits a decides. Split: above size 25,
   * two half-size asteroids at its position replace it, one in slot i and
   * one appended at the end, and the pass moves on. Destroyed: at size 25
   * or less it is deleted and slot i is visited again. Either way that
   * bullet, and only that one, is deleted and the score rises by 10.
   * Missed: no bullet hits, slot i holds a, and the pass moves on.
   *
   * Slots before i never change, and the visit always makes progress:
   * fewer bullets, or fewer slots left to visit.
   */
  function Step(s: Sweep, i: nat, a: Asteroid, env: Env): (st: Stepped)
    requires i < |s.asteroids|
    ensures st.outcome == Expired <==> Expires(a)
    ensures st.outcome == Missed <==> !Expires(a) && FirstHit(a, s.bullets).None?
    ensures st.outcome == Split ==> a.size > SplitThreshold
    ensures st.outcome == Destroyed ==> a.size <= SplitThreshold
    ensures i <= |st.sweep.asteroids| && forall k :: 0 <= k < i ==> st.sweep.asteroids[k] == s.asteroids[k]
    ensures st.outcome == Expired ==>
      st.next == i &&
      st.sweep == s.(asteroids := Remove(s.asteroids, i),
                     particles := s.particles + Burst(a.x, a.y, env, s.draws, BurstSize),
                     draws := s.draws + ParticleDraws * BurstSize)
    ensures st.outcome == Missed ==>
      st.next == i + 1 && st.sweep == s.(asteroids := s.asteroids[i := a])
    ensures st.outcome == Split || st.outcome == Destroyed ==>
      FirstHit(a, s.bullets).Some? &&
      st.sweep.bullets == Remove(s.bullets, FirstHit(a, s.bullets).value) &&
      st.sweep.score == s.score + HitScore && st.sweep.particles == s.particles
    ensures st.outcome == Split ==>
      st.next == i + 1 &&
      |st.sweep.asteroids| == |s.asteroids| + 1 &&
      (forall k :: i < k < |s.asteroids| ==> st.sweep.asteroids[k] == s.asteroids[k]) &&
      st.sweep.asteroids[i] == NewAsteroid(a.x, a.y, a.size / 2.0, env, s.draws + AsteroidDraws) &&
      st.sweep.asteroids[|s.asteroids|] == NewAsteroid(a.x, a.y, a.size / 2.0, env, s.draws) &&
      st.sweep.draws == s.draws + 2 * AsteroidDraws
    ensures st.outcome == Destroyed ==>
      st.next == i && st.sweep.asteroids == Remove(s.asteroids, i) && st.sweep.draws == s.draws
    ensures st.next <= |st.sweep.asteroids|
    ensures |st.sweep.bullets| < |s.bullets| ||
      (|st.sweep.bullets| == |s.bullets| && |st.sweep.asteroids| - st.next < |s.asteroids| - i)
  {
    if Expires(a) then
      Stepped(s.(asteroids := Remove(s.asteroids, i),
                 particles := s.particles + Burst(a.x, a.y, env, s.draws, BurstSize),
                 draws := s.draws + ParticleDraws * BurstSize),
              i, Expired)
    else
      var h := FirstHit(a, s.bullets);
      if h.None? then Stepped(s.(asteroids := s.asteroids[i := a]), i + 1, Missed)
      else Strike(s, i, a, h.value, env)
  }

  /**
   * Bullet j strikes the asteroid a of slot i: the bullet is deleted and 10
   * points are scored; a large asteroid splits into two halves (the second
   * created takes slot i, the first is appended), a small one is removed.
   */
  function Strike(s: Sweep, i: nat, a: Asteroid, j: nat, env: Env): Stepped
    requires i < |s.asteroids| && j < |s.bullets|
  {
    var hit := s.(bullets := Remove(s.bullets, j), score := s.score + HitScore);
    if a.size > SplitThreshold then
      var first := NewAsteroid(a.x, a.y, a.size / 2.0, env, s.draws);
      var second := NewAsteroid(a.x, a.y, a.size / 2.0, env, s.draws + AsteroidDraws);
      Stepped(hit.(asteroids := s.asteroids[i := second] + [first], draws := s.draws + 2 * AsteroidDraws),
              i + 1, Split)
    else
      Stepped(hit.(asteroids := Remove(s.asteroids, i)), i, Destroyed)
  }

  // ---------------------------------------------------------------------
  // The whole pass.

  /** The pass from slot i to the end of the (changing) asteroid slice. */
  function Pass(s: Sweep, i: nat, sdx: real, sdy: real, env: Env): Sweep
    requires i <= |s.asteroids|
    decreases |s.bullets|, |s.asteroids| - i
  {
    if i == |s.asteroids| then s
    else
      var st := Step(s, i, Advanced(s.asteroids[i], sdx, sdy, env), env);
      Pass(st.sweep, st.next, sdx, sdy, env)
  }

  /** Every slot visit adds 10 to the score for each bullet it consumes, so the pass does too, and never gains bullets. */
  lemma {:induction false} PassScore(s: Sweep, i: nat, sdx: real, sdy: real, env: Env)
    requires i <= |s.asteroids|
    ensures |Pass(s, i, sdx, sdy, env).bullets| <= |s.bullets|
    ensures Pass(s, i, sdx, sdy, env).score == s.score + HitScore * (|s.bullets| - |Pass(s, i, sdx, sdy, env).bullets|)
    decreases |s.bullets|, |s.asteroids| - i
  {
    if i < |s.asteroids| {
      var st := Step(s, i, Advanced(s.asteroids[i], sdx, sdy, env), env);
      PassScore(st.sweep, st.next, sdx, sdy, env);
    }
  }

  /** The bullets left after the pass are some of those before it: the pass only deletes bullets. */
  lemma {:induction false} PassBullets(s: Sweep, i: nat, sdx: real, sdy: real, env: Env)
    requires i <= |s.asteroids|
    ensures multiset(Pass(s, i, sdx, sdy, env).bullets) <= multiset(s.bullets)
    decreases |s.bullets|, |s.asteroids| - i
  {
    if i < |s.asteroids| {
      var st := Step(s, i, Advanced(s.asteroids[i], sdx, sdy, env), env);
      PassBullets(st.sweep, st.next, sdx, sdy, env);
      var h := FirstHit(Advanced(s.asteroids[i], sdx, sdy, env), s.bullets);
      if h.Some? {
        RemoveIsSubset(s.bullets, h.value);
      }
    }
  }

  /** q is p followed by whole bursts of fresh particles: at full lifetime and live. */
  predicate BurstsAppended(p: seq<Particle>, q: seq<Particle>) {
    |p| <= |q| && q[..|p|] == p && (|q| - |p|) % BurstSize == 0 &&
    forall k :: |p| <= k < |q| ==> q[k].lifetime == ParticleLifetime && ParticleLive(q[k])
  }

  lemma BurstsAppendedTrans(p: seq<Particle>, q: seq<Particle>, r: seq<Particle>)
    requires BurstsAppended(p, q) && BurstsAppended(q, r)
    ensures BurstsAppended(p, r)
  {
    assert r[..|p|] == r[..|q|][..|p|];
    forall k | |p| <= k < |r| ensures r[k].lifetime == ParticleLifetime && ParticleLive(r[k]) {
      if k < |q| {
        assert r[k] == r[..|q|][k];
      }
    }
  }

  /** The pass only appends particles, in bursts of 100, and every particle it appends is fresh. */
  lemma {:induction false} PassParticles(s: Sweep, i: nat, sdx: real, sdy: real, env: Env)
    requires i <= |s.asteroids|
    ensures BurstsAppended(s.particles, Pass(s, i, sdx, sdy, env).particles)
    decreases |s.bullets|, |s.asteroids| - i
  {
    if i == |s.asteroids| {
      assert s.particles[..|s.particles|] == s.particles;
    } else {
      var a := Advanced(s.asteroids[i], sdx, sdy, env);
      var st := Step(s, i, a, env);
      PassParticles(st.sweep, st.next, sdx, sdy, env);
      var m := st.sweep.particles;
      if st.outcome == Expired {
        var b := Burst(a.x, a.y, env, s.draws, BurstSize);
        BurstFresh(a.x, a.y, env, s.draws, BurstSize);
        assert m == s.particles + b;
        assert m[..|s.particles|] == s.particles;
        forall k | |s.particles| <= k < |m|
          ensures m[k].lifetime == ParticleLifetime && ParticleLive(m[k])
        {
          assert m[k] == b[k - |s.particles|];
          assert m[k] in b;
        }
      } else {
        assert m[..|s.particles|] == s.particles;
      }
      BurstsAppendedTrans(s.particles, m, Pass(s, i, sdx, sdy, env).particles);
    }
  }

  /**
   * When the asteroids not yet visited are well formed and the visited ones
   * are placed, every asteroid the pass leaves is well formed and on the
   * screen.
   */
  lemma {:induction false} PassPlaces(s: Sweep, i: nat, sdx: real, sdy: real, env: Env)
    requires i <= |s.asteroids|
    requires forall k :: 0 <= k < i ==> Placed(s.asteroids[k])
    requires forall k :: i <= k < |s.asteroids| ==> WellFormed(s.asteroids[k])
    ensures forall k :: 0 <= k < |Pass(s, i, sdx, sdy, env).asteroids| ==> Placed(Pass(s, i, sdx, sdy, env).asteroids[k])
    decreases |s.bullets|, |s.asteroids| - i
  {
    if i < |s.asteroids| {
      var a := Advanced(s.asteroids[i], sdx, sdy, env);
      var st := Step(s, i, a, env);
      AdvancedWellFormed(s.asteroids[i], sdx, sdy, env);
      if st.outcome == Split {
        NewChildPlaced(a, env, s.draws);
        NewChildPlaced(a, env, s.draws + AsteroidDraws);
      }
      PassPlaces(st.sweep, st.next, sdx, sdy, env);
    }
  }

  /** A child of a split is well formed and on the screen, since it is made at its parent's wrapped position. */
  lemma NewChildPlaced(a: Asteroid, env: Env, k: nat)
    requires OnScreen(a.x, a.y)
    ensures Placed(NewAsteroid(a.x, a.y, a.size / 2.0, env, k))
    ensures NewAsteroid(a.x, a.y, a.size / 2.0, env, k).size == a.size / 2.0
  {
  }

  /** With no bullets in flight the pass never splits or destroys: the score stays and the asteroid count never rises. */
  lemma {:induction false} PassWithoutBullets(s: Sweep, i: nat, sdx: real, sdy: real, env: Env)
    requires i <= |s.asteroids| && s.bullets == []
    ensures Pass(s, i, sdx, sdy, env).score == s.score
    ensures |Pass(s, i, sdx, sdy, env).asteroids| <= |s.asteroids|
    ensures Pass(s, i, sdx, sdy, env).bullets == []
    decreases |s.asteroids| - i
  {
    if i < |s.asteroids| {
      var st := Step(s, i, Advanced(s.asteroids[i], sdx, sdy, env), env);
      assert FirstHit(Advanced(s.asteroids[i], sdx, sdy, env), s.bullets).None?;
      PassWithoutBullets(st.sweep, st.next, sdx, sdy, env);
    }
  }
}
