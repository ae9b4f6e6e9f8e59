/**
 * Making new things: createAsteroid, the particle burst of an expiring
 * Special asteroid, and the random asteroid and star fields that the start
 * of the program and restartGame lay out. Every random draw is read from
 * the generator stream env.rand at an explicit position, so each of these
 * says how many draws it consumes.
 */
module Spawning {
  import opened Geometry
  import opened Entities

  /** createAsteroid draws 14 values: the kind, dx, dy, the rotation speed and one radius per vertex. */
  const AsteroidDraws: nat := 4 + NumAsteroidVertices
  /** A burst particle draws its angle and its speed. */
  const ParticleDraws: nat := 2
  /** Placing an asteroid of a field draws x and y, then createAsteroid's own draws. */
  const FieldAsteroidDraws: nat := 2 + AsteroidDraws
  /** A star draws x, y, its brightness and its layer. */
  const StarDraws: nat := 4

  /** cos and sin of one angle lie on the unit circle. */
  ghost predicate IsTrig(cos: real -> real, sin: real -> real) {
    forall t: real :: cos(t) * cos(t) + sin(t) * sin(t) == 1.0
  }

  // ---------------------------------------------------------------------
  // createAsteroid.

  /** The direction of vertex i: i tenths of a full turn. */
  function VertexAngle(i: nat): real {
    i as real * (2.0 * Pi / NumAsteroidVertices as real)
  }

  /** The radius of a vertex for one draw u: size/2 + u*size/4 - size/8. */
  function VertexRadius(size: real, u: real): real {
    size / 2.0 + u * size / 4.0 - size / 8.0
  }

  /** One coordinate of a vertex: the cosine or sine of its direction times its radius. */
  function Coord(dir: real, r: real): real {
    dir * r
  }

  /** For a draw in [0, 1), a vertex lies between 3/8 and 5/8 of the size from the centre. */
  lemma RadiusBounds(size: real, u: real)
    requires 0.0 < size && 0.0 <= u < 1.0
    ensures 3.0 * size / 8.0 <= VertexRadius(size, u) < 5.0 * size / 8.0
  {
    MulMono(size, 0.0, u);
    MulStrict(size, u, 1.0);
    assert u * size == size * u;
  }

  /**
   * The first n vertices of an outline as the coordinate pairs createAsteroid
   * stores: cos then sin of the vertex angle, each times the vertex radius,
   * with vertex i's radius taken from draw k + i.
   */
  function Outline(size: real, env: Env, k: nat, n: nat): (o: seq<real>)
    ensures |o| == 2 * n
  {
    if n == 0 then []
    else
      var r := VertexRadius(size, env.rand(k + n - 1));
      Outline(size, env, k, n - 1) + [Coord(env.cos(VertexAngle(n - 1)), r), Coord(env.sin(VertexAngle(n - 1)), r)]
  }

  lemma OutlineStep(size: real, env: Env, k: nat, n: nat)
    ensures Outline(size, env, k, n + 1) ==
      Outline(size, env, k, n) + [Coord(env.cos(VertexAngle(n)), VertexRadius(size, env.rand(k + n))),
                                  Coord(env.sin(VertexAngle(n)), VertexRadius(size, env.rand(k + n)))]
  {
  }

  /** Every coordinate pair of an outline is its vertex's direction scaled by its vertex's radius. */
  lemma {:induction false} OutlineVertex(size: real, env: Env, k: nat, n: nat, i: nat)
    requires i < n
    ensures Outline(size, env, k, n)[2 * i] == Coord(env.cos(VertexAngle(i)), VertexRadius(size, env.rand(k + i)))
    ensures Outline(size, env, k, n)[2 * i + 1] == Coord(env.sin(VertexAngle(i)), VertexRadius(size, env.rand(k + i)))
  {
    if i < n - 1 {
      OutlineVertex(size, env, k, n - 1, i);
    }
  }

  /** With a true cos and sin, vertex i sits at distance r_i from the centre. */
  lemma VertexOnCircle(size: real, env: Env, k: nat, n: nat, i: nat)
    requires IsTrig(env.cos, env.sin) && i < n
    ensures
      var o := Outline(size, env, k, n);
      var r := VertexRadius(size, env.rand(k + i));
      o[2 * i] * o[2 * i] + o[2 * i + 1] * o[2 * i + 1] == r * r
  {
    OutlineVertex(size, env, k, n, i);
    var t := VertexAngle(i);
    Pythagoras(env.cos(t), env.sin(t), VertexRadius(size, env.rand(k + i)));
  }

  lemma Pythagoras(c: real, s: real, r: real)
    requires c * c + s * s == 1.0
    ensures (c * r) * (c * r) + (s * r) * (s * r) == r * r
  {
    assert (c * r) * (c * r) == (c * c) * (r * r);
    assert (s * r) * (s * r) == (s * s) * (r * r);
    assert (c * c) * (r * r) + (s * s) * (r * r) == (c * c + s * s) * (r * r);
  }

  /**
   * The asteroid createAsteroid(x, y, size) returns when the generator is at
   * position k: draws k..k+3 pick the kind, dx, dy and rotation speed, and
   * draws k+4..k+13 the vertex radii.
   */
  function NewAsteroid(x: real, y: real, size: real, env: Env, k: nat): Asteroid {
    var kind := if env.rand(k) < SpecialAsteroidProb then Special else Normal;
    Asteroid(x, y,
             (env.rand(k + 1) * 2.0 - 1.0) * 2.0,
             (env.rand(k + 2) * 2.0 - 1.0) * 2.0,
             size, 0.0,
             (env.rand(k + 3) - 0.5) * 0.1,
             Outline(size, env, k + 4, NumAsteroidVertices),
             kind,
             SpecialAsteroidExpansionTime)
  }

  /**
   * A new asteroid sits at (x, y) with the given size, no rotation and a
   * full countdown; it is Special exactly when the first draw is below 0.1;
   * for draws in [0, 1) each velocity component lies in [-2, 2) and the
   * rotation speed in [-0.05, 0.05).
   */
  lemma NewAsteroidShape(x: real, y: real, size: real, env: Env, k: nat)
    ensures var a := NewAsteroid(x, y, size, env, k);
      a.x == x && a.y == y && a.size == size &&
      a.rotation == 0.0 && a.expansionTime == SpecialAsteroidExpansionTime &&
      |a.points| == 2 * NumAsteroidVertices &&
      (a.kind == Special <==> env.rand(k) < SpecialAsteroidProb) &&
      WellFormed(a)
    ensures var a := NewAsteroid(x, y, size, env, k);
      UnitStream(env.rand) ==> -2.0 <= a.dx < 2.0 && -2.0 <= a.dy < 2.0 && -0.05 <= a.rotationSpeed < 0.05
  {
  }

  /**
   * createAsteroid as the source writes it: the kind is drawn first, the
   * points slice is made as 20 zeros and filled vertex by vertex in a loop.
   * Returns the asteroid and the generator position after its draws.
   */
  method CreateAsteroid(x: real, y: real, size: real, env: Env, k: nat) returns (a: Asteroid, next: nat)
    ensures a == NewAsteroid(x, y, size, env, k)
    ensures next == k + AsteroidDraws
  {
    var kind := if env.rand(k) < SpecialAsteroidProb then Special else Normal;
    var points: seq<real> := seq(2 * NumAsteroidVertices, _ => 0.0);
    var i: nat := 0;
    while i < NumAsteroidVertices
      invariant i <= NumAsteroidVertices
      invariant |points| == 2 * NumAsteroidVertices
      invariant points[..2 * i] == Outline(size, env, k + 4, i)
    {
      var angle := VertexAngle(i);
      var r := VertexRadius(size, env.rand(k + 4 + i));
      var before := points;
      points := points[2 * i := Coord(env.cos(angle), r)][2 * i + 1 := Coord(env.sin(angle), r)];
      assert points[..2 * (i + 1)] == before[..2 * i] + [Coord(env.cos(angle), r), Coord(env.sin(angle), r)];
      OutlineStep(size, env, k + 4, i);
      i := i + 1;
    }
    assert points == points[..2 * NumAsteroidVertices];
    a := Asteroid(x, y,
                  (env.rand(k + 1) * 2.0 - 1.0) * 2.0,
                  (env.rand(k + 2) * 2.0 - 1.0) * 2.0,
                  size, 0.0,
                  (env.rand(k + 3) - 0.5) * 0.1,
                  points,
                  kind,
                  SpecialAsteroidExpansionTime);
    next := k + AsteroidDraws;
  }

  // ---------------------------------------------------------------------
  // The particle burst.

  /**
   * One burst particle at (x, y), drawing its heading (a fraction of a full
   * turn) and its speed (up to 5) at positions k and k+1; it is opaque
   * yellow with 180 ticks to live.
   */
  function NewParticle(x: real, y: real, env: Env, k: nat): (p: Particle)
    ensures p.x == x && p.y == y
    ensures p.color == Rgba(255, 255, 0, 255)
    ensures p.lifetime == ParticleLifetime && ParticleLive(p)
  {
    var angle := env.rand(k) * 2.0 * Pi;
    var speed := env.rand(k + 1) * ParticleSpeed;
    Particle(x, y, env.cos(angle) * speed, env.sin(angle) * speed, Rgba(255, 255, 0, 255), ParticleLifetime)
  }

  /** The first n particles of a burst at (x, y) whose draws start at position k. */
  function Burst(x: real, y: real, env: Env, k: nat, n: nat): (b: seq<Particle>)
    ensures |b| == n
  {
    if n == 0 then [] else Burst(x, y, env, k, n - 1) + [NewParticle(x, y, env, k + ParticleDraws * (n - 1))]
  }

  /** Every particle of a burst is at (x, y), fresh and live. */
  lemma {:induction false} BurstFresh(x: real, y: real, env: Env, k: nat, n: nat)
    ensures forall p <- Burst(x, y, env, k, n) :: p.x == x && p.y == y && p.lifetime == ParticleLifetime && ParticleLive(p)
  {
    if n > 0 {
      BurstFresh(x, y, env, k, n - 1);
    }
  }

  // ---------------------------------------------------------------------
  // Random fields.

  /** Writing slot i of a slice extends its first i slots by the written value. */
  lemma FillSlot<T>(s: seq<T>, i: nat, x: T)
    requires i < |s|
    ensures s[i := x][..i + 1] == s[..i] + [x]
  {
  }

  /**
   * The first n asteroids of a field: asteroid i draws its integer x in
   * [0, 640) and y in [0, 480), then is createAsteroid(x, y, 30), sixteen
   * draws in all.
   */
  function AsteroidField(env: Env, k: nat, n: nat): (f: seq<Asteroid>)
    ensures |f| == n
  {
    if n == 0 then []
    else AsteroidField(env, k, n - 1) + [FieldAsteroid(env, k + FieldAsteroidDraws * (n - 1))]
  }

  /** The asteroid of a field whose draws start at position j. */
  function FieldAsteroid(env: Env, j: nat): Asteroid {
    var x := Intn(640, env.rand(j));
    var y := Intn(480, env.rand(j + 1));
    NewAsteroid(x as real, y as real, AsteroidSize, env, j + 2)
  }

  /**
   * Every asteroid of a field is well formed, full sized, with a full
   * countdown, and on the screen when the draws lie in [0, 1).
   */
  lemma {:induction false} AsteroidFieldShape(env: Env, k: nat, n: nat)
    ensures forall a <- AsteroidField(env, k, n) ::
      WellFormed(a) && a.size == AsteroidSize && a.expansionTime == SpecialAsteroidExpansionTime
    ensures UnitStream(env.rand) ==> forall a <- AsteroidField(env, k, n) :: Placed(a)
  {
    if n > 0 {
      AsteroidFieldShape(env, k, n - 1);
    }
  }

  /**
   * The first n stars of the starting sky: star i draws an integer x in
   * [0, 640), y in [0, 480), a brightness in [0.5, 1) and a layer in 1..5.
   */
  function StarField(env: Env, k: nat, n: nat): (f: seq<Star>)
    ensures |f| == n
  {
    if n == 0 then []
    else StarField(env, k, n - 1) + [FieldStar(env, k + StarDraws * (n - 1))]
  }

  /** The star of the starting sky whose draws start at position j. */
  function FieldStar(env: Env, j: nat): Star {
    Star(Intn(640, env.rand(j)) as real, Intn(480, env.rand(j + 1)) as real,
         env.rand(j + 2) * 0.5 + 0.5, Intn(NumStarLayers as nat, env.rand(j + 3)) + 1)
  }

  /** With draws in [0, 1) every star of the starting sky is on the screen in a valid layer, with a brightness in [0.5, 1). */
  lemma {:induction false} StarFieldPlaced(env: Env, k: nat, n: nat)
    requires UnitStream(env.rand)
    ensures forall s <- StarField(env, k, n) :: StarPlaced(s) && 0.5 <= s.brightness < 1.0
  {
    if n > 0 {
      StarFieldPlaced(env, k, n - 1);
      var s := FieldStar(env, k + StarDraws * (n - 1));
      assert StarPlaced(s) && 0.5 <= s.brightness < 1.0;
    }
  }
}
