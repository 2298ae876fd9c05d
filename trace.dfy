/**
 * The decision structure of the path integrator in Include/camera.h:
 * which record a ray hits, when the recursion stops, how many rays a hit
 * scatters into and how their colours are averaged and mixed. Floats are
 * reals; the geometry (collision test, mirror, random scatter, sky
 * gradient, pixel rays) is given as functions in an `Env`.
 */
module Tracing {
  import opened Wrappers

  /** The four float lanes of an SSE register: a colour (r, g, b, unused) or a direction. */
  datatype V4 = V4(x: real, y: real, z: real, w: real)

  const Zero := V4(0.0, 0.0, 0.0, 0.0)

  function Add(a: V4, b: V4): V4
  {
    V4(a.x + b.x, a.y + b.y, a.z + b.z, a.w + b.w)
  }

  /** Lane-wise product, as `_mm_mul_ps`. */
  function Mul(a: V4, b: V4): V4
  {
    V4(a.x * b.x, a.y * b.y, a.z * b.z, a.w * b.w)
  }

  function Scale(a: V4, k: real): V4
  {
    V4(a.x * k, a.y * k, a.z * k, a.w * k)
  }

  /** A distance along a ray; `Infinity` is the float INFINITY the scan starts from. */
  datatype Distance = Finite(value: real) | Infinity

  /** Strict `<` on distances. */
  predicate Closer(a: Distance, b: Distance)
  {
    a.Finite? && (b.Infinity? || a.value < b.value)
  }

  datatype Ray = Ray(origin: V4, direction: V4)

  datatype Collision = Collision(valid: bool, distance: Distance, point: V4, normal: V4, incoming: V4)

  /** The scan's starting value: no hit. */
  const NoCollision := Collision(false, Infinity, Zero, Zero, Zero)

  /** The four integer lanes of the random seed. */
  datatype Seed = Seed(e0: int, e1: int, e2: int, e3: int)

  /** The float geometry the integrator calls but does not decide on. */
  datatype Env = Env(
    collide: (Ray, seq<real>, nat) -> Collision, // the collision test on the record at a float offset
    mirror: (V4, V4) -> V4,                      // mirror an incoming direction about a normal
    scatter: (V4, real, Seed) -> (V4, Seed),     // perturb a direction by a diffuse amount
    diffuseScatter: (V4, Seed) -> (V4, Seed),    // a random direction about a normal
    normalized: V4 -> V4,
    sky: real -> V4,                             // the sky gradient at a position
    rayFromPixel: (real, real) -> Ray)           // the ray through a sub-pixel position

  /** Floats per record in the scene memory, and the float offsets of its material fields. */
  const Stride: nat := 28
  const ColorAt: nat := 20
  const IntensityAt: nat := 24
  const DiffuseAt: nat := 25

  /** The geometry, the scene memory (as floats) and the number of objects in the scene. */
  datatype World = World(env: Env, memory: seq<real>, count: nat)
  {
    /** Every record the scan may read lies inside the memory. */
    predicate Fits()
    {
      Stride * count <= |memory|
    }
  }

  /** The collision of `ray` with record `i`. */
  function Hit(world: World, ray: Ray, i: nat): Collision
  {
    world.env.collide(ray, world.memory, Stride * i)
  }

  /** A hit that the scan can select: valid and closer than INFINITY. */
  predicate Selectable(c: Collision)
  {
    c.valid && c.distance.Finite?
  }

  /** The distance to beat after a scan has chosen `best`. */
  function BestDistance(world: World, ray: Ray, best: Option<nat>): Distance
  {
    match best
    case None => Infinity
    case Some(k) => Hit(world, ray, k).distance
  }

  /**
   * The record the nearest-hit scan over records 0..n-1 ends on: a record
   * replaces the best one only when its hit is valid and strictly closer.
   */
  function Scan(world: World, ray: Ray, n: nat): (best: Option<nat>)
    ensures best.Some? ==> best.value < n
  {
    if n == 0 then None
    else
      var prev := Scan(world, ray, n - 1);
      var c := Hit(world, ray, n - 1);
      if c.valid && Closer(c.distance, BestDistance(world, ray, prev)) then Some(n - 1) else prev
  }

  /**
   * The scan finds nothing exactly when no record gives a valid hit below
   * INFINITY; what it finds is such a hit, no hit is strictly closer, and
   * every valid hit before it is strictly farther, so the first of equally
   * distant hits wins.
   */
  lemma {:induction false} ScanSpec(world: World, ray: Ray, n: nat)
    ensures Scan(world, ray, n).None? <==> forall i | 0 <= i < n :: !Selectable(Hit(world, ray, i))
    ensures Scan(world, ray, n).Some? ==>
      var k := Scan(world, ray, n).value;
      Selectable(Hit(world, ray, k)) &&
      (forall i | 0 <= i < n && Hit(world, ray, i).valid :: !Closer(Hit(world, ray, i).distance, Hit(world, ray, k).distance)) &&
      (forall i | 0 <= i < k && Hit(world, ray, i).valid :: Closer(Hit(world, ray, k).distance, Hit(world, ray, i).distance))
  {
    if n > 0 {
      ScanSpec(world, ray, n - 1);
    }
  }

  /** The conditions of `ScanSpec` pick out a single record: the scan's choice. */
  lemma NearestUnique(world: World, ray: Ray, n: nat, k: nat)
    requires k < n && Selectable(Hit(world, ray, k))
    requires forall i | 0 <= i < n && Hit(world, ray, i).valid :: !Closer(Hit(world, ray, i).distance, Hit(world, ray, k).distance)
    requires forall i | 0 <= i < k && Hit(world, ray, i).valid :: Closer(Hit(world, ray, k).distance, Hit(world, ray, i).distance)
    ensures Scan(world, ray, n) == Some(k)
  {
    ScanSpec(world, ray, n);
  }

  /** What a record's material says about the hit surface. */
  datatype Surface = Surface(hit: Collision, color: V4, intensity: real, diffuse: real)

  /** The four floats at the colour offset of record `k`. */
  function ColorOf(world: World, k: nat): V4
    requires world.Fits() && k < world.count
  {
    var at := Stride * k;
    var m := world.memory;
    V4(m[at + ColorAt], m[at + ColorAt + 1], m[at + ColorAt + 2], m[at + ColorAt + 3])
  }

  /** The reflection share of record `k`. */
  function IntensityOf(world: World, k: nat): real
    requires world.Fits() && k < world.count
  {
    world.memory[Stride * k + IntensityAt]
  }

  /** The surface of record `k` as a ray hits it. */
  function SurfaceAt(world: World, ray: Ray, k: nat): (s: Surface)
    requires world.Fits() && k < world.count
    ensures s.hit == Hit(world, ray, k) && s.color == ColorOf(world, k) && s.intensity == IntensityOf(world, k)
  {
    Surface(Hit(world, ray, k), ColorOf(world, k), IntensityOf(world, k), world.memory[Stride * k + DiffuseAt])
  }

  /** A float-to-int conversion: truncation toward zero. */
  function Trunc(v: real): (r: int)
    ensures 0.0 <= v ==> 0 <= r && r as real <= v < r as real + 1.0
    ensures v < 0.0 ==> r <= 0 && r as real - 1.0 < v <= r as real
  {
    if v >= 0.0 then v.Floor else -((-v).Floor)
  }

  /** The scatter count a hit uses: at least one. */
  function Clamped(scatters: int): (s: int)
    ensures s >= 1 && (scatters >= 1 ==> s == scatters)
    ensures scatters < 1 ==> s == 1
  {
    if scatters > 0 then scatters else 1
  }

  /** The number of reflected rays the source computes: the truncated share of the scatters, plus one. */
  function SpecularCount(s: int, intensity: real): int
  {
    Trunc(s as real * intensity) + 1
  }

  /** How often the specular loop runs. */
  function SpecularRuns(nSpec: int): nat
  {
    if nSpec > 0 then nSpec else 0
  }

  /** How often the diffuse loop runs: it goes on from where the specular loop stopped up to `s + 1`. */
  function DiffuseRuns(s: int, nSpec: int): nat
  {
    if s + 1 - SpecularRuns(nSpec) > 0 then s + 1 - SpecularRuns(nSpec) else 0
  }

  /** For a share in [0, 1), both loops run at least once. */
  lemma RunsForShare(s: int, intensity: real)
    requires s >= 1 && 0.0 <= intensity < 1.0
    ensures SpecularRuns(SpecularCount(s, intensity)) >= 1
    ensures DiffuseRuns(s, SpecularCount(s, intensity)) >= 1
  {
    ProductBelow(s as real, intensity);
  }

  /** For a share in [0, 1], the two loops together run `s + 1` times and the specular loop runs once per counted ray. */
  lemma RunsTotal(s: int, intensity: real)
    requires s >= 1 && 0.0 <= intensity <= 1.0
    ensures SpecularRuns(SpecularCount(s, intensity)) == SpecularCount(s, intensity)
    ensures SpecularRuns(SpecularCount(s, intensity)) + DiffuseRuns(s, SpecularCount(s, intensity)) == s + 1
    ensures DiffuseRuns(s, SpecularCount(s, intensity)) == s + 1 - SpecularCount(s, intensity)
  {
    ProductAtMost(s as real, intensity);
  }

  lemma ProductBelow(a: real, t: real)
    requires a >= 1.0 && 0.0 <= t < 1.0
    ensures 0.0 <= a * t < a
  {
  }

  lemma ProductAtMost(a: real, t: real)
    requires a >= 1.0 && 0.0 <= t <= 1.0
    ensures 0.0 <= a * t <= a
  {
  }

  /**
   * The average of `n` rays whose colours sum to `sum`. With no rays the
   * average is zero; the source's float division yields NaN there (see
   * `MeanAsWritten`).
   */
  function Mean(sum: V4, n: int): (r: V4)
    ensures n == 0 ==> r == Zero
  {
    if n == 0 then Zero else Scale(sum, 1.0 / n as real)
  }

  /** The mix of the specular and the diffuse average by the material's reflection share. */
  function Mix(specular: V4, diffuse: V4, intensity: real): V4
  {
    Add(Scale(specular, intensity), Scale(diffuse, 1.0 - intensity))
  }

  /** The direction of the next ray from a surface, and the seed after drawing it. */
  function Bounce(env: Env, surface: Surface, specular: bool, seed: Seed): (V4, Seed)
  {
    if specular then
      var (d, next) := env.scatter(env.mirror(surface.hit.incoming, surface.hit.normal), surface.diffuse, seed);
      (env.normalized(d), next)
    else
      env.diffuseScatter(surface.hit.normal, seed)
  }

  /**
   * The colour a ray brings back and the seed after it. A miss shows the
   * sky at `0.5 * dir.y + 0.5`; an emissive hit (negative diffuse) shows the
   * record's colour whatever the budget; a hit with no bounces left is black;
   * otherwise the hit is shaded by recursive rays.
   */
  function Trace(world: World, ray: Ray, bounces: int, scatters: int, reduction: int, seed: Seed): (r: (V4, Seed))
    requires world.Fits() && bounces >= 0
    decreases bounces, 2, 0
  {
    match Scan(world, ray, world.count)
    case None => (world.env.sky(ray.direction.y * 0.5 + 0.5), seed)
    case Some(k) =>
      var surface := SurfaceAt(world, ray, k);
      if surface.diffuse < 0.0 then (surface.color, seed)
      else if bounces == 0 then (Zero, seed)
      else Shade(world, surface, bounces, scatters, reduction, seed)
  }

  /**
   * A hit with bounces left: `SpecularCount` mirrored rays, then the
   * diffuse rays up to `s + 1` rays in all, each traced with one bounce
   * less and `reduction` fewer scatters; the two averages are mixed.
   */
  function Shade(world: World, surface: Surface, bounces: int, scatters: int, reduction: int, seed: Seed): (r: (V4, Seed))
    requires world.Fits() && bounces >= 1
    decreases bounces, 1, 0
  {
    var s := Clamped(scatters);
    var nSpec := SpecularCount(s, surface.intensity);
    var (specSum, seed1) := Pool(world, surface, bounces, s - reduction, reduction, true, SpecularRuns(nSpec), seed);
    var (diffSum, seed2) := Pool(world, surface, bounces, s - reduction, reduction, false, DiffuseRuns(s, nSpec), seed1);
    (Mix(Mean(specSum, nSpec), Mean(diffSum, 1 + s - nSpec), surface.intensity), seed2)
  }

  /**
   * The summed colours of `runs` rays of one kind leaving `surface`, each
   * the surface colour times what its ray brings back, in loop order.
   */
  function Pool(world: World, surface: Surface, bounces: int, scatters: int, reduction: int,
                specular: bool, runs: nat, seed: Seed): (r: (V4, Seed))
    requires world.Fits() && bounces >= 1
    decreases bounces, 0, runs
  {
    if runs == 0 then (Zero, seed)
    else
      var (sum, seed1) := Pool(world, surface, bounces, scatters, reduction, specular, runs - 1, seed);
      var (direction, seed2) := Bounce(world.env, surface, specular, seed1);
      var (color, seed3) := Trace(world, Ray(surface.hit.point, direction), bounces - 1, scatters, reduction, seed2);
      (Add(sum, Mul(surface.color, color)), seed3)
  }

  /**
   * The tracer's decisions: a miss shows the sky and an emissive hit its
   * record's colour, both without drawing on the seed and whatever the
   * bounce and scatter arguments; a non-emissive hit with no bounces left is
   * black; every other hit is shaded.
   */
  lemma TraceDecisions(world: World, ray: Ray, bounces: int, scatters: int, reduction: int, seed: Seed)
    requires world.Fits() && bounces >= 0
    ensures Scan(world, ray, world.count).None? ==>
      Trace(world, ray, bounces, scatters, reduction, seed) == (world.env.sky(ray.direction.y * 0.5 + 0.5), seed)
    ensures Scan(world, ray, world.count).Some? ==>
      var k := Scan(world, ray, world.count).value;
      var t := Trace(world, ray, bounces, scatters, reduction, seed);
      && (world.memory[Stride * k + DiffuseAt] < 0.0 ==> t == (ColorOf(world, k), seed) && t == Trace(world, ray, 0, 0, 0, seed))
      && (world.memory[Stride * k + DiffuseAt] >= 0.0 && bounces == 0 ==> t == (Zero, seed))
      && (world.memory[Stride * k + DiffuseAt] >= 0.0 && bounces >= 1 ==>
            t == Shade(world, SurfaceAt(world, ray, k), bounces, scatters, reduction, seed))
  {
  }

  /** Every lane lies in [0, bound]. */
  predicate Within(v: V4, bound: real)
  {
    0.0 <= v.x <= bound && 0.0 <= v.y <= bound && 0.0 <= v.z <= bound && 0.0 <= v.w <= bound
  }

  /** A scene whose sky, record colours and reflection shares all lie in [0, 1]. */
  ghost predicate Bounded(world: World)
    requires world.Fits()
  {
    (forall t :: Within(world.env.sky(t), 1.0)) &&
    forall k | 0 <= k < world.count :: Within(ColorOf(world, k), 1.0) && 0.0 <= IntensityOf(world, k) <= 1.0
  }

  /** In a bounded scene no ray brings back more than the brightest sky or surface: every lane stays in [0, 1]. */
  lemma {:induction false} TraceBounded(world: World, ray: Ray, bounces: int, scatters: int, reduction: int, seed: Seed)
    requires world.Fits() && bounces >= 0 && Bounded(world)
    ensures Within(Trace(world, ray, bounces, scatters, reduction, seed).0, 1.0)
    decreases bounces, 2, 0
  {
    match Scan(world, ray, world.count)
    case None =>
    case Some(k) =>
      var surface := SurfaceAt(world, ray, k);
      if surface.diffuse >= 0.0 && bounces > 0 {
        ShadeBounded(world, surface, bounces, scatters, reduction, seed);
      }
  }

  /** Shading a bounded surface keeps every lane in [0, 1], a perfect mirror included. */
  lemma {:induction false} ShadeBounded(world: World, surface: Surface, bounces: int, scatters: int, reduction: int, seed: Seed)
    requires world.Fits() && bounces >= 1 && Bounded(world)
    requires Within(surface.color, 1.0) && 0.0 <= surface.intensity <= 1.0
    ensures Within(Shade(world, surface, bounces, scatters, reduction, seed).0, 1.0)
    decreases bounces, 1, 0
  {
    var s := Clamped(scatters);
    var nSpec := SpecularCount(s, surface.intensity);
    RunsTotal(s, surface.intensity);
    var (specSum, seed1) := Pool(world, surface, bounces, s - reduction, reduction, true, SpecularRuns(nSpec), seed);
    PoolBounded(world, surface, bounces, s - reduction, reduction, true, SpecularRuns(nSpec), seed);
    var (diffSum, seed2) := Pool(world, surface, bounces, s - reduction, reduction, false, DiffuseRuns(s, nSpec), seed1);
    PoolBounded(world, surface, bounces, s - reduction, reduction, false, DiffuseRuns(s, nSpec), seed1);
    MeanBounded(specSum, nSpec);
    MeanBounded(diffSum, 1 + s - nSpec);
    MixBounded(Mean(specSum, nSpec), Mean(diffSum, 1 + s - nSpec), surface.intensity);
  }

  /** A pool of `runs` rays off a bounded surface sums to at most `runs` in every lane. */
  lemma {:induction false} PoolBounded(world: World, surface: Surface, bounces: int, scatters: int, reduction: int,
                                       specular: bool, runs: nat, seed: Seed)
    requires world.Fits() && bounces >= 1 && Bounded(world) && Within(surface.color, 1.0)
    ensures Within(Pool(world, surface, bounces, scatters, reduction, specular, runs, seed).0, runs as real)
    decreases bounces, 0, runs
  {
    if runs > 0 {
      var (sum, seed1) := Pool(world, surface, bounces, scatters, reduction, specular, runs - 1, seed);
      PoolBounded(world, surface, bounces, scatters, reduction, specular, runs - 1, seed);
      var (direction, seed2) := Bounce(world.env, surface, specular, seed1);
      var ray := Ray(surface.hit.point, direction);
      var (color, seed3) := Trace(world, ray, bounces - 1, scatters, reduction, seed2);
      TraceBounded(world, ray, bounces - 1, scatters, reduction, seed2);
      MulBounded(surface.color, color);
      AddBounded(sum, Mul(surface.color, color), (runs - 1) as real, 1.0);
    }
  }

  lemma AddBounded(a: V4, b: V4, p: real, q: real)
    requires Within(a, p) && Within(b, q)
    ensures Within(Add(a, b), p + q)
  {
  }

  lemma MulBounded(a: V4, b: V4)
    requires Within(a, 1.0) && Within(b, 1.0)
    ensures Within(Mul(a, b), 1.0)
  {
    UnitProduct(a.x, b.x);
    UnitProduct(a.y, b.y);
    UnitProduct(a.z, b.z);
    UnitProduct(a.w, b.w);
  }

  lemma UnitProduct(a: real, b: real)
    requires 0.0 <= a <= 1.0 && 0.0 <= b <= 1.0
    ensures 0.0 <= a * b <= 1.0
  {
    NonNegative(a, b);
    Monotone(a, b, 1.0);
    assert a * b <= a * 1.0 == a;
  }

  lemma NonNegative(a: real, b: real)
    requires a >= 0.0 && b >= 0.0
    ensures a * b >= 0.0
  {
  }

  lemma Positive(a: real, b: real)
    requires a > 0.0 && b > 0.0
    ensures a * b > 0.0
  {
  }

  lemma Monotone(a: real, b: real, c: real)
    requires a >= 0.0 && b <= c
    ensures a * b <= a * c
  {
    NonNegative(a, c - b);
    assert a * (c - b) == a * c - a * b;
  }

  lemma StrictlyMonotone(a: real, b: real, c: real)
    requires a > 0.0 && b < c
    ensures a * b < a * c
  {
    Positive(a, c - b);
    assert a * (c - b) == a * c - a * b;
  }

  /** The average of `n` rays each in [0, 1] lies in [0, 1]. */
  lemma MeanBounded(sum: V4, n: int)
    requires n >= 0 && Within(sum, n as real)
    ensures Within(Mean(sum, n), 1.0)
  {
    if n > 0 {
      ShareOf(sum.x, n as real);
      ShareOf(sum.y, n as real);
      ShareOf(sum.z, n as real);
      ShareOf(sum.w, n as real);
    }
  }

  lemma ShareOf(v: real, n: real)
    requires n > 0.0 && 0.0 <= v <= n
    ensures 0.0 <= v * (1.0 / n) <= 1.0
  {
    var k := 1.0 / n;
    assert n * k == 1.0;
    NonNegative(k, v);
    Monotone(k, v, n);
  }

  lemma MixBounded(a: V4, b: V4, t: real)
    requires Within(a, 1.0) && Within(b, 1.0) && 0.0 <= t <= 1.0
    ensures Within(Mix(a, b, t), 1.0)
  {
    var m := Mix(a, b, t);
    MixScalar(a.x, b.x, t, m.x);
    MixScalar(a.y, b.y, t, m.y);
    MixScalar(a.z, b.z, t, m.z);
    MixScalar(a.w, b.w, t, m.w);
  }

  lemma MixScalar(a: real, b: real, t: real, m: real)
    requires 0.0 <= a <= 1.0 && 0.0 <= b <= 1.0 && 0.0 <= t <= 1.0 && m == a * t + b * (1.0 - t)
    ensures 0.0 <= m <= 1.0
  {
    NonNegative(t, a);
    Monotone(t, a, 1.0);
    NonNegative(1.0 - t, b);
    Monotone(1.0 - t, b, 1.0);
    assert a * t <= t && b * (1.0 - t) <= 1.0 - t;
  }

  /**
   * The average as the source computes it in floats, the sum times the
   * float 1/n: with n == 0 no ray ran, the sum is zero and zero times
   * infinity is NaN, for which `None` stands.
   */
  function MeanAsWritten(sum: V4, n: int): (r: Option<V4>)
    ensures r.None? <==> n == 0
    ensures r.Some? ==> r.value == Mean(sum, n)
  {
    if n == 0 then None else Some(Scale(sum, 1.0 / n as real))
  }

  /** The mix as the source computes it: a NaN average stays NaN even when its share is zero. */
  function MixAsWritten(specular: Option<V4>, diffuse: Option<V4>, intensity: real): (r: Option<V4>)
    ensures r.Some? <==> specular.Some? && diffuse.Some?
  {
    if specular.Some? && diffuse.Some? then Some(Mix(specular.value, diffuse.value, intensity)) else None
  }

  /** `Shade` with the source's float averages; `None` is a NaN colour. */
  function ShadeAsWritten(world: World, surface: Surface, bounces: int, scatters: int, reduction: int, seed: Seed): (r: Option<V4>)
    requires world.Fits() && bounces >= 1
    ensures r.Some? ==> r.value == Shade(world, surface, bounces, scatters, reduction, seed).0
  {
    var s := Clamped(scatters);
    var nSpec := SpecularCount(s, surface.intensity);
    var (specSum, seed1) := Pool(world, surface, bounces, s - reduction, reduction, true, SpecularRuns(nSpec), seed);
    var (diffSum, seed2) := Pool(world, surface, bounces, s - reduction, reduction, false, DiffuseRuns(s, nSpec), seed1);
    MixAsWritten(MeanAsWritten(specSum, nSpec), MeanAsWritten(diffSum, 1 + s - nSpec), surface.intensity)
  }

  /**
   * A perfect mirror (reflection share 1) with bounces left: every ray is
   * specular, the diffuse pool is empty, and as written its average, and so
   * the shaded colour, is NaN.
   */
  lemma PerfectMirrorIsNaN(world: World, surface: Surface, bounces: int, scatters: int, reduction: int, seed: Seed)
    requires world.Fits() && bounces >= 1 && surface.intensity == 1.0
    ensures DiffuseRuns(Clamped(scatters), SpecularCount(Clamped(scatters), 1.0)) == 0
    ensures ShadeAsWritten(world, surface, bounces, scatters, reduction, seed).None?
  {
    var s := Clamped(scatters);
    assert SpecularCount(s, 1.0) == s + 1;
  }

  /** With the empty average taken as zero, a perfect mirror shows just the average of its `s + 1` mirrored rays. */
  lemma PerfectMirrorReflects(world: World, surface: Surface, bounces: int, scatters: int, reduction: int, seed: Seed)
    requires world.Fits() && bounces >= 1 && surface.intensity == 1.0
    ensures var s := Clamped(scatters);
      Shade(world, surface, bounces, scatters, reduction, seed).0 ==
      Mean(Pool(world, surface, bounces, s - reduction, reduction, true, s + 1, seed).0, s + 1)
  {
    var s := Clamped(scatters);
    assert SpecularCount(s, 1.0) == s + 1;
    var (specSum, seed1) := Pool(world, surface, bounces, s - reduction, reduction, true, s + 1, seed);
    var m := Mean(specSum, s + 1);
    assert Mix(m, Zero, 1.0) == m;
  }

  /** The camera's tracing budget: bounces, scatter count and scatter reduction. */
  datatype Budget = Budget(bounces: int, scatters: int, reduction: int)

  /** The offset of sub-pixel `i` of `steps` along one axis: the centre of its cell. */
  function Offset(steps: int, i: int): real
    requires steps >= 1
  {
    (i as real + 0.5) * (1.0 / steps as real)
  }

  /** Every sub-pixel offset lies strictly inside the pixel. */
  lemma OffsetInside(steps: int, i: int)
    requires steps >= 1 && 0 <= i < steps
    ensures 0.0 < Offset(steps, i) < 1.0
  {
    var n := steps as real;
    var k := 1.0 / n;
    assert n * k == 1.0;
    Positive(k, i as real + 0.5);
    StrictlyMonotone(k, i as real + 0.5, n);
  }

  /** The sub-pixel offsets of row i: (i, j) for j = 0 .. steps-1. */
  function Row(steps: int, i: int): (r: seq<(real, real)>)
    requires steps >= 1
    ensures |r| == steps
  {
    seq(steps, j requires 0 <= j < steps => (Offset(steps, i), Offset(steps, j)))
  }

  /** Point j of row i is sub-pixel (i, j). */
  lemma RowAt(steps: int, i: int, j: int)
    requires steps >= 1 && 0 <= j < steps
    ensures Row(steps, i)[j] == (Offset(steps, i), Offset(steps, j))
  {
  }

  /** The sub-pixel offsets of the first `rows` rows, in loop order. */
  function Grid(steps: int, rows: nat): seq<(real, real)>
    requires rows == 0 || steps >= 1
  {
    if rows == 0 then [] else Grid(steps, rows - 1) + Row(steps, rows - 1)
  }

  /** The grid has `steps` points per row. */
  lemma {:induction false} GridSize(steps: int, rows: nat)
    requires steps >= 1
    ensures |Grid(steps, rows)| == rows * steps
  {
    if rows > 0 {
      GridSize(steps, rows - 1);
    }
  }

  /** Point `i * steps + j` of the grid is sub-pixel (i, j). */
  lemma {:induction false} GridAt(steps: int, rows: nat, i: nat, j: nat, t: nat)
    requires steps >= 1 && i < rows && j < steps && t == i * steps + j
    ensures t < |Grid(steps, rows)| && Grid(steps, rows)[t] == (Offset(steps, i), Offset(steps, j))
  {
    GridSize(steps, rows - 1);
    var before := Grid(steps, rows - 1);
    if i < rows - 1 {
      GridAt(steps, rows - 1, i, j, t);
      assert Grid(steps, rows)[t] == before[t];
    } else {
      assert t == |before| + j;
    }
  }

  /** One step of the kernel: a sub-pixel offset and the running (sum, seed) give the next (sum, seed). */
  type Step = ((real, real), (V4, Seed)) -> (V4, Seed)

  /** `step` applied to `points` in order, starting from `start`. */
  function Fold(step: Step, points: seq<(real, real)>, start: (V4, Seed)): (V4, Seed)
    decreases |points|
  {
    if points == [] then start
    else step(points[|points| - 1], Fold(step, points[..|points| - 1], start))
  }

  /** Folding one more point applies the step to it last. */
  lemma FoldSnoc(step: Step, points: seq<(real, real)>, p: (real, real), start: (V4, Seed))
    ensures Fold(step, points + [p], start) == step(p, Fold(step, points, start))
  {
    assert (points + [p])[..|points|] == points;
  }

  /** The first `j` sub-pixels of row i folded from `acc`, in the order of the kernel's inner loop. */
  function Cells(step: Step, steps: int, i: int, j: nat, acc: (V4, Seed)): (V4, Seed)
    requires steps >= 1
  {
    if j == 0 then acc
    else step((Offset(steps, i), Offset(steps, j - 1)), Cells(step, steps, i, j - 1, acc))
  }

  /** The first `i` rows of sub-pixels folded from `start`, in the order of the kernel's outer loop. */
  function Rows(step: Step, steps: int, i: nat, start: (V4, Seed)): (V4, Seed)
    requires i == 0 || steps >= 1
  {
    if i == 0 then start
    else Cells(step, steps, i - 1, steps, Rows(step, steps, i - 1, start))
  }

  /** Folding the first `j` cells of row i continues the fold of the points before them. */
  lemma {:induction false} CellsFold(step: Step, steps: int, i: int, j: nat, points: seq<(real, real)>, start: (V4, Seed))
    requires steps >= 1 && j <= steps
    ensures Cells(step, steps, i, j, Fold(step, points, start)) == Fold(step, points + Row(steps, i)[..j], start)
  {
    var row := Row(steps, i);
    if j == 0 {
      assert points + row[..0] == points;
    } else {
      CellsFold(step, steps, i, j - 1, points, start);
      var cell := (Offset(steps, i), Offset(steps, j - 1));
      RowAt(steps, i, j - 1);
      assert points + row[..j] == (points + row[..j - 1]) + [cell];
      FoldSnoc(step, points + row[..j - 1], cell, start);
    }
  }

  /** The kernel's nested loops fold the flat grid in order. */
  lemma {:induction false} RowsFold(step: Step, steps: int, i: nat, start: (V4, Seed))
    requires i == 0 || steps >= 1
    ensures Rows(step, steps, i, start) == Fold(step, Grid(steps, i), start)
  {
    if i > 0 {
      var row := Row(steps, i - 1);
      RowsFold(step, steps, i - 1, start);
      CellsFold(step, steps, i - 1, steps, Grid(steps, i - 1), start);
      assert row[..steps] == row;
    }
  }

  /** The ray through offset `p` of pixel (x, y) adds its colour to the sum and moves the seed on. */
  function Sample(world: World, budget: Budget, x: int, y: int, p: (real, real), acc: (V4, Seed)): (V4, Seed)
    requires world.Fits() && budget.bounces >= 0
  {
    var ray := world.env.rayFromPixel(x as real + p.0, y as real + p.1);
    var (color, next) := Trace(world, ray, budget.bounces, budget.scatters, budget.reduction, acc.1);
    (Add(acc.0, color), next)
  }

  /** The kernel's step for pixel (x, y). */
  function Sampler(world: World, budget: Budget, x: int, y: int): Step
    requires world.Fits() && budget.bounces >= 0
  {
    (p, acc) => Sample(world, budget, x, y, p, acc)
  }

  /** The supersampled colour of pixel (x, y) and the seed after it: the average over the `steps` by `steps` grid. */
  function Supersample(world: World, budget: Budget, x: int, y: int, steps: int, seed: Seed): (V4, Seed)
    requires world.Fits() && budget.bounces >= 0
  {
    var (sum, next) := Fold(Sampler(world, budget, x, y), Grid(steps, if steps >= 1 then steps else 0), (Zero, seed));
    (Mean(sum, steps * steps), next)
  }

  /** Sampling `points` from a zero sum in a bounded scene sums to at most one per point in every lane. */
  lemma {:induction false} SamplesBounded(world: World, budget: Budget, x: int, y: int, points: seq<(real, real)>, seed: Seed)
    requires world.Fits() && budget.bounces >= 0 && Bounded(world)
    ensures Within(Fold(Sampler(world, budget, x, y), points, (Zero, seed)).0, |points| as real)
    decreases |points|
  {
    if points != [] {
      var step := Sampler(world, budget, x, y);
      var (sum, s) := Fold(step, points[..|points| - 1], (Zero, seed));
      SamplesBounded(world, budget, x, y, points[..|points| - 1], seed);
      var p := points[|points| - 1];
      var ray := world.env.rayFromPixel(x as real + p.0, y as real + p.1);
      TraceBounded(world, ray, budget.bounces, budget.scatters, budget.reduction, s);
      AddBounded(sum, Trace(world, ray, budget.bounces, budget.scatters, budget.reduction, s).0, (|points| - 1) as real, 1.0);
      assert step(p, (sum, s)) == Sample(world, budget, x, y, p, (sum, s));
    }
  }

  /** In a bounded scene a supersampled pixel stays in [0, 1] in every lane. */
  lemma SupersampleBounded(world: World, budget: Budget, x: int, y: int, steps: int, seed: Seed)
    requires world.Fits() && budget.bounces >= 0 && Bounded(world)
    ensures Within(Supersample(world, budget, x, y, steps, seed).0, 1.0)
  {
    var rows := if steps >= 1 then steps else 0;
    SamplesBounded(world, budget, x, y, Grid(steps, rows), seed);
    if steps >= 1 {
      GridSize(steps, rows);
      MeanBounded(Fold(Sampler(world, budget, x, y), Grid(steps, rows), (Zero, seed)).0, steps * steps);
    }
  }
}
