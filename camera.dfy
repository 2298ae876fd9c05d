/**
 * The camera of Include/camera.h: the recursive path tracer, the
 * supersampling kernel and the render pass that turns kernel colours into
 * the rows of a plain-text Portable Pixmap.
 */
module Cameras {
  import opened Wrappers
  import opened Tracing

  /** The seed the constructor sets: lanes 0 to 3 of `_mm_set_epi32(82, 42, 69, 2004)`. */
  const InitialSeed := Seed(2004, 69, 42, 82)

  class Camera {
    /** The geometry the tracer calls: collision test, scatter, sky gradient, pixel rays. */
    const env: Env
    /** The number of objects in the active scene. */
    const objectCount: nat
    /** The baked scene, read as floats. */
    const sceneMemory: seq<real>
    const bounces: int
    const scatterCount: int
    const scatterRedux: int
    const supersamplingSteps: int
    var rngSeed: Seed

    /** The camera over a scene; the tracing budget comes from the render settings. */
    constructor (env: Env, objectCount: nat, sceneMemory: seq<real>, budget: Budget, supersamplingSteps: int)
      ensures this.env == env && this.objectCount == objectCount && this.sceneMemory == sceneMemory
      ensures bounces == budget.bounces && scatterCount == budget.scatters && scatterRedux == budget.reduction
      ensures this.supersamplingSteps == supersamplingSteps && rngSeed == InitialSeed
    {
      this.env := env;
      this.objectCount := objectCount;
      this.sceneMemory := sceneMemory;
      bounces := budget.bounces;
      scatterCount := budget.scatters;
      scatterRedux := budget.reduction;
      this.supersamplingSteps := supersamplingSteps;
      rngSeed := InitialSeed;
    }

    /**
     * The nearest-hit scan: `closest` is the chosen collision (invalid when
     * there is none) and `closestAt` the chosen record's float offset.
     */
    method NearestHit(ray: Ray, sceneMem: seq<real>) returns (closest: Collision, closestAt: nat)
      ensures var best := Scan(World(env, sceneMem, objectCount), ray, objectCount);
        (closest.valid <==> best.Some?) &&
        (best.Some? ==> closest == Hit(World(env, sceneMem, objectCount), ray, best.value) && closestAt == Stride * best.value)
    {
      ghost var world := World(env, sceneMem, objectCount);
      closest := NoCollision;
      var closestDistance := Infinity;
      closestAt := 0;
      ghost var best: Option<nat> := None;
      for i := 0 to objectCount
        invariant best == Scan(world, ray, i)
        invariant closestDistance == BestDistance(world, ray, best)
        invariant best.None? ==> closest == NoCollision
        invariant best.Some? ==> closest == Hit(world, ray, best.value) && closest.valid && closestAt == Stride * best.value
      {
        var c := env.collide(ray, sceneMem, Stride * i);
        if c.valid && Closer(c.distance, closestDistance) {
          closestDistance := c.distance;
          closestAt := Stride * i;
          closest := c;
          best := Some(i);
        }
      }
    }

    /** The colour `ray` brings back from the scene in `sceneMem`; draws on the seed. */
    method FullTrace(ray: Ray, bounces: int, scatters: int, reduction: int, sceneMem: seq<real>) returns (color: V4)
      requires bounces >= 0 && Stride * objectCount <= |sceneMem|
      modifies this`rngSeed
      ensures (color, rngSeed) == Trace(World(env, sceneMem, objectCount), ray, bounces, scatters, reduction, old(rngSeed))
      decreases bounces, 2, 0
    {
      ghost var world := World(env, sceneMem, objectCount);
      var closest, at := NearestHit(ray, sceneMem);
      if !closest.valid {
        return env.sky(ray.direction.y * 0.5 + 0.5);
      }
      ghost var k := Scan(world, ray, objectCount).value;
      var intensity := sceneMem[at + IntensityAt];
      var diffuse := sceneMem[at + DiffuseAt];
      var objColor := V4(sceneMem[at + ColorAt], sceneMem[at + ColorAt + 1], sceneMem[at + ColorAt + 2], sceneMem[at + ColorAt + 3]);
      if diffuse < 0.0 {
        return objColor;
      }
      if bounces == 0 {
        return Zero;
      }
      var surface := Surface(closest, objColor, intensity, diffuse);
      assert surface == SurfaceAt(world, ray, k);
      color := ShadeHit(surface, bounces, scatters, reduction, sceneMem);
    }

    /** A hit with bounces left: the specular rays, then the diffuse rays, averaged and mixed. */
    method ShadeHit(surface: Surface, bounces: int, scatters: int, reduction: int, sceneMem: seq<real>) returns (color: V4)
      requires bounces >= 1 && Stride * objectCount <= |sceneMem|
      modifies this`rngSeed
      ensures (color, rngSeed) == Shade(World(env, sceneMem, objectCount), surface, bounces, scatters, reduction, old(rngSeed))
      decreases bounces, 1, 1
    {
      var s := if scatters > 0 then scatters else 1;
      var nSpec := SpecularCount(s, surface.intensity);
      assert s == Clamped(scatters);
      var specSum, next := CastRays(surface, bounces, s - reduction, reduction, true, 0, nSpec, sceneMem);
      assert next == SpecularRuns(nSpec);
      var diffSum, last := CastRays(surface, bounces, s - reduction, reduction, false, next, s + 1, sceneMem);
      assert last - next == DiffuseRuns(s, nSpec);
      color := Mix(Mean(specSum, nSpec), Mean(diffSum, 1 + s - nSpec), surface.intensity);
    }

    /**
     * One of the two scatter loops: rays `from` up to `to` off `surface`,
     * mirrored and perturbed when `specular`, diffusely scattered otherwise;
     * `next` is where the loop counter stops.
     */
    method CastRays(surface: Surface, bounces: int, scatters: int, reduction: int, specular: bool,
                    from: int, to: int, sceneMem: seq<real>) returns (sum: V4, next: int)
      requires bounces >= 1 && Stride * objectCount <= |sceneMem|
      modifies this`rngSeed
      ensures next == if to > from then to else from
      ensures (sum, rngSeed) ==
        Pool(World(env, sceneMem, objectCount), surface, bounces, scatters, reduction, specular, next - from, old(rngSeed))
      decreases bounces, 1, 0
    {
      ghost var world := World(env, sceneMem, objectCount);
      sum := Zero;
      next := from;
      while next < to
        invariant (to > from ==> from <= next <= to) && (to <= from ==> next == from)
        invariant (sum, rngSeed) == Pool(world, surface, bounces, scatters, reduction, specular, next - from, old(rngSeed))
      {
        var direction: V4;
        if specular {
          var (d, seed) := env.scatter(env.mirror(surface.hit.incoming, surface.hit.normal), surface.diffuse, rngSeed);
          rngSeed := seed;
          direction := env.normalized(d);
        } else {
          var (d, seed) := env.diffuseScatter(surface.hit.normal, rngSeed);
          rngSeed := seed;
          direction := d;
        }
        var hitColor := FullTrace(Ray(surface.hit.point, direction), bounces - 1, scatters, reduction, sceneMem);
        sum := Add(sum, Mul(surface.color, hitColor));
        next := next + 1;
      }
    }

    /** The supersampling kernel: the average colour of a `steps` by `steps` grid of sub-pixel rays. */
    method KernelFull(x: int, y: int) returns (color: V4)
      requires bounces >= 0 && Stride * objectCount <= |sceneMemory|
      modifies this`rngSeed
      ensures (color, rngSeed) ==
        Supersample(World(env, sceneMemory, objectCount), Budget(bounces, scatterCount, scatterRedux), x, y, supersamplingSteps, old(rngSeed))
    {
      ghost var step := Sampler(World(env, sceneMemory, objectCount), Budget(bounces, scatterCount, scatterRedux), x, y);
      ghost var start := (Zero, rngSeed);
      var steps := supersamplingSteps;
      var finalColor := SampleRows(x, y, step);
      RowsFold(step, steps, if steps >= 1 then steps else 0, start);
      color := Mean(finalColor, steps * steps);
    }

    /** `step` traces, in this camera's scene and budget, the sub-pixel rays of pixel (x, y). */
    ghost predicate SamplesPixel(step: Step, x: int, y: int)
      requires bounces >= 0 && Stride * objectCount <= |sceneMemory|
    {
      forall p, acc :: step(p, acc) == Sample(World(env, sceneMemory, objectCount), Budget(bounces, scatterCount, scatterRedux), x, y, p, acc)
    }

    /** The kernel's outer loop: every row of sub-pixels of pixel (x, y), summed from zero. */
    method SampleRows(x: int, y: int, ghost step: Step) returns (sum: V4)
      requires bounces >= 0 && Stride * objectCount <= |sceneMemory|
      requires SamplesPixel(step, x, y)
      modifies this`rngSeed
      ensures (sum, rngSeed) ==
        Rows(step, supersamplingSteps, if supersamplingSteps >= 1 then supersamplingSteps else 0, (Zero, old(rngSeed)))
    {
      ghost var start := (Zero, rngSeed);
      var steps := supersamplingSteps;
      var rows := if steps >= 1 then steps else 0;
      sum := Zero;
      for i := 0 to rows
        invariant (sum, rngSeed) == Rows(step, steps, i, start)
      {
        sum := SampleRow(x, y, i, Offset(steps, i), sum, step);
      }
    }

    /** The kernel's inner loop: the sub-pixels of row i of pixel (x, y), added to `sum`. */
    method SampleRow(x: int, y: int, i: int, offsetX: real, sum: V4, ghost step: Step) returns (rowSum: V4)
      requires supersamplingSteps >= 1 && offsetX == Offset(supersamplingSteps, i)
      requires bounces >= 0 && Stride * objectCount <= |sceneMemory|
      requires SamplesPixel(step, x, y)
      modifies this`rngSeed
      ensures (rowSum, rngSeed) == Cells(step, supersamplingSteps, i, supersamplingSteps, (sum, old(rngSeed)))
    {
      ghost var acc := (sum, rngSeed);
      var steps := supersamplingSteps;
      rowSum := sum;
      for j := 0 to steps
        invariant (rowSum, rngSeed) == Cells(step, steps, i, j, acc)
      {
        rowSum := SampleAt(x, y, offsetX, Offset(steps, j), rowSum, step);
      }
    }

    /** One sub-pixel of the kernel: the ray through (x + offsetX, y + offsetY), traced and added to `sum`. */
    method SampleAt(x: int, y: int, offsetX: real, offsetY: real, sum: V4, ghost step: Step) returns (next: V4)
      requires bounces >= 0 && Stride * objectCount <= |sceneMemory|
      requires SamplesPixel(step, x, y)
      modifies this`rngSeed
      ensures (next, rngSeed) == step((offsetX, offsetY), (sum, old(rngSeed)))
    {
      var ray := env.rayFromPixel(x as real + offsetX, y as real + offsetY);
      var sampleColor := FullTrace(ray, bounces, scatterCount, scatterRedux, sceneMemory);
      assert step((offsetX, offsetY), (sum, old(rngSeed))) == (Add(sum, sampleColor), rngSeed);
      next := Add(sum, sampleColor);
    }
  }
}
