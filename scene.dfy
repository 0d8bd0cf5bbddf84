/** The shared state the sampler rebuilds: the canvas size (w, h) and the
    particle list, held by one object instead of the script's closure
    variables. */
module ParticleScene {
  import opened Sampler

  class Scene {
    var w: nat
    var h: nat
    var particles: seq<Particle>

    /** The state before the first image has loaded: the canvas size and
        no particles. */
    constructor (width: nat, height: nat)
      ensures w == width && h == height && particles == []
    {
      w := width;
      h := height;
      particles := [];
    }

    /** Discards the particle list and refills it by scanning the pixel
        buffer on the STEP grid, row by row; the canvas size is unchanged
        and the old particles play no part in the result. */
    method BuildParticlesFromImage(data: seq<Byte>)
      requires IsImage(w, h, data)
      modifies this`particles
      ensures particles == SampledParticles(w, h, data)
    {
      var width, height := w, h;
      particles := [];
      var y: nat := 0;
      while y < height
        invariant particles + GridScan(width, height, data, y) == SampledParticles(width, height, data)
        decreases height - y
      {
        var x: nat := 0;
        assert GridScan(width, height, data, y)
          == RowScan(width, height, data, y, 0) + GridScan(width, height, data, y + STEP);
        while x < width
          invariant particles + RowScan(width, height, data, y, x) + GridScan(width, height, data, y + STEP)
            == SampledParticles(width, height, data)
          decreases width - x
        {
          var i := (y * width + x) * 4;
          RowScanStep(width, height, data, y, x, particles, SampledParticles(width, height, data));
          var a := data[i + 3];
          if a > ALPHA_THRESHOLD {
            var r, g, b := data[i], data[i + 1], data[i + 2];
            particles := particles + [Particle(x, y, x, y, 0, 0, Rgb(r, g, b), false)];
          }
          x := x + STEP;
        }
        y := y + STEP;
      }
    }
  }

  /** Rebuilding twice from the same buffer, with nothing in between,
      leaves the same particle list both times. */
  method RebuildTwice(scene: Scene, data: seq<Byte>) returns (first: seq<Particle>, second: seq<Particle>)
    requires IsImage(scene.w, scene.h, data)
    modifies scene
    ensures first == second == scene.particles
    ensures scene.w == old(scene.w) && scene.h == old(scene.h)
  {
    scene.BuildParticlesFromImage(data);
    first := scene.particles;
    scene.BuildParticlesFromImage(data);
    second := scene.particles;
  }
}
