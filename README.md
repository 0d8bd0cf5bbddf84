# Image sampler of the canvas particle effect

The effect turns an image into a grid of coloured particles that rest on
their source pixels, are pushed away by the pointer and spring back. This
project models the part with discrete logic: `buildParticlesFromImage` in
`script.js`, which scans the RGBA pixel buffer of a `w` by `h` canvas on a
grid of stride `STEP = 4`, row by row, and creates one particle at rest for
every grid pixel whose alpha byte is above 40.

- `sampler.dfy`, module `Sampler`: the data model (`Byte`, `Rgb`,
  `Particle`), the byte layout of the buffer (`PixelIndex`, script.js:67),
  the reads and the test of one pixel (`Alpha`, script.js:68; `Visible`,
  script.js:69; `PixelColor`, script.js:70), the particle created for a
  pixel (`NewParticle`, script.js:72-78), the specification of the scan as
  pure functions (`RowScan` for one row from a column on, `GridScan` for
  the rows from a row on, `SampledParticles` for the whole image), and the
  lemmas that say what the scan produces: which particles, in which order,
  how many, with which fields, and a worked 10 by 10 example. The pixel
  functions and the scan functions only compute; what they promise is
  stated by the lemmas in the table below about the particles they
  produce.
- `scene.dfy`, module `ParticleScene`: the script's shared state (canvas
  size and particle list) as the class `Scene`, whose method
  `BuildParticlesFromImage` resets the list and pushes particles inside two
  nested `while` loops stepping `y` and `x` by `STEP`, exactly as the
  script's `for` loops do. It is proved to leave
  `particles == SampledParticles(w, h, data)`.

The pixel buffer is an input: `data` is a sequence of bytes of length
`w * h * 4`. The script reads it back from an offscreen canvas of the
main canvas's size, and `w`, `h` are set to that size on start-up and on
resize (script.js:15, script.js:150), which is where the precondition
`IsImage(w, h, data)` comes from. The scan itself reads `w` and `h` once per
loop test; nothing changes them during a scan, so the method reads them
once into locals.

In the browser the offscreen canvas is first filled with an opaque colour
(script.js:54-55), so every alpha byte the scan sees is 255 and the
threshold never rejects a pixel. The model does not rely on that: it takes
any byte buffer, so the threshold branch is modelled and proved in both
directions.

## Model

| member | source | states |
|---|---|---|
| Sampler.PixelInBuffer | script.js:65-70 | for a pixel with `x < w` and `y < h`, the byte index `(y*w + x)*4` and the three bytes after it lie inside a buffer of length `w*h*4`, so every read of the scan is in bounds |
| Sampler.PixelBytesDisjoint | script.js:67 | the index `(y*w + x)*4` gives two different pixels of a row-major image (`x < w`) byte groups `i..i+3` that do not overlap, so no two grid pixels read the same byte |
| Sampler.RowScanMembers | script.js:66-79 | a particle is produced by the scan of row `y` from column `x` on exactly when it is the new particle of a grid column `x' >= x`, `x' < w`, whose alpha is above 40 |
| Sampler.GridScanMembers | script.js:65-81 | a particle is produced by the scan from row `y` on exactly when it is the new particle of a visible grid pixel in a row `y' >= y` |
| Sampler.SampledParticlesMembers | script.js:65-79 | a particle is in the result if and only if it is the particle created for some grid pixel (both coordinates multiples of 4, inside the image) whose alpha is above 40 |
| Sampler.SampledParticleShape | script.js:65-78 | every particle's origin is on the stride grid with `0 <= x0 < w`, `0 <= y0 < h`; its position equals its origin, its velocity is zero, `off` is false, its colour is the R, G, B bytes of its own pixel and that pixel's alpha is above 40 |
| Sampler.OneParticlePerVisiblePixel | script.js:65-72 | the number of particles with origin at a grid pixel is 1 if its alpha is above 40 and 0 otherwise |
| Sampler.RowScanOrdered | script.js:66-72 | the particles of one row are strictly increasing in `x0`, all have `y0 == y` and lie in columns `x..w-1` |
| Sampler.GridScanOrdered | script.js:65-72 | the particles from row `y` on are strictly increasing in `(y0, x0)` and all have `y0 >= y` |
| Sampler.SampledParticlesOrdered | script.js:65-72 | the whole result is strictly increasing in `(y0, x0)` compared lexicographically (row-major order, no two particles share an origin) |
| Sampler.RowScanCount | script.js:66 | one row from column `x` on yields at most `ceil((w - x)/4)` particles |
| Sampler.GridScanCount | script.js:65-66 | the rows from row `y` on yield at most `ceil(w/4)` particles for each grid row left (`RowsTimes`) |
| Sampler.RowsTimesProduct | script.js:65 | adding `cols` once per grid row from `y` to `h` gives `ceil((h - y)/4) * cols` |
| Sampler.SampledParticlesCount | script.js:65-72 | the result has at most `ceil(w/4) * ceil(h/4)` particles |
| Sampler.EmptyImageNoParticles | script.js:64-66 | when `w == 0` or `h == 0` the result is empty |
| Sampler.RedRow | script.js:66-78 | each row 0, 4, 8 of a 10 by 10 opaque red buffer yields red particles at columns 0, 4, 8 |
| Sampler.OpaqueRedExample | script.js:64-81 | a 10 by 10 opaque red buffer sampled at `STEP = 4` yields exactly the nine red particles at rest at (0,0), (4,0), (8,0), (0,4), (4,4), (8,4), (0,8), (4,8), (8,8), in that order |
| ParticleScene.Scene.constructor | script.js:12-15 | the initial state holds the canvas size and an empty particle list |
| ParticleScene.Scene.BuildParticlesFromImage | script.js:64-81 | the particle list is replaced by `SampledParticles(w, h, data)`, whatever it held before; only the list changes |
| ParticleScene.RebuildTwice | script.js:64 | rebuilding twice from the same buffer gives the same list both times and leaves the canvas size alone |

## Left out

- `step` (script.js:91-136): the per-frame physics is IEEE floating point throughout (`Math.hypot`, the `0.0001` epsilon, damping by 0.85, speed clamping by division, the `0.3` settle test); the settling and speed-clamp properties it carries are not modelled.
- Drawing and scheduling: `clearRect`, `fillRect`, `Math.round` at draw time and `requestAnimationFrame` (script.js:92, 132-135) are browser calls.
- Pointer and touch handlers (script.js:20-45): DOM event wiring with floating-point coordinate scaling.
- Offscreen canvas creation, background fill, `drawImage` and `getImageData` (script.js:50-63): browser rasterisation; its output is the `data` input of the model.
- The aspect-ratio variables `arImg`, `arCanvas`, `dw`, `dh`, `dx`, `dy` (script.js:57-59): they are computed and never used.
- Image loading, `onload` and the resize handler (script.js:9-11, 139-152): lifecycle glue. The resize handler sets `w`, `h` to the canvas size and, only when the image has finished loading, successfully or not (`img.complete`, script.js:151), calls the sampler again; the model covers that call as `BuildParticlesFromImage` for the new size, not the guard or the event.
- Zero-sized canvas: when `w` or `h` is 0, the browser's `getImageData` (script.js:62) throws before the list is reset, so the script keeps the list it had (empty from script.js:12, as no later code changes the canvas size) and, on load, never starts `step` (script.js:143). The model does not model that exception; `EmptyImageNoParticles` states what the scan itself yields for such a size, which is the same empty list.
- Failed image load: a broken image still reports `img.complete` as true, so the resize handler (script.js:151) calls the sampler, and `drawImage` (script.js:61) then throws before the list is reset at script.js:64, so the script keeps the list it had. The model does not model that exception either; `BuildParticlesFromImage` describes a call whose image reads succeed.
- Colour strings: the script stores the colour as the text `rgb(r,g,b)` (script.js:76); the model keeps the three bytes as an `Rgb` value.
- Reads past the end of the buffer (which give `undefined` in JavaScript) are not modelled: the precondition `|data| == w*h*4` holds for every call the script makes, and under it no read falls outside the buffer.
- Positions and velocities are JavaScript numbers; at creation they are whole numbers (pixel coordinates and 0), so the model uses `int`.
