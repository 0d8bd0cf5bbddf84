/** The image sampler of the particle effect: a scan of a row-major RGBA
    byte buffer of w by h pixels on a STEP-pixel grid, which turns every
    grid pixel whose alpha is above a threshold into a particle at rest
    at that pixel.

    The functions below are the specification of the scan; the lemmas
    state what the scan promises about the particles it produces. */
module Sampler {

  /** Sampling stride, in pixels, in both axes. */
  const STEP: nat := 4

  /** A grid pixel whose alpha is at or below this value gets no particle. */
  const ALPHA_THRESHOLD: int := 40

  /** One channel of the pixel buffer (an unsigned 8-bit value). */
  type Byte = b: int | 0 <= b < 256

  datatype Rgb = Rgb(r: Byte, g: Byte, b: Byte)

  /** A particle: current position (x, y), origin (x0, y0), velocity
      (vx, vy), colour, and whether it is displaced from its origin. */
  datatype Particle = Particle(
    x: int, y: int,
    x0: int, y0: int,
    vx: int, vy: int,
    color: Rgb,
    off: bool)

  /** A buffer holds four bytes (R, G, B, A) for each of the w * h pixels. */
  predicate IsImage(w: nat, h: nat, data: seq<Byte>)
  {
    |data| == w * h * 4
  }

  /** Index of the red byte of pixel (x, y); G, B and A follow it. */
  function PixelIndex(w: nat, x: nat, y: nat): (i: nat)
  {
    (y * w + x) * 4
  }

  /** Every byte of a pixel inside the image lies inside the buffer. */
  lemma PixelInBuffer(w: nat, h: nat, x: nat, y: nat)
    requires x < w && y < h
    ensures PixelIndex(w, x, y) + 3 < w * h * 4
  {
    assert y * w + x < (y + 1) * w;
    assert (y + 1) * w <= h * w by {
      MulMonotone(y + 1, h, w);
    }
  }

  /** Different pixels own disjoint groups of four bytes, so each grid
      pixel's reads see its own R, G, B and A. */
  lemma PixelBytesDisjoint(w: nat, x1: nat, y1: nat, x2: nat, y2: nat)
    requires x1 < w && x2 < w && (x1 != x2 || y1 != y2)
    ensures PixelIndex(w, x1, y1) + 3 < PixelIndex(w, x2, y2)
         || PixelIndex(w, x2, y2) + 3 < PixelIndex(w, x1, y1)
  {
    if y1 < y2 {
      MulMonotone(y1 + 1, y2, w);
      assert y1 * w + x1 < y2 * w + x2;
    } else if y2 < y1 {
      MulMonotone(y2 + 1, y1, w);
      assert y2 * w + x2 < y1 * w + x1;
    }
  }

  lemma MulMonotone(a: nat, b: nat, c: nat)
    requires a <= b
    ensures a * c <= b * c
  {
    if a < b {
      assert b * c == a * c + (b - a) * c;
    }
  }

  /** (x, y) is one of the pixels the scan visits. */
  predicate OnGrid(w: nat, h: nat, x: int, y: int)
  {
    0 <= x < w && 0 <= y < h && x % STEP == 0 && y % STEP == 0
  }

  /** The alpha byte of pixel (x, y): the fourth of its bytes. */
  function Alpha(w: nat, h: nat, data: seq<Byte>, x: nat, y: nat): (a: Byte)
    requires IsImage(w, h, data) && x < w && y < h
    ensures PixelIndex(w, x, y) + 3 < |data| && a == data[PixelIndex(w, x, y) + 3]
  {
    PixelInBuffer(w, h, x, y);
    data[PixelIndex(w, x, y) + 3]
  }

  /** The colour of pixel (x, y): its first three bytes. */
  function PixelColor(w: nat, h: nat, data: seq<Byte>, x: nat, y: nat): (c: Rgb)
    requires IsImage(w, h, data) && x < w && y < h
    ensures var i := PixelIndex(w, x, y);
      i + 2 < |data| && c.r == data[i] && c.g == data[i + 1] && c.b == data[i + 2]
  {
    PixelInBuffer(w, h, x, y);
    var i := PixelIndex(w, x, y);
    Rgb(data[i], data[i + 1], data[i + 2])
  }

  /** A grid pixel yields a particle exactly when this holds. */
  predicate Visible(w: nat, h: nat, data: seq<Byte>, x: nat, y: nat)
    requires IsImage(w, h, data) && x < w && y < h
    ensures PixelIndex(w, x, y) + 3 < |data|
      && (Visible(w, h, data, x, y) <==> data[PixelIndex(w, x, y) + 3] > ALPHA_THRESHOLD)
  {
    Alpha(w, h, data, x, y) > ALPHA_THRESHOLD
  }

  /** The particle created for pixel (x, y): at rest on its origin. */
  function NewParticle(w: nat, h: nat, data: seq<Byte>, x: nat, y: nat): (p: Particle)
    requires IsImage(w, h, data) && x < w && y < h
    ensures p.x == p.x0 == x && p.y == p.y0 == y
    ensures p.vx == 0 && p.vy == 0 && !p.off
    ensures p.color == PixelColor(w, h, data, x, y)
  {
    Particle(x, y, x, y, 0, 0, PixelColor(w, h, data, x, y), false)
  }

  /** Particles of row y from column x to the end of the row. */
  function RowScan(w: nat, h: nat, data: seq<Byte>, y: nat, x: nat): (ps: seq<Particle>)
    requires IsImage(w, h, data) && y < h
    decreases w - x
  {
    if x >= w then []
    else
      (if Visible(w, h, data, x, y) then [NewParticle(w, h, data, x, y)] else [])
      + RowScan(w, h, data, y, x + STEP)
  }

  /** One step of the row scan as the loop takes it: the particles so far,
      then the pixel at column x, then the rest of the row and the rows
      below. */
  lemma RowScanStep(w: nat, h: nat, data: seq<Byte>, y: nat, x: nat,
                    done: seq<Particle>, all: seq<Particle>)
    requires IsImage(w, h, data) && y < h && x < w
    requires done + RowScan(w, h, data, y, x) + GridScan(w, h, data, y + STEP) == all
    ensures var i := PixelIndex(w, x, y);
      i + 3 < |data| &&
      (if data[i + 3] > ALPHA_THRESHOLD
       then done + [Particle(x, y, x, y, 0, 0, Rgb(data[i], data[i + 1], data[i + 2]), false)]
       else done)
      + RowScan(w, h, data, y, x + STEP) + GridScan(w, h, data, y + STEP) == all
  {
    RowScanUnfold(w, h, data, y, x);
    var i := PixelIndex(w, x, y);
    if data[i + 3] > ALPHA_THRESHOLD {
      var p := Particle(x, y, x, y, 0, 0, Rgb(data[i], data[i + 1], data[i + 2]), false);
      AppendAssoc(done, [p], RowScan(w, h, data, y, x + STEP), GridScan(w, h, data, y + STEP));
    } else {
      assert RowScan(w, h, data, y, x) == RowScan(w, h, data, y, x + STEP);
    }
  }

  /** The row scan at column x < w, with the pixel's bytes written out. */
  lemma RowScanUnfold(w: nat, h: nat, data: seq<Byte>, y: nat, x: nat)
    requires IsImage(w, h, data) && y < h && x < w
    ensures var i := PixelIndex(w, x, y);
      i + 3 < |data| &&
      RowScan(w, h, data, y, x) ==
        (if data[i + 3] > ALPHA_THRESHOLD
         then [Particle(x, y, x, y, 0, 0, Rgb(data[i], data[i + 1], data[i + 2]), false)]
         else [])
        + RowScan(w, h, data, y, x + STEP)
  {
    PixelInBuffer(w, h, x, y);
  }

  lemma AppendAssoc(a: seq<Particle>, b: seq<Particle>, c: seq<Particle>, d: seq<Particle>)
    ensures a + (b + c) + d == (a + b) + c + d
  {
  }

  /** Particles of the rows from row y to the bottom of the image. */
  function GridScan(w: nat, h: nat, data: seq<Byte>, y: nat): (ps: seq<Particle>)
    requires IsImage(w, h, data)
    decreases h - y
  {
    if y >= h then []
    else RowScan(w, h, data, y, 0) + GridScan(w, h, data, y + STEP)
  }

  /** The particle list the sampler builds from a w by h buffer. */
  function SampledParticles(w: nat, h: nat, data: seq<Byte>): (ps: seq<Particle>)
    requires IsImage(w, h, data)
  {
    GridScan(w, h, data, 0)
  }

  // ---------------------------------------------------------------------
  // Which particles come out

  /** p is the particle of some visible grid pixel. */
  ghost predicate FromGridPixel(w: nat, h: nat, data: seq<Byte>, p: Particle)
    requires IsImage(w, h, data)
  {
    exists x: nat, y: nat ::
      OnGrid(w, h, x, y) && Visible(w, h, data, x, y) && p == NewParticle(w, h, data, x, y)
  }

  /** p is the particle of a visible pixel of row y at column x or later. */
  ghost predicate InRowFrom(w: nat, h: nat, data: seq<Byte>, y: nat, x: nat, p: Particle)
    requires IsImage(w, h, data) && y < h
  {
    exists x': nat :: x <= x' < w && x' % STEP == 0 && Visible(w, h, data, x', y)
      && p == NewParticle(w, h, data, x', y)
  }

  /** Grid coordinates are STEP apart. */
  lemma NextGridPoint(a: nat, b: nat)
    requires a % STEP == 0 && b % STEP == 0 && a < b
    ensures a + STEP <= b
  {
  }

  lemma {:induction false} RowScanMembers(w: nat, h: nat, data: seq<Byte>, y: nat, x: nat, p: Particle)
    requires IsImage(w, h, data) && y < h && x % STEP == 0
    ensures p in RowScan(w, h, data, y, x) <==> InRowFrom(w, h, data, y, x, p)
    decreases w - x
  {
    if x < w {
      RowScanMembers(w, h, data, y, x + STEP, p);
      var head := if Visible(w, h, data, x, y) then [NewParticle(w, h, data, x, y)] else [];
      assert RowScan(w, h, data, y, x) == head + RowScan(w, h, data, y, x + STEP);
      if p in head {
        assert InRowFrom(w, h, data, y, x, p);
      }
      if InRowFrom(w, h, data, y, x + STEP, p) {
        var x': nat :| x + STEP <= x' < w && x' % STEP == 0 && Visible(w, h, data, x', y)
          && p == NewParticle(w, h, data, x', y);
        assert InRowFrom(w, h, data, y, x, p);
      }
      if InRowFrom(w, h, data, y, x, p) {
        var x': nat :| x <= x' < w && x' % STEP == 0 && Visible(w, h, data, x', y)
          && p == NewParticle(w, h, data, x', y);
        if x' == x {
          assert p in head;
        } else {
          NextGridPoint(x, x');
          assert InRowFrom(w, h, data, y, x + STEP, p);
        }
      }
    }
  }

  /** p is the particle of a visible grid pixel in row y or below. */
  ghost predicate InRowsFrom(w: nat, h: nat, data: seq<Byte>, y: nat, p: Particle)
    requires IsImage(w, h, data)
  {
    exists x': nat, y': nat :: y <= y' && OnGrid(w, h, x', y') && Visible(w, h, data, x', y')
      && p == NewParticle(w, h, data, x', y')
  }

  lemma {:induction false} GridScanMembers(w: nat, h: nat, data: seq<Byte>, y: nat, p: Particle)
    requires IsImage(w, h, data) && y % STEP == 0
    ensures p in GridScan(w, h, data, y) <==> InRowsFrom(w, h, data, y, p)
    decreases h - y
  {
    if y < h {
      GridScanMembers(w, h, data, y + STEP, p);
      RowScanMembers(w, h, data, y, 0, p);
      assert GridScan(w, h, data, y) == RowScan(w, h, data, y, 0) + GridScan(w, h, data, y + STEP);
      if InRowFrom(w, h, data, y, 0, p) {
        var x': nat :| 0 <= x' < w && x' % STEP == 0 && Visible(w, h, data, x', y)
          && p == NewParticle(w, h, data, x', y);
        assert OnGrid(w, h, x', y);
        assert InRowsFrom(w, h, data, y, p);
      }
      if InRowsFrom(w, h, data, y + STEP, p) {
        var x': nat, y': nat :| y + STEP <= y' && OnGrid(w, h, x', y') && Visible(w, h, data, x', y')
          && p == NewParticle(w, h, data, x', y');
        assert InRowsFrom(w, h, data, y, p);
      }
      if InRowsFrom(w, h, data, y, p) {
        var x': nat, y': nat :| y <= y' && OnGrid(w, h, x', y') && Visible(w, h, data, x', y')
          && p == NewParticle(w, h, data, x', y');
        if y' == y {
          assert InRowFrom(w, h, data, y, 0, p);
        } else {
          NextGridPoint(y, y');
          assert InRowsFrom(w, h, data, y + STEP, p);
        }
      }
    }
  }

  /** A particle is in the result exactly when it is the particle of a
      visible grid pixel. */
  lemma SampledParticlesMembers(w: nat, h: nat, data: seq<Byte>, p: Particle)
    requires IsImage(w, h, data)
    ensures p in SampledParticles(w, h, data) <==> FromGridPixel(w, h, data, p)
  {
    GridScanMembers(w, h, data, 0, p);
    assert InRowsFrom(w, h, data, 0, p) <==> FromGridPixel(w, h, data, p);
  }

  /** Every particle has its origin on the stride grid inside the image,
      sits on its origin with zero velocity and is not displaced, and
      carries the R, G, B bytes of its own pixel, whose alpha is above
      the threshold. */
  lemma SampledParticleShape(w: nat, h: nat, data: seq<Byte>, p: Particle)
    requires IsImage(w, h, data)
    requires p in SampledParticles(w, h, data)
    ensures OnGrid(w, h, p.x0, p.y0)
    ensures p.x == p.x0 && p.y == p.y0
    ensures p.vx == 0 && p.vy == 0 && !p.off
    ensures p.color == PixelColor(w, h, data, p.x0, p.y0)
    ensures Alpha(w, h, data, p.x0, p.y0) > ALPHA_THRESHOLD
  {
    SampledParticlesMembers(w, h, data, p);
  }

  // ---------------------------------------------------------------------
  // Order

  /** p comes before q in row-major order of origins. */
  predicate RowMajorBefore(p: Particle, q: Particle)
  {
    p.y0 < q.y0 || (p.y0 == q.y0 && p.x0 < q.x0)
  }

  predicate StrictlyRowMajor(s: seq<Particle>)
  {
    forall i, j :: 0 <= i < j < |s| ==> RowMajorBefore(s[i], s[j])
  }

  lemma ConcatRowMajor(a: seq<Particle>, b: seq<Particle>)
    requires StrictlyRowMajor(a) && StrictlyRowMajor(b)
    requires forall i, j :: 0 <= i < |a| && 0 <= j < |b| ==> RowMajorBefore(a[i], b[j])
    ensures StrictlyRowMajor(a + b)
  {
    forall i, j | 0 <= i < j < |a + b|
      ensures RowMajorBefore((a + b)[i], (a + b)[j])
    {
      if j < |a| {
        assert RowMajorBefore(a[i], a[j]);
      } else if i >= |a| {
        assert RowMajorBefore(b[i - |a|], b[j - |a|]);
      } else {
        assert RowMajorBefore(a[i], b[j - |a|]);
      }
    }
  }

  lemma {:induction false} RowScanOrdered(w: nat, h: nat, data: seq<Byte>, y: nat, x: nat)
    requires IsImage(w, h, data) && y < h
    ensures StrictlyRowMajor(RowScan(w, h, data, y, x))
    ensures forall p :: p in RowScan(w, h, data, y, x) ==> p.y0 == y && x <= p.x0 < w
    decreases w - x
  {
    if x < w {
      RowScanOrdered(w, h, data, y, x + STEP);
      var head := if Visible(w, h, data, x, y) then [NewParticle(w, h, data, x, y)] else [];
      var rest := RowScan(w, h, data, y, x + STEP);
      assert forall i :: 0 <= i < |rest| ==> rest[i] in rest;
      ConcatRowMajor(head, rest);
    }
  }

  lemma {:induction false} GridScanOrdered(w: nat, h: nat, data: seq<Byte>, y: nat)
    requires IsImage(w, h, data)
    ensures StrictlyRowMajor(GridScan(w, h, data, y))
    ensures forall p :: p in GridScan(w, h, data, y) ==> y <= p.y0
    decreases h - y
  {
    if y < h {
      GridScanOrdered(w, h, data, y + STEP);
      RowScanOrdered(w, h, data, y, 0);
      var row := RowScan(w, h, data, y, 0);
      var rest := GridScan(w, h, data, y + STEP);
      assert forall i :: 0 <= i < |row| ==> row[i] in row;
      assert forall j :: 0 <= j < |rest| ==> rest[j] in rest;
      ConcatRowMajor(row, rest);
    }
  }

  /** Particles come out row by row, left to right: strictly increasing
      in (y0, x0) compared lexicographically. */
  lemma SampledParticlesOrdered(w: nat, h: nat, data: seq<Byte>)
    requires IsImage(w, h, data)
    ensures StrictlyRowMajor(SampledParticles(w, h, data))
  {
    GridScanOrdered(w, h, data, 0);
  }

  /** Each visible grid pixel has exactly one particle at its origin, and
      every other grid pixel has none. */
  lemma OneParticlePerVisiblePixel(w: nat, h: nat, data: seq<Byte>, x: nat, y: nat)
    requires IsImage(w, h, data) && OnGrid(w, h, x, y)
    ensures var s := SampledParticles(w, h, data);
      |set i | 0 <= i < |s| && s[i].x0 == x && s[i].y0 == y| ==
        if Visible(w, h, data, x, y) then 1 else 0
  {
    var s := SampledParticles(w, h, data);
    var at := set i | 0 <= i < |s| && s[i].x0 == x && s[i].y0 == y;
    if Visible(w, h, data, x, y) {
      var p := NewParticle(w, h, data, x, y);
      SampledParticlesMembers(w, h, data, p);
      var k :| 0 <= k < |s| && s[k] == p;
      SampledParticlesOrdered(w, h, data);
      assert forall i :: i in at ==> i == k;
      assert at == {k};
    } else {
      forall i | i in at ensures false {
        assert s[i] in s;
        SampledParticleShape(w, h, data, s[i]);
      }
      assert at == {};
    }
  }

  // ---------------------------------------------------------------------
  // Count

  /** Number of grid coordinates 0, STEP, 2 * STEP, ... below n: ceil(n / STEP). */
  function GridPoints(n: int): (k: nat)
  {
    if n <= 0 then 0 else (n + STEP - 1) / STEP
  }

  lemma GridPointsStep(n: int)
    requires n > 0
    ensures GridPoints(n) == 1 + GridPoints(n - STEP)
  {
  }

  lemma {:induction false} RowScanCount(w: nat, h: nat, data: seq<Byte>, y: nat, x: nat)
    requires IsImage(w, h, data) && y < h
    ensures |RowScan(w, h, data, y, x)| <= GridPoints(w - x)
    decreases w - x
  {
    if x < w {
      RowScanCount(w, h, data, y, x + STEP);
      GridPointsStep(w - x);
    }
  }

  /** cols added once for each grid row from y to the bottom. */
  function RowsTimes(h: nat, y: nat, cols: nat): (total: nat)
    decreases h - y
  {
    if y >= h then 0 else cols + RowsTimes(h, y + STEP, cols)
  }

  lemma {:induction false} RowsTimesProduct(h: nat, y: nat, cols: nat)
    ensures RowsTimes(h, y, cols) == GridPoints(h - y) * cols
    decreases h - y
  {
    if y < h {
      RowsTimesProduct(h, y + STEP, cols);
      GridPointsStep(h - y);
      MulSucc(GridPoints(h - (y + STEP)), cols);
    }
  }

  lemma MulSucc(a: nat, b: nat)
    ensures (1 + a) * b == b + a * b
  {
  }

  lemma {:induction false} GridScanCount(w: nat, h: nat, data: seq<Byte>, y: nat)
    requires IsImage(w, h, data)
    ensures |GridScan(w, h, data, y)| <= RowsTimes(h, y, GridPoints(w))
    decreases h - y
  {
    if y < h {
      GridScanCount(w, h, data, y + STEP);
      RowScanCount(w, h, data, y, 0);
    }
  }

  /** At most ceil(w / STEP) * ceil(h / STEP) particles. */
  lemma SampledParticlesCount(w: nat, h: nat, data: seq<Byte>)
    requires IsImage(w, h, data)
    ensures |SampledParticles(w, h, data)| <= GridPoints(w) * GridPoints(h)
  {
    GridScanCount(w, h, data, 0);
    RowsTimesProduct(h, 0, GridPoints(w));
  }

  /** A zero-width or zero-height image yields no particles. */
  lemma EmptyImageNoParticles(w: nat, h: nat, data: seq<Byte>)
    requires IsImage(w, h, data) && (w == 0 || h == 0)
    ensures SampledParticles(w, h, data) == []
  {
    SampledParticlesCount(w, h, data);
  }

  // ---------------------------------------------------------------------
  // A worked example: a 10 by 10 opaque red image

  function OpaqueRed(n: nat): (data: seq<Byte>)
  {
    seq(n * 4, i => if i % 4 == 1 || i % 4 == 2 then 0 else 255)
  }

  function RedAt(x: nat, y: nat): (p: Particle)
  {
    Particle(x, y, x, y, 0, 0, Rgb(255, 0, 0), false)
  }

  lemma RedPixel(data: seq<Byte>, x: nat, y: nat)
    requires data == OpaqueRed(100) && x < 10 && y < 10
    ensures IsImage(10, 10, data)
    ensures Visible(10, 10, data, x, y) && NewParticle(10, 10, data, x, y) == RedAt(x, y)
  {
    PixelInBuffer(10, 10, x, y);
    var i := PixelIndex(10, x, y);
    assert i % 4 == 0;
    assert data[i] == 255 && data[i + 1] == 0 && data[i + 2] == 0 && data[i + 3] == 255;
  }

  lemma RedRow(data: seq<Byte>, y: nat)
    requires data == OpaqueRed(100) && y < 10
    ensures IsImage(10, 10, data)
    ensures RowScan(10, 10, data, y, 0) == [RedAt(0, y), RedAt(4, y), RedAt(8, y)]
  {
    RedPixel(data, 0, y);
    RedPixel(data, 4, y);
    RedPixel(data, 8, y);
    assert RowScan(10, 10, data, y, 12) == [];
    assert RowScan(10, 10, data, y, 8) == [RedAt(8, y)];
    assert RowScan(10, 10, data, y, 4) == [RedAt(4, y), RedAt(8, y)];
  }

  /** Sampling a 10 by 10 opaque red image yields nine red particles at
      rest, at (0,0), (4,0), (8,0), (0,4), ..., (8,8), in that order. */
  lemma OpaqueRedExample()
    ensures SampledParticles(10, 10, OpaqueRed(100)) ==
      [RedAt(0, 0), RedAt(4, 0), RedAt(8, 0),
       RedAt(0, 4), RedAt(4, 4), RedAt(8, 4),
       RedAt(0, 8), RedAt(4, 8), RedAt(8, 8)]
  {
    var data := OpaqueRed(100);
    assert IsImage(10, 10, data);
    RedRow(data, 0);
    RedRow(data, 4);
    RedRow(data, 8);
    assert GridScan(10, 10, data, 12) == [];
    assert GridScan(10, 10, data, 8) == RowScan(10, 10, data, 8, 0);
    assert GridScan(10, 10, data, 4) == RowScan(10, 10, data, 4, 0) + RowScan(10, 10, data, 8, 0);
  }
}
