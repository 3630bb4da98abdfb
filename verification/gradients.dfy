/** Geometry and colour stops of the linear gradient painted over the tail of
    the last visible line. Pixel and alpha arithmetic is done over reals. */
module Gradients {
  import opened Colors

  datatype Offset = Offset(x: real, y: real)

  /** The base colour with its alpha channel replaced by `alpha`
      (the framework's `copy(alpha = …)`). */
  datatype ColorStop = ColorStop(base: Color, alpha: real)

  datatype LinearGradient = LinearGradient(colors: seq<ColorStop>, start: Offset, end: Offset)

  /** `a` never rises from one element to the next. */
  predicate NonIncreasing(a: seq<real>) {
    forall i :: 0 < i < |a| ==> a[i] <= a[i - 1]
  }

  /** The five stop alphas for a base colour of alpha `a`: the first two are
      relative to `a`, the last three absolute. */
  function StopAlphas(a: real): (r: seq<real>)
    ensures |r| == 5
    ensures r[2] == r[3] && r[4] == 0.0
    ensures 0.0 <= a ==> r[1] <= r[0]
    ensures 0.0 <= a <= 1.0 ==> forall i :: 0 <= i < |r| ==> 0.0 <= r[i] <= 1.0
  {
    [a * 0.9, a * 0.3, 0.1, 0.1, 0.0]
  }

  /** The stops fade monotonically exactly when the base alpha is at least 1/3;
      for a fainter base the fixed 0.1 plateau is brighter than the second stop. */
  lemma StopsNonIncreasingIff(a: real)
    requires 0.0 <= a <= 1.0
    ensures NonIncreasing(StopAlphas(a)) <==> a * 3.0 >= 1.0
  {
  }

  /** The brush of the fade run for base colour `base`, fraction
      `blurLineWidth` of the line `width`, over the band `[top, bottom]`. */
  function BlurBrush(base: Color, blurLineWidth: real, width: real, top: real, bottom: real): (g: LinearGradient)
    ensures |g.colors| == 5
    ensures forall i :: 0 <= i < |g.colors| ==> g.colors[i].base == base
    ensures g.end == Offset(width, bottom) && g.start.y == top
    ensures 0.0 <= blurLineWidth <= 1.0 && 0.0 <= width ==> 0.0 <= g.start.x <= g.end.x
    ensures g.end.x - g.start.x == width * blurLineWidth
  {
    var alphas := StopAlphas(AlphaOf(base));
    assert 0.0 <= blurLineWidth <= 1.0 && 0.0 <= width ==> 0.0 <= width * blurLineWidth <= width by {
      if 0.0 <= blurLineWidth <= 1.0 && 0.0 <= width {
        assert width * (1.0 - blurLineWidth) >= 0.0;
      }
    }
    LinearGradient(
      [ ColorStop(base, alphas[0]), ColorStop(base, alphas[1]), ColorStop(base, alphas[2]),
        ColorStop(base, alphas[3]), ColorStop(base, alphas[4]) ],
      Offset(width - width * blurLineWidth, top),
      Offset(width, bottom))
  }

  /** The stop alphas of the brush are the five stop alphas of the base colour. */
  lemma BrushAlphas(base: Color, b: real, width: real, top: real, bottom: real)
    ensures var g := BlurBrush(base, b, width, top, bottom);
      forall i :: 0 <= i < 5 ==> g.colors[i].alpha == StopAlphas(AlphaOf(base))[i]
  {
  }

  /** With no blur the span collapses to the right edge; with full blur it
      starts at the left edge of the line. */
  lemma SpanEndpoints(base: Color, width: real, top: real, bottom: real)
    ensures BlurBrush(base, 0.0, width, top, bottom).start.x == width
    ensures BlurBrush(base, 1.0, width, top, bottom).start.x == 0.0
  {
  }

  /** A line 300 wide with the default blur width 0.2 fades over [240, 300]. */
  lemma DefaultSpanExample(base: Color, top: real, bottom: real)
    ensures BlurBrush(base, 0.2, 300.0, top, bottom).start.x == 240.0
  {
  }
}
