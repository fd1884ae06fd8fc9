/**
 The arithmetic of the timeline glow: where the focus line falls along the
 timeline, the five gradient stops derived from it, and how strongly each
 timeline marker is lit by its distance from the focus line. Viewport and
 element geometry are plain inputs; numbers are exact reals.
 */
module TimelineGlow {

  /** `Math.max` and `Math.min` on two reals, and `Math.abs`. */
  function Max(a: real, b: real): real { if a >= b then a else b }
  function Min(a: real, b: real): real { if a <= b then a else b }
  function Abs(x: real): real { if x >= 0.0 then x else -x }

  /** The focus line sits 40% of the way down the viewport. */
  const FocusFraction: real := 0.4
  /** Width of one glow band along the timeline, in percent. */
  const GlowSize: real := 15.0
  /** Offset of a marker's diamond below the top of its item, in pixels. */
  const MarkerOffset: real := 10.0
  /** A marker is lit while it is closer to the focus line than this fraction of the viewport. */
  const ReachFraction: real := 0.3
  /** Opacity of a marker that is not lit at all. */
  const MinOpacity: real := 0.25
  /** Blur radius of a fully lit marker's glow, in pixels; the blur scales with intensity. */
  const GlowBlur: real := 15.0
  /** Alpha of a fully lit marker's glow; the alpha scales with intensity. */
  const GlowAlpha: real := 0.6

  function FocusY(viewportHeight: real): real
  {
    viewportHeight * FocusFraction
  }

  /** Position of the focus line along the timeline, in percent of its height, unclamped. */
  function RelativePosition(viewportHeight: real, timelineTop: real, timelineHeight: real): (rel: real)
    requires timelineHeight > 0.0
    ensures rel < 0.0 <==> FocusY(viewportHeight) < timelineTop
    ensures rel == 0.0 <==> FocusY(viewportHeight) == timelineTop
    ensures rel < 100.0 <==> FocusY(viewportHeight) < timelineTop + timelineHeight
    ensures rel == 100.0 <==> FocusY(viewportHeight) == timelineTop + timelineHeight
  {
    var x := FocusY(viewportHeight) - timelineTop;
    QuotientVersus(x, timelineHeight, 0.0);
    QuotientVersus(x, timelineHeight, 1.0);
    x / timelineHeight * 100.0
  }

  /** The focus position limited to the timeline: 0% at its top, 100% at its bottom. */
  function ClampedPosition(viewportHeight: real, timelineTop: real, timelineHeight: real): (p: real)
    requires timelineHeight > 0.0
    ensures 0.0 <= p <= 100.0
    ensures var rel := RelativePosition(viewportHeight, timelineTop, timelineHeight);
            (0.0 <= rel <= 100.0 ==> p == rel) && (rel < 0.0 ==> p == 0.0) && (rel > 100.0 ==> p == 100.0)
  {
    Max(0.0, Min(100.0, RelativePosition(viewportHeight, timelineTop, timelineHeight)))
  }

  /** From a positive divisor, the sign of a quotient is the sign of the dividend, and it
      reaches a bound exactly when the dividend reaches that multiple of the divisor. */
  lemma QuotientVersus(x: real, d: real, c: real)
    requires d > 0.0
    ensures x / d < c <==> x < c * d
    ensures x / d == c <==> x == c * d
  {
    assert x / d * d == x;
    if x / d < c {
      assert x / d * d < c * d;
    }
    if x < c * d {
      assert x / d * d < c * d;
    }
  }

  /** In geometric terms: the clamped position is 0% exactly when the focus line is at or
      above the timeline's top, 100% exactly when it is at or below its bottom, and
      strictly in between exactly when the focus line crosses the timeline. */
  lemma ClampedPositionGeometry(viewportHeight: real, timelineTop: real, timelineHeight: real)
    requires timelineHeight > 0.0
    ensures var p := ClampedPosition(viewportHeight, timelineTop, timelineHeight);
            && (p == 0.0 <==> FocusY(viewportHeight) <= timelineTop)
            && (p == 100.0 <==> FocusY(viewportHeight) >= timelineTop + timelineHeight)
            && (0.0 < p < 100.0 <==> timelineTop < FocusY(viewportHeight) < timelineTop + timelineHeight)
  {
    var x := FocusY(viewportHeight) - timelineTop;
    var q := x / timelineHeight;
    assert RelativePosition(viewportHeight, timelineTop, timelineHeight) == q * 100.0;
    QuotientVersus(x, timelineHeight, 0.0);
    QuotientVersus(x, timelineHeight, 1.0);
  }

  /** The five `--glow-*` custom properties, in percent along the timeline. */
  datatype GradientStops = GradientStops(start: real, center: real, peak: real, end: real, fade: real)

  predicate Bounded(g: GradientStops)
  {
    && 0.0 <= g.start <= 100.0 && 0.0 <= g.center <= 100.0 && 0.0 <= g.peak <= 100.0
    && 0.0 <= g.end <= 100.0 && 0.0 <= g.fade <= 100.0
  }

  predicate Ordered(g: GradientStops)
  {
    g.start <= g.center <= g.peak <= g.end <= g.fade
  }

  /** The stops around a peak at position `p`: two bands below it, two above, each lower
      stop floored at 0% and each upper stop capped at 100%, with no re-sorting. */
  function Stops(p: real): (g: GradientStops)
    ensures g.peak == p
    ensures 0.0 <= p <= 100.0 ==> Bounded(g) && Ordered(g)
    ensures g.start == (if p >= 2.0 * GlowSize then p - 2.0 * GlowSize else 0.0)
    ensures g.center == (if p >= GlowSize then p - GlowSize else 0.0)
    ensures g.end == (if p <= 100.0 - GlowSize then p + GlowSize else 100.0)
    ensures g.fade == (if p <= 100.0 - 2.0 * GlowSize then p + 2.0 * GlowSize else 100.0)
  {
    GradientStops(Max(0.0, p - GlowSize * 2.0), Max(0.0, p - GlowSize), p,
                  Min(100.0, p + GlowSize), Min(100.0, p + GlowSize * 2.0))
  }

  /** The stops written for a given viewport and timeline: always within the timeline and
      in order, because the peak is clamped before the bands are laid around it. */
  function TimelineStops(viewportHeight: real, timelineTop: real, timelineHeight: real): (g: GradientStops)
    requires timelineHeight > 0.0
    ensures Bounded(g) && Ordered(g)
    ensures g.peak == ClampedPosition(viewportHeight, timelineTop, timelineHeight)
  {
    Stops(ClampedPosition(viewportHeight, timelineTop, timelineHeight))
  }

  /** Distance, in pixels, from a marker's diamond to the focus line. */
  function MarkerDistance(itemTop: real, viewportHeight: real): (d: real)
    ensures d >= 0.0
    ensures d == 0.0 <==> itemTop + MarkerOffset == FocusY(viewportHeight)
  {
    Abs(itemTop + MarkerOffset - FocusY(viewportHeight))
  }

  /** Distance at which a marker stops being lit. */
  function MaxDistance(viewportHeight: real): real
  {
    viewportHeight * ReachFraction
  }

  /** How strongly a marker is lit: 1 on the focus line, falling linearly to 0 at the
      reach distance and staying 0 beyond it. */
  function Intensity(itemTop: real, viewportHeight: real): (i: real)
    requires viewportHeight > 0.0
    ensures 0.0 <= i <= 1.0
    ensures i == 1.0 <==> itemTop + MarkerOffset == FocusY(viewportHeight)
    ensures i == 0.0 <==> MarkerDistance(itemTop, viewportHeight) >= MaxDistance(viewportHeight)
  {
    var d := MarkerDistance(itemTop, viewportHeight);
    var m := MaxDistance(viewportHeight);
    QuotientVersus(d, m, 0.0);
    QuotientVersus(d, m, 1.0);
    Max(0.0, 1.0 - d / m)
  }

  /** Intensity crosses a threshold `t` in [0, 1) exactly when the marker comes closer to
      the focus line than the matching fraction `(1 - t)` of the reach distance. */
  lemma IntensityAbove(itemTop: real, viewportHeight: real, t: real)
    requires viewportHeight > 0.0 && 0.0 <= t < 1.0
    ensures Intensity(itemTop, viewportHeight) > t
            <==> MarkerDistance(itemTop, viewportHeight) < (1.0 - t) * MaxDistance(viewportHeight)
  {
    var d := MarkerDistance(itemTop, viewportHeight);
    var m := MaxDistance(viewportHeight);
    QuotientVersus(d, m, 1.0 - t);
  }

  /** A marker nearer the focus line is lit at least as strongly as one farther away. */
  lemma IntensityAntitone(top1: real, top2: real, viewportHeight: real)
    requires viewportHeight > 0.0
    requires MarkerDistance(top1, viewportHeight) <= MarkerDistance(top2, viewportHeight)
    ensures Intensity(top1, viewportHeight) >= Intensity(top2, viewportHeight)
  {
    var d1 := MarkerDistance(top1, viewportHeight);
    var d2 := MarkerDistance(top2, viewportHeight);
    var m := MaxDistance(viewportHeight);
    assert d2 / m * m == d2;
    QuotientVersus(d1, m, d2 / m);
  }

  /** A marker's opacity: from 0.25 when unlit up to 1 when on the focus line. */
  function Opacity(intensity: real): (o: real)
    requires 0.0 <= intensity <= 1.0
    ensures MinOpacity <= o <= 1.0
    ensures o == MinOpacity <==> intensity == 0.0
    ensures o == 1.0 <==> intensity == 1.0
  {
    MinOpacity + (1.0 - MinOpacity) * intensity
  }

  /** A marker nearer the focus line is at least as opaque as one farther away, and a
      marker strictly nearer, within reach, is strictly more opaque. */
  lemma OpacityAntitone(top1: real, top2: real, viewportHeight: real)
    requires viewportHeight > 0.0
    requires MarkerDistance(top1, viewportHeight) <= MarkerDistance(top2, viewportHeight)
    ensures Opacity(Intensity(top1, viewportHeight)) >= Opacity(Intensity(top2, viewportHeight))
    ensures MarkerDistance(top1, viewportHeight) < MarkerDistance(top2, viewportHeight)
              && MarkerDistance(top1, viewportHeight) < MaxDistance(viewportHeight)
            ==> Opacity(Intensity(top1, viewportHeight)) > Opacity(Intensity(top2, viewportHeight))
  {
    IntensityAntitone(top1, top2, viewportHeight);
    var d1 := MarkerDistance(top1, viewportHeight);
    var d2 := MarkerDistance(top2, viewportHeight);
    var m := MaxDistance(viewportHeight);
    if d1 < d2 && d1 < m {
      assert d2 / m * m == d2;
      QuotientVersus(d1, m, d2 / m);
      QuotientVersus(d1, m, 1.0);
    }
  }

  /** The `box-shadow` of a marker: none, or a blur radius in pixels and an alpha. */
  datatype Shadow = NoShadow | Glow(blur: real, alpha: real)

  /** What the engine writes on one marker: its opacity, its `active` class and its shadow. */
  datatype MarkerLook = MarkerLook(opacity: real, active: bool, shadow: Shadow)

  function Look(itemTop: real, viewportHeight: real): (look: MarkerLook)
    requires viewportHeight > 0.0
    ensures MinOpacity <= look.opacity <= 1.0
    ensures look.shadow.Glow? ==> 4.5 < look.shadow.blur <= 15.0 && 0.18 < look.shadow.alpha <= 0.6
    ensures look.shadow.Glow? ==> look.shadow.blur * 0.04 == look.shadow.alpha
    ensures look.active ==> look.shadow.Glow?
    ensures look.opacity == Opacity(Intensity(itemTop, viewportHeight))
    ensures look.active <==> Intensity(itemTop, viewportHeight) > 0.5
    ensures look.shadow.Glow? <==> Intensity(itemTop, viewportHeight) > 0.3
    ensures look.shadow.Glow? ==> look.shadow.blur == GlowBlur * Intensity(itemTop, viewportHeight)
                                  && look.shadow.alpha == GlowAlpha * Intensity(itemTop, viewportHeight)
  {
    var intensity := Intensity(itemTop, viewportHeight);
    MarkerLook(Opacity(intensity),
               intensity > 0.5,
               if intensity > 0.3 then Glow(intensity * GlowBlur, intensity * GlowAlpha) else NoShadow)
  }

  /** A marker nearer the focus line glows whenever a farther one does, with a blur and
      an alpha at least as large, and is active whenever the farther one is. */
  lemma GlowAntitone(top1: real, top2: real, viewportHeight: real)
    requires viewportHeight > 0.0
    requires MarkerDistance(top1, viewportHeight) <= MarkerDistance(top2, viewportHeight)
    ensures var near := Look(top1, viewportHeight);
            var far := Look(top2, viewportHeight);
            && (far.active ==> near.active)
            && (far.shadow.Glow? ==> near.shadow.Glow?
                                     && near.shadow.blur >= far.shadow.blur
                                     && near.shadow.alpha >= far.shadow.alpha)
  {
    IntensityAntitone(top1, top2, viewportHeight);
  }

  /** The look of a marker in terms of where it is: active while within 15% of the
      viewport height of the focus line, glowing while within 21%, fully lit with the
      strongest glow on the line itself, and dim, inactive and unlit out of reach. */
  lemma LookGeometry(itemTop: real, viewportHeight: real)
    requires viewportHeight > 0.0
    ensures var look := Look(itemTop, viewportHeight);
            var d := MarkerDistance(itemTop, viewportHeight);
            && (look.active <==> d < 0.15 * viewportHeight)
            && (look.shadow.Glow? <==> d < 0.21 * viewportHeight)
            && (itemTop + MarkerOffset == FocusY(viewportHeight) ==>
                  look == MarkerLook(1.0, true, Glow(15.0, 0.6)))
            && (d >= MaxDistance(viewportHeight) ==> look == MarkerLook(MinOpacity, false, NoShadow))
  {
    IntensityAbove(itemTop, viewportHeight, 0.5);
    IntensityAbove(itemTop, viewportHeight, 0.3);
  }

  /** A 2000px timeline whose top is 200px above a 1000px viewport: the focus line
      is 30% of the way down it, and the bands lie at 0, 15, 30, 45 and 60%. */
  lemma ExampleStops()
    ensures ClampedPosition(1000.0, -200.0, 2000.0) == 30.0
    ensures TimelineStops(1000.0, -200.0, 2000.0) == GradientStops(0.0, 15.0, 30.0, 45.0, 60.0)
  {
  }

  /** An item whose top is 390px down a 1000px viewport puts its marker on the focus
      line: fully opaque, active, with the strongest glow. */
  lemma ExampleMarkerOnFocus()
    ensures Intensity(390.0, 1000.0) == 1.0
    ensures Look(390.0, 1000.0) == MarkerLook(1.0, true, Glow(15.0, 0.6))
  {
  }
}
