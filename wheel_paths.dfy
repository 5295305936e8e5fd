/**
 * `makeWheel` (one slice per segment of an equal-weight pie), which the
 * component file and the utilities file both define with the same body.
 *
 * The d3-shape pie over `numberOfSegments` ones is modelled as `EqualPie`;
 * the d3-shape arc generator's path text and centroid, the randomcolor
 * palette and the `Math.random` draws are inputs.
 */
module WheelPaths {
  import opened JsNumbers

  type Color = string
  type Point = (real, real)

  /**
   * One arc of a d3-shape pie: the slot it takes (`index`), its weight, and
   * where it starts and ends. Angles are in degrees clockwise from twelve
   * o'clock (d3-shape uses radians; the factor is 2π/360).
   */
  datatype PieArc = PieArc(index: nat, value: real, startAngle: real, endAngle: real, padAngle: real)

  /** The settings of a d3-shape arc generator; the pad angle is in radians, as d3-shape takes it. */
  datatype ArcSettings = ArcSettings(padAngle: real, outerRadius: real, innerRadius: real)

  /**
   * The arc generator's two outputs for given settings and arc, left
   * uninterpreted, and the screen width the outer radius comes from.
   */
  datatype ArcGenerator = ArcGenerator(
    screenWidth: real,
    path: (ArcSettings, PieArc) -> string,
    centroid: (ArcSettings, PieArc) -> Point)

  /** The randomness one call of `makeWheel` consumes: the palette and one `Math.random()` per slice. */
  datatype Draws = Draws(colors: seq<Color>, randoms: seq<real>)

  /** One wedge of the wheel (`WheelPath`). */
  datatype Slice = Slice(path: string, color: Color, value: int, centroid: Point)

  /** randomcolor with `count: n` yields `n` colours, and `Math.random()` lies in [0, 1). */
  predicate DrawsFor(draws: Draws, n: nat)
  {
    |draws.colors| == n && |draws.randoms| == n &&
    forall i :: 0 <= i < n ==> 0.0 <= draws.randoms[i] < 1.0
  }

  /** The arc generator every slice is drawn with: pad 0.01, outer radius half the screen, inner radius 20. */
  function WheelArcSettings(screenWidth: real): ArcSettings
  {
    ArcSettings(0.01, screenWidth / 2.0, 20.0)
  }

  /** A prize the wheel can show: a multiple of 200 from 200 to 2200. */
  predicate IsPrize(v: int)
  {
    200 <= v <= 2200 && v % 200 == 0
  }

  /** `Math.round(r * 10 + 1) * 200` for a draw `r` in [0, 1). */
  function PrizeValue(r: real): (v: int)
    requires 0.0 <= r < 1.0
    ensures IsPrize(v)
  {
    Round(r * 10.0 + 1.0) * 200
  }

  /** Every prize is drawn by some `r` in [0, 1). */
  lemma PrizeValueOnto(v: int)
    requires IsPrize(v)
    ensures exists r: real :: 0.0 <= r < 1.0 && PrizeValue(r) == v
  {
    var j := v / 200;
    var r := if j <= 10 then (j - 1) as real / 10.0 else 0.95;
    assert j <= 10 ==> r * 10.0 + 1.0 == j as real;
    assert PrizeValue(r) == v;
  }

  /**
   * `d3Shape.pie()` over `n` equal weights: with every weight 1 the default
   * descending sort keeps input order, so arc i takes slot i and spans
   * 360/n degrees from i * 360/n, with no padding between arcs.
   */
  function EqualPie(n: nat): (arcs: seq<PieArc>)
    ensures |arcs| == n
    ensures forall i :: 0 <= i < n ==> arcs[i].index == i && arcs[i].value == 1.0 && arcs[i].padAngle == 0.0
    ensures forall i :: 0 <= i < n ==> arcs[i].endAngle - arcs[i].startAngle == OneTurn / n as real
    ensures n > 0 ==> arcs[0].startAngle == 0.0 && arcs[n - 1].endAngle == OneTurn
    ensures forall i :: 0 <= i < n - 1 ==> arcs[i].endAngle == arcs[i + 1].startAngle
  {
    if n == 0 then []
    else
      var step := OneTurn / n as real;
      assert n as real * step == OneTurn;
      seq(n, i requires 0 <= i < n => PieArc(i, 1.0, i as real * step, (i + 1) as real * step, 0.0))
  }

  /** The angular widths of `arcs`, summed. */
  function TotalWidth(arcs: seq<PieArc>): real
  {
    if arcs == [] then 0.0 else TotalWidth(arcs[..|arcs| - 1]) + (arcs[|arcs| - 1].endAngle - arcs[|arcs| - 1].startAngle)
  }

  /** Contiguous arcs cover exactly the span from the first start to the last end. */
  lemma {:induction false} TotalWidthOfContiguous(arcs: seq<PieArc>)
    requires |arcs| > 0
    requires forall i :: 0 <= i < |arcs| - 1 ==> arcs[i].endAngle == arcs[i + 1].startAngle
    ensures TotalWidth(arcs) == arcs[|arcs| - 1].endAngle - arcs[0].startAngle
  {
    if |arcs| > 1 {
      var front := arcs[..|arcs| - 1];
      assert forall i :: 0 <= i < |front| - 1 ==> front[i].endAngle == front[i + 1].startAngle;
      TotalWidthOfContiguous(front);
    }
  }

  /** The arcs of a non-empty equal pie cover the full turn. */
  lemma EqualPieCoversTurn(n: nat)
    requires n > 0
    ensures TotalWidth(EqualPie(n)) == OneTurn
  {
    TotalWidthOfContiguous(EqualPie(n));
  }

  /**
   * `makeWheel(numberOfSegments)`: one slice per pie arc, in order; slice i
   * takes colour i of the palette, a prize from draw i, and its path and
   * centroid from arc i under the shared arc settings.
   */
  function MakeWheel(n: nat, arcs: ArcGenerator, draws: Draws): (wheel: seq<Slice>)
    requires DrawsFor(draws, n)
    ensures |wheel| == n
    ensures forall i :: 0 <= i < n ==>
      wheel[i].color == draws.colors[i] && IsPrize(wheel[i].value) &&
      wheel[i].value == PrizeValue(draws.randoms[i])
    ensures forall i :: 0 <= i < n ==>
      wheel[i].path == arcs.path(WheelArcSettings(arcs.screenWidth), EqualPie(n)[i]) &&
      wheel[i].centroid == arcs.centroid(WheelArcSettings(arcs.screenWidth), EqualPie(n)[i])
  {
    var pie := EqualPie(n);
    var settings := WheelArcSettings(arcs.screenWidth);
    var wheel := seq(n, i requires 0 <= i < n =>
      Slice(arcs.path(settings, pie[i]), draws.colors[i], PrizeValue(draws.randoms[i]), arcs.centroid(settings, pie[i])));
    assert forall i :: 0 <= i < n ==> wheel[i].value == PrizeValue(draws.randoms[i]);
    wheel
  }

  /**
   * Two wheels of the same size share their geometry, whatever palette and
   * draws each consumed: only colours and prizes are random.
   */
  lemma MakeWheelGeometryIsFixed(n: nat, arcs: ArcGenerator, d1: Draws, d2: Draws)
    requires DrawsFor(d1, n) && DrawsFor(d2, n)
    ensures forall i :: 0 <= i < n ==>
      MakeWheel(n, arcs, d1)[i].path == MakeWheel(n, arcs, d2)[i].path &&
      MakeWheel(n, arcs, d1)[i].centroid == MakeWheel(n, arcs, d2)[i].centroid
  {
  }

  /**
   * The draws matter only through the colours and the prizes they give: two
   * different random sequences that round to the same prizes make the same
   * wheel.
   */
  lemma MakeWheelDependsOnlyOnInputs(n: nat, arcs: ArcGenerator, d1: Draws, d2: Draws)
    requires DrawsFor(d1, n) && DrawsFor(d2, n)
    requires d1.colors == d2.colors
    requires forall i :: 0 <= i < n ==> PrizeValue(d1.randoms[i]) == PrizeValue(d2.randoms[i])
    ensures MakeWheel(n, arcs, d1) == MakeWheel(n, arcs, d2)
  {
  }
}
