/**
 * Where the wheel settles and which slice it lands on: popcorn's `snap` to
 * the slice grid, and `getWinnerIndex`, both as written and corrected.
 */
module Winner {
  import opened Wrappers
  import opened JsNumbers
  import opened WheelPaths

  /** `oneTurn / segments`: the angle one slice spans. */
  function Step(segments: int): (s: real)
    requires segments >= 1
    ensures 0.0 < s <= OneTurn
    ensures s * segments as real == OneTurn
  {
    OneTurn / segments as real
  }

  /** Multiplying by a positive factor keeps the order. */
  lemma MulMono(a: real, b: real, c: real)
    requires c > 0.0
    ensures a < b <==> a * c < b * c
    ensures a <= b <==> a * c <= b * c
  {
    assert b * c - a * c == (b - a) * c;
    if a < b { assert (b - a) * c > 0.0; }
    if b < a { assert (a - b) * c > 0.0; }
  }

  /** Dividing by a step is multiplying by the slice count over a turn. */
  lemma DivByStep(d: real, segments: int)
    requires segments >= 1
    ensures d / Step(segments) == d * segments as real / 360.0
  {
    var s := Step(segments);
    var q := d / s;
    assert q * s == d;
    assert q * s * segments as real == d * segments as real;
    assert q * (s * segments as real) == d * segments as real;
  }

  /** `snap(step)(v)` of popcorn for a number: `Math.round(v / step) * step`. */
  function Snap(v: real, step: real): (r: real)
    requires step > 0.0
    ensures -step / 2.0 < r - v <= step / 2.0
  {
    var x := v / step;
    var k := Round(x);
    RoundedWithinHalf(v, step, x, k as real);
    k as real * step
  }

  /** Over reals: `kr` within half of `v / step` puts `kr` steps within half a step of `v`. */
  lemma RoundedWithinHalf(v: real, step: real, x: real, kr: real)
    requires step > 0.0 && x == v / step && x - 0.5 < kr <= x + 0.5
    ensures -step / 2.0 < kr * step - v <= step / 2.0
  {
    assert v == x * step;
    var e := kr - x;
    assert kr * step - v == e * step;
    MulMono(-0.5, e, step);
    MulMono(e, 0.5, step);
    assert -0.5 * step < e * step <= 0.5 * step;
  }

  /** The snapped value is the multiple of the step nearest to `v`. */
  lemma SnapIsNearestMultiple(v: real, step: real, j: int)
    requires step > 0.0
    ensures Abs(Snap(v, step) - v) <= Abs(j as real * step - v)
  {
    var k := Round(v / step);
    assert Snap(v, step) == k as real * step;
    WithinHalfStepIsNearest(v, step, Snap(v, step), k, j);
  }

  /**
   * A multiple of the step within half a step of `v` is at least as near to
   * `v` as any other multiple: those lie a whole step or more away from it.
   */
  lemma WithinHalfStepIsNearest(v: real, step: real, t: real, k: int, j: int)
    requires step > 0.0 && t == k as real * step
    requires -step / 2.0 < t - v <= step / 2.0
    ensures Abs(t - v) <= Abs(j as real * step - v)
  {
    var d := j - k;
    assert j as real - k as real == d as real;
    assert d == 0 || d >= 1 || d <= -1;
    NearestOverReals(v, step, t, k as real, j as real);
  }

  /** The same over reals: `jr` differs from `kr` by zero or by at least one. */
  lemma NearestOverReals(v: real, step: real, t: real, kr: real, jr: real)
    requires step > 0.0 && t == kr * step
    requires -step / 2.0 < t - v <= step / 2.0
    requires jr == kr || jr - kr >= 1.0 || jr - kr <= -1.0
    ensures Abs(t - v) <= Abs(jr * step - v)
  {
    if jr != kr {
      StepGap(jr, kr, step, t);
      NearerThanAFullStep(v, step, t, jr * step);
    }
  }

  /** A whole number of steps away from `t` is at least a full step away. */
  lemma StepGap(jr: real, kr: real, step: real, t: real)
    requires step > 0.0 && t == kr * step
    requires jr - kr >= 1.0 || jr - kr <= -1.0
    ensures jr * step >= t + step || jr * step <= t - step
  {
    if jr - kr >= 1.0 {
      MulMono(kr + 1.0, jr, step);
      assert (kr + 1.0) * step == kr * step + step;
    } else {
      MulMono(jr, kr - 1.0, step);
      assert (kr - 1.0) * step == kr * step - step;
    }
  }

  /** Within half a step of `v`, `t` is no farther from `v` than any point a full step from `t`. */
  lemma NearerThanAFullStep(v: real, step: real, t: real, u: real)
    requires step > 0.0
    requires -step / 2.0 < t - v <= step / 2.0
    requires u >= t + step || u <= t - step
    ensures Abs(t - v) <= Abs(u - v)
  {
  }

  /** A multiple of the step snaps to itself. */
  lemma SnapOfMultiple(k: int, step: real)
    requires step > 0.0
    ensures Snap(k as real * step, step) == k as real * step
  {
    assert k as real * step / step == k as real;
    RoundWhole(k);
  }

  /**
   * The slot, counted in slice steps, that an angle `v` inside one turn snaps
   * to on a wheel of `segments` slices: never more than one turn either way.
   */
  function Slot(v: real, segments: int): (k: int)
    requires segments >= 1 && -OneTurn < v < OneTurn
    ensures -segments <= k <= segments
    ensures Snap(v, Step(segments)) == k as real * Step(segments)
  {
    QuotientWithinSlots(v, segments);
    Round(v / Step(segments))
  }

  /** An angle inside one turn is fewer than `segments` steps either way. */
  lemma QuotientWithinSlots(v: real, segments: int)
    requires segments >= 1 && -OneTurn < v < OneTurn
    ensures -segments as real < v / Step(segments) < segments as real
  {
    QuotientWithin(v, segments as real, Step(segments));
  }

  /** The same over reals: `n` steps of `s` make a turn. */
  lemma QuotientWithin(v: real, n: real, s: real)
    requires n > 0.0 && s > 0.0 && s * n == OneTurn && -OneTurn < v < OneTurn
    ensures -n < v / s < n
  {
    var x := v / s;
    assert x * s == v;
    MulMono(x, n, s);
    MulMono(-n, x, s);
    assert n * s == OneTurn;
    assert (-n) * s == -OneTurn;
  }

  /** A slot within one turn either way has an angle within one turn either way. */
  lemma SlotWithinTurn(k: int, segments: int)
    requires segments >= 1 && -segments <= k <= segments
    ensures -OneTurn <= k as real * Step(segments) <= OneTurn
  {
    ScaledWithinTurn(k as real, segments as real, Step(segments));
  }

  /** Over reals: fewer than (at most) `n` steps of `s` lie inside (within) one turn. */
  lemma ScaledWithinTurn(k: real, n: real, s: real)
    requires n > 0.0 && s > 0.0 && s * n == OneTurn
    ensures -n <= k <= n ==> -OneTurn <= k * s <= OneTurn
    ensures -n < k < n ==> -OneTurn < k * s < OneTurn
  {
    MulMono(k, n, s);
    MulMono(-n, k, s);
    assert (-n) * s == -OneTurn;
  }

  /** The snap of an angle inside one turn stays within one turn either way. */
  lemma SnapWithinTurn(v: real, segments: int)
    requires segments >= 1 && -OneTurn < v < OneTurn
    ensures -OneTurn <= Snap(v, Step(segments)) <= OneTurn
  {
    var k := Slot(v, segments);
    SlotWithinTurn(k, segments);
  }

  /**
   * `getWinnerIndex` as written: `deg = |round(angle % 360)|`, then
   * `floor(deg / step)` for a negative angle and
   * `(segments - floor(deg / step)) % segments` otherwise.
   */
  function WinnerIndex(angle: real, segments: int): (index: int)
    requires segments >= 1
    ensures 0.0 <= angle ==> 0 <= index < segments
    ensures angle < 0.0 ==> 0 <= index <= segments
  {
    var deg := AbsInt(Round(ModTurn(angle)));
    var q := Floor(deg as real / Step(segments));
    QuotientBound(deg, segments);
    if angle < 0.0 then q else TruncRem(segments - q, segments)
  }

  /** `deg / step` lies in [0, segments], and reaches `segments` only at a full turn. */
  lemma QuotientBound(deg: int, segments: int)
    requires segments >= 1 && 0 <= deg <= 360
    ensures 0 <= Floor(deg as real / Step(segments)) <= segments
    ensures Floor(deg as real / Step(segments)) == segments <==> deg == 360
  {
    DivByStep(deg as real, segments);
    DegreesInSteps(deg as real, segments as real);
  }

  /** Over reals: `d` degrees in [0, 360] are between 0 and `n` steps, and `n` only at 360. */
  lemma DegreesInSteps(d: real, n: real)
    requires n > 0.0 && 0.0 <= d <= 360.0
    ensures 0.0 <= d * n / 360.0 <= n
    ensures d * n / 360.0 == n <==> d == 360.0
  {
    MulMono(0.0, d, n);
    MulMono(d, 360.0, n);
  }

  /**
   * On a negative angle the as-written index runs one past the last slice
   * exactly when the remainder rounds to a full turn: below -359.5.
   */
  lemma WinnerIndexOverflow(angle: real, segments: int)
    requires segments >= 1 && angle < 0.0
    ensures WinnerIndex(angle, segments) == segments <==> ModTurn(angle) < -359.5
  {
    var deg := AbsInt(Round(ModTurn(angle)));
    QuotientBound(deg, segments);
  }

  /** A raw angle of -359.6 gives index `segments`, one past the last slice. */
  lemma RawAngleOverflows(segments: int)
    requires segments >= 1
    ensures WinnerIndex(-359.6, segments) == segments
  {
    ModTurnInside(-359.6);
    WinnerIndexOverflow(-359.6, segments);
  }

  /** The remainder of slot `k`'s angle, for the slots the snap reaches. */
  lemma ModTurnOfSlot(k: int, segments: int)
    requires segments >= 1 && -segments <= k <= segments
    ensures -segments < k < segments ==> ModTurn(k as real * Step(segments)) == k as real * Step(segments)
    ensures k == segments || k == -segments ==> ModTurn(k as real * Step(segments)) == 0.0
  {
    if k == segments || k == -segments {
      FullSlotIsWholeTurn(k, segments);
    } else {
      InnerSlotInsideTurn(k, segments);
      ModTurnInside(k as real * Step(segments));
    }
  }

  /** A full turn of slots either way leaves remainder 0. */
  lemma FullSlotIsWholeTurn(k: int, segments: int)
    requires segments >= 1 && (k == segments || k == -segments)
    ensures ModTurn(k as real * Step(segments)) == 0.0
  {
    var turns := if k == segments then 1 else -1;
    assert k as real * Step(segments) == turns as real * OneTurn;
    ModTurnWholeTurns(turns);
  }

  /** A slot short of a full turn either way lies strictly inside one turn. */
  lemma InnerSlotInsideTurn(k: int, segments: int)
    requires segments >= 1 && -segments < k < segments
    ensures -OneTurn < k as real * Step(segments) < OneTurn
  {
    ScaledWithinTurn(k as real, segments as real, Step(segments));
  }

  /**
   * After the snap the as-written index is always in range: a snapped
   * negative angle never rounds to a full turn while a step exceeds half a
   * degree (fewer than 720 slices; the text field admits at most 20).
   */
  lemma SnappedWinnerIndexInRange(v: real, segments: int)
    requires 1 <= segments < 720 && -OneTurn < v < OneTurn
    ensures 0 <= WinnerIndex(Snap(v, Step(segments)), segments) < segments
  {
    var k := Slot(v, segments);
    var a := k as real * Step(segments);
    assert Snap(v, Step(segments)) == a;
    if a < 0.0 {
      ModTurnOfSlot(k, segments);
      if k > -segments {
        NegativeSlotAboveOverflow(k, segments);
      }
      WinnerIndexOverflow(a, segments);
    }
  }

  /** A slot short of a full negative turn stays above -359.5 degrees when a step exceeds half a degree. */
  lemma NegativeSlotAboveOverflow(k: int, segments: int)
    requires 1 <= segments < 720 && -segments < k
    ensures k as real * Step(segments) > -359.5
  {
    HalfDegreeStep(segments as real, Step(segments));
    SumScale(k as real, segments as real, Step(segments));
    MarginAboveOverflow(k as real * Step(segments), Step(segments) * segments as real, Step(segments));
  }

  /** A step that makes a turn in fewer than 720 steps exceeds half a degree. */
  lemma HalfDegreeStep(n: real, s: real)
    requires 0.0 < n < 720.0 && s * n == OneTurn
    ensures s > 0.5
  {
    MulMono(s, 0.5, n);
    assert 0.5 * n < OneTurn;
  }

  /** Scaling `a + b >= 1` by a positive `c`. */
  lemma SumScale(a: real, b: real, c: real)
    requires c > 0.0 && a + b >= 1.0
    ensures a * c + c * b >= c
  {
    MulMono(1.0, a + b, c);
    assert (a + b) * c == a * c + c * b;
  }

  /** The linear core of the bound: `p` plus a full turn reaches past a step of more than half a degree. */
  lemma MarginAboveOverflow(p: real, q: real, s: real)
    requires s > 0.5 && q == OneTurn && p + q >= s
    ensures p > -359.5
  {
  }

  /**
   * The slice whose centre a rotation by `k` slots brings under the pointer
   * at twelve o'clock: slice i sits at i slots (the drawing is turned back
   * by half a slice), so it is the i with i + k a whole number of turns.
   */
  function SlotSlice(k: int, segments: int): (i: int)
    requires segments >= 1 && -segments <= k <= segments
    ensures 0 <= i < segments
    ensures i + k == 0 || i + k == segments || i + k == -segments
  {
    if k > 0 then segments - k else if k == -segments then 0 else -k
  }

  /** The slot within the first turn that lands on slice `i`: the inverse of `SlotSlice`. */
  function SliceSlot(i: int, segments: int): (k: int)
    requires segments >= 1 && 0 <= i < segments
    ensures 0 <= k < segments && SlotSlice(k, segments) == i
  {
    if i == 0 then 0 else segments - i
  }

  /** Distinct slots of one turn land on distinct slices. */
  lemma SlotSliceInjective(k1: int, k2: int, segments: int)
    requires segments >= 1 && 0 <= k1 < segments && 0 <= k2 < segments
    requires SlotSlice(k1, segments) == SlotSlice(k2, segments)
    ensures k1 == k2
  {
  }

  /**
   * `getWinnerIndex` corrected: round the remainder in slice steps rather
   * than in degrees, so each snapped slot names its own slice.
   */
  function CorrectedWinnerIndex(angle: real, segments: int): (index: int)
    requires segments >= 1
    ensures 0 <= index < segments
  {
    SlotSlice(Slot(ModTurn(angle), segments), segments)
  }

  /** The corrected index of snapped slot `k` is the slice under the pointer. */
  lemma CorrectedWinnerIndexOfSlot(k: int, segments: int)
    requires segments >= 1 && -segments <= k <= segments
    ensures CorrectedWinnerIndex(k as real * Step(segments), segments) == SlotSlice(k, segments)
  {
    SlotOfSlot(k, segments);
  }

  /** Snapped slot `k` reads back as slot `k`, or as slot 0 at a full turn. */
  lemma SlotOfSlot(k: int, segments: int)
    requires segments >= 1 && -segments <= k <= segments
    ensures Slot(ModTurn(k as real * Step(segments)), segments) ==
      if -segments < k < segments then k else 0
  {
    ModTurnOfSlot(k, segments);
    if -segments < k < segments {
      InnerSlotInsideTurn(k, segments);
      ScaleBack(k as real, Step(segments));
      RoundWhole(k);
    } else {
      RoundWhole(0);
    }
  }

  /** Dividing by the factor undoes the scaling. */
  lemma ScaleBack(x: real, s: real)
    requires s > 0.0
    ensures x * s / s == x
  {
  }

  /** When `segments` divides a turn, a step is the whole number `360 / segments`. */
  lemma WholeStep(segments: int)
    requires segments >= 1 && 360 % segments == 0
    ensures Step(segments) == (360 / segments) as real
  {
    var w := 360 / segments;
    var s := Step(segments);
    var n := segments as real;
    assert w * segments == 360;
    assert w as real * n == OneTurn;
    MulMono(s, w as real, n);
    MulMono(w as real, s, n);
  }

  /** `j` whole steps of whole degrees divide back to `j`. */
  lemma WholeSlotsQuotient(j: int, segments: int)
    requires segments >= 1 && 360 % segments == 0
    ensures Floor((j * (360 / segments)) as real / Step(segments)) == j
  {
    var w := 360 / segments;
    WholeStep(segments);
    assert (j * w) as real == j as real * w as real;
    assert (j * w) as real / w as real == j as real;
  }

  /** The degrees `getWinnerIndex` reads off slot `k` when a step is whole: `|k|` steps, or none at a full turn. */
  lemma WholeSlotDegrees(k: int, segments: int)
    requires segments >= 1 && 360 % segments == 0 && -segments <= k <= segments
    ensures AbsInt(Round(ModTurn(k as real * Step(segments)))) ==
      (if -segments < k < segments then AbsInt(k) else 0) * (360 / segments)
  {
    var w := 360 / segments;
    ModTurnOfSlot(k, segments);
    var a := k as real * Step(segments);
    if -segments < k < segments {
      WholeStep(segments);
      CastProduct(k, w);
      assert a == (k * w) as real;
      RoundWhole(k * w);
      assert Round(ModTurn(a)) == k * w;
      AbsScale(k, w);
    } else {
      RoundWhole(0);
      assert Round(ModTurn(a)) == 0;
    }
  }

  /** Whole degrees times a whole step, counted in reals or in integers. */
  lemma CastProduct(a: int, b: int)
    ensures (a * b) as real == a as real * b as real
  {
  }

  /** `|k| * w` for a non-negative factor `w`. */
  lemma AbsScale(k: int, w: int)
    requires w >= 0
    ensures AbsInt(k * w) == AbsInt(k) * w
  {
    if k < 0 {
      assert k * w == -((-k) * w);
    }
  }

  /** The quotient `getWinnerIndex` computes for slot `k` when a step is whole: `|k|`, or 0 at a full turn. */
  lemma WholeSlotQuotient(k: int, segments: int)
    requires segments >= 1 && 360 % segments == 0 && -segments <= k <= segments
    ensures Floor(AbsInt(Round(ModTurn(k as real * Step(segments)))) as real / Step(segments)) ==
      if -segments < k < segments then AbsInt(k) else 0
  {
    var j := if -segments < k < segments then AbsInt(k) else 0;
    WholeSlotDegrees(k, segments);
    WholeSlotsQuotient(j, segments);
  }

  /** A slot's angle has the slot's sign. */
  lemma SlotSign(k: int, segments: int)
    requires segments >= 1
    ensures k < 0 <==> k as real * Step(segments) < 0.0
  {
    MulMono(0.0, k as real, Step(segments));
  }

  /** `getWinnerIndex` once the quotient `floor(deg / step)` is known. */
  lemma WinnerIndexOfQuotient(angle: real, segments: int, q: int)
    requires segments >= 1
    requires Floor(AbsInt(Round(ModTurn(angle))) as real / Step(segments)) == q
    ensures WinnerIndex(angle, segments) == if angle < 0.0 then q else TruncRem(segments - q, segments)
  {
  }

  /**
   * When a slice spans a whole number of degrees the as-written index
   * agrees with the corrected one on every snapped slot.
   */
  lemma WinnerIndexWhenStepIsWhole(k: int, segments: int)
    requires segments >= 1 && 360 % segments == 0 && -segments <= k <= segments
    ensures WinnerIndex(k as real * Step(segments), segments) == SlotSlice(k, segments)
  {
    WholeSlotQuotient(k, segments);
    SlotSign(k, segments);
    if k >= 0 {
      WholeNonNegativeSlot(k, segments);
    } else {
      WinnerIndexOfQuotient(k as real * Step(segments), segments, if k == -segments then 0 else -k);
    }
  }

  lemma WholeNonNegativeSlot(k: int, segments: int)
    requires segments >= 1 && 0 <= k <= segments
    requires Floor(AbsInt(Round(ModTurn(k as real * Step(segments)))) as real / Step(segments)) ==
      if k < segments then k else 0
    requires k as real * Step(segments) >= 0.0
    ensures WinnerIndex(k as real * Step(segments), segments) == SlotSlice(k, segments)
  {
    var j := if k < segments then k else 0;
    WinnerIndexOfQuotient(k as real * Step(segments), segments, j);
    TruncRemOfComplement(j, segments);
  }

  /**
   * With seven slices the snapped slots 0 and 1 both resolve to slice 0,
   * though slot 1 shows slice 6; turning the other way, slot -1 also
   * resolves to slice 0 though it shows slice 1.
   */
  lemma SevenSegmentsCollide()
    ensures WinnerIndex(0 as real * Step(7), 7) == 0
    ensures WinnerIndex(1 as real * Step(7), 7) == 0
    ensures SlotSlice(1, 7) == 6
    ensures WinnerIndex(-1 as real * Step(7), 7) == 0
    ensures SlotSlice(-1, 7) == 1
  {
    var s := Step(7);
    assert s == 360.0 / 7.0;
    ModTurnInside(0.0);
    ModTurnInside(s);
    ModTurnInside(-s);
    assert Round(s) == 51;
    assert Round(-s) == -51;
    assert 51.0 / s == 357.0 / 360.0;
    assert Floor(51.0 / s) == 0;
  }

  /**
   * Worked cases of `getWinnerIndex`: angle 0 on 12 slices is slice 0,
   * -45 on 12 slices is slice 1, and 200 on 4 slices is slice 2.
   */
  lemma WinnerIndexExamples()
    ensures WinnerIndex(0.0, 12) == 0
    ensures WinnerIndex(-45.0, 12) == 1
    ensures WinnerIndex(200.0, 4) == 2
  {
    ModTurnInside(0.0);
    ModTurnInside(-45.0);
    ModTurnInside(200.0);
    assert Step(12) == 30.0 && Step(4) == 90.0;
    assert Floor(45.0 / 30.0) == 1;
    assert Floor(200.0 / 90.0) == 2;
  }

  /**
   * A whole spin: wherever the decay stops, the snap lands on the grid
   * point nearest its remainder, and both resolutions of that point name a
   * slice of the wheel; the corrected one names the slice of the slot.
   */
  lemma SpinSettlesOnSlot(v: real, segments: int)
    requires 1 <= segments <= 20
    ensures Abs(Snap(ModTurn(v), Step(segments)) - ModTurn(v)) <= Step(segments) / 2.0
    ensures 0 <= WinnerIndex(Snap(ModTurn(v), Step(segments)), segments) < segments
    ensures CorrectedWinnerIndex(Snap(ModTurn(v), Step(segments)), segments)
         == SlotSlice(Slot(ModTurn(v), segments), segments)
  {
    var r := ModTurn(v);
    var k := Slot(r, segments);
    var t := Snap(r, Step(segments));
    assert t == k as real * Step(segments);
    assert Abs(t - r) <= Step(segments) / 2.0;
    SnappedWinnerIndexInRange(r, segments);
    CorrectedWinnerIndexOfSlot(k, segments);
    assert CorrectedWinnerIndex(t, segments) == SlotSlice(k, segments);
  }

  /** `wheelPathsRef.current[index]`: past either end JavaScript yields `undefined`. */
  function At(wheel: seq<Slice>, index: int): (r: Option<Slice>)
    ensures r.Some? <==> 0 <= index < |wheel|
    ensures r.Some? ==> r.value == wheel[index]
  {
    if 0 <= index < |wheel| then Some(wheel[index]) else None
  }

  /**
   * The completion callback as written: the index from the segment count the
   * gesture captured, looked up in whatever wheel is current when it fires.
   */
  function ResolveWinnerAsWritten(angle: real, capturedSegments: int, wheel: seq<Slice>): (r: Option<Slice>)
    requires capturedSegments >= 1
    ensures |wheel| == capturedSegments && 0.0 <= angle ==> r.Some? && r.value in wheel
  {
    At(wheel, WinnerIndex(angle, capturedSegments))
  }

  /**
   * A spin that starts on 12 slices and settles one slot clockwise picks
   * index 11; if the text field switched the wheel to 4 slices meanwhile,
   * there is no slice 11 and the winner is `undefined`.
   */
  lemma EditDuringSpinLosesWinner(wheel: seq<Slice>)
    requires |wheel| == 4
    ensures ResolveWinnerAsWritten(1.0 * Step(12), 12, wheel) == None
  {
    assert Step(12) == 30.0;
    WinnerIndexWhenStepIsWhole(1, 12);
  }

  /**
   * For every angle, the slice the corrected index names has its centre
   * within half a slice of the pointer, up to whole turns: slice `i` is
   * centred at `i` steps, and turning the wheel by `angle` moves that centre
   * to `i * step + angle`. The angle need not lie on the grid of the wheel
   * on screen, as after an edit during the spin.
   */
  lemma CorrectedWinnerIndexUnderPointer(angle: real, segments: int) returns (m: int)
    requires segments >= 1
    ensures -Step(segments) / 2.0 <= CorrectedWinnerIndex(angle, segments) as real * Step(segments) + angle - m as real * OneTurn < Step(segments) / 2.0
  {
    var turns := SlotPointerOfAngle(angle, segments);
    var t := Trunc(angle / OneTurn);
    ModTurnParts(angle);
    m := turns + t;
    TurnsAdd(turns, t);
    AddWholeTurns(CorrectedWinnerIndex(angle, segments) as real * Step(segments), angle, ModTurn(angle),
                  OneTurn * t as real, turns as real * OneTurn, m as real * OneTurn, Step(segments));
  }

  /** `SlotPointer` for the remainder of `angle`, in terms of the corrected index. */
  lemma SlotPointerOfAngle(angle: real, segments: int) returns (turns: int)
    requires segments >= 1
    ensures -Step(segments) / 2.0 <= CorrectedWinnerIndex(angle, segments) as real * Step(segments) + ModTurn(angle) - turns as real * OneTurn < Step(segments) / 2.0
  {
    turns := SlotPointer(ModTurn(angle), segments);
    SameSteps(CorrectedWinnerIndex(angle, segments), SlotSlice(Slot(ModTurn(angle), segments), segments), Step(segments));
  }

  /**
   * A remainder `r` within one turn brings the centre of the slice its slot
   * names within half a step of a whole number of turns.
   */
  lemma SlotPointer(r: real, segments: int) returns (turns: int)
    requires segments >= 1 && -OneTurn < r < OneTurn
    ensures -Step(segments) / 2.0 <= SlotSlice(Slot(r, segments), segments) as real * Step(segments) + r - turns as real * OneTurn < Step(segments) / 2.0
  {
    assert Snap(r, Step(segments)) == Slot(r, segments) as real * Step(segments);
    turns := SnappedSliceUnderPointer(r, segments, Step(segments), Slot(r, segments), SlotSlice(Slot(r, segments), segments));
  }

  /**
   * `r` snaps to slot `k` with an error under half a step `s`, and slice `i`
   * sits `-k` steps round, up to a turn: so the centre of slice `i`, turned
   * by `r`, is within half a step of a whole number of turns.
   */
  lemma SnappedSliceUnderPointer(r: real, segments: int, s: real, k: int, i: int) returns (turns: int)
    requires segments >= 1 && s * segments as real == OneTurn
    requires -s / 2.0 < k as real * s - r <= s / 2.0
    requires i + k == 0 || i + k == segments || i + k == -segments
    ensures -s / 2.0 <= i as real * s + r - turns as real * OneTurn < s / 2.0
  {
    turns := if i + k == 0 then 0 else if i + k == segments then 1 else -1;
    WholeTurnsOfSlots(i, k, segments, turns, s);
    PointerOffset(i as real * s, k as real * s, r, turns as real * OneTurn, s);
  }

  /** Equal slot counts span equal angles. */
  lemma SameSteps(x: int, y: int, s: real)
    requires x == y
    ensures x as real * s == y as real * s
  {
  }

  /** Slots `i` and `k` adding up to `turns` whole turns of slices span `turns` turns. */
  lemma WholeTurnsOfSlots(i: int, k: int, segments: int, turns: int, s: real)
    requires s * segments as real == OneTurn && i + k == turns * segments
    ensures i as real * s + k as real * s == turns as real * OneTurn
  {
    assert i as real * s + k as real * s == (i + k) as real * s;
    assert (turns * segments) as real == turns as real * segments as real;
    assert turns as real * segments as real * s == turns as real * (s * segments as real);
  }

  /**
   * The arithmetic of `SlotPointer` with every product named: the centre of
   * the slice differs from whole turns by the snap error of the remainder.
   */
  lemma PointerOffset(centre: real, slot: real, r: real, turns: real, s: real)
    requires centre + slot == turns
    requires -s / 2.0 < slot - r <= s / 2.0
    ensures -s / 2.0 <= centre + r - turns < s / 2.0
  {
  }

  /** Adding whole turns `whole` to the remainder `r` keeps the centre's offset from whole turns. */
  lemma AddWholeTurns(centre: real, angle: real, r: real, whole: real, turns: real, m: real, s: real)
    requires r == angle - whole && m == turns + whole
    requires -s / 2.0 <= centre + r - turns < s / 2.0
    ensures -s / 2.0 <= centre + angle - m < s / 2.0
  {
  }

  /** Whole turns add up. */
  lemma TurnsAdd(a: int, b: int)
    ensures (a + b) as real * OneTurn == a as real * OneTurn + OneTurn * b as real
  {
  }

  /**
   * The completion callback corrected: the slice under the pointer on the
   * wheel on screen, whatever grid the angle was snapped to (see
   * `CorrectedWinnerIndexUnderPointer`).
   */
  function ResolveWinner(angle: real, wheel: seq<Slice>): (r: Slice)
    requires |wheel| >= 1
    ensures r in wheel
  {
    wheel[CorrectedWinnerIndex(angle, |wheel|)]
  }

  /**
   * With no edit during the spin and whole-degree slices, the corrected
   * resolution picks the slice the as-written one picks.
   */
  lemma ResolveWinnerAgreesWhenUnedited(k: int, segments: int, wheel: seq<Slice>)
    requires |wheel| == segments >= 1 && 360 % segments == 0 && -segments <= k <= segments
    ensures ResolveWinnerAsWritten(k as real * Step(segments), segments, wheel)
         == Some(ResolveWinner(k as real * Step(segments), wheel))
  {
    WinnerIndexWhenStepIsWhole(k, segments);
    CorrectedWinnerIndexOfSlot(k, segments);
    SameIndexSameWinner(k as real * Step(segments), wheel);
  }

  /** Both resolutions pick the same slice whenever both compute the same index. */
  lemma SameIndexSameWinner(angle: real, wheel: seq<Slice>)
    requires |wheel| >= 1
    requires WinnerIndex(angle, |wheel|) == CorrectedWinnerIndex(angle, |wheel|)
    ensures ResolveWinnerAsWritten(angle, |wheel|, wheel) == Some(ResolveWinner(angle, wheel))
  {
  }
}
