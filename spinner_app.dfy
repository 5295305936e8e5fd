/**
 * The wheel screen component (`App`): its state hooks become fields of a
 * class, and each handler, effect and animation callback becomes a method
 * that updates them.
 */
module Spinner {
  import opened Wrappers
  import opened JsNumbers
  import opened JsParseInt
  import opened WheelPaths
  import opened Winner

  /** The largest segment count the text field accepts. */
  const MaxSegments: int := 20

  /** The segment count the screen opens with. */
  const InitialSegments: int := 12

  /** The states a pan gesture handler reports; only `End` starts a spin. */
  datatype GestureState = Undetermined | Failed | Began | Cancelled | Active | End

  /**
   * The animation in flight on the angle, with the segment count its
   * callbacks captured when the gesture ended: none, the decay, or the snap
   * towards `toValue`.
   */
  datatype Animation = Idle | Decaying(segments: int) | Snapping(segments: int, toValue: real)

  /**
   * The segment count a text edit selects: `parseInt(text, 10)` when it is a
   * number from 1 to 20, nothing otherwise.
   */
  function AcceptedSegments(text: string): (r: Option<int>)
    ensures r.Some? ==> 1 <= r.value <= MaxSegments && ParseInt(text) == Some(r.value)
    ensures r.None? ==> ParseInt(text).None? || ParseInt(text).value < 1 || ParseInt(text).value > MaxSegments
  {
    match ParseInt(text)
    case Some(n) => if 0 < n <= MaxSegments then Some(n) else None
    case None => None
  }

  /** A typed count is taken exactly when it lies in 1..20, whatever non-digit text follows it. */
  lemma AcceptedSegmentsOfDecimal(n: nat, rest: string)
    requires rest == [] || !IsDigit(rest[0])
    ensures AcceptedSegments(Decimal(n) + rest) == if 1 <= n <= MaxSegments then Some(n) else None
  {
    ParseIntOfDecimal(n, rest);
  }

  /** Text without a digit never changes the segment count. */
  lemma AcceptedSegmentsWithoutDigits(text: string)
    requires forall i :: 0 <= i < |text| ==> !IsDigit(text[i])
    ensures AcceptedSegments(text) == None
  {
    ParseIntWithoutDigits(text);
  }

  /** A negative count is refused. */
  lemma AcceptedSegmentsRefusesNegative(n: nat, rest: string)
    requires rest == [] || !IsDigit(rest[0])
    ensures AcceptedSegments("-" + Decimal(n) + rest) == None
  {
    ParseIntOfNegativeDecimal(n, rest);
  }

  class SpinnerApp {
    /** The pan handler is enabled; false while the wheel turns. */
    var enabled: bool
    /** A spin has completed since the wheel last moved. */
    var finished: bool
    var winner: Option<Slice>
    var segments: int
    var angleBySegment: real
    var angleOffset: real
    /** The text shown in the segment-count field. */
    var inputValue: string
    /** `wheelPathsRef.current`. */
    var wheelPaths: seq<Slice>
    /** `_angle._value`, in degrees. */
    var angle: real
    var animation: Animation
    /** The d3-shape arc generator and screen width every wheel is drawn with. */
    const arcs: ArcGenerator

    ghost predicate Valid()
      reads this
    {
      && 1 <= segments <= MaxSegments
      && angleBySegment == Step(segments)
      && angleOffset == angleBySegment / 2.0
      && |wheelPaths| == segments
      && (forall i :: 0 <= i < |wheelPaths| ==> IsPrize(wheelPaths[i].value))
      && (finished ==> enabled && winner.Some?)
      && (winner.Some? ==> IsPrize(winner.value.value))
      && (animation.Idle? ==> enabled)
      && (!animation.Idle? ==> 1 <= animation.segments <= MaxSegments)
      && (animation.Snapping? ==> !enabled && -OneTurn <= animation.toValue <= OneTurn)
    }

    /** The first render: 12 segments, a fresh wheel, the angle at 0, nothing won yet. */
    constructor (arcs: ArcGenerator, draws: Draws)
      requires DrawsFor(draws, InitialSegments)
      ensures Valid()
      ensures this.arcs == arcs
      ensures enabled && !finished && winner == None
      ensures segments == InitialSegments && inputValue == "12"
      ensures angleBySegment == 30.0 && angleOffset == 15.0
      ensures wheelPaths == MakeWheel(InitialSegments, arcs, draws)
      ensures angle == 0.0 && animation == Idle
    {
      this.arcs := arcs;
      enabled, finished, winner := true, false, None;
      segments := InitialSegments;
      angleBySegment := Step(InitialSegments);
      angleOffset := Step(InitialSegments) / 2.0;
      inputValue := "12";
      wheelPaths := MakeWheel(InitialSegments, arcs, draws);
      angle := 0.0;
      animation := Idle;
    }

    /**
     * `_angle.setValue(v)` and the angle listener it fires: any change of
     * the angle locks an enabled wheel and clears `finished`.
     */
    method SetAngle(v: real)
      requires Valid() && !animation.Idle?
      modifies this
      ensures Valid()
      ensures angle == v && !enabled && !finished
      ensures winner == old(winner) && animation == old(animation)
      ensures segments == old(segments) && wheelPaths == old(wheelPaths) && inputValue == old(inputValue)
      ensures angleBySegment == old(angleBySegment) && angleOffset == old(angleOffset)
    {
      angle := v;
      if enabled {
        enabled := false;
        finished := false;
      }
    }

    /**
     * `onPan`: a gesture reaching `End` on an enabled handler starts the
     * decay, whose callbacks capture the current segment count. A disabled
     * handler delivers nothing, and other states do nothing.
     */
    method Pan(state: GestureState, velocityY: real)
      requires Valid()
      modifies this
      ensures Valid()
      ensures old(enabled) && state == End ==>
        animation == Decaying(old(segments)) &&
        enabled == old(enabled) && finished == old(finished) && winner == old(winner) && angle == old(angle) &&
        segments == old(segments) && wheelPaths == old(wheelPaths) && inputValue == old(inputValue) &&
        angleBySegment == old(angleBySegment) && angleOffset == old(angleOffset)
      ensures !(old(enabled) && state == End) ==> unchanged(this)
    {
      if enabled && state == End {
        animation := Decaying(segments);
      }
    }

    /** A frame of either animation moves the angle, which keeps the wheel locked. */
    method AnimationFrame(v: real)
      requires Valid() && !animation.Idle?
      modifies this
      ensures Valid()
      ensures angle == v && !enabled && !finished
      ensures winner == old(winner) && animation == old(animation)
      ensures segments == old(segments) && wheelPaths == old(wheelPaths) && inputValue == old(inputValue)
      ensures angleBySegment == old(angleBySegment) && angleOffset == old(angleOffset)
    {
      SetAngle(v);
    }

    /**
     * The decay's completion callback, the decay having stopped at `v`:
     * the angle becomes `v % 360`, and the snap to the nearest multiple of
     * the captured step starts.
     */
    method DecayDone(v: real)
      requires Valid() && animation.Decaying?
      modifies this
      ensures Valid()
      ensures angle == ModTurn(v) && !enabled && !finished
      ensures animation == Snapping(old(animation.segments), Snap(ModTurn(v), Step(old(animation.segments))))
      ensures winner == old(winner)
      ensures segments == old(segments) && wheelPaths == old(wheelPaths) && inputValue == old(inputValue)
      ensures angleBySegment == old(angleBySegment) && angleOffset == old(angleOffset)
    {
      SetAngle(ModTurn(v));
      var captured := animation.segments;
      SnapWithinTurn(angle, captured);
      animation := Snapping(captured, Snap(angle, Step(captured)));
    }

    /**
     * The snap's completion callback: the angle rests on the snapped value,
     * the wheel unlocks, and the winner is the slice under the pointer on
     * the wheel on screen.
     */
    method SnapDone()
      requires Valid() && animation.Snapping?
      modifies this
      ensures Valid()
      ensures angle == old(animation.toValue)
      ensures enabled && finished && animation == Idle
      ensures winner == Some(ResolveWinner(angle, wheelPaths))
      ensures segments == old(segments) && wheelPaths == old(wheelPaths) && inputValue == old(inputValue)
      ensures angleBySegment == old(angleBySegment) && angleOffset == old(angleOffset)
    {
      SetAngle(animation.toValue);
      var w := ResolveWinner(angle, wheelPaths);
      enabled := true;
      finished := true;
      winner := Some(w);
      animation := Idle;
    }

    /**
     * The effect that runs when `segments` changed: a new step and offset,
     * and a fresh wheel from new draws.
     */
    method SegmentsChanged(draws: Draws)
      requires 1 <= segments <= MaxSegments && DrawsFor(draws, segments)
      modifies this
      ensures segments == old(segments) && enabled == old(enabled) && finished == old(finished)
      ensures angleBySegment == Step(segments) && angleOffset == angleBySegment / 2.0
      ensures wheelPaths == MakeWheel(segments, arcs, draws)
      ensures |wheelPaths| == segments && forall i :: 0 <= i < |wheelPaths| ==> IsPrize(wheelPaths[i].value)
      ensures winner == old(winner) && angle == old(angle) && animation == old(animation)
      ensures inputValue == old(inputValue)
    {
      angleBySegment := Step(segments);
      angleOffset := angleBySegment / 2.0;
      wheelPaths := MakeWheel(segments, arcs, draws);
    }

    /**
     * `handleSegmentsChange`: the text is always echoed; a count from 1 to
     * 20 that differs from the current one replaces it and rebuilds the
     * wheel (setting the same count again re-renders nothing). The field
     * stays editable during a spin.
     */
    method HandleSegmentsChange(text: string, draws: Draws)
      requires Valid()
      requires AcceptedSegments(text).Some? ==> DrawsFor(draws, AcceptedSegments(text).value)
      modifies this
      ensures Valid()
      ensures inputValue == text
      ensures enabled == old(enabled) && finished == old(finished) && winner == old(winner)
      ensures angle == old(angle) && animation == old(animation)
      ensures var accepted := AcceptedSegments(text);
        if accepted.Some? && accepted.value != old(segments) then
          segments == accepted.value && wheelPaths == MakeWheel(segments, arcs, draws) &&
          angleBySegment == Step(segments) && angleOffset == Step(segments) / 2.0
        else
          segments == old(segments) && wheelPaths == old(wheelPaths) &&
          angleBySegment == old(angleBySegment) && angleOffset == old(angleOffset)
    {
      inputValue := text;
      var accepted := AcceptedSegments(text);
      if accepted.Some? && accepted.value != segments {
        segments := accepted.value;
        SegmentsChanged(draws);
      }
    }

    /** The prize the screen shows: only once a spin has finished and the wheel is enabled again. */
    function ShownPrize(): (r: Option<int>)
      requires Valid()
      reads this
      ensures r.Some? <==> finished && enabled
      ensures r.Some? ==> IsPrize(r.value) && r.value == winner.value.value
    {
      if finished && enabled then Some(winner.value.value) else None
    }
  }

  /**
   * A spin during which the text field switches the wheel from 12 to 4
   * slices: the spin still snaps on the 12-slice grid it captured, and the
   * winner is the slice of the 4-slice wheel on screen whose centre the
   * angle brings within half a slice (45 degrees) of the pointer.
   */
  method EditDuringSpin(arcs: ArcGenerator, first: Draws, second: Draws)
    requires DrawsFor(first, InitialSegments) && DrawsFor(second, 4)
  {
    var app := new SpinnerApp(arcs, first);
    app.Pan(End, 1500.0);
    assert app.animation == Decaying(12);
    app.AnimationFrame(20.0);
    assert !app.enabled;
    AcceptedSegmentsOfDecimal(4, []);
    assert Decimal(4) + [] == "4";
    app.HandleSegmentsChange("4", second);
    assert |app.wheelPaths| == 4;
    app.DecayDone(28.0);
    app.Pan(End, 900.0);
    assert app.animation.Snapping? && app.animation.segments == 12;
    app.SnapDone();
    assert app.winner.Some? && app.winner.value in app.wheelPaths;
    var m := CorrectedWinnerIndexUnderPointer(app.angle, 4);
    assert app.winner == Some(app.wheelPaths[CorrectedWinnerIndex(app.angle, 4)]);
    assert app.ShownPrize().Some?;
  }
}
