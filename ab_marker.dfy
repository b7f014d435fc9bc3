/**
 * The A-B loop state and the time-component conversion
 * (Sources/Models/ABMarker.swift).
 *
 * The marker state is specified on values (`Markers`, `MarkerCommand`,
 * `Apply`) and implemented by the class `ABMarkerState`, whose fields are
 * updated in place exactly as the source's methods update them.
 */
module ABMarker {
  import opened Wrappers

  function MinReal(a: real, b: real): real { if a <= b then a else b }
  function MaxReal(a: real, b: real): real { if a >= b then a else b }

  /** A snapshot of the marker state: two optional markers and the looping flag. */
  datatype Markers = Markers(markerA: Option<real>, markerB: Option<real>, isLooping: bool)
  {
    /** `hasMarkers`: both markers are set. */
    predicate HasMarkers(): (r: bool)
      ensures r <==> markerA.Some? && markerB.Some?
    {
      markerA != None && markerB != None
    }

    /** `loopStart`: the earlier marker, defined only when both are set. */
    function LoopStart(): (r: Option<real>)
      ensures r.Some? <==> HasMarkers()
      ensures r.Some? ==> r.value <= markerA.value && r.value <= markerB.value
      ensures r.Some? ==> r.value == markerA.value || r.value == markerB.value
    {
      match (markerA, markerB)
      case (Some(a), Some(b)) => Some(MinReal(a, b))
      case _ => None
    }

    /** `loopEnd`: the later marker, defined only when both are set. */
    function LoopEnd(): (r: Option<real>)
      ensures r.Some? <==> HasMarkers()
      ensures r.Some? ==> r.value >= markerA.value && r.value >= markerB.value
      ensures r.Some? ==> r.value == markerA.value || r.value == markerB.value
    {
      match (markerA, markerB)
      case (Some(a), Some(b)) => Some(MaxReal(a, b))
      case _ => None
    }

    /** `shouldLoopBack`: looping, both markers set, and the position has reached the later one. */
    predicate ShouldLoopBack(currentPosition: real)
      ensures ShouldLoopBack(currentPosition) <==>
        isLooping && HasMarkers() && currentPosition >= markerA.value && currentPosition >= markerB.value
    {
      if isLooping && LoopEnd().Some? && LoopStart().Some? then
        currentPosition >= LoopEnd().value
      else
        false
    }

    /** The state machine's invariant: looping only while both markers are set. */
    predicate Valid() {
      isLooping ==> HasMarkers()
    }
  }

  /** The state `ABMarkerState()` starts in. */
  const Initial := Markers(None, None, false)

  /** The mutating operations of `ABMarkerState`. */
  datatype MarkerCommand = SetA(position: real) | SetB(position: real) | Toggle | Clear

  /** The state after one operation. */
  function Apply(m: Markers, c: MarkerCommand): (r: Markers)
    ensures c.SetA? ==> r.markerA == Some(c.position) && r.markerB == m.markerB && r.isLooping == m.isLooping
    ensures c.SetB? ==> r.markerB == Some(c.position) && r.markerA == m.markerA && r.isLooping == m.isLooping
    ensures c.Toggle? ==>
      r.markerA == m.markerA && r.markerB == m.markerB && (r.isLooping != m.isLooping <==> m.HasMarkers())
    ensures c.Clear? ==> r.markerA == None && r.markerB == None && !r.isLooping
    ensures m.Valid() ==> r.Valid()
  {
    match c
    case SetA(p) => m.(markerA := Some(p))
    case SetB(p) => m.(markerB := Some(p))
    case Toggle => if m.HasMarkers() then m.(isLooping := !m.isLooping) else m
    case Clear => Markers(None, None, false)
  }

  /** The state after a sequence of operations, applied left to right. */
  function Run(m: Markers, cs: seq<MarkerCommand>): Markers
    decreases |cs|
  {
    if cs == [] then m else Run(Apply(m, cs[0]), cs[1..])
  }

  /** Every sequence of operations keeps `isLooping ==> hasMarkers`. */
  lemma {:induction false} RunKeepsValid(m: Markers, cs: seq<MarkerCommand>)
    requires m.Valid()
    ensures Run(m, cs).Valid()
    decreases |cs|
  {
    if cs != [] {
      RunKeepsValid(Apply(m, cs[0]), cs[1..]);
    }
  }

  /** Starting from a fresh state, every sequence of operations keeps the invariant. */
  lemma RunFromInitialIsValid(cs: seq<MarkerCommand>)
    ensures Run(Initial, cs).Valid()
  {
    RunKeepsValid(Initial, cs);
  }

  /** `loopStart <= loopEnd` whenever both are defined, whichever marker is the larger. */
  lemma LoopBoundsOrdered(m: Markers)
    ensures m.LoopStart().Some? <==> m.LoopEnd().Some?
    ensures m.HasMarkers() ==> m.LoopStart().value <= m.LoopEnd().value
  {
  }

  /** The loop bounds do not depend on which marker holds which position. */
  lemma LoopBoundsSymmetric(a: Option<real>, b: Option<real>, looping: bool)
    ensures Markers(a, b, looping).LoopStart() == Markers(b, a, looping).LoopStart()
    ensures Markers(a, b, looping).LoopEnd() == Markers(b, a, looping).LoopEnd()
  {
  }

  /** Two toggles restore the original state. */
  lemma ToggleTwice(m: Markers)
    ensures Apply(Apply(m, Toggle), Toggle) == m
  {
  }

  /** Clearing is idempotent. */
  lemma ClearIdempotent(m: Markers)
    ensures Apply(Apply(m, Clear), Clear) == Apply(m, Clear)
    ensures Apply(m, Clear) == Initial
  {
  }

  /** The loop-back predicate holds at the later marker itself and beyond, and never while not looping. */
  lemma ShouldLoopBackBoundary(m: Markers, p: real)
    ensures !m.isLooping || !m.HasMarkers() ==> !m.ShouldLoopBack(p)
    ensures m.isLooping && m.HasMarkers() ==> (m.ShouldLoopBack(p) <==> p >= m.LoopEnd().value)
    ensures m.isLooping && m.HasMarkers() ==> m.ShouldLoopBack(m.LoopEnd().value)
  {
  }

  /** Markers set at 30 then 10 give the loop [10, 30]. */
  lemma MarkersSetOutOfOrder()
    ensures Run(Initial, [SetA(30.0), SetB(10.0)]).HasMarkers()
    ensures Run(Initial, [SetA(30.0), SetB(10.0)]).LoopStart() == Some(10.0)
    ensures Run(Initial, [SetA(30.0), SetB(10.0)]).LoopEnd() == Some(30.0)
  {
    assert Run(Initial, [SetA(30.0), SetB(10.0)]) == Markers(Some(30.0), Some(10.0), false) by {
      assert [SetA(30.0), SetB(10.0)][1..] == [SetB(10.0)];
    }
  }

  /**
   * `ABMarkerState`: the observable marker state, updated in place.
   * `State()` reads the three stored properties as a `Markers` value;
   * `hasMarkers`, `loopStart`, `loopEnd` and `shouldLoopBack` are
   * computed from it.
   */
  class ABMarkerState {
    var markerA: Option<real>
    var markerB: Option<real>
    var isLooping: bool

    function State(): Markers
      reads this
    {
      Markers(markerA, markerB, isLooping)
    }

    constructor()
      ensures State() == Initial
    {
      markerA := None;
      markerB := None;
      isLooping := false;
    }

    method SetMarkerA(position: real)
      modifies this
      ensures State() == Apply(old(State()), SetA(position))
    {
      markerA := Some(position);
    }

    method SetMarkerB(position: real)
      modifies this
      ensures State() == Apply(old(State()), SetB(position))
    {
      markerB := Some(position);
    }

    method ToggleLoop()
      modifies this
      ensures State() == Apply(old(State()), Toggle)
    {
      if !(markerA != None && markerB != None) {
        return;
      }
      isLooping := !isLooping;
    }

    method ClearMarkers()
      modifies this
      ensures State() == Apply(old(State()), Clear)
    {
      markerA := None;
      markerB := None;
      isLooping := false;
    }
  }

  // ---------------------------------------------------------------------
  // TimeComponents

  /** A duration split into minutes, seconds and centiseconds. */
  datatype TimeComponents = TimeComponents(minutes: int, seconds: int, centiseconds: int)

  /** `TimeComponents()`: every component defaults to zero. */
  const ZeroTime := TimeComponents(0, 0, 0)

  /** Components as `init(fromTotalSeconds:)` produces them for a non-negative input. */
  predicate Normalized(c: TimeComponents) {
    c.minutes >= 0 && 0 <= c.seconds <= 59 && 0 <= c.centiseconds <= 99
  }

  /** Swift's `Int(x)`: truncation toward zero. */
  function TruncateToInt(x: real): (n: int)
    ensures x >= 0.0 ==> n as real <= x < n as real + 1.0
    ensures x < 0.0 ==> x <= n as real < x + 1.0 && n <= 0
  {
    if x >= 0.0 then x.Floor else -((-x).Floor)
  }

  /** Swift's integer `/`: the quotient truncated toward zero. */
  function Quot(a: int, b: int): (q: int)
    requires b > 0
    ensures a >= 0 ==> q >= 0 && q * b <= a < q * b + b
    ensures a < 0 ==> q <= 0 && q * b - b < a <= q * b
  {
    if a >= 0 then a / b else -((-a) / b)
  }

  /** Swift's integer `%`: the remainder takes the sign of the dividend. */
  function Rem(a: int, b: int): (r: int)
    requires b > 0
    ensures a >= 0 ==> 0 <= r < b
    ensures a < 0 ==> -b < r <= 0
    ensures a == b * Quot(a, b) + r
  {
    if a >= 0 then a % b else -((-a) % b)
  }

  /** `init(fromTotalSeconds:)`. */
  function FromTotalSeconds(s: real): (r: TimeComponents)
    ensures s >= 0.0 ==> Normalized(r)
    ensures s < 0.0 ==> r.minutes <= 0 && -59 <= r.seconds <= 0 && -99 <= r.centiseconds <= 0
  {
    var totalCentiseconds := TruncateToInt(s * 100.0);
    var totalSeconds := Quot(totalCentiseconds, 100);
    TimeComponents(Quot(totalSeconds, 60), Rem(totalSeconds, 60), Rem(totalCentiseconds, 100))
  }

  /** The whole duration counted in centiseconds. */
  function TotalCentiseconds(c: TimeComponents): int {
    (c.minutes * 60 + c.seconds) * 100 + c.centiseconds
  }

  /** `totalSeconds`. */
  function TotalSeconds(c: TimeComponents): (r: real)
    ensures r * 100.0 == TotalCentiseconds(c) as real
  {
    (c.minutes * 60 + c.seconds) as real + c.centiseconds as real / 100.0
  }

  /** Converting to components and back loses exactly the truncation of `Int(seconds * 100)`. */
  lemma FromTotalSecondsExact(s: real)
    ensures TotalCentiseconds(FromTotalSeconds(s)) == TruncateToInt(s * 100.0)
  {
  }

  /**
   * For a non-negative input the components are in range and the total is
   * the input floored to a centisecond: at most the input and less than one
   * centisecond below it.
   */
  lemma FromNonNegativeSeconds(s: real)
    requires s >= 0.0
    ensures Normalized(FromTotalSeconds(s))
    ensures TotalCentiseconds(FromTotalSeconds(s)) == (s * 100.0).Floor
    ensures s - 0.01 < TotalSeconds(FromTotalSeconds(s)) <= s
  {
    FromTotalSecondsExact(s);
  }

  /** In-range components survive the trip through `totalSeconds` unchanged. */
  lemma ComponentsRoundTrip(c: TimeComponents)
    requires Normalized(c)
    ensures FromTotalSeconds(TotalSeconds(c)) == c
  {
    var n := TotalCentiseconds(c);
    assert TruncateToInt(TotalSeconds(c) * 100.0) == n;
    var t := c.minutes * 60 + c.seconds;
    assert n == 100 * t + c.centiseconds;
  }

  /** Two in-range triples with the same total are the same triple. */
  lemma NormalizedUnique(a: TimeComponents, b: TimeComponents)
    requires Normalized(a) && Normalized(b)
    requires TotalCentiseconds(a) == TotalCentiseconds(b)
    ensures a == b
  {
    ComponentsRoundTrip(a);
    ComponentsRoundTrip(b);
    assert TotalSeconds(a) == TotalSeconds(b);
  }
}
