/**
 * The time stepper of the marker panel (Sources/Views/ABMarkerView.swift):
 * `TimeInputView` edits a bound `TimeComponents` triple with clamping and
 * with carry and borrow between centiseconds, seconds and minutes, and
 * reports the new total; `ABMarkerView` owns the two triples, feeds the
 * reported totals to the marker state and resets both on Clear Markers.
 */
module MarkerViews {
  import opened Wrappers
  import opened ABMarker

  function MaxInt(a: int, b: int): int { if a >= b then a else b }
  function MinInt(a: int, b: int): int { if a <= b then a else b }

  /** The clamping `updateTime()` applies before it reports. */
  function Clamped(c: TimeComponents): (r: TimeComponents)
    ensures Normalized(r)
    ensures Normalized(c) ==> r == c
    ensures c.minutes >= 0 ==> r.minutes == c.minutes
    ensures c.minutes < 0 ==> r.minutes == 0
    ensures 0 <= c.seconds <= 59 ==> r.seconds == c.seconds
    ensures c.seconds > 59 ==> r.seconds == 59
    ensures c.seconds < 0 ==> r.seconds == 0
    ensures 0 <= c.centiseconds <= 99 ==> r.centiseconds == c.centiseconds
    ensures c.centiseconds > 99 ==> r.centiseconds == 99
    ensures c.centiseconds < 0 ==> r.centiseconds == 0
  {
    TimeComponents(
      MaxInt(0, c.minutes),
      MaxInt(0, MinInt(59, c.seconds)),
      MaxInt(0, MinInt(99, c.centiseconds)))
  }

  /** The six stepper buttons. */
  datatype Step =
    | IncrementMinutes | DecrementMinutes
    | IncrementSeconds | DecrementSeconds
    | IncrementCentiseconds | DecrementCentiseconds

  /** `incrementSeconds()` before its clamp: 59 wraps to 0 and carries a minute. */
  function CarrySecond(c: TimeComponents): (r: TimeComponents)
    ensures r.centiseconds == c.centiseconds
    ensures Normalized(c) ==> Normalized(r)
    ensures Normalized(c) ==> TotalCentiseconds(r) == TotalCentiseconds(c) + 100
  {
    if c.seconds + 1 > 59 then c.(seconds := 0, minutes := c.minutes + 1)
    else c.(seconds := c.seconds + 1)
  }

  /** `decrementSeconds()` before its clamp: 0 wraps to 59 and lowers the minutes, floored at 0. */
  function BorrowSecond(c: TimeComponents): (r: TimeComponents)
    ensures r.centiseconds == c.centiseconds
    ensures Normalized(c) ==> Normalized(r)
    ensures Normalized(c) && c.minutes * 60 + c.seconds > 0 ==>
      TotalCentiseconds(r) == TotalCentiseconds(c) - 100
    ensures Normalized(c) && c.minutes == 0 && c.seconds == 0 ==> r == c.(seconds := 59)
  {
    if c.seconds - 1 < 0 then c.(seconds := 59, minutes := MaxInt(0, c.minutes - 1))
    else c.(seconds := c.seconds - 1)
  }

  /** The components after pressing one stepper button; every press ends in `updateTime()`. */
  function Stepped(c: TimeComponents, step: Step): (r: TimeComponents)
    ensures Normalized(r)
  {
    match step
    case IncrementMinutes => Clamped(c.(minutes := c.minutes + 1))
    case DecrementMinutes => Clamped(c.(minutes := MaxInt(0, c.minutes - 1)))
    case IncrementSeconds => Clamped(CarrySecond(c))
    case DecrementSeconds => Clamped(BorrowSecond(c))
    case IncrementCentiseconds =>
      if c.centiseconds + 1 > 99 then Clamped(CarrySecond(c.(centiseconds := 0)))
      else Clamped(c.(centiseconds := c.centiseconds + 1))
    case DecrementCentiseconds =>
      if c.centiseconds - 1 < 0 then Clamped(BorrowSecond(c.(centiseconds := 99)))
      else Clamped(c.(centiseconds := c.centiseconds - 1))
  }

  /** `incrementMinutes` adds exactly one minute; `decrementMinutes` removes one but never goes below zero. */
  lemma MinuteSteps(c: TimeComponents)
    requires Normalized(c)
    ensures Stepped(c, IncrementMinutes) == c.(minutes := c.minutes + 1)
    ensures TotalCentiseconds(Stepped(c, IncrementMinutes)) == TotalCentiseconds(c) + 6000
    ensures Stepped(c, DecrementMinutes) == c.(minutes := MaxInt(0, c.minutes - 1))
    ensures Stepped(c, DecrementMinutes).minutes >= 0
  {
  }

  /** Seconds wrap at 59 with a carry and at 0 with a borrow floored at zero minutes. */
  lemma SecondSteps(c: TimeComponents)
    requires Normalized(c)
    ensures c.seconds == 59 ==>
      Stepped(c, IncrementSeconds) == c.(seconds := 0, minutes := c.minutes + 1)
    ensures c.seconds < 59 ==> Stepped(c, IncrementSeconds) == c.(seconds := c.seconds + 1)
    ensures c.seconds == 0 ==>
      Stepped(c, DecrementSeconds) == c.(seconds := 59, minutes := MaxInt(0, c.minutes - 1))
    ensures c.seconds > 0 ==> Stepped(c, DecrementSeconds) == c.(seconds := c.seconds - 1)
    ensures TotalCentiseconds(Stepped(c, IncrementSeconds)) == TotalCentiseconds(c) + 100
  {
  }

  /** Centiseconds wrap at 99 with a carry into seconds and at 0 with a borrow from seconds. */
  lemma CentisecondWraps(c: TimeComponents)
    requires Normalized(c)
    ensures c.centiseconds == 99 ==>
      Stepped(c, IncrementCentiseconds) == Stepped(c.(centiseconds := 0), IncrementSeconds)
    ensures c.centiseconds == 0 ==>
      Stepped(c, DecrementCentiseconds) == Stepped(c.(centiseconds := 99), DecrementSeconds)
  {
  }

  /** From any in-range state, `incrementCentiseconds` adds exactly one centisecond. */
  lemma IncrementCentisecondsAddsOne(c: TimeComponents)
    requires Normalized(c)
    ensures TotalCentiseconds(Stepped(c, IncrementCentiseconds)) == TotalCentiseconds(c) + 1
  {
  }

  /**
   * `decrementCentiseconds` removes exactly one centisecond from an in-range
   * non-zero state, and wraps 00:00.00 up to 00:59.99.
   */
  lemma DecrementCentisecondsRemovesOne(c: TimeComponents)
    requires Normalized(c)
    ensures TotalCentiseconds(c) > 0 ==>
      TotalCentiseconds(Stepped(c, DecrementCentiseconds)) == TotalCentiseconds(c) - 1
    ensures c == ZeroTime ==> Stepped(c, DecrementCentiseconds) == TimeComponents(0, 59, 99)
  {
    var r := Stepped(c, DecrementCentiseconds);
    if c.centiseconds == 0 {
      var wrapped := c.(centiseconds := 99);
      var borrowed := BorrowSecond(wrapped);
      assert r == borrowed;
      if c.seconds == 0 {
        if c.minutes == 0 {
          assert borrowed == TimeComponents(0, 59, 99);
        } else {
          assert borrowed == TimeComponents(c.minutes - 1, 59, 99);
          assert TotalCentiseconds(borrowed) == TotalCentiseconds(c) - 1;
        }
      } else {
        assert borrowed == TimeComponents(c.minutes, c.seconds - 1, 99);
        assert TotalCentiseconds(borrowed) == TotalCentiseconds(c) - 1;
      }
    } else {
      var lowered := c.(centiseconds := c.centiseconds - 1);
      assert r == lowered;
      assert TotalCentiseconds(lowered) == TotalCentiseconds(c) - 1;
    }
  }

  /** On in-range states the two centisecond buttons undo each other, except below 00:00.00. */
  lemma CentisecondStepsInverse(c: TimeComponents)
    requires Normalized(c)
    ensures Stepped(Stepped(c, IncrementCentiseconds), DecrementCentiseconds) == c
    ensures TotalCentiseconds(c) > 0 ==>
      Stepped(Stepped(c, DecrementCentiseconds), IncrementCentiseconds) == c
  {
    var up := Stepped(c, IncrementCentiseconds);
    IncrementCentisecondsAddsOne(c);
    DecrementCentisecondsRemovesOne(up);
    NormalizedUnique(Stepped(up, DecrementCentiseconds), c);
    if TotalCentiseconds(c) > 0 {
      var down := Stepped(c, DecrementCentiseconds);
      DecrementCentisecondsRemovesOne(c);
      IncrementCentisecondsAddsOne(down);
      NormalizedUnique(Stepped(down, IncrementCentiseconds), c);
    }
  }

  /** The `components` binding of one `TimeInputView`. */
  class TimeInputView {
    var minutes: int
    var seconds: int
    var centiseconds: int

    function Components(): TimeComponents
      reads this
    {
      TimeComponents(minutes, seconds, centiseconds)
    }

    constructor(c: TimeComponents)
      ensures Components() == c
    {
      minutes, seconds, centiseconds := c.minutes, c.seconds, c.centiseconds;
    }

    /** Assigning the whole binding, as `ABMarkerView` does. */
    method SetComponents(c: TimeComponents)
      modifies this
      ensures Components() == c
    {
      minutes, seconds, centiseconds := c.minutes, c.seconds, c.centiseconds;
    }

    /** `updateTime()`: clamp each field, then report `totalSeconds` through `onUpdate`. */
    method UpdateTime() returns (reported: real)
      modifies this
      ensures Components() == Clamped(old(Components()))
      ensures reported == TotalSeconds(Components())
    {
      centiseconds := MaxInt(0, MinInt(99, centiseconds));
      seconds := MaxInt(0, MinInt(59, seconds));
      minutes := MaxInt(0, minutes);
      reported := TotalSeconds(Components());
    }

    method IncrementMinutes() returns (reported: real)
      modifies this
      ensures Components() == Stepped(old(Components()), Step.IncrementMinutes)
      ensures reported == TotalSeconds(Components())
    {
      minutes := minutes + 1;
      reported := UpdateTime();
    }

    method DecrementMinutes() returns (reported: real)
      modifies this
      ensures Components() == Stepped(old(Components()), Step.DecrementMinutes)
      ensures reported == TotalSeconds(Components())
    {
      minutes := MaxInt(0, minutes - 1);
      reported := UpdateTime();
    }

    method IncrementSeconds() returns (reported: real)
      modifies this
      ensures Components() == Stepped(old(Components()), Step.IncrementSeconds)
      ensures reported == TotalSeconds(Components())
    {
      seconds := seconds + 1;
      if seconds > 59 {
        seconds := 0;
        minutes := minutes + 1;
      }
      reported := UpdateTime();
    }

    method DecrementSeconds() returns (reported: real)
      modifies this
      ensures Components() == Stepped(old(Components()), Step.DecrementSeconds)
      ensures reported == TotalSeconds(Components())
    {
      seconds := seconds - 1;
      if seconds < 0 {
        seconds := 59;
        minutes := MaxInt(0, minutes - 1);
      }
      reported := UpdateTime();
    }

    method IncrementCentiseconds() returns (reported: real)
      modifies this
      ensures Components() == Stepped(old(Components()), Step.IncrementCentiseconds)
      ensures reported == TotalSeconds(Components())
    {
      centiseconds := centiseconds + 1;
      if centiseconds > 99 {
        centiseconds := 0;
        reported := IncrementSeconds();
      } else {
        reported := UpdateTime();
      }
    }

    method DecrementCentiseconds() returns (reported: real)
      modifies this
      ensures Components() == Stepped(old(Components()), Step.DecrementCentiseconds)
      ensures reported == TotalSeconds(Components())
    {
      centiseconds := centiseconds - 1;
      if centiseconds < 0 {
        centiseconds := 99;
        reported := DecrementSeconds();
      } else {
        reported := UpdateTime();
      }
    }

    /** A press of one of the six stepper buttons. */
    method Press(step: Step) returns (reported: real)
      modifies this
      ensures Components() == Stepped(old(Components()), step)
      ensures reported == TotalSeconds(Components())
    {
      match step
      case IncrementMinutes => reported := IncrementMinutes();
      case DecrementMinutes => reported := DecrementMinutes();
      case IncrementSeconds => reported := IncrementSeconds();
      case DecrementSeconds => reported := DecrementSeconds();
      case IncrementCentiseconds => reported := IncrementCentiseconds();
      case DecrementCentiseconds => reported := DecrementCentiseconds();
    }
  }

  /** The marker panel: the marker state and the two component triples it edits. */
  class ABMarkerView {
    const markerState: ABMarkerState
    const markerAInput: TimeInputView
    const markerBInput: TimeInputView

    ghost predicate Valid()
      reads this
    {
      markerAInput != markerBInput
    }

    constructor(markerState: ABMarkerState)
      ensures Valid() && this.markerState == markerState
      ensures fresh(markerAInput) && fresh(markerBInput)
      ensures markerAInput.Components() == ZeroTime && markerBInput.Components() == ZeroTime
    {
      this.markerState := markerState;
      markerAInput := new TimeInputView(ZeroTime);
      markerBInput := new TimeInputView(ZeroTime);
    }

    /**
     * A stepper press on marker A's input, which is enabled only while
     * marker A is set; the reported total becomes marker A.
     */
    method StepMarkerA(step: Step)
      requires Valid()
      modifies markerState, markerAInput
      ensures old(markerState.markerA).None? ==>
        markerState.State() == old(markerState.State()) && markerAInput.Components() == old(markerAInput.Components())
      ensures old(markerState.markerA).Some? ==>
        && markerAInput.Components() == Stepped(old(markerAInput.Components()), step)
        && markerState.State() == Apply(old(markerState.State()), SetA(TotalSeconds(markerAInput.Components())))
    {
      if markerState.markerA.None? {
        return;
      }
      var newTime := markerAInput.Press(step);
      markerState.SetMarkerA(newTime);
    }

    /** The same for marker B. */
    method StepMarkerB(step: Step)
      requires Valid()
      modifies markerState, markerBInput
      ensures old(markerState.markerB).None? ==>
        markerState.State() == old(markerState.State()) && markerBInput.Components() == old(markerBInput.Components())
      ensures old(markerState.markerB).Some? ==>
        && markerBInput.Components() == Stepped(old(markerBInput.Components()), step)
        && markerState.State() == Apply(old(markerState.State()), SetB(TotalSeconds(markerBInput.Components())))
    {
      if markerState.markerB.None? {
        return;
      }
      var newTime := markerBInput.Press(step);
      markerState.SetMarkerB(newTime);
    }

    /**
     * The Clear Markers button, enabled only while both markers are set:
     * clear the state and reset both triples to 00:00.00.
     */
    method ClearMarkers()
      requires Valid()
      modifies markerState, markerAInput, markerBInput
      ensures !old(markerState.State()).HasMarkers() ==>
        && markerState.State() == old(markerState.State())
        && markerAInput.Components() == old(markerAInput.Components())
        && markerBInput.Components() == old(markerBInput.Components())
      ensures old(markerState.State()).HasMarkers() ==>
        && markerState.State() == Apply(old(markerState.State()), Clear)
        && markerAInput.Components() == ZeroTime && markerBInput.Components() == ZeroTime
    {
      if !markerState.State().HasMarkers() {
        return;
      }
      markerState.ClearMarkers();
      markerAInput.SetComponents(ZeroTime);
      markerBInput.SetComponents(ZeroTime);
    }
  }
}
