# A-B loop and hotkey dispatch for a media-player menu-bar controller

This project models the core of a menu-bar utility that controls a media
player through global keyboard shortcuts, and proves properties of that
model in Dafny.

The core has four parts:

- **The A-B loop state** (`ABMarker`). It holds two optional markers and a
  looping flag. `loopStart` and `loopEnd` are the smaller and larger marker.
  Looping can only be switched on while both markers are set. The loop-back
  predicate fires once the position reaches the later marker. The operations
  are specified on values (`Markers`, `Apply`). The class `ABMarkerState`
  updates its three fields in place, and each of its methods is proved
  equal to `Apply`.
- **Time components** (`ABMarker`). A duration is split into minutes,
  seconds and centiseconds. The split uses Swift's truncating `Int(_:)`, `/`
  and `%`, written out explicitly. The total is recomposed from the parts.
- **The time stepper** (`MarkerViews`). `TimeInputView` edits a bound
  component triple with clamping, and with carry and borrow between the
  three fields. `ABMarkerView` feeds each reported total to the marker state
  and resets both triples on Clear Markers.
- **The hotkey dispatcher** (`Hotkeys`). `HotkeyManager` owns the binding
  list, a registry of shortcuts, the marker state and the player. The
  registry maps each registered shortcut name to the binding its key-up
  handler captured. A fired shortcut acts on that captured copy. It does not
  look up the current list, so a magnitude edited in the bindings table only
  takes effect after the bindings are registered again
  (`CapturedBindingKeepsOldValue`). Every operation of the manager keeps
  one invariant (`Consistent`):
  - names and ids are distinct;
  - each captured copy is registered under its own listed name;
  - each captured copy agrees with the listed binding on `id` and `action`,
    since both are `let` fields;
  - every magnitude, listed or captured, is positive.
  Because of that invariant, a fired rewind never moves playback beyond
  `max(0, position)`, and a fired forward never moves it back.

The player is abstract (`MusicController.MusicPlayer`). Its position is
`Option<real>`, `None` when no track is available. It also keeps a log of
every set-position request issued to it. A set-position request succeeds,
and moves the player, exactly when a position is available.

Randomness is passed in as parameters. The `UUID`s of new bindings and the
`"action_<UUID>"` shortcut names are supplied by the caller and required to
be fresh. The eight default bindings take eight distinct ids.

Points to note about the code, which the model follows:

- `addHotkey` gives every new binding the magnitude 5.0, not only seek
  bindings.
- A fired shortcut uses the binding captured at registration, not a lookup
  by id.
- Markers are not required to be non-negative, because nothing in the code
  clamps them.
- No operation clears a single marker.

## Model

| member | source | states |
|---|---|---|
| `ABMarker.Markers.HasMarkers` | Sources/Models/ABMarker.swift:9-11 | true exactly when both markers are set; it is the guard of `loopStart`, `loopEnd`, `toggleLoop` and `shouldLoopBack` |
| `ABMarker.Markers.LoopStart` | Sources/Models/ABMarker.swift:13-16 | defined iff both markers are set; then it is one of them and at most both |
| `ABMarker.Markers.LoopEnd` | Sources/Models/ABMarker.swift:18-21 | defined iff both markers are set; then it is one of them and at least both |
| `ABMarker.Markers.ShouldLoopBack` | Sources/Models/ABMarker.swift:42-47 | true iff looping, both markers set and the position at or past both markers |
| `ABMarker.Apply` | Sources/Models/ABMarker.swift:23-40 | setting a marker changes only that marker; toggle flips the flag iff both markers are set and changes nothing else; clear empties both markers and stops looping; every operation keeps `isLooping ==> hasMarkers` |
| `ABMarker.RunKeepsValid` | Sources/Models/ABMarker.swift:23-40 | every sequence of operations keeps `isLooping ==> hasMarkers` (by induction) |
| `ABMarker.RunFromInitialIsValid` | Sources/Models/ABMarker.swift:4-40 | from the fresh state, every sequence of operations keeps the invariant |
| `ABMarker.LoopBoundsOrdered` | Sources/Models/ABMarker.swift:13-21 | `loopStart` and `loopEnd` are defined together and `loopStart <= loopEnd` |
| `ABMarker.LoopBoundsSymmetric` | Sources/Models/ABMarker.swift:13-21 | swapping the two markers leaves both bounds unchanged |
| `ABMarker.ToggleTwice` | Sources/Models/ABMarker.swift:31-34 | two toggles restore the original state |
| `ABMarker.ClearIdempotent` | Sources/Models/ABMarker.swift:36-40 | clear yields the fresh state from any state and is idempotent |
| `ABMarker.ShouldLoopBackBoundary` | Sources/Models/ABMarker.swift:42-47 | never true while not looping or with a marker missing; otherwise true iff `p >= loopEnd`, including `p == loopEnd` |
| `ABMarker.MarkersSetOutOfOrder` | Sources/Models/ABMarker.swift:13-29 | A at 30 then B at 10 gives `hasMarkers`, `loopStart == 10`, `loopEnd == 30` |
| `ABMarker.ABMarkerState.constructor` | Sources/Models/ABMarker.swift:4-7 | both markers unset, not looping |
| `ABMarker.ABMarkerState.SetMarkerA` | Sources/Models/ABMarker.swift:23-25 | the new state is `Apply(old, SetA(position))` |
| `ABMarker.ABMarkerState.SetMarkerB` | Sources/Models/ABMarker.swift:27-29 | the new state is `Apply(old, SetB(position))` |
| `ABMarker.ABMarkerState.ToggleLoop` | Sources/Models/ABMarker.swift:31-34 | the new state is `Apply(old, Toggle)` |
| `ABMarker.ABMarkerState.ClearMarkers` | Sources/Models/ABMarker.swift:36-40 | the new state is `Apply(old, Clear)` |
| `ABMarker.TruncateToInt` | Sources/Models/ABMarker.swift:56 | `Int(x)` truncates toward zero: the floor for non-negative input, the ceiling for negative input |
| `ABMarker.Quot` | Sources/Models/ABMarker.swift:58-60 | Swift's `/` by a positive divisor truncates toward zero: the quotient has the dividend's sign and is the multiple of the divisor nearest zero that is still within one divisor of the dividend |
| `ABMarker.Rem` | Sources/Models/ABMarker.swift:57-59 | Swift's `%` by a positive divisor: the remainder has the dividend's sign, is smaller than the divisor, and recomposes the dividend with `Quot` |
| `ABMarker.FromTotalSeconds` | Sources/Models/ABMarker.swift:55-61 | a non-negative input gives in-range components; a negative input gives components that are all non-positive, with seconds above -60 and centiseconds above -100 |
| `ABMarker.TotalSeconds` | Sources/Models/ABMarker.swift:69-71 | `totalSeconds` is the total centisecond count divided by 100 |
| `ABMarker.FromTotalSecondsExact` | Sources/Models/ABMarker.swift:55-71 | converting seconds to components and back yields exactly `Int(seconds * 100)` centiseconds |
| `ABMarker.FromNonNegativeSeconds` | Sources/Models/ABMarker.swift:55-61 | for non-negative input: centiseconds 0..99, seconds 0..59, minutes >= 0, total equals the input floored to a centisecond, so less than 0.01 below it |
| `ABMarker.ComponentsRoundTrip` | Sources/Models/ABMarker.swift:55-71 | in-range components survive the trip through `totalSeconds` and back unchanged |
| `ABMarker.NormalizedUnique` | Sources/Models/ABMarker.swift:69-71 | two in-range triples with equal totals are equal |
| `HotkeyActions.AllCasesEnumerates` | Sources/Models/HotkeyAction.swift:4-10 | `allCases` has six entries, lists every action and has no repeats |
| `HotkeyActions.ActionType.RawValue` | Sources/Models/HotkeyAction.swift:4-10 | the case's raw string, non-empty and starting with the case's initial; distinct cases have distinct raw values (`RawValuesDistinct`) |
| `HotkeyActions.ActionType.IsSeekAction` | Sources/Models/HotkeyAction.swift:12-19 | true exactly for rewind and forward |
| `HotkeyActions.ActionType.SupportsValue` | Sources/Models/HotkeyAction.swift:21-23 | true exactly for rewind and forward, so it equals `IsSeekAction` (`SeekActions`) |
| `HotkeyActions.RawValuesDistinct` | Sources/Models/HotkeyAction.swift:4-10 | two actions have the same raw value iff they are the same action |
| `HotkeyActions.SeekActions` | Sources/Models/HotkeyAction.swift:12-23 | `isSeekAction` holds exactly for rewind and forward; `supportsValue == isSeekAction` |
| `HotkeyActions.HotkeyAction.TimeOffset` | Sources/Models/HotkeyAction.swift:39-48 | `-value` for rewind, `value` for forward, 0 for every other action |
| `HotkeyActions.NewHotkeyAction` | Sources/Models/HotkeyAction.swift:32-37 | a binding built without a value gets 5.0 and keeps the given id, name and action |
| `HotkeyActions.TimeOffsetDirection` | Sources/Models/HotkeyAction.swift:39-48 | with a non-negative magnitude, rewind offsets are <= 0 and forward offsets >= 0; the offset is 0 iff the action is not a seek or the magnitude is 0 |
| `MusicController.SeekTarget` | Sources/Services/MusicController.swift:42-49 | the seek target is `max(0, current + offset)`: non-negative, at least `current + offset`, and one of the two |
| `MusicController.MusicPlayer.GetPlayerPosition` | Sources/Services/MusicController.swift:16-28 | returns the player's position, or none when unavailable |
| `MusicController.MusicPlayer.SetPlayerPosition` | Sources/Services/MusicController.swift:31-39 | logs the request; it succeeds and moves the player iff a position is available |
| `MusicController.MusicPlayer.Seek` | Sources/Services/MusicController.swift:42-49 | without a position nothing is requested and it fails; otherwise exactly one request for `max(0, position + offset)` is issued |
| `Hotkeys.DefaultHotkeysShape` | Sources/Services/HotkeyManager.swift:31-43 | the defaults are exactly eight bindings in order (rewind, rewind, forward, forward, marker A, marker B, toggle, clear), with values 2, 5, 2, 5 and 5.0 for the rest, distinct names, and distinct ids when the given ids are distinct |
| `Hotkeys.DefaultHotkeys` | Sources/Services/HotkeyManager.swift:31-43 | eight bindings carrying the eight supplied ids in order, all with a positive magnitude, and every binding that takes no value holds the default 5.0 |
| `Hotkeys.RegistryOf` | Sources/Services/HotkeyManager.swift:47-56 | the registry's names are exactly the bindings' names; each entry is a listed binding registered under its own name |
| `Hotkeys.RegistryOfAgrees` | Sources/Services/HotkeyManager.swift:47-56 | registering a list with distinct names captures each binding as listed, and positive listed magnitudes stay positive in the registry |
| `Hotkeys.DefaultsWellFormed` | Sources/Services/HotkeyManager.swift:31-43 | with distinct ids, the defaults have distinct names and ids and positive magnitudes |
| `Hotkeys.RegisteringKeepsConsistent` | Sources/Services/HotkeyManager.swift:47-56 | registering every binding of a well-formed list yields a consistent manager |
| `Hotkeys.DefaultsRegistered` | Sources/Services/HotkeyManager.swift:23-27 | registering the defaults, which carry distinct ids, yields a consistent manager |
| `Hotkeys.RegistryOfSelects` | Sources/Services/HotkeyManager.swift:64-81 | with distinct names, each binding is registered as itself (by induction) |
| `Hotkeys.WithoutId` | Sources/Services/HotkeyManager.swift:93 | no remaining binding has the removed id, and the list never grows |
| `Hotkeys.WithoutIdMember` | Sources/Services/HotkeyManager.swift:93 | a binding remains iff it was listed and its id differs from the removed one |
| `Hotkeys.WithoutIdAppend` | Sources/Services/HotkeyManager.swift:93 | removal distributes over concatenation, so the remaining bindings keep their order |
| `Hotkeys.WithoutIdAbsent` | Sources/Services/HotkeyManager.swift:93 | removing an absent id leaves the list unchanged |
| `Hotkeys.WithoutIdRemovesEntry` | Sources/Services/HotkeyManager.swift:90-94 | with distinct ids, removing a listed binding's id removes exactly that binding and keeps the others in order |
| `Hotkeys.RemovalKeepsAgreement` | Sources/Services/HotkeyManager.swift:90-94 | unregistering a name and removing an id keeps every captured copy in agreement with the list and every magnitude positive |
| `Hotkeys.RemovalKeepsConsistent` | Sources/Services/HotkeyManager.swift:90-94 | removing a listed binding, or an id no binding has, keeps the manager consistent; removing a listed binding keeps every listed name registered; removing an absent id leaves the list as it was |
| `Hotkeys.WithoutIdKeepsDistinct` | Sources/Services/HotkeyManager.swift:93 | removal keeps names and ids distinct |
| `Hotkeys.FirstIndex` | Sources/Views/HotkeyTableView.swift:52 | the first position holding the id, or none when no binding has it |
| `Hotkeys.WithValue` | Sources/Views/HotkeyTableView.swift:52-54 | only the value of the first binding with the id changes, to `max(0.1, v)`; ids, names and actions stay |
| `Hotkeys.Dispatch` | Sources/Services/HotkeyManager.swift:98-119 | the effect table: a request iff a seek action and a position is available, to `max(0, position + timeOffset)`; markers set only with a position; toggle and clear go to the marker state; the invariant is kept |
| `Hotkeys.SeekDirection` | Sources/Services/HotkeyManager.swift:98-119 | requests are non-negative; rewinds never move forward and forwards never move back; without a position only toggle and clear act |
| `Hotkeys.RewindClampsAtStart` | Sources/Services/HotkeyManager.swift:98-101 | a 5 s rewind from 3 s requests 0 s, not -2 s |
| `Hotkeys.LoopBackRequest` | Sources/Services/HotkeyManager.swift:130-140 | a request iff looping, a position is available and `shouldLoopBack(position)`; it is to `loopStart` |
| `Hotkeys.LoopBackMovesBackward` | Sources/Services/HotkeyManager.swift:130-140 | a loop-back request is never later than the current position |
| `Hotkeys.LoopScenario` | Sources/Services/HotkeyManager.swift:130-140 | markers at 10 and 30, toggled on: no request at 29.9, a request to 10 at 30 |
| `Hotkeys.CapturedBindingKeepsOldValue` | Sources/Services/HotkeyManager.swift:64-81 | after the table sets `rewind2` to 10 s, the registered handler still rewinds 30 s to 28 s |
| `Hotkeys.HotkeyManager.constructor` | Sources/Services/HotkeyManager.swift:23-27 | the default bindings, all registered, hotkeys enabled, fresh marker state, nothing triggered |
| `Hotkeys.HotkeyManager.SetupDefaultHotkeys` | Sources/Services/HotkeyManager.swift:31-43 | the list becomes the defaults |
| `Hotkeys.HotkeyManager.RegisterHotkey` | Sources/Services/HotkeyManager.swift:64-81 | the binding is registered, captured, under its name; nothing else changes |
| `Hotkeys.HotkeyManager.RegisterAllHotkeys` | Sources/Services/HotkeyManager.swift:47-56 | the registry becomes `RegistryOf(hotkeys)`, whose names are exactly the listed names; the list is unchanged; a well-formed list gives a consistent manager |
| `Hotkeys.HotkeyManager.UnregisterAllHotkeys` | Sources/Services/HotkeyManager.swift:58-62 | the registry is emptied; the list is unchanged |
| `Hotkeys.HotkeyManager.SetHotkeysEnabled` | Sources/Services/HotkeyManager.swift:9-17 | enabling re-registers every binding, disabling unregisters all; the list never changes |
| `Hotkeys.HotkeyManager.AddHotkey` | Sources/Services/HotkeyManager.swift:83-88 | appends exactly one binding with the action and value 5.0, keeps earlier entries, registers its name even while disabled, keeps the invariants |
| `Hotkeys.HotkeyManager.RemoveHotkey` | Sources/Services/HotkeyManager.swift:90-94 | drops the name from the registry and every binding with the id from the list; an absent id leaves the list unchanged; removing a listed binding keeps the invariants |
| `Hotkeys.HotkeyManager.SetValue` | Sources/Views/HotkeyTableView.swift:52-54 | the list becomes `WithValue(old, id, v)`; the registered copies do not change |
| `Hotkeys.HotkeyManager.HandleAction` | Sources/Services/HotkeyManager.swift:98-119 | marker state and player end as `Dispatch` says, with at most one request logged |
| `Hotkeys.HotkeyManager.Fire` | Sources/Services/HotkeyManager.swift:64-81 | an unregistered name does nothing; a registered one sets `lastTriggeredHotkeyID` to the captured binding's id and acts on that captured binding; with a position available, a fired rewind never moves playback past `max(0, position)` and a fired forward never moves it back |
| `Hotkeys.HotkeyManager.CheckABLoop` | Sources/Services/HotkeyManager.swift:130-140 | issues exactly the request `LoopBackRequest` gives, and nothing otherwise |
| `MarkerViews.Clamped` | Sources/Views/ABMarkerView.swift:185-192 | each field is clamped on its own: minutes below 0 become 0, seconds outside 0..59 become the nearer of 0 and 59, centiseconds outside 0..99 the nearer of 0 and 99, and a field in range is kept; the result is in range |
| `MarkerViews.CarrySecond` | Sources/Views/ABMarkerView.swift:205-210 | `incrementSeconds` before its clamp keeps the centiseconds and, on in-range input, stays in range and adds exactly one second (100 centiseconds), carrying into the minutes at 59 |
| `MarkerViews.BorrowSecond` | Sources/Views/ABMarkerView.swift:214-219 | `decrementSeconds` before its clamp keeps the centiseconds and, on in-range input, stays in range; above 00:00 it removes exactly one second, and at 00:00 it wraps the seconds to 59 with the minutes held at 0 |
| `MarkerViews.Stepped` | Sources/Views/ABMarkerView.swift:195-241 | every button press leaves the components in range |
| `MarkerViews.MinuteSteps` | Sources/Views/ABMarkerView.swift:195-203 | increment adds exactly one minute; decrement removes one and never goes below 0 |
| `MarkerViews.SecondSteps` | Sources/Views/ABMarkerView.swift:205-221 | 59 wraps to 0 with a carry, 0 wraps to 59 with a borrow floored at 0 minutes, otherwise plus or minus one second |
| `MarkerViews.CentisecondWraps` | Sources/Views/ABMarkerView.swift:223-241 | 99 wraps to 0 and carries into seconds; 0 wraps to 99 and borrows from seconds |
| `MarkerViews.IncrementCentisecondsAddsOne` | Sources/Views/ABMarkerView.swift:205-231 | from any in-range state the total grows by exactly one centisecond |
| `MarkerViews.DecrementCentisecondsRemovesOne` | Sources/Views/ABMarkerView.swift:214-241 | from an in-range non-zero state the total drops by exactly one centisecond; 00:00.00 wraps up to 00:59.99 |
| `MarkerViews.CentisecondStepsInverse` | Sources/Views/ABMarkerView.swift:223-241 | on in-range states the two centisecond buttons undo each other, except decrementing from 00:00.00 |
| `MarkerViews.TimeInputView.SetComponents` | Sources/Views/ABMarkerView.swift:60-61 | the binding holds exactly the assigned triple |
| `MarkerViews.TimeInputView.UpdateTime` | Sources/Views/ABMarkerView.swift:185-192 | clamps each field, then reports `totalSeconds` of the clamped triple |
| `MarkerViews.TimeInputView.IncrementMinutes` | Sources/Views/ABMarkerView.swift:195-198 | the triple becomes `Stepped(old, IncrementMinutes)` and its total is reported |
| `MarkerViews.TimeInputView.DecrementMinutes` | Sources/Views/ABMarkerView.swift:200-203 | the triple becomes `Stepped(old, DecrementMinutes)` and its total is reported |
| `MarkerViews.TimeInputView.IncrementSeconds` | Sources/Views/ABMarkerView.swift:205-212 | the triple becomes `Stepped(old, IncrementSeconds)` and its total is reported |
| `MarkerViews.TimeInputView.DecrementSeconds` | Sources/Views/ABMarkerView.swift:214-221 | the triple becomes `Stepped(old, DecrementSeconds)` and its total is reported |
| `MarkerViews.TimeInputView.IncrementCentiseconds` | Sources/Views/ABMarkerView.swift:223-231 | the triple becomes `Stepped(old, IncrementCentiseconds)` and its total is reported |
| `MarkerViews.TimeInputView.DecrementCentiseconds` | Sources/Views/ABMarkerView.swift:233-241 | the triple becomes `Stepped(old, DecrementCentiseconds)` and its total is reported |
| `MarkerViews.TimeInputView.Press` | Sources/Views/ABMarkerView.swift:96-172 | a press of any of the six buttons yields `Stepped(old, step)` and reports its total |
| `MarkerViews.ABMarkerView.constructor` | Sources/Views/ABMarkerView.swift:6-7 | both triples start at 00:00.00 and are distinct objects |
| `MarkerViews.ABMarkerView.StepMarkerA` | Sources/Views/ABMarkerView.swift:22-28 | while marker A is unset the stepper is disabled and nothing changes; otherwise the triple is stepped and marker A becomes its total |
| `MarkerViews.ABMarkerView.StepMarkerB` | Sources/Views/ABMarkerView.swift:37-43 | the same for marker B |
| `MarkerViews.ABMarkerView.ClearMarkers` | Sources/Views/ABMarkerView.swift:58-63 | with both markers set, clears the state and resets both triples to 00:00.00; otherwise the button is disabled and nothing changes |

## Left out

- AppleScript execution (`executeAppleScript`, parsing its output as a number) is replaced by the abstract player. Whether a set-position call succeeds is modelled as "a position is available", not as an independent failure.
- `isPlaying` and `getCurrentTrackDuration` are not used by the core and are not modelled.
- The shortcut library is not modelled (`onKeyUp`, `disable`, key defaults, the recorder widget). The model keeps one registered handler per name. The library's own handler bookkeeping across disable and re-registration is not part of this model.
- The shortcut names `rewind10` and `forward10` are declared but never used, so they are not modelled.
- The 100 ms timer is not modelled. `CheckABLoop` is one tick of it.
- The 0.5 s delayed clearing of `lastTriggeredHotkeyID` is a run-loop timing concern and is not modelled.
- Floating point is not modelled: positions and totals are exact reals. `Int(seconds * 100)` is exact truncation, without rounding artefacts and without the trap on values out of `Int` range.
- `formattedString` is `String(format:)` rendering and is not modelled.
- SwiftUI presentation is not modelled: view bodies, the text fields, the `onChange` re-entry of `updateTime`, the `onChange` that copies markers into the triples, the Loop Active toggle, the settings and menu views, and window management.
- Because the `onChange` re-entry is not modelled, the model misses an effect of Clear Markers. Reading `Sources/Views/ABMarkerView.swift` suggests the following. When Clear Markers resets non-zero triples (lines 60-61), the `onChange` handlers at lines 108-110, 136-138 and 164-166 would call `updateTime` and then `onUpdate(0.0)`. That can set both markers back to 0.0. In the model, Clear Markers leaves both markers unset.
- Because the shortcut library's bookkeeping is not modelled, the model keeps one handler per name. In the library, `onKeyUp` adds a handler rather than replacing the old one. After re-registration a captured old binding may fire together with the new one.
- Swift traps on `Int` overflow, for example in `minutes += 1` and `minutes * 60`. Integers in the model are unbounded, so that trap is not modelled.
- Concurrency is not modelled: every operation runs to completion on one thread, as on the main run loop.
- `Hotkeys.HotkeyManager.AddHotkey`: requires the new id and name to be unused, which stands for the uniqueness of freshly generated `UUID`s.
