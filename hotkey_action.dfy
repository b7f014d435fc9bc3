/**
 * Hotkey actions (Sources/Models/HotkeyAction.swift): the six action kinds
 * and the binding record that pairs a shortcut name with an action and a
 * seek magnitude.
 */
module HotkeyActions {

  /** Stands for the `UUID` that identifies a binding. */
  type HotkeyId = nat

  /** Stands for `KeyboardShortcuts.Name`, identified by its raw string. */
  type ShortcutName = string

  datatype ActionType = Rewind | Forward | SetMarkerA | SetMarkerB | ToggleABLoop | ClearMarkers
  {
    /** The enum's `String` raw value, shown in the bindings table. */
    function RawValue(): (r: string)
      ensures |r| > 0
      ensures r[0] == (match this
        case Rewind => 'R' case Forward => 'F' case SetMarkerA | SetMarkerB => 'S'
        case ToggleABLoop => 'T' case ClearMarkers => 'C')
    {
      match this
      case Rewind => "Rewind"
      case Forward => "Forward"
      case SetMarkerA => "Set Marker A"
      case SetMarkerB => "Set Marker B"
      case ToggleABLoop => "Toggle A-B Loop"
      case ClearMarkers => "Clear Markers"
    }

    /** `isSeekAction`. */
    predicate IsSeekAction(): (r: bool)
      ensures r <==> this == Rewind || this == Forward
    {
      match this
      case Rewind | Forward => true
      case _ => false
    }

    /** `supportsValue`: only seek actions carry a magnitude. */
    predicate SupportsValue(): (r: bool)
      ensures r <==> this == Rewind || this == Forward
    {
      IsSeekAction()
    }
  }

  /** `ActionType.allCases`, in declaration order. */
  const AllCases: seq<ActionType> := [Rewind, Forward, SetMarkerA, SetMarkerB, ToggleABLoop, ClearMarkers]

  /** `allCases` lists each of the six actions exactly once. */
  lemma AllCasesEnumerates()
    ensures |AllCases| == 6
    ensures forall a: ActionType :: a in AllCases
    ensures forall i, j | 0 <= i < j < |AllCases| :: AllCases[i] != AllCases[j]
  {
    forall a: ActionType ensures a in AllCases {
      match a
      case Rewind => assert AllCases[0] == a;
      case Forward => assert AllCases[1] == a;
      case SetMarkerA => assert AllCases[2] == a;
      case SetMarkerB => assert AllCases[3] == a;
      case ToggleABLoop => assert AllCases[4] == a;
      case ClearMarkers => assert AllCases[5] == a;
    }
  }

  /** The raw values are pairwise distinct, so a raw value names one action. */
  lemma RawValuesDistinct(a: ActionType, b: ActionType)
    ensures a.RawValue() == b.RawValue() <==> a == b
  {
  }

  /** Exactly rewind and forward are seek actions, and exactly they support a value. */
  lemma SeekActions(a: ActionType)
    ensures a.IsSeekAction() <==> a == Rewind || a == Forward
    ensures a.SupportsValue() == a.IsSeekAction()
  {
  }

  /** The magnitude a binding gets when none is given. */
  const DefaultValue: real := 5.0

  /** A binding: identity, shortcut name, action and, for seek actions, seconds. */
  datatype HotkeyAction = HotkeyAction(id: HotkeyId, shortcutName: ShortcutName, action: ActionType, value: real)
  {
    /** `timeOffset`: the signed seek amount. */
    function TimeOffset(): (r: real)
      ensures action == Rewind ==> r == -value
      ensures action == Forward ==> r == value
      ensures !action.IsSeekAction() ==> r == 0.0
    {
      match action
      case Rewind => -value
      case Forward => value
      case _ => 0.0
    }
  }

  /** `HotkeyAction(id:shortcutName:action:)` with the defaulted `value`. */
  function NewHotkeyAction(id: HotkeyId, shortcutName: ShortcutName, action: ActionType): (h: HotkeyAction)
    ensures h.value == DefaultValue
    ensures h.id == id && h.shortcutName == shortcutName && h.action == action
  {
    HotkeyAction(id, shortcutName, action, DefaultValue)
  }

  /** A seek binding with a non-negative magnitude moves backward for rewind and forward for forward. */
  lemma TimeOffsetDirection(h: HotkeyAction)
    requires h.value >= 0.0
    ensures h.action == Rewind ==> h.TimeOffset() <= 0.0
    ensures h.action == Forward ==> h.TimeOffset() >= 0.0
    ensures h.TimeOffset() == 0.0 <==> !h.action.IsSeekAction() || h.value == 0.0
  {
  }
}
