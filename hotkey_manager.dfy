/**
 * The hotkey dispatcher (Sources/Services/HotkeyManager.swift): the list of
 * bindings, the registry of shortcuts handed to the shortcut library, the
 * A-B marker state, the effect each action has on the marker state and the
 * player, and the periodic A-B loop check.
 *
 * The registry maps each registered shortcut name to the `HotkeyAction`
 * that its key-up handler captured when it was registered: its key set is
 * `registeredShortcuts`, and a fired shortcut acts on that captured copy,
 * not on the current entry of the list.
 */
module Hotkeys {
  import opened Wrappers
  import opened ABMarker
  import opened HotkeyActions
  import opened MusicController

  // ---------------------------------------------------------------------
  // The binding list

  /** The shortcut names used by a list of bindings. */
  function Names(hs: seq<HotkeyAction>): set<ShortcutName> {
    set h | h in hs :: h.shortcutName
  }

  predicate NamesDistinct(hs: seq<HotkeyAction>) {
    forall i, j | 0 <= i < j < |hs| :: hs[i].shortcutName != hs[j].shortcutName
  }

  predicate IdsDistinct(hs: seq<HotkeyAction>) {
    forall i, j | 0 <= i < j < |hs| :: hs[i].id != hs[j].id
  }

  lemma DistinctNamesIdentify(hs: seq<HotkeyAction>, a: HotkeyAction, b: HotkeyAction)
    requires NamesDistinct(hs) && a in hs && b in hs
    requires a.shortcutName == b.shortcutName
    ensures a == b
  {
    var i :| 0 <= i < |hs| && hs[i] == a;
    var j :| 0 <= j < |hs| && hs[j] == b;
    assert !(i < j) && !(j < i);
  }

  lemma DistinctIdsIdentify(hs: seq<HotkeyAction>, a: HotkeyAction, b: HotkeyAction)
    requires IdsDistinct(hs) && a in hs && b in hs
    requires a.id == b.id
    ensures a == b
  {
    var i :| 0 <= i < |hs| && hs[i] == a;
    var j :| 0 <= j < |hs| && hs[j] == b;
    assert !(i < j) && !(j < i);
  }

  function ActionsOf(hs: seq<HotkeyAction>): seq<ActionType> {
    seq(|hs|, k requires 0 <= k < |hs| => hs[k].action)
  }

  function ValuesOf(hs: seq<HotkeyAction>): seq<real> {
    seq(|hs|, k requires 0 <= k < |hs| => hs[k].value)
  }

  /** `setupDefaultHotkeys()`, with the eight fresh `UUID`s supplied by the caller. */
  function DefaultHotkeys(ids: seq<HotkeyId>): (r: seq<HotkeyAction>)
    requires |ids| == 8
    ensures |r| == 8
    ensures forall k | 0 <= k < 8 :: r[k].id == ids[k] && r[k].value > 0.0
    ensures forall k | 0 <= k < 8 :: !r[k].action.SupportsValue() ==> r[k].value == DefaultValue
  {
    [ HotkeyAction(ids[0], "rewind2", Rewind, 2.0),
      HotkeyAction(ids[1], "rewind5", Rewind, 5.0),
      HotkeyAction(ids[2], "forward2", Forward, 2.0),
      HotkeyAction(ids[3], "forward5", Forward, 5.0),
      NewHotkeyAction(ids[4], "setMarkerA", SetMarkerA),
      NewHotkeyAction(ids[5], "setMarkerB", SetMarkerB),
      NewHotkeyAction(ids[6], "toggleABLoop", ToggleABLoop),
      NewHotkeyAction(ids[7], "clearMarkers", ClearMarkers) ]
  }

  /**
   * The defaults are eight bindings, in order two rewinds, two forwards,
   * marker A, marker B, toggle and clear, with magnitudes 2, 5, 2, 5 on the
   * seek bindings and the default 5 elsewhere, under distinct names.
   */
  lemma DefaultHotkeysShape(ids: seq<HotkeyId>)
    requires |ids| == 8
    ensures |DefaultHotkeys(ids)| == 8
    ensures forall k | 0 <= k < 8 :: DefaultHotkeys(ids)[k].id == ids[k]
    ensures ActionsOf(DefaultHotkeys(ids)) ==
      [Rewind, Rewind, Forward, Forward, SetMarkerA, SetMarkerB, ToggleABLoop, ClearMarkers]
    ensures ValuesOf(DefaultHotkeys(ids)) == [2.0, 5.0, 2.0, 5.0, 5.0, 5.0, 5.0, 5.0]
    ensures NamesDistinct(DefaultHotkeys(ids))
    ensures (forall i, j | 0 <= i < j < 8 :: ids[i] != ids[j]) ==> IdsDistinct(DefaultHotkeys(ids))
  {
  }

  // ---------------------------------------------------------------------
  // Registration

  /**
   * The registry `registerAllHotkeys()` builds: each binding, in list
   * order, registered under its own name.
   */
  function RegistryOf(hs: seq<HotkeyAction>): (r: map<ShortcutName, HotkeyAction>)
    ensures r.Keys == Names(hs)
    ensures forall n | n in r :: r[n].shortcutName == n && r[n] in hs
    decreases |hs|
  {
    if hs == [] then map[]
    else
      var last := hs[|hs| - 1];
      var front := hs[..|hs| - 1];
      assert hs == front + [last];
      assert Names(hs) == Names(front) + {last.shortcutName};
      RegistryOf(front)[last.shortcutName := last]
  }

  /** With distinct names, every binding is registered as itself. */
  lemma {:induction false} RegistryOfSelects(hs: seq<HotkeyAction>, i: int)
    requires NamesDistinct(hs) && 0 <= i < |hs|
    ensures hs[i].shortcutName in RegistryOf(hs)
    ensures RegistryOf(hs)[hs[i].shortcutName] == hs[i]
    decreases |hs|
  {
    if i < |hs| - 1 {
      var front := hs[..|hs| - 1];
      assert front[i] == hs[i];
      RegistryOfSelects(front, i);
    }
  }

  /** What the key-up handler captured for a registry built from a list and edited afterwards. */
  predicate RegistryCaptures(registry: map<ShortcutName, HotkeyAction>, hs: seq<HotkeyAction>) {
    forall n | n in registry :: registry[n].shortcutName == n && n in Names(hs)
  }

  /**
   * `id` and `action` are `let` fields of `HotkeyAction`, so a captured copy
   * can differ from the listed binding of its name only in its magnitude.
   */
  predicate RegistryAgrees(registry: map<ShortcutName, HotkeyAction>, hs: seq<HotkeyAction>) {
    forall n, h | n in registry && h in hs && h.shortcutName == n ::
      registry[n].id == h.id && registry[n].action == h.action
  }

  /** Every magnitude, listed or captured, is positive. */
  predicate MagnitudesPositive(registry: map<ShortcutName, HotkeyAction>, hs: seq<HotkeyAction>) {
    && (forall h | h in hs :: h.value > 0.0)
    && (forall n | n in registry :: registry[n].value > 0.0)
  }

  /** Registering every binding of a list with distinct names captures each one as listed. */
  lemma RegistryOfAgrees(hs: seq<HotkeyAction>)
    requires NamesDistinct(hs)
    ensures RegistryAgrees(RegistryOf(hs), hs)
    ensures (forall h | h in hs :: h.value > 0.0) ==> MagnitudesPositive(RegistryOf(hs), hs)
  {
    var r := RegistryOf(hs);
    forall n, h | n in r && h in hs && h.shortcutName == n
      ensures r[n].id == h.id && r[n].action == h.action
    {
      DistinctNamesIdentify(hs, r[n], h);
    }
  }

  /** The list on its own: distinct names, distinct ids, positive magnitudes. */
  predicate WellFormed(hs: seq<HotkeyAction>) {
    NamesDistinct(hs) && IdsDistinct(hs) && forall h | h in hs :: h.value > 0.0
  }

  /**
   * What the manager keeps true of its list and registry: names and ids
   * are distinct, each captured copy is registered under its own listed
   * name and agrees with that binding, and every magnitude is positive.
   */
  predicate Consistent(registry: map<ShortcutName, HotkeyAction>, hs: seq<HotkeyAction>) {
    && WellFormed(hs)
    && RegistryCaptures(registry, hs)
    && RegistryAgrees(registry, hs)
    && MagnitudesPositive(registry, hs)
  }

  /** Registering the defaults, which carry distinct ids, yields a consistent manager. */
  lemma DefaultsRegistered(ids: seq<HotkeyId>)
    requires |ids| == 8 && forall i, j | 0 <= i < j < 8 :: ids[i] != ids[j]
    ensures Consistent(RegistryOf(DefaultHotkeys(ids)), DefaultHotkeys(ids))
  {
    var hs := DefaultHotkeys(ids);
    DefaultsWellFormed(ids);
    RegisteringKeepsConsistent(hs);
  }

  /** The defaults, given distinct ids, have distinct names and ids and positive magnitudes. */
  lemma DefaultsWellFormed(ids: seq<HotkeyId>)
    requires |ids| == 8 && forall i, j | 0 <= i < j < 8 :: ids[i] != ids[j]
    ensures WellFormed(DefaultHotkeys(ids))
  {
    var hs := DefaultHotkeys(ids);
    DefaultHotkeysShape(ids);
    forall h | h in hs ensures h.value > 0.0 {
      var k :| 0 <= k < |hs| && hs[k] == h;
    }
  }

  /** Registering every binding of a well-formed list yields a consistent manager. */
  lemma RegisteringKeepsConsistent(hs: seq<HotkeyAction>)
    requires WellFormed(hs)
    ensures Consistent(RegistryOf(hs), hs)
  {
    RegistryOfAgrees(hs);
  }

  // ---------------------------------------------------------------------
  // Removing and editing bindings

  /** `hotkeys.removeAll { $0.id == id }`. */
  function WithoutId(hs: seq<HotkeyAction>, id: HotkeyId): (r: seq<HotkeyAction>)
    ensures forall k | 0 <= k < |r| :: r[k].id != id
    ensures |r| <= |hs|
    decreases |hs|
  {
    if hs == [] then []
    else (if hs[0].id == id then [] else [hs[0]]) + WithoutId(hs[1..], id)
  }

  /** A binding survives removal iff it was listed and has another id. */
  lemma {:induction false} WithoutIdMember(hs: seq<HotkeyAction>, id: HotkeyId, h: HotkeyAction)
    ensures h in WithoutId(hs, id) <==> h in hs && h.id != id
    decreases |hs|
  {
    if hs != [] {
      WithoutIdMember(hs[1..], id, h);
      assert hs == [hs[0]] + hs[1..];
    }
  }

  /** Removal works element by element, so the remaining bindings keep their order. */
  lemma {:induction false} WithoutIdAppend(a: seq<HotkeyAction>, b: seq<HotkeyAction>, id: HotkeyId)
    ensures WithoutId(a + b, id) == WithoutId(a, id) + WithoutId(b, id)
    decreases |a|
  {
    if a == [] {
      assert a + b == b;
    } else {
      var head := if a[0].id == id then [] else [a[0]];
      assert (a + b)[0] == a[0];
      assert (a + b)[1..] == a[1..] + b;
      calc {
        WithoutId(a + b, id);
        head + WithoutId(a[1..] + b, id);
        { WithoutIdAppend(a[1..], b, id); }
        head + (WithoutId(a[1..], id) + WithoutId(b, id));
        (head + WithoutId(a[1..], id)) + WithoutId(b, id);
        WithoutId(a, id) + WithoutId(b, id);
      }
    }
  }

  /** Removing an id no binding has leaves the list unchanged. */
  lemma {:induction false} WithoutIdAbsent(hs: seq<HotkeyAction>, id: HotkeyId)
    requires forall k | 0 <= k < |hs| :: hs[k].id != id
    ensures WithoutId(hs, id) == hs
    decreases |hs|
  {
    if hs != [] {
      WithoutIdAbsent(hs[1..], id);
    }
  }

  /** With distinct ids, removing the id of the binding at `i` removes exactly that binding. */
  lemma WithoutIdRemovesEntry(hs: seq<HotkeyAction>, i: int)
    requires IdsDistinct(hs) && 0 <= i < |hs|
    ensures WithoutId(hs, hs[i].id) == hs[..i] + hs[i + 1..]
  {
    var front, x, back := hs[..i], hs[i], hs[i + 1..];
    forall k | 0 <= k < |front| ensures front[k].id != x.id {
      assert front[k] == hs[k];
    }
    forall k | 0 <= k < |back| ensures back[k].id != x.id {
      assert back[k] == hs[i + 1 + k];
    }
    SplitAt(hs, i);
    WithoutIdSplice(front, x, back);
  }

  lemma SplitAt(hs: seq<HotkeyAction>, i: int)
    requires 0 <= i < |hs|
    ensures hs == hs[..i] + ([hs[i]] + hs[i + 1..])
  {
  }

  lemma WithoutIdSplice(front: seq<HotkeyAction>, x: HotkeyAction, back: seq<HotkeyAction>)
    requires forall k | 0 <= k < |front| :: front[k].id != x.id
    requires forall k | 0 <= k < |back| :: back[k].id != x.id
    ensures WithoutId(front + ([x] + back), x.id) == front + back
  {
    WithoutIdAbsent(front, x.id);
    WithoutIdAbsent(back, x.id);
    WithoutIdDropsHead(x, back);
    WithoutIdAppend(front, [x] + back, x.id);
  }

  lemma WithoutIdDropsHead(x: HotkeyAction, back: seq<HotkeyAction>)
    ensures WithoutId([x] + back, x.id) == WithoutId(back, x.id)
  {
    assert ([x] + back)[1..] == back;
  }

  lemma DistinctTail(hs: seq<HotkeyAction>)
    requires hs != [] && NamesDistinct(hs) && IdsDistinct(hs)
    ensures NamesDistinct(hs[1..]) && IdsDistinct(hs[1..])
  {
    var tail := hs[1..];
    forall i, j | 0 <= i < j < |tail|
      ensures tail[i].shortcutName != tail[j].shortcutName && tail[i].id != tail[j].id
    {
      assert tail[i] == hs[i + 1] && tail[j] == hs[j + 1];
    }
  }

  lemma DistinctCons(x: HotkeyAction, rest: seq<HotkeyAction>)
    requires NamesDistinct(rest) && IdsDistinct(rest)
    requires forall h | h in rest :: h.shortcutName != x.shortcutName && h.id != x.id
    ensures NamesDistinct([x] + rest) && IdsDistinct([x] + rest)
  {
    var r := [x] + rest;
    forall i, j | 0 <= i < j < |r|
      ensures r[i].shortcutName != r[j].shortcutName && r[i].id != r[j].id
    {
      assert r[j] == rest[j - 1] && r[j] in rest;
      if i > 0 {
        assert r[i] == rest[i - 1];
      }
    }
  }

  /** Removal keeps names and ids distinct. */
  lemma {:induction false} WithoutIdKeepsDistinct(hs: seq<HotkeyAction>, id: HotkeyId)
    requires NamesDistinct(hs) && IdsDistinct(hs)
    ensures NamesDistinct(WithoutId(hs, id)) && IdsDistinct(WithoutId(hs, id))
    decreases |hs|
  {
    if hs != [] {
      var tail := hs[1..];
      DistinctTail(hs);
      WithoutIdKeepsDistinct(tail, id);
      var rest := WithoutId(tail, id);
      if hs[0].id != id {
        forall h | h in rest ensures h.shortcutName != hs[0].shortcutName && h.id != hs[0].id {
          WithoutIdMember(tail, id, h);
          var k :| 0 <= k < |tail| && tail[k] == h;
          assert hs[k + 1] == h;
        }
        DistinctCons(hs[0], rest);
      }
    }
  }

  /**
   * Unregistering a name and removing the bindings with an id keeps the
   * captured copies in agreement with the list and every magnitude positive.
   */
  lemma RemovalKeepsAgreement(registry: map<ShortcutName, HotkeyAction>, hs: seq<HotkeyAction>,
                              name: ShortcutName, id: HotkeyId)
    requires RegistryAgrees(registry, hs) && MagnitudesPositive(registry, hs)
    ensures RegistryAgrees(registry - {name}, WithoutId(hs, id))
    ensures MagnitudesPositive(registry - {name}, WithoutId(hs, id))
  {
    var rest := WithoutId(hs, id);
    forall h | h in rest ensures h in hs {
      WithoutIdMember(hs, id, h);
    }
  }

  /**
   * `removeHotkey(_:)` on values: for a listed binding, or for an id no
   * binding has, unregistering the name and removing the id keeps the
   * manager consistent; removing a listed binding keeps every listed name
   * registered, and removing an absent id leaves the list as it was.
   */
  lemma RemovalKeepsConsistent(registry: map<ShortcutName, HotkeyAction>, hs: seq<HotkeyAction>,
                               hotkey: HotkeyAction)
    requires Consistent(registry, hs)
    requires hotkey in hs || forall h | h in hs :: h.id != hotkey.id
    ensures Consistent(registry - {hotkey.shortcutName}, WithoutId(hs, hotkey.id))
    ensures hotkey in hs && registry.Keys == Names(hs) ==>
      (registry - {hotkey.shortcutName}).Keys == Names(WithoutId(hs, hotkey.id))
    ensures (forall h | h in hs :: h.id != hotkey.id) ==> WithoutId(hs, hotkey.id) == hs
  {
    var reg, rest := registry - {hotkey.shortcutName}, WithoutId(hs, hotkey.id);
    WithoutIdKeepsDistinct(hs, hotkey.id);
    RemovalKeepsAgreement(registry, hs, hotkey.shortcutName, hotkey.id);
    forall n | n in reg ensures n in Names(rest) {
      var e :| e in hs && e.shortcutName == n;
      if e.id == hotkey.id {
        DistinctIdsIdentify(hs, e, hotkey);
      }
      WithoutIdMember(hs, hotkey.id, e);
    }
    if hotkey in hs && registry.Keys == Names(hs) {
      forall n | n in Names(rest) ensures n in reg {
        var e :| e in rest && e.shortcutName == n;
        WithoutIdMember(hs, hotkey.id, e);
        if n == hotkey.shortcutName {
          DistinctNamesIdentify(hs, e, hotkey);
        }
      }
    }
    if forall h | h in hs :: h.id != hotkey.id {
      assert forall k | 0 <= k < |hs| :: hs[k] in hs;
      WithoutIdAbsent(hs, hotkey.id);
    }
  }

  /** `hotkeys.firstIndex(where: { $0.id == id })`. */
  function FirstIndex(hs: seq<HotkeyAction>, id: HotkeyId): (r: Option<nat>)
    ensures r.Some? ==> r.value < |hs| && hs[r.value].id == id
    ensures r.Some? ==> forall k | 0 <= k < r.value :: hs[k].id != id
    ensures r.None? ==> forall k | 0 <= k < |hs| :: hs[k].id != id
    decreases |hs|
  {
    if hs == [] then None
    else if hs[0].id == id then Some(0)
    else
      match FirstIndex(hs[1..], id)
      case None => None
      case Some(k) => Some(k + 1)
  }

  /** The smallest magnitude the bindings table accepts. */
  const MinValue: real := 0.1

  /**
   * The table's value setter (Sources/Views/HotkeyTableView.swift):
   * the first binding with this id gets `max(0.1, newValue)`.
   */
  function WithValue(hs: seq<HotkeyAction>, id: HotkeyId, newValue: real): (r: seq<HotkeyAction>)
    ensures |r| == |hs|
    ensures forall k | 0 <= k < |hs| ::
      r[k].id == hs[k].id && r[k].shortcutName == hs[k].shortcutName && r[k].action == hs[k].action
    ensures forall k | 0 <= k < |hs| :: r[k] != hs[k] ==> FirstIndex(hs, id) == Some(k)
    ensures FirstIndex(hs, id).Some? ==> r[FirstIndex(hs, id).value].value == MaxReal(MinValue, newValue)
  {
    match FirstIndex(hs, id)
    case None => hs
    case Some(i) => hs[i := hs[i].(value := MaxReal(MinValue, newValue))]
  }

  /** Two lists with the same name at every position use the same names. */
  lemma SameNames(a: seq<HotkeyAction>, b: seq<HotkeyAction>)
    requires |a| == |b|
    requires forall k | 0 <= k < |a| :: a[k].shortcutName == b[k].shortcutName
    ensures Names(a) == Names(b)
  {
    forall n | n in Names(a) ensures n in Names(b) {
      var h :| h in a && h.shortcutName == n;
      var k :| 0 <= k < |a| && a[k] == h;
      assert b[k] in b;
    }
    forall n | n in Names(b) ensures n in Names(a) {
      var h :| h in b && h.shortcutName == n;
      var k :| 0 <= k < |b| && b[k] == h;
      assert a[k] in a;
    }
  }

  // ---------------------------------------------------------------------
  // Dispatch

  /** What one action does: the new marker state and the set-position request, if any. */
  datatype Outcome = Outcome(markers: Markers, request: Option<real>)

  /** The log entries one optional request adds. */
  function Requested(request: Option<real>): seq<real> {
    match request
    case Some(p) => [p]
    case None => []
  }

  /**
   * `handleAction(_:)`: seek actions go through `seek(bySeconds:)`, marker
   * actions need the player position, toggle and clear go to the marker
   * state.
   */
  function Dispatch(h: HotkeyAction, position: Option<real>, m: Markers): (o: Outcome)
    ensures o.request.Some? <==> h.action.IsSeekAction() && position.Some?
    ensures o.request.Some? ==> o.request.value == SeekTarget(position.value, h.TimeOffset())
    ensures h.action.IsSeekAction() ==> o.markers == m
    ensures h.action == SetMarkerA ==> o.markers == if position.Some? then Apply(m, SetA(position.value)) else m
    ensures h.action == SetMarkerB ==> o.markers == if position.Some? then Apply(m, SetB(position.value)) else m
    ensures h.action == ToggleABLoop ==> o.markers == Apply(m, Toggle)
    ensures h.action == ClearMarkers ==> o.markers == Apply(m, Clear)
    ensures m.Valid() ==> o.markers.Valid()
  {
    match h.action
    case Rewind | Forward =>
      Outcome(m, if position.Some? then Some(SeekTarget(position.value, h.TimeOffset())) else None)
    case SetMarkerA =>
      Outcome(if position.Some? then Apply(m, SetA(position.value)) else m, None)
    case SetMarkerB =>
      Outcome(if position.Some? then Apply(m, SetB(position.value)) else m, None)
    case ToggleABLoop => Outcome(Apply(m, Toggle), None)
    case ClearMarkers => Outcome(Apply(m, Clear), None)
  }

  /**
   * A seek request is never before the start of the track, rewinds by a
   * non-negative magnitude move back and forwards move on; without a
   * position nothing but toggle and clear has any effect.
   */
  lemma SeekDirection(h: HotkeyAction, position: Option<real>, m: Markers)
    requires h.value >= 0.0
    ensures var o := Dispatch(h, position, m);
      && (o.request.Some? ==> o.request.value >= 0.0)
      && (o.request.Some? && h.action == Rewind ==> o.request.value <= MaxReal(0.0, position.value))
      && (o.request.Some? && h.action == Forward ==> o.request.value >= position.value)
      && (position.None? ==> o.request.None? && (h.action.IsSeekAction() || h.action == SetMarkerA || h.action == SetMarkerB ==> o.markers == m))
  {
  }

  /** Rewinding 5 s from 3 s asks for 0 s, not -2 s. */
  lemma RewindClampsAtStart(id: HotkeyId, name: ShortcutName, m: Markers)
    ensures Dispatch(NewHotkeyAction(id, name, Rewind), Some(3.0), m).request == Some(0.0)
  {
  }

  /** `checkABLoop()`: the request the loop check issues, if any. */
  function LoopBackRequest(m: Markers, position: Option<real>): (r: Option<real>)
    ensures r.Some? <==> m.isLooping && position.Some? && m.ShouldLoopBack(position.value)
    ensures r.Some? ==> r == m.LoopStart()
  {
    if !m.isLooping || position.None? || m.LoopStart().None? then None
    else if m.ShouldLoopBack(position.value) then m.LoopStart()
    else None
  }

  /** A loop-back never moves playback forward. */
  lemma LoopBackMovesBackward(m: Markers, position: Option<real>)
    ensures LoopBackRequest(m, position).Some? ==> LoopBackRequest(m, position).value <= position.value
  {
  }

  /** Markers at 10 and 30, looping: at 29.9 nothing happens, at 30 playback goes back to 10. */
  lemma LoopScenario()
    ensures Apply(Markers(Some(10.0), Some(30.0), false), Toggle).isLooping
    ensures LoopBackRequest(Apply(Markers(Some(10.0), Some(30.0), false), Toggle), Some(29.9)) == None
    ensures LoopBackRequest(Apply(Markers(Some(10.0), Some(30.0), false), Toggle), Some(30.0)) == Some(10.0)
  {
  }

  /**
   * A key-up handler acts on the binding it captured: after the table edits
   * the magnitude of `rewind2` to 10 s, the registered handler still
   * rewinds by 2 s.
   */
  lemma CapturedBindingKeepsOldValue(ids: seq<HotkeyId>, m: Markers)
    requires |ids| == 8 && forall i, j | 0 <= i < j < 8 :: ids[i] != ids[j]
    ensures WithValue(DefaultHotkeys(ids), ids[0], 10.0)[0].value == 10.0
    ensures "rewind2" in RegistryOf(DefaultHotkeys(ids))
    ensures Dispatch(RegistryOf(DefaultHotkeys(ids))["rewind2"], Some(30.0), m).request == Some(28.0)
  {
    var hs := DefaultHotkeys(ids);
    DefaultHotkeysShape(ids);
    RegistryOfSelects(hs, 0);
  }

  // ---------------------------------------------------------------------
  // The manager

  class HotkeyManager {
    var hotkeys: seq<HotkeyAction>
    const abMarkerState: ABMarkerState
    /** `MusicController.shared`. */
    const player: MusicPlayer
    var hotkeysEnabled: bool
    var lastTriggeredHotkeyID: Option<HotkeyId>
    /** `registeredShortcuts` with the binding each handler captured. */
    var registry: map<ShortcutName, HotkeyAction>

    ghost predicate Valid()
      reads this, abMarkerState
    {
      && Consistent(registry, hotkeys)
      && abMarkerState.State().Valid()
    }

    /** Every binding in the list is registered. */
    ghost predicate Synced()
      reads this
    {
      registry.Keys == Names(hotkeys)
    }

    /** `init()`: the default bindings, all registered, hotkeys enabled, no markers. */
    constructor(player: MusicPlayer, ids: seq<HotkeyId>)
      requires |ids| == 8 && forall i, j | 0 <= i < j < 8 :: ids[i] != ids[j]
      ensures Valid() && Synced()
      ensures this.player == player && fresh(abMarkerState)
      ensures hotkeys == DefaultHotkeys(ids) && registry == RegistryOf(hotkeys)
      ensures hotkeysEnabled && lastTriggeredHotkeyID == None
      ensures abMarkerState.State() == Initial
    {
      this.player := player;
      abMarkerState := new ABMarkerState();
      hotkeys := [];
      hotkeysEnabled := true;
      lastTriggeredHotkeyID := None;
      registry := map[];
      new;
      SetupDefaultHotkeys(ids);
      assert hotkeysEnabled && lastTriggeredHotkeyID == None;
      DefaultsWellFormed(ids);
      RegisterAllHotkeys();
      assert hotkeysEnabled && lastTriggeredHotkeyID == None;
    }

    method SetupDefaultHotkeys(ids: seq<HotkeyId>)
      requires |ids| == 8
      modifies this`hotkeys
      ensures hotkeys == DefaultHotkeys(ids)
    {
      hotkeys := DefaultHotkeys(ids);
    }

    /** `registerHotkey(_:)`: install a handler capturing `hotkey` and record its name. */
    method RegisterHotkey(hotkey: HotkeyAction)
      modifies this`registry
      ensures registry == old(registry)[hotkey.shortcutName := hotkey]
    {
      registry := registry[hotkey.shortcutName := hotkey];
    }

    /** `registerAllHotkeys()`: drop every registration, then register each binding in order. */
    method RegisterAllHotkeys()
      modifies this`registry
      ensures registry == RegistryOf(hotkeys)
      ensures Synced()
      ensures WellFormed(hotkeys) ==> Consistent(registry, hotkeys)
    {
      registry := map[];
      for i := 0 to |hotkeys|
        invariant registry == RegistryOf(hotkeys[..i])
      {
        assert hotkeys[..i + 1][..i] == hotkeys[..i];
        RegisterHotkey(hotkeys[i]);
      }
      assert hotkeys[..|hotkeys|] == hotkeys;
      if WellFormed(hotkeys) {
        RegisteringKeepsConsistent(hotkeys);
      }
    }

    /** `unregisterAllHotkeys()`. */
    method UnregisterAllHotkeys()
      modifies this`registry
      ensures registry == map[]
    {
      registry := map[];
    }

    /** Assigning `hotkeysEnabled`, whose `didSet` re-registers or unregisters everything. */
    method SetHotkeysEnabled(enabled: bool)
      requires Valid()
      modifies this`hotkeysEnabled, this`registry
      ensures Valid()
      ensures hotkeysEnabled == enabled
      ensures enabled ==> registry == RegistryOf(hotkeys) && Synced()
      ensures !enabled ==> registry == map[]
    {
      hotkeysEnabled := enabled;
      if hotkeysEnabled {
        RegisterAllHotkeys();
      } else {
        UnregisterAllHotkeys();
      }
    }

    /**
     * `addHotkey(action:)`: append a binding with the default magnitude under
     * a fresh id and a fresh name, and register it even while hotkeys are
     * disabled.
     */
    method AddHotkey(action: ActionType, id: HotkeyId, name: ShortcutName)
      requires Valid()
      requires forall h | h in hotkeys :: h.id != id
      requires name !in Names(hotkeys)
      modifies this`hotkeys, this`registry
      ensures hotkeys == old(hotkeys) + [NewHotkeyAction(id, name, action)]
      ensures registry == old(registry)[name := NewHotkeyAction(id, name, action)]
      ensures Valid()
      ensures old(Synced()) ==> Synced()
    {
      var newHotkey := NewHotkeyAction(id, name, action);
      hotkeys := hotkeys + [newHotkey];
      RegisterHotkey(newHotkey);
      assert Names(hotkeys) == Names(old(hotkeys)) + {name} by {
        assert forall h :: h in hotkeys <==> h in old(hotkeys) || h == newHotkey;
      }
      forall i, j | 0 <= i < j < |hotkeys|
        ensures hotkeys[i].shortcutName != hotkeys[j].shortcutName && hotkeys[i].id != hotkeys[j].id
      {
        if j == |hotkeys| - 1 {
          assert hotkeys[i] in old(hotkeys);
        }
      }
    }

    /**
     * `removeHotkey(_:)`: unregister its name, then remove every binding
     * with its id.
     */
    method RemoveHotkey(hotkey: HotkeyAction)
      requires Valid()
      modifies this`hotkeys, this`registry
      ensures registry == old(registry) - {hotkey.shortcutName}
      ensures hotkeys == WithoutId(old(hotkeys), hotkey.id)
      ensures (forall h | h in old(hotkeys) :: h.id != hotkey.id) ==> hotkeys == old(hotkeys) && Valid()
      ensures hotkey in old(hotkeys) ==> Valid() && (old(Synced()) ==> Synced())
    {
      registry := registry - {hotkey.shortcutName};
      hotkeys := WithoutId(hotkeys, hotkey.id);
      if hotkey in old(hotkeys) || forall h | h in old(hotkeys) :: h.id != hotkey.id {
        RemovalKeepsConsistent(old(registry), old(hotkeys), hotkey);
      }
    }

    /** The table's value field: `max(0.1, v)` into the first binding with this id. */
    method SetValue(id: HotkeyId, newValue: real)
      requires Valid()
      modifies this`hotkeys
      ensures hotkeys == WithValue(old(hotkeys), id, newValue)
      ensures registry == old(registry)
      ensures Valid()
      ensures old(Synced()) ==> Synced()
    {
      hotkeys := WithValue(hotkeys, id, newValue);
      SameNames(old(hotkeys), hotkeys);
    }

    /** `handleAction(_:)`. */
    method HandleAction(hotkey: HotkeyAction)
      modifies abMarkerState, player
      ensures var o := Dispatch(hotkey, old(player.position), old(abMarkerState.State()));
        && abMarkerState.State() == o.markers
        && player.requests == old(player.requests) + Requested(o.request)
        && player.position == (if o.request.Some? then o.request else old(player.position))
    {
      match hotkey.action
      case Rewind | Forward =>
        var ok := player.Seek(hotkey.TimeOffset());
      case SetMarkerA =>
        var position := player.GetPlayerPosition();
        if position.Some? {
          abMarkerState.SetMarkerA(position.value);
        }
      case SetMarkerB =>
        var position := player.GetPlayerPosition();
        if position.Some? {
          abMarkerState.SetMarkerB(position.value);
        }
      case ToggleABLoop =>
        abMarkerState.ToggleLoop();
      case ClearMarkers =>
        abMarkerState.ClearMarkers();
    }

    /**
     * The key-up handler of a registered shortcut: mark the captured binding
     * as the last triggered one, then run its action. An unregistered name
     * has no handler.
     */
    method Fire(name: ShortcutName)
      requires Valid()
      modifies this`lastTriggeredHotkeyID, abMarkerState, player
      ensures Valid()
      ensures name !in registry ==>
        && lastTriggeredHotkeyID == old(lastTriggeredHotkeyID)
        && abMarkerState.State() == old(abMarkerState.State())
        && player.requests == old(player.requests) && player.position == old(player.position)
      ensures name in registry ==>
        var o := Dispatch(registry[name], old(player.position), old(abMarkerState.State()));
        && lastTriggeredHotkeyID == Some(registry[name].id)
        && abMarkerState.State() == o.markers
        && player.requests == old(player.requests) + Requested(o.request)
        && player.position == (if o.request.Some? then o.request else old(player.position))
      ensures name in registry && old(player.position).Some? ==>
        && (registry[name].action == Rewind ==>
              player.position.value <= MaxReal(0.0, old(player.position).value))
        && (registry[name].action == Forward ==>
              player.position.value >= old(player.position).value)
    {
      if name !in registry {
        return;
      }
      var hotkey := registry[name];
      lastTriggeredHotkeyID := Some(hotkey.id);
      HandleAction(hotkey);
    }

    /** `checkABLoop()`: one tick of the 100 ms loop timer. */
    method CheckABLoop()
      modifies player
      ensures var request := LoopBackRequest(abMarkerState.State(), old(player.position));
        && player.requests == old(player.requests) + Requested(request)
        && player.position == (if request.Some? then request else old(player.position))
    {
      if !abMarkerState.isLooping {
        return;
      }
      var currentPosition := player.GetPlayerPosition();
      if currentPosition.None? {
        return;
      }
      var loopStart := abMarkerState.State().LoopStart();
      if loopStart.None? {
        return;
      }
      if abMarkerState.State().ShouldLoopBack(currentPosition.value) {
        var ok := player.SetPlayerPosition(loopStart.value);
      }
    }
  }
}
