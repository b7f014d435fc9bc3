/**
 * The player interface (Sources/Services/MusicController.swift), with the
 * AppleScript calls replaced by an abstract player: a position that may be
 * unavailable and a log of the set-position requests issued to it.
 */
module MusicController {
  import opened Wrappers

  /** The position `seek(bySeconds:)` asks for: never before the start of the track. */
  function SeekTarget(current: real, offset: real): (r: real)
    ensures r >= 0.0 && r >= current + offset
    ensures r == 0.0 || r == current + offset
  {
    if 0.0 >= current + offset then 0.0 else current + offset
  }

  class MusicPlayer {
    /** What `getPlayerPosition()` reads; `None` when the player is not running or has no track. */
    var position: Option<real>
    /** Every `set player position` request issued, oldest first. */
    var requests: seq<real>

    constructor(position: Option<real>)
      ensures this.position == position && requests == []
    {
      this.position := position;
      requests := [];
    }

    /** `getPlayerPosition()`. */
    method GetPlayerPosition() returns (p: Option<real>)
      ensures p == position
    {
      p := position;
    }

    /**
     * `setPlayerPosition(_:)`: the request is always issued; it succeeds,
     * and the player moves, only while a track is available.
     */
    method SetPlayerPosition(p: real) returns (ok: bool)
      modifies this
      ensures requests == old(requests) + [p]
      ensures ok == old(position).Some?
      ensures position == if ok then Some(p) else old(position)
    {
      requests := requests + [p];
      ok := position.Some?;
      if ok {
        position := Some(p);
      }
    }

    /** `seek(bySeconds:)`: read the position, then ask for `max(0, position + seconds)`. */
    method Seek(seconds: real) returns (ok: bool)
      modifies this
      ensures old(position).None? ==> !ok && requests == old(requests) && position == old(position)
      ensures old(position).Some? ==>
        var target := SeekTarget(old(position).value, seconds);
        ok && requests == old(requests) + [target] && position == Some(target)
    {
      var currentPosition := GetPlayerPosition();
      if currentPosition.None? {
        return false;
      }
      var newPosition := SeekTarget(currentPosition.value, seconds);
      ok := SetPlayerPosition(newPosition);
    }
  }
}
