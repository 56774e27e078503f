/**
 * The video screen's playback logic: whether the player counts as being at
 * the start or end of the clip, which buttons the screen offers, and what
 * each button tells the player to do.
 */
module Media {
  import opened KotlinInt

  /**
   * `ExoPlayer.isAtEnd`: the position is 0, or it has reached a known
   * (positive) duration. A duration that is not positive (unknown) never
   * counts as reached.
   */
  function IsAtEnd(currentPosition: Int64, duration: Int64): (atEnd: bool)
    ensures currentPosition == 0 ==> atEnd
    ensures 0 < duration <= currentPosition ==> atEnd
    ensures 0 < currentPosition < duration ==> !atEnd
    ensures duration <= 0 ==> (atEnd <==> currentPosition == 0)
    ensures atEnd ==> currentPosition == 0 || 0 < duration <= currentPosition
  {
    currentPosition == 0 || (currentPosition >= duration && duration > 0)
  }

  /** The buttons of the video screen. */
  datatype Control = Pause | Play | Continue | Restart

  /** What a button tells the player. */
  datatype Command = PauseCommand | PlayCommand | SeekTo(positionMs: Int64)

  /** The buttons offered for the listener's last `isPlaying` and `isAtEnd`. */
  function ControlsFor(isPlaying: bool, isAtEnd: bool): (controls: seq<Control>)
    ensures |controls| >= 1
    ensures Pause in controls <==> isPlaying
    ensures Pause in controls ==> controls == [Pause]
    ensures !isPlaying && isAtEnd ==> controls == [Play]
    ensures !isPlaying && !isAtEnd ==> controls == [Continue, Restart]
    ensures Play in controls <==> !isPlaying && isAtEnd
    ensures Continue in controls <==> !isPlaying && !isAtEnd
    ensures Restart in controls <==> !isPlaying && !isAtEnd
  {
    if isPlaying then [Pause]
    else if isAtEnd then [Play]
    else [Continue, Restart]
  }

  /** The player calls that a button's click handler makes, in order. */
  function OnClick(control: Control): (commands: seq<Command>)
    ensures |commands| >= 1
    ensures commands[|commands| - 1] == (if control == Pause then PauseCommand else PlayCommand)
    ensures SeekTo(0) in commands <==> control == Play || control == Restart
  {
    match control
    case Pause => [PauseCommand]
    case Play => [SeekTo(0), PlayCommand]
    case Continue => [PlayCommand]
    case Restart => [SeekTo(0), PlayCommand]
  }

  /** The part of the player the commands act on: position and whether it plays when ready. */
  datatype PlayerState = PlayerState(position: Int64, playWhenReady: bool)

  function Execute(s: PlayerState, commands: seq<Command>): (t: PlayerState)
    decreases |commands|
  {
    if commands == [] then s
    else
      var next := match commands[0]
        case PauseCommand => s.(playWhenReady := false)
        case PlayCommand => s.(playWhenReady := true)
        case SeekTo(p) => s.(position := p);
      Execute(next, commands[1..])
  }

  /** The effect of each button on the player. */
  lemma {:induction false} ClickEffect(s: PlayerState, c: Control)
    ensures Execute(s, OnClick(c)) == match c
      case Pause => s.(playWhenReady := false)
      case Continue => s.(playWhenReady := true)
      case Play | Restart => PlayerState(0, true)
  {
    match c
    case Pause =>
      assert Execute(s, OnClick(c)) == Execute(s.(playWhenReady := false), []);
    case Continue =>
      assert Execute(s, OnClick(c)) == Execute(s.(playWhenReady := true), []);
    case Play | Restart =>
      var seeked := s.(position := 0);
      assert OnClick(c)[1..] == [PlayCommand];
      assert Execute(s, OnClick(c)) == Execute(seeked, [PlayCommand]);
      assert Execute(seeked, [PlayCommand]) == Execute(seeked.(playWhenReady := true), []);
  }

  /** Every button offered reverses playback: Pause stops a playing player, every other button starts a stopped one. */
  lemma OfferedControlToggles(isPlaying: bool, isAtEnd: bool, s: PlayerState, c: Control)
    requires c in ControlsFor(isPlaying, isAtEnd)
    ensures Execute(s, OnClick(c)).playWhenReady == !isPlaying
  {
    ClickEffect(s, c);
  }

  /** Only Continue and Pause keep the position; Play and Restart play from the beginning. */
  lemma OnClickPosition(s: PlayerState, c: Control)
    ensures Execute(s, OnClick(c)).position == (if c == Play || c == Restart then 0 else s.position)
  {
    ClickEffect(s, c);
  }

  /** A stopped player at the start or end is only ever restarted from the beginning. */
  lemma AtEndRestartsFromZero(position: Int64, duration: Int64, s: PlayerState, c: Control)
    requires c in ControlsFor(false, IsAtEnd(position, duration))
    requires IsAtEnd(position, duration)
    ensures Execute(s, OnClick(c)) == PlayerState(0, true)
  {
    ClickEffect(s, c);
  }

  /** A stopped player in the middle of the clip may also continue where it is. */
  lemma InBetweenMayContinue(position: Int64, duration: Int64, s: PlayerState)
    requires 0 < position < duration
    ensures Continue in ControlsFor(false, IsAtEnd(position, duration))
    ensures Execute(s, OnClick(Continue)) == s.(playWhenReady := true)
  {
    ClickEffect(s, Continue);
  }
}
