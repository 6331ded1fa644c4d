/** The stem preview player (src/components/AudioPlayer.tsx): play/pause, mute and volume
    state, kept in step with the `<audio>` element by the volume effect and the element's
    event listeners. */
module AudioPlayer {
  import opened Types

  /** What the model tracks of the `<audio>` element. */
  datatype Element = Element(playing: bool, volume: real, time: real)

  /** The player's state together with its element, which is absent when the ref is null. */
  datatype PlayerState = PlayerState(isPlaying: bool, currentTime: real, duration: real,
                                     volume: real, isMuted: bool, element: Option<Element>)

  const InitialVolume: real := 0.7

  /** The volume the effect writes to the element. */
  function AppliedVolume(isMuted: bool, volume: real): (v: real)
    ensures isMuted ==> v == 0.0
    ensures !isMuted ==> v == volume
  {
    if isMuted then 0.0 else volume
  }

  /** The volume stays within the slider's range, and the element plays exactly when the
      player says it does, at the volume the effect last applied. */
  predicate StateValid(s: PlayerState)
  {
    && 0.0 <= s.volume <= 1.0
    && (s.element.Some? ==>
          && s.element.value.playing == s.isPlaying
          && s.element.value.volume == AppliedVolume(s.isMuted, s.volume))
  }

  /** The element after the volume effect has run for the new volume and mute flag. */
  function Apply(element: Option<Element>, isMuted: bool, volume: real): (e: Option<Element>)
    ensures e.Some? <==> element.Some?
    ensures e.Some? ==> e.value == element.value.(volume := AppliedVolume(isMuted, volume))
  {
    if element.Some? then Some(element.value.(volume := AppliedVolume(isMuted, volume))) else None
  }

  /** The state after mount: paused at 0, volume 0.7, not muted, effect applied. */
  function Initial(hasElement: bool): (s: PlayerState)
    ensures StateValid(s)
    ensures !s.isPlaying && !s.isMuted && s.volume == InitialVolume
    ensures s.currentTime == 0.0 && s.duration == 0.0
    ensures s.element.Some? <==> hasElement
    ensures hasElement ==> s.element.value.volume == InitialVolume
  {
    var element := if hasElement then Some(Element(false, 1.0, 0.0)) else None;
    PlayerState(false, 0.0, 0.0, InitialVolume, false, Apply(element, false, InitialVolume))
  }

  /** `togglePlay`: nothing without an element; otherwise the element is paused when playing and
      played when paused, and the flag flips. */
  function TogglePlayStep(s: PlayerState): (t: PlayerState)
    ensures s.element.None? ==> t == s
    ensures s.element.Some? ==>
              && t.isPlaying == !s.isPlaying
              && t.element.Some? && t.element.value.playing == !s.isPlaying
    // the element keeps its volume and position: only its playing flag changes
    ensures s.element.Some? ==> t.element == Some(s.element.value.(playing := !s.isPlaying))
    ensures StateValid(s) ==> StateValid(t)
    ensures t.(isPlaying := s.isPlaying, element := s.element) == s
  {
    if s.element.None? then s
    else s.(isPlaying := !s.isPlaying, element := Some(s.element.value.(playing := !s.isPlaying)))
  }

  /** `toggleMute` followed by the volume effect. */
  function ToggleMuteStep(s: PlayerState): (t: PlayerState)
    ensures t.isMuted == !s.isMuted
    ensures t.element.Some? ==> t.element.value.volume == (if s.isMuted then s.volume else 0.0)
    // the element stays as present as it was, with only its volume rewritten by the effect
    ensures t.element == Apply(s.element, t.isMuted, s.volume)
    ensures StateValid(s) ==> StateValid(t)
    ensures t.(isMuted := s.isMuted, element := s.element) == s
  {
    s.(isMuted := !s.isMuted, element := Apply(s.element, !s.isMuted, s.volume))
  }

  /** `handleVolumeChange` followed by the volume effect: the new value is kept, and a positive
      value unmutes a muted player. */
  function VolumeChangeStep(s: PlayerState, value: real): (t: PlayerState)
    ensures t.volume == value
    ensures t.isMuted != s.isMuted <==> value > 0.0 && s.isMuted
    ensures value == 0.0 ==> t.isMuted == s.isMuted
    ensures t.element == Apply(s.element, t.isMuted, value)
    ensures 0.0 <= value <= 1.0 && StateValid(s) ==> StateValid(t)
    ensures t.(volume := s.volume, isMuted := s.isMuted, element := s.element) == s
  {
    var muted := if value > 0.0 && s.isMuted then false else s.isMuted;
    s.(volume := value, isMuted := muted, element := Apply(s.element, muted, value))
  }

  /** The `ended` listener: the element has stopped; the player rewinds both itself and it to 0. */
  function EndedStep(s: PlayerState): (t: PlayerState)
    requires s.element.Some?
    ensures !t.isPlaying && t.currentTime == 0.0
    ensures t.element.Some? && !t.element.value.playing && t.element.value.time == 0.0
    ensures StateValid(s) ==> StateValid(t)
    ensures t.(isPlaying := s.isPlaying, currentTime := s.currentTime, element := s.element) == s
  {
    s.(isPlaying := false, currentTime := 0.0, element := Some(s.element.value.(playing := false, time := 0.0)))
  }

  /** The `timeupdate` listener: the element has reached `time`, and the player shows it. */
  function TimeUpdateStep(s: PlayerState, time: real): (t: PlayerState)
    requires s.element.Some?
    ensures t.currentTime == time && t.element.Some? && t.element.value.time == time
    ensures StateValid(s) ==> StateValid(t)
    ensures t.(currentTime := s.currentTime, element := s.element) == s
  {
    s.(currentTime := time, element := Some(s.element.value.(time := time)))
  }

  /** The `loadeddata` listener: the player takes the element's duration. */
  function LoadedDataStep(s: PlayerState, duration: real): (t: PlayerState)
    requires s.element.Some?
    ensures t.duration == duration
    ensures StateValid(s) ==> StateValid(t)
    ensures t.(duration := s.duration) == s
  {
    s.(duration := duration)
  }

  /** Muting twice restores the player and its element. */
  lemma ToggleMuteTwice(s: PlayerState)
    requires StateValid(s)
    ensures ToggleMuteStep(ToggleMuteStep(s)) == s
  {
  }

  /** Pressing play twice restores the player and its element. */
  lemma TogglePlayTwice(s: PlayerState)
    requires StateValid(s)
    ensures TogglePlayStep(TogglePlayStep(s)) == s
  {
  }

  /** After a volume change the element plays at exactly the slider's value: a positive value
      unmutes, and zero is silent muted or not. */
  lemma VolumeChangeApplies(s: PlayerState, value: real)
    requires s.element.Some? && 0.0 <= value
    ensures VolumeChangeStep(s, value).element.value.volume == value
  {
    var t := VolumeChangeStep(s, value);
    if value == 0.0 {
      assert AppliedVolume(t.isMuted, 0.0) == 0.0;
    } else {
      assert !t.isMuted;
    }
  }

  /** The component instance. */
  class Player {
    var isPlaying: bool
    var currentTime: real
    var duration: real
    var volume: real
    var isMuted: bool
    var element: Option<Element>

    function View(): PlayerState
      reads this
    {
      PlayerState(isPlaying, currentTime, duration, volume, isMuted, element)
    }

    predicate Valid()
      reads this
    {
      StateValid(View())
    }

    /** Mount: initial state, the volume effect run once. */
    constructor (hasElement: bool)
      ensures Valid()
      ensures View() == Initial(hasElement)
    {
      isPlaying := false;
      currentTime := 0.0;
      duration := 0.0;
      volume := InitialVolume;
      isMuted := false;
      element := if hasElement then Some(Element(false, AppliedVolume(false, InitialVolume), 0.0)) else None;
    }

    method TogglePlay()
      requires Valid()
      modifies this
      ensures Valid()
      ensures View() == TogglePlayStep(old(View()))
    {
      if element.None? {
        return;
      }
      if isPlaying {
        element := Some(element.value.(playing := false));
      } else {
        element := Some(element.value.(playing := true));
      }
      isPlaying := !isPlaying;
    }

    method ToggleMute()
      requires Valid()
      modifies this
      ensures Valid()
      ensures View() == ToggleMuteStep(old(View()))
    {
      isMuted := !isMuted;
      ApplyVolume();
    }

    /** The slider only produces values in [0, 1]. */
    method HandleVolumeChange(value: real)
      requires Valid()
      requires 0.0 <= value <= 1.0
      modifies this
      ensures Valid()
      ensures View() == VolumeChangeStep(old(View()), value)
    {
      volume := value;
      if value > 0.0 && isMuted {
        isMuted := false;
      }
      ApplyVolume();
    }

    /** The listeners exist only when the element was there at mount. */
    method HandleEnded()
      requires Valid() && element.Some?
      modifies this
      ensures Valid()
      ensures View() == EndedStep(old(View()))
    {
      element := Some(element.value.(playing := false));
      isPlaying := false;
      currentTime := 0.0;
      element := Some(element.value.(time := 0.0));
    }

    method HandleTimeUpdate(time: real)
      requires Valid() && element.Some?
      modifies this
      ensures Valid()
      ensures View() == TimeUpdateStep(old(View()), time)
    {
      element := Some(element.value.(time := time));
      currentTime := element.value.time;
    }

    method HandleLoadedData(mediaDuration: real)
      requires Valid() && element.Some?
      modifies this
      ensures Valid()
      ensures View() == LoadedDataStep(old(View()), mediaDuration)
    {
      duration := mediaDuration;
    }

    /** The effect on `[volume, isMuted]`. */
    method ApplyVolume()
      modifies this
      ensures View() == old(View()).(element := Apply(old(element), isMuted, volume))
    {
      if element.Some? {
        element := Some(element.value.(volume := if isMuted then 0.0 else volume));
      }
    }
  }
}
