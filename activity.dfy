/**
 * The toggle state machine of MainActivity: the two flags that say what the
 * next click on each button does, whether the recorder, the player and the
 * worker thread are set, and whether each button is enabled. The Android
 * objects are reduced to "set or null"; a click on a disabled button is not
 * delivered; the worker's handler.post(runner) becomes a PlaybackFinished
 * event that runs stopPlaying.
 */
module Activity {
  import Pcm
  import Playback

  datatype Button = RecordButton | PlayButton

  datatype Event = Click(button: Button) | PlaybackFinished

  /** The activity's fields as one value. */
  datatype Ui = Ui(
    nextRecordStarts: bool,  // mStartRecording
    nextPlayStarts: bool,    // mStartPlaying
    recorderSet: bool,       // recorder != null
    playerSet: bool,         // player != null
    workerSet: bool,         // audioThread != null
    recordEnabled: bool,     // mRecordButton enabled
    playEnabled: bool)       // mPlayButton enabled
  {
    /**
     * The states the events reach: a button is disabled exactly while the
     * other pipeline holds its device, the record flag tracks the recorder,
     * a cleared play flag means a player is set, the worker is set exactly
     * while a device is, and the recorder and player handles are never
     * both set.
     */
    predicate Valid()
    {
      && recordEnabled == !playerSet
      && playEnabled == !recorderSet
      && nextRecordStarts == !recorderSet
      && (!nextPlayStarts ==> playerSet)
      && workerSet == (recorderSet || playerSet)
      && !(recorderSet && playerSet)
    }

    function StartRecording(): Ui
    {
      this.(playEnabled := false, recorderSet := true, workerSet := true)
    }

    function StopRecording(): Ui
    {
      (if recorderSet then this.(recorderSet := false, workerSet := false) else this)
        .(playEnabled := true)
    }

    function StartPlaying(): Ui
    {
      this.(recordEnabled := false, playerSet := true, workerSet := true)
    }

    function StopPlaying(): Ui
    {
      (if playerSet then this.(playerSet := false, workerSet := false) else this)
        .(recordEnabled := true, nextPlayStarts := true)
    }

    function OnRecord(start: bool): Ui
    {
      if start then StartRecording() else StopRecording()
    }

    function OnPlay(start: bool): Ui
    {
      if start then StartPlaying() else this
    }

    function OnClick(b: Button): Ui
    {
      match b
      case RecordButton =>
        var s := OnRecord(nextRecordStarts);
        s.(nextRecordStarts := !nextRecordStarts)
      case PlayButton =>
        var s := OnPlay(nextPlayStarts);
        s.(nextPlayStarts := !nextPlayStarts)
    }

    predicate Enabled(b: Button)
    {
      match b
      case RecordButton => recordEnabled
      case PlayButton => playEnabled
    }

    /** One event: a click reaches onClick only when its button is enabled. */
    function Handle(e: Event): (s: Ui)
      ensures Valid() ==> s.Valid()
    {
      match e
      case Click(b) => if Enabled(b) then OnClick(b) else this
      case PlaybackFinished => StopPlaying()
    }
  }

  /** The fields as declared, with both buttons enabled. */
  function Initial(): (s: Ui)
    ensures s.Valid()
    ensures !s.recorderSet && !s.playerSet && !s.workerSet
  {
    Ui(true, true, false, false, false, true, true)
  }

  function Run(s: Ui, es: seq<Event>): Ui
    decreases |es|
  {
    if es == [] then s else Run(s.Handle(es[0]), es[1..])
  }

  /** Every sequence of events keeps the state valid. */
  lemma {:induction false} RunKeepsValid(s: Ui, es: seq<Event>)
    requires s.Valid()
    ensures Run(s, es).Valid()
    decreases |es|
  {
    if es != [] {
      RunKeepsValid(s.Handle(es[0]), es[1..]);
    }
  }

  /** From launch, whatever the user does, the recorder and player handles are never both set. */
  lemma NeverRecordAndPlay(es: seq<Event>)
    ensures !(Run(Initial(), es).recorderSet && Run(Initial(), es).playerSet)
  {
    RunKeepsValid(Initial(), es);
  }

  /**
   * A record click toggles recording: it starts one exactly when none is
   * running (never a second), stops the running one otherwise, and the play
   * button is enabled exactly when no recording runs.
   */
  lemma RecordClick(s: Ui)
    requires s.Valid() && s.recordEnabled
    ensures var t := s.Handle(Click(RecordButton));
      && t.recorderSet == !s.recorderSet
      && t.nextRecordStarts == !s.nextRecordStarts
      && t.playEnabled == !t.recorderSet
      && t.playerSet == s.playerSet
  {
  }

  /** While playback holds the player, record clicks are not delivered. */
  lemma RecordBlockedWhilePlaying(s: Ui)
    requires s.Valid() && s.playerSet
    ensures s.Handle(Click(RecordButton)) == s
  {
  }

  /**
   * A play click while the flag is cleared only sets it again: the player
   * stays set until the worker's PlaybackFinished event releases it, and
   * nothing else changes.
   */
  lemma PlayClickWhilePlaying(s: Ui)
    requires s.Valid() && !s.nextPlayStarts
    ensures s.Handle(Click(PlayButton)) == s.(nextPlayStarts := true)
  {
  }

  /**
   * A play click with the flag set runs startPlaying whether or not a player
   * is already set: while the first playback still holds its player, it
   * starts playing again over it.
   */
  lemma PlayRestartWhilePlaying(s: Ui)
    requires s.Valid() && s.nextPlayStarts && s.playerSet
    ensures s.Handle(Click(PlayButton)) == s.StartPlaying().(nextPlayStarts := false)
  {
  }

  /** Two play clicks from launch leave the player set with the play flag set again. */
  lemma RestartReachable()
    ensures var t := Run(Initial(), [Click(PlayButton), Click(PlayButton)]);
      t.playerSet && t.nextPlayStarts && t.playEnabled
  {
  }

  /**
   * stopPlaying always sets the play flag and enables the record button; it
   * releases the player when one is set and touches no handle otherwise.
   */
  lemma StopPlayingResets(s: Ui)
    ensures var t := s.StopPlaying();
      && t.nextPlayStarts && t.recordEnabled && !t.playerSet
      && t.recorderSet == s.recorderSet
      && (!s.playerSet ==> t.workerSet == s.workerSet)
  {
  }

  /** stopRecording enables the play button; with no recorder set it touches no handle. */
  lemma StopRecordingResets(s: Ui)
    ensures var t := s.StopRecording();
      && t.playEnabled && !t.recorderSet
      && t.playerSet == s.playerSet
      && (!s.recorderSet ==> t.workerSet == s.workerSet)
  {
  }

  /**
   * MainActivity's fields and the methods that update them; each method's
   * new state is the corresponding Ui transition of the old one.
   */
  class MainActivity {
    var nextRecordStarts: bool
    var nextPlayStarts: bool
    var recorderSet: bool
    var playerSet: bool
    var workerSet: bool
    var recordEnabled: bool
    var playEnabled: bool

    function State(): Ui
      reads this
    {
      Ui(nextRecordStarts, nextPlayStarts, recorderSet, playerSet, workerSet, recordEnabled, playEnabled)
    }

    constructor ()
      ensures State() == Initial()
    {
      nextRecordStarts, nextPlayStarts := true, true;
      recorderSet, playerSet, workerSet := false, false, false;
      recordEnabled, playEnabled := true, true;
    }

    /** startRecording: disable play, open the recorder, start the capture worker. */
    method StartRecording()
      modifies this
      ensures State() == old(State()).StartRecording()
    {
      playEnabled := false;
      recorderSet := true;
      workerSet := true;
    }

    /** stopRecording: release the recorder if set, then enable play. */
    method StopRecording()
      modifies this
      ensures State() == old(State()).StopRecording()
    {
      if recorderSet {
        recorderSet := false;
        workerSet := false;
      }
      playEnabled := true;
    }

    /** startPlaying: disable record, build the player, start the playback worker. */
    method StartPlaying()
      modifies this
      ensures State() == old(State()).StartPlaying()
    {
      recordEnabled := false;
      playerSet := true;
      workerSet := true;
    }

    /** stopPlaying: release the player if set, enable record, set the play flag. */
    method StopPlaying()
      modifies this
      ensures State() == old(State()).StopPlaying()
    {
      if playerSet {
        playerSet := false;
        workerSet := false;
      }
      recordEnabled := true;
      nextPlayStarts := true;
    }

    method OnRecord(start: bool)
      modifies this
      ensures State() == old(State()).OnRecord(start)
    {
      if start {
        StartRecording();
      } else {
        StopRecording();
      }
    }

    method OnPlay(start: bool)
      modifies this
      ensures State() == old(State()).OnPlay(start)
    {
      if start {
        StartPlaying();
      }
    }

    /** onClick: act on the button's flag, then flip the flag. */
    method OnClick(b: Button)
      modifies this
      ensures State() == old(State()).OnClick(b)
    {
      match b
      case RecordButton =>
        OnRecord(nextRecordStarts);
        nextRecordStarts := !nextRecordStarts;
      case PlayButton =>
        OnPlay(nextPlayStarts);
        nextPlayStarts := !nextPlayStarts;
    }

    /** Deliver one event to the activity. */
    method Handle(e: Event)
      requires State().Valid()
      modifies this
      ensures State() == old(State()).Handle(e)
      ensures State().Valid()
    {
      match e
      case Click(b) =>
        var enabled := match b case RecordButton => recordEnabled case PlayButton => playEnabled;
        if enabled {
          OnClick(b);
        }
      case PlaybackFinished =>
        StopPlaying();
    }

    /**
     * The playback worker from start to end: writeFileToAudioData over
     * `file`, stopped after `stopAfter` iterations, then the posted runner,
     * which runs stopPlaying.
     */
    method PlaybackWorker(file: seq<Pcm.Byte>, stopAfter: nat) returns (writes: seq<seq<Pcm.Sample>>)
      modifies this
      ensures writes == Playback.Writes(file, stopAfter)
      ensures State() == old(State()).StopPlaying()
    {
      var consumed;
      writes, consumed := Playback.WriteFileToAudioData(file, stopAfter);
      StopPlaying();
    }
  }
}
