/** The encoder thread's object, proved against the steps of `EncoderLoop`. */
module EncoderThreads {
  import opened Bytes
  import opened Captures
  import opened EncoderLoop

  datatype Stage = AtOuter | AtPoll | AtEncode | AtDrop | AtDone

  class EncoderThread {
    const params: Params
    const capture: PipewireCapture
    var settings: Settings
    var reconfig: Option<Settings>
    var forceKeyframe: bool
    var connected: bool
    var shutdown: bool
    var sessions: nat
    var stage: Stage
    var registered: set<int>
    var frameIndex: nat
    var manualPoc: nat
    var codec: Codec
    var identity: int
    var out: seq<Unit>

    ghost predicate Valid()
      reads this
    {
      stage == AtPoll || stage == AtEncode ==> sessions > 0
    }

    ghost function CurrentSession(): Session
      requires sessions > 0
      reads this
    {
      Session(sessions - 1, codec, registered, frameIndex, manualPoc)
    }

    ghost function CurrentPhase(): Phase
      requires Valid()
      reads this
    {
      match stage
      case AtOuter => Outer
      case AtPoll => Polling(CurrentSession())
      case AtEncode => Encoding(CurrentSession(), identity)
      case AtDrop => Dropping
      case AtDone => Done
    }

    ghost function View(): World
      requires Valid()
      reads this, capture
    {
      World(capture.View(), settings, reconfig, forceKeyframe, connected, shutdown, sessions, CurrentPhase(), out)
    }

    constructor (params: Params, settings: Settings, connected: bool)
      ensures Valid() && fresh(capture) && View() == Init(settings, connected) && this.params == params
    {
      this.params, this.settings, this.connected := params, settings, connected;
      capture := new PipewireCapture();
      reconfig, forceKeyframe, shutdown, sessions, stage, out := None, false, false, 0, AtOuter, [];
      registered, frameIndex, manualPoc, codec, identity := {}, 0, 0, H264, 0;
    }

    method RequestKeyframe()
      requires Valid()
      modifies this`forceKeyframe
      ensures Valid() && View() == Next(params, old(View()), Action.RequestKeyframe)
    {
      forceKeyframe := true;
    }

    method Reconfigure(requested: Settings)
      requires Valid()
      modifies this`reconfig
      ensures Valid() && View() == Next(params, old(View()), Action.Reconfigure(requested))
    {
      reconfig := Some(requested);
    }

    method StartSession(succeeds: bool)
      requires Valid() && stage == AtOuter
      modifies this
      ensures Valid() && View() == Next(params, old(View()), Action.StartSession(succeeds))
    {
      hide PollOnce, EncodeOnce, Captures.Processed, Captures.Drained, PipewireCapture.View;
      if shutdown || !succeeds {
        stage := AtDrop;
        return;
      }
      registered, frameIndex, manualPoc, codec := {}, 0, 0, settings.codec;
      sessions, stage := sessions + 1, AtPoll;
    }

    /** Hands a new buffer's descriptor to the importer, which may refuse it in three ways. */
    method ImportBuffer(fstatSucceeds: bool, outcome: Import) returns (imported: bool)
      requires capture.held.Some?
      modifies capture`held, capture`closed, capture`handed
      ensures imported <==> outcome.Imported? && (params.arrayImport ==> fstatSucceeds)
      ensures capture.View() ==
              if params.arrayImport && !fstatSucceeds then Close(old(capture.View()))
              else if outcome.FailsEarly? then old(capture.View())
              else if outcome.FailsImporting? then Close(old(capture.View()))
              else Hand(old(capture.View()))
    {
      if params.arrayImport && !fstatSucceeds {
        capture.CloseFd();
        return false;
      }
      match outcome {
        case Imported => capture.HandFd();
        case FailsEarly =>
        case FailsImporting => capture.CloseFd();
        case FailsOwning => capture.HandFd();
      }
      return outcome == Imported;
    }

    /** A frame of the right kind and size: imported if its buffer is new, else only released. */
    method ImportFrame(frame: Frame, fstatSucceeds: bool, outcome: Import)
      requires Valid() && stage == AtPoll && capture.held.Some?
      modifies this`stage, this`registered, this`identity
      modifies capture`held, capture`closed, capture`handed
      ensures Valid() && View() == ImportTaken(params, old(View()), frame.identity, fstatSucceeds, outcome)
    {
      hide PipewireCapture.View;
      identity := frame.identity;
      if frame.identity in registered {
        capture.CloseFd();
        stage := AtEncode;
        return;
      }
      var imported := ImportBuffer(fstatSucceeds, outcome);
      if imported {
        registered := registered + {frame.identity};
        stage := AtEncode;
      } else {
        stage := AtDrop;
      }
    }

    /** The frame just taken, up to the point where it can be encoded. */
    method HandleFrame(frame: Frame, fstatSucceeds: bool, outcome: Import)
      requires Valid() && stage == AtPoll && capture.held.Some?
      modifies this`stage, this`registered, this`identity
      modifies capture`held, capture`closed, capture`handed
      ensures Valid() && View() == HandleTaken(params, old(View()), frame, fstatSucceeds, outcome)
    {
      hide PipewireCapture.View, ImportTaken;
      if !connected || !frame.isDmaBuf
         || frame.format.width != params.width || frame.format.height != params.height {
        capture.CloseFd();
      } else {
        ImportFrame(frame, fstatSucceeds, outcome);
      }
    }

    method Poll(fstatSucceeds: bool, outcome: Import)
      requires Valid() && stage == AtPoll && capture.held.None?
      modifies this`stage, this`registered, this`identity, this`settings, this`reconfig
      modifies capture`queue, capture`held, capture`closed, capture`handed
      ensures Valid() && View() == PollOnce(params, old(View()), fstatSucceeds, outcome)
    {
      hide HandleTaken;
      if shutdown {
        stage := AtDrop;
        return;
      }
      if reconfig.Some? {
        settings, reconfig, stage := reconfig.value, None, AtOuter;
        return;
      }
      var frame := capture.NextFrame();
      if frame.None? { return; }
      HandleFrame(frame.value, fstatSucceeds, outcome);
    }

    /** Whether the next picture is a keyframe, and its picture order count. */
    method DecideKeyframe() returns (wantKeyframe: bool)
      modifies this`forceKeyframe, this`manualPoc
      ensures wantKeyframe == (frameIndex % GOP_LENGTH == 0 || old(forceKeyframe))
      ensures forceKeyframe == (frameIndex % GOP_LENGTH == 0 && old(forceKeyframe))
      ensures manualPoc == if wantKeyframe then 0 else if codec.H264? then old(manualPoc) else old(manualPoc) + 1
    {
      wantKeyframe := true;
      if frameIndex % GOP_LENGTH != 0 {
        wantKeyframe := forceKeyframe;
        forceKeyframe := false;
      }
      if wantKeyframe {
        manualPoc := 0;
      } else if codec == Hevc || codec == Av1 {
        manualPoc := manualPoc + 1;
      }
    }

    method EncodePicture(succeeds: bool)
      requires Valid() && stage == AtEncode
      modifies this`forceKeyframe, this`manualPoc, this`stage, this`frameIndex, this`out
      ensures Valid() && View() == EncodeOnce(old(View()), succeeds)
    {
      hide PipewireCapture.View;
      var wantKeyframe := DecideKeyframe();
      if succeeds {
        var poc := if codec == H264 then None else Some(manualPoc);
        out := out + [Unit(sessions - 1, codec, wantKeyframe, poc, frameIndex)];
        frameIndex := frameIndex + 1;
        stage := AtPoll;
      } else {
        stage := AtDrop;
      }
    }

    /** The end of the thread: the capture it owns is dropped. */
    method DropCapture()
      requires Valid() && stage == AtDrop
      modifies this`stage, capture`producing, capture`queue, capture`closed
      ensures Valid()
      ensures View() == Next(params, Next(params, old(View()), Join), Drain)
    {
      capture.Drop();
      stage := AtDone;
    }
  }
}
