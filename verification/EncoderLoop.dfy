/**
 The encoder thread: it takes captured frames, imports each buffer once, decides which frames are
 keyframes and numbers them, across any number of encoder sessions over one capture. `Action` lists
 the steps of all threads; whether a system call or the encoder succeeds is part of the action.
 */
module EncoderLoop {
  import opened Bytes
  import opened Captures

  datatype Codec = H264 | Hevc | Av1

  datatype Settings = Settings(fps: u32, bitrate: u32, codec: Codec)

  /** Fixed for the thread: the encoded size, and whether buffers are imported as CUDA arrays. */
  datatype Params = Params(width: u32, height: u32, arrayImport: bool)

  /** One encoder session's variables. */
  datatype Session = Session(number: nat, codec: Codec, registered: set<int>, frameIndex: nat, poc: nat)

  /** An encoded picture; H.264 pictures carry no picture order count. */
  datatype Unit = Unit(session: nat, codec: Codec, idr: bool, poc: Option<nat>, timestamp: nat)

  datatype Phase =
    | Outer
    | Polling(session: Session)
    | Encoding(session: Session, identity: int)
    | Dropping
    | Draining
    | Done

  datatype World = World(
    capture: Capture, settings: Settings, pending: Option<Settings>, forced: bool, connected: bool, shutdown: bool,
    sessions: nat, phase: Phase, out: seq<Unit>)

  const GOP_LENGTH: nat := 300

  /**
   How importing a buffer ends. A failure before the driver is asked leaves the descriptor open and
   unowned; one in the driver's own import closes it; one after that gives it back with the import.
   */
  datatype Import = Imported | FailsEarly | FailsImporting | FailsOwning

  datatype Action =
    | Renegotiate(format: Format)
    | Process(dequeued: Option<seq<Plane>>, dupSucceeds: bool)
    | RequestKeyframe
    | Reconfigure(settings: Settings)
    | SetConnected(connected: bool)
    | RequestShutdown
    | StartSession(succeeds: bool)
    | Poll(fstatSucceeds: bool, outcome: Import)
    | Encode(succeeds: bool)
    | Join
    | Drain

  predicate Enabled(w: World, a: Action) {
    match a
    case Renegotiate(_) => w.capture.producing
    case Process(_, _) => w.capture.producing
    case StartSession(_) => w.phase.Outer?
    case Poll(_, _) => w.phase.Polling?
    case Encode(_) => w.phase.Encoding?
    case Join => w.phase.Dropping?
    case Drain => w.phase.Draining?
    case _ => true
  }

  function Init(settings: Settings, connected: bool): World {
    World(START, settings, None, false, connected, false, 0, Outer, [])
  }

  predicate Unwanted(p: Params, connected: bool, f: Frame) {
    !connected || !f.isDmaBuf || f.format.width != p.width || f.format.height != p.height
  }

  /** A wanted frame has been taken: its buffer is imported if it is new, else only released. */
  function ImportTaken(p: Params, w: World, identity: int, fstatSucceeds: bool, outcome: Import): World
    requires w.phase.Polling? && w.capture.held.Some?
  {
    var s, c := w.phase.session, w.capture;
    if identity in s.registered then w.(capture := Close(c), phase := Encoding(s, identity))
    else if p.arrayImport && !fstatSucceeds then w.(capture := Close(c), phase := Dropping)
    else match outcome
      case Imported =>
        w.(capture := Hand(c), phase := Encoding(s.(registered := s.registered + {identity}), identity))
      case FailsEarly => w.(phase := Dropping)
      case FailsImporting => w.(capture := Close(c), phase := Dropping)
      case FailsOwning => w.(capture := Hand(c), phase := Dropping)
  }

  /** What becomes of a frame just taken. */
  function HandleTaken(p: Params, w: World, frame: Frame, fstatSucceeds: bool, outcome: Import): World
    requires w.phase.Polling? && w.capture.held.Some?
  {
    if Unwanted(p, w.connected, frame) then w.(capture := Close(w.capture))
    else ImportTaken(p, w, frame.identity, fstatSucceeds, outcome)
  }

  function PollOnce(p: Params, w: World, fstatSucceeds: bool, outcome: Import): World
    requires w.phase.Polling?
  {
    if w.shutdown then w.(phase := Dropping)
    else if w.pending.Some? then w.(settings := w.pending.value, pending := None, phase := Outer)
    else if w.capture.queue == [] then w
    else HandleTaken(p, w.(capture := Taken(w.capture)), w.capture.queue[0], fstatSucceeds, outcome)
  }

  predicate Natural(s: Session) { s.frameIndex % GOP_LENGTH == 0 }

  /** A keyframe is due at every `GOP_LENGTH`-th frame; only otherwise is the request flag read and cleared. */
  function EncodeOnce(w: World, succeeds: bool): World
    requires w.phase.Encoding?
  {
    var s := w.phase.session;
    var idr := Natural(s) || w.forced;
    var poc := if idr then 0 else if s.codec.H264? then s.poc else s.poc + 1;
    var v := w.(forced := Natural(s) && w.forced);
    if !succeeds then v.(phase := Dropping) else
      var unit := Unit(s.number, s.codec, idr, if s.codec.H264? then None else Some(poc), s.frameIndex);
      v.(phase := Polling(s.(frameIndex := s.frameIndex + 1, poc := poc)), out := w.out + [unit])
  }

  function Next(p: Params, w: World, a: Action): World
    requires Enabled(w, a)
  {
    match a
    case Renegotiate(format) => w.(capture := Renegotiated(w.capture, format))
    case Process(dequeued, dupSucceeds) => w.(capture := Processed(w.capture, dequeued, dupSucceeds))
    case RequestKeyframe => w.(forced := true)
    case Reconfigure(settings) => w.(pending := Some(settings))
    case SetConnected(connected) => w.(connected := connected)
    case RequestShutdown => w.(shutdown := true)
    case StartSession(succeeds) =>
      if w.shutdown || !succeeds then w.(phase := Dropping)
      else w.(phase := Polling(Session(w.sessions, w.settings.codec, {}, 0, 0)), sessions := w.sessions + 1)
    case Poll(fstatSucceeds, outcome) => PollOnce(p, w, fstatSucceeds, outcome)
    case Encode(succeeds) => EncodeOnce(w, succeeds)
    case Join => w.(capture := w.capture.(producing := false), phase := Draining)
    case Drain => w.(capture := Drained(w.capture), phase := Done)
  }

  ghost predicate Step(p: Params, w: World, a: Action, w': World) { Enabled(w, a) && w' == Next(p, w, a) }

  ghost predicate Run(p: Params, worlds: seq<World>, actions: seq<Action>) {
    && |worlds| == |actions| + 1
    && worlds[0] == Init(worlds[0].settings, worlds[0].connected)
    && forall i :: 0 <= i < |actions| ==> Step(p, worlds[i], actions[i], worlds[i + 1])
  }

  // Descriptors.

  /**
   Between the steps of a live loop the consumer holds nothing; after the join nothing arrives, and
   after the drain nothing is left.
   */
  ghost predicate FdsValid(w: World) {
    && Conserved(w.capture)
    && (w.capture.held.Some? ==> w.phase.Dropping? || w.phase.Draining? || w.phase.Done?)
    && (w.phase.Draining? || w.phase.Done? ==> !w.capture.producing)
    && (w.phase.Done? ==> w.capture.queue == [])
  }

  /** The first frame in the channel is wanted and new, and importing it fails before the driver is asked. */
  predicate LosesFd(p: Params, w: World, a: Action) {
    && a.Poll? && a.outcome.FailsEarly? && (p.arrayImport ==> a.fstatSucceeds)
    && w.phase.Polling? && !w.shutdown && w.pending.None? && w.capture.queue != []
    && w.connected && var f := w.capture.queue[0];
       f.isDmaBuf && f.format.width == p.width && f.format.height == p.height
       && f.identity !in w.phase.session.registered
  }

  lemma PollKeepsFds(p: Params, w: World, fstatSucceeds: bool, outcome: Import)
    requires FdsValid(w) && w.phase.Polling?
    ensures var v := PollOnce(p, w, fstatSucceeds, outcome);
            FdsValid(v) && (v.capture.held.Some? <==> LosesFd(p, w, Poll(fstatSucceeds, outcome)))
  {
    hide Conserved;
    if w.capture.queue != [] {
      TakenConserves(w.capture);
      DisposedConserves(Taken(w.capture));
    }
  }

  lemma FdsStep(p: Params, w: World, a: Action, w': World)
    requires Step(p, w, a, w') && FdsValid(w)
    ensures FdsValid(w')
    ensures w'.capture.held.Some? <==> w.capture.held.Some? || LosesFd(p, w, a)
  {
    hide Conserved, PollOnce, EncodeOnce, Processed, Drained;
    match a
    case Process(dequeued, dupSucceeds) =>
      ProcessedConserves(w.capture, dequeued, dupSucceeds);
      ProcessedOnlyQueues(w.capture, dequeued, dupSucceeds);
    case Renegotiate(format) => SameFds(w.capture, w'.capture);
    case Poll(f, i) => PollKeepsFds(p, w, f, i);
    case Encode(ok) => EncodeTouchesNoFds(w, ok);
    case Join => SameFds(w.capture, w'.capture);
    case Drain => DrainEmpties(w.capture);
    case _ =>
  }

  lemma EncodeTouchesNoFds(w: World, succeeds: bool)
    requires w.phase.Encoding?
    ensures var v := EncodeOnce(w, succeeds); v.capture == w.capture && (v.phase.Polling? || v.phase.Dropping?)
  {}

  ghost predicate LostBefore(p: Params, worlds: seq<World>, actions: seq<Action>, n: nat)
    requires n <= |actions| < |worlds|
  {
    exists k :: 0 <= k < n && LosesFd(p, worlds[k], actions[k])
  }

  lemma LostByStep(p: Params, worlds: seq<World>, actions: seq<Action>, n: nat)
    requires n < |actions| < |worlds|
    ensures LostBefore(p, worlds, actions, n + 1) <==>
            LostBefore(p, worlds, actions, n) || LosesFd(p, worlds[n], actions[n])
  {
    hide LosesFd;
  }

  lemma InitFds(settings: Settings, connected: bool)
    ensures FdsValid(Init(settings, connected)) && Init(settings, connected).capture.held.None?
  {
    StartConserved();
  }

  lemma {:induction false} FdsAlways(p: Params, worlds: seq<World>, actions: seq<Action>, n: nat)
    requires Run(p, worlds, actions) && n <= |actions|
    ensures FdsValid(worlds[n])
    ensures worlds[n].capture.held.Some? <==> LostBefore(p, worlds, actions, n)
  {
    hide Next, LosesFd, FdsValid;
    if n == 0 {
      InitFds(worlds[0].settings, worlds[0].connected);
    } else {
      hide LostBefore;
      FdsAlways(p, worlds, actions, n - 1);
      assert Step(p, worlds[n - 1], actions[n - 1], worlds[n]);
      FdsStep(p, worlds[n - 1], actions[n - 1], worlds[n]);
      LostByStep(p, worlds, actions, n - 1);
    }
  }

  /**
   Over every run, with any reconfigurations, dropped frames, cache hits and failures: no descriptor
   is ever closed or handed over twice, or while it is queued; once the capture is dropped the
   channel is empty; and every descriptor has then been closed or handed over exactly once if and
   only if no import failed before its driver was asked. That ends the thread, so one is lost at most.
   */
  lemma NoDescriptorLeaks(p: Params, worlds: seq<World>, actions: seq<Action>, n: nat)
    requires Run(p, worlds, actions) && n <= |actions|
    ensures var c := worlds[n].capture;
            forall fd: nat :: fd < c.nextFd ==>
              multiset(Fds(c.queue))[fd] + multiset(c.closed)[fd] + multiset(c.handed)[fd] <= 1
    ensures worlds[n].phase.Done? ==>
              var c := worlds[n].capture;
              && c.queue == []
              && ((forall fd: nat :: fd < c.nextFd ==> DisposedOnce(c, fd))
                  <==> !LostBefore(p, worlds, actions, n))
  {
    hide Next, LosesFd, Numbers;
    FdsAlways(p, worlds, actions, n);
    var c := worlds[n].capture;
    forall fd: nat | fd < c.nextFd
      ensures multiset(Fds(c.queue))[fd] + multiset(c.closed)[fd] + multiset(c.handed)[fd] <= 1
    {
      NumbersOnce(c.nextFd, fd);
      assert (multiset(Fds(c.queue)) + Held(c) + multiset(c.closed) + multiset(c.handed))[fd] == 1;
    }
    if worlds[n].phase.Done? { DisposedExactly(c); }
  }

  // Cadence.

  /** How many units follow the last keyframe. */
  function SinceIdr(out: seq<Unit>): nat {
    if out == [] || out[|out| - 1].idr then 0 else 1 + SinceIdr(out[..|out| - 1])
  }

  /** A unit, against those before it: session starts are keyframes, and counts restart at keyframes. */
  ghost predicate UnitValid(out: seq<Unit>, i: nat)
    requires i < |out|
  {
    && (i == 0 || out[i].session != out[i - 1].session ==> out[i].idr && out[i].timestamp == 0)
    && (i > 0 && out[i].session == out[i - 1].session ==> out[i].timestamp == out[i - 1].timestamp + 1)
    && SinceIdr(out[..i + 1]) < GOP_LENGTH
    && out[i].poc == if out[i].codec.H264? then None else Some(SinceIdr(out[..i + 1]))
  }

  ghost predicate SessionValid(out: seq<Unit>, s: Session, sessions: nat) {
    && s.number < sessions
    && (s.frameIndex == 0 ==> s.poc == 0 && forall u <- out :: u.session < s.number)
    && (s.frameIndex > 0 ==>
          && out != [] && out[|out| - 1].session == s.number && out[|out| - 1].timestamp == s.frameIndex - 1
          && SinceIdr(out) <= (s.frameIndex - 1) % GOP_LENGTH
          && s.poc == if s.codec.H264? then 0 else SinceIdr(out))
  }

  ghost predicate CadenceValid(w: World) {
    && (forall u <- w.out :: u.session < w.sessions)
    && (forall i :: 0 <= i < |w.out| ==> UnitValid(w.out, i))
    && (w.phase.Polling? || w.phase.Encoding? ==> SessionValid(w.out, w.phase.session, w.sessions))
  }

  lemma UnitsExtend(out: seq<Unit>, u: Unit)
    requires forall i :: 0 <= i < |out| ==> UnitValid(out, i)
    requires UnitValid(out + [u], |out|)
    ensures forall i :: 0 <= i < |out + [u]| ==> UnitValid(out + [u], i)
  {
    hide SinceIdr;
    forall i | 0 <= i < |out| ensures UnitValid(out + [u], i) {
      assert (out + [u])[..i + 1] == out[..i + 1];
      assert UnitValid(out, i);
    }
  }

  lemma SinceExtends(out: seq<Unit>, u: Unit)
    ensures SinceIdr(out + [u]) == if u.idr then 0 else 1 + SinceIdr(out)
  {
    assert (out + [u])[..|out|] == out;
  }

  lemma NextIndex(n: nat)
    requires n > 0 && n % GOP_LENGTH != 0
    ensures (n - 1) % GOP_LENGTH + 1 == n % GOP_LENGTH
  {}

  lemma EncodeKeepsCadence(w: World, succeeds: bool)
    requires w.phase.Encoding? && CadenceValid(w)
    ensures CadenceValid(EncodeOnce(w, succeeds))
  {
    hide SinceIdr;
    var v := EncodeOnce(w, succeeds);
    if succeeds {
      var s, n := w.phase.session, |w.out|;
      var u := v.out[n];
      assert v.out == w.out + [u];
      SinceExtends(w.out, u);
      if !Natural(s) { NextIndex(s.frameIndex); }
      assert v.out[..n + 1] == v.out;
      assert UnitValid(v.out, n);
      UnitsExtend(w.out, u);
    }
  }

  lemma CadenceStep(p: Params, w: World, a: Action, w': World)
    requires Step(p, w, a, w') && CadenceValid(w)
    ensures CadenceValid(w')
  {
    hide UnitValid, EncodeOnce, SinceIdr, Processed, Drained, Taken, Close, Hand, PollOnce;
    match a
    case Encode(ok) => EncodeKeepsCadence(w, ok);
    case Poll(f, i) => PollKeepsSession(p, w, f, i);
    case _ =>
  }

  lemma PollKeepsSession(p: Params, w: World, fstatSucceeds: bool, outcome: Import)
    requires w.phase.Polling?
    ensures var v := PollOnce(p, w, fstatSucceeds, outcome);
            && v.out == w.out && v.sessions == w.sessions
            && (v.phase.Polling? || v.phase.Encoding?
                ==> v.phase.session.(registered := {}) == w.phase.session.(registered := {}))
  {
    hide Taken, Close, Hand;
  }

  /**
   Cadence over every run, reconfigurations included: the first picture of each session is a
   keyframe, at most 299 pictures in a row are not, and for HEVC and AV1 the picture order count is
   the number of pictures since the last keyframe.
   */
  lemma {:induction false} CadenceAlways(p: Params, worlds: seq<World>, actions: seq<Action>, n: nat)
    requires Run(p, worlds, actions) && n <= |actions|
    ensures CadenceValid(worlds[n])
  {
    hide Next, UnitValid;
    if n > 0 {
      CadenceAlways(p, worlds, actions, n - 1);
      assert Step(p, worlds[n - 1], actions[n - 1], worlds[n]);
      CadenceStep(p, worlds[n - 1], actions[n - 1], worlds[n]);
    }
  }

  /** A short count since the last keyframe is a keyframe that far back. */
  lemma {:induction false} KeyframeBehind(out: seq<Unit>) returns (j: nat)
    requires out != [] && out[0].idr
    ensures j < |out| && out[j].idr && |out| - 1 - j == SinceIdr(out)
  {
    if out[|out| - 1].idr {
      j := |out| - 1;
    } else {
      j := KeyframeBehind(out[..|out| - 1]);
    }
  }

  /** Among any 300 consecutive pictures of a run there is a keyframe. */
  lemma KeyframeEvery300(p: Params, worlds: seq<World>, actions: seq<Action>, n: nat, i: nat) returns (j: nat)
    requires Run(p, worlds, actions) && n <= |actions| && i < |worlds[n].out|
    ensures i - GOP_LENGTH < j <= i && worlds[n].out[j].idr
  {
    hide Next, SinceIdr;
    CadenceAlways(p, worlds, actions, n);
    var out := worlds[n].out;
    assert UnitValid(out, 0) && UnitValid(out, i);
    j := KeyframeBehind(out[..i + 1]);
  }

  // Keyframe requests.

  ghost predicate NoEncodeBetween(actions: seq<Action>, i: nat, j: nat) {
    forall k :: i <= k < j && k < |actions| ==> !actions[k].Encode?
  }

  lemma OnlyEncodeClears(p: Params, w: World, a: Action, w': World)
    requires Step(p, w, a, w') && !a.Encode?
    ensures w'.forced == (w.forced || a.RequestKeyframe?)
  {
    hide Processed, Drained;
  }

  lemma {:induction false} RequestWaits(p: Params, worlds: seq<World>, actions: seq<Action>, i: nat, j: nat)
    requires Run(p, worlds, actions) && i <= j <= |actions| && worlds[i].forced && NoEncodeBetween(actions, i, j)
    ensures worlds[j].forced
  {
    hide Next;
    if i < j {
      RequestWaits(p, worlds, actions, i, j - 1);
      assert Step(p, worlds[j - 1], actions[j - 1], worlds[j]);
      OnlyEncodeClears(p, worlds[j - 1], actions[j - 1], worlds[j]);
    }
  }

  /** No request is lost: the next picture encoded after it is a keyframe, in whatever session. */
  lemma RequestServed(p: Params, worlds: seq<World>, actions: seq<Action>, r: nat, e: nat)
    requires Run(p, worlds, actions) && r < e < |actions|
    requires actions[r].RequestKeyframe? && actions[e] == Encode(true) && NoEncodeBetween(actions, r, e)
    ensures |worlds[e + 1].out| == |worlds[e].out| + 1 && worlds[e + 1].out[|worlds[e].out|].idr
  {
    assert Step(p, worlds[r], actions[r], worlds[r + 1]);
    RequestWaits(p, worlds, actions, r + 1, e);
    assert Step(p, worlds[e], actions[e], worlds[e + 1]);
  }

  /**
   The flag is not read when a keyframe is due anyway, so a request answered by a due keyframe makes
   the next picture a keyframe as well; otherwise it is used up exactly once.
   */
  lemma RequestUsedUp(p: Params, worlds: seq<World>, actions: seq<Action>, e: nat, f: nat)
    requires Run(p, worlds, actions) && e < f < |actions| && actions[e] == Encode(true) && actions[f] == Encode(true)
    requires NoEncodeBetween(actions, e + 1, f) && (forall k :: e < k < f ==> !actions[k].RequestKeyframe?)
    requires worlds[e].forced && worlds[e].phase.Encoding? && worlds[f].phase.Encoding?
    ensures worlds[f + 1].out[|worlds[f].out|].idr
            <==> Natural(worlds[e].phase.session) || Natural(worlds[f].phase.session)
  {
    assert Step(p, worlds[e], actions[e], worlds[e + 1]);
    FlagKept(p, worlds, actions, e + 1, f);
    assert Step(p, worlds[f], actions[f], worlds[f + 1]);
  }

  lemma {:induction false} FlagKept(p: Params, worlds: seq<World>, actions: seq<Action>, i: nat, j: nat)
    requires Run(p, worlds, actions) && i <= j <= |actions|
    requires NoEncodeBetween(actions, i, j) && (forall k :: i <= k < j ==> !actions[k].RequestKeyframe?)
    ensures worlds[j].forced == worlds[i].forced
  {
    hide Next;
    if i < j {
      FlagKept(p, worlds, actions, i, j - 1);
      assert Step(p, worlds[j - 1], actions[j - 1], worlds[j]);
      OnlyEncodeClears(p, worlds[j - 1], actions[j - 1], worlds[j]);
    }
  }

  // Which frames are encoded, and under which settings.

  /** A connected client is watching, and this frame is of the encoder's kind and size. */
  predicate Watched(p: Params, connected: bool, f: Frame) {
    connected && f.isDmaBuf && f.format.width == p.width && f.format.height == p.height
  }

  /**
   What a poll does with the first frame of the channel, when neither a shutdown nor new settings
   come first: the frame is taken, and goes on to be encoded if and only if it is watched and its
   buffer is known or can be imported. A frame that is not watched is closed and nothing else
   changes; a watched one whose buffer cannot be imported ends the thread.
   */
  lemma PollTakesFrame(p: Params, worlds: seq<World>, actions: seq<Action>, n: nat)
    requires Run(p, worlds, actions) && n < |actions| && actions[n].Poll?
    requires !worlds[n].shutdown && worlds[n].pending.None? && worlds[n].capture.queue != []
    ensures var w, v, f := worlds[n], worlds[n + 1], worlds[n].capture.queue[0];
            var s, c := w.phase.session, w.capture.(queue := w.capture.queue[1..], held := None);
            var imports := actions[n].outcome.Imported? && (p.arrayImport ==> actions[n].fstatSucceeds);
            if !Watched(p, w.connected, f) then v == w.(capture := c.(closed := c.closed + [f.fd]))
            else if f.identity in s.registered then
              v == w.(capture := c.(closed := c.closed + [f.fd]), phase := Encoding(s, f.identity))
            else if imports then
              v == w.(capture := c.(handed := c.handed + [f.fd]),
                      phase := Encoding(s.(registered := s.registered + {f.identity}), f.identity))
            else v == w.(capture := v.capture, phase := Dropping) && v.capture.queue == c.queue
  {
    assert Step(p, worlds[n], actions[n], worlds[n + 1]);
  }

  /** A poll before which something else comes: the end, new settings, or no frame in time. */
  lemma PollWithoutFrame(p: Params, worlds: seq<World>, actions: seq<Action>, n: nat)
    requires Run(p, worlds, actions) && n < |actions| && actions[n].Poll?
    ensures var w, v := worlds[n], worlds[n + 1];
            && (w.shutdown ==> v == w.(phase := Dropping))
            && (!w.shutdown && w.pending.Some? ==>
                  v == w.(settings := w.pending.value, pending := None, phase := Outer))
            && (!w.shutdown && w.pending.None? && w.capture.queue == [] ==> v == w)
  {
    assert Step(p, worlds[n], actions[n], worlds[n + 1]);
  }

  lemma {:induction false} EncodingWaits(p: Params, worlds: seq<World>, actions: seq<Action>, i: nat, j: nat)
    requires Run(p, worlds, actions) && i <= j <= |actions| && worlds[i].phase.Encoding? && NoEncodeBetween(actions, i, j)
    ensures worlds[j].phase == worlds[i].phase && worlds[j].out == worlds[i].out
  {
    if i < j {
      hide Processed, Drained;
      EncodingWaits(p, worlds, actions, i, j - 1);
      assert Step(p, worlds[j - 1], actions[j - 1], worlds[j]);
    }
  }

  /**
   Every watched frame whose buffer is known or can be imported becomes exactly one picture, if the
   encoder succeeds: the next one, of the session at hand and numbered by it, whatever the producer
   and the other threads do in between.
   */
  lemma WatchedIsEncoded(p: Params, worlds: seq<World>, actions: seq<Action>, n: nat, e: nat)
    requires Run(p, worlds, actions) && n < e < |actions|
    requires actions[n].Poll? && actions[e] == Encode(true) && NoEncodeBetween(actions, n + 1, e)
    requires !worlds[n].shutdown && worlds[n].pending.None? && worlds[n].capture.queue != []
    requires Watched(p, worlds[n].connected, worlds[n].capture.queue[0])
    requires worlds[n].phase.Polling?
    requires worlds[n].capture.queue[0].identity in worlds[n].phase.session.registered
             || (actions[n].outcome.Imported? && (p.arrayImport ==> actions[n].fstatSucceeds))
    ensures var s, out := worlds[n].phase.session, worlds[e + 1].out;
            && |out| == |worlds[n].out| + 1 && out[..|worlds[n].out|] == worlds[n].out
            && var u := out[|worlds[n].out|];
               && u.session == s.number && u.codec == s.codec && u.timestamp == s.frameIndex
               && (u.idr <==> s.frameIndex % 300 == 0 || worlds[e].forced)
    ensures worlds[e + 1].phase.Polling? && worlds[e + 1].phase.session.frameIndex == worlds[n].phase.session.frameIndex + 1
  {
    PollTakesFrame(p, worlds, actions, n);
    EncodingWaits(p, worlds, actions, n + 1, e);
    assert Step(p, worlds[e], actions[e], worlds[e + 1]);
  }

  /** No picture without a frame: `out` grows only by an encode, one picture each. */
  lemma OnlyEncodeAppends(p: Params, worlds: seq<World>, actions: seq<Action>, n: nat)
    requires Run(p, worlds, actions) && n < |actions|
    ensures actions[n] != Encode(true) ==> worlds[n + 1].out == worlds[n].out
    ensures actions[n] == Encode(true) ==> |worlds[n + 1].out| == |worlds[n].out| + 1 && worlds[n].phase.Encoding?
  {
    hide Processed, Drained;
    assert Step(p, worlds[n], actions[n], worlds[n + 1]);
  }

  /** The settings last asked for, else those the thread began with. */
  function Requested(initial: Settings, actions: seq<Action>): Settings {
    if actions == [] then initial else
      var a := actions[|actions| - 1];
      if a.Reconfigure? then a.settings else Requested(initial, actions[..|actions| - 1])
  }

  /** Settings in force, or those waiting to replace them. */
  function Current(w: World): Settings { if w.pending.Some? then w.pending.value else w.settings }

  /** No request for settings is lost: those in force or waiting to be taken are the last requested. */
  lemma {:induction false} SettingsFollowRequests(p: Params, worlds: seq<World>, actions: seq<Action>, n: nat)
    requires Run(p, worlds, actions) && n <= |actions|
    ensures Current(worlds[n]) == Requested(worlds[0].settings, actions[..n])
  {
    if n > 0 {
      hide Next;
      SettingsFollowRequests(p, worlds, actions, n - 1);
      assert Step(p, worlds[n - 1], actions[n - 1], worlds[n]);
      assert actions[..n][..n - 1] == actions[..n - 1];
      SettingsStep(p, worlds[n - 1], actions[n - 1]);
    }
  }

  lemma SettingsStep(p: Params, w: World, a: Action)
    requires Enabled(w, a)
    ensures Current(Next(p, w, a)) == if a.Reconfigure? then a.settings else Current(w)
  {
    hide Processed, Drained, HandleTaken, EncodeOnce;
    match a
    case Encode(ok) => EncodeKeepsSettings(w, ok);
    case Poll(f, i) =>
      if w.capture.queue != [] { HandlingKeepsSettings(p, w.(capture := Taken(w.capture)), w.capture.queue[0], f, i); }
    case _ =>
  }

  lemma EncodeKeepsSettings(w: World, succeeds: bool)
    requires w.phase.Encoding?
    ensures Current(EncodeOnce(w, succeeds)) == Current(w)
  {}

  lemma HandlingKeepsSettings(p: Params, w: World, f: Frame, fstatSucceeds: bool, outcome: Import)
    requires w.phase.Polling? && w.capture.held.Some?
    ensures Current(HandleTaken(p, w, f, fstatSucceeds, outcome)) == Current(w)
  {
    hide Close, Hand;
  }

  /** A session that starts right after its settings were taken is of the codec last requested. */
  lemma SessionsFollowRequests(p: Params, worlds: seq<World>, actions: seq<Action>, n: nat)
    requires Run(p, worlds, actions) && n < |actions| && actions[n] == StartSession(true)
    requires worlds[n].pending.None? && !worlds[n].shutdown
    ensures worlds[n + 1].phase
            == Polling(Session(worlds[n].sessions, Requested(worlds[0].settings, actions[..n]).codec, {}, 0, 0))
    ensures worlds[n + 1].sessions == worlds[n].sessions + 1
  {
    SettingsFollowRequests(p, worlds, actions, n);
    assert Step(p, worlds[n], actions[n], worlds[n + 1]);
  }

  /** Whether a client was last said to be connected. */
  function SaidConnected(initial: bool, actions: seq<Action>): bool {
    if actions == [] then initial else
      var a := actions[|actions| - 1];
      if a.SetConnected? then a.connected else SaidConnected(initial, actions[..|actions| - 1])
  }

  lemma {:induction false} FlagsFollowCalls(p: Params, worlds: seq<World>, actions: seq<Action>, n: nat)
    requires Run(p, worlds, actions) && n <= |actions|
    ensures worlds[n].connected == SaidConnected(worlds[0].connected, actions[..n])
    ensures worlds[n].shutdown <==> RequestShutdown in actions[..n]
  {
    if n > 0 {
      hide Next;
      FlagsFollowCalls(p, worlds, actions, n - 1);
      assert Step(p, worlds[n - 1], actions[n - 1], worlds[n]);
      assert actions[..n] == actions[..n - 1] + [actions[n - 1]];
      assert actions[..n][..n - 1] == actions[..n - 1];
      FlagsStep(p, worlds[n - 1], actions[n - 1]);
    }
  }

  lemma FlagsStep(p: Params, w: World, a: Action)
    requires Enabled(w, a)
    ensures Next(p, w, a).connected == if a.SetConnected? then a.connected else w.connected
    ensures Next(p, w, a).shutdown == (w.shutdown || a.RequestShutdown?)
  {
    hide Processed, Drained, Close, Hand, Taken;
  }

  /**
   How the thread ends: with a session that cannot start or a picture that cannot be encoded, for
   which no unit is appended; then its capture is joined, drained, and that is all.
   */
  lemma ThreadEnds(p: Params, worlds: seq<World>, actions: seq<Action>, n: nat)
    requires Run(p, worlds, actions) && n < |actions|
    ensures var w, v := worlds[n], worlds[n + 1];
            && (actions[n].StartSession? && (w.shutdown || !actions[n].succeeds) ==> v == w.(phase := Dropping))
            && (actions[n] == Encode(false) ==> v == w.(phase := Dropping, forced := v.forced))
            && (actions[n].Join? ==>
                  w.phase.Dropping? && v == w.(phase := Draining, capture := w.capture.(producing := false)))
            && (actions[n].Drain? ==> w.phase.Draining? && v == w.(phase := Done, capture := v.capture))
  {
    hide Processed, Drained;
    assert Step(p, worlds[n], actions[n], worlds[n + 1]);
  }

  // The channel.

  /** The format last negotiated. */
  function Negotiated(actions: seq<Action>): Format {
    if actions == [] then Format(0, 0, 0, 0) else
      var a := actions[|actions| - 1];
      if a.Renegotiate? then a.format else Negotiated(actions[..|actions| - 1])
  }

  /** This callback brings a frame: its first plane has a descriptor, which could be duplicated. */
  predicate Brings(a: Action) {
    && a.Process? && a.dupSucceeds && a.dequeued.Some? && a.dequeued.value != []
    && !a.dequeued.value[0].kind.MemPtr? && a.dequeued.value[0].fd >= 0
  }

  /** Every frame ever captured, from the callbacks and negotiations alone. */
  function Arrivals(actions: seq<Action>): seq<Frame> {
    if actions == [] then [] else
      var n := |actions| - 1;
      var before := Arrivals(actions[..n]);
      if !Brings(actions[n]) then before else
        var plane := actions[n].dequeued.value[0];
        before + [Frame(|before|, Negotiated(actions[..n]), plane.stride, plane.kind.DmaBuf?, plane.fd)]
  }

  /** How many frames the consumer has taken. */
  function TakenSoFar(c: Capture): nat { |c.closed| + |c.handed| + if c.held.Some? then 1 else 0 }

  ghost predicate ChannelValid(w: World, actions: seq<Action>) {
    !w.phase.Done? ==>
      var c, all := w.capture, Arrivals(actions);
      && TakenSoFar(c) <= |all| == c.nextFd && c.queue == all[TakenSoFar(c)..]
      && c.format == Negotiated(actions)
  }

  lemma Arrives(actions: seq<Action>, a: Action)
    ensures Negotiated(actions + [a]) == if a.Renegotiate? then a.format else Negotiated(actions)
    ensures var before := Arrivals(actions);
            Arrivals(actions + [a])
            == if !Brings(a) then before else
                 var plane := a.dequeued.value[0];
                 before + [Frame(|before|, Negotiated(actions), plane.stride, plane.kind.DmaBuf?, plane.fd)]
  {
    assert (actions + [a])[..|actions|] == actions;
  }

  lemma PollMovesOne(p: Params, w: World, fstatSucceeds: bool, outcome: Import)
    requires w.phase.Polling? && w.capture.held.None?
    ensures var v := PollOnce(p, w, fstatSucceeds, outcome);
            var c, d := w.capture, v.capture;
            && d.nextFd == c.nextFd && d.format == c.format
            && (d == c || (c.queue != [] && d.queue == c.queue[1..] && TakenSoFar(d) == TakenSoFar(c) + 1))
  {
    hide HandleTaken;
    if w.capture.queue != [] {
      HandlingMovesNone(p, w.(capture := Taken(w.capture)), w.capture.queue[0], fstatSucceeds, outcome);
    }
  }

  lemma HandlingMovesNone(p: Params, w: World, f: Frame, fstatSucceeds: bool, outcome: Import)
    requires w.phase.Polling? && w.capture.held.Some?
    ensures var c, d := w.capture, HandleTaken(p, w, f, fstatSucceeds, outcome).capture;
            d.nextFd == c.nextFd && d.format == c.format && d.queue == c.queue && TakenSoFar(d) == TakenSoFar(c)
  {}

  lemma ChannelStep(p: Params, w: World, actions: seq<Action>, a: Action, w': World)
    requires Step(p, w, a, w') && FdsValid(w) && ChannelValid(w, actions)
    ensures ChannelValid(w', actions + [a])
  {
    hide PollOnce, EncodeOnce, Arrivals, Negotiated, Conserved, TakenSoFar;
    Arrives(actions, a);
    match a
    case Poll(f, i) => PollMovesOne(p, w, f, i);
    case Encode(ok) => EncodeTouchesNoFds(w, ok);
    case Drain =>
    case _ => SameTaken(p, w, a);
  }

  lemma SameTaken(p: Params, w: World, a: Action)
    requires Enabled(w, a) && !a.Poll? && !a.Encode? && !a.Drain?
    ensures TakenSoFar(Next(p, w, a).capture) == TakenSoFar(w.capture)
  {}

  /**
   Until the capture is drained, the channel holds exactly the frames captured and not yet taken, in
   the order of capture, each with the format then negotiated.
   */
  lemma {:induction false} ChannelInOrder(p: Params, worlds: seq<World>, actions: seq<Action>, n: nat)
    requires Run(p, worlds, actions) && n <= |actions|
    ensures ChannelValid(worlds[n], actions[..n])
  {
    if n > 0 {
      hide Next, Arrivals, Negotiated, TakenSoFar, FdsValid, ChannelValid;
      ChannelInOrder(p, worlds, actions, n - 1);
      assert Step(p, worlds[n - 1], actions[n - 1], worlds[n]);
      assert actions[..n] == actions[..n - 1] + [actions[n - 1]];
      FdsAlways(p, worlds, actions, n - 1);
      ChannelStep(p, worlds[n - 1], actions[..n - 1], actions[n - 1], worlds[n]);
    }
  }

  /** Draining closes what is left in the channel, first to last. */
  lemma DrainCloses(p: Params, worlds: seq<World>, actions: seq<Action>, n: nat)
    requires Run(p, worlds, actions) && n < |actions| && actions[n].Drain?
    ensures var c, d := worlds[n].capture, worlds[n + 1].capture;
            && d.queue == [] && d.handed == c.handed && |d.closed| == |c.closed| + |c.queue|
            && forall i :: 0 <= i < |c.queue| ==> d.closed[|c.closed| + i] == c.queue[i].fd
  {
    assert Step(p, worlds[n], actions[n], worlds[n + 1]);
  }
}
