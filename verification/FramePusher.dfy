/**
 The frame pusher: the capture's other consumer, which wraps each DMA buffer once and pushes it to a
 pipeline under the caps last negotiated. Unlike the encoder it ends when a wait for a frame times out.
 */
module FramePusher {
  import opened Bytes
  import opened Captures

  /** What the pipeline's caps are made from. */
  datatype CapsKey = CapsKey(format: Format, isDmaBuf: bool)

  /** A pipeline buffer: wrapping a descriptor it owns, or holding a copy. */
  datatype Buffer = Wrapped(builtFor: CapsKey, identity: int, fd: nat) | Copied(builtFor: CapsKey, identity: int)

  /** A buffer as pushed, the caps set at that time and the frame it was pushed for. */
  datatype Pushed = Pushed(caps: CapsKey, frame: Frame, buffer: Buffer)

  datatype Phase = Running | Dropping | Draining | Done

  datatype Pusher = Pusher(
    capture: Capture, caps: Option<CapsKey>, cache: map<int, Buffer>, pushed: seq<Pushed>, phase: Phase)

  datatype Action =
    | Renegotiate(format: Format)
    | Process(dequeued: Option<seq<Plane>>, dupSucceeds: bool)
    | Push(capsSucceed: bool, allocSucceeds: bool, mmapSucceeds: bool, pushSucceeds: bool)
    | TimeOut
    | Join
    | Drain

  predicate Enabled(w: Pusher, a: Action) {
    match a
    case Renegotiate(_) => w.capture.producing
    case Process(_, _) => w.capture.producing
    case Push(_, _, _, _) => w.phase.Running? && w.capture.queue != []
    case TimeOut => w.phase.Running? && w.capture.queue == []
    case Join => w.phase.Dropping?
    case Drain => w.phase.Draining?
  }

  const INIT := Pusher(START, None, map[], [], Running)

  function KeyOf(f: Frame): CapsKey { CapsKey(f.format, f.isDmaBuf) }

  const BGRX: u32 := 8
  const BGRA: u32 := 12

  /** The two SPA formats that have a pipeline format; any other one panics. */
  predicate Supported(f: Format) { f.format == BGRX || f.format == BGRA }

  /** Whether this frame needs new caps that cannot be made, which panics while its descriptor is held. */
  predicate CapsPanic(w: Pusher, f: Frame, capsSucceed: bool) {
    w.caps != Some(KeyOf(f)) && !(Supported(f.format) && capsSucceed)
  }

  /** New caps empty the cache. */
  function WithCaps(w: Pusher, key: CapsKey): Pusher {
    if w.caps == Some(key) then w else w.(caps := Some(key), cache := map[])
  }

  function PushBuffer(w: Pusher, key: CapsKey, f: Frame, b: Buffer, pushSucceeds: bool): Pusher {
    if pushSucceeds then w.(pushed := w.pushed + [Pushed(key, f, b)]) else w.(phase := Dropping)
  }

  /** A frame under caps that stand: the cached buffer, a new one, or a copy. */
  function PushTaken(w: Pusher, f: Frame, allocSucceeds: bool, mmapSucceeds: bool, pushSucceeds: bool): Pusher
    requires w.capture.held.Some?
  {
    var c, key := w.capture, KeyOf(f);
    if f.isDmaBuf then
      if f.identity in w.cache then
        PushBuffer(w.(capture := Close(c)), key, f, w.cache[f.identity], pushSucceeds)
      else if !allocSucceeds then w.(capture := Hand(c))
      else
        var b := Wrapped(key, f.identity, f.fd);
        PushBuffer(w.(capture := Hand(c), cache := w.cache[f.identity := b]), key, f, b, pushSucceeds)
    else if !mmapSucceeds then w.(capture := Close(c))
    else PushBuffer(w.(capture := Close(c)), key, f, Copied(key, f.identity), pushSucceeds)
  }

  /** One frame. A panic ends the thread, which drops the capture but not the descriptor it took. */
  function PushFrame(w: Pusher, capsSucceed: bool, allocSucceeds: bool, mmapSucceeds: bool, pushSucceeds: bool): Pusher
    requires w.capture.queue != []
  {
    var f, v := w.capture.queue[0], w.(capture := Taken(w.capture));
    if CapsPanic(w, f, capsSucceed) then v.(phase := Dropping)
    else PushTaken(WithCaps(v, KeyOf(f)), f, allocSucceeds, mmapSucceeds, pushSucceeds)
  }

  function Next(w: Pusher, a: Action): Pusher
    requires Enabled(w, a)
  {
    match a
    case Renegotiate(format) => w.(capture := Renegotiated(w.capture, format))
    case Process(dequeued, dupSucceeds) => w.(capture := Processed(w.capture, dequeued, dupSucceeds))
    case Push(caps, alloc, mmap, push) => PushFrame(w, caps, alloc, mmap, push)
    case TimeOut => w.(phase := Dropping)
    case Join => w.(capture := w.capture.(producing := false), phase := Draining)
    case Drain => w.(capture := Drained(w.capture), phase := Done)
  }

  ghost predicate Run(worlds: seq<Pusher>, actions: seq<Action>) {
    && |worlds| == |actions| + 1 && worlds[0] == INIT
    && forall i :: 0 <= i < |actions| ==> Step(worlds[i], actions[i], worlds[i + 1])
  }

  ghost predicate Step(w: Pusher, a: Action, w': Pusher) { Enabled(w, a) && w' == Next(w, a) }

  /** A buffer fit for this frame under these caps. */
  predicate Fits(b: Buffer, key: CapsKey, identity: int) { b.builtFor == key && b.identity == identity }

  /** Every cached buffer was built under the current caps, for its own identity, from a descriptor it owns. */
  ghost predicate CacheValid(w: Pusher) {
    forall id <- w.cache ::
      && w.caps.Some? && Fits(w.cache[id], w.caps.value, id)
      && w.cache[id].Wrapped? && w.cache[id].fd in w.capture.handed
  }

  ghost predicate PushedValid(w: Pusher) {
    forall k :: 0 <= k < |w.pushed| ==>
      var p := w.pushed[k]; p.caps == CapsKey(p.frame.format, p.frame.isDmaBuf) && Fits(p.buffer, p.caps, p.frame.identity)
  }

  ghost predicate FdsValid(w: Pusher) {
    && Conserved(w.capture)
    && (w.capture.held.Some? ==> w.phase.Dropping? || w.phase.Draining? || w.phase.Done?)
    && (w.phase.Draining? || w.phase.Done? ==> !w.capture.producing)
    && (w.phase.Done? ==> w.capture.queue == [])
  }

  /** This step takes a frame whose caps panic. */
  predicate LosesFd(w: Pusher, a: Action) {
    && a.Push? && w.capture.queue != []
    && var f := w.capture.queue[0];
       w.caps != Some(CapsKey(f.format, f.isDmaBuf)) && (f.format.format !in {8, 12} || !a.capsSucceed)
  }

  lemma PushKeepsCache(w: Pusher, caps: bool, alloc: bool, mmap: bool, push: bool)
    requires w.capture.queue != [] && CacheValid(w)
    ensures CacheValid(PushFrame(w, caps, alloc, mmap, push))
  {
    hide PushTaken, CapsPanic;
    var f, v := w.capture.queue[0], w.(capture := Taken(w.capture));
    if !CapsPanic(w, f, caps) {
      TakenKeepsCache(WithCaps(v, KeyOf(f)), f, alloc, mmap, push);
    }
  }

  lemma TakenKeepsCache(w: Pusher, f: Frame, alloc: bool, mmap: bool, push: bool)
    requires w.capture.held == Some(f.fd) && w.caps == Some(KeyOf(f)) && CacheValid(w)
    ensures CacheValid(PushTaken(w, f, alloc, mmap, push))
  {}

  lemma PushPushesFitting(w: Pusher, caps: bool, alloc: bool, mmap: bool, push: bool)
    requires w.capture.queue != [] && CacheValid(w) && PushedValid(w)
    ensures PushedValid(PushFrame(w, caps, alloc, mmap, push))
  {
    hide PushedValid;
    var v := PushFrame(w, caps, alloc, mmap, push);
    if v.pushed == w.pushed {
      KeepsPushed(w, v);
    } else {
      OnePushed(w, v, v.pushed[|w.pushed|]);
    }
  }

  lemma OnePushed(w: Pusher, v: Pusher, p: Pushed)
    requires PushedValid(w) && v.pushed == w.pushed + [p]
    requires p.caps == KeyOf(p.frame) && Fits(p.buffer, p.caps, p.frame.identity)
    ensures PushedValid(v)
  {}

  lemma PushKeepsFds(w: Pusher, caps: bool, alloc: bool, mmap: bool, push: bool)
    requires w.capture.queue != [] && w.phase.Running? && FdsValid(w)
    ensures var v := PushFrame(w, caps, alloc, mmap, push);
            FdsValid(v) && (v.capture.held.Some? <==> LosesFd(w, Push(caps, alloc, mmap, push)))
  {
    hide Conserved;
    TakenConserves(w.capture);
    DisposedConserves(Taken(w.capture));
  }

  lemma PusherStep(w: Pusher, a: Action, w': Pusher)
    requires Step(w, a, w') && CacheValid(w) && PushedValid(w) && FdsValid(w)
    ensures CacheValid(w') && PushedValid(w') && FdsValid(w')
    ensures w'.capture.held.Some? <==> w.capture.held.Some? || LosesFd(w, a)
  {
    hide PushFrame, PushedValid, Processed, Drained, Conserved;
    match a
    case Renegotiate(format) =>
      SameFds(w.capture, w'.capture);
      KeepsPushed(w, w');
    case Process(dequeued, dupSucceeds) =>
      ProcessedConserves(w.capture, dequeued, dupSucceeds);
      ProcessedOnlyQueues(w.capture, dequeued, dupSucceeds);
      KeepsPushed(w, w');
    case Push(caps, alloc, mmap, push) =>
      PushKeepsCache(w, caps, alloc, mmap, push);
      PushPushesFitting(w, caps, alloc, mmap, push);
      PushKeepsFds(w, caps, alloc, mmap, push);
    case TimeOut => KeepsPushed(w, w');
    case Join =>
      SameFds(w.capture, w'.capture);
      KeepsPushed(w, w');
    case Drain =>
      DrainEmpties(w.capture);
      KeepsPushed(w, w');
  }

  lemma KeepsPushed(w: Pusher, v: Pusher)
    requires PushedValid(w) && v.pushed == w.pushed
    ensures PushedValid(v)
  {}

  ghost predicate LostBefore(worlds: seq<Pusher>, actions: seq<Action>, n: nat)
    requires n <= |actions| < |worlds|
  {
    exists k :: 0 <= k < n && LosesFd(worlds[k], actions[k])
  }

  lemma LostByStep(worlds: seq<Pusher>, actions: seq<Action>, n: nat)
    requires n < |actions| < |worlds|
    ensures LostBefore(worlds, actions, n + 1) <==> LostBefore(worlds, actions, n) || LosesFd(worlds[n], actions[n])
  {
    hide LosesFd;
  }

  /**
   Over every run of the pusher: every cached buffer was built under the current caps, every buffer
   is pushed under the caps it was built for, and a descriptor is left held exactly when a frame was
   taken whose new caps could not be made.
   */
  lemma {:induction false} PusherAlways(worlds: seq<Pusher>, actions: seq<Action>, n: nat)
    requires Run(worlds, actions) && n <= |actions|
    ensures CacheValid(worlds[n]) && PushedValid(worlds[n]) && FdsValid(worlds[n])
    ensures worlds[n].capture.held.Some? <==> LostBefore(worlds, actions, n)
  {
    hide Next, LosesFd, FdsValid, PushedValid, CacheValid;
    if n == 0 {
      InitValid();
    } else {
      hide LostBefore;
      PusherAlways(worlds, actions, n - 1);
      assert Step(worlds[n - 1], actions[n - 1], worlds[n]);
      PusherStep(worlds[n - 1], actions[n - 1], worlds[n]);
      LostByStep(worlds, actions, n - 1);
    }
  }

  lemma InitValid()
    ensures CacheValid(INIT) && PushedValid(INIT) && FdsValid(INIT) && INIT.capture.held.None?
  {
    StartConserved();
  }

  /**
   Once the pusher's capture is dropped, every descriptor has been closed or handed over exactly once
   if and only if every frame that needed new caps had a supported format and got them.
   */
  lemma PusherLeaksExactly(worlds: seq<Pusher>, actions: seq<Action>, n: nat)
    requires Run(worlds, actions) && n <= |actions| && worlds[n].phase.Done?
    ensures worlds[n].capture.queue == []
    ensures (forall fd: nat :: fd < worlds[n].capture.nextFd ==> DisposedOnce(worlds[n].capture, fd))
            <==> !LostBefore(worlds, actions, n)
  {
    hide Next, LostBefore;
    PusherAlways(worlds, actions, n);
    DisposedExactly(worlds[n].capture);
  }

  /** A cached buffer's descriptor is never closed by this thread. */
  lemma CachedStaysOpen(worlds: seq<Pusher>, actions: seq<Action>, n: nat, identity: int)
    requires Run(worlds, actions) && n <= |actions| && identity in worlds[n].cache
    ensures worlds[n].cache[identity].Wrapped? && worlds[n].cache[identity].fd !in worlds[n].capture.closed
  {
    hide Next;
    PusherAlways(worlds, actions, n);
    HandedNotClosed(worlds[n].capture, worlds[n].cache[identity].fd);
  }

  /**
   Which frames are pushed: once the caps stand, a DMA buffer is pushed as the cached buffer of its
   identity if the caps did not change, else as a new one around its own descriptor, and any other
   frame as a copy. What a step does to the descriptor, and when the thread ends, is told with it.
   */
  lemma PushExactly(worlds: seq<Pusher>, actions: seq<Action>, n: nat)
    requires Run(worlds, actions) && n < |actions| && actions[n].Push?
    ensures var w, v, a, f := worlds[n], worlds[n + 1], actions[n], worlds[n].capture.queue[0];
            var key := CapsKey(f.format, f.isDmaBuf);
            var kept := w.caps == Some(key);
            var cached := kept && f.isDmaBuf && f.identity in w.cache;
            var built := if f.isDmaBuf then cached || a.allocSucceeds else a.mmapSucceeds;
            var buffer := if cached then w.cache[f.identity]
                          else if f.isDmaBuf then Wrapped(key, f.identity, f.fd) else Copied(key, f.identity);
            && v.capture.queue == w.capture.queue[1..]
            && if !kept && (f.format.format !in {8, 12} || !a.capsSucceed) then
                 v == w.(capture := v.capture, phase := Dropping) && v.capture.held == Some(f.fd)
               else
                 && v.caps == Some(key) && v.capture.held.None?
                 && (if f.isDmaBuf && !cached then v.capture.handed == w.capture.handed + [f.fd]
                     else v.capture.closed == w.capture.closed + [f.fd])
                 && v.cache == (var before := if kept then w.cache else map[];
                                if f.isDmaBuf && built then before[f.identity := buffer] else before)
                 && v.pushed == (if built && a.pushSucceeds then w.pushed + [Pushed(key, f, buffer)] else w.pushed)
                 && v.phase == if built && !a.pushSucceeds then Dropping else Running
  {
    assert Step(worlds[n], actions[n], worlds[n + 1]);
  }

  /** When the thread ends: a wait that times out ends it, its capture is joined and then drained. */
  lemma PusherEnds(worlds: seq<Pusher>, actions: seq<Action>, n: nat)
    requires Run(worlds, actions) && n < |actions|
    ensures var w, v := worlds[n], worlds[n + 1];
            && (actions[n].TimeOut? ==> v == w.(phase := Dropping) && w.capture.queue == [])
            && (actions[n].Join? ==>
                  w.phase.Dropping? && v.phase.Draining? && v.capture == w.capture.(producing := false))
            && (actions[n].Drain? ==>
                  && w.phase.Draining? && v.phase.Done? && v.capture.queue == []
                  && v.pushed == w.pushed && v.cache == w.cache && v.capture.handed == w.capture.handed)
  {
    assert Step(worlds[n], actions[n], worlds[n + 1]);
  }

  class PusherThread {
    const capture: PipewireCapture
    var currentCapsKey: Option<CapsKey>
    var bufferCache: map<int, Buffer>
    var pushed: seq<Pushed>
    var phase: Phase

    ghost function View(): Pusher
      reads this, capture
    {
      Pusher(capture.View(), currentCapsKey, bufferCache, pushed, phase)
    }

    constructor ()
      ensures fresh(capture) && View() == INIT
    {
      capture := new PipewireCapture();
      currentCapsKey, bufferCache, pushed, phase := None, map[], [], Running;
    }

    /** The buffer to push for a frame, if there is one; the frame's descriptor is disposed of. */
    method BufferFor(frame: Frame, allocSucceeds: bool, mmapSucceeds: bool) returns (buffer: Option<Buffer>)
      requires capture.held.Some?
      modifies this`bufferCache, capture`held, capture`closed, capture`handed
      ensures var key := KeyOf(frame);
              var cached := frame.isDmaBuf && frame.identity in old(bufferCache);
              var made := if cached then old(bufferCache[frame.identity])
                          else if frame.isDmaBuf then Wrapped(key, frame.identity, frame.fd)
                          else Copied(key, frame.identity);
              && (buffer.Some? <==> if frame.isDmaBuf then cached || allocSucceeds else mmapSucceeds)
              && (buffer.Some? ==> buffer.value == made)
              && bufferCache == (if frame.isDmaBuf && buffer.Some? && !cached
                                 then old(bufferCache)[frame.identity := buffer.value] else old(bufferCache))
              && capture.View() == (if frame.isDmaBuf && !cached then Hand(old(capture.View()))
                                    else Close(old(capture.View())))
    {
      if frame.isDmaBuf {
        if frame.identity in bufferCache {
          capture.CloseFd();
          return Some(bufferCache[frame.identity]);
        }
        capture.HandFd();
        if !allocSucceeds { return None; }
        buffer := Some(Wrapped(KeyOf(frame), frame.identity, frame.fd));
        bufferCache := bufferCache[frame.identity := buffer.value];
      } else {
        capture.CloseFd();
        return if mmapSucceeds then Some(Copied(KeyOf(frame), frame.identity)) else None;
      }
    }

    method Iterate(capsSucceed: bool, allocSucceeds: bool, mmapSucceeds: bool, pushSucceeds: bool)
      requires phase == Running && capture.held.None?
      modifies this, capture`queue, capture`held, capture`closed, capture`handed
      ensures View() == if old(capture.queue) == [] then Next(old(View()), TimeOut)
                        else PushFrame(old(View()), capsSucceed, allocSucceeds, mmapSucceeds, pushSucceeds)
    {
      var frame := capture.NextFrame();
      if frame.None? {
        phase := Dropping;
        return;
      }
      var key := KeyOf(frame.value);
      if currentCapsKey != Some(key) {
        if !Supported(frame.value.format) || !capsSucceed {
          phase := Dropping;
          return;
        }
        currentCapsKey, bufferCache := Some(key), map[];
      }
      var buffer := BufferFor(frame.value, allocSucceeds, mmapSucceeds);
      if buffer.None? { return; }
      if pushSucceeds {
        pushed := pushed + [Pushed(key, frame.value, buffer.value)];
      } else {
        phase := Dropping;
      }
    }
  }
}
