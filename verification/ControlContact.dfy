/**
 A client's first contact with the control server: what each kind of step does to the whole state,
 and that over every run a registered client that connects and speaks is matched and heard.
 */
module ControlContact {
  import opened Bytes
  import opened ControlWire
  import opened ControlServer
  import opened ControlDelivery
  import InputEvents

  // The registry's steps and the order of the loop.

  /** What each step of a session thread does, field by field. */
  lemma ThreadSteps(env: Env, w: World, a: Action, w': World)
    requires Step(env, w, a, w') && (a.DrawEpoch? || a.Insert? || a.Forget?)
    ensures w'.host == w.host && w'.snap == w.snap && w'.phase == w.phase
    ensures w'.drawn == if a.DrawEpoch? then w.drawn + 1 else w.drawn
    ensures forall k, n :: (k, n) in w'.inFlight <==>
              if a.DrawEpoch? then (k, n) in w.inFlight || (k == a.key && n == w.drawn)
              else (k, n) in w.inFlight && !(a.Insert? && k == a.key && n == a.draw)
    ensures forall k :: k in w'.registrations <==>
              if k == a.key && !a.DrawEpoch? then a.Insert? else k in w.registrations
    ensures forall k <- w'.registrations :: w'.registrations[k] ==
              if a.Insert? && k == a.key then a.draw % 0x1_0000_0000_0000_0000 else w.registrations[k]
  {}

  /** What each step of the loop does to the phase and the snapshot: snapshot, sweep, timeouts, one event. */
  lemma LoopSteps(env: Env, w: World, a: Action, w': World)
    requires Step(env, w, a, w') && !a.DrawEpoch? && !a.Insert? && !a.Forget?
    ensures w'.drawn == w.drawn && w'.inFlight == w.inFlight && w'.registrations == w.registrations
    ensures a.TakeSnapshot? ==> w.phase.AtSnapshot? && w'.phase.AtSweep? && w'.snap == w.registrations && w'.host == w.host
    ensures a.SweepStale? ==> w.phase.AtSweep? && w'.phase.AtTimeOut? && w'.snap == w.snap
    ensures a.TimeOutSilent? ==> w.phase.AtTimeOut? && w'.phase.AtService? && w'.snap == w.snap
    ensures a.Service? ==> w.phase.AtService? && (w'.phase.AtSnapshot? || w'.phase.Crashed?) && w'.snap == w.snap
  {
    hide Sweep, TimeOut, Serve;
  }

  // What each event does.

  /** A new connection waits in its slot under a number of its own. */
  lemma ConnectWaits(env: Env, h: Host, snap: map<Key, u64>, i: nat, choice: Option<Key>, now: nat)
    requires i < |h.slots| && h.slots[i].Free?
    ensures Serve(env, h, snap, Connect(i), choice, now)
            == Served(Host(h.slots[i := Pending(h.nextConn, now)], h.calls, h.nextConn + 1), false)
  {}

  /** A disconnection frees the slot, and is reported if the peer was matched. */
  lemma DisconnectFrees(env: Env, h: Host, snap: map<Key, u64>, i: nat, choice: Option<Key>, now: nat)
    requires i < |h.slots| && !h.slots[i].Free?
    ensures var s := h.slots[i];
            var told := if s.Matched? then [Call(s.conn, Disconnected(s.rikey))] else [];
            Serve(env, h, snap, Disconnect(i), choice, now)
            == Served(Host(h.slots[i := Free], h.calls + told, h.nextConn), false)
  {
    assert h.calls + [] == h.calls;
  }

  /** An unmatched peer's message that no key can be chosen for changes nothing. */
  lemma UnmatchedIsIgnored(env: Env, h: Host, snap: map<Key, u64>, i: nat, data: seq<byte>, choice: Option<Key>, now: nat)
    requires i < |h.slots| && h.slots[i].Pending? && (!IsEncryptedMessage(data) || choice.None?)
    ensures Serve(env, h, snap, Receive(i, data), choice, now) == Served(h, false)
  {}

  /** A matched peer's message that says nothing, or cannot be read, is told to nobody; a bad scroll event crashes. */
  lemma OddMessages(env: Env, h: Host, snap: map<Key, u64>, i: nat, data: seq<byte>, choice: Option<Key>, now: nat)
    requires i < |h.slots| && h.slots[i].Matched?
    ensures var served := Serve(env, h, snap, Receive(i, data), choice, now);
            match Parse(env.gcm, data, h.slots[i].rikey)
            case Err(_) => served == Served(h, false)
            case Ok(Other) => served == Served(h, false)
            case Ok(InputData(p)) =>
              && (InputEvents.Decode(env.keymap, p).Unknown? ==> served == Served(h, false))
              && (InputEvents.Decode(env.keymap, p).Panics? ==> served == Served(h, true))
            case _ => true
  {
    hide Parse, InputEvents.Decode;
  }

  /**
   The first wrapped message of a registered client: its slot is matched to its key at the snapshot's
   epoch, the handler is told of the connection, and at once of what the message says.
   */
  lemma FirstMessage(env: Env, h: Host, snap: map<Key, u64>, i: nat, key: Key, sequenceNumber: u32, messageType: u16,
                     payload: seq<byte>, trailing: seq<byte>, choice: Option<Key>, now: nat, note: Note)
    requires Lawful(env.gcm) && SingleKey(env.gcm) && key in snap
    requires i < |h.slots| && h.slots[i].Pending? && |payload| < 0xFF00 && Says(env, key, messageType, payload, note)
    requires Chosen(env, snap, Wrap(env.gcm, key, sequenceNumber, PlainMessage(messageType, payload)) + trailing, choice)
    ensures var conn := h.slots[i].conn;
            var data := Wrap(env.gcm, key, sequenceNumber, PlainMessage(messageType, payload)) + trailing;
            Serve(env, h, snap, Receive(i, data), choice, now)
            == Served(Host(h.slots[i := Matched(conn, key, snap[key])],
                           h.calls + [Call(conn, Connected(key)), Call(conn, note)], h.nextConn), false)
  {
    hide Parse, Wrap, FromTypeAndPayload, InputEvents.Decode, IsEncryptedMessage, Chosen, PlainMessage, Handle;
    PlainParts(messageType, payload);
    var inner := PlainMessage(messageType, payload);
    HonestClientMatches(env, snap, key, sequenceNumber, inner, trailing, choice);
    var m := Match(h, i, key, snap[key]);
    WrappedIsHandled(env, m, snap, i, sequenceNumber, messageType, payload, trailing, choice, now, note);
    assert h.calls + [Call(h.slots[i].conn, Connected(key))] + [Call(h.slots[i].conn, note)]
        == h.calls + [Call(h.slots[i].conn, Connected(key)), Call(h.slots[i].conn, note)];
  }

  // Over runs.

  /** Between these steps the network says nothing about slot i, and ten seconds do not pass for it. */
  ghost predicate Quiet(actions: seq<Action>, a: nat, b: nat, i: nat, connectedAt: nat) {
    forall u :: a < u < b && u < |actions| ==>
      && (actions[u].Service? && !actions[u].event.Nothing? ==> actions[u].event.slot != i)
      && (actions[u].TimeOutSilent? ==> actions[u].now <= connectedAt + 10_000_000_000)
  }

  lemma OtherSlotsKeep(env: Env, w: World, a: Action, w': World, i: nat)
    requires Step(env, w, a, w') && i < |w.host.slots| && w.host.slots[i].Pending?
    requires a.Service? && !a.event.Nothing? ==> a.event.slot != i
    requires a.TimeOutSilent? ==> a.now <= w.host.slots[i].connectedAt + 10_000_000_000
    ensures i < |w'.host.slots| && w'.host.slots[i] == w.host.slots[i]
  {
    hide Handle, Chosen, IsEncryptedMessage;
    match a
    case SweepStale => SweepExactly(w.host, w.snap, i);
    case TimeOutSilent(now) => TimeOutExactly(w.host, now, i);
    case _ =>
  }

  lemma {:induction false} StillPending(
    env: Env, worlds: seq<World>, actions: seq<Action>, a: nat, u: nat, i: nat, choice: Option<Key>, at: nat)
    requires Run(env, worlds, actions) && a < u <= |actions| && actions[a] == Service(Connect(i), choice, at)
    requires Quiet(actions, a, u, i, at)
    ensures i < |worlds[u].host.slots| && worlds[u].host.slots[i] == Pending(worlds[a].host.nextConn, at)
  {
    hide Next, Serve;
    assert Step(env, worlds[u - 1], actions[u - 1], worlds[u]);
    if a < u - 1 {
      StillPending(env, worlds, actions, a, u - 1, i, choice, at);
      OtherSlotsKeep(env, worlds[u - 1], actions[u - 1], worlds[u], i);
    } else {
      ConnectStep(env, worlds[a], i, choice, at, worlds[u]);
    }
  }

  lemma ConnectStep(env: Env, w: World, i: nat, choice: Option<Key>, at: nat, w': World)
    requires Step(env, w, Service(Connect(i), choice, at), w')
    ensures i < |w'.host.slots| && w'.host.slots[i] == Pending(w.host.nextConn, at)
  {
    ConnectWaits(env, w.host, w.snap, i, choice, at);
  }

  /**
   Over every run, a client that connects, whose key is registered in the snapshot of a later tick,
   and whose first word in that tick is any wrapped message that says something, is matched to its
   key, and all that has been told about its connection is that it connected and what it said.
   */
  lemma ClientIsHeard(
    env: Env, worlds: seq<World>, actions: seq<Action>, a: nat, b: nat, i: nat, key: Key, sequenceNumber: u32,
    messageType: u16, payload: seq<byte>, trailing: seq<byte>, note: Note)
    requires Run(env, worlds, actions) && a < b < |actions| && Lawful(env.gcm) && SingleKey(env.gcm)
    requires actions[a].Service? && actions[a].event == Connect(i) && Quiet(actions, a, b, i, actions[a].at)
    requires key in worlds[b].snap && |payload| < 0xFF00 && Says(env, key, messageType, payload, note)
    requires actions[b].Service? && actions[b].event ==
             Receive(i, Wrap(env.gcm, key, sequenceNumber, PlainMessage(messageType, payload)) + trailing)
    ensures i < |worlds[b + 1].host.slots|
    ensures worlds[b + 1].host.slots[i] == Matched(worlds[a].host.nextConn, key, worlds[b].snap[key])
    ensures About(worlds[b + 1].host.calls, worlds[a].host.nextConn) == [Connected(key), note]
    ensures worlds[b + 1].phase.AtSnapshot?
  {
    hide Says, Wrap, PlainMessage, Chosen, About, Serve, Brackets;
    var conn := worlds[a].host.nextConn;
    StillPending(env, worlds, actions, a, b, i, actions[a].choice, actions[a].at);
    NothingAboutPending(env, worlds, actions, b, i);
    var w := worlds[b];
    assert Step(env, w, actions[b], worlds[b + 1]);
    PlainParts(messageType, payload);
    MustChoose(env, w, actions[b], key, sequenceNumber, PlainMessage(messageType, payload), trailing);
    FirstMessage(env, w.host, w.snap, i, key, sequenceNumber, messageType, payload, trailing, actions[b].choice, actions[b].at, note);
    TwoCalls(w.host.calls, conn, Connected(key), note);
  }

  lemma NothingAboutPending(env: Env, worlds: seq<World>, actions: seq<Action>, n: nat, i: nat)
    requires Run(env, worlds, actions) && n <= |actions| && i < |worlds[n].host.slots| && worlds[n].host.slots[i].Pending?
    ensures About(worlds[n].host.calls, worlds[n].host.slots[i].conn) == []
  {
    hide Next, About;
    BracketsAlways(env, worlds, actions, n);
    assert SlotBracket(worlds[n].host, worlds[n].host.slots[i]);
  }

  /** A wrapped message is encrypted, so serving it to an unmatched peer is a choice of key. */
  lemma MustChoose(env: Env, w: World, a: Action, key: Key, sequenceNumber: u32, inner: seq<byte>, trailing: seq<byte>)
    requires Lawful(env.gcm) && 4 <= |inner| && |inner| + 20 < 0x1_0000
    requires Enabled(env, w, a) && a.Service? && a.event.Receive? && a.event.slot < |w.host.slots|
    requires a.event.data == Wrap(env.gcm, key, sequenceNumber, inner) + trailing && w.host.slots[a.event.slot].Pending?
    ensures Chosen(env, w.snap, a.event.data, a.choice)
  {
    hide Chosen;
    assert a.event.data[..2] == Le16(ENCRYPTED);
  }

  lemma TwoCalls(calls: seq<Call>, conn: nat, first: Note, second: Note)
    requires About(calls, conn) == []
    ensures About(calls + [Call(conn, first), Call(conn, second)], conn) == [first, second]
  {
    AboutCall(calls, Call(conn, first), conn);
    AboutCall(calls + [Call(conn, first)], Call(conn, second), conn);
    assert calls + [Call(conn, first)] + [Call(conn, second)] == calls + [Call(conn, first), Call(conn, second)];
  }

  /** Such a run exists, from the start, for every key and every event a client can encode. */
  lemma SomeClientIsHeard(env: Env, key: Key, e: InputEvents.InputEvent, junk: seq<byte>, gen5: bool)
    returns (worlds: seq<World>, actions: seq<Action>)
    requires Lawful(env.gcm) && SingleKey(env.gcm) && InputEvents.Encodable(e) && |junk| == 28
    ensures Run(env, worlds, actions) && |actions| == 10
    ensures worlds[10].host.slots != [] && worlds[10].host.slots[0] == Matched(0, key, 0)
    ensures About(worlds[10].host.calls, 0) == [Connected(key), Input(key, e)]
  {
    hide Wrap, PlainMessage, Serve, Sweep, TimeOut, About, InputEvents.Encode, InputEvents.Decode, FromTypeAndPayload, Parse;
    var payload := InputPayload(InputEvents.Encode(e, junk, gen5));
    EventSays(env, key, e, junk, gen5);
    PlainParts(INPUT_DATA, payload);
    var data := Wrap(env.gcm, key, 0, PlainMessage(INPUT_DATA, payload));
    var w1 := Next(env, Init(), DrawEpoch(key));
    var w2 := Next(env, w1, Insert(key, 0));
    var (w5, ticked) := Tick(env, w2);
    ConnectWaits(env, w5.host, w5.snap, 0, None, 0);
    var w6 := Next(env, w5, Service(Connect(0), None, 0));
    var (w9, again) := Tick(env, w6);
    KeyIsChosen(env, w9.snap, key, payload);
    var last := Service(Receive(0, data), Some(key), 0);
    var w10 := Next(env, w9, last);
    worlds := [Init(), w1, w2] + ticked + [w6] + again + [w10];
    actions := [DrawEpoch(key), Insert(key, 0)] + TICK + [Service(Connect(0), None, 0)] + TICK + [last];
    assert forall u :: 0 <= u < 10 ==> Step(env, worlds[u], actions[u], worlds[u + 1]);
    assert data + [] == data;
    ClientIsHeard(env, worlds, actions, 5, 9, 0, key, 0, INPUT_DATA, payload, [], Input(key, e));
  }

  const TICK: seq<Action> := [TakeSnapshot, SweepStale, TimeOutSilent(0)]

  /** Three steps of the loop, with nothing to sweep or to time out in the first slot. */
  ghost function Tick(env: Env, w: World): (r: (World, seq<World>))
    requires w.phase.AtSnapshot? && w.host.slots != [] && !w.host.slots[0].Matched?
    requires w.host.slots[0].Pending? ==> w.host.slots[0].connectedAt == 0
    ensures |r.1| == 3 && r.1[2] == r.0 && r.0.phase.AtService? && r.0.snap == r.0.registrations == w.registrations
    ensures Step(env, w, TakeSnapshot, r.1[0]) && Step(env, r.1[0], SweepStale, r.1[1])
    ensures Step(env, r.1[1], TimeOutSilent(0), r.1[2])
    ensures r.0.host.slots != [] && r.0.host.slots[0] == w.host.slots[0] && r.0.host.nextConn == w.host.nextConn
  {
    SweepExactly(w.host, w.registrations, 0);
    TimeOutExactly(Sweep(w.host, w.registrations), 0, 0);
    var a := Next(env, w, TakeSnapshot);
    var b := Next(env, a, SweepStale);
    var c := Next(env, b, TimeOutSilent(0));
    (c, [a, b, c])
  }

  lemma EventSays(env: Env, key: Key, e: InputEvents.InputEvent, junk: seq<byte>, gen5: bool)
    requires InputEvents.Encodable(e) && |junk| == 28
    ensures Says(env, key, INPUT_DATA, InputPayload(InputEvents.Encode(e, junk, gen5)), Input(key, e))
    ensures |InputPayload(InputEvents.Encode(e, junk, gen5))| < 0x100
  {
    hide InputEvents.Encode, InputEvents.Decode, FromTypeAndPayload;
    var event := InputEvents.Encode(e, junk, gen5);
    InputParses(event);
    InputEvents.DecodeInvertsEncode(env.keymap, e, junk, gen5, []);
    assert event + [] == event;
  }

  lemma KeyIsChosen(env: Env, snap: map<Key, u64>, key: Key, payload: seq<byte>)
    requires Lawful(env.gcm) && key in snap && |payload| < 0x100 && FromTypeAndPayload(INPUT_DATA, payload).Ok?
    ensures Chosen(env, snap, Wrap(env.gcm, key, 0, PlainMessage(INPUT_DATA, payload)), Some(key))
  {
    hide Wrap, Parse, FromTypeAndPayload;
    var inner := PlainMessage(INPUT_DATA, payload);
    PlainParts(INPUT_DATA, payload);
    ParseWrapped(env.gcm, key, 0, inner, []);
    assert Wrap(env.gcm, key, 0, inner) + [] == Wrap(env.gcm, key, 0, inner);
  }
}
