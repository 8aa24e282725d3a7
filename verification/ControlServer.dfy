/**
 The control server. Session threads register and forget keys while one loop takes a snapshot of
 them, sweeps stale peers, gives up on silent ones and serves one network event; `Action` lists the
 steps that interleave. A connection number is bookkeeping: the server knows a connection by its slot.
 */
module ControlServer {
  import opened Bytes
  import opened ControlWire
  import InputEvents

  /** The cipher and the keyboard table, neither of which is modelled. */
  datatype Env = Env(gcm: Gcm, keymap: byte -> Option<u32>)

  datatype Slot =
    | Free
    | Pending(conn: nat, connectedAt: nat)
    | Matched(conn: nat, rikey: Key, epoch: u64)

  /** What the event handler is told. */
  datatype Note =
    | Connected(rikey: Key)
    | Input(rikey: Key, event: InputEvents.InputEvent)
    | RequestIdr(rikey: Key)
    | LossReport(rikey: Key, lastGoodFrame: u64)
    | Disconnected(rikey: Key)

  datatype Call = Call(conn: nat, note: Note)

  datatype Host = Host(slots: seq<Slot>, calls: seq<Call>, nextConn: nat)

  const PEERS := 4
  const PENDING_MATCH_TIMEOUT := 10_000_000_000 // nanoseconds

  // What can happen to one slot.

  function Open(h: Host, i: nat, now: nat): Host
    requires i < |h.slots|
  {
    h.(slots := h.slots[i := Pending(h.nextConn, now)], nextConn := h.nextConn + 1)
  }

  function Close(h: Host, i: nat): Host
    requires i < |h.slots|
  {
    var calls := if h.slots[i].Matched?
                 then h.calls + [Call(h.slots[i].conn, Disconnected(h.slots[i].rikey))] else h.calls;
    h.(slots := h.slots[i := Free], calls := calls)
  }

  function Match(h: Host, i: nat, rikey: Key, epoch: u64): Host
    requires i < |h.slots| && h.slots[i].Pending?
  {
    h.(slots := h.slots[i := Matched(h.slots[i].conn, rikey, epoch)],
       calls := h.calls + [Call(h.slots[i].conn, Connected(rikey))])
  }

  function Tell(h: Host, i: nat, notes: seq<Note>): Host
    requires i < |h.slots| && h.slots[i].Matched? && |notes| <= 1
  {
    if notes == [] then h else h.(calls := h.calls + [Call(h.slots[i].conn, notes[0])])
  }

  // The steps of one tick of the loop.

  predicate Stale(s: Slot, snap: map<Key, u64>) {
    s.Matched? && !(s.rikey in snap && snap[s.rikey] == s.epoch)
  }

  predicate Silent(s: Slot, now: nat) { s.Pending? && now - s.connectedAt > PENDING_MATCH_TIMEOUT }

  function SweepFirst(h: Host, snap: map<Key, u64>, n: nat): (r: Host)
    requires n <= |h.slots|
    ensures |r.slots| == |h.slots|
  {
    if n == 0 then h else
      var before := SweepFirst(h, snap, n - 1);
      if Stale(before.slots[n - 1], snap) then Close(before, n - 1) else before
  }

  function Sweep(h: Host, snap: map<Key, u64>): Host { SweepFirst(h, snap, |h.slots|) }

  function TimeOutFirst(h: Host, now: nat, n: nat): (r: Host)
    requires n <= |h.slots|
    ensures |r.slots| == |h.slots|
  {
    if n == 0 then h else
      var before := TimeOutFirst(h, now, n - 1);
      if Silent(before.slots[n - 1], now) then Close(before, n - 1) else before
  }

  function TimeOut(h: Host, now: nat): Host { TimeOutFirst(h, now, |h.slots|) }

  /** `Crash` is the panic that an input event too short for its type causes. */
  datatype Handling = Notes(notes: seq<Note>) | Crash

  function Handle(env: Env, rikey: Key, data: seq<byte>): (r: Handling)
    ensures r.Notes? ==> |r.notes| <= 1
  {
    match Parse(env.gcm, data, rikey)
    case Ok(InputData(payload)) =>
      (match InputEvents.Decode(env.keymap, payload)
       case Event(e) => Notes([Input(rikey, e)])
       case Unknown => Notes([])
       case Panics => Crash)
    case Ok(RequestIdrFrame) => Notes([RequestIdr(rikey)])
    case Ok(LossStats(f)) => Notes([LossReport(rikey, f)])
    case Ok(Other) => Notes([])
    case Err(_) => Notes([])
  }

  datatype Event =
    | Connect(slot: nat)
    | Disconnect(slot: nat)
    | Receive(slot: nat, data: seq<byte>)
    | Nothing

  /** ENet reports a connection on a free slot, and anything else on a taken one. */
  predicate Possible(h: Host, e: Event) {
    match e
    case Connect(i) => i < |h.slots| && h.slots[i].Free?
    case Disconnect(i) => i < |h.slots| && !h.slots[i].Free?
    case Receive(i, _) => i < |h.slots| && !h.slots[i].Free?
    case Nothing => true
  }

  /** `choice` is a key of the snapshot under which the message parses, if there is one. */
  ghost predicate Chosen(env: Env, snap: map<Key, u64>, data: seq<byte>, choice: Option<Key>) {
    match choice
    case Some(k) => k in snap && Parse(env.gcm, data, k).Ok?
    case None => forall k :: k in snap ==> Parse(env.gcm, data, k).Err?
  }

  predicate NeedsMatch(h: Host, e: Event) {
    e.Receive? && e.slot < |h.slots| && h.slots[e.slot].Pending? && IsEncryptedMessage(e.data)
  }

  datatype Served = Served(host: Host, crashed: bool)

  function HandleAt(env: Env, h: Host, i: nat, data: seq<byte>): Served
    requires i < |h.slots| && h.slots[i].Matched?
  {
    match Handle(env, h.slots[i].rikey, data)
    case Notes(notes) => Served(Tell(h, i, notes), false)
    case Crash => Served(h, true)
  }

  function Serve(env: Env, h: Host, snap: map<Key, u64>, e: Event, choice: Option<Key>, now: nat): Served
    requires Possible(h, e)
    requires NeedsMatch(h, e) && choice.Some? ==> choice.value in snap
  {
    match e
    case Connect(i) => Served(Open(h, i, now), false)
    case Disconnect(i) => Served(Close(h, i), false)
    case Receive(i, data) =>
      if h.slots[i].Matched? then HandleAt(env, h, i, data)
      else if NeedsMatch(h, e) && choice.Some? then
        HandleAt(env, Match(h, i, choice.value, snap[choice.value]), i, data)
      else Served(h, false)
    case Nothing => Served(h, false)
  }

  // The whole server: the registry's threads and the loop.

  datatype Phase = AtSnapshot | AtSweep | AtTimeOut | AtService | Crashed

  datatype World = World(
    drawn: nat, inFlight: set<(Key, nat)>, registrations: map<Key, u64>,
    snap: map<Key, u64>, phase: Phase, host: Host)

  /** `register` is two steps: it draws its epoch before it takes the lock. */
  datatype Action =
    | DrawEpoch(key: Key)
    | Insert(key: Key, draw: nat)
    | Forget(key: Key)
    | TakeSnapshot
    | SweepStale
    | TimeOutSilent(now: nat)
    | Service(event: Event, choice: Option<Key>, at: nat)

  function Epoch(draw: nat): u64 { draw % 0x1_0000_0000_0000_0000 }

  function Init(): World {
    World(0, {}, map[], map[], AtSnapshot, Host(seq(4, i => Free), [], 0))
  }

  ghost predicate Enabled(env: Env, w: World, a: Action) {
    match a
    case DrawEpoch(_) => true
    case Insert(k, n) => (k, n) in w.inFlight
    case Forget(_) => true
    case TakeSnapshot => w.phase.AtSnapshot?
    case SweepStale => w.phase.AtSweep?
    case TimeOutSilent(_) => w.phase.AtTimeOut?
    case Service(e, choice, _) =>
      && w.phase.AtService?
      && Possible(w.host, e)
      && (NeedsMatch(w.host, e) ==> Chosen(env, w.snap, e.data, choice))
  }

  ghost function Next(env: Env, w: World, a: Action): World
    requires Enabled(env, w, a)
  {
    match a
    case DrawEpoch(k) => w.(drawn := w.drawn + 1, inFlight := w.inFlight + {(k, w.drawn)})
    case Insert(k, n) =>
      w.(inFlight := w.inFlight - {(k, n)}, registrations := w.registrations[k := Epoch(n)])
    case Forget(k) => w.(registrations := w.registrations - {k})
    case TakeSnapshot => w.(snap := w.registrations, phase := AtSweep)
    case SweepStale => w.(host := Sweep(w.host, w.snap), phase := AtTimeOut)
    case TimeOutSilent(now) => w.(host := TimeOut(w.host, now), phase := AtService)
    case Service(e, choice, now) =>
      var served := Serve(env, w.host, w.snap, e, choice, now);
      w.(host := served.host, phase := if served.crashed then Crashed else AtSnapshot)
  }

  ghost predicate Step(env: Env, w: World, a: Action, w': World) {
    Enabled(env, w, a) && w' == Next(env, w, a)
  }

  /** A run: the worlds passed through and the actions between them. */
  ghost predicate Run(env: Env, worlds: seq<World>, actions: seq<Action>) {
    && |worlds| == |actions| + 1
    && worlds[0] == Init()
    && forall i :: 0 <= i < |actions| ==> Step(env, worlds[i], actions[i], worlds[i + 1])
  }

  // Epochs: a registration that has left the registry never comes back.

  const EPOCHS: nat := 0x1_0000_0000_0000_0000

  predicate Registered(w: World, key: Key, epoch: u64) {
    key in w.registrations && w.registrations[key] == epoch
  }

  /** Drawn, and no longer on its way into the registry. */
  predicate Issued(w: World, key: Key, epoch: u64) {
    epoch < w.drawn && (key, epoch) !in w.inFlight
  }

  predicate Spent(w: World, key: Key, epoch: u64) {
    Issued(w, key, epoch) && !Registered(w, key, epoch)
  }

  /** Nothing that was inserted is on its way, and every pair the loop holds was once inserted. */
  ghost predicate EpochsValid(w: World) {
    && (forall p <- w.inFlight :: p.1 < w.drawn)
    && (forall k <- w.registrations :: Issued(w, k, w.registrations[k]))
  }

  lemma EpochsStep(env: Env, w: World, a: Action, w': World)
    requires Step(env, w, a, w') && w'.drawn <= EPOCHS && EpochsValid(w)
    ensures EpochsValid(w') && w.drawn <= w'.drawn
    ensures forall k, e :: Issued(w, k, e) ==> Issued(w', k, e)
    ensures forall k, e :: Spent(w, k, e) ==> Spent(w', k, e)
  {
    hide Sweep, TimeOut, Serve;
  }

  lemma {:induction false} EpochsAlways(env: Env, worlds: seq<World>, actions: seq<Action>, n: nat)
    requires Run(env, worlds, actions) && n <= |actions| && worlds[n].drawn <= EPOCHS
    ensures EpochsValid(worlds[n])
  {
    hide Next;
    if n > 0 {
      assert Step(env, worlds[n - 1], actions[n - 1], worlds[n]);
      DrawnGrows(env, worlds[n - 1], actions[n - 1], worlds[n]);
      EpochsAlways(env, worlds, actions, n - 1);
      EpochsStep(env, worlds[n - 1], actions[n - 1], worlds[n]);
    }
  }

  lemma DrawnGrows(env: Env, w: World, a: Action, w': World)
    requires Step(env, w, a, w')
    ensures w.drawn <= w'.drawn
  {
    hide Sweep, TimeOut, Serve;
  }

  lemma {:induction false} SpentForever(
    env: Env, worlds: seq<World>, actions: seq<Action>, i: nat, j: nat, key: Key, epoch: u64)
    requires Run(env, worlds, actions) && i <= j <= |actions| && worlds[j].drawn <= EPOCHS
    requires Spent(worlds[i], key, epoch)
    ensures Spent(worlds[j], key, epoch)
  {
    hide Next, Spent;
    if i < j {
      assert Step(env, worlds[j - 1], actions[j - 1], worlds[j]);
      DrawnGrows(env, worlds[j - 1], actions[j - 1], worlds[j]);
      SpentForever(env, worlds, actions, i, j - 1, key, epoch);
      EpochsAlways(env, worlds, actions, j - 1);
      EpochsStep(env, worlds[j - 1], actions[j - 1], worlds[j]);
    }
  }

  /** While the 64-bit counter has not wrapped, no pair re-enters the registry once it has left. */
  lemma {:induction false} NoReentry(
    env: Env, worlds: seq<World>, actions: seq<Action>, i: nat, j: nat, k: nat, key: Key, epoch: u64)
    requires Run(env, worlds, actions) && i <= j <= k <= |actions| && worlds[k].drawn <= EPOCHS
    requires Registered(worlds[i], key, epoch) && !Registered(worlds[j], key, epoch)
    ensures !Registered(worlds[k], key, epoch)
  {
    hide Next;
    DrawnStays(env, worlds, actions, j, k);
    IssuedForever(env, worlds, actions, i, j, key, epoch);
    SpentForever(env, worlds, actions, j, k, key, epoch);
  }

  lemma {:induction false} DrawnStays(env: Env, worlds: seq<World>, actions: seq<Action>, i: nat, j: nat)
    requires Run(env, worlds, actions) && i <= j <= |actions|
    ensures worlds[i].drawn <= worlds[j].drawn
  {
    hide Next;
    if i < j {
      assert Step(env, worlds[j - 1], actions[j - 1], worlds[j]);
      DrawnGrows(env, worlds[j - 1], actions[j - 1], worlds[j]);
      DrawnStays(env, worlds, actions, i, j - 1);
    }
  }

  lemma {:induction false} IssuedForever(
    env: Env, worlds: seq<World>, actions: seq<Action>, i: nat, j: nat, key: Key, epoch: u64)
    requires Run(env, worlds, actions) && i <= j <= |actions| && worlds[j].drawn <= EPOCHS
    requires Registered(worlds[i], key, epoch) || Issued(worlds[i], key, epoch)
    ensures Issued(worlds[j], key, epoch)
  {
    hide Next;
    DrawnStays(env, worlds, actions, i, j);
    EpochsAlways(env, worlds, actions, i);
    if i < j {
      assert Step(env, worlds[j - 1], actions[j - 1], worlds[j]);
      DrawnGrows(env, worlds[j - 1], actions[j - 1], worlds[j]);
      IssuedForever(env, worlds, actions, i, j - 1, key, epoch);
      EpochsAlways(env, worlds, actions, j - 1);
      EpochsStep(env, worlds[j - 1], actions[j - 1], worlds[j]);
    }
  }

  /** Registering a key always displaces its previous registration, in whatever order draws are inserted. */
  lemma InsertSupersedes(
    env: Env, worlds: seq<World>, actions: seq<Action>, i: nat, key: Key, epoch: u64)
    requires Run(env, worlds, actions) && i < |actions| && worlds[i].drawn <= EPOCHS
    requires actions[i].Insert? && actions[i].key == key && Registered(worlds[i], key, epoch)
    ensures !Registered(worlds[i + 1], key, epoch)
  {
    EpochsAlways(env, worlds, actions, i);
    assert Step(env, worlds[i], actions[i], worlds[i + 1]);
  }

  /** This step inserts a draw of the key. */
  predicate Inserts(a: Action, key: Key) { a.Insert? && a.key == key }

  /** What is registered for a key was put there by its last insertion. */
  lemma {:induction false} LastInsertion(env: Env, worlds: seq<World>, actions: seq<Action>, n: nat, key: Key) returns (j: nat)
    requires Run(env, worlds, actions) && n <= |actions| && key in worlds[n].registrations
    ensures j < n && Inserts(actions[j], key) && forall u :: j < u < n ==> !Inserts(actions[u], key)
    ensures worlds[n].registrations[key] == Epoch(actions[j].draw)
  {
    hide Sweep, TimeOut, Serve;
    assert n > 0;
    assert Step(env, worlds[n - 1], actions[n - 1], worlds[n]);
    if Inserts(actions[n - 1], key) {
      j := n - 1;
    } else {
      j := LastInsertion(env, worlds, actions, n - 1, key);
    }
  }

  /** This step is the last draw for the key before step n. */
  ghost predicate LastDraw(actions: seq<Action>, t: nat, n: nat, key: Key) {
    && t < n <= |actions| && actions[t] == DrawEpoch(key)
    && forall u :: t < u < n ==> actions[u] != DrawEpoch(key)
  }

  lemma {:induction false} InFlightUpTo(
    env: Env, worlds: seq<World>, actions: seq<Action>, t: nat, u: nat, key: Key, draw: nat)
    requires Run(env, worlds, actions) && t < u <= |actions| && worlds[u].drawn <= EPOCHS
    requires LastDraw(actions, t, u, key) && (key, draw) in worlds[u].inFlight
    ensures draw <= worlds[t].drawn
  {
    hide Sweep, TimeOut, Serve;
    assert Step(env, worlds[u - 1], actions[u - 1], worlds[u]);
    DrawnStays(env, worlds, actions, t, u);
    DrawnStays(env, worlds, actions, u - 1, u);
    if t < u - 1 {
      InFlightUpTo(env, worlds, actions, t, u - 1, key, draw);
    } else {
      EpochsAlways(env, worlds, actions, t);
    }
  }

  /** Once inserted, a draw is not on its way again. */
  lemma InsertedOnce(env: Env, worlds: seq<World>, actions: seq<Action>, j: nat, u: nat, key: Key)
    requires Run(env, worlds, actions) && j < u <= |actions| && worlds[u].drawn <= EPOCHS && Inserts(actions[j], key)
    ensures (key, actions[j].draw) !in worlds[u].inFlight
  {
    hide Sweep, TimeOut, Serve;
    var draw := actions[j].draw;
    DrawnStays(env, worlds, actions, j, u);
    EpochsAlways(env, worlds, actions, j);
    assert Step(env, worlds[j], actions[j], worlds[j + 1]);
    assert Issued(worlds[j + 1], key, draw);
    IssuedForever(env, worlds, actions, j + 1, u, key, draw);
  }

  /** The last draw was inserted, and no earlier draw of the key after it. */
  ghost predicate InsertedInOrder(actions: seq<Action>, n: nat, key: Key, draw: nat) {
    exists j :: 0 <= j < n <= |actions| && Inserts(actions[j], key) && actions[j].draw == draw
      && forall u :: j < u < n && Inserts(actions[u], key) ==> actions[u].draw >= draw
  }

  /**
   Which registration a key is left with, over all runs: a registered key carries its latest draw if
   and only if that draw has been inserted and no earlier draw of the key was inserted after it.
   */
  lemma LatestDrawExactly(env: Env, worlds: seq<World>, actions: seq<Action>, t: nat, n: nat, key: Key)
    requires Run(env, worlds, actions) && n <= |actions| && worlds[n].drawn <= EPOCHS
    requires key in worlds[n].registrations && LastDraw(actions, t, n, key)
    ensures worlds[n].registrations[key] == worlds[t].drawn <==> InsertedInOrder(actions, n, key, worlds[t].drawn)
  {
    hide Next, InsertedInOrder;
    var e := worlds[t].drawn;
    var last := LastInsertion(env, worlds, actions, n, key);
    InsertedWasInFlight(env, worlds, actions, last, n);
    if worlds[n].registrations[key] == e {
      OrderWitness(actions, n, key, last);
    }
    if InsertedInOrder(actions, n, key, e) {
      var j := InsertionInOrder(actions, n, key, e);
      InsertedWasInFlight(env, worlds, actions, j, n);
      if j < last {
        DrawnStays(env, worlds, actions, last, n);
        InsertedOnce(env, worlds, actions, j, last, key);
        if last <= t {
          DrawnStays(env, worlds, actions, last, t);
        } else {
          InFlightUpTo(env, worlds, actions, t, last, key, actions[last].draw);
        }
        assert false;
      }
    }
  }

  lemma InsertedWasInFlight(env: Env, worlds: seq<World>, actions: seq<Action>, j: nat, n: nat)
    requires Run(env, worlds, actions) && j < n <= |actions| && worlds[n].drawn <= EPOCHS && actions[j].Insert?
    ensures (actions[j].key, actions[j].draw) in worlds[j].inFlight && actions[j].draw < worlds[j].drawn <= EPOCHS
    ensures Epoch(actions[j].draw) == actions[j].draw
  {
    hide Next;
    DrawnStays(env, worlds, actions, j, n);
    EpochsAlways(env, worlds, actions, j);
    assert Step(env, worlds[j], actions[j], worlds[j + 1]);
  }

  lemma OrderWitness(actions: seq<Action>, n: nat, key: Key, j: nat)
    requires j < n <= |actions| && Inserts(actions[j], key) && forall u :: j < u < n ==> !Inserts(actions[u], key)
    ensures InsertedInOrder(actions, n, key, actions[j].draw)
  {}

  lemma InsertionInOrder(actions: seq<Action>, n: nat, key: Key, draw: nat) returns (j: nat)
    requires InsertedInOrder(actions, n, key, draw)
    ensures j < n <= |actions| && Inserts(actions[j], key) && actions[j].draw == draw
    ensures forall u :: j < u < n && Inserts(actions[u], key) ==> actions[u].draw >= draw
  {
    j :| 0 <= j < n <= |actions| && Inserts(actions[j], key) && actions[j].draw == draw
      && forall u :: j < u < n && Inserts(actions[u], key) ==> actions[u].draw >= draw;
  }

  /** A run in which it does not: the later of two draws is inserted first and lost. */
  lemma EarlierDrawCanWin(env: Env, key: Key) returns (worlds: seq<World>, actions: seq<Action>)
    ensures Run(env, worlds, actions) && LastDraw(actions, 1, 4, key) && worlds[1].drawn == 1
    ensures actions == [DrawEpoch(key), DrawEpoch(key), Insert(key, 1), Insert(key, 0)]
    ensures Registered(worlds[4], key, 0)
  {
    actions := [DrawEpoch(key), DrawEpoch(key), Insert(key, 1), Insert(key, 0)];
    var w1 := Next(env, Init(), actions[0]);
    var w2 := Next(env, w1, actions[1]);
    var w3 := Next(env, w2, actions[2]);
    worlds := [Init(), w1, w2, w3, Next(env, w3, actions[3])];
  }

  // Sweeps: which peers survive them.

  lemma {:induction false} SweepFirstSlots(h: Host, snap: map<Key, u64>, n: nat, i: nat)
    requires n <= |h.slots| && i < |h.slots|
    ensures SweepFirst(h, snap, n).slots[i] == if i < n && Stale(h.slots[i], snap) then Free else h.slots[i]
  {
    if n > 0 {
      SweepFirstSlots(h, snap, n - 1, i);
      SweepFirstSlots(h, snap, n - 1, n - 1);
    }
  }

  /** A sweep frees a slot exactly when its pair is not the snapshot's, and changes no other. */
  lemma SweepExactly(h: Host, snap: map<Key, u64>, i: nat)
    requires i < |h.slots|
    ensures var s := h.slots[i];
            Sweep(h, snap).slots[i]
            == if s.Matched? && (s.rikey !in snap || snap[s.rikey] != s.epoch) then Free else s
    ensures |Sweep(h, snap).slots| == |h.slots| && Sweep(h, snap).nextConn == h.nextConn
  {
    SweepFirstSlots(h, snap, |h.slots|, i);
    SweepKeepsCount(h, snap, |h.slots|);
  }

  lemma {:induction false} SweepKeepsCount(h: Host, snap: map<Key, u64>, n: nat)
    requires n <= |h.slots|
    ensures SweepFirst(h, snap, n).nextConn == h.nextConn
  {
    if n > 0 { SweepKeepsCount(h, snap, n - 1); }
  }

  lemma {:induction false} TimeOutFirstSlots(h: Host, now: nat, n: nat, i: nat)
    requires n <= |h.slots| && i < |h.slots|
    ensures TimeOutFirst(h, now, n).slots[i] == if i < n && Silent(h.slots[i], now) then Free else h.slots[i]
  {
    if n > 0 {
      TimeOutFirstSlots(h, now, n - 1, i);
      TimeOutFirstSlots(h, now, n - 1, n - 1);
    }
  }

  /** A slot is given up exactly when it has been unmatched for more than ten seconds. */
  lemma TimeOutExactly(h: Host, now: nat, i: nat)
    requires i < |h.slots|
    ensures var s := h.slots[i];
            TimeOut(h, now).slots[i] == if s.Pending? && now > s.connectedAt + 10_000_000_000 then Free else s
    ensures |TimeOut(h, now).slots| == |h.slots| && TimeOut(h, now).nextConn == h.nextConn
    ensures TimeOut(h, now).calls == h.calls
  {
    TimeOutFirstSlots(h, now, |h.slots|, i);
    TimeOutSaysNothing(h, now, |h.slots|);
  }

  predicate Holds(s: Slot, key: Key, epoch: u64) { s.Matched? && s.rikey == key && s.epoch == epoch }

  ghost predicate HeldBySome(w: World, key: Key, epoch: u64) {
    exists i :: 0 <= i < |w.host.slots| && Holds(w.host.slots[i], key, epoch)
  }

  predicate InSnapshot(w: World, key: Key, epoch: u64) { key in w.snap && w.snap[key] == epoch }

  /** One step gives a peer a pair only from the snapshot; a sweep leaves only pairs in the snapshot. */
  lemma HoldersStep(env: Env, w: World, a: Action, w': World, key: Key, epoch: u64)
    requires Step(env, w, a, w') && HeldBySome(w', key, epoch)
    ensures HeldBySome(w, key, epoch) || InSnapshot(w, key, epoch)
    ensures a.SweepStale? ==> InSnapshot(w, key, epoch)
  {
    var i :| 0 <= i < |w'.host.slots| && Holds(w'.host.slots[i], key, epoch);
    match a
    case SweepStale => SweepExactly(w.host, w.snap, i);
    case TimeOutSilent(now) => TimeOutExactly(w.host, now, i);
    case _ =>
  }

  /** After every sweep of every run, each surviving matched peer's pair is in that tick's snapshot. */
  lemma SurvivorsAreInSnapshot(env: Env, worlds: seq<World>, actions: seq<Action>, b: nat, i: nat)
    requires Run(env, worlds, actions) && b < |actions| && actions[b].SweepStale?
    requires i < |worlds[b + 1].host.slots| && worlds[b + 1].host.slots[i].Matched?
    ensures var s := worlds[b + 1].host.slots[i];
            InSnapshot(worlds[b + 1], s.rikey, s.epoch) && i < |worlds[b].host.slots| && worlds[b].host.slots[i] == s
  {
    var w := worlds[b];
    assert Step(env, w, actions[b], worlds[b + 1]);
    SweepExactly(w.host, w.snap, i);
  }

  lemma {:induction false} SpentPeersGo(
    env: Env, worlds: seq<World>, actions: seq<Action>, gone: nat, s: nat, b: nat, m: nat, key: Key, epoch: u64)
    requires Run(env, worlds, actions) && gone <= s < b < m <= |actions| && worlds[m].drawn <= EPOCHS
    requires Spent(worlds[gone], key, epoch) && actions[s].TakeSnapshot? && actions[b].SweepStale?
    ensures !HeldBySome(worlds[m], key, epoch)
  {
    hide Next, Spent, HeldBySome, InSnapshot;
    if HeldBySome(worlds[m], key, epoch) {
      assert Step(env, worlds[m - 1], actions[m - 1], worlds[m]);
      HoldersStep(env, worlds[m - 1], actions[m - 1], worlds[m], key, epoch);
      DrawnStays(env, worlds, actions, m - 1, m);
      NotInLaterSnapshots(env, worlds, actions, gone, s, m - 1, key, epoch);
      if m - 1 > b {
        SpentPeersGo(env, worlds, actions, gone, s, b, m - 1, key, epoch);
      }
      assert false;
    }
  }

  /**
   A registration that was superseded or forgotten before a snapshot loses its peer at the sweep
   that follows, and no peer is ever matched to it again.
   */
  lemma SupersededPeersGo(
    env: Env, worlds: seq<World>, actions: seq<Action>, i: nat, gone: nat, s: nat, b: nat, m: nat, key: Key, epoch: u64)
    requires Run(env, worlds, actions) && i <= gone <= s < b < m <= |actions| && worlds[m].drawn <= EPOCHS
    requires Registered(worlds[i], key, epoch) && !Registered(worlds[gone], key, epoch)
    requires actions[s].TakeSnapshot? && actions[b].SweepStale?
    ensures !HeldBySome(worlds[m], key, epoch)
  {
    hide Next, HeldBySome;
    DrawnStays(env, worlds, actions, gone, m);
    IssuedForever(env, worlds, actions, i, gone, key, epoch);
    SpentPeersGo(env, worlds, actions, gone, s, b, m, key, epoch);
  }

  lemma {:induction false} NotInLaterSnapshots(
    env: Env, worlds: seq<World>, actions: seq<Action>, gone: nat, s: nat, m: nat, key: Key, epoch: u64)
    requires Run(env, worlds, actions) && gone <= s < m <= |actions| && worlds[m].drawn <= EPOCHS
    requires Spent(worlds[gone], key, epoch) && actions[s].TakeSnapshot?
    ensures !InSnapshot(worlds[m], key, epoch)
  {
    hide Next, InSnapshot;
    assert Step(env, worlds[m - 1], actions[m - 1], worlds[m]);
    DrawnStays(env, worlds, actions, m - 1, m);
    SnapshotStep(env, worlds[m - 1], actions[m - 1], worlds[m], key, epoch);
    SpentForever(env, worlds, actions, gone, m - 1, key, epoch);
    if s < m - 1 {
      NotInLaterSnapshots(env, worlds, actions, gone, s, m - 1, key, epoch);
    }
  }

  lemma SnapshotStep(env: Env, w: World, a: Action, w': World, key: Key, epoch: u64)
    requires Step(env, w, a, w')
    ensures InSnapshot(w', key, epoch)
            <==> if a.TakeSnapshot? then Registered(w, key, epoch) else InSnapshot(w, key, epoch)
  {
    hide Sweep, TimeOut, Serve;
  }

  // Callbacks: what the handler is told about one connection.

  /** The callbacks about one connection, in order. */
  function About(calls: seq<Call>, conn: nat): seq<Note> {
    if calls == [] then [] else
      var last := calls[|calls| - 1];
      About(calls[..|calls| - 1], conn) + if last.conn == conn then [last.note] else []
  }

  predicate IsEvent(n: Note, rikey: Key) { !n.Connected? && !n.Disconnected? && n.rikey == rikey }

  /** `Connected` first, then only events of the same key. */
  ghost predicate OpenBracket(notes: seq<Note>, rikey: Key) {
    && notes != []
    && notes[0] == Connected(rikey)
    && forall k :: 1 <= k < |notes| ==> IsEvent(notes[k], rikey)
  }

  /** An open bracket, then one `Disconnected` of its key and nothing after it. */
  ghost predicate ClosedBracket(notes: seq<Note>) {
    && |notes| >= 2
    && OpenBracket(notes[..|notes| - 1], notes[0].rikey)
    && notes[|notes| - 1] == Disconnected(notes[0].rikey)
  }

  predicate Serves(s: Slot, conn: nat) { !s.Free? && s.conn == conn }

  /** What is known of a connection that a slot is serving. */
  ghost predicate SlotBracket(h: Host, s: Slot) {
    match s
    case Free => true
    case Pending(c, _) => c < h.nextConn && About(h.calls, c) == []
    case Matched(c, rikey, _) => c < h.nextConn && OpenBracket(About(h.calls, c), rikey)
  }

  ghost predicate ServesSome(h: Host, conn: nat) {
    exists i :: 0 <= i < |h.slots| && Serves(h.slots[i], conn)
  }

  /** A connection no slot serves was never reported, or its bracket is closed. */
  ghost predicate EndedBracket(h: Host, conn: nat) {
    && (conn >= h.nextConn ==> About(h.calls, conn) == [])
    && (!ServesSome(h, conn) ==> About(h.calls, conn) == [] || ClosedBracket(About(h.calls, conn)))
  }

  ghost predicate Brackets(h: Host) {
    && (forall i :: 0 <= i < |h.slots| ==> SlotBracket(h, h.slots[i]))
    && (forall i, j :: 0 <= i < |h.slots| && 0 <= j < |h.slots| && i != j && !h.slots[i].Free?
                       ==> !Serves(h.slots[j], h.slots[i].conn))
    && (forall c :: EndedBracket(h, c))
  }

  lemma AboutCall(calls: seq<Call>, call: Call, conn: nat)
    ensures About(calls + [call], conn) == About(calls, conn) + if call.conn == conn then [call.note] else []
  {
    assert (calls + [call])[..|calls|] == calls;
  }

  lemma OpenKeeps(h: Host, i: nat, now: nat)
    requires i < |h.slots| && h.slots[i].Free? && Brackets(h)
    ensures Brackets(Open(h, i, now))
  {
    hide About, ClosedBracket, OpenBracket;
    var r := Open(h, i, now);
    assert EndedBracket(h, h.nextConn);
    forall c ensures EndedBracket(r, c) {
      assert EndedBracket(h, c);
      if ServesSome(h, c) { StillServed(h, r, i, c); }
    }
  }

  /** A slot other than i that is left alone still serves what it served. */
  lemma StillServed(h: Host, r: Host, i: nat, conn: nat)
    requires |r.slots| == |h.slots| && i < |h.slots| && ServesSome(h, conn) && !Serves(h.slots[i], conn)
    requires forall j :: 0 <= j < |h.slots| && j != i ==> r.slots[j] == h.slots[j]
    ensures ServesSome(r, conn)
  {
    var j :| 0 <= j < |h.slots| && Serves(h.slots[j], conn);
    assert Serves(r.slots[j], conn);
  }

  lemma CloseKeeps(h: Host, i: nat)
    requires i < |h.slots| && Brackets(h)
    ensures Brackets(Close(h, i))
  {
    var r := Close(h, i);
    var gone := h.slots[i];
    assert SlotBracket(h, gone);
    if gone.Matched? { CloseEnds(About(h.calls, gone.conn), gone.rikey); }
    forall c ensures EndedBracket(r, c) {
      assert EndedBracket(h, c);
      if gone.Matched? { AboutCall(h.calls, Call(gone.conn, Disconnected(gone.rikey)), c); }
      if !Serves(gone, c) && ServesSome(h, c) { StillServed(h, r, i, c); }
    }
    forall j | 0 <= j < |r.slots| ensures SlotBracket(r, r.slots[j]) {
      assert SlotBracket(h, h.slots[j]);
      if gone.Matched? && !h.slots[j].Free? {
        AboutCall(h.calls, Call(gone.conn, Disconnected(gone.rikey)), h.slots[j].conn);
      }
    }
  }

  lemma CloseEnds(notes: seq<Note>, rikey: Key)
    requires OpenBracket(notes, rikey)
    ensures ClosedBracket(notes + [Disconnected(rikey)])
  {
    assert (notes + [Disconnected(rikey)])[..|notes|] == notes;
  }

  /** A new call about a connection that keeps its slot. */
  lemma CallKeeps(h: Host, r: Host, i: nat, note: Note)
    requires Brackets(h) && i < |h.slots| && |r.slots| == |h.slots|
    requires !h.slots[i].Free? && !r.slots[i].Free? && r.slots[i].conn == h.slots[i].conn
    requires forall j :: 0 <= j < |h.slots| && j != i ==> r.slots[j] == h.slots[j]
    requires r.nextConn == h.nextConn && r.calls == h.calls + [Call(h.slots[i].conn, note)]
    requires SlotBracket(r, r.slots[i])
    ensures Brackets(r)
  {
    hide About;
    assert SlotBracket(h, h.slots[i]);
    forall c ensures EndedBracket(r, c) {
      assert EndedBracket(h, c);
      AboutCall(h.calls, Call(h.slots[i].conn, note), c);
      if Serves(h.slots[i], c) { assert Serves(r.slots[i], c); }
      else if ServesSome(h, c) { StillServed(h, r, i, c); }
    }
    forall j | 0 <= j < |r.slots| ensures SlotBracket(r, r.slots[j]) {
      assert SlotBracket(h, h.slots[j]);
      if !h.slots[j].Free? { AboutCall(h.calls, Call(h.slots[i].conn, note), h.slots[j].conn); }
    }
  }

  lemma MatchKeeps(h: Host, i: nat, rikey: Key, epoch: u64)
    requires i < |h.slots| && h.slots[i].Pending? && Brackets(h)
    ensures Brackets(Match(h, i, rikey, epoch))
  {
    hide About, EndedBracket;
    assert SlotBracket(h, h.slots[i]);
    AboutCall(h.calls, Call(h.slots[i].conn, Connected(rikey)), h.slots[i].conn);
    CallKeeps(h, Match(h, i, rikey, epoch), i, Connected(rikey));
  }

  lemma TellKeeps(h: Host, i: nat, notes: seq<Note>)
    requires i < |h.slots| && h.slots[i].Matched? && |notes| <= 1 && Brackets(h)
    requires forall n <- notes :: IsEvent(n, h.slots[i].rikey)
    ensures Brackets(Tell(h, i, notes))
  {
    hide About, EndedBracket;
    if notes != [] {
      assert SlotBracket(h, h.slots[i]);
      AboutCall(h.calls, Call(h.slots[i].conn, notes[0]), h.slots[i].conn);
      CallKeeps(h, Tell(h, i, notes), i, notes[0]);
    }
  }

  lemma {:induction false} SweepKeeps(h: Host, snap: map<Key, u64>, n: nat)
    requires n <= |h.slots| && Brackets(h)
    ensures Brackets(SweepFirst(h, snap, n))
  {
    hide Brackets, Close;
    if n > 0 {
      SweepKeeps(h, snap, n - 1);
      CloseKeeps(SweepFirst(h, snap, n - 1), n - 1);
    }
  }

  lemma {:induction false} TimeOutKeeps(h: Host, now: nat, n: nat)
    requires n <= |h.slots| && Brackets(h)
    ensures Brackets(TimeOutFirst(h, now, n))
  {
    hide Brackets, Close;
    if n > 0 {
      TimeOutKeeps(h, now, n - 1);
      CloseKeeps(TimeOutFirst(h, now, n - 1), n - 1);
    }
  }

  lemma HandleEvents(env: Env, rikey: Key, data: seq<byte>)
    ensures var r := Handle(env, rikey, data); r.Notes? ==> forall n <- r.notes :: IsEvent(n, rikey)
  {
    hide Parse, InputEvents.Decode;
  }

  lemma HandleAtKeeps(env: Env, h: Host, i: nat, data: seq<byte>)
    requires i < |h.slots| && h.slots[i].Matched? && Brackets(h)
    ensures Brackets(HandleAt(env, h, i, data).host)
  {
    hide Brackets, Handle, Tell;
    HandleEvents(env, h.slots[i].rikey, data);
    var r := Handle(env, h.slots[i].rikey, data);
    if r.Notes? { TellKeeps(h, i, r.notes); }
  }

  lemma ServeKeeps(env: Env, h: Host, snap: map<Key, u64>, e: Event, choice: Option<Key>, now: nat)
    requires Possible(h, e) && (NeedsMatch(h, e) && choice.Some? ==> choice.value in snap) && Brackets(h)
    ensures Brackets(Serve(env, h, snap, e, choice, now).host)
  {
    hide Brackets, HandleAt, Open, Close;
    match e
    case Connect(i) => OpenKeeps(h, i, now);
    case Disconnect(i) => CloseKeeps(h, i);
    case Receive(i, data) =>
      if h.slots[i].Matched? {
        HandleAtKeeps(env, h, i, data);
      } else if NeedsMatch(h, e) && choice.Some? {
        MatchKeeps(h, i, choice.value, snap[choice.value]);
        HandleAtKeeps(env, Match(h, i, choice.value, snap[choice.value]), i, data);
      }
    case Nothing =>
  }

  /**
   Over every run, the callbacks about a connection form one bracket for one key: `Connected`, then
   input, keyframe and loss events of that key, then at most one `Disconnected` and nothing after.
   The bracket is open exactly while a slot holds the connection as matched.
   */
  lemma {:induction false} BracketsAlways(env: Env, worlds: seq<World>, actions: seq<Action>, n: nat)
    requires Run(env, worlds, actions) && n <= |actions|
    ensures Brackets(worlds[n].host)
  {
    hide Brackets, Sweep, TimeOut, Serve;
    if n == 0 {
      InitBrackets();
    } else {
      BracketsAlways(env, worlds, actions, n - 1);
      var w := worlds[n - 1];
      assert Step(env, w, actions[n - 1], worlds[n]);
      match actions[n - 1]
      case SweepStale => SweepBrackets(w.host, w.snap);
      case TimeOutSilent(now) => TimeOutBrackets(w.host, now);
      case Service(e, choice, now) => ServeKeeps(env, w.host, w.snap, e, choice, now);
      case _ =>
    }
  }

  lemma InitBrackets()
    ensures Brackets(Init().host)
  {}

  lemma SweepBrackets(h: Host, snap: map<Key, u64>)
    requires Brackets(h)
    ensures Brackets(Sweep(h, snap))
  {
    hide Brackets, SweepFirst;
    SweepKeeps(h, snap, |h.slots|);
  }

  lemma TimeOutBrackets(h: Host, now: nat)
    requires Brackets(h)
    ensures Brackets(TimeOut(h, now))
  {
    hide Brackets, TimeOutFirst;
    TimeOutKeeps(h, now, |h.slots|);
  }

  // Who is reported connected, and why.

  /** New calls come after the old ones, and all of them end brackets. */
  ghost predicate OnlyEnds(before: seq<Call>, after: seq<Call>) {
    before <= after && forall k :: |before| <= k < |after| ==> after[k].note.Disconnected?
  }

  lemma {:induction false} SweepOnlyEnds(h: Host, snap: map<Key, u64>, n: nat)
    requires n <= |h.slots|
    ensures OnlyEnds(h.calls, SweepFirst(h, snap, n).calls)
  {
    if n > 0 { SweepOnlyEnds(h, snap, n - 1); }
  }

  lemma {:induction false} TimeOutSaysNothing(h: Host, now: nat, n: nat)
    requires n <= |h.slots|
    ensures TimeOutFirst(h, now, n).calls == h.calls && TimeOutFirst(h, now, n).nextConn == h.nextConn
  {
    if n > 0 { TimeOutSaysNothing(h, now, n - 1); }
  }

  /** This action matched connection `conn` to `rikey` by a message that authenticates under it. */
  ghost predicate Authenticates(env: Env, w: World, a: Action, conn: nat, rikey: Key) {
    && a.Service? && a.choice == Some(rikey) && rikey in w.snap
    && NeedsMatch(w.host, a.event)
    && w.host.slots[a.event.slot].conn == conn
    && Parse(env.gcm, a.event.data, rikey).Ok?
  }

  lemma CallsStep(env: Env, w: World, a: Action, w': World)
    requires Step(env, w, a, w')
    ensures w.host.calls <= w'.host.calls
    ensures forall k :: |w.host.calls| <= k < |w'.host.calls| && w'.host.calls[k].note.Connected?
                        ==> Authenticates(env, w, a, w'.host.calls[k].conn, w'.host.calls[k].note.rikey)
  {
    hide Parse, IsEncryptedMessage;
    match a
    case SweepStale => SweepOnlyEnds(w.host, w.snap, |w.host.slots|);
    case TimeOutSilent(now) => TimeOutSaysNothing(w.host, now, |w.host.slots|);
    case Service(e, _, _) =>
      if e.Receive? {
        forall k: Key { HandleEvents(env, k, e.data); }
      }
    case _ =>
  }

  /**
   Every reported connection was matched by an encrypted message that authenticates under its key,
   while that key was registered in the snapshot of the same tick.
   */
  lemma {:induction false} ConnectedWasAuthenticated(
    env: Env, worlds: seq<World>, actions: seq<Action>, n: nat, k: nat) returns (t: nat)
    requires Run(env, worlds, actions) && n <= |actions|
    requires k < |worlds[n].host.calls| && worlds[n].host.calls[k].note.Connected?
    ensures t < n
    ensures Authenticates(env, worlds[t], actions[t], worlds[n].host.calls[k].conn, worlds[n].host.calls[k].note.rikey)
  {
    hide Next, Authenticates;
    if n == 0 {
      assert false;
    } else {
      assert Step(env, worlds[n - 1], actions[n - 1], worlds[n]);
      CallsStep(env, worlds[n - 1], actions[n - 1], worlds[n]);
      if k < |worlds[n - 1].host.calls| {
        t := ConnectedWasAuthenticated(env, worlds, actions, n - 1, k);
      } else {
        t := n - 1;
      }
    }
  }

  /** Which key a message picks does not depend on the order in which the snapshot is searched. */
  lemma ChoiceIsUnique(env: Env, snap: map<Key, u64>, data: seq<byte>, a: Option<Key>, b: Option<Key>)
    requires SingleKey(env.gcm) && IsEncryptedMessage(data)
    requires Chosen(env, snap, data, a) && Chosen(env, snap, data, b)
    ensures a == b
  {
    hide Parse;
    if a.Some? && b.Some? { KeysThatParse(env.gcm, data, a.value, b.value); }
  }

  /** A client that wraps any well-formed message under a registered key is matched to that key. */
  lemma HonestClientMatches(
    env: Env, snap: map<Key, u64>, key: Key, sequenceNumber: u32, inner: seq<byte>, trailing: seq<byte>, choice: Option<Key>)
    requires Lawful(env.gcm) && SingleKey(env.gcm) && key in snap
    requires 4 <= |inner| && |inner| + 20 < 0x1_0000 && FromTypeAndPayload(FromLe16(inner[..2]), inner[4..]).Ok?
    requires Chosen(env, snap, Wrap(env.gcm, key, sequenceNumber, inner) + trailing, choice)
    ensures choice == Some(key) && IsEncryptedMessage(Wrap(env.gcm, key, sequenceNumber, inner) + trailing)
  {
    hide Parse, FromTypeAndPayload;
    var data := Wrap(env.gcm, key, sequenceNumber, inner) + trailing;
    ParseWrapped(env.gcm, key, sequenceNumber, inner, trailing);
    assert data[..2] == Le16(ENCRYPTED);
    ChoiceIsUnique(env, snap, data, choice, Some(key));
  }

  lemma {:induction false} CallsGrow(env: Env, worlds: seq<World>, actions: seq<Action>, i: nat, j: nat)
    requires Run(env, worlds, actions) && i <= j <= |actions|
    ensures worlds[i].host.calls <= worlds[j].host.calls
  {
    hide Next;
    if i < j {
      CallsGrow(env, worlds, actions, i, j - 1);
      assert Step(env, worlds[j - 1], actions[j - 1], worlds[j]);
      CallsStep(env, worlds[j - 1], actions[j - 1], worlds[j]);
    }
  }

  lemma {:induction false} AboutGrows(before: seq<Call>, after: seq<Call>, conn: nat)
    requires before <= after
    ensures About(before, conn) <= About(after, conn)
    decreases |after|
  {
    if before == after {
    } else {
      AboutGrows(before, after[..|after| - 1], conn);
    }
  }

  /** A connection that was matched and is no longer served has been reported disconnected. */
  lemma LostPeersAreReported(
    env: Env, worlds: seq<World>, actions: seq<Action>, i: nat, j: nat, slot: nat)
    requires Run(env, worlds, actions) && i <= j <= |actions|
    requires slot < |worlds[i].host.slots| && worlds[i].host.slots[slot].Matched?
    requires !ServesSome(worlds[j].host, worlds[i].host.slots[slot].conn)
    ensures var s := worlds[i].host.slots[slot];
            var notes := About(worlds[j].host.calls, s.conn);
            ClosedBracket(notes) && notes[0] == Connected(s.rikey)
  {
    hide Next, About;
    var s := worlds[i].host.slots[slot];
    BracketsAlways(env, worlds, actions, i);
    BracketsAlways(env, worlds, actions, j);
    CallsGrow(env, worlds, actions, i, j);
    assert SlotBracket(worlds[i].host, s) && EndedBracket(worlds[j].host, s.conn);
    AboutGrows(worlds[i].host.calls, worlds[j].host.calls, s.conn);
  }
}
