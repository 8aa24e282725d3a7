/** The registry object and the service loop, proved against the steps of `ControlServer`. */
module ControlLoop {
  import opened Bytes
  import opened ControlWire
  import opened ControlServer
  import InputEvents

  class ControlRegistry {
    var registrations: map<Key, u64>
    var nextEpoch: u64
    ghost var drawn: nat

    ghost predicate Valid()
      reads this
    {
      nextEpoch == Epoch(drawn)
    }

    constructor ()
      ensures Valid() && registrations == Init().registrations && drawn == Init().drawn
    {
      registrations, nextEpoch, drawn := map[], 0, 0;
    }

    /** The first half of `register`, outside the lock. */
    method DrawEpoch() returns (epoch: u64)
      requires Valid()
      modifies this`nextEpoch, this`drawn
      ensures Valid() && epoch == Epoch(old(drawn)) && drawn == old(drawn) + 1
    {
      epoch := nextEpoch;
      nextEpoch := if nextEpoch == 0xFFFF_FFFF_FFFF_FFFF then 0 else nextEpoch + 1;
      drawn := drawn + 1;
    }

    /** The second half, under the lock. */
    method Insert(key: Key, epoch: u64)
      modifies this`registrations
      ensures registrations == old(registrations)[key := epoch]
    {
      registrations := registrations[key := epoch];
    }

    /** Both halves with nothing in between. */
    method Register(key: Key)
      requires Valid()
      modifies this`registrations, this`nextEpoch, this`drawn
      ensures Valid() && drawn == old(drawn) + 1
      ensures registrations == old(registrations)[key := Epoch(old(drawn))]
    {
      var epoch := DrawEpoch();
      Insert(key, epoch);
    }

    method Forget(key: Key)
      modifies this`registrations
      ensures registrations == old(registrations) - {key}
    {
      registrations := registrations - {key};
    }
  }

  class ServeLoop {
    const env: Env
    const registry: ControlRegistry
    const peers: array<Slot>
    var calls: seq<Call>
    var nextConn: nat

    ghost function View(): Host
      reads this, peers
    {
      Host(peers[..], calls, nextConn)
    }

    constructor (env: Env, registry: ControlRegistry)
      ensures View() == Init().host && fresh(peers)
      ensures this.env == env && this.registry == registry
    {
      this.env, this.registry := env, registry;
      peers := new Slot[4](i => Free);
      calls, nextConn := [], 0;
      new;
      assert peers[..] == seq(4, i => Free);
    }

    method DisconnectNow(i: nat)
      requires i < peers.Length
      modifies this`calls, peers
      ensures View() == Close(old(View()), i)
    {
      if peers[i].Matched? {
        calls := calls + [Call(peers[i].conn, Disconnected(peers[i].rikey))];
      }
      peers[i] := Free;
    }

    /** Every matched peer whose pair is not in the snapshot is disconnected. */
    method SweepStale(regs: map<Key, u64>)
      modifies this`calls, peers
      ensures View() == Sweep(old(View()), regs)
    {
      var i := 0;
      while i < peers.Length
        invariant i <= peers.Length
        invariant View() == SweepFirst(old(View()), regs, i)
      {
        if peers[i].Matched? {
          if !(peers[i].rikey in regs && regs[peers[i].rikey] == peers[i].epoch) {
            DisconnectNow(i);
          }
        }
        i := i + 1;
      }
    }

    /** Every peer that stayed unmatched for more than ten seconds is given up. */
    method TimeOutSilent(now: nat)
      modifies this`calls, peers
      ensures View() == TimeOut(old(View()), now)
    {
      var i := 0;
      while i < peers.Length
        invariant i <= peers.Length
        invariant View() == TimeOutFirst(old(View()), now, i)
      {
        if peers[i].Pending? {
          if now - peers[i].connectedAt > PENDING_MATCH_TIMEOUT {
            DisconnectNow(i);
          }
        }
        i := i + 1;
      }
    }

    /** Tries the message under every registered key, in any order, until one parses it. */
    method FindKey(regs: map<Key, u64>, data: seq<byte>) returns (choice: Option<Key>)
      ensures Chosen(env, regs, data, choice)
    {
      var untried := regs.Keys;
      while untried != {}
        invariant untried <= regs.Keys
        invariant forall k :: k in regs && k !in untried ==> Parse(env.gcm, data, k).Err?
      {
        var k :| k in untried;
        if Parse(env.gcm, data, k).Ok? { return Some(k); }
        untried := untried - {k};
      }
      return None;
    }

    method HandleMessage(i: nat, data: seq<byte>) returns (crashed: bool)
      requires i < peers.Length && peers[i].Matched?
      modifies this`calls
      ensures Served(View(), crashed) == HandleAt(env, old(View()), i, data)
    {
      hide Parse, InputEvents.Decode;
      var rikey, conn := peers[i].rikey, peers[i].conn;
      crashed := false;
      match Parse(env.gcm, data, rikey)
      case Ok(InputData(payload)) =>
        match InputEvents.Decode(env.keymap, payload) {
          case Event(event) => calls := calls + [Call(conn, Input(rikey, event))];
          case Unknown =>
          case Panics => crashed := true;
        }
      case Ok(RequestIdrFrame) => calls := calls + [Call(conn, RequestIdr(rikey))];
      case Ok(LossStats(frame)) => calls := calls + [Call(conn, LossReport(rikey, frame))];
      case Ok(Other) =>
      case Err(_) =>
    }

    method Service(regs: map<Key, u64>, event: Event, now: nat) returns (ghost choice: Option<Key>, crashed: bool)
      requires Possible(View(), event)
      modifies this, peers
      ensures NeedsMatch(old(View()), event) ==> Chosen(env, regs, event.data, choice)
      ensures Served(View(), crashed) == Serve(env, old(View()), regs, event, choice, now)
    {
      hide Handle, Parse;
      crashed, choice := false, None;
      match event
      case Connect(i) =>
        peers[i] := Pending(nextConn, now);
        nextConn := nextConn + 1;
      case Disconnect(i) => DisconnectNow(i);
      case Receive(i, data) =>
        if peers[i].Matched? {
          crashed := HandleMessage(i, data);
        } else if IsEncryptedMessage(data) {
          var found := FindKey(regs, data);
          choice := found;
          if found.Some? {
            peers[i] := Matched(peers[i].conn, found.value, regs[found.value]);
            calls := calls + [Call(peers[i].conn, Connected(found.value))];
            crashed := HandleMessage(i, data);
          }
        }
      case Nothing =>
    }

    /**
     One tick: a snapshot, the two sweeps, then one event of the network's choosing. It is the four
     loop actions of `ControlServer` in a row.
     */
    method Tick(now: nat, network: Host -> Event, at: nat) returns (ghost choice: Option<Key>, crashed: bool)
      requires forall h :: Possible(h, network(h))
      modifies this, peers
      ensures var h := TimeOut(Sweep(old(View()), registry.registrations), now);
              && (NeedsMatch(h, network(h)) ==> Chosen(env, registry.registrations, network(h).data, choice))
              && Served(View(), crashed) == Serve(env, h, registry.registrations, network(h), choice, at)
    {
      hide Sweep, TimeOut, Serve, Chosen;
      var regs := registry.registrations;
      SweepStale(regs);
      TimeOutSilent(now);
      var event := network(Host(peers[..], calls, nextConn));
      choice, crashed := Service(regs, event, at);
    }
  }
}
