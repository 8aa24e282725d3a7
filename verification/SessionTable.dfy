/**
 The broker's table of sessions. Its operations run concurrently and give way at await points, so the
 steps here are the pieces between those points. Each inserted session gets a number, whatever its id,
 so that it can be followed.
 */
module SessionTable {
  import opened Bytes

  type Id = string

  /** A session is checked through its child process, or through logind. */
  datatype Session = Session(number: nat, viaLogind: bool)

  datatype Cause = Taken | FoundDead

  /** A session's end, as the table sees it: taken for teardown, or found dead by a check. */
  datatype End = End(number: nat, cause: Cause)

  /** A logind check under way: it knows the id, and asks about the session then found under it. */
  datatype Check = Check(id: Id, number: nat)

  /** A `terminate_all` under way. */
  datatype Sweep = Sweep(snapshot: seq<Id>, next: nat)

  datatype World = World(
    active: map<Id, Session>, inserted: nat, used: set<Id>, checks: map<nat, Check>, sweeps: map<nat, Sweep>,
    ends: seq<End>)

  const INIT := World(map[], 0, {}, map[], map[], [])

  datatype Action =
    | Insert(id: Id, viaLogind: bool)
    | PeekAlive(task: nat, id: Id, childExited: bool)
    | FinishCheck(task: nat, alive: bool)
    | Terminate(id: Id)
    | StartTerminateAll(task: nat, order: seq<Id>)
    | TerminateNext(task: nat)

  ghost predicate Enabled(w: World, a: Action) {
    match a
    case PeekAlive(task, _, _) => task !in w.checks
    case FinishCheck(task, _) => task in w.checks
    case StartTerminateAll(task, order) => task !in w.sweeps && forall id :: id in w.active <==> id in order
    case TerminateNext(task) => task in w.sweeps && w.sweeps[task].next < |w.sweeps[task].snapshot|
    case _ => true
  }

  /** Removing an id from the table, if it is there. */
  function Remove(w: World, id: Id, cause: Cause): World {
    if id !in w.active then w else w.(active := w.active - {id}, ends := w.ends + [End(w.active[id].number, cause)])
  }

  ghost function Next(w: World, a: Action): World
    requires Enabled(w, a)
  {
    match a
    case Insert(id, viaLogind) =>
      w.(active := w.active[id := Session(w.inserted, viaLogind)], inserted := w.inserted + 1, used := w.used + {id})
    case PeekAlive(task, id, childExited) =>
      if id !in w.active then w
      else if w.active[id].viaLogind then w.(checks := w.checks[task := Check(id, w.active[id].number)])
      else if childExited then Remove(w, id, FoundDead)
      else w
    case FinishCheck(task, alive) =>
      var v := w.(checks := w.checks - {task});
      if alive then v else Remove(v, w.checks[task].id, FoundDead)
    case Terminate(id) => Remove(w, id, Taken)
    case StartTerminateAll(task, order) => w.(sweeps := w.sweeps[task := Sweep(order, 0)])
    case TerminateNext(task) =>
      var s := w.sweeps[task];
      Remove(w.(sweeps := w.sweeps[task := s.(next := s.next + 1)]), s.snapshot[s.next], Taken)
  }

  ghost predicate Step(w: World, a: Action, w': World) { Enabled(w, a) && w' == Next(w, a) }

  ghost predicate Run(worlds: seq<World>, actions: seq<Action>) {
    && |worlds| == |actions| + 1 && worlds[0] == INIT
    && forall i :: 0 <= i < |actions| ==> Step(worlds[i], actions[i], worlds[i + 1])
  }

  /** No session is ever given an id that was used before. */
  ghost predicate FreshIds(worlds: seq<World>, actions: seq<Action>)
    requires |worlds| == |actions| + 1
  {
    forall i :: 0 <= i < |actions| && actions[i].Insert? ==> actions[i].id !in worlds[i].used
  }

  // At most one teardown, with or without fresh ids.

  ghost predicate Ended(w: World, number: nat) { exists i :: 0 <= i < |w.ends| && w.ends[i].number == number }

  ghost predicate EndsValid(w: World) {
    && (forall id <- w.active :: w.active[id].number < w.inserted && !Ended(w, w.active[id].number))
    && (forall a <- w.active, b <- w.active :: a != b ==> w.active[a].number != w.active[b].number)
    && (forall i :: 0 <= i < |w.ends| ==> w.ends[i].number < w.inserted)
    && (forall i, j :: 0 <= i < j < |w.ends| ==> w.ends[i].number != w.ends[j].number)
  }

  lemma RemoveEnds(w: World, id: Id, cause: Cause)
    requires EndsValid(w)
    ensures EndsValid(Remove(w, id, cause))
  {
    if id in w.active {
      var v := Remove(w, id, cause);
      forall x | x in v.active ensures !Ended(v, v.active[x].number) {
        assert !Ended(w, w.active[x].number);
      }
      assert !Ended(w, w.active[id].number);
    }
  }

  lemma EndsStep(w: World, a: Action, w': World)
    requires Step(w, a, w') && EndsValid(w)
    ensures EndsValid(w')
  {
    hide Remove;
    match a
    case Insert(id, viaLogind) =>
      forall x | x in w'.active ensures !Ended(w', w'.active[x].number) {
        if x != id { assert !Ended(w, w.active[x].number); }
      }
    case PeekAlive(_, id, _) =>
      SameEnds(w, w.(checks := w'.checks));
      RemoveEnds(w, id, FoundDead);
    case FinishCheck(task, _) =>
      SameEnds(w, w.(checks := w.checks - {task}));
      RemoveEnds(w.(checks := w.checks - {task}), w.checks[task].id, FoundDead);
    case Terminate(id) => RemoveEnds(w, id, Taken);
    case StartTerminateAll(_, _) => SameEnds(w, w');
    case TerminateNext(task) =>
      var s := w.sweeps[task];
      var v := w.(sweeps := w.sweeps[task := s.(next := s.next + 1)]);
      SameEnds(w, v);
      RemoveEnds(v, s.snapshot[s.next], Taken);
  }

  lemma SameEnds(w: World, v: World)
    requires EndsValid(w) && v.active == w.active && v.inserted == w.inserted && v.ends == w.ends
    ensures EndsValid(v)
  {
    forall x | x in v.active ensures !Ended(v, v.active[x].number) {
      assert !Ended(w, w.active[x].number);
    }
  }

  /** In every run each session ends at most once: no two terminations tear the same one down. */
  lemma {:induction false} EndsAlways(worlds: seq<World>, actions: seq<Action>, n: nat)
    requires Run(worlds, actions) && n <= |actions|
    ensures EndsValid(worlds[n])
  {
    hide Next;
    if n > 0 {
      EndsAlways(worlds, actions, n - 1);
      assert Step(worlds[n - 1], actions[n - 1], worlds[n]);
      EndsStep(worlds[n - 1], actions[n - 1], worlds[n]);
    }
  }

  // No session is lost, given fresh ids.

  ghost predicate Tracked(w: World, number: nat) { exists id :: id in w.active && w.active[id].number == number }

  ghost predicate ChecksValid(w: World) {
    forall t <- w.checks ::
      var c := w.checks[t]; c.id in w.used && (c.id in w.active ==> w.active[c.id].number == c.number)
  }

  /** Ids a sweep has dealt with are gone for good. */
  ghost predicate SweepsValid(w: World) {
    forall t <- w.sweeps ::
      && w.sweeps[t].next <= |w.sweeps[t].snapshot|
      && (forall id <- w.sweeps[t].snapshot :: id in w.used)
      && (forall k :: 0 <= k < w.sweeps[t].next ==> w.sweeps[t].snapshot[k] !in w.active)
  }

  ghost predicate TrackValid(w: World) {
    && w.active.Keys <= w.used
    && ChecksValid(w)
    && SweepsValid(w)
    && (forall n: nat :: n < w.inserted ==> Tracked(w, n) || Ended(w, n))
  }

  lemma RemoveTracks(w: World, id: Id, cause: Cause)
    requires TrackValid(w)
    ensures TrackValid(Remove(w, id, cause)) && id !in Remove(w, id, cause).active
  {
    var v := Remove(w, id, cause);
    if id in w.active {
      forall n: nat | n < v.inserted ensures Tracked(v, n) || Ended(v, n) {
        EndedStays(w, v, n);
        if Tracked(w, n) {
          var x :| x in w.active && w.active[x].number == n;
          if x == id { assert v.ends[|w.ends|].number == n; } else { assert x in v.active; }
        }
      }
    }
  }

  lemma EndedStays(w: World, v: World, n: nat)
    requires w.ends <= v.ends
    ensures Ended(w, n) ==> Ended(v, n)
  {
    if Ended(w, n) {
      var i :| 0 <= i < |w.ends| && w.ends[i].number == n;
      assert v.ends[i].number == n;
    }
  }

  lemma InsertTracks(w: World, id: Id, viaLogind: bool)
    requires TrackValid(w) && id !in w.used
    ensures TrackValid(Next(w, Insert(id, viaLogind)))
  {
    var v := Next(w, Insert(id, viaLogind));
    forall n: nat | n < v.inserted ensures Tracked(v, n) || Ended(v, n) {
      EndedStays(w, v, n);
      if n == w.inserted {
        assert v.active[id].number == n;
      } else if Tracked(w, n) {
        var x :| x in w.active && w.active[x].number == n;
        assert v.active[x].number == n;
      }
    }
  }

  /** The table and its ends are as they were. */
  lemma SameTracks(w: World, v: World)
    requires v.active == w.active && v.inserted == w.inserted && v.ends == w.ends && v.used == w.used
    requires TrackValid(w) && ChecksValid(v) && SweepsValid(v)
    ensures TrackValid(v)
  {
    forall n: nat | n < v.inserted ensures Tracked(v, n) || Ended(v, n) {
      EndedStays(w, v, n);
      if Tracked(w, n) {
        var x :| x in w.active && w.active[x].number == n;
        assert v.active[x].number == n;
      }
    }
  }

  lemma TrackStep(w: World, a: Action, w': World)
    requires Step(w, a, w') && TrackValid(w) && (a.Insert? ==> a.id !in w.used)
    ensures TrackValid(w')
  {
    hide Remove, Tracked, Ended;
    match a
    case Insert(id, viaLogind) => InsertTracks(w, id, viaLogind);
    case PeekAlive(_, id, childExited) =>
      if id in w.active {
        if w.active[id].viaLogind { SameTracks(w, w'); }
        else if childExited { RemoveTracks(w, id, FoundDead); }
      }
    case FinishCheck(task, alive) =>
      var v := w.(checks := w.checks - {task});
      SameTracks(w, v);
      RemoveTracks(v, w.checks[task].id, FoundDead);
    case Terminate(id) => RemoveTracks(w, id, Taken);
    case StartTerminateAll(_, _) => SameTracks(w, w');
    case TerminateNext(task) => TerminateNextTracks(w, task);
  }

  lemma TerminateNextTracks(w: World, task: nat)
    requires TrackValid(w) && Enabled(w, TerminateNext(task))
    ensures TrackValid(Next(w, TerminateNext(task)))
  {
    hide Tracked, Ended;
    var s := w.sweeps[task];
    var id := s.snapshot[s.next];
    RemoveTracks(w, id, Taken);
    SameTracks(Remove(w, id, Taken), Next(w, TerminateNext(task)));
  }

  lemma {:induction false} TrackAlways(worlds: seq<World>, actions: seq<Action>, n: nat)
    requires Run(worlds, actions) && FreshIds(worlds, actions) && n <= |actions|
    ensures TrackValid(worlds[n])
  {
    hide Next;
    if n > 0 {
      TrackAlways(worlds, actions, n - 1);
      assert Step(worlds[n - 1], actions[n - 1], worlds[n]);
      TrackStep(worlds[n - 1], actions[n - 1], worlds[n]);
    }
  }

  /** With fresh ids, each session inserted is tracked or has ended exactly once, never both or neither. */
  lemma TrackedOrEnded(worlds: seq<World>, actions: seq<Action>, n: nat, number: nat)
    requires Run(worlds, actions) && FreshIds(worlds, actions) && n <= |actions| && number < worlds[n].inserted
    ensures Tracked(worlds[n], number) != Ended(worlds[n], number)
  {
    hide Next, Ended;
    EndsAlways(worlds, actions, n);
    TrackAlways(worlds, actions, n);
  }

  /** A step that ends a session: its own termination, or a check that found that session dead. */
  predicate EndsSession(w: World, a: Action, id: Id, number: nat) {
    match a
    case PeekAlive(_, i, childExited) => i == id && childExited && id in w.active && !w.active[id].viaLogind
    case FinishCheck(task, alive) => task in w.checks && w.checks[task] == Check(id, number) && !alive
    case Terminate(i) => i == id
    case TerminateNext(task) =>
      task in w.sweeps && w.sweeps[task].next < |w.sweeps[task].snapshot|
      && w.sweeps[task].snapshot[w.sweeps[task].next] == id
    case _ => false
  }

  /** A step that drops a session though nobody ended it: an insertion over it, or a check of another one. */
  predicate DropsSession(w: World, a: Action, id: Id, number: nat) {
    match a
    case Insert(i, _) => i == id
    case FinishCheck(task, alive) =>
      task in w.checks && w.checks[task].id == id && w.checks[task].number != number && !alive
    case _ => false
  }

  predicate IsTracked(w: World, id: Id, number: nat) { id in w.active && w.active[id].number == number }

  lemma StaysUnless(w: World, a: Action, w': World, id: Id, number: nat)
    requires Step(w, a, w') && EndsValid(w) && number < w.inserted
    ensures IsTracked(w', id, number)
            <==> IsTracked(w, id, number) && !EndsSession(w, a, id, number) && !DropsSession(w, a, id, number)
  {}

  lemma {:induction false} InsertedGrows(worlds: seq<World>, actions: seq<Action>, i: nat, n: nat)
    requires Run(worlds, actions) && i <= n <= |actions|
    ensures worlds[i].inserted <= worlds[n].inserted
  {
    hide Remove;
    if i < n {
      InsertedGrows(worlds, actions, i, n - 1);
      assert Step(worlds[n - 1], actions[n - 1], worlds[n]);
      InsertedStep(worlds[n - 1], actions[n - 1], worlds[n]);
    }
  }

  lemma InsertedStep(w: World, a: Action, w': World)
    requires Step(w, a, w')
    ensures w.inserted <= w'.inserted
  {}

  ghost predicate Undisturbed(worlds: seq<World>, actions: seq<Action>, i: nat, n: nat, id: Id, number: nat)
    requires i <= n <= |actions| < |worlds|
  {
    forall k :: i <= k < n ==>
      !EndsSession(worlds[k], actions[k], id, number) && !DropsSession(worlds[k], actions[k], id, number)
  }

  /**
   What becomes of a session, exactly, whether or not ids are reused: it is still tracked under its
   id if and only if since then it was neither ended nor dropped, and it is dropped only by an
   insertion of its id or by a failed check of an earlier session of that id.
   */
  lemma {:induction false} TrackedExactly(
    worlds: seq<World>, actions: seq<Action>, i: nat, n: nat, id: Id, number: nat)
    requires Run(worlds, actions) && i <= n <= |actions| && IsTracked(worlds[i], id, number)
    ensures IsTracked(worlds[n], id, number) <==> Undisturbed(worlds, actions, i, n, id, number)
  {
    hide Next, EndsSession, DropsSession, IsTracked;
    if i < n {
      TrackedExactly(worlds, actions, i, n - 1, id, number);
      assert Step(worlds[n - 1], actions[n - 1], worlds[n]);
      EndsAlways(worlds, actions, i);
      TrackedIsInserted(worlds[i], id, number);
      EndsAlways(worlds, actions, n - 1);
      InsertedGrows(worlds, actions, i, n - 1);
      StaysUnless(worlds[n - 1], actions[n - 1], worlds[n], id, number);
    }
  }

  lemma TrackedIsInserted(w: World, id: Id, number: nat)
    requires EndsValid(w) && IsTracked(w, id, number)
    ensures number < w.inserted
  {}

  /** With fresh ids nothing is dropped: a session stays tracked until it is terminated or itself found dead. */
  lemma LiveStaysTracked(worlds: seq<World>, actions: seq<Action>, n: nat, id: Id, number: nat)
    requires Run(worlds, actions) && FreshIds(worlds, actions) && n < |actions| && IsTracked(worlds[n], id, number)
    ensures IsTracked(worlds[n + 1], id, number) <==> !EndsSession(worlds[n], actions[n], id, number)
  {
    TrackAlways(worlds, actions, n);
    EndsAlways(worlds, actions, n);
    assert Step(worlds[n], actions[n], worlds[n + 1]);
    StaysUnless(worlds[n], actions[n], worlds[n + 1], id, number);
  }

  // What a check through logind finds.

  /** An inserted session is tracked under its id, whichever way it is to be checked. */
  lemma InsertTracksIt(worlds: seq<World>, actions: seq<Action>, n: nat)
    requires Run(worlds, actions) && n < |actions| && actions[n].Insert?
    ensures var a := actions[n];
            a.id in worlds[n + 1].active && worlds[n + 1].active[a.id] == Session(worlds[n].inserted, a.viaLogind)
    ensures worlds[n + 1].inserted == worlds[n].inserted + 1 && worlds[n + 1].ends == worlds[n].ends
  {
    assert Step(worlds[n], actions[n], worlds[n + 1]);
  }

  ghost predicate NoFinish(actions: seq<Action>, i: nat, n: nat, task: nat) {
    forall k :: i <= k < n && k < |actions| ==> !(actions[k].FinishCheck? && actions[k].task == task)
  }

  lemma {:induction false} CheckWaits(worlds: seq<World>, actions: seq<Action>, i: nat, n: nat, task: nat)
    requires Run(worlds, actions) && i <= n <= |actions| && task in worlds[i].checks && NoFinish(actions, i, n, task)
    ensures task in worlds[n].checks && worlds[n].checks[task] == worlds[i].checks[task]
  {
    if i < n {
      hide Remove;
      CheckWaits(worlds, actions, i, n - 1, task);
      assert Step(worlds[n - 1], actions[n - 1], worlds[n]);
      if !actions[n - 1].Insert? { OnlyOwnCheckEnds(worlds[n - 1], actions[n - 1], task); }
    }
  }

  lemma OnlyOwnCheckEnds(w: World, a: Action, task: nat)
    requires Enabled(w, a) && task in w.checks && !(a.FinishCheck? && a.task == task)
    ensures task in Next(w, a).checks && Next(w, a).checks[task] == w.checks[task]
  {}

  /**
   A session found dead by logind is removed and recorded as such, whatever happened while logind was
   asked: if the session that was asked about is still the one tracked, it is that one that ends.
   */
  lemma DeadIsFound(worlds: seq<World>, actions: seq<Action>, i: nat, n: nat, task: nat, id: Id, number: nat)
    requires Run(worlds, actions) && i < n < |actions| && NoFinish(actions, i + 1, n, task)
    requires actions[i].PeekAlive? && actions[i].task == task && actions[i].id == id
    requires id in worlds[i].active && worlds[i].active[id] == Session(number, true)
    requires actions[n] == FinishCheck(task, false) && IsTracked(worlds[n], id, number)
    ensures id !in worlds[n + 1].active && worlds[n + 1].ends == worlds[n].ends + [End(number, FoundDead)]
  {
    assert Step(worlds[i], actions[i], worlds[i + 1]);
    CheckWaits(worlds, actions, i + 1, n, task);
    assert Step(worlds[n], actions[n], worlds[n + 1]);
  }

  /** Each step that ends a session records that end, with its cause, and any other leaves the record alone. */
  lemma EndsRecorded(worlds: seq<World>, actions: seq<Action>, n: nat, id: Id, number: nat)
    requires Run(worlds, actions) && n < |actions| && IsTracked(worlds[n], id, number)
    ensures EndsSession(worlds[n], actions[n], id, number) ==>
              worlds[n + 1].ends == worlds[n].ends
                + [End(number, if actions[n].PeekAlive? || actions[n].FinishCheck? then FoundDead else Taken)]
    ensures !Ended(worlds[n], number)
    ensures Ended(worlds[n + 1], number) <==>
            EndsSession(worlds[n], actions[n], id, number)
            || (actions[n].FinishCheck? && DropsSession(worlds[n], actions[n], id, number))
  {
    EndsAlways(worlds, actions, n);
    EndsOf(worlds[n], actions[n], worlds[n + 1], id, number);
  }

  lemma EndsOf(w: World, a: Action, v: World, id: Id, number: nat)
    requires Step(w, a, v) && EndsValid(w) && IsTracked(w, id, number)
    ensures EndsSession(w, a, id, number) ==>
              v.ends == w.ends + [End(number, if a.PeekAlive? || a.FinishCheck? then FoundDead else Taken)]
    ensures !Ended(w, number)
    ensures Ended(v, number) <==> EndsSession(w, a, id, number) || (a.FinishCheck? && DropsSession(w, a, id, number))
  {
    assert w.ends == v.ends || v.ends[..|w.ends|] == w.ends;
    if Ended(v, number) {
      var k :| 0 <= k < |v.ends| && v.ends[k].number == number;
      assert k == |w.ends|;
    }
    if v.ends != w.ends { assert Ended(v, v.ends[|w.ends|].number); }
  }

  // What a terminate_all leaves.

  ghost predicate InsertedBetween(actions: seq<Action>, i: nat, n: nat, id: Id) {
    exists k :: i <= k < n && k < |actions| && actions[k].Insert? && actions[k].id == id
  }

  lemma {:induction false} AbsentUntilInserted(worlds: seq<World>, actions: seq<Action>, i: nat, n: nat, id: Id)
    requires Run(worlds, actions) && i <= n <= |actions|
    requires id !in worlds[i].active && !InsertedBetween(actions, i, n, id)
    ensures id !in worlds[n].active
  {
    if i < n {
      AbsentUntilInserted(worlds, actions, i, n - 1, id);
      assert Step(worlds[n - 1], actions[n - 1], worlds[n]);
    }
  }

  /** This step is the sweep's turn for the k-th id of its snapshot. */
  predicate IsTurn(w: World, a: Action, task: nat, k: nat) {
    a == TerminateNext(task) && task in w.sweeps && w.sweeps[task].next == k
  }

  /** Every id that a sweep has passed has had its turn. */
  lemma {:induction false} TurnOf(worlds: seq<World>, actions: seq<Action>, n: nat, task: nat, k: nat) returns (t: nat)
    requires Run(worlds, actions) && n <= |actions| && task in worlds[n].sweeps && k < worlds[n].sweeps[task].next
    ensures t < n && IsTurn(worlds[t], actions[t], task, k)
    ensures k < |worlds[t].sweeps[task].snapshot| && worlds[t].sweeps[task].snapshot == worlds[n].sweeps[task].snapshot
  {
    assert Step(worlds[n - 1], actions[n - 1], worlds[n]);
    if task in worlds[n - 1].sweeps && k < worlds[n - 1].sweeps[task].next {
      t := TurnOf(worlds, actions, n - 1, task, k);
    } else {
      t := n - 1;
    }
  }

  /**
   What a sweep has passed, whether or not ids are reused: after its turn an id is tracked again at
   some time if and only if it has been inserted after that turn.
   */
  lemma PassedIdsExactly(worlds: seq<World>, actions: seq<Action>, t: nat, n: nat, task: nat, k: nat)
    requires Run(worlds, actions) && t < n <= |actions| && IsTurn(worlds[t], actions[t], task, k)
    ensures k < |worlds[t].sweeps[task].snapshot|
    ensures var id := worlds[t].sweeps[task].snapshot[k];
            (exists m :: t < m <= n && id in worlds[m].active) <==> InsertedBetween(actions, t + 1, n, id)
  {
    hide InsertedBetween;
    assert Step(worlds[t], actions[t], worlds[t + 1]);
    var id := worlds[t].sweeps[task].snapshot[k];
    TurnRemoves(worlds[t], actions[t], worlds[t + 1], task);
    if m :| t < m <= n && id in worlds[m].active {
      if !InsertedBetween(actions, t + 1, m, id) {
        AbsentUntilInserted(worlds, actions, t + 1, m, id);
      }
      InsertedWithin(actions, t + 1, m, n, id);
    }
    if InsertedBetween(actions, t + 1, n, id) {
      var j := InsertionOf(actions, t + 1, n, id);
      assert Step(worlds[j], actions[j], worlds[j + 1]);
      assert id in worlds[j + 1].active;
    }
  }

  lemma TurnRemoves(w: World, a: Action, w': World, task: nat)
    requires Step(w, a, w') && a == TerminateNext(task)
    ensures w.sweeps[task].snapshot[w.sweeps[task].next] !in w'.active
  {}

  lemma InsertedWithin(actions: seq<Action>, i: nat, m: nat, n: nat, id: Id)
    requires m <= n
    ensures InsertedBetween(actions, i, m, id) ==> InsertedBetween(actions, i, n, id)
  {}

  lemma InsertionOf(actions: seq<Action>, i: nat, n: nat, id: Id) returns (j: nat)
    requires InsertedBetween(actions, i, n, id)
    ensures i <= j < n && j < |actions| && actions[j].Insert? && actions[j].id == id
  {
    j :| i <= j < n && j < |actions| && actions[j].Insert? && actions[j].id == id;
  }

  /** With fresh ids: when a terminate_all has been through its snapshot, no id of it is tracked. */
  lemma TerminateAllClears(worlds: seq<World>, actions: seq<Action>, n: nat, task: nat, id: Id)
    requires Run(worlds, actions) && FreshIds(worlds, actions) && n <= |actions| && task in worlds[n].sweeps
    requires worlds[n].sweeps[task].next == |worlds[n].sweeps[task].snapshot| && id in worlds[n].sweeps[task].snapshot
    ensures id !in worlds[n].active
  {
    hide Next;
    TrackAlways(worlds, actions, n);
  }

  /** The snapshot of a terminate_all never changes, so it holds every session tracked when it began. */
  lemma {:induction false} SnapshotKept(worlds: seq<World>, actions: seq<Action>, i: nat, n: nat, task: nat, id: Id)
    requires Run(worlds, actions) && i < n <= |actions|
    requires actions[i].StartTerminateAll? && actions[i].task == task && id in worlds[i].active
    ensures task in worlds[n].sweeps && id in worlds[n].sweeps[task].snapshot
  {
    assert Step(worlds[n - 1], actions[n - 1], worlds[n]);
    if i < n - 1 { SnapshotKept(worlds, actions, i, n - 1, task, id); }
  }

  /**
   A run in which a session is dropped: a logind check removes by id after it has waited, and the
   session it asked about was terminated meanwhile and its id given to a new one.
   */
  lemma ReusedIdLosesSession(id: Id) returns (worlds: seq<World>, actions: seq<Action>)
    ensures Run(worlds, actions) && |actions| == 5
    ensures worlds[4].active == map[id := Session(1, true)] && DropsSession(worlds[4], actions[4], id, 1)
    ensures worlds[5].active == map[]
  {
    actions := [Insert(id, true), PeekAlive(0, id, false), Terminate(id), Insert(id, true), FinishCheck(0, false)];
    var w1 := Next(INIT, actions[0]);
    var w2 := Next(w1, actions[1]);
    var w3 := Next(w2, actions[2]);
    var w4 := Next(w3, actions[3]);
    worlds := [INIT, w1, w2, w3, w4, Next(w4, actions[4])];
  }

  /** Inserting loses a tracked session exactly when it is tracked under the id inserted. */
  lemma InsertLosesExactly(worlds: seq<World>, actions: seq<Action>, n: nat, id: Id)
    requires Run(worlds, actions) && n < |actions| && actions[n].Insert? && id in worlds[n].active
    ensures var number := worlds[n].active[id].number;
            (Tracked(worlds[n + 1], number) || Ended(worlds[n + 1], number)) <==> actions[n].id != id
  {
    EndsAlways(worlds, actions, n);
    var w, v := worlds[n], worlds[n + 1];
    assert Step(w, actions[n], v);
    if actions[n].id != id {
      assert v.active[id].number == w.active[id].number;
    } else {
      assert !Ended(w, w.active[id].number);
    }
  }

  // The object.

  datatype Peek = Alive | DeadChild | NeedsLogindCheck | Unknown

  class SessionManager {
    var active: map<Id, Session>
    var inserted: nat
    ghost var used: set<Id>
    ghost var checks: map<nat, Check>
    ghost var ends: seq<End>

    ghost function View(): World
      reads this
    {
      World(active, inserted, used, checks, map[], ends)
    }

    constructor ()
      ensures View() == INIT
    {
      active, inserted, used, checks, ends := map[], 0, {}, map[], [];
    }

    /** The last step of spawning a session. */
    method InsertSession(id: Id, viaLogind: bool)
      modifies this
      ensures View() == Next(old(View()), Insert(id, viaLogind))
    {
      active := active[id := Session(inserted, viaLogind)];
      inserted, used := inserted + 1, used + {id};
    }

    method TryRemove(id: Id, ghost cause: Cause) returns (removed: Option<Session>)
      modifies this`active, this`ends
      ensures View() == Remove(old(View()), id, cause)
      ensures removed == if id in old(active) then Some(old(active[id])) else None
    {
      if id !in active { return None; }
      removed := Some(active[id]);
      ends := ends + [End(active[id].number, cause)];
      active := active - {id};
    }

    /** The part of `is_session_alive` under the lock. */
    method PeekSession(ghost task: nat, id: Id, childExited: bool) returns (peek: Peek)
      requires task !in checks
      modifies this`active, this`ends, this`checks
      ensures View() == Next(old(View()), PeekAlive(task, id, childExited))
      ensures peek == if id !in old(active) then Unknown
                      else if old(active[id]).viaLogind then NeedsLogindCheck
                      else if childExited then DeadChild else Alive
    {
      if id !in active { return Unknown; }
      if active[id].viaLogind {
        checks := checks[task := Check(id, active[id].number)];
        return NeedsLogindCheck;
      }
      if !childExited { return Alive; }
      var _ := TryRemove(id, FoundDead);
      return DeadChild;
    }

    /** The part after logind has answered. */
    method FinishPeek(ghost task: nat, id: Id, alive: bool)
      requires task in checks && checks[task].id == id
      modifies this`active, this`ends, this`checks
      ensures View() == Next(old(View()), FinishCheck(task, alive))
    {
      checks := checks - {task};
      if !alive {
        var _ := TryRemove(id, FoundDead);
      }
    }

    /** Tears down every session of a snapshot, one after another. */
    method TerminateAll() returns (taken: seq<Session>)
      modifies this`active, this`ends
      ensures active == map[] && |taken| == |old(active)|
      ensures forall s :: s in taken <==> exists id :: id in old(active) && s == old(active)[id]
      ensures |ends| == |old(ends)| + |taken| && old(ends) <= ends
      ensures forall k :: 0 <= k < |taken| ==> ends[|old(ends)| + k] == End(taken[k].number, Taken)
    {
      var ids := active.Keys;
      taken := [];
      while ids != {}
        invariant active.Keys == ids && ids <= old(active).Keys
        invariant forall id :: id in active ==> active[id] == old(active)[id]
        invariant |taken| + |ids| == |old(active)|
        invariant forall s :: s in taken <==> exists id :: id in old(active) && id !in ids && s == old(active)[id]
        invariant |ends| == |old(ends)| + |taken| && old(ends) <= ends
        invariant forall k :: 0 <= k < |taken| ==> ends[|old(ends)| + k] == End(taken[k].number, Taken)
      {
        var id :| id in ids;
        var session := TryRemove(id, Taken);
        taken := taken + [session.value];
        ids := ids - {id};
      }
    }
  }
}
