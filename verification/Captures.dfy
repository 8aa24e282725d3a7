/**
 The screen capture: a producer callback that duplicates a file descriptor per frame, the channel it
 sends them through, and the shutdown that drains it. The n-th descriptor duplicated is number n,
 whatever number the system gave it, so that its whole life can be followed.
 */
module Captures {
  import opened Bytes

  datatype Format = Format(width: u32, height: u32, format: u32, modifier: u64)

  datatype Frame = Frame(fd: nat, format: Format, stride: int, isDmaBuf: bool, identity: int)

  datatype PlaneKind = DmaBuf | MemFd | MemPtr

  /** One data plane of a dequeued buffer. */
  datatype Plane = Plane(kind: PlaneKind, fd: int, stride: int)

  /**
   Where every descriptor is: in the channel, held by the consumer between taking a frame and
   disposing of it, closed, or handed to an importer that owns it from then on. One that is still
   held when the consumer is gone is lost: nothing will close it.
   */
  datatype Capture = Capture(
    format: Format, nextFd: nat, queue: seq<Frame>, held: Option<nat>, closed: seq<nat>, handed: seq<nat>,
    producing: bool)

  const START := Capture(Format(0, 0, 0, 0), 0, [], None, [], [], true)

  function Renegotiated(c: Capture, f: Format): Capture { c.(format := f) }

  /** The process callback: only descriptor-backed planes that can be duplicated become frames. */
  function Processed(c: Capture, dequeued: Option<seq<Plane>>, dupSucceeds: bool): Capture {
    if dequeued.None? || dequeued.value == [] then c else
      var plane := dequeued.value[0];
      if plane.kind.MemPtr? || plane.fd < 0 || !dupSucceeds then c else
        var frame := Frame(c.nextFd, c.format, plane.stride, plane.kind.DmaBuf?, plane.fd);
        c.(nextFd := c.nextFd + 1, queue := c.queue + [frame])
  }

  function Taken(c: Capture): Capture
    requires c.queue != []
  {
    c.(queue := c.queue[1..], held := Some(c.queue[0].fd))
  }

  function Close(c: Capture): Capture
    requires c.held.Some?
  {
    c.(held := None, closed := c.closed + [c.held.value])
  }

  function Hand(c: Capture): Capture
    requires c.held.Some?
  {
    c.(held := None, handed := c.handed + [c.held.value])
  }

  function Fds(queue: seq<Frame>): (fds: seq<nat>)
    ensures |fds| == |queue| && forall i :: 0 <= i < |fds| ==> fds[i] == queue[i].fd
  {
    seq(|queue|, i requires 0 <= i < |queue| => queue[i].fd)
  }

  /** Closing everything left in the channel, first to last, once no more can arrive. */
  function Drained(c: Capture): Capture { c.(queue := [], closed := c.closed + Fds(c.queue)) }

  // Conservation.

  /** Each number below n, once. */
  function Numbers(n: nat): multiset<nat> { if n == 0 then multiset{} else Numbers(n - 1) + multiset{n - 1} }

  lemma {:induction false} NumbersOnce(n: nat, k: nat)
    ensures Numbers(n)[k] == if k < n then 1 else 0
  {
    if n > 0 { NumbersOnce(n - 1, k); }
  }

  ghost function Held(c: Capture): multiset<nat> { if c.held.Some? then multiset{c.held.value} else multiset{} }

  /** Every descriptor ever duplicated is in exactly one place, once. */
  ghost predicate Conserved(c: Capture) {
    multiset(Fds(c.queue)) + Held(c) + multiset(c.closed) + multiset(c.handed) == Numbers(c.nextFd)
  }

  lemma FdsAppend(queue: seq<Frame>, f: Frame)
    ensures Fds(queue + [f]) == Fds(queue) + [f.fd]
  {}

  lemma ProcessedConserves(c: Capture, dequeued: Option<seq<Plane>>, dupSucceeds: bool)
    requires Conserved(c)
    ensures Conserved(Processed(c, dequeued, dupSucceeds))
  {
    hide Fds;
    var d := Processed(c, dequeued, dupSucceeds);
    if d != c {
      FdsAppend(c.queue, d.queue[|c.queue|]);
    }
  }

  lemma TakenConserves(c: Capture)
    requires Conserved(c) && c.queue != [] && c.held.None?
    ensures Conserved(Taken(c))
  {
    assert Fds(c.queue) == [c.queue[0].fd] + Fds(c.queue[1..]);
  }

  lemma DisposedConserves(c: Capture)
    requires Conserved(c) && c.held.Some?
    ensures Conserved(Close(c)) && Conserved(Hand(c))
  {
    hide Fds, Numbers;
  }

  lemma DrainedConserves(c: Capture)
    requires Conserved(c)
    ensures Conserved(Drained(c))
  {
    assert Fds([]) == [];
  }

  lemma ProcessedOnlyQueues(c: Capture, dequeued: Option<seq<Plane>>, dupSucceeds: bool)
    ensures var d := Processed(c, dequeued, dupSucceeds); d == c.(nextFd := d.nextFd, queue := d.queue)
  {}

  lemma SameFds(c: Capture, d: Capture)
    requires d == c.(format := d.format, producing := d.producing) && Conserved(c)
    ensures Conserved(d)
  {}

  lemma DrainEmpties(c: Capture)
    requires Conserved(c)
    ensures var d := Drained(c); Conserved(d) && d.queue == [] && d == c.(queue := [], closed := d.closed)
  {
    DrainedConserves(c);
  }

  lemma StartConserved()
    ensures Conserved(START) && START.held.None? && START.queue == []
  {
    assert Fds(START.queue) == [];
  }

  lemma HandedNotClosed(c: Capture, fd: nat)
    requires Conserved(c) && fd in c.handed
    ensures fd !in c.closed
  {
    NumbersOnce(c.nextFd, fd);
    assert multiset(c.handed)[fd] > 0;
    assert (multiset(Fds(c.queue)) + Held(c) + multiset(c.closed) + multiset(c.handed))[fd] <= 1;
    assert multiset(c.closed)[fd] == 0;
  }

  /** What conservation means for one descriptor once nothing is queued: only one still held is lost. */
  lemma ExactlyOnce(c: Capture, fd: nat)
    requires Conserved(c) && c.queue == [] && fd < c.nextFd
    ensures multiset(c.closed)[fd] + multiset(c.handed)[fd] == if c.held == Some(fd) then 0 else 1
  {
    assert Fds(c.queue) == [];
    NumbersOnce(c.nextFd, fd);
    assert (multiset(Fds(c.queue)) + Held(c) + multiset(c.closed) + multiset(c.handed))[fd] == 1;
  }

  lemma HeldIsNumbered(c: Capture)
    requires Conserved(c) && c.held.Some?
    ensures c.held.value < c.nextFd
  {
    NumbersOnce(c.nextFd, c.held.value);
    assert (multiset(Fds(c.queue)) + Held(c) + multiset(c.closed) + multiset(c.handed))[c.held.value] >= 1;
  }

  predicate DisposedOnce(c: Capture, fd: nat) { multiset(c.closed)[fd] + multiset(c.handed)[fd] == 1 }

  /** With an empty channel, every descriptor was disposed of exactly once if and only if none is held. */
  lemma DisposedExactly(c: Capture)
    requires Conserved(c) && c.queue == []
    ensures (forall fd: nat :: fd < c.nextFd ==> DisposedOnce(c, fd)) <==> c.held.None?
  {
    hide Conserved;
    forall fd: nat | fd < c.nextFd ensures DisposedOnce(c, fd) <==> c.held != Some(fd) {
      ExactlyOnce(c, fd);
    }
    if c.held.Some? {
      HeldIsNumbered(c);
      assert !DisposedOnce(c, c.held.value);
    }
  }

  /** The capture object. */
  class PipewireCapture {
    var format: Format
    var nextFd: nat
    var queue: seq<Frame>
    var held: Option<nat>
    var closed: seq<nat>
    var handed: seq<nat>
    var producing: bool

    ghost function View(): Capture
      reads this
    {
      Capture(format, nextFd, queue, held, closed, handed, producing)
    }

    constructor ()
      ensures View() == START
    {
      format, nextFd, queue, held, closed, handed, producing := Format(0, 0, 0, 0), 0, [], None, [], [], true;
    }

    method ParamChanged(f: Format)
      modifies this`format
      ensures View() == Renegotiated(old(View()), f)
    {
      format := f;
    }

    method Process(dequeued: Option<seq<Plane>>, dupSucceeds: bool)
      requires producing
      modifies this`nextFd, this`queue
      ensures View() == Processed(old(View()), dequeued, dupSucceeds)
    {
      if dequeued.None? { return; }
      var planes := dequeued.value;
      if planes == [] { return; }
      var plane := planes[0];
      if plane.kind == DmaBuf || plane.kind == MemFd {
        if plane.fd >= 0 {
          if dupSucceeds {
            queue := queue + [Frame(nextFd, format, plane.stride, plane.kind == DmaBuf, plane.fd)];
            nextFd := nextFd + 1;
          }
        }
      }
    }

    /** A frame, or nothing when the wait times out. */
    method NextFrame() returns (frame: Option<Frame>)
      requires held.None?
      modifies this`queue, this`held
      ensures frame == if old(queue) == [] then None else Some(old(queue[0]))
      ensures View() == if frame.None? then old(View()) else Taken(old(View()))
    {
      if queue == [] { return None; }
      frame := Some(queue[0]);
      queue, held := queue[1..], Some(queue[0].fd);
    }

    method CloseFd()
      requires held.Some?
      modifies this`held, this`closed
      ensures View() == Close(old(View()))
    {
      closed, held := closed + [held.value], None;
    }

    method HandFd()
      requires held.Some?
      modifies this`held, this`handed
      ensures View() == Hand(old(View()))
    {
      handed, held := handed + [held.value], None;
    }

    /** Dropping the capture: the producer is stopped and joined, then the channel is emptied. */
    method Drop()
      modifies this`producing, this`queue, this`closed
      ensures View() == Drained(old(View())).(producing := false)
    {
      producing := false;
      ghost var all := queue;
      ghost var n := 0;
      while queue != []
        invariant !producing && n <= |all| && queue == all[n..]
        invariant closed == old(closed) + Fds(all)[..n]
        decreases |queue|
      {
        closed := closed + [queue[0].fd];
        queue := queue[1..];
        n := n + 1;
      }
      assert Fds(all)[..n] == Fds(all);
    }
  }
}
