/**
 Writers behind piped threads. A handle made by `WriteHandle::piped_thread` owns the writing end of a
 bounded pipe; a copier thread owns the boxed writer and feeds it from the pipe. The boxed writer may
 itself be such a handle, to any depth. Flushing a handle means closing its pipe, joining its copier
 -- which first flushes the boxed writer, in the same way -- and starting again with a new pipe and a
 new copier around the writer that came back.

 All threads run at once: the model is a transition system in which the client and every copier take
 their steps in any order.
 */
module PipedWriters {
  import opened Streams

  /** A copier is copying, with the bytes it has taken out of the pipe and not yet written; or it is
      waiting to join the next copier, as part of flushing the boxed writer; or it has returned. */
  datatype Copier = Copying(inflight: seq<byte>) | Flushing | Exited {
    function Held(): seq<byte> {
      if Copying? then inflight else []
    }
  }

  /** The innermost writer may buffer: got is what it has passed on, and held what it has taken but
      keeps until it is flushed. alive counts the threads spawned for a handle that have not
      returned. */
  datatype Chain =
    | Sink(got: seq<byte>, held: seq<byte>)
    | Pipe(fifo: seq<byte>, room: nat, open: bool, copier: Copier, alive: int, next: Chain)

  /** Everything on its way, oldest bytes first. */
  function Flow(c: Chain): seq<byte> {
    match c
    case Sink(got, held) => got + held
    case Pipe(fifo, _, _, copier, _, next) => Flow(next) + copier.Held() + fifo
  }

  /** What the innermost writer has passed on. */
  function Arrived(c: Chain): seq<byte> {
    if c.Sink? then c.got else Arrived(c.next)
  }

  // ---- Steps of the copiers

  /** Fetch from the pipe; deliver to the boxed writer; find the pipe closed and empty, and flush the
      boxed writer; join the copier behind it. The innermost writer may pass bytes on by itself. */
  datatype Move =
    | Fetch(n: nat)
    | Deliver(n: nat)
    | Eof
    | Join
    | PassOn(n: nat)

  /** A move by the copier at some depth of the chain. */
  datatype Act = Act(depth: nat, move: Move)

  predicate Fits(c: Chain, n: nat) {
    c.Pipe? ==> |c.fifo| + n <= c.room
  }

  function Push(c: Chain, data: seq<byte>): Chain {
    if c.Sink? then c.(held := c.held + data) else c.(fifo := c.fifo + data)
  }

  /** A new pipe and a new thread around the boxed writer that the old thread returned. */
  function Respawn(c: Chain): Chain
    requires c.Pipe?
  {
    Pipe([], c.room, true, Copying([]), c.alive + 1, c.next)
  }

  /** Flushing the innermost writer; one that does not buffer may already have nothing left. */
  function Settled(c: Chain): Chain
    requires c.Sink?
  {
    Sink(c.got + c.held, [])
  }

  predicate CanMove(c: Chain, m: Move) {
    c.Pipe? &&
    match m
    case Fetch(n) => c.copier == Copying([]) && 0 < n <= |c.fifo|
    case Deliver(n) => 0 < n <= |c.copier.Held()| && Fits(c.next, n)
    case Eof => c.copier == Copying([]) && c.fifo == [] && !c.open
    case Join => c.copier.Flushing? && c.next.Pipe? && c.next.copier.Exited?
    case PassOn(n) => c.next.Sink? && 0 < n <= |c.next.held|
  }

  function Moved(c: Chain, m: Move): Chain
    requires CanMove(c, m)
  {
    match m
    case Fetch(n) => c.(fifo := c.fifo[n..], copier := Copying(c.fifo[..n]))
    case Deliver(n) =>
      c.(copier := Copying(c.copier.inflight[n..]), next := Push(c.next, c.copier.inflight[..n]))
    case Eof =>
      if c.next.Sink? then c.(copier := Exited, alive := c.alive - 1, next := Settled(c.next))
      else c.(copier := Flushing, next := c.next.(open := false))
    case Join => c.(copier := Exited, alive := c.alive - 1, next := Respawn(c.next))
    case PassOn(n) => c.(next := Sink(c.next.got + c.next.held[..n], c.next.held[n..]))
  }

  predicate Enabled(c: Chain, a: Act) {
    if a.depth == 0 then CanMove(c, a.move)
    else c.Pipe? && Enabled(c.next, Act(a.depth - 1, a.move))
  }

  function Fire(c: Chain, a: Act): Chain
    requires Enabled(c, a)
  {
    if a.depth == 0 then Moved(c, a.move)
    else c.(next := Fire(c.next, Act(a.depth - 1, a.move)))
  }

  // ---- What every step keeps

  /** Nothing is on its way, the innermost writer holds nothing back, and every copier waits for
      input. */
  ghost predicate Quiet(c: Chain) {
    match c
    case Sink(_, held) => held == []
    case Pipe(fifo, _, open, copier, _, next) => fifo == [] && open && copier == Copying([]) && Quiet(next)
  }

  /** A pipe is closed exactly while its owner waits for the copier behind it. There is one thread
      per handle until it returns, and none until the handle is set up again; when it has returned,
      everything behind it has been passed on to the end. */
  ghost predicate Ordered(c: Chain) {
    c.Pipe? ==>
      && 0 < c.room && |c.fifo| <= c.room
      && c.alive == (if c.copier.Exited? then 0 else 1)
      && (c.open ==> c.copier.Copying?)
      && (c.copier.Copying? ==> c.next.Pipe? ==> c.next.open)
      && (c.copier.Flushing? ==> c.fifo == [] && c.next.Pipe? && !c.next.open)
      && (c.copier.Exited? ==> c.fifo == [] && Quiet(c.next))
      && Ordered(c.next)
  }

  lemma {:induction false} QuietFlow(c: Chain)
    requires Quiet(c)
    ensures Flow(c) == Arrived(c)
  {
    if c.Sink? {
    } else {
      QuietFlow(c.next);
    }
  }

  lemma {:induction false} QuietStays(c: Chain, a: Act)
    requires Quiet(c)
    ensures !Enabled(c, a)
    decreases c
  {
    if a.depth == 0 || c.Sink? {
    } else {
      QuietStays(c.next, Act(a.depth - 1, a.move));
    }
  }

  /** A byte still has two moves to make at each level it has to pass, and one at the innermost
      writer; x counts those that come from further out. */
  function Work(c: Chain, x: nat): nat {
    match c
    case Sink(_, held) => x + |held|
    case Pipe(fifo, _, _, copier, _, next) =>
      2 * (x + |fifo|) + |copier.Held()| + Work(next, x + |fifo| + |copier.Held()|)
  }

  function Rounds(c: Chain): nat {
    if c.Sink? || c.copier.Exited? then 0
    else (if c.copier.Copying? then 2 else 1) + Rounds(c.next)
  }

  /** Any move anywhere in the chain loses and reorders nothing, leaves the outermost pipe open or
      closed as it was, and brings the end nearer. */
  lemma {:induction false} FireKeeps(c: Chain, a: Act, x: nat)
    requires Ordered(c) && Enabled(c, a)
    ensures var d := Fire(c, a);
            && Ordered(d) && Flow(d) == Flow(c)
            && d.Pipe? && d.open == c.open
            && Work(d, x) + Rounds(d) < Work(c, x) + Rounds(c)
    decreases c
  {
    if a.depth == 0 {
      MoveKeeps(c, a.move, x);
    } else {
      var b := Act(a.depth - 1, a.move);
      if c.copier.Exited? {
        QuietStays(c.next, b);
      } else {
        FireKeeps(c.next, b, x + |c.fifo| + |c.copier.Held()|);
      }
    }
  }

  lemma MoveKeeps(c: Chain, m: Move, x: nat)
    requires Ordered(c) && CanMove(c, m)
    ensures m.Deliver? && c.next.Pipe? ==> c.next.open
    ensures var d := Moved(c, m);
            && Ordered(d) && Flow(d) == Flow(c) && d.open == c.open
            && Work(d, x) + Rounds(d) < Work(c, x) + Rounds(c)
  {
    match m {
      case Fetch(n) =>
        assert c.fifo == c.fifo[..n] + c.fifo[n..];
      case Deliver(n) =>
        DeliverKeeps(c, n, x);
      case Eof =>
      case Join =>
      case PassOn(n) =>
        assert c.next.held == c.next.held[..n] + c.next.held[n..];
    }
  }

  lemma DeliverKeeps(c: Chain, n: nat, x: nat)
    requires Ordered(c) && CanMove(c, Deliver(n))
    ensures var d := Moved(c, Deliver(n));
            && Ordered(d) && Flow(d) == Flow(c)
            && Work(d, x) < Work(c, x) && Rounds(d) == Rounds(c)
  {
  }

  /** How the chain is laid out: the sizes of its pipes, from the outside in. */
  function Layout(c: Chain): seq<nat> {
    if c.Sink? then [] else [c.room] + Layout(c.next)
  }

  lemma {:induction false} FireKeepsLayout(c: Chain, a: Act)
    requires Enabled(c, a)
    ensures Layout(Fire(c, a)) == Layout(c)
    decreases c
  {
    if a.depth == 0 {
    } else {
      FireKeepsLayout(c.next, Act(a.depth - 1, a.move));
    }
  }

  // ---- Something can always move

  /** A pipe with bytes in it or behind it, or one that is closed and whose copier has not returned,
      has a move to make somewhere: a full pipe downstream is itself one with bytes in it. */
  lemma {:induction false} SomethingMoves(c: Chain) returns (a: Act)
    requires Ordered(c) && c.Pipe?
    requires c.fifo != [] || c.copier.Held() != [] || (!c.open && !c.copier.Exited?)
    ensures Enabled(c, a)
    decreases c
  {
    if (c.copier.Held() != [] && !Fits(c.next, 1)) || (c.copier.Flushing? && !c.next.copier.Exited?) {
      var b := SomethingMoves(c.next);
      a := Act(b.depth + 1, b.move);
    } else {
      a := Act(0, if c.copier.Flushing? then Join
                  else if c.copier.Held() != [] then Deliver(1)
                  else if c.fifo != [] then Fetch(1)
                  else Eof);
    }
  }

  ghost predicate CanProceed(c: Chain) {
    exists a :: Enabled(c, a)
  }

  lemma SomethingCanProceed(c: Chain)
    requires Ordered(c) && c.Pipe?
    requires c.fifo != [] || c.copier.Held() != [] || (!c.open && !c.copier.Exited?)
    ensures CanProceed(c)
  {
    var a := SomethingMoves(c);
  }

  // ---- The client

  /** The owner of the outermost handle is free to write, or waits in flush, or in the destructor, or
      has dropped everything. */
  datatype Client = Idle | InFlush | InDrop | Gone

  /** accepted is everything the innermost writer was given at first and all that was written since. */
  datatype System = System(client: Client, chain: Chain, accepted: seq<byte>)

  datatype Step =
    | Inside(a: Act)
    | Write(data: seq<byte>)
    | FlushBegin
    | FlushEnd
    | DropBegin
    | DropEnd

  function Close(c: Chain): Chain {
    if c.Sink? then c else c.(open := false)
  }

  predicate Ready(s: System, t: Step) {
    match t
    case Inside(a) => Enabled(s.chain, a)
    case Write(data) => s.client.Idle? && s.chain.Pipe? && Fits(s.chain, |data|)
    case FlushBegin => s.client.Idle? && s.chain.Pipe?
    case FlushEnd => s.client.InFlush? && s.chain.Pipe? && s.chain.copier.Exited?
    case DropBegin => s.client.Idle? && s.chain.Pipe?
    case DropEnd => s.client.InDrop? && s.chain.Pipe? && s.chain.copier.Exited?
  }

  /** Dropping a handle closes its pipe and joins its copier, which hands back the boxed writer; that
      is dropped next, in the same way. */
  function Next(s: System, t: Step): System
    requires Ready(s, t)
  {
    match t
    case Inside(a) => s.(chain := Fire(s.chain, a))
    case Write(data) => s.(chain := Push(s.chain, data), accepted := s.accepted + data)
    case FlushBegin => s.(client := InFlush, chain := Close(s.chain))
    case FlushEnd => s.(client := Idle, chain := Respawn(s.chain))
    case DropBegin => s.(client := InDrop, chain := Close(s.chain))
    case DropEnd => s.(client := if s.chain.next.Pipe? then InDrop else Gone, chain := Close(s.chain.next))
  }

  /** At every step of every run: what was accepted is what the innermost writer has, followed by
      what the copiers hold and the pipes contain, in order. */
  ghost predicate Inv(s: System) {
    && Ordered(s.chain)
    && Flow(s.chain) == s.accepted
    && (s.client.Gone? <==> s.chain.Sink?)
    && (s.client.Gone? ==> Quiet(s.chain))
    && (s.chain.Pipe? ==> s.chain.open == s.client.Idle?)
  }

  lemma NextKeeps(s: System, t: Step)
    requires Inv(s) && Ready(s, t)
    ensures Inv(Next(s, t))
  {
    match t {
      case Inside(a) => FireKeeps(s.chain, a, 0);
      case Write(data) =>
        var c := s.chain;
        assert Flow(c.next) + c.copier.Held() + (c.fifo + data) == Flow(c) + data;
      case FlushBegin =>
      case FlushEnd => QuietFlow(s.chain.next);
      case DropBegin =>
      case DropEnd => DropEndKeeps(s);
    }
  }

  lemma DropEndKeeps(s: System)
    requires Inv(s) && Ready(s, DropEnd)
    ensures Inv(Next(s, DropEnd))
  {
    var c := s.chain.next;
    assert Ordered(c) && Quiet(c);
    assert Flow(s.chain) == Flow(c);
    if c.Pipe? {
      assert Ordered(c.next);
      assert Ordered(Close(c));
    }
  }

  // ---- Runs

  predicate AllReady(s: System, steps: seq<Step>)
    decreases |steps|
  {
    steps != [] ==> Ready(s, steps[0]) && AllReady(Next(s, steps[0]), steps[1..])
  }

  function Run(s: System, steps: seq<Step>): System
    requires AllReady(s, steps)
    decreases |steps|
  {
    if steps == [] then s else Run(Next(s, steps[0]), steps[1..])
  }

  /** Between calls a client can always begin a flush or a drop, and write whatever there is room for. */
  lemma IdleClientCan(s: System, data: seq<byte>)
    requires Inv(s) && s.client.Idle?
    ensures Ready(s, FlushBegin) && Ready(s, DropBegin)
    ensures Ready(s, Write(data)) <==> |s.chain.fifo| + |data| <= s.chain.room
    ensures Next(s, FlushBegin).client.InFlush? && Next(s, DropBegin).client.InDrop?
  {
  }

  /** A flush or a write leaves the handle as it was: as many handles inside one another, with pipes of
      the same sizes, and the client free again once a flush has returned. Only dropping takes handles
      off, from the outside. */
  lemma NextKeepsLayout(s: System, t: Step)
    requires Inv(s) && Ready(s, t)
    ensures Layout(Next(s, t).chain) == if t.DropEnd? then Layout(s.chain)[1..] else Layout(s.chain)
    ensures t.FlushEnd? ==> Next(s, t).client.Idle? && Next(s, t).chain.open
    ensures Next(s, t).accepted == if t.Write? then s.accepted + t.data else s.accepted
  {
    if t.Inside? {
      FireKeepsLayout(s.chain, t.a);
    }
  }

  /** What the client wrote in the course of a run. */
  function Writes(steps: seq<Step>): seq<byte> {
    if steps == [] then []
    else (if steps[0].Write? then steps[0].data else []) + Writes(steps[1..])
  }

  /** Handles around handles around a plain writer; one pipe for each entry of rooms. */
  function Nest(rooms: seq<nat>, writer: Chain): Chain {
    if rooms == [] then writer else Pipe([], rooms[0], true, Copying([]), 1, Nest(rooms[1..], writer))
  }

  lemma {:induction false} NestIsOrdered(rooms: seq<nat>, writer: Chain)
    requires writer.Sink? && forall i | 0 <= i < |rooms| :: rooms[i] > 0
    ensures Ordered(Nest(rooms, writer)) && Flow(Nest(rooms, writer)) == Flow(writer)
  {
    if rooms == [] {
    } else {
      NestIsOrdered(rooms[1..], writer);
    }
  }

  /** A client that has just set up such a nest. */
  function Start(rooms: seq<nat>, writer: Chain): System {
    System(Idle, Nest(rooms, writer), Flow(writer))
  }

  lemma {:induction false} RunKeeps(s: System, steps: seq<Step>)
    requires Inv(s) && AllReady(s, steps)
    ensures Inv(Run(s, steps)) && Run(s, steps).accepted == s.accepted + Writes(steps)
    decreases |steps|
  {
    if steps == [] {
    } else {
      var t := Next(s, steps[0]);
      NextKeeps(s, steps[0]);
      RunKeeps(t, steps[1..]);
      var data := if steps[0].Write? then steps[0].data else [];
      assert t.accepted == s.accepted + data;
      assert (s.accepted + data) + Writes(steps[1..]) == s.accepted + (data + Writes(steps[1..]));
    }
  }

  /** The flush guarantee, for every depth of nesting, every interleaving and any number of earlier
      flushes: when the flush of the outermost handle returns, the innermost writer has passed on
      everything ever written at the top, in order and once, although it may itself buffer, and all
      pipes and copiers are empty. */
  lemma FlushDelivers(rooms: seq<nat>, writer: Chain, steps: seq<Step>)
    requires writer.Sink? && rooms != [] && forall i | 0 <= i < |rooms| :: rooms[i] > 0
    requires var s := Start(rooms, writer); AllReady(s, steps) && Ready(Run(s, steps), FlushEnd)
    ensures var t := Next(Run(Start(rooms, writer), steps), FlushEnd);
            Arrived(t.chain) == Flow(writer) + Writes(steps) && Quiet(t.chain)
  {
    NestIsOrdered(rooms, writer);
    var s := Start(rooms, writer);
    RunKeeps(s, steps);
    NextKeeps(Run(s, steps), FlushEnd);
    QuietFlow(Next(Run(s, steps), FlushEnd).chain);
  }

  /** The same for the destructor, after which no pipe and no thread is left. */
  lemma DropDelivers(rooms: seq<nat>, writer: Chain, steps: seq<Step>)
    requires writer.Sink? && rooms != [] && forall i | 0 <= i < |rooms| :: rooms[i] > 0
    requires AllReady(Start(rooms, writer), steps)
    ensures var t := Run(Start(rooms, writer), steps);
            t.client.Gone? ==> t.chain == Sink(Flow(writer) + Writes(steps), [])
  {
    NestIsOrdered(rooms, writer);
    RunKeeps(Start(rooms, writer), steps);
    var t := Run(Start(rooms, writer), steps);
    assert t.client.Gone? ==> Flow(t.chain) == t.chain.got + [];
  }

  // ---- Progress

  function Measure(s: System): nat {
    Work(s.chain, 0) + Rounds(s.chain)
  }

  ghost predicate Waiting(s: System) {
    s.client.InFlush? || s.client.InDrop?
  }

  /** While the client waits in flush or in the destructor, the copiers can make at most Measure(s)
      moves, in whatever order; and when none of them can move, the wait is over. */
  lemma {:induction false} WaitEnds(s: System, steps: seq<Step>)
    requires Inv(s) && Waiting(s) && AllReady(s, steps)
    requires forall t | t in steps :: t.Inside?
    ensures var t := Run(s, steps);
            && Inv(t) && t.client == s.client
            && |steps| + Measure(t) <= Measure(s)
            && (t.chain.copier.Exited? || CanProceed(t.chain))
    decreases |steps|
  {
    if steps == [] {
      if !s.chain.copier.Exited? {
        SomethingCanProceed(s.chain);
      }
    } else {
      NextKeeps(s, steps[0]);
      FireKeeps(s.chain, steps[0].a, 0);
      WaitEnds(Next(s, steps[0]), steps[1..]);
    }
  }

  /** So any wait can be brought to its end by moves of the copiers alone, whichever can move. */
  lemma {:induction false} WaitCanEnd(s: System) returns (steps: seq<Step>)
    requires Inv(s) && Waiting(s)
    ensures AllReady(s, steps) && |steps| <= Measure(s) && forall t | t in steps :: t.Inside?
    ensures var t := Run(s, steps);
            t.client == s.client && t.accepted == s.accepted && t.chain.Pipe? && t.chain.copier.Exited?
    decreases Measure(s)
  {
    if s.chain.copier.Exited? {
      steps := [];
    } else {
      var a := SomethingMoves(s.chain);
      NextKeeps(s, Inside(a));
      FireKeeps(s.chain, a, 0);
      var more := WaitCanEnd(Next(s, Inside(a)));
      steps := [Inside(a)] + more;
      assert steps[1..] == more;
    }
  }

  function Depth(c: Chain): nat {
    |Layout(c)|
  }

  /** A quiet chain has no bytes to move, and a round to go through at each level. */
  lemma {:induction false} QuietMeasure(c: Chain)
    requires Quiet(c)
    ensures Work(c, 0) == 0 && Rounds(c) == 2 * Depth(c)
  {
    if c.Sink? {
    } else {
      QuietMeasure(c.next);
    }
  }

  /** The steps it takes to drop a chain of depth d whose copier has returned: a join each, and the
      rounds of the handles behind it. */
  function Joins(d: nat): nat {
    if d == 0 then 0 else 1 + 2 * (d - 1) + Joins(d - 1)
  }

  function DropMeasure(s: System): nat {
    Measure(s) + Joins(Depth(s.chain))
  }

  lemma DropStepShrinks(s: System, t: Step)
    requires Inv(s) && s.client.InDrop? && Ready(s, t)
    ensures var u := Next(s, t);
            Inv(u) && (u.client.InDrop? || u.client.Gone?) && DropMeasure(u) < DropMeasure(s)
  {
    NextKeeps(s, t);
    if t.Inside? {
      FireKeeps(s.chain, t.a, 0);
      FireKeepsLayout(s.chain, t.a);
    } else {
      var c := s.chain.next;
      QuietMeasure(c);
      assert Depth(Close(c)) == Depth(c);
      assert Work(Close(c), 0) == Work(c, 0) && Rounds(Close(c)) == Rounds(c);
    }
  }

  /** The destructor ends: once it has begun, at most DropMeasure(s) steps of any kind can follow, in
      whatever order, and as long as anything is left of the chain another step can be taken. */
  lemma {:induction false} DropEnds(s: System, steps: seq<Step>)
    requires Inv(s) && (s.client.InDrop? || s.client.Gone?) && AllReady(s, steps)
    ensures var t := Run(s, steps);
            && Inv(t) && |steps| + DropMeasure(t) <= DropMeasure(s)
            && (t.client.Gone? || (t.client.InDrop? && (Ready(t, DropEnd) || CanProceed(t.chain))))
    decreases |steps|
  {
    if steps == [] {
      if s.client.InDrop? && !s.chain.copier.Exited? {
        SomethingCanProceed(s.chain);
      }
    } else {
      DropStepShrinks(s, steps[0]);
      DropEnds(Next(s, steps[0]), steps[1..]);
    }
  }

  /** And there is a schedule that takes it through to the end. */
  lemma {:induction false} DropCanEnd(s: System) returns (steps: seq<Step>)
    requires Inv(s) && (s.client.InDrop? || s.client.Gone?)
    ensures AllReady(s, steps) && |steps| <= DropMeasure(s) && Run(s, steps).client.Gone?
    decreases DropMeasure(s)
  {
    if s.client.Gone? {
      steps := [];
    } else {
      var t := DropEnd;
      if !s.chain.copier.Exited? {
        var a := SomethingMoves(s.chain);
        t := Inside(a);
      }
      DropStepShrinks(s, t);
      var more := DropCanEnd(Next(s, t));
      steps := [t] + more;
      assert steps[1..] == more;
    }
  }

  /** A client whose write finds the pipe full is not stuck: some copier can move, and no more than
      Measure(s) moves can be made before there is room. */
  lemma {:induction false} RoomAppears(s: System, steps: seq<Step>)
    requires Inv(s) && s.client.Idle? && AllReady(s, steps)
    requires forall t | t in steps :: t.Inside?
    ensures var t := Run(s, steps);
            && |steps| + Measure(t) <= Measure(s)
            && (Ready(t, Write([0])) || CanProceed(t.chain))
    decreases |steps|
  {
    if steps == [] {
      if s.chain.fifo != [] {
        SomethingCanProceed(s.chain);
      }
    } else {
      NextKeeps(s, steps[0]);
      FireKeeps(s.chain, steps[0].a, 0);
      RoomAppears(Next(s, steps[0]), steps[1..]);
    }
  }
}
