/**
 Whole lives of a buffered stream: any sequence of operations in any order, cut short by a panic or
 by handing out the inner stream, and then the destructor.
 */
module Runs {
  import opened Streams
  import opened Lines
  import Duplex
  import opened Writing
  import opened LineBuffering
  import opened Reading

  type State = Duplex.State

  /** The two public wrappers differ in how they write. */
  datatype Mode = Block | LineBuffered(canVector: bool)

  /** Read stands for scalar and vectored reads with room for n bytes. */
  datatype Op =
    | Write(data: seq<byte>)
    | WriteAll(data: seq<byte>)
    | WriteVectored(bufs: seq<seq<byte>>)
    | Flush
    | IntoInner
    | Read(n: nat)
    | ReadUntil(delim: byte)
    | FillBuf
    | Consume(n: nat)
  {
    /** The bytes the caller offers. */
    function Data(): seq<byte> {
      match this
      case Write(data) => data
      case WriteAll(data) => data
      case WriteVectored(bufs) => Concat(bufs)
      case _ => []
    }
  }

  datatype Effect = Effect(s: State, r: Outcome<nat>, got: seq<byte>)

  function Finished<T>(f: Duplex.Step<T>): Effect {
    Effect(f.s, if f.r.Ok? then Ok(0) else if f.r.Err? then Err(f.r.error) else Panic, [])
  }

  function Apply(mode: Mode, s: State, op: Op): Effect {
    match op
    case Write(data) =>
      var f := if mode.Block? then Duplex.Write(s, data) else Duplex.LineWrite(s, data);
      Effect(f.s, f.r, [])
    case WriteVectored(bufs) =>
      var f := if mode.Block? then Duplex.Write(s, Concat(bufs)) else Duplex.LineWriteVectored(s, mode.canVector, bufs);
      Effect(f.s, f.r, [])
    case WriteAll(data) => Finished(if mode.Block? then Duplex.WriteAll(s, data) else Duplex.LineWriteAll(s, data))
    case Flush => Finished(Duplex.Flush(s))
    case IntoInner => Finished(Duplex.IntoInner(s))
    case Read(n) =>
      var f := Duplex.FlushThenRead(s, n);
      Finished(f).(got := Got(f.r))
    case ReadUntil(delim) =>
      var g := Duplex.FlushThenReadUntil(s, delim);
      Finished(Duplex.Step(g.s, g.r)).(got := g.got)
    case FillBuf => Finished(Duplex.FillBuf(s))
    case Consume(n) => Effect(Duplex.Consume(s, n), Ok(0), s.pending[..Min(n, |s.pending|)])
  }

  /** What the caller may take as accepted: the first n bytes after Ok(n), nothing after a failed
      write, everything after a successful write_all, and after a failed one as many bytes as the
      stream and the buffer have gained. */
  function Accepted(s: State, op: Op, e: Effect): seq<byte> {
    var data := op.Data();
    match e.r
    case Ok(n) => if op.WriteAll? then data else data[..Min(n, |data|)]
    case Err(_) =>
      var grown := |e.s.Written()| - |s.Written()|;
      if op.WriteAll? && 0 <= grown <= |data| then data[..grown] else []
    case Panic => []
  }

  /** What holds between two operations. */
  ghost predicate Inv(mode: Mode, s: State) {
    && !s.panicked && |s.buf| <= s.cap && |s.pending| <= s.rcap
    && (!s.live ==> s.buf == [])
    && (mode.LineBuffered? ==> Shape(s.buf))
  }

  // ---- One operation

  /** No operation loses, duplicates or reorders a byte in either direction. */
  ghost predicate Conserves(mode: Mode, s: State, op: Op, e: Effect) {
    && Inv(mode, e.s)
    && e.s.cap == s.cap && e.s.rcap == s.rcap
    && e.s.Written() == s.Written() + Accepted(s, op, e)
    && e.got + e.s.Input() == s.Input()
    && e.s.wire.vectored == s.wire.vectored
    && (forall x | x in e.s.wire.onWrite :: x in s.wire.onWrite)
  }

  /** After a panic the destructor may only send what nobody has sent yet; and unless it was a bare
      fill_buf that panicked, it makes no call at all. */
  ghost predicate SafeToDrop(s: State, op: Op, e: Effect) {
    var d := Duplex.Drop(e.s);
    && s.wire.sunk <= d.wire.sunk <= s.Written() + op.Data()
    && (!op.FillBuf? ==> d.wire == e.s.wire)
  }

  lemma WriteStep(mode: Mode, s: State, op: Op, f: Duplex.Step<nat>)
    requires Inv(mode, s) && s.live && (op.Write? || op.WriteVectored?)
    requires Accepts(s, op.Data(), f, if f.r.Ok? then f.r.value else 0)
    requires mode.LineBuffered? ==> Shape(f.s.buf)
    ensures var e := Effect(f.s, f.r, []);
            if e.r.Panic? then SafeToDrop(s, op, e) else Conserves(mode, s, op, e)
  {
  }

  lemma WriteAllStep(mode: Mode, s: State, op: Op, f: Duplex.Step<()>, k: nat)
    requires Inv(mode, s) && s.live && op.WriteAll?
    requires Accepts(s, op.data, f, k) && (f.r.Ok? ==> k == |op.data|)
    requires mode.LineBuffered? ==> Shape(f.s.buf)
    ensures var e := Finished(f);
            if e.r.Panic? then SafeToDrop(s, op, e) else Conserves(mode, s, op, e)
  {
  }

  lemma IdleStep(mode: Mode, s: State, op: Op, f: Duplex.Step<()>)
    requires Inv(mode, s) && s.live && op.Data() == [] && !op.WriteAll?
    requires Accepts(s, [], f, 0)
    requires mode.LineBuffered? ==> Shape(f.s.buf)
    ensures var e := Finished(f);
            if e.r.Panic? then SafeToDrop(s, op, e) else Conserves(mode, s, op, e)
  {
  }

  lemma FlushStep(mode: Mode, s: State, op: Op)
    requires Inv(mode, s) && s.live && op.Data() == [] && !op.WriteAll?
    ensures var e := Finished(Duplex.Flush(s));
            if e.r.Panic? then SafeToDrop(s, op, e) else Conserves(mode, s, op, e)
    ensures Duplex.Flush(s).r.Ok? ==> Duplex.Flush(s).s.buf == [] && Duplex.Flush(s).s.wire.sunk == s.Written()
    ensures Duplex.Flush(s).s.pending == s.pending && Duplex.Flush(s).s.rcap == s.rcap && Duplex.Flush(s).s.live
  {
    FlushAccepts(s);
    FlushBufDrains(s);
    if mode.LineBuffered? {
      FlushBufShape(s);
    }
    IdleStep(mode, s, op, Duplex.Flush(s));
  }

  lemma IntoInnerStep(mode: Mode, s: State)
    requires Inv(mode, s) && s.live
    ensures var e := Finished(Duplex.IntoInner(s));
            if e.r.Panic? then SafeToDrop(s, IntoInner, e) else Conserves(mode, s, IntoInner, e)
  {
    FlushBufDrains(s);
    if mode.LineBuffered? {
      FlushBufShape(s);
    }
    IdleStep(mode, s, IntoInner, Duplex.FlushBuf(s));
  }

  /** A read from a stream whose writer side is done with, after a flush that succeeded. */
  lemma AfterFlush(mode: Mode, s: State, op: Op, t: State, e: Effect)
    requires Inv(mode, s) && s.live && op.Data() == [] && !op.WriteAll?
    requires Conserves(mode, s, op, Finished(Duplex.Step(t, Ok(())))) && t.live && t.buf == [] && t.pending == s.pending
    requires t.wire.sunk == s.Written()
    requires ReaderStep(t, e.s) && (!e.r.Panic? ==> Delivers(t, e.got, e.s))
    ensures if e.r.Panic? then SafeToDrop(s, op, e) else Conserves(mode, s, op, e)
  {
  }

  lemma ReadStep(mode: Mode, s: State, n: nat)
    requires Inv(mode, s) && s.live
    ensures var e := Apply(mode, s, Read(n));
            if e.r.Panic? then SafeToDrop(s, Read(n), e) else Conserves(mode, s, Read(n), e)
  {
    FlushStep(mode, s, Read(n));
    var f, e := Duplex.Flush(s), Apply(mode, s, Read(n));
    if f.r.Ok? {
      ReadDelivers(f.s, n);
      AfterFlush(mode, s, Read(n), f.s, e);
    } else {
      assert e == Finished(f);
    }
  }

  lemma ReadUntilStep(mode: Mode, s: State, delim: byte)
    requires Inv(mode, s) && s.live
    ensures var e := Apply(mode, s, ReadUntil(delim));
            if e.r.Panic? then SafeToDrop(s, ReadUntil(delim), e) else Conserves(mode, s, ReadUntil(delim), e)
  {
    var op := ReadUntil(delim);
    FlushStep(mode, s, op);
    var f, e := Duplex.Flush(s), Apply(mode, s, op);
    if f.r.Ok? {
      ReadUntilDelivers(f.s, delim);
      AfterFlush(mode, s, op, f.s, e);
    } else {
      assert e == Finished(f);
    }
  }

  lemma FillBufStep(mode: Mode, s: State)
    requires Inv(mode, s) && s.live
    ensures var e := Apply(mode, s, FillBuf);
            if e.r.Panic? then SafeToDrop(s, FillBuf, e) else Conserves(mode, s, FillBuf, e)
  {
    FillBufDelivers(s);
    FlushBufDrains(Duplex.FillBuf(s).s);
  }

  lemma ApplyIsSafe(mode: Mode, s: State, op: Op)
    requires Inv(mode, s) && s.live
    ensures var e := Apply(mode, s, op);
            if e.r.Panic? then SafeToDrop(s, op, e) else Conserves(mode, s, op, e)
  {
    match op {
      case Write(data) =>
        if mode.Block? {
          WriteAccepts(s, data);
          WriteStep(mode, s, op, Duplex.Write(s, data));
        } else {
          LineWriteAccepts(s, data);
          LineWriteShape(s, data);
          WriteStep(mode, s, op, Duplex.LineWrite(s, data));
        }
      case WriteVectored(bufs) =>
        if mode.Block? {
          WriteAccepts(s, Concat(bufs));
          WriteStep(mode, s, op, Duplex.Write(s, Concat(bufs)));
        } else {
          LineWriteVectoredAccepts(s, mode.canVector, bufs);
          LineWriteVectoredShape(s, mode.canVector, bufs);
          WriteStep(mode, s, op, Duplex.LineWriteVectored(s, mode.canVector, bufs));
        }
      case WriteAll(data) =>
        if mode.Block? {
          var k := WriteAllAccepts(s, data);
          WriteAllStep(mode, s, op, Duplex.WriteAll(s, data), k);
        } else {
          var k := LineWriteAllAccepts(s, data);
          LineWriteAllShape(s, data);
          WriteAllStep(mode, s, op, Duplex.LineWriteAll(s, data), k);
        }
      case Flush => FlushStep(mode, s, op);
      case IntoInner => IntoInnerStep(mode, s);
      case Read(n) => ReadStep(mode, s, n);
      case ReadUntil(delim) => ReadUntilStep(mode, s, delim);
      case FillBuf => FillBufStep(mode, s);
      case Consume(n) => ConsumeDelivers(s, n);
    }
  }

  // ---- Runs

  /** What a run adds up to. If it unwound, then last is the operation that panicked. */
  datatype Tally = Tally(s: State, accepted: seq<byte>, got: seq<byte>, unwound: bool, last: Op)

  /** A run ends with its operations, with a panic, or with the inner stream handed out. */
  function Run(mode: Mode, s: State, ops: seq<Op>): Tally
    decreases |ops|
  {
    if ops == [] || !s.live then Tally(s, [], [], false, Flush)
    else
      var e := Apply(mode, s, ops[0]);
      if e.r.Panic? then Tally(e.s, [], e.got, true, ops[0])
      else
        var t := Run(mode, e.s, ops[1..]);
        t.(accepted := Accepted(s, ops[0], e) + t.accepted, got := e.got + t.got)
  }

  /** What a run that did not unwind keeps. */
  ghost predicate Kept(mode: Mode, s: State, t: Tally) {
    && Inv(mode, t.s) && t.s.cap == s.cap && t.s.rcap == s.rcap
    && t.s.Written() == s.Written() + t.accepted
    && t.got + t.s.Input() == s.Input()
    && t.s.wire.vectored == s.wire.vectored
    && (forall x | x in t.s.wire.onWrite :: x in s.wire.onWrite)
  }

  lemma KeptOnwards(mode: Mode, s: State, op: Op, e: Effect, t: Tally)
    requires Conserves(mode, s, op, e) && Kept(mode, e.s, t)
    ensures Kept(mode, s, t.(accepted := Accepted(s, op, e) + t.accepted, got := e.got + t.got))
  {
  }

  /** Over every run against every stream: the invariants hold, the stream and the buffer together
      hold exactly what was accepted, and what was delivered with what is still to come is the
      input. */
  lemma {:induction false} RunConserves(mode: Mode, s: State, ops: seq<Op>)
    requires Inv(mode, s)
    ensures !Run(mode, s, ops).unwound ==> Kept(mode, s, Run(mode, s, ops))
    decreases |ops|
  {
    if ops == [] || !s.live {
    } else {
      ApplyIsSafe(mode, s, ops[0]);
      var e := Apply(mode, s, ops[0]);
      if !e.r.Panic? {
        var t := Run(mode, e.s, ops[1..]);
        RunConserves(mode, e.s, ops[1..]);
        if !t.unwound {
          KeptOnwards(mode, s, ops[0], e, t);
        }
      }
    }
  }

  /** Nothing reaches the stream, destructor included, beyond what was there, what was accepted and
      what a panicking operation was given; and a destructor after a panic makes no call, unless it
      was a bare fill_buf that panicked. */
  ghost predicate EndsSafely(s: State, t: Tally) {
    var d := Duplex.Drop(t.s);
    && d.wire.sunk <= s.Written() + t.accepted + (if t.unwound then t.last.Data() else [])
    && (t.unwound && !t.last.FillBuf? ==> d.wire == t.s.wire)
  }

  lemma EndsSafelyOnwards(mode: Mode, s: State, op: Op, e: Effect, t: Tally)
    requires Conserves(mode, s, op, e) && EndsSafely(e.s, t)
    ensures EndsSafely(s, t.(accepted := Accepted(s, op, e) + t.accepted, got := e.got + t.got))
  {
  }

  lemma EndsSafelyHere(mode: Mode, s: State)
    requires Inv(mode, s)
    ensures EndsSafely(s, Tally(s, [], [], false, Flush))
  {
    assert s.Written() + [] + [] == s.Written();
    if s.live {
      FlushBufDrains(s);
    }
  }

  lemma EndsSafelyUnwound(s: State, op: Op, e: Effect)
    requires SafeToDrop(s, op, e)
    ensures EndsSafely(s, Tally(e.s, [], e.got, true, op))
  {
  }

  /** However a run ends, once the destructor has run no byte has been sent twice or out of order. */
  lemma {:induction false} NothingIsSentTwice(mode: Mode, s: State, ops: seq<Op>)
    requires Inv(mode, s)
    ensures EndsSafely(s, Run(mode, s, ops))
    decreases |ops|
  {
    if ops == [] || !s.live {
      EndsSafelyHere(mode, s);
    } else {
      ApplyIsSafe(mode, s, ops[0]);
      var e := Apply(mode, s, ops[0]);
      if e.r.Panic? {
        EndsSafelyUnwound(s, ops[0], e);
      } else {
        NothingIsSentTwice(mode, e.s, ops[1..]);
        EndsSafelyOnwards(mode, s, ops[0], e, Run(mode, e.s, ops[1..]));
      }
    }
  }

  /** A run that ended with its operations and whose destructor could flush has delivered all of it. */
  lemma CleanEndDeliversAll(mode: Mode, s: State, ops: seq<Op>)
    requires Inv(mode, s) && !Run(mode, s, ops).unwound
    ensures var t := Run(mode, s, ops);
            Duplex.FlushBuf(t.s).r.Ok? ==> Duplex.Drop(t.s).wire.sunk == s.Written() + t.accepted
  {
    RunConserves(mode, s, ops);
    var t := Run(mode, s, ops);
    if t.s.live {
      FlushBufDrains(t.s);
    }
  }

  /** However many into_inner calls failed on the way and whatever was done in between, the one that
      succeeds hands out a stream that holds every accepted byte exactly once, and the destructor
      sends nothing more. */
  lemma IntoInnerHandsOverAll(mode: Mode, s: State, ops: seq<Op>)
    requires Inv(mode, s) && s.live
    ensures var t := Run(mode, s, ops);
            !t.unwound && !t.s.live ==>
              t.s.wire.sunk == s.Written() + t.accepted && Duplex.Drop(t.s) == t.s
  {
    RunConserves(mode, s, ops);
    var t := Run(mode, s, ops);
    if !t.unwound && !t.s.live {
      assert t.s.Written() == t.s.wire.sunk;
    }
  }

  /** When a successful write is sure to leave no complete line behind: write_all always; the vectored
      write when it does not fall back; a scalar write, or a vectored one that falls back with
      something to write, against a stream that takes a slice whole or fails. */
  ghost predicate Completing(canVector: bool, w: Wire, op: Op) {
    || op.WriteAll?
    || (op.WriteVectored? && (!canVector || w.vectored))
    || ((op.Write? || (op.WriteVectored? && op.Data() != [])) && w.WholeOrFail())
  }

  lemma CompletingLeavesNoLine(canVector: bool, s: State, op: Op)
    requires Good(s) && Shape(s.buf) && Completing(canVector, s.wire, op)
    ensures var e := Apply(LineBuffered(canVector), s, op);
            e.r.Ok? ==> NoNewline(e.s.buf)
  {
    match op {
      case Write(data) => LineWriteCompletes(s, data);
      case WriteAll(data) => LineWriteAllShape(s, data);
      case WriteVectored(bufs) =>
        if !canVector || s.wire.vectored {
          VectoredCompletes(s, canVector, bufs);
        } else {
          LineWriteCompletes(s, Duplex.FirstNonEmpty(bufs));
        }
    }
  }

  /** After every such write at the end of any run, the stream holds everything accepted up to the last
      newline. */
  lemma CompleteLinesGetThrough(canVector: bool, s: State, ops: seq<Op>, op: Op)
    requires Inv(LineBuffered(canVector), s) && Completing(canVector, s.wire, op)
    ensures var mode := LineBuffered(canVector);
            var t := Run(mode, s, ops);
            var e := Apply(mode, t.s, op);
            !t.unwound && t.s.live && e.r.Ok? ==>
              && NoNewline(e.s.buf)
              && var all := s.Written() + t.accepted + Accepted(t.s, op, e);
                 all[..LinesLen(all)] <= e.s.wire.sunk
  {
    var mode := LineBuffered(canVector);
    RunConserves(mode, s, ops);
    var t := Run(mode, s, ops);
    if !t.unwound && t.s.live {
      ApplyIsSafe(mode, t.s, op);
      CompletingLeavesNoLine(canVector, t.s, op);
      var e := Apply(mode, t.s, op);
      if e.r.Ok? {
        CompleteLinesSent(e.s);
      }
    }
  }

  /** The exception to it does occur: a write_all that fails leaves a completed line in the buffer, and
      a vectored write of one empty slice then succeeds and leaves it there. */
  lemma EmptyVectoredWriteSkipsALine()
    ensures var s := OneFailure();
            var ops := [Write([65]), WriteAll([66, NEWLINE])];
            && Inv(LineBuffered(true), s) && s.wire.WholeOrFail()
            && var t := Run(LineBuffered(true), s, ops);
               var e := Apply(LineBuffered(true), t.s, WriteVectored([[]]));
               !t.unwound && t.s.live && e.r == Ok(0) && e.s.buf == [65, 66, NEWLINE]
  {
    var mode, s := LineBuffered(true), OneFailure();
    var first, second := Write([65]), WriteAll([66, NEWLINE]);
    var e := Apply(mode, s, first);
    assert e == Effect(s.(buf := [65]), Ok(1), []) by {
      assert LastNewline([65], 1) == LastNewline([65], 0) == 0;
    }
    FailedWriteAll();
    var g := Apply(mode, e.s, second);
    assert [first, second][1..] == [second] && [second][1..] == [];
    assert Run(mode, g.s, []).s == g.s;
    assert Run(mode, e.s, [second]).s == g.s;
    assert Duplex.FirstNonEmpty([[]]) == [];
  }

  lemma FailedWriteAll()
    ensures var e := Apply(LineBuffered(true), OneFailure().(buf := [65]), WriteAll([66, NEWLINE]));
            e.r == Err(Other(0)) && e.s.live && e.s.buf == [65, 66, NEWLINE] && !e.s.wire.vectored
  {
    var s, lines: seq<byte> := OneFailure().(buf := [65]), [66, NEWLINE];
    assert lines[..2] == lines && lines[2..] == [];
    assert s.buf + lines == [65, 66, NEWLINE];
    var f := Duplex.LinesAll(s, lines);
    assert f.r == Err(Other(0)) && f.s.buf == [65, 66, NEWLINE];
  }

  /** A line writer with room for eight bytes on a stream that fails once. */
  function OneFailure(): State {
    Duplex.State(Wire([], [], [Fail(Other(0))], [], [], false, []), true, [], 8, false, [], 8)
  }

  // ---- Reads come after flushes, over whole runs

  ghost predicate Reads(op: Op) {
    op.Read? || op.ReadUntil?
  }

  ghost predicate HasRead(before: seq<Event>, after: seq<Event>) {
    exists i | |before| <= i < |after| :: after[i].ReadCall?
  }

  /** Every operation but a bare fill_buf reads the inner stream only behind a flush of its own, and
      with everything accepted sent. */
  lemma ApplyFollowsFlush(mode: Mode, s: State, op: Op)
    requires Inv(mode, s) && s.live && !op.FillBuf?
    ensures var e := Apply(mode, s, op);
            && ReadsFollowFlush(s.wire.log, e.s.wire.log)
            && (HasRead(s.wire.log, e.s.wire.log) ==> e.s.buf == [] && e.s.wire.sunk == s.Written())
  {
    match op {
      case Read(n) => ReadsComeAfterFlush(s, n);
      case ReadUntil(delim) => ReadUntilsComeAfterFlush(s, delim);
      case _ => WritesDoNotRead(mode, s, op);
    }
  }

  lemma WritesDoNotRead(mode: Mode, s: State, op: Op)
    requires Inv(mode, s) && s.live && !Reads(op) && !op.FillBuf?
    ensures var log := Apply(mode, s, op).s.wire.log;
            s.wire.log <= log && forall i | |s.wire.log| <= i < |log| :: !log[i].ReadCall?
  {
    match op {
      case Write(data) =>
        WriteAccepts(s, data);
        LineWriteAccepts(s, data);
      case WriteVectored(bufs) =>
        WriteAccepts(s, Concat(bufs));
        if mode.LineBuffered? {
          LineWriteVectoredAccepts(s, mode.canVector, bufs);
        }
      case WriteAll(data) =>
        var _ := WriteAllAccepts(s, data);
        var _ := LineWriteAllAccepts(s, data);
      case Flush => FlushAccepts(s);
      case IntoInner => FlushBufDrains(s);
      case Consume(_) =>
    }
  }

  /** After any run at all, and whatever the stream did before it was wrapped: each read of the inner
      stream that read, read_vectored, read_until or read_line makes comes after a successful flush
      that the same call made, with no write in between, and by then the stream has been sent
      everything accepted since the start of the run. */
  lemma PublicReadsFollowFlush(mode: Mode, s: State, ops: seq<Op>, op: Op)
    requires Inv(mode, s) && Reads(op)
    ensures var t := Run(mode, s, ops);
            var e := Apply(mode, t.s, op);
            !t.unwound && t.s.live ==>
              && ReadsFollowFlush(t.s.wire.log, e.s.wire.log)
              && (HasRead(t.s.wire.log, e.s.wire.log) ==>
                    e.s.buf == [] && e.s.wire.sunk == s.Written() + t.accepted)
  {
    RunConserves(mode, s, ops);
    var t := Run(mode, s, ops);
    if !t.unwound && t.s.live {
      ApplyFollowsFlush(mode, t.s, op);
    }
  }

  /** The places in the log of the reads made since it was before. */
  function ReadsMade(before: seq<Event>, after: seq<Event>): set<nat> {
    set i: nat | |before| <= i < |after| && after[i].ReadCall?
  }

  /** Those of the reads that the bare fill_bufs of a run made. */
  function BareReads(mode: Mode, s: State, ops: seq<Op>): set<nat>
    decreases |ops|
  {
    if ops == [] || !s.live then {}
    else
      var e := Apply(mode, s, ops[0]);
      (if ops[0].FillBuf? then ReadsMade(s.wire.log, e.s.wire.log) else {}) +
      (if e.r.Panic? then {} else BareReads(mode, e.s, ops[1..]))
  }

  ghost predicate OtherReadsFollowFlush(before: seq<Event>, after: seq<Event>, bare: set<nat>) {
    && before <= after
    && forall i | |before| <= i < |after| && after[i].ReadCall? && i !in bare :: FollowsFlush(after, |before|, i)
  }

  lemma OthersOnwards(a: seq<Event>, b: seq<Event>, c: seq<Event>, here: set<nat>, later: set<nat>)
    requires OtherReadsFollowFlush(a, b, here) && OtherReadsFollowFlush(b, c, later)
    ensures OtherReadsFollowFlush(a, c, here + later)
  {
    forall i | |a| <= i < |c| && c[i].ReadCall? && i !in here + later
      ensures FollowsFlush(c, |a|, i)
    {
      if i < |b| {
        FollowsFlushStays(b, |a|, c, |a|, i);
      } else {
        FollowsFlushStays(c, |b|, c, |a|, i);
      }
    }
  }

  /** Seen over the whole log of any run, also one that unwinds: a read of the inner stream was made by
      a bare fill_buf, or it comes after a successful flush in the run with no write in between. */
  lemma {:induction false} RunReadsFollowFlush(mode: Mode, s: State, ops: seq<Op>)
    requires Inv(mode, s)
    ensures OtherReadsFollowFlush(s.wire.log, Run(mode, s, ops).s.wire.log, BareReads(mode, s, ops))
    decreases |ops|
  {
    if ops == [] || !s.live {
    } else {
      var op, e := ops[0], Apply(mode, s, ops[0]);
      var here := if op.FillBuf? then ReadsMade(s.wire.log, e.s.wire.log) else {};
      if op.FillBuf? {
        FillBufDelivers(s);
      } else {
        ApplyFollowsFlush(mode, s, op);
      }
      assert OtherReadsFollowFlush(s.wire.log, e.s.wire.log, here);
      if e.r.Panic? {
        assert here + {} == here;
      } else {
        ApplyIsSafe(mode, s, op);
        RunReadsFollowFlush(mode, e.s, ops[1..]);
        var end := Run(mode, e.s, ops[1..]).s.wire.log;
        OthersOnwards(s.wire.log, e.s.wire.log, end, here, BareReads(mode, e.s, ops[1..]));
      }
    }
  }
}
