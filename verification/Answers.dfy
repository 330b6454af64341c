/**
 What a caller is told, and what becomes of the bytes: for each operation which outcome it has, how
 much it takes or returns, and where the bytes are afterwards, against every stream.
 */
module Answers {
  import opened Streams
  import opened Lines
  import opened Duplex
  import opened Writing
  import opened LineBuffering
  import opened Reading

  // ---- Operations that retry

  /** A reply that ends a retry loop: nothing taken, a failure other than an interruption, a panic. */
  ghost predicate Blocks(x: Reply) {
    x == Take(0) || x.Unwind? || (x.Fail? && x.error != Interrupted)
  }

  function Cause(x: Reply): Outcome<()> {
    match x
    case Fail(e) => Err(e)
    case Unwind(_) => Panic
    case _ => Err(WriteZero)
  }

  /** From w to w' some replies have been used. None of them ended the loop, if it succeeded; if it
      failed, the last one did, it is the cause of the failure, and none before it was. */
  ghost predicate Retried(w: Wire, w': Wire, r: Outcome<()>) {
    var used := |w.onWrite| - |w'.onWrite|;
    && 0 <= used && w'.onWrite == w.onWrite[used..]
    && (forall i | 0 <= i < (if r.Ok? then used else used - 1) :: !Blocks(w.onWrite[i]))
    && (!r.Ok? ==> used > 0 && Blocks(w.onWrite[used - 1]) && r == Cause(w.onWrite[used - 1]))
  }

  lemma RetriedOn(a: Wire, b: Wire, c: Wire, r: Outcome<()>)
    requires Retried(a, b, Ok(())) && Retried(b, c, r)
    ensures Retried(a, c, r)
  {
    var m, n := |a.onWrite| - |b.onWrite|, |b.onWrite| - |c.onWrite|;
    assert a.onWrite[m..][n..] == a.onWrite[m + n..];
    forall i | 0 <= i < (if r.Ok? then m + n else m + n - 1) ensures !Blocks(a.onWrite[i]) {
      if i >= m {
        assert a.onWrite[i] == b.onWrite[i - m];
      }
    }
    if !r.Ok? {
      assert a.onWrite[m + n - 1] == b.onWrite[n - 1];
    }
  }

  lemma OneReply(w: Wire, data: seq<byte>)
    requires data != []
    ensures var (w', o) := w.Write(data);
            && (!Blocks(Head(w.onWrite)) ==> Retried(w, w', Ok(())))
            && (Blocks(Head(w.onWrite)) ==> Retried(w, w', Cause(Head(w.onWrite))))
            && (Blocks(Head(w.onWrite)) <==> !(o.Ok? && o.value > 0) && o != Err(Interrupted))
            && (o == Ok(0) ==> Cause(Head(w.onWrite)) == Err(WriteZero))
            && (!o.Ok? && Blocks(Head(w.onWrite)) ==> o.Without() == Cause(Head(w.onWrite)))
  {
    assert w.onWrite[0..] == w.onWrite;
  }

  lemma {:induction false} SendAllRetries(w: Wire, data: seq<byte>)
    ensures Retried(w, w.SendAll(data).wire, w.SendAll(data).r)
    decreases |data|, |w.onWrite|
  {
    if data == [] {
    } else {
      var (w', o) := w.Write(data);
      OneReply(w, data);
      SendAllUnfolds(w, data, 0);
      if o.Ok? && o.value > 0 {
        SendAllRetries(w', data[o.value..]);
        RetriedOn(w, w', w'.SendAll(data[o.value..]).wire, w.SendAll(data).r);
      } else if o == Err(Interrupted) {
        SendAllRetries(w', data);
        RetriedOn(w, w', w'.SendAll(data).wire, w.SendAll(data).r);
      }
    }
  }

  /** A flush of the buffer gives up only when it must, and says why. */
  lemma FlushBufRetries(s: State)
    ensures Retried(s.wire, FlushBuf(s).s.wire, FlushBuf(s).r)
  {
    SendAllRetries(s.wire, s.buf);
  }

  lemma WriteAllRetries(s: State, data: seq<byte>)
    ensures Retried(s.wire, WriteAll(s, data).s.wire, WriteAll(s, data).r)
  {
    FlushBufRetries(s);
    var f := MakeRoom(s, |data|);
    assert Retried(s.wire, f.s.wire, f.r);
    if f.r.Ok? {
      SendAllRetries(f.s.wire, data);
      RetriedOn(s.wire, f.s.wire, WriteAll(s, data).s.wire, WriteAll(s, data).r);
    }
  }

  lemma LinesAllRetries(s: State, lines: seq<byte>)
    ensures Retried(s.wire, LinesAll(s, lines).s.wire, LinesAll(s, lines).r)
  {
    if s.buf == [] {
      SendAllRetries(s.wire, lines);
    } else {
      var f := WriteAll(s, lines);
      WriteAllRetries(s, lines);
      if f.r.Ok? {
        var g := FlushBuf(f.s);
        FlushBufRetries(f.s);
        RetriedOn(s.wire, f.s.wire, g.s.wire, g.r);
        assert LinesAll(s, lines) == g;
      } else {
        assert LinesAll(s, lines) == f;
      }
    }
  }

  lemma LineWriteAllRetries(s: State, data: seq<byte>)
    ensures Retried(s.wire, LineWriteAll(s, data).s.wire, LineWriteAll(s, data).r)
  {
    var n := LinesLen(data);
    FlushBufRetries(s);
    LinesAllRetries(s, data[..n]);
    if n == 0 {
      if FlushIfCompletedLine(s).r.Ok? {
        ThenWriteAllRetries(s, FlushIfCompletedLine(s), data);
      }
    } else {
      if LinesAll(s, data[..n]).r.Ok? {
        ThenWriteAllRetries(s, LinesAll(s, data[..n]), data[n..]);
      }
    }
  }

  lemma ThenWriteAllRetries(s: State, f: Step<()>, data: seq<byte>)
    requires Retried(s.wire, f.s.wire, f.r) && f.r.Ok?
    ensures Retried(s.wire, WriteAll(f.s, data).s.wire, WriteAll(f.s, data).r)
  {
    var g := WriteAll(f.s, data);
    WriteAllRetries(f.s, data);
    RetriedOn(s.wire, f.s.wire, g.s.wire, g.r);
  }

  /** A stream that at worst is slow: short writes of at least a byte, and interruptions. */
  ghost predicate Patient(w: Wire) {
    forall x | x in w.onWrite :: !Blocks(x)
  }

  ghost predicate Persists(w: Wire, r: Outcome<()>) {
    r != Err(Interrupted) && (Patient(w) ==> r.Ok?)
  }

  /** Against a patient stream everything that retries succeeds; against any stream none of it reports
      an interruption. */
  lemma RetryingSucceeds(s: State, data: seq<byte>)
    ensures Persists(s.wire, FlushBuf(s).r) && Persists(s.wire, IntoInner(s).r)
    ensures Persists(s.wire, WriteAll(s, data).r) && Persists(s.wire, LineWriteAll(s, data).r)
  {
    FlushBufRetries(s);
    WriteAllRetries(s, data);
    LineWriteAllRetries(s, data);
    IntoInnerAnswers(s);
    RetriedPersists(s.wire, FlushBuf(s).s.wire, FlushBuf(s).r);
    RetriedPersists(s.wire, WriteAll(s, data).s.wire, WriteAll(s, data).r);
    RetriedPersists(s.wire, LineWriteAll(s, data).s.wire, LineWriteAll(s, data).r);
  }

  lemma RetriedPersists(w: Wire, w': Wire, r: Outcome<()>)
    requires Retried(w, w', r)
    ensures Persists(w, r)
  {
  }

  /** The panic flag is up after a flush exactly when a write in it unwound; a flush with nothing to send
      leaves it as it was. */
  lemma FlushBufFlags(s: State)
    ensures FlushBuf(s).s.panicked <==> if s.buf == [] then s.panicked else FlushBuf(s).r.Panic?
  {
  }

  /** The inner stream is handed out if and only if the buffer could be flushed; otherwise the failure
      is that of the flush and the wrapper keeps the stream. */
  lemma IntoInnerAnswers(s: State)
    ensures var f := IntoInner(s);
            && f.r == FlushBuf(s).r && f.s.wire == FlushBuf(s).s.wire && f.s.buf == FlushBuf(s).s.buf
            && (s.live ==> f.s.live == !f.r.Ok?)
  {
    assert FlushBuf(s).r.Ok? ==> FlushBuf(s).r.value == ();
  }

  /** A flush that cannot send the buffer does not flush the inner stream; otherwise it answers what
      that says. */
  lemma FlushAnswers(s: State)
    requires Good(s)
    ensures var f := Flush(s);
            if FlushBuf(s).r.Ok? then
              && f.s.wire.onFlush == Tail(s.wire.onFlush)
              && f.r == Answer(Head(s.wire.onFlush), ())
              && f.s.wire.log == FlushBuf(s).s.wire.log + [FlushCall(f.r.Ok?)]
            else f == FlushBuf(s)
  {
    SendAllOnlyWrites(s.wire, s.buf);
  }

  /** The destructor tries to send what is buffered, as a flush of the buffer would, and nothing else;
      once the stream is gone or a write has panicked it does nothing. */
  lemma DropAnswers(s: State)
    ensures Drop(s).wire == if s.live && !s.panicked then FlushBuf(s).s.wire else s.wire
    ensures s.live && !s.panicked && Patient(s.wire) ==> Drop(s).wire.sunk == s.Written()
  {
    FlushBufRetries(s);
    var moved := SendAllSends(s.wire, s.buf);
    assert s.buf[..|s.buf|] == s.buf;
  }

  // ---- Block writes

  /** Where the bytes are after a write_all that succeeded: in the buffer if they are fewer than it can
      hold, behind what was there if there was room, and otherwise all in the stream. */
  lemma WriteAllPlaces(s: State, data: seq<byte>)
    requires Good(s) && WriteAll(s, data).r.Ok?
    ensures var t := WriteAll(s, data).s;
            && t.Written() == s.Written() + data
            && t.buf == if |data| >= s.cap then []
                        else if |s.buf| + |data| <= s.cap then s.buf + data
                        else data
  {
    var k := WriteAllAccepts(s, data);
    FlushBufDrains(s);
    assert data[..k] == data;
    assert [] + data == data;
  }

  lemma WriteAllBatchesExactly(s: State, data: seq<byte>)
    requires Good(s)
    ensures WriteAll(s, data).s.wire.log == s.wire.log <==>
            |s.buf| + |data| <= s.cap && (|data| < s.cap || data == [])
  {
    FlushBufCalls(s);
    FlushBufDrains(s);
    var f := MakeRoom(s, |data|);
    if f.r.Ok? && |data| >= s.cap && data != [] {
      SendAllCalls(f.s.wire, data);
    }
  }

  /** The stream's answer to one offer of data: it took the first bytes, or did not, and the caller is
      told exactly that. */
  ghost predicate Offered(w: Wire, data: seq<byte>, w': Wire, r: Outcome<nat>) {
    var reply := Head(w.onWrite);
    var k := Portion(reply, |data|);
    && w'.sunk == w.sunk + data[..k] && w'.onWrite == Tail(w.onWrite)
    && (match reply
        case Fail(e) => r == Err(e)
        case Unwind(_) => r == Panic
        case _ => r == Ok(k))
  }

  /** A block write that has to make room and cannot reports why. Otherwise it takes all of the data into
      the buffer if that is smaller than the capacity, and if not it reports what the stream says to
      one offer of all of it. */
  lemma WriteAnswers(s: State, data: seq<byte>)
    requires Good(s)
    ensures var f := Write(s, data);
            var full := |s.buf| + |data| > s.cap;
            var w := if full then FlushBuf(s).s.wire else s.wire;
            if full && !FlushBuf(s).r.Ok? then f.r.Without() == FlushBuf(s).r && f.s == FlushBuf(s).s
            else if |data| < s.cap then
              f.r == Ok(|data|) && f.s.wire == w && f.s.buf == (if full then [] else s.buf) + data
            else Offered(w, data, f.s.wire, f.r) && f.s.buf == [] && f.s.panicked == f.r.Panic?
  {
    FlushBufDrains(s);
    var m := MakeRoom(s, |data|);
    if m.r.Ok? {
      if |data| < s.cap {
        assert Write(s, data) == Step(m.s.(buf := m.s.buf + data), Ok(|data|));
      } else {
        assert m.s.buf == [];
        OfferedOnce(m.s.wire, data);
      }
    }
  }

  lemma OfferedOnce(w: Wire, data: seq<byte>)
    ensures var (w', o) := w.Write(data); Offered(w, data, w', o)
  {
  }

  // ---- Line writes

  /** kept is what should be buffered of rest: its front, as much as fits, cut after the last newline in
      that, if there is one. */
  ghost predicate KeptOf(cap: nat, rest: seq<byte>, kept: seq<byte>) {
    var fits := Min(cap, |rest|);
    && kept <= rest && |kept| <= fits
    && (forall i | |kept| <= i < fits :: rest[i] != NEWLINE)
    && (|kept| == fits || (kept != [] && kept[|kept| - 1] == NEWLINE))
    && Shape(kept)
  }

  /** That says exactly what it is. */
  lemma KeptOfIsUnique(cap: nat, rest: seq<byte>, a: seq<byte>, b: seq<byte>)
    requires KeptOf(cap, rest, a) && KeptOf(cap, rest, b)
    ensures a == b
  {
    assert a == rest[..|a|] && b == rest[..|b|];
  }

  /** A line write first flushes, if it brings a newline or finds a completed line waiting. If that fails
      it reports why; and without a newline it goes on as a block write. */
  lemma LineWriteAnswers(s: State, data: seq<byte>)
    requires Good(s)
    ensures var flushes := NEWLINE in data || (s.buf != [] && s.buf[|s.buf| - 1] == NEWLINE);
            var f := if flushes then FlushBuf(s) else Step(s, Ok(()));
            if !f.r.Ok? then LineWrite(s, data).r.Without() == f.r && LineWrite(s, data).s == f.s
            else if NEWLINE in data then LineWrite(s, data) == SendLines(f.s, data)
            else LineWrite(s, data) == Write(f.s, data)
  {
    assert NEWLINE in data <==> LinesLen(data) > 0;
  }

  /** With the buffer empty it then makes one offer of the lines. It reports a failure, or that nothing
      was taken, and buffers nothing; or else it buffers what should be kept of all that was not sent,
      and takes both. */
  lemma SendLinesAnswers(s: State, data: seq<byte>)
    requires s.buf == []
    ensures var lines := data[..LinesLen(data)];
            var (w, o) := s.wire.Write(lines);
            var f := SendLines(s, data);
            && Offered(s.wire, lines, f.s.wire, o)
            && (if o.Ok? && o.value > 0 then
                  f.r == Ok(o.value + |f.s.buf|) && KeptOf(s.cap, data[o.value..], f.s.buf)
                else f.r == o && f.s.buf == [])
  {
    var (w, o) := s.wire.Write(data[..LinesLen(data)]);
    if o.Ok? && o.value > 0 {
      WindowIsKept(s.cap, data[o.value..]);
    }
  }

  lemma WindowIsKept(cap: nat, rest: seq<byte>)
    ensures KeptOf(cap, rest, Window(cap, rest))
  {
    WindowShape(cap, rest);
  }

  /** The same as a caller can observe it after any line write that succeeds, against every stream: how
      much of new data with a newline in it was sent, how much was buffered, and what. */
  lemma LineWriteKeeps(s: State, data: seq<byte>)
    requires Good(s) && NEWLINE in data && LineWrite(s, data).r.Ok?
    ensures var f := LineWrite(s, data);
            var sent := |f.s.wire.sunk| - |s.Written()|;
            && 0 <= sent <= LinesLen(data) && f.s.wire.sunk == s.Written() + data[..sent]
            && (sent == 0 ==> f.r == Ok(0) && f.s.buf == [])
            && (sent > 0 ==> f.r == Ok(sent + |f.s.buf|) && KeptOf(s.cap, data[sent..], f.s.buf))
  {
    LineWriteAnswers(s, data);
    FlushBufDrains(s);
    var m := FlushBuf(s).s;
    assert m.wire.sunk == s.Written();
    SendLinesAnswers(m, data);
    var (w, o) := m.wire.Write(data[..LinesLen(data)]);
    assert data[..LinesLen(data)][..o.value] == data[..o.value];
  }

  /** A write_all that had to send lines and got through leaves what follows them in the buffer, if that
      is smaller than the capacity, and otherwise sends it too. */
  lemma LineWriteAllPlaces(s: State, data: seq<byte>)
    requires Good(s) && NEWLINE in data && LineWriteAll(s, data).r.Ok?
    ensures var t := LineWriteAll(s, data).s;
            var rest := data[LinesLen(data)..];
            && t.Written() == s.Written() + data
            && t.buf == if |rest| < s.cap then rest else []
  {
    var lines, rest := data[..LinesLen(data)], data[LinesLen(data)..];
    var k := LineWriteAllAccepts(s, data);
    assert data[..k] == data;
    var j := LinesAllAccepts(s, lines);
    WriteAllPlaces(LinesAll(s, lines).s, rest);
    assert [] + rest == rest;
  }

  /** A write_all without a newline flushes a completed line that is waiting, and then is a block one. */
  lemma PartialWriteAllAnswers(s: State, data: seq<byte>)
    requires NEWLINE !in data
    ensures var f := if s.buf != [] && s.buf[|s.buf| - 1] == NEWLINE then FlushBuf(s) else Step(s, Ok(()));
            LineWriteAll(s, data) == if f.r.Ok? then WriteAll(f.s, data) else f
  {
    assert LinesLen(data) == 0;
  }

  /** Lines that fit behind what is buffered go out with it in one call, when the stream takes it whole;
      a failure leaves them in the buffer. With nothing buffered they go straight to the stream, and a
      failure leaves nothing in the buffer. */
  lemma LinesGoTogether(s: State, lines: seq<byte>)
    requires Good(s)
    ensures var f := LinesAll(s, lines);
            && (s.buf == [] ==> f.s.buf == [])
            && (s.buf != [] && |s.buf| + |lines| <= s.cap ==>
                  && (f.r.Err? ==> f.s.Written() == s.Written() + lines)
                  && (s.wire.TakesAll() ==> |f.s.wire.log| == |s.wire.log| + 1))
  {
    if s.buf != [] && |s.buf| + |lines| <= s.cap {
      var t := s.(buf := s.buf + lines);
      assert WriteAll(s, lines) == Step(t, Ok(()));
      FlushBufDrains(t);
      assert t.Written() == s.Written() + lines;
      if s.wire.TakesAll() {
        OneCallTakesAll(t.wire, t.buf);
      }
    }
  }

  lemma OneCallTakesAll(w: Wire, data: seq<byte>)
    requires w.TakesAll() && data != []
    ensures |w.SendAll(data).wire.log| == |w.log| + 1
  {
    var (w', o) := w.Write(data);
    assert o == Ok(|data|) && data[|data|..] == [];
  }

  // ---- Vectored line writes

  /** Which slices count as lines: all up to the last one with a newline. */
  function Lined(bufs: seq<seq<byte>>): seq<byte> {
    Concat(bufs[..LineSlices(bufs)])
  }

  function Unlined(bufs: seq<seq<byte>>): seq<byte> {
    Concat(bufs[LineSlices(bufs)..])
  }

  lemma NewlineInConcat(bufs: seq<seq<byte>>)
    ensures NEWLINE in Concat(bufs) <==> LineSlices(bufs) > 0
  {
    var n := LineSlices(bufs);
    ConcatSplitAt(bufs, n);
    ConcatPartial(bufs[n..]);
    if n > 0 {
      LastSliceInConcat(bufs[..n]);
    } else {
      assert bufs[..0] == [] && bufs[0..] == bufs;
    }
  }

  lemma LastSliceInConcat(bufs: seq<seq<byte>>)
    requires bufs != [] && NEWLINE in bufs[|bufs| - 1]
    ensures NEWLINE in Concat(bufs)
  {
    var last := bufs[|bufs| - 1];
    ConcatSplitAt(bufs, |bufs| - 1);
    assert bufs[|bufs| - 1..] == [last];
    assert Concat([last]) == last + Concat([]);
  }

  /** The path that does not fall back first flushes like a scalar line write. Without a newline it goes
      on as a block write of all the slices. With one, it offers the lines once, and reports a failure
      or a short write with nothing buffered; if they were taken whole it buffers as much of the other
      slices as fits and takes both. */
  lemma SlicesAnswer(s: State, complete: bool, lines: seq<byte>, rest: seq<byte>)
    requires Good(s)
    ensures var flushes := complete || (s.buf != [] && s.buf[|s.buf| - 1] == NEWLINE);
            var f := if flushes then FlushBuf(s) else Step(s, Ok(()));
            var g := LineWriteSlices(s, complete, lines, rest);
            if !f.r.Ok? then g.r.Without() == f.r && g.s == f.s
            else if !complete then g == Write(f.s, lines + rest)
            else
              var (w, o) := f.s.wire.Write(lines);
              && Offered(f.s.wire, lines, g.s.wire, o)
              && (if o == Ok(|lines|) then
                    g.s.buf == rest[..Min(s.cap, |rest|)] && g.r == Ok(|lines| + |g.s.buf|)
                  else g.r == o && g.s.buf == [])
  {
    FlushBufDrains(s);
    var kept := rest[..Min(s.cap, |rest|)];
    assert [] + kept == kept;
  }

  /** A fallback with nothing to write does nothing, and otherwise writes the first slice that is not
      empty. */
  lemma FallBackAnswers(s: State, bufs: seq<seq<byte>>)
    requires !s.wire.vectored
    ensures LineWriteVectored(s, true, bufs) ==
            if Concat(bufs) == [] then Step(s, Ok(0)) else LineWrite(s, FirstNonEmpty(bufs))
  {
  }

  lemma VectoredSplits(s: State, canVector: bool, bufs: seq<seq<byte>>)
    requires !canVector || s.wire.vectored
    ensures LineWriteVectored(s, canVector, bufs) ==
            LineWriteSlices(s, LineSlices(bufs) > 0, Lined(bufs), Unlined(bufs))
    ensures Concat(bufs) == Lined(bufs) + Unlined(bufs)
  {
    ConcatSplitAt(bufs, LineSlices(bufs));
  }

  /** Vectored line writes that do not fall back are batched like scalar ones: no call if and only if no
      slice has a newline, no completed line is waiting, and all of them fit below the capacity; and
      then all of them are in the buffer. */
  lemma VectoredBatchesExactly(s: State, canVector: bool, bufs: seq<seq<byte>>)
    requires Good(s) && (!canVector || s.wire.vectored)
    ensures var f := LineWriteVectored(s, canVector, bufs);
            var data := Concat(bufs);
            && (f.s.wire.log == s.wire.log <==>
                  && (forall i | 0 <= i < |bufs| :: NEWLINE !in bufs[i])
                  && (s.buf == [] || s.buf[|s.buf| - 1] != NEWLINE)
                  && |s.buf| + |data| <= s.cap && |data| < s.cap)
            && (f.s.wire.log == s.wire.log ==> f == Step(s.(buf := s.buf + data), Ok(|data|)))
  {
    var n := LineSlices(bufs);
    assert n == 0 <==> forall i | 0 <= i < |bufs| :: NEWLINE !in bufs[i];
    VectoredSplits(s, canVector, bufs);
    SlicesBatchExactly(s, n > 0, Lined(bufs), Unlined(bufs));
  }

  lemma SlicesBatchExactly(s: State, complete: bool, lines: seq<byte>, rest: seq<byte>)
    requires Good(s)
    ensures var f := LineWriteSlices(s, complete, lines, rest);
            var data := lines + rest;
            && (f.s.wire.log == s.wire.log <==>
                  && !complete
                  && (s.buf == [] || s.buf[|s.buf| - 1] != NEWLINE)
                  && |s.buf| + |data| <= s.cap && |data| < s.cap)
            && (f.s.wire.log == s.wire.log ==> f == Step(s.(buf := s.buf + data), Ok(|data|)))
  {
    FlushBufCalls(s);
    FlushBufDrains(s);
    if complete {
      assert FlushBuf(s).r.Ok? ==>
               |SendSlices(FlushBuf(s).s, lines, rest).s.wire.log| == |FlushBuf(s).s.wire.log| + 1;
    } else {
      WriteBatchesExactly(s, lines + rest);
      LateWriteCalls(s, lines + rest);
    }
  }

  ghost predicate AllTaken(s: State, complete: bool, lines: seq<byte>, rest: seq<byte>, f: Step<nat>) {
    if !complete then f.r == Ok(|lines + rest|)
    else f.r == Ok(|lines| + |f.s.buf|) && Placed(f.s) == (s.Written() + lines, rest[..Min(s.cap, |rest|)])
  }

  /** Against a stream that takes all, they take everything if there is no newline; and with one, the
      lines are sent, as much of the rest is buffered as fits, and the count is the sum. */
  lemma VectoredTakesAll(s: State, canVector: bool, bufs: seq<seq<byte>>)
    requires Good(s) && (!canVector || s.wire.vectored) && s.wire.TakesAll()
    ensures AllTaken(s, LineSlices(bufs) > 0, Lined(bufs), Unlined(bufs), LineWriteVectored(s, canVector, bufs))
    ensures LineSlices(bufs) > 0 <==> NEWLINE in Concat(bufs)
    ensures Concat(bufs) == Lined(bufs) + Unlined(bufs)
  {
    NewlineInConcat(bufs);
    VectoredSplits(s, canVector, bufs);
    SlicesTakeAll(s, LineSlices(bufs) > 0, Lined(bufs), Unlined(bufs));
  }

  lemma SlicesTakeAll(s: State, complete: bool, lines: seq<byte>, rest: seq<byte>)
    requires Good(s) && s.wire.TakesAll()
    ensures AllTaken(s, complete, lines, rest, LineWriteSlices(s, complete, lines, rest))
  {
    FlushTakesAll(s);
    if complete {
      TakenWhole(FlushBuf(s).s.wire, lines);
      var kept := rest[..Min(s.cap, |rest|)];
      assert [] + kept == kept;
    } else {
      WritesAgree(FlushIfCompletedLine(s).s, lines + rest);
    }
  }

  // ---- Reads

  /** The stream's answer to one request for at most len bytes. */
  ghost predicate Fetched(w: Wire, len: nat, w': Wire, o: Outcome<seq<byte>>) {
    var reply := Head(w.onRead);
    var k := Portion(reply, Min(len, |w.source|));
    && w'.source == w.source[k..] && w'.onRead == Tail(w.onRead) && w'.log == w.log + [ReadCall(k)]
    && (match reply
        case Fail(e) => o == Err(e)
        case Unwind(_) => o == Panic
        case _ => o == Ok(w.source[..k]))
  }

  /** The reader buffer is refilled exactly when it is used up, with one request for as much as it can
      hold; what comes back, a failure included, is passed on. */
  lemma FillBufAnswers(s: State)
    ensures var f := FillBuf(s);
            if s.pending != [] then f == Step(s, Ok(()))
            else
              var o := s.wire.Read(s.rcap).1;
              Fetched(s.wire, s.rcap, f.s.wire, o) && f.s.pending == Got(o) && f.r == o.Without()
  {
  }

  lemma ConsumeAnswers(s: State, n: nat)
    ensures Consume(s, n) == s.(pending := if n <= |s.pending| then s.pending[n..] else [])
  {
  }

  /** What is pending is served without a call. Otherwise a read with room for at least the reader buffer
      asks the stream for all of that room and passes the answer on, and a smaller one asks for as much
      as the reader buffer holds, returns what there is room for and keeps the rest. */
  lemma ReadAnswers(s: State, n: nat)
    ensures var f := Read(s, n);
            if s.pending != [] then
              var m := Min(n, |s.pending|);
              f == Step(s.(pending := s.pending[m..]), Ok(s.pending[..m]))
            else if n >= s.rcap then Fetched(s.wire, n, f.s.wire, f.r) && f.s.pending == []
            else
              var o := s.wire.Read(s.rcap).1;
              && Fetched(s.wire, s.rcap, f.s.wire, o)
              && f.r.Without() == o.Without()
              && var m := Min(n, |Got(o)|); Got(f.r) == Got(o)[..m] && f.s.pending == Got(o)[m..]
  {
  }

  /** Only the end of the input looks like the end of the input. */
  lemma EmptyReadMeansEnd(s: State, n: nat)
    requires n > 0 && Honest(s.wire)
    ensures Read(s, n).r == Ok([]) ==> s.Input() == []
    ensures Willing(s.wire) ==> Read(s, n).r.Ok? || Read(s, n).r == Err(Interrupted)
  {
    if s.pending == [] {
      if n >= s.rcap {
        ReadHonest(s.wire, n);
      } else {
        ReadHonest(s.wire, s.rcap);
        ReadAnswers(s, n);
        var o := s.wire.Read(s.rcap).1;
        assert Read(s, n).r == Ok([]) ==> o == Ok([]);
      }
    }
  }

  /** A reply that makes a delimiter read fail. */
  ghost predicate Refuses(x: Reply) {
    x.Unwind? || (x.Fail? && x.error != Interrupted)
  }

  ghost predicate ReadOn(w: Wire, w': Wire, r: Outcome<()>) {
    var used := |w.onRead| - |w'.onRead|;
    && 0 <= used && w'.onRead == w.onRead[used..]
    && (forall i | 0 <= i < (if r.Ok? then used else used - 1) :: !Refuses(w.onRead[i]))
    && (!r.Ok? ==> used > 0 && Refuses(w.onRead[used - 1]) && r == Cause(w.onRead[used - 1]))
  }

  lemma ReadOnAgain(a: Wire, b: Wire, c: Wire, r: Outcome<()>)
    requires ReadOn(a, b, Ok(())) && ReadOn(b, c, r)
    ensures ReadOn(a, c, r)
  {
    var m, n := |a.onRead| - |b.onRead|, |b.onRead| - |c.onRead|;
    assert a.onRead[m..][n..] == a.onRead[m + n..];
    forall i | 0 <= i < (if r.Ok? then m + n else m + n - 1) ensures !Refuses(a.onRead[i]) {
      if i >= m {
        assert a.onRead[i] == b.onRead[i - m];
      }
    }
    if !r.Ok? {
      assert a.onRead[m + n - 1] == b.onRead[n - 1];
    }
  }

  /** A turn either moves on, or it fails because of the reply it used. */
  lemma ReadTurnOn(s: State, delim: byte)
    ensures var t := ReadTurn(s, delim);
            ReadOn(s.wire, t.s.wire, if t.r == Err(Interrupted) then Ok(()) else t.r.Without())
  {
    FillBufAnswers(s);
    assert s.wire.onRead[0..] == s.wire.onRead;
  }

  /** A delimiter read fails only when the stream does, and says why. */
  lemma {:induction false} ReadUntilFailsForCause(s: State, delim: byte)
    ensures ReadOn(s.wire, ReadUntil(s, delim).s.wire, ReadUntil(s, delim).r)
    decreases |s.Input()|, |s.wire.onRead|
  {
    ReadTurnOn(s, delim);
    var t := ReadTurn(s, delim);
    if t.r != Ok(false) && t.r != Err(Interrupted) {
    } else {
      ReadUntilFailsForCause(t.s, delim);
      ReadOnAgain(s.wire, t.s.wire, ReadUntil(t.s, delim).s.wire, ReadUntil(t.s, delim).r);
    }
  }

  /** Against every stream, also one that returns nothing before its end, and for every capacity: a
      delimiter read that succeeds ends with the first delimiter, or when the stream returned nothing
      although all that came before had been taken. */
  lemma {:induction false} ReadUntilStops(s: State, delim: byte)
    ensures var g := ReadUntil(s, delim);
            g.r.Ok? ==> Stopped(delim, g.got, g.s)
    decreases |s.Input()|, |s.wire.onRead|
  {
    var t := ReadTurn(s, delim);
    ReadTurnStops(s, delim);
    if t.r == Ok(false) || t.r == Err(Interrupted) {
      ReadUntilStops(t.s, delim);
      var g := ReadUntil(t.s, delim);
      FindAppend(delim, t.got, g.got);
      assert t.r.Err? ==> t.got + g.got == g.got;
      assert g.r.Ok? ==> Stopped(delim, t.got + g.got, g.s);
    }
  }

  ghost predicate Stopped(delim: byte, got: seq<byte>, s: State) {
    || 0 < Find(delim, got) == |got|
    || (&& Find(delim, got) == 0 && s.pending == []
        && s.wire.log != [] && s.wire.log[|s.wire.log| - 1] == ReadCall(0))
  }

  lemma ReadTurnStops(s: State, delim: byte)
    ensures var t := ReadTurn(s, delim);
            && (t.r == Ok(false) ==> Find(delim, t.got) == 0)
            && (t.r == Ok(true) ==> Stopped(delim, t.got, t.s) && (Find(delim, t.got) == 0 ==> t.got == []))
  {
    FillBufAnswers(s);
    var f := FillBuf(s);
    if f.r.Ok? {
      var have := f.s.pending;
      if Find(delim, have) > 0 {
        FindInFront(delim, have);
      } else {
        assert have[..|have|] == have;
      }
    }
  }

  lemma FindInFront(delim: byte, s: seq<byte>)
    requires Find(delim, s) > 0
    ensures Find(delim, s[..Find(delim, s)]) == Find(delim, s)
  {
    var n := Find(delim, s);
    FindAppend(delim, s[..n], s[n..]);
    assert s == s[..n] + s[n..];
  }

  /** When the delimiter is already there, the stream is left alone. */
  lemma ReadUntilServesPending(s: State, delim: byte)
    requires Find(delim, s.pending) > 0
    ensures var n := Find(delim, s.pending);
            ReadUntil(s, delim) == Gathered(s.(pending := s.pending[n..]), s.pending[..n], Ok(()))
  {
  }
}
