/**
 What line buffering adds: whole lines and a partial line are never in the buffer together, complete
 lines reach the stream, and write_all agrees with write although it calls the stream differently.
 */
module LineBuffering {
  import opened Streams
  import opened Lines
  import opened Duplex
  import opened Writing

  ghost predicate NoNewline(s: seq<byte>) {
    NEWLINE !in s
  }

  // ---- The shape of the buffer

  lemma FlushBufShape(s: State)
    requires Good(s) && Shape(s.buf)
    ensures Shape(FlushBuf(s).s.buf)
    ensures NoNewline(s.buf) ==> NoNewline(FlushBuf(s).s.buf)
    ensures FlushBuf(s).r.Ok? ==> FlushBuf(s).s.buf == []
  {
  }

  /** Once a completed line has been flushed, only a partial line can be left. */
  lemma FlushIfCompletedLineShape(s: State)
    requires Good(s) && Shape(s.buf)
    ensures Shape(FlushIfCompletedLine(s).s.buf)
    ensures FlushIfCompletedLine(s).r.Ok? ==> NoNewline(FlushIfCompletedLine(s).s.buf)
  {
  }

  lemma PartialWriteShape(s: State, data: seq<byte>)
    requires Good(s) && NoNewline(s.buf) && NoNewline(data)
    ensures NoNewline(Write(s, data).s.buf) && NoNewline(WriteAll(s, data).s.buf)
  {
  }

  lemma LineWriteShape(s: State, data: seq<byte>)
    requires Good(s) && Shape(s.buf)
    ensures Shape(LineWrite(s, data).s.buf)
  {
    FlushBufShape(s);
    FlushIfCompletedLineShape(s);
    if LinesLen(data) == 0 {
      FlushIfCompletedLineKeeps(s);
      var f := FlushIfCompletedLine(s);
      if f.r.Ok? {
        PartialWriteShape(f.s, data);
      }
    } else {
      var f := FlushBuf(s);
      var (w, o) := f.s.wire.Write(data[..LinesLen(data)]);
      if o.Ok? {
        WindowShape(f.s.cap, data[o.value..]);
      }
    }
  }

  lemma LinesAllShape(s: State, lines: seq<byte>)
    requires Good(s) && Shape(s.buf) && lines != [] && lines[|lines| - 1] == NEWLINE
    ensures Shape(LinesAll(s, lines).s.buf)
    ensures LinesAll(s, lines).r.Ok? ==> LinesAll(s, lines).s.buf == []
  {
    FlushBufShape(s);
    if s.buf != [] {
      var k := WriteAllAccepts(s, lines);
      var f := WriteAll(s, lines);
      MakeRoomKeeps(s, |lines|);
      assert Shape(f.s.buf);
      if f.r.Ok? {
        FlushBufShape(f.s);
      }
    }
  }

  /** write_all leaves no complete line behind, whatever the stream did on the way. */
  lemma LineWriteAllShape(s: State, data: seq<byte>)
    requires Good(s) && Shape(s.buf)
    ensures Shape(LineWriteAll(s, data).s.buf)
    ensures LineWriteAll(s, data).r.Ok? ==> NoNewline(LineWriteAll(s, data).s.buf)
  {
    var n := LinesLen(data);
    if n == 0 {
      FlushIfCompletedLineShape(s);
      FlushIfCompletedLineKeeps(s);
      var f := FlushIfCompletedLine(s);
      if f.r.Ok? {
        PartialWriteShape(f.s, data);
      }
    } else {
      LinesAllShape(s, data[..n]);
      var k := LinesAllAccepts(s, data[..n]);
      var f := LinesAll(s, data[..n]);
      if f.r.Ok? {
        PartialWriteShape(f.s, data[n..]);
      }
    }
  }

  lemma {:induction false} ConcatPartial(bufs: seq<seq<byte>>)
    requires forall i | 0 <= i < |bufs| :: NoNewline(bufs[i])
    ensures NoNewline(Concat(bufs))
  {
    if bufs == [] {
    } else {
      ConcatPartial(bufs[1..]);
    }
  }

  lemma LineSlicesShape(s: State, complete: bool, lines: seq<byte>, rest: seq<byte>)
    requires Good(s) && Shape(s.buf) && NoNewline(rest) && (complete || NoNewline(lines))
    ensures Shape(LineWriteSlices(s, complete, lines, rest).s.buf)
  {
  }

  lemma LineWriteVectoredShape(s: State, canVector: bool, bufs: seq<seq<byte>>)
    requires Good(s) && Shape(s.buf)
    ensures Shape(LineWriteVectored(s, canVector, bufs).s.buf)
  {
    if canVector && !s.wire.vectored {
      LineWriteShape(s, FirstNonEmpty(bufs));
    } else {
      var n := LineSlices(bufs);
      ConcatPartial(bufs[n..]);
      LineSlicesShape(s, n > 0, Concat(bufs[..n]), Concat(bufs[n..]));
    }
  }

  // ---- Complete lines get through

  /** Against a stream that takes a slice whole or fails, a write that succeeds leaves no complete
      line in the buffer. */
  lemma LineWriteCompletes(s: State, data: seq<byte>)
    requires Good(s) && Shape(s.buf) && s.wire.WholeOrFail()
    ensures LineWrite(s, data).r.Ok? ==> NoNewline(LineWrite(s, data).s.buf)
  {
    var n := LinesLen(data);
    FlushIfCompletedLineShape(s);
    FlushIfCompletedLineKeeps(s);
    FlushBufDrains(s);
    if n == 0 {
      var f := FlushIfCompletedLine(s);
      if f.r.Ok? {
        PartialWriteShape(f.s, data);
      }
    } else {
      var f := FlushBuf(s);
      if f.r.Ok? {
        var (w, o) := f.s.wire.Write(data[..n]);
        assert o.Ok? ==> o.value == n;
      }
    }
  }

  /** From s to t the one attempt to send data was cut short after some bytes, and the next ones that
      fit hold a newline. */
  ghost predicate CutShort(s: State, data: seq<byte>, t: State) {
    var sent := |t.wire.sunk| - |s.Written()|;
    0 < sent < LinesLen(data) && NEWLINE in data[sent..][..Min(s.cap, |data| - sent)]
  }

  /** Against any stream, a write that succeeds leaves a complete line behind exactly when it was cut
      short like that. */
  lemma LineLeftBehindExactly(s: State, data: seq<byte>)
    requires Good(s) && Shape(s.buf)
    requires LineWrite(s, data).r.Ok?
    ensures NEWLINE in LineWrite(s, data).s.buf <==> CutShort(s, data, LineWrite(s, data).s)
  {
    FlushIfCompletedLineShape(s);
    FlushIfCompletedLineKeeps(s);
    FlushBufDrains(s);
    var n := LinesLen(data);
    if n == 0 {
      PartialWriteShape(FlushIfCompletedLine(s).s, data);
    } else {
      SendLinesLeaves(FlushBuf(s).s, data);
    }
  }

  lemma SendLinesLeaves(s: State, data: seq<byte>)
    requires Good(s) && s.buf == [] && LinesLen(data) > 0 && SendLines(s, data).r.Ok?
    ensures var t := SendLines(s, data).s;
            var sent := |t.wire.sunk| - |s.wire.sunk|;
            && 0 <= sent <= LinesLen(data)
            && (NEWLINE in t.buf <==>
                  0 < sent < LinesLen(data) && NEWLINE in data[sent..][..Min(s.cap, |data| - sent)])
  {
  }

  // ---- The vectored write and completed lines

  /** The vectored path leaves no complete line in the buffer, against any stream: after a short write it
      buffers nothing. */
  lemma SlicesComplete(s: State, complete: bool, lines: seq<byte>, rest: seq<byte>)
    requires Good(s) && Shape(s.buf) && NoNewline(rest) && (complete || NoNewline(lines))
    ensures var f := LineWriteSlices(s, complete, lines, rest);
            f.r.Ok? ==> NoNewline(f.s.buf)
  {
    FlushBufShape(s);
    FlushIfCompletedLineShape(s);
    FlushIfCompletedLineKeeps(s);
    var f := FlushIfCompletedLine(s);
    if !complete && f.r.Ok? {
      PartialWriteShape(f.s, lines + rest);
    }
  }

  lemma VectoredCompletes(s: State, canVector: bool, bufs: seq<seq<byte>>)
    requires Good(s) && Shape(s.buf) && (!canVector || s.wire.vectored)
    ensures var f := LineWriteVectored(s, canVector, bufs);
            f.r.Ok? ==> NoNewline(f.s.buf)
  {
    var n := LineSlices(bufs);
    ConcatPartial(bufs[n..]);
    SlicesComplete(s, n > 0, Concat(bufs[..n]), Concat(bufs[n..]));
  }

  /** A write with something in it, scalar or vectored, that succeeds has sent a completed line that was
      waiting. */
  lemma WaitingLineIsSent(s: State, data: seq<byte>)
    requires Good(s) && Shape(s.buf) && NEWLINE in s.buf
    ensures LineWrite(s, data).r.Ok? ==> s.Written() <= LineWrite(s, data).s.wire.sunk
  {
    FlushBufDrains(s);
    var f := FlushBuf(s);
    if f.r.Ok? {
      assert f.s.Written() == f.s.wire.sunk;
      if LinesLen(data) == 0 {
        WriteAccepts(f.s, data);
      }
    }
  }

  lemma WaitingLineIsSentBySlices(s: State, complete: bool, lines: seq<byte>, rest: seq<byte>)
    requires Good(s) && Shape(s.buf) && NEWLINE in s.buf
    ensures var f := LineWriteSlices(s, complete, lines, rest);
            f.r.Ok? ==> s.Written() <= f.s.wire.sunk
  {
    FlushBufDrains(s);
    var f := FlushBuf(s);
    if f.r.Ok? {
      assert f.s.Written() == f.s.wire.sunk;
      if !complete {
        WriteAccepts(f.s, lines + rest);
      }
    }
  }

  /** The vectored write is meant to flush a completed line that is still buffered, also when it gets
      nothing new. Against every stream it does when it succeeds, with one exception: it returns at
      once when it falls back to scalar writes and all slices are empty. */
  lemma LineWriteVectoredCompletesExactly(s: State, canVector: bool, bufs: seq<seq<byte>>)
    requires Good(s) && Shape(s.buf) && NEWLINE in s.buf
    requires LineWriteVectored(s, canVector, bufs).r.Ok?
    ensures s.Written() <= LineWriteVectored(s, canVector, bufs).s.wire.sunk <==>
            !canVector || s.wire.vectored || Concat(bufs) != []
  {
    if canVector && !s.wire.vectored {
      WaitingLineAndFallBack(s, FirstNonEmpty(bufs));
    } else {
      WaitingLineAndVectored(s, canVector, bufs);
    }
  }

  lemma WaitingLineAndFallBack(s: State, b: seq<byte>)
    requires Good(s) && Shape(s.buf) && NEWLINE in s.buf
    ensures var f := FallBack(s, b);
            f.r.Ok? ==> (s.Written() <= f.s.wire.sunk <==> b != [])
  {
    WaitingLineIsSent(s, b);
    assert |s.Written()| > |s.wire.sunk|;
  }

  lemma WaitingLineAndVectored(s: State, canVector: bool, bufs: seq<seq<byte>>)
    requires Good(s) && Shape(s.buf) && NEWLINE in s.buf && (!canVector || s.wire.vectored)
    ensures var f := LineWriteVectored(s, canVector, bufs);
            f.r.Ok? ==> s.Written() <= f.s.wire.sunk
  {
    var n := LineSlices(bufs);
    WaitingLineIsSentBySlices(s, n > 0, Concat(bufs[..n]), Concat(bufs[n..]));
  }

  /** And what it leaves behind, against every stream: a complete line is in the buffer afterwards only
      if it fell back, and then exactly when there was one and nothing new, or when its one attempt
      with the first non-empty slice was cut short as in LineLeftBehindExactly. */
  lemma VectoredLeavesBehindExactly(s: State, canVector: bool, bufs: seq<seq<byte>>)
    requires Good(s) && Shape(s.buf)
    requires LineWriteVectored(s, canVector, bufs).r.Ok?
    ensures var t := LineWriteVectored(s, canVector, bufs).s;
            NEWLINE in t.buf <==>
              && canVector && !s.wire.vectored
              && if Concat(bufs) == [] then NEWLINE in s.buf else CutShort(s, FirstNonEmpty(bufs), t)
  {
    if canVector && !s.wire.vectored {
      FallBackLeavesBehind(s, FirstNonEmpty(bufs));
    } else {
      VectoredCompletes(s, canVector, bufs);
    }
  }

  lemma FallBackLeavesBehind(s: State, b: seq<byte>)
    requires Good(s) && Shape(s.buf) && FallBack(s, b).r.Ok?
    ensures var t := FallBack(s, b).s;
            NEWLINE in t.buf <==> if b == [] then NEWLINE in s.buf else CutShort(s, b, t)
  {
    if b == [] {
    } else {
      LineLeftBehindExactly(s, b);
    }
  }

  /** Hence the stream holds everything up to the last newline that was ever accepted. */
  lemma CompleteLinesSent(s: State)
    requires NoNewline(s.buf)
    ensures LinesLen(s.Written()) <= |s.wire.sunk|
    ensures s.Written()[..LinesLen(s.Written())] <= s.wire.sunk
  {
  }

  // ---- Partial lines stay

  /** Where the bytes are: what the stream holds and what is buffered. */
  function Placed(s: State): (seq<byte>, seq<byte>) {
    (s.wire.sunk, s.buf)
  }

  /** A line write makes no call to the inner stream exactly when it brings no newline, no completed
      line is waiting, and the data fits into the buffer and would not fill it on its own. */
  lemma LineWriteBatchesExactly(s: State, data: seq<byte>)
    requires Good(s)
    ensures LineWrite(s, data).s.wire.log == s.wire.log <==>
            && NEWLINE !in data
            && (s.buf == [] || s.buf[|s.buf| - 1] != NEWLINE)
            && |s.buf| + |data| <= s.cap && |data| < s.cap
  {
    FlushBufCalls(s);
    FlushBufDrains(s);
    WriteBatchesExactly(s, data);
    assert NEWLINE in data <==> LinesLen(data) > 0;
    if LinesLen(data) > 0 {
      SendLinesCalls(FlushBuf(s).s, data);
    } else {
      LateWriteCalls(s, data);
    }
  }

  lemma SendLinesCalls(s: State, data: seq<byte>)
    ensures SendLines(s, data).s.wire.log[..|s.wire.log|] == s.wire.log
    ensures |SendLines(s, data).s.wire.log| == |s.wire.log| + 1
  {
  }

  /** A line write makes at most one attempt to send new data: up to some point m only bytes that were
      already buffered have been sent, however many calls that took, and after m there is at most one
      more call. */
  lemma LineWriteAttemptsOnce(s: State, data: seq<byte>) returns (m: State)
    requires Good(s)
    ensures OnlyBufferedSent(s, m) && AtMostOneCall(m, LineWrite(s, data).s)
  {
    FlushBufDrains(s);
    FlushIfCompletedLineKeeps(s);
    if LinesLen(data) > 0 {
      m := FlushBuf(s).s;
      SendLinesCalls(m, data);
    } else {
      var f := FlushIfCompletedLine(s);
      m := f.s;
      if f.r.Ok? {
        m := WriteAttemptsOnce(f.s, data);
        assert f.s.Written() == s.Written() + [] == s.Written();
      }
    }
  }

  /** So does a vectored line write. */
  lemma VectoredAttemptsOnce(s: State, canVector: bool, bufs: seq<seq<byte>>) returns (m: State)
    requires Good(s)
    ensures OnlyBufferedSent(s, m) && AtMostOneCall(m, LineWriteVectored(s, canVector, bufs).s)
  {
    if canVector && !s.wire.vectored {
      m := s;
      if FirstNonEmpty(bufs) != [] {
        m := LineWriteAttemptsOnce(s, FirstNonEmpty(bufs));
      }
    } else {
      var n := LineSlices(bufs);
      m := SlicesAttemptOnce(s, n > 0, Concat(bufs[..n]), Concat(bufs[n..]));
    }
  }

  lemma SlicesAttemptOnce(s: State, complete: bool, lines: seq<byte>, rest: seq<byte>) returns (m: State)
    requires Good(s)
    ensures OnlyBufferedSent(s, m) && AtMostOneCall(m, LineWriteSlices(s, complete, lines, rest).s)
  {
    FlushBufDrains(s);
    FlushIfCompletedLineKeeps(s);
    if complete {
      m := FlushBuf(s).s;
    } else {
      var f := FlushIfCompletedLine(s);
      m := f.s;
      if f.r.Ok? {
        m := WriteAttemptsOnce(f.s, lines + rest);
        assert f.s.Written() == s.Written() + [] == s.Written();
      }
    }
  }

  lemma LateWriteCalls(s: State, data: seq<byte>)
    requires Good(s)
    ensures var f := FlushIfCompletedLine(s);
            f.r.Ok? && f.s != s ==> Write(f.s, data).s.wire.log != s.wire.log
  {
    var f := FlushIfCompletedLine(s);
    FlushIfCompletedLineKeeps(s);
    FlushBufCalls(s);
    if f.r.Ok? && f.s != s {
      WriteAccepts(f.s, data);
    }
  }

  /** When write_all succeeds, the lines have been sent and a partial line after them that is shorter
      than the capacity is what the buffer holds, against every stream. */
  lemma LineWriteAllKeepsPartial(s: State, data: seq<byte>)
    requires Good(s) && NEWLINE in data && LineWriteAll(s, data).r.Ok?
    requires |data| - LinesLen(data) < s.cap
    ensures Placed(LineWriteAll(s, data).s) == (s.Written() + data[..LinesLen(data)], data[LinesLen(data)..])
  {
    var lines, rest := data[..LinesLen(data)], data[LinesLen(data)..];
    var k := LinesAllAccepts(s, lines);
    var f := LinesAll(s, lines);
    assert lines[..k] == lines;
    assert f.s.Written() == f.s.wire.sunk;
    assert f.s.buf + rest == rest;
  }

  // ---- write_all and write

  lemma FlushTakesAll(s: State)
    requires Good(s) && s.wire.TakesAll()
    ensures FlushBuf(s).r.Ok? && Placed(FlushBuf(s).s) == (s.Written(), [])
    ensures Good(FlushBuf(s).s) && FlushBuf(s).s.wire.TakesAll() && FlushBuf(s).s.cap == s.cap
  {
    SendAllTakesAll(s.wire, s.buf);
    FlushBufDrains(s);
  }

  lemma WritesAgree(s: State, data: seq<byte>)
    requires Good(s) && s.wire.TakesAll()
    ensures Write(s, data).r == Ok(|data|) && WriteAll(s, data).r.Ok?
    ensures Placed(Write(s, data).s) == Placed(WriteAll(s, data).s)
    ensures s.buf == [] ==>
              Placed(Write(s, data).s) == if |data| < s.cap then (s.wire.sunk, data) else (s.wire.sunk + data, [])
  {
    FlushTakesAll(s);
    var f := MakeRoom(s, |data|);
    SendAllTakesAll(f.s.wire, data);
    assert s.buf == [] ==> s.buf + data == data;
  }

  /** Against a stream that takes every slice whole, write and write_all leave the same bytes in the
      same places exactly when there is no newline, or nothing after the last one, or what is after
      it is shorter than the capacity. */
  lemma WriteAllAgreesExactly(s: State, data: seq<byte>)
    requires Good(s) && Shape(s.buf) && s.wire.TakesAll()
    ensures Placed(LineWrite(s, data).s) == Placed(LineWriteAll(s, data).s) <==>
            LinesLen(data) == 0 || LinesLen(data) == |data| || |data| - LinesLen(data) < s.cap
    ensures LineWrite(s, data).r.Ok? && LineWriteAll(s, data).r.Ok?
  {
    var n := LinesLen(data);
    FlushTakesAll(s);
    if n == 0 {
      WritesAgree(FlushIfCompletedLine(s).s, data);
    } else {
      LineWriteTakesAll(s, data);
      LineWriteAllTakesAll(s, data);
      PlacesDiffer(s.Written() + data[..n], data[n..], s.cap);
    }
  }

  lemma PlacesDiffer(sent: seq<byte>, rest: seq<byte>, cap: nat)
    ensures (sent, rest[..Min(cap, |rest|)]) == (if |rest| < cap then (sent, rest) else (sent + rest, [])) <==>
            rest == [] || |rest| < cap
  {
    assert rest[..|rest|] == rest;
    assert rest == [] ==> sent + rest == sent;
    assert |sent + rest| == |sent| + |rest|;
  }

  lemma LineWriteTakesAll(s: State, data: seq<byte>)
    requires Good(s) && s.wire.TakesAll() && LinesLen(data) > 0
    ensures var n := LinesLen(data);
            && LineWrite(s, data).r.Ok?
            && Placed(LineWrite(s, data).s) == (s.Written() + data[..n], data[n..][..Min(s.cap, |data| - n)])
  {
    FlushTakesAll(s);
    var n := LinesLen(data);
    var f := FlushBuf(s).s;
    TakenWhole(f.wire, data[..n]);
    WindowOfPartial(s.cap, data[n..]);
  }

  lemma TakenWhole(w: Wire, data: seq<byte>)
    requires w.TakesAll()
    ensures w.Write(data).1 == Ok(|data|) && w.Write(data).0.sunk == w.sunk + data
  {
  }

  lemma WindowOfPartial(cap: nat, rest: seq<byte>)
    requires NoNewline(rest)
    ensures Window(cap, rest) == rest[..Min(cap, |rest|)]
  {
  }

  lemma LineWriteAllTakesAll(s: State, data: seq<byte>)
    requires Good(s) && s.wire.TakesAll() && LinesLen(data) > 0
    ensures var n := LinesLen(data);
            var sent := s.Written() + data[..n];
            && LineWriteAll(s, data).r.Ok?
            && Placed(LineWriteAll(s, data).s) ==
               if |data| - n < s.cap then (sent, data[n..]) else (sent + data[n..], [])
  {
    var n := LinesLen(data);
    var lines := data[..n];
    var f := LinesAll(s, lines);
    assert f.r.Ok? && Placed(f.s) == (s.Written() + lines, []) && f.s.wire.TakesAll() by {
      LinesAllTakesAll(s, lines);
    }
    WritesAgree(f.s, data[n..]);
  }

  lemma LinesAllTakesAll(s: State, lines: seq<byte>)
    requires Good(s) && s.wire.TakesAll()
    ensures var f := LinesAll(s, lines);
            f.r.Ok? && Placed(f.s) == (s.Written() + lines, []) && f.s.wire.TakesAll() && Good(f.s) && f.s.cap == s.cap
  {
    if s.buf == [] {
      SendAllTakesAll(s.wire, lines);
      assert s.Written() == s.wire.sunk;
    } else {
      WritesAgree(s, lines);
      var k := WriteAllAccepts(s, lines);
      assert lines[..k] == lines;
      FlushTakesAll(WriteAll(s, lines).s);
    }
  }

  /** They do differ: with room for one byte, write buffers what follows the newline and write_all sends
      it. */
  lemma WriteAllDiffers()
    ensures var s := State(Wire([], [], [], [], [], false, []), true, [], 1, false, [], 1);
            && Good(s) && Shape(s.buf) && s.wire.TakesAll()
            && Placed(LineWrite(s, [NEWLINE, 65]).s) == ([NEWLINE], [65])
            && Placed(LineWriteAll(s, [NEWLINE, 65]).s) == ([NEWLINE, 65], [])
  {
    var s := State(Wire([], [], [], [], [], false, []), true, [], 1, false, [], 1);
    var data: seq<byte> := [NEWLINE, 65];
    assert LastNewline(data, 2) == LastNewline(data, 1) == 1;
    assert data[..1] == [NEWLINE] && data[1..] == [65] && data[1..][..1] == [65];
    assert s.Written() + data[..1] == [NEWLINE];
    assert (s.Written() + data[..1]) + data[1..] == data;
    LineWriteTakesAll(s, data);
    LineWriteAllTakesAll(s, data);
  }
}
