/**
 The promises of the writing side, one operation at a time: what was accepted is never lost,
 duplicated or reordered; a panic in the inner stream cannot lead to a byte being sent twice;
 lines and partial lines do not mix; complete lines get through.
 */
module Writing {
  import opened Streams
  import opened Lines
  import opened Duplex

  /** A wrapper between two calls, none of which has panicked. */
  ghost predicate Good(s: State) {
    s.live && !s.panicked && |s.buf| <= s.cap
  }

  /** t differs from s only on the writing side. */
  ghost predicate WriterStep(s: State, t: State) {
    && t.live == s.live && t.cap == s.cap && t.rcap == s.rcap && t.pending == s.pending
    && t.wire.source == s.wire.source && t.wire.onRead == s.wire.onRead
    && t.wire.vectored == s.wire.vectored
    && |t.buf| <= t.cap
    && (forall x | x in t.wire.onWrite :: x in s.wire.onWrite)
    && s.wire.log <= t.wire.log
    && (forall i | |s.wire.log| <= i < |t.wire.log| :: !t.wire.log[i].ReadCall?)
  }

  /** The promise of an operation that takes data and accepts its first k bytes. If the inner stream
      panicked, then what it holds is still a prefix of what it was to be sent, and nothing is left
      that the destructor would send again. */
  ghost predicate Accepts<T>(s: State, data: seq<byte>, f: Step<T>, k: nat) {
    && k <= |data|
    && WriterStep(s, f.s)
    && s.wire.sunk <= f.s.wire.sunk
    && if f.r.Panic? then
         && (f.s.panicked || f.s.buf == [])
         && f.s.wire.sunk <= s.Written() + data
       else
         && !f.s.panicked
         && f.s.Written() == s.Written() + data[..k]
  }

  // ---- Conservation

  /** Two steps in a row, the first of which took all it was given. */
  lemma Chain<T>(s: State, first: Step<()>, data: seq<byte>, second: Step<T>, more: seq<byte>, k: nat)
    requires first.r.Ok? && Accepts(s, data, first, |data|)
    requires Accepts(first.s, more, second, k)
    ensures Accepts(s, data + more, second, |data| + k)
  {
  }

  /** A step that took k bytes of data has taken the first k bytes of anything starting with data. */
  lemma Widen<T>(s: State, data: seq<byte>, f: Step<T>, k: nat, more: seq<byte>)
    requires Accepts(s, data, f, k)
    ensures Accepts(s, data + more, f, k)
  {
  }

  lemma Narrow<T>(s: State, data: seq<byte>, f: Step<T>, k: nat)
    requires Accepts(s, data, f, k) && !f.r.Panic?
    ensures Accepts(s, data[..k], Step(f.s, Ok(())), k)
  {
  }

  /** A step that only made room, followed by one that takes data. */
  lemma After<T>(s: State, first: Step<()>, data: seq<byte>, second: Step<T>, k: nat)
    requires first.r.Ok? && Accepts(s, [], first, 0)
    requires Accepts(first.s, data, second, k)
    ensures Accepts(s, data, second, k)
  {
  }

  /** The early return after a step that only made room. */
  lemma Aborted<T>(s: State, first: Step<()>, data: seq<byte>)
    requires !first.r.Ok? && Accepts(s, [], first, 0)
    ensures Accepts(s, data, Abort<T>(first), 0)
  {
  }

  /** Caller bytes sent straight to the inner stream while the buffer is empty. */
  lemma DirectWrite(s: State, data: seq<byte>, flag: bool)
    requires Good(s) && s.buf == []
    ensures var (w, o) := s.wire.Write(data);
            Accepts(s, data, Step(s.(wire := w, panicked := flag && o.Panic?), o), if o.Ok? then o.value else 0)
  {
  }

  lemma DirectWriteAll(s: State, data: seq<byte>, flag: bool)
    requires Good(s) && s.buf == []
    ensures var d := s.wire.SendAll(data);
            var f := Step(s.(wire := d.wire, panicked := flag && d.r.Panic?), d.r);
            Accepts(s, data, f, if d.r.Panic? then 0 else d.sent)
  {
    var moved := SendAllSends(s.wire, data);
    SendAllOnlyWrites(s.wire, data);
  }

  /** Bytes that fit are buffered. */
  lemma Buffered<T>(s: State, data: seq<byte>, r: Outcome<T>)
    requires Good(s) && |s.buf| + |data| <= s.cap && !r.Panic?
    ensures Accepts(s, data, Step(s.(buf := s.buf + data), r), |data|)
  {
  }

  /** Draining removes from the buffer exactly what the inner stream gained, and succeeds exactly
      when nothing is left. */
  lemma FlushBufDrains(s: State)
    requires Good(s)
    ensures Accepts(s, [], FlushBuf(s), 0)
    ensures var f := FlushBuf(s);
            && |f.s.buf| <= |s.buf| && f.s.buf == s.buf[|s.buf| - |f.s.buf|..]
            && (f.r.Ok? <==> f.s.buf == [])
            && (!f.r.Panic? ==> f.s.wire.sunk == s.wire.sunk + s.buf[..|s.buf| - |f.s.buf|])
            && f.r != Err(Interrupted)
  {
    var moved := SendAllSends(s.wire, s.buf);
    SendAllOnlyWrites(s.wire, s.buf);
    var d := s.wire.SendAll(s.buf);
    assert s.buf == s.buf[..d.sent] + s.buf[d.sent..];
    if !d.r.Panic? {
      assert s.wire.sunk + s.buf == (s.wire.sunk + s.buf[..d.sent]) + s.buf[d.sent..];
    }
  }

  lemma MakeRoomKeeps(s: State, n: nat)
    requires Good(s)
    ensures Accepts(s, [], MakeRoom(s, n), 0)
    ensures MakeRoom(s, n).r.Ok? ==> |MakeRoom(s, n).s.buf| + n <= s.cap || MakeRoom(s, n).s.buf == []
  {
    FlushBufDrains(s);
  }

  /** A write that returns Ok(n) has accepted exactly the first n bytes, one that fails none.
      Bytes can only have gone past the buffer when it was empty. */
  lemma WriteAccepts(s: State, data: seq<byte>)
    requires Good(s)
    ensures var f := Write(s, data);
            Accepts(s, data, f, if f.r.Ok? then f.r.value else 0)
    ensures Write(s, data).r.Ok? && s.cap <= |data| ==> Write(s, data).s.buf == []
  {
    MakeRoomKeeps(s, |data|);
    var room, f := MakeRoom(s, |data|), Write(s, data);
    if !room.r.Ok? {
      Aborted<nat>(s, room, data);
    } else {
      if |data| >= s.cap {
        DirectWrite(room.s, data, true);
      } else {
        Buffered(room.s, data, Ok(|data|));
      }
      After(s, room, data, f, if f.r.Ok? then f.r.value else 0);
    }
  }

  /** write_all accepts all of it or fails with some prefix accepted. */
  lemma WriteAllAccepts(s: State, data: seq<byte>) returns (k: nat)
    requires Good(s)
    ensures var f := WriteAll(s, data);
            Accepts(s, data, f, k) && (f.r.Ok? ==> k == |data|)
  {
    MakeRoomKeeps(s, |data|);
    var room := MakeRoom(s, |data|);
    if !room.r.Ok? {
      Aborted<()>(s, room, data);
      k := 0;
    } else {
      if |data| >= s.cap {
        DirectWriteAll(room.s, data, true);
        var d := room.s.wire.SendAll(data);
        k := if d.r.Panic? then 0 else d.sent;
      } else {
        Buffered(room.s, data, Ok(()));
        k := |data|;
      }
      After(s, room, data, WriteAll(s, data), k);
    }
  }

  lemma FlushAccepts(s: State)
    requires Good(s)
    ensures Accepts(s, [], Flush(s), 0)
    ensures FlushBuf(s).r.Ok? ==> Flush(s).s.buf == []
  {
    FlushBufDrains(s);
  }

  lemma FlushIfCompletedLineKeeps(s: State)
    requires Good(s)
    ensures Accepts(s, [], FlushIfCompletedLine(s), 0)
  {
    FlushBufDrains(s);
  }

  lemma LineWriteAccepts(s: State, data: seq<byte>)
    requires Good(s)
    ensures var f := LineWrite(s, data);
            Accepts(s, data, f, if f.r.Ok? then f.r.value else 0)
  {
    var n := LinesLen(data);
    FlushBufDrains(s);
    var f := if n == 0 then FlushIfCompletedLine(s) else FlushBuf(s);
    if !f.r.Ok? {
      Aborted<nat>(s, f, data);
    } else {
      if n == 0 {
        WriteAccepts(f.s, data);
      } else {
        LinesThenWindow(f.s, data);
      }
      var g := LineWrite(s, data);
      After(s, f, data, g, if g.r.Ok? then g.r.value else 0);
    }
  }

  /** The part of a line write after the flush. */
  lemma LinesThenWindow(s: State, data: seq<byte>)
    requires Good(s) && s.buf == []
    ensures var f := SendLines(s, data);
            Accepts(s, data, f, if f.r.Ok? then f.r.value else 0)
  {
    var lines := data[..LinesLen(data)];
    var (w, o) := s.wire.Write(lines);
    DirectWrite(s, lines, false);
    if o.Ok? && o.value > 0 {
      Narrow(s, lines, Step(s.(wire := w), o), o.value);
      assert lines[..o.value] == data[..o.value];
      WindowKept(s, w, data, o.value);
    } else {
      assert data == lines + data[LinesLen(data)..];
      Widen(s, lines, Step(s.(wire := w), o), 0, data[LinesLen(data)..]);
    }
  }

  lemma WindowKept(s: State, w: Wire, data: seq<byte>, n: nat)
    requires Good(s) && s.buf == [] && n <= |data|
    requires Accepts(s, data[..n], Step(s.(wire := w), Ok(())), n)
    ensures var kept := Window(s.cap, data[n..]);
            Accepts(s, data, Step(s.(wire := w, buf := kept), Ok(n + |kept|)), n + |kept|)
  {
    var kept := Window(s.cap, data[n..]);
    SentThenKept(s, w, data[..n], kept, data[n + |kept|..]);
    SplitInThree(data, n, kept);
  }

  lemma SplitInThree(data: seq<byte>, n: nat, kept: seq<byte>)
    requires n <= |data| && kept <= data[n..]
    ensures data == (data[..n] + kept) + data[n + |kept|..]
  {
  }

  /** Some bytes have gone straight to the stream, and those kept, which come next, are now in the
      buffer. */
  lemma SentThenKept(s: State, w: Wire, sent: seq<byte>, kept: seq<byte>, rest: seq<byte>)
    requires Good(s) && s.buf == [] && |kept| <= s.cap
    requires Accepts(s, sent, Step(s.(wire := w), Ok(())), |sent|)
    ensures Accepts(s, (sent + kept) + rest, Step(s.(wire := w, buf := kept), Ok(|sent| + |kept|)), |sent| + |kept|)
  {
    var t := s.(wire := w);
    var second := Step(t.(buf := kept), Ok(|sent| + |kept|));
    assert t.buf + kept == kept;
    Buffered<nat>(t, kept, Ok(|sent| + |kept|));
    Chain(s, Step(t, Ok(())), sent, second, kept, |kept|);
    Widen(s, sent + kept, second, |sent| + |kept|, rest);
  }

  lemma LinesAllAccepts(s: State, lines: seq<byte>) returns (k: nat)
    requires Good(s)
    ensures var f := LinesAll(s, lines);
            Accepts(s, lines, f, k) && (f.r.Ok? ==> k == |lines| && f.s.buf == [])
  {
    if s.buf == [] {
      DirectWriteAll(s, lines, false);
      var d := s.wire.SendAll(lines);
      k := if d.r.Panic? then 0 else d.sent;
    } else {
      k := WriteAllAccepts(s, lines);
      var f := WriteAll(s, lines);
      if f.r.Ok? {
        FlushBufDrains(f.s);
        Chain(s, f, lines, LinesAll(s, lines), [], 0);
        assert lines + [] == lines;
      }
    }
  }

  lemma LineWriteAllAccepts(s: State, data: seq<byte>) returns (k: nat)
    requires Good(s)
    ensures var f := LineWriteAll(s, data);
            Accepts(s, data, f, k) && (f.r.Ok? ==> k == |data|)
  {
    var n := LinesLen(data);
    if n > 0 {
      k := LinesThenPartial(s, data[..n], data[n..]);
      assert data == data[..n] + data[n..];
    } else {
      FlushIfCompletedLineKeeps(s);
      var f := FlushIfCompletedLine(s);
      if f.r.Ok? {
        k := WriteAllAccepts(f.s, data);
        After(s, f, data, LineWriteAll(s, data), k);
      } else {
        Aborted<()>(s, f, data);
        k := 0;
      }
    }
  }

  lemma LinesThenPartial(s: State, lines: seq<byte>, rest: seq<byte>) returns (k: nat)
    requires Good(s)
    ensures var f := LinesAll(s, lines);
            var g := if !f.r.Ok? then f else WriteAll(f.s, rest);
            Accepts(s, lines + rest, g, k) && (g.r.Ok? ==> k == |lines + rest|)
  {
    k := LinesAllAccepts(s, lines);
    var f := LinesAll(s, lines);
    if f.r.Ok? {
      var more := WriteAllAccepts(f.s, rest);
      Chain(s, f, lines, WriteAll(f.s, rest), rest, more);
      k := |lines| + more;
    } else {
      Widen(s, lines, f, k, rest);
    }
  }

  lemma LineWriteVectoredAccepts(s: State, canVector: bool, bufs: seq<seq<byte>>)
    requires Good(s)
    ensures var f := LineWriteVectored(s, canVector, bufs);
            Accepts(s, Concat(bufs), f, if f.r.Ok? then f.r.value else 0)
  {
    if canVector && !s.wire.vectored {
      FirstSliceAccepts(s, FirstNonEmpty(bufs), Concat(bufs));
    } else {
      var n := LineSlices(bufs);
      ConcatSplitAt(bufs, n);
      SlicesAccepted(s, n > 0, Concat(bufs[..n]), Concat(bufs[n..]));
    }
  }

  lemma SlicesAccepted(s: State, complete: bool, lines: seq<byte>, rest: seq<byte>)
    requires Good(s)
    ensures var f := LineWriteSlices(s, complete, lines, rest);
            Accepts(s, lines + rest, f, if f.r.Ok? then f.r.value else 0)
  {
    FlushBufDrains(s);
    var f := if complete then FlushBuf(s) else FlushIfCompletedLine(s);
    if !f.r.Ok? {
      Aborted<nat>(s, f, lines + rest);
    } else {
      if complete {
        LineSlicesAccepts(f.s, lines, rest);
      } else {
        WriteAccepts(f.s, lines + rest);
      }
      var g := LineWriteSlices(s, complete, lines, rest);
      After(s, f, lines + rest, g, if g.r.Ok? then g.r.value else 0);
    }
  }

  /** Writing a slice that the data starts with accepts a prefix of the data. */
  lemma FirstSliceAccepts(s: State, b: seq<byte>, data: seq<byte>)
    requires Good(s) && b <= data
    ensures var f := FallBack(s, b);
            Accepts(s, data, f, if f.r.Ok? then f.r.value else 0)
  {
    if b != [] {
      LineWriteAccepts(s, b);
      var f := LineWrite(s, b);
      Widen(s, b, f, if f.r.Ok? then f.r.value else 0, data[|b|..]);
      assert b + data[|b|..] == data;
    }
  }

  /** The direct write of whole slices, and the buffering of the slices after them. */
  lemma LineSlicesAccepts(s: State, lines: seq<byte>, rest: seq<byte>)
    requires Good(s) && s.buf == []
    ensures var f := SendSlices(s, lines, rest);
            Accepts(s, lines + rest, f, if f.r.Ok? then f.r.value else 0)
  {
  }

  // ---- Batching

  lemma FlushBufCalls(s: State)
    requires Good(s)
    ensures FlushBuf(s).s.wire.log == s.wire.log <==> s.buf == []
  {
    if s.buf != [] {
      SendAllCalls(s.wire, s.buf);
    }
  }

  /** A write makes no call to the inner stream exactly when the data fits into the buffer and would
      not fill it on its own; then it is in the buffer. */
  lemma WriteBatchesExactly(s: State, data: seq<byte>)
    requires Good(s)
    ensures Write(s, data).s.wire.log == s.wire.log <==> |s.buf| + |data| <= s.cap && |data| < s.cap
    ensures Write(s, data).s.wire.log == s.wire.log ==> Write(s, data) == Step(s.(buf := s.buf + data), Ok(|data|))
  {
    FlushBufCalls(s);
    FlushBufDrains(s);
    var f := MakeRoom(s, |data|);
    if f.r.Ok? && |data| >= s.cap {
      assert |f.s.wire.Write(data).0.log| == |f.s.wire.log| + 1;
    }
  }

  // ---- One attempt

  /** From s to m nothing has been sent but bytes that were in the buffer. */
  ghost predicate OnlyBufferedSent(s: State, m: State) {
    WriterStep(s, m) && s.wire.sunk <= m.wire.sunk <= s.Written()
  }

  ghost predicate AtMostOneCall(m: State, t: State) {
    m.wire.log <= t.wire.log && |t.wire.log| <= |m.wire.log| + 1
  }

  /** A block write makes at most one attempt to send new data, after any number to make room. */
  lemma WriteAttemptsOnce(s: State, data: seq<byte>) returns (m: State)
    requires Good(s)
    ensures OnlyBufferedSent(s, m) && AtMostOneCall(m, Write(s, data).s)
  {
    MakeRoomKeeps(s, |data|);
    m := MakeRoom(s, |data|).s;
    assert s.Written() + [] == s.Written();
  }

  // ---- After a caught panic

  /** A wrapper whose flush panicked still holds the bytes that the panicking call was given, also those
      that the call had moved: sent bytes were confirmed, moved bytes arrived. If the panic is caught
      and a later flush succeeds, the moved ones that were not confirmed are in the stream twice, so
      each byte is there once if and only if there are none, which shows in the lengths. */
  lemma ReuseAfterPanic(s: State) returns (sent: nat, moved: nat)
    requires Good(s) && FlushBuf(s).r.Panic? && FlushBuf(FlushBuf(s).s).r.Ok?
    ensures var p := FlushBuf(s).s;
            var t := FlushBuf(p).s;
            && sent <= moved <= |s.buf| && |p.Written()| == |s.Written()| + (moved - sent)
            && p.wire.sunk == s.wire.sunk + s.buf[..moved]
            && t.wire.sunk == p.wire.sunk + s.buf[sent..]
            && (t.wire.sunk == s.Written() <==> moved == sent)
  {
    sent := s.wire.SendAll(s.buf).sent;
    moved := SendAllSends(s.wire, s.buf);
    var p := FlushBuf(s).s;
    var all := SendAllSends(p.wire, p.buf);
    assert p.buf[..all] == p.buf;
    Overlap(s.wire.sunk, s.buf, sent, moved);
  }

  lemma Overlap(a: seq<byte>, b: seq<byte>, i: nat, j: nat)
    requires i <= j <= |b|
    ensures (a + b[..j]) + b[i..] == a + b <==> i == j
  {
    if i == j {
      assert b == b[..j] + b[i..];
    } else {
      assert |(a + b[..j]) + b[i..]| > |a + b|;
    }
  }
}
