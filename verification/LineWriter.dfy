/**
 `BufReaderLineWriterShim`, which lends line buffering to a backend.
 */
module LineWriter {
  import opened Streams
  import opened Lines
  import Duplex
  import opened Backend

  /** Which part of data to buffer after its first flushed bytes were sent: a partial line; the rest
      of the lines if they fit; otherwise up to the last newline that fits, or whatever fits. */
  function SelectTail(cap: nat, data: seq<byte>, newlineIdx: nat, flushed: nat): seq<byte>
    requires newlineIdx == LinesLen(data) && 0 < newlineIdx && flushed <= |data|
  {
    if flushed >= newlineIdx then data[flushed..]
    else if newlineIdx - flushed <= cap then data[flushed..newlineIdx]
    else
      var scanArea := data[flushed..][..cap];
      var n := LinesLen(scanArea);
      if n > 0 then scanArea[..n] else scanArea
  }

  /** Whichever branch is taken, an empty buffer ends up with the window of what was not sent. */
  lemma TailIsWindow(cap: nat, data: seq<byte>, flushed: nat)
    requires NEWLINE in data && flushed <= |data|
    ensures var tail := SelectTail(cap, data, LinesLen(data), flushed);
            tail[..Min(cap, |tail|)] == Window(cap, data[flushed..])
  {
    var n := LinesLen(data);
    var rest := data[flushed..];
    if flushed >= n {
      PartialTail(cap, data, flushed);
    } else if n - flushed <= cap {
      LinesThatFit(cap, rest, n - flushed);
      CutToFit(cap, rest[..n - flushed]);
      assert rest[..n - flushed] == data[flushed..n];
    } else {
      CutToFit(cap, Window(cap, rest));
    }
  }

  lemma CutToFit(cap: nat, tail: seq<byte>)
    requires |tail| <= cap
    ensures tail[..Min(cap, |tail|)] == tail
  {
  }

  lemma PartialTail(cap: nat, data: seq<byte>, flushed: nat)
    requires LinesLen(data) <= flushed <= |data|
    ensures data[flushed..][..Min(cap, |data| - flushed)] == Window(cap, data[flushed..])
  {
  }

  lemma LinesThatFit(cap: nat, rest: seq<byte>, n: nat)
    requires 0 < n <= |rest| && n <= cap && rest[n - 1] == NEWLINE
    requires forall i | n <= i < |rest| :: rest[i] != NEWLINE
    ensures rest[..n] == Window(cap, rest)
  {
  }

  class BufReaderLineWriterShim {
    const buffer: BufReaderWriterBackend

    constructor (buffer: BufReaderWriterBackend)
      ensures this.buffer == buffer
    {
      this.buffer := buffer;
    }

    method FlushIfCompletedLine() returns (r: Outcome<()>)
      requires buffer.Valid()
      modifies buffer`writerBuf, buffer`panicked, buffer.inner
      ensures buffer.Valid() && Duplex.Step(buffer.View(), r) == Duplex.FlushIfCompletedLine(old(buffer.View()))
    {
      var buffered := buffer.writerBuf;
      if buffered != [] && buffered[|buffered| - 1] == NEWLINE {
        r := buffer.FlushBuf();
      } else {
        r := Ok(());
      }
    }

    method Write(data: seq<byte>) returns (r: Outcome<nat>)
      requires buffer.Valid()
      modifies buffer`writerBuf, buffer`panicked, buffer.inner
      ensures buffer.Valid() && Duplex.Step(buffer.View(), r) == Duplex.LineWrite(old(buffer.View()), data)
    {
      var newlineIdx := LinesLen(data);
      if newlineIdx == 0 {
        var f := FlushIfCompletedLine();
        if f.Err? { return Err(f.error); }
        if f.Panic? { return Panic; }
        r := buffer.Write(data);
        return;
      }
      var f := buffer.FlushBuf();
      if f.Err? { return Err(f.error); }
      if f.Panic? { return Panic; }

      r := SendLines(data, newlineIdx);
    }

    /** Make one attempt to send the lines, and buffer what should be kept of the rest. */
    method SendLines(data: seq<byte>, newlineIdx: nat) returns (r: Outcome<nat>)
      requires buffer.Valid() && buffer.writerBuf == [] && 0 < newlineIdx == LinesLen(data)
      modifies buffer`writerBuf, buffer.inner
      ensures buffer.Valid() && Duplex.Step(buffer.View(), r) == Duplex.SendLines(old(buffer.View()), data)
    {
      r := buffer.inner.Write(data[..newlineIdx]);
      if !r.Ok? || r.value == 0 {
        return;
      }
      var buffered := BufferWindow(data, newlineIdx, r.value);
      r := Ok(r.value + buffered);
    }

    method BufferWindow(data: seq<byte>, newlineIdx: nat, flushed: nat) returns (buffered: nat)
      requires buffer.Valid() && buffer.writerBuf == [] && 0 < newlineIdx == LinesLen(data) && flushed <= |data|
      modifies buffer`writerBuf
      ensures buffer.Valid()
      ensures var kept := Window(buffer.writerCapacity, data[flushed..]);
              buffered == |kept| && buffer.View() == old(buffer.View()).(buf := kept)
    {
      TailIsWindow(buffer.writerCapacity, data, flushed);
      var tail := SelectTail(buffer.writerCapacity, data, newlineIdx, flushed);
      KeepWhenEmpty(buffer.View(), tail);
      buffered := buffer.WriteToBuf(tail);
    }

    method WriteAll(data: seq<byte>) returns (r: Outcome<()>)
      requires buffer.Valid()
      modifies buffer`writerBuf, buffer`panicked, buffer.inner
      ensures buffer.Valid() && Duplex.Step(buffer.View(), r) == Duplex.LineWriteAll(old(buffer.View()), data)
    {
      var n := LinesLen(data);
      if n == 0 {
        r := FlushIfCompletedLine();
        if !r.Ok? { return; }
        r := buffer.WriteAll(data);
        return;
      }
      if buffer.writerBuf == [] {
        r := buffer.inner.WriteAll(data[..n]);
        if !r.Ok? { return; }
      } else {
        r := buffer.WriteAll(data[..n]);
        if !r.Ok? { return; }
        r := buffer.FlushBuf();
        if !r.Ok? { return; }
      }
      r := buffer.WriteAll(data[n..]);
    }

    method WriteVectored(canVector: bool, bufs: seq<seq<byte>>) returns (r: Outcome<nat>)
      requires buffer.Valid()
      modifies buffer`writerBuf, buffer`panicked, buffer.inner
      ensures buffer.Valid()
      ensures Duplex.Step(buffer.View(), r) == Duplex.LineWriteVectored(old(buffer.View()), canVector, bufs)
    {
      if canVector && !buffer.inner.wire.vectored {
        var b := Duplex.FirstNonEmpty(bufs);
        if b == [] { return Ok(0); }
        r := Write(b);
        return;
      }
      var n := Duplex.LineSlices(bufs);
      ConcatSplitAt(bufs, n);
      if n > 0 {
        ConcatSnoc(bufs, n - 1);
      }
      if n == 0 {
        var f := FlushIfCompletedLine();
        if f.Err? { return Err(f.error); }
        if f.Panic? { return Panic; }
        r := buffer.WriteVectored(bufs);
        return;
      }
      var f := buffer.FlushBuf();
      if f.Err? { return Err(f.error); }
      if f.Panic? { return Panic; }

      r := SendSlices(bufs[..n], bufs[n..]);
    }

    /** Make one attempt to send the slices with lines in them, and buffer the others if it took all. */
    method SendSlices(lines: seq<seq<byte>>, tail: seq<seq<byte>>) returns (r: Outcome<nat>)
      requires buffer.Valid() && buffer.writerBuf == [] && Concat(lines) != []
      modifies buffer`writerBuf, buffer.inner
      ensures buffer.Valid()
      ensures Duplex.Step(buffer.View(), r) == Duplex.SendSlices(old(buffer.View()), Concat(lines), Concat(tail))
    {
      r := buffer.inner.WriteVectored(lines);
      if !r.Ok? || r.value == 0 { return; }
      var linesLen := TotalLen(lines);
      if r.value < linesLen { return; }
      var buffered := BufferTail(tail);
      r := Ok(r.value + buffered);
    }

    /** Buffer the slices one by one, skipping empty ones, up to the first that finds no room. A slice
        that only fits in part leaves no room for the next, so this keeps what one append of them
        all would keep. */
    method BufferTail(tail: seq<seq<byte>>) returns (buffered: nat)
      requires buffer.Valid()
      modifies buffer`writerBuf
      ensures buffer.Valid() && buffer.View() == Duplex.Keep(old(buffer.View()), Concat(tail))
      ensures buffered == |buffer.writerBuf| - |old(buffer.writerBuf)|
    {
      buffered := 0;
      for i := 0 to |tail|
        invariant buffer.Valid() && buffer.View() == Duplex.Keep(old(buffer.View()), Concat(tail[..i]))
        invariant buffered == |buffer.writerBuf| - |old(buffer.writerBuf)|
      {
        ConcatSnoc(tail, i);
        KeepTwice(old(buffer.View()), Concat(tail[..i]), tail[i]);
        if tail[i] != [] {
          var n := buffer.WriteToBuf(tail[i]);
          if n == 0 {
            ConcatSplitAt(tail, i);
            KeepTwice(old(buffer.View()), Concat(tail[..i]), Concat(tail[i..]));
            break;
          }
          buffered := buffered + n;
        }
      }
      assert tail[..|tail|] == tail;
    }

    method Flush() returns (r: Outcome<()>)
      requires buffer.Valid()
      modifies buffer`writerBuf, buffer`panicked, buffer.inner
      ensures buffer.Valid() && Duplex.Step(buffer.View(), r) == Duplex.Flush(old(buffer.View()))
    {
      r := buffer.Flush();
    }
  }

  lemma KeepWhenEmpty(s: Duplex.State, data: seq<byte>)
    requires s.buf == []
    ensures Duplex.Keep(s, data) == s.(buf := data[..Min(s.cap, |data|)])
  {
  }

  /** Keeping two pieces in turn keeps what their concatenation would. */
  lemma KeepTwice(s: Duplex.State, a: seq<byte>, b: seq<byte>)
    requires |s.buf| <= s.cap
    ensures Duplex.Keep(Duplex.Keep(s, a), b) == Duplex.Keep(s, a + b)
  {
  }
}
