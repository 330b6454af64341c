/**
 The answers of the public calls, as operations of a run through either wrapper.
 */
module Calls {
  import opened Streams
  import opened Lines
  import Duplex
  import opened Writing
  import opened LineBuffering
  import opened Reading
  import opened Answers
  import opened Runs

  // ---- Reads

  /** A public read whose flush fails reports that and reads nothing. Otherwise it serves what is pending,
      or makes one request to the stream: for all the room it was given if that is at least the size
      of the reader buffer, or else for that size, keeping what there is no room for. */
  lemma PublicReadAnswers(mode: Mode, s: State, n: nat)
    requires Inv(mode, s) && s.live
    ensures var f := Duplex.Flush(s);
            var e := Apply(mode, s, Read(n));
            if !f.r.Ok? then e.s == f.s && e.r.Without() == f.r && e.got == []
            else if s.pending != [] then
              var m := Min(n, |s.pending|);
              e == Effect(f.s.(pending := s.pending[m..]), Ok(0), s.pending[..m])
            else
              var len := if n >= s.rcap then n else s.rcap;
              var o := f.s.wire.Read(len).1;
              && Fetched(f.s.wire, len, e.s.wire, o)
              && e.r.Without() == o.Without()
              && var m := Min(n, |Got(o)|); e.got == Got(o)[..m] && e.s.pending == Got(o)[m..]
  {
    FlushAccepts(s);
    ReadAnswers(Duplex.Flush(s).s, n);
  }

  /** With room for something, a public read of an honest stream that returns nothing has reached the
      end of the input; and once the flush has succeeded it fails only when the stream does. */
  lemma PublicReadIsHonest(mode: Mode, s: State, n: nat)
    requires Inv(mode, s) && s.live && n > 0 && Honest(s.wire)
    ensures var e := Apply(mode, s, Read(n));
            && (e.r.Ok? && e.got == [] ==> s.Input() == [])
            && (Willing(s.wire) && Duplex.Flush(s).r.Ok? ==> e.r.Ok? || e.r == Err(Interrupted))
  {
    FlushAccepts(s);
    EmptyReadMeansEnd(Duplex.Flush(s).s, n);
  }

  /** A public delimiter read whose flush fails reports that and reads nothing. Otherwise, from an honest
      stream, it returns the input up to and with the first delimiter, or all of it, when it succeeds,
      which it does if the stream does nothing worse than short reads and interruptions. */
  lemma PublicReadUntilAnswers(mode: Mode, s: State, delim: byte)
    requires Inv(mode, s) && s.live && s.rcap > 0 && Honest(s.wire)
    ensures var f := Duplex.Flush(s);
            var e := Apply(mode, s, ReadUntil(delim));
            if !f.r.Ok? then e.s == f.s && e.r.Without() == f.r && e.got == []
            else
              && (e.r.Ok? ==> e.got == Until(delim, s.Input()) && e.got + e.s.Input() == s.Input())
              && (Willing(s.wire) ==> e.r.Ok?)
              && (!e.r.Ok? ==> ReadOn(s.wire, e.s.wire, e.r.Without()))
  {
    FlushAccepts(s);
    var f := Duplex.Flush(s);
    AppliesReadUntil(mode, s, delim);
    if f.r.Ok? {
      assert f.s.Input() == s.Input();
      UntilAnswers(f.s, delim);
    }
  }

  lemma AppliesReadUntil(mode: Mode, s: State, delim: byte)
    ensures var f := Duplex.Flush(s);
            var g := if f.r.Ok? then Duplex.ReadUntil(f.s, delim) else Duplex.Gathered(f.s, [], f.r);
            var e := Apply(mode, s, ReadUntil(delim));
            e.s == g.s && e.got == g.got && e.r.Without() == g.r
  {
    var f := Duplex.Flush(s);
    var g := if f.r.Ok? then Duplex.ReadUntil(f.s, delim) else Duplex.Gathered(f.s, [], f.r);
    assert g.r.Ok? ==> g.r.value == ();
  }

  lemma UntilAnswers(s: State, delim: byte)
    requires s.rcap > 0 && Honest(s.wire)
    ensures var g := Duplex.ReadUntil(s, delim);
            && (g.r.Ok? ==> g.got == Until(delim, s.Input()) && g.got + g.s.Input() == s.Input())
            && (Willing(s.wire) ==> g.r.Ok?)
            && ReadOn(s.wire, g.s.wire, g.r)
  {
    ReadUntilExact(s, delim);
    ReadUntilDelivers(s, delim);
    ReadUntilFailsForCause(s, delim);
  }

  /** The reader buffer is filled and consumed without a flush: only a used-up buffer is refilled, with one
      request for as much as it can hold, whose failure is passed on; and consuming hands over the
      front of what is pending. Neither touches what is waiting to be written. */
  lemma BufferCallsAnswer(mode: Mode, s: State, n: nat)
    ensures var e := Apply(mode, s, FillBuf);
            if s.pending != [] then e == Effect(s, Ok(0), [])
            else
              var o := s.wire.Read(s.rcap).1;
              && Fetched(s.wire, s.rcap, e.s.wire, o) && e.s.wire.sunk == s.wire.sunk && e.s.buf == s.buf
              && e.s.pending == Got(o) && e.r.Without() == o.Without() && e.got == []
    ensures var e := Apply(mode, s, Consume(n));
            e.got + e.s.pending == s.pending && |e.got| == Min(n, |s.pending|) && e.s.(pending := s.pending) == s
  {
    FillBufAnswers(s);
    ConsumeAnswers(s, n);
  }

  // ---- Writes

  /** A block writer pays no attention to newlines: none of its writes makes a call when the data fits
      below the capacity, and each makes one otherwise, unless write_all has nothing to write. */
  lemma BlockBatchesExactly(s: State, op: Op)
    requires Inv(Block, s) && s.live && (op.Write? || op.WriteAll? || op.WriteVectored?)
    ensures var e := Apply(Block, s, op);
            var n := |op.Data()|;
            && (e.s.wire.log == s.wire.log <==>
                  |s.buf| + n <= s.cap && (n < s.cap || (op.WriteAll? && n == 0)))
            && (e.s.wire.log == s.wire.log ==>
                  e.s.buf == s.buf + op.Data() && e.r == Ok(if op.WriteAll? then 0 else n))
  {
    WriteBatchesExactly(s, op.Data());
    WriteAllBatchesExactly(s, op.Data());
    if op.WriteAll? && Apply(Block, s, op).s.wire.log == s.wire.log {
      if op.data == [] && s.cap == 0 {
        assert s.buf == [] && s.wire.SendAll([]) == Drained(s.wire, 0, Ok(()));
      }
      assert s.buf + [] == s.buf;
    }
  }

  /** A line writer whose build can ask for vectored writes, over a stream without them, writes the first
      slice that is not empty and nothing else; otherwise it takes the slices together, and batches
      them like one scalar write. */
  lemma LineVectoredCallAnswers(canVector: bool, s: State, bufs: seq<seq<byte>>)
    requires Inv(LineBuffered(canVector), s) && s.live
    ensures var e := Apply(LineBuffered(canVector), s, WriteVectored(bufs));
            var data := Concat(bufs);
            if canVector && !s.wire.vectored then
              if data == [] then e == Effect(s, Ok(0), [])
              else e == Apply(LineBuffered(canVector), s, Write(Duplex.FirstNonEmpty(bufs)))
            else
              && (e.s.wire.log == s.wire.log <==> Batched(s, data))
              && (Batched(s, data) ==> e == Effect(s.(buf := s.buf + data), Ok(|data|), []))
  {
    if canVector && !s.wire.vectored {
      FallBackAnswers(s, bufs);
    } else {
      NewlineInConcat(bufs);
      VectoredBatchesExactly(s, canVector, bufs);
    }
  }

  /** The writes a line writer keeps in the buffer. */
  ghost predicate Batched(s: State, data: seq<byte>) {
    && NEWLINE !in data && (s.buf == [] || s.buf[|s.buf| - 1] != NEWLINE)
    && |s.buf| + |data| <= s.cap && |data| < s.cap
  }

  /** Through either wrapper, against a patient stream, write_all and into_inner succeed, and flush fails
      only when the flush of the inner stream does. */
  lemma PatientStreamsSuffice(mode: Mode, s: State, op: Op)
    requires Inv(mode, s) && s.live && Patient(s.wire)
    ensures var e := Apply(mode, s, op);
            && (op.WriteAll? ==> e.r.Ok?)
            && (op.IntoInner? ==> e.r.Ok? && !e.s.live && e.s.wire.sunk == s.Written())
            && (op.Flush? ==> e.r.Without() == Answer(Head(s.wire.onFlush), ()) && e.s.wire.sunk == s.Written())
  {
    RetryingSucceeds(s, op.Data());
    FlushBufDrains(s);
    IntoInnerAnswers(s);
    FlushAnswers(s);
  }
}
