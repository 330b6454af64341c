/**
 `BufReaderWriterBackend`, step by step as it works: buffers and flags change in place, loops retry,
 and a panic in the inner stream unwinds through.
 Every method is proved to do to the state what its function in Duplex says.
 */
module Backend {
  import opened Streams
  import Duplex

  class BufReaderWriterBackend {
    var inner: InnerStream?

    // writer fields
    var writerBuf: seq<byte>
    const writerCapacity: nat
    var panicked: bool

    // reader fields
    const readerBuf: array<byte>
    var pos: nat
    var cap: nat

    ghost predicate Valid()
      reads this
    {
      && inner != null
      && |writerBuf| <= writerCapacity
      && pos <= cap <= readerBuf.Length
    }

    ghost function View(): Duplex.State
      requires Valid()
      reads this, inner, readerBuf
    {
      Duplex.State(inner.wire, true, writerBuf, writerCapacity, panicked, readerBuf[pos..cap], readerBuf.Length)
    }

    constructor WithCapacities(readerCapacity: nat, writerCapacity: nat, inner: InnerStream)
      ensures Valid() && this.inner == inner && fresh(readerBuf)
      ensures View() == Duplex.State(inner.wire, true, [], writerCapacity, false, [], readerCapacity)
    {
      this.inner := inner;
      writerBuf := [];
      this.writerCapacity := writerCapacity;
      panicked := false;
      readerBuf := new byte[readerCapacity](_ => 0);
      pos, cap := 0, 0;
    }

    /** The loop of `flush_buf`: offer what is left of the buffer until it is all written or an error
        occurs. The flag is up exactly while the inner stream is being called. */
    method WriteOut() returns (written: nat, r: Outcome<()>)
      requires Valid()
      modifies this`panicked, inner
      ensures written <= |writerBuf|
      ensures Drained(inner.wire, written, r) == old(inner.wire.SendAll(writerBuf))
      ensures panicked == if writerBuf == [] then old(panicked) else r.Panic?
    {
      written := 0;
      ghost var all := inner.wire.SendAll(writerBuf);
      while written < |writerBuf|
        invariant written <= |writerBuf|
        invariant inner.wire.SendAll(writerBuf[written..]).After(written) == all
        invariant (written > 0 ==> !panicked) && (writerBuf == [] ==> panicked == old(panicked))
        decreases |writerBuf| - written, |inner.wire.onWrite|
      {
        ghost var before := inner.wire;
        SendAllUnfolds(before, writerBuf[written..], written);
        panicked := true;
        var w := inner.Write(writerBuf[written..]);
        if w.Panic? {
          return written, Panic;
        }
        panicked := false;
        match w {
          case Ok(n) =>
            if n == 0 {
              return written, Err(WriteZero);
            }
            assert writerBuf[written..][n..] == writerBuf[written + n..];
            written := written + n;
          case Err(e) =>
            if e != Interrupted {
              return written, Err(e);
            }
        }
      }
      r := Ok(());
    }

    /** Send the buffer to the inner stream. What was written is drained from the front of the buffer
        at every exit, also when unwinding. */
    method FlushBuf() returns (r: Outcome<()>)
      requires Valid()
      modifies this`writerBuf, this`panicked, inner
      ensures Valid() && Duplex.Step(View(), r) == Duplex.FlushBuf(old(View()))
    {
      var written;
      written, r := WriteOut();
      if written > 0 {
        writerBuf := writerBuf[written..];
      }
    }

    /** The vector has been allocated once; appending must never make it grow. */
    method ExtendFromSlice(data: seq<byte>)
      requires |writerBuf| + |data| <= writerCapacity
      modifies this`writerBuf
      ensures writerBuf == old(writerBuf) + data
    {
      writerBuf := writerBuf + data;
    }

    method ExtendFromSlices(bufs: seq<seq<byte>>)
      requires |writerBuf| + |Concat(bufs)| <= writerCapacity
      modifies this`writerBuf
      ensures writerBuf == old(writerBuf) + Concat(bufs)
    {
      for i := 0 to |bufs|
        invariant writerBuf == old(writerBuf) + Concat(bufs[..i])
      {
        ConcatSnoc(bufs, i);
        ConcatSplitAt(bufs, i + 1);
        ExtendFromSlice(bufs[i]);
      }
      assert bufs[..|bufs|] == bufs;
    }

    method WriteToBuf(data: seq<byte>) returns (amount: nat)
      requires Valid()
      modifies this`writerBuf
      ensures Valid() && View() == Duplex.Keep(old(View()), data)
      ensures amount == |writerBuf| - |old(writerBuf)|
    {
      var available := writerCapacity - |writerBuf|;
      amount := Min(available, |data|);
      ExtendFromSlice(data[..amount]);
    }

    method Write(data: seq<byte>) returns (r: Outcome<nat>)
      requires Valid()
      modifies this`writerBuf, this`panicked, inner
      ensures Valid() && Duplex.Step(View(), r) == Duplex.Write(old(View()), data)
    {
      if |writerBuf| + |data| > writerCapacity {
        var f := FlushBuf();
        if f.Err? { return Err(f.error); }
        if f.Panic? { return Panic; }
      }
      if |data| >= writerCapacity {
        panicked := true;
        r := inner.Write(data);
        if r.Panic? { return; }
        panicked := false;
      } else {
        ExtendFromSlice(data);
        r := Ok(|data|);
      }
    }

    method WriteAll(data: seq<byte>) returns (r: Outcome<()>)
      requires Valid()
      modifies this`writerBuf, this`panicked, inner
      ensures Valid() && Duplex.Step(View(), r) == Duplex.WriteAll(old(View()), data)
    {
      if |writerBuf| + |data| > writerCapacity {
        r := FlushBuf();
        if !r.Ok? { return; }
      }
      if |data| >= writerCapacity {
        panicked := true;
        r := inner.WriteAll(data);
        if r.Panic? { return; }
        panicked := false;
      } else {
        ExtendFromSlice(data);
        r := Ok(());
      }
    }

    /** The slices go to the buffer one by one, or to the inner stream together; either way the
        effect is that of writing their concatenation. */
    method WriteVectored(bufs: seq<seq<byte>>) returns (r: Outcome<nat>)
      requires Valid()
      modifies this`writerBuf, this`panicked, inner
      ensures Valid() && Duplex.Step(View(), r) == Duplex.Write(old(View()), Concat(bufs))
    {
      var total := TotalLen(bufs);
      if |writerBuf| + total > writerCapacity {
        var f := FlushBuf();
        if f.Err? { return Err(f.error); }
        if f.Panic? { return Panic; }
      }
      if total >= writerCapacity {
        panicked := true;
        r := inner.WriteVectored(bufs);
        if r.Panic? { return; }
        panicked := false;
      } else {
        ExtendFromSlices(bufs);
        r := Ok(total);
      }
    }

    method Flush() returns (r: Outcome<()>)
      requires Valid()
      modifies this`writerBuf, this`panicked, inner
      ensures Valid() && Duplex.Step(View(), r) == Duplex.Flush(old(View()))
    {
      r := FlushBuf();
      if r.Ok? {
        r := inner.Flush();
      }
    }

    /** On success the inner stream is moved out; on an error the wrapper is given back as it is,
        to be tried again. */
    method IntoInner() returns (r: Outcome<InnerStream>)
      requires Valid()
      modifies this`inner, this`writerBuf, this`panicked, inner
      ensures var f := Duplex.IntoInner(old(View()));
              && r.Without() == f.r
              && old(inner).wire == f.s.wire && writerBuf == f.s.buf && panicked == f.s.panicked
              && (if r.Ok? then r.value == old(inner) && inner == null else Valid() && View() == f.s)
    {
      var f := FlushBuf();
      match f {
        case Ok(_) =>
          r := Ok(inner);
          inner := null;
        case Err(e) => r := Err(e);
        case Panic => r := Panic;
      }
    }

    /** The destructor: a failed flush is ignored. */
    method Drop()
      requires inner != null ==> Valid()
      modifies this`writerBuf, this`panicked, inner
      ensures inner != null ==> Valid() && View() == Duplex.Drop(old(View()))
      ensures inner == null ==> writerBuf == old(writerBuf)
    {
      if inner != null && !panicked {
        var _ := FlushBuf();
      }
    }

    method DiscardReaderBuffer()
      modifies this`pos, this`cap
      ensures pos == cap == 0
    {
      pos, cap := 0, 0;
    }

    /** Refill the reader buffer when it is used up. The slice that the code returns is
        readerBuf[pos..cap]. */
    method FillBuf() returns (r: Outcome<()>)
      requires Valid()
      modifies this`pos, this`cap, inner, readerBuf
      ensures Valid() && Duplex.Step(View(), r) == Duplex.FillBuf(old(View()))
    {
      if pos >= cap {
        var n := inner.Read(readerBuf);
        if n.Err? { return Err(n.error); }
        if n.Panic? { return Panic; }
        cap := n.value;
        pos := 0;
        assert readerBuf[..cap] == readerBuf[pos..cap];
      }
      r := Ok(());
    }

    method Consume(amount: nat)
      requires Valid()
      modifies this`pos
      ensures Valid() && View() == Duplex.Consume(old(View()), amount)
    {
      ghost var before := readerBuf[pos..cap];
      ghost var was := pos;
      pos := if pos + amount <= cap then pos + amount else cap;
      assert readerBuf[pos..cap] == before[pos - was..];
    }

    /** Read into the caller's buffer: past the reader buffer when that is empty and no larger than
        what is asked for, out of it otherwise. */
    method Read(dst: array<byte>) returns (r: Outcome<nat>)
      requires Valid() && dst != readerBuf
      modifies this`pos, this`cap, inner, readerBuf, dst
      ensures Valid()
      ensures var f := Duplex.Read(old(View()), dst.Length);
              View() == f.s && r == Count(f.r) && (r.Ok? ==> r.value <= dst.Length && dst[..r.value] == f.r.value)
    {
      if pos == cap && dst.Length >= readerBuf.Length {
        DiscardReaderBuffer();
        r := inner.Read(dst);
        return;
      }
      var f := FillBuf();
      if f.Err? { return Err(f.error); }
      if f.Panic? { return Panic; }
      var size := TakePending(dst);
      r := Ok(size);
    }

    /** The same for several buffers, which are filled in turn. */
    method ReadVectored(bufs: seq<array<byte>>) returns (r: Outcome<nat>)
      requires Valid() && readerBuf !in bufs && Distinct(bufs)
      modifies this`pos, this`cap, inner, readerBuf, bufs
      ensures Valid()
      ensures var f := Duplex.Read(old(View()), Room(bufs));
              View() == f.s && r == Count(f.r) && Got(f.r) <= Gather(bufs)
    {
      var total := Room(bufs);
      if pos == cap && total >= readerBuf.Length {
        DiscardReaderBuffer();
        r := inner.ReadVectored(bufs);
        return;
      }
      var f := FillBuf();
      if f.Err? { return Err(f.error); }
      if f.Panic? { return Panic; }
      var size := ScatterPending(total, bufs);
      r := Ok(size);
    }

    method ScatterPending(total: nat, bufs: seq<array<byte>>) returns (size: nat)
      requires Valid() && readerBuf !in bufs && Distinct(bufs) && total == Room(bufs)
      modifies this`pos, bufs
      ensures Valid() && View() == Duplex.Consume(old(View()), total)
      ensures size == Min(total, |old(View()).pending|) && old(View()).pending[..size] <= Gather(bufs)
    {
      size := Min(total, cap - pos);
      assert readerBuf[pos..pos + size] == readerBuf[pos..cap][..size];
      Scatter(readerBuf[pos..pos + size], bufs);
      Consume(size);
    }

    /** Copy as much as there is room for out of the reader buffer. */
    method TakePending(dst: array<byte>) returns (size: nat)
      requires Valid() && dst != readerBuf
      modifies this`pos, dst
      ensures Valid() && View() == Duplex.Consume(old(View()), dst.Length)
      ensures size == Min(dst.Length, |old(View()).pending|) && dst[..size] == old(View()).pending[..size]
    {
      size := Min(dst.Length, cap - pos);
      assert readerBuf[pos..pos + size] == readerBuf[pos..cap][..size];
      Copy(readerBuf[pos..pos + size], dst);
      Consume(size);
    }

    /** One turn of `read_until`: take what is buffered up to the delimiter. */
    method ReadTurn(delim: byte) returns (r: Outcome<bool>, got: seq<byte>)
      requires Valid()
      modifies this`pos, this`cap, inner, readerBuf
      ensures Valid() && Duplex.Turn(View(), got, r) == Duplex.ReadTurn(old(View()), delim)
    {
      var f := FillBuf();
      if f.Err? { return Err(f.error), []; }
      if f.Panic? { return Panic, []; }
      var n := Duplex.Find(delim, readerBuf[pos..cap]);
      var used := if n > 0 then n else cap - pos;
      got := readerBuf[pos..cap][..used];
      Consume(used);
      r := Ok(n > 0 || used == 0);
    }

    /** The default `read_until`, turn by turn; the count it returns in the code is |got|. */
    method ReadUntil(delim: byte) returns (r: Outcome<()>, got: seq<byte>)
      requires Valid()
      modifies this`pos, this`cap, inner, readerBuf
      ensures Valid() && Duplex.Gathered(View(), got, r) == Duplex.ReadUntil(old(View()), delim)
    {
      got := [];
      ghost var all := Duplex.ReadUntil(View(), delim);
      while true
        invariant Valid()
        invariant Duplex.ReadUntil(View(), delim).Prepend(got) == all
        decreases |View().Input()|, |inner.wire.onRead|
      {
        ghost var before := View();
        Duplex.ReadUntilUnfolds(before, delim, got);
        var t, taken := ReadTurn(delim);
        match t {
          case Ok(done) =>
            got := got + taken;
            if done {
              return Ok(()), got;
            }
          case Err(e) =>
            if e != Interrupted {
              return Err(e), got;
            }
          case Panic => return Panic, got;
        }
      }
    }
  }

  method TotalLen(bufs: seq<seq<byte>>) returns (n: nat)
    ensures n == |Concat(bufs)|
  {
    n := 0;
    for i := 0 to |bufs|
      invariant n == |Concat(bufs[..i])|
    {
      ConcatSnoc(bufs, i);
      n := n + |bufs[i]|;
    }
    assert bufs[..|bufs|] == bufs;
  }

  lemma ConcatSnoc(bufs: seq<seq<byte>>, i: nat)
    requires i < |bufs|
    ensures Concat(bufs[..i + 1]) == Concat(bufs[..i]) + bufs[i]
  {
    ConcatSplit(bufs[..i], [bufs[i]]);
    assert bufs[..i + 1] == bufs[..i] + [bufs[i]];
    assert Concat([bufs[i]]) == bufs[i] + Concat([]);
  }
}
