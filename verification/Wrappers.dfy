/**
 The two public wrappers. Each method performs one operation of a run, so that what is proved of all
 runs in Runs.dfy is proved of all sequences of calls to these objects.
 */
module Wrappers {
  import opened Streams
  import Duplex
  import opened Backend
  import opened LineWriter
  import opened Runs

  class BufReaderWriter {
    const inner: BufReaderWriterBackend

    constructor WithCapacities(readerCapacity: nat, writerCapacity: nat, stream: InnerStream)
      ensures fresh(inner) && inner.Valid() && inner.inner == stream && fresh(inner.readerBuf)
      ensures Inv(Block, inner.View()) && inner.View().Written() == stream.wire.sunk
      ensures inner.View().Input() == stream.wire.source
    {
      inner := new BufReaderWriterBackend.WithCapacities(readerCapacity, writerCapacity, stream);
    }

    method Write(data: seq<byte>) returns (r: Outcome<nat>)
      requires inner.Valid()
      modifies inner`writerBuf, inner`panicked, inner.inner
      ensures inner.Valid()
      ensures Effect(inner.View(), r, []) == Apply(Block, old(inner.View()), Op.Write(data))
    {
      ghost var f := Duplex.Write(inner.View(), data);
      assert Apply(Block, inner.View(), Op.Write(data)) == Effect(f.s, f.r, []);
      r := inner.Write(data);
    }

    method WriteAll(data: seq<byte>) returns (r: Outcome<()>)
      requires inner.Valid()
      modifies inner`writerBuf, inner`panicked, inner.inner
      ensures inner.Valid()
      ensures Finished(Duplex.Step(inner.View(), r)) == Apply(Block, old(inner.View()), Op.WriteAll(data))
    {
      assert Apply(Block, inner.View(), Op.WriteAll(data)) == Finished(Duplex.WriteAll(inner.View(), data));
      r := inner.WriteAll(data);
    }

    method WriteVectored(bufs: seq<seq<byte>>) returns (r: Outcome<nat>)
      requires inner.Valid()
      modifies inner`writerBuf, inner`panicked, inner.inner
      ensures inner.Valid()
      ensures Effect(inner.View(), r, []) == Apply(Block, old(inner.View()), Op.WriteVectored(bufs))
    {
      ghost var f := Duplex.Write(inner.View(), Concat(bufs));
      assert Apply(Block, inner.View(), Op.WriteVectored(bufs)) == Effect(f.s, f.r, []);
      r := inner.WriteVectored(bufs);
    }

    method Flush() returns (r: Outcome<()>)
      requires inner.Valid()
      modifies inner`writerBuf, inner`panicked, inner.inner
      ensures inner.Valid()
      ensures Finished(Duplex.Step(inner.View(), r)) == Apply(Block, old(inner.View()), Op.Flush)
    {
      assert Apply(Block, inner.View(), Op.Flush) == Finished(Duplex.Flush(inner.View()));
      r := inner.Flush();
    }

    /** Flush the writer half before reading. */
    method Read(dst: array<byte>) returns (r: Outcome<nat>)
      requires inner.Valid() && dst != inner.readerBuf
      modifies inner, inner.inner, inner.readerBuf, dst
      ensures inner.Valid() && inner.inner == old(inner.inner)
      ensures var e := Apply(Block, old(inner.View()), Op.Read(dst.Length));
              && inner.View() == e.s && r.Without() == e.r.Without()
              && (r.Ok? ==> r.value == |e.got| <= dst.Length && dst[..r.value] == e.got)
    {
      var f := inner.Flush();
      if f.Err? { return Err(f.error); }
      if f.Panic? { return Panic; }
      r := inner.Read(dst);
    }

    method ReadVectored(bufs: seq<array<byte>>) returns (r: Outcome<nat>)
      requires inner.Valid() && inner.readerBuf !in bufs && Distinct(bufs)
      modifies inner, inner.inner, inner.readerBuf, bufs
      ensures inner.Valid() && inner.inner == old(inner.inner)
      ensures var e := Apply(Block, old(inner.View()), Op.Read(Room(bufs)));
              && inner.View() == e.s && r.Without() == e.r.Without()
              && (r.Ok? ==> r.value == |e.got| && e.got <= Gather(bufs))
    {
      var f := inner.Flush();
      if f.Err? { return Err(f.error); }
      if f.Panic? { return Panic; }
      r := inner.ReadVectored(bufs);
    }

    method ReadUntil(delim: byte) returns (r: Outcome<()>, got: seq<byte>)
      requires inner.Valid()
      modifies inner, inner.inner, inner.readerBuf
      ensures inner.Valid() && inner.inner == old(inner.inner)
      ensures var e := Apply(Block, old(inner.View()), Op.ReadUntil(delim));
              inner.View() == e.s && r.Without() == e.r.Without() && got == e.got
    {
      r := inner.Flush();
      if !r.Ok? { return r, []; }
      r, got := inner.ReadUntil(delim);
    }

    /** Does not flush the writer half. */
    method FillBuf() returns (r: Outcome<()>)
      requires inner.Valid()
      modifies inner`pos, inner`cap, inner.inner, inner.readerBuf
      ensures inner.Valid()
      ensures Finished(Duplex.Step(inner.View(), r)) == Apply(Block, old(inner.View()), Op.FillBuf)
    {
      assert Apply(Block, inner.View(), Op.FillBuf) == Finished(Duplex.FillBuf(inner.View()));
      r := inner.FillBuf();
    }

    method Consume(amount: nat)
      requires inner.Valid()
      modifies inner`pos
      ensures inner.Valid()
      ensures inner.View() == Apply(Block, old(inner.View()), Op.Consume(amount)).s
    {
      assert Apply(Block, inner.View(), Op.Consume(amount)).s == Duplex.Consume(inner.View(), amount);
      inner.Consume(amount);
    }

    method IntoInner() returns (r: Outcome<InnerStream>)
      requires inner.Valid()
      modifies inner, inner.inner
      ensures var e := Apply(Block, old(inner.View()), Op.IntoInner);
              && r.Without() == e.r.Without()
              && old(inner.inner).wire == e.s.wire && inner.writerBuf == e.s.buf
              && (if r.Ok? then r.value == old(inner.inner) && inner.inner == null
                  else inner.Valid() && inner.View() == e.s)
    {
      assert Apply(Block, inner.View(), Op.IntoInner) == Finished(Duplex.IntoInner(inner.View()));
      r := inner.IntoInner();
    }
  }

  class BufReaderLineWriter {
    const inner: BufReaderWriterBackend
    const canVector: bool

    constructor WithCapacities(readerCapacity: nat, writerCapacity: nat, stream: InnerStream, canVector: bool)
      ensures fresh(inner) && inner.Valid() && inner.inner == stream && fresh(inner.readerBuf)
      ensures Inv(LineBuffered(this.canVector), inner.View()) && inner.View().Written() == stream.wire.sunk
      ensures inner.View().Input() == stream.wire.source && this.canVector == canVector
    {
      inner := new BufReaderWriterBackend.WithCapacities(readerCapacity, writerCapacity, stream);
      this.canVector := canVector;
    }

    method Write(data: seq<byte>) returns (r: Outcome<nat>)
      requires inner.Valid()
      modifies inner`writerBuf, inner`panicked, inner.inner
      ensures inner.Valid()
      ensures Effect(inner.View(), r, []) == Apply(LineBuffered(canVector), old(inner.View()), Op.Write(data))
    {
      ghost var f := Duplex.LineWrite(inner.View(), data);
      assert Apply(LineBuffered(canVector), inner.View(), Op.Write(data)) == Effect(f.s, f.r, []);
      var shim := new BufReaderLineWriterShim(inner);
      r := shim.Write(data);
    }

    method WriteAll(data: seq<byte>) returns (r: Outcome<()>)
      requires inner.Valid()
      modifies inner`writerBuf, inner`panicked, inner.inner
      ensures inner.Valid()
      ensures Finished(Duplex.Step(inner.View(), r)) ==
              Apply(LineBuffered(canVector), old(inner.View()), Op.WriteAll(data))
    {
      ghost var f := Duplex.LineWriteAll(inner.View(), data);
      assert Apply(LineBuffered(canVector), inner.View(), Op.WriteAll(data)) == Finished(f);
      var shim := new BufReaderLineWriterShim(inner);
      r := shim.WriteAll(data);
    }

    method WriteVectored(bufs: seq<seq<byte>>) returns (r: Outcome<nat>)
      requires inner.Valid()
      modifies inner`writerBuf, inner`panicked, inner.inner
      ensures inner.Valid()
      ensures Effect(inner.View(), r, []) == Apply(LineBuffered(canVector), old(inner.View()), Op.WriteVectored(bufs))
    {
      ghost var f := Duplex.LineWriteVectored(inner.View(), canVector, bufs);
      assert Apply(LineBuffered(canVector), inner.View(), Op.WriteVectored(bufs)) == Effect(f.s, f.r, []);
      var shim := new BufReaderLineWriterShim(inner);
      r := shim.WriteVectored(canVector, bufs);
    }

    method Flush() returns (r: Outcome<()>)
      requires inner.Valid()
      modifies inner`writerBuf, inner`panicked, inner.inner
      ensures inner.Valid()
      ensures Finished(Duplex.Step(inner.View(), r)) == Apply(LineBuffered(canVector), old(inner.View()), Op.Flush)
    {
      assert Apply(LineBuffered(canVector), inner.View(), Op.Flush) == Finished(Duplex.Flush(inner.View()));
      r := inner.Flush();
    }

    /** Flush the writer half before reading. */
    method Read(dst: array<byte>) returns (r: Outcome<nat>)
      requires inner.Valid() && dst != inner.readerBuf
      modifies inner, inner.inner, inner.readerBuf, dst
      ensures inner.Valid() && inner.inner == old(inner.inner)
      ensures var e := Apply(LineBuffered(canVector), old(inner.View()), Op.Read(dst.Length));
              && inner.View() == e.s && r.Without() == e.r.Without()
              && (r.Ok? ==> r.value == |e.got| <= dst.Length && dst[..r.value] == e.got)
    {
      var f := inner.Flush();
      if f.Err? { return Err(f.error); }
      if f.Panic? { return Panic; }
      r := inner.Read(dst);
    }

    method ReadVectored(bufs: seq<array<byte>>) returns (r: Outcome<nat>)
      requires inner.Valid() && inner.readerBuf !in bufs && Distinct(bufs)
      modifies inner, inner.inner, inner.readerBuf, bufs
      ensures inner.Valid() && inner.inner == old(inner.inner)
      ensures var e := Apply(LineBuffered(canVector), old(inner.View()), Op.Read(Room(bufs)));
              && inner.View() == e.s && r.Without() == e.r.Without()
              && (r.Ok? ==> r.value == |e.got| && e.got <= Gather(bufs))
    {
      var f := inner.Flush();
      if f.Err? { return Err(f.error); }
      if f.Panic? { return Panic; }
      r := inner.ReadVectored(bufs);
    }

    method ReadUntil(delim: byte) returns (r: Outcome<()>, got: seq<byte>)
      requires inner.Valid()
      modifies inner, inner.inner, inner.readerBuf
      ensures inner.Valid() && inner.inner == old(inner.inner)
      ensures var e := Apply(LineBuffered(canVector), old(inner.View()), Op.ReadUntil(delim));
              inner.View() == e.s && r.Without() == e.r.Without() && got == e.got
    {
      r := inner.Flush();
      if !r.Ok? { return r, []; }
      r, got := inner.ReadUntil(delim);
    }

    /** Does not flush the writer half. */
    method FillBuf() returns (r: Outcome<()>)
      requires inner.Valid()
      modifies inner`pos, inner`cap, inner.inner, inner.readerBuf
      ensures inner.Valid()
      ensures Finished(Duplex.Step(inner.View(), r)) == Apply(LineBuffered(canVector), old(inner.View()), Op.FillBuf)
    {
      assert Apply(LineBuffered(canVector), inner.View(), Op.FillBuf) == Finished(Duplex.FillBuf(inner.View()));
      r := inner.FillBuf();
    }

    method Consume(amount: nat)
      requires inner.Valid()
      modifies inner`pos
      ensures inner.Valid()
      ensures inner.View() == Apply(LineBuffered(canVector), old(inner.View()), Op.Consume(amount)).s
    {
      assert Apply(LineBuffered(canVector), inner.View(), Op.Consume(amount)).s == Duplex.Consume(inner.View(), amount);
      inner.Consume(amount);
    }

    method IntoInner() returns (r: Outcome<InnerStream>)
      requires inner.Valid()
      modifies inner, inner.inner
      ensures var e := Apply(LineBuffered(canVector), old(inner.View()), Op.IntoInner);
              && r.Without() == e.r.Without()
              && old(inner.inner).wire == e.s.wire && inner.writerBuf == e.s.buf
              && (if r.Ok? then r.value == old(inner.inner) && inner.inner == null
                  else inner.Valid() && inner.View() == e.s)
    {
      assert Apply(LineBuffered(canVector), inner.View(), Op.IntoInner) == Finished(Duplex.IntoInner(inner.View()));
      r := inner.IntoInner();
    }
  }
}
