/**
 The inner stream that the buffered wrappers sit on: anything that can be read, written and
 flushed. It is an adversary. Each call consults a script: the stream may move any prefix of
 the bytes it is offered (also none), be interrupted, fail, or panic after moving a prefix.
 A script that has run out moves everything, so that every finite interaction is some script.
 */
module Streams {

  newtype byte = b: int | 0 <= b < 256

  const NEWLINE: byte := 10

  datatype ErrorKind = Interrupted | WriteZero | Other(code: nat)

  /** What a call comes back with; Panic stands for unwinding out of the call. */
  datatype Outcome<+T> = Ok(value: T) | Err(error: ErrorKind) | Panic {
    function Without(): (r: Outcome<()>)
      ensures r.Ok? == Ok? && r.Panic? == Panic?
      ensures Err? ==> r == Err(error)
    {
      match this
      case Ok(_) => Ok(())
      case Err(e) => Err(e)
      case Panic => Panic
    }
  }

  datatype Reply = All | Take(n: nat) | Fail(error: ErrorKind) | Unwind(n: nat)

  /** One entry per call that reached the inner stream. */
  datatype Event = WriteCall(sent: nat) | FlushCall(ok: bool) | ReadCall(got: nat)

  function Min(a: nat, b: nat): nat {
    if a <= b then a else b
  }

  function Head(script: seq<Reply>): Reply {
    if script == [] then All else script[0]
  }

  function Tail(script: seq<Reply>): seq<Reply> {
    if script == [] then [] else script[1..]
  }

  /** How many of len bytes a reply moves. */
  function Portion(reply: Reply, len: nat): (k: nat)
    ensures k <= len
  {
    match reply
    case All => len
    case Take(n) => Min(n, len)
    case Unwind(n) => Min(n, len)
    case Fail(_) => 0
  }

  function Answer<T>(reply: Reply, value: T): Outcome<T> {
    match reply
    case Fail(e) => Err(e)
    case Unwind(_) => Panic
    case _ => Ok(value)
  }

  /** Retry loops end in one of three ways; sent counts the bytes the stream confirmed. */
  datatype Drained = Drained(wire: Wire, sent: nat, r: Outcome<()>) {
    /** The same, counted from n bytes earlier. */
    function After(n: nat): Drained {
      this.(sent := n + sent)
    }
  }

  /** The stream as a value: what it has received, what it still has to deliver, its scripts,
      whether it reports vectored writes, and the log of calls made to it. */
  datatype Wire = Wire(
    sunk: seq<byte>,
    source: seq<byte>,
    onWrite: seq<Reply>,
    onFlush: seq<Reply>,
    onRead: seq<Reply>,
    vectored: bool,
    log: seq<Event>)
  {
    function Write(data: seq<byte>): (Wire, Outcome<nat>) {
      var k := Portion(Head(onWrite), |data|);
      (this.(sunk := sunk + data[..k], onWrite := Tail(onWrite), log := log + [WriteCall(k)]),
       Answer(Head(onWrite), k))
    }

    function Flush(): (Wire, Outcome<()>) {
      var o := Answer(Head(onFlush), ());
      (this.(onFlush := Tail(onFlush), log := log + [FlushCall(o.Ok?)]), o)
    }

    function Read(len: nat): (r: (Wire, Outcome<seq<byte>>))
      ensures r.1.Ok? ==> |r.1.value| <= len
      ensures !r.1.Panic? ==> source == (if r.1.Ok? then r.1.value else []) + r.0.source
    {
      var k := Portion(Head(onRead), Min(len, |source|));
      (this.(source := source[k..], onRead := Tail(onRead), log := log + [ReadCall(k)]),
       Answer(Head(onRead), source[..k]))
    }

    /** Everything but the writing side is as it was in w. */
    ghost predicate OnlyWrote(w: Wire) {
      && source == w.source && onFlush == w.onFlush && onRead == w.onRead && vectored == w.vectored
      && w.log <= log
      && (forall i | |w.log| <= i < |log| :: log[i].WriteCall?)
      && (forall x | x in onWrite :: x in w.onWrite)
    }

    /** Everything but the reading side is as it was in w. */
    ghost predicate OnlyRead(w: Wire) {
      && sunk == w.sunk && onWrite == w.onWrite && onFlush == w.onFlush && vectored == w.vectored
      && w.log <= log
      && (forall i | |w.log| <= i < |log| :: log[i].ReadCall?)
    }

    /** Offer data again and again until all of it is taken: interruptions are retried, a write
        that takes nothing is an error. */
    function SendAll(data: seq<byte>): (d: Drained)
      ensures d.sent <= |data|
      ensures d.r.Ok? <==> d.sent == |data|
      ensures d.r.Err? ==> d.r.error != Interrupted
      decreases |data|, |onWrite|
    {
      if data == [] then Drained(this, 0, Ok(()))
      else
        var (w, o) := Write(data);
        match o
        case Ok(n) => if n == 0 then Drained(w, 0, Err(WriteZero)) else w.SendAll(data[n..]).After(n)
        case Err(e) => if e == Interrupted then w.SendAll(data) else Drained(w, 0, Err(e))
        case Panic => Drained(w, 0, Panic)
    }

    /** A stream that on every call takes the whole slice or fails without taking anything. */
    ghost predicate WholeOrFail() {
      forall x | x in onWrite :: x.All? || x.Fail?
    }

    /** A stream that takes every slice whole. */
    ghost predicate TakesAll() {
      forall x | x in onWrite :: x.All?
    }
  }

  lemma SendAllUnfolds(w: Wire, data: seq<byte>, before: nat)
    requires data != []
    ensures var (w', o) := w.Write(data);
            w.SendAll(data).After(before) ==
            if o.Ok? && o.value > 0 then w'.SendAll(data[o.value..]).After(before + o.value)
            else if o == Err(Interrupted) then w'.SendAll(data).After(before)
            else Drained(w', before, if o.Ok? then Err(WriteZero) else o.Without())
    ensures var (w', o) := w.Write(data);
            && (o.Ok? ==> o.value <= |data|)
            && (o == Err(Interrupted) ==> |w'.onWrite| < |w.onWrite|)
  {
  }

  lemma TakeAfterTake(a: seq<byte>, data: seq<byte>, n: nat, k: nat)
    requires n + k <= |data|
    ensures (a + data[..n]) + data[n..][..k] == a + data[..n + k]
  {
  }

  lemma TakeOfAppend(a: seq<byte>, b: seq<byte>, n: nat)
    requires n <= |a| + |b|
    ensures (a + b)[..n] == if n <= |a| then a[..n] else a + b[..n - |a|]
  {
  }

  /** The bytes that left are exactly the confirmed prefix; only a panicking call can have moved
      bytes, the next ones, that nobody confirmed. */
  lemma {:induction false} SendAllSends(w: Wire, data: seq<byte>) returns (moved: nat)
    ensures var d := w.SendAll(data);
            && d.sent <= moved <= |data|
            && d.wire.sunk == w.sunk + data[..moved]
            && (!d.r.Panic? ==> moved == d.sent)
    decreases |data|, |w.onWrite|
  {
    if data == [] {
      moved := 0;
    } else {
      var (w', o) := w.Write(data);
      if o.Ok? && o.value > 0 {
        var more := SendAllSends(w', data[o.value..]);
        moved := o.value + more;
        TakeAfterTake(w.sunk, data, o.value, more);
      } else if o == Err(Interrupted) {
        moved := SendAllSends(w', data);
      } else {
        moved := Portion(Head(w.onWrite), |data|);
      }
    }
  }

  lemma {:induction false} SendAllOnlyWrites(w: Wire, data: seq<byte>)
    ensures w.SendAll(data).wire.OnlyWrote(w)
    decreases |data|, |w.onWrite|
  {
    if data == [] {
    } else {
      var (w', o) := w.Write(data);
      if o.Ok? && o.value > 0 {
        SendAllOnlyWrites(w', data[o.value..]);
      } else if o == Err(Interrupted) {
        SendAllOnlyWrites(w', data);
      }
    }
  }

  /** Something to send means at least one call. */
  lemma SendAllCalls(w: Wire, data: seq<byte>)
    requires data != []
    ensures |w.SendAll(data).wire.log| > |w.log|
  {
    var (w', o) := w.Write(data);
    if o.Ok? && o.value > 0 {
      SendAllOnlyWrites(w', data[o.value..]);
    } else if o == Err(Interrupted) {
      SendAllOnlyWrites(w', data);
    }
  }

  lemma SendAllTakesAll(w: Wire, data: seq<byte>)
    requires w.TakesAll()
    ensures var d := w.SendAll(data); d.r.Ok? && d.sent == |data| && d.wire.sunk == w.sunk + data
    ensures w.SendAll(data).wire.TakesAll()
  {
  }

  /** Concatenation of the slices of a vectored call. */
  function Concat(bufs: seq<seq<byte>>): seq<byte> {
    if bufs == [] then [] else bufs[0] + Concat(bufs[1..])
  }

  lemma {:induction false} ConcatSplit(a: seq<seq<byte>>, b: seq<seq<byte>>)
    ensures Concat(a + b) == Concat(a) + Concat(b)
  {
    if a == [] {
      assert a + b == b;
    } else {
      ConcatSplit(a[1..], b);
      assert (a + b)[1..] == a[1..] + b;
      assert Concat(a + b) == a[0] + (Concat(a[1..]) + Concat(b));
    }
  }

  function Got(o: Outcome<seq<byte>>): seq<byte> {
    if o.Ok? then o.value else []
  }

  function Count(o: Outcome<seq<byte>>): Outcome<nat> {
    match o
    case Ok(data) => Ok(|data|)
    case Err(e) => Err(e)
    case Panic => Panic
  }

  lemma ConcatSplitAt(bufs: seq<seq<byte>>, n: nat)
    requires n <= |bufs|
    ensures Concat(bufs) == Concat(bufs[..n]) + Concat(bufs[n..])
  {
    ConcatSplit(bufs[..n], bufs[n..]);
    assert bufs == bufs[..n] + bufs[n..];
  }

  /** Overwrites the front of dst. */
  method Copy(data: seq<byte>, dst: array<byte>)
    requires |data| <= dst.Length
    modifies dst
    ensures dst[..|data|] == data && dst[|data|..] == old(dst[..])[|data|..]
  {
    for i := 0 to |data|
      invariant forall j | 0 <= j < dst.Length :: dst[j] == if j < i then data[j] else old(dst[j])
    {
      dst[i] := data[i];
    }
  }

  /** How much a vectored read has room for. */
  function Room(bufs: seq<array<byte>>): nat {
    if bufs == [] then 0 else bufs[0].Length + Room(bufs[1..])
  }

  ghost predicate Distinct(bufs: seq<array<byte>>) {
    forall i, j | 0 <= i < j < |bufs| :: bufs[i] != bufs[j]
  }

  function Gather(bufs: seq<array<byte>>): (s: seq<byte>)
    reads bufs
    ensures |s| == Room(bufs)
  {
    if bufs == [] then [] else bufs[0][..] + Gather(bufs[1..])
  }

  /** Fill the buffers one after the other until the data is used up. */
  method Scatter(data: seq<byte>, bufs: seq<array<byte>>)
    requires |data| <= Room(bufs) && Distinct(bufs)
    modifies bufs
    ensures data <= Gather(bufs)
    decreases |bufs|
  {
    if data != [] {
      var n := Min(|data|, bufs[0].Length);
      Copy(data[..n], bufs[0]);
      ghost var first := bufs[0][..];
      Scatter(data[n..], bufs[1..]);
      assert bufs[0] !in bufs[1..];
      assert bufs[0][..] == first && first[..n] == data[..n];
      TakeOfAppend(first, Gather(bufs[1..]), |data|);
    }
  }

  /** The object behind the wrappers. Its methods are the environment's, except WriteAll, which is
      the retry loop that `std::io::Write` supplies by default. */
  class InnerStream {
    var wire: Wire

    constructor (wire: Wire)
      ensures this.wire == wire
    {
      this.wire := wire;
    }

    method Write(buf: seq<byte>) returns (r: Outcome<nat>)
      modifies this
      ensures (wire, r) == old(wire).Write(buf)
    {
      var (w, o) := wire.Write(buf);
      wire, r := w, o;
    }

    method WriteVectored(bufs: seq<seq<byte>>) returns (r: Outcome<nat>)
      modifies this
      ensures (wire, r) == old(wire).Write(Concat(bufs))
    {
      r := Write(Concat(bufs));
    }

    method Flush() returns (r: Outcome<()>)
      modifies this
      ensures (wire, r) == old(wire).Flush()
    {
      var (w, o) := wire.Flush();
      wire, r := w, o;
    }

    /** Fills a prefix of dst and leaves the rest of it alone. */
    method Read(dst: array<byte>) returns (r: Outcome<nat>)
      modifies this, dst
      ensures wire == old(wire).Read(dst.Length).0
      ensures r == Count(old(wire).Read(dst.Length).1)
      ensures r.Ok? ==> r.value <= dst.Length
      ensures r.Ok? ==> dst[..r.value] == old(wire).Read(dst.Length).1.value
      ensures dst[if r.Ok? then r.value else 0..] == old(dst[..])[if r.Ok? then r.value else 0..]
    {
      var (w, o) := wire.Read(dst.Length);
      wire, r := w, Count(o);
      if o.Ok? {
        Copy(o.value, dst);
      }
    }

    method ReadVectored(bufs: seq<array<byte>>) returns (r: Outcome<nat>)
      requires Distinct(bufs)
      modifies this, bufs
      ensures wire == old(wire).Read(Room(bufs)).0
      ensures r == Count(old(wire).Read(Room(bufs)).1)
      ensures Got(old(wire).Read(Room(bufs)).1) <= Gather(bufs)
    {
      var (w, o) := wire.Read(Room(bufs));
      wire, r := w, Count(o);
      if o.Ok? {
        Scatter(o.value, bufs);
      }
    }

    method WriteAll(buf: seq<byte>) returns (r: Outcome<()>)
      modifies this
      ensures wire == old(wire).SendAll(buf).wire && r == old(wire).SendAll(buf).r
    {
      var rest := buf;
      while rest != []
        invariant wire.SendAll(rest).wire == old(wire).SendAll(buf).wire
        invariant wire.SendAll(rest).r == old(wire).SendAll(buf).r
        decreases |rest|, |wire.onWrite|
      {
        var w := Write(rest);
        match w {
          case Ok(n) =>
            if n == 0 {
              return Err(WriteZero);
            }
            rest := rest[n..];
          case Err(e) =>
            if e != Interrupted {
              return Err(e);
            }
          case Panic => return Panic;
        }
      }
      r := Ok(());
    }
  }
}
