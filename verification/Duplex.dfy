/**
 What each operation of the buffered stack does to the state of a buffered duplex stream, written
 on values. The classes in Backend.dfy and LineWriter.dfy are proved to do exactly this; the
 promises about these functions are proved in Writing.dfy, Reading.dfy and Runs.dfy.
 */
module Duplex {
  import opened Streams
  import opened Lines

  /** wire is the inner stream and live says whether the wrapper still owns it; buf is the writer
      buffer with its fixed capacity cap; pending is the unread part of the reader buffer, whose
      size is rcap. */
  datatype State = State(
    wire: Wire,
    live: bool,
    buf: seq<byte>,
    cap: nat,
    panicked: bool,
    pending: seq<byte>,
    rcap: nat)
  {
    /** Everything the owner of the stream may believe written. */
    function Written(): seq<byte> {
      wire.sunk + buf
    }

    /** Everything still to be read. */
    function Input(): seq<byte> {
      pending + wire.source
    }
  }

  datatype Step<+T> = Step(s: State, r: Outcome<T>)

  /** The early return of an operation whose first part did not succeed. */
  function Abort<T>(f: Step<()>): (r: Step<T>)
    requires !f.r.Ok?
    ensures r.s == f.s && r.r.Without() == f.r
  {
    Step(f.s, if f.r.Err? then Err(f.r.error) else Panic)
  }

  // ---- The block-buffered writer

  function FlushBuf(s: State): Step<()> {
    var d := s.wire.SendAll(s.buf);
    Step(s.(wire := d.wire, buf := s.buf[d.sent..], panicked := if s.buf == [] then s.panicked else d.r.Panic?), d.r)
  }

  function MakeRoom(s: State, n: nat): Step<()> {
    if |s.buf| + n > s.cap then FlushBuf(s) else Step(s, Ok(()))
  }

  /** Append as much of data as fits. */
  function Keep(s: State, data: seq<byte>): State {
    s.(buf := s.buf + data[..Min(if |s.buf| <= s.cap then s.cap - |s.buf| else 0, |data|)])
  }

  function Write(s: State, data: seq<byte>): Step<nat> {
    var f := MakeRoom(s, |data|);
    if !f.r.Ok? then Abort(f)
    else if |data| >= s.cap then
      var (w, o) := f.s.wire.Write(data);
      Step(f.s.(wire := w, panicked := o.Panic?), o)
    else Step(f.s.(buf := f.s.buf + data), Ok(|data|))
  }

  function WriteAll(s: State, data: seq<byte>): Step<()> {
    var f := MakeRoom(s, |data|);
    if !f.r.Ok? then f
    else if |data| >= s.cap then
      var d := f.s.wire.SendAll(data);
      Step(f.s.(wire := d.wire, panicked := d.r.Panic?), d.r)
    else Step(f.s.(buf := f.s.buf + data), Ok(()))
  }

  function Flush(s: State): Step<()> {
    var f := FlushBuf(s);
    if !f.r.Ok? then f
    else
      var (w, o) := f.s.wire.Flush();
      Step(f.s.(wire := w), o)
  }

  /** On success the inner stream is handed out and the wrapper keeps nothing. */
  function IntoInner(s: State): Step<()> {
    var f := FlushBuf(s);
    if f.r.Ok? then Step(f.s.(live := false), Ok(())) else f
  }

  function Drop(s: State): State {
    if s.live && !s.panicked then FlushBuf(s).s else s
  }

  // ---- The line-buffered writer

  function FlushIfCompletedLine(s: State): Step<()> {
    if s.buf != [] && s.buf[|s.buf| - 1] == NEWLINE then FlushBuf(s) else Step(s, Ok(()))
  }

  function LineWrite(s: State, data: seq<byte>): Step<nat> {
    var n := LinesLen(data);
    var f := if n == 0 then FlushIfCompletedLine(s) else FlushBuf(s);
    if !f.r.Ok? then Abort(f)
    else if n == 0 then Write(f.s, data)
    else SendLines(f.s, data)
  }

  /** One write of the complete lines, then the window of what it did not take. */
  function SendLines(s: State, data: seq<byte>): Step<nat> {
    var (w, o) := s.wire.Write(data[..LinesLen(data)]);
    if o.Ok? && o.value > 0 then
      var kept := Window(s.cap, data[o.value..]);
      Step(s.(wire := w, buf := kept), Ok(o.value + |kept|))
    else Step(s.(wire := w), o)
  }

  function LineWriteAll(s: State, data: seq<byte>): Step<()> {
    var n := LinesLen(data);
    if n == 0 then
      var f := FlushIfCompletedLine(s);
      if !f.r.Ok? then f else WriteAll(f.s, data)
    else
      var f := LinesAll(s, data[..n]);
      if !f.r.Ok? then f else WriteAll(f.s, data[n..])
  }

  /** Send lines, together with whatever is buffered before them. */
  function LinesAll(s: State, lines: seq<byte>): Step<()> {
    if s.buf == [] then
      var d := s.wire.SendAll(lines);
      Step(s.(wire := d.wire), d.r)
    else
      var f := WriteAll(s, lines);
      if !f.r.Ok? then f else FlushBuf(f.s)
  }

  /** How many slices there are up to and including the last one with a newline in it. */
  function LineSlices(bufs: seq<seq<byte>>): (n: nat)
    ensures n <= |bufs|
    ensures n > 0 ==> NEWLINE in bufs[n - 1]
    ensures forall i | n <= i < |bufs| :: NEWLINE !in bufs[i]
  {
    if bufs == [] then 0
    else if NEWLINE in bufs[|bufs| - 1] then |bufs|
    else LineSlices(bufs[..|bufs| - 1])
  }

  /** The first slice with something in it, or nothing if all are empty. */
  function FirstNonEmpty(bufs: seq<seq<byte>>): (b: seq<byte>)
    ensures b <= Concat(bufs)
    ensures b == [] ==> Concat(bufs) == []
    ensures b != [] ==> exists i | 0 <= i < |bufs| :: bufs[i] == b && forall j | 0 <= j < i :: bufs[j] == []
  {
    if bufs == [] then []
    else if bufs[0] != [] then bufs[0]
    else
      var b := FirstNonEmpty(bufs[1..]);
      assert b != [] ==> exists i | 1 <= i < |bufs| :: bufs[i] == b && forall j | 0 <= j < i :: bufs[j] == [] by {
        if b != [] {
          var i :| 0 <= i < |bufs| - 1 && bufs[1..][i] == b && forall j | 0 <= j < i :: bufs[1..][j] == [];
          assert bufs[i + 1] == b;
          assert forall j | 1 <= j < i + 1 :: bufs[j] == bufs[1..][j - 1];
        }
      }
      b
  }

  /** canVector: the build can ask the inner stream whether it has vectored writes of its own; if
      it has none, only the first non-empty slice is written. */
  function LineWriteVectored(s: State, canVector: bool, bufs: seq<seq<byte>>): Step<nat> {
    if canVector && !s.wire.vectored then FallBack(s, FirstNonEmpty(bufs))
    else
      var n := LineSlices(bufs);
      LineWriteSlices(s, n > 0, Concat(bufs[..n]), Concat(bufs[n..]))
  }

  function FallBack(s: State, first: seq<byte>): Step<nat> {
    if first == [] then Step(s, Ok(0)) else LineWrite(s, first)
  }

  /** lines are the bytes of the slices up to the last one with a newline, if there is one. */
  function LineWriteSlices(s: State, complete: bool, lines: seq<byte>, rest: seq<byte>): Step<nat> {
    var f := if complete then FlushBuf(s) else FlushIfCompletedLine(s);
    if !f.r.Ok? then Abort(f)
    else if !complete then Write(f.s, lines + rest)
    else SendSlices(f.s, lines, rest)
  }

  /** One write of the slices with lines in them; if it took them whole, as much of the rest is
      buffered as fits. */
  function SendSlices(s: State, lines: seq<byte>, rest: seq<byte>): Step<nat> {
    var (w, o) := s.wire.Write(lines);
    if o.Ok? && o.value == |lines| then
      var kept := Keep(s.(wire := w), rest);
      Step(kept, Ok(|lines| + |kept.buf|))
    else Step(s.(wire := w), o)
  }

  // ---- The buffered reader

  function FillBuf(s: State): Step<()> {
    if s.pending != [] then Step(s, Ok(()))
    else
      var (w, o) := s.wire.Read(s.rcap);
      Step(s.(wire := w, pending := if o.Ok? then o.value else []), o.Without())
  }

  function Consume(s: State, n: nat): State {
    s.(pending := s.pending[Min(n, |s.pending|)..])
  }

  /** Read into room for n bytes. */
  function Read(s: State, n: nat): Step<seq<byte>> {
    if s.pending == [] && n >= s.rcap then
      var (w, o) := s.wire.Read(n);
      Step(s.(wire := w), o)
    else
      var f := FillBuf(s);
      if !f.r.Ok? then Abort(f)
      else Step(Consume(f.s, n), Ok(f.s.pending[..Min(n, |f.s.pending|)]))
  }

  /** One past the first delim in s, or 0 when there is none. */
  function Find(delim: byte, s: seq<byte>): (n: nat)
    ensures n <= |s|
    ensures n > 0 ==> s[n - 1] == delim
    ensures forall i | 0 <= i < (if n == 0 then |s| else n - 1) :: s[i] != delim
  {
    if s == [] then 0
    else if s[0] == delim then 1
    else
      var n := Find(delim, s[1..]);
      if n == 0 then 0 else n + 1
  }

  datatype Gathered = Gathered(s: State, got: seq<byte>, r: Outcome<()>) {
    function Prepend(more: seq<byte>): Gathered {
      this.(got := more + got)
    }
  }

  /** One turn of a delimiter read: fill the buffer and take what is there up to the delimiter. It
      was the last turn if the delimiter was taken or there was nothing to take. */
  datatype Turn = Turn(s: State, got: seq<byte>, r: Outcome<bool>)

  function ReadTurn(s: State, delim: byte): (t: Turn)
    ensures t.r == Ok(false) ==> |t.s.Input()| < |s.Input()|
    ensures t.r.Err? ==> t.got == [] && |t.s.Input()| == |s.Input()|
    ensures t.r == Err(Interrupted) ==> |t.s.wire.onRead| < |s.wire.onRead|
  {
    var f := FillBuf(s);
    match f.r
    case Err(e) => Turn(f.s, [], Err(e))
    case Panic => Turn(f.s, [], Panic)
    case Ok(_) =>
      var n := Find(delim, f.s.pending);
      var used := if n > 0 then n else |f.s.pending|;
      Turn(Consume(f.s, used), f.s.pending[..used], Ok(n > 0 || used == 0))
  }

  /** Interruptions are retried; other failures keep what was got. */
  function ReadUntil(s: State, delim: byte): (g: Gathered)
    decreases |s.Input()|, |s.wire.onRead|
  {
    var t := ReadTurn(s, delim);
    match t.r
    case Ok(done) =>
      if done then Gathered(t.s, t.got, Ok(()))
      else ReadUntil(t.s, delim).Prepend(t.got)
    case Err(e) => if e == Interrupted then ReadUntil(t.s, delim) else Gathered(t.s, [], Err(e))
    case Panic => Gathered(t.s, [], Panic)
  }

  lemma ReadUntilUnfolds(s: State, delim: byte, got: seq<byte>)
    ensures var t := ReadTurn(s, delim);
            ReadUntil(s, delim).Prepend(got) ==
            if t.r == Ok(false) || t.r == Err(Interrupted) then ReadUntil(t.s, delim).Prepend(got + t.got)
            else Gathered(t.s, got + t.got, t.r.Without())
  {
    var t := ReadTurn(s, delim);
    if t.r == Ok(false) || t.r == Err(Interrupted) {
      var g := ReadUntil(t.s, delim).got;
      assert (got + t.got) + g == got + (t.got + g);
      assert t.r.Err? ==> t.got + g == g;
    }
  }

  // ---- The public readers, which flush the writer first

  function FlushThenRead(s: State, n: nat): Step<seq<byte>> {
    var f := Flush(s);
    if !f.r.Ok? then Abort(f) else Read(f.s, n)
  }

  function FlushThenReadUntil(s: State, delim: byte): Gathered {
    var f := Flush(s);
    if !f.r.Ok? then Gathered(f.s, [], f.r) else ReadUntil(f.s, delim)
  }
}
