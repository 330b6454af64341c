/**
 The promises of the reading side: nothing that was read is lost or reordered, delimiter reads do
 not depend on how the input arrives, and the inner stream is only ever read after a flush.
 */
module Reading {
  import opened Streams
  import opened Duplex
  import opened Writing

  /** t differs from s only on the reading side. */
  ghost predicate ReaderStep(s: State, t: State) {
    && t.live == s.live && t.cap == s.cap && t.rcap == s.rcap && t.buf == s.buf && t.panicked == s.panicked
    && t.wire.OnlyRead(s.wire)
    && (|s.pending| <= s.rcap ==> |t.pending| <= t.rcap)
  }

  /** What a read delivered comes off the front of the input, and nothing else does. */
  ghost predicate Delivers(s: State, got: seq<byte>, t: State) {
    ReaderStep(s, t) && got + t.Input() == s.Input()
  }

  lemma FillBufDelivers(s: State)
    ensures var f := FillBuf(s);
            if f.r.Panic? then ReaderStep(s, f.s) && f.s.pending == []
            else Delivers(s, [], f.s) && (f.r.Err? ==> f.s.pending == [])
  {
    var (w, o) := s.wire.Read(s.rcap);
    if s.pending == [] && o.Ok? {
      assert [] + (o.value + w.source) == s.pending + s.wire.source;
    }
  }

  /** The bytes passed over by consume, never more than there are. */
  lemma ConsumeDelivers(s: State, n: nat)
    ensures Delivers(s, s.pending[..Min(n, |s.pending|)], Consume(s, n))
  {
  }

  /** A read returns at most as much as there is room for; after an error nothing has gone. */
  lemma ReadDelivers(s: State, n: nat)
    ensures var f := Read(s, n);
            && ReaderStep(s, f.s)
            && |Got(f.r)| <= n
            && (!f.r.Panic? ==> Delivers(s, Got(f.r), f.s))
  {
    if s.pending == [] && n >= s.rcap {
      var (w, o) := s.wire.Read(n);
    } else {
      FillBufDelivers(s);
      ConsumeDelivers(FillBuf(s).s, n);
    }
  }

  /** One read makes one call to the inner stream if nothing is pending, and otherwise none: what is
      pending is served first. */
  lemma ReadCallsExactly(s: State, n: nat)
    ensures |Read(s, n).s.wire.log| == |s.wire.log| + (if s.pending == [] then 1 else 0)
    ensures s.pending != [] ==> Read(s, n).r == Ok(s.pending[..Min(n, |s.pending|)])
  {
  }

  function Sum(ns: seq<nat>): nat {
    if ns == [] then 0 else ns[0] + Sum(ns[1..])
  }

  /** Several reads in a row, and all they returned. */
  function ReadAll(s: State, ns: seq<nat>): (State, seq<byte>)
    decreases |ns|
  {
    if ns == [] then (s, [])
    else
      var f := Read(s, ns[0]);
      var (t, rest) := ReadAll(f.s, ns[1..]);
      (t, Got(f.r) + rest)
  }

  /** What one large inner read brought in serves any number of small reads without another call, each
      in full. */
  lemma {:induction false} SmallReadsAreServed(s: State, ns: seq<nat>)
    requires Sum(ns) <= |s.pending| && forall i | 0 <= i < |ns| :: ns[i] > 0
    ensures ReadAll(s, ns) == (s.(pending := s.pending[Sum(ns)..]), s.pending[..Sum(ns)])
    decreases |ns|
  {
    if ns == [] {
    } else {
      var n, rest := ns[0], ns[1..];
      var t := s.(pending := s.pending[n..]);
      assert Read(s, n) == Step(t, Ok(s.pending[..n]));
      SmallReadsAreServed(t, rest);
      assert s.pending[n..][Sum(rest)..] == s.pending[Sum(ns)..];
      assert s.pending[..n] + s.pending[n..][..Sum(rest)] == s.pending[..Sum(ns)];
    }
  }

  lemma Onwards(s: State, a: seq<byte>, t: State, b: seq<byte>, u: State)
    requires Delivers(s, a, t) && ReaderStep(t, u)
    ensures ReaderStep(s, u)
    ensures Delivers(t, b, u) ==> Delivers(s, a + b, u)
  {
  }

  lemma ReadTurnDelivers(s: State, delim: byte)
    ensures var t := ReadTurn(s, delim);
            && ReaderStep(s, t.s)
            && (!t.r.Panic? ==> Delivers(s, t.got, t.s))
            && (!t.r.Ok? ==> t.got == [])
  {
    FillBufDelivers(s);
    var f := FillBuf(s);
    if f.r.Ok? {
      var n := Find(delim, f.s.pending);
      var used := if n > 0 then n else |f.s.pending|;
      ConsumeDelivers(f.s, used);
      Onwards(s, [], f.s, f.s.pending[..used], Consume(f.s, used));
    }
  }

  lemma {:induction false} ReadUntilDelivers(s: State, delim: byte)
    ensures var g := ReadUntil(s, delim);
            && ReaderStep(s, g.s)
            && (!g.r.Panic? ==> Delivers(s, g.got, g.s))
    decreases |s.Input()|, |s.wire.onRead|
  {
    ReadTurnDelivers(s, delim);
    var t := ReadTurn(s, delim);
    if t.r != Ok(false) && t.r != Err(Interrupted) {
    } else {
      ReadUntilDelivers(t.s, delim);
      var g := ReadUntil(t.s, delim);
      Onwards(s, t.got, t.s, g.got, g.s);
      assert t.r.Err? ==> t.got + g.got == g.got;
    }
  }

  // ---- Delimiter reads do not depend on chunking

  function Front(n: nat, input: seq<byte>): seq<byte>
    requires n <= |input|
  {
    if n == 0 then input else input[..n]
  }

  /** The shortest prefix that ends in delim, or everything when there is none. */
  function Until(delim: byte, input: seq<byte>): seq<byte> {
    Front(Find(delim, input), input)
  }

  /** A reader that returns nothing only at the end of its input. */
  ghost predicate Honest(w: Wire) {
    forall x | x in w.onRead :: x != Take(0)
  }

  /** A reader that does nothing worse than short reads and interruptions. */
  ghost predicate Willing(w: Wire) {
    forall x | x in w.onRead :: !x.Unwind? && (x.Fail? ==> x.error == Interrupted)
  }

  lemma {:induction false} FindAppend(delim: byte, a: seq<byte>, b: seq<byte>)
    ensures Find(delim, a) > 0 ==> Find(delim, a + b) == Find(delim, a)
    ensures Find(delim, a) == 0 ==>
              Find(delim, a + b) == if Find(delim, b) == 0 then 0 else |a| + Find(delim, b)
  {
    if a == [] {
      assert a + b == b;
    } else {
      assert (a + b)[1..] == a[1..] + b;
      FindAppend(delim, a[1..], b);
    }
  }

  lemma UntilAppend(delim: byte, a: seq<byte>, b: seq<byte>)
    ensures Until(delim, a + b) == if Find(delim, a) > 0 then Until(delim, a) else a + Until(delim, b)
  {
    FindAppend(delim, a, b);
    FrontOfAppend(a, b, Find(delim, a), Find(delim, b));
  }

  lemma FrontOfAppend(a: seq<byte>, b: seq<byte>, n: nat, m: nat)
    requires n <= |a| && m <= |b|
    ensures n > 0 ==> Front(n, a + b) == Front(n, a)
    ensures n == 0 ==> Front(if m == 0 then 0 else |a| + m, a + b) == a + Front(m, b)
  {
  }

  lemma ReadHonest(w: Wire, len: nat)
    requires len > 0 && Honest(w)
    ensures var (w', o) := w.Read(len);
            && Honest(w')
            && (o == Ok([]) ==> w'.source == [])
            && (Willing(w) ==> Willing(w') && (o.Ok? || o == Err(Interrupted)))
  {
    var script := w.onRead;
    assert script != [] ==> script[0] in script && forall x | x in script[1..] :: x in script;
  }

  lemma FillBufHonest(s: State)
    requires s.rcap > 0 && Honest(s.wire)
    ensures var f := FillBuf(s);
            && Honest(f.s.wire)
            && (f.r.Ok? && f.s.pending == [] ==> f.s.Input() == [])
            && (Willing(s.wire) ==> Willing(f.s.wire) && (f.r.Ok? || f.r == Err(Interrupted)))
  {
    ReadHonest(s.wire, s.rcap);
  }

  lemma ReadTurnHonest(s: State, delim: byte)
    requires s.rcap > 0 && Honest(s.wire)
    ensures var t := ReadTurn(s, delim);
            && Honest(t.s.wire) && t.s.rcap == s.rcap
            && (Willing(s.wire) ==> Willing(t.s.wire) && (t.r.Ok? || t.r == Err(Interrupted)))
  {
    FillBufHonest(s);
  }

  /** A turn takes input up to the first delimiter, and ends the read only with the delimiter or at
      the end of the input. */
  lemma ReadTurnExact(s: State, delim: byte)
    requires s.rcap > 0 && Honest(s.wire)
    ensures var t := ReadTurn(s, delim);
            && (t.r == Ok(true) ==> t.got == Until(delim, s.Input()))
            && (t.r == Ok(false) ==> Find(delim, t.got) == 0)
  {
    FillBufHonest(s);
    FillBufDelivers(s);
    var f := FillBuf(s);
    if f.r.Ok? {
      assert f.s.Input() == s.Input();
      FirstOf(delim, f.s.pending, f.s.wire.source);
    }
  }

  lemma FirstOf(delim: byte, have: seq<byte>, rest: seq<byte>)
    ensures var n := Find(delim, have);
            && (n > 0 ==> have[..n] == Until(delim, have + rest))
            && (have == rest == [] ==> have[..|have|] == Until(delim, have + rest))
            && have[..|have|] == have
  {
    UntilAppend(delim, have, rest);
  }

  /** A successful read_until returns exactly the input up to and with the first delimiter, or all
      of it, for every reader capacity and every pattern of short reads and interruptions. With no
      other failures it does succeed. An error cannot have come after the delimiter. */
  lemma {:induction false} ReadUntilExact(s: State, delim: byte)
    requires s.rcap > 0 && Honest(s.wire)
    ensures var g := ReadUntil(s, delim);
            && (g.r.Ok? ==> g.got == Until(delim, s.Input()))
            && (g.r.Err? ==> Find(delim, g.got) == 0 && g.r.error != Interrupted)
            && (Willing(s.wire) ==> g.r.Ok?)
    decreases |s.Input()|, |s.wire.onRead|
  {
    ReadTurnHonest(s, delim);
    ReadTurnExact(s, delim);
    ReadTurnDelivers(s, delim);
    var t := ReadTurn(s, delim);
    if t.r != Ok(false) && t.r != Err(Interrupted) {
    } else {
      ReadUntilExact(t.s, delim);
      UntilAppend(delim, t.got, t.s.Input());
      FindAppend(delim, t.got, ReadUntil(t.s, delim).got);
    }
  }

  /** Two readers with the same input ahead of them, however buffered and however it arrives, get
      the same bytes and have the same input left. */
  lemma ChunkingDoesNotMatter(s: State, t: State, delim: byte)
    requires s.rcap > 0 && Honest(s.wire) && t.rcap > 0 && Honest(t.wire)
    requires s.Input() == t.Input()
    requires ReadUntil(s, delim).r.Ok? && ReadUntil(t, delim).r.Ok?
    ensures ReadUntil(s, delim).got == ReadUntil(t, delim).got
    ensures ReadUntil(s, delim).s.Input() == ReadUntil(t, delim).s.Input()
  {
    ReadUntilExact(s, delim);
    ReadUntilExact(t, delim);
    ReadUntilDelivers(s, delim);
    ReadUntilDelivers(t, delim);
    var got := ReadUntil(s, delim).got;
    assert ReadUntil(s, delim).s.Input() == s.Input()[|got|..];
    assert ReadUntil(t, delim).s.Input() == t.Input()[|got|..];
  }

  // ---- Reads come after flushes

  /** The call at i comes after a successful flush, itself no earlier than from, with nothing but reads
      in between. */
  ghost predicate FollowsFlush(log: seq<Event>, from: nat, i: nat)
    requires i < |log|
  {
    exists j | from <= j < i :: log[j] == FlushCall(true) && forall k | j < k < i :: log[k].ReadCall?
  }

  /** So do all reads made since the log was before. */
  ghost predicate ReadsFollowFlush(before: seq<Event>, after: seq<Event>) {
    && before <= after
    && forall i | |before| <= i < |after| && after[i].ReadCall? :: FollowsFlush(after, |before|, i)
  }

  /** What was so in a log stays so when it grows, and for any earlier starting point. */
  lemma FollowsFlushStays(log: seq<Event>, from: nat, log': seq<Event>, from': nat, i: nat)
    requires log <= log' && from' <= from && i < |log| && FollowsFlush(log, from, i)
    ensures FollowsFlush(log', from', i)
  {
    var j :| from <= j < i && log[j] == FlushCall(true) && forall k | j < k < i :: log[k].ReadCall?;
    assert log'[j] == FlushCall(true);
    forall k | j < k < i ensures log'[k].ReadCall? {
      assert log[k].ReadCall?;
    }
  }

  /** A successful flush has sent everything, and ends with the flush call. */
  lemma FlushSendsAll(s: State)
    requires Good(s) && Flush(s).r.Ok?
    ensures var t := Flush(s).s;
            && Good(t) && t.buf == [] && t.wire.sunk == s.Written()
            && |t.wire.log| > |s.wire.log| && t.wire.log[|t.wire.log| - 1] == FlushCall(true)
  {
    FlushAccepts(s);
    FlushBufDrains(s);
  }

  /** Anything that only reads after that reads behind the flush. */
  lemma ReadingFollowsFlush(s: State, u: State)
    requires Good(s) && Flush(s).r.Ok? && ReaderStep(Flush(s).s, u)
    ensures ReadsFollowFlush(s.wire.log, u.wire.log)
    ensures u.buf == [] && u.wire.sunk == s.Written()
  {
    FlushSendsAll(s);
    FlushAccepts(s);
    var log, j := u.wire.log, |Flush(s).s.wire.log| - 1;
    forall i | |s.wire.log| <= i < |log| && log[i].ReadCall?
      ensures FollowsFlush(log, |s.wire.log|, i)
    {
      assert log[j] == FlushCall(true);
      assert i > j;
    }
  }

  /** A public read reaches the inner stream only behind a successful flush, with everything accepted
      sent; it does not reach it at all if the flush fails. */
  lemma ReadsComeAfterFlush(s: State, n: nat)
    requires Good(s)
    ensures var t := FlushThenRead(s, n).s;
            && ReadsFollowFlush(s.wire.log, t.wire.log)
            && (Flush(s).r.Ok? ==> t.buf == [] && t.wire.sunk == s.Written())
            && (!Flush(s).r.Ok? ==> WriterStep(s, t))
  {
    FlushAccepts(s);
    var f := Flush(s);
    if f.r.Ok? {
      ReadDelivers(f.s, n);
      ReadingFollowsFlush(s, Read(f.s, n).s);
    }
  }

  lemma ReadUntilsComeAfterFlush(s: State, delim: byte)
    requires Good(s)
    ensures var t := FlushThenReadUntil(s, delim).s;
            && ReadsFollowFlush(s.wire.log, t.wire.log)
            && (Flush(s).r.Ok? ==> t.buf == [] && t.wire.sunk == s.Written())
            && (!Flush(s).r.Ok? ==> WriterStep(s, t))
  {
    FlushAccepts(s);
    var f := Flush(s);
    if f.r.Ok? {
      ReadUntilDelivers(f.s, delim);
      ReadingFollowsFlush(s, ReadUntil(f.s, delim).s);
    }
  }
}
