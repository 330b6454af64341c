/**
 The lockers that keep a process' stdin and stdout for one owner. A locker is claimed with an atomic
 flag; a thread of its own then takes the standard library's lock and parks. Dropping the locker
 unparks that thread, joins it and only then clears the flag. Any number of clients create and drop
 lockers, and the threads and the rest of the program run at the same time, in any order.
 */
module Lockers {

  // ---- One stream

  /** The locker's thread: not yet in possession of the lock, parked with it, or returned. */
  datatype Thread = Starting | Holding | Exited

  /** How far a client is with its locker: none; claimed and about to spawn; a live locker; unparked
      and about to join; joined and about to clear the flag. */
  datatype Session = Out | Claimed | Live(thread: Thread) | Unparked(thread: Thread) | Joined

  /** Who holds the standard library's lock: nobody, a locker's thread, or other code. */
  datatype Lock = Free | Locker(owner: nat) | Other

  /** leaks counts the spawns that failed and left the flag set. */
  datatype Lane = Lane(claimed: bool, lock: Lock, sessions: seq<Session>, leaks: nat)

  datatype Step =
    | Claim(i: nat)
    | Spawn(i: nat, ok: bool)
    | Take(i: nat)
    | Unpark(i: nat)
    | Exit(i: nat)
    | Join(i: nat)
    | Clear(i: nat)
    | OtherTakes
    | OtherReleases

  predicate At(l: Lane, i: nat, s: Session) {
    i < |l.sessions| && l.sessions[i] == s
  }

  predicate Ready(l: Lane, t: Step) {
    match t
    case Claim(i) => At(l, i, Out)
    case Spawn(i, _) => At(l, i, Claimed)
    case Take(i) => (At(l, i, Live(Starting)) || At(l, i, Unparked(Starting))) && l.lock == Free
    case Unpark(i) => i < |l.sessions| && l.sessions[i].Live?
    case Exit(i) => At(l, i, Unparked(Holding))
    case Join(i) => At(l, i, Unparked(Exited))
    case Clear(i) => At(l, i, Joined)
    case OtherTakes => l.lock == Free
    case OtherReleases => l.lock == Other
  }

  /** A claim compares and swaps; if the flag was set, new returns an error and nothing changes. If
      the thread cannot be spawned, new returns an error too, but the flag stays set. A parked
      thread only goes on when it has been unparked, and lets go of the lock as it returns. */
  function Next(l: Lane, t: Step): Lane
    requires Ready(l, t)
  {
    match t
    case Claim(i) => if l.claimed then l else l.(claimed := true, sessions := l.sessions[i := Claimed])
    case Spawn(i, ok) =>
      if ok then l.(sessions := l.sessions[i := Live(Starting)])
      else l.(sessions := l.sessions[i := Out], leaks := l.leaks + 1)
    case Take(i) =>
      l.(lock := Locker(i),
         sessions := l.sessions[i := if l.sessions[i].Live? then Live(Holding) else Unparked(Holding)])
    case Unpark(i) => l.(sessions := l.sessions[i := Unparked(l.sessions[i].thread)])
    case Exit(i) => l.(lock := Free, sessions := l.sessions[i := Unparked(Exited)])
    case Join(i) => l.(sessions := l.sessions[i := Joined])
    case Clear(i) => l.(claimed := false, sessions := l.sessions[i := Out])
    case OtherTakes => l.(lock := Other)
    case OtherReleases => l.(lock := Free)
  }

  predicate HoldsLock(s: Session) {
    s == Live(Holding) || s == Unparked(Holding)
  }

  /** A locker's thread is running. */
  predicate ThreadAlive(s: Session) {
    (s.Live? || s.Unparked?) && s.thread != Exited
  }

  predicate Engaged(l: Lane, i: nat) {
    i < |l.sessions| && l.sessions[i] != Out
  }

  /** The flag is set exactly while the one locker there may be is engaged, or once a spawn has leaked it. */
  ghost predicate OneOwner(l: Lane) {
    && (forall i, j :: Engaged(l, i) && Engaged(l, j) ==> i == j)
    && (forall i :: Engaged(l, i) ==> l.claimed && l.leaks == 0)
    && (l.leaks > 0 ==> l.claimed)
    && (l.claimed && l.leaks == 0 ==> exists i :: Engaged(l, i))
  }

  ghost predicate Inv(l: Lane) {
    && OneOwner(l)
    && (l.lock.Locker? ==> l.lock.owner < |l.sessions| && HoldsLock(l.sessions[l.lock.owner]))
    && (forall i | 0 <= i < |l.sessions| :: HoldsLock(l.sessions[i]) ==> l.lock == Locker(i))
    && (forall i | 0 <= i < |l.sessions| :: l.sessions[i] != Live(Exited))
  }

  lemma NextKeeps(l: Lane, t: Step)
    requires Inv(l) && Ready(l, t)
    ensures Inv(Next(l, t))
  {
    var m := Next(l, t);
    match t {
      case Claim(i) =>
        assert forall j :: Engaged(m, j) ==> Engaged(l, j) || j == i;
        assert m.claimed && !l.claimed ==> Engaged(m, i);
      case Spawn(i, ok) =>
        assert Engaged(l, i);
        assert forall j :: Engaged(m, j) ==> Engaged(l, j);
        assert ok ==> Engaged(m, i);
      case Clear(i) => assert Engaged(l, i) && forall j :: Engaged(m, j) ==> Engaged(l, j);
      case _ => StillOneOwner(l, m);
    }
  }

  lemma StillOneOwner(l: Lane, m: Lane)
    requires OneOwner(l) && m.claimed == l.claimed && m.leaks == l.leaks
    requires forall i :: Engaged(m, i) <==> Engaged(l, i)
    ensures OneOwner(m)
  {
    if i :| Engaged(l, i) {
      assert Engaged(m, i);
    }
  }

  predicate AllReady(l: Lane, steps: seq<Step>)
    decreases |steps|
  {
    steps != [] ==> Ready(l, steps[0]) && AllReady(Next(l, steps[0]), steps[1..])
  }

  function Run(l: Lane, steps: seq<Step>): Lane
    requires AllReady(l, steps)
    decreases |steps|
  {
    if steps == [] then l else Run(Next(l, steps[0]), steps[1..])
  }

  function Fresh(clients: nat): Lane {
    Lane(false, Free, seq(clients, _ => Out), 0)
  }

  lemma {:induction false} RunKeeps(l: Lane, steps: seq<Step>)
    requires Inv(l) && AllReady(l, steps)
    ensures Inv(Run(l, steps))
    decreases |steps|
  {
    if steps == [] {
    } else {
      NextKeeps(l, steps[0]);
      RunKeeps(Next(l, steps[0]), steps[1..]);
    }
  }

  /** For any number of clients, in every interleaving: there is never more than one locker; and when
      the flag is clear, no locker's thread is running or holds the lock. */
  lemma Exclusion(clients: nat, steps: seq<Step>)
    requires AllReady(Fresh(clients), steps)
    ensures var l := Run(Fresh(clients), steps);
            && (forall i, j | 0 <= i < |l.sessions| && 0 <= j < |l.sessions| ::
                  l.sessions[i] != Out && l.sessions[j] != Out ==> i == j)
            && (!l.claimed ==>
                  && !l.lock.Locker?
                  && forall i | 0 <= i < |l.sessions| :: l.sessions[i] == Out && !ThreadAlive(l.sessions[i]))
  {
    assert forall i :: !Engaged(Fresh(clients), i);
    RunKeeps(Fresh(clients), steps);
    var l := Run(Fresh(clients), steps);
    assert forall i | 0 <= i < |l.sessions| :: l.sessions[i] != Out ==> Engaged(l, i);
  }

  /** Other code gets the lock whenever nobody has it, so nothing but the lockers keeps it out; a client
      without a locker can try for one at any time, and one with a live locker can drop it. */
  lemma NothingElseIsInTheWay(l: Lane, i: nat)
    ensures Ready(l, OtherTakes) <==> l.lock == Free
    ensures Ready(l, OtherTakes) ==> Next(Next(l, OtherTakes), OtherReleases) == l
    ensures i < |l.sessions| ==>
              && (Ready(l, Claim(i)) <==> l.sessions[i] == Out)
              && (Ready(l, Unpark(i)) <==> l.sessions[i].Live?)
  {
  }

  /** A live locker stays live until its client unparks it, and once its thread has the lock it keeps it
      for as long, whatever everybody else does: no other code gets at the stream. */
  lemma {:induction false} LiveUntilUnparked(l: Lane, i: nat, steps: seq<Step>)
    requires Inv(l) && i < |l.sessions| && l.sessions[i].Live? && AllReady(l, steps)
    requires Unpark(i) !in steps
    ensures var m := Run(l, steps);
            && |m.sessions| == |l.sessions| && m.sessions[i].Live?
            && (l.sessions[i] == Live(Holding) || Take(i) in steps ==>
                  m.sessions[i] == Live(Holding) && m.lock == Locker(i) && !Ready(m, OtherTakes))
    decreases |steps|
  {
    if steps == [] {
    } else {
      NextKeeps(l, steps[0]);
      StaysLive(l, i, steps[0]);
      LiveUntilUnparked(Next(l, steps[0]), i, steps[1..]);
      assert Take(i) in steps ==> steps[0] == Take(i) || Take(i) in steps[1..];
      assert Inv(l) && l.sessions[i] == Live(Holding) ==> l.lock == Locker(i);
    }
  }

  lemma StaysLive(l: Lane, i: nat, t: Step)
    requires Inv(l) && i < |l.sessions| && l.sessions[i].Live? && Ready(l, t) && t != Unpark(i)
    ensures var m := Next(l, t);
            && |m.sessions| == |l.sessions| && m.sessions[i].Live?
            && (l.sessions[i] == Live(Holding) || t == Take(i) ==>
                  m.sessions[i] == Live(Holding) && m.lock == Locker(i))
  {
    assert Engaged(l, i);
  }

  /** From the claim on: the thread of a new locker can take the lock as soon as nobody has it, and from
      then on nobody else gets it until the locker is dropped. */
  lemma NewLockerTakesTheLock(l: Lane, i: nat, before: seq<Step>, after: seq<Step>)
    requires Inv(l) && At(l, i, Claimed)
    requires AllReady(Next(l, Spawn(i, true)), before) && Unpark(i) !in before && Take(i) !in before
    ensures Inv(Run(Next(l, Spawn(i, true)), before))
    ensures var m := Run(Next(l, Spawn(i, true)), before);
            && At(m, i, Live(Starting)) && (m.lock == Free <==> Ready(m, Take(i)))
            && (m.lock == Free && AllReady(Next(m, Take(i)), after) && Unpark(i) !in after ==>
                  Run(Next(m, Take(i)), after).lock == Locker(i) && !Ready(Run(Next(m, Take(i)), after), OtherTakes))
  {
    var s := Next(l, Spawn(i, true));
    NextKeeps(l, Spawn(i, true));
    RunKeeps(s, before);
    StartsUntilTaken(s, i, before);
    var m := Run(s, before);
    if m.lock == Free && AllReady(Next(m, Take(i)), after) && Unpark(i) !in after {
      NextKeeps(m, Take(i));
      LiveUntilUnparked(Next(m, Take(i)), i, after);
    }
  }

  lemma {:induction false} StartsUntilTaken(l: Lane, i: nat, steps: seq<Step>)
    requires Inv(l) && At(l, i, Live(Starting)) && AllReady(l, steps)
    requires Unpark(i) !in steps && Take(i) !in steps
    ensures At(Run(l, steps), i, Live(Starting))
    decreases |steps|
  {
    if steps == [] {
    } else {
      NextKeeps(l, steps[0]);
      assert Engaged(l, i);
      StartsUntilTaken(Next(l, steps[0]), i, steps[1..]);
    }
  }

  /** A locker's thread lets go of the lock only as it returns, and it returns only after it has been
      unparked. */
  lemma LockLeftOnlyByExit(l: Lane, i: nat, t: Step)
    requires Inv(l) && l.lock == Locker(i) && Ready(l, t)
    ensures Next(l, t).lock == Locker(i) || (t == Exit(i) && l.sessions[i] == Unparked(Holding))
  {
    assert Engaged(l, i);
  }

  lemma ExitOnlyAfterUnpark(l: Lane, i: nat, steps: seq<Step>)
    requires Inv(l) && i < |l.sessions| && l.sessions[i].Live? && AllReady(l, steps + [Exit(i)])
    ensures Unpark(i) in steps
  {
    if Unpark(i) !in steps {
      ReadySplits(l, steps, Exit(i));
      LiveUntilUnparked(l, i, steps);
    }
  }

  lemma {:induction false} ReadySplits(l: Lane, steps: seq<Step>, t: Step)
    requires AllReady(l, steps + [t])
    ensures AllReady(l, steps) && Ready(Run(l, steps), t)
    decreases |steps|
  {
    if steps == [] {
      assert steps + [t] == [t];
    } else {
      assert (steps + [t])[1..] == steps[1..] + [t];
      ReadySplits(Next(l, steps[0]), steps[1..], t);
    }
  }

  /** When new fails: exactly when somebody has a locker, or a spawn has failed before. */
  lemma ClaimFailsExactly(l: Lane, i: nat)
    requires Inv(l) && Ready(l, Claim(i))
    ensures Next(l, Claim(i)) == l <==> (exists j :: Engaged(l, j)) || l.leaks > 0
    ensures Next(l, Claim(i)) != l ==> At(Next(l, Claim(i)), i, Claimed)
  {
  }

  /** After a spawn has failed there is never a locker again. */
  lemma {:induction false} LeakIsForever(l: Lane, steps: seq<Step>)
    requires Inv(l) && l.leaks > 0 && AllReady(l, steps)
    ensures Run(l, steps).leaks > 0 && forall i :: !Engaged(Run(l, steps), i)
    decreases |steps|
  {
    if steps == [] {
    } else {
      NextKeeps(l, steps[0]);
      LeakIsForever(Next(l, steps[0]), steps[1..]);
    }
  }

  /** It does happen, with one client: the flag is set and nobody has a locker. */
  lemma SpawnFailureLeaks()
    ensures var steps := [Claim(0), Spawn(0, false)];
            && AllReady(Fresh(1), steps)
            && var l := Run(Fresh(1), steps); l.claimed && l.sessions == [Out] && l.leaks == 1
  {
  }

  /** The join in drop waits for nobody but the program's other code. */
  lemma DropWaitsOnlyForOthers(l: Lane, i: nat)
    requires Inv(l) && i < |l.sessions| && l.sessions[i].Unparked?
    ensures Ready(l, Join(i)) || Ready(l, Exit(i)) || Ready(l, Take(i)) || l.lock == Other
    ensures l.lock == Other ==> Ready(Next(l, OtherReleases), DropStep(l, i))
  {
    assert Engaged(l, i);
    if l.lock.Locker? {
      assert Engaged(l, l.lock.owner);
      assert HoldsLock(l.sessions[i]);
    }
    match l.sessions[i].thread {
      case Starting => assert At(l, i, Unparked(Starting));
      case Holding => assert At(l, i, Unparked(Holding));
      case Exited => assert At(l, i, Unparked(Exited));
    }
  }

  predicate BeingDropped(s: Session) {
    s.Live? || s.Unparked? || s.Joined?
  }

  /** What the dropping of client i's locker is waiting to do. */
  function DropStep(l: Lane, i: nat): Step
    requires i < |l.sessions| && BeingDropped(l.sessions[i])
  {
    match l.sessions[i]
    case Live(_) => Unpark(i)
    case Unparked(t) => if t.Exited? then Join(i) else if t.Holding? then Exit(i) else Take(i)
    case _ => Clear(i)
  }

  /** How many steps that are still to be made. */
  function DropRank(s: Session): nat {
    match s
    case Live(Starting) => 5
    case Unparked(Starting) => 4
    case Live(_) => 4
    case Unparked(Holding) => 3
    case Unparked(Exited) => 2
    case Joined => 1
    case _ => 0
  }

  lemma DropStepShrinks(l: Lane, i: nat)
    requires Inv(l) && i < |l.sessions| && BeingDropped(l.sessions[i]) && l.lock != Other
    ensures var t := DropStep(l, i);
            && Ready(l, t)
            && var m := Next(l, t);
               && Inv(m) && |m.sessions| == |l.sessions| && m.lock != Other
               && DropRank(m.sessions[i]) == DropRank(l.sessions[i]) - 1
               && (BeingDropped(m.sessions[i]) || (m.sessions[i] == Out && !m.claimed && m.lock == Free))
  {
    assert Engaged(l, i);
    if l.sessions[i].Unparked? {
      DropWaitsOnlyForOthers(l, i);
    }
    NextKeeps(l, DropStep(l, i));
    var m := Next(l, DropStep(l, i));
    assert m.lock.Locker? ==> Engaged(m, m.lock.owner);
  }

  /** A drop that other code does not hold up comes to its end: the thread is gone and a new locker can
      be made. */
  lemma {:induction false} DropReleases(l: Lane, i: nat) returns (steps: seq<Step>)
    requires Inv(l) && i < |l.sessions| && BeingDropped(l.sessions[i]) && l.lock != Other
    ensures AllReady(l, steps) && |steps| == DropRank(l.sessions[i])
    ensures var m := Run(l, steps);
            Inv(m) && At(m, i, Out) && !m.claimed && m.lock == Free && At(Next(m, Claim(i)), i, Claimed)
    decreases DropRank(l.sessions[i])
  {
    var t := DropStep(l, i);
    DropStepShrinks(l, i);
    var m := Next(l, t);
    if m.sessions[i] == Out {
      steps := [t];
      assert steps[1..] == [];
    } else {
      var more := DropReleases(m, i);
      steps := [t] + more;
      assert steps[1..] == more;
    }
  }

  // ---- Both streams

  datatype Side = Stdin | Stdout

  /** How far a client is with `stdin_stdout`: stdin is claimed and spawned first, then stdout; if that
      fails the stdin locker is dropped before the error is returned. Dropping the pair drops the
      stdin locker first. A client at Single uses plain stdin and stdout handles as it likes. */
  datatype Call =
    | Single
    | Resting
    | ClaimedIn
    | HasIn
    | ClaimedOut
    | Held
    | BackingOut
    | DroppingIn
    | DroppingOut

  datatype Duo = Duo(input: Lane, output: Lane, calls: seq<Call>)

  function LaneOf(d: Duo, side: Side): Lane {
    if side.Stdin? then d.input else d.output
  }

  /** The client whose own code makes the step, if it is not a thread's or other code's. */
  predicate IsClients(t: Step) {
    t.Claim? || t.Spawn? || t.Unpark? || t.Join? || t.Clear?
  }

  predicate Drops(t: Step) {
    t.Unpark? || t.Join? || t.Clear?
  }

  /** What the code of a client does next. */
  predicate Allowed(c: Call, side: Side, t: Step) {
    match c
    case Single => true
    case Resting => t.Claim? && side.Stdin?
    case ClaimedIn => t.Spawn? && side.Stdin?
    case HasIn => t.Claim? && side.Stdout?
    case ClaimedOut => t.Spawn? && side.Stdout?
    case Held => t.Unpark? && side.Stdin?
    case BackingOut => Drops(t) && side.Stdin?
    case DroppingIn => Drops(t) && side.Stdin?
    case DroppingOut => Drops(t) && side.Stdout?
  }

  function After(c: Call, t: Step, wasClaimed: bool): Call {
    match c
    case Single => Single
    case Resting => if wasClaimed then Resting else ClaimedIn
    case ClaimedIn => if t.Spawn? && t.ok then HasIn else Resting
    case HasIn => if wasClaimed then BackingOut else ClaimedOut
    case ClaimedOut => if t.Spawn? && t.ok then Held else BackingOut
    case Held => DroppingIn
    case BackingOut => if t.Clear? then Resting else BackingOut
    case DroppingIn => if t.Clear? then DroppingOut else DroppingIn
    case DroppingOut => if t.Clear? then Resting else DroppingOut
  }

  predicate DuoReady(d: Duo, side: Side, t: Step) {
    && Ready(LaneOf(d, side), t)
    && (IsClients(t) ==> t.i < |d.calls| && Allowed(d.calls[t.i], side, t))
  }

  function DuoNext(d: Duo, side: Side, t: Step): Duo
    requires DuoReady(d, side, t)
  {
    var l := LaneOf(d, side);
    var calls := if IsClients(t) then d.calls[t.i := After(d.calls[t.i], t, l.claimed)] else d.calls;
    if side.Stdin? then Duo(Next(l, t), d.output, calls) else Duo(d.input, Next(l, t), calls)
  }

  /** Which lockers a client has at each point of a call. */
  predicate Matches(c: Call, input: Session, output: Session) {
    match c
    case Single => true
    case Resting => input.Out? && output.Out?
    case ClaimedIn => input.Claimed? && output.Out?
    case HasIn => input.Live? && output.Out?
    case ClaimedOut => input.Live? && output.Claimed?
    case Held => input.Live? && output.Live?
    case BackingOut => BeingDropped(input) && output.Out?
    case DroppingIn => (input.Unparked? || input.Joined?) && output.Live?
    case DroppingOut => input.Out? && BeingDropped(output)
  }

  ghost predicate DuoInv(d: Duo) {
    && Inv(d.input) && Inv(d.output)
    && |d.input.sessions| == |d.output.sessions| == |d.calls|
    && forall i | 0 <= i < |d.calls| :: Matches(d.calls[i], d.input.sessions[i], d.output.sessions[i])
  }

  /** A client with plain handles is free to do on one stream whatever it could do without the other. */
  lemma SingleActsAlone(d: Duo, side: Side, t: Step)
    requires IsClients(t) && t.i < |d.calls| && d.calls[t.i] == Single && Ready(LaneOf(d, side), t)
    ensures DuoReady(d, side, t)
    ensures var m := DuoNext(d, side, t);
            var other := if side.Stdin? then Stdout else Stdin;
            && LaneOf(m, side) == Next(LaneOf(d, side), t) && LaneOf(m, other) == LaneOf(d, other)
            && m.calls == d.calls
  {
  }

  lemma DuoNextKeeps(d: Duo, side: Side, t: Step)
    requires DuoInv(d) && DuoReady(d, side, t)
    ensures DuoInv(DuoNext(d, side, t))
  {
    NextKeeps(LaneOf(d, side), t);
    var e := DuoNext(d, side, t);
    forall i | 0 <= i < |e.calls|
      ensures Matches(e.calls[i], e.input.sessions[i], e.output.sessions[i])
    {
      if t.OtherTakes? || t.OtherReleases? || t.i != i {
        assert e.calls[i] == d.calls[i];
        assert e.input.sessions[i] == d.input.sessions[i] && e.output.sessions[i] == d.output.sessions[i];
      } else {
        OwnStepMatches(d, side, t);
      }
    }
  }

  /** A step of a client, or of its locker's thread, keeps the client's lockers in line with its call. */
  lemma OwnStepMatches(d: Duo, side: Side, t: Step)
    requires |d.input.sessions| == |d.output.sessions| == |d.calls|
    requires DuoReady(d, side, t) && !t.OtherTakes? && !t.OtherReleases?
    requires Matches(d.calls[t.i], d.input.sessions[t.i], d.output.sessions[t.i])
    ensures var e := DuoNext(d, side, t);
            Matches(e.calls[t.i], e.input.sessions[t.i], e.output.sessions[t.i])
  {
  }

  predicate DuoAllReady(d: Duo, steps: seq<(Side, Step)>)
    decreases |steps|
  {
    steps != [] ==>
      DuoReady(d, steps[0].0, steps[0].1) && DuoAllReady(DuoNext(d, steps[0].0, steps[0].1), steps[1..])
  }

  function DuoRun(d: Duo, steps: seq<(Side, Step)>): Duo
    requires DuoAllReady(d, steps)
    decreases |steps|
  {
    if steps == [] then d else DuoRun(DuoNext(d, steps[0].0, steps[0].1), steps[1..])
  }

  function FreshDuo(calls: seq<Call>): Duo {
    Duo(Fresh(|calls|), Fresh(|calls|), calls)
  }

  lemma {:induction false} DuoRunKeeps(d: Duo, steps: seq<(Side, Step)>)
    requires DuoInv(d) && DuoAllReady(d, steps)
    ensures DuoInv(DuoRun(d, steps))
    decreases |steps|
  {
    if steps == [] {
    } else {
      DuoNextKeeps(d, steps[0].0, steps[0].1);
      DuoRunKeeps(DuoNext(d, steps[0].0, steps[0].1), steps[1..]);
    }
  }

  /** All or nothing: a client whose call has returned an error, or was never made, has no locker on
      either stream; one whose call has succeeded has a live locker on each, and nobody else has any.
      This holds among any mix of such clients and clients with plain handles. */
  lemma PairIsAllOrNothing(calls: seq<Call>, steps: seq<(Side, Step)>, i: nat)
    requires forall j | 0 <= j < |calls| :: calls[j].Single? || calls[j].Resting?
    requires DuoAllReady(FreshDuo(calls), steps) && i < |DuoRun(FreshDuo(calls), steps).calls|
    ensures var d := DuoRun(FreshDuo(calls), steps);
            && |d.input.sessions| == |d.output.sessions| == |d.calls|
            && (d.calls[i].Resting? ==> d.input.sessions[i].Out? && d.output.sessions[i].Out?)
            && (d.calls[i].Held? ==>
                  && d.input.sessions[i].Live? && d.output.sessions[i].Live?
                  && forall j | 0 <= j < |d.calls| && j != i :: d.input.sessions[j].Out? && d.output.sessions[j].Out?)
  {
    var f := FreshDuo(calls);
    assert forall j :: !Engaged(f.input, j);
    DuoRunKeeps(f, steps);
    var d := DuoRun(f, steps);
    assert Matches(d.calls[i], d.input.sessions[i], d.output.sessions[i]);
    if d.calls[i].Held? {
      assert Engaged(d.input, i) && Engaged(d.output, i);
      forall j | 0 <= j < |d.calls| && j != i
        ensures d.input.sessions[j].Out? && d.output.sessions[j].Out?
      {
        assert !Engaged(d.input, j) && !Engaged(d.output, j);
      }
    }
  }

  /** Clients that go after both streams cannot block one another: at every point of a call the client
      or the thread it is joining can take a step, unless other code holds the lock. */
  lemma PairNeverDeadlocks(d: Duo, i: nat) returns (side: Side, t: Step)
    requires DuoInv(d) && i < |d.calls| && !d.calls[i].Single?
    ensures !t.OtherTakes? && !t.OtherReleases? && t.i == i
    ensures DuoReady(d, side, t) || (t.Take? && LaneOf(d, side).lock == Other)
  {
    var c := d.calls[i];
    assert Matches(c, d.input.sessions[i], d.output.sessions[i]);
    side := if c.HasIn? || c.ClaimedOut? || c.DroppingOut? then Stdout else Stdin;
    var l := LaneOf(d, side);
    if c.Resting? || c.HasIn? {
      t := Claim(i);
    } else if c.ClaimedIn? || c.ClaimedOut? {
      t := Spawn(i, true);
    } else {
      t := DropStep(l, i);
      if l.sessions[i].Unparked? {
        DropWaitsOnlyForOthers(l, i);
      }
    }
  }

  /** Where nobody is in the way, the call succeeds: the four steps of its code can be taken and end with
      both lockers. */
  lemma PairSucceeds(d: Duo, i: nat)
    requires DuoInv(d) && i < |d.calls| && d.calls[i].Resting? && !d.input.claimed && !d.output.claimed
    ensures var steps := [(Stdin, Claim(i)), (Stdin, Spawn(i, true)), (Stdout, Claim(i)), (Stdout, Spawn(i, true))];
            && DuoAllReady(d, steps)
            && var e := DuoRun(d, steps);
               && i < |e.calls| == |e.input.sessions| == |e.output.sessions|
               && e.calls[i].Held? && e.input.sessions[i] == Live(Starting) && e.output.sessions[i] == Live(Starting)
  {
    assert Matches(d.calls[i], d.input.sessions[i], d.output.sessions[i]);
    var d1 := DuoNext(d, Stdin, Claim(i));
    var d2 := DuoNext(d1, Stdin, Spawn(i, true));
    var d3 := DuoNext(d2, Stdout, Claim(i));
    var d4 := DuoNext(d3, Stdout, Spawn(i, true));
    DuoRunFour(d, [(Stdin, Claim(i)), (Stdin, Spawn(i, true)), (Stdout, Claim(i)), (Stdout, Spawn(i, true))], d4);
  }

  lemma DuoRunFour(d: Duo, steps: seq<(Side, Step)>, e: Duo)
    requires |steps| == 4
    requires DuoReady(d, steps[0].0, steps[0].1)
    requires var d1 := DuoNext(d, steps[0].0, steps[0].1);
             && DuoReady(d1, steps[1].0, steps[1].1)
             && var d2 := DuoNext(d1, steps[1].0, steps[1].1);
                && DuoReady(d2, steps[2].0, steps[2].1)
                && var d3 := DuoNext(d2, steps[2].0, steps[2].1);
                   DuoReady(d3, steps[3].0, steps[3].1) && DuoNext(d3, steps[3].0, steps[3].1) == e
    ensures DuoAllReady(d, steps) && DuoRun(d, steps) == e
  {
    var d1 := DuoNext(d, steps[0].0, steps[0].1);
    var d2 := DuoNext(d1, steps[1].0, steps[1].1);
    var d3 := DuoNext(d2, steps[2].0, steps[2].1);
    assert steps[1..][1..] == steps[2..] && steps[2..][1..] == steps[3..] && steps[3..][1..] == [];
    assert DuoAllReady(e, []) && DuoRun(e, []) == e;
    assert DuoAllReady(d3, steps[3..]) && DuoRun(d3, steps[3..]) == e;
    assert DuoAllReady(d2, steps[2..]) && DuoRun(d2, steps[2..]) == e;
    assert DuoAllReady(d1, steps[1..]) && DuoRun(d1, steps[1..]) == e;
  }

  /** How a call goes on from a step of its own: an attempt on a claimed stream or a failed spawn makes it
      give up, and whatever it has by then is dropped. */
  lemma PairGoesOn(d: Duo, i: nat, side: Side, t: Step)
    requires DuoInv(d) && i < |d.calls| && DuoReady(d, side, t) && IsClients(t) && t.i == i
    ensures var c, c' := d.calls[i], DuoNext(d, side, t).calls[i];
            var taken := LaneOf(d, side).claimed;
            && (c.Resting? ==> (c'.ClaimedIn? <==> !taken) && (c'.Resting? <==> taken))
            && (c.ClaimedIn? ==> (c'.HasIn? <==> t == Spawn(i, true)) && (c'.Resting? <==> t == Spawn(i, false)))
            && (c.HasIn? ==> (c'.ClaimedOut? <==> !taken) && (c'.BackingOut? <==> taken))
            && (c.ClaimedOut? ==> (c'.Held? <==> t == Spawn(i, true)) && (c'.BackingOut? <==> t == Spawn(i, false)))
  {
  }

  ghost predicate LettingGo(c: Call) {
    c.Held? || c.BackingOut? || c.DroppingIn? || c.DroppingOut?
  }

  function PairRank(d: Duo, i: nat): nat
    requires |d.input.sessions| == |d.output.sessions| == |d.calls| && i < |d.calls|
  {
    DropRank(d.input.sessions[i]) + DropRank(d.output.sessions[i])
  }

  /** The locker that is dropped first. */
  function DropSide(c: Call): Side {
    if c.DroppingOut? then Stdout else Stdin
  }

  lemma PairStepReady(d: Duo, i: nat)
    requires DuoInv(d) && i < |d.calls| && LettingGo(d.calls[i]) && d.input.lock != Other && d.output.lock != Other
    ensures var side := DropSide(d.calls[i]);
            BeingDropped(LaneOf(d, side).sessions[i]) && DuoReady(d, side, DropStep(LaneOf(d, side), i))
  {
    var c := d.calls[i];
    assert Matches(c, d.input.sessions[i], d.output.sessions[i]);
    var l := LaneOf(d, DropSide(c));
    var t := DropStep(l, i);
    DropStepShrinks(l, i);
    if IsClients(t) {
      LettingGoOn(c, DropSide(c), t);
    }
  }

  lemma PairStepShrinks(d: Duo, i: nat) returns (side: Side, t: Step)
    requires DuoInv(d) && i < |d.calls| && LettingGo(d.calls[i]) && d.input.lock != Other && d.output.lock != Other
    ensures DuoReady(d, side, t)
    ensures var e := DuoNext(d, side, t);
            && DuoInv(e) && |e.calls| == |d.calls| && e.input.lock != Other && e.output.lock != Other
            && PairRank(e, i) < PairRank(d, i)
            && (LettingGo(e.calls[i]) || e.calls[i].Resting?)
  {
    PairStepReady(d, i);
    side := DropSide(d.calls[i]);
    t := DropStep(LaneOf(d, side), i);
    DropStepShrinks(LaneOf(d, side), i);
    DuoNextKeeps(d, side, t);
    if IsClients(t) {
      LettingGoOn(d.calls[i], side, t);
    }
  }

  lemma LettingGoOn(c: Call, side: Side, t: Step)
    requires LettingGo(c) && side == DropSide(c)
    requires Drops(t) && (c.Held? ==> t.Unpark?)
    ensures Allowed(c, side, t)
    ensures forall b :: LettingGo(After(c, t, b)) || After(c, t, b).Resting?
  {
  }

  /** A pair that is dropped, and a call that backs out, come to their end unless other code holds them up:
      the client is back where it was, with no locker. */
  lemma {:induction false} PairIsReleased(d: Duo, i: nat) returns (steps: seq<(Side, Step)>)
    requires DuoInv(d) && i < |d.calls| && LettingGo(d.calls[i]) && d.input.lock != Other && d.output.lock != Other
    ensures DuoAllReady(d, steps) && |steps| <= PairRank(d, i)
    ensures var e := DuoRun(d, steps);
            DuoInv(e) && i < |e.calls| && e.calls[i].Resting? && !Engaged(e.input, i) && !Engaged(e.output, i)
    decreases PairRank(d, i)
  {
    var side, t := PairStepShrinks(d, i);
    var e := DuoNext(d, side, t);
    if e.calls[i].Resting? {
      steps := [(side, t)];
      assert steps[1..] == [];
      assert Matches(e.calls[i], e.input.sessions[i], e.output.sessions[i]);
    } else {
      var more := PairIsReleased(e, i);
      steps := [(side, t)] + more;
      assert steps[1..] == more;
    }
  }
}
