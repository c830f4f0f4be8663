/** Cooperative database ownership (`coordination.rs`): any number of clients that open, migrate,
    use and close one database, step by step and interleaved in any order. */
module Coordination {
  import opened Wrappers

  type Client = nat

  /** Where one client is. `attempt` counts the rounds of an opening, from 0. */
  datatype Phase =
    | Outside
    | WantShared(attempt: nat)
    | WantWriter(attempt: nat)
    | Checking(attempt: nat)
    | Passed
    | Stale(attempt: nat)
    | StaleShared(attempt: nat)
    | WantExclusive(attempt: nat)
    | Migrating(attempt: nat)
    | Migrated(attempt: nat)
    | WantSharedReadOnly
    | CheckingReadOnly
    | Open
    | WantWrite
    | Writing
    | Leaving

  /** The lock on access, the lock of the writer, the stored schema version and the clients. */
  datatype State = State(
    sharers: set<Client>, exclusive: Option<Client>, writer: Option<Client>, stored: nat, phases: map<Client, Phase>)
  {
    function At(c: Client): Phase { if c in phases then phases[c] else Outside }

    function Move(c: Client, p: Phase): State { this.(phases := phases[c := p]) }

    function Share(c: Client): State { this.(sharers := sharers + {c}) }
    function Unshare(c: Client): State { this.(sharers := sharers - {c}) }
    function Exclude(c: Client): State { this.(exclusive := Some(c)) }
    function Unexclude(): State { this.(exclusive := None) }
    function TakeWriter(c: Client): State { this.(writer := Some(c)) }
    function DropWriter(): State { this.(writer := None) }

    /** The locks of a dead client are released. */
    function Release(c: Client): State {
      State(sharers - {c}, if exclusive == Some(c) then None else exclusive,
            if writer == Some(c) then None else writer, stored, phases)
    }
  }

  const ATTEMPTS: nat := 3

  datatype Step =
    | BeginOpen(c: Client)
    | BeginReadOnly(c: Client)
    | LockShared(c: Client)
    | LockWriter(c: Client)
    | LockExclusive(c: Client)
    | Check(c: Client)
    | UnlockWriter(c: Client)
    | UnlockShared(c: Client)
    | UnlockExclusive(c: Client)
    | Migrate(c: Client)
    | BeginWrite(c: Client)
    | Close(c: Client)
    | TimeOut(c: Client)
    | Fail(c: Client)
    | Crash(c: Client)

  /** One step, or nothing when it cannot happen in `s`. `target` is the schema version of each
      client's program. */
  function Do(target: Client -> nat, s: State, step: Step): Option<State> {
    var c := step.c;
    var p := s.At(c);
    match step
    case BeginOpen(_) => if p.Outside? then Some(s.Move(c, WantShared(0))) else None
    case BeginReadOnly(_) => if p.Outside? then Some(s.Move(c, WantSharedReadOnly)) else None
    case LockShared(_) =>
      if s.exclusive.Some? then None
      else if p.WantShared? then Some(s.Share(c).Move(c, WantWriter(p.attempt)))
      else if p.WantSharedReadOnly? then Some(s.Share(c).Move(c, CheckingReadOnly))
      else None
    case LockWriter(_) =>
      if s.writer.Some? then None
      else if p.WantWriter? then Some(s.TakeWriter(c).Move(c, Checking(p.attempt)))
      else if p.WantWrite? then Some(s.TakeWriter(c).Move(c, Writing))
      else None
    case LockExclusive(_) =>
      if s.exclusive.Some? || s.sharers != {} then None
      else if p.WantExclusive? then Some(s.Exclude(c).Move(c, Migrating(p.attempt)))
      else None
    case Check(_) =>
      if p.Checking? then Some(s.Move(c, if s.stored == target(c) then Passed else Stale(p.attempt)))
      else if p.CheckingReadOnly? then Some(s.Move(c, if s.stored == target(c) then Open else Leaving))
      else None
    case UnlockWriter(_) =>
      if p.Passed? || p.Writing? then Some(s.DropWriter().Move(c, Open))
      else if p.Stale? then Some(s.DropWriter().Move(c, StaleShared(p.attempt)))
      else None
    case UnlockShared(_) =>
      if p.StaleShared? then Some(s.Unshare(c).Move(c, WantExclusive(p.attempt)))
      else if p.Leaving? then Some(s.Unshare(c).Move(c, Outside))
      else None
    case Migrate(_) =>
      if !p.Migrating? then None
      else if s.stored <= target(c) then Some(s.(stored := target(c)).Move(c, Migrated(p.attempt)))
      else Some(s.Unexclude().Move(c, Outside))
    case UnlockExclusive(_) =>
      if p.Migrated? then
        Some(s.Unexclude().Move(c, if p.attempt + 1 < ATTEMPTS then WantShared(p.attempt + 1) else Outside))
      else None
    case BeginWrite(_) => if p.Open? then Some(s.Move(c, WantWrite)) else None
    case Close(_) => if p.Open? then Some(s.Move(c, Leaving)) else None
    case TimeOut(_) =>
      if p.WantShared? || p.WantSharedReadOnly? || p.WantExclusive? then Some(s.Move(c, Outside))
      else if p.WantWriter? then Some(s.Move(c, Leaving))
      else if p.WantWrite? then Some(s.Move(c, Open))
      else None
    case Fail(_) =>
      if p.Checking? then Some(s.DropWriter().Move(c, Leaving))
      else if p.CheckingReadOnly? then Some(s.Move(c, Leaving))
      else if p.Migrating? then Some(s.Unexclude().Move(c, Outside))
      else None
    case Crash(_) => Some(s.Release(c).Move(c, Outside))
  }

  function Run(target: Client -> nat, s: State, steps: seq<Step>): Option<State> {
    if steps == [] then Some(s)
    else match Run(target, s, steps[..|steps| - 1])
      case None => None
      case Some(t) => Do(target, t, steps[|steps| - 1])
  }

  // ------------------------------------------------------------ who holds what

  predicate HoldsShared(p: Phase) {
    || p.WantWriter? || p.Checking? || p.Passed? || p.Stale? || p.StaleShared?
    || p.CheckingReadOnly? || p.Open? || p.WantWrite? || p.Writing? || p.Leaving?
  }

  predicate HoldsExclusive(p: Phase) { p.Migrating? || p.Migrated? }

  predicate HoldsWriter(p: Phase) { p.Checking? || p.Passed? || p.Stale? || p.Writing? }

  /** Has a connection that was checked and handed out, or is about to be. */
  predicate Connected(p: Phase) { p.Passed? || p.Open? || p.WantWrite? || p.Writing? }

  predicate InOpening(p: Phase) {
    || p.WantShared? || p.WantWriter? || p.Checking? || p.Stale? || p.StaleShared?
    || p.WantExclusive? || p.Migrating? || p.Migrated?
  }

  ghost predicate SharedRight(s: State) {
    forall c: Client :: c in s.sharers <==> HoldsShared(s.At(c))
  }

  ghost predicate ExclusiveRight(s: State) {
    && (forall c: Client :: s.exclusive == Some(c) <==> HoldsExclusive(s.At(c)))
    && (s.exclusive.Some? ==> s.sharers == {})
  }

  ghost predicate WriterRight(s: State) {
    forall c: Client :: s.writer == Some(c) <==> HoldsWriter(s.At(c))
  }

  /** The locks are held by exactly the clients whose phase says so, and exclude each other. */
  ghost predicate Locks(s: State) {
    SharedRight(s) && ExclusiveRight(s) && WriterRight(s)
  }

  /** What a client in phase `p` with target `t` may rely on about the stored version: connected,
      it is the target; after its own migration it is no less; found different again, it is
      beyond the target, and there is no third round. */
  predicate Fits(p: Phase, stored: nat, t: nat) {
    && (Connected(p) ==> stored == t)
    && (p.Stale? || p.StaleShared? ==> stored != t)
    && (p.Migrated? ==> stored >= t && p.attempt == 0)
    && (InOpening(p) ==>
          && p.attempt <= 1
          && (p.attempt == 1 ==> stored >= t && (p.WantExclusive? || p.Migrating? ==> stored > t)))
  }

  ghost predicate Versions(target: Client -> nat, s: State) {
    forall c: Client :: Fits(s.At(c), s.stored, target(c))
  }

  ghost predicate Inv(target: Client -> nat, s: State) {
    Locks(s) && Versions(target, s)
  }

  ghost predicate Initial(s: State) {
    s.sharers == {} && s.exclusive == None && s.writer == None && forall c: Client :: s.At(c).Outside?
  }

  lemma DoMovesOne(target: Client -> nat, s: State, step: Step)
    requires Do(target, s, step).Some?
    ensures forall c: Client :: c != step.c ==> Do(target, s, step).value.At(c) == s.At(c)
  {
  }

  lemma DoKeepsShared(target: Client -> nat, s: State, step: Step)
    requires SharedRight(s) && Do(target, s, step).Some?
    ensures SharedRight(Do(target, s, step).value)
  {
    DoMovesOne(target, s, step);
  }

  lemma DoKeepsExclusive(target: Client -> nat, s: State, step: Step)
    requires SharedRight(s) && ExclusiveRight(s) && Do(target, s, step).Some?
    ensures ExclusiveRight(Do(target, s, step).value)
  {
    hide SharedRight, HoldsShared;
    DoMovesOne(target, s, step);
  }

  lemma DoKeepsWriter(target: Client -> nat, s: State, step: Step)
    requires WriterRight(s) && Do(target, s, step).Some?
    ensures WriterRight(Do(target, s, step).value)
  {
    DoMovesOne(target, s, step);
  }

  /** Every step keeps the locks right. */
  lemma DoKeepsLocks(target: Client -> nat, s: State, step: Step)
    requires Locks(s) && Do(target, s, step).Some?
    ensures Locks(Do(target, s, step).value)
  {
    hide SharedRight, ExclusiveRight, WriterRight, Do;
    DoKeepsShared(target, s, step);
    DoKeepsExclusive(target, s, step);
    DoKeepsWriter(target, s, step);
  }

  /** A step that changes the stored version raises it, to the target of its client, which holds
      exclusive access while nobody else holds anything. */
  lemma MigratesAlone(target: Client -> nat, s: State, step: Step)
    requires Locks(s) && Do(target, s, step).Some?
    ensures var t := Do(target, s, step).value;
      t.stored != s.stored ==>
        && step == Migrate(step.c) && s.stored < t.stored == target(step.c)
        && s.exclusive == Some(step.c) && s.sharers == {} && s.writer == None
        && forall d: Client :: d != step.c ==> !HoldsShared(s.At(d)) && !HoldsExclusive(s.At(d))
  {
    var t := Do(target, s, step).value;
    if t.stored != s.stored {
      assert HoldsExclusive(s.At(step.c));
      forall d: Client ensures !HoldsShared(s.At(d)) && s.writer != Some(d) {
        assert d !in s.sharers;
        WriterShares(s, d);
      }
    }
  }

  lemma WriterShares(s: State, d: Client)
    requires Locks(s)
    ensures HoldsWriter(s.At(d)) ==> d in s.sharers
  {
  }

  /** The client that moves keeps what it relies on. */
  lemma MoverFits(target: Client -> nat, s: State, step: Step)
    requires Fits(s.At(step.c), s.stored, target(step.c)) && Do(target, s, step).Some?
    ensures var t := Do(target, s, step).value; Fits(t.At(step.c), t.stored, target(step.c))
  {
  }

  lemma RaisingFits(p: Phase, stored: nat, higher: nat, t: nat)
    requires Fits(p, stored, t) && stored < higher && !HoldsShared(p) && !HoldsExclusive(p)
    ensures Fits(p, higher, t)
  {
  }

  /** Every step keeps what every client relies on. */
  lemma DoKeepsVersions(target: Client -> nat, s: State, step: Step)
    requires Inv(target, s) && Do(target, s, step).Some?
    ensures Versions(target, Do(target, s, step).value)
  {
    hide Do, Fits, Locks, HoldsShared, HoldsExclusive;
    var t := Do(target, s, step).value;
    MigratesAlone(target, s, step);
    DoMovesOne(target, s, step);
    MoverFits(target, s, step);
    forall c: Client ensures Fits(t.At(c), t.stored, target(c)) {
      if c != step.c && t.stored != s.stored { RaisingFits(s.At(c), s.stored, t.stored, target(c)); }
    }
  }

  /** Whatever the clients do, in any order, from a database nobody uses. */
  lemma {:induction false} RunKeepsInv(target: Client -> nat, s: State, steps: seq<Step>)
    requires Initial(s) && Run(target, s, steps).Some?
    ensures Inv(target, Run(target, s, steps).value)
  {
    hide Do, Locks, Versions;
    if steps == [] {
      InitialInv(target, s);
    } else {
      RunKeepsInv(target, s, steps[..|steps| - 1]);
      var t := Run(target, s, steps[..|steps| - 1]).value;
      DoKeepsLocks(target, t, steps[|steps| - 1]);
      DoKeepsVersions(target, t, steps[|steps| - 1]);
    }
  }

  lemma InitialInv(target: Client -> nat, s: State)
    requires Initial(s)
    ensures Inv(target, s)
  {
  }

  // ------------------------------------------------------------ what follows

  /** A client with a connection sees its own version; at most one client writes; nobody shares
      access with a migration. */
  lemma Safe(target: Client -> nat, s: State, steps: seq<Step>, c: Client, d: Client)
    requires Initial(s) && Run(target, s, steps).Some?
    ensures var t := Run(target, s, steps).value;
      && (Connected(t.At(c)) ==> t.stored == target(c))
      && (c != d && HoldsWriter(t.At(c)) ==> !HoldsWriter(t.At(d)))
      && (c != d && HoldsExclusive(t.At(c)) ==>
            !HoldsExclusive(t.At(d)) && !HoldsShared(t.At(d)) && !HoldsWriter(t.At(d)))
  {
    hide Run;
    RunKeepsInv(target, s, steps);
    var t := Run(target, s, steps).value;
    WriterShares(t, d);
    assert Fits(t.At(c), t.stored, target(c));
  }

  /** The stored version never falls. */
  lemma {:induction false} NeverFalls(target: Client -> nat, s: State, before: seq<Step>, after: seq<Step>)
    requires Initial(s) && Run(target, s, before + after).Some?
    ensures Run(target, s, before).Some?
    ensures Run(target, s, before).value.stored <= Run(target, s, before + after).value.stored
    decreases |after|
  {
    hide Do, Locks, Versions;
    if after == [] {
      assert before + after == before;
    } else {
      var n := |after| - 1;
      assert (before + after)[..|before + after| - 1] == before + after[..n];
      NeverFalls(target, s, before, after[..n]);
      RunKeepsInv(target, s, before + after[..n]);
      MigratesAlone(target, Run(target, s, before + after[..n]).value, after[n]);
    }
  }

  /** There is no third round, so an opening never ends for want of attempts: it finds the schema
      right by its second round, or finds a version beyond its own, whose migration is refused. */
  lemma SecondRoundSettles(target: Client -> nat, s: State, steps: seq<Step>, c: Client)
    requires Initial(s) && Run(target, s, steps).Some?
    ensures var t := Run(target, s, steps).value;
      var p := t.At(c);
      && (InOpening(p) ==> p.attempt <= 1)
      && (p == Checking(1) ==>
            t.stored >= target(c) && (Do(target, t, Check(c)).value.At(c) == Passed || t.stored > target(c)))
      && (p == Migrating(1) ==> Do(target, t, Migrate(c)).value == t.Unexclude().Move(c, Outside))
      && (p.Migrated? ==> Do(target, t, UnlockExclusive(c)).value.At(c) == WantShared(1))
  {
    hide Run, Locks;
    RunKeepsInv(target, s, steps);
    var t := Run(target, s, steps).value;
    assert Fits(t.At(c), t.stored, target(c));
  }

  /** With one version for all, no older than the stored one, the check of the second round passes
      and a migration is never refused. */
  lemma {:induction false} CommonVersionOpens(
    target: Client -> nat, s: State, steps: seq<Step>, version: nat, c: Client)
    requires Initial(s) && s.stored <= version && Run(target, s, steps).Some?
    requires forall d: Client :: target(d) == version
    ensures var t := Run(target, s, steps).value;
      && t.stored <= version
      && (t.At(c) == Checking(1) ==> Do(target, t, Check(c)).value.At(c) == Passed)
      && (t.At(c).Migrating? ==> Do(target, t, Migrate(c)).value.At(c).Migrated?)
  {
    NeverBeyond(target, s, steps, version);
    SecondRoundSettles(target, s, steps, c);
  }

  // ------------------------------------------------------------ an opening gets there

  /** The steps of an opening that has to migrate, and where they lead. One that does not is over after four. */
  function OpeningSteps(c: Client): seq<Step> {
    [LockShared(c), LockWriter(c), Check(c), UnlockWriter(c), UnlockShared(c), LockExclusive(c), Migrate(c),
     UnlockExclusive(c), LockShared(c), LockWriter(c), Check(c), UnlockWriter(c)]
  }

  const OPENING: seq<Phase> :=
    [WantShared(0), WantWriter(0), Checking(0), Stale(0), StaleShared(0), WantExclusive(0), Migrating(0), Migrated(0),
     WantShared(1), WantWriter(1), Checking(1), Passed, Open]

  /** The client has done `own` since it began to open, and is in phase `p`: on the way to its second check, or
      past its first. */
  predicate Opening(c: Client, own: seq<Step>, p: Phase) {
    |own| <= 12 && own == OpeningSteps(c)[..|own|] && InOpeningPhase(|own|, p)
  }

  predicate InOpeningPhase(n: nat, p: Phase) {
    n <= 12 && (p == OPENING[n] || (n == 3 && p == Passed) || (n == 4 && p == Open))
  }

  /** The steps of `c` among `steps`. */
  function OwnSteps(c: Client, steps: seq<Step>): seq<Step> {
    if steps == [] then []
    else OwnSteps(c, steps[..|steps| - 1]) + (if steps[|steps| - 1].c == c then [steps[|steps| - 1]] else [])
  }

  /** Steps of `c` that neither give up nor use a connection. */
  ghost predicate Opens(c: Client, steps: seq<Step>) {
    forall i :: 0 <= i < |steps| && steps[i].c == c ==>
      !steps[i].TimeOut? && !steps[i].Fail? && !steps[i].Crash? && !steps[i].BeginWrite? && !steps[i].Close?
  }

  /** One more step of an opening, the schema being at the common version or below. */
  lemma OpeningStep(target: Client -> nat, s: State, own: seq<Step>, step: Step)
    requires Do(target, s, step).Some? && Opening(step.c, own, s.At(step.c)) && Opens(step.c, [step])
    requires s.stored <= target(step.c) && (s.At(step.c) == Checking(1) ==> s.stored == target(step.c))
    ensures Opening(step.c, own + [step], Do(target, s, step).value.At(step.c))
  {
    hide Do, InOpeningPhase;
    var all := OpeningSteps(step.c);
    assert [step][0] == step;
    PhaseFollows(target, s, |own|, step);
    assert all[..|own| + 1] == all[..|own|] + [all[|own|]];
  }

  lemma PhaseFollows(target: Client -> nat, s: State, n: nat, step: Step)
    requires Do(target, s, step).Some? && InOpeningPhase(n, s.At(step.c))
    requires !step.TimeOut? && !step.Fail? && !step.Crash? && !step.BeginWrite? && !step.Close?
    requires s.stored <= target(step.c) && (s.At(step.c) == Checking(1) ==> s.stored == target(step.c))
    ensures n < 12 && step == OpeningSteps(step.c)[n]
    ensures InOpeningPhase(n + 1, Do(target, s, step).value.At(step.c))
  {
  }

  /** With one version for all, no older than the stored one, a client that began to open and neither times out, fails
      nor crashes does these steps in this order, whatever the others do meanwhile: after the fourth or the twelfth
      it has its connection, with shared access, without the writer, and on its own version. */
  lemma {:induction false} OpeningSucceeds(
    target: Client -> nat, s: State, before: seq<Step>, after: seq<Step>, version: nat, c: Client)
    requires Initial(s) && s.stored <= version && (forall d: Client :: target(d) == version)
    requires Run(target, s, before + after).Some? && Opens(c, after)
    requires Run(target, s, before).Some? && Run(target, s, before).value.At(c) == WantShared(0)
    ensures var t, own := Run(target, s, before + after).value, OwnSteps(c, after);
      && Opening(c, own, t.At(c))
      && (|own| == 12 ==> t.At(c) == Open)
      && (t.At(c) == Open ==> c in t.sharers && t.writer != Some(c) && t.exclusive == None && t.stored == version)
    decreases |after|
  {
    hide Do, Initial, Fits, Opening;
    var t := Run(target, s, before + after).value;
    RunKeepsInv(target, s, before + after);
    if after == [] {
      assert before + after == before;
      OpeningBegins(c);
      assert Opening(c, OwnSteps(c, after), t.At(c));
    } else {
      var n := |after| - 1;
      var u, step := Run(target, s, before + after[..n]), after[n];
      assert (before + after)[..|before + after| - 1] == before + after[..n];
      OpeningSucceeds(target, s, before, after[..n], version, c);
      if step.c == c {
        NeverBeyond(target, s, before + after[..n], version);
        RunKeepsInv(target, s, before + after[..n]);
        SecondCheck(target, u.value, c);
        assert Opens(c, [step]) by { assert after[n] == step; }
        OpeningStep(target, u.value, OwnSteps(c, after[..n]), step);
        assert t.At(c) == Do(target, u.value, step).value.At(c);
        assert OwnSteps(c, after) == OwnSteps(c, after[..n]) + [step];
        assert Opening(c, OwnSteps(c, after), t.At(c));
      } else {
        DoMovesOne(target, u.value, step);
        assert OwnSteps(c, after[..n]) + [] == OwnSteps(c, after[..n]);
      }
    }
    OpeningEnds(c, OwnSteps(c, after), t.At(c));
    OpenHolds(target, t, c);
  }

  lemma OpeningBegins(c: Client)
    ensures Opening(c, [], WantShared(0))
  {
  }

  lemma OpeningEnds(c: Client, own: seq<Step>, p: Phase)
    ensures Opening(c, own, p) && |own| == 12 ==> p == Open
  {
  }

  lemma SecondCheck(target: Client -> nat, s: State, c: Client)
    requires Inv(target, s) && s.stored <= target(c)
    ensures s.At(c) == Checking(1) ==> s.stored == target(c)
  {
    assert Fits(s.At(c), s.stored, target(c));
  }

  lemma OpenHolds(target: Client -> nat, s: State, c: Client)
    requires Inv(target, s)
    ensures s.At(c) == Open ==> c in s.sharers && s.writer != Some(c) && s.exclusive == None && s.stored == target(c)
  {
    assert Fits(s.At(c), s.stored, target(c));
  }

  /** On the way the next step is always the one written down, and only a lock that somebody holds keeps it. */
  lemma OpeningWaits(target: Client -> nat, s: State, own: seq<Step>, c: Client)
    requires Opening(c, own, s.At(c)) && s.At(c) != Open && s.stored <= target(c)
    ensures var next := OpeningSteps(c)[|own|];
      || Do(target, s, next).Some?
      || (next.LockShared? && s.exclusive.Some?)
      || (next.LockWriter? && s.writer.Some?)
      || (next.LockExclusive? && (s.exclusive.Some? || s.sharers != {}))
  {
  }

  function Put(s: State, c: Client, p: Phase): map<Client, Phase> { s.phases[c := p] }

  /** `s` with `c` in phase `p`, and the locks and version given. */
  function With(s: State, c: Client, sharers: set<Client>, writer: Option<Client>, stored: nat, p: Phase): State {
    State(sharers, None, writer, stored, Put(s, c, p))
  }

  lemma RunThen(target: Client -> nat, s: State, steps: seq<Step>, t: State, step: Step, u: State)
    requires Run(target, s, steps) == Some(t) && Do(target, t, step) == Some(u)
    ensures Run(target, s, steps + [step]) == Some(u)
  {
    hide Do;
    assert (steps + [step])[..|steps + [step]| - 1] == steps;
  }

  /** Where nobody else holds the writer or exclusive access, a client opens a current database in five steps, beside
      any number of others. */
  lemma OpensCurrent(target: Client -> nat, s: State, c: Client)
    requires s.At(c).Outside? && s.exclusive == None && s.writer == None && s.stored == target(c)
    ensures Run(target, s, [BeginOpen(c), LockShared(c), LockWriter(c), Check(c), UnlockWriter(c)]) ==
      Some(With(s, c, s.sharers + {c}, None, s.stored, Open))
  {
    hide Run;
    Overwrites(s, c);
    RunNothing(target, s);
    var t := With(s, c, s.sharers, None, s.stored, WantShared(0));
    RunThen(target, s, [], s, BeginOpen(c), t);
    assert [] + [BeginOpen(c)] == [BeginOpen(c)];
    FirstCheck(target, s, t, [BeginOpen(c)], c, 0);
    assert [BeginOpen(c)] + [LockShared(c), LockWriter(c), Check(c), UnlockWriter(c)] ==
      [BeginOpen(c), LockShared(c), LockWriter(c), Check(c), UnlockWriter(c)];
  }

  lemma Overwrites(s: State, c: Client)
    ensures forall p, q :: Put(s, c, p)[c := q] == Put(s, c, q)
    ensures Put(s, c, s.At(c)) == s.phases || c !in s.phases
  {
  }

  lemma RunNothing(target: Client -> nat, s: State)
    ensures Run(target, s, []) == Some(s)
  {
  }

  /** From the wait for access a current database is open after four steps. */
  lemma FirstCheck(target: Client -> nat, s: State, t: State, done: seq<Step>, c: Client, round: nat)
    requires Run(target, s, done) == Some(t) && t == With(s, c, t.sharers, None, t.stored, WantShared(round))
    requires t.stored == target(c)
    ensures Run(target, s, done + [LockShared(c), LockWriter(c), Check(c), UnlockWriter(c)]) ==
      Some(With(s, c, t.sharers + {c}, None, t.stored, Open))
  {
    hide Run;
    Overwrites(s, c);
    var sharers := t.sharers + {c};
    var u := With(s, c, sharers, None, t.stored, WantWriter(round));
    RunThen(target, s, done, t, LockShared(c), u);
    var v := With(s, c, sharers, Some(c), t.stored, Checking(round));
    RunThen(target, s, done + [LockShared(c)], u, LockWriter(c), v);
    var w := With(s, c, sharers, Some(c), t.stored, Passed);
    RunThen(target, s, done + [LockShared(c)] + [LockWriter(c)], v, Check(c), w);
    var x := With(s, c, sharers, None, t.stored, Open);
    RunThen(target, s, done + [LockShared(c)] + [LockWriter(c)] + [Check(c)], w, UnlockWriter(c), x);
    assert done + [LockShared(c)] + [LockWriter(c)] + [Check(c)] + [UnlockWriter(c)] ==
      done + [LockShared(c), LockWriter(c), Check(c), UnlockWriter(c)];
  }

  /** An older one, which nobody has open, it migrates on the way. */
  lemma OpensOlder(target: Client -> nat, s: State, c: Client)
    requires s.At(c).Outside? && s.exclusive == None && s.writer == None && s.sharers == {} && s.stored < target(c)
    ensures Run(target, s, [BeginOpen(c)] + OpeningSteps(c)) == Some(With(s, c, {c}, None, target(c), Open))
  {
    hide Run;
    Overwrites(s, c);
    RunNothing(target, s);
    var t := With(s, c, {}, None, s.stored, WantShared(0));
    RunThen(target, s, [], s, BeginOpen(c), t);
    var done := [] + [BeginOpen(c)];
    assert done == [BeginOpen(c)];
    FindsOlder(target, s, t, done, c);
    done := done + [LockShared(c), LockWriter(c), Check(c), UnlockWriter(c)];
    Migrates(target, s, With(s, c, {c}, None, s.stored, StaleShared(0)), done, c);
    done := done + [UnlockShared(c), LockExclusive(c), Migrate(c), UnlockExclusive(c)];
    FirstCheck(target, s, With(s, c, {}, None, target(c), WantShared(1)), done, c, 1);
    assert done + [LockShared(c), LockWriter(c), Check(c), UnlockWriter(c)] == [BeginOpen(c)] + OpeningSteps(c);
    assert {} + {c} == {c};
  }

  lemma FindsOlder(target: Client -> nat, s: State, t: State, done: seq<Step>, c: Client)
    requires Run(target, s, done) == Some(t) && t == With(s, c, {}, None, s.stored, WantShared(0))
    requires s.stored != target(c)
    ensures Run(target, s, done + [LockShared(c), LockWriter(c), Check(c), UnlockWriter(c)]) ==
      Some(With(s, c, {c}, None, s.stored, StaleShared(0)))
  {
    hide Run;
    Overwrites(s, c);
    var u := With(s, c, {} + {c}, None, s.stored, WantWriter(0));
    RunThen(target, s, done, t, LockShared(c), u);
    var v := With(s, c, {} + {c}, Some(c), s.stored, Checking(0));
    RunThen(target, s, done + [LockShared(c)], u, LockWriter(c), v);
    var w := With(s, c, {} + {c}, Some(c), s.stored, Stale(0));
    RunThen(target, s, done + [LockShared(c)] + [LockWriter(c)], v, Check(c), w);
    var x := With(s, c, {} + {c}, None, s.stored, StaleShared(0));
    RunThen(target, s, done + [LockShared(c)] + [LockWriter(c)] + [Check(c)], w, UnlockWriter(c), x);
    assert done + [LockShared(c)] + [LockWriter(c)] + [Check(c)] + [UnlockWriter(c)] ==
      done + [LockShared(c), LockWriter(c), Check(c), UnlockWriter(c)];
    assert {} + {c} == {c};
  }

  lemma Migrates(target: Client -> nat, s: State, t: State, done: seq<Step>, c: Client)
    requires Run(target, s, done) == Some(t) && t == With(s, c, {c}, None, s.stored, StaleShared(0))
    requires s.stored <= target(c)
    ensures Run(target, s, done + [UnlockShared(c), LockExclusive(c), Migrate(c), UnlockExclusive(c)]) ==
      Some(With(s, c, {}, None, target(c), WantShared(1)))
  {
    hide Run;
    Overwrites(s, c);
    assert {c} - {c} == {};
    var u := With(s, c, {}, None, s.stored, WantExclusive(0));
    RunThen(target, s, done, t, UnlockShared(c), u);
    var v := State({}, Some(c), None, s.stored, Put(s, c, Migrating(0)));
    RunThen(target, s, done + [UnlockShared(c)], u, LockExclusive(c), v);
    var w := State({}, Some(c), None, target(c), Put(s, c, Migrated(0)));
    RunThen(target, s, done + [UnlockShared(c)] + [LockExclusive(c)], v, Migrate(c), w);
    var x := With(s, c, {}, None, target(c), WantShared(1));
    RunThen(target, s, done + [UnlockShared(c)] + [LockExclusive(c)] + [Migrate(c)], w, UnlockExclusive(c), x);
    assert done + [UnlockShared(c)] + [LockExclusive(c)] + [Migrate(c)] + [UnlockExclusive(c)] ==
      done + [UnlockShared(c), LockExclusive(c), Migrate(c), UnlockExclusive(c)];
  }

  /** Read-only, a database of the right version is open after three steps, and any other is let go again. */
  lemma OpensReadOnly(target: Client -> nat, s: State, c: Client)
    requires s.At(c).Outside? && s.exclusive == None && c !in s.sharers
    ensures s.stored == target(c) ==>
      Run(target, s, [BeginReadOnly(c), LockShared(c), Check(c)]) ==
        Some(With(s, c, s.sharers + {c}, s.writer, s.stored, Open))
    ensures s.stored != target(c) ==>
      Run(target, s, [BeginReadOnly(c), LockShared(c), Check(c), UnlockShared(c)]) ==
        Some(With(s, c, s.sharers, s.writer, s.stored, Outside))
  {
    hide Run;
    Overwrites(s, c);
    RunNothing(target, s);
    var t := With(s, c, s.sharers, s.writer, s.stored, WantSharedReadOnly);
    RunThen(target, s, [], s, BeginReadOnly(c), t);
    var u := With(s, c, s.sharers + {c}, s.writer, s.stored, CheckingReadOnly);
    RunThen(target, s, [] + [BeginReadOnly(c)], t, LockShared(c), u);
    var v := With(s, c, s.sharers + {c}, s.writer, s.stored, if s.stored == target(c) then Open else Leaving);
    RunThen(target, s, [] + [BeginReadOnly(c)] + [LockShared(c)], u, Check(c), v);
    assert [] + [BeginReadOnly(c)] + [LockShared(c)] + [Check(c)] == [BeginReadOnly(c), LockShared(c), Check(c)];
    if s.stored != target(c) {
      var w := With(s, c, s.sharers, s.writer, s.stored, Outside);
      assert s.sharers + {c} - {c} == s.sharers;
      RunThen(target, s, [BeginReadOnly(c), LockShared(c), Check(c)], v, UnlockShared(c), w);
      assert [BeginReadOnly(c), LockShared(c), Check(c)] + [UnlockShared(c)] ==
        [BeginReadOnly(c), LockShared(c), Check(c), UnlockShared(c)];
    }
  }

  /** With a connection, a client writes when the writer is free and is then connected as before, and a write that
      times out leaves it connected. */
  lemma ConnectionWrites(target: Client -> nat, s: State, c: Client)
    requires s.At(c) == Open && s.exclusive == None && c in s.sharers
    ensures s.writer == None ==>
      Run(target, s, [BeginWrite(c), LockWriter(c)]) == Some(With(s, c, s.sharers, Some(c), s.stored, Writing))
      && Run(target, s, [BeginWrite(c), LockWriter(c), UnlockWriter(c)]) == Some(s)
    ensures Run(target, s, [BeginWrite(c), TimeOut(c)]) == Some(s)
  {
    hide Run;
    Overwrites(s, c);
    RunNothing(target, s);
    var t := With(s, c, s.sharers, s.writer, s.stored, WantWrite);
    var back := With(s, c, s.sharers, s.writer, s.stored, Open);
    assert back == s;
    RunThen(target, s, [], s, BeginWrite(c), t);
    assert [] + [BeginWrite(c)] == [BeginWrite(c)];
    RunThen(target, s, [BeginWrite(c)], t, TimeOut(c), back);
    assert [BeginWrite(c)] + [TimeOut(c)] == [BeginWrite(c), TimeOut(c)];
    if s.writer == None {
      var u := With(s, c, s.sharers, Some(c), s.stored, Writing);
      RunThen(target, s, [BeginWrite(c)], t, LockWriter(c), u);
      assert [BeginWrite(c)] + [LockWriter(c)] == [BeginWrite(c), LockWriter(c)];
      RunThen(target, s, [BeginWrite(c), LockWriter(c)], u, UnlockWriter(c), back);
      assert [BeginWrite(c), LockWriter(c)] + [UnlockWriter(c)] == [BeginWrite(c), LockWriter(c), UnlockWriter(c)];
    }
  }

  /** Closing gives up everything. */
  lemma ConnectionCloses(target: Client -> nat, s: State, c: Client)
    requires s.At(c) == Open && s.exclusive == None
    ensures Run(target, s, [Close(c), UnlockShared(c)]) ==
      Some(With(s, c, s.sharers - {c}, s.writer, s.stored, Outside))
  {
    hide Run;
    Overwrites(s, c);
    RunNothing(target, s);
    var v := With(s, c, s.sharers, s.writer, s.stored, Leaving);
    RunThen(target, s, [], s, Close(c), v);
    assert [] + [Close(c)] == [Close(c)];
    RunThen(target, s, [Close(c)], v, UnlockShared(c), With(s, c, s.sharers - {c}, s.writer, s.stored, Outside));
    assert [Close(c)] + [UnlockShared(c)] == [Close(c), UnlockShared(c)];
  }

  lemma {:induction false} NeverBeyond(target: Client -> nat, s: State, steps: seq<Step>, version: nat)
    requires Initial(s) && s.stored <= version && Run(target, s, steps).Some?
    requires forall d: Client :: target(d) <= version
    ensures Run(target, s, steps).value.stored <= version
  {
    hide Do, Locks, Versions;
    if steps != [] {
      NeverBeyond(target, s, steps[..|steps| - 1], version);
      RunKeepsInv(target, s, steps[..|steps| - 1]);
      MigratesAlone(target, Run(target, s, steps[..|steps| - 1]).value, steps[|steps| - 1]);
    }
  }

  /** A database of a later version is left alone, and nobody is connected to it. */
  lemma {:induction false} FutureSchemaRefused(target: Client -> nat, s: State, steps: seq<Step>, c: Client)
    requires Initial(s) && Run(target, s, steps).Some?
    requires forall d: Client :: target(d) < s.stored
    ensures var t := Run(target, s, steps).value; t.stored == s.stored && !Connected(t.At(c))
    decreases |steps|
  {
    hide Do, Locks;
    RunKeepsInv(target, s, steps);
    assert Fits(Run(target, s, steps).value.At(c), Run(target, s, steps).value.stored, target(c));
    if steps != [] {
      var n := |steps| - 1;
      FutureSchemaRefused(target, s, steps[..n], c);
      RunKeepsInv(target, s, steps[..n]);
      MigratesAlone(target, Run(target, s, steps[..n]).value, steps[n]);
    }
  }

  // ------------------------------------------------------------ nobody waits for ever

  /** `a` waits for a lock that `b` holds. */
  ghost predicate WaitsFor(s: State, a: Client, b: Client) {
    var p := s.At(a);
    || ((p.WantShared? || p.WantSharedReadOnly?) && s.exclusive == Some(b))
    || (p.WantExclusive? && (s.exclusive == Some(b) || b in s.sharers))
    || ((p.WantWriter? || p.WantWrite?) && s.writer == Some(b))
  }

  /** Those who wait for access hold nothing, those who wait for the writer hold shared access,
      and whoever holds the writer or exclusive access does not wait. */
  function WaitRank(p: Phase): nat {
    if p.WantShared? || p.WantSharedReadOnly? || p.WantExclusive? then 2
    else if p.WantWriter? || p.WantWrite? then 1
    else 0
  }

  /** Waiting goes down the ranks, so it never goes round. */
  lemma WaitsDown(s: State, a: Client, b: Client)
    requires Locks(s) && WaitsFor(s, a, b)
    ensures WaitRank(s.At(b)) < WaitRank(s.At(a))
  {
  }

  /** What a client does next when nothing goes wrong. */
  function Onward(c: Client, p: Phase): Step {
    match p
    case Outside => BeginOpen(c)
    case WantShared(_) => LockShared(c)
    case WantSharedReadOnly => LockShared(c)
    case WantWriter(_) => LockWriter(c)
    case WantWrite => LockWriter(c)
    case Checking(_) => Check(c)
    case CheckingReadOnly => Check(c)
    case Passed => UnlockWriter(c)
    case Stale(_) => UnlockWriter(c)
    case Writing => UnlockWriter(c)
    case StaleShared(_) => UnlockShared(c)
    case Leaving => UnlockShared(c)
    case WantExclusive(_) => LockExclusive(c)
    case Migrating(_) => Migrate(c)
    case Migrated(_) => UnlockExclusive(c)
    case Open => Close(c)
  }

  /** The client can make a step of its own other than giving up. */
  ghost predicate Able(target: Client -> nat, s: State, c: Client) {
    exists step: Step :: step.c == c && !GivesUp(step) && Do(target, s, step).Some?
  }

  predicate GivesUp(step: Step) { step.TimeOut? || step.Fail? || step.Crash? }

  /** Giving up leaves no writer and no exclusive access behind, and shared access only with a connection that is still
      good or about to be closed. */
  lemma GivingUpReleases(target: Client -> nat, s: State, step: Step)
    requires Locks(s) && Do(target, s, step).Some? && (step.TimeOut? || step.Fail? || step.Crash?)
    ensures var c, t := step.c, Do(target, s, step).value;
      && t.writer != Some(c) && t.exclusive != Some(c) && t.stored == s.stored
      && ((t.At(c) == Outside && c !in t.sharers)
          || (t.At(c) == Leaving && c in t.sharers)
          || (step.TimeOut? && s.At(c) == WantWrite && t.At(c) == Open && c in t.sharers))
  {
    hide Do;
    DoKeepsLocks(target, s, step);
    GivingUpPhase(target, s, step);
  }

  lemma GivingUpPhase(target: Client -> nat, s: State, step: Step)
    requires Do(target, s, step).Some? && GivesUp(step)
    ensures var c, t := step.c, Do(target, s, step).value;
      t.stored == s.stored
      && (t.At(c) in {Outside, Leaving} || (step.TimeOut? && s.At(c) == WantWrite && t.At(c) == Open))
  {
  }

  /** A client moves on unless it waits for somebody. */
  lemma AbleOrWaits(target: Client -> nat, s: State, a: Client) returns (b: Client)
    requires Locks(s)
    ensures Able(target, s, a) || WaitsFor(s, a, b)
  {
    b := 0;
    var p := s.At(a);
    assert Do(target, s, Onward(a, p)).Some? ==> Able(target, s, a);
    if p.WantWriter? || p.WantWrite? {
      if s.writer.Some? { b := s.writer.value; }
    } else if s.exclusive.Some? {
      b := s.exclusive.value;
    } else if s.sharers != {} {
      b :| b in s.sharers;
    }
  }

  /** Every client can move on, or waits, at most at second hand, for one that can. */
  lemma NoDeadlock(target: Client -> nat, s: State, steps: seq<Step>, a: Client)
    requires Initial(s) && Run(target, s, steps).Some?
    ensures var t := Run(target, s, steps).value;
      || Able(target, t, a)
      || (exists b :: WaitsFor(t, a, b) && Able(target, t, b))
      || (exists b, d :: WaitsFor(t, a, b) && WaitsFor(t, b, d) && Able(target, t, d))
  {
    hide Run, Do, Locks;
    RunKeepsInv(target, s, steps);
    var t := Run(target, s, steps).value;
    var b := AbleOrWaits(target, t, a);
    if !Able(target, t, a) {
      var d := AbleOrWaits(target, t, b);
      WaitsDown(t, a, b);
      if !Able(target, t, b) {
        var e := AbleOrWaits(target, t, d);
        WaitsDown(t, b, d);
        if !Able(target, t, d) { WaitsDown(t, d, e); }
      }
    }
  }
}
