/** What the calls of the hosted server answer, and what they leave when they end. */
module HostAnswers {
  import opened HostAdmission
  import opened HostSafety

  type Schedule = seq<(ThreadId, Action)>

  /** The state after a schedule that starts in `s`. */
  function RunFrom(s: State, schedule: Schedule, limit: nat): State
    decreases |schedule|
  {
    if schedule == [] then s else RunFrom(Step(s, schedule[0].0, schedule[0].1, limit), schedule[1..], limit)
  }

  ghost predicate Reachable(s: State, limit: nat) {
    exists schedule: Schedule :: Run(schedule, limit) == s
  }

  /** Threads other than `t` take `s` to `s'`. */
  ghost predicate Others(t: ThreadId, s: State, s': State, limit: nat) {
    exists schedule: Schedule :: (forall i | 0 <= i < |schedule| :: schedule[i].0 != t) && RunFrom(s, schedule, limit) == s'
  }

  lemma ReachableInv(s: State, limit: nat)
    requires Reachable(s, limit)
    ensures Inv(s, limit)
  {
    hide Run, Inv;
    var schedule :| Run(schedule, limit) == s;
    RunInv(schedule, limit);
  }

  // ----- What other threads leave alone -----

  lemma ConnectKeepsPc(s: State, u: ThreadId, limit: nat, granted: bool, t: ThreadId)
    requires u != t
    ensures PcOf(AdvanceConnect(s, u, limit, granted), t) == PcOf(s, t)
  {
    match PcOf(s, u) {
      case Checked =>
      case Reserved =>
      case Authorizing =>
      case Admitted =>
      case Abandoning =>
      case Creating =>
      case Created(c) =>
      case Inserted(c) =>
      case _ =>
    }
  }

  lemma RevokeKeepsPc(s: State, u: ThreadId, t: ThreadId)
    requires u != t
    ensures PcOf(AdvanceRevoke(s, u), t) == PcOf(s, t)
  {
    match PcOf(s, u) {
      case Revoking(c, next) =>
      case Releasing(c, next) =>
      case Returning(c, next) =>
      case Removing(c, next) =>
      case _ =>
    }
  }

  lemma ObserveKeepsPc(s: State, u: ThreadId, t: ThreadId)
    requires u != t
    ensures PcOf(AdvanceObserve(s, u), t) == PcOf(s, t)
  {
    match PcOf(s, u) {
      case Closing =>
      case CloseLoop(rest) =>
      case SawDraining =>
      case _ =>
    }
  }

  lemma BeginKeepsPc(s: State, u: ThreadId, a: Action, t: ThreadId)
    requires u != t
    ensures PcOf(Begin(s, u, a), t) == PcOf(s, t)
  {
    hide InUse;
  }

  lemma OtherKeepsPc(s: State, u: ThreadId, a: Action, limit: nat, t: ThreadId)
    requires u != t
    ensures PcOf(Step(s, u, a, limit), t) == PcOf(s, t)
  {
    hide AdvanceConnect, AdvanceRevoke, AdvanceObserve, Begin;
    if a.Tick? {
      ConnectKeepsPc(s, u, limit, a.granted, t);
      RevokeKeepsPc(s, u, t);
      ObserveKeepsPc(s, u, t);
    } else {
      BeginKeepsPc(s, u, a, t);
    }
  }

  lemma StepGrows(s: State, u: ThreadId, a: Action, limit: nat)
    ensures s.nextId <= Step(s, u, a, limit).nextId
  {
    hide InUse;
  }

  lemma {:induction false} RunKeeps(s: State, schedule: Schedule, limit: nat, t: ThreadId)
    requires forall i | 0 <= i < |schedule| :: schedule[i].0 != t
    ensures PcOf(RunFrom(s, schedule, limit), t) == PcOf(s, t) && s.nextId <= RunFrom(s, schedule, limit).nextId
    decreases |schedule|
  {
    if schedule != [] {
      hide Step, PcOf;
      var (u, a) := schedule[0];
      OtherKeepsPc(s, u, a, limit, t);
      StepGrows(s, u, a, limit);
      RunKeeps(Step(s, u, a, limit), schedule[1..], limit, t);
    }
  }

  lemma OthersKeep(t: ThreadId, s: State, s': State, limit: nat)
    requires Others(t, s, s', limit)
    ensures PcOf(s', t) == PcOf(s, t) && s.nextId <= s'.nextId
  {
    hide RunFrom, PcOf;
    var schedule: Schedule :| (forall i | 0 <= i < |schedule| :: schedule[i].0 != t) && RunFrom(s, schedule, limit) == s';
    RunKeeps(s, schedule, limit, t);
  }

  // ----- Connecting -----

  function CallAction(i: nat, granted: bool): Action {
    if i == 0 then Connect else Tick(granted)
  }

  /** Thread `t` makes a connect call: `before[i]` is the state in which it takes its `i`-th step, and between its steps
      other threads do what they like. */
  ghost predicate ConnectCall(t: ThreadId, before: seq<State>, granted: bool, limit: nat) {
    && |before| == 8 && PcOf(before[0], t) == Idle
    && forall i, j | 0 <= i && j == i + 1 < 8 :: Others(t, Step(before[i], t, CallAction(i, granted), limit), before[j], limit)
  }

  /** There is a slot, authorization is granted, and the server runs whenever the call looks. */
  predicate Admissible(before: seq<State>, granted: bool, limit: nat)
    requires |before| == 8
  {
    && before[0].lifecycle.Running? && before[1].active < limit && before[2].lifecycle.Running? && granted
    && before[4].lifecycle.Running? && before[7].lifecycle.Running?
  }

  /** Where the call stands before its `i`-th step. */
  function Stand(before: seq<State>, granted: bool, limit: nat, i: nat): Pc
    requires |before| == 8 && i < 8
  {
    if i == 0 || !before[0].lifecycle.Running? then Idle
    else if i == 1 then Checked
    else if before[1].active >= limit then Idle
    else if i == 2 then Reserved
    else if !before[2].lifecycle.Running? then if i == 3 then Abandoning else Idle
    else if i == 3 then Authorizing
    else if !granted then if i == 4 then Abandoning else Idle
    else if i == 4 then Admitted
    else if !before[4].lifecycle.Running? then if i == 5 then Abandoning else Idle
    else if i == 5 then Creating
    else if i == 6 then Created(before[5].nextId)
    else Inserted(before[5].nextId)
  }

  lemma StandMoves(t: ThreadId, before: seq<State>, granted: bool, limit: nat, i: nat)
    requires |before| == 8 && i < 7 && PcOf(before[i], t) == Stand(before, granted, limit, i)
    ensures var s' := Step(before[i], t, CallAction(i, granted), limit);
            PcOf(s', t) == Stand(before, granted, limit, i + 1) && s'.returned == before[i].returned
  {
    if i > 0 {
      TickConnects(before[i], t, granted, limit);
      hide Step, AdvanceRevoke, AdvanceObserve, Begin;
      match PcOf(before[i], t) {
        case Idle =>
        case Checked =>
        case Reserved =>
        case Authorizing =>
        case Admitted =>
        case Creating =>
        case Created(c) =>
        case Abandoning =>
        case _ =>
      }
    }
  }

  lemma TickConnects(s: State, t: ThreadId, granted: bool, limit: nat)
    requires var pc := PcOf(s, t);
             !pc.Revoking? && !pc.Releasing? && !pc.Returning? && !pc.Removing? && !pc.Closing? && !pc.CloseLoop? && !pc.SawDraining?
    ensures Step(s, t, Tick(granted), limit) == AdvanceConnect(s, t, limit, granted)
  {
  }

  lemma {:induction false} StandsAt(t: ThreadId, before: seq<State>, granted: bool, limit: nat, i: nat)
    requires ConnectCall(t, before, granted, limit) && i < 8
    ensures PcOf(before[i], t) == Stand(before, granted, limit, i) && before[0].nextId <= before[i].nextId
  {
    if i > 0 {
      hide Step, Stand, PcOf, Others;
      var j := i - 1;
      StandsAt(t, before, granted, limit, j);
      StandMoves(t, before, granted, limit, j);
      StepGrows(before[j], t, CallAction(j, granted), limit);
      assert Others(t, Step(before[j], t, CallAction(j, granted), limit), before[i], limit);
      OthersKeep(t, Step(before[j], t, CallAction(j, granted), limit), before[i], limit);
    }
  }

  /** A connect call answers with a new connection exactly when there was a slot, authorization was granted and the
      server was running at each of its looks; otherwise none of its steps hands one out. */
  lemma ConnectAnswers(t: ThreadId, before: seq<State>, granted: bool, limit: nat)
    requires ConnectCall(t, before, granted, limit) && Reachable(before[0], limit)
    ensures var last, c := Step(before[7], t, Tick(granted), limit), before[5].nextId;
            if Admissible(before, granted, limit)
            then c !in before[0].conns && last.returned == before[7].returned + {c} && PcOf(last, t) == Idle
            else forall i | 0 <= i < 8 :: Step(before[i], t, CallAction(i, granted), limit).returned == before[i].returned
  {
    hide InUse, Inv, Others;
    StandsAt(t, before, granted, limit, 5);
    StandsAt(t, before, granted, limit, 7);
    ReachableInv(before[0], limit);
    NewId(before[0], before[5].nextId, limit);
    if !Admissible(before, granted, limit) {
      forall i | 0 <= i < 8 ensures Step(before[i], t, CallAction(i, granted), limit).returned == before[i].returned {
        StandsAt(t, before, granted, limit, i);
        if i < 7 { StandMoves(t, before, granted, limit, i); } else { LastReturns(t, before, granted, limit); }
      }
    }
  }

  lemma LastReturns(t: ThreadId, before: seq<State>, granted: bool, limit: nat)
    requires |before| == 8 && PcOf(before[7], t) == Stand(before, granted, limit, 7) && !Admissible(before, granted, limit)
    ensures Step(before[7], t, Tick(granted), limit).returned == before[7].returned
  {
    hide InUse;
  }

  lemma NewId(s: State, c: ConnId, limit: nat)
    requires Inv(s, limit) && s.nextId <= c
    ensures c !in s.conns
  {
    hide ThreadOk, Counted, ReleasedOnce;
  }

  /** The schedule in which one thread takes the actions in turn. */
  function Alone(t: ThreadId, actions: seq<Action>): (schedule: Schedule)
    ensures |schedule| == |actions| && forall i | 0 <= i < |actions| :: schedule[i] == (t, actions[i])
  {
    seq(|actions|, i requires 0 <= i < |actions| => (t, actions[i]))
  }

  lemma AloneFirst(s: State, t: ThreadId, actions: seq<Action>, limit: nat)
    requires actions != []
    ensures RunFrom(s, Alone(t, actions), limit) == RunFrom(Step(s, t, actions[0], limit), Alone(t, actions[1..]), limit)
  {
    assert Alone(t, actions)[1..] == Alone(t, actions[1..]);
  }

  /** Everything but where the threads stand. */
  function Shared(s: State): State {
    s.(threads := map[])
  }

  lemma ConnectBegins(s: State, t: ThreadId, limit: nat)
    requires PcOf(s, t) == Idle && s.lifecycle.Running?
    ensures var s' := Step(s, t, Connect, limit); PcOf(s', t) == Checked && Shared(s') == Shared(s)
  {
  }

  lemma GrantedStep(s: State, t: ThreadId, limit: nat)
    requires s.lifecycle.Running?
    ensures var s', pc := Step(s, t, Tick(true), limit), PcOf(s, t);
            && (pc.Checked? && s.active < limit ==> PcOf(s', t) == Reserved && Shared(s') == Shared(s).(active := s.active + 1))
            && (pc.Reserved? ==> PcOf(s', t) == Authorizing && Shared(s') == Shared(s))
            && (pc.Authorizing? ==> PcOf(s', t) == Admitted && Shared(s') == Shared(s))
            && (pc.Admitted? ==> PcOf(s', t) == Creating && Shared(s') == Shared(s))
            && (pc.Creating? ==> PcOf(s', t) == Created(s.nextId)
                                 && Shared(s') == Shared(s).(nextId := s.nextId + 1, conns := s.conns + {s.nextId}))
            && (pc.Created? ==> PcOf(s', t) == Inserted(pc.c) && Shared(s') == Shared(s).(table := s.table + {pc.c}))
            && (pc.Inserted? ==> PcOf(s', t) == Idle && Shared(s') == Shared(s).(returned := s.returned + {pc.c}))
  {
    match PcOf(s, t) {
      case Checked =>
      case Reserved =>
      case Authorizing =>
      case Admitted =>
      case Creating =>
      case Created(c) =>
      case Inserted(c) =>
      case _ =>
    }
  }

  function Ticks(n: nat): (actions: seq<Action>)
    ensures |actions| == n && forall i | 0 <= i < n :: actions[i] == Tick(true)
  {
    seq(n, i => Tick(true))
  }

  /** Steps a call with a slot has left, and what they make of the shared state when nothing interferes. */
  function Left(pc: Pc): nat {
    match pc
    case Reserved => 6
    case Authorizing => 5
    case Admitted => 4
    case Creating => 3
    case Created(_) => 2
    case Inserted(_) => 1
    case _ => 0
  }

  function Finished(s: State, pc: Pc): State {
    match pc
    case Inserted(c) => s.(returned := s.returned + {c})
    case Created(c) => s.(table := s.table + {c}, returned := s.returned + {c})
    case _ =>
      var c := s.nextId;
      s.(nextId := c + 1, conns := s.conns + {c}, table := s.table + {c}, returned := s.returned + {c})
  }

  lemma {:induction false} Finishes(s: State, t: ThreadId, n: nat, limit: nat)
    requires s.lifecycle.Running? && n > 0 && Left(PcOf(s, t)) == n
    ensures var s' := RunFrom(s, Alone(t, Ticks(n)), limit);
            PcOf(s', t) == Idle && Shared(s') == Finished(Shared(s), PcOf(s, t))
    decreases n
  {
    hide RunFrom, Step, PcOf;
    GrantedStep(s, t, limit);
    AloneFirst(s, t, Ticks(n), limit);
    assert Ticks(n)[1..] == Ticks(n - 1);
    var s' := Step(s, t, Tick(true), limit);
    assert Shared(s').lifecycle.Running?;
    if n == 1 {
      assert Ticks(0) == [];
      NoneLeft(s', t, limit);
    } else {
      Finishes(s', t, n - 1, limit);
    }
  }

  const CALL: seq<Action> := [Connect] + Ticks(7)

  lemma Granted(s: State, t: ThreadId, limit: nat)
    requires PcOf(s, t) == Idle && s.lifecycle.Running? && s.active < limit
    ensures var s' := RunFrom(s, Alone(t, CALL), limit);
            PcOf(s', t) == Idle && Shared(s') == Finished(Shared(s).(active := s.active + 1), Reserved)
  {
    hide RunFrom, Step, PcOf;
    AloneFirst(s, t, CALL, limit);
    assert CALL[1..] == Ticks(7) && Ticks(7)[1..] == Ticks(6);
    ConnectBegins(s, t, limit);
    var s' := Step(s, t, Connect, limit);
    assert Shared(s').lifecycle == s.lifecycle && Shared(s').active == s.active;
    AloneFirst(s', t, Ticks(7), limit);
    GrantedStep(s', t, limit);
    var s'' := Step(s', t, Tick(true), limit);
    assert Shared(s'').lifecycle == s.lifecycle;
    Finishes(s'', t, 6, limit);
  }

  lemma NoneLeft(s: State, t: ThreadId, limit: nat)
    ensures RunFrom(s, Alone(t, []), limit) == s
  {
  }

  /** From every state of a running server with a free slot: a call that is granted and not interfered with takes one
      slot and answers with a connection that is new, registered and open. */
  lemma ConnectSucceeds(s: State, t: ThreadId, limit: nat)
    requires Reachable(s, limit) && PcOf(s, t) == Idle && s.lifecycle.Running? && s.active < limit
    ensures var s', c := RunFrom(s, Alone(t, CALL), limit), s.nextId;
            && c !in s.conns && s'.returned == s.returned + {c} && c in s'.table && c !in s'.closed
            && s'.active == s.active + 1 && PcOf(s', t) == Idle
  {
    hide Inv, RunFrom;
    ReachableInv(s, limit);
    NewId(s, s.nextId, limit);
    Granted(s, t, limit);
    ClosedIsCreated(s, limit);
  }

  lemma ClosedIsCreated(s: State, limit: nat)
    requires Inv(s, limit)
    ensures s.closed <= s.conns
  {
    hide ThreadOk, Counted, ReleasedOnce;
  }

  // ----- Draining and closing -----

  /** The lifecycle moves only by a drain on a running server and by a close on one not yet closed, and these two
      always move it. */
  lemma LifecycleMoves(s: State, t: ThreadId, a: Action, limit: nat)
    ensures var s' := Step(s, t, a, limit);
            && (PcOf(s, t) == Idle && a.Drain? && s.lifecycle.Running? ==> s'.lifecycle.Draining?)
            && (PcOf(s, t) == Idle && a.Close? ==> s'.lifecycle.Closed?)
            && (s'.lifecycle != s.lifecycle ==> PcOf(s, t) == Idle && ((a.Drain? && s.lifecycle.Running?) || a.Close?))
  {
    hide InUse;
  }

  /** A drained-query on a draining server answers yes exactly when the counter it reads is zero, whatever other threads
      do in between; and on any other server it does not answer yes. */
  lemma DrainedAnswers(t: ThreadId, s: State, later: State, granted: bool, limit: nat)
    requires PcOf(s, t) == Idle && Others(t, Step(s, t, AskDrained, limit), later, limit) && !later.drainedSeen
    ensures var last := Step(later, t, Tick(granted), limit);
            && (last.drainedSeen <==> s.lifecycle.Draining? && later.active == 0)
            && PcOf(last, t) == Idle
  {
    hide Others;
    OthersKeep(t, Step(s, t, AskDrained, limit), later, limit);
  }

  /** What a revocation leaves when it has run to its end: the connection closed, its lease released, and one slot given
      back unless it was before. */
  ghost predicate Revoked(s: State, s': State, c: ConnId) {
    Shared(s') == if c in s.released then Shared(s).(closed := s.closed + {c})
                  else Shared(s).(closed := s.closed + {c}, released := s.released + {c}, table := s.table - {c}, active := s.active - 1,
                                  givenBack := s.givenBack + multiset{c})
  }

  lemma RevokeSteps(s: State, t: ThreadId, granted: bool, limit: nat)
    ensures var s', pc := Step(s, t, Tick(granted), limit), PcOf(s, t);
            && (pc.Revoking? ==> PcOf(s', t) == Releasing(pc.c, pc.next) && Shared(s') == Shared(s).(closed := s.closed + {pc.c}))
            && (pc.Releasing? && pc.c in s.released ==> PcOf(s', t) == Resume(pc.next) && Shared(s') == Shared(s))
            && (pc.Releasing? && pc.c !in s.released ==>
                  PcOf(s', t) == Returning(pc.c, pc.next) && Shared(s') == Shared(s).(released := s.released + {pc.c}))
            && (pc.Returning? ==> PcOf(s', t) == Removing(pc.c, pc.next)
                                  && Shared(s') == Shared(s).(active := s.active - 1, givenBack := s.givenBack + multiset{pc.c}))
            && (pc.Removing? ==> PcOf(s', t) == Resume(pc.next) && Shared(s') == Shared(s).(table := s.table - {pc.c}))
  {
    match PcOf(s, t) {
      case Revoking(c, next) =>
      case Releasing(c, next) =>
      case Returning(c, next) =>
      case Removing(c, next) =>
      case _ =>
    }
  }

  lemma RevokeEnds(s: State, t: ThreadId, c: ConnId, next: Then, limit: nat) returns (n: nat)
    requires PcOf(s, t) == Revoking(c, next)
    ensures var s' := RunFrom(s, Alone(t, Ticks(n)), limit);
            PcOf(s', t) == Resume(next) && Revoked(s, s', c)
  {
    hide RunFrom, Step, PcOf, Resume;
    n := if c in s.released then 2 else 4;
    RevokeSteps(s, t, true, limit);
    var s1 := TickFirst(s, t, n, limit);
    assert Shared(s1).released == s.released;
    RevokeSteps(s1, t, true, limit);
    var s2 := TickFirst(s1, t, n - 1, limit);
    if c in s.released {
      LastTick(s2, t, limit);
    } else {
      RevokeSteps(s2, t, true, limit);
      var s3 := TickFirst(s2, t, 2, limit);
      RevokeSteps(s3, t, true, limit);
      var s4 := TickFirst(s3, t, 1, limit);
      LastTick(s4, t, limit);
    }
  }

  lemma TickFirst(s: State, t: ThreadId, n: nat, limit: nat) returns (s': State)
    requires n > 0
    ensures s' == Step(s, t, Tick(true), limit)
    ensures RunFrom(s, Alone(t, Ticks(n)), limit) == RunFrom(s', Alone(t, Ticks(n - 1)), limit)
  {
    hide RunFrom, Step;
    AloneFirst(s, t, Ticks(n), limit);
    assert Ticks(n)[1..] == Ticks(n - 1);
    s' := Step(s, t, Tick(true), limit);
  }

  lemma LastTick(s: State, t: ThreadId, limit: nat)
    ensures RunFrom(s, Alone(t, Ticks(0)), limit) == s
  {
    assert Ticks(0) == [];
  }

  lemma {:induction false} RunFromThen(s: State, a: Schedule, b: Schedule, limit: nat)
    ensures RunFrom(s, a + b, limit) == RunFrom(RunFrom(s, a, limit), b, limit)
    decreases |a|
  {
    if a == [] {
      assert a + b == b;
    } else {
      hide Step;
      assert (a + b)[1..] == a[1..] + b;
      RunFromThen(Step(s, a[0].0, a[0].1, limit), a[1..], b, limit);
    }
  }

  lemma AloneThen(s: State, t: ThreadId, a: seq<Action>, b: seq<Action>, limit: nat)
    ensures RunFrom(s, Alone(t, a + b), limit) == RunFrom(RunFrom(s, Alone(t, a), limit), Alone(t, b), limit)
  {
    assert Alone(t, a + b) == Alone(t, a) + Alone(t, b);
    RunFromThen(s, Alone(t, a), Alone(t, b), limit);
  }

  /** Revoking a connection, or dropping its last reference, closes it. */
  lemma RevokeCloses(s: State, t: ThreadId, a: Action, limit: nat) returns (n: nat)
    requires a.Revoke? || a.Drop?
    requires PcOf(s, t) == Idle && a.c in s.conns - s.dropped && (a.Drop? ==> !InUse(s, a.c))
    ensures var s' := RunFrom(s, Alone(t, [a] + Ticks(n)), limit);
            && PcOf(s', t) == Idle
            && Revoked(if a.Drop? then s.(dropped := s.dropped + {a.c}) else s, s', a.c)
  {
    var s1 := Step(s, t, a, limit);
    assert PcOf(s1, t) == Revoking(a.c, Stop);
    assert Shared(s1) == Shared(if a.Drop? then s.(dropped := s.dropped + {a.c}) else s);
    hide RunFrom, Step, PcOf, InUse;
    n := RevokeEnds(s1, t, a.c, Stop, limit);
    AloneFirst(s, t, [a] + Ticks(n), limit);
    assert ([a] + Ticks(n))[1..] == Ticks(n);
  }

  lemma PickBegins(s: State, t: ThreadId, c: ConnId, limit: nat)
    requires PcOf(s, t).CloseLoop? && c in PcOf(s, t).rest
    ensures var s' := Step(s, t, Pick(c), limit);
            PcOf(s', t) == Revoking(c, Continue(PcOf(s, t).rest - {c})) && Shared(s') == Shared(s)
  {
  }

  lemma LoopEnds(s: State, t: ThreadId, limit: nat)
    requires PcOf(s, t) == CloseLoop({})
    ensures var s' := RunFrom(s, Alone(t, [Tick(true)]), limit);
            s'.closeFinished && s'.closed == s.closed && s'.lifecycle == s.lifecycle && PcOf(s', t) == Idle
  {
    AloneFirst(s, t, [Tick(true)], limit);
  }

  lemma {:induction false} CloseRest(s: State, t: ThreadId, rest: set<ConnId>, limit: nat) returns (actions: seq<Action>)
    requires PcOf(s, t) == CloseLoop(rest)
    ensures var s' := RunFrom(s, Alone(t, actions), limit);
            s'.closeFinished && s.closed + rest <= s'.closed && s'.lifecycle == s.lifecycle && PcOf(s', t) == Idle
    decreases |rest|
  {
    hide RunFrom, Step, PcOf;
    if rest == {} {
      actions := [Tick(true)];
      LoopEnds(s, t, limit);
    } else {
      var c :| c in rest;
      PickBegins(s, t, c, limit);
      var s1 := Step(s, t, Pick(c), limit);
      var n := RevokeEnds(s1, t, c, Continue(rest - {c}), limit);
      var s2 := RunFrom(s1, Alone(t, Ticks(n)), limit);
      assert Shared(s2).closed == s.closed + {c} && Shared(s2).lifecycle == s.lifecycle;
      var more := CloseRest(s2, t, rest - {c}, limit);
      actions := [Pick(c)] + (Ticks(n) + more);
      AloneFirst(s, t, actions, limit);
      assert actions[1..] == Ticks(n) + more;
      AloneThen(s1, t, Ticks(n), more, limit);
    }
  }

  /** A close call that swaps the lifecycle and runs on ends: it has then closed every connection it found registered and
      referenced. */
  lemma CloseEnds(s: State, t: ThreadId, limit: nat) returns (actions: seq<Action>)
    requires PcOf(s, t) == Idle && !s.lifecycle.Closed?
    ensures actions != [] && actions[0] == Close
    ensures var s' := RunFrom(s, Alone(t, actions), limit);
            s'.closeFinished && s'.lifecycle.Closed? && s.table - s.dropped <= s'.closed && PcOf(s', t) == Idle
  {
    var s1 := Step(s, t, Close, limit);
    var s2 := Step(s1, t, Tick(true), limit);
    assert PcOf(s2, t) == CloseLoop(s.table - s.dropped) && s2.lifecycle.Closed?;
    hide RunFrom, Step, PcOf;
    var more := CloseRest(s2, t, s.table - s.dropped, limit);
    actions := [Close, Tick(true)] + more;
    AloneFirst(s, t, actions, limit);
    assert actions[1..] == [Tick(true)] + more && actions[1..][1..] == more;
    AloneFirst(s1, t, actions[1..], limit);
  }
}
