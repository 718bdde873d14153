/** What every interleaving of the hosted server keeps. */
module HostSafety {
  import opened HostAdmission

  // ----- Invariants -----

  predicate InClose(pc: Pc) {
    || pc.CloseLoop?
    || ((pc.Revoking? || pc.Releasing? || pc.Returning? || pc.Removing?) && pc.next.Continue?)
  }

  /** Connections returned to a caller, still referenced, and not closed. */
  function Open(s: State): set<ConnId> {
    s.returned - s.dropped - s.closed
  }

  /** What holds of every thread, by where it stands:
      it only mentions existing connections;
      it gives a slot back only for a connection that is closed and whose lease it released;
      after a truthful `is_drained` it is not about to create a connection;
      while closing the server it still holds every connection a caller could find open. */
  ghost predicate ThreadOk(s: State, pc: Pc) {
    && Held(pc) <= s.conns
    && (pc.Releasing? ==> pc.c in s.closed)
    && (pc.Returning? || pc.Removing? ==> pc.c in s.released)
    && (pc.SawDraining? ==> !s.lifecycle.Running?)
    && (s.drainedSeen ==> !pc.Authorizing? && !pc.Admitted? && !pc.Creating?)
    && (pc.Closing? || InClose(pc) ==> s.lifecycle.Closed?)
    && (InClose(pc) ==> Open(s) <= Held(pc))
    && (pc.Inserted? ==> pc.c in s.table + s.closed)
  }

  /** What holds of the shared state and of what callers were told. */
  ghost predicate SharedOk(s: State) {
    && (forall c | c in s.conns :: c < s.nextId)
    && s.closed <= s.conns && s.dropped <= s.conns && s.table <= s.conns && s.returned <= s.conns
    && s.released <= s.closed
    && s.returned <= s.table + s.closed
    && (s.drainedSeen ==> !s.lifecycle.Running? && s.conns <= s.closed)
    && (s.closeFinished ==> s.lifecycle.Closed? && Open(s) == {})
  }

  predicate IsPending(pc: Pc) {
    pc.Reserved? || pc.Authorizing? || pc.Admitted? || pc.Creating? || pc.Abandoning?
  }

  function Pending(threads: map<ThreadId, Pc>): set<ThreadId> {
    set t | t in threads && IsPending(threads[t])
  }

  function Returns(threads: map<ThreadId, Pc>): set<ThreadId> {
    set t | t in threads && threads[t].Returning?
  }

  /** Every slot is owned by exactly one reservation, unreleased lease or release in progress. */
  ghost predicate Counted(s: State, limit: nat) {
    s.active == |Pending(s.threads)| + |s.conns - s.released| + |Returns(s.threads)| && s.active <= limit
  }

  /** Thread `t` is the one giving back the slot of connection `c`. */
  predicate ReturnsSlot(s: State, t: ThreadId, c: ConnId) {
    t in s.threads && s.threads[t].Returning? && s.threads[t].c == c
  }

  /** Each released lease was given back once, or is being given back by exactly one thread. */
  ghost predicate ReleasedOnce(s: State) {
    && (forall t, u | t in s.threads && u in s.threads && s.threads[t].Returning? && s.threads[u].Returning?
                      && s.threads[t].c == s.threads[u].c :: t == u)
    && (forall t | t in s.threads && s.threads[t].Returning? :: s.threads[t].c !in s.givenBack)
    && (forall c | c in s.givenBack :: c in s.released && s.givenBack[c] == 1)
    && (forall c | c in s.released && c !in s.givenBack :: exists t :: ReturnsSlot(s, t, c))
  }

  ghost predicate ThreadsOk(s: State) {
    forall t | t in s.threads :: ThreadOk(s, s.threads[t])
  }

  ghost predicate Inv(s: State, limit: nat) {
    SharedOk(s) && ThreadsOk(s) && Counted(s, limit) && ReleasedOnce(s)
  }

  // ----- What a step may change -----

  /** Flags only go up, the lifecycle only moves on, a registered connection leaves the registry only
      when closed, and other threads stay where they are. */
  ghost predicate Moves(s: State, s': State, t: ThreadId) {
    && s.conns <= s'.conns && s.closed <= s'.closed && s.released <= s'.released
    && s.table <= s'.table + s'.closed
    && (s'.lifecycle.Running? ==> s.lifecycle.Running?)
    && (s.lifecycle.Closed? ==> s'.lifecycle.Closed? && s'.returned == s.returned && s.dropped <= s'.dropped)
    && (s.drainedSeen ==> s'.drainedSeen)
    && (s'.drainedSeen && !s.drainedSeen ==> s.active == 0)
    && (s.closeFinished ==> s'.closeFinished)
    && s'.threads.Keys <= s.threads.Keys + {t}
    && (forall u | u in s.threads && u != t :: u in s'.threads && s'.threads[u] == s.threads[u])
  }

  lemma ConnectMoves(s: State, t: ThreadId, limit: nat, granted: bool)
    requires SharedOk(s) && ThreadOk(s, PcOf(s, t))
    ensures Moves(s, AdvanceConnect(s, t, limit, granted), t)
  {
    match PcOf(s, t) {
      case Checked =>
      case Reserved =>
      case Authorizing =>
      case Admitted =>
      case Abandoning =>
      case Creating =>
      case Created(c) =>
      case Inserted(c) =>
      case _ =>
    }
  }

  lemma RevokeMoves(s: State, t: ThreadId)
    requires SharedOk(s) && ThreadOk(s, PcOf(s, t))
    ensures Moves(s, AdvanceRevoke(s, t), t)
  {
    match PcOf(s, t) {
      case Revoking(c, next) =>
      case Releasing(c, next) =>
      case Returning(c, next) =>
      case Removing(c, next) =>
      case _ =>
    }
  }

  lemma ObserveMoves(s: State, t: ThreadId)
    requires SharedOk(s) && ThreadOk(s, PcOf(s, t))
    ensures Moves(s, AdvanceObserve(s, t), t)
  {
    match PcOf(s, t) {
      case Closing =>
      case CloseLoop(rest) =>
      case SawDraining =>
      case _ =>
    }
  }

  lemma BeginMoves(s: State, t: ThreadId, a: Action)
    requires SharedOk(s) && ThreadOk(s, PcOf(s, t))
    ensures Moves(s, Begin(s, t, a), t)
  {
    hide InUse;
    match a {
      case Connect =>
      case Drain =>
      case Close =>
      case AskDrained =>
      case Revoke(c) =>
      case Drop(c) =>
      case Pick(c) =>
      case Tick(_) =>
    }
  }

  // ----- The shared state and the moving thread -----

  lemma ConnectShared(s: State, t: ThreadId, limit: nat, granted: bool)
    requires SharedOk(s) && ThreadOk(s, PcOf(s, t))
    ensures SharedOk(AdvanceConnect(s, t, limit, granted))
  {
    match PcOf(s, t) {
      case Checked =>
      case Reserved =>
      case Authorizing =>
      case Admitted =>
      case Abandoning =>
      case Creating =>
      case Created(c) =>
      case Inserted(c) =>
      case _ =>
    }
  }

  lemma ConnectThread(s: State, t: ThreadId, limit: nat, granted: bool)
    requires SharedOk(s) && ThreadOk(s, PcOf(s, t))
    ensures var s' := AdvanceConnect(s, t, limit, granted); ThreadOk(s', PcOf(s', t))
  {
    match PcOf(s, t) {
      case Checked =>
      case Reserved =>
      case Authorizing =>
      case Admitted =>
      case Abandoning =>
      case Creating =>
      case Created(c) =>
      case Inserted(c) =>
      case _ =>
    }
  }

  lemma RevokeShared(s: State, t: ThreadId)
    requires SharedOk(s) && ThreadOk(s, PcOf(s, t))
    ensures SharedOk(AdvanceRevoke(s, t))
  {
    match PcOf(s, t) {
      case Revoking(c, next) =>
      case Releasing(c, next) =>
      case Returning(c, next) =>
      case Removing(c, next) =>
      case _ =>
    }
  }

  lemma RevokeThread(s: State, t: ThreadId)
    requires SharedOk(s) && ThreadOk(s, PcOf(s, t))
    ensures var s' := AdvanceRevoke(s, t); ThreadOk(s', PcOf(s', t))
  {
    match PcOf(s, t) {
      case Revoking(c, next) =>
      case Releasing(c, next) =>
      case Returning(c, next) =>
      case Removing(c, next) =>
      case _ =>
    }
  }

  lemma ObserveShared(s: State, t: ThreadId)
    requires SharedOk(s) && ThreadOk(s, PcOf(s, t)) && (s.active == 0 ==> s.conns <= s.released)
    ensures SharedOk(AdvanceObserve(s, t))
  {
    match PcOf(s, t) {
      case Closing =>
      case CloseLoop(rest) =>
      case SawDraining =>
      case _ =>
    }
  }

  lemma ObserveThread(s: State, t: ThreadId)
    requires SharedOk(s) && ThreadOk(s, PcOf(s, t))
    ensures var s' := AdvanceObserve(s, t); ThreadOk(s', PcOf(s', t))
  {
    match PcOf(s, t) {
      case Closing =>
      case CloseLoop(rest) =>
      case SawDraining =>
      case _ =>
    }
  }

  lemma BeginShared(s: State, t: ThreadId, a: Action)
    requires SharedOk(s) && ThreadOk(s, PcOf(s, t))
    ensures SharedOk(Begin(s, t, a))
  {
    hide InUse;
    match a {
      case Connect =>
      case Drain =>
      case Close =>
      case AskDrained =>
      case Revoke(c) =>
      case Drop(c) =>
      case Pick(c) =>
      case Tick(_) =>
    }
  }

  lemma BeginThread(s: State, t: ThreadId, a: Action)
    requires SharedOk(s) && ThreadOk(s, PcOf(s, t))
    ensures var s' := Begin(s, t, a); ThreadOk(s', PcOf(s', t))
  {
    hide InUse;
    match a {
      case Connect =>
      case Drain =>
      case Close =>
      case AskDrained =>
      case Revoke(c) =>
      case Drop(c) =>
      case Pick(c) =>
      case Tick(_) =>
    }
  }

  // ----- The other threads -----

  /** A thread that did not move is still in order. */
  lemma OtherThread(s: State, s': State, t: ThreadId, u: ThreadId)
    requires SharedOk(s) && Moves(s, s', t) && u != t && u in s.threads && ThreadOk(s, s.threads[u])
    requires s.active == 0 ==> !IsPending(s.threads[u])
    ensures ThreadOk(s', s'.threads[u])
  {
  }

  lemma NobodyPending(s: State, limit: nat)
    requires Counted(s, limit) && s.active == 0
    ensures s.conns <= s.released && forall u | u in s.threads :: !IsPending(s.threads[u])
  {
    assert Pending(s.threads) == {} && s.conns - s.released == {};
    forall c | c in s.conns ensures c in s.released { assert c !in s.conns - s.released; }
    forall u | u in s.threads ensures !IsPending(s.threads[u]) { assert u !in Pending(s.threads); }
  }

  lemma StepKeepsOk(s: State, t: ThreadId, a: Action, limit: nat)
    requires Inv(s, limit)
    ensures Moves(s, Step(s, t, a, limit), t)
    ensures SharedOk(Step(s, t, a, limit)) && ThreadsOk(Step(s, t, a, limit))
  {
    hide AdvanceConnect, AdvanceRevoke, AdvanceObserve, Begin, Moves, SharedOk, ReleasedOnce, ThreadOk, Counted;
    assert ThreadOk(s, PcOf(s, t)) by { IdleOk(s, t); }
    if s.active == 0 { NobodyPending(s, limit); }
    var s' := Step(s, t, a, limit);
    if !a.Tick? {
      BeginMoves(s, t, a); BeginShared(s, t, a); BeginThread(s, t, a);
    } else {
      ConnectMoves(s, t, limit, a.granted); ConnectShared(s, t, limit, a.granted); ConnectThread(s, t, limit, a.granted);
      RevokeMoves(s, t); RevokeShared(s, t); RevokeThread(s, t);
      ObserveMoves(s, t); ObserveShared(s, t); ObserveThread(s, t);
    }
    assert Moves(s, s', t) && SharedOk(s') && ThreadOk(s', PcOf(s', t));
    forall u | u in s'.threads ensures ThreadOk(s', s'.threads[u]) {
      if u != t {
        MovesOther(s, s', t, u);
        OtherThread(s, s', t, u);
      }
    }
  }

  lemma IdleOk(s: State, t: ThreadId)
    requires ThreadsOk(s)
    ensures ThreadOk(s, PcOf(s, t))
  {
  }

  lemma MovesOther(s: State, s': State, t: ThreadId, u: ThreadId)
    requires Moves(s, s', t) && u in s'.threads && u != t
    ensures u in s.threads
  {
  }

  // ----- The connection counter -----

  /** Moving one thread changes a set of threads by that thread at most. */
  lemma MovePending(threads: map<ThreadId, Pc>, t: ThreadId, pc: Pc)
    ensures |Pending(threads[t := pc])| - (if IsPending(pc) then 1 else 0)
            == |Pending(threads)| - (if t in threads && IsPending(threads[t]) then 1 else 0)
  {
    var before, after := Pending(threads), Pending(threads[t := pc]);
    assert before - {t} == after - {t};
    if t in before { assert before == before - {t} + {t}; } else { assert before == before - {t}; }
    if t in after { assert after == after - {t} + {t}; } else { assert after == after - {t}; }
  }

  lemma MoveReturns(threads: map<ThreadId, Pc>, t: ThreadId, pc: Pc)
    ensures |Returns(threads[t := pc])| - (if pc.Returning? then 1 else 0)
            == |Returns(threads)| - (if t in threads && threads[t].Returning? then 1 else 0)
  {
    var before, after := Returns(threads), Returns(threads[t := pc]);
    assert before - {t} == after - {t};
    if t in before { assert before == before - {t} + {t}; } else { assert before == before - {t}; }
    if t in after { assert after == after - {t} + {t}; } else { assert after == after - {t}; }
  }

  /** Slots owned by a thread. */
  function Owns(pc: Pc): nat {
    if IsPending(pc) || pc.Returning? then 1 else 0
  }

  function LeaseCount(conns: set<ConnId>, released: set<ConnId>): nat {
    |conns - released|
  }

  /** The counter moves with the slots owned by thread `t` and with the unreleased leases. */
  ghost predicate Balanced(s: State, s': State, t: ThreadId) {
    && (s'.threads == s.threads || s'.threads == s.threads[t := PcOf(s', t)])
    && s'.active - Owns(PcOf(s', t)) - LeaseCount(s'.conns, s'.released) == s.active - Owns(PcOf(s, t)) - LeaseCount(s.conns, s.released)
  }

  lemma ConnectBalanced(s: State, t: ThreadId, limit: nat, granted: bool)
    requires SharedOk(s) && s.active <= limit
    ensures Balanced(s, AdvanceConnect(s, t, limit, granted), t)
    ensures AdvanceConnect(s, t, limit, granted).active <= limit
  {
    hide LeaseCount;
    match PcOf(s, t) {
      case Checked =>
      case Reserved =>
      case Authorizing =>
      case Admitted =>
      case Abandoning =>
      case Creating => LeaseCreated(s);
      case Created(c) =>
      case Inserted(c) =>
      case _ =>
    }
  }

  lemma LeaseCreated(s: State)
    requires SharedOk(s)
    ensures LeaseCount(s.conns + {s.nextId}, s.released) == LeaseCount(s.conns, s.released) + 1
  {
    assert s.nextId !in s.conns;
    assert s.conns + {s.nextId} - s.released == s.conns - s.released + {s.nextId};
  }

  lemma LeaseReleased(s: State, c: ConnId)
    requires c in s.conns && c !in s.released
    ensures LeaseCount(s.conns, s.released) == LeaseCount(s.conns, s.released + {c}) + 1
  {
    assert s.conns - s.released == s.conns - (s.released + {c}) + {c};
  }

  lemma RevokeBalanced(s: State, t: ThreadId)
    requires ThreadOk(s, PcOf(s, t))
    ensures Balanced(s, AdvanceRevoke(s, t), t) && AdvanceRevoke(s, t).active <= s.active
  {
    hide LeaseCount;
    match PcOf(s, t) {
      case Revoking(c, next) =>
      case Releasing(c, next) => if c !in s.released { LeaseReleased(s, c); }
      case Returning(c, next) =>
      case Removing(c, next) =>
      case _ =>
    }
  }

  lemma ObserveBalanced(s: State, t: ThreadId)
    ensures Balanced(s, AdvanceObserve(s, t), t) && AdvanceObserve(s, t).active == s.active
  {
    hide LeaseCount;
    match PcOf(s, t) {
      case Closing =>
      case CloseLoop(rest) =>
      case SawDraining =>
      case _ =>
    }
  }

  lemma BeginBalanced(s: State, t: ThreadId, a: Action)
    ensures Balanced(s, Begin(s, t, a), t) && Begin(s, t, a).active == s.active
  {
    hide InUse, LeaseCount;
    match a {
      case Connect =>
      case Drain =>
      case Close =>
      case AskDrained =>
      case Revoke(c) =>
      case Drop(c) =>
      case Pick(c) =>
      case Tick(_) =>
    }
  }

  lemma StepBalanced(s: State, t: ThreadId, a: Action, limit: nat)
    requires SharedOk(s) && ThreadOk(s, PcOf(s, t)) && s.active <= limit
    ensures Balanced(s, Step(s, t, a, limit), t)
    ensures Step(s, t, a, limit).active <= limit
  {
    hide SharedOk, ThreadOk, Balanced, AdvanceConnect, AdvanceRevoke, AdvanceObserve, Begin;
    if a.Tick? {
      ConnectBalanced(s, t, limit, a.granted);
      RevokeBalanced(s, t);
      ObserveBalanced(s, t);
    } else {
      BeginBalanced(s, t, a);
    }
  }

  /** The counter is exact after every step, and never above the limit. */
  lemma StepCounted(s: State, t: ThreadId, a: Action, limit: nat)
    requires Inv(s, limit)
    ensures Counted(Step(s, t, a, limit), limit)
  {
    hide Step, SharedOk, ReleasedOnce, ThreadOk, Pending, Returns, InUse;
    IdleOk(s, t);
    StepBalanced(s, t, a, limit);
    var s' := Step(s, t, a, limit);
    MovePending(s.threads, t, PcOf(s', t));
    MoveReturns(s.threads, t, PcOf(s', t));
  }

  // ----- Release exactly once -----

  /** The step of `t` leaves the slot accounting alone, wins the lease of a connection, or gives its slot back. */
  ghost predicate SlotStep(s: State, s': State, t: ThreadId) {
    var pc, pc' := PcOf(s, t), PcOf(s', t);
    || (s'.givenBack == s.givenBack && s'.released == s.released && !pc'.Returning? && !pc.Returning?)
    || s' == s
    || (pc'.Returning? && !pc.Returning? && pc'.c !in s.released && s'.givenBack == s.givenBack
        && s'.released == s.released + {pc'.c})
    || (pc.Returning? && !pc'.Returning? && s'.givenBack == s.givenBack + multiset{pc.c} && s'.released == s.released)
  }

  lemma StepSlot(s: State, t: ThreadId, a: Action, limit: nat)
    ensures SlotStep(s, Step(s, t, a, limit), t)
  {
    hide InUse;
    if a.Tick? {
      match PcOf(s, t) {
        case Idle =>
        case Checked =>
        case Reserved =>
        case Authorizing =>
        case Admitted =>
        case Abandoning =>
        case Creating =>
        case Created(c) =>
        case Inserted(c) =>
        case Revoking(c, next) =>
        case Releasing(c, next) =>
        case Returning(c, next) =>
        case Removing(c, next) =>
        case Closing =>
        case CloseLoop(rest) =>
        case SawDraining =>
      }
    } else {
      match a {
        case Connect =>
        case Drain =>
        case Close =>
        case AskDrained =>
        case Revoke(c) =>
        case Drop(c) =>
        case Pick(c) =>
      }
    }
  }

  lemma SlotPromised(s: State, s': State, t: ThreadId, c: ConnId)
    requires ReleasedOnce(s) && SlotStep(s, s', t) && Moves(s, s', t)
    requires c in s'.released && c !in s'.givenBack
    ensures exists u :: ReturnsSlot(s', u, c)
  {
    if c in s.released {
      var u :| ReturnsSlot(s, u, c);
      assert ReturnsSlot(s', u, c);
    } else {
      assert ReturnsSlot(s', t, c);
    }
  }

  lemma SlotUnique(s: State, s': State, t: ThreadId)
    requires ReleasedOnce(s) && ThreadsOk(s) && SlotStep(s, s', t) && Moves(s, s', t)
    ensures forall u, v | u in s'.threads && v in s'.threads && s'.threads[u].Returning? && s'.threads[v].Returning?
                          && s'.threads[u].c == s'.threads[v].c :: u == v
    ensures forall u | u in s'.threads && s'.threads[u].Returning? :: s'.threads[u].c !in s'.givenBack
    ensures forall c | c in s'.givenBack :: c in s'.released && s'.givenBack[c] == 1
  {
    hide InClose, Open;
    assert forall u | u in s'.threads && u != t :: u in s.threads && s'.threads[u] == s.threads[u];
    assert forall u | u in s.threads :: ThreadOk(s, s.threads[u]);
  }

  /** No slot is given back twice, whatever revocations, expirations, closes and drops race. */
  lemma StepReleasedOnce(s: State, t: ThreadId, a: Action, limit: nat)
    requires Inv(s, limit)
    ensures ReleasedOnce(Step(s, t, a, limit))
  {
    hide Step, Counted, SharedOk, ThreadOk, SlotStep, Moves;
    var s' := Step(s, t, a, limit);
    StepSlot(s, t, a, limit);
    StepKeepsOk(s, t, a, limit);
    SlotUnique(s, s', t);
    forall c | c in s'.released && c !in s'.givenBack ensures exists u :: ReturnsSlot(s', u, c) {
      SlotPromised(s, s', t, c);
    }
  }

  // ----- Dropping closes -----

  /** Thread `t` is about to close connection `c` on its own account. */
  predicate AboutToClose(s: State, t: ThreadId, c: ConnId) {
    t in s.threads && s.threads[t] == Revoking(c, Stop)
  }

  /** A connection whose last reference is gone is closed, or its drop is about to close it. */
  ghost predicate DropsClose(s: State) {
    forall c | c in s.dropped && c !in s.closed :: exists t :: AboutToClose(s, t, c)
  }

  /** Only a drop removes the last reference, and it goes on to close; a revocation under way closes. */
  lemma StepDrops(s: State, t: ThreadId, a: Action, limit: nat)
    ensures var s' := Step(s, t, a, limit);
            && (s'.dropped == s.dropped || (a.Drop? && s'.dropped == s.dropped + {a.c} && AboutToClose(s', t, a.c)))
            && (PcOf(s, t).Revoking? ==> s' == s || PcOf(s, t).c in s'.closed)
  {
    hide InUse;
    if a.Tick? {
      match PcOf(s, t) {
        case Revoking(c, next) =>
        case Releasing(c, next) =>
        case Returning(c, next) =>
        case Removing(c, next) =>
        case Closing =>
        case CloseLoop(rest) =>
        case SawDraining =>
        case _ =>
      }
    } else {
      match a {
        case Connect =>
        case Drain =>
        case Close =>
        case AskDrained =>
        case Revoke(c) =>
        case Drop(c) =>
        case Pick(c) =>
      }
    }
  }

  lemma StepDropsClose(s: State, t: ThreadId, a: Action, limit: nat)
    requires Inv(s, limit) && DropsClose(s)
    ensures DropsClose(Step(s, t, a, limit))
  {
    hide Step, Counted, SharedOk, ThreadOk, ReleasedOnce;
    var s' := Step(s, t, a, limit);
    StepKeepsOk(s, t, a, limit);
    StepDrops(s, t, a, limit);
    forall c | c in s'.dropped && c !in s'.closed ensures exists u :: AboutToClose(s', u, c) {
      if c in s.dropped {
        var u :| AboutToClose(s, u, c);
        assert AboutToClose(s', u, c);
      } else {
        assert AboutToClose(s', t, c);
      }
    }
  }

  // ----- Every interleaving -----

  lemma {:induction false} RunInv(schedule: seq<(ThreadId, Action)>, limit: nat)
    ensures Inv(Run(schedule, limit), limit)
  {
    if schedule == [] {
      assert Pending(START.threads) == {} && Returns(START.threads) == {} && START.conns - START.released == {};
    } else {
      hide Step, Counted, SharedOk, ThreadOk, ReleasedOnce;
      var init, last := schedule[..|schedule| - 1], schedule[|schedule| - 1];
      RunInv(init, limit);
      var s := Run(init, limit);
      StepKeepsOk(s, last.0, last.1, limit);
      StepCounted(s, last.0, last.1, limit);
      StepReleasedOnce(s, last.0, last.1, limit);
    }
  }

  lemma {:induction false} RunDropsClose(schedule: seq<(ThreadId, Action)>, limit: nat)
    ensures DropsClose(Run(schedule, limit))
  {
    if schedule != [] {
      hide Step, Inv, DropsClose;
      var init, last := schedule[..|schedule| - 1], schedule[|schedule| - 1];
      RunDropsClose(init, limit);
      RunInv(init, limit);
      StepDropsClose(Run(init, limit), last.0, last.1, limit);
    }
  }

  /** What callers were told stays so. */
  ghost predicate Remembers(s: State, s': State) {
    && (s.drainedSeen ==> s'.drainedSeen)
    && (s.closeFinished ==> s'.closeFinished && s'.returned == s.returned)
  }

  lemma StepRemembers(s: State, t: ThreadId, a: Action, limit: nat)
    requires Inv(s, limit)
    ensures Remembers(s, Step(s, t, a, limit))
  {
    hide Step, Counted, ThreadOk, ReleasedOnce;
    StepKeepsOk(s, t, a, limit);
  }

  lemma {:induction false} RunRemembers(schedule: seq<(ThreadId, Action)>, n: nat, limit: nat)
    requires n <= |schedule|
    ensures Remembers(Run(schedule[..n], limit), Run(schedule, limit))
  {
    hide Step, Inv;
    if n == |schedule| {
      assert schedule[..n] == schedule;
    } else {
      var m := |schedule| - 1;
      assert schedule[..m][..n] == schedule[..n];
      RunRemembers(schedule[..m], n, limit);
      RunInv(schedule[..m], limit);
      StepRemembers(Run(schedule[..m], limit), schedule[m].0, schedule[m].1, limit);
    }
  }

  /** Once some `is_drained` has returned true, no connection is open, then or after any further
      interleaving, whatever connect calls were under way. */
  lemma DrainedForever(before: seq<(ThreadId, Action)>, after: seq<(ThreadId, Action)>, limit: nat)
    requires Run(before, limit).drainedSeen
    ensures Run(before + after, limit).conns == Run(before + after, limit).closed
  {
    hide Counted, ThreadOk, ReleasedOnce, Run;
    assert (before + after)[..|before|] == before;
    RunRemembers(before + after, |before|, limit);
    RunInv(before + after, limit);
  }

  /** Once the close call that performed the swap has finished, every connection that any connect call has
      returned is closed, or its last reference is gone and the drop is about to close it; no connect call passes
      its last check later. */
  lemma ClosedForever(before: seq<(ThreadId, Action)>, after: seq<(ThreadId, Action)>, limit: nat)
    requires Run(before, limit).closeFinished
    ensures var s := Run(before + after, limit);
            && s.returned == Run(before, limit).returned
            && forall c | c in s.returned && c !in s.closed :: c in s.dropped && exists t :: AboutToClose(s, t, c)
  {
    hide Counted, ThreadOk, ReleasedOnce, Run, AboutToClose;
    assert (before + after)[..|before|] == before;
    RunRemembers(before + after, |before|, limit);
    RunInv(before + after, limit);
    RunDropsClose(before + after, limit);
    var s := Run(before + after, limit);
    forall c | c in s.returned && c !in s.closed ensures c in s.dropped { assert c !in Open(s); }
  }

  /** In every interleaving the counter equals reservations plus unreleased leases plus releases in
      progress, and lies between zero and the limit. */
  lemma CounterExact(schedule: seq<(ThreadId, Action)>, limit: nat)
    ensures var s := Run(schedule, limit);
            && s.active == |Pending(s.threads)| + |s.conns - s.released| + |Returns(s.threads)|
            && 0 <= s.active <= limit
  {
    hide Run, ThreadOk, SharedOk, ReleasedOnce;
    RunInv(schedule, limit);
  }

  /** A slot is given back at most once per connection, only after its lease was released and the
      connection closed; a released lease whose slot is not back yet has exactly one thread about to
      give it back. */
  lemma ReleasedExactlyOnce(schedule: seq<(ThreadId, Action)>, limit: nat, c: ConnId)
    ensures var s := Run(schedule, limit);
            && s.givenBack[c] <= 1
            && (c in s.givenBack ==> c in s.released && c in s.closed)
            && (forall t, u | ReturnsSlot(s, t, c) && ReturnsSlot(s, u, c) :: t == u)
            && (c in s.released && c !in s.givenBack <==> exists t :: ReturnsSlot(s, t, c))
  {
    hide Run, Counted;
    RunInv(schedule, limit);
    var s := Run(schedule, limit);
    assert forall t | t in s.threads :: ThreadOk(s, s.threads[t]);
  }
}
