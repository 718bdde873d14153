/** Admission, drain and close of the hosted server as an interleaving of atomic accesses.

    Any number of threads run connect, drain, close, drained-queries, revocations and drops;
    each action below is one access to the lifecycle, the connection counter, the registry of
    connections, or a connection's `closed` and `lease_released` flags. */
module HostAdmission {
  type ThreadId = nat
  type ConnId = nat

  datatype Lifecycle = Running | Draining | Closed

  /** What a thread does once it has finished revoking a connection. */
  datatype Then = Stop | Continue(rest: set<ConnId>)

  /** Where a thread stands: the access it performs next. */
  datatype Pc =
    | Idle
    | Checked                         // lifecycle seen running; reserve a slot
    | Reserved                        // slot reserved; look at the lifecycle again
    | Authorizing                     // authenticate and authorize
    | Admitted                        // authorized; look at the lifecycle again
    | Creating                        // allocate the id and the connection object
    | Created(c: ConnId)              // register the connection
    | Inserted(c: ConnId)             // registered; look at the lifecycle a last time
    | Abandoning                      // give the reserved slot back
    | Revoking(c: ConnId, next: Then)   // store `closed`
    | Releasing(c: ConnId, next: Then)  // swap `lease_released`
    | Returning(c: ConnId, next: Then)  // won the swap; give the slot back
    | Removing(c: ConnId, next: Then)   // remove from the registry
    | Closing                         // lifecycle swapped to closed; snapshot the registry
    | CloseLoop(rest: set<ConnId>)    // close the connections of the snapshot
    | SawDraining                     // lifecycle seen draining; read the counter

  datatype Action =
    | Connect
    | Drain
    | Close
    | AskDrained
    | Revoke(c: ConnId)
    | Drop(c: ConnId)
    | Tick(granted: bool)
    | Pick(c: ConnId)

  /** The shared state and every thread. Connections are sets of ids: those created, those whose
      `closed` flag is set, those whose `lease_released` flag is set, those whose last strong
      reference is gone, and those in the registry.

      The last fields record what callers were told so far: the connections returned by connect,
      whether some `is_drained` returned true, whether the close call that performed the swap has
      finished, and which slots were given back, with multiplicity. */
  datatype State = State(
    lifecycle: Lifecycle, active: int, nextId: nat,
    conns: set<ConnId>, closed: set<ConnId>, released: set<ConnId>, dropped: set<ConnId>, table: set<ConnId>,
    threads: map<ThreadId, Pc>,
    returned: set<ConnId>, drainedSeen: bool, closeFinished: bool, givenBack: multiset<ConnId>)

  const START := State(Running, 0, 1, {}, {}, {}, {}, {}, map[], {}, false, false, multiset{})

  function PcOf(s: State, t: ThreadId): Pc {
    if t in s.threads then s.threads[t] else Idle
  }

  function Goto(s: State, t: ThreadId, pc: Pc): State {
    s.(threads := s.threads[t := pc])
  }

  function Resume(next: Then): Pc {
    match next
    case Stop => Idle
    case Continue(rest) => CloseLoop(rest)
  }

  /** The connections a thread at this point holds a strong reference to. */
  function Held(pc: Pc): set<ConnId> {
    match pc
    case Created(c) => {c}
    case Inserted(c) => {c}
    case Revoking(c, next) => if next.Continue? then next.rest + {c} else {c}
    case Releasing(c, next) => if next.Continue? then next.rest + {c} else {c}
    case Returning(c, next) => if next.Continue? then next.rest + {c} else {c}
    case Removing(c, next) => if next.Continue? then next.rest + {c} else {c}
    case CloseLoop(rest) => rest
    case _ => {}
  }

  predicate InUse(s: State, c: ConnId) {
    exists t | t in s.threads :: c in Held(s.threads[t])
  }

  /** The next access of a connect call. */
  function AdvanceConnect(s: State, t: ThreadId, limit: nat, granted: bool): State {
    match PcOf(s, t)
    case Checked => if s.active < limit then Goto(s, t, Reserved).(active := s.active + 1) else Goto(s, t, Idle)
    case Reserved => Goto(s, t, if s.lifecycle.Running? then Authorizing else Abandoning)
    case Authorizing => Goto(s, t, if granted then Admitted else Abandoning)
    case Admitted => Goto(s, t, if s.lifecycle.Running? then Creating else Abandoning)
    case Abandoning => Goto(s, t, Idle).(active := s.active - 1)
    case Creating => Goto(s, t, Created(s.nextId)).(nextId := s.nextId + 1, conns := s.conns + {s.nextId})
    case Created(c) => Goto(s, t, Inserted(c)).(table := s.table + {c})
    case Inserted(c) =>
      if s.lifecycle.Running? then Goto(s, t, Idle).(returned := s.returned + {c}) else Goto(s, t, Revoking(c, Stop))
    case _ => s
  }

  /** The next access of a revocation: mark closed, then release the lease at most once. */
  function AdvanceRevoke(s: State, t: ThreadId): State {
    match PcOf(s, t)
    case Revoking(c, next) => Goto(s, t, Releasing(c, next)).(closed := s.closed + {c})
    case Releasing(c, next) =>
      if c in s.released then Goto(s, t, Resume(next))
      else Goto(s, t, Returning(c, next)).(released := s.released + {c})
    case Returning(c, next) =>
      Goto(s, t, Removing(c, next)).(active := s.active - 1, givenBack := s.givenBack + multiset{c})
    case Removing(c, next) => Goto(s, t, Resume(next)).(table := s.table - {c})
    case _ => s
  }

  /** The next access of a close call or of a drained-query. */
  function AdvanceObserve(s: State, t: ThreadId): State {
    match PcOf(s, t)
    case Closing => Goto(s, t, CloseLoop(s.table - s.dropped))
    case CloseLoop(rest) => if rest == {} then Goto(s, t, Idle).(closeFinished := true) else s
    case SawDraining => Goto(s, t, Idle).(drainedSeen := s.drainedSeen || s.active == 0)
    case _ => s
  }

  /** The first access of an operation, or the choice of the next connection to close. */
  function Begin(s: State, t: ThreadId, a: Action): State {
    var pc := PcOf(s, t);
    match a
    case Connect => if pc.Idle? && s.lifecycle.Running? then Goto(s, t, Checked) else s
    case Drain => if pc.Idle? && s.lifecycle.Running? then s.(lifecycle := Draining) else s
    case Close => if pc.Idle? && !s.lifecycle.Closed? then Goto(s, t, Closing).(lifecycle := Closed) else s
    case AskDrained => if pc.Idle? && s.lifecycle.Draining? then Goto(s, t, SawDraining) else s
    case Revoke(c) => if pc.Idle? && c in s.conns - s.dropped then Goto(s, t, Revoking(c, Stop)) else s
    case Drop(c) =>
      if pc.Idle? && c in s.conns - s.dropped && !InUse(s, c) then
        Goto(s, t, Revoking(c, Stop)).(dropped := s.dropped + {c})
      else s
    case Pick(c) =>
      if pc.CloseLoop? && c in pc.rest then Goto(s, t, Revoking(c, Continue(pc.rest - {c}))) else s
    case Tick(_) => s
  }

  /** One atomic action of thread `t`; an action that is not possible leaves the state as it is. */
  function Step(s: State, t: ThreadId, a: Action, limit: nat): State {
    if !a.Tick? then Begin(s, t, a)
    else
      match PcOf(s, t)
      case Revoking(_, _) => AdvanceRevoke(s, t)
      case Releasing(_, _) => AdvanceRevoke(s, t)
      case Returning(_, _) => AdvanceRevoke(s, t)
      case Removing(_, _) => AdvanceRevoke(s, t)
      case Closing => AdvanceObserve(s, t)
      case CloseLoop(_) => AdvanceObserve(s, t)
      case SawDraining => AdvanceObserve(s, t)
      case _ => AdvanceConnect(s, t, limit, a.granted)
  }

  /** The state after an interleaving of actions. */
  function Run(schedule: seq<(ThreadId, Action)>, limit: nat): State {
    if schedule == [] then START
    else
      var last := schedule[|schedule| - 1];
      Step(Run(schedule[..|schedule| - 1], limit), last.0, last.1, limit)
  }
}
