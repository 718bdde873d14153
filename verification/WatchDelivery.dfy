/** Delivering watch events to cancellable consumers: one consumer at a time holds the watch, and an event whose
    delivery is abandoned goes back to a replay queue. */
module WatchDelivery {
  import opened Wrappers

  /** Events are named by their position in the watch stream. */
  type Event = nat

  datatype Phase =
    | Waiting            // for the watch lock
    | Awaiting           // holds the lock, found no replayed event, awaits the watch
    | Pending(event: Event) // holds the lock and an event not yet handed over

  /** What became of an event that left the system. */
  datatype Fate = Delivered(event: Event) | Dropped(event: Event)

  datatype State = State(
    consumers: map<nat, Phase>,
    owner: Option<nat>,
    replay: seq<Event>,
    cursor: nat,
    fates: seq<Fate>)

  datatype Action =
    | Call(consumer: nat)
    | Acquire(consumer: nat)
    | Receive(consumer: nat, converts: bool)
    | WatchFails(consumer: nat)
    | HandOver(consumer: nat, converts: bool)
    | Cancel(consumer: nat)

  const START := State(map[], None, [], 0, [])

  function Leave(s: State, c: nat): State {
    s.(consumers := s.consumers - {c}, owner := if s.owner == Some(c) then None else s.owner)
  }

  /** One step; actions that do not apply change nothing. */
  function Step(s: State, a: Action): State {
    match a
    case Call(c) =>
      if c in s.consumers then s else s.(consumers := s.consumers[c := Waiting])
    case Acquire(c) =>
      if c !in s.consumers || s.consumers[c] != Waiting || s.owner.Some? then s
      else if s.replay != [] then
        s.(owner := Some(c), consumers := s.consumers[c := Pending(s.replay[0])], replay := s.replay[1..])
      else s.(owner := Some(c), consumers := s.consumers[c := Awaiting])
    case Receive(c, converts) =>
      if c !in s.consumers || s.consumers[c] != Awaiting then s
      else if converts then s.(consumers := s.consumers[c := Pending(s.cursor)], cursor := s.cursor + 1)
      else Leave(s.(cursor := s.cursor + 1, fates := s.fates + [Dropped(s.cursor)]), c)
    case WatchFails(c) =>
      if c !in s.consumers || s.consumers[c] != Awaiting then s else Leave(s, c)
    case HandOver(c, converts) =>
      if c !in s.consumers || !s.consumers[c].Pending? then s
      else
        var e := s.consumers[c].event;
        Leave(s.(fates := s.fates + [if converts then Delivered(e) else Dropped(e)]), c)
    case Cancel(c) =>
      if c !in s.consumers then s
      else if s.consumers[c].Pending? then Leave(s.(replay := [s.consumers[c].event] + s.replay), c)
      else Leave(s, c)
  }

  function Run(actions: seq<Action>): State {
    if actions == [] then START else Step(Run(actions[..|actions| - 1]), actions[|actions| - 1])
  }

  // ----- Conservation -----

  /** The event taken from the stream that has no fate yet: pending or replayed. */
  function InFlight(s: State): seq<Event> {
    if s.owner.Some? && s.owner.value in s.consumers && s.consumers[s.owner.value].Pending?
    then [s.consumers[s.owner.value].event] + s.replay else s.replay
  }

  function Ended(fates: seq<Fate>): (events: seq<Event>)
    ensures |events| == |fates| && forall i | 0 <= i < |fates| :: events[i] == fates[i].event
  {
    if fates == [] then [] else Ended(fates[..|fates| - 1]) + [fates[|fates| - 1].event]
  }

  /** The first `n` events of the stream. */
  function First(n: nat): (events: seq<Event>)
    ensures |events| == n && forall i | 0 <= i < n :: events[i] == i
  {
    if n == 0 then [] else First(n - 1) + [n - 1]
  }

  /** All events taken from the stream: those with a fate, then the one in flight. */
  function Taken(s: State): seq<Event> {
    Ended(s.fates) + InFlight(s)
  }

  /** The lock holder is the only consumer past waiting, and while there is one nothing is queued for replay. */
  ghost predicate OneOwner(s: State) {
    && (forall c | c in s.consumers && s.consumers[c] != Waiting :: s.owner == Some(c))
    && (s.owner.Some? ==> s.owner.value in s.consumers && s.consumers[s.owner.value] != Waiting && s.replay == [])
    && |s.replay| <= 1
  }

  ghost predicate Inv(s: State) {
    OneOwner(s) && Taken(s) == First(s.cursor)
  }

  lemma StepKeepsOwner(s: State, a: Action)
    requires OneOwner(s)
    ensures OneOwner(Step(s, a))
  {
    match a
    case Call(c) =>
    case Acquire(c) =>
    case Receive(c, converts) =>
    case WatchFails(c) =>
    case HandOver(c, converts) =>
    case Cancel(c) =>
  }

  lemma Ending(fates: seq<Fate>, f: Fate)
    ensures Ended(fates + [f]) == Ended(fates) + [f.event]
  {
    assert (fates + [f])[..|fates|] == fates;
  }

  lemma OwnerInFlight(s: State, c: nat)
    requires OneOwner(s) && c in s.consumers && s.consumers[c] != Waiting
    ensures InFlight(s) == if s.consumers[c].Pending? then [s.consumers[c].event] else []
  {
  }

  /** Only receiving takes an event; every other step moves it on within what was taken. */
  lemma StepTakes(s: State, a: Action)
    requires OneOwner(s)
    ensures var s' := Step(s, a);
            && s.cursor <= s'.cursor <= s.cursor + 1
            && Taken(s') == Taken(s) + if s'.cursor == s.cursor then [] else [s.cursor]
  {
    hide Ended;
    StepKeepsOwner(s, a);
    match a
    case Call(c) =>
    case Acquire(c) =>
      if c in s.consumers && s.consumers[c] == Waiting && s.owner.None? && s.replay != [] {
        assert s.replay == [s.replay[0]] && s.replay[1..] == [];
        assert InFlight(Step(s, a)) == s.replay;
      }
    case Receive(c, converts) =>
      if c in s.consumers && s.consumers[c] == Awaiting {
        OwnerInFlight(s, c);
        Ending(s.fates, Dropped(s.cursor));
      }
    case WatchFails(c) =>
      if c in s.consumers && s.consumers[c] == Awaiting { OwnerInFlight(s, c); }
    case HandOver(c, converts) =>
      if c in s.consumers && s.consumers[c].Pending? {
        OwnerInFlight(s, c);
        Ending(s.fates, if converts then Delivered(s.consumers[c].event) else Dropped(s.consumers[c].event));
      }
    case Cancel(c) =>
      if c in s.consumers && s.consumers[c] != Waiting { OwnerInFlight(s, c); }
  }

  lemma {:induction false} RunInv(actions: seq<Action>)
    ensures Inv(Run(actions))
  {
    if actions != [] {
      hide OneOwner, Step, Taken;
      var before, a := Run(actions[..|actions| - 1]), actions[|actions| - 1];
      RunInv(actions[..|actions| - 1]);
      StepKeepsOwner(before, a);
      StepTakes(before, a);
    }
  }

  /** In every run, every event taken from the stream is accounted for exactly once and in order, and the replay
      queue never holds more than one. */
  lemma NothingLostOrRepeated(actions: seq<Action>)
    ensures var s := Run(actions);
            |s.replay| <= 1 && Ended(s.fates) + InFlight(s) == First(s.cursor)
  {
    hide Run;
    RunInv(actions);
  }

  /** From every state nobody holds the lock in: a consumer that calls, and whose event converts, is handed the event put
      back for replay if there is one and otherwise the next of the stream. */
  lemma NextIsHanded(s: State, c: nat)
    requires OneOwner(s) && c !in s.consumers && s.owner.None?
    ensures var asked := Step(Step(s, Call(c)), Acquire(c));
            var given := Step(Step(asked, Receive(c, true)), HandOver(c, true));
            && given.fates == s.fates + [Delivered(if s.replay != [] then s.replay[0] else s.cursor)]
            && given.replay == [] && given.owner == None && c !in given.consumers
  {
  }

  /** However a call ends, by failure of the watch, a failed conversion, a hand-over or cancellation, the consumer is gone
      and, if it held the lock, the lock is free; a cancelled event is the first to be replayed. */
  lemma CallsEnd(s: State, a: Action)
    requires OneOwner(s) && a.consumer in s.consumers
    requires
      || a.Cancel?
      || (a.WatchFails? && s.consumers[a.consumer] == Awaiting)
      || (a.Receive? && !a.converts && s.consumers[a.consumer] == Awaiting)
      || (a.HandOver? && s.consumers[a.consumer].Pending?)
    ensures var s' := Step(s, a);
            && a.consumer !in s'.consumers && s'.owner == (if s.owner == Some(a.consumer) then None else s.owner)
            && (a.Cancel? && s.consumers[a.consumer].Pending? ==> s'.replay == [s.consumers[a.consumer].event])
  {
  }

  // ----- What consumers see -----

  function Handed(fates: seq<Fate>): seq<Event> {
    if fates == [] then []
    else
      var last := fates[|fates| - 1];
      Handed(fates[..|fates| - 1]) + if last.Delivered? then [last.event] else []
  }

  /** Every conversion in the run succeeds. */
  predicate Converting(actions: seq<Action>) {
    forall a | a in actions :: (a.Receive? || a.HandOver?) ==> a.converts
  }

  lemma {:induction false} NoneDropped(actions: seq<Action>)
    requires Converting(actions)
    ensures forall f | f in Run(actions).fates :: f.Delivered?
  {
    if actions != [] {
      var n := |actions| - 1;
      assert actions[n] in actions;
      assert forall a | a in actions[..n] :: a in actions;
      NoneDropped(actions[..n]);
    }
  }

  lemma {:induction false} HandedAll(fates: seq<Fate>)
    requires forall f | f in fates :: f.Delivered?
    ensures Handed(fates) == Ended(fates)
  {
    if fates != [] {
      var n := |fates| - 1;
      assert fates[n] in fates;
      assert forall f | f in fates[..n] :: f in fates;
      HandedAll(fates[..n]);
    }
  }

  /** When conversions succeed, whatever is called, cancelled or failing, consumers together see a prefix of the
      stream, in order, without loss or repetition; at most the one event in flight is missing from it. */
  lemma DeliversPrefix(actions: seq<Action>)
    requires Converting(actions)
    ensures var s := Run(actions);
            && Handed(s.fates) == First(|Handed(s.fates)|)
            && s.cursor - 1 <= |Handed(s.fates)| <= s.cursor
  {
    hide Run, Handed;
    var s := Run(actions);
    RunInv(actions);
    NoneDropped(actions);
    HandedAll(s.fates);
    assert Ended(s.fates) == First(s.cursor)[..|s.fates|];
  }

  ghost predicate AllDelivered(fates: seq<Fate>) {
    forall i | 0 <= i < |fates| :: fates[i].Delivered?
  }

  ghost predicate DropsOnlyLast(fates: seq<Fate>) {
    forall i, j | 0 <= i < j < |fates| && fates[i].Dropped? :: fates[j].Dropped?
  }

  lemma {:induction false} HandedLength(fates: seq<Fate>)
    ensures |Handed(fates)| <= |fates|
    ensures |Handed(fates)| == |fates| <==> AllDelivered(fates)
  {
    if fates != [] {
      var n := |fates| - 1;
      HandedLength(fates[..n]);
      assert AllDelivered(fates) <==> AllDelivered(fates[..n]) && fates[n].Delivered?;
    }
  }

  lemma DropsOfLast(fates: seq<Fate>)
    requires fates != []
    ensures var n := |fates| - 1;
            DropsOnlyLast(fates) <==> if fates[n].Delivered? then AllDelivered(fates[..n]) else DropsOnlyLast(fates[..n])
  {
    var n := |fates| - 1;
    var init, last := fates[..n], fates[n];
    assert forall i | 0 <= i < n :: init[i] == fates[i];
    if last.Delivered? {
      if DropsOnlyLast(fates) {
        forall i | 0 <= i < n ensures init[i].Delivered? {
          assert fates[i].Dropped? ==> last.Dropped?;
        }
      }
    } else if DropsOnlyLast(fates) {
      forall i, j | 0 <= i < j < n && init[i].Dropped? ensures init[j].Dropped? {
        assert fates[i].Dropped? && fates[j].Dropped?;
      }
    }
  }

  lemma {:induction false} HandedPrefixIff(fates: seq<Fate>)
    requires Ended(fates) == First(|fates|)
    ensures Handed(fates) == First(|Handed(fates)|) <==> DropsOnlyLast(fates)
  {
    if fates != [] {
      hide DropsOnlyLast, AllDelivered;
      var n := |fates| - 1;
      var h := Handed(fates[..n]);
      assert Ended(fates[..n]) == First(n) && fates[n].event == n by {
        assert Ended(fates)[..n] == Ended(fates[..n]) && First(|fates|)[..n] == First(n);
      }
      HandedPrefixIff(fates[..n]);
      HandedLength(fates[..n]);
      DropsOfLast(fates);
      if fates[n].Delivered? {
        assert Handed(fates) == h + [n];
        FirstAppend(h, n);
      }
    }
  }

  lemma FirstAppend(h: seq<Event>, n: nat)
    ensures h + [n] == First(|h| + 1) <==> h == First(|h|) && |h| == n
  {
    if h + [n] == First(|h| + 1) {
      assert (h + [n])[|h|] == |h|;
      assert h == (h + [n])[..|h|] == First(|h| + 1)[..|h|];
    }
  }

  // ----- When a run delivers a prefix -----

  /** The step takes the event at hand and its conversion fails. */
  predicate Fails(s: State, a: Action) {
    match a
    case Receive(c, converts) => !converts && c in s.consumers && s.consumers[c] == Awaiting
    case HandOver(c, converts) => !converts && c in s.consumers && s.consumers[c].Pending?
    case _ => false
  }

  /** The step hands an event to its consumer. */
  predicate Hands(s: State, a: Action) {
    a.HandOver? && a.converts && a.consumer in s.consumers && s.consumers[a.consumer].Pending?
  }

  predicate FailsAt(actions: seq<Action>, i: nat)
    requires i < |actions|
  {
    Fails(Run(actions[..i]), actions[i])
  }

  predicate HandsAt(actions: seq<Action>, i: nat)
    requires i < |actions|
  {
    Hands(Run(actions[..i]), actions[i])
  }

  ghost predicate NoFailure(actions: seq<Action>) {
    forall i | 0 <= i < |actions| :: !FailsAt(actions, i)
  }

  ghost predicate NothingAfterFailure(actions: seq<Action>) {
    forall i, j | 0 <= i < j < |actions| && FailsAt(actions, i) :: !HandsAt(actions, j)
  }

  lemma StepFates(s: State, a: Action)
    ensures var fates := Step(s, a).fates;
            if Hands(s, a) then exists e :: fates == s.fates + [Delivered(e)]
            else if Fails(s, a) then exists e :: fates == s.fates + [Dropped(e)]
            else fates == s.fates
  {
    if Hands(s, a) {
      assert Step(s, a).fates == s.fates + [Delivered(s.consumers[a.consumer].event)];
    } else if Fails(s, a) {
      var e := if a.Receive? then s.cursor else s.consumers[a.consumer].event;
      assert Step(s, a).fates == s.fates + [Dropped(e)];
    }
  }

  /** What happens at a step depends only on the steps before it. */
  lemma Earlier(actions: seq<Action>, n: nat)
    requires n <= |actions|
    ensures forall i | 0 <= i < n :: FailsAt(actions[..n], i) == FailsAt(actions, i) && HandsAt(actions[..n], i) == HandsAt(actions, i)
  {
    assert forall i | 0 <= i < n :: actions[..n][..i] == actions[..i];
  }

  lemma NoFailureOfLast(actions: seq<Action>, n: nat)
    requires |actions| == n + 1
    ensures NoFailure(actions) <==> NoFailure(actions[..n]) && !FailsAt(actions, n)
  {
    hide FailsAt, HandsAt;
    Earlier(actions, n);
    assert NoFailure(actions) ==> forall i | 0 <= i < n :: !FailsAt(actions[..n], i);
    if NoFailure(actions[..n]) && !FailsAt(actions, n) {
      forall i | 0 <= i < n + 1 ensures !FailsAt(actions, i) {
        if i < n { assert !FailsAt(actions[..n], i); }
      }
    }
  }

  lemma NothingAfterOfLast(actions: seq<Action>, n: nat)
    requires |actions| == n + 1
    ensures NothingAfterFailure(actions)
       <==> NothingAfterFailure(actions[..n]) && (HandsAt(actions, n) ==> NoFailure(actions[..n]))
  {
    hide FailsAt, HandsAt;
    var init := actions[..n];
    Earlier(actions, n);
    if NothingAfterFailure(actions) {
      forall i, j | 0 <= i < j < n && FailsAt(init, i) ensures !HandsAt(init, j) {
        assert FailsAt(actions, i) && !HandsAt(actions, j);
      }
      if HandsAt(actions, n) {
        forall i | 0 <= i < n ensures !FailsAt(init, i) {
          assert !FailsAt(actions, i);
        }
      }
    }
    if NothingAfterFailure(init) && (HandsAt(actions, n) ==> NoFailure(init)) {
      forall i, j | 0 <= i < j < n + 1 && FailsAt(actions, i) ensures !HandsAt(actions, j) {
        assert FailsAt(init, i);
        if j < n { assert !HandsAt(init, j); }
      }
    }
  }

  lemma AllDeliveredOfLast(fates: seq<Fate>, f: Fate)
    ensures AllDelivered(fates + [f]) <==> AllDelivered(fates) && f.Delivered?
    ensures DropsOnlyLast(fates + [f]) <==> if f.Delivered? then AllDelivered(fates) else DropsOnlyLast(fates)
    ensures AllDelivered(fates) ==> DropsOnlyLast(fates)
  {
    var all, n := fates + [f], |fates|;
    assert all[..n] == fates && all[n] == f;
    DropsOfLast(all);
    if AllDelivered(all) {
      forall i | 0 <= i < n ensures fates[i].Delivered? { assert all[i].Delivered?; }
      assert all[n].Delivered?;
    }
  }

  lemma {:induction false} FatesOfSchedule(actions: seq<Action>)
    ensures NoFailure(actions) <==> AllDelivered(Run(actions).fates)
    ensures NothingAfterFailure(actions) <==> DropsOnlyLast(Run(actions).fates)
  {
    if actions != [] {
      hide NoFailure, NothingAfterFailure, AllDelivered, DropsOnlyLast, Step, Fails, Hands;
      var n := |actions| - 1;
      var before, a := Run(actions[..n]), actions[n];
      FatesOfSchedule(actions[..n]);
      NoFailureOfLast(actions, n);
      NothingAfterOfLast(actions, n);
      StepFates(before, a);
      HandsOrFails(before, a);
      AllDeliveredOfLast(before.fates, Delivered(0));
      if Hands(before, a) {
        var e :| Step(before, a).fates == before.fates + [Delivered(e)];
        AllDeliveredOfLast(before.fates, Delivered(e));
      } else if Fails(before, a) {
        var e :| Step(before, a).fates == before.fates + [Dropped(e)];
        AllDeliveredOfLast(before.fates, Dropped(e));
      }
    }
  }

  lemma HandsOrFails(s: State, a: Action)
    ensures !(Hands(s, a) && Fails(s, a))
  {
  }

  /** A failed conversion loses its event, so consumers see a prefix of the stream exactly when no step hands over
      an event after a step whose conversion failed. */
  lemma DeliversPrefixIff(actions: seq<Action>)
    ensures var s := Run(actions);
            Handed(s.fates) == First(|Handed(s.fates)|) <==> NothingAfterFailure(actions)
  {
    hide Run, Handed, DropsOnlyLast, NothingAfterFailure;
    var s := Run(actions);
    RunInv(actions);
    assert Ended(s.fates) == First(s.cursor)[..|s.fates|];
    HandedPrefixIff(s.fates);
    FatesOfSchedule(actions);
  }

  lemma RunOneMore(actions: seq<Action>, n: nat)
    requires n < |actions|
    ensures Run(actions[..n + 1]) == Step(Run(actions[..n]), actions[n])
  {
    assert actions[..n + 1][..n] == actions[..n];
  }

  /** The first event fails to convert, the second is handed over: the consumer sees the stream from 1 on. */
  lemma FailedConversionSkips()
    ensures var actions := [Call(0), Acquire(0), Receive(0, false), Call(0), Acquire(0), Receive(0, true), HandOver(0, true)];
            && Handed(Run(actions).fates) == [1]
            && !NothingAfterFailure(actions)
  {
    hide Run, NothingAfterFailure;
    var actions := [Call(0), Acquire(0), Receive(0, false), Call(0), Acquire(0), Receive(0, true), HandOver(0, true)];
    EmptyRun(actions);
    RunOneMore(actions, 0);
    RunOneMore(actions, 1);
    RunOneMore(actions, 2);
    assert Run(actions[..3]).fates == [Dropped(0)];
    RunOneMore(actions, 3);
    RunOneMore(actions, 4);
    RunOneMore(actions, 5);
    RunOneMore(actions, 6);
    assert actions[..7] == actions;
    assert Run(actions).fates == [Dropped(0), Delivered(1)];
    assert [Dropped(0), Delivered(1)][..1] == [Dropped(0)] && Handed([Dropped(0)]) == [];
    DeliversPrefixIff(actions);
    assert First(1)[0] == 0;
  }

  lemma EmptyRun(actions: seq<Action>)
    ensures Run(actions[..0]) == START
  {
  }
}
