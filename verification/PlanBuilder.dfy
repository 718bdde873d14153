/** The mutable plan: its methods update the pending parts in place. */
module PlanBuilder {
  import opened Wrappers
  import opened FieldPatches
  import opened PlanModel
  import opened PlanLaws

  // ----- Object patches -----

  method MergeObjectPatches(a: map<(RelationId, nat), ObjectPatch>, b: map<(RelationId, nat), ObjectPatch>)
    returns (ok: bool, merged: map<(RelationId, nat), ObjectPatch>, ghost done: set<(RelationId, nat)>)
    ensures ok <==> SameIdentities(a, b)
    ensures done <= b.Keys && merged == OverlayPatches(a, b, done)
    ensures ok ==> done == b.Keys
    ensures forall key | key in a && key in done :: a[key].identity == b[key].identity
  {
    hide OverlayPatches;
    merged := a;
    OverlayNone(a, b);
    var todo := b.Keys;
    done := {};
    while todo != {}
      invariant done !! todo && done + todo == b.Keys && merged == OverlayPatches(a, b, done)
      invariant forall key | key in a && key in done :: a[key].identity == b[key].identity
      decreases todo
    {
      var key :| key in todo;
      OverlayOneMore(a, b, done, key);
      var target := if key in merged then merged[key] else ObjectPatch(b[key].identity, map[]);
      if target.identity != b[key].identity { return false, merged, done; }
      merged := merged[key := target.(fields := target.fields + b[key].fields)];
      todo, done := todo - {key}, done + {key};
    }
    assert done == b.Keys;
    ok := true;
  }

  lemma OverlayNone(a: map<(RelationId, nat), ObjectPatch>, b: map<(RelationId, nat), ObjectPatch>)
    ensures OverlayPatches(a, b, {}) == a
  {
  }

  function Target(a: map<(RelationId, nat), ObjectPatch>, key: (RelationId, nat), identity: Identity): ObjectPatch {
    if key in a then a[key] else ObjectPatch(identity, map[])
  }

  lemma OverlayOneMore(a: map<(RelationId, nat), ObjectPatch>, b: map<(RelationId, nat), ObjectPatch>,
                       keys: set<(RelationId, nat)>, key: (RelationId, nat))
    requires keys <= b.Keys && key in b && key !in keys
    ensures key in OverlayPatches(a, b, keys) <==> key in a
    ensures key in a ==> OverlayPatches(a, b, keys)[key] == a[key]
    ensures OverlayPatches(a, b, keys + {key})
         == OverlayPatches(a, b, keys)[key := ObjectPatch(Target(a, key, b[key].identity).identity, Target(a, key, b[key].identity).fields + b[key].fields)]
  {
    assert map[] + b[key].fields == b[key].fields;
  }

  // ----- Annotations -----

  lemma UnshiftOneMore(base: Mutation, seen: map<Slot, Action>, s: Slot, action: Action, slot: Slot)
    ensures Unshift(base, seen[s := action], slot)
         == if slot == Shift(base, s) then Some(action) else Unshift(base, seen, slot)
  {
    var offset := |Side(base, slot.direction)|;
    if slot.index >= offset && slot.(index := slot.index - offset) == s {
      assert slot == Shift(base, s);
    }
  }

  /** `after` is `before` with the annotations of `moved` laid over it, behind the rows of `base`. */
  ghost predicate Moved(before: map<Slot, Action>, after: map<Slot, Action>, base: Mutation, moved: map<Slot, Action>) {
    forall slot: Slot ::
      && (slot in after <==> slot in before || Unshift(base, moved, slot).Some?)
      && (slot in after ==> after[slot] == if Unshift(base, moved, slot).Some? then Unshift(base, moved, slot).value else before[slot])
  }

  function Of(other: map<Slot, Action>, r: RelationId): map<Slot, Action> {
    map s | s in other && s.relation == r :: other[s]
  }

  method MoveAnnotations(before: map<Slot, Action>, other: map<Slot, Action>, base: Mutation, r: RelationId)
    returns (after: map<Slot, Action>)
    ensures Moved(before, after, base, Of(other, r))
  {
    after := before;
    ghost var seen := map[];
    var todo := set s | s in other && s.relation == r;
    while todo != {}
      invariant todo <= other.Keys && seen.Keys + todo == Of(other, r).Keys && seen.Keys !! todo
      invariant forall s | s in seen :: seen[s] == other[s]
      invariant Moved(before, after, base, seen)
      decreases todo
    {
      var s :| s in todo;
      forall slot: Slot
        ensures Unshift(base, seen[s := other[s]], slot) == if slot == Shift(base, s) then Some(other[s]) else Unshift(base, seen, slot)
      {
        UnshiftOneMore(base, seen, s, other[s], slot);
      }
      after := after[Shift(base, s) := other[s]];
      seen := seen[s := other[s]];
      todo := todo - {s};
    }
    assert seen == Of(other, r);
  }

  // ----- Rows -----

  lemma OverlayRowsOneMore(p: PlanData, q: PlanData, keys: set<RelationId>, r: RelationId)
    requires keys <= q.mutations.Keys && r in q.mutations && r !in keys
    ensures MutationOf(OverlayMutations(p.mutations, q.mutations, keys), r) == MutationOf(p.mutations, r)
    ensures OverlayMutations(p.mutations, q.mutations, keys + {r})
         == OverlayMutations(p.mutations, q.mutations, keys)[r := Concat(MutationOf(p.mutations, r), q.mutations[r])]
  {
  }

  lemma OverlayHistoryOneMore(p: PlanData, q: PlanData, keys: set<RelationId>, r: RelationId)
    requires r !in keys
    ensures r in q.history ==> OverlayHistory(p, q, keys + {r}) == OverlayHistory(p, q, keys)[r := q.history[r]]
    ensures r !in q.history ==> OverlayHistory(p, q, keys + {r}) == OverlayHistory(p, q, keys)
  {
  }

  lemma OverlayActionsOneMore(p: PlanData, q: PlanData, keys: set<RelationId>, r: RelationId, after: map<Slot, Action>)
    requires r !in keys
    requires Moved(OverlayActions(p, q, keys), after, MutationOf(p.mutations, r), Of(q.actions, r))
    ensures after == OverlayActions(p, q, keys + {r})
  {
    hide OverlayActions, Of;
    forall slot: Slot
      ensures slot in after <==> slot in OverlayActions(p, q, keys + {r})
      ensures slot in after ==> after[slot] == OverlayActions(p, q, keys + {r})[slot]
    {
      OverlayActionsAt(p, q, keys, slot);
      OverlayActionsAt(p, q, keys + {r}, slot);
      UnshiftOf(MutationOf(p.mutations, r), q.actions, r, slot);
    }
  }

  lemma UnshiftOf(base: Mutation, other: map<Slot, Action>, r: RelationId, slot: Slot)
    ensures Unshift(base, Of(other, r), slot) == if slot.relation == r then Unshift(base, other, slot) else None
  {
  }

  lemma OverlayNoRows(p: PlanData, q: PlanData)
    ensures OverlayMutations(p.mutations, q.mutations, {}) == p.mutations
    ensures OverlayHistory(p, q, {}) == p.history
    ensures OverlayActions(p, q, {}) == p.actions
  {
  }

  method MergeRows(p: PlanData, q: PlanData)
    returns (ok: bool, mutations: map<RelationId, Mutation>, actions: map<Slot, Action>, history: map<RelationId, Coverage>,
             ghost done: set<RelationId>)
    ensures ok <==> !exists r | r in q.mutations :: Blocked(p, q, r)
    ensures done <= q.mutations.Keys && mutations == OverlayMutations(p.mutations, q.mutations, done)
    ensures actions == OverlayActions(p, q, done) && history == OverlayHistory(p, q, done)
    ensures ok ==> done == q.mutations.Keys
    ensures forall r | r in done :: !Blocked(p, q, r)
  {
    hide OverlayMutations, OverlayActions, OverlayHistory, Moved, Of;
    mutations, actions, history := p.mutations, p.actions, p.history;
    OverlayNoRows(p, q);
    var todo := q.mutations.Keys;
    done := {};
    while todo != {}
      invariant done !! todo && done + todo == q.mutations.Keys
      invariant mutations == OverlayMutations(p.mutations, q.mutations, done)
      invariant actions == OverlayActions(p, q, done) && history == OverlayHistory(p, q, done)
      invariant forall r | r in done :: !Blocked(p, q, r)
      decreases todo
    {
      var r :| r in todo;
      OverlayRowsOneMore(p, q, done, r);
      OverlayHistoryOneMore(p, q, done, r);
      var target := MutationOf(mutations, r);
      if r in q.history {
        if target.inserted != [] || target.removed != [] {
          assert Blocked(p, q, r);
          return false, mutations, actions, history, done;
        }
        history := history[r := q.history[r]];
      }
      mutations := mutations[r := Concat(target, q.mutations[r])];
      actions := MoveAnnotations(actions, q.actions, target, r);
      OverlayActionsOneMore(p, q, done, r, actions);
      todo, done := todo - {r}, done + {r};
    }
    assert done == q.mutations.Keys;
    ok := true;
  }

  // ----- Explicit model transitions -----

  method MergeDeltas(a: Option<Delta>, b: Option<Delta>) returns (merged: Result<Option<Delta>, PlanError>)
    ensures merged == MergeDelta(a, b) && (merged.Err? ==> merged.error == DistinctTransitions)
  {
    if a.None? {
      merged := Ok(b);
    } else if b.Some? && a != b {
      if a.value.others != [] || b.value.others != [] { return Err(DistinctTransitions); }
      var fields := MergeFields(a.value.fields, b.value.fields);
      merged := Ok(Some(a.value.(fields := fields)));
    } else {
      merged := Ok(a);
    }
  }

  // ----- Partial compositions -----

  /** The composition with only the given object patches and relations merged. */
  ghost function Partial(p: PlanData, q: PlanData, patches: set<(RelationId, nat)>, rows: set<RelationId>): PlanData
    requires patches <= q.objectPatches.Keys && rows <= q.mutations.Keys && MergeDelta(p.delta, q.delta).Ok?
  {
    PlanData(
      p.snapshot,
      OverlayMutations(p.mutations, q.mutations, rows),
      OverlayPatches(p.objectPatches, q.objectPatches, patches),
      p.contracts + q.contracts,
      p.owned + q.owned,
      MergeDelta(p.delta, q.delta).value,
      OverlayActions(p, q, rows),
      OverlayHistory(p, q, rows))
  }

  /** Some object patches whose identities agree were merged, and no rows. */
  ghost predicate PatchesOnly(p: PlanData, q: PlanData, after: PlanData) {
    exists keys ::
      && keys <= q.objectPatches.Keys && MergeDelta(p.delta, q.delta).Ok?
      && after == Partial(p, q, keys, {})
      && forall key | key in p.objectPatches && key in keys :: p.objectPatches[key].identity == q.objectPatches[key].identity
  }

  /** All object patches were merged, and the rows of some relations that were not blocked. */
  ghost predicate SomeRows(p: PlanData, q: PlanData, after: PlanData) {
    exists keys ::
      && keys <= q.mutations.Keys && MergeDelta(p.delta, q.delta).Ok?
      && after == Partial(p, q, q.objectPatches.Keys, keys)
      && forall r | r in keys :: !Blocked(p, q, r)
  }

  lemma PatchesLeft(p: PlanData, q: PlanData, keys: set<(RelationId, nat)>, after: PlanData)
    requires keys <= q.objectPatches.Keys && MergeDelta(p.delta, q.delta).Ok?
    requires after == p.(objectPatches := OverlayPatches(p.objectPatches, q.objectPatches, keys), contracts := p.contracts + q.contracts,
                         owned := p.owned + q.owned, delta := MergeDelta(p.delta, q.delta).value)
    requires forall key | key in p.objectPatches && key in keys :: p.objectPatches[key].identity == q.objectPatches[key].identity
    ensures PatchesOnly(p, q, after)
  {
    hide OverlayMutations, OverlayActions, OverlayHistory, OverlayPatches, MergeDelta;
    OverlayNoRows(p, q);
    assert after == Partial(p, q, keys, {});
  }

  lemma RowsLeft(p: PlanData, q: PlanData, keys: set<RelationId>, after: PlanData)
    requires keys <= q.mutations.Keys && MergeDelta(p.delta, q.delta).Ok?
    requires after == PlanData(p.snapshot, OverlayMutations(p.mutations, q.mutations, keys),
                               OverlayPatches(p.objectPatches, q.objectPatches, q.objectPatches.Keys), p.contracts + q.contracts,
                               p.owned + q.owned, MergeDelta(p.delta, q.delta).value, OverlayActions(p, q, keys), OverlayHistory(p, q, keys))
    requires forall r | r in keys :: !Blocked(p, q, r)
    ensures SomeRows(p, q, after)
  {
    hide OverlayMutations, OverlayActions, OverlayHistory, OverlayPatches, MergeDelta, Blocked;
    assert after == Partial(p, q, q.objectPatches.Keys, keys);
  }

  lemma ComposeCases(p: PlanData, q: PlanData)
    ensures var r, delta := Compose(p, q), MergeDelta(p.delta, q.delta);
            if p.snapshot != q.snapshot then r == Err(DifferentSnapshots)
            else if delta.Err? then r == Err(delta.error)
            else if !SameIdentities(p.objectPatches, q.objectPatches) then r == Err(InconsistentIdentity)
            else if exists x | x in q.mutations :: Blocked(p, q, x) then r == Err(CoverageAfterMutations)
            else r == Ok(Partial(p, q, q.objectPatches.Keys, q.mutations.Keys))
  {
  }

  lemma PartialIs(p: PlanData, q: PlanData, after: PlanData)
    requires MergeDelta(p.delta, q.delta).Ok?
    requires after == PlanData(p.snapshot, OverlayMutations(p.mutations, q.mutations, q.mutations.Keys),
                               OverlayPatches(p.objectPatches, q.objectPatches, q.objectPatches.Keys), p.contracts + q.contracts,
                               p.owned + q.owned, MergeDelta(p.delta, q.delta).value, OverlayActions(p, q, q.mutations.Keys),
                               OverlayHistory(p, q, q.mutations.Keys))
    ensures after == Partial(p, q, q.objectPatches.Keys, q.mutations.Keys)
  {
  }

  /** What an error leaves of the receiving plan. */
  ghost predicate LeftAfter(p: PlanData, q: PlanData, error: PlanError, after: PlanData) {
    match error
    case InconsistentIdentity => PatchesOnly(p, q, after)
    case CoverageAfterMutations => SomeRows(p, q, after)
    case _ => after == p
  }

  // ----- The plan object -----

  class Plan {
    const snapshot: Snapshot
    var mutations: map<RelationId, Mutation>
    var objectPatches: map<(RelationId, nat), ObjectPatch>
    var contracts: map<RelationId, nat>
    var owned: map<RelationId, nat>
    var delta: Option<Delta>
    var actions: map<Slot, Action>
    var history: map<RelationId, Coverage>

    function State(): PlanData
      reads this
    {
      PlanData(snapshot, mutations, objectPatches, contracts, owned, delta, actions, history)
    }

    constructor (snapshot: Snapshot)
      ensures State() == EmptyPlan(snapshot)
    {
      this.snapshot := snapshot;
      mutations, objectPatches, contracts, owned, delta, actions, history := map[], map[], map[], map[], None, map[], map[];
    }

    method Insert(r: RelationId, row: Row)
      modifies this
      ensures State() == AddRow(old(State()), r, Inserting, row, None)
    {
      var m := MutationOf(mutations, r);
      mutations := mutations[r := m.(inserted := m.inserted + [row])];
    }

    method Remove(r: RelationId, row: Row)
      modifies this
      ensures State() == AddRow(old(State()), r, Removing, row, None)
    {
      var m := MutationOf(mutations, r);
      mutations := mutations[r := m.(removed := m.removed + [row])];
    }

    method InsertSemantic(r: RelationId, row: Row, action: Action)
      modifies this
      ensures State() == AddRow(old(State()), r, Inserting, row, Some(action))
    {
      var m := MutationOf(mutations, r);
      var index := |m.inserted|;
      mutations := mutations[r := m.(inserted := m.inserted + [row])];
      actions := actions[Slot(r, Inserting, index) := action];
    }

    method RemoveSemantic(r: RelationId, row: Row, action: Action)
      modifies this
      ensures State() == AddRow(old(State()), r, Removing, row, Some(action))
    {
      var m := MutationOf(mutations, r);
      var index := |m.removed|;
      mutations := mutations[r := m.(removed := m.removed + [row])];
      actions := actions[Slot(r, Removing, index) := action];
    }

    method RegisterHistoryAuthorization(r: RelationId, authorization: Authorization, fields: seq<nat>)
      modifies this
      ensures State() == Register(old(State()), r, authorization, set f | f in fields)
    {
      var m := MutationOf(mutations, r);
      history := history[r := Coverage(|m.inserted|, |m.removed|, authorization, set f | f in fields)];
    }

    method PatchObjectField(key: (RelationId, nat), identity: Identity, column: nat, value: (nat, nat))
      returns (error: Option<PlanError>)
      modifies this
      ensures var r := PatchObject(old(State()), key, identity, column, value);
              if r.Ok? then error == None && State() == r.value else error == Some(r.error) && State() == old(State())
    {
      var patch := if key in objectPatches then objectPatches[key] else ObjectPatch(identity, map[]);
      if patch.identity != identity { return Some(InconsistentIdentity); }
      objectPatches := objectPatches[key := patch.(fields := patch.fields[column := value])];
      error := None;
    }

    method PatchModelField(patch: FieldPatch) returns (error: Option<PlanError>)
      modifies this
      ensures var r := PatchDelta(old(delta), patch);
              if r.Ok? then error == None && State() == old(State()).(delta := Some(r.value))
              else error == Some(r.error) && State() == old(State())
    {
      var d := if delta.Some? then delta.value else Delta([], []);
      if d.others != [] { return Some(DistinctTransitions); }
      var i := FindPatch(d.fields, KeyOf(patch));
      if i < |d.fields| {
        delta := Some(d.(fields := d.fields[i := d.fields[i].(value := patch.value)]));
      } else {
        delta := Some(d.(fields := Sort(d.fields + [patch])));
      }
      error := None;
    }

    /** Composes another plan into this one. The result does not depend on the order in which the other plan's
        maps are walked; after an error the parts merged so far stay, and nothing else. */
    method Extend(other: PlanData) returns (error: Option<PlanError>)
      modifies this
      ensures var r := Compose(old(State()), other);
              if r.Ok? then error == None && State() == r.value
              else error == Some(r.error) && LeftAfter(old(State()), other, r.error, State())
    {
      hide OverlayMutations, OverlayActions, OverlayHistory, OverlayPatches, Blocked, SameIdentities, MergeDelta, Partial,
           PatchesOnly, SomeRows, Compose;
      var before := State();
      ComposeCases(before, other);
      if snapshot != other.snapshot { return Some(DifferentSnapshots); }
      var merged := MergeDeltas(delta, other.delta);
      if merged.Err? { return Some(merged.error); }
      delta := merged.value;
      contracts := contracts + other.contracts;
      owned := owned + other.owned;
      var ok, patches;
      ghost var keys;
      ok, patches, keys := MergeObjectPatches(objectPatches, other.objectPatches);
      objectPatches := patches;
      if !ok {
        PatchesLeft(before, other, keys, State());
        return Some(InconsistentIdentity);
      }
      ghost var done;
      ok, mutations, actions, history, done := MergeRows(before, other);
      if !ok {
        RowsLeft(before, other, done, State());
        return Some(CoverageAfterMutations);
      }
      PartialIs(before, other, State());
      error := None;
    }

    /** Nothing to commit: no transition, no object patch, no row; annotations and coverage do not count. */
    method IsEmpty() returns (empty: bool)
      ensures empty <==> delta.None? && objectPatches == map[] && forall r, d :: Rows(State(), r, d) == []
    {
      empty := delta.None? && objectPatches == map[] && forall r | r in mutations :: mutations[r].inserted == [] && mutations[r].removed == [];
      if empty {
        assert forall r, d :: Rows(State(), r, d) == [];
      } else if delta.None? && objectPatches == map[] {
        var r :| r in mutations && !(mutations[r].inserted == [] && mutations[r].removed == []);
        assert Rows(State(), r, Inserting) != [] || Rows(State(), r, Removing) != [];
      }
    }
  }
}
