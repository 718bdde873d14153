/** What building and composing plans preserves. */
module PlanLaws {
  import opened Wrappers
  import opened FieldPatches
  import opened PlanModel

  /** Every annotation points at a pending row. */
  ghost predicate Anchored(p: PlanData) {
    forall s | s in p.actions :: s.relation in p.mutations && s.index < |Rows(p, s.relation, s.direction)|
  }

  function ActionAt(p: PlanData, r: RelationId, d: Direction, i: nat): Option<Action> {
    if Slot(r, d, i) in p.actions then Some(p.actions[Slot(r, d, i)]) else None
  }

  /** Pending rows with the annotation each one carries. */
  function Tagged(p: PlanData, r: RelationId, d: Direction): (t: seq<(Row, Option<Action>)>)
    ensures |t| == |Rows(p, r, d)|
    ensures forall i | 0 <= i < |t| :: t[i] == (Rows(p, r, d)[i], ActionAt(p, r, d, i))
  {
    TaggedUpTo(p, r, d, |Rows(p, r, d)|)
  }

  function TaggedUpTo(p: PlanData, r: RelationId, d: Direction, n: nat): (t: seq<(Row, Option<Action>)>)
    requires n <= |Rows(p, r, d)|
    ensures |t| == n
    ensures forall i | 0 <= i < n :: t[i] == (Rows(p, r, d)[i], ActionAt(p, r, d, i))
  {
    if n == 0 then [] else TaggedUpTo(p, r, d, n - 1) + [(Rows(p, r, d)[n - 1], ActionAt(p, r, d, n - 1))]
  }

  // ----- Composition, slot by slot -----

  lemma OverlayActionsAt(p: PlanData, q: PlanData, keys: set<RelationId>, slot: Slot)
    ensures var moved := if slot.relation in keys then Unshift(MutationOf(p.mutations, slot.relation), q.actions, slot) else None;
            var all := OverlayActions(p, q, keys);
            && (slot in all <==> moved.Some? || slot in p.actions)
            && (slot in all ==> all[slot] == if moved.Some? then moved.value else p.actions[slot])
  {
    var base := MutationOf(p.mutations, slot.relation);
    var offset := |Side(base, slot.direction)|;
    if slot.relation in keys && slot.index >= offset {
      var original := slot.(index := slot.index - offset);
      if original in q.actions {
        assert Shift(base, original) == slot;
      }
    }
    forall s | s in q.actions && s.relation in keys && Shift(MutationOf(p.mutations, s.relation), s) == slot
      ensures slot.relation in keys && Unshift(base, q.actions, slot).Some?
    {
      assert slot.(index := slot.index - offset) == s;
    }
  }

  lemma ComposedParts(p: PlanData, q: PlanData)
    requires Compose(p, q).Ok?
    ensures var all := Compose(p, q).value; var keys := q.mutations.Keys;
            && all.snapshot == p.snapshot
            && all.mutations == OverlayMutations(p.mutations, q.mutations, keys)
            && all.objectPatches == OverlayPatches(p.objectPatches, q.objectPatches, q.objectPatches.Keys)
            && all.contracts == p.contracts + q.contracts
            && all.owned == p.owned + q.owned
            && MergeDelta(p.delta, q.delta) == Ok(all.delta)
            && all.actions == OverlayActions(p, q, keys)
            && all.history == OverlayHistory(p, q, keys)
  {
    hide OverlayActions, OverlayHistory, OverlayPatches, OverlayMutations;
  }

  // ----- When plans are refused -----

  /** Two explicit transitions that differ, one of which is more than field writes. */
  predicate Clash(a: Option<Delta>, b: Option<Delta>) {
    a.Some? && b.Some? && a != b && (a.value.others != [] || b.value.others != [])
  }

  /** An object that the two plans identify differently. */
  predicate Misidentified(p: PlanData, q: PlanData) {
    exists key | key in p.objectPatches && key in q.objectPatches :: p.objectPatches[key].identity != q.objectPatches[key].identity
  }

  /** A relation mutated and covered by the second plan although the first has rows pending for it. */
  predicate CoveredTooLate(p: PlanData, q: PlanData) {
    exists r | r in q.mutations && r in q.history :: Rows(p, r, Inserting) != [] || Rows(p, r, Removing) != []
  }

  /** Composition fails exactly for one of four reasons, reported in this order. */
  lemma ComposeFailsIff(p: PlanData, q: PlanData)
    ensures Compose(p, q) == Err(DifferentSnapshots) <==> p.snapshot != q.snapshot
    ensures Compose(p, q) == Err(DistinctTransitions) <==> p.snapshot == q.snapshot && Clash(p.delta, q.delta)
    ensures Compose(p, q) == Err(InconsistentIdentity)
       <==> p.snapshot == q.snapshot && !Clash(p.delta, q.delta) && Misidentified(p, q)
    ensures Compose(p, q) == Err(CoverageAfterMutations)
       <==> p.snapshot == q.snapshot && !Clash(p.delta, q.delta) && !Misidentified(p, q) && CoveredTooLate(p, q)
    ensures Compose(p, q).Ok?
       <==> p.snapshot == q.snapshot && !Clash(p.delta, q.delta) && !Misidentified(p, q) && !CoveredTooLate(p, q)
  {
    hide OverlayActions, OverlayHistory, OverlayPatches, OverlayMutations;
    assert Misidentified(p, q) <==> !SameIdentities(p.objectPatches, q.objectPatches);
    if r :| r in q.mutations && r in q.history && (Rows(p, r, Inserting) != [] || Rows(p, r, Removing) != []) {
      assert Blocked(p, q, r);
    }
    if r :| r in q.mutations && Blocked(p, q, r) {
      assert Rows(p, r, Inserting) != [] || Rows(p, r, Removing) != [];
    }
  }

  /** A patch of a model field is refused exactly on a transition that is more than field writes, and a patch of an object
      exactly when the object is already identified differently. */
  lemma PatchFailsIff(p: PlanData, patch: FieldPatch, key: (RelationId, nat), identity: Identity, column: nat, value: (nat, nat))
    ensures PatchDelta(p.delta, patch).Err? <==> p.delta.Some? && p.delta.value.others != []
    ensures PatchObject(p, key, identity, column, value).Err? <==> key in p.objectPatches && p.objectPatches[key].identity != identity
  {
  }

  lemma ComposedRows(p: PlanData, q: PlanData, r: RelationId, d: Direction)
    requires Compose(p, q).Ok?
    ensures Rows(Compose(p, q).value, r, d) == Rows(p, r, d) + Rows(q, r, d)
  {
    hide Compose;
    ComposedParts(p, q);
  }

  lemma ComposedActionAt(p: PlanData, q: PlanData, r: RelationId, d: Direction, i: nat)
    requires Compose(p, q).Ok? && Anchored(p) && Anchored(q)
    ensures var n := |Rows(p, r, d)|;
            ActionAt(Compose(p, q).value, r, d, i) == if i < n then ActionAt(p, r, d, i) else ActionAt(q, r, d, i - n)
  {
    hide Compose, OverlayActions;
    ComposedParts(p, q);
    OverlayActionsAt(p, q, q.mutations.Keys, Slot(r, d, i));
  }

  /** Composition appends the rows of the second plan, each with its own annotation: nothing collides and
      nothing slides to another row. */
  lemma ComposeAppends(p: PlanData, q: PlanData, r: RelationId, d: Direction)
    requires Compose(p, q).Ok? && Anchored(p) && Anchored(q)
    ensures Tagged(Compose(p, q).value, r, d) == Tagged(p, r, d) + Tagged(q, r, d)
  {
    hide Compose, ActionAt, TaggedUpTo, Tagged;
    ComposedRows(p, q, r, d);
    var all := Compose(p, q).value;
    forall i | 0 <= i < |Rows(all, r, d)|
      ensures Tagged(all, r, d)[i] == (Tagged(p, r, d) + Tagged(q, r, d))[i]
    {
      ComposedActionAt(p, q, r, d, i);
    }
  }

  lemma ComposeAnchored(p: PlanData, q: PlanData)
    requires Compose(p, q).Ok? && Anchored(p) && Anchored(q)
    ensures Anchored(Compose(p, q).value)
  {
    hide Compose, OverlayActions;
    ComposedParts(p, q);
    var all := Compose(p, q).value;
    forall s | s in all.actions ensures s.relation in all.mutations && s.index < |Rows(all, s.relation, s.direction)| {
      OverlayActionsAt(p, q, q.mutations.Keys, s);
      ComposedRows(p, q, s.relation, s.direction);
    }
  }

  // ----- Every way of building a plan -----

  datatype Build =
    | Start(snapshot: Snapshot)
    | Pending(before: Build, relation: RelationId, direction: Direction, row: Row, action: Option<Action>)
    | Cover(before: Build, relation: RelationId, authorization: Authorization, fields: set<nat>)
    | PatchField(before: Build, patch: FieldPatch)
    | PatchIdentity(before: Build, key: (RelationId, nat), identity: Identity, column: nat, value: (nat, nat))
    | And(left: Build, right: Build)

  function Run(b: Build): Result<PlanData, PlanError> {
    match b
    case Start(snapshot) => Ok(EmptyPlan(snapshot))
    case Pending(before, r, d, row, action) =>
      var p :- Run(before);
      Ok(AddRow(p, r, d, row, action))
    case Cover(before, r, authorization, fields) =>
      var p :- Run(before);
      Ok(Register(p, r, authorization, fields))
    case PatchField(before, patch) =>
      var p :- Run(before);
      var delta :- PatchDelta(p.delta, patch);
      Ok(p.(delta := Some(delta)))
    case PatchIdentity(before, key, identity, column, value) =>
      var p :- Run(before);
      PatchObject(p, key, identity, column, value)
    case And(left, right) =>
      var p :- Run(left);
      var q :- Run(right);
      Compose(p, q)
  }

  /** The rows asked for, in order, with the annotation each was added with. */
  function Added(b: Build, r: RelationId, d: Direction): seq<(Row, Option<Action>)> {
    match b
    case Start(_) => []
    case Pending(before, r', d', row, action) =>
      Added(before, r, d) + if r == r' && d == d' then [(row, action)] else []
    case Cover(before, _, _, _) => Added(before, r, d)
    case PatchField(before, _) => Added(before, r, d)
    case PatchIdentity(before, _, _, _, _) => Added(before, r, d)
    case And(left, right) => Added(left, r, d) + Added(right, r, d)
  }

  predicate Mentions(b: Build, r: RelationId) {
    match b
    case Start(_) => false
    case Pending(before, r', _, _, _) => r == r' || Mentions(before, r)
    case Cover(before, _, _, _) => Mentions(before, r)
    case PatchField(before, _) => Mentions(before, r)
    case PatchIdentity(before, _, _, _, _) => Mentions(before, r)
    case And(left, right) => Mentions(left, r) || Mentions(right, r)
  }

  datatype CoveredRows = CoveredRows(
    inserted: seq<(Row, Option<Action>)>,
    removed: seq<(Row, Option<Action>)>,
    authorization: Authorization,
    fields: set<nat>)

  /** The rows the last effective registration for `r` was made for. */
  function Covered(b: Build, r: RelationId): Option<CoveredRows> {
    match b
    case Start(_) => None
    case Pending(before, _, _, _, _) => Covered(before, r)
    case Cover(before, r', authorization, fields) =>
      if r == r' then Some(CoveredRows(Added(before, r, Inserting), Added(before, r, Removing), authorization, fields))
      else Covered(before, r)
    case PatchField(before, _) => Covered(before, r)
    case PatchIdentity(before, _, _, _, _) => Covered(before, r)
    case And(left, right) =>
      if Mentions(right, r) && Covered(right, r).Some? then Covered(right, r) else Covered(left, r)
  }

  ghost predicate SortedDelta(delta: Option<Delta>) {
    delta.Some? ==> StrictlySorted(delta.value.fields)
  }

  ghost predicate Faithful(p: PlanData, b: Build) {
    && Anchored(p)
    && (forall r :: r in p.mutations <==> Mentions(b, r))
    && (forall r, d :: Tagged(p, r, d) == Added(b, r, d))
  }

  /** The recorded prefixes select exactly the rows that were covered. */
  ghost predicate CoverageOf(p: PlanData, r: RelationId, covered: Option<CoveredRows>) {
    if r !in p.history then covered.None?
    else
      var c := p.history[r];
      && covered.Some?
      && c.insertedPrefix <= |Tagged(p, r, Inserting)| && c.removedPrefix <= |Tagged(p, r, Removing)|
      && Tagged(p, r, Inserting)[..c.insertedPrefix] == covered.value.inserted
      && Tagged(p, r, Removing)[..c.removedPrefix] == covered.value.removed
      && c.authorization == covered.value.authorization && c.fields == covered.value.fields
  }

  lemma AddRowRows(p: PlanData, r: RelationId, d: Direction, row: Row, action: Option<Action>, r': RelationId, d': Direction)
    ensures Rows(AddRow(p, r, d, row, action), r', d') == Rows(p, r', d') + if r' == r && d' == d then [row] else []
  {
  }

  lemma AddRowActionAt(p: PlanData, r: RelationId, d: Direction, row: Row, action: Option<Action>,
                       r': RelationId, d': Direction, i: nat)
    requires Anchored(p)
    ensures ActionAt(AddRow(p, r, d, row, action), r', d', i)
         == if Slot(r', d', i) == Slot(r, d, |Rows(p, r, d)|) then action else ActionAt(p, r', d', i)
  {
  }

  lemma AddRowAnchored(p: PlanData, r: RelationId, d: Direction, row: Row, action: Option<Action>)
    requires Anchored(p)
    ensures Anchored(AddRow(p, r, d, row, action))
  {
    hide Rows;
    var p' := AddRow(p, r, d, row, action);
    forall s | s in p'.actions ensures s.relation in p'.mutations && s.index < |Rows(p', s.relation, s.direction)| {
      AddRowRows(p, r, d, row, action, s.relation, s.direction);
      AddRowPosition(p, r, d);
    }
  }

  lemma AddRowPosition(p: PlanData, r: RelationId, d: Direction)
    ensures Rows(p, r, d) == Side(MutationOf(p.mutations, r), d)
  {
  }

  lemma AddRowTagged(p: PlanData, r: RelationId, d: Direction, row: Row, action: Option<Action>,
                     r': RelationId, d': Direction)
    requires Anchored(p)
    ensures Tagged(AddRow(p, r, d, row, action), r', d')
         == Tagged(p, r', d') + if r' == r && d' == d then [(row, action)] else []
  {
    hide AddRow, Rows, ActionAt, Tagged, Anchored;
    var p' := AddRow(p, r, d, row, action);
    AddRowRows(p, r, d, row, action, r', d');
    forall i | 0 <= i < |Rows(p', r', d')|
      ensures Tagged(p', r', d')[i] == (Tagged(p, r', d') + if r' == r && d' == d then [(row, action)] else [])[i]
    {
      AddRowActionAt(p, r, d, row, action, r', d', i);
    }
  }

  /** Plans with the same rows and annotations are tagged alike. */
  lemma SameTagged(p: PlanData, p': PlanData)
    requires p.mutations == p'.mutations && p.actions == p'.actions
    ensures Anchored(p) ==> Anchored(p')
    ensures forall r, d :: Tagged(p', r, d) == Tagged(p, r, d)
  {
    forall r, d ensures Tagged(p', r, d) == Tagged(p, r, d) {
      assert Rows(p', r, d) == Rows(p, r, d);
    }
  }

  lemma PatchDeltaSorted(delta: Option<Delta>, patch: FieldPatch)
    requires SortedDelta(delta) && PatchDelta(delta, patch).Ok?
    ensures var fields := if delta.Some? then delta.value.fields else [];
            var fields' := PatchDelta(delta, patch).value.fields;
            StrictlySorted(fields') && FieldMap(fields') == FieldMap(fields)[KeyOf(patch) := patch.value]
  {
    var fields := if delta.Some? then delta.value.fields else [];
    if Find(fields, KeyOf(patch)) < |fields| {
      PutKeepsSorted(fields, patch);
    } else {
      hide FieldMap, Sort, StrictlySorted;
      SortIntoSorted(fields, patch);
    }
  }

  lemma PutKeepsSorted(fields: seq<FieldPatch>, patch: FieldPatch)
    requires StrictlySorted(fields) && Find(fields, KeyOf(patch)) < |fields|
    ensures StrictlySorted(Put(fields, patch)) && FieldMap(Put(fields, patch)) == FieldMap(fields)[KeyOf(patch) := patch.value]
  {
    hide FieldMap;
    PutSpec(fields, patch);
    var put := Put(fields, patch);
    assert forall i | 0 <= i < |fields| :: KeyOf(put[i]) == KeyOf(fields[i]);
  }

  lemma SortIntoSorted(fields: seq<FieldPatch>, patch: FieldPatch)
    requires StrictlySorted(fields) && Find(fields, KeyOf(patch)) == |fields|
    ensures StrictlySorted(Sort(fields + [patch]))
    ensures FieldMap(Sort(fields + [patch])) == FieldMap(fields)[KeyOf(patch) := patch.value]
  {
    hide FieldMap, Sort;
    SortedIsUnique(fields);
    PutSpec(fields, patch);
    assert Put(fields, patch) == fields + [patch];
    SortSpec(fields + [patch]);
    SortedIsUnique(Sort(fields + [patch]));
    SamePatchesSameMap(Sort(fields + [patch]), fields + [patch]);
  }

  /** However a plan was built, it holds exactly the rows that were added, each with its own annotation. */
  lemma {:induction false} BuildFaithful(b: Build)
    requires Run(b).Ok?
    ensures Faithful(Run(b).value, b)
    decreases b
  {
    hide Compose, AddRow, Tagged, ActionAt, Anchored, PatchDelta;
    var p := Run(b).value;
    match b
    case Start(snapshot) =>
      StartFaithful(snapshot);
    case Pending(before, r, d, row, action) =>
      BuildFaithful(before);
      PendingFaithful(before, r, d, row, action);
    case Cover(before, r, authorization, fields) =>
      BuildFaithful(before);
      SameTagged(Run(before).value, p);
    case PatchField(before, patch) =>
      BuildFaithful(before);
      SameTagged(Run(before).value, p);
    case PatchIdentity(before, key, identity, column, value) =>
      BuildFaithful(before);
      SameTagged(Run(before).value, p);
    case And(left, right) =>
      BuildFaithful(left);
      BuildFaithful(right);
      AndFaithful(left, right);
  }

  lemma StartFaithful(snapshot: Snapshot)
    ensures Faithful(EmptyPlan(snapshot), Start(snapshot))
  {
  }

  lemma PendingFaithful(before: Build, r: RelationId, d: Direction, row: Row, action: Option<Action>)
    requires Run(before).Ok? && Faithful(Run(before).value, before)
    ensures Faithful(AddRow(Run(before).value, r, d, row, action), Pending(before, r, d, row, action))
  {
    hide Tagged, Anchored;
    var p := Run(before).value;
    AddRowAnchored(p, r, d, row, action);
    forall r', d' ensures Tagged(AddRow(p, r, d, row, action), r', d') == Added(Pending(before, r, d, row, action), r', d') {
      AddRowTagged(p, r, d, row, action, r', d');
    }
  }

  lemma ComposedRelations(p: PlanData, q: PlanData, r: RelationId)
    requires Compose(p, q).Ok?
    ensures r in Compose(p, q).value.mutations <==> r in p.mutations || r in q.mutations
  {
    hide Compose, OverlayActions, OverlayHistory, OverlayPatches, MergeDelta;
    ComposedParts(p, q);
  }

  lemma AndFaithful(left: Build, right: Build)
    requires Run(And(left, right)).Ok?
    requires Faithful(Run(left).value, left) && Faithful(Run(right).value, right)
    ensures Faithful(Run(And(left, right)).value, And(left, right))
  {
    hide Compose, Tagged, Anchored;
    var p, q := Run(left).value, Run(right).value;
    ComposeAnchored(p, q);
    forall r ensures r in Compose(p, q).value.mutations <==> Mentions(And(left, right), r) {
      ComposedRelations(p, q, r);
    }
    forall r, d ensures Tagged(Compose(p, q).value, r, d) == Added(And(left, right), r, d) {
      ComposeAppends(p, q, r, d);
    }
  }

  /** The recorded prefixes always select the rows the registration was made for, however many rows were
      added or composed since. */
  lemma {:induction false} BuildCoverage(b: Build, r: RelationId)
    requires Run(b).Ok?
    ensures CoverageOf(Run(b).value, r, Covered(b, r))
    decreases b
  {
    hide Compose, AddRow, Tagged, ActionAt, Anchored, PatchDelta, Faithful, Rows;
    var p := Run(b).value;
    BuildFaithful(b);
    match b
    case Start(snapshot) =>
    case Pending(before, r', d, row, action) =>
      BuildFaithful(before);
      BuildCoverage(before, r);
      PendingCoverage(before, r', d, row, action, r);
    case Cover(before, r', authorization, fields) =>
      BuildFaithful(before);
      BuildCoverage(before, r);
      CoverCoverage(before, r', authorization, fields, r);
    case PatchField(before, patch) =>
      BuildCoverage(before, r);
      SameTagged(Run(before).value, p);
    case PatchIdentity(before, key, identity, column, value) =>
      BuildCoverage(before, r);
      SameTagged(Run(before).value, p);
    case And(left, right) =>
      BuildFaithful(left);
      BuildFaithful(right);
      BuildCoverage(left, r);
      BuildCoverage(right, r);
      AndCoverage(Run(left).value, Run(right).value, left, right, r);
  }

  lemma PendingCoverage(before: Build, r': RelationId, d: Direction, row: Row, action: Option<Action>, r: RelationId)
    requires Run(before).Ok? && Faithful(Run(before).value, before)
    requires CoverageOf(Run(before).value, r, Covered(before, r))
    ensures CoverageOf(AddRow(Run(before).value, r', d, row, action), r, Covered(before, r))
  {
    hide Tagged, Anchored, Run, Covered;
    AddRowTagged(Run(before).value, r', d, row, action, r, Inserting);
    AddRowTagged(Run(before).value, r', d, row, action, r, Removing);
  }

  lemma CoverCoverage(before: Build, r': RelationId, authorization: Authorization, fields: set<nat>, r: RelationId)
    requires Run(before).Ok? && Faithful(Run(before).value, before)
    requires CoverageOf(Run(before).value, r, Covered(before, r))
    ensures CoverageOf(Register(Run(before).value, r', authorization, fields), r, Covered(Cover(before, r', authorization, fields), r))
  {
    hide Tagged, Anchored, Run;
    SameTagged(Run(before).value, Register(Run(before).value, r', authorization, fields));
  }

  lemma AndCoverage(p: PlanData, q: PlanData, left: Build, right: Build, r: RelationId)
    requires Compose(p, q).Ok? && Faithful(p, left) && Faithful(q, right)
    requires CoverageOf(p, r, Covered(left, r)) && CoverageOf(q, r, Covered(right, r))
    ensures CoverageOf(Compose(p, q).value, r, Covered(And(left, right), r))
  {
    hide Tagged, Anchored, Run, Compose, Covered;
    ComposedHistory(p, q, r);
    CoveredAnd(left, right, r);
    ComposeAppends(p, q, r, Inserting);
    ComposeAppends(p, q, r, Removing);
  }

  lemma CoveredAnd(left: Build, right: Build, r: RelationId)
    ensures Covered(And(left, right), r)
         == if Mentions(right, r) && Covered(right, r).Some? then Covered(right, r) else Covered(left, r)
  {
  }

  lemma ComposedHistory(p: PlanData, q: PlanData, r: RelationId)
    requires Compose(p, q).Ok?
    ensures var taken := r in q.mutations && r in q.history; var all := Compose(p, q).value;
            && (r in all.history <==> taken || r in p.history)
            && (taken ==> all.history[r] == q.history[r] && Tagged(p, r, Inserting) == [] && Tagged(p, r, Removing) == [])
            && (!taken && r in p.history ==> all.history[r] == p.history[r])
  {
    hide Tagged;
    if r in q.mutations && r in q.history {
      NotBlocked(p, q, r);
    }
    hide Compose;
    ComposedParts(p, q);
  }

  /** Coverage only arrives where nothing is pending, so its positions need no shift. */
  lemma NotBlocked(p: PlanData, q: PlanData, r: RelationId)
    requires Compose(p, q).Ok? && r in q.mutations && r in q.history
    ensures Tagged(p, r, Inserting) == [] && Tagged(p, r, Removing) == []
  {
    assert !Blocked(p, q, r);
  }

  /** The field values asked for: later patches and the right-hand plan win. */
  function Patched(b: Build): map<Key, Option<nat>> {
    match b
    case Start(_) => map[]
    case Pending(before, _, _, _, _) => Patched(before)
    case Cover(before, _, _, _) => Patched(before)
    case PatchField(before, patch) => Patched(before)[KeyOf(patch) := patch.value]
    case PatchIdentity(before, _, _, _, _) => Patched(before)
    case And(left, right) => Patched(left) + Patched(right)
  }

  ghost predicate FieldsAre(delta: Option<Delta>, m: map<Key, Option<nat>>) {
    && SortedDelta(delta)
    && m == (if delta.Some? then FieldMap(delta.value.fields) else map[])
    && (delta.Some? ==> delta.value.others == [])
  }

  lemma MergeDeltaFields(a: Option<Delta>, b: Option<Delta>, m: map<Key, Option<nat>>, n: map<Key, Option<nat>>)
    requires FieldsAre(a, m) && FieldsAre(b, n)
    ensures MergeDelta(a, b).Ok? && FieldsAre(MergeDelta(a, b).value, m + n)
  {
    hide FieldMap, Sort, PutAll, StrictlySorted;
    if a.Some? && b.Some? && a != b {
      MergeSpec(a.value.fields, b.value.fields);
    } else {
      assert m + n == if a.None? then n else m;
    }
  }

  /** However a plan was built, its field patches are strictly sorted and stand for the values asked for. */
  lemma {:induction false} BuildFields(b: Build)
    requires Run(b).Ok?
    ensures FieldsAre(Run(b).value.delta, Patched(b))
    decreases b
  {
    hide Compose, AddRow, PatchDelta, StrictlySorted;
    match b
    case Start(snapshot) =>
    case Pending(before, r, d, row, action) =>
      BuildFields(before);
      AddRowKeepsDelta(Run(before).value, r, d, row, action);
    case Cover(before, r, authorization, fields) =>
      BuildFields(before);
    case PatchField(before, patch) =>
      BuildFields(before);
      PatchDeltaSorted(Run(before).value.delta, patch);
      PatchDeltaOthers(Run(before).value.delta, patch);
    case PatchIdentity(before, key, identity, column, value) =>
      BuildFields(before);
    case And(left, right) =>
      BuildFields(left);
      BuildFields(right);
      MergeDeltaFields(Run(left).value.delta, Run(right).value.delta, Patched(left), Patched(right));
      ComposedParts(Run(left).value, Run(right).value);
  }

  lemma AddRowKeepsDelta(p: PlanData, r: RelationId, d: Direction, row: Row, action: Option<Action>)
    ensures AddRow(p, r, d, row, action).delta == p.delta
  {
  }

  lemma PatchDeltaOthers(delta: Option<Delta>, patch: FieldPatch)
    requires PatchDelta(delta, patch).Ok?
    ensures PatchDelta(delta, patch).value.others == []
  {
  }

  // ----- Object patches -----

  /** The identities that patches of an object were made with. */
  function IdentitiesOf(b: Build, key: (RelationId, nat)): set<Identity> {
    match b
    case Start(_) => {}
    case Pending(before, _, _, _, _) => IdentitiesOf(before, key)
    case Cover(before, _, _, _) => IdentitiesOf(before, key)
    case PatchField(before, _) => IdentitiesOf(before, key)
    case PatchIdentity(before, key', identity, _, _) => IdentitiesOf(before, key) + if key == key' then {identity} else {}
    case And(left, right) => IdentitiesOf(left, key) + IdentitiesOf(right, key)
  }

  /** The field values asked for: later patches and the right-hand plan win. */
  function ObjectFields(b: Build, key: (RelationId, nat)): map<nat, (nat, nat)> {
    match b
    case Start(_) => map[]
    case Pending(before, _, _, _, _) => ObjectFields(before, key)
    case Cover(before, _, _, _) => ObjectFields(before, key)
    case PatchField(before, _) => ObjectFields(before, key)
    case PatchIdentity(before, key', _, column, value) =>
      if key == key' then ObjectFields(before, key)[column := value] else ObjectFields(before, key)
    case And(left, right) => ObjectFields(left, key) + ObjectFields(right, key)
  }

  ghost predicate ObjectIs(patches: map<(RelationId, nat), ObjectPatch>, key: (RelationId, nat), identities: set<Identity>,
                           fields: map<nat, (nat, nat)>)
  {
    if key in patches then identities == {patches[key].identity} && fields == patches[key].fields
    else identities == {} && fields == map[]
  }

  lemma ComposedObject(p: PlanData, q: PlanData, key: (RelationId, nat), i: set<Identity>, j: set<Identity>,
                       f: map<nat, (nat, nat)>, g: map<nat, (nat, nat)>)
    requires Compose(p, q).Ok? && ObjectIs(p.objectPatches, key, i, f) && ObjectIs(q.objectPatches, key, j, g)
    ensures ObjectIs(Compose(p, q).value.objectPatches, key, i + j, f + g)
  {
    hide Compose, ObjectIs, OverlayPatches;
    SameIdentitiesWhenOk(p, q);
    ComposedParts(p, q);
    OverlaidObject(p.objectPatches, q.objectPatches, key, i, j, f, g);
  }

  lemma OverlaidObject(a: map<(RelationId, nat), ObjectPatch>, b: map<(RelationId, nat), ObjectPatch>, key: (RelationId, nat),
                       i: set<Identity>, j: set<Identity>, f: map<nat, (nat, nat)>, g: map<nat, (nat, nat)>)
    requires SameIdentities(a, b) && ObjectIs(a, key, i, f) && ObjectIs(b, key, j, g)
    ensures ObjectIs(OverlayPatches(a, b, b.Keys), key, i + j, f + g)
  {
    if key !in a {
      assert f + g == g && i + j == j;
    } else if key !in b {
      assert f + g == f && i + j == i;
    } else {
      assert i + j == i;
    }
  }

  lemma SameIdentitiesWhenOk(p: PlanData, q: PlanData)
    requires Compose(p, q).Ok?
    ensures SameIdentities(p.objectPatches, q.objectPatches)
  {
    hide OverlayActions, OverlayHistory, OverlayMutations, OverlayPatches, MergeDelta, SameIdentities, Blocked;
  }

  /** However a plan was built, an object is patched under one identity, with exactly the values asked for. */
  lemma {:induction false} BuildObjects(b: Build, key: (RelationId, nat))
    requires Run(b).Ok?
    ensures ObjectIs(Run(b).value.objectPatches, key, IdentitiesOf(b, key), ObjectFields(b, key))
    decreases b
  {
    hide Compose, PatchDelta;
    match b
    case Start(snapshot) =>
    case Pending(before, r, d, row, action) => BuildObjects(before, key);
    case Cover(before, r, authorization, fields) => BuildObjects(before, key);
    case PatchField(before, patch) => BuildObjects(before, key);
    case PatchIdentity(before, key', identity, column, value) => BuildObjects(before, key);
    case And(left, right) =>
      BuildObjects(left, key);
      BuildObjects(right, key);
      ComposedObject(Run(left).value, Run(right).value, key, IdentitiesOf(left, key), IdentitiesOf(right, key),
                     ObjectFields(left, key), ObjectFields(right, key));
  }
}
