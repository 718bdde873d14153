/** Proposed transitions (plans): pending rows per relation, semantic annotations that point at row positions,
    history coverage of row prefixes, field patches, and the composition of two plans. */
module PlanModel {
  import opened Wrappers
  import opened FieldPatches
  import RelationalAlgebra

  type Row = RelationalAlgebra.Row
  type RelationId = nat

  datatype Direction = Inserting | Removing

  datatype Action = ObjectCreate | ObjectDelete | RelationshipAttach | RelationshipDetach | RelationshipMove

  datatype Mutation = Mutation(inserted: seq<Row>, removed: seq<Row>)

  /** Where an annotation points: a row position in one direction of one relation. */
  datatype Slot = Slot(relation: RelationId, direction: Direction, index: nat)

  datatype Authorization = Authorization(
    relationWrite: bool,
    objectCreate: bool,
    objectDelete: bool,
    relationshipAttach: bool,
    relationshipDetach: bool,
    relationshipMove: bool)

  /** The first rows of a relation that history authorizes; `fields` is kept sorted without duplicates, so
      it is a set. */
  datatype Coverage = Coverage(insertedPrefix: nat, removedPrefix: nat, authorization: Authorization, fields: set<nat>)

  /** Explicit model transition: field patches, and the entries of the carrier and lifecycle lists. */
  datatype Delta = Delta(fields: seq<FieldPatch>, others: seq<nat>)

  datatype Identity = Identity(column: nat, value: nat, owner: nat)

  datatype ObjectPatch = ObjectPatch(identity: Identity, fields: map<nat, (nat, nat)>)

  /** Database identity, source revision and authority a plan was built from. */
  datatype Snapshot = Snapshot(database: nat, source: nat, authority: nat)

  datatype PlanData = PlanData(
    snapshot: Snapshot,
    mutations: map<RelationId, Mutation>,
    objectPatches: map<(RelationId, nat), ObjectPatch>,
    contracts: map<RelationId, nat>,
    owned: map<RelationId, nat>,
    delta: Option<Delta>,
    actions: map<Slot, Action>,
    history: map<RelationId, Coverage>)

  datatype PlanError =
    | DifferentSnapshots
    | DistinctTransitions
    | InconsistentIdentity
    | CoverageAfterMutations

  const NO_ROWS := Mutation([], [])

  function EmptyPlan(snapshot: Snapshot): PlanData {
    PlanData(snapshot, map[], map[], map[], map[], None, map[], map[])
  }

  function MutationOf(mutations: map<RelationId, Mutation>, r: RelationId): Mutation {
    if r in mutations then mutations[r] else NO_ROWS
  }

  function Side(m: Mutation, d: Direction): seq<Row> {
    if d.Inserting? then m.inserted else m.removed
  }

  function Rows(p: PlanData, r: RelationId, d: Direction): seq<Row> {
    Side(MutationOf(p.mutations, r), d)
  }

  // ----- Building up one plan -----

  function AddRow(p: PlanData, r: RelationId, d: Direction, row: Row, action: Option<Action>): PlanData {
    var m := MutationOf(p.mutations, r);
    var m' := if d.Inserting? then m.(inserted := m.inserted + [row]) else m.(removed := m.removed + [row]);
    var slot := Slot(r, d, |Side(m, d)|);
    p.(mutations := p.mutations[r := m'],
       actions := if action.Some? then p.actions[slot := action.value] else p.actions)
  }

  function Register(p: PlanData, r: RelationId, authorization: Authorization, fields: set<nat>): PlanData {
    var m := MutationOf(p.mutations, r);
    p.(history := p.history[r := Coverage(|m.inserted|, |m.removed|, authorization, fields)])
  }

  function PatchObject(p: PlanData, key: (RelationId, nat), identity: Identity, column: nat, value: (nat, nat))
    : Result<PlanData, PlanError>
  {
    var patch := if key in p.objectPatches then p.objectPatches[key] else ObjectPatch(identity, map[]);
    if patch.identity != identity then Err(InconsistentIdentity)
    else Ok(p.(objectPatches := p.objectPatches[key := patch.(fields := patch.fields[column := value])]))
  }

  function PatchDelta(delta: Option<Delta>, patch: FieldPatch): Result<Delta, PlanError> {
    var d := if delta.Some? then delta.value else Delta([], []);
    if d.others != [] then Err(DistinctTransitions)
    else if Find(d.fields, KeyOf(patch)) < |d.fields| then Ok(d.(fields := Put(d.fields, patch)))
    else Ok(d.(fields := Sort(d.fields + [patch])))
  }

  // ----- Composition -----

  function MergeDelta(a: Option<Delta>, b: Option<Delta>): Result<Option<Delta>, PlanError> {
    if a.None? then Ok(b)
    else if b.None? || a == b then Ok(a)
    else if a.value.others != [] || b.value.others != [] then Err(DistinctTransitions)
    else Ok(Some(a.value.(fields := Sort(PutAll(a.value.fields, b.value.fields)))))
  }

  predicate SameIdentities(a: map<(RelationId, nat), ObjectPatch>, b: map<(RelationId, nat), ObjectPatch>) {
    forall key | key in a && key in b :: a[key].identity == b[key].identity
  }

  /** The object patches of `b` for the given keys laid over those of `a`. */
  function OverlayPatches(a: map<(RelationId, nat), ObjectPatch>, b: map<(RelationId, nat), ObjectPatch>,
                          keys: set<(RelationId, nat)>): map<(RelationId, nat), ObjectPatch>
    requires keys <= b.Keys
  {
    map key | key in a.Keys + keys ::
      if key !in keys then a[key]
      else if key in a then a[key].(fields := a[key].fields + b[key].fields)
      else b[key]
  }

  /** A coverage of `q` meets rows already pending in `p`. */
  predicate Blocked(p: PlanData, q: PlanData, r: RelationId) {
    r in q.mutations && r in q.history && MutationOf(p.mutations, r) != NO_ROWS
  }

  function Concat(a: Mutation, b: Mutation): Mutation {
    Mutation(a.inserted + b.inserted, a.removed + b.removed)
  }

  function OverlayMutations(a: map<RelationId, Mutation>, b: map<RelationId, Mutation>, keys: set<RelationId>)
    : map<RelationId, Mutation>
    requires keys <= b.Keys
  {
    map r | r in a.Keys + keys :: if r in keys then Concat(MutationOf(a, r), b[r]) else a[r]
  }

  function OverlayHistory(p: PlanData, q: PlanData, keys: set<RelationId>): map<RelationId, Coverage> {
    map r | r in p.history.Keys + (q.history.Keys * keys) ::
      if r in q.history && r in keys then q.history[r] else p.history[r]
  }

  /** An annotation slot moved behind the rows of the receiving plan. */
  function Shift(base: Mutation, slot: Slot): Slot {
    slot.(index := |Side(base, slot.direction)| + slot.index)
  }

  /** The annotation that moves to `slot`, if there is one. */
  function Unshift(base: Mutation, other: map<Slot, Action>, slot: Slot): Option<Action> {
    var offset := |Side(base, slot.direction)|;
    if slot.index < offset then None
    else
      var original := slot.(index := slot.index - offset);
      if original in other then Some(other[original]) else None
  }

  function OverlayActions(p: PlanData, q: PlanData, keys: set<RelationId>): map<Slot, Action> {
    map slot | slot in p.actions.Keys + (set s | s in q.actions && s.relation in keys :: Shift(MutationOf(p.mutations, s.relation), s)) ::
      var moved := if slot.relation in keys then Unshift(MutationOf(p.mutations, slot.relation), q.actions, slot) else None;
      if moved.Some? then moved.value else p.actions[slot]
  }

  function Compose(p: PlanData, q: PlanData): Result<PlanData, PlanError> {
    if p.snapshot != q.snapshot then Err(DifferentSnapshots)
    else
      var delta :- MergeDelta(p.delta, q.delta);
      if !SameIdentities(p.objectPatches, q.objectPatches) then Err(InconsistentIdentity)
      else if exists r | r in q.mutations :: Blocked(p, q, r) then Err(CoverageAfterMutations)
      else Ok(PlanData(
        p.snapshot,
        OverlayMutations(p.mutations, q.mutations, q.mutations.Keys),
        OverlayPatches(p.objectPatches, q.objectPatches, q.objectPatches.Keys),
        p.contracts + q.contracts,
        p.owned + q.owned,
        delta,
        OverlayActions(p, q, q.mutations.Keys),
        OverlayHistory(p, q, q.mutations.Keys)))
  }
}
