/** Composing plans is associative, with the empty plan as unit. */
module PlanAssociativity {
  import opened Wrappers
  import opened FieldPatches
  import opened PlanModel
  import opened PlanLaws

  type Patches = map<(RelationId, nat), ObjectPatch>

  function Then(first: Result<PlanData, PlanError>, s: PlanData): Result<PlanData, PlanError> {
    if first.Ok? then Compose(first.value, s) else first
  }

  function Before(p: PlanData, second: Result<PlanData, PlanError>): Result<PlanData, PlanError> {
    if second.Ok? then Compose(p, second.value) else second
  }

  /** History coverage only for relations the plan mutates. */
  predicate CoverageNamed(p: PlanData) {
    p.history.Keys <= p.mutations.Keys
  }

  /** What every build guarantees. */
  ghost predicate WellBuilt(p: PlanData) {
    Anchored(p) && SortedDelta(p.delta)
  }

  /** Both groupings of three plans succeed or fail together, and then agree. */
  ghost predicate GroupingsAgree(p: PlanData, q: PlanData, s: PlanData) {
    var left, right := Then(Compose(p, q), s), Before(p, Compose(q, s));
    (left.Ok? <==> right.Ok?) && (left.Ok? ==> left == right)
  }

  // ----- Explicit model transitions -----

  function ThenDelta(first: Result<Option<Delta>, PlanError>, c: Option<Delta>): Result<Option<Delta>, PlanError> {
    if first.Ok? then MergeDelta(first.value, c) else first
  }

  function BeforeDelta(a: Option<Delta>, second: Result<Option<Delta>, PlanError>): Result<Option<Delta>, PlanError> {
    if second.Ok? then MergeDelta(a, second.value) else second
  }

  predicate FieldsOnly(d: Option<Delta>) {
    d.None? || d.value.others == []
  }

  function FieldsOf(d: Option<Delta>): map<Key, Option<nat>> {
    if d.Some? then FieldMap(d.value.fields) else map[]
  }

  lemma SameFieldsSameDelta(a: Option<Delta>, b: Option<Delta>)
    requires SortedDelta(a) && SortedDelta(b) && FieldsOnly(a) && FieldsOnly(b)
    requires FieldsOf(a) == FieldsOf(b) && a.Some? == b.Some?
    ensures a == b
  {
    if a.Some? { Canonical(a.value.fields, b.value.fields); }
  }

  lemma MergeFieldsOnly(a: Option<Delta>, b: Option<Delta>)
    requires SortedDelta(a) && SortedDelta(b) && FieldsOnly(a) && FieldsOnly(b)
    ensures MergeDelta(a, b).Ok?
    ensures var m := MergeDelta(a, b).value;
            && SortedDelta(m) && FieldsOnly(m) && FieldsOf(m) == FieldsOf(a) + FieldsOf(b)
            && (m.Some? <==> a.Some? || b.Some?)
  {
    hide FieldMap, Sort, PutAll, StrictlySorted;
    MergeDeltaFields(a, b, FieldsOf(a), FieldsOf(b));
  }

  lemma DeltaAssociative(a: Option<Delta>, b: Option<Delta>, c: Option<Delta>)
    requires SortedDelta(a) && SortedDelta(b) && SortedDelta(c)
    ensures ThenDelta(MergeDelta(a, b), c).Ok? <==> BeforeDelta(a, MergeDelta(b, c)).Ok?
    ensures ThenDelta(MergeDelta(a, b), c).Ok? ==> ThenDelta(MergeDelta(a, b), c) == BeforeDelta(a, MergeDelta(b, c))
  {
    hide FieldMap, Sort, PutAll, StrictlySorted, SortedDelta;
    if FieldsOnly(a) && FieldsOnly(b) && FieldsOnly(c) {
      hide MergeDelta, FieldsOnly, FieldsOf;
      MergeFieldsOnly(a, b);
      MergeFieldsOnly(b, c);
      var ab, bc := MergeDelta(a, b).value, MergeDelta(b, c).value;
      MergeFieldsOnly(ab, c);
      MergeFieldsOnly(a, bc);
      SameFieldsSameDelta(MergeDelta(ab, c).value, MergeDelta(a, bc).value);
    }
  }

  // ----- Object patches -----

  function Overlaid(a: Patches, b: Patches): Patches {
    OverlayPatches(a, b, b.Keys)
  }

  function PatchAt(a: Patches, key: (RelationId, nat)): Option<ObjectPatch> {
    if key in a then Some(a[key]) else None
  }

  /** Field values of the second patch win; the identity is the first one's. */
  function Both(a: Option<ObjectPatch>, b: Option<ObjectPatch>): Option<ObjectPatch> {
    if a.None? then b else if b.None? then a else Some(a.value.(fields := a.value.fields + b.value.fields))
  }

  lemma BothAssociative(a: Option<ObjectPatch>, b: Option<ObjectPatch>, c: Option<ObjectPatch>)
    ensures Both(Both(a, b), c) == Both(a, Both(b, c))
  {
    if a.Some? && b.Some? && c.Some? {
      assert a.value.fields + b.value.fields + c.value.fields == a.value.fields + (b.value.fields + c.value.fields);
    }
  }

  lemma OverlaidAt(a: Patches, b: Patches, key: (RelationId, nat))
    ensures PatchAt(Overlaid(a, b), key) == Both(PatchAt(a, key), PatchAt(b, key))
  {
  }

  lemma IdentitiesAt(a: Patches, b: Patches)
    ensures SameIdentities(a, b) <==>
            forall key :: Compatible(PatchAt(a, key), PatchAt(b, key))
  {
    if SameIdentities(a, b) {
      forall key ensures Compatible(PatchAt(a, key), PatchAt(b, key)) {
      }
    } else {
      var key :| key in a && key in b && a[key].identity != b[key].identity;
      assert !Compatible(PatchAt(a, key), PatchAt(b, key));
    }
  }

  predicate Compatible(a: Option<ObjectPatch>, b: Option<ObjectPatch>) {
    a.Some? && b.Some? ==> a.value.identity == b.value.identity
  }

  lemma SamePatches(a: Patches, b: Patches)
    requires forall key :: PatchAt(a, key) == PatchAt(b, key)
    ensures a == b
  {
    forall key: (RelationId, nat)
      ensures key in a <==> key in b
      ensures key in a ==> a[key] == b[key]
    {
      assert PatchAt(a, key) == PatchAt(b, key);
    }
  }

  lemma PatchesAssociative(a: Patches, b: Patches, c: Patches)
    ensures SameIdentities(a, b) && SameIdentities(Overlaid(a, b), c) <==> SameIdentities(b, c) && SameIdentities(a, Overlaid(b, c))
    ensures Overlaid(Overlaid(a, b), c) == Overlaid(a, Overlaid(b, c))
  {
    hide Overlaid, SameIdentities, PatchAt;
    forall key
      ensures PatchAt(Overlaid(a, b), key) == Both(PatchAt(a, key), PatchAt(b, key))
      ensures PatchAt(Overlaid(b, c), key) == Both(PatchAt(b, key), PatchAt(c, key))
      ensures PatchAt(Overlaid(Overlaid(a, b), c), key) == PatchAt(Overlaid(a, Overlaid(b, c)), key)
    {
      OverlaidAt(a, b, key);
      OverlaidAt(b, c, key);
      OverlaidAt(Overlaid(a, b), c, key);
      OverlaidAt(a, Overlaid(b, c), key);
      BothAssociative(PatchAt(a, key), PatchAt(b, key), PatchAt(c, key));
    }
    SamePatches(Overlaid(Overlaid(a, b), c), Overlaid(a, Overlaid(b, c)));
    IdentitiesAssociative(a, b, c);
  }

  lemma IdentitiesAssociative(a: Patches, b: Patches, c: Patches)
    requires forall key :: PatchAt(Overlaid(a, b), key) == Both(PatchAt(a, key), PatchAt(b, key))
    requires forall key :: PatchAt(Overlaid(b, c), key) == Both(PatchAt(b, key), PatchAt(c, key))
    ensures SameIdentities(a, b) && SameIdentities(Overlaid(a, b), c) <==> SameIdentities(b, c) && SameIdentities(a, Overlaid(b, c))
  {
    hide Overlaid, SameIdentities, PatchAt;
    IdentitiesAt(a, b);
    IdentitiesAt(b, c);
    IdentitiesAt(Overlaid(a, b), c);
    IdentitiesAt(a, Overlaid(b, c));
  }

  // ----- Rows, annotations, coverage -----

  lemma SucceedsIff(p: PlanData, q: PlanData)
    ensures Compose(p, q).Ok? <==>
            && p.snapshot == q.snapshot && MergeDelta(p.delta, q.delta).Ok?
            && SameIdentities(p.objectPatches, q.objectPatches) && forall r :: !Blocked(p, q, r)
  {
    hide OverlayActions, OverlayHistory, OverlayPatches, OverlayMutations, MergeDelta, SameIdentities;
  }

  /** In both groupings a coverage is refused exactly when it meets pending rows of an earlier plan. */
  lemma BlockedTogether(p: PlanData, q: PlanData, s: PlanData, pq: PlanData, qs: PlanData, r: RelationId)
    requires CoverageNamed(q)
    requires pq.mutations == OverlayMutations(p.mutations, q.mutations, q.mutations.Keys)
    requires qs.mutations == OverlayMutations(q.mutations, s.mutations, s.mutations.Keys)
    requires qs.history == OverlayHistory(q, s, s.mutations.Keys)
    ensures Blocked(p, q, r) || Blocked(pq, s, r) <==> Blocked(q, s, r) || Blocked(p, qs, r)
  {
  }

  lemma OverlayMutationsAt(a: map<RelationId, Mutation>, b: map<RelationId, Mutation>, r: RelationId)
    ensures r in OverlayMutations(a, b, b.Keys) <==> r in a || r in b
    ensures MutationOf(OverlayMutations(a, b, b.Keys), r) == Concat(MutationOf(a, r), MutationOf(b, r))
  {
  }

  lemma MutationsAssociative(a: map<RelationId, Mutation>, b: map<RelationId, Mutation>, c: map<RelationId, Mutation>)
    ensures var ab, bc := OverlayMutations(a, b, b.Keys), OverlayMutations(b, c, c.Keys);
            OverlayMutations(ab, c, c.Keys) == OverlayMutations(a, bc, bc.Keys)
  {
    hide OverlayMutations, Concat;
    var ab, bc := OverlayMutations(a, b, b.Keys), OverlayMutations(b, c, c.Keys);
    var left, right := OverlayMutations(ab, c, c.Keys), OverlayMutations(a, bc, bc.Keys);
    forall r ensures (r in left <==> r in right) && MutationOf(left, r) == MutationOf(right, r) {
      OverlayMutationsAt(a, b, r);
      OverlayMutationsAt(b, c, r);
      OverlayMutationsAt(ab, c, r);
      OverlayMutationsAt(a, bc, r);
      ConcatAssociative(MutationOf(a, r), MutationOf(b, r), MutationOf(c, r));
    }
    assert forall r | r in left :: left[r] == MutationOf(left, r) && right[r] == MutationOf(right, r);
  }

  lemma ConcatAssociative(a: Mutation, b: Mutation, c: Mutation)
    ensures Concat(Concat(a, b), c) == Concat(a, Concat(b, c))
    ensures Concat(a, NO_ROWS) == a == Concat(NO_ROWS, a)
  {
  }

  function CoverageAt(h: map<RelationId, Coverage>, r: RelationId): Option<Coverage> {
    if r in h then Some(h[r]) else None
  }

  lemma OverlayHistoryAt(p: PlanData, q: PlanData, r: RelationId)
    ensures CoverageAt(OverlayHistory(p, q, q.mutations.Keys), r)
         == if r in q.mutations && r in q.history then Some(q.history[r]) else CoverageAt(p.history, r)
  {
  }

  lemma HistoryAssociative(p: PlanData, q: PlanData, s: PlanData, pq: PlanData, qs: PlanData)
    requires CoverageNamed(q)
    requires qs.mutations.Keys == q.mutations.Keys + s.mutations.Keys
    requires pq.history == OverlayHistory(p, q, q.mutations.Keys) && qs.history == OverlayHistory(q, s, s.mutations.Keys)
    ensures OverlayHistory(pq, s, s.mutations.Keys) == OverlayHistory(p, qs, qs.mutations.Keys)
  {
    hide OverlayHistory;
    var left, right := OverlayHistory(pq, s, s.mutations.Keys), OverlayHistory(p, qs, qs.mutations.Keys);
    forall r ensures CoverageAt(left, r) == CoverageAt(right, r) {
      OverlayHistoryAt(p, q, r);
      OverlayHistoryAt(q, s, r);
      OverlayHistoryAt(pq, s, r);
      OverlayHistoryAt(p, qs, r);
    }
    SameHistory(left, right);
  }

  lemma SameHistory(a: map<RelationId, Coverage>, b: map<RelationId, Coverage>)
    requires forall r :: CoverageAt(a, r) == CoverageAt(b, r)
    ensures a == b
  {
    forall r ensures (r in a <==> r in b) && (r in a ==> a[r] == b[r]) {
      assert CoverageAt(a, r) == CoverageAt(b, r);
    }
  }

  lemma SameActions(a: PlanData, b: PlanData)
    requires forall r, d, i :: ActionAt(a, r, d, i) == ActionAt(b, r, d, i)
    ensures a.actions == b.actions
  {
    forall slot: Slot
      ensures slot in a.actions <==> slot in b.actions
      ensures slot in a.actions ==> a.actions[slot] == b.actions[slot]
    {
      assert ActionAt(a, slot.relation, slot.direction, slot.index) == ActionAt(b, slot.relation, slot.direction, slot.index);
    }
  }

  lemma ActionsAssociative(p: PlanData, q: PlanData, s: PlanData, pq: PlanData, qs: PlanData)
    requires Anchored(p) && Anchored(q) && Anchored(s)
    requires Compose(p, q) == Ok(pq) && Compose(q, s) == Ok(qs)
    requires Compose(pq, s).Ok? && Compose(p, qs).Ok?
    ensures Compose(pq, s).value.actions == Compose(p, qs).value.actions
  {
    hide Compose, ActionAt, Anchored, Rows;
    ComposeAnchored(p, q);
    ComposeAnchored(q, s);
    forall r, d, i: nat ensures ActionAt(Compose(pq, s).value, r, d, i) == ActionAt(Compose(p, qs).value, r, d, i) {
      ActionsAssociativeAt(p, q, s, pq, qs, r, d, i);
    }
    SameActions(Compose(pq, s).value, Compose(p, qs).value);
  }

  lemma ActionsAssociativeAt(p: PlanData, q: PlanData, s: PlanData, pq: PlanData, qs: PlanData, r: RelationId, d: Direction, i: nat)
    requires Anchored(p) && Anchored(q) && Anchored(s) && Anchored(pq) && Anchored(qs)
    requires Compose(p, q) == Ok(pq) && Compose(q, s) == Ok(qs)
    requires Compose(pq, s).Ok? && Compose(p, qs).Ok?
    ensures ActionAt(Compose(pq, s).value, r, d, i) == ActionAt(Compose(p, qs).value, r, d, i)
  {
    hide Compose, ActionAt, Anchored, Rows;
    ComposedActionAt(pq, s, r, d, i);
    ComposedActionAt(p, qs, r, d, i);
    ComposedRows(p, q, r, d);
    var n, m := |Rows(p, r, d)|, |Rows(q, r, d)|;
    if i < n + m { ComposedActionAt(p, q, r, d, i); }
    if i >= n { ComposedActionAt(q, s, r, d, i - n); }
  }

  // ----- The laws -----

  /** What a composition holds, whether or not it is refused. */
  function Joined(p: PlanData, q: PlanData): PlanData {
    var delta := MergeDelta(p.delta, q.delta);
    PlanData(
      p.snapshot,
      OverlayMutations(p.mutations, q.mutations, q.mutations.Keys),
      Overlaid(p.objectPatches, q.objectPatches),
      p.contracts + q.contracts,
      p.owned + q.owned,
      if delta.Ok? then delta.value else None,
      OverlayActions(p, q, q.mutations.Keys),
      OverlayHistory(p, q, q.mutations.Keys))
  }

  lemma ComposeJoins(p: PlanData, q: PlanData)
    ensures Compose(p, q).Ok? ==> Compose(p, q).value == Joined(p, q)
  {
    hide OverlayActions, OverlayHistory, OverlayPatches, OverlayMutations, MergeDelta, SameIdentities, Blocked;
  }

  lemma SucceedTogether(p: PlanData, q: PlanData, s: PlanData)
    requires WellBuilt(p) && WellBuilt(q) && WellBuilt(s) && CoverageNamed(q)
    ensures Compose(p, q).Ok? && Compose(Joined(p, q), s).Ok? <==> Compose(q, s).Ok? && Compose(p, Joined(q, s)).Ok?
  {
    hide Compose, Anchored, SortedDelta, MergeDelta, SameIdentities, Blocked, OverlayPatches, Overlaid,
         OverlayMutations, OverlayActions, OverlayHistory, CoverageNamed;
    var pq, qs := Joined(p, q), Joined(q, s);
    SucceedsIff(p, q);
    SucceedsIff(q, s);
    SucceedsIff(pq, s);
    SucceedsIff(p, qs);
    DeltaAssociative(p.delta, q.delta, s.delta);
    PatchesAssociative(p.objectPatches, q.objectPatches, s.objectPatches);
    forall r ensures Blocked(p, q, r) || Blocked(pq, s, r) <==> Blocked(q, s, r) || Blocked(p, qs, r) {
      BlockedTogether(p, q, s, pq, qs, r);
    }
  }

  lemma AgreeTogether(p: PlanData, q: PlanData, s: PlanData)
    requires WellBuilt(p) && WellBuilt(q) && WellBuilt(s) && CoverageNamed(q)
    requires Compose(p, q).Ok? && Compose(Joined(p, q), s).Ok? && Compose(q, s).Ok? && Compose(p, Joined(q, s)).Ok?
    ensures Compose(Joined(p, q), s) == Compose(p, Joined(q, s))
  {
    hide Compose, Anchored, SortedDelta, MergeDelta, SameIdentities, Blocked, OverlayPatches, Overlaid,
         OverlayMutations, OverlayActions, OverlayHistory;
    var pq, qs := Joined(p, q), Joined(q, s);
    ComposeJoins(p, q);
    ComposeJoins(q, s);
    ComposeJoins(pq, s);
    ComposeJoins(p, qs);
    DeltasAgree(p, q, s);
    PatchesAssociative(p.objectPatches, q.objectPatches, s.objectPatches);
    MutationsAssociative(p.mutations, q.mutations, s.mutations);
    OverlayMutationsKeys(q.mutations, s.mutations);
    HistoryAssociative(p, q, s, pq, qs);
    ActionsAssociative(p, q, s, pq, qs);
    UnionAssociative(p.contracts, q.contracts, s.contracts);
    UnionAssociative(p.owned, q.owned, s.owned);
  }

  lemma DeltasAgree(p: PlanData, q: PlanData, s: PlanData)
    requires SortedDelta(p.delta) && SortedDelta(q.delta) && SortedDelta(s.delta)
    requires Compose(p, q).Ok? && Compose(Joined(p, q), s).Ok? && Compose(q, s).Ok? && Compose(p, Joined(q, s)).Ok?
    ensures Joined(Joined(p, q), s).delta == Joined(p, Joined(q, s)).delta
  {
    hide Compose, MergeDelta, SameIdentities, Blocked, OverlayPatches, Overlaid,
         OverlayMutations, OverlayActions, OverlayHistory, SortedDelta;
    SucceedsIff(p, q);
    SucceedsIff(q, s);
    SucceedsIff(Joined(p, q), s);
    DeltaAssociative(p.delta, q.delta, s.delta);
  }

  lemma OverlayMutationsKeys(a: map<RelationId, Mutation>, b: map<RelationId, Mutation>)
    ensures OverlayMutations(a, b, b.Keys).Keys == a.Keys + b.Keys
  {
  }

  lemma UnionAssociative<K, V>(a: map<K, V>, b: map<K, V>, c: map<K, V>)
    ensures a + b + c == a + (b + c)
  {
  }

  lemma Associative(p: PlanData, q: PlanData, s: PlanData)
    requires WellBuilt(p) && WellBuilt(q) && WellBuilt(s) && CoverageNamed(q)
    ensures GroupingsAgree(p, q, s)
  {
    hide Compose, WellBuilt, Joined, CoverageNamed;
    ComposeJoins(p, q);
    ComposeJoins(q, s);
    SucceedTogether(p, q, s);
    if Then(Compose(p, q), s).Ok? {
      AgreeTogether(p, q, s);
    }
  }

  lemma OverlayNothing(p: PlanData, empty: PlanData)
    requires empty == EmptyPlan(p.snapshot)
    ensures OverlayMutations(p.mutations, map[], {}) == p.mutations
    ensures OverlayPatches(p.objectPatches, map[], {}) == p.objectPatches
    ensures OverlayHistory(p, empty, {}) == p.history
    ensures p.contracts + map[] == p.contracts && p.owned + map[] == p.owned
  {
  }

  lemma OverlayNoActions(p: PlanData, empty: PlanData)
    requires empty == EmptyPlan(p.snapshot)
    ensures OverlayActions(p, empty, {}) == p.actions
  {
  }

  lemma EmptyIsRightUnit(p: PlanData)
    ensures Compose(p, EmptyPlan(p.snapshot)) == Ok(p)
  {
    hide Compose, OverlayMutations, OverlayPatches, OverlayHistory, OverlayActions, MutationOf;
    var empty := EmptyPlan(p.snapshot);
    SucceedsIff(p, empty);
    ComposeJoins(p, empty);
    OverlayNothing(p, empty);
    OverlayNoActions(p, empty);
    assert empty.mutations.Keys == {} && empty.objectPatches.Keys == {};
  }

  function NamedCoverage(q: PlanData): map<RelationId, Coverage> {
    map r | r in q.history && r in q.mutations :: q.history[r]
  }

  lemma OverlayOnNothing(q: PlanData, empty: PlanData)
    requires empty == EmptyPlan(q.snapshot)
    ensures OverlayMutations(map[], q.mutations, q.mutations.Keys) == q.mutations
    ensures OverlayPatches(map[], q.objectPatches, q.objectPatches.Keys) == q.objectPatches
    ensures OverlayHistory(empty, q, q.mutations.Keys) == NamedCoverage(q)
    ensures map[] + q.contracts == q.contracts && map[] + q.owned == q.owned
  {
    forall r | r in q.mutations ensures Concat(NO_ROWS, q.mutations[r]) == q.mutations[r] {
      ConcatAssociative(q.mutations[r], NO_ROWS, NO_ROWS);
    }
  }

  lemma OverlayActionsOnNothing(q: PlanData, empty: PlanData)
    requires Anchored(q) && empty == EmptyPlan(q.snapshot)
    ensures OverlayActions(empty, q, q.mutations.Keys) == q.actions
  {
    hide OverlayActions;
    forall slot: Slot
      ensures slot in OverlayActions(empty, q, q.mutations.Keys) <==> slot in q.actions
      ensures slot in q.actions ==> OverlayActions(empty, q, q.mutations.Keys)[slot] == q.actions[slot]
    {
      OverlayActionsAt(empty, q, q.mutations.Keys, slot);
      assert slot.(index := slot.index - 0) == slot;
    }
  }

  lemma EmptyThen(q: PlanData)
    requires Anchored(q)
    ensures Compose(EmptyPlan(q.snapshot), q) == Ok(q.(history := NamedCoverage(q)))
  {
    hide Compose, OverlayMutations, OverlayPatches, OverlayHistory, OverlayActions, Anchored;
    var empty := EmptyPlan(q.snapshot);
    SucceedsIff(empty, q);
    ComposeJoins(empty, q);
    OverlayOnNothing(q, empty);
    OverlayActionsOnNothing(q, empty);
  }

  /** Composition drops coverage of a relation the second plan does not mutate, so the empty plan is a left
      unit exactly for plans without such coverage. */
  lemma EmptyIsLeftUnitIff(q: PlanData)
    requires Anchored(q)
    ensures Compose(EmptyPlan(q.snapshot), q) == Ok(q) <==> CoverageNamed(q)
  {
    hide Compose;
    EmptyThen(q);
    var kept := NamedCoverage(q);
    if CoverageNamed(q) {
      assert kept == q.history;
      assert q.(history := kept) == q;
    } else {
      var r :| r in q.history && r !in q.mutations;
      assert r !in kept;
    }
  }

  /** Coverage of an unmutated relation survives in one grouping only, once a later plan mutates it. */
  lemma UnnamedCoverageSplits(q: PlanData, r: RelationId, row: Row)
    requires Anchored(q) && r in q.history && r !in q.mutations
    ensures !GroupingsAgree(EmptyPlan(q.snapshot), q, AddRow(EmptyPlan(q.snapshot), r, Inserting, row, None))
  {
    hide Compose, OverlayActions, OverlayMutations, OverlayPatches, Anchored, NamedCoverage;
    var p := EmptyPlan(q.snapshot);
    var s := AddRow(p, r, Inserting, row, None);
    EmptyThen(q);
    NamedOnly(q, r);
    var pq := q.(history := NamedCoverage(q));
    SucceedsIff(pq, s);
    SucceedsIff(q, s);
    ComposedParts(pq, s);
    ComposedParts(q, s);
    var qs := Compose(q, s).value;
    SucceedsIff(p, qs);
    ComposedParts(p, qs);
    OverlayMutationsAt(q.mutations, s.mutations, r);
    assert r !in Compose(pq, s).value.history;
    assert r in Compose(p, qs).value.history;
  }

  lemma NamedOnly(q: PlanData, r: RelationId)
    ensures r in NamedCoverage(q) <==> r in q.history && r in q.mutations
  {
  }

  /** A plan can be the middle of every composition, whichever way it is grouped, exactly when its coverage
      names only relations it mutates. */
  lemma AssociativeIff(q: PlanData)
    requires WellBuilt(q)
    ensures CoverageNamed(q) <==> forall p, s | WellBuilt(p) && WellBuilt(s) :: GroupingsAgree(p, q, s)
  {
    hide GroupingsAgree, Anchored;
    if CoverageNamed(q) {
      forall p, s | WellBuilt(p) && WellBuilt(s) ensures GroupingsAgree(p, q, s) {
        Associative(p, q, s);
      }
    } else {
      var r :| r in q.history && r !in q.mutations;
      var p := EmptyPlan(q.snapshot);
      var s := AddRow(p, r, Inserting, [], None);
      StartFaithful(q.snapshot);
      AddRowAnchored(p, r, Inserting, [], None);
      UnnamedCoverageSplits(q, r, []);
      assert WellBuilt(p) && WellBuilt(s);
    }
  }
}
