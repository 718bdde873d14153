/** Complexity limits on what a remote client may send, checked with explicit stacks and saturating counters. */
module ProtocolLimits {
  import opened Wrappers

  const USIZE_MAX: nat := 0xFFFF_FFFF_FFFF_FFFF

  datatype Limits = Limits(
    maxQueryNodes: nat,
    maxQueryDepth: nat,
    maxMutations: nat,
    maxRowsPerCommit: nat,
    maxRowWidth: nat,
    maxValueNodes: nat)

  datatype Value =
    | Unit
    | Bool(b: bool)
    | I64(n: int)
    | F64Bits(bits: nat)
    | Text(text: string)
    | LiveEntityRef(entityType: nat, entity: nat)
    | HistoricalEntityRef(entityType: nat, entity: nat)
    | Product(fields: seq<Field>)
    | OptionNone
    | OptionSome(inner: Value)
    | Variant(tag: nat, inner: Value)
    | Seq(elements: seq<Value>)
    | Set(equivalence: nat, elements: seq<Value>)
    | Bag(equivalence: nat, counted: seq<Counted>)
    | Map(keyEquivalence: nat, entries: seq<Entry>)

  datatype Field = Field(id: nat, value: Value)

  datatype Counted = Counted(value: Value, count: nat)

  datatype Entry = Entry(key: Value, value: Value)

  datatype Query =
    | Scan(relation: nat)
    | FilterEq(input: Query, column: nat, value: Value, equivalence: nat)
    | Project(input: Query, columns: seq<nat>)
    | JoinEq(left: Query, right: Query, leftColumn: nat, rightColumn: nat, equivalence: nat)
    | Difference(left: Query, right: Query)
    | AntiJoin(left: Query, right: Query, leftColumn: nat, rightColumn: nat, equivalence: nat)
    | GroupCount(input: Query, groupColumn: nat, groupEquivalence: nat, resultEquivalence: nat)
    | Distinct(input: Query, columnEquivalences: seq<nat>)
    | TopKWithTies(input: Query, column: nat, ordering: nat, ascending: bool, k: nat)

  type Row = seq<Value>

  datatype Mutation = Mutation(relation: nat, inserted: seq<Row>, removed: seq<Row>)

  datatype ProtocolError = InvalidRequest | ResourceLimit

  function SaturatingAdd(a: nat, b: nat): nat {
    if a + b <= USIZE_MAX then a + b else USIZE_MAX
  }

  function SaturatingSub(a: nat, b: nat): nat {
    if a >= b then a - b else 0
  }

  // ----- Sizes, by recursion -----

  function Size(v: Value): (n: nat)
    ensures n > 0
  {
    match v
    case Product(fields) => 1 + SizeFields(fields)
    case OptionSome(inner) => 1 + Size(inner)
    case Variant(_, inner) => 1 + Size(inner)
    case Seq(elements) => 1 + SizeAll(elements)
    case Set(_, elements) => 1 + SizeAll(elements)
    case Bag(_, counted) => 1 + SizeCounted(counted)
    case Map(_, entries) => 1 + SizeEntries(entries)
    case _ => 1
  }

  function SizeAll(vs: seq<Value>): nat {
    if vs == [] then 0 else SizeAll(vs[..|vs| - 1]) + Size(vs[|vs| - 1])
  }

  function SizeFields(fs: seq<Field>): nat {
    if fs == [] then 0 else SizeFields(fs[..|fs| - 1]) + SizeField(fs[|fs| - 1])
  }

  function SizeCounted(cs: seq<Counted>): nat {
    if cs == [] then 0 else SizeCounted(cs[..|cs| - 1]) + SizeOne(cs[|cs| - 1])
  }

  function SizeEntries(es: seq<Entry>): nat {
    if es == [] then 0 else SizeEntries(es[..|es| - 1]) + SizeEntry(es[|es| - 1])
  }

  function SizeField(f: Field): nat {
    Size(f.value)
  }

  function SizeOne(c: Counted): nat {
    Size(c.value)
  }

  function SizeEntry(e: Entry): nat {
    Size(e.key) + Size(e.value)
  }

  function NodeCount(q: Query): (n: nat)
    ensures n > 0
  {
    match q
    case Scan(_) => 1
    case FilterEq(input, _, _, _) => 1 + NodeCount(input)
    case Project(input, _) => 1 + NodeCount(input)
    case GroupCount(input, _, _, _) => 1 + NodeCount(input)
    case Distinct(input, _) => 1 + NodeCount(input)
    case TopKWithTies(input, _, _, _, _) => 1 + NodeCount(input)
    case JoinEq(left, right, _, _, _) => 1 + NodeCount(left) + NodeCount(right)
    case Difference(left, right) => 1 + NodeCount(left) + NodeCount(right)
    case AntiJoin(left, right, _, _, _) => 1 + NodeCount(left) + NodeCount(right)
  }

  function Max(a: nat, b: nat): nat {
    if a >= b then a else b
  }

  function Depth(q: Query): (n: nat)
    ensures n > 0
  {
    match q
    case Scan(_) => 1
    case FilterEq(input, _, _, _) => 1 + Depth(input)
    case Project(input, _) => 1 + Depth(input)
    case GroupCount(input, _, _, _) => 1 + Depth(input)
    case Distinct(input, _) => 1 + Depth(input)
    case TopKWithTies(input, _, _, _, _) => 1 + Depth(input)
    case JoinEq(left, right, _, _, _) => 1 + Max(Depth(left), Depth(right))
    case Difference(left, right) => 1 + Max(Depth(left), Depth(right))
    case AntiJoin(left, right, _, _, _) => 1 + Max(Depth(left), Depth(right))
  }

  /** Size of all constants in the query. */
  function Constants(q: Query): nat {
    match q
    case Scan(_) => 0
    case FilterEq(input, _, value, _) => Size(value) + Constants(input)
    case Project(input, _) => Constants(input)
    case GroupCount(input, _, _, _) => Constants(input)
    case Distinct(input, _) => Constants(input)
    case TopKWithTies(input, _, _, _, _) => Constants(input)
    case JoinEq(left, right, _, _, _) => Constants(left) + Constants(right)
    case Difference(left, right) => Constants(left) + Constants(right)
    case AntiJoin(left, right, _, _, _) => Constants(left) + Constants(right)
  }

  // ----- Values -----

  function FieldValues(fs: seq<Field>): seq<Value> {
    if fs == [] then [] else FieldValues(fs[..|fs| - 1]) + [fs[|fs| - 1].value]
  }

  function CountedValues(cs: seq<Counted>): seq<Value> {
    if cs == [] then [] else CountedValues(cs[..|cs| - 1]) + [cs[|cs| - 1].value]
  }

  function EntryValues(es: seq<Entry>): seq<Value> {
    if es == [] then [] else EntryValues(es[..|es| - 1]) + [es[|es| - 1].key, es[|es| - 1].value]
  }

  /** What the walk pushes for a value. */
  function Children(v: Value): seq<Value> {
    match v
    case Product(fields) => FieldValues(fields)
    case OptionSome(inner) => [inner]
    case Variant(_, inner) => [inner]
    case Seq(elements) => elements
    case Set(_, elements) => elements
    case Bag(_, counted) => CountedValues(counted)
    case Map(_, entries) => EntryValues(entries)
    case _ => []
  }

  lemma {:induction false} SizeAllAppend(a: seq<Value>, b: seq<Value>)
    ensures SizeAll(a + b) == SizeAll(a) + SizeAll(b)
  {
    if b == [] {
      assert a + b == a;
    } else {
      var n := |b| - 1;
      SizeAllAppend(a, b[..n]);
      assert (a + b)[..|a + b| - 1] == a + b[..n];
    }
  }

  lemma {:induction false} FieldValuesSize(fs: seq<Field>)
    ensures SizeAll(FieldValues(fs)) == SizeFields(fs)
  {
    if fs != [] {
      FieldValuesSize(fs[..|fs| - 1]);
      SizeAllAppend(FieldValues(fs[..|fs| - 1]), [fs[|fs| - 1].value]);
    }
  }

  lemma {:induction false} CountedValuesSize(cs: seq<Counted>)
    ensures SizeAll(CountedValues(cs)) == SizeCounted(cs)
  {
    if cs != [] {
      CountedValuesSize(cs[..|cs| - 1]);
      SizeAllAppend(CountedValues(cs[..|cs| - 1]), [cs[|cs| - 1].value]);
    }
  }

  lemma {:induction false} EntryValuesSize(es: seq<Entry>)
    ensures SizeAll(EntryValues(es)) == SizeEntries(es)
  {
    if es != [] {
      var last := es[|es| - 1];
      EntryValuesSize(es[..|es| - 1]);
      SizeAllAppend(EntryValues(es[..|es| - 1]), [last.key, last.value]);
      SizeAllAppend([last.key], [last.value]);
      assert [last.key, last.value] == [last.key] + [last.value];
    }
  }

  lemma ChildrenSize(v: Value)
    ensures Size(v) == 1 + SizeAll(Children(v))
  {
    match v
    case Product(fields) => FieldValuesSize(fields);
    case Bag(_, counted) => CountedValuesSize(counted);
    case Map(_, entries) => EntryValuesSize(entries);
    case _ =>
  }

  /** Walks the value with a stack and stops as soon as the budget is exceeded. */
  method CountValueNodes(value: Value, remaining: nat) returns (r: Result<nat, ProtocolError>)
    requires Size(value) <= USIZE_MAX
    ensures r == if Size(value) <= remaining then Ok(Size(value)) else Err(ResourceLimit)
  {
    hide Size, Children;
    var stack := [value];
    var count := 0;
    assert SizeAll([value]) == Size(value);
    while stack != []
      invariant count + SizeAll(stack) == Size(value) && count <= remaining
      decreases SizeAll(stack)
    {
      var top := stack[|stack| - 1];
      ChildrenSize(top);
      SizeAllAppend(stack[..|stack| - 1], Children(top));
      stack := stack[..|stack| - 1];
      count := SaturatingAdd(count, 1);
      if count > remaining { return Err(ResourceLimit); }
      stack := stack + Children(top);
    }
    r := Ok(count);
  }

  // ----- Queries -----

  datatype Frame = Frame(query: Query, depth: nat)

  function Nodes(stack: seq<Frame>): nat {
    if stack == [] then 0 else Nodes(stack[..|stack| - 1]) + NodeCount(stack[|stack| - 1].query)
  }

  function ConstantsOf(stack: seq<Frame>): nat {
    if stack == [] then 0 else ConstantsOf(stack[..|stack| - 1]) + Constants(stack[|stack| - 1].query)
  }

  /** Everything below the stacked queries stays within the depth. */
  predicate Shallow(stack: seq<Frame>, max: nat) {
    stack == [] || (Shallow(stack[..|stack| - 1], max) && ShallowFrame(stack[|stack| - 1], max))
  }

  predicate ShallowFrame(f: Frame, max: nat) {
    f.depth + Depth(f.query) - 1 <= max
  }

  function Inputs(q: Query, depth: nat): seq<Frame> {
    match q
    case Scan(_) => []
    case FilterEq(input, _, _, _) => [Frame(input, depth)]
    case Project(input, _) => [Frame(input, depth)]
    case GroupCount(input, _, _, _) => [Frame(input, depth)]
    case Distinct(input, _) => [Frame(input, depth)]
    case TopKWithTies(input, _, _, _, _) => [Frame(input, depth)]
    case JoinEq(left, right, _, _, _) => [Frame(left, depth), Frame(right, depth)]
    case Difference(left, right) => [Frame(left, depth), Frame(right, depth)]
    case AntiJoin(left, right, _, _, _) => [Frame(left, depth), Frame(right, depth)]
  }

  function OwnConstants(q: Query): nat {
    if q.FilterEq? then Size(q.value) else 0
  }

  lemma Pushed(stack: seq<Frame>, f: Frame, max: nat)
    ensures Nodes(stack + [f]) == Nodes(stack) + NodeCount(f.query)
    ensures ConstantsOf(stack + [f]) == ConstantsOf(stack) + Constants(f.query)
    ensures Shallow(stack + [f], max) <==> Shallow(stack, max) && ShallowFrame(f, max)
  {
    assert (stack + [f])[..|stack|] == stack;
  }

  /** Replacing a query on the stack by its inputs accounts for exactly its own node and constant. */
  lemma PushedInputs(stack: seq<Frame>, q: Query, depth: nat, max: nat)
    ensures Nodes(stack + Inputs(q, depth + 1)) + 1 == Nodes(stack) + NodeCount(q)
    ensures ConstantsOf(stack + Inputs(q, depth + 1)) + OwnConstants(q) == ConstantsOf(stack) + Constants(q)
    ensures depth <= max ==>
              (Shallow(stack + Inputs(q, depth + 1), max) <==> Shallow(stack, max) && ShallowFrame(Frame(q, depth), max))
  {
    hide Nodes, ConstantsOf, Shallow, Size;
    match q
    case Scan(_) => assert stack + [] == stack;
    case FilterEq(input, _, _, _) => Pushed(stack, Frame(input, depth + 1), max);
    case Project(input, _) => Pushed(stack, Frame(input, depth + 1), max);
    case GroupCount(input, _, _, _) => Pushed(stack, Frame(input, depth + 1), max);
    case Distinct(input, _) => Pushed(stack, Frame(input, depth + 1), max);
    case TopKWithTies(input, _, _, _, _) => Pushed(stack, Frame(input, depth + 1), max);
    case JoinEq(left, right, _, _, _) => PushedTwo(stack, left, right, depth + 1, max);
    case Difference(left, right) => PushedTwo(stack, left, right, depth + 1, max);
    case AntiJoin(left, right, _, _, _) => PushedTwo(stack, left, right, depth + 1, max);
  }

  lemma PushedTwo(stack: seq<Frame>, left: Query, right: Query, depth: nat, max: nat)
    ensures var pushed := stack + [Frame(left, depth), Frame(right, depth)];
            && Nodes(pushed) == Nodes(stack) + NodeCount(left) + NodeCount(right)
            && ConstantsOf(pushed) == ConstantsOf(stack) + Constants(left) + Constants(right)
            && (Shallow(pushed, max) <==>
                  Shallow(stack, max) && ShallowFrame(Frame(left, depth), max) && ShallowFrame(Frame(right, depth), max))
  {
    hide Nodes, ConstantsOf, Shallow;
    Pushed(stack, Frame(left, depth), max);
    Pushed(stack + [Frame(left, depth)], Frame(right, depth), max);
    assert stack + [Frame(left, depth)] + [Frame(right, depth)] == stack + [Frame(left, depth), Frame(right, depth)];
  }

  lemma Popped(stack: seq<Frame>, max: nat)
    requires stack != []
    ensures var rest, top := stack[..|stack| - 1], stack[|stack| - 1];
            && Nodes(stack) == Nodes(rest) + NodeCount(top.query)
            && ConstantsOf(stack) == ConstantsOf(rest) + Constants(top.query)
            && (Shallow(stack, max) <==> Shallow(rest, max) && ShallowFrame(top, max))
  {
  }

  lemma OwnWithin(q: Query)
    ensures OwnConstants(q) <= Constants(q)
  {
  }

  /** Accepts exactly when the query's nodes, its depth and the total size of its constants are within the
      limits; the shrinking budget for constants amounts to one bound on their sum. */
  method ValidateQuery(query: Query, limits: Limits) returns (error: Option<ProtocolError>)
    requires NodeCount(query) <= USIZE_MAX && Constants(query) <= USIZE_MAX
    ensures error == if NodeCount(query) <= limits.maxQueryNodes && Depth(query) <= limits.maxQueryDepth
                        && Constants(query) <= limits.maxValueNodes then None else Some(ResourceLimit)
  {
    hide Nodes, ConstantsOf, Shallow, NodeCount, Constants, Depth, Size, Inputs;
    var stack := [Frame(query, 1)];
    var nodes: nat, valueNodes: nat := 0, 0;
    StartStack(query, limits.maxQueryDepth);
    StartStack(query, Depth(query));
    while stack != []
      invariant nodes + Nodes(stack) == NodeCount(query) && nodes <= limits.maxQueryNodes
      invariant valueNodes + ConstantsOf(stack) == Constants(query) && valueNodes <= limits.maxValueNodes
      invariant Depth(query) <= limits.maxQueryDepth <==> Shallow(stack, limits.maxQueryDepth)
      invariant Shallow(stack, Depth(query))
      decreases Nodes(stack)
    {
      Popped(stack, limits.maxQueryDepth);
      Popped(stack, Depth(query));
      var top := stack[|stack| - 1];
      stack := stack[..|stack| - 1];
      var node, depth := top.query, top.depth;
      PushedInputs(stack, node, depth, limits.maxQueryDepth);
      PushedInputs(stack, node, depth, Depth(query));
      OwnWithin(node);
      nodes := SaturatingAdd(nodes, 1);
      if nodes > limits.maxQueryNodes || depth > limits.maxQueryDepth { return Some(ResourceLimit); }
      if node.FilterEq? {
        var counted := CountValueNodes(node.value, SaturatingSub(limits.maxValueNodes, valueNodes));
        if counted.Err? { return Some(counted.error); }
        valueNodes := SaturatingAdd(valueNodes, counted.value);
      }
      if !node.Scan? { NoOverflow(query, node, depth); }
      stack := stack + Inputs(node, depth + 1);
    }
    EmptyStack(limits.maxQueryDepth);
    error := None;
  }

  lemma {:induction false} DepthWithinNodes(q: Query)
    ensures Depth(q) <= NodeCount(q)
  {
    match q
    case Scan(_) =>
    case FilterEq(input, _, _, _) => DepthWithinNodes(input);
    case Project(input, _) => DepthWithinNodes(input);
    case GroupCount(input, _, _, _) => DepthWithinNodes(input);
    case Distinct(input, _) => DepthWithinNodes(input);
    case TopKWithTies(input, _, _, _, _) => DepthWithinNodes(input);
    case JoinEq(left, right, _, _, _) => DepthWithinNodes(left); DepthWithinNodes(right);
    case Difference(left, right) => DepthWithinNodes(left); DepthWithinNodes(right);
    case AntiJoin(left, right, _, _, _) => DepthWithinNodes(left); DepthWithinNodes(right);
  }

  /** Adding one to the depth never leaves the machine range. */
  lemma NoOverflow(query: Query, node: Query, depth: nat)
    requires NodeCount(query) <= USIZE_MAX && !node.Scan? && ShallowFrame(Frame(node, depth), Depth(query))
    ensures depth + 1 <= USIZE_MAX
  {
    DepthWithinNodes(query);
  }

  lemma StartStack(query: Query, max: nat)
    ensures Nodes([Frame(query, 1)]) == NodeCount(query) && ConstantsOf([Frame(query, 1)]) == Constants(query)
    ensures Shallow([Frame(query, 1)], max) <==> Depth(query) <= max
  {
    EmptyStack(max);
    Pushed([], Frame(query, 1), max);
    assert [] + [Frame(query, 1)] == [Frame(query, 1)];
  }

  lemma EmptyStack(max: nat)
    ensures Nodes([]) == 0 && ConstantsOf([]) == 0 && Shallow([], max)
  {
  }

  // ----- Commits -----

  function RowsIn(ms: seq<Mutation>): nat {
    if ms == [] then 0
    else RowsIn(ms[..|ms| - 1]) + |ms[|ms| - 1].inserted| + |ms[|ms| - 1].removed|
  }

  function RowSizes(rows: seq<Row>): nat {
    if rows == [] then 0 else RowSizes(rows[..|rows| - 1]) + SizeAll(rows[|rows| - 1])
  }

  function ValuesIn(ms: seq<Mutation>): nat {
    if ms == [] then 0
    else ValuesIn(ms[..|ms| - 1]) + RowSizes(ms[|ms| - 1].inserted + ms[|ms| - 1].removed)
  }

  predicate NarrowRows(rows: seq<Row>, width: nat) {
    forall row | row in rows :: |row| <= width
  }

  predicate Narrow(ms: seq<Mutation>, width: nat) {
    forall m | m in ms :: NarrowRows(m.inserted + m.removed, width)
  }

  lemma {:induction false} PrefixSize(vs: seq<Value>, n: nat)
    requires n <= |vs|
    ensures SizeAll(vs[..n]) <= SizeAll(vs)
  {
    if n < |vs| {
      PrefixSize(vs[..|vs| - 1], n);
      assert vs[..|vs| - 1][..n] == vs[..n];
    } else {
      assert vs[..n] == vs;
    }
  }

  lemma {:induction false} PrefixRowSizes(rows: seq<Row>, n: nat)
    requires n <= |rows|
    ensures RowSizes(rows[..n]) <= RowSizes(rows)
  {
    if n < |rows| {
      PrefixRowSizes(rows[..|rows| - 1], n);
      assert rows[..|rows| - 1][..n] == rows[..n];
    } else {
      assert rows[..n] == rows;
    }
  }

  lemma {:induction false} PrefixTotals(ms: seq<Mutation>, n: nat)
    requires n <= |ms|
    ensures RowsIn(ms[..n]) <= RowsIn(ms) && ValuesIn(ms[..n]) <= ValuesIn(ms)
  {
    if n < |ms| {
      PrefixTotals(ms[..|ms| - 1], n);
      assert ms[..|ms| - 1][..n] == ms[..n];
    } else {
      assert ms[..n] == ms;
    }
  }

  /** Adds the values of one row to the total; fails when the total would pass the limit. */
  method CheckRow(row: Row, before: nat, max: nat) returns (r: Result<nat, ProtocolError>)
    requires before <= max && before + SizeAll(row) <= USIZE_MAX
    ensures r == if before + SizeAll(row) <= max then Ok(before + SizeAll(row)) else Err(ResourceLimit)
  {
    var total := before;
    for i := 0 to |row|
      invariant total == before + SizeAll(row[..i]) && total <= max
    {
      assert row[..i + 1][..i] == row[..i];
      PrefixSize(row, i + 1);
      var counted := CountValueNodes(row[i], SaturatingSub(max, total));
      if counted.Err? { return counted; }
      total := SaturatingAdd(total, counted.value);
      if total > max { return Err(ResourceLimit); }
    }
    assert row[..|row|] == row;
    r := Ok(total);
  }

  method CheckRows(rows: seq<Row>, before: nat, width: nat, max: nat) returns (r: Result<nat, ProtocolError>)
    requires before <= max && before + RowSizes(rows) <= USIZE_MAX
    ensures r == if NarrowRows(rows, width) && before + RowSizes(rows) <= max then Ok(before + RowSizes(rows)) else Err(ResourceLimit)
  {
    hide SizeAll;
    var total := before;
    for i := 0 to |rows|
      invariant total == before + RowSizes(rows[..i]) && total <= max && NarrowRows(rows[..i], width)
    {
      assert rows[..i + 1][..i] == rows[..i] && rows[..i + 1] == rows[..i] + [rows[i]];
      PrefixRowSizes(rows, i + 1);
      if |rows[i]| > width { return Err(ResourceLimit); }
      var checked := CheckRow(rows[i], total, max);
      if checked.Err? { return checked; }
      total := checked.value;
    }
    assert rows[..|rows|] == rows;
    r := Ok(total);
  }

  lemma OneMoreMutation(ms: seq<Mutation>, i: nat, width: nat)
    requires i < |ms|
    ensures RowsIn(ms[..i + 1]) == RowsIn(ms[..i]) + |ms[i].inserted| + |ms[i].removed| <= RowsIn(ms)
    ensures ValuesIn(ms[..i + 1]) == ValuesIn(ms[..i]) + RowSizes(ms[i].inserted + ms[i].removed) <= ValuesIn(ms)
    ensures Narrow(ms[..i + 1], width) <==> Narrow(ms[..i], width) && NarrowRows(ms[i].inserted + ms[i].removed, width)
    ensures Narrow(ms, width) ==> NarrowRows(ms[i].inserted + ms[i].removed, width)
  {
    hide RowSizes, NarrowRows;
    assert ms[..i + 1][..i] == ms[..i] && ms[..i + 1] == ms[..i] + [ms[i]] && ms[i] in ms;
    PrefixTotals(ms, i + 1);
  }

  lemma NoMutation(ms: seq<Mutation>, width: nat)
    ensures RowsIn(ms[..0]) == 0 && ValuesIn(ms[..0]) == 0 && Narrow(ms[..0], width)
  {
  }

  /** Accepts exactly the non-empty commits whose mutations, rows, row widths and total value size are within
      the limits; only the empty commit is an invalid request. */
  method ValidateCommit(mutations: seq<Mutation>, limits: Limits) returns (error: Option<ProtocolError>)
    requires RowsIn(mutations) <= USIZE_MAX && ValuesIn(mutations) <= USIZE_MAX
    ensures error == Some(InvalidRequest) <==> mutations == []
    ensures error == None <==>
            && 0 < |mutations| <= limits.maxMutations && RowsIn(mutations) <= limits.maxRowsPerCommit
            && Narrow(mutations, limits.maxRowWidth) && ValuesIn(mutations) <= limits.maxValueNodes
  {
    hide RowSizes, NarrowRows, RowsIn, ValuesIn, Narrow;
    if mutations == [] { return Some(InvalidRequest); }
    if |mutations| > limits.maxMutations { return Some(ResourceLimit); }
    NoMutation(mutations, limits.maxRowWidth);
    var rows: nat, valueNodes: nat := 0, 0;
    for i := 0 to |mutations|
      invariant rows == RowsIn(mutations[..i]) && rows <= limits.maxRowsPerCommit
      invariant valueNodes == ValuesIn(mutations[..i]) && valueNodes <= limits.maxValueNodes
      invariant Narrow(mutations[..i], limits.maxRowWidth)
    {
      var m := mutations[i];
      OneMoreMutation(mutations, i, limits.maxRowWidth);
      rows := SaturatingAdd(SaturatingAdd(rows, |m.inserted|), |m.removed|);
      if rows > limits.maxRowsPerCommit { return Some(ResourceLimit); }
      var checked := CheckRows(m.inserted + m.removed, valueNodes, limits.maxRowWidth, limits.maxValueNodes);
      if checked.Err? { return Some(checked.error); }
      valueNodes := checked.value;
    }
    assert mutations[..|mutations|] == mutations;
    error := None;
  }
}
