/** The trace a query carries: one node for every constructor call that went into it. Queries are values, so a
    query can be cloned and joined with its own descendants. */
module QueryTrace {
  datatype Location = Location(file: string, line: nat, column: nat)

  datatype Kind =
    | Scan | FilterEq | FilterEqColumns | FilterOrder | Project | JoinEq | Difference | Union | AntiJoin
    | GroupCount | GroupExactF64Sum | Distinct | TopKWithTies

  datatype Node = Node(id: nat, kind: Kind, source: Location, parents: seq<nat>)

  datatype Trace = Trace(nodes: seq<Node>, root: nat)

  predicate HasId(nodes: seq<Node>, id: nat) {
    exists k | 0 <= k < |nodes| :: nodes[k].id == id
  }

  /** The nodes of `source` that are new, in order, behind those of `target`. */
  function Merged(target: seq<Node>, source: seq<Node>): seq<Node> {
    if source == [] then target
    else
      var before, last := Merged(target, source[..|source| - 1]), source[|source| - 1];
      if HasId(before, last.id) then before else before + [last]
  }

  function Appended(nodes: seq<Node>, node: Node): Trace {
    Trace(nodes + [node], node.id)
  }

  function ScanTrace(next: nat, source: Location): Trace {
    Appended([], Node(next, Scan, source, []))
  }

  function UnaryTrace(q: Trace, next: nat, kind: Kind, source: Location): Trace {
    Appended(q.nodes, Node(next, kind, source, [q.root]))
  }

  function BinaryTrace(left: Trace, right: Trace, next: nat, kind: Kind, source: Location): Trace {
    Appended(Merged(left.nodes, right.nodes), Node(next, kind, source, [left.root, right.root]))
  }

  // ----- Well-formed traces -----

  ghost predicate UniqueIds(nodes: seq<Node>) {
    forall i, j | 0 <= i < j < |nodes| :: nodes[i].id != nodes[j].id
  }

  /** Every parent stands earlier in the list. */
  ghost predicate ParentsFirst(nodes: seq<Node>) {
    forall k | 0 <= k < |nodes| :: ParentsIn(nodes[k], nodes[..k])
  }

  ghost predicate ParentsIn(node: Node, nodes: seq<Node>) {
    forall p | p in node.parents :: HasId(nodes, p)
  }

  ghost predicate Below(nodes: seq<Node>, next: nat) {
    forall k | 0 <= k < |nodes| :: nodes[k].id < next
  }

  ghost predicate WellFormed(q: Trace, next: nat) {
    && q.nodes != [] && q.nodes[|q.nodes| - 1].id == q.root
    && UniqueIds(q.nodes) && ParentsFirst(q.nodes) && Below(q.nodes, next)
  }

  /** An id means the same node in both. */
  ghost predicate Coherent(a: seq<Node>, b: seq<Node>) {
    forall i, j | 0 <= i < |a| && 0 <= j < |b| && a[i].id == b[j].id :: a[i] == b[j]
  }

  // ----- Merging -----

  lemma MergeOne(before: seq<Node>, last: Node, next: nat)
    requires UniqueIds(before) && ParentsFirst(before) && Below(before, next) && last.id < next && ParentsIn(last, before)
    ensures var after := if HasId(before, last.id) then before else before + [last];
            && UniqueIds(after) && ParentsFirst(after) && Below(after, next)
            && (forall id :: HasId(after, id) <==> HasId(before, id) || id == last.id)
  {
    var after := before + [last];
    if !HasId(before, last.id) {
      forall k | 0 <= k < |after| ensures ParentsIn(after[k], after[..k]) {
        if k < |before| {
          assert after[k] == before[k] && after[..k] == before[..k];
        } else {
          assert after[..k] == before;
        }
      }
      forall id ensures HasId(after, id) <==> HasId(before, id) || id == last.id {
        if k :| 0 <= k < |before| && before[k].id == id { assert after[k].id == id; }
        assert after[|before|].id == last.id;
      }
    }
  }

  lemma {:induction false} MergeKeepsOrder(target: seq<Node>, source: seq<Node>, next: nat)
    requires UniqueIds(target) && ParentsFirst(target) && Below(target, next)
    requires ParentsFirst(source) && Below(source, next)
    ensures var all := Merged(target, source);
            && UniqueIds(all) && ParentsFirst(all) && Below(all, next)
            && forall id :: HasId(all, id) <==> HasId(target, id) || HasId(source, id)
  {
    if source == [] {
    } else {
      hide HasId, UniqueIds, Below, ParentsIn;
      var n := |source| - 1;
      var last := source[n];
      PrefixOk(source, n, next);
      MergeKeepsOrder(target, source[..n], next);
      var before := Merged(target, source[..n]);
      ParentsCarry(last, source[..n], before);
      MergeOne(before, last, next);
      IdsOfLast(source);
    }
  }

  lemma PrefixOk(source: seq<Node>, n: nat, next: nat)
    requires n < |source| && ParentsFirst(source) && Below(source, next)
    ensures ParentsFirst(source[..n]) && Below(source[..n], next) && source[n].id < next && ParentsIn(source[n], source[..n])
  {
    hide ParentsIn;
    forall k | 0 <= k < n ensures ParentsIn(source[..n][k], source[..n][..k]) {
      assert source[..n][..k] == source[..k];
    }
  }

  lemma ParentsCarry(node: Node, a: seq<Node>, b: seq<Node>)
    requires ParentsIn(node, a) && forall id :: HasId(a, id) ==> HasId(b, id)
    ensures ParentsIn(node, b)
  {
    hide HasId;
  }

  lemma IdsOfLast(source: seq<Node>)
    requires source != []
    ensures forall id :: HasId(source, id) <==> HasId(source[..|source| - 1], id) || id == source[|source| - 1].id
  {
    var n := |source| - 1;
    forall id ensures HasId(source, id) <==> HasId(source[..n], id) || id == source[n].id {
      if k :| 0 <= k < |source| && source[k].id == id {
        if k < n { assert source[..n][k].id == id; }
      }
    }
  }

  /** Where ids mean the same nodes, dropping a repeated id drops nothing: all nodes of both sides are there. */
  lemma {:induction false} MergeLosesNothing(target: seq<Node>, source: seq<Node>, node: Node)
    requires Coherent(target, source) && Coherent(source, source)
    ensures node in Merged(target, source) <==> node in target || node in source
  {
    if source != [] {
      var n := |source| - 1;
      var last := source[n];
      assert source == source[..n] + [last];
      MergeLosesNothing(target, source[..n], node);
      MergeLosesNothing(target, source[..n], last);
      var before := Merged(target, source[..n]);
      if k :| 0 <= k < |before| && before[k].id == last.id {
        MergeLosesNothing(target, source[..n], before[k]);
        assert before[k] in before;
        assert before[k] == last;
      }
    }
  }

  // ----- One constructor call -----

  /** A chain of nodes, each the parent of the one before. */
  ghost predicate IsLineage(nodes: seq<Node>, chain: seq<Node>) {
    && (forall i | 0 <= i < |chain| :: chain[i] in nodes)
    && (forall i, j | 0 <= i && j == i + 1 < |chain| :: chain[j].id in chain[i].parents)
  }

  ghost predicate DescendsFrom(q: Trace, node: Node) {
    exists chain: seq<Node> :: |chain| > 0 && chain[0].id == q.root && chain[|chain| - 1] == node && IsLineage(q.nodes, chain)
  }

  /** Everything in the trace went into the query. */
  ghost predicate Connected(q: Trace) {
    forall node | node in q.nodes :: DescendsFrom(q, node)
  }

  lemma AppendedOk(nodes: seq<Node>, node: Node)
    requires UniqueIds(nodes) && ParentsFirst(nodes) && Below(nodes, node.id) && ParentsIn(node, nodes)
    ensures WellFormed(Appended(nodes, node), node.id + 1)
  {
    hide ParentsIn;
    var after := nodes + [node];
    forall k | 0 <= k < |after| ensures ParentsIn(after[k], after[..k]) {
      if k < |nodes| {
        assert after[..k] == nodes[..k];
      } else {
        assert after[..k] == nodes;
      }
    }
  }

  lemma RootIsHere(q: Trace, next: nat)
    requires WellFormed(q, next)
    ensures HasId(q.nodes, q.root)
  {
  }

  /** What descended from an operand descends from the new query. */
  lemma DescendsFurther(q: Trace, node: Node, nodes: seq<Node>, top: Node)
    requires DescendsFrom(q, node) && q.root in top.parents
    requires forall n | n in q.nodes :: n in nodes
    ensures DescendsFrom(Appended(nodes, top), node)
  {
    var chain: seq<Node> :| |chain| > 0 && chain[0].id == q.root && chain[|chain| - 1] == node && IsLineage(q.nodes, chain);
    var longer := [top] + chain;
    var all := nodes + [top];
    forall i, j | 0 <= i && j == i + 1 < |longer| ensures longer[j].id in longer[i].parents {
      if i > 0 {
        var i', j' := i - 1, j - 1;
        assert chain[j'].id in chain[i'].parents;
      }
    }
    assert forall i | 0 <= i < |longer| :: longer[i] in all;
    assert IsLineage(all, longer);
  }

  lemma TopDescends(nodes: seq<Node>, top: Node)
    ensures DescendsFrom(Appended(nodes, top), top)
  {
    assert IsLineage(nodes + [top], [top]);
  }

  lemma ScanOk(next: nat, source: Location)
    ensures WellFormed(ScanTrace(next, source), next + 1) && Connected(ScanTrace(next, source))
  {
    AppendedOk([], Node(next, Scan, source, []));
    TopDescends([], Node(next, Scan, source, []));
  }

  lemma UnaryOk(q: Trace, next: nat, kind: Kind, source: Location)
    requires WellFormed(q, next) && Connected(q)
    ensures WellFormed(UnaryTrace(q, next, kind, source), next + 1) && Connected(UnaryTrace(q, next, kind, source))
  {
    var top := Node(next, kind, source, [q.root]);
    RootIsHere(q, next);
    AppendedOk(q.nodes, top);
    hide DescendsFrom, WellFormed;
    forall node | node in q.nodes + [top] ensures DescendsFrom(Appended(q.nodes, top), node) {
      if node in q.nodes { DescendsFurther(q, node, q.nodes, top); } else { TopDescends(q.nodes, top); }
    }
  }

  lemma BinaryOk(left: Trace, right: Trace, next: nat, kind: Kind, source: Location)
    requires WellFormed(left, next) && WellFormed(right, next) && Connected(left) && Connected(right)
    requires Coherent(left.nodes, right.nodes) && Coherent(right.nodes, right.nodes)
    ensures WellFormed(BinaryTrace(left, right, next, kind, source), next + 1)
    ensures Connected(BinaryTrace(left, right, next, kind, source))
  {
    var top := Node(next, kind, source, [left.root, right.root]);
    var nodes := Merged(left.nodes, right.nodes);
    RootIsHere(left, next);
    RootIsHere(right, next);
    MergeKeepsOrder(left.nodes, right.nodes, next);
    hide HasId, Merged;
    AppendedOk(nodes, top);
    hide DescendsFrom, WellFormed, Coherent;
    forall node ensures node in nodes <==> node in left.nodes || node in right.nodes {
      MergeLosesNothing(left.nodes, right.nodes, node);
    }
    forall node | node in nodes + [top] ensures DescendsFrom(Appended(nodes, top), node) {
      if node in left.nodes {
        DescendsFurther(left, node, nodes, top);
      } else if node in right.nodes {
        DescendsFurther(right, node, nodes, top);
      } else {
        TopDescends(nodes, top);
      }
    }
  }

  // ----- Every sequence of constructor calls -----

  datatype Op =
    | MakeScan(source: Location)
    | MakeUnary(input: nat, kind: Kind, source: Location)
    | MakeBinary(left: nat, right: nat, kind: Kind, source: Location)

  /** All queries built so far, any of which may be used again, and the next node id. */
  datatype State = State(next: nat, queries: seq<Trace>)

  function Step(s: State, op: Op): State {
    match op
    case MakeScan(source) => State(s.next + 1, s.queries + [ScanTrace(s.next, source)])
    case MakeUnary(input, kind, source) =>
      if input < |s.queries|
      then State(s.next + 1, s.queries + [UnaryTrace(s.queries[input], s.next, kind, source)]) else s
    case MakeBinary(left, right, kind, source) =>
      if left < |s.queries| && right < |s.queries|
      then State(s.next + 1, s.queries + [BinaryTrace(s.queries[left], s.queries[right], s.next, kind, source)]) else s
  }

  function Run(ops: seq<Op>): State {
    if ops == [] then State(1, []) else Step(Run(ops[..|ops| - 1]), ops[|ops| - 1])
  }

  ghost predicate Sound(q: Trace, next: nat) {
    WellFormed(q, next) && Connected(q)
  }

  ghost predicate Inv(s: State) {
    && (forall i | 0 <= i < |s.queries| :: Sound(s.queries[i], s.next))
    && (forall i, j | 0 <= i < |s.queries| && 0 <= j < |s.queries| :: Coherent(s.queries[i].nodes, s.queries[j].nodes))
  }

  lemma SoundLater(q: Trace, next: nat)
    requires Sound(q, next)
    ensures Sound(q, next + 1)
  {
    hide Connected;
  }

  /** Nodes known before, plus one with a new id, agree with everything known before. */
  lemma CoherentWith(q: Trace, known: seq<Node>, next: nat, nodes: seq<Node>, top: Node)
    requires Coherent(nodes, known) && Below(known, next) && Below(nodes, next) && top.id == next && q == Appended(nodes, top)
    requires Coherent(nodes, nodes)
    ensures Coherent(q.nodes, known) && Coherent(known, q.nodes) && Coherent(q.nodes, q.nodes)
  {
  }

  lemma CoherentMerge(left: seq<Node>, right: seq<Node>, known: seq<Node>)
    requires Coherent(left, right) && Coherent(right, right) && Coherent(left, known) && Coherent(right, known)
    ensures Coherent(Merged(left, right), known)
  {
    var all := Merged(left, right);
    forall i, j | 0 <= i < |all| && 0 <= j < |known| && all[i].id == known[j].id ensures all[i] == known[j] {
      MergeLosesNothing(left, right, all[i]);
      assert all[i] in all;
    }
  }

  lemma AddQuery(s: State, q: Trace, nodes: seq<Node>, top: Node)
    requires Inv(s) && Sound(q, s.next + 1) && q == Appended(nodes, top) && top.id == s.next && Below(nodes, s.next)
    requires Coherent(nodes, nodes) && forall i | 0 <= i < |s.queries| :: Coherent(nodes, s.queries[i].nodes)
    ensures Inv(State(s.next + 1, s.queries + [q]))
  {
    hide Coherent, Connected, UniqueIds, ParentsFirst, Below;
    var all := s.queries + [q];
    forall i | 0 <= i < |all| ensures Sound(all[i], s.next + 1) {
      if i < |s.queries| { SoundLater(s.queries[i], s.next); }
    }
    forall i | 0 <= i < |s.queries| ensures Coherent(q.nodes, s.queries[i].nodes) && Coherent(s.queries[i].nodes, q.nodes) {
      assert Sound(s.queries[i], s.next);
      CoherentWith(q, s.queries[i].nodes, s.next, nodes, top);
    }
    EmptyCoherent(nodes, s.next);
    CoherentWith(q, [], s.next, nodes, top);
  }

  lemma EmptyCoherent(nodes: seq<Node>, next: nat)
    ensures Coherent(nodes, []) && Below([], next)
  {
  }

  lemma StepKeepsInv(s: State, op: Op)
    requires Inv(s)
    ensures Inv(Step(s, op))
  {
    match op
    case MakeScan(source) =>
      hide Connected, WellFormed;
      ScanOk(s.next, source);
      AddQuery(s, ScanTrace(s.next, source), [], Node(s.next, Scan, source, []));
    case MakeUnary(input, kind, source) =>
      if input < |s.queries| { UnaryKeepsInv(s, input, kind, source); }
    case MakeBinary(left, right, kind, source) =>
      if left < |s.queries| && right < |s.queries| { BinaryKeepsInv(s, left, right, kind, source); }
  }

  lemma UnaryKeepsInv(s: State, input: nat, kind: Kind, source: Location)
    requires Inv(s) && input < |s.queries|
    ensures Inv(Step(s, MakeUnary(input, kind, source)))
  {
    hide Connected, Coherent, UniqueIds, ParentsFirst, Below;
    var q := s.queries[input];
    assert Sound(q, s.next);
    UnaryOk(q, s.next, kind, source);
    AddQuery(s, UnaryTrace(q, s.next, kind, source), q.nodes, Node(s.next, kind, source, [q.root]));
  }

  lemma BinaryKeepsInv(s: State, left: nat, right: nat, kind: Kind, source: Location)
    requires Inv(s) && left < |s.queries| && right < |s.queries|
    ensures Inv(Step(s, MakeBinary(left, right, kind, source)))
  {
    hide Connected, Coherent, UniqueIds, ParentsFirst, Below, Merged;
    var l, r := s.queries[left], s.queries[right];
    assert Sound(l, s.next) && Sound(r, s.next);
    BinaryOk(l, r, s.next, kind, source);
    MergeKeepsOrder(l.nodes, r.nodes, s.next);
    var nodes := Merged(l.nodes, r.nodes);
    forall i | 0 <= i < |s.queries| ensures Coherent(nodes, s.queries[i].nodes) {
      CoherentMerge(l.nodes, r.nodes, s.queries[i].nodes);
    }
    CoherentMergeSelf(l.nodes, r.nodes);
    AddQuery(s, BinaryTrace(l, r, s.next, kind, source), nodes, Node(s.next, kind, source, [l.root, r.root]));
  }

  lemma CoherentMergeSelf(left: seq<Node>, right: seq<Node>)
    requires Coherent(left, right) && Coherent(right, left) && Coherent(left, left) && Coherent(right, right)
    ensures Coherent(Merged(left, right), Merged(left, right))
  {
    var all := Merged(left, right);
    forall i, j | 0 <= i < |all| && 0 <= j < |all| && all[i].id == all[j].id ensures all[i] == all[j] {
      MergeLosesNothing(left, right, all[i]);
      MergeLosesNothing(left, right, all[j]);
      assert all[i] in all && all[j] in all;
    }
  }

  lemma {:induction false} RunInv(ops: seq<Op>)
    ensures Inv(Run(ops))
  {
    if ops != [] {
      hide Inv, Step;
      RunInv(ops[..|ops| - 1]);
      StepKeepsInv(Run(ops[..|ops| - 1]), ops[|ops| - 1]);
    }
  }

  /** Every query ever built: ids are unique, parents come before their children, the last node is the root,
      every node went into the query, and the reported source is the root's. */
  lemma EveryTrace(ops: seq<Op>, i: nat)
    requires i < |Run(ops).queries|
    ensures var q := Run(ops).queries[i];
            && UniqueIds(q.nodes) && ParentsFirst(q.nodes) && Connected(q)
            && q.nodes != [] && q.nodes[|q.nodes| - 1].id == q.root
            && (forall node | node in q.nodes && node.id == q.root :: q.nodes[|q.nodes| - 1].source == node.source)
  {
    hide Connected, Run;
    RunInv(ops);
    assert Sound(Run(ops).queries[i], Run(ops).next);
  }

  // ----- What a trace tells -----

  /** A query as the calls that made it: the operator, where it was called, and what it was called on, left first. */
  datatype Built = Built(kind: Kind, source: Location, operands: seq<Built>)

  function StepBuilt(built: seq<Built>, op: Op): seq<Built> {
    match op
    case MakeScan(source) => built + [Built(Scan, source, [])]
    case MakeUnary(input, kind, source) =>
      if input < |built| then built + [Built(kind, source, [built[input]])] else built
    case MakeBinary(left, right, kind, source) =>
      if left < |built| && right < |built| then built + [Built(kind, source, [built[left], built[right]])] else built
  }

  function AllBuilt(ops: seq<Op>): seq<Built> {
    if ops == [] then [] else StepBuilt(AllBuilt(ops[..|ops| - 1]), ops[|ops| - 1])
  }

  /** The node with this id, and those its parents name in turn, are the calls of `b`. */
  ghost predicate Tells(nodes: seq<Node>, id: nat, b: Built)
    decreases b
  {
    exists node :: node in nodes && node.id == id && NodeTells(nodes, node, b)
  }

  ghost predicate NodeTells(nodes: seq<Node>, node: Node, b: Built)
    decreases b, 0
  {
    && node.kind == b.kind && node.source == b.source && |node.parents| == |b.operands|
    && forall k | 0 <= k < |b.operands| :: Tells(nodes, node.parents[k], b.operands[k])
  }

  lemma {:induction false} TellsMore(nodes: seq<Node>, more: seq<Node>, id: nat, b: Built)
    requires Tells(nodes, id, b) && forall n | n in nodes :: n in more
    ensures Tells(more, id, b)
    decreases b
  {
    var node :| node in nodes && node.id == id && NodeTells(nodes, node, b);
    forall k | 0 <= k < |b.operands| ensures Tells(more, node.parents[k], b.operands[k]) {
      TellsMore(nodes, more, node.parents[k], b.operands[k]);
    }
    assert NodeTells(more, node, b);
  }

  lemma TopTells(nodes: seq<Node>, top: Node, b: Built)
    requires top.kind == b.kind && top.source == b.source && |top.parents| == |b.operands|
    requires forall k | 0 <= k < |b.operands| :: Tells(nodes, top.parents[k], b.operands[k])
    ensures Tells(nodes + [top], top.id, b)
  {
    var all := nodes + [top];
    forall k | 0 <= k < |b.operands| ensures Tells(all, top.parents[k], b.operands[k]) {
      TellsMore(nodes, all, top.parents[k], b.operands[k]);
    }
    assert NodeTells(all, top, b) && top in all;
  }

  ghost predicate AllTell(queries: seq<Trace>, built: seq<Built>) {
    |built| == |queries| && forall i | 0 <= i < |queries| :: Tells(queries[i].nodes, queries[i].root, built[i])
  }

  lemma StepTells(s: State, built: seq<Built>, op: Op)
    requires Inv(s) && AllTell(s.queries, built)
    ensures AllTell(Step(s, op).queries, StepBuilt(built, op))
  {
    hide Tells, NodeTells, Sound, Coherent, Merged;
    match op
    case MakeScan(source) =>
      TopTells([], Node(s.next, Scan, source, []), Built(Scan, source, []));
    case MakeUnary(input, kind, source) =>
      if input < |s.queries| {
        var q := s.queries[input];
        TopTells(q.nodes, Node(s.next, kind, source, [q.root]), Built(kind, source, [built[input]]));
      }
    case MakeBinary(left, right, kind, source) =>
      if left < |s.queries| && right < |s.queries| {
        var l, r := s.queries[left], s.queries[right];
        var nodes := Merged(l.nodes, r.nodes);
        forall n | n in l.nodes || n in r.nodes ensures n in nodes { MergeLosesNothing(l.nodes, r.nodes, n); }
        TellsMore(l.nodes, nodes, l.root, built[left]);
        TellsMore(r.nodes, nodes, r.root, built[right]);
        TopTells(nodes, Node(s.next, kind, source, [l.root, r.root]), Built(kind, source, [built[left], built[right]]));
      }
  }

  /** Every query ever built: its trace, read from the root along the parents, tells exactly the constructor calls that
      made it, with their locations and their operands in order. */
  lemma {:induction false} EveryTraceTells(ops: seq<Op>)
    ensures AllTell(Run(ops).queries, AllBuilt(ops))
  {
    if ops != [] {
      hide Inv, Step, StepBuilt, AllTell;
      var n := |ops| - 1;
      EveryTraceTells(ops[..n]);
      RunInv(ops[..n]);
      StepTells(Run(ops[..n]), AllBuilt(ops[..n]), ops[n]);
    }
  }

  /** And nothing else: ids are unique, so a trace tells one story. */
  lemma {:induction false} TellsOnce(nodes: seq<Node>, id: nat, a: Built, b: Built)
    requires UniqueIds(nodes) && Tells(nodes, id, a) && Tells(nodes, id, b)
    ensures a == b
    decreases a
  {
    var x :| x in nodes && x.id == id && NodeTells(nodes, x, a);
    var y :| y in nodes && y.id == id && NodeTells(nodes, y, b);
    assert x == y;
    forall k | 0 <= k < |a.operands| ensures a.operands[k] == b.operands[k] {
      TellsOnce(nodes, x.parents[k], a.operands[k], b.operands[k]);
    }
    assert a.operands == b.operands;
  }

  // ----- The constructors -----

  method MergeNodes(target: seq<Node>, source: seq<Node>) returns (merged: seq<Node>)
    ensures merged == Merged(target, source)
  {
    merged := target;
    for i := 0 to |source|
      invariant merged == Merged(target, source[..i])
    {
      assert source[..i + 1][..i] == source[..i];
      if !HasId(merged, source[i].id) {
        merged := merged + [source[i]];
      }
    }
    assert source[..|source|] == source;
  }

  /** The process-wide counter from which every constructor takes its node id. */
  class NodeIds {
    var next: nat

    constructor ()
      ensures next == 1
    {
      next := 1;
    }

    method NextNode(kind: Kind, source: Location, parents: seq<nat>) returns (node: Node)
      modifies this
      ensures node == Node(old(next), kind, source, parents) && next == old(next) + 1
    {
      node := Node(next, kind, source, parents);
      next := next + 1;
    }

    method ScanQuery(source: Location) returns (q: Trace)
      modifies this
      ensures q == ScanTrace(old(next), source) && next == old(next) + 1
    {
      var node := NextNode(Scan, source, []);
      q := Trace([node], node.id);
    }

    method UnaryQuery(input: Trace, kind: Kind, source: Location) returns (q: Trace)
      modifies this
      ensures q == UnaryTrace(input, old(next), kind, source) && next == old(next) + 1
    {
      var node := NextNode(kind, source, [input.root]);
      q := Trace(input.nodes + [node], node.id);
    }

    method BinaryQuery(left: Trace, right: Trace, kind: Kind, source: Location) returns (q: Trace)
      modifies this
      ensures q == BinaryTrace(left, right, old(next), kind, source) && next == old(next) + 1
    {
      var nodes := MergeNodes(left.nodes, right.nodes);
      var node := NextNode(kind, source, [left.root, right.root]);
      q := Trace(nodes + [node], node.id);
    }
  }
}
