/** Causal ordering of history entries: Kahn's algorithm taking the least ready id first. */
module HistoryOrder {
  import opened Wrappers

  type EffectId = nat

  /** A history entry; `payload` stands for the fields the ordering does not look at. */
  datatype Entry = Entry(id: EffectId, prerequisites: seq<EffectId>, payload: nat)

  type Graph = map<EffectId, Entry>

  datatype OrderError = Inconsistent | Cycle

  /** Entries by id; of several entries with one id the last is kept. */
  function ById(entries: seq<Entry>): Graph {
    if entries == [] then map[]
    else ById(entries[..|entries| - 1])[entries[|entries| - 1].id := entries[|entries| - 1]]
  }

  /** Number of prerequisites, with multiplicity, that are in the set and not yet done. */
  function CountOpen(prerequisites: seq<EffectId>, ids: set<EffectId>, done: set<EffectId>): nat {
    if prerequisites == [] then 0
    else
      var last := prerequisites[|prerequisites| - 1];
      CountOpen(prerequisites[..|prerequisites| - 1], ids, done) + if last in ids && last !in done then 1 else 0
  }

  /** The prerequisites of `id` that are in the set are all done; the others do not matter. */
  predicate Satisfied(g: Graph, done: set<EffectId>, id: EffectId)
    requires id in g
  {
    forall p | p in g[id].prerequisites && p in g :: p in done
  }

  predicate Ready(g: Graph, done: set<EffectId>, id: EffectId) {
    id in g && id !in done && Satisfied(g, done, id)
  }

  function ReadySet(g: Graph, done: set<EffectId>): set<EffectId> {
    set id | id in g && Ready(g, done, id)
  }

  ghost predicate IsLeast(s: set<EffectId>, m: EffectId) {
    m in s && forall x | x in s :: m <= x
  }

  lemma {:induction false} LeastExists(s: set<EffectId>)
    requires s != {}
    ensures exists m :: IsLeast(s, m)
    decreases s
  {
    var x :| x in s;
    if s - {x} == {} {
      assert s == {x};
      assert IsLeast(s, x);
    } else {
      LeastExists(s - {x});
      var n :| IsLeast(s - {x}, n);
      assert forall y | y in s :: y == x || y in s - {x};
      assert IsLeast(s, if n < x then n else x);
    }
  }

  ghost function Least(s: set<EffectId>): (m: EffectId)
    requires s != {}
    ensures IsLeast(s, m)
  {
    LeastExists(s);
    var m :| IsLeast(s, m);
    m
  }

  // ----- The order itself -----

  /** Repeatedly the least id whose in-set prerequisites are all done, until none is ready. */
  ghost function LeastReadyOrder(g: Graph, done: set<EffectId>): seq<EffectId>
    decreases |g.Keys - done|
  {
    if ReadySet(g, done) == {} then []
    else
      var m := Least(ReadySet(g, done));
      assert g.Keys - (done + {m}) < g.Keys - done by { assert m in g.Keys - done; }
      SmallerSet(g.Keys - (done + {m}), g.Keys - done);
      [m] + LeastReadyOrder(g, done + {m})
  }

  lemma SmallerSet<T>(a: set<T>, b: set<T>)
    requires a < b
    ensures |a| < |b|
  {
    var x :| x in b && x !in a;
    assert b == a + (b - a);
    assert |b - a| > 0 by { assert x in b - a; }
  }

  function SetOf(s: seq<EffectId>): set<EffectId> {
    set x | x in s
  }

  ghost predicate NoDuplicates(s: seq<EffectId>) {
    forall i, j | 0 <= i < j < |s| :: s[i] != s[j]
  }

  /** Everything ordered before position `i`, together with `done`, satisfies `order[i]`. */
  ghost predicate PrerequisitesFirst(g: Graph, done: set<EffectId>, order: seq<EffectId>) {
    forall i | 0 <= i < |order| :: order[i] in g && Satisfied(g, done + SetOf(order[..i]), order[i])
  }

  lemma PrerequisitesFirstCons(g: Graph, done: set<EffectId>, m: EffectId, rest: seq<EffectId>)
    requires m in g && Satisfied(g, done, m) && PrerequisitesFirst(g, done + {m}, rest)
    ensures PrerequisitesFirst(g, done, [m] + rest)
  {
    hide Satisfied;
    var order := [m] + rest;
    forall i | 0 <= i < |order| ensures order[i] in g && Satisfied(g, done + SetOf(order[..i]), order[i]) {
      if i == 0 {
        assert done + SetOf(order[..i]) == done;
      } else {
        var j := i - 1;
        assert order[i] == rest[j] && order[..i] == [m] + rest[..j];
        assert done + SetOf(order[..i]) == done + {m} + SetOf(rest[..j]);
      }
    }
  }

  lemma NextStep(g: Graph, done: set<EffectId>) returns (m: EffectId)
    requires ReadySet(g, done) != {}
    ensures m == Least(ReadySet(g, done)) && m in g && m !in done && Satisfied(g, done, m)
    ensures |g.Keys - (done + {m})| < |g.Keys - done|
    ensures LeastReadyOrder(g, done) == [m] + LeastReadyOrder(g, done + {m})
  {
    m := Least(ReadySet(g, done));
    assert g.Keys - (done + {m}) < g.Keys - done by { assert m in g.Keys - done; }
    SmallerSet(g.Keys - (done + {m}), g.Keys - done);
  }

  /** The ids are in the set, not done before, and without repetition. */
  ghost predicate NewIds(g: Graph, done: set<EffectId>, order: seq<EffectId>) {
    NoDuplicates(order) && forall x | x in order :: x in g && x !in done
  }

  lemma NewIdsCons(g: Graph, done: set<EffectId>, m: EffectId, rest: seq<EffectId>)
    requires m in g && m !in done && NewIds(g, done + {m}, rest)
    ensures NewIds(g, done, [m] + rest)
  {
  }

  /** What is ordered is new, without repetition, in the set, with prerequisites first; and at the end
      nothing is ready any more. */
  lemma {:induction false} LeastReadyOrderSpec(g: Graph, done: set<EffectId>)
    ensures NewIds(g, done, LeastReadyOrder(g, done))
    ensures PrerequisitesFirst(g, done, LeastReadyOrder(g, done))
    ensures ReadySet(g, done + SetOf(LeastReadyOrder(g, done))) == {}
    decreases |g.Keys - done|
  {
    hide *;
    if ReadySet(g, done) == {} {
      NothingReady(g, done);
    } else {
      var m := NextStep(g, done);
      var rest := LeastReadyOrder(g, done + {m});
      LeastReadyOrderSpec(g, done + {m});
      NewIdsCons(g, done, m, rest);
      PrerequisitesFirstCons(g, done, m, rest);
      SetOfCons(done, m, rest);
    }
  }

  lemma NothingReady(g: Graph, done: set<EffectId>)
    requires ReadySet(g, done) == {}
    ensures LeastReadyOrder(g, done) == [] && done + SetOf([]) == done
    ensures NewIds(g, done, []) && PrerequisitesFirst(g, done, [])
  {
    hide Satisfied, ReadySet;
  }

  lemma SetOfCons(done: set<EffectId>, m: EffectId, rest: seq<EffectId>)
    ensures done + SetOf([m] + rest) == done + {m} + SetOf(rest)
  {
  }

  // ----- Cycles -----

  /** A closed walk along in-set prerequisites. */
  ghost predicate IsCycle(g: Graph, walk: seq<EffectId>) {
    && |walk| >= 2 && walk[0] == walk[|walk| - 1]
    && IsWalk(g, walk)
  }

  predicate Needs(g: Graph, x: EffectId, p: EffectId) {
    x in g && p in g && p in g[x].prerequisites
  }

  ghost predicate IsWalk(g: Graph, walk: seq<EffectId>) {
    forall i, j | 0 <= i && j == i + 1 < |walk| :: Needs(g, walk[i], walk[j])
  }

  ghost predicate Acyclic(g: Graph) {
    forall walk :: !IsCycle(g, walk)
  }

  ghost function IndexIn(order: seq<EffectId>, x: EffectId): (i: nat)
    requires x in order
    ensures i < |order| && order[i] == x
  {
    var i :| 0 <= i < |order| && order[i] == x;
    i
  }

  /** Along a walk, positions in an order with prerequisites first go strictly down. */
  lemma {:induction false} WalkGoesDown(g: Graph, order: seq<EffectId>, walk: seq<EffectId>, k: nat)
    requires NoDuplicates(order) && PrerequisitesFirst(g, {}, order) && SetOf(order) == g.Keys
    requires IsWalk(g, walk) && 0 < k < |walk|
    ensures walk[0] in order && walk[k] in order && IndexIn(order, walk[k]) < IndexIn(order, walk[0])
  {
    var i := k - 1;
    assert Needs(g, walk[i], walk[k]);
    assert walk[i] in SetOf(order) && walk[k] in SetOf(order);
    var at := IndexIn(order, walk[i]);
    assert walk[k] in {} + SetOf(order[..at]);
    var j :| 0 <= j < at && order[j] == walk[k];
    assert IndexIn(order, walk[k]) == j;
    if i > 0 { WalkGoesDown(g, order, walk, i); }
  }

  lemma CompleteOrderIsAcyclic(g: Graph, order: seq<EffectId>)
    requires NoDuplicates(order) && PrerequisitesFirst(g, {}, order) && SetOf(order) == g.Keys
    ensures Acyclic(g)
  {
    forall walk ensures !IsCycle(g, walk) {
      if IsCycle(g, walk) {
        WalkGoesDown(g, order, walk, |walk| - 1);
      }
    }
  }

  /** More positions than values: some value repeats. */
  lemma {:induction false} Pigeonhole(s: seq<EffectId>, values: set<EffectId>) returns (i: nat, j: nat)
    requires |s| > |values| && forall x | x in s :: x in values
    ensures i < j < |s| && s[i] == s[j]
    decreases |s|
  {
    var n := |s| - 1;
    var last := s[n];
    if k :| 0 <= k < n && s[k] == last {
      i, j := k, n;
    } else {
      assert forall x | x in s[..n] :: x in values - {last};
      assert last in s;
      assert |values - {last}| == |values| - 1;
      i, j := Pigeonhole(s[..n], values - {last});
    }
  }

  ghost predicate WaitsIn(g: Graph, stuck: set<EffectId>, x: EffectId) {
    exists p :: Needs(g, x, p) && p in stuck
  }

  /** Every member of the set waits for a member of the set. */
  ghost predicate Stuck(g: Graph, stuck: set<EffectId>) {
    stuck != {} && forall x | x in stuck :: WaitsIn(g, stuck, x)
  }

  /** Inside a stuck set there are walks of every length. */
  lemma {:induction false} WalkWithin(g: Graph, stuck: set<EffectId>, n: nat) returns (walk: seq<EffectId>)
    requires Stuck(g, stuck)
    ensures |walk| == n + 1 && IsWalk(g, walk) && forall x | x in walk :: x in stuck
    decreases n
  {
    if n == 0 {
      var x :| x in stuck;
      walk := [x];
    } else {
      var shorter := WalkWithin(g, stuck, n - 1);
      var end := shorter[n - 1];
      assert end in shorter;
      assert WaitsIn(g, stuck, end);
      var p :| Needs(g, end, p) && p in stuck;
      walk := shorter + [p];
    }
  }

  lemma StuckIsCyclic(g: Graph, stuck: set<EffectId>)
    requires Stuck(g, stuck)
    ensures !Acyclic(g)
  {
    hide Needs, Stuck;
    var walk := WalkWithin(g, stuck, |stuck|);
    var i, j := Pigeonhole(walk, stuck);
    var cycle := walk[i..j + 1];
    forall a, b | 0 <= a && b == a + 1 < |cycle| ensures Needs(g, cycle[a], cycle[b]) {
      var a', b' := i + a, i + b;
      assert Needs(g, walk[a'], walk[b']);
    }
    assert IsCycle(g, cycle);
  }

  /** The least-ready order reaches every id exactly when the in-set prerequisites are acyclic. */
  lemma CompleteIffAcyclic(g: Graph)
    ensures SetOf(LeastReadyOrder(g, {})) == g.Keys <==> Acyclic(g)
  {
    var order := LeastReadyOrder(g, {});
    LeastReadyOrderSpec(g, {});
    if SetOf(order) == g.Keys {
      CompleteOrderIsAcyclic(g, order);
    } else {
      var stuck := g.Keys - SetOf(order);
      assert stuck != {};
      assert {} + SetOf(order) == SetOf(order);
      forall x | x in stuck ensures WaitsIn(g, stuck, x) {
        assert x !in ReadySet(g, SetOf(order));
        var p :| p in g[x].prerequisites && p in g && p !in SetOf(order);
        assert Needs(g, x, p) && p in stuck;
      }
      StuckIsCyclic(g, stuck);
    }
  }

  // ----- The order is the lexicographically least causal order -----

  predicate LexAtMost(a: seq<EffectId>, b: seq<EffectId>) {
    a == [] || (b != [] && (a[0] < b[0] || (a[0] == b[0] && LexAtMost(a[1..], b[1..]))))
  }

  lemma FirstIsReady(g: Graph, done: set<EffectId>, order: seq<EffectId>)
    requires order != [] && NewIds(g, done, order) && PrerequisitesFirst(g, done, order)
    ensures order[0] in ReadySet(g, done)
  {
    assert order[0] in order;
    assert done + SetOf(order[..0]) == done;
  }

  lemma RestPrerequisitesFirst(g: Graph, done: set<EffectId>, m: EffectId, rest: seq<EffectId>)
    requires PrerequisitesFirst(g, done, [m] + rest)
    ensures PrerequisitesFirst(g, done + {m}, rest)
  {
    hide Satisfied, SetOf;
    var order := [m] + rest;
    forall i | 0 <= i < |rest| ensures rest[i] in g && Satisfied(g, done + {m} + SetOf(rest[..i]), rest[i]) {
      var j := i + 1;
      assert rest[i] == order[j] && order[..j] == [m] + rest[..i];
      SetOfCons(done, m, rest[..i]);
    }
  }

  lemma RestIsOrder(g: Graph, done: set<EffectId>, order: seq<EffectId>)
    requires order != [] && NewIds(g, done, order) && PrerequisitesFirst(g, done, order)
    ensures NewIds(g, done + {order[0]}, order[1..])
    ensures PrerequisitesFirst(g, done + {order[0]}, order[1..])
    ensures done + {order[0]} + SetOf(order[1..]) == done + SetOf(order)
  {
    hide SetOf, PrerequisitesFirst;
    assert order == [order[0]] + order[1..];
    SetOfCons(done, order[0], order[1..]);
    RestPrerequisitesFirst(g, done, order[0], order[1..]);
  }

  /** Of all orders of the open ids with prerequisites first, the computed one is lexicographically least. */
  lemma {:induction false} LeastOfAllOrders(g: Graph, done: set<EffectId>, order: seq<EffectId>)
    requires NewIds(g, done, order) && PrerequisitesFirst(g, done, order)
    requires g.Keys <= done + SetOf(order)
    ensures LexAtMost(LeastReadyOrder(g, done), order)
    decreases |g.Keys - done|
  {
    hide Satisfied, ReadySet, PrerequisitesFirst, NewIds, SetOf, Acyclic;
    if ReadySet(g, done) == {} {
    } else {
      var m := NextStep(g, done);
      if order == [] {
        EmptyCovers(g, done);
        assert false;
      } else {
        FirstIsReady(g, done, order);
        if order[0] == m {
          RestIsOrder(g, done, order);
          LeastOfAllOrders(g, done + {m}, order[1..]);
        }
      }
    }
  }

  lemma EmptyCovers(g: Graph, done: set<EffectId>)
    requires g.Keys <= done + SetOf([])
    ensures ReadySet(g, done) == {}
  {
  }

  // ----- The algorithm -----

  /** How often `x` occurs. */
  function Times(s: seq<EffectId>, x: EffectId): nat {
    if s == [] then 0 else Times(s[..|s| - 1], x) + if s[|s| - 1] == x then 1 else 0
  }

  lemma TimesAppend(s: seq<EffectId>, y: EffectId, x: EffectId)
    ensures Times(s + [y], x) == Times(s, x) + if x == y then 1 else 0
  {
    assert (s + [y])[..|s|] == s;
  }

  lemma {:induction false} TimesPositive(s: seq<EffectId>, x: EffectId)
    ensures x in s <==> Times(s, x) > 0
  {
    if s != [] { TimesPositive(s[..|s| - 1], x); }
  }

  lemma {:induction false} TimesPrefix(s: seq<EffectId>, n: nat, x: EffectId)
    requires n <= |s|
    ensures Times(s[..n], x) <= Times(s, x)
  {
    if n < |s| {
      TimesPrefix(s[..|s| - 1], n, x);
      assert s[..|s| - 1][..n] == s[..n];
    } else {
      assert s[..n] == s;
    }
  }

  lemma {:induction false} CountZero(prerequisites: seq<EffectId>, ids: set<EffectId>, done: set<EffectId>)
    ensures CountOpen(prerequisites, ids, done) == 0 <==> forall p | p in prerequisites && p in ids :: p in done
  {
    if prerequisites != [] {
      var n := |prerequisites| - 1;
      CountZero(prerequisites[..n], ids, done);
      assert prerequisites == prerequisites[..n] + [prerequisites[n]];
    }
  }

  /** Completing `id` lowers the count by the number of times `id` is listed. */
  lemma {:induction false} CountStep(prerequisites: seq<EffectId>, ids: set<EffectId>, done: set<EffectId>, id: EffectId)
    requires id in ids && id !in done
    ensures CountOpen(prerequisites, ids, done)
         == CountOpen(prerequisites, ids, done + {id}) + Times(prerequisites, id)
  {
    if prerequisites != [] {
      var n := |prerequisites| - 1;
      CountStep(prerequisites[..n], ids, done, id);
      assert prerequisites == prerequisites[..n] + [prerequisites[n]];
    }
  }

  /** Ids whose open count is the given one. */
  ghost predicate CountsOpen(g: Graph, done: set<EffectId>, remaining: map<EffectId, nat>) {
    && remaining.Keys == g.Keys - done
    && forall id | id in remaining :: remaining[id] == CountOpen(g[id].prerequisites, g.Keys, done)
  }

  function Listed(successors: map<EffectId, seq<EffectId>>, id: EffectId): seq<EffectId> {
    if id in successors then successors[id] else []
  }

  /** `children` lists every id of `g` as often as it lists `id` among its prerequisites, and nothing else. */
  ghost predicate ChildrenOf(g: Graph, id: EffectId, children: seq<EffectId>) {
    forall c :: Times(children, c) == if c in g then Times(g[c].prerequisites, id) else 0
  }

  ghost predicate SuccessorsOf(g: Graph, successors: map<EffectId, seq<EffectId>>) {
    forall id | id in g :: ChildrenOf(g, id, Listed(successors, id))
  }

  method PopLeast(s: set<EffectId>) returns (m: EffectId, rest: set<EffectId>)
    requires s != {}
    ensures IsLeast(s, m) && rest == s - {m}
  {
    LeastExists(s);
    m :| m in s && forall x | x in s :: m <= x;
    rest := s - {m};
  }

  method CountPrerequisites(prerequisites: seq<EffectId>, ids: set<EffectId>) returns (count: nat)
    ensures count == CountOpen(prerequisites, ids, {})
  {
    count := 0;
    for i := 0 to |prerequisites|
      invariant count == CountOpen(prerequisites[..i], ids, {})
    {
      assert prerequisites[..i + 1][..i] == prerequisites[..i];
      if prerequisites[i] in ids { count := count + 1; }
    }
    assert prerequisites[..|prerequisites|] == prerequisites;
  }

  method InitialCounts(g: Graph) returns (remaining: map<EffectId, nat>)
    ensures CountsOpen(g, {}, remaining)
  {
    remaining := map[];
    var todo := g.Keys;
    while todo != {}
      invariant todo <= g.Keys && remaining.Keys == g.Keys - todo
      invariant forall id | id in remaining :: remaining[id] == CountOpen(g[id].prerequisites, g.Keys, {})
      decreases todo
    {
      var id;
      id, todo := PopLeast(todo);
      var count := CountPrerequisites(g[id].prerequisites, g.Keys);
      remaining := remaining[id := count];
    }
  }

  /** `after` lists `id` once more under `p` for every time `prerequisites` names `p`. */
  ghost predicate ListsMore(before: map<EffectId, seq<EffectId>>, after: map<EffectId, seq<EffectId>>,
                            ids: set<EffectId>, id: EffectId, prerequisites: seq<EffectId>)
  {
    forall q, c | q in ids ::
      Times(Listed(after, q), c) == Times(Listed(before, q), c) + (if c == id then Times(prerequisites, q) else 0)
  }

  lemma ListOneMore(before: map<EffectId, seq<EffectId>>, after: map<EffectId, seq<EffectId>>,
                    ids: set<EffectId>, id: EffectId, prerequisites: seq<EffectId>, p: EffectId)
    requires ListsMore(before, after, ids, id, prerequisites)
    ensures p in ids ==> ListsMore(before, after[p := Listed(after, p) + [id]], ids, id, prerequisites + [p])
    ensures p !in ids ==> ListsMore(before, after, ids, id, prerequisites + [p])
  {
    hide Times;
    var more := if p in ids then after[p := Listed(after, p) + [id]] else after;
    forall q, c | q in ids
      ensures Times(Listed(more, q), c) == Times(Listed(before, q), c) + (if c == id then Times(prerequisites + [p], q) else 0)
    {
      TimesAppend(prerequisites, p, q);
      TimesAppend(Listed(after, p), id, c);
      assert Times(Listed(after, q), c) == Times(Listed(before, q), c) + (if c == id then Times(prerequisites, q) else 0);
    }
  }

  method ListUnderPrerequisites(before: map<EffectId, seq<EffectId>>, ids: set<EffectId>, entry: Entry)
    returns (after: map<EffectId, seq<EffectId>>)
    ensures ListsMore(before, after, ids, entry.id, entry.prerequisites)
  {
    after := before;
    var prerequisites := entry.prerequisites;
    assert forall q :: Times(prerequisites[..0], q) == 0;
    for i := 0 to |prerequisites|
      invariant ListsMore(before, after, ids, entry.id, prerequisites[..i])
    {
      var p := prerequisites[i];
      assert prerequisites[..i + 1] == prerequisites[..i] + [p];
      ListOneMore(before, after, ids, entry.id, prerequisites[..i], p);
      if p in ids {
        after := after[p := Listed(after, p) + [entry.id]];
      }
    }
    assert prerequisites[..|prerequisites|] == prerequisites;
  }

  /** The lists account for exactly the entries with ids in `seen`. */
  ghost predicate ListsOnly(g: Graph, seen: set<EffectId>, successors: map<EffectId, seq<EffectId>>) {
    forall p, c | p in g ::
      Times(Listed(successors, p), c) == if c in seen && c in g then Times(g[c].prerequisites, p) else 0
  }

  method Successors(g: Graph) returns (successors: map<EffectId, seq<EffectId>>)
    requires forall id | id in g :: g[id].id == id
    ensures SuccessorsOf(g, successors)
  {
    successors := map[];
    var todo := g.Keys;
    while todo != {}
      invariant todo <= g.Keys && ListsOnly(g, g.Keys - todo, successors)
      decreases todo
    {
      var id;
      id, todo := PopLeast(todo);
      successors := ListUnderPrerequisites(successors, g.Keys, g[id]);
    }
  }

  /** Lowers the count of every child and makes those that reach zero ready. */
  method ReleaseChildren(children: seq<EffectId>, counts: map<EffectId, nat>, ready: set<EffectId>)
    returns (ok: bool, counts': map<EffectId, nat>, ready': set<EffectId>)
    requires forall c | c in counts :: Times(children, c) <= counts[c]
    ensures ok <==> forall c | c in children :: c in counts
    ensures ok ==> counts'.Keys == counts.Keys
    ensures ok ==> forall c | c in counts :: counts'[c] + Times(children, c) == counts[c]
    ensures ok ==> ready' == ready + set c | c in children && c in counts' && counts'[c] == 0
  {
    counts', ready' := counts, ready;
    for i := 0 to |children|
      invariant forall c | c in children[..i] :: c in counts
      invariant counts'.Keys == counts.Keys
      invariant forall c | c in counts :: counts'[c] + Times(children[..i], c) == counts[c]
      invariant ready' == ready + set c | c in children[..i] && c in counts' && counts'[c] == 0
    {
      var child := children[i];
      assert children[..i + 1] == children[..i] + [child];
      if child !in counts' { return false, counts', ready'; }
      TimesPrefix(children, i + 1, child);
      counts' := counts'[child := counts'[child] - 1];
      if counts'[child] == 0 { ready' := ready' + {child}; }
    }
    assert children[..|children|] == children;
    ok := true;
  }

  /** Ids already ordered have their prerequisites ordered too. */
  ghost predicate Closed(g: Graph, done: set<EffectId>) {
    done <= g.Keys && forall x | x in done :: Satisfied(g, done, x)
  }

  lemma ChildrenAreOpen(g: Graph, done: set<EffectId>, id: EffectId, children: seq<EffectId>, remaining: map<EffectId, nat>)
    requires Closed(g, done) && Ready(g, done, id) && ChildrenOf(g, id, children) && CountsOpen(g, done, remaining)
    ensures forall c | c in children :: c in remaining - {id}
    ensures forall c | c in remaining - {id} :: Times(children, c) <= remaining[c]
  {
    forall c | c in children ensures c in remaining - {id} {
      TimesPositive(children, c);
      TimesPositive(g[c].prerequisites, id);
      assert c in done ==> Satisfied(g, done, c);
    }
    forall c | c in remaining - {id} ensures Times(children, c) <= remaining[c] {
      CountStep(g[c].prerequisites, g.Keys, done, id);
    }
  }

  lemma ReadyIffZero(g: Graph, done: set<EffectId>, remaining: map<EffectId, nat>)
    requires CountsOpen(g, done, remaining)
    ensures ReadySet(g, done) == set id | id in remaining && remaining[id] == 0
  {
    forall id | id in remaining ensures remaining[id] == 0 <==> Ready(g, done, id) {
      CountZero(g[id].prerequisites, g.Keys, done);
    }
  }

  lemma AfterRelease(g: Graph, done: set<EffectId>, id: EffectId, children: seq<EffectId>,
                     remaining: map<EffectId, nat>, remaining': map<EffectId, nat>)
    requires Closed(g, done) && Ready(g, done, id) && ChildrenOf(g, id, children) && CountsOpen(g, done, remaining)
    requires remaining'.Keys == remaining.Keys - {id}
    requires forall c | c in remaining' :: remaining'[c] + Times(children, c) == remaining[c]
    ensures Closed(g, done + {id}) && CountsOpen(g, done + {id}, remaining')
    ensures ReadySet(g, done + {id})
         == (ReadySet(g, done) - {id}) + set c | c in children && c in remaining' && remaining'[c] == 0
  {
    forall c | c in remaining' ensures remaining'[c] == CountOpen(g[c].prerequisites, g.Keys, done + {id}) {
      CountStep(g[c].prerequisites, g.Keys, done, id);
    }
    ReadyIffZero(g, done, remaining);
    ReadyIffZero(g, done + {id}, remaining');
    forall c | c in remaining' ensures c in children <==> remaining'[c] < remaining[c] {
      TimesPositive(children, c);
    }
  }

  lemma NothingDone(g: Graph, remaining: map<EffectId, nat>)
    requires CountsOpen(g, {}, remaining)
    ensures Closed(g, {}) && SetOf([]) == {} && remaining.Keys == g.Keys
    ensures ReadySet(g, {}) == set id | id in remaining && remaining[id] == 0
  {
    ReadyIffZero(g, {}, remaining);
  }

  lemma Popped(g: Graph, order: seq<EffectId>, done: set<EffectId>, id: EffectId,
               successors: map<EffectId, seq<EffectId>>)
    requires IsLeast(ReadySet(g, done), id) && SuccessorsOf(g, successors) && done == SetOf(order)
    ensures Ready(g, done, id) && id in g && id !in done
    ensures LeastReadyOrder(g, done) == [id] + LeastReadyOrder(g, done + {id})
    ensures SetOf(order + [id]) == done + {id}
    ensures ChildrenOf(g, id, Listed(successors, id))
  {
    hide Satisfied, LeastReadyOrder, ChildrenOf;
    var next := NextStep(g, done);
  }

  /** The ids in the order the queue yields them; `left` are those never ready. */
  method OrderIds(g: Graph) returns (order: seq<EffectId>, left: set<EffectId>, consistent: bool)
    requires forall id | id in g :: g[id].id == id
    ensures consistent
    ensures order == LeastReadyOrder(g, {})
    ensures left == g.Keys - SetOf(order)
  {
    hide *;
    var remaining := InitialCounts(g);
    var successors := Successors(g);
    var ready := set id | id in remaining && remaining[id] == 0;
    NothingDone(g, remaining);
    order := [];
    ghost var done := {};
    while ready != {}
      invariant done == SetOf(order) && Closed(g, done) && CountsOpen(g, done, remaining)
      invariant remaining.Keys == g.Keys - done && ready == ReadySet(g, done)
      invariant LeastReadyOrder(g, {}) == order + LeastReadyOrder(g, done)
      decreases remaining.Keys
    {
      ghost var before := remaining;
      var id;
      id, ready := PopLeast(ready);
      Popped(g, order, done, id, successors);
      remaining := remaining - {id};
      order := order + [id];
      var children := Listed(successors, id);
      ChildrenAreOpen(g, done, id, children, before);
      var ok;
      ok, remaining, ready := ReleaseChildren(children, remaining, ready);
      if !ok { return order, remaining.Keys, false; }
      AfterRelease(g, done, id, children, before, remaining);
      done := done + {id};
    }
    NothingReady(g, done);
    left, consistent := remaining.Keys, true;
  }

  method CollectById(entries: seq<Entry>) returns (byId: Graph)
    ensures byId == ById(entries)
  {
    byId := map[];
    for i := 0 to |entries|
      invariant byId == ById(entries[..i])
    {
      assert entries[..i + 1][..i] == entries[..i];
      byId := byId[entries[i].id := entries[i]];
    }
    assert entries[..|entries|] == entries;
  }

  /** The entries behind a list of ids. */
  function EntriesOf(g: Graph, ids: seq<EffectId>): (entries: seq<Entry>)
    requires forall id | id in ids :: id in g
    ensures |entries| == |ids| && forall i | 0 <= i < |ids| :: entries[i] == g[ids[i]]
  {
    if ids == [] then []
    else
      assert forall id | id in ids[..|ids| - 1] :: id in ids;
      EntriesOf(g, ids[..|ids| - 1]) + [g[ids[|ids| - 1]]]
  }

  /** Takes the ordered entries out of the map one by one; none is missing. */
  method TakeInOrder(g: Graph, ids: seq<EffectId>) returns (entries: seq<Entry>)
    requires NewIds(g, {}, ids)
    ensures entries == EntriesOf(g, ids)
  {
    var byId := g;
    entries := [];
    for i := 0 to |ids|
      invariant |entries| == i && forall k | 0 <= k < i :: ids[k] in g && entries[k] == g[ids[k]]
      invariant forall k | i <= k < |ids| :: ids[k] in byId && ids[k] in g && byId[ids[k]] == g[ids[k]]
    {
      entries := entries + [byId[ids[i]]];
      byId := byId - {ids[i]};
    }
  }

  lemma {:induction false} ByIdSpec(entries: seq<Entry>)
    ensures forall id | id in ById(entries) :: ById(entries)[id] in entries && ById(entries)[id].id == id
    ensures forall e | e in entries :: e.id in ById(entries)
  {
    if entries != [] {
      ByIdSpec(entries[..|entries| - 1]);
    }
  }

  /** Reorders the history in place. On a cycle the list has been drained; the other internal error and an
      underflowing count cannot happen, whatever the entries are. */
  method TopologicalOrder(entries: seq<Entry>) returns (ordered: seq<Entry>, error: Option<OrderError>)
    ensures error == if Acyclic(ById(entries)) then None else Some(Cycle)
    ensures error.Some? ==> ordered == []
    ensures NewIds(ById(entries), {}, LeastReadyOrder(ById(entries), {}))
    ensures error.None? ==> ordered == EntriesOf(ById(entries), LeastReadyOrder(ById(entries), {}))
  {
    var byId := CollectById(entries);
    ByIdSpec(entries);
    var order, left, consistent := OrderIds(byId);
    LeastReadyOrderSpec(byId, {});
    CompleteIffAcyclic(byId);
    if !consistent { return [], Some(Inconsistent); }
    if left != {} { return [], Some(Cycle); }
    ordered := TakeInOrder(byId, order);
    error := None;
  }

  // ----- What the order promises -----

  ghost predicate DistinctIds(entries: seq<Entry>) {
    forall i, j | 0 <= i < j < |entries| :: entries[i].id != entries[j].id
  }

  lemma {:induction false} OnceEach(entries: seq<Entry>, e: Entry)
    requires DistinctIds(entries)
    ensures multiset(entries)[e] == if e in entries then 1 else 0
  {
    if entries != [] {
      var n := |entries| - 1;
      OnceEach(entries[..n], e);
      assert entries == entries[..n] + [entries[n]];
    }
  }

  lemma {:induction false} DistinctById(entries: seq<Entry>, e: Entry)
    requires DistinctIds(entries) && e in entries
    ensures e.id in ById(entries) && ById(entries)[e.id] == e
  {
    var n := |entries| - 1;
    if e in entries[..n] {
      DistinctById(entries[..n], e);
    }
  }

  /** Of distinct effects without a causal cycle nothing is lost or repeated, and every prerequisite that is
      present comes earlier. */
  lemma CausalOrder(entries: seq<Entry>)
    requires DistinctIds(entries) && Acyclic(ById(entries))
    ensures var g := ById(entries); var order := LeastReadyOrder(g, {});
            && NewIds(g, {}, order)
            && multiset(EntriesOf(g, order)) == multiset(entries)
            && PrerequisitesFirst(g, {}, order)
  {
    hide LeastReadyOrder, PrerequisitesFirst, Acyclic, ById, EntriesOf;
    var g := ById(entries);
    var order := LeastReadyOrder(g, {});
    LeastReadyOrderSpec(g, {});
    CompleteIffAcyclic(g);
    ByIdSpec(entries);
    var out := EntriesOf(g, order);
    forall e ensures multiset(out)[e] == multiset(entries)[e] {
      OnceEach(out, e);
      OnceEach(entries, e);
      if e in entries {
        DistinctById(entries, e);
        assert e.id in SetOf(order);
        var i :| 0 <= i < |order| && order[i] == e.id;
        assert out[i] == e;
      }
    }
  }

  /** The outcome depends on which effects there are, not on the order they are listed in. */
  lemma InputOrderIrrelevant(a: seq<Entry>, b: seq<Entry>)
    requires DistinctIds(a) && DistinctIds(b) && forall e :: e in a <==> e in b
    ensures ById(a) == ById(b)
  {
    ByIdSpec(a);
    ByIdSpec(b);
    forall id | id in ById(a) ensures id in ById(b) && ById(b)[id] == ById(a)[id] {
      DistinctById(b, ById(a)[id]);
    }
    forall id | id in ById(b) ensures id in ById(a) {
      DistinctById(a, ById(b)[id]);
    }
  }
}
