/** Running a compiled pattern over a text: all states the automaton may be in are tracked at once, with visited
    marks that are reused from step to step. */
module TextMatcher {
  import opened RuleSyntax
  import opened RuleMeaning
  import opened TextAutomaton
  import opened PatternAutomaton

  const U32_LIMIT := 0x1_0000_0000

  // ----- What the set of active states stands for -----

  predicate InRange(states: States) {
    forall a | 0 <= a < |states| :: Within(states[a], 0, |states|)
  }

  /** An automaton whose accepting state is final. */
  predicate Machine(states: States, accept: nat) {
    accept < |states| && states[accept] == [] && InRange(states)
  }

  ghost predicate LeadsFrom(states: States, active: seq<nat>, accept: nat, text: string) {
    exists q :: q in active && Leads(states, q, accept, text)
  }

  /** No silent edge leaves the set. */
  ghost predicate SilentlyClosed(states: States, active: seq<nat>) {
    forall q | q in active && q < |states| :: SilentsIn(states[q], active)
  }

  ghost predicate SilentsIn(edges: seq<Edge>, active: seq<nat>) {
    forall k | 0 <= k < |edges| && edges[k].Silent? :: edges[k].target in active
  }

  lemma SilentStep(states: States, accept: nat, q: nat, k: nat, text: string)
    requires Machine(states, accept) && q < |states| && k < |states[q]| && states[q][k].Silent?
    requires Leads(states, states[q][k].target, accept, text)
    ensures Leads(states, q, accept, text)
  {
    hide Leads;
    LeadsStep(states, q, accept, text);
    assert Takes(states[q][k], text) && Rest(states[q][k], text) == text;
  }

  /** From a closed set, a walk over a non-empty text leaves along a reading edge of one of its states. */
  lemma {:induction false} ReadingEdge(states: States, accept: nat, active: seq<nat>, q: nat, text: string, n: nat)
    returns (a: nat, k: nat)
    requires Machine(states, accept) && SilentlyClosed(states, active) && q in active && q < |states|
    requires text != "" && Walk(states, q, accept, text, n)
    ensures a in active && a < |states| && k < |states[a]| && !states[a][k].Silent? && Takes(states[a][k], text)
    ensures Leads(states, states[a][k].target, accept, text[1..])
    decreases n
  {
    var i := FirstEdge(states, q, accept, text, n);
    var edge := states[q][i];
    if edge.Silent? {
      assert SilentsIn(states[q], active);
      assert Within(states[q], 0, |states|);
      a, k := ReadingEdge(states, accept, active, edge.target, text, n - 1);
    } else {
      a, k := q, i;
    }
  }

  /** From a closed set, nothing more to read leads to the accepting state only if it is in the set. */
  lemma {:induction false} SilentAccept(states: States, accept: nat, active: seq<nat>, q: nat, n: nat)
    requires Machine(states, accept) && SilentlyClosed(states, active) && q in active && q < |states|
    requires Walk(states, q, accept, "", n)
    ensures accept in active
    decreases n
  {
    if q != accept {
      var i := FirstEdge(states, q, accept, "", n);
      assert SilentsIn(states[q], active);
      assert Within(states[q], 0, |states|);
      SilentAccept(states, accept, active, states[q][i].target, n - 1);
    }
  }

  ghost predicate AllBelow(active: seq<nat>, n: nat) {
    forall q | q in active :: q < n
  }

  lemma AcceptIff(states: States, accept: nat, active: seq<nat>)
    requires Machine(states, accept) && SilentlyClosed(states, active) && AllBelow(active, |states|)
    ensures accept in active <==> LeadsFrom(states, active, accept, "")
  {
    hide Walk, Machine, SilentlyClosed;
    LeadsHome(states, accept, "");
    if q :| q in active && Leads(states, q, accept, "") {
      var n: nat :| Walk(states, q, accept, "", n);
      SilentAccept(states, accept, active, q, n);
    }
  }

  /** The targets of the edges that read `c`. */
  function EdgeTargets(edges: seq<Edge>, c: char): seq<nat> {
    if edges == [] then []
    else
      var last := edges[|edges| - 1];
      EdgeTargets(edges[..|edges| - 1], c) + if last.OnAny? || (last.On? && last.scalar == c) then [last.target] else []
  }

  function Targets(states: States, active: seq<nat>, c: char): seq<nat> {
    if active == [] then []
    else
      var q := active[|active| - 1];
      Targets(states, active[..|active| - 1], c) + if q < |states| then EdgeTargets(states[q], c) else []
  }

  lemma {:induction false} EdgeTargetsSpec(edges: seq<Edge>, c: char, t: nat)
    ensures t in EdgeTargets(edges, c) <==> exists k | 0 <= k < |edges| :: !edges[k].Silent? && Takes(edges[k], [c]) && edges[k].target == t
  {
    if edges != [] {
      var n := |edges| - 1;
      EdgeTargetsSpec(edges[..n], c, t);
      assert edges == edges[..n] + [edges[n]];
      if k :| 0 <= k < n && !edges[..n][k].Silent? && Takes(edges[..n][k], [c]) && edges[..n][k].target == t {
        assert edges[k] == edges[..n][k];
      }
      if k :| 0 <= k < |edges| && !edges[k].Silent? && Takes(edges[k], [c]) && edges[k].target == t {
        if k < n { assert edges[..n][k] == edges[k]; }
      }
    }
  }

  lemma {:induction false} TargetsSpec(states: States, active: seq<nat>, c: char, t: nat)
    ensures t in Targets(states, active, c) <==> exists q :: q in active && q < |states| && t in EdgeTargets(states[q], c)
  {
    if active != [] {
      hide EdgeTargets;
      var n := |active| - 1;
      TargetsSpec(states, active[..n], c, t);
      assert active == active[..n] + [active[n]];
    }
  }

  /** Reading one scalar moves from the active states to their targets. */
  lemma ReadScalar(states: States, accept: nat, active: seq<nat>, text: string)
    requires Machine(states, accept) && SilentlyClosed(states, active) && AllBelow(active, |states|) && text != ""
    ensures LeadsFrom(states, active, accept, text) <==> LeadsFrom(states, Targets(states, active, text[0]), accept, text[1..])
  {
    hide Walk, Machine, SilentlyClosed, EdgeTargets, Targets;
    var c, next := text[0], Targets(states, active, text[0]);
    if q :| q in active && Leads(states, q, accept, text) {
      var n: nat :| Walk(states, q, accept, text, n);
      var a, k := ReadingEdge(states, accept, active, q, text, n);
      EdgeTargetsSpec(states[a], c, states[a][k].target);
      TargetsSpec(states, active, c, states[a][k].target);
    }
    if t :| t in next && Leads(states, t, accept, text[1..]) {
      TargetsSpec(states, active, c, t);
      var q :| q in active && q < |states| && t in EdgeTargets(states[q], c);
      EdgeTargetsSpec(states[q], c, t);
      var k :| 0 <= k < |states[q]| && !states[q][k].Silent? && Takes(states[q][k], [c]) && states[q][k].target == t;
      AcceptIsFinal(states, accept, q, k);
      hide Leads;
      LeadsStep(states, q, accept, text);
      assert Takes(states[q][k], text) && Rest(states[q][k], text) == text[1..];
    }
  }

  lemma AcceptIsFinal(states: States, accept: nat, q: nat, k: nat)
    requires Machine(states, accept) && q < |states| && k < |states[q]|
    ensures q != accept
  {
  }

  // ----- Silent closure -----

  /** Whatever can be read from `q` can be read from one of the seeds. */
  ghost predicate Backed(states: States, accept: nat, seeds: seq<nat>, q: nat) {
    forall text :: Leads(states, q, accept, text) ==> LeadsFrom(states, seeds, accept, text)
  }

  lemma BackedStep(states: States, accept: nat, seeds: seq<nat>, q: nat, k: nat)
    requires Machine(states, accept) && q < |states| && k < |states[q]| && states[q][k].Silent? && Backed(states, accept, seeds, q)
    ensures Backed(states, accept, seeds, states[q][k].target)
  {
    hide Leads, LeadsFrom, Machine;
    forall text | Leads(states, states[q][k].target, accept, text) ensures LeadsFrom(states, seeds, accept, text) {
      SilentStep(states, accept, q, k, text);
    }
  }

  /** `out` holds the seeds, is closed under silent edges, and adds nothing that could not be read before. */
  ghost predicate ClosureOf(states: States, accept: nat, seeds: seq<nat>, out: seq<nat>) {
    && SilentlyClosed(states, out) && AllBelow(out, |states|)
    && (forall q | q in seeds :: q in out)
    && (forall q | q in out :: Backed(states, accept, seeds, q))
  }

  lemma ClosureReads(states: States, accept: nat, seeds: seq<nat>, out: seq<nat>, text: string)
    requires ClosureOf(states, accept, seeds, out)
    ensures LeadsFrom(states, out, accept, text) <==> LeadsFrom(states, seeds, accept, text)
  {
    hide Leads, SilentlyClosed;
    if q :| q in out && Leads(states, q, accept, text) { assert Backed(states, accept, seeds, q); }
  }

  /** Silent edges of a visited state lead to a visited or a stacked one. */
  ghost predicate Explored(states: States, out: seq<nat>, stack: seq<nat>) {
    forall q | q in out && q < |states| :: SilentsIn(states[q], out + stack)
  }

  method SilentTargets(edges: seq<Edge>, stack: seq<nat>) returns (pushed: seq<nat>)
    ensures |pushed| >= |stack| && pushed[..|stack|] == stack
    ensures SilentsIn(edges, pushed)
    ensures forall t | t in pushed :: t in stack || exists k :: 0 <= k < |edges| && edges[k] == Silent(t)
  {
    pushed := stack;
    for i := 0 to |edges|
      invariant |pushed| >= |stack| && pushed[..|stack|] == stack
      invariant SilentsIn(edges[..i], pushed)
      invariant forall t | t in pushed :: t in stack || exists k :: 0 <= k < i && edges[k] == Silent(t)
    {
      if edges[i].Silent? { pushed := pushed + [edges[i].target]; }
    }
    assert edges[..|edges|] == edges;
  }

  lemma Grow(states: States, out: seq<nat>, stack: seq<nat>, top: nat, pushed: seq<nat>)
    requires Explored(states, out, stack + [top]) && top < |states| && |pushed| >= |stack| && pushed[..|stack|] == stack
    requires SilentsIn(states[top], pushed)
    ensures Explored(states, out + [top], pushed)
  {
    forall q | q in out + [top] && q < |states| ensures SilentsIn(states[q], out + [top] + pushed) {
      forall k | 0 <= k < |states[q]| && states[q][k].Silent? ensures states[q][k].target in out + [top] + pushed {
        var t := states[q][k].target;
        if q in out {
          assert SilentsIn(states[q], out + (stack + [top]));
          if t in stack { assert t in pushed[..|stack|]; }
        }
      }
    }
  }

  lemma Skip(states: States, out: seq<nat>, stack: seq<nat>, top: nat)
    requires Explored(states, out, stack + [top]) && top in out
    ensures Explored(states, out, stack)
  {
    forall q | q in out && q < |states| ensures SilentsIn(states[q], out + stack) {
      assert SilentsIn(states[q], out + (stack + [top]));
    }
  }

  ghost predicate AllBacked(states: States, accept: nat, seeds: seq<nat>, active: seq<nat>) {
    forall q | q in active :: q < |states| && Backed(states, accept, seeds, q)
  }

  lemma SeedsBacked(states: States, accept: nat, seeds: seq<nat>)
    requires AllBelow(seeds, |states|)
    ensures AllBacked(states, accept, seeds, seeds)
  {
    hide Leads;
    forall q | q in seeds ensures Backed(states, accept, seeds, q) {
      forall text | Leads(states, q, accept, text) ensures LeadsFrom(states, seeds, accept, text) {}
    }
  }

  lemma PushedBacked(states: States, accept: nat, seeds: seq<nat>, stack: seq<nat>, top: nat, pushed: seq<nat>)
    requires Machine(states, accept) && AllBacked(states, accept, seeds, stack + [top]) && top < |states|
    requires forall t | t in pushed :: t in stack || exists k :: 0 <= k < |states[top]| && states[top][k] == Silent(t)
    ensures AllBacked(states, accept, seeds, pushed)
  {
    hide Backed;
    assert top in stack + [top];
    forall t | t in pushed ensures t < |states| && Backed(states, accept, seeds, t) {
      if t in stack {
        assert t in stack + [top];
      } else {
        var k :| 0 <= k < |states[top]| && states[top][k] == Silent(t);
        BackedStep(states, accept, seeds, top, k);
        assert Within(states[top], 0, |states|);
      }
    }
  }

  lemma PopBacked(states: States, accept: nat, seeds: seq<nat>, stack: seq<nat>, top: nat)
    requires AllBacked(states, accept, seeds, stack + [top])
    ensures AllBacked(states, accept, seeds, stack) && top < |states| && Backed(states, accept, seeds, top)
  {
    hide Backed;
    assert top in stack + [top];
    assert forall q | q in stack :: q in stack + [top];
  }

  method EpsilonClosure(states: States, seeds: seq<nat>, marks: array<nat>, epoch: nat, ghost accept: nat) returns (out: seq<nat>)
    requires Machine(states, accept) && AllBelow(seeds, |states|)
    requires marks.Length == |states| && forall q | 0 <= q < |states| :: marks[q] != epoch
    modifies marks
    ensures ClosureOf(states, accept, seeds, out)
    ensures forall q | 0 <= q < |states| :: marks[q] == epoch || marks[q] == old(marks[q])
  {
    hide Machine, Backed;
    out := [];
    var stack := seeds;
    SeedsBacked(states, accept, seeds);
    ghost var unvisited := set q: nat | 0 <= q < |states| && marks[q] != epoch;
    while stack != []
      invariant forall q | 0 <= q < |states| :: marks[q] == epoch || marks[q] == old(marks[q])
      invariant forall q | 0 <= q < |states| :: marks[q] == epoch <==> q in out
      invariant unvisited == set q: nat | 0 <= q < |states| && marks[q] != epoch
      invariant AllBacked(states, accept, seeds, stack) && AllBacked(states, accept, seeds, out)
      invariant Explored(states, out, stack)
      invariant forall q | q in seeds :: q in out || q in stack
      decreases |unvisited|, |stack|
    {
      var top := stack[|stack| - 1];
      assert stack == stack[..|stack| - 1] + [top];
      assert top in stack;
      PopBacked(states, accept, seeds, stack[..|stack| - 1], top);
      stack := stack[..|stack| - 1];
      if marks[top] == epoch {
        Skip(states, out, stack, top);
      } else {
        marks[top] := epoch;
        assert top in unvisited;
        unvisited := unvisited - {top};
        var pushed := SilentTargets(states[top], stack);
        PushedBacked(states, accept, seeds, stack, top, pushed);
        Grow(states, out, stack, top, pushed);
        assert forall q | q in stack :: q in pushed by {
          forall q | q in stack ensures q in pushed { assert q in pushed[..|stack|]; }
        }
        out := out + [top];
        stack := pushed;
      }
    }
    Finished(states, out);
  }

  lemma Finished(states: States, out: seq<nat>)
    requires Explored(states, out, [])
    ensures SilentlyClosed(states, out)
  {
    assert out + [] == out;
  }

  // ----- Matching -----

  method EdgeTargetsInto(seeds: seq<nat>, edges: seq<Edge>, c: char) returns (more: seq<nat>)
    ensures more == seeds + EdgeTargets(edges, c)
  {
    more := seeds;
    for i := 0 to |edges|
      invariant more == seeds + EdgeTargets(edges[..i], c)
    {
      assert edges[..i + 1][..i] == edges[..i];
      match edges[i]
      case On(scalar, target) => if scalar == c { more := more + [target]; }
      case OnAny(target) => more := more + [target];
      case Silent(_) =>
    }
    assert edges[..|edges|] == edges;
  }

  method CollectTargets(states: States, active: seq<nat>, c: char) returns (seeds: seq<nat>)
    requires AllBelow(active, |states|)
    ensures seeds == Targets(states, active, c)
  {
    hide EdgeTargets;
    seeds := [];
    for i := 0 to |active|
      invariant seeds == Targets(states, active[..i], c)
    {
      assert active[..i + 1][..i] == active[..i];
      assert active[i] in active;
      seeds := EdgeTargetsInto(seeds, states[active[i]], c);
    }
    assert active[..|active|] == active;
  }

  lemma TargetsBelow(states: States, accept: nat, active: seq<nat>, c: char)
    requires Machine(states, accept)
    ensures AllBelow(Targets(states, active, c), |states|)
  {
    hide EdgeTargets, Targets;
    forall t | t in Targets(states, active, c) ensures t < |states| {
      TargetsSpec(states, active, c, t);
      var q :| q in active && q < |states| && t in EdgeTargets(states[q], c);
      EdgeTargetsSpec(states[q], c, t);
      assert Within(states[q], 0, |states|);
    }
  }

  /** The next epoch, with the marks cleared when it wraps around; no mark carries it yet. */
  method NextEpoch(marks: array<nat>, epoch: nat) returns (next: nat)
    requires 0 < epoch < U32_LIMIT && forall q | 0 <= q < marks.Length :: marks[q] <= epoch
    modifies marks
    ensures 0 < next < U32_LIMIT && forall q | 0 <= q < marks.Length :: marks[q] < next
  {
    next := (epoch + 1) % U32_LIMIT;
    if next == 0 {
      for i := 0 to marks.Length
        invariant forall q | 0 <= q < i :: marks[q] == 0
      {
        marks[i] := 0;
      }
      next := 1;
    }
  }

  lemma StartReads(states: States, start: nat, accept: nat, text: string)
    ensures LeadsFrom(states, [start], accept, text) <==> Leads(states, start, accept, text)
  {
  }

  lemma NothingActive(states: States, accept: nat, text: string)
    ensures !LeadsFrom(states, [], accept, text)
  {
  }

  /** Decides whether the automaton reads the text. */
  method IsMatch(states: States, start: nat, accept: nat, text: string) returns (matched: bool)
    requires Machine(states, accept) && start < |states|
    ensures matched <==> Leads(states, start, accept, text)
  {
    hide Machine, Leads, LeadsFrom, Targets, Backed, SilentlyClosed;
    var marks := new nat[|states|](_ => 0);
    var epoch := 1;
    var active := EpsilonClosure(states, [start], marks, epoch, accept);
    assert text[0..] == text;
    ClosureReads(states, accept, [start], active, text);
    StartReads(states, start, accept, text);
    for i := 0 to |text|
      invariant 0 < epoch < U32_LIMIT && forall q | 0 <= q < marks.Length :: marks[q] <= epoch
      invariant SilentlyClosed(states, active) && AllBelow(active, |states|)
      invariant LeadsFrom(states, active, accept, text[i..]) <==> Leads(states, start, accept, text)
    {
      assert text[i..][0] == text[i] && text[i..][1..] == text[i + 1..];
      ReadScalar(states, accept, active, text[i..]);
      TargetsBelow(states, accept, active, text[i]);
      var seeds := CollectTargets(states, active, text[i]);
      if seeds == [] {
        NothingActive(states, accept, text[i + 1..]);
        return false;
      }
      epoch := NextEpoch(marks, epoch);
      active := EpsilonClosure(states, seeds, marks, epoch, accept);
      ClosureReads(states, accept, seeds, active, text[i + 1..]);
    }
    assert text[|text|..] == "";
    AcceptIff(states, accept, active);
    matched := accept in active;
  }

  // ----- Compiling -----

  method AddState(states: States) returns (after: States, id: nat)
    ensures after == states + [[]] && id == |states|
  {
    id := |states|;
    after := states + [[]];
  }

  method CompilePattern(p: Pattern, states: States) returns (b: Built)
    ensures b == Compile(p, states)
    decreases p, 1
  {
    var n := |states|;
    match p
    case Never =>
      b := Built(states + [[], []], n, n + 1);
    case Empty =>
      b := Built(states + [[Silent(n + 1)], []], n, n + 1);
    case Literal(text) =>
      b := CompileText(text, states);
    case AnyScalar =>
      b := Built(states + [[OnAny(n + 1)], []], n, n + 1);
    case Concat(parts) =>
      if parts == [] {
        b := Built(states + [[Silent(n + 1)], []], n, n + 1);
      } else {
        b := CompileParts(parts, states);
      }
    case Alternate(parts) =>
      var branches := CompileAlternatives(parts, states + [[], []], n);
      b := Built(branches, n, n + 1);
    case ZeroOrMore(body) =>
      var c := CompilePattern(body, states + [[], []]);
      var all := AddEdge(c.states, n, Silent(n + 1));
      all := AddEdge(all, n, Silent(c.s));
      all := AddEdge(all, c.e, Silent(c.s));
      all := AddEdge(all, c.e, Silent(n + 1));
      b := Built(all, n, n + 1);
  }

  method CompileText(text: string, states: States) returns (b: Built)
    ensures b == CompileLiteral(text, states)
  {
    var all, start := AddState(states);
    var cursor := start;
    for i := 0 to |text|
      invariant Built(all, start, cursor) == CompileLiteral(text[..i], states)
    {
      assert text[..i + 1][..i] == text[..i];
      var next;
      all, next := AddState(all);
      all := AddEdge(all, cursor, On(text[i], next));
      cursor := next;
    }
    assert text[..|text|] == text;
    b := Built(all, start, cursor);
  }

  method CompileParts(parts: seq<Pattern>, states: States) returns (b: Built)
    requires parts != []
    ensures b == CompileConcat(parts, states)
    decreases parts
  {
    hide Compile;
    b := CompilePattern(parts[0], states);
    assert parts[..1] == [parts[0]];
    for i := 1 to |parts|
      invariant b == CompileConcat(parts[..i], states)
    {
      assert parts[..i + 1][..i] == parts[..i];
      var c := CompilePattern(parts[i], b.states);
      b := Built(AddEdge(c.states, b.e, Silent(c.s)), b.s, c.e);
    }
    assert parts[..|parts|] == parts;
  }

  method CompileAlternatives(parts: seq<Pattern>, states: States, n: nat) returns (all: States)
    ensures all == CompileBranches(parts, states, n)
    decreases parts
  {
    hide Compile;
    all := states;
    for i := 0 to |parts|
      invariant all == CompileBranches(parts[..i], states, n)
    {
      assert parts[..i + 1][..i] == parts[..i];
      var c := CompilePattern(parts[i], all);
      all := AddEdge(c.states, n, Silent(c.s));
      all := AddEdge(all, c.e, Silent(n + 1));
    }
    assert parts[..|parts|] == parts;
  }

  lemma CompiledIsMachine(b: Built, language: iset<string>)
    requires Compiled([], b, language)
    ensures Machine(b.states, b.e) && b.s < |b.states|
    ensures forall text :: Leads(b.states, b.s, b.e, text) <==> text in language
  {
    hide Leads;
    forall a | 0 <= a < |b.states| ensures Within(b.states[a], 0, |b.states|) {}
  }

  /** Compiling a pattern and running the automaton decides the pattern's language, for every text. */
  method MatchPattern(p: Pattern, text: string) returns (matched: bool)
    ensures matched <==> InLanguage(p, text)
  {
    hide Compile, Compiled, Machine, Leads, InLanguage;
    var b := CompilePattern(p, []);
    CompileCorrect(p, []);
    CompiledIsMachine(b, Language(p));
    InLanguageSet(p, text);
    hide Language;
    matched := IsMatch(b.states, b.s, b.e, text);
  }
}
