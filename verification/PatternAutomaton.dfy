/** Compiling a text pattern to an automaton that reads exactly the pattern's language. */
module PatternAutomaton {
  import opened RuleSyntax
  import opened RuleMeaning
  import opened TextAutomaton

  /** The states so far, and the entry and exit of the part just added. */
  datatype Built = Built(states: States, s: nat, e: nat)

  function AddEdge(states: States, a: nat, edge: Edge): States {
    if a < |states| then states[a := states[a] + [edge]] else states
  }

  function Compile(p: Pattern, states: States): Built
    decreases p
  {
    var n := |states|;
    match p
    case Never => Built(states + [[], []], n, n + 1)
    case Empty => Built(states + [[Silent(n + 1)], []], n, n + 1)
    case Literal(text) => CompileLiteral(text, states)
    case AnyScalar => Built(states + [[OnAny(n + 1)], []], n, n + 1)
    case Concat(parts) =>
      if parts == [] then Built(states + [[Silent(n + 1)], []], n, n + 1) else CompileConcat(parts, states)
    case Alternate(parts) => Built(CompileBranches(parts, states + [[], []], n), n, n + 1)
    case ZeroOrMore(body) =>
      Built(Loop(Compile(body, states + [[], []]), n), n, n + 1)
  }

  /** A chain with one edge per scalar. */
  function CompileLiteral(text: string, states: States): Built {
    if text == "" then Built(states + [[]], |states|, |states|)
    else
      var b := CompileLiteral(text[..|text| - 1], states);
      var next := |b.states|;
      Built(AddEdge(b.states + [[]], b.e, On(text[|text| - 1], next)), b.s, next)
  }

  function CompileConcat(parts: seq<Pattern>, states: States): Built
    requires parts != []
    decreases parts
  {
    if |parts| == 1 then Compile(parts[0], states)
    else Sequence(CompileConcat(parts[..|parts| - 1], states), Compile(parts[|parts| - 1], CompileConcat(parts[..|parts| - 1], states).states))
  }

  function Sequence(b: Built, c: Built): Built {
    Built(AddEdge(c.states, b.e, Silent(c.s)), b.s, c.e)
  }

  /** The branches of an alternation between entry `n` and exit `n + 1`. */
  function CompileBranches(parts: seq<Pattern>, states: States, n: nat): States
    decreases parts
  {
    if parts == [] then states
    else
      var before := CompileBranches(parts[..|parts| - 1], states, n);
      Branch(Compile(parts[|parts| - 1], before), n)
  }

  function Branch(c: Built, n: nat): States {
    AddEdge(AddEdge(c.states, n, Silent(c.s)), c.e, Silent(n + 1))
  }

  /** The edges around a repeated part: skip it or enter it, repeat it or leave it. */
  function Loop(c: Built, n: nat): States {
    var entered := AddEdge(AddEdge(c.states, n, Silent(n + 1)), n, Silent(c.s));
    AddEdge(AddEdge(entered, c.e, Silent(c.s)), c.e, Silent(n + 1))
  }

  // ----- What a compiled part is -----

  ghost function Language(p: Pattern): iset<string> {
    iset text | InLanguage(p, text)
  }

  /** The part was added behind the old states, is closed up to its exit, has nothing leaving its exit yet, and
      reads exactly the language. */
  ghost predicate Compiled(states: States, b: Built, language: iset<string>) {
    && |states| < |b.states| && b.states[..|states|] == states
    && Fragment(b.states, |states|, |b.states|, b.s, b.e, language)
    && b.states[b.e] == []
  }

  lemma TwoStates(states: States, edges: seq<Edge>, language: iset<string>)
    requires Within(edges, |states|, |states| + 2)
    requires forall text :: text in language <==> exists k | 0 <= k < |edges| :: Takes(edges[k], text) && edges[k].target == |states| + 1 && Rest(edges[k], text) == ""
    requires forall k | 0 <= k < |edges| :: edges[k].target == |states| + 1
    ensures Compiled(states, Built(states + [edges, []], |states|, |states| + 1), language)
  {
    hide Walk, Leads;
    var n := |states|;
    var all := states + [edges, []];
    forall text ensures Leads(all, n, n + 1, text) <==> text in language {
      LeadsStep(all, n, n + 1, text);
      forall k | 0 <= k < |edges| ensures Leads(all, edges[k].target, n + 1, Rest(edges[k], text)) <==> Rest(edges[k], text) == "" {
        LeadsHome(all, n + 1, Rest(edges[k], text));
      }
    }
  }

  // ----- One after the other -----

  ghost function Sequenced(a: iset<string>, b: iset<string>): iset<string> {
    iset text: string | exists k | 0 <= k <= |text| :: text[..k] in a && text[k..] in b
  }

  /** Continuing from the exit of one closed part into the entry of another. */
  lemma LeadsSequence(states: States, lo: nat, mid: nat, hi: nat, b: Built, c: Built, x: iset<string>, y: iset<string>, text: string)
    requires Fragment(states, lo, mid, b.s, b.e, x) && Fragment(states, mid, hi, c.s, c.e, y) && states[b.e] == [Silent(c.s)]
    ensures Leads(states, b.s, c.e, text) <==> text in Sequenced(x, y)
  {
    hide Leads;
    ThroughExit(states, lo, mid, b.e, c.e, b.s, text);
    forall k | 0 <= k <= |text| ensures Leads(states, b.e, c.e, text[k..]) <==> text[k..] in y {
      LeadsStep(states, b.e, c.e, text[k..]);
      assert Takes(states[b.e][0], text[k..]) && Rest(states[b.e][0], text[k..]) == text[k..];
    }
  }

  lemma SequenceCorrect(states: States, b: Built, c: Built, x: iset<string>, y: iset<string>)
    requires Compiled(states, b, x) && Compiled(b.states, c, y)
    ensures Compiled(states, Sequence(b, c), Sequenced(x, y))
  {
    hide Leads, Sequenced;
    var lo, mid, hi := |states|, |b.states|, |c.states|;
    var after := AddEdge(c.states, b.e, Silent(c.s));
    assert after[b.e] == [Silent(c.s)] by { assert c.states[..mid][b.e] == b.states[b.e]; }
    assert SameInside(b.states, after, lo, mid, b.e) by {
      forall a | lo <= a < mid && a != b.e ensures after[a] == b.states[a] { assert c.states[..mid][a] == b.states[a]; }
    }
    FragmentStable(b.states, after, lo, mid, b.s, b.e, x);
    FragmentStable(c.states, after, mid, hi, c.s, c.e, y);
    forall text ensures Leads(after, b.s, c.e, text) <==> text in Sequenced(x, y) {
      LeadsSequence(after, lo, mid, hi, b, c, x, y, text);
    }
    assert Closed(after, lo, hi, c.e) by {
      forall a | lo <= a < hi && a != c.e ensures Within(after[a], lo, hi) {
        if a < mid && a != b.e { assert Within(after[a], lo, mid); }
        if a >= mid { assert Within(after[a], mid, hi); }
      }
    }
    assert after[..lo] == states by { assert c.states[..mid][..lo] == c.states[..lo]; }
  }

  // ----- Either one -----

  /** The branches added so far: entry `n`, exit `n + 1`, and everything behind the entry closed up to the exit. */
  ghost predicate Branching(prior: States, states: States, n: nat, language: iset<string>) {
    && n == |prior| && n + 2 <= |states| && states[..n] == prior && states[n + 1] == []
    && Closed(states, n + 1, |states|, n + 1) && Within(states[n], n + 1, |states|)
    && forall text :: Leads(states, n, n + 1, text) <==> text in language
  }

  /** Through a part whose exit goes silently to `t`. */
  lemma LeadsOut(states: States, lo: nat, hi: nat, c: Built, t: nat, y: iset<string>, text: string)
    requires Fragment(states, lo, hi, c.s, c.e, y) && !(lo <= t < hi) && states[c.e] == [Silent(t)]
    ensures Leads(states, c.s, t, text) <==> text in y
  {
    hide Leads;
    ThroughExit(states, lo, hi, c.e, t, c.s, text);
    forall k | 0 <= k <= |text| ensures Leads(states, c.e, t, text[k..]) <==> k == |text| {
      LeadsStep(states, c.e, t, text[k..]);
      LeadsHome(states, t, text[k..]);
      assert Takes(states[c.e][0], text[k..]) && Rest(states[c.e][0], text[k..]) == text[k..];
    }
    assert text[..|text|] == text;
  }

  /** What the entry leads to after a branch was added. */
  lemma LeadsBranch(prior: States, states: States, n: nat, c: Built, x: iset<string>, y: iset<string>, text: string)
    requires Branching(prior, states, n, x) && Compiled(states, c, y)
    requires SameInside(states, Branch(c, n), n + 1, |states|, n + 1)
    requires n < |Branch(c, n)| == |c.states| && Branch(c, n)[n] == states[n] + [Silent(c.s)]
    requires Fragment(Branch(c, n), |states|, |c.states|, c.s, c.e, y) && Branch(c, n)[c.e] == [Silent(n + 1)]
    ensures Leads(Branch(c, n), n, n + 1, text) <==> text in x || text in y
  {
    hide Leads, Branch;
    var after, m := Branch(c, n), |states[n]|;
    LeadsStep(states, n, n + 1, text);
    LeadsStep(after, n, n + 1, text);
    forall k | 0 <= k < m
      ensures Leads(after, states[n][k].target, n + 1, Rest(states[n][k], text)) <==> Leads(states, states[n][k].target, n + 1, Rest(states[n][k], text))
    {
      StableLeads(states, after, n + 1, |states|, n + 1, states[n][k].target, Rest(states[n][k], text));
    }
    LeadsOut(after, |states|, |c.states|, c, n + 1, y, text);
    assert after[n][m] == Silent(c.s) && Takes(after[n][m], text) && Rest(after[n][m], text) == text;
    assert forall k | 0 <= k < m :: after[n][k] == states[n][k];
  }

  lemma BranchCorrect(prior: States, states: States, n: nat, c: Built, x: iset<string>, y: iset<string>)
    requires Branching(prior, states, n, x) && Compiled(states, c, y)
    ensures Branching(prior, Branch(c, n), n, x + y)
  {
    hide Leads;
    var mid, hi, after := |states|, |c.states|, Branch(c, n);
    assert forall a | 0 <= a < mid :: c.states[a] == states[a] by {
      forall a | 0 <= a < mid ensures c.states[a] == states[a] { assert c.states[..mid][a] == states[a]; }
    }
    assert SameInside(states, after, n + 1, mid, n + 1);
    FragmentStable(c.states, after, mid, hi, c.s, c.e, y);
    forall text ensures Leads(after, n, n + 1, text) <==> text in x + y {
      LeadsBranch(prior, states, n, c, x, y, text);
    }
    forall a | n + 1 <= a < hi && a != n + 1 ensures Within(after[a], n + 1, hi) {
      if a < mid { assert Within(states[a], n + 1, mid); } else if a != c.e { assert Within(after[a], mid, hi); }
    }
    assert after[..n] == prior by { assert c.states[..mid][..n] == states[..n]; }
  }

  // ----- Any number of times -----

  /** The loop around a body: from the body's exit back to its entry or out to `t`. */
  ghost predicate Looping(states: States, lo: nat, hi: nat, c: Built, t: nat, body: Pattern) {
    Fragment(states, lo, hi, c.s, c.e, Language(body)) && !(lo <= t < hi) && states[c.e] == [Silent(c.s), Silent(t)]
  }

  lemma {:induction false} LoopSound(states: States, lo: nat, hi: nat, c: Built, t: nat, body: Pattern, text: string, n: nat)
    requires Looping(states, lo, hi, c, t, body) && Walk(states, c.e, t, text, n)
    ensures InLanguage(ZeroOrMore(body), text)
    decreases n
  {
    var i := FirstEdge(states, c.e, t, text, n);
    if i == 1 {
      assert text == "";
    } else {
      hide Walk;
      var k, m := PassExit(states, lo, hi, c.e, t, c.s, text, n - 1);
      assert Leads(states, c.s, c.e, text[..k]);
      assert text[..k] in Language(body);
      LoopSound(states, lo, hi, c, t, body, text[k..], n - 1 - m);
      if k == 0 { assert text[k..] == text; }
    }
  }

  lemma {:induction false} LoopComplete(states: States, lo: nat, hi: nat, c: Built, t: nat, body: Pattern, text: string)
    requires Looping(states, lo, hi, c, t, body) && InLanguage(ZeroOrMore(body), text)
    ensures Leads(states, c.e, t, text)
    decreases |text|
  {
    hide Leads;
    LeadsStep(states, c.e, t, text);
    if text == "" {
      LeadsHome(states, t, text);
      assert Takes(states[c.e][1], text) && Rest(states[c.e][1], text) == text;
    } else {
      var k :| 0 < k <= |text| && InLanguage(body, text[..k]) && InLanguage(ZeroOrMore(body), text[k..]);
      assert text[..k] in Language(body);
      LoopComplete(states, lo, hi, c, t, body, text[k..]);
      ThroughExit(states, lo, hi, c.e, t, c.s, text);
      assert Takes(states[c.e][0], text) && Rest(states[c.e][0], text) == text;
    }
  }

  lemma LoopIff(states: States, lo: nat, hi: nat, c: Built, t: nat, body: Pattern, text: string)
    requires Looping(states, lo, hi, c, t, body)
    ensures Leads(states, c.e, t, text) <==> InLanguage(ZeroOrMore(body), text)
  {
    hide Looping, Walk, InLanguage;
    if n: nat :| Walk(states, c.e, t, text, n) { LoopSound(states, lo, hi, c, t, body, text, n); }
    if InLanguage(ZeroOrMore(body), text) { LoopComplete(states, lo, hi, c, t, body, text); }
  }

  /** From the entry: nothing, or once through the body and then the loop. */
  lemma StarLanguage(body: Pattern, text: string)
    ensures InLanguage(ZeroOrMore(body), text) <==>
            text == "" || exists k | 0 <= k <= |text| :: InLanguage(body, text[..k]) && InLanguage(ZeroOrMore(body), text[k..])
  {
    if k :| 0 <= k <= |text| && InLanguage(body, text[..k]) && InLanguage(ZeroOrMore(body), text[k..]) {
      if k == 0 { assert text[k..] == text; }
    }
  }

  lemma LeadsStar(states: States, lo: nat, hi: nat, c: Built, n: nat, body: Pattern, text: string)
    requires Looping(states, lo, hi, c, n + 1, body) && n < |states| && states[n] == [Silent(n + 1), Silent(c.s)]
    ensures Leads(states, n, n + 1, text) <==> InLanguage(ZeroOrMore(body), text)
  {
    hide Leads, InLanguage;
    LeadsStep(states, n, n + 1, text);
    LeadsHome(states, n + 1, text);
    ThroughExit(states, lo, hi, c.e, n + 1, c.s, text);
    forall k | 0 <= k <= |text|
      ensures Leads(states, c.s, c.e, text[..k]) && Leads(states, c.e, n + 1, text[k..]) <==> InLanguage(body, text[..k]) && InLanguage(ZeroOrMore(body), text[k..])
    {
      LoopIff(states, lo, hi, c, n + 1, body, text[k..]);
      assert text[..k] in Language(body) <==> InLanguage(body, text[..k]);
    }
    StarLanguage(body, text);
    assert Takes(states[n][0], text) && Rest(states[n][0], text) == text;
    assert Takes(states[n][1], text) && Rest(states[n][1], text) == text;
  }

  lemma LoopEdges(c: Built, n: nat)
    requires n + 1 < c.e < |c.states| && c.states[n] == [] && c.states[n + 1] == [] && c.states[c.e] == []
    ensures var after := Loop(c, n);
            && |after| == |c.states|
            && after[n] == [Silent(n + 1), Silent(c.s)] && after[n + 1] == [] && after[c.e] == [Silent(c.s), Silent(n + 1)]
            && forall a | 0 <= a < |after| && a != n && a != c.e :: after[a] == c.states[a]
  {
  }

  lemma StarCorrect(states: States, body: Pattern, c: Built)
    requires Compiled(states + [[], []], c, Language(body))
    ensures Compiled(states, Built(Loop(c, |states|), |states|, |states| + 1), Language(ZeroOrMore(body)))
  {
    hide Leads, InLanguage, Language, Loop;
    var n, hi := |states|, |c.states|;
    assert c.states[..n + 2][n] == [] && c.states[..n + 2][n + 1] == [];
    LoopEdges(c, n);
    var after := Loop(c, n);
    FragmentStable(c.states, after, n + 2, hi, c.s, c.e, Language(body));
    forall text ensures Leads(after, n, n + 1, text) <==> text in Language(ZeroOrMore(body)) {
      LeadsStar(after, n + 2, hi, c, n, body, text);
      InLanguageSet(ZeroOrMore(body), text);
    }
    forall a | n <= a < hi && a != n + 1 ensures Within(after[a], n, hi) {
      if a >= n + 2 && a != c.e { assert Within(after[a], n + 2, hi); }
    }
    assert after[..n] == states by {
      forall a | 0 <= a < n ensures after[a] == states[a] { assert c.states[..n + 2][a] == states[a]; }
    }
  }

  lemma InLanguageSet(p: Pattern, text: string)
    ensures text in Language(p) <==> InLanguage(p, text)
  {
  }

  // ----- Literals -----

  lemma LiteralStep(states: States, b: Built, text: string, c: char)
    requires Compiled(states, b, iset{text})
    ensures Compiled(states, Built(AddEdge(b.states + [[]], b.e, On(c, |b.states|)), b.s, |b.states|), iset{text + [c]})
  {
    hide Leads;
    var lo, mid := |states|, |b.states|;
    var after := AddEdge(b.states + [[]], b.e, On(c, mid));
    assert after[b.e] == [On(c, mid)] && after[mid] == [];
    assert SameInside(b.states, after, lo, mid, b.e);
    FragmentStable(b.states, after, lo, mid, b.s, b.e, iset{text});
    forall t ensures Leads(after, b.s, mid, t) <==> t in iset{text + [c]} {
      LeadsLiteral(after, lo, mid, b, text, c, t);
    }
    forall a | lo <= a < mid + 1 && a != mid ensures Within(after[a], lo, mid + 1) {
      if a != b.e { assert Within(after[a], lo, mid); }
    }
    assert after[..lo] == states;
  }

  lemma OneScalar(c: char, target: nat, text: string)
    ensures Takes(On(c, target), text) && Rest(On(c, target), text) == "" <==> text == [c]
  {
  }

  lemma LeadsLiteral(states: States, lo: nat, mid: nat, b: Built, text: string, c: char, t: string)
    requires Fragment(states, lo, mid, b.s, b.e, iset{text}) && states[b.e] == [On(c, mid)]
    ensures Leads(states, b.s, mid, t) <==> t == text + [c]
  {
    hide Leads;
    ThroughExit(states, lo, mid, b.e, mid, b.s, t);
    forall k | 0 <= k <= |t| ensures Leads(states, b.e, mid, t[k..]) <==> t[k..] == [c] {
      LeadsStep(states, b.e, mid, t[k..]);
      LeadsHome(states, mid, Rest(On(c, mid), t[k..]));
      assert states[b.e][0] == On(c, mid);
      OneScalar(c, mid, t[k..]);
    }
    if k :| 0 <= k <= |t| && t[..k] == text && t[k..] == [c] {
      assert t == t[..k] + t[k..];
    }
    if t == text + [c] {
      assert t[..|text|] == text && t[|text|..] == [c];
    }
  }

  lemma {:induction false} LiteralCorrect(text: string, states: States)
    ensures Compiled(states, CompileLiteral(text, states), iset{text})
  {
    if text == "" {
      hide Leads;
      var n, all := |states|, states + [[]];
      forall t ensures Leads(all, n, n, t) <==> t in iset{""} { LeadsHome(all, n, t); }
    } else {
      hide Compiled, AddEdge;
      var n := |text| - 1;
      LiteralCorrect(text[..n], states);
      LiteralStep(states, CompileLiteral(text[..n], states), text[..n], text[n]);
      assert text[..n] + [text[n]] == text;
    }
  }

  // ----- Every pattern -----

  ghost function ConcatLanguage(parts: seq<Pattern>): iset<string> {
    iset text | InConcat(parts, text)
  }

  lemma {:induction false} ConcatAppend(parts: seq<Pattern>, q: Pattern, text: string)
    ensures InConcat(parts + [q], text) <==> exists k | 0 <= k <= |text| :: InConcat(parts, text[..k]) && InLanguage(q, text[k..])
  {
    hide InLanguage;
    if parts == [] {
      assert parts + [q] == [q];
      SingleConcat(q, text);
      if k :| 0 <= k <= |text| && InConcat(parts, text[..k]) && InLanguage(q, text[k..]) { assert text[k..] == text; }
      if InLanguage(q, text) { assert text[..0] == "" && text[0..] == text; }
    } else {
      var p, rest := parts[0], parts[1..];
      assert (parts + [q])[0] == p && (parts + [q])[1..] == rest + [q];
      if InConcat(parts + [q], text) {
        var j :| 0 <= j <= |text| && InLanguage(p, text[..j]) && InConcat(rest + [q], text[j..]);
        ConcatAppend(rest, q, text[j..]);
        var i :| 0 <= i <= |text[j..]| && InConcat(rest, text[j..][..i]) && InLanguage(q, text[j..][i..]);
        assert text[..j + i][..j] == text[..j] && text[..j + i][j..] == text[j..][..i] && text[j + i..] == text[j..][i..];
        assert InConcat(parts, text[..j + i]);
      }
      if k :| 0 <= k <= |text| && InConcat(parts, text[..k]) && InLanguage(q, text[k..]) {
        var j :| 0 <= j <= k && InLanguage(p, text[..k][..j]) && InConcat(rest, text[..k][j..]);
        assert text[..k][..j] == text[..j] && text[..k][j..] == text[j..][..k - j] && text[j..][k - j..] == text[k..];
        ConcatAppend(rest, q, text[j..]);
        assert InConcat(rest + [q], text[j..]);
      }
    }
  }

  lemma SingleConcat(q: Pattern, text: string)
    ensures InConcat([q], text) <==> InLanguage(q, text)
  {
    hide InLanguage;
    if k :| 0 <= k <= |text| && InLanguage(q, text[..k]) && InConcat([q][1..], text[k..]) { assert text[..k] == text; }
    if InLanguage(q, text) { assert text[..|text|] == text && text[|text|..] == ""; }
  }

  lemma SequencedConcat(parts: seq<Pattern>, q: Pattern)
    ensures Sequenced(ConcatLanguage(parts), Language(q)) == ConcatLanguage(parts + [q])
  {
    hide InLanguage, InConcat;
    forall text ensures text in Sequenced(ConcatLanguage(parts), Language(q)) <==> text in ConcatLanguage(parts + [q]) {
      ConcatAppend(parts, q, text);
    }
  }

  /** The automaton a pattern compiles to reads exactly the pattern's language. */
  lemma {:induction false} CompileCorrect(p: Pattern, states: States)
    ensures Compiled(states, Compile(p, states), Language(p))
    decreases p, 0
  {
    hide Compiled, Loop;
    var n := |states|;
    match p
    case Never => TwoStates(states, [], Language(p));
    case Empty => EmptyCorrect(states, p);
    case Literal(text) =>
      LiteralCorrect(text, states);
      assert Language(p) == iset{text};
    case AnyScalar => AnyCorrect(states);
    case Concat(parts) =>
      if parts == [] {
        EmptyCorrect(states, p);
      } else {
        ConcatCorrect(parts, states);
        assert Language(p) == ConcatLanguage(parts);
      }
    case Alternate(parts) => AlternateCorrect(parts, states);
    case ZeroOrMore(body) =>
      CompileCorrect(body, states + [[], []]);
      StarCorrect(states, body, Compile(body, states + [[], []]));
  }

  lemma EmptyOnly(p: Pattern, text: string)
    requires p == Empty || p == Concat([])
    ensures text in Language(p) <==> text == ""
  {
    if p.Concat? {
      assert InConcat([], text) <==> text == "";
      assert InLanguage(p, text) <==> InConcat(p.parts, text);
    }
  }

  lemma EmptyCorrect(states: States, p: Pattern)
    requires p == Empty || p == Concat([])
    ensures Compiled(states, Built(states + [[Silent(|states| + 1)], []], |states|, |states| + 1), Language(p))
  {
    var edges := [Silent(|states| + 1)];
    forall text
      ensures text in Language(p) <==> exists k | 0 <= k < |edges| :: Takes(edges[k], text) && edges[k].target == |states| + 1 && Rest(edges[k], text) == ""
    {
      assert Takes(edges[0], text) && Rest(edges[0], text) == text;
      EmptyOnly(p, text);
    }
    TwoStates(states, edges, Language(p));
  }

  lemma AnyCorrect(states: States)
    ensures Compiled(states, Built(states + [[OnAny(|states| + 1)], []], |states|, |states| + 1), Language(AnyScalar))
  {
    var edges := [OnAny(|states| + 1)];
    assert forall text :: Takes(edges[0], text) && Rest(edges[0], text) == "" <==> |text| == 1;
    TwoStates(states, edges, Language(AnyScalar));
  }

  lemma {:induction false} ConcatCorrect(parts: seq<Pattern>, states: States)
    requires parts != []
    ensures Compiled(states, CompileConcat(parts, states), ConcatLanguage(parts))
    decreases parts
  {
    hide Compiled, Sequence, Compile, InLanguage, InConcat;
    if |parts| == 1 {
      CompileCorrect(parts[0], states);
      assert parts == [parts[0]];
      forall text ensures InConcat(parts, text) <==> InLanguage(parts[0], text) { SingleConcat(parts[0], text); }
      assert ConcatLanguage(parts) == Language(parts[0]);
    } else {
      var n := |parts| - 1;
      var b := CompileConcat(parts[..n], states);
      ConcatCorrect(parts[..n], states);
      CompileCorrect(parts[n], b.states);
      SequenceCorrect(states, b, Compile(parts[n], b.states), ConcatLanguage(parts[..n]), Language(parts[n]));
      SequencedConcat(parts[..n], parts[n]);
      assert parts[..n] + [parts[n]] == parts;
    }
  }

  ghost predicate InAny(parts: seq<Pattern>, text: string) {
    exists i | 0 <= i < |parts| :: InLanguage(parts[i], text)
  }

  ghost function AnyLanguage(parts: seq<Pattern>): iset<string> {
    iset text | InAny(parts, text)
  }

  lemma {:induction false} BranchesCorrect(parts: seq<Pattern>, states: States)
    ensures Branching(states, CompileBranches(parts, states + [[], []], |states|), |states|, AnyLanguage(parts))
    decreases parts, 0
  {
    if parts == [] {
      hide Leads;
      var n, e, all := |states|, |states| + 1, states + [[], []];
      forall text ensures !Leads(all, n, e, text) { LeadsStep(all, n, e, text); }
    } else {
      hide Branching, Compile, InLanguage, Branch, Compiled;
      var m := |parts| - 1;
      BranchesCorrect(parts[..m], states);
      var before := CompileBranches(parts[..m], states + [[], []], |states|);
      CompileCorrect(parts[m], before);
      BranchCorrect(states, before, |states|, Compile(parts[m], before), AnyLanguage(parts[..m]), Language(parts[m]));
      AnyOfLast(parts);
    }
  }

  lemma AnyOfLast(parts: seq<Pattern>)
    requires parts != []
    ensures AnyLanguage(parts) == AnyLanguage(parts[..|parts| - 1]) + Language(parts[|parts| - 1])
  {
    hide InLanguage;
    var m := |parts| - 1;
    forall text ensures text in AnyLanguage(parts) <==> text in AnyLanguage(parts[..m]) || text in Language(parts[m]) {
      if i :| 0 <= i < |parts| && InLanguage(parts[i], text) {
        if i < m { assert InLanguage(parts[..m][i], text); }
      }
      if i :| 0 <= i < m && InLanguage(parts[..m][i], text) { assert InLanguage(parts[i], text); }
    }
  }

  lemma {:induction false} AlternateCorrect(parts: seq<Pattern>, states: States)
    ensures Compiled(states, Compile(Alternate(parts), states), Language(Alternate(parts)))
    decreases parts, 1
  {
    hide Leads, CompileBranches;
    BranchesCorrect(parts, states);
    assert Language(Alternate(parts)) == AnyLanguage(parts);
    var n, all := |states|, CompileBranches(parts, states + [[], []], |states|);
    forall a | n <= a < |all| && a != n + 1 ensures Within(all[a], n, |all|) {
      assert Within(all[a], n + 1, |all|);
    }
  }
}
