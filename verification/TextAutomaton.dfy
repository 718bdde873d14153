/** Finite automata for text patterns: walks, and the closed regions from which automata are put together. */
module TextAutomaton {
  datatype Edge = Silent(target: nat) | On(scalar: char, target: nat) | OnAny(target: nat)

  type States = seq<seq<Edge>>

  predicate Takes(edge: Edge, text: string) {
    match edge
    case Silent(_) => true
    case On(c, _) => text != "" && text[0] == c
    case OnAny(_) => text != ""
  }

  function Rest(edge: Edge, text: string): string {
    if edge.Silent? || text == "" then text else text[1..]
  }

  /** `text` labels a walk of `n` edges from `a` to its first arrival at `e`. */
  ghost predicate Walk(states: States, a: nat, e: nat, text: string, n: nat)
    decreases n, 0
  {
    if a == e then n == 0 && text == ""
    else n > 0 && a < |states| && exists k | 0 <= k < |states[a]| :: WalkOn(states, states[a][k], e, text, n - 1)
  }

  ghost predicate WalkOn(states: States, edge: Edge, e: nat, text: string, n: nat)
    decreases n, 1
  {
    Takes(edge, text) && Walk(states, edge.target, e, Rest(edge, text), n)
  }

  ghost predicate Leads(states: States, a: nat, e: nat, text: string) {
    exists n: nat :: Walk(states, a, e, text, n)
  }

  lemma FirstEdge(states: States, a: nat, e: nat, text: string, n: nat) returns (i: nat)
    requires Walk(states, a, e, text, n) && a != e
    ensures n > 0 && a < |states| && i < |states[a]| && WalkOn(states, states[a][i], e, text, n - 1)
  {
    i :| 0 <= i < |states[a]| && WalkOn(states, states[a][i], e, text, n - 1);
  }

  lemma AlongEdge(states: States, a: nat, e: nat, i: nat, text: string, n: nat)
    requires a != e && a < |states| && i < |states[a]| && WalkOn(states, states[a][i], e, text, n)
    ensures Walk(states, a, e, text, n + 1)
  {
    hide WalkOn;
  }

  // ----- Regions -----

  predicate Within(edges: seq<Edge>, lo: nat, hi: nat) {
    forall k | 0 <= k < |edges| :: lo <= edges[k].target < hi
  }

  /** No edge leaves the region except from its exit. */
  predicate Closed(states: States, lo: nat, hi: nat, exit: nat) {
    lo <= exit < hi <= |states| && forall a | lo <= a < hi && a != exit :: Within(states[a], lo, hi)
  }

  /** Inside the region, the exit aside, nothing was changed. */
  predicate SameInside(before: States, after: States, lo: nat, hi: nat, exit: nat) {
    hi <= |before| && hi <= |after| && forall a | lo <= a < hi && a != exit :: after[a] == before[a]
  }

  lemma {:induction false} Stable(before: States, after: States, lo: nat, hi: nat, exit: nat, a: nat, text: string, n: nat)
    requires Closed(before, lo, hi, exit) && SameInside(before, after, lo, hi, exit) && lo <= a < hi
    ensures Walk(before, a, exit, text, n) <==> Walk(after, a, exit, text, n)
    decreases n
  {
    if a != exit && n > 0 {
      assert Within(before[a], lo, hi) && after[a] == before[a];
      forall k | 0 <= k < |before[a]|
        ensures WalkOn(before, before[a][k], exit, text, n - 1) <==> WalkOn(after, before[a][k], exit, text, n - 1)
      {
        Stable(before, after, lo, hi, exit, before[a][k].target, Rest(before[a][k], text), n - 1);
      }
    }
  }

  lemma StableLeads(before: States, after: States, lo: nat, hi: nat, exit: nat, a: nat, text: string)
    requires Closed(before, lo, hi, exit) && SameInside(before, after, lo, hi, exit) && lo <= a < hi
    ensures Leads(before, a, exit, text) <==> Leads(after, a, exit, text)
  {
    hide Walk, Closed, SameInside;
    if n: nat :| Walk(before, a, exit, text, n) { Stable(before, after, lo, hi, exit, a, text, n); }
    if n: nat :| Walk(after, a, exit, text, n) { Stable(before, after, lo, hi, exit, a, text, n); }
  }

  lemma TakesPrefix(edge: Edge, text: string, k: nat)
    requires Takes(edge, text) && k <= |Rest(edge, text)|
    ensures var k' := if edge.Silent? then k else k + 1;
            && k' <= |text| && Takes(edge, text[..k'])
            && Rest(edge, text[..k']) == Rest(edge, text)[..k] && text[k'..] == Rest(edge, text)[k..]
  {
  }

  lemma TakesMore(edge: Edge, u: string, v: string)
    requires Takes(edge, u)
    ensures Takes(edge, u + v) && Rest(edge, u + v) == Rest(edge, u) + v
  {
    if !edge.Silent? { assert (u + v)[1..] == u[1..] + v; }
  }

  /** A walk that leaves a closed region passes through its exit. */
  lemma {:induction false} PassExit(states: States, lo: nat, hi: nat, exit: nat, t: nat, a: nat, text: string, n: nat)
    returns (k: nat, m: nat)
    requires Closed(states, lo, hi, exit) && lo <= a < hi && !(lo <= t < hi) && Walk(states, a, t, text, n)
    ensures k <= |text| && m <= n && Walk(states, a, exit, text[..k], m) && Walk(states, exit, t, text[k..], n - m)
    decreases n
  {
    if a == exit {
      k, m := 0, 0;
      assert text[..0] == "" && text[0..] == text;
    } else {
      var i := FirstEdge(states, a, t, text, n);
      hide Walk;
      var edge := states[a][i];
      assert Within(states[a], lo, hi);
      var k', m' := PassExit(states, lo, hi, exit, t, edge.target, Rest(edge, text), n - 1);
      TakesPrefix(edge, text, k');
      k, m := if edge.Silent? then k' else k' + 1, m' + 1;
      AlongEdge(states, a, exit, i, text[..k], m');
    }
  }

  lemma {:induction false} JoinAtExit(states: States, lo: nat, hi: nat, exit: nat, t: nat, a: nat, u: string, m: nat, v: string, n: nat)
    requires Closed(states, lo, hi, exit) && lo <= a < hi && !(lo <= t < hi)
    requires Walk(states, a, exit, u, m) && Walk(states, exit, t, v, n)
    ensures Walk(states, a, t, u + v, m + n)
    decreases m
  {
    if a == exit {
      assert u + v == v;
    } else {
      var i := FirstEdge(states, a, exit, u, m);
      hide Walk;
      var edge := states[a][i];
      assert Within(states[a], lo, hi);
      JoinAtExit(states, lo, hi, exit, t, edge.target, Rest(edge, u), m - 1, v, n);
      TakesMore(edge, u, v);
      AlongEdge(states, a, t, i, u + v, m - 1 + n);
    }
  }

  /** From inside a closed region to outside: first to the exit, then on. */
  lemma ThroughExit(states: States, lo: nat, hi: nat, exit: nat, t: nat, a: nat, text: string)
    requires Closed(states, lo, hi, exit) && lo <= a < hi && !(lo <= t < hi)
    ensures Leads(states, a, t, text) <==>
            exists k | 0 <= k <= |text| :: Leads(states, a, exit, text[..k]) && Leads(states, exit, t, text[k..])
  {
    hide Walk, Closed;
    if n: nat :| Walk(states, a, t, text, n) {
      var k, m := PassExit(states, lo, hi, exit, t, a, text, n);
      assert Leads(states, a, exit, text[..k]) && Leads(states, exit, t, text[k..]);
    }
    if k :| 0 <= k <= |text| && Leads(states, a, exit, text[..k]) && Leads(states, exit, t, text[k..]) {
      var m: nat :| Walk(states, a, exit, text[..k], m);
      var n: nat :| Walk(states, exit, t, text[k..], n);
      JoinAtExit(states, lo, hi, exit, t, a, text[..k], m, text[k..], n);
      assert text[..k] + text[k..] == text;
    }
  }

  // ----- Fragments -----

  /** A region with an entry, whose walks to the exit read exactly the texts of `language`. */
  ghost predicate Fragment(states: States, lo: nat, hi: nat, s: nat, e: nat, language: iset<string>) {
    lo <= s < hi && Closed(states, lo, hi, e) && forall text :: Leads(states, s, e, text) <==> text in language
  }

  lemma FragmentStable(before: States, after: States, lo: nat, hi: nat, s: nat, e: nat, language: iset<string>)
    requires Fragment(before, lo, hi, s, e, language) && SameInside(before, after, lo, hi, e)
    ensures Fragment(after, lo, hi, s, e, language)
  {
    hide Leads;
    forall text ensures Leads(after, s, e, text) <==> text in language {
      StableLeads(before, after, lo, hi, e, s, text);
    }
  }

  /** Steps from a state along its edges. */
  lemma LeadsStep(states: States, a: nat, e: nat, text: string)
    requires a < |states| && a != e
    ensures Leads(states, a, e, text) <==>
            exists k | 0 <= k < |states[a]| :: Takes(states[a][k], text) && Leads(states, states[a][k].target, e, Rest(states[a][k], text))
  {
    if n: nat :| Walk(states, a, e, text, n) {
      var k := FirstEdge(states, a, e, text, n);
      assert Leads(states, states[a][k].target, e, Rest(states[a][k], text));
    }
    if k: nat :| 0 <= k < |states[a]| && Takes(states[a][k], text) && Leads(states, states[a][k].target, e, Rest(states[a][k], text)) {
      var n: nat :| Walk(states, states[a][k].target, e, Rest(states[a][k], text), n);
      AlongEdge(states, a, e, k, text, n);
    }
  }

  lemma LeadsHome(states: States, e: nat, text: string)
    ensures Leads(states, e, e, text) <==> text == ""
  {
    if text == "" { assert Walk(states, e, e, text, 0); }
  }
}
