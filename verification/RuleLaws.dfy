/** What rules answer: when a rule errs, and exactly on which values it holds. */
module RuleLaws {
  import opened Wrappers
  import opened ByteCodec
  import opened RuleSyntax
  import opened RuleMeaning
  import RA = RelationalAlgebra

  /** The coordinate has the value. */
  predicate Is(env: Env, v: ValueExpr, value: RA.Value) {
    v in env.values && env.values[v] == value
  }

  /** The one coordinate a rule over a single value reads. */
  function Reads(r: Rule): Option<ValueExpr> {
    match r
    case I64Range(value, _, _) => Some(value)
    case TextLength(value, _, _) => Some(value)
    case TextOneOf(value, _) => Some(value)
    case TextMatches(value, _) => Some(value)
    case _ => None
  }

  predicate Fitting(r: Rule, value: RA.Value) {
    if r.I64Range? then value.I64? else value.Text?
  }

  // ----- Errors -----

  /** A rule over one value errs exactly when the value is missing or of another kind than the rule is about. */
  lemma ErrsIff(r: Rule, env: Env)
    requires Reads(r).Some?
    ensures Eval(r, env) == Err(MissingValue) <==> Reads(r).value !in env.values
    ensures Eval(r, env) == Err(TypeMismatch) <==> Reads(r).value in env.values && !Fitting(r, env.values[Reads(r).value])
    ensures Eval(r, env) != Err(Semantic)
  {
    hide InLanguage;
  }

  /** A comparison errs exactly when a value is missing or the registry has no verdict. */
  lemma ComparisonErrsIff(r: Rule, env: Env)
    requires r.Equivalent? || r.Ordered?
    ensures Eval(r, env) == Err(MissingValue) <==> r.left !in env.values || r.right !in env.values
    ensures Eval(r, env) == Err(Semantic)
       <==> && r.left in env.values && r.right in env.values
            && (r.Equivalent? ==> (env.equivalent)(r.equivalence, env.values[r.left], env.values[r.right]).None?)
            && (r.Ordered? ==> (env.compare)(r.ordering, env.values[r.left], env.values[r.right]).None?)
    ensures Eval(r, env) != Err(TypeMismatch)
  {
  }

  // ----- Ranges -----

  /** A range with both ends at `n` holds of `n` alone. */
  lemma PointRange(v: ValueExpr, n: I64, env: Env)
    ensures Eval(I64Range(v, Some(n), Some(n)), env) == Ok(true) <==> Is(env, v, RA.I64(n))
  {
  }

  /** A range is the conjunction of its two one-sided ranges, errors included. */
  lemma RangeSplits(v: ValueExpr, low: Option<I64>, high: Option<I64>, env: Env)
    ensures Eval(I64Range(v, low, high), env) == Eval(And([I64Range(v, low, None), I64Range(v, None, high)]), env)
  {
    TwoMembers(I64Range(v, low, None), I64Range(v, None, high), env, true);
  }

  /** An upper bound excludes exactly what the next lower bound admits. */
  lemma BoundsComplement(v: ValueExpr, n: I64, m: I64, env: Env)
    requires m == n + 1
    ensures Eval(I64Range(v, Some(m), None), env) == Negated(Eval(I64Range(v, None, Some(n)), env))
  {
  }

  /** Lower bounds admit their bound and everything above it, upper bounds theirs and everything below. */
  lemma RangeHolds(v: ValueExpr, low: Option<I64>, high: Option<I64>, n: int, env: Env)
    requires Is(env, v, RA.I64(n))
    ensures Eval(I64Range(v, None, None), env) == Ok(true)
    ensures low.Some? ==> Eval(I64Range(v, low, None), env) == Ok(low.value <= n)
    ensures high.Some? ==> Eval(I64Range(v, None, high), env) == Ok(n <= high.value)
  {
  }

  // ----- Lengths -----

  /** A text is as long as the number of its scalars: bounds that meet at `n` hold of the texts of that length alone. */
  lemma PointLength(v: ValueExpr, n: U64, env: Env)
    ensures Eval(TextLength(v, n, Some(n)), env) == Ok(true)
       <==> v in env.values && env.values[v].Text? && |env.values[v].text| == n
  {
  }

  lemma LengthSplits(v: ValueExpr, least: U64, most: Option<U64>, env: Env)
    ensures Eval(TextLength(v, least, most), env) == Eval(And([TextLength(v, least, None), TextLength(v, 0, most)]), env)
  {
    TwoMembers(TextLength(v, least, None), TextLength(v, 0, most), env, true);
  }

  lemma LengthsComplement(v: ValueExpr, n: U64, m: U64, env: Env)
    requires m == n + 1
    ensures Eval(TextLength(v, m, None), env) == Negated(Eval(TextLength(v, 0, Some(n)), env))
  {
  }

  lemma LengthHolds(v: ValueExpr, least: U64, most: Option<U64>, text: string, env: Env)
    requires Is(env, v, RA.Text(text))
    ensures Eval(TextLength(v, 0, None), env) == Ok(true)
    ensures Eval(TextLength(v, least, None), env) == Ok(least <= |text|)
    ensures most.Some? ==> Eval(TextLength(v, 0, most), env) == Ok(|text| <= most.value)
  {
  }

  // ----- Choices and patterns -----

  lemma OneOfHolds(v: ValueExpr, allowed: seq<string>, env: Env)
    ensures Eval(TextOneOf(v, allowed), env) == Ok(true)
       <==> exists i | 0 <= i < |allowed| :: Is(env, v, RA.Text(allowed[i]))
  {
    if Eval(TextOneOf(v, allowed), env) == Ok(true) {
      var i :| 0 <= i < |allowed| && allowed[i] == env.values[v].text;
      assert Is(env, v, RA.Text(allowed[i]));
    }
  }

  /** A pattern that is a literal admits that text alone. */
  lemma LiteralHolds(v: ValueExpr, text: string, env: Env)
    ensures Eval(TextMatches(v, Literal(text)), env) == Ok(true) <==> Is(env, v, RA.Text(text))
  {
  }

  // ----- Comparisons -----

  /** An equivalence rule answers with the registry's verdict. */
  lemma EquivalentHolds(left: ValueExpr, right: ValueExpr, equivalence: U128, env: Env, verdict: bool)
    requires left in env.values && right in env.values
    requires (env.equivalent)(equivalence, env.values[left], env.values[right]) == Some(verdict)
    ensures Eval(Equivalent(left, right, equivalence), env) == Ok(verdict)
  {
  }

  /** For one sign the four comparisons are: below exactly of a negative one, above exactly of a positive one, and the
      other two their negations. */
  lemma OrderedHolds(left: ValueExpr, right: ValueExpr, ordering: U128, env: Env, sign: int)
    requires left in env.values && right in env.values
    requires (env.compare)(ordering, env.values[left], env.values[right]) == Some(sign)
    ensures Eval(Ordered(left, right, ordering, Below), env) == Ok(sign < 0)
    ensures Eval(Ordered(left, right, ordering, Above), env) == Ok(sign > 0)
    ensures Eval(Ordered(left, right, ordering, AtMost), env) == Negated(Eval(Ordered(left, right, ordering, Above), env))
    ensures Eval(Ordered(left, right, ordering, AtLeast), env) == Negated(Eval(Ordered(left, right, ordering, Below), env))
  {
  }

  // ----- Connectives -----

  lemma TwoMembers(a: Rule, b: Rule, env: Env, neutral: bool)
    ensures EvalUntil([a, b], env, neutral) == if Eval(a, env) != Ok(neutral) then Eval(a, env) else Eval(b, env)
  {
    hide Eval;
    assert [a, b][1..] == [b] && [b][1..] == [];
    assert EvalUntil([b], env, neutral) == if Eval(b, env) != Ok(neutral) then Eval(b, env) else EvalUntil([], env, neutral);
  }

  /** The outcome is that of the first member that is not neutral, or neutral if there is none. */
  ghost predicate FirstDecides(rules: seq<Rule>, env: Env, neutral: bool, o: Outcome) {
    if o == Ok(neutral) then forall j | 0 <= j < |rules| :: Eval(rules[j], env) == Ok(neutral)
    else exists i | 0 <= i < |rules| :: Eval(rules[i], env) == o && forall j | 0 <= j < i :: Eval(rules[j], env) == Ok(neutral)
  }

  lemma {:induction false} UntilFirst(rules: seq<Rule>, env: Env, neutral: bool)
    ensures FirstDecides(rules, env, neutral, EvalUntil(rules, env, neutral))
  {
    if rules != [] {
      hide Eval;
      var o, rest := EvalUntil(rules, env, neutral), rules[1..];
      UntilFirst(rest, env, neutral);
      if Eval(rules[0], env) == Ok(neutral) {
        assert o == EvalUntil(rest, env, neutral);
        if o == Ok(neutral) {
          forall j | 0 <= j < |rules| ensures Eval(rules[j], env) == Ok(neutral) {
            if j > 0 { assert rules[j] == rest[j - 1]; }
          }
        } else {
          var i :| 0 <= i < |rest| && Eval(rest[i], env) == o && forall j | 0 <= j < i :: Eval(rest[j], env) == Ok(neutral);
          var k := i + 1;
          assert rules[k] == rest[i];
          forall j | 0 <= j < k ensures Eval(rules[j], env) == Ok(neutral) {
            if j > 0 { assert rules[j] == rest[j - 1]; }
          }
        }
      }
    }
  }

  /** A conjunction is true when all members are, and otherwise what its first other member is; a disjunction likewise
      with false; a negation turns true and false round and keeps errors. */
  lemma ConnectivesHold(r: Rule, env: Env)
    ensures r.And? ==> FirstDecides(r.rules, env, true, Eval(r, env))
    ensures r.Or? ==> FirstDecides(r.rules, env, false, Eval(r, env))
    ensures r.Not? ==> (Eval(r, env) == Ok(true) <==> Eval(r.rule, env) == Ok(false))
                       && (Eval(r, env) == Ok(false) <==> Eval(r.rule, env) == Ok(true))
                       && (Eval(r.rule, env).Err? ==> Eval(r, env) == Eval(r.rule, env))
    ensures r.True? ==> Eval(r, env) == Ok(true)
    ensures r.False? ==> Eval(r, env) == Ok(false)
  {
    hide EvalUntil, FirstDecides, EvalPlain;
    match r
    case And(rules) => UntilFirst(rules, env, true);
    case Or(rules) => UntilFirst(rules, env, false);
    case Not(_) =>
    case True => ConstantsHold(env);
    case False => ConstantsHold(env);
    case _ =>
  }

  lemma ConstantsHold(env: Env)
    ensures EvalPlain(True, env) == Ok(true) && EvalPlain(False, env) == Ok(false)
  {
  }
}
