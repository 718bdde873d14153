/** Evaluating rules with compiled patterns, left to right. */
module RuleEvaluator {
  import opened Wrappers
  import opened RuleSyntax
  import opened RuleMeaning
  import TextMatcher

  method EvaluatePlain(r: Rule, env: Env) returns (o: Outcome)
    requires !r.And? && !r.Or? && !r.Not?
    ensures o == EvalPlain(r, env)
  {
    hide InLanguage;
    match r
    case True => o := Ok(true);
    case False => o := Ok(false);
    case I64Range(value, low, high) =>
      if value !in env.values { return Err(MissingValue); }
      if !env.values[value].I64? { return Err(TypeMismatch); }
      o := Ok(InBounds(env.values[value].n, low, high));
    case TextLength(value, least, most) =>
      if value !in env.values { return Err(MissingValue); }
      if !env.values[value].Text? { return Err(TypeMismatch); }
      o := Ok(InBounds(|env.values[value].text|, Some(least), most));
    case TextOneOf(value, allowed) =>
      if value !in env.values { return Err(MissingValue); }
      if !env.values[value].Text? { return Err(TypeMismatch); }
      o := Ok(env.values[value].text in allowed);
    case TextMatches(value, pattern) =>
      if value !in env.values { return Err(MissingValue); }
      if !env.values[value].Text? { return Err(TypeMismatch); }
      var matched := TextMatcher.MatchPattern(pattern, env.values[value].text);
      o := Ok(matched);
    case Equivalent(left, right, equivalence) =>
      if left !in env.values { return Err(MissingValue); }
      if right !in env.values { return Err(MissingValue); }
      var verdict := (env.equivalent)(equivalence, env.values[left], env.values[right]);
      o := if verdict.Some? then Ok(verdict.value) else Err(Semantic);
    case Ordered(left, right, ordering, comparison) =>
      if left !in env.values { return Err(MissingValue); }
      if right !in env.values { return Err(MissingValue); }
      var sign := (env.compare)(ordering, env.values[left], env.values[right]);
      o := if sign.Some? then Ok(Passes(sign.value, comparison)) else Err(Semantic);
  }

  /** The evaluator computes the meaning of every rule, with the automaton standing in for the pattern language. */
  method Evaluate(r: Rule, env: Env) returns (o: Outcome)
    ensures o == Eval(r, env)
    decreases r, 0
  {
    hide EvalPlain, EvalUntil;
    match r
    case And(rules) => o := EvaluateUntil(rules, env, true);
    case Or(rules) => o := EvaluateUntil(rules, env, false);
    case Not(rule) =>
      var inner := Evaluate(rule, env);
      o := Negated(inner);
    case _ => o := EvaluatePlain(r, env);
  }

  method EvaluateUntil(rules: seq<Rule>, env: Env, neutral: bool) returns (o: Outcome)
    ensures o == EvalUntil(rules, env, neutral)
    decreases rules
  {
    hide Eval;
    assert rules[0..] == rules;
    for i := 0 to |rules|
      invariant EvalUntil(rules, env, neutral) == EvalUntil(rules[i..], env, neutral)
    {
      assert rules[i..][1..] == rules[i + 1..];
      var first := Evaluate(rules[i], env);
      if first != Ok(neutral) { return first; }
    }
    o := Ok(neutral);
  }
}
