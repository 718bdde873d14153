/** What rules and patterns mean, and how far their canonical bytes determine it. */
module RuleMeaning {
  import opened Wrappers
  import opened ByteCodec
  import opened RuleSyntax
  import opened RuleIdentity
  import RA = RelationalAlgebra

  // ----- Patterns -----

  /** `text` is in the language of the pattern. */
  ghost predicate InLanguage(p: Pattern, text: string)
    decreases p, |text|, 0
  {
    match p
    case Never => false
    case Empty => text == ""
    case Literal(l) => text == l
    case AnyScalar => |text| == 1
    case Concat(parts) => InConcat(parts, text)
    case Alternate(parts) => exists i | 0 <= i < |parts| :: InLanguage(parts[i], text)
    case ZeroOrMore(body) =>
      text == "" || exists k | 0 < k <= |text| :: InLanguage(body, text[..k]) && InLanguage(p, text[k..])
  }

  /** `text` splits into one piece for each part. */
  ghost predicate InConcat(parts: seq<Pattern>, text: string)
    decreases parts, |text|, 0
  {
    if parts == [] then text == ""
    else exists k | 0 <= k <= |text| :: InLanguage(parts[0], text[..k]) && InConcat(parts[1..], text[k..])
  }

  /** Patterns with the same canonical bytes have the same language. */
  lemma {:induction false} SamePatternSameLanguage(p: Pattern, q: Pattern, text: string)
    requires SamePattern(p, q)
    ensures InLanguage(p, text) <==> InLanguage(q, text)
    decreases p, |text|, 0
  {
    match p
    case Concat(parts) => SamePartsSameLanguage(parts, q.parts, text);
    case Alternate(parts) => SameAlternativesSameLanguage(parts, q.parts, text);
    case ZeroOrMore(body) =>
      forall k | 0 < k <= |text|
        ensures InLanguage(body, text[..k]) && InLanguage(p, text[k..]) <==> InLanguage(q.body, text[..k]) && InLanguage(q, text[k..])
      {
        SamePatternSameLanguage(body, q.body, text[..k]);
        SamePatternSameLanguage(p, q, text[k..]);
      }
    case _ =>
  }

  lemma {:induction false} SamePartsSameLanguage(a: seq<Pattern>, b: seq<Pattern>, text: string)
    requires |a| == |b| && forall i | 0 <= i < |a| :: SamePattern(a[i], b[i])
    ensures InConcat(a, text) <==> InConcat(b, text)
    decreases a, |text|, 0
  {
    if a != [] {
      hide SamePattern, InLanguage;
      forall k | 0 <= k <= |text|
        ensures InLanguage(a[0], text[..k]) && InConcat(a[1..], text[k..]) <==> InLanguage(b[0], text[..k]) && InConcat(b[1..], text[k..])
      {
        SamePatternSameLanguage(a[0], b[0], text[..k]);
        SamePartsSameLanguage(a[1..], b[1..], text[k..]);
      }
    }
  }

  lemma {:induction false} SameAlternativesSameLanguage(a: seq<Pattern>, b: seq<Pattern>, text: string)
    requires forall i | 0 <= i < |a| :: PatternAmong(a[i], b)
    requires forall j | 0 <= j < |b| :: AmongPatterns(a, b[j])
    ensures (exists i | 0 <= i < |a| :: InLanguage(a[i], text)) <==> (exists j | 0 <= j < |b| :: InLanguage(b[j], text))
    decreases a, |text|, 0
  {
    hide SamePattern, InLanguage;
    if i :| 0 <= i < |a| && InLanguage(a[i], text) {
      assert PatternAmong(a[i], b);
      var j :| 0 <= j < |b| && SamePattern(a[i], b[j]);
      SamePatternSameLanguage(a[i], b[j], text);
    }
    if j :| 0 <= j < |b| && InLanguage(b[j], text) {
      assert AmongPatterns(a, b[j]);
      var i :| 0 <= i < |a| && SamePattern(a[i], b[j]);
      SamePatternSameLanguage(a[i], b[j], text);
    }
  }

  // ----- Rules -----

  datatype EvalError = MissingValue | TypeMismatch | Semantic

  type Outcome = Result<bool, EvalError>

  /** What a rule is evaluated against: the values of its coordinates, and the registry's verdicts. */
  datatype Env = Env(
    values: map<ValueExpr, RA.Value>,
    equivalent: (U128, RA.Value, RA.Value) -> Option<bool>,
    compare: (U128, RA.Value, RA.Value) -> Option<int>)

  predicate InBounds(n: int, low: Option<int>, high: Option<int>) {
    (low.Some? ==> n >= low.value) && (high.Some? ==> n <= high.value)
  }

  predicate Passes(sign: int, c: OrderComparison) {
    match c
    case Below => sign < 0
    case AtMost => sign <= 0
    case Above => sign > 0
    case AtLeast => sign >= 0
  }

  /** Rules without inner rules. */
  ghost function EvalPlain(r: Rule, env: Env): Outcome
    requires !r.And? && !r.Or? && !r.Not?
  {
    match r
    case True => Ok(true)
    case False => Ok(false)
    case I64Range(value, low, high) =>
      if value !in env.values then Err(MissingValue)
      else if !env.values[value].I64? then Err(TypeMismatch)
      else Ok(InBounds(env.values[value].n, low, high))
    case TextLength(value, least, most) =>
      if value !in env.values then Err(MissingValue)
      else if !env.values[value].Text? then Err(TypeMismatch)
      else Ok(InBounds(|env.values[value].text|, Some(least), most))
    case TextOneOf(value, allowed) =>
      if value !in env.values then Err(MissingValue)
      else if !env.values[value].Text? then Err(TypeMismatch)
      else Ok(env.values[value].text in allowed)
    case TextMatches(value, pattern) =>
      if value !in env.values then Err(MissingValue)
      else if !env.values[value].Text? then Err(TypeMismatch)
      else Ok(InLanguage(pattern, env.values[value].text))
    case Equivalent(left, right, equivalence) =>
      if left !in env.values || right !in env.values then Err(MissingValue)
      else
        var verdict := (env.equivalent)(equivalence, env.values[left], env.values[right]);
        if verdict.Some? then Ok(verdict.value) else Err(Semantic)
    case Ordered(left, right, ordering, comparison) =>
      if left !in env.values || right !in env.values then Err(MissingValue)
      else
        var sign := (env.compare)(ordering, env.values[left], env.values[right]);
        if sign.Some? then Ok(Passes(sign.value, comparison)) else Err(Semantic)
  }

  /** Evaluation, left to right: a conjunction stops at the first member that is not true, a disjunction at
      the first that is not false, and an error is such a member too. */
  ghost function Eval(r: Rule, env: Env): Outcome
    decreases r
  {
    match r
    case And(rules) => EvalUntil(rules, env, true)
    case Or(rules) => EvalUntil(rules, env, false)
    case Not(rule) => Negated(Eval(rule, env))
    case _ => EvalPlain(r, env)
  }

  ghost function EvalUntil(rules: seq<Rule>, env: Env, neutral: bool): Outcome
    decreases rules
  {
    if rules == [] then Ok(neutral)
    else
      var first := Eval(rules[0], env);
      if first != Ok(neutral) then first else EvalUntil(rules[1..], env, neutral)
  }

  function Negated(o: Outcome): Outcome {
    if o.Ok? then Ok(!o.value) else o
  }

  // ----- Outcomes of all rules with the same bytes -----

  /** Some rule with the same canonical bytes has this outcome. Each member of a conjunction that can be
      something other than true can decide it, by coming first. */
  ghost predicate CanBe(r: Rule, env: Env, o: Outcome)
    decreases r
  {
    match r
    case And(rules) => if o == Ok(true) then AllCanBe(rules, env, o) else SomeCanBe(rules, env, o)
    case Or(rules) => if o == Ok(false) then AllCanBe(rules, env, o) else SomeCanBe(rules, env, o)
    case Not(rule) => CanBe(rule, env, Negated(o))
    case _ => o == EvalPlain(r, env)
  }

  ghost predicate AllCanBe(rules: seq<Rule>, env: Env, o: Outcome)
    decreases rules
  {
    forall i | 0 <= i < |rules| :: CanBe(rules[i], env, o)
  }

  ghost predicate SomeCanBe(rules: seq<Rule>, env: Env, o: Outcome)
    decreases rules
  {
    exists i | 0 <= i < |rules| :: CanBe(rules[i], env, o)
  }

  lemma {:induction false} UntilAllNeutral(rules: seq<Rule>, env: Env, neutral: bool)
    requires forall i | 0 <= i < |rules| :: Eval(rules[i], env) == Ok(neutral)
    ensures EvalUntil(rules, env, neutral) == Ok(neutral)
  {
    if rules != [] {
      hide Eval;
      UntilAllNeutral(rules[1..], env, neutral);
    }
  }

  /** Either every member is neutral, or the outcome is that of one that is not. */
  lemma {:induction false} UntilDecides(rules: seq<Rule>, env: Env, neutral: bool) returns (i: nat)
    ensures EvalUntil(rules, env, neutral) == Ok(neutral) ==> forall j | 0 <= j < |rules| :: Eval(rules[j], env) == Ok(neutral)
    ensures EvalUntil(rules, env, neutral) != Ok(neutral) ==> i < |rules| && Eval(rules[i], env) == EvalUntil(rules, env, neutral)
  {
    i := 0;
    if rules != [] && Eval(rules[0], env) == Ok(neutral) {
      hide Eval;
      var k := UntilDecides(rules[1..], env, neutral);
      i := k + 1;
      assert EvalUntil(rules, env, neutral) == EvalUntil(rules[1..], env, neutral);
      if EvalUntil(rules, env, neutral) == Ok(neutral) {
        forall j | 0 <= j < |rules| ensures Eval(rules[j], env) == Ok(neutral) {
          if j > 0 { assert rules[j] == rules[1..][j - 1]; }
        }
      }
    }
  }

  /** Whatever a rule with the same bytes evaluates to is a possible outcome. */
  lemma {:induction false} SameRuleOutcome(r: Rule, s: Rule, env: Env)
    requires SameRule(r, s)
    ensures CanBe(r, env, Eval(s, env))
    decreases r, 0
  {
    hide RuleAmong, AmongRules, EvalUntil, AllCanBe, SomeCanBe, SamePattern, InLanguage;
    match r
    case And(a) => SameSetOutcome(a, s.rules, env, true);
    case Or(a) => SameSetOutcome(a, s.rules, env, false);
    case Not(a) => SameRuleOutcome(a, s.rule, env);
    case TextMatches(value, pattern) =>
      if value in env.values && env.values[value].Text? {
        SamePatternSameLanguage(pattern, s.pattern, env.values[value].text);
      }
    case _ =>
  }

  lemma {:induction false} SameSetOutcome(a: seq<Rule>, b: seq<Rule>, env: Env, neutral: bool)
    requires forall i | 0 <= i < |a| :: RuleAmong(a[i], b)
    requires forall j | 0 <= j < |b| :: AmongRules(a, b[j])
    ensures EvalUntil(b, env, neutral) == Ok(neutral) ==> AllCanBe(a, env, Ok(neutral))
    ensures EvalUntil(b, env, neutral) != Ok(neutral) ==> SomeCanBe(a, env, EvalUntil(b, env, neutral))
    decreases a, 0
  {
    hide SameRule, CanBe, Eval, EvalUntil;
    var k := UntilDecides(b, env, neutral);
    var o := EvalUntil(b, env, neutral);
    if o == Ok(neutral) {
      forall i | 0 <= i < |a| ensures CanBe(a[i], env, o) {
        assert RuleAmong(a[i], b);
        var j :| 0 <= j < |b| && SameRule(a[i], b[j]);
        SameRuleOutcome(a[i], b[j], env);
      }
    } else {
      assert AmongRules(a, b[k]);
      var i :| 0 <= i < |a| && SameRule(a[i], b[k]);
      SameRuleOutcome(a[i], b[k], env);
    }
  }

  lemma {:induction false} SamePatternReflexive(p: Pattern)
    ensures SamePattern(p, p)
    decreases p
  {
    match p
    case Concat(a) =>
      forall i | 0 <= i < |a| ensures SamePattern(a[i], a[i]) { SamePatternReflexive(a[i]); }
    case Alternate(a) =>
      forall i | 0 <= i < |a| ensures PatternAmong(a[i], a) && AmongPatterns(a, a[i]) { SamePatternReflexive(a[i]); }
    case ZeroOrMore(a) => SamePatternReflexive(a);
    case _ =>
  }

  lemma {:induction false} SameRuleReflexive(r: Rule)
    ensures SameRule(r, r)
    decreases r
  {
    match r
    case And(a) =>
      forall i | 0 <= i < |a| ensures RuleAmong(a[i], a) && AmongRules(a, a[i]) { SameRuleReflexive(a[i]); }
    case Or(a) =>
      forall i | 0 <= i < |a| ensures RuleAmong(a[i], a) && AmongRules(a, a[i]) { SameRuleReflexive(a[i]); }
    case Not(a) => SameRuleReflexive(a);
    case TextMatches(_, pattern) => SamePatternReflexive(pattern);
    case _ =>
  }

  ghost predicate SameMembers(a: seq<Rule>, b: seq<Rule>) {
    && (forall i | 0 <= i < |a| :: RuleAmong(a[i], b))
    && (forall j | 0 <= j < |b| :: AmongRules(a, b[j]))
  }

  /** A member may be repeated in another form at the front. */
  lemma FrontMember(a: seq<Rule>, i: nat, s: Rule)
    requires i < |a| && SameRule(a[i], s)
    ensures SameMembers(a, [s] + a)
  {
    hide SameRule;
    var b := [s] + a;
    forall k | 0 <= k < |a| ensures RuleAmong(a[k], b) {
      SameRuleReflexive(a[k]);
      assert b[k + 1] == a[k];
    }
    forall j | 0 <= j < |b| ensures AmongRules(a, b[j]) {
      if j > 0 {
        SameRuleReflexive(a[j - 1]);
        assert b[j] == a[j - 1];
      }
    }
  }

  /** Every member may be put in another form. */
  lemma EachMember(a: seq<Rule>, b: seq<Rule>)
    requires |a| == |b| && forall i | 0 <= i < |a| :: SameRule(a[i], b[i])
    ensures SameMembers(a, b)
  {
    hide SameRule;
    forall i | 0 <= i < |a| ensures RuleAmong(a[i], b) && AmongRules(a, b[i]) {
      assert SameRule(a[i], b[i]);
    }
  }

  lemma {:induction false} Attain(r: Rule, env: Env, o: Outcome) returns (s: Rule)
    requires CanBe(r, env, o)
    ensures SameRule(r, s) && Eval(s, env) == o
    decreases r, 0
  {
    hide RuleAmong, AmongRules, EvalUntil, AllCanBe, SomeCanBe, SamePattern, InLanguage;
    match r
    case And(a) =>
      var b := AttainSet(a, env, o, true);
      s := And(b);
    case Or(a) =>
      var b := AttainSet(a, env, o, false);
      s := Or(b);
    case Not(a) =>
      var t := Attain(a, env, Negated(o));
      s := Not(t);
    case TextMatches(_, pattern) =>
      SamePatternReflexive(pattern);
      s := r;
    case _ =>
      s := r;
  }

  lemma {:induction false} AttainSet(a: seq<Rule>, env: Env, o: Outcome, neutral: bool) returns (b: seq<Rule>)
    requires if o == Ok(neutral) then AllCanBe(a, env, o) else SomeCanBe(a, env, o)
    ensures (forall i | 0 <= i < |a| :: RuleAmong(a[i], b)) && (forall j | 0 <= j < |b| :: AmongRules(a, b[j]))
    ensures EvalUntil(b, env, neutral) == o
    decreases a, 1
  {
    hide SameRule, CanBe, Eval, RuleAmong, AmongRules;
    if o == Ok(neutral) {
      b := AttainEach(a, env, o);
      EachMember(a, b);
      hide EvalUntil;
      UntilAllNeutral(b, env, neutral);
    } else {
      var i :| 0 <= i < |a| && CanBe(a[i], env, o);
      var s := Attain(a[i], env, o);
      b := [s] + a;
      FrontMember(a, i, s);
    }
  }

  lemma {:induction false} AttainEach(a: seq<Rule>, env: Env, o: Outcome) returns (b: seq<Rule>)
    requires AllCanBe(a, env, o)
    ensures |b| == |a| && forall i | 0 <= i < |a| :: SameRule(a[i], b[i]) && Eval(b[i], env) == o
    decreases a, 0
  {
    hide SameRule, CanBe, Eval;
    if a == [] {
      b := [];
    } else {
      var s := Attain(a[0], env, o);
      var rest := AttainEach(a[1..], env, o);
      b := [s] + rest;
    }
  }

  /** Exactly the possible outcomes are attained by rules with the same canonical bytes. */
  lemma OutcomesOfBytes(r: Rule, env: Env, o: Outcome)
    requires Fits(EncodeRule(r))
    ensures CanBe(r, env, o) <==> exists s :: EncodeRule(s) == EncodeRule(r) && Eval(s, env) == o
  {
    hide *;
    if CanBe(r, env, o) {
      var s := Attain(r, env, o);
      SameEncodes(r, s);
    }
    if s :| EncodeRule(s) == EncodeRule(r) && Eval(s, env) == o {
      EncodesSame(r, s);
      SameRuleOutcome(r, s, env);
    }
  }

  /** Canonical bytes determine the outcome exactly when only one outcome is possible. */
  lemma BytesDetermineOutcomeIff(r: Rule, env: Env)
    requires Fits(EncodeRule(r))
    ensures (forall s | EncodeRule(s) == EncodeRule(r) :: Eval(s, env) == Eval(r, env))
       <==> (forall o :: CanBe(r, env, o) ==> o == Eval(r, env))
  {
    hide *;
    if forall o :: CanBe(r, env, o) ==> o == Eval(r, env) {
      forall s | EncodeRule(s) == EncodeRule(r) ensures Eval(s, env) == Eval(r, env) {
        OutcomesOfBytes(r, env, Eval(s, env));
      }
    } else {
      var o :| CanBe(r, env, o) && o != Eval(r, env);
      OutcomesOfBytes(r, env, o);
      var s :| EncodeRule(s) == EncodeRule(r) && Eval(s, env) == o;
      assert Eval(s, env) != Eval(r, env);
    }
  }

  /** No rule without inner rules reports an error. */
  ghost predicate ErrorFree(r: Rule, env: Env)
    decreases r
  {
    match r
    case And(rules) => forall i | 0 <= i < |rules| :: ErrorFree(rules[i], env)
    case Or(rules) => forall i | 0 <= i < |rules| :: ErrorFree(rules[i], env)
    case Not(rule) => ErrorFree(rule, env)
    case _ => EvalPlain(r, env).Ok?
  }

  lemma {:induction false} ErrorFreeOutcome(r: Rule, env: Env, o: Outcome)
    requires ErrorFree(r, env) && CanBe(r, env, o)
    ensures o == Eval(r, env) && o.Ok?
    decreases r, 0
  {
    hide EvalUntil, AllCanBe, SomeCanBe;
    match r
    case And(rules) => ErrorFreeMembers(rules, env, o, true);
    case Or(rules) => ErrorFreeMembers(rules, env, o, false);
    case Not(rule) => ErrorFreeOutcome(rule, env, Negated(o));
    case _ =>
  }

  lemma {:induction false} ErrorFreeMembers(rules: seq<Rule>, env: Env, o: Outcome, neutral: bool)
    requires forall i | 0 <= i < |rules| :: ErrorFree(rules[i], env)
    requires if o == Ok(neutral) then AllCanBe(rules, env, o) else SomeCanBe(rules, env, o)
    ensures o == EvalUntil(rules, env, neutral) && o.Ok?
    decreases rules
  {
    hide ErrorFree, CanBe, Eval, EvalUntil;
    var k := UntilDecides(rules, env, neutral);
    var e := EvalUntil(rules, env, neutral);
    if o == Ok(neutral) {
      forall i | 0 <= i < |rules| ensures Eval(rules[i], env) == Ok(neutral) {
        assert CanBe(rules[i], env, o);
        ErrorFreeOutcome(rules[i], env, o);
      }
      UntilAllNeutral(rules, env, neutral);
    } else {
      var i :| 0 <= i < |rules| && CanBe(rules[i], env, o);
      ErrorFreeOutcome(rules[i], env, o);
      if e != Ok(neutral) {
        OwnOutcome(rules[k], env);
        ErrorFreeOutcome(rules[k], env, e);
        assert e.value == !neutral && o.value == !neutral;
      }
    }
  }

  lemma OwnOutcome(r: Rule, env: Env)
    ensures CanBe(r, env, Eval(r, env))
  {
    SameRuleReflexive(r);
    SameRuleOutcome(r, r, env);
  }

  /** Where no error arises, rules with the same canonical bytes mean the same. */
  lemma SameBytesSameMeaning(r: Rule, s: Rule, env: Env)
    requires Fits(EncodeRule(r)) && EncodeRule(r) == EncodeRule(s) && ErrorFree(r, env)
    ensures Eval(r, env) == Eval(s, env) && Eval(r, env).Ok?
  {
    hide *;
    EncodesSame(r, s);
    SameRuleOutcome(r, s, env);
    ErrorFreeOutcome(r, env, Eval(s, env));
  }

  /** In general they do not: a missing value is reported only if it is looked at before a false member. */
  lemma SameBytesDifferentOutcomes(env: Env)
    requires Input !in env.values
    ensures var missing := I64Range(Input, None, None);
            var r, s := And([False, missing]), And([missing, False]);
            EncodeRule(r) == EncodeRule(s) && Eval(r, env) == Ok(false) && Eval(s, env) == Err(MissingValue)
  {
    var missing := I64Range(Input, None, None);
    var a, b := [False, missing], [missing, False];
    assert SameRule(False, False) && SameRule(missing, missing);
    assert a[0] == b[1] && a[1] == b[0];
    forall i | 0 <= i < 2 ensures RuleAmong(a[i], b) && AmongRules(a, b[i]) {
      assert SameRule(a[i], b[1 - i]) && SameRule(a[1 - i], b[i]);
    }
    assert SameRule(And(a), And(b));
    SameEncodes(And(a), And(b));
    assert Eval(False, env) == Ok(false) && Eval(missing, env) == Err(MissingValue);
  }
}
