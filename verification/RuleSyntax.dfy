/** Semantic rule expressions and their canonical identity bytes. */
module RuleSyntax {
  import opened Wrappers
  import opened ByteCodec
  import opened FrameLists

  datatype ValueExpr = Input | Field(id: U128)

  datatype OrderComparison = Below | AtMost | Above | AtLeast

  datatype Pattern =
    | Never
    | Empty
    | Literal(text: string)
    | AnyScalar
    | Concat(parts: seq<Pattern>)
    | Alternate(parts: seq<Pattern>)
    | ZeroOrMore(body: Pattern)

  /** `allowed` lists a sorted set of texts in its order. */
  datatype Rule =
    | True
    | False
    | And(rules: seq<Rule>)
    | Or(rules: seq<Rule>)
    | Not(rule: Rule)
    | I64Range(value: ValueExpr, low: Option<I64>, high: Option<I64>)
    | TextLength(value: ValueExpr, least: U64, most: Option<U64>)
    | TextOneOf(value: ValueExpr, allowed: seq<string>)
    | TextMatches(value: ValueExpr, pattern: Pattern)
    | Equivalent(left: ValueExpr, right: ValueExpr, equivalence: U128)
    | Ordered(left: ValueExpr, right: ValueExpr, ordering: U128, comparison: OrderComparison)

  // ----- Encoding -----

  function EncodeValue(v: ValueExpr): Bytes {
    match v
    case Input => [0]
    case Field(id) => [1] + Id(id)
  }

  function EncodeBound(b: Option<I64>): Bytes {
    match b
    case None => [0]
    case Some(n) => [1] + Signed(n)
  }

  function EncodeMost(b: Option<U64>): Bytes {
    match b
    case None => [0]
    case Some(n) => [1] + Length(n)
  }

  function EncodeComparison(c: OrderComparison): Byte {
    match c
    case Below => 0
    case AtMost => 1
    case Above => 2
    case AtLeast => 3
  }

  /** Frames one after the other, without lengths. */
  function Joined(frames: seq<Bytes>): Bytes {
    if frames == [] then [] else frames[0] + Joined(frames[1..])
  }

  function EncodeTexts(texts: seq<string>): Bytes {
    if texts == [] then [] else Text(texts[0]) + EncodeTexts(texts[1..])
  }

  function EncodePatterns(parts: seq<Pattern>): (frames: seq<Bytes>)
    ensures |frames| == |parts| && forall i | 0 <= i < |parts| :: frames[i] == EncodePattern(parts[i])
  {
    if parts == [] then [] else [EncodePattern(parts[0])] + EncodePatterns(parts[1..])
  }

  function EncodePattern(p: Pattern): (bytes: Bytes)
    ensures bytes != []
  {
    match p
    case Never => [0]
    case Empty => [1]
    case Literal(text) => [2] + Text(text)
    case AnyScalar => [3]
    case Concat(parts) => [4] + (Length(|parts|) + Joined(EncodePatterns(parts)))
    case Alternate(parts) => [5] + FrameList(SortDedup(EncodePatterns(parts)))
    case ZeroOrMore(body) => [6] + EncodePattern(body)
  }

  function EncodeRules(rules: seq<Rule>): (frames: seq<Bytes>)
    ensures |frames| == |rules| && forall i | 0 <= i < |rules| :: frames[i] == EncodeRule(rules[i])
  {
    if rules == [] then [] else [EncodeRule(rules[0])] + EncodeRules(rules[1..])
  }

  function EncodeRule(r: Rule): (bytes: Bytes)
    ensures bytes != []
  {
    match r
    case True => [0]
    case False => [1]
    case And(rules) => [2] + FrameList(SortDedup(EncodeRules(rules)))
    case Or(rules) => [3] + FrameList(SortDedup(EncodeRules(rules)))
    case Not(rule) => [4] + EncodeRule(rule)
    case I64Range(value, low, high) => [5] + (EncodeValue(value) + (EncodeBound(low) + EncodeBound(high)))
    case TextLength(value, least, most) => [6] + (EncodeValue(value) + (Length(least) + EncodeMost(most)))
    case TextOneOf(value, allowed) => [7] + (EncodeValue(value) + (Length(|allowed|) + EncodeTexts(allowed)))
    case TextMatches(value, pattern) => [8] + (EncodeValue(value) + EncodePattern(pattern))
    case Equivalent(left, right, equivalence) => [9] + (EncodeValue(left) + (EncodeValue(right) + Id(equivalence)))
    case Ordered(left, right, ordering, comparison) =>
      [10] + (EncodeValue(left) + (EncodeValue(right) + (Id(ordering) + [EncodeComparison(comparison)])))
  }

  // ----- Sameness up to order and repetition of alternatives -----

  ghost predicate SamePattern(p: Pattern, q: Pattern)
    decreases p, 0
  {
    match p
    case Concat(a) =>
      q.Concat? && |a| == |q.parts| && forall i | 0 <= i < |a| :: SamePattern(a[i], q.parts[i])
    case Alternate(a) =>
      && q.Alternate?
      && (forall i | 0 <= i < |a| :: PatternAmong(a[i], q.parts))
      && (forall j | 0 <= j < |q.parts| :: AmongPatterns(a, q.parts[j]))
    case ZeroOrMore(a) => q.ZeroOrMore? && SamePattern(a, q.body)
    case _ => p == q
  }

  ghost predicate PatternAmong(p: Pattern, b: seq<Pattern>)
    decreases p, 1
  {
    exists j | 0 <= j < |b| :: SamePattern(p, b[j])
  }

  ghost predicate AmongPatterns(a: seq<Pattern>, q: Pattern)
    decreases a
  {
    exists i | 0 <= i < |a| :: SamePattern(a[i], q)
  }

  ghost predicate SameRule(r: Rule, s: Rule)
    decreases r, 0
  {
    match r
    case And(a) =>
      && s.And?
      && (forall i | 0 <= i < |a| :: RuleAmong(a[i], s.rules))
      && (forall j | 0 <= j < |s.rules| :: AmongRules(a, s.rules[j]))
    case Or(a) =>
      && s.Or?
      && (forall i | 0 <= i < |a| :: RuleAmong(a[i], s.rules))
      && (forall j | 0 <= j < |s.rules| :: AmongRules(a, s.rules[j]))
    case Not(a) => s.Not? && SameRule(a, s.rule)
    case TextMatches(value, pattern) => s.TextMatches? && s.value == value && SamePattern(pattern, s.pattern)
    case _ => r == s
  }

  ghost predicate RuleAmong(r: Rule, b: seq<Rule>)
    decreases r, 1
  {
    exists j | 0 <= j < |b| :: SameRule(r, b[j])
  }

  ghost predicate AmongRules(a: seq<Rule>, s: Rule)
    decreases a
  {
    exists i | 0 <= i < |a| :: SameRule(a[i], s)
  }
}
