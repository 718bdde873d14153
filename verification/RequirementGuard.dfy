/** The bytes that identify the requirements of a client intent, and the encoders that append them to a
    buffer. */
module RequirementGuard {
  import opened Wrappers
  import opened ByteCodec
  import opened FrameLists
  import opened RuleSyntax
  import opened RuleIdentity

  /** A requirement on one entity; its identity value is carried along but not part of its identity. */
  datatype Requirement = Requirement(relation: U128, entity: U128, identityColumn: U64, identityValue: nat, expression: Rule)

  const HEADER: Bytes :=
    [67, 70, 77, 68, 45, 84, 88, 45, 82, 69, 81, 85, 73, 82, 69, 77, 69, 78, 84, 83, 45, 118, 49, 0]

  function EncodeRequirement(q: Requirement): Bytes {
    Id(q.relation) + (Id(q.entity) + (Length(q.identityColumn) + EncodeRule(q.expression)))
  }

  function EncodeRequirements(qs: seq<Requirement>): (frames: seq<Bytes>)
    ensures |frames| == |qs| && forall i | 0 <= i < |qs| :: frames[i] == EncodeRequirement(qs[i])
  {
    if qs == [] then [] else EncodeRequirements(qs[..|qs| - 1]) + [EncodeRequirement(qs[|qs| - 1])]
  }

  /** What is hashed into the guard; there is no guard without requirements. */
  function GuardBytes(qs: seq<Requirement>): Option<Bytes> {
    if qs == [] then None else Some(HEADER + FrameList(SortDedup(EncodeRequirements(qs))))
  }

  // ----- Identity -----

  predicate GuardFits(qs: seq<Requirement>) {
    Fits(FrameList(SortDedup(EncodeRequirements(qs))))
  }

  ghost predicate SameRequirement(a: Requirement, b: Requirement) {
    a.relation == b.relation && a.entity == b.entity && a.identityColumn == b.identityColumn && SameRule(a.expression, b.expression)
  }

  /** A requirement's bytes determine it up to sameness of its rule, and nothing depends on the identity value. */
  lemma RequirementIdentity(a: Requirement, b: Requirement)
    requires Fits(EncodeRequirement(a)) && Fits(EncodeRequirement(b))
    ensures EncodeRequirement(a) == EncodeRequirement(b) <==> SameRequirement(a, b)
  {
    hide Id, Length, EncodeRule, SameRule;
    Identity(a.expression, b.expression);
    if EncodeRequirement(a) == EncodeRequirement(b) {
      var ra, rb := Length(a.identityColumn) + EncodeRule(a.expression), Length(b.identityColumn) + EncodeRule(b.expression);
      SameLengthPrefix(Id(a.relation), Id(b.relation), Id(a.entity) + ra, Id(b.entity) + rb);
      SameLengthPrefix(Id(a.entity), Id(b.entity), ra, rb);
      SameLengthPrefix(Length(a.identityColumn), Length(b.identityColumn), EncodeRule(a.expression), EncodeRule(b.expression));
      IdInjective(a.relation, b.relation);
      IdInjective(a.entity, b.entity);
      LengthInjective(a.identityColumn, b.identityColumn);
    }
  }

  /** The guard depends only on the set of requirement encodings, and determines it. */
  lemma GuardDeterminesEncodings(a: seq<Requirement>, b: seq<Requirement>)
    requires GuardFits(a) && GuardFits(b)
    ensures GuardBytes(a) == GuardBytes(b) <==> SameElements(EncodeRequirements(a), EncodeRequirements(b))
  {
    hide FrameList, SortDedup, EncodeRequirement;
    var ea, eb := EncodeRequirements(a), EncodeRequirements(b);
    FramesIdentity(ea, eb);
    if a != [] && b != [] {
      var la, lb := FrameList(SortDedup(ea)), FrameList(SortDedup(eb));
      if GuardBytes(a) == GuardBytes(b) {
        SameLengthPrefix(HEADER, HEADER, la, lb);
      } else {
        assert la != lb;
      }
    } else {
      assert ea == [] || ea[0] in ea;
      assert eb == [] || eb[0] in eb;
    }
  }

  ghost predicate RequirementAmong(q: Requirement, b: seq<Requirement>) {
    exists j | 0 <= j < |b| :: SameRequirement(q, b[j])
  }

  ghost predicate Covered(a: seq<Requirement>, b: seq<Requirement>) {
    forall i | 0 <= i < |a| :: RequirementAmong(a[i], b)
  }

  lemma AmongIffEncoded(a: seq<Requirement>, b: seq<Requirement>, i: nat)
    requires GuardFits(a) && GuardFits(b) && i < |a|
    ensures RequirementAmong(a[i], b) <==> EncodeRequirements(a)[i] in EncodeRequirements(b)
  {
    hide SameRequirement, EncodeRequirement, FrameList, SortDedup;
    var ea, eb := EncodeRequirements(a), EncodeRequirements(b);
    forall j | 0 <= j < |b| ensures ea[i] == eb[j] <==> SameRequirement(a[i], b[j]) {
      FrameFits(ea, ea[i]);
      FrameFits(eb, eb[j]);
      RequirementIdentity(a[i], b[j]);
    }
  }

  ghost predicate AllIn(ea: seq<Bytes>, eb: seq<Bytes>) {
    forall i | 0 <= i < |ea| :: ea[i] in eb
  }

  lemma CoveredIff(a: seq<Requirement>, b: seq<Requirement>)
    requires GuardFits(a) && GuardFits(b)
    ensures Covered(a, b) <==> AllIn(EncodeRequirements(a), EncodeRequirements(b))
  {
    hide RequirementAmong, EncodeRequirement, GuardFits;
    forall i | 0 <= i < |a| ensures RequirementAmong(a[i], b) <==> EncodeRequirements(a)[i] in EncodeRequirements(b) {
      AmongIffEncoded(a, b, i);
    }
  }

  /** Two lists of requirements get the same guard exactly when each requirement of the one is, up to order and
      repetition of rule members, a requirement of the other. */
  lemma GuardIdentity(a: seq<Requirement>, b: seq<Requirement>)
    requires GuardFits(a) && GuardFits(b)
    ensures GuardBytes(a) == GuardBytes(b) <==> Covered(a, b) && Covered(b, a)
  {
    hide Covered, EncodeRequirement, FrameList, SortDedup, GuardBytes, GuardFits;
    GuardDeterminesEncodings(a, b);
    MembersIff(EncodeRequirements(a), EncodeRequirements(b));
    hide SameElements;
    CoveredIff(a, b);
    CoveredIff(b, a);
  }

  // ----- The encoders -----

  class Buffer {
    var bytes: Bytes

    constructor ()
      ensures bytes == []
    {
      bytes := [];
    }

    method Push(b: Byte)
      modifies this
      ensures bytes == old(bytes) + [b]
    {
      bytes := bytes + [b];
    }

    method Extend(more: Bytes)
      modifies this
      ensures bytes == old(bytes) + more
    {
      bytes := bytes + more;
    }

    method PushText(text: string)
      modifies this
      ensures bytes == old(bytes) + Text(text)
    {
      Extend(Length(|Utf8(text)|));
      Extend(Utf8(text));
    }

    method PushValue(v: ValueExpr)
      modifies this
      ensures bytes == old(bytes) + EncodeValue(v)
    {
      match v
      case Input => Push(0);
      case Field(id) =>
        Push(1);
        Extend(Id(id));
    }

    method PushBound(b: Option<I64>)
      modifies this
      ensures bytes == old(bytes) + EncodeBound(b)
    {
      match b
      case None => Push(0);
      case Some(n) =>
        Push(1);
        Extend(Signed(n));
    }

    method PushMost(b: Option<U64>)
      modifies this
      ensures bytes == old(bytes) + EncodeMost(b)
    {
      match b
      case None => Push(0);
      case Some(n) =>
        Push(1);
        Extend(Length(n));
    }

    method PushTexts(texts: seq<string>)
      modifies this
      ensures bytes == old(bytes) + EncodeTexts(texts)
    {
      hide Text;
      for i := 0 to |texts|
        invariant bytes + EncodeTexts(texts[i..]) == old(bytes) + EncodeTexts(texts)
      {
        InARow(bytes, Text(texts[i]), EncodeTexts(texts[i + 1..]));
        assert texts[i..][1..] == texts[i + 1..];
        PushText(texts[i]);
      }
    }

    /** Sorts the frames, drops repetitions, and writes the rest behind their count and lengths. */
    method PushFrames(frames: seq<Bytes>)
      modifies this
      ensures bytes == old(bytes) + FrameList(SortDedup(frames))
    {
      hide SortDedup, Length;
      var sorted := SortDedup(frames);
      Extend(Length(|sorted|));
      ghost var start := bytes;
      for i := 0 to |sorted|
        invariant bytes + Framed(sorted[i..]) == start + Framed(sorted)
      {
        FramedFirst(sorted[i..], []);
        assert sorted[i..][1..] == sorted[i + 1..];
        Regroup(bytes, Length(|sorted[i]|), sorted[i], Framed(sorted[i + 1..]));
        Extend(Length(|sorted[i]|));
        Extend(sorted[i]);
      }
      InARow(old(bytes), Length(|sorted|), Framed(sorted));
    }
  }

  method EncodePatternInto(out: Buffer, p: Pattern)
    modifies out
    ensures out.bytes == old(out.bytes) + EncodePattern(p)
    decreases p, 0
  {
    hide FrameList, SortDedup, Text, Length, Joined;
    match p
    case Never => out.Push(0);
    case Empty => out.Push(1);
    case Literal(text) =>
      out.Push(2);
      out.PushText(text);
      InARow(old(out.bytes), [2], Text(text));
    case AnyScalar => out.Push(3);
    case Concat(parts) =>
      out.Push(4);
      out.Extend(Length(|parts|));
      EncodeParts(out, parts);
      InARow(old(out.bytes), [4], Length(|parts|) + Joined(EncodePatterns(parts)));
      InARow(old(out.bytes) + [4], Length(|parts|), Joined(EncodePatterns(parts)));
    case Alternate(parts) =>
      out.Push(5);
      var frames := PatternFrames(parts);
      out.PushFrames(frames);
      InARow(old(out.bytes), [5], FrameList(SortDedup(frames)));
    case ZeroOrMore(body) =>
      out.Push(6);
      EncodePatternInto(out, body);
      InARow(old(out.bytes), [6], EncodePattern(body));
  }

  method EncodeParts(out: Buffer, parts: seq<Pattern>)
    modifies out
    ensures out.bytes == old(out.bytes) + Joined(EncodePatterns(parts))
    decreases parts
  {
    hide EncodePattern;
    for i := 0 to |parts|
      invariant out.bytes + Joined(EncodePatterns(parts[i..])) == old(out.bytes) + Joined(EncodePatterns(parts))
    {
      PartsFirst(parts[i..], []);
      assert parts[i..][1..] == parts[i + 1..];
      InARow(out.bytes, EncodePattern(parts[i]), Joined(EncodePatterns(parts[i + 1..])));
      EncodePatternInto(out, parts[i]);
    }
  }

  method PatternFrames(parts: seq<Pattern>) returns (frames: seq<Bytes>)
    ensures frames == EncodePatterns(parts)
    decreases parts
  {
    hide EncodePattern;
    frames := [];
    for i := 0 to |parts|
      invariant |frames| == i && forall k | 0 <= k < i :: frames[k] == EncodePattern(parts[k])
    {
      var frame := new Buffer();
      EncodePatternInto(frame, parts[i]);
      frames := frames + [frame.bytes];
    }
  }

  method EncodeRuleInto(out: Buffer, r: Rule)
    modifies out
    ensures out.bytes == old(out.bytes) + EncodeRule(r)
    decreases r, 0
  {
    hide FrameList, SortDedup, EncodePattern, EncodeValue, EncodeTexts, EncodeBound, EncodeMost, Id, Length;
    match r
    case True => out.Push(0);
    case False => out.Push(1);
    case And(rules) =>
      out.Push(2);
      var frames := RuleFrames(rules);
      out.PushFrames(frames);
      InARow(old(out.bytes), [2], FrameList(SortDedup(frames)));
    case Or(rules) =>
      out.Push(3);
      var frames := RuleFrames(rules);
      out.PushFrames(frames);
      InARow(old(out.bytes), [3], FrameList(SortDedup(frames)));
    case Not(rule) =>
      out.Push(4);
      EncodeRuleInto(out, rule);
      InARow(old(out.bytes), [4], EncodeRule(rule));
    case _ => EncodePlainInto(out, r);
  }

  method RuleFrames(rules: seq<Rule>) returns (frames: seq<Bytes>)
    ensures frames == EncodeRules(rules)
    decreases rules
  {
    hide EncodeRule;
    frames := [];
    for i := 0 to |rules|
      invariant |frames| == i && forall k | 0 <= k < i :: frames[k] == EncodeRule(rules[k])
    {
      var frame := new Buffer();
      EncodeRuleInto(frame, rules[i]);
      frames := frames + [frame.bytes];
    }
  }

  lemma InFour(o: Bytes, t: Bytes, a: Bytes, b: Bytes, c: Bytes)
    ensures o + t + a + b + c == o + (t + (a + (b + c)))
  {
  }

  lemma InFive(o: Bytes, t: Bytes, a: Bytes, b: Bytes, c: Bytes, d: Bytes)
    ensures o + t + a + b + c + d == o + (t + (a + (b + (c + d))))
  {
  }

  /** Rules without inner rules. */
  method EncodePlainInto(out: Buffer, r: Rule)
    requires !r.And? && !r.Or? && !r.Not? && !r.True? && !r.False?
    modifies out
    ensures out.bytes == old(out.bytes) + EncodeRule(r)
  {
    hide FrameList, SortDedup, EncodePattern, EncodeValue, EncodeTexts, EncodeBound, EncodeMost, Id, Length;
    ghost var o := out.bytes;
    match r
    case I64Range(value, low, high) =>
      out.Push(5);
      out.PushValue(value);
      out.PushBound(low);
      out.PushBound(high);
      InFour(o, [5], EncodeValue(value), EncodeBound(low), EncodeBound(high));
    case TextLength(value, least, most) =>
      out.Push(6);
      out.PushValue(value);
      out.Extend(Length(least));
      out.PushMost(most);
      InFour(o, [6], EncodeValue(value), Length(least), EncodeMost(most));
    case TextOneOf(value, allowed) =>
      out.Push(7);
      out.PushValue(value);
      out.Extend(Length(|allowed|));
      out.PushTexts(allowed);
      InFour(o, [7], EncodeValue(value), Length(|allowed|), EncodeTexts(allowed));
    case TextMatches(value, pattern) =>
      out.Push(8);
      out.PushValue(value);
      EncodePatternInto(out, pattern);
      InFour(o, [8], EncodeValue(value), EncodePattern(pattern), []);
    case Equivalent(left, right, equivalence) =>
      out.Push(9);
      out.PushValue(left);
      out.PushValue(right);
      out.Extend(Id(equivalence));
      InFour(o, [9], EncodeValue(left), EncodeValue(right), Id(equivalence));
    case Ordered(left, right, ordering, comparison) =>
      out.Push(10);
      out.PushValue(left);
      out.PushValue(right);
      out.Extend(Id(ordering));
      out.Push(EncodeComparison(comparison));
      InFive(o, [10], EncodeValue(left), EncodeValue(right), Id(ordering), [EncodeComparison(comparison)]);
  }

  method EncodeOne(q: Requirement) returns (bytes: Bytes)
    ensures bytes == EncodeRequirement(q)
  {
    hide EncodeRule, Id, Length;
    var out := new Buffer();
    out.Extend(Id(q.relation));
    out.Extend(Id(q.entity));
    out.Extend(Length(q.identityColumn));
    EncodeRuleInto(out, q.expression);
    bytes := out.bytes;
    InFour([], Id(q.relation), Id(q.entity), Length(q.identityColumn), EncodeRule(q.expression));
  }

  method ClientGuard(requirements: seq<Requirement>) returns (guard: Option<Bytes>)
    ensures guard == GuardBytes(requirements)
  {
    hide EncodeRequirement, FrameList, SortDedup;
    if requirements == [] { return None; }
    var encoded := [];
    for i := 0 to |requirements|
      invariant |encoded| == i && forall k | 0 <= k < i :: encoded[k] == EncodeRequirement(requirements[k])
    {
      var one := EncodeOne(requirements[i]);
      encoded := encoded + [one];
    }
    assert encoded == EncodeRequirements(requirements);
    var canonical := new Buffer();
    canonical.Extend(HEADER);
    assert canonical.bytes == HEADER;
    canonical.PushFrames(encoded);
    guard := Some(canonical.bytes);
  }
}
