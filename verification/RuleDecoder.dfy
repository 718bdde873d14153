/** The layout of canonical rule bytes, told by a reader that shares nothing with the encoders: reading what was written
    gives the rule back, up to order and repetition of alternatives. */
module RuleDecoder {
  import opened Wrappers
  import opened ByteCodec
  import opened FrameLists
  import opened RuleSyntax
  import opened RuleIdentity

  datatype Malformed = Malformed

  /** What was read, and the bytes behind it. */
  type Read<T> = Result<(T, Bytes), Malformed>

  // ----- Fields -----

  function ReadByte(b: Bytes): Read<Byte> {
    if b == [] then Err(Malformed) else Ok((b[0], b[1..]))
  }

  function ReadLength(b: Bytes): Read<nat> {
    if |b| < 8 then Err(Malformed) else Ok((Number(b[..8]), b[8..]))
  }

  function ReadId(b: Bytes): Read<U128> {
    if |b| < 16 || Number(b[..16]) >= U128_LIMIT then Err(Malformed) else Ok((Number(b[..16]), b[16..]))
  }

  function ReadNumber(b: Bytes): Read<I64> {
    if |b| < 8 || !(-0x8000_0000_0000_0000 <= ReadSigned(b[..8]) < 0x8000_0000_0000_0000) then Err(Malformed)
    else Ok((ReadSigned(b[..8]), b[8..]))
  }

  function ReadBytes(n: nat, b: Bytes): Read<Bytes> {
    if |b| < n then Err(Malformed) else Ok((b[..n], b[n..]))
  }

  function ToChar(n: nat): char {
    if n < 0xD800 || 0xE000 <= n < 0x11_0000 then n as char else '?'
  }

  function ToText(scalars: seq<nat>): string {
    seq(|scalars|, i requires 0 <= i < |scalars| => ToChar(scalars[i]))
  }

  function ReadText(b: Bytes): Read<string> {
    var length :- ReadLength(b);
    var bytes :- ReadBytes(length.0, length.1);
    Ok((ToText(ReadUtf8(bytes.0)), bytes.1))
  }

  function ReadValue(b: Bytes): Read<ValueExpr> {
    var tag :- ReadByte(b);
    if tag.0 == 0 then Ok((Input, tag.1))
    else if tag.0 == 1 then
      var id :- ReadId(tag.1);
      Ok((Field(id.0), id.1))
    else Err(Malformed)
  }

  function ReadBound(b: Bytes): Read<Option<I64>> {
    var tag :- ReadByte(b);
    if tag.0 == 0 then Ok((None, tag.1))
    else if tag.0 == 1 then
      var n :- ReadNumber(tag.1);
      Ok((Some(n.0), n.1))
    else Err(Malformed)
  }

  function ReadMost(b: Bytes): Read<Option<U64>> {
    var tag :- ReadByte(b);
    if tag.0 == 0 then Ok((None, tag.1))
    else if tag.0 == 1 then
      var n :- ReadLength(tag.1);
      if n.0 < U64_LIMIT then Ok((Some(n.0), n.1)) else Err(Malformed)
    else Err(Malformed)
  }

  function ReadComparison(b: Bytes): Read<OrderComparison> {
    var tag :- ReadByte(b);
    if tag.0 < 4 then Ok(([Below, AtMost, Above, AtLeast][tag.0], tag.1)) else Err(Malformed)
  }

  function ReadTexts(n: nat, b: Bytes): Read<seq<string>> {
    if n == 0 then Ok(([], b))
    else
      var first :- ReadText(b);
      var rest :- ReadTexts(n - 1, first.1);
      Ok(([first.0] + rest.0, rest.1))
  }

  function ReadFramed(n: nat, b: Bytes): (r: Read<seq<Bytes>>)
    ensures r.Ok? ==> forall f | f in r.value.0 :: |f| <= |b|
  {
    if n == 0 then Ok(([], b))
    else
      var length :- ReadLength(b);
      var frame :- ReadBytes(length.0, length.1);
      var rest :- ReadFramed(n - 1, frame.1);
      Ok(([frame.0] + rest.0, rest.1))
  }

  function ReadFrames(b: Bytes): (r: Read<seq<Bytes>>)
    ensures r.Ok? ==> forall f | f in r.value.0 :: |f| <= |b|
  {
    var count :- ReadLength(b);
    ReadFramed(count.0, count.1)
  }

  // ----- Patterns and rules -----

  function ReadPattern(b: Bytes): Read<Pattern>
    decreases |b|, 1
  {
    var tag :- ReadByte(b);
    match tag.0
    case 0 => Ok((Never, tag.1))
    case 1 => Ok((Empty, tag.1))
    case 2 =>
      var text :- ReadText(tag.1);
      Ok((Literal(text.0), text.1))
    case 3 => Ok((AnyScalar, tag.1))
    case 4 =>
      var count :- ReadLength(tag.1);
      var parts :- ReadParts(count.0, count.1);
      Ok((Concat(parts.0), parts.1))
    case 5 =>
      var frames :- ReadFrames(tag.1);
      var parts :- ReadPatterns(frames.0, |b|);
      Ok((Alternate(parts), frames.1))
    case 6 =>
      var body :- ReadPattern(tag.1);
      Ok((ZeroOrMore(body.0), body.1))
    case _ => Err(Malformed)
  }

  /** So many patterns, one after the other. */
  function ReadParts(n: nat, b: Bytes): Read<seq<Pattern>>
    decreases |b|, 2, n
  {
    if n == 0 then Ok(([], b))
    else
      var first :- ReadPattern(b);
      if |first.1| > |b| then Err(Malformed)
      else
        var rest :- ReadParts(n - 1, first.1);
        Ok(([first.0] + rest.0, rest.1))
  }

  /** One pattern to a frame. */
  function ReadPatterns(frames: seq<Bytes>, limit: nat): Result<seq<Pattern>, Malformed>
    requires forall f | f in frames :: |f| < limit
    decreases limit, 0, |frames|
  {
    if frames == [] then Ok([])
    else
      var first :- ReadPattern(frames[0]);
      var rest :- ReadPatterns(frames[1..], limit);
      if first.1 == [] then Ok([first.0] + rest) else Err(Malformed)
  }

  function ReadRule(b: Bytes): Read<Rule>
    decreases |b|, 1
  {
    var tag :- ReadByte(b);
    match tag.0
    case 0 => Ok((True, tag.1))
    case 1 => Ok((False, tag.1))
    case 2 =>
      var frames :- ReadFrames(tag.1);
      var rules :- ReadRules(frames.0, |b|);
      Ok((And(rules), frames.1))
    case 3 =>
      var frames :- ReadFrames(tag.1);
      var rules :- ReadRules(frames.0, |b|);
      Ok((Or(rules), frames.1))
    case 4 =>
      var rule :- ReadRule(tag.1);
      Ok((Not(rule.0), rule.1))
    case _ => ReadPlain(tag.0, tag.1)
  }

  /** One rule to a frame. */
  function ReadRules(frames: seq<Bytes>, limit: nat): Result<seq<Rule>, Malformed>
    requires forall f | f in frames :: |f| < limit
    decreases limit, 0, |frames|
  {
    if frames == [] then Ok([])
    else
      var first :- ReadRule(frames[0]);
      var rest :- ReadRules(frames[1..], limit);
      if first.1 == [] then Ok([first.0] + rest) else Err(Malformed)
  }

  /** A rule without inner rules, behind its tag. */
  function ReadPlain(tag: Byte, b: Bytes): Read<Rule> {
    var v :- ReadValue(b);
    match tag
    case 5 =>
      var low :- ReadBound(v.1);
      var high :- ReadBound(low.1);
      Ok((I64Range(v.0, low.0, high.0), high.1))
    case 6 =>
      var least :- ReadLength(v.1);
      var most :- ReadMost(least.1);
      if least.0 < U64_LIMIT then Ok((TextLength(v.0, least.0, most.0), most.1)) else Err(Malformed)
    case 7 =>
      var count :- ReadLength(v.1);
      var texts :- ReadTexts(count.0, count.1);
      Ok((TextOneOf(v.0, texts.0), texts.1))
    case 8 =>
      var pattern :- ReadPattern(v.1);
      Ok((TextMatches(v.0, pattern.0), pattern.1))
    case 9 =>
      var right :- ReadValue(v.1);
      var id :- ReadId(right.1);
      Ok((Equivalent(v.0, right.0, id.0), id.1))
    case 10 =>
      var right :- ReadValue(v.1);
      var id :- ReadId(right.1);
      var comparison :- ReadComparison(id.1);
      Ok((Ordered(v.0, right.0, id.0, comparison.0), comparison.1))
    case _ => Err(Malformed)
  }

  // ----- Reading back fields -----

  lemma TagReads(tag: Byte, rest: Bytes, x: Bytes)
    ensures ReadByte(([tag] + rest) + x) == Ok((tag, rest + x))
  {
    assert (([tag] + rest) + x)[1..] == rest + x;
  }

  lemma BytesRead(a: Bytes, x: Bytes)
    ensures ReadBytes(|a|, a + x) == Ok((a, x))
    ensures (a + x)[..|a|] == a && (a + x)[|a|..] == x
  {
  }

  lemma LengthReads(n: nat, x: Bytes)
    requires n < U64_LIMIT
    ensures ReadLength(Length(n) + x) == Ok((n, x))
  {
    hide Length, Number;
    BytesRead(Length(n), x);
    LengthAndIdRoundTrip(n, 0);
  }

  lemma IdReads(id: U128, x: Bytes)
    ensures ReadId(Id(id) + x) == Ok((id, x))
  {
    hide Id, Number;
    BytesRead(Id(id), x);
    LengthAndIdRoundTrip(0, id);
  }

  lemma NumberReads(n: I64, x: Bytes)
    ensures ReadNumber(Signed(n) + x) == Ok((n, x))
  {
    hide Signed, ReadSigned;
    BytesRead(Signed(n), x);
    SignedRoundTrip(n);
  }

  lemma ScalarsRead(text: string)
    ensures ToText(Scalars(text)) == text
  {
  }

  lemma TextReads(text: string, x: Bytes)
    requires Fits(Text(text))
    ensures ReadText(Text(text) + x) == Ok((text, x))
  {
    hide Length, Utf8, ReadUtf8, ToText, ReadLength, ReadBytes;
    assert Text(text) + x == Length(|Utf8(text)|) + (Utf8(text) + x);
    LengthReads(|Utf8(text)|, Utf8(text) + x);
    BytesRead(Utf8(text), x);
    Utf8RoundTrip(text);
    ScalarsRead(text);
  }

  lemma ValueReads(v: ValueExpr, x: Bytes)
    ensures ReadValue(EncodeValue(v) + x) == Ok((v, x))
  {
    hide Id, ReadId;
    match v
    case Input =>
      assert ([0] + x)[1..] == x;
    case Field(id) =>
      TagReads(1, Id(id), x);
      IdReads(id, x);
  }

  lemma BoundReads(v: Option<I64>, x: Bytes)
    ensures ReadBound(EncodeBound(v) + x) == Ok((v, x))
  {
    hide Signed, ReadNumber;
    match v
    case None =>
      assert ([0] + x)[1..] == x;
    case Some(n) =>
      TagReads(1, Signed(n), x);
      NumberReads(n, x);
  }

  lemma MostReads(v: Option<U64>, x: Bytes)
    ensures ReadMost(EncodeMost(v) + x) == Ok((v, x))
  {
    hide Length, ReadLength;
    match v
    case None =>
      assert ([0] + x)[1..] == x;
    case Some(n) =>
      TagReads(1, Length(n), x);
      LengthReads(n, x);
  }

  lemma ComparisonReads(c: OrderComparison, x: Bytes)
    ensures ReadComparison([EncodeComparison(c)] + x) == Ok((c, x))
  {
    assert ([EncodeComparison(c)] + x)[1..] == x;
  }

  lemma {:induction false} TextsRead(texts: seq<string>, x: Bytes)
    requires Fits(EncodeTexts(texts))
    ensures ReadTexts(|texts|, EncodeTexts(texts) + x) == Ok((texts, x))
  {
    if texts == [] {
      assert EncodeTexts(texts) + x == x;
    } else {
      TextsSize(texts);
      TextsFirst(texts, x);
      hide Text, ReadText, EncodeTexts;
      TextReads(texts[0], EncodeTexts(texts[1..]) + x);
      TextsRead(texts[1..], x);
    }
  }

  lemma {:induction false} FramedReads(frames: seq<Bytes>, x: Bytes)
    requires Fits(Framed(frames))
    ensures ReadFramed(|frames|, Framed(frames) + x) == Ok((frames, x))
  {
    if frames == [] {
      assert Framed(frames) + x == x;
    } else {
      hide Framed, Length, ReadLength, ReadBytes;
      var f, rest := frames[0], Framed(frames[1..]) + x;
      FramedFirst(frames, x);
      LengthReads(|f|, f + rest);
      BytesRead(f, rest);
      FramedReads(frames[1..], x);
    }
  }

  lemma FramesRead(frames: seq<Bytes>, x: Bytes)
    requires Fits(FrameList(frames))
    ensures ReadFrames(FrameList(frames) + x) == Ok((frames, x))
  {
    hide FrameList, Framed, Length, ReadLength, ReadFramed;
    FrameListParts(frames, x);
    LengthReads(|frames|, Framed(frames) + x);
    FramedReads(frames, x);
  }

  // ----- Reading back patterns -----

  ghost predicate WholePattern(f: Bytes) {
    ReadPattern(f).Ok? && ReadPattern(f).value.1 == []
  }

  lemma {:induction false} PatternsRead(frames: seq<Bytes>, limit: nat)
    requires forall f | f in frames :: |f| < limit
    requires forall f | f in frames :: WholePattern(f)
    ensures ReadPatterns(frames, limit).Ok? && |ReadPatterns(frames, limit).value| == |frames|
    ensures forall i | 0 <= i < |frames| ::
              WholePattern(frames[i]) && ReadPatterns(frames, limit).value[i] == ReadPattern(frames[i]).value.0
  {
    if frames != [] {
      assert WholePattern(frames[0]);
      hide ReadPattern;
      PatternsRead(frames[1..], limit);
      var rest := ReadPatterns(frames[1..], limit).value;
      assert forall i | 1 <= i < |frames| :: frames[i] == frames[1..][i - 1];
    }
  }

  /** Reading a pattern's bytes gives it back up to order and repetition of alternatives, and ends where they end. */
  lemma {:induction false} PatternReads(p: Pattern, x: Bytes)
    requires Fits(EncodePattern(p))
    ensures ReadPattern(EncodePattern(p) + x).Ok? && ReadPattern(EncodePattern(p) + x).value.1 == x
    ensures SamePattern(p, ReadPattern(EncodePattern(p) + x).value.0)
    decreases p, 0
  {
    hide Text, ReadText, Length, ReadLength, ReadFrames, FrameList, SortDedup, Joined, EncodePatterns, ReadParts, ReadPatterns;
    match p
    case Never =>
      TagReads(0, [], x);
    case Empty =>
      TagReads(1, [], x);
    case Literal(text) =>
      TagReads(2, Text(text), x);
      TextReads(text, x);
    case AnyScalar =>
      TagReads(3, [], x);
    case Concat(parts) =>
      var body := Length(|parts|) + Joined(EncodePatterns(parts));
      TagReads(4, body, x);
      assert body + x == Length(|parts|) + (Joined(EncodePatterns(parts)) + x);
      JoinedSize(EncodePatterns(parts));
      LengthReads(|parts|, Joined(EncodePatterns(parts)) + x);
      PartsRead(parts, x);
    case Alternate(parts) =>
      var frames := SortDedup(EncodePatterns(parts));
      TagReads(5, FrameList(frames), x);
      FramesRead(frames, x);
      AlternativesRead(parts, |EncodePattern(p) + x|);
    case ZeroOrMore(body) =>
      TagReads(6, EncodePattern(body), x);
      PatternReads(body, x);
  }

  lemma {:induction false} PartsRead(ps: seq<Pattern>, x: Bytes)
    requires Fits(Joined(EncodePatterns(ps)))
    ensures var r := ReadParts(|ps|, Joined(EncodePatterns(ps)) + x);
            && r.Ok? && r.value.1 == x && |r.value.0| == |ps|
            && forall i | 0 <= i < |ps| :: SamePattern(ps[i], r.value.0[i])
    decreases ps, 0
  {
    if ps == [] {
      assert Joined(EncodePatterns(ps)) + x == x;
    } else {
      PartsFirst(ps, x);
      hide EncodePattern, EncodePatterns, Joined, ReadPattern, SamePattern;
      PatternReads(ps[0], Joined(EncodePatterns(ps[1..])) + x);
      PartsRead(ps[1..], x);
    }
  }

  lemma {:induction false} AlternativesRead(a: seq<Pattern>, limit: nat)
    requires Fits(FrameList(SortDedup(EncodePatterns(a))))
    requires forall f | f in SortDedup(EncodePatterns(a)) :: |f| < limit
    ensures ReadPatterns(SortDedup(EncodePatterns(a)), limit).Ok?
    ensures SamePattern(Alternate(a), Alternate(ReadPatterns(SortDedup(EncodePatterns(a)), limit).value))
    decreases a, 0
  {
    hide FrameList, SortDedup, EncodePattern, ReadPattern, ReadPatterns, SamePattern;
    var encoded := EncodePatterns(a);
    var frames := SortDedup(encoded);
    SortDedupSpec(encoded);
    forall i | 0 <= i < |a|
      ensures WholePattern(encoded[i]) && SamePattern(a[i], ReadPattern(encoded[i]).value.0)
    {
      FrameFits(encoded, encoded[i]);
      PatternReads(a[i], []);
      assert encoded[i] + [] == encoded[i];
    }
    PatternsRead(frames, limit);
    SameAlternatives(a, encoded, frames, ReadPatterns(frames, limit).value);
  }

  lemma SameAlternatives(a: seq<Pattern>, encoded: seq<Bytes>, frames: seq<Bytes>, b: seq<Pattern>)
    requires |encoded| == |a| && |b| == |frames| && forall f :: f in frames <==> f in encoded
    requires forall i | 0 <= i < |a| :: WholePattern(encoded[i]) && SamePattern(a[i], ReadPattern(encoded[i]).value.0)
    requires forall j | 0 <= j < |b| :: WholePattern(frames[j]) && b[j] == ReadPattern(frames[j]).value.0
    ensures SamePattern(Alternate(a), Alternate(b))
  {
    hide ReadPattern;
    forall i | 0 <= i < |a| ensures PatternAmong(a[i], b) {
      assert encoded[i] in frames;
      var j :| 0 <= j < |frames| && frames[j] == encoded[i];
      assert SamePattern(a[i], b[j]);
    }
    forall j | 0 <= j < |b| ensures AmongPatterns(a, b[j]) {
      assert frames[j] in encoded;
      var i :| 0 <= i < |encoded| && encoded[i] == frames[j];
      assert SamePattern(a[i], b[j]);
    }
  }

  // ----- Reading back rules -----

  ghost predicate WholeRule(f: Bytes) {
    ReadRule(f).Ok? && ReadRule(f).value.1 == []
  }

  lemma {:induction false} RulesRead(frames: seq<Bytes>, limit: nat)
    requires forall f | f in frames :: |f| < limit
    requires forall f | f in frames :: WholeRule(f)
    ensures ReadRules(frames, limit).Ok? && |ReadRules(frames, limit).value| == |frames|
    ensures forall i | 0 <= i < |frames| ::
              WholeRule(frames[i]) && ReadRules(frames, limit).value[i] == ReadRule(frames[i]).value.0
  {
    if frames != [] {
      assert WholeRule(frames[0]);
      hide ReadRule;
      RulesRead(frames[1..], limit);
      var rest := ReadRules(frames[1..], limit).value;
      assert forall i | 1 <= i < |frames| :: frames[i] == frames[1..][i - 1];
    }
  }

  /** Reading a rule's bytes gives the rule back up to order and repetition of conjuncts, disjuncts and alternatives, and
      ends where they end. */
  lemma {:induction false} RuleReads(r: Rule, x: Bytes)
    requires Fits(EncodeRule(r))
    ensures ReadRule(EncodeRule(r) + x).Ok? && ReadRule(EncodeRule(r) + x).value.1 == x
    ensures SameRule(r, ReadRule(EncodeRule(r) + x).value.0)
    decreases r, 0
  {
    hide ReadFrames, FrameList, SortDedup, EncodeRules, ReadRules, ReadPlain, EncodePattern, EncodeValue, EncodeTexts, EncodeBound, EncodeMost,
         Id, Length;
    match r
    case True =>
      TagReads(0, [], x);
    case False =>
      TagReads(1, [], x);
    case And(rules) =>
      var frames := SortDedup(EncodeRules(rules));
      TagReads(2, FrameList(frames), x);
      FramesRead(frames, x);
      MembersRead(rules, |EncodeRule(r) + x|);
    case Or(rules) =>
      var frames := SortDedup(EncodeRules(rules));
      TagReads(3, FrameList(frames), x);
      FramesRead(frames, x);
      MembersRead(rules, |EncodeRule(r) + x|);
    case Not(rule) =>
      TagReads(4, EncodeRule(rule), x);
      RuleReads(rule, x);
    case _ =>
      PlainReads(r, x);
  }

  lemma {:induction false} MembersRead(a: seq<Rule>, limit: nat)
    requires Fits(FrameList(SortDedup(EncodeRules(a))))
    requires forall f | f in SortDedup(EncodeRules(a)) :: |f| < limit
    ensures var b := ReadRules(SortDedup(EncodeRules(a)), limit);
            b.Ok? && SameRule(And(a), And(b.value)) && SameRule(Or(a), Or(b.value))
    decreases a, 0
  {
    hide FrameList, SortDedup, EncodeRule, ReadRule, ReadRules, SameRule;
    var encoded := EncodeRules(a);
    var frames := SortDedup(encoded);
    SortDedupSpec(encoded);
    forall i | 0 <= i < |a|
      ensures WholeRule(encoded[i]) && SameRule(a[i], ReadRule(encoded[i]).value.0)
    {
      FrameFits(encoded, encoded[i]);
      RuleReads(a[i], []);
      assert encoded[i] + [] == encoded[i];
    }
    RulesRead(frames, limit);
    SameMembersRead(a, encoded, frames, ReadRules(frames, limit).value);
  }

  lemma SameMembersRead(a: seq<Rule>, encoded: seq<Bytes>, frames: seq<Bytes>, b: seq<Rule>)
    requires |encoded| == |a| && |b| == |frames| && forall f :: f in frames <==> f in encoded
    requires forall i | 0 <= i < |a| :: WholeRule(encoded[i]) && SameRule(a[i], ReadRule(encoded[i]).value.0)
    requires forall j | 0 <= j < |b| :: WholeRule(frames[j]) && b[j] == ReadRule(frames[j]).value.0
    ensures SameRule(And(a), And(b)) && SameRule(Or(a), Or(b))
  {
    hide ReadRule;
    forall i | 0 <= i < |a| ensures RuleAmong(a[i], b) {
      assert encoded[i] in frames;
      var j :| 0 <= j < |frames| && frames[j] == encoded[i];
      assert SameRule(a[i], b[j]);
    }
    forall j | 0 <= j < |b| ensures AmongRules(a, b[j]) {
      assert frames[j] in encoded;
      var i :| 0 <= i < |encoded| && encoded[i] == frames[j];
      assert SameRule(a[i], b[j]);
    }
  }

  lemma PlainReads(r: Rule, x: Bytes)
    requires Fits(EncodeRule(r)) && !r.True? && !r.False? && !r.And? && !r.Or? && !r.Not?
    ensures ReadRule(EncodeRule(r) + x).Ok? && ReadRule(EncodeRule(r) + x).value.1 == x
    ensures SameRule(r, ReadRule(EncodeRule(r) + x).value.0)
  {
    var tag, body := EncodeRule(r)[0], EncodeRule(r)[1..];
    assert EncodeRule(r) == [tag] + body;
    assert tag >= 5;
    BodyReads(r, x);
    hide EncodeRule, ReadRule, ReadPlain, SameRule;
    PlainTag(tag, body, x);
  }

  lemma PlainTag(tag: Byte, body: Bytes, x: Bytes)
    requires tag >= 5
    ensures ReadRule(([tag] + body) + x) == ReadPlain(tag, body + x)
  {
    hide ReadPlain;
    TagReads(tag, body, x);
  }

  /** Each form of rule without inner rules, behind its tag. */
  lemma BodyReads(r: Rule, x: Bytes)
    requires Fits(EncodeRule(r)) && !r.True? && !r.False? && !r.And? && !r.Or? && !r.Not?
    ensures var p := ReadPlain(EncodeRule(r)[0], EncodeRule(r)[1..] + x); p.Ok? && p.value.1 == x && SameRule(r, p.value.0)
  {
    match r
    case I64Range(v, low, high) => RangeReads(v, low, high, x);
    case TextLength(v, least, most) => TextLengthReads(v, least, most, x);
    case TextOneOf(v, allowed) => OneOfReads(v, allowed, x);
    case TextMatches(v, pattern) => MatchesReads(v, pattern, x);
    case Equivalent(left, right, id) => EquivalentReads(left, right, id, x);
    case Ordered(left, right, id, comparison) => OrderedReads(left, right, id, comparison, x);
  }

  lemma RangeReads(v: ValueExpr, low: Option<I64>, high: Option<I64>, x: Bytes)
    ensures ReadPlain(5, (EncodeValue(v) + (EncodeBound(low) + EncodeBound(high))) + x) == Ok((I64Range(v, low, high), x))
  {
    hide EncodeValue, EncodeBound, ReadValue, ReadBound;
    var a, b, c := EncodeValue(v), EncodeBound(low), EncodeBound(high);
    InThree(a, b, c, x);
    ValueReads(v, b + (c + x));
    BoundReads(low, c + x);
    BoundReads(high, x);
  }

  lemma TextLengthReads(v: ValueExpr, least: U64, most: Option<U64>, x: Bytes)
    ensures ReadPlain(6, (EncodeValue(v) + (Length(least) + EncodeMost(most))) + x) == Ok((TextLength(v, least, most), x))
  {
    hide EncodeValue, EncodeMost, Length, ReadValue, ReadMost, ReadLength;
    var a, b, c := EncodeValue(v), Length(least), EncodeMost(most);
    InThree(a, b, c, x);
    ValueReads(v, b + (c + x));
    LengthReads(least, c + x);
    MostReads(most, x);
  }

  lemma OneOfReads(v: ValueExpr, allowed: seq<string>, x: Bytes)
    requires Fits(EncodeTexts(allowed))
    ensures ReadPlain(7, (EncodeValue(v) + (Length(|allowed|) + EncodeTexts(allowed))) + x) == Ok((TextOneOf(v, allowed), x))
  {
    hide EncodeValue, EncodeTexts, Length, ReadValue, ReadTexts, ReadLength;
    var a, b, c := EncodeValue(v), Length(|allowed|), EncodeTexts(allowed);
    InThree(a, b, c, x);
    ValueReads(v, b + (c + x));
    TextsSize(allowed);
    LengthReads(|allowed|, c + x);
    TextsRead(allowed, x);
  }

  lemma MatchesReads(v: ValueExpr, p: Pattern, x: Bytes)
    requires Fits(EncodePattern(p))
    ensures var r := ReadPlain(8, (EncodeValue(v) + EncodePattern(p)) + x);
            r.Ok? && r.value.1 == x && SameRule(TextMatches(v, p), r.value.0)
  {
    hide EncodeValue, EncodePattern, ReadValue, ReadPattern, SamePattern;
    InARow(EncodeValue(v), EncodePattern(p), x);
    ValueReads(v, EncodePattern(p) + x);
    PatternReads(p, x);
  }

  lemma EquivalentReads(left: ValueExpr, right: ValueExpr, id: U128, x: Bytes)
    ensures ReadPlain(9, (EncodeValue(left) + (EncodeValue(right) + Id(id))) + x) == Ok((Equivalent(left, right, id), x))
  {
    hide EncodeValue, Id, ReadValue, ReadId;
    var a, b, c := EncodeValue(left), EncodeValue(right), Id(id);
    InThree(a, b, c, x);
    ValueReads(left, b + (c + x));
    ValueReads(right, c + x);
    IdReads(id, x);
  }

  lemma OrderedReads(left: ValueExpr, right: ValueExpr, id: U128, c: OrderComparison, x: Bytes)
    ensures ReadPlain(10, (EncodeValue(left) + (EncodeValue(right) + (Id(id) + [EncodeComparison(c)]))) + x)
         == Ok((Ordered(left, right, id, c), x))
  {
    hide EncodeValue, EncodeComparison, Id, ReadValue, ReadId, ReadComparison;
    var a, b, i, e := EncodeValue(left), EncodeValue(right), Id(id), [EncodeComparison(c)];
    Spread(a, b, i, e, x);
    InThree(a, b, i, e + x);
    ValueReads(left, b + (i + (e + x)));
    ValueReads(right, i + (e + x));
    IdReads(id, e + x);
    ComparisonReads(c, x);
  }

  /** What is read back has the very bytes that were read. */
  lemma ReadIsCanonical(r: Rule)
    requires Fits(EncodeRule(r))
    ensures ReadRule(EncodeRule(r)).Ok? && EncodeRule(ReadRule(EncodeRule(r)).value.0) == EncodeRule(r)
  {
    hide EncodeRule, ReadRule, SameRule;
    RuleReads(r, []);
    assert EncodeRule(r) + [] == EncodeRule(r);
    SameEncodes(r, ReadRule(EncodeRule(r)).value.0);
  }
}
