/** The canonical bytes of a rule delimit themselves, and identify it up to order and repetition of
    alternatives. */
module RuleIdentity {
  import opened Wrappers
  import opened ByteCodec
  import opened FrameLists
  import opened RuleSyntax

  /** Short enough that every length inside fits the eight bytes it is written in. */
  predicate Fits(b: Bytes) {
    |b| < U64_LIMIT
  }

  lemma Tagged(t: Byte, a: Bytes, u: Byte, b: Bytes, x: Bytes, y: Bytes)
    requires ([t] + a) + x == ([u] + b) + y
    ensures t == u && a + x == b + y
  {
    assert ([t] + a) + x == [t] + (a + x) && ([u] + b) + y == [u] + (b + y);
    SameLengthPrefix([t], [u], a + x, b + y);
  }

  /** Two fields in a row. */
  lemma InARow(a: Bytes, b: Bytes, x: Bytes)
    ensures (a + b) + x == a + (b + x)
  {
  }

  // ----- Fields -----

  lemma ValueDelimits(v: ValueExpr, w: ValueExpr, x: Bytes, y: Bytes)
    requires EncodeValue(v) + x == EncodeValue(w) + y
    ensures v == w && x == y
  {
    assert (EncodeValue(v) + x)[0] == EncodeValue(v)[0] && (EncodeValue(w) + y)[0] == EncodeValue(w)[0];
    SameLengthPrefix(EncodeValue(v), EncodeValue(w), x, y);
    if v.Field? {
      SameLengthPrefix([1], [1], Id(v.id), Id(w.id));
      IdInjective(v.id, w.id);
    }
  }

  lemma BoundDelimits(v: Option<I64>, w: Option<I64>, x: Bytes, y: Bytes)
    requires EncodeBound(v) + x == EncodeBound(w) + y
    ensures v == w && x == y
  {
    assert (EncodeBound(v) + x)[0] == EncodeBound(v)[0] && (EncodeBound(w) + y)[0] == EncodeBound(w)[0];
    SameLengthPrefix(EncodeBound(v), EncodeBound(w), x, y);
    if v.Some? {
      SameLengthPrefix([1], [1], Signed(v.value), Signed(w.value));
      SignedInjective(v.value, w.value);
    }
  }

  lemma MostDelimits(v: Option<U64>, w: Option<U64>, x: Bytes, y: Bytes)
    requires EncodeMost(v) + x == EncodeMost(w) + y
    ensures v == w && x == y
  {
    assert (EncodeMost(v) + x)[0] == EncodeMost(v)[0] && (EncodeMost(w) + y)[0] == EncodeMost(w)[0];
    SameLengthPrefix(EncodeMost(v), EncodeMost(w), x, y);
    if v.Some? {
      SameLengthPrefix([1], [1], Length(v.value), Length(w.value));
      LengthInjective(v.value, w.value);
    }
  }

  lemma {:induction false} TextsSize(ts: seq<string>)
    ensures |ts| <= |EncodeTexts(ts)|
    ensures ts != [] ==> |Text(ts[0])| <= |EncodeTexts(ts)| && |EncodeTexts(ts[1..])| <= |EncodeTexts(ts)|
  {
    if ts != [] { TextsSize(ts[1..]); }
  }

  lemma {:induction false} TextsDelimit(ts: seq<string>, us: seq<string>, x: Bytes, y: Bytes)
    requires |ts| == |us| && Fits(EncodeTexts(ts)) && Fits(EncodeTexts(us))
    requires EncodeTexts(ts) + x == EncodeTexts(us) + y
    ensures ts == us && x == y
  {
    if ts == [] {
      assert EncodeTexts(ts) + x == x && EncodeTexts(us) + y == y;
    } else {
      TextsSize(ts);
      TextsSize(us);
      TextsFirst(ts, x);
      TextsFirst(us, y);
      hide EncodeTexts, Text;
      TextDelimits(ts[0], us[0], EncodeTexts(ts[1..]) + x, EncodeTexts(us[1..]) + y);
      TextsDelimit(ts[1..], us[1..], x, y);
    }
  }

  lemma TextsFirst(ts: seq<string>, x: Bytes)
    requires ts != []
    ensures EncodeTexts(ts) + x == Text(ts[0]) + (EncodeTexts(ts[1..]) + x)
    ensures ts == [ts[0]] + ts[1..]
  {
    hide Text;
    InARow(Text(ts[0]), EncodeTexts(ts[1..]), x);
  }

  // ----- Patterns -----

  lemma {:induction false} JoinedSize(frames: seq<Bytes>)
    requires forall i | 0 <= i < |frames| :: frames[i] != []
    ensures |frames| <= |Joined(frames)|
  {
    if frames != [] {
      JoinedSize(frames[1..]);
      assert |frames[0]| >= 1;
    }
  }

  lemma PartsFirst(ps: seq<Pattern>, x: Bytes)
    requires ps != []
    ensures Joined(EncodePatterns(ps)) + x == EncodePattern(ps[0]) + (Joined(EncodePatterns(ps[1..])) + x)
    ensures |EncodePattern(ps[0])| <= |Joined(EncodePatterns(ps))|
    ensures |Joined(EncodePatterns(ps[1..]))| <= |Joined(EncodePatterns(ps))|
  {
    assert EncodePatterns(ps)[1..] == EncodePatterns(ps[1..]);
    InARow(EncodePattern(ps[0]), Joined(EncodePatterns(ps[1..])), x);
  }

  lemma {:induction false} PartsDelimit(ps: seq<Pattern>, qs: seq<Pattern>, x: Bytes, y: Bytes)
    requires |ps| == |qs| && Fits(Joined(EncodePatterns(ps))) && Fits(Joined(EncodePatterns(qs)))
    requires Joined(EncodePatterns(ps)) + x == Joined(EncodePatterns(qs)) + y
    ensures EncodePatterns(ps) == EncodePatterns(qs) && x == y
    decreases ps, 0
  {
    if ps == [] {
      assert Joined(EncodePatterns(ps)) + x == x && Joined(EncodePatterns(qs)) + y == y;
    } else {
      PartsFirst(ps, x);
      PartsFirst(qs, y);
      hide EncodePattern, Joined;
      PatternDelimits(ps[0], qs[0], Joined(EncodePatterns(ps[1..])) + x, Joined(EncodePatterns(qs[1..])) + y);
      PartsDelimit(ps[1..], qs[1..], x, y);
    }
  }

  /** Pattern encodings delimit themselves: of two that start the same bytes neither ends before the other. */
  lemma {:induction false} PatternDelimits(p: Pattern, q: Pattern, x: Bytes, y: Bytes)
    requires Fits(EncodePattern(p)) && Fits(EncodePattern(q)) && EncodePattern(p) + x == EncodePattern(q) + y
    ensures EncodePattern(p) == EncodePattern(q) && x == y
    decreases p
  {
    hide Text, Joined, FrameList, SortDedup, EncodePatterns;
    var ep, eq := EncodePattern(p), EncodePattern(q);
    assert ep == [ep[0]] + ep[1..] && eq == [eq[0]] + eq[1..];
    Tagged(ep[0], ep[1..], eq[0], eq[1..], x, y);
    match p
    case Never => SameLengthPrefix(ep, eq, x, y);
    case Empty => SameLengthPrefix(ep, eq, x, y);
    case AnyScalar => SameLengthPrefix(ep, eq, x, y);
    case Literal(text) =>
      assert q.Literal?;
      TextDelimits(text, q.text, x, y);
    case Concat(parts) =>
      assert q.Concat?;
      ConcatDelimits(parts, q.parts, x, y);
    case Alternate(parts) =>
      assert q.Alternate?;
      FrameListDelimits(SortDedup(EncodePatterns(parts)), SortDedup(EncodePatterns(q.parts)), x, y);
    case ZeroOrMore(body) =>
      assert q.ZeroOrMore?;
      PatternDelimits(body, q.body, x, y);
  }

  lemma {:induction false} ConcatDelimits(ps: seq<Pattern>, qs: seq<Pattern>, x: Bytes, y: Bytes)
    requires Fits(Length(|ps|) + Joined(EncodePatterns(ps))) && Fits(Length(|qs|) + Joined(EncodePatterns(qs)))
    requires (Length(|ps|) + Joined(EncodePatterns(ps))) + x == (Length(|qs|) + Joined(EncodePatterns(qs))) + y
    ensures |ps| == |qs| && EncodePatterns(ps) == EncodePatterns(qs) && x == y
    decreases ps
  {
    hide Joined, Length, EncodePattern;
    JoinedSize(EncodePatterns(ps));
    JoinedSize(EncodePatterns(qs));
    InARow(Length(|ps|), Joined(EncodePatterns(ps)), x);
    InARow(Length(|qs|), Joined(EncodePatterns(qs)), y);
    SameLengthPrefix(Length(|ps|), Length(|qs|), Joined(EncodePatterns(ps)) + x, Joined(EncodePatterns(qs)) + y);
    LengthInjective(|ps|, |qs|);
    PartsDelimit(ps, qs, x, y);
  }

  /** Frames that end up in a frame list are no longer than it. */
  lemma FrameFits(frames: seq<Bytes>, f: Bytes)
    requires Fits(FrameList(SortDedup(frames))) && f in frames
    ensures Fits(f)
  {
    SortDedupSpec(frames);
    FramedSize(SortDedup(frames));
  }

  lemma JoinedFits(frames: seq<Bytes>, i: nat)
    requires Fits(Joined(frames)) && i < |frames|
    ensures Fits(frames[i])
  {
    if i > 0 { JoinedFits(frames[1..], i - 1); }
  }

  /** Two patterns have the same canonical bytes exactly when they agree up to order and repetition of
      alternatives, at every depth. */
  lemma {:induction false} PatternIdentity(p: Pattern, q: Pattern)
    requires Fits(EncodePattern(p)) && Fits(EncodePattern(q))
    ensures EncodePattern(p) == EncodePattern(q) <==> SamePattern(p, q)
    decreases p
  {
    hide Text, Joined, FrameList, SortDedup, EncodePatterns;
    var ep, eq := EncodePattern(p), EncodePattern(q);
    assert ep == [ep[0]] + ep[1..] && eq == [eq[0]] + eq[1..];
    match p
    case Never =>
    case Empty =>
    case AnyScalar =>
    case Literal(text) =>
      if ep == eq { assert Text(text) + [] == Text(q.text) + []; TextDelimits(text, q.text, [], []); }
    case Concat(parts) =>
      if q.Concat? { ConcatIdentity(parts, q.parts); }
      assert ep == eq ==> q.Concat?;
    case Alternate(parts) =>
      if q.Alternate? { AlternateIdentity(parts, q.parts); }
      assert ep == eq ==> q.Alternate?;
    case ZeroOrMore(body) =>
      if q.ZeroOrMore? { PatternIdentity(body, q.body); }
      assert ep == eq ==> q.ZeroOrMore?;
  }

  lemma {:induction false} ConcatIdentity(a: seq<Pattern>, b: seq<Pattern>)
    requires Fits(Length(|a|) + Joined(EncodePatterns(a))) && Fits(Length(|b|) + Joined(EncodePatterns(b)))
    ensures Length(|a|) + Joined(EncodePatterns(a)) == Length(|b|) + Joined(EncodePatterns(b)) <==>
            |a| == |b| && forall i | 0 <= i < |a| :: SamePattern(a[i], b[i])
    decreases a
  {
    hide Joined, Length, EncodePattern, SamePattern;
    var ea, eb := EncodePatterns(a), EncodePatterns(b);
    if |a| == |b| {
      forall i | 0 <= i < |a| ensures ea[i] == eb[i] <==> SamePattern(a[i], b[i]) {
        JoinedFits(ea, i);
        JoinedFits(eb, i);
        PatternIdentity(a[i], b[i]);
      }
    }
    var la, lb := Length(|a|) + Joined(ea), Length(|b|) + Joined(eb);
    if |a| == |b| && forall i | 0 <= i < |a| :: SamePattern(a[i], b[i]) {
      assert ea == eb;
    } else if la == lb {
      assert la + [] == lb + [];
      ConcatDelimits(a, b, [], []);
    }
  }

  lemma {:induction false} AlternateIdentity(a: seq<Pattern>, b: seq<Pattern>)
    requires Fits(FrameList(SortDedup(EncodePatterns(a)))) && Fits(FrameList(SortDedup(EncodePatterns(b))))
    ensures FrameList(SortDedup(EncodePatterns(a))) == FrameList(SortDedup(EncodePatterns(b))) <==>
            (forall i | 0 <= i < |a| :: PatternAmong(a[i], b)) && (forall j | 0 <= j < |b| :: AmongPatterns(a, b[j]))
    decreases a
  {
    hide FrameList, SortDedup, EncodePattern, SamePattern, PatternAmong, AmongPatterns;
    var ea, eb := EncodePatterns(a), EncodePatterns(b);
    forall i | 0 <= i < |a| ensures PatternAmong(a[i], b) <==> ea[i] in eb {
      forall j | 0 <= j < |b| ensures ea[i] == eb[j] <==> SamePattern(a[i], b[j]) {
        FrameFits(ea, ea[i]);
        FrameFits(eb, eb[j]);
        PatternIdentity(a[i], b[j]);
      }
      AmongIff(a[i], b, ea[i], eb);
    }
    forall j | 0 <= j < |b| ensures AmongPatterns(a, b[j]) <==> eb[j] in ea {
      forall i | 0 <= i < |a| ensures ea[i] == eb[j] <==> SamePattern(a[i], b[j]) {
        FrameFits(ea, ea[i]);
        FrameFits(eb, eb[j]);
        PatternIdentity(a[i], b[j]);
      }
      IffAmong(a, b[j], ea, eb[j]);
    }
    FramesIdentity(ea, eb);
    MembersIff(ea, eb);
  }

  lemma AmongIff(p: Pattern, b: seq<Pattern>, e: Bytes, eb: seq<Bytes>)
    requires |eb| == |b| && forall j | 0 <= j < |b| :: e == eb[j] <==> SamePattern(p, b[j])
    ensures PatternAmong(p, b) <==> e in eb
  {
    hide SamePattern;
  }

  lemma IffAmong(a: seq<Pattern>, q: Pattern, ea: seq<Bytes>, e: Bytes)
    requires |ea| == |a| && forall i | 0 <= i < |a| :: ea[i] == e <==> SamePattern(a[i], q)
    ensures AmongPatterns(a, q) <==> e in ea
  {
    hide SamePattern;
  }

  lemma MembersIff(ea: seq<Bytes>, eb: seq<Bytes>)
    ensures SameElements(ea, eb) <==>
            (forall i | 0 <= i < |ea| :: ea[i] in eb) && (forall j | 0 <= j < |eb| :: eb[j] in ea)
  {
    if SameElements(ea, eb) {
      forall i | 0 <= i < |ea| ensures ea[i] in eb { assert ea[i] in ea; }
      forall j | 0 <= j < |eb| ensures eb[j] in ea { assert eb[j] in eb; }
    }
  }

  lemma FramesIdentity(ea: seq<Bytes>, eb: seq<Bytes>)
    requires Fits(FrameList(SortDedup(ea))) && Fits(FrameList(SortDedup(eb)))
    ensures FrameList(SortDedup(ea)) == FrameList(SortDedup(eb)) <==> SameElements(ea, eb)
  {
    hide FrameList, SortDedup;
    SortDedupSameIff(ea, eb);
    var la, lb := FrameList(SortDedup(ea)), FrameList(SortDedup(eb));
    if la == lb {
      assert la + [] == lb + [];
      FrameListDelimits(SortDedup(ea), SortDedup(eb), [], []);
    }
  }

  // ----- Rules -----

  lemma InThree(a: Bytes, b: Bytes, c: Bytes, x: Bytes)
    ensures (a + (b + c)) + x == a + (b + (c + x))
  {
    InARow(a, b + c, x);
    InARow(b, c, x);
  }

  lemma RangeDelimits(v: ValueExpr, l: Option<I64>, h: Option<I64>, v': ValueExpr, l': Option<I64>, h': Option<I64>, x: Bytes, y: Bytes)
    requires (EncodeValue(v) + (EncodeBound(l) + EncodeBound(h))) + x == (EncodeValue(v') + (EncodeBound(l') + EncodeBound(h'))) + y
    ensures v == v' && l == l' && h == h' && x == y
  {
    hide EncodeValue, EncodeBound;
    InThree(EncodeValue(v), EncodeBound(l), EncodeBound(h), x);
    InThree(EncodeValue(v'), EncodeBound(l'), EncodeBound(h'), y);
    ValueDelimits(v, v', EncodeBound(l) + (EncodeBound(h) + x), EncodeBound(l') + (EncodeBound(h') + y));
    BoundDelimits(l, l', EncodeBound(h) + x, EncodeBound(h') + y);
    BoundDelimits(h, h', x, y);
  }

  lemma TextLengthDelimits(v: ValueExpr, l: U64, h: Option<U64>, v': ValueExpr, l': U64, h': Option<U64>, x: Bytes, y: Bytes)
    requires (EncodeValue(v) + (Length(l) + EncodeMost(h))) + x == (EncodeValue(v') + (Length(l') + EncodeMost(h'))) + y
    ensures v == v' && l == l' && h == h' && x == y
  {
    hide EncodeValue, EncodeMost, Length;
    InThree(EncodeValue(v), Length(l), EncodeMost(h), x);
    InThree(EncodeValue(v'), Length(l'), EncodeMost(h'), y);
    ValueDelimits(v, v', Length(l) + (EncodeMost(h) + x), Length(l') + (EncodeMost(h') + y));
    SameLengthPrefix(Length(l), Length(l'), EncodeMost(h) + x, EncodeMost(h') + y);
    LengthInjective(l, l');
    MostDelimits(h, h', x, y);
  }

  lemma OneOfDelimits(v: ValueExpr, ts: seq<string>, v': ValueExpr, us: seq<string>, x: Bytes, y: Bytes)
    requires Fits(EncodeTexts(ts)) && Fits(EncodeTexts(us))
    requires (EncodeValue(v) + (Length(|ts|) + EncodeTexts(ts))) + x == (EncodeValue(v') + (Length(|us|) + EncodeTexts(us))) + y
    ensures v == v' && ts == us && x == y
  {
    TextsSize(ts);
    TextsSize(us);
    hide EncodeValue, EncodeTexts, Length;
    InThree(EncodeValue(v), Length(|ts|), EncodeTexts(ts), x);
    InThree(EncodeValue(v'), Length(|us|), EncodeTexts(us), y);
    ValueDelimits(v, v', Length(|ts|) + (EncodeTexts(ts) + x), Length(|us|) + (EncodeTexts(us) + y));
    SameLengthPrefix(Length(|ts|), Length(|us|), EncodeTexts(ts) + x, EncodeTexts(us) + y);
    LengthInjective(|ts|, |us|);
    TextsDelimit(ts, us, x, y);
  }

  lemma MatchesDelimits(v: ValueExpr, p: Pattern, v': ValueExpr, q: Pattern, x: Bytes, y: Bytes)
    requires Fits(EncodePattern(p)) && Fits(EncodePattern(q))
    requires (EncodeValue(v) + EncodePattern(p)) + x == (EncodeValue(v') + EncodePattern(q)) + y
    ensures v == v' && EncodePattern(p) == EncodePattern(q) && x == y
  {
    hide EncodeValue, EncodePattern;
    InARow(EncodeValue(v), EncodePattern(p), x);
    InARow(EncodeValue(v'), EncodePattern(q), y);
    ValueDelimits(v, v', EncodePattern(p) + x, EncodePattern(q) + y);
    PatternDelimits(p, q, x, y);
  }

  lemma PairDelimits(l: ValueExpr, r: ValueExpr, id: U128, l': ValueExpr, r': ValueExpr, id': U128, x: Bytes, y: Bytes)
    requires (EncodeValue(l) + (EncodeValue(r) + Id(id))) + x == (EncodeValue(l') + (EncodeValue(r') + Id(id'))) + y
    ensures l == l' && r == r' && id == id' && x == y
  {
    hide EncodeValue, Id;
    InThree(EncodeValue(l), EncodeValue(r), Id(id), x);
    InThree(EncodeValue(l'), EncodeValue(r'), Id(id'), y);
    ValueDelimits(l, l', EncodeValue(r) + (Id(id) + x), EncodeValue(r') + (Id(id') + y));
    ValueDelimits(r, r', Id(id) + x, Id(id') + y);
    SameLengthPrefix(Id(id), Id(id'), x, y);
    IdInjective(id, id');
  }

  lemma OrderedDelimits(l: ValueExpr, r: ValueExpr, id: U128, c: OrderComparison,
                        l': ValueExpr, r': ValueExpr, id': U128, c': OrderComparison, x: Bytes, y: Bytes)
    requires (EncodeValue(l) + (EncodeValue(r) + (Id(id) + [EncodeComparison(c)]))) + x
          == (EncodeValue(l') + (EncodeValue(r') + (Id(id') + [EncodeComparison(c')]))) + y
    ensures l == l' && r == r' && id == id' && c == c' && x == y
  {
    hide EncodeValue, Id;
    var tail, tail' := [EncodeComparison(c)] + x, [EncodeComparison(c')] + y;
    Spread(EncodeValue(l), EncodeValue(r), Id(id), [EncodeComparison(c)], x);
    Spread(EncodeValue(l'), EncodeValue(r'), Id(id'), [EncodeComparison(c')], y);
    PairDelimits(l, r, id, l', r', id', tail, tail');
    SameLengthPrefix([EncodeComparison(c)], [EncodeComparison(c')], x, y);
  }

  lemma Spread(a: Bytes, b: Bytes, c: Bytes, d: Bytes, x: Bytes)
    ensures (a + (b + (c + d))) + x == (a + (b + c)) + (d + x)
  {
  }

  /** Rule encodings delimit themselves. */
  lemma {:induction false} RuleDelimits(r: Rule, s: Rule, x: Bytes, y: Bytes)
    requires Fits(EncodeRule(r)) && Fits(EncodeRule(s)) && EncodeRule(r) + x == EncodeRule(s) + y
    ensures EncodeRule(r) == EncodeRule(s) && x == y
    decreases r
  {
    hide FrameList, SortDedup, EncodeRules, EncodeTexts, EncodePattern, EncodeValue, EncodeBound, EncodeMost, Id, Length;
    var er, es := EncodeRule(r), EncodeRule(s);
    assert er == [er[0]] + er[1..] && es == [es[0]] + es[1..];
    Tagged(er[0], er[1..], es[0], es[1..], x, y);
    match r
    case True => SameLengthPrefix(er, es, x, y);
    case False => SameLengthPrefix(er, es, x, y);
    case And(rules) =>
      assert s.And?;
      FrameListDelimits(SortDedup(EncodeRules(rules)), SortDedup(EncodeRules(s.rules)), x, y);
    case Or(rules) =>
      assert s.Or?;
      FrameListDelimits(SortDedup(EncodeRules(rules)), SortDedup(EncodeRules(s.rules)), x, y);
    case Not(rule) =>
      assert s.Not?;
      RuleDelimits(rule, s.rule, x, y);
    case I64Range(value, low, high) =>
      assert s.I64Range?;
      RangeDelimits(value, low, high, s.value, s.low, s.high, x, y);
    case TextLength(value, least, most) =>
      assert s.TextLength?;
      TextLengthDelimits(value, least, most, s.value, s.least, s.most, x, y);
    case TextOneOf(value, allowed) =>
      assert s.TextOneOf?;
      OneOfDelimits(value, allowed, s.value, s.allowed, x, y);
    case TextMatches(value, pattern) =>
      assert s.TextMatches?;
      MatchesDelimits(value, pattern, s.value, s.pattern, x, y);
    case Equivalent(left, right, equivalence) =>
      assert s.Equivalent?;
      PairDelimits(left, right, equivalence, s.left, s.right, s.equivalence, x, y);
    case Ordered(left, right, ordering, comparison) =>
      assert s.Ordered?;
      OrderedDelimits(left, right, ordering, comparison, s.left, s.right, s.ordering, s.comparison, x, y);
  }

  predicate Plain(r: Rule) {
    !r.And? && !r.Or? && !r.Not? && !r.TextMatches?
  }

  lemma PlainIdentity(r: Rule, s: Rule)
    requires Plain(r) && Fits(EncodeRule(r)) && Fits(EncodeRule(s)) && EncodeRule(r) == EncodeRule(s)
    ensures r == s
  {
    hide FrameList, SortDedup, EncodeRules, EncodeTexts, EncodePattern, EncodeValue, EncodeBound, EncodeMost, Id, Length;
    var er, es := EncodeRule(r), EncodeRule(s);
    assert er == [er[0]] + er[1..] && es == [es[0]] + es[1..];
    Tagged(er[0], er[1..], es[0], es[1..], [], []);
    match r
    case True =>
    case False =>
    case I64Range(value, low, high) =>
      assert s.I64Range?;
      RangeDelimits(value, low, high, s.value, s.low, s.high, [], []);
    case TextLength(value, least, most) =>
      assert s.TextLength?;
      TextLengthDelimits(value, least, most, s.value, s.least, s.most, [], []);
    case TextOneOf(value, allowed) =>
      assert s.TextOneOf?;
      OneOfDelimits(value, allowed, s.value, s.allowed, [], []);
    case Equivalent(left, right, equivalence) =>
      assert s.Equivalent?;
      PairDelimits(left, right, equivalence, s.left, s.right, s.equivalence, [], []);
    case Ordered(left, right, ordering, comparison) =>
      assert s.Ordered?;
      OrderedDelimits(left, right, ordering, comparison, s.left, s.right, s.ordering, s.comparison, [], []);
    case _ =>
  }

  /** Two rules have the same canonical bytes exactly when they agree up to order and repetition of the
      members of conjunctions, disjunctions and pattern alternatives, at every depth. */
  lemma Identity(r: Rule, s: Rule)
    requires Fits(EncodeRule(r)) && Fits(EncodeRule(s))
    ensures EncodeRule(r) == EncodeRule(s) <==> SameRule(r, s)
    decreases r, 1
  {
    hide *;
    if EncodeRule(r) == EncodeRule(s) {
      EncodesSame(r, s);
    } else if SameRule(r, s) {
      SameEncodes(r, s);
    }
  }

  lemma {:induction false} EncodesSame(r: Rule, s: Rule)
    requires Fits(EncodeRule(r)) && EncodeRule(r) == EncodeRule(s)
    ensures SameRule(r, s)
    decreases r, 0
  {
    hide FrameList, SortDedup, EncodeRules, EncodePattern, EncodeValue, EncodeTexts, EncodeBound, EncodeMost, Id, Length, SamePattern,
         RuleAmong, AmongRules;
    var er, es := EncodeRule(r), EncodeRule(s);
    assert er == [er[0]] + er[1..] && es == [es[0]] + es[1..];
    match r
    case And(rules) =>
      assert s.And?;
      SetIdentity(rules, s.rules);
    case Or(rules) =>
      assert s.Or?;
      SetIdentity(rules, s.rules);
    case Not(rule) =>
      assert s.Not?;
      EncodesSame(rule, s.rule);
    case TextMatches(value, pattern) =>
      assert s.TextMatches?;
      MatchesIdentity(value, pattern, s.value, s.pattern);
    case _ =>
      PlainIdentity(r, s);
  }

  lemma MatchesIdentity(v: ValueExpr, p: Pattern, v': ValueExpr, q: Pattern)
    requires Fits(EncodePattern(p)) && Fits(EncodePattern(q))
    ensures EncodeValue(v) + EncodePattern(p) == EncodeValue(v') + EncodePattern(q) <==> v == v' && SamePattern(p, q)
  {
    hide EncodePattern, EncodeValue, SamePattern;
    PatternIdentity(p, q);
    var a, b := EncodeValue(v) + EncodePattern(p), EncodeValue(v') + EncodePattern(q);
    if a == b {
      assert a + [] == b + [];
      MatchesDelimits(v, p, v', q, [], []);
    }
  }

  lemma {:induction false} SetIdentity(a: seq<Rule>, b: seq<Rule>)
    requires Fits(FrameList(SortDedup(EncodeRules(a)))) && Fits(FrameList(SortDedup(EncodeRules(b))))
    ensures FrameList(SortDedup(EncodeRules(a))) == FrameList(SortDedup(EncodeRules(b))) <==>
            (forall i | 0 <= i < |a| :: RuleAmong(a[i], b)) && (forall j | 0 <= j < |b| :: AmongRules(a, b[j]))
    decreases a
  {
    hide FrameList, SortDedup, EncodeRule, SameRule, RuleAmong, AmongRules;
    var ea, eb := EncodeRules(a), EncodeRules(b);
    forall i | 0 <= i < |a| ensures RuleAmong(a[i], b) <==> ea[i] in eb {
      forall j | 0 <= j < |b| ensures ea[i] == eb[j] <==> SameRule(a[i], b[j]) {
        FrameFits(ea, ea[i]);
        FrameFits(eb, eb[j]);
        Identity(a[i], b[j]);
      }
      RuleAmongIff(a[i], b, ea[i], eb);
    }
    forall j | 0 <= j < |b| ensures AmongRules(a, b[j]) <==> eb[j] in ea {
      forall i | 0 <= i < |a| ensures ea[i] == eb[j] <==> SameRule(a[i], b[j]) {
        FrameFits(ea, ea[i]);
        FrameFits(eb, eb[j]);
        Identity(a[i], b[j]);
      }
      IffAmongRules(a, b[j], ea, eb[j]);
    }
    FramesIdentity(ea, eb);
    MembersIff(ea, eb);
  }

  lemma RuleAmongIff(r: Rule, b: seq<Rule>, e: Bytes, eb: seq<Bytes>)
    requires |eb| == |b| && forall j | 0 <= j < |b| :: e == eb[j] <==> SameRule(r, b[j])
    ensures RuleAmong(r, b) <==> e in eb
  {
    hide SameRule;
  }

  lemma IffAmongRules(a: seq<Rule>, s: Rule, ea: seq<Bytes>, e: Bytes)
    requires |ea| == |a| && forall i | 0 <= i < |a| :: ea[i] == e <==> SameRule(a[i], s)
    ensures AmongRules(a, s) <==> e in ea
  {
    hide SameRule;
  }

  // ----- Sameness alone already gives equal bytes, of any size -----

  lemma {:induction false} SamePatternEncodes(p: Pattern, q: Pattern)
    requires SamePattern(p, q)
    ensures EncodePattern(p) == EncodePattern(q)
    decreases p
  {
    hide Text, Joined, FrameList, SortDedup, EncodePatterns;
    match p
    case Concat(a) =>
      forall i | 0 <= i < |a| ensures EncodePatterns(a)[i] == EncodePatterns(q.parts)[i] {
        SamePatternEncodes(a[i], q.parts[i]);
      }
      assert EncodePatterns(a) == EncodePatterns(q.parts);
    case Alternate(a) =>
      var ea, eb := EncodePatterns(a), EncodePatterns(q.parts);
      forall i | 0 <= i < |a| ensures ea[i] in eb {
        assert PatternAmong(a[i], q.parts);
        var j :| 0 <= j < |q.parts| && SamePattern(a[i], q.parts[j]);
        SamePatternEncodes(a[i], q.parts[j]);
      }
      forall j | 0 <= j < |eb| ensures eb[j] in ea {
        assert AmongPatterns(a, q.parts[j]);
        var i :| 0 <= i < |a| && SamePattern(a[i], q.parts[j]);
        SamePatternEncodes(a[i], q.parts[j]);
      }
      MembersIff(ea, eb);
      SortDedupSameIff(ea, eb);
    case ZeroOrMore(a) => SamePatternEncodes(a, q.body);
    case _ =>
  }

  lemma {:induction false} SameEncodes(r: Rule, s: Rule)
    requires SameRule(r, s)
    ensures EncodeRule(r) == EncodeRule(s)
    decreases r, 0
  {
    hide FrameList, SortDedup, EncodeRules, EncodePattern, EncodeValue, EncodeTexts, EncodeBound, EncodeMost, Id, Length, SamePattern,
         RuleAmong, AmongRules;
    match r
    case And(a) => SameSetEncodes(a, s.rules);
    case Or(a) => SameSetEncodes(a, s.rules);
    case Not(a) => SameEncodes(a, s.rule);
    case TextMatches(value, pattern) => SamePatternEncodes(pattern, s.pattern);
    case _ =>
  }

  lemma {:induction false} SameSetEncodes(a: seq<Rule>, b: seq<Rule>)
    requires forall i | 0 <= i < |a| :: RuleAmong(a[i], b)
    requires forall j | 0 <= j < |b| :: AmongRules(a, b[j])
    ensures SortDedup(EncodeRules(a)) == SortDedup(EncodeRules(b))
    decreases a
  {
    hide SortDedup, EncodeRule, SameRule;
    var ea, eb := EncodeRules(a), EncodeRules(b);
    forall i | 0 <= i < |a| ensures ea[i] in eb {
      assert RuleAmong(a[i], b);
      var j :| 0 <= j < |b| && SameRule(a[i], b[j]);
      SameEncodes(a[i], b[j]);
      assert ea[i] == eb[j];
    }
    forall j | 0 <= j < |eb| ensures eb[j] in ea {
      assert AmongRules(a, b[j]);
      var i :| 0 <= i < |a| && SameRule(a[i], b[j]);
      SameEncodes(a[i], b[j]);
      assert ea[i] == eb[j];
    }
    MembersIff(ea, eb);
    SortDedupSameIff(ea, eb);
  }
}
