/** Reading the bytes of a requirement guard back. */
module GuardDecoder {
  import opened Wrappers
  import opened ByteCodec
  import opened FrameLists
  import opened RuleSyntax
  import opened RuleIdentity
  import opened RuleDecoder
  import opened RequirementGuard

  /** What the bytes of a requirement say: everything but its identity value. */
  datatype Stated = Stated(relation: U128, entity: U128, identityColumn: nat, expression: Rule)

  function ReadRequirement(b: Bytes): Result<Stated, Malformed> {
    var relation :- ReadId(b);
    var entity :- ReadId(relation.1);
    var column :- ReadLength(entity.1);
    var rule :- ReadRule(column.1);
    if rule.1 == [] then Ok(Stated(relation.0, entity.0, column.0, rule.0)) else Err(Malformed)
  }

  function ReadRequirements(frames: seq<Bytes>): Result<seq<Stated>, Malformed> {
    if frames == [] then Ok([])
    else
      var first :- ReadRequirement(frames[0]);
      var rest :- ReadRequirements(frames[1..]);
      Ok([first] + rest)
  }

  /** The header, then a list of frames that reaches to the end, one for each requirement. */
  function ReadGuard(b: Bytes): Result<seq<Stated>, Malformed> {
    var header :- ReadBytes(|HEADER|, b);
    var frames :- ReadFrames(header.1);
    if header.0 == HEADER && frames.1 == [] then ReadRequirements(frames.0) else Err(Malformed)
  }

  ghost predicate Says(s: Stated, q: Requirement) {
    s.relation == q.relation && s.entity == q.entity && s.identityColumn == q.identityColumn && SameRule(q.expression, s.expression)
  }

  lemma RequirementReads(q: Requirement)
    requires Fits(EncodeRequirement(q))
    ensures ReadRequirement(EncodeRequirement(q)).Ok? && Says(ReadRequirement(EncodeRequirement(q)).value, q)
  {
    hide Id, Length, EncodeRule, ReadId, ReadLength, ReadRule, SameRule;
    var rule := EncodeRule(q.expression);
    IdReads(q.relation, Id(q.entity) + (Length(q.identityColumn) + rule));
    IdReads(q.entity, Length(q.identityColumn) + rule);
    LengthReads(q.identityColumn, rule);
    RuleReads(q.expression, []);
    assert rule + [] == rule;
  }

  lemma {:induction false} RequirementsRead(frames: seq<Bytes>)
    requires forall f | f in frames :: ReadRequirement(f).Ok?
    ensures ReadRequirements(frames).Ok? && |ReadRequirements(frames).value| == |frames|
    ensures forall i | 0 <= i < |frames| :: ReadRequirement(frames[i]).Ok? && ReadRequirements(frames).value[i] == ReadRequirement(frames[i]).value
  {
    if frames != [] {
      hide ReadRequirement;
      assert frames[0] in frames;
      RequirementsRead(frames[1..]);
      assert forall i | 1 <= i < |frames| :: frames[i] == frames[1..][i - 1];
    }
  }

  ghost predicate StatedBy(s: Stated, qs: seq<Requirement>) {
    exists i | 0 <= i < |qs| :: Says(s, qs[i])
  }

  ghost predicate StatedIn(q: Requirement, read: seq<Stated>) {
    exists j | 0 <= j < |read| :: Says(read[j], q)
  }

  /** The bytes behind a guard can be read, and say exactly the requirements they were made of: all of them, and no
      other one. */
  lemma GuardReads(qs: seq<Requirement>)
    requires GuardFits(qs) && qs != []
    ensures ReadGuard(GuardBytes(qs).value).Ok?
    ensures var read := ReadGuard(GuardBytes(qs).value).value;
            && (forall i | 0 <= i < |qs| :: StatedIn(qs[i], read))
            && (forall j | 0 <= j < |read| :: StatedBy(read[j], qs))
  {
    hide FrameList, SortDedup, EncodeRequirement, ReadRequirement, ReadRequirements, ReadFrames, ReadBytes, Says;
    var encoded := EncodeRequirements(qs);
    var frames := SortDedup(encoded);
    SortDedupSpec(encoded);
    forall i | 0 <= i < |qs|
      ensures ReadRequirement(encoded[i]).Ok? && Says(ReadRequirement(encoded[i]).value, qs[i])
    {
      FrameFits(encoded, encoded[i]);
      RequirementReads(qs[i]);
    }
    BytesRead(HEADER, FrameList(frames));
    FramesRead(frames, []);
    assert FrameList(frames) + [] == FrameList(frames);
    RequirementsRead(frames);
    SaysAll(qs, encoded, frames, ReadRequirements(frames).value);
  }

  lemma SaysAll(qs: seq<Requirement>, encoded: seq<Bytes>, frames: seq<Bytes>, read: seq<Stated>)
    requires |encoded| == |qs| && |read| == |frames| && forall f :: f in frames <==> f in encoded
    requires forall i | 0 <= i < |qs| :: ReadRequirement(encoded[i]).Ok? && Says(ReadRequirement(encoded[i]).value, qs[i])
    requires forall j | 0 <= j < |read| :: ReadRequirement(frames[j]).Ok? && read[j] == ReadRequirement(frames[j]).value
    ensures forall i | 0 <= i < |qs| :: StatedIn(qs[i], read)
    ensures forall j | 0 <= j < |read| :: StatedBy(read[j], qs)
  {
    hide ReadRequirement, Says;
    forall i | 0 <= i < |qs| ensures StatedIn(qs[i], read) {
      assert encoded[i] in frames;
      var j :| 0 <= j < |frames| && frames[j] == encoded[i];
      assert Says(read[j], qs[i]);
    }
    forall j | 0 <= j < |read| ensures StatedBy(read[j], qs) {
      assert frames[j] in encoded;
      var i :| 0 <= i < |encoded| && encoded[i] == frames[j];
      assert Says(read[j], qs[i]);
    }
  }
}
