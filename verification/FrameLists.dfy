/** Lists of byte frames: sorted without duplicates, then written with their count and each with its length. */
module FrameLists {
  import opened ByteCodec

  /** Lexicographic order on byte strings; a proper prefix comes first. */
  predicate Less(a: Bytes, b: Bytes) {
    b != [] && (a == [] || a[0] < b[0] || (a[0] == b[0] && Less(a[1..], b[1..])))
  }

  lemma {:induction false} Trichotomy(a: Bytes, b: Bytes)
    ensures a == b || Less(a, b) || Less(b, a)
  {
    if a != [] && b != [] && a[0] == b[0] {
      Trichotomy(a[1..], b[1..]);
      assert a == [a[0]] + a[1..] && b == [b[0]] + b[1..];
    }
  }

  lemma {:induction false} Transitive(a: Bytes, b: Bytes, c: Bytes)
    requires Less(a, b) && Less(b, c)
    ensures Less(a, c)
  {
    if a != [] && a[0] == b[0] && b[0] == c[0] {
      Transitive(a[1..], b[1..], c[1..]);
    }
  }

  lemma {:induction false} Irreflexive(a: Bytes)
    ensures !Less(a, a)
  {
    if a != [] { Irreflexive(a[1..]); }
  }

  ghost predicate Ascending(s: seq<Bytes>) {
    forall i, j | 0 <= i < j < |s| :: Less(s[i], s[j])
  }

  /** Inserts a frame into an ascending list, unless it is there. */
  function Insert(s: seq<Bytes>, f: Bytes): seq<Bytes> {
    if s == [] || Less(s[|s| - 1], f) then s + [f]
    else if s[|s| - 1] == f then s
    else Insert(s[..|s| - 1], f) + [s[|s| - 1]]
  }

  /** Sorted, without duplicates. */
  function SortDedup(s: seq<Bytes>): seq<Bytes> {
    if s == [] then [] else Insert(SortDedup(s[..|s| - 1]), s[|s| - 1])
  }

  lemma AppendGreatest(s: seq<Bytes>, f: Bytes)
    requires Ascending(s) && forall g | g in s :: Less(g, f)
    ensures Ascending(s + [f])
  {
    assert forall i | 0 <= i < |s| :: s[i] in s;
  }

  lemma {:induction false} InsertSpec(s: seq<Bytes>, f: Bytes)
    requires Ascending(s)
    ensures Ascending(Insert(s, f))
    ensures forall g :: g in Insert(s, f) <==> g in s || g == f
  {
    if s == [] {
    } else {
      hide Less;
      var n := |s| - 1;
      var last := s[n];
      assert s == s[..n] + [last];
      if Less(last, f) {
        forall g | g in s ensures Less(g, f) {
          if g != last { Transitive(g, last, f); }
        }
        AppendGreatest(s, f);
      } else if last != f {
        Trichotomy(last, f);
        InsertSpec(s[..n], f);
        AppendGreatest(Insert(s[..n], f), last);
      }
    }
  }

  lemma {:induction false} SortDedupSpec(s: seq<Bytes>)
    ensures Ascending(SortDedup(s))
    ensures forall g :: g in SortDedup(s) <==> g in s
  {
    if s != [] {
      var n := |s| - 1;
      assert s == s[..n] + [s[n]];
      SortDedupSpec(s[..n]);
      InsertSpec(SortDedup(s[..n]), s[n]);
    }
  }

  lemma LastIsGreatest(s: seq<Bytes>, g: Bytes)
    requires Ascending(s) && s != []
    ensures g in s[..|s| - 1] <==> g in s && g != s[|s| - 1]
    ensures g in s ==> g == s[|s| - 1] || Less(g, s[|s| - 1])
  {
    hide Less;
    var n := |s| - 1;
    assert s == s[..n] + [s[n]];
    Irreflexive(s[n]);
    if g in s[..n] {
      var i :| 0 <= i < n && s[i] == g;
      assert Less(s[i], s[n]);
    }
  }

  lemma EmptyTogether(a: seq<Bytes>, b: seq<Bytes>)
    requires forall g :: g in a <==> g in b
    ensures a == [] <==> b == []
  {
    if a != [] { assert a[0] in b; }
    if b != [] { assert b[0] in a; }
  }

  /** An ascending list is determined by its members. */
  lemma {:induction false} SameMembers(a: seq<Bytes>, b: seq<Bytes>)
    requires Ascending(a) && Ascending(b) && forall g :: g in a <==> g in b
    ensures a == b
  {
    EmptyTogether(a, b);
    if a != [] {
      hide Less;
      var m, n := |a| - 1, |b| - 1;
      LastIsGreatest(a, b[n]);
      LastIsGreatest(b, a[m]);
      if a[m] != b[n] { Transitive(a[m], b[n], a[m]); Irreflexive(a[m]); }
      forall g ensures g in a[..m] <==> g in b[..n] {
        LastIsGreatest(a, g);
        LastIsGreatest(b, g);
      }
      SameMembers(a[..m], b[..n]);
      assert a == a[..m] + [a[m]] && b == b[..n] + [b[n]];
    }
  }

  ghost predicate SameElements(a: seq<Bytes>, b: seq<Bytes>) {
    forall g :: g in a <==> g in b
  }

  /** Normalizing forgets exactly order and repetition. */
  lemma SortDedupSameIff(a: seq<Bytes>, b: seq<Bytes>)
    ensures SortDedup(a) == SortDedup(b) <==> SameElements(a, b)
  {
    SortDedupSpec(a);
    SortDedupSpec(b);
    if SameElements(a, b) {
      SameMembers(SortDedup(a), SortDedup(b));
    } else {
      var g :| !(g in a <==> g in b);
      assert g in SortDedup(a) <==> g in a;
      assert g in SortDedup(b) <==> g in b;
    }
  }

  // ----- Framing -----

  /** Every frame behind its length. */
  function Framed(frames: seq<Bytes>): Bytes {
    if frames == [] then [] else Length(|frames[0]|) + frames[0] + Framed(frames[1..])
  }

  function FrameList(frames: seq<Bytes>): Bytes {
    Length(|frames|) + Framed(frames)
  }

  lemma {:induction false} FramedSize(frames: seq<Bytes>)
    ensures 8 * |frames| <= |Framed(frames)|
    ensures forall f | f in frames :: |f| <= |Framed(frames)|
  {
    if frames != [] {
      FramedSize(frames[1..]);
      assert frames == [frames[0]] + frames[1..];
    }
  }

  lemma FramedFirst(frames: seq<Bytes>, x: Bytes)
    requires frames != []
    ensures Framed(frames) + x == Length(|frames[0]|) + (frames[0] + (Framed(frames[1..]) + x))
    ensures frames == [frames[0]] + frames[1..]
    ensures |frames[0]| <= |Framed(frames)| && |Framed(frames[1..])| <= |Framed(frames)|
  {
    hide Length;
    Regroup(Length(|frames[0]|), frames[0], Framed(frames[1..]), x);
  }

  lemma {:induction false} FramedDelimits(fs: seq<Bytes>, gs: seq<Bytes>, x: Bytes, y: Bytes)
    requires |fs| == |gs| && |Framed(fs)| < U64_LIMIT && |Framed(gs)| < U64_LIMIT
    requires Framed(fs) + x == Framed(gs) + y
    ensures fs == gs && x == y
  {
    if fs == [] {
      assert Framed(fs) + x == x && Framed(gs) + y == y;
    } else {
      hide Framed, Length;
      var f, g, fr, gr := fs[0], gs[0], Framed(fs[1..]), Framed(gs[1..]);
      FramedFirst(fs, x);
      FramedFirst(gs, y);
      SameLengthPrefix(Length(|f|), Length(|g|), f + (fr + x), g + (gr + y));
      LengthInjective(|f|, |g|);
      SameLengthPrefix(f, g, fr + x, gr + y);
      FramedDelimits(fs[1..], gs[1..], x, y);
    }
  }

  lemma FrameListParts(frames: seq<Bytes>, x: Bytes)
    ensures FrameList(frames) + x == Length(|frames|) + (Framed(frames) + x)
    ensures |frames| <= |Framed(frames)| <= |FrameList(frames)|
  {
    FramedSize(frames);
  }

  /** A frame list tells where it ends and determines its frames. */
  lemma FrameListDelimits(fs: seq<Bytes>, gs: seq<Bytes>, x: Bytes, y: Bytes)
    requires |FrameList(fs)| < U64_LIMIT && |FrameList(gs)| < U64_LIMIT
    requires FrameList(fs) + x == FrameList(gs) + y
    ensures fs == gs && x == y
  {
    hide FrameList, Framed, Length;
    FrameListParts(fs, x);
    FrameListParts(gs, y);
    SameLengthPrefix(Length(|fs|), Length(|gs|), Framed(fs) + x, Framed(gs) + y);
    LengthInjective(|fs|, |gs|);
    FramedDelimits(fs, gs, x, y);
  }
}
