/** Model field patches of a plan: lists of patches kept strictly sorted by field and owner, which stand for
    finite maps. */
module FieldPatches {
  import opened Wrappers

  type Key = (nat, nat)

  /** `None` as the value clears the field. */
  datatype FieldPatch = FieldPatch(field: nat, owner: nat, value: Option<nat>)

  function KeyOf(p: FieldPatch): Key {
    (p.field, p.owner)
  }

  predicate KeyLess(a: Key, b: Key) {
    a.0 < b.0 || (a.0 == b.0 && a.1 < b.1)
  }

  ghost predicate Unique(s: seq<FieldPatch>) {
    forall i, j | 0 <= i < j < |s| :: KeyOf(s[i]) != KeyOf(s[j])
  }

  ghost predicate StrictlySorted(s: seq<FieldPatch>) {
    forall i, j | 0 <= i < j < |s| :: KeyLess(KeyOf(s[i]), KeyOf(s[j]))
  }

  /** What a lookup by key finds: the first patch with the key. */
  function FieldMap(s: seq<FieldPatch>): map<Key, Option<nat>> {
    if s == [] then map[]
    else
      var before, last := FieldMap(s[..|s| - 1]), s[|s| - 1];
      if KeyOf(last) in before then before else before[KeyOf(last) := last.value]
  }

  /** Position of the first patch with the key, or the length if there is none. */
  function Find(s: seq<FieldPatch>, k: Key): (i: nat)
    ensures i <= |s| && (i < |s| ==> KeyOf(s[i]) == k)
    ensures forall j | 0 <= j < i :: KeyOf(s[j]) != k
  {
    if s == [] then 0
    else
      var i := Find(s[..|s| - 1], k);
      if i < |s| - 1 || KeyOf(s[i]) == k then i else |s|
  }

  /** Overwrites the first patch with the key, or appends. */
  function Put(s: seq<FieldPatch>, p: FieldPatch): seq<FieldPatch> {
    var i := Find(s, KeyOf(p));
    if i < |s| then s[i := s[i].(value := p.value)] else s + [p]
  }

  function PutAll(s: seq<FieldPatch>, other: seq<FieldPatch>): seq<FieldPatch> {
    if other == [] then s else Put(PutAll(s, other[..|other| - 1]), other[|other| - 1])
  }

  /** Stable insertion: behind every patch that is not larger. */
  function InsertSorted(s: seq<FieldPatch>, p: FieldPatch): seq<FieldPatch> {
    if s == [] || !KeyLess(KeyOf(p), KeyOf(s[|s| - 1])) then s + [p]
    else InsertSorted(s[..|s| - 1], p) + [s[|s| - 1]]
  }

  function Sort(s: seq<FieldPatch>): seq<FieldPatch> {
    if s == [] then [] else InsertSorted(Sort(s[..|s| - 1]), s[|s| - 1])
  }

  // ----- Lookups -----

  lemma {:induction false} FieldMapFinds(s: seq<FieldPatch>, k: Key)
    ensures k in FieldMap(s) <==> Find(s, k) < |s|
    ensures k in FieldMap(s) ==> FieldMap(s)[k] == s[Find(s, k)].value
  {
    if s != [] { FieldMapFinds(s[..|s| - 1], k); }
  }

  /** In a list without repeated keys every patch is found. */
  lemma FindsEach(s: seq<FieldPatch>, p: FieldPatch)
    requires Unique(s)
    ensures p in s <==> KeyOf(p) in FieldMap(s) && FieldMap(s)[KeyOf(p)] == p.value
  {
    FieldMapFinds(s, KeyOf(p));
    var i := Find(s, KeyOf(p));
    if p in s {
      var j :| 0 <= j < |s| && s[j] == p;
    }
  }

  lemma PutSpec(s: seq<FieldPatch>, p: FieldPatch)
    ensures FieldMap(Put(s, p)) == FieldMap(s)[KeyOf(p) := p.value]
    ensures Unique(s) ==> Unique(Put(s, p))
  {
    var t, i := Put(s, p), Find(s, KeyOf(p));
    forall k
      ensures k in FieldMap(t) <==> k in FieldMap(s) || k == KeyOf(p)
      ensures k in FieldMap(t) ==> FieldMap(t)[k] == if k == KeyOf(p) then p.value else FieldMap(s)[k]
    {
      FieldMapFinds(s, k);
      FieldMapFinds(t, k);
      assert forall j | 0 <= j < |s| :: KeyOf(t[j]) == KeyOf(s[j]);
    }
  }

  lemma LastIsNew(s: seq<FieldPatch>)
    requires Unique(s) && s != []
    ensures Unique(s[..|s| - 1])
    ensures FieldMap(s) == FieldMap(s[..|s| - 1])[KeyOf(s[|s| - 1]) := s[|s| - 1].value]
  {
    FieldMapFinds(s[..|s| - 1], KeyOf(s[|s| - 1]));
  }

  /** Merging a list in is right-biased map union. */
  lemma {:induction false} PutAllSpec(s: seq<FieldPatch>, other: seq<FieldPatch>)
    requires Unique(other)
    ensures FieldMap(PutAll(s, other)) == FieldMap(s) + FieldMap(other)
    ensures Unique(s) ==> Unique(PutAll(s, other))
  {
    hide *;
    if other == [] {
      PutNone(s);
    } else {
      var n := |other| - 1;
      PutLast(s, other);
      LastIsNew(other);
      PutAllSpec(s, other[..n]);
      PutSpec(PutAll(s, other[..n]), other[n]);
    }
  }

  lemma PutNone(s: seq<FieldPatch>)
    ensures PutAll(s, []) == s && FieldMap(s) == FieldMap(s) + FieldMap([])
  {
  }

  lemma PutLast(s: seq<FieldPatch>, other: seq<FieldPatch>)
    requires other != []
    ensures PutAll(s, other) == Put(PutAll(s, other[..|other| - 1]), other[|other| - 1])
  {
  }

  // ----- Sorting -----

  lemma {:induction false} InsertSortedSpec(s: seq<FieldPatch>, p: FieldPatch)
    requires StrictlySorted(s) && forall q | q in s :: KeyOf(q) != KeyOf(p)
    ensures StrictlySorted(InsertSorted(s, p))
    ensures forall q :: q in InsertSorted(s, p) <==> q in s || q == p
  {
    if s != [] && KeyLess(KeyOf(p), KeyOf(s[|s| - 1])) {
      var n := |s| - 1;
      InsertSortedSpec(s[..n], p);
      var t := InsertSorted(s[..n], p);
      forall q | q in t ensures KeyLess(KeyOf(q), KeyOf(s[n])) {
        if q != p { assert q in s[..n]; }
      }
    } else if s != [] {
      assert KeyOf(s[|s| - 1]) != KeyOf(p);
    }
  }

  lemma {:induction false} SortSpec(s: seq<FieldPatch>)
    requires Unique(s)
    ensures StrictlySorted(Sort(s))
    ensures forall q :: q in Sort(s) <==> q in s
  {
    if s != [] {
      var n := |s| - 1;
      SortSpec(s[..n]);
      InsertSortedSpec(Sort(s[..n]), s[n]);
    }
  }

  /** Lists without repeated keys and with the same patches stand for the same map. */
  lemma SamePatchesSameMap(a: seq<FieldPatch>, b: seq<FieldPatch>)
    requires Unique(a) && Unique(b) && forall q :: q in a <==> q in b
    ensures FieldMap(a) == FieldMap(b)
  {
    forall k: Key | k in FieldMap(a) ensures k in FieldMap(b) && FieldMap(b)[k] == FieldMap(a)[k] {
      FindsEach(a, FieldPatch(k.0, k.1, FieldMap(a)[k]));
      FindsEach(b, FieldPatch(k.0, k.1, FieldMap(a)[k]));
    }
    forall k: Key | k in FieldMap(b) ensures k in FieldMap(a) {
      FindsEach(a, FieldPatch(k.0, k.1, FieldMap(b)[k]));
      FindsEach(b, FieldPatch(k.0, k.1, FieldMap(b)[k]));
    }
  }

  lemma SameMapSamePatches(a: seq<FieldPatch>, b: seq<FieldPatch>)
    requires Unique(a) && Unique(b) && FieldMap(a) == FieldMap(b)
    ensures forall q :: q in a <==> q in b
  {
    forall q ensures q in a <==> q in b {
      FindsEach(a, q);
      FindsEach(b, q);
    }
  }

  lemma SortedIsUnique(s: seq<FieldPatch>)
    requires StrictlySorted(s)
    ensures Unique(s)
  {
    forall i, j | 0 <= i < j < |s| ensures KeyOf(s[i]) != KeyOf(s[j]) {
      assert KeyLess(KeyOf(s[i]), KeyOf(s[j]));
    }
  }

  lemma {:induction false} SameMembers(a: seq<FieldPatch>, b: seq<FieldPatch>)
    requires StrictlySorted(a) && StrictlySorted(b)
    requires forall q :: q in a <==> q in b
    ensures a == b
  {
    assert forall i | 0 <= i < |a| :: a[i] in a;
    assert forall i | 0 <= i < |b| :: b[i] in b;
    if a != [] && b != [] {
      var m, n := |a| - 1, |b| - 1;
      assert a[m] in b && b[n] in a;
      forall q ensures q in a[..m] <==> q in b[..n] {
        SplitLast(a, q);
        SplitLast(b, q);
      }
      SameMembers(a[..m], b[..n]);
      assert a == a[..m] + [a[m]] && b == b[..n] + [b[n]];
    }
  }

  /** A strictly sorted list is determined by the map it stands for. */
  lemma Canonical(a: seq<FieldPatch>, b: seq<FieldPatch>)
    requires StrictlySorted(a) && StrictlySorted(b) && FieldMap(a) == FieldMap(b)
    ensures a == b
  {
    SortedIsUnique(a);
    SortedIsUnique(b);
    SameMapSamePatches(a, b);
    SameMembers(a, b);
  }

  lemma SplitLast(s: seq<FieldPatch>, q: FieldPatch)
    requires StrictlySorted(s) && s != []
    ensures q in s[..|s| - 1] <==> q in s && q != s[|s| - 1]
    ensures q in s ==> q == s[|s| - 1] || KeyLess(KeyOf(q), KeyOf(s[|s| - 1]))
  {
    if q in s {
      var i :| 0 <= i < |s| && s[i] == q;
    }
  }

  /** Merging a strictly sorted list into another and sorting: strictly sorted again, and right-biased union. */
  lemma MergeSpec(a: seq<FieldPatch>, b: seq<FieldPatch>)
    requires StrictlySorted(a) && StrictlySorted(b)
    ensures StrictlySorted(Sort(PutAll(a, b)))
    ensures FieldMap(Sort(PutAll(a, b))) == FieldMap(a) + FieldMap(b)
  {
    hide PutAll, FieldMap, Sort;
    SortedIsUnique(a);
    SortedIsUnique(b);
    PutAllSpec(a, b);
    SortSpec(PutAll(a, b));
    SortedIsUnique(Sort(PutAll(a, b)));
    SamePatchesSameMap(Sort(PutAll(a, b)), PutAll(a, b));
  }

  // ----- The loops -----

  method FindPatch(s: seq<FieldPatch>, k: Key) returns (i: nat)
    ensures i == Find(s, k)
  {
    i := 0;
    while i < |s| && KeyOf(s[i]) != k
      invariant i <= |s| && forall j | 0 <= j < i :: KeyOf(s[j]) != k
    {
      i := i + 1;
    }
  }

  method MergeFields(a: seq<FieldPatch>, b: seq<FieldPatch>) returns (merged: seq<FieldPatch>)
    ensures merged == Sort(PutAll(a, b))
  {
    merged := a;
    for n := 0 to |b|
      invariant merged == PutAll(a, b[..n])
    {
      var i := FindPatch(merged, KeyOf(b[n]));
      assert b[..n + 1][..n] == b[..n];
      if i < |merged| {
        merged := merged[i := merged[i].(value := b[n].value)];
      } else {
        merged := merged + [b[n]];
      }
    }
    assert b[..|b|] == b;
    merged := Sort(merged);
  }
}
