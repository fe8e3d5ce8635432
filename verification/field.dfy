/** The metaball field: every circle contributes r²/d² at a point at squared
    distance d² from its centre, and the field is the sum of the contributions
    (`metaballFn`). */
module Field {
  import opened Vectors
  import RealFacts

  /** One influence source: its centre, radius and velocity (pixels/second). */
  datatype Circle = Circle(centre: Vec, radius: real, vel: Vec)

  /** The field is finite at `pt`: no centre coincides with it. */
  predicate DefinedAt(cs: seq<Circle>, pt: Vec) {
    forall i :: 0 <= i < |cs| ==> SqrDist(cs[i].centre, pt) > 0.0
  }

  /** A single circle's share of the field at `pt`. */
  function Contribution(c: Circle, pt: Vec): real
    requires SqrDist(c.centre, pt) > 0.0
  {
    (c.radius * c.radius) / SqrDist(c.centre, pt)
  }

  /** The field value at `pt`: the sum of every circle's contribution. It is
      never negative and is at least each single contribution. */
  function Value(cs: seq<Circle>, pt: Vec): (v: real)
    requires DefinedAt(cs, pt)
    ensures v >= 0.0
    ensures forall i :: 0 <= i < |cs| ==> v >= Contribution(cs[i], pt)
  {
    if |cs| == 0 then 0.0
    else
      var last := cs[|cs| - 1];
      assert SqrDist(last.centre, pt) > 0.0;
      Value(cs[..|cs| - 1], pt) + Contribution(last, pt)
  }

  /** `metaballFn(pt)`: the source's accumulation loop over the circles. */
  method MetaballFn(cs: seq<Circle>, pt: Vec) returns (value: real)
    requires DefinedAt(cs, pt)
    ensures value == Value(cs, pt)
  {
    value := 0.0;
    var n := |cs|;
    for i := 0 to n
      invariant value == Value(cs[..i], pt)
    {
      var c := cs[i];
      var r2 := c.radius * c.radius;
      var d2 := SqrDist(c.centre, pt);
      value := value + r2 / d2;
      assert cs[..i + 1][..i] == cs[..i];
    }
    assert cs[..n] == cs;
  }

  /** The field of a concatenation is the sum of the fields of its parts. */
  lemma {:induction false} ValueAppend(a: seq<Circle>, b: seq<Circle>, pt: Vec)
    requires DefinedAt(a + b, pt)
    ensures DefinedAt(a, pt) && DefinedAt(b, pt)
    ensures Value(a + b, pt) == Value(a, pt) + Value(b, pt)
  {
    assert forall i :: 0 <= i < |a| ==> a[i] == (a + b)[i];
    assert forall i :: 0 <= i < |b| ==> b[i] == (a + b)[|a| + i];
    if |b| == 0 {
      assert a + b == a;
    } else {
      var b' := b[..|b| - 1];
      assert (a + b)[..|a + b| - 1] == a + b';
      assert forall i :: 0 <= i < |b'| ==> b'[i] == b[i];
      ValueAppend(a, b', pt);
    }
  }

  /** The field does not depend on the order in which the circles are listed:
      any rearrangement of the list gives the same value at every point. */
  lemma {:induction false} ValuePermutation(a: seq<Circle>, b: seq<Circle>, pt: Vec)
    requires multiset(a) == multiset(b) && DefinedAt(a, pt)
    ensures DefinedAt(b, pt) && Value(a, pt) == Value(b, pt)
    decreases |a|
  {
    DefinedUnderPermutation(a, b, pt);
    if |a| > 0 {
      var x := a[|a| - 1];
      var a' := a[..|a| - 1];
      assert x in multiset(b);
      var k :| 0 <= k < |b| && b[k] == x;
      var b' := RemoveAt(b, k, pt);
      RemoveLast(a, pt);
      MultisetAfterRemoval(a, b, k);
      ValuePermutation(a', b', pt);
    }
  }

  /** Dropping the last circle takes exactly its contribution off the field. */
  lemma RemoveLast(a: seq<Circle>, pt: Vec)
    requires |a| > 0 && DefinedAt(a, pt)
    ensures DefinedAt(a[..|a| - 1], pt) && SqrDist(a[|a| - 1].centre, pt) > 0.0
    ensures Value(a, pt) == Value(a[..|a| - 1], pt) + Contribution(a[|a| - 1], pt)
  {
  }

  /** Dropping the circle at `k` takes exactly its contribution off the field. */
  lemma RemoveAt(b: seq<Circle>, k: int, pt: Vec) returns (b': seq<Circle>)
    requires 0 <= k < |b| && DefinedAt(b, pt)
    ensures b' == b[..k] + b[k + 1..]
    ensures DefinedAt(b', pt) && SqrDist(b[k].centre, pt) > 0.0
    ensures Value(b, pt) == Value(b', pt) + Contribution(b[k], pt)
  {
    var front, back := b[..k], b[k + 1..];
    b' := front + back;
    assert b == front + ([b[k]] + back);
    ValueAppend(front, [b[k]] + back, pt);
    ValueAppend([b[k]], back, pt);
    DefinedConcat(front, back, pt);
    ValueAppend(front, back, pt);
  }

  /** Taking the last element off `a` and the same circle off `b` keeps two
      rearrangements of each other. */
  lemma MultisetAfterRemoval(a: seq<Circle>, b: seq<Circle>, k: int)
    requires multiset(a) == multiset(b) && |a| > 0
    requires 0 <= k < |b| && b[k] == a[|a| - 1]
    ensures multiset(a[..|a| - 1]) == multiset(b[..k] + b[k + 1..])
  {
    var x := a[|a| - 1];
    assert a == a[..|a| - 1] + [x];
    assert b == b[..k] + [x] + b[k + 1..];
    var ma, mb := multiset(a[..|a| - 1]), multiset(b[..k] + b[k + 1..]);
    assert multiset(a) == ma + multiset{x};
    assert multiset(b) == mb + multiset{x};
    forall y ensures ma[y] == mb[y] {
      assert (ma + multiset{x})[y] == (mb + multiset{x})[y];
    }
  }

  /** Two lists without a centre on the point concatenate to one. */
  lemma DefinedConcat(a: seq<Circle>, b: seq<Circle>, pt: Vec)
    requires DefinedAt(a, pt) && DefinedAt(b, pt)
    ensures DefinedAt(a + b, pt)
  {
    forall i | 0 <= i < |a + b|
      ensures SqrDist((a + b)[i].centre, pt) > 0.0
    {
      if i >= |a| {
        assert (a + b)[i] == b[i - |a|];
      }
    }
  }

  /** A rearranged list leaves no centre on the point if the original did not. */
  lemma DefinedUnderPermutation(a: seq<Circle>, b: seq<Circle>, pt: Vec)
    requires multiset(a) == multiset(b) && DefinedAt(a, pt)
    ensures DefinedAt(b, pt)
  {
    forall i | 0 <= i < |b|
      ensures SqrDist(b[i].centre, pt) > 0.0
    {
      assert b[i] in multiset(a);
      var j :| 0 <= j < |a| && a[j] == b[i];
    }
  }

  /** A single circle of radius r, sampled at distance exactly r from its centre,
      gives exactly the iso-level 1.0. */
  lemma ValueOnRim(c: Circle, pt: Vec)
    requires c.radius > 0.0
    requires SqrDist(c.centre, pt) == c.radius * c.radius
    ensures DefinedAt([c], pt)
    ensures Value([c], pt) == 1.0
  {
    RealFacts.ProductPositive(SqrDist(c.centre, pt), c.radius, c.radius);
    assert [c][0] == c;
    assert [c][..0] == [];
    RealFacts.SelfQuotient(Contribution(c, pt), SqrDist(c.centre, pt));
  }

  /** A point strictly inside some circle (and on no centre) has a field value
      above 1.0, so marching squares classifies it as "in". */
  lemma InsideCircleAboveLevel(cs: seq<Circle>, i: nat, pt: Vec)
    requires DefinedAt(cs, pt)
    requires i < |cs|
    requires SqrDist(cs[i].centre, pt) < cs[i].radius * cs[i].radius
    ensures Value(cs, pt) > 1.0
  {
    ContributionAboveOne(cs[i], pt);
    assert Value(cs, pt) >= Contribution(cs[i], pt);
  }

  /** Strictly inside a circle (but not at its centre) its own contribution
      already exceeds one. */
  lemma ContributionAboveOne(c: Circle, pt: Vec)
    requires 0.0 < SqrDist(c.centre, pt) < c.radius * c.radius
    ensures Contribution(c, pt) > 1.0
  {
    RealFacts.AboveQuotient(Contribution(c, pt), c.radius * c.radius, SqrDist(c.centre, pt));
  }
}
