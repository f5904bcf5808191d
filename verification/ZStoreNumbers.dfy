/**
 The scores of unions and intersections in numbers: sums, minima and maxima of score times weight,
 a missing weight being 1.
 */
module ZStoreNumbers {
  import opened Bytes
  import opened ZSetOrder
  import opened ZAdd
  import opened ZSetStorage
  import opened ZStores

  /** No infinity and no NaN, in the weights or among the scores of `m`. */
  ghost predicate Numbers(sources: seq<Option<Value>>, weights: seq<Score>, m: Member) {
    && (forall i :: 0 <= i < |weights| ==> weights[i].Fin?)
    && forall i :: 0 <= i < |sources| && m in EntriesOf(sources[i]) ==> EntriesOf(sources[i])[m].Fin?
  }

  /** The score of `m` in source `i`, times the weight of that source if it has one. */
  ghost function Weighted(sources: seq<Option<Value>>, weights: seq<Score>, m: Member, i: nat): real
    requires Numbers(sources, weights, m) && i < |sources| && m in EntriesOf(sources[i])
  {
    if i < |weights| then EntriesOf(sources[i])[m].r * weights[i].r else EntriesOf(sources[i])[m].r
  }

  /** The sum over the sources that have `m`. */
  ghost function WeightedSum(sources: seq<Option<Value>>, weights: seq<Score>, m: Member): real
    requires Numbers(sources, weights, m)
    decreases |sources|
  {
    if sources == [] then 0.0
    else
      var n := |sources| - 1;
      WeightedSum(sources[..n], weights, m) + if m in EntriesOf(sources[n]) then Weighted(sources, weights, m, n) else 0.0
  }

  lemma CombineSnoc(aggregate: Aggregate, s: seq<Score>, x: Score)
    ensures Combine(aggregate, s + [x]) == if s == [] then x else Merge(aggregate, Combine(aggregate, s), x)
  {
    assert (s + [x])[..|s|] == s;
  }

  /** What one source contributes, in numbers. */
  lemma ContributionNumber(sources: seq<Option<Value>>, weights: seq<Score>, m: Member, i: nat)
    requires Numbers(sources, weights, m) && i < |sources|
    ensures Contribution(sources[i], Weight(weights, i), m)
      == if m in EntriesOf(sources[i]) then [Fin(Weighted(sources, weights, m, i))] else []
  {
    if m in EntriesOf(sources[i]) {
      var a, w := EntriesOf(sources[i])[m], Weight(weights, i);
      assert w == if i < |weights| then weights[i] else Fin(1.0);
      assert Mul(a, w) == Fin(a.r * w.r);
      assert Weighted(sources, weights, m, i) == a.r * w.r;
    }
  }

  lemma {:induction false} SumOfContributions(sources: seq<Option<Value>>, weights: seq<Score>, m: Member)
    requires Numbers(sources, weights, m)
    ensures var c := Contributions(sources, weights, m);
      if c == [] then WeightedSum(sources, weights, m) == 0.0
      else Combine(SumOf, c) == Fin(WeightedSum(sources, weights, m))
    decreases |sources|
  {
    if sources != [] {
      var n := |sources| - 1;
      SumOfContributions(sources[..n], weights, m);
      ContributionNumber(sources, weights, m, n);
      var c := Contributions(sources[..n], weights, m);
      if m in EntriesOf(sources[n]) {
        CombineSnoc(SumOf, c, Fin(Weighted(sources, weights, m, n)));
      } else {
        assert c + [] == c;
      }
    }
  }

  lemma {:induction false} ContributionsAre(sources: seq<Option<Value>>, weights: seq<Score>, m: Member)
    requires Numbers(sources, weights, m)
    ensures forall x :: x in Contributions(sources, weights, m) <==>
      exists i :: 0 <= i < |sources| && m in EntriesOf(sources[i]) && x == Fin(Weighted(sources, weights, m, i))
    decreases |sources|
  {
    if sources != [] {
      var n := |sources| - 1;
      var init := sources[..n];
      ContributionsAre(init, weights, m);
      ContributionNumber(sources, weights, m, n);
      forall x
        ensures x in Contributions(sources, weights, m) <==>
          exists i :: 0 <= i < |sources| && m in EntriesOf(sources[i]) && x == Fin(Weighted(sources, weights, m, i))
      {
        if i :| 0 <= i < |init| && m in EntriesOf(init[i]) && x == Fin(Weighted(init, weights, m, i)) {
          assert x == Fin(Weighted(sources, weights, m, i));
        }
        if i :| 0 <= i < |sources| && m in EntriesOf(sources[i]) && x == Fin(Weighted(sources, weights, m, i)) {
          assert i < n ==> x == Fin(Weighted(init, weights, m, i));
        }
      }
    }
  }

  // ----- Unions and intersections -----

  /** The aggregate of the weighted scores, in numbers. */
  ghost predicate IsAggregate(aggregate: Aggregate, r: real, sources: seq<Option<Value>>, weights: seq<Score>, m: Member)
    requires Numbers(sources, weights, m)
  {
    match aggregate
    case SumOf => r == WeightedSum(sources, weights, m)
    case MinOf =>
      && (exists i :: 0 <= i < |sources| && m in EntriesOf(sources[i]) && r == Weighted(sources, weights, m, i))
      && forall i :: 0 <= i < |sources| && m in EntriesOf(sources[i]) ==> r <= Weighted(sources, weights, m, i)
    case MaxOf =>
      && (exists i :: 0 <= i < |sources| && m in EntriesOf(sources[i]) && r == Weighted(sources, weights, m, i))
      && forall i :: 0 <= i < |sources| && m in EntriesOf(sources[i]) ==> r >= Weighted(sources, weights, m, i)
  }

  lemma CombineNumbers(aggregate: Aggregate, sources: seq<Option<Value>>, weights: seq<Score>, m: Member)
    requires Numbers(sources, weights, m) && Contributions(sources, weights, m) != []
    ensures var x := Combine(aggregate, Contributions(sources, weights, m));
      x.Fin? && IsAggregate(aggregate, x.r, sources, weights, m)
  {
    var c := Contributions(sources, weights, m);
    if aggregate == SumOf {
      SumOfContributions(sources, weights, m);
    } else {
      CombineExtreme(c);
      ContributionsAre(sources, weights, m);
      var x := Combine(aggregate, c);
      assert x in c;
      forall i | 0 <= i < |sources| && m in EntriesOf(sources[i])
        ensures Fin(Weighted(sources, weights, m, i)) in c
      {
      }
    }
  }

  /** ZUNIONSTORE: the members of all sources, each with the sum, minimum or maximum of score times weight. */
  lemma UnionNumbers(entries: Entries, sources: seq<Option<Value>>, weights: seq<Score>, aggregate: Aggregate, m: Member)
    requires IsUnion(entries, sources, weights, aggregate) && Numbers(sources, weights, m)
    ensures m in entries <==> exists i :: 0 <= i < |sources| && m in EntriesOf(sources[i])
    ensures m in entries ==> entries[m].Fin? && IsAggregate(aggregate, entries[m].r, sources, weights, m)
  {
    if m in entries {
      ContributionsSome(sources, weights, m);
      CombineNumbers(aggregate, sources, weights, m);
    }
  }

  /** ZINTERSTORE: the same for the members that every source has. */
  lemma IntersectionNumbers(entries: Entries, sources: seq<Option<Value>>, weights: seq<Score>, aggregate: Aggregate, m: Member)
    requires IsIntersection(entries, sources, weights, aggregate) && Numbers(sources, weights, m)
    ensures m in entries <==> sources != [] && forall i :: 0 <= i < |sources| ==> m in EntriesOf(sources[i])
    ensures m in entries ==> entries[m].Fin? && IsAggregate(aggregate, entries[m].r, sources, weights, m)
  {
    if m in entries {
      InAllContributes(sources, weights, m);
      CombineNumbers(aggregate, sources, weights, m);
    }
  }

  // ----- One source, and infinities -----

  predicate Positive(s: Score) {
    s.PosInf? || (s.Fin? && s.r > 0.0)
  }

  predicate Negative(s: Score) {
    s.NegInf? || (s.Fin? && s.r < 0.0)
  }

  /** Products by the rule of signs; zero times an infinity is NaN. */
  predicate IsProduct(p: Score, a: Score, b: Score) {
    if a.Fin? && b.Fin? then p == Fin(a.r * b.r)
    else if (Positive(a) && Positive(b)) || (Negative(a) && Negative(b)) then p == PosInf
    else if (Positive(a) && Negative(b)) || (Negative(a) && Positive(b)) then p == NegInf
    else p == NaN
  }

  lemma ProductExactly(a: Score, b: Score)
    ensures IsProduct(Mul(a, b), a, b) && Mul(a, Fin(1.0)) == a
  {
  }

  lemma OneContribution(source: Option<Value>, weights: seq<Score>, aggregate: Aggregate, m: Member)
    requires m in EntriesOf(source)
    ensures Contributions([source], weights, m) == [Mul(EntriesOf(source)[m], Weight(weights, 0))]
    ensures Combine(aggregate, Contributions([source], weights, m)) == Mul(EntriesOf(source)[m], Weight(weights, 0))
  {
    assert [source][..0] == [];
  }

  lemma OneMember(entries: Entries, source: Option<Value>, weights: seq<Score>, aggregate: Aggregate, m: Member)
    requires IsUnion(entries, [source], weights, aggregate)
    ensures m in entries <==> m in EntriesOf(source)
    ensures m in entries ==> entries[m] == Mul(EntriesOf(source)[m], Weight(weights, 0))
  {
    assert InSome([source], m) <==> m in EntriesOf(source) by {
      assert [source][0] == source;
    }
    if m in entries {
      OneContribution(source, weights, aggregate, m);
    }
  }

  /** A set united with nothing else is stored as it is, or with a weight every score is multiplied. */
  lemma OneSource(entries: Entries, source: Option<Value>, weights: seq<Score>, aggregate: Aggregate)
    requires IsUnion(entries, [source], weights, aggregate)
    ensures weights == [] ==> entries == EntriesOf(source)
    ensures entries.Keys == EntriesOf(source).Keys
    ensures weights != [] ==> forall m :: m in entries ==> IsProduct(entries[m], EntriesOf(source)[m], weights[0])
  {
    forall m
      ensures m in entries <==> m in EntriesOf(source)
      ensures m in entries && weights == [] ==> entries[m] == EntriesOf(source)[m]
      ensures m in entries && weights != [] ==> IsProduct(entries[m], EntriesOf(source)[m], weights[0])
    {
      OneMember(entries, source, weights, aggregate, m);
      if m in entries {
        ProductExactly(EntriesOf(source)[m], Weight(weights, 0));
      }
    }
  }

  /** The sum of the finite scores. */
  function FiniteSum(s: seq<Score>): real
    decreases |s|
  {
    if s == [] then 0.0
    else FiniteSum(s[..|s| - 1]) + if s[|s| - 1].Fin? then s[|s| - 1].r else 0.0
  }

  /** Sums with infinities: opposite ones give NaN, otherwise an infinity absorbs the rest. */
  lemma {:induction false} SumWithInfinities(s: seq<Score>)
    requires s != []
    ensures Combine(SumOf, s)
      == if NaN in s || (PosInf in s && NegInf in s) then NaN
         else if PosInf in s then PosInf
         else if NegInf in s then NegInf
         else Fin(FiniteSum(s))
    decreases |s|
  {
    var n := |s| - 1;
    assert s == s[..n] + [s[n]];
    if n > 0 {
      SumWithInfinities(s[..n]);
    } else {
      assert s[..n] == [];
      assert FiniteSum(s[..n]) == 0.0;
    }
  }
}
