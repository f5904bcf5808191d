/**
 ZUNIONSTORE, ZINTERSTORE and ZDIFFSTORE.  The destination is deleted first, so the sources are
 read in the store without it; the hash maps that collect the scores have no order.
 */
module ZStores {
  import opened Bytes
  import opened ZSetOrder
  import opened ZSets
  import opened ZAdd
  import opened ZSetStorage

  datatype Aggregate = SumOf | MinOf | MaxOf

  /** Scores collected per member; a member that is present has at least one. */
  type Tally = t: map<Member, seq<Score>> | NoBlanks(t) witness map[]

  predicate NoBlanks(t: map<Member, seq<Score>>) {
    forall m :: m in t ==> t[m] != []
  }

  function Collected(t: map<Member, seq<Score>>, m: Member): seq<Score> {
    if m in t then t[m] else []
  }

  // ----- What is to be computed -----

  function Combine(aggregate: Aggregate, scores: seq<Score>): Score
    requires scores != []
    decreases |scores|
  {
    var n := |scores| - 1;
    if n == 0 then scores[0]
    else
      var before := Combine(aggregate, scores[..n]);
      Merge(aggregate, before, scores[n])
  }

  /** Missing weights are one. */
  function Weight(weights: seq<Score>, i: nat): Score {
    if i < |weights| then weights[i] else Fin(1.0)
  }

  /** The weighted scores of `m` in the sources that have it, in source order. */
  function Contributions(sources: seq<Option<Value>>, weights: seq<Score>, m: Member): seq<Score>
    decreases |sources|
  {
    if sources == [] then []
    else
      var n := |sources| - 1;
      Contributions(sources[..n], weights, m) + Contribution(sources[n], Weight(weights, n), m)
  }

  function Contribution(source: Option<Value>, weight: Score, m: Member): seq<Score> {
    if m in EntriesOf(source) then [Mul(EntriesOf(source)[m], weight)] else []
  }

  predicate InSome(sources: seq<Option<Value>>, m: Member) {
    exists i :: 0 <= i < |sources| && m in EntriesOf(sources[i])
  }

  predicate InAll(sources: seq<Option<Value>>, m: Member) {
    sources != [] && forall i :: 0 <= i < |sources| ==> m in EntriesOf(sources[i])
  }

  /** In the first source and in no other. */
  predicate InFirstOnly(sources: seq<Option<Value>>, m: Member) {
    sources != [] && m in EntriesOf(sources[0]) && forall i :: 1 <= i < |sources| ==> m !in EntriesOf(sources[i])
  }

  ghost predicate IsUnion(entries: Entries, sources: seq<Option<Value>>, weights: seq<Score>, aggregate: Aggregate) {
    && (forall m :: m in entries <==> InSome(sources, m))
    && forall m :: m in entries && Contributions(sources, weights, m) != [] ==>
         entries[m] == Combine(aggregate, Contributions(sources, weights, m))
  }

  ghost predicate IsIntersection(entries: Entries, sources: seq<Option<Value>>, weights: seq<Score>, aggregate: Aggregate) {
    && (forall m :: m in entries <==> InAll(sources, m))
    && forall m :: m in entries && Contributions(sources, weights, m) != [] ==>
         entries[m] == Combine(aggregate, Contributions(sources, weights, m))
  }

  ghost predicate IsDifference(entries: Entries, sources: seq<Option<Value>>) {
    && (forall m :: m in entries <==> InFirstOnly(sources, m))
    && forall m :: m in entries ==> m in EntriesOf(sources[0]) && entries[m] == EntriesOf(sources[0])[m]
  }

  predicate Foreign(v: Option<Value>) {
    v.Some? && v.value.Other?
  }

  function Resolve(dbs: Dbs, db: nat, keys: seq<Name>): (sources: seq<Option<Value>>)
    ensures |sources| == |keys|
    ensures forall i :: 0 <= i < |keys| ==> sources[i] == Find(dbs, db, keys[i])
  {
    seq(|keys|, i requires 0 <= i < |keys| => Find(dbs, db, keys[i]))
  }

  // ----- Contributions -----

  lemma ContributionsStep(sources: seq<Option<Value>>, weights: seq<Score>, i: nat, m: Member)
    requires i < |sources|
    ensures Contributions(sources[..i + 1], weights, m)
      == Contributions(sources[..i], weights, m) + Contribution(sources[i], Weight(weights, i), m)
  {
    assert sources[..i + 1][..i] == sources[..i];
  }

  /** A member has a contribution exactly when some source has it. */
  lemma {:induction false} ContributionsSome(sources: seq<Option<Value>>, weights: seq<Score>, m: Member)
    ensures Contributions(sources, weights, m) != [] <==> InSome(sources, m)
    decreases |sources|
  {
    if sources != [] {
      var n := |sources| - 1;
      var init := sources[..n];
      ContributionsSome(init, weights, m);
      if InSome(init, m) {
        var i :| 0 <= i < |init| && m in EntriesOf(init[i]);
        assert m in EntriesOf(sources[i]);
      }
      if InSome(sources, m) && m !in EntriesOf(sources[n]) {
        var i :| 0 <= i < |sources| && m in EntriesOf(sources[i]);
        assert m in EntriesOf(init[i]);
      }
    }
  }

  /** `Combine` under MIN and MAX is the least and the greatest contribution. */
  lemma {:induction false} CombineExtreme(scores: seq<Score>)
    requires scores != []
    ensures IsMin(Combine(MinOf, scores), scores) && IsMax(Combine(MaxOf, scores), scores)
    decreases |scores|
  {
    var n := |scores| - 1;
    if n > 0 {
      CombineExtreme(scores[..n]);
      assert scores == scores[..n] + [scores[n]];
      MinGrows(Combine(MinOf, scores[..n]), scores[..n], scores[n]);
      MaxGrows(Combine(MaxOf, scores[..n]), scores[..n], scores[n]);
    }
  }

  /** Aggregating two scores. */
  function Merge(aggregate: Aggregate, a: Score, b: Score): Score {
    match aggregate
    case SumOf => Add(a, b)
    case MinOf => if Leq(a, b) then a else b
    case MaxOf => if Leq(b, a) then a else b
  }

  /** Aggregation is associative and commutative, also with infinities and NaN. */
  lemma MergeLaws(aggregate: Aggregate, a: Score, b: Score, c: Score)
    ensures Merge(aggregate, a, b) == Merge(aggregate, b, a)
    ensures Merge(aggregate, Merge(aggregate, a, b), c) == Merge(aggregate, a, Merge(aggregate, b, c))
  {
  }

  lemma {:induction false} CombineAppend(aggregate: Aggregate, a: seq<Score>, b: seq<Score>)
    requires a != [] && b != []
    ensures Combine(aggregate, a + b) == Merge(aggregate, Combine(aggregate, a), Combine(aggregate, b))
    decreases |b|
  {
    var n := |b| - 1;
    assert (a + b)[..|a| + n] == a + b[..n];
    if n == 0 {
      assert a + b[..n] == a;
    } else {
      CombineAppend(aggregate, a, b[..n]);
      MergeLaws(aggregate, Combine(aggregate, a), Combine(aggregate, b[..n]), b[n]);
    }
  }

  lemma RemoveOne(s: seq<Score>, j: nat)
    requires j < |s|
    ensures multiset(s[..j] + s[j + 1..]) == multiset(s) - multiset{s[j]}
  {
    assert s == s[..j] + [s[j]] + s[j + 1..];
  }

  /** An element can be taken out from anywhere and merged at the end. */
  lemma CombineTakesOut(aggregate: Aggregate, s: seq<Score>, j: nat)
    requires j < |s| && |s| > 1
    ensures Combine(aggregate, s) == Merge(aggregate, Combine(aggregate, s[..j] + s[j + 1..]), s[j])
  {
    var a, x, b := s[..j], [s[j]], s[j + 1..];
    assert s == a + x + b;
    if a == [] {
      assert s == x + b && a + b == b;
      CombineAppend(aggregate, x, b);
      MergeLaws(aggregate, s[j], Combine(aggregate, b), s[j]);
    } else if b == [] {
      assert s == a + x && a + b == a;
      CombineAppend(aggregate, a, x);
    } else {
      CombineAppend(aggregate, a + x, b);
      CombineAppend(aggregate, a, x);
      CombineAppend(aggregate, a, b);
      MergeLaws(aggregate, Combine(aggregate, a), s[j], Combine(aggregate, b));
      MergeLaws(aggregate, s[j], Combine(aggregate, b), s[j]);
      MergeLaws(aggregate, Combine(aggregate, a), Combine(aggregate, b), s[j]);
    }
  }

  /** So the order of the contributions does not matter at all. */
  lemma {:induction false} CombineUnordered(aggregate: Aggregate, a: seq<Score>, b: seq<Score>)
    requires a != [] && multiset(a) == multiset(b)
    ensures b != [] && Combine(aggregate, a) == Combine(aggregate, b)
    decreases |a|
  {
    assert |multiset(a)| == |a| && |multiset(b)| == |b|;
    var n := |a| - 1;
    assert a[n] in multiset(b);
    var j :| 0 <= j < |b| && b[j] == a[n];
    RemoveOne(a, n);
    RemoveOne(b, j);
    assert a[..n] + a[n + 1..] == a[..n];
    if n > 0 {
      var b' := b[..j] + b[j + 1..];
      CombineUnordered(aggregate, a[..n], b');
      CombineTakesOut(aggregate, a, n);
      CombineTakesOut(aggregate, b, j);
    }
  }

  // ----- Collecting -----

  /** What a source adds to a member, once the members in `todo` are left out. */
  function Share(source: Option<Value>, weight: Score, todo: set<Member>, m: Member): seq<Score> {
    if m in todo then [] else Contribution(source, weight, m)
  }

  ghost predicate Adds(t: Tally, r: Tally, source: Option<Value>, weight: Score, todo: set<Member>) {
    forall m :: Collected(r, m) == Collected(t, m) + Share(source, weight, todo, m)
  }

  function Push(t: Tally, m: Member, x: Score): Tally {
    t[m := Collected(t, m) + [x]]
  }

  lemma PushAdds(t: Tally, r: Tally, source: Option<Value>, weight: Score, todo: set<Member>, m: Member)
    requires Adds(t, r, source, weight, todo) && m in todo && m in EntriesOf(source)
    ensures Adds(t, Push(r, m, Mul(EntriesOf(source)[m], weight)), source, weight, todo - {m})
  {
    var x := Mul(EntriesOf(source)[m], weight);
    var r' := Push(r, m, x);
    forall k
      ensures Collected(r', k) == Collected(t, k) + Share(source, weight, todo - {m}, k)
    {
      assert Collected(r, k) == Collected(t, k) + Share(source, weight, todo, k);
      assert k != m ==> Collected(r', k) == Collected(r, k);
      assert k == m ==> Collected(r', k) == Collected(r, k) + [x];
    }
  }

  /** Adds the weighted scores of one source to the tally, in any order. */
  method CollectSource(t: Tally, source: Option<Value>, weight: Score) returns (r: Tally)
    ensures Adds(t, r, source, weight, {})
  {
    r := t;
    var todo := EntriesOf(source).Keys;
    while todo != {}
      invariant todo <= EntriesOf(source).Keys
      invariant Adds(t, r, source, weight, todo)
    {
      var m :| m in todo;
      PushAdds(t, r, source, weight, todo, m);
      r := Push(r, m, Mul(EntriesOf(source)[m], weight));
      todo := todo - {m};
    }
  }

  ghost predicate Tallies(t: Tally, sources: seq<Option<Value>>, weights: seq<Score>) {
    forall m :: Collected(t, m) == Contributions(sources, weights, m)
  }

  lemma TalliesStep(t: Tally, r: Tally, sources: seq<Option<Value>>, weights: seq<Score>, i: nat)
    requires i < |sources| && Tallies(t, sources[..i], weights)
    requires Adds(t, r, sources[i], Weight(weights, i), {})
    ensures Tallies(r, sources[..i + 1], weights)
  {
    forall m
      ensures Collected(r, m) == Contributions(sources[..i + 1], weights, m)
    {
      ContributionsStep(sources, weights, i, m);
    }
  }

  method CollectUnion(sources: seq<Option<Value>>, weights: seq<Score>) returns (r: Option<Tally>)
    ensures r.None? <==> exists i :: 0 <= i < |sources| && Foreign(sources[i])
    ensures r.Some? ==> Tallies(r.value, sources, weights)
  {
    var t: Tally := map[];
    for i := 0 to |sources|
      invariant forall j :: 0 <= j < i ==> !Foreign(sources[j])
      invariant Tallies(t, sources[..i], weights)
    {
      if Foreign(sources[i]) {
        return None;
      }
      var t' := CollectSource(t, sources[i], Weight(weights, i));
      TalliesStep(t, t', sources, weights, i);
      t := t';
    }
    assert sources[..|sources|] == sources;
    r := Some(t);
  }

  /** Combines the collected scores of every member. */
  function CombineAll(t: Tally, aggregate: Aggregate): Entries {
    map m | m in t :: Combine(aggregate, t[m])
  }

  /** The destination afterwards: nothing, or a set with members. */
  ghost predicate NeverEmpty(v: Option<Value>) {
    Left(v, EntriesOf(v))
  }

  // ----- The commands -----

  method Zunionstore(store: Storage, db: nat, dest: Name, keys: seq<Name>, weights: seq<Score>, aggregate: Aggregate)
    returns (r: Outcome)
    requires store.Valid()
    modifies store
    ensures store.Valid() && SameElsewhere(old(store.dbs), store.dbs, db, dest)
    ensures var sources := Resolve(DelAt(old(store.dbs), db, dest), db, keys);
      && NeverEmpty(Find(store.dbs, db, dest))
      && if exists i :: 0 <= i < |sources| && Foreign(sources[i])
         then r == WrongType && Find(store.dbs, db, dest) == None
         else r == Done && IsUnion(EntriesOf(Find(store.dbs, db, dest)), sources, weights, aggregate)
  {
    DelAtSound(store.dbs, db, dest);
    store.dbs := DelAt(store.dbs, db, dest);
    var sources := Resolve(store.dbs, db, keys);
    var collected := CollectUnion(sources, weights);
    if collected.None? {
      return WrongType;
    }
    var entries := CombineAll(collected.value, aggregate);
    UnionMet(collected.value, sources, weights, aggregate);
    var z := FromEntries(entries);
    store.PutBack(db, dest, z);
    r := Done;
  }

  lemma UnionMet(t: Tally, sources: seq<Option<Value>>, weights: seq<Score>, aggregate: Aggregate)
    requires Tallies(t, sources, weights)
    ensures IsUnion(CombineAll(t, aggregate), sources, weights, aggregate)
  {
    forall m
      ensures m in t <==> InSome(sources, m)
      ensures m in t ==> t[m] == Contributions(sources, weights, m)
    {
      assert Collected(t, m) == Contributions(sources, weights, m);
      ContributionsSome(sources, weights, m);
    }
  }

  // ----- Intersection -----

  /** Whether the loop gets as far as source `i`: all earlier ones are sets and have a common member. */
  ghost predicate Reached(sources: seq<Option<Value>>, i: nat)
    requires i <= |sources|
  {
    && (forall j :: 0 <= j < i ==> sources[j].Some? && sources[j].value.SetValue?)
    && (i >= 2 ==> exists m :: InAll(sources[..i], m))
  }

  /** A source of another kind is reached. */
  ghost predicate Refused(sources: seq<Option<Value>>) {
    exists i :: 0 <= i < |sources| && Foreign(sources[i]) && Reached(sources, i)
  }

  /** The first source sets the tally up. */
  function FirstTally(source: Option<Value>, weight: Score): Tally {
    map m | m in EntriesOf(source) :: [Mul(EntriesOf(source)[m], weight)]
  }

  /** `retain`: members of the next source get another score, the others go. */
  function Retain(t: Tally, source: Option<Value>, weight: Score): Tally {
    map m | m in t && m in EntriesOf(source) :: t[m] + [Mul(EntriesOf(source)[m], weight)]
  }

  ghost predicate Intersects(t: Tally, sources: seq<Option<Value>>, weights: seq<Score>) {
    forall m :: Collected(t, m) == if InAll(sources, m) then Contributions(sources, weights, m) else []
  }

  lemma FirstIntersects(sources: seq<Option<Value>>, weights: seq<Score>)
    requires sources != []
    ensures Intersects(FirstTally(sources[0], Weight(weights, 0)), sources[..1], weights)
  {
    forall m
      ensures InAll(sources[..1], m) <==> m in EntriesOf(sources[0])
      ensures Contributions(sources[..1], weights, m) == Contribution(sources[0], Weight(weights, 0), m)
    {
      ContributionsStep(sources, weights, 0, m);
      assert sources[..1][0] == sources[0];
    }
  }

  lemma InAllStep(sources: seq<Option<Value>>, i: nat, m: Member)
    requires 1 <= i < |sources|
    ensures InAll(sources[..i + 1], m) <==> InAll(sources[..i], m) && m in EntriesOf(sources[i])
  {
    var now, next := sources[..i], sources[..i + 1];
    assert next[i] == sources[i];
    assert forall j :: 0 <= j < i ==> next[j] == now[j];
  }

  lemma InAllContributes(sources: seq<Option<Value>>, weights: seq<Score>, m: Member)
    requires InAll(sources, m)
    ensures Contributions(sources, weights, m) != []
  {
    assert m in EntriesOf(sources[0]);
    ContributionsSome(sources, weights, m);
  }

  lemma RetainIntersects(t: Tally, sources: seq<Option<Value>>, weights: seq<Score>, i: nat)
    requires 1 <= i < |sources| && Intersects(t, sources[..i], weights)
    ensures Intersects(Retain(t, sources[i], Weight(weights, i)), sources[..i + 1], weights)
  {
    var r := Retain(t, sources[i], Weight(weights, i));
    forall m
      ensures Collected(r, m) == if InAll(sources[..i + 1], m) then Contributions(sources[..i + 1], weights, m) else []
    {
      InAllStep(sources, i, m);
      ContributionsStep(sources, weights, i, m);
      assert Collected(t, m) == if InAll(sources[..i], m) then Contributions(sources[..i], weights, m) else [];
      if InAll(sources[..i], m) {
        InAllContributes(sources[..i], weights, m);
      }
    }
  }

  lemma IntersectsMembers(t: Tally, sources: seq<Option<Value>>, weights: seq<Score>, m: Member)
    requires Intersects(t, sources, weights)
    ensures m in t <==> InAll(sources, m)
    ensures m in t ==> t[m] == Contributions(sources, weights, m)
  {
    assert Collected(t, m) == if InAll(sources, m) then Contributions(sources, weights, m) else [];
    if InAll(sources, m) {
      InAllContributes(sources, weights, m);
    }
  }

  lemma IntersectionMet(t: Tally, sources: seq<Option<Value>>, weights: seq<Score>, aggregate: Aggregate)
    requires Intersects(t, sources, weights)
    ensures IsIntersection(CombineAll(t, aggregate), sources, weights, aggregate)
  {
    forall m
      ensures m in t <==> InAll(sources, m)
      ensures m in t ==> t[m] == Contributions(sources, weights, m)
    {
      IntersectsMembers(t, sources, weights, m);
    }
  }

  lemma InAllShorter(sources: seq<Option<Value>>, n: nat, k: nat, m: Member)
    requires 1 <= n <= k <= |sources| && InAll(sources[..k], m)
    ensures InAll(sources[..n], m)
  {
    assert forall j :: 0 <= j < n ==> sources[..n][j] == sources[..k][j];
  }

  /** Once the first sources have nothing in common, nothing is left. */
  lemma NothingLeft(sources: seq<Option<Value>>, n: nat, weights: seq<Score>)
    requires 1 <= n <= |sources| && forall m :: !InAll(sources[..n], m)
    ensures Intersects(map[], sources, weights)
  {
    assert sources[..|sources|] == sources;
    forall m
      ensures !InAll(sources, m)
    {
      if InAll(sources[..|sources|], m) {
        InAllShorter(sources, n, |sources|, m);
      }
    }
  }

  /** Then the loop stops, and what follows is not read. */
  lemma NothingRead(sources: seq<Option<Value>>, n: nat, weights: seq<Score>)
    requires 2 <= n <= |sources| && Intersects(map[], sources[..n], weights)
    requires Reached(sources, n - 1) && !Foreign(sources[n - 1])
    ensures Intersects(map[], sources, weights) && !Refused(sources)
  {
    forall m
      ensures !InAll(sources[..n], m)
    {
      IntersectsMembers(map[], sources[..n], weights, m);
    }
    NothingLeft(sources, n, weights);
    forall k | n <= k <= |sources|
      ensures !Reached(sources, k)
    {
      if Reached(sources, k) {
        var m :| InAll(sources[..k], m);
        InAllShorter(sources, n, k, m);
      }
    }
  }

  /** A missing source has nothing in common with anything. */
  lemma MissingLeavesNothing(sources: seq<Option<Value>>, i: nat, weights: seq<Score>)
    requires i < |sources| && sources[i].None? && Reached(sources, i)
    ensures Intersects(map[], sources, weights) && !Refused(sources)
  {
    assert sources[..i + 1][i] == sources[i];
    NothingLeft(sources, i + 1, weights);
  }

  /** Something is left after source `i`, so the next one is reached. */
  lemma NextReached(t: Tally, sources: seq<Option<Value>>, i: nat, weights: seq<Score>)
    requires 1 <= i < |sources| && Reached(sources, i) && sources[i].Some? && sources[i].value.SetValue?
    requires Intersects(t, sources[..i + 1], weights) && t != map[]
    ensures Reached(sources, i + 1)
  {
    var m :| m in t;
    IntersectsMembers(t, sources[..i + 1], weights, m);
  }

  lemma AllSets(t: Tally, sources: seq<Option<Value>>, weights: seq<Score>)
    requires Reached(sources, |sources|) && Intersects(t, sources[..|sources|], weights)
    ensures !Refused(sources) && Intersects(t, sources, weights)
  {
    assert sources[..|sources|] == sources;
  }

  /** The loop with its early exits: an error, or a tally of the whole intersection. */
  method CollectIntersection(sources: seq<Option<Value>>, weights: seq<Score>) returns (bad: bool, t: Tally)
    ensures bad <==> Refused(sources)
    ensures !bad ==> Intersects(t, sources, weights)
  {
    t := map[];
    if sources == [] {
      return false, t;
    }
    if Foreign(sources[0]) {
      assert Reached(sources, 0);
      return true, t;
    }
    if sources[0].None? {
      MissingLeavesNothing(sources, 0, weights);
      return false, t;
    }
    t := FirstTally(sources[0], Weight(weights, 0));
    FirstIntersects(sources, weights);
    for i := 1 to |sources|
      invariant Intersects(t, sources[..i], weights) && Reached(sources, i)
    {
      if Foreign(sources[i]) {
        return true, t;
      }
      if sources[i].None? {
        MissingLeavesNothing(sources, i, weights);
        return false, map[];
      }
      RetainIntersects(t, sources, weights, i);
      t := Retain(t, sources[i], Weight(weights, i));
      if t == map[] {
        NothingRead(sources, i + 1, weights);
        return false, t;
      }
      NextReached(t, sources, i, weights);
    }
    AllSets(t, sources, weights);
    bad := false;
  }

  method Zinterstore(store: Storage, db: nat, dest: Name, keys: seq<Name>, weights: seq<Score>, aggregate: Aggregate)
    returns (r: Outcome)
    requires store.Valid()
    modifies store
    ensures store.Valid() && SameElsewhere(old(store.dbs), store.dbs, db, dest)
    ensures var sources := Resolve(DelAt(old(store.dbs), db, dest), db, keys);
      && NeverEmpty(Find(store.dbs, db, dest))
      && if Refused(sources)
         then r == WrongType && Find(store.dbs, db, dest) == None
         else r == Done && IsIntersection(EntriesOf(Find(store.dbs, db, dest)), sources, weights, aggregate)
  {
    DelAtSound(store.dbs, db, dest);
    store.dbs := DelAt(store.dbs, db, dest);
    var sources := Resolve(store.dbs, db, keys);
    var bad, t := CollectIntersection(sources, weights);
    if bad {
      return WrongType;
    }
    var entries := CombineAll(t, aggregate);
    IntersectionMet(t, sources, weights, aggregate);
    var z := FromEntries(entries);
    store.PutBack(db, dest, z);
    r := Done;
  }

  // ----- Difference -----

  /** The loop: an error, or the members of the first source that no other has. */
  method CollectDifference(sources: seq<Option<Value>>) returns (bad: bool, entries: Entries)
    ensures bad <==> sources != [] && sources[0].Some? && exists i :: 0 <= i < |sources| && Foreign(sources[i])
    ensures !bad ==> IsDifference(entries, sources)
  {
    entries := map[];
    if sources == [] || sources[0].None? {
      return false, entries;
    }
    if Foreign(sources[0]) {
      return true, entries;
    }
    entries := EntriesOf(sources[0]);
    for i := 1 to |sources|
      invariant forall j :: 0 <= j < i ==> !Foreign(sources[j])
      invariant IsDifference(entries, sources[..i])
    {
      if Foreign(sources[i]) {
        return true, entries;
      }
      DifferenceStep(entries, sources, i);
      entries := entries - EntriesOf(sources[i]).Keys;
    }
    assert sources[..|sources|] == sources;
    bad := false;
  }

  lemma DifferenceStep(entries: Entries, sources: seq<Option<Value>>, i: nat)
    requires 1 <= i < |sources| && IsDifference(entries, sources[..i])
    ensures IsDifference(entries - EntriesOf(sources[i]).Keys, sources[..i + 1])
  {
    var now, next := sources[..i], sources[..i + 1];
    assert next[i] == sources[i] && forall j :: 0 <= j < i ==> next[j] == now[j];
    forall m
      ensures InFirstOnly(next, m) <==> InFirstOnly(now, m) && m !in EntriesOf(sources[i])
    {
    }
  }

  method Zdiffstore(store: Storage, db: nat, dest: Name, keys: seq<Name>) returns (r: Outcome)
    requires store.Valid()
    modifies store
    ensures store.Valid() && SameElsewhere(old(store.dbs), store.dbs, db, dest)
    ensures var sources := Resolve(DelAt(old(store.dbs), db, dest), db, keys);
      && NeverEmpty(Find(store.dbs, db, dest))
      && if sources != [] && sources[0].Some? && exists i :: 0 <= i < |sources| && Foreign(sources[i])
         then r == WrongType && Find(store.dbs, db, dest) == None
         else r == Done && IsDifference(EntriesOf(Find(store.dbs, db, dest)), sources)
  {
    DelAtSound(store.dbs, db, dest);
    store.dbs := DelAt(store.dbs, db, dest);
    var sources := Resolve(store.dbs, db, keys);
    var bad, entries := CollectDifference(sources);
    if bad {
      return WrongType;
    }
    var z := FromEntries(entries);
    store.PutBack(db, dest, z);
    r := Done;
  }

  // ----- The destination as a source -----

  /** The sources are those of the original store exactly when no source is the destination, or it was missing. */
  lemma SourcesUntouched(dbs: Dbs, db: nat, dest: Name, keys: seq<Name>)
    ensures Resolve(DelAt(dbs, db, dest), db, keys) == Resolve(dbs, db, keys) <==> dest !in keys || Find(dbs, db, dest) == None
  {
    var after, before := Resolve(DelAt(dbs, db, dest), db, keys), Resolve(dbs, db, keys);
    forall i | 0 <= i < |keys|
      ensures keys[i] != dest ==> after[i] == before[i]
      ensures keys[i] == dest ==> after[i] == None
    {
    }
    if dest in keys {
      var i :| 0 <= i < |keys| && keys[i] == dest;
      assert before[i] == Find(dbs, db, dest) && after[i] == None;
    }
  }

  /** A union with the destination among its sources loses members exactly when no other source has them. */
  lemma AliasedUnionLoses(dbs: Dbs, db: nat, dest: Name, keys: seq<Name>, m: Member)
    requires InSome(Resolve(dbs, db, keys), m)
    ensures !InSome(Resolve(DelAt(dbs, db, dest), db, keys), m)
      <==> forall i :: 0 <= i < |keys| && keys[i] != dest ==> m !in EntriesOf(Find(dbs, db, keys[i]))
  {
    var after := Resolve(DelAt(dbs, db, dest), db, keys);
    forall i | 0 <= i < |keys|
      ensures m in EntriesOf(after[i]) <==> keys[i] != dest && m in EntriesOf(Find(dbs, db, keys[i]))
    {
    }
  }

  /** The scores of members that the destination did not have come out right. */
  lemma {:induction false} AliasedKeepsOthers(dbs: Dbs, db: nat, dest: Name, keys: seq<Name>, weights: seq<Score>, m: Member)
    requires m !in EntriesOf(Find(dbs, db, dest))
    ensures Contributions(Resolve(DelAt(dbs, db, dest), db, keys), weights, m) == Contributions(Resolve(dbs, db, keys), weights, m)
    decreases |keys|
  {
    if keys != [] {
      var init := keys[..|keys| - 1];
      AliasedKeepsOthers(dbs, db, dest, init, weights, m);
      assert Resolve(DelAt(dbs, db, dest), db, keys)[..|init|] == Resolve(DelAt(dbs, db, dest), db, init);
      assert Resolve(dbs, db, keys)[..|init|] == Resolve(dbs, db, init);
    }
  }

  /** The contributions of the sources that are not the destination, each with its own weight. */
  function OtherContributions(dbs: Dbs, db: nat, dest: Name, keys: seq<Name>, weights: seq<Score>, m: Member): seq<Score>
    decreases |keys|
  {
    if keys == [] then []
    else
      var n := |keys| - 1;
      OtherContributions(dbs, db, dest, keys[..n], weights, m) +
        if keys[n] == dest then [] else Contribution(Find(dbs, db, keys[n]), Weight(weights, n), m)
  }

  /** What a union with the destination among its sources aggregates: every contribution but those of the destination. */
  lemma {:induction false} AliasedScores(dbs: Dbs, db: nat, dest: Name, keys: seq<Name>, weights: seq<Score>, m: Member)
    ensures Contributions(Resolve(DelAt(dbs, db, dest), db, keys), weights, m) == OtherContributions(dbs, db, dest, keys, weights, m)
    decreases |keys|
  {
    if keys != [] {
      var init := keys[..|keys| - 1];
      AliasedScores(dbs, db, dest, init, weights, m);
      assert Resolve(DelAt(dbs, db, dest), db, keys)[..|init|] == Resolve(DelAt(dbs, db, dest), db, init);
    }
  }

  /** For instance a set united with itself in place: its only member is lost. */
  lemma SelfUnionLosesMember()
    ensures var z := Put(EMPTY, [1], Zero());
      var dbs: Dbs := map[0 := map[[7] := SetValue(z)]];
      && Sound(dbs)
      && InSome(Resolve(dbs, 0, [[7]]), [1]) && !InSome(Resolve(DelAt(dbs, 0, [7]), 0, [[7]]), [1])
  {
    var z := Put(EMPTY, [1], Zero());
    var dbs: Dbs := map[0 := map[[7] := SetValue(z)]];
    PutConsistent(EMPTY, [1], Zero());
    forall d: nat, k: Name
      ensures SoundValue(Find(dbs, d, k))
    {
    }
    assert Resolve(dbs, 0, [[7]])[0] == Some(SetValue(z)) && [1] in EntriesOf(Some(SetValue(z)));
    assert Resolve(DelAt(dbs, 0, [7]), 0, [[7]])[0] == None;
  }

  /** An intersection with the destination among its sources is always empty. */
  lemma AliasedIntersectionEmpty(dbs: Dbs, db: nat, dest: Name, keys: seq<Name>, m: Member)
    requires dest in keys
    ensures !InAll(Resolve(DelAt(dbs, db, dest), db, keys), m)
  {
    var i :| 0 <= i < |keys| && keys[i] == dest;
    assert Resolve(DelAt(dbs, db, dest), db, keys)[i] == None;
  }

  // ----- Results are determined -----

  /** Only one map is the union, so hash-map order cannot show. */
  lemma UnionUnique(a: Entries, b: Entries, sources: seq<Option<Value>>, weights: seq<Score>, aggregate: Aggregate)
    requires IsUnion(a, sources, weights, aggregate) && IsUnion(b, sources, weights, aggregate)
    ensures a == b
  {
    forall m | m in a
      ensures m in b && a[m] == b[m]
    {
      ContributionsSome(sources, weights, m);
    }
  }

  lemma IntersectionUnique(a: Entries, b: Entries, sources: seq<Option<Value>>, weights: seq<Score>, aggregate: Aggregate)
    requires IsIntersection(a, sources, weights, aggregate) && IsIntersection(b, sources, weights, aggregate)
    ensures a == b
  {
    forall m | m in a
      ensures m in b && a[m] == b[m]
    {
      InAllContributes(sources, weights, m);
    }
  }
}
