/** Queries on sorted sets: the fast answers from the index equal the naive ones from the entries. */
module ZSetQueries {
  import opened Bytes
  import opened ZSetOrder
  import opened ZSetIndex
  import opened ZSets

  // ----- Ranks -----

  function Zrank(z: ZSet, member: Member): Option<nat> {
    if member in z.entries then Some(Rank(z.index, Ref(z.entries[member], member))) else None
  }

  function Zrevrank(z: ZSet, member: Member): Option<nat>
    requires Consistent(z)
  {
    if member in z.entries then
      RankBelowLength(z, member);
      Some(|z.entries| - 1 - Rank(z.index, Ref(z.entries[member], member)))
    else None
  }

  /** The subtraction in `zrevrank` does not underflow, and the rank is the position in the index. */
  lemma RankBelowLength(z: ZSet, member: Member)
    requires Consistent(z) && member in z.entries
    ensures var r := Rank(z.index, Ref(z.entries[member], member));
      r < |z.index| == |z.entries| && z.index[r] == Key(z.entries[member], member)
  {
    var k: Stored := Key(z.entries[member], member);
    assert k in z.index;
    var i :| 0 <= i < |z.index| && z.index[i] == k;
    RefEqual(k, k.score, k.entry);
    RankOfMember(z.index, i, Ref(k.score, k.entry));
    IndexLength(z);
  }

  /** The members whose (score, member) pair is below that of `member`. */
  ghost function Below(z: ZSet, member: Member): set<Member>
    requires member in z.entries
  {
    set m | m in z.entries && Cmp(Key(z.entries[m], m), Key(z.entries[member], member)) == Less
  }

  /** A set of members that sit at the positions from `lo` to `hi` has that many elements. */
  lemma CountSlice(z: ZSet, lo: nat, hi: nat, chosen: set<Member>)
    requires Consistent(z) && lo <= hi <= |z.index| && chosen <= z.entries.Keys
    requires forall i :: 0 <= i < |z.index| ==> (lo <= i < hi <==> z.index[i].entry in chosen)
    ensures |chosen| == hi - lo
  {
    var part := z.index[lo..hi];
    IndexDistinct(z);
    MembersCount(part);
    forall m | m in chosen
      ensures m in Members(part)
    {
      var i := PositionOf(z, m);
      assert part[i - lo].entry == m;
    }
    assert Members(part) == chosen;
  }

  /** Where a member sits in the index. */
  lemma PositionOf(z: ZSet, member: Member) returns (i: nat)
    requires Consistent(z) && member in z.entries
    ensures i < |z.index| && z.index[i] == Key(z.entries[member], member)
  {
    var k: Stored := Key(z.entries[member], member);
    assert k in z.index;
    i :| 0 <= i < |z.index| && z.index[i] == k;
  }

  /** `zrank` is the number of smaller pairs. */
  lemma ZrankCounts(z: ZSet, member: Member)
    requires Consistent(z) && member in z.entries
    ensures Zrank(z, member) == Some(|Below(z, member)|)
  {
    RankBelowLength(z, member);
    var r := Zrank(z, member).value;
    RankCuts(z.index, Key(z.entries[member], member));
    CmpEqual(z.index[r], z.index[r]);
    RankOfMember(z.index, r, z.index[r]);
    forall i | 0 <= i < |z.index|
      ensures i < r <==> z.index[i].entry in Below(z, member)
    {
      assert z.index[i] in z.index;
    }
    CountSlice(z, 0, r, Below(z, member));
  }

  /** `zrank` inverts `zrange` at every position, counted from either end, and `zrevrank` mirrors it. */
  lemma ZrankInverts(z: ZSet, i: nat)
    requires Consistent(z) && i < |z.index|
    ensures Zrank(z, z.index[i].entry) == Some(i)
    ensures Zrevrank(z, z.index[i].entry) == Some(|z.index| - 1 - i)
    ensures |z.entries| == |z.index| && Zrange(z, i, i) == [z.index[i]] && Zrange(z, i - |z.index|, i) == [z.index[i]]
  {
    var k := z.index[i];
    assert k in z.index;
    RefEqual(k, k.score, k.entry);
    RankOfMember(z.index, i, Ref(k.score, k.entry));
    IndexLength(z);
  }

  // ----- Score ranges -----

  predicate InRange(s: Score, min: Score, max: Score) {
    Leq(min, s) && Leq(s, max)
  }

  /** A rank difference; inverted bounds give zero. */
  function Zcount(z: ZSet, min: Score, max: Score): nat {
    var lo, hi := Rank(z.index, MinScoreKey(min)), Rank(z.index, MaxScoreKey(max));
    if hi < lo then 0 else hi - lo
  }

  function Filter(s: seq<Stored>, keep: Stored -> bool): seq<Stored> {
    if s == [] then [] else Kept(s[0], keep) + Filter(s[1..], keep)
  }

  function Kept(k: Stored, keep: Stored -> bool): seq<Stored> {
    if keep(k) then [k] else []
  }

  lemma Regroup(a: seq<Stored>, b: seq<Stored>, c: seq<Stored>)
    ensures a + (b + c) == a + b + c
  {
  }

  lemma FilterCons(k: Stored, s: seq<Stored>, keep: Stored -> bool)
    ensures Filter([k] + s, keep) == Kept(k, keep) + Filter(s, keep)
  {
    assert ([k] + s)[1..] == s;
  }

  function Within(min: Score, max: Score): Stored -> bool {
    (k: Stored) => InRange(k.score, min, max)
  }

  function Max(a: nat, b: nat): nat {
    if a < b then b else a
  }

  /**
   `range` from the lower to the upper probe.  The upper probe is not a stored key and the range
   may run past it, by `overrun` keys.
   */
  function Range(s: seq<Stored>, lo: nat, hi: nat, overrun: nat): seq<Stored>
    requires lo <= |s|
  {
    var end := Max(lo, hi) + overrun;
    s[lo..if end < |s| then end else |s|]
  }

  function ZrangeByScore(z: ZSet, min: Score, max: Score, overrun: nat): seq<Stored> {
    var lo, hi := Rank(z.index, MinScoreKey(min)), Rank(z.index, MaxScoreKey(max));
    Filter(Range(z.index, lo, hi, overrun), Within(min, max))
  }

  lemma {:induction false} FilterAppend(a: seq<Stored>, b: seq<Stored>, keep: Stored -> bool)
    ensures Filter(a + b, keep) == Filter(a, keep) + Filter(b, keep)
    decreases |a|
  {
    if a == [] {
      assert a + b == b;
    } else {
      assert a + b == [a[0]] + (a[1..] + b);
      FilterCons(a[0], a[1..] + b, keep);
      FilterAppend(a[1..], b, keep);
      Regroup(Kept(a[0], keep), Filter(a[1..], keep), Filter(b, keep));
    }
  }

  lemma {:induction false} FilterAll(s: seq<Stored>, keep: Stored -> bool)
    requires forall i :: 0 <= i < |s| ==> keep(s[i])
    ensures Filter(s, keep) == s
    decreases |s|
  {
    if s != [] {
      FilterAll(s[1..], keep);
    }
  }

  lemma {:induction false} FilterNone(s: seq<Stored>, keep: Stored -> bool)
    requires forall i :: 0 <= i < |s| ==> !keep(s[i])
    ensures Filter(s, keep) == []
    decreases |s|
  {
    if s != [] {
      FilterNone(s[1..], keep);
    }
  }

  /** The keys in range are the ones between the two ranks. */
  lemma RangeCut(s: seq<Stored>, min: Score, max: Score)
    requires Sorted(s)
    ensures var lo, hi := Rank(s, MinScoreKey(min)), Rank(s, MaxScoreKey(max));
      forall i :: 0 <= i < |s| ==> (InRange(s[i].score, min, max) <==> lo <= i < hi)
  {
    RankCuts(s, MinScoreKey(min));
    RankCuts(s, MaxScoreKey(max));
  }

  /** Filtering any slice that covers the kept positions. */
  lemma FilterSlice(s: seq<Stored>, keep: Stored -> bool, lo: nat, hi: nat, from: nat, to: nat)
    requires from <= lo <= hi <= to <= |s|
    requires forall i :: 0 <= i < |s| ==> (keep(s[i]) <==> lo <= i < hi)
    ensures Filter(s[from..to], keep) == s[lo..hi]
  {
    var a, b, c := s[from..lo], s[lo..hi], s[hi..to];
    assert s[from..to] == a + (b + c);
    FilterAppend(a, b + c, keep);
    FilterAppend(b, c, keep);
    FilterNone(a, keep);
    FilterAll(b, keep);
    FilterNone(c, keep);
  }

  /** The members whose score is between the bounds. */
  ghost function Between(z: ZSet, min: Score, max: Score): set<Member> {
    set m | m in z.entries && InRange(z.entries[m], min, max)
  }

  /** Filtering the probed range leaves what lies between the two ranks. */
  lemma FilterRange(s: seq<Stored>, keep: Stored -> bool, lo: nat, hi: nat, overrun: nat)
    requires lo <= |s| && hi <= |s|
    requires forall i :: 0 <= i < |s| ==> (keep(s[i]) <==> lo <= i < hi)
    ensures Filter(Range(s, lo, hi, overrun), keep) == s[lo..Max(lo, hi)]
  {
    var end := Max(lo, hi) + overrun;
    FilterSlice(s, keep, lo, Max(lo, hi), lo, if end < |s| then end else |s|);
  }

  /** So does filtering everything. */
  lemma FilterWhole(s: seq<Stored>, keep: Stored -> bool, lo: nat, hi: nat)
    requires lo <= |s| && hi <= |s|
    requires forall i :: 0 <= i < |s| ==> (keep(s[i]) <==> lo <= i < hi)
    ensures Filter(s, keep) == s[lo..Max(lo, hi)]
  {
    FilterSlice(s, keep, lo, Max(lo, hi), 0, |s|);
    assert s[0..|s|] == s;
  }

  /**
   However far `range` overruns, and whatever the bounds (also `min > max`): `zrangebyscore` is the
   index filtered by score, its length is `zcount`, and both count exactly the members in range.
   */
  lemma ScoreRangeAgrees(z: ZSet, min: Score, max: Score, overrun: nat)
    requires Consistent(z)
    ensures ZrangeByScore(z, min, max, overrun) == Filter(z.index, Within(min, max))
    ensures |ZrangeByScore(z, min, max, overrun)| == Zcount(z, min, max)
    ensures Zcount(z, min, max) == |Between(z, min, max)|
  {
    var lo, hi := Rank(z.index, MinScoreKey(min)), Rank(z.index, MaxScoreKey(max));
    RangeCut(z.index, min, max);
    FilterRange(z.index, Within(min, max), lo, hi, overrun);
    FilterWhole(z.index, Within(min, max), lo, hi);
    CountBetween(z, min, max);
  }

  lemma CountBetween(z: ZSet, min: Score, max: Score)
    requires Consistent(z)
    ensures Zcount(z, min, max) == |Between(z, min, max)|
  {
    var s := z.index;
    var lo, hi := Rank(s, MinScoreKey(min)), Rank(s, MaxScoreKey(max));
    RangeCut(s, min, max);
    forall i | 0 <= i < |s|
      ensures lo <= i < hi <==> s[i].entry in Between(z, min, max)
    {
      assert s[i] in s;
    }
    CountSlice(z, lo, if hi < lo then lo else hi, Between(z, min, max));
  }

  // ----- Rank ranges -----

  /** A possibly negative index, before clamping. */
  function Position(index: int, len: nat): int {
    if index < 0 then len + index else index
  }

  function Clamp(p: int, len: nat): nat
    requires len > 0
  {
    if p < 0 then 0 else if p > len - 1 then len - 1 else p
  }

  function Zrange(z: ZSet, start: int, stop: int): seq<Stored>
    requires |z.entries| == |z.index|
  {
    var len := |z.entries|;
    if len == 0 then []
    else
      var from, to := Clamp(Position(start, len), len), Clamp(Position(stop, len), len);
      if from > to then [] else z.index[from..to + 1]
  }

  /** The keys at the positions between `start` and `stop`, nothing for positions outside the set. */
  function SliceOf(s: seq<Stored>, lo: int, hi: int): seq<Stored> {
    var from := if lo < 0 then 0 else lo;
    var to := if hi > |s| - 1 then |s| - 1 else hi;
    if from > to then [] else s[from..to + 1]
  }

  /**
   `zrange` is the slice between the two positions exactly when neither bound lies outside the set
   on its own side: a start past the end gives the last element instead of nothing as soon as the
   stop reaches it, and a stop before the beginning gives the first one as soon as the start does
   (in a set of one element both always do).
   */
  lemma ZrangeExactly(z: ZSet, start: int, stop: int)
    requires Consistent(z)
    ensures |z.entries| == |z.index|
    ensures var n := |z.index|; var lo, hi := Position(start, n), Position(stop, n);
      Zrange(z, start, stop) == SliceOf(z.index, lo, hi)
      <==> !(n > 0 && ((lo >= n && (hi >= n - 1 || n == 1)) || (hi < 0 && (lo <= 0 || n == 1))))
  {
    IndexLength(z);
    var n := |z.index|;
    if n > 0 {
      var lo, hi := Position(start, n), Position(stop, n);
      assert lo >= n && (hi >= n - 1 || n == 1) ==> Zrange(z, start, stop) == [z.index[n - 1]];
      assert hi < 0 && (lo <= 0 || n == 1) ==> Zrange(z, start, stop) == [z.index[0]];
    }
  }

  /** For instance, asking a set of one element for position 5 returns position 0. */
  lemma ZrangeClampsStart()
    ensures var z := Put(EMPTY, [], Zero());
      && Consistent(z) && |z.entries| == |z.index|
      && Zrange(z, 5, 5) == z.index && SliceOf(z.index, 5, 5) == []
  {
    PutConsistent(EMPTY, [], Zero());
    IndexLength(Put(EMPTY, [], Zero()));
  }
}
