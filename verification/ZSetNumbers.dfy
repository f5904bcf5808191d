/**
 The order of sorted sets in numbers and octets: what queries, removals and ZADD do, stated without
 the comparison functions of the index.
 */
module ZSetNumbers {
  import opened Bytes
  import opened ZSetOrder
  import opened ZSetIndex
  import opened ZSets
  import opened ZSetQueries
  import opened ZAdd
  import opened ZSetStorage

  /** Negative infinity, then the numbers, then positive infinity, then NaN. */
  predicate NumLess(a: Score, b: Score) {
    match a
    case NegInf => !b.NegInf?
    case Fin(r) => b.PosInf? || b.NaN? || (b.Fin? && r < b.r)
    case PosInf => b.NaN?
    case NaN => false
  }

  /** By score, then by member. */
  predicate PairLess(a: Stored, b: Stored) {
    NumLess(a.score, b.score) || (a.score == b.score && OctetsLess(a.entry, b.entry))
  }

  // ----- The comparison functions -----

  lemma ScoreOrder(a: Score, b: Score)
    ensures CmpScore(a, b) == if NumLess(a, b) then Less else if a == b then Equal else Greater
    ensures a == b || NumLess(a, b) || NumLess(b, a)
    ensures !(NumLess(a, b) && NumLess(b, a))
  {
  }

  lemma KeyOrder(a: Stored, b: Stored)
    ensures Cmp(a, b) == Less <==> PairLess(a, b)
  {
    ScoreOrder(a.score, b.score);
    OctetOrder(a.entry, b.entry);
  }

  // ----- The index -----

  /** Each pair is below all that come after it. */
  ghost predicate Ascends(s: seq<Stored>) {
    forall i, j :: 0 <= i < j < |s| ==> PairLess(s[i], s[j])
  }

  /** The index ascends: by number, and at equal scores by octets. */
  lemma IndexAscends(z: ZSet)
    requires Consistent(z)
    ensures Ascends(z.index)
    ensures forall i, j :: 0 <= i < j < |z.index| && z.index[i].score.Fin? && z.index[j].score.Fin? ==>
        z.index[i].score.r <= z.index[j].score.r
  {
    forall i, j | 0 <= i < j < |z.index|
      ensures PairLess(z.index[i], z.index[j])
    {
      KeyOrder(z.index[i], z.index[j]);
    }
  }

  ghost function Smaller(entries: Entries, member: Member): set<Member>
    requires member in entries
  {
    set m | m in entries && PairLess(Key(entries[m], m), Key(entries[member], member))
  }

  /** ZRANK counts the pairs that are smaller in numbers and octets; other members have no rank. */
  lemma RankCountsSmaller(z: ZSet, member: Member)
    requires Consistent(z)
    ensures Zrank(z, member) == if member in z.entries then Some(|Smaller(z.entries, member)|) else None
    ensures Zrevrank(z, member)
      == if member in z.entries then Some(|z.entries| - 1 - |Smaller(z.entries, member)|) else None
  {
    if member in z.entries {
      ZrankCounts(z, member);
      forall m | m in z.entries
        ensures m in Below(z, member) <==> m in Smaller(z.entries, member)
      {
        KeyOrder(Key(z.entries[m], m), Key(z.entries[member], member));
      }
      assert Below(z, member) == Smaller(z.entries, member);
    }
  }

  // ----- Score ranges -----

  /** The members whose score is a number from `min` to `max`. */
  ghost function FromTo(entries: Entries, min: real, max: real): set<Member> {
    set m | m in entries && entries[m].Fin? && min <= entries[m].r <= max
  }

  lemma InRangeNumbers(s: Score, min: real, max: real)
    ensures InRange(s, Fin(min), Fin(max)) <==> s.Fin? && min <= s.r <= max
  {
  }

  lemma InRangeExactly(s: Score, min: Score, max: Score)
    ensures InRange(s, min, max) <==> !NumLess(s, min) && !NumLess(max, s)
  {
    ScoreOrder(min, s);
    ScoreOrder(s, max);
  }

  /** ZCOUNT and ZRANGEBYSCORE: the pairs with a number from `min` to `max`, ascending. */
  lemma ScoreRangeNumbers(z: ZSet, min: real, max: real, overrun: nat)
    requires Consistent(z)
    ensures Zcount(z, Fin(min), Fin(max)) == |FromTo(z.entries, min, max)|
    ensures var found := ZrangeByScore(z, Fin(min), Fin(max), overrun);
      && |found| == |FromTo(z.entries, min, max)|
      && Ascends(found)
      && forall k: Stored :: k in found <==> k.entry in FromTo(z.entries, min, max) && z.entries[k.entry] == k.score
  {
    ScoreRangeAgrees(z, Fin(min), Fin(max), overrun);
    forall m | m in z.entries
      ensures m in Between(z, Fin(min), Fin(max)) <==> m in FromTo(z.entries, min, max)
    {
      InRangeNumbers(z.entries[m], min, max);
    }
    assert Between(z, Fin(min), Fin(max)) == FromTo(z.entries, min, max);
    FilterMembers(z.index, Within(Fin(min), Fin(max)));
    FoundAscends(z, Fin(min), Fin(max));
  }

  lemma SliceAscends(s: seq<Stored>, lo: nat, hi: nat)
    requires Ascends(s) && lo <= hi <= |s|
    ensures Ascends(s[lo..hi])
  {
    var part := s[lo..hi];
    forall i, j | 0 <= i < j < |part|
      ensures PairLess(part[i], part[j])
    {
      assert part[i] == s[lo + i] && part[j] == s[lo + j];
    }
  }

  lemma FoundAscends(z: ZSet, min: Score, max: Score)
    requires Consistent(z)
    ensures Ascends(Filter(z.index, Within(min, max)))
  {
    var lo, hi := Rank(z.index, MinScoreKey(min)), Rank(z.index, MaxScoreKey(max));
    RangeCut(z.index, min, max);
    FilterWhole(z.index, Within(min, max), lo, hi);
    IndexAscends(z);
    SliceAscends(z.index, lo, Max(lo, hi));
  }

  // ----- Rank ranges -----

  /** Position `i` of `n`: counted from the front or, negative, from the back; beyond the ends the nearest one. */
  predicate Denotes(index: int, n: nat, i: nat) {
    i < n && (index == i || index == i - n || (index < 0 - n && i == 0) || (index >= n && i == n - 1))
  }

  /** ZRANGE returns the keys from the one position to the other. */
  lemma ZrangeNumbers(z: ZSet, start: int, stop: int, i: nat, j: nat)
    requires Consistent(z) && Denotes(start, |z.index|, i) && Denotes(stop, |z.index|, j)
    ensures |z.entries| == |z.index| && Zrange(z, start, stop) == if i <= j then z.index[i..j + 1] else []
  {
    IndexLength(z);
  }

  /** Every index denotes a position, unless the set is empty. */
  lemma AlwaysDenotes(index: int, n: nat)
    ensures n > 0 <==> exists i: nat :: Denotes(index, n, i)
  {
    if n > 0 {
      var i := if index < 0 - n then 0 else if index < 0 then index + n else if index < n then index else n - 1;
      assert Denotes(index, n, i);
    }
  }

  // ----- Pops -----

  /** Every pair of the one part is below every pair of the other. */
  ghost predicate AllBelow(entries: Entries, low: set<Member>, high: set<Member>) {
    forall m, k :: m in low && k in high && m in entries && k in entries ==> PairLess(Key(entries[m], m), Key(entries[k], k))
  }

  /** `gone` are `count` members, or all, and every one of them is above every other member. */
  ghost predicate AreHighest(entries: Entries, count: nat, gone: set<Member>) {
    && gone <= entries.Keys
    && |gone| == (if count < |entries| then count else |entries|)
    && AllBelow(entries, entries.Keys - gone, gone)
  }

  ghost predicate AreLowest(entries: Entries, count: nat, gone: set<Member>) {
    && gone <= entries.Keys
    && |gone| == (if count < |entries| then count else |entries|)
    && AllBelow(entries, gone, entries.Keys - gone)
  }

  /** A part of the index names the members at its positions, and no others. */
  lemma InPart(z: ZSet, from: nat, to: nat, i: nat)
    requires Consistent(z) && from <= to <= |z.index| && i < |z.index|
    ensures z.index[i].entry in MembersOf(z.index[from..to]) <==> from <= i < to
  {
    IndexDistinct(z);
    var part := z.index[from..to];
    if from <= i < to {
      assert part[i - from] == z.index[i];
    }
    forall k | k in part
      ensures k.entry == z.index[i].entry ==> from <= i < to
    {
      var j :| 0 <= j < |part| && part[j] == k;
      assert z.index[from + j] == k;
    }
  }

  /** Members before a cut are below those after it. */
  lemma CutOrders(z: ZSet, cut: nat, low: Member, high: Member)
    requires Consistent(z) && cut <= |z.index| && low in z.entries && high in z.entries
    ensures low in MembersOf(z.index[0..cut]) <==> low !in MembersOf(z.index[cut..|z.index|])
    ensures high in MembersOf(z.index[0..cut]) <==> high !in MembersOf(z.index[cut..|z.index|])
    ensures low in MembersOf(z.index[0..cut]) && high in MembersOf(z.index[cut..|z.index|])
      ==> PairLess(Key(z.entries[low], low), Key(z.entries[high], high))
  {
    var i := PositionOf(z, low);
    var j := PositionOf(z, high);
    InPart(z, 0, cut, i);
    InPart(z, cut, |z.index|, i);
    InPart(z, 0, cut, j);
    InPart(z, cut, |z.index|, j);
    IndexAscends(z);
  }

  /** A cut of the index separates the members. */
  lemma CutSeparates(z: ZSet, cut: nat)
    requires Consistent(z) && cut <= |z.index|
    ensures var low, high := MembersOf(z.index[0..cut]), MembersOf(z.index[cut..|z.index|]);
      && high <= z.entries.Keys && AllBelow(z.entries, z.entries.Keys - high, high)
      && low <= z.entries.Keys && AllBelow(z.entries, low, z.entries.Keys - low)
  {
    var low, high := MembersOf(z.index[0..cut]), MembersOf(z.index[cut..|z.index|]);
    PartInside(z, 0, cut);
    PartInside(z, cut, |z.index|);
    forall m | m in z.entries
      ensures m in low <==> m !in high
    {
      CutOrders(z, cut, m, m);
    }
    forall m, k | m in low && k in high && m in z.entries && k in z.entries
      ensures PairLess(Key(z.entries[m], m), Key(z.entries[k], k))
    {
      CutOrders(z, cut, m, k);
    }
    assert z.entries.Keys - high == low && z.entries.Keys - low == high;
  }

  /** ZPOPMAX removes the `count` highest pairs, or all. */
  lemma PopsHighest(z: ZSet, count: nat)
    requires Consistent(z)
    ensures AreHighest(z.entries, count, Highest(Some(SetValue(z)), count))
  {
    var cut := |z.index| - Least(count, z.index);
    var gone := MembersOf(z.index[cut..|z.index|]);
    assert |gone| == |z.index| - cut by {
      IndexDistinct(z);
      PartSize(z.index, cut, |z.index|);
    }
    CutSeparates(z, cut);
    IndexLength(z);
    HighestPart(z, count);
  }

  /** ZPOPMIN the lowest. */
  lemma PopsLowest(z: ZSet, count: nat)
    requires Consistent(z)
    ensures AreLowest(z.entries, count, Lowest(Some(SetValue(z)), count))
  {
    var cut := Least(count, z.index);
    var gone := MembersOf(z.index[0..cut]);
    assert |gone| == cut by {
      IndexDistinct(z);
      PartSize(z.index, 0, cut);
    }
    CutSeparates(z, cut);
    IndexLength(z);
    LowestPart(z, count);
  }

  // ----- Bounds of removals -----

  /** ZREMRANGEBYSCORE: an included bound may be met, an excluded one must be passed. */
  lemma ScoreBounds(entries: Entries, min: Bound<Score>, max: Bound<Score>, m: Member)
    ensures m in ScoreVictims(entries, min, max) <==>
      && m in entries
      && (min.Included? ==> min.at == entries[m] || NumLess(min.at, entries[m]))
      && (min.Excluded? ==> NumLess(min.at, entries[m]))
      && (max.Included? ==> max.at == entries[m] || NumLess(entries[m], max.at))
      && (max.Excluded? ==> NumLess(entries[m], max.at))
  {
  }

  /** ZREMRANGEBYLEX: the same in octets; the command panics if the bounds are the wrong way round, or both exclude one member. */
  lemma LexBounds(m: Member, min: Bound<Member>, max: Bound<Member>)
    ensures LexIn(m, min, max) <==>
      && (min.Included? ==> min.at == m || OctetsLess(min.at, m))
      && (min.Excluded? ==> OctetsLess(min.at, m))
      && (max.Included? ==> max.at == m || OctetsLess(m, max.at))
      && (max.Excluded? ==> OctetsLess(m, max.at))
    ensures LexInverted(min, max) <==>
      && !min.Unbounded? && !max.Unbounded?
      && (OctetsLess(max.at, min.at) || (min == Excluded(min.at) == max))
  {
    if !min.Unbounded? {
      OctetOrder(m, min.at);
      OctetsBack(m, min.at);
    }
    if !max.Unbounded? {
      OctetOrder(m, max.at);
      OctetsBack(m, max.at);
    }
    if !min.Unbounded? && !max.Unbounded? {
      OctetsBack(min.at, max.at);
    }
  }

  // ----- ZADD -----

  /** The option lists that are accepted. */
  lemma AcceptedExactly(options: set<AddOption>, pairs: seq<Pair>)
    ensures CheckOptions(options, pairs) == None <==>
      (NX !in options || options <= {NX, CH, INCR}) && (INCR !in options || |pairs| == 1)
    ensures CheckOptions(options, pairs) == Some(NxAndXx) <==> {NX, XX} <= options
  {
    forall o | o in options
      ensures o in {NX, XX, GT, LT, CH, INCR}
    {
      match o
      case NX | XX | GT | LT | CH | INCR =>
    }
  }

  ghost predicate AllFinite(s: seq<Score>) {
    forall x :: x in s ==> x.Fin?
  }

  /** With GT a named member ends at a number that it had or was given, and no such number is larger. */
  lemma GtNumbers(options: set<AddOption>, entries: Entries, pairs: seq<Pair>, member: Member)
    requires GT in options && options <= {GT, CH} && Names(pairs, member)
    ensures var next, all := AddPairs(options, entries, pairs), Candidates(Get(entries, member), ScoresFor(pairs, member));
      && member in next && next[member] in all && (forall x :: x in all ==> !NumLess(next[member], x))
      && (AllFinite(all) ==> next[member].Fin? && forall x :: x in all ==> next[member].r >= x.r)
  {
    GtIsMax(options, entries, pairs, member);
    var next, all := AddPairs(options, entries, pairs), Candidates(Get(entries, member), ScoresFor(pairs, member));
    forall x | x in all
      ensures !NumLess(next[member], x)
    {
      ScoreOrder(x, next[member]);
    }
  }

  /** With LT no such number is smaller. */
  lemma LtNumbers(options: set<AddOption>, entries: Entries, pairs: seq<Pair>, member: Member)
    requires LT in options && options <= {LT, CH} && Names(pairs, member)
    ensures var next, all := AddPairs(options, entries, pairs), Candidates(Get(entries, member), ScoresFor(pairs, member));
      && member in next && next[member] in all && (forall x :: x in all ==> !NumLess(x, next[member]))
      && (AllFinite(all) ==> next[member].Fin? && forall x :: x in all ==> next[member].r <= x.r)
  {
    LtIsMin(options, entries, pairs, member);
    var next, all := AddPairs(options, entries, pairs), Candidates(Get(entries, member), ScoresFor(pairs, member));
    forall x | x in all
      ensures !NumLess(x, next[member])
    {
      ScoreOrder(next[member], x);
    }
  }

  /** Without options the last number wins. */
  lemma PlainIsLast(options: set<AddOption>, entries: Entries, pairs: seq<Pair>, member: Member)
    requires options <= {CH} && Names(pairs, member)
    ensures var next, given := AddPairs(options, entries, pairs), ScoresFor(pairs, member);
      given != [] && member in next && next[member] == given[|given| - 1]
  {
    MembersIndependent(options, entries, pairs, member);
    UnnamedHaveNoScores(pairs, member);
  }

  /** Counting up: a member is there afterwards with the sum, unless an option forbids it. */
  lemma IncrNumbers(options: set<AddOption>, entries: Entries, delta: real, member: Member)
    requires INCR in options && CheckOptions(options, [Pair(Fin(delta), member)]) == None
    requires member in entries ==> entries[member].Fin?
    ensures AddPairs(options, entries, [Pair(Fin(delta), member)])
      == if member in entries then
           if NX in options || (GT in options && delta <= 0.0) || (LT in options && delta >= 0.0) then entries
           else entries[member := Fin(entries[member].r + delta)]
         else if XX in options then entries
         else entries[member := Fin(delta)]
  {
    assert [Pair(Fin(delta), member)][..0] == [];
    assert Fin(0.0 + delta) == Fin(delta);
  }

  /** With infinities: they absorb numbers, opposite ones and NaN give NaN. */
  lemma IncrInfinite(entries: Entries, delta: Score, member: Member)
    requires member in entries && !(entries[member].Fin? && delta.Fin?)
    ensures AddPairs({INCR}, entries, [Pair(delta, member)]) == entries[member :=
      if entries[member].NaN? || delta.NaN? || {entries[member], delta} == {NegInf, PosInf} then NaN
      else if PosInf in {entries[member], delta} then PosInf
      else NegInf]
  {
    IncrIsAdd(entries, delta, member);
    var prior := entries[member];
    assert {prior, delta} == {NegInf, PosInf} <==> (prior == NegInf && delta == PosInf) || (prior == PosInf && delta == NegInf) by {
      if {prior, delta} == {NegInf, PosInf} {
        assert prior in {NegInf, PosInf} && delta in {NegInf, PosInf};
        assert NegInf in {prior, delta} && PosInf in {prior, delta};
      }
    }
  }
}
