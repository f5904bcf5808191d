/**
 The store and the sorted-set commands that write to it.  Each command is specified by what it
 does to the entries of one key; `Valid` adds that every index mirrors its entries.
 */
module ZSetStorage {
  import opened Bytes
  import opened ZSetOrder
  import opened ZSetIndex
  import opened ZSets
  import opened ZSetQueries
  import opened ZAdd

  type Name = seq<byte>

  /** `Other` stands for strings, lists, hashes and plain sets. */
  datatype Value = SetValue(z: ZSet) | Other(content: seq<byte>)

  type Dbs = map<nat, map<Name, Value>>

  datatype Outcome = Done | WrongType | BadOption(why: BadOptions) | Panic

  function Find(dbs: Dbs, db: nat, key: Name): Option<Value> {
    if db in dbs && key in dbs[db] then Some(dbs[db][key]) else None
  }

  function SetAt(dbs: Dbs, db: nat, key: Name, v: Value): Dbs {
    dbs[db := (if db in dbs then dbs[db] else map[])[key := v]]
  }

  function DelAt(dbs: Dbs, db: nat, key: Name): Dbs {
    if db in dbs then dbs[db := dbs[db] - {key}] else dbs
  }

  /** Every stored sorted set is consistent. */
  ghost predicate Sound(dbs: Dbs) {
    forall d: nat, k: Name :: SoundValue(Find(dbs, d, k))
  }

  ghost predicate SoundValue(v: Option<Value>) {
    v.Some? && v.value.SetValue? ==> Consistent(v.value.z)
  }

  ghost predicate SameElsewhere(before: Dbs, after: Dbs, db: nat, key: Name) {
    forall d: nat, k: Name :: d != db || k != key ==> Find(after, d, k) == Find(before, d, k)
  }

  lemma SetAtSound(dbs: Dbs, db: nat, key: Name, z: ZSet)
    requires Sound(dbs) && Consistent(z)
    ensures var after := SetAt(dbs, db, key, SetValue(z));
      Sound(after) && SameElsewhere(dbs, after, db, key) && Find(after, db, key) == Some(SetValue(z))
  {
    var after := SetAt(dbs, db, key, SetValue(z));
    forall d: nat, k: Name
      ensures SoundValue(Find(after, d, k))
    {
      assert SoundValue(Find(dbs, d, k));
    }
  }

  lemma DelAtSound(dbs: Dbs, db: nat, key: Name)
    requires Sound(dbs)
    ensures var after := DelAt(dbs, db, key);
      Sound(after) && SameElsewhere(dbs, after, db, key) && Find(after, db, key) == None
  {
    var after := DelAt(dbs, db, key);
    forall d: nat, k: Name
      ensures SoundValue(Find(after, d, k))
    {
      assert SoundValue(Find(dbs, d, k));
    }
  }

  /** The entries found under a key; nothing and foreign values have none. */
  function EntriesOf(v: Option<Value>): Entries {
    if v.Some? && v.value.SetValue? then v.value.z.entries else map[]
  }

  /** What is left under a key once a removing command is through: a set, or nothing if it is empty. */
  ghost predicate Left(v: Option<Value>, entries: Entries) {
    if entries == map[] then v == None
    else v.Some? && v.value.SetValue? && v.value.z.entries == entries
  }

  /** A command that removes the members for which `gone` holds, and does nothing to a missing key. */
  ghost predicate Removes(before: Option<Value>, after: Option<Value>, r: Outcome, gone: set<Member>) {
    match before
    case None => r == Done && after == None
    case Some(Other(_)) => r == WrongType && after == before
    case Some(SetValue(z)) => r == Done && Left(after, z.entries - gone)
  }

  // ----- Rebuilding -----

  /** `clone`: inserting every entry into an empty set, in any order, gives back the same set. */
  method CloneSet(z: ZSet) returns (r: ZSet)
    requires Consistent(z)
    ensures r == z
  {
    r := FromEntries(z.entries);
    ConsistentUnique(r, z);
  }

  /** Builds a set from a map whose iteration order is arbitrary. */
  method FromEntries(source: Entries) returns (r: ZSet)
    ensures Consistent(r) && r.entries == source
  {
    var index: seq<Stored>, entries: Entries := [], map[];
    var todo := source.Keys;
    while todo != {}
      invariant todo <= source.Keys && entries.Keys == source.Keys - todo
      invariant forall m :: m in entries ==> entries[m] == source[m]
      invariant Consistent(ZSet(index, entries))
    {
      var m :| m in todo;
      PutConsistent(ZSet(index, entries), m, source[m]);
      index := Insert(index, Key(source[m], m));
      entries := entries[m := source[m]];
      todo := todo - {m};
    }
    r := ZSet(index, entries);
  }

  // ----- Removal -----

  function MembersOf(victims: seq<Stored>): set<Member> {
    set k | k in victims :: k.entry
  }

  lemma MembersSnoc(victims: seq<Stored>, i: nat)
    requires i < |victims|
    ensures MembersOf(victims[..i + 1]) == MembersOf(victims[..i]) + {victims[i].entry}
  {
    assert victims[..i + 1] == victims[..i] + [victims[i]];
  }

  lemma MembersCons(victims: seq<Stored>, i: nat)
    requires i < |victims|
    ensures MembersOf(victims[i..]) == {victims[i].entry} + MembersOf(victims[i + 1..])
  {
    assert victims[i..] == [victims[i]] + victims[i + 1..];
  }

  /** Removing a key from the index and its member from the entries; no effect if it is gone already. */
  lemma KeyGone(z: ZSet, index: seq<Stored>, k: Stored)
    requires Consistent(z) && (k.entry in z.entries ==> z.entries[k.entry] == k.score)
    requires Sorted(index) && forall x: Stored :: x in index <==> x in z.index && x != k
    ensures Consistent(ZSet(index, z.entries - {k.entry}))
  {
  }

  lemma RemoveKeyConsistent(z: ZSet, k: Stored)
    requires Consistent(z) && (k.entry in z.entries ==> z.entries[k.entry] == k.score)
    ensures Consistent(ZSet(Remove(z.index, Ref(k.score, k.entry)), z.entries - {k.entry}))
  {
    RemoveRef(z.index, k.score, k.entry);
    KeyGone(z, Remove(z.index, Ref(k.score, k.entry)), k);
  }

  lemma PopConsistent(z: ZSet, i: nat)
    requires Consistent(z) && i < |z.index|
    ensures Consistent(ZSet(z.index[..i] + z.index[i + 1..], z.entries - {z.index[i].entry}))
  {
    assert z.index[i] in z.index;
    RemoveAt(z.index, i);
    KeyGone(z, z.index[..i] + z.index[i + 1..], z.index[i]);
  }

  ghost predicate Agree(z: ZSet, victims: seq<Stored>) {
    forall k :: k in victims && k.entry in z.entries ==> z.entries[k.entry] == k.score
  }

  /** The loop of the range removals: takes collected keys out of both views. */
  method RemoveKeys(z: ZSet, victims: seq<Stored>) returns (r: ZSet)
    requires Consistent(z) && Agree(z, victims)
    ensures Consistent(r) && r.entries == z.entries - MembersOf(victims)
  {
    r := z;
    for i := 0 to |victims|
      invariant Consistent(r) && Agree(r, victims)
      invariant r.entries == z.entries - MembersOf(victims[..i])
    {
      var k := victims[i];
      MembersSnoc(victims, i);
      RemoveKeyConsistent(r, k);
      r := ZSet(Remove(r.index, Ref(k.score, k.entry)), r.entries - {k.entry});
    }
    assert victims[..|victims|] == victims;
  }

  /** The members that `Zrange` returns. */
  ghost function RankMembers(z: ZSet, start: int, stop: int): set<Member> {
    if |z.entries| == |z.index| then MembersOf(Zrange(z, start, stop)) else {}
  }

  lemma RankMembersAre(z: ZSet, start: int, stop: int, from: nat, to: nat)
    requires |z.entries| == |z.index| > 0
    requires from == Clamp(Position(start, |z.index|), |z.index|) && to == Clamp(Position(stop, |z.index|), |z.index|)
    ensures RankMembers(z, start, stop) == if from > to then MembersOf([]) else MembersOf(z.index[from..to + 1])
  {
  }

  method RemoveRanks(z: ZSet, start: int, stop: int) returns (touched: bool, r: ZSet)
    requires Consistent(z) && z.entries != map[]
    ensures Consistent(r) && r.entries == z.entries - RankMembers(z, start, stop)
    ensures !touched ==> r == z
  {
    IndexLength(z);
    var len := |z.entries|;
    var from, to := Clamp(Position(start, len), len), Clamp(Position(stop, len), len);
    RankMembersAre(z, start, stop, from, to);
    if from > to {
      NothingRemoved(z.entries);
      return false, z;
    }
    var victims := z.index[from..to + 1];
    AgreeInside(z, victims);
    r := RemoveKeys(z, victims);
    touched := true;
  }

  lemma NothingRemoved(entries: Entries)
    ensures entries - MembersOf([]) == entries
  {
  }

  method RemoveMembers(z: ZSet, members: seq<Member>) returns (r: ZSet)
    requires Consistent(z)
    ensures Consistent(r) && r.entries == z.entries - set m | m in members
  {
    r := z;
    for i := 0 to |members|
      invariant Consistent(r)
      invariant r.entries == z.entries - set m | m in members[..i]
    {
      var m := members[i];
      assert members[..i + 1] == members[..i] + [m];
      DropConsistent(r, m);
      if m in r.entries {
        r := ZSet(Remove(r.index, Ref(r.entries[m], m)), r.entries - {m});
      }
    }
    assert members[..|members|] == members;
  }

  /** Drops a set of members, in any order. */
  method RemoveSet(z: ZSet, victims: set<Member>) returns (r: ZSet)
    requires Consistent(z) && victims <= z.entries.Keys
    ensures Consistent(r) && r.entries == z.entries - victims
  {
    r := z;
    var todo := victims;
    while todo != {}
      invariant todo <= victims && todo <= r.entries.Keys
      invariant Consistent(r) && r.entries == z.entries - (victims - todo)
    {
      var m :| m in todo;
      DropConsistent(r, m);
      r := ZSet(Remove(r.index, Ref(r.entries[m], m)), r.entries - {m});
      todo := todo - {m};
    }
  }

  function Least(count: nat, s: seq<Stored>): (n: nat)
    ensures n <= |s|
  {
    if count < |s| then count else |s|
  }

  lemma DropMore(entries: Entries, gone: set<Member>, m: Member)
    ensures (entries - gone) - {m} == entries - (gone + {m})
  {
  }

  /** `pop_last`, applied to both views. */
  function WithoutLast(z: ZSet): ZSet
    requires z.index != []
  {
    var n := |z.index| - 1;
    ZSet(z.index[..n], z.entries - {z.index[n].entry})
  }

  /** `pop_first`, applied to both views. */
  function WithoutFirst(z: ZSet): ZSet
    requires z.index != []
  {
    ZSet(z.index[1..], z.entries - {z.index[0].entry})
  }

  lemma WithoutLastConsistent(z: ZSet)
    requires Consistent(z) && z.index != []
    ensures Consistent(WithoutLast(z))
  {
    var n := |z.index| - 1;
    PopConsistent(z, n);
    assert z.index[..n] + z.index[n + 1..] == z.index[..n];
  }

  lemma WithoutFirstConsistent(z: ZSet)
    requires Consistent(z) && z.index != []
    ensures Consistent(WithoutFirst(z))
  {
    PopConsistent(z, 0);
    assert z.index[..0] + z.index[1..] == z.index[1..];
  }

  /** What is left of `z` when only the first `n` keys are kept. */
  ghost predicate KeepsFirst(z: ZSet, r: ZSet, n: nat)
    requires n <= |z.index|
  {
    r.index == z.index[..n] && r.entries == z.entries - MembersOf(z.index[n..])
  }

  /** What is left when the first `n` keys are gone. */
  ghost predicate DropsFirst(z: ZSet, r: ZSet, n: nat)
    requires n <= |z.index|
  {
    r.index == z.index[n..] && r.entries == z.entries - MembersOf(z.index[..n])
  }

  lemma KeepsFirstStep(z: ZSet, r: ZSet, n: nat)
    requires n < |z.index| && KeepsFirst(z, r, n + 1)
    ensures KeepsFirst(z, WithoutLast(r), n)
  {
    MembersCons(z.index, n);
    DropMore(z.entries, MembersOf(z.index[n + 1..]), z.index[n].entry);
  }

  lemma DropsFirstStep(z: ZSet, r: ZSet, n: nat)
    requires n < |z.index| && DropsFirst(z, r, n)
    ensures DropsFirst(z, WithoutFirst(r), n + 1)
  {
    MembersSnoc(z.index, n);
    DropMore(z.entries, MembersOf(z.index[..n]), z.index[n].entry);
  }

  method PopHighest(z: ZSet, count: nat) returns (r: ZSet)
    requires Consistent(z)
    ensures Consistent(r) && KeepsFirst(z, r, |z.index| - Least(count, z.index))
  {
    r := z;
    var i := 0;
    while i < count && r.index != []
      invariant i <= count && i <= |z.index| && Consistent(r) && KeepsFirst(z, r, |z.index| - i)
    {
      KeepsFirstStep(z, r, |z.index| - i - 1);
      WithoutLastConsistent(r);
      r := WithoutLast(r);
      i := i + 1;
    }
  }

  method PopLowest(z: ZSet, count: nat) returns (r: ZSet)
    requires Consistent(z)
    ensures Consistent(r) && DropsFirst(z, r, Least(count, z.index))
  {
    r := z;
    var i := 0;
    while i < count && r.index != []
      invariant i <= count && i <= |z.index| && Consistent(r) && DropsFirst(z, r, i)
    {
      DropsFirstStep(z, r, i);
      WithoutFirstConsistent(r);
      r := WithoutFirst(r);
      i := i + 1;
    }
  }

  // ----- Score and member bounds -----

  datatype Bound<T> = Unbounded | Included(at: T) | Excluded(at: T)

  predicate AboveMin(s: Score, min: Bound<Score>) {
    match min
    case Unbounded => true
    case Included(b) => Leq(b, s)
    case Excluded(b) => CmpScore(s, b) == Greater
  }

  predicate BelowMax(s: Score, max: Bound<Score>) {
    match max
    case Unbounded => true
    case Included(b) => Leq(s, b)
    case Excluded(b) => CmpScore(s, b) == Less
  }

  predicate LexIn(m: Member, min: Bound<Member>, max: Bound<Member>) {
    && (match min case Unbounded => true case Included(b) => CmpMember(m, b) != Less case Excluded(b) => CmpMember(m, b) == Greater)
    && (match max case Unbounded => true case Included(b) => CmpMember(m, b) != Greater case Excluded(b) => CmpMember(m, b) == Less)
  }

  /** The bounds that `BTreeMap::range` refuses with a panic. */
  predicate LexInverted(min: Bound<Member>, max: Bound<Member>) {
    && !min.Unbounded? && !max.Unbounded?
    && (CmpMember(min.at, max.at) == Greater || (min.Excluded? && max.Excluded? && min.at == max.at))
  }

  function Lower(s: seq<Stored>, min: Bound<Score>): (lo: nat)
    ensures lo <= |s|
  {
    if min.Unbounded? then 0 else Rank(s, MinScoreKey(min.at))
  }

  function Upper(s: seq<Stored>, max: Bound<Score>): (hi: nat)
    ensures hi <= |s|
  {
    if max.Unbounded? then |s| else Rank(s, MaxScoreKey(max.at))
  }

  lemma {:induction false} FilterMembers(s: seq<Stored>, keep: Stored -> bool)
    ensures forall k: Stored :: k in Filter(s, keep) <==> k in s && keep(k)
    decreases |s|
  {
    if s != [] {
      FilterMembers(s[1..], keep);
      assert s == [s[0]] + s[1..];
    }
  }

  function WithinBounds(min: Bound<Score>, max: Bound<Score>): Stored -> bool {
    (k: Stored) => AboveMin(k.score, min) && BelowMax(k.score, max)
  }

  /** Nothing that satisfies the bounds lies outside the probed range. */
  lemma BoundsCut(s: seq<Stored>, min: Bound<Score>, max: Bound<Score>, overrun: nat, k: Stored)
    requires Sorted(s) && k in s && AboveMin(k.score, min) && BelowMax(k.score, max)
    ensures k in Range(s, Lower(s, min), Upper(s, max), overrun)
  {
    var i :| 0 <= i < |s| && s[i] == k;
    var lo, hi := Lower(s, min), Upper(s, max);
    if !min.Unbounded? {
      RankCuts(s, MinScoreKey(min.at));
    }
    if !max.Unbounded? {
      RankCuts(s, MaxScoreKey(max.at));
    }
    assert lo <= i < hi;
    assert Range(s, lo, hi, overrun)[i - lo] == k;
  }

  // ----- Adding -----

  method ReadOptions(options: seq<AddOption>) returns (nx: bool, xx: bool, gt: bool, lt: bool, incr: bool)
    ensures nx == (NX in options) && xx == (XX in options)
    ensures gt == (GT in options) && lt == (LT in options) && incr == (INCR in options)
  {
    nx, xx, gt, lt, incr := false, false, false, false, false;
    for i := 0 to |options|
      invariant nx == (NX in options[..i]) && xx == (XX in options[..i])
      invariant gt == (GT in options[..i]) && lt == (LT in options[..i]) && incr == (INCR in options[..i])
    {
      assert options[..i + 1] == options[..i] + [options[i]];
      match options[i] {
        case NX => nx := true;
        case XX => xx := true;
        case GT => gt := true;
        case LT => lt := true;
        case CH =>
        case INCR => incr := true;
      }
    }
    assert options[..|options|] == options;
  }

  /** One pair of `zadd`: both views change together. */
  method AddOne(z: ZSet, p: Pair, ghost options: set<AddOption>, nx: bool, xx: bool, gt: bool, lt: bool, incr: bool)
    returns (r: ZSet)
    requires Consistent(z)
    requires nx == (NX in options) && xx == (XX in options) && gt == (GT in options) && lt == (LT in options)
    requires incr == (INCR in options)
    ensures Consistent(r) && r.entries == AddPair(options, z.entries, p)
  {
    var Pair(score, member) := p;
    var prior := Get(z.entries, member);
    if (nx && prior.Some?) || (xx && prior.None?) {
      return z;
    }
    var final := if incr then Add(if prior.Some? then prior.value else Zero(), score) else score;
    if prior.Some? && ((gt && Leq(final, prior.value)) || (lt && Leq(prior.value, final))) {
      return z;
    }
    PutConsistent(z, member, final);
    var index := z.index;
    if prior.Some? {
      index := Remove(index, Ref(prior.value, member));
    }
    r := ZSet(Insert(index, Key(final, member)), z.entries[member := final]);
  }

  /** The loop of `zadd`: the entries follow the fold. */
  method AddAll(z: ZSet, pairs: seq<Pair>, ghost options: set<AddOption>, nx: bool, xx: bool, gt: bool, lt: bool, incr: bool)
    returns (r: ZSet)
    requires Consistent(z)
    requires nx == (NX in options) && xx == (XX in options) && gt == (GT in options) && lt == (LT in options)
    requires incr == (INCR in options)
    ensures Consistent(r) && r.entries == AddPairs(options, z.entries, pairs)
  {
    r := z;
    for i := 0 to |pairs|
      invariant Consistent(r)
      invariant r.entries == AddPairs(options, z.entries, pairs[..i])
    {
      AddPairsSnoc(options, z.entries, pairs, i);
      r := AddOne(r, pairs[i], options, nx, xx, gt, lt, incr);
    }
    assert pairs[..|pairs|] == pairs;
  }

  lemma IncrIsAdd(entries: Entries, delta: Score, member: Member)
    ensures AddPairs({INCR}, entries, [Pair(delta, member)])
      == entries[member := Add(if member in entries then entries[member] else Zero(), delta)]
  {
    assert [Pair(delta, member)][..0] == [];
  }

  lemma AgreeInside(z: ZSet, victims: seq<Stored>)
    requires Consistent(z) && forall k :: k in victims ==> k in z.index
    ensures Agree(z, victims)
  {
  }

  // ----- What the commands remove -----

  ghost function Highest(v: Option<Value>, count: nat): set<Member> {
    if v.Some? && v.value.SetValue? then
      var s := v.value.z.index;
      MembersOf(s[|s| - Least(count, s)..])
    else {}
  }

  ghost function Lowest(v: Option<Value>, count: nat): set<Member> {
    if v.Some? && v.value.SetValue? then
      var s := v.value.z.index;
      MembersOf(s[..Least(count, s)])
    else {}
  }

  lemma {:induction false} MembersOfAll(s: seq<Stored>)
    ensures MembersOf(s) == Members(s)
  {
  }

  /** ZPOPMAX takes all members exactly if the count reaches the size, and none exactly if it is zero. */
  lemma HighestExactly(z: ZSet, count: nat)
    requires Consistent(z)
    ensures var gone := Highest(Some(SetValue(z)), count);
      && (gone == z.entries.Keys <==> count >= |z.entries|)
      && (gone == {} <==> count == 0 || z.entries == map[])
  {
    IndexLength(z);
    HighestPart(z, count);
    PartExactly(z, |z.index| - Least(count, z.index), |z.index|);
  }

  /** So does ZPOPMIN. */
  lemma LowestExactly(z: ZSet, count: nat)
    requires Consistent(z)
    ensures var gone := Lowest(Some(SetValue(z)), count);
      && (gone == z.entries.Keys <==> count >= |z.entries|)
      && (gone == {} <==> count == 0 || z.entries == map[])
  {
    IndexLength(z);
    LowestPart(z, count);
    PartExactly(z, 0, Least(count, z.index));
  }

  lemma HighestPart(z: ZSet, count: nat)
    ensures Highest(Some(SetValue(z)), count) == MembersOf(z.index[|z.index| - Least(count, z.index)..|z.index|])
  {
  }

  lemma LowestPart(z: ZSet, count: nat)
    ensures Lowest(Some(SetValue(z)), count) == MembersOf(z.index[0..Least(count, z.index)])
  {
  }

  /** A part of the index names all members exactly if it is the whole index. */
  lemma PartExactly(z: ZSet, from: nat, to: nat)
    requires Consistent(z) && from <= to <= |z.index|
    ensures MembersOf(z.index[from..to]) == z.entries.Keys <==> to - from == |z.index|
    ensures MembersOf(z.index[from..to]) == {} <==> to == from
  {
    IndexDistinct(z);
    AllMembers(z);
    PartSize(z.index, from, to);
    PartInside(z, from, to);
    SubsetSize(MembersOf(z.index[from..to]), z.entries.Keys);
  }

  lemma PartSize(s: seq<Stored>, from: nat, to: nat)
    requires Distinct(s) && from <= to <= |s|
    ensures |MembersOf(s[from..to])| == to - from
  {
    MembersCount(s[from..to]);
    MembersOfAll(s[from..to]);
  }

  lemma PartInside(z: ZSet, from: nat, to: nat)
    requires Consistent(z) && from <= to <= |z.index|
    ensures MembersOf(z.index[from..to]) <= z.entries.Keys
  {
    forall k | k in z.index[from..to]
      ensures k.entry in z.entries
    {
      assert k in z.index;
    }
  }

  lemma AllMembers(z: ZSet)
    requires Consistent(z)
    ensures |z.entries.Keys| == |z.index|
  {
    IndexLength(z);
  }

  lemma SubsetSize(a: set<Member>, b: set<Member>)
    requires a <= b
    ensures a == b <==> |a| == |b|
  {
    assert b == a + (b - a);
  }

  ghost function RankVictims(v: Option<Value>, start: int, stop: int): set<Member> {
    if v.Some? && v.value.SetValue? then RankMembers(v.value.z, start, stop) else {}
  }

  ghost function ScoreVictims(entries: Entries, min: Bound<Score>, max: Bound<Score>): set<Member> {
    set m | m in entries && AboveMin(entries[m], min) && BelowMax(entries[m], max)
  }

  lemma ScoreVictimsFound(z: ZSet, min: Bound<Score>, max: Bound<Score>, overrun: nat)
    requires Consistent(z)
    ensures var found := Filter(Range(z.index, Lower(z.index, min), Upper(z.index, max), overrun), WithinBounds(min, max));
      && (forall k :: k in found ==> k in z.index)
      && MembersOf(found) == ScoreVictims(z.entries, min, max)
  {
    var range := Range(z.index, Lower(z.index, min), Upper(z.index, max), overrun);
    var found := Filter(range, WithinBounds(min, max));
    FilterMembers(range, WithinBounds(min, max));
    forall m | m in ScoreVictims(z.entries, min, max)
      ensures m in MembersOf(found)
    {
      var k: Stored := Key(z.entries[m], m);
      assert k in z.index;
      BoundsCut(z.index, min, max, overrun, k);
      assert k in found;
    }
  }

  // ----- The store -----

  class Storage {
    var dbs: Dbs

    ghost predicate Valid()
      reads this
    {
      Sound(dbs)
    }

    constructor ()
      ensures Valid() && dbs == map[]
    {
      dbs := map[];
    }

    /** Puts a set that lost members back, or removes its key when it is empty. */
    method PutBack(db: nat, key: Name, z: ZSet)
      requires Valid() && Consistent(z)
      modifies this
      ensures Valid() && SameElsewhere(old(dbs), dbs, db, key)
      ensures Left(Find(dbs, db, key), z.entries)
    {
      SetAtSound(dbs, db, key, z);
      DelAtSound(dbs, db, key);
      if z.entries == map[] {
        dbs := DelAt(dbs, db, key);
      } else {
        dbs := SetAt(dbs, db, key, SetValue(z));
      }
    }

    method Zadd(db: nat, key: Name, pairs: seq<Pair>, options: seq<AddOption>) returns (r: Outcome)
      requires Valid()
      modifies this
      ensures Valid() && SameElsewhere(old(dbs), dbs, db, key)
      ensures var before, after := Find(old(dbs), db, key), Find(dbs, db, key);
        var given := set o | o in options;
        if CheckOptions(given, pairs).Some? then r == BadOption(CheckOptions(given, pairs).value) && dbs == old(dbs)
        else if before.Some? && before.value.Other? then r == WrongType && after == before
        else
          && r == Done && after.Some? && after.value.SetValue?
          && after.value.z.entries == AddPairs(given, EntriesOf(before), pairs)
    {
      var nx, xx, gt, lt, incr := ReadOptions(options);
      if nx && xx {
        return BadOption(NxAndXx);
      }
      if (gt || lt) && nx {
        return BadOption(NxWithGtOrLt);
      }
      if incr && |pairs| != 1 {
        return BadOption(IncrNeedsOnePair);
      }
      var found := Find(dbs, db, key);
      if found.Some? && found.value.Other? {
        return WrongType;
      }
      var z := if found.Some? then found.value.z else EMPTY;
      assert SoundValue(found);
      z := AddAll(z, pairs, (set o | o in options), nx, xx, gt, lt, incr);
      SetAtSound(dbs, db, key, z);
      dbs := SetAt(dbs, db, key, SetValue(z));
      r := Done;
    }

    method Zincrby(db: nat, key: Name, delta: Score, member: Member) returns (r: Outcome)
      requires Valid()
      modifies this
      ensures Valid() && SameElsewhere(old(dbs), dbs, db, key)
      ensures var before, after := Find(old(dbs), db, key), Find(dbs, db, key);
        if before.Some? && before.value.Other? then r == WrongType && after == before
        else
          && r == Done && after.Some? && after.value.SetValue?
          && after.value.z.entries == AddPairs({INCR}, EntriesOf(before), [Pair(delta, member)])
    {
      var found := Find(dbs, db, key);
      if found.Some? && found.value.Other? {
        return WrongType;
      }
      var z := if found.Some? then found.value.z else EMPTY;
      var prior := if member in z.entries then z.entries[member] else Zero();
      var score := Add(prior, delta);
      var index := z.index;
      if prior != Zero() || member in z.entries {
        index := Remove(index, Ref(prior, member));
      }
      assert SoundValue(found);
      PutConsistent(z, member, score);
      IncrIsAdd(z.entries, delta, member);
      z := ZSet(Insert(index, Key(score, member)), z.entries[member := score]);
      SetAtSound(dbs, db, key, z);
      dbs := SetAt(dbs, db, key, SetValue(z));
      r := Done;
    }

    method Zrem(db: nat, key: Name, members: seq<Member>) returns (r: Outcome)
      requires Valid()
      modifies this
      ensures Valid() && SameElsewhere(old(dbs), dbs, db, key)
      ensures Removes(Find(old(dbs), db, key), Find(dbs, db, key), r, set m | m in members)
    {
      var found := Find(dbs, db, key);
      if found.None? {
        return Done;
      }
      if found.value.Other? {
        return WrongType;
      }
      assert SoundValue(found);
      var z := RemoveMembers(found.value.z, members);
      PutBack(db, key, z);
      r := Done;
    }

    /** Takes the `count` highest members out, or all there are. */
    method Zpopmax(db: nat, key: Name, count: nat) returns (r: Outcome)
      requires Valid()
      modifies this
      ensures Valid() && SameElsewhere(old(dbs), dbs, db, key)
      ensures Removes(Find(old(dbs), db, key), Find(dbs, db, key), r, Highest(Find(old(dbs), db, key), count))
    {
      var found := Find(dbs, db, key);
      if found.None? {
        return Done;
      }
      if found.value.Other? {
        return WrongType;
      }
      assert SoundValue(found);
      var z := PopHighest(found.value.z, count);
      PutBack(db, key, z);
      r := Done;
    }

    /** Takes the `count` lowest members out, or all there are. */
    method Zpopmin(db: nat, key: Name, count: nat) returns (r: Outcome)
      requires Valid()
      modifies this
      ensures Valid() && SameElsewhere(old(dbs), dbs, db, key)
      ensures Removes(Find(old(dbs), db, key), Find(dbs, db, key), r, Lowest(Find(old(dbs), db, key), count))
    {
      var found := Find(dbs, db, key);
      if found.None? {
        return Done;
      }
      if found.value.Other? {
        return WrongType;
      }
      assert SoundValue(found);
      var z := PopLowest(found.value.z, count);
      PutBack(db, key, z);
      r := Done;
    }

    /** Removes what `Zrange` with the same arguments returns. */
    method ZremRangeByRank(db: nat, key: Name, start: int, stop: int) returns (r: Outcome)
      requires Valid()
      modifies this
      ensures Valid() && SameElsewhere(old(dbs), dbs, db, key)
      ensures var before := Find(old(dbs), db, key);
        if before.Some? && before.value == SetValue(EMPTY) then r == Done && dbs == old(dbs)
        else Removes(before, Find(dbs, db, key), r, RankVictims(before, start, stop))
    {
      var found := Find(dbs, db, key);
      if found.None? {
        return Done;
      }
      if found.value.Other? {
        return WrongType;
      }
      assert SoundValue(found);
      var z := found.value.z;
      if z.entries == map[] {
        ConsistentUnique(z, EMPTY);
        return Done;
      }
      var touched;
      touched, z := RemoveRanks(z, start, stop);
      if touched {
        PutBack(db, key, z);
      }
      r := Done;
    }

    /** Removes the members with a score between the bounds, however far the index range overruns. */
    method ZremRangeByScore(db: nat, key: Name, min: Bound<Score>, max: Bound<Score>, overrun: nat) returns (r: Outcome)
      requires Valid()
      modifies this
      ensures Valid() && SameElsewhere(old(dbs), dbs, db, key)
      ensures Removes(Find(old(dbs), db, key), Find(dbs, db, key), r, ScoreVictims(EntriesOf(Find(old(dbs), db, key)), min, max))
    {
      var found := Find(dbs, db, key);
      if found.None? {
        return Done;
      }
      if found.value.Other? {
        return WrongType;
      }
      assert SoundValue(found);
      var z := found.value.z;
      var victims := Filter(Range(z.index, Lower(z.index, min), Upper(z.index, max), overrun), WithinBounds(min, max));
      ScoreVictimsFound(z, min, max, overrun);
      AgreeInside(z, victims);
      z := RemoveKeys(z, victims);
      PutBack(db, key, z);
      r := Done;
    }

    /** Removes the members between two members; inverted bounds on a set with members panic. */
    method ZremRangeByLex(db: nat, key: Name, min: Bound<Member>, max: Bound<Member>) returns (r: Outcome)
      requires Valid()
      modifies this
      ensures Valid() && SameElsewhere(old(dbs), dbs, db, key)
      ensures var before := Find(old(dbs), db, key);
        if EntriesOf(before) != map[] && LexInverted(min, max) then r == Panic && dbs == old(dbs)
        else Removes(before, Find(dbs, db, key), r, set m | m in EntriesOf(before) && LexIn(m, min, max))
    {
      var found := Find(dbs, db, key);
      if found.None? {
        return Done;
      }
      if found.value.Other? {
        return WrongType;
      }
      if found.value.z.entries != map[] && LexInverted(min, max) {
        return Panic;
      }
      assert SoundValue(found);
      var z := RemoveSet(found.value.z, set m | m in found.value.z.entries && LexIn(m, min, max));
      PutBack(db, key, z);
      r := Done;
    }
  }
}
