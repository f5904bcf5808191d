/**
 Sorted sets: a map from members to scores and an ordered index over the same pairs.
 Every write touches both; `Consistent` says that they agree.
 */
module ZSets {
  import opened ZSetOrder
  import opened ZSetIndex

  datatype ZSet = ZSet(index: seq<Stored>, entries: map<Member, Score>)

  const EMPTY := ZSet([], map[])

  /** The index is strictly sorted and holds exactly the pairs of the entries map. */
  ghost predicate Consistent(z: ZSet) {
    && Sorted(z.index)
    && forall k: Stored :: k in z.index <==> k.entry in z.entries && z.entries[k.entry] == k.score
  }

  /** The index without the key of `member`. */
  function Without(z: ZSet, member: Member): seq<Stored> {
    if member in z.entries then Remove(z.index, Ref(z.entries[member], member)) else z.index
  }

  /** Sets `member` to `score`, replacing an old index key. */
  function Put(z: ZSet, member: Member, score: Score): ZSet {
    ZSet(Insert(Without(z, member), Key(score, member)), z.entries[member := score])
  }

  /** Removes `member` from both views. */
  function Drop(z: ZSet, member: Member): ZSet {
    if member in z.entries
    then ZSet(Remove(z.index, Ref(z.entries[member], member)), z.entries - {member})
    else z
  }

  // ----- Every write keeps the two views equal -----

  /** A reference probe equals exactly the stored key with the same parts. */
  lemma RefEqual(k: Stored, score: Score, member: Member)
    ensures Cmp(k, Ref(score, member)) == Equal <==> k == Key(score, member)
  {
    CmpMemberEqual(k.entry, member);
  }

  lemma RemoveRef(s: seq<Stored>, score: Score, member: Member)
    requires Sorted(s)
    ensures Sorted(Remove(s, Ref(score, member)))
    ensures forall k: Stored :: k in Remove(s, Ref(score, member)) <==> k in s && k != Key(score, member)
  {
    RemoveSorted(s, Ref(score, member));
    forall k: Stored
      ensures Cmp(k, Ref(score, member)) == Equal <==> k == Key(score, member)
    {
      RefEqual(k, score, member);
    }
  }

  lemma WithoutMember(z: ZSet, member: Member)
    requires Consistent(z)
    ensures Sorted(Without(z, member))
    ensures forall k: Stored :: k in Without(z, member) <==> k in z.index && k.entry != member
  {
    if member in z.entries {
      RemoveRef(z.index, z.entries[member], member);
    }
  }

  lemma PutConsistent(z: ZSet, member: Member, score: Score)
    requires Consistent(z)
    ensures Consistent(Put(z, member, score))
  {
    WithoutMember(z, member);
    InsertSorted(Without(z, member), Key(score, member));
  }

  lemma DropConsistent(z: ZSet, member: Member)
    requires Consistent(z)
    ensures Consistent(Drop(z, member))
    ensures Drop(z, member).entries == z.entries - {member}
  {
    if member in z.entries {
      RemoveRef(z.index, z.entries[member], member);
    }
  }

  /** Consistent sorted sets with the same entries are the same. */
  lemma ConsistentUnique(z: ZSet, z': ZSet)
    requires Consistent(z) && Consistent(z') && z.entries == z'.entries
    ensures z == z'
  {
    SortedUnique(z.index, z'.index);
  }

  /** Any write is a sequence of these edits. */
  datatype Edit = PutEdit(member: Member, score: Score) | DropEdit(member: Member)

  function Apply(z: ZSet, edits: seq<Edit>): ZSet
    decreases |edits|
  {
    if edits == [] then z
    else
      match edits[0]
      case PutEdit(m, s) => Apply(Put(z, m, s), edits[1..])
      case DropEdit(m) => Apply(Drop(z, m), edits[1..])
  }

  function ApplyEntries(entries: map<Member, Score>, edits: seq<Edit>): map<Member, Score>
    decreases |edits|
  {
    if edits == [] then entries
    else
      match edits[0]
      case PutEdit(m, s) => ApplyEntries(entries[m := s], edits[1..])
      case DropEdit(m) => ApplyEntries(entries - {m}, edits[1..])
  }

  /** After any run of edits the index mirrors the entries, and the entries are what the edits alone say. */
  lemma {:induction false} RunConsistent(z: ZSet, edits: seq<Edit>)
    requires Consistent(z)
    ensures Consistent(Apply(z, edits)) && Apply(z, edits).entries == ApplyEntries(z.entries, edits)
    decreases |edits|
  {
    if edits != [] {
      match edits[0]
      case PutEdit(m, s) =>
        PutConsistent(z, m, s);
        RunConsistent(Put(z, m, s), edits[1..]);
      case DropEdit(m) =>
        DropConsistent(z, m);
        RunConsistent(Drop(z, m), edits[1..]);
    }
  }

  // ----- Sizes -----

  ghost function Members(s: seq<Stored>): set<Member> {
    set i | 0 <= i < |s| :: s[i].entry
  }

  ghost predicate Distinct(s: seq<Stored>) {
    forall i, j :: 0 <= i < j < |s| ==> s[i].entry != s[j].entry
  }

  lemma IndexDistinct(z: ZSet)
    requires Consistent(z)
    ensures Distinct(z.index)
  {
    forall i, j | 0 <= i < j < |z.index|
      ensures z.index[i].entry != z.index[j].entry
    {
      assert z.index[i] in z.index && z.index[j] in z.index;
      CmpEqual(z.index[i], z.index[j]);
    }
  }

  lemma {:induction false} MembersCount(s: seq<Stored>)
    requires Distinct(s)
    ensures |Members(s)| == |s|
    decreases |s|
  {
    if s != [] {
      var n := |s| - 1;
      var t := s[..n];
      MembersCount(t);
      assert Members(s) == Members(t) + {s[n].entry} by {
        assert s[n].entry in Members(s);
        assert forall i :: 0 <= i < n ==> t[i] == s[i];
      }
      assert s[n].entry !in Members(t);
    }
  }

  lemma IndexLength(z: ZSet)
    requires Consistent(z)
    ensures |z.index| == |z.entries|
  {
    IndexDistinct(z);
    MembersCount(z.index);
    assert Members(z.index) == z.entries.Keys by {
      forall m | m in z.entries
        ensures m in Members(z.index)
      {
        assert Key(z.entries[m], m) in z.index;
      }
    }
  }
}
