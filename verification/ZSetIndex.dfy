/** The ordered index: `indexset::BTreeSet` seen as a strictly sorted sequence of stored keys. */
module ZSetIndex {
  import opened ZSetOrder

  ghost predicate Sorted(s: seq<Stored>) {
    forall i, j :: 0 <= i < j < |s| ==> Cmp(s[i], s[j]) == Less
  }

  /** `rank`: how many keys are below the probe. */
  function Rank(s: seq<Stored>, probe: IndexKey): (n: nat)
    ensures n <= |s|
  {
    if s == [] then 0
    else (if Cmp(s[0], probe) == Less then 1 else 0) + Rank(s[1..], probe)
  }

  /** `insert`: the key goes to its place unless it is there already. */
  function Insert(s: seq<Stored>, k: Stored): seq<Stored> {
    var r := Rank(s, k);
    if r < |s| && Cmp(s[r], k) == Equal then s else s[..r] + [k] + s[r..]
  }

  /** `remove`: the key that the probe equals, if there is one. */
  function Remove(s: seq<Stored>, probe: IndexKey): seq<Stored> {
    var r := Rank(s, probe);
    if r < |s| && Cmp(s[r], probe) == Equal then s[..r] + s[r + 1..] else s
  }

  // ----- Rank -----

  /** The keys below a probe are exactly the first `Rank` ones. */
  lemma {:induction false} RankCuts(s: seq<Stored>, probe: IndexKey)
    requires Sorted(s)
    ensures forall i :: 0 <= i < |s| ==> (i < Rank(s, probe) <==> Cmp(s[i], probe) == Less)
    decreases |s|
  {
    if s != [] {
      var t := s[1..];
      RankCuts(t, probe);
      assert forall i :: 1 <= i < |s| ==> s[i] == t[i - 1];
      if Cmp(s[0], probe) != Less {
        forall i | 0 <= i < |t|
          ensures Cmp(t[i], probe) != Less
        {
          assert Cmp(s[0], s[i + 1]) == Less;
          if Cmp(t[i], probe) == Less {
            ProbeCuts(s[0], t[i], probe);
          }
        }
        assert t != [] ==> (0 < Rank(t, probe) <==> Cmp(t[0], probe) == Less);
      }
    }
  }

  /** A prefix property with a known boundary determines the rank. */
  lemma RankUnique(s: seq<Stored>, probe: IndexKey, r: nat)
    requires Sorted(s) && r <= |s|
    requires forall i :: 0 <= i < |s| ==> (i < r <==> Cmp(s[i], probe) == Less)
    ensures Rank(s, probe) == r
  {
    RankCuts(s, probe);
    var n := Rank(s, probe);
    assert n < |s| ==> (n < r <==> Cmp(s[n], probe) == Less);
    assert r < |s| ==> (r < n <==> Cmp(s[r], probe) == Less);
  }

  /** A stored key, or a reference to one, has its own position as rank. */
  lemma RankOfMember(s: seq<Stored>, i: nat, probe: IndexKey)
    requires Sorted(s) && i < |s| && Cmp(s[i], probe) == Equal
    ensures Rank(s, probe) == i
  {
    forall j | 0 <= j < |s|
      ensures j < i <==> Cmp(s[j], probe) == Less
    {
      if j < i {
        ProbeCuts(s[j], s[i], probe);
      } else if j > i && Cmp(s[j], probe) == Less {
        ProbeCuts(s[i], s[j], probe);
      }
    }
    RankUnique(s, probe, i);
  }

  // ----- Insert and remove -----

  lemma InsertSorted(s: seq<Stored>, k: Stored)
    requires Sorted(s)
    ensures Sorted(Insert(s, k))
    ensures forall x: Stored :: x in Insert(s, k) <==> x in s || x == k
  {
    var r := Rank(s, k);
    RankCuts(s, k);
    if r < |s| && Cmp(s[r], k) == Equal {
      CmpEqual(s[r], k);
    } else {
      var t := s[..r] + [k] + s[r..];
      forall i, j | 0 <= i < j < |t|
        ensures Cmp(t[i], t[j]) == Less
      {
        if i < r && j == r {
          assert t[i] == s[i];
        } else if i == r && j > r {
          assert t[j] == s[j - 1] && Cmp(s[j - 1], k) != Less;
          CmpFlips(s[j - 1], k);
          if j - 1 > r && Cmp(s[j - 1], k) == Equal {
            ProbeCuts(s[r], s[j - 1], k);
          }
        }
      }
      InsertMembers(s, k, r);
    }
  }

  lemma InsertMembers(s: seq<Stored>, k: Stored, r: nat)
    requires r <= |s|
    ensures forall x: Stored :: x in s[..r] + [k] + s[r..] <==> x in s || x == k
  {
    assert s == s[..r] + s[r..];
  }

  lemma RemoveAt(s: seq<Stored>, r: nat)
    requires Sorted(s) && r < |s|
    ensures var t := s[..r] + s[r + 1..];
      Sorted(t) && forall x: Stored :: x in t <==> x in s && x != s[r]
  {
    var t := s[..r] + s[r + 1..];
    assert forall i :: 0 <= i < |t| ==> t[i] == if i < r then s[i] else s[i + 1];
    assert s == s[..r] + [s[r]] + s[r + 1..];
    forall i | 0 <= i < |t|
      ensures t[i] != s[r]
    {
      CmpEqual(t[i], s[r]);
      CmpEqual(s[r], t[i]);
    }
  }

  lemma RemoveSorted(s: seq<Stored>, probe: IndexKey)
    requires Sorted(s)
    ensures Sorted(Remove(s, probe))
    ensures forall x: Stored :: x in Remove(s, probe) <==> x in s && Cmp(x, probe) != Equal
  {
    var r := Rank(s, probe);
    forall i | 0 <= i < |s| && Cmp(s[i], probe) == Equal
      ensures i == r
    {
      RankOfMember(s, i, probe);
    }
    if r < |s| && Cmp(s[r], probe) == Equal {
      RemoveAt(s, r);
    }
  }

  /** A strictly sorted sequence is determined by its elements. */
  lemma {:induction false} SortedUnique(s: seq<Stored>, t: seq<Stored>)
    requires Sorted(s) && Sorted(t)
    requires forall x: Stored :: x in s <==> x in t
    ensures s == t
    decreases |s|
  {
    if s != [] || t != [] {
      assert t != [] ==> t[0] in t;
      assert s != [] ==> s[0] in s;
      HeadEqual(s, t);
      var s', t' := s[1..], t[1..];
      forall x: Stored
        ensures x in s' <==> x in t'
      {
        TailMembers(s, x);
        TailMembers(t, x);
      }
      SortedUnique(s', t');
      assert s == [s[0]] + s' && t == [t[0]] + t';
    }
  }

  lemma HeadEqual(s: seq<Stored>, t: seq<Stored>)
    requires Sorted(s) && Sorted(t) && s != [] && t != []
    requires s[0] in t && t[0] in s
    ensures s[0] == t[0]
  {
    if s[0] != t[0] {
      var i :| 0 <= i < |t| && t[i] == s[0];
      var j :| 0 <= j < |s| && s[j] == t[0];
      CmpFlips(s[0], t[0]);
    }
  }

  lemma TailMembers(s: seq<Stored>, x: Stored)
    requires Sorted(s) && s != []
    ensures x in s[1..] <==> x in s && x != s[0]
  {
    assert s == [s[0]] + s[1..];
    if x in s[1..] {
      var i :| 0 <= i < |s[1..]| && s[1..][i] == x;
      assert Cmp(s[0], s[i + 1]) == Less;
      CmpEqual(s[0], x);
    }
  }
}
