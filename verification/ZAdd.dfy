/** ZADD on the entries alone: what each combination of options makes of a list of pairs. */
module ZAdd {
  import opened Bytes
  import opened ZSetOrder

  datatype AddOption = NX | XX | GT | LT | CH | INCR

  datatype Pair = Pair(score: Score, member: Member)

  type Entries = map<Member, Score>

  /** What `zadd` rejects before it looks at the store, in the order of its checks. */
  datatype BadOptions = NxAndXx | NxWithGtOrLt | IncrNeedsOnePair

  function CheckOptions(options: set<AddOption>, pairs: seq<Pair>): Option<BadOptions> {
    if NX in options && XX in options then Some(NxAndXx)
    else if (GT in options || LT in options) && NX in options then Some(NxWithGtOrLt)
    else if INCR in options && |pairs| != 1 then Some(IncrNeedsOnePair)
    else None
  }

  function Supplied(options: set<AddOption>, prior: Option<Score>, score: Score): Score {
    if INCR in options then Add(if prior.Some? then prior.value else Zero(), score) else score
  }

  /** The score that one pair gives its member, or None when the pair is skipped. */
  function Decide(options: set<AddOption>, prior: Option<Score>, score: Score): Option<Score> {
    var next := Supplied(options, prior, score);
    if NX in options && prior.Some? then None
    else if XX in options && prior.None? then None
    else if GT in options && prior.Some? && Leq(next, prior.value) then None
    else if LT in options && prior.Some? && Leq(prior.value, next) then None
    else Some(next)
  }

  function Get(entries: Entries, member: Member): Option<Score> {
    if member in entries then Some(entries[member]) else None
  }

  function AddPair(options: set<AddOption>, entries: Entries, p: Pair): Entries {
    match Decide(options, Get(entries, p.member), p.score)
    case None => entries
    case Some(score) => entries[p.member := score]
  }

  function AddPairs(options: set<AddOption>, entries: Entries, pairs: seq<Pair>): Entries
    decreases |pairs|
  {
    if pairs == [] then entries
    else AddPair(options, AddPairs(options, entries, pairs[..|pairs| - 1]), pairs[|pairs| - 1])
  }

  predicate Names(pairs: seq<Pair>, member: Member) {
    exists i :: 0 <= i < |pairs| && pairs[i].member == member
  }

  /** The scores that `pairs` gives to `member`, in order. */
  function ScoresFor(pairs: seq<Pair>, member: Member): seq<Score>
    decreases |pairs|
  {
    if pairs == [] then []
    else
      var p := pairs[|pairs| - 1];
      ScoresFor(pairs[..|pairs| - 1], member) + if p.member == member then [p.score] else []
  }

  /** Members are independent: each one sees only its own scores, whatever else is in the list. */
  function Settle(options: set<AddOption>, prior: Option<Score>, scores: seq<Score>): Option<Score>
    decreases |scores|
  {
    if scores == [] then prior
    else
      SettleOne(options, Settle(options, prior, scores[..|scores| - 1]), scores[|scores| - 1])
  }

  lemma AddPairsSnoc(options: set<AddOption>, entries: Entries, pairs: seq<Pair>, i: nat)
    requires i < |pairs|
    ensures AddPairs(options, entries, pairs[..i + 1]) == AddPair(options, AddPairs(options, entries, pairs[..i]), pairs[i])
  {
    assert pairs[..i + 1][..i] == pairs[..i];
  }

  /** One pair seen by one member. */
  function SettleOne(options: set<AddOption>, prior: Option<Score>, score: Score): Option<Score> {
    match Decide(options, prior, score)
    case None => prior
    case Some(s) => Some(s)
  }

  lemma SettleSnoc(options: set<AddOption>, prior: Option<Score>, scores: seq<Score>, x: Score)
    ensures Settle(options, prior, scores + [x]) == SettleOne(options, Settle(options, prior, scores), x)
  {
    assert (scores + [x])[..|scores|] == scores;
  }

  lemma GetAfter(options: set<AddOption>, entries: Entries, p: Pair, member: Member)
    ensures Get(AddPair(options, entries, p), member)
      == if p.member == member then SettleOne(options, Get(entries, member), p.score) else Get(entries, member)
  {
  }

  lemma {:induction false} MembersIndependent(options: set<AddOption>, entries: Entries, pairs: seq<Pair>, member: Member)
    ensures Get(AddPairs(options, entries, pairs), member) == Settle(options, Get(entries, member), ScoresFor(pairs, member))
    decreases |pairs|
  {
    if pairs != [] {
      var init, p := pairs[..|pairs| - 1], pairs[|pairs| - 1];
      MembersIndependent(options, entries, init, member);
      GetAfter(options, AddPairs(options, entries, init), p, member);
      SettleSnoc(options, Get(entries, member), ScoresFor(init, member), p.score);
      assert ScoresFor(init, member) + [] == ScoresFor(init, member);
    }
  }

  lemma {:induction false} UnnamedHaveNoScores(pairs: seq<Pair>, member: Member)
    ensures ScoresFor(pairs, member) == [] <==> !Names(pairs, member)
    decreases |pairs|
  {
    if pairs != [] {
      var init := pairs[..|pairs| - 1];
      UnnamedHaveNoScores(init, member);
      if Names(init, member) {
        var i :| 0 <= i < |init| && init[i].member == member;
        assert pairs[i].member == member;
      }
      if Names(pairs, member) && pairs[|pairs| - 1].member != member {
        var i :| 0 <= i < |pairs| && pairs[i].member == member;
        assert init[i].member == member;
      }
    }
  }

  /** A member that no pair names keeps its score, under every combination of options. */
  lemma UnnamedUnchanged(options: set<AddOption>, entries: Entries, pairs: seq<Pair>, member: Member)
    requires !Names(pairs, member)
    ensures Get(AddPairs(options, entries, pairs), member) == Get(entries, member)
  {
    MembersIndependent(options, entries, pairs, member);
    UnnamedHaveNoScores(pairs, member);
  }

  // ----- What the options mean -----

  /** All candidates for a final score: the old one and the supplied ones. */
  function Candidates(prior: Option<Score>, scores: seq<Score>): seq<Score> {
    (if prior.Some? then [prior.value] else []) + scores
  }

  predicate IsMax(m: Score, s: seq<Score>) {
    m in s && forall x :: x in s ==> Leq(x, m)
  }

  predicate IsMin(m: Score, s: seq<Score>) {
    m in s && forall x :: x in s ==> Leq(m, x)
  }

  lemma CandidatesGrow(prior: Option<Score>, scores: seq<Score>)
    requires scores != []
    ensures Candidates(prior, scores) == Candidates(prior, scores[..|scores| - 1]) + [scores[|scores| - 1]]
  {
    assert scores == scores[..|scores| - 1] + [scores[|scores| - 1]];
  }

  /** Scores: a total order, in which equal means the same. */
  lemma LeqTotal(a: Score, b: Score)
    ensures Leq(a, b) || Leq(b, a)
    ensures Leq(a, b) && Leq(b, a) ==> a == b
  {
  }

  lemma MaxGrows(m: Score, s: seq<Score>, x: Score)
    requires IsMax(m, s)
    ensures IsMax(if Leq(x, m) then m else x, s + [x])
  {
  }

  lemma MinGrows(m: Score, s: seq<Score>, x: Score)
    requires IsMin(m, s)
    ensures IsMin(if Leq(m, x) then m else x, s + [x])
  {
  }

  /** GT alone: the maximum of the old score and all supplied ones. */
  lemma {:induction false} GtSettles(options: set<AddOption>, prior: Option<Score>, scores: seq<Score>)
    requires GT in options && options <= {GT, CH}
    requires prior.Some? || scores != []
    ensures Settle(options, prior, scores).Some? && IsMax(Settle(options, prior, scores).value, Candidates(prior, scores))
    decreases |scores|
  {
    if scores != [] {
      CandidatesGrow(prior, scores);
      var init, x := scores[..|scores| - 1], scores[|scores| - 1];
      if prior.Some? || init != [] {
        GtSettles(options, prior, init);
        MaxGrows(Settle(options, prior, init).value, Candidates(prior, init), x);
      }
    }
  }

  /** LT alone: the minimum. */
  lemma {:induction false} LtSettles(options: set<AddOption>, prior: Option<Score>, scores: seq<Score>)
    requires LT in options && options <= {LT, CH}
    requires prior.Some? || scores != []
    ensures Settle(options, prior, scores).Some? && IsMin(Settle(options, prior, scores).value, Candidates(prior, scores))
    decreases |scores|
  {
    if scores != [] {
      CandidatesGrow(prior, scores);
      var init, x := scores[..|scores| - 1], scores[|scores| - 1];
      if prior.Some? || init != [] {
        LtSettles(options, prior, init);
        MinGrows(Settle(options, prior, init).value, Candidates(prior, init), x);
      }
    }
  }

  /** NX: an old score stays, otherwise the first supplied score wins. */
  lemma {:induction false} NxSettles(options: set<AddOption>, prior: Option<Score>, scores: seq<Score>)
    requires NX in options && options <= {NX, CH}
    ensures Settle(options, prior, scores)
      == if prior.Some? then prior else if scores == [] then None else Some(scores[0])
    decreases |scores|
  {
    if scores != [] {
      NxSettles(options, prior, scores[..|scores| - 1]);
    }
  }

  /** XX: members are never created, and the last supplied score wins for those that exist. */
  lemma {:induction false} XxSettles(options: set<AddOption>, prior: Option<Score>, scores: seq<Score>)
    requires XX in options && options <= {XX, CH}
    ensures Settle(options, prior, scores)
      == if prior.None? || scores == [] then prior else Some(scores[|scores| - 1])
    decreases |scores|
  {
    if scores != [] {
      XxSettles(options, prior, scores[..|scores| - 1]);
    }
  }

  /** GT and LT together never move an existing score: they mean NX. */
  lemma {:induction false} GtLtSettles(options: set<AddOption>, prior: Option<Score>, scores: seq<Score>)
    requires GT in options && LT in options && options <= {GT, LT, CH}
    ensures Settle(options, prior, scores) == Settle({NX}, prior, scores)
    decreases |scores|
  {
    if scores != [] {
      var init := scores[..|scores| - 1];
      GtLtSettles(options, prior, init);
      if Settle(options, prior, init).Some? {
        LeqTotal(Settle(options, prior, init).value, scores[|scores| - 1]);
      }
    }
  }

  /** With GT, every named member ends at the maximum of its old score and all supplied ones. */
  lemma GtIsMax(options: set<AddOption>, entries: Entries, pairs: seq<Pair>, member: Member)
    requires GT in options && options <= {GT, CH} && Names(pairs, member)
    ensures var next := AddPairs(options, entries, pairs);
      member in next && IsMax(next[member], Candidates(Get(entries, member), ScoresFor(pairs, member)))
  {
    MembersIndependent(options, entries, pairs, member);
    UnnamedHaveNoScores(pairs, member);
    GtSettles(options, Get(entries, member), ScoresFor(pairs, member));
  }

  lemma LtIsMin(options: set<AddOption>, entries: Entries, pairs: seq<Pair>, member: Member)
    requires LT in options && options <= {LT, CH} && Names(pairs, member)
    ensures var next := AddPairs(options, entries, pairs);
      member in next && IsMin(next[member], Candidates(Get(entries, member), ScoresFor(pairs, member)))
  {
    MembersIndependent(options, entries, pairs, member);
    UnnamedHaveNoScores(pairs, member);
    LtSettles(options, Get(entries, member), ScoresFor(pairs, member));
  }

  lemma NxKeepsFirst(options: set<AddOption>, entries: Entries, pairs: seq<Pair>, member: Member)
    requires NX in options && options <= {NX, CH} && Names(pairs, member)
    ensures Get(AddPairs(options, entries, pairs), member)
      == Some(if member in entries then entries[member] else UnnamedHaveNoScores(pairs, member); ScoresFor(pairs, member)[0])
  {
    MembersIndependent(options, entries, pairs, member);
    UnnamedHaveNoScores(pairs, member);
    NxSettles(options, Get(entries, member), ScoresFor(pairs, member));
  }

  /** The order and repetition of pairs do not matter under GT or LT, only which scores are supplied. */
  lemma ExtremesUnordered(options: set<AddOption>, entries: Entries, pairs: seq<Pair>, pairs': seq<Pair>)
    requires (GT in options && options <= {GT, CH}) || (LT in options && options <= {LT, CH})
    requires forall p :: p in pairs <==> p in pairs'
    ensures AddPairs(options, entries, pairs) == AddPairs(options, entries, pairs')
  {
    var next, next' := AddPairs(options, entries, pairs), AddPairs(options, entries, pairs');
    forall m
      ensures Get(next, m) == Get(next', m)
    {
      ScoresForMembers(pairs, m);
      ScoresForMembers(pairs', m);
      UnnamedHaveNoScores(pairs, m);
      UnnamedHaveNoScores(pairs', m);
      assert Names(pairs, m) == Names(pairs', m) by {
        NamesByPair(pairs, pairs', m);
        NamesByPair(pairs', pairs, m);
      }
      if !Names(pairs, m) {
        UnnamedUnchanged(options, entries, pairs, m);
        UnnamedUnchanged(options, entries, pairs', m);
      } else {
        var c, c' := Candidates(Get(entries, m), ScoresFor(pairs, m)), Candidates(Get(entries, m), ScoresFor(pairs', m));
        assert forall x :: x in c <==> x in c';
        if GT in options {
          GtIsMax(options, entries, pairs, m);
          GtIsMax(options, entries, pairs', m);
        } else {
          LtIsMin(options, entries, pairs, m);
          LtIsMin(options, entries, pairs', m);
        }
        LeqTotal(next[m], next'[m]);
      }
    }
    SameMap(next, next');
  }

  lemma NamesByPair(pairs: seq<Pair>, pairs': seq<Pair>, member: Member)
    requires forall p :: p in pairs <==> p in pairs'
    ensures Names(pairs, member) ==> Names(pairs', member)
  {
    if Names(pairs, member) {
      var i :| 0 <= i < |pairs| && pairs[i].member == member;
      assert pairs[i] in pairs';
    }
  }

  lemma {:induction false} ScoresForMembers(pairs: seq<Pair>, member: Member)
    ensures forall x :: x in ScoresFor(pairs, member) <==> Pair(x, member) in pairs
    decreases |pairs|
  {
    if pairs != [] {
      var init, p := pairs[..|pairs| - 1], pairs[|pairs| - 1];
      ScoresForMembers(init, member);
      assert pairs == init + [p];
    }
  }

  lemma SameMap(a: Entries, b: Entries)
    requires forall m :: Get(a, m) == Get(b, m)
    ensures a == b
  {
    assert forall m :: m in a <==> Get(a, m).Some?;
    assert forall m :: m in b <==> Get(b, m).Some?;
    assert forall m :: m in a ==> Get(a, m) == Some(a[m]);
  }

  /** The result is empty exactly when there was nothing and nothing could be created. */
  lemma {:induction false} EmptyExactly(options: set<AddOption>, entries: Entries, pairs: seq<Pair>)
    requires CheckOptions(options, pairs).None?
    ensures AddPairs(options, entries, pairs) == map[] <==> entries == map[] && (pairs == [] || XX in options)
  {
    Grows(options, entries, pairs);
    if entries == map[] && pairs != [] && XX !in options {
      Creates(options, entries, pairs);
    }
  }

  lemma {:induction false} Grows(options: set<AddOption>, entries: Entries, pairs: seq<Pair>)
    ensures entries.Keys <= AddPairs(options, entries, pairs).Keys
    ensures XX in options ==> AddPairs(options, entries, pairs).Keys == entries.Keys
    decreases |pairs|
  {
    if pairs != [] {
      Grows(options, entries, pairs[..|pairs| - 1]);
    }
  }

  lemma Creates(options: set<AddOption>, entries: Entries, pairs: seq<Pair>)
    requires XX !in options && pairs != []
    ensures pairs[|pairs| - 1].member in AddPairs(options, entries, pairs)
  {
  }
}
