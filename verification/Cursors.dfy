/**
 Cursors over an ordered map: `first`/`next` and `last`/`prev`, for keys of a database as well as
 for members of a sorted set.  `less` is the order of the keys.
 */
module Cursors {
  import opened Bytes
  import opened Seqs
  import opened ZSetOrder

  type Order<!T> = (T, T) -> bool

  ghost predicate StrictOrder<T(!new)>(less: Order<T>) {
    && (forall a :: !less(a, a))
    && forall a, b, c {:trigger Chain(less, a, b, c)} :: Chain(less, a, b, c) ==> less(a, c)
  }

  predicate Chain<T>(less: Order<T>, a: T, b: T, c: T) {
    less(a, b) && less(b, c)
  }

  ghost predicate Ordered<T>(less: Order<T>, s: seq<T>) {
    forall i, j :: 0 <= i < j < |s| ==> less(s[i], s[j])
  }

  function Flipped<T>(less: Order<T>): Order<T> {
    (a, b) => less(b, a)
  }

  function Take<T>(s: seq<T>, n: nat): seq<T> {
    if n < |s| then s[..n] else s
  }

  /** Where the keys above `k` begin. */
  function Cut<T>(less: Order<T>, s: seq<T>, k: T): (n: nat)
    ensures n <= |s| && (n < |s| ==> less(k, s[n]))
    ensures forall i :: 0 <= i < n ==> !less(k, s[i])
  {
    if s == [] || less(k, s[0]) then 0
    else
      var n := Cut(less, s[1..], k);
      assert forall i :: 1 <= i < 1 + n ==> s[i] == s[1..][i - 1];
      1 + n
  }

  /** Where the keys not below `k` begin. */
  function CutBelow<T>(less: Order<T>, s: seq<T>, k: T): (n: nat)
    ensures n <= |s| && (n < |s| ==> !less(s[n], k))
    ensures forall i :: 0 <= i < n ==> less(s[i], k)
  {
    if s == [] || !less(s[0], k) then 0
    else
      var n := CutBelow(less, s[1..], k);
      assert forall i :: 1 <= i < 1 + n ==> s[i] == s[1..][i - 1];
      1 + n
  }

  // ----- The four cursor commands -----

  function First<T>(s: seq<T>, count: nat): seq<T> {
    Take(s, count)
  }

  function Next<T>(less: Order<T>, s: seq<T>, k: T, count: nat): seq<T> {
    Take(s[Cut(less, s, k)..], count)
  }

  function Last<T>(s: seq<T>, count: nat): seq<T> {
    Take(Reverse(s), count)
  }

  function Prev<T>(less: Order<T>, s: seq<T>, k: T, count: nat): seq<T> {
    Take(Reverse(s[..CutBelow(less, s, k)]), count)
  }

  // ----- Orders -----

  /** Octet strings in lexicographic order, the order of every map in the store. */
  function MemberLess(): Order<Member> {
    (a, b) => CmpMember(a, b) == Less
  }

  lemma MemberOrder()
    ensures StrictOrder(MemberLess())
  {
    var less := MemberLess();
    forall a
      ensures !less(a, a)
    {
      CmpMemberEqual(a, a);
    }
    forall a, b, c | Chain(less, a, b, c)
      ensures less(a, c)
    {
      CmpMemberTransitive(a, b, c);
    }
  }

  /** A proper prefix, or smaller at the first difference. */
  lemma MembersByOctets(a: Member, b: Member)
    ensures MemberLess()(a, b) <==> OctetsLess(a, b)
  {
    OctetOrder(a, b);
  }

  /** Walking backwards is walking forwards through the reversed keys in the flipped order. */
  lemma PrevIsNextReversed<T(!new)>(less: Order<T>, s: seq<T>, k: T, count: nat)
    requires StrictOrder(less) && Ordered(less, s)
    ensures Prev(less, s, k, count) == Next(Flipped(less), Reverse(s), k, count)
  {
    var r, below := Reverse(s), CutBelow(less, s, k);
    ReverseAt(s);
    ReverseAt(s[..below]);
    var n := |s| - below;
    forall j | below <= j < |s|
      ensures !less(s[j], k)
    {
      assert below < j ==> less(s[below], s[j]) && !Chain(less, s[below], s[j], k);
    }
    CutUnique(Flipped(less), r, k, n);
    assert Reverse(s[..below]) == r[n..];
  }

  lemma {:induction false} CutUnique<T>(less: Order<T>, s: seq<T>, k: T, n: nat)
    requires n <= |s| && (n < |s| ==> less(k, s[n])) && forall i :: 0 <= i < n ==> !less(k, s[i])
    ensures Cut(less, s, k) == n
    decreases |s|
  {
    if n > 0 {
      CutUnique(less, s[1..], k, n - 1);
    }
  }

  lemma ReverseOrdered<T>(less: Order<T>, s: seq<T>)
    requires Ordered(less, s)
    ensures Ordered(Flipped(less), Reverse(s))
  {
    ReverseAt(s);
  }

  lemma FlippedOrder<T(!new)>(less: Order<T>)
    requires StrictOrder(less)
    ensures StrictOrder(Flipped(less))
  {
    forall a, b, c | Chain(Flipped(less), a, b, c)
      ensures less(c, a)
    {
      assert Chain(less, c, b, a);
    }
  }

  // ----- Complete walks -----

  /** The cut after a key that is there is its own position. */
  lemma CutAt<T(!new)>(less: Order<T>, s: seq<T>, i: nat)
    requires StrictOrder(less) && Ordered(less, s) && i < |s|
    ensures Cut(less, s, s[i]) == i + 1
  {
    forall j | 0 <= j <= i
      ensures !less(s[i], s[j])
    {
      assert j < i ==> less(s[j], s[i]) && !Chain(less, s[i], s[j], s[i]);
    }
    CutUnique(less, s, s[i], i + 1);
  }

  /** First batch, then what follows the last key seen, until a batch is empty: everything, once, in order. */
  method Walk<T(!new)>(less: Order<T>, s: seq<T>, count: nat) returns (visited: seq<T>)
    requires StrictOrder(less) && Ordered(less, s) && count >= 1
    ensures visited == s
  {
    visited := [];
    var batch := First(s, count);
    while |batch| > 0
      invariant |visited| <= |s| && visited == s[..|visited|] && batch == Take(s[|visited|..], count)
      decreases |s| - |visited|
    {
      var n := |visited| + |batch|;
      visited := visited + batch;
      CutAt(less, s, n - 1);
      assert batch[|batch| - 1] == s[n - 1];
      batch := Next(less, s, batch[|batch| - 1], count);
    }
  }

  /** The same from the other end gives the exact reverse. */
  method WalkBack<T(!new)>(less: Order<T>, s: seq<T>, count: nat) returns (visited: seq<T>)
    requires StrictOrder(less) && Ordered(less, s) && count >= 1
    ensures visited == Reverse(s)
  {
    visited := [];
    ghost var r := Reverse(s);
    ReverseOrdered(less, s);
    FlippedOrder(less);
    var batch := Last(s, count);
    while |batch| > 0
      invariant |visited| <= |s| && visited == r[..|visited|] && batch == Take(r[|visited|..], count)
      decreases |s| - |visited|
    {
      var n := |visited| + |batch|;
      visited := visited + batch;
      CutAt(Flipped(less), r, n - 1);
      assert batch[|batch| - 1] == r[n - 1];
      PrevIsNextReversed(less, s, batch[|batch| - 1], count);
      batch := Prev(less, s, batch[|batch| - 1], count);
    }
  }

  // ----- Walks over a store that changes between batches -----

  function Batch<T>(less: Order<T>, s: seq<T>, seen: Option<T>, count: nat): seq<T> {
    match seen
    case None => First(s, count)
    case Some(k) => Next(less, s, k, count)
  }

  /** The walk when batch `i` is read from `states[i]`. */
  function Visited<T>(less: Order<T>, states: seq<seq<T>>, seen: Option<T>, count: nat): seq<T>
    decreases |states|
  {
    if states == [] then []
    else
      var batch := Batch(less, states[0], seen, count);
      if batch == [] then [] else batch + Visited(less, states[1..], Some(batch[|batch| - 1]), count)
  }

  predicate Ends<T>(less: Order<T>, states: seq<seq<T>>, seen: Option<T>, count: nat)
    decreases |states|
  {
    && states != []
    && var batch := Batch(less, states[0], seen, count);
       batch == [] || Ends(less, states[1..], Some(batch[|batch| - 1]), count)
  }

  predicate Beyond<T>(less: Order<T>, seen: Option<T>, x: T) {
    seen.None? || less(seen.value, x)
  }

  function Start<T>(less: Order<T>, s: seq<T>, seen: Option<T>): (n: nat)
    ensures n <= |s|
  {
    if seen.None? then 0 else Cut(less, s, seen.value)
  }

  /** A batch is a slice of the keys. */
  lemma BatchSlice<T>(less: Order<T>, s: seq<T>, seen: Option<T>, count: nat)
    ensures var from, batch := Start(less, s, seen), Batch(less, s, seen, count);
      from + |batch| <= |s| && batch == s[from..from + |batch|] && (count >= 1 && from < |s| ==> batch != [])
  {
  }

  lemma BatchOrdered<T>(less: Order<T>, s: seq<T>, seen: Option<T>, count: nat)
    requires Ordered(less, s)
    ensures Ordered(less, Batch(less, s, seen, count))
  {
    BatchSlice(less, s, seen, count);
  }

  /** It lies beyond the cursor. */
  lemma BatchBeyond<T(!new)>(less: Order<T>, s: seq<T>, seen: Option<T>, count: nat, x: T)
    requires StrictOrder(less) && Ordered(less, s) && x in Batch(less, s, seen, count)
    ensures x in s && Beyond(less, seen, x)
  {
    BatchSlice(less, s, seen, count);
    var from := Start(less, s, seen);
    var i :| from <= i < |s| && s[i] == x;
    assert seen.Some? && from < i ==> Chain(less, seen.value, s[from], s[i]);
  }

  /** A key beyond the cursor is in the batch or beyond its end. */
  lemma BatchCovers<T(!new)>(less: Order<T>, s: seq<T>, seen: Option<T>, count: nat, x: T)
    requires StrictOrder(less) && Ordered(less, s) && count >= 1
    requires x in s && Beyond(less, seen, x)
    ensures var batch := Batch(less, s, seen, count);
      batch != [] && (x in batch || less(batch[|batch| - 1], x))
  {
    BatchSlice(less, s, seen, count);
    var from, batch := Start(less, s, seen), Batch(less, s, seen, count);
    var i :| 0 <= i < |s| && s[i] == x;
    assert i >= from;
    assert i < from + |batch| ==> batch[i - from] == x;
    assert i >= from + |batch| ==> less(s[from + |batch| - 1], s[i]);
  }

  ghost predicate AllOrdered<T>(less: Order<T>, states: seq<seq<T>>) {
    forall i :: 0 <= i < |states| ==> Ordered(less, states[i])
  }

  predicate AllHold<T(==)>(states: seq<seq<T>>, x: T) {
    forall i :: 0 <= i < |states| ==> x in states[i]
  }

  lemma Tail<T>(less: Order<T>, states: seq<seq<T>>)
    requires AllOrdered(less, states) && states != []
    ensures Ordered(less, states[0]) && AllOrdered(less, states[1..])
  {
  }

  /** A visited key is in the first batch or among the later visits. */
  lemma VisitedSplit<T>(less: Order<T>, states: seq<seq<T>>, seen: Option<T>, count: nat, x: T)
    requires x in Visited(less, states, seen, count)
    ensures states != [] && Batch(less, states[0], seen, count) != []
    ensures var batch := Batch(less, states[0], seen, count);
      x in batch || x in Visited(less, states[1..], Some(batch[|batch| - 1]), count)
  {
  }

  /** Every visited key lies beyond the cursor. */
  lemma {:induction false} VisitedBeyond<T(!new)>(less: Order<T>, states: seq<seq<T>>, seen: Option<T>, count: nat, x: T)
    requires StrictOrder(less) && AllOrdered(less, states)
    requires x in Visited(less, states, seen, count)
    ensures Beyond(less, seen, x)
    decreases |states|
  {
    VisitedSplit(less, states, seen, count, x);
    Tail(less, states);
    var batch := Batch(less, states[0], seen, count);
    if x in batch {
      BatchBeyond(less, states[0], seen, count, x);
    } else {
      BatchBeyond(less, states[0], seen, count, batch[|batch| - 1]);
      VisitedBeyond(less, states[1..], Some(batch[|batch| - 1]), count, x);
      BeyondChain(less, seen, batch[|batch| - 1], x);
    }
  }

  lemma BeyondChain<T(!new)>(less: Order<T>, seen: Option<T>, k: T, x: T)
    requires StrictOrder(less) && Beyond(less, seen, k) && less(k, x)
    ensures Beyond(less, seen, x)
  {
    assert seen.Some? ==> Chain(less, seen.value, k, x);
  }

  lemma OrderedAppend<T(!new)>(less: Order<T>, a: seq<T>, b: seq<T>)
    requires StrictOrder(less) && Ordered(less, a) && Ordered(less, b) && a != []
    requires forall x :: x in b ==> less(a[|a| - 1], x)
    ensures Ordered(less, a + b)
  {
    var last := a[|a| - 1];
    forall i, j | 0 <= i < |a| && 0 <= j < |b|
      ensures less(a[i], b[j])
    {
      assert b[j] in b;
      assert i < |a| - 1 ==> Chain(less, a[i], last, b[j]);
    }
  }

  /** Whatever is inserted or removed between batches, the visits are in order, so none is repeated. */
  lemma {:induction false} VisitedOrdered<T(!new)>(less: Order<T>, states: seq<seq<T>>, seen: Option<T>, count: nat)
    requires StrictOrder(less) && AllOrdered(less, states)
    ensures Ordered(less, Visited(less, states, seen, count))
    decreases |states|
  {
    if states != [] && Batch(less, states[0], seen, count) != [] {
      var batch := Batch(less, states[0], seen, count);
      var last := batch[|batch| - 1];
      var rest := Visited(less, states[1..], Some(last), count);
      Tail(less, states);
      BatchOrdered(less, states[0], seen, count);
      VisitedOrdered(less, states[1..], Some(last), count);
      forall x | x in rest
        ensures less(last, x)
      {
        VisitedBeyond(less, states[1..], Some(last), count, x);
      }
      OrderedAppend(less, batch, rest);
    }
  }

  /** A key that stays while others come and go is visited by any walk that ends. */
  lemma {:induction false} StableKeyVisited<T(!new)>(less: Order<T>, states: seq<seq<T>>, seen: Option<T>, count: nat, x: T)
    requires StrictOrder(less) && count >= 1 && AllOrdered(less, states) && AllHold(states, x)
    requires Ends(less, states, seen, count) && Beyond(less, seen, x)
    ensures x in Visited(less, states, seen, count)
    decreases |states|
  {
    Tail(less, states);
    var batch := Batch(less, states[0], seen, count);
    BatchCovers(less, states[0], seen, count, x);
    if x !in batch {
      StableKeyVisited(less, states[1..], Some(batch[|batch| - 1]), count, x);
    }
  }

  // ----- What one batch is -----

  /** Keys of `s` beyond the cursor, in order: `count` of them, each before all that are left out, or else all there are. */
  ghost predicate IsBatch<T>(less: Order<T>, s: seq<T>, seen: Option<T>, count: nat, batch: seq<T>) {
    && |batch| <= count
    && (forall x :: x in batch ==> x in s && (seen.None? || less(seen.value, x)))
    && (forall i, j :: 0 <= i < j < |batch| ==> less(batch[i], batch[j]))
    && forall x :: x in s && (seen.None? || less(seen.value, x)) && x !in batch ==>
         |batch| == count && forall y :: y in batch ==> less(y, x)
  }

  /** FIRST and NEXT give the `count` first keys, or the first ones after the cursor. */
  lemma BatchExactly<T(!new)>(less: Order<T>, s: seq<T>, seen: Option<T>, count: nat)
    requires StrictOrder(less) && Ordered(less, s)
    ensures IsBatch(less, s, seen, count, match seen case None => First(s, count) case Some(k) => Next(less, s, k, count))
  {
    BatchSlice(less, s, seen, count);
    BatchOrdered(less, s, seen, count);
    var from, batch := Start(less, s, seen), Batch(less, s, seen, count);
    forall x | x in batch
      ensures x in s && Beyond(less, seen, x)
    {
      BatchBeyond(less, s, seen, count, x);
    }
    forall i | from <= i < from + |batch|
      ensures s[i] in batch
    {
      assert batch[i - from] == s[i];
    }
    forall x | x in s && Beyond(less, seen, x) && x !in batch
      ensures |batch| == count && forall y :: y in batch ==> less(y, x)
    {
      var i :| 0 <= i < |s| && s[i] == x;
      assert i >= from;
    }
  }

  /** LAST and PREV give the last ones, or the last ones before the cursor, from the end on. */
  lemma BackBatchExactly<T(!new)>(less: Order<T>, s: seq<T>, seen: Option<T>, count: nat)
    requires StrictOrder(less) && Ordered(less, s)
    ensures IsBatch(Flipped(less), s, seen, count, match seen case None => Last(s, count) case Some(k) => Prev(less, s, k, count))
  {
    FlippedOrder(less);
    ReverseOrdered(less, s);
    BatchExactly(Flipped(less), Reverse(s), seen, count);
    if seen.Some? {
      PrevIsNextReversed(less, s, seen.value, count);
    }
    ReverseMembers(s);
  }

  lemma ReverseMembers<T>(s: seq<T>)
    ensures forall x :: x in Reverse(s) <==> x in s
  {
    ReverseAt(s);
    forall x | x in s
      ensures x in Reverse(s)
    {
      var i :| 0 <= i < |s| && s[i] == x;
      assert Reverse(s)[|s| - 1 - i] == x;
    }
  }
}
