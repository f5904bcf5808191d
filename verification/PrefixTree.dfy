/** Prefix watches: a pruned trie per database that stands for a set of (database, prefix, watcher) triples. */
module PrefixTree {
  import opened Bytes

  type Prefix = seq<byte>

  /** Watchers are numbered with `i64`. */
  newtype Idx = x: int | -0x8000_0000_0000_0000 <= x < 0x8000_0000_0000_0000

  datatype Node = Node(watchers: set<Idx>, children: map<byte, Node>)

  const LEAF := Node({}, map[])

  predicate IsEmpty(n: Node) {
    n.watchers == {} && n.children == map[]
  }

  function Child(n: Node, b: byte): Node {
    if b in n.children then n.children[b] else LEAF
  }

  // ----- Operations on one trie -----

  function Insert(n: Node, prefix: Prefix, idx: Idx): Node
    decreases |prefix|
  {
    if prefix == [] then n.(watchers := n.watchers + {idx})
    else n.(children := n.children[prefix[0] := Insert(Child(n, prefix[0]), prefix[1..], idx)])
  }

  /** Removes the watcher, and on the way back every node that became empty. */
  function Delete(n: Node, prefix: Prefix, idx: Idx): Node
    decreases |prefix|
  {
    if prefix == [] then n.(watchers := n.watchers - {idx})
    else if prefix[0] !in n.children then n
    else
      var child := Delete(n.children[prefix[0]], prefix[1..], idx);
      n.(children := if IsEmpty(child) then n.children - {prefix[0]} else n.children[prefix[0] := child])
  }

  // ----- Meaning -----

  /** Whether `idx` watches exactly `prefix`. */
  predicate Holds(n: Node, prefix: Prefix, idx: Idx)
    decreases |prefix|
  {
    if prefix == [] then idx in n.watchers
    else prefix[0] in n.children && Holds(n.children[prefix[0]], prefix[1..], idx)
  }

  /** No node below the top is empty. */
  ghost predicate Pruned(n: Node) {
    forall b :: b in n.children ==> !IsEmpty(n.children[b]) && Pruned(n.children[b])
  }

  /** The same watches. */
  ghost predicate Same(a: Node, b: Node) {
    forall p: Prefix, w: Idx :: Holds(a, p, w) <==> Holds(b, p, w)
  }

  // ----- Insertion and deletion -----

  lemma {:induction false} InsertHolds(n: Node, prefix: Prefix, idx: Idx, p: Prefix, w: Idx)
    ensures Holds(Insert(n, prefix, idx), p, w) <==> Holds(n, p, w) || (p == prefix && w == idx)
    decreases |prefix|
  {
    if prefix != [] && p != [] && p[0] == prefix[0] {
      assert p == [p[0]] + p[1..] && prefix == [p[0]] + prefix[1..];
      InsertHolds(Child(n, p[0]), prefix[1..], idx, p[1..], w);
      LeafHolds(p[1..], w);
    }
  }

  lemma LeafHolds(p: Prefix, w: Idx)
    ensures !Holds(LEAF, p, w)
  {
  }

  lemma {:induction false} InsertPruned(n: Node, prefix: Prefix, idx: Idx)
    requires Pruned(n)
    ensures Pruned(Insert(n, prefix, idx)) && !IsEmpty(Insert(n, prefix, idx))
    decreases |prefix|
  {
    if prefix != [] {
      InsertPruned(Child(n, prefix[0]), prefix[1..], idx);
      assert prefix[0] in Insert(n, prefix, idx).children;
    }
  }

  /** An empty node holds nothing, and one that holds nothing though it is pruned is empty. */
  lemma EmptyHolds(n: Node, p: Prefix, w: Idx)
    requires IsEmpty(n)
    ensures !Holds(n, p, w)
  {
  }

  lemma {:induction false} DeleteHolds(n: Node, prefix: Prefix, idx: Idx, p: Prefix, w: Idx)
    ensures Holds(Delete(n, prefix, idx), p, w) <==> Holds(n, p, w) && !(p == prefix && w == idx)
    decreases |prefix|
  {
    if prefix != [] && prefix[0] in n.children && p != [] && p[0] == prefix[0] {
      assert p == [p[0]] + p[1..] && prefix == [p[0]] + prefix[1..];
      var child := Delete(n.children[p[0]], prefix[1..], idx);
      DeleteHolds(n.children[p[0]], prefix[1..], idx, p[1..], w);
      if IsEmpty(child) {
        EmptyHolds(child, p[1..], w);
      }
    }
  }

  lemma {:induction false} DeletePruned(n: Node, prefix: Prefix, idx: Idx)
    requires Pruned(n)
    ensures Pruned(Delete(n, prefix, idx))
    decreases |prefix|
  {
    if prefix != [] && prefix[0] in n.children {
      DeletePruned(n.children[prefix[0]], prefix[1..], idx);
    }
  }

  // ----- Canonicity -----

  lemma Pick(s: set<Idx>) returns (w: Idx)
    requires s != {}
    ensures w in s
  {
    w :| w in s;
  }

  /** A pruned node that is not empty holds something. */
  lemma {:induction false} SomethingHeld(n: Node) returns (p: Prefix, w: Idx)
    requires Pruned(n) && !IsEmpty(n)
    ensures Holds(n, p, w)
    decreases n
  {
    if n.watchers != {} {
      p := [];
      w := Pick(n.watchers);
    } else {
      var b :| b in n.children;
      var q;
      q, w := SomethingHeld(n.children[b]);
      p := [b] + q;
      assert p[1..] == q;
    }
  }

  lemma SameChild(a: Node, b: Node, k: byte)
    requires Pruned(a) && Same(a, b) && k in a.children
    ensures k in b.children && Same(a.children[k], b.children[k])
  {
    var p, w := SomethingHeld(a.children[k]);
    assert ([k] + p)[1..] == p;
    assert Holds(a, [k] + p, w);
    forall q: Prefix, v: Idx
      ensures Holds(a.children[k], q, v) <==> Holds(b.children[k], q, v)
    {
      assert ([k] + q)[1..] == q;
      assert Holds(a, [k] + q, v) <==> Holds(b, [k] + q, v);
    }
  }

  /** Pruned tries with the same watches are the same trie. */
  lemma {:induction false} Canonical(a: Node, b: Node)
    requires Pruned(a) && Pruned(b) && Same(a, b)
    ensures a == b
    decreases a
  {
    forall w
      ensures w in a.watchers <==> w in b.watchers
    {
      assert Holds(a, [], w) <==> Holds(b, [], w);
    }
    forall k | k in b.children
      ensures k in a.children
    {
      SameChild(b, a, k);
    }
    forall k | k in a.children
      ensures k in b.children && a.children[k] == b.children[k]
    {
      SameChild(a, b, k);
      Canonical(a.children[k], b.children[k]);
    }
    assert a.children == b.children;
  }

  /** Deleting a fresh watch again restores the trie, node for node. */
  lemma InsertThenDelete(n: Node, prefix: Prefix, idx: Idx)
    requires Pruned(n) && !Holds(n, prefix, idx)
    ensures Delete(Insert(n, prefix, idx), prefix, idx) == n
  {
    var more := Insert(n, prefix, idx);
    InsertPruned(n, prefix, idx);
    DeletePruned(more, prefix, idx);
    forall p: Prefix, w: Idx
      ensures Holds(Delete(more, prefix, idx), p, w) <==> Holds(n, p, w)
    {
      DeleteHolds(more, prefix, idx, p, w);
      InsertHolds(n, prefix, idx, p, w);
    }
    Canonical(Delete(more, prefix, idx), n);
  }

  /** The order of insertions does not matter. */
  lemma InsertCommutes(n: Node, p: Prefix, v: Idx, q: Prefix, w: Idx)
    requires Pruned(n)
    ensures Insert(Insert(n, p, v), q, w) == Insert(Insert(n, q, w), p, v)
  {
    InsertPruned(n, p, v);
    InsertPruned(n, q, w);
    InsertPruned(Insert(n, p, v), q, w);
    InsertPruned(Insert(n, q, w), p, v);
    forall r: Prefix, u: Idx
      ensures Holds(Insert(Insert(n, p, v), q, w), r, u) <==> Holds(Insert(Insert(n, q, w), p, v), r, u)
    {
      InsertHolds(Insert(n, p, v), q, w, r, u);
      InsertHolds(n, p, v, r, u);
      InsertHolds(Insert(n, q, w), p, v, r, u);
      InsertHolds(n, q, w, r, u);
    }
    Canonical(Insert(Insert(n, p, v), q, w), Insert(Insert(n, q, w), p, v));
  }

  // ----- Lookup -----

  /** `idx` watches a prefix of `key`. */
  predicate Matches(n: Node, key: Prefix, idx: Idx) {
    exists k :: 0 <= k <= |key| && Holds(n, key[..k], idx)
  }

  lemma MatchesStep(n: Node, key: Prefix, idx: Idx)
    requires key != []
    ensures Matches(n, key, idx)
      <==> idx in n.watchers || (key[0] in n.children && Matches(n.children[key[0]], key[1..], idx))
  {
    if Matches(n, key, idx) && idx !in n.watchers {
      var k :| 0 <= k <= |key| && Holds(n, key[..k], idx);
      assert key[..k][1..] == key[1..][..k - 1];
    }
    WatchersMatch(n, key, idx);
    if key[0] in n.children && Matches(n.children[key[0]], key[1..], idx) {
      var k :| 0 <= k <= |key[1..]| && Holds(n.children[key[0]], key[1..][..k], idx);
      assert key[..k + 1][1..] == key[1..][..k];
      assert Holds(n, key[..k + 1], idx);
    }
  }

  lemma WatchersMatch(n: Node, key: Prefix, idx: Idx)
    ensures idx in n.watchers ==> Matches(n, key, idx)
    ensures key == [] && Matches(n, key, idx) ==> idx in n.watchers
  {
    assert idx in n.watchers ==> Holds(n, key[..0], idx);
  }

  /** Walks down the key and collects the watchers of every node on the way. */
  method Lookup(root: Node, key: Prefix, out: set<Idx>) returns (r: set<Idx>)
    ensures forall w :: w in r <==> w in out || Matches(root, key, w)
  {
    r := out + root.watchers;
    var node := root;
    var i := 0;
    assert key[0..] == key;
    forall w
      ensures w in root.watchers ==> Matches(root, key, w)
    {
      WatchersMatch(root, key, w);
    }
    while i < |key|
      invariant i <= |key|
      invariant forall w :: w in out || Matches(root, key, w) <==> w in r || Matches(node, key[i..], w)
      invariant node.watchers <= r
    {
      forall w
        ensures Matches(node, key[i..], w)
          <==> w in node.watchers || (key[i] in node.children && Matches(node.children[key[i]], key[i + 1..], w))
      {
        assert key[i..][1..] == key[i + 1..];
        MatchesStep(node, key[i..], w);
      }
      if key[i] !in node.children {
        return;
      }
      forall w
        ensures w in node.children[key[i]].watchers ==> Matches(node.children[key[i]], key[i + 1..], w)
      {
        WatchersMatch(node.children[key[i]], key[i + 1..], w);
      }
      node := node.children[key[i]];
      r := r + node.watchers;
      i := i + 1;
    }
    assert key[i..] == [];
    forall w
      ensures Matches(node, key[i..], w) <==> w in node.watchers
    {
      WatchersMatch(node, key[i..], w);
    }
  }

  // ----- One trie per database -----

  type Roots = map<nat, Node>

  datatype Watch = Watch(db: nat, prefix: Prefix, idx: Idx)

  predicate Watches(roots: Roots, t: Watch) {
    t.db in roots && Holds(roots[t.db], t.prefix, t.idx)
  }

  ghost predicate Tidy(roots: Roots) {
    forall db :: db in roots ==> Pruned(roots[db]) && !IsEmpty(roots[db])
  }

  /** The roots stand for exactly this set of watches. */
  ghost predicate StandsFor(roots: Roots, watches: set<Watch>) {
    forall t: Watch :: t in watches <==> Watches(roots, t)
  }

  /** A set of watches has one representation. */
  lemma RootsCanonical(a: Roots, b: Roots, watches: set<Watch>)
    requires Tidy(a) && Tidy(b) && StandsFor(a, watches) && StandsFor(b, watches)
    ensures a == b
  {
    forall db | db in a
      ensures db in b && a[db] == b[db]
    {
      RootInBoth(a, b, watches, db);
      RootSame(a, b, watches, db);
      Canonical(a[db], b[db]);
    }
    forall db | db in b
      ensures db in a
    {
      RootInBoth(b, a, watches, db);
    }
  }

  lemma RootInBoth(a: Roots, b: Roots, watches: set<Watch>, db: nat)
    requires Tidy(a) && StandsFor(a, watches) && StandsFor(b, watches) && db in a
    ensures db in b
  {
    var p, w := SomethingHeld(a[db]);
    assert Watches(a, Watch(db, p, w));
  }

  lemma RootSame(a: Roots, b: Roots, watches: set<Watch>, db: nat)
    requires StandsFor(a, watches) && StandsFor(b, watches) && db in a && db in b
    ensures Same(a[db], b[db])
  {
    forall p: Prefix, w: Idx
      ensures Holds(a[db], p, w) <==> Holds(b[db], p, w)
    {
      assert Watches(a, Watch(db, p, w)) <==> Watches(b, Watch(db, p, w));
    }
  }

  class PrefixWatchTree {
    var roots: Roots
    ghost var watches: set<Watch>

    ghost predicate Valid()
      reads this
    {
      Tidy(roots) && StandsFor(roots, watches)
    }

    constructor ()
      ensures Valid() && watches == {}
    {
      roots, watches := map[], {};
    }

    method InsertWatch(db: nat, prefix: Prefix, idx: Idx)
      requires Valid()
      modifies this
      ensures Valid() && watches == old(watches) + {Watch(db, prefix, idx)}
    {
      var root := if db in roots then roots[db] else LEAF;
      InsertPruned(root, prefix, idx);
      forall p: Prefix, w: Idx
        ensures Holds(Insert(root, prefix, idx), p, w) <==> Holds(root, p, w) || (p == prefix && w == idx)
      {
        InsertHolds(root, prefix, idx, p, w);
      }
      roots := roots[db := Insert(root, prefix, idx)];
      watches := watches + {Watch(db, prefix, idx)};
    }

    method DeleteWatch(db: nat, prefix: Prefix, idx: Idx)
      requires Valid()
      modifies this
      ensures Valid() && watches == old(watches) - {Watch(db, prefix, idx)}
    {
      if db in roots {
        var root := Delete(roots[db], prefix, idx);
        DeletePruned(roots[db], prefix, idx);
        forall p: Prefix, w: Idx
          ensures Holds(root, p, w) <==> Holds(roots[db], p, w) && !(p == prefix && w == idx)
        {
          DeleteHolds(roots[db], prefix, idx, p, w);
        }
        roots := if IsEmpty(root) then roots - {db} else roots[db := root];
      }
      watches := watches - {Watch(db, prefix, idx)};
    }

    /** Exactly the watchers of a prefix of the key in this database. */
    method LookupWatchers(db: nat, key: Prefix) returns (r: set<Idx>)
      requires Valid()
      ensures forall w :: w in r <==> exists k :: 0 <= k <= |key| && Watch(db, key[..k], w) in watches
    {
      r := {};
      if db in roots {
        r := Lookup(roots[db], key, {});
      }
    }
  }
}
