/**
 Scores, members and the order of sorted-set index keys.  Scores are floats under `OrderedFloat`,
 taken as extended reals: no rounding, but infinities and NaN, which is the largest value.
 */
module ZSetOrder {
  import opened Bytes

  type Member = seq<byte>

  datatype Ordering = Less | Equal | Greater

  function Flip(o: Ordering): Ordering {
    match o
    case Less => Greater
    case Equal => Equal
    case Greater => Less
  }

  // ----- Scores -----

  datatype Score = NegInf | Fin(r: real) | PosInf | NaN

  function Class(s: Score): nat {
    match s
    case NegInf => 0
    case Fin(_) => 1
    case PosInf => 2
    case NaN => 3
  }

  function CmpScore(a: Score, b: Score): Ordering {
    if Class(a) < Class(b) then Less
    else if Class(a) > Class(b) then Greater
    else if a.Fin? && a.r < b.r then Less
    else if a.Fin? && a.r > b.r then Greater
    else Equal
  }

  predicate Leq(a: Score, b: Score) {
    CmpScore(a, b) != Greater
  }

  function Zero(): Score {
    Fin(0.0)
  }

  function Add(a: Score, b: Score): Score {
    if a.NaN? || b.NaN? then NaN
    else if a.Fin? && b.Fin? then Fin(a.r + b.r)
    else if a.Fin? then b
    else if b.Fin? || a == b then a
    else NaN
  }

  function Sign(s: Score): int
    requires !s.NaN?
  {
    match s
    case NegInf => -1
    case PosInf => 1
    case Fin(r) => if r < 0.0 then -1 else if r > 0.0 then 1 else 0
  }

  function Mul(a: Score, b: Score): Score {
    if a.NaN? || b.NaN? then NaN
    else if a.Fin? && b.Fin? then Fin(a.r * b.r)
    else if Sign(a) * Sign(b) == 0 then NaN
    else if Sign(a) * Sign(b) > 0 then PosInf
    else NegInf
  }

  // ----- Members -----

  /** Octet-wise lexicographic order. */
  function CmpMember(a: Member, b: Member): Ordering {
    if a == [] && b == [] then Equal
    else if a == [] then Less
    else if b == [] then Greater
    else if a[0] < b[0] then Less
    else if a[0] > b[0] then Greater
    else CmpMember(a[1..], b[1..])
  }

  lemma {:induction false} CmpMemberEqual(a: Member, b: Member)
    ensures CmpMember(a, b) == Equal <==> a == b
    ensures CmpMember(b, a) == Flip(CmpMember(a, b))
    decreases |a|
  {
    if a != [] && b != [] {
      CmpMemberEqual(a[1..], b[1..]);
      assert a == [a[0]] + a[1..] && b == [b[0]] + b[1..];
    }
  }

  lemma {:induction false} CmpMemberTransitive(a: Member, b: Member, c: Member)
    requires CmpMember(a, b) == Less && CmpMember(b, c) == Less
    ensures CmpMember(a, c) == Less
    decreases |a|
  {
    if a != [] && a[0] == b[0] && b[0] == c[0] {
      CmpMemberTransitive(a[1..], b[1..], c[1..]);
    }
  }

  /** A proper prefix, or smaller at the first difference. */
  predicate OctetsLess(a: Member, b: Member) {
    a < b || exists i :: 0 <= i < |a| && i < |b| && a[..i] == b[..i] && a[i] < b[i]
  }

  lemma OctetsLessTail(a: Member, b: Member)
    requires a != [] && b != [] && a[0] == b[0]
    ensures OctetsLess(a, b) <==> OctetsLess(a[1..], b[1..])
  {
    var a', b' := a[1..], b[1..];
    assert a == [a[0]] + a' && b == [b[0]] + b';
    if i :| 0 <= i < |a| && i < |b| && a[..i] == b[..i] && a[i] < b[i] {
      assert a'[..i - 1] == a[..i][1..] && b'[..i - 1] == b[..i][1..];
    }
    if i :| 0 <= i < |a'| && i < |b'| && a'[..i] == b'[..i] && a'[i] < b'[i] {
      assert a[..i + 1] == [a[0]] + a'[..i] && b[..i + 1] == [b[0]] + b'[..i];
      assert a[i + 1] < b[i + 1];
    }
  }

  /** Members are compared as unsigned octets, from the left. */
  lemma {:induction false} OctetOrder(a: Member, b: Member)
    ensures CmpMember(a, b) == Less <==> OctetsLess(a, b)
    decreases |a|
  {
    if a != [] && b != [] {
      if a[0] == b[0] {
        OctetsLessTail(a, b);
        OctetOrder(a[1..], b[1..]);
      } else {
        assert a[..0] == b[..0];
        assert forall i :: 0 < i < |a| && i < |b| ==> a[..i][0] != b[..i][0];
      }
    }
  }

  lemma OctetsBack(a: Member, b: Member)
    ensures CmpMember(a, b) == Greater <==> OctetsLess(b, a)
    ensures CmpMember(a, b) == Equal <==> a == b
  {
    CmpMemberEqual(a, b);
    OctetOrder(b, a);
  }

  // ----- Index keys -----

  /** Stored keys, and the probes that are only used for searching. */
  datatype IndexKey =
    | Key(score: Score, entry: Member)
    | MinScoreKey(score: Score)
    | MaxScoreKey(score: Score)
    | Ref(score: Score, entry: Member)

  type Stored = k: IndexKey | k.Key? witness Key(NegInf, [])

  /** The order; two probes are never compared with each other. */
  function Cmp(a: IndexKey, b: IndexKey): Ordering
    requires a.Key? || b.Key?
  {
    match CmpScore(a.score, b.score)
    case Less => Less
    case Greater => Greater
    case Equal =>
      if a.MinScoreKey? || b.MaxScoreKey? then Less
      else if b.MinScoreKey? || a.MaxScoreKey? then Greater
      else CmpMember(a.entry, b.entry)
  }

  /** Comparing the other way round gives the mirrored answer, for every probe. */
  lemma CmpFlips(a: IndexKey, b: IndexKey)
    requires a.Key? || b.Key?
    ensures Cmp(b, a) == Flip(Cmp(a, b))
  {
    if (a.Key? || a.Ref?) && (b.Key? || b.Ref?) {
      CmpMemberEqual(a.entry, b.entry);
    }
  }

  /** Stored keys are equal in the order only if they are the same key. */
  lemma CmpEqual(a: Stored, b: Stored)
    ensures Cmp(a, b) == Equal <==> a == b
  {
    CmpMemberEqual(a.entry, b.entry);
  }

  /** Every probe cuts the stored keys in one place: what is below a key below the probe is below the probe. */
  lemma ProbeCuts(a: Stored, b: Stored, probe: IndexKey)
    requires Cmp(a, b) == Less && Cmp(b, probe) != Greater
    ensures Cmp(a, probe) == Less
  {
    if probe.Key? || probe.Ref? {
      CmpMemberEqual(b.entry, probe.entry);
      if CmpMember(a.entry, b.entry) == Less && CmpMember(b.entry, probe.entry) == Less {
        CmpMemberTransitive(a.entry, b.entry, probe.entry);
      }
    }
  }
}
