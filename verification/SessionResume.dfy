/**
 Partial resynchronisation: after a disconnect the primary continues at the counted offset and a
 new parser takes over.  When does that give what the old parser would have given?
 */
module SessionResume {
  import opened Bytes
  import opened Decimal
  import opened RdbValue
  import opened Session
  import S = ReplicaStream
  import C = ReplicaChunks
  import R = ReplicaRoundTrip
  import Q = ReplicaRequests
  import P = TsProj
  import RdbChunks
  import Rdb = RdbParser

  // ----- Resuming after a disconnect -----

  /** A dollar sign extends every incomplete array without making it malformed. */
  lemma {:induction false} DollarManyFits(p: nat -> S.Elements, q: nat -> S.Elements, len: nat, cursor: nat, count: nat)
    requires forall c: nat :: p(c).Elements? ==> q(c) == p(c) && p(c).end <= len
    requires forall c: nat :: c <= len && p(c).More? ==> !q(c).Bad? && (q(c).Elements? ==> q(c).end == len + 1)
    requires q(len + 1).More?
    requires cursor <= len && S.ParseMany(p, cursor, count).More?
    ensures var r := S.ParseMany(q, cursor, count); !r.Bad? && (r.Elements? ==> r.end == len + 1)
    decreases count
  {
    var first := p(cursor);
    if first.Elements? {
      DollarManyFits(p, q, len, first.end, count - 1);
    }
  }

  lemma {:induction false} DollarNoLineEnd(buf: seq<byte>)
    requires S.FindCrlf(buf).None?
    ensures S.FindCrlf(buf + [36]).None?
    decreases |buf|
  {
    var more := buf + [36];
    if |buf| >= 2 {
      DollarNoLineEnd(buf[1..]);
      assert more[1..] == buf[1..] + [36];
    } else if |buf| == 1 {
      assert more[1..] == [36];
    }
  }

  lemma DollarNumber(buf: seq<byte>)
    requires S.ParseNumber(buf).NoLineEnd?
    ensures S.ParseNumber(buf + [36]).NoLineEnd?
  {
    DollarNoLineEnd(buf);
  }

  lemma DollarBulk(buf: seq<byte>, c: nat)
    requires c <= |buf| && S.ParseBulk(buf, c).More?
    ensures var r := S.ParseBulk(buf + [36], c);
      !r.Bad? && (r.Elements? ==> r.end == |buf| + 1)
  {
    var more := buf + [36];
    if c == |buf| {
      assert more[c + 1..] == [];
    } else {
      assert more[c + 1..] == buf[c + 1..] + [36];
      if S.ParseNumber(buf[c + 1..]).NoLineEnd? {
        DollarNumber(buf[c + 1..]);
      } else {
        C.NumberExtend(buf[c + 1..], [36]);
      }
    }
  }

  lemma DollarMany(buf: seq<byte>, cursor: nat, count: nat)
    requires cursor <= |buf| && S.ParseMany(S.BulkParser(buf), cursor, count).More?
    ensures var r := S.ParseMany(S.BulkParser(buf + [36]), cursor, count);
      !r.Bad? && (r.Elements? ==> r.end == |buf| + 1)
  {
    var p, q := S.BulkParser(buf), S.BulkParser(buf + [36]);
    forall c: nat | p(c).Elements?
      ensures q(c) == p(c)
    {
      C.BulkExtend(buf, c, [36]);
    }
    forall c: nat | c <= |buf| && p(c).More?
      ensures !q(c).Bad? && (q(c).Elements? ==> q(c).end == |buf| + 1)
    {
      DollarBulk(buf, c);
    }
    DollarManyFits(p, q, |buf|, cursor, count);
  }

  lemma DollarArray(buf: seq<byte>)
    requires buf != [] && S.ParseArray(buf).More?
    ensures var r := S.ParseArray(buf + [36]); !r.Bad? && (r.Elements? ==> r.end == |buf| + 1)
  {
    assert (buf + [36])[1..] == buf[1..] + [36];
    if S.ParseNumber(buf[1..]).NoLineEnd? {
      DollarNumber(buf[1..]);
    } else {
      C.NumberExtend(buf[1..], [36]);
      var Number(count, octets) := S.ParseNumber(buf[1..]);
      DollarMany(buf, 1 + octets, count);
    }
  }

  lemma {:induction false} RunShrinks(feed: S.Feeder, p: S.State)
    ensures S.Run(feed, p).Fed? ==> |S.Run(feed, p).state.buffer| <= |p.buffer|
    decreases |p.buffer|
  {
    if S.Step(feed, p).Progress? {
      RunShrinks(feed, S.Step(feed, p).state);
    }
  }

  /** A streaming parser between two calls holds nothing or the beginning of a command. */
  lemma SettledWaits(feed: S.Feeder, p: S.State)
    requires p.mode == S.Streaming && p.buffer != [] && C.Settled(feed, p)
    ensures S.Trim(p.buffer) == p.buffer && S.ParseArray(p.buffer).More?
  {
    var q := S.Step(feed, p);
    if q.Progress? {
      RunShrinks(feed, q.state);
    }
  }

  lemma RunEmpty(feed: S.Feeder, db: nat)
    ensures S.Run(feed, S.State([], S.Streaming, db)) == S.Fed(S.State([], S.Streaming, db), S.SILENT)
  {
  }

  /** A parser that waits in the middle of a command accepts a dollar sign. */
  lemma DollarAccepted(feed: S.Feeder, p: S.State)
    requires p.mode == S.Streaming && p.buffer != [] && C.Settled(feed, p)
    ensures S.Feed(feed, p, [36]).Fed?
  {
    SettledWaits(feed, p);
    C.TrimExtend(p.buffer, [36]);
    DollarArray(p.buffer);
    var q := S.Step(feed, S.Extend(p, [36]));
    if q.Progress? {
      assert q.state == S.State([], S.Streaming, q.state.db);
      RunEmpty(feed, q.state.db);
    }
  }

  /** A new parser does not. */
  lemma DollarRefused(feed: S.Feeder)
    ensures S.Feed(feed, S.State([], S.Streaming, 0), [36]).Rejected?
  {
    assert [] + [36] == [36];
  }

  const PROBE: seq<Q.Request> := [Q.DataFrame([], [88], [])]

  lemma ProbeValid()
    ensures R.ValidRequests(PROBE) && Q.Items(PROBE[0]) == [[88]]
  {
    var name: seq<byte> := [88];
    assert !Q.Spells(name, "SELECT") && !Q.Spells(name, "PING") && !Q.Spells(name, "REPLCONF");
  }

  /** A command shows which database is selected. */
  lemma ProbeShowsDb(feed: S.Feeder, db: nat)
    ensures S.Feed(feed, S.State([], S.Streaming, db), R.EncodeRequests(PROBE))
      == S.Fed(S.State([], S.Streaming, R.LastDb(db, PROBE)), R.RequestsOutput(db, PROBE))
    ensures R.RequestsOutput(db, PROBE).commands == [RawCommand(db, [88], [])]
  {
    var data := R.EncodeRequests(PROBE);
    assert [] + data == data;
    ProbeValid();
    R.RespRoundTrip(feed, PROBE, db);
    assert R.DataCommands(db, PROBE[1..]) == [];
  }

  // ----- What the new parser does -----

  /** The parser of a resumed session. */
  const NEW := S.State([], S.Streaming, 0)

  /**
   The primary sends `repeated`, which the old parser `p` has had already, and then `more`: the new
   parser delivers the commands that `p` would have made of `more`, and ends where `p` would have.
   */
  predicate Resumes(feed: S.Feeder, p: S.State, repeated: seq<byte>, more: seq<byte>) {
    var was, now := S.Feed(feed, p, more), S.Feed(feed, NEW, repeated + more);
    was.Fed? ==> now.Fed? && now.out.commands == was.out.commands && now.state == was.state
  }

  /** The same commands are delivered. */
  predicate SameCommands(feed: S.Feeder, p: S.State, repeated: seq<byte>, more: seq<byte>) {
    var was, now := S.Feed(feed, p, more), S.Feed(feed, NEW, repeated + more);
    was.Fed? ==> now.Fed? && now.out.commands == was.out.commands
  }

  /** What is repeated brings the new parser to where the old one was, without a command. */
  predicate Rejoins(feed: S.Feeder, p: S.State, repeated: seq<byte>) {
    var r := S.Feed(feed, NEW, repeated);
    r.Fed? && r.state == p && r.out.commands == []
  }

  lemma FeedNothing(feed: S.Feeder, p: S.State)
    requires C.Settled(feed, p)
    ensures S.Feed(feed, p, []) == S.Fed(p, S.SILENT)
  {
    C.ExtendNothing(p);
  }

  lemma NewSettled(feed: S.Feeder)
    ensures C.Settled(feed, NEW)
  {
    RunEmpty(feed, 0);
  }

  /** Feeding the new parser what is repeated and what is new is feeding it one after the other. */
  lemma NewSplit(feed: S.Feeder, repeated: seq<byte>, more: seq<byte>)
    requires C.Lawful(feed)
    ensures var r := S.Feed(feed, NEW, repeated);
      S.Feed(feed, NEW, repeated + more) == if r.Fed? then S.After(r.out, S.Feed(feed, r.state, more)) else r
  {
    C.FeedSplit(feed, NEW, repeated, more);
    if S.Feed(feed, NEW, repeated).Fed? {
      R.StreamingStays(feed, S.Extend(NEW, repeated));
    }
  }

  lemma NothingMore(repeated: seq<byte>)
    ensures repeated + [] == repeated
  {
  }

  lemma NoCommandsBefore(out: S.Output, r: S.FeedResult)
    requires out.commands == [] && r.Fed?
    ensures S.After(out, r).out.commands == r.out.commands && S.After(out, r).state == r.state
  {
    assert [] + r.out.commands == r.out.commands;
  }

  /** Resuming is right, whatever comes next, exactly if the new parser rejoins the old one. */
  lemma ResumeExactly(feed: S.Feeder, p: S.State, repeated: seq<byte>)
    requires C.Lawful(feed) && p.mode == S.Streaming && C.Settled(feed, p)
    ensures (forall more :: Resumes(feed, p, repeated, more)) <==> Rejoins(feed, p, repeated)
  {
    if Rejoins(feed, p, repeated) {
      forall more
        ensures Resumes(feed, p, repeated, more)
      {
        NewSplit(feed, repeated, more);
        if S.Feed(feed, p, more).Fed? {
          NoCommandsBefore(S.Feed(feed, NEW, repeated).out, S.Feed(feed, p, more));
        }
      }
    } else {
      NothingMore(repeated);
      FeedNothing(feed, p);
      assert !Resumes(feed, p, repeated, []);
    }
  }

  // ----- Between two commands the commands alone tell -----

  /** A number holds no asterisk. */
  lemma NumberPlain(buf: seq<byte>, j: nat)
    requires S.ParseNumber(buf).Number? && j < S.ParseNumber(buf).octets
    ensures buf[j] != 42
  {
    var k := S.FindCrlf(buf).value;
    var text := buf[..k];
    if j < k {
      assert text[j] == buf[j];
      var digits := if text[0] == 43 then text[1..] else text;
      assert j > 0 && text[0] == 43 ==> digits[j - 1] == text[j];
    }
  }

  /** Where the first bulk string of a one-element array lies. */
  lemma OneElement(buf: seq<byte>, item: seq<byte>, end: nat)
    requires buf != [] && S.ParseArray(buf) == S.Elements([item], end)
    ensures var n := S.ParseNumber(buf[1..]);
      n.Number? && S.ParseBulk(buf, 1 + n.octets) == S.Elements([item], end)
  {
    var n := S.ParseNumber(buf[1..]);
    var p := S.BulkParser(buf);
    S.ParseManyInside(buf, 1 + n.octets, n.value);
    assert n.value == 1;
  }

  /** An array with one element of one octet holds no asterisk after its first octet and before its content. */
  lemma NoStarInside(buf: seq<byte>, item: seq<byte>, end: nat, i: nat)
    requires buf != [] && S.ParseArray(buf) == S.Elements([item], end) && |item| == 1
    requires 0 < i && i + 3 < end
    ensures buf[i] != 42
  {
    OneElement(buf, item, end);
    var n := S.ParseNumber(buf[1..]);
    var c := 1 + n.octets;
    var m := S.ParseNumber(buf[c + 1..]);
    if i < c {
      NumberPlain(buf[1..], i - 1);
    } else if i > c {
      NumberPlain(buf[c + 1..], i - c - 1);
    }
  }

  lemma {:induction false} CrlfBeyond(buf: seq<byte>, more: seq<byte>)
    requires S.FindCrlf(buf).None? && S.FindCrlf(buf + more).Some?
    ensures S.FindCrlf(buf + more).value + 2 > |buf|
  {
    var k := S.FindCrlf(buf + more).value;
    assert k + 2 <= |buf| ==> S.LineEndAt(buf, k);
  }

  lemma BulkBeyond(buf: seq<byte>, c: nat, more: seq<byte>)
    requires c <= |buf| && S.ParseBulk(buf, c).More? && S.ParseBulk(buf + more, c).Elements?
    ensures S.ParseBulk(buf + more, c).end > |buf|
  {
    if c < |buf| {
      assert (buf + more)[c + 1..] == buf[c + 1..] + more;
      if S.ParseNumber(buf[c + 1..]).NoLineEnd? {
        CrlfBeyond(buf[c + 1..], more);
      } else {
        C.NumberExtend(buf[c + 1..], more);
      }
    }
  }

  lemma {:induction false} ManyBeyond(p: nat -> S.Elements, q: nat -> S.Elements, len: nat, cursor: nat, count: nat)
    requires forall c: nat :: p(c).Elements? ==> q(c) == p(c) && p(c).end <= len
    requires forall c: nat :: c <= len && p(c).More? && q(c).Elements? ==> q(c).end > len
    requires forall c: nat :: q(c).Elements? ==> q(c).end > c
    requires S.ParseMany(q, cursor, count).Elements?
    requires (cursor <= len && S.ParseMany(p, cursor, count).More?) || cursor > len
    ensures S.ParseMany(q, cursor, count).end > len
    decreases count
  {
    if count > 0 {
      ManyBeyond(p, q, len, q(cursor).end, count - 1);
    }
  }

  lemma BulksBeyond(buf: seq<byte>, cursor: nat, count: nat, more: seq<byte>)
    requires cursor <= |buf| && S.ParseMany(S.BulkParser(buf), cursor, count).More?
    requires S.ParseMany(S.BulkParser(buf + more), cursor, count).Elements?
    ensures S.ParseMany(S.BulkParser(buf + more), cursor, count).end > |buf|
  {
    var p, q := S.BulkParser(buf), S.BulkParser(buf + more);
    forall c: nat | p(c).Elements?
      ensures q(c) == p(c)
    {
      C.BulkExtend(buf, c, more);
    }
    forall c: nat | c <= |buf| && p(c).More? && q(c).Elements?
      ensures q(c).end > |buf|
    {
      BulkBeyond(buf, c, more);
    }
    ManyBeyond(p, q, |buf|, cursor, count);
  }

  lemma NumberBeyond(buf: seq<byte>, more: seq<byte>)
    requires S.ParseNumber(buf).NoLineEnd?
    ensures var n := S.ParseNumber(buf + more); n.Number? ==> n.octets > |buf|
  {
    if S.FindCrlf(buf + more).Some? {
      CrlfBeyond(buf, more);
    }
  }

  lemma ItemsAfterCount(buf: seq<byte>, count: nat, octets: nat)
    requires buf != [] && buf[0] == 42 && S.ParseNumber(buf[1..]) == S.Number(count, octets)
    ensures S.ParseArray(buf).Elements? ==> S.ParseArray(buf).end >= 1 + octets
  {
    R.ArrayItems(buf, count, octets);
    S.ParseManyInside(buf, 1 + octets, count);
  }

  /** An array whose count is incomplete in `buf` ends beyond it. */
  lemma CountBeyond(buf: seq<byte>, more: seq<byte>)
    requires buf != [] && buf[0] == 42 && S.ParseNumber(buf[1..]).NoLineEnd?
    ensures S.ParseArray(buf + more).Elements? ==> S.ParseArray(buf + more).end > |buf|
  {
    assert (buf + more)[1..] == buf[1..] + more;
    NumberBeyond(buf[1..], more);
    match S.ParseNumber((buf + more)[1..])
    case Number(count, octets) => ItemsAfterCount(buf + more, count, octets);
    case _ =>
  }

  lemma SameCount(buf: seq<byte>, count: nat, octets: nat, more: seq<byte>)
    requires buf != [] && buf[0] == 42 && S.ParseNumber(buf[1..]) == S.Number(count, octets)
    ensures S.ParseArray(buf + more) == S.ParseMany(S.BulkParser(buf + more), 1 + octets, count)
  {
    assert (buf + more)[1..] == buf[1..] + more;
    C.NumberExtend(buf[1..], more);
    R.ArrayItems(buf + more, count, octets);
  }

  lemma ItemsBeyond(buf: seq<byte>, count: nat, octets: nat, more: seq<byte>, a: S.Elements, b: S.Elements)
    requires 1 + octets <= |buf| && a.More? && b.Elements?
    requires a == S.ParseMany(S.BulkParser(buf), 1 + octets, count) && b == S.ParseMany(S.BulkParser(buf + more), 1 + octets, count)
    ensures b.end > |buf|
  {
    BulksBeyond(buf, 1 + octets, count, more);
  }

  /** So does any other incomplete array. */
  lemma ArrayBeyond(buf: seq<byte>, more: seq<byte>)
    requires buf != [] && S.ParseArray(buf).More? && S.ParseArray(buf + more).Elements?
    ensures S.ParseArray(buf + more).end > |buf|
  {
    match S.ParseNumber(buf[1..])
    case NoLineEnd => CountBeyond(buf, more);
    case Number(count, octets) =>
      R.ArrayItems(buf, count, octets);
      SameCount(buf, count, octets, more);
      ItemsBeyond(buf, count, octets, more, S.ParseArray(buf), S.ParseArray(buf + more));
    case NotANumber =>
  }

  /** The octets of the probe: "*1 $1 X" with its line ends. */
  const PROBE_OCTETS: seq<byte> := [42, 49, 13, 10, 36, 49, 13, 10, 88, 13, 10]

  lemma ProbeOctets()
    ensures R.EncodeRequests(PROBE) == PROBE_OCTETS
  {
    ProbeValid();
    assert NatText(1) == [49];
    assert R.EncodeNumber(1) == [49, 13, 10];
    assert R.EncodeBulk([88]) == [36, 49, 13, 10, 88, 13, 10];
    assert R.EncodeBulks([[88]]) == R.EncodeBulk([88]) + [];
  }

  lemma NoArray(feed: S.Feeder, t: seq<byte>, db: nat)
    requires S.Trim(t) != [] ==> S.Trim(t)[0] != 42
    ensures var r := S.Run(feed, S.State(t, S.Streaming, db));
      if S.Trim(t) != [] then r.Rejected? else r.Fed? && r.out.commands == []
  {
  }

  lemma ProbeTrims(e: nat)
    requires 0 < e <= 11
    ensures var t := S.Trim(PROBE_OCTETS[e..]); if e <= 8 then t != [] && t[0] != 42 else t == []
  {
    var t := PROBE_OCTETS[e..];
    if e == 2 || e == 6 {
      assert S.Trim(t) == S.Trim(t[1..]) == S.Trim(t[1..][1..]);
    } else if e == 3 || e == 7 {
      assert S.Trim(t) == S.Trim(t[1..]);
    } else if e == 9 {
      assert S.Trim(t) == S.Trim(t[1..]) == S.Trim(t[1..][1..]);
    } else if e == 10 {
      assert S.Trim(t) == S.Trim(t[1..]);
    }
  }

  /** No command starts inside the probe. */
  lemma ProbeTail(feed: S.Feeder, e: nat, db: nat)
    requires 0 < e <= 11
    ensures var r := S.Run(feed, S.State(PROBE_OCTETS[e..], S.Streaming, db));
      if e <= 8 then r.Rejected? else r.Fed? && r.out.commands == []
  {
    ProbeTrims(e);
    NoArray(feed, PROBE_OCTETS[e..], db);
  }

  /** An array that the probe completes is not the probe's own. */
  lemma ProbeArray(b: seq<byte>)
    requires b != [] && S.ParseArray(b).More? && S.ParseArray(b + PROBE_OCTETS).Elements?
    ensures var a := S.ParseArray(b + PROBE_OCTETS);
      a.end > |b| && (a.end - |b| > 8 ==> a.items != [[88]])
  {
    var a := S.ParseArray(b + PROBE_OCTETS);
    ArrayBeyond(b, PROBE_OCTETS);
    if a.end - |b| > 8 && a.items == [[88]] {
      NoStarInside(b + PROBE_OCTETS, [88], a.end, |b|);
    }
  }

  /** What a waiting parser makes of the probe. */
  lemma ProbeStep(feed: S.Feeder, q: S.State)
    requires q.mode == S.Streaming && q.buffer != [] && C.Settled(feed, q)
    ensures S.ParseArray(q.buffer).More?
    ensures var buf := q.buffer + PROBE_OCTETS;
      S.Step(feed, S.Extend(q, PROBE_OCTETS)) == match S.ParseArray(buf)
        case More => S.Blocked(S.State(buf, S.Streaming, q.db))
        case Bad(e) => S.Failed(e)
        case Elements(items, end) =>
          S.Progress(S.State(buf[end..], S.Streaming, S.DbAfter(q.db, items)), S.CommandOutput(q.db, items))
  {
    SettledWaits(feed, q);
    C.TrimExtend(q.buffer, PROBE_OCTETS);
  }

  lemma AfterBuffer(b: seq<byte>, c: seq<byte>, end: nat)
    requires |b| <= end <= |b| + |c|
    ensures (b + c)[end..] == c[end - |b|..]
  {
  }

  /** A parser in the middle of a command does not take the probe for a command of its own. */
  lemma ProbeInside(feed: S.Feeder, q: S.State, db: nat)
    requires q.mode == S.Streaming && q.buffer != [] && C.Settled(feed, q)
    ensures var r := S.Feed(feed, q, PROBE_OCTETS); r.Fed? ==> r.out.commands != [RawCommand(db, [88], [])]
  {
    ProbeStep(feed, q);
    var a := S.ParseArray(q.buffer + PROBE_OCTETS);
    if a.Elements? {
      ProbeArray(q.buffer);
      AfterBuffer(q.buffer, PROBE_OCTETS, a.end);
      ProbeTail(feed, a.end - |q.buffer|, S.DbAfter(q.db, a.items));
      if a.items != [[88]] {
        NotTheProbe(q.db, a.items, db);
      }
    }
  }

  lemma NotTheProbe(at: nat, items: seq<seq<byte>>, db: nat)
    requires items != [[88]]
    ensures S.CommandOutput(at, items).commands != [RawCommand(db, [88], [])]
  {
    assert items == [] || items == [items[0]] + items[1..];
  }

  /**
   If the connection broke between two commands, already the delivered commands tell: they are right,
   whatever comes next, exactly if the new parser rejoins the old one.
   */
  lemma CommandsTellExactly(feed: S.Feeder, p: S.State, repeated: seq<byte>)
    requires C.Lawful(feed) && p == S.State([], S.Streaming, p.db)
    ensures (forall more :: SameCommands(feed, p, repeated, more)) <==> Rejoins(feed, p, repeated)
  {
    RunEmpty(feed, p.db);
    ResumeExactly(feed, p, repeated);
    if Rejoins(feed, p, repeated) {
      forall more
        ensures SameCommands(feed, p, repeated, more)
      {
        assert Resumes(feed, p, repeated, more);
      }
    } else if SameCommands(feed, p, repeated, []) {
      NothingMore(repeated);
      FeedNothing(feed, p);
      ProbeTells(feed, p, repeated);
    }
  }

  /** A new parser that has not rejoined shows it at the latest with the probe. */
  lemma ProbeTells(feed: S.Feeder, p: S.State, repeated: seq<byte>)
    requires C.Lawful(feed) && p == S.State([], S.Streaming, p.db) && !Rejoins(feed, p, repeated)
    requires var r := S.Feed(feed, NEW, repeated); r.Fed? && r.out.commands == []
    ensures !SameCommands(feed, p, repeated, PROBE_OCTETS)
  {
    var r := S.Feed(feed, NEW, repeated);
    var q := r.state;
    C.RunSettles(feed, S.Extend(NEW, repeated));
    R.StreamingStays(feed, S.Extend(NEW, repeated));
    NewSplit(feed, repeated, PROBE_OCTETS);
    if S.Feed(feed, q, PROBE_OCTETS).Fed? {
      NoCommandsBefore(r.out, S.Feed(feed, q, PROBE_OCTETS));
    }
    ProbeResult(feed, p.db);
    if q.buffer != [] {
      ProbeInside(feed, q, p.db);
    } else {
      ProbeResult(feed, q.db);
    }
  }

  lemma ProbeResult(feed: S.Feeder, db: nat)
    ensures var r := S.Feed(feed, S.State([], S.Streaming, db), PROBE_OCTETS);
      r.Fed? && r.out.commands == [RawCommand(db, [88], [])]
  {
    ProbeOctets();
    ProbeShowsDb(feed, db);
  }

  // ----- What it takes to rejoin -----

  /** With nothing repeated: the old parser held nothing and database 0 was selected. */
  lemma RejoinsNothing(feed: S.Feeder, p: S.State)
    ensures Rejoins(feed, p, []) <==> p == NEW
  {
    NewSettled(feed);
    FeedNothing(feed, NEW);
  }

  /** Line ends in front of what is repeated do not matter. */
  lemma {:induction false} PadSkipped(feed: S.Feeder, pad: seq<byte>, more: seq<byte>)
    requires Q.IsPad(pad)
    ensures S.Feed(feed, NEW, pad + more) == S.Feed(feed, NEW, more)
    decreases |pad|
  {
    if pad == [] {
      assert pad + more == more;
    } else {
      PadSkipped(feed, pad[1..], more);
      assert (pad + more)[1..] == pad[1..] + more;
      assert [] + (pad + more) == pad + more && [] + (pad[1..] + more) == pad[1..] + more;
      SameTrimSameRun(feed, S.State(pad + more, S.Streaming, 0), S.State(pad[1..] + more, S.Streaming, 0));
    }
  }

  lemma SameTrimSameRun(feed: S.Feeder, p: S.State, q: S.State)
    requires p.mode == S.Streaming && q == p.(buffer := q.buffer) && S.Trim(p.buffer) == S.Trim(q.buffer)
    ensures S.Run(feed, p) == S.Run(feed, q)
  {
    assert S.Step(feed, p) == S.Step(feed, q);
  }

  /** The beginning of a command, or nothing. */
  predicate Waits(part: seq<byte>) {
    part == [] || (S.Trim(part) == part && S.ParseArray(part).More?)
  }

  lemma PartWaits(feed: S.Feeder, part: seq<byte>, db: nat)
    requires Waits(part)
    ensures S.Feed(feed, S.State([], S.Streaming, db), part) == S.Fed(S.State(part, S.Streaming, db), S.SILENT)
  {
    assert [] + part == part;
  }

  /** Whole commands and the beginning of another. */
  lemma RequestsAndPart(feed: S.Feeder, db: nat, rs: seq<Q.Request>, part: seq<byte>)
    requires C.Lawful(feed) && R.ValidRequests(rs) && Waits(part)
    ensures S.Feed(feed, S.State([], S.Streaming, db), R.EncodeRequests(rs) + part)
      == S.Fed(S.State(part, S.Streaming, R.LastDb(db, rs)), R.RequestsOutput(db, rs))
  {
    var p := S.State([], S.Streaming, db);
    assert [] + R.EncodeRequests(rs) == R.EncodeRequests(rs);
    R.RespRoundTrip(feed, rs, db);
    C.FeedSplit(feed, p, R.EncodeRequests(rs), part);
    PartWaits(feed, part, R.LastDb(db, rs));
    C.ThenSilent(R.RequestsOutput(db, rs));
  }

  /**
   If what is repeated starts between two commands, `rs` being the whole commands in it and `part`
   the beginning that the old parser holds: there must be no data command among them, and they must
   select the database that the old parser had selected.
   */
  lemma RejoinsCommands(feed: S.Feeder, p: S.State, pad: seq<byte>, rs: seq<Q.Request>, part: seq<byte>)
    requires C.Lawful(feed) && Q.IsPad(pad) && R.ValidRequests(rs) && Waits(part) && p == S.State(part, S.Streaming, p.db)
    ensures Rejoins(feed, p, pad + (R.EncodeRequests(rs) + part)) <==> R.DataCommands(0, rs) == [] && R.LastDb(0, rs) == p.db
  {
    PadSkipped(feed, pad, R.EncodeRequests(rs) + part);
    RequestsAndPart(feed, 0, rs, part);
  }

  /** If less is repeated than the old parser held, the beginning of its command is lost. */
  lemma TooLittleRepeated(feed: S.Feeder, p: S.State, repeated: seq<byte>)
    requires |repeated| < |p.buffer|
    ensures !Rejoins(feed, p, repeated)
  {
    assert [] + repeated == repeated;
    RunShrinks(feed, S.State(repeated, S.Streaming, 0));
  }

  /** A repeated octet that is neither a line end nor the start of a command makes the new parser fail. */
  lemma RepeatedOctetFails(feed: S.Feeder, p: S.State, last: byte)
    requires last != 13 && last != 10 && last != 42
    ensures S.Feed(feed, NEW, [last]).Rejected? && !Rejoins(feed, p, [last])
  {
    assert [] + [last] == [last] && S.Trim([last]) == [last];
  }

  // ----- Resuming a synchronisation from the counted offset -----

  /** What the primary sends again: the octets at the end of `received` that were not counted. */
  function Uncounted(end: nat, received: seq<byte>, chunks: seq<seq<byte>>): seq<byte> {
    var short := FirstCut(end, 0, chunks) - end;
    if 0 <= short <= |received| then received[|received| - short..] else received
  }

  /**
   A full synchronisation and `received` octets of the command stream arrive in chunks, then the
   connection breaks and the primary resumes at the counted offset, or sends the octets `again` from
   before it once more.  All later commands come out as without the break, and none twice, exactly if
   what is repeated brings the new parser to where the old one was without a data command.
   */
  lemma SyncResumesExactly(feed: S.Feeder, parse: Parse, s: Session, offset: nat, pad: seq<byte>, payload: seq<byte>,
                           received: seq<byte>, chunks: seq<seq<byte>>, again: seq<byte>)
    requires C.Lawful(feed) && Q.IsPad(pad) && 0 < |payload| <= 0xFFFF_FFFF_FFFF_FFFF
    requires feed(Rdb.INITIAL, payload).Fed? && R.Tight(feed, payload)
    requires S.Run(feed, S.State(received, S.Streaming, 0)).Fed?
    requires RdbChunks.Concat(chunks) == R.SyncStream(pad, payload, received)
    ensures var r := OnDataAll(feed, parse, FullResync(s, offset), chunks);
      var repeated := Uncounted(PayloadEnd(pad, payload), received, chunks);
      && r.Some? && r.value.offset + |repeated| == offset + |received| && repeated == received[r.value.offset - offset..]
      && ((forall more :: Resumes(feed, r.value.parser, again + repeated, more)) <==> Rejoins(feed, r.value.parser, again + repeated))
  {
    OffsetExactly(feed, parse, s, offset, pad, payload, received, chunks);
    var p := S.State(received, S.Streaming, 0);
    C.RunSettles(feed, p);
    R.StreamingStays(feed, p);
    ResumeExactly(feed, S.Run(feed, p).state, again + Uncounted(PayloadEnd(pad, payload), received, chunks));
  }

  /**
   The same in terms of the stream, when counting went wrong by whole commands `rs` (none if a chunk
   ended where the payload did) and the beginning `part` of one: right exactly if `rs` has no data
   command and selects the database that the whole stream has selected.
   */
  lemma SyncResumesCommands(feed: S.Feeder, parse: Parse, s: Session, offset: nat, pad: seq<byte>, payload: seq<byte>,
                            before: seq<Q.Request>, rs: seq<Q.Request>, part: seq<byte>, chunks: seq<seq<byte>>, again: seq<byte>)
    requires C.Lawful(feed) && Q.IsPad(pad) && 0 < |payload| <= 0xFFFF_FFFF_FFFF_FFFF
    requires feed(Rdb.INITIAL, payload).Fed? && R.Tight(feed, payload)
    requires R.ValidRequests(before) && R.ValidRequests(rs) && Waits(part) && Q.IsPad(again)
    requires RdbChunks.Concat(chunks) == R.SyncStream(pad, payload, R.EncodeRequests(before) + (R.EncodeRequests(rs) + part))
    requires FirstCut(PayloadEnd(pad, payload), 0, chunks) == PayloadEnd(pad, payload) + |R.EncodeRequests(rs) + part|
    ensures var r := OnDataAll(feed, parse, FullResync(s, offset), chunks);
      && r.Some? && r.value.offset == offset + |R.EncodeRequests(before)|
      && ((forall more :: Resumes(feed, r.value.parser, again + (R.EncodeRequests(rs) + part), more))
          <==> R.DataCommands(0, rs) == [] && R.LastDb(0, rs) == R.LastDb(R.LastDb(0, before), rs))
  {
    var head, tail := R.EncodeRequests(before), R.EncodeRequests(rs) + part;
    var db := R.LastDb(0, before);
    NothingBeforeFeed(feed, NEW, head + tail);
    R.RespRoundTrip(feed, before, 0);
    NothingBeforeFeed(feed, NEW, head);
    C.FeedSplit(feed, NEW, head, tail);
    RequestsAndPart(feed, db, rs, part);
    SyncResumesExactly(feed, parse, s, offset, pad, payload, head + tail, chunks, again);
    OffsetExactly(feed, parse, s, offset, pad, payload, head + tail, chunks);
    assert (head + tail)[|head|..] == tail;
    var p := S.State(part, S.Streaming, R.LastDb(db, rs));
    RejoinsCommands(feed, p, again, rs, part);
  }

  lemma NothingBeforeFeed(feed: S.Feeder, p: S.State, data: seq<byte>)
    requires p.buffer == []
    ensures S.Feed(feed, p, data) == S.Run(feed, p.(buffer := data))
  {
    assert [] + data == data;
  }

  // ----- What reaches the store -----

  /** A resumed session that rejoins holds, for any chunks, what it would hold without the break. */
  lemma ResumedSession(feed: S.Feeder, parse: Parse, s: Session, cmds: P.Group, repeated: seq<byte>, more: seq<byte>,
                       chunks: seq<seq<byte>>)
    requires C.Lawful(feed) && s.parser.mode == S.Streaming && Serving(s) && P.InStep(s.proj, cmds)
    requires S.Feed(feed, s.parser, more).Fed? && Resumes(feed, s.parser, repeated, more)
    requires RdbChunks.Concat(chunks) == repeated + more
    ensures var was, r := S.Feed(feed, s.parser, more), OnDataAll(feed, parse, Continue(s), chunks);
      r.Some? && r.value.parser == was.state && P.InStep(r.value.proj, cmds + ParseAll(parse, was.out.commands))
  {
    NewSettled(feed);
    NeverEarly(feed, NEW, chunks);
    C.ChunkIndependence(feed, NEW, chunks);
    OnDataAllInStep(feed, parse, Continue(s), chunks, cmds);
  }

  lemma {:induction false} NeverEarly(feed: S.Feeder, p: S.State, chunks: seq<seq<byte>>)
    requires p.mode == S.Streaming
    ensures !C.EndsEarly(feed, p, chunks)
    decreases |chunks|
  {
    if chunks != [] && S.Feed(feed, p, chunks[0]).Fed? {
      R.StreamingStays(feed, S.Extend(p, chunks[0]));
      NeverEarly(feed, S.Feed(feed, p, chunks[0]).state, chunks[1..]);
    }
  }

  /**
   For instance a synchronisation that arrives in one chunk with its first commands: the primary
   sends them again, and every one of them is applied twice.
   */
  lemma DoubledSync(feed: S.Feeder, parse: Parse, s: Session, offset: nat, pad: seq<byte>, payload: seq<byte>, rs: seq<Q.Request>)
    requires C.Lawful(feed) && Q.IsPad(pad) && R.ValidRequests(rs) && 0 < |payload| <= 0xFFFF_FFFF_FFFF_FFFF
    requires feed(Rdb.INITIAL, payload).Fed? && R.Tight(feed, payload)
    ensures var first := OnDataAll(feed, parse, FullResync(s, offset), [R.EncodeSync(pad, payload, rs)]);
      && first.Some? && first.value.offset == offset && first.value.parser.buffer == []
      && var second := OnDataAll(feed, parse, Continue(first.value), [R.EncodeRequests(rs)]);
         var once := R.DataCommands(0, rs);
         second.Some? && P.InStep(second.value.proj, ParseAll(parse, feed(Rdb.INITIAL, payload).commands + once + once))
  {
    var stream, cs := R.EncodeSync(pad, payload, rs), R.EncodeRequests(rs);
    var one: seq<seq<byte>> := [stream];
    var two: seq<seq<byte>> := [cs];
    R.ConcatTwo([], stream);
    R.ConcatTwo([], cs);
    assert one[1..] == [] && two[1..] == [];
    R.RespRoundTrip(feed, rs, 0);
    R.ChunkedSync(feed, pad, payload, rs, one);
    OffsetExactly(feed, parse, s, offset, pad, payload, cs, one);
    assert FirstCut(PayloadEnd(pad, payload), 0, one) == |stream|;
    FreshInStep(s, offset);
    OnDataAllInStep(feed, parse, FullResync(s, offset), one, []);
    var first := OnDataAll(feed, parse, FullResync(s, offset), one).value;
    var snapshot, once := feed(Rdb.INITIAL, payload).commands, R.DataCommands(0, rs);
    NewSettled(feed);
    NeverEarly(feed, NEW, two);
    C.ChunkIndependence(feed, NEW, two);
    NothingBeforeFeed(feed, NEW, cs);
    OnDataAllInStep(feed, parse, Continue(first), two, [] + ParseAll(parse, snapshot + once));
    ParseAppend(parse, snapshot + once, once);
    assert [] + ParseAll(parse, snapshot + once) == ParseAll(parse, snapshot + once);
  }

  // ----- When a snapshot was being loaded -----

  lemma {:induction false} StreamingOnly(feed: S.Feeder, parse: Parse, s: Session, chunks: seq<seq<byte>>)
    requires s.parser.mode == S.Streaming && s.proj.incoming.Some?
    ensures var r := OnDataAll(feed, parse, s, chunks);
      r.Some? ==> r.value.proj.incoming.Some? && r.value.proj.current == s.proj.current && r.value.proj.ready == s.proj.ready
    decreases |chunks|
  {
    if chunks != [] {
      OnDataAllCons(feed, parse, s, chunks);
      var f := S.Feed(feed, s.parser, chunks[0]);
      if f.Fed? {
        R.StreamingStays(feed, S.Extend(s.parser, chunks[0]));
        P.FieldsKept(s.proj, ParseAll(parse, f.out.commands));
        StreamingOnly(feed, parse, OnData(feed, parse, s, chunks[0]).value, chunks[1..]);
      }
    }
  }

  /**
   A partial resynchronisation granted while a snapshot was still being loaded: the swap was due at
   the end of the snapshot, which never comes, so readers keep the old store whatever arrives.
   */
  lemma ContinueWhileLoading(feed: S.Feeder, parse: Parse, s: Session, chunks: seq<seq<byte>>)
    requires s.proj.incoming.Some?
    ensures var r := OnDataAll(feed, parse, Continue(s), chunks);
      r.Some? ==> r.value.proj.incoming.Some? && r.value.proj.current == s.proj.current && r.value.proj.ready == s.proj.ready
  {
    StreamingOnly(feed, parse, Continue(s), chunks);
  }

  /** Granted after the swap, everything that arrives is served. */
  lemma ContinueWhileServing(feed: S.Feeder, parse: Parse, s: Session, chunks: seq<seq<byte>>, cmds: P.Group)
    requires s.proj.incoming.None? && s.proj.ready && P.InStep(s.proj, cmds)
    requires C.FeedAll(feed, Continue(s).parser, chunks).Fed?
    ensures var f, r := C.FeedAll(feed, Continue(s).parser, chunks), OnDataAll(feed, parse, Continue(s), chunks);
      r.Some? && Serves(r.value, cmds + ParseAll(parse, f.out.commands))
  {
    OnDataAllInStep(feed, parse, Continue(s), chunks, cmds);
    var f, r := C.FeedAll(feed, Continue(s).parser, chunks), OnDataAll(feed, parse, Continue(s), chunks);
    FeedAllStreams(feed, Continue(s).parser, chunks);
    InStepServes(r.value, cmds + ParseAll(parse, f.out.commands));
  }

  lemma {:induction false} FeedAllStreams(feed: S.Feeder, p: S.State, chunks: seq<seq<byte>>)
    requires p.mode == S.Streaming && C.FeedAll(feed, p, chunks).Fed?
    ensures C.FeedAll(feed, p, chunks).state.mode == S.Streaming
    decreases |chunks|
  {
    if chunks != [] {
      R.StreamingStays(feed, S.Extend(p, chunks[0]));
      FeedAllStreams(feed, S.Feed(feed, p, chunks[0]).state, chunks[1..]);
    }
  }
}
