/** The replication stream gives the same result however TCP cut it into chunks. */
module ReplicaChunks {
  import opened Bytes
  import opened RdbValue
  import opened ReplicaStream
  import Rdb = RdbParser
  import RdbChunks
  import opened RdbString

  // ----- Parsing is stable under appending -----

  lemma {:induction false} TrimExtend(buf: seq<byte>, more: seq<byte>)
    ensures Trim(buf + more) == Trim(Trim(buf) + more)
    ensures Trim(buf) != [] ==> Trim(buf + more) == Trim(buf) + more
    decreases |buf|
  {
    if buf == [] {
      assert buf + more == more;
    } else if buf[0] == LF || buf[0] == CR {
      assert (buf + more)[1..] == buf[1..] + more;
      TrimExtend(buf[1..], more);
    }
  }

  lemma {:induction false} CrlfExtend(buf: seq<byte>, more: seq<byte>)
    requires FindCrlf(buf).Some?
    ensures FindCrlf(buf + more) == FindCrlf(buf)
    decreases |buf|
  {
    if !(buf[0] == CR && buf[1] == LF) {
      assert (buf + more)[1..] == buf[1..] + more;
      CrlfExtend(buf[1..], more);
    }
  }

  lemma NumberExtend(buf: seq<byte>, more: seq<byte>)
    requires !ParseNumber(buf).NoLineEnd?
    ensures ParseNumber(buf + more) == ParseNumber(buf)
  {
    CrlfExtend(buf, more);
    SliceOfAppend(buf, more, 0, FindCrlf(buf).value);
  }

  lemma BulkExtend(buf: seq<byte>, cursor: nat, more: seq<byte>)
    requires !ParseBulk(buf, cursor).More?
    ensures ParseBulk(buf + more, cursor) == ParseBulk(buf, cursor)
  {
    if buf[cursor] == DOLLAR {
      SliceOfAppend(buf, more, cursor, cursor + 1);
      NumberExtend(buf[cursor + 1..], more);
      var n := ParseNumber(buf[cursor + 1..]);
      if n.Number? {
        var start := cursor + 1 + n.octets;
        SliceOfAppend(buf, more, start, start + n.value);
      }
    }
  }

  lemma {:induction false} ManyExtend(p: nat -> Elements, q: nat -> Elements, cursor: nat, count: nat)
    requires forall c :: !p(c).More? ==> q(c) == p(c)
    requires !ParseMany(p, cursor, count).More?
    ensures ParseMany(q, cursor, count) == ParseMany(p, cursor, count)
    decreases count
  {
    if count > 0 && p(cursor).Elements? {
      ManyExtend(p, q, p(cursor).end, count - 1);
    }
  }

  lemma BulksExtend(buf: seq<byte>, cursor: nat, count: nat, more: seq<byte>)
    requires !ParseMany(BulkParser(buf), cursor, count).More?
    ensures ParseMany(BulkParser(buf + more), cursor, count) == ParseMany(BulkParser(buf), cursor, count)
  {
    var p, q := BulkParser(buf), BulkParser(buf + more);
    forall c | !p(c).More?
      ensures q(c) == p(c)
    {
      BulkExtend(buf, c, more);
    }
    ManyExtend(p, q, cursor, count);
  }

  lemma ArrayExtend(buf: seq<byte>, more: seq<byte>)
    requires buf != [] && !ParseArray(buf).More?
    ensures ParseArray(buf + more) == ParseArray(buf)
  {
    if buf[0] == STAR {
      SliceOfAppend(buf, more, 0, 1);
      NumberExtend(buf[1..], more);
      var n := ParseNumber(buf[1..]);
      if n.Number? {
        BulksExtend(buf, 1 + n.octets, n.value, more);
      }
    }
  }

  // ----- Transitions outside the RDB payload -----

  /** `r` is the transition `q` with `more` behind the buffer; `next` is what a blocked one tries again. */
  ghost predicate Carries(r: StepResult, q: StepResult, more: seq<byte>, next: StepResult) {
    match q
    case Progress(s, out) => r == Progress(Extend(s, more), out)
    case Failed(e) => r == Failed(e)
    case Blocked(_) => r == next
  }

  lemma HeaderStable(s: State, more: seq<byte>)
    ensures var q := StepHeader(s);
      Carries(StepHeader(Extend(s, more)), q, more, if q.Blocked? then StepHeader(Extend(q.state, more)) else q)
  {
    TrimExtend(s.buffer, more);
    var buf := Trim(s.buffer);
    if buf != [] && buf[0] == DOLLAR && !ParseNumber(buf[1..]).NoLineEnd? {
      SliceOfAppend(buf, more, 0, 1);
      NumberExtend(buf[1..], more);
      var n := ParseNumber(buf[1..]);
      if n.Number? {
        SliceOfAppend(buf, more, 0, 1 + n.octets);
      }
    }
  }

  lemma CommandStable(s: State, more: seq<byte>)
    ensures var q := StepCommand(s);
      Carries(StepCommand(Extend(s, more)), q, more, if q.Blocked? then StepCommand(Extend(q.state, more)) else q)
  {
    TrimExtend(s.buffer, more);
    var buf := Trim(s.buffer);
    if buf != [] && !ParseArray(buf).More? {
      ArrayExtend(buf, more);
      if ParseArray(buf).Elements? {
        var end := ParseArray(buf).end;
        SliceOfAppend(buf, more, 0, end);
      }
    }
  }

  // ----- Outputs -----

  lemma ThenThen(a: Output, b: Output, r: FeedResult)
    ensures After(a, After(b, r)) == After(Then(a, b), r)
  {
    if r.Fed? {
      assert a.commands + (b.commands + r.out.commands) == a.commands + b.commands + r.out.commands;
    }
  }

  lemma ThenSilent(a: Output)
    ensures Then(a, SILENT) == a && Then(SILENT, a) == a
  {
    assert a.commands + [] == a.commands && [] + a.commands == a.commands;
  }

  lemma AfterSilent(r: FeedResult)
    ensures After(SILENT, r) == r
  {
    if r.Fed? {
      ThenSilent(r.out);
    }
  }

  // ----- Runs -----

  /** The embedded RDB parser has finished but more payload octets are announced. */
  predicate Stuck(s: State) {
    s.mode.ReadingRdb? && s.mode.rdb.mode == Rdb.Finished
  }

  /** Feeding the embedded parser `a` and then `b` is feeding it both, unless `a` finished it. */
  ghost predicate SplitLaw(feed: Feeder, rdb: Rdb.State, a: seq<byte>, b: seq<byte>) {
    match feed(rdb, a)
    case Rejected(e) => feed(rdb, a + b) == Rdb.Rejected(e)
    case Fed(rdb', cmds) => rdb'.mode == Rdb.Finished || feed(rdb, a + b) == Rdb.Prepend(cmds, feed(rdb', b))
  }

  /** What the stream needs to know about the embedded parser. */
  ghost predicate Lawful(feed: Feeder) {
    && (forall rdb, a, b :: SplitLaw(feed, rdb, a, b))
    && (forall rdb: Rdb.State, data :: rdb.mode == Rdb.Finished ==> feed(rdb, data) == Rdb.Rejected(AlreadyFinished))
  }

  lemma RdbIsLawful(floats: Floats)
    ensures Lawful(RdbFeeder(floats))
  {
    forall rdb, a, b
      ensures SplitLaw(RdbFeeder(floats), rdb, a, b)
    {
      RdbChunks.FeedSplit(floats, rdb, a, b);
    }
  }

  /** Running with more data, in terms of the run without it. */
  ghost predicate Splits(feed: Feeder, s: State, more: seq<byte>) {
    match Run(feed, s)
    case Rejected(e) => Run(feed, Extend(s, more)) == Rejected(e)
    case Fed(s1, out) => Stuck(s1) || Run(feed, Extend(s, more)) == After(out, Run(feed, Extend(s1, more)))
  }

  lemma ExtendNothing(s: State)
    ensures Extend(s, []) == s
  {
    assert s.buffer + [] == s.buffer;
  }

  /** Feeding part of the payload now and part later is feeding it together. */
  lemma PartialPayload(feed: Feeder, s: State, more: seq<byte>)
    requires Lawful(feed)
    requires s.mode.ReadingRdb? && 0 < |s.buffer| < s.mode.size - s.mode.read
    ensures Splits(feed, s, more)
  {
    var room := s.mode.size - s.mode.read - |s.buffer|;
    var j := Min(|more|, room);
    assert SplitLaw(feed, s.mode.rdb, s.buffer, more[..j]);
    match feed(s.mode.rdb, s.buffer)
    case Rejected(e) =>
      assert s.buffer[..|s.buffer|] == s.buffer;
      assert Extend(s, more).buffer[..|s.buffer| + j] == s.buffer + more[..j];
    case Fed(rdb, cmds) =>
      var s1 := State([], ReadingRdb(rdb, s.mode.size, s.mode.read + |s.buffer|), s.db);
      PartialRun(feed, s, s1, cmds);
      if !Stuck(s1) {
        if more == [] {
          ExtendNothing(s);
          ExtendNothing(s1);
          ThenSilent(Output(cmds, false, false));
        } else {
          JoinedPayload(feed, s, s1, more, j, cmds);
        }
      }
  }

  lemma PartialRun(feed: Feeder, s: State, s1: State, cmds: seq<RawCommand>)
    requires s.mode.ReadingRdb? && 0 < |s.buffer| < s.mode.size - s.mode.read
    requires s1.mode.ReadingRdb? && s1 == State([], ReadingRdb(s1.mode.rdb, s.mode.size, s.mode.read + |s.buffer|), s.db)
    requires feed(s.mode.rdb, s.buffer) == Rdb.Fed(s1.mode.rdb, cmds)
    ensures Run(feed, s) == Fed(s1, Output(cmds, false, false))
    ensures Run(feed, s1) == Fed(s1, SILENT)
  {
    var out := Output(cmds, false, false);
    assert s.buffer[..|s.buffer|] == s.buffer && s.buffer[|s.buffer|..] == [];
    assert Step(feed, s) == Progress(s1, out);
    ThenSilent(out);
  }

  /** One transition inside the payload, spelled out. */
  lemma PayloadStep(feed: Feeder, s: State, rdb: Rdb.State, size: nat, read: nat, k: nat)
    requires s.mode == ReadingRdb(rdb, size, read) && read < size && s.buffer != [] && k == Min(|s.buffer|, size - read)
    ensures Step(feed, s) == match feed(rdb, s.buffer[..k])
      case Rejected(e) => Failed(e)
      case Fed(rdb', cmds) =>
        Progress(State(s.buffer[k..], AfterPayload(rdb', size, read + k), s.db), Output(cmds, false, false))
  {
  }

  lemma JoinedPayload(feed: Feeder, s: State, s1: State, more: seq<byte>, j: nat, cmds: seq<RawCommand>)
    requires s.mode.ReadingRdb? && 0 < |s.buffer| < s.mode.size - s.mode.read && more != []
    requires s1.mode.ReadingRdb? && s1 == State([], ReadingRdb(s1.mode.rdb, s.mode.size, s.mode.read + |s.buffer|), s.db)
    requires j == Min(|more|, s1.mode.size - s1.mode.read)
    requires feed(s.mode.rdb, s.buffer + more[..j]) == Rdb.Prepend(cmds, feed(s1.mode.rdb, more[..j]))
    ensures Run(feed, Extend(s, more)) == After(Output(cmds, false, false), Run(feed, Extend(s1, more)))
  {
    var out := Output(cmds, false, false);
    var whole, later := Extend(s, more), Extend(s1, more);
    Slices(s.buffer, more, j);
    PayloadStep(feed, whole, s.mode.rdb, s.mode.size, s.mode.read, |s.buffer| + j);
    PayloadStep(feed, later, s1.mode.rdb, s1.mode.size, s1.mode.read, j);
    StepsThen(feed, whole, later, out);
  }

  lemma Slices(a: seq<byte>, b: seq<byte>, j: nat)
    requires j <= |b|
    ensures (a + b)[..|a| + j] == a + b[..j] && (a + b)[|a| + j..] == b[j..]
    ensures [] + b == b
  {
  }

  /** Two states whose first transitions differ only by the output `out` have runs that do. */
  lemma StepsThen(feed: Feeder, whole: State, later: State, out: Output)
    requires !Step(feed, later).Blocked?
    requires Step(feed, whole) == match Step(feed, later)
      case Progress(s, o) => Progress(s, Then(out, o))
      case Failed(e) => Failed(e)
    ensures Run(feed, whole) == After(out, Run(feed, later))
  {
    match Step(feed, later)
    case Progress(s, o) => ThenThen(out, o, Run(feed, s));
    case Failed(e) =>
  }

  /** Running on more data is running first without it and then with it, unless the payload ended early. */
  lemma {:induction false} RunSplit(feed: Feeder, s: State, more: seq<byte>)
    requires Lawful(feed)
    ensures Splits(feed, s, more)
    decreases |s.buffer|
  {
    if s.mode.ReadingRdb? && 0 < |s.buffer| < s.mode.size - s.mode.read {
      PartialPayload(feed, s, more);
    } else {
      var q := Step(feed, s);
      StepStable(feed, s, more);
      match q
      case Failed(e) =>
      case Blocked(s1) =>
        AfterSilent(Run(feed, Extend(s1, more)));
      case Progress(s', out) =>
        RunSplit(feed, s', more);
        if Run(feed, s').Fed? {
          ThenThen(out, Run(feed, s').out, Run(feed, Extend(Run(feed, s').state, more)));
        }
    }
  }

  /** Except for a partial payload, each transition is stable under appending. */
  lemma StepStable(feed: Feeder, s: State, more: seq<byte>)
    requires s.mode.ReadingRdb? ==> s.buffer == [] || |s.buffer| >= s.mode.size - s.mode.read
    ensures var q := Step(feed, s);
      Carries(Step(feed, Extend(s, more)), q, more, if q.Blocked? then Step(feed, Extend(q.state, more)) else q)
  {
    match s.mode
    case WaitingRdb => HeaderStable(s, more);
    case Streaming => CommandStable(s, more);
    case ReadingRdb(rdb, size, read) =>
      if read < size && s.buffer != [] {
        var k := size - read;
        SliceOfAppend(s.buffer, more, 0, k);
      }
  }

  // ----- Chunks -----

  lemma FeedSplit(feed: Feeder, s: State, a: seq<byte>, b: seq<byte>)
    requires Lawful(feed)
    ensures match Feed(feed, s, a)
      case Rejected(e) => Feed(feed, s, a + b) == Rejected(e)
      case Fed(s1, out) => Stuck(s1) || Feed(feed, s, a + b) == After(out, Feed(feed, s1, b))
  {
    assert s.buffer + (a + b) == s.buffer + a + b;
    RunSplit(feed, Extend(s, a), b);
  }

  /** One `feed_data` call per chunk, stopping at the first error; outputs are joined. */
  function FeedAll(feed: Feeder, s: State, chunks: seq<seq<byte>>): FeedResult
    decreases |chunks|
  {
    if chunks == [] then Fed(s, SILENT)
    else
      match Feed(feed, s, chunks[0])
      case Rejected(e) => Rejected(e)
      case Fed(s1, out) => After(out, FeedAll(feed, s1, chunks[1..]))
  }

  /** Data arrives for a payload whose RDB file has already ended. */
  ghost predicate EndsEarly(feed: Feeder, s: State, chunks: seq<seq<byte>>)
    decreases |chunks|
  {
    chunks != [] &&
    ((Stuck(s) && RdbChunks.Concat(chunks) != []) ||
     (Feed(feed, s, chunks[0]).Fed? && EndsEarly(feed, Feed(feed, s, chunks[0]).state, chunks[1..])))
  }

  /** A state between two calls: what was fed so far has been worked off. */
  ghost predicate Settled(feed: Feeder, s: State) {
    Run(feed, s) == Fed(s, SILENT)
  }

  lemma {:induction false} RunSettles(feed: Feeder, s: State)
    ensures Run(feed, s).Fed? ==> Settled(feed, Run(feed, s).state)
    decreases |s.buffer|
  {
    match Step(feed, s)
    case Failed(e) =>
    case Progress(s', out) => RunSettles(feed, s');
    case Blocked(s') =>
      TrimTwice(s.buffer);
      assert Step(feed, s') == Blocked(s');
  }

  lemma {:induction false} TrimTwice(buf: seq<byte>)
    ensures Trim(Trim(buf)) == Trim(buf)
    decreases |buf|
  {
    if buf != [] && (buf[0] == LF || buf[0] == CR) {
      TrimTwice(buf[1..]);
    }
  }

  lemma {:induction false} NoData(feed: Feeder, s: State, chunks: seq<seq<byte>>)
    requires Settled(feed, s) && RdbChunks.Concat(chunks) == []
    ensures FeedAll(feed, s, chunks) == Fed(s, SILENT)
    decreases |chunks|
  {
    if chunks != [] {
      assert chunks[0] == [];
      ExtendNothing(s);
      NoData(feed, s, chunks[1..]);
      AfterSilent(FeedAll(feed, s, chunks[1..]));
    }
  }

  /**
   Chunk independence: for any cut of the data into chunks, empty ones included, feeding them one
   by one gives the result of feeding everything at once: the same commands, the disjunction of the
   flags, the same final state or the same error; unless data comes after an early end of the RDB file.
   */
  lemma {:induction false} ChunkIndependence(feed: Feeder, s: State, chunks: seq<seq<byte>>)
    requires Lawful(feed) && Settled(feed, s) && !EndsEarly(feed, s, chunks)
    ensures FeedAll(feed, s, chunks) == Feed(feed, s, RdbChunks.Concat(chunks))
    decreases |chunks|
  {
    if chunks == [] {
      ExtendNothing(s);
    } else {
      var a, rest := chunks[0], chunks[1..];
      FeedSplit(feed, s, a, RdbChunks.Concat(rest));
      if Feed(feed, s, a).Fed? {
        var s1 := Feed(feed, s, a).state;
        RunSettles(feed, Extend(s, a));
        if RdbChunks.Concat(rest) == [] {
          assert a + [] == a;
          NoData(feed, s1, rest);
          ThenSilent(Feed(feed, s, a).out);
        } else {
          ChunkIndependence(feed, s1, rest);
        }
      }
    }
  }

  /** When data does come after an early end of the RDB file, the chunked stream is rejected. */
  lemma {:induction false} EarlyEndRejected(feed: Feeder, s: State, chunks: seq<seq<byte>>)
    requires Lawful(feed) && Settled(feed, s) && EndsEarly(feed, s, chunks)
    ensures FeedAll(feed, s, chunks).Rejected?
    decreases |chunks|
  {
    var a, rest := chunks[0], chunks[1..];
    if Stuck(s) && RdbChunks.Concat(chunks) != [] {
      assert s.buffer == [] by {
        StuckSettled(feed, s);
      }
      if a == [] {
        ExtendNothing(s);
        assert RdbChunks.Concat(chunks) == [] + RdbChunks.Concat(rest) == RdbChunks.Concat(rest);
        EarlyEndRejected(feed, s, rest);
      } else {
        assert Extend(s, a).buffer == a;
        assert Step(feed, Extend(s, a)).Failed?;
      }
    } else {
      RunSettles(feed, Extend(s, a));
      EarlyEndRejected(feed, Feed(feed, s, a).state, rest);
    }
  }

  lemma StuckSettled(feed: Feeder, s: State)
    requires Lawful(feed) && Settled(feed, s) && Stuck(s)
    ensures s.buffer == [] && s.mode.read < s.mode.size
  {
    assert !Step(feed, s).Failed?;
  }

  /**
   The exact condition: if feeding everything at once succeeds, then feeding the chunks one by one
   gives the same result if and only if no data comes after an early end of the RDB file.
   */
  lemma ChunkIndependenceExactly(feed: Feeder, s: State, chunks: seq<seq<byte>>)
    requires Lawful(feed) && Settled(feed, s)
    requires Feed(feed, s, RdbChunks.Concat(chunks)).Fed?
    ensures FeedAll(feed, s, chunks) == Feed(feed, s, RdbChunks.Concat(chunks)) <==> !EndsEarly(feed, s, chunks)
  {
    if EndsEarly(feed, s, chunks) {
      EarlyEndRejected(feed, s, chunks);
    } else {
      ChunkIndependence(feed, s, chunks);
    }
  }
}
