/**
 The replication session: each chunk from the socket goes through the stream parser, and the
 commands go to the projection.  `parse` turns a raw command into a typed one.
 */
module Session {
  import opened Bytes
  import opened Seqs
  import opened RdbValue
  import S = ReplicaStream
  import C = ReplicaChunks
  import R = ReplicaRoundTrip
  import Q = ReplicaRequests
  import P = TsProj
  import RdbChunks
  import RdbSnapshot
  import Rdb = RdbParser

  type Parse = RawCommand -> P.Tagged

  datatype Session = Session(parser: S.State, proj: P.Proj, offset: nat)

  /** While a snapshot is read, there is a store to read it into. */
  predicate Linked(s: Session) {
    s.parser.mode != S.Streaming ==> s.proj.incoming.Some?
  }

  /** FULLRESYNC: a new replication at the announced offset. */
  function FullResync(s: Session, offset: nat): (r: Session)
    ensures Linked(r)
  {
    Session(S.INITIAL, P.HandleReplicationStart(s.proj), offset)
  }

  /** CONTINUE after a disconnect: a new parser that expects commands only. */
  function Continue(s: Session): (r: Session)
    ensures Linked(r)
  {
    s.(parser := S.State([], S.Streaming, 0))
  }

  function ParseAll(parse: Parse, cmds: seq<RawCommand>): (g: P.Group)
    ensures |g| == |cmds|
    ensures forall i :: 0 <= i < |cmds| ==> g[i] == parse(cmds[i])
  {
    seq(|cmds|, i requires 0 <= i < |cmds| => parse(cmds[i]))
  }

  function Deliver(proj: P.Proj, batch: P.Group): P.Proj {
    if batch == [] then proj else P.HandleCommands(proj, batch)
  }

  /** Whether this chunk completes the snapshot. */
  predicate Begins(s: Session, after: S.State) {
    s.parser.mode != S.Streaming && after.mode == S.Streaming
  }

  /** The projection that readers see before the chunk's own commands are delivered. */
  function Swapped(s: Session, after: S.State): P.Proj
    requires Linked(s)
  {
    if Begins(s, after) then P.HandleStreamingStart(s.proj) else s.proj
  }

  /** One chunk; None is a parse error, after which the session reconnects. */
  function OnData(feed: S.Feeder, parse: Parse, s: Session, data: seq<byte>): (r: Option<Session>)
    requires Linked(s)
    ensures r.Some? ==> Linked(r.value)
  {
    match S.Feed(feed, s.parser, data)
    case Rejected(_) => None
    case Fed(after, out) =>
      var batch := ParseAll(parse, out.commands);
      P.FieldsKept(Swapped(s, after), batch);
      assert s.parser.mode == S.Streaming ==> after.mode == S.Streaming by {
        if s.parser.mode == S.Streaming {
          R.StreamingStays(feed, S.Extend(s.parser, data));
        }
      }
      var offset := if s.parser.mode == S.Streaming then s.offset + |data| else s.offset;
      Some(Session(after, Deliver(Swapped(s, after), batch), offset))
  }

  function OnDataAll(feed: S.Feeder, parse: Parse, s: Session, chunks: seq<seq<byte>>): (r: Option<Session>)
    requires Linked(s)
    ensures r.Some? ==> Linked(r.value)
    decreases |chunks|
  {
    if chunks == [] then Some(s)
    else
      match OnData(feed, parse, s, chunks[0])
      case None => None
      case Some(s') => OnDataAll(feed, parse, s', chunks[1..])
  }

  // ----- Nothing is lost between parser and store -----

  lemma ParseAppend(parse: Parse, a: seq<RawCommand>, b: seq<RawCommand>)
    ensures ParseAll(parse, a + b) == ParseAll(parse, a) + ParseAll(parse, b)
  {
  }

  lemma DeliverInStep(proj: P.Proj, cmds: P.Group, batch: P.Group)
    requires P.InStep(proj, cmds)
    ensures P.InStep(Deliver(proj, batch), cmds + batch)
    ensures Deliver(proj, batch).incoming.Some? == proj.incoming.Some? && Deliver(proj, batch).ready == proj.ready
  {
    if batch == [] {
      assert cmds + batch == cmds;
    } else {
      P.BatchInStep(proj, cmds, batch);
      P.FieldsKept(proj, batch);
    }
  }

  lemma OnDataInStep(feed: S.Feeder, parse: Parse, s: Session, data: seq<byte>, cmds: P.Group)
    requires Linked(s) && P.InStep(s.proj, cmds)
    ensures var f, r := S.Feed(feed, s.parser, data), OnData(feed, parse, s, data);
      && (f.Fed? <==> r.Some?)
      && (f.Fed? ==> r.value.parser == f.state && P.InStep(r.value.proj, cmds + ParseAll(parse, f.out.commands)))
      && (f.Fed? && f.state.mode == S.Streaming && (s.parser.mode == S.Streaming ==> s.proj.incoming.None? && s.proj.ready)
          ==> r.value.proj.incoming.None? && r.value.proj.ready)
  {
    match S.Feed(feed, s.parser, data)
    case Rejected(_) =>
    case Fed(after, out) =>
      DeliverInStep(Swapped(s, after), cmds, ParseAll(parse, out.commands));
  }

  /** A session that is streaming serves what it has received. */
  predicate Serving(s: Session) {
    s.parser.mode == S.Streaming ==> s.proj.incoming.None? && s.proj.ready
  }

  /** One chunk, then the others. */
  lemma OnDataAllCons(feed: S.Feeder, parse: Parse, s: Session, chunks: seq<seq<byte>>)
    requires Linked(s) && chunks != []
    ensures var f, r := S.Feed(feed, s.parser, chunks[0]), OnData(feed, parse, s, chunks[0]);
      if f.Fed? then
        && r.Some? && r.value.parser == f.state
        && OnDataAll(feed, parse, s, chunks) == OnDataAll(feed, parse, r.value, chunks[1..])
        && C.FeedAll(feed, s.parser, chunks) == S.After(f.out, C.FeedAll(feed, f.state, chunks[1..]))
      else OnDataAll(feed, parse, s, chunks).None? && C.FeedAll(feed, s.parser, chunks).Rejected?
  {
  }

  lemma JoinCommands(parse: Parse, cmds: P.Group, a: S.Output, b: S.Output)
    ensures cmds + ParseAll(parse, a.commands) + ParseAll(parse, b.commands) == cmds + ParseAll(parse, S.Then(a, b).commands)
  {
    ParseAppend(parse, a.commands, b.commands);
  }

  lemma {:induction false} OnDataAllInStep(feed: S.Feeder, parse: Parse, s: Session, chunks: seq<seq<byte>>, cmds: P.Group)
    requires Linked(s) && Serving(s) && P.InStep(s.proj, cmds)
    ensures var f, r := C.FeedAll(feed, s.parser, chunks), OnDataAll(feed, parse, s, chunks);
      && (f.Fed? <==> r.Some?)
      && (f.Fed? ==> r.value.parser == f.state && Serving(r.value))
      && (f.Fed? ==> P.InStep(r.value.proj, cmds + ParseAll(parse, f.out.commands)))
    decreases |chunks|
  {
    if chunks == [] {
      assert cmds + [] == cmds;
    } else {
      OnDataInStep(feed, parse, s, chunks[0], cmds);
      OnDataAllCons(feed, parse, s, chunks);
      var f := S.Feed(feed, s.parser, chunks[0]);
      if f.Fed? {
        var s' := OnData(feed, parse, s, chunks[0]).value;
        OnDataAllInStep(feed, parse, s', chunks[1..], cmds + ParseAll(parse, f.out.commands));
        var rest := C.FeedAll(feed, f.state, chunks[1..]);
        if rest.Fed? {
          JoinCommands(parse, cmds, f.out, rest.out);
        }
      }
    }
  }

  lemma FreshInStep(s: Session, offset: nat)
    ensures P.InStep(FullResync(s, offset).proj, [])
  {
  }

  /** What the readable store holds once `cmds` have arrived: all but an open transaction. */
  ghost predicate Serves(s: Session, cmds: P.Group) {
    s.proj.ready && s.proj.incoming.None? && P.Flatten(s.proj.current) == cmds[..P.Settled(cmds)]
  }

  lemma InStepServes(s: Session, cmds: P.Group)
    requires s.parser.mode == S.Streaming && Serving(s) && P.InStep(s.proj, cmds)
    ensures Serves(s, cmds)
  {
    var done := P.Flatten(P.Target(s.proj));
    assert (done + Reverse(s.proj.buffer))[..|done|] == done;
    assert s.proj.buffer == [] ==> done + Reverse(s.proj.buffer) == done;
  }

  /**
   End to end, from socket to store: however the stream of a full synchronisation is cut into
   chunks, the store that readers get holds the commands of the snapshot and of the stream, in
   order, up to a transaction that is still open.
   */
  lemma SocketToStore(floats: Floats, parse: Parse, s: Session, offset: nat,
                      pad: seq<byte>, head: seq<byte>, items: seq<RdbSnapshot.Item>, checksum: seq<byte>,
                      rs: seq<Q.Request>, chunks: seq<seq<byte>>)
    requires |head| == 9 && Rdb.ValidMagic(head) && |checksum| == 8 && RdbSnapshot.ValidItems(items)
    requires |RdbSnapshot.EncodeFile(head, items, checksum)| <= 0xFFFF_FFFF_FFFF_FFFF
    requires Q.IsPad(pad) && R.ValidRequests(rs)
    requires RdbChunks.Concat(chunks) == R.EncodeSync(pad, RdbSnapshot.EncodeFile(head, items, checksum), rs)
    ensures var r := OnDataAll(S.RdbFeeder(floats), parse, FullResync(s, offset), chunks);
      var snapshot := RdbSnapshot.ItemsCommands(floats, RdbSnapshot.Context(0, None), items);
      r.Some? && Serves(r.value, ParseAll(parse, snapshot + R.DataCommands(0, rs)))
  {
    R.FullSync(floats, pad, head, items, checksum, rs, chunks);
    FreshInStep(s, offset);
    OnDataAllInStep(S.RdbFeeder(floats), parse, FullResync(s, offset), chunks, []);
    var cmds := ParseAll(parse, C.FeedAll(S.RdbFeeder(floats), S.INITIAL, chunks).out.commands);
    assert [] + cmds == cmds;
    InStepServes(OnDataAll(S.RdbFeeder(floats), parse, FullResync(s, offset), chunks).value, cmds);
  }

  // ----- When the new store becomes readable -----

  /** The commands that the snapshot contributes to a run of the parser. */
  function SnapshotPart(feed: S.Feeder, p: S.State): seq<RawCommand>
    decreases |p.buffer|
  {
    if p.mode == S.Streaming then []
    else
      match S.Step(feed, p)
      case Progress(p', out) => out.commands + SnapshotPart(feed, p')
      case Blocked(_) => []
      case Failed(_) => []
  }

  /** They come first among what the run reports. */
  lemma {:induction false} SnapshotFirst(feed: S.Feeder, p: S.State)
    requires S.Run(feed, p).Fed?
    ensures SnapshotPart(feed, p) <= S.Run(feed, p).out.commands
    decreases |p.buffer|
  {
    if S.Step(feed, p).Progress? {
      var p' := S.Step(feed, p).state;
      SnapshotFirst(feed, p');
    }
  }

  lemma {:induction false} SettledWhenClosed(cmds: P.Group)
    ensures P.Settled(cmds) == |cmds| <==> !P.Open(cmds)
    decreases |cmds|
  {
    if cmds != [] {
      SettledWhenClosed(cmds[..|cmds| - 1]);
    }
  }

  /**
   The store is swapped in before the commands of the chunk that completes the snapshot are
   delivered.  So it holds the whole snapshot when it becomes readable exactly if that chunk
   contributes no snapshot command and the snapshot does not end inside a transaction.
   */
  lemma SwapCompleteExactly(feed: S.Feeder, parse: Parse, s: Session, data: seq<byte>, cmds: P.Group)
    requires Linked(s) && P.InStep(s.proj, cmds)
    requires S.Feed(feed, s.parser, data).Fed? && Begins(s, S.Feed(feed, s.parser, data).state)
    ensures var late := SnapshotPart(feed, S.Extend(s.parser, data));
      var readable := Swapped(s, S.Feed(feed, s.parser, data).state);
      readable.ready && (P.Flatten(readable.current) == cmds + ParseAll(parse, late) <==> late == [] && !P.Open(cmds))
  {
    var late := SnapshotPart(feed, S.Extend(s.parser, data));
    var done := P.Flatten(P.Target(s.proj));
    SettledWhenClosed(cmds);
    assert cmds + [] == cmds;
    assert |done| <= |cmds|;
    assert s.proj.buffer == [] ==> done + Reverse(s.proj.buffer) == done;
    assert |done| == P.Settled(cmds);
    assert (done + Reverse(s.proj.buffer))[..|done|] == done;
  }

  /** A synchronisation that arrives in one piece: readers get a ready and empty store first. */
  lemma OneChunkSwapsEmpty(feed: S.Feeder, s: Session, offset: nat, pad: seq<byte>, payload: seq<byte>, rs: seq<Q.Request>)
    requires Q.IsPad(pad) && R.ValidRequests(rs) && 0 < |payload| <= 0xFFFF_FFFF_FFFF_FFFF
    requires feed(Rdb.INITIAL, payload).Fed?
    ensures var s0, data := FullResync(s, offset), R.EncodeSync(pad, payload, rs);
      && S.Feed(feed, s0.parser, data).Fed? && Begins(s0, S.Feed(feed, s0.parser, data).state)
      && SnapshotPart(feed, S.Extend(s0.parser, data)) == feed(Rdb.INITIAL, payload).commands
      && Swapped(s0, S.Feed(feed, s0.parser, data).state).current == []
  {
    var body := payload + R.EncodeRequests(rs);
    R.SyncRoundTrip(feed, pad, payload, rs);
    R.HeaderRoundTrip(feed, pad, |payload|, body);
    var p, q := S.Extend(S.INITIAL, R.EncodeSync(pad, payload, rs)), R.AtPayload(body, |payload|);
    assert p == S.State(R.EncodeHeader(pad, |payload|) + body, S.WaitingRdb, 0);
    assert S.Step(feed, p) == S.Progress(q, S.SILENT);
    assert body[..|payload|] == payload;
    C.PayloadStep(feed, q, Rdb.INITIAL, |payload|, 0, |payload|);
    var q' := S.Step(feed, q).state;
    assert q'.mode == S.Streaming;
    assert SnapshotPart(feed, q) == feed(Rdb.INITIAL, payload).commands + [];
  }

  // ----- The replication offset -----

  /** Where the snapshot ends in the stream of a full synchronisation. */
  function PayloadEnd(pad: seq<byte>, payload: seq<byte>): nat {
    |R.EncodeHeader(pad, |payload|)| + |payload|
  }

  /** The mode of the parser tells whether the payload has arrived. */
  lemma ModeAfter(feed: S.Feeder, pad: seq<byte>, payload: seq<byte>, rest: seq<byte>, n: nat)
    requires Q.IsPad(pad) && 0 < |payload| <= 0xFFFF_FFFF_FFFF_FFFF && n <= |R.SyncStream(pad, payload, rest)|
    ensures var r := S.Feed(feed, S.INITIAL, R.SyncStream(pad, payload, rest)[..n]);
      r.Fed? ==> (r.state.mode == S.Streaming <==> n >= PayloadEnd(pad, payload))
  {
    var h := R.EncodeHeader(pad, |payload|);
    R.PrefixOfSync(h, payload + rest, n);
    if n < |h| {
      HeaderWaits(feed, pad, |payload|, n);
    } else {
      R.RunHeader(feed, pad, |payload|, (payload + rest)[..n - |h|]);
      PayloadMode(feed, payload, rest, n - |h|);
    }
  }

  lemma HeaderWaits(feed: S.Feeder, pad: seq<byte>, size: nat, n: nat)
    requires Q.IsPad(pad) && size <= 0xFFFF_FFFF_FFFF_FFFF && n < |R.EncodeHeader(pad, size)|
    ensures var r := S.Feed(feed, S.INITIAL, R.EncodeHeader(pad, size)[..n]); r.Fed? ==> r.state.mode == S.WaitingRdb
  {
    var h := R.EncodeHeader(pad, size);
    var p := S.State(h[..n], S.WaitingRdb, 0);
    assert p == S.Extend(S.INITIAL, h[..n]);
    R.HeaderRoundTrip(feed, pad, size, []);
    assert h + [] == h && h[..n] + h[n..] == h;
    HeaderIncomplete(feed, p, h[n..], R.AtPayload([], size));
  }

  /** If more octets are needed to end the header with nothing left over, it has not ended yet. */
  lemma HeaderIncomplete(feed: S.Feeder, p: S.State, more: seq<byte>, q: S.State)
    requires p.mode == S.WaitingRdb && more != [] && S.Step(feed, S.Extend(p, more)) == S.Progress(q, S.SILENT) && q.buffer == []
    ensures !S.Step(feed, p).Progress?
  {
    C.HeaderStable(p, more);
  }

  lemma PayloadMode(feed: S.Feeder, payload: seq<byte>, rest: seq<byte>, n: nat)
    requires payload != [] && n <= |payload + rest|
    ensures var r := S.Run(feed, R.AtPayload((payload + rest)[..n], |payload|));
      r.Fed? ==> (r.state.mode == S.Streaming <==> n >= |payload|)
  {
    var p := R.AtPayload((payload + rest)[..n], |payload|);
    if 0 < n < |payload| {
      assert p.buffer[..n] == p.buffer;
      C.PayloadStep(feed, p, Rdb.INITIAL, |payload|, 0, n);
      var r := feed(Rdb.INITIAL, p.buffer);
      if r.Fed? {
        C.PartialRun(feed, p, S.State([], S.ReadingRdb(r.state, |payload|, n), 0), r.commands);
      }
    } else if n > 0 {
      C.PayloadStep(feed, p, Rdb.INITIAL, |payload|, 0, |payload|);
      if S.Step(feed, p).Progress? {
        R.StreamingStays(feed, S.Step(feed, p).state);
      }
    }
  }

  /** The first chunk boundary at or after `end`, the chunks starting at `n`. */
  function FirstCut(end: nat, n: nat, chunks: seq<seq<byte>>): (k: nat)
    ensures n <= k
    decreases |chunks|
  {
    if n >= end || chunks == [] then n else FirstCut(end, n + |chunks[0]|, chunks[1..])
  }

  /** Some chunk boundary is exactly at `end`. */
  predicate CutAt(end: nat, n: nat, chunks: seq<seq<byte>>)
    decreases |chunks|
  {
    n == end || (chunks != [] && CutAt(end, n + |chunks[0]|, chunks[1..]))
  }

  lemma {:induction false} CutAtForward(end: nat, n: nat, chunks: seq<seq<byte>>)
    requires CutAt(end, n, chunks)
    ensures n <= end
    decreases |chunks|
  {
    if n != end {
      CutAtForward(end, n + |chunks[0]|, chunks[1..]);
    }
  }

  lemma {:induction false} FirstCutExactly(end: nat, n: nat, chunks: seq<seq<byte>>)
    requires n <= end <= n + |RdbChunks.Concat(chunks)|
    ensures FirstCut(end, n, chunks) == end <==> CutAt(end, n, chunks)
    decreases |chunks|
  {
    if n < end {
      var m := n + |chunks[0]|;
      if m <= end {
        FirstCutExactly(end, m, chunks[1..]);
      } else if CutAt(end, m, chunks[1..]) {
        CutAtForward(end, m, chunks[1..]);
      }
    }
  }

  /** Whether the parser streams after `k` octets of `stream` is whether `end` of them have arrived. */
  ghost predicate StreamsFrom(feed: S.Feeder, stream: seq<byte>, end: nat) {
    forall k :: 0 <= k <= |stream| ==>
      var r := S.Feed(feed, S.INITIAL, stream[..k]); r.Fed? ==> (r.state.mode == S.Streaming <==> k >= end)
  }

  ghost predicate NeverStuck(feed: S.Feeder, stream: seq<byte>) {
    forall k :: 0 <= k <= |stream| ==>
      var r := S.Feed(feed, S.INITIAL, stream[..k]); r.Fed? ==> !C.Stuck(r.state)
  }

  /** The octets of the chunks that arrive while the parser is streaming. */
  function Counted(feed: S.Feeder, p: S.State, chunks: seq<seq<byte>>): nat
    decreases |chunks|
  {
    if chunks == [] then 0
    else
      var r := S.Feed(feed, p, chunks[0]);
      (if p.mode == S.Streaming then |chunks[0]| else 0) + if r.Fed? then Counted(feed, r.state, chunks[1..]) else 0
  }

  /** These are what the offset counts. */
  lemma {:induction false} OffsetCounts(feed: S.Feeder, parse: Parse, s: Session, chunks: seq<seq<byte>>)
    requires Linked(s) && OnDataAll(feed, parse, s, chunks).Some?
    ensures OnDataAll(feed, parse, s, chunks).value.offset == s.offset + Counted(feed, s.parser, chunks)
    decreases |chunks|
  {
    if chunks != [] {
      OnDataAllCons(feed, parse, s, chunks);
      OffsetOne(feed, parse, s, chunks[0]);
      OffsetCounts(feed, parse, OnData(feed, parse, s, chunks[0]).value, chunks[1..]);
    }
  }

  lemma CountedCons(feed: S.Feeder, p: S.State, chunks: seq<seq<byte>>)
    requires chunks != [] && S.Feed(feed, p, chunks[0]).Fed?
    ensures Counted(feed, p, chunks)
      == (if p.mode == S.Streaming then |chunks[0]| else 0) + Counted(feed, S.Feed(feed, p, chunks[0]).state, chunks[1..])
  {
  }

  /** Only chunks after the one that completes the payload are counted. */
  lemma {:induction false} CountedExactly(feed: S.Feeder, p: S.State, stream: seq<byte>, n: nat, end: nat, chunks: seq<seq<byte>>)
    requires C.Lawful(feed) && n <= |stream| && stream[n..] == RdbChunks.Concat(chunks)
    requires StreamsFrom(feed, stream, end) && NeverStuck(feed, stream)
    requires S.Feed(feed, S.INITIAL, stream[..n]).Fed? && p == S.Feed(feed, S.INITIAL, stream[..n]).state
    requires C.FeedAll(feed, p, chunks).Fed?
    ensures Counted(feed, p, chunks) == |stream| - FirstCut(end, n, chunks)
    decreases |chunks|
  {
    if chunks != [] {
      var p' := S.Feed(feed, p, chunks[0]).state;
      R.CutAgain(stream, n, chunks[0], RdbChunks.Concat(chunks[1..]));
      NextPrefix(feed, stream, n, chunks[0], end);
      CountedExactly(feed, p', stream, n + |chunks[0]|, end, chunks[1..]);
      CountedCons(feed, p, chunks);
      CutFrom(end, n, chunks);
    }
  }

  predicate SameState(a: S.FeedResult, b: S.FeedResult) {
    a.Fed? && b.Fed? && a.state == b.state
  }

  /** What the parser does with the next chunk is what it does with the longer prefix. */
  lemma NextPrefix(feed: S.Feeder, stream: seq<byte>, n: nat, chunk: seq<byte>, end: nat)
    requires C.Lawful(feed) && n + |chunk| <= |stream| && stream[..n] + chunk == stream[..n + |chunk|]
    requires StreamsFrom(feed, stream, end) && NeverStuck(feed, stream)
    requires S.Feed(feed, S.INITIAL, stream[..n]).Fed?
    ensures var p := S.Feed(feed, S.INITIAL, stream[..n]).state;
      && (p.mode == S.Streaming <==> n >= end)
      && (S.Feed(feed, p, chunk).Fed? ==> SameState(S.Feed(feed, S.INITIAL, stream[..n + |chunk|]), S.Feed(feed, p, chunk)))
  {
    C.FeedSplit(feed, S.INITIAL, stream[..n], chunk);
  }

  lemma OffsetOne(feed: S.Feeder, parse: Parse, s: Session, data: seq<byte>)
    requires Linked(s) && S.Feed(feed, s.parser, data).Fed?
    ensures OnData(feed, parse, s, data).value.offset
      == s.offset + if s.parser.mode == S.Streaming then |data| else 0
  {
  }

  lemma CutFrom(end: nat, n: nat, chunks: seq<seq<byte>>)
    requires chunks != []
    ensures var rest := FirstCut(end, n + |chunks[0]|, chunks[1..]);
      if n >= end then FirstCut(end, n, chunks) == n && rest == n + |chunks[0]| else FirstCut(end, n, chunks) == rest
  {
  }

  lemma SyncPrefixes(feed: S.Feeder, pad: seq<byte>, payload: seq<byte>, rest: seq<byte>)
    requires Q.IsPad(pad) && 0 < |payload| <= 0xFFFF_FFFF_FFFF_FFFF && R.Tight(feed, payload)
    ensures StreamsFrom(feed, R.SyncStream(pad, payload, rest), PayloadEnd(pad, payload))
    ensures NeverStuck(feed, R.SyncStream(pad, payload, rest))
  {
    var stream := R.SyncStream(pad, payload, rest);
    forall k | 0 <= k <= |stream|
      ensures var r := S.Feed(feed, S.INITIAL, stream[..k]);
        r.Fed? ==> (r.state.mode == S.Streaming <==> k >= PayloadEnd(pad, payload)) && !C.Stuck(r.state)
    {
      ModeAfter(feed, pad, payload, rest, k);
      R.NeverStuck(feed, pad, payload, rest, k);
    }
  }

  lemma SyncCounted(feed: S.Feeder, pad: seq<byte>, payload: seq<byte>, rest: seq<byte>, chunks: seq<seq<byte>>)
    requires C.Lawful(feed) && Q.IsPad(pad) && 0 < |payload| <= 0xFFFF_FFFF_FFFF_FFFF && R.Tight(feed, payload)
    requires RdbChunks.Concat(chunks) == R.SyncStream(pad, payload, rest) && C.FeedAll(feed, S.INITIAL, chunks).Fed?
    ensures Counted(feed, S.INITIAL, chunks)
      == |R.SyncStream(pad, payload, rest)| - FirstCut(PayloadEnd(pad, payload), 0, chunks)
  {
    var stream := R.SyncStream(pad, payload, rest);
    SyncPrefixes(feed, pad, payload, rest);
    StartsSettled(feed, stream);
    CountedExactly(feed, S.INITIAL, stream, 0, PayloadEnd(pad, payload), chunks);
  }

  /**
   After a full synchronisation and any octets of the command stream, cut into chunks in any way,
   the offset counts those octets exactly if a chunk ended where the payload did; otherwise it is
   short by the ones in the chunk that completed the payload.
   */
  lemma OffsetExactly(feed: S.Feeder, parse: Parse, s: Session, offset: nat, pad: seq<byte>, payload: seq<byte>,
                      received: seq<byte>, chunks: seq<seq<byte>>)
    requires C.Lawful(feed) && Q.IsPad(pad) && 0 < |payload| <= 0xFFFF_FFFF_FFFF_FFFF
    requires feed(Rdb.INITIAL, payload).Fed? && R.Tight(feed, payload)
    requires S.Run(feed, S.State(received, S.Streaming, 0)).Fed?
    requires RdbChunks.Concat(chunks) == R.SyncStream(pad, payload, received)
    ensures var r, end := OnDataAll(feed, parse, FullResync(s, offset), chunks), PayloadEnd(pad, payload);
      && r.Some? && r.value.parser == S.Run(feed, S.State(received, S.Streaming, 0)).state
      && r.value.offset + (FirstCut(end, 0, chunks) - end) == offset + |received|
      && end <= FirstCut(end, 0, chunks) <= end + |received|
      && (r.value.offset == offset + |received| <==> CutAt(end, 0, chunks))
  {
    var s0 := FullResync(s, offset);
    R.ChunkedStream(feed, pad, payload, received, chunks);
    FreshInStep(s, offset);
    OnDataAllInStep(feed, parse, s0, chunks, []);
    OffsetCounts(feed, parse, s0, chunks);
    SyncCounted(feed, pad, payload, received, chunks);
    FirstCutExactly(PayloadEnd(pad, payload), 0, chunks);
    FirstCutReaches(PayloadEnd(pad, payload), 0, chunks);
  }

  lemma {:induction false} FirstCutReaches(end: nat, n: nat, chunks: seq<seq<byte>>)
    requires n + |RdbChunks.Concat(chunks)| >= end
    ensures end <= FirstCut(end, n, chunks) && (n <= end ==> FirstCut(end, n, chunks) <= n + |RdbChunks.Concat(chunks)|)
    decreases |chunks|
  {
    if n < end && chunks != [] {
      FirstCutReaches(end, n + |chunks[0]|, chunks[1..]);
    }
  }

  /** For instance a synchronisation in one chunk: none of its commands is counted. */
  lemma OneChunkOffsetShort(feed: S.Feeder, parse: Parse, s: Session, offset: nat, pad: seq<byte>, payload: seq<byte>, rs: seq<Q.Request>)
    requires C.Lawful(feed) && Q.IsPad(pad) && R.ValidRequests(rs) && rs != [] && 0 < |payload| <= 0xFFFF_FFFF_FFFF_FFFF
    requires feed(Rdb.INITIAL, payload).Fed? && R.Tight(feed, payload)
    ensures var stream := R.EncodeSync(pad, payload, rs);
      var r := OnDataAll(feed, parse, FullResync(s, offset), [stream]);
      r.Some? && r.value.offset == offset < offset + |R.EncodeRequests(rs)| && !CutAt(PayloadEnd(pad, payload), 0, [stream])
  {
    var stream := R.EncodeSync(pad, payload, rs);
    var chunks: seq<seq<byte>> := [stream];
    R.ConcatTwo([], stream);
    assert chunks[1..] == [];
    assert R.EncodeArray(Q.Items(rs[0])) != [];
    R.RespRoundTrip(feed, rs, 0);
    OffsetExactly(feed, parse, s, offset, pad, payload, R.EncodeRequests(rs), [stream]);
    assert FirstCut(PayloadEnd(pad, payload), 0, [stream]) == |stream|;
  }

  lemma StartsSettled(feed: S.Feeder, stream: seq<byte>)
    ensures S.Feed(feed, S.INITIAL, stream[..0]) == S.Fed(S.INITIAL, S.SILENT) && stream[0..] == stream
  {
    assert stream[..0] == [];
    C.ExtendNothing(S.INITIAL);
  }
}
