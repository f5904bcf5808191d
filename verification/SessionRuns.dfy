/**
 Whole lives of a session: connections come and go, full and partial resynchronisations alternate,
 chunks arrive.  Every such life is a run of the projection, so what holds of those holds here.
 */
module SessionRuns {
  import opened Bytes
  import opened Session
  import opened Decimal
  import Rdb = RdbParser
  import R = ReplicaRoundTrip
  import Q = ReplicaRequests
  import S = ReplicaStream
  import P = TsProj
  import W = TxWindows

  /** What can happen to a session; the primary decides how a connection resumes. */
  datatype Input = Full(offset: nat) | Partial | Chunk(data: seq<byte>) | Disconnect

  /** A session with or without a connection; without one its parser is gone. */
  datatype Link = Link(session: Session, live: bool)

  const START := Link(Session(S.State([], S.Streaming, 0), P.INITIAL, 0), false)

  /** Chunks arrive only over a connection. */
  predicate Possible(l: Link, input: Input) {
    input.Chunk? ==> l.live
  }

  function After(feed: S.Feeder, parse: Parse, l: Link, input: Input): (r: Link)
    requires Linked(l.session)
    ensures Linked(r.session)
  {
    match input
    case Full(offset) => Link(FullResync(l.session, offset), true)
    case Partial => Link(Continue(l.session), true)
    case Disconnect => l.(live := false)
    case Chunk(data) =>
      match OnData(feed, parse, l.session, data)
      case None => l.(live := false)
      case Some(s) => Link(s, true)
  }

  /** The session after some inputs; those that are not possible do not happen. */
  function Life(feed: S.Feeder, parse: Parse, inputs: seq<Input>): (r: Link)
    ensures Linked(r.session)
    decreases |inputs|
  {
    if inputs == [] then START
    else
      var l := Life(feed, parse, inputs[..|inputs| - 1]);
      if Possible(l, inputs[|inputs| - 1]) then After(feed, parse, l, inputs[|inputs| - 1]) else l
  }

  /** What one input means for the projection. */
  function Events(feed: S.Feeder, parse: Parse, l: Link, input: Input): seq<P.Event>
    requires Linked(l.session)
  {
    match input
    case Full(_) => [P.ReplicationStart]
    case Partial => []
    case Disconnect => []
    case Chunk(data) =>
      match S.Feed(feed, l.session.parser, data)
      case Rejected(_) => []
      case Fed(after, out) => ChunkEvents(Begins(l.session, after), ParseAll(parse, out.commands))
  }

  /** A chunk is at most a streaming start and a batch. */
  function ChunkEvents(begins: bool, batch: P.Group): seq<P.Event> {
    (if begins then [P.StreamingStart] else []) + if batch == [] then [] else [P.Commands(batch)]
  }

  function StepEvents(feed: S.Feeder, parse: Parse, l: Link, input: Input): seq<P.Event>
    requires Linked(l.session)
  {
    if Possible(l, input) then Events(feed, parse, l, input) else []
  }

  function Trace(feed: S.Feeder, parse: Parse, inputs: seq<Input>): seq<P.Event>
    decreases |inputs|
  {
    if inputs == [] then []
    else
      var init := inputs[..|inputs| - 1];
      Trace(feed, parse, init) + StepEvents(feed, parse, Life(feed, parse, init), inputs[|inputs| - 1])
  }

  // ----- Runs of the projection -----

  lemma OneMore(events: seq<P.Event>, e: P.Event)
    requires P.IsRun(events) && P.Enabled(P.After(events), e)
    ensures P.IsRun(events + [e]) && P.After(events + [e]) == P.Next(P.After(events), e)
    ensures P.Received(events + [e]) == match e
      case ReplicationStart => []
      case StreamingStart => P.Received(events)
      case Commands(batch) => P.Received(events) + batch
  {
    assert (events + [e])[..|events|] == events;
  }

  lemma NoMore(events: seq<P.Event>)
    ensures events + [] == events
  {
  }

  lemma BatchIsRun(events: seq<P.Event>, batch: P.Group)
    requires P.IsRun(events)
    ensures var all := events + ChunkEvents(false, batch);
      P.IsRun(all) && P.After(all) == Deliver(P.After(events), batch) && P.Received(all) == P.Received(events) + batch
  {
    if batch == [] {
      NoMore(events);
      assert P.Received(events) + batch == P.Received(events);
    } else {
      OneMore(events, P.Commands(batch));
      assert ChunkEvents(false, batch) == [P.Commands(batch)];
    }
  }

  lemma ChunkIsRun(events: seq<P.Event>, begins: bool, batch: P.Group)
    requires P.IsRun(events) && (begins ==> P.After(events).incoming.Some?)
    ensures var all := events + ChunkEvents(begins, batch);
      && P.IsRun(all) && P.Received(all) == P.Received(events) + batch
      && P.After(all) == Deliver(if begins then P.HandleStreamingStart(P.After(events)) else P.After(events), batch)
  {
    if begins {
      OneMore(events, P.StreamingStart);
      BatchIsRun(events + [P.StreamingStart], batch);
      assert events + ChunkEvents(true, batch) == events + [P.StreamingStart] + ChunkEvents(false, batch);
    } else {
      BatchIsRun(events, batch);
    }
  }

  /** One input more. */
  lemma LifeSnoc(feed: S.Feeder, parse: Parse, inputs: seq<Input>, input: Input)
    ensures var l := Life(feed, parse, inputs);
      && Life(feed, parse, inputs + [input]) == (if Possible(l, input) then After(feed, parse, l, input) else l)
      && Trace(feed, parse, inputs + [input]) == Trace(feed, parse, inputs) + StepEvents(feed, parse, l, input)
  {
    assert (inputs + [input])[..|inputs|] == inputs;
  }

  /** One input extends a run of the projection. */
  lemma StepIsRun(feed: S.Feeder, parse: Parse, events: seq<P.Event>, l: Link, input: Input)
    requires P.IsRun(events) && Linked(l.session) && P.After(events) == l.session.proj && Possible(l, input)
    ensures var all := events + Events(feed, parse, l, input);
      P.IsRun(all) && P.After(all) == After(feed, parse, l, input).session.proj
  {
    NoMore(events);
    match input
    case Full(_) => OneMore(events, P.ReplicationStart);
    case Chunk(data) =>
      var f := S.Feed(feed, l.session.parser, data);
      if f.Fed? {
        ChunkIsRun(events, Begins(l.session, f.state), ParseAll(parse, f.out.commands));
      }
    case _ =>
  }

  /** Every life of a session is a run of the projection that ends in the same state. */
  lemma {:induction false} LifeIsRun(feed: S.Feeder, parse: Parse, inputs: seq<Input>)
    ensures P.IsRun(Trace(feed, parse, inputs))
    ensures P.After(Trace(feed, parse, inputs)) == Life(feed, parse, inputs).session.proj
    decreases |inputs|
  {
    if inputs != [] {
      var init, last := inputs[..|inputs| - 1], inputs[|inputs| - 1];
      LifeIsRun(feed, parse, init);
      var l, events := Life(feed, parse, init), Trace(feed, parse, init);
      NoMore(events);
      if Possible(l, last) {
        StepIsRun(feed, parse, events, l, last);
      }
    }
  }

  // ----- What readers see -----

  /** At any time readers see the result of received commands up to a cut that splits no transaction. */
  lemma ReadersSeeCleanCuts(feed: S.Feeder, parse: Parse, inputs: seq<Input>)
    ensures P.Atomic(Life(feed, parse, inputs).session.proj.current, P.Served(Trace(feed, parse, inputs)))
  {
    LifeIsRun(feed, parse, inputs);
    P.ReadersSeeCleanCuts(Trace(feed, parse, inputs));
  }

  /** A transaction among the served commands is committed by one group, from its SET to its DEL, or not at all. */
  lemma TransactionsWhole(feed: S.Feeder, parse: Parse, inputs: seq<Input>, a: nat, b: nat)
    requires W.Transaction(P.Served(Trace(feed, parse, inputs)), a, b)
    ensures var groups := Life(feed, parse, inputs).session.proj.current;
      W.InOneGroup(groups, a, b) || |P.Flatten(groups)| <= a
  {
    LifeIsRun(feed, parse, inputs);
    W.TransactionsInOneGroup(Trace(feed, parse, inputs), a, b);
  }

  /** Nothing that the parser delivered is lost or applied twice: committed plus buffered is received. */
  lemma LifeInStep(feed: S.Feeder, parse: Parse, inputs: seq<Input>)
    ensures P.InStep(Life(feed, parse, inputs).session.proj, P.Received(Trace(feed, parse, inputs)))
  {
    LifeIsRun(feed, parse, inputs);
    P.RunInStep(Trace(feed, parse, inputs));
  }

  /** Two lives in which the same commands arrived since the last full resynchronisation hold the same. */
  lemma ChunkingIrrelevant(feed: S.Feeder, parse: Parse, a: seq<Input>, b: seq<Input>)
    requires P.Received(Trace(feed, parse, a)) == P.Received(Trace(feed, parse, b))
    ensures var p, q := Life(feed, parse, a).session.proj, Life(feed, parse, b).session.proj;
      P.Flatten(P.Target(p)) == P.Flatten(P.Target(q)) && p.buffer == q.buffer && p.inTx == q.inTx
  {
    LifeIsRun(feed, parse, a);
    LifeIsRun(feed, parse, b);
    P.BatchingIrrelevant(Trace(feed, parse, a), Trace(feed, parse, b));
  }

  lemma ChunkAdds(feed: S.Feeder, parse: Parse, events: seq<P.Event>, l: Link, data: seq<byte>)
    requires P.IsRun(events) && Linked(l.session) && P.After(events) == l.session.proj
    requires l.live && S.Feed(feed, l.session.parser, data).Fed?
    ensures Possible(l, Chunk(data))
    ensures P.Received(events + Events(feed, parse, l, Chunk(data)))
      == P.Received(events) + ParseAll(parse, S.Feed(feed, l.session.parser, data).out.commands)
  {
    var f := S.Feed(feed, l.session.parser, data);
    ChunkIsRun(events, Begins(l.session, f.state), ParseAll(parse, f.out.commands));
  }

  /** The commands received, in terms of the stream: what a chunk adds is what the parser makes of it. */
  lemma ChunkReceived(feed: S.Feeder, parse: Parse, inputs: seq<Input>, data: seq<byte>)
    requires Life(feed, parse, inputs).live && S.Feed(feed, Life(feed, parse, inputs).session.parser, data).Fed?
    ensures P.Received(Trace(feed, parse, inputs + [Chunk(data)]))
      == P.Received(Trace(feed, parse, inputs)) + ParseAll(parse, S.Feed(feed, Life(feed, parse, inputs).session.parser, data).out.commands)
  {
    LifeSnoc(feed, parse, inputs, Chunk(data));
    LifeIsRun(feed, parse, inputs);
    ChunkAdds(feed, parse, Trace(feed, parse, inputs), Life(feed, parse, inputs), data);
  }

  /** No snapshot is completed by the inputs `more`. */
  predicate NoSwap(feed: S.Feeder, parse: Parse, inputs: seq<Input>, more: seq<Input>)
    decreases |more|
  {
    more == [] ||
      var init := more[..|more| - 1];
      && NoSwap(feed, parse, inputs, init)
      && P.StreamingStart !in StepEvents(feed, parse, Life(feed, parse, inputs + init), more[|more| - 1])
  }

  /**
   From a full resynchronisation on, through disconnects and partial resynchronisations, readers
   keep exactly what they had until a snapshot is complete.
   */
  lemma {:induction false} ReadableFrozen(feed: S.Feeder, parse: Parse, inputs: seq<Input>, more: seq<Input>)
    requires Life(feed, parse, inputs).session.proj.incoming.Some? && NoSwap(feed, parse, inputs, more)
    ensures SameReadable(Life(feed, parse, inputs), Life(feed, parse, inputs + more))
    decreases |more|
  {
    if more == [] {
      assert inputs + more == inputs;
    } else {
      var init, last := more[..|more| - 1], more[|more| - 1];
      assert inputs + more == inputs + init + [last];
      ReadableFrozen(feed, parse, inputs, init);
      LifeSnoc(feed, parse, inputs + init, last);
      if Possible(Life(feed, parse, inputs + init), last) {
        StepFrozen(feed, parse, Life(feed, parse, inputs + init), last);
      }
    }
  }

  /** A full resynchronisation itself changes nothing for readers. */
  lemma FullKeepsReadable(feed: S.Feeder, parse: Parse, inputs: seq<Input>, offset: nat)
    ensures SameReadable(Life(feed, parse, inputs), Life(feed, parse, inputs + [Full(offset)]))
  {
    LifeSnoc(feed, parse, inputs, Full(offset));
  }

  /** Readers see the same, and a snapshot is being loaded. */
  predicate SameReadable(before: Link, now: Link) {
    var p, q := before.session.proj, now.session.proj;
    q.current == p.current && q.ready == p.ready && q.incoming.Some?
  }

  lemma StepFrozen(feed: S.Feeder, parse: Parse, l: Link, input: Input)
    requires Linked(l.session) && l.session.proj.incoming.Some? && Possible(l, input)
    requires P.StreamingStart !in Events(feed, parse, l, input)
    ensures SameReadable(l, After(feed, parse, l, input))
  {
    if input.Chunk? && S.Feed(feed, l.session.parser, input.data).Fed? {
      P.FieldsKept(l.session.proj, ParseAll(parse, S.Feed(feed, l.session.parser, input.data).out.commands));
    }
  }

  // ----- Sessions in which a partial resynchronisation goes wrong -----

  /** The life of a session that receives one chunk after a full resynchronisation. */
  lemma OneChunkLife(feed: S.Feeder, parse: Parse, offset: nat, data: seq<byte>)
    requires S.Feed(feed, S.INITIAL, data).Fed?
    ensures var l := Life(feed, parse, [Full(offset), Chunk(data)]);
      l.live && l.session.parser == S.Feed(feed, S.INITIAL, data).state
  {
    var none: seq<Input> := [];
    LifeSnoc(feed, parse, none, Full(offset));
    assert none + [Full(offset)] == [Full(offset)];
    LifeSnoc(feed, parse, [Full(offset)], Chunk(data));
    assert [Full(offset)] + [Chunk(data)] == [Full(offset), Chunk(data)];
  }

  /** An octet of a command waits in the parser. */
  lemma HeldOctetReachable(feed: S.Feeder, parse: Parse, offset: nat, payload: seq<byte>)
    requires 0 < |payload| <= 0xFFFF_FFFF_FFFF_FFFF && feed(Rdb.INITIAL, payload).Fed?
    ensures Life(feed, parse, [Full(offset), Chunk(R.SyncStream([], payload, [42]))]).session.parser
      == S.State([42], S.Streaming, 0)
  {
    R.StreamRun(feed, [], payload, [42]);
    assert S.Trim([42]) == [42];
    var none: seq<byte> := [42][1..];
    assert none == [] && S.ParseNumber(none).NoLineEnd?;
    OneChunkLife(feed, parse, offset, R.SyncStream([], payload, [42]));
  }

  /** Any other database is selected. */
  lemma OtherDbReachable(feed: S.Feeder, parse: Parse, offset: nat, payload: seq<byte>, db: nat)
    requires 0 < |payload| <= 0xFFFF_FFFF_FFFF_FFFF && feed(Rdb.INITIAL, payload).Fed? && db <= 0xFFFF_FFFF
    ensures var rs := [Q.SelectFrame([], Octets("SELECT"), NatText(db), db, [])];
      Life(feed, parse, [Full(offset), Chunk(R.EncodeSync([], payload, rs))]).session.parser == S.State([], S.Streaming, db)
  {
    var r := Q.SelectFrame([], Octets("SELECT"), NatText(db), db, []);
    Q.PlainSelect(db);
    assert [r][1..] == [];
    assert R.LastDb(0, [r]) == db;
    R.SyncRoundTrip(feed, [], payload, [r]);
    OneChunkLife(feed, parse, offset, R.EncodeSync([], payload, [r]));
  }

  /** A partial resynchronisation is granted while a snapshot is being loaded. */
  lemma LoadingReachable(feed: S.Feeder, parse: Parse, offset: nat)
    ensures var l := Life(feed, parse, [Full(offset), Disconnect, Partial]);
      l.live && l.session.parser.mode == S.Streaming && l.session.proj.incoming == Some([]) && !l.session.proj.ready
  {
    var none: seq<Input> := [];
    LifeSnoc(feed, parse, none, Full(offset));
    LifeSnoc(feed, parse, [Full(offset)], Disconnect);
    LifeSnoc(feed, parse, [Full(offset), Disconnect], Partial);
    assert none + [Full(offset)] == [Full(offset)];
    assert [Full(offset)] + [Disconnect] == [Full(offset), Disconnect];
    assert [Full(offset), Disconnect] + [Partial] == [Full(offset), Disconnect, Partial];
  }
}
