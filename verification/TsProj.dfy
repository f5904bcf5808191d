/**
 Projection of the replication stream into the store: commands are buffered, a transaction between
 SET and DEL of the marker key is applied as a whole, and a new snapshot is built aside while the
 old store serves reads.  A store is seen as the groups of commands committed to it, oldest first.
 */
module TsProj {
  import opened Bytes
  import opened Seqs

  /** The marker key of transactions, "__vdr_tx". */
  const TX_KEY: seq<byte> := [95, 95, 118, 100, 114, 95, 116, 120]

  datatype Command =
    | Set(key: seq<byte>, value: seq<byte>)
    | Del(keys: seq<seq<byte>>)
    | FlushAll
    | SwapDb(db1: nat, db2: nat)
    | Generic(args: seq<seq<byte>>)
    | Op(name: seq<byte>, args: seq<seq<byte>>)

  datatype Tagged = Tagged(db: nat, command: Command)

  type Group = seq<Tagged>

  /** `buffer` is newest first; `incoming` is the store that a snapshot is being loaded into. */
  datatype Proj = Proj(current: seq<Group>, incoming: Option<seq<Group>>, ready: bool, buffer: Group, inTx: bool)

  const INITIAL := Proj([], None, false, [], false)

  datatype Event = ReplicationStart | StreamingStart | Commands(batch: Group)

  predicate IsStart(t: Tagged) {
    t.command.Set? && t.command.key == TX_KEY
  }

  predicate IsEnd(t: Tagged) {
    t.command.Del? && TX_KEY in t.command.keys
  }

  // ----- Transitions -----

  /** The store that commands go to. */
  function Target(s: Proj): seq<Group> {
    if s.incoming.Some? then s.incoming.value else s.current
  }

  function WithTarget(s: Proj, groups: seq<Group>): Proj {
    if s.incoming.Some? then s.(incoming := Some(groups)) else s.(current := groups)
  }

  /** Commits the buffer, in arrival order, as one group. */
  function Flush(s: Proj): Proj {
    if s.buffer == [] then s else WithTarget(s, Target(s) + [Reverse(s.buffer)]).(buffer := [])
  }

  function Process(s: Proj, t: Tagged): Proj {
    if IsStart(t) then Flush(s).(inTx := true, buffer := [t])
    else if IsEnd(t) then Flush(s.(buffer := [t] + s.buffer)).(inTx := false)
    else s.(buffer := [t] + s.buffer)
  }

  function ProcessAll(s: Proj, batch: Group): Proj
    decreases |batch|
  {
    if batch == [] then s
    else Process(ProcessAll(s, batch[..|batch| - 1]), batch[|batch| - 1])
  }

  function HandleCommands(s: Proj, batch: Group): Proj {
    var s' := ProcessAll(s, batch);
    if s'.inTx then s' else Flush(s')
  }

  function HandleReplicationStart(s: Proj): Proj {
    s.(incoming := Some([]), buffer := [], inTx := false)
  }

  /** The caller guarantees that a replication start came before. */
  function HandleStreamingStart(s: Proj): Proj
    requires s.incoming.Some?
  {
    s.(current := s.incoming.value, incoming := None, ready := true)
  }

  predicate Enabled(s: Proj, e: Event) {
    e.StreamingStart? ==> s.incoming.Some?
  }

  function Next(s: Proj, e: Event): Proj
    requires Enabled(s, e)
  {
    match e
    case ReplicationStart => HandleReplicationStart(s)
    case StreamingStart => HandleStreamingStart(s)
    case Commands(batch) => HandleCommands(s, batch)
  }

  /** A run from the initial state in which every event is enabled. */
  predicate IsRun(events: seq<Event>)
    decreases |events|, 0
  {
    events == [] || (IsRun(events[..|events| - 1]) && Enabled(After(events[..|events| - 1]), events[|events| - 1]))
  }

  function After(events: seq<Event>): Proj
    requires IsRun(events)
    decreases |events|, 1
  {
    if events == [] then INITIAL else Next(After(events[..|events| - 1]), events[|events| - 1])
  }

  // ----- What was received -----

  /** The commands received since the last replication start, however they were batched. */
  function Received(events: seq<Event>): Group
    decreases |events|
  {
    if events == [] then []
    else
      match events[|events| - 1]
      case ReplicationStart => []
      case StreamingStart => Received(events[..|events| - 1])
      case Commands(batch) => Received(events[..|events| - 1]) + batch
  }

  /** Whether a transaction is open after `cmds`. */
  predicate Open(cmds: Group)
    decreases |cmds|
  {
    cmds != [] &&
      var last := cmds[|cmds| - 1];
      IsStart(last) || (!IsEnd(last) && Open(cmds[..|cmds| - 1]))
  }

  /** How many commands come before the transaction that is still open; all if there is none. */
  function Settled(cmds: Group): (n: nat)
    ensures n <= |cmds|
    decreases |cmds|
  {
    if !Open(cmds) then |cmds|
    else if IsStart(cmds[|cmds| - 1]) then |cmds| - 1
    else Settled(cmds[..|cmds| - 1])
  }

  function Flatten(groups: seq<Group>): Group
    decreases |groups|
  {
    if groups == [] then [] else Flatten(groups[..|groups| - 1]) + groups[|groups| - 1]
  }

  /** A cut that splits no transaction: none is open there, or a new one starts right after it. */
  predicate CleanCut(cmds: Group, n: nat) {
    n <= |cmds| && (Open(cmds[..n]) ==> n < |cmds| && IsStart(cmds[n]))
  }

  /** Every prefix of the committed groups is a clean cut of `cmds`. */
  ghost predicate Atomic(groups: seq<Group>, cmds: Group) {
    forall k :: 0 <= k <= |groups| ==>
      var n := |Flatten(groups[..k])|;
      CleanCut(cmds, n) && Flatten(groups[..k]) == cmds[..n]
  }

  /** What holds while a batch is processed, `cmds` being all commands received so far. */
  ghost predicate Tracks(s: Proj, cmds: Group) {
    && Flatten(Target(s)) + Reverse(s.buffer) == cmds
    && s.inTx == Open(cmds)
    && (s.inTx ==> |Flatten(Target(s))| == Settled(cmds))
    && Atomic(Target(s), cmds)
  }

  /** What holds between events: also that nothing settled is held back. */
  ghost predicate InStep(s: Proj, cmds: Group) {
    && Tracks(s, cmds)
    && (!s.inTx ==> s.buffer == [])
  }

  // ----- Small facts -----

  lemma FlattenSnoc(groups: seq<Group>, g: Group)
    ensures Flatten(groups + [g]) == Flatten(groups) + g
  {
    assert (groups + [g])[..|groups|] == groups;
  }

  lemma OpenSnoc(cmds: Group, t: Tagged)
    ensures Open(cmds + [t]) <==> IsStart(t) || (!IsEnd(t) && Open(cmds))
    ensures IsStart(t) ==> Settled(cmds + [t]) == |cmds|
    ensures !IsStart(t) && Open(cmds + [t]) ==> Settled(cmds + [t]) == Settled(cmds)
  {
    assert (cmds + [t])[..|cmds|] == cmds;
  }

  lemma Associate(a: Group, b: Group, t: Tagged)
    ensures a + (b + [t]) == a + b + [t]
  {
  }

  // ----- Groups stay clean as commands arrive -----

  lemma CleanCutMore(cmds: Group, more: Group, n: nat)
    requires CleanCut(cmds, n)
    ensures CleanCut(cmds + more, n) && (cmds + more)[..n] == cmds[..n]
  {
    assert (cmds + more)[..n] == cmds[..n];
  }

  lemma AtomicMore(groups: seq<Group>, cmds: Group, more: Group)
    requires Atomic(groups, cmds)
    ensures Atomic(groups, cmds + more)
  {
    forall k | 0 <= k <= |groups|
      ensures var n := |Flatten(groups[..k])|; CleanCut(cmds + more, n) && Flatten(groups[..k]) == (cmds + more)[..n]
    {
      CleanCutMore(cmds, more, |Flatten(groups[..k])|);
    }
  }

  lemma AtomicSnoc(groups: seq<Group>, g: Group, cmds: Group)
    requires Atomic(groups, cmds)
    requires var n := |Flatten(groups + [g])|; CleanCut(cmds, n) && Flatten(groups + [g]) == cmds[..n]
    ensures Atomic(groups + [g], cmds)
  {
    var all := groups + [g];
    assert all[..|all|] == all;
    forall k | 0 <= k <= |groups|
      ensures all[..k] == groups[..k]
    {
    }
  }

  /** Committing the buffer where the cut is clean keeps everything. */
  lemma FlushTracks(s: Proj, done: Group, cmds: Group)
    requires Flatten(Target(s)) + Reverse(s.buffer) == done && done <= cmds && CleanCut(cmds, |done|)
    requires Atomic(Target(s), cmds)
    ensures Flatten(Target(Flush(s))) == done && Flush(s).buffer == [] && Atomic(Target(Flush(s)), cmds)
  {
    if s.buffer == [] {
      assert done + [] == done;
    } else {
      FlattenSnoc(Target(s), Reverse(s.buffer));
      AtomicSnoc(Target(s), Reverse(s.buffer), cmds);
    }
  }

  // ----- One command -----

  lemma StartTracks(s: Proj, cmds: Group, t: Tagged)
    requires Tracks(s, cmds) && IsStart(t)
    ensures Tracks(Process(s, t), cmds + [t])
  {
    OpenSnoc(cmds, t);
    AtomicMore(Target(s), cmds, [t]);
    assert (cmds + [t])[..|cmds|] == cmds;
    FlushTracks(s, cmds, cmds + [t]);
    assert Reverse([t]) == [t];
  }

  lemma EndTracks(s: Proj, cmds: Group, t: Tagged)
    requires Tracks(s, cmds) && IsEnd(t)
    ensures Tracks(Process(s, t), cmds + [t]) && Process(s, t).buffer == []
  {
    OpenSnoc(cmds, t);
    AtomicMore(Target(s), cmds, [t]);
    ReverseCons(t, s.buffer);
    Associate(Flatten(Target(s)), Reverse(s.buffer), t);
    assert (cmds + [t])[..|cmds + [t]|] == cmds + [t];
    FlushTracks(s.(buffer := [t] + s.buffer), cmds + [t], cmds + [t]);
    assert cmds + [t] + [] == cmds + [t];
  }

  lemma OtherTracks(s: Proj, cmds: Group, t: Tagged)
    requires Tracks(s, cmds) && !IsStart(t) && !IsEnd(t)
    ensures Tracks(Process(s, t), cmds + [t])
  {
    OpenSnoc(cmds, t);
    AtomicMore(Target(s), cmds, [t]);
    ReverseCons(t, s.buffer);
    Associate(Flatten(Target(s)), Reverse(s.buffer), t);
  }

  lemma ProcessTracks(s: Proj, cmds: Group, t: Tagged)
    requires Tracks(s, cmds)
    ensures Tracks(Process(s, t), cmds + [t])
  {
    if IsStart(t) {
      StartTracks(s, cmds, t);
    } else if IsEnd(t) {
      EndTracks(s, cmds, t);
    } else {
      OtherTracks(s, cmds, t);
    }
  }

  lemma {:induction false} ProcessAllTracks(s: Proj, cmds: Group, batch: Group)
    requires Tracks(s, cmds)
    ensures Tracks(ProcessAll(s, batch), cmds + batch)
    decreases |batch|
  {
    if batch == [] {
      assert cmds + batch == cmds;
    } else {
      var init, t := batch[..|batch| - 1], batch[|batch| - 1];
      ProcessAllTracks(s, cmds, init);
      ProcessTracks(ProcessAll(s, init), cmds + init, t);
      assert batch == init + [t];
      Associate(cmds, init, t);
    }
  }

  lemma BatchInStep(s: Proj, cmds: Group, batch: Group)
    requires InStep(s, cmds)
    ensures InStep(HandleCommands(s, batch), cmds + batch)
  {
    ProcessAllTracks(s, cmds, batch);
    var all, s' := cmds + batch, ProcessAll(s, batch);
    if !s'.inTx {
      assert all[..|all|] == all;
      FlushTracks(s', all, all);
      assert all + [] == all;
    }
  }

  // ----- Whole runs -----

  /**
   Conservation and atomicity in every reachable state, for any grouping into batches: committed
   groups and buffer together are what was received since the last replication start; the buffer
   holds exactly the open transaction; no group boundary splits a transaction.
   */
  lemma {:induction false} RunInStep(events: seq<Event>)
    requires IsRun(events)
    ensures InStep(After(events), Received(events))
    decreases |events|
  {
    if events != [] {
      var init, e := events[..|events| - 1], events[|events| - 1];
      RunInStep(init);
      if e.Commands? {
        BatchInStep(After(init), Received(init), e.batch);
      }
    }
  }

  /** So the committed commands are a function of the received ones. */
  lemma CommittedExactly(events: seq<Event>)
    requires IsRun(events)
    ensures var s, cmds := After(events), Received(events);
      && Flatten(Target(s)) == cmds[..Settled(cmds)]
      && Reverse(s.buffer) == cmds[Settled(cmds)..]
      && s.inTx == Open(cmds)
  {
    RunInStep(events);
    var s, cmds := After(events), Received(events);
    var done := Flatten(Target(s));
    assert (done + Reverse(s.buffer))[..|done|] == done;
    assert (done + Reverse(s.buffer))[|done|..] == Reverse(s.buffer);
  }

  /** How commands are grouped into batches does not matter. */
  lemma BatchingIrrelevant(events: seq<Event>, events': seq<Event>)
    requires IsRun(events) && IsRun(events') && Received(events) == Received(events')
    ensures var s, s' := After(events), After(events');
      Flatten(Target(s)) == Flatten(Target(s')) && s.buffer == s'.buffer && s.inTx == s'.inTx
  {
    CommittedExactly(events);
    CommittedExactly(events');
    ReverseInjective(After(events).buffer, After(events').buffer);
  }

  // ----- What readers see -----

  /** Whether a snapshot is being loaded. */
  predicate Loading(events: seq<Event>)
    decreases |events|
  {
    events != [] &&
      match events[|events| - 1]
      case ReplicationStart => true
      case StreamingStart => false
      case Commands(_) => Loading(events[..|events| - 1])
  }

  /** The commands behind the readable store: while a snapshot is loaded, those before it started. */
  function Served(events: seq<Event>): Group
    decreases |events|
  {
    if events == [] then []
    else
      var init := events[..|events| - 1];
      match events[|events| - 1]
      case ReplicationStart => Served(init)
      case StreamingStart => Received(init)
      case Commands(batch) => if Loading(init) then Served(init) else Served(init) + batch
  }

  lemma {:induction false} LoadingAside(events: seq<Event>)
    requires IsRun(events)
    ensures Loading(events) <==> After(events).incoming.Some?
    ensures !Loading(events) ==> Served(events) == Received(events)
    decreases |events|
  {
    if events != [] {
      var init, e := events[..|events| - 1], events[|events| - 1];
      LoadingAside(init);
      if e.Commands? {
        FieldsKept(After(init), e.batch);
      }
    }
  }

  /** A batch touches only the store it goes to. */
  lemma {:induction false} ProcessAllKeeps(s: Proj, batch: Group)
    ensures var s' := ProcessAll(s, batch);
      s'.incoming.Some? == s.incoming.Some? && s'.ready == s.ready && (s.incoming.Some? ==> s'.current == s.current)
    decreases |batch|
  {
    if batch != [] {
      ProcessAllKeeps(s, batch[..|batch| - 1]);
    }
  }

  lemma FieldsKept(s: Proj, batch: Group)
    ensures var s' := HandleCommands(s, batch);
      s'.incoming.Some? == s.incoming.Some? && s'.ready == s.ready && (s.incoming.Some? ==> s'.current == s.current)
  {
    ProcessAllKeeps(s, batch);
  }

  /** Readers only ever see the result of commands up to a clean cut, also after every single commit. */
  lemma {:induction false} ReadersSeeCleanCuts(events: seq<Event>)
    requires IsRun(events)
    ensures Atomic(After(events).current, Served(events))
    decreases |events|
  {
    LoadingAside(events);
    if !Loading(events) {
      RunInStep(events);
    } else {
      var init, e := events[..|events| - 1], events[|events| - 1];
      ReadersSeeCleanCuts(init);
      LoadingAside(init);
      if e.Commands? {
        FieldsKept(After(init), e.batch);
      }
    }
  }

  /** From a replication start to the next streaming start the readable store does not change. */
  lemma {:induction false} ReadableFrozen(before: seq<Event>, loading: seq<Event>)
    requires IsRun(before + [ReplicationStart] + loading)
    requires forall e :: e in loading ==> !e.StreamingStart?
    ensures IsRun(before) && Loading(before + [ReplicationStart] + loading)
    ensures var s, s' := After(before), After(before + [ReplicationStart] + loading);
      s'.current == s.current && s'.ready == s.ready
    decreases |loading|
  {
    var events := before + [ReplicationStart] + loading;
    if loading == [] {
      assert events[..|events| - 1] == before;
    } else {
      var init := loading[..|loading| - 1];
      assert events[..|events| - 1] == before + [ReplicationStart] + init;
      ReadableFrozen(before, init);
      LoadingAside(before + [ReplicationStart] + init);
      var last := events[|events| - 1];
      assert last == loading[|loading| - 1] && last in loading;
      if last.Commands? {
        FieldsKept(After(before + [ReplicationStart] + init), last.batch);
      }
    }
  }

  /** The swap makes readable exactly the settled commands of the new replication, all at once. */
  lemma SwapServesSnapshot(events: seq<Event>)
    requires IsRun(events) && Enabled(After(events), StreamingStart)
    ensures IsRun(events + [StreamingStart])
    ensures var s, cmds := After(events + [StreamingStart]), Received(events);
      s.ready && s.incoming == None && Flatten(s.current) == cmds[..Settled(cmds)]
  {
    assert (events + [StreamingStart])[..|events|] == events;
    CommittedExactly(events);
  }

  // ----- Notifications -----

  /** What is committed while one command is processed. */
  function Flushes(s: Proj, t: Tagged): Group {
    if IsStart(t) then Reverse(s.buffer)
    else if IsEnd(t) then Reverse([t] + s.buffer)
    else []
  }

  function FlushesAll(s: Proj, batch: Group): Group
    decreases |batch|
  {
    if batch == [] then []
    else
      var init := batch[..|batch| - 1];
      FlushesAll(s, init) + Flushes(ProcessAll(s, init), batch[|batch| - 1])
  }

  /** What is committed while a batch is handled, the final flush included. */
  function BatchFlushes(s: Proj, batch: Group): Group {
    FlushesAll(s, batch) + if ProcessAll(s, batch).inTx then [] else Reverse(ProcessAll(s, batch).buffer)
  }

  /** What watchers hear of commands that are committed. */
  function Notices(ready: bool, committed: Group): Group {
    if ready then committed else []
  }

  lemma NoticesAppend(ready: bool, told: Group, a: Group, b: Group)
    ensures told + Notices(ready, a) + Notices(ready, b) == told + Notices(ready, a + b)
  {
  }

  lemma FlushesSnoc(s: Proj, batch: Group, i: nat)
    requires i < |batch|
    ensures FlushesAll(s, batch[..i + 1]) == FlushesAll(s, batch[..i]) + Flushes(ProcessAll(s, batch[..i]), batch[i])
    ensures ProcessAll(s, batch[..i + 1]) == Process(ProcessAll(s, batch[..i]), batch[i])
  {
    assert batch[..i + 1][..i] == batch[..i];
  }

  lemma FlushCommits(s: Proj)
    ensures Flatten(Target(Flush(s))) == Flatten(Target(s)) + Reverse(s.buffer)
  {
    if s.buffer != [] {
      FlattenSnoc(Target(s), Reverse(s.buffer));
    }
  }

  lemma ProcessCommits(s: Proj, t: Tagged)
    ensures Flatten(Target(Process(s, t))) == Flatten(Target(s)) + Flushes(s, t)
  {
    if IsStart(t) {
      FlushCommits(s);
    } else if IsEnd(t) {
      FlushCommits(s.(buffer := [t] + s.buffer));
    }
  }

  lemma {:induction false} ProcessAllCommits(s: Proj, batch: Group)
    ensures Flatten(Target(ProcessAll(s, batch))) == Flatten(Target(s)) + FlushesAll(s, batch)
    decreases |batch|
  {
    if batch != [] {
      var init, t := batch[..|batch| - 1], batch[|batch| - 1];
      ProcessAllCommits(s, init);
      ProcessCommits(ProcessAll(s, init), t);
    }
  }

  /** Everything that a batch commits, and nothing else, is announced: once, in order. */
  lemma BatchCommits(s: Proj, batch: Group)
    ensures Flatten(Target(HandleCommands(s, batch))) == Flatten(Target(s)) + BatchFlushes(s, batch)
  {
    ProcessAllCommits(s, batch);
    FlushCommits(ProcessAll(s, batch));
  }

  /** Readable from the first streaming start on, for ever. */
  lemma {:induction false} ReadyExactly(events: seq<Event>)
    requires IsRun(events)
    ensures After(events).ready <==> StreamingStart in events
    decreases |events|
  {
    if events != [] {
      var init, e := events[..|events| - 1], events[|events| - 1];
      ReadyExactly(init);
      assert events == init + [e];
      if e.Commands? {
        FieldsKept(After(init), e.batch);
      }
    }
  }

  /**
   In any run, when a batch commits something: watchers hear of commands that readers cannot see
   exactly while a snapshot is loaded that is not the first one.
   */
  lemma NoticesUnreadableExactly(events: seq<Event>, batch: Group)
    requires IsRun(events) && BatchFlushes(After(events), batch) != []
    ensures var s, s' := After(events), HandleCommands(After(events), batch);
      Notices(s.ready, BatchFlushes(s, batch)) != [] && s'.current == s.current <==> Loading(events) && StreamingStart in events
  {
    var s := After(events);
    ReadyExactly(events);
    LoadingAside(events);
    FieldsKept(s, batch);
    BatchCommits(s, batch);
  }

  /** For instance any command in the second synchronisation, before its snapshot is complete. */
  lemma SecondSnapshotAnnounced(t: Tagged)
    requires !IsStart(t) && !IsEnd(t)
    ensures var events := [ReplicationStart, StreamingStart, ReplicationStart];
      && IsRun(events)
      && Notices(After(events).ready, BatchFlushes(After(events), [t])) == [t]
      && HandleCommands(After(events), [t]).current == [] && HandleCommands(After(events), [t]).incoming == Some([[t]])
  {
    var e1, e2, e3 := [ReplicationStart], [ReplicationStart, StreamingStart], [ReplicationStart, StreamingStart, ReplicationStart];
    assert e1[..0] == [] && e2[..1] == e1 && e3[..2] == e2;
    assert After(e1) == Proj([], Some([]), false, [], false);
    assert After(e2) == Proj([], None, true, [], false);
    var s := After(e3);
    assert s == Proj([], Some([]), true, [], false);
    assert [t][..0] == [];
    assert ProcessAll(s, [t]) == Process(s, t);
    var s' := ProcessAll(s, [t]);
    ReverseCons(t, []);
    assert s'.buffer == [t] && Reverse([t]) == [t];
    assert FlushesAll(s, [t]) == [];
    assert Target(s') == [] && [] + [[t]] == [[t]];
  }

  // ----- What a store holds -----

  /** Unknown commands are not applied; FLUSHALL and SWAPDB do not belong to a database. */
  function Convert(t: Tagged): Option<Tagged> {
    match t.command
    case FlushAll => Some(Tagged(0, t.command))
    case SwapDb(_, _) => Some(Tagged(0, t.command))
    case Generic(_) => None
    case _ => Some(t)
  }

  function ConvertAll(g: Group): Group
    decreases |g|
  {
    if g == [] then []
    else ConvertAll(g[..|g| - 1]) + match Convert(g[|g| - 1]) case None => [] case Some(t) => [t]
  }

  /** Contents after some commands, and whether all of them were executed. */
  datatype Replayed<S> = Replayed(contents: S, ok: bool)

  /**
   Executing commands one by one; `exec` is one command of the storage engine, None if it panics.
   A panic changes nothing and ends the execution.
   */
  function Replay<S>(exec: (S, Tagged) -> Option<S>, contents: S, g: Group): Replayed<S>
    decreases |g|
  {
    if g == [] then Replayed(contents, true)
    else
      var r := Replay(exec, contents, g[..|g| - 1]);
      if r.ok then Execute(exec, r.contents, g[|g| - 1]) else r
  }

  function Execute<S>(exec: (S, Tagged) -> Option<S>, contents: S, t: Tagged): Replayed<S> {
    match exec(contents, t)
    case None => Replayed(contents, false)
    case Some(next) => Replayed(next, true)
  }

  lemma {:induction false} ReplayAppend<S>(exec: (S, Tagged) -> Option<S>, contents: S, a: Group, b: Group)
    ensures var r := Replay(exec, contents, a);
      Replay(exec, contents, a + b) == if r.ok then Replay(exec, r.contents, b) else r
    decreases |b|
  {
    if b == [] {
      assert a + b == a;
    } else {
      var init, t := b[..|b| - 1], b[|b| - 1];
      ReplayAppend(exec, contents, a, init);
      assert (a + b)[..|a + b| - 1] == a + init;
    }
  }

  lemma {:induction false} ConvertAppend(a: Group, b: Group)
    ensures ConvertAll(a + b) == ConvertAll(a) + ConvertAll(b)
    decreases |b|
  {
    if b == [] {
      assert a + b == a;
    } else {
      ConvertAppend(a, b[..|b| - 1]);
      assert (a + b)[..|a + b| - 1] == a + b[..|b| - 1];
    }
  }

  /** What one command becomes: nothing if it is unknown. */
  function Becomes(c: Tagged): Group {
    if c.command.Generic? then []
    else [Tagged(if c.command.FlushAll? || c.command.SwapDb? then 0 else c.db, c.command)]
  }

  lemma ConvertOne(c: Tagged)
    ensures ConvertAll([c]) == Becomes(c)
  {
    assert [c][..0] == [];
  }

  /** Conversion drops exactly the unknown commands and keeps the others in their places. */
  lemma ConvertExactly(before: Group, c: Tagged, after: Group)
    ensures ConvertAll(before + [c] + after) == ConvertAll(before) + Becomes(c) + ConvertAll(after)
  {
    ConvertAppend(before + [c], after);
    ConvertAppend(before, [c]);
    ConvertOne(c);
  }

  // ----- Panics -----

  /** What a store holds after these commands were sent to it. */
  function Runs<S>(exec: (S, Tagged) -> Option<S>, empty: S, cmds: Group): Replayed<S> {
    Replay(exec, empty, ConvertAll(cmds))
  }

  lemma RunsAppend<S>(exec: (S, Tagged) -> Option<S>, empty: S, a: Group, b: Group)
    ensures var r := Runs(exec, empty, a);
      Runs(exec, empty, a + b) == if r.ok then Replay(exec, r.contents, ConvertAll(b)) else r
  {
    ConvertAppend(a, b);
    ReplayAppend(exec, empty, ConvertAll(a), ConvertAll(b));
  }

  lemma {:induction false} FlattenPrefix(groups: seq<Group>, n: nat)
    requires n <= |groups|
    ensures Flatten(groups[..n]) <= Flatten(groups)
    decreases |groups|
  {
    if n < |groups| {
      var init := groups[..|groups| - 1];
      FlattenPrefix(init, n);
      assert init[..n] == groups[..n];
    } else {
      assert groups[..n] == groups;
    }
  }

  /** After a panic nothing more is executed. */
  lemma PanicStays<S>(exec: (S, Tagged) -> Option<S>, empty: S, groups: seq<Group>, all: seq<Group>)
    requires groups <= all && !Runs(exec, empty, Flatten(groups)).ok
    ensures Runs(exec, empty, Flatten(all)) == Runs(exec, empty, Flatten(groups))
  {
    FlattenPrefix(all, |groups|);
    assert all[..|groups|] == groups;
    var g := Flatten(groups);
    assert Flatten(all) == g + Flatten(all)[|g|..];
    RunsAppend(exec, empty, g, Flatten(all)[|g|..]);
  }

  /** How many commands have taken effect: all, or those before the one that panics. */
  function Effective<S>(exec: (S, Tagged) -> Option<S>, empty: S, cmds: Group): (n: nat)
    ensures n <= |cmds|
    decreases |cmds|
  {
    if Runs(exec, empty, cmds).ok then |cmds| else assert cmds != []; Effective(exec, empty, cmds[..|cmds| - 1])
  }

  lemma RunsSnoc<S>(exec: (S, Tagged) -> Option<S>, empty: S, init: Group, t: Tagged)
    requires Runs(exec, empty, init).ok
    ensures Runs(exec, empty, init + [t])
      == if Becomes(t) == [] then Runs(exec, empty, init) else Execute(exec, Runs(exec, empty, init).contents, Becomes(t)[0])
  {
    var done := ConvertAll(init);
    assert (init + [t])[..|init|] == init;
    assert done + [] == done;
    assert Becomes(t) != [] ==> (done + Becomes(t))[..|done|] == done;
  }

  /** The store holds the result of the effective commands; the next one, if any, panics. */
  lemma {:induction false} EffectiveExactly<S>(exec: (S, Tagged) -> Option<S>, empty: S, cmds: Group)
    ensures var n := Effective(exec, empty, cmds);
      && Runs(exec, empty, cmds[..n]) == Replayed(Runs(exec, empty, cmds).contents, true)
      && (n < |cmds| <==> !Runs(exec, empty, cmds).ok)
      && (n < |cmds| ==> !Runs(exec, empty, cmds[..n + 1]).ok)
    decreases |cmds|
  {
    if Runs(exec, empty, cmds).ok {
      assert cmds[..|cmds|] == cmds;
    } else {
      var init := cmds[..|cmds| - 1];
      EffectiveExactly(exec, empty, init);
      var n := Effective(exec, empty, init);
      assert init[..n] == cmds[..n];
      assert cmds == init + [cmds[|init|]];
      if n == |init| {
        assert init[..n] == init && cmds[..n + 1] == cmds;
        RunsSnoc(exec, empty, init, cmds[|init|]);
      } else {
        assert init[..n + 1] == cmds[..n + 1];
        RunsAppend(exec, empty, init, [cmds[|init|]]);
      }
    }
  }

  lemma {:induction false} EffectiveIs<S>(exec: (S, Tagged) -> Option<S>, empty: S, cmds: Group, n: nat)
    requires n < |cmds| && Runs(exec, empty, cmds[..n]).ok && !Runs(exec, empty, cmds[..n + 1]).ok
    ensures Effective(exec, empty, cmds) == n && Runs(exec, empty, cmds) == Runs(exec, empty, cmds[..n + 1])
    decreases |cmds|
  {
    var init := cmds[..|cmds| - 1];
    if n == |init| {
      assert cmds[..n + 1] == cmds;
    } else {
      assert init[..n] == cmds[..n] && init[..n + 1] == cmds[..n + 1];
      EffectiveIs(exec, empty, init, n);
      assert cmds == init + [cmds[|init|]];
      RunsAppend(exec, empty, init, [cmds[|init|]]);
    }
  }

  /** The command that panics is inside a transaction, after the one that opens it. */
  predicate PanicsInside<S>(exec: (S, Tagged) -> Option<S>, empty: S, cmds: Group) {
    var n := Effective(exec, empty, cmds);
    n < |cmds| && Open(cmds[..n]) && !IsStart(cmds[n])
  }

  /**
   What readers really see, panics included: the result of a prefix of the received commands, which
   splits no transaction exactly if no committed command panics inside one.
   */
  lemma VisibleExactly<S>(events: seq<Event>, exec: (S, Tagged) -> Option<S>, empty: S)
    requires IsRun(events)
    ensures var served, sent := Served(events), Flatten(After(events).current);
      var n := Effective(exec, empty, sent);
      && sent <= served
      && Runs(exec, empty, served[..n]) == Replayed(Runs(exec, empty, sent).contents, true)
      && (CleanCut(served, n) <==> !PanicsInside(exec, empty, sent))
  {
    ReadersSeeCleanCuts(events);
    var groups, served := After(events).current, Served(events);
    var sent := Flatten(groups);
    var n := Effective(exec, empty, sent);
    assert groups[..|groups|] == groups;
    assert sent == served[..|sent|];
    EffectiveExactly(exec, empty, sent);
    assert sent[..n] == served[..n];
  }

  /** A storage engine that records what it executes and panics at one command. */
  function Recorder(bad: Tagged): (Group, Tagged) -> Option<Group> {
    (done: Group, t: Tagged) => if t == bad then None else Some(done + [t])
  }

  lemma RecordOne(bad: Tagged, done: Group, t: Tagged)
    requires Runs(Recorder(bad), [], done) == Replayed(done, true) && Becomes(t) == [t]
    ensures Runs(Recorder(bad), [], done + [t]) == if t == bad then Replayed(done, false) else Replayed(done + [t], true)
  {
    RunsSnoc(Recorder(bad), [], done, t);
  }

  /** The first command that panics ends everything. */
  lemma RecordUpTo(bad: Tagged, before: Group, after: Group)
    requires Runs(Recorder(bad), [], before) == Replayed(before, true) && Becomes(bad) == [bad]
    ensures Runs(Recorder(bad), [], before + [bad] + after) == Replayed(before, false)
    ensures Effective(Recorder(bad), [], before + [bad] + after) == |before|
  {
    var cmds := before + [bad] + after;
    RecordOne(bad, before, bad);
    assert cmds[..|before|] == before && cmds[..|before| + 1] == before + [bad];
    EffectiveIs(Recorder(bad), [], cmds, |before|);
  }

  /** If the transaction is open before the command that panics, readers see half of it. */
  lemma PanicInOpen(bad: Tagged, before: Group, after: Group)
    requires Runs(Recorder(bad), [], before) == Replayed(before, true) && Becomes(bad) == [bad]
    requires Open(before) && !IsStart(bad)
    ensures PanicsInside(Recorder(bad), [], before + [bad] + after)
  {
    RecordUpTo(bad, before, after);
    var cmds := before + [bad] + after;
    assert cmds[..|before|] == before && cmds[|before|] == bad;
  }

  /** For instance a transaction whose third command panics: readers see its first two. */
  lemma PanicSplits(start: Tagged, a: Tagged, b: Tagged, end: Tagged)
    requires IsStart(start) && IsEnd(end) && a.command.Op? && b.command.Op? && a != b
    ensures Runs(Recorder(b), [], [start, a] + [b] + [end]) == Replayed([start, a], false)
    ensures PanicsInside(Recorder(b), [], [start, a] + [b] + [end])
  {
    var none: Group := [];
    RecordOne(b, none, start);
    RecordOne(b, [start], a);
    assert none + [start] == [start] && [start] + [a] == [start, a];
    RecordUpTo(b, [start, a], [end]);
    OpenSnoc(none, start);
    OpenSnoc([start], a);
    PanicInOpen(b, [start, a], [end]);
  }
}
