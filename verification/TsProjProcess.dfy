/** The projection as a process with mutable stores; it refines the transitions of `TsProj`. */
module TsProjProcess {
  import opened Bytes
  import opened Seqs
  import opened TsProj

  /** `means` says what a store holds after some groups. */
  ghost predicate Describes<S(!new)>(means: seq<Group> -> Replayed<S>, exec: (S, Tagged) -> Option<S>, empty: S) {
    forall groups: seq<Group> {:trigger Runs(exec, empty, Flatten(groups))} :: means(groups) == Runs(exec, empty, Flatten(groups))
  }

  /**
   A store behind one lock: other processes see `contents` only between calls.  A command that
   panics poisons the lock; readers take it all the same.
   */
  class Store<S(!new)> {
    const exec: (S, Tagged) -> Option<S>
    const empty: S
    ghost const means: seq<Group> -> Replayed<S>
    var contents: S
    var poisoned: bool
    /** The groups that were sent, the one that panicked included. */
    ghost var log: seq<Group>

    ghost predicate Valid()
      reads this
    {
      Describes(means, exec, empty) && means(log) == Replayed(contents, !poisoned)
    }

    constructor (exec: (S, Tagged) -> Option<S>, empty: S)
      ensures Valid() && log == [] && !poisoned && this.exec == exec && this.empty == empty
    {
      this.exec, this.empty, contents, poisoned, log := exec, empty, empty, false, [];
      means := groups => Runs(exec, empty, Flatten(groups));
    }

    /** `tx`: all commands under one lock, up to one that panics. */
    method Tx(cmds: Group, ghost group: Group) returns (ok: bool)
      requires Valid() && !poisoned && cmds == ConvertAll(group)
      modifies this
      ensures Valid() && log == old(log) + [group] && ok == !poisoned
    {
      FlattenSnoc(log, group);
      RunsAppend(exec, empty, Flatten(log), group);
      log := log + [group];
      for i := 0 to |cmds|
        invariant Replay(exec, old(contents), cmds[..i]) == Replayed(contents, true)
        invariant log == old(log) + [group] && !poisoned
      {
        assert cmds[..i + 1][..i] == cmds[..i];
        var next := exec(contents, cmds[i]);
        if next.None? {
          Interrupted(exec, old(contents), cmds, i);
          poisoned := true;
          return false;
        }
        contents := next.value;
      }
      assert cmds[..|cmds|] == cmds;
      ok := true;
    }

    /** Sends the supported commands of a group, if there are any. */
    method Commit(group: Group) returns (ok: bool)
      requires Valid() && !poisoned
      modifies this
      ensures Valid() && log == old(log) + [group] && ok == !poisoned
    {
      var tuples := ConvertAll(group);
      if tuples != [] {
        ok := Tx(tuples, group);
      } else {
        FlattenSnoc(log, group);
        RunsAppend(exec, empty, Flatten(log), group);
        log := log + [group];
        ok := true;
      }
    }
  }

  lemma Interrupted<S>(exec: (S, Tagged) -> Option<S>, contents: S, cmds: Group, i: nat)
    requires i < |cmds| && Replay(exec, contents, cmds[..i + 1]) == Replayed(Replay(exec, contents, cmds[..i]).contents, false)
    ensures Replay(exec, contents, cmds) == Replay(exec, contents, cmds[..i + 1])
  {
    ReplayAppend(exec, contents, cmds[..i + 1], cmds[i + 1..]);
    assert cmds == cmds[..i + 1] + cmds[i + 1..];
  }

  /** What the registry hands to readers. */
  class Handle<S(!new)> {
    var store: Store<S>
    var ready: bool

    constructor (store: Store<S>, ready: bool)
      ensures this.store == store && this.ready == ready
    {
      this.store, this.ready := store, ready;
    }

    /** A read works on a poisoned lock, too: it sees what was executed before the panic. */
    method Read() returns (r: Option<S>)
      requires store.Valid()
      ensures r == if ready then Some(Runs(store.exec, store.empty, Flatten(store.log)).contents) else None
    {
      assert store.means(store.log) == Runs(store.exec, store.empty, Flatten(store.log));
      r := if ready then Some(store.contents) else None;
    }
  }

  class Process<S(!new)> {
    const exec: (S, Tagged) -> Option<S>
    const empty: S
    var tsStorage: Store<S>
    var newTsStorage: Store?<S>
    var ready: bool
    var buffer: Group
    var inTx: bool
    var registered: Handle<S>
    /** Commands that watchers were told about, in order. */
    var notified: Group

    ghost predicate Valid()
      reads this, tsStorage, newTsStorage, registered
    {
      && Sound(tsStorage) && !tsStorage.poisoned
      && (newTsStorage != null ==> Sound(newTsStorage) && !newTsStorage.poisoned)
      && newTsStorage != tsStorage
      && registered.store == tsStorage && registered.ready == ready
    }

    ghost predicate Sound(store: Store<S>)
      reads store
    {
      store.Valid() && store.exec == exec && store.empty == empty
    }

    /** The store that commands go to. */
    function TargetStore(): Store<S>
      reads this
    {
      if newTsStorage != null then newTsStorage else tsStorage
    }

    ghost function View(): Proj
      reads this, tsStorage, newTsStorage
    {
      Proj(tsStorage.log, if newTsStorage != null then Some(newTsStorage.log) else None, ready, buffer, inTx)
    }

    constructor (exec: (S, Tagged) -> Option<S>, empty: S)
      ensures Valid() && View() == INITIAL && notified == []
      ensures fresh(tsStorage)
    {
      this.exec, this.empty := exec, empty;
      var store := new Store<S>(exec, empty);
      tsStorage, newTsStorage, ready, buffer, inTx, notified := store, null, false, [], false, [];
      registered := new Handle(store, false);
    }

    method HandleReplicationStart()
      requires Valid()
      modifies this
      ensures Valid() && View() == TsProj.HandleReplicationStart(old(View()))
      ensures newTsStorage != null && fresh(newTsStorage)
      ensures tsStorage == old(tsStorage) && registered == old(registered) && notified == old(notified)
    {
      newTsStorage := new Store<S>(exec, empty);
      buffer, inTx := [], false;
    }

    /** The new store becomes the readable one, and the registry hands it out. */
    method HandleStreamingStart()
      requires Valid() && newTsStorage != null
      modifies this
      ensures Valid() && View() == TsProj.HandleStreamingStart(old(View()))
      ensures tsStorage == old(newTsStorage) && fresh(registered) && notified == old(notified)
    {
      tsStorage, newTsStorage, ready := newTsStorage, null, true;
      registered := new Handle(tsStorage, true);
    }

    /** The process has died of a panic; `sent` went to the target store, its last group in part. */
    ghost predicate Crashed(sent: seq<Group>)
      reads this, TargetStore()
    {
      Sound(TargetStore()) && TargetStore().poisoned && TargetStore().log == sent
    }

    /** One group goes to the target store. */
    method CommitGroup(commands: Group) returns (ok: bool)
      requires Valid()
      modifies TargetStore()
      ensures ok ==> Valid() && View() == WithTarget(old(View()), Target(old(View())) + [commands])
      ensures !ok ==> Crashed(Target(old(View())) + [commands])
    {
      if newTsStorage != null {
        ok := newTsStorage.Commit(commands);
      } else {
        ok := tsStorage.Commit(commands);
      }
    }

    /** The buffer goes to the store as one transaction, and watchers hear of it. */
    method FlushTxBuffer() returns (ok: bool)
      requires Valid()
      modifies this`buffer, this`notified, TargetStore()
      ensures ok ==> Valid() && View() == Flush(old(View())) && notified == old(notified) + Notices(ready, Reverse(old(buffer)))
      ensures !ok ==> Crashed(Target(Flush(old(View())))) && notified == old(notified)
    {
      if buffer == [] {
        assert notified + [] == notified;
        return true;
      }
      ghost var was := View();
      var commands := Reverse(buffer);
      ok := CommitGroup(commands);
      ghost var mid := View();
      if !ok {
        return;
      }
      if ready {
        notified := notified + commands;
      }
      buffer := [];
      assert View() == mid.(buffer := []) == Flush(was);
    }

    method ProcessSingleCommand(t: Tagged) returns (ok: bool)
      requires Valid()
      modifies this`buffer, this`inTx, this`notified, TargetStore()
      ensures ok ==> Valid() && View() == TsProj.Process(old(View()), t)
      ensures ok ==> notified == old(notified) + Notices(ready, Flushes(old(View()), t))
      ensures !ok ==> Crashed(Target(TsProj.Process(old(View()), t)))
    {
      ok := true;
      if IsStart(t) {
        ok := FlushTxBuffer();
        if ok {
          inTx, buffer := true, [t];
        }
      } else if IsEnd(t) {
        buffer := [t] + buffer;
        ok := FlushTxBuffer();
        if ok {
          inTx := false;
        }
      } else {
        buffer := [t] + buffer;
      }
    }

    /** Succeeds exactly if no command that the batch commits panics; watchers hear of whole groups only. */
    method HandleCommands(batch: Group) returns (ok: bool)
      requires Valid()
      modifies this`buffer, this`inTx, this`notified, TargetStore()
      ensures ok <==> Runs(exec, empty, Flatten(Target(TsProj.HandleCommands(old(View()), batch)))).ok
      ensures ok ==> Valid() && View() == TsProj.HandleCommands(old(View()), batch)
      ensures ok ==> notified == old(notified) + Notices(ready, BatchFlushes(old(View()), batch))
      ensures !ok ==> Crashed(TargetStore().log) && TargetStore().log <= Target(TsProj.HandleCommands(old(View()), batch))
    {
      for i := 0 to |batch|
        invariant Valid() && View() == ProcessAll(old(View()), batch[..i])
        invariant notified == old(notified) + Notices(ready, FlushesAll(old(View()), batch[..i]))
      {
        FlushesSnoc(old(View()), batch, i);
        NoticesAppend(ready, old(notified), FlushesAll(old(View()), batch[..i]), Flushes(View(), batch[i]));
        ok := ProcessSingleCommand(batch[i]);
        if !ok {
          TargetGrows(old(View()), batch, i + 1);
          PanicStays(exec, empty, TargetStore().log, Target(TsProj.HandleCommands(old(View()), batch)));
          return;
        }
      }
      assert batch[..|batch|] == batch;
      NoticesAppend(ready, old(notified), FlushesAll(old(View()), batch), if inTx then [] else Reverse(buffer));
      ok := true;
      if !inTx {
        ok := FlushTxBuffer();
      }
    }

    /** What a reader gets: nothing before the first synchronisation, then the registered store. */
    method ReadTx() returns (r: Option<S>)
      requires Valid()
      ensures r == if ready then Some(Runs(exec, empty, Flatten(View().current)).contents) else None
    {
      r := registered.Read();
    }
  }

  /** Committing only adds groups. */
  lemma {:induction false} TargetGrows(s: Proj, batch: Group, n: nat)
    requires n <= |batch|
    ensures Target(ProcessAll(s, batch[..n])) <= Target(ProcessAll(s, batch)) <= Target(TsProj.HandleCommands(s, batch))
    decreases |batch|
  {
    if n < |batch| {
      var init := batch[..|batch| - 1];
      TargetGrows(s, init, n);
      assert init[..n] == batch[..n];
      ProcessGrows(ProcessAll(s, init), batch[|batch| - 1]);
    } else {
      assert batch[..n] == batch;
    }
    FlushGrows(ProcessAll(s, batch));
  }

  lemma FlushGrows(s: Proj)
    ensures Target(s) <= Target(Flush(s))
  {
  }

  lemma ProcessGrows(s: Proj, t: Tagged)
    ensures Target(s) <= Target(TsProj.Process(s, t))
  {
    FlushGrows(s);
    FlushGrows(s.(buffer := [t] + s.buffer));
  }
}
