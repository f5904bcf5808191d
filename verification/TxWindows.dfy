/**
 The transaction guarantee stated over the commands themselves: a transaction is what stands between
 a SET of "__vdr_tx" and the next DEL of it, or the next such SET.
 */
module TxWindows {
  import opened Bytes
  import opened TsProj

  /** SET __vdr_tx. */
  predicate Opens(t: Tagged) {
    match t.command
    case Set(key, _) => key == Octets("__vdr_tx")
    case _ => false
  }

  /** A DEL with __vdr_tx among its keys. */
  predicate Closes(t: Tagged) {
    match t.command
    case Del(keys) => exists i :: 0 <= i < |keys| && keys[i] == Octets("__vdr_tx")
    case _ => false
  }

  /** The commands from `a` to `b` lie in one transaction: it is opened at `a` and neither closed nor opened again up to `b`. */
  predicate InWindow(cmds: Group, a: nat, b: nat) {
    a <= b <= |cmds| && a < |cmds| && Opens(cmds[a]) && forall i :: a < i < b ==> !Opens(cmds[i]) && !Closes(cmds[i])
  }

  lemma MarkersExactly(t: Tagged)
    ensures IsStart(t) <==> Opens(t)
    ensures IsEnd(t) <==> Closes(t)
  {
    assert TX_KEY == Octets("__vdr_tx");
  }

  /** A transaction is open exactly if one was opened and not closed since. */
  lemma {:induction false} OpenExactly(cmds: Group)
    ensures Open(cmds) <==>
      exists i :: 0 <= i < |cmds| && Opens(cmds[i]) && forall j :: i < j < |cmds| ==> !Closes(cmds[j])
    decreases |cmds|
  {
    if cmds != [] {
      var n := |cmds| - 1;
      var init := cmds[..n];
      MarkersExactly(cmds[n]);
      OpenExactly(init);
      assert forall i :: 0 <= i < n ==> init[i] == cmds[i];
      if !Opens(cmds[n]) && Open(init) && !Closes(cmds[n]) {
        var i :| 0 <= i < |init| && Opens(init[i]) && forall j :: i < j < |init| ==> !Closes(init[j]);
        assert forall j :: i < j < |cmds| ==> !Closes(cmds[j]);
        assert Opens(cmds[i]);
      }
      if i :| 0 <= i < |cmds| && Opens(cmds[i]) && forall j :: i < j < |cmds| ==> !Closes(cmds[j]) {
        assert i < n ==> Opens(init[i]) && !Closes(cmds[n]);
      }
    }
  }

  /** The commands that are held back are those from the last opening on, if it has not been closed. */
  lemma {:induction false} SettledExactly(cmds: Group)
    ensures var n := Settled(cmds);
      if Open(cmds) then n < |cmds| && InWindow(cmds, n, |cmds|) else n == |cmds|
    decreases |cmds|
  {
    if Open(cmds) {
      var n := |cmds| - 1;
      MarkersExactly(cmds[n]);
      if !IsStart(cmds[n]) {
        SettledExactly(cmds[..n]);
      }
    }
  }

  lemma OpenInside(cmds: Group, a: nat, n: nat)
    requires a < n && InWindow(cmds, a, n)
    ensures Open(cmds[..n])
  {
    var part := cmds[..n];
    OpenExactly(part);
    assert Opens(part[a]) && forall j :: a < j < |part| ==> !Closes(part[j]);
  }

  /** A whole transaction: opened at `a`, closed at `b`, no marker in between. */
  predicate Transaction(cmds: Group, a: nat, b: nat) {
    a < b < |cmds| && InWindow(cmds, a, b) && Closes(cmds[b])
  }

  /** A clean cut leaves a transaction whole: all of it comes before, or none. */
  lemma WholeOrNothing(cmds: Group, n: nat, a: nat, b: nat)
    requires CleanCut(cmds, n) && Transaction(cmds, a, b)
    ensures n <= a || n > b
  {
    if a < n <= b {
      MarkersExactly(cmds[n]);
      OpenInside(cmds, a, n);
    }
  }

  lemma {:induction false} BoundaryBefore(groups: seq<Group>, n: nat)
    requires n < |Flatten(groups)|
    ensures exists k :: 0 <= k < |groups| && |Flatten(groups[..k])| <= n < |Flatten(groups[..k + 1])|
    decreases |groups|
  {
    var m := |groups| - 1;
    var init := groups[..m];
    if n < |Flatten(init)| {
      BoundaryBefore(init, n);
      var k :| 0 <= k < |init| && |Flatten(init[..k])| <= n < |Flatten(init[..k + 1])|;
      assert init[..k] == groups[..k] && init[..k + 1] == groups[..k + 1];
    } else {
      assert groups[..m + 1] == groups;
      assert |Flatten(groups[..m])| <= n < |Flatten(groups[..m + 1])|;
    }
  }

  /** The commands at the positions `a` to `b` are committed by one group. */
  predicate InOneGroup(groups: seq<Group>, a: nat, b: nat) {
    exists k :: 0 <= k < |groups| && |Flatten(groups[..k])| <= a && b < |Flatten(groups[..k + 1])|
  }

  lemma InGroup(groups: seq<Group>, cmds: Group, a: nat, b: nat)
    requires Atomic(groups, cmds) && Transaction(cmds, a, b) && a < |Flatten(groups)|
    ensures InOneGroup(groups, a, b)
  {
    BoundaryBefore(groups, a);
    var k :| 0 <= k < |groups| && |Flatten(groups[..k])| <= a < |Flatten(groups[..k + 1])|;
    WholeOrNothing(cmds, |Flatten(groups[..k + 1])|, a, b);
  }

  /**
   In every run and for every batching: a transaction among the served commands is committed by one
   group, from the command that opens it to the one that closes it, or none of it is committed.
   */
  lemma TransactionsInOneGroup(events: seq<Event>, a: nat, b: nat)
    requires IsRun(events) && Transaction(Served(events), a, b)
    ensures var groups := After(events).current;
      InOneGroup(groups, a, b) || |Flatten(groups)| <= a
  {
    ReadersSeeCleanCuts(events);
    if a < |Flatten(After(events).current)| {
      InGroup(After(events).current, Served(events), a, b);
    }
  }

  /** A complete transaction is never held back. */
  lemma SettledAfter(cmds: Group, a: nat, b: nat)
    requires Transaction(cmds, a, b)
    ensures Settled(cmds) > b
  {
    SettledExactly(cmds);
    var n := Settled(cmds);
    assert n < |cmds| ==> InWindow(cmds, n, |cmds|);
  }

  /** The same for what has been received in the current replication, readable yet or not; and it is all committed. */
  lemma CommittedInOneGroup(events: seq<Event>, a: nat, b: nat)
    requires IsRun(events) && Transaction(Received(events), a, b)
    ensures InOneGroup(Target(After(events)), a, b)
  {
    RunInStep(events);
    CommittedExactly(events);
    SettledAfter(Received(events), a, b);
    InGroup(Target(After(events)), Received(events), a, b);
  }

  /** After each event everything is committed except the commands from an opening that has not been closed. */
  lemma HeldBackExactly(events: seq<Event>)
    requires IsRun(events)
    ensures var cmds, n := Received(events), |Flatten(Target(After(events)))|;
      if exists i :: 0 <= i < |cmds| && Opens(cmds[i]) && forall j :: i < j < |cmds| ==> !Closes(cmds[j])
      then n < |cmds| && InWindow(cmds, n, |cmds|)
      else n == |cmds|
  {
    CommittedExactly(events);
    OpenExactly(Received(events));
    SettledExactly(Received(events));
  }

  /** A cut is clean exactly if it does not come after an opening that is not closed, unless a new one follows. */
  lemma CleanCutExactly(cmds: Group, n: nat)
    requires n <= |cmds|
    ensures CleanCut(cmds, n) <==> (n < |cmds| && Opens(cmds[n])) || !exists a: nat :: a < n && InWindow(cmds, a, n)
  {
    var part := cmds[..n];
    if n < |cmds| {
      MarkersExactly(cmds[n]);
    }
    if a: nat :| a < n && InWindow(cmds, a, n) {
      OpenInside(cmds, a, n);
    }
    SettledExactly(part);
    assert Open(part) ==> InWindow(cmds, Settled(part), n);
  }

  /**
   With panics: what readers see is the result of a prefix of the received commands, which ends before
   the command that panics.  It shows part of a transaction exactly if that command stands inside one.
   */
  lemma VisibleWindows<S>(events: seq<Event>, exec: (S, Tagged) -> Option<S>, empty: S)
    requires IsRun(events)
    ensures var served, sent := Served(events), Flatten(After(events).current);
      var n := Effective(exec, empty, sent);
      && sent <= served
      && Runs(exec, empty, served[..n]) == Replayed(Runs(exec, empty, sent).contents, true)
      && ((exists a: nat :: a < n && InWindow(served, a, n)) && !(n < |served| && Opens(served[n]))
          <==> n < |sent| && (exists a: nat :: a < n && InWindow(sent, a, n)) && !Opens(sent[n]))
  {
    VisibleExactly(events, exec, empty);
    var served, sent := Served(events), Flatten(After(events).current);
    var n := Effective(exec, empty, sent);
    CleanCutExactly(served, n);
    CleanCutExactly(sent, n);
    assert sent[..n] == served[..n];
    if n < |sent| {
      MarkersExactly(sent[n]);
    }
  }
}
