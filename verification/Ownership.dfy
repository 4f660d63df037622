/**
 * Who owns a slot after any run: the stored range lists implement a map from slots to shards
 * that only accepted slot-only moves, accepted reported successes and shard removals change.
 */
module Ownership {
  import opened Topology
  import opened Partition
  import opened Migration
  import opened Concurrency

  // The owner of slot x after some operations, when shard i owned it before.
  function OwnerAfter(c: ClusterState, ops: seq<Op>, x: int, i: int): int {
    if ops == [] then i
    else
      var init := EditAll(c, ops[..|ops| - 1]);
      if init.Err? then i
      else NextOwner(init.value.shards, ops[|ops| - 1], x, OwnerAfter(c, ops[..|ops| - 1], x, i))
  }

  lemma {:induction false} EditsMoveOwner(c: ClusterState, ops: seq<Op>, d: ClusterState, x: int, i: int)
    requires Inv(c) && Edits(c, ops, d) && OwnerIs(c.shards, x, i)
    ensures Inv(d) && forall j :: OwnerIs(d.shards, x, j) <==> j == OwnerAfter(c, ops, x, i)
  {
    if ops != [] {
      var before := EditAll(c, ops[..|ops| - 1]).value;
      var op := ops[|ops| - 1];
      EditsMoveOwner(c, ops[..|ops| - 1], before, x, i);
      StepMovesOwner(before, op, x, OwnerAfter(c, ops[..|ops| - 1], x, i));
      ApplyKeepsInv(before, op);
    }
  }

  // The owner of slot x after the first k accepted updates.
  function OwnerAt(history: seq<ClusterState>, commits: seq<seq<Op>>, x: int, i: int, k: nat): int
    requires k <= |commits| && |history| == |commits| + 1
  {
    if k == 0 then i else OwnerAfter(history[k - 1], commits[k - 1], x, OwnerAt(history, commits, x, i, k - 1))
  }

  lemma {:induction false} HistoryMovesOwner(s: System, x: int, i: int, k: nat)
    requires Serial(s) && AllValid(s) && OwnerIs(s.history[0].shards, x, i) && k <= |s.commits|
    ensures forall j :: OwnerIs(s.history[k].shards, x, j) <==> j == OwnerAt(s.history, s.commits, x, i, k)
  {
    if k == 0 {
      assert Inv(s.history[0]);
    } else {
      HistoryMovesOwner(s, x, i, k - 1);
      assert Commit(s.history[k - 1], s.commits[k - 1], s.history[k]);
      EditsMoveOwner(s.history[k - 1], s.commits[k - 1], s.history[k].(version := s.history[k - 1].version), x,
                     OwnerAt(s.history, s.commits, x, i, k - 1));
    }
  }

  lemma {:induction false} HistoryStarts(c: ClusterState, actions: seq<Action>)
    ensures var h := Run(Start(c), actions).history; h != [] && h[0] == c
  {
    if actions != [] { HistoryStarts(c, actions[..|actions| - 1]); }
  }

  /** In every interleaving, the stored owner of a slot is what the accepted updates, in order, make of it. */
  lemma EveryRunMovesOwners(c: ClusterState, actions: seq<Action>, x: int, i: int)
    requires Inv(c) && NoSets(actions) && OwnerIs(c.shards, x, i)
    ensures var s := Run(Start(c), actions);
      && |s.history| == |s.commits| + 1
      && forall j :: OwnerIs(s.stored.shards, x, j) <==> j == OwnerAt(s.history, s.commits, x, i, |s.commits|)
  {
    EveryRunIsSerial(c, actions);
    EveryRunIsValid(c, actions);
    VersionsNeverDecrease(c, actions);
    HistoryStarts(c, actions);
    HistoryMovesOwner(Run(Start(c), actions), x, i, |Run(Start(c), actions).commits|);
  }

  // An operation that cannot change the owner of slot x.
  predicate LeavesAlone(op: Op, x: int) {
    match op
    case MigrateSlot(slot, _, slotOnly, _) => !slotOnly || !slot.Contains(x)
    case CompleteMigration(_, Report(Some(slot), StateSuccess)) => !slot.Contains(x)
    case RemoveShard(_) => false
    case _ => true
  }

  lemma {:induction false} OwnerAfterAlone(c: ClusterState, ops: seq<Op>, x: int, i: int)
    requires forall op :: op in ops ==> LeavesAlone(op, x)
    ensures OwnerAfter(c, ops, x, i) == i
  {
    if ops != [] {
      OwnerAfterAlone(c, ops[..|ops| - 1], x, i);
      assert LeavesAlone(ops[|ops| - 1], x);
    }
  }

  lemma {:induction false} OwnerAtAlone(history: seq<ClusterState>, commits: seq<seq<Op>>, x: int, i: int, k: nat)
    requires k <= |commits| && |history| == |commits| + 1
    requires forall n, op :: 0 <= n < |commits| && op in commits[n] ==> LeavesAlone(op, x)
    ensures OwnerAt(history, commits, x, i, k) == i
  {
    if k > 0 {
      OwnerAtAlone(history, commits, x, i, k - 1);
      OwnerAfterAlone(history[k - 1], commits[k - 1], x, i);
    }
  }

  /**
   * A slot keeps its owner through every run without an accepted move of that slot: starting a
   * migration, failing migrations, new shards, nodes and failovers never move it, and neither
   * does any update that was rejected.
   */
  lemma UnmovedSlotStays(c: ClusterState, actions: seq<Action>, x: int, i: int)
    requires Inv(c) && NoSets(actions) && OwnerIs(c.shards, x, i)
    requires forall n, op :: 0 <= n < |Run(Start(c), actions).commits| && op in Run(Start(c), actions).commits[n] ==>
               LeavesAlone(op, x)
    ensures forall j :: OwnerIs(Run(Start(c), actions).stored.shards, x, j) <==> j == i
  {
    var s := Run(Start(c), actions);
    EveryRunMovesOwners(c, actions, x, i);
    OwnerAtAlone(s.history, s.commits, x, i, |s.commits|);
  }
}
