/**
 * Pending migrations over any run (store/cluster.go, controller/cluster.go): which operations begin
 * one, which end one, and that none replaces one by another.
 */
module Pending {
  import opened Topology
  import opened Partition
  import opened Concurrency
  import opened Targets
  import opened Answers

  predicate SameMigration(a: ShardState, b: ShardState) {
    a.migratingSlot == b.migratingSlot && a.targetShardIndex == b.targetShardIndex
  }

  // The operation completes the migration of shard p, or moves slots out of that shard at once.
  ghost predicate Ends(shards: seq<ShardState>, op: Op, p: int)
    requires 0 <= p < |shards|
  {
    || (op.CompleteMigration? && op.shard == p)
    || (op.MigrateSlot? && op.slotOnly && OwnsAll(shards[p], op.slot))
  }

  // The operation starts a migration out of shard p.
  ghost predicate Begins(shards: seq<ShardState>, op: Op, p: int)
    requires 0 <= p < |shards|
  {
    op.MigrateSlot? && !op.slotOnly && OwnsAll(shards[p], op.slot)
  }

  ghost predicate StepKeepsMigrations(before: seq<ShardState>, op: Op, after: seq<ShardState>, p: int)
    requires 0 <= p < |before|
  {
    && (before[p].IsMigrating() ==> NextPlace(op, p).Some? && !Begins(before, op, p))
    && (NextPlace(op, p).Some? ==>
      var q := NextPlace(op, p).value;
      && 0 <= q < |after|
      && (!Ends(before, op, p) && !Begins(before, op, p) ==> SameMigration(after[q], before[p]))
      && (Ends(before, op, p) ==> !after[q].IsMigrating())
      && (Begins(before, op, p) ==>
            && after[q].IsMigrating() && after[q].targetShardIndex == op.target
            && after[q].migratingSlot.value.range == op.slot))
  }

  lemma MigrateKeepsMigrations(c: ClusterState, op: Op, p: int)
    requires Inv(c) && op.MigrateSlot? && op.slot.Valid() && Apply(c, op).Ok? && 0 <= p < |c.shards|
    ensures StepKeepsMigrations(c.shards, op, Apply(c, op).value.shards, p)
  {
    FindIsExact(c.shards, op.slot, p);
    var i, after := FindShardIndexBySlot(c.shards, op.slot).value, Apply(c, op).value.shards;
    assert i == p <==> OwnsAll(c.shards[p], op.slot);
    if p != i { assert SameMigration(after[p], c.shards[p]); }
  }

  lemma CompleteKeepsMigrations(c: ClusterState, op: Op, p: int)
    requires Inv(c) && op.CompleteMigration? && Apply(c, op).Ok? && 0 <= p < |c.shards|
    ensures StepKeepsMigrations(c.shards, op, Apply(c, op).value.shards, p)
  {}

  /**
   * An accepted operation leaves the migration of every shard as it is, unless it completes it or
   * moves slots out of that shard at once, which end it, or starts one where there was none.
   */
  lemma EveryStepKeepsMigrations(c: ClusterState, op: Op, p: int)
    requires Inv(c) && Permitted(c.shards, op) && Apply(c, op).Ok? && 0 <= p < |c.shards|
    ensures StepKeepsMigrations(c.shards, op, Apply(c, op).value.shards, p)
  {
    match op {
      case MigrateSlot(_, _, _, _) => MigrateKeepsMigrations(c, op, p);
      case CompleteMigration(_, _) => CompleteKeepsMigrations(c, op, p);
      case _ =>
    }
  }

  // ----- Whole runs -----

  ghost predicate Linked<S(!new), O(!new)>(link: (S, O, S) -> bool, states: seq<S>, ops: seq<O>) {
    |states| == |ops| + 1 && forall k :: 0 <= k < |ops| ==> link(states[k], ops[k], states[k + 1])
  }

  lemma LinkedNext<S(!new), O(!new)>(link: (S, O, S) -> bool, states: seq<S>, ops: seq<O>, op: O, next: S)
    requires Linked(link, states, ops) && link(states[|ops|], op, next)
    ensures Linked(link, states + [next], ops + [op])
  {
    var all, done := states + [next], ops + [op];
    forall k | 0 <= k < |done| ensures link(all[k], done[k], all[k + 1]) {
      assert k < |ops| ==> link(states[k], ops[k], states[k + 1]);
    }
  }

  // A permitted operation was accepted, and kept the migrations of all shards as said above.
  ghost predicate GoodStep(before: ClusterState, op: Op, after: ClusterState) {
    && Permitted(before.shards, op) && Apply(before, op) == Ok(after)
    && forall p :: 0 <= p < |before.shards| ==> StepKeepsMigrations(before.shards, op, after.shards, p)
  }

  lemma AcceptedIsGood(before: ClusterState, op: Op, after: ClusterState)
    requires Inv(before) && Permitted(before.shards, op) && Apply(before, op) == Ok(after)
    ensures GoodStep(before, op, after) && Inv(after)
  {
    ApplyKeepsInv(before, op);
    forall p | 0 <= p < |before.shards| ensures StepKeepsMigrations(before.shards, op, after.shards, p) {
      EveryStepKeepsMigrations(before, op, p);
    }
  }

  // Whatever is reached by some operations is reached by a link from what all but the last reach.
  ghost predicate StepByStep<S(!new), O(!new)>(link: (S, O, S) -> bool, reach: (seq<O>, S) -> bool, c: S) {
    && (forall d :: reach([], d) ==> d == c)
    && forall ops, op, d :: reach(ops + [op], d) ==> exists before :: ReachedFrom(link, reach, ops, before, op, d)
  }

  ghost predicate ReachedFrom<S(!new), O(!new)>(link: (S, O, S) -> bool, reach: (seq<O>, S) -> bool, ops: seq<O>,
                                              before: S, op: O, d: S)
  {
    reach(ops, before) && link(before, op, d)
  }

  lemma {:induction false} StatesBetween<S(!new), O(!new)>(link: (S, O, S) -> bool, reach: (seq<O>, S) -> bool,
                                                           c: S, ops: seq<O>, d: S) returns (states: seq<S>)
    requires StepByStep(link, reach, c) && reach(ops, d)
    ensures Linked(link, states, ops) && states[0] == c && states[|ops|] == d
    decreases |ops|
  {
    if ops == [] {
      states := [d];
    } else {
      var init, op := ops[..|ops| - 1], ops[|ops| - 1];
      assert ops == init + [op];
      var before :| ReachedFrom(link, reach, init, before, op, d);
      var shorter := StatesBetween(link, reach, c, init, before);
      LinkedNext(link, shorter, init, op, d);
      states := shorter + [d];
    }
  }

  ghost predicate Reached(c: ClusterState, ops: seq<Op>, d: ClusterState) { Edits(c, ops, d) && Inv(d) }

  lemma {:induction false} LastEdit(c: ClusterState, ops: seq<Op>, d: ClusterState) returns (before: ClusterState)
    requires Inv(c) && Edits(c, ops, d) && ops != []
    ensures Reached(c, ops[..|ops| - 1], before) && GoodStep(before, ops[|ops| - 1], d) && Inv(d)
  {
    before := EditAll(c, ops[..|ops| - 1]).value;
    if |ops| > 1 {
      var earlier := LastEdit(c, ops[..|ops| - 1], before);
    }
    AcceptedIsGood(before, ops[|ops| - 1], d);
  }

  lemma EditsAreSteps(c: ClusterState)
    requires Inv(c)
    ensures StepByStep(GoodStep, (ops, d) => Reached(c, ops, d), c)
  {
    var reach := (ops, d) => Reached(c, ops, d);
    forall ops, op, d | reach(ops + [op], d) ensures exists before :: ReachedFrom(GoodStep, reach, ops, before, op, d) {
      var before := LastEdit(c, ops + [op], d);
      assert (ops + [op])[..|ops|] == ops;
      assert ReachedFrom(GoodStep, reach, ops, before, op, d);
    }
  }

  /**
   * In every interleaving, the operations of every accepted update lead from the stored value before
   * it to the one after it, and none of them replaces a pending migration by another one: only
   * completing it or a slot-only move out of its shard ends it.
   */
  lemma EveryRunKeepsMigrations(c: ClusterState, actions: seq<Action>, n: nat) returns (states: seq<ClusterState>)
    requires Inv(c) && NoSets(actions) && n < |Run(Start(c), actions).commits|
    ensures var s := Run(Start(c), actions);
      && |s.history| == |s.commits| + 1
      && Linked(GoodStep, states, s.commits[n])
      && states[0] == s.history[n] && states[|s.commits[n]|].shards == s.history[n + 1].shards
  {
    var s := Run(Start(c), actions);
    EveryRunIsSerial(c, actions);
    EveryRunIsValid(c, actions);
    var before, after := s.history[n], s.history[n + 1];
    assert Commit(before, s.commits[n], after);
    EditsAreSteps(before);
    VersionIsNotInv(after, before.version);
    states := StatesBetween(GoodStep, (ops, d) => Reached(before, ops, d), before, s.commits[n],
                            after.(version := before.version));
  }
}
