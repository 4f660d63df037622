/**
 * The invariant of the topology, and that every operation keeps it.
 *
 * In every topology that the control plane stores, each of the 16384 slots is owned by exactly
 * one shard, range lists are in normal form, a migrating shard owns what it is migrating, every
 * shard has exactly one master, and node ids are distinct.
 */
module Partition {
  import opened SlotRanges
  import opened Topology
  import opened Failover

  // ----- The invariant -----

  ghost predicate OwnerIs(shards: seq<ShardState>, x: int, i: int) {
    0 <= i < |shards| && Owns(shards[i].slotRanges, x)
  }

  ghost predicate HasOwner(shards: seq<ShardState>, x: int) {
    exists i :: OwnerIs(shards, x, i)
  }

  ghost predicate Covered(shards: seq<ShardState>) {
    forall x :: MIN_SLOT_ID <= x <= MAX_SLOT_ID ==> HasOwner(shards, x)
  }

  ghost predicate Exclusive(shards: seq<ShardState>) {
    forall x, i, j :: OwnerIs(shards, x, i) && OwnerIs(shards, x, j) ==> i == j
  }

  ghost predicate RangesOk(s: ShardState) {
    Normal(s.slotRanges) && InBounds(s.slotRanges)
  }

  // A shard with a recorded migration owns every slot that it is migrating.
  ghost predicate MigrationOk(s: ShardState) {
    s.migratingSlot.Some? ==>
      && s.IsMigrating()
      && s.migratingSlot.value.range.Valid()
      && forall x :: s.migratingSlot.value.range.Contains(x) ==> Owns(s.slotRanges, x)
  }

  ghost predicate Partitioned(shards: seq<ShardState>) {
    Covered(shards) && Exclusive(shards) && forall i :: 0 <= i < |shards| ==> RangesOk(shards[i])
  }

  ghost predicate MigrationsOk(shards: seq<ShardState>) {
    forall i :: 0 <= i < |shards| ==> MigrationOk(shards[i])
  }

  ghost predicate OneMasterEach(shards: seq<ShardState>) {
    forall i :: 0 <= i < |shards| ==> OneMaster(shards[i].nodes)
  }

  predicate HasNode(s: ShardState, id: string) {
    exists n :: n in s.nodes && n.id == id
  }

  ghost predicate DistinctNodes(shards: seq<ShardState>) {
    && (forall i :: 0 <= i < |shards| ==> DistinctIds(shards[i].nodes))
    && forall i, j, id :: 0 <= i < |shards| && 0 <= j < |shards| && HasNode(shards[i], id) && HasNode(shards[j], id)
         ==> i == j
  }

  ghost predicate Inv(c: ClusterState) {
    Partitioned(c.shards) && MigrationsOk(c.shards) && OneMasterEach(c.shards) && DistinctNodes(c.shards)
  }

  // What the outside world guarantees about an operation: a requested slot range has passed
  // ParseSlotRange, and generated node ids are new.
  ghost predicate Permitted(shards: seq<ShardState>, op: Op) {
    match op
    case MigrateSlot(slot, _, _, _) => slot.Valid()
    case CreateShard(newNodes) =>
      && (forall i, j :: 0 <= i < j < |newNodes| ==> newNodes[i].id != newNodes[j].id)
      && forall i, k :: 0 <= i < |newNodes| && 0 <= k < |shards| ==> !HasNode(shards[k], newNodes[i].id)
    case AddNode(_, id, _, _) => forall k :: 0 <= k < |shards| ==> !HasNode(shards[k], id)
    case _ => true
  }

  // ----- Finding the shard of a slot range -----

  lemma {:induction false} HitIfOverlap(shards: seq<ShardState>, slot: SlotRange, i: int, k: int)
    requires 0 <= i < |shards| && 0 <= k < |shards[i].slotRanges| && shards[i].slotRanges[k].HasOverlap(slot)
    ensures i in Hits(shards, slot)
  {
    var n := |shards| - 1;
    if i == n {
      RangeHitIfOverlap(shards[n].slotRanges, slot, n, k);
    } else {
      HitIfOverlap(shards[..n], slot, i, k);
    }
  }

  lemma {:induction false} RangeHitIfOverlap(rs: SlotRanges, slot: SlotRange, i: int, k: int)
    requires 0 <= k < |rs| && rs[k].HasOverlap(slot)
    ensures i in RangeHits(rs, i, slot)
  {
    if k < |rs| - 1 { RangeHitIfOverlap(rs[..|rs| - 1], slot, i, k); }
  }

  lemma {:induction false} RangeHitsCount(rs: SlotRanges, slot: SlotRange, i: int, k: int)
    requires forall m :: 0 <= m < |rs| ==> (rs[m].HasOverlap(slot) <==> m == k)
    ensures RangeHits(rs, i, slot) == if 0 <= k < |rs| then [i] else []
  {
    if rs != [] { RangeHitsCount(rs[..|rs| - 1], slot, i, k); }
  }

  lemma {:induction false} HitsCount(shards: seq<ShardState>, slot: SlotRange, i: int, k: int)
    requires forall j, m :: 0 <= j < |shards| && 0 <= m < |shards[j].slotRanges| ==>
               (shards[j].slotRanges[m].HasOverlap(slot) <==> j == i && m == k)
    requires 0 <= i < |shards| ==> 0 <= k < |shards[i].slotRanges|
    ensures Hits(shards, slot) == if 0 <= i < |shards| then [i] else []
  {
    if shards != [] {
      var n := |shards| - 1;
      HitsCount(shards[..n], slot, i, k);
      RangeHitsCount(shards[n].slotRanges, slot, n, if n == i then k else -1);
    }
  }

  /**
   * On a partition the search succeeds with i exactly when shard i owns every requested slot,
   * although it only tests for overlap, and it never answers that no shard owns the range.
   */
  lemma FindIsExact(shards: seq<ShardState>, slot: SlotRange, i: int)
    requires Partitioned(shards) && slot.Valid()
    ensures FindShardIndexBySlot(shards, slot) == Ok(i) <==>
            0 <= i < |shards| && forall x :: slot.Contains(x) ==> Owns(shards[i].slotRanges, x)
    ensures FindShardIndexBySlot(shards, slot) != Err(SlotNotBelongToAnyShard)
  {
    var first := OwnerIsHit(shards, slot, slot.start);
    if FindShardIndexBySlot(shards, slot) == Ok(i) { OwnedIfFound(shards, slot, i); }
    if 0 <= i < |shards| && forall x :: slot.Contains(x) ==> Owns(shards[i].slotRanges, x) {
      FoundIfOwned(shards, slot, i);
    }
  }

  lemma OwnedIfFound(shards: seq<ShardState>, slot: SlotRange, i: int)
    requires Partitioned(shards) && slot.Valid() && FindShardIndexBySlot(shards, slot) == Ok(i)
    ensures forall x :: slot.Contains(x) ==> Owns(shards[i].slotRanges, x)
  {
    assert Hits(shards, slot) == [i];
    forall x | slot.Contains(x) ensures Owns(shards[i].slotRanges, x) {
      var j := OwnerIsHit(shards, slot, x);
    }
  }

  lemma OwnerIsHit(shards: seq<ShardState>, slot: SlotRange, x: int) returns (j: int)
    requires Partitioned(shards) && slot.Valid() && slot.Contains(x)
    ensures OwnerIs(shards, x, j) && j in Hits(shards, slot)
  {
    assert HasOwner(shards, x);
    j :| OwnerIs(shards, x, j);
    var k :| 0 <= k < |shards[j].slotRanges| && shards[j].slotRanges[k].Contains(x);
    assert RangesOk(shards[j]);
    OverlapIffShared(shards[j].slotRanges[k], slot);
    HitIfOverlap(shards, slot, j, k);
  }

  lemma FoundIfOwned(shards: seq<ShardState>, slot: SlotRange, i: int)
    requires Partitioned(shards) && slot.Valid()
    requires 0 <= i < |shards| && forall x :: slot.Contains(x) ==> Owns(shards[i].slotRanges, x)
    ensures FindShardIndexBySlot(shards, slot) == Ok(i)
  {
    var k := Contiguous(shards[i].slotRanges, slot);
    forall j, m | 0 <= j < |shards| && 0 <= m < |shards[j].slotRanges|
      ensures shards[j].slotRanges[m].HasOverlap(slot) <==> j == i && m == k
    {
      var r := shards[j].slotRanges[m];
      assert RangesOk(shards[j]);
      OverlapIffShared(r, slot);
      if r.HasOverlap(slot) {
        var x :| r.Contains(x) && slot.Contains(x);
        assert OwnerIs(shards, x, j) && OwnerIs(shards, x, i);
      }
    }
    HitsCount(shards, slot, i, k);
  }

  // ----- Moving slots -----

  // The range list of shard k after the move, as a set operation.
  lemma MovedRanges(shards: seq<ShardState>, i: int, t: int, slot: SlotRange, k: int)
    requires Partitioned(shards) && slot.Valid()
    requires 0 <= i < |shards| && 0 <= t < |shards| && 0 <= k < |shards|
    ensures var after := Move(shards, i, t, slot)[k];
      && RangesOk(after)
      && forall x :: Owns(after.slotRanges, x) <==>
           (Owns(shards[k].slotRanges, x) && !(k == i && slot.Contains(x))) || (k == t && slot.Contains(x))
  {
    assert RangesOk(shards[i]) && RangesOk(shards[k]);
    if k == i { RemoveIsDifference(shards[i].slotRanges, slot); }
    if k == t { AddIsUnion(if k == i then RemoveSlot(shards[i].slotRanges, slot) else shards[t].slotRanges, slot); }
  }

  /** After a move, the moved slots belong to the target and all others to their old owner. */
  lemma MoveOwners(shards: seq<ShardState>, i: int, t: int, slot: SlotRange, k: int, x: int)
    requires Partitioned(shards) && slot.Valid()
    requires 0 <= i < |shards| && 0 <= t < |shards| && 0 <= k < |shards|
    requires forall y :: slot.Contains(y) ==> Owns(shards[i].slotRanges, y)
    ensures RangesOk(Move(shards, i, t, slot)[k])
    ensures Owns(Move(shards, i, t, slot)[k].slotRanges, x) <==>
            if slot.Contains(x) then k == t else Owns(shards[k].slotRanges, x)
  {
    MovedRanges(shards, i, t, slot, k);
    if slot.Contains(x) && Owns(shards[k].slotRanges, x) {
      assert OwnerIs(shards, x, i) && OwnerIs(shards, x, k);
    }
  }

  lemma RedirectedIsPartition(shards: seq<ShardState>, after: seq<ShardState>, slot: SlotRange, t: int)
    requires Partitioned(shards) && 0 <= t < |after| == |shards|
    requires forall k :: 0 <= k < |after| ==> RangesOk(after[k])
    requires forall x, k :: OwnerIs(after, x, k) <==> if slot.Contains(x) then k == t else OwnerIs(shards, x, k)
    ensures Partitioned(after)
  {
    forall x | MIN_SLOT_ID <= x <= MAX_SLOT_ID ensures HasOwner(after, x) {
      assert HasOwner(shards, x);
      var k :| OwnerIs(shards, x, k);
      assert OwnerIs(after, x, if slot.Contains(x) then t else k);
    }
  }

  lemma MoveKeepsPartition(shards: seq<ShardState>, i: int, t: int, slot: SlotRange)
    requires Partitioned(shards) && slot.Valid() && 0 <= i < |shards| && 0 <= t < |shards|
    requires forall y :: slot.Contains(y) ==> Owns(shards[i].slotRanges, y)
    ensures Partitioned(Move(shards, i, t, slot))
  {
    var after := Move(shards, i, t, slot);
    forall k | 0 <= k < |after| ensures RangesOk(after[k]) { MoveOwners(shards, i, t, slot, k, 0); }
    forall x, k ensures OwnerIs(after, x, k) <==> if slot.Contains(x) then k == t else OwnerIs(shards, x, k) {
      if 0 <= k < |shards| { MoveOwners(shards, i, t, slot, k, x); }
    }
    RedirectedIsPartition(shards, after, slot, t);
  }

  lemma MoveKeepsNodes(shards: seq<ShardState>, i: int, t: int, slot: SlotRange)
    requires 0 <= i < |shards| && 0 <= t < |shards|
    ensures SameNodes(shards, Move(shards, i, t, slot))
  {}

  lemma MoveKeepsMigrations(shards: seq<ShardState>, i: int, t: int, slot: SlotRange)
    requires Partitioned(shards) && MigrationsOk(shards) && slot.Valid() && 0 <= i < |shards| && 0 <= t < |shards|
    requires forall y :: slot.Contains(y) ==> Owns(shards[i].slotRanges, y)
    ensures MigrationsOk(Move(shards, i, t, slot))
  {
    var after := Move(shards, i, t, slot);
    forall k | 0 <= k < |after| ensures MigrationOk(after[k]) {
      assert MigrationOk(shards[k]);
      if after[k].migratingSlot.Some? {
        var range := after[k].migratingSlot.value.range;
        forall x | range.Contains(x) ensures Owns(after[k].slotRanges, x) {
          MoveOwners(shards, i, t, slot, k, x);
          if slot.Contains(x) { assert OwnerIs(shards, x, k) && OwnerIs(shards, x, i); }
        }
      }
    }
  }

  // ----- Steps that leave the ranges, or the nodes, of every shard alone -----

  ghost predicate SameRanges(a: seq<ShardState>, b: seq<ShardState>) {
    |a| == |b| && forall i :: 0 <= i < |a| ==> a[i].slotRanges == b[i].slotRanges
  }

  ghost predicate SameNodes(a: seq<ShardState>, b: seq<ShardState>) {
    |a| == |b| && forall i :: 0 <= i < |a| ==> a[i].nodes == b[i].nodes
  }

  lemma SameRangesKeepPartition(a: seq<ShardState>, b: seq<ShardState>)
    requires SameRanges(a, b) && Partitioned(a)
    ensures Partitioned(b)
  {
    forall x, i ensures OwnerIs(a, x, i) <==> OwnerIs(b, x, i) {}
    forall x | MIN_SLOT_ID <= x <= MAX_SLOT_ID ensures HasOwner(b, x) {
      assert HasOwner(a, x);
      var i :| OwnerIs(a, x, i);
    }
    forall i | 0 <= i < |b| ensures RangesOk(b[i]) { assert RangesOk(a[i]); }
  }

  lemma SameNodesKeepMasters(a: seq<ShardState>, b: seq<ShardState>)
    requires SameNodes(a, b) && OneMasterEach(a) && DistinctNodes(a)
    ensures OneMasterEach(b) && DistinctNodes(b)
  {
    forall i, id | 0 <= i < |b| ensures HasNode(a[i], id) <==> HasNode(b[i], id) {}
    forall i | 0 <= i < |b| ensures OneMaster(b[i].nodes) && DistinctIds(b[i].nodes) {
      assert OneMaster(a[i].nodes) && DistinctIds(a[i].nodes);
    }
  }

  // ----- Every operation keeps the invariant -----

  lemma MigrateKeepsInv(c: ClusterState, op: Op)
    requires Inv(c) && op.MigrateSlot? && Permitted(c.shards, op) && Apply(c, op).Ok?
    ensures Inv(Apply(c, op).value)
  {
    var i, t, after := FindShardIndexBySlot(c.shards, op.slot).value, op.target, Apply(c, op).value.shards;
    FindIsExact(c.shards, op.slot, i);
    if op.slotOnly {
      MoveKeepsPartition(c.shards, i, t, op.slot);
      MoveKeepsMigrations(c.shards, i, t, op.slot);
      MoveKeepsNodes(c.shards, i, t, op.slot);
    } else {
      SameRangesKeepPartition(c.shards, after);
    }
    SameNodesKeepMasters(c.shards, after);
  }

  lemma CompleteKeepsInv(c: ClusterState, op: Op)
    requires Inv(c) && op.CompleteMigration? && Apply(c, op).Ok?
    ensures Inv(Apply(c, op).value)
  {
    var i, after := op.shard, Apply(c, op).value.shards;
    assert MigrationOk(c.shards[i]);
    var t, slot := c.shards[i].targetShardIndex, c.shards[i].migratingSlot.value.range;
    if op.report.state.StateSuccess? {
      MoveKeepsPartition(c.shards, i, t, slot);
      MoveKeepsMigrations(c.shards, i, t, slot);
      MoveKeepsNodes(c.shards, i, t, slot);
    } else {
      SameRangesKeepPartition(c.shards, after);
    }
    SameNodesKeepMasters(c.shards, after);
  }

  lemma CreateShardKeepsInv(c: ClusterState, op: Op)
    requires Inv(c) && op.CreateShard? && Permitted(c.shards, op) && Apply(c, op).Ok?
    ensures Inv(Apply(c, op).value)
  {
    var n, after := |c.shards|, Apply(c, op).value.shards;
    var created := after[n];
    forall x, i ensures OwnerIs(after, x, i) <==> OwnerIs(c.shards, x, i) {}
    forall x | MIN_SLOT_ID <= x <= MAX_SLOT_ID ensures HasOwner(after, x) {
      assert HasOwner(c.shards, x);
      var i :| OwnerIs(c.shards, x, i);
    }
    assert SoleMaster(created.nodes, 0);
    forall i, id | 0 <= i < n && HasNode(after[i], id) ensures !HasNode(created, id) {
      assert HasNode(c.shards[i], id);
    }
  }

  lemma IdleShardOwnsNothing(s: ShardState)
    requires RangesOk(s) && !s.IsServicing()
    ensures forall x :: !Owns(s.slotRanges, x)
  {
    assert forall r :: r in s.slotRanges ==> r.start != -1;
  }

  // Where shard i is after shard k was spliced out.
  function Shift(k: int, i: int): int { if i > k then i - 1 else i }

  lemma RemoveShardOwners(c: ClusterState, op: Op, x: int, i: int)
    requires Inv(c) && op.RemoveShard? && Apply(c, op).Ok? && OwnerIs(c.shards, x, i)
    ensures i != op.shard && OwnerIs(Apply(c, op).value.shards, x, Shift(op.shard, i))
  {
    assert RangesOk(c.shards[op.shard]);
    IdleShardOwnsNothing(c.shards[op.shard]);
  }

  lemma RemoveShardKeepsInv(c: ClusterState, op: Op)
    requires Inv(c) && op.RemoveShard? && Apply(c, op).Ok?
    ensures Inv(Apply(c, op).value)
  {
    var k, after := op.shard, Apply(c, op).value.shards;
    forall j | 0 <= j < |after| ensures after[j] == c.shards[Skip(k, j)] {}
    forall x | MIN_SLOT_ID <= x <= MAX_SLOT_ID ensures HasOwner(after, x) {
      assert HasOwner(c.shards, x);
      var i :| OwnerIs(c.shards, x, i);
      RemoveShardOwners(c, op, x, i);
    }
    forall x, i, j | OwnerIs(after, x, i) && OwnerIs(after, x, j) ensures i == j {
      assert OwnerIs(c.shards, x, Skip(k, i)) && OwnerIs(c.shards, x, Skip(k, j));
    }
  }

  // A step that changes the nodes of shard i only.
  lemma NodeStepKeepsInv(c: ClusterState, i: int, nodes: seq<Node>)
    requires Inv(c) && 0 <= i < |c.shards| && OneMaster(nodes) && DistinctIds(nodes)
    requires forall n :: n in nodes ==>
               HasNode(c.shards[i], n.id) || forall k :: 0 <= k < |c.shards| ==> !HasNode(c.shards[k], n.id)
    ensures Inv(c.(shards := c.shards[i := c.shards[i].(nodes := nodes)]))
  {
    var after := c.shards[i := c.shards[i].(nodes := nodes)];
    SameRangesKeepPartition(c.shards, after);
    forall k | 0 <= k < |after| ensures MigrationOk(after[k]) { assert MigrationOk(c.shards[k]); }
    forall k, id | 0 <= k < |after| && k != i && HasNode(after[k], id) ensures !HasNode(after[i], id) {
      assert HasNode(c.shards[k], id);
    }
  }

  lemma AddNodeKeepsInv(c: ClusterState, op: Op)
    requires Inv(c) && op.AddNode? && Permitted(c.shards, op) && Apply(c, op).Ok?
    ensures Inv(Apply(c, op).value)
  {
    var s, after := c.shards[op.shard], Apply(c, op).value.shards[op.shard];
    AddNodeKeepsOneMaster(s, op.id, op.addr, op.role);
    forall n | n in s.nodes ensures n.id != op.id { assert HasNode(s, n.id); }
    NodeStepKeepsInv(c, op.shard, after.nodes);
  }

  lemma RemoveNodeKeepsInv(c: ClusterState, op: Op)
    requires Inv(c) && op.RemoveNode? && Apply(c, op).Ok?
    ensures Inv(Apply(c, op).value)
  {
    RemoveNodeDropsNamed(c.shards[op.shard], op.id);
    NodeStepKeepsInv(c, op.shard, Apply(c, op).value.shards[op.shard].nodes);
  }

  lemma FailoverKeepsInv(c: ClusterState, op: Op)
    requires Inv(c) && op.Failover? && Apply(c, op).Ok?
    ensures Inv(Apply(c, op).value)
  {
    var s, after := c.shards[op.shard], Apply(c, op).value.shards[op.shard];
    PromoteKeepsOneMaster(s, op.masterID, op.preferred, op.replies);
    assert DistinctIds(s.nodes);
    forall n | n in after.nodes ensures HasNode(s, n.id) {
      var j :| 0 <= j < |after.nodes| && after.nodes[j] == n;
      assert s.nodes[j] in s.nodes;
    }
    NodeStepKeepsInv(c, op.shard, after.nodes);
  }

  /** Every operation keeps the invariant. */
  lemma ApplyKeepsInv(c: ClusterState, op: Op)
    requires Inv(c) && Permitted(c.shards, op) && Apply(c, op).Ok?
    ensures Inv(Apply(c, op).value)
  {
    match op
    case MigrateSlot(_, _, _, _) => MigrateKeepsInv(c, op);
    case CompleteMigration(_, _) => CompleteKeepsInv(c, op);
    case CreateShard(_) => CreateShardKeepsInv(c, op);
    case RemoveShard(_) => RemoveShardKeepsInv(c, op);
    case AddNode(_, _, _, _) => AddNodeKeepsInv(c, op);
    case RemoveNode(_, _) => RemoveNodeKeepsInv(c, op);
    case Failover(_, _, _, _) => FailoverKeepsInv(c, op);
  }
}
