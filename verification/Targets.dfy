/**
 * Whether an index that a migration has recorded still names the shard it was recorded for, after
 * any accepted operations (server/api/shard.go, store/cluster_shard.go).  A shard is followed by
 * its nodes: it has one in common with what each operation makes of it, and no other shard does.
 */
module Targets {
  import opened Topology
  import opened Failover
  import opened Partition

  ghost predicate Continues(before: ShardState, after: ShardState) {
    exists id :: HasNode(before, id) && HasNode(after, id)
  }

  // Operation after operation was permitted and accepted; versions may grow in between.
  ghost predicate Accepted(states: seq<ClusterState>, ops: seq<Op>) {
    && |states| == |ops| + 1
    && forall k :: 0 <= k < |ops| ==> Step(states[k].shards, ops[k], states[k + 1].shards)
  }

  ghost predicate Step(before: seq<ShardState>, op: Op, after: seq<ShardState>) {
    Permitted(before, op) && ApplyToShards(before, op) == Ok(after)
  }

  ghost predicate Becomes(before: seq<ShardState>, p: int, after: seq<ShardState>, j: int) {
    0 <= p < |before| && 0 <= j < |after| && Continues(before[p], after[j])
  }

  // The shard at index j of the last state is the one that was at index t of the first.
  ghost predicate Follows(states: seq<ClusterState>, t: int, j: int) {
    if |states| <= 1 then j == t
    else
      var n := |states| - 1;
      exists p :: Follows(states[..n], t, p) && Becomes(states[n - 1].shards, p, states[n].shards, j)
  }

  // ----- One operation -----

  ghost predicate IsNew(shards: seq<ShardState>, id: string) {
    forall k :: 0 <= k < |shards| ==> !HasNode(shards[k], id)
  }

  // `after` is made of shard q: it keeps a node, and all its other nodes are new.
  ghost predicate MadeOf(shards: seq<ShardState>, q: int, after: ShardState) {
    && 0 <= q < |shards| && Continues(shards[q], after)
    && forall id :: HasNode(after, id) ==> HasNode(shards[q], id) || IsNew(shards, id)
  }

  lemma MadeOfOne(shards: seq<ShardState>, q: int, after: ShardState, p: int)
    requires DistinctNodes(shards) && MadeOf(shards, q, after) && 0 <= p < |shards|
    ensures Continues(shards[p], after) <==> p == q
  {
    if Continues(shards[p], after) {
      var id :| HasNode(shards[p], id) && HasNode(after, id);
      assert !IsNew(shards, id);
    }
  }

  lemma HasMaster(s: ShardState) returns (n: Node)
    requires OneMaster(s.nodes)
    ensures n in s.nodes && n.IsMaster() && HasNode(s, n.id)
  {
    var m :| SoleMaster(s.nodes, m);
    n := s.nodes[m];
  }

  lemma SameNodes(shards: seq<ShardState>, q: int, after: ShardState)
    requires OneMasterEach(shards) && 0 <= q < |shards| && after.nodes == shards[q].nodes
    ensures MadeOf(shards, q, after)
  {
    assert OneMaster(shards[q].nodes);
    var n := HasMaster(shards[q]);
    assert HasNode(after, n.id);
    forall id | HasNode(after, id) ensures HasNode(shards[q], id) {}
  }

  lemma AddedNode(c: ClusterState, op: Op)
    requires Inv(c) && op.AddNode? && Permitted(c.shards, op) && Apply(c, op).Ok?
    ensures MadeOf(c.shards, op.shard, Apply(c, op).value.shards[op.shard])
  {
    var s, after := c.shards[op.shard], Apply(c, op).value.shards[op.shard];
    assert OneMaster(s.nodes);
    var n := HasMaster(s);
    assert n in after.nodes;
    assert HasNode(after, n.id);
    forall id | HasNode(after, id) ensures HasNode(s, id) || IsNew(c.shards, id) {
      var m :| m in after.nodes && m.id == id;
      assert m in s.nodes || m.id == op.id;
    }
  }

  lemma RemovedNode(c: ClusterState, op: Op)
    requires Inv(c) && op.RemoveNode? && Apply(c, op).Ok?
    ensures MadeOf(c.shards, op.shard, Apply(c, op).value.shards[op.shard])
  {
    var s, after := c.shards[op.shard], Apply(c, op).value.shards[op.shard];
    assert OneMaster(s.nodes) && DistinctIds(s.nodes);
    RemoveNodeDropsNamed(s, op.id);
    var n := HasMaster(s);
    var r :| r in s.nodes && r.id == op.id && !r.IsMaster();
    var i, j :| 0 <= i < |s.nodes| && 0 <= j < |s.nodes| && s.nodes[i] == n && s.nodes[j] == r;
    assert n.id != op.id;
    assert HasNode(after, n.id);
    forall id | HasNode(after, id) ensures HasNode(s, id) {
      var m :| m in after.nodes && m.id == id;
      assert m in s.nodes;
    }
  }

  lemma FailedOver(c: ClusterState, op: Op)
    requires Inv(c) && op.Failover? && Apply(c, op).Ok?
    ensures MadeOf(c.shards, op.shard, Apply(c, op).value.shards[op.shard])
  {
    var s, after := c.shards[op.shard], Apply(c, op).value.shards[op.shard];
    assert OneMaster(s.nodes);
    PromoteKeepsOneMaster(s, op.masterID, op.preferred, op.replies);
    var n := HasMaster(s);
    var i :| 0 <= i < |s.nodes| && s.nodes[i] == n;
    assert after.nodes[i] in after.nodes && after.nodes[i].id == n.id;
    assert HasNode(after, n.id);
    forall id | HasNode(after, id) ensures HasNode(s, id) {
      var j :| 0 <= j < |after.nodes| && after.nodes[j].id == id;
      assert s.nodes[j] in s.nodes && s.nodes[j].id == id;
    }
  }

  lemma CreatedShard(c: ClusterState, op: Op, p: int)
    requires Inv(c) && op.CreateShard? && Permitted(c.shards, op) && Apply(c, op).Ok? && 0 <= p < |c.shards|
    ensures !Continues(c.shards[p], Apply(c, op).value.shards[|c.shards|])
  {
    var made := Apply(c, op).value.shards[|c.shards|];
    forall id | HasNode(made, id) ensures IsNew(c.shards, id) {
      var n :| n in made.nodes && n.id == id;
      var i :| 0 <= i < |made.nodes| && made.nodes[i] == n;
      assert op.newNodes[i].id == id;
    }
  }

  // Where the shard at index p is after an operation.
  function NextPlace(op: Op, p: int): Option<int> {
    if op.RemoveShard? then (if op.shard == p then None else Some(Shift(op.shard, p))) else Some(p)
  }

  // The shard that an operation makes the one at index j of.
  function Origin(op: Op, j: int): int { if op.RemoveShard? && op.shard <= j then j + 1 else j }

  lemma MadeOfOrigin(c: ClusterState, op: Op, j: int)
    requires Inv(c) && Permitted(c.shards, op) && Apply(c, op).Ok? && 0 <= j < |Apply(c, op).value.shards|
    requires op.CreateShard? ==> j < |c.shards|
    ensures MadeOf(c.shards, Origin(op, j), Apply(c, op).value.shards[j])
  {
    var after := Apply(c, op).value.shards;
    if op.AddNode? && j == op.shard {
      AddedNode(c, op);
    } else if op.RemoveNode? && j == op.shard {
      RemovedNode(c, op);
    } else if op.Failover? && j == op.shard {
      FailedOver(c, op);
    } else {
      SameNodes(c.shards, Origin(op, j), after[j]);
    }
  }

  /** What an accepted operation makes of a shard is found at exactly one index, if the shard stays. */
  lemma StepPlaces(c: ClusterState, op: Op, p: int, j: int)
    requires Inv(c) && Permitted(c.shards, op) && Apply(c, op).Ok?
    requires 0 <= p < |c.shards| && 0 <= j < |Apply(c, op).value.shards|
    ensures Continues(c.shards[p], Apply(c, op).value.shards[j]) <==> NextPlace(op, p) == Some(j)
  {
    if op.CreateShard? && j == |c.shards| {
      CreatedShard(c, op, p);
    } else {
      MadeOfOrigin(c, op, j);
      MadeOfOne(c.shards, Origin(op, j), Apply(c, op).value.shards[j], p);
    }
  }

  lemma BecomesIff(c: ClusterState, op: Op, d: ClusterState, p: int, j: int)
    requires Inv(c) && Step(c.shards, op, d.shards) && 0 <= p < |c.shards|
    ensures Becomes(c.shards, p, d.shards, j) <==> NextPlace(op, p) == Some(j)
  {
    assert Apply(c, op) == Ok(c.(shards := d.shards));
    if 0 <= j < |d.shards| { StepPlaces(c, op, p, j); }
  }

  // ----- Any list of operations -----

  function Place(ops: seq<Op>, t: int): Option<int> {
    if ops == [] then Some(t)
    else
      var p := Place(ops[..|ops| - 1], t);
      if p == None then None else NextPlace(ops[|ops| - 1], p.value)
  }

  lemma StepKeepsInv(c: ClusterState, op: Op, d: ClusterState)
    requires Inv(c) && Step(c.shards, op, d.shards)
    ensures Inv(d)
  {
    ApplyKeepsInv(c, op);
    assert Apply(c, op) == Ok(c.(shards := d.shards));
  }

  lemma {:induction false} AcceptedKeepsInv(states: seq<ClusterState>, ops: seq<Op>, k: nat)
    requires Accepted(states, ops) && Inv(states[0]) && k < |states|
    ensures Inv(states[k])
  {
    if k > 0 {
      AcceptedKeepsInv(states, ops, k - 1);
      StepKeepsInv(states[k - 1], ops[k - 1], states[k]);
    }
  }

  lemma NextPlaceInRange(before: seq<ShardState>, op: Op, after: seq<ShardState>, p: int)
    requires ApplyToShards(before, op) == Ok(after) && 0 <= p < |before| && NextPlace(op, p).Some?
    ensures 0 <= NextPlace(op, p).value < |after|
  {}

  // The one index at which a shard is found is inside the list.
  lemma {:induction false} PlaceInRange(states: seq<ClusterState>, ops: seq<Op>, t: int)
    requires Accepted(states, ops) && 0 <= t < |states[0].shards|
    ensures var p := Place(ops, t); p.Some? ==> 0 <= p.value < |states[|ops|].shards|
  {
    if ops != [] {
      var n := |ops| - 1;
      PlaceInRange(states[..n + 1], ops[..n], t);
      assert Step(states[n].shards, ops[n], states[n + 1].shards);
      if Place(ops, t).Some? {
        NextPlaceInRange(states[n].shards, ops[n], states[n + 1].shards, Place(ops[..n], t).value);
      }
    }
  }

  lemma {:induction false} PlaceIsFollowed(states: seq<ClusterState>, ops: seq<Op>, t: int, j: int)
    requires Accepted(states, ops) && Inv(states[0]) && 0 <= t < |states[0].shards|
    ensures Follows(states, t, j) <==> Place(ops, t) == Some(j)
    decreases |ops|
  {
    if ops != [] {
      var n, init := |ops| - 1, ops[..|ops| - 1];
      var before := states[..n + 1];
      forall p ensures Follows(before, t, p) <==> Place(init, t) == Some(p) {
        PlaceIsFollowed(before, init, t, p);
      }
      PlaceInRange(before, init, t);
      AcceptedKeepsInv(states, ops, n);
      if Place(init, t).Some? { BecomesIff(states[n], ops[n], states[n + 1], Place(init, t).value, j); }
    }
  }

  lemma {:induction false} PlaceKeptIff(ops: seq<Op>, t: int)
    ensures Place(ops, t).Some? ==> Place(ops, t).value <= t
    ensures Place(ops, t) == Some(t) <==> forall op :: op in ops && op.RemoveShard? ==> op.shard > t
  {
    if ops != [] {
      var init, last := ops[..|ops| - 1], ops[|ops| - 1];
      PlaceKeptIff(init, t);
      assert forall op :: op in ops <==> op in init || op == last;
    }
  }

  /**
   * After any accepted operations, an index names the shard that it named before exactly when every
   * shard that was removed on the way stood behind it at that moment.
   */
  lemma TargetNamesChosenIff(states: seq<ClusterState>, ops: seq<Op>, t: int)
    requires Accepted(states, ops) && Inv(states[0]) && 0 <= t < |states[0].shards|
    ensures Follows(states, t, t) <==> forall op :: op in ops && op.RemoveShard? ==> op.shard > t
  {
    PlaceIsFollowed(states, ops, t, t);
    PlaceKeptIff(ops, t);
  }
}
