/**
 * What a step does to the ownership of slots: the owner map, the completion of a migration,
 * and the pending target of a migration when a shard is removed
 * (store/cluster.go, controller/cluster.go, server/api/shard.go).
 */
module Migration {
  import opened SlotRanges
  import opened Topology
  import opened Failover
  import opened Partition

  // ----- The owner map -----

  // The owner of slot x after a successful operation, when shard i owned it before.
  function NextOwner(shards: seq<ShardState>, op: Op, x: int, i: int): int {
    match op
    case MigrateSlot(slot, t, true, _) => if slot.Contains(x) then t else i
    case CompleteMigration(k, Report(Some(slot), StateSuccess)) =>
      if slot.Contains(x) && 0 <= k < |shards| then shards[k].targetShardIndex else i
    case RemoveShard(k) => Shift(k, i)
    case _ => i
  }

  /**
   * The range lists implement a map from slots to shards: every operation changes the owner of
   * a slot exactly as `NextOwner` says.  Only a slot-only move and a reported success move slots.
   */
  lemma StepMovesOwner(c: ClusterState, op: Op, x: int, i: int)
    requires Inv(c) && Permitted(c.shards, op) && Apply(c, op).Ok? && OwnerIs(c.shards, x, i)
    ensures forall j :: OwnerIs(Apply(c, op).value.shards, x, j) <==> j == NextOwner(c.shards, op, x, i)
  {
    var after := Apply(c, op).value.shards;
    match op {
      case MigrateSlot(slot, t, slotOnly, _) =>
        var k := FindShardIndexBySlot(c.shards, slot).value;
        FindIsExact(c.shards, slot, k);
        if slotOnly { MoveOwners(c.shards, k, t, slot, NextOwner(c.shards, op, x, i), x); }
      case CompleteMigration(k, report) =>
        assert MigrationOk(c.shards[k]);
        if report.state.StateSuccess? {
          MoveOwners(c.shards, k, c.shards[k].targetShardIndex, report.slot.value, NextOwner(c.shards, op, x, i), x);
        }
      case RemoveShard(_) => RemoveShardOwners(c, op, x, i);
      case _ =>
    }
    assert OwnerIs(after, x, NextOwner(c.shards, op, x, i));
    ApplyKeepsInv(c, op);
  }

  /**
   * A reported success moves exactly the recorded slots from the source to the shard at the
   * recorded index, and touches no other shard.  (Source and target can be the same shard after
   * a shard was removed; then the range list stays as it is.)
   */
  lemma SuccessMovesExactly(c: ClusterState, i: int, report: Report)
    requires Inv(c) && Apply(c, CompleteMigration(i, report)).Ok? && report.state.StateSuccess?
    ensures var before, after := c.shards, Apply(c, CompleteMigration(i, report)).value.shards;
      var slot, t := before[i].migratingSlot.value.range, before[i].targetShardIndex;
      && |after| == |before| && 0 <= t < |after| && !after[i].IsMigrating()
      && (t != i ==> forall x :: Owns(after[i].slotRanges, x) <==> Owns(before[i].slotRanges, x) && !slot.Contains(x))
      && (t != i ==> forall x :: Owns(after[t].slotRanges, x) <==> Owns(before[t].slotRanges, x) || slot.Contains(x))
      && (t == i ==> after[i].slotRanges == before[i].slotRanges)
      && (forall k :: 0 <= k < |after| && k != i && k != t ==> after[k] == before[k])
      && (forall k :: 0 <= k < |after| ==> after[k].nodes == before[k].nodes)
  {
    assert MigrationOk(c.shards[i]) && RangesOk(c.shards[i]);
    var slot, t := c.shards[i].migratingSlot.value.range, c.shards[i].targetShardIndex;
    assert RangesOk(c.shards[t]);
    RemoveIsDifference(c.shards[i].slotRanges, slot);
    if t == i {
      AddUndoesRemove(c.shards[i].slotRanges, slot);
    } else {
      AddIsUnion(c.shards[t].slotRanges, slot);
    }
  }

  /** A reported failure, or a state the controller does not know, changes no ownership at all. */
  lemma FailureMovesNothing(c: ClusterState, i: int, report: Report)
    requires Apply(c, CompleteMigration(i, report)).Ok? && !report.state.StateSuccess?
    ensures var after := Apply(c, CompleteMigration(i, report)).value.shards;
      && SameRanges(c.shards, after) && !after[i].IsMigrating()
      && forall k :: 0 <= k < |after| && k != i ==> after[k] == c.shards[k]
  {}

  /**
   * On a valid topology the code cannot crash, except that the controller dereferences the
   * migrating slot of a report that carries none.
   */
  lemma CrashIff(c: ClusterState, op: Op)
    requires Inv(c)
    ensures Apply(c, op) == Err(Crash) <==>
      && op.CompleteMigration? && 0 <= op.shard < |c.shards| && c.shards[op.shard].IsMigrating()
      && op.report.Report? && op.report.slot.None?
  {
    forall k | 0 <= k < |c.shards| ensures MasterIndex(c.shards[k].nodes) != -1 {
      assert OneMaster(c.shards[k].nodes);
      MasterIndexIsTheMaster(c.shards[k].nodes);
    }
    match op {
      case Failover(i, _, preferred, replies) =>
        if 0 <= i < |c.shards| {
          NewMasterIsChoice(c.shards[i].nodes, MasterIndex(c.shards[i].nodes), preferred, replies);
        }
      case _ =>
    }
  }

  // ----- What undoes what -----

  // Starting a migration records it in the shard that owns the slots, and changes nothing else.
  lemma StartRecords(c: ClusterState, slot: SlotRange, t: int)
    requires Apply(c, MigrateSlot(slot, t, false, true)).Ok?
    ensures var found := FindShardIndexBySlot(c.shards, slot);
      && found.Ok? && 0 <= t < |c.shards| && t != found.value && MasterIndex(c.shards[found.value].nodes) != -1
      && Apply(c, MigrateSlot(slot, t, false, true)).value == c.(shards := Started(c.shards, found.value, t, slot))
      && Apply(c, MigrateSlot(slot, t, true, true)) == Ok(c.(shards := Move(c.shards, found.value, t, slot)))
  {}

  function Started(shards: seq<ShardState>, i: int, t: int, slot: SlotRange): seq<ShardState>
    requires 0 <= i < |shards|
  {
    shards[i := shards[i].(migratingSlot := Some(MigratingSlot(slot, true)), targetShardIndex := t)]
  }

  lemma CompleteStarted(shards: seq<ShardState>, i: int, t: int, slot: SlotRange, state: MigratingState)
    requires 0 <= i < |shards| && 0 <= t < |shards| && MasterIndex(shards[i].nodes) != -1
    ensures var after := Started(shards, i, t, slot);
      Complete(after, i, Report(Some(slot), state)) ==
      match state
      case StateSuccess => Ok(Move(after, i, t, slot))
      case StateNone => Err(NothingToComplete)
      case StateStart => Err(NothingToComplete)
      case _ => Ok(after[i := after[i].ClearMigrateState()])
  {}

  /**
   * A migration that is started and later reported successful ends in exactly the topology that
   * the slot-only move gives at once.
   */
  lemma StartThenSuccessIsMove(c: ClusterState, slot: SlotRange, t: int)
    requires Apply(c, MigrateSlot(slot, t, false, true)).Ok?
    ensures var i := FindShardIndexBySlot(c.shards, slot).value;
      Apply(Apply(c, MigrateSlot(slot, t, false, true)).value, CompleteMigration(i, Report(Some(slot), StateSuccess)))
        == Apply(c, MigrateSlot(slot, t, true, true))
  {
    var i := FindShardIndexBySlot(c.shards, slot).value;
    StartRecords(c, slot, t);
    CompleteStarted(c.shards, i, t, slot, StateSuccess);
    SameMove(c.shards, Started(c.shards, i, t, slot), i, t, slot);
  }

  lemma SameMove(a: seq<ShardState>, b: seq<ShardState>, i: int, t: int, slot: SlotRange)
    requires 0 <= i < |a| == |b| && 0 <= t < |a| && b == a[i := b[i]]
    requires b[i].ClearMigrateState() == a[i].ClearMigrateState()
    ensures Move(a, i, t, slot) == Move(b, i, t, slot)
  {
    assert b[i].slotRanges == b[i].ClearMigrateState().slotRanges == a[i].slotRanges;
    var source := a[i].ClearMigrateState().(slotRanges := RemoveSlot(a[i].slotRanges, slot));
    assert a[i := source] == b[i := source];
  }

  /** A migration that is started and later reported failed leaves the topology as it was. */
  lemma StartThenFailureIsUndo(c: ClusterState, slot: SlotRange, t: int, state: MigratingState)
    requires Apply(c, MigrateSlot(slot, t, false, true)).Ok?
    requires state.StateFail? || state.UnknownState?
    ensures var i := FindShardIndexBySlot(c.shards, slot).value;
      Apply(Apply(c, MigrateSlot(slot, t, false, true)).value, CompleteMigration(i, Report(Some(slot), state)))
        == Ok(c.(shards := c.shards[i := c.shards[i].ClearMigrateState()]))
  {
    var i := FindShardIndexBySlot(c.shards, slot).value;
    StartRecords(c, slot, t);
    CompleteStarted(c.shards, i, t, slot, state);
    var after := Started(c.shards, i, t, slot);
    assert after[i := after[i].ClearMigrateState()] == c.shards[i := c.shards[i].ClearMigrateState()];
  }

  /** Removing a replica with a new id undoes adding it. */
  lemma AddThenRemoveNodeIsUndo(c: ClusterState, i: int, id: string, addr: string)
    requires Permitted(c.shards, AddNode(i, id, addr, Slave)) && Apply(c, AddNode(i, id, addr, Slave)).Ok?
    ensures Apply(Apply(c, AddNode(i, id, addr, Slave)).value, RemoveNode(i, id)) == Ok(c)
  {
    var nodes, after := c.shards[i].nodes, Apply(c, AddNode(i, id, addr, Slave)).value;
    forall j | 0 <= j < |nodes| ensures nodes[j].id != id {
      if nodes[j].id == id {
        assert nodes[j] in nodes;
        assert HasNode(c.shards[i], id);
      }
    }
    var grown := after.shards[i].nodes;
    assert IndexOfNode(grown, id) == |nodes| by {
      assert grown[|nodes|].id == id;
      assert forall j :: 0 <= j < |nodes| ==> grown[j] == nodes[j];
    }
    assert grown[..|nodes|] + grown[|nodes| + 1..] == nodes;
    assert after.shards[i := after.shards[i].(nodes := nodes)] == c.shards;
  }

  /** A new shard can be removed again, and that undoes its creation. */
  lemma CreateThenRemoveShardIsUndo(c: ClusterState, newNodes: seq<NewNode>)
    requires newNodes != []
    ensures Apply(c, CreateShard(newNodes)).Ok?
    ensures Apply(Apply(c, CreateShard(newNodes)).value, RemoveShard(|c.shards|)) == Ok(c)
  {
    var after := Apply(c, CreateShard(newNodes)).value.shards;
    assert !after[|c.shards|].IsServicing();
    assert after[..|c.shards|] + after[|c.shards| + 1..] == c.shards;
  }

  // ----- Pending targets and removed shards -----

  /**
   * Removing shard k splices the list without touching recorded target indices.  Index t still
   * names the same shard exactly when it lies before the removed one.
   */
  lemma TargetKeptIff(c: ClusterState, k: int, t: int)
    requires Inv(c) && Apply(c, RemoveShard(k)).Ok? && 0 <= t < |c.shards|
    ensures var after := Apply(c, RemoveShard(k)).value.shards;
      (t < |after| && after[t].nodes == c.shards[t].nodes) <==> t < k
  {
    if k <= t < |c.shards| - 1 {
      assert OneMaster(c.shards[t].nodes);
      var m :| SoleMaster(c.shards[t].nodes, m);
      assert c.shards[t].nodes[m] in c.shards[t].nodes;
      assert HasNode(c.shards[t], c.shards[t].nodes[m].id);
      assert !HasNode(c.shards[t + 1], c.shards[t].nodes[m].id);
    }
  }

  // A report of success for the migration of shard s.
  predicate Succeeded(s: ShardState, report: Report) {
    s.IsMigrating() && report.Report? && report.slot == Some(s.migratingSlot.value.range) && report.state.StateSuccess?
  }

  /**
   * If shard k is removed while shard i migrates to the last index, a reported success is refused
   * as out of range.
   */
  lemma RemovalStrandsMigration(c: ClusterState, k: int, removed: ClusterState, i: int, report: Report)
    requires Inv(c) && Apply(c, RemoveShard(k)) == Ok(removed) && 0 <= i < |c.shards| && Succeeded(c.shards[i], report)
    requires c.shards[i].targetShardIndex == |c.shards| - 1
    ensures Apply(removed, CompleteMigration(Shift(k, i), report)) == Err(IndexOutOfRange)
  {
    RemovedShards(c, k, removed);
    RemovedShardAt(c, k, removed, i);
    CompletesIff(removed, Shift(k, i), report);
  }

  // A reported success of shard i is due at the existing shard t, which has the given nodes.
  ghost predicate Due(c: ClusterState, i: int, report: Report, t: int, nodes: seq<Node>) {
    && Inv(c) && 0 <= i < |c.shards| && Succeeded(c.shards[i], report)
    && c.shards[i].targetShardIndex == t && 0 <= t < |c.shards| && c.shards[t].nodes == nodes
  }

  lemma DeliveredAs(c: ClusterState, i: int, report: Report, t: int, nodes: seq<Node>)
    requires Due(c, i, report, t, nodes)
    ensures DeliveredTo(Apply(c, CompleteMigration(i, report)), t, nodes, report.slot.value)
  {
    Delivered(c, i, report);
  }

  lemma RemovedTarget(c: ClusterState, k: int, removed: ClusterState, i: int, report: Report)
    requires Inv(c) && Apply(c, RemoveShard(k)) == Ok(removed) && 0 <= i < |c.shards| && Succeeded(c.shards[i], report)
    requires k <= c.shards[i].targetShardIndex < |c.shards| - 1
    ensures var t := c.shards[i].targetShardIndex; Due(removed, Shift(k, i), report, t, c.shards[t + 1].nodes)
  {
    var t := c.shards[i].targetShardIndex;
    RemovedShards(c, k, removed);
    RemovedShardAt(c, k, removed, i);
    RemovedShardAt(c, k, removed, t + 1);
    assert removed.shards[t] == c.shards[t + 1];
  }

  /**
   * If shard k is removed while shard i migrates to an index t at or beyond k that is not the
   * last, the slots are delivered to the shard that stood at t + 1.
   */
  lemma RemovalRedirectsMigration(c: ClusterState, k: int, removed: ClusterState, i: int, report: Report)
    requires Inv(c) && Apply(c, RemoveShard(k)) == Ok(removed) && 0 <= i < |c.shards| && Succeeded(c.shards[i], report)
    requires k <= c.shards[i].targetShardIndex < |c.shards| - 1
    ensures var t := c.shards[i].targetShardIndex;
      DeliveredTo(Apply(removed, CompleteMigration(Shift(k, i), report)), t, c.shards[t + 1].nodes, report.slot.value)
  {
    var t := c.shards[i].targetShardIndex;
    RemovedTarget(c, k, removed, i, report);
    DeliveredAs(removed, Shift(k, i), report, t, c.shards[t + 1].nodes);
  }

  // The shard at t has these nodes and owns all of the slots.
  ghost predicate DeliveredTo(r: Result<ClusterState>, t: int, nodes: seq<Node>, slot: SlotRange) {
    && r.Ok? && 0 <= t < |r.value.shards| && r.value.shards[t].nodes == nodes
    && forall x :: slot.Contains(x) ==> OwnerIs(r.value.shards, x, t)
  }

  lemma Delivered(c: ClusterState, i: int, report: Report)
    requires Inv(c) && 0 <= i < |c.shards| && Succeeded(c.shards[i], report)
    requires 0 <= c.shards[i].targetShardIndex < |c.shards|
    ensures var t := c.shards[i].targetShardIndex;
      DeliveredTo(Apply(c, CompleteMigration(i, report)), t, c.shards[t].nodes, report.slot.value)
  {
    CompletesIff(c, i, report);
    SuccessMovesExactly(c, i, report);
    assert MigrationOk(c.shards[i]);
  }

  lemma RemovedShards(c: ClusterState, k: int, removed: ClusterState)
    requires Inv(c) && Apply(c, RemoveShard(k)) == Ok(removed)
    ensures Inv(removed) && 0 <= k < |c.shards| && |removed.shards| == |c.shards| - 1 && !c.shards[k].IsMigrating()
  {
    RemoveShardKeepsInv(c, RemoveShard(k));
  }

  lemma RemovedShardAt(c: ClusterState, k: int, removed: ClusterState, i: int)
    requires Apply(c, RemoveShard(k)) == Ok(removed) && 0 <= i < |c.shards| && i != k
    ensures 0 <= Shift(k, i) < |removed.shards| && removed.shards[Shift(k, i)] == c.shards[i]
  {}

  // A matching report of success completes the migration exactly when its target index exists.
  lemma CompletesIff(c: ClusterState, i: int, report: Report)
    requires Inv(c) && 0 <= i < |c.shards| && Succeeded(c.shards[i], report) && c.shards[i].targetShardIndex >= 0
    ensures Apply(c, CompleteMigration(i, report)).Ok? <==> c.shards[i].targetShardIndex < |c.shards|
    ensures Apply(c, CompleteMigration(i, report)).Err? ==>
              Apply(c, CompleteMigration(i, report)) == Err(IndexOutOfRange)
  {
    assert OneMaster(c.shards[i].nodes);
    MasterIndexIsTheMaster(c.shards[i].nodes);
  }

  // ----- Creating a cluster -----

  function NewCluster(name: string, newNodes: seq<NewNode>, replicas: int): (r: Result<ClusterState>)
  {
    var per := if replicas == 0 then 1 else replicas;
    if |newNodes| == 0 || per < 0 || |newNodes| % per != 0 then Err(InvalidArgument)
    else
      var n := |newNodes| / per;
      BlockCount(|newNodes|, per);
      Ok(ClusterState(name, 1, seq(n, i requires 0 <= i < n => InitialShard(newNodes, n, per, i))))
  }

  function InitialShard(newNodes: seq<NewNode>, n: int, per: int, i: int): ShardState
    requires per >= 1 && 0 <= i < n && n * per == |newNodes|
  {
    BlockBounds(n, per, i);
    NEW_SHARD.(nodes := RolesByPosition(newNodes[i * per..(i + 1) * per]), slotRanges := [Slice(n, i)])
  }

  lemma BlockCount(len: int, per: int)
    requires per >= 1 && len >= 1 && len % per == 0
    ensures (len / per) * per == len && len / per >= 1
  {}

  lemma BlockBounds(n: int, per: int, i: int)
    requires per >= 1 && 0 <= i < n
    ensures 0 <= i * per && (i + 1) * per == i * per + per && (i + 1) * per <= n * per
  {
    MulMonotone(i + 1, n, per);
    MulMonotone(0, i, per);
  }

  lemma InitialNode(newNodes: seq<NewNode>, n: int, per: int, i: int, j: int)
    requires per >= 1 && 0 <= i < n && n * per == |newNodes| && 0 <= j < per
    ensures var nodes := InitialShard(newNodes, n, per, i).nodes;
      && |nodes| == per && 0 <= i * per + j < |newNodes|
      && nodes[j] == Node(newNodes[i * per + j].id, newNodes[i * per + j].addr, if j == 0 then Master else Slave)
  {
    BlockBounds(n, per, i);
  }

  function Addresses(shards: seq<ShardState>): seq<string> {
    if shards == [] then []
    else Addresses(shards[..|shards| - 1]) + AddressesOf(shards[|shards| - 1].nodes)
  }

  function AddressesOf(nodes: seq<Node>): seq<string> {
    seq(|nodes|, j requires 0 <= j < |nodes| => nodes[j].addr)
  }

  function InputAddresses(newNodes: seq<NewNode>): seq<string> {
    seq(|newNodes|, j requires 0 <= j < |newNodes| => newNodes[j].addr)
  }

  /** The addresses of the shards, in order, concatenate back to the input list. */
  lemma NewClusterKeepsAddresses(name: string, newNodes: seq<NewNode>, replicas: int)
    requires NewCluster(name, newNodes, replicas).Ok?
    ensures Addresses(NewCluster(name, newNodes, replicas).value.shards) == InputAddresses(newNodes)
  {
    var per := if replicas == 0 then 1 else replicas;
    var n := |newNodes| / per;
    var shards := NewCluster(name, newNodes, replicas).value.shards;
    PrefixAddresses(newNodes, n, per, shards, n);
    assert shards[..n] == shards && newNodes[..n * per] == newNodes;
  }

  lemma AddressesNext(shards: seq<ShardState>, s: ShardState)
    ensures Addresses(shards + [s]) == Addresses(shards) + AddressesOf(s.nodes)
  {
    assert (shards + [s])[..|shards|] == shards;
  }

  lemma BlockAddresses(newNodes: seq<NewNode>, n: int, per: int, i: int)
    requires per >= 1 && 0 <= i < n && n * per == |newNodes|
    ensures 0 <= i * per <= (i + 1) * per <= |newNodes|
    ensures InputAddresses(newNodes[..(i + 1) * per]) ==
      InputAddresses(newNodes[..i * per]) + AddressesOf(InitialShard(newNodes, n, per, i).nodes)
  {
    BlockBounds(n, per, i);
    assert newNodes[..(i + 1) * per] == newNodes[..i * per] + newNodes[i * per..(i + 1) * per];
  }

  lemma {:induction false} PrefixAddresses(newNodes: seq<NewNode>, n: int, per: int, shards: seq<ShardState>, k: int)
    requires per >= 1 && 0 <= k <= n == |shards| && n * per == |newNodes| && 0 <= k * per <= |newNodes|
    requires forall i :: 0 <= i < n ==> shards[i] == InitialShard(newNodes, n, per, i)
    ensures Addresses(shards[..k]) == InputAddresses(newNodes[..k * per])
  {
    if k > 0 {
      BlockAddresses(newNodes, n, per, k - 1);
      PrefixAddresses(newNodes, n, per, shards, k - 1);
      assert shards[..k] == shards[..k - 1] + [shards[k - 1]];
      AddressesNext(shards[..k - 1], shards[k - 1]);
    }
  }

  ghost predicate DistinctNewNodes(newNodes: seq<NewNode>) {
    forall i, j :: 0 <= i < j < |newNodes| ==> newNodes[i].id != newNodes[j].id
  }

  lemma PositionsDiffer(per: int, i: int, j: int, k: int, l: int)
    requires 0 <= j < per && 0 <= l < per && i != k
    ensures i * per + j != k * per + l
  {
    if i < k { MulMonotone(i + 1, k, per); } else { MulMonotone(k + 1, i, per); }
  }

  lemma InitialShardNodes(newNodes: seq<NewNode>, n: int, per: int, i: int)
    requires per >= 1 && n * per == |newNodes| && DistinctNewNodes(newNodes) && 0 <= i < n
    ensures var nodes := InitialShard(newNodes, n, per, i).nodes;
      |nodes| == per && OneMaster(nodes) && DistinctIds(nodes)
  {
    var nodes := InitialShard(newNodes, n, per, i).nodes;
    BlockBounds(n, per, i);
    assert SoleMaster(nodes, 0);
  }

  lemma IdsOfDifferentShards(newNodes: seq<NewNode>, n: int, per: int, i: int, j: int, k: int, l: int)
    requires per >= 1 && n * per == |newNodes| && DistinctNewNodes(newNodes)
    requires 0 <= i < n && 0 <= k < n && i != k && 0 <= j < per && 0 <= l < per
    ensures var a, b := InitialShard(newNodes, n, per, i).nodes, InitialShard(newNodes, n, per, k).nodes;
      j < |a| && l < |b| && a[j].id != b[l].id
  {
    InitialNode(newNodes, n, per, i, j);
    InitialNode(newNodes, n, per, k, l);
    PositionsDiffer(per, i, j, k, l);
  }

  lemma NewClusterNodes(newNodes: seq<NewNode>, n: int, per: int, shards: seq<ShardState>)
    requires per >= 1 && n == |shards| && n * per == |newNodes| && DistinctNewNodes(newNodes)
    requires forall i :: 0 <= i < n ==> shards[i] == InitialShard(newNodes, n, per, i)
    ensures OneMasterEach(shards) && DistinctNodes(shards)
  {
    forall i | 0 <= i < n
      ensures |shards[i].nodes| == per && OneMaster(shards[i].nodes) && DistinctIds(shards[i].nodes)
    {
      InitialShardNodes(newNodes, n, per, i);
    }
    forall i, k, id | 0 <= i < n && 0 <= k < n && HasNode(shards[i], id) && HasNode(shards[k], id) ensures i == k {
      var j :| 0 <= j < per && shards[i].nodes[j].id == id;
      var l :| 0 <= l < per && shards[k].nodes[l].id == id;
      if i != k { IdsOfDifferentShards(newNodes, n, per, i, j, k, l); }
    }
  }

  lemma NewClusterPartition(n: int, shards: seq<ShardState>)
    requires 1 <= n == |shards| <= MAX_SLOT_ID + 1
    requires forall i :: 0 <= i < n ==> shards[i].slotRanges == [Slice(n, i)]
    ensures Partitioned(shards)
  {
    forall x, i | 0 <= i < n ensures OwnerIs(shards, x, i) <==> Slice(n, i).Contains(x) {
      OwnsSingle(Slice(n, i), x);
    }
    forall i | 0 <= i < n ensures RangesOk(shards[i]) { SliceBounds(n, i); }
    forall x | MIN_SLOT_ID <= x <= MAX_SLOT_ID ensures HasOwner(shards, x) {
      var i := SlicesPartition(n, x);
      assert OwnerIs(shards, x, i);
    }
    forall x, i, j | OwnerIs(shards, x, i) && OwnerIs(shards, x, j) ensures i == j {
      if i < j { SlicesOrdered(n, i, j); }
      if j < i { SlicesOrdered(n, j, i); }
    }
  }

  lemma InitialShardsValidIff(newNodes: seq<NewNode>, n: int, per: int, c: ClusterState)
    requires per >= 1 && 1 <= n == |c.shards| && n * per == |newNodes| && DistinctNewNodes(newNodes)
    requires forall i :: 0 <= i < n ==> c.shards[i] == InitialShard(newNodes, n, per, i)
    ensures Inv(c) <==> n <= MAX_SLOT_ID + 1
  {
    assert forall i :: 0 <= i < n ==> c.shards[i].slotRanges == [Slice(n, i)] && c.shards[i].migratingSlot == None;
    if n <= MAX_SLOT_ID + 1 {
      NewClusterPartition(n, c.shards);
      NewClusterNodes(newNodes, n, per, c.shards);
    } else {
      SlicesValidIff(n);
      assert c.shards[0].slotRanges[0] == SlotRange(0, -1);
      assert !RangesOk(c.shards[0]);
    }
  }

  /**
   * A new cluster satisfies the invariant exactly when it has at most one shard per slot;
   * beyond that its first shards own the ill-formed range 0 to -1.
   */
  lemma NewClusterIsValidIff(name: string, newNodes: seq<NewNode>, replicas: int)
    requires DistinctNewNodes(newNodes) && NewCluster(name, newNodes, replicas).Ok?
    ensures Inv(NewCluster(name, newNodes, replicas).value) <==>
            |newNodes| / (if replicas == 0 then 1 else replicas) <= MAX_SLOT_ID + 1
  {
    var per := if replicas == 0 then 1 else replicas;
    BlockCount(|newNodes|, per);
    InitialShardsValidIff(newNodes, |newNodes| / per, per, NewCluster(name, newNodes, replicas).value);
  }
}
