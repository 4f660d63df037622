/**
 * What every request is answered: when it succeeds, with which result, and otherwise why not
 * (store/cluster.go, store/cluster_shard.go, server/api/shard.go, server/api/node.go).  Everything
 * is stated by owned slots, nodes and pending migrations, on valid topologies.
 */
module Answers {
  import opened SlotRanges
  import opened Topology
  import opened Failover
  import opened Partition
  import opened Migration

  // ----- Slot migration -----

  ghost predicate OwnsAll(s: ShardState, slot: SlotRange) {
    forall x :: slot.Contains(x) ==> Owns(s.slotRanges, x)
  }

  ghost predicate Source(shards: seq<ShardState>, slot: SlotRange, t: int, i: int) {
    0 <= i < |shards| && i != t && OwnsAll(shards[i], slot)
  }

  // A shard other than the target owns all the slots.
  ghost predicate HasSource(shards: seq<ShardState>, slot: SlotRange, t: int) {
    exists i :: Source(shards, slot, t, i)
  }

  // One of the two shards of the requested migration is the source of another one.
  ghost predicate Busy(shards: seq<ShardState>, slot: SlotRange, t: int)
    requires 0 <= t < |shards|
  {
    shards[t].IsMigrating() || exists i :: Source(shards, slot, t, i) && shards[i].IsMigrating()
  }

  lemma OneSource(c: ClusterState, slot: SlotRange, i: int, j: int)
    requires Inv(c) && slot.Valid() && 0 <= i < |c.shards| && 0 <= j < |c.shards|
    requires OwnsAll(c.shards[i], slot) && OwnsAll(c.shards[j], slot)
    ensures i == j
  {
    assert slot.Contains(slot.start);
    assert OwnerIs(c.shards, slot.start, i) && OwnerIs(c.shards, slot.start, j);
  }

  lemma HasMasterIndex(c: ClusterState, i: int)
    requires Inv(c) && 0 <= i < |c.shards|
    ensures MasterIndex(c.shards[i].nodes) != -1
  {
    assert OneMaster(c.shards[i].nodes);
    MasterIndexIsTheMaster(c.shards[i].nodes);
  }

  // The search asks for overlap: range k of shard i shares a slot with the request.
  predicate Touches(shards: seq<ShardState>, slot: SlotRange, i: int, k: int) {
    0 <= i < |shards| && 0 <= k < |shards[i].slotRanges| && shards[i].slotRanges[k].HasOverlap(slot)
  }

  lemma {:induction false} RangeHitsNone(rs: SlotRanges, i: int, slot: SlotRange)
    ensures RangeHits(rs, i, slot) == [] <==> forall k :: 0 <= k < |rs| ==> !rs[k].HasOverlap(slot)
  {
    if rs != [] { RangeHitsNone(rs[..|rs| - 1], i, slot); }
  }

  /** On shards of any form: the slot belongs to none exactly when no range of any shard touches it. */
  lemma {:induction false} FoundNoneIff(shards: seq<ShardState>, slot: SlotRange)
    ensures FindShardIndexBySlot(shards, slot) == Err(SlotNotBelongToAnyShard) <==>
            forall i, k :: !Touches(shards, slot, i, k)
  {
    if shards == [] {
    } else {
      var n := |shards| - 1;
      FoundNoneIff(shards[..n], slot);
      RangeHitsNone(shards[n].slotRanges, n, slot);
      if forall i, k :: !Touches(shards, slot, i, k) {
        forall i, k ensures !Touches(shards[..n], slot, i, k) { assert !Touches(shards, slot, i, k); }
        forall k | 0 <= k < |shards[n].slotRanges| ensures !shards[n].slotRanges[k].HasOverlap(slot) {
          assert !Touches(shards, slot, n, k);
        }
      } else {
        var i, k :| Touches(shards, slot, i, k);
        if i < n { assert Touches(shards[..n], slot, i, k); }
      }
    }
  }

  /** On shards of any form: a shard is found when it has the one range that touches the slot. */
  lemma FoundOne(shards: seq<ShardState>, slot: SlotRange, i: int, k: int)
    requires Touches(shards, slot, i, k) && forall j, l :: Touches(shards, slot, j, l) ==> j == i && l == k
    ensures FindShardIndexBySlot(shards, slot) == Ok(i)
  {
    forall j, l | 0 <= j < |shards| && 0 <= l < |shards[j].slotRanges|
      ensures shards[j].slotRanges[l].HasOverlap(slot) <==> j == i && l == k
    {
      assert Touches(shards, slot, j, l) <==> shards[j].slotRanges[l].HasOverlap(slot);
    }
    HitsCount(shards, slot, i, k);
  }

  /** What the search answers, by owned slots. */
  lemma FoundIs(c: ClusterState, slot: SlotRange, t: int)
    requires Inv(c) && slot.Valid() && 0 <= t < |c.shards|
    ensures var found := FindShardIndexBySlot(c.shards, slot);
      if OwnsAll(c.shards[t], slot) then found == Ok(t)
      else if HasSource(c.shards, slot, t) then found.Ok? && Source(c.shards, slot, t, found.value)
      else found == Err(SlotRangeBelongsToMultipleShards)
  {
    FindIsExact(c.shards, slot, t);
    var found := FindShardIndexBySlot(c.shards, slot);
    if i :| Source(c.shards, slot, t, i) {
      FindIsExact(c.shards, slot, i);
      assert found == Ok(i);
    } else if found.Ok? {
      FindIsExact(c.shards, slot, found.value);
      var i := found.value;
      assert OwnsAll(c.shards[i], slot);
      assert i == t || Source(c.shards, slot, t, i);
    }
  }

  /**
   * A migration is started exactly when its target exists, another shard owns all the slots,
   * neither of the two migrates, and the source accepts the command; every refusal has one reason.
   */
  lemma StartAnswer(c: ClusterState, slot: SlotRange, t: int, commandOk: bool)
    requires Inv(c) && slot.Valid()
    ensures var r := Apply(c, MigrateSlot(slot, t, false, commandOk));
      && (r.Ok? <==> 0 <= t < |c.shards| && HasSource(c.shards, slot, t) && !Busy(c.shards, slot, t) && commandOk)
      && (r == Err(IndexOutOfRange) <==> !(0 <= t < |c.shards|))
      && (r == Err(ShardIsSame) <==> 0 <= t < |c.shards| && OwnsAll(c.shards[t], slot))
      && (r == Err(ShardSlotIsMigrating) <==>
            0 <= t < |c.shards| && HasSource(c.shards, slot, t) && Busy(c.shards, slot, t))
      && (r == Err(CommandFailed) <==>
            0 <= t < |c.shards| && HasSource(c.shards, slot, t) && !Busy(c.shards, slot, t) && !commandOk)
      && (r == Err(SlotRangeBelongsToMultipleShards) <==>
            0 <= t < |c.shards| && !OwnsAll(c.shards[t], slot) && !HasSource(c.shards, slot, t))
  {
    if 0 <= t < |c.shards| {
      FoundIs(c, slot, t);
      NotBoth(c, slot, t);
      HasMasterIndex(c, t);
      var found := FindShardIndexBySlot(c.shards, slot);
      if found.Ok? {
        HasMasterIndex(c, found.value);
        BusySource(c, slot, t, found.value);
      }
    }
  }

  lemma NotBoth(c: ClusterState, slot: SlotRange, t: int)
    requires Inv(c) && slot.Valid() && 0 <= t < |c.shards|
    ensures OwnsAll(c.shards[t], slot) ==> !HasSource(c.shards, slot, t)
  {
    if i :| Source(c.shards, slot, t, i) {
      if OwnsAll(c.shards[t], slot) { OneSource(c, slot, i, t); }
    }
  }

  lemma BusySource(c: ClusterState, slot: SlotRange, t: int, i: int)
    requires Inv(c) && slot.Valid() && 0 <= t < |c.shards|
    ensures Source(c.shards, slot, t, i) ==>
      (Busy(c.shards, slot, t) <==> c.shards[t].IsMigrating() || c.shards[i].IsMigrating())
  {
    if Source(c.shards, slot, t, i) {
      if j :| Source(c.shards, slot, t, j) && c.shards[j].IsMigrating() { OneSource(c, slot, i, j); }
    }
  }

  /** A slot-only move asks neither whether a shard migrates nor the source. */
  lemma MoveAnswer(c: ClusterState, slot: SlotRange, t: int, commandOk: bool)
    requires Inv(c) && slot.Valid()
    ensures var r := Apply(c, MigrateSlot(slot, t, true, commandOk));
      && (r.Ok? <==> 0 <= t < |c.shards| && HasSource(c.shards, slot, t))
      && (r == Err(IndexOutOfRange) <==> !(0 <= t < |c.shards|))
      && (r == Err(ShardIsSame) <==> 0 <= t < |c.shards| && OwnsAll(c.shards[t], slot))
      && (r == Err(SlotRangeBelongsToMultipleShards) <==>
            0 <= t < |c.shards| && !OwnsAll(c.shards[t], slot) && !HasSource(c.shards, slot, t))
  {
    if 0 <= t < |c.shards| {
      FoundIs(c, slot, t);
      NotBoth(c, slot, t);
    }
  }

  /** A started migration is recorded in the shard that owns the slots, and nothing else changes. */
  lemma StartRecordsMigration(c: ClusterState, slot: SlotRange, t: int, commandOk: bool, i: int)
    requires Inv(c) && slot.Valid() && Apply(c, MigrateSlot(slot, t, false, commandOk)).Ok?
    requires Source(c.shards, slot, t, i)
    ensures var after := Apply(c, MigrateSlot(slot, t, false, commandOk)).value;
      && after.version == c.version && after.name == c.name && |after.shards| == |c.shards|
      && (forall k :: 0 <= k < |c.shards| && k != i ==> after.shards[k] == c.shards[k])
      && after.shards[i].IsMigrating() && after.shards[i].targetShardIndex == t
      && after.shards[i].migratingSlot.value.range == slot
      && after.shards[i].nodes == c.shards[i].nodes && after.shards[i].slotRanges == c.shards[i].slotRanges
  {
    FindIsExact(c.shards, slot, i);
  }

  // ----- Nodes -----

  ghost predicate HasAddress(s: ShardState, addr: string) {
    exists n :: n in s.nodes && n.addr == addr
  }

  // Only shard i changes, to the given nodes.
  ghost predicate NodesBecome(c: ClusterState, i: int, nodes: seq<Node>, after: ClusterState) {
    0 <= i < |c.shards| && after == c.(shards := c.shards[i := c.shards[i].(nodes := nodes)])
  }

  /** A shard of a valid topology accepts exactly replicas with a new address, and appends them. */
  lemma AddNodeAnswer(c: ClusterState, i: int, id: string, addr: string, role: Role)
    requires Inv(c)
    ensures var r := Apply(c, AddNode(i, id, addr, role));
      && (r.Ok? <==> 0 <= i < |c.shards| && role == Slave && !HasAddress(c.shards[i], addr))
      && (r.Ok? ==> NodesBecome(c, i, c.shards[i].nodes + [Node(id, addr, Slave)], r.value))
      && (r == Err(IndexOutOfRange) <==> !(0 <= i < |c.shards|))
      && (r == Err(InvalidArgument) <==> 0 <= i < |c.shards| && role != Master && role != Slave)
      && (r == Err(AlreadyExists) <==>
            0 <= i < |c.shards| && (role == Master || (role == Slave && HasAddress(c.shards[i], addr))))
  {
    if 0 <= i < |c.shards| { HasMasterIndex(c, i); }
  }

  /** Any shard: a first node may be a master, and an address is never repeated. */
  lemma AddNodeToAnswer(s: ShardState, id: string, addr: string, role: Role)
    ensures var r := AddNodeTo(s, id, addr, role);
      && (r.Ok? <==> (role == Slave || (role == Master && s.nodes == [])) && !HasAddress(s, addr))
      && (r.Ok? ==> r.value == s.(nodes := s.nodes + [Node(id, addr, role)]))
      && (r == Err(InvalidArgument) <==> role != Master && role != Slave)
  {
    assert HasAddress(s, addr) <==> exists n :: n in s.nodes && n.addr == addr;
  }

  /** Exactly replicas can be removed; a master and an unknown id are refused with different errors. */
  lemma RemoveNodeAnswer(c: ClusterState, i: int, id: string)
    requires Inv(c)
    ensures var r := Apply(c, RemoveNode(i, id));
      && (r.Ok? <==> 0 <= i < |c.shards| && exists n :: n in c.shards[i].nodes && n.id == id && !n.IsMaster())
      && (r == Err(IndexOutOfRange) <==> !(0 <= i < |c.shards|))
      && (r == Err(NotFound) <==> 0 <= i < |c.shards| && !HasNode(c.shards[i], id))
      && (r == Err(InvalidArgument) <==>
            0 <= i < |c.shards| && exists n :: n in c.shards[i].nodes && n.id == id && n.IsMaster())
  {
    if 0 <= i < |c.shards| {
      assert DistinctIds(c.shards[i].nodes);
      FirstIsOnly(c.shards[i].nodes, id);
    }
  }

  lemma FirstIsOnly(nodes: seq<Node>, id: string)
    requires DistinctIds(nodes)
    ensures var k := IndexOfNode(nodes, id);
      && (k < |nodes| <==> exists n :: n in nodes && n.id == id)
      && forall n :: n in nodes && n.id == id ==> k < |nodes| && n == nodes[k]
  {
    var k := IndexOfNode(nodes, id);
    if k < |nodes| { assert nodes[k] in nodes && nodes[k].id == id; }
    forall n | n in nodes && n.id == id ensures k < |nodes| && n == nodes[k] {
      var j :| 0 <= j < |nodes| && nodes[j] == n;
    }
  }

  // ----- Shards -----

  // The nodes are the requested ones in order, the first one a master and the others its slaves.
  ghost predicate Staffed(nodes: seq<Node>, newNodes: seq<NewNode>) {
    && |nodes| == |newNodes|
    && forall j :: 0 <= j < |nodes| ==>
         && nodes[j].id == newNodes[j].id && nodes[j].addr == newNodes[j].addr
         && nodes[j].role == if j == 0 then Master else Slave
  }

  /** A shard is created from any nodes but none; it has all of them, no slots and no migration. */
  lemma CreateShardAnswer(c: ClusterState, newNodes: seq<NewNode>)
    ensures var r := Apply(c, CreateShard(newNodes));
      && (r.Ok? <==> newNodes != [])
      && (r.Err? ==> r == Err(InvalidArgument))
      && (r.Ok? ==>
            var after := r.value.shards;
            && |after| == |c.shards| + 1 && after[..|c.shards|] == c.shards
            && Staffed(after[|c.shards|].nodes, newNodes)
            && !after[|c.shards|].IsMigrating() && forall x :: !Owns(after[|c.shards|].slotRanges, x))
  {}

  /** Exactly shards that own nothing and migrate nothing are removed; the others stay in order. */
  lemma RemoveShardAnswer(c: ClusterState, k: int)
    requires Inv(c)
    ensures var r := Apply(c, RemoveShard(k));
      && (r.Ok? <==>
            0 <= k < |c.shards| && !c.shards[k].IsMigrating() && forall x :: !Owns(c.shards[k].slotRanges, x))
      && (r == Err(IndexOutOfRange) <==> !(0 <= k < |c.shards|))
      && (r == Err(ShardIsServicing) <==>
            0 <= k < |c.shards| && (c.shards[k].IsMigrating() || exists x :: Owns(c.shards[k].slotRanges, x)))
      && (r.Ok? ==>
            && |r.value.shards| == |c.shards| - 1
            && forall j :: 0 <= j < |c.shards| && j != k ==> r.value.shards[Shift(k, j)] == c.shards[j])
  {
    if 0 <= k < |c.shards| {
      assert RangesOk(c.shards[k]);
      ServicingIff(c.shards[k]);
    }
  }

  lemma ServicingIff(s: ShardState)
    requires RangesOk(s)
    ensures s.IsServicing() <==> s.IsMigrating() || exists x :: Owns(s.slotRanges, x)
  {
    if !s.IsServicing() { IdleShardOwnsNothing(s); }
    if r :| r in s.slotRanges && (r.start != -1 || r.stop != -1) {
      var i :| 0 <= i < |s.slotRanges| && s.slotRanges[i] == r;
      assert r.Contains(r.start);
      assert Owns(s.slotRanges, r.start);
    }
  }

  /** A new cluster: the nodes in blocks of equal size, each with its slice of the slots. */
  lemma NewClusterAnswer(name: string, newNodes: seq<NewNode>, replicas: int)
    ensures var r, per := NewCluster(name, newNodes, replicas), if replicas == 0 then 1 else replicas;
      && (r.Ok? <==> newNodes != [] && per > 0 && |newNodes| % per == 0)
      && (r.Err? ==> r == Err(InvalidArgument))
      && (r.Ok? ==>
            && r.value.name == name && r.value.version == 1 && |r.value.shards| * per == |newNodes|
            && forall i :: 0 <= i < |r.value.shards| ==>
                 InitialShardIs(r.value.shards[i], |r.value.shards|, newNodes, per, i))
  {
    var r, per := NewCluster(name, newNodes, replicas), if replicas == 0 then 1 else replicas;
    if r.Ok? {
      var n := |newNodes| / per;
      BlockCount(|newNodes|, per);
      forall i | 0 <= i < n ensures InitialShardIs(r.value.shards[i], n, newNodes, per, i) {
        InitialShardStaffed(newNodes, n, per, i);
      }
    }
  }

  lemma InitialShardStaffed(newNodes: seq<NewNode>, n: int, per: int, i: int)
    requires per >= 1 && 0 <= i < n && n * per == |newNodes|
    ensures InitialShardIs(InitialShard(newNodes, n, per, i), n, newNodes, per, i)
  {
    BlockBounds(n, per, i);
  }

  // Shard i of n.
  ghost predicate InitialShardIs(s: ShardState, n: int, newNodes: seq<NewNode>, per: int, i: int)
    requires n >= 1
  {
    && 0 <= i * per <= (i + 1) * per <= |newNodes|
    && Staffed(s.nodes, newNodes[i * per..(i + 1) * per])
    && s.slotRanges == [Slice(n, i)] && !s.IsMigrating()
  }

  // ----- Failover -----

  /** Why a failover is refused; on a valid topology there is always a master. */
  lemma FailoverAnswer(c: ClusterState, i: int, masterID: string, preferred: string, replies: seq<Reply>)
    requires Inv(c)
    ensures var r := Apply(c, Failover(i, masterID, preferred, replies));
      && (r.Ok? <==> 0 <= i < |c.shards| && Promotable(c.shards[i].nodes, masterID, replies))
      && (r == Err(IndexOutOfRange) <==> !(0 <= i < |c.shards|))
      && (r == Err(ShardNoReplica) <==> 0 <= i < |c.shards| && |c.shards[i].nodes| == 1)
      && (r == Err(NodeIsNotMaster) <==>
            && 0 <= i < |c.shards| && |c.shards[i].nodes| > 1 && masterID != ""
            && !exists n :: n in c.shards[i].nodes && n.id == masterID && n.IsMaster())
      && (r == Err(ShardNoMatchNewMaster) <==>
            && 0 <= i < |c.shards| && |c.shards[i].nodes| > 1
            && (masterID == "" || exists n :: n in c.shards[i].nodes && n.id == masterID && n.IsMaster())
            && forall j :: 0 <= j < |c.shards[i].nodes| ==> !Eligible(MasterIndex(c.shards[i].nodes), replies, j))
  {
    if 0 <= i < |c.shards| {
      var nodes := c.shards[i].nodes;
      assert OneMaster(nodes);
      MasterIndexIsTheMaster(nodes);
      PromoteIffPromotable(c.shards[i], masterID, preferred, replies);
      NewMasterIsChoice(nodes, MasterIndex(nodes), preferred, replies);
      assert nodes[MasterIndex(nodes)] in nodes;
      forall n | n in nodes && n.IsMaster() ensures n == nodes[MasterIndex(nodes)] {
        var j :| 0 <= j < |nodes| && nodes[j] == n;
      }
    }
  }
}
