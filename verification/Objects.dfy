/**
 * Shards and clusters as the objects that the Go code updates in place
 * (store/cluster_shard.go, store/cluster.go).  `View` gives the value that the store would
 * keep; every method is proved against the operation on values in module Topology.
 */
module Objects {
  import opened SlotRanges
  import opened Topology
  import opened Failover
  import M = Migration
  import opened Moves

  // The backing array after the element at i is overwritten by those behind it, up to len.
  function Compacted(nodes: seq<Node>, i: nat, len: nat): (after: seq<Node>)
    requires i < len <= |nodes|
    ensures |after| == |nodes|
  {
    nodes[..i] + nodes[i + 1..len] + nodes[len - 1..]
  }

  method CompactAt(backing: array<Node>, i: nat, len: nat)
    requires i < len <= backing.Length
    modifies backing
    ensures backing[..] == Compacted(old(backing[..]), i, len)
  {
    forall j | i <= j < len - 1 { backing[j] := backing[j + 1]; }
    assert backing[..] == Compacted(old(backing[..]), i, len);
  }

  // What a removal returns, and the nodes it leaves.
  datatype Removal = Removal(result: Result<()>, nodes: seq<Node>)

  // Removing the nodes named `id` from position i on, in an array of which the first `len` nodes are current.
  function RemoveFrom(backing: seq<Node>, len: nat, i: nat, found: bool, id: string): Removal
    requires len <= |backing| && i <= |backing|
    decreases |backing| - i
  {
    if i == |backing| then Removal(if found then Ok(()) else Err(NotFound), backing[..len])
    else if backing[i].id != id then RemoveFrom(backing, len, i + 1, found, id)
    else if backing[i].IsMaster() then Removal(Err(InvalidArgument), backing[..len])
    else if i + 1 > len then Removal(Err(Crash), backing[..len])
    else RemoveFrom(Compacted(backing, i, len), len - 1, i + 1, true, id)
  }

  lemma {:induction false} SkipsOthers(backing: seq<Node>, len: nat, i: nat, found: bool, id: string, k: nat)
    requires len <= |backing| && i <= k <= |backing|
    requires forall j :: i <= j < k ==> backing[j].id != id
    ensures RemoveFrom(backing, len, i, found, id) == RemoveFrom(backing, len, k, found, id)
    decreases k - i
  {
    if i < k { SkipsOthers(backing, len, i + 1, found, id, k); }
  }

  // The result and the new value are those of the operation on values; an error changes nothing.
  predicate RemovesNode(s: ShardState, id: string, r: Result<()>, after: ShardState) {
    match RemoveNodeFrom(s, id)
    case Ok(removed) => r == Ok(()) && after == removed
    case Err(e) => r == Err(e) && after == s
  }

  /** With distinct ids the loop takes out the named replica, and refuses a master or an unknown id. */
  lemma RemovesNamed(s: ShardState, id: string)
    requires DistinctIds(s.nodes)
    ensures var removal := RemoveFrom(s.nodes, |s.nodes|, 0, false, id);
      RemovesNode(s, id, removal.result, s.(nodes := removal.nodes))
  {
    var nodes, n, k := s.nodes, |s.nodes|, IndexOfNode(s.nodes, id);
    SkipsOthers(nodes, n, 0, false, id, k);
    assert nodes[..n] == nodes;
    if k < n && !nodes[k].IsMaster() {
      var after := Compacted(nodes, k, n);
      SkipsOthers(after, n - 1, k + 1, true, id, n);
      assert after[..n - 1] == nodes[..k] + nodes[k + 1..];
    }
  }

  class Shard {
    var nodes: seq<Node>
    var slotRanges: SlotRanges
    var targetShardIndex: int
    var migratingSlot: Option<MigratingSlot>

    function View(): ShardState
      reads this
    {
      ShardState(nodes, slotRanges, targetShardIndex, migratingSlot)
    }

    constructor ()
      ensures View() == NEW_SHARD
    {
      nodes, slotRanges, targetShardIndex, migratingSlot := [], [], -1, None;
    }

    constructor FromState(s: ShardState)
      ensures View() == s
    {
      nodes, slotRanges, targetShardIndex, migratingSlot :=
        s.nodes, s.slotRanges, s.targetShardIndex, s.migratingSlot;
    }

    method Clone() returns (clone: Shard)
      ensures fresh(clone) && clone.View() == View()
    {
      clone := new Shard();
      clone.slotRanges := slotRanges;
      clone.targetShardIndex := targetShardIndex;
      clone.migratingSlot := migratingSlot;
      clone.nodes := nodes;
    }

    method ClearMigrateState()
      modifies this
      ensures View() == old(View()).ClearMigrateState()
    {
      migratingSlot := None;
      targetShardIndex := -1;
    }

    method StartMigrating(slot: SlotRange, target: int)
      modifies this
      ensures View() == old(View()).(migratingSlot := Some(MigratingSlot(slot, true)), targetShardIndex := target)
    {
      migratingSlot := Some(MigratingSlot(slot, true));
      targetShardIndex := target;
    }

    method IsServicing() returns (b: bool)
      ensures b == View().IsServicing()
    {
      for i := 0 to |slotRanges|
        invariant forall j :: 0 <= j < i ==> !(slotRanges[j].start != -1 || slotRanges[j].stop != -1)
      {
        if slotRanges[i].start != -1 || slotRanges[i].stop != -1 {
          assert slotRanges[i] in View().slotRanges;
          return true;
        }
      }
      return View().IsMigrating();
    }

    method AddNode(id: string, addr: string, role: Role) returns (r: Result<()>)
      modifies this`nodes
      ensures match AddNodeTo(old(View()), id, addr, role)
              case Ok(s) => r == Ok(()) && View() == s
              case Err(e) => r == Err(e) && View() == old(View())
    {
      if role != Master && role != Slave {
        return Err(InvalidArgument);
      }
      for i := 0 to |nodes|
        invariant forall j :: 0 <= j < i ==> nodes[j].addr != addr
      {
        if nodes[i].addr == addr {
          assert nodes[i] in View().nodes;
          return Err(AlreadyExists);
        }
      }
      if role == Master && |nodes| > 0 {
        return Err(AlreadyExists);
      }
      nodes := nodes + [Node(id, addr, role)];
      return Ok(());
    }

    /**
     * The loop ranges over the slice header it started with, while each removal compacts the
     * array below it and shortens the current header: `backing` is that array and `len` the
     * current length.  A node behind a removed one is skipped and the last one is seen twice;
     * with distinct ids the result is nevertheless the list without the named replica.
     */
    method RemoveNode(id: string) returns (r: Result<()>)
      modifies this`nodes
      ensures Removal(r, nodes) == RemoveFrom(old(nodes), |old(nodes)|, 0, false, id)
      ensures DistinctIds(old(nodes)) ==> RemovesNode(old(View()), id, r, View())
    {
      ghost var removal := RemoveFrom(nodes, |nodes|, 0, false, id);
      if DistinctIds(nodes) { RemovesNamed(View(), id); }
      var n := |nodes|;
      var backing := new Node[n](i requires 0 <= i < |nodes| reads this => nodes[i]);
      var len, isFound, i := n, false, 0;
      assert backing[..] == nodes;
      while i < n
        invariant 0 <= i <= n && 0 <= len <= n && nodes == old(nodes)
        invariant RemoveFrom(backing[..], len, i, isFound, id) == removal
      {
        if backing[i].id == id {
          if backing[i].IsMaster() {
            nodes := backing[..len];
            return Err(InvalidArgument);
          }
          if i + 1 > len {
            nodes := backing[..len];
            return Err(Crash);
          }
          CompactAt(backing, i, len);
          len := len - 1;
          isFound := true;
        }
        i := i + 1;
      }
      nodes := backing[..len];
      return if isFound then Ok(()) else Err(NotFound);
    }

    method GetNewMasterNodeIndex(master: int, preferred: string, replies: seq<Reply>) returns (index: int)
      ensures index == NewMasterIndex(nodes, master, preferred, replies)
      ensures IsChoice(nodes, master, preferred, replies, index)
    {
      NewMasterIsChoice(nodes, master, preferred, replies);
      index := -1;
      var newest := 0;
      for i := 0 to |nodes|
        invariant Scan(nodes, master, preferred, replies, i, index, newest)
               == NewMasterIndex(nodes, master, preferred, replies)
      {
        if i == master {
          continue;
        }
        var reply := ReplyOf(replies, i);
        if reply.Unreachable? || !reply.clusterInfoOk {
          continue;
        }
        if reply.info.None? {
          continue;
        }
        if reply.info.value.role != Slave || reply.info.value.sequence == 0 {
          continue;
        }
        if preferred != "" && nodes[i].id == preferred {
          return i;
        }
        if reply.info.value.sequence >= newest {
          index := i;
          newest := reply.info.value.sequence;
        }
      }
    }

    method PromoteNewMaster(masterID: string, preferred: string, replies: seq<Reply>) returns (r: Result<string>)
      modifies this`nodes
      ensures match Promote(old(View()), masterID, preferred, replies)
              case Ok(s) => View() == s && r == Ok(PromotedID(old(nodes), masterID, preferred, replies))
              case Err(e) => r == Err(e) && View() == old(View())
    {
      if |nodes| <= 1 {
        return Err(ShardNoReplica);
      }
      var oldMaster := FindMaster(nodes);
      if oldMaster == -1 {
        return Err(OldMasterNodeNotFound);
      }
      if masterID != "" && nodes[oldMaster].id != masterID {
        return Err(NodeIsNotMaster);
      }
      NewMasterIsChoice(nodes, oldMaster, preferred, replies);
      var newMaster := GetNewMasterNodeIndex(oldMaster, preferred, replies);
      if newMaster == -1 {
        return Err(ShardNoMatchNewMaster);
      }
      nodes := nodes[oldMaster := nodes[oldMaster].(role := Slave)];
      nodes := nodes[newMaster := nodes[newMaster].(role := Master)];
      return Ok(nodes[newMaster].id);
    }
  }

  ghost function Views(shards: seq<Shard>): (v: seq<ShardState>)
    reads shards
    ensures |v| == |shards| && forall i :: 0 <= i < |v| ==> v[i] == shards[i].View()
  {
    seq(|shards|, i requires 0 <= i < |shards| reads shards => shards[i].View())
  }

  function Found(source: int): seq<int> { if source == -1 then [] else [source] }

  lemma HitsNext(shards: seq<ShardState>, i: nat, slot: SlotRange)
    requires i < |shards|
    ensures Hits(shards[..i + 1], slot) == Hits(shards[..i], slot) + RangeHits(shards[i].slotRanges, i, slot)
  {
    assert shards[..i + 1][..i] == shards[..i];
  }

  // Later shards only add hits.
  lemma {:induction false} HitsGrow(shards: seq<ShardState>, i: nat, slot: SlotRange)
    requires i < |shards|
    ensures |Hits(shards, slot)| >= |Hits(shards[..i], slot)| + |RangeHits(shards[i].slotRanges, i, slot)|
  {
    var n := |shards| - 1;
    if i < n {
      HitsGrow(shards[..n], i, slot);
      assert shards[..n][..i] == shards[..i];
    }
  }

  lemma {:induction false} RangeHitsGrow(rs: SlotRanges, i: int, j: nat, slot: SlotRange)
    requires j <= |rs|
    ensures |RangeHits(rs, i, slot)| >= |RangeHits(rs[..j], i, slot)|
  {
    if j == |rs| {
      assert rs[..j] == rs;
    } else {
      RangeHitsGrow(rs[..|rs| - 1], i, j, slot);
      assert rs[..|rs| - 1][..j] == rs[..j];
    }
  }

  // The inner loop over the ranges of shard i, with the shard found so far.
  method ScanRanges(rs: SlotRanges, i: nat, slot: SlotRange, before: int) returns (source: int, multiple: bool)
    requires -1 <= before < i
    ensures multiple ==> |Found(before)| + |RangeHits(rs, i, slot)| > 1
    ensures !multiple ==> -1 <= source <= i && Found(source) == Found(before) + RangeHits(rs, i, slot)
  {
    source := before;
    for j := 0 to |rs|
      invariant -1 <= source <= i
      invariant Found(source) == Found(before) + RangeHits(rs[..j], i, slot)
    {
      assert rs[..j + 1][..j] == rs[..j];
      if rs[j].HasOverlap(slot) {
        if source != -1 {
          RangeHitsGrow(rs, i, j + 1, slot);
          return source, true;
        }
        source := i;
      }
    }
    assert rs[..|rs|] == rs;
    multiple := false;
  }

  // The inner loop of NewCluster.
  method NewNodes(newNodes: seq<NewNode>, n: int, per: int, i: int) returns (nodes: seq<Node>)
    requires per >= 1 && 0 <= i < n && n * per == |newNodes|
    ensures nodes == M.InitialShard(newNodes, n, per, i).nodes
  {
    M.BlockBounds(n, per, i);
    ghost var expected := M.InitialShard(newNodes, n, per, i).nodes;
    nodes := [];
    for j := 0 to per
      invariant nodes == expected[..j]
    {
      M.InitialNode(newNodes, n, per, i, j);
      nodes := nodes + [Node(newNodes[i * per + j].id, newNodes[i * per + j].addr, if j != 0 then Slave else Master)];
    }
    assert expected[..per] == expected;
  }

  class Cluster {
    var name: string
    var version: int
    var shards: seq<Shard>

    ghost predicate Valid()
      reads this
    {
      forall i, j :: 0 <= i < j < |shards| ==> shards[i] != shards[j]
    }

    ghost function View(): ClusterState
      reads this, shards
    {
      ClusterState(name, version, Views(shards))
    }

    constructor FromState(c: ClusterState)
      ensures Valid() && View() == c && forall i :: 0 <= i < |shards| ==> fresh(shards[i])
    {
      name, version, shards := c.name, c.version, [];
      new;
      for i := 0 to |c.shards|
        invariant Valid() && name == c.name && version == c.version && |shards| == i
        invariant forall k :: 0 <= k < i ==> fresh(shards[k]) && shards[k].View() == c.shards[k]
      {
        var shard := new Shard.FromState(c.shards[i]);
        shards := shards + [shard];
      }
      assert Views(shards) == c.shards;
    }

    static method New(name: string, newNodes: seq<NewNode>, replicas: int) returns (r: Result<Cluster>)
      ensures match M.NewCluster(name, newNodes, replicas)
              case Ok(c) => r.Ok? && fresh(r.value) && r.value.Valid() && r.value.View() == c
              case Err(e) => r == Err(e)
    {
      if |newNodes| == 0 || replicas < 0 {
        return Err(InvalidArgument);
      }
      var per := if replicas == 0 then 1 else replicas;
      if |newNodes| % per != 0 {
        return Err(InvalidArgument);
      }
      var shardCount := |newNodes| / per;
      M.BlockCount(|newNodes|, per);
      var slotRanges := CalculateSlotRanges(shardCount);
      var shards: seq<Shard> := [];
      for i := 0 to shardCount
        invariant |shards| == i && forall k :: 0 <= k < i ==> fresh(shards[k])
        invariant forall k, l :: 0 <= k < l < i ==> shards[k] != shards[l]
        invariant forall k :: 0 <= k < i ==> shards[k].View() == M.InitialShard(newNodes, shardCount, per, k)
      {
        var nodes := NewNodes(newNodes, shardCount, per, i);
        var shard := new Shard();
        shard.nodes := nodes;
        shard.slotRanges := [slotRanges[i]];
        shards := shards + [shard];
      }
      var c := new Cluster.FromState(ClusterState(name, 1, []));
      c.shards := shards;
      assert Views(shards) == M.NewCluster(name, newNodes, replicas).value.shards;
      return Ok(c);
    }

    method Clone() returns (clone: Cluster)
      requires Valid()
      ensures fresh(clone) && clone.Valid() && clone.View() == View()
      ensures forall i :: 0 <= i < |clone.shards| ==> fresh(clone.shards[i])
    {
      clone := new Cluster.FromState(ClusterState(name, version, []));
      for i := 0 to |shards|
        invariant fresh(clone) && clone.Valid() && clone.name == name && clone.version == version
        invariant |clone.shards| == i
        invariant forall k :: 0 <= k < i ==> fresh(clone.shards[k]) && clone.shards[k].View() == shards[k].View()
      {
        var shard := shards[i].Clone();
        clone.shards := clone.shards + [shard];
      }
      assert Views(clone.shards) == Views(shards);
    }

    // What the store keeps of this object.
    method Snapshot() returns (c: ClusterState)
      ensures c == View()
    {
      var states: seq<ShardState> := [];
      for i := 0 to |shards|
        invariant states == Views(shards)[..i]
      {
        states := states + [shards[i].View()];
      }
      return ClusterState(name, version, states);
    }

    method FindShardIndexBySlot(slot: SlotRange) returns (r: Result<int>)
      ensures r == Topology.FindShardIndexBySlot(Views(shards), slot)
    {
      ghost var v := Views(shards);
      var source := -1;
      for i := 0 to |shards|
        invariant -1 <= source < i
        invariant Hits(v[..i], slot) == Found(source)
      {
        HitsNext(v, i, slot);
        var multiple;
        source, multiple := ScanRanges(shards[i].slotRanges, i, slot, source);
        if multiple {
          HitsGrow(v, i, slot);
          return Err(SlotRangeBelongsToMultipleShards);
        }
      }
      assert v[..|v|] == v;
      if source == -1 {
        return Err(SlotNotBelongToAnyShard);
      }
      return Ok(source);
    }

    // Written out in MigrateSlot and again where the controller completes a migration.
    method TakeSlot(source: int, slot: SlotRange) returns (ghost cut: SlotRanges)
      requires Valid() && 0 <= source < |shards|
      modifies shards
      ensures var v := old(Views(shards));
        && IsRemoval(v[source].slotRanges, slot, cut)
        && Views(shards) == v[source := v[source].ClearMigrateState().(slotRanges := cut)]
    {
      ghost var v := Views(shards);
      var shard := shards[source];
      shard.ClearMigrateState();
      shard.slotRanges := RemoveSlotFromSlotRanges(shard.slotRanges, slot);
      cut := shard.slotRanges;
      assert forall i :: 0 <= i < |shards| && i != source ==> shards[i].View() == v[i];
    }

    method GiveSlot(target: int, slot: SlotRange)
      requires Valid() && 0 <= target < |shards|
      modifies shards
      ensures var v, after := old(Views(shards)), Views(shards)[target].slotRanges;
        && IsAddition(v[target].slotRanges, slot, after)
        && Views(shards) == v[target := v[target].(slotRanges := after)]
    {
      ghost var v := Views(shards);
      var shard := shards[target];
      shard.slotRanges := AddSlotToSlotRanges(shard.slotRanges, slot);
      assert forall i :: 0 <= i < |shards| && i != target ==> shards[i].View() == v[i];
    }

    method MoveSlot(source: int, target: int, slot: SlotRange)
      requires Valid() && 0 <= source < |shards| && 0 <= target < |shards|
      modifies shards
      ensures Moved(old(Views(shards)), Views(shards), source, target, slot)
      ensures slot.start <= slot.stop && Normalized(old(Views(shards))) ==>
        Views(shards) == Move(old(Views(shards)), source, target, slot)
    {
      ghost var v := Views(shards);
      ghost var cut := TakeSlot(source, slot);
      GiveSlot(target, slot);
      assert MovedBy(v, Views(shards), source, target, slot, cut);
      if slot.start <= slot.stop && Normalized(v) { MovedIsMove(v, Views(shards), source, target, slot); }
    }

    /** On a normalised topology this is exactly `Migrate`; an error never changes anything. */
    method MigrateSlot(slot: SlotRange, target: int, slotOnly: bool, commandOk: bool) returns (r: Result<()>)
      requires Valid()
      modifies shards
      ensures match Migrate(old(View()).shards, slot, target, slotOnly, commandOk)
              case Ok(v) =>
                && r == Ok(())
                && (!slotOnly || (slot.start <= slot.stop && Normalized(old(Views(shards)))) ==> View().shards == v)
              case Err(e) => r == Err(e) && View() == old(View())
      ensures r.Ok? && slotOnly ==>
        var source := Topology.FindShardIndexBySlot(old(Views(shards)), slot);
        source.Ok? && Moved(old(Views(shards)), Views(shards), source.value, target, slot)
    {
      ghost var v := Views(shards);
      if target < 0 || target >= |shards| {
        return Err(IndexOutOfRange);
      }
      var found := FindShardIndexBySlot(slot);
      if found.Err? {
        return Err(found.error);
      }
      var source := found.value;
      if source == target {
        return Err(ShardIsSame);
      }
      if slotOnly {
        MoveSlot(source, target, slot);
        return Ok(());
      }
      if shards[source].View().IsMigrating() || shards[target].View().IsMigrating() {
        return Err(ShardSlotIsMigrating);
      }
      var sourceMaster := FindMaster(shards[source].nodes);
      if sourceMaster == -1 {
        return Err(NotFound);
      }
      var targetMaster := FindMaster(shards[target].nodes);
      if targetMaster == -1 {
        return Err(Crash);
      }
      if !commandOk {
        return Err(CommandFailed);
      }
      shards[source].StartMigrating(slot, target);
      assert Views(shards) == v[source := shards[source].View()];
      return Ok(());
    }

    method AddNode(shard: int, id: string, addr: string, role: Role) returns (r: Result<()>)
      requires Valid()
      modifies shards
      ensures match Apply(old(View()), Op.AddNode(shard, id, addr, role))
              case Ok(c) => r == Ok(()) && View() == c
              case Err(e) => r == Err(e) && View() == old(View())
    {
      ghost var v := Views(shards);
      if shard < 0 || shard >= |shards| {
        return Err(IndexOutOfRange);
      }
      r := shards[shard].AddNode(id, addr, role);
      assert forall i :: 0 <= i < |shards| && i != shard ==> shards[i].View() == v[i];
      assert r.Err? ==> Views(shards) == v;
    }

    method RemoveNode(shard: int, id: string) returns (r: Result<()>)
      requires Valid()
      modifies shards
      ensures !(0 <= shard < |shards|) ==> r == Err(IndexOutOfRange) && View() == old(View())
      ensures 0 <= shard < |shards| ==>
        var was := old(View()).shards;
        var removal := RemoveFrom(was[shard].nodes, |was[shard].nodes|, 0, false, id);
        r == removal.result && Views(shards) == was[shard := was[shard].(nodes := removal.nodes)]
      ensures (0 <= shard < |shards| ==> DistinctIds(old(View()).shards[shard].nodes)) ==>
        match Apply(old(View()), Op.RemoveNode(shard, id))
        case Ok(c) => r == Ok(()) && View() == c
        case Err(e) => r == Err(e) && View() == old(View())
    {
      ghost var v := Views(shards);
      if shard < 0 || shard >= |shards| {
        return Err(IndexOutOfRange);
      }
      r := shards[shard].RemoveNode(id);
      assert forall i :: 0 <= i < |shards| && i != shard ==> shards[i].View() == v[i];
      if DistinctIds(v[shard].nodes) { assert r.Err? ==> Views(shards) == v; }
    }

    method PromoteNewMaster(shard: int, masterID: string, preferred: string, replies: seq<Reply>)
      returns (r: Result<string>)
      requires Valid()
      modifies shards
      ensures match Apply(old(View()), Op.Failover(shard, masterID, preferred, replies))
              case Ok(c) =>
                View() == c && r == Ok(PromotedID(old(View()).shards[shard].nodes, masterID, preferred, replies))
              case Err(e) => r == Err(e) && View() == old(View())
    {
      ghost var v := Views(shards);
      if shard < 0 || shard >= |shards| {
        return Err(IndexOutOfRange);
      }
      r := shards[shard].PromoteNewMaster(masterID, preferred, replies);
      assert forall i :: 0 <= i < |shards| && i != shard ==> shards[i].View() == v[i];
      assert r.Err? ==> Views(shards) == v;
    }

    /** The first node of a new shard is its master (server/api/shard.go). */
    method CreateShard(newNodes: seq<NewNode>) returns (r: Result<()>)
      requires Valid()
      modifies this`shards
      ensures Valid() && forall s :: s in shards && s !in old(shards) ==> fresh(s)
      ensures match Apply(old(View()), Op.CreateShard(newNodes))
              case Ok(c) => r == Ok(()) && View() == c
              case Err(e) => r == Err(e) && View() == old(View())
    {
      if |newNodes| == 0 {
        return Err(InvalidArgument);
      }
      var nodes: seq<Node> := [];
      for i := 0 to |newNodes|
        invariant nodes == RolesByPosition(newNodes)[..i]
      {
        nodes := nodes + [Node(newNodes[i].id, newNodes[i].addr, if i == 0 then Master else Slave)];
      }
      assert RolesByPosition(newNodes)[..|newNodes|] == RolesByPosition(newNodes);
      var shard := new Shard();
      shard.nodes := nodes;
      assert Views(shards) == old(Views(shards));
      shards := shards + [shard];
      assert shards[..|shards| - 1] == old(shards);
      return Ok(());
    }

    /** Only a shard without slots and without a migration can go (server/api/shard.go). */
    method RemoveShard(shard: int) returns (r: Result<()>)
      requires Valid()
      modifies this`shards
      ensures Valid() && forall s :: s in shards ==> s in old(shards)
      ensures match Apply(old(View()), Op.RemoveShard(shard))
              case Ok(c) => r == Ok(()) && View() == c
              case Err(e) => r == Err(e) && View() == old(View())
    {
      if shard < 0 || shard >= |shards| {
        return Err(IndexOutOfRange);
      }
      var servicing := shards[shard].IsServicing();
      if servicing {
        return Err(ShardIsServicing);
      }
      shards := shards[..shard] + shards[shard + 1..];
      assert Views(shards) == Views(old(shards))[..shard] + Views(old(shards))[shard + 1..];
      return Ok(());
    }
  }
}
