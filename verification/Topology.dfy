/**
 * The stored topology of one cluster, and what each operation does to it.
 *
 * `ClusterState` is the value that the store keeps: nodes, slot ranges and pending migrations
 * of every shard, and a version.  `Apply` is the effect of one operation of the control plane
 * on such a value (store/cluster.go, store/cluster_shard.go, controller/cluster.go,
 * server/api/shard.go, server/api/node.go).  What the outside world answers - replies of data
 * nodes, freshly generated node ids - is part of the operation.
 */
module Topology {
  import opened SlotRanges

  datatype Option<+T> = None | Some(value: T)

  datatype Error =
    | InvalidArgument | AlreadyExists | NotFound | IndexOutOfRange
    | ShardIsSame | ShardSlotIsMigrating | ShardIsServicing
    | SlotRangeBelongsToMultipleShards | SlotNotBelongToAnyShard
    | ShardNoReplica | OldMasterNodeNotFound | NodeIsNotMaster | ShardNoMatchNewMaster
    | CommandFailed      // the data node refused the migration command
    | NothingToComplete  // the controller leaves the migration as it is
    | UpdatedByOthers    // stale version
    | Crash              // the Go code dereferences nil or slices out of range here

  datatype Result<+T> = Ok(value: T) | Err(error: Error)

  datatype Role = Master | Slave | OtherRole(name: string)

  datatype Node = Node(id: string, addr: string, role: Role) {
    predicate IsMaster() {
      role == Master
    }
  }

  datatype MigratingSlot = MigratingSlot(range: SlotRange, isMigrating: bool)

  datatype ShardState = ShardState(
    nodes: seq<Node>,
    slotRanges: SlotRanges,
    targetShardIndex: int,
    migratingSlot: Option<MigratingSlot>)
  {
    predicate IsMigrating() {
      migratingSlot.Some? && migratingSlot.value.isMigrating && targetShardIndex != -1
    }

    predicate IsServicing() {
      (exists r :: r in slotRanges && (r.start != -1 || r.stop != -1)) || IsMigrating()
    }

    function ClearMigrateState(): ShardState {
      this.(migratingSlot := None, targetShardIndex := -1)
    }
  }

  const NEW_SHARD := ShardState([], [], -1, None)

  datatype ClusterState = ClusterState(name: string, version: int, shards: seq<ShardState>)

  // ----- Masters and failover -----

  // The first node whose role is master, or -1.
  function MasterIndex(nodes: seq<Node>): (m: int)
    ensures -1 <= m < |nodes|
    ensures m >= 0 ==> nodes[m].IsMaster() && forall j :: 0 <= j < m ==> !nodes[j].IsMaster()
    ensures m == -1 ==> forall j :: 0 <= j < |nodes| ==> !nodes[j].IsMaster()
  {
    MasterFrom(nodes, 0)
  }

  function MasterFrom(nodes: seq<Node>, i: nat): (m: int)
    requires i <= |nodes|
    ensures m == -1 || i <= m < |nodes|
    ensures m >= 0 ==> nodes[m].IsMaster() && forall j :: i <= j < m ==> !nodes[j].IsMaster()
    ensures m == -1 ==> forall j :: i <= j < |nodes| ==> !nodes[j].IsMaster()
    decreases |nodes| - i
  {
    if i == |nodes| then -1 else if nodes[i].IsMaster() then i else MasterFrom(nodes, i + 1)
  }

  method FindMaster(nodes: seq<Node>) returns (m: int)
    ensures m == MasterIndex(nodes)
  {
    for i := 0 to |nodes|
      invariant forall j :: 0 <= j < i ==> !nodes[j].IsMaster()
    {
      if nodes[i].IsMaster() {
        return i;
      }
    }
    return -1;
  }

  datatype NodeInfo = NodeInfo(role: Role, sequence: nat)
  datatype Reply = Unreachable | Reply(clusterInfoOk: bool, info: Option<NodeInfo>)

  function ReplyOf(replies: seq<Reply>, i: nat): Reply {
    if i < |replies| then replies[i] else Unreachable
  }

  predicate Eligible(master: int, replies: seq<Reply>, i: nat) {
    && i != master
    && var r := ReplyOf(replies, i);
    && r.Reply? && r.clusterInfoOk && r.info.Some?
    && r.info.value.role == Slave && r.info.value.sequence != 0
  }

  function Sequence(replies: seq<Reply>, i: nat): nat {
    var r := ReplyOf(replies, i);
    if r.Reply? && r.info.Some? then r.info.value.sequence else 0
  }

  // The scan of the nodes from i on, with the best candidate found so far.
  function Scan(nodes: seq<Node>, master: int, preferred: string, replies: seq<Reply>,
                i: nat, best: int, newest: nat): int
    requires i <= |nodes|
    decreases |nodes| - i
  {
    if i == |nodes| then best
    else if !Eligible(master, replies, i) then Scan(nodes, master, preferred, replies, i + 1, best, newest)
    else if preferred != "" && nodes[i].id == preferred then i
    else if Sequence(replies, i) >= newest
    then Scan(nodes, master, preferred, replies, i + 1, i, Sequence(replies, i))
    else Scan(nodes, master, preferred, replies, i + 1, best, newest)
  }

  function NewMasterIndex(nodes: seq<Node>, master: int, preferred: string, replies: seq<Reply>): int {
    Scan(nodes, master, preferred, replies, 0, -1, 0)
  }

  // Swaps the roles of the old and the new master.
  function SwapMaster(nodes: seq<Node>, oldMaster: int, newMaster: int): seq<Node>
    requires 0 <= oldMaster < |nodes| && 0 <= newMaster < |nodes|
  {
    var demoted := nodes[oldMaster := nodes[oldMaster].(role := Slave)];
    demoted[newMaster := demoted[newMaster].(role := Master)]
  }

  // The index of the node to promote, or why there is none.
  function Promotion(nodes: seq<Node>, masterID: string, preferred: string, replies: seq<Reply>): Result<int> {
    if |nodes| <= 1 then Err(ShardNoReplica)
    else
      var m := MasterIndex(nodes);
      if m == -1 then Err(OldMasterNodeNotFound)
      else if masterID != "" && nodes[m].id != masterID then Err(NodeIsNotMaster)
      else
        var n := NewMasterIndex(nodes, m, preferred, replies);
        if n == -1 then Err(ShardNoMatchNewMaster) else Ok(n)
  }

  // The id of the node that a successful promotion makes master.
  function PromotedID(nodes: seq<Node>, masterID: string, preferred: string, replies: seq<Reply>): string {
    var r := Promotion(nodes, masterID, preferred, replies);
    if r.Ok? && 0 <= r.value < |nodes| then nodes[r.value].id else ""
  }

  function Promote(s: ShardState, masterID: string, preferred: string, replies: seq<Reply>): Result<ShardState> {
    match Promotion(s.nodes, masterID, preferred, replies)
    case Err(e) => Err(e)
    case Ok(n) =>
      if 0 <= n < |s.nodes|
      then Ok(s.(nodes := SwapMaster(s.nodes, MasterIndex(s.nodes), n)))
      else Err(Crash)
  }

  // ----- Nodes -----

  function AddNodeTo(s: ShardState, id: string, addr: string, role: Role): Result<ShardState> {
    if role != Master && role != Slave then Err(InvalidArgument)
    else if exists n :: n in s.nodes && n.addr == addr then Err(AlreadyExists)
    else if role == Master && |s.nodes| > 0 then Err(AlreadyExists)
    else Ok(s.(nodes := s.nodes + [Node(id, addr, role)]))
  }

  // The first node with the given id, or |nodes|.
  function IndexOfNode(nodes: seq<Node>, id: string): (k: nat)
    ensures k <= |nodes|
    ensures k < |nodes| ==> nodes[k].id == id
    ensures forall j :: 0 <= j < k ==> nodes[j].id != id
  {
    if nodes == [] || nodes[0].id == id then 0 else 1 + IndexOfNode(nodes[1..], id)
  }

  function RemoveNodeFrom(s: ShardState, id: string): Result<ShardState> {
    var k := IndexOfNode(s.nodes, id);
    if k == |s.nodes| then Err(NotFound)
    else if s.nodes[k].IsMaster() then Err(InvalidArgument)
    else Ok(s.(nodes := s.nodes[..k] + s.nodes[k + 1..]))
  }

  // ----- Slot migration -----

  // One entry per range that overlaps the slot: the index of its shard.
  function RangeHits(rs: SlotRanges, i: int, slot: SlotRange): (hits: seq<int>)
    ensures forall h :: h in hits ==> h == i
  {
    if rs == [] then []
    else RangeHits(rs[..|rs| - 1], i, slot) + if rs[|rs| - 1].HasOverlap(slot) then [i] else []
  }

  function Hits(shards: seq<ShardState>, slot: SlotRange): (hits: seq<int>)
    ensures forall h :: h in hits ==> 0 <= h < |shards|
  {
    if shards == [] then []
    else
      var n := |shards| - 1;
      Hits(shards[..n], slot) + RangeHits(shards[n].slotRanges, n, slot)
  }

  function FindShardIndexBySlot(shards: seq<ShardState>, slot: SlotRange): (r: Result<int>)
    ensures r.Ok? ==> 0 <= r.value < |shards|
  {
    var hits := Hits(shards, slot);
    if |hits| == 0 then Err(SlotNotBelongToAnyShard)
    else if |hits| == 1 then assert hits[0] in hits; Ok(hits[0])
    else Err(SlotRangeBelongsToMultipleShards)
  }

  predicate Normalized(shards: seq<ShardState>) {
    forall i :: 0 <= i < |shards| ==> Normal(shards[i].slotRanges)
  }

  // The slot leaves shard i, whose migration state is cleared, and joins shard t.
  function Move(shards: seq<ShardState>, i: int, t: int, slot: SlotRange): seq<ShardState>
    requires 0 <= i < |shards| && 0 <= t < |shards|
  {
    var removed := shards[i := shards[i].ClearMigrateState().(slotRanges := RemoveSlot(shards[i].slotRanges, slot))];
    removed[t := removed[t].(slotRanges := AddSlot(removed[t].slotRanges, slot))]
  }

  function Migrate(shards: seq<ShardState>, slot: SlotRange, t: int, slotOnly: bool, commandOk: bool)
    : Result<seq<ShardState>>
  {
    if t < 0 || t >= |shards| then Err(IndexOutOfRange)
    else
      match FindShardIndexBySlot(shards, slot)
      case Err(e) => Err(e)
      case Ok(i) =>
        if i == t then Err(ShardIsSame)
        else if slotOnly then Ok(Move(shards, i, t, slot))
        else if shards[i].IsMigrating() || shards[t].IsMigrating() then Err(ShardSlotIsMigrating)
        else if MasterIndex(shards[i].nodes) == -1 then Err(NotFound)
        else if MasterIndex(shards[t].nodes) == -1 then Err(Crash)
        else if !commandOk then Err(CommandFailed)
        else Ok(shards[i := shards[i].(migratingSlot := Some(MigratingSlot(slot, true)), targetShardIndex := t)])
  }

  // What the master of a migrating shard reports about its migration.
  datatype MigratingState = StateNone | StateStart | StateFail | StateSuccess | UnknownState(name: string)
  datatype Report = NoAnswer | Report(slot: Option<SlotRange>, state: MigratingState)

  function Complete(shards: seq<ShardState>, i: int, report: Report): Result<seq<ShardState>> {
    if i < 0 || i >= |shards| || !shards[i].IsMigrating() then Err(NothingToComplete)
    else if MasterIndex(shards[i].nodes) == -1 then Err(Crash)
    else if report.NoAnswer? then Err(NothingToComplete)
    else if report.slot.None? then Err(Crash)
    else if report.slot.value != shards[i].migratingSlot.value.range then Err(NothingToComplete)
    else if shards[i].targetShardIndex < 0 || shards[i].targetShardIndex >= |shards| then Err(IndexOutOfRange)
    else if report.state.StateNone? || report.state.StateStart? then Err(NothingToComplete)
    else if report.state.StateSuccess?
    then Ok(Move(shards, i, shards[i].targetShardIndex, shards[i].migratingSlot.value.range))
    else Ok(shards[i := shards[i].ClearMigrateState()])
  }

  // ----- Operations -----

  datatype NewNode = NewNode(id: string, addr: string)

  datatype Op =
    | MigrateSlot(slot: SlotRange, target: int, slotOnly: bool, commandOk: bool)
    | CompleteMigration(shard: int, report: Report)
    | CreateShard(newNodes: seq<NewNode>)
    | RemoveShard(shard: int)
    | AddNode(shard: int, id: string, addr: string, role: Role)
    | RemoveNode(shard: int, id: string)
    | Failover(shard: int, masterID: string, preferred: string, replies: seq<Reply>)

  // The first address becomes the master.
  function RolesByPosition(newNodes: seq<NewNode>): (nodes: seq<Node>)
    ensures |nodes| == |newNodes|
  {
    seq(|newNodes|, i requires 0 <= i < |newNodes| =>
      Node(newNodes[i].id, newNodes[i].addr, if i == 0 then Master else Slave))
  }

  function UpdateShard(shards: seq<ShardState>, i: int, r: Result<ShardState>): Result<seq<ShardState>>
    requires 0 <= i < |shards|
  {
    match r
    case Err(e) => Err(e)
    case Ok(s) => Ok(shards[i := s])
  }

  function ApplyToShards(shards: seq<ShardState>, op: Op): Result<seq<ShardState>> {
    match op
    case MigrateSlot(slot, t, slotOnly, commandOk) => Migrate(shards, slot, t, slotOnly, commandOk)
    case CompleteMigration(i, report) => Complete(shards, i, report)
    case CreateShard(newNodes) =>
      if newNodes == [] then Err(InvalidArgument)
      else Ok(shards + [NEW_SHARD.(nodes := RolesByPosition(newNodes))])
    case RemoveShard(i) =>
      if i < 0 || i >= |shards| then Err(IndexOutOfRange)
      else if shards[i].IsServicing() then Err(ShardIsServicing)
      else Ok(shards[..i] + shards[i + 1..])
    case AddNode(i, id, addr, role) =>
      if i < 0 || i >= |shards| then Err(IndexOutOfRange)
      else UpdateShard(shards, i, AddNodeTo(shards[i], id, addr, role))
    case RemoveNode(i, id) =>
      if i < 0 || i >= |shards| then Err(IndexOutOfRange)
      else UpdateShard(shards, i, RemoveNodeFrom(shards[i], id))
    case Failover(i, masterID, preferred, replies) =>
      if i < 0 || i >= |shards| then Err(IndexOutOfRange)
      else UpdateShard(shards, i, Promote(shards[i], masterID, preferred, replies))
  }

  /** The effect of one operation on the topology, before it is stored. */
  function Apply(c: ClusterState, op: Op): (r: Result<ClusterState>)
    ensures r.Ok? ==> r.value.version == c.version && r.value.name == c.name
  {
    match ApplyToShards(c.shards, op)
    case Err(e) => Err(e)
    case Ok(shards) => Ok(c.(shards := shards))
  }
}
