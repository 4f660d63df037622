/**
 * Concrete inputs and runs on which the code falls short of what a caller would expect.  The
 * exact conditions are proved beside the operations; here are inputs that meet them.
 */
module Witnesses {
  import opened SlotRanges
  import opened Topology
  import opened Partition
  import opened Migration
  import opened Concurrency
  import opened Store
  import opened MigrationPass
  import opened ClusterNodes
  import opened ClusterNodesLaws
  import opened Raft
  import opened SlotText
  import opened Objects
  import opened Text

  // ----- Range lists and range counts -----

  /** A list that is not in normal form: the one shard owns slots 0 and 1, and is not found. */
  lemma OwnerNotFound()
    ensures FindShardIndexBySlot([NEW_SHARD.(slotRanges := [SlotRange(0, 0), SlotRange(1, 16383)])], SlotRange(0, 1))
              == Err(SlotRangeBelongsToMultipleShards)
  {
    var rs, slot := [SlotRange(0, 0), SlotRange(1, 16383)], SlotRange(0, 1);
    var shards := [NEW_SHARD.(slotRanges := rs)];
    assert rs[..1] == [SlotRange(0, 0)] && rs[..1][..0] == [] && shards[..0] == [];
    assert RangeHits(rs[..1], 0, slot) == [0];
    assert RangeHits(rs, 0, slot) == [0, 0];
    assert Hits(shards, slot) == [0, 0];
  }

  function ManyNodes(n: nat): seq<NewNode> {
    seq(n, i requires 0 <= i < n => NewNode(seq(i, _ => 'a'), "10.0.0.1:6666"))
  }

  /** A cluster of 16385 shards: its first range is 0 to -1. */
  lemma TooManyShards()
    ensures var r := NewCluster("c", ManyNodes(16385), 1);
      r.Ok? && |r.value.shards| == 16385 && r.value.shards[0].slotRanges == [SlotRange(0, -1)] && !Inv(r.value)
  {
    var nodes := ManyNodes(16385);
    forall i, j | 0 <= i < j < |nodes| ensures nodes[i].id != nodes[j].id {
      assert |nodes[i].id| == i && |nodes[j].id| == j;
    }
    NewClusterIsValidIff("c", nodes, 1);
    InitialShardOfOne(nodes, 0);
    assert Slice(16385, 0) == SlotRange(0, -1);
  }

  // ----- Migrations whose target index no longer names the chosen shard -----

  // Two shards created with the cluster, and two idle ones added later.
  const A := NewNode("a", "10.0.0.1:6666")
  const B := NewNode("b", "10.0.0.2:6666")
  const C := NewNode("c", "10.0.0.3:6666")
  const D := NewNode("d", "10.0.0.4:6666")

  function Only(n: NewNode, ranges: SlotRanges): ShardState {
    NEW_SHARD.(nodes := [Node(n.id, n.addr, Master)], slotRanges := ranges)
  }

  const SLOT_0 := SlotRange(0, 0)
  const SLOT_8192 := SlotRange(8192, 8192)
  const TWO := ClusterState("c", 1, [Only(A, [SlotRange(0, 8191)]), Only(B, [SlotRange(8192, 16383)])])
  const THREE := TWO.(shards := TWO.shards + [Only(C, [])])
  const FOUR := TWO.(shards := TWO.shards + [Only(C, []), Only(D, [])])

  function Success(slot: SlotRange): Report { Report(Some(slot), StateSuccess) }

  // The cluster after the migration of `slot` out of shard i to shard t has been started.
  function Migrating(c: ClusterState, i: nat, slot: SlotRange, t: int): ClusterState
    requires i < |c.shards|
  {
    c.(shards := Started(c.shards, i, t, slot))
  }

  // Without the idle shard C, whose removal the code allows although shard 0 migrates into or past it.
  function WithoutC(t: int): ClusterState {
    TWO.(shards := Migrating(TWO, 0, SLOT_0, t).shards + [Only(D, [])])
  }

  lemma EditNext(c: ClusterState, ops: seq<Op>, d: ClusterState, op: Op)
    requires EditAll(c, ops) == Ok(d)
    ensures EditAll(c, ops + [op]) == Apply(d, op)
  {
    assert (ops + [op])[..|ops|] == ops;
  }

  lemma InitialShardOfOne(newNodes: seq<NewNode>, i: nat)
    requires i < |newNodes|
    ensures InitialShard(newNodes, |newNodes|, 1, i) == Only(newNodes[i], [Slice(|newNodes|, i)])
  {
    assert newNodes[i * 1..(i + 1) * 1] == [newNodes[i]];
    assert RolesByPosition([newNodes[i]]) == [Node(newNodes[i].id, newNodes[i].addr, Master)];
  }

  lemma TwoIsNew()
    ensures NewCluster("c", [A, B], 1) == Ok(TWO) && Inv(TWO)
  {
    NewClusterIsValidIff("c", [A, B], 1);
    var made := NewCluster("c", [A, B], 1).value.shards;
    InitialShardOfOne([A, B], 0);
    InitialShardOfOne([A, B], 1);
    assert made[0] == TWO.shards[0] && made[1] == TWO.shards[1];
    assert made == TWO.shards;
  }

  lemma AddedShard(c: ClusterState, n: NewNode)
    ensures Apply(c, CreateShard([n])) == Ok(c.(shards := c.shards + [Only(n, [])]))
  {
    assert RolesByPosition([n]) == [Node(n.id, n.addr, Master)];
  }

  lemma FourIsReached()
    ensures EditAll(TWO, [CreateShard([C]), CreateShard([D])]) == Ok(FOUR) && Inv(FOUR)
  {
    TwoIsNew();
    AddedShard(TWO, C);
    AddedShard(THREE, D);
    assert THREE.shards + [Only(D, [])] == FOUR.shards;
    EditNext(TWO, [], TWO, CreateShard([C]));
    EditNext(TWO, [CreateShard([C])], THREE, CreateShard([D]));
    assert [] + [CreateShard([C])] == [CreateShard([C])];
    assert [CreateShard([C])] + [CreateShard([D])] == [CreateShard([C]), CreateShard([D])];
    assert A.id[0] != B.id[0] && A.id[0] != C.id[0] && A.id[0] != D.id[0];
    assert B.id[0] != C.id[0] && B.id[0] != D.id[0] && C.id[0] != D.id[0];
    ApplyKeepsInv(TWO, CreateShard([C]));
    ApplyKeepsInv(THREE, CreateShard([D]));
  }

  lemma MigrationStarts(c: ClusterState, i: nat, slot: SlotRange, t: int)
    requires Inv(c) && slot.Valid() && i < |c.shards| && 0 <= t < |c.shards| && i != t
    requires forall x :: slot.Contains(x) ==> Owns(c.shards[i].slotRanges, x)
    requires !c.shards[i].IsMigrating() && !c.shards[t].IsMigrating()
    requires MasterIndex(c.shards[i].nodes) != -1 && MasterIndex(c.shards[t].nodes) != -1
    ensures Apply(c, MigrateSlot(slot, t, false, true)) == Ok(Migrating(c, i, slot, t)) && Inv(Migrating(c, i, slot, t))
  {
    FoundIfOwned(c.shards, slot, i);
    ApplyKeepsInv(c, MigrateSlot(slot, t, false, true));
  }

  // What happens before the report: two shards are added, slot 0 is sent to shard t, shard 2 is removed.
  function Before(t: int): seq<Op> {
    [CreateShard([C]), CreateShard([D]), MigrateSlot(SLOT_0, t, false, true), RemoveShard(2)]
  }

  lemma StartedInFour(t: int)
    requires t == 2 || t == 3
    ensures Apply(FOUR, MigrateSlot(SLOT_0, t, false, true)) == Ok(Migrating(FOUR, 0, SLOT_0, t))
    ensures Inv(Migrating(FOUR, 0, SLOT_0, t))
  {
    FourIsReached();
    assert FOUR.shards[0].slotRanges[0].Contains(0);
    MigrationStarts(FOUR, 0, SLOT_0, t);
  }

  lemma RemovedC(t: int)
    ensures Apply(Migrating(FOUR, 0, SLOT_0, t), RemoveShard(2)) == Ok(WithoutC(t))
  {
    var shards := Migrating(FOUR, 0, SLOT_0, t).shards;
    assert shards[..2] + shards[3..] == WithoutC(t).shards;
  }

  lemma ReachesWithoutC(t: int)
    requires t == 2 || t == 3
    ensures EditAll(TWO, Before(t)) == Ok(WithoutC(t))
  {
    FourIsReached();
    StartedInFour(t);
    RemovedC(t);
    var ops := [CreateShard([C]), CreateShard([D])];
    EditNext(TWO, ops, FOUR, MigrateSlot(SLOT_0, t, false, true));
    EditNext(TWO, ops + [MigrateSlot(SLOT_0, t, false, true)], Migrating(FOUR, 0, SLOT_0, t), RemoveShard(2));
    assert ops + [MigrateSlot(SLOT_0, t, false, true)] + [RemoveShard(2)] == Before(t);
  }

  /** Slot 0 was sent to shard 2, with node c; it ends in the shard with node d, which no request named. */
  lemma MigrationRedirected()
    ensures NewCluster("c", [A, B], 1) == Ok(TWO)
    ensures DeliveredTo(EditAll(TWO, Before(2) + [CompleteMigration(0, Success(SLOT_0))]), 2,
                        [Node("d", "10.0.0.4:6666", Master)], SLOT_0)
  {
    TwoIsNew();
    ReachesWithoutC(2);
    StartedInFour(2);
    RemovedC(2);
    EditNext(TWO, Before(2), WithoutC(2), CompleteMigration(0, Success(SLOT_0)));
    RemovalRedirectsMigration(Migrating(FOUR, 0, SLOT_0, 2), 2, WithoutC(2), 0, Success(SLOT_0));
  }

  /** Slot 0 was sent to shard 3, the last one; its success is refused, however often it is reported. */
  lemma MigrationStranded()
    ensures NewCluster("c", [A, B], 1) == Ok(TWO) && EditAll(TWO, Before(3)) == Ok(WithoutC(3))
    ensures WithoutC(3).shards[0].IsMigrating()
    ensures EditAll(TWO, Before(3) + [CompleteMigration(0, Success(SLOT_0))]) == Err(IndexOutOfRange)
  {
    TwoIsNew();
    ReachesWithoutC(3);
    StartedInFour(3);
    RemovedC(3);
    EditNext(TWO, Before(3), WithoutC(3), CompleteMigration(0, Success(SLOT_0)));
    RemovalStrandsMigration(Migrating(FOUR, 0, SLOT_0, 3), 2, WithoutC(3), 0, Success(SLOT_0));
  }

  /** A source that reports no migrating slot, as before it has started: the controller dereferences nil. */
  lemma ReportWithoutSlotCrashes()
    ensures EditAll(TWO, [CreateShard([C]), CreateShard([D]), MigrateSlot(SLOT_0, 2, false, true)])
              == Ok(Migrating(FOUR, 0, SLOT_0, 2))
    ensures Apply(Migrating(FOUR, 0, SLOT_0, 2), CompleteMigration(0, Report(None, StateNone))) == Err(Crash)
  {
    FourIsReached();
    StartedInFour(2);
    var ops := [CreateShard([C]), CreateShard([D])];
    EditNext(TWO, ops, FOUR, MigrateSlot(SLOT_0, 2, false, true));
    assert ops + [MigrateSlot(SLOT_0, 2, false, true)]
        == [CreateShard([C]), CreateShard([D]), MigrateSlot(SLOT_0, 2, false, true)];
    CrashIff(Migrating(FOUR, 0, SLOT_0, 2), CompleteMigration(0, Report(None, StateNone)));
  }

  const BOTH := Migrating(WithoutC(3), 1, SLOT_8192, 2)

  lemma BothIsReached()
    ensures EditAll(TWO, Before(3) + [MigrateSlot(SLOT_8192, 2, false, true)]) == Ok(BOTH)
  {
    ReachesWithoutC(3);
    StartedInFour(3);
    RemovedC(3);
    ApplyKeepsInv(Migrating(FOUR, 0, SLOT_0, 3), RemoveShard(2));
    EditNext(TWO, Before(3), WithoutC(3), MigrateSlot(SLOT_8192, 2, false, true));
    assert WithoutC(3).shards[1].slotRanges[0].Contains(8192);
    MigrationStarts(WithoutC(3), 1, SLOT_8192, 2);
  }

  /**
   * While the source of the stranded migration answers with the recorded slot, it ends the pass:
   * shard 1 reports success and stays migrating.  When that source does not answer, shard 1 completes.
   */
  lemma PassBlocked(key: Key)
    ensures EditAll(TWO, Before(3) + [MigrateSlot(SLOT_8192, 2, false, true)]) == Ok(BOTH)
    ensures HasOutcome(BOTH.shards[1], Success(SLOT_8192), 3)
    ensures var after := Pass(map[key := BOTH], key, BOTH, [Success(SLOT_0), Success(SLOT_8192)], 0, false).held.shards;
      |after| == 3 && after[1].IsMigrating()
    ensures var after := Pass(map[key := BOTH], key, BOTH, [NoAnswer, Success(SLOT_8192)], 0, false).held.shards;
      |after| == 3 && !after[1].IsMigrating()
  {
    BothIsReached();
    BlockedWhenAnswered(key);
    GoesOnUnanswered(key);
  }

  lemma BlockedWhenAnswered(key: Key)
    ensures var after := Pass(map[key := BOTH], key, BOTH, [Success(SLOT_0), Success(SLOT_8192)], 0, false).held.shards;
      |after| == 3 && after[1].IsMigrating()
  {
    var reports := [Success(SLOT_0), Success(SLOT_8192)];
    PassCompletesReported(map[key := BOTH], key, BOTH, reports, 0, false, 1);
    assert ReportOf(reports, 0) == Success(SLOT_0) && Stops(BOTH.shards[0], ReportOf(reports, 0), 3);
  }

  lemma GoesOnUnanswered(key: Key)
    ensures var after := Pass(map[key := BOTH], key, BOTH, [NoAnswer, Success(SLOT_8192)], 0, false).held.shards;
      |after| == 3 && !after[1].IsMigrating()
  {
    var reports := [NoAnswer, Success(SLOT_8192)];
    PassCompletesReported(map[key := BOTH], key, BOTH, reports, 0, false, 1);
    assert ReportOf(reports, 0) == NoAnswer && ReportOf(reports, 1) == Success(SLOT_8192);
    assert !Blocked(BOTH.shards, reports, 0, 1);
  }

  // ----- A set with the version of the stored value -----

  /**
   * A node reports a higher epoch, which is prepared as a set of version 2 on the stored version 1.
   * Before it is stored another actor's update reaches version 2 and a third one reads that; the set
   * is accepted, and the third actor overwrites it.
   */
  lemma SetLost()
    ensures Run(Start(TWO), BeforeSet()).stored == TWO.(version := 2)
    ensures Run(Start(TWO), BeforeSet() + [Set(NEWER)]).stored == NEWER
    ensures Run(Start(TWO), BeforeSet() + [Set(NEWER)] + [Update(1)]).stored == TWO.(version := 3)
  {
    RunNext(Start(TWO), [], Get(0));
    RunNext(Start(TWO), [Get(0)], Update(0));
    RunNext(Start(TWO), [Get(0), Update(0)], Get(1));
    RunNext(Start(TWO), BeforeSet(), Set(NEWER));
    RunNext(Start(TWO), BeforeSet() + [Set(NEWER)], Update(1));
    assert [] + [Get(0)] == [Get(0)] && [Get(0)] + [Update(0)] == [Get(0), Update(0)];
    assert [Get(0), Update(0)] + [Get(1)] == BeforeSet();
    var s := Run(Start(TWO), BeforeSet());
    assert s.stored == TWO.(version := 2) && 1 in s.copies && s.copies[1].held == s.stored;
  }

  const NEWER := THREE.(version := 2)

  function BeforeSet(): seq<Action> { [Get(0), Update(0), Get(1)] }

  lemma RunNext(s: System, actions: seq<Action>, a: Action)
    ensures Run(s, actions + [a]) == Do(Run(s, actions), a)
  {
    assert (actions + [a])[..|actions|] == actions;
  }

  // ----- A write-ahead log with a tail that was never committed -----

  /** A set that was written to the log but never committed is visible after a restart, and stays. */
  lemma TailVisible()
    ensures var tail := [Data(Event(OP_SET, "k", "v"))];
      && ApplyLog(ApplyLog(map[], [] + tail), [] + []) == map["k" := "v"]
      && ApplyLog(map[], [] + []) == map[]
  {
    var tail := [Data(Event(OP_SET, "k", "v"))];
    assert [] + tail == tail && tail[..0] == [];
    var none: seq<Entry> := [];
    assert none + none == [];
  }

  // ----- A received snapshot that is not saved -----

  const SET_K := Data(Event(OP_SET, "k", "v"))
  const SENT := Image(map["k" := "v"], 1, 1, {})

  /** A new node receives a snapshot and cannot save it: it takes entry 1 as applied, with an empty map. */
  lemma UnsavedSnapshotLosesKey()
    ensures Enabled([SET_K], NEW_NODE, Receive(SENT, NotSaved, Loads))
    ensures var next := NodeNext([SET_K], NEW_NODE, Receive(SENT, NotSaved, Loads));
      next.mem.index == 1 && next.mem.kvs == map[] && next.mem.lost == {"k"}
    ensures StateAt([SET_K], 1) == map["k" := "v"]
  {
    var log := [SET_K];
    assert log[..1] == log && log[0..1] == log && log[..0] == [];
    assert ApplyLog(map[], log) == ApplyEntry(ApplyLog(map[], log[..0]), SET_K);
    assert StateAt(log, 1) == SENT.kvs;
    WrittenIsTouched([SET_K], "k");
    assert Written([SET_K]) == {"k"};
  }

  // ----- Topologies as text -----

  /** Two masters in one shard: the text calls the second one a slave. */
  lemma SecondMasterDemoted()
    ensures var a, b := Node("a", "10.0.0.1:6666", Master), Node("b", "10.0.0.2:6666", Master);
      ShardRecords(NEW_SHARD.(nodes := [a, b])) ==
        [Record("a", "10.0.0.1:6666", "master", "-", []), Record("b", "10.0.0.2:6666", "slave", "a", [])]
  {}

  const TEXT_NODES := [Node("a", "h:1", Master), Node("b", "i:2", Slave)]
  const TEXT_RANGES := [SlotRange(0, 5), SlotRange(7, 7)]

  /** The text of a shard, word by word. */
  lemma TextOfShard()
    ensures ShardText(NEW_SHARD.(nodes := TEXT_NODES, slotRanges := TEXT_RANGES)) ==
      Some("a h 1" + " " + ("master" + " " + "-" + " " + "0-5 7") + "\n"
           + ("b i 2" + " " + ("slave" + " " + "a") + "\n"))
  {
    HeadTexts();
    RangesText057();
    var lines := NodeLines(TEXT_NODES, 0, TEXT_RANGES);
    assert MasterIndex(TEXT_NODES) == 0;
    assert lines == [lines[0], lines[1]];
    ConcatTwo(lines[0], lines[1]);
  }

  lemma RangesText057()
    ensures RangesText(TEXT_RANGES) == "0-5 7"
  {
    assert Itoa(0) == "0" && Itoa(5) == "5" && Itoa(7) == "7";
    assert TEXT_RANGES[..1] == [SlotRange(0, 5)];
    assert RangesText(TEXT_RANGES[..1]) == "0" + ['-'] + "5";
  }

  lemma HeadTexts()
    ensures HeadText(TEXT_NODES[0]) == "a h 1" && HeadText(TEXT_NODES[1]) == "b i 2"
  {
    FirstColon("h", "1");
    FirstColon("i", "2");
    assert "h" + [':'] + "1" == "h:1" && "i" + [':'] + "2" == "i:2";
  }

  lemma FirstColon(host: string, port: string)
    requires ':' !in host
    ensures SpaceForColon(host + [':'] + port) == host + " " + port
  {
    IndexAfter(host, ':', port);
  }

  lemma ConcatTwo(a: string, b: string)
    ensures Concat([a, b]) == a + b
  {
    assert [a, b][..1] == [a] && [a][..0] == [];
    assert Concat([a]) == "" + a == a;
  }

  /** An address without a colon: the text does not read back. */
  lemma AddressWithoutColon()
    ensures var shards := [Only(NewNode("a", "h"), [])];
      ClusterText(shards).Some? && ReadText(ClusterText(shards).value) != Some(Records(shards))
  {
    var shards := [Only(NewNode("a", "h"), [])];
    var n := shards[0].nodes[0];
    assert n in shards[0].nodes && ':' !in n.addr;
    NotWritable(shards, shards[0], n);
  }

  lemma NotWritable(shards: seq<ShardState>, s: ShardState, n: Node)
    requires AllHaveMasters(shards) && s in shards && n in s.nodes && ':' !in n.addr
    ensures ClusterText(shards).Some? && ReadText(ClusterText(shards).value) != Some(Records(shards))
  {
    TextRoundTripIff(shards);
    assert !HostPort(n.addr);
  }

  // ----- Repeated node ids -----

  /** Removing an id that the last two nodes share slices out of range. */
  lemma RepeatedIdCrashes()
    ensures var m, x, y := Node("m", "h:1", Master), Node("x", "h:2", Slave), Node("x", "h:3", Slave);
      RemoveFrom([m, x, y], 3, 0, false, "x") == Removal(Err(Crash), [m, y])
  {
    var m, x, y := Node("m", "h:1", Master), Node("x", "h:2", Slave), Node("x", "h:3", Slave);
    assert m.id[0] != x.id[0];
    assert Compacted([m, x, y], 1, 3) == [m, y, y];
    assert RemoveFrom([m, y, y], 2, 2, true, "x") == Removal(Err(Crash), [m, y]);
    assert RemoveFrom([m, x, y], 3, 1, false, "x") == RemoveFrom([m, y, y], 2, 2, true, "x");
  }

  // ----- A master listed twice -----

  const M := Node("m", "10.0.0.1:6666", Master)
  const S := Node("s", "10.0.0.2:6666", Slave)
  const LISTED := MasterLine(M, 1, [])
  const TWICE := [LISTED, LISTED] + [SlaveLine(S, 1, "m")]
  const PAIR := ShardState([M, S], [], -1, None)

  lemma OneSlave(masters: seq<Line>, slave: Line, id: string)
    requires slave.SlaveLine? && slave.masterID == id && SlavesOf(masters, id) == []
    ensures SlavesOf(masters + [slave], id) == [slave.node]
  {
    assert (masters + [slave])[..|masters|] == masters;
  }

  lemma ShardPerMaster(master: Line, slave: Line, lines: seq<Line>)
    requires master.MasterLine? && slave.SlaveLine?
    ensures SlavesOf([master, master], master.node.id) == []
    ensures ShardsOf([master, master] + [slave], lines) == [ShardOf(master, lines), ShardOf(master, lines)]
  {
    var two := [master, master];
    assert [master][..0] == [] && two[..1] == [master] && (two + [slave])[..2] == two;
    assert SlavesOf([master], master.node.id) == [];
    assert ShardsOf([master], lines) == [ShardOf(master, lines)];
    assert ShardsOf(two, lines) == [ShardOf(master, lines), ShardOf(master, lines)];
  }

  lemma ListedTwice(master: Line, slave: Line, name: string)
    requires master.MasterLine? && slave.SlaveLine? && slave.masterID == master.node.id
    ensures var shard := ShardState([master.node, slave.node], master.ranges, -1, None);
      IsParse([master, master] + [slave], ClusterState(name, slave.version, [shard, shard]))
  {
    var lines := [master, master] + [slave];
    ShardPerMaster(master, slave, lines);
    OneSlave([master, master], slave, master.node.id);
    assert ShardOf(master, lines) == ShardState([master.node, slave.node], master.ranges, -1, None);
  }

  lemma NodesTwice(s: ShardState, a: Node, b: Node)
    requires s.nodes == [a, b] && a != b
    ensures Sum(NodesOf, [s, s])[b] == 2
  {
    SumOne(NodesOf, s);
    SumNext(NodesOf, [s], s);
    assert [s] + [s] == [s, s];
    assert multiset([a, b])[b] == 1;
  }

  /** Two lines with the same master and one with its replica: the one parse has the replica in two shards. */
  lemma ReplicaListedTwice()
    ensures IsParse(TWICE, ClusterState("c", 1, [PAIR, PAIR]))
    ensures Sum(NodesOf, [PAIR, PAIR])[S] == 2
  {
    ListedTwice(LISTED, SlaveLine(S, 1, "m"), "c");
    NodesTwice(PAIR, M, S);
  }

  // ----- A batch that ends before the applied index -----

  /** Entry 1 is delivered again after entry 2: it is applied again and the applied index moves back. */
  method OldBatchUndoesNewer() returns (applied: nat, value: Option<string>)
    ensures applied == 1 && value == Some("a")
  {
    var store := new DataStore();
    var node := new RaftNode(store, 0, 10000, 10000);
    var first := LogEntry(1, Data(Event(OP_SET, "k", "a")));
    var second := LogEntry(2, Data(Event(OP_SET, "k", "b")));
    node.ApplyEntries([first, second]);
    node.ApplyEntries([first]);
    assert Bodies([first]) == [first.entry] && [first.entry][..0] == [];
    return node.appliedIndex, Lookup(store.kvs, "k");
  }
}
