/**
 * The controller's checker of one cluster (controller/cluster.go): failure counters and
 * automatic failover in the probe loop, and the completion of migrations.
 */
module Checker {
  import opened Topology
  import opened Failover
  import opened Partition
  import opened Moves
  import opened Concurrency
  import opened Objects
  import opened Store
  import opened MigrationPass

  // ----- Failure counters -----

  datatype CounterEvent = Failed(id: string) | Reset(id: string)

  // The position of the last reset of a node, or -1.
  function LastReset(events: seq<CounterEvent>, id: string): (k: int)
    ensures -1 <= k < |events|
  {
    if events == [] then -1
    else if events[|events| - 1] == Reset(id) then |events| - 1
    else LastReset(events[..|events| - 1], id)
  }

  function Failures(events: seq<CounterEvent>, id: string): nat {
    if events == [] then 0
    else Failures(events[..|events| - 1], id) + if events[|events| - 1] == Failed(id) then 1 else 0
  }

  /** How often a node failed since its counter was last reset. */
  function FailuresSinceReset(events: seq<CounterEvent>, id: string): nat {
    Failures(events[LastReset(events, id) + 1..], id)
  }

  lemma FailuresNext(events: seq<CounterEvent>, e: CounterEvent, id: string)
    ensures Failures(events + [e], id) == Failures(events, id) + if e == Failed(id) then 1 else 0
  {
    assert (events + [e])[..|events|] == events;
  }

  lemma LastResetNext(events: seq<CounterEvent>, e: CounterEvent, id: string)
    ensures LastReset(events + [e], id) == if e == Reset(id) then |events| else LastReset(events, id)
  {
    assert (events + [e])[..|events|] == events;
  }

  lemma NextEvent(events: seq<CounterEvent>, e: CounterEvent, id: string)
    ensures FailuresSinceReset(events + [e], id) ==
      if e == Reset(id) then 0
      else if e == Failed(id) then FailuresSinceReset(events, id) + 1
      else FailuresSinceReset(events, id)
  {
    LastResetNext(events, e, id);
    if e == Reset(id) {
      assert (events + [e])[|events| + 1..] == [];
    } else {
      FailuresFrom(events, e, id, LastReset(events, id) + 1);
    }
  }

  lemma FailuresFrom(events: seq<CounterEvent>, e: CounterEvent, id: string, k: nat)
    requires k <= |events|
    ensures Failures((events + [e])[k..], id) == Failures(events[k..], id) + if e == Failed(id) then 1 else 0
  {
    assert (events + [e])[k..] == events[k..] + [e];
    FailuresNext(events[k..], e, id);
  }

  /** For every trace without a reset of the node the count is the number of its failures. */
  lemma {:induction false} CountFromStart(events: seq<CounterEvent>, id: string)
    requires Reset(id) !in events
    ensures FailuresSinceReset(events, id) == multiset(events)[Failed(id)]
  {
    if events != [] {
      var init, e := events[..|events| - 1], events[|events| - 1];
      assert events == init + [e];
      CountFromStart(init, id);
      NextEvent(init, e, id);
    }
  }

  /** For every other trace: after a reset and no further one, the count is the number of failures since. */
  lemma {:induction false} CountSinceReset(before: seq<CounterEvent>, since: seq<CounterEvent>, id: string)
    requires Reset(id) !in since
    ensures FailuresSinceReset(before + [Reset(id)] + since, id) == multiset(since)[Failed(id)]
  {
    if since == [] {
      NextEvent(before, Reset(id), id);
      assert before + [Reset(id)] + since == before + [Reset(id)];
    } else {
      var init, e := since[..|since| - 1], since[|since| - 1];
      CountSinceReset(before, init, id);
      NextEvent(before + [Reset(id)] + init, e, id);
      assert before + [Reset(id)] + since == before + [Reset(id)] + init + [e];
      assert since == init + [e];
    }
  }

  function Count(counts: map<string, int>, id: string): int { if id in counts then counts[id] else 0 }

  predicate CountsNode(counts: map<string, int>, events: seq<CounterEvent>, id: string) {
    && Count(counts, id) == FailuresSinceReset(events, id)
    && (id in counts <==> FailuresSinceReset(events, id) > 0)
  }

  ghost predicate Counts(counts: map<string, int>, events: seq<CounterEvent>) {
    forall id :: CountsNode(counts, events, id)
  }

  lemma CountNothing()
    ensures Counts(map[], [])
  {
    forall id ensures CountsNode(map[], [], id) {
      var none: seq<CounterEvent> := [];
      assert none[0..] == none;
    }
  }

  lemma SetThenSet(counts: map<string, int>, id: string, n: int)
    ensures counts[id := 0][id := n] == counts[id := n]
  {}

  lemma CountFailure(counts: map<string, int>, events: seq<CounterEvent>, id: string)
    requires Counts(counts, events)
    ensures Counts(counts[id := Count(counts, id) + 1], events + [Failed(id)])
  {
    var after := counts[id := Count(counts, id) + 1];
    forall other ensures CountsNode(after, events + [Failed(id)], other) {
      assert CountsNode(counts, events, other);
      NextEvent(events, Failed(id), other);
    }
  }

  lemma CountReset(counts: map<string, int>, events: seq<CounterEvent>, id: string)
    requires Counts(counts, events)
    ensures Counts(counts - {id}, events + [Reset(id)])
  {
    forall other ensures CountsNode(counts - {id}, events + [Reset(id)], other) {
      assert CountsNode(counts, events, other);
      NextEvent(events, Reset(id), other);
    }
  }

  // ----- Automatic failover -----

  datatype Outcome = Outcome(values: map<Key, ClusterState>, events: seq<CounterEvent>)

  // A failed probe counts.  If the node is a master and the count is a multiple of the maximum,
  // the failover that must find this very node as master is tried; if it succeeds, the counter
  // of the promoted node is reset.
  function ProbeFailure(o: Outcome, key: Key, max: int, shard: int, node: Node, replies: seq<Reply>): Outcome
    requires max >= 1
  {
    var counted := o.(events := o.events + [Failed(node.id)]);
    if node.IsMaster() && (FailuresSinceReset(o.events, node.id) + 1) % max == 0
    then FailoverOutcome(counted, key, shard, node.id, replies)
    else counted
  }

  function FailoverOutcome(o: Outcome, key: Key, shard: int, id: string, replies: seq<Reply>): Outcome {
    match Handled(o.values, key, Op.Failover(shard, id, "", replies))
    case Err(_) => o
    case Ok(c) => Outcome(o.values[key := c], o.events + [Reset(PromotedIn(o.values, key, shard, id, replies))])
  }

  function PromotedIn(values: map<Key, ClusterState>, key: Key, shard: int, id: string, replies: seq<Reply>): string {
    if key in values && 0 <= shard < |values[key].shards|
    then PromotedID(values[key].shards[shard].nodes, id, "", replies)
    else ""
  }

  datatype ProbeReply = Epoch(version: int) | ClusterNotInitialized | RestoringBackup | ProbeFailed

  datatype Probe = Probe(shard: int, node: Node, reply: ProbeReply, replies: seq<Reply>)

  function ProbeStep(o: Outcome, key: Key, max: int, p: Probe): Outcome
    requires max >= 1
  {
    match p.reply
    case RestoringBackup => o
    case ProbeFailed => ProbeFailure(o, key, max, p.shard, p.node, p.replies)
    case _ => o.(events := o.events + [Reset(p.node.id)])
  }

  function ProbeAll(o: Outcome, key: Key, max: int, probes: seq<Probe>): Outcome
    requires max >= 1
  {
    if probes == [] then o else ProbeStep(ProbeAll(o, key, max, probes[..|probes| - 1]), key, max, probes[|probes| - 1])
  }

  // What makes a probe change the stored topology, where `count` is the number of failures before it.
  ghost predicate Promotes(c: ClusterState, count: nat, max: int, p: Probe)
    requires max >= 1
  {
    && p.reply.ProbeFailed? && p.node.IsMaster()
    && (count + 1) % max == 0
    && 0 <= p.shard < |c.shards| && Promotable(c.shards[p.shard].nodes, p.node.id, p.replies)
  }

  // The change: one version on, and the given node demoted.
  ghost predicate Replaces(before: ClusterState, after: ClusterState, shard: int, id: string, replies: seq<Reply>) {
    && after.version == before.version + 1
    && (id != "" ==> Demotes(before.shards, after.shards, shard, id, replies))
  }

  // The stored values change if and only if `promotes` holds; then the failed master is replaced.
  ghost predicate Changed(before: map<Key, ClusterState>, after: map<Key, ClusterState>, key: Key, promotes: bool,
                          shard: int, id: string, replies: seq<Reply>)
  {
    && key in before && key in after && Inv(after[key])
    && (after != before <==> promotes)
    && (promotes ==> after == before[key := after[key]] && Replaces(before[key], after[key], shard, id, replies))
  }

  lemma FailoverChange(o: Outcome, key: Key, shard: int, id: string, replies: seq<Reply>)
    requires key in o.values && Inv(o.values[key])
    ensures var c := o.values[key];
      Changed(o.values, FailoverOutcome(o, key, shard, id, replies).values, key,
              0 <= shard < |c.shards| && Promotable(c.shards[shard].nodes, id, replies), shard, id, replies)
  {
    var c, op := o.values[key], Op.Failover(shard, id, "", replies);
    if 0 <= shard < |c.shards| { PromoteIffPromotable(c.shards[shard], id, "", replies); }
    if Handled(o.values, key, op).Ok? {
      ApplyKeepsInv(c, op);
      VersionIsNotInv(Apply(c, op).value, c.version + 1);
      assert FailoverOutcome(o, key, shard, id, replies).values[key].version != c.version;
      if id != "" { FailoverDemotes(c, shard, id, replies); }
    }
  }

  lemma ProbeStepChange(o: Outcome, key: Key, max: int, p: Probe)
    requires max >= 1 && key in o.values && Inv(o.values[key])
    ensures Changed(o.values, ProbeStep(o, key, max, p).values, key,
                    Promotes(o.values[key], FailuresSinceReset(o.events, p.node.id), max, p),
                    p.shard, p.node.id, p.replies)
  {
    if p.reply.ProbeFailed? {
      FailoverChange(o.(events := o.events + [Failed(p.node.id)]), key, p.shard, p.node.id, p.replies);
    }
  }

  // ----- The counters, by the probes alone -----

  // The master of a shard.
  function MasterOf(c: ClusterState, shard: int): Option<string> {
    if 0 <= shard < |c.shards| && MasterIndex(c.shards[shard].nodes) != -1
    then Some(c.shards[shard].nodes[MasterIndex(c.shards[shard].nodes)].id)
    else None
  }

  // The probe sets the counter of a node to 0: the node answered with its epoch or that it is in no
  // cluster, or the probe changed the stored topology and made the node a master.
  ghost predicate Clears(before: map<Key, ClusterState>, p: Probe, after: map<Key, ClusterState>, key: Key,
                         id: string)
  {
    || (p.node.id == id && (p.reply.Epoch? || p.reply.ClusterNotInitialized?))
    || (before != after && key in after && MasterOf(after[key], p.shard) == Some(id))
  }

  function FailedProbes(probes: seq<Probe>, id: string): nat {
    if probes == [] then 0
    else
      var p := probes[|probes| - 1];
      FailedProbes(probes[..|probes| - 1], id) + if p.node.id == id && p.reply.ProbeFailed? then 1 else 0
  }

  // How many probes there are up to the last one that cleared the counter.
  ghost function LastCleared(o: Outcome, key: Key, max: int, probes: seq<Probe>, id: string): (k: nat)
    requires max >= 1
    ensures k <= |probes|
  {
    if probes == [] then 0
    else
      var init := probes[..|probes| - 1];
      if Clears(ProbeAll(o, key, max, init).values, probes[|probes| - 1], ProbeAll(o, key, max, probes).values, key, id)
      then |probes|
      else LastCleared(o, key, max, init, id)
  }

  // The failed probes of a node since the last one that cleared its counter.
  ghost function ProbedCount(o: Outcome, key: Key, max: int, probes: seq<Probe>, id: string): nat
    requires max >= 1
  {
    var k := LastCleared(o, key, max, probes, id);
    (if k == 0 then FailuresSinceReset(o.events, id) else 0) + FailedProbes(probes[k..], id)
  }

  // One probe sets the count to 0, adds one, or leaves it.
  ghost function NextCount(count: nat, clears: bool, p: Probe, id: string): nat {
    if clears then 0 else if p.node.id == id && p.reply.ProbeFailed? then count + 1 else count
  }

  lemma ProbedCountNext(o: Outcome, key: Key, max: int, probes: seq<Probe>, p: Probe, id: string)
    requires max >= 1
    ensures var all := probes + [p];
      var clears := Clears(ProbeAll(o, key, max, probes).values, p, ProbeAll(o, key, max, all).values, key, id);
      ProbedCount(o, key, max, all, id) == NextCount(ProbedCount(o, key, max, probes, id), clears, p, id)
  {
    var all, k := probes + [p], LastCleared(o, key, max, probes, id);
    assert all[..|probes|] == probes;
    if LastCleared(o, key, max, all, id) == |all| {
      assert all[|all|..] == [];
      if k == |all| { assert false; }
    } else {
      assert all[k..][..|probes| - k] == probes[k..] && all[k..] == probes[k..] + [p];
    }
  }

  // What a promotion returns is the master that it leaves.
  lemma PromotedInIsMaster(values: map<Key, ClusterState>, key: Key, shard: int, id: string, replies: seq<Reply>)
    requires key in values && Inv(values[key])
    requires Handled(values, key, Op.Failover(shard, id, "", replies)).Ok?
    ensures var c := Handled(values, key, Op.Failover(shard, id, "", replies)).value;
      MasterOf(c, shard) == Some(PromotedIn(values, key, shard, id, replies))
      && MasterOf(c, shard) != MasterOf(values[key], shard)
  {
    var s := values[key].shards[shard];
    assert OneMaster(s.nodes) && DistinctIds(s.nodes);
    PromotedIsNewMaster(s, id, "", replies);
    PromoteKeepsOneMaster(s, id, "", replies);
  }

  lemma FailoverEvents(o: Outcome, key: Key, shard: int, failed: string, replies: seq<Reply>, id: string)
    requires key in o.values && Inv(o.values[key])
    ensures var after := FailoverOutcome(o, key, shard, failed, replies);
      && key in after.values
      && FailuresSinceReset(after.events, id) ==
         if after.values != o.values && MasterOf(after.values[key], shard) == Some(id) then 0
         else FailuresSinceReset(o.events, id)
  {
    var op := Op.Failover(shard, failed, "", replies);
    FailoverChange(o, key, shard, failed, replies);
    if Handled(o.values, key, op).Ok? {
      var after := FailoverOutcome(o, key, shard, failed, replies);
      PromotedInIsMaster(o.values, key, shard, failed, replies);
      assert after.values[key].version != o.values[key].version;
      NextEvent(o.events, Reset(PromotedIn(o.values, key, shard, failed, replies)), id);
    }
  }

  lemma ProbeFailureCount(o: Outcome, key: Key, max: int, p: Probe, id: string)
    requires max >= 1 && key in o.values && Inv(o.values[key]) && p.reply.ProbeFailed?
    ensures var after := ProbeFailure(o, key, max, p.shard, p.node, p.replies);
      FailuresSinceReset(after.events, id) ==
        NextCount(FailuresSinceReset(o.events, id), Clears(o.values, p, after.values, key, id), p, id)
  {
    var counted := o.(events := o.events + [Failed(p.node.id)]);
    NextEvent(o.events, Failed(p.node.id), id);
    FailoverEvents(counted, key, p.shard, p.node.id, p.replies, id);
  }

  /** One probe: what it does to the counter of every node. */
  lemma ProbeStepCount(o: Outcome, key: Key, max: int, p: Probe, id: string)
    requires max >= 1 && key in o.values && Inv(o.values[key])
    ensures var after := ProbeStep(o, key, max, p);
      FailuresSinceReset(after.events, id) ==
        NextCount(FailuresSinceReset(o.events, id), Clears(o.values, p, after.values, key, id), p, id)
  {
    match p.reply {
      case RestoringBackup =>
      case ProbeFailed => ProbeFailureCount(o, key, max, p, id);
      case _ => NextEvent(o.events, Reset(p.node.id), id);
    }
  }

  lemma {:induction false} ProbesKeepInv(o: Outcome, key: Key, max: int, probes: seq<Probe>)
    requires max >= 1 && key in o.values && Inv(o.values[key])
    ensures var after := ProbeAll(o, key, max, probes); key in after.values && Inv(after.values[key])
  {
    if probes != [] {
      var init := probes[..|probes| - 1];
      ProbesKeepInv(o, key, max, init);
      ProbeStepChange(ProbeAll(o, key, max, init), key, max, probes[|probes| - 1]);
    }
  }

  /**
   * For every trace of probes the counter of a node is the number of its failed probes since the
   * last probe that it answered or that made it a master; a node that restores a backup keeps it.
   */
  lemma {:induction false} CountByProbes(o: Outcome, key: Key, max: int, probes: seq<Probe>, id: string)
    requires max >= 1 && key in o.values && Inv(o.values[key])
    ensures FailuresSinceReset(ProbeAll(o, key, max, probes).events, id) == ProbedCount(o, key, max, probes, id)
  {
    if probes == [] {
      assert probes[0..] == [];
    } else {
      var init, p := probes[..|probes| - 1], probes[|probes| - 1];
      assert probes == init + [p];
      CountByProbes(o, key, max, init, id);
      ProbesKeepInv(o, key, max, init);
      ProbeStepCount(ProbeAll(o, key, max, init), key, max, p, id);
      ProbedCountNext(o, key, max, init, p, id);
    }
  }

  /**
   * For every trace of probes: the stored topology stays valid, and a probe changes it exactly if
   * it fails, on a node seen as master whose failed probes, since the last one that cleared its
   * counter, reach a multiple of the maximum with this one, and the stored shard has that master
   * and an eligible replica.  The change demotes that very node and nobody else, and the counter
   * of the new master is 0.
   */
  lemma EveryProbeChange(o: Outcome, key: Key, max: int, probes: seq<Probe>, k: nat)
    requires max >= 1 && key in o.values && Inv(o.values[key]) && k < |probes|
    ensures var before, after := ProbeAll(o, key, max, probes[..k]), ProbeAll(o, key, max, probes[..k + 1]);
      var p := probes[k];
      && key in before.values && key in after.values && Inv(before.values[key]) && Inv(after.values[key])
      && (after.values != before.values <==>
            Promotes(before.values[key], ProbedCount(o, key, max, probes[..k], p.node.id), max, p))
      && (after.values != before.values ==>
            && Replaces(before.values[key], after.values[key], p.shard, p.node.id, p.replies)
            && var master := MasterOf(after.values[key], p.shard);
               master.Some? && FailuresSinceReset(after.events, master.value) == 0)
  {
    var p := probes[k];
    assert probes[..k + 1] == probes[..k] + [p] && probes[..k + 1][..k] == probes[..k];
    ProbesKeepInv(o, key, max, probes[..k]);
    CountByProbes(o, key, max, probes[..k], p.node.id);
    ProbeStepChange(ProbeAll(o, key, max, probes[..k]), key, max, p);
    NewMasterCleared(ProbeAll(o, key, max, probes[..k]), key, max, p);
  }

  lemma NewMasterCleared(o: Outcome, key: Key, max: int, p: Probe)
    requires max >= 1 && key in o.values && Inv(o.values[key])
    ensures var after := ProbeStep(o, key, max, p);
      after.values != o.values ==>
        && key in after.values
        && var master := MasterOf(after.values[key], p.shard);
           master.Some? && FailuresSinceReset(after.events, master.value) == 0
  {
    var after := ProbeStep(o, key, max, p);
    ProbeStepChange(o, key, max, p);
    if after.values != o.values {
      PromotedInIsMaster(o.values, key, p.shard, p.node.id, p.replies);
      ProbeStepCount(o, key, max, p, MasterOf(after.values[key], p.shard).value);
    }
  }

  // A copy of the stored cluster with a new master in the given shard.
  method GetAndPromote(store: ClusterStore, ns: string, name: string, shard: int, id: string, replies: seq<Reply>)
    returns (promoted: Result<string>, c: Cluster?)
    requires store.Valid()
    ensures match Handled(store.values, (ns, name), Op.Failover(shard, id, "", replies))
            case Ok(d) =>
              && promoted == Ok(PromotedIn(store.values, (ns, name), shard, id, replies))
              && c != null && fresh(c) && c.name == name && c.View() == d.(version := d.version - 1)
            case Err(e) => promoted == Err(e)
  {
    c := null;
    var got := store.GetCluster(ns, name);
    if got.Err? {
      return Err(got.error), c;
    }
    var copy: Cluster := got.value;
    promoted := copy.PromoteNewMaster(shard, id, "", replies);
    c := copy;
  }

  class ClusterChecker {
    const ns: string
    const clusterName: string
    const maxFailureCount: int
    var failureCounts: map<string, int>
    var cluster: Cluster?
    ghost var events: seq<CounterEvent>  // everything that happened to the counters

    ghost predicate Valid()
      reads this
    {
      maxFailureCount >= 1 && Counts(failureCounts, events)
    }

    constructor (ns: string, clusterName: string, count: int)
      ensures Valid() && failureCounts == map[] && events == []
      ensures maxFailureCount == if count < 1 then 5 else count
      ensures this.ns == ns && this.clusterName == clusterName
    {
      CountNothing();
      this.ns, this.clusterName := ns, clusterName;
      maxFailureCount := if count < 1 then 5 else count;
      failureCounts, events, cluster := map[], [], null;
    }

    method ResetFailureCount(id: string)
      requires Valid()
      modifies this`failureCounts, this`events
      ensures Valid() && events == old(events) + [Reset(id)]
    {
      CountReset(failureCounts, events, id);
      failureCounts := failureCounts - {id};
      events := events + [Reset(id)];
    }

    // The locked section of increaseFailureCount.
    method Bump(id: string) returns (count: int)
      requires Valid()
      modifies this`failureCounts, this`events
      ensures Valid() && events == old(events) + [Failed(id)]
      ensures count == FailuresSinceReset(old(events), id) + 1
    {
      assert CountsNode(failureCounts, events, id);
      CountFailure(failureCounts, events, id);
      SetThenSet(failureCounts, id, Count(failureCounts, id) + 1);
      if id !in failureCounts {
        failureCounts := failureCounts[id := 0];
      }
      count := failureCounts[id] + 1;
      failureCounts := failureCounts[id := count];
      events := events + [Failed(id)];
    }

    /** The counter is the number of failures since the last reset; the rest is `ProbeFailure`. */
    method IncreaseFailureCount(store: ClusterStore, shard: int, node: Node, replies: seq<Reply>) returns (count: int)
      requires Valid() && store.Valid()
      modifies this`failureCounts, this`events, store
      ensures Valid() && store.Valid()
      ensures count == FailuresSinceReset(old(events), node.id) + 1
      ensures Outcome(store.values, events) ==
        ProbeFailure(Outcome(old(store.values), old(events)), (ns, clusterName), maxFailureCount, shard, node, replies)
    {
      count := Bump(node.id);
      if !node.IsMaster() {
        return;
      }
      if count % maxFailureCount == 0 {
        PromoteFailed(store, shard, node.id, replies);
      }
    }

    // The new master's counter is reset before the promotion is stored.
    method PromoteFailed(store: ClusterStore, shard: int, id: string, replies: seq<Reply>)
      requires Valid() && store.Valid()
      modifies this`failureCounts, this`events, store
      ensures Valid() && store.Valid()
      ensures Outcome(store.values, events) ==
        FailoverOutcome(Outcome(old(store.values), old(events)), (ns, clusterName), shard, id, replies)
    {
      var promoted, c := GetAndPromote(store, ns, clusterName, shard, id, replies);
      if promoted.Ok? {
        ResetFailureCount(promoted.value);
        var r := store.UpdateCluster(ns, c);
      }
    }

    /** A node that is restoring from a backup keeps its counter; any other answer resets it. */
    method HandleProbe(store: ClusterStore, shard: int, node: Node, reply: ProbeReply, replies: seq<Reply>)
      requires Valid() && store.Valid()
      modifies this`failureCounts, this`events, store
      ensures Valid() && store.Valid()
      ensures Outcome(store.values, events) ==
        ProbeStep(Outcome(old(store.values), old(events)), (ns, clusterName), maxFailureCount,
                  Probe(shard, node, reply, replies))
    {
      if reply.RestoringBackup? {
        return;
      }
      if reply.ProbeFailed? {
        var count := IncreaseFailureCount(store, shard, node, replies);
        return;
      }
      ResetFailureCount(node.id);
    }

    /** One pass over a clone of the cached cluster is `Pass`. */
    method TryUpdateMigrationStatus(store: ClusterStore, cloned: Cluster, reports: seq<Report>)
      requires store.Valid() && cloned.Valid()
      modifies this`cluster, store, cloned`version, cloned.shards
      ensures store.Valid() && cloned.Valid()
      ensures exists p ::
                && PassTo(old(store.values), (ns, cloned.name), old(cloned.View()), reports, p)
                && store.values == p.values && cloned.View() == p.held
                && cluster == if p.cached then cloned else old(cluster)
      ensures Tidy(old(Views(cloned.shards))) ==>
        var p := Pass(old(store.values), (ns, cloned.name), old(cloned.View()), reports, 0, false);
        && store.values == p.values && cloned.View() == p.held
        && cluster == if p.cached then cloned else old(cluster)
    {
      var cached := RunPass(store, ns, cloned, reports);
      if cached {
        cluster := cloned;
      }
    }
  }

  // The loop over the shards; the caller caches the object that was stored.
  method RunPass(store: ClusterStore, ns: string, cloned: Cluster, reports: seq<Report>) returns (cached: bool)
    requires store.Valid() && cloned.Valid()
    modifies store, cloned`version, cloned.shards
    ensures store.Valid()
    ensures PassTo(old(store.values), (ns, cloned.name), old(cloned.View()), reports,
                   PassResult(store.values, cloned.View(), cached))
    ensures Tidy(old(Views(cloned.shards))) ==>
      PassResult(store.values, cloned.View(), cached)
        == Pass(old(store.values), (ns, cloned.name), old(cloned.View()), reports, 0, false)
  {
    ghost var key, values, held := (ns, cloned.name), store.values, cloned.View();
    cached := RunSteps(store, ns, cloned, reports);
    ghost var p := PassResult(store.values, cloned.View(), cached);
    if Tidy(held.shards) { PassToIsPass(values, key, held, reports, p); }
  }

  method RunSteps(store: ClusterStore, ns: string, cloned: Cluster, reports: seq<Report>) returns (cached: bool)
    requires store.Valid() && cloned.Valid()
    modifies store, cloned`version, cloned.shards
    ensures store.Valid()
    ensures PassTo(old(store.values), (ns, cloned.name), old(cloned.View()), reports,
                   PassResult(store.values, cloned.View(), cached))
  {
    ghost var key, start := (ns, cloned.name), StepResult(store.values, cloned.View(), Skipped);
    ghost var points := [start];
    cached := false;
    for i := 0 to |cloned.shards|
      invariant store.Valid()
      invariant |points| == i + 1 && points[0] == start && Trace(key, reports, points)
      invariant !points[i].outcome.Stopped? && cached == AnyStored(points)
      invariant points[i].values == store.values && points[i].held == cloned.View()
    {
      var outcome := CompleteAndStore(store, ns, cloned, i, ReportOf(reports, i));
      ghost var next := StepResult(store.values, cloned.View(), outcome);
      TraceNext(key, reports, points, next);
      points := points + [next];
      if outcome.Stopped? {
        assert EndsAs(points, PassResult(store.values, cloned.View(), cached));
        return;
      }
      cached := cached || outcome.Stored?;
    }
    assert EndsAs(points, PassResult(store.values, cloned.View(), cached));
  }

  // The part of the pass that concerns one shard.
  method CompleteAndStore(store: ClusterStore, ns: string, c: Cluster, i: nat, report: Report)
    returns (outcome: StepOutcome)
    requires store.Valid() && c.Valid() && i < |c.shards|
    modifies store, c`version, c.shards
    ensures store.Valid()
    ensures StepTo(old(store.values), (ns, c.name), old(c.View()), i, report,
                   StepResult(store.values, c.View(), outcome))
  {
    var r := CompleteShard(c, i, report);
    if r.Err? {
      return if r == Err(IndexOutOfRange) || r == Err(Crash) then Stopped else Skipped;
    }
    ghost var edited := c.View();
    var updated := store.UpdateCluster(ns, c);
    outcome := if updated.Ok? then Stored else Stopped;
    assert StepResult(store.values, c.View(), outcome) == StoreEdited(old(store.values), (ns, c.name), edited);
    assert edited == old(c.View()).(shards := edited.shards);
  }

  method CompleteShard(c: Cluster, i: nat, report: Report) returns (r: Result<()>)
    requires c.Valid() && i < |c.shards|
    modifies c.shards
    ensures match Complete(old(c.View()).shards, i, report)
            case Ok(_) => r == Ok(()) && CompletesTo(old(c.View()).shards, i, report, c.View().shards)
            case Err(e) => r == Err(e) && c.View() == old(c.View())
  {
    r := CheckReport(c, i, report);
    if r.Ok? {
      Finish(c, i, report.state);
    }
  }

  // Everything before the switch on the reported state, and the states that change nothing.
  method CheckReport(c: Cluster, i: nat, report: Report) returns (r: Result<()>)
    requires i < |c.shards|
    ensures match Complete(Views(c.shards), i, report)
            case Ok(_) => r == Ok(())
            case Err(e) => r == Err(e)
  {
    var shard := c.shards[i];
    if !shard.View().IsMigrating() {
      return Err(NothingToComplete);
    }
    var master := FindMaster(shard.nodes);
    if master == -1 {
      return Err(Crash);
    }
    if report.NoAnswer? {
      return Err(NothingToComplete);
    }
    if report.slot.None? {
      return Err(Crash);
    }
    if report.slot.value != shard.migratingSlot.value.range {
      return Err(NothingToComplete);
    }
    if shard.targetShardIndex < 0 || shard.targetShardIndex >= |c.shards| {
      return Err(IndexOutOfRange);
    }
    if report.state.StateNone? || report.state.StateStart? {
      return Err(NothingToComplete);
    }
    return Ok(());
  }

  ghost predicate Finished(v: seq<ShardState>, i: nat, state: MigratingState, after: seq<ShardState>)
    requires i < |v| && v[i].IsMigrating() && 0 <= v[i].targetShardIndex < |v|
  {
    if state.StateSuccess? then Moved(v, after, i, v[i].targetShardIndex, v[i].migratingSlot.value.range)
    else after == v[i := v[i].ClearMigrateState()]
  }

  method Finish(c: Cluster, i: nat, state: MigratingState)
    requires c.Valid() && i < |c.shards|
    requires c.shards[i].View().IsMigrating() && 0 <= c.shards[i].targetShardIndex < |c.shards|
    modifies c.shards
    ensures Finished(old(Views(c.shards)), i, state, Views(c.shards))
  {
    ghost var v := Views(c.shards);
    var shard := c.shards[i];
    if state.StateSuccess? {
      c.MoveSlot(i, shard.targetShardIndex, shard.migratingSlot.value.range);
    } else {
      shard.ClearMigrateState();
      assert Views(c.shards) == v[i := v[i].ClearMigrateState()];
    }
  }
}
