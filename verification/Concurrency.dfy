/**
 * The stored topology as a version-checked register shared by several actors
 * (store/store.go), and what holds in every interleaving of their steps.
 *
 * An actor gets a copy of the stored value, edits the copy, and asks the store to replace the
 * stored value by it.  API handlers do this once; the migration loop of the controller also
 * clones a copy it cached earlier and keeps editing a copy after storing it.
 */
module Concurrency {
  import opened SlotRanges
  import opened Topology
  import opened Failover
  import opened Partition
  import opened Migration

  // ----- The register -----

  function UpdateRegister(stored: ClusterState, held: ClusterState): Result<ClusterState> {
    if stored.version > held.version then Err(UpdatedByOthers) else Ok(held.(version := held.version + 1))
  }

  function SetRegister(stored: ClusterState, value: ClusterState): Result<ClusterState> {
    if stored.version > value.version then Err(UpdatedByOthers) else Ok(value)
  }

  // ----- The system -----

  // An actor's copy: `held` is the object in memory.  `base` (the stored value it was read from or
  // stored as) and `edits` (the operations since) are bookkeeping that no step looks at.
  datatype Copy = Copy(held: ClusterState, base: ClusterState, edits: seq<Op>)

  // `history` (all stored values) and `commits` (the edits of each accepted update) are bookkeeping too.
  datatype System = System(
    stored: ClusterState,
    copies: map<nat, Copy>,
    history: seq<ClusterState>,
    commits: seq<seq<Op>>)

  datatype Action =
    | Get(actor: nat)
    | Clone(from: nat, to: nat)
    | Edit(actor: nat, op: Op)
    | Update(actor: nat)
    | Set(value: ClusterState)

  function Start(c: ClusterState): System { System(c, map[], [c], []) }

  predicate Accepts(s: System, actor: nat) {
    actor in s.copies && UpdateRegister(s.stored, s.copies[actor].held).Ok?
  }

  ghost function Do(s: System, a: Action): System {
    match a
    case Get(i) => s.(copies := s.copies[i := Copy(s.stored, s.stored, [])])
    case Clone(i, j) => if i in s.copies then s.(copies := s.copies[j := s.copies[i]]) else s
    case Edit(i, op) =>
      if i in s.copies && Permitted(s.copies[i].held.shards, op) && Apply(s.copies[i].held, op).Ok? then
        var c := s.copies[i];
        s.(copies := s.copies[i := c.(held := Apply(c.held, op).value, edits := c.edits + [op])])
      else s
    case Update(i) =>
      if Accepts(s, i) then
        var v := UpdateRegister(s.stored, s.copies[i].held).value;
        System(v, s.copies[i := Copy(v, v, [])], s.history + [v], s.commits + [s.copies[i].edits])
      else s
    case Set(value) =>
      if SetRegister(s.stored, value).Ok? then s.(stored := value, history := s.history + [value]) else s
  }

  ghost function Run(s: System, actions: seq<Action>): System {
    if actions == [] then s else Do(Run(s, actions[..|actions| - 1]), actions[|actions| - 1])
  }

  // Every operation in turn.
  function EditAll(c: ClusterState, ops: seq<Op>): (r: Result<ClusterState>)
    ensures r.Ok? ==> r.value.version == c.version
  {
    if ops == [] then Ok(c)
    else
      match EditAll(c, ops[..|ops| - 1])
      case Err(e) => Err(e)
      case Ok(d) => Apply(d, ops[|ops| - 1])
  }

  // Every operation in turn was permitted and succeeded.
  ghost predicate Edits(c: ClusterState, ops: seq<Op>, d: ClusterState) {
    EditAll(c, ops) == Ok(d) &&
    (ops != [] ==>
       var init := EditAll(c, ops[..|ops| - 1]);
       init.Ok? && Edits(c, ops[..|ops| - 1], init.value) && Permitted(init.value.shards, ops[|ops| - 1]))
  }

  /** The store's answers are steps: a refusal leaves the stored value, an acceptance stores what the step stores. */
  lemma AnswersAreSteps(s: System, actor: nat, value: ClusterState)
    ensures SetRegister(s.stored, value) ==
      if value.version < s.stored.version then Err(UpdatedByOthers) else Ok(Do(s, Set(value)).stored)
    ensures value.version < s.stored.version ==> Do(s, Set(value)) == s
    ensures value.version >= s.stored.version ==> Do(s, Set(value)).stored == value
    ensures actor in s.copies ==>
      var held := s.copies[actor].held;
      && (held.version < s.stored.version ==>
            UpdateRegister(s.stored, held) == Err(UpdatedByOthers) && Do(s, Update(actor)) == s)
      && (held.version >= s.stored.version ==>
            && UpdateRegister(s.stored, held) == Ok(Do(s, Update(actor)).stored)
            && Do(s, Update(actor)).stored == held.(version := held.version + 1))
  {}

  // ----- Versions -----

  predicate Ordered(history: seq<ClusterState>) {
    forall i, j :: 0 <= i < j < |history| ==> history[i].version <= history[j].version
  }

  predicate StrictlyOrdered(history: seq<ClusterState>) {
    forall i, j :: 0 <= i < j < |history| ==> history[i].version < history[j].version
  }

  ghost predicate ComesFrom(c: Copy, history: seq<ClusterState>) {
    c.base in history && Edits(c.base, c.edits, c.held)
  }

  predicate EndsIn(history: seq<ClusterState>, stored: ClusterState) {
    history != [] && history[|history| - 1] == stored && Ordered(history)
  }

  ghost predicate AllComeFrom(copies: map<nat, Copy>, history: seq<ClusterState>) {
    forall i :: i in copies ==> ComesFrom(copies[i], history)
  }

  ghost predicate Traced(s: System) { EndsIn(s.history, s.stored) && AllComeFrom(s.copies, s.history) }

  lemma EditsSnoc(c: ClusterState, ops: seq<Op>, op: Op, d: ClusterState)
    requires Edits(c, ops, d)
    ensures EditAll(c, ops + [op]) == Apply(d, op)
    ensures Permitted(d.shards, op) && Apply(d, op).Ok? ==> Edits(c, ops + [op], Apply(d, op).value)
  {
    assert (ops + [op])[..|ops|] == ops;
  }

  lemma BaseNotNewer(s: System, i: nat)
    requires Traced(s) && i in s.copies
    ensures s.copies[i].held.version == s.copies[i].base.version <= s.stored.version
  {
    assert ComesFrom(s.copies[i], s.history);
    NotNewer(s.history, s.stored, s.copies[i].base);
  }

  lemma NotNewer(history: seq<ClusterState>, stored: ClusterState, c: ClusterState)
    requires EndsIn(history, stored) && c in history
    ensures c.version <= stored.version
  {
    var k :| 0 <= k < |history| && history[k] == c;
  }

  lemma PutComesFrom(copies: map<nat, Copy>, history: seq<ClusterState>, i: nat, c: Copy)
    requires AllComeFrom(copies, history) && ComesFrom(c, history)
    ensures AllComeFrom(copies[i := c], history)
  {
    var put := copies[i := c];
    forall j | j in put ensures ComesFrom(put[j], history) {
      assert j != i ==> ComesFrom(copies[j], history);
    }
  }

  lemma PutKeepsTraced(s: System, i: nat, c: Copy)
    requires Traced(s) && ComesFrom(c, s.history)
    ensures Traced(s.(copies := s.copies[i := c]))
  {
    PutComesFrom(s.copies, s.history, i, c);
  }

  lemma StoreKeepsTraced(s: System, value: ClusterState, commits: seq<seq<Op>>)
    requires Traced(s) && s.stored.version <= value.version
    ensures Traced(System(value, s.copies, s.history + [value], commits))
  {
    forall i | i in s.copies ensures ComesFrom(s.copies[i], s.history + [value]) {
      assert ComesFrom(s.copies[i], s.history);
    }
  }

  lemma DoKeepsTraced(s: System, a: Action)
    requires Traced(s)
    ensures Traced(Do(s, a))
  {
    match a {
      case Get(i) => PutKeepsTraced(s, i, Copy(s.stored, s.stored, []));
      case Clone(i, j) => if i in s.copies { PutKeepsTraced(s, j, s.copies[i]); }
      case Edit(i, op) =>
        if i in s.copies && Do(s, a) != s {
          EditsSnoc(s.copies[i].base, s.copies[i].edits, op, s.copies[i].held);
          PutKeepsTraced(s, i, Do(s, a).copies[i]);
        }
      case Update(i) =>
        if Accepts(s, i) {
          var v, commits := Do(s, a).stored, Do(s, a).commits;
          BaseNotNewer(s, i);
          StoreKeepsTraced(s, v, commits);
          PutKeepsTraced(System(v, s.copies, s.history + [v], commits), i, Copy(v, v, []));
        }
      case Set(value) => if SetRegister(s.stored, value).Ok? { StoreKeepsTraced(s, value, s.commits); }
    }
  }

  /** In every interleaving, `Set` included, stored versions never decrease. */
  lemma {:induction false} VersionsNeverDecrease(c: ClusterState, actions: seq<Action>)
    ensures Traced(Run(Start(c), actions))
  {
    if actions != [] {
      VersionsNeverDecrease(c, actions[..|actions| - 1]);
      DoKeepsTraced(Run(Start(c), actions[..|actions| - 1]), actions[|actions| - 1]);
    }
  }

  // ----- No lost update -----

  // Every accepted Set carried a version above the stored one.
  ghost predicate SetsAreNewer(s: System, actions: seq<Action>) {
    actions == [] ||
    var before, a := actions[..|actions| - 1], actions[|actions| - 1];
    SetsAreNewer(s, before) && (a.Set? ==> a.value.version != Run(s, before).stored.version)
  }

  lemma NewerIsLast(history: seq<ClusterState>, stored: ClusterState, value: ClusterState)
    requires EndsIn(history, stored) && StrictlyOrdered(history) && stored.version < value.version
    ensures StrictlyOrdered(history + [value])
  {
    forall i | 0 <= i < |history| ensures history[i].version < value.version {
      NotNewer(history, stored, history[i]);
    }
  }

  lemma DoIncreases(s: System, a: Action)
    requires Traced(s) && StrictlyOrdered(s.history) && (a.Set? ==> a.value.version != s.stored.version)
    ensures StrictlyOrdered(Do(s, a).history)
  {
    if a.Update? && Accepts(s, a.actor) {
      BaseNotNewer(s, a.actor);
      NewerIsLast(s.history, s.stored, Do(s, a).stored);
    } else if a.Set? && SetRegister(s.stored, a.value).Ok? {
      NewerIsLast(s.history, s.stored, a.value);
    }
  }

  lemma {:induction false} VersionsIncrease(c: ClusterState, actions: seq<Action>)
    requires SetsAreNewer(Start(c), actions)
    ensures StrictlyOrdered(Run(Start(c), actions).history)
  {
    if actions != [] {
      var before, a := actions[..|actions| - 1], actions[|actions| - 1];
      var s := Run(Start(c), before);
      VersionsIncrease(c, before);
      VersionsNeverDecrease(c, before);
      DoIncreases(s, a);
    }
  }

  /**
   * In every interleaving in which Sets carry new versions, the store accepts an update exactly
   * when the stored value is the very one that the actor's copy was computed from.
   */
  lemma AcceptedIffBaseIsStored(c: ClusterState, actions: seq<Action>, actor: nat)
    requires SetsAreNewer(Start(c), actions)
    ensures var s := Run(Start(c), actions);
      actor in s.copies ==> (Accepts(s, actor) <==> s.copies[actor].base == s.stored)
  {
    var s := Run(Start(c), actions);
    VersionsIncrease(c, actions);
    VersionsNeverDecrease(c, actions);
    if actor in s.copies {
      BaseNotNewer(s, actor);
      var k :| 0 <= k < |s.history| && s.history[k] == s.copies[actor].base;
    }
  }

  /**
   * In every run, Sets included, an update that was not computed from the stored value is accepted
   * exactly when its base has the stored version, and this needs a Set that kept the version of
   * the value before it.
   */
  lemma LostUpdateNeedsEqualVersions(c: ClusterState, actions: seq<Action>, actor: nat)
    ensures var s := Run(Start(c), actions);
      actor in s.copies && s.copies[actor].base != s.stored ==>
        && (Accepts(s, actor) <==> s.copies[actor].base.version == s.stored.version)
        && (Accepts(s, actor) ==> LastKeptVersion(s.history))
  {
    var s := Run(Start(c), actions);
    VersionsNeverDecrease(c, actions);
    if actor in s.copies && s.copies[actor].base != s.stored { StaleAccepted(s, actor); }
  }

  predicate LastKeptVersion(history: seq<ClusterState>) {
    |history| >= 2 && history[|history| - 2].version == history[|history| - 1].version
  }

  lemma StaleAccepted(s: System, actor: nat)
    requires Traced(s) && actor in s.copies && s.copies[actor].base != s.stored
    ensures Accepts(s, actor) <==> s.copies[actor].base.version == s.stored.version
    ensures Accepts(s, actor) ==> LastKeptVersion(s.history)
  {
    BaseNotNewer(s, actor);
    if Accepts(s, actor) { RepeatedVersion(s.history, s.copies[actor].base); }
  }

  lemma RepeatedVersion(history: seq<ClusterState>, base: ClusterState)
    requires history != [] && Ordered(history) && base in history && base != history[|history| - 1]
    requires base.version == history[|history| - 1].version
    ensures LastKeptVersion(history)
  {
    var k :| 0 <= k < |history| && history[k] == base;
    var n := |history| - 1;
    assert k < n;
    if k < n - 1 { assert history[k].version <= history[n - 1].version; }
    assert history[n - 1].version <= history[n].version;
  }

  /**
   * After any run, a Set is overwritten by every copy of the value it replaces, exactly when it
   * keeps the version and changes the value.
   */
  lemma SetLosesUpdateIff(c: ClusterState, actions: seq<Action>, actor: nat, value: ClusterState)
    ensures var s := Run(Start(c), actions);
      actor in s.copies && s.copies[actor].base == s.stored ==>
        var s' := Do(s, Set(value));
        (Accepts(s', actor) && s'.copies[actor].base != s'.stored <==>
           value.version == s.stored.version && value != s.stored)
  {
    VersionsNeverDecrease(c, actions);
    var s := Run(Start(c), actions);
    if actor in s.copies { BaseNotNewer(s, actor); }
  }

  // ----- Serializability and the invariant -----

  predicate NoSets(actions: seq<Action>) {
    forall i :: 0 <= i < |actions| ==> !actions[i].Set?
  }

  ghost predicate SetsAreValid(actions: seq<Action>) {
    forall i :: 0 <= i < |actions| && actions[i].Set? ==> Inv(actions[i].value)
  }

  // Each stored value is the previous one after the edits of one update, one version on.
  ghost predicate Commit(before: ClusterState, edits: seq<Op>, after: ClusterState) {
    after.version == before.version + 1 && Edits(before, edits, after.(version := before.version))
  }

  ghost predicate Serial(s: System) {
    SerialHistory(s.history, s.commits)
  }

  ghost predicate SerialHistory(history: seq<ClusterState>, commits: seq<seq<Op>>) {
    && |history| == |commits| + 1
    && forall k :: 0 <= k < |commits| ==> Commit(history[k], commits[k], history[k + 1])
  }

  ghost predicate AllValid(s: System) {
    && (forall k :: 0 <= k < |s.history| ==> Inv(s.history[k]))
    && forall i :: i in s.copies ==> Inv(s.copies[i].held)
  }

  lemma {:induction false} NoSetsAreNewer(s: System, actions: seq<Action>)
    requires NoSets(actions)
    ensures SetsAreNewer(s, actions)
  {
    if actions != [] { NoSetsAreNewer(s, actions[..|actions| - 1]); }
  }

  lemma SerialNext(history: seq<ClusterState>, commits: seq<seq<Op>>, edits: seq<Op>, after: ClusterState)
    requires SerialHistory(history, commits) && Commit(history[|commits|], edits, after)
    ensures SerialHistory(history + [after], commits + [edits])
  {
    var all, done, n := history + [after], commits + [edits], |commits|;
    forall k | 0 <= k <= n ensures Commit(all[k], done[k], all[k + 1]) {
      assert k < n ==> Commit(history[k], commits[k], history[k + 1]);
    }
  }

  lemma UpdateKeepsSerial(s: System, actor: nat)
    requires Traced(s) && Serial(s) && Accepts(s, actor) && s.copies[actor].base == s.stored
    ensures Serial(Do(s, Update(actor)))
  {
    var v := UpdateRegister(s.stored, s.copies[actor].held).value;
    assert ComesFrom(s.copies[actor], s.history);
    assert v.(version := s.stored.version) == s.copies[actor].held;
    SerialNext(s.history, s.commits, s.copies[actor].edits, v);
  }

  /**
   * Every interleaving of gets, clones, edits and updates is equivalent to running the accepted
   * updates one after the other on the stored value.
   */
  lemma {:induction false} EveryRunIsSerial(c: ClusterState, actions: seq<Action>)
    requires NoSets(actions)
    ensures Serial(Run(Start(c), actions))
  {
    if actions != [] {
      var before, a := actions[..|actions| - 1], actions[|actions| - 1];
      EveryRunIsSerial(c, before);
      VersionsNeverDecrease(c, before);
      NoSetsAreNewer(Start(c), before);
      var s := Run(Start(c), before);
      if a.Update? && Accepts(s, a.actor) {
        AcceptedIffBaseIsStored(c, before, a.actor);
        UpdateKeepsSerial(s, a.actor);
      }
    }
  }

  lemma VersionIsNotInv(c: ClusterState, version: int)
    requires Inv(c)
    ensures Inv(c.(version := version))
  {}

  lemma DoKeepsValid(s: System, a: Action)
    requires Traced(s) && AllValid(s) && (a.Set? ==> Inv(a.value))
    ensures AllValid(Do(s, a))
  {
    assert Inv(s.stored);
    var s' := Do(s, a);
    if a.Edit? && s' != s { ApplyKeepsInv(s.copies[a.actor].held, a.op); }
    if a.Update? && s' != s { VersionIsNotInv(s.copies[a.actor].held, s'.stored.version); }
  }

  /**
   * From a valid topology, every interleaving in which Sets carry valid topologies keeps the
   * invariant in every stored value and in every copy: each slot has exactly one owner, range
   * lists are normal, migrating shards own what they migrate, every shard has one master, and ids
   * are distinct.
   */
  lemma {:induction false} EveryRunIsValid(c: ClusterState, actions: seq<Action>)
    requires Inv(c) && SetsAreValid(actions)
    ensures AllValid(Run(Start(c), actions))
  {
    if actions != [] {
      EveryRunIsValid(c, actions[..|actions| - 1]);
      VersionsNeverDecrease(c, actions[..|actions| - 1]);
      DoKeepsValid(Run(Start(c), actions[..|actions| - 1]), actions[|actions| - 1]);
    }
  }

  /** From a new cluster, at every moment of every run, each slot is owned by exactly one shard. */
  lemma EverySlotHasOneOwner(name: string, newNodes: seq<NewNode>, replicas: int, actions: seq<Action>, x: int)
    returns (owner: int)
    requires DistinctNewNodes(newNodes) && NewCluster(name, newNodes, replicas).Ok? && SetsAreValid(actions)
    requires |newNodes| / (if replicas == 0 then 1 else replicas) <= MAX_SLOT_ID + 1
    requires MIN_SLOT_ID <= x <= MAX_SLOT_ID
    ensures var stored := Run(Start(NewCluster(name, newNodes, replicas).value), actions).stored;
      && Inv(stored)
      && forall i :: OwnerIs(stored.shards, x, i) <==> i == owner
  {
    var c := NewCluster(name, newNodes, replicas).value;
    NewClusterIsValidIff(name, newNodes, replicas);
    EveryRunIsValid(c, actions);
    VersionsNeverDecrease(c, actions);
    var stored := Run(Start(c), actions).stored;
    assert HasOwner(stored.shards, x);
    owner :| OwnerIs(stored.shards, x, owner);
  }

  // ----- Automatic failover -----

  // What an automatic failover of the node `failedID` changes.
  ghost predicate Demotes(before: seq<ShardState>, after: seq<ShardState>, i: int, failedID: string,
                          replies: seq<Reply>)
  {
    && 0 <= i < |before| == |after| && (forall k :: 0 <= k < |after| && k != i ==> after[k] == before[k])
    && var m, n := MasterIndex(before[i].nodes), MasterIndex(after[i].nodes);
    && 0 <= m < |before[i].nodes| == |after[i].nodes| && before[i].nodes[m].id == failedID
    && after[i].nodes[m] == before[i].nodes[m].(role := Slave) && n != m
    && IsChoice(before[i].nodes, m, "", replies, n)
    && forall j :: 0 <= j < |after[i].nodes| && j != m && j != n ==> after[i].nodes[j] == before[i].nodes[j]
  }

  lemma FailoverDemotes(c: ClusterState, i: int, failedID: string, replies: seq<Reply>)
    requires Inv(c) && failedID != "" && Apply(c, Failover(i, failedID, "", replies)).Ok?
    ensures Demotes(c.shards, Apply(c, Failover(i, failedID, "", replies)).value.shards, i, failedID, replies)
  {
    var nodes := c.shards[i].nodes;
    assert OneMaster(nodes);
    PromoteKeepsOneMaster(c.shards[i], failedID, "", replies);
    MasterIndexIsTheMaster(nodes);
    NewMasterIsChoice(nodes, MasterIndex(nodes), "", replies);
  }

  /**
   * An accepted automatic failover demotes the node whose probe failed, which is the master of
   * that shard in the very value being replaced, and nobody else - whatever happened to shard
   * indices or masters since the probe.
   */
  lemma AcceptedFailoverDemotesFailedMaster(
    c: ClusterState, actions: seq<Action>, actor: nat, i: int, failedID: string, replies: seq<Reply>)
    requires Inv(c) && NoSets(actions) && failedID != ""
    requires var s := Run(Start(c), actions);
      Accepts(s, actor) && s.copies[actor].edits == [Failover(i, failedID, "", replies)]
    ensures var s := Run(Start(c), actions);
      Demotes(s.stored.shards, Do(s, Update(actor)).stored.shards, i, failedID, replies)
  {
    var s := Run(Start(c), actions);
    var op := Failover(i, failedID, "", replies);
    VersionsNeverDecrease(c, actions);
    NoSetsAreNewer(Start(c), actions);
    AcceptedIffBaseIsStored(c, actions, actor);
    EveryRunIsValid(c, actions);
    assert Inv(s.stored);
    assert ComesFrom(s.copies[actor], s.history);
    OneEdit(s.stored, op, s.copies[actor].held);
    FailoverDemotes(s.stored, i, failedID, replies);
  }

  lemma OneEdit(c: ClusterState, op: Op, d: ClusterState)
    requires Edits(c, [op], d)
    ensures Apply(c, op) == Ok(d)
  {
    assert [op][..0] == [];
  }
}
