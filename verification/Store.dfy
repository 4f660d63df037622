/**
 * The cluster store over an atomic key-value engine (store/store.go), and the API handlers
 * that read, change and write back one cluster (server/api).
 */
module Store {
  import opened SlotRanges
  import opened Topology
  import opened Failover
  import opened Partition
  import opened Concurrency
  import opened Objects

  type Key = (string, string)

  class ClusterStore {
    var values: map<Key, ClusterState>

    // A cluster is stored under its own name.
    ghost predicate Valid()
      reads this
    {
      forall k :: k in values ==> values[k].name == k.1
    }

    constructor ()
      ensures Valid() && values == map[]
    {
      values := map[];
    }

    method GetCluster(ns: string, name: string) returns (r: Result<Cluster>)
      ensures (ns, name) !in values ==> r == Err(NotFound)
      ensures (ns, name) in values ==>
        && r.Ok? && fresh(r.value) && r.value.Valid()
        && (forall i :: 0 <= i < |r.value.shards| ==> fresh(r.value.shards[i]))
        && r.value.View() == values[(ns, name)]
    {
      if (ns, name) !in values {
        return Err(NotFound);
      }
      var c := new Cluster.FromState(values[(ns, name)]);
      return Ok(c);
    }

    /** Accepts unless the stored version is newer, and then bumps the version of the caller's object. */
    method UpdateCluster(ns: string, c: Cluster) returns (r: Result<()>)
      requires Valid()
      modifies this, c`version
      ensures Valid()
      ensures var key := (ns, c.name);
        if key !in old(values) then r == Err(NotFound) && values == old(values) && c.View() == old(c.View())
        else match UpdateRegister(old(values)[key], old(c.View()))
             case Ok(v) =>
               && r == Ok(()) && values == old(values)[key := v] && c.View() == v
               && v == old(c.View()).(version := old(c.version) + 1)
             case Err(e) => r == Err(e) && values == old(values) && c.View() == old(c.View())
    {
      var key := (ns, c.name);
      if key !in values {
        return Err(NotFound);
      }
      if values[key].version > c.version {
        return Err(UpdatedByOthers);
      }
      c.version := c.version + 1;
      var stored := c.Snapshot();
      values := values[key := stored];
      return Ok(());
    }

    /** Accepts unless the stored version is newer, and does not bump the version. */
    method SetCluster(ns: string, c: Cluster) returns (r: Result<()>)
      requires Valid()
      modifies this
      ensures Valid()
      ensures var key := (ns, c.name);
        if key !in old(values) then r == Err(NotFound) && values == old(values)
        else match SetRegister(old(values)[key], c.View())
             case Ok(v) => r == Ok(()) && values == old(values)[key := v] && v == c.View()
             case Err(e) => r == Err(e) && values == old(values)
    {
      var key := (ns, c.name);
      if key !in values {
        return Err(NotFound);
      }
      if values[key].version > c.version {
        return Err(UpdatedByOthers);
      }
      var stored := c.Snapshot();
      values := values[key := stored];
      return Ok(());
    }

    method CreateCluster(ns: string, c: Cluster) returns (r: Result<()>)
      requires Valid()
      modifies this
      ensures Valid()
      ensures (ns, c.name) in old(values) ==> r == Err(AlreadyExists) && values == old(values)
      ensures (ns, c.name) !in old(values) ==> r == Ok(()) && values == old(values)[(ns, c.name) := c.View()]
    {
      var key := (ns, c.name);
      if key in values {
        return Err(AlreadyExists);
      }
      var stored := c.Snapshot();
      values := values[key := stored];
      return Ok(());
    }
  }

  // ----- API handlers -----

  const NODE_ID_LEN := 40

  function Handled(values: map<Key, ClusterState>, key: Key, op: Op): Result<ClusterState> {
    if key !in values then Err(NotFound)
    else if op.Failover? && |op.preferred| > 0 && |op.preferred| != NODE_ID_LEN then Err(InvalidArgument)
    else
      match Apply(values[key], op)
      case Err(e) => Err(e)
      case Ok(c) => Ok(c.(version := c.version + 1))
  }

  // A result one version on.
  function Bumped(r: Result<ClusterState>): Result<ClusterState> {
    if r.Ok? then Ok(r.value.(version := r.value.version + 1)) else r
  }

  /** A request is granted exactly when the cluster exists, a preferred id is whole, and the operation is. */
  lemma HandledIff(values: map<Key, ClusterState>, key: Key, op: Op, r: Result<ClusterState>)
    requires key in values ==> r == Apply(values[key], op)
    ensures key !in values ==> Handled(values, key, op) == Err(NotFound)
    ensures key in values && op.Failover? && |op.preferred| != 0 && |op.preferred| != 40 ==>
      Handled(values, key, op) == Err(InvalidArgument)
    ensures key in values && (op.Failover? ==> |op.preferred| == 0 || |op.preferred| == 40) ==>
      Handled(values, key, op) == Bumped(r)
  {}

  // What the objects demand for their methods to do what `Apply` says.
  ghost predicate Regular(shards: seq<ShardState>, op: Op) {
    match op
    case MigrateSlot(slot, _, _, _) =>
      slot.start <= slot.stop && Normalized(shards)
    case RemoveNode(i, _) => 0 <= i < |shards| ==> DistinctIds(shards[i].nodes)
    case _ => true
  }

  /** On a valid topology the objects behave as `Apply` says. */
  lemma ValidIsRegular(c: ClusterState, op: Op)
    requires Inv(c) && Permitted(c.shards, op)
    ensures Regular(c.shards, op)
  {
    forall i | 0 <= i < |c.shards| ensures Normal(c.shards[i].slotRanges) && DistinctIds(c.shards[i].nodes) {
      assert RangesOk(c.shards[i]);
    }
  }

  method Edit(c: Cluster, op: Op) returns (r: Result<()>)
    requires c.Valid() && !op.CompleteMigration?
    modifies c`shards, c.shards
    ensures c.Valid() && c.name == old(c.name)
    ensures Regular(old(c.View()).shards, op) ==>
      match Apply(old(c.View()), op)
      case Ok(d) => r == Ok(()) && c.View() == d
      case Err(e) => r == Err(e)
  {
    match op {
      case MigrateSlot(slot, target, slotOnly, commandOk) => r := c.MigrateSlot(slot, target, slotOnly, commandOk);
      case CreateShard(newNodes) => r := c.CreateShard(newNodes);
      case RemoveShard(i) => r := c.RemoveShard(i);
      case AddNode(i, id, addr, role) => r := c.AddNode(i, id, addr, role);
      case RemoveNode(i, id) => r := c.RemoveNode(i, id);
      case Failover(i, masterID, preferred, replies) =>
        var promoted := c.PromoteNewMaster(i, masterID, preferred, replies);
        r := if promoted.Ok? then Ok(()) else Err(promoted.error);
    }
  }

  ghost predicate RegularAt(values: map<Key, ClusterState>, key: Key, op: Op) {
    key in values ==> Regular(values[key].shards, op)
  }

  // The first half of a handler: an edited copy of the stored cluster.
  method GetAndEdit(store: ClusterStore, ns: string, name: string, op: Op) returns (r: Result<Cluster>)
    requires store.Valid() && !op.CompleteMigration?
    ensures r.Ok? ==> fresh(r.value) && (ns, name) in store.values && r.value.name == name
    ensures RegularAt(store.values, (ns, name), op) ==>
      match Handled(store.values, (ns, name), op)
      case Ok(c) => r.Ok? && r.value.View() == c.(version := store.values[(ns, name)].version)
      case Err(e) => r == Err(e)
  {
    var got := store.GetCluster(ns, name);
    if got.Err? {
      return Err(got.error);
    }
    if op.Failover? && |op.preferred| > 0 && |op.preferred| != NODE_ID_LEN {
      return Err(InvalidArgument);
    }
    var edited := Edit(got.value, op);
    return if edited.Ok? then got else Err(edited.error);
  }

  // An edited copy of the stored value is accepted, one version on.
  lemma HandledIsAccepted(values: map<Key, ClusterState>, key: Key, op: Op, held: ClusterState)
    requires var h := Handled(values, key, op);
      h.Ok? && key in values && held == h.value.(version := values[key].version)
    ensures UpdateRegister(values[key], held) == Handled(values, key, op)
  {}

  /** A handler reads the cluster, edits its copy and writes it back. */
  method Handle(store: ClusterStore, ns: string, name: string, op: Op) returns (r: Result<()>)
    requires store.Valid() && !op.CompleteMigration?
    modifies store
    ensures store.Valid()
    ensures RegularAt(old(store.values), (ns, name), op) ==>
      match Handled(old(store.values), (ns, name), op)
      case Ok(c) => r == Ok(()) && store.values == old(store.values)[(ns, name) := c]
      case Err(e) => r == Err(e) && store.values == old(store.values)
  {
    var edited := GetAndEdit(store, ns, name, op);
    if edited.Err? {
      return Err(edited.error);
    }
    ghost var values := store.values;
    var c: Cluster := edited.value;
    ghost var held := c.View();
    r := store.UpdateCluster(ns, c);
    if RegularAt(values, (ns, name), op) { HandledIsAccepted(values, (ns, name), op, held); }
  }

  /** A handler is a run of the concurrent system: get, edit, update. */
  lemma HandlerIsRun(s: System, actor: nat, values: map<Key, ClusterState>, key: Key, op: Op)
    requires key in values && values[key] == s.stored && Permitted(s.stored.shards, op)
    requires Handled(values, key, op).Ok?
    ensures Run(s, [Get(actor), Action.Edit(actor, op), Update(actor)]).stored == Handled(values, key, op).value
  {
    var a, b, c := Get(actor), Action.Edit(actor, op), Update(actor);
    assert [a, b, c][..2] == [a, b] && [a, b][..1] == [a] && [a][..0] == [];
    assert Run(s, [a]) == Do(s, a);
    assert Run(s, [a, b]) == Do(Do(s, a), b);
  }
}
