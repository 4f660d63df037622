/**
 * Which replica a failover promotes, and what it does to the roles in the shard
 * (store/cluster_shard.go).
 */
module Failover {
  import opened Topology

  predicate PreferredAt(nodes: seq<Node>, master: int, preferred: string, replies: seq<Reply>, i: nat) {
    i < |nodes| && Eligible(master, replies, i) && preferred != "" && nodes[i].id == preferred
  }

  // The last among the eligible nodes before `end` with the largest sequence number.
  predicate NewestBefore(nodes: seq<Node>, master: int, replies: seq<Reply>, end: int, r: int) {
    && 0 <= r < |nodes| && r < end && Eligible(master, replies, r)
    && forall i :: 0 <= i < |nodes| && i < end && Eligible(master, replies, i) ==>
         && Sequence(replies, i) <= Sequence(replies, r)
         && (i > r ==> Sequence(replies, i) < Sequence(replies, r))
  }

  /** What the choice of a new master means, without saying how the nodes are scanned. */
  ghost predicate IsChoice(nodes: seq<Node>, master: int, preferred: string, replies: seq<Reply>, r: int) {
    if exists i: nat :: PreferredAt(nodes, master, preferred, replies, i) then
      && 0 <= r && PreferredAt(nodes, master, preferred, replies, r)
      && forall i :: 0 <= i < r ==> !PreferredAt(nodes, master, preferred, replies, i)
    else if exists i: nat :: i < |nodes| && Eligible(master, replies, i) then
      NewestBefore(nodes, master, replies, |nodes|, r)
    else
      r == -1
  }

  lemma {:induction false} ScanIsChoice(nodes: seq<Node>, master: int, preferred: string, replies: seq<Reply>,
                                        i: nat, best: int, newest: nat)
    requires i <= |nodes|
    requires forall j :: 0 <= j < i ==> !PreferredAt(nodes, master, preferred, replies, j)
    requires if best == -1 then newest == 0 && forall j :: 0 <= j < i ==> !Eligible(master, replies, j)
             else NewestBefore(nodes, master, replies, i, best) && newest == Sequence(replies, best)
    ensures IsChoice(nodes, master, preferred, replies, Scan(nodes, master, preferred, replies, i, best, newest))
    decreases |nodes| - i
  {
    if i == |nodes| {
    } else if !Eligible(master, replies, i) {
      ScanIsChoice(nodes, master, preferred, replies, i + 1, best, newest);
    } else if preferred != "" && nodes[i].id == preferred {
      assert PreferredAt(nodes, master, preferred, replies, i);
    } else if Sequence(replies, i) >= newest {
      ScanIsChoice(nodes, master, preferred, replies, i + 1, i, Sequence(replies, i));
    } else {
      ScanIsChoice(nodes, master, preferred, replies, i + 1, best, newest);
    }
  }

  /**
   * The promoted node is the preferred one if that is eligible, otherwise the last eligible
   * replica of maximal sequence; it is never the current master, and there is none exactly
   * when no replica is eligible.
   */
  lemma NewMasterIsChoice(nodes: seq<Node>, master: int, preferred: string, replies: seq<Reply>)
    ensures var r := NewMasterIndex(nodes, master, preferred, replies);
      && IsChoice(nodes, master, preferred, replies, r)
      && -1 <= r < |nodes|
      && (r != -1 ==> r != master)
      && (r == -1 <==> forall i :: 0 <= i < |nodes| ==> !Eligible(master, replies, i))
  {
    ScanIsChoice(nodes, master, preferred, replies, 0, -1, 0);
    var r := NewMasterIndex(nodes, master, preferred, replies);
    if i: nat :| PreferredAt(nodes, master, preferred, replies, i) { assert Eligible(master, replies, r); }
  }

  /** The choice is unambiguous, so `IsChoice` determines the promoted node. */
  lemma ChoiceIsUnique(nodes: seq<Node>, master: int, preferred: string, replies: seq<Reply>, r: int, q: int)
    requires IsChoice(nodes, master, preferred, replies, r) && IsChoice(nodes, master, preferred, replies, q)
    ensures r == q
  {}

  /** Promotion fails exactly for want of a replica, of a matching master or of an eligible candidate. */
  lemma PromotionFailsIff(nodes: seq<Node>, masterID: string, preferred: string, replies: seq<Reply>)
    ensures var m := MasterIndex(nodes);
      Promotion(nodes, masterID, preferred, replies).Err? <==>
        || |nodes| <= 1
        || m == -1
        || (masterID != "" && nodes[m].id != masterID)
        || forall i :: 0 <= i < |nodes| ==> !Eligible(m, replies, i)
  {
    NewMasterIsChoice(nodes, MasterIndex(nodes), preferred, replies);
  }

  // There is a replica, a master that the caller means, and an eligible candidate.
  ghost predicate Promotable(nodes: seq<Node>, masterID: string, replies: seq<Reply>) {
    var m := MasterIndex(nodes);
    && |nodes| > 1 && m != -1 && (masterID == "" || nodes[m].id == masterID)
    && exists i :: 0 <= i < |nodes| && Eligible(m, replies, i)
  }

  /** A shard gets a new master exactly when it is promotable, whoever is preferred. */
  lemma PromoteIffPromotable(s: ShardState, masterID: string, preferred: string, replies: seq<Reply>)
    ensures Promote(s, masterID, preferred, replies).Ok? <==> Promotable(s.nodes, masterID, replies)
  {
    PromotionFailsIff(s.nodes, masterID, preferred, replies);
    NewMasterIsChoice(s.nodes, MasterIndex(s.nodes), preferred, replies);
  }

  // ----- Exactly one master -----

  predicate SoleMaster(nodes: seq<Node>, m: int) {
    0 <= m < |nodes| && forall j :: 0 <= j < |nodes| ==> (nodes[j].IsMaster() <==> j == m)
  }

  ghost predicate OneMaster(nodes: seq<Node>) {
    exists m :: SoleMaster(nodes, m)
  }

  ghost predicate DistinctIds(nodes: seq<Node>) {
    forall i, j :: 0 <= i < j < |nodes| ==> nodes[i].id != nodes[j].id
  }

  lemma MasterIndexIsTheMaster(nodes: seq<Node>)
    requires OneMaster(nodes)
    ensures SoleMaster(nodes, MasterIndex(nodes))
  {
    var m :| SoleMaster(nodes, m);
    assert nodes[m].IsMaster();
  }

  /**
   * A successful promotion keeps one master, demotes the old one and nobody else, and promotes
   * the chosen replica; ids, addresses, order and everything but the nodes stay.
   */
  lemma PromoteKeepsOneMaster(s: ShardState, masterID: string, preferred: string, replies: seq<Reply>)
    requires OneMaster(s.nodes) && Promote(s, masterID, preferred, replies).Ok?
    ensures var m, p := MasterIndex(s.nodes), Promote(s, masterID, preferred, replies).value;
      && OneMaster(p.nodes) && |p.nodes| == |s.nodes| && p == s.(nodes := p.nodes)
      && (masterID != "" ==> s.nodes[m].id == masterID)
      && p.nodes[m].role == Slave
      && IsChoice(s.nodes, m, preferred, replies, MasterIndex(p.nodes))
      && (forall j :: 0 <= j < |s.nodes| && j != m && j != MasterIndex(p.nodes) ==> p.nodes[j] == s.nodes[j])
      && (forall j :: 0 <= j < |s.nodes| ==> p.nodes[j].id == s.nodes[j].id && p.nodes[j].addr == s.nodes[j].addr)
  {
    var m := MasterIndex(s.nodes);
    MasterIndexIsTheMaster(s.nodes);
    NewMasterIsChoice(s.nodes, m, preferred, replies);
    var n := NewMasterIndex(s.nodes, m, preferred, replies);
    var p := Promote(s, masterID, preferred, replies).value;
    assert SoleMaster(p.nodes, n);
    MasterIndexIsTheMaster(p.nodes);
  }

  /** The id that a promotion returns is the id of the new master, which was a replica before. */
  lemma PromotedIsNewMaster(s: ShardState, masterID: string, preferred: string, replies: seq<Reply>)
    requires OneMaster(s.nodes) && Promote(s, masterID, preferred, replies).Ok?
    ensures var after := Promote(s, masterID, preferred, replies).value.nodes;
      && 0 <= MasterIndex(after) < |after| && MasterIndex(after) != MasterIndex(s.nodes)
      && PromotedID(s.nodes, masterID, preferred, replies) == after[MasterIndex(after)].id
  {
    PromoteKeepsOneMaster(s, masterID, preferred, replies);
    NewMasterIsChoice(s.nodes, MasterIndex(s.nodes), preferred, replies);
    ChoiceIsUnique(s.nodes, MasterIndex(s.nodes), preferred, replies,
                   NewMasterIndex(s.nodes, MasterIndex(s.nodes), preferred, replies),
                   MasterIndex(Promote(s, masterID, preferred, replies).value.nodes));
  }

  // The node answered both questions, as a slave that has replicated something.
  predicate Candidate(r: Reply) {
    r.Reply? && r.clusterInfoOk && r.info.Some? && r.info.value.role == Slave && r.info.value.sequence > 0
  }

  /**
   * By the replies alone: the new master answered as a slave with a sequence above 0, and unless it
   * is the preferred node, no other node but the old master answered so with a larger one.
   */
  lemma NewMasterByReplies(nodes: seq<Node>, master: int, preferred: string, replies: seq<Reply>)
    requires |replies| == |nodes|
    ensures var r := NewMasterIndex(nodes, master, preferred, replies);
      && (r == -1 <==> forall i :: 0 <= i < |nodes| && i != master ==> !Candidate(replies[i]))
      && (r != -1 ==>
            && 0 <= r < |nodes| && r != master && Candidate(replies[r])
            && (preferred == "" || nodes[r].id != preferred ==>
                  forall i :: 0 <= i < |nodes| && i != master && Candidate(replies[i]) ==>
                    && replies[i].info.value.sequence <= replies[r].info.value.sequence
                    && (preferred != "" ==> nodes[i].id != preferred)))
  {
    NewMasterIsChoice(nodes, master, preferred, replies);
    var r := NewMasterIndex(nodes, master, preferred, replies);
    forall i | 0 <= i < |nodes| ensures Eligible(master, replies, i) <==> i != master && Candidate(replies[i]) {}
    if r != -1 {
      assert Eligible(master, replies, r);
      forall i |
        0 <= i < |nodes| && i != master && Candidate(replies[i]) && (preferred == "" || nodes[r].id != preferred)
        ensures replies[i].info.value.sequence <= replies[r].info.value.sequence
        ensures preferred != "" ==> nodes[i].id != preferred
      {
        assert Eligible(master, replies, i);
        assert !PreferredAt(nodes, master, preferred, replies, i);
      }
    }
  }

  lemma AddNodeKeepsOneMaster(s: ShardState, id: string, addr: string, role: Role)
    requires OneMaster(s.nodes)
    requires AddNodeTo(s, id, addr, role).Ok?
    ensures OneMaster(AddNodeTo(s, id, addr, role).value.nodes)
  {
    var m :| SoleMaster(s.nodes, m);
    assert SoleMaster(AddNodeTo(s, id, addr, role).value.nodes, m);
  }

  // Position j of the list without position k is position Skip(k, j) of the list.
  function Skip(k: nat, j: nat): nat { if j < k then j else j + 1 }

  lemma Without(nodes: seq<Node>, k: nat)
    requires k < |nodes|
    ensures var after := nodes[..k] + nodes[k + 1..];
      && |after| == |nodes| - 1
      && forall j :: 0 <= j < |after| ==> after[j] == nodes[Skip(k, j)]
  {}

  lemma WithoutMember(nodes: seq<Node>, after: seq<Node>, k: nat, n: Node)
    requires k < |nodes| && |after| == |nodes| - 1 && forall j :: 0 <= j < |after| ==> after[j] == nodes[Skip(k, j)]
    requires DistinctIds(nodes)
    ensures n in after <==> n in nodes && n.id != nodes[k].id
  {
    if n in nodes && n.id != nodes[k].id {
      var j :| 0 <= j < |nodes| && nodes[j] == n;
      assert after[if j < k then j else j - 1] == n;
    }
  }

  lemma WithoutOneReplica(nodes: seq<Node>, after: seq<Node>, k: nat)
    requires k < |nodes| && |after| == |nodes| - 1 && forall j :: 0 <= j < |after| ==> after[j] == nodes[Skip(k, j)]
    requires OneMaster(nodes) && !nodes[k].IsMaster()
    ensures OneMaster(after)
  {
    var m :| SoleMaster(nodes, m);
    assert SoleMaster(after, if m < k then m else m - 1);
  }

  /** With distinct ids, removal drops the named replica and keeps every other node in order. */
  lemma RemoveNodeDropsNamed(s: ShardState, id: string)
    requires DistinctIds(s.nodes) && RemoveNodeFrom(s, id).Ok?
    ensures var after := RemoveNodeFrom(s, id).value.nodes;
      && |after| == |s.nodes| - 1
      && (forall n :: n in after <==> n in s.nodes && n.id != id)
      && (exists n :: n in s.nodes && n.id == id && !n.IsMaster())
      && DistinctIds(after)
      && (OneMaster(s.nodes) ==> OneMaster(after))
  {
    var k, after := IndexOfNode(s.nodes, id), RemoveNodeFrom(s, id).value.nodes;
    Without(s.nodes, k);
    assert s.nodes[k] in s.nodes;
    forall n ensures n in after <==> n in s.nodes && n.id != id {
      WithoutMember(s.nodes, after, k, n);
    }
    if OneMaster(s.nodes) { WithoutOneReplica(s.nodes, after, k); }
  }
}
