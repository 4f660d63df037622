/**
 * Slot moves on lists of any form (store/cluster.go, controller/cluster.go).  Range lists are sorted
 * by an unstable sort on the way, so that lists with equal starts can end in several ways.
 */
module Moves {
  import opened SlotRanges
  import opened Topology

  // The slot leaves shard i, where `cut` remains, and joins shard t.
  ghost predicate MovedBy(before: seq<ShardState>, after: seq<ShardState>, i: int, t: int, slot: SlotRange,
                          cut: SlotRanges)
    requires 0 <= i < |before| && 0 <= t < |before|
  {
    var removed := before[i := before[i].ClearMigrateState().(slotRanges := cut)];
    && IsRemoval(before[i].slotRanges, slot, cut)
    && |after| == |before| && IsAddition(removed[t].slotRanges, slot, after[t].slotRanges)
    && after == removed[t := removed[t].(slotRanges := after[t].slotRanges)]
  }

  ghost predicate Moved(before: seq<ShardState>, after: seq<ShardState>, i: int, t: int, slot: SlotRange)
    requires 0 <= i < |before| && 0 <= t < |before|
  {
    exists cut :: MovedBy(before, after, i, t, slot, cut)
  }

  /** However the sorts come out, well-formed lists give and take exactly the slots. */
  lemma MovedOwns(before: seq<ShardState>, after: seq<ShardState>, i: int, t: int, slot: SlotRange)
    requires 0 <= i < |before| && 0 <= t < |before| && slot.start <= slot.stop
    requires Moved(before, after, i, t, slot)
    requires WellFormed(before[i].slotRanges) && WellFormed(before[t].slotRanges)
    ensures |after| == |before| && forall k :: 0 <= k < |after| && k != i && k != t ==> after[k] == before[k]
    ensures i != t ==> forall x :: Owns(after[i].slotRanges, x) <==> Owns(before[i].slotRanges, x) && !slot.Contains(x)
    ensures Normal(after[t].slotRanges)
    ensures forall x :: Owns(after[t].slotRanges, x) <==> Owns(before[t].slotRanges, x) || slot.Contains(x)
  {
    var cut :| MovedBy(before, after, i, t, slot, cut);
    RemovalIsDifference(before[i].slotRanges, slot, cut);
    var from := if i == t then cut else before[t].slotRanges;
    AdditionIsAdd(from, slot, after[t].slotRanges);
    AddIsUnion(from, slot);
  }

  /** On lists in normal form there is one result. */
  lemma MovedIsMove(before: seq<ShardState>, after: seq<ShardState>, i: int, t: int, slot: SlotRange)
    requires 0 <= i < |before| && 0 <= t < |before| && slot.start <= slot.stop && Normalized(before)
    requires Moved(before, after, i, t, slot)
    ensures after == Move(before, i, t, slot)
  {
    var cut :| MovedBy(before, after, i, t, slot, cut);
    RemovalIsDifference(before[i].slotRanges, slot, cut);
    AdditionIsAdd(if i == t then cut else before[t].slotRanges, slot, after[t].slotRanges);
  }
}
