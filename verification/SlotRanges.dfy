/**
 * Slot ranges and lists of slot ranges (store/slot.go).
 *
 * A list of inclusive ranges stands for the set of slots that some range of the list
 * contains.  `Owns` is that denotation; `Normal` is the form in which every set of slots
 * has exactly one list (`Canonical`).
 */
module SlotRanges {
  const MIN_SLOT_ID := 0
  const MAX_SLOT_ID := 16383

  datatype SlotRange = SlotRange(start: int, stop: int) {
    predicate Valid() {
      MIN_SLOT_ID <= start <= stop <= MAX_SLOT_ID
    }

    predicate Contains(slot: int) {
      slot >= start && slot <= stop
    }

    predicate HasOverlap(that: SlotRange) {
      stop >= that.start && start <= that.stop
    }
  }

  type SlotRanges = seq<SlotRange>

  datatype RangeError = StartLargerThanStop | SlotOutOfRange
  datatype RangeResult = RangeOk(range: SlotRange) | RangeErr(error: RangeError)

  function NewSlotRange(start: int, stop: int): (r: RangeResult)
    ensures r.RangeOk? <==> SlotRange(start, stop).Valid()
    ensures r.RangeOk? ==> forall x :: r.range.Contains(x) <==> start <= x <= stop
    ensures r == RangeErr(SlotOutOfRange) ==> start <= stop
  {
    if start > stop then RangeErr(StartLargerThanStop)
    else if (start < MIN_SLOT_ID || start > MAX_SLOT_ID) || (stop < MIN_SLOT_ID || stop > MAX_SLOT_ID)
    then RangeErr(SlotOutOfRange)
    else RangeOk(SlotRange(start, stop))
  }

  // ----- Denotation and normal form -----

  ghost predicate Owns(rs: SlotRanges, slot: int) {
    exists i :: 0 <= i < |rs| && rs[i].Contains(slot)
  }

  predicate WellFormed(rs: SlotRanges) {
    forall i :: 0 <= i < |rs| ==> rs[i].start <= rs[i].stop
  }

  predicate InBounds(rs: SlotRanges) {
    forall i :: 0 <= i < |rs| ==> rs[i].Valid()
  }

  // Sorted, and between two ranges there is at least one slot that neither contains.
  predicate Normal(rs: SlotRanges) {
    && WellFormed(rs)
    && forall i, j :: 0 <= i < j < |rs| ==> rs[i].stop + 1 < rs[j].start
  }

  ghost predicate SameSlots(a: SlotRanges, b: SlotRanges) {
    forall x :: Owns(a, x) <==> Owns(b, x)
  }

  /** Two well-formed ranges overlap exactly when some slot lies in both. */
  lemma OverlapIffShared(a: SlotRange, b: SlotRange)
    requires a.start <= a.stop && b.start <= b.stop
    ensures a.HasOverlap(b) <==> exists x :: a.Contains(x) && b.Contains(x)
  {
    if a.HasOverlap(b) {
      var x := if a.start < b.start then b.start else a.start;
      assert a.Contains(x) && b.Contains(x);
    }
  }

  lemma OwnsAt(rs: SlotRanges, i: int, x: int)
    requires 0 <= i < |rs| && rs[i].Contains(x)
    ensures Owns(rs, x)
  {}

  lemma OwnsAppend(a: SlotRanges, b: SlotRanges, x: int)
    ensures Owns(a + b, x) <==> Owns(a, x) || Owns(b, x)
  {
    if Owns(a, x) {
      var i :| 0 <= i < |a| && a[i].Contains(x);
      assert (a + b)[i].Contains(x);
    }
    if Owns(b, x) {
      var i :| 0 <= i < |b| && b[i].Contains(x);
      assert (a + b)[|a| + i].Contains(x);
    }
  }

  lemma OwnsTail(rs: SlotRanges, x: int)
    requires Normal(rs) && rs != []
    ensures Owns(rs[1..], x) <==> Owns(rs, x) && x > rs[0].stop
  {
    if Owns(rs[1..], x) {
      var i :| 0 <= i < |rs[1..]| && rs[1..][i].Contains(x);
      assert rs[i + 1].Contains(x);
    }
    if Owns(rs, x) && x > rs[0].stop {
      var i :| 0 <= i < |rs| && rs[i].Contains(x);
      assert rs[1..][i - 1].Contains(x);
    }
  }

  lemma SameHead(a: SlotRanges, b: SlotRanges)
    requires Normal(a) && Normal(b) && SameSlots(a, b) && a != [] && b != []
    ensures a[0].start >= b[0].start
    ensures a[0].start == b[0].start ==> a[0].stop <= b[0].stop
  {
    OwnsAt(a, 0, a[0].start);
    if a[0].start == b[0].start && a[0].stop > b[0].stop {
      OwnsAt(a, 0, b[0].stop + 1);
    }
  }

  lemma SameTailSlots(a: SlotRanges, b: SlotRanges)
    requires Normal(a) && Normal(b) && SameSlots(a, b) && a != [] && b != [] && a[0] == b[0]
    ensures SameSlots(a[1..], b[1..])
  {
    forall x ensures Owns(a[1..], x) <==> Owns(b[1..], x) {
      OwnsTail(a, x);
      OwnsTail(b, x);
    }
  }

  /** Normal lists are canonical: the same slots give the same list. */
  lemma {:induction false} Canonical(a: SlotRanges, b: SlotRanges)
    requires Normal(a) && Normal(b) && SameSlots(a, b)
    ensures a == b
  {
    if a == [] || b == [] {
      if a != [] { OwnsAt(a, 0, a[0].start); }
      if b != [] { OwnsAt(b, 0, b[0].start); }
    } else {
      SameHead(a, b);
      SameHead(b, a);
      SameTailSlots(a, b);
      Canonical(a[1..], b[1..]);
      assert a == [a[0]] + a[1..] && b == [b[0]] + b[1..];
    }
  }

  /** A block of consecutive slots owned by a normal list lies inside one of its ranges. */
  lemma Contiguous(rs: SlotRanges, block: SlotRange) returns (k: nat)
    requires Normal(rs) && block.start <= block.stop
    requires forall x :: block.Contains(x) ==> Owns(rs, x)
    ensures k < |rs| && rs[k].start <= block.start && block.stop <= rs[k].stop
  {
    assert block.Contains(block.start);
    k :| 0 <= k < |rs| && rs[k].Contains(block.start);
    if block.stop > rs[k].stop {
      assert block.Contains(rs[k].stop + 1);
    }
  }

  lemma OwnedSlotsInBounds(rs: SlotRanges)
    requires WellFormed(rs)
    ensures InBounds(rs) <==> forall x :: Owns(rs, x) ==> MIN_SLOT_ID <= x <= MAX_SLOT_ID
  {
    if forall x :: Owns(rs, x) ==> MIN_SLOT_ID <= x <= MAX_SLOT_ID {
      forall i | 0 <= i < |rs| ensures rs[i].Valid() {
        assert rs[i].Contains(rs[i].start) && rs[i].Contains(rs[i].stop);
        assert Owns(rs, rs[i].start) && Owns(rs, rs[i].stop);
      }
    }
  }

  // ----- Sorting by start: any sorted permutation, since sort.Slice is not stable -----

  predicate SortedByStart(rs: SlotRanges) {
    forall i, j :: 0 <= i < j < |rs| ==> rs[i].start <= rs[j].start
  }

  predicate IsSortOf(sorted: SlotRanges, rs: SlotRanges) {
    multiset(sorted) == multiset(rs) && SortedByStart(sorted)
  }

  lemma SortKeepsElements(sorted: SlotRanges, rs: SlotRanges)
    requires multiset(sorted) == multiset(rs)
    ensures |sorted| == |rs|
    ensures forall r :: r in sorted <==> r in rs
    ensures WellFormed(rs) ==> WellFormed(sorted)
    ensures SameSlots(sorted, rs)
  {
    assert |multiset(sorted)| == |multiset(rs)|;
    forall r ensures r in sorted <==> r in rs {
      assert r in sorted <==> r in multiset(sorted);
      assert r in rs <==> r in multiset(rs);
    }
    forall i | 0 <= i < |sorted| ensures sorted[i] in rs {}
    forall i | 0 <= i < |rs| ensures rs[i] in sorted {}
    forall x ensures Owns(sorted, x) <==> Owns(rs, x) {
      if Owns(sorted, x) {
        var i :| 0 <= i < |sorted| && sorted[i].Contains(x);
        var j :| 0 <= j < |rs| && rs[j] == sorted[i];
      }
      if Owns(rs, x) {
        var i :| 0 <= i < |rs| && rs[i].Contains(x);
        var j :| 0 <= j < |sorted| && sorted[j] == rs[i];
      }
    }
  }

  function InsertByStart(r: SlotRange, sorted: SlotRanges): SlotRanges {
    if sorted == [] || r.start <= sorted[0].start then [r] + sorted
    else [sorted[0]] + InsertByStart(r, sorted[1..])
  }

  lemma InsertKeepsElements(r: SlotRange, sorted: SlotRanges)
    ensures multiset(InsertByStart(r, sorted)) == multiset(sorted) + multiset{r}
  {
    if sorted != [] { assert sorted == [sorted[0]] + sorted[1..]; }
  }

  lemma InsertKeepsOrder(r: SlotRange, sorted: SlotRanges)
    requires SortedByStart(sorted)
    ensures SortedByStart(InsertByStart(r, sorted))
    ensures InsertByStart(r, sorted)[0] == r || (sorted != [] && InsertByStart(r, sorted)[0] == sorted[0])
  {}

  /** One of the orders that sort.Slice may produce. */
  function SortByStart(rs: SlotRanges): (sorted: SlotRanges)
    ensures IsSortOf(sorted, rs)
  {
    if rs == [] then []
    else
      var rest := SortByStart(rs[1..]);
      InsertKeepsElements(rs[0], rest);
      InsertKeepsOrder(rs[0], rest);
      assert rs == [rs[0]] + rs[1..];
      InsertByStart(rs[0], rest)
  }

  // Callers see only that the result is some sorted permutation.
  method SortSlice(rs: SlotRanges) returns (sorted: SlotRanges)
    ensures IsSortOf(sorted, rs)
  {
    sorted := SortByStart(rs);
  }

  lemma SortedHead(sorted: SlotRanges, rs: SlotRanges)
    requires Normal(rs) && rs != [] && sorted != [] && SortedByStart(sorted)
    requires sorted[0] in rs && rs[0] in sorted
    ensures sorted[0] == rs[0]
  {
    var k :| 0 <= k < |rs| && rs[k] == sorted[0];
    var m :| 0 <= m < |sorted| && sorted[m] == rs[0];
    assert sorted[0].start <= sorted[m].start;
  }

  lemma TailElements(rs: SlotRanges)
    requires rs != []
    ensures multiset(rs) == multiset{rs[0]} + multiset(rs[1..])
  {
    assert rs == [rs[0]] + rs[1..];
  }

  lemma SameTail(a: SlotRanges, b: SlotRanges)
    requires a != [] && b != [] && a[0] == b[0] && multiset(a) == multiset(b)
    ensures multiset(a[1..]) == multiset(b[1..])
  {
    TailElements(a);
    TailElements(b);
    assert multiset(a[1..]) == multiset(a) - multiset{a[0]};
    assert multiset(b[1..]) == multiset(b) - multiset{b[0]};
  }

  /** A normal list has no other sorted permutation than itself. */
  lemma {:induction false} SortOfNormal(sorted: SlotRanges, rs: SlotRanges)
    requires Normal(rs) && IsSortOf(sorted, rs)
    ensures sorted == rs
  {
    assert |multiset(sorted)| == |multiset(rs)|;
    if rs != [] {
      assert sorted[0] in multiset(sorted) && rs[0] in multiset(rs);
      SortedHead(sorted, rs);
      SameTail(sorted, rs);
      SortOfNormal(sorted[1..], rs[1..]);
      assert sorted == [sorted[0]] + sorted[1..] && rs == [rs[0]] + rs[1..];
    }
  }

  // ----- AddSlotToSlotRanges -----

  predicate CanMerge(a: SlotRange, b: SlotRange) {
    if a.start > b.start then b.stop + 1 >= a.start else a.stop + 1 >= b.start
  }

  function MergeSlotRanges(a: SlotRange, b: SlotRange): SlotRange {
    SlotRange(if a.start < b.start then a.start else b.start, if a.stop > b.stop then a.stop else b.stop)
  }

  /** Well-formed ranges can merge exactly when their union is the block of slots that the merge denotes. */
  lemma CanMergeIffUnionIsBlock(a: SlotRange, b: SlotRange)
    requires a.start <= a.stop && b.start <= b.stop
    ensures CanMerge(a, b) <==>
            forall x :: MergeSlotRanges(a, b).Contains(x) <==> a.Contains(x) || b.Contains(x)
  {
    if !CanMerge(a, b) {
      var gap := if a.start > b.start then b.stop + 1 else a.stop + 1;
      assert MergeSlotRanges(a, b).Contains(gap) && !a.Contains(gap) && !b.Contains(gap);
    }
  }

  // What is built after one more range.
  function MergeStep(merged: SlotRanges, r: SlotRange): (step: SlotRanges)
    requires merged != []
    ensures step != []
  {
    var n := |merged| - 1;
    if CanMerge(merged[n], r) then merged[..n] + [MergeSlotRanges(r, merged[n])] else merged + [r]
  }

  // The merging pass: `merged` is what has been built, `rest` what is still to come.
  function MergeInto(merged: SlotRanges, rest: SlotRanges): SlotRanges
    requires merged != []
    decreases |rest|
  {
    if rest == [] then merged else MergeInto(MergeStep(merged, rest[0]), rest[1..])
  }

  function MergeAll(sorted: SlotRanges): SlotRanges
    requires sorted != []
  {
    MergeInto([sorted[0]], sorted[1..])
  }

  lemma MergeStepOwns(merged: SlotRanges, r: SlotRange, x: int)
    requires merged != [] && WellFormed(merged) && r.start <= r.stop
    ensures Owns(MergeStep(merged, r), x) <==> Owns(merged, x) || r.Contains(x)
  {
    var n := |merged| - 1;
    var init, last := merged[..n], merged[n];
    assert merged == init + [last];
    OwnsAppend(init, [last], x);
    OwnsSingle(last, x);
    if CanMerge(last, r) {
      OwnsAppend(init, [MergeSlotRanges(r, last)], x);
      OwnsSingle(MergeSlotRanges(r, last), x);
      CanMergeIffUnionIsBlock(r, last);
    } else {
      OwnsAppend(merged, [r], x);
      OwnsSingle(r, x);
    }
  }

  lemma MergeStepNormal(merged: SlotRanges, r: SlotRange)
    requires merged != [] && Normal(merged) && r.start <= r.stop && merged[|merged| - 1].start <= r.start
    ensures var step := MergeStep(merged, r);
      Normal(step) && step[|step| - 1].start <= r.start
  {}

  lemma SortedRest(last: SlotRange, next: SlotRange, rest: SlotRanges)
    requires rest != [] && SortedByStart([last] + rest) && next.start <= rest[0].start
    ensures last.start <= rest[0].start && SortedByStart([next] + rest[1..])
  {
    var ahead, after := [last] + rest, [next] + rest[1..];
    assert ahead[0].start <= ahead[1].start;
    forall i, j | 0 <= i < j < |after| ensures after[i].start <= after[j].start {
      assert ahead[i + 1].start <= ahead[j + 1].start;
    }
  }

  lemma {:induction false} MergeIntoIsUnion(merged: SlotRanges, rest: SlotRanges)
    requires merged != [] && Normal(merged) && WellFormed(rest)
    requires SortedByStart([merged[|merged| - 1]] + rest)
    ensures Normal(MergeInto(merged, rest))
    ensures forall x :: Owns(MergeInto(merged, rest), x) <==> Owns(merged, x) || Owns(rest, x)
    decreases |rest|
  {
    if rest != [] {
      var last, step := merged[|merged| - 1], MergeStep(merged, rest[0]);
      assert ([last] + rest)[0].start <= ([last] + rest)[1].start;
      MergeStepNormal(merged, rest[0]);
      SortedRest(last, step[|step| - 1], rest);
      MergeIntoIsUnion(step, rest[1..]);
      forall x ensures Owns(step, x) || Owns(rest[1..], x) <==> Owns(merged, x) || Owns(rest, x) {
        MergeStepOwns(merged, rest[0], x);
        OwnsFirst(rest, x);
      }
    }
  }

  lemma OwnsFirst(rs: SlotRanges, x: int)
    requires rs != []
    ensures Owns(rs, x) <==> rs[0].Contains(x) || Owns(rs[1..], x)
  {
    assert rs == [rs[0]] + rs[1..];
    OwnsAppend([rs[0]], rs[1..], x);
    OwnsSingle(rs[0], x);
  }

  lemma OwnsSingle(r: SlotRange, x: int)
    ensures Owns([r], x) <==> r.Contains(x)
  {
    if r.Contains(x) { assert [r][0].Contains(x); }
  }

  function AddSlot(source: SlotRanges, slot: SlotRange): SlotRanges {
    if source == [] then [slot]
    else
      var sorted := SortByStart(source + [slot]);
      assert |multiset(sorted)| == |source| + 1;
      MergeAll(sorted)
  }

  /**
   * Whichever sorted permutation the sort yields, merging it gives the normal list of the union.
   * The source may be unsorted, overlapping or adjacent.
   */
  lemma MergeOfAnySort(source: SlotRanges, slot: SlotRange, sorted: SlotRanges)
    requires WellFormed(source) && slot.start <= slot.stop
    requires IsSortOf(sorted, source + [slot])
    ensures sorted != [] && Normal(MergeAll(sorted))
    ensures forall x :: Owns(MergeAll(sorted), x) <==> Owns(source, x) || slot.Contains(x)
  {
    SortKeepsElements(sorted, source + [slot]);
    assert [sorted[0]] + sorted[1..] == sorted;
    MergeIntoIsUnion([sorted[0]], sorted[1..]);
    forall x ensures Owns(MergeAll(sorted), x) <==> Owns(source, x) || slot.Contains(x) {
      OwnsAppend([sorted[0]], sorted[1..], x);
      OwnsAppend(source, [slot], x);
      OwnsSingle(slot, x);
    }
  }

  /** Adding denotes set union and returns normal form for every well-formed source. */
  lemma AddIsUnion(source: SlotRanges, slot: SlotRange)
    requires WellFormed(source) && slot.start <= slot.stop
    ensures Normal(AddSlot(source, slot))
    ensures forall x :: Owns(AddSlot(source, slot), x) <==> Owns(source, x) || slot.Contains(x)
    ensures InBounds(source) && slot.Valid() ==> InBounds(AddSlot(source, slot))
  {
    if source == [] {
      forall x ensures Owns([slot], x) <==> slot.Contains(x) { OwnsSingle(slot, x); }
    } else {
      MergeOfAnySort(source, slot, SortByStart(source + [slot]));
    }
    OwnedSlotsInBounds(source);
    OwnedSlotsInBounds(AddSlot(source, slot));
  }

  // The list that an add returns, for some outcome of the sort, which is not stable.
  ghost predicate IsAddition(source: SlotRanges, slot: SlotRange, merged: SlotRanges) {
    if source == [] then merged == [slot]
    else exists sorted :: IsSortOf(sorted, source + [slot]) && sorted != [] && merged == MergeAll(sorted)
  }

  // For well-formed lists the outcome of the sort makes no difference.
  lemma AdditionIsAdd(source: SlotRanges, slot: SlotRange, merged: SlotRanges)
    requires IsAddition(source, slot, merged) && WellFormed(source) && slot.start <= slot.stop
    ensures merged == AddSlot(source, slot)
  {
    AddIsUnion(source, slot);
    if source != [] {
      var sorted :| IsSortOf(sorted, source + [slot]) && sorted != [] && merged == MergeAll(sorted);
      MergeOfAnySort(source, slot, sorted);
      Canonical(merged, AddSlot(source, slot));
    }
  }

  method AddSlotToSlotRanges(source: SlotRanges, slot: SlotRange) returns (merged: SlotRanges)
    ensures IsAddition(source, slot, merged)
    ensures WellFormed(source) && slot.start <= slot.stop ==>
      && merged == AddSlot(source, slot)
      && Normal(merged)
      && forall x :: Owns(merged, x) <==> Owns(source, x) || slot.Contains(x)
  {
    if |source| == 0 {
      merged := [slot];
      if slot.start <= slot.stop { AddIsUnion(source, slot); }
      return;
    }
    var sorted := SortSlice(source + [slot]);
    assert |multiset(sorted)| == |source| + 1;
    merged := [sorted[0]];
    var i := 1;
    while i < |sorted|
      invariant 1 <= i <= |sorted| && merged != []
      invariant MergeInto(merged, sorted[i..]) == MergeAll(sorted)
    {
      var last := merged[|merged| - 1];
      if CanMerge(last, sorted[i]) {
        assert merged[|merged| - 1 := MergeSlotRanges(sorted[i], last)]
            == merged[..|merged| - 1] + [MergeSlotRanges(sorted[i], last)];
        merged := merged[|merged| - 1 := MergeSlotRanges(sorted[i], last)];
      } else {
        merged := merged + [sorted[i]];
      }
      i := i + 1;
    }
    assert merged == MergeAll(sorted);
    if WellFormed(source) && slot.start <= slot.stop {
      AdditionIsAdd(source, slot, merged);
      AddIsUnion(source, slot);
    }
  }

  // ----- RemoveSlotFromSlotRanges -----

  // What is left of one range.
  function CutRange(r: SlotRange, slot: SlotRange): SlotRanges {
    if !r.HasOverlap(slot) then
      [r]
    else
      var left := if r.start < slot.start then [SlotRange(r.start, slot.start - 1)] else [];
      var right := if r.stop > slot.stop then [SlotRange(slot.stop + 1, r.stop)] else [];
      left + right
  }

  function Cut(rs: SlotRanges, slot: SlotRange): SlotRanges {
    if rs == [] then []
    else Cut(rs[..|rs| - 1], slot) + CutRange(rs[|rs| - 1], slot)
  }

  predicate AnyOverlap(rs: SlotRanges, slot: SlotRange) {
    exists r :: r in rs && r.HasOverlap(slot)
  }

  lemma CutRangeIsDifference(r: SlotRange, slot: SlotRange)
    requires r.start <= r.stop && slot.start <= slot.stop
    ensures Normal(CutRange(r, slot))
    ensures forall x :: Owns(CutRange(r, slot), x) <==> r.Contains(x) && !slot.Contains(x)
  {
    forall x ensures Owns(CutRange(r, slot), x) <==> r.Contains(x) && !slot.Contains(x) {
      var left := if r.start < slot.start then [SlotRange(r.start, slot.start - 1)] else [];
      var right := if r.stop > slot.stop then [SlotRange(slot.stop + 1, r.stop)] else [];
      OwnsAppend(left, right, x);
      OwnsSingle(r, x);
      OwnsSingle(SlotRange(r.start, slot.start - 1), x);
      OwnsSingle(SlotRange(slot.stop + 1, r.stop), x);
    }
  }

  lemma {:induction false} CutIsDifference(rs: SlotRanges, slot: SlotRange)
    requires WellFormed(rs) && slot.start <= slot.stop
    ensures WellFormed(Cut(rs, slot))
    ensures forall x :: Owns(Cut(rs, slot), x) <==> Owns(rs, x) && !slot.Contains(x)
  {
    if rs != [] {
      var init, last := rs[..|rs| - 1], rs[|rs| - 1];
      CutIsDifference(init, slot);
      CutRangeIsDifference(last, slot);
      forall x ensures Owns(Cut(rs, slot), x) <==> Owns(rs, x) && !slot.Contains(x) {
        assert rs == init + [last];
        OwnsAppend(init, [last], x);
        OwnsAppend(Cut(init, slot), CutRange(last, slot), x);
        OwnsSingle(last, x);
      }
    }
  }

  lemma {:induction false} CutOfNormal(rs: SlotRanges, slot: SlotRange)
    requires Normal(rs) && slot.start <= slot.stop
    ensures Normal(Cut(rs, slot))
  {
    if rs != [] {
      var init, last := rs[..|rs| - 1], rs[|rs| - 1];
      var left, right := Cut(init, slot), CutRange(last, slot);
      CutOfNormal(init, slot);
      CutIsDifference(init, slot);
      CutRangeIsDifference(last, slot);
      forall i, j | 0 <= i < |left| && 0 <= j < |right| ensures left[i].stop + 1 < right[j].start {
        assert left[i].Contains(left[i].stop) && Owns(left, left[i].stop);
        assert right[j].Contains(right[j].start) && Owns(right, right[j].start);
        var k :| 0 <= k < |init| && init[k].Contains(left[i].stop);
        assert rs[k].stop + 1 < last.start;
      }
    }
  }

  /** The early return for a slot that overlaps nothing gives what the loop would have built. */
  lemma {:induction false} CutWithoutOverlap(rs: SlotRanges, slot: SlotRange)
    requires !AnyOverlap(rs, slot)
    ensures Cut(rs, slot) == rs
  {
    if rs != [] {
      assert !rs[|rs| - 1].HasOverlap(slot);
      assert forall r :: r in rs[..|rs| - 1] ==> r in rs;
      CutWithoutOverlap(rs[..|rs| - 1], slot);
      assert rs == rs[..|rs| - 1] + [rs[|rs| - 1]];
    }
  }

  function RemoveSlot(source: SlotRanges, slot: SlotRange): SlotRanges {
    Cut(SortByStart(source), slot)
  }

  /** Removing denotes set difference, and keeps normal form and bounds. */
  lemma RemoveIsDifference(source: SlotRanges, slot: SlotRange)
    requires WellFormed(source) && slot.start <= slot.stop
    ensures WellFormed(RemoveSlot(source, slot))
    ensures forall x :: Owns(RemoveSlot(source, slot), x) <==> Owns(source, x) && !slot.Contains(x)
    ensures InBounds(source) ==> InBounds(RemoveSlot(source, slot))
    ensures Normal(source) ==> Normal(RemoveSlot(source, slot))
  {
    var sorted := SortByStart(source);
    SortKeepsElements(sorted, source);
    CutIsDifference(sorted, slot);
    OwnedSlotsInBounds(source);
    OwnedSlotsInBounds(RemoveSlot(source, slot));
    if Normal(source) {
      SortOfNormal(sorted, source);
      CutOfNormal(source, slot);
    }
  }

  method HasOverlapAny(rs: SlotRanges, slot: SlotRange) returns (found: bool)
    ensures found == AnyOverlap(rs, slot)
  {
    for i := 0 to |rs|
      invariant forall j :: 0 <= j < i ==> !rs[j].HasOverlap(slot)
    {
      if rs[i].HasOverlap(slot) {
        return true;
      }
    }
    return false;
  }

  lemma CutOfAnySort(source: SlotRanges, slot: SlotRange, sorted: SlotRanges)
    requires WellFormed(source) && slot.start <= slot.stop && IsSortOf(sorted, source)
    ensures WellFormed(Cut(sorted, slot))
    ensures forall x :: Owns(Cut(sorted, slot), x) <==> Owns(source, x) && !slot.Contains(x)
    ensures Normal(source) ==> Normal(Cut(sorted, slot)) && Cut(sorted, slot) == RemoveSlot(source, slot)
  {
    SortKeepsElements(sorted, source);
    CutIsDifference(sorted, slot);
    if Normal(source) {
      SortOfNormal(sorted, source);
      SortOfNormal(SortByStart(source), source);
      CutOfNormal(source, slot);
    }
  }

  lemma CutNext(rs: SlotRanges, i: nat, slot: SlotRange)
    requires i < |rs|
    ensures Cut(rs[..i + 1], slot) == Cut(rs[..i], slot) + CutRange(rs[i], slot)
  {
    assert rs[..i + 1][..i] == rs[..i];
  }

  // The list that a remove returns, for some outcome of the sort.
  ghost predicate IsRemoval(source: SlotRanges, slot: SlotRange, result: SlotRanges) {
    exists sorted :: IsSortOf(sorted, source) && result == Cut(sorted, slot)
  }

  // For well-formed lists the outcome of the sort makes no difference to the slots, and for normal
  // lists none at all.
  lemma RemovalIsDifference(source: SlotRanges, slot: SlotRange, result: SlotRanges)
    requires IsRemoval(source, slot, result) && WellFormed(source) && slot.start <= slot.stop
    ensures WellFormed(result)
    ensures forall x :: Owns(result, x) <==> Owns(source, x) && !slot.Contains(x)
    ensures Normal(source) ==> Normal(result) && result == RemoveSlot(source, slot)
  {
    var sorted :| IsSortOf(sorted, source) && result == Cut(sorted, slot);
    CutOfAnySort(source, slot, sorted);
  }

  method RemoveSlotFromSlotRanges(source: SlotRanges, slot: SlotRange) returns (result: SlotRanges)
    ensures IsRemoval(source, slot, result)
    ensures WellFormed(source) && slot.start <= slot.stop ==>
      && WellFormed(result)
      && (forall x :: Owns(result, x) <==> Owns(source, x) && !slot.Contains(x))
      && (Normal(source) ==> Normal(result) && result == RemoveSlot(source, slot))
  {
    var sorted := SortSlice(source);
    var overlaps := HasOverlapAny(sorted, slot);
    if !overlaps {
      CutWithoutOverlap(sorted, slot);
      assert IsRemoval(source, slot, sorted);
      if WellFormed(source) && slot.start <= slot.stop { RemovalIsDifference(source, slot, sorted); }
      return sorted;
    }
    result := [];
    for i := 0 to |sorted|
      invariant result == Cut(sorted[..i], slot)
    {
      CutNext(sorted, i, slot);
      if !sorted[i].HasOverlap(slot) {
        result := result + [sorted[i]];
        continue;
      }
      if sorted[i].start < slot.start {
        result := result + [SlotRange(sorted[i].start, slot.start - 1)];
      }
      if sorted[i].stop > slot.stop {
        result := result + [SlotRange(slot.stop + 1, sorted[i].stop)];
      }
    }
    assert sorted[..|sorted|] == sorted;
    assert IsRemoval(source, slot, result);
    if WellFormed(source) && slot.start <= slot.stop { RemovalIsDifference(source, slot, result); }
  }

  // ----- Laws -----

  /** Adds commute as lists, from any well-formed source. */
  lemma AddCommutes(source: SlotRanges, a: SlotRange, b: SlotRange)
    requires WellFormed(source) && a.start <= a.stop && b.start <= b.stop
    ensures AddSlot(AddSlot(source, a), b) == AddSlot(AddSlot(source, b), a)
  {
    AddIsUnion(source, a);
    AddIsUnion(source, b);
    AddIsUnion(AddSlot(source, a), b);
    AddIsUnion(AddSlot(source, b), a);
    Canonical(AddSlot(AddSlot(source, a), b), AddSlot(AddSlot(source, b), a));
  }

  /** Removing undoes an add exactly when the added slots were all new. */
  lemma RemoveUndoesAdd(source: SlotRanges, slot: SlotRange)
    requires Normal(source) && slot.start <= slot.stop
    ensures RemoveSlot(AddSlot(source, slot), slot) == source <==> !AnyOverlap(source, slot)
  {
    var back := RemoveSlot(AddSlot(source, slot), slot);
    AddIsUnion(source, slot);
    RemoveIsDifference(AddSlot(source, slot), slot);
    if AnyOverlap(source, slot) {
      var r :| r in source && r.HasOverlap(slot);
      OverlapIffShared(r, slot);
      var x :| r.Contains(x) && slot.Contains(x);
      assert Owns(source, x) && !Owns(back, x);
    } else {
      forall x | Owns(source, x) ensures !slot.Contains(x) {
        var i :| 0 <= i < |source| && source[i].Contains(x);
        OverlapIffShared(source[i], slot);
      }
      Canonical(back, source);
    }
  }

  /** Adding undoes a remove exactly when the removed slots were all owned. */
  lemma AddUndoesRemove(source: SlotRanges, slot: SlotRange)
    requires Normal(source) && slot.start <= slot.stop
    ensures AddSlot(RemoveSlot(source, slot), slot) == source <==>
            forall x :: slot.Contains(x) ==> Owns(source, x)
  {
    var back := AddSlot(RemoveSlot(source, slot), slot);
    RemoveIsDifference(source, slot);
    AddIsUnion(RemoveSlot(source, slot), slot);
    if forall x :: slot.Contains(x) ==> Owns(source, x) {
      Canonical(back, source);
    }
  }

  // ----- CalculateSlotRanges -----

  // The i-th of n slices of the slot space.
  function Slice(n: int, i: int): SlotRange
    requires n >= 1
  {
    var size := (MAX_SLOT_ID + 1) / n;
    if i != n - 1 then SlotRange(i * size, (i + 1) * size - 1) else SlotRange(i * size, MAX_SLOT_ID)
  }

  method CalculateSlotRanges(n: int) returns (slots: SlotRanges)
    requires n >= 1
    ensures |slots| == n && forall i :: 0 <= i < n ==> slots[i] == Slice(n, i)
    ensures n <= MAX_SLOT_ID + 1 ==>
      && InBounds(slots) && slots[0].start == MIN_SLOT_ID && slots[n - 1].stop == MAX_SLOT_ID
      && forall i {:trigger slots[i].stop} :: 0 <= i < n - 1 ==> slots[i].stop + 1 == slots[i + 1].start
  {
    slots := [];
    var rangeSize := (MAX_SLOT_ID + 1) / n;
    for i := 0 to n
      invariant |slots| == i && forall k :: 0 <= k < i ==> slots[k] == Slice(n, k)
    {
      if i != n - 1 {
        slots := slots + [SlotRange(i * rangeSize, (i + 1) * rangeSize - 1)];
      } else {
        slots := slots + [SlotRange(i * rangeSize, MAX_SLOT_ID)];
      }
    }
    if n <= MAX_SLOT_ID + 1 {
      forall i | 0 <= i < n
        ensures slots[i].Valid() && (i < n - 1 ==> slots[i].stop + 1 == slots[i + 1].start)
      {
        SliceBounds(n, i);
      }
    }
  }

  lemma MulMonotone(a: int, b: int, q: int)
    requires a <= b && q >= 0
    ensures a * q <= b * q
  {}

  lemma DivMul(x: int, q: int)
    requires q >= 1
    ensures (x / q) * q <= x < (x / q + 1) * q
  {}

  lemma SliceBounds(n: int, i: int)
    requires 1 <= n <= MAX_SLOT_ID + 1 && 0 <= i < n
    ensures Slice(n, i).Valid()
    ensures i < n - 1 ==> Slice(n, i).stop + 1 == Slice(n, i + 1).start
    ensures i < n - 1 ==> Slice(n, i).stop - Slice(n, i).start + 1 == (MAX_SLOT_ID + 1) / n
    ensures i == n - 1 ==> 0 <= Slice(n, i).stop - Slice(n, i).start + 1 - (MAX_SLOT_ID + 1) / n < n
  {
    var q := (MAX_SLOT_ID + 1) / n;
    assert q >= 1 && n * q <= MAX_SLOT_ID + 1 < n * q + n;
    MulMonotone(i + 1, n, q);
    assert (i + 1) * q == i * q + q;
    MulMonotone(0, i, q);
  }

  lemma SlicesOrdered(n: int, i: int, j: int)
    requires 1 <= n <= MAX_SLOT_ID + 1 && 0 <= i < j < n
    ensures Slice(n, i).stop < Slice(n, j).start
  {
    MulMonotone(i + 1, j, (MAX_SLOT_ID + 1) / n);
  }

  lemma SliceContains(n: int, q: int, i: int, x: int)
    requires n >= 1 && q == (MAX_SLOT_ID + 1) / n && x <= MAX_SLOT_ID
    requires i * q <= x && (i != n - 1 ==> x < (i + 1) * q)
    ensures Slice(n, i).Contains(x)
  {}

  // The slice of x, where d blocks of size q fit below x.
  lemma SliceOf(n: int, x: int, q: int, d: int) returns (owner: int)
    requires n >= 1 && d >= 0 && q >= 0 && d * q <= x < (d + 1) * q
    ensures 0 <= owner < n && owner * q <= x && (owner != n - 1 ==> x < (owner + 1) * q)
  {
    if d < n {
      owner := d;
    } else {
      owner := n - 1;
      MulMonotone(owner, d, q);
    }
  }

  lemma SizePositive(n: int)
    requires 1 <= n <= MAX_SLOT_ID + 1
    ensures (MAX_SLOT_ID + 1) / n >= 1
  {}

  /** Every slot lies in exactly one slice. */
  lemma SlicesPartition(n: int, x: int) returns (owner: int)
    requires 1 <= n <= MAX_SLOT_ID + 1 && MIN_SLOT_ID <= x <= MAX_SLOT_ID
    ensures 0 <= owner < n
    ensures forall i :: 0 <= i < n ==> (Slice(n, i).Contains(x) <==> i == owner)
  {
    var q := (MAX_SLOT_ID + 1) / n;
    SizePositive(n);
    DivMul(x, q);
    owner := SliceOf(n, x, q, x / q);
    SliceContains(n, q, owner, x);
    forall i | 0 <= i < n ensures Slice(n, i).Contains(x) <==> i == owner {
      if i < owner { SlicesOrdered(n, i, owner); }
      if owner < i { SlicesOrdered(n, owner, i); }
    }
  }

  /** The slices are valid ranges exactly up to one shard per slot; beyond that they are 0 to -1. */
  lemma SlicesValidIff(n: int)
    requires n >= 1
    ensures (forall i :: 0 <= i < n ==> Slice(n, i).Valid()) <==> n <= MAX_SLOT_ID + 1
    ensures n > MAX_SLOT_ID + 1 ==> Slice(n, 0) == SlotRange(0, -1)
  {
    if n <= MAX_SLOT_ID + 1 {
      forall i | 0 <= i < n ensures Slice(n, i).Valid() { SliceBounds(n, i); }
    } else {
      assert (MAX_SLOT_ID + 1) / n == 0;
      assert Slice(n, 0) == SlotRange(0, -1);
    }
  }
}
