/**
 * One pass of the migration loop over the shards of a copy (controller/cluster.go), on values:
 * what it completes, what it leaves pending, and who owns each slot afterwards.
 */
module MigrationPass {
  import opened SlotRanges
  import opened Topology
  import opened Partition
  import opened Migration
  import opened Moves
  import opened Concurrency
  import opened Store

  // What the master of each shard reports about its migration; none means no answer.
  function ReportOf(reports: seq<Report>, i: nat): Report {
    if i < |reports| then reports[i] else NoAnswer
  }

  // ----- Completing migrations -----

  // Range lists are normal and recorded migrations are well formed.
  predicate Tidy(shards: seq<ShardState>) {
    forall i :: 0 <= i < |shards| ==> TidyShard(shards[i])
  }

  lemma ValidIsTidy(c: ClusterState)
    requires Inv(c)
    ensures Tidy(c.shards)
  {
    forall i | 0 <= i < |c.shards| ensures RangesOk(c.shards[i]) && MigrationOk(c.shards[i]) {}
  }

  predicate TidyShard(s: ShardState) {
    && Normal(s.slotRanges)
    && (s.migratingSlot.Some? ==> s.migratingSlot.value.range.start <= s.migratingSlot.value.range.stop)
  }

  lemma RemoveKeepsTidy(s: ShardState, slot: SlotRange)
    requires TidyShard(s) && slot.start <= slot.stop
    ensures TidyShard(s.ClearMigrateState().(slotRanges := RemoveSlot(s.slotRanges, slot)))
  {
    RemoveIsDifference(s.slotRanges, slot);
  }

  lemma AddKeepsTidy(s: ShardState, slot: SlotRange)
    requires TidyShard(s) && slot.start <= slot.stop
    ensures TidyShard(s.(slotRanges := AddSlot(s.slotRanges, slot)))
  {
    AddIsUnion(s.slotRanges, slot);
  }

  lemma MoveKeepsTidy(shards: seq<ShardState>, i: int, t: int, slot: SlotRange)
    requires Tidy(shards) && 0 <= i < |shards| && 0 <= t < |shards| && slot.start <= slot.stop
    ensures Tidy(Move(shards, i, t, slot))
  {
    var source := shards[i].ClearMigrateState().(slotRanges := RemoveSlot(shards[i].slotRanges, slot));
    RemoveKeepsTidy(shards[i], slot);
    AddKeepsTidy(if t == i then source else shards[t], slot);
  }

  lemma CompleteKeepsTidy(shards: seq<ShardState>, i: int, report: Report)
    requires Tidy(shards) && Complete(shards, i, report).Ok?
    ensures Tidy(Complete(shards, i, report).value)
  {
    if report.state.StateSuccess? {
      MoveKeepsTidy(shards, i, shards[i].targetShardIndex, shards[i].migratingSlot.value.range);
    }
  }

  // What becomes of one shard in a pass: left as it is, edited and stored, or the end of the pass.
  datatype StepOutcome = Skipped | Stored | Stopped
  datatype StepResult = StepResult(values: map<Key, ClusterState>, held: ClusterState, outcome: StepOutcome)

  function PassStep(values: map<Key, ClusterState>, key: Key, held: ClusterState, i: nat, report: Report): StepResult {
    match Complete(held.shards, i, report)
    case Err(IndexOutOfRange) => StepResult(values, held, Stopped)
    case Err(Crash) => StepResult(values, held, Stopped)
    case Err(_) => StepResult(values, held, Skipped)
    case Ok(shards) => StoreEdited(values, key, held.(shards := shards))
  }

  function StoreEdited(values: map<Key, ClusterState>, key: Key, edited: ClusterState): StepResult {
    if key !in values then StepResult(values, edited, Stopped)
    else
      match UpdateRegister(values[key], edited)
      case Err(_) => StepResult(values, edited, Stopped)
      case Ok(v) => StepResult(values[key := v], v, Stored)
  }

  // The outcome of a pass over the shards: the stored values, the copy in hand, and whether
  // the copy was stored at least once (it then replaces the cached cluster).
  datatype PassResult = PassResult(values: map<Key, ClusterState>, held: ClusterState, cached: bool)

  lemma StepKeepsLength(values: map<Key, ClusterState>, key: Key, held: ClusterState, i: nat, report: Report)
    ensures |PassStep(values, key, held, i, report).held.shards| == |held.shards|
  {}

  function Pass(values: map<Key, ClusterState>, key: Key, held: ClusterState, reports: seq<Report>, i: nat,
                cached: bool): PassResult
    requires i <= |held.shards|
    decreases |held.shards| - i
  {
    if i == |held.shards| then PassResult(values, held, cached)
    else
      var step := PassStep(values, key, held, i, ReportOf(reports, i));
      StepKeepsLength(values, key, held, i, ReportOf(reports, i));
      match step.outcome
      case Skipped => Pass(step.values, key, step.held, reports, i + 1, cached)
      case Stored => Pass(step.values, key, step.held, reports, i + 1, true)
      case Stopped => PassResult(step.values, step.held, cached)
  }

  // ----- Lists of any form -----

  // The shards that completing shard i can leave, for some outcome of the sorts.
  ghost predicate CompletesTo(shards: seq<ShardState>, i: nat, report: Report, after: seq<ShardState>) {
    var r := Complete(shards, i, report);
    && r.Ok?
    && if report.state.StateSuccess?
       then Moved(shards, after, i, shards[i].targetShardIndex, shards[i].migratingSlot.value.range)
       else after == r.value
  }

  ghost predicate StepTo(values: map<Key, ClusterState>, key: Key, held: ClusterState, i: nat, report: Report,
                         step: StepResult)
  {
    if Complete(held.shards, i, report).Err? then step == PassStep(values, key, held, i, report)
    else exists after :: CompletesTo(held.shards, i, report, after)
                         && step == StoreEdited(values, key, held.(shards := after))
  }

  // The states of a pass after each shard, the first one before it; only the last can have ended it.
  ghost predicate Trace(key: Key, reports: seq<Report>, points: seq<StepResult>) {
    && points != []
    && forall k :: 0 <= k < |points| - 1 ==> Turn(key, reports, k, points[k], points[k + 1])
  }

  ghost predicate Turn(key: Key, reports: seq<Report>, k: nat, before: StepResult, after: StepResult) {
    && k < |before.held.shards| == |after.held.shards| && !before.outcome.Stopped?
    && StepTo(before.values, key, before.held, k, ReportOf(reports, k), after)
  }

  predicate AnyStored(points: seq<StepResult>) { exists k :: 0 <= k < |points| && points[k].outcome.Stored? }

  ghost predicate EndsAs(points: seq<StepResult>, p: PassResult) {
    && points != []
    && var last := points[|points| - 1];
    && (last.outcome.Stopped? || |points| == |last.held.shards| + 1)
    && p == PassResult(last.values, last.held, AnyStored(points))
  }

  // What a pass can end in, for some outcome of the sorts.
  ghost predicate PassTo(values: map<Key, ClusterState>, key: Key, held: ClusterState, reports: seq<Report>,
                         p: PassResult)
  {
    exists points :: Trace(key, reports, points) && points[0] == StepResult(values, held, Skipped) && EndsAs(points, p)
  }

  lemma TraceNext(key: Key, reports: seq<Report>, points: seq<StepResult>, next: StepResult)
    requires Trace(key, reports, points) && Turn(key, reports, |points| - 1, points[|points| - 1], next)
    ensures Trace(key, reports, points + [next])
    ensures AnyStored(points + [next]) <==> AnyStored(points) || next.outcome.Stored?
  {
    var all := points + [next];
    forall k | 0 <= k < |all| - 1 ensures Turn(key, reports, k, all[k], all[k + 1]) {
      assert k < |points| - 1 ==> Turn(key, reports, k, points[k], points[k + 1]);
    }
    if AnyStored(points) {
      var k :| 0 <= k < |points| && points[k].outcome.Stored?;
      assert all[k].outcome.Stored?;
    }
    if next.outcome.Stored? { assert all[|points|].outcome.Stored?; }
  }

  lemma CompletesToTidy(shards: seq<ShardState>, i: nat, report: Report, after: seq<ShardState>)
    requires Tidy(shards) && CompletesTo(shards, i, report, after)
    ensures Complete(shards, i, report) == Ok(after) && Tidy(after)
  {
    if report.state.StateSuccess? {
      assert TidyShard(shards[i]);
      MovedIsMove(shards, after, i, shards[i].targetShardIndex, shards[i].migratingSlot.value.range);
    }
    CompleteKeepsTidy(shards, i, report);
  }

  lemma StepToTidy(values: map<Key, ClusterState>, key: Key, held: ClusterState, i: nat, report: Report,
                   step: StepResult)
    requires Tidy(held.shards) && StepTo(values, key, held, i, report, step)
    ensures step == PassStep(values, key, held, i, report) && Tidy(step.held.shards)
  {
    if Complete(held.shards, i, report).Ok? {
      var after :|
        CompletesTo(held.shards, i, report, after) && step == StoreEdited(values, key, held.(shards := after));
      CompletesToTidy(held.shards, i, report, after);
    }
  }

  lemma StoredNext(points: seq<StepResult>, k: nat)
    requires k + 1 < |points|
    ensures AnyStored(points[..k + 2]) <==> AnyStored(points[..k + 1]) || points[k + 1].outcome.Stored?
  {
    var shorter, longer := points[..k + 1], points[..k + 2];
    if AnyStored(shorter) {
      var j :| 0 <= j < |shorter| && shorter[j].outcome.Stored?;
      assert longer[j].outcome.Stored?;
    }
    if points[k + 1].outcome.Stored? { assert longer[k + 1].outcome.Stored?; }
  }

  // The pass on values goes through the same points, as long as it goes on.
  ghost predicate OnTheWay(p: PassResult, key: Key, reports: seq<Report>, points: seq<StepResult>, k: nat)
    requires k < |points|
  {
    var at, cached := points[k], AnyStored(points[..k + 1]);
    && Tidy(at.held.shards)
    && if at.outcome.Stopped? then p == PassResult(at.values, at.held, cached)
       else k <= |at.held.shards| && p == Pass(at.values, key, at.held, reports, k, cached)
  }

  lemma OnTheWayNext(p: PassResult, key: Key, reports: seq<Report>, points: seq<StepResult>, k: nat)
    requires k + 1 < |points| && OnTheWay(p, key, reports, points, k)
    requires Turn(key, reports, k, points[k], points[k + 1])
    ensures OnTheWay(p, key, reports, points, k + 1)
  {
    var at, next := points[k], points[k + 1];
    StepToTidy(at.values, key, at.held, k, ReportOf(reports, k), next);
    PassUnfolds(at.values, key, at.held, reports, k, AnyStored(points[..k + 1]), next);
    StoredNext(points, k);
  }

  lemma {:induction false} TraceOnTheWay(p: PassResult, key: Key, reports: seq<Report>, points: seq<StepResult>, k: nat)
    requires Trace(key, reports, points) && k < |points| && OnTheWay(p, key, reports, points, 0)
    ensures OnTheWay(p, key, reports, points, k)
  {
    if k > 0 {
      TraceOnTheWay(p, key, reports, points, k - 1);
      assert Turn(key, reports, k - 1, points[k - 1], points[k]);
      OnTheWayNext(p, key, reports, points, k - 1);
    }
  }

  /** On a tidy topology a pass has one outcome. */
  lemma PassToIsPass(values: map<Key, ClusterState>, key: Key, held: ClusterState, reports: seq<Report>, p: PassResult)
    requires Tidy(held.shards) && PassTo(values, key, held, reports, p)
    ensures p == Pass(values, key, held, reports, 0, false)
  {
    var points :| Trace(key, reports, points) && points[0] == StepResult(values, held, Skipped) && EndsAs(points, p);
    var all := Pass(values, key, held, reports, 0, false);
    assert points[..1] == [points[0]] && !AnyStored(points[..1]);
    TraceOnTheWay(all, key, reports, points, |points| - 1);
    assert points[..|points|] == points;
  }

  lemma PassUnfolds(values: map<Key, ClusterState>, key: Key, held: ClusterState, reports: seq<Report>, i: nat,
                    cached: bool, step: StepResult)
    requires i < |held.shards| && step == PassStep(values, key, held, i, ReportOf(reports, i))
    ensures |step.held.shards| == |held.shards|
    ensures Pass(values, key, held, reports, i, cached) ==
      if step.outcome.Stopped? then PassResult(step.values, step.held, cached)
      else Pass(step.values, key, step.held, reports, i + 1, cached || step.outcome.Stored?)
  {
    StepKeepsLength(values, key, held, i, ReportOf(reports, i));
  }

  // ----- What a pass completes -----

  // The source reports the outcome of its recorded migration, and the target exists.
  predicate HasOutcome(s: ShardState, report: Report, n: nat) {
    && s.IsMigrating() && MasterIndex(s.nodes) != -1
    && report.Report? && report.slot == Some(s.migratingSlot.value.range)
    && 0 <= s.targetShardIndex < n
    && !report.state.StateNone? && !report.state.StateStart?
  }

  // The pass ends here: there is nobody to ask or the report has no slot, where the process panics
  // and this pass is its last, or the source answers with the recorded slot and the target does not
  // exist, where the loop returns.
  predicate Stops(s: ShardState, report: Report, n: nat) {
    && s.IsMigrating()
    && (|| MasterIndex(s.nodes) == -1
        || (report.Report? && report.slot == None)
        || (report.Report? && report.slot == Some(s.migratingSlot.value.range) && !(0 <= s.targetShardIndex < n)))
  }

  lemma CompleteDecides(shards: seq<ShardState>, i: nat, report: Report)
    requires i < |shards|
    ensures Complete(shards, i, report).Ok? <==> HasOutcome(shards[i], report, |shards|)
    ensures Complete(shards, i, report) == Err(IndexOutOfRange) || Complete(shards, i, report) == Err(Crash) <==>
            Stops(shards[i], report, |shards|)
    ensures Complete(shards, i, report) == Err(Crash) <==>
            shards[i].IsMigrating() && (MasterIndex(shards[i].nodes) == -1 || (report.Report? && report.slot == None))
    ensures Complete(shards, i, report) == Err(NothingToComplete) <==>
            !HasOutcome(shards[i], report, |shards|) && !Stops(shards[i], report, |shards|)
  {}

  // Some shard before j ends the pass.
  predicate Blocked(shards: seq<ShardState>, reports: seq<Report>, from: nat, j: nat)
    requires j <= |shards|
  {
    exists m :: from <= m < j && Stops(shards[m], ReportOf(reports, m), |shards|)
  }

  // The part of a shard that completing other migrations leaves alone.
  function ButRanges(s: ShardState): ShardState { s.(slotRanges := []) }

  lemma DecidedWithoutRanges(a: ShardState, b: ShardState, report: Report, n: nat)
    requires ButRanges(a) == ButRanges(b)
    ensures a.IsMigrating() <==> b.IsMigrating()
    ensures HasOutcome(a, report, n) <==> HasOutcome(b, report, n)
    ensures Stops(a, report, n) <==> Stops(b, report, n)
  {
    assert a == b.(slotRanges := a.slotRanges);
  }

  lemma CompleteKeepsOthers(shards: seq<ShardState>, i: int, report: Report, j: int)
    requires Complete(shards, i, report).Ok? && 0 <= j < |shards| && j != i
    ensures var after := Complete(shards, i, report).value;
      |after| == |shards| && ButRanges(after[j]) == ButRanges(shards[j])
  {}

  lemma StepKeepsOther(values: map<Key, ClusterState>, key: Key, held: ClusterState, i: nat, report: Report,
                       step: StepResult, j: nat)
    requires i < |held.shards| && j < |held.shards| && j != i && step == PassStep(values, key, held, i, report)
    ensures |step.held.shards| == |held.shards| && ButRanges(step.held.shards[j]) == ButRanges(held.shards[j])
  {
    if Complete(held.shards, i, report).Ok? { CompleteKeepsOthers(held.shards, i, report, j); }
  }

  // The copy is at least as new as the stored value, so that its updates are accepted.
  predicate UpToDate(values: map<Key, ClusterState>, key: Key, held: ClusterState) {
    key in values && values[key].version <= held.version
  }

  lemma StepCompletes(values: map<Key, ClusterState>, key: Key, held: ClusterState, i: nat, report: Report,
                      step: StepResult)
    requires i < |held.shards| && UpToDate(values, key, held) && step == PassStep(values, key, held, i, report)
    ensures step.outcome.Stopped? <==> Stops(held.shards[i], report, |held.shards|)
    ensures step.outcome.Stopped? ==> step.held == held && step.values == values
    ensures !step.outcome.Stopped? ==> UpToDate(step.values, key, step.held)
    ensures |step.held.shards| == |held.shards|
    ensures step.held.shards[i].IsMigrating() <==>
            held.shards[i].IsMigrating() && !HasOutcome(held.shards[i], report, |held.shards|)
  {
    CompleteDecides(held.shards, i, report);
  }

  lemma BlockedNext(held: seq<ShardState>, next: seq<ShardState>, reports: seq<Report>, i: nat, j: nat)
    requires i < j <= |held| == |next| && !Stops(held[i], ReportOf(reports, i), |held|)
    requires forall m :: i < m < |held| ==> ButRanges(next[m]) == ButRanges(held[m])
    ensures Blocked(held, reports, i, j) <==> Blocked(next, reports, i + 1, j)
  {
    forall m | i < m < j
      ensures Stops(held[m], ReportOf(reports, m), |held|) <==> Stops(next[m], ReportOf(reports, m), |next|)
    {
      DecidedWithoutRanges(next[m], held[m], ReportOf(reports, m), |held|);
    }
  }

  lemma {:induction false} PassKeepsEarlier(values: map<Key, ClusterState>, key: Key, held: ClusterState,
                                            reports: seq<Report>, i: nat, cached: bool, j: nat)
    requires j < i <= |held.shards|
    ensures var after := Pass(values, key, held, reports, i, cached).held.shards;
      |after| == |held.shards| && ButRanges(after[j]) == ButRanges(held.shards[j])
    decreases |held.shards| - i
  {
    if i < |held.shards| {
      var step := PassStep(values, key, held, i, ReportOf(reports, i));
      PassUnfolds(values, key, held, reports, i, cached, step);
      StepKeepsOther(values, key, held, i, ReportOf(reports, i), step, j);
      if !step.outcome.Stopped? {
        PassKeepsEarlier(step.values, key, step.held, reports, i + 1, cached || step.outcome.Stored?, j);
      }
    }
  }

  // Shard j is migrating after the steps from i on exactly if it was and they did not complete it.
  predicate PendingIff(before: seq<ShardState>, after: seq<ShardState>, reports: seq<Report>, i: nat, j: nat)
    requires j < |before|
  {
    && |after| == |before|
    && (after[j].IsMigrating() <==>
          && before[j].IsMigrating()
          && (Blocked(before, reports, i, j) || !HasOutcome(before[j], ReportOf(reports, j), |before|)))
  }

  lemma PendingNext(held: seq<ShardState>, next: seq<ShardState>, after: seq<ShardState>, reports: seq<Report>,
                    i: nat, j: nat)
    requires i < j < |held| == |next| && !Stops(held[i], ReportOf(reports, i), |held|)
    requires forall m :: 0 <= m < |held| && m != i ==> ButRanges(next[m]) == ButRanges(held[m])
    requires PendingIff(next, after, reports, i + 1, j)
    ensures PendingIff(held, after, reports, i, j)
  {
    BlockedNext(held, next, reports, i, j);
    DecidedWithoutRanges(next[j], held[j], ReportOf(reports, j), |held|);
  }

  lemma StoppedPending(held: seq<ShardState>, reports: seq<Report>, i: nat, j: nat)
    requires i <= j < |held| && Stops(held[i], ReportOf(reports, i), |held|)
    ensures PendingIff(held, held, reports, i, j)
  {
    assert j > i ==> Blocked(held, reports, i, j);
  }

  /**
   * A pass over an up-to-date copy completes exactly the migrations whose source reports an
   * outcome, up to the first shard that ends the pass: a migration to an index that no longer
   * exists, whose source answers with the recorded slot, leaves every later migration pending,
   * whatever its source reports.
   */
  lemma {:induction false} PassCompletesReported(values: map<Key, ClusterState>, key: Key, held: ClusterState,
                                                 reports: seq<Report>, i: nat, cached: bool, j: nat)
    requires i <= j < |held.shards| && UpToDate(values, key, held)
    ensures PendingIff(held.shards, Pass(values, key, held, reports, i, cached).held.shards, reports, i, j)
    decreases |held.shards| - i
  {
    var step := PassStep(values, key, held, i, ReportOf(reports, i));
    var next := cached || step.outcome.Stored?;
    PassUnfolds(values, key, held, reports, i, cached, step);
    StepCompletes(values, key, held, i, ReportOf(reports, i), step);
    if step.outcome.Stopped? {
      StoppedPending(held.shards, reports, i, j);
    } else if j == i {
      var after := Pass(step.values, key, step.held, reports, i + 1, next).held.shards;
      PassKeepsEarlier(step.values, key, step.held, reports, i + 1, next, j);
      DecidedWithoutRanges(after[j], step.held.shards[j], NoAnswer, |held.shards|);
    } else {
      var after := Pass(step.values, key, step.held, reports, i + 1, next).held.shards;
      StepKeepsOthers(values, key, held, i, ReportOf(reports, i), step);
      PassCompletesReported(step.values, key, step.held, reports, i + 1, next, j);
      PendingNext(held.shards, step.held.shards, after, reports, i, j);
    }
  }

  lemma StepKeepsOthers(values: map<Key, ClusterState>, key: Key, held: ClusterState, i: nat, report: Report,
                        step: StepResult)
    requires i < |held.shards| && step == PassStep(values, key, held, i, report)
    ensures |step.held.shards| == |held.shards|
    ensures forall m :: 0 <= m < |held.shards| && m != i ==> ButRanges(step.held.shards[m]) == ButRanges(held.shards[m])
  {
    StepKeepsLength(values, key, held, i, report);
    forall m | 0 <= m < |held.shards| && m != i ensures ButRanges(step.held.shards[m]) == ButRanges(held.shards[m]) {
      StepKeepsOther(values, key, held, i, report, step, m);
    }
  }

  /** A pass over a copy older than the stored value, or of a cluster that is gone, stores nothing. */
  lemma {:induction false} StalePassStoresNothing(values: map<Key, ClusterState>, key: Key, held: ClusterState,
                                                  reports: seq<Report>, i: nat, cached: bool)
    requires i <= |held.shards| && !UpToDate(values, key, held)
    ensures var p := Pass(values, key, held, reports, i, cached); p.values == values && p.cached == cached
    decreases |held.shards| - i
  {
    if i < |held.shards| {
      var step := PassStep(values, key, held, i, ReportOf(reports, i));
      PassUnfolds(values, key, held, reports, i, cached, step);
      if step.outcome.Skipped? { StalePassStoresNothing(values, key, held, reports, i + 1, cached); }
    }
  }

  // ----- Who owns a slot after a pass -----

  // The pass moves slot x out of shard o.
  predicate Delivers(shards: seq<ShardState>, reports: seq<Report>, from: nat, o: nat, x: int)
    requires o < |shards|
  {
    && from <= o && !Blocked(shards, reports, from, o)
    && HasOutcome(shards[o], ReportOf(reports, o), |shards|) && ReportOf(reports, o).state.StateSuccess?
    && shards[o].migratingSlot.value.range.Contains(x)
  }

  // The owner of slot x after the pass, when shard o owned it before.
  function OwnerAfterPass(shards: seq<ShardState>, reports: seq<Report>, from: nat, o: nat, x: int): int
    requires o < |shards|
  {
    if Delivers(shards, reports, from, o, x) then shards[o].targetShardIndex else o
  }

  // One step moves slot x exactly if its owner is the shard at hand and reports success for it.
  lemma StepMovesSlot(held: ClusterState, i: nat, report: Report, next: ClusterState, o: nat, x: int)
    requires Inv(held) && i < |held.shards| && OwnerIs(held.shards, x, o)
    requires Complete(held.shards, i, report) == Ok(next.shards)
    ensures Inv(next)
    ensures var moves := o == i && report.state.StateSuccess? && held.shards[o].migratingSlot.value.range.Contains(x);
      OwnerIs(next.shards, x, if moves then held.shards[o].targetShardIndex else o)
  {
    var op := CompleteMigration(i, report);
    StepMovesOwner(held, op, x, o);
    ApplyKeepsInv(held, op);
    NameIsNotInv(Apply(held, op).value, next);
    assert MigrationOk(held.shards[i]);
    if report.state.StateSuccess? && report.slot.value.Contains(x) { assert OwnerIs(held.shards, x, i); }
  }

  lemma NameIsNotInv(c: ClusterState, d: ClusterState)
    requires Inv(c) && c.shards == d.shards
    ensures Inv(d)
  {}

  lemma DeliversNext(held: seq<ShardState>, next: seq<ShardState>, reports: seq<Report>, i: nat, o: nat, x: int)
    requires i < o < |held| == |next| && !Stops(held[i], ReportOf(reports, i), |held|)
    requires forall m :: i < m < |held| ==> ButRanges(next[m]) == ButRanges(held[m])
    ensures OwnerAfterPass(held, reports, i, o, x) == OwnerAfterPass(next, reports, i + 1, o, x)
  {
    BlockedNext(held, next, reports, i, o);
    DecidedWithoutRanges(next[o], held[o], ReportOf(reports, o), |held|);
    assert next[o] == held[o].(slotRanges := next[o].slotRanges);
  }

  // A slot that was moved is not moved again: its new owner does not migrate it.
  lemma MovedOnce(held: ClusterState, next: seq<ShardState>, reports: seq<Report>, i: nat, t: nat, x: int)
    requires Inv(held) && i < |held.shards| == |next| && t < |next| && OwnerIs(held.shards, x, i)
    requires forall m :: i < m < |next| ==> ButRanges(next[m]) == ButRanges(held.shards[m])
    ensures OwnerAfterPass(next, reports, i + 1, t, x) == t
  {
    if Delivers(next, reports, i + 1, t, x) {
      assert next[t] == held.shards[t].(slotRanges := next[t].slotRanges);
      assert MigrationOk(held.shards[t]);
      assert OwnerIs(held.shards, x, t);
    }
  }

  // How the owner after the pass follows from the owner after its first step.
  lemma OwnerAfterStep(values: map<Key, ClusterState>, key: Key, held: ClusterState, reports: seq<Report>, i: nat,
                       step: StepResult, x: int, o: nat) returns (o': nat)
    requires i < |held.shards| && UpToDate(values, key, held) && Inv(held) && OwnerIs(held.shards, x, o)
    requires step == PassStep(values, key, held, i, ReportOf(reports, i)) && !step.outcome.Stopped?
    ensures Inv(step.held) && |step.held.shards| == |held.shards| && OwnerIs(step.held.shards, x, o')
    ensures OwnerAfterPass(held.shards, reports, i, o, x) == OwnerAfterPass(step.held.shards, reports, i + 1, o', x)
  {
    var report := ReportOf(reports, i);
    CompleteDecides(held.shards, i, report);
    StepCompletes(values, key, held, i, report, step);
    StepKeepsOthers(values, key, held, i, report, step);
    o' := o;
    if step.outcome.Stored? {
      StepMovesSlot(held, i, report, step.held, o, x);
      if o == i && report.state.StateSuccess? && held.shards[o].migratingSlot.value.range.Contains(x) {
        o' := held.shards[o].targetShardIndex;
        MovedOnce(held, step.held.shards, reports, i, o', x);
      }
    }
    if o > i { DeliversNext(held.shards, step.held.shards, reports, i, o, x); }
  }

  /**
   * Who owns a slot after a pass over an up-to-date valid copy: the recorded target, if the owner
   * reports success for a migration of the slot and no shard before it ends the pass; otherwise
   * the old owner.
   */
  lemma {:induction false} PassMovesOwners(values: map<Key, ClusterState>, key: Key, held: ClusterState,
                                           reports: seq<Report>, i: nat, cached: bool, x: int, o: nat)
    requires i <= |held.shards| && UpToDate(values, key, held) && Inv(held) && OwnerIs(held.shards, x, o)
    ensures var after := Pass(values, key, held, reports, i, cached).held;
      && Inv(after)
      && forall j :: OwnerIs(after.shards, x, j) <==> j == OwnerAfterPass(held.shards, reports, i, o, x)
    decreases |held.shards| - i
  {
    if i < |held.shards| {
      var step := PassStep(values, key, held, i, ReportOf(reports, i));
      PassUnfolds(values, key, held, reports, i, cached, step);
      StepCompletes(values, key, held, i, ReportOf(reports, i), step);
      if step.outcome.Stopped? {
        assert o > i ==> Blocked(held.shards, reports, i, o);
      } else {
        var o' := OwnerAfterStep(values, key, held, reports, i, step, x, o);
        PassMovesOwners(step.values, key, step.held, reports, i + 1, cached || step.outcome.Stored?, x, o');
      }
    }
  }

  // ----- A pass as a run of the concurrent system -----

  // The steps of the concurrent system that a pass takes.
  ghost function PassActions(values: map<Key, ClusterState>, key: Key, held: ClusterState, actor: nat,
                             reports: seq<Report>, i: nat)
    : seq<Action>
    requires i <= |held.shards|
    decreases |held.shards| - i
  {
    if i == |held.shards| then []
    else
      var report := ReportOf(reports, i);
      var step := PassStep(values, key, held, i, report);
      StepKeepsLength(values, key, held, i, report);
      var first := [Action.Edit(actor, CompleteMigration(i, report)), Update(actor)];
      if step.outcome.Stopped? then (if step.held == held then [] else first)
      else (if step.outcome.Stored? then first else [])
           + PassActions(step.values, key, step.held, actor, reports, i + 1)
  }

  lemma {:induction false} RunConcat(s: System, a: seq<Action>, b: seq<Action>)
    ensures Run(s, a + b) == Run(Run(s, a), b)
  {
    if b == [] {
      assert a + b == a;
    } else {
      RunConcat(s, a, b[..|b| - 1]);
      assert (a + b)[..|a + b| - 1] == a + b[..|b| - 1];
    }
  }

  lemma RunTwo(s: System, a: Action, b: Action)
    ensures Run(s, [a, b]) == Do(Do(s, a), b)
  {
    assert [a, b][..1] == [a] && [a][..0] == [];
    assert Run(s, [a]) == Do(Run(s, []), a);
  }

  // The step of the pass is an edit and an update, unless it leaves everything as it is.
  lemma StepIsRun(s: System, actor: nat, values: map<Key, ClusterState>, key: Key, i: nat, report: Report)
    requires actor in s.copies && key in values && values[key] == s.stored
    ensures var held := s.copies[actor].held;
      var step := PassStep(values, key, held, i, report);
      var s' := Run(s, [Action.Edit(actor, CompleteMigration(i, report)), Update(actor)]);
      && key in step.values
      && (step.outcome.Skipped? ==> step.values == values && step.held == held)
      && (step.outcome.Stopped? ==> step.values == values)
      && (step.outcome.Stored? || step.held != held ==>
            actor in s'.copies && s'.copies[actor].held == step.held && s'.stored == step.values[key])
  {
    RunTwo(s, Action.Edit(actor, CompleteMigration(i, report)), Update(actor));
  }

  // After the actions, the stored value and the actor's copy are those of the pass.
  ghost predicate Reaches(s: System, actions: seq<Action>, actor: nat, key: Key, result: PassResult) {
    && NoSets(actions)
    && var s' := Run(s, actions);
    && actor in s'.copies && s'.copies[actor].held == result.held
    && key in result.values && s'.stored == result.values[key]
  }

  lemma ReachesAfter(s: System, first: seq<Action>, rest: seq<Action>, actor: nat, key: Key, result: PassResult)
    requires NoSets(first) && Reaches(Run(s, first), rest, actor, key, result)
    ensures Reaches(s, first + rest, actor, key, result)
  {
    RunConcat(s, first, rest);
  }

  // A pass that stops here has taken one edit and one rejected update, or no step at all.
  lemma StoppedReaches(s: System, actor: nat, values: map<Key, ClusterState>, key: Key, i: nat, report: Report,
                       cached: bool)
    requires actor in s.copies && key in values && values[key] == s.stored
    requires PassStep(values, key, s.copies[actor].held, i, report).outcome.Stopped?
    ensures var step := PassStep(values, key, s.copies[actor].held, i, report);
      var first := [Action.Edit(actor, CompleteMigration(i, report)), Update(actor)];
      Reaches(s, if step.held == s.copies[actor].held then [] else first, actor, key,
              PassResult(step.values, step.held, cached))
  {
    StepIsRun(s, actor, values, key, i, report);
  }

  lemma ActionsUnfold(values: map<Key, ClusterState>, key: Key, held: ClusterState, actor: nat, reports: seq<Report>,
                      i: nat, step: StepResult, first: seq<Action>)
    requires i < |held.shards| && step == PassStep(values, key, held, i, ReportOf(reports, i))
    requires first == [Action.Edit(actor, CompleteMigration(i, ReportOf(reports, i))), Update(actor)]
    ensures |step.held.shards| == |held.shards|
    ensures PassActions(values, key, held, actor, reports, i) ==
      match step.outcome
      case Stopped => if step.held == held then [] else first
      case Skipped => PassActions(step.values, key, step.held, actor, reports, i + 1)
      case Stored => first + PassActions(step.values, key, step.held, actor, reports, i + 1)
  {
    StepKeepsLength(values, key, held, i, ReportOf(reports, i));
  }

  /**
   * A pass over the shards is a run of the concurrent system: one edit and one update for every
   * migration it completes.  So everything proved of all runs holds for the controller.
   */
  lemma {:induction false} PassIsRun(s: System, actor: nat, values: map<Key, ClusterState>, key: Key,
                                     reports: seq<Report>, i: nat, cached: bool)
    requires actor in s.copies && key in values && values[key] == s.stored && i <= |s.copies[actor].held.shards|
    ensures var held := s.copies[actor].held;
      Reaches(s, PassActions(values, key, held, actor, reports, i), actor, key,
              Pass(values, key, held, reports, i, cached))
    decreases |s.copies[actor].held.shards| - i
  {
    var held := s.copies[actor].held;
    if i < |held.shards| {
      var report := ReportOf(reports, i);
      var step := PassStep(values, key, held, i, report);
      var first := [Action.Edit(actor, CompleteMigration(i, report)), Update(actor)];
      PassUnfolds(values, key, held, reports, i, cached, step);
      ActionsUnfold(values, key, held, actor, reports, i, step, first);
      match step.outcome {
        case Stopped => StoppedReaches(s, actor, values, key, i, report, cached);
        case Skipped =>
          StepIsRun(s, actor, values, key, i, report);
          PassIsRun(s, actor, values, key, reports, i + 1, cached);
        case Stored =>
          StepIsRun(s, actor, values, key, i, report);
          PassIsRun(Run(s, first), actor, step.values, key, reports, i + 1, true);
          ReachesAfter(s, first, PassActions(step.values, key, step.held, actor, reports, i + 1), actor, key,
                       Pass(step.values, key, step.held, reports, i + 1, true));
      }
    }
  }
}
