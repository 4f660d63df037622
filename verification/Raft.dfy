/**
 * The application layer of the raft engine (store/engine/raft/node.go, store/engine/raft/store.go):
 * how committed log entries reach the key-value map, across overlapping deliveries, snapshots
 * and restarts that replay the write-ahead log.
 */
module Raft {
  import opened Topology

  // ----- Entries and the map they build -----

  const OP_GET := 1
  const OP_SET := 2
  const OP_DELETE := 3

  datatype Event = Event(op: int, key: string, value: string)

  // A log entry: a configuration change, or a normal entry whose data may be empty or may not decode.
  datatype Entry = ConfChange | EmptyData | Malformed | Data(event: Event)

  type KVs = map<string, string>

  predicate Fails(e: Entry) {
    e.Malformed? || (e.Data? && e.event.op != OP_SET && e.event.op != OP_DELETE && e.event.op != OP_GET)
  }

  /** No entry that the engine proposes fails a start; undecodable data and unknown operations do. */
  lemma FailsIff(e: Entry)
    ensures Fails(e) <==> e == Malformed || (e.Data? && e.event.op !in {1, 2, 3})
    ensures !Fails(ConfChange) && !Fails(EmptyData)
    ensures forall key, value :: !Fails(Data(Event(OP_SET, key, value))) && !Fails(Data(Event(OP_DELETE, key, value)))
    ensures forall key, value :: !Fails(Data(Event(OP_GET, key, value)))
  {}

  function ApplyEntry(kvs: KVs, e: Entry): KVs {
    if !e.Data? then kvs
    else if e.event.op == OP_SET then kvs[e.event.key := e.event.value]
    else if e.event.op == OP_DELETE then kvs - {e.event.key}
    else kvs
  }

  function ApplyLog(kvs: KVs, log: seq<Entry>): KVs {
    if log == [] then kvs else ApplyEntry(ApplyLog(kvs, log[..|log| - 1]), log[|log| - 1])
  }

  predicate Writes(e: Entry, key: string) {
    e.Data? && e.event.key == key && (e.event.op == OP_SET || e.event.op == OP_DELETE)
  }

  predicate Touches(log: seq<Entry>, key: string) {
    exists e :: e in log && Writes(e, key)
  }

  function Lookup(kvs: KVs, key: string): Option<string> {
    if key in kvs then Some(kvs[key]) else None
  }

  lemma LookupExtensional(a: KVs, b: KVs)
    requires forall k :: Lookup(a, k) == Lookup(b, k)
    ensures a == b
  {
    forall k ensures (k in a <==> k in b) && (k in a ==> a[k] == b[k]) {
      assert Lookup(a, k) == Lookup(b, k);
    }
  }

  lemma ApplyEntryAt(kvs: KVs, e: Entry, key: string)
    ensures Lookup(ApplyEntry(kvs, e), key) ==
      if !Writes(e, key) then Lookup(kvs, key) else if e.event.op == OP_SET then Some(e.event.value) else None
  {}

  lemma {:induction false} ApplyLogConcat(kvs: KVs, a: seq<Entry>, b: seq<Entry>)
    ensures ApplyLog(kvs, a + b) == ApplyLog(ApplyLog(kvs, a), b)
  {
    if b == [] {
      assert a + b == a;
    } else {
      ApplyLogConcat(kvs, a, b[..|b| - 1]);
      assert (a + b)[..|a + b| - 1] == a + b[..|b| - 1];
    }
  }

  /** The last writer of a key decides; without a writer the old binding stays. */
  lemma {:induction false} LastWriterWins(x: KVs, y: KVs, log: seq<Entry>, key: string)
    ensures Touches(log, key) ==> Lookup(ApplyLog(x, log), key) == Lookup(ApplyLog(y, log), key)
    ensures !Touches(log, key) ==> Lookup(ApplyLog(x, log), key) == Lookup(x, key)
  {
    if log != [] {
      var init, e := log[..|log| - 1], log[|log| - 1];
      LastWriterWins(x, y, init, key);
      ApplyEntryAt(ApplyLog(x, init), e, key);
      ApplyEntryAt(ApplyLog(y, init), e, key);
      assert forall d :: d in log <==> d in init || d == e;
    }
  }

  // ----- Restart -----

  /**
   * Restart is invisible: replaying a log onto a snapshot and then applying that log again,
   * followed by later entries, ends where one pass over all of it ends.
   */
  lemma RestartIsInvisible(snapshot: KVs, wal: seq<Entry>, later: seq<Entry>)
    ensures ApplyLog(ApplyLog(snapshot, wal), wal + later) == ApplyLog(snapshot, wal + later)
  {
    var x := ApplyLog(snapshot, wal);
    forall k ensures Lookup(ApplyLog(x, wal), k) == Lookup(x, k) {
      LastWriterWins(x, snapshot, wal, k);
    }
    LookupExtensional(ApplyLog(x, wal), x);
    ApplyLogConcat(x, wal, later);
    ApplyLogConcat(snapshot, wal, later);
  }

  /**
   * The write-ahead log may end in entries that were never committed and are later replaced.
   * Replaying them is invisible exactly when every key that they write, and no committed entry
   * writes, gets the binding it had in the snapshot.
   */
  lemma TruncatedTailInvisibleIff(snapshot: KVs, committed: seq<Entry>, tail: seq<Entry>, later: seq<Entry>)
    ensures ApplyLog(ApplyLog(snapshot, committed + tail), committed + later) == ApplyLog(snapshot, committed + later)
      <==> forall k :: Touches(tail, k) && !Touches(committed, k) && !Touches(later, k) ==>
             Lookup(ApplyLog(snapshot, tail), k) == Lookup(snapshot, k)
  {
    var replayed, good := ApplyLog(snapshot, committed + tail), committed + later;
    forall k
      ensures (Lookup(ApplyLog(replayed, good), k) == Lookup(ApplyLog(snapshot, good), k)) <==>
        (Touches(tail, k) && !Touches(committed, k) && !Touches(later, k) ==>
           Lookup(ApplyLog(snapshot, tail), k) == Lookup(snapshot, k))
    {
      TailAt(snapshot, committed, tail, later, k);
    }
    if forall k :: Lookup(ApplyLog(replayed, good), k) == Lookup(ApplyLog(snapshot, good), k) {
      LookupExtensional(ApplyLog(replayed, good), ApplyLog(snapshot, good));
    }
  }

  lemma TouchesConcat(a: seq<Entry>, b: seq<Entry>, key: string)
    ensures Touches(a + b, key) <==> Touches(a, key) || Touches(b, key)
  {
    assert forall e :: e in a + b <==> e in a || e in b;
  }

  lemma TailAt(snapshot: KVs, committed: seq<Entry>, tail: seq<Entry>, later: seq<Entry>, k: string)
    ensures
      Lookup(ApplyLog(ApplyLog(snapshot, committed + tail), committed + later), k)
        == Lookup(ApplyLog(snapshot, committed + later), k)
      <==>
      (Touches(tail, k) && !Touches(committed, k) && !Touches(later, k) ==>
         Lookup(ApplyLog(snapshot, tail), k) == Lookup(snapshot, k))
  {
    var replayed := ApplyLog(snapshot, committed + tail);
    TouchesConcat(committed, later, k);
    LastWriterWins(replayed, snapshot, committed + later, k);
    LastWriterWins(snapshot, snapshot, committed + later, k);
    ApplyLogConcat(snapshot, committed, tail);
    LastWriterWins(ApplyLog(snapshot, committed), snapshot, tail, k);
    LastWriterWins(snapshot, snapshot, committed, k);
  }

  // ----- The node as a state machine over a committed log -----

  // What the map should be after the first n entries.
  function StateAt(log: seq<Entry>, n: nat): KVs
    requires n <= |log|
  {
    ApplyLog(map[], log[..n])
  }

  // The keys that some entry writes.
  function Written(log: seq<Entry>): set<string> {
    set e | e in log && e.Data? && (e.event.op == OP_SET || e.event.op == OP_DELETE) :: e.event.key
  }

  lemma WrittenIsTouched(log: seq<Entry>, k: string)
    ensures k in Written(log) <==> Touches(log, k)
  {
    if Touches(log, k) {
      var e :| e in log && Writes(e, k);
      assert e.event.key in Written(log);
    }
  }

  // A map that stands for the first `index` entries.  `high` and `lost` are bookkeeping: entries up
  // to `high` may already have been replayed, and writes of the keys in `lost` may be missing.
  datatype Image = Image(kvs: KVs, index: nat, high: nat, lost: set<string>)

  // An entry behind the index that may already be in the map writes the key.
  predicate Ahead(log: seq<Entry>, n: nat, high: nat, k: string) {
    n < high <= |log| && Touches(log[n..high], k)
  }

  predicate RightFor(log: seq<Entry>, kvs: KVs, n: nat, high: nat, k: string)
    requires n <= |log|
  {
    Ahead(log, n, high, k) || Lookup(kvs, k) == Lookup(StateAt(log, n), k)
  }

  ghost predicate ImageOk(log: seq<Entry>, m: Image) {
    && m.index <= |log| && m.high <= |log|
    && forall k :: k !in m.lost ==> RightFor(log, m.kvs, m.index, m.high, k)
  }

  // The same map taken to stand for n entries: the code sets the index without looking at the map.
  function Relabel(log: seq<Entry>, m: Image, n: nat): Image {
    if n <= m.index then m.(index := n, high := Max(m.index, m.high))
    else if n <= |log| then m.(index := n, lost := m.lost + Written(log[m.index..n]))
    else m
  }

  function Deliver(log: seq<Entry>, m: Image, n: nat): Image
    requires m.index <= n <= |log|
  {
    var entries := log[m.index..n];
    m.(kvs := ApplyLog(m.kvs, entries), index := n, lost := m.lost - Written(entries))
  }

  // Entries up to `end` are applied to the map, and the index stays.
  function Replay(log: seq<Entry>, m: Image, end: nat): Image
    requires m.index <= end <= |log|
  {
    m.(kvs := ApplyLog(m.kvs, log[m.index..end]), high := Max(end, m.high))
  }

  // The newest snapshot file (there is none at index 0), the newest snapshot recorded in the
  // write-ahead log, and the entries walFrom + 1 to walEnd with which that log ends.  A snapshot is
  // saved by writing its file and then its record.
  datatype Disk = Disk(file: Image, recordIndex: nat, walFrom: nat, walEnd: nat)

  // `missed` is bookkeeping: the storage has advanced to a snapshot that was not loaded.
  datatype NodeState = NodeState(mem: Image, snapshotIndex: nat, compacted: nat, missed: bool, disk: Disk)

  // How far saving a snapshot gets: no file, a file without its record, both, or compaction as well.
  datatype SaveOutcome = NotSaved | FileOnly | NotCompacted | Done

  // What becomes of a received snapshot that was or was not saved: the process ends before it is
  // loaded, loading fails, or the newest file is loaded.
  datatype LoadOutcome = Ends | LoadFails | Loads

  datatype NodeStep =
    | Persist(first: nat, last: nat)                             // entries first to last reach the write-ahead log
    | Committed(first: nat, last: nat)                           // raft delivers the committed entries first to last
    | Snapshot(threshold: nat, keep: nat, outcome: SaveOutcome)  // triggerSnapshotIfNeed
    | Receive(sent: Image, save: SaveOutcome, load: LoadOutcome) // a snapshot sent by another node
    | Restart                                                    // a new process: replayWAL

  function Max(a: nat, b: nat): nat { if a < b then b else a }

  // How far the storage is compacted after a snapshot.
  function CompactIndex(applied: nat, keep: nat): nat { if applied > keep then applied - keep else 1 }

  /** Compaction leaves exactly the last `keep` applied entries, or all but the first while there are no more. */
  lemma CompactKeepsRecent(applied: nat, keep: nat)
    ensures applied > keep ==> applied - CompactIndex(applied, keep) == keep
    ensures applied <= keep ==> CompactIndex(applied, keep) == 1
  {}

  // Files are named by index, and the newest name is the one that is loaded.
  function SaveFile(d: Disk, m: Image): Disk {
    if m.index >= d.file.index then d.(file := m) else d
  }

  function Record(d: Disk, index: nat): Disk {
    d.(recordIndex := Max(d.recordIndex, index),
       walFrom := if d.walEnd < index then index else d.walFrom, walEnd := Max(d.walEnd, index))
  }

  function Save(d: Disk, m: Image, outcome: SaveOutcome): Disk {
    match outcome
    case NotSaved => d
    case FileOnly => SaveFile(d, m)
    case _ => Record(SaveFile(d, m), m.index)
  }

  // Without a file the map stays.
  function Load(d: Disk, m: Image): Image { if d.file.index == 0 then m else d.file }

  const EMPTY := Image(map[], 0, 0, {})
  const NEW_NODE := NodeState(EMPTY, 0, 0, false, Disk(EMPTY, 0, 0, 0))

  ghost predicate DiskOk(log: seq<Entry>, d: Disk) {
    && d.recordIndex <= d.file.index && d.recordIndex <= d.walEnd <= |log|
    && ImageOk(log, d.file)
  }

  ghost predicate NodeOk(log: seq<Entry>, s: NodeState) {
    && s.snapshotIndex <= s.mem.index && (!s.missed ==> s.compacted <= s.snapshotIndex)
    && DiskOk(log, s.disk) && ImageOk(log, s.mem)
  }

  // Entries are numbered from 1: entry i is log[i - 1].  All persisted entries belong to the
  // committed log and continue what is stored, deliveries are persisted and end beyond the applied
  // index, received snapshots come from nodes with the same log, and the write-ahead log can be read
  // from the newest record only if no entry behind it is missing.
  ghost predicate Enabled(log: seq<Entry>, s: NodeState, step: NodeStep) {
    match step
    case Persist(first, last) =>
      1 <= first <= Max(s.disk.walEnd, Max(s.mem.index, s.compacted)) + 1 && s.disk.walEnd <= last <= |log|
    case Committed(first, last) => 1 <= first <= last && s.mem.index < last <= s.disk.walEnd
    case Snapshot(_, _, _) => true
    case Receive(sent, _, _) => s.mem.index < sent.index && s.compacted < sent.index && ImageOk(log, sent)
    case Restart =>
      && s.disk.walFrom <= s.disk.recordIndex
      && forall i :: s.disk.recordIndex <= i < s.disk.walEnd <= |log| ==> !Fails(log[i])
  }

  function NodeNext(log: seq<Entry>, s: NodeState, step: NodeStep): NodeState {
    match step
    case Persist(first, last) =>
      var from := if s.disk.walEnd + 1 < first then first - 1 else s.disk.walFrom;
      s.(disk := s.disk.(walFrom := from, walEnd := last))
    case Committed(first, last) =>
      // a batch behind a gap is ignored
      if first <= s.mem.index + 1 && s.mem.index <= last <= |log| then s.(mem := Deliver(log, s.mem, last)) else s
    case Snapshot(threshold, keep, outcome) =>
      if s.mem.index - s.snapshotIndex <= threshold then s
      else
        var saved := s.(disk := Save(s.disk, s.mem, outcome));
        if !outcome.Done? then saved
        else saved.(snapshotIndex := s.mem.index, compacted := Max(s.compacted, CompactIndex(s.mem.index, keep)))
    case Receive(sent, save, load) =>
      var saved := s.(disk := Save(s.disk, sent, save));
      match load {
        case Ends => saved
        case LoadFails => saved.(compacted := sent.index, missed := true)
        case Loads =>
          NodeState(Relabel(log, Load(saved.disk, s.mem), sent.index), sent.index, sent.index, false, saved.disk)
      }
    case Restart =>
      // the newest file, with the index of the newest record
      var d := s.disk;
      if d.recordIndex <= d.file.index && d.recordIndex <= d.walEnd <= |log| then
        NodeState(Replay(log, Relabel(log, d.file, d.recordIndex), d.walEnd), d.recordIndex, d.recordIndex, false, d)
      else s
  }

  lemma TouchesSlice(log: seq<Entry>, a: nat, b: nat, c: nat, d: nat, k: string)
    requires c <= a <= b <= d <= |log| && Touches(log[a..b], k)
    ensures Touches(log[c..d], k)
  {
    assert log[c..d] == log[c..a] + log[a..b] + log[b..d];
  }

  lemma TouchesSplit(log: seq<Entry>, a: nat, b: nat, c: nat, k: string)
    requires a <= b <= c <= |log|
    ensures Touches(log[a..c], k) <==> Touches(log[a..b], k) || Touches(log[b..c], k)
  {
    assert log[a..c] == log[a..b] + log[b..c];
    TouchesConcat(log[a..b], log[b..c], k);
  }

  // The last write of a key among entries m + 1 to n decides it at n; otherwise it is as at m.
  lemma StateFor(log: seq<Entry>, m: nat, n: nat, kvs: KVs, k: string)
    requires m <= n <= |log|
    ensures Touches(log[m..n], k) ==> Lookup(StateAt(log, n), k) == Lookup(ApplyLog(kvs, log[m..n]), k)
    ensures !Touches(log[m..n], k) ==> Lookup(StateAt(log, n), k) == Lookup(StateAt(log, m), k)
    ensures !Touches(log[m..n], k) ==> Lookup(ApplyLog(kvs, log[m..n]), k) == Lookup(kvs, k)
  {
    assert log[..n] == log[..m] + log[m..n];
    ApplyLogConcat(map[], log[..m], log[m..n]);
    LastWriterWins(StateAt(log, m), kvs, log[m..n], k);
    LastWriterWins(kvs, kvs, log[m..n], k);
  }

  lemma AheadNext(log: seq<Entry>, m: nat, n: nat, high: nat, k: string)
    requires m <= n <= |log| && !Touches(log[m..n], k) && Ahead(log, m, high, k)
    ensures Ahead(log, n, high, k)
  {
    if high <= n { TouchesSlice(log, m, high, m, n, k); } else { TouchesSplit(log, m, n, high, k); }
  }

  /** Applying the next entries keeps a map right, and makes it right for every key they write. */
  lemma DeliverOk(log: seq<Entry>, m: Image, n: nat)
    requires ImageOk(log, m) && m.index <= n <= |log|
    ensures ImageOk(log, Deliver(log, m, n))
  {
    var next := Deliver(log, m, n);
    forall k | k !in next.lost ensures RightFor(log, next.kvs, n, m.high, k) {
      StateFor(log, m.index, n, m.kvs, k);
      WrittenIsTouched(log[m.index..n], k);
      if !Touches(log[m.index..n], k) {
        assert RightFor(log, m.kvs, m.index, m.high, k);
        if Ahead(log, m.index, m.high, k) { AheadNext(log, m.index, n, m.high, k); }
      }
    }
  }

  lemma ReplayOk(log: seq<Entry>, m: Image, end: nat)
    requires ImageOk(log, m) && m.index <= end <= |log|
    ensures ImageOk(log, Replay(log, m, end))
  {
    var next := Replay(log, m, end);
    forall k | k !in next.lost ensures RightFor(log, next.kvs, m.index, next.high, k) {
      assert RightFor(log, m.kvs, m.index, m.high, k);
      if Touches(log[m.index..end], k) { TouchesSlice(log, m.index, end, m.index, next.high, k); }
      if Ahead(log, m.index, m.high, k) { TouchesSlice(log, m.index, m.high, m.index, next.high, k); }
      StateFor(log, m.index, end, m.kvs, k);
    }
  }

  /** A map is right for fewer entries, having looked ahead, and for more but for the keys they write. */
  lemma RelabelOk(log: seq<Entry>, m: Image, n: nat)
    requires ImageOk(log, m) && n <= |log|
    ensures ImageOk(log, Relabel(log, m, n)) && Relabel(log, m, n).index == n
  {
    var next := Relabel(log, m, n);
    forall k | k !in next.lost ensures RightFor(log, next.kvs, n, next.high, k) {
      assert RightFor(log, m.kvs, m.index, m.high, k);
      if n <= m.index {
        if Ahead(log, m.index, m.high, k) { TouchesSlice(log, m.index, m.high, n, next.high, k); }
        if Touches(log[n..m.index], k) { TouchesSlice(log, n, m.index, n, next.high, k); }
        StateFor(log, n, m.index, m.kvs, k);
      } else {
        WrittenIsTouched(log[m.index..n], k);
        StateFor(log, m.index, n, m.kvs, k);
        if Ahead(log, m.index, m.high, k) { AheadNext(log, m.index, n, m.high, k); }
      }
    }
  }

  lemma SaveOk(log: seq<Entry>, d: Disk, m: Image, outcome: SaveOutcome)
    requires DiskOk(log, d) && ImageOk(log, m)
    ensures DiskOk(log, Save(d, m, outcome))
  {}

  lemma NodeStepOk(log: seq<Entry>, s: NodeState, step: NodeStep)
    requires NodeOk(log, s) && Enabled(log, s, step)
    ensures NodeOk(log, NodeNext(log, s, step))
  {
    match step {
      case Persist(_, _) =>
      case Committed(_, last) => DeliverOk(log, s.mem, last);
      case Snapshot(_, _, outcome) => SaveOk(log, s.disk, s.mem, outcome);
      case Receive(sent, save, _) =>
        SaveOk(log, s.disk, sent, save);
        RelabelOk(log, Load(Save(s.disk, sent, save), s.mem), sent.index);
      case Restart =>
        RelabelOk(log, s.disk.file, s.disk.recordIndex);
        ReplayOk(log, Relabel(log, s.disk.file, s.disk.recordIndex), s.disk.walEnd);
    }
  }

  ghost predicate IsRun(log: seq<Entry>, states: seq<NodeState>, steps: seq<NodeStep>) {
    && |states| == |steps| + 1 && states[0] == NEW_NODE
    && forall i :: 0 <= i < |steps| ==>
         Enabled(log, states[i], steps[i]) && states[i + 1] == NodeNext(log, states[i], steps[i])
  }

  lemma {:induction false} RunOk(log: seq<Entry>, states: seq<NodeState>, steps: seq<NodeStep>, i: nat)
    requires IsRun(log, states, steps) && i < |states|
    ensures NodeOk(log, states[i])
  {
    if i == 0 {
      assert log[..0] == [];
    } else {
      RunOk(log, states, steps, i - 1);
      assert Enabled(log, states[i - 1], steps[i - 1]) && states[i] == NodeNext(log, states[i - 1], steps[i - 1]);
      NodeStepOk(log, states[i - 1], steps[i - 1]);
    }
  }

  /**
   * In every run over a committed log - any deliveries, own and received snapshots, saved in full,
   * in part or not at all, loaded or not, and any number of restarts - the snapshot index never
   * exceeds the applied index, compaction never passes the snapshot unless one was not loaded, and
   * once everything that was replayed has been delivered again, every key that is not lost has the
   * binding that one pass over the applied entries gives it.
   */
  lemma EveryRunIsRight(log: seq<Entry>, states: seq<NodeState>, steps: seq<NodeStep>, i: nat, k: string)
    requires IsRun(log, states, steps) && i < |states|
    ensures var s := states[i];
      && s.snapshotIndex <= s.mem.index <= |log| && (!s.missed ==> s.compacted <= s.snapshotIndex)
      && (s.mem.index >= s.mem.high && k !in s.mem.lost ==>
            Lookup(s.mem.kvs, k) == Lookup(StateAt(log, s.mem.index), k))
  {
    RunOk(log, states, steps, i);
    assert k !in states[i].mem.lost ==> RightFor(log, states[i].mem.kvs, states[i].mem.index, states[i].mem.high, k);
  }

  // Between two states of a run the node neither receives a snapshot nor restarts, and it keeps at
  // least `keep` entries at every snapshot of its own.
  predicate OwnWork(steps: seq<NodeStep>, i: nat, j: nat, keep: nat)
    requires j <= |steps|
  {
    forall m :: i <= m < j ==>
      !steps[m].Receive? && !steps[m].Restart? && (steps[m].Snapshot? ==> steps[m].keep >= keep)
  }

  /**
   * In every run, between receptions and restarts, an own snapshot compacts away none of the last
   * `keep` applied entries: what is newly compacted lies before them, or is entry 1.
   */
  lemma {:induction false} EveryRunKeepsRecent(log: seq<Entry>, states: seq<NodeState>, steps: seq<NodeStep>,
                                               i: nat, j: nat, keep: nat)
    requires IsRun(log, states, steps) && i <= j < |states| && OwnWork(steps, i, j, keep)
    ensures states[i].mem.index <= states[j].mem.index
    ensures states[j].compacted <= Max(states[i].compacted, CompactIndex(states[j].mem.index, keep))
    decreases j - i
  {
    if i < j {
      EveryRunKeepsRecent(log, states, steps, i, j - 1, keep);
      assert Enabled(log, states[j - 1], steps[j - 1]) && states[j] == NodeNext(log, states[j - 1], steps[j - 1]);
      StepKeepsRecent(log, states[j - 1], steps[j - 1], keep);
    }
  }

  lemma StepKeepsRecent(log: seq<Entry>, s: NodeState, step: NodeStep, keep: nat)
    requires Enabled(log, s, step) && !step.Receive? && !step.Restart? && (step.Snapshot? ==> step.keep >= keep)
    ensures var next := NodeNext(log, s, step);
      s.mem.index <= next.mem.index && next.compacted <= Max(s.compacted, CompactIndex(next.mem.index, keep))
  {}

  // A received snapshot has lost nothing, and if it is loaded, then from a file at least as new.
  predicate Sound(s: NodeState, step: NodeStep) {
    step.Receive? ==>
      && step.sent.lost == {}
      && (step.load.Loads? ==> Load(Save(s.disk, step.sent, step.save), s.mem).index >= step.sent.index)
  }

  predicate NothingLost(s: NodeState) { s.mem.lost == {} && s.disk.file.lost == {} }

  lemma SoundLosesNothing(log: seq<Entry>, s: NodeState, step: NodeStep)
    requires NothingLost(s) && Sound(s, step)
    ensures NothingLost(NodeNext(log, s, step))
  {}

  lemma {:induction false} SoundRunLosesNothing(log: seq<Entry>, states: seq<NodeState>, steps: seq<NodeStep>, i: nat)
    requires IsRun(log, states, steps) && i < |states| && forall j :: 0 <= j < |steps| ==> Sound(states[j], steps[j])
    ensures NothingLost(states[i])
  {
    if i > 0 {
      SoundRunLosesNothing(log, states, steps, i - 1);
      SoundLosesNothing(log, states[i - 1], steps[i - 1]);
      assert states[i] == NodeNext(log, states[i - 1], steps[i - 1]);
    }
  }

  /**
   * In every run in which received snapshots are loaded from files at least as new - torn ones,
   * failing compaction, failing loads and restarts included - the map is, once everything that was
   * replayed has been delivered again, exactly what one pass over the applied entries builds.
   */
  lemma EveryRunConverges(log: seq<Entry>, states: seq<NodeState>, steps: seq<NodeStep>, i: nat)
    requires IsRun(log, states, steps) && i < |states| && forall j :: 0 <= j < |steps| ==> Sound(states[j], steps[j])
    ensures var s := states[i];
      && s.snapshotIndex <= s.mem.index <= |log| && (!s.missed ==> s.compacted <= s.snapshotIndex)
      && (s.mem.index >= s.mem.high ==> s.mem.kvs == StateAt(log, s.mem.index))
  {
    RunOk(log, states, steps, i);
    SoundRunLosesNothing(log, states, steps, i);
    var s := states[i];
    if s.mem.index >= s.mem.high {
      forall k ensures Lookup(s.mem.kvs, k) == Lookup(StateAt(log, s.mem.index), k) {
        EveryRunIsRight(log, states, steps, i, k);
      }
      LookupExtensional(s.mem.kvs, StateAt(log, s.mem.index));
    }
  }

  predicate IsSaved(outcome: SaveOutcome) { outcome == NotCompacted || outcome == Done }

  /** After an own snapshot is saved, or a received one, a restart continues behind it. */
  lemma RestartResumes(log: seq<Entry>, s: NodeState, step: NodeStep)
    requires NodeOk(log, s) && Enabled(log, s, step) && Enabled(log, NodeNext(log, s, step), Restart)
    ensures var next := NodeNext(log, s, step);
      var resumed := NodeNext(log, next, Restart);
      && resumed.mem.index == resumed.snapshotIndex == next.disk.recordIndex
      && (step.Snapshot? && s.mem.index - s.snapshotIndex > step.threshold && IsSaved(step.outcome) ==>
            resumed.mem.index >= s.mem.index)
      && (step.Snapshot? && !IsSaved(step.outcome) ==> resumed.mem.index == s.disk.recordIndex)
      && (step.Receive? && IsSaved(step.save) ==> resumed.mem.index >= step.sent.index)
  {
    NodeStepOk(log, s, step);
  }

  /** A snapshot that is taken in full is the one from which the next threshold counts. */
  lemma SnapshotAdvances(log: seq<Entry>, s: NodeState, threshold: nat, keep: nat, outcome: SaveOutcome)
    requires NodeOk(log, s)
    ensures var next := NodeNext(log, s, Snapshot(threshold, keep, outcome));
      && next.mem == s.mem && next.missed == s.missed
      && next.snapshotIndex ==
         (if s.mem.index - s.snapshotIndex > threshold && outcome == Done then s.mem.index else s.snapshotIndex)
      && (next.compacted != s.compacted ==> s.mem.index - s.snapshotIndex > threshold && outcome == Done)
      && (outcome == NotSaved ==> next.disk == s.disk)
  {}

  /** Without a file, a received snapshot that is not saved leaves the map; otherwise the file replaces it. */
  lemma UnsavedLoads(log: seq<Entry>, s: NodeState, sent: Image)
    requires NodeOk(log, s) && Enabled(log, s, Receive(sent, NotSaved, Loads))
    ensures var next := NodeNext(log, s, Receive(sent, NotSaved, Loads));
      && next.disk == s.disk
      && (s.disk.file.index == 0 ==> Newest(s.disk) == NoFile && next.mem.kvs == s.mem.kvs)
      && (s.disk.file.index > 0 ==> Newest(s.disk) == File(s.disk.file.kvs) && next.mem.kvs == s.disk.file.kvs)
  {}

  /** A received snapshot whose file cannot be loaded leaves the map behind the storage. */
  lemma FailedLoadMisses(log: seq<Entry>, s: NodeState, sent: Image, save: SaveOutcome)
    requires NodeOk(log, s) && Enabled(log, s, Receive(sent, save, LoadFails))
    ensures var next := NodeNext(log, s, Receive(sent, save, LoadFails));
      && next.mem == s.mem && next.snapshotIndex == s.snapshotIndex
      && next.missed && next.compacted == sent.index > next.mem.index
  {}

  /**
   * Entries that continue the write-ahead log keep it readable.  Entries behind an unsaved snapshot
   * that lies beyond its end leave a gap, with which the node cannot be started again.
   */
  lemma GapStopsRestart(log: seq<Entry>, s: NodeState, first: nat, last: nat)
    requires NodeOk(log, s) && Enabled(log, s, Persist(first, last)) && s.disk.walFrom <= s.disk.recordIndex
    ensures var d := NodeNext(log, s, Persist(first, last)).disk;
      && d.walEnd == last
      && (first <= s.disk.walEnd + 1 ==> d.walFrom <= d.recordIndex)
      && (first > s.disk.walEnd + 1 ==> !Enabled(log, NodeNext(log, s, Persist(first, last)), Restart))
  {}

  /** Recording a snapshot at or behind the gap makes the log readable again. */
  lemma RecordMendsGap(d: Disk, index: nat)
    requires d.walFrom <= d.recordIndex || d.walFrom <= index
    ensures Record(d, index).walFrom <= Record(d, index).recordIndex
    ensures index <= d.walEnd ==> Record(d, index).walFrom == d.walFrom && Record(d, index).walEnd == d.walEnd
    ensures index > d.walEnd ==> Record(d, index).walFrom == Record(d, index).walEnd == index
  {}

  /** A received snapshot that is saved and is the newest is what the node then holds. */
  lemma SavedIsLoaded(log: seq<Entry>, s: NodeState, sent: Image, save: SaveOutcome)
    requires NodeOk(log, s) && Enabled(log, s, Receive(sent, save, Loads))
    requires !save.NotSaved? && s.disk.file.index <= sent.index
    ensures var next := NodeNext(log, s, Receive(sent, save, Loads));
      && next.mem.kvs == sent.kvs && next.mem.index == next.snapshotIndex == sent.index
      && next.disk.file.kvs == sent.kvs
  {}

  // The last write of k among the entries is the binding that the map has.
  predicate Unchanged(kvs: KVs, entries: seq<Entry>, k: string) {
    Touches(entries, k) ==> Lookup(ApplyLog(map[], entries), k) == Lookup(kvs, k)
  }

  /**
   * When a received snapshot is loaded, the map is right at the new index exactly when the loaded
   * file is at least as new, or the entries behind it leave every key as the file has it, but for
   * keys that are still to be delivered again.
   */
  lemma ReceivedIsRightIff(log: seq<Entry>, s: NodeState, sent: Image, save: SaveOutcome)
    requires NodeOk(log, s) && Enabled(log, s, Receive(sent, save, Loads))
    requires NothingLost(s) && sent.lost == {}
    ensures var n, loaded, next := sent.index, Load(Save(s.disk, sent, save), s.mem),
                NodeNext(log, s, Receive(sent, save, Loads)).mem;
      ImageOk(log, next.(lost := {})) <==>
        || loaded.index >= n
        || (loaded.index <= n <= |log| &&
            forall k :: Ahead(log, n, loaded.high, k) || Unchanged(loaded.kvs, log[loaded.index..n], k))
  {
    SaveOk(log, s.disk, sent, save);
    var n, loaded := sent.index, Load(Save(s.disk, sent, save), s.mem);
    var next := Relabel(log, loaded, n);
    RelabelOk(log, loaded, n);
    if loaded.index < n {
      forall k ensures RightFor(log, next.kvs, n, next.high, k) <==>
        Ahead(log, n, loaded.high, k) || Unchanged(loaded.kvs, log[loaded.index..n], k)
      {
        RelabelledRightIff(log, loaded, n, k);
      }
    }
  }

  lemma RelabelledRightIff(log: seq<Entry>, m: Image, n: nat, k: string)
    requires ImageOk(log, m) && m.lost == {} && m.index <= n <= |log|
    ensures RightFor(log, m.kvs, n, m.high, k) <==>
            Ahead(log, n, m.high, k) || Unchanged(m.kvs, log[m.index..n], k)
  {
    StateFor(log, m.index, n, map[], k);
    assert RightFor(log, m.kvs, m.index, m.high, k);
    if Ahead(log, m.index, m.high, k) && !Touches(log[m.index..n], k) { AheadNext(log, m.index, n, m.high, k); }
  }

  // ----- The objects -----

  const U64 := 0x1_0000_0000_0000_0000

  datatype LogEntry = LogEntry(index: nat, entry: Entry)

  function Bodies(entries: seq<LogEntry>): (b: seq<Entry>)
    ensures |b| == |entries|
  {
    seq(|entries|, i requires 0 <= i < |entries| => entries[i].entry)
  }

  predicate Consecutive(entries: seq<LogEntry>) {
    forall i :: 0 <= i < |entries| ==> entries[i].index == entries[0].index + i < U64
  }

  // uint64 arithmetic: appliedIndex - first + 1 wraps twice when first == appliedIndex + 1.
  function Skip64(applied: nat, first: nat): (skip: nat)
    ensures first <= applied + 1 < U64 ==> skip == applied + 1 - first
  {
    ((applied - first) % U64 + 1) % U64
  }

  class DataStore {
    var kvs: KVs

    constructor ()
      ensures kvs == map[]
    {
      kvs := map[];
    }

    method Set(key: string, value: string)
      modifies this
      ensures kvs == old(kvs)[key := value]
    {
      kvs := kvs[key := value];
    }

    method Delete(key: string)
      modifies this
      ensures kvs == old(kvs) - {key}
    {
      kvs := kvs - {key};
    }

    method ApplyDataEntry(e: Entry) returns (ok: bool)
      modifies this
      ensures kvs == ApplyEntry(old(kvs), e) && ok == !Fails(e)
    {
      if !e.Data? {
        return !e.Malformed?;
      }
      if e.event.op == OP_SET {
        Set(e.event.key, e.event.value);
      } else if e.event.op == OP_DELETE {
        Delete(e.event.key);
      } else if e.event.op != OP_GET {
        return false;
      }
      return true;
    }

    /** Loads the snapshot and applies the whole write-ahead log; one bad entry fails the start. */
    method ReplayWAL(snapshot: KVs, wal: seq<LogEntry>) returns (ok: bool)
      modifies this
      ensures ok <==> forall i :: 0 <= i < |wal| ==> !Fails(wal[i].entry)
      ensures ok ==> kvs == ApplyLog(snapshot, Bodies(wal))
    {
      kvs := snapshot;
      ghost var all := Bodies(wal);
      for i := 0 to |wal|
        invariant kvs == ApplyLog(snapshot, all[..i])
        invariant forall j :: 0 <= j < i ==> !Fails(wal[j].entry)
      {
        assert all[..i + 1][..i] == all[..i];
        ok := ApplyDataEntry(wal[i].entry);
        if !ok {
          return false;
        }
      }
      assert all[..|wal|] == all;
      return true;
    }
  }

  // The loop of applyEntries; an entry that fails is logged and skipped.
  method ApplyEach(dataStore: DataStore, entries: seq<LogEntry>)
    modifies dataStore
    ensures dataStore.kvs == ApplyLog(old(dataStore.kvs), Bodies(entries))
  {
    ghost var all := Bodies(entries);
    for i := 0 to |entries|
      invariant dataStore.kvs == ApplyLog(old(dataStore.kvs), all[..i])
    {
      assert all[..i + 1][..i] == all[..i];
      var ok := dataStore.ApplyDataEntry(entries[i].entry);
    }
    assert all[..|entries|] == all;
  }

  // What the process keeps in memory.
  datatype Memory = Memory(kvs: KVs, applied: nat, snapshotIndex: nat)

  function MemoryOf(s: NodeState): Memory { Memory(s.mem.kvs, s.mem.index, s.snapshotIndex) }

  // What loading the newest snapshot file gives.
  datatype Loaded = LoadFailed | NoFile | File(kvs: KVs)

  function Newest(d: Disk): Loaded { if d.file.index == 0 then NoFile else File(d.file.kvs) }

  // The entries first to last of a log, with their indices.
  function Numbered(log: seq<Entry>, first: nat, last: nat): seq<LogEntry>
    requires 1 <= first <= last + 1 <= |log| + 1
  {
    seq(last - first + 1, i requires 0 <= i < last - first + 1 => LogEntry(first + i, log[first + i - 1]))
  }

  class RaftNode {
    const dataStore: DataStore
    var appliedIndex: nat
    var snapshotIndex: nat
    var snapshotThreshold: nat
    var compactThreshold: nat

    ghost predicate Valid()
      reads this
    {
      snapshotIndex <= appliedIndex < U64
    }

    ghost function InMemory(): Memory
      reads this, dataStore
    {
      Memory(dataStore.kvs, appliedIndex, snapshotIndex)
    }

    constructor (ds: DataStore, snapshotAt: nat, threshold: nat, keep: nat)
      requires snapshotAt < U64
      ensures Valid() && dataStore == ds && appliedIndex == snapshotIndex == snapshotAt
      ensures snapshotThreshold == threshold && compactThreshold == keep
    {
      dataStore, appliedIndex, snapshotIndex := ds, snapshotAt, snapshotAt;
      snapshotThreshold, compactThreshold := threshold, keep;
    }

    /**
     * For consecutive entries, with uint64 arithmetic that wraps: a batch that starts at or before
     * the next index and ends beyond the applied one has exactly its new entries applied, once and
     * in order.  A gap is ignored.  A batch that is wholly applied already is applied again, and
     * the applied index moves back to its end.  At the largest index nothing is applied any more.
     */
    method ApplyEntries(entries: seq<LogEntry>)
      requires Valid() && Consecutive(entries)
      modifies this`appliedIndex, dataStore
      ensures entries == [] || entries[0].index > old(appliedIndex) + 1 ==>
        appliedIndex == old(appliedIndex) && dataStore.kvs == old(dataStore.kvs)
      ensures entries != [] && entries[0].index <= old(appliedIndex) + 1 < U64 ==>
        var first, last := entries[0].index, entries[|entries| - 1].index;
        && appliedIndex == last
        && dataStore.kvs == ApplyLog(old(dataStore.kvs),
             Bodies(if last > old(appliedIndex) then entries[old(appliedIndex) + 1 - first..] else entries))
      ensures entries != [] && entries[|entries| - 1].index > old(appliedIndex) ==> Valid()
      ensures entries != [] && entries[0].index >= 1 && old(appliedIndex) + 1 == U64 ==>
        appliedIndex == old(appliedIndex) && dataStore.kvs == old(dataStore.kvs)
      ensures old(appliedIndex) + 1 < U64 ==>
        (appliedIndex < old(appliedIndex) <==> entries != [] && entries[|entries| - 1].index < old(appliedIndex))
    {
      if |entries| == 0 || entries[0].index > (appliedIndex + 1) % U64 {
        return;
      }
      var first := entries[0].index;
      var rest := entries;
      var skip := Skip64(appliedIndex, first);
      if skip < |entries| {
        rest := entries[skip..];
      }
      ApplyEach(dataStore, rest);
      appliedIndex := rest[|rest| - 1].index;
    }

    /**
     * Only a snapshot beyond the applied index is loaded: from the newest file, whether or not its
     * caller could save it before.  In memory that is the step Receive.
     */
    method ApplySnapshot(index: nat, newest: Loaded, ghost log: seq<Entry>, ghost s: NodeState,
                         ghost sent: Image, ghost save: SaveOutcome) returns (ok: bool)
      requires Valid() && index < U64
      modifies this`appliedIndex, this`snapshotIndex, dataStore
      ensures Valid()
      ensures ok <==> index == 0 || (index > old(appliedIndex) && !newest.LoadFailed?)
      ensures index > old(appliedIndex) && !newest.LoadFailed? ==>
        && appliedIndex == snapshotIndex == index
        && dataStore.kvs == if newest.File? then newest.kvs else old(dataStore.kvs)
      ensures index <= old(appliedIndex) || newest.LoadFailed? ==> InMemory() == old(InMemory())
      ensures old(InMemory()) == MemoryOf(s) && old(appliedIndex) < index == sent.index <= |log| ==>
        && (newest.LoadFailed? ==> InMemory() == MemoryOf(NodeNext(log, s, Receive(sent, save, LoadFails))))
        && (newest == Newest(Save(s.disk, sent, save)) ==>
              InMemory() == MemoryOf(NodeNext(log, s, Receive(sent, save, Loads))))
    {
      if index == 0 {
        return true;
      }
      if appliedIndex >= index || newest.LoadFailed? {
        return false;
      }
      if newest.File? {
        dataStore.kvs := newest.kvs;
      }
      appliedIndex := index;
      snapshotIndex := index;
      return true;
    }

    /**
     * The threshold test never wraps, a snapshot holds the map at the applied index, and the
     * storage is compacted to at least 1 and never beyond the new snapshot.  Wherever saving it
     * fails, memory and disk are those of the step Snapshot.
     */
    method TriggerSnapshotIfNeed(outcome: SaveOutcome, ghost log: seq<Entry>, ghost s: NodeState)
      returns (ok: bool, file: Option<KVs>, recorded: bool, compactIndex: Option<nat>)
      requires Valid()
      modifies this`snapshotIndex
      ensures Valid()
      ensures var due := appliedIndex - old(snapshotIndex) > snapshotThreshold;
        && (ok <==> !due || outcome.Done?)
        && (file == if due && !outcome.NotSaved? then Some(dataStore.kvs) else None)
        && (recorded <==> due && (outcome.NotCompacted? || outcome.Done?))
        && (compactIndex.Some? <==> due && outcome.Done?)
        && snapshotIndex == if due && outcome.Done? then appliedIndex else old(snapshotIndex)
      ensures compactIndex.Some? ==>
        compactIndex.value == CompactIndex(appliedIndex, compactThreshold) && 1 <= compactIndex.value <= snapshotIndex
      ensures old(InMemory()) == MemoryOf(s) ==>
        var next := NodeNext(log, s, Snapshot(snapshotThreshold, compactThreshold, outcome));
        && InMemory() == MemoryOf(next)
        && var saved := if file.Some? then SaveFile(s.disk, s.mem.(kvs := file.value)) else s.disk;
        && next.disk == (if recorded then Record(saved, appliedIndex) else saved)
        && next.compacted == (if compactIndex.Some? then Max(s.compacted, compactIndex.value) else s.compacted)
    {
      ok, file, recorded, compactIndex := true, None, false, None;
      if (appliedIndex - snapshotIndex) % U64 <= snapshotThreshold {
        return;
      }
      if outcome.NotSaved? {
        ok := false;
        return;
      }
      file := Some(dataStore.kvs);
      if outcome.FileOnly? {
        ok := false;
        return;
      }
      recorded := true;
      var index := 1;
      if appliedIndex > compactThreshold {
        index := (appliedIndex - compactThreshold) % U64;
      }
      if outcome.NotCompacted? {
        ok := false;
        return;
      }
      compactIndex := Some(index);
      snapshotIndex := appliedIndex;
    }
  }

  /** What ApplyEntries applies of a delivery is what the step Committed applies. */
  lemma DeliveryIsStep(log: seq<Entry>, s: NodeState, first: nat, last: nat)
    requires Enabled(log, s, Committed(first, last)) && s.disk.walEnd <= |log| < U64
    ensures var entries, next := Numbered(log, first, last), NodeNext(log, s, Committed(first, last));
      && Consecutive(entries) && entries != [] && entries[0].index == first && entries[|entries| - 1].index == last
      && (first > s.mem.index + 1 ==> next == s)
      && (first <= s.mem.index + 1 ==>
            && next.mem.index == last
            && next.mem.kvs == ApplyLog(s.mem.kvs, Bodies(entries[s.mem.index + 1 - first..])))
  {
    if first <= s.mem.index + 1 {
      assert Bodies(Numbered(log, first, last)[s.mem.index + 1 - first..]) == log[s.mem.index..last];
    }
  }

  /** What ReplayWAL builds from the newest file and the log behind the newest record is the step Restart. */
  lemma ReplayIsStep(log: seq<Entry>, s: NodeState)
    requires DiskOk(log, s.disk) && Enabled(log, s, Restart)
    ensures var wal, next := Numbered(log, s.disk.recordIndex + 1, s.disk.walEnd), NodeNext(log, s, Restart);
      && (forall i :: 0 <= i < |wal| ==> !Fails(wal[i].entry))
      && next.mem.kvs == ApplyLog(s.disk.file.kvs, Bodies(wal))
      && next.mem.index == next.snapshotIndex == s.disk.recordIndex
  {
    var wal := Numbered(log, s.disk.recordIndex + 1, s.disk.walEnd);
    assert Bodies(wal) == log[s.disk.recordIndex..s.disk.walEnd];
  }
}
