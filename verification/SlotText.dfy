/**
 * The topology text that the controller sends to data nodes (store/cluster_shard.go,
 * store/cluster.go): one line per node, and splitting it recovers the topology.
 */
module SlotText {
  import opened SlotRanges
  import opened Topology
  import opened Failover
  import opened Text

  function RoleName(role: Role): string {
    match role
    case Master => "master"
    case Slave => "slave"
    case OtherRole(name) => name
  }

  // strings.Replace(addr, ":", " ", 1)
  function SpaceForColon(addr: string): string {
    var i := IndexOf(addr, ':');
    if i == -1 then addr else addr[..i] + " " + addr[i + 1..]
  }

  function RangesText(rs: SlotRanges): string {
    if rs == [] then ""
    else if |rs| == 1 then RangeString(rs[0])
    else RangesText(rs[..|rs| - 1]) + " " + RangeString(rs[|rs| - 1])
  }

  function NodeLine(nodes: seq<Node>, master: int, rs: SlotRanges, i: int): string
    requires 0 <= master < |nodes| && 0 <= i < |nodes|
  {
    HeadText(nodes[i]) + [' '] + (if i == master then MasterText(rs) else SlaveText(nodes[master].id)) + ['\n']
  }

  function HeadText(n: Node): string { n.id + [' '] + SpaceForColon(n.addr) }
  function MasterText(rs: SlotRanges): string { RoleName(Master) + [' '] + "-" + [' '] + RangesText(rs) }
  function SlaveText(masterID: string): string { RoleName(Slave) + [' '] + masterID }

  function NodeLines(nodes: seq<Node>, master: int, rs: SlotRanges): (lines: seq<string>)
    requires 0 <= master < |nodes|
    ensures |lines| == |nodes|
  {
    seq(|nodes|, i requires 0 <= i < |nodes| => NodeLine(nodes, master, rs, i))
  }

  function Concat(pieces: seq<string>): string {
    if pieces == [] then "" else Concat(pieces[..|pieces| - 1]) + pieces[|pieces| - 1]
  }

  lemma ConcatNext(pieces: seq<string>, i: nat)
    requires i < |pieces|
    ensures Concat(pieces[..i + 1]) == Concat(pieces[..i]) + pieces[i]
  {
    assert pieces[..i + 1][..i] == pieces[..i];
  }

  // None where the shard has no master.
  function ShardText(s: ShardState): Option<string> {
    var m := MasterIndex(s.nodes);
    if m == -1 then None else Some(Concat(NodeLines(s.nodes, m, s.slotRanges)))
  }

  function ShardTexts(shards: seq<ShardState>): (texts: seq<Option<string>>)
    ensures |texts| == |shards|
  {
    seq(|shards|, i requires 0 <= i < |shards| => ShardText(shards[i]))
  }

  function ConcatAll(texts: seq<Option<string>>): Option<string> {
    if texts == [] then Some("")
    else
      var init, last := ConcatAll(texts[..|texts| - 1]), texts[|texts| - 1];
      if init == None || last == None then None else Some(init.value + last.value)
  }

  function ClusterText(shards: seq<ShardState>): Option<string> {
    ConcatAll(ShardTexts(shards))
  }

  // ----- The builders -----

  method WriteRanges(rs: SlotRanges) returns (text: string)
    ensures text == RangesText(rs)
  {
    text := "";
    for j := 0 to |rs|
      invariant text == RangesText(rs[..j]) + if 0 < j < |rs| then " " else ""
    {
      assert rs[..j + 1][..j] == rs[..j];
      text := text + RangeString(rs[j]);
      if j != |rs| - 1 {
        text := text + " ";
      }
    }
    assert rs[..|rs|] == rs;
  }

  method WriteNode(nodes: seq<Node>, master: int, rs: SlotRanges, i: int) returns (line: string)
    requires 0 <= master < |nodes| && 0 <= i < |nodes|
    ensures line == NodeLine(nodes, master, rs, i)
  {
    line := nodes[i].id + [' '] + SpaceForColon(nodes[i].addr) + [' '];
    if i == master {
      var ranges := WriteRanges(rs);
      line := line + (RoleName(Master) + [' '] + "-" + [' '] + ranges);
    } else {
      line := line + (RoleName(Slave) + [' '] + nodes[master].id);
    }
    line := line + ['\n'];
  }

  method WriteNodes(nodes: seq<Node>, master: int, rs: SlotRanges) returns (builder: string)
    requires 0 <= master < |nodes|
    ensures builder == Concat(NodeLines(nodes, master, rs))
  {
    ghost var lines := NodeLines(nodes, master, rs);
    builder := "";
    for i := 0 to |nodes|
      invariant builder == Concat(lines[..i])
    {
      ConcatNext(lines, i);
      var line := WriteNode(nodes, master, rs, i);
      builder := builder + line;
    }
    assert lines[..|nodes|] == lines;
  }

  method ToSlotsString(s: ShardState) returns (text: Option<string>)
    ensures text == ShardText(s)
  {
    var master := FindMaster(s.nodes);
    if master == -1 {
      return None;
    }
    var builder := WriteNodes(s.nodes, master, s.slotRanges);
    return Some(builder);
  }

  method ToSlotString(c: ClusterState) returns (text: Option<string>)
    ensures text == ClusterText(c.shards)
  {
    ghost var texts := ShardTexts(c.shards);
    var builder := "";
    for i := 0 to |c.shards|
      invariant ConcatAll(texts[..i]) == Some(builder)
    {
      ConcatAllNext(texts, i);
      var shard := ToSlotsString(c.shards[i]);
      if shard == None {
        return None;
      }
      builder := builder + shard.value;
    }
    assert texts[..|c.shards|] == texts;
    return Some(builder);
  }

  lemma ConcatAllNext(texts: seq<Option<string>>, i: nat)
    requires i < |texts| && ConcatAll(texts[..i]).Some?
    ensures texts[i] == None ==> ConcatAll(texts) == None
    ensures texts[i].Some? ==> ConcatAll(texts[..i + 1]) == Some(ConcatAll(texts[..i]).value + texts[i].value)
  {
    assert texts[..i + 1][..i] == texts[..i];
    SomeIffAllSome(texts);
  }

  lemma {:induction false} SomeIffAllSome(texts: seq<Option<string>>)
    ensures ConcatAll(texts).Some? <==> forall i :: 0 <= i < |texts| ==> texts[i].Some?
  {
    if texts != [] { SomeIffAllSome(texts[..|texts| - 1]); }
  }

  // ----- Reading the text back -----

  // What one line says about a node: for the master "-" and the ranges, for a slave its master.
  datatype Record = Record(id: string, addr: string, role: string, masterID: string, ranges: SlotRanges)

  function ReadFields(f: seq<string>): Option<Record> {
    if |f| < 5 then None
    else
      var ranges := if f[5..] == [""] then Some([]) else ParseRanges(f[5..]);
      if ranges == None then None else Some(Record(f[0], f[1] + ":" + f[2], f[3], f[4], ranges.value))
  }

  function AllSome<T(==)>(xs: seq<Option<T>>): Option<seq<T>> {
    if exists i :: 0 <= i < |xs| && xs[i] == None then None
    else Some(seq(|xs|, i requires 0 <= i < |xs| && xs[i].Some? => xs[i].value))
  }

  function ReadEach(lines: seq<string>): seq<Option<Record>> {
    seq(|lines|, i requires 0 <= i < |lines| => ReadFields(Split(lines[i], ' ')))
  }

  function ReadLines(lines: seq<string>): Option<seq<Record>> {
    AllSome(ReadEach(lines))
  }

  // Every line ends in a newline, so the last piece is empty.
  function ReadText(text: string): Option<seq<Record>> {
    var lines := Split(text, '\n');
    ReadLines(lines[..|lines| - 1])
  }

  function RecordOf(s: ShardState, master: int, i: int): Record
    requires 0 <= master < |s.nodes| && 0 <= i < |s.nodes|
  {
    if i == master then Record(s.nodes[i].id, s.nodes[i].addr, RoleName(Master), "-", s.slotRanges)
    else Record(s.nodes[i].id, s.nodes[i].addr, RoleName(Slave), s.nodes[master].id, [])
  }

  function ShardRecords(s: ShardState): seq<Record> {
    var m := MasterIndex(s.nodes);
    if m == -1 then [] else seq(|s.nodes|, i requires 0 <= i < |s.nodes| => RecordOf(s, m, i))
  }

  function RoleNamed(name: string): Role {
    if name == "master" then Master else if name == "slave" then Slave else OtherRole(name)
  }

  function NodeOf(r: Record): Node { Node(r.id, r.addr, RoleNamed(r.role)) }

  predicate TwoRoles(nodes: seq<Node>) {
    forall n :: n in nodes ==> n.role == Master || n.role == Slave
  }

  /** The lines name every node with its own id, address and role exactly when the shard has one master. */
  lemma NodesRecoveredIff(s: ShardState)
    requires TwoRoles(s.nodes) && MasterIndex(s.nodes) != -1
    ensures |ShardRecords(s)| == |s.nodes|
    ensures (forall i :: 0 <= i < |s.nodes| ==> NodeOf(ShardRecords(s)[i]) == s.nodes[i]) <==> OneMaster(s.nodes)
  {
    var m, records := MasterIndex(s.nodes), ShardRecords(s);
    forall i | 0 <= i < |s.nodes| ensures NodeOf(records[i]) == s.nodes[i] <==> (s.nodes[i].IsMaster() <==> i == m) {
      assert "master"[0] != "slave"[0];
      assert s.nodes[i] in s.nodes;
    }
    if forall i :: 0 <= i < |s.nodes| ==> NodeOf(records[i]) == s.nodes[i] {
      assert SoleMaster(s.nodes, m);
    }
  }

  function Records(shards: seq<ShardState>): seq<Record> {
    if shards == [] then [] else Records(shards[..|shards| - 1]) + ShardRecords(shards[|shards| - 1])
  }

  predicate HostPort(addr: string) { Plain(addr) && ':' in addr }

  predicate Writable(s: ShardState) {
    && MasterIndex(s.nodes) != -1 && InBounds(s.slotRanges)
    && forall n :: n in s.nodes ==> Plain(n.id) && HostPort(n.addr)
  }

  // ----- The fields of a line -----

  function HeadFields(n: Node): seq<string> {
    var colon := IndexOf(n.addr, ':');
    if colon == -1 then [n.id, n.addr] else [n.id, n.addr[..colon], n.addr[colon + 1..]]
  }

  function MasterFields(rs: SlotRanges): seq<string> {
    [RoleName(Master), "-"] + if rs == [] then [""] else RangeFields(rs)
  }

  function SlaveFields(masterID: string): seq<string> { [RoleName(Slave), masterID] }

  function Fields(nodes: seq<Node>, master: int, rs: SlotRanges, i: int): seq<string>
    requires 0 <= master < |nodes| && 0 <= i < |nodes|
  {
    HeadFields(nodes[i]) + if i == master then MasterFields(rs) else SlaveFields(nodes[master].id)
  }

  lemma {:induction false} JoinConcat(a: seq<string>, b: seq<string>, c: char)
    requires a != [] && b != []
    ensures Join(a + b, c) == Join(a, c) + [c] + Join(b, c)
  {
    if |a| == 1 {
      assert (a + b)[1..] == b;
    } else {
      JoinConcat(a[1..], b, c);
      assert (a + b)[1..] == a[1..] + b;
    }
  }

  lemma {:induction false} RangesTextIsJoin(rs: SlotRanges)
    requires rs != []
    ensures RangesText(rs) == Join(RangeFields(rs), ' ')
  {
    if |rs| > 1 {
      var init, last := rs[..|rs| - 1], RangeString(rs[|rs| - 1]);
      RangesTextIsJoin(init);
      assert RangeFields(rs) == RangeFields(init) + [last];
      JoinConcat(RangeFields(init), [last], ' ');
      assert Join([last], ' ') == last;
    }
  }

  lemma JoinPair(a: string, b: string, c: char)
    ensures Join([a, b], c) == a + [c] + b
  {
    assert [a, b][1..] == [b];
  }

  lemma HeadIsJoin(n: Node)
    ensures HeadText(n) == Join(HeadFields(n), ' ')
  {
    var colon := IndexOf(n.addr, ':');
    if colon == -1 {
      JoinPair(n.id, n.addr, ' ');
    } else {
      JoinPair(n.addr[..colon], n.addr[colon + 1..], ' ');
      JoinConcat([n.id], [n.addr[..colon], n.addr[colon + 1..]], ' ');
      assert [n.id] + [n.addr[..colon], n.addr[colon + 1..]] == HeadFields(n);
    }
  }

  lemma MasterIsJoin(rs: SlotRanges)
    ensures MasterText(rs) == Join(MasterFields(rs), ' ')
  {
    var role := RoleName(Master);
    JoinPair(role, "-", ' ');
    if rs == [] {
      JoinConcat([role, "-"], [""], ' ');
    } else {
      RangesTextIsJoin(rs);
      JoinConcat([role, "-"], RangeFields(rs), ' ');
    }
  }

  lemma LineIsJoin(nodes: seq<Node>, master: int, rs: SlotRanges, i: int)
    requires 0 <= master < |nodes| && 0 <= i < |nodes|
    ensures NodeLine(nodes, master, rs, i) == Join(Fields(nodes, master, rs, i), ' ') + ['\n']
  {
    HeadIsJoin(nodes[i]);
    MasterIsJoin(rs);
    JoinPair(RoleName(Slave), nodes[master].id, ' ');
    JoinConcat(HeadFields(nodes[i]), if i == master then MasterFields(rs) else SlaveFields(nodes[master].id), ' ');
  }

  // ----- Recovering the records -----

  lemma HeadFieldsPlain(n: Node)
    requires Plain(n.id) && Plain(n.addr)
    ensures forall f :: f in HeadFields(n) ==> Plain(f)
  {}

  lemma MasterFieldsPlain(rs: SlotRanges)
    requires InBounds(rs)
    ensures forall f :: f in MasterFields(rs) ==> Plain(f)
  {
    RangeFieldsPlain(rs);
  }

  lemma FieldsPlain(s: ShardState, i: int)
    requires Writable(s) && 0 <= i < |s.nodes|
    ensures forall f :: f in Fields(s.nodes, MasterIndex(s.nodes), s.slotRanges, i) ==> Plain(f)
  {
    var master := s.nodes[MasterIndex(s.nodes)];
    assert s.nodes[i] in s.nodes && master in s.nodes;
    HeadFieldsPlain(s.nodes[i]);
    MasterFieldsPlain(s.slotRanges);
    assert forall f :: f in SlaveFields(master.id) ==> Plain(f);
  }

  lemma FieldsOfRecord(f: seq<string>, r: Record)
    requires |f| >= 5 && f[0] == r.id && f[1] + ":" + f[2] == r.addr && f[3] == r.role && f[4] == r.masterID
    requires if f[5..] == [""] then r.ranges == [] else ParseRanges(f[5..]) == Some(r.ranges)
    ensures ReadFields(f) == Some(r)
  {}

  lemma FieldsOfParts(head: seq<string>, tail: seq<string>, r: Record)
    requires |head| == 3 && |tail| >= 2 && head[0] == r.id && head[1] + ":" + head[2] == r.addr
    requires tail[0] == r.role && tail[1] == r.masterID
    requires if tail[2..] == [""] then r.ranges == [] else ParseRanges(tail[2..]) == Some(r.ranges)
    ensures ReadFields(head + tail) == Some(r)
  {
    assert (head + tail)[5..] == tail[2..];
    FieldsOfRecord(head + tail, r);
  }

  lemma HeadFieldsBack(n: Node)
    requires HostPort(n.addr)
    ensures var f := HeadFields(n); |f| == 3 && f[0] == n.id && f[1] + ":" + f[2] == n.addr
  {
    var i := IndexOf(n.addr, ':');
    assert n.addr == n.addr[..i] + ":" + n.addr[i + 1..];
  }

  lemma MasterFieldsBack(rs: SlotRanges)
    requires InBounds(rs)
    ensures var f := MasterFields(rs);
      && |f| >= 2 && f[0] == RoleName(Master) && f[1] == "-"
      && if f[2..] == [""] then rs == [] else ParseRanges(f[2..]) == Some(rs)
  {
    var f := MasterFields(rs);
    if rs == [] {
      assert f[2..] == [""];
    } else {
      assert f[2..] == RangeFields(rs);
      RangeStringPlain(rs[0]);
      ParseRangesBack(rs);
    }
  }

  lemma ReadFieldsBack(s: ShardState, i: int)
    requires Writable(s) && 0 <= i < |s.nodes|
    ensures ReadFields(Fields(s.nodes, MasterIndex(s.nodes), s.slotRanges, i))
              == Some(RecordOf(s, MasterIndex(s.nodes), i))
  {
    var m := MasterIndex(s.nodes);
    var head, tail := HeadFields(s.nodes[i]), if i == m then MasterFields(s.slotRanges) else SlaveFields(s.nodes[m].id);
    assert s.nodes[i] in s.nodes;
    HeadFieldsBack(s.nodes[i]);
    if i == m { MasterFieldsBack(s.slotRanges); }
    FieldsOfParts(head, tail, RecordOf(s, m, i));
  }

  lemma ReadLineBack(s: ShardState, i: int)
    requires Writable(s) && 0 <= i < |s.nodes|
    ensures var line := Join(Fields(s.nodes, MasterIndex(s.nodes), s.slotRanges, i), ' ');
      && NodeLine(s.nodes, MasterIndex(s.nodes), s.slotRanges, i) == line + ['\n']
      && '\n' !in line
      && ReadFields(Split(line, ' ')) == Some(RecordOf(s, MasterIndex(s.nodes), i))
  {
    var f := Fields(s.nodes, MasterIndex(s.nodes), s.slotRanges, i);
    LineIsJoin(s.nodes, MasterIndex(s.nodes), s.slotRanges, i);
    FieldsPlain(s, i);
    SplitJoin(f, ' ');
    JoinAvoids(f, ' ', '\n');
    ReadFieldsBack(s, i);
  }

  // A text of whole lines: each line ends in a newline.
  function Unlines(lines: seq<string>): string {
    if lines == [] then "" else Unlines(lines[..|lines| - 1]) + (lines[|lines| - 1] + ['\n'])
  }

  lemma {:induction false} UnlinesConcat(a: seq<string>, b: seq<string>)
    ensures Unlines(a + b) == Unlines(a) + Unlines(b)
  {
    if b == [] {
      assert a + b == a;
    } else {
      var init, last := b[..|b| - 1], b[|b| - 1] + ['\n'];
      UnlinesConcat(a, init);
      assert (a + b)[..|a + b| - 1] == a + init;
      assert Unlines(a) + (Unlines(init) + last) == Unlines(a) + Unlines(init) + last;
    }
  }

  lemma {:induction false} UnlinesIsJoin(lines: seq<string>)
    ensures Unlines(lines) == Join(lines + [""], '\n')
  {
    if lines != [] {
      var init, last := lines[..|lines| - 1], lines[|lines| - 1];
      UnlinesIsJoin(init);
      if init == [] {
        assert lines + [""] == [last, ""];
        JoinPair(last, "", '\n');
      } else {
        JoinConcat(init, [""], '\n');
        JoinConcat(init, [last, ""], '\n');
        JoinPair(last, "", '\n');
        assert lines + [""] == init + [last, ""];
      }
    }
  }

  // Every line reads as its record.
  predicate ReadsAs(lines: seq<string>, records: seq<Record>) {
    && |lines| == |records|
    && forall i :: 0 <= i < |lines| ==> ReadFields(Split(lines[i], ' ')) == Some(records[i])
  }

  lemma ReadLinesIff(lines: seq<string>, records: seq<Record>)
    ensures ReadLines(lines) == Some(records) <==> ReadsAs(lines, records)
  {
    var each := ReadEach(lines);
    assert forall i :: 0 <= i < |lines| ==> each[i] == ReadFields(Split(lines[i], ' '));
    if ReadsAs(lines, records) {
      assert AllSome(each).Some? && AllSome(each).value == records;
    }
  }

  lemma ReadsAsConcat(a: seq<string>, b: seq<string>, x: seq<Record>, y: seq<Record>)
    requires |a| == |x| && |b| == |y|
    ensures ReadsAs(a + b, x + y) <==> ReadsAs(a, x) && ReadsAs(b, y)
  {
    if ReadsAs(a + b, x + y) {
      forall i | 0 <= i < |a| ensures ReadFields(Split(a[i], ' ')) == Some(x[i]) {
        assert (a + b)[i] == a[i] && (x + y)[i] == x[i];
      }
      forall i | 0 <= i < |b| ensures ReadFields(Split(b[i], ' ')) == Some(y[i]) {
        assert (a + b)[|a| + i] == b[i] && (x + y)[|a| + i] == y[i];
      }
    }
  }

  lemma {:induction false} ConcatIsUnlines(pieces: seq<string>, lines: seq<string>)
    requires |pieces| == |lines| && forall i :: 0 <= i < |lines| ==> pieces[i] == lines[i] + ['\n']
    ensures Concat(pieces) == Unlines(lines)
  {
    if lines != [] { ConcatIsUnlines(pieces[..|lines| - 1], lines[..|lines| - 1]); }
  }

  predicate NoNewlines(lines: seq<string>) { forall l :: l in lines ==> '\n' !in l }

  lemma NoNewlinesConcat(a: seq<string>, b: seq<string>)
    ensures NoNewlines(a + b) <==> NoNewlines(a) && NoNewlines(b)
  {
    assert forall l :: l in a + b <==> l in a || l in b;
  }

  /** A text of n lines has n newlines only if no line contains one. */
  lemma {:induction false} UnlinesCount(lines: seq<string>)
    ensures CountOf(Unlines(lines), '\n') >= |lines|
    ensures CountOf(Unlines(lines), '\n') == |lines| ==> NoNewlines(lines)
  {
    if lines != [] {
      var init, last := lines[..|lines| - 1], lines[|lines| - 1];
      UnlinesCount(init);
      CountConcat(Unlines(init), last + ['\n'], '\n');
      CountConcat(last, ['\n'], '\n');
      CountZeroIff(last, '\n');
      assert forall l :: l in lines <==> l in init || l == last;
    }
  }

  function LineBodies(s: ShardState): seq<string> {
    var m := MasterIndex(s.nodes);
    if m == -1 then []
    else seq(|s.nodes|, i requires 0 <= i < |s.nodes| => Join(Fields(s.nodes, m, s.slotRanges, i), ' '))
  }

  lemma ShardTextIsLines(s: ShardState)
    requires MasterIndex(s.nodes) != -1
    ensures ShardText(s) == Some(Unlines(LineBodies(s)))
  {
    var m := MasterIndex(s.nodes);
    var pieces, lines := NodeLines(s.nodes, m, s.slotRanges), LineBodies(s);
    forall i | 0 <= i < |lines| ensures pieces[i] == lines[i] + ['\n'] {
      LineIsJoin(s.nodes, m, s.slotRanges, i);
    }
    ConcatIsUnlines(pieces, lines);
  }

  // What a record of a line without newlines can say.
  lemma RecordIsPlain(line: string, r: Record)
    requires '\n' !in line && ReadFields(Split(line, ' ')) == Some(r)
    ensures Plain(r.id) && HostPort(r.addr) && InBounds(r.ranges)
  {
    var f := Split(line, ' ');
    SplitPieces(line, ' ');
    assert f[0] in f && f[1] in f && f[2] in f;
    assert r.addr[|f[1]|] == ':';
    if f[5..] != [""] { ParsedRangesValid(f[5..]); }
  }

  /** The lines of a shard read as its records exactly when its fields can be told apart. */
  lemma ShardReadsIff(s: ShardState)
    requires MasterIndex(s.nodes) != -1
    ensures |LineBodies(s)| == |ShardRecords(s)|
    ensures NoNewlines(LineBodies(s)) && ReadsAs(LineBodies(s), ShardRecords(s)) <==> Writable(s)
  {
    var m, lines, records := MasterIndex(s.nodes), LineBodies(s), ShardRecords(s);
    if Writable(s) {
      forall i | 0 <= i < |lines| ensures '\n' !in lines[i] && ReadFields(Split(lines[i], ' ')) == Some(records[i]) {
        ReadLineBack(s, i);
      }
    }
    if NoNewlines(lines) && ReadsAs(lines, records) {
      forall i | 0 <= i < |s.nodes|
        ensures Plain(s.nodes[i].id) && HostPort(s.nodes[i].addr) && InBounds(records[i].ranges)
      {
        assert lines[i] in lines;
        RecordIsPlain(lines[i], records[i]);
      }
      assert records[m].ranges == s.slotRanges;
    }
  }

  function AllLines(shards: seq<ShardState>): seq<string> {
    if shards == [] then [] else AllLines(shards[..|shards| - 1]) + LineBodies(shards[|shards| - 1])
  }

  predicate AllWritable(shards: seq<ShardState>) {
    forall s :: s in shards ==> Writable(s)
  }

  predicate AllHaveMasters(shards: seq<ShardState>) {
    forall s :: s in shards ==> MasterIndex(s.nodes) != -1
  }

  lemma {:induction false} AllReadIff(shards: seq<ShardState>)
    requires AllHaveMasters(shards)
    ensures |AllLines(shards)| == |Records(shards)|
    ensures NoNewlines(AllLines(shards)) && ReadsAs(AllLines(shards), Records(shards)) <==> AllWritable(shards)
  {
    if shards != [] {
      var init, last := shards[..|shards| - 1], shards[|shards| - 1];
      assert forall s :: s in shards <==> s in init || s == last;
      AllReadIff(init);
      ShardReadsIff(last);
      NoNewlinesConcat(AllLines(init), LineBodies(last));
      ReadsAsConcat(AllLines(init), LineBodies(last), Records(init), ShardRecords(last));
    }
  }

  lemma ConcatAllSnoc(texts: seq<Option<string>>, t: string)
    requires ConcatAll(texts).Some?
    ensures ConcatAll(texts + [Some(t)]) == Some(ConcatAll(texts).value + t)
  {
    assert (texts + [Some(t)])[..|texts|] == texts;
  }

  lemma ClusterTextSnoc(shards: seq<ShardState>, s: ShardState)
    requires ClusterText(shards).Some? && ShardText(s).Some?
    ensures ClusterText(shards + [s]) == Some(ClusterText(shards).value + ShardText(s).value)
  {
    assert ShardTexts(shards + [s]) == ShardTexts(shards) + [Some(ShardText(s).value)];
    ConcatAllSnoc(ShardTexts(shards), ShardText(s).value);
  }

  lemma {:induction false} TextsAreLines(shards: seq<ShardState>)
    requires AllHaveMasters(shards)
    ensures ClusterText(shards) == Some(Unlines(AllLines(shards)))
  {
    if shards != [] {
      var init, last := shards[..|shards| - 1], shards[|shards| - 1];
      assert shards == init + [last];
      TextsAreLines(init);
      ShardTextIsLines(last);
      ClusterTextSnoc(init, last);
      UnlinesConcat(AllLines(init), LineBodies(last));
      assert AllLines(shards) == AllLines(init) + LineBodies(last);
    }
  }

  /**
   * Splitting the text on newlines and spaces recovers every node of every shard, in order, with
   * id, address, role, master and ranges, exactly when all ranges are valid, no id and no address
   * contains a blank or a newline, and every address contains a colon.
   */
  lemma TextRoundTripIff(shards: seq<ShardState>)
    requires AllHaveMasters(shards)
    ensures ClusterText(shards).Some?
    ensures ReadText(ClusterText(shards).value) == Some(Records(shards)) <==> AllWritable(shards)
  {
    var lines, records := AllLines(shards), Records(shards);
    TextsAreLines(shards);
    AllReadIff(shards);
    UnlinesCount(lines);
    SplitCount(Unlines(lines), '\n');
    if NoNewlines(lines) {
      ReadTextOfLines(lines);
      ReadLinesIff(lines, records);
    } else {
      var pieces := Split(Unlines(lines), '\n');
      ReadLinesIff(pieces[..|pieces| - 1], records);
    }
  }

  lemma ReadTextOfLines(lines: seq<string>)
    requires NoNewlines(lines)
    ensures ReadText(Unlines(lines)) == ReadLines(lines)
  {
    UnlinesIsJoin(lines);
    SplitJoin(lines + [""], '\n');
    assert (lines + [""])[..|lines|] == lines;
  }

  /** There is a text exactly when every shard has a master. */
  lemma TextIffMasters(shards: seq<ShardState>)
    ensures ClusterText(shards).Some? <==> forall i :: 0 <= i < |shards| ==> MasterIndex(shards[i].nodes) != -1
  {
    var texts := ShardTexts(shards);
    SomeIffAllSome(texts);
    forall i | 0 <= i < |shards| ensures texts[i].Some? <==> MasterIndex(shards[i].nodes) != -1 {}
  }
}
