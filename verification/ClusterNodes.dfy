/**
 * Reading the topology from the answer of a data node to CLUSTER NODES (store/cluster.go).
 */
module ClusterNodes {
  import opened SlotRanges
  import opened Topology
  import opened Text

  // ----- One line -----

  datatype Line =
    | MasterLine(node: Node, version: int, ranges: SlotRanges)
    | SlaveLine(node: Node, version: int, masterID: string)

  datatype ParseError = EmptyText | TooFewFields | BadVersion | BadRole | BadSlots | NoVersion
  datatype Parse<+T> = Good(value: T) | Bad(error: ParseError)

  // Flags such as "myself,master" carry the role after the comma.
  function RoleField(flags: string): string {
    var fields := Split(flags, ',');
    if |fields| > 1 then fields[1] else flags
  }

  function ParseFields(f: seq<string>): Parse<Line> {
    if |f| < 7 then Bad(TooFewFields)
    else
      var addr, role, version := Split(f[1], '@')[0], RoleField(f[2]), Atoi(f[6]);
      if version == None then Bad(BadVersion)
      else if role == "master" then
        var ranges := if |f| > 8 then ParseRanges(f[8..]) else Some([]);
        if ranges == None then Bad(BadSlots)
        else Good(MasterLine(Node(f[0], addr, Master), version.value, ranges.value))
      else if role == "slave" then Good(SlaveLine(Node(f[0], addr, Slave), version.value, f[3]))
      else Bad(BadRole)
  }

  function ParseLine(line: string): Parse<Line> { ParseFields(Split(line, ' ')) }

  // ----- What the lines say -----

  // The slaves of a master, in the order of their lines.
  function SlavesOf(lines: seq<Line>, id: string): seq<Node> {
    if lines == [] then []
    else
      var last := lines[|lines| - 1];
      SlavesOf(lines[..|lines| - 1], id) + if last.SlaveLine? && last.masterID == id then [last.node] else []
  }

  function ShardOf(l: Line, lines: seq<Line>): ShardState
    requires l.MasterLine?
  {
    ShardState([l.node] + SlavesOf(lines, l.node.id), l.ranges, -1, None)
  }

  // One shard per master line, with the slaves that `lines` give it.
  function ShardsOf(masters: seq<Line>, lines: seq<Line>): seq<ShardState> {
    if masters == [] then []
    else
      var last := masters[|masters| - 1];
      ShardsOf(masters[..|masters| - 1], lines) + if last.MasterLine? then [ShardOf(last, lines)] else []
  }

  /** Shards in the order of their first slot, shards without slots last. */
  predicate InSlotOrder(shards: seq<ShardState>) {
    forall i, j :: 0 <= i < j < |shards| && shards[j].slotRanges != [] ==>
      shards[i].slotRanges != [] && shards[i].slotRanges[0].start <= shards[j].slotRanges[0].start
  }

  // ----- Sorting: any permutation without a pair in the wrong order -----

  predicate Less(a: ShardState, b: ShardState) {
    if |a.slotRanges| == 0 then false
    else if |b.slotRanges| == 0 then true
    else a.slotRanges[0].start < b.slotRanges[0].start
  }

  predicate SortedByLess(shards: seq<ShardState>) {
    forall i, j :: 0 <= i < j < |shards| ==> !Less(shards[j], shards[i])
  }

  function Insert(s: ShardState, sorted: seq<ShardState>): seq<ShardState> {
    if sorted == [] || !Less(sorted[0], s) then [s] + sorted else [sorted[0]] + Insert(s, sorted[1..])
  }

  lemma {:induction false} InsertKeepsElements(s: ShardState, sorted: seq<ShardState>)
    ensures multiset(Insert(s, sorted)) == multiset(sorted) + multiset{s}
  {
    if sorted != [] && Less(sorted[0], s) {
      InsertKeepsElements(s, sorted[1..]);
      assert sorted == [sorted[0]] + sorted[1..];
    }
  }

  lemma {:induction false} InsertKeepsOrder(s: ShardState, sorted: seq<ShardState>)
    requires SortedByLess(sorted)
    ensures SortedByLess(Insert(s, sorted))
    ensures forall x :: x in Insert(s, sorted) ==> x == s || x in sorted
  {
    if sorted != [] && Less(sorted[0], s) {
      InsertKeepsOrder(s, sorted[1..]);
      var rest := Insert(s, sorted[1..]);
      forall j | 0 <= j < |rest| ensures !Less(rest[j], sorted[0]) { assert rest[j] in rest; }
    }
  }

  // Callers see only that the result is some sorted permutation.
  method SortShards(shards: seq<ShardState>) returns (sorted: seq<ShardState>)
    ensures multiset(sorted) == multiset(shards) && SortedByLess(sorted)
  {
    sorted := [];
    for i := 0 to |shards|
      invariant multiset(sorted) == multiset(shards[..i]) && SortedByLess(sorted)
    {
      InsertKeepsElements(shards[i], sorted);
      InsertKeepsOrder(shards[i], sorted);
      sorted := Insert(shards[i], sorted);
      assert shards[..i + 1] == shards[..i] + [shards[i]];
    }
    assert shards[..|shards|] == shards;
  }

  // ----- Sums over lists do not depend on the order -----

  ghost function Sum<T, U>(f: T -> multiset<U>, xs: seq<T>): multiset<U> {
    if xs == [] then multiset{} else Sum(f, xs[..|xs| - 1]) + f(xs[|xs| - 1])
  }

  lemma {:induction false} SumConcat<T, U>(f: T -> multiset<U>, a: seq<T>, b: seq<T>)
    ensures Sum(f, a + b) == Sum(f, a) + Sum(f, b)
  {
    if b == [] {
      assert a + b == a;
    } else {
      SumConcat(f, a, b[..|b| - 1]);
      assert (a + b)[..|a + b| - 1] == a + b[..|b| - 1];
    }
  }

  lemma SumOne<T, U>(f: T -> multiset<U>, x: T)
    ensures Sum(f, [x]) == f(x)
  {
    assert [x][..0] == [];
  }

  lemma SumNext<T, U>(f: T -> multiset<U>, xs: seq<T>, x: T)
    ensures Sum(f, xs + [x]) == Sum(f, xs) + f(x)
  {
    assert (xs + [x])[..|xs|] == xs;
  }

  lemma SumThree<T, U>(f: T -> multiset<U>, left: seq<T>, x: T, right: seq<T>)
    ensures Sum(f, left + [x] + right) == Sum(f, left + right) + f(x)
  {
    var l, m, r := Sum(f, left), f(x), Sum(f, right);
    SumConcat(f, left, right);
    SumConcat(f, left + [x], right);
    SumConcat(f, left, [x]);
    SumOne(f, x);
    assert l + m + r == l + r + m;
  }

  lemma ElementsThree<T>(left: seq<T>, x: T, right: seq<T>)
    ensures multiset(left + [x] + right) == multiset(left + right) + multiset{x}
  {
    assert multiset(left + [x] + right) == multiset(left) + multiset{x} + multiset(right);
    assert multiset(left + right) == multiset(left) + multiset(right);
  }

  lemma {:induction false} SumPermuted<T, U>(f: T -> multiset<U>, a: seq<T>, b: seq<T>)
    requires multiset(a) == multiset(b)
    ensures Sum(f, a) == Sum(f, b)
  {
    if a == [] {
      assert |multiset(b)| == 0;
    } else {
      var init, x := a[..|a| - 1], a[|a| - 1];
      assert a == init + [x];
      assert x in multiset(b);
      var k :| 0 <= k < |b| && b[k] == x;
      var left, right := b[..k], b[k + 1..];
      assert b == left + [x] + right;
      ElementsThree(left, x, right);
      SumThree(f, left, x, right);
      SameRest(multiset(init), multiset(left + right), x);
      SumPermuted(f, init, left + right);
    }
  }

  lemma SameRest<T>(a: multiset<T>, b: multiset<T>, x: T)
    requires a + multiset{x} == b + multiset{x}
    ensures a == b
  {
    assert a == a + multiset{x} - multiset{x};
    assert b == b + multiset{x} - multiset{x};
  }

  lemma {:induction false} SumOfSingles<T, U>(f: T -> multiset<U>, xs: seq<T>, ys: seq<U>)
    requires |xs| == |ys| && forall i :: 0 <= i < |xs| ==> f(xs[i]) == multiset{ys[i]}
    ensures Sum(f, xs) == multiset(ys)
  {
    if xs != [] {
      var n := |xs| - 1;
      assert xs == xs[..n] + [xs[n]] && ys == ys[..n] + [ys[n]];
      SumOfSingles(f, xs[..n], ys[..n]);
      SumNext(f, xs[..n], xs[n]);
    }
  }

  // ----- Parsing -----

  // The first line that does not parse decides.
  function Collect(parses: seq<Parse<Line>>): (r: Parse<seq<Line>>)
    ensures r.Good? ==> |r.value| == |parses|
  {
    if parses == [] then Good([])
    else
      var init, last := Collect(parses[..|parses| - 1]), parses[|parses| - 1];
      if init.Bad? then init else if last.Bad? then Bad(last.error) else Good(init.value + [last.value])
  }

  function ParseEach(texts: seq<string>): (parses: seq<Parse<Line>>)
    ensures |parses| == |texts|
  {
    seq(|texts|, i requires 0 <= i < |texts| => ParseLine(texts[i]))
  }

  function ParseAll(texts: seq<string>): (r: Parse<seq<Line>>)
    ensures r.Good? ==> |r.value| == |texts|
  {
    Collect(ParseEach(texts))
  }

  lemma {:induction false} BadPrefix(parses: seq<Parse<Line>>, i: nat)
    requires i <= |parses| && Collect(parses[..i]).Bad?
    ensures Collect(parses) == Collect(parses[..i])
  {
    if i == |parses| {
      assert parses[..i] == parses;
    } else {
      assert parses[..|parses| - 1][..i] == parses[..i];
      BadPrefix(parses[..|parses| - 1], i);
    }
  }

  lemma NextParse(parses: seq<Parse<Line>>, i: nat)
    requires i < |parses| && Collect(parses[..i]).Good?
    ensures Collect(parses[..i + 1]) ==
      if parses[i].Bad? then Bad(parses[i].error) else Good(Collect(parses[..i]).value + [parses[i].value])
  {
    assert parses[..i + 1][..i] == parses[..i];
  }

  function Slaves(slaveNodes: map<string, seq<Node>>, id: string): seq<Node> {
    if id in slaveNodes then slaveNodes[id] else []
  }

  ghost predicate Collected(slaveNodes: map<string, seq<Node>>, lines: seq<Line>) {
    forall id :: Slaves(slaveNodes, id) == SlavesOf(lines, id)
  }

  // The variables of the loop over the lines.
  datatype Reading = Reading(shards: seq<ShardState>, slaveNodes: map<string, seq<Node>>, version: int)

  function Read(r: Reading, l: Line): Reading {
    if l.MasterLine? then Reading(r.shards + [ShardState([l.node], l.ranges, -1, None)], r.slaveNodes, l.version)
    else Reading(r.shards, r.slaveNodes[l.masterID := Slaves(r.slaveNodes, l.masterID) + [l.node]], l.version)
  }

  ghost predicate HasRead(r: Reading, lines: seq<Line>) {
    && r.shards == ShardsOf(lines, []) && Collected(r.slaveNodes, lines)
    && r.version == if lines == [] then -1 else lines[|lines| - 1].version
  }

  lemma SlavesNext(lines: seq<Line>, l: Line, id: string)
    ensures SlavesOf(lines + [l], id) ==
      SlavesOf(lines, id) + if l.SlaveLine? && l.masterID == id then [l.node] else []
  {
    assert (lines + [l])[..|lines|] == lines;
  }

  lemma CollectOne(r: Reading, lines: seq<Line>, l: Line)
    requires Collected(r.slaveNodes, lines)
    ensures Collected(Read(r, l).slaveNodes, lines + [l])
  {
    forall id ensures Slaves(Read(r, l).slaveNodes, id) == SlavesOf(lines + [l], id) {
      SlavesNext(lines, l, id);
      assert Slaves(r.slaveNodes, id) == SlavesOf(lines, id);
    }
  }

  lemma ReadOne(r: Reading, lines: seq<Line>, l: Line)
    requires HasRead(r, lines)
    ensures HasRead(Read(r, l), lines + [l])
  {
    CollectOne(r, lines, l);
    assert (lines + [l])[..|lines|] == lines;
    if l.MasterLine? { assert [l.node] + SlavesOf([], l.node.id) == [l.node]; }
  }

  lemma {:induction false} ReadAll(parses: seq<Parse<Line>>, i: nat, r: Reading, lines: seq<Line>)
    requires i < |parses| && Collect(parses[..i]) == Good(lines) && HasRead(r, lines)
    ensures parses[i].Bad? ==> Collect(parses) == Bad(parses[i].error)
    ensures parses[i].Good? ==>
      && Collect(parses[..i + 1]) == Good(lines + [parses[i].value])
      && HasRead(Read(r, parses[i].value), lines + [parses[i].value])
  {
    NextParse(parses, i);
    if parses[i].Bad? { BadPrefix(parses, i + 1); } else { ReadOne(r, lines, parses[i].value); }
  }

  function Attach(s: ShardState, lines: seq<Line>): ShardState {
    if s.nodes == [] then s else s.(nodes := s.nodes + SlavesOf(lines, s.nodes[0].id))
  }

  lemma {:induction false} AttachBare(masters: seq<Line>, lines: seq<Line>)
    ensures var bare, full := ShardsOf(masters, []), ShardsOf(masters, lines);
      |bare| == |full| && forall i :: 0 <= i < |bare| ==> bare[i].nodes != [] && Attach(bare[i], lines) == full[i]
  {
    if masters != [] { AttachBare(masters[..|masters| - 1], lines); }
  }

  lemma AttachSorted(sorted: seq<ShardState>, attached: seq<ShardState>, lines: seq<Line>)
    requires multiset(sorted) == multiset(ShardsOf(lines, [])) && SortedByLess(sorted)
    requires |attached| == |sorted| && forall i :: 0 <= i < |sorted| ==> attached[i] == Attach(sorted[i], lines)
    ensures multiset(attached) == multiset(ShardsOf(lines, lines)) && InSlotOrder(attached)
  {
    AttachPermuted(sorted, attached, lines);
    forall i, j | 0 <= i < j < |attached| && attached[j].slotRanges != []
      ensures attached[i].slotRanges != [] && attached[i].slotRanges[0].start <= attached[j].slotRanges[0].start
    {
      assert !Less(sorted[j], sorted[i]);
    }
  }

  lemma AttachPermuted(sorted: seq<ShardState>, attached: seq<ShardState>, lines: seq<Line>)
    requires multiset(sorted) == multiset(ShardsOf(lines, []))
    requires |attached| == |sorted| && forall i :: 0 <= i < |sorted| ==> attached[i] == Attach(sorted[i], lines)
    ensures multiset(attached) == multiset(ShardsOf(lines, lines))
  {
    var f := (s: ShardState) => multiset{Attach(s, lines)};
    AttachBare(lines, lines);
    SumOfSingles(f, sorted, attached);
    SumOfSingles(f, ShardsOf(lines, []), ShardsOf(lines, lines));
    SumPermuted(f, sorted, ShardsOf(lines, []));
  }

  method ReadLines(texts: seq<string>) returns (r: Parse<Reading>)
    ensures match ParseAll(texts)
            case Bad(e) => r == Bad(e)
            case Good(lines) => r.Good? && HasRead(r.value, lines)
  {
    ghost var lines: seq<Line>, parses := [], ParseEach(texts);
    var shards: seq<ShardState>, slaveNodes: map<string, seq<Node>>, clusterVer := [], map[], -1;
    for i := 0 to |texts|
      invariant Collect(parses[..i]) == Good(lines)
      invariant HasRead(Reading(shards, slaveNodes, clusterVer), lines)
    {
      ReadAll(parses, i, Reading(shards, slaveNodes, clusterVer), lines);
      var parsed := ParseLine(texts[i]);
      if parsed.Bad? {
        return Bad(parsed.error);
      }
      var l := parsed.value;
      clusterVer := l.version;
      if l.MasterLine? {
        shards := shards + [ShardState([l.node], l.ranges, -1, None)];
      } else {
        slaveNodes := slaveNodes[l.masterID := Slaves(slaveNodes, l.masterID) + [l.node]];
      }
      lines := lines + [l];
    }
    assert parses[..|texts|] == parses;
    return Good(Reading(shards, slaveNodes, clusterVer));
  }

  /**
   * The version is that of the last line; there is one shard per master line, holding the master
   * and then exactly the slaves that name it, wherever their lines stand; and the shards are in
   * slot order, whichever order the sort chooses between equals.
   */
  method ParseCluster(text: string) returns (r: Parse<ClusterState>)
    ensures text == "" ==> r == Bad(EmptyText)
    ensures text != "" ==>
      match ParseAll(Split(text, '\n'))
      case Bad(e) => r == Bad(e)
      case Good(lines) =>
        if lines[|lines| - 1].version == -1 then r == Bad(NoVersion)
        else r.Good? && IsParse(lines, r.value)
  {
    if |text| == 0 {
      return Bad(EmptyText);
    }
    var read := ReadLines(Split(text, '\n'));
    if read.Bad? {
      return Bad(read.error);
    }
    var Reading(shards, slaveNodes, clusterVer) := read.value;
    if clusterVer == -1 {
      return Bad(NoVersion);
    }
    ghost var lines := ParseAll(Split(text, '\n')).value;
    var attached := SortAndAttach(shards, slaveNodes, lines);
    return Good(ClusterState("", clusterVer, attached));
  }

  ghost predicate IsParse(lines: seq<Line>, c: ClusterState) {
    && lines != [] && c.version == lines[|lines| - 1].version
    && multiset(c.shards) == multiset(ShardsOf(lines, lines))
    && InSlotOrder(c.shards)
  }

  lemma SortedHaveMasters(sorted: seq<ShardState>, lines: seq<Line>)
    requires multiset(sorted) == multiset(ShardsOf(lines, []))
    ensures forall i :: 0 <= i < |sorted| ==> sorted[i].nodes != []
  {
    AttachBare(lines, []);
    forall i | 0 <= i < |sorted| ensures sorted[i].nodes != [] {
      assert sorted[i] in multiset(sorted);
      assert sorted[i] in ShardsOf(lines, []);
    }
  }

  function AttachFrom(s: ShardState, slaveNodes: map<string, seq<Node>>): ShardState {
    if s.nodes == [] then s else s.(nodes := s.nodes + Slaves(slaveNodes, s.nodes[0].id))
  }

  method AttachSlaves(sorted: seq<ShardState>, slaveNodes: map<string, seq<Node>>) returns (attached: seq<ShardState>)
    requires forall i :: 0 <= i < |sorted| ==> sorted[i].nodes != []
    ensures |attached| == |sorted| && forall i :: 0 <= i < |sorted| ==> attached[i] == AttachFrom(sorted[i], slaveNodes)
  {
    attached := [];
    for i := 0 to |sorted|
      invariant |attached| == i && forall k :: 0 <= k < i ==> attached[k] == AttachFrom(sorted[k], slaveNodes)
    {
      var master := sorted[i].nodes[0];
      attached := attached + [sorted[i].(nodes := sorted[i].nodes + Slaves(slaveNodes, master.id))];
    }
  }

  method SortAndAttach(shards: seq<ShardState>, slaveNodes: map<string, seq<Node>>, ghost lines: seq<Line>)
    returns (attached: seq<ShardState>)
    requires shards == ShardsOf(lines, []) && Collected(slaveNodes, lines)
    ensures multiset(attached) == multiset(ShardsOf(lines, lines)) && InSlotOrder(attached)
  {
    var sorted := SortShards(shards);
    SortedHaveMasters(sorted, lines);
    attached := AttachSlaves(sorted, slaveNodes);
    forall i | 0 <= i < |sorted| ensures attached[i] == Attach(sorted[i], lines) {
      assert Slaves(slaveNodes, sorted[i].nodes[0].id) == SlavesOf(lines, sorted[i].nodes[0].id);
    }
    AttachSorted(sorted, attached, lines);
  }
}
