/**
 * What a topology read from CLUSTER NODES says about the lines it was read from
 * (store/cluster.go).
 */
module ClusterNodesLaws {
  import opened SlotRanges
  import opened Topology
  import opened Text
  import opened ClusterNodes

  // ----- Each slave joins the shard of its master -----

  lemma {:induction false} SlavesOfIff(lines: seq<Line>, id: string, n: Node)
    ensures n in SlavesOf(lines, id) <==> exists l :: l in lines && l.SlaveLine? && l.masterID == id && l.node == n
  {
    if lines != [] {
      SlavesOfIff(lines[..|lines| - 1], id, n);
      assert forall l :: l in lines <==> l in lines[..|lines| - 1] || l == lines[|lines| - 1];
    }
  }

  lemma {:induction false} ShardsOfIff(masters: seq<Line>, lines: seq<Line>, s: ShardState)
    ensures s in ShardsOf(masters, lines) <==> exists l :: l in masters && l.MasterLine? && s == ShardOf(l, lines)
  {
    if masters != [] {
      ShardsOfIff(masters[..|masters| - 1], lines, s);
      assert forall l :: l in masters <==> l in masters[..|masters| - 1] || l == masters[|masters| - 1];
    }
  }

  /** The shards are those of the master lines, and a shard's slaves are those whose lines name its master. */
  lemma SlavesJoinTheirMaster(lines: seq<Line>, c: ClusterState, s: ShardState)
    requires IsParse(lines, c)
    ensures s in c.shards <==> exists l :: l in lines && l.MasterLine? && s == ShardOf(l, lines)
    ensures s in c.shards ==> s.nodes != [] && forall n ::
      n in s.nodes[1..] <==> exists l :: l in lines && l.SlaveLine? && l.masterID == s.nodes[0].id && l.node == n
  {
    ShardsOfIff(lines, lines, s);
    assert s in c.shards <==> s in multiset(c.shards);
    assert s in ShardsOf(lines, lines) <==> s in multiset(ShardsOf(lines, lines));
    if s in c.shards {
      assert s.nodes[1..] == SlavesOf(lines, s.nodes[0].id);
      forall n { SlavesOfIff(lines, s.nodes[0].id, n); }
    }
  }

  // A sum over the shards, one line at a time.
  lemma ShardsNext<U>(f: ShardState -> multiset<U>, masters: seq<Line>, l: Line, lines: seq<Line>)
    ensures Sum(f, ShardsOf(masters + [l], lines)) ==
      Sum(f, ShardsOf(masters, lines)) + if l.MasterLine? then f(ShardOf(l, lines)) else multiset{}
  {
    assert (masters + [l])[..|masters|] == masters;
    assert ShardsOf(masters, lines) + [] == ShardsOf(masters, lines);
    if l.MasterLine? {
      SumConcat(f, ShardsOf(masters, lines), [ShardOf(l, lines)]);
      SumOne(f, ShardOf(l, lines));
    }
  }

  // ----- Every node is kept once -----

  function MasterCount(lines: seq<Line>, id: string): nat {
    if lines == [] then 0
    else
      var last := lines[|lines| - 1];
      MasterCount(lines[..|lines| - 1], id) + if last.MasterLine? && last.node.id == id then 1 else 0
  }

  ghost function NodesOf(s: ShardState): multiset<Node> { multiset(s.nodes) }

  ghost function MasterNodes(lines: seq<Line>): multiset<Node> {
    if lines == [] then multiset{}
    else
      var last := lines[|lines| - 1];
      MasterNodes(lines[..|lines| - 1]) + if last.MasterLine? then multiset{last.node} else multiset{}
  }

  // Each slave as often as its master has lines, and each slave with a master once.
  ghost function SlaveCopies(slaves: seq<Line>, lines: seq<Line>): multiset<Node> {
    if slaves == [] then multiset{}
    else
      var last := slaves[|slaves| - 1];
      SlaveCopies(slaves[..|slaves| - 1], lines) +
      if last.SlaveLine? then multiset{}[last.node := MasterCount(lines, last.masterID)] else multiset{}
  }

  ghost function SlavesWithMaster(slaves: seq<Line>, lines: seq<Line>): multiset<Node> {
    if slaves == [] then multiset{}
    else
      var last := slaves[|slaves| - 1];
      SlavesWithMaster(slaves[..|slaves| - 1], lines) +
      if last.SlaveLine? && MasterCount(lines, last.masterID) > 0 then multiset{last.node} else multiset{}
  }

  lemma {:induction false} CopiesOfNone(slaves: seq<Line>)
    ensures SlaveCopies(slaves, []) == multiset{}
  {
    if slaves != [] { CopiesOfNone(slaves[..|slaves| - 1]); }
  }

  lemma {:induction false} CopiesNext(slaves: seq<Line>, lines: seq<Line>, l: Line)
    ensures SlaveCopies(slaves, lines + [l]) ==
      SlaveCopies(slaves, lines) + if l.MasterLine? then multiset(SlavesOf(slaves, l.node.id)) else multiset{}
  {
    if slaves != [] {
      CopiesNext(slaves[..|slaves| - 1], lines, l);
      assert (lines + [l])[..|lines|] == lines;
    }
  }

  lemma Regroup(a: multiset<Node>, b: multiset<Node>, n: Node, ns: seq<Node>)
    ensures a + b + multiset([n] + ns) == a + multiset{n} + (b + multiset(ns))
  {}

  lemma MasterNodesNext(lines: seq<Line>, l: Line)
    ensures MasterNodes(lines + [l]) == MasterNodes(lines) + if l.MasterLine? then multiset{l.node} else multiset{}
  {
    assert (lines + [l])[..|lines|] == lines;
  }

  lemma {:induction false} NodesOfShards(masters: seq<Line>, lines: seq<Line>)
    ensures Sum(NodesOf, ShardsOf(masters, lines)) == MasterNodes(masters) + SlaveCopies(lines, masters)
  {
    if masters == [] {
      CopiesOfNone(lines);
    } else {
      var init, last := masters[..|masters| - 1], masters[|masters| - 1];
      assert masters == init + [last];
      NodesOfShards(init, lines);
      NodesOfShardsNext(init, last, lines);
    }
  }

  lemma NodesOfShardsNext(masters: seq<Line>, l: Line, lines: seq<Line>)
    requires Sum(NodesOf, ShardsOf(masters, lines)) == MasterNodes(masters) + SlaveCopies(lines, masters)
    ensures Sum(NodesOf, ShardsOf(masters + [l], lines))
              == MasterNodes(masters + [l]) + SlaveCopies(lines, masters + [l])
  {
    CopiesNext(lines, masters, l);
    ShardsNext(NodesOf, masters, l, lines);
    MasterNodesNext(masters, l);
    if l.MasterLine? {
      Regroup(MasterNodes(masters), SlaveCopies(lines, masters), l.node, SlavesOf(lines, l.node.id));
    }
  }

  predicate MastersOfSlavesUnique(slaves: seq<Line>, lines: seq<Line>) {
    forall l :: l in slaves && l.SlaveLine? ==> MasterCount(lines, l.masterID) <= 1
  }

  lemma {:induction false} CopiesOnceIff(slaves: seq<Line>, lines: seq<Line>)
    ensures MastersOfSlavesUnique(slaves, lines) ==> SlaveCopies(slaves, lines) == SlavesWithMaster(slaves, lines)
    ensures |SlaveCopies(slaves, lines)| >= |SlavesWithMaster(slaves, lines)|
    ensures !MastersOfSlavesUnique(slaves, lines) ==> |SlaveCopies(slaves, lines)| > |SlavesWithMaster(slaves, lines)|
  {
    if slaves != [] {
      var init, last := slaves[..|slaves| - 1], slaves[|slaves| - 1];
      CopiesOnceIff(init, lines);
      assert forall l :: l in slaves <==> l in init || l == last;
      if last.SlaveLine? { CopiesSize(last.node, MasterCount(lines, last.masterID)); }
    }
  }

  lemma CopiesSize(n: Node, k: nat)
    ensures |multiset{}[n := k]| == k
    ensures k == 1 ==> multiset{}[n := k] == multiset{n}
    ensures k == 0 ==> multiset{}[n := k] == multiset{}
  {}

  /**
   * Every node whose master is listed is kept exactly once, and no other node is, exactly when no
   * master that has slaves is listed twice.
   */
  lemma NodesKeptOnceIff(lines: seq<Line>, c: ClusterState)
    requires IsParse(lines, c)
    ensures Sum(NodesOf, c.shards) == MasterNodes(lines) + SlavesWithMaster(lines, lines)
      <==> MastersOfSlavesUnique(lines, lines)
  {
    SumPermuted(NodesOf, c.shards, ShardsOf(lines, lines));
    NodesOfShards(lines, lines);
    CopiesOnceIff(lines, lines);
    assert |MasterNodes(lines) + SlaveCopies(lines, lines)| == |MasterNodes(lines)| + |SlaveCopies(lines, lines)|;
    assert |MasterNodes(lines) + SlavesWithMaster(lines, lines)|
             == |MasterNodes(lines)| + |SlavesWithMaster(lines, lines)|;
  }

  // ----- The order of the lines -----

  datatype Shape = Shape(master: Node, nodes: multiset<Node>, ranges: SlotRanges)

  // A shard up to the order of its slaves.
  ghost function ShapeOf(s: ShardState): multiset<Shape> {
    if s.nodes == [] then multiset{} else multiset{Shape(s.nodes[0], multiset(s.nodes), s.slotRanges)}
  }

  lemma {:induction false} SlavesAsSum(lines: seq<Line>, id: string, f: Line -> multiset<Node>)
    requires forall l :: f(l) == if l.SlaveLine? && l.masterID == id then multiset{l.node} else multiset{}
    ensures multiset(SlavesOf(lines, id)) == Sum(f, lines)
  {
    if lines != [] { SlavesAsSum(lines[..|lines| - 1], id, f); }
  }

  lemma SlavesPermuted(a: seq<Line>, b: seq<Line>, id: string)
    requires multiset(a) == multiset(b)
    ensures multiset(SlavesOf(a, id)) == multiset(SlavesOf(b, id))
  {
    var f := (l: Line) => if l.SlaveLine? && l.masterID == id then multiset{l.node} else multiset{};
    SlavesAsSum(a, id, f);
    SlavesAsSum(b, id, f);
    SumPermuted(f, a, b);
  }

  lemma {:induction false} ShapesAsSum(masters: seq<Line>, lines: seq<Line>, f: Line -> multiset<Shape>)
    requires forall l :: f(l) == if l.MasterLine? then ShapeOf(ShardOf(l, lines)) else multiset{}
    ensures Sum(ShapeOf, ShardsOf(masters, lines)) == Sum(f, masters)
  {
    if masters != [] {
      var init, last := masters[..|masters| - 1], masters[|masters| - 1];
      assert masters == init + [last];
      ShapesAsSum(init, lines, f);
      ShardsNext(ShapeOf, init, last, lines);
      SumNext(f, init, last);
    }
  }

  /** Whatever the order of the lines, the shards have the same masters, nodes and ranges. */
  lemma LineOrderIrrelevant(a: seq<Line>, b: seq<Line>, ca: ClusterState, cb: ClusterState)
    requires multiset(a) == multiset(b) && IsParse(a, ca) && IsParse(b, cb)
    ensures Sum(ShapeOf, ca.shards) == Sum(ShapeOf, cb.shards)
  {
    var f := (l: Line) => if l.MasterLine? then ShapeOf(ShardOf(l, a)) else multiset{};
    forall l: Line | l.MasterLine? ensures ShapeOf(ShardOf(l, a)) == ShapeOf(ShardOf(l, b)) {
      SlavesPermuted(a, b, l.node.id);
    }
    ShapesAsSum(a, a, f);
    ShapesAsSum(b, b, f);
    SumPermuted(f, a, b);
    SumPermuted(ShapeOf, ca.shards, ShardsOf(a, a));
    SumPermuted(ShapeOf, cb.shards, ShardsOf(b, b));
  }

  // ----- Well-formed text -----

  // What a line carries beyond the topology.
  datatype Extra = Extra(myself: bool, busPort: string, ping: string, pong: string, link: string)

  function RoleText(l: Line): string { if l.MasterLine? then "master" else "slave" }

  function Flags(myself: bool, role: string): string { if myself then Join(["myself", role], ',') else role }

  // The eight fields before the slots.
  function HeadFields(l: Line, x: Extra): (f: seq<string>)
    ensures |f| == 8
  {
    [l.node.id, l.node.addr + ['@'] + x.busPort, Flags(x.myself, RoleText(l)),
     if l.MasterLine? then "-" else l.masterID, x.ping, x.pong, Itoa(l.version), x.link]
  }

  function LineFields(l: Line, x: Extra): (f: seq<string>)
    ensures |f| >= 8
  {
    HeadFields(l, x) + if l.MasterLine? then RangeFields(l.ranges) else []
  }

  function LineText(l: Line, x: Extra): string { Join(LineFields(l, x), ' ') }

  predicate WellFormedLine(l: Line, x: Extra) {
    && Plain(l.node.id) && Plain(l.node.addr) && '@' !in l.node.addr && 0 <= l.version <= MAX_INT
    && Plain(x.busPort) && Plain(x.ping) && Plain(x.pong) && Plain(x.link)
    && (l.MasterLine? ==> l.node.role == Master && InBounds(l.ranges))
    && (l.SlaveLine? ==> l.node.role == Slave && Plain(l.masterID))
  }

  // The slots of a master line start at the ninth field.
  function SlotFields(f: seq<string>): seq<string> { if |f| > 8 then f[8..] else [] }

  predicate HasRole(f: seq<string>, role: string) { |f| > 2 && RoleField(f[2]) == role }

  /** Which lines are accepted, as what, and why the others are not. */
  lemma FieldsAnswer(f: seq<string>)
    ensures var r := ParseFields(f);
      && (r == Bad(TooFewFields) <==> |f| <= 6)
      && (r == Bad(BadVersion) <==> |f| >= 7 && Atoi(f[6]) == None)
      && (r == Bad(BadRole) <==>
            |f| >= 7 && Atoi(f[6]).Some? && !HasRole(f, "master") && !HasRole(f, "slave"))
      && (r == Bad(BadSlots) <==>
            |f| >= 7 && Atoi(f[6]).Some? && HasRole(f, "master") && ParseRanges(SlotFields(f)) == None)
      && (r.Good? ==>
            && |f| >= 7 && r.value.node.id == f[0] && r.value.node.addr == Split(f[1], '@')[0]
            && Atoi(f[6]) == Some(r.value.version)
            && (r.value.MasterLine? ==>
                  && r.value.node.role == Master && HasRole(f, "master")
                  && ParseRanges(SlotFields(f)) == Some(r.value.ranges))
            && (r.value.SlaveLine? ==>
                  r.value.node.role == Slave && HasRole(f, "slave") && r.value.masterID == f[3]))
  {
    assert ParseRanges([]) == Some([]);
  }

  lemma RoleOfFlags(myself: bool, role: string)
    requires ',' !in role
    ensures RoleField(Flags(myself, role)) == role
  {
    SplitJoin(["myself", role], ',');
    SplitJoin([role], ',');
  }

  lemma AddrBeforeAt(addr: string, busPort: string)
    requires '@' !in addr
    ensures Split(addr + ['@'] + busPort, '@')[0] == addr
  {
    IndexAfter(addr, '@', busPort);
    assert (addr + ['@'] + busPort)[..|addr|] == addr;
  }

  lemma FieldsOfLine(f: seq<string>, l: Line)
    requires |f| >= 8 && f[0] == l.node.id && Split(f[1], '@')[0] == l.node.addr && Atoi(f[6]) == Some(l.version)
    requires RoleField(f[2]) == RoleText(l)
    requires l.node.role == if l.MasterLine? then Master else Slave
    requires l.MasterLine? ==> ParseRanges(f[8..]) == Some(l.ranges)
    requires l.SlaveLine? ==> f[3] == l.masterID
    ensures ParseFields(f) == Good(l)
  {}

  lemma HeadAddr(l: Line, x: Extra)
    requires WellFormedLine(l, x)
    ensures Split(HeadFields(l, x)[1], '@')[0] == l.node.addr
  {
    AddrBeforeAt(l.node.addr, x.busPort);
  }

  lemma HeadRole(l: Line, x: Extra)
    ensures RoleField(HeadFields(l, x)[2]) == RoleText(l)
  {
    RoleOfFlags(x.myself, RoleText(l));
  }

  lemma HeadVersion(l: Line, x: Extra)
    requires WellFormedLine(l, x)
    ensures Atoi(HeadFields(l, x)[6]) == Some(l.version)
  {
    AtoiItoa(l.version);
  }

  lemma ParseFieldsBack(l: Line, x: Extra)
    requires WellFormedLine(l, x)
    ensures ParseFields(LineFields(l, x)) == Good(l)
  {
    var f := LineFields(l, x);
    HeadAddr(l, x);
    HeadRole(l, x);
    HeadVersion(l, x);
    assert f[..8] == HeadFields(l, x);
    assert forall i :: 0 <= i < 8 ==> f[i] == HeadFields(l, x)[i];
    if l.MasterLine? {
      ParseRangesBack(l.ranges);
      assert f[8..] == RangeFields(l.ranges);
    }
    FieldsOfLine(f, l);
  }

  lemma FlagsPlain(myself: bool, role: string)
    requires Plain(role)
    ensures Plain(Flags(myself, role))
  {
    assert ["myself", role][1..] == [role];
    assert Join(["myself", role], ',') == "myself" + [','] + role;
  }

  lemma HeadPlain(l: Line, x: Extra)
    requires WellFormedLine(l, x)
    ensures forall f :: f in HeadFields(l, x) ==> Plain(f)
  {
    AtoiItoa(l.version);
    FlagsPlain(x.myself, RoleText(l));
  }

  lemma FieldsPlain(l: Line, x: Extra)
    requires WellFormedLine(l, x)
    ensures forall f :: f in LineFields(l, x) ==> Plain(f)
  {
    HeadPlain(l, x);
    if l.MasterLine? { RangeFieldsPlain(l.ranges); }
  }

  lemma LineBack(l: Line, x: Extra)
    requires WellFormedLine(l, x)
    ensures ParseLine(LineText(l, x)) == Good(l) && '\n' !in LineText(l, x)
  {
    FieldsPlain(l, x);
    SplitJoin(LineFields(l, x), ' ');
    JoinAvoids(LineFields(l, x), ' ', '\n');
    ParseFieldsBack(l, x);
  }

  function LineTexts(lines: seq<Line>, extras: seq<Extra>): (texts: seq<string>)
    requires |lines| == |extras|
    ensures |texts| == |lines|
  {
    seq(|lines|, i requires 0 <= i < |lines| => LineText(lines[i], extras[i]))
  }

  lemma {:induction false} CollectGood(parses: seq<Parse<Line>>, lines: seq<Line>)
    requires |parses| == |lines| && forall i :: 0 <= i < |lines| ==> parses[i] == Good(lines[i])
    ensures Collect(parses) == Good(lines)
  {
    if lines != [] {
      CollectGood(parses[..|lines| - 1], lines[..|lines| - 1]);
      assert lines == lines[..|lines| - 1] + [lines[|lines| - 1]];
    }
  }

  /**
   * Text in the serialization format of CLUSTER NODES - with bus ports, the "myself" flag, ping and
   * pong times and link state - parses to exactly the lines that it serializes.
   */
  lemma WellFormedTextParses(lines: seq<Line>, extras: seq<Extra>)
    requires lines != [] && |lines| == |extras|
    requires forall i :: 0 <= i < |lines| ==> WellFormedLine(lines[i], extras[i])
    ensures ParseAll(Split(Join(LineTexts(lines, extras), '\n'), '\n')) == Good(lines)
  {
    var texts := LineTexts(lines, extras);
    forall i | 0 <= i < |lines| ensures ParseLine(texts[i]) == Good(lines[i]) && '\n' !in texts[i] {
      LineBack(lines[i], extras[i]);
    }
    SplitJoin(texts, '\n');
    CollectGood(ParseEach(texts), lines);
  }
}
