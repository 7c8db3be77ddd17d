/** Splitting a flow graph into one subgraph per scheduler, graph_utils.cc over graph.cc.
  *
  * The nodes come in groups. An edge inside a group is connected in that group's subgraph, an
  * edge between groups becomes a crossing, which connect_crossings later adds to both subgraphs.
  */
module GraphSplit {
  import opened Sequences

  type Node = nat
  type Port = nat

  /** An edge as a value; `buffer` stands for its buffer properties. */
  datatype Edge = Edge(src: Node, srcPort: Port, dst: Node, dstPort: Port, buffer: nat)

  /** What the split asks of nodes and ports. */
  datatype World = World(inputPorts: Node -> seq<Port>, itemsize: Port -> nat, stream: Port -> bool)

  /** A crossing with the indices of the subgraphs of its source and destination. */
  datatype Crossing = Crossing(edge: Edge, from: nat, to: nat)

  // ----- queries on a list of edges

  /** All edges on a port, in list order; an edge with the port at both ends is listed twice. */
  function EdgesOf(es: seq<Edge>, p: Port): seq<Edge> {
    if es == [] then []
    else
      var e := es[|es| - 1];
      EdgesOf(es[..|es| - 1], p) + (if e.srcPort == p then [e] else []) + (if e.dstPort == p then [e] else [])
  }

  /** The edge the split looks at: the first one on the port, if any. */
  function FirstEdge(es: seq<Edge>, p: Port): seq<Edge> {
    var all := EdgesOf(es, p);
    if all == [] then [] else [all[0]]
  }

  /** The edges met when walking over a list of ports. */
  function PortsEdges(es: seq<Edge>, ports: seq<Port>): seq<Edge> {
    if ports == [] then [] else PortsEdges(es, ports[..|ports| - 1]) + FirstEdge(es, ports[|ports| - 1])
  }

  /** The edges met when walking over the input ports of a list of nodes. */
  function NodesEdges(w: World, es: seq<Edge>, nodes: seq<Node>): seq<Edge> {
    if nodes == [] then []
    else NodesEdges(w, es, nodes[..|nodes| - 1]) + PortsEdges(es, w.inputPorts(nodes[|nodes| - 1]))
  }

  function Inside(s: seq<Edge>, nodes: seq<Node>): seq<Edge> {
    if s == [] then []
    else Inside(s[..|s| - 1], nodes) + if s[|s| - 1].src in nodes then [s[|s| - 1]] else []
  }

  function Outside(s: seq<Edge>, nodes: seq<Node>): seq<Edge> {
    if s == [] then []
    else Outside(s[..|s| - 1], nodes) + if s[|s| - 1].src in nodes then [] else [s[|s| - 1]]
  }

  /** The edges of a group's own subgraph. */
  function LocalEdges(w: World, es: seq<Edge>, nodes: seq<Node>): seq<Edge> {
    Inside(NodesEdges(w, es, nodes), nodes)
  }

  /** The crossings met while the first n groups are processed. */
  function CrossEdges(w: World, es: seq<Edge>, groups: seq<seq<Node>>): seq<Edge> {
    if groups == [] then []
    else
      var nodes := groups[|groups| - 1];
      CrossEdges(w, es, groups[..|groups| - 1]) + Outside(NodesEdges(w, es, nodes), nodes)
  }

  function UsedNodes(es: seq<Edge>, orphans: seq<Node>): set<Node> {
    (set e | e in es :: e.src) + (set e | e in es :: e.dst) + (set n | n in orphans)
  }

  // ----- premises

  /** Ports belong to one node, sources are not input ports, an input port has at most one edge. */
  ghost predicate WellFormed(w: World, es: seq<Edge>) {
    && (forall n :: Distinct(w.inputPorts(n)))
    && (forall e :: e in es ==> e.dstPort in w.inputPorts(e.dst))
    && (forall e, n :: e in es ==> e.srcPort !in w.inputPorts(n))
    && (forall e, n :: e in es && n != e.dst ==> e.dstPort !in w.inputPorts(n))
    && forall i, j :: 0 <= i < j < |es| ==> es[i].dstPort != es[j].dstPort
  }

  /** No node is listed twice, within a group or across groups. */
  predicate Disjoint(groups: seq<seq<Node>>) {
    && (forall i :: 0 <= i < |groups| ==> Distinct(groups[i]))
    && forall i, j, n :: 0 <= i < j < |groups| && n in groups[i] ==> n !in groups[j]
  }

  predicate Covered(groups: seq<seq<Node>>, n: Node) { exists i :: 0 <= i < |groups| && n in groups[i] }

  predicate Covers(groups: seq<seq<Node>>, es: seq<Edge>) {
    forall e :: e in es ==> Covered(groups, e.src) && Covered(groups, e.dst)
  }

  // ----- counting edges

  function Once(b: bool): nat { if b then 1 else 0 }

  /** The last edge's input port is free in the rest of the list, which is as well-formed. */
  lemma InputsDiffer(w: World, es: seq<Edge>, e: Edge)
    requires es != [] && WellFormed(w, es) && e == es[|es| - 1]
    ensures WellFormed(w, es[..|es| - 1])
    ensures forall f :: f in es[..|es| - 1] ==> f.dstPort != e.dstPort
    ensures forall f :: f in es[..|es| - 1] ==> f in es
  {
    var init := es[..|es| - 1];
    forall f | f in init ensures f in es && f.dstPort != e.dstPort {
      var i :| 0 <= i < |init| && init[i] == f;
      assert es[i] == f;
    }
  }

  /** An input port has at most one edge, the one that ends there. */
  lemma {:induction false} EdgesOfInput(w: World, es: seq<Edge>, n: Node, p: Port, x: Edge)
    requires WellFormed(w, es) && p in w.inputPorts(n)
    ensures |EdgesOf(es, p)| <= 1
    ensures x in EdgesOf(es, p) <==> x in es && x.dstPort == p
  {
    if es != [] {
      var init, e := es[..|es| - 1], es[|es| - 1];
      assert e in es;
      LastOr(es, x);
      InputsDiffer(w, es, e);
      EdgesOfInput(w, init, n, p, x);
      if e.dstPort == p {
        forall f | f in init ensures f.srcPort != p {
          assert f in es;
        }
        NoneOnPort(init, p);
      }
    }
  }

  /** An edge is found on a port once for each of its ends there, and as often as it is in the list. */
  lemma {:induction false} EdgesOfCount(es: seq<Edge>, p: Port, x: Edge)
    ensures multiset(EdgesOf(es, p))[x] == multiset(es)[x] * (Once(x.srcPort == p) + Once(x.dstPort == p))
  {
    if es != [] {
      var init, e := es[..|es| - 1], es[|es| - 1];
      EdgesOfCount(init, p, x);
      CountLast(es, x);
      var a, b, c := EdgesOf(init, p), if e.srcPort == p then [e] else [], if e.dstPort == p then [e] else [];
      CountConcat(a, b, x);
      CountConcat(a + b, c, x);
      CountIf(e, e.srcPort == p, x);
      CountIf(e, e.dstPort == p, x);
    }
  }

  lemma CountIf(e: Edge, b: bool, x: Edge)
    ensures multiset(if b then [e] else [])[x] == Once(b && e == x)
  {
    CountOne(e, x);
  }

  /** The edges found are in list order. */
  lemma {:induction false} EdgesOfConcat(s: seq<Edge>, t: seq<Edge>, p: Port)
    ensures EdgesOf(s + t, p) == EdgesOf(s, p) + EdgesOf(t, p)
  {
    if t == [] {
      assert s + t == s;
    } else {
      var init, e := t[..|t| - 1], t[|t| - 1];
      EdgesOfConcat(s, init, p);
      assert (s + t)[..|s + t| - 1] == s + init;
      var b, c := if e.srcPort == p then [e] else [], if e.dstPort == p then [e] else [];
      ConcatAssociates(EdgesOf(s, p), EdgesOf(init, p), b);
      ConcatAssociates(EdgesOf(s, p), EdgesOf(init, p) + b, c);
    }
  }

  /** A node is used exactly if an edge ends or starts there, or it is an orphan. */
  lemma UsedNodesAre(es: seq<Edge>, orphans: seq<Node>, n: Node)
    ensures n in UsedNodes(es, orphans)
       <==> n in orphans || exists e :: e in es && (e.src == n || e.dst == n)
  {
  }

  lemma LastOr(es: seq<Edge>, x: Edge)
    requires es != []
    ensures x in es <==> x in es[..|es| - 1] || x == es[|es| - 1]
  {
  }

  lemma CountShort(s: seq<Edge>, x: Edge)
    requires |s| <= 1
    ensures multiset(s)[x] == Once(x in s)
  {
    if s != [] {
      assert s == [s[0]];
    }
  }

  lemma {:induction false} NoneOnPort(es: seq<Edge>, p: Port)
    requires forall e :: e in es ==> e.srcPort != p && e.dstPort != p
    ensures EdgesOf(es, p) == []
  {
    if es != [] {
      NoneOnPort(es[..|es| - 1], p);
    }
  }

  lemma {:induction false} PortsCount(w: World, es: seq<Edge>, n: Node, ports: seq<Port>, x: Edge)
    requires WellFormed(w, es) && Distinct(ports) && forall p :: p in ports ==> p in w.inputPorts(n)
    ensures multiset(PortsEdges(es, ports))[x] == Once(x in es && x.dstPort in ports)
  {
    if ports != [] {
      var init, p := ports[..|ports| - 1], ports[|ports| - 1];
      assert ports == init + [p];
      PortsCount(w, es, n, init, x);
      EdgesOfInput(w, es, n, p, x);
      assert EdgesOf(es, p) == FirstEdge(es, p);
      CountShort(FirstEdge(es, p), x);
      CountConcat(PortsEdges(es, init), FirstEdge(es, p), x);
      assert p !in init;
    }
  }

  lemma {:induction false} NodesCount(w: World, es: seq<Edge>, nodes: seq<Node>, x: Edge)
    requires WellFormed(w, es) && Distinct(nodes)
    ensures multiset(NodesEdges(w, es, nodes))[x] == Once(x in es && x.dst in nodes)
  {
    if nodes != [] {
      var init, n := nodes[..|nodes| - 1], nodes[|nodes| - 1];
      assert nodes == init + [n];
      NodesCount(w, es, init, x);
      PortsCount(w, es, n, w.inputPorts(n), x);
    }
  }

  lemma CountOne(e: Edge, x: Edge)
    ensures multiset([e])[x] == Once(e == x)
  {
  }

  lemma {:induction false} InsideCount(s: seq<Edge>, nodes: seq<Node>, x: Edge)
    ensures multiset(Inside(s, nodes))[x] == if x.src in nodes then multiset(s)[x] else 0
  {
    if s != [] {
      var init, e := s[..|s| - 1], s[|s| - 1];
      InsideCount(init, nodes, x);
      CountLast(s, x);
      CountConcat(Inside(init, nodes), [e], x);
      CountOne(e, x);
    }
  }

  lemma CountLast(s: seq<Edge>, x: Edge)
    requires s != []
    ensures multiset(s)[x] == multiset(s[..|s| - 1])[x] + Once(s[|s| - 1] == x)
  {
    assert s == s[..|s| - 1] + [s[|s| - 1]];
    CountConcat(s[..|s| - 1], [s[|s| - 1]], x);
  }

  lemma {:induction false} OutsideCount(s: seq<Edge>, nodes: seq<Node>, x: Edge)
    ensures multiset(Outside(s, nodes))[x] == if x.src in nodes then 0 else multiset(s)[x]
  {
    if s != [] {
      var init, e := s[..|s| - 1], s[|s| - 1];
      OutsideCount(init, nodes, x);
      CountLast(s, x);
      CountConcat(Outside(init, nodes), [e], x);
      CountOne(e, x);
    }
  }

  /** A subgraph holds exactly the edges with both ends in its group, each once. */
  lemma LocalCount(w: World, es: seq<Edge>, nodes: seq<Node>, x: Edge)
    requires WellFormed(w, es) && Distinct(nodes)
    ensures multiset(LocalEdges(w, es, nodes))[x] == Once(x in es && x.src in nodes && x.dst in nodes)
  {
    NodesCount(w, es, nodes, x);
    InsideCount(NodesEdges(w, es, nodes), nodes, x);
  }

  /** The edge enters some group from outside. */
  predicate Enters(groups: seq<seq<Node>>, x: Edge) {
    exists i :: 0 <= i < |groups| && x.dst in groups[i] && x.src !in groups[i]
  }

  /** The crossings are exactly the edges that enter a group from outside, each once. */
  lemma {:induction false} CrossCount(w: World, es: seq<Edge>, groups: seq<seq<Node>>, x: Edge)
    requires WellFormed(w, es) && Disjoint(groups)
    ensures multiset(CrossEdges(w, es, groups))[x] == Once(x in es && Enters(groups, x))
  {
    if groups != [] {
      var last := |groups| - 1;
      var init, nodes := groups[..last], groups[last];
      assert Disjoint(init) && Distinct(nodes);
      CrossCount(w, es, init, x);
      NodesCount(w, es, nodes, x);
      OutsideCount(NodesEdges(w, es, nodes), nodes, x);
      CountConcat(CrossEdges(w, es, init), Outside(NodesEdges(w, es, nodes), nodes), x);
      EntersLast(groups, x);
    }
  }

  lemma EntersLast(groups: seq<seq<Node>>, x: Edge)
    requires groups != [] && Disjoint(groups)
    ensures var last := |groups| - 1;
            && (Enters(groups, x) <==> Enters(groups[..last], x) || (x.dst in groups[last] && x.src !in groups[last]))
            && !(Enters(groups[..last], x) && x.dst in groups[last])
  {
    var last := |groups| - 1;
    var init := groups[..last];
    if Enters(init, x) {
      var i :| 0 <= i < |init| && x.dst in init[i] && x.src !in init[i];
      assert x.dst in groups[i] && x.src !in groups[i];
    }
    if Enters(groups, x) && !(x.dst in groups[last] && x.src !in groups[last]) {
      var i :| 0 <= i < |groups| && x.dst in groups[i] && x.src !in groups[i];
      assert x.dst in init[i] && x.src !in init[i];
    }
  }

  /** All edges of the subgraphs, group after group. */
  function AllLocal(w: World, es: seq<Edge>, groups: seq<seq<Node>>): seq<Edge> {
    if groups == [] then []
    else AllLocal(w, es, groups[..|groups| - 1]) + LocalEdges(w, es, groups[|groups| - 1])
  }

  predicate Stays(groups: seq<seq<Node>>, x: Edge) {
    exists i :: 0 <= i < |groups| && x.dst in groups[i] && x.src in groups[i]
  }

  lemma {:induction false} AllLocalCount(w: World, es: seq<Edge>, groups: seq<seq<Node>>, x: Edge)
    requires WellFormed(w, es) && Disjoint(groups)
    ensures multiset(AllLocal(w, es, groups))[x] == Once(x in es && Stays(groups, x))
  {
    if groups != [] {
      var last := |groups| - 1;
      AllLocalCount(w, es, groups[..last], x);
      LocalCount(w, es, groups[last], x);
      StaysLast(groups, x);
    }
  }

  lemma StaysLast(groups: seq<seq<Node>>, x: Edge)
    requires groups != [] && Disjoint(groups)
    ensures var last := |groups| - 1;
            && (Stays(groups, x) <==> Stays(groups[..last], x) || (x.dst in groups[last] && x.src in groups[last]))
            && !(Stays(groups[..last], x) && x.dst in groups[last])
  {
    var last := |groups| - 1;
    var init := groups[..last];
    if Stays(init, x) {
      var i :| 0 <= i < |init| && x.dst in init[i] && x.src in init[i];
      assert x.dst in groups[i] && x.src in groups[i];
    }
    if Stays(groups, x) && !(x.dst in groups[last] && x.src in groups[last]) {
      var i :| 0 <= i < |groups| && x.dst in groups[i] && x.src in groups[i];
      assert x.dst in init[i] && x.src in init[i];
    }
  }

  lemma {:induction false} NoRepeats(w: World, es: seq<Edge>, x: Edge)
    requires WellFormed(w, es)
    ensures multiset(es)[x] == Once(x in es)
    decreases |es|
  {
    if es != [] {
      var init, e := es[..|es| - 1], es[|es| - 1];
      InputsDiffer(w, es, e);
      NoRepeats(w, init, x);
      CountLast(es, x);
      assert es == init + [e];
    }
  }

  /** No edge is lost or doubled: every edge of the input is in exactly one subgraph or is one crossing. */
  lemma EdgesConserved(w: World, es: seq<Edge>, groups: seq<seq<Node>>)
    requires WellFormed(w, es) && Disjoint(groups) && Covers(groups, es)
    ensures multiset(AllLocal(w, es, groups)) + multiset(CrossEdges(w, es, groups)) == multiset(es)
  {
    var all := multiset(AllLocal(w, es, groups)) + multiset(CrossEdges(w, es, groups));
    forall x ensures all[x] == multiset(es)[x] {
      AllLocalCount(w, es, groups, x);
      CrossCount(w, es, groups, x);
      NoRepeats(w, es, x);
      if x in es {
        OneSide(groups, x);
      }
    }
  }

  lemma OneSide(groups: seq<seq<Node>>, x: Edge)
    requires Disjoint(groups) && Covered(groups, x.dst)
    ensures Stays(groups, x) <==> !Enters(groups, x)
  {
    var i :| 0 <= i < |groups| && x.dst in groups[i];
    assert forall j :: 0 <= j < |groups| && x.dst in groups[j] ==> j == i;
  }

  // ----- crossings

  /** Index of the first group holding a node. */
  ghost function GroupOf(groups: seq<seq<Node>>, n: Node): (i: nat)
    requires Covered(groups, n)
    ensures i < |groups| && n in groups[i]
    decreases |groups|
  {
    if n in groups[0] then 0
    else
      var k :| 0 <= k < |groups| && n in groups[k];
      assert groups[1..][k - 1] == groups[k];
      GroupOf(groups[1..], n) + 1
  }

  lemma GroupIsUnique(groups: seq<seq<Node>>, n: Node, i: nat)
    requires Disjoint(groups) && i < |groups| && n in groups[i]
    ensures Covered(groups, n) && GroupOf(groups, n) == i
  {
    var k := GroupOf(groups, n);
    assert n in groups[k];
  }

  /** Each crossing edge with the subgraphs of its two ends. */
  ghost function Resolve(groups: seq<seq<Node>>, s: seq<Edge>): (r: seq<Crossing>)
    requires Covers(groups, s)
    ensures |r| == |s|
  {
    seq(|s|, k requires 0 <= k < |s| => Crossing(s[k], GroupOf(groups, s[k].src), GroupOf(groups, s[k].dst)))
  }

  /** The edges connect_crossings adds to subgraph i. */
  function AddedTo(crossings: seq<Crossing>, i: nat): seq<Edge> {
    if crossings == [] then []
    else
      var c := crossings[|crossings| - 1];
      AddedTo(crossings[..|crossings| - 1], i)
      + (if c.from == i then [c.edge] else []) + (if c.to == i then [c.edge] else [])
  }

  lemma AddedStep(groups: seq<seq<Node>>, s: seq<Edge>, e: Edge, i: nat)
    requires Covers(groups, s + [e])
    ensures Covers(groups, s) && Covered(groups, e.src) && Covered(groups, e.dst)
    ensures AddedTo(Resolve(groups, s + [e]), i) == AddedTo(Resolve(groups, s), i)
              + (if GroupOf(groups, e.src) == i then [e] else []) + (if GroupOf(groups, e.dst) == i then [e] else [])
  {
    assert forall f :: f in s ==> f in s + [e];
    assert e in s + [e];
    var c := Crossing(e, GroupOf(groups, e.src), GroupOf(groups, e.dst));
    var all := Resolve(groups, s + [e]);
    assert all == Resolve(groups, s) + [c];
    assert all[..|s|] == Resolve(groups, s);
  }

  lemma {:induction false} AddedCount(groups: seq<seq<Node>>, s: seq<Edge>, i: nat, x: Edge)
    requires Disjoint(groups) && Covers(groups, s) && i < |groups|
    requires forall e :: e in s ==> Enters(groups, e)
    ensures multiset(AddedTo(Resolve(groups, s), i))[x]
         == if x.src in groups[i] || x.dst in groups[i] then multiset(s)[x] else 0
  {
    if s != [] {
      var init, e := s[..|s| - 1], s[|s| - 1];
      assert s == init + [e];
      AddedCount(groups, init, i, x);
      AddedStep(groups, init, e, i);
      CrossingEnds(groups, e, i);
    }
  }

  lemma CrossingEnds(groups: seq<seq<Node>>, e: Edge, i: nat)
    requires Disjoint(groups) && Covered(groups, e.src) && Covered(groups, e.dst) && Enters(groups, e) && i < |groups|
    ensures GroupOf(groups, e.src) == i <==> e.src in groups[i]
    ensures GroupOf(groups, e.dst) == i <==> e.dst in groups[i]
    ensures !(e.src in groups[i] && e.dst in groups[i])
  {
    if e.src in groups[i] {
      GroupIsUnique(groups, e.src, i);
    }
    if e.dst in groups[i] {
      GroupIsUnique(groups, e.dst, i);
    }
    OneSide(groups, e);
  }

  lemma CrossEdgesEnter(w: World, es: seq<Edge>, groups: seq<seq<Node>>)
    requires WellFormed(w, es) && Disjoint(groups)
    ensures forall e :: e in CrossEdges(w, es, groups) ==> e in es && Enters(groups, e)
  {
    forall e | e in CrossEdges(w, es, groups) ensures e in es && Enters(groups, e) {
      CrossCount(w, es, groups, e);
      assert multiset(CrossEdges(w, es, groups))[e] > 0;
    }
  }

  /** After connect_crossings, a subgraph holds exactly the input edges that touch its group, each once;
    * so a crossing is in exactly the two subgraphs of its ends. */
  lemma SubgraphHoldsTouchingEdges(w: World, es: seq<Edge>, groups: seq<seq<Node>>, i: nat, x: Edge)
    requires WellFormed(w, es) && Disjoint(groups) && Covers(groups, es) && i < |groups|
    ensures Covers(groups, CrossEdges(w, es, groups))
    ensures var crossings := Resolve(groups, CrossEdges(w, es, groups));
            multiset(LocalEdges(w, es, groups[i]) + AddedTo(crossings, i))[x]
            == Once(x in es && (x.src in groups[i] || x.dst in groups[i]))
  {
    CrossEdgesEnter(w, es, groups);
    AddedCount(groups, CrossEdges(w, es, groups), i, x);
    CrossCount(w, es, groups, x);
    LocalCount(w, es, groups[i], x);
    if x in es {
      CrossingCases(groups, x, i);
    }
  }

  lemma CrossingCases(groups: seq<seq<Node>>, x: Edge, i: nat)
    requires Disjoint(groups) && Covered(groups, x.src) && Covered(groups, x.dst) && i < |groups|
    ensures x.src in groups[i] && x.dst in groups[i] ==> !Enters(groups, x)
    ensures (x.src in groups[i]) != (x.dst in groups[i]) ==> Enters(groups, x)
  {
    var a, b := GroupOf(groups, x.src), GroupOf(groups, x.dst);
    if x.src in groups[i] {
      GroupIsUnique(groups, x.src, i);
    }
    if x.dst in groups[i] {
      GroupIsUnique(groups, x.dst, i);
    }
    if a != b {
      assert x.src !in groups[b];
    } else {
      forall j | 0 <= j < |groups| && x.dst in groups[j] ensures x.src in groups[j] {
        GroupIsUnique(groups, x.dst, j);
      }
    }
  }

  /** Every crossing names two different subgraphs, those of its ends. */
  lemma CrossingsAreProper(w: World, es: seq<Edge>, groups: seq<seq<Node>>, k: nat)
    requires WellFormed(w, es) && Disjoint(groups) && Covers(groups, es)
    requires k < |CrossEdges(w, es, groups)|
    ensures Covers(groups, CrossEdges(w, es, groups))
    ensures var c := Resolve(groups, CrossEdges(w, es, groups))[k];
            && c.edge in es && c.from < |groups| && c.to < |groups| && c.from != c.to
            && c.edge.src in groups[c.from] && c.edge.dst in groups[c.to]
  {
    CrossEdgesEnter(w, es, groups);
    var e := CrossEdges(w, es, groups)[k];
    CrossingEnds(groups, e, GroupOf(groups, e.src));
  }

  // ----- the graphs

  /** Both sizes known and different: connect throws. */
  predicate Mismatch(w: World, e: Edge) {
    w.itemsize(e.srcPort) != w.itemsize(e.dstPort) && w.itemsize(e.srcPort) > 0 && w.itemsize(e.dstPort) > 0
  }

  predicate AllMatch(w: World, s: seq<Edge>) { forall e :: e in s ==> !Mismatch(w, e) }

  predicate IsStream(w: World, e: Edge) { w.stream(e.srcPort) || w.stream(e.dstPort) }

  function StreamEdges(w: World, s: seq<Edge>): seq<Edge> {
    if s == [] then []
    else StreamEdges(w, s[..|s| - 1]) + if IsStream(w, s[|s| - 1]) then [s[|s| - 1]] else []
  }

  /** Stream edges are those with a stream port at an end, as often as they are in the list. */
  lemma {:induction false} StreamEdgesCount(w: World, s: seq<Edge>, x: Edge)
    ensures multiset(StreamEdges(w, s))[x]
         == if w.stream(x.srcPort) || w.stream(x.dstPort) then multiset(s)[x] else 0
  {
    if s != [] {
      var init, e := s[..|s| - 1], s[|s| - 1];
      StreamEdgesCount(w, init, x);
      CountLast(s, x);
      CountConcat(StreamEdges(w, init), if IsStream(w, e) then [e] else [], x);
      CountIf(e, IsStream(w, e), x);
    }
  }

  /** The split throws exactly if some edge with both ends in one group joins two different sizes, both known. */
  lemma GroupsMatchIff(w: World, es: seq<Edge>, groups: seq<seq<Node>>)
    requires WellFormed(w, es) && Disjoint(groups)
    ensures !GroupsMatch(w, es, groups)
       <==> exists i, e :: 0 <= i < |groups| && e in es && e.src in groups[i] && e.dst in groups[i]
                           && w.itemsize(e.srcPort) != w.itemsize(e.dstPort)
                           && w.itemsize(e.srcPort) != 0 && w.itemsize(e.dstPort) != 0
  {
    forall i, e | 0 <= i < |groups|
      ensures e in LocalEdges(w, es, groups[i]) <==> e in es && e.src in groups[i] && e.dst in groups[i]
    {
      LocalCount(w, es, groups[i], e);
      assert e in LocalEdges(w, es, groups[i]) <==> multiset(LocalEdges(w, es, groups[i]))[e] > 0;
    }
    if !GroupsMatch(w, es, groups) {
      var i :| 0 <= i < |groups| && !AllMatch(w, LocalEdges(w, es, groups[i]));
      var e :| e in LocalEdges(w, es, groups[i]) && Mismatch(w, e);
      assert e.src in groups[i];
    }
  }

  lemma {:induction false} InsideConcat(s: seq<Edge>, t: seq<Edge>, nodes: seq<Node>)
    ensures Inside(s + t, nodes) == Inside(s, nodes) + Inside(t, nodes)
    ensures Outside(s + t, nodes) == Outside(s, nodes) + Outside(t, nodes)
  {
    if t == [] {
      assert s + t == s;
    } else {
      var init := t[..|t| - 1];
      assert (s + t)[..|s + t| - 1] == s + init;
      InsideConcat(s, init, nodes);
    }
  }

  class Graph {
    var edges: seq<Edge>
    var streamEdges: seq<Edge>
    var orphans: seq<Node>

    constructor ()
      ensures edges == [] && streamEdges == [] && orphans == []
    {
      edges, streamEdges, orphans := [], [], [];
    }

    method FindEdge(p: Port) returns (r: seq<Edge>)
      ensures r == EdgesOf(edges, p)
    {
      r := [];
      for i := 0 to |edges|
        invariant r == EdgesOf(edges[..i], p)
      {
        assert edges[..i + 1][..i] == edges[..i];
        if edges[i].srcPort == p {
          r := r + [edges[i]];
        }
        if edges[i].dstPort == p {
          r := r + [edges[i]];
        }
      }
      assert edges[..|edges|] == edges;
    }

    /** Appends an edge without looking at item sizes. */
    method AddEdge(w: World, e: Edge)
      requires streamEdges == StreamEdges(w, edges)
      modifies `edges, `streamEdges
      ensures edges == old(edges) + [e] && streamEdges == StreamEdges(w, edges)
    {
      assert (edges + [e])[..|edges|] == edges;
      edges := edges + [e];
      if IsStream(w, e) {
        streamEdges := streamEdges + [e];
      }
    }

    /** Appends an edge; false stands for the throw on different item sizes. */
    method Connect(w: World, e: Edge) returns (ok: bool)
      requires streamEdges == StreamEdges(w, edges)
      modifies `edges, `streamEdges
      ensures ok <==> !Mismatch(w, e)
      ensures ok <==> w.itemsize(e.srcPort) == w.itemsize(e.dstPort) || w.itemsize(e.srcPort) == 0
                      || w.itemsize(e.dstPort) == 0
      ensures edges == (if ok then old(edges) + [e] else old(edges)) && streamEdges == StreamEdges(w, edges)
    {
      if w.itemsize(e.srcPort) != w.itemsize(e.dstPort) && w.itemsize(e.srcPort) > 0 && w.itemsize(e.dstPort) > 0 {
        return false;
      }
      AddEdge(w, e);
      ok := true;
    }

    method AddOrphanNode(n: Node)
      modifies `orphans
      ensures orphans == old(orphans) + [n]
    {
      orphans := orphans + [n];
    }

    method CalcUsedNodes() returns (r: seq<Node>)
      ensures forall n :: n in r <==> n in UsedNodes(edges, orphans)
    {
      r := [];
      for i := 0 to |edges|
        invariant forall n :: n in r <==> n in UsedNodes(edges[..i], [])
      {
        assert edges[..i + 1] == edges[..i] + [edges[i]];
        UsedOfOneMore(edges[..i], edges[i], []);
        r := r + [edges[i].src] + [edges[i].dst];
      }
      assert edges[..|edges|] == edges;
      assert forall n :: n in UsedNodes(edges, orphans) <==> n in UsedNodes(edges, []) || n in orphans;
      r := r + orphans;
    }

    /** Whether some edge of this graph ends at n. */
    method Touches(n: Node) returns (yes: bool)
      ensures yes <==> n in UsedNodes(edges, [])
    {
      yes := false;
      for i := 0 to |edges|
        invariant yes <==> n in UsedNodes(edges[..i], [])
      {
        assert edges[..i + 1] == edges[..i] + [edges[i]];
        UsedOfOneMore(edges[..i], edges[i], []);
        if edges[i].src == n || edges[i].dst == n {
          yes := true;
        }
      }
      assert edges[..|edges|] == edges;
    }
  }

  lemma UsedOfOneMore(es: seq<Edge>, e: Edge, orphans: seq<Node>)
    ensures UsedNodes(es + [e], orphans) == UsedNodes(es, orphans) + {e.src, e.dst}
  {
    assert forall f :: f in es + [e] <==> f in es || f == e;
  }

  // ----- partition

  /** An inner turn of the first pass: all input ports of one node. */
  method SplitNode(w: World, input: Graph, node: Node, nodes: seq<Node>, g: Graph)
    returns (ok: bool, crossed: seq<Edge>)
    requires input != g && g.streamEdges == StreamEdges(w, g.edges)
    modifies g`edges, g`streamEdges
    ensures g.streamEdges == StreamEdges(w, g.edges)
    ensures ok ==> g.edges == old(g.edges) + Inside(PortsEdges(input.edges, w.inputPorts(node)), nodes)
    ensures ok ==> crossed == Outside(PortsEdges(input.edges, w.inputPorts(node)), nodes)
    ensures ok ==> AllMatch(w, Inside(PortsEdges(input.edges, w.inputPorts(node)), nodes))
    ensures !ok ==> !AllMatch(w, Inside(PortsEdges(input.edges, w.inputPorts(node)), nodes))
  {
    var ports := w.inputPorts(node);
    crossed := [];
    for j := 0 to |ports|
      invariant g.streamEdges == StreamEdges(w, g.edges)
      invariant g.edges == old(g.edges) + Inside(PortsEdges(input.edges, ports[..j]), nodes)
      invariant crossed == Outside(PortsEdges(input.edges, ports[..j]), nodes)
      invariant AllMatch(w, Inside(PortsEdges(input.edges, ports[..j]), nodes))
    {
      PortStep(w, input.edges, ports, j, nodes, old(g.edges));
      var fine, more := SplitPort(w, input, ports[j], nodes, g);
      if !fine {
        return false, [];
      }
      crossed := crossed + more;
    }
    assert ports[..|ports|] == ports;
    ok := true;
  }

  lemma MatchConcat(w: World, s: seq<Edge>, t: seq<Edge>)
    ensures AllMatch(w, s + t) <==> AllMatch(w, s) && AllMatch(w, t)
  {
    assert forall e :: e in s + t <==> e in s || e in t;
  }

  function Kept(f: seq<Edge>, nodes: seq<Node>): seq<Edge> { if f != [] && f[0].src in nodes then f else [] }

  function Passed(f: seq<Edge>, nodes: seq<Node>): seq<Edge> { if f != [] && f[0].src !in nodes then f else [] }

  /** One input port: its edge is connected in the group's subgraph or set aside as a crossing. */
  method SplitPort(w: World, input: Graph, p: Port, nodes: seq<Node>, g: Graph) returns (ok: bool, crossed: seq<Edge>)
    requires input != g && g.streamEdges == StreamEdges(w, g.edges)
    modifies g`edges, g`streamEdges
    ensures g.streamEdges == StreamEdges(w, g.edges)
    ensures ok <==> AllMatch(w, Kept(FirstEdge(input.edges, p), nodes))
    ensures ok ==> g.edges == old(g.edges) + Kept(FirstEdge(input.edges, p), nodes)
    ensures crossed == Passed(FirstEdge(input.edges, p), nodes)
  {
    ok, crossed := true, [];
    var edges := input.FindEdge(p);
    if edges != [] {
      var e := edges[0];
      if e.src in nodes {
        ok := g.Connect(w, e);
      } else {
        crossed := [e];
      }
    }
  }

  /** One more port, as the walk over a node's ports needs it. */
  lemma PortStep(w: World, es: seq<Edge>, ports: seq<Port>, j: nat, nodes: seq<Node>, before: seq<Edge>)
    requires j < |ports|
    ensures var kept := Kept(FirstEdge(es, ports[j]), nodes);
            var s, t := Inside(PortsEdges(es, ports[..j]), nodes), Inside(PortsEdges(es, ports[..j + 1]), nodes);
            && before + t == before + s + kept
            && (AllMatch(w, t) <==> AllMatch(w, s) && AllMatch(w, kept))
            && (!AllMatch(w, t) ==> !AllMatch(w, Inside(PortsEdges(es, ports), nodes)))
    ensures Outside(PortsEdges(es, ports[..j + 1]), nodes)
         == Outside(PortsEdges(es, ports[..j]), nodes) + Passed(FirstEdge(es, ports[j]), nodes)
  {
    var kept := Kept(FirstEdge(es, ports[j]), nodes);
    var s := Inside(PortsEdges(es, ports[..j]), nodes);
    PortTurn(es, ports, j, nodes);
    ConcatAssociates(before, s, kept);
    MatchConcat(w, s, kept);
    PortPrefix(es, ports, j + 1, nodes);
  }

  /** One more port. */
  lemma PortTurn(es: seq<Edge>, ports: seq<Port>, j: nat, nodes: seq<Node>)
    requires j < |ports|
    ensures var s, f := PortsEdges(es, ports[..j]), FirstEdge(es, ports[j]);
            && PortsEdges(es, ports[..j + 1]) == s + f
            && Inside(PortsEdges(es, ports[..j + 1]), nodes) == Inside(s, nodes) + Kept(f, nodes)
            && Outside(PortsEdges(es, ports[..j + 1]), nodes) == Outside(s, nodes) + Passed(f, nodes)
  {
    assert ports[..j + 1][..j] == ports[..j];
    var f := FirstEdge(es, ports[j]);
    InsideConcat(PortsEdges(es, ports[..j]), f, nodes);
    assert f != [] ==> f == [f[0]] && f[..0] == [];
  }

  /** What a prefix of the ports puts inside is put inside in the end. */
  lemma {:induction false} PortPrefix(es: seq<Edge>, ports: seq<Port>, j: nat, nodes: seq<Node>)
    requires j <= |ports|
    ensures forall e :: e in Inside(PortsEdges(es, ports[..j]), nodes) ==> e in Inside(PortsEdges(es, ports), nodes)
    decreases |ports| - j
  {
    if j == |ports| {
      assert ports[..j] == ports;
    } else {
      PortTurn(es, ports, j, nodes);
      PortPrefix(es, ports, j + 1, nodes);
    }
  }

  lemma NodeTurn(w: World, es: seq<Edge>, list: seq<Node>, j: nat, nodes: seq<Node>)
    requires j < |list|
    ensures var s, f := NodesEdges(w, es, list[..j]), PortsEdges(es, w.inputPorts(list[j]));
            && Inside(NodesEdges(w, es, list[..j + 1]), nodes) == Inside(s, nodes) + Inside(f, nodes)
            && Outside(NodesEdges(w, es, list[..j + 1]), nodes) == Outside(s, nodes) + Outside(f, nodes)
  {
    assert list[..j + 1][..j] == list[..j];
    InsideConcat(NodesEdges(w, es, list[..j]), PortsEdges(es, w.inputPorts(list[j])), nodes);
  }

  lemma {:induction false} NodePrefix(w: World, es: seq<Edge>, list: seq<Node>, j: nat, nodes: seq<Node>)
    requires j <= |list|
    ensures forall e :: e in Inside(NodesEdges(w, es, list[..j]), nodes) ==> e in Inside(NodesEdges(w, es, list), nodes)
    decreases |list| - j
  {
    if j == |list| {
      assert list[..j] == list;
    } else {
      NodeTurn(w, es, list, j, nodes);
      NodePrefix(w, es, list, j + 1, nodes);
    }
  }

  /** The first pass for one group: its subgraph, and the edges that enter it from outside. */
  method SplitGroup(w: World, input: Graph, nodes: seq<Node>) returns (ok: bool, g: Graph, crossed: seq<Edge>)
    ensures fresh(g) && g.orphans == [] && g.streamEdges == StreamEdges(w, g.edges)
    ensures ok <==> AllMatch(w, LocalEdges(w, input.edges, nodes))
    ensures ok ==> g.edges == LocalEdges(w, input.edges, nodes)
    ensures ok ==> crossed == Outside(NodesEdges(w, input.edges, nodes), nodes)
  {
    g := new Graph();
    crossed := [];
    for j := 0 to |nodes|
      invariant fresh(g) && g.orphans == [] && g.streamEdges == StreamEdges(w, g.edges)
      invariant g.edges == Inside(NodesEdges(w, input.edges, nodes[..j]), nodes)
      invariant crossed == Outside(NodesEdges(w, input.edges, nodes[..j]), nodes)
      invariant AllMatch(w, Inside(NodesEdges(w, input.edges, nodes[..j]), nodes))
    {
      var fine, more := SplitNode(w, input, nodes[j], nodes, g);
      NodeTurn(w, input.edges, nodes, j, nodes);
      if !fine {
        NodePrefix(w, input.edges, nodes, j + 1, nodes);
        return false, g, [];
      }
      crossed := crossed + more;
    }
    assert nodes[..|nodes|] == nodes;
    ok := true;
  }

  /** The second pass for one group: nodes without an edge of their own become orphans. */
  method AddOrphans(g: Graph, nodes: seq<Node>)
    requires g.orphans == []
    requires UsedNodes(g.edges, []) <= set n | n in nodes
    modifies g`orphans
    ensures UsedNodes(g.edges, g.orphans) == set n | n in nodes
    ensures forall n :: n in g.orphans <==> n in nodes && n !in UsedNodes(g.edges, [])
  {
    for j := 0 to |nodes|
      invariant forall n :: n in g.orphans <==> n in nodes[..j] && n !in UsedNodes(g.edges, [])
    {
      assert nodes[..j + 1] == nodes[..j] + [nodes[j]];
      var connected := g.Touches(nodes[j]);
      if !connected {
        g.AddOrphanNode(nodes[j]);
      }
    }
    assert nodes[..|nodes|] == nodes;
    assert forall n :: n in UsedNodes(g.edges, g.orphans) <==> n in UsedNodes(g.edges, []) || n in g.orphans;
  }

  lemma LocalNodes(w: World, es: seq<Edge>, nodes: seq<Node>)
    requires WellFormed(w, es) && Distinct(nodes)
    ensures UsedNodes(LocalEdges(w, es, nodes), []) <= set n | n in nodes
  {
    forall e | e in LocalEdges(w, es, nodes) ensures e.src in nodes && e.dst in nodes {
      LocalCount(w, es, nodes, e);
      assert multiset(LocalEdges(w, es, nodes))[e] > 0;
    }
  }

  /** The subgraph of a group, complete with orphans. */
  ghost predicate FilledAt(w: World, es: seq<Edge>, nodes: seq<Node>, g: Graph)
    reads g
  {
    && g.edges == LocalEdges(w, es, nodes)
    && g.streamEdges == StreamEdges(w, g.edges)
    && UsedNodes(g.edges, g.orphans) == set n | n in nodes
  }

  /** What a finished subgraph holds: the edges inside its group, each once, the stream edges among them, and
    * exactly the nodes of the group. */
  lemma FilledMeans(w: World, es: seq<Edge>, groups: seq<seq<Node>>, graphs: seq<Graph>, i: nat, x: Edge)
    requires WellFormed(w, es) && Disjoint(groups) && AllFilled(w, es, groups, graphs) && i < |groups|
    ensures |graphs| == |groups|
    ensures var inside := x in es && x.src in groups[i] && x.dst in groups[i];
            var stream := w.stream(x.srcPort) || w.stream(x.dstPort);
            && multiset(graphs[i].edges)[x] == (if inside then 1 else 0)
            && multiset(graphs[i].streamEdges)[x] == (if inside && stream then 1 else 0)
    ensures forall n :: n in groups[i]
                   <==> n in graphs[i].orphans || exists e :: e in graphs[i].edges && (e.src == n || e.dst == n)
  {
    assert FilledAt(w, es, groups[i], graphs[i]);
    LocalCount(w, es, groups[i], x);
    StreamEdgesCount(w, graphs[i].edges, x);
    forall n
      ensures n in groups[i]
         <==> n in graphs[i].orphans || exists e :: e in graphs[i].edges && (e.src == n || e.dst == n)
    {
      UsedNodesAre(graphs[i].edges, graphs[i].orphans, n);
    }
  }

  /** The first subgraph that uses a node. */
  method FindGraph(w: World, ghost es: seq<Edge>, ghost groups: seq<seq<Node>>, graphs: seq<Graph>, n: Node)
    returns (found: bool, at: nat)
    requires AllFilled(w, es, groups, graphs)
    ensures found <==> Covered(groups, n)
    ensures found ==> at == GroupOf(groups, n)
  {
    at := 0;
    while at < |graphs|
      invariant 0 <= at <= |graphs| && forall j :: 0 <= j < at ==> n !in groups[j]
    {
      var blocks := graphs[at].CalcUsedNodes();
      assert FilledAt(w, es, groups[at], graphs[at]);
      if n in blocks {
        FirstGroup(groups, n, at);
        return true, at;
      }
      at := at + 1;
    }
    found := false;
  }

  lemma {:induction false} FirstGroup(groups: seq<seq<Node>>, n: Node, at: nat)
    requires at < |groups| && n in groups[at] && forall j :: 0 <= j < at ==> n !in groups[j]
    ensures Covered(groups, n) && GroupOf(groups, n) == at
    decreases at
  {
    if at != 0 {
      assert n !in groups[0];
      assert forall j :: 0 <= j < at - 1 ==> groups[1..][j] == groups[j + 1];
      FirstGroup(groups[1..], n, at - 1);
    }
  }

  /** A subgraph after the first pass. */
  ghost predicate Split(w: World, es: seq<Edge>, nodes: seq<Node>, g: Graph)
    reads g
  {
    g.orphans == [] && g.edges == LocalEdges(w, es, nodes) && g.streamEdges == StreamEdges(w, g.edges)
  }

  ghost predicate AllSplit(w: World, es: seq<Edge>, groups: seq<seq<Node>>, graphs: seq<Graph>)
    reads graphs
  {
    |graphs| == |groups| && forall i :: 0 <= i < |graphs| ==> Split(w, es, groups[i], graphs[i])
  }

  lemma MatchTurn(w: World, es: seq<Edge>, groups: seq<seq<Node>>, k: nat)
    requires k < |groups| && GroupsMatch(w, es, groups[..k])
    ensures AllMatch(w, LocalEdges(w, es, groups[k])) <==> GroupsMatch(w, es, groups[..k + 1])
    ensures !AllMatch(w, LocalEdges(w, es, groups[k])) ==> !GroupsMatch(w, es, groups)
  {
    var more := groups[..k + 1];
    assert more[k] == groups[k];
    if AllMatch(w, LocalEdges(w, es, groups[k])) {
      forall i | 0 <= i < |more| ensures AllMatch(w, LocalEdges(w, es, more[i])) {
        if i < k {
          assert AllMatch(w, LocalEdges(w, es, groups[..k][i]));
        }
      }
    }
  }

  predicate GroupsMatch(w: World, es: seq<Edge>, groups: seq<seq<Node>>) {
    forall i :: 0 <= i < |groups| ==> AllMatch(w, LocalEdges(w, es, groups[i]))
  }

  lemma SplitTurn(w: World, es: seq<Edge>, groups: seq<seq<Node>>, graphs: seq<Graph>, g: Graph)
    requires |graphs| < |groups| && AllSplit(w, es, groups[..|graphs|], graphs) && Distinct(graphs)
    requires Split(w, es, groups[|graphs|], g) && g !in graphs
    ensures AllSplit(w, es, groups[..|graphs| + 1], graphs + [g]) && Distinct(graphs + [g])
  {
    var some, all := groups[..|graphs|], graphs + [g];
    forall i | 0 <= i < |all| ensures Split(w, es, groups[..|all|][i], all[i]) {
      if i < |graphs| {
        assert Split(w, es, some[i], graphs[i]);
      }
    }
  }

  lemma CrossTurn(w: World, es: seq<Edge>, groups: seq<seq<Node>>, k: nat)
    requires k < |groups|
    ensures CrossEdges(w, es, groups[..k + 1])
         == CrossEdges(w, es, groups[..k]) + Outside(NodesEdges(w, es, groups[k]), groups[k])
  {
    assert groups[..k + 1][..k] == groups[..k];
  }

  /** The first pass over all groups. */
  method SplitGroups(w: World, input: Graph, groups: seq<seq<Node>>)
    returns (ok: bool, graphs: seq<Graph>, crossed: seq<Edge>)
    ensures ok <==> GroupsMatch(w, input.edges, groups)
    ensures ok ==> AllSplit(w, input.edges, groups, graphs) && crossed == CrossEdges(w, input.edges, groups)
    ensures ok ==> Distinct(graphs) && fresh(graphs)
  {
    graphs, crossed := [], [];
    for k := 0 to |groups|
      invariant AllSplit(w, input.edges, groups[..k], graphs) && Distinct(graphs) && fresh(graphs)
      invariant crossed == CrossEdges(w, input.edges, groups[..k])
      invariant GroupsMatch(w, input.edges, groups[..k])
    {
      MatchTurn(w, input.edges, groups, k);
      var fine, g, more := SplitGroup(w, input, groups[k]);
      if !fine {
        return false, [], [];
      }
      CrossTurn(w, input.edges, groups, k);
      SplitTurn(w, input.edges, groups, graphs, g);
      graphs := graphs + [g];
      crossed := crossed + more;
    }
    assert groups[..|groups|] == groups;
    ok := true;
  }

  ghost predicate AllFilled(w: World, es: seq<Edge>, groups: seq<seq<Node>>, graphs: seq<Graph>)
    reads graphs
  {
    |graphs| == |groups| && forall i :: 0 <= i < |graphs| ==> FilledAt(w, es, groups[i], graphs[i])
  }

  lemma Apart(graphs: seq<Graph>, k: nat)
    requires Distinct(graphs) && k < |graphs|
    ensures graphs[k] !in graphs[..k] && graphs[k] !in graphs[k + 1..]
  {
  }

  lemma FillTurn(w: World, es: seq<Edge>, groups: seq<seq<Node>>, graphs: seq<Graph>, k: nat)
    requires k < |groups| == |graphs| && AllFilled(w, es, groups[..k], graphs[..k])
    requires FilledAt(w, es, groups[k], graphs[k])
    ensures AllFilled(w, es, groups[..k + 1], graphs[..k + 1])
  {
    var all, filled := groups[..k + 1], graphs[..k + 1];
    forall i | 0 <= i < k + 1
      ensures FilledAt(w, es, all[i], filled[i])
    {
      if i < k {
        assert FilledAt(w, es, groups[..k][i], graphs[..k][i]);
      }
    }
  }

  lemma RestSplit(w: World, es: seq<Edge>, groups: seq<seq<Node>>, graphs: seq<Graph>, k: nat)
    requires k < |groups| == |graphs| && AllSplit(w, es, groups[k..], graphs[k..])
    ensures Split(w, es, groups[k], graphs[k]) && AllSplit(w, es, groups[k + 1..], graphs[k + 1..])
  {
    assert groups[k..][0] == groups[k] && graphs[k..][0] == graphs[k];
    assert groups[k..][1..] == groups[k + 1..] && graphs[k..][1..] == graphs[k + 1..];
  }

  /** The second pass over all groups. */
  method FillGroups(w: World, ghost es: seq<Edge>, groups: seq<seq<Node>>, graphs: seq<Graph>)
    requires WellFormed(w, es) && Disjoint(groups) && Distinct(graphs)
    requires AllSplit(w, es, groups, graphs)
    modifies graphs
    ensures AllFilled(w, es, groups, graphs)
  {
    assert groups[0..] == groups && graphs[0..] == graphs;
    for k := 0 to |groups|
      invariant AllFilled(w, es, groups[..k], graphs[..k])
      invariant AllSplit(w, es, groups[k..], graphs[k..])
    {
      FillNext(w, es, groups, graphs, k);
    }
    assert groups[..|groups|] == groups && graphs[..|groups|] == graphs;
  }

  /** The group at `k` is filled; the graphs before it stay filled and those after it stay split. */
  method FillNext(w: World, ghost es: seq<Edge>, groups: seq<seq<Node>>, graphs: seq<Graph>, k: nat)
    requires k < |groups| == |graphs| && WellFormed(w, es) && Distinct(groups[k]) && Distinct(graphs)
    requires AllFilled(w, es, groups[..k], graphs[..k]) && AllSplit(w, es, groups[k..], graphs[k..])
    modifies graphs[k]
    ensures AllFilled(w, es, groups[..k + 1], graphs[..k + 1])
    ensures AllSplit(w, es, groups[k + 1..], graphs[k + 1..])
  {
    Apart(graphs, k);
    RestSplit(w, es, groups, graphs, k);
    FillGroup(w, es, groups[k], graphs[k]);
    FillTurn(w, es, groups, graphs, k);
  }

  method FillGroup(w: World, ghost es: seq<Edge>, nodes: seq<Node>, g: Graph)
    requires WellFormed(w, es) && Distinct(nodes) && Split(w, es, nodes, g)
    modifies g`orphans
    ensures FilledAt(w, es, nodes, g)
  {
    LocalNodes(w, es, nodes);
    AddOrphans(g, nodes);
  }

  /** The third pass: both subgraphs of every crossing are found, so this never throws. */
  method FindSides(w: World, ghost es: seq<Edge>, ghost groups: seq<seq<Node>>, graphs: seq<Graph>, crossed: seq<Edge>)
    returns (ok: bool, crossings: seq<Crossing>)
    requires AllFilled(w, es, groups, graphs) && Covers(groups, crossed)
    ensures ok && crossings == Resolve(groups, crossed)
  {
    crossings := [];
    CoversPrefixes(groups, crossed);
    for k := 0 to |crossed|
      invariant crossings == Resolve(groups, crossed[..k])
    {
      var c := crossed[k];
      ResolveTurn(groups, crossed, k);
      var hasSrc, from := FindGraph(w, es, groups, graphs, c.src);
      var hasDst, to := FindGraph(w, es, groups, graphs, c.dst);
      if !hasSrc || !hasDst {
        return false, [];
      }
      crossings := crossings + [Crossing(c, from, to)];
    }
    assert crossed[..|crossed|] == crossed;
    ok := true;
  }

  lemma CoversPrefixes(groups: seq<seq<Node>>, s: seq<Edge>)
    requires Covers(groups, s)
    ensures forall k :: 0 <= k <= |s| ==> Covers(groups, s[..k])
  {
  }

  lemma ResolveTurn(groups: seq<seq<Node>>, s: seq<Edge>, k: nat)
    requires k < |s| && Covers(groups, s) && Covers(groups, s[..k]) && Covers(groups, s[..k + 1])
    ensures Covered(groups, s[k].src) && Covered(groups, s[k].dst)
    ensures Resolve(groups, s[..k + 1])
         == Resolve(groups, s[..k]) + [Crossing(s[k], GroupOf(groups, s[k].src), GroupOf(groups, s[k].dst))]
  {
  }

  /** Throws exactly when some edge inside a group joins ports of different known sizes. */
  method Partition(w: World, input: Graph, groups: seq<seq<Node>>)
    returns (ok: bool, graphs: seq<Graph>, crossings: seq<Crossing>)
    requires WellFormed(w, input.edges) && Disjoint(groups) && Covers(groups, input.edges)
    ensures ok <==> GroupsMatch(w, input.edges, groups)
    ensures ok ==> AllFilled(w, input.edges, groups, graphs) && Distinct(graphs) && fresh(graphs)
    ensures ok ==> Covers(groups, CrossEdges(w, input.edges, groups))
    ensures ok ==> crossings == Resolve(groups, CrossEdges(w, input.edges, groups))
  {
    var crossed;
    ok, graphs, crossed := SplitGroups(w, input, groups);
    if !ok {
      return false, [], [];
    }
    CrossEdgesEnter(w, input.edges, groups);
    FillGroups(w, input.edges, groups, graphs);
    ok, crossings := FindSides(w, input.edges, groups, graphs, crossed);
  }

  ghost predicate StreamsOk(w: World, graphs: seq<Graph>)
    reads graphs
  {
    forall i :: 0 <= i < |graphs| ==> graphs[i].streamEdges == StreamEdges(w, graphs[i].edges)
  }

  function AddedBy(c: Crossing, i: nat): seq<Edge> {
    (if c.from == i then [c.edge] else []) + (if c.to == i then [c.edge] else [])
  }

  method ConnectCrossing(w: World, graphs: seq<Graph>, c: Crossing)
    requires Distinct(graphs) && StreamsOk(w, graphs) && c.from < |graphs| && c.to < |graphs|
    modifies graphs
    ensures forall i :: 0 <= i < |graphs| ==> graphs[i].edges == old(graphs[i].edges) + AddedBy(c, i)
    ensures forall i :: 0 <= i < |graphs| ==> graphs[i].orphans == old(graphs[i].orphans)
    ensures StreamsOk(w, graphs)
  {
    graphs[c.from].AddEdge(w, c.edge);
    graphs[c.to].AddEdge(w, c.edge);
    forall i | 0 <= i < |graphs|
      ensures graphs[i].edges == old(graphs[i].edges) + AddedBy(c, i) && graphs[i].orphans == old(graphs[i].orphans)
      ensures graphs[i].streamEdges == StreamEdges(w, graphs[i].edges)
    {
      assert i != c.from ==> graphs[i] != graphs[c.from];
      assert i != c.to ==> graphs[i] != graphs[c.to];
    }
  }

  /** Adds every crossing to both of its subgraphs. */
  method ConnectCrossings(w: World, graphs: seq<Graph>, crossings: seq<Crossing>)
    requires Distinct(graphs) && StreamsOk(w, graphs)
    requires forall c :: c in crossings ==> c.from < |graphs| && c.to < |graphs|
    modifies graphs
    ensures forall i :: 0 <= i < |graphs| ==> graphs[i].edges == old(graphs[i].edges) + AddedTo(crossings, i)
    ensures forall i :: 0 <= i < |graphs| ==> graphs[i].orphans == old(graphs[i].orphans)
    ensures StreamsOk(w, graphs)
  {
    for k := 0 to |crossings|
      invariant forall i :: 0 <= i < |graphs| ==> graphs[i].edges == old(graphs[i].edges) + AddedTo(crossings[..k], i)
      invariant forall i :: 0 <= i < |graphs| ==> graphs[i].orphans == old(graphs[i].orphans)
      invariant StreamsOk(w, graphs)
    {
      ghost var before := seq(|graphs|, i reads graphs requires 0 <= i < |graphs| => graphs[i].edges);
      ConnectCrossing(w, graphs, crossings[k]);
      forall i | 0 <= i < |graphs| ensures graphs[i].edges == old(graphs[i].edges) + AddedTo(crossings[..k + 1], i) {
        AddedTurn(crossings, k, i);
        ConcatAssociates(old(graphs[i].edges), AddedTo(crossings[..k], i), AddedBy(crossings[k], i));
        assert before[i] == old(graphs[i].edges) + AddedTo(crossings[..k], i);
      }
    }
    assert crossings[..|crossings|] == crossings;
  }

  lemma AddedTurn(crossings: seq<Crossing>, k: nat, i: nat)
    requires k < |crossings|
    ensures AddedTo(crossings[..k + 1], i) == AddedTo(crossings[..k], i) + AddedBy(crossings[k], i)
    ensures var c := crossings[k];
            AddedBy(c, i) == (if c.from == i then [c.edge] else []) + (if c.to == i then [c.edge] else [])
  {
    assert crossings[..k + 1][..k] == crossings[..k];
  }
}
