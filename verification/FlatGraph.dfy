/** The graph algorithms of flat_graph.cc: depth-first topological sort and partition into
  * connected groups, with the colours the searches leave behind.
  *
  * An edge is a pair of blocks; ports play no part here. The colour map is a field that
  * survives from one search to the next, as in the source.
  */
module FlatGraph {
  import opened Sequences

  type Block = nat

  datatype Edge = Edge(src: Block, dst: Block)

  datatype Color = White | Grey | Black

  // ----- graph notions

  function Elems(s: seq<Block>): set<Block> { set x | x in s }

  /** No edge leads into or out of the set. */
  predicate Closed(es: seq<Edge>, s: set<Block>) {
    forall e :: e in es ==> (e.src in s <==> e.dst in s)
  }

  /** Some block of the set is fed by two different blocks. */
  ghost predicate TwoUpstreams(es: seq<Edge>, s: set<Block>) {
    exists u, v, d :: u != v && d in s && Edge(u, d) in es && Edge(v, d) in es
  }

  predicate IsWalk(es: seq<Edge>, p: seq<Block>) {
    forall i :: 0 <= i < |p| - 1 ==> Edge(p[i], p[i + 1]) in es
  }

  predicate IsCycle(es: seq<Edge>, p: seq<Block>) {
    2 <= |p| && p[0] == p[|p| - 1] && IsWalk(es, p)
  }

  ghost predicate HasCycle(es: seq<Edge>, s: set<Block>) {
    exists p :: IsCycle(es, p) && p[0] in s
  }

  /** Every edge out of an element leads to a later one. */
  ghost predicate Forward(es: seq<Edge>, r: seq<Block>) {
    forall i, d :: 0 <= i < |r| && Edge(r[i], d) in es ==> d in r[i + 1..]
  }

  predicate IsSource(es: seq<Edge>, b: Block) { forall e :: e in es ==> e.dst != b }

  lemma {:induction false} WalkGoesForward(es: seq<Edge>, r: seq<Block>, p: seq<Block>, k: nat)
    requires Forward(es, r) && IsWalk(es, p) && 0 < k < |p| && p[0] in r
    ensures exists i, j :: 0 <= i < j < |r| && r[i] == p[0] && r[j] == p[k]
    decreases k
  {
    if k == 1 {
      var i :| 0 <= i < |r| && r[i] == p[0];
      assert Edge(r[i], p[1]) in es;
    } else {
      WalkGoesForward(es, r, p, k - 1);
      var i, j :| 0 <= i < j < |r| && r[i] == p[0] && r[j] == p[k - 1];
      assert Edge(r[j], p[k]) in es;
      var m :| 0 <= m < |r[j + 1..]| && r[j + 1..][m] == p[k];
      assert r[j + 1 + m] == p[k];
    }
  }

  /** A list without repetitions in which all edges lead forward has no cycle through it. */
  lemma ForwardHasNoCycle(es: seq<Edge>, r: seq<Block>)
    requires Distinct(r) && Forward(es, r)
    ensures !HasCycle(es, Elems(r))
  {
    if HasCycle(es, Elems(r)) {
      var p :| IsCycle(es, p) && p[0] in Elems(r);
      WalkGoesForward(es, r, p, |p| - 1);
      assert false;
    }
  }

  ghost predicate FedFrom(es: seq<Edge>, s: set<Block>, x: Block) {
    exists u :: u in s && Edge(u, x) in es
  }

  lemma CloseCycle(es: seq<Edge>, s: set<Block>, p: seq<Block>, u: Block)
    requires p != [] && IsWalk(es, p) && u in s && Edge(u, p[0]) in es && u in p
    ensures HasCycle(es, s)
  {
    var i :| 0 <= i < |p| && p[i] == u;
    assert IsCycle(es, ([u] + p)[..i + 2]);
  }

  lemma ExtendBack(es: seq<Edge>, s: set<Block>, p: seq<Block>, u: Block)
    requires p != [] && IsWalk(es, p) && Elems(p) <= s && u in s && Edge(u, p[0]) in es && u !in p
    ensures IsWalk(es, [u] + p) && Elems([u] + p) <= s && |s - Elems([u] + p)| < |s - Elems(p)|
  {
    assert Elems([u] + p) == Elems(p) + {u};
    assert s - Elems(p) == (s - Elems([u] + p)) + {u};
  }

  /** Walking upstream inside a finite set that never runs out of upstream blocks closes a cycle. */
  lemma {:induction false} WalkBack(es: seq<Edge>, s: set<Block>, p: seq<Block>)
    requires p != [] && IsWalk(es, p) && Elems(p) <= s
    requires forall x :: x in s ==> FedFrom(es, s, x)
    ensures HasCycle(es, s)
    decreases |s - Elems(p)|
  {
    assert p[0] in Elems(p) && FedFrom(es, s, p[0]);
    var u :| u in s && Edge(u, p[0]) in es;
    if u in p {
      CloseCycle(es, s, p, u);
    } else {
      ExtendBack(es, s, p, u);
      WalkBack(es, s, [u] + p);
    }
  }

  lemma NoSourceMeansCycle(es: seq<Edge>, s: set<Block>)
    requires s != {}
    requires forall x :: x in s ==> FedFrom(es, s, x)
    ensures HasCycle(es, s)
  {
    var x :| x in s;
    assert IsWalk(es, [x]);
    WalkBack(es, s, [x]);
  }

  // ----- the depth-first search as a forest

  /** History of a topological search: the blocks visited, who visited each, and the ones
    * the outer loop started from. */
  datatype Forest = Forest(visited: set<Block>, parent: map<Block, Block>, roots: set<Block>)

  predicate ForestOk(es: seq<Edge>, f: Forest) {
    && f.parent.Keys + f.roots == f.visited
    && f.parent.Keys !! f.roots
    && forall x :: x in f.parent ==> Edge(f.parent[x], x) in es && f.parent[x] in f.visited
  }

  predicate Extends(f: Forest, g: Forest) {
    && f.visited <= g.visited
    && forall x :: x in f.parent ==> x in g.parent && g.parent[x] == f.parent[x]
  }

  /** Every edge out of an element leads to an earlier one. */
  ghost predicate PostOrder(es: seq<Edge>, s: seq<Block>) {
    forall i, d :: 0 <= i < |s| && Edge(s[i], d) in es ==> d in s[..i]
  }

  /** Every edge out of an element was the one its target was visited by. */
  ghost predicate Adopted(es: seq<Edge>, f: Forest, s: seq<Block>) {
    forall x, d :: x in s && Edge(x, d) in es ==> d in f.parent && f.parent[d] == x
  }

  predicate Grown(es: seq<Edge>, b: Block, f: Forest, g: Forest) {
    ForestOk(es, g) && Extends(f, g) && g.roots <= f.roots + {b}
  }

  ghost predicate Ordered(es: seq<Edge>, g: Forest, s: seq<Block>) {
    Distinct(s) && PostOrder(es, s) && Adopted(es, g, s)
  }

  /** The list holds exactly the blocks of the set. */
  ghost predicate Lists(s: seq<Block>, blocks: set<Block>) { forall x :: x in s <==> x in blocks }

  /** What a completed visit of b added: `done`, in post-order, with b last. */
  ghost predicate VisitDone(es: seq<Edge>, b: Block, f: Forest, g: Forest, done: seq<Block>) {
    && Grown(es, b, f, g) && Ordered(es, g, done)
    && done != [] && done[|done| - 1] == b
    && Lists(done, g.visited - f.visited)
    && forall x :: x in done && x != b ==> x in g.parent && g.parent[x] in done
  }

  /** The children of b seen so far, and no others, have b for parent. */
  predicate ChildrenOf(b: Block, ds: seq<Block>, k: nat, g: Forest, done: seq<Block>)
    requires k <= |ds|
  {
    && (forall j :: 0 <= j < k ==> ds[j] in done && ds[j] in g.parent && g.parent[ds[j]] == b)
    && forall x :: x in g.parent && g.parent[x] == b ==> x in ds[..k]
  }

  /** b is open and its first k downstream blocks have been visited. */
  ghost predicate VisitOpen(es: seq<Edge>, b: Block, ds: seq<Block>, k: nat, f: Forest, g: Forest, done: seq<Block>)
    requires k <= |ds|
  {
    && Grown(es, b, f, g) && Ordered(es, g, done)
    && b !in f.visited && b in g.visited
    && Lists(done, g.visited - f.visited - {b})
    && (forall x :: x in done ==> x in g.parent && (g.parent[x] in done || g.parent[x] == b))
    && ChildrenOf(b, ds, k, g, done)
  }

  /** The forest after block b has been coloured, visited from `up` unless it is a root. */
  function Enter(f: Forest, b: Block, root: bool, up: Block): Forest {
    if root then Forest(f.visited + {b}, f.parent, f.roots + {b})
    else Forest(f.visited + {b}, f.parent[b := up], f.roots)
  }

  lemma EnterOpens(es: seq<Edge>, b: Block, ds: seq<Block>, f: Forest, root: bool, up: Block)
    requires ForestOk(es, f) && b !in f.visited
    requires !root ==> Edge(up, b) in es && up in f.visited
    ensures VisitOpen(es, b, ds, 0, f, Enter(f, b, root, up), [])
  {
    var g := Enter(f, b, root, up);
    assert g.parent.Keys == if root then f.parent.Keys else f.parent.Keys + {b};
  }

  lemma PostOrderConcat(es: seq<Edge>, s: seq<Block>, t: seq<Block>)
    requires PostOrder(es, s) && PostOrder(es, t)
    ensures PostOrder(es, s + t)
  {
    var r := s + t;
    forall i, d | 0 <= i < |r| && Edge(r[i], d) in es ensures d in r[..i] {
      if i < |s| {
        assert r[..i] == s[..i];
      } else {
        assert r[..i] == s + t[..i - |s|];
      }
    }
  }

  lemma OrderedConcat(es: seq<Edge>, g: Forest, h: Forest, s: seq<Block>, t: seq<Block>)
    requires Ordered(es, g, s) && Ordered(es, h, t) && Extends(g, h)
    requires forall x :: x in t ==> x !in s
    ensures Ordered(es, h, s + t)
  {
    PostOrderConcat(es, s, t);
    var r := s + t;
    forall i, j | 0 <= i < j < |r| ensures r[i] != r[j] {
      if i < |s| <= j {
        assert t[j - |s|] in t;
      }
    }
  }

  lemma ChildrenStep(es: seq<Edge>, b: Block, ds: seq<Block>, k: nat, f: Forest, g: Forest, h: Forest,
                     done: seq<Block>, more: seq<Block>)
    requires k < |ds| && ChildrenOf(b, ds, k, g, done) && ForestOk(es, g)
    requires Extends(g, h) && Lists(more, h.visited - g.visited) && ForestOk(es, h) && h.roots == g.roots
    requires more != [] && more[|more| - 1] == ds[k] && b !in more
    requires ds[k] in h.parent && h.parent[ds[k]] == b
    requires forall x :: x in more && x != ds[k] ==> x in h.parent && h.parent[x] in more
    ensures ChildrenOf(b, ds, k + 1, h, done + more)
  {
    assert ds[..k + 1] == ds[..k] + [ds[k]];
    forall j | 0 <= j < k + 1 ensures ds[j] in done + more && ds[j] in h.parent && h.parent[ds[j]] == b {
      if j == k {
        assert ds[k] in more;
      }
    }
    forall x | x in h.parent && h.parent[x] == b ensures x in ds[..k + 1] {
      if x !in g.parent {
        assert x !in g.visited;
        assert x in more;
      }
    }
  }

  lemma ChildStep(es: seq<Edge>, b: Block, ds: seq<Block>, k: nat, f: Forest, g: Forest, h: Forest,
                  done: seq<Block>, more: seq<Block>)
    requires k < |ds| && VisitOpen(es, b, ds, k, f, g, done)
    requires VisitDone(es, ds[k], g, h, more) && h.roots == g.roots
    requires ds[k] in h.parent && h.parent[ds[k]] == b
    ensures VisitOpen(es, b, ds, k + 1, f, h, done + more)
  {
    OrderedConcat(es, g, h, done, more);
    ChildrenStep(es, b, ds, k, f, g, h, done, more);
  }

  lemma ChildDone(es: seq<Edge>, b: Block, ds: seq<Block>, k: nat, f: Forest, first: Forest, g: Forest, h: Forest,
                  done: seq<Block>, more: seq<Block>)
    requires k < |ds| && VisitOpen(es, b, ds, k, f, g, done)
    requires VisitDone(es, ds[k], g, h, more) && h.roots == g.roots && Extends(first, g)
    requires ds[k] in h.parent && h.parent[ds[k]] == b
    ensures VisitOpen(es, b, ds, k + 1, f, h, done + more) && Extends(first, h)
  {
    ChildStep(es, b, ds, k, f, g, h, done, more);
    ExtendsTransitive(first, g, h);
  }

  lemma OrderedLast(es: seq<Edge>, g: Forest, s: seq<Block>, b: Block)
    requires Ordered(es, g, s) && b !in s
    requires forall d :: Edge(b, d) in es ==> d in s && d in g.parent && g.parent[d] == b
    ensures Ordered(es, g, s + [b])
  {
    var r := s + [b];
    forall i, d | 0 <= i < |r| && Edge(r[i], d) in es ensures d in r[..i] {
      if i < |s| {
        assert r[..i] == s[..i];
      } else {
        assert r[..i] == s;
      }
    }
  }

  lemma CloseVisit(es: seq<Edge>, b: Block, ds: seq<Block>, f: Forest, g: Forest, done: seq<Block>)
    requires VisitOpen(es, b, ds, |ds|, f, g, done)
    requires forall d :: Edge(b, d) in es ==> d in ds
    ensures VisitDone(es, b, f, g, done + [b])
  {
    OrderedLast(es, g, done, b);
    assert forall x :: x in done + [b] <==> x in done || x == b;
  }

  /** A downstream block already visited, met by b, has another upstream block or is a root. */
  lemma RevisitMeansTwo(es: seq<Edge>, b: Block, ds: seq<Block>, k: nat, f: Forest, g: Forest, done: seq<Block>,
                        u: set<Block>)
    requires k < |ds| && Distinct(ds) && VisitOpen(es, b, ds, k, f, g, done)
    requires Edge(b, ds[k]) in es && ds[k] in g.visited && ds[k] in u
    ensures TwoUpstreams(es, u) || ds[k] in g.roots
  {
    var d := ds[k];
    if d in g.parent {
      assert g.parent[d] != b;
      assert Edge(g.parent[d], d) in es;
    }
  }

  // ----- the outcome of a topological sort

  ghost predicate RootFed(es: seq<Edge>, roots: set<Block>) { exists d :: d in roots && !IsSource(es, d) }

  /** The outer loop between two visits. */
  ghost predicate Sorting(es: seq<Edge>, universe: set<Block>, f: Forest, out: seq<Block>) {
    && ForestOk(es, f) && f.visited <= universe
    && Ordered(es, f, out) && Lists(out, f.visited)
    && (RootFed(es, f.roots) ==> HasCycle(es, universe))
  }

  lemma VisitStep(es: seq<Edge>, universe: set<Block>, b: Block, f: Forest, g: Forest, out: seq<Block>,
                  more: seq<Block>)
    requires Sorting(es, universe, f, out) && VisitDone(es, b, f, g, more) && g.visited <= universe
    requires IsSource(es, b) || HasCycle(es, universe)
    ensures Sorting(es, universe, g, out + more)
  {
    OrderedConcat(es, f, g, out, more);
    assert forall x :: x in out + more <==> x in out || x in more;
    if RootFed(es, g.roots) {
      var d :| d in g.roots && !IsSource(es, d);
      assert d == b || d in f.roots;
    }
  }

  /** When every source has been visited and some block has not, the unvisited ones go in circles. */
  lemma StuckMeansCycle(es: seq<Edge>, universe: set<Block>, f: Forest, out: seq<Block>, b: Block)
    requires Closed(es, universe) && Sorting(es, universe, f, out) && b in universe && b !in f.visited
    requires forall x :: x in universe && IsSource(es, x) ==> x in f.visited
    ensures HasCycle(es, universe)
  {
    var white := universe - f.visited;
    forall x | x in white ensures FedFrom(es, white, x) {
      assert !IsSource(es, x);
      var e :| e in es && e.dst == x;
      assert Edge(e.src, x) in es;
      assert e.src !in f.visited by {
        assert e.src in out <==> e.src in f.visited;
      }
    }
    assert b in white;
    NoSourceMeansCycle(es, white);
    var p :| IsCycle(es, p) && p[0] in white;
    assert p[0] in universe;
  }

  function Reversed(s: seq<Block>): (r: seq<Block>) {
    seq(|s|, i requires 0 <= i < |s| => s[|s| - 1 - i])
  }

  lemma ReversedIsForward(es: seq<Edge>, s: seq<Block>)
    requires PostOrder(es, s) && Distinct(s)
    ensures Forward(es, Reversed(s)) && Distinct(Reversed(s)) && Lists(Reversed(s), Elems(s))
  {
    var r := Reversed(s);
    forall i, d | 0 <= i < |r| && Edge(r[i], d) in es ensures d in r[i + 1..] {
      var k := |s| - 1 - i;
      assert d in s[..k];
      var j :| 0 <= j < k && s[..k][j] == d;
      assert r[i + 1..][k - 1 - j] == d;
    }
    forall x ensures x in r <==> x in s {
      if x in s {
        var j :| 0 <= j < |s| && s[j] == x;
        assert r[|s| - 1 - j] == x;
      }
    }
  }

  /** A finished sort has seen every edge exactly once, from the only upstream block of its target. */
  lemma SortedIsForest(es: seq<Edge>, universe: set<Block>, f: Forest, out: seq<Block>)
    requires Closed(es, universe) && Sorting(es, universe, f, out) && f.visited == universe
    ensures !TwoUpstreams(es, universe) && !HasCycle(es, universe)
  {
    ReversedIsForward(es, out);
    ForwardHasNoCycle(es, Reversed(out));
    assert Elems(Reversed(out)) == universe;
    forall u, v, d | d in universe && Edge(u, d) in es && Edge(v, d) in es ensures u == v {
      assert u in out && v in out;
      assert d in f.parent && f.parent[d] == u;
    }
  }

  /** Not every acyclic graph is accepted: a block fed by two others is enough to throw. */
  lemma JoinIsRefused(a: Block, b: Block, c: Block)
    requires a != b && b != c && a != c
    ensures var es := [Edge(a, c), Edge(b, c)];
            !HasCycle(es, {a, b, c}) && TwoUpstreams(es, {a, b, c})
  {
    var es := [Edge(a, c), Edge(b, c)];
    var r := [a, b, c];
    assert r[2] == c && Forward(es, r);
    ForwardHasNoCycle(es, r);
    assert Elems(r) == {a, b, c};
    assert Edge(a, c) in es && Edge(b, c) in es;
  }

  // ----- connectivity

  predicate Adjacent(es: seq<Edge>, x: Block, y: Block) { Edge(x, y) in es || Edge(y, x) in es }

  predicate IsPath(es: seq<Edge>, p: seq<Block>, x: Block, y: Block) {
    && p != [] && p[0] == x && p[|p| - 1] == y
    && forall i :: 0 <= i < |p| - 1 ==> Adjacent(es, p[i], p[i + 1])
  }

  ghost predicate Connected(es: seq<Edge>, x: Block, y: Block) { exists p :: IsPath(es, p, x, y) }

  lemma ConnectedSelf(es: seq<Edge>, x: Block)
    ensures Connected(es, x, x)
  {
    assert IsPath(es, [x], x, x);
  }

  lemma ConnectedStep(es: seq<Edge>, x: Block, y: Block, z: Block)
    requires Connected(es, x, y) && Adjacent(es, y, z)
    ensures Connected(es, x, z)
  {
    var p :| IsPath(es, p, x, y);
    assert IsPath(es, p + [z], x, z);
  }

  lemma {:induction false} PathStaysIn(es: seq<Edge>, c: set<Block>, p: seq<Block>, x: Block, y: Block)
    requires Closed(es, c) && IsPath(es, p, x, y)
    ensures x in c <==> y in c
    decreases |p|
  {
    if 1 < |p| {
      var q := p[..|p| - 1];
      assert Adjacent(es, p[|p| - 2], p[|p| - 1]);
      PathStaysIn(es, c, q, x, q[|q| - 1]);
    }
  }

  lemma ConnectedSymmetric(es: seq<Edge>, x: Block, y: Block)
    requires Connected(es, x, y)
    ensures Connected(es, y, x)
  {
    var p :| IsPath(es, p, x, y);
    var q := Reversed(p);
    forall i | 0 <= i < |q| - 1 ensures Adjacent(es, q[i], q[i + 1]) {
      var j := |p| - 2 - i;
      assert Adjacent(es, p[j], p[j + 1]);
    }
    assert IsPath(es, q, y, x);
  }

  lemma ConnectedTransitive(es: seq<Edge>, x: Block, y: Block, z: Block)
    requires Connected(es, x, y) && Connected(es, y, z)
    ensures Connected(es, x, z)
  {
    var p :| IsPath(es, p, x, y);
    var q :| IsPath(es, q, y, z);
    var r := p + q[1..];
    forall i | 0 <= i < |r| - 1 ensures Adjacent(es, r[i], r[i + 1]) {
      if |p| - 1 <= i {
        assert Adjacent(es, q[i - |p| + 1], q[i - |p| + 2]);
      }
    }
    assert IsPath(es, r, x, z);
  }

  /** The closed set of everything connected to b. */
  ghost predicate Component(es: seq<Edge>, c: set<Block>, b: Block) {
    b in c && Closed(es, c) && forall x :: x in c ==> Connected(es, b, x)
  }

  /** A component holds exactly the blocks connected to any one of its members. */
  lemma ComponentIsConnectivityClass(es: seq<Edge>, c: set<Block>, b: Block, x: Block, y: Block)
    requires Component(es, c, b) && x in c
    ensures y in c <==> Connected(es, x, y)
  {
    if Connected(es, x, y) {
      var p :| IsPath(es, p, x, y);
      PathStaysIn(es, c, p, x, y);
    }
    if y in c {
      ConnectedSymmetric(es, b, x);
      ConnectedTransitive(es, x, b, y);
    }
  }

  ghost predicate AllConnected(es: seq<Edge>, b: Block, s: set<Block>) { forall x :: x in s ==> Connected(es, b, x) }

  /** All neighbours of the blocks in s are in c. */
  ghost predicate Spread(es: seq<Edge>, s: set<Block>, c: set<Block>) {
    forall x, y :: x in s && Adjacent(es, x, y) ==> y in c
  }

  lemma SpreadJoins(es: seq<Edge>, s: set<Block>, c: set<Block>, t: set<Block>, d: set<Block>, all: set<Block>)
    requires Spread(es, s, c) && Spread(es, t, d) && c <= d && all <= s + t
    ensures Spread(es, all, d)
  {
  }

  /** After the visit of a neighbour. */
  lemma SpreadAfterVisit(es: seq<Edge>, black: set<Block>, b: Block, before: set<Block>, after: set<Block>)
    requires before <= after && Spread(es, before - black - {b}, before) && Spread(es, after - before, after)
    ensures Spread(es, after - black - {b}, after)
  {
    SpreadJoins(es, before - black - {b}, before, after - before, after, after - black - {b});
  }

  /** After the visits of all neighbours of b. */
  lemma SpreadAtEnd(es: seq<Edge>, black: set<Block>, b: Block, after: set<Block>)
    requires Spread(es, after - black - {b}, after) && forall d :: Adjacent(es, b, d) ==> d in after
    ensures Spread(es, after - black, after)
  {
    SpreadJoins(es, after - black - {b}, after, {b}, after, after - black);
  }

  lemma SpreadIsClosed(es: seq<Edge>, universe: set<Block>, c: set<Block>)
    requires Closed(es, universe) && c <= universe && Spread(es, c, c)
    ensures Closed(es, c)
  {
    forall e | e in es ensures e.src in c <==> e.dst in c {
      assert e == Edge(e.src, e.dst);
      assert Adjacent(es, e.src, e.dst) && Adjacent(es, e.dst, e.src);
    }
  }

  // ----- groups

  function Ends(es: seq<Edge>): set<Block> {
    (set e | e in es :: e.src) + (set e | e in es :: e.dst)
  }

  function Used(es: seq<Edge>, orphans: seq<Block>): set<Block> { Ends(es) + Elems(orphans) }

  /** A block is used exactly if an edge ends or starts there, or it is an orphan. */
  lemma UsedAre(es: seq<Edge>, orphans: seq<Block>, b: Block)
    ensures b in Used(es, orphans) <==> b in orphans || exists e :: e in es && (e.src == b || e.dst == b)
  {
  }

  lemma EndsOfOneMore(es: seq<Edge>, e: Edge)
    ensures Ends(es + [e]) == Ends(es) + {e.src, e.dst}
  {
    assert forall f :: f in es + [e] <==> f in es || f == e;
  }

  lemma UsedIsClosed(es: seq<Edge>, orphans: seq<Block>)
    ensures Closed(es, Used(es, orphans))
  {
  }

  lemma ClosedDifference(es: seq<Edge>, s: set<Block>, c: set<Block>)
    requires Closed(es, s) && Closed(es, c)
    ensures Closed(es, s - c)
  {
  }

  ghost predicate IsComponent(es: seq<Edge>, c: set<Block>) { exists b :: Component(es, c, b) }

  /** A list of groups: components in topological order that share no block and cover the set. */
  ghost predicate Grouped(es: seq<Edge>, s: set<Block>, groups: seq<seq<Block>>) {
    && (forall i :: 0 <= i < |groups| ==> SortOf(es, Elems(groups[i]), groups[i]) && IsComponent(es, Elems(groups[i])))
    && (forall i, j :: 0 <= i < j < |groups| ==> Elems(groups[i]) !! Elems(groups[j]))
    && forall x :: x in s <==> InSome(groups, x)
  }

  predicate InSome(groups: seq<seq<Block>>, x: Block) { exists i :: 0 <= i < |groups| && x in groups[i] }

  predicate Together(groups: seq<seq<Block>>, x: Block, y: Block) {
    exists i :: 0 <= i < |groups| && x in groups[i] && y in groups[i]
  }

  lemma GroupStep(es: seq<Edge>, s: set<Block>, groups: seq<seq<Block>>, c: set<Block>, sorted: seq<Block>, b: Block)
    requires Grouped(es, s, groups) && s !! c && Component(es, c, b) && SortOf(es, c, sorted)
    ensures Grouped(es, s + c, groups + [sorted])
  {
    var all := groups + [sorted];
    assert Elems(sorted) == c;
    forall i | 0 <= i < |groups| ensures Elems(groups[i]) !! c {
      forall x | x in groups[i] ensures x !in c {
        assert InSome(groups, x);
      }
    }
    forall x ensures x in s + c <==> InSome(all, x) {
      if InSome(groups, x) {
        var i :| 0 <= i < |groups| && x in groups[i];
        assert x in all[i];
      }
      if x in c {
        assert x in all[|groups|];
      }
    }
  }

  /** The groups are exactly the weakly connected components. */
  lemma GroupsAreComponents(es: seq<Edge>, s: set<Block>, groups: seq<seq<Block>>, x: Block, y: Block)
    requires Grouped(es, s, groups) && x in s && y in s
    ensures Together(groups, x, y) <==> Connected(es, x, y)
  {
    assert InSome(groups, x);
    var i :| 0 <= i < |groups| && x in groups[i];
    var b :| Component(es, Elems(groups[i]), b);
    ComponentIsConnectivityClass(es, Elems(groups[i]), b, x, y);
    if Together(groups, x, y) {
      var j :| 0 <= j < |groups| && x in groups[j] && y in groups[j];
      assert x in Elems(groups[i]) && x in Elems(groups[j]);
      assert i == j;
    }
  }

  lemma FaultsSpread(es: seq<Edge>, c: set<Block>, s: set<Block>)
    requires c <= s
    ensures TwoUpstreams(es, c) ==> TwoUpstreams(es, s)
    ensures HasCycle(es, c) ==> HasCycle(es, s)
  {
    if HasCycle(es, c) {
      var p :| IsCycle(es, p) && p[0] in c;
      assert p[0] in s;
    }
  }

  lemma FaultsJoin(es: seq<Edge>, s: set<Block>, c: set<Block>)
    requires !TwoUpstreams(es, s) && !TwoUpstreams(es, c) && !HasCycle(es, s) && !HasCycle(es, c)
    ensures !TwoUpstreams(es, s + c) && !HasCycle(es, s + c)
  {
    forall p | IsCycle(es, p) ensures p[0] !in s + c {
      assert p[0] !in s && p[0] !in c;
    }
  }

  lemma EraseOne(s: seq<Block>, at: nat)
    requires Distinct(s) && at < |s|
    ensures var r := s[..at] + s[at + 1..];
            Distinct(r) && |r| == |s| - 1 && forall x :: x in r <==> x in s && x != s[at]
  {
    var r := s[..at] + s[at + 1..];
    forall x | x in s && x != s[at] ensures x in r {
      var i :| 0 <= i < |s| && s[i] == x;
      assert r[if i < at then i else i - 1] == x;
    }
  }

  // ----- the algorithms

  function ColorIn(color: map<Block, Color>, b: Block): Color {
    if b in color then color[b] else White
  }

  /** Inside the universe exactly the visited blocks carry colour c, the others are white. */
  predicate Painted(color: map<Block, Color>, universe: set<Block>, visited: set<Block>, c: Color) {
    && visited <= universe
    && forall x :: x in universe ==> ColorIn(color, x) == if x in visited then c else White
  }

  /** Blocks without incoming edges come before the others. */
  predicate SourcesFirst(es: seq<Edge>, s: seq<Block>) {
    forall i, j :: 0 <= i < j < |s| && IsSource(es, s[j]) ==> IsSource(es, s[i])
  }

  /** What a sort promises: the same blocks, each once, all edges leading forward. */
  ghost predicate SortOf(es: seq<Edge>, blocks: set<Block>, r: seq<Block>) {
    Distinct(r) && Lists(r, blocks) && Forward(es, r)
  }

  /** Same set, no duplicates. */
  method UniqueVector(v: seq<Block>) returns (r: seq<Block>)
    ensures Distinct(r) && forall x :: x in r <==> x in v
  {
    r := [];
    for i := 0 to |v|
      invariant Distinct(r) && forall x :: x in r <==> x in v[..i]
    {
      assert v[..i + 1] == v[..i] + [v[i]];
      if v[i] !in r {
        r := r + [v[i]];
      }
    }
    assert v[..|v|] == v;
  }

  lemma SourcesThenRest(es: seq<Edge>, s: seq<Block>, t: seq<Block>)
    requires Distinct(s) && Distinct(t)
    requires forall x :: x in s ==> IsSource(es, x)
    requires forall x :: x in t ==> !IsSource(es, x)
    ensures Distinct(s + t) && SourcesFirst(es, s + t)
  {
    var r := s + t;
    forall i, j | 0 <= i < j < |r| ensures r[i] != r[j] && (IsSource(es, r[j]) ==> IsSource(es, r[i])) {
      if i < |s| {
        assert r[i] in s;
      }
      if |s| <= j {
        assert r[j] in t;
      }
    }
  }

  lemma PaintOne(universe: set<Block>, seen: set<Block>, b: Block, c: Color, color: map<Block, Color>)
    requires b in universe && Painted(color, universe, seen, c)
    ensures Painted(color[b := c], universe, seen + {b}, c)
  {
  }

  lemma OneLessLeft(universe: set<Block>, seen: set<Block>, b: Block)
    requires b in universe && b !in seen
    ensures |universe - (seen + {b})| < |universe - seen|
  {
    assert universe - seen == (universe - (seen + {b})) + {b};
  }

  lemma NoMoreLeft(universe: set<Block>, seen: set<Block>, more: set<Block>)
    requires seen <= more
    ensures |universe - more| <= |universe - seen|
  {
    assert universe - seen == (universe - more) + (universe * more - seen);
  }

  lemma SourcesSeen(es: seq<Edge>, universe: set<Block>, visited: set<Block>, tmp: seq<Block>, i: nat)
    requires i < |tmp| && SourcesFirst(es, tmp) && Lists(tmp, universe) && !IsSource(es, tmp[i])
    requires forall j :: 0 <= j < i ==> tmp[j] in visited
    ensures forall x :: x in universe && IsSource(es, x) ==> x in visited
  {
    forall x | x in universe && IsSource(es, x) ensures x in visited {
      assert x in tmp;
      var j :| 0 <= j < |tmp| && tmp[j] == x;
    }
  }

  /** The outer loop starts a visit at a source, or else there is a cycle. */
  lemma RootIsSource(es: seq<Edge>, universe: set<Block>, f: Forest, out: seq<Block>, tmp: seq<Block>, i: nat)
    requires Closed(es, universe) && Sorting(es, universe, f, out)
    requires i < |tmp| && SourcesFirst(es, tmp) && Lists(tmp, universe) && tmp[i] !in f.visited
    requires forall j :: 0 <= j < i ==> tmp[j] in f.visited
    ensures IsSource(es, tmp[i]) || HasCycle(es, universe)
  {
    if !IsSource(es, tmp[i]) {
      SourcesSeen(es, universe, f.visited, tmp, i);
      StuckMeansCycle(es, universe, f, out, tmp[i]);
    }
  }

  lemma ExtendsTransitive(f: Forest, g: Forest, h: Forest)
    requires Extends(f, g) && Extends(g, h)
    ensures Extends(f, h)
  {
  }

  class FlatGraph {
    var edges: seq<Edge>
    var orphans: seq<Block>
    var color: map<Block, Color>

    constructor (edges: seq<Edge>, orphans: seq<Block>)
      ensures this.edges == edges && this.orphans == orphans
    {
      this.edges := edges;
      this.orphans := orphans;
      color := map[];
    }

    method CalcDownstreamBlocks(b: Block) returns (r: seq<Block>)
      ensures Distinct(r) && forall d :: d in r <==> Edge(b, d) in edges
    {
      var tmp := [];
      for i := 0 to |edges|
        invariant forall d :: d in tmp <==> Edge(b, d) in edges[..i]
      {
        assert edges[..i + 1] == edges[..i] + [edges[i]];
        if edges[i].src == b {
          tmp := tmp + [edges[i].dst];
        }
      }
      assert edges[..|edges|] == edges;
      r := UniqueVector(tmp);
    }

    method CalcAdjacentBlocks(b: Block) returns (r: seq<Block>)
      ensures Distinct(r) && forall d :: d in r <==> Adjacent(edges, b, d)
    {
      var tmp := [];
      for i := 0 to |edges|
        invariant forall d :: d in tmp <==> Adjacent(edges[..i], b, d)
      {
        assert edges[..i + 1] == edges[..i] + [edges[i]];
        if edges[i].src == b {
          tmp := tmp + [edges[i].dst];
        }
        if edges[i].dst == b {
          tmp := tmp + [edges[i].src];
        }
      }
      assert edges[..|edges|] == edges;
      r := UniqueVector(tmp);
    }

    method SourceP(b: Block) returns (yes: bool)
      ensures yes <==> IsSource(edges, b)
    {
      yes := true;
      for i := 0 to |edges|
        invariant yes <==> forall j :: 0 <= j < i ==> edges[j].dst != b
      {
        if edges[i].dst == b {
          yes := false;
        }
      }
    }

    method SortSourcesFirst(blocks: seq<Block>) returns (r: seq<Block>)
      requires Distinct(blocks)
      ensures Distinct(r) && SourcesFirst(edges, r) && Lists(r, Elems(blocks))
    {
      var sources, nonsources := [], [];
      for i := 0 to |blocks|
        invariant Distinct(sources) && Distinct(nonsources)
        invariant forall x :: x in sources <==> x in blocks[..i] && IsSource(edges, x)
        invariant forall x :: x in nonsources <==> x in blocks[..i] && !IsSource(edges, x)
      {
        assert blocks[..i + 1] == blocks[..i] + [blocks[i]];
        assert blocks[i] !in blocks[..i];
        var yes := SourceP(blocks[i]);
        if yes {
          sources := sources + [blocks[i]];
        } else {
          nonsources := nonsources + [blocks[i]];
        }
      }
      assert blocks[..|blocks|] == blocks;
      r := sources + nonsources;
      SourcesThenRest(edges, sources, nonsources);
    }

    method PaintWhite(blocks: seq<Block>)
      modifies `color
      ensures forall x :: x in blocks ==> ColorIn(color, x) == White
    {
      for i := 0 to |blocks|
        invariant forall j :: 0 <= j < i ==> ColorIn(color, blocks[j]) == White
      {
        color := color[blocks[i] := White];
      }
    }

    /** Visits b and everything downstream; false stands for the throw. */
    method TopologicalDfsVisit(b: Block, output: seq<Block>, ghost universe: set<Block>,
                               ghost f: Forest, ghost root: bool, ghost up: Block)
      returns (ok: bool, out: seq<Block>, ghost g: Forest, ghost more: seq<Block>)
      requires Closed(edges, universe) && b in universe && b !in f.visited
      requires ForestOk(edges, f) && Painted(color, universe, f.visited, Grey)
      requires !root ==> Edge(up, b) in edges && up in f.visited
      modifies `color
      ensures ok ==> Painted(color, universe, g.visited, Grey)
      ensures ok ==> out == output + more && VisitDone(edges, b, f, g, more)
      ensures ok && !root ==> g.roots == f.roots && b in g.parent && g.parent[b] == up
      ensures !ok ==> TwoUpstreams(edges, universe) || RootFed(edges, Enter(f, b, root, up).roots)
      decreases |universe - f.visited|, 0, 0
    {
      color := color[b := Grey];
      ghost var first := Enter(f, b, root, up);
      var ds := CalcDownstreamBlocks(b);
      EnterOpens(edges, b, ds, f, root, up);
      PaintOne(universe, f.visited, b, Grey, old(color));
      OneLessLeft(universe, f.visited, b);
      ok, out, g, more := VisitChildren(b, ds, output, universe, f, first);
      if ok {
        CloseVisit(edges, b, ds, f, g, more);
        ConcatAssociates(output, more, [b]);
        out, more := out + [b], more + [b];
      }
    }

    /** The loop of a visit over the downstream blocks ds of b. */
    method VisitChildren(b: Block, ds: seq<Block>, output: seq<Block>, ghost universe: set<Block>,
                         ghost f: Forest, ghost first: Forest)
      returns (ok: bool, out: seq<Block>, ghost g: Forest, ghost done: seq<Block>)
      requires Closed(edges, universe) && b in universe && Distinct(ds) && forall d :: d in ds ==> Edge(b, d) in edges
      requires VisitOpen(edges, b, ds, 0, f, first, []) && Painted(color, universe, first.visited, Grey)
      modifies `color
      ensures ok ==> out == output + done && Painted(color, universe, g.visited, Grey)
      ensures ok ==> VisitOpen(edges, b, ds, |ds|, f, g, done)
      ensures ok ==> g.roots == first.roots && Extends(first, g)
      ensures !ok ==> TwoUpstreams(edges, universe) || RootFed(edges, first.roots)
      decreases |universe - first.visited|, 1, 0
    {
      ok, out, g, done := true, output, first, [];
      for k := 0 to |ds|
        invariant out == output + done
        invariant Painted(color, universe, g.visited, Grey)
        invariant VisitOpen(edges, b, ds, k, f, g, done)
        invariant g.roots == first.roots && Extends(first, g)
      {
        ghost var more;
        ok, out, g, more := VisitChild(b, ds, k, out, universe, f, g, done, first);
        if !ok {
          return;
        }
        ConcatAssociates(output, done, more);
        done := done + more;
      }
      ok := true;
    }

    /** One turn of that loop. */
    method VisitChild(b: Block, ds: seq<Block>, k: nat, output: seq<Block>, ghost universe: set<Block>,
                      ghost f: Forest, ghost g: Forest, ghost done: seq<Block>, ghost first: Forest)
      returns (ok: bool, out: seq<Block>, ghost h: Forest, ghost more: seq<Block>)
      requires Closed(edges, universe) && b in universe && Distinct(ds) && k < |ds| && Edge(b, ds[k]) in edges
      requires VisitOpen(edges, b, ds, k, f, g, done) && Painted(color, universe, g.visited, Grey)
      requires Extends(first, g) && g.roots == first.roots
      modifies `color
      ensures ok ==> out == output + more && Painted(color, universe, h.visited, Grey)
      ensures ok ==> VisitOpen(edges, b, ds, k + 1, f, h, done + more)
      ensures ok ==> h.roots == first.roots && Extends(first, h)
      ensures !ok ==> TwoUpstreams(edges, universe) || RootFed(edges, first.roots)
      decreases |universe - first.visited|, 0, 1
    {
      h, more := g, [];
      match ColorIn(color, ds[k])
      case White =>
        NoMoreLeft(universe, first.visited, g.visited);
        ok, out, h, more := TopologicalDfsVisit(ds[k], output, universe, g, false, b);
        if ok {
          ChildDone(edges, b, ds, k, f, first, g, h, done, more);
        }
      case Grey =>
        RevisitMeansTwo(edges, b, ds, k, f, g, done, universe);
        ok, out := false, output;
      case Black =>
        assert false;
    }

    /** Returns exactly on forests without cycles; what it returns is a topological order. */
    method TopologicalSort(blocks: seq<Block>) returns (ok: bool, result: seq<Block>)
      requires Distinct(blocks) && Closed(edges, Elems(blocks))
      modifies `color
      ensures ok <==> !TwoUpstreams(edges, Elems(blocks)) && !HasCycle(edges, Elems(blocks))
      ensures ok ==> SortOf(edges, Elems(blocks), result)
    {
      ghost var universe := Elems(blocks);
      var tmp := SortSourcesFirst(blocks);
      PaintWhite(tmp);
      result := [];
      ghost var f := Forest({}, map[], {});
      for i := 0 to |tmp|
        invariant Painted(color, universe, f.visited, Grey)
        invariant Sorting(edges, universe, f, result)
        invariant forall j :: 0 <= j < i ==> tmp[j] in f.visited
      {
        if ColorIn(color, tmp[i]) == White {
          RootIsSource(edges, universe, f, result, tmp, i);
          ghost var g, more;
          var fine, out;
          fine, out, g, more := TopologicalDfsVisit(tmp[i], result, universe, f, true, tmp[i]);
          if !fine {
            return false, [];
          }
          VisitStep(edges, universe, tmp[i], f, g, result, more);
          result := out;
          f := g;
        }
      }
      assert f.visited == universe;
      SortedIsForest(edges, universe, f, result);
      ReversedIsForward(edges, result);
      result := Reversed(result);
      ok := true;
    }

    /** Blackens b and everything reachable from it along edges in either direction. */
    method ReachableDfsVisit(b: Block, ghost universe: set<Block>, ghost start: Block, ghost black: set<Block>)
      returns (ghost after: set<Block>)
      requires Closed(edges, universe) && b in universe && b !in black
      requires Painted(color, universe, black, Black)
      requires Connected(edges, start, b) && AllConnected(edges, start, black)
      modifies `color
      ensures Painted(color, universe, after, Black)
      ensures black <= after && b in after && AllConnected(edges, start, after)
      ensures Spread(edges, after - black, after)
      decreases |universe - black|, 0
    {
      color := color[b := Black];
      PaintOne(universe, black, b, Black, old(color));
      OneLessLeft(universe, black, b);
      after := black + {b};
      var adjacent := CalcAdjacentBlocks(b);
      for k := 0 to |adjacent|
        invariant Painted(color, universe, after, Black)
        invariant black + {b} <= after && AllConnected(edges, start, after)
        invariant forall j :: 0 <= j < k ==> adjacent[j] in after
        invariant Spread(edges, after - black - {b}, after)
      {
        assert Adjacent(edges, b, adjacent[k]);
        after := ReachNeighbour(b, adjacent[k], universe, start, black, after);
      }
      assert forall d :: Adjacent(edges, b, d) ==> d in adjacent;
      SpreadAtEnd(edges, black, b, after);
    }

    /** A turn of that loop. */
    method ReachNeighbour(b: Block, d: Block, ghost universe: set<Block>, ghost start: Block,
                          ghost black: set<Block>, ghost before: set<Block>)
      returns (ghost after: set<Block>)
      requires Closed(edges, universe) && b in universe && Adjacent(edges, b, d) && black + {b} <= before
      requires Painted(color, universe, before, Black) && AllConnected(edges, start, before)
      requires Spread(edges, before - black - {b}, before)
      modifies `color
      ensures Painted(color, universe, after, Black) && AllConnected(edges, start, after)
      ensures before <= after && d in after && Spread(edges, after - black - {b}, after)
      decreases |universe - (black + {b})|, 1
    {
      after := before;
      if ColorIn(color, d) == White {
        ConnectedStep(edges, start, b, d);
        NoMoreLeft(universe, black + {b}, before);
        after := ReachableDfsVisit(d, universe, start, before);
        SpreadAfterVisit(edges, black, b, before, after);
      }
    }

    /** The blocks of the list connected to b. */
    method CalcReachableBlocks(b: Block, blocks: seq<Block>) returns (result: seq<Block>)
      requires Distinct(blocks) && Closed(edges, Elems(blocks)) && b in blocks
      modifies `color
      ensures Distinct(result) && Elems(result) <= Elems(blocks) && Component(edges, Elems(result), b)
    {
      ghost var universe := Elems(blocks);
      PaintWhite(blocks);
      ConnectedSelf(edges, b);
      ghost var black := ReachableDfsVisit(b, universe, b, {});
      result := [];
      for i := 0 to |blocks|
        invariant Distinct(result)
        invariant forall x :: x in result <==> x in blocks[..i] && x in black
      {
        assert blocks[..i + 1] == blocks[..i] + [blocks[i]];
        assert blocks[i] !in blocks[..i];
        if ColorIn(color, blocks[i]) == Black {
          result := result + [blocks[i]];
        }
      }
      assert blocks[..|blocks|] == blocks;
      assert Elems(result) == black;
      SpreadIsClosed(edges, universe, black);
    }

    method CalcUsedBlocks() returns (r: seq<Block>)
      ensures Distinct(r) && Elems(r) == Used(edges, orphans)
    {
      var tmp := [];
      for i := 0 to |edges|
        invariant forall x :: x in tmp <==> x in Ends(edges[..i])
      {
        assert edges[..i + 1] == edges[..i] + [edges[i]];
        EndsOfOneMore(edges[..i], edges[i]);
        tmp := tmp + [edges[i].src] + [edges[i].dst];
      }
      assert edges[..|edges|] == edges;
      r := UniqueVector(tmp + orphans);
      assert forall x :: x in r <==> x in tmp || x in orphans;
    }

    /** Splits the used blocks into connected groups, each in topological order; false when a sort throws. */
    method Partition() returns (ok: bool, result: seq<seq<Block>>)
      modifies `color
      ensures ok <==> !TwoUpstreams(edges, Used(edges, orphans)) && !HasCycle(edges, Used(edges, orphans))
      ensures ok ==> Grouped(edges, Used(edges, orphans), result)
    {
      ghost var universe := Used(edges, orphans);
      result := [];
      var blocks := CalcUsedBlocks();
      UsedIsClosed(edges, orphans);
      while blocks != []
        invariant Distinct(blocks) && Elems(blocks) <= universe && Closed(edges, Elems(blocks))
        invariant Grouped(edges, universe - Elems(blocks), result)
        invariant !TwoUpstreams(edges, universe - Elems(blocks)) && !HasCycle(edges, universe - Elems(blocks))
        decreases |blocks|
      {
        ghost var rest := Elems(blocks);
        var first := blocks[0];
        var graph := CalcReachableBlocks(first, blocks);
        var sorted;
        ok, sorted := TopologicalSort(graph);
        if !ok {
          FaultsSpread(edges, Elems(graph), universe);
          return false, [];
        }
        GroupStep(edges, universe - rest, result, Elems(graph), sorted, first);
        result := result + [sorted];
        var n := |blocks|;
        blocks := EraseAll(blocks, graph);
        assert universe - Elems(blocks) == (universe - rest) + Elems(graph);
        FaultsJoin(edges, universe - rest, Elems(graph));
        ClosedDifference(edges, rest, Elems(graph));
      }
      assert universe - Elems(blocks) == universe;
      ok := true;
    }

    method EraseAll(blocks: seq<Block>, graph: seq<Block>) returns (rest: seq<Block>)
      requires Distinct(blocks) && Distinct(graph) && graph != [] && Elems(graph) <= Elems(blocks)
      ensures Distinct(rest) && Elems(rest) == Elems(blocks) - Elems(graph) && |rest| < |blocks|
    {
      rest := blocks;
      for k := 0 to |graph|
        invariant Distinct(rest) && |rest| == |blocks| - k
        invariant forall x :: x in rest <==> x in blocks && x !in graph[..k]
      {
        assert graph[..k + 1] == graph[..k] + [graph[k]];
        assert graph[k] in Elems(graph) && graph[k] !in graph[..k];
        var at := Find(rest, graph[k]);
        EraseOne(rest, at);
        rest := rest[..at] + rest[at + 1..];
      }
      assert graph[..|graph|] == graph;
    }

    method Find(s: seq<Block>, b: Block) returns (at: nat)
      requires b in s
      ensures at < |s| && s[at] == b
    {
      at := 0;
      while s[at] != b
        invariant at < |s| && b in s[at..]
        decreases |s| - at
      {
        at := at + 1;
      }
    }
  }
}
