/** Item-size propagation of flowgraph.cc: ports of unknown size take the size of the first port
  * they are connected to, pass after pass, and what is left gets a default.
  */
module ItemSize {
  import opened Sequences

  type Port = nat

  datatype Node = Node(outputs: seq<Port>, inputs: seq<Port>)

  type Sizes = map<Port, nat>

  /** sizeof(gr_complex) */
  const DEFAULT_SIZE: nat := 8

  /** The ports in the order a pass visits them. */
  function Order(nodes: seq<Node>): seq<Port> {
    if nodes == [] then []
    else Order(nodes[..|nodes| - 1]) + nodes[|nodes| - 1].outputs + nodes[|nodes| - 1].inputs
  }

  /** Every visited port and every first connection is a known port. */
  predicate Known(link: map<Port, Port>, sizes: Sizes, order: seq<Port>) {
    && (forall p :: p in order ==> p in sizes)
    && forall p :: p in link ==> link[p] in sizes
  }

  /** get_port_itemsize: the size of the first connection, 0 without one. */
  function PeerSize(link: map<Port, Port>, sizes: Sizes, p: Port): nat
    requires p in link ==> link[p] in sizes
  {
    if p in link then sizes[link[p]] else 0
  }

  function Visit(link: map<Port, Port>, sizes: Sizes, p: Port): (r: Sizes)
    requires p in sizes && (p in link ==> link[p] in sizes)
    ensures r.Keys == sizes.Keys
  {
    if sizes[p] == 0 then sizes[p := PeerSize(link, sizes, p)] else sizes
  }

  /** The sizes after a pass over the given ports. */
  function Pass(link: map<Port, Port>, sizes: Sizes, order: seq<Port>): (r: Sizes)
    requires Known(link, sizes, order)
    ensures r.Keys == sizes.Keys
    decreases |order|
  {
    if order == [] then sizes
    else Visit(link, Pass(link, sizes, order[..|order| - 1]), order[|order| - 1])
  }

  /** The updated_sizes flag at the end of the pass: the last port of unknown size decides alone. */
  function Flag(link: map<Port, Port>, sizes: Sizes, order: seq<Port>): bool
    requires Known(link, sizes, order)
    decreases |order|
  {
    if order == [] then false
    else
      var before := Pass(link, sizes, order[..|order| - 1]);
      var p := order[|order| - 1];
      if before[p] == 0 then PeerSize(link, before, p) > 0 else Flag(link, sizes, order[..|order| - 1])
  }

  // ----- termination

  function Zeros(sizes: Sizes, order: seq<Port>): nat
    requires forall p :: p in order ==> p in sizes
  {
    if order == [] then 0
    else Zeros(sizes, order[..|order| - 1]) + if sizes[order[|order| - 1]] == 0 then 1 else 0
  }

  /** No known size is lost. */
  predicate Grows(s: Sizes, t: Sizes) {
    s.Keys == t.Keys && forall p :: p in s && s[p] > 0 ==> t[p] == s[p]
  }

  lemma {:induction false} PassGrows(link: map<Port, Port>, sizes: Sizes, order: seq<Port>)
    requires Known(link, sizes, order)
    ensures Grows(sizes, Pass(link, sizes, order))
    decreases |order|
  {
    if order != [] {
      PassGrows(link, sizes, order[..|order| - 1]);
    }
  }

  lemma {:induction false} ZerosShrink(s: Sizes, t: Sizes, order: seq<Port>)
    requires Grows(s, t) && forall p :: p in order ==> p in s
    ensures Zeros(t, order) <= Zeros(s, order)
    ensures (exists p :: p in order && s[p] == 0 && t[p] > 0) ==> Zeros(t, order) < Zeros(s, order)
    decreases |order|
  {
    if order != [] {
      var init, p := order[..|order| - 1], order[|order| - 1];
      assert order == init + [p];
      ZerosShrink(s, t, init);
    }
  }

  lemma {:induction false} FlagMeansResolved(link: map<Port, Port>, sizes: Sizes, order: seq<Port>)
    requires Known(link, sizes, order) && Flag(link, sizes, order)
    ensures exists p :: p in order && sizes[p] == 0 && Pass(link, sizes, order)[p] > 0
    decreases |order|
  {
    var init, p := order[..|order| - 1], order[|order| - 1];
    assert order == init + [p];
    PassGrows(link, sizes, init);
    if Pass(link, sizes, init)[p] != 0 {
      FlagMeansResolved(link, sizes, init);
      var q :| q in init && sizes[q] == 0 && Pass(link, sizes, init)[q] > 0;
      assert Pass(link, sizes, order)[q] > 0;
    }
  }

  /** Whenever the loop goes round again, fewer ports are without a size. */
  lemma FlagMeansProgress(link: map<Port, Port>, sizes: Sizes, order: seq<Port>)
    requires Known(link, sizes, order) && Flag(link, sizes, order)
    ensures Zeros(Pass(link, sizes, order), order) < Zeros(sizes, order)
  {
    PassGrows(link, sizes, order);
    FlagMeansResolved(link, sizes, order);
    ZerosShrink(sizes, Pass(link, sizes, order), order);
  }

  /** Passes until the flag stays down. */
  function Propagate(link: map<Port, Port>, sizes: Sizes, order: seq<Port>): (r: Sizes)
    requires Known(link, sizes, order)
    ensures r.Keys == sizes.Keys
    decreases Zeros(sizes, order)
  {
    var next := Pass(link, sizes, order);
    if Flag(link, sizes, order) then
      FlagMeansProgress(link, sizes, order);
      Propagate(link, next, order)
    else next
  }

  /** The default for the ports still without a size. */
  function Fill(sizes: Sizes, order: seq<Port>): Sizes {
    map p | p in sizes :: if sizes[p] == 0 && p in order then DEFAULT_SIZE else sizes[p]
  }

  function Final(link: map<Port, Port>, sizes: Sizes, order: seq<Port>): Sizes
    requires Known(link, sizes, order)
  {
    Fill(Propagate(link, sizes, order), order)
  }

  lemma {:induction false} PropagateGrows(link: map<Port, Port>, sizes: Sizes, order: seq<Port>)
    requires Known(link, sizes, order)
    ensures Grows(sizes, Propagate(link, sizes, order))
    decreases Zeros(sizes, order)
  {
    PassGrows(link, sizes, order);
    if Flag(link, sizes, order) {
      FlagMeansProgress(link, sizes, order);
      PropagateGrows(link, Pass(link, sizes, order), order);
    }
  }

  // ----- where the sizes come from

  /** A walk along first connections through ports of initially unknown size to one of size v. */
  predicate Leads(link: map<Port, Port>, initial: Sizes, path: seq<Port>, v: nat) {
    && path != []
    && (forall i :: 0 <= i < |path| - 1 ==>
          path[i] in initial && initial[path[i]] == 0 && path[i] in link && link[path[i]] == path[i + 1])
    && path[|path| - 1] in initial && initial[path[|path| - 1]] == v > 0
  }

  ghost predicate Sourced(link: map<Port, Port>, initial: Sizes, p: Port, v: nat) {
    exists path :: Leads(link, initial, path, v) && path[0] == p
  }

  /** Every known size is an initial one found along first connections. */
  ghost predicate AllSourced(link: map<Port, Port>, initial: Sizes, sizes: Sizes) {
    Grows(initial, sizes) && forall p :: p in sizes ==> SourcedAt(link, initial, sizes, p)
  }

  ghost predicate SourcedAt(link: map<Port, Port>, initial: Sizes, sizes: Sizes, p: Port)
    requires p in sizes
  {
    sizes[p] > 0 ==> Sourced(link, initial, p, sizes[p])
  }

  lemma VisitKeepsSourced(link: map<Port, Port>, initial: Sizes, sizes: Sizes, p: Port)
    requires AllSourced(link, initial, sizes) && p in sizes && (p in link ==> link[p] in sizes)
    ensures AllSourced(link, initial, Visit(link, sizes, p))
  {
    var after := Visit(link, sizes, p);
    forall q | q in after ensures SourcedAt(link, initial, after, q) {
      assert SourcedAt(link, initial, sizes, q);
      if q == p && sizes[p] == 0 && p in link {
        assert SourcedAt(link, initial, sizes, link[p]);
        if sizes[link[p]] > 0 {
          PeerIsSource(link, initial, p, sizes[link[p]]);
        }
      }
    }
  }

  lemma PeerIsSource(link: map<Port, Port>, initial: Sizes, p: Port, v: nat)
    requires p in link && p in initial && initial[p] == 0 && Sourced(link, initial, link[p], v)
    ensures Sourced(link, initial, p, v)
  {
    var path :| Leads(link, initial, path, v) && path[0] == link[p];
    var more := [p] + path;
    assert more[|more| - 1] == path[|path| - 1];
    assert Leads(link, initial, more, v);
  }

  lemma {:induction false} PassKeepsSourced(link: map<Port, Port>, initial: Sizes, sizes: Sizes, order: seq<Port>)
    requires Known(link, sizes, order) && AllSourced(link, initial, sizes)
    ensures AllSourced(link, initial, Pass(link, sizes, order))
    decreases |order|
  {
    if order != [] {
      var init := order[..|order| - 1];
      PassKeepsSourced(link, initial, sizes, init);
      VisitKeepsSourced(link, initial, Pass(link, sizes, init), order[|order| - 1]);
    }
  }

  lemma {:induction false} PropagateKeepsSourced(link: map<Port, Port>, initial: Sizes, sizes: Sizes, order: seq<Port>)
    requires Known(link, sizes, order) && AllSourced(link, initial, sizes)
    ensures AllSourced(link, initial, Propagate(link, sizes, order))
    decreases Zeros(sizes, order)
  {
    PassKeepsSourced(link, initial, sizes, order);
    if Flag(link, sizes, order) {
      FlagMeansProgress(link, sizes, order);
      PropagateKeepsSourced(link, initial, Pass(link, sizes, order), order);
    }
  }

  /** In the end every visited port has a size; one it had from the start is unchanged, and any other
    * is the default or an initial size found by following first connections. */
  lemma FinalSizes(link: map<Port, Port>, initial: Sizes, order: seq<Port>, p: Port)
    requires Known(link, initial, order) && p in initial
    ensures p in Final(link, initial, order)
    ensures var size := Final(link, initial, order)[p];
            && (initial[p] > 0 ==> size == initial[p])
            && (p in order ==> size > 0)
            && (initial[p] == 0 && size > 0 ==> size == DEFAULT_SIZE || Sourced(link, initial, p, size))
  {
    forall q | q in initial && initial[q] > 0 ensures Sourced(link, initial, q, initial[q]) {
      assert Leads(link, initial, [q], initial[q]);
    }
    PropagateKeepsSourced(link, initial, initial, order);
    assert SourcedAt(link, initial, Propagate(link, initial, order), p);
  }

  // ----- when propagation is complete

  /** First connections go back and forth: the peer of a port's peer has that peer for its own.
    * It holds when every input port has a single connection. */
  predicate Paired(link: map<Port, Port>) {
    forall p :: p in link && link[p] in link ==> link[link[p]] in link && link[link[link[p]]] == link[p]
  }

  /** The visited ports include the peers of visited ports. */
  predicate PeersVisited(link: map<Port, Port>, order: seq<Port>) {
    forall p :: p in order && p in link ==> link[p] in order
  }

  /** The size of p's peer is known from the start. */
  predicate Near(link: map<Port, Port>, initial: Sizes, p: Port)
    requires p in link ==> link[p] in initial
  {
    p in link && initial[link[p]] > 0
  }

  /** Only the peer of p's peer has a known size. */
  predicate Far(link: map<Port, Port>, initial: Sizes, p: Port)
    requires forall q :: q in link ==> link[q] in initial
  {
    p in link && initial[link[p]] == 0 && Near(link, initial, link[p])
  }

  /** The size a port should get: its own, its peer's, or its peer's peer's; 0 if none is known. */
  function Ideal(link: map<Port, Port>, initial: Sizes, p: Port): nat
    requires p in initial && forall q :: q in link ==> link[q] in initial
  {
    if initial[p] > 0 then initial[p]
    else if Near(link, initial, p) then initial[link[p]]
    else if Far(link, initial, p) then initial[link[link[p]]]
    else 0
  }

  lemma PeerHasSameIdeal(link: map<Port, Port>, initial: Sizes, p: Port)
    requires Paired(link) && p in initial && (forall q :: q in link ==> link[q] in initial)
    requires initial[p] == 0 && p in link
    ensures Ideal(link, initial, p) == Ideal(link, initial, link[p])
  {
  }

  /** A walk along first connections that starts at p, without its first port. */
  lemma WalkFromPeer(link: map<Port, Port>, initial: Sizes, path: seq<Port>, v: nat)
    requires Leads(link, initial, path, v) && 1 < |path|
    ensures path[0] in link && link[path[0]] == path[1] && initial[path[0]] == 0
    ensures Leads(link, initial, path[1..], v)
  {
  }

  lemma {:induction false} WalkFindsIdeal(link: map<Port, Port>, initial: Sizes, path: seq<Port>, v: nat)
    requires Paired(link) && (forall q :: q in link ==> link[q] in initial)
    requires Leads(link, initial, path, v)
    ensures path[0] in initial && Ideal(link, initial, path[0]) == v
    decreases |path|
  {
    if 1 < |path| {
      WalkFromPeer(link, initial, path, v);
      WalkFindsIdeal(link, initial, path[1..], v);
      PeerHasSameIdeal(link, initial, path[0]);
    }
  }

  lemma IdealIsSourced(link: map<Port, Port>, initial: Sizes, p: Port)
    requires p in initial && (forall q :: q in link ==> link[q] in initial) && Ideal(link, initial, p) > 0
    ensures Sourced(link, initial, p, Ideal(link, initial, p))
  {
    if initial[p] > 0 {
      assert Leads(link, initial, [p], initial[p]);
    } else if Near(link, initial, p) {
      assert Leads(link, initial, [p, link[p]], initial[link[p]]);
    } else {
      assert Leads(link, initial, [p, link[p], link[link[p]]], initial[link[link[p]]]);
    }
  }

  /** Where first connections pair up, the ideal size is the one and only size that following them finds. */
  lemma IdealIffSourced(link: map<Port, Port>, initial: Sizes, p: Port, v: nat)
    requires Paired(link) && p in initial && (forall q :: q in link ==> link[q] in initial) && v > 0
    ensures Sourced(link, initial, p, v) <==> Ideal(link, initial, p) == v
  {
    if Sourced(link, initial, p, v) {
      var path :| Leads(link, initial, path, v) && path[0] == p;
      WalkFindsIdeal(link, initial, path, v);
    }
    if Ideal(link, initial, p) == v {
      IdealIsSourced(link, initial, p);
    }
  }

  /** A size that is known is the right one. */
  predicate Sound(link: map<Port, Port>, initial: Sizes, sizes: Sizes)
    requires forall q :: q in link ==> link[q] in initial
  {
    Grows(initial, sizes) && forall p :: p in sizes && sizes[p] > 0 ==> sizes[p] == Ideal(link, initial, p)
  }

  lemma {:induction false} PassKeepsSound(link: map<Port, Port>, initial: Sizes, sizes: Sizes, order: seq<Port>)
    requires Known(link, initial, order) && Paired(link) && Sound(link, initial, sizes)
    ensures Sound(link, initial, Pass(link, sizes, order))
    decreases |order|
  {
    if order != [] {
      var init, p := order[..|order| - 1], order[|order| - 1];
      PassKeepsSound(link, initial, sizes, init);
      if p in link && initial[p] == 0 {
        PeerHasSameIdeal(link, initial, p);
      }
    }
  }

  /** Every port that should get a size has it. */
  predicate Complete(link: map<Port, Port>, initial: Sizes, sizes: Sizes, order: seq<Port>)
    requires Known(link, initial, order) && initial.Keys == sizes.Keys
  {
    forall p :: p in order ==> sizes[p] == Ideal(link, initial, p)
  }

  /** What one pass resolves: a port next to a known size, or behind a peer visited earlier. */
  predicate SoonResolved(link: map<Port, Port>, initial: Sizes, before: seq<Port>, p: Port)
    requires forall q :: q in link ==> link[q] in initial
  {
    Near(link, initial, p) || (Far(link, initial, p) && link[p] in before)
  }

  lemma {:induction false} FirstPass(link: map<Port, Port>, initial: Sizes, order: seq<Port>, j: nat, p: Port)
    requires Known(link, initial, order) && Paired(link) && Distinct(order)
    requires j < |order| && p == order[j] && initial[p] == 0
    ensures Pass(link, initial, order)[p]
         == if SoonResolved(link, initial, order[..j], p) then Ideal(link, initial, p) else 0
    decreases |order|, 0
  {
    var last := |order| - 1;
    var init, q := order[..last], order[last];
    if j < last {
      FirstPass(link, initial, init, j, p);
      assert init[..j] == order[..j];
    } else {
      NotVisitedYet(link, initial, init, p);
      if p in link && initial[link[p]] > 0 {
        PassGrows(link, initial, init);
      } else if p in link {
        PeerAfterPrefix(link, initial, init, p);
      }
    }
  }

  lemma {:induction false} NotVisitedYet(link: map<Port, Port>, sizes: Sizes, order: seq<Port>, p: Port)
    requires Known(link, sizes, order) && p !in order && p in sizes
    ensures Pass(link, sizes, order)[p] == sizes[p]
    decreases |order|
  {
    if order != [] {
      NotVisitedYet(link, sizes, order[..|order| - 1], p);
    }
  }

  /** The size p finds at a peer of unknown initial size. */
  lemma PeerAfterPrefix(link: map<Port, Port>, initial: Sizes, before: seq<Port>, p: Port)
    requires Known(link, initial, before) && Paired(link) && Distinct(before)
    requires p in link && initial[link[p]] == 0 && p in initial && initial[p] == 0
    ensures PeerSize(link, Pass(link, initial, before), p)
         == if SoonResolved(link, initial, before, p) then Ideal(link, initial, p) else 0
    decreases |before|, 1
  {
    var q := link[p];
    PeerHasSameIdeal(link, initial, p);
    if q in before {
      var i :| 0 <= i < |before| && before[i] == q;
      FirstPass(link, initial, before, i, q);
      assert !Far(link, initial, q);
    } else {
      NotVisitedYet(link, initial, before, q);
    }
  }

  /** The last port of initially unknown size. */
  predicate LastUnknown(initial: Sizes, order: seq<Port>, j: nat)
    requires forall p :: p in order ==> p in initial
  {
    j < |order| && initial[order[j]] == 0 && forall i :: j < i < |order| ==> initial[order[i]] > 0
  }

  lemma LastFlag(link: map<Port, Port>, initial: Sizes, before: seq<Port>, p: Port)
    requires Known(link, initial, before) && Paired(link) && Distinct(before) && p in initial
    requires initial[p] == 0
    ensures PeerSize(link, Pass(link, initial, before), p) > 0 <==> SoonResolved(link, initial, before, p)
  {
    PassGrows(link, initial, before);
    if p in link && initial[link[p]] == 0 {
      PeerAfterPrefix(link, initial, before, p);
      if SoonResolved(link, initial, before, p) {
        IdealIsPositive(link, initial, before, p);
      }
    }
  }

  /** The flag of the first pass says whether the last unknown port could be resolved in it. */
  lemma {:induction false} FirstFlag(link: map<Port, Port>, initial: Sizes, order: seq<Port>, j: nat)
    requires Known(link, initial, order) && Paired(link) && Distinct(order) && LastUnknown(initial, order, j)
    ensures Flag(link, initial, order) <==> SoonResolved(link, initial, order[..j], order[j])
    decreases |order|
  {
    var last := |order| - 1;
    var init, q := order[..last], order[last];
    if j < last {
      LastUnknownInit(link, initial, order, j);
      SettledPort(link, initial, init, q);
      FirstFlag(link, initial, init, j);
    } else {
      NotVisitedYet(link, initial, init, q);
      LastFlag(link, initial, init, q);
    }
  }

  lemma LastUnknownInit(link: map<Port, Port>, initial: Sizes, order: seq<Port>, j: nat)
    requires Known(link, initial, order) && Distinct(order) && LastUnknown(initial, order, j) && j < |order| - 1
    ensures var init := order[..|order| - 1];
            Known(link, initial, init) && Distinct(init) && LastUnknown(initial, init, j) && init[..j] == order[..j]
  {
    var init := order[..|order| - 1];
    assert forall i :: 0 <= i < |init| ==> init[i] == order[i];
  }

  lemma SettledPort(link: map<Port, Port>, sizes: Sizes, before: seq<Port>, p: Port)
    requires Known(link, sizes, before) && p in sizes && sizes[p] > 0
    ensures Pass(link, sizes, before)[p] > 0
  {
    PassGrows(link, sizes, before);
  }

  lemma IdealIsPositive(link: map<Port, Port>, initial: Sizes, before: seq<Port>, p: Port)
    requires p in initial && (forall q :: q in link ==> link[q] in initial)
    requires SoonResolved(link, initial, before, p) || initial[p] > 0
    ensures Ideal(link, initial, p) > 0
  {
  }

  /** The peers through which far ports get their size are known. */
  predicate PeersKnown(link: map<Port, Port>, initial: Sizes, sizes: Sizes, order: seq<Port>)
    requires Known(link, initial, order) && initial.Keys == sizes.Keys
  {
    forall p :: p in order && Far(link, initial, p) ==> sizes[link[p]] > 0
  }

  /** A pass over such sizes completes them. */
  lemma {:induction false} LaterPass(link: map<Port, Port>, initial: Sizes, sizes: Sizes, order: seq<Port>, j: nat)
    requires Known(link, initial, order) && Paired(link) && Sound(link, initial, sizes) && j < |order|
    requires PeersKnown(link, initial, sizes, order) && Distinct(order)
    ensures Pass(link, sizes, order)[order[j]] == Ideal(link, initial, order[j])
    decreases |order|
  {
    var last := |order| - 1;
    var init, p := order[..last], order[last];
    if j < last {
      LaterPass(link, initial, sizes, init, j);
      LaterVisit(link, initial, Pass(link, sizes, init), p, order[j]);
      PassKeepsSound(link, initial, sizes, init);
    } else {
      PassKeepsSound(link, initial, sizes, init);
      PassGrows(link, sizes, init);
      if initial[p] == 0 && p in link {
        PeerHasSameIdeal(link, initial, p);
      }
    }
  }

  /** A visit leaves a port that already has its ideal size alone, unless that is unknown. */
  lemma LaterVisit(link: map<Port, Port>, initial: Sizes, sizes: Sizes, p: Port, q: Port)
    requires initial.Keys == sizes.Keys && p in sizes && q in sizes && forall r :: r in link ==> link[r] in initial
    ensures q != p ==> Visit(link, sizes, p)[q] == sizes[q]
  {
  }

  lemma {:induction false} PropagateCompletes(link: map<Port, Port>, initial: Sizes, sizes: Sizes, order: seq<Port>)
    requires Known(link, initial, order) && Paired(link) && Sound(link, initial, sizes)
    requires PeersKnown(link, initial, sizes, order) && Distinct(order)
    ensures Complete(link, initial, Propagate(link, sizes, order), order)
    decreases Zeros(sizes, order)
  {
    var next := Pass(link, sizes, order);
    PassKeepsSound(link, initial, sizes, order);
    PassGrows(link, sizes, order);
    if Flag(link, sizes, order) {
      FlagMeansProgress(link, sizes, order);
      PropagateCompletes(link, initial, next, order);
    } else {
      forall p | p in order ensures next[p] == Ideal(link, initial, p) {
        var j :| 0 <= j < |order| && order[j] == p;
        LaterPass(link, initial, sizes, order, j);
      }
    }
  }

  /** A port whose size has to come through a peer that is visited only later. */
  predicate Late(link: map<Port, Port>, initial: Sizes, order: seq<Port>, i: nat)
    requires i < |order| && Known(link, initial, order)
  {
    initial[order[i]] == 0 && Far(link, initial, order[i]) && link[order[i]] !in order[..i]
  }

  lemma FirstPassCompleteIff(link: map<Port, Port>, initial: Sizes, order: seq<Port>)
    requires Known(link, initial, order) && Paired(link) && Distinct(order)
    ensures Complete(link, initial, Pass(link, initial, order), order)
       <==> forall i :: 0 <= i < |order| ==> !Late(link, initial, order, i)
  {
    PassGrows(link, initial, order);
    forall i | 0 <= i < |order|
      ensures Pass(link, initial, order)[order[i]] == Ideal(link, initial, order[i]) <==> !Late(link, initial, order, i)
    {
      if initial[order[i]] == 0 {
        FirstPass(link, initial, order, i, order[i]);
      }
    }
  }

  lemma PeersAfterFirstPass(link: map<Port, Port>, initial: Sizes, order: seq<Port>)
    requires Known(link, initial, order) && Paired(link) && Distinct(order) && PeersVisited(link, order)
    ensures PeersKnown(link, initial, Pass(link, initial, order), order)
  {
    forall p | p in order && Far(link, initial, p) ensures Pass(link, initial, order)[link[p]] > 0 {
      var q := link[p];
      var i :| 0 <= i < |order| && order[i] == q;
      FirstPass(link, initial, order, i, q);
      IdealIsPositive(link, initial, order[..i], q);
    }
  }

  /** The loop may stop one pass too early, because the flag is overwritten by every unknown port.
    * It resolves every size it should exactly when no port waits for a peer visited later, or the
    * last port of unknown size is one the first pass resolves. */
  lemma PropagationCompleteIff(link: map<Port, Port>, initial: Sizes, order: seq<Port>, j: nat)
    requires Known(link, initial, order) && Paired(link) && Distinct(order) && PeersVisited(link, order)
    requires LastUnknown(initial, order, j)
    ensures Complete(link, initial, Propagate(link, initial, order), order)
       <==> (forall i :: 0 <= i < |order| ==> !Late(link, initial, order, i))
            || SoonResolved(link, initial, order[..j], order[j])
  {
    FirstFlag(link, initial, order, j);
    if Flag(link, initial, order) {
      FlagMeansProgress(link, initial, order);
      PassKeepsSound(link, initial, initial, order);
      PeersAfterFirstPass(link, initial, order);
      PropagateCompletes(link, initial, Pass(link, initial, order), order);
    } else {
      FirstPassCompleteIff(link, initial, order);
    }
  }

  // ----- the flow graph

  lemma OneMorePort(link: map<Port, Port>, sizes: Sizes, done: seq<Port>, p: Port)
    requires Known(link, sizes, done + [p])
    ensures Known(link, sizes, done)
    ensures Pass(link, sizes, done + [p]) == Visit(link, Pass(link, sizes, done), p)
    ensures Flag(link, sizes, done + [p])
         == (if Pass(link, sizes, done)[p] == 0 then PeerSize(link, Pass(link, sizes, done), p) > 0
             else Flag(link, sizes, done))
  {
    assert (done + [p])[..|done|] == done;
    assert forall q :: q in done ==> q in done + [p];
  }

  lemma KnownPart(link: map<Port, Port>, sizes: Sizes, part: seq<Port>, order: seq<Port>)
    requires Known(link, sizes, order) && forall p :: p in part ==> p in order
    ensures Known(link, sizes, part)
  {
  }

  lemma {:induction false} OrderPrefix(nodes: seq<Node>, k: nat)
    requires k <= |nodes|
    ensures forall p :: p in Order(nodes[..k]) ==> p in Order(nodes)
    decreases |nodes|
  {
    if k == |nodes| {
      assert nodes[..k] == nodes;
    } else {
      OrderPrefix(nodes[..|nodes| - 1], k);
      assert nodes[..|nodes| - 1][..k] == nodes[..k];
    }
  }

  // ----- which ports are visited

  lemma {:induction false} OrderConcat(a: seq<Node>, b: seq<Node>)
    ensures Order(a + b) == Order(a) + Order(b)
  {
    if b == [] {
      assert a + b == a;
    } else {
      var init, last := b[..|b| - 1], b[|b| - 1];
      OrderConcat(a, init);
      assert (a + b)[..|a + b| - 1] == a + init;
      ConcatAssociates(Order(a), Order(init), last.outputs);
      ConcatAssociates(Order(a), Order(init) + last.outputs, last.inputs);
    }
  }

  lemma OrderOfOne(n: Node)
    ensures Order([n]) == n.outputs + n.inputs
  {
    assert [n][..0] == [];
  }

  lemma OrderAround(a: seq<Node>, n: Node, b: seq<Node>)
    ensures Order(a + ([n] + b)) == Order(a) + ((n.outputs + n.inputs) + Order(b))
  {
    OrderConcat(a, [n] + b);
    OrderConcat([n], b);
    OrderOfOne(n);
  }

  lemma Around<T>(s: seq<T>, k: nat)
    requires k < |s|
    ensures s == s[..k] + ([s[k]] + s[k + 1..])
  {
  }

  /** The nodes come in order, and of each node first the outputs and then the inputs. */
  lemma OrderAt(nodes: seq<Node>, k: nat)
    requires k < |nodes|
    ensures Order(nodes)
         == Order(nodes[..k]) + ((nodes[k].outputs + nodes[k].inputs) + Order(nodes[k + 1..]))
  {
    Around(nodes, k);
    OrderAround(nodes[..k], nodes[k], nodes[k + 1..]);
  }

  /** Visited are all output and all input ports of all nodes, and no others. */
  lemma {:induction false} OrderHolds(nodes: seq<Node>, p: Port)
    ensures p in Order(nodes)
       <==> exists k :: 0 <= k < |nodes| && (p in nodes[k].outputs || p in nodes[k].inputs)
    decreases |nodes|
  {
    if nodes != [] {
      var n := |nodes| - 1;
      var init := nodes[..n];
      OrderHolds(init, p);
      if k :| 0 <= k < n && (p in nodes[k].outputs || p in nodes[k].inputs) {
        assert init[k] == nodes[k];
      }
      if k :| 0 <= k < |init| && (p in init[k].outputs || p in init[k].inputs) {
        assert nodes[k] == init[k];
      }
    }
  }

  /** A pass gives a port of unknown size that of its peer, if that is known before the pass. */
  lemma {:induction false} NearIsResolved(link: map<Port, Port>, sizes: Sizes, order: seq<Port>, p: Port)
    requires Known(link, sizes, order) && p in order && sizes[p] == 0 && Near(link, sizes, p)
    ensures Pass(link, sizes, order)[p] == sizes[link[p]]
    decreases |order|
  {
    var init, q := order[..|order| - 1], order[|order| - 1];
    KnownPart(link, sizes, init, order);
    PassGrows(link, sizes, init);
    if p in init {
      NearIsResolved(link, sizes, init, p);
    } else {
      NotVisitedYet(link, sizes, init, p);
    }
  }

  /** A port of unknown size next to a known one has got that size. */
  ghost predicate GetsPeerSize(link: map<Port, Port>, before: Sizes, after: Sizes, p: Port) {
    && p in before && p in after
    && (before[p] == 0 && p in link && link[p] in before && before[link[p]] > 0 ==> after[p] == before[link[p]])
    && (before[p] > 0 ==> after[p] == before[p])
  }

  lemma PassResolves(nodes: seq<Node>, link: map<Port, Port>, sizes: Sizes)
    requires Known(link, sizes, Order(nodes))
    ensures forall k, p :: 0 <= k < |nodes| && (p in nodes[k].outputs || p in nodes[k].inputs) ==>
                             GetsPeerSize(link, sizes, Pass(link, sizes, Order(nodes)), p)
  {
    forall k, p | 0 <= k < |nodes| && (p in nodes[k].outputs || p in nodes[k].inputs)
      ensures GetsPeerSize(link, sizes, Pass(link, sizes, Order(nodes)), p)
    {
      OrderHolds(nodes, p);
      PassGrows(link, sizes, Order(nodes));
      if sizes[p] == 0 && p in link && sizes[link[p]] > 0 {
        NearIsResolved(link, sizes, Order(nodes), p);
      }
    }
  }

  /** What the loop has found stays, and what it has not found becomes 8, the size of a complex sample. */
  lemma FinalIs(link: map<Port, Port>, initial: Sizes, order: seq<Port>, p: Port)
    requires Known(link, initial, order) && p in initial
    ensures var found := Propagate(link, initial, order)[p];
            Final(link, initial, order)[p] == if found > 0 then found else if p in order then 8 else 0
  {
  }

  /** A port that is not visited keeps its size. */
  lemma {:induction false} UnvisitedStays(link: map<Port, Port>, sizes: Sizes, order: seq<Port>, p: Port)
    requires Known(link, sizes, order) && p !in order && p in sizes
    ensures Propagate(link, sizes, order)[p] == sizes[p]
    decreases Zeros(sizes, order)
  {
    NotVisitedYet(link, sizes, order, p);
    if Flag(link, sizes, order) {
      FlagMeansProgress(link, sizes, order);
      UnvisitedStays(link, Pass(link, sizes, order), order, p);
    }
  }

  /** The size a port ends with: positive on every port of every node, unchanged if it was known, and otherwise 8
    * or an initial size found along first connections. */
  ghost predicate EndsWell(link: map<Port, Port>, initial: Sizes, sizes: Sizes, p: Port) {
    && p in initial && p in sizes && sizes[p] > 0
    && (initial[p] > 0 ==> sizes[p] == initial[p])
    && (initial[p] == 0 ==> sizes[p] == 8 || Sourced(link, initial, p, sizes[p]))
  }

  lemma NodePortsEndWell(nodes: seq<Node>, link: map<Port, Port>, initial: Sizes)
    requires Known(link, initial, Order(nodes))
    ensures forall k, p :: 0 <= k < |nodes| && (p in nodes[k].outputs || p in nodes[k].inputs) ==>
                             EndsWell(link, initial, Final(link, initial, Order(nodes)), p)
  {
    forall k, p | 0 <= k < |nodes| && (p in nodes[k].outputs || p in nodes[k].inputs)
      ensures EndsWell(link, initial, Final(link, initial, Order(nodes)), p)
    {
      OrderHolds(nodes, p);
      FinalSizes(link, initial, Order(nodes), p);
    }
  }

  // Output 0 with inputs 1, of known size, and 2; output 3 with input 4.
  const LINKS: map<Port, Port> := map[0 := 1, 1 := 0, 2 := 0, 3 := 4, 4 := 3]
  const UNKNOWN_BUT_ONE: Sizes := map[0 := 0, 1 := 4, 2 := 0, 3 := 0, 4 := 0]

  lemma ExampleIsLegal()
    ensures Known(LINKS, UNKNOWN_BUT_ONE, [2, 0, 1, 3, 4]) && Distinct([2, 0, 1, 3, 4])
    ensures Paired(LINKS) && PeersVisited(LINKS, [2, 0, 1, 3, 4])
  {
    ExampleIsPaired();
  }

  lemma ExampleIsPaired()
    ensures Paired(LINKS)
  {
    assert LINKS.Keys == {0, 1, 2, 3, 4};
  }

  lemma ExamplePass(done: seq<Port>, p: Port, s: Sizes, flag: bool)
    requires Known(LINKS, UNKNOWN_BUT_ONE, done + [p])
    requires Known(LINKS, UNKNOWN_BUT_ONE, done)
    requires Pass(LINKS, UNKNOWN_BUT_ONE, done) == s && Flag(LINKS, UNKNOWN_BUT_ONE, done) == flag
    ensures Pass(LINKS, UNKNOWN_BUT_ONE, done + [p]) == Visit(LINKS, s, p)
    ensures Flag(LINKS, UNKNOWN_BUT_ONE, done + [p]) == if s[p] == 0 then PeerSize(LINKS, s, p) > 0 else flag
  {
    OneMorePort(LINKS, UNKNOWN_BUT_ONE, done, p);
  }

  /** Port 2 finds nothing. */
  lemma ExampleFirst()
    ensures Known(LINKS, UNKNOWN_BUT_ONE, [2])
    ensures Pass(LINKS, UNKNOWN_BUT_ONE, [2]) == UNKNOWN_BUT_ONE && !Flag(LINKS, UNKNOWN_BUT_ONE, [2])
  {
    assert [] + [2] == [2];
    ExamplePass([], 2, UNKNOWN_BUT_ONE, false);
    assert Visit(LINKS, UNKNOWN_BUT_ONE, 2) == UNKNOWN_BUT_ONE;
  }

  /** Port 0 finds the size of port 1. */
  lemma ExampleStart()
    ensures Known(LINKS, UNKNOWN_BUT_ONE, [2, 0])
    ensures Pass(LINKS, UNKNOWN_BUT_ONE, [2, 0]) == UNKNOWN_BUT_ONE[0 := 4] && Flag(LINKS, UNKNOWN_BUT_ONE, [2, 0])
  {
    ExampleFirst();
    assert [2] + [0] == [2, 0];
    ExamplePass([2], 0, UNKNOWN_BUT_ONE, false);
    assert Visit(LINKS, UNKNOWN_BUT_ONE, 0) == UNKNOWN_BUT_ONE[0 := 4];
  }

  /** One of the ports after that changes nothing. */
  lemma ExampleRest(done: seq<Port>, p: Port, flag: bool)
    requires p in {1, 3, 4} && forall q :: q in done ==> q in UNKNOWN_BUT_ONE
    requires Known(LINKS, UNKNOWN_BUT_ONE, done) && Flag(LINKS, UNKNOWN_BUT_ONE, done) == flag
    requires Pass(LINKS, UNKNOWN_BUT_ONE, done) == UNKNOWN_BUT_ONE[0 := 4]
    ensures Known(LINKS, UNKNOWN_BUT_ONE, done + [p])
    ensures Pass(LINKS, UNKNOWN_BUT_ONE, done + [p]) == UNKNOWN_BUT_ONE[0 := 4]
    ensures Flag(LINKS, UNKNOWN_BUT_ONE, done + [p]) == (p == 1 && flag)
  {
    var resolved := UNKNOWN_BUT_ONE[0 := 4];
    ExamplePass(done, p, resolved, flag);
    assert Visit(LINKS, resolved, p) == resolved;
  }

  lemma ExampleEnd()
    ensures Known(LINKS, UNKNOWN_BUT_ONE, [2, 0, 1, 3, 4])
    ensures Pass(LINKS, UNKNOWN_BUT_ONE, [2, 0, 1, 3, 4]) == UNKNOWN_BUT_ONE[0 := 4]
    ensures !Flag(LINKS, UNKNOWN_BUT_ONE, [2, 0, 1, 3, 4])
  {
    ExampleStart();
    ExampleRest([2, 0], 1, true);
    assert [2, 0] + [1] == [2, 0, 1] && [2, 0, 1] + [3] == [2, 0, 1, 3] && [2, 0, 1, 3] + [4] == [2, 0, 1, 3, 4];
    ExampleRest([2, 0, 1], 3, true);
    ExampleRest([2, 0, 1, 3], 4, false);
  }

  /** The loop can stop too early: input 2, visited before its output, ends with the default although
    * the output gets size 4, because the flag is lowered again by ports 3 and 4. */
  lemma StopsTooEarly()
    ensures Known(LINKS, UNKNOWN_BUT_ONE, [2, 0, 1, 3, 4]) && Distinct([2, 0, 1, 3, 4])
    ensures Paired(LINKS) && PeersVisited(LINKS, [2, 0, 1, 3, 4])
    ensures var after := Final(LINKS, UNKNOWN_BUT_ONE, [2, 0, 1, 3, 4]);
            LINKS[2] == 0 && after.Keys == UNKNOWN_BUT_ONE.Keys && after[0] == 4 && after[2] == DEFAULT_SIZE
  {
    ExampleIsLegal();
    ExampleEnd();
  }

  class FlowGraph {
    const nodes: seq<Node>
    const link: map<Port, Port>
    var sizes: Sizes

    /** One of the two inner loops, over the output or the input ports of a node. */
    method VisitPorts(ports: seq<Port>, flag: bool, ghost start: Sizes, ghost done: seq<Port>) returns (updated: bool)
      requires Known(link, start, done + ports)
      requires Known(link, start, done) && sizes == Pass(link, start, done) && flag == Flag(link, start, done)
      modifies `sizes
      ensures sizes == Pass(link, start, done + ports) && updated == Flag(link, start, done + ports)
    {
      updated := flag;
      assert done + ports[..0] == done;
      for i := 0 to |ports|
        invariant Known(link, start, done + ports[..i])
        invariant sizes == Pass(link, start, done + ports[..i]) && updated == Flag(link, start, done + ports[..i])
      {
        var p := ports[i];
        ghost var before := done + ports[..i];
        assert done + ports[..i + 1] == before + [p];
        KnownPart(link, start, before + [p], done + ports);
        OneMorePort(link, start, before, p);
        if sizes[p] == 0 {
          var newSize := if p in link then sizes[link[p]] else 0;
          sizes := sizes[p := newSize];
          updated := newSize > 0;
        }
      }
      assert ports[..|ports|] == ports;
    }

    /** One pass over all nodes. */
    method VisitNodes() returns (updated: bool)
      requires Known(link, sizes, Order(nodes))
      modifies `sizes
      ensures sizes == Pass(link, old(sizes), Order(nodes)) && updated == Flag(link, old(sizes), Order(nodes))
      ensures forall k, p :: 0 <= k < |nodes| && (p in nodes[k].outputs || p in nodes[k].inputs) ==>
                               GetsPeerSize(link, old(sizes), sizes, p)
    {
      PassResolves(nodes, link, sizes);
      ghost var start := sizes;
      updated := false;
      for k := 0 to |nodes|
        invariant Known(link, start, Order(nodes[..k]))
        invariant sizes == Pass(link, start, Order(nodes[..k])) && updated == Flag(link, start, Order(nodes[..k]))
      {
        ghost var done := Order(nodes[..k]);
        assert nodes[..k + 1][..k] == nodes[..k];
        OrderPrefix(nodes, k + 1);
        KnownPart(link, start, done + nodes[k].outputs + nodes[k].inputs, Order(nodes));
        KnownPart(link, start, done + nodes[k].outputs, Order(nodes));
        updated := VisitPorts(nodes[k].outputs, updated, start, done);
        updated := VisitPorts(nodes[k].inputs, updated, start, done + nodes[k].outputs);
      }
      assert nodes[..|nodes|] == nodes;
    }

    /** The size part of check_connections. */
    method CheckConnections()
      requires Known(link, sizes, Order(nodes))
      modifies `sizes
      ensures sizes == Final(link, old(sizes), Order(nodes))
      ensures forall k, p :: 0 <= k < |nodes| && (p in nodes[k].outputs || p in nodes[k].inputs) ==>
                               EndsWell(link, old(sizes), sizes, p)
    {
      NodePortsEndWell(nodes, link, sizes);
      ghost var order := Order(nodes);
      var updated := true;
      while updated
        invariant sizes.Keys == old(sizes).Keys
        invariant updated ==> Propagate(link, sizes, order) == Propagate(link, old(sizes), order)
        invariant !updated ==> sizes == Propagate(link, old(sizes), order)
        decreases if updated then Zeros(sizes, order) + 1 else 0
      {
        ghost var before := sizes;
        updated := VisitNodes();
        if updated {
          FlagMeansProgress(link, before, order);
        }
      }
      SetDefaults();
    }

    method SetDefaults()
      requires forall p :: p in Order(nodes) ==> p in sizes
      modifies `sizes
      ensures sizes == Fill(old(sizes), Order(nodes))
      ensures forall k, p :: 0 <= k < |nodes| && (p in nodes[k].outputs || p in nodes[k].inputs) ==>
                               p in sizes && sizes[p] == if old(sizes)[p] > 0 then old(sizes)[p] else 8
    {
      forall k, p | 0 <= k < |nodes| && (p in nodes[k].outputs || p in nodes[k].inputs)
        ensures p in Order(nodes)
      {
        OrderHolds(nodes, p);
      }
      ghost var start := sizes;
      FillNothing(start);
      for k := 0 to |nodes|
        invariant sizes == Fill(start, Order(nodes[..k]))
      {
        ghost var done := Order(nodes[..k]);
        assert nodes[..k + 1][..k] == nodes[..k];
        OrderPrefix(nodes, k + 1);
        DefaultPorts(nodes[k].outputs, start, done);
        DefaultPorts(nodes[k].inputs, start, done + nodes[k].outputs);
      }
      assert nodes[..|nodes|] == nodes;
    }

    method DefaultPorts(ports: seq<Port>, ghost start: Sizes, ghost done: seq<Port>)
      requires sizes == Fill(start, done) && forall p :: p in ports ==> p in start
      modifies `sizes
      ensures sizes == Fill(start, done + ports)
    {
      assert done + ports[..0] == done;
      for i := 0 to |ports|
        invariant sizes == Fill(start, done + ports[..i])
      {
        assert done + ports[..i + 1] == (done + ports[..i]) + [ports[i]];
        assert ports[i] in ports;
        FillOneMore(start, done + ports[..i], ports[i]);
        if sizes[ports[i]] == 0 {
          sizes := sizes[ports[i] := DEFAULT_SIZE];
        }
      }
      assert ports[..|ports|] == ports;
    }
  }

  lemma FillNothing(sizes: Sizes)
    ensures Fill(sizes, []) == sizes
  {
  }

  lemma FillOneMore(sizes: Sizes, done: seq<Port>, p: Port)
    requires p in sizes
    ensures var s := Fill(sizes, done);
            Fill(sizes, done + [p]) == if s[p] == 0 then s[p := DEFAULT_SIZE] else s
  {
    assert forall q :: q in done + [p] <==> q in done || q == p;
  }
}
