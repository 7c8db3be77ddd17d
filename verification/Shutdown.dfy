/** Distributed shutdown: monitors on several hosts, linked by proxies.

    A link is a pair of proxies, one on each host, that deliver messages in order; the proxy on the upstream
    side replaces the scheduler id of what it receives by its own id. The state keeps complete logs (what
    has arrived at a monitor and how much of it has been popped, how much each proxy has taken from its
    link), so that a monitor's state is a function of what it has popped.
 */
module Shutdown {
  import opened Monitor
  import Proxy

  /** `peer` maps (host, proxy) to the (host, proxy) at the other end of the link. */
  datatype Topology = Topology(configs: seq<Config>, peer: map<(nat, nat), (nat, nat)>)

  datatype Host = Host(inbox: seq<Msg>, popped: nat, received: seq<nat>, reported: set<nat>)

  predicate IsProxy(t: Topology, h: nat, p: nat) {
    h < |t.configs| && p < |t.configs[h].proxies|
  }

  predicate IsSched(t: Topology, h: nat, j: nat) {
    h < |t.configs| && j < |t.configs[h].scheds|
  }

  predicate Upstream(t: Topology, h: nat, p: nat) {
    IsProxy(t, h, p) && t.configs[h].proxies[p].upstream
  }

  /** Every proxy is connected, links go both ways, and one side of each is the upstream side. */
  ghost predicate Linked(t: Topology) {
    forall h: nat, p: nat :: IsProxy(t, h, p) ==>
                               && (h, p) in t.peer
                               && var (g, q) := t.peer[(h, p)];
                                  && IsProxy(t, g, q) && (g, q) in t.peer && t.peer[(g, q)] == (h, p)
                                  && (Upstream(t, g, q) <==> !Upstream(t, h, p))
  }

  ghost predicate UniqueIds(cfg: Config) {
    && (forall i, j :: 0 <= i < j < |cfg.scheds| ==> cfg.scheds[i] != cfg.scheds[j])
    && (forall i, j :: 0 <= i < j < |cfg.proxies| ==> cfg.proxies[i].id != cfg.proxies[j].id)
    && (forall j, p :: 0 <= j < |cfg.scheds| && 0 <= p < |cfg.proxies| ==> cfg.scheds[j] != cfg.proxies[p].id)
  }

  /** Ids are unique if all of them are assigned at once, counting up from 1, the schedulers' before the proxies'. */
  lemma AssignedIdsAreUnique(cfg: Config)
    requires forall j :: 0 <= j < |cfg.scheds| ==> cfg.scheds[j] == 1 + j
    requires forall p :: 0 <= p < |cfg.proxies| ==> cfg.proxies[p].id == 1 + |cfg.scheds| + p
    ensures UniqueIds(cfg)
  {
  }

  function PeerHost(t: Topology, h: nat, p: nat): (g: nat)
    requires Linked(t) && IsProxy(t, h, p)
    ensures IsProxy(t, g, PeerProxy(t, h, p))
  {
    t.peer[(h, p)].0
  }

  function PeerProxy(t: Topology, h: nat, p: nat): nat
    requires Linked(t) && IsProxy(t, h, p)
  {
    t.peer[(h, p)].1
  }

  /** The state of the monitor on host `h`. */
  function Mon(t: Topology, net: seq<Host>, h: nat): (s: State)
    requires h < |net| == |t.configs| && net[h].popped <= |net[h].inbox|
    ensures Shaped(t.configs[h], s)
  {
    After(t.configs[h], net[h].inbox[..net[h].popped])
  }

  predicate Stopped(s: State) {
    s.phase == Exited || s.phase.Killed?
  }

  /** What the proxy makes of a message that comes in over its link. */
  function Stamp(t: Topology, h: nat, p: nat, k: Kind): Msg
    requires IsProxy(t, h, p)
  {
    var proxy := t.configs[h].proxies[p];
    Proxy.Restamp(Proxy.End(proxy.upstream, proxy.id), Msg(k, -1))
  }

  ghost predicate Shape(t: Topology, net: seq<Host>) {
    && |net| == |t.configs|
    && forall h :: 0 <= h < |net| ==>
                     net[h].popped <= |net[h].inbox| && |net[h].received| == |t.configs[h].proxies|
  }

  /** What has been sent to proxy `p` of host `h`, ever. */
  function SentTo(t: Topology, net: seq<Host>, h: nat, p: nat): seq<Kind>
    requires Linked(t) && Shape(t, net) && IsProxy(t, h, p)
  {
    Mon(t, net, PeerHost(t, h, p)).toProxies[PeerProxy(t, h, p)]
  }

  // ----- Steps

  datatype Event =
    | BlockDone(host: nat, sched: nat)      // a scheduler reports DONE
    | SchedFlushed(host: nat, sched: nat)   // a scheduler that was told DONE reports FLUSHED
    | User(host: nat, kind: Kind)           // start() or stop()
    | Deliver(host: nat, proxy: nat)        // a proxy takes the next message from its link
    | Pop(host: nat)                        // the monitor takes the next message from its queue

  ghost predicate Legal(t: Topology, net: seq<Host>, e: Event)
    requires Linked(t) && Shape(t, net)
  {
    match e
    case BlockDone(h, j) => IsSched(t, h, j)
    case SchedFlushed(h, j) => IsSched(t, h, j) && DoneCmd in Mon(t, net, h).toScheds[j]
    case User(h, k) => h < |net| && (k == Start || k == Kill)
    case Deliver(h, p) => IsProxy(t, h, p) && net[h].received[p] < |SentTo(t, net, h, p)|
    case Pop(h) => h < |net| && net[h].popped < |net[h].inbox| && !Stopped(Mon(t, net, h))
  }

  ghost function Push(net: seq<Host>, h: nat, m: Msg): seq<Host>
    requires h < |net|
  {
    net[h := net[h].(inbox := net[h].inbox + [m])]
  }

  ghost function Apply(t: Topology, net: seq<Host>, e: Event): seq<Host>
    requires Linked(t) && Shape(t, net) && Legal(t, net, e)
  {
    match e
    case BlockDone(h, j) => Push(net, h, Msg(Done, t.configs[h].scheds[j]))
    case SchedFlushed(h, j) =>
      var host := net[h];
      net[h := host.(inbox := host.inbox + [Msg(Flushed, t.configs[h].scheds[j])], reported := host.reported + {j})]
    case User(h, k) => Push(net, h, Msg(k, 0))
    case Deliver(h, p) =>
      var host := net[h];
      var n := host.received[p];
      net[h := host.(inbox := host.inbox + [Stamp(t, h, p, SentTo(t, net, h, p)[n])],
                     received := host.received[p := n + 1])]
    case Pop(h) => net[h := net[h].(popped := net[h].popped + 1)]
  }

  // ----- The invariant

  ghost predicate HasExited(t: Topology, net: seq<Host>, h: nat)
    requires Shape(t, net) && h < |net|
  {
    Mon(t, net, h).phase == Exited
  }

  /** Where a FLUSHED with this id can come from: the scheduler of that id, or a downstream host that has
      itself exited. */
  ghost predicate Origin(t: Topology, net: seq<Host>, h: nat, id: int)
    requires Linked(t) && Shape(t, net) && h < |net|
  {
    || (exists j: nat :: IsSched(t, h, j) && j in net[h].reported && t.configs[h].scheds[j] == id)
    || (exists p: nat :: Upstream(t, h, p) && t.configs[h].proxies[p].id == id && HasExited(t, net, PeerHost(t, h, p)))
  }

  ghost predicate FlushedOk(t: Topology, net: seq<Host>, h: nat)
    requires Linked(t) && Shape(t, net) && h < |net|
  {
    forall i :: 0 <= i < |net[h].inbox| && net[h].inbox[i].kind == Flushed ==>
                  Origin(t, net, h, net[h].inbox[i].schedId) && Has(net[h].inbox[..i], Done)
  }

  /** Everything a proxy has taken from its link is in the monitor's log. */
  ghost predicate LinkOk(t: Topology, net: seq<Host>, h: nat, p: nat)
    requires Linked(t) && Shape(t, net) && IsProxy(t, h, p)
  {
    && net[h].received[p] <= |SentTo(t, net, h, p)|
    && forall k :: 0 <= k < net[h].received[p] ==> Stamp(t, h, p, SentTo(t, net, h, p)[k]) in net[h].inbox
  }

  ghost predicate ReportsOk(t: Topology, net: seq<Host>, h: nat)
    requires Shape(t, net) && h < |net|
  {
    forall j :: j in net[h].reported ==> IsSched(t, h, j) && Msg(Flushed, t.configs[h].scheds[j]) in net[h].inbox
  }

  ghost predicate Inv(t: Topology, net: seq<Host>) {
    && Linked(t) && Shape(t, net)
    && (forall h :: 0 <= h < |net| ==> FlushedOk(t, net, h) && ReportsOk(t, net, h))
    && (forall h: nat, p: nat :: IsProxy(t, h, p) ==> LinkOk(t, net, h, p))
  }

  // ----- Steps only extend

  /** Logs grow, and what a monitor has sent or decided stays. */
  ghost predicate Extends(t: Topology, net: seq<Host>, net': seq<Host>)
    requires Linked(t) && Shape(t, net)
  {
    && Shape(t, net')
    && forall h :: 0 <= h < |net| ==>
                     && net[h].inbox <= net'[h].inbox && net[h].reported <= net'[h].reported
                     && (HasExited(t, net, h) ==> HasExited(t, net', h))
                     && SentGrows(t, net, net', h)
  }

  ghost predicate SentGrows(t: Topology, net: seq<Host>, net': seq<Host>, h: nat)
    requires Shape(t, net) && Shape(t, net') && h < |net|
  {
    forall p :: 0 <= p < |t.configs[h].proxies| ==>
                  Mon(t, net, h).toProxies[p] <= Mon(t, net', h).toProxies[p]
  }

  lemma SamePoppedSameMon(t: Topology, net: seq<Host>, net': seq<Host>, h: nat)
    requires Shape(t, net) && Shape(t, net') && h < |net|
    requires net[h].inbox <= net'[h].inbox && net[h].popped == net'[h].popped
    ensures Mon(t, net', h) == Mon(t, net, h)
  {
    assert net'[h].inbox[..net'[h].popped] == net[h].inbox[..net[h].popped];
  }

  lemma PopIsHandle(t: Topology, net: seq<Host>, h: nat)
    requires Linked(t) && Shape(t, net) && Legal(t, net, Pop(h))
    ensures Shape(t, Apply(t, net, Pop(h)))
    ensures Mon(t, Apply(t, net, Pop(h)), h) == Handle(t.configs[h], Mon(t, net, h), net[h].inbox[net[h].popped])
  {
    var host := net[h];
    assert host.inbox[..host.popped + 1] == host.inbox[..host.popped] + [host.inbox[host.popped]];
    AfterOne(t.configs[h], host.inbox[..host.popped], host.inbox[host.popped]);
  }

  lemma StepExtends(t: Topology, net: seq<Host>, e: Event)
    requires Linked(t) && Shape(t, net) && Legal(t, net, e)
    ensures Extends(t, net, Apply(t, net, e))
  {
    StepKeepsShape(t, net, e);
    var net' := Apply(t, net, e);
    forall h | 0 <= h < |net|
      ensures && net[h].inbox <= net'[h].inbox && net[h].reported <= net'[h].reported
              && (HasExited(t, net, h) ==> HasExited(t, net', h)) && SentGrows(t, net, net', h)
    {
      StepExtendsHost(t, net, e, h);
    }
  }

  lemma StepKeepsShape(t: Topology, net: seq<Host>, e: Event)
    requires Linked(t) && Shape(t, net) && Legal(t, net, e)
    ensures Shape(t, Apply(t, net, e))
  {
  }

  lemma StepExtendsHost(t: Topology, net: seq<Host>, e: Event, h: nat)
    requires Linked(t) && Shape(t, net) && Legal(t, net, e) && h < |net|
    requires Shape(t, Apply(t, net, e))
    ensures var net' := Apply(t, net, e);
            && net[h].inbox <= net'[h].inbox && net[h].reported <= net'[h].reported
            && (HasExited(t, net, h) ==> HasExited(t, net', h)) && SentGrows(t, net, net', h)
  {
    if e == Pop(h) {
      PopIsHandle(t, net, h);
      HandleGrows(t.configs[h], Mon(t, net, h), net[h].inbox[net[h].popped]);
    } else {
      SamePoppedSameMon(t, net, Apply(t, net, e), h);
    }
  }

  lemma OriginStays(t: Topology, net: seq<Host>, net': seq<Host>, h: nat, id: int)
    requires Linked(t) && Shape(t, net) && Extends(t, net, net') && h < |net|
    requires Origin(t, net, h, id)
    ensures Origin(t, net', h, id)
  {
    if j: nat :| IsSched(t, h, j) && j in net[h].reported && t.configs[h].scheds[j] == id {
      assert j in net'[h].reported;
    } else {
      var p: nat :| Upstream(t, h, p) && t.configs[h].proxies[p].id == id && HasExited(t, net, PeerHost(t, h, p));
      assert HasExited(t, net', PeerHost(t, h, p));
    }
  }

  // ----- Every step keeps the invariant

  lemma LogKeepsFlushedOk(t: Topology, net: seq<Host>, net': seq<Host>, h: nat)
    requires Inv(t, net) && Extends(t, net, net') && h < |net|
    requires net'[h].inbox == net[h].inbox
             || exists m :: net'[h].inbox == net[h].inbox + [m]
                            && (m.kind == Flushed ==> Origin(t, net', h, m.schedId) && Has(net[h].inbox, Done))
    ensures FlushedOk(t, net', h)
  {
    assert FlushedOk(t, net, h);
    forall i | 0 <= i < |net'[h].inbox| && net'[h].inbox[i].kind == Flushed
      ensures Origin(t, net', h, net'[h].inbox[i].schedId) && Has(net'[h].inbox[..i], Done)
    {
      if i < |net[h].inbox| {
        assert net'[h].inbox[i] == net[h].inbox[i] && net'[h].inbox[..i] == net[h].inbox[..i];
        OriginStays(t, net, net', h, net[h].inbox[i].schedId);
      } else {
        assert net'[h].inbox[..i] == net[h].inbox;
      }
    }
  }

  lemma GrowingKeepsLink(t: Topology, net: seq<Host>, net': seq<Host>, h: nat, p: nat)
    requires Inv(t, net) && Extends(t, net, net') && IsProxy(t, h, p)
    requires net'[h].received[p] == net[h].received[p]
    ensures LinkOk(t, net', h, p)
  {
    assert LinkOk(t, net, h, p);
    var g, q := PeerHost(t, h, p), PeerProxy(t, h, p);
    assert SentGrows(t, net, net', g);
    assert SentTo(t, net, h, p) <= SentTo(t, net', h, p);
    forall k | 0 <= k < net'[h].received[p]
      ensures Stamp(t, h, p, SentTo(t, net', h, p)[k]) in net'[h].inbox
    {
      assert Stamp(t, h, p, SentTo(t, net, h, p)[k]) in net[h].inbox;
    }
  }

  ghost predicate Adds(t: Topology, net: seq<Host>, e: Event, h: nat, m: Msg)
    requires Linked(t) && Shape(t, net) && Legal(t, net, e)
  {
    match e
    case BlockDone(g, j) => g == h && m == Msg(Done, t.configs[g].scheds[j])
    case SchedFlushed(g, j) => g == h && m == Msg(Flushed, t.configs[g].scheds[j])
    case User(g, k) => g == h && m == Msg(k, 0)
    case Deliver(g, p) => g == h && m == Stamp(t, g, p, SentTo(t, net, g, p)[net[g].received[p]])
    case Pop(_) => false
  }

  lemma AddedIsGood(t: Topology, net: seq<Host>, e: Event, h: nat, m: Msg)
    requires Inv(t, net) && Legal(t, net, e) && h < |net| && Adds(t, net, e, h, m) && m.kind == Flushed
    ensures Extends(t, net, Apply(t, net, e))
    ensures Origin(t, Apply(t, net, e), h, m.schedId) && Has(net[h].inbox, Done)
  {
    StepExtends(t, net, e);
    var net' := Apply(t, net, e);
    match e
    case SchedFlushed(g, j) =>
      ToldDoneMeansDone(t.configs[g], net[g].inbox[..net[g].popped], j);
      var i :| 0 <= i < net[g].popped && net[g].inbox[..net[g].popped][i].kind == Done;
      assert net[g].inbox[i].kind == Done;
      assert IsSched(t, g, j) && j in net'[g].reported;
    case Deliver(g, p) => DeliveredFlushed(t, net, g, p);
    case _ =>
  }

  /** A FLUSHED that comes in over a link: its sender has exited, and its DONE has come in before. */
  lemma DeliveredFlushed(t: Topology, net: seq<Host>, h: nat, p: nat)
    requires Inv(t, net) && Legal(t, net, Deliver(h, p))
    requires SentTo(t, net, h, p)[net[h].received[p]] == Flushed
    ensures Extends(t, net, Apply(t, net, Deliver(h, p)))
    ensures Origin(t, Apply(t, net, Deliver(h, p)), h, Stamp(t, h, p, Flushed).schedId) && Has(net[h].inbox, Done)
  {
    StepExtends(t, net, Deliver(h, p));
    var g, q, k := PeerHost(t, h, p), PeerProxy(t, h, p), net[h].received[p];
    FlushedFollowsDone(t.configs[g], net[g].inbox[..net[g].popped], q, k);
    assert LinkOk(t, net, h, p);
    assert Stamp(t, h, p, SentTo(t, net, h, p)[k - 1]) in net[h].inbox;
    assert HasExited(t, Apply(t, net, Deliver(h, p)), g);
    assert Upstream(t, h, p);
  }

  lemma StepKeepsFlushedOk(t: Topology, net: seq<Host>, e: Event, h: nat)
    requires Inv(t, net) && Legal(t, net, e) && h < |net|
    ensures Extends(t, net, Apply(t, net, e)) && FlushedOk(t, Apply(t, net, e), h)
    ensures ReportsOk(t, Apply(t, net, e), h)
  {
    StepExtends(t, net, e);
    var net' := Apply(t, net, e);
    if m :| Adds(t, net, e, h, m) {
      if m.kind == Flushed {
        AddedIsGood(t, net, e, h, m);
      }
      assert net'[h].inbox == net[h].inbox + [m];
    } else {
      SomethingAdded(t, net, e, h);
    }
    LogKeepsFlushedOk(t, net, net', h);
    assert ReportsOk(t, net, h);
  }

  lemma SomethingAdded(t: Topology, net: seq<Host>, e: Event, h: nat)
    requires Inv(t, net) && Legal(t, net, e) && h < |net|
    ensures Apply(t, net, e)[h].inbox == net[h].inbox || exists m :: Adds(t, net, e, h, m)
  {
    match e
    case BlockDone(g, j) => assert Adds(t, net, e, g, Msg(Done, t.configs[g].scheds[j]));
    case SchedFlushed(g, j) => assert Adds(t, net, e, g, Msg(Flushed, t.configs[g].scheds[j]));
    case User(g, k) => assert Adds(t, net, e, g, Msg(k, 0));
    case Deliver(g, p) => assert Adds(t, net, e, g, Stamp(t, g, p, SentTo(t, net, g, p)[net[g].received[p]]));
    case Pop(_) =>
  }

  lemma DeliverKeepsSent(t: Topology, net: seq<Host>, h: nat, p: nat)
    requires Linked(t) && Shape(t, net) && Legal(t, net, Deliver(h, p))
    ensures Shape(t, Apply(t, net, Deliver(h, p)))
    ensures SentTo(t, Apply(t, net, Deliver(h, p)), h, p) == SentTo(t, net, h, p)
  {
    SamePoppedSameMon(t, net, Apply(t, net, Deliver(h, p)), PeerHost(t, h, p));
  }

  lemma DeliverKeepsLink(t: Topology, net: seq<Host>, h: nat, p: nat)
    requires Inv(t, net) && Legal(t, net, Deliver(h, p))
    ensures Extends(t, net, Apply(t, net, Deliver(h, p))) && LinkOk(t, Apply(t, net, Deliver(h, p)), h, p)
  {
    StepExtends(t, net, Deliver(h, p));
    DeliverKeepsSent(t, net, h, p);
    DeliverAppends(t, net, h, p);
    assert LinkOk(t, net, h, p);
    StampsArrive(t, h, p, SentTo(t, net, h, p), net[h].received[p], net[h].inbox);
  }

  lemma StampsArrive(t: Topology, h: nat, p: nat, sent: seq<Kind>, n: nat, before: seq<Msg>)
    requires IsProxy(t, h, p) && n < |sent|
    requires forall k :: 0 <= k < n ==> Stamp(t, h, p, sent[k]) in before
    ensures forall k :: 0 <= k < n + 1 ==> Stamp(t, h, p, sent[k]) in before + [Stamp(t, h, p, sent[n])]
  {
  }

  lemma DeliverAppends(t: Topology, net: seq<Host>, h: nat, p: nat)
    requires Linked(t) && Shape(t, net) && Legal(t, net, Deliver(h, p))
    ensures var net', n := Apply(t, net, Deliver(h, p)), net[h].received[p];
            && |net'| == |net| && net'[h].inbox == net[h].inbox + [Stamp(t, h, p, SentTo(t, net, h, p)[n])]
            && |net'[h].received| == |net[h].received| && net'[h].received[p] == n + 1
  {
  }

  lemma StepKeepsInv(t: Topology, net: seq<Host>, e: Event)
    requires Inv(t, net) && Legal(t, net, e)
    ensures Inv(t, Apply(t, net, e))
  {
    StepExtends(t, net, e);
    var net' := Apply(t, net, e);
    forall h | 0 <= h < |net'|
      ensures FlushedOk(t, net', h) && ReportsOk(t, net', h)
    {
      StepKeepsFlushedOk(t, net, e, h);
    }
    forall h: nat, p: nat | IsProxy(t, h, p)
      ensures LinkOk(t, net', h, p)
    {
      if e == Deliver(h, p) {
        DeliverKeepsLink(t, net, h, p);
      } else {
        GrowingKeepsLink(t, net, net', h, p);
      }
    }
  }

  // ----- Runs

  ghost function Initial(t: Topology): seq<Host> {
    seq(|t.configs|, h requires 0 <= h < |t.configs| => Host([], 0, seq(|t.configs[h].proxies|, _ => 0), {}))
  }

  lemma InitialIsGood(t: Topology)
    requires Linked(t)
    ensures Inv(t, Initial(t))
  {
  }

  ghost predicate Run(t: Topology, net: seq<Host>, events: seq<Event>, net': seq<Host>)
    requires Inv(t, net)
    decreases |events|
  {
    if events == [] then net' == net
    else
      && Legal(t, net, events[0])
      && (StepKeepsInv(t, net, events[0]); Run(t, Apply(t, net, events[0]), events[1..], net'))
  }

  lemma {:induction false} RunKeepsInv(t: Topology, net: seq<Host>, events: seq<Event>, net': seq<Host>)
    requires Inv(t, net) && Run(t, net, events, net')
    ensures Inv(t, net')
    decreases |events|
  {
    if events != [] {
      StepKeepsInv(t, net, events[0]);
      RunKeepsInv(t, Apply(t, net, events[0]), events[1..], net');
    }
  }

  ghost predicate Reachable(t: Topology, net: seq<Host>)
    requires Linked(t)
  {
    exists events :: (InitialIsGood(t); Run(t, Initial(t), events, net))
  }

  lemma ReachableIsGood(t: Topology, net: seq<Host>)
    requires Linked(t) && Reachable(t, net)
    ensures Inv(t, net)
  {
    InitialIsGood(t);
    var events :| Run(t, Initial(t), events, net);
    RunKeepsInv(t, Initial(t), events, net);
  }

  // ----- Nobody exits too early

  lemma ExitedHasHeardFrom(t: Topology, net: seq<Host>, h: nat, id: int)
    requires Inv(t, net) && h < |net| && HasExited(t, net, h) && Required(t.configs[h], id)
    ensures Origin(t, net, h, id)
  {
    var log := net[h].inbox[..net[h].popped];
    ExitIff(t.configs[h], log);
    var d: nat, e: nat :| ExitedSince(t.configs[h], log, d, e);
    var i :| d < i < e + 1 && log[i] == Msg(Flushed, id);
    assert FlushedOk(t, net, h);
    assert net[h].inbox[i] == log[i];
  }

  /** A monitor that has told its schedulers to exit has heard from each of them, and each host directly
      downstream has done the same. */
  lemma ExitIsJustified(t: Topology, net: seq<Host>, h: nat)
    requires Inv(t, net) && h < |net| && HasExited(t, net, h) && UniqueIds(t.configs[h])
    ensures forall j: nat :: IsSched(t, h, j) ==> j in net[h].reported
    ensures forall p: nat :: Upstream(t, h, p) ==> HasExited(t, net, PeerHost(t, h, p))
  {
    forall j: nat | IsSched(t, h, j)
      ensures j in net[h].reported
    {
      ExitedHasHeardFrom(t, net, h, t.configs[h].scheds[j]);
      OriginOfSched(t, net, h, j);
    }
    forall p: nat | Upstream(t, h, p)
      ensures HasExited(t, net, PeerHost(t, h, p))
    {
      ExitedHasHeardFrom(t, net, h, t.configs[h].proxies[p].id);
      OriginOfProxy(t, net, h, p);
    }
  }

  lemma OriginOfSched(t: Topology, net: seq<Host>, h: nat, j: nat)
    requires Inv(t, net) && h < |net| && UniqueIds(t.configs[h]) && IsSched(t, h, j)
    requires Origin(t, net, h, t.configs[h].scheds[j])
    ensures j in net[h].reported
  {
  }

  lemma OriginOfProxy(t: Topology, net: seq<Host>, h: nat, p: nat)
    requires Inv(t, net) && h < |net| && UniqueIds(t.configs[h]) && Upstream(t, h, p)
    requires Origin(t, net, h, t.configs[h].proxies[p].id)
    ensures HasExited(t, net, PeerHost(t, h, p))
  {
    var proxies := t.configs[h].proxies;
    if q: nat :| Upstream(t, h, q) && proxies[q].id == proxies[p].id && HasExited(t, net, PeerHost(t, h, q)) {
      SameIdSameProxy(t.configs[h], p, q);
    }
  }

  lemma SameIdSameProxy(cfg: Config, p: nat, q: nat)
    requires UniqueIds(cfg) && p < |cfg.proxies| && q < |cfg.proxies| && cfg.proxies[p].id == cfg.proxies[q].id
    ensures p == q
  {
  }

  /** `path` leads downstream from host to host. */
  ghost predicate Downstream(t: Topology, path: seq<nat>)
    requires Linked(t)
  {
    && path != [] && path[0] < |t.configs|
    && (|path| > 1 ==>
          && (exists p: nat :: Upstream(t, path[0], p) && PeerHost(t, path[0], p) == path[1])
          && Downstream(t, path[1..]))
  }

  lemma {:induction false} ExitReachesDown(t: Topology, net: seq<Host>, path: seq<nat>)
    requires Inv(t, net) && Downstream(t, path) && HasExited(t, net, path[0])
    requires forall h :: 0 <= h < |t.configs| ==> UniqueIds(t.configs[h])
    ensures path[|path| - 1] < |net| && HasExited(t, net, path[|path| - 1])
    decreases |path|
  {
    if |path| > 1 {
      ExitIsJustified(t, net, path[0]);
      ExitReachesDown(t, net, path[1..]);
    }
  }

  /** Safety of the distributed shutdown: in every run, when a monitor has told its schedulers to exit, all
      schedulers of its host and of every host downstream, however far, have reported that they flushed. */
  lemma ExitOnlyAfterDownstreamFlushed(t: Topology, net: seq<Host>, path: seq<nat>)
    requires Linked(t) && Reachable(t, net) && Downstream(t, path)
    requires forall h :: 0 <= h < |t.configs| ==> UniqueIds(t.configs[h])
    requires (ReachableIsGood(t, net); HasExited(t, net, path[0]))
    ensures |net| == |t.configs|
    ensures var h := path[|path| - 1];
            h < |net| && forall j: nat :: IsSched(t, h, j) ==> j in net[h].reported
  {
    ReachableIsGood(t, net);
    ExitReachesDown(t, net, path);
    ExitIsJustified(t, net, path[|path| - 1]);
  }

  /** No FLUSHED is lost: while a monitor is still waiting for a DONE, it never pops one. */
  lemma NoFlushedPoppedWhileRunning(t: Topology, net: seq<Host>, h: nat)
    requires Linked(t) && Reachable(t, net)
    requires (ReachableIsGood(t, net); h < |net| && Mon(t, net, h).phase == Running)
    ensures |net| == |t.configs| && net[h].popped <= |net[h].inbox|
    ensures forall i :: 0 <= i <= net[h].popped && i < |net[h].inbox| ==> net[h].inbox[i].kind != Flushed
  {
    ReachableIsGood(t, net);
    assert FlushedOk(t, net, h);
    var inbox, n := net[h].inbox, net[h].popped;
    forall i | 0 <= i <= n && i < |inbox|
      ensures inbox[i].kind != Flushed
    {
      if inbox[i].kind == Flushed {
        HasInPrefix(inbox, i, n, Done);
        RunningIff(t.configs[h], inbox[..n]);
      }
    }
  }

  lemma HasInPrefix(log: seq<Msg>, i: nat, n: nat, k: Kind)
    requires i <= n <= |log| && Has(log[..i], k)
    ensures Has(log[..n], k)
  {
    var j :| 0 <= j < i && log[..i][j].kind == k;
    assert log[..n][j].kind == k;
  }

  // ----- Nobody is left behind

  /** Nobody calls stop(). */
  ghost predicate NoStop(events: seq<Event>) {
    forall k :: 0 <= k < |events| ==> !(events[k].User? && events[k].kind == Kill)
  }

  ghost predicate KillOk(t: Topology, net: seq<Host>, h: nat)
    requires Linked(t) && Shape(t, net) && h < |net|
  {
    forall i :: 0 <= i < |net[h].inbox| && net[h].inbox[i].kind == Kill ==> UpstreamExited(t, net, h)
  }

  ghost predicate UpstreamExited(t: Topology, net: seq<Host>, h: nat)
    requires Linked(t) && Shape(t, net) && h < |net|
  {
    exists p: nat :: IsProxy(t, h, p) && !Upstream(t, h, p) && HasExited(t, net, PeerHost(t, h, p))
  }

  lemma UpstreamStaysExited(t: Topology, net: seq<Host>, net': seq<Host>, h: nat)
    requires Linked(t) && Shape(t, net) && Extends(t, net, net') && h < |net| && UpstreamExited(t, net, h)
    ensures UpstreamExited(t, net', h)
  {
    var p: nat :| IsProxy(t, h, p) && !Upstream(t, h, p) && HasExited(t, net, PeerHost(t, h, p));
    assert HasExited(t, net', PeerHost(t, h, p));
  }

  ghost predicate CleanInv(t: Topology, net: seq<Host>) {
    && Inv(t, net)
    && (forall h :: 0 <= h < |net| ==> UniqueIds(t.configs[h]))
    && (forall h :: 0 <= h < |net| ==> KillOk(t, net, h))
  }

  /** A KILL reaches only monitors that have exited already, so none is ever killed. */
  lemma NoneKilled(t: Topology, net: seq<Host>, h: nat)
    requires CleanInv(t, net) && h < |net|
    ensures !Mon(t, net, h).phase.Killed?
    ensures (exists i :: 0 <= i < |net[h].inbox| && net[h].inbox[i].kind == Kill) ==> HasExited(t, net, h)
  {
    RunningIff(t.configs[h], net[h].inbox[..net[h].popped]);
    if i :| 0 <= i < |net[h].inbox| && net[h].inbox[i].kind == Kill {
      assert KillOk(t, net, h);
      var p: nat :| IsProxy(t, h, p) && !Upstream(t, h, p) && HasExited(t, net, PeerHost(t, h, p));
      var g, q := PeerHost(t, h, p), PeerProxy(t, h, p);
      assert Upstream(t, g, q) && PeerHost(t, g, q) == h;
      ExitIsJustified(t, net, g);
    }
  }

  lemma DeliveredKill(t: Topology, net: seq<Host>, h: nat, p: nat)
    requires CleanInv(t, net) && Legal(t, net, Deliver(h, p))
    requires SentTo(t, net, h, p)[net[h].received[p]] == Kill
    ensures !Upstream(t, h, p) && HasExited(t, net, PeerHost(t, h, p))
  {
    var g, q := PeerHost(t, h, p), PeerProxy(t, h, p);
    KillIsSentBy(t.configs[g], net[g].inbox[..net[g].popped], q, net[h].received[p]);
    NoneKilled(t, net, g);
  }

  lemma StepKeepsKillOk(t: Topology, net: seq<Host>, e: Event, h: nat)
    requires CleanInv(t, net) && Legal(t, net, e) && NoStop([e]) && h < |net|
    ensures Extends(t, net, Apply(t, net, e)) && KillOk(t, Apply(t, net, e), h)
  {
    StepExtends(t, net, e);
    var net' := Apply(t, net, e);
    forall i | 0 <= i < |net'[h].inbox| && net'[h].inbox[i].kind == Kill
      ensures UpstreamExited(t, net', h)
    {
      if i < |net[h].inbox| {
        assert KillOk(t, net, h) && net[h].inbox[i] == net'[h].inbox[i];
      } else {
        NewKill(t, net, e, h, i);
      }
      UpstreamStaysExited(t, net, net', h);
    }
  }

  /** A KILL that is new comes over a link. */
  lemma NewKill(t: Topology, net: seq<Host>, e: Event, h: nat, i: nat)
    requires CleanInv(t, net) && Legal(t, net, e) && NoStop([e]) && h < |net| == |Apply(t, net, e)|
    requires |net[h].inbox| <= i < |Apply(t, net, e)[h].inbox| && Apply(t, net, e)[h].inbox[i].kind == Kill
    ensures UpstreamExited(t, net, h)
  {
    assert [e][0] == e;
    DeliveredKill(t, net, h, e.proxy);
  }

  lemma {:induction false} CleanRunKeepsInv(t: Topology, net: seq<Host>, events: seq<Event>, net': seq<Host>)
    requires CleanInv(t, net) && Run(t, net, events, net') && NoStop(events)
    ensures CleanInv(t, net')
    decreases |events|
  {
    if events != [] {
      var e := events[0];
      StepKeepsInv(t, net, e);
      var next := Apply(t, net, e);
      forall h | 0 <= h < |next|
        ensures KillOk(t, next, h)
      {
        StepKeepsKillOk(t, net, e, h);
      }
      CleanRunKeepsInv(t, next, events[1..], net');
    }
  }

  /** Nothing is under way: no monitor that has not stopped has anything to pop, no proxy of such a monitor
      anything to take from its link, and every scheduler that was told to flush has done so. */
  ghost predicate Quiet(t: Topology, net: seq<Host>)
    requires Linked(t) && Shape(t, net)
  {
    forall h :: 0 <= h < |net| && !Stopped(Mon(t, net, h)) ==> QuietHost(t, net, h)
  }

  ghost predicate QuietHost(t: Topology, net: seq<Host>, h: nat)
    requires Linked(t) && Shape(t, net) && h < |net|
  {
    && net[h].popped == |net[h].inbox|
    && (forall p: nat :: IsProxy(t, h, p) ==> net[h].received[p] == |SentTo(t, net, h, p)|)
    && (forall j: nat :: IsSched(t, h, j) && DoneCmd in Mon(t, net, h).toScheds[j] ==> j in net[h].reported)
  }

  /** In a quiet network the news that somebody is done has crossed every link. */
  lemma DoneCrossesLink(t: Topology, net: seq<Host>, h: nat, p: nat)
    requires CleanInv(t, net) && Quiet(t, net) && IsProxy(t, h, p)
    requires Mon(t, net, PeerHost(t, h, p)).phase != Running
    ensures Mon(t, net, h).phase != Running
  {
    var g, q := PeerHost(t, h, p), PeerProxy(t, h, p);
    NoneKilled(t, net, g);
    DrainingHasSentDone(t.configs[g], net[g].inbox[..net[g].popped], q);
    if Mon(t, net, h).phase == Running {
      var sent := SentTo(t, net, h, p);
      assert QuietHost(t, net, h) && LinkOk(t, net, h, p);
      var k :| 0 <= k < |sent| && sent[k] == Done;
      assert Stamp(t, h, p, sent[k]) in net[h].inbox;
      assert net[h].inbox[..net[h].popped] == net[h].inbox;
      RunningIff(t.configs[h], net[h].inbox);
    }
  }

  // ----- START crosses every link

  /** A message keeps its kind on the way. On the upstream side of a link it gets the id of the proxy there. */
  lemma StampIs(t: Topology, h: nat, p: nat, k: Kind)
    requires IsProxy(t, h, p)
    ensures Stamp(t, h, p, k).kind == k
    ensures Upstream(t, h, p) ==> Stamp(t, h, p, k).schedId == t.configs[h].proxies[p].id
  {
  }

  /** What a proxy has taken from its link has come into the queue of its monitor, with its kind. */
  lemma DeliveredKeepsKind(t: Topology, net: seq<Host>, h: nat, p: nat, k: nat)
    requires Inv(t, net) && IsProxy(t, h, p) && k < net[h].received[p]
    ensures k < |SentTo(t, net, h, p)|
    ensures exists i :: 0 <= i < |net[h].inbox| && net[h].inbox[i].kind == SentTo(t, net, h, p)[k]
                        && (Upstream(t, h, p) ==> net[h].inbox[i].schedId == t.configs[h].proxies[p].id)
  {
    assert LinkOk(t, net, h, p);
    var m := Stamp(t, h, p, SentTo(t, net, h, p)[k]);
    var i :| 0 <= i < |net[h].inbox| && net[h].inbox[i] == m;
    StampIs(t, h, p, SentTo(t, net, h, p)[k]);
  }

  ghost predicate StartPoppedAt(t: Topology, net: seq<Host>, h: nat, i: nat)
    requires Shape(t, net) && h < |net|
  {
    StartPopped(net[h].inbox[..net[h].popped], i)
  }

  /** A START that the first loop of a monitor pops reaches each downstream host: as soon as anything has come over
      the link, a START is in the queue there. */
  lemma StartCrossesLink(t: Topology, net: seq<Host>, h: nat, p: nat, i: nat)
    requires Inv(t, net) && Upstream(t, h, p) && StartPoppedAt(t, net, h, i)
    requires net[PeerHost(t, h, p)].received[PeerProxy(t, h, p)] >= 1
    ensures Has(net[PeerHost(t, h, p)].inbox, Start)
  {
    var g, q := PeerHost(t, h, p), PeerProxy(t, h, p);
    assert IsProxy(t, g, q) && PeerHost(t, g, q) == h && PeerProxy(t, g, q) == p;
    StartIsPassedOn(t.configs[h], net[h].inbox[..net[h].popped], i);
    assert SentTo(t, net, g, q)[0] == Start;
    DeliveredKeepsKind(t, net, g, q, 0);
  }

  /** Its schedulers have been started. */
  lemma StartReachesSchedulers(t: Topology, net: seq<Host>, h: nat, j: nat, i: nat)
    requires Inv(t, net) && IsSched(t, h, j) && StartPoppedAt(t, net, h, i)
    ensures StartCmd in Mon(t, net, h).toScheds[j]
  {
    StartIsPassedOn(t.configs[h], net[h].inbox[..net[h].popped], i);
  }

  /** In a quiet network, a downstream host that is still running has started its schedulers too. */
  lemma QuietMeansStarted(t: Topology, net: seq<Host>, h: nat, p: nat, i: nat, j: nat)
    requires Inv(t, net) && Quiet(t, net) && Upstream(t, h, p) && StartPoppedAt(t, net, h, i)
    requires Mon(t, net, PeerHost(t, h, p)).phase == Running && IsSched(t, PeerHost(t, h, p), j)
    ensures StartCmd in Mon(t, net, PeerHost(t, h, p)).toScheds[j]
  {
    var g, q := PeerHost(t, h, p), PeerProxy(t, h, p);
    assert IsProxy(t, g, q) && PeerHost(t, g, q) == h && PeerProxy(t, g, q) == p;
    StartIsPassedOn(t.configs[h], net[h].inbox[..net[h].popped], i);
    assert QuietHost(t, net, g) && SentTo(t, net, g, q) != [];
    StartCrossesLink(t, net, h, p, i);
    var log := net[g].inbox;
    assert log[..net[g].popped] == log;
    var k :| 0 <= k < |log| && log[k].kind == Start;
    RunningIff(t.configs[g], log);
    HasNoneBefore(log, k, Done);
    HasNoneBefore(log, k, Kill);
    StartReachesSchedulers(t, net, g, j, k);
  }

  lemma HasNoneBefore(log: seq<Msg>, k: nat, kind: Kind)
    requires k <= |log| && !Has(log, kind)
    ensures !Has(log[..k], kind)
  {
    forall i | 0 <= i < k
      ensures log[..k][i].kind != kind
    {
      assert log[..k][i] == log[i];
    }
  }

  /** The user may start or stop any host at any time. */
  lemma UserMaySend(t: Topology, net: seq<Host>, h: nat)
    requires Linked(t) && Shape(t, net) && h < |net|
    ensures Legal(t, net, User(h, Start)) && Legal(t, net, User(h, Kill))
  {
  }

  /** Each step adds at most the one message it is about, at the end of one host's queue. */
  lemma WhatArrives(t: Topology, net: seq<Host>, e: Event)
    requires Linked(t) && Shape(t, net) && Legal(t, net, e)
    ensures var net' := Apply(t, net, e);
            && |net'| == |net|
            && (forall g :: 0 <= g < |net| && g != e.host ==> net'[g] == net[g])
            && e.host < |net|
            && var before, after := net[e.host].inbox, net'[e.host].inbox;
               match e
               case BlockDone(h, j) => after == before + [Msg(Done, t.configs[h].scheds[j])]
               case SchedFlushed(h, j) => after == before + [Msg(Flushed, t.configs[h].scheds[j])]
               case User(_, k) => after == before + [Msg(k, 0)]
               case Pop(_) => after == before && net'[e.host].popped == net[e.host].popped + 1
               case Deliver(h, p) =>
                 && |after| == |before| + 1 && after[..|before|] == before
                 && after[|before|].kind == SentTo(t, net, h, p)[net[h].received[p]]
                 && (Upstream(t, h, p) ==> after[|before|].schedId == t.configs[h].proxies[p].id)
                 && |net'[h].received| == |net[h].received| && net'[h].received[p] == net[h].received[p] + 1
  {
    if e.Deliver? {
      DeliverAppends(t, net, e.host, e.proxy);
    }
  }

  lemma FlushedSinceDone(t: Topology, net: seq<Host>, h: nat, id: int, d: nat)
    requires CleanInv(t, net) && h < |net| && Msg(Flushed, id) in net[h].inbox && FirstDone(net[h].inbox, d)
    ensures FlushedBetween(net[h].inbox, id, d, |net[h].inbox|)
  {
    var log := net[h].inbox;
    var i :| 0 <= i < |log| && log[i] == Msg(Flushed, id);
    assert FlushedOk(t, net, h);
    if i <= d {
      HasInPrefix(log, i, d, Done);
    }
  }

  /** A quiet monitor that has left its first loop, and whose downstream hosts have all exited, has exited:
      otherwise it would be waiting for somebody, and there is nobody left to wait for. */
  lemma QuietMonitorExits(t: Topology, net: seq<Host>, h: nat)
    requires CleanInv(t, net) && Quiet(t, net) && h < |net| && t.configs[h].scheds != []
    requires Mon(t, net, h).phase != Running
    requires forall p: nat :: Upstream(t, h, p) ==> HasExited(t, net, PeerHost(t, h, p))
    ensures HasExited(t, net, h)
  {
    NoneKilled(t, net, h);
    if Mon(t, net, h).phase == Draining {
      var cfg, log := t.configs[h], net[h].inbox;
      assert QuietHost(t, net, h) && log[..net[h].popped] == log;
      PhaseHistory(cfg, log);
      var d: nat :| DrainingSince(cfg, log, d);
      StillWaitsFor(cfg, log, d);
      var id :| Required(cfg, id) && !FlushedBetween(log, id, d, |log|);
      RequiredHasFlushed(t, net, h, id);
      FlushedSinceDone(t, net, h, id, d);
    }
  }

  lemma RequiredHasFlushed(t: Topology, net: seq<Host>, h: nat, id: int)
    requires CleanInv(t, net) && h < |net| && QuietHost(t, net, h) && Required(t.configs[h], id)
    requires Mon(t, net, h).phase == Draining
    requires forall p: nat :: Upstream(t, h, p) ==> HasExited(t, net, PeerHost(t, h, p))
    ensures Msg(Flushed, id) in net[h].inbox
  {
    var cfg := t.configs[h];
    if j: nat :| j < |cfg.scheds| && cfg.scheds[j] == id {
      ToldDoneMeansDone(cfg, net[h].inbox[..net[h].popped], j);
      assert IsSched(t, h, j) && ReportsOk(t, net, h);
    } else {
      var p: nat :| p < |cfg.proxies| && cfg.proxies[p].upstream && cfg.proxies[p].id == id;
      assert Upstream(t, h, p);
      var g, q := PeerHost(t, h, p), PeerProxy(t, h, p);
      DrainingHasSentDone(t.configs[g], net[g].inbox[..net[g].popped], q);
      var sent := SentTo(t, net, h, p);
      var k :| 0 <= k < |sent| && sent[k] == Flushed;
      assert LinkOk(t, net, h, p) && Stamp(t, h, p, sent[k]) in net[h].inbox;
    }
  }

  /** `path` leads over links, in either direction. */
  ghost predicate Connected(t: Topology, path: seq<nat>)
    requires Linked(t)
  {
    && path != [] && path[0] < |t.configs|
    && (|path| > 1 ==>
          && (exists p: nat :: IsProxy(t, path[0], p) && PeerHost(t, path[0], p) == path[1])
          && Connected(t, path[1..]))
  }

  lemma {:induction false} DoneReachesAll(t: Topology, net: seq<Host>, path: seq<nat>)
    requires CleanInv(t, net) && Quiet(t, net) && Connected(t, path)
    requires path[|path| - 1] < |net| && Mon(t, net, path[|path| - 1]).phase != Running
    ensures Mon(t, net, path[0]).phase != Running
    decreases |path|
  {
    if |path| > 1 {
      DoneReachesAll(t, net, path[1..]);
      var p: nat :| IsProxy(t, path[0], p) && PeerHost(t, path[0], p) == path[1];
      DoneCrossesLink(t, net, path[0], p);
    }
  }

  /** Links lead from higher to lower ranks: there is no cycle of hosts each downstream of the next. */
  ghost predicate Ranked(t: Topology, rank: seq<nat>)
    requires Linked(t)
  {
    && |rank| == |t.configs|
    && forall h: nat, p: nat :: Upstream(t, h, p) ==> rank[PeerHost(t, h, p)] < rank[h]
  }

  lemma {:induction false} EveryRankExits(t: Topology, net: seq<Host>, rank: seq<nat>, h: nat)
    requires CleanInv(t, net) && Quiet(t, net) && Ranked(t, rank) && h < |net|
    requires forall g :: 0 <= g < |net| ==> t.configs[g].scheds != [] && Mon(t, net, g).phase != Running
    ensures HasExited(t, net, h)
    decreases rank[h]
  {
    forall p: nat | Upstream(t, h, p)
      ensures HasExited(t, net, PeerHost(t, h, p))
    {
      EveryRankExits(t, net, rank, PeerHost(t, h, p));
    }
    QuietMonitorExits(t, net, h);
  }

  ghost predicate ConnectedTo(t: Topology, h: nat, first: nat)
    requires Linked(t)
  {
    exists path :: Connected(t, path) && path[0] == h && path[|path| - 1] == first
  }

  lemma QuietCleanAllExited(t: Topology, rank: seq<nat>, net: seq<Host>, first: nat)
    requires CleanInv(t, net) && Ranked(t, rank) && Quiet(t, net)
    requires forall h :: 0 <= h < |net| ==> t.configs[h].scheds != [] && ConnectedTo(t, h, first)
    requires first < |net| && Mon(t, net, first).phase != Running
    ensures forall h :: 0 <= h < |net| ==> HasExited(t, net, h)
  {
    forall h | 0 <= h < |net|
      ensures Mon(t, net, h).phase != Running
    {
      assert ConnectedTo(t, h, first);
      var path :| Connected(t, path) && path[0] == h && path[|path| - 1] == first;
      DoneReachesAll(t, net, path);
    }
    forall h | 0 <= h < |net|
      ensures HasExited(t, net, h)
    {
      EveryRankExits(t, net, rank, h);
    }
  }

  /** The shutdown cannot get stuck. On connected hosts without a cycle of downstream links, in any run in
      which nobody calls stop(): if some monitor has left its first loop and nothing is under way any more,
      then every monitor of every host has told its schedulers to exit. */
  lemma QuietMeansAllExited(t: Topology, rank: seq<nat>, events: seq<Event>, net: seq<Host>, first: nat)
    requires Linked(t) && Ranked(t, rank)
    requires forall h :: 0 <= h < |t.configs| ==>
                           UniqueIds(t.configs[h]) && t.configs[h].scheds != [] && ConnectedTo(t, h, first)
    requires (InitialIsGood(t); Run(t, Initial(t), events, net)) && NoStop(events)
    requires Shape(t, net) && Quiet(t, net)
    requires first < |net| && Mon(t, net, first).phase != Running
    ensures forall h :: 0 <= h < |net| ==> HasExited(t, net, h)
  {
    InitialIsGood(t);
    CleanRunKeepsInv(t, Initial(t), events, net);
    QuietCleanAllExited(t, rank, net, first);
  }

  /** In a run in which nobody calls stop(), a monitor only stops by exiting. */
  lemma NoMonitorIsKilled(t: Topology, events: seq<Event>, net: seq<Host>, h: nat)
    requires Linked(t) && h < |t.configs|
    requires forall g :: 0 <= g < |t.configs| ==> UniqueIds(t.configs[g])
    requires (InitialIsGood(t); Run(t, Initial(t), events, net)) && NoStop(events)
    ensures Shape(t, net)
    ensures Stopped(Mon(t, net, h)) <==> HasExited(t, net, h)
  {
    InitialIsGood(t);
    CleanRunKeepsInv(t, Initial(t), events, net);
    NoneKilled(t, net, h);
  }
}
