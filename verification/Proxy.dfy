/** One direction of a runtime_proxy link, runtime_proxy.cc: push_message on one host, the receive
  * loop on the other, and an ordered socket between them.
  *
  * What is pushed before the client is connected is dropped at the sender; what arrives before a
  * monitor has been set is dropped at the receiver.
  */
module Proxy {
  import opened Monitor
  import opened Sequences

  /** `pushed` is all that was ever handed to push_message, `early` and `unseen` count the drops. */
  datatype Link = Link(pushed: seq<Msg>, wire: seq<Msg>, queue: seq<Msg>,
                       connected: bool, attached: bool, early: nat, unseen: nat)

  datatype Event = Connect | Attach | Push(msg: Msg) | Receive

  /** The receiving proxy's side and id. */
  datatype End = End(upstream: bool, id: int)

  function Restamp(end: End, m: Msg): Msg {
    if end.upstream then m.(schedId := end.id) else m
  }

  function RestampAll(end: End, s: seq<Msg>): (r: seq<Msg>)
    ensures |r| == |s|
  {
    seq(|s|, i requires 0 <= i < |s| => Restamp(end, s[i]))
  }

  function Init(): Link { Link([], [], [], false, false, 0, 0) }

  /** The receive loop waits for a message. */
  predicate Legal(l: Link, e: Event) { e.Receive? ==> l.wire != [] }

  function Apply(end: End, l: Link, e: Event): Link
    requires Legal(l, e)
  {
    match e
    case Connect => l.(connected := true)
    case Attach => l.(attached := true)
    case Push(m) =>
      if l.connected then l.(pushed := l.pushed + [m], wire := l.wire + [m])
      else l.(pushed := l.pushed + [m], early := l.early + 1)
    case Receive =>
      var rest := l.wire[1..];
      if l.attached then l.(wire := rest, queue := l.queue + [Restamp(end, l.wire[0])])
      else l.(wire := rest, unseen := l.unseen + 1)
  }

  predicate RunLegal(end: End, l: Link, run: seq<Event>)
    decreases |run|
  {
    run != [] ==> Legal(l, run[0]) && RunLegal(end, Apply(end, l, run[0]), run[1..])
  }

  function Run(end: End, l: Link, run: seq<Event>): Link
    requires RunLegal(end, l, run)
    decreases |run|
  {
    if run == [] then l else Run(end, Apply(end, l, run[0]), run[1..])
  }

  /** Queued and in-flight messages are the pushed ones, in order, without the two dropped stretches. */
  ghost predicate Inv(end: End, l: Link) {
    && l.early + l.unseen <= |l.pushed|
    && (l.connected || (l.early == |l.pushed| && l.unseen == 0))
    && (l.attached || l.queue == [])
    && l.queue + RestampAll(end, l.wire) == RestampAll(end, l.pushed[l.early + l.unseen..])
  }

  lemma PushKeepsInv(end: End, l: Link, m: Msg)
    requires Inv(end, l)
    ensures Inv(end, Apply(end, l, Push(m)))
  {
    var lost := l.early + l.unseen;
    if l.connected {
      assert (l.pushed + [m])[lost..] == l.pushed[lost..] + [m];
      RestampLast(end, l.wire, m);
      RestampLast(end, l.pushed[lost..], m);
      ConcatAssociates(l.queue, RestampAll(end, l.wire), [Restamp(end, m)]);
    }
  }

  lemma ReceiveKeepsInv(end: End, l: Link)
    requires Inv(end, l) && l.wire != []
    ensures Inv(end, Apply(end, l, Receive))
  {
    RestampFirst(end, l.wire);
    if l.attached {
      ConcatAssociates(l.queue, [Restamp(end, l.wire[0])], RestampAll(end, l.wire[1..]));
    } else {
      DroppedKeepsInv(end, l);
    }
  }

  lemma DroppedKeepsInv(end: End, l: Link)
    requires Inv(end, l) && l.wire != [] && !l.attached
    ensures Inv(end, Apply(end, l, Receive))
  {
    var rest := l.pushed[l.early + l.unseen..];
    assert RestampAll(end, l.wire) == RestampAll(end, rest);
    assert |l.wire| == |rest|;
    RestampRest(end, l.wire);
    RestampRest(end, rest);
    assert rest[1..] == l.pushed[l.early + l.unseen + 1..];
  }

  lemma RestampRest(end: End, s: seq<Msg>)
    requires s != []
    ensures RestampAll(end, s)[1..] == RestampAll(end, s[1..])
  {
  }

  lemma StepKeepsInv(end: End, l: Link, e: Event)
    requires Inv(end, l) && Legal(l, e)
    ensures Inv(end, Apply(end, l, e))
  {
    match e
    case Push(m) => PushKeepsInv(end, l, m);
    case Receive => ReceiveKeepsInv(end, l);
    case _ =>
  }

  lemma RestampLast(end: End, s: seq<Msg>, m: Msg)
    ensures RestampAll(end, s + [m]) == RestampAll(end, s) + [Restamp(end, m)]
  {
  }

  lemma RestampFirst(end: End, s: seq<Msg>)
    requires s != []
    ensures RestampAll(end, s) == [Restamp(end, s[0])] + RestampAll(end, s[1..])
  {
  }

  lemma {:induction false} RunKeepsInv(end: End, l: Link, run: seq<Event>)
    requires Inv(end, l) && RunLegal(end, l, run)
    ensures Inv(end, Run(end, l, run))
    decreases |run|
  {
    if run != [] {
      StepKeepsInv(end, l, run[0]);
      RunKeepsInv(end, Apply(end, l, run[0]), run[1..]);
    }
  }

  /** No message is pushed before the connection and none received before the monitor is set. */
  predicate SetUpInTime(connected: bool, attached: bool, run: seq<Event>)
    decreases |run|
  {
    run != [] ==>
      match run[0]
      case Connect => SetUpInTime(true, attached, run[1..])
      case Attach => SetUpInTime(connected, true, run[1..])
      case Push(_) => connected && SetUpInTime(connected, attached, run[1..])
      case Receive => attached && SetUpInTime(connected, attached, run[1..])
  }

  lemma {:induction false} DropsIff(end: End, l: Link, run: seq<Event>)
    requires RunLegal(end, l, run)
    ensures l.early + l.unseen <= Run(end, l, run).early + Run(end, l, run).unseen
    ensures Run(end, l, run).early + Run(end, l, run).unseen == l.early + l.unseen
       <==> SetUpInTime(l.connected, l.attached, run)
    decreases |run|
  {
    if run != [] {
      DropsIff(end, Apply(end, l, run[0]), run[1..]);
    }
  }

  lemma KeepsAllIff(end: End, run: seq<Event>)
    requires RunLegal(end, Init(), run)
    ensures var l := Run(end, Init(), run);
            l.queue + RestampAll(end, l.wire) == RestampAll(end, l.pushed) <==> SetUpInTime(false, false, run)
  {
    var l := Run(end, Init(), run);
    assert Inv(end, Init());
    RunKeepsInv(end, Init(), run);
    DropsIff(end, Init(), run);
    if l.early + l.unseen == 0 {
      assert l.pushed[0..] == l.pushed;
    } else {
      assert |l.queue + RestampAll(end, l.wire)| < |l.pushed|;
    }
  }

  // ----- what arrives, message by message

  /** The messages a run pushes, in order. */
  function PushedBy(run: seq<Event>): seq<Msg> {
    if run == [] then []
    else (if run[0].Push? then [run[0].msg] else []) + PushedBy(run[1..])
  }

  lemma {:induction false} PushedIsPushedBy(end: End, l: Link, run: seq<Event>)
    requires RunLegal(end, l, run)
    ensures Run(end, l, run).pushed == l.pushed + PushedBy(run)
    decreases |run|
  {
    if run != [] {
      PushedIsPushedBy(end, Apply(end, l, run[0]), run[1..]);
      var head := if run[0].Push? then [run[0].msg] else [];
      assert Apply(end, l, run[0]).pushed == l.pushed + head;
      ConcatAssociates(l.pushed, head, PushedBy(run[1..]));
    }
  }

  /** What is in flight is the end of what was pushed, untouched. */
  ghost predicate WireIsLast(l: Link) {
    && (l.connected || l.wire == [])
    && |l.wire| <= |l.pushed| && l.wire == l.pushed[|l.pushed| - |l.wire|..]
  }

  lemma {:induction false} RunKeepsWire(end: End, l: Link, run: seq<Event>)
    requires RunLegal(end, l, run) && WireIsLast(l)
    ensures WireIsLast(Run(end, l, run))
    decreases |run|
  {
    if run != [] {
      StepKeepsWire(end, l, run[0]);
      RunKeepsWire(end, Apply(end, l, run[0]), run[1..]);
    }
  }

  lemma StepKeepsWire(end: End, l: Link, e: Event)
    requires Legal(l, e) && WireIsLast(l)
    ensures WireIsLast(Apply(end, l, e))
  {
    if e.Push? && l.connected {
      assert (l.pushed + [e.msg])[|l.pushed| - |l.wire|..] == l.pushed[|l.pushed| - |l.wire|..] + [e.msg];
    }
  }

  /** The messages of `sent` are `queue` and then `wire`: those in flight untouched, those that have arrived with
      their kinds, and with their ids too unless the receiving end is the upstream side, which gives them its own. */
  ghost predicate Delivers(end: End, sent: seq<Msg>, queue: seq<Msg>, wire: seq<Msg>) {
    && |queue| + |wire| == |sent|
    && wire == sent[|queue|..]
    && (forall i :: 0 <= i < |queue| ==> queue[i].kind == sent[i].kind)
    && forall i :: 0 <= i < |queue| ==> queue[i].schedId == if end.upstream then end.id else sent[i].schedId
  }

  /** The link is a first-in first-out channel, losing, doubling and changing nothing but the id, exactly
    * when both ends are set up before they are used. */
  lemma LinkIsFifoIff(end: End, run: seq<Event>)
    requires RunLegal(end, Init(), run)
    ensures var l := Run(end, Init(), run);
            Delivers(end, PushedBy(run), l.queue, l.wire) <==> SetUpInTime(false, false, run)
  {
    var l := Run(end, Init(), run);
    PushedIsPushedBy(end, Init(), run);
    KeepsAllIff(end, run);
    DropsIff(end, Init(), run);
    assert Inv(end, Init());
    RunKeepsInv(end, Init(), run);
    RunKeepsWire(end, Init(), run);
    assert l.pushed == PushedBy(run);
    if SetUpInTime(false, false, run) {
      AllDelivered(end, l);
    } else {
      assert |l.queue| + |l.wire| < |l.pushed|;
    }
  }

  lemma AllDelivered(end: End, l: Link)
    requires WireIsLast(l) && l.queue + RestampAll(end, l.wire) == RestampAll(end, l.pushed)
    ensures Delivers(end, l.pushed, l.queue, l.wire)
  {
    assert |l.queue| + |l.wire| == |l.pushed|;
    forall i | 0 <= i < |l.queue|
      ensures l.queue[i] == Restamp(end, l.pushed[i])
    {
      assert (l.queue + RestampAll(end, l.wire))[i] == l.queue[i];
    }
  }

  /** The receiving end changes the id alone, and only on the upstream side. */
  lemma RestampIs(end: End, m: Msg)
    ensures Restamp(end, m).kind == m.kind
    ensures Restamp(end, m).schedId == if end.upstream then end.id else m.schedId
  {
  }

  // ----- the two ends

  /** The socket between them. */
  class Socket {
    var wire: seq<Msg>

    constructor ()
      ensures wire == []
    {
      wire := [];
    }
  }

  class RuntimeProxy {
    const upstream: bool
    const id: int
    const server: Socket
    const client: Socket
    var connected: bool
    var attached: bool
    var queue: seq<Msg>

    constructor (upstream: bool, id: int, server: Socket, client: Socket)
      ensures this.upstream == upstream && this.id == id && this.server == server && this.client == client
      ensures !connected && !attached && queue == []
    {
      this.upstream, this.id, this.server, this.client := upstream, id, server, client;
      connected, attached, queue := false, false, [];
    }

    method ClientConnect()
      modifies `connected
      ensures connected
    {
      connected := true;
    }

    method SetRuntimeMonitor()
      modifies `attached
      ensures attached
    {
      attached := true;
    }

    /** push_message, on the sending side of link l. */
    method PushMessage(m: Msg, ghost end: End, ghost l: Link)
      requires client.wire == l.wire && connected == l.connected
      modifies client
      ensures client.wire == Apply(end, l, Push(m)).wire
      ensures client.wire == old(client.wire) + if connected then [m] else []
    {
      if connected {
        client.wire := client.wire + [m];
      }
    }

    /** A turn of the receive loop that finds a message, on the receiving side of link l. */
    method ReceiveTurn(ghost l: Link)
      requires server.wire != [] && server.wire == l.wire && attached == l.attached && queue == l.queue
      modifies server, `queue
      ensures var after := Apply(End(upstream, id), l, Receive);
              server.wire == after.wire && queue == after.queue
      ensures server.wire == old(server.wire)[1..]
      ensures !attached ==> queue == old(queue)
      ensures attached ==>
                && |queue| == |old(queue)| + 1 && queue[..|old(queue)|] == old(queue)
                && queue[|old(queue)|].kind == old(server.wire)[0].kind
                && queue[|old(queue)|].schedId == if upstream then id else old(server.wire)[0].schedId
    {
      var msg := server.wire[0];
      server.wire := server.wire[1..];
      if upstream {
        msg := msg.(schedId := id);
      }
      if attached {
        queue := queue + [msg];
      }
    }
  }
}
