/** The receive thread of buffer_net_zmq.cc: messages off a socket, cut into writes of whole items
  * to a circular buffer.
  *
  * `posted` is everything written to the circular buffer, `incoming` the messages the socket has
  * still to deliver; when there are none, a thread that comes to the receive waits for ever. A turn of
  * the thread's loop is given the space the buffer grants it, in items.
  */
module NetReader {
  import opened Arith
  import opened Memory

  datatype State = State(posted: seq<Byte>, msg: seq<Byte>, idx: nat, incoming: seq<seq<Byte>>, waiting: bool)

  function Concat(messages: seq<seq<Byte>>): seq<Byte> {
    if messages == [] then [] else messages[0] + Concat(messages[1..])
  }

  /** A thread waits only with an exhausted message, on an empty socket. */
  predicate Valid(s: State) { s.idx <= |s.msg| && (s.waiting ==> s.idx == |s.msg| && s.incoming == []) }

  function Left(s: State): nat
    requires Valid(s)
  {
    |s.msg| - s.idx
  }

  /** Everything that has gone out, is in hand, or is still to come, in order. */
  function Stream(s: State): seq<Byte>
    requires Valid(s)
  {
    s.posted + s.msg[s.idx..] + Concat(s.incoming)
  }

  /** Bytes of the message that fit the grant, in whole items. */
  function ToWrite(size: nat, space: nat, left: nat): nat
    requires 1 <= size
  {
    Min(space * size, left) / size * size
  }

  lemma ToWriteBounds(size: nat, space: nat, left: nat)
    requires 1 <= size
    ensures ToWrite(size, space, left) <= left && ToWrite(size, space, left) <= space * size
    ensures Aligned(ToWrite(size, space, left), size)
    ensures 1 <= space ==> (ToWrite(size, space, left) == 0 <==> left < size)
  {
    var m := Min(space * size, left);
    DivBounds(m, size);
    WholeIsAligned(m / size, size);
    if 1 <= space {
      MulMono(1, space, size);
      if m / size == 0 {
        ModUnique(m, 0, m, size);
      } else {
        MulMono(1, m / size, size);
      }
    }
  }

  /** As many whole items as fit are copied: no larger number of whole items fits message and grant. */
  lemma ToWriteIsMost(size: nat, space: nat, left: nat, items: nat)
    requires 1 <= size
    ensures items * size <= ToWrite(size, space, left) <==> items * size <= left && items <= space
  {
    var m := Min(space * size, left);
    DivBounds(m, size);
    if items <= space {
      MulMono(items, space, size);
    } else {
      MulMono(space + 1, items, size);
      MulSplit(space, 1, size);
    }
    if items <= m / size {
      MulMono(items, m / size, size);
    } else {
      MulMono(m / size + 1, items, size);
      MulSplit(m / size, 1, size);
    }
  }

  /** The state once the write of a turn is done. */
  function AfterWrite(size: nat, s: State, space: nat): (t: State)
    requires 1 <= size && Valid(s) && !s.waiting
    ensures Valid(t) && !t.waiting
  {
    var n := ToWrite(size, space, Left(s));
    ToWriteBounds(size, space, Left(s));
    s.(posted := s.posted + s.msg[s.idx..s.idx + n], idx := s.idx + n)
  }

  /** The blocking receive: it takes the next message, or waits. */
  function AfterReceive(s: State): (t: State)
    requires Valid(s) && Left(s) == 0
    ensures Valid(t)
  {
    if s.incoming == [] then s.(waiting := true)
    else s.(msg := s.incoming[0], idx := 0, incoming := s.incoming[1..])
  }

  /** One turn of the loop. */
  function Turn(size: nat, s: State, space: nat): (t: State)
    requires 1 <= size && Valid(s) && !s.waiting
    ensures Valid(t)
  {
    if space == 0 then s
    else
      var u := AfterWrite(size, s, space);
      if Left(u) == 0 then AfterReceive(u) else u
  }

  /** A turn posts that many bytes, and none without space. */
  lemma TurnPosts(size: nat, s: State, space: nat)
    requires 1 <= size && Valid(s) && !s.waiting
    ensures |Turn(size, s, space).posted| == |s.posted| + ToWrite(size, space, Left(s))
    ensures space == 0 ==> Turn(size, s, space) == s
  {
    if space == 0 {
      ToWriteBounds(size, 0, Left(s));
    }
  }

  // ----- nothing is lost or reordered

  lemma WriteKeepsStream(size: nat, s: State, space: nat)
    requires 1 <= size && Valid(s) && !s.waiting
    ensures Stream(AfterWrite(size, s, space)) == Stream(s)
  {
    var t := AfterWrite(size, s, space);
    assert s.msg[s.idx..] == s.msg[s.idx..t.idx] + s.msg[t.idx..];
    Regroup(s.posted, s.msg[s.idx..t.idx], s.msg[t.idx..], Concat(s.incoming));
  }

  lemma Regroup(a: seq<Byte>, b: seq<Byte>, c: seq<Byte>, d: seq<Byte>)
    ensures a + b + c + d == a + (b + c) + d
  {
    assert a + b + c == a + (b + c);
  }

  lemma ReceiveKeepsStream(s: State)
    requires Valid(s) && Left(s) == 0
    ensures Stream(AfterReceive(s)) == Stream(s)
  {
    if s.incoming != [] {
      assert s.msg[s.idx..] == [];
      assert s.incoming[0][0..] == s.incoming[0];
      Regroup(s.posted, s.incoming[0], Concat(s.incoming[1..]), []);
    }
  }

  lemma TurnKeepsStream(size: nat, s: State, space: nat)
    requires 1 <= size && Valid(s) && !s.waiting
    ensures Stream(Turn(size, s, space)) == Stream(s)
  {
    if space != 0 {
      WriteKeepsStream(size, s, space);
      if Left(AfterWrite(size, s, space)) == 0 {
        ReceiveKeepsStream(AfterWrite(size, s, space));
      }
    }
  }

  /** The thread makes these turns without coming to wait before the last. */
  predicate RunLegal(size: nat, s: State, spaces: seq<nat>)
    requires 1 <= size && Valid(s)
    decreases |spaces|
  {
    spaces != [] ==> !s.waiting && RunLegal(size, Turn(size, s, spaces[0]), spaces[1..])
  }

  function Run(size: nat, s: State, spaces: seq<nat>): (t: State)
    requires 1 <= size && Valid(s) && RunLegal(size, s, spaces)
    ensures Valid(t)
    decreases |spaces|
  {
    if spaces == [] then s else Run(size, Turn(size, s, spaces[0]), spaces[1..])
  }

  /** At every loop head, for any grants: what was posted, the rest of the message in hand and the
    * messages to come are together the messages sent, in order. */
  lemma {:induction false} RunKeepsStream(size: nat, s: State, spaces: seq<nat>)
    requires 1 <= size && Valid(s) && RunLegal(size, s, spaces)
    ensures Stream(Run(size, s, spaces)) == Stream(s)
    decreases |spaces|
  {
    if spaces != [] {
      TurnKeepsStream(size, s, spaces[0]);
      RunKeepsStream(size, Turn(size, s, spaces[0]), spaces[1..]);
    }
  }

  // ----- progress

  /** Whole items only, in hand and to come. */
  ghost predicate WholeItems(size: nat, s: State)
    requires 1 <= size && Valid(s)
  {
    Aligned(Left(s), size) && WholeMessages(size, s.incoming)
  }

  ghost predicate WholeMessages(size: nat, messages: seq<seq<Byte>>) {
    forall i :: 0 <= i < |messages| ==> Aligned(|messages[i]|, size)
  }

  /** Bytes still to post, one for every message still to receive, and one for coming to wait. */
  function Work(s: State): nat
    requires Valid(s)
  {
    Left(s) + |Concat(s.incoming)| + |s.incoming| + if s.waiting then 0 else 1
  }

  lemma FirstMessageWhole(size: nat, messages: seq<seq<Byte>>)
    requires messages != []
    ensures WholeMessages(size, messages) <==> Aligned(|messages[0]|, size) && WholeMessages(size, messages[1..])
  {
    if Aligned(|messages[0]|, size) && WholeMessages(size, messages[1..]) {
      forall i | 0 <= i < |messages| ensures Aligned(|messages[i]|, size) {
        assert i > 0 ==> messages[i] == messages[1..][i - 1];
      }
    }
  }

  /** Writing whole items changes nothing about what is left beyond the last whole item. */
  lemma WriteKeepsWhole(size: nat, s: State, space: nat)
    requires 1 <= size && Valid(s) && !s.waiting
    ensures Aligned(Left(AfterWrite(size, s, space)), size) <==> Aligned(Left(s), size)
  {
    var n := ToWrite(size, space, Left(s));
    ToWriteBounds(size, space, Left(s));
    if Aligned(Left(s), size) {
      AlignedDifference(Left(s), n, size);
    }
    if Aligned(Left(s) - n, size) {
      AlignedSum(Left(s) - n, n, size);
    }
  }

  /** A turn neither makes nor mends parts of items. */
  lemma TurnKeepsWholeItems(size: nat, s: State, space: nat)
    requires 1 <= size && Valid(s) && !s.waiting
    ensures WholeItems(size, Turn(size, s, space)) <==> WholeItems(size, s)
  {
    WriteKeepsWhole(size, s, space);
    if s.incoming != [] {
      FirstMessageWhole(size, s.incoming);
    }
  }

  lemma WriteOrExhausted(size: nat, s: State, space: nat)
    requires 1 <= size && Valid(s) && !s.waiting && Aligned(Left(s), size) && 1 <= space
    ensures ToWrite(size, space, Left(s)) == 0 ==> Left(s) == 0
    ensures ToWrite(size, space, Left(s)) > 0 ==> ToWrite(size, space, Left(s)) >= size
  {
    ToWriteBounds(size, space, Left(s));
    var n := ToWrite(size, space, Left(s));
    if n == 0 {
      SmallAligned(Left(s), size);
    } else {
      AlignedNotSmall(n, size);
    }
  }

  /** A turn with space posts at least one item, replaces an exhausted message, or comes to wait. */
  lemma TurnMakesProgress(size: nat, s: State, space: nat)
    requires 1 <= size && Valid(s) && !s.waiting && WholeItems(size, s) && 1 <= space
    ensures var t := Turn(size, s, space);
            && Work(t) < Work(s)
            && (|t.posted| >= |s.posted| + size || (t.posted == s.posted && Left(s) == 0 && t == AfterReceive(s)))
  {
    ToWriteBounds(size, space, Left(s));
    WriteOrExhausted(size, s, space);
    if ToWrite(size, space, Left(s)) == 0 {
      assert AfterWrite(size, s, space) == s;
    }
  }

  lemma SmallAligned(a: nat, c: nat)
    requires 1 <= c && Aligned(a, c) && a < c
    ensures a == 0
  {
    ModUnique(a, 0, a, c);
    AlignedIffWhole(a, c);
  }

  lemma AlignedNotSmall(a: nat, c: nat)
    requires 1 <= c && Aligned(a, c) && a > 0
    ensures a >= c
  {
    if a < c {
      SmallAligned(a, c);
    }
  }

  /** With whole items and space on every turn, a run is at most as long as the work to be done. */
  lemma {:induction false} RunIsBounded(size: nat, s: State, spaces: seq<nat>)
    requires 1 <= size && Valid(s) && RunLegal(size, s, spaces) && WholeItems(size, s)
    requires forall i :: 0 <= i < |spaces| ==> 1 <= spaces[i]
    ensures |spaces| + Work(Run(size, s, spaces)) <= Work(s)
    decreases |spaces|
  {
    if spaces != [] {
      TurnKeepsWholeItems(size, s, spaces[0]);
      TurnMakesProgress(size, s, spaces[0]);
      RunIsBounded(size, Turn(size, s, spaces[0]), spaces[1..]);
    }
  }

  /** A thread waits exactly when its work is done, and then every message has been posted completely. */
  lemma WaitingIffDone(s: State)
    requires Valid(s)
    ensures s.waiting <==> Work(s) == 0
    ensures s.waiting ==> s.posted == Stream(s)
  {
    if s.waiting {
      assert s.msg[s.idx..] == [] && Concat(s.incoming) == [];
    }
  }

  /** With whole items the thread comes to wait, however small the grants, as long as there is space. */
  lemma {:induction false} RunToTheEnd(size: nat, s: State, space: nat) returns (spaces: seq<nat>)
    requires 1 <= size && Valid(s) && WholeItems(size, s) && 1 <= space
    ensures RunLegal(size, s, spaces) && Run(size, s, spaces).waiting
    ensures forall i :: 0 <= i < |spaces| ==> spaces[i] == space
    decreases Work(s)
  {
    if s.waiting {
      spaces := [];
    } else {
      TurnKeepsWholeItems(size, s, space);
      TurnMakesProgress(size, s, space);
      var rest := RunToTheEnd(size, Turn(size, s, space), space);
      spaces := [space] + rest;
      assert spaces[1..] == rest;
    }
  }

  lemma {:induction false} RunKeepsWholeItems(size: nat, s: State, spaces: seq<nat>)
    requires 1 <= size && Valid(s) && RunLegal(size, s, spaces)
    ensures WholeItems(size, Run(size, s, spaces)) <==> WholeItems(size, s)
    decreases |spaces|
  {
    if spaces != [] {
      TurnKeepsWholeItems(size, s, spaces[0]);
      RunKeepsWholeItems(size, Turn(size, s, spaces[0]), spaces[1..]);
    }
  }

  ghost predicate CanDeliver(size: nat, s: State)
    requires 1 <= size && Valid(s)
  {
    exists spaces :: RunLegal(size, s, spaces) && Run(size, s, spaces).waiting
  }

  /** All messages get posted if and only if all their sizes, and what is left of the one in hand, are
    * multiples of the item size: with one part of an item anywhere, no grants ever bring the thread to
    * the end, and with none, any sufficiently long run with space does. */
  lemma DeliversIff(size: nat, s: State)
    requires 1 <= size && Valid(s)
    ensures CanDeliver(size, s) <==> WholeItems(size, s)
  {
    if WholeItems(size, s) {
      var spaces := RunToTheEnd(size, s, 1);
    }
    if CanDeliver(size, s) {
      var spaces :| RunLegal(size, s, spaces) && Run(size, s, spaces).waiting;
      RunKeepsWholeItems(size, s, spaces);
      ZeroIsAligned(size);
    }
  }

  lemma ZeroIsAligned(c: nat)
    requires 1 <= c
    ensures Aligned(0, c)
  {
    WholeIsAligned(0, c);
  }

  /** What a run of any length comes to: everything is posted, or something is left that never will be. */
  lemma RunDelivers(size: nat, s: State, spaces: seq<nat>)
    requires 1 <= size && Valid(s) && RunLegal(size, s, spaces)
    ensures var t := Run(size, s, spaces);
            && (t.waiting ==> WholeItems(size, s) && t.posted == Stream(s))
            && (WholeItems(size, s) && (forall i :: 0 <= i < |spaces| ==> 1 <= spaces[i]) && |spaces| >= Work(s)
                ==> t.waiting)
            && (!WholeItems(size, s) ==> |t.posted| < |Stream(s)|)
  {
    var t := Run(size, s, spaces);
    RunKeepsStream(size, s, spaces);
    RunKeepsWholeItems(size, s, spaces);
    WaitingIffDone(t);
    ZeroIsAligned(size);
    if WholeItems(size, s) && forall i :: 0 <= i < |spaces| ==> 1 <= spaces[i] {
      RunIsBounded(size, s, spaces);
    }
    if !WholeItems(size, s) {
      SomethingLeft(size, t);
    }
  }

  lemma SomethingLeft(size: nat, s: State)
    requires 1 <= size && Valid(s) && !WholeItems(size, s)
    ensures |s.posted| < |Stream(s)|
  {
    ZeroIsAligned(size);
    if Left(s) == 0 && Concat(s.incoming) == [] {
      EmptyMessages(size, s.incoming);
    }
  }

  lemma {:induction false} EmptyMessages(size: nat, messages: seq<seq<Byte>>)
    requires 1 <= size && Concat(messages) == []
    ensures WholeMessages(size, messages)
  {
    ZeroIsAligned(size);
    if messages != [] {
      EmptyMessages(size, messages[1..]);
      FirstMessageWhole(size, messages);
    }
  }

  // ----- how it gets stuck

  /** A turn with space changes nothing exactly when a part of an item is left in the message. */
  lemma StuckIff(size: nat, s: State, space: nat)
    requires 1 <= size && Valid(s) && !s.waiting && 1 <= space
    ensures Turn(size, s, space) == s && Left(s) > 0 <==> 0 < Left(s) < size
  {
    ToWriteBounds(size, space, Left(s));
    var n := ToWrite(size, space, Left(s));
    assert Left(AfterWrite(size, s, space)) == Left(s) - n;
    if n == 0 {
      assert s.posted + s.msg[s.idx..s.idx] == s.posted;
    } else if Left(s) - n == 0 {
      assert |Turn(size, s, space).posted| > |s.posted|;
    }
  }

  /** From then on it spins: no grant ever changes the state again. */
  lemma {:induction false} StuckForever(size: nat, s: State, spaces: seq<nat>)
    requires 1 <= size && Valid(s) && RunLegal(size, s, spaces) && 0 < Left(s) < size
    ensures Run(size, s, spaces) == s
    decreases |spaces|
  {
    if spaces != [] {
      if 1 <= spaces[0] {
        StuckIff(size, s, spaces[0]);
      }
      StuckForever(size, s, spaces[1..]);
    }
  }

  /** A message that ends in part of an item leads there, whatever the grants: after as many turns with
    * space as it has items, exactly the remainder of its size is left, and stays. */
  lemma PartOfItemSticks(size: nat, s: State, spaces: seq<nat>)
    requires 1 <= size && Valid(s) && RunLegal(size, s, spaces) && Left(s) % size != 0
    requires forall i :: 0 <= i < |spaces| ==> 1 <= spaces[i]
    ensures var t := Run(size, s, spaces);
            && Left(t) % size == Left(s) % size && t.incoming == s.incoming
            && (Left(s) / size <= |spaces| ==> Left(t) == Left(s) % size)
  {
    PartOfItemStays(size, s, spaces);
    PartOfItemShrinks(size, s, spaces);
    SmallQuotient(Left(Run(size, s, spaces)), size);
  }

  lemma {:induction false} PartOfItemStays(size: nat, s: State, spaces: seq<nat>)
    requires 1 <= size && Valid(s) && RunLegal(size, s, spaces) && Left(s) % size != 0
    requires forall i :: 0 <= i < |spaces| ==> 1 <= spaces[i]
    ensures Left(Run(size, s, spaces)) % size == Left(s) % size && Run(size, s, spaces).incoming == s.incoming
    decreases |spaces|
  {
    if spaces != [] {
      PartOfItemTurn(size, s, spaces[0]);
      PartOfItemStays(size, Turn(size, s, spaces[0]), spaces[1..]);
    }
  }

  lemma {:induction false} PartOfItemShrinks(size: nat, s: State, spaces: seq<nat>)
    requires 1 <= size && Valid(s) && RunLegal(size, s, spaces) && Left(s) % size != 0
    requires forall i :: 0 <= i < |spaces| ==> 1 <= spaces[i]
    ensures Left(s) / size <= |spaces| ==> Left(Run(size, s, spaces)) / size == 0
    decreases |spaces|
  {
    if spaces == [] {
      NonNegativeQuotient(Left(s), size);
    } else {
      PartOfItemTurn(size, s, spaces[0]);
      PartOfItemShrinks(size, Turn(size, s, spaces[0]), spaces[1..]);
    }
  }

  lemma NonNegativeQuotient(a: nat, c: nat)
    requires 1 <= c
    ensures 0 <= a / c
  {
  }

  lemma SmallQuotient(a: nat, c: nat)
    requires 1 <= c
    ensures a / c == 0 ==> a == a % c
  {
    assert a == a / c * c + a % c;
  }

  lemma PartOfItemTurn(size: nat, s: State, space: nat)
    requires 1 <= size && Valid(s) && !s.waiting && Left(s) % size != 0 && 1 <= space
    ensures var t := Turn(size, s, space);
            && !t.waiting && t.incoming == s.incoming && Left(t) % size == Left(s) % size
            && (Left(t) / size < Left(s) / size || Left(s) / size == Left(t) / size == 0)
  {
    ToWriteBounds(size, space, Left(s));
    TakeItems(Left(s), ToWrite(size, space, Left(s)), size);
  }

  lemma TakeItems(left: nat, n: nat, size: nat)
    requires 1 <= size && Aligned(n, size) && n <= left
    ensures (left - n) % size == left % size && (left - n) / size == left / size - n / size
    ensures 0 < n ==> 0 < n / size
    ensures left < size ==> left / size == 0
  {
    assert n == n / size * size by { AlignedIffWhole(n, size); }
    assert left == left / size * size + left % size;
    QuotientGrows(n, left, size);
    MulSplit(left / size - n / size, n / size, size);
    ModUnique(left - n, left / size - n / size, left % size, size);
    if 0 < n {
      AlignedPositive(n, size);
    }
    if left < size {
      ModUnique(left, 0, left, size);
    }
  }

  lemma QuotientGrows(a: nat, b: nat, c: nat)
    requires 1 <= c && a <= b
    ensures a / c <= b / c
  {
    DivBounds(a, c);
    DivBounds(b, c);
    if b / c < a / c {
      MulMono(b / c + 1, a / c, c);
    }
  }

  /** Bytes left in the message as the thread computes them, in unsigned arithmetic. */
  function LeftUnsigned(msgSize: nat, idx: nat): nat { (msgSize - idx) % UINT64_RANGE }

  /** What a receive that returned without a message would leave: an empty message, and the old index.
    * A blocking receive does so only with a timeout set, and the source sets none. */
  function AfterFailedReceive(s: State): State
    requires Valid(s) && Left(s) == 0
  {
    s.(msg := [])
  }

  /** If a receive did fail, the next turn with space would copy nothing from the empty message exactly if
    * the index was 0, that is, if the message before had been empty too. */
  lemma FailedReceiveIff(size: nat, s: State, space: nat)
    requires 1 <= size && 1 <= space && Valid(s) && Left(s) == 0 && s.idx + size <= UINT64_RANGE
    ensures var t := AfterFailedReceive(s);
            ToWrite(size, space, LeftUnsigned(|t.msg|, t.idx)) == 0 <==> |s.msg| == 0
  {
    ToWriteBounds(size, space, LeftUnsigned(0, s.idx));
    if 0 < s.idx {
      ModUnique(0 - s.idx, -1, UINT64_RANGE - s.idx, UINT64_RANGE);
    }
  }

  // ----- the thread

  class Receiver {
    const size: nat
    var msg: seq<Byte>
    var idx: nat
    var incoming: seq<seq<Byte>>
    var posted: seq<Byte>
    var waiting: bool

    ghost function Abstract(): State reads this { State(posted, msg, idx, incoming, waiting) }

    constructor (size: nat, incoming: seq<seq<Byte>>)
      requires 1 <= size
      ensures this.size == size && Abstract() == State([], [], 0, incoming, false)
    {
      this.size := size;
      msg, idx, posted, waiting := [], 0, [], false;
      this.incoming := incoming;
    }

    /** A turn of the loop with `space` items of room. */
    method LoopTurn(space: nat)
      requires 1 <= size && Valid(Abstract()) && !waiting
      modifies this
      ensures Valid(Abstract()) && Abstract() == Turn(size, old(Abstract()), space)
      ensures |posted| <= |old(posted)| + space * size
    {
      ghost var s := Abstract();
      var left := |msg| - idx;
      var room := space * size;
      var items := Min(room, left) / size;
      var bytes := items * size;
      ToWriteBounds(size, space, left);
      if room <= 0 {
        return;
      }
      if bytes > 0 {
        posted := posted + msg[idx..idx + bytes];
        idx := idx + bytes;
        left := |msg| - idx;
      }
      assert Abstract() == AfterWrite(size, s, space) by {
        assert s.posted + s.msg[s.idx..s.idx] == s.posted;
      }
      if left == 0 {
        Receive();
      }
    }

    /** The blocking receive. */
    method Receive()
      requires Valid(Abstract()) && Left(Abstract()) == 0 && !waiting
      modifies this
      ensures Abstract() == AfterReceive(old(Abstract()))
    {
      if incoming == [] {
        waiting := true;
      } else {
        msg := incoming[0];
        incoming := incoming[1..];
        idx := 0;
      }
    }
  }
}
