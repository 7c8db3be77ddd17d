/** The doubly mapped circular buffer as a concurrent broadcast FIFO.

    One producer and any number of readers share an array of twice the buffer size; the second half
    mirrors the first, so that a window never has to wrap. The producer's work is cut into the steps
    that other threads can fall between: ask for space, fill, mirror up, mirror down, advance the index.
    `stream` (everything ever posted), `data` (what is being posted), `start`, `consumed` and `held`
    are history: the code does not keep them, the claims are about them.
 */
module DoubleMapped {
  import opened Arith
  import opened Memory
  import opened Sequences

  /** A reader: its index into the buffer, and the bytes it has consumed since it was attached at
      stream position `start`. `held` is the number of items of the window it was last shown. */
  datatype Reader = Reader(itemSize: nat, index: nat, totalRead: nat,
                           start: nat, consumed: seq<Byte>, held: nat)
  {
    function Pos(): nat { start + |consumed| }
  }

  /** Where the producer is: between calls, holding a grant of `items`, or inside `post_write`. */
  datatype Phase =
    | Idle
    | Granted(items: nat)
    | MirroredUp(posted: nat, data: seq<Byte>)
    | MirroredBoth(posted: nat, data: seq<Byte>)

  datatype Ring = Ring(numItems: nat, itemSize: nat, size: nat, mem: seq<Byte>, writeIndex: nat,
                       totalWritten: nat, readers: seq<Reader>, phase: Phase, stream: seq<Byte>)

  // ----- What the code computes

  function BytesAvailable(w: nat, r: nat, size: nat): int {
    if w < r then w + size - r else w - r
  }

  function MaxAvailable(readers: seq<Reader>, w: nat, size: nat): int {
    if readers == [] then 0
    else
      var rest := MaxAvailable(readers[..|readers| - 1], w, size);
      var n := BytesAvailable(w, readers[|readers| - 1].index, size);
      if n > rest then n else rest
  }

  function SpaceFor(numItems: nat, itemSize: nat, size: nat, maxAvailable: int): nat
    requires itemSize > 0
  {
    var space := (size - maxAvailable) / itemSize - 1;
    var floored := if space < 0 then 0 else space;
    if floored <= numItems / 2 then floored else numItems / 2
  }

  function SpaceAvailable(s: Ring): nat
    requires s.itemSize > 0
  {
    SpaceFor(s.numItems, s.itemSize, s.size, MaxAvailable(s.readers, s.writeIndex, s.size))
  }

  function ItemsAvailable(s: Ring, i: nat): int
    requires i < |s.readers| && s.readers[i].itemSize > 0
  {
    BytesAvailable(s.writeIndex, s.readers[i].index, s.size) / s.readers[i].itemSize
  }

  /** An index moves by less than one lap, so one conditional subtraction is enough. */
  function Advanced(index: nat, bytes: nat, size: nat): nat {
    if index + bytes >= size then index + bytes - size else index + bytes
  }

  // ----- The invariant

  /** `bytes` sit in both halves of the array, from `index` on. */
  ghost predicate Mirrored(mem: seq<Byte>, index: nat, size: nat, bytes: seq<Byte>)
  {
    && index < size && |bytes| <= size && |mem| == 2 * size
    && forall k :: 0 <= k < |bytes| ==>
                     mem[Wrap(index + k, size)] == bytes[k] && mem[Wrap(index + k, size) + size] == bytes[k]
  }

  /** A reader's unread bytes sit in both halves of the array, and never fill the buffer. */
  ghost predicate ReaderOk(s: Ring, rd: Reader)
  {
    && rd.itemSize > 0
    && rd.index < s.size
    && rd.Pos() <= |s.stream|
    && |rd.consumed| == rd.totalRead * rd.itemSize
    && rd.consumed == s.stream[rd.start..rd.Pos()]
    && var unread := |s.stream| - rd.Pos();
       && unread + s.itemSize <= s.size
       && s.writeIndex == Wrap(rd.index + unread, s.size)
       && rd.held * rd.itemSize <= unread
       && Mirrored(s.mem, rd.index, s.size, s.stream[rd.Pos()..])
  }

  /** `bytes` more bytes still leave one item free in front of every reader. */
  ghost predicate Room(s: Ring, bytes: nat) {
    && bytes + s.itemSize <= s.size
    && forall i :: 0 <= i < |s.readers| ==>
                     |s.stream| - s.readers[i].Pos() + bytes + s.itemSize <= s.size
  }

  /** The upper half mirrors the part of `data` that lies below the end of the buffer. */
  ghost predicate UpperHalf(mem: seq<Byte>, w: nat, size: nat, data: seq<Byte>)
  {
    && w < size && |data| <= size && |mem| == 2 * size
    && mem[w..w + |data|] == data
    && forall k :: 0 <= k < |data| && w + k < size ==> mem[w + size + k] == data[k]
  }

  ghost predicate PhaseOk(s: Ring)
  {
    match s.phase
    case Idle => true
    case Granted(items) => Room(s, items * s.itemSize)
    case MirroredUp(posted, data) =>
      |data| == posted * s.itemSize && Room(s, |data|) && UpperHalf(s.mem, s.writeIndex, s.size, data)
    case MirroredBoth(posted, data) =>
      |data| == posted * s.itemSize && Room(s, |data|) && Mirrored(s.mem, s.writeIndex, s.size, data)
  }

  ghost predicate Inv(s: Ring) {
    && s.numItems > 0 && s.itemSize > 0
    && s.size == s.numItems * s.itemSize
    && |s.mem| == 2 * s.size
    && s.writeIndex < s.size
    && |s.stream| == s.totalWritten * s.itemSize
    && (forall i :: 0 <= i < |s.readers| ==> ReaderOk(s, s.readers[i]))
    && PhaseOk(s)
  }

  // ----- Windows

  /** Memory that mirrors `bytes` from `index` on shows them as one contiguous range. */
  lemma MirroredIsContiguous(mem: seq<Byte>, index: nat, size: nat, bytes: seq<Byte>)
    requires Mirrored(mem, index, size, bytes)
    ensures index + |bytes| <= |mem| && mem[index..index + |bytes|] == bytes
  {
    forall k | 0 <= k < |bytes|
      ensures mem[index..index + |bytes|][k] == bytes[k]
    {
      assert mem[Wrap(index + k, size)] == bytes[k];
    }
  }

  lemma AvailableIsUnread(s: Ring, i: nat)
    requires Inv(s) && i < |s.readers|
    ensures ReaderOk(s, s.readers[i])
    ensures BytesAvailable(s.writeIndex, s.readers[i].index, s.size) == |s.stream| - s.readers[i].Pos()
  {
  }

  /** The window `read_info` shows lies inside the array and is the unread part of the stream, cut to
      whole items of the reader's own size. */
  lemma WindowIsStream(s: Ring, i: nat)
    requires Inv(s) && i < |s.readers|
    ensures var rd := s.readers[i];
            var unread := BytesAvailable(s.writeIndex, rd.index, s.size);
            && 0 <= unread
            && rd.index + unread <= |s.mem|
            && s.mem[rd.index..rd.index + unread] == s.stream[rd.Pos()..]
            && rd.itemSize > 0
            && 0 <= ItemsAvailable(s, i)
            && ItemsAvailable(s, i) * rd.itemSize <= unread < (ItemsAvailable(s, i) + 1) * rd.itemSize
  {
    AvailableIsUnread(s, i);
    var rd := s.readers[i];
    MirroredIsContiguous(s.mem, rd.index, s.size, s.stream[rd.Pos()..]);
    DivBounds(BytesAvailable(s.writeIndex, rd.index, s.size), rd.itemSize);
  }

  // ----- The steps

  datatype Event =
    | AskForSpace
    | Fill(offset: nat, value: Byte)
    | MirrorUp(items: nat)
    | MirrorDown
    | Advance
    | Attach(itemSize: nat)
    | AskForItems(reader: nat)
    | PostRead(reader: nat, items: nat)

  /** What the callers are held to: they stay within what they were last granted. */
  ghost predicate Legal(s: Ring, e: Event) {
    match e
    case AskForSpace => s.phase.Idle? || s.phase.Granted?
    case Fill(offset, _) => s.phase.Granted? && offset < s.phase.items * s.itemSize
    case MirrorUp(items) => s.phase.Granted? && items <= s.phase.items
    case MirrorDown => s.phase.MirroredUp?
    case Advance => s.phase.MirroredBoth?
    case Attach(itemSize) => itemSize > 0
    case AskForItems(i) => i < |s.readers|
    case PostRead(i, items) => i < |s.readers| && items <= s.readers[i].held
  }

  ghost function Filled(s: Ring, offset: nat, value: Byte): Ring
    requires s.writeIndex + offset < |s.mem|
  {
    s.(mem := s.mem[s.writeIndex + offset := value])
  }

  /** First half of `post_write`: what was written below the end of the buffer goes to the upper half. */
  function CopiedUpMem(mem: seq<Byte>, w: nat, size: nat, bytes: nat): seq<Byte>
    requires |mem| == 2 * size && w < size && bytes <= size
  {
    Overwrite(mem, w + size, mem[w..w + Min(size - w, bytes)])
  }

  /** Second half of `post_write`: what ran over the end of the buffer goes to its beginning. */
  function CopiedDownMem(mem: seq<Byte>, w: nat, size: nat, bytes: nat): seq<Byte>
    requires |mem| == 2 * size && w < size && bytes <= size
  {
    Overwrite(mem, 0, mem[size..size + (bytes - Min(size - w, bytes))])
  }

  ghost function CopiedUp(s: Ring, items: nat): Ring
    requires |s.mem| == 2 * s.size && s.writeIndex < s.size && items * s.itemSize <= s.size
  {
    var bytes := items * s.itemSize;
    s.(mem := CopiedUpMem(s.mem, s.writeIndex, s.size, bytes),
       phase := MirroredUp(items, s.mem[s.writeIndex..s.writeIndex + bytes]))
  }

  ghost function CopiedDown(s: Ring): Ring
    requires s.phase.MirroredUp? && |s.phase.data| <= s.size
    requires |s.mem| == 2 * s.size && s.writeIndex < s.size
  {
    s.(mem := CopiedDownMem(s.mem, s.writeIndex, s.size, |s.phase.data|),
       phase := MirroredBoth(s.phase.posted, s.phase.data))
  }

  ghost function Posted(s: Ring): Ring
    requires s.phase.MirroredBoth?
  {
    s.(writeIndex := Advanced(s.writeIndex, |s.phase.data|, s.size),
       totalWritten := s.totalWritten + s.phase.posted,
       stream := s.stream + s.phase.data,
       phase := Idle)
  }

  /** `post_read`; the bytes that count as consumed are those the memory holds at that moment. */
  ghost function Consumed(s: Ring, rd: Reader, items: nat): Reader
    requires items <= rd.held && rd.index + items * rd.itemSize <= |s.mem|
  {
    var bytes := items * rd.itemSize;
    rd.(index := Advanced(rd.index, bytes, s.size),
        totalRead := rd.totalRead + items,
        consumed := rd.consumed + s.mem[rd.index..rd.index + bytes],
        held := rd.held - items)
  }

  lemma MirrorUpInBounds(s: Ring, items: nat)
    requires Inv(s) && Legal(s, MirrorUp(items))
    ensures items * s.itemSize <= s.phase.items * s.itemSize && items * s.itemSize <= s.size
  {
    MulMono(items, s.phase.items, s.itemSize);
  }

  lemma AskForItemsInBounds(s: Ring, i: nat)
    requires Inv(s) && i < |s.readers|
    ensures s.readers[i].itemSize > 0 && ItemsAvailable(s, i) >= 0
  {
    WindowIsStream(s, i);
  }

  lemma PostReadInBounds(s: Ring, i: nat, items: nat)
    requires Inv(s) && Legal(s, PostRead(i, items))
    ensures var rd := s.readers[i]; rd.index + items * rd.itemSize <= |s.mem|
  {
    assert ReaderOk(s, s.readers[i]);
    MulMono(items, s.readers[i].held, s.readers[i].itemSize);
  }

  /** A legal step stays inside the array. */
  lemma StepInBounds(s: Ring, e: Event)
    requires Inv(s) && Legal(s, e)
    ensures e.Fill? ==> s.writeIndex + e.offset < |s.mem|
    ensures e.MirrorUp? ==> e.items * s.itemSize <= s.size
    ensures e.MirrorDown? ==> |s.phase.data| <= s.size
    ensures e.AskForItems? ==> s.readers[e.reader].itemSize > 0 && ItemsAvailable(s, e.reader) >= 0
    ensures e.PostRead? ==> var rd := s.readers[e.reader];
                            rd.index + e.items * rd.itemSize <= |s.mem|
  {
    match e
    case MirrorUp(items) => MirrorUpInBounds(s, items);
    case AskForItems(i) => AskForItemsInBounds(s, i);
    case PostRead(i, items) => PostReadInBounds(s, i, items);
    case _ =>
  }

  ghost function AfterMirrorUp(s: Ring, items: nat): Ring
    requires Inv(s) && Legal(s, MirrorUp(items))
  {
    MirrorUpInBounds(s, items);
    CopiedUp(s, items)
  }

  ghost function AfterAskForItems(s: Ring, i: nat): Ring
    requires Inv(s) && Legal(s, AskForItems(i))
  {
    AskForItemsInBounds(s, i);
    s.(readers := s.readers[i := s.readers[i].(held := ItemsAvailable(s, i))])
  }

  ghost function AfterPostRead(s: Ring, i: nat, items: nat): Ring
    requires Inv(s) && Legal(s, PostRead(i, items))
  {
    PostReadInBounds(s, i, items);
    s.(readers := s.readers[i := Consumed(s, s.readers[i], items)])
  }

  ghost function Apply(s: Ring, e: Event): Ring
    requires Inv(s) && Legal(s, e)
  {
    match e
    case AskForSpace => s.(phase := Granted(SpaceAvailable(s)))
    case Fill(offset, value) => Filled(s, offset, value)
    case MirrorUp(items) => AfterMirrorUp(s, items)
    case MirrorDown => CopiedDown(s)
    case Advance => Posted(s)
    case Attach(itemSize) =>
      s.(readers := s.readers + [Reader(itemSize, s.writeIndex, 0, |s.stream|, [], 0)])
    case AskForItems(i) => AfterAskForItems(s, i)
    case PostRead(i, items) => AfterPostRead(s, i, items)
  }

  // ----- Every step keeps the invariant

  lemma MirroredAppend(mem: seq<Byte>, index: nat, size: nat, a: seq<Byte>, b: seq<Byte>)
    requires Mirrored(mem, index, size, a)
    requires |a| + |b| <= size && |a| < size
    requires Mirrored(mem, Wrap(index + |a|, size), size, b)
    ensures Mirrored(mem, index, size, a + b)
  {
    forall k | 0 <= k < |a + b|
      ensures mem[Wrap(index + k, size)] == (a + b)[k] && mem[Wrap(index + k, size) + size] == (a + b)[k]
    {
      if k < |a| {
        assert mem[Wrap(index + k, size)] == a[k];
      } else {
        var w := Wrap(index + |a|, size);
        assert mem[Wrap(w + (k - |a|), size)] == b[k - |a|];
        assert Wrap(w + (k - |a|), size) == Wrap(index + k, size);
      }
    }
  }

  lemma MirroredDrop(mem: seq<Byte>, index: nat, size: nat, bytes: seq<Byte>, n: nat)
    requires Mirrored(mem, index, size, bytes) && n <= |bytes|
    ensures n < size ==> Mirrored(mem, Advanced(index, n, size), size, bytes[n..])
  {
    if n < size {
      var at := Advanced(index, n, size);
      forall k | 0 <= k < |bytes| - n
        ensures mem[Wrap(at + k, size)] == bytes[n..][k] && mem[Wrap(at + k, size) + size] == bytes[n..][k]
      {
        assert mem[Wrap(index + (n + k), size)] == bytes[n + k];
        assert Wrap(at + k, size) == Wrap(index + (n + k), size);
      }
    }
  }

  /** Position `j` of the array is, or mirrors, one of the `room` cells from `w` on. */
  predicate InRegion(j: nat, w: nat, room: nat, size: nat)
    requires j < 2 * size
  {
    var cell := Wrap(j, size);
    if w <= cell then cell - w < room else cell + size - w < room
  }

  ghost predicate ChangedOnly(mem: seq<Byte>, mem': seq<Byte>, w: nat, room: nat, size: nat) {
    && |mem| == |mem'| == 2 * size
    && forall j :: 0 <= j < 2 * size && !InRegion(j, w, room, size) ==> mem'[j] == mem[j]
  }

  /** Whatever is written into the granted region, no unread byte changes in either half. */
  lemma WritingKeepsUnread(mem: seq<Byte>, mem': seq<Byte>, index: nat, size: nat, bytes: seq<Byte>,
                           w: nat, room: nat)
    requires Mirrored(mem, index, size, bytes)
    requires |bytes| + room <= size && |bytes| < size && w == Wrap(index + |bytes|, size)
    requires ChangedOnly(mem, mem', w, room, size)
    ensures Mirrored(mem', index, size, bytes)
  {
    forall k | 0 <= k < |bytes|
      ensures mem'[Wrap(index + k, size)] == bytes[k] && mem'[Wrap(index + k, size) + size] == bytes[k]
    {
      var cell := Wrap(index + k, size);
      assert mem[cell] == bytes[k];
      assert !InRegion(cell, w, room, size) && !InRegion(cell + size, w, room, size);
    }
  }

  lemma WritingKeepsReaders(s: Ring, t: Ring, room: nat)
    requires Inv(s) && Room(s, room)
    requires t == s.(mem := t.mem, phase := t.phase)
    requires ChangedOnly(s.mem, t.mem, s.writeIndex, room, s.size)
    ensures forall i :: 0 <= i < |t.readers| ==> ReaderOk(t, t.readers[i])
  {
    forall i | 0 <= i < |t.readers|
      ensures ReaderOk(t, t.readers[i])
    {
      var rd := s.readers[i];
      assert ReaderOk(s, rd);
      WritingKeepsUnread(s.mem, t.mem, rd.index, s.size, s.stream[rd.Pos()..], s.writeIndex, room);
    }
  }

  lemma {:induction false} MaxAvailableBounds(readers: seq<Reader>, w: nat, size: nat)
    ensures 0 <= MaxAvailable(readers, w, size)
    ensures forall i :: 0 <= i < |readers| ==>
                          BytesAvailable(w, readers[i].index, size) <= MaxAvailable(readers, w, size)
    ensures readers == [] || MaxAvailable(readers, w, size) == 0
            || exists i :: 0 <= i < |readers|
                           && MaxAvailable(readers, w, size) == BytesAvailable(w, readers[i].index, size)
  {
    if readers != [] {
      MaxAvailableBounds(readers[..|readers| - 1], w, size);
    }
  }

  /** The grant fits with one item to spare, and only the half-full cap makes it smaller than that. */
  lemma GrantInBytes(numItems: nat, itemSize: nat, size: nat, most: nat)
    requires itemSize > 0 && numItems > 0 && size == numItems * itemSize && most + itemSize <= size
    ensures var granted := SpaceFor(numItems, itemSize, size, most);
            && granted * itemSize + most + itemSize <= size
            && (granted == numItems / 2 || size < (granted + 1) * itemSize + most + itemSize)
  {
    var space := (size - most) / itemSize - 1;
    DivBounds(size - most, itemSize);
    PositiveQuotient(size - most, itemSize);
    MulMono(SpaceFor(numItems, itemSize, size, most), space, itemSize);
    MulSplit(space, 1, itemSize);
    MulSplit(space + 1, 1, itemSize);
  }

  /** What `write_info` grants leaves one item free in front of the slowest reader. */
  lemma GrantLeavesRoom(s: Ring)
    requires Inv(s)
    ensures Room(s, SpaceAvailable(s) * s.itemSize)
  {
    var most := MaxAvailable(s.readers, s.writeIndex, s.size);
    MaxAvailableBounds(s.readers, s.writeIndex, s.size);
    forall i | 0 <= i < |s.readers|
      ensures |s.stream| - s.readers[i].Pos() <= most && |s.stream| - s.readers[i].Pos() + s.itemSize <= s.size
    {
      AvailableIsUnread(s, i);
    }
    assert most + s.itemSize <= s.size by {
      MulMono(1, s.numItems, s.itemSize);
    }
    GrantInBytes(s.numItems, s.itemSize, s.size, most);
  }

  lemma FillKeepsInv(s: Ring, offset: nat, value: Byte)
    requires Inv(s) && Legal(s, Fill(offset, value))
    ensures s.writeIndex + offset < |s.mem| && Inv(Filled(s, offset, value))
  {
    var t := Filled(s, offset, value);
    var room := s.phase.items * s.itemSize;
    assert ChangedOnly(s.mem, t.mem, s.writeIndex, room, s.size);
    WritingKeepsReaders(s, t, room);
  }

  lemma RoomMono(s: Ring, small: nat, large: nat)
    requires Room(s, large) && small <= large
    ensures Room(s, small)
  {
  }

  lemma MirrorUpKeepsInv(s: Ring, items: nat)
    requires Inv(s) && Legal(s, MirrorUp(items))
    ensures items * s.itemSize <= s.size && Inv(CopiedUp(s, items))
  {
    MirrorUpInBounds(s, items);
    var t := CopiedUp(s, items);
    var bytes := items * s.itemSize;
    RoomMono(s, bytes, s.phase.items * s.itemSize);
    CopyUpFillsUpperHalf(s.mem, t.mem, s.writeIndex, s.size, bytes);
    WritingKeepsReaders(s, t, bytes);
    MirroredUpIsOk(s, t, items, bytes);
  }

  lemma MirroredUpIsOk(s: Ring, t: Ring, items: nat, bytes: nat)
    requires Inv(s) && Room(s, bytes) && bytes == items * s.itemSize
    requires t == s.(mem := t.mem, phase := MirroredUp(items, s.mem[s.writeIndex..s.writeIndex + bytes]))
    requires UpperHalf(t.mem, s.writeIndex, s.size, s.mem[s.writeIndex..s.writeIndex + bytes])
    requires forall i :: 0 <= i < |t.readers| ==> ReaderOk(t, t.readers[i])
    ensures Inv(t)
  {
    RoomIgnoresMemory(s, t, bytes);
  }

  /** The three steps together. */
  lemma PostedStream(s: Ring, items: nat)
    requires Inv(s) && Legal(s, MirrorUp(items))
    ensures items * s.itemSize <= s.size
    ensures var t := Posted(CopiedDown(CopiedUp(s, items)));
            && t.stream == s.stream + s.mem[s.writeIndex..s.writeIndex + items * s.itemSize]
            && t.readers == s.readers && t.phase.Idle? && t.totalWritten == s.totalWritten + items
  {
    MirrorUpInBounds(s, items);
  }

  lemma RoomIgnoresMemory(s: Ring, t: Ring, bytes: nat)
    requires Room(s, bytes) && t == s.(mem := t.mem, phase := t.phase)
    ensures Room(t, bytes)
  {
  }

  lemma CopyUpFillsUpperHalf(mem: seq<Byte>, mem': seq<Byte>, w: nat, size: nat, bytes: nat)
    requires |mem| == 2 * size && w < size && bytes <= size
    requires mem' == CopiedUpMem(mem, w, size, bytes)
    ensures UpperHalf(mem', w, size, mem[w..w + bytes])
    ensures ChangedOnly(mem, mem', w, bytes, size)
  {
    var data := mem[w..w + bytes];
    var up := mem[w..w + Min(size - w, bytes)];
    assert mem'[w..w + bytes] == data by {
      assert forall j :: w <= j < w + bytes ==> mem'[j] == mem[j];
    }
    forall k | 0 <= k < bytes && w + k < size ensures mem'[w + size + k] == data[k] {
      assert mem'[w + size + k] == up[k];
    }
  }

  /** What the two copies do to single bytes. */
  predicate ShiftedDown(mem: seq<Byte>, mem': seq<Byte>, size: nat, down: nat) {
    && |mem| == |mem'| == 2 * size && down <= size
    && forall j :: 0 <= j < 2 * size ==> mem'[j] == if j < down then mem[j + size] else mem[j]
  }

  lemma CopyDownShifts(mem: seq<Byte>, mem': seq<Byte>, size: nat, down: nat)
    requires |mem| == 2 * size && down <= size && mem' == Overwrite(mem, 0, mem[size..size + down])
    ensures ShiftedDown(mem, mem', size, down)
  {
  }

  lemma CopyDownMirrorsAll(mem: seq<Byte>, mem': seq<Byte>, w: nat, size: nat, data: seq<Byte>, down: nat)
    requires UpperHalf(mem, w, size, data) && |data| < size
    requires down == |data| - Min(size - w, |data|) && mem' == Overwrite(mem, 0, mem[size..size + down])
    ensures Mirrored(mem', w, size, data)
  {
    CopyDownShifts(mem, mem', size, down);
    forall k | 0 <= k < |data|
      ensures mem'[Wrap(w + k, size)] == data[k] && mem'[Wrap(w + k, size) + size] == data[k]
    {
      CopyDownMirrorsOne(mem, mem', w, size, data, k, down);
    }
  }

  lemma CopyDownMirrorsOne(mem: seq<Byte>, mem': seq<Byte>, w: nat, size: nat, data: seq<Byte>, k: nat, down: nat)
    requires UpperHalf(mem, w, size, data) && k < |data| < size
    requires down == |data| - Min(size - w, |data|) && ShiftedDown(mem, mem', size, down)
    ensures mem'[Wrap(w + k, size)] == data[k] && mem'[Wrap(w + k, size) + size] == data[k]
  {
    assert data[k] == mem[w..w + |data|][k] == mem[w + k];
    if w + k < size {
      assert mem[w + size + k] == data[k];
      ShiftedAt(mem, mem', size, down, w + k);
      ShiftedAt(mem, mem', size, down, w + k + size);
    } else {
      ShiftedAt(mem, mem', size, down, w + k - size);
      ShiftedAt(mem, mem', size, down, w + k);
    }
  }

  lemma ShiftedAt(mem: seq<Byte>, mem': seq<Byte>, size: nat, down: nat, j: nat)
    requires ShiftedDown(mem, mem', size, down) && j < 2 * size
    ensures mem'[j] == if j < down then mem[j + size] else mem[j]
  {
  }

  lemma MirrorDownKeepsInv(s: Ring)
    requires Inv(s) && s.phase.MirroredUp?
    ensures |s.phase.data| <= s.size && Inv(CopiedDown(s))
  {
    var t := CopiedDown(s);
    assert ChangedOnly(s.mem, t.mem, s.writeIndex, |s.phase.data|, s.size);
    WritingKeepsReaders(s, t, |s.phase.data|);
    CopyDownMirrorsAll(s.mem, t.mem, s.writeIndex, s.size, s.phase.data,
                       |s.phase.data| - Min(s.size - s.writeIndex, |s.phase.data|));
  }

  lemma SliceExtends(stream: seq<Byte>, data: seq<Byte>, pos: nat)
    requires pos <= |stream|
    ensures (stream + data)[pos..] == stream[pos..] + data
  {
  }

  lemma AdvanceKeepsReader(s: Ring, i: nat)
    requires Inv(s) && s.phase.MirroredBoth? && i < |s.readers|
    ensures ReaderOk(Posted(s), s.readers[i])
  {
    var rd, data := s.readers[i], s.phase.data;
    assert ReaderOk(s, rd);
    SliceExtends(s.stream, data, rd.Pos());
    MirroredAppend(s.mem, rd.index, s.size, s.stream[rd.Pos()..], data);
    assert (s.stream + data)[rd.start..rd.Pos()] == s.stream[rd.start..rd.Pos()];
  }

  lemma AdvanceKeepsInv(s: Ring)
    requires Inv(s) && s.phase.MirroredBoth?
    ensures Inv(Posted(s))
  {
    var t := Posted(s);
    forall i | 0 <= i < |t.readers|
      ensures ReaderOk(t, t.readers[i])
    {
      AdvanceKeepsReader(s, i);
    }
    assert t.totalWritten * s.itemSize == s.totalWritten * s.itemSize + s.phase.posted * s.itemSize;
  }

  lemma ConsumeReadsStream(s: Ring, rd: Reader, bytes: nat)
    requires ReaderOk(s, rd) && bytes <= |s.stream| - rd.Pos() && bytes < s.size && s.itemSize > 0
    requires |s.mem| == 2 * s.size
    ensures rd.index + bytes <= |s.mem|
    ensures s.mem[rd.index..rd.index + bytes] == s.stream[rd.Pos()..rd.Pos() + bytes]
    ensures Mirrored(s.mem, Advanced(rd.index, bytes, s.size), s.size, s.stream[rd.Pos() + bytes..])
  {
    var unread := s.stream[rd.Pos()..];
    MirroredIsContiguous(s.mem, rd.index, s.size, unread);
    MirroredDrop(s.mem, rd.index, s.size, unread, bytes);
    assert s.mem[rd.index..rd.index + bytes] == unread[..bytes] == s.stream[rd.Pos()..rd.Pos() + bytes];
    assert unread[bytes..] == s.stream[rd.Pos() + bytes..];
  }

  lemma ConsumeKeepsReader(s: Ring, rd: Reader, items: nat, bytes: nat)
    requires Inv(s) && ReaderOk(s, rd) && items <= rd.held && bytes == items * rd.itemSize
    requires rd.index + bytes <= |s.mem|
    ensures bytes <= |s.stream| - rd.Pos() && ReaderOk(s, Consumed(s, rd, items))
    ensures Consumed(s, rd, items).consumed == rd.consumed + s.stream[rd.Pos()..rd.Pos() + bytes]
  {
    ConsumedCounts(rd.totalRead, rd.held, items, rd.itemSize);
    ConsumedPlace(rd.index, |s.stream| - rd.Pos(), bytes, s.size, s.writeIndex);
    ConsumeReadsStream(s, rd, bytes);
    StreamPrefixGrows(s.stream, rd.start, rd.Pos(), bytes);
    ConsumedIsOk(s, rd, Consumed(s, rd, items), bytes);
  }

  lemma ConsumedPlace(index: nat, unread: nat, bytes: nat, size: nat, w: nat)
    requires index < size && bytes <= unread < size && w == Wrap(index + unread, size)
    ensures Advanced(index, bytes, size) < size && w == Wrap(Advanced(index, bytes, size) + (unread - bytes), size)
  {
  }

  /** The reader after `bytes` more bytes, part by part. */
  lemma ConsumedIsOk(s: Ring, rd: Reader, rd': Reader, bytes: nat)
    requires ReaderOk(s, rd) && rd.Pos() + bytes <= |s.stream|
    requires rd'.itemSize == rd.itemSize && rd'.start == rd.start && rd'.index < s.size
    requires rd'.consumed == s.stream[rd.start..rd.Pos() + bytes]
    requires |rd.consumed| + bytes == rd'.totalRead * rd.itemSize
    requires rd'.held * rd.itemSize + bytes == rd.held * rd.itemSize
    requires s.writeIndex == Wrap(rd'.index + (|s.stream| - rd.Pos() - bytes), s.size)
    requires Mirrored(s.mem, rd'.index, s.size, s.stream[rd.Pos() + bytes..])
    ensures ReaderOk(s, rd')
  {
    assert rd'.Pos() == rd.Pos() + bytes;
  }

  lemma ConsumedCounts(total: nat, held: nat, items: nat, size: nat)
    requires items <= held
    ensures (total + items) * size == total * size + items * size
    ensures (held - items) * size + items * size == held * size
  {
    MulSplit(total, items, size);
    MulSplit(held - items, items, size);
  }

  lemma StreamPrefixGrows(stream: seq<Byte>, start: nat, pos: nat, n: nat)
    requires start <= pos && pos + n <= |stream|
    ensures stream[start..pos] + stream[pos..pos + n] == stream[start..pos + n]
  {
  }

  /** Readers do not depend on each other: one that is replaced or added, and is good by itself and no
      further behind than the one it replaces, keeps the invariant. */
  lemma ReplaceReader(s: Ring, i: nat, rd: Reader)
    requires Inv(s) && i < |s.readers| && ReaderOk(s, rd) && s.readers[i].Pos() <= rd.Pos()
    ensures Inv(s.(readers := s.readers[i := rd]))
  {
    var t := s.(readers := s.readers[i := rd]);
    assert forall r :: ReaderOk(s, r) ==> ReaderOk(t, r);
    assert forall bytes: nat :: Room(s, bytes) ==> Room(t, bytes);
  }

  lemma AddReader(s: Ring, rd: Reader)
    requires Inv(s) && ReaderOk(s, rd) && rd.Pos() == |s.stream|
    ensures Inv(s.(readers := s.readers + [rd]))
  {
    var t := s.(readers := s.readers + [rd]);
    assert forall r :: ReaderOk(s, r) ==> ReaderOk(t, r);
    assert forall bytes: nat :: Room(s, bytes) ==> Room(t, bytes);
  }

  lemma AttachKeepsInv(s: Ring, itemSize: nat)
    requires Inv(s) && itemSize > 0
    ensures Inv(Apply(s, Attach(itemSize)))
  {
    MulMono(1, s.numItems, s.itemSize);
    AddReader(s, Reader(itemSize, s.writeIndex, 0, |s.stream|, [], 0));
  }

  lemma AskForItemsKeepsInv(s: Ring, i: nat)
    requires Inv(s) && i < |s.readers|
    ensures Inv(Apply(s, AskForItems(i)))
  {
    WindowIsStream(s, i);
    AvailableIsUnread(s, i);
    ReplaceReader(s, i, s.readers[i].(held := ItemsAvailable(s, i)));
  }

  lemma PostReadKeepsInv(s: Ring, i: nat, items: nat)
    requires Inv(s) && Legal(s, PostRead(i, items))
    ensures Inv(Apply(s, PostRead(i, items)))
  {
    PostReadInBounds(s, i, items);
    var rd := s.readers[i];
    AvailableIsUnread(s, i);
    ConsumeKeepsReader(s, rd, items, items * rd.itemSize);
    ReplaceReader(s, i, Consumed(s, rd, items));
  }

  lemma AskForSpaceKeepsInv(s: Ring)
    requires Inv(s)
    ensures Inv(s.(phase := Granted(SpaceAvailable(s))))
  {
    GrantLeavesRoom(s);
    var t := s.(phase := Granted(SpaceAvailable(s)));
    assert forall i :: 0 <= i < |s.readers| && ReaderOk(s, s.readers[i]) ==> ReaderOk(t, t.readers[i]);
    assert forall bytes: nat :: Room(s, bytes) ==> Room(t, bytes);
  }

  lemma StepKeepsInv(s: Ring, e: Event)
    requires Inv(s) && Legal(s, e)
    ensures Inv(Apply(s, e))
  {
    match e
    case AskForSpace => AskForSpaceKeepsInv(s);
    case Fill(offset, value) => FillKeepsInv(s, offset, value);
    case MirrorUp(items) => MirrorUpKeepsInv(s, items);
    case MirrorDown => MirrorDownKeepsInv(s);
    case Advance => AdvanceKeepsInv(s);
    case Attach(itemSize) => AttachKeepsInv(s, itemSize);
    case AskForItems(i) => AskForItemsKeepsInv(s, i);
    case PostRead(i, items) => PostReadKeepsInv(s, i, items);
  }

  // ----- Every run

  ghost predicate Run(s: Ring, events: seq<Event>, t: Ring)
    requires Inv(s)
    decreases |events|
  {
    if events == [] then t == s
    else
      && Legal(s, events[0])
      && (StepKeepsInv(s, events[0]); Run(Apply(s, events[0]), events[1..], t))
  }

  /** A new buffer; the array's contents are whatever the allocation left there. */
  ghost function Start(numItems: nat, itemSize: nat, mem: seq<Byte>): Ring {
    Ring(numItems, itemSize, numItems * itemSize, mem, 0, 0, [], Idle, [])
  }

  lemma StartIsGood(numItems: nat, itemSize: nat, mem: seq<Byte>)
    requires numItems > 0 && itemSize > 0 && |mem| == 2 * (numItems * itemSize)
    ensures Inv(Start(numItems, itemSize, mem))
  {
    MulMono(1, numItems, itemSize);
  }

  lemma {:induction false} RunKeepsInv(s: Ring, events: seq<Event>, t: Ring)
    requires Inv(s) && Run(s, events, t)
    ensures Inv(t)
    decreases |events|
  {
    if events != [] {
      StepKeepsInv(s, events[0]);
      RunKeepsInv(Apply(s, events[0]), events[1..], t);
    }
  }

  /** The buffer is a broadcast FIFO. After any interleaving of producer and reader steps, what a reader
      has consumed followed by the window it would be shown now is exactly what was posted since it
      was attached: nothing lost, repeated or reordered, whatever the other readers do. */
  lemma BroadcastFifo(numItems: nat, itemSize: nat, mem: seq<Byte>, events: seq<Event>, t: Ring, i: nat)
    requires numItems > 0 && itemSize > 0 && |mem| == 2 * (numItems * itemSize)
    requires (StartIsGood(numItems, itemSize, mem); Run(Start(numItems, itemSize, mem), events, t))
    requires i < |t.readers|
    ensures var rd := t.readers[i];
            var window := BytesAvailable(t.writeIndex, rd.index, t.size);
            && 0 <= window && rd.index + window <= |t.mem|
            && rd.start <= |t.stream|
            && rd.consumed + t.mem[rd.index..rd.index + window] == t.stream[rd.start..]
            && |t.stream| == t.totalWritten * t.itemSize
            && |rd.consumed| == rd.totalRead * rd.itemSize
  {
    StartIsGood(numItems, itemSize, mem);
    RunKeepsInv(Start(numItems, itemSize, mem), events, t);
    WindowIsStream(t, i);
    AvailableIsUnread(t, i);
    var rd := t.readers[i];
    assert t.stream[rd.start..] == t.stream[rd.start..rd.Pos()] + t.stream[rd.Pos()..];
  }

  /** The part of the array that a reader was shown and has not yet given back. */
  ghost function Held(s: Ring, i: nat): seq<Byte>
    requires Inv(s) && i < |s.readers|
  {
    HeldIsStream(s, i);
    var rd := s.readers[i];
    s.mem[rd.index..rd.index + rd.held * rd.itemSize]
  }

  lemma HeldIsStream(s: Ring, i: nat)
    requires Inv(s) && i < |s.readers|
    ensures var rd := s.readers[i];
            var bytes := rd.held * rd.itemSize;
            && rd.index + bytes <= |s.mem| && rd.Pos() + bytes <= |s.stream|
            && s.mem[rd.index..rd.index + bytes] == s.stream[rd.Pos()..rd.Pos() + bytes]
  {
    AvailableIsUnread(s, i);
    var rd := s.readers[i];
    ConsumeReadsStream(s, rd, rd.held * rd.itemSize);
  }

  ghost predicate Concerns(e: Event, i: nat) {
    match e
    case AskForItems(j) => i == j
    case PostRead(j, _) => i == j
    case _ => false
  }

  lemma StreamOnlyGrows(s: Ring, e: Event, i: nat)
    requires Inv(s) && Legal(s, e) && i < |s.readers| && !Concerns(e, i)
    ensures s.stream <= Apply(s, e).stream
    ensures i < |Apply(s, e).readers| && Apply(s, e).readers[i] == s.readers[i]
  {
  }

  /** What a reader holds depends on its own place and on the stream before its end only. */
  lemma HeldFollowsStream(s: Ring, t: Ring, i: nat)
    requires Inv(s) && Inv(t) && i < |s.readers| && i < |t.readers| && t.readers[i] == s.readers[i]
    requires s.stream <= t.stream
    ensures Held(t, i) == Held(s, i)
  {
    var rd := s.readers[i];
    HeldIs(s, rd, i);
    HeldIs(t, rd, i);
    PrefixSlice(s.stream, t.stream, rd.Pos(), rd.Pos() + rd.held * rd.itemSize);
  }

  lemma HeldIs(s: Ring, rd: Reader, i: nat)
    requires Inv(s) && i < |s.readers| && rd == s.readers[i]
    ensures rd.Pos() + rd.held * rd.itemSize <= |s.stream|
    ensures Held(s, i) == s.stream[rd.Pos()..rd.Pos() + rd.held * rd.itemSize]
  {
    HeldIsStream(s, i);
  }

  /** A window stays valid until its own reader moves: no step of the producer or of another reader
      changes its place or its contents. */
  lemma {:induction false} HeldWindowIsStable(s: Ring, events: seq<Event>, t: Ring, i: nat)
    requires Inv(s) && Run(s, events, t) && i < |s.readers|
    requires forall k :: 0 <= k < |events| ==> !Concerns(events[k], i)
    ensures Inv(t) && i < |t.readers| && t.readers[i] == s.readers[i] && Held(t, i) == Held(s, i)
    decreases |events|
  {
    RunKeepsInv(s, events, t);
    if events != [] {
      StepKeepsInv(s, events[0]);
      StepKeepsHeldWindow(s, events[0], i);
      assert forall k :: 0 <= k < |events| - 1 ==> events[1..][k] == events[k + 1];
      HeldWindowIsStable(Apply(s, events[0]), events[1..], t, i);
    }
  }

  lemma StepKeepsHeldWindow(s: Ring, e: Event, i: nat)
    requires Inv(s) && Legal(s, e) && i < |s.readers| && !Concerns(e, i)
    ensures var t := Apply(s, e);
            Inv(t) && i < |t.readers| && t.readers[i] == s.readers[i] && Held(t, i) == Held(s, i)
  {
    StepKeepsInv(s, e);
    StreamOnlyGrows(s, e, i);
    HeldFollowsStream(s, Apply(s, e), i);
  }

  /** With two items or more the buffer cannot block both sides: no space means that some reader has
      bytes to read. With one item it is blocked from the start. */
  lemma NeverBlocksBoth(s: Ring)
    requires Inv(s)
    ensures s.numItems >= 2 ==>
              SpaceAvailable(s) > 0
              || exists i :: 0 <= i < |s.readers| && BytesAvailable(s.writeIndex, s.readers[i].index, s.size) > 0
    ensures s.numItems == 1 ==> SpaceAvailable(s) == 0
  {
    var most := MaxAvailable(s.readers, s.writeIndex, s.size);
    MaxAvailableBounds(s.readers, s.writeIndex, s.size);
    if s.numItems >= 2 && most == 0 {
      MulMono(2, s.numItems, s.itemSize);
      GrantInBytes(s.numItems, s.itemSize, s.size, 0);
    }
  }

  // ----- Whole items

  /** All readers have the buffer's item size and started on an item boundary. */
  ghost predicate SharedSize(s: Ring) {
    forall i :: 0 <= i < |s.readers| ==>
                  s.readers[i].itemSize == s.itemSize && Aligned(s.readers[i].start, s.itemSize)
  }

  ghost predicate AttachesShared(events: seq<Event>, itemSize: nat) {
    forall k :: 0 <= k < |events| && events[k].Attach? ==> events[k].itemSize == itemSize
  }

  lemma StepKeepsSharedSize(s: Ring, e: Event)
    requires Inv(s) && Legal(s, e) && SharedSize(s) && (e.Attach? ==> e.itemSize == s.itemSize)
    ensures SharedSize(Apply(s, e)) && Apply(s, e).itemSize == s.itemSize && Apply(s, e).numItems == s.numItems
  {
    if e.Attach? {
      WholeIsAligned(s.totalWritten, s.itemSize);
    }
  }

  lemma {:induction false} RunKeepsSharedSize(s: Ring, events: seq<Event>, t: Ring)
    requires Inv(s) && Run(s, events, t) && SharedSize(s) && AttachesShared(events, s.itemSize)
    ensures Inv(t) && SharedSize(t) && t.numItems == s.numItems
    decreases |events|
  {
    if events != [] {
      StepKeepsInv(s, events[0]);
      StepKeepsSharedSize(s, events[0]);
      assert forall k :: 0 <= k < |events| - 1 ==> events[1..][k] == events[k + 1];
      RunKeepsSharedSize(Apply(s, events[0]), events[1..], t);
    }
  }

  lemma AvailableItems(s: Ring, i: nat)
    requires Inv(s) && SharedSize(s) && i < |s.readers|
    requires BytesAvailable(s.writeIndex, s.readers[i].index, s.size) > 0
    ensures s.readers[i].itemSize > 0 && ItemsAvailable(s, i) > 0
  {
    AvailableIsUnread(s, i);
    var rd := s.readers[i];
    WholeIsAligned(s.totalWritten, s.itemSize);
    WholeIsAligned(rd.totalRead, s.itemSize);
    AlignedSum(rd.start, |rd.consumed|, s.itemSize);
    AlignedDifference(|s.stream|, rd.Pos(), s.itemSize);
    AlignedPositive(|s.stream| - rd.Pos(), s.itemSize);
  }

  /** In every state reached with readers of the buffer's item size, from two items on: either the
      producer has space for an item or some reader has a whole item to read. */
  lemma RunNeverBlocksBoth(numItems: nat, itemSize: nat, mem: seq<Byte>, events: seq<Event>, t: Ring)
    requires numItems >= 2 && itemSize > 0 && |mem| == 2 * (numItems * itemSize)
    requires (StartIsGood(numItems, itemSize, mem); Run(Start(numItems, itemSize, mem), events, t))
    requires AttachesShared(events, itemSize)
    ensures Inv(t)
    ensures SpaceAvailable(t) > 0
            || exists i :: 0 <= i < |t.readers| && t.readers[i].itemSize > 0 && ItemsAvailable(t, i) > 0
  {
    StartIsGood(numItems, itemSize, mem);
    RunKeepsSharedSize(Start(numItems, itemSize, mem), events, t);
    NeverBlocksBoth(t);
    if SpaceAvailable(t) == 0 {
      var i :| 0 <= i < |t.readers| && BytesAvailable(t.writeIndex, t.readers[i].index, t.size) > 0;
      AvailableItems(t, i);
    }
  }

  // ----- What the steps do to what is written and read

  /** `most` is what the slowest reader still has to read. */
  ghost predicate MostUnread(s: Ring, most: nat) {
    && (forall i :: 0 <= i < |s.readers| ==> |s.stream| - s.readers[i].Pos() <= most)
    && (most == 0 || exists i :: 0 <= i < |s.readers| && |s.stream| - s.readers[i].Pos() == most)
  }

  /** There is exactly one such number. */
  lemma MostUnreadIs(s: Ring) returns (most: nat)
    requires Inv(s)
    ensures MostUnread(s, most) && forall m: nat :: MostUnread(s, m) ==> m == most
  {
    var w, size := s.writeIndex, s.size;
    MaxAvailableBounds(s.readers, w, size);
    forall i | 0 <= i < |s.readers|
      ensures BytesAvailable(w, s.readers[i].index, size) == |s.stream| - s.readers[i].Pos()
    {
      AvailableIsUnread(s, i);
    }
    most := MaxAvailable(s.readers, w, size);
  }

  /** A number of items is granted exactly if it is at most half the buffer, and leaves one item free in front
      of the slowest reader; so the grant is the largest such number. */
  lemma GrantIsLargest(s: Ring, most: nat, items: nat)
    requires Inv(s) && MostUnread(s, most)
    ensures items <= SpaceAvailable(s)
       <==> items <= s.numItems / 2 && items * s.itemSize + most + s.itemSize <= s.size
  {
    var w, size := s.writeIndex, s.size;
    MaxAvailableBounds(s.readers, w, size);
    forall i | 0 <= i < |s.readers|
      ensures BytesAvailable(w, s.readers[i].index, size) == |s.stream| - s.readers[i].Pos() <= size - s.itemSize
    {
      AvailableIsUnread(s, i);
    }
    assert MaxAvailable(s.readers, w, size) == most;
    MulMono(1, s.numItems, s.itemSize);
    SpaceForIff(s.numItems, s.itemSize, size, most, items);
  }

  /** At most half the buffer, with one item free in front of a reader that has `most` bytes to read. */
  predicate Grantable(s: Ring, most: nat, items: nat) {
    items <= s.numItems / 2 && items * s.itemSize + most + s.itemSize <= s.size
  }

  ghost predicate LargestGrant(s: Ring, items: nat) {
    forall most: nat :: MostUnread(s, most) ==>
                          Grantable(s, most, items) && forall n: nat :: Grantable(s, most, n) ==> n <= items
  }

  lemma GrantIfInv(s: Ring)
    requires s.itemSize > 0
    ensures Inv(s) ==> LargestGrant(s, SpaceAvailable(s))
  {
    if Inv(s) {
      forall most: nat | MostUnread(s, most)
        ensures Grantable(s, most, SpaceAvailable(s))
        ensures forall n: nat :: Grantable(s, most, n) ==> n <= SpaceAvailable(s)
      {
        GrantIsLargest(s, most, SpaceAvailable(s));
        forall n: nat | Grantable(s, most, n)
          ensures n <= SpaceAvailable(s)
        {
          GrantIsLargest(s, most, n);
        }
      }
    }
  }

  lemma SpaceForIff(numItems: nat, itemSize: nat, size: nat, most: nat, items: nat)
    requires itemSize > 0 && numItems > 0 && most + itemSize <= size
    ensures items <= SpaceFor(numItems, itemSize, size, most)
       <==> items <= numItems / 2 && items * itemSize + most + itemSize <= size
  {
    var whole := (size - most) / itemSize;
    PositiveQuotient(size - most, itemSize);
    DivBounds(size - most, itemSize);
    MulSplit(items, 1, itemSize);
    if items + 1 <= whole {
      MulMono(items + 1, whole, itemSize);
    } else {
      MulMono(whole + 1, items + 1, itemSize);
    }
  }

  /** Asking changes the phase alone: the producer then holds that grant. */
  lemma AskForSpaceGrants(s: Ring, most: nat, items: nat)
    requires Inv(s) && Legal(s, AskForSpace) && MostUnread(s, most)
    ensures var t := Apply(s, AskForSpace);
            && t.phase.Granted? && t == s.(phase := t.phase)
            && (items <= t.phase.items
                <==> items <= s.numItems / 2 && items * s.itemSize + most + s.itemSize <= s.size)
  {
    GrantIsLargest(s, most, items);
  }

  /** A store puts its value into its cell of the window, and changes nothing else. */
  lemma FillStores(s: Ring, offset: nat, value: Byte)
    requires Inv(s) && Legal(s, Fill(offset, value))
    ensures var t := Apply(s, Fill(offset, value));
            && t == s.(mem := t.mem) && |t.mem| == |s.mem| && s.writeIndex + offset < |s.mem|
            && t.mem[s.writeIndex + offset] == value
            && forall k :: 0 <= k < |s.mem| && k != s.writeIndex + offset ==> t.mem[k] == s.mem[k]
  {
    FillKeepsInv(s, offset, value);
  }

  /** Only the last step of a post changes the stream: it appends the bytes that the window held when the post
      began. What a post writes apart from that lies outside the window, or repeats it. */
  lemma StreamStep(s: Ring, e: Event)
    requires Inv(s) && Legal(s, e)
    ensures var t := Apply(s, e);
            && t.numItems == s.numItems && t.itemSize == s.itemSize && t.size == s.size
            && t.stream == (if e.Advance? then s.stream + s.phase.data else s.stream)
            && t.totalWritten == (if e.Advance? then s.totalWritten + s.phase.posted else s.totalWritten)
            && (!e.Advance? ==> t.writeIndex == s.writeIndex)
            && (!e.Fill? && !e.MirrorUp? && !e.MirrorDown? ==> t.mem == s.mem)
    ensures e.MirrorUp? ==> (MirrorUpInBounds(s, e.items);
              Apply(s, e).phase == MirroredUp(e.items, s.mem[s.writeIndex..s.writeIndex + e.items * s.itemSize]))
    ensures e.MirrorDown? ==> Apply(s, e).phase == MirroredBoth(s.phase.posted, s.phase.data)
    ensures e.Advance? ==> Apply(s, e).phase == Idle
  {
  }

  /** A new reader is at the end of the stream; the readers before it stay. */
  lemma AttachStarts(s: Ring, itemSize: nat)
    requires Inv(s) && itemSize > 0
    ensures var t := Apply(s, Attach(itemSize));
            && t == s.(readers := t.readers) && |t.readers| == |s.readers| + 1
            && t.readers[..|s.readers|] == s.readers
            && var rd := t.readers[|s.readers|];
               rd.itemSize == itemSize && rd.start == |s.stream| && rd.consumed == [] && rd.totalRead == rd.held == 0
  {
  }

  /** A reader is shown as many whole items as it has not read; nothing else changes. */
  lemma AskForItemsShows(s: Ring, i: nat)
    requires Inv(s) && i < |s.readers|
    ensures var t, rd := Apply(s, AskForItems(i)), s.readers[i];
            var unread := |s.stream| - rd.Pos();
            && i < |t.readers| && t == s.(readers := s.readers[i := rd.(held := t.readers[i].held)])
            && t.readers[i].held * rd.itemSize <= unread < (t.readers[i].held + 1) * rd.itemSize
  {
    AvailableIsUnread(s, i);
    DivBounds(|s.stream| - s.readers[i].Pos(), s.readers[i].itemSize);
  }

  /** A reader that posts a number of items has consumed the next bytes of the stream, that many items of
      them; nothing else changes but its index and its totals. */
  lemma PostReadTakes(s: Ring, i: nat, items: nat)
    requires Inv(s) && Legal(s, PostRead(i, items))
    ensures var t, rd := Apply(s, PostRead(i, items)), s.readers[i];
            var bytes := items * rd.itemSize;
            && rd.Pos() + bytes <= |s.stream|
            && t == s.(readers := t.readers) && |t.readers| == |s.readers|
            && (forall j :: 0 <= j < |s.readers| && j != i ==> t.readers[j] == s.readers[j])
            && t.readers[i].consumed == rd.consumed + s.stream[rd.Pos()..rd.Pos() + bytes]
            && t.readers[i].totalRead == rd.totalRead + items && t.readers[i].held == rd.held - items
            && t.readers[i].start == rd.start && t.readers[i].itemSize == rd.itemSize
  {
    var rd := s.readers[i];
    AvailableIsUnread(s, i);
    MulMono(items, rd.held, rd.itemSize);
    PostReadInBounds(s, i, items);
    ConsumeReadsStream(s, rd, items * rd.itemSize);
  }

  /** The stores of a producer that fills its window from the start. */
  function Stores(values: seq<Byte>): seq<Event> {
    if values == [] then [] else Stores(values[..|values| - 1]) + [Fill(|values| - 1, values[|values| - 1])]
  }

  lemma {:induction false} StoresFill(s: Ring, values: seq<Byte>) returns (t: Ring)
    requires Inv(s) && s.phase.Granted? && |values| <= s.phase.items * s.itemSize
    ensures Inv(t) && Run(s, Stores(values), t)
    ensures t == s.(mem := t.mem) && |t.mem| == |s.mem| && Stored(t.mem, s.writeIndex, values)
  {
    if values == [] {
      t := s;
    } else {
      var n := |values| - 1;
      var u := StoresFill(s, values[..n]);
      t := FillNext(u, values);
      StoresRun(s, u, values);
    }
  }

  lemma StoresRun(s: Ring, u: Ring, values: seq<Byte>)
    requires values != [] && Inv(s) && Inv(u) && Run(s, Stores(values[..|values| - 1]), u)
    requires Legal(u, Fill(|values| - 1, values[|values| - 1]))
    ensures Run(s, Stores(values), Apply(u, Fill(|values| - 1, values[|values| - 1])))
  {
    var n := |values| - 1;
    RunOneMore(s, Stores(values[..n]), u, Fill(n, values[n]));
  }

  lemma FillNext(u: Ring, values: seq<Byte>) returns (t: Ring)
    requires Inv(u) && values != [] && Legal(u, Fill(|values| - 1, values[|values| - 1]))
    requires Stored(u.mem, u.writeIndex, values[..|values| - 1])
    ensures Inv(t) && t == Apply(u, Fill(|values| - 1, values[|values| - 1]))
    ensures t == u.(mem := t.mem) && |t.mem| == |u.mem| && Stored(t.mem, u.writeIndex, values)
  {
    var n := |values| - 1;
    FillStores(u, n, values[n]);
    StepKeepsInv(u, Fill(n, values[n]));
    t := Apply(u, Fill(n, values[n]));
    StoredSoFar(u.mem, t.mem, u.writeIndex, n, values);
  }

  lemma StoredSoFar(mem: seq<Byte>, mem': seq<Byte>, w: nat, n: nat, values: seq<Byte>)
    requires |values| == n + 1 && w + n < |mem| == |mem'|
    requires Stored(mem, w, values[..n]) && mem'[w + n] == values[n]
    requires forall k :: 0 <= k < |mem| && k != w + n ==> mem'[k] == mem[k]
    ensures Stored(mem', w, values)
  {
    forall k | 0 <= k < n + 1
      ensures mem'[w + k] == values[k]
    {
      assert k < n ==> mem[w..w + n][k] == values[..n][k];
    }
  }

  lemma {:induction false} RunOneMore(s: Ring, events: seq<Event>, u: Ring, e: Event)
    requires Inv(s) && Run(s, events, u) && Inv(u) && Legal(u, e)
    ensures Run(s, events + [e], Apply(u, e))
    decreases |events|
  {
    if events == [] {
      StepKeepsInv(s, e);
      assert events + [e] == [e] && [e][1..] == [];
    } else {
      StepKeepsInv(s, events[0]);
      RunOneMore(Apply(s, events[0]), events[1..], u, e);
      ConcatTail(events, [e]);
    }
  }

  /** A producer that asks for space, stores values in the window it gets and then posts: that is a legal run, as
      long as the values fit the grant, and the values are what the stream grows by. */
  lemma StoredIsPosted(s: Ring, values: seq<Byte>, items: nat) returns (t: Ring)
    requires Inv(s) && (s.phase.Idle? || s.phase.Granted?)
    requires items <= SpaceAvailable(s) && |values| == items * s.itemSize
    ensures Inv(t) && Run(s, [AskForSpace] + (Stores(values) + [MirrorUp(items)] + [MirrorDown] + [Advance]), t)
    ensures t.stream == s.stream + values && t.readers == s.readers && t.totalWritten == s.totalWritten + items
  {
    StepKeepsInv(s, AskForSpace);
    var u := Apply(s, AskForSpace);
    t := GrantedIsPosted(u, values, items);
    var rest := Stores(values) + [MirrorUp(items)] + [MirrorDown] + [Advance];
    assert ([AskForSpace] + rest)[1..] == rest;
  }

  lemma GrantedIsPosted(s: Ring, values: seq<Byte>, items: nat) returns (t: Ring)
    requires Inv(s) && s.phase.Granted? && items <= s.phase.items && |values| == items * s.itemSize
    ensures Inv(t) && Run(s, Stores(values) + [MirrorUp(items)] + [MirrorDown] + [Advance], t)
    ensures t.stream == s.stream + values && t.readers == s.readers && t.totalWritten == s.totalWritten + items
  {
    MulMono(items, s.phase.items, s.itemSize);
    var u := StoresFill(s, values);
    t := PostRun(s, Stores(values), u, items);
  }

  /** The three steps of a post, after any run. */
  lemma PostRun(s: Ring, events: seq<Event>, u: Ring, items: nat) returns (t: Ring)
    requires Inv(s) && Inv(u) && Run(s, events, u) && Legal(u, MirrorUp(items))
    ensures Inv(t) && Run(s, events + [MirrorUp(items)] + [MirrorDown] + [Advance], t)
    ensures u.writeIndex + items * u.itemSize <= |u.mem|
    ensures t.stream == u.stream + u.mem[u.writeIndex..u.writeIndex + items * u.itemSize]
    ensures t.readers == u.readers && t.totalWritten == u.totalWritten + items
  {
    PostedStream(u, items);
    MirrorUpInBounds(u, items);
    StepKeepsInv(u, MirrorUp(items));
    RunOneMore(s, events, u, MirrorUp(items));
    var v := CopiedUp(u, items);
    StepKeepsInv(v, MirrorDown);
    RunOneMore(s, events + [MirrorUp(items)], v, MirrorDown);
    var x := CopiedDown(v);
    StepKeepsInv(x, Advance);
    RunOneMore(s, events + [MirrorUp(items)] + [MirrorDown], x, Advance);
    t := Posted(x);
  }

  // ----- A grant computed while readers move

  predicate OfReader(e: Event) {
    e.AskForItems? || e.PostRead?
  }

  ghost predicate ReaderRun(s: Ring, events: seq<Event>, t: Ring)
    requires Inv(s)
  {
    Run(s, events, t) && forall k :: 0 <= k < |events| ==> OfReader(events[k])
  }

  /** The loop of `space_available` goes over the readers while they may read on: between its looks at two
      readers there is a run of reader steps. Run k leads from `states[k]` to `states[k + 1]`, and there the
      loop looks at reader k. */
  ghost predicate Scan(states: seq<Ring>, runs: seq<seq<Event>>) {
    && |states| == |runs| + 1
    && (forall k :: 0 <= k < |states| ==> Inv(states[k]) && |states[k].readers| == |runs|)
    && forall k :: 0 <= k < |runs| ==> ReaderRun(states[k], runs[k], states[k + 1])
  }

  /** What the loop computes for reader k. */
  ghost function Noted(states: seq<Ring>, k: nat): int
    requires k + 1 < |states| && k < |states[k + 1].readers|
  {
    var s := states[k + 1];
    BytesAvailable(s.writeIndex, s.readers[k].index, s.size)
  }

  /** `t` is `s` after readers have read on. */
  ghost predicate ReadOn(s: Ring, t: Ring) {
    && t == s.(readers := t.readers) && |t.readers| == |s.readers|
    && forall i :: 0 <= i < |s.readers| ==> s.readers[i].Pos() <= t.readers[i].Pos()
  }

  lemma {:induction false} ReaderRunReadsOn(s: Ring, events: seq<Event>, t: Ring)
    requires Inv(s) && ReaderRun(s, events, t)
    ensures Inv(t) && ReadOn(s, t)
    decreases |events|
  {
    if events != [] {
      var u := Apply(s, events[0]);
      assert OfReader(events[0]);
      StepKeepsInv(s, events[0]);
      ReaderStepReadsOn(s, events[0]);
      assert forall k :: 0 <= k < |events| - 1 ==> events[1..][k] == events[k + 1];
      ReaderRunReadsOn(u, events[1..], t);
    }
  }

  lemma ReaderStepReadsOn(s: Ring, e: Event)
    requires Inv(s) && Legal(s, e) && OfReader(e)
    ensures ReadOn(s, Apply(s, e))
  {
  }

  lemma {:induction false} ScanReadsOn(states: seq<Ring>, runs: seq<seq<Event>>, k: nat)
    requires Scan(states, runs) && k < |states|
    ensures ReadOn(states[k], states[|states| - 1])
    decreases |states| - k
  {
    if k < |states| - 1 {
      assert ReaderRun(states[k], runs[k], states[k + 1]);
      ReaderRunReadsOn(states[k], runs[k], states[k + 1]);
      ScanReadsOn(states, runs, k + 1);
    }
  }

  /** The scan ends with a grant that leaves room before every reader, although each was looked at at
      another time: meanwhile they can only have read on. */
  lemma ScanLeavesRoom(states: seq<Ring>, runs: seq<seq<Event>>, most: nat)
    requires Scan(states, runs)
    requires forall k :: 0 <= k < |runs| ==> Noted(states, k) <= most
    requires most == 0 || exists k :: 0 <= k < |runs| && Noted(states, k) == most
    ensures var t := states[|runs|];
            Inv(t) && Room(t, SpaceFor(t.numItems, t.itemSize, t.size, most) * t.itemSize)
  {
    var t := states[|runs|];
    if most == 0 {
      MulMono(1, t.numItems, t.itemSize);
    } else {
      var k :| 0 <= k < |runs| && Noted(states, k) == most;
      NotedIsUnread(states, runs, k);
    }
    GrantInBytes(t.numItems, t.itemSize, t.size, most);
    forall i | 0 <= i < |t.readers|
      ensures |t.stream| - t.readers[i].Pos() <= most
    {
      NotedIsUnread(states, runs, i);
    }
  }

  /** What was noted of reader k is at least what it has to read in the end, and leaves one item. */
  lemma NotedIsUnread(states: seq<Ring>, runs: seq<seq<Event>>, k: nat)
    requires Scan(states, runs) && k < |runs|
    ensures var t := states[|runs|];
            k < |t.readers| && |t.stream| - t.readers[k].Pos() <= Noted(states, k) <= t.size - t.itemSize
  {
    ScanReadsOn(states, runs, k + 1);
    AvailableIsUnread(states[k + 1], k);
  }

  // ----- Between adding to an index and wrapping it

  /** A reader that looks at the write index after the addition and before the wrap computes the same. */
  lemma UnwrappedWriteIndexReadsSame(s: Ring, i: nat)
    requires Inv(s) && s.phase.MirroredBoth? && i < |s.readers|
    ensures BytesAvailable(s.writeIndex + |s.phase.data|, s.readers[i].index, s.size)
         == BytesAvailable(Posted(s).writeIndex, s.readers[i].index, s.size)
  {
    assert ReaderOk(s, s.readers[i]);
  }

  /** So does the producer that looks at a read index after the addition and before the wrap. */
  lemma UnwrappedReadIndexReadsSame(s: Ring, i: nat, items: nat)
    requires Inv(s) && Legal(s, PostRead(i, items))
    ensures var rd := s.readers[i];
            rd.index + items * rd.itemSize <= |s.mem|
            && BytesAvailable(s.writeIndex, rd.index + items * rd.itemSize, s.size)
            == BytesAvailable(s.writeIndex, Consumed(s, rd, items).index, s.size)
  {
    PostReadInBounds(s, i, items);
    var rd := s.readers[i];
    assert ReaderOk(s, rd);
    MulMono(items, rd.held, rd.itemSize);
  }

  // ----- The buffer and its readers

  class BufferReader {
    const itemSize: nat
    var readIndex: nat
    var totalRead: nat

    constructor (itemSize: nat, readIndex: nat)
      ensures this.itemSize == itemSize && this.readIndex == readIndex && totalRead == 0
    {
      this.itemSize, this.readIndex, this.totalRead := itemSize, readIndex, 0;
    }

    ghost predicate Matches(rd: Reader)
      reads this
    {
      itemSize == rd.itemSize && readIndex == rd.index && totalRead == rd.totalRead
    }

    /** `bytes_available`: without the buffer's lock, only the two indices are looked at. */
    method BytesUnread(buffer: Buffer) returns (n: int)
      ensures n == BytesAvailable(buffer.writeIndex, readIndex, buffer.bufSize)
    {
      var w, r := buffer.writeIndex, readIndex;
      if w < r {
        w := w + buffer.bufSize;
      }
      n := w - r;
    }

    /** Shows the reader its window: `items` items from `index` on. */
    method ReadInfo(buffer: Buffer, ghost i: nat) returns (index: nat, items: nat, total: nat)
      requires buffer.Valid() && i < |buffer.readers| && buffer.readers[i] == this
      modifies buffer`ring
      ensures buffer.Valid() && buffer.ring == Apply(old(buffer.ring), AskForItems(i))
      ensures index == buffer.ring.readers[i].index && items == buffer.ring.readers[i].held
      ensures total == buffer.ring.readers[i].totalRead
    {
      WindowIsStream(buffer.ring, i);
      AskForItemsKeepsInv(buffer.ring, i);
      index, total := readIndex, totalRead;
      var bytes := BytesUnread(buffer);
      items := bytes / itemSize;
      buffer.ring := Apply(buffer.ring, AskForItems(i));
    }

    method PostRead(buffer: Buffer, ghost i: nat, items: nat)
      requires buffer.Valid() && i < |buffer.readers| && buffer.readers[i] == this
      requires items <= buffer.ring.readers[i].held
      modifies this, buffer`ring
      ensures buffer.Valid() && buffer.ring == Apply(old(buffer.ring), Event.PostRead(i, items))
    {
      PostReadInBounds(buffer.ring, i, items);
      PostReadKeepsInv(buffer.ring, i, items);
      assert AfterPostRead(buffer.ring, i, items) == Apply(buffer.ring, Event.PostRead(i, items));
      Consume(buffer, i, items);
    }

    /** The moves of `post_read`, without the invariant. */
    method Consume(buffer: Buffer, ghost i: nat, items: nat)
      requires buffer.Matches() && i < |buffer.readers| && buffer.readers[i] == this
      requires items <= buffer.ring.readers[i].held
      requires readIndex + items * itemSize <= |buffer.ring.mem|
      modifies this, buffer`ring
      ensures buffer.Matches()
      ensures var s := old(buffer.ring);
              buffer.ring == s.(readers := s.readers[i := Consumed(s, s.readers[i], items)])
    {
      ghost var s := buffer.ring;
      MoveOn(items, items * itemSize, buffer.bufSize);
      buffer.ring := s.(readers := s.readers[i := Consumed(s, s.readers[i], items)]);
    }

    method MoveOn(items: nat, bytes: nat, size: nat)
      modifies this
      ensures readIndex == Advanced(old(readIndex), bytes, size) && totalRead == old(totalRead) + items
    {
      readIndex := readIndex + bytes;
      if readIndex >= size {
        readIndex := readIndex - size;
      }
      totalRead := totalRead + items;
    }
  }

  class Buffer {
    const numItems: nat
    const itemSize: nat
    const bufSize: nat
    const mem: array<Byte>
    var writeIndex: nat
    var totalWritten: nat
    var readers: seq<BufferReader>
    ghost var ring: Ring

    ghost predicate Matches()
      reads this, mem, readers
    {
      && numItems == ring.numItems && itemSize == ring.itemSize && bufSize == ring.size
      && mem[..] == ring.mem
      && writeIndex == ring.writeIndex && totalWritten == ring.totalWritten
      && |readers| == |ring.readers|
      && (forall i :: 0 <= i < |readers| ==> readers[i].Matches(ring.readers[i]))
      && (forall i, j :: 0 <= i < j < |readers| ==> readers[i] != readers[j])
    }

    ghost predicate Valid()
      reads this, mem, readers
    {
      Matches() && Inv(ring)
    }

    constructor (numItems: nat, itemSize: nat)
      requires numItems > 0 && itemSize > 0
      ensures Valid() && fresh(mem) && ring == Start(numItems, itemSize, mem[..])
    {
      this.numItems, this.itemSize, this.bufSize := numItems, itemSize, numItems * itemSize;
      mem := new Byte[2 * (numItems * itemSize)];
      writeIndex, totalWritten, readers := 0, 0, [];
      new;
      ring := Start(numItems, itemSize, mem[..]);
      StartIsGood(numItems, itemSize, mem[..]);
    }

    /** The most that any reader still has to read decides how much may be written. */
    method Space() returns (n: nat)
      requires Matches() && itemSize > 0 && bufSize == numItems * itemSize
      ensures n == SpaceAvailable(ring)
      ensures Inv(ring) ==> LargestGrant(ring, n)
    {
      var most := 0;
      for k := 0 to |readers|
        invariant most == MaxAvailable(ring.readers[..k], writeIndex, bufSize)
      {
        assert ring.readers[..k + 1][..k] == ring.readers[..k];
        var bytes := readers[k].BytesUnread(this);
        if bytes > most {
          most := bytes;
        }
      }
      assert ring.readers[..|readers|] == ring.readers;
      var space := (numItems * itemSize - most) / itemSize - 1;
      if space < 0 {
        space := 0;
      }
      n := Min(space, numItems / 2);
      GrantIfInv(ring);
    }

    /** Grants the producer `items` items from `index` on. */
    method WriteInfo() returns (index: nat, items: nat, total: nat)
      requires Valid() && Legal(ring, AskForSpace)
      modifies this`ring
      ensures Valid() && ring == Apply(old(ring), AskForSpace)
      ensures index == writeIndex && total == totalWritten && ring.phase == Granted(items)
      ensures LargestGrant(old(ring), items)
    {
      AskForSpaceKeepsInv(ring);
      items := Space();
      index, total := writeIndex, totalWritten;
      ring := Apply(ring, AskForSpace);
    }

    /** The producing block stores one byte into its window. */
    method Fill(offset: nat, value: Byte)
      requires Valid() && Legal(ring, Event.Fill(offset, value))
      modifies this`ring, mem
      ensures Valid() && ring == Apply(old(ring), Event.Fill(offset, value))
    {
      FillKeepsInv(ring, offset, value);
      mem[writeIndex + offset] := value;
      ring := Apply(ring, Event.Fill(offset, value));
    }

    /** The copy to the upper half. */
    method CopyUp(items: nat)
      requires Matches() && |ring.mem| == 2 * bufSize && writeIndex < bufSize && items * itemSize <= bufSize
      modifies this`ring, mem
      ensures Matches() && ring == CopiedUp(old(ring), items)
    {
      ghost var next := CopiedUp(ring, items);
      CopyUpBytes(items * itemSize);
      ring := next;
    }

    method CopyUpBytes(bytes: nat)
      requires mem[..] == ring.mem && mem.Length == 2 * bufSize && writeIndex < bufSize && bytes <= bufSize
      modifies mem
      ensures mem[..] == CopiedUpMem(ring.mem, writeIndex, bufSize, bytes)
    {
      ghost var after := CopiedUpMem(ring.mem, writeIndex, bufSize, bytes);
      CopyBlock(writeIndex + bufSize, writeIndex, Min(bufSize - writeIndex, bytes), after);
    }

    /** The copy of what ran over the end, to the beginning. */
    method CopyDown(items: nat)
      requires Matches() && |ring.mem| == 2 * bufSize && writeIndex < bufSize
      requires ring.phase.MirroredUp? && |ring.phase.data| == items * itemSize <= bufSize
      modifies this`ring, mem
      ensures Matches() && ring == CopiedDown(old(ring))
    {
      ghost var next := CopiedDown(ring);
      CopyDownBytes(items * itemSize);
      ring := next;
    }

    method CopyDownBytes(bytes: nat)
      requires mem[..] == ring.mem && mem.Length == 2 * bufSize && writeIndex < bufSize && bytes <= bufSize
      modifies mem
      ensures mem[..] == CopiedDownMem(ring.mem, writeIndex, bufSize, bytes)
    {
      var second := bytes - Min(bufSize - writeIndex, bytes);
      if second > 0 {
        ghost var after := CopiedDownMem(ring.mem, writeIndex, bufSize, bytes);
        CopyBlock(0, bufSize, second, after);
      }
    }

    method CopyBlock(dst: nat, src: nat, n: nat, ghost after: seq<Byte>)
      requires dst + n <= mem.Length && src + n <= mem.Length && mem[..] == ring.mem
      requires n == 0 || dst + n <= src || src + n <= dst
      requires after == Overwrite(ring.mem, dst, ring.mem[src..src + n])
      modifies mem
      ensures mem[..] == after
    {
      MemCpy(mem, dst, src, n);
    }

    /** First of the three steps of `post_write`. */
    method MirrorUp(items: nat)
      requires Valid() && Legal(ring, Event.MirrorUp(items))
      modifies this`ring, mem
      ensures Valid() && ring == Apply(old(ring), Event.MirrorUp(items))
    {
      MirrorUpKeepsInv(ring, items);
      assert CopiedUp(ring, items) == Apply(ring, Event.MirrorUp(items));
      CopyUp(items);
    }

    method MirrorDown(items: nat)
      requires Valid() && Legal(ring, Event.MirrorDown) && ring.phase.posted == items
      modifies this`ring, mem
      ensures Valid() && ring == Apply(old(ring), Event.MirrorDown)
    {
      MirrorDownKeepsInv(ring);
      assert CopiedDown(ring) == Apply(ring, Event.MirrorDown);
      CopyDown(items);
    }

    method AdvanceIndex(items: nat)
      requires Valid() && Legal(ring, Advance) && ring.phase.posted == items
      modifies this`writeIndex, this`totalWritten, this`ring
      ensures Valid() && ring == Apply(old(ring), Advance)
    {
      AdvanceKeepsInv(ring);
      writeIndex := writeIndex + items * itemSize;
      if writeIndex >= bufSize {
        writeIndex := writeIndex - bufSize;
      }
      totalWritten := totalWritten + items;
      ring := Apply(ring, Advance);
    }

    /** All of `post_write`, when nothing interrupts it: the stream grows by what the window held. */
    method PostWrite(items: nat)
      requires Valid() && Legal(ring, Event.MirrorUp(items))
      modifies this`writeIndex, this`totalWritten, this`ring, mem
      ensures Valid() && items * itemSize <= bufSize
      ensures ring.stream == old(ring).stream + old(ring).mem[old(writeIndex)..old(writeIndex) + items * itemSize]
      ensures ring.phase.Idle? && ring.readers == old(ring.readers)
      ensures totalWritten == old(totalWritten) + items
    {
      ghost var s := ring;
      PostedStream(s, items);
      MirrorUp(items);
      assert ring == CopiedUp(s, items);
      MirrorDown(items);
      assert ring == CopiedDown(CopiedUp(s, items));
      AdvanceIndex(items);
    }

    method AddReader(itemSize: nat) returns (r: BufferReader)
      requires Valid() && itemSize > 0
      modifies this`readers, this`ring
      ensures Valid() && fresh(r) && readers == old(readers) + [r]
      ensures ring == Apply(old(ring), Attach(itemSize))
    {
      AttachKeepsInv(ring, itemSize);
      r := new BufferReader(itemSize, writeIndex);
      readers := readers + [r];
      ring := Apply(ring, Attach(itemSize));
    }
  }
}
