/** The singly mapped circular buffer: no mirror, so a window ends where the array ends, a full buffer
    is told from an empty one by the running totals, and a stuck reader can have the contents of the
    buffer shifted round so that its unread bytes become contiguous.
    `stream`, `consumed`, `held` and `phase` are history, as in the doubly mapped buffer.
 */
module SingleMapped {
  import opened Arith
  import opened Memory
  import opened Sequences
  import opened Wrappers

  datatype Reader = Reader(index: nat, totalRead: nat, consumed: seq<Byte>, held: nat)

  datatype Phase = Idle | Granted(items: nat)

  datatype Ring = Ring(numItems: nat, itemSize: nat, size: nat, mem: seq<Byte>, writeIndex: nat,
                       totalWritten: nat, readers: seq<Reader>, phase: Phase, stream: seq<Byte>)

  // ----- What the code computes

  /** Bytes up to the write index, or to the end of the array. */
  function BytesAvailable(w: nat, totalWritten: nat, r: nat, totalRead: nat, size: nat): int {
    if w < r then size - r
    else if w == r && totalRead < totalWritten then size - r
    else w - r
  }

  function Window(s: Ring, rd: Reader): int {
    BytesAvailable(s.writeIndex, s.totalWritten, rd.index, rd.totalRead, s.size)
  }

  /** The first of the readers that have read least. */
  function Slowest(readers: seq<Reader>): (i: nat)
    requires readers != []
    ensures i < |readers|
    ensures forall j :: 0 <= j < |readers| ==> readers[i].totalRead <= readers[j].totalRead
    ensures forall j :: 0 <= j < i ==> readers[i].totalRead < readers[j].totalRead
  {
    if |readers| == 1 then 0
    else
      var last := |readers| - 1;
      var i := Slowest(readers[..last]);
      assert forall j :: 0 <= j < last ==> readers[..last][j] == readers[j];
      if readers[last].totalRead < readers[i].totalRead then last else i
  }

  lemma SlowestTurn(readers: seq<Reader>, k: nat)
    requires 1 <= k < |readers|
    ensures var i := Slowest(readers[..k]);
            Slowest(readers[..k + 1]) == if readers[k].totalRead < readers[i].totalRead then k else i
  {
    assert readers[..k + 1][..k] == readers[..k];
  }

  /** Whole items that can be written from `w` on when the slowest reader has index `r`. */
  function SpaceBefore(w: nat, r: nat, caughtUp: bool, size: nat, itemSize: nat): int
    requires itemSize > 0
  {
    if r == w && !caughtUp then 0
    else if r > w then (r - w) / itemSize
    else (size - w) / itemSize
  }

  function SpaceAvailable(s: Ring): int
    requires s.itemSize > 0 && s.readers != []
  {
    var slow := s.readers[Slowest(s.readers)];
    var space := SpaceBefore(s.writeIndex, slow.index, slow.totalRead == s.totalWritten, s.size, s.itemSize);
    if space <= s.numItems / 2 then space else s.numItems / 2
  }

  /** Both indices fall back to 0 exactly at the end of the array. */
  function Advanced(index: nat, bytes: nat, size: nat): nat {
    if index + bytes == size then 0 else index + bytes
  }

  // ----- The invariant

  ghost predicate Circular(mem: seq<Byte>, index: nat, size: nat, bytes: seq<Byte>)
  {
    && index < size && |bytes| <= size && |mem| == size
    && forall k :: 0 <= k < |bytes| ==> mem[Wrap(index + k, size)] == bytes[k]
  }

  /** The write index is `unread` bytes ahead of the read index, going round the array. */
  predicate Follows(w: nat, index: nat, unread: nat, size: nat) {
    index < size && unread <= size && w == Wrap(index + unread, size)
  }

  /** The unread bytes lie in the array, in order, from the reader's index to the write index. They may
      fill the whole buffer; then the two indices coincide. */
  ghost predicate PlaceOk(s: Ring, rd: Reader) {
    && rd.consumed <= s.stream
    && Follows(s.writeIndex, rd.index, |s.stream| - |rd.consumed|, s.size)
    && Circular(s.mem, rd.index, s.size, s.stream[|rd.consumed|..])
  }

  ghost predicate CountsOk(s: Ring, rd: Reader) {
    rd.totalRead <= s.totalWritten && |rd.consumed| == rd.totalRead * s.itemSize
  }

  ghost predicate HeldOk(s: Ring, rd: Reader) {
    && rd.held * s.itemSize <= |s.stream| - |rd.consumed|
    && rd.index + rd.held * s.itemSize <= s.size
  }

  ghost predicate ReaderOk(s: Ring, rd: Reader) {
    PlaceOk(s, rd) && CountsOk(s, rd) && HeldOk(s, rd)
  }

  ghost predicate Room(s: Ring, bytes: nat) {
    && s.writeIndex + bytes <= s.size
    && forall i :: 0 <= i < |s.readers| ==> |s.stream| - |s.readers[i].consumed| + bytes <= s.size
  }

  ghost predicate Inv(s: Ring) {
    && s.numItems > 0 && s.itemSize > 0
    && s.size == s.numItems * s.itemSize
    && |s.mem| == s.size
    && s.writeIndex < s.size
    && |s.stream| == s.totalWritten * s.itemSize
    && s.readers != []
    && (forall i :: 0 <= i < |s.readers| ==> ReaderOk(s, s.readers[i]))
    && (s.phase.Granted? ==> Room(s, s.phase.items * s.itemSize))
  }

  /** All indices stay on item boundaries. */
  ghost predicate OnBoundaries(s: Ring) {
    && Aligned(s.writeIndex, s.itemSize)
    && forall i :: 0 <= i < |s.readers| ==> Aligned(s.readers[i].index, s.itemSize)
  }

  // ----- Windows and free space

  /** The window is as much of the unread part as lies before the end of the array. */
  lemma WindowIsContiguousPart(s: Ring, i: nat)
    requires Inv(s) && i < |s.readers|
    ensures var rd := s.readers[i];
            var unread := |s.stream| - |rd.consumed|;
            && ReaderOk(s, rd)
            && Window(s, rd) == Min(unread, s.size - rd.index)
            && s.mem[rd.index..rd.index + Window(s, rd)]
               == s.stream[|rd.consumed|..|rd.consumed| + Window(s, rd)]
  {
    var rd := s.readers[i];
    assert ReaderOk(s, rd);
    var rest := s.stream[|rd.consumed|..];
    TotalsTellFullFromEmpty(s, rd);
    var n := Min(|rest|, s.size - rd.index);
    CircularIsContiguous(s.mem, rd.index, s.size, rest, n);
    assert rest[..n] == s.stream[|rd.consumed|..|rd.consumed| + n];
  }

  lemma TotalsTellFullFromEmpty(s: Ring, rd: Reader)
    requires Inv(s) && ReaderOk(s, rd)
    ensures rd.totalRead == s.totalWritten <==> |s.stream| == |rd.consumed|
  {
    if rd.totalRead < s.totalWritten {
      MulMono(rd.totalRead + 1, s.totalWritten, s.itemSize);
      MulSplit(rd.totalRead, 1, s.itemSize);
    }
  }

  lemma WindowIsAligned(s: Ring, i: nat)
    requires Inv(s) && OnBoundaries(s) && i < |s.readers|
    ensures Window(s, s.readers[i]) >= 0 && Aligned(Window(s, s.readers[i]), s.itemSize)
  {
    var rd := s.readers[i];
    WindowIsContiguousPart(s, i);
    WholeIsAligned(s.numItems, s.itemSize);
    AlignedDifference(s.size, rd.index, s.itemSize);
    WholeIsAligned(s.totalWritten, s.itemSize);
    WholeIsAligned(rd.totalRead, s.itemSize);
    AlignedDifference(|s.stream|, |rd.consumed|, s.itemSize);
  }

  /** The most that any reader still has to read. */
  ghost function MostUnread(s: Ring): nat
    requires Inv(s)
  {
    var slow := s.readers[Slowest(s.readers)];
    assert ReaderOk(s, slow);
    |s.stream| - |slow.consumed|
  }

  lemma SlowestHasMostUnread(s: Ring, i: nat)
    requires Inv(s) && i < |s.readers|
    ensures |s.stream| - |s.readers[i].consumed| <= MostUnread(s) <= s.size
  {
    var j := Slowest(s.readers);
    assert ReaderOk(s, s.readers[j]) && ReaderOk(s, s.readers[i]);
    MulMono(s.readers[j].totalRead, s.readers[i].totalRead, s.itemSize);
  }

  /** Before the half-full cap, the space is the contiguous free part of the buffer in whole items. */
  lemma SpaceIsContiguousFree(s: Ring)
    requires Inv(s)
    ensures var slow := s.readers[Slowest(s.readers)];
            SpaceBefore(s.writeIndex, slow.index, slow.totalRead == s.totalWritten, s.size, s.itemSize)
            == Min(s.size - s.writeIndex, s.size - MostUnread(s)) / s.itemSize
  {
    var slow := s.readers[Slowest(s.readers)];
    assert ReaderOk(s, slow);
    TotalsTellFullFromEmpty(s, slow);
  }

  /** A grant ends before the end of the array and before the unread bytes of every reader. */
  lemma GrantLeavesRoom(s: Ring)
    requires Inv(s)
    ensures SpaceAvailable(s) >= 0 && Room(s, SpaceAvailable(s) * s.itemSize)
  {
    SpaceIsContiguousFree(s);
    SlowestHasMostUnread(s, 0);
    var free := Min(s.size - s.writeIndex, s.size - MostUnread(s));
    DivBounds(free, s.itemSize);
    MulMono(SpaceAvailable(s), free / s.itemSize, s.itemSize);
    forall i | 0 <= i < |s.readers|
      ensures |s.stream| - |s.readers[i].consumed| + SpaceAvailable(s) * s.itemSize <= s.size
    {
      SlowestHasMostUnread(s, i);
    }
  }

  predicate BlocksBoth(s: Ring)
    requires s.itemSize > 0 && s.readers != []
  {
    SpaceAvailable(s) == 0 && Window(s, s.readers[Slowest(s.readers)]) / s.itemSize == 0
  }

  /** The buffer never blocks both of its sides by itself, unless it has room for one item only: then
      nothing can ever be written, and it is stuck as soon as the readers have caught up. */
  lemma NeverBlocksBoth(s: Ring)
    requires Inv(s) && OnBoundaries(s)
    ensures BlocksBoth(s) <==> s.numItems == 1 && MostUnread(s) == 0
  {
    var i := Slowest(s.readers);
    WindowIsContiguousPart(s, i);
    SpaceIsContiguousFree(s);
    if MostUnread(s) > 0 {
      WindowIsAligned(s, i);
      AlignedPositive(Window(s, s.readers[i]), s.itemSize);
    } else {
      WholeIsAligned(s.numItems, s.itemSize);
      AlignedDifference(s.size, s.writeIndex, s.itemSize);
      AlignedPositive(s.size - s.writeIndex, s.itemSize);
    }
  }

  // ----- The steps

  datatype Event =
    | AskForSpace
    | Fill(offset: nat, value: Byte)
    | PostWrite(items: nat)
    | DropGrant                             // the producer gives its grant up
    | AskForItems(reader: nat)
    | PostRead(reader: nat, items: nat)
    | DropWindow(reader: nat)               // a reader gives its window up
    | InputBlocked(reader: nat, required: nat)
    | OutputBlocked(force: bool)

  /** What the callers are held to: they stay within what they were last granted. A reader that asks for the
      data to be moved gives its own window up. Relocation goes on under the buffer's lock only, which
      neither a block that fills its window nor one that reads its window holds; so no window of others may
      be out, and the relocation must be able to come out right (see below). The callback of the producer
      never comes out right when it moves something. */
  ghost predicate Legal(s: Ring, e: Event) {
    match e
    case AskForSpace => true
    case Fill(offset, _) => s.phase.Granted? && offset < s.phase.items * s.itemSize
    case PostWrite(items) => s.phase.Granted? && items <= s.phase.items
    case DropGrant => true
    case AskForItems(i) => i < |s.readers|
    case PostRead(i, items) => i < |s.readers| && items <= s.readers[i].held
    case DropWindow(i) => i < |s.readers|
    case InputBlocked(i, required) =>
      && i < |s.readers| && s.itemSize > 0
      && (WillRelocate(s, i, required) ==> MayRelocate(s) && OthersHoldNothing(s, i))
    case OutputBlocked(force) => s.itemSize > 0 && s.readers != [] && !WillShift(s, force)
  }

  /** One-byte items, no reader that would lose its place, and no space granted to the producer. */
  ghost predicate MayRelocate(s: Ring) {
    && s.itemSize == 1 && 2 * s.size <= UINT64_RANGE
    && (s.phase == Idle || s.phase == Granted(0))
    && forall j :: 0 <= j < |s.readers| ==> Movable(s, s.readers[j])
  }

  ghost predicate OthersHoldNothing(s: Ring, i: nat) {
    forall j :: 0 <= j < |s.readers| && j != i ==> s.readers[j].held == 0
  }

  ghost function Dropped(s: Ring, i: nat): Ring
    requires i < |s.readers|
  {
    s.(readers := s.readers[i := s.readers[i].(held := 0)])
  }

  ghost function Filled(s: Ring, offset: nat, value: Byte): Ring
    requires s.writeIndex + offset < |s.mem|
  {
    s.(mem := s.mem[s.writeIndex + offset := value])
  }

  ghost function Posted(s: Ring, items: nat): Ring
    requires s.writeIndex + items * s.itemSize <= |s.mem|
  {
    var bytes := items * s.itemSize;
    s.(writeIndex := Advanced(s.writeIndex, bytes, s.size),
       totalWritten := s.totalWritten + items,
       stream := s.stream + s.mem[s.writeIndex..s.writeIndex + bytes],
       phase := Idle)
  }

  ghost function Consumed(s: Ring, rd: Reader, items: nat): Reader
    requires items <= rd.held && rd.index + items * s.itemSize <= |s.mem|
  {
    var bytes := items * s.itemSize;
    rd.(index := Advanced(rd.index, bytes, s.size),
        totalRead := rd.totalRead + items,
        consumed := rd.consumed + s.mem[rd.index..rd.index + bytes],
        held := rd.held - items)
  }

  lemma PostWriteInBounds(s: Ring, items: nat)
    requires Inv(s) && Legal(s, PostWrite(items))
    ensures Room(s, items * s.itemSize) && !WroteTooFar(s, items)
  {
    MulMono(items, s.phase.items, s.itemSize);
  }

  lemma AskForItemsInBounds(s: Ring, i: nat)
    requires Inv(s) && i < |s.readers|
    ensures Window(s, s.readers[i]) >= 0 && Window(s, s.readers[i]) / s.itemSize >= 0
  {
    WindowIsContiguousPart(s, i);
    QuotientAtMost(Window(s, s.readers[i]), s.itemSize);
  }

  lemma PostReadInBounds(s: Ring, i: nat, items: nat)
    requires Inv(s) && Legal(s, PostRead(i, items))
    ensures var rd := s.readers[i];
            && items * s.itemSize <= |s.stream| - |rd.consumed|
            && rd.index + items * s.itemSize <= s.size
            && ReaderOk(s, rd)
  {
    assert ReaderOk(s, s.readers[i]);
    MulMono(items, s.readers[i].held, s.itemSize);
  }

  /** A legal step stays inside the array; so `post_write` never finds that it wrote too far. */
  lemma StepInBounds(s: Ring, e: Event)
    requires Inv(s) && Legal(s, e)
    ensures e.Fill? ==> s.writeIndex + e.offset < |s.mem|
    ensures e.PostWrite? ==> Room(s, e.items * s.itemSize) && !WroteTooFar(s, e.items)
    ensures e.AskForItems? ==> Window(s, s.readers[e.reader]) >= 0
    ensures e.PostRead? ==> var rd := s.readers[e.reader];
                            && e.items * s.itemSize <= |s.stream| - |rd.consumed|
                            && rd.index + e.items * s.itemSize <= s.size
                            && ReaderOk(s, rd)
  {
    match e
    case PostWrite(items) => PostWriteInBounds(s, items);
    case AskForItems(i) => AskForItemsInBounds(s, i);
    case PostRead(i, items) => PostReadInBounds(s, i, items);
    case _ =>
  }

  predicate WroteTooFar(s: Ring, items: nat) {
    Advanced(s.writeIndex, items * s.itemSize, s.size) > s.size
  }

  // ----- Every step keeps the invariant

  lemma CircularAppend(mem: seq<Byte>, index: nat, size: nat, a: seq<Byte>, b: seq<Byte>, w: nat)
    requires Circular(mem, index, size, a)
    requires |a| + |b| <= size && w == Wrap(index + |a|, size) && w + |b| <= size
    requires mem[w..w + |b|] == b
    ensures Circular(mem, index, size, a + b)
  {
    forall k | 0 <= k < |a + b|
      ensures mem[Wrap(index + k, size)] == (a + b)[k]
    {
      if k < |a| {
        assert mem[Wrap(index + k, size)] == a[k];
      } else {
        assert mem[w..w + |b|][k - |a|] == mem[w + (k - |a|)];
        assert w + (k - |a|) == Wrap(index + k, size);
      }
    }
  }

  lemma CircularDrop(mem: seq<Byte>, index: nat, size: nat, bytes: seq<Byte>, n: nat)
    requires Circular(mem, index, size, bytes) && n <= |bytes| && index + n <= size
    ensures Circular(mem, Advanced(index, n, size), size, bytes[n..])
  {
    var at := Advanced(index, n, size);
    forall k | 0 <= k < |bytes| - n
      ensures mem[Wrap(at + k, size)] == bytes[n..][k]
    {
      assert mem[Wrap(index + (n + k), size)] == bytes[n + k];
      assert Wrap(at + k, size) == Wrap(index + (n + k), size);
    }
  }

  lemma WritingKeepsUnread(mem: seq<Byte>, index: nat, size: nat, bytes: seq<Byte>, w: nat, room: nat,
                           offset: nat, value: Byte)
    requires Circular(mem, index, size, bytes)
    requires |bytes| + room <= size && w == Wrap(index + |bytes|, size) && w + room <= size && offset < room
    ensures Circular(mem[w + offset := value], index, size, bytes)
  {
    forall k | 0 <= k < |bytes|
      ensures mem[w + offset := value][Wrap(index + k, size)] == bytes[k]
    {
      assert mem[Wrap(index + k, size)] == bytes[k];
      assert Wrap(index + k, size) != w + offset;
    }
  }

  lemma FillKeepsInv(s: Ring, offset: nat, value: Byte)
    requires Inv(s) && Legal(s, Fill(offset, value))
    ensures s.writeIndex + offset < |s.mem| && Inv(Filled(s, offset, value))
  {
    StepInBounds(s, Fill(offset, value));
    var t := Filled(s, offset, value);
    forall i | 0 <= i < |t.readers|
      ensures ReaderOk(t, t.readers[i])
    {
      var rd := s.readers[i];
      assert ReaderOk(s, rd);
      WritingKeepsUnread(s.mem, rd.index, s.size, s.stream[|rd.consumed|..], s.writeIndex,
                         s.phase.items * s.itemSize, offset, value);
    }
  }

  lemma WriteIndexMoves(w: nat, index: nat, unread: nat, n: nat, size: nat)
    requires Follows(w, index, unread, size) && unread + n <= size && w + n <= size
    ensures Follows(Advanced(w, n, size), index, unread + n, size)
  {
  }

  lemma ReadIndexMoves(w: nat, index: nat, unread: nat, n: nat, size: nat)
    requires Follows(w, index, unread, size) && n <= unread && index + n <= size
    ensures Follows(w, Advanced(index, n, size), unread - n, size)
  {
  }

  lemma PostKeepsPlace(s: Ring, t: Ring, rd: Reader, bytes: nat)
    requires PlaceOk(s, rd) && s.writeIndex + bytes <= s.size && |s.mem| == s.size
    requires |s.stream| - |rd.consumed| + bytes <= s.size
    requires t.mem == s.mem && t.size == s.size && t.writeIndex == Advanced(s.writeIndex, bytes, s.size)
    requires t.stream == s.stream + s.mem[s.writeIndex..s.writeIndex + bytes]
    ensures PlaceOk(t, rd)
  {
    var data := s.mem[s.writeIndex..s.writeIndex + bytes];
    CircularAppend(s.mem, rd.index, s.size, s.stream[|rd.consumed|..], data, s.writeIndex);
    assert t.stream[|rd.consumed|..] == s.stream[|rd.consumed|..] + data;
    WriteIndexMoves(s.writeIndex, rd.index, |s.stream| - |rd.consumed|, bytes, s.size);
  }

  lemma PostKeepsReader(s: Ring, rd: Reader, items: nat, bytes: nat)
    requires |s.mem| == s.size && ReaderOk(s, rd) && bytes == items * s.itemSize && s.writeIndex + bytes <= s.size
    requires |s.stream| - |rd.consumed| + bytes <= s.size
    ensures ReaderOk(Posted(s, items), rd)
  {
    PostKeepsPlace(s, Posted(s, items), rd, bytes);
  }

  lemma PostKeepsAlignment(index: nat, items: nat, numItems: nat, itemSize: nat)
    requires Aligned(index, itemSize) && index + items * itemSize <= numItems * itemSize
    ensures Aligned(Advanced(index, items * itemSize, numItems * itemSize), itemSize)
  {
    WholeIsAligned(items, itemSize);
    AlignedSum(index, items * itemSize, itemSize);
  }

  lemma PostWriteKeepsInv(s: Ring, items: nat)
    requires Inv(s) && Legal(s, PostWrite(items))
    ensures s.writeIndex + items * s.itemSize <= s.size && Inv(Posted(s, items))
  {
    PostWriteInBounds(s, items);
    var t := Posted(s, items);
    forall i | 0 <= i < |t.readers|
      ensures ReaderOk(t, t.readers[i])
    {
      PostKeepsReader(s, s.readers[i], items, items * s.itemSize);
    }
    MulSplit(s.totalWritten, items, s.itemSize);
  }

  lemma ConsumeReadsStream(s: Ring, rd: Reader, bytes: nat)
    requires PlaceOk(s, rd) && bytes <= |s.stream| - |rd.consumed| && rd.index + bytes <= s.size
    ensures s.mem[rd.index..rd.index + bytes] == s.stream[|rd.consumed|..|rd.consumed| + bytes]
    ensures Circular(s.mem, Advanced(rd.index, bytes, s.size), s.size, s.stream[|rd.consumed| + bytes..])
  {
    var rest := s.stream[|rd.consumed|..];
    CircularIsContiguous(s.mem, rd.index, s.size, rest, bytes);
    assert rest[..bytes] == s.stream[|rd.consumed|..|rd.consumed| + bytes];
    CircularDrop(s.mem, rd.index, s.size, rest, bytes);
    assert rest[bytes..] == s.stream[|rd.consumed| + bytes..];
  }

  lemma ConsumeCounts(totalWritten: nat, totalRead: nat, held: nat, items: nat, itemSize: nat)
    requires itemSize > 0 && items <= held && (totalRead + items) * itemSize <= totalWritten * itemSize
    ensures totalRead + items <= totalWritten
    ensures (held - items) * itemSize == held * itemSize - items * itemSize
    ensures (totalRead + items) * itemSize == totalRead * itemSize + items * itemSize
  {
    MulSplit(totalRead, items, itemSize);
    MulSplit(held - items, items, itemSize);
    if totalWritten < totalRead + items {
      MulSplit(totalWritten, 1, itemSize);
      MulMono(totalWritten + 1, totalRead + items, itemSize);
    }
  }

  lemma ConsumeKeepsPlace(s: Ring, rd: Reader, rd': Reader, bytes: nat)
    requires PlaceOk(s, rd) && bytes <= |s.stream| - |rd.consumed| && rd.index + bytes <= s.size
    requires rd'.index == Advanced(rd.index, bytes, s.size)
    requires rd'.consumed == rd.consumed + s.mem[rd.index..rd.index + bytes]
    ensures PlaceOk(s, rd')
    ensures rd'.consumed == rd.consumed + s.stream[|rd.consumed|..|rd.consumed| + bytes]
  {
    ConsumeReadsStream(s, rd, bytes);
    ReadIndexMoves(s.writeIndex, rd.index, |s.stream| - |rd.consumed|, bytes, s.size);
    assert rd'.consumed == s.stream[..|rd'.consumed|];
  }

  lemma ConsumeKeepsReader(s: Ring, rd: Reader, items: nat, bytes: nat)
    requires |s.stream| == s.totalWritten * s.itemSize && s.itemSize > 0 && |s.mem| == s.size
    requires ReaderOk(s, rd) && items <= rd.held && bytes == items * s.itemSize
    requires bytes <= |s.stream| - |rd.consumed| && rd.index + bytes <= s.size
    ensures ReaderOk(s, Consumed(s, rd, items))
    ensures Consumed(s, rd, items).consumed == rd.consumed + s.stream[|rd.consumed|..|rd.consumed| + bytes]
  {
    var rd' := Consumed(s, rd, items);
    ConsumeKeepsPlace(s, rd, rd', bytes);
    MulSplit(rd.totalRead, items, s.itemSize);
    ConsumeCounts(s.totalWritten, rd.totalRead, rd.held, items, s.itemSize);
  }

  lemma CircularIsContiguous(mem: seq<Byte>, index: nat, size: nat, bytes: seq<Byte>, n: nat)
    requires Circular(mem, index, size, bytes) && n <= |bytes| && index + n <= size
    ensures mem[index..index + n] == bytes[..n]
  {
    forall k | 0 <= k < n
      ensures mem[index..index + n][k] == bytes[k]
    {
      assert mem[Wrap(index + k, size)] == bytes[k];
    }
  }

  // ----- Relocation: `input_blocked_callback` and `adjust_buffer_data`

  /** The smallest read index that is greater than the write index. */
  function MinAhead(readers: seq<Reader>, w: nat): (m: Option<nat>)
    ensures m.Some? ==> m.value > w && exists i :: 0 <= i < |readers| && readers[i].index == m.value
    ensures forall i :: 0 <= i < |readers| && readers[i].index > w ==> m.Some? && m.value <= readers[i].index
  {
    if readers == [] then None
    else
      var last := |readers| - 1;
      var m := MinAhead(readers[..last], w);
      assert forall i :: 0 <= i < last ==> readers[..last][i] == readers[i];
      if readers[last].index > w && (m.None? || readers[last].index < m.value)
      then Some(readers[last].index)
      else m
  }

  lemma MinAheadTurn(readers: seq<Reader>, k: nat, w: nat)
    requires k < |readers|
    ensures var m := MinAhead(readers[..k], w);
            MinAhead(readers[..k + 1], w)
            == if readers[k].index > w && (m.None? || readers[k].index < m.value) then Some(readers[k].index) else m
  {
    assert readers[..k + 1][..k] == readers[..k];
  }

  /** The callback of reader `i` gets as far as moving data. */
  predicate WillRelocate(s: Ring, i: nat, required: nat)
    requires s.itemSize > 0 && i < |s.readers|
  {
    var rd := s.readers[i];
    && Window(s, rd) / s.itemSize < required
    && s.writeIndex < rd.index
    && var m := MinAhead(s.readers, s.writeIndex).value;
       s.size - m <= m - s.writeIndex
  }

  /** The bytes that are copied to the front are taken from byte `m * itemSize` on, as if `m` counted
      items; only with items of one byte does that stay inside the array. */
  lemma RelocationInArrayIff(m: nat, size: nat, itemSize: nat)
    requires 0 < m < size && itemSize > 0
    ensures m * itemSize + (size - m) <= size <==> itemSize == 1
  {
    if itemSize >= 2 {
      MulMono(2, itemSize, m);
    }
  }

  /** `max_items_avail - items_available()`, in the wrap-around arithmetic of `size_t`. */
  function RelocatedIndex(s: Ring, rd: Reader, m: nat): (r: int)
    requires s.itemSize > 0
  {
    var d := (s.size - m) / s.itemSize - Window(s, rd) / s.itemSize;
    if d < 0 then d + UINT64_RANGE else d
  }

  /** The start of the array is shifted up, then as many bytes as stood at its end are copied to the front
      from `src` on. */
  ghost function RelocatedMem(mem: seq<Byte>, w: nat, m: nat, src: nat): seq<Byte>
    requires w < m <= |mem| && |mem| - m <= m - w && src + (|mem| - m) <= |mem|
  {
    var bytes := |mem| - m;
    var moved := Overwrite(mem, bytes, mem[..w]);
    Overwrite(moved, 0, moved[src..src + bytes])
  }

  /** Both copies stay inside the array, and no new index is negative. */
  ghost predicate Relocatable(s: Ring, m: nat) {
    && s.itemSize > 0 && s.writeIndex < m < s.size && s.size - m <= m - s.writeIndex && |s.mem| == s.size
    && m * s.itemSize + (s.size - m) <= s.size
    && forall i :: 0 <= i < |s.readers| ==> RelocatedIndex(s, s.readers[i], m) >= 0
  }

  ghost function RelocatedReaders(s: Ring, m: nat): (rs: seq<Reader>)
    requires s.itemSize > 0 && forall i :: 0 <= i < |s.readers| ==> RelocatedIndex(s, s.readers[i], m) >= 0
    ensures |rs| == |s.readers|
    ensures forall i :: 0 <= i < |rs| ==> rs[i] == s.readers[i].(index := RelocatedIndex(s, s.readers[i], m))
  {
    seq(|s.readers|, i requires 0 <= i < |s.readers| =>
          s.readers[i].(index := RelocatedIndex(s, s.readers[i], m)))
  }

  ghost function Relocated(s: Ring, m: nat): Ring
    requires Relocatable(s, m)
  {
    s.(mem := RelocatedMem(s.mem, s.writeIndex, m, m * s.itemSize),
       readers := RelocatedReaders(s, m),
       writeIndex := s.writeIndex + (s.size - m) / s.itemSize)
  }

  /** What makes relocation come out right for a reader: it is a lap behind the write index, or the buffer
      has nothing for it and both of its indices are at the start. */
  predicate Movable(s: Ring, rd: Reader) {
    rd.index > s.writeIndex || (rd.index == s.writeIndex == 0 && rd.totalRead == s.totalWritten)
  }

  lemma OneByteItems(a: int, c: nat)
    requires c == 1
    ensures a / c == a && a * c == a
  {
  }

  /** The bytes after the move: first what was at the end of the array, then what was at its start. */
  lemma RelocatedBytes(mem: seq<Byte>, w: nat, m: nat, size: nat, mem': seq<Byte>)
    requires |mem| == size && w < m < size && size - m <= m - w
    requires mem' == RelocatedMem(mem, w, m, m)
    ensures |mem'| == size
    ensures forall k :: 0 <= k < size - m ==> mem'[k] == mem[m + k]
    ensures forall k :: size - m <= k < size - m + w ==> mem'[k] == mem[k - (size - m)]
  {
    var moved := Overwrite(mem, size - m, mem[..w]);
    forall k | 0 <= k < size - m
      ensures mem'[k] == mem[m + k]
    {
      EndByte(mem, moved, w, m, k);
    }
    forall k | size - m <= k < size - m + w
      ensures mem'[k] == mem[k - (size - m)]
    {
      StartByte(mem, moved, w, m, k);
    }
  }

  lemma EndByte(mem: seq<Byte>, moved: seq<Byte>, w: nat, m: nat, k: nat)
    requires w < m < |mem| && |mem| - m <= m - w && k < |mem| - m && moved == Overwrite(mem, |mem| - m, mem[..w])
    ensures RelocatedMem(mem, w, m, m)[k] == mem[m + k]
  {
    assert RelocatedMem(mem, w, m, m)[k] == moved[m..m + (|mem| - m)][k];
    assert moved[m + k] == mem[m + k];
  }

  lemma StartByte(mem: seq<Byte>, moved: seq<Byte>, w: nat, m: nat, k: nat)
    requires w < m < |mem| && |mem| - m <= m - w && moved == Overwrite(mem, |mem| - m, mem[..w])
    requires |mem| - m <= k < |mem| - m + w
    ensures RelocatedMem(mem, w, m, m)[k] == mem[k - (|mem| - m)]
  {
    assert RelocatedMem(mem, w, m, m)[k] == moved[k];
    assert moved[k] == mem[..w][k - (|mem| - m)];
  }

  lemma RelocatedCircular(mem: seq<Byte>, w: nat, m: nat, size: nat, mem': seq<Byte>, index: nat, bytes: seq<Byte>)
    requires |mem| == size && w < m <= index < size && size - m <= m - w && |mem'| == size
    requires forall k :: 0 <= k < size - m ==> mem'[k] == mem[m + k]
    requires forall k :: size - m <= k < size - m + w ==> mem'[k] == mem[k - (size - m)]
    requires Circular(mem, index, size, bytes) && |bytes| == w + size - index
    ensures Circular(mem', index - m, size, bytes)
  {
    forall k | 0 <= k < |bytes|
      ensures mem'[Wrap(index - m + k, size)] == bytes[k]
    {
      assert mem[Wrap(index + k, size)] == bytes[k];
      var j := index - m + k;
      if index + k < size {
        assert mem'[j] == mem[m + j];
      } else {
        assert mem'[j] == mem[j - (size - m)];
      }
    }
  }

  lemma RelocatedIndexOf(s: Ring, rd: Reader, m: nat)
    requires Inv(s) && ReaderOk(s, rd) && s.itemSize == 1 && s.writeIndex < m < s.size && 2 * s.size <= UINT64_RANGE
    ensures RelocatedIndex(s, rd, m) >= 0
    ensures rd.index > s.writeIndex && m <= rd.index ==> RelocatedIndex(s, rd, m) == rd.index - m
    ensures rd.index <= s.writeIndex && |s.stream| == |rd.consumed| ==> RelocatedIndex(s, rd, m) == s.size - m
    ensures rd.index == s.writeIndex && |s.stream| != |rd.consumed| ==> RelocatedIndex(s, rd, m) >= s.size
    ensures rd.index < s.writeIndex ==>
              || RelocatedIndex(s, rd, m) >= s.size
              || RelocatedIndex(s, rd, m) + (|s.stream| - |rd.consumed|) == s.size - m
  {
    TotalsTellFullFromEmpty(s, rd);
    OneByteItems(s.size - m, s.itemSize);
    OneByteItems(Window(s, rd), s.itemSize);
  }

  ghost predicate RelocationLegal(s: Ring, i: nat, required: nat) {
    && s.itemSize > 0 && i < |s.readers|
    && (WillRelocate(s, i, required) ==> Relocatable(s, MinAhead(s.readers, s.writeIndex).value))
  }

  lemma RelocationIsDefined(s: Ring, i: nat, required: nat)
    requires Inv(s) && s.itemSize == 1 && 2 * s.size <= UINT64_RANGE && i < |s.readers|
    ensures RelocationLegal(s, i, required)
  {
    if WillRelocate(s, i, required) {
      var m := MinAhead(s.readers, s.writeIndex).value;
      var k :| 0 <= k < |s.readers| && s.readers[k].index == m;
      assert ReaderOk(s, s.readers[k]);
      RelocationInArrayIff(m, s.size, s.itemSize);
      forall k | 0 <= k < |s.readers|
        ensures RelocatedIndex(s, s.readers[k], m) >= 0
      {
        assert ReaderOk(s, s.readers[k]);
        RelocatedIndexOf(s, s.readers[k], m);
      }
    }
  }

  /** A reader a lap behind keeps its bytes, now in one piece. */
  lemma MovesAhead(s: Ring, t: Ring, m: nat, rd: Reader, rd': Reader)
    requires Inv(s) && ReaderOk(s, rd) && s.itemSize == 1 && 2 * s.size <= UINT64_RANGE
    requires s.writeIndex < m <= rd.index && m < s.size && s.size - m <= m - s.writeIndex
    requires t.stream == s.stream && t.size == s.size && t.writeIndex == s.writeIndex + (s.size - m)
    requires t.mem == RelocatedMem(s.mem, s.writeIndex, m, m)
    requires rd'.consumed == rd.consumed && rd'.index == rd.index - m
    ensures PlaceOk(t, rd') && t.writeIndex == rd'.index + (|s.stream| - |rd.consumed|)
  {
    RelocatedWindow(s.mem, s.writeIndex, m, s.size, t.mem, rd.index, s.stream[|rd.consumed|..]);
  }

  lemma RelocatedWindow(mem: seq<Byte>, w: nat, m: nat, size: nat, mem': seq<Byte>, index: nat, bytes: seq<Byte>)
    requires |mem| == size && w < m <= index < size && size - m <= m - w
    requires mem' == RelocatedMem(mem, w, m, m)
    requires Circular(mem, index, size, bytes) && |bytes| == w + size - index
    ensures Circular(mem', index - m, size, bytes)
  {
    RelocatedBytes(mem, w, m, size, mem');
    RelocatedCircular(mem, w, m, size, mem', index, bytes);
  }

  /** A reader at the start of an empty buffer stays at the write index. */
  lemma MovesIdle(s: Ring, t: Ring, m: nat, rd: Reader, rd': Reader)
    requires Inv(s) && ReaderOk(s, rd) && |rd.consumed| == |s.stream| && s.writeIndex == 0
    requires 0 < m < s.size && s.size - m <= m && |t.mem| == t.size
    requires t.stream == s.stream && t.size == s.size && t.writeIndex == s.size - m
    requires rd'.consumed == rd.consumed && rd'.index == s.size - m
    ensures PlaceOk(t, rd') && t.writeIndex == rd'.index + (|s.stream| - |rd.consumed|)
  {
  }

  lemma RelocationMovesReader(s: Ring, i: nat, required: nat, j: nat)
    requires Inv(s) && s.itemSize == 1 && 2 * s.size <= UINT64_RANGE
    requires i < |s.readers| && j < |s.readers| && WillRelocate(s, i, required) && Movable(s, s.readers[j])
    ensures RelocationLegal(s, i, required)
    ensures var t := Relocated(s, MinAhead(s.readers, s.writeIndex).value);
            && PlaceOk(t, t.readers[j])
            && t.writeIndex == t.readers[j].index + (|s.stream| - |s.readers[j].consumed|)
  {
    RelocationIsDefined(s, i, required);
    var m := MinAhead(s.readers, s.writeIndex).value;
    var t := Relocated(s, m);
    var rd := s.readers[j];
    assert ReaderOk(s, rd);
    OneByteItems(m, s.itemSize);
    OneByteItems(s.size - m, s.itemSize);
    RelocatedIndexOf(s, rd, m);
    if rd.index > s.writeIndex {
      MovesAhead(s, t, m, rd, t.readers[j]);
    } else {
      TotalsTellFullFromEmpty(s, rd);
      MovesIdle(s, t, m, rd, t.readers[j]);
    }
  }

  lemma RelocationLosesReader(s: Ring, i: nat, required: nat, j: nat)
    requires Inv(s) && s.itemSize == 1 && 2 * s.size <= UINT64_RANGE
    requires i < |s.readers| && j < |s.readers| && WillRelocate(s, i, required) && !Movable(s, s.readers[j])
    ensures RelocationLegal(s, i, required)
    ensures var t := Relocated(s, MinAhead(s.readers, s.writeIndex).value);
            !Follows(t.writeIndex, t.readers[j].index, |s.stream| - |s.readers[j].consumed|, t.size)
  {
    RelocationIsDefined(s, i, required);
    var m := MinAhead(s.readers, s.writeIndex).value;
    var rd := s.readers[j];
    assert ReaderOk(s, rd);
    OneByteItems(s.size - m, s.itemSize);
    RelocatedIndexOf(s, rd, m);
    TotalsTellFullFromEmpty(s, rd);
  }

  /** Relocation keeps a reader's place in the stream if and only if the reader is movable. */
  lemma RelocationKeepsReaderIff(s: Ring, i: nat, required: nat, j: nat)
    requires Inv(s) && s.itemSize == 1 && 2 * s.size <= UINT64_RANGE
    requires i < |s.readers| && j < |s.readers| && WillRelocate(s, i, required)
    ensures RelocationLegal(s, i, required)
    ensures var t := Relocated(s, MinAhead(s.readers, s.writeIndex).value);
            PlaceOk(t, t.readers[j]) <==> Movable(s, s.readers[j])
  {
    if Movable(s, s.readers[j]) {
      RelocationMovesReader(s, i, required, j);
    } else {
      RelocationLosesReader(s, i, required, j);
    }
  }

  // ----- What a relocation does to windows that are out

  /** A producer that was granted space before the relocation goes on storing at the old write index.
      There lies an unread byte now, so every store that changes the array there loses a reader's data. */
  lemma RelocationHitsGrant(s: Ring, i: nat, required: nat, x: Byte)
    requires Inv(s) && s.itemSize == 1 && 2 * s.size <= UINT64_RANGE && i < |s.readers| && WillRelocate(s, i, required)
    ensures RelocationLegal(s, i, required)
    ensures var t := Relocated(s, MinAhead(s.readers, s.writeIndex).value);
            s.writeIndex < |t.mem| &&
            exists j :: 0 <= j < |t.readers| &&
                        (PlaceOk(t.(mem := t.mem[s.writeIndex := x]), t.readers[j]) <==> x == t.mem[s.writeIndex])
  {
    RelocationIsDefined(s, i, required);
    var m := MinAhead(s.readers, s.writeIndex).value;
    var t := Relocated(s, m);
    var j :| 0 <= j < |s.readers| && s.readers[j].index == m;
    RelocationMovesReader(s, i, required, j);
    assert ReaderOk(s, s.readers[j]);
    OneByteItems(s.size - m, s.itemSize);
    RelocatedIndexOf(s, s.readers[j], m);
    StoreLosesByte(t, t.readers[j], s.writeIndex, x);
  }

  /** A store into the unread bytes of a reader that starts at 0. */
  lemma StoreLosesByte(t: Ring, rd: Reader, cell: nat, x: Byte)
    requires PlaceOk(t, rd) && rd.index == 0 && cell < |t.stream| - |rd.consumed|
    ensures cell < |t.mem|
    ensures PlaceOk(t.(mem := t.mem[cell := x]), rd) <==> x == t.mem[cell]
  {
    var bytes := t.stream[|rd.consumed|..];
    assert t.mem[Wrap(0 + cell, t.size)] == bytes[cell];
    if x == t.mem[cell] {
      assert t.mem[cell := x] == t.mem;
    } else {
      assert t.mem[cell := x][Wrap(0 + cell, t.size)] != bytes[cell];
    }
  }

  /** A window that was out for a reader still shows the same bytes right after the relocation, but its
      place has become free: it lies behind the new write index, where later grants reach. */
  lemma RelocationFreesWindow(s: Ring, i: nat, required: nat, j: nat)
    requires Inv(s) && s.itemSize == 1 && 2 * s.size <= UINT64_RANGE && i < |s.readers| && WillRelocate(s, i, required)
    requires j < |s.readers| && s.readers[j].index > s.writeIndex
    ensures RelocationLegal(s, i, required)
    ensures var t := Relocated(s, MinAhead(s.readers, s.writeIndex).value);
            && t.writeIndex <= s.readers[j].index <= |t.mem| == |s.mem|
            && t.mem[s.readers[j].index..] == s.mem[s.readers[j].index..]
  {
    RelocationIsDefined(s, i, required);
    var m := MinAhead(s.readers, s.writeIndex).value;
    OneByteItems(s.size - m, s.itemSize);
    RelocationLeavesEnd(s.mem, s.writeIndex, m, s.readers[j].index);
  }

  lemma RelocationLeavesEnd(mem: seq<Byte>, w: nat, m: nat, k: nat)
    requires w < m <= k <= |mem| && |mem| - m <= m - w
    ensures RelocatedMem(mem, w, m, m)[k..] == mem[k..]
  {
    var n := |mem| - m;
    var moved := Overwrite(mem, n, mem[..w]);
    assert forall c :: k <= c < |mem| ==> moved[c] == mem[c];
    assert forall c :: k <= c < |mem| ==> RelocatedMem(mem, w, m, m)[c] == moved[c];
  }

  // ----- Failing inputs

  /** Ten zero bytes in a buffer of eight, one-byte items, the write index at 2. */
  function ZeroRing(readers: seq<Reader>): Ring {
    var zeros := seq(8, i => 0 as Byte);
    Ring(8, 1, 8, zeros, 2, 10, readers, Idle, zeros + [0, 0])
  }

  function ZeroReader(index: nat, totalRead: nat, held: nat): Reader {
    Reader(index, totalRead, seq(totalRead, i => 0 as Byte), held)
  }

  lemma ZeroReaderOk(index: nat, totalRead: nat, held: nat, readers: seq<Reader>)
    requires index < 8 && totalRead <= 10 && Follows(2, index, 10 - totalRead, 8)
    requires held <= 10 - totalRead && index + held <= 8
    ensures ReaderOk(ZeroRing(readers), ZeroReader(index, totalRead, held))
  {
    var s, rd := ZeroRing(readers), ZeroReader(index, totalRead, held);
    assert rd.consumed == s.stream[..totalRead];
    assert |rd.consumed| == rd.totalRead * 1;
  }

  /** With two-byte items: the invariant holds, the relocation is due, and its memcpy reads behind the array. */
  lemma TwoByteItemsOverrun()
    ensures var zeros := seq(8, i => 0 as Byte);
            var s := Ring(4, 2, 8, zeros, 0, 4, [Reader(4, 2, zeros[..4], 0)], Idle, zeros);
            && Inv(s) && WillRelocate(s, 0, 3)
            && var m := MinAhead(s.readers, s.writeIndex).value;
               m * s.itemSize + (s.size - m) > |s.mem|
  {
    var zeros := seq(8, i => 0 as Byte);
    var s := Ring(4, 2, 8, zeros, 0, 4, [Reader(4, 2, zeros[..4], 0)], Idle, zeros);
    assert ReaderOk(s, s.readers[0]);
    assert MinAhead(s.readers[..0], 0) == None;
    assert MinAhead(s.readers, 0) == Some(4);
  }

  /** With one-byte items: a second reader behind the write index loses its place. */
  lemma ReaderBehindIsLost()
    ensures var s := ZeroRing([ZeroReader(6, 6, 0), ZeroReader(1, 9, 0)]);
            && Inv(s) && WillRelocate(s, 0, 3) && RelocationLegal(s, 0, 3)
            && var t := Relocated(s, MinAhead(s.readers, s.writeIndex).value);
               PlaceOk(t, t.readers[0]) && !PlaceOk(t, t.readers[1])
  {
    var s := ZeroRing([ZeroReader(6, 6, 0), ZeroReader(1, 9, 0)]);
    TwoZeroReaders(s, 1, 9, 0);
    RelocationKeepsReaderIff(s, 0, 3, 0);
    RelocationKeepsReaderIff(s, 0, 3, 1);
  }

  /** Two readers, the first a lap behind: a ring in which the relocation is due. */
  lemma TwoZeroReaders(s: Ring, index: nat, totalRead: nat, held: nat)
    requires index < 8 && totalRead <= 10 && Follows(2, index, 10 - totalRead, 8)
    requires held <= 10 - totalRead && index + held <= 8 && (index <= 2 || index >= 6)
    requires s == ZeroRing([ZeroReader(6, 6, 0), ZeroReader(index, totalRead, held)])
    ensures Inv(s) && WillRelocate(s, 0, 3) && MinAhead(s.readers, s.writeIndex) == Some(6)
  {
    ZeroReaderOk(6, 6, 0, s.readers);
    ZeroReaderOk(index, totalRead, held, s.readers);
    var rs := s.readers;
    assert rs[..1] == [rs[0]] && [rs[0]][..0] == [];
    assert MinAhead([rs[0]], 2) == Some(6);
  }

  /** With a window out: the second reader holds cells 6 and 7, and after the relocation the producer is
      granted exactly the cells from 4 on. */
  lemma HeldWindowIsGranted()
    ensures var s := ZeroRing([ZeroReader(6, 6, 0), ZeroReader(6, 6, 2)]);
            && Inv(s) && WillRelocate(s, 0, 3) && RelocationLegal(s, 0, 3)
            && var t := Relocated(s, MinAhead(s.readers, s.writeIndex).value);
               && t.readers != [] && t.writeIndex == 4 && SpaceAvailable(t) == 4
               && s.readers[1].held == 2 && s.readers[1].index == 6 < t.writeIndex + SpaceAvailable(t)
  {
    var s := ZeroRing([ZeroReader(6, 6, 0), ZeroReader(6, 6, 2)]);
    TwoZeroReaders(s, 6, 6, 2);
    RelocationIsDefined(s, 0, 3);
    var t := Relocated(s, 6);
    assert s.readers[1].index == 6;
    RelocatedIndexOf(s, s.readers[0], 6);
    RelocatedIndexOf(s, s.readers[1], 6);
  }

  /** After relocation every movable reader sees everything it has not read in one window. */
  lemma RelocationMakesContiguous(s: Ring, i: nat, required: nat, j: nat)
    requires Inv(s) && MayRelocate(s) && i < |s.readers| && WillRelocate(s, i, required) && j < |s.readers|
    ensures RelocationLegal(s, i, required)
    ensures var t := Relocated(s, MinAhead(s.readers, s.writeIndex).value);
            && Inv(t)
            && Window(t, t.readers[j]) == |s.stream| - |s.readers[j].consumed|
  {
    RelocationKeepsInv(s, i, required);
    RelocationMovesReader(s, i, required, j);
    var t := Relocated(s, MinAhead(s.readers, s.writeIndex).value);
    WindowIsContiguousPart(t, j);
  }

  /** Windows that are out stay within what is unread, at the place their reader is moved to. */
  lemma RelocationKeepsInv(s: Ring, i: nat, required: nat)
    requires Inv(s) && MayRelocate(s) && i < |s.readers| && WillRelocate(s, i, required)
    ensures RelocationLegal(s, i, required)
    ensures Inv(Relocated(s, MinAhead(s.readers, s.writeIndex).value))
  {
    RelocationIsDefined(s, i, required);
    var m := MinAhead(s.readers, s.writeIndex).value;
    var t := Relocated(s, m);
    OneByteItems(s.size - m, s.itemSize);
    forall j | 0 <= j < |t.readers|
      ensures ReaderOk(t, t.readers[j])
    {
      assert ReaderOk(s, s.readers[j]);
      RelocationMovesReader(s, i, required, j);
    }
  }

  // ----- The other callback: `output_blocked_callback`

  /** The smallest read index. */
  function LeastIndex(readers: seq<Reader>): (m: nat)
    requires readers != []
    ensures forall i :: 0 <= i < |readers| ==> m <= readers[i].index
    ensures exists i :: 0 <= i < |readers| && readers[i].index == m
  {
    if |readers| == 1 then readers[0].index
    else
      var last := |readers| - 1;
      var m := LeastIndex(readers[..last]);
      assert forall i :: 0 <= i < last ==> readers[..last][i] == readers[i];
      if readers[last].index < m then readers[last].index else m
  }

  lemma LeastIndexTurn(readers: seq<Reader>, k: nat)
    requires 1 <= k < |readers|
    ensures var m := LeastIndex(readers[..k]);
            LeastIndex(readers[..k + 1]) == if readers[k].index < m then readers[k].index else m
  {
    assert readers[..k + 1][..k] == readers[..k];
  }

  /** The callback of the producer gets as far as moving data to the start of the array. */
  predicate WillShift(s: Ring, force: bool)
    requires s.itemSize > 0 && s.readers != []
  {
    var m := LeastIndex(s.readers);
    && (SpaceAvailable(s) > 0 || force)
    && 0 < m < s.writeIndex && s.writeIndex - m <= m
  }

  /** The write index moves back with the data; the read indices stay where they were. */
  ghost function AfterOutputBlocked(s: Ring, force: bool): Ring
    requires s.itemSize > 0 && s.readers != [] && s.writeIndex <= |s.mem|
  {
    if WillShift(s, force) then Shifted(s, LeastIndex(s.readers)) else s
  }

  ghost function Shifted(s: Ring, m: nat): Ring
    requires m <= s.writeIndex <= |s.mem|
  {
    s.(mem := Overwrite(s.mem, 0, s.mem[m..s.writeIndex]), writeIndex := s.writeIndex - m)
  }

  /** If data is moved, every reader has lost its place. */
  lemma ShiftLosesEveryReader(s: Ring, force: bool, j: nat)
    requires Inv(s) && j < |s.readers|
    ensures var t := AfterOutputBlocked(s, force);
            PlaceOk(t, t.readers[j]) <==> !WillShift(s, force)
  {
    assert ReaderOk(s, s.readers[j]);
  }

  /** The callback keeps the invariant if and only if it moves nothing. */
  lemma OutputBlockedKeepsInvIff(s: Ring, force: bool)
    requires Inv(s)
    ensures Inv(AfterOutputBlocked(s, force)) <==> !WillShift(s, force)
  {
    ShiftLosesEveryReader(s, force, 0);
    assert ReaderOk(s, s.readers[0]);
    if WillShift(s, force) {
      var t := AfterOutputBlocked(s, force);
      assert !ReaderOk(t, t.readers[0]);
    }
  }

  /** A block that needs space for two items finds space for one, and the callback moves the last byte: the
      reader, which had one byte to read, is then shown two. */
  lemma ShiftConfusesReader()
    ensures var zeros := seq(8, i => 0 as Byte);
            var s := Ring(8, 1, 8, zeros, 7, 7, [ZeroReader(6, 6, 0)], Idle, zeros[..7]);
            && Inv(s) && OnBoundaries(s) && SpaceAvailable(s) == 1 && Window(s, s.readers[0]) == 1
            && WillShift(s, false)
            && var t := AfterOutputBlocked(s, false); Window(t, t.readers[0]) == 2
  {
    var zeros := seq(8, i => 0 as Byte);
    var s := Ring(8, 1, 8, zeros, 7, 7, [ZeroReader(6, 6, 0)], Idle, zeros[..7]);
    assert s.readers[0].consumed == s.stream[..6];
    assert |s.readers[0].consumed| == s.readers[0].totalRead * 1;
    assert PlaceOk(s, s.readers[0]) && CountsOk(s, s.readers[0]);
    EveryByteIsBoundary(s);
    assert LeastIndex(s.readers) == 6;
  }

  // ----- Every run

  ghost function AfterAskForSpace(s: Ring): Ring
    requires Inv(s)
  {
    GrantLeavesRoom(s);
    s.(phase := Granted(SpaceAvailable(s)))
  }

  ghost function AfterPostWrite(s: Ring, items: nat): Ring
    requires Inv(s) && Legal(s, PostWrite(items))
  {
    PostWriteInBounds(s, items);
    Posted(s, items)
  }

  ghost function AfterAskForItems(s: Ring, i: nat): Ring
    requires Inv(s) && Legal(s, AskForItems(i))
  {
    AskForItemsInBounds(s, i);
    s.(readers := s.readers[i := s.readers[i].(held := Window(s, s.readers[i]) / s.itemSize)])
  }

  ghost function AfterPostRead(s: Ring, i: nat, items: nat): Ring
    requires Inv(s) && Legal(s, PostRead(i, items))
  {
    PostReadInBounds(s, i, items);
    s.(readers := s.readers[i := Consumed(s, s.readers[i], items)])
  }

  ghost function Apply(s: Ring, e: Event): Ring
    requires Inv(s) && Legal(s, e)
  {
    match e
    case AskForSpace => AfterAskForSpace(s)
    case Fill(offset, value) => Filled(s, offset, value)
    case PostWrite(items) => AfterPostWrite(s, items)
    case AskForItems(i) => AfterAskForItems(s, i)
    case PostRead(i, items) => AfterPostRead(s, i, items)
    case DropGrant => s.(phase := Idle)
    case DropWindow(i) => Dropped(s, i)
    case InputBlocked(i, required) => AfterInputBlocked(s, i, required)
    case OutputBlocked(force) => AfterOutputBlocked(s, force)
  }

  ghost function AfterInputBlocked(s: Ring, i: nat, required: nat): Ring
    requires Inv(s) && Legal(s, InputBlocked(i, required))
  {
    DropKeepsGuards(s, i, required);
    AfterCallback(Dropped(s, i), i, required)
  }

  /** The callback itself. */
  ghost function AfterCallback(s: Ring, i: nat, required: nat): Ring
    requires Inv(s) && i < |s.readers| && (WillRelocate(s, i, required) ==> MayRelocate(s))
  {
    if WillRelocate(s, i, required) then
      RelocationIsDefined(s, i, required);
      Relocated(s, MinAhead(s.readers, s.writeIndex).value)
    else s
  }

  lemma DropKeepsInv(s: Ring, i: nat)
    requires Inv(s) && i < |s.readers|
    ensures Inv(Dropped(s, i))
  {
    assert ReaderOk(s, s.readers[i]);
    assert ReaderOk(s, Dropped(s, i).readers[i]);
    ReplaceReader(s, i, Dropped(s, i).readers[i]);
  }

  /** Giving up a window makes no difference to a relocation. */
  lemma DropKeepsGuards(s: Ring, i: nat, required: nat)
    requires Inv(s) && i < |s.readers|
    ensures Inv(Dropped(s, i))
    ensures MayRelocate(s) ==> MayRelocate(Dropped(s, i))
    ensures WillRelocate(Dropped(s, i), i, required) <==> WillRelocate(s, i, required)
  {
    DropKeepsInv(s, i);
    SameIndicesSameMin(s.readers, Dropped(s, i).readers, s.writeIndex);
  }

  lemma {:induction false} SameIndicesSameMin(rs: seq<Reader>, rs': seq<Reader>, w: nat)
    requires |rs| == |rs'| && forall k :: 0 <= k < |rs| ==> rs'[k].index == rs[k].index
    ensures MinAhead(rs', w) == MinAhead(rs, w)
  {
    if rs != [] {
      SameIndicesSameMin(rs[..|rs| - 1], rs'[..|rs| - 1], w);
    }
  }

  lemma ReplaceReader(s: Ring, i: nat, rd: Reader)
    requires Inv(s) && i < |s.readers| && ReaderOk(s, rd) && |s.readers[i].consumed| <= |rd.consumed|
    ensures Inv(s.(readers := s.readers[i := rd]))
  {
    var t := s.(readers := s.readers[i := rd]);
    assert forall r :: ReaderOk(s, r) ==> ReaderOk(t, r);
    assert forall bytes: nat :: Room(s, bytes) ==> Room(t, bytes);
  }

  lemma AskForSpaceKeepsInv(s: Ring)
    requires Inv(s)
    ensures Inv(Apply(s, AskForSpace))
  {
    GrantLeavesRoom(s);
    var t := Apply(s, AskForSpace);
    assert forall r :: ReaderOk(s, r) ==> ReaderOk(t, r);
    assert forall bytes: nat :: Room(s, bytes) ==> Room(t, bytes);
  }

  lemma AskForItemsKeepsInv(s: Ring, i: nat)
    requires Inv(s) && i < |s.readers|
    ensures Inv(Apply(s, AskForItems(i)))
  {
    WindowIsContiguousPart(s, i);
    DivBounds(Window(s, s.readers[i]), s.itemSize);
    ReplaceReader(s, i, s.readers[i].(held := Window(s, s.readers[i]) / s.itemSize));
  }

  lemma PostReadKeepsInv(s: Ring, i: nat, items: nat)
    requires Inv(s) && Legal(s, PostRead(i, items))
    ensures Inv(Apply(s, PostRead(i, items)))
  {
    PostReadInBounds(s, i, items);
    var rd := s.readers[i];
    ConsumeKeepsReader(s, rd, items, items * s.itemSize);
    ReplaceReader(s, i, Consumed(s, rd, items));
  }

  lemma StepKeepsInv(s: Ring, e: Event)
    requires Inv(s) && Legal(s, e)
    ensures Inv(Apply(s, e))
  {
    match e
    case AskForSpace => AskForSpaceKeepsInv(s);
    case Fill(offset, value) => FillKeepsInv(s, offset, value);
    case PostWrite(items) => PostWriteKeepsInv(s, items);
    case AskForItems(i) => AskForItemsKeepsInv(s, i);
    case PostRead(i, items) => PostReadKeepsInv(s, i, items);
    case DropGrant => DropGrantKeepsInv(s);
    case DropWindow(i) => DropKeepsInv(s, i);
    case InputBlocked(i, required) => CallbackKeepsInv(s, i, required);
    case OutputBlocked(_) =>
  }

  lemma DropGrantKeepsInv(s: Ring)
    requires Inv(s)
    ensures Inv(s.(phase := Idle))
  {
    var t := s.(phase := Idle);
    assert forall r :: ReaderOk(s, r) ==> ReaderOk(t, r);
  }

  lemma CallbackKeepsInv(s: Ring, i: nat, required: nat)
    requires Inv(s) && Legal(s, InputBlocked(i, required))
    ensures Inv(AfterInputBlocked(s, i, required))
  {
    DropKeepsGuards(s, i, required);
    if WillRelocate(s, i, required) {
      RelocationKeepsInv(Dropped(s, i), i, required);
    }
  }

  lemma StepKeepsBoundaries(s: Ring, e: Event)
    requires Inv(s) && Legal(s, e) && OnBoundaries(s)
    ensures OnBoundaries(Apply(s, e))
  {
    match e
    case PostWrite(items) =>
      StepInBounds(s, e);
      PostKeepsAlignment(s.writeIndex, items, s.numItems, s.itemSize);
    case PostRead(i, items) =>
      StepInBounds(s, e);
      PostKeepsAlignment(s.readers[i].index, items, s.numItems, s.itemSize);
    case InputBlocked(i, required) =>
      DropKeepsGuards(s, i, required);
      if WillRelocate(s, i, required) {
        var t := Apply(s, e);
        EveryByteIsBoundary(t);
      }
    case _ =>
  }

  lemma EveryByteIsBoundary(s: Ring)
    requires s.itemSize == 1
    ensures OnBoundaries(s)
  {
  }

  ghost predicate Run(s: Ring, events: seq<Event>, t: Ring)
    requires Inv(s)
    decreases |events|
  {
    if events == [] then t == s
    else
      && Legal(s, events[0])
      && (StepKeepsInv(s, events[0]); Run(Apply(s, events[0]), events[1..], t))
  }

  /** A new buffer to which `readers` readers have been attached. */
  ghost function Start(numItems: nat, itemSize: nat, mem: seq<Byte>, readers: nat): Ring {
    Ring(numItems, itemSize, numItems * itemSize, mem, 0, 0,
         seq(readers, i => Reader(0, 0, [], 0)), Idle, [])
  }

  lemma StartIsGood(numItems: nat, itemSize: nat, mem: seq<Byte>, readers: nat)
    requires numItems > 0 && itemSize > 0 && |mem| == numItems * itemSize && readers > 0
    ensures Inv(Start(numItems, itemSize, mem, readers)) && OnBoundaries(Start(numItems, itemSize, mem, readers))
  {
    MulMono(1, numItems, itemSize);
    WholeIsAligned(0, itemSize);
    var s := Start(numItems, itemSize, mem, readers);
    assert forall i :: 0 <= i < |s.readers| ==> ReaderOk(s, s.readers[i]);
  }

  lemma {:induction false} RunKeepsInv(s: Ring, events: seq<Event>, t: Ring)
    requires Inv(s) && OnBoundaries(s) && Run(s, events, t)
    ensures Inv(t) && OnBoundaries(t)
    decreases |events|
  {
    if events != [] {
      StepKeepsInv(s, events[0]);
      StepKeepsBoundaries(s, events[0]);
      RunKeepsInv(Apply(s, events[0]), events[1..], t);
    }
  }

  /** After any run: a reader has consumed a prefix of the stream, and its window is the next part of it,
      as far as it does not run over the end of the array. */
  lemma EveryWindowIsStream(numItems: nat, itemSize: nat, mem: seq<Byte>, readers: nat,
                            events: seq<Event>, t: Ring, i: nat)
    requires numItems > 0 && itemSize > 0 && |mem| == numItems * itemSize && readers > 0
    requires (StartIsGood(numItems, itemSize, mem, readers);
              Run(Start(numItems, itemSize, mem, readers), events, t))
    requires i < |t.readers|
    ensures var rd := t.readers[i];
            && 0 <= Window(t, rd) && rd.index + Window(t, rd) <= |t.mem| == t.size
            && rd.consumed + t.mem[rd.index..rd.index + Window(t, rd)] <= t.stream
            && Window(t, rd) == Min(|t.stream| - |rd.consumed|, t.size - rd.index)
            && |t.stream| == t.totalWritten * t.itemSize && |rd.consumed| == rd.totalRead * t.itemSize
  {
    StartIsGood(numItems, itemSize, mem, readers);
    RunKeepsInv(Start(numItems, itemSize, mem, readers), events, t);
    WindowIsContiguousPart(t, i);
    WindowContinuesStream(t, t.readers[i]);
  }

  lemma WindowContinuesStream(s: Ring, rd: Reader)
    requires Inv(s) && ReaderOk(s, rd) && 0 <= Window(s, rd) <= |s.stream| - |rd.consumed|
    requires rd.index + Window(s, rd) <= s.size
    requires s.mem[rd.index..rd.index + Window(s, rd)] == s.stream[|rd.consumed|..|rd.consumed| + Window(s, rd)]
    ensures rd.consumed + s.mem[rd.index..rd.index + Window(s, rd)] == s.stream[..|rd.consumed| + Window(s, rd)]
  {
    assert rd.consumed == s.stream[..|rd.consumed|];
  }

  /** In no run does the buffer block both sides, and in no run does `post_write` throw. */
  lemma RunNeverBlocksBoth(numItems: nat, itemSize: nat, mem: seq<Byte>, readers: nat,
                           events: seq<Event>, t: Ring)
    requires numItems >= 2 && itemSize > 0 && |mem| == numItems * itemSize && readers > 0
    requires (StartIsGood(numItems, itemSize, mem, readers);
              Run(Start(numItems, itemSize, mem, readers), events, t))
    ensures t.itemSize > 0 && t.readers != [] && !BlocksBoth(t)
    ensures forall items: nat :: Legal(t, PostWrite(items)) ==> !WroteTooFar(t, items)
  {
    StartIsGood(numItems, itemSize, mem, readers);
    RunKeepsInv(Start(numItems, itemSize, mem, readers), events, t);
    RunKeepsShape(Start(numItems, itemSize, mem, readers), events, t);
    NeverBlocksBoth(t);
    forall items: nat | Legal(t, PostWrite(items))
      ensures !WroteTooFar(t, items)
    {
      PostWriteInBounds(t, items);
    }
  }

  lemma StepKeepsShape(s: Ring, e: Event)
    requires Inv(s) && Legal(s, e)
    ensures var t := Apply(s, e);
            t.numItems == s.numItems && t.itemSize == s.itemSize && |t.readers| == |s.readers|
  {
    if e.InputBlocked? {
      DropKeepsGuards(s, e.reader, e.required);
    }
  }

  lemma {:induction false} RunKeepsShape(s: Ring, events: seq<Event>, t: Ring)
    requires Inv(s) && Run(s, events, t)
    ensures t.numItems == s.numItems && t.itemSize == s.itemSize && |t.readers| == |s.readers|
    decreases |events|
  {
    if events != [] {
      StepKeepsInv(s, events[0]);
      StepKeepsShape(s, events[0]);
      RunKeepsShape(Apply(s, events[0]), events[1..], t);
    }
  }

  // ----- Windows that are out

  ghost predicate Concerns(e: Event, i: nat) {
    match e
    case AskForItems(j) => i == j
    case PostRead(j, _) => i == j
    case DropWindow(j) => i == j
    case InputBlocked(j, _) => i == j
    case _ => false
  }

  /** The part of the array that a reader was shown and has not yet given back. */
  ghost function Held(s: Ring, i: nat): seq<Byte>
    requires Inv(s) && i < |s.readers|
  {
    HeldIsStream(s, i);
    var rd := s.readers[i];
    s.mem[rd.index..rd.index + rd.held * s.itemSize]
  }

  lemma HeldIsStream(s: Ring, i: nat)
    requires Inv(s) && i < |s.readers|
    ensures var rd := s.readers[i];
            var bytes := rd.held * s.itemSize;
            && rd.index + bytes <= |s.mem| && |rd.consumed| + bytes <= |s.stream|
            && s.mem[rd.index..rd.index + bytes] == s.stream[|rd.consumed|..|rd.consumed| + bytes]
  {
    var rd := s.readers[i];
    assert ReaderOk(s, rd);
    ConsumeReadsStream(s, rd, rd.held * s.itemSize);
  }

  /** This is what the premise on the windows of others is for: no step but the reader's own moves a reader
      that holds something. */
  lemma StepLeavesHolder(s: Ring, e: Event, i: nat)
    requires Inv(s) && Legal(s, e) && i < |s.readers| && s.readers[i].held > 0 && !Concerns(e, i)
    ensures var t := Apply(s, e);
            && i < |t.readers| && t.readers[i] == s.readers[i]
            && t.itemSize == s.itemSize && s.stream <= t.stream
  {
    if e.InputBlocked? {
      DropKeepsGuards(s, e.reader, e.required);
    }
  }

  lemma HeldFollowsStream(s: Ring, t: Ring, i: nat)
    requires Inv(s) && Inv(t) && i < |s.readers| && i < |t.readers| && t.readers[i] == s.readers[i]
    requires t.itemSize == s.itemSize && s.stream <= t.stream
    ensures Held(t, i) == Held(s, i)
  {
    HeldIsStream(s, i);
    HeldIsStream(t, i);
    var rd := s.readers[i];
    PrefixSlice(s.stream, t.stream, |rd.consumed|, |rd.consumed| + rd.held * s.itemSize);
  }

  /** A window stays valid until its own reader moves: no step of the producer or of another reader, a
      relocation asked for by another reader included, changes its place or its contents. */
  lemma {:induction false} HeldWindowIsStable(s: Ring, events: seq<Event>, t: Ring, i: nat)
    requires Inv(s) && Run(s, events, t) && i < |s.readers| && s.readers[i].held > 0
    requires forall k :: 0 <= k < |events| ==> !Concerns(events[k], i)
    ensures Inv(t) && i < |t.readers| && t.readers[i] == s.readers[i] && Held(t, i) == Held(s, i)
    decreases |events|
  {
    if events != [] {
      var u := Apply(s, events[0]);
      StepKeepsInv(s, events[0]);
      StepLeavesHolder(s, events[0], i);
      HeldFollowsStream(s, u, i);
      assert forall k :: 0 <= k < |events| - 1 ==> events[1..][k] == events[k + 1];
      HeldWindowIsStable(u, events[1..], t, i);
    }
  }

  predicate OfProducer(e: Event) {
    e.AskForSpace? || e.Fill? || e.PostWrite? || e.DropGrant? || e.OutputBlocked?
  }

  lemma StepLeavesGrant(s: Ring, e: Event)
    requires Inv(s) && Legal(s, e) && !OfProducer(e) && s.phase.Granted? && s.phase.items > 0
    ensures var t := Apply(s, e);
            && t.phase == s.phase && t.writeIndex == s.writeIndex && t.mem == s.mem
            && t.stream == s.stream && t.itemSize == s.itemSize
  {
    if e.InputBlocked? {
      DropKeepsGuards(s, e.reader, e.required);
    }
  }

  /** The same for the producer: while space is granted, no reader's step moves the write index, changes the
      array or takes the room away. */
  lemma {:induction false} GrantIsStable(s: Ring, events: seq<Event>, t: Ring)
    requires Inv(s) && Run(s, events, t) && s.phase.Granted? && s.phase.items > 0
    requires forall k :: 0 <= k < |events| ==> !OfProducer(events[k])
    ensures t.phase == s.phase && t.writeIndex == s.writeIndex && t.mem == s.mem
    ensures Inv(t) && Room(t, s.phase.items * s.itemSize)
    decreases |events|
  {
    if events != [] {
      StepKeepsInv(s, events[0]);
      StepLeavesGrant(s, events[0]);
      assert forall k :: 0 <= k < |events| - 1 ==> events[1..][k] == events[k + 1];
      GrantIsStable(Apply(s, events[0]), events[1..], t);
    }
  }

  // ----- Callbacks that ask for one item

  /** A reader that lacks one whole item has not wrapped behind the write index, so nothing is moved: with
      readers on item boundaries a callback that asks for one item is legal in any state, and does nothing. */
  lemma OneItemNeverRelocates(s: Ring, i: nat, required: nat)
    requires Inv(s) && OnBoundaries(s) && i < |s.readers| && required <= 1
    ensures Legal(s, InputBlocked(i, required)) && !WillRelocate(s, i, required)
    ensures AfterInputBlocked(s, i, required) == Dropped(s, i)
  {
    var rd := s.readers[i];
    DropKeepsGuards(s, i, required);
    WindowIsContiguousPart(s, i);
    WindowIsAligned(s, i);
    if s.writeIndex < rd.index {
      AlignedPositive(Window(s, rd), s.itemSize);
    }
  }

  /** What callers are held to that stay within their windows and ask for one item. The callback of the
      producer may come too, as long as it moves nothing; without space it never does. */
  ghost predicate AsksForOne(s: Ring, e: Event) {
    if e.InputBlocked? then e.reader < |s.readers| && e.required <= 1 else Legal(s, e)
  }

  /** The executor passes `s_min_items_to_process`, which is 1: its runs need no premise about relocation. */
  ghost predicate ExecutorRun(s: Ring, events: seq<Event>, t: Ring)
    requires Inv(s) && OnBoundaries(s)
    decreases |events|
  {
    if events == [] then t == s
    else
      && AsksForOne(s, events[0])
      && (ExecutorStep(s, events[0]); ExecutorRun(Apply(s, events[0]), events[1..], t))
  }

  lemma ExecutorStep(s: Ring, e: Event)
    requires Inv(s) && OnBoundaries(s) && AsksForOne(s, e)
    ensures Legal(s, e) && Inv(Apply(s, e)) && OnBoundaries(Apply(s, e))
  {
    if e.InputBlocked? {
      OneItemNeverRelocates(s, e.reader, e.required);
    }
    StepKeepsInv(s, e);
    StepKeepsBoundaries(s, e);
  }

  lemma {:induction false} ExecutorRunIsLegal(s: Ring, events: seq<Event>, t: Ring)
    requires Inv(s) && OnBoundaries(s) && ExecutorRun(s, events, t)
    ensures Run(s, events, t) && Inv(t) && OnBoundaries(t)
    decreases |events|
  {
    if events != [] {
      ExecutorStep(s, events[0]);
      ExecutorRunIsLegal(Apply(s, events[0]), events[1..], t);
    }
  }

  /** So for items of any size, any readers and any windows: when every callback asks for one item, each reader
      gets the stream in order, and the buffer blocks both sides only if it has room for one item only. */
  lemma ExecutorRunIsFifo(numItems: nat, itemSize: nat, mem: seq<Byte>, readers: nat,
                          events: seq<Event>, t: Ring)
    requires numItems > 0 && itemSize > 0 && |mem| == numItems * itemSize && readers > 0
    requires (StartIsGood(numItems, itemSize, mem, readers);
              ExecutorRun(Start(numItems, itemSize, mem, readers), events, t))
    ensures forall i :: 0 <= i < |t.readers| ==> ShowsStream(t, t.readers[i])
    ensures Inv(t) && (BlocksBoth(t) <==> numItems == 1 && MostUnread(t) == 0)
    ensures forall items: nat :: Legal(t, PostWrite(items)) ==> !WroteTooFar(t, items)
  {
    var s := Start(numItems, itemSize, mem, readers);
    StartIsGood(numItems, itemSize, mem, readers);
    ExecutorRunIsLegal(s, events, t);
    RunKeepsShape(s, events, t);
    NeverBlocksBoth(t);
    forall i | 0 <= i < |t.readers|
      ensures ShowsStream(t, t.readers[i])
    {
      EveryWindowIsStream(numItems, itemSize, mem, readers, events, t, i);
    }
    forall items: nat | Legal(t, PostWrite(items))
      ensures !WroteTooFar(t, items)
    {
      PostWriteInBounds(t, items);
    }
  }

  /** What a reader has consumed, and then what it would be shown, are the beginning of the stream. */
  ghost predicate ShowsStream(s: Ring, rd: Reader) {
    && 0 <= Window(s, rd) && rd.index + Window(s, rd) <= |s.mem|
    && rd.consumed + s.mem[rd.index..rd.index + Window(s, rd)] <= s.stream
  }

  // ----- A reader that needs several items at once

  predicate ReadsNothing(events: seq<Event>, i: nat) {
    forall k :: 0 <= k < |events| ==> !(events[k].PostRead? && events[k].reader == i)
  }

  /** In some run of the executor, in which reader i waits, there come to be `k` items in its window. */
  ghost predicate CanBeServed(s: Ring, i: nat, k: nat)
    requires Inv(s) && OnBoundaries(s)
  {
    exists events, t :: ExecutorRun(s, events, t) && ReadsNothing(events, i)
                        && i < |t.readers| && Window(t, t.readers[i]) >= k * s.itemSize
  }

  /** A block may need more than one item at once. While it waits its read index stays, and because the
      callback asks for one item nothing is ever moved; so it can get `k` items if and only if they fit before
      the end of the array. Otherwise it waits for ever. */
  lemma ServedIff(s: Ring, i: nat, k: nat)
    requires Inv(s) && OnBoundaries(s) && i < |s.readers| && s.numItems >= 2
    ensures CanBeServed(s, i, k) <==> s.readers[i].index + k * s.itemSize <= s.size
  {
    if CanBeServed(s, i, k) {
      var events, t :| ExecutorRun(s, events, t) && ReadsNothing(events, i)
                       && i < |t.readers| && Window(t, t.readers[i]) >= k * s.itemSize;
      WaitingKeepsPlace(s, events, t, i);
      WindowIsContiguousPart(t, i);
    }
    if s.readers[i].index + k * s.itemSize <= s.size {
      var events, t := Serve(s, i, k);
      WindowIsContiguousPart(t, i);
    }
  }

  ghost predicate SamePlace(s: Ring, t: Ring, i: nat) {
    && t.size == s.size && t.numItems == s.numItems && t.itemSize == s.itemSize
    && i < |s.readers| == |t.readers|
    && t.readers[i].index == s.readers[i].index && t.readers[i].consumed == s.readers[i].consumed
  }

  lemma {:induction false} WaitingKeepsPlace(s: Ring, events: seq<Event>, t: Ring, i: nat)
    requires Inv(s) && OnBoundaries(s) && ExecutorRun(s, events, t) && ReadsNothing(events, i) && i < |s.readers|
    ensures Inv(t) && OnBoundaries(t) && SamePlace(s, t, i)
    decreases |events|
  {
    if events != [] {
      var e := events[0];
      ExecutorStep(s, e);
      WaitingStep(s, e, i);
      assert forall k :: 0 <= k < |events| - 1 ==> events[1..][k] == events[k + 1];
      WaitingKeepsPlace(Apply(s, e), events[1..], t, i);
    }
  }

  lemma WaitingStep(s: Ring, e: Event, i: nat)
    requires Inv(s) && OnBoundaries(s) && AsksForOne(s, e) && Legal(s, e) && i < |s.readers|
    requires !(e.PostRead? && e.reader == i)
    ensures SamePlace(s, Apply(s, e), i)
  {
    if e.InputBlocked? {
      OneItemNeverRelocates(s, e.reader, e.required);
    }
  }

  lemma {:induction false} RunsFollow(s: Ring, a: seq<Event>, u: Ring, b: seq<Event>, t: Ring)
    requires Inv(s) && OnBoundaries(s) && ExecutorRun(s, a, u)
    requires Inv(u) && OnBoundaries(u) && ExecutorRun(u, b, t)
    ensures ExecutorRun(s, a + b, t)
    decreases |a|
  {
    if a == [] {
      assert a + b == b;
    } else {
      ExecutorStep(s, a[0]);
      RunsFollow(Apply(s, a[0]), a[1..], u, b, t);
      ConcatTail(a, b);
    }
  }

  lemma OneStepRun(s: Ring, e: Event)
    requires Inv(s) && OnBoundaries(s) && AsksForOne(s, e) && Legal(s, e)
    ensures Inv(Apply(s, e)) && OnBoundaries(Apply(s, e)) && ExecutorRun(s, [e], Apply(s, e))
  {
    ExecutorStep(s, e);
    assert [e][1..] == [];
  }

  /** `t` is `s` but for reader j. */
  ghost predicate OnlyReader(s: Ring, t: Ring, j: nat) {
    && t == s.(readers := t.readers) && |t.readers| == |s.readers|
    && forall i :: 0 <= i < |s.readers| && i != j ==> t.readers[i] == s.readers[i]
  }

  predicate ReadsOnly(events: seq<Event>, j: nat) {
    forall k :: 0 <= k < |events| ==> events[k].PostRead? ==> events[k].reader == j
  }

  ghost function Unread(s: Ring, j: nat): int
    requires j < |s.readers|
  {
    |s.stream| - |s.readers[j].consumed|
  }

  /** The window of reader j, all of it. */
  lemma WholeWindow(s: Ring, j: nat)
    requires Inv(s) && OnBoundaries(s) && j < |s.readers|
    ensures Window(s, s.readers[j]) == Min(Unread(s, j), s.size - s.readers[j].index)
    ensures Window(s, s.readers[j]) / s.itemSize >= 0
    ensures Window(s, s.readers[j]) / s.itemSize * s.itemSize == Window(s, s.readers[j])
  {
    WindowIsContiguousPart(s, j);
    WindowIsAligned(s, j);
    AlignedIffWhole(Window(s, s.readers[j]), s.itemSize);
    DivBounds(Window(s, s.readers[j]), s.itemSize);
  }

  /** Reader j reads its whole window. */
  lemma ReadWindow(s: Ring, j: nat) returns (events: seq<Event>, t: Ring)
    requires Inv(s) && OnBoundaries(s) && j < |s.readers|
    ensures Inv(t) && OnBoundaries(t) && ExecutorRun(s, events, t) && ReadsOnly(events, j) && OnlyReader(s, t, j)
    ensures Unread(t, j) == Unread(s, j) - Min(Unread(s, j), s.size - s.readers[j].index)
    ensures Unread(t, j) > 0 ==> t.readers[j].index == 0
  {
    var ask := AskForItems(j);
    OneStepRun(s, ask);
    WholeWindow(s, j);
    var u := AfterAskForItems(s, j);
    var read := PostRead(j, u.readers[j].held);
    OneStepRun(u, read);
    t := AfterPostRead(u, j, u.readers[j].held);
    events := [ask] + [read];
    RunsFollow(s, [ask], u, [read], t);
  }

  /** Reader j reads all there is, going round the array if it must. */
  lemma ReadAll(s: Ring, j: nat) returns (events: seq<Event>, t: Ring)
    requires Inv(s) && OnBoundaries(s) && j < |s.readers|
    ensures Inv(t) && OnBoundaries(t) && ExecutorRun(s, events, t) && ReadsOnly(events, j) && OnlyReader(s, t, j)
    ensures Unread(t, j) == 0
  {
    var first, u := ReadWindow(s, j);
    assert ReaderOk(u, u.readers[j]);
    var second;
    second, t := ReadWindow(u, j);
    events := first + second;
    RunsFollow(s, first, u, second, t);
  }

  /** The readers before n, without i, read all there is. */
  lemma {:induction false} OthersCatchUp(s: Ring, i: nat, n: nat) returns (events: seq<Event>, t: Ring)
    requires Inv(s) && OnBoundaries(s) && i < |s.readers| && n <= |s.readers|
    ensures Inv(t) && OnBoundaries(t) && ExecutorRun(s, events, t) && ReadsNothing(events, i)
    ensures t == s.(readers := t.readers) && |t.readers| == |s.readers| && t.readers[i] == s.readers[i]
    ensures forall j :: 0 <= j < n && j != i ==> Unread(t, j) == 0
    decreases n
  {
    if n == 0 {
      events, t := [], s;
    } else {
      var first, u := OthersCatchUp(s, i, n - 1);
      if n - 1 == i {
        events, t := first, u;
      } else {
        var second;
        second, t := ReadAll(u, n - 1);
        events := first + second;
        RunsFollow(s, first, u, second, t);
        forall j | 0 <= j < n - 1 && j != i
          ensures Unread(t, j) == 0
        {
          assert Unread(u, j) == 0;
        }
      }
    }
  }

  lemma UnreadIsAligned(s: Ring, i: nat)
    requires Inv(s) && i < |s.readers|
    ensures Unread(s, i) >= 0 && Aligned(Unread(s, i), s.itemSize)
  {
    var rd := s.readers[i];
    assert ReaderOk(s, rd);
    WholeIsAligned(s.totalWritten, s.itemSize);
    WholeIsAligned(rd.totalRead, s.itemSize);
    AlignedDifference(|s.stream|, |rd.consumed|, s.itemSize);
  }

  /** With the others caught up, nobody has more to read than reader i. */
  lemma MostIsUnread(s: Ring, i: nat)
    requires Inv(s) && i < |s.readers|
    requires forall j :: 0 <= j < |s.readers| && j != i ==> Unread(s, j) == 0
    ensures MostUnread(s) == Unread(s, i)
  {
    SlowestHasMostUnread(s, i);
    UnreadIsAligned(s, i);
    var j := Slowest(s.readers);
    assert MostUnread(s) == Unread(s, j);
  }

  /** And if that ends short of the end of the array, there is space. */
  lemma SpaceForOne(s: Ring, i: nat)
    requires Inv(s) && OnBoundaries(s) && i < |s.readers| && s.numItems >= 2
    requires Unread(s, i) < s.size && MostUnread(s) == Unread(s, i)
    ensures SpaceAvailable(s) >= 1
  {
    SpaceIsContiguousFree(s);
    UnreadIsAligned(s, i);
    WholeIsAligned(s.numItems, s.itemSize);
    FreeIsPositive(s.size, s.writeIndex, s.itemSize);
    FreeIsPositive(s.size, Unread(s, i), s.itemSize);
  }

  lemma FreeIsPositive(size: nat, taken: nat, itemSize: nat)
    requires Aligned(size, itemSize) && Aligned(taken, itemSize) && taken < size
    ensures (size - taken) / itemSize >= 1
  {
    AlignedDifference(size, taken, itemSize);
    AlignedPositive(size - taken, itemSize);
  }

  /** The producer writes one item; all readers stay. */
  lemma WriteOne(s: Ring) returns (events: seq<Event>, t: Ring)
    requires Inv(s) && OnBoundaries(s) && SpaceAvailable(s) >= 1
    ensures Inv(t) && OnBoundaries(t) && ExecutorRun(s, events, t)
    ensures forall k :: 0 <= k < |events| ==> !events[k].PostRead?
    ensures t.readers == s.readers && t.size == s.size && t.numItems == s.numItems && t.itemSize == s.itemSize
    ensures |t.stream| == |s.stream| + s.itemSize
  {
    OneStepRun(s, AskForSpace);
    var u := Apply(s, AskForSpace);
    PostWriteInBounds(u, 1);
    OneStepRun(u, PostWrite(1));
    t := AfterPostWrite(u, 1);
    events := [AskForSpace] + [PostWrite(1)];
    RunsFollow(s, [AskForSpace], u, [PostWrite(1)], t);
  }

  /** One more item comes for reader i. */
  lemma OneMoreItem(s: Ring, i: nat) returns (events: seq<Event>, t: Ring)
    requires Inv(s) && OnBoundaries(s) && i < |s.readers| && s.numItems >= 2
    requires Unread(s, i) < s.size - s.readers[i].index
    ensures Inv(t) && OnBoundaries(t) && ExecutorRun(s, events, t) && ReadsNothing(events, i)
    ensures SamePlace(s, t, i) && Unread(t, i) == Unread(s, i) + s.itemSize
  {
    var first, u := OthersCatchUp(s, i, |s.readers|);
    MostIsUnread(u, i);
    SpaceForOne(u, i);
    var second;
    second, t := WriteOne(u);
    events := first + second;
    RunsFollow(s, first, u, second, t);
  }

  lemma {:induction false} Serve(s: Ring, i: nat, k: nat) returns (events: seq<Event>, t: Ring)
    requires Inv(s) && OnBoundaries(s) && i < |s.readers| && s.numItems >= 2
    requires s.readers[i].index + k * s.itemSize <= s.size
    ensures Inv(t) && OnBoundaries(t) && ExecutorRun(s, events, t) && ReadsNothing(events, i)
    ensures SamePlace(s, t, i) && Unread(t, i) >= k * s.itemSize
    decreases k * s.itemSize - Unread(s, i)
  {
    if Unread(s, i) >= k * s.itemSize {
      events, t := [], s;
    } else {
      var first, u := OneMoreItem(s, i);
      var second;
      second, t := Serve(u, i, k);
      events := first + second;
      RunsFollow(s, first, u, second, t);
    }
  }

  // ----- Between the updates of `post_write`

  /** A reader that looks at the write index after the addition and before the wrap, with the old total,
      computes what it will compute afterwards. */
  lemma UnwrappedWriteIndexReadsSame(s: Ring, i: nat, items: nat)
    requires Inv(s) && Legal(s, PostWrite(items)) && i < |s.readers|
    ensures s.writeIndex + items * s.itemSize <= |s.mem|
    ensures var rd := s.readers[i];
            BytesAvailable(s.writeIndex + items * s.itemSize, s.totalWritten, rd.index, rd.totalRead, s.size)
            == Window(Posted(s, items), rd)
  {
    PostWriteInBounds(s, items);
    var rd := s.readers[i];
    assert ReaderOk(s, rd);
    TotalsTellFullFromEmpty(s, rd);
    NothingPosted(items, s.itemSize);
  }

  lemma NothingPosted(items: nat, itemSize: nat)
    requires itemSize > 0
    ensures items * itemSize == 0 <==> items == 0
  {
    if items > 0 {
      MulMono(1, items, itemSize);
    }
  }

  /** So does a reader that looks after the wrap and before the new total, unless the post has filled the
      whole buffer; then it takes the full buffer for an empty one. */
  lemma WrappedWriteIndexReadsSameIff(s: Ring, i: nat, items: nat)
    requires Inv(s) && Legal(s, PostWrite(items)) && i < |s.readers|
    ensures s.writeIndex + items * s.itemSize <= |s.mem|
    ensures var rd, t := s.readers[i], Posted(s, items);
            var seen := BytesAvailable(t.writeIndex, s.totalWritten, rd.index, rd.totalRead, s.size);
            && (seen == Window(t, rd) <==> items * s.itemSize < s.size)
            && (items * s.itemSize == s.size ==> seen == 0)
  {
    PostWriteInBounds(s, items);
    var rd := s.readers[i];
    assert ReaderOk(s, rd);
    TotalsTellFullFromEmpty(s, rd);
    NothingPosted(items, s.itemSize);
  }

  /** And no grant is as large as that. */
  lemma GrantNeverFills(s: Ring)
    requires Inv(s)
    ensures SpaceAvailable(s) * s.itemSize < s.size
  {
    GrantLeavesRoom(s);
    MulMono(SpaceAvailable(s), s.numItems / 2, s.itemSize);
    MulMono(s.numItems / 2 + 1, s.numItems, s.itemSize);
    MulSplit(s.numItems / 2, 1, s.itemSize);
  }

  // ----- What the steps do to what is written and read

  /** `most` is what the slowest reader still has to read. */
  ghost predicate MostLeft(s: Ring, most: nat) {
    && (forall i :: 0 <= i < |s.readers| ==> |s.stream| - |s.readers[i].consumed| <= most)
    && exists i :: 0 <= i < |s.readers| && |s.stream| - |s.readers[i].consumed| == most
  }

  /** There is exactly one such number. */
  lemma MostLeftIs(s: Ring) returns (most: nat)
    requires Inv(s)
    ensures MostLeft(s, most) && forall m: nat :: MostLeft(s, m) ==> m == most
  {
    forall i | 0 <= i < |s.readers|
      ensures |s.stream| - |s.readers[i].consumed| <= MostUnread(s)
    {
      SlowestHasMostUnread(s, i);
    }
    SlowestHasMostUnread(s, 0);
    most := MostUnread(s);
    assert |s.stream| - |s.readers[Slowest(s.readers)].consumed| == most;
  }

  /** At most half the buffer, before the end of the array, and before the unread bytes of a reader that has
      `most` of them. */
  predicate Grantable(s: Ring, most: nat, items: nat) {
    && items <= s.numItems / 2
    && s.writeIndex + items * s.itemSize <= s.size && most + items * s.itemSize <= s.size
  }

  ghost predicate LargestGrant(s: Ring, items: int) {
    forall most: nat :: MostLeft(s, most) ==>
                          && items >= 0 && Grantable(s, most, items)
                          && forall n: nat :: Grantable(s, most, n) ==> n <= items
  }

  /** A number of items is granted exactly if it is grantable; so the grant is the largest such number. */
  lemma GrantIsLargest(s: Ring, most: nat, items: nat)
    requires Inv(s) && MostLeft(s, most)
    ensures items <= SpaceAvailable(s)
       <==> && items <= s.numItems / 2
            && s.writeIndex + items * s.itemSize <= s.size && most + items * s.itemSize <= s.size
  {
    SlowestHasMostUnread(s, 0);
    var i :| 0 <= i < |s.readers| && |s.stream| - |s.readers[i].consumed| == most;
    SlowestHasMostUnread(s, i);
    assert MostUnread(s) == most;
    SpaceIsContiguousFree(s);
    WholeItemsIff(Min(s.size - s.writeIndex, s.size - most), s.itemSize, items);
  }

  lemma WholeItemsIff(bytes: nat, itemSize: nat, items: nat)
    requires itemSize > 0
    ensures items <= bytes / itemSize <==> items * itemSize <= bytes
  {
    DivBounds(bytes, itemSize);
    if items <= bytes / itemSize {
      MulMono(items, bytes / itemSize, itemSize);
    } else {
      MulMono(bytes / itemSize + 1, items, itemSize);
    }
  }

  lemma GrantIfInv(s: Ring)
    requires s.itemSize > 0 && s.readers != []
    ensures Inv(s) ==> LargestGrant(s, SpaceAvailable(s))
  {
    if Inv(s) {
      GrantLeavesRoom(s);
      forall most: nat | MostLeft(s, most)
        ensures Grantable(s, most, SpaceAvailable(s))
        ensures forall n: nat :: Grantable(s, most, n) ==> n <= SpaceAvailable(s)
      {
        GrantIsLargest(s, most, SpaceAvailable(s));
        forall n: nat | Grantable(s, most, n)
          ensures n <= SpaceAvailable(s)
        {
          GrantIsLargest(s, most, n);
        }
      }
    }
  }

  /** Asking changes the phase alone: the producer then holds that grant. */
  lemma AskForSpaceGrants(s: Ring, most: nat, items: nat)
    requires Inv(s) && MostLeft(s, most)
    ensures var t := Apply(s, AskForSpace);
            && t.phase.Granted? && t == s.(phase := t.phase)
            && (items <= t.phase.items <==> Grantable(s, most, items))
  {
    GrantLeavesRoom(s);
    GrantIsLargest(s, most, items);
  }

  /** A store puts its value into its cell of the window, and changes nothing else. */
  lemma FillStores(s: Ring, offset: nat, value: Byte)
    requires Inv(s) && Legal(s, Fill(offset, value))
    ensures var t := Apply(s, Fill(offset, value));
            && t == s.(mem := t.mem) && |t.mem| == |s.mem| && s.writeIndex + offset < |s.mem|
            && t.mem[s.writeIndex + offset] == value
            && forall k :: 0 <= k < |s.mem| && k != s.writeIndex + offset ==> t.mem[k] == s.mem[k]
  {
    FillKeepsInv(s, offset, value);
  }

  /** Posting appends the bytes that the window holds, that many items of them, and moves no reader. */
  lemma PostWriteAppends(s: Ring, items: nat)
    requires Inv(s) && Legal(s, PostWrite(items))
    ensures var t, bytes := Apply(s, PostWrite(items)), items * s.itemSize;
            && s.writeIndex + bytes <= |s.mem|
            && t.stream == s.stream + s.mem[s.writeIndex..s.writeIndex + bytes]
            && t.totalWritten == s.totalWritten + items && t.phase == Idle
            && t.mem == s.mem && t.readers == s.readers
            && t.numItems == s.numItems && t.itemSize == s.itemSize && t.size == s.size
  {
    PostWriteInBounds(s, items);
  }

  /** Nothing but a post changes the stream. */
  lemma StreamStep(s: Ring, e: Event)
    requires Inv(s) && Legal(s, e) && !e.PostWrite?
    ensures Apply(s, e).stream == s.stream && Apply(s, e).totalWritten == s.totalWritten
  {
    if e.InputBlocked? {
      DropKeepsGuards(s, e.reader, e.required);
    }
  }

  /** A reader is shown as many whole items as it has not read before the end of the array. */
  lemma AskForItemsShows(s: Ring, i: nat)
    requires Inv(s) && i < |s.readers|
    ensures var t, rd := Apply(s, AskForItems(i)), s.readers[i];
            var bytes := Min(|s.stream| - |rd.consumed|, s.size - rd.index);
            && i < |t.readers| && t == s.(readers := s.readers[i := rd.(held := t.readers[i].held)])
            && t.readers[i].held * s.itemSize <= bytes < (t.readers[i].held + 1) * s.itemSize
  {
    WindowIsContiguousPart(s, i);
    DivBounds(Window(s, s.readers[i]), s.itemSize);
  }

  /** A reader that posts a number of items has consumed the next bytes of the stream, that many items of
      them; nothing else changes but its index and its totals. */
  lemma PostReadTakes(s: Ring, i: nat, items: nat)
    requires Inv(s) && Legal(s, PostRead(i, items))
    ensures var t, rd := Apply(s, PostRead(i, items)), s.readers[i];
            var bytes := items * s.itemSize;
            && |rd.consumed| + bytes <= |s.stream|
            && t == s.(readers := t.readers) && |t.readers| == |s.readers|
            && (forall j :: 0 <= j < |s.readers| && j != i ==> t.readers[j] == s.readers[j])
            && t.readers[i].consumed == rd.consumed + s.stream[|rd.consumed|..|rd.consumed| + bytes]
            && t.readers[i].totalRead == rd.totalRead + items && t.readers[i].held == rd.held - items
  {
    PostReadInBounds(s, i, items);
    ConsumeKeepsReader(s, s.readers[i], items, items * s.itemSize);
  }

  /** A callback that moves no data takes the window of its caller back and does nothing else, and a callback of
      the producer that moves none does nothing. */
  lemma QuietCallbacks(s: Ring, e: Event)
    requires Inv(s) && Legal(s, e)
    ensures e.InputBlocked? && !WillRelocate(s, e.reader, e.required) ==>
              Apply(s, e) == s.(readers := s.readers[e.reader := s.readers[e.reader].(held := 0)])
    ensures e.DropWindow? ==> Apply(s, e) == s.(readers := s.readers[e.reader := s.readers[e.reader].(held := 0)])
    ensures e.DropGrant? ==> Apply(s, e) == s.(phase := Idle)
    ensures e.OutputBlocked? ==> Apply(s, e) == s
  {
    if e.InputBlocked? {
      DropKeepsGuards(s, e.reader, e.required);
    }
  }

  /** Whether a callback moves data, said with the reader's bytes and the indices alone: it lacks items
      before the end of the array, has been passed by the write index, and what lies from the first index ahead on
      fits between. */
  lemma WillRelocateIff(s: Ring, i: nat, required: nat)
    requires Inv(s) && i < |s.readers|
    ensures WillRelocate(s, i, required)
       <==> && Min(|s.stream| - |s.readers[i].consumed|, s.size - s.readers[i].index) / s.itemSize < required
            && s.writeIndex < s.readers[i].index
            && exists j :: 0 <= j < |s.readers| && FirstAhead(s, j)
                           && s.size - s.readers[j].index <= s.readers[j].index - s.writeIndex
  {
    WindowIsContiguousPart(s, i);
    if s.writeIndex < s.readers[i].index {
      var m := MinAhead(s.readers, s.writeIndex).value;
      var j :| 0 <= j < |s.readers| && s.readers[j].index == m;
      assert FirstAhead(s, j);
    }
  }

  predicate FirstAhead(s: Ring, j: nat)
    requires j < |s.readers|
  {
    && s.writeIndex < s.readers[j].index
    && forall k :: 0 <= k < |s.readers| && s.writeIndex < s.readers[k].index ==>
                     s.readers[j].index <= s.readers[k].index
  }

  /** Relocation gives every reader the number of items from `m` on less the number it could see, as `size_t`. */
  lemma RelocatedIndexIs(s: Ring, i: nat, m: nat)
    requires Inv(s) && i < |s.readers| && m <= s.size < UINT64_RANGE
    ensures var shown := Min(|s.stream| - |s.readers[i].consumed|, s.size - s.readers[i].index) / s.itemSize;
            RelocatedIndex(s, s.readers[i], m) == ((s.size - m) / s.itemSize - shown) % UINT64_RANGE
  {
    WindowIsContiguousPart(s, i);
    var bytes := Window(s, s.readers[i]);
    QuotientAtMost(bytes, s.itemSize);
    QuotientAtMost(s.size - m, s.itemSize);
    var d := (s.size - m) / s.itemSize - bytes / s.itemSize;
    ModUnique(d, if d < 0 then -1 else 0, if d < 0 then d + UINT64_RANGE else d, UINT64_RANGE);
  }

  lemma QuotientAtMost(a: nat, b: nat)
    requires b > 0
    ensures 0 <= a / b <= a
  {
    DivBounds(a, b);
    if a / b > a {
      MulMono(a + 1, a / b, b);
      MulMono(1, b, a + 1);
    }
  }

  /** Whether the callback of the producer moves data, and what it does to the ring. */
  lemma WillShiftIff(s: Ring, force: bool)
    requires Inv(s)
    ensures WillShift(s, force)
       <==> (SpaceAvailable(s) > 0 || force)
            && exists j :: 0 <= j < |s.readers| && LeastPlaced(s, j) && 0 < s.readers[j].index < s.writeIndex
                           && s.writeIndex - s.readers[j].index <= s.readers[j].index
  {
    var m := LeastIndex(s.readers);
    var j :| 0 <= j < |s.readers| && s.readers[j].index == m;
    assert LeastPlaced(s, j);
  }

  predicate LeastPlaced(s: Ring, j: nat)
    requires j < |s.readers|
  {
    forall k :: 0 <= k < |s.readers| ==> s.readers[j].index <= s.readers[k].index
  }

  lemma ShiftMoves(s: Ring, force: bool, j: nat)
    requires Inv(s) && WillShift(s, force) && j < |s.readers| && LeastPlaced(s, j)
    ensures var t, m := AfterOutputBlocked(s, force), s.readers[j].index;
            && 0 < m < s.writeIndex && t == s.(mem := t.mem, writeIndex := s.writeIndex - m) && |t.mem| == |s.mem|
            && (forall k :: 0 <= k < s.writeIndex - m ==> t.mem[k] == s.mem[m + k])
            && forall k :: s.writeIndex - m <= k < |s.mem| ==> t.mem[k] == s.mem[k]
  {
    var m := s.readers[j].index;
    assert LeastIndex(s.readers) == m;
    ShiftedMoves(s, m);
  }

  lemma ShiftedMoves(s: Ring, m: nat)
    requires m <= s.writeIndex <= |s.mem|
    ensures var t := Shifted(s, m);
            && t == s.(mem := t.mem, writeIndex := s.writeIndex - m) && |t.mem| == |s.mem|
            && (forall k :: 0 <= k < s.writeIndex - m ==> t.mem[k] == s.mem[m + k])
            && forall k :: s.writeIndex - m <= k < |s.mem| ==> t.mem[k] == s.mem[k]
  {
  }

  /** The stores of a producer that fills its window from the start. */
  function Stores(values: seq<Byte>): seq<Event> {
    if values == [] then [] else Stores(values[..|values| - 1]) + [Fill(|values| - 1, values[|values| - 1])]
  }

  lemma {:induction false} StoresFill(s: Ring, values: seq<Byte>) returns (t: Ring)
    requires Inv(s) && s.phase.Granted? && |values| <= s.phase.items * s.itemSize
    ensures Inv(t) && Run(s, Stores(values), t)
    ensures t == s.(mem := t.mem) && |t.mem| == |s.mem| && Stored(t.mem, s.writeIndex, values)
  {
    if values == [] {
      t := s;
    } else {
      var n := |values| - 1;
      var u := StoresFill(s, values[..n]);
      t := FillNext(u, values);
      StoresRun(s, u, values);
    }
  }

  lemma StoresRun(s: Ring, u: Ring, values: seq<Byte>)
    requires values != [] && Inv(s) && Inv(u) && Run(s, Stores(values[..|values| - 1]), u)
    requires Legal(u, Fill(|values| - 1, values[|values| - 1]))
    ensures Run(s, Stores(values), Apply(u, Fill(|values| - 1, values[|values| - 1])))
  {
    var n := |values| - 1;
    RunOneMore(s, Stores(values[..n]), u, Fill(n, values[n]));
  }

  lemma FillNext(u: Ring, values: seq<Byte>) returns (t: Ring)
    requires Inv(u) && values != [] && Legal(u, Fill(|values| - 1, values[|values| - 1]))
    requires Stored(u.mem, u.writeIndex, values[..|values| - 1])
    ensures Inv(t) && t == Apply(u, Fill(|values| - 1, values[|values| - 1]))
    ensures t == u.(mem := t.mem) && |t.mem| == |u.mem| && Stored(t.mem, u.writeIndex, values)
  {
    var n := |values| - 1;
    FillStores(u, n, values[n]);
    StepKeepsInv(u, Fill(n, values[n]));
    t := Apply(u, Fill(n, values[n]));
    StoredSoFar(u.mem, t.mem, u.writeIndex, n, values);
  }

  lemma StoredSoFar(mem: seq<Byte>, mem': seq<Byte>, w: nat, n: nat, values: seq<Byte>)
    requires |values| == n + 1 && w + n < |mem| == |mem'|
    requires Stored(mem, w, values[..n]) && mem'[w + n] == values[n]
    requires forall k :: 0 <= k < |mem| && k != w + n ==> mem'[k] == mem[k]
    ensures Stored(mem', w, values)
  {
    forall k | 0 <= k < n + 1
      ensures mem'[w + k] == values[k]
    {
      assert k < n ==> mem[w..w + n][k] == values[..n][k];
    }
  }

  lemma {:induction false} RunOneMore(s: Ring, events: seq<Event>, u: Ring, e: Event)
    requires Inv(s) && Run(s, events, u) && Inv(u) && Legal(u, e)
    ensures Run(s, events + [e], Apply(u, e))
    decreases |events|
  {
    if events == [] {
      StepKeepsInv(s, e);
      assert events + [e] == [e] && [e][1..] == [];
    } else {
      StepKeepsInv(s, events[0]);
      RunOneMore(Apply(s, events[0]), events[1..], u, e);
      ConcatTail(events, [e]);
    }
  }

  /** A producer that asks for space, stores values in the window it gets and then posts: that is a legal run, as
      long as the values fit the grant, and the values are what the stream grows by. */
  lemma StoredIsPosted(s: Ring, values: seq<Byte>, items: nat) returns (t: Ring)
    requires Inv(s) && items <= SpaceAvailable(s) && |values| == items * s.itemSize
    ensures Inv(t) && Run(s, [AskForSpace] + (Stores(values) + [PostWrite(items)]), t)
    ensures t.stream == s.stream + values && t.readers == s.readers && t.totalWritten == s.totalWritten + items
  {
    StepKeepsInv(s, AskForSpace);
    var u := Apply(s, AskForSpace);
    t := GrantedIsPosted(u, values, items);
    var rest := Stores(values) + [PostWrite(items)];
    assert ([AskForSpace] + rest)[1..] == rest;
  }

  lemma GrantedIsPosted(s: Ring, values: seq<Byte>, items: nat) returns (t: Ring)
    requires Inv(s) && s.phase.Granted? && items <= s.phase.items && |values| == items * s.itemSize
    ensures Inv(t) && Run(s, Stores(values) + [PostWrite(items)], t)
    ensures t.stream == s.stream + values && t.readers == s.readers && t.totalWritten == s.totalWritten + items
  {
    MulMono(items, s.phase.items, s.itemSize);
    var u := StoresFill(s, values);
    PostWriteAppends(u, items);
    StepKeepsInv(u, PostWrite(items));
    t := Apply(u, PostWrite(items));
    RunOneMore(s, Stores(values), u, PostWrite(items));
  }

  // ----- A grant computed while readers move

  predicate OfReader(e: Event) {
    e.AskForItems? || e.PostRead? || e.DropWindow?
  }

  /** The loop of `space_available` goes over the readers while they may read on: between its looks at two
      readers there is a run of reader steps. Run k leads from `states[k]` to `states[k + 1]`, and there the
      loop looks at reader k. */
  ghost predicate Scan(states: seq<Ring>, runs: seq<seq<Event>>) {
    && |states| == |runs| + 1
    && (forall k :: 0 <= k < |states| ==> Inv(states[k]) && |states[k].readers| == |runs|)
    && forall k :: 0 <= k < |runs| ==> ReaderRun(states[k], runs[k], states[k + 1])
  }

  ghost predicate ReaderRun(s: Ring, events: seq<Event>, t: Ring)
    requires Inv(s)
  {
    Run(s, events, t) && forall k :: 0 <= k < |events| ==> OfReader(events[k])
  }

  /** What the scan notes of reader k. */
  ghost function Noted(states: seq<Ring>, k: nat): Reader
    requires k + 1 < |states| && k < |states[k + 1].readers|
  {
    states[k + 1].readers[k]
  }

  /** `t` is `s` after readers have read on. */
  ghost predicate ReadOn(s: Ring, t: Ring) {
    && t.size == s.size && t.writeIndex == s.writeIndex && t.stream == s.stream
    && t.totalWritten == s.totalWritten && t.itemSize == s.itemSize && t.numItems == s.numItems
    && |t.readers| == |s.readers|
    && forall i :: 0 <= i < |s.readers| ==> s.readers[i].totalRead <= t.readers[i].totalRead
  }

  lemma {:induction false} ReaderRunReadsOn(s: Ring, events: seq<Event>, t: Ring)
    requires Inv(s) && ReaderRun(s, events, t)
    ensures Inv(t) && ReadOn(s, t)
    decreases |events|
  {
    if events != [] {
      var u := Apply(s, events[0]);
      assert OfReader(events[0]);
      StepKeepsInv(s, events[0]);
      assert ReadOn(s, u);
      assert forall k :: 0 <= k < |events| - 1 ==> events[1..][k] == events[k + 1];
      ReaderRunReadsOn(u, events[1..], t);
    }
  }

  lemma {:induction false} ScanReadsOn(states: seq<Ring>, runs: seq<seq<Event>>, k: nat)
    requires Scan(states, runs) && k < |states|
    ensures ReadOn(states[k], states[|states| - 1])
    decreases |states| - k
  {
    if k < |states| - 1 {
      assert ReaderRun(states[k], runs[k], states[k + 1]);
      ReaderRunReadsOn(states[k], runs[k], states[k + 1]);
      ScanReadsOn(states, runs, k + 1);
    }
  }

  /** The space before the half-full cap that comes of noting `rd` as the slowest. */
  ghost function SpaceNoted(s: Ring, rd: Reader): int
    requires s.itemSize > 0
  {
    SpaceBefore(s.writeIndex, rd.index, rd.totalRead == s.totalWritten, s.size, s.itemSize)
  }

  /** The scan ends with a grant that leaves room, although each reader was looked at at another time. */
  lemma ScanLeavesRoom(states: seq<Ring>, runs: seq<seq<Event>>, j: nat, granted: nat)
    requires Scan(states, runs) && j < |runs|
    requires forall k :: 0 <= k < |runs| ==> Noted(states, j).totalRead <= Noted(states, k).totalRead
    requires granted <= SpaceNoted(states[j + 1], Noted(states, j))
    ensures Room(states[|runs|], granted * states[|runs|].itemSize)
  {
    var s, t, rd := states[j + 1], states[|runs|], Noted(states, j);
    ScanReadsOn(states, runs, j + 1);
    NotedSpaceFits(s, rd, granted);
    forall i | 0 <= i < |t.readers|
      ensures |t.stream| - |t.readers[i].consumed| + granted * t.itemSize <= t.size
    {
      ScanReadsOn(states, runs, i + 1);
      assert rd.totalRead <= Noted(states, i).totalRead;
      assert ReaderOk(t, t.readers[i]) && ReaderOk(s, rd);
      MulMono(rd.totalRead, t.readers[i].totalRead, s.itemSize);
    }
  }

  lemma NotedSpaceFits(s: Ring, rd: Reader, granted: nat)
    requires Inv(s) && ReaderOk(s, rd) && granted <= SpaceNoted(s, rd)
    ensures s.writeIndex + granted * s.itemSize <= s.size
    ensures |s.stream| - |rd.consumed| + granted * s.itemSize <= s.size
  {
    TotalsTellFullFromEmpty(s, rd);
    var free := Min(s.size - s.writeIndex, s.size - (|s.stream| - |rd.consumed|));
    assert SpaceNoted(s, rd) == free / s.itemSize;
    DivBounds(free, s.itemSize);
    MulMono(granted, free / s.itemSize, s.itemSize);
  }

  // ----- The buffer and its readers

  class BufferReader {
    var readIndex: nat
    var totalRead: nat

    constructor (readIndex: nat)
      ensures this.readIndex == readIndex && totalRead == 0
    {
      this.readIndex, totalRead := readIndex, 0;
    }

    ghost predicate Matches(rd: Reader)
      reads this
    {
      readIndex == rd.index && totalRead == rd.totalRead
    }

    method BytesUnread(buffer: Buffer) returns (n: int)
      ensures n == BytesAvailable(buffer.writeIndex, buffer.totalWritten, readIndex, totalRead, buffer.bufSize)
    {
      var w, r := buffer.writeIndex, readIndex;
      if w < r {
        n := buffer.bufSize - r;
      } else if w == r && totalRead < buffer.totalWritten {
        n := buffer.bufSize - r;
      } else {
        n := w - r;
      }
    }

    method ReadInfo(buffer: Buffer, ghost i: nat) returns (index: nat, items: nat, total: nat)
      requires buffer.Valid() && i < |buffer.readers| && buffer.readers[i] == this
      modifies buffer`ring
      ensures buffer.Valid() && buffer.ring == Apply(old(buffer.ring), AskForItems(i))
      ensures index == buffer.ring.readers[i].index && items == buffer.ring.readers[i].held
      ensures total == buffer.ring.readers[i].totalRead
    {
      WindowIsContiguousPart(buffer.ring, i);
      AskForItemsKeepsInv(buffer.ring, i);
      index, total := readIndex, totalRead;
      var bytes := BytesUnread(buffer);
      items := bytes / buffer.itemSize;
      buffer.ring := Apply(buffer.ring, AskForItems(i));
    }

    method PostRead(buffer: Buffer, ghost i: nat, items: nat)
      requires buffer.Valid() && i < |buffer.readers| && buffer.readers[i] == this
      requires items <= buffer.ring.readers[i].held
      modifies this, buffer`ring
      ensures buffer.Valid() && buffer.ring == Apply(old(buffer.ring), Event.PostRead(i, items))
    {
      PostReadInBounds(buffer.ring, i, items);
      PostReadKeepsInv(buffer.ring, i, items);
      ghost var moved := Consumed(buffer.ring, buffer.ring.readers[i], items);
      ghost var next := buffer.ring.(readers := buffer.ring.readers[i := moved]);
      assert next == Apply(buffer.ring, Event.PostRead(i, items));
      MoveOn(items, items * buffer.itemSize, buffer.bufSize);
      buffer.ring := next;
    }

    method MoveOn(items: nat, bytes: nat, size: nat)
      modifies this
      ensures readIndex == Advanced(old(readIndex), bytes, size) && totalRead == old(totalRead) + items
    {
      readIndex := readIndex + bytes;
      totalRead := totalRead + items;
      if readIndex == size {
        readIndex := 0;
      }
    }

    /** A reader that has too little to read asks for the data to be moved, if it is a lap behind. */
    method InputBlockedCallback(buffer: Buffer, ghost i: nat, required: nat) returns (moved: bool)
      requires buffer.Valid() && i < |buffer.readers| && buffer.readers[i] == this
      requires Legal(buffer.ring, InputBlocked(i, required))
      modifies buffer`ring, buffer`writeIndex, buffer.mem, buffer.readers
      ensures buffer.Valid() && buffer.ring == AfterInputBlocked(old(buffer.ring), i, required)
      ensures moved == WillRelocate(old(buffer.ring), i, required)
    {
      DropKeepsGuards(buffer.ring, i, required);
      buffer.ring := Dropped(buffer.ring, i);
      moved := Callback(buffer, i, required);
    }

    method Callback(buffer: Buffer, ghost i: nat, required: nat) returns (moved: bool)
      requires buffer.Valid() && i < |buffer.readers| && buffer.readers[i] == this
      requires WillRelocate(buffer.ring, i, required) ==> MayRelocate(buffer.ring)
      modifies buffer`ring, buffer`writeIndex, buffer.mem, buffer.readers
      ensures buffer.Valid() && buffer.ring == AfterCallback(old(buffer.ring), i, required)
      ensures moved == WillRelocate(old(buffer.ring), i, required)
    {
      var bytes := BytesUnread(buffer);
      moved := false;
      if bytes / buffer.itemSize < required && buffer.writeIndex < readIndex {
        moved := buffer.AdjustBufferData(i, required);
      }
    }
  }

  class Buffer {
    const numItems: nat
    const itemSize: nat
    const bufSize: nat
    const mem: array<Byte>
    var writeIndex: nat
    var totalWritten: nat
    var readers: seq<BufferReader>
    ghost var ring: Ring

    ghost predicate Matches()
      reads this, mem, readers
    {
      && numItems == ring.numItems && itemSize == ring.itemSize && bufSize == ring.size
      && mem[..] == ring.mem
      && writeIndex == ring.writeIndex && totalWritten == ring.totalWritten
      && ReadersMatch(ring.readers)
    }

    ghost predicate ReadersMatch(rs: seq<Reader>)
      reads this`readers, readers
    {
      && |readers| == |rs|
      && (forall i :: 0 <= i < |readers| ==> readers[i].Matches(rs[i]))
      && (forall i, j :: 0 <= i < j < |readers| ==> readers[i] != readers[j])
    }

    ghost predicate Valid()
      reads this, mem, readers
    {
      Matches() && Inv(ring)
    }

    /** Creates the buffer and attaches its first `n` readers. */
    constructor (numItems: nat, itemSize: nat, n: nat)
      requires numItems > 0 && itemSize > 0 && n > 0
      ensures Valid() && fresh(mem) && ring == Start(numItems, itemSize, mem[..], n)
    {
      this.numItems, this.itemSize, this.bufSize := numItems, itemSize, numItems * itemSize;
      mem := new Byte[numItems * itemSize];
      writeIndex, totalWritten, readers := 0, 0, [];
      new;
      while |readers| < n
        invariant |readers| <= n && writeIndex == totalWritten == 0
        invariant forall i :: 0 <= i < |readers| ==> readers[i].readIndex == readers[i].totalRead == 0
        invariant forall i, j :: 0 <= i < j < |readers| ==> readers[i] != readers[j]
        decreases n - |readers|
      {
        var r := new BufferReader(writeIndex);
        readers := readers + [r];
      }
      ring := Start(numItems, itemSize, mem[..], n);
      StartIsGood(numItems, itemSize, mem[..], n);
    }

    /** The reader that has read least decides how much may be written. */
    method Space() returns (n: int)
      requires Matches() && itemSize > 0 && readers != []
      ensures n == SpaceAvailable(ring) && (Inv(ring) ==> LargestGrant(ring, n))
    {
      var least, index := readers[0].totalRead, readers[0].readIndex;
      assert ring.readers[..1] == [ring.readers[0]];
      for k := 1 to |readers|
        invariant least == ring.readers[Slowest(ring.readers[..k])].totalRead
        invariant index == ring.readers[Slowest(ring.readers[..k])].index
      {
        SlowestTurn(ring.readers, k);
        if readers[k].totalRead < least {
          least, index := readers[k].totalRead, readers[k].readIndex;
        }
      }
      assert ring.readers[..|readers|] == ring.readers;
      var space := (bufSize - writeIndex) / itemSize;
      if index == writeIndex {
        if least != totalWritten {
          space := 0;
        }
      } else if index > writeIndex {
        space := (index - writeIndex) / itemSize;
      }
      GrantIfInv(ring);
      if space == 0 {
        return space;
      }
      n := if space <= numItems / 2 then space else numItems / 2;
    }

    method WriteInfo() returns (index: nat, items: nat, total: nat)
      requires Valid()
      modifies this`ring
      ensures Valid() && ring == Apply(old(ring), AskForSpace)
      ensures index == writeIndex && total == totalWritten && ring.phase == Granted(items)
      ensures LargestGrant(old(ring), items)
    {
      GrantLeavesRoom(ring);
      AskForSpaceKeepsInv(ring);
      items := Space();
      index, total := writeIndex, totalWritten;
      ring := Apply(ring, AskForSpace);
    }

    method Fill(offset: nat, value: Byte)
      requires Valid() && Legal(ring, Event.Fill(offset, value))
      modifies this`ring, mem
      ensures Valid() && ring == Apply(old(ring), Event.Fill(offset, value))
    {
      FillKeepsInv(ring, offset, value);
      mem[writeIndex + offset] := value;
      ring := Apply(ring, Event.Fill(offset, value));
    }

    /** `threw` stands for the exception "Wrote too far into buffer". */
    method PostWrite(items: nat) returns (threw: bool)
      requires Valid() && Legal(ring, Event.PostWrite(items))
      modifies this`writeIndex, this`totalWritten, this`ring
      ensures !threw
      ensures Valid() && ring == Apply(old(ring), Event.PostWrite(items))
    {
      PostWriteInBounds(ring, items);
      PostWriteKeepsInv(ring, items);
      ghost var next := Posted(ring, items);
      assert next == Apply(ring, Event.PostWrite(items));
      writeIndex := writeIndex + items * itemSize;
      if writeIndex == bufSize {
        writeIndex := 0;
      }
      if writeIndex > bufSize {
        return true;
      }
      totalWritten := totalWritten + items;
      ring := next;
      threw := false;
    }

    method SmallestIndexAhead() returns (m: Option<nat>)
      requires Matches()
      ensures m == MinAhead(ring.readers, writeIndex)
    {
      m := None;
      for k := 0 to |readers|
        invariant m == MinAhead(ring.readers[..k], writeIndex)
      {
        MinAheadTurn(ring.readers, k, writeIndex);
        if readers[k].readIndex > writeIndex && (m.None? || readers[k].readIndex < m.value) {
          m := Some(readers[k].readIndex);
        }
      }
      assert ring.readers[..|readers|] == ring.readers;
    }

    method SmallestIndex() returns (m: nat)
      requires Matches() && readers != []
      ensures m == LeastIndex(ring.readers)
    {
      m := readers[0].readIndex;
      assert ring.readers[..1] == [ring.readers[0]];
      for k := 1 to |readers|
        invariant m == LeastIndex(ring.readers[..k])
      {
        LeastIndexTurn(ring.readers, k);
        if readers[k].readIndex < m {
          m := readers[k].readIndex;
        }
      }
      assert ring.readers[..|readers|] == ring.readers;
    }

    /** Moves what the slowest-placed reader has not read to the start of the array, but no read index. */
    method OutputBlockedCallback(force: bool) returns (moved: bool)
      requires Matches() && itemSize > 0 && readers != [] && writeIndex <= bufSize == |ring.mem|
      modifies this`ring, this`writeIndex, mem
      ensures Matches() && ring == AfterOutputBlocked(old(ring), force)
      ensures moved == WillShift(old(ring), force)
    {
      var space := Space();
      var m := SmallestIndex();
      var bytes := writeIndex - m;
      moved := (space > 0 || force) && !(m == 0 || m >= writeIndex) && bytes <= m;
      if moved {
        ShiftDown(m, bytes);
      }
    }

    method ShiftDown(m: nat, bytes: nat)
      requires Matches() && m <= writeIndex <= bufSize == |ring.mem| && bytes == writeIndex - m
      modifies this`ring, this`writeIndex, mem
      ensures Matches() && ring == Shifted(old(ring), m)
    {
      MemMove(mem, 0, m, bytes);
      writeIndex := writeIndex - m;
      ring := Shifted(ring, m);
    }

    /** Shifts the start of the array up, brings its end to the front, and lets the readers follow. */
    method AdjustBufferData(ghost i: nat, ghost required: nat) returns (moved: bool)
      requires Valid() && i < |readers| && (WillRelocate(ring, i, required) ==> MayRelocate(ring))
      requires Window(ring, ring.readers[i]) / itemSize < required && writeIndex < ring.readers[i].index
      modifies this`ring, this`writeIndex, mem, readers
      ensures Valid() && ring == AfterCallback(old(ring), i, required)
      ensures moved == WillRelocate(old(ring), i, required)
    {
      AdjustDecides(ring, i, required);
      moved := AdjustIfRoom();
    }

    /** The data is moved if the gap is wide enough for what stands at the end of the array. */
    method AdjustIfRoom() returns (moved: bool)
      requires Matches() && itemSize > 0 && WellAhead(ring)
      modifies this`ring, this`writeIndex, mem, readers
      ensures Matches() && moved == GapIsWide(old(ring)) && ring == AfterAdjust(old(ring))
    {
      var smallest := SmallestIndexAhead();
      var m := smallest.value;
      var maxBytes := bufSize - m;
      var gap := m - writeIndex;
      moved := !(writeIndex > m || maxBytes > gap);
      if moved {
        Relocate(m, maxBytes);
      }
    }

    method Relocate(m: nat, maxBytes: nat)
      requires Matches() && Relocatable(ring, m) && maxBytes == bufSize - m
      modifies this`ring, this`writeIndex, mem, readers
      ensures Matches() && ring == Relocated(old(ring), m)
    {
      ghost var next := Relocated(ring, m);
      DivBounds(maxBytes, itemSize);
      MulMono(1, itemSize, m);
      var maxItems: nat := maxBytes / itemSize;
      ShiftData(m, maxBytes, m * itemSize, ring.mem);
      FollowReaders(ring, m, maxItems);
      writeIndex := writeIndex + maxItems;
      ring := next;
    }

    method ShiftData(m: nat, maxBytes: nat, src: nat, ghost before: seq<Byte>)
      requires mem[..] == before && |before| == bufSize
      requires writeIndex < m <= bufSize && maxBytes == bufSize - m <= m - writeIndex
      requires m <= src && src + maxBytes <= bufSize
      modifies mem
      ensures mem[..] == RelocatedMem(before, writeIndex, m, src)
    {
      ghost var moved := Overwrite(before, maxBytes, before[..writeIndex]);
      MoveBlock(maxBytes, writeIndex, before, moved);
      CopyBlock(src, maxBytes, moved, RelocatedMem(before, writeIndex, m, src));
    }

    /** The memmove of the start of the array. */
    method MoveBlock(dst: nat, n: nat, ghost before: seq<Byte>, ghost after: seq<Byte>)
      requires dst + n <= mem.Length && mem[..] == before && after == Overwrite(before, dst, before[..n])
      modifies mem
      ensures mem[..] == after
    {
      assert before[0..n] == before[..n];
      MemMove(mem, dst, 0, n);
    }

    /** The memcpy of its end to the front. */
    method CopyBlock(src: nat, n: nat, ghost before: seq<Byte>, ghost after: seq<Byte>)
      requires n <= src && src + n <= mem.Length && mem[..] == before
      requires after == Overwrite(before, 0, before[src..src + n])
      modifies mem
      ensures mem[..] == after
    {
      MemCpy(mem, 0, src, n);
    }

    method FollowReaders(ghost s: Ring, m: nat, maxItems: nat)
      requires itemSize == s.itemSize > 0 && bufSize == s.size && ReadersMatch(s.readers)
      requires writeIndex == s.writeIndex && totalWritten == s.totalWritten
      requires maxItems == (bufSize - m) / itemSize && m <= bufSize
      requires forall i :: 0 <= i < |s.readers| ==> RelocatedIndex(s, s.readers[i], m) >= 0
      modifies readers
      ensures ReadersMatch(RelocatedReaders(s, m))
    {
      for k := 0 to |readers|
        invariant forall i :: 0 <= i < k ==> && readers[i].readIndex == RelocatedIndex(s, s.readers[i], m)
                                             && readers[i].totalRead == s.readers[i].totalRead
        invariant forall i :: k <= i < |readers| ==> readers[i].Matches(s.readers[i])
      {
        var bytes := readers[k].BytesUnread(this);
        var index := maxItems - bytes / itemSize;
        if index < 0 {
          index := index + UINT64_RANGE;
        }
        assert index == RelocatedIndex(s, s.readers[k], m);
        readers[k].readIndex := index;
      }
    }
  }

  predicate GapIsWide(s: Ring) {
    var m := MinAhead(s.readers, s.writeIndex);
    m.Some? && s.size - m.value <= m.value - s.writeIndex
  }

  ghost predicate WellAhead(s: Ring) {
    var m := MinAhead(s.readers, s.writeIndex);
    && m.Some? && s.writeIndex < m.value < s.size
    && (GapIsWide(s) ==> Relocatable(s, m.value))
  }

  ghost function AfterAdjust(s: Ring): Ring
    requires WellAhead(s)
  {
    if GapIsWide(s) then Relocated(s, MinAhead(s.readers, s.writeIndex).value) else s
  }

  /** With the callback's own guard behind it, the width of the gap decides whether data is moved. */
  lemma AdjustDecides(s: Ring, i: nat, required: nat)
    requires Inv(s) && i < |s.readers| && (WillRelocate(s, i, required) ==> MayRelocate(s))
    requires Window(s, s.readers[i]) / s.itemSize < required && s.writeIndex < s.readers[i].index
    ensures WellAhead(s) && (WillRelocate(s, i, required) <==> GapIsWide(s))
    ensures AfterCallback(s, i, required) == AfterAdjust(s) && Inv(AfterAdjust(s))
  {
    var m := MinAhead(s.readers, s.writeIndex);
    RelocationIsInArray(s, m.value);
    if WillRelocate(s, i, required) {
      RelocationKeepsInv(s, i, required);
    }
  }

  lemma RelocationIsInArray(s: Ring, m: nat)
    requires Inv(s) && MinAhead(s.readers, s.writeIndex) == Some(m)
    ensures s.writeIndex < m < s.size
  {
    var k :| 0 <= k < |s.readers| && s.readers[k].index == m;
    assert ReaderOk(s, s.readers[k]);
  }
}
