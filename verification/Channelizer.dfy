/** The polyphase channelizer's commutator: index arithmetic that spreads the input over the filter arms.

    Filters are uninterpreted: `fir(i, w)` is what arm `i` makes of the window `w`. The FFT is left out: the
    result of a turn is the input buffer of the transform.
 */
module Channelizer {
  import opened Arith
  import opened Memory

  // ----- Closed forms

  /** `taps` samples of one channel, from interleaved input position `start` on. */
  function Window<T>(input: seq<T>, nchans: nat, taps: nat, start: int): (w: seq<T>)
    requires 0 <= start && (taps > 0 ==> start + (taps - 1) * nchans < |input|)
    ensures |w| == taps
  {
    seq(taps, t requires 0 <= t < taps =>
          MulMono(t, taps - 1, nchans); input[start + t * nchans])
  }

  /** `d_idxlut[j]` */
  function Lut(nchans: nat, r: nat, j: nat): int
    requires nchans > 0
  {
    nchans - (j + r) % nchans - 1
  }

  /** The slot of the FFT input that arm `i` feeds on turn `k`, counted from 1. */
  function Slot(nchans: nat, r: nat, k: nat, i: nat): int
    requires nchans > 0
  {
    nchans - 1 - (k * r - 1 - i + r) % nchans
  }

  /** The channel that arm `i` takes its window from when the commutator stands at `last`. */
  function ChannelOf(nchans: nat, last: nat, i: nat): int {
    if i <= last then last - i else last + nchans - i
  }

  lemma ModShift(a: int, q: int, n: nat)
    requires n > 0
    ensures (a + q * n) % n == a % n
  {
    assert a + q * n == (a / n + q) * n + a % n;
    ModUnique(a + q * n, a / n + q, a % n, n);
  }

  lemma LutCases(nchans: nat, r: nat, j: nat)
    requires 1 <= r <= nchans && j < nchans
    ensures Lut(nchans, r, j) == if j + r < nchans then nchans - j - r - 1 else 2 * nchans - j - r - 1
  {
    if j + r < nchans {
      ModUnique(j + r, 0, j + r, nchans);
    } else {
      ModUnique(j + r, 1, j + r - nchans, nchans);
    }
  }

  /** The index table is a permutation of the FFT slots, for any rate ratio in 1..nchans. */
  lemma LutIsPermutation(nchans: nat, r: nat)
    requires 1 <= r <= nchans
    ensures forall j :: 0 <= j < nchans ==> 0 <= Lut(nchans, r, j) < nchans
    ensures forall j, k :: 0 <= j < k < nchans ==> Lut(nchans, r, j) != Lut(nchans, r, k)
    ensures forall s :: 0 <= s < nchans ==>
                          var j := LutInverse(nchans, r, s); 0 <= j < nchans && Lut(nchans, r, j) == s
  {
    forall j: nat | j < nchans
      ensures Lut(nchans, r, j) == if j + r < nchans then nchans - j - r - 1 else 2 * nchans - j - r - 1
    {
      LutCases(nchans, r, j);
    }
  }

  function LutInverse(nchans: nat, r: nat, s: nat): int {
    if s + r < nchans then nchans - 1 - s - r else 2 * nchans - 1 - s - r
  }

  /** Where the commutator stands on turn `k`: after `n` whole rounds, at arm `last`. */
  predicate Stands(nchans: nat, r: nat, k: nat, n: nat, last: nat) {
    1 <= r <= nchans && 1 <= n && last < nchans && n * nchans + last == nchans + k * r - 1
  }

  /** The table entry of the channel an arm reads is the closed form of its slot. */
  lemma LutIsSlot(nchans: nat, r: nat, k: nat, n: nat, last: nat, i: nat)
    requires Stands(nchans, r, k, n, last) && i < nchans && k >= 1
    ensures 0 <= ChannelOf(nchans, last, i) < nchans
    ensures Lut(nchans, r, ChannelOf(nchans, last, i)) == Slot(nchans, r, k, i)
  {
    var j := ChannelOf(nchans, last, i);
    var rounds := if i <= last then n - 1 else n - 2;
    RoundsApart(nchans, n);
    SlotIsLut(nchans, r, j, k * r - 1 - i, rounds);
  }

  lemma RoundsApart(nchans: nat, n: nat)
    ensures (n - 1) * nchans == n * nchans - nchans && (n - 2) * nchans == n * nchans - 2 * nchans
  {
  }

  /** Samples whole rounds apart go to the same slot. */
  lemma SlotIsLut(nchans: nat, r: nat, j: nat, a: int, rounds: int)
    requires nchans > 0 && a == j + rounds * nchans
    ensures nchans - 1 - (a + r) % nchans == Lut(nchans, r, j)
  {
    ModShift(j + r, rounds, nchans);
  }

  /** On every turn each arm feeds one slot and each slot is fed by one arm. */
  lemma SlotsArePermutation(nchans: nat, r: nat, k: nat, n: nat, last: nat)
    requires Stands(nchans, r, k, n, last) && k >= 1
    ensures forall i :: 0 <= i < nchans ==> 0 <= Slot(nchans, r, k, i) < nchans
    ensures forall i, j :: 0 <= i < j < nchans ==> Slot(nchans, r, k, i) != Slot(nchans, r, k, j)
  {
    LutIsPermutation(nchans, r);
    forall i | 0 <= i < nchans
      ensures 0 <= ChannelOf(nchans, last, i) < nchans
      ensures Lut(nchans, r, ChannelOf(nchans, last, i)) == Slot(nchans, r, k, i)
    {
      LutIsSlot(nchans, r, k, n, last, i);
    }
    forall i, j | 0 <= i < j < nchans
      ensures Slot(nchans, r, k, i) != Slot(nchans, r, k, j)
    {
      assert ChannelOf(nchans, last, i) != ChannelOf(nchans, last, j);
    }
  }

  // ----- Deinterleaving

  ghost predicate Deinterleaved<T>(rows: seq<seq<T>>, input: seq<T>, nchans: nat, total: nat) {
    && |rows| == nchans && total * nchans <= |input|
    && forall j :: 0 <= j < nchans ==> RowOf(rows[j], input, nchans, j, total)
  }

  ghost predicate RowOf<T>(row: seq<T>, input: seq<T>, nchans: nat, j: nat, total: nat)
    requires j < nchans
  {
    && |row| == total && total * nchans <= |input|
    && forall i :: 0 <= i < total ==> (InRange(i, total, j, nchans); row[i] == input[i * nchans + j])
  }

  lemma InRange(i: nat, total: nat, j: nat, nchans: nat)
    requires i < total && j < nchans
    ensures i * nchans + j < total * nchans
  {
    MulMono(i + 1, total, nchans);
    MulSplit(i, 1, nchans);
  }

  method Deinterleave<T>(input: seq<T>, nchans: nat, total: nat) returns (rows: seq<seq<T>>)
    requires total * nchans <= |input|
    ensures Deinterleaved(rows, input, nchans, total)
  {
    rows := [];
    for j := 0 to nchans
      invariant |rows| == j && forall c :: 0 <= c < j ==> RowOf(rows[c], input, nchans, c, total)
    {
      var row := [];
      for i := 0 to total
        invariant |row| == i
        invariant forall c :: 0 <= c < i ==> (InRange(c, total, j, nchans); row[c] == input[c * nchans + j])
      {
        InRange(i, total, j, nchans);
        row := row + [input[i * nchans + j]];
      }
      rows := rows + [row];
    }
  }

  /** A contiguous window of a row is every `nchans`-th sample of the input. */
  lemma RowWindow<T>(rows: seq<seq<T>>, input: seq<T>, nchans: nat, total: nat, j: nat, n: nat, taps: nat)
    requires Deinterleaved(rows, input, nchans, total) && j < nchans && n + taps <= total
    ensures taps > 0 ==> n * nchans + j + (taps - 1) * nchans < |input|
    ensures rows[j][n..n + taps] == Window(input, nchans, taps, n * nchans + j)
  {
    if taps > 0 {
      InRange(n + taps - 1, total, j, nchans);
      MulSplit(n, taps - 1, nchans);
    }
    var v, w := rows[j][n..n + taps], Window(input, nchans, taps, n * nchans + j);
    forall t | 0 <= t < taps
      ensures v[t] == w[t]
    {
      assert RowOf(rows[j], input, nchans, j, total);
      MulSplit(n, t, nchans);
    }
  }

  // ----- The block

  /** Turns the outer loop takes: whole advances by `r` samples that fit into `toConsume` rounds. */
  function Turns(nchans: nat, r: nat, toConsume: nat): nat
    requires r > 0
  {
    toConsume * nchans / r
  }

  /** The smallest number of turns that moves the commutator by whole rounds. */
  predicate IsOutputMultiple(nchans: nat, r: nat, m: nat)
    requires nchans >= 1
  {
    && m >= 1 && (m * r) % nchans == 0
    && forall n :: 1 <= n < m ==> (n * r) % nchans != 0
  }

  /** The filtering rounds after which the commutator stands where it stood before. */
  method OutputMultiple(nchans: nat, r: nat) returns (m: nat)
    requires 1 <= r <= nchans
    ensures IsOutputMultiple(nchans, r, m)
  {
    m := 1;
    WholeIsAligned(r, nchans);
    while (m * r) % nchans != 0
      invariant 1 <= m <= nchans
      invariant forall n :: 1 <= n < m ==> (n * r) % nchans != 0
      decreases nchans - m
    {
      assert m != nchans by {
        assert nchans * r == r * nchans;
      }
      m := m + 1;
    }
  }

  /** Whole rounds come at the multiples of that number and nowhere else. */
  lemma WholeRoundsIff(nchans: nat, r: nat, least: nat, m: nat)
    requires 1 <= r <= nchans && IsOutputMultiple(nchans, r, least)
    ensures (m * r) % nchans == 0 <==> m % least == 0
  {
    QuotientAndRest(m, least);
    WholeRoundsAt(nchans, r, least, m, m / least, m % least);
  }

  lemma WholeRoundsAt(nchans: nat, r: nat, least: nat, m: nat, q: nat, rest: nat)
    requires 1 <= r <= nchans && IsOutputMultiple(nchans, r, least) && rest < least && m == q * least + rest
    ensures (m * r) % nchans == 0 <==> rest == 0
  {
    MulSplit(q * least, rest, r);
    WholeRoundsShift(nchans, r, least, q, rest);
    if rest == 0 {
      ModUnique(0, 0, 0, nchans);
    }
  }

  lemma WholeRoundsShift(nchans: nat, r: nat, least: nat, q: nat, rest: nat)
    requires nchans >= 1 && (least * r) % nchans == 0
    ensures (q * least * r + rest * r) % nchans == (rest * r) % nchans
  {
    var p := least * r / nchans;
    assert least * r == p * nchans;
    Regroup(q, least, r, p, nchans);
    ModShift(rest * r, q * p, nchans);
  }

  lemma Regroup(q: int, a: int, r: int, p: int, n: int)
    requires a * r == p * n
    ensures q * a * r == q * p * n
  {
    assert q * a * r == q * (a * r);
    assert q * p * n == q * (p * n);
  }

  /** All arms feed the same slots again exactly after multiples of the output multiple; the input has
      then moved on by a whole number of rounds. */
  lemma SlotsRepeatIff(nchans: nat, r: nat, least: nat, k: nat, m: nat)
    requires 1 <= r <= nchans && IsOutputMultiple(nchans, r, least)
    ensures m % least == 0 <==> forall i :: 0 <= i < nchans ==> Slot(nchans, r, k + m, i) == Slot(nchans, r, k, i)
  {
    WholeRoundsIff(nchans, r, least, m);
    SlotsRepeatAfter(nchans, r, k, m);
  }

  lemma SlotsRepeatAfter(nchans: nat, r: nat, k: nat, m: nat)
    requires 1 <= r <= nchans
    ensures (m * r) % nchans == 0
       <==> forall i :: 0 <= i < nchans ==> Slot(nchans, r, k + m, i) == Slot(nchans, r, k, i)
  {
    MulSplit(k, m, r);
    var q, b := m * r / nchans, m * r;
    if b % nchans == 0 {
      assert b == q * nchans;
      forall i | 0 <= i < nchans
        ensures Slot(nchans, r, k + m, i) == Slot(nchans, r, k, i)
      {
        ModShift(k * r - 1 - i + r, q, nchans);
      }
    } else {
      var a := k * r - 1 + r;
      assert Slot(nchans, r, k, 0) == nchans - 1 - a % nchans;
      assert Slot(nchans, r, k + m, 0) == nchans - 1 - (a + b) % nchans;
      SameRemainder(a, b, nchans);
    }
  }

  lemma SameRemainder(a: int, b: int, n: nat)
    requires n > 0
    ensures (a + b) % n == a % n ==> b % n == 0
  {
    if (a + b) % n == a % n {
      var q := (a + b) / n - a / n;
      assert b == q * n + 0;
      ModUnique(b, q, 0, n);
    }
  }

  // ----- What is reported and what is written

  /** `rintf` of `reported * r / nchans` goes up: to the nearest integer, and from the middle to the even one. */
  predicate RoundsUp(nchans: nat, r: nat, reported: nat)
    requires nchans >= 1
  {
    var q, rest := reported * r / nchans, reported * r % nchans;
    2 * rest > nchans || (2 * rest == nchans && q % 2 == 1)
  }

  /** The rounds `work` consumes when it reports `reported` output items. */
  function ToConsume(nchans: nat, r: nat, reported: nat): nat
    requires nchans >= 1
  {
    reported * r / nchans + if RoundsUp(nchans, r, reported) then 1 else 0
  }

  /** This is the rounding meant: no integer is nearer, and in the middle the even one is taken. */
  lemma ToConsumeIsNearest(nchans: nat, r: nat, reported: nat)
    requires nchans >= 1
    ensures var d := 2 * (ToConsume(nchans, r, reported) * nchans - reported * r);
            && 0 - nchans <= d <= nchans
            && (d == nchans || d == 0 - nchans ==> ToConsume(nchans, r, reported) % 2 == 0)
  {
    var q := reported * r / nchans;
    assert reported * r == q * nchans + reported * r % nchans;
    MulSplit(q, 1, nchans);
  }

  /** How many items the turns write, compared with what is reported. */
  lemma WrittenItems(nchans: nat, r: nat, reported: nat)
    requires 1 <= r <= nchans
    ensures var written := Turns(nchans, r, ToConsume(nchans, r, reported));
            var rest := reported * r % nchans;
            if rest == 0 then written == reported
            else if RoundsUp(nchans, r, reported) then written == reported + (nchans - rest) / r
            else written < reported
  {
    var a := reported * r;
    var q, rest := a / nchans, a % nchans;
    assert a == q * nchans + rest;
    MulSplit(q, 1, nchans);
    if rest == 0 {
      ModUnique(a, reported, 0, r);
    } else if RoundsUp(nchans, r, reported) {
      var more := nchans - rest;
      assert (q + 1) * nchans == (reported + more / r) * r + more % r by {
        MulSplit(reported, more / r, r);
        assert more == more / r * r + more % r;
      }
      ModUnique((q + 1) * nchans, reported + more / r, more % r, r);
    } else {
      DivBounds(q * nchans, r);
      var written := q * nchans / r;
      if reported <= written {
        MulMono(reported, written, r);
      }
    }
  }

  /** Everything reported has been written if and only if nothing is rounded, or it is rounded up. */
  lemma ReportedItemsAreFilledIff(nchans: nat, r: nat, reported: nat)
    requires 1 <= r <= nchans
    ensures reported <= Turns(nchans, r, ToConsume(nchans, r, reported))
       <==> reported * r % nchans == 0 || RoundsUp(nchans, r, reported)
  {
    WrittenItems(nchans, r, reported);
  }

  /** Exactly what is reported has been written if and only if nothing is rounded, or it is rounded up by
      less than one turn. Otherwise items are reported that were not written, or written and not reported. */
  lemma ReportedIsWrittenIff(nchans: nat, r: nat, reported: nat)
    requires 1 <= r <= nchans
    ensures Turns(nchans, r, ToConsume(nchans, r, reported)) == reported
       <==> reported * r % nchans == 0 || (RoundsUp(nchans, r, reported) && nchans - reported * r % nchans < r)
  {
    var rest := reported * r % nchans;
    WrittenItems(nchans, r, reported);
    if 0 < rest {
      DivBounds(nchans - rest, r);
      if r <= nchans - rest {
        PositiveQuotient(nchans - rest, r);
      }
    }
  }

  /** With four channels and a ratio of 1, one item is reported and none written; */
  lemma ReportedButNotWritten()
    ensures ToConsume(4, 1, 1) == 0 && Turns(4, 1, ToConsume(4, 1, 1)) == 0 < 1
  {
  }

  /** and of four items written three are reported. */
  lemma WrittenButNotReported()
    ensures ToConsume(4, 1, 3) == 1 && Turns(4, 1, ToConsume(4, 1, 3)) == 4 > 3
  {
  }

  lemma ToConsumeAtMost(nchans: nat, r: nat, reported: nat)
    requires 1 <= r <= nchans
    ensures ToConsume(nchans, r, reported) <= reported
  {
    ToConsumeIsNearest(nchans, r, reported);
    MulMono(r, nchans, reported);
    var c := ToConsume(nchans, r, reported);
    if reported < c {
      MulMono(reported + 1, c, nchans);
      MulSplit(reported, 1, nchans);
    }
  }

  /** The windows of all turns lie inside the rows, when `work` reports what the history leaves. */
  lemma WindowsFit(nchans: nat, r: nat, taps: nat, total: nat, reported: nat)
    requires 1 <= r <= nchans && reported + nchans * (taps + 1) == total + 1
    ensures ToConsume(nchans, r, reported) + taps <= total
  {
    ToConsumeAtMost(nchans, r, reported);
    MulMono(1, nchans, taps + 1);
  }

  /** `work` reports the rounds it looks at, less the history of nchans * (taps + 1), plus 1, in unsigned
      arithmetic. With the input it insists on, that wraps exactly when the output has little room. */
  lemma ReportedWrapsIff(nchans: nat, taps: nat, ninput: nat, noutput: nat)
    requires nchans >= 1 && nchans * (taps + 1) * nchans <= ninput
    ensures var total := Min(ninput / nchans, noutput + (taps + 1));
            total + 1 < nchans * (taps + 1) <==> noutput + taps + 2 < nchans * (taps + 1)
  {
    var history := nchans * (taps + 1);
    DivBounds(ninput, nchans);
    if ninput / nchans < history {
      MulMono(ninput / nchans + 1, history, nchans);
    }
  }

  lemma WindowBehind<T>(input: seq<T>, nchans: nat, taps: nat, base: nat, start: int)
    requires base <= |input| && 0 <= start && (taps > 0 ==> start + (taps - 1) * nchans < |input[base..]|)
    ensures Window(input[base..], nchans, taps, start) == Window(input, nchans, taps, base + start)
  {
    var v, w := Window(input[base..], nchans, taps, start), Window(input, nchans, taps, base + start);
    forall t | 0 <= t < taps
      ensures v[t] == w[t]
    {
      MulMono(t, taps - 1, nchans);
    }
  }

  // ----- Call after call

  /** Input consumed by calls of so many rounds each. */
  function ConsumedBy(nchans: nat, calls: seq<nat>): nat {
    if calls == [] then 0 else ConsumedBy(nchans, calls[..|calls| - 1]) + calls[|calls| - 1] * nchans
  }

  function TurnsOf(nchans: nat, r: nat, calls: seq<nat>): nat
    requires r > 0
  {
    if calls == [] then 0
    else TurnsOf(nchans, r, calls[..|calls| - 1]) + Turns(nchans, r, calls[|calls| - 1])
  }

  /** What calls consume beyond their last turn. */
  function Skipped(nchans: nat, r: nat, calls: seq<nat>): nat
    requires r > 0
  {
    if calls == [] then 0
    else Skipped(nchans, r, calls[..|calls| - 1]) + calls[|calls| - 1] * nchans % r
  }

  lemma {:induction false} CallsAddUp(nchans: nat, r: nat, calls: seq<nat>)
    requires r > 0
    ensures ConsumedBy(nchans, calls) == TurnsOf(nchans, r, calls) * r + Skipped(nchans, r, calls)
  {
    if calls != [] {
      var init, c := calls[..|calls| - 1], calls[|calls| - 1];
      CallsAddUp(nchans, r, init);
      QuotientAndRest(c * nchans, r);
      MulSplit(TurnsOf(nchans, r, init), Turns(nchans, r, c), r);
    }
  }

  /** What calls consume, and the turns they take, add up over the calls. */
  lemma {:induction false} CallsConcat(nchans: nat, r: nat, calls: seq<nat>, more: seq<nat>)
    requires r > 0
    ensures ConsumedBy(nchans, calls + more) == ConsumedBy(nchans, calls) + ConsumedBy(nchans, more)
    ensures TurnsOf(nchans, r, calls + more) == TurnsOf(nchans, r, calls) + TurnsOf(nchans, r, more)
  {
    if more == [] {
      assert calls + more == calls;
    } else {
      CallsConcat(nchans, r, calls, more[..|more| - 1]);
      assert (calls + more)[..|calls + more| - 1] == calls + more[..|more| - 1];
    }
  }

  lemma OneCall(nchans: nat, r: nat, c: nat)
    requires r > 0
    ensures ConsumedBy(nchans, [c]) == c * nchans && TurnsOf(nchans, r, [c]) == c * nchans / r
  {
    assert [c][..0] == [];
  }

  lemma {:induction false} NothingSkippedIff(nchans: nat, r: nat, calls: seq<nat>)
    requires r > 0
    ensures Skipped(nchans, r, calls) == 0 <==> forall j :: 0 <= j < |calls| ==> calls[j] * nchans % r == 0
  {
    if calls != [] {
      var init, c := calls[..|calls| - 1], calls[|calls| - 1];
      NothingSkippedIff(nchans, r, init);
      assert forall j :: 0 <= j < |init| ==> init[j] == calls[j];
    }
  }

  /** The commutator starts anew with every call. Each window of the next call lies further on than if one
      commutator had gone on turning, by all the samples that the calls before have skipped. */
  lemma NextCallIsAhead(nchans: nat, r: nat, calls: seq<nat>, k: nat, i: nat)
    requires r > 0
    ensures ConsumedBy(nchans, calls) + (nchans + k * r - 1 - i)
         == nchans + (TurnsOf(nchans, r, calls) + k) * r - 1 - i + Skipped(nchans, r, calls)
  {
    CallsAddUp(nchans, r, calls);
    MulSplit(TurnsOf(nchans, r, calls), k, r);
  }

  /** The next call goes on as turn TurnsOf + 1, TurnsOf + 2, ... of one commutator over the whole stream. */
  ghost predicate GoesOn(nchans: nat, r: nat, calls: seq<nat>)
    requires nchans > 0 && r > 0
  {
    forall k: nat, i: nat :: 1 <= k && i < nchans ==> GoesOnAt(nchans, r, calls, k, i)
  }

  ghost predicate GoesOnAt(nchans: nat, r: nat, calls: seq<nat>, k: nat, i: nat)
    requires nchans > 0 && r > 0
  {
    var before := TurnsOf(nchans, r, calls);
    && ConsumedBy(nchans, calls) + (nchans + k * r - 1 - i) == nchans + (before + k) * r - 1 - i
    && Slot(nchans, r, k, i) == Slot(nchans, r, before + k, i)
  }

  /** A sequence of calls works as one commutator if and only if every call consumes a multiple of `r`
      samples, that is, whole turns. */
  lemma CallsGoOnIff(nchans: nat, r: nat, calls: seq<nat>)
    requires 1 <= r <= nchans
    ensures GoesOn(nchans, r, calls) <==> forall j :: 0 <= j < |calls| ==> calls[j] * nchans % r == 0
  {
    NothingSkippedIff(nchans, r, calls);
    if Skipped(nchans, r, calls) == 0 {
      forall k: nat, i: nat | 1 <= k && i < nchans
        ensures GoesOnAt(nchans, r, calls, k, i)
      {
        NextCallIsAhead(nchans, r, calls, k, i);
        NextCallSlots(nchans, r, calls, k, i);
      }
    } else {
      assert !GoesOnAt(nchans, r, calls, 1, 0) by {
        NextCallIsAhead(nchans, r, calls, 1, 0);
      }
    }
  }

  lemma {:induction false} WholeRoundsConsumed(nchans: nat, calls: seq<nat>)
    ensures exists q: nat :: ConsumedBy(nchans, calls) == q * nchans
  {
    if calls == [] {
      assert ConsumedBy(nchans, calls) == 0 * nchans;
    } else {
      var init, c := calls[..|calls| - 1], calls[|calls| - 1];
      WholeRoundsConsumed(nchans, init);
      var q: nat :| ConsumedBy(nchans, init) == q * nchans;
      MulSplit(q, c, nchans);
      assert ConsumedBy(nchans, calls) == (q + c) * nchans;
    }
  }

  lemma NextCallSlots(nchans: nat, r: nat, calls: seq<nat>, k: nat, i: nat)
    requires 1 <= r <= nchans && Skipped(nchans, r, calls) == 0
    ensures Slot(nchans, r, k, i) == Slot(nchans, r, TurnsOf(nchans, r, calls) + k, i)
  {
    WholeRoundsConsumed(nchans, calls);
    var q: nat :| ConsumedBy(nchans, calls) == q * nchans;
    CallsAddUp(nchans, r, calls);
    MulSplit(TurnsOf(nchans, r, calls), k, r);
    ModShift(k * r - 1 - i + r, q, nchans);
  }

  /** A call for which nothing is rounded consumes whole turns. */
  lemma UnroundedCallGoesOn(nchans: nat, r: nat, reported: nat)
    requires 1 <= r <= nchans && reported * r % nchans == 0
    ensures ToConsume(nchans, r, reported) * nchans % r == 0
  {
    QuotientAndRest(reported * r, nchans);
    WholeIsAligned(reported, r);
  }

  class Channelizer<T, V(0)> {
    const nchans: nat
    const rateRatio: nat
    const taps: nat
    const fir: (nat, seq<T>) -> V
    const idxlut: array<int>
    const fftIn: array<V>

    ghost predicate Valid()
      reads this, idxlut
    {
      && 1 <= rateRatio <= nchans && idxlut != fftIn as object
      && idxlut.Length == nchans && fftIn.Length == nchans
      && forall j :: 0 <= j < nchans ==> idxlut[j] == Lut(nchans, rateRatio, j)
    }

    constructor (nchans: nat, rateRatio: nat, taps: nat, fir: (nat, seq<T>) -> V)
      requires 1 <= rateRatio <= nchans
      ensures Valid() && fresh(idxlut) && fresh(fftIn)
      ensures this.nchans == nchans && this.rateRatio == rateRatio && this.taps == taps && this.fir == fir
    {
      this.nchans, this.rateRatio, this.taps, this.fir := nchans, rateRatio, taps, fir;
      idxlut := new int[nchans];
      fftIn := new V[nchans];
      new;
      for i := 0 to nchans
        invariant forall j :: 0 <= j < i ==> idxlut[j] == Lut(nchans, rateRatio, j)
      {
        idxlut[i] := nchans - ((i + rateRatio) % nchans) - 1;
      }
    }

    /** What arm `i` produces when the commutator stands at arm `last` in round `n`. */
    ghost function ArmOutput(input: seq<T>, n: nat, last: nat, i: nat, total: nat): V
      requires i < nchans && last < nchans && n >= 1 && n + taps <= total && total * nchans <= |input|
    {
      StartInRange(n, last, i, total);
      fir(i, Window(input, nchans, taps, n * nchans + last - i))
    }

    lemma StartInRange(n: nat, last: nat, i: nat, total: nat)
      requires i < nchans && last < nchans && n >= 1 && n + taps <= total
      ensures n * nchans + last - i >= 0
      ensures taps > 0 ==> n * nchans + last - i + (taps - 1) * nchans < total * nchans
    {
      MulMono(1, n, nchans);
      if taps > 0 {
        MulSplit(n, taps - 1, nchans);
        InRange(n + taps - 1, total, last, nchans);
      }
    }

    /** Arms `last` down to 0 take their window from the round the commutator has reached. */
    method FeedNewRound(rows: seq<seq<T>>, n: nat, last: nat, ghost input: seq<T>, ghost total: nat) returns (j: int)
      requires Valid() && Deinterleaved(rows, input, nchans, total)
      requires 1 <= n && n + taps <= total && last < nchans
      modifies fftIn
      ensures j == last + 1
      ensures forall c :: 0 <= c <= last ==>
                            && 0 <= Lut(nchans, rateRatio, c) < nchans
                            && fftIn[Lut(nchans, rateRatio, c)] == ArmOutput(input, n, last, last - c, total)
    {
      LutIsPermutation(nchans, rateRatio);
      var i: int := last;
      j := 0;
      while i >= 0
        invariant -1 <= i <= last && j == last - i
        invariant forall c :: 0 <= c < j ==>
                                fftIn[Lut(nchans, rateRatio, c)] == ArmOutput(input, n, last, last - c, total)
      {
        RowWindow(rows, input, nchans, total, j, n, taps);
        fftIn[idxlut[j]] := fir(i, rows[j][n..n + taps]);
        j := j + 1;
        i := i - 1;
      }
    }

    /** The other arms, from the highest down, take theirs from the round before. */
    method FeedOldRound(rows: seq<seq<T>>, n: nat, last: nat, first: int, ghost input: seq<T>, ghost total: nat)
      requires Valid() && Deinterleaved(rows, input, nchans, total)
      requires 1 <= n && n + taps <= total && last < nchans && first == last + 1
      modifies fftIn
      ensures forall a :: last < a < nchans ==>
                            && 0 <= Lut(nchans, rateRatio, last + nchans - a) < nchans
                            && fftIn[Lut(nchans, rateRatio, last + nchans - a)] == ArmOutput(input, n, last, a, total)
      ensures forall c :: 0 <= c <= last ==>
                            && 0 <= Lut(nchans, rateRatio, c) < nchans
                            && fftIn[Lut(nchans, rateRatio, c)] == old(fftIn[Lut(nchans, rateRatio, c)])
    {
      LutIsPermutation(nchans, rateRatio);
      var j, i := first, nchans - 1;
      while i > last
        invariant last <= i < nchans && j == last + nchans - i
        invariant forall c :: 0 <= c <= last ==>
                                fftIn[Lut(nchans, rateRatio, c)] == old(fftIn[Lut(nchans, rateRatio, c)])
        invariant forall a :: i < a < nchans ==>
                                fftIn[Lut(nchans, rateRatio, last + nchans - a)] == ArmOutput(input, n, last, a, total)
      {
        RowWindow(rows, input, nchans, total, j, n - 1, taps);
        assert (n - 1) * nchans + j == n * nchans + last - i;
        fftIn[idxlut[j]] := fir(i, rows[j][n - 1..n - 1 + taps]);
        j := j + 1;
        i := i - 1;
      }
    }

    /** Turn `k` of the commutator, in closed form. */
    ghost predicate TurnIs(turn: seq<V>, input: seq<T>, k: nat)
    {
      |turn| == nchans && nchans > 0 && forall i :: 0 <= i < nchans ==> ArmIs(turn, input, k, i)
    }

    ghost predicate ArmIs(turn: seq<V>, input: seq<T>, k: nat, i: nat)
      requires |turn| == nchans && nchans > 0
    {
      && 0 <= Slot(nchans, rateRatio, k, i) < nchans
      && InInput(input, nchans + k * rateRatio - 1 - i)
      && turn[Slot(nchans, rateRatio, k, i)]
         == fir(i, Window(input, nchans, taps, nchans + k * rateRatio - 1 - i))
    }

    /** In samples: where the window of arm `i` starts on turn `k`, and which slot its output goes to. */
    lemma TurnMeans(turn: seq<V>, input: seq<T>, k: nat, i: nat, w: seq<T>)
      requires TurnIs(turn, input, k) && i < nchans && |w| == taps
      requires forall t :: 0 <= t < taps ==>
                 var at := nchans + k * rateRatio - 1 - i + t * nchans; 0 <= at < |input| && w[t] == input[at]
      ensures var slot := nchans - 1 - (k * rateRatio - 1 - i + rateRatio) % nchans;
              0 <= slot < |turn| == nchans && turn[slot] == fir(i, w)
    {
      assert ArmIs(turn, input, k, i);
      assert w == Window(input, nchans, taps, nchans + k * rateRatio - 1 - i);
    }

    ghost predicate InInput(input: seq<T>, start: int) {
      0 <= start && (taps > 0 ==> start + (taps - 1) * nchans < |input|)
    }

    /** One turn of the commutator: every arm once, every slot of the FFT input once. */
    method Turn(rows: seq<seq<T>>, n: nat, last: nat, ghost k: nat, ghost input: seq<T>, ghost total: nat)
      requires Valid() && Deinterleaved(rows, input, nchans, total)
      requires n + taps <= total && k >= 1 && Stands(nchans, rateRatio, k, n, last)
      modifies fftIn
      ensures TurnIs(fftIn[..], input, k)
    {
      var first := FeedNewRound(rows, n, last, input, total);
      FeedOldRound(rows, n, last, first, input, total);
      forall i: nat | i < nchans
        ensures 0 <= Slot(nchans, rateRatio, k, i) < nchans
        ensures InInput(input, nchans + k * rateRatio - 1 - i)
        ensures fftIn[Slot(nchans, rateRatio, k, i)]
                == fir(i, Window(input, nchans, taps, nchans + k * rateRatio - 1 - i))
      {
        LutIsPermutation(nchans, rateRatio);
        LutIsSlot(nchans, rateRatio, k, n, last, i);
        StartInRange(n, last, i, total);
        var c := ChannelOf(nchans, last, i);
        assert fftIn[Lut(nchans, rateRatio, c)] == ArmOutput(input, n, last, i, total);
        assert n * nchans + last - i == nchans + k * rateRatio - 1 - i;
      }
    }

    /** The outer loop of `work`: `turns` collects the FFT inputs, turn by turn. */
    method Commutate(rows: seq<seq<T>>, toConsume: nat, ghost input: seq<T>, ghost total: nat)
      returns (turns: seq<seq<V>>)
      requires Valid() && Deinterleaved(rows, input, nchans, total)
      requires toConsume + taps <= total
      modifies fftIn
      ensures |turns| == Turns(nchans, rateRatio, toConsume)
      ensures forall m :: 0 <= m < |turns| ==> TurnIs(turns[m], input, m + 1)
    {
      var n, i := 1, -1;
      turns := [];
      ghost var k := 0;
      while n <= toConsume
        invariant n >= 1 && -1 <= i < nchans && |turns| == k
        invariant n * nchans + Next(i) == nchans + (k + 1) * rateRatio - 1
        invariant k * rateRatio <= toConsume * nchans
        invariant forall m :: 0 <= m < k ==> TurnIs(turns[m], input, m + 1)
        decreases toConsume * nchans - k * rateRatio
      {
        NextIsMod(i);
        i := (i + rateRatio) % nchans;
        k := k + 1;
        RoundFits(n, i, k, toConsume);
        Turn(rows, n, i, k, input, total);
        var carry := i + rateRatio >= nchans;
        StandNext(n, i, k, if carry then n + 1 else n);
        n := n + if carry then 1 else 0;
        turns := turns + [fftIn[..]];
      }
      TurnCount(n, Next(i), k, toConsume);
    }

    /** `work` from the rounding on: it reports `reported` items, whatever the turns have written. */
    method Work(rows: seq<seq<T>>, reported: nat, ghost input: seq<T>, ghost total: nat)
      returns (turns: seq<seq<V>>, consumed: nat, produced: nat)
      requires Valid() && Deinterleaved(rows, input, nchans, total)
      requires reported + nchans * (taps + 1) == total + 1
      modifies fftIn
      ensures consumed == ToConsume(nchans, rateRatio, reported) * nchans && produced == reported
      ensures |turns| == Turns(nchans, rateRatio, ToConsume(nchans, rateRatio, reported))
      ensures forall m :: 0 <= m < |turns| ==> TurnIs(turns[m], input, m + 1)
    {
      WindowsFit(nchans, rateRatio, taps, total, reported);
      var q, rest := reported * rateRatio / nchans, reported * rateRatio % nchans;
      var toConsume := if 2 * rest > nchans || (2 * rest == nchans && q % 2 == 1) then q + 1 else q;
      turns := Commutate(rows, toConsume, input, total);
      consumed, produced := toConsume * nchans, reported;
    }

    /** What a call computes from the stream behind its predecessors is what one commutator computes there. */
    lemma TurnGoesOn(turn: seq<V>, stream: seq<T>, calls: seq<nat>, k: nat)
      requires 1 <= rateRatio <= nchans && k >= 1 && GoesOn(nchans, rateRatio, calls)
      requires ConsumedBy(nchans, calls) <= |stream|
      requires TurnIs(turn, stream[ConsumedBy(nchans, calls)..], k)
      ensures TurnIs(turn, stream, TurnsOf(nchans, rateRatio, calls) + k)
    {
      var base, before := ConsumedBy(nchans, calls), TurnsOf(nchans, rateRatio, calls);
      var later := before + k;
      forall i: nat | i < nchans
        ensures ArmIs(turn, stream, later, i)
      {
        assert GoesOnAt(nchans, rateRatio, calls, k, i);
        ArmGoesOn(turn, stream, base, k, later, i);
      }
    }

    lemma ArmGoesOn(turn: seq<V>, stream: seq<T>, base: nat, k: nat, later: nat, i: nat)
      requires |turn| == nchans && nchans > 0 && base <= |stream|
      requires ArmIs(turn, stream[base..], k, i)
      requires base + (nchans + k * rateRatio - 1 - i) == nchans + later * rateRatio - 1 - i
      requires Slot(nchans, rateRatio, k, i) == Slot(nchans, rateRatio, later, i)
      ensures ArmIs(turn, stream, later, i)
    {
      WindowBehind(stream, nchans, taps, base, nchans + k * rateRatio - 1 - i);
    }

    /** The arm the next turn starts from. */
    function Next(i: int): int {
      if i + rateRatio >= nchans then i + rateRatio - nchans else i + rateRatio
    }

    lemma NextIsMod(i: int)
      requires 1 <= rateRatio <= nchans && -1 <= i < nchans
      ensures 0 <= Next(i) < nchans && (i + rateRatio) % nchans == Next(i)
    {
      ModUnique(i + rateRatio, if i + rateRatio >= nchans then 1 else 0, Next(i), nchans);
    }

    lemma RoundFits(n: nat, last: nat, k: nat, toConsume: nat)
      requires 1 <= rateRatio <= nchans && n <= toConsume && last < nchans
      requires n * nchans + last == nchans + k * rateRatio - 1
      ensures k * rateRatio <= toConsume * nchans
    {
      MulMono(n, toConsume, nchans);
    }

    lemma StandNext(n: nat, last: nat, k: nat, n': nat)
      requires 1 <= rateRatio <= nchans && last < nchans
      requires n * nchans + last == nchans + k * rateRatio - 1
      requires n' == if last + rateRatio >= nchans then n + 1 else n
      ensures n' * nchans + Next(last) == nchans + (k + 1) * rateRatio - 1
    {
      MulSplit(n, 1, nchans);
      MulSplit(k, 1, rateRatio);
    }

    lemma TurnCount(n: nat, last: nat, k: nat, toConsume: nat)
      requires 1 <= rateRatio <= nchans && n > toConsume && last < nchans
      requires n * nchans + last == nchans + (k + 1) * rateRatio - 1
      requires k * rateRatio <= toConsume * nchans
      ensures k == Turns(nchans, rateRatio, toConsume)
    {
      MulMono(toConsume + 1, n, nchans);
      MulSplit(toConsume, 1, nchans);
      MulSplit(k, 1, rateRatio);
      ModUnique(toConsume * nchans, k, toConsume * nchans - k * rateRatio, rateRatio);
    }
  }
}
