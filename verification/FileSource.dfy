/** The file source of file_source_cpu.cc on a regular file: length arithmetic of open, and the
  * read, rewind and tag loop of work.
  *
  * A file is the sequence of its whole items. All state of a run is a function of the number of
  * items produced so far; that is what the class keeps as its invariant.
  */
module FileSource {
  import opened Arith
  import opened Memory
  import opened Sequences

  const INT64_RANGE: nat := 0x8000_0000_0000_0000

  /** A begin tag: absolute item offset and the number of rewinds before it. */
  datatype Tag = Tag(offset: nat, count: nat)

  datatype Code = Okay | Done

  // ----- open

  /** Items after the start offset, in unsigned 64-bit arithmetic. */
  function Available(fileItems: nat, start: nat): nat { (fileItems - start) % UINT64_RANGE }

  /** The check that at least one item lies behind the start offset. */
  predicate TooSmall(fileItems: nat, start: nat) { fileItems < (start + 1) % UINT64_RANGE }

  /** Length in items that a requested length stands for; 0 asks for the rest of the file. */
  function Length(fileItems: nat, start: nat, asked: nat): nat {
    var rest := Available(fileItems, start);
    if asked == 0 then rest else Min(asked, rest)
  }

  /** The offset of the rewind, in bytes and unsigned, is negative as the signed offset that fseek takes. */
  predicate SeekFails(start: nat, itemSize: nat) { start * itemSize % UINT64_RANGE >= INT64_RANGE }

  /** open gets past both of its throws. */
  predicate Opens(fileItems: nat, start: nat, itemSize: nat) {
    !TooSmall(fileItems, start) && !SeekFails(start, itemSize)
  }

  /** open succeeds exactly if an item lies behind the start offset. The one offset whose successor
    * overflows passes the first check, and is refused by the seek. */
  lemma OpensIff(fileItems: nat, start: nat, itemSize: nat)
    requires 1 <= itemSize <= INT64_RANGE && fileItems * itemSize < INT64_RANGE && start < UINT64_RANGE
    ensures Opens(fileItems, start, itemSize) <==> start < fileItems
  {
    MulMono(1, itemSize, fileItems);
    if start == UINT64_RANGE - 1 {
      LastOffsetWraps(itemSize);
    } else if start < fileItems {
      MulMono(start, fileItems, itemSize);
    }
  }

  lemma LastOffsetWraps(itemSize: nat)
    requires 1 <= itemSize <= INT64_RANGE
    ensures SeekFails(UINT64_RANGE - 1, itemSize)
  {
    var offset := (UINT64_RANGE - 1) * itemSize;
    assert offset == (itemSize - 1) * UINT64_RANGE + (UINT64_RANGE - itemSize);
    ModUnique(offset, itemSize - 1, UINT64_RANGE - itemSize, UINT64_RANGE);
  }

  /** An opened source reads at least one item and never past the end of the file, whatever length was
    * asked for; without one it reads to the end. */
  lemma OpenStaysInFile(fileItems: nat, start: nat, itemSize: nat, asked: nat)
    requires 1 <= itemSize <= INT64_RANGE && fileItems * itemSize < INT64_RANGE && start < UINT64_RANGE
    requires Opens(fileItems, start, itemSize)
    ensures 1 <= Length(fileItems, start, asked) && start + Length(fileItems, start, asked) <= fileItems
    ensures asked == 0 ==> start + Length(fileItems, start, asked) == fileItems
  {
    OpensIff(fileItems, start, itemSize);
    AvailableIsRest(fileItems, start, itemSize);
  }

  lemma AvailableIsRest(fileItems: nat, start: nat, itemSize: nat)
    requires 1 <= itemSize && fileItems * itemSize < INT64_RANGE && start < fileItems
    ensures Available(fileItems, start) == fileItems - start
  {
    MulMono(1, itemSize, fileItems);
  }

  // ----- the stream a source stands for

  /** Item k of the output: the file read round and round. */
  function ItemAt<T>(file: seq<T>, start: nat, len: nat, k: nat): T
    requires 1 <= len && start + len <= |file|
  {
    file[start + k % len]
  }

  /** The first m begin tags: one at every multiple of the length, counting up. */
  function TagList(len: nat, m: nat): seq<Tag> { seq(m, c requires 0 <= c < m => Tag(c * len, c)) }

  /** Passes begun once `total` items are out. */
  function Begun(len: nat, total: nat): nat
    requires 1 <= len
  {
    total / len + if total % len == 0 then 0 else 1
  }

  /** Each of them comes once, in order: the c-th at item c * len with count c. */
  lemma TagsInOrder(len: nat, m: nat, c: nat)
    requires c < m
    ensures |TagList(len, m)| == m && TagList(len, m)[c].offset == c * len && TagList(len, m)[c].count == c
  {
  }

  /** So there are as many as passes have begun: the least number of passes that holds all items. */
  lemma TagCount(len: nat, total: nat, m: nat)
    requires 1 <= len
    ensures |TagList(len, Begun(len, total))| <= m <==> total <= m * len
  {
    DivBounds(total, len);
    var q := total / len;
    assert total == q * len + total % len;
    MulSplit(q, 1, len);
    if Begun(len, total) <= m {
      MulMono(Begun(len, total), m, len);
    } else {
      MulMono(m + 1, Begun(len, total), len);
      MulSplit(m, 1, len);
    }
  }

  /** Every tag sent marks the first item of a pass, and every such item is marked. */
  lemma TagsMarkPasses(len: nat, total: nat, o: nat, c: nat)
    requires 1 <= len
    ensures Tag(o, c) in TagList(len, Begun(len, total)) <==> o == c * len && o < total
  {
    var m := Begun(len, total);
    DivBounds(total, len);
    assert total == total / len * len + total % len;
    if c < m {
      assert TagList(len, m)[c] == Tag(c * len, c);
      MulMono(c, total / len, len);
      if c < total / len {
        MulMono(c + 1, total / len, len);
        MulSplit(c, 1, len);
      }
    } else {
      MulMono(m, c, len);
      MulSplit(total / len, 1, len);
    }
  }

  /** The stream repeats with the length, and one pass is the requested part of the file. */
  lemma StreamIsPeriodic<T>(file: seq<T>, start: nat, len: nat, k: nat, pass: nat)
    requires 1 <= len && start + len <= |file|
    ensures ItemAt(file, start, len, k + pass * len) == ItemAt(file, start, len, k)
    ensures k < len ==> ItemAt(file, start, len, k + pass * len) == file[start..start + len][k]
  {
    PassesApart(k, pass, len);
    if k < len {
      ModUnique(k, 0, k, len);
    }
  }

  lemma PassesApart(k: nat, pass: nat, len: nat)
    requires 1 <= len
    ensures (k + pass * len) % len == k % len
  {
    QuotientAndRest(k, len);
    MulSplit(k / len, pass, len);
    ModUnique(k + pass * len, k / len + pass, k % len, len);
  }

  // ----- the block

  /** Place in a run: whole passes done, and items of the current one. */
  predicate At(len: nat, repeating: bool, total: nat, pass: nat, off: nat) {
    && total == pass * len + off
    && (if repeating then off < len else pass == 0 && off <= len)
  }

  function Started(pass: nat, off: nat): nat { if off == 0 then pass else pass + 1 }

  lemma StartedIsBegun(len: nat, repeating: bool, total: nat, pass: nat, off: nat)
    requires 1 <= len && At(len, repeating, total, pass, off)
    ensures Started(pass, off) == Begun(len, total)
  {
    if off < len {
      ModUnique(total, pass, off, len);
    } else {
      ModUnique(total, 1, 0, len);
    }
  }

  class FileSource<T> {
    const file: seq<T>
    const start: nat
    const length: nat
    const repeating: bool
    const tagging: bool
    var remaining: nat
    var at: nat
    var fileBegin: bool
    var repeatCnt: nat
    ghost var total: nat
    ghost var pass: nat
    ghost var off: nat

    /** The fields are those of a source that has produced `total` items. */
    ghost predicate Valid() reads this {
      && 1 <= length && start + length <= |file|
      && At(length, repeating, total, pass, off)
      && remaining == length - off && at == start + off
      && (tagging ==> repeatCnt == pass && (fileBegin <==> off == 0))
    }

    /** Opens the file; false stands for the throw on a file that is too small. */
    constructor (file: seq<T>, start: nat, length: nat, repeating: bool, tagging: bool)
      requires 1 <= length && start + length <= |file|
      ensures Valid() && total == 0
      ensures this.file == file && this.start == start && this.length == length
      ensures this.repeating == repeating && this.tagging == tagging
    {
      this.file, this.start, this.length, this.repeating, this.tagging := file, start, length, repeating, tagging;
      remaining, at := length, start;
      fileBegin, repeatCnt := true, 0;
      total, pass, off := 0, 0, 0;
    }

    method FRead(out: array<T>, to: nat, n: nat)
      requires to + n <= out.Length && at + n <= |file|
      modifies out, `at
      ensures at == old(at) + n
      ensures forall i :: 0 <= i < out.Length ==>
                            out[i] == if to <= i < to + n then file[old(at) + i - to] else old(out[i])
    {
      for i := 0 to n
        invariant at == old(at)
        invariant forall j :: 0 <= j < out.Length ==>
                                out[j] == if to <= j < to + i then file[at + j - to] else old(out[j])
      {
        out[to + i] := file[at + i];
      }
      at := at + n;
    }

    /** The begin tag of a pass that has just started. */
    method TagBegin(offset: nat) returns (tags: seq<Tag>)
      requires Valid() && remaining > 0 && offset == total
      modifies `fileBegin
      ensures tagging ==> TagList(length, Started(pass, off)) + tags == TagList(length, pass + 1) && !fileBegin
      ensures !tagging ==> tags == []
    {
      tags := [];
      if fileBegin && tagging {
        tags := [Tag(offset, repeatCnt)];
        fileBegin := false;
      }
    }

    /** The end of a turn that has read `read` items: count them, and rewind at the end of a repeating pass. */
    method AfterRead(read: nat)
      requires 1 <= length && start + length <= |file| && 1 <= read <= remaining == length - off
      requires At(length, repeating, total, pass, off) && at == start + off + read
      requires tagging ==> repeatCnt == pass && !fileBegin
      modifies this
      ensures Valid() && total == old(total) + read
      ensures remaining == 0 <==> !repeating && old(off) + read == length
      ensures Started(pass, off) == old(pass) + 1
    {
      remaining := remaining - read;
      total, off := total + read, off + read;
      if remaining == 0 && repeating {
        at := start;
        remaining := length;
        if tagging {
          fileBegin := true;
          repeatCnt := repeatCnt + 1;
        }
        MulSplit(pass, 1, length);
        pass, off := pass + 1, 0;
      }
    }

    /** The first n items are those of the stream from `base` on. */
    ghost predicate Produced(out: array<T>, base: nat, n: nat)
      requires 1 <= length && start + length <= |file|
      reads out
    {
      n <= out.Length && forall i :: 0 <= i < n ==> out[i] == ItemAt(file, start, length, base + i)
    }

    /** One turn of the work loop: up to the end of the request or of the pass. */
    method Turn(out: array<T>, done: nat, totalWritten: nat) returns (read: nat, tags: seq<Tag>)
      requires Valid() && remaining > 0 && done < out.Length && total == totalWritten + done
      requires Produced(out, totalWritten, done)
      modifies this, out
      ensures Valid() && total == old(total) + read && 1 <= read <= out.Length - done
      ensures remaining == 0 ==> !repeating
      ensures remaining == 0 || repeating || done + read == out.Length
      ensures Produced(out, totalWritten, done + read)
      ensures tagging ==> TagList(length, old(Started(pass, off))) + tags == TagList(length, Started(pass, off))
      ensures !tagging ==> tags == []
    {
      tags := TagBegin(totalWritten + done);
      read := Min(out.Length - done, remaining);
      FRead(out, done, read);
      forall i | done <= i < done + read ensures out[i] == ItemAt(file, start, length, totalWritten + i) {
        ReadIsStream(file, start, length, total, pass, off, i - done);
      }
      AfterRead(read);
    }

    /** A call of work for as many items as `out` holds. */
    method Work(out: array<T>, totalWritten: nat) returns (code: Code, produced: nat, tags: seq<Tag>)
      requires Valid() && totalWritten == total
      modifies this, out
      ensures Valid() && total == old(total) + produced
      ensures code == if !repeating && old(total) == length then Done else Okay
      ensures produced == if repeating then out.Length else Min(out.Length, length - old(total))
      ensures Produced(out, old(total), produced)
      ensures forall i :: 0 <= i < produced ==> out[i] == file[start + (old(total) + i) % length]
      ensures tagging ==> TagList(length, Begun(length, old(total))) + tags == TagList(length, Begun(length, total))
      ensures !tagging ==> tags == []
    {
      StartedIsBegun(length, repeating, total, pass, off);
      if remaining == 0 {
        return Done, 0, [];
      }
      produced, tags := Turns(out, totalWritten);
      StartedIsBegun(length, repeating, total, pass, off);
      code := Okay;
    }

    /** The work loop: it ends when the request is met or the last pass is over. */
    method Turns(out: array<T>, totalWritten: nat) returns (produced: nat, tags: seq<Tag>)
      requires Valid() && totalWritten == total && remaining > 0
      modifies this, out
      ensures Valid() && total == totalWritten + produced && produced <= out.Length
      ensures produced == out.Length || (remaining == 0 && !repeating)
      ensures Produced(out, totalWritten, produced)
      ensures tagging ==> TagList(length, old(Started(pass, off))) + tags == TagList(length, Started(pass, off))
      ensures !tagging ==> tags == []
    {
      tags := [];
      produced := 0;
      ghost var first := TagList(length, Started(pass, off));
      while produced < out.Length
        invariant Valid() && total == totalWritten + produced && produced <= out.Length
        invariant remaining > 0
        invariant Produced(out, totalWritten, produced)
        invariant tagging ==> first + tags == TagList(length, Started(pass, off))
        invariant !tagging ==> tags == []
      {
        ghost var sofar := tags;
        var read, more := Turn(out, produced, totalWritten);
        ConcatAssociates(first, sofar, more);
        produced := produced + read;
        tags := tags + more;
        if remaining == 0 {
          break;
        }
      }
    }
  }

  /** open on a file of whole items and `extra` bytes: null stands for a throw, of the size check or of
    * the seek, and it comes exactly if the file has no item behind the offset. */
  method Open<T>(file: seq<T>, itemSize: nat, extra: nat, start: nat, asked: nat, repeating: bool, tagging: bool)
    returns (s: FileSource?<T>)
    requires extra < itemSize <= INT64_RANGE && |file| * itemSize + extra < INT64_RANGE && start < UINT64_RANGE
    ensures s == null <==> |file| <= start
    ensures s != null ==> fresh(s) && s.Valid() && s.total == 0 && s.file == file && s.start == start
    ensures s != null ==> s.length == (if asked == 0 then |file| - start else Min(asked, |file| - start))
    ensures s != null ==> s.repeating == repeating && s.tagging == tagging
  {
    var fileSize := |file| * itemSize + extra;
    ModUnique(fileSize, |file|, extra, itemSize);
    OpensIff(|file|, start, itemSize);
    if fileSize / itemSize < (start + 1) % UINT64_RANGE {
      return null;
    }
    var available := (fileSize / itemSize - start) % UINT64_RANGE;
    var length := asked;
    if length == 0 {
      length := available;
    }
    if length > available {
      length := available;
    }
    if start * itemSize % UINT64_RANGE >= INT64_RANGE {
      return null;
    }
    OpenStaysInFile(|file|, start, itemSize, asked);
    AvailableIsRest(|file|, start, itemSize);
    s := new FileSource(file, start, length, repeating, tagging);
  }

  lemma ReadIsStream<T>(file: seq<T>, start: nat, len: nat, total: nat, pass: nat, off: nat, i: nat)
    requires 1 <= len && start + len <= |file| && total == pass * len + off && off + i < len
    ensures ItemAt(file, start, len, total + i) == file[start + off + i]
  {
    ModUnique(total + i, pass, off + i, len);
  }
}
