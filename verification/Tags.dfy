/** The tag list of a buffer and its readers, buffer.cc.
  *
  * A tag is bound to the absolute index of an item. The buffer keeps one list for all readers,
  * a reader takes from it the tags of the items it is about to read, and pruning drops what every
  * reader has passed. Readers and buffer have the same item size.
  */
module Tags {
  import opened Arith
  import opened Sequences

  datatype Tag = Tag(offset: nat, attributes: map<string, int>)

  /** One reader: the items read so far; `due` and `got` are history: the tags that were added
    * while their item was still ahead of this reader, and the tags handed to it. */
  datatype Reader = Reader(read: nat, due: multiset<Tag>, got: seq<Tag>)

  datatype State = State(tags: seq<Tag>, written: nat, readers: seq<Reader>)

  datatype Event =
    | PostWrite(items: nat)
    | AddTag(tag: Tag)
    | AddTags(produced: nat, tags: seq<Tag>)
    | PruneTags
    | Attach
    | Take(reader: nat, items: nat)

  // ----- sublists

  /** The tags with lo <= offset < hi, in list order. */
  function Window(s: seq<Tag>, lo: nat, hi: nat): seq<Tag> {
    if s == [] then []
    else (if lo <= s[0].offset < hi then [s[0]] else []) + Window(s[1..], lo, hi)
  }

  /** The tags at or after an offset, in list order. */
  function From(s: seq<Tag>, lo: nat): seq<Tag> {
    if s == [] then []
    else (if lo <= s[0].offset then [s[0]] else []) + From(s[1..], lo)
  }

  lemma {:induction false} WindowCount(s: seq<Tag>, lo: nat, hi: nat, t: Tag)
    ensures multiset(Window(s, lo, hi))[t] == if lo <= t.offset < hi then multiset(s)[t] else 0
  {
    if s != [] {
      WindowCount(s[1..], lo, hi, t);
      assert s == [s[0]] + s[1..];
    }
  }

  lemma {:induction false} FromCount(s: seq<Tag>, lo: nat, t: Tag)
    ensures multiset(From(s, lo))[t] == if lo <= t.offset then multiset(s)[t] else 0
  {
    if s != [] {
      FromCount(s[1..], lo, t);
      assert s == [s[0]] + s[1..];
    }
  }

  lemma {:induction false} WindowAppend(s: seq<Tag>, t: Tag, lo: nat, hi: nat)
    ensures Window(s + [t], lo, hi) == Window(s, lo, hi) + if lo <= t.offset < hi then [t] else []
  {
    if s == [] {
      assert s + [t] == [t];
    } else {
      assert (s + [t])[1..] == s[1..] + [t];
      WindowAppend(s[1..], t, lo, hi);
      ConcatAssociates(if lo <= s[0].offset < hi then [s[0]] else [], Window(s[1..], lo, hi),
                       if lo <= t.offset < hi then [t] else []);
    }
  }

  lemma {:induction false} FromAppend(s: seq<Tag>, t: Tag, lo: nat)
    ensures From(s + [t], lo) == From(s, lo) + if lo <= t.offset then [t] else []
  {
    if s == [] {
      assert s + [t] == [t];
    } else {
      assert (s + [t])[1..] == s[1..] + [t];
      FromAppend(s[1..], t, lo);
      ConcatAssociates(if lo <= s[0].offset then [s[0]] else [], From(s[1..], lo), if lo <= t.offset then [t] else []);
    }
  }

  /** The pruned prefix and the rest of the list, before and after looking at tag k. */
  lemma PruneStep(s: seq<Tag>, k: nat, lo: nat)
    requires k < |s|
    ensures var t := |From(s[..k], lo)|;
            var list := From(s[..k], lo) + s[k..];
            && list[t] == s[k]
            && From(s[..k + 1], lo) + s[k + 1..] == (if s[k].offset < lo then list[..t] + list[t + 1..] else list)
            && |From(s[..k + 1], lo)| == (if s[k].offset < lo then t else t + 1)
  {
    assert s[..k + 1] == s[..k] + [s[k]];
    FromAppend(s[..k], s[k], lo);
  }

  // ----- the operations

  /** Lower end of the window add_tags accepts, in unsigned 64-bit arithmetic. */
  function FirstAccepted(written: nat, produced: nat): nat {
    (written - produced) % UINT64_RANGE
  }

  function AcceptedTags(s: State, produced: nat, tags: seq<Tag>): seq<Tag> {
    Window(tags, FirstAccepted(s.written, produced), s.written)
  }

  /** Items read by the slowest reader; without readers, the items written. */
  function Passed(readers: seq<Reader>, written: nat): nat {
    if readers == [] then written
    else
      var rest := Passed(readers[..|readers| - 1], written);
      var last := readers[|readers| - 1].read;
      if last < rest then last else rest
  }

  /** Every reader still owes itself the added tags that lie ahead of it. */
  function Offer(readers: seq<Reader>, added: seq<Tag>): (r: seq<Reader>)
    ensures |r| == |readers|
  {
    seq(|readers|, i requires 0 <= i < |readers| =>
      readers[i].(due := readers[i].due + multiset(From(added, readers[i].read))))
  }

  function Append(s: State, added: seq<Tag>): State {
    s.(tags := s.tags + added, readers := Offer(s.readers, added))
  }

  /** get_tags(items) followed by post_read(items). */
  function AfterTake(s: State, reader: nat, items: nat): State
    requires reader < |s.readers|
  {
    var r := s.readers[reader];
    s.(readers := s.readers[reader := Reader(r.read + items, r.due, r.got + Window(s.tags, r.read, r.read + items))])
  }

  predicate Legal(s: State, e: Event) { e.Take? ==> e.reader < |s.readers| }

  function Apply(s: State, e: Event): State
    requires Legal(s, e)
  {
    match e
    case PostWrite(n) => s.(written := s.written + n)
    case AddTag(t) => Append(s, [t])
    case AddTags(n, tags) => Append(s, AcceptedTags(s, n, tags))
    case PruneTags => s.(tags := From(s.tags, Passed(s.readers, s.written)))
    case Attach => s.(readers := s.readers + [Reader(0, multiset(s.tags), [])])
    case Take(i, n) => AfterTake(s, i, n)
  }

  // ----- what the operations do

  /** Of tags added with a write, exactly those are taken whose items lie in that write, in their order. */
  lemma AcceptedAre(s: State, produced: nat, tags: seq<Tag>, t: Tag)
    requires produced <= s.written < UINT64_RANGE
    ensures multiset(AcceptedTags(s, produced, tags))[t]
         == if s.written - produced <= t.offset < s.written then multiset(tags)[t] else 0
  {
    ModUnique(s.written - produced, 0, s.written - produced, UINT64_RANGE);
    WindowCount(tags, s.written - produced, s.written, t);
  }

  /** Taking tags out of a stretch keeps their order: it goes through concatenation. */
  lemma {:induction false} WindowConcat(s: seq<Tag>, t: seq<Tag>, lo: nat, hi: nat)
    ensures Window(s + t, lo, hi) == Window(s, lo, hi) + Window(t, lo, hi)
  {
    if s == [] {
      assert s + t == t;
    } else {
      WindowConcat(s[1..], t, lo, hi);
      ConcatTail(s, t);
      ConcatAssociates(if lo <= s[0].offset < hi then [s[0]] else [], Window(s[1..], lo, hi), Window(t, lo, hi));
    }
  }

  /** The counts: what is written grows by what is posted, and what a reader has read by what it takes; nothing
    * else moves either. */
  lemma CountsStep(s: State, e: Event, i: nat)
    requires Legal(s, e) && i < |s.readers|
    ensures var t := Apply(s, e);
            && t.written == s.written + (if e.PostWrite? then e.items else 0)
            && |t.readers| == |s.readers| + (if e.Attach? then 1 else 0)
            && t.readers[i].read == s.readers[i].read + (if e.Take? && e.reader == i then e.items else 0)
            && (e.Attach? ==> t.readers[|s.readers|].read == 0 && t.readers[|s.readers|].got == [])
  {
  }

  lemma WrittenStep(s: State, e: Event)
    requires Legal(s, e)
    ensures Apply(s, e).written == s.written + (if e.PostWrite? then e.items else 0)
  {
  }

  /** The list: added tags go to its end, pruning thins it out, and nothing else changes it. */
  lemma ListStep(s: State, e: Event)
    requires Legal(s, e)
    ensures e.AddTag? ==> Apply(s, e).tags == s.tags + [e.tag]
    ensures e.AddTags? ==> s.tags <= Apply(s, e).tags
    ensures e.PostWrite? || e.Take? || e.Attach? ==> Apply(s, e).tags == s.tags
    ensures e.AddTags? ==> forall t: Tag :: multiset(Apply(s, e).tags)[t]
                                            == multiset(s.tags)[t] + AddedBy(s, e, t)
  {
    if e.AddTags? {
      var more := AcceptedTags(s, e.produced, e.tags);
      forall t: Tag
        ensures multiset(s.tags + more)[t] == multiset(s.tags)[t] + multiset(more)[t]
      {
        CountConcat(s.tags, more, t);
      }
    }
  }

  /** Pruning keeps the order of what stays. */
  lemma {:induction false} FromConcat(s: seq<Tag>, t: seq<Tag>, lo: nat)
    ensures From(s + t, lo) == From(s, lo) + From(t, lo)
  {
    if s == [] {
      assert s + t == t;
    } else {
      FromConcat(s[1..], t, lo);
      ConcatTail(s, t);
      ConcatAssociates(if lo <= s[0].offset then [s[0]] else [], From(s[1..], lo), From(t, lo));
    }
  }

  // ----- the invariant

  /** The list holds, of tag t, exactly what this reader is still due; it has had the rest. */
  predicate TagOk(tags: seq<Tag>, r: Reader, t: Tag) {
    if r.read <= t.offset then multiset(tags)[t] == r.due[t] && multiset(r.got)[t] == 0
    else multiset(r.got)[t] == r.due[t]
  }

  ghost predicate ReaderOk(tags: seq<Tag>, r: Reader) { forall t: Tag :: TagOk(tags, r, t) }

  ghost predicate Inv(s: State) { forall i :: 0 <= i < |s.readers| ==> ReaderOk(s.tags, s.readers[i]) }

  function Init(): State { State([], 0, []) }

  lemma PassedIsMinimal(readers: seq<Reader>, written: nat)
    ensures Passed(readers, written) <= written
    ensures forall i :: 0 <= i < |readers| ==> Passed(readers, written) <= readers[i].read
    ensures || Passed(readers, written) == written
            || exists i :: 0 <= i < |readers| && Passed(readers, written) == readers[i].read
  {
    if readers != [] {
      var rest := readers[..|readers| - 1];
      PassedIsMinimal(rest, written);
      if Passed(readers, written) == Passed(rest, written) != written {
        var i :| 0 <= i < |rest| && Passed(rest, written) == rest[i].read;
        assert readers[i] == rest[i];
      }
    }
  }

  lemma AppendKeepsInv(s: State, added: seq<Tag>)
    requires Inv(s)
    ensures Inv(Append(s, added))
  {
    var u := Append(s, added);
    forall i | 0 <= i < |u.readers| ensures ReaderOk(u.tags, u.readers[i]) {
      forall t: Tag ensures TagOk(u.tags, u.readers[i], t) {
        assert TagOk(s.tags, s.readers[i], t);
        FromCount(added, s.readers[i].read, t);
      }
    }
  }

  /** Pruning never drops a tag some reader has still ahead of it. */
  lemma PruneKeepsInv(s: State)
    requires Inv(s)
    ensures Inv(Apply(s, PruneTags))
  {
    var u := Apply(s, PruneTags);
    PassedIsMinimal(s.readers, s.written);
    forall i | 0 <= i < |u.readers| ensures ReaderOk(u.tags, u.readers[i]) {
      forall t: Tag ensures TagOk(u.tags, u.readers[i], t) {
        assert TagOk(s.tags, s.readers[i], t);
        FromCount(s.tags, Passed(s.readers, s.written), t);
      }
    }
  }

  lemma TakeKeepsReader(tags: seq<Tag>, r: Reader, items: nat)
    requires ReaderOk(tags, r)
    ensures ReaderOk(tags, Reader(r.read + items, r.due, r.got + Window(tags, r.read, r.read + items)))
  {
    var w := Window(tags, r.read, r.read + items);
    var after := Reader(r.read + items, r.due, r.got + w);
    forall t: Tag ensures TagOk(tags, after, t) {
      assert TagOk(tags, r, t);
      WindowCount(tags, r.read, r.read + items, t);
      TakeKeepsTag(tags, r, items, w, t);
    }
  }

  lemma TakeKeepsTag(tags: seq<Tag>, r: Reader, items: nat, w: seq<Tag>, t: Tag)
    requires TagOk(tags, r, t)
    requires multiset(w)[t] == if r.read <= t.offset < r.read + items then multiset(tags)[t] else 0
    ensures TagOk(tags, Reader(r.read + items, r.due, r.got + w), t)
  {
    CountConcat(r.got, w, t);
  }

  lemma TakeKeepsInv(s: State, reader: nat, items: nat)
    requires Inv(s) && reader < |s.readers|
    ensures Inv(AfterTake(s, reader, items))
  {
    TakeKeepsReader(s.tags, s.readers[reader], items);
  }

  lemma StepKeepsInv(s: State, e: Event)
    requires Inv(s) && Legal(s, e)
    ensures Inv(Apply(s, e))
  {
    match e
    case AddTag(t) => AppendKeepsInv(s, [t]);
    case AddTags(n, tags) => AppendKeepsInv(s, AcceptedTags(s, n, tags));
    case PruneTags => PruneKeepsInv(s);
    case Take(i, n) => TakeKeepsInv(s, i, n);
    case Attach =>
      var r := Reader(0, multiset(s.tags), []);
      assert forall t: Tag :: TagOk(s.tags, r, t);
    case PostWrite(_) =>
  }

  // ----- runs

  predicate RunLegal(s: State, run: seq<Event>)
    decreases |run|
  {
    run != [] ==> Legal(s, run[0]) && RunLegal(Apply(s, run[0]), run[1..])
  }

  function Run(s: State, run: seq<Event>): State
    requires RunLegal(s, run)
    decreases |run|
  {
    if run == [] then s else Run(Apply(s, run[0]), run[1..])
  }

  lemma {:induction false} RunKeepsInv(s: State, run: seq<Event>)
    requires Inv(s) && RunLegal(s, run)
    ensures Inv(Run(s, run))
    decreases |run|
  {
    if run != [] {
      StepKeepsInv(s, run[0]);
      RunKeepsInv(Apply(s, run[0]), run[1..]);
    }
  }

  /** How often an event adds tag t to the list. */
  function AddedBy(s: State, e: Event, t: Tag): nat {
    match e
    case AddTag(u) => if u == t then 1 else 0
    case AddTags(n, tags) => multiset(AcceptedTags(s, n, tags))[t]
    case _ => 0
  }

  /** How often a run adds tag t while reader i has its item still ahead. */
  function AddedInTime(s: State, run: seq<Event>, i: nat, t: Tag): nat
    requires RunLegal(s, run) && i < |s.readers|
    decreases |run|
  {
    if run == [] then 0
    else (if s.readers[i].read <= t.offset then AddedBy(s, run[0], t) else 0)
         + AddedInTime(Apply(s, run[0]), run[1..], i, t)
  }

  lemma DueGrowsByAdds(s: State, e: Event, i: nat, t: Tag)
    requires Legal(s, e) && i < |s.readers|
    ensures i < |Apply(s, e).readers| && s.readers[i].read <= Apply(s, e).readers[i].read
    ensures Apply(s, e).readers[i].due[t]
         == s.readers[i].due[t] + if s.readers[i].read <= t.offset then AddedBy(s, e, t) else 0
  {
    match e
    case AddTag(u) => FromCount([u], s.readers[i].read, t);
    case AddTags(n, tags) => FromCount(AcceptedTags(s, n, tags), s.readers[i].read, t);
    case _ =>
  }

  lemma {:induction false} DueIsAddedInTime(s: State, run: seq<Event>, i: nat, t: Tag)
    requires RunLegal(s, run) && i < |s.readers|
    ensures i < |Run(s, run).readers| && s.readers[i].read <= Run(s, run).readers[i].read
    ensures Run(s, run).readers[i].due[t] == s.readers[i].due[t] + AddedInTime(s, run, i, t)
    decreases |run|
  {
    if run != [] {
      DueGrowsByAdds(s, run[0], i, t);
      DueIsAddedInTime(Apply(s, run[0]), run[1..], i, t);
    }
  }

  /** Over any run from a reachable state, a reader is handed tag t once for each time it was added
    * while the reader had not passed its item, and is handed it when the reader passes the item;
    * until then all the copies stay in the list. */
  lemma TagsReachReaders(s: State, run: seq<Event>, i: nat, t: Tag)
    requires Inv(s) && RunLegal(s, run) && i < |s.readers|
    ensures i < |Run(s, run).readers|
    ensures var u := Run(s, run); var r := u.readers[i];
            var due := s.readers[i].due[t] + AddedInTime(s, run, i, t);
            if t.offset < r.read then multiset(r.got)[t] == due
            else multiset(r.got)[t] == 0 && multiset(u.tags)[t] == due
  {
    RunKeepsInv(s, run);
    DueIsAddedInTime(s, run, i, t);
    assert TagOk(Run(s, run).tags, Run(s, run).readers[i], t);
  }

  /** A tag added once, while its item is ahead of reader i, is returned to it exactly once. */
  lemma ExactlyOnce(s: State, tag: Tag, run: seq<Event>, i: nat)
    requires Inv(s) && i < |s.readers| && RunLegal(Apply(s, AddTag(tag)), run)
    requires s.readers[i].read <= tag.offset && s.readers[i].due[tag] == 0
    requires AddedInTime(Apply(s, AddTag(tag)), run, i, tag) == 0
    ensures i < |Run(Apply(s, AddTag(tag)), run).readers|
    ensures var u := Run(Apply(s, AddTag(tag)), run);
            multiset(u.readers[i].got)[tag] == (if tag.offset < u.readers[i].read then 1 else 0)
            && (u.readers[i].read <= tag.offset ==> multiset(u.tags)[tag] == 1)
  {
    var a := Apply(s, AddTag(tag));
    StepKeepsInv(s, AddTag(tag));
    DueGrowsByAdds(s, AddTag(tag), i, tag);
    TagsReachReaders(a, run, i, tag);
  }

  /** A tag added only after a reader has passed its item never reaches that reader. */
  lemma LateTagIsLost(s: State, tag: Tag, run: seq<Event>, i: nat)
    requires Inv(s) && i < |s.readers| && RunLegal(Apply(s, AddTag(tag)), run)
    requires tag.offset < s.readers[i].read && s.readers[i].due[tag] == 0
    ensures i < |Run(Apply(s, AddTag(tag)), run).readers|
    ensures tag !in Run(Apply(s, AddTag(tag)), run).readers[i].got
  {
    var a := Apply(s, AddTag(tag));
    StepKeepsInv(s, AddTag(tag));
    DueGrowsByAdds(s, AddTag(tag), i, tag);
    NothingInTime(a, run, i, tag);
    DueIsAddedInTime(a, run, i, tag);
    TagsReachReaders(a, run, i, tag);
  }

  lemma {:induction false} NothingInTime(s: State, run: seq<Event>, i: nat, t: Tag)
    requires RunLegal(s, run) && i < |s.readers| && t.offset < s.readers[i].read
    ensures AddedInTime(s, run, i, t) == 0
    decreases |run|
  {
    if run != [] {
      DueGrowsByAdds(s, run[0], i, t);
      NothingInTime(Apply(s, run[0]), run[1..], i, t);
    }
  }

  /** What pruning leaves: the tags at or after the slowest reader, none behind it. */
  lemma PruneKeepsExactlyUnread(s: State, t: Tag)
    ensures multiset(Apply(s, PruneTags).tags)[t]
         == if t.offset < s.written && forall r :: 0 <= r < |s.readers| ==> t.offset < s.readers[r].read
            then 0 else multiset(s.tags)[t]
  {
    PassedIsMinimal(s.readers, s.written);
    FromCount(s.tags, Passed(s.readers, s.written), t);
  }

  // ----- the objects

  class BufferReader {
    var totalRead: nat

    constructor ()
      ensures totalRead == 0
    {
      totalRead := 0;
    }

    method PostRead(items: nat)
      modifies this
      ensures totalRead == old(totalRead) + items
    {
      totalRead := totalRead + items;
    }
  }

  class Buffer {
    var tags: seq<Tag>
    var totalWritten: nat
    var readers: seq<BufferReader>
    ghost var state: State

    /** The fields are those of the specification state. */
    ghost predicate Valid()
      reads this, readers
    {
      && tags == state.tags
      && totalWritten == state.written
      && |readers| == |state.readers|
      && (forall i :: 0 <= i < |readers| ==> readers[i].totalRead == state.readers[i].read)
      && forall i, j :: 0 <= i < j < |readers| ==> readers[i] != readers[j]
    }

    constructor ()
      ensures Valid() && state == Init() && Inv(state)
      ensures tags == [] && totalWritten == 0 && readers == []
    {
      tags := [];
      totalWritten := 0;
      readers := [];
      state := Init();
    }

    method PostWrite(items: nat)
      requires Valid()
      modifies this
      ensures Valid() && readers == old(readers) && state == Apply(old(state), Event.PostWrite(items))
      ensures totalWritten == old(totalWritten) + items && tags == old(tags)
    {
      totalWritten := totalWritten + items;
      state := Apply(state, Event.PostWrite(items));
    }

    method AddTag(tag: Tag)
      requires Valid()
      modifies this
      ensures Valid() && readers == old(readers) && state == Apply(old(state), Event.AddTag(tag))
      ensures tags == old(tags) + [tag] && totalWritten == old(totalWritten)
    {
      tags := tags + [tag];
      state := Apply(state, Event.AddTag(tag));
    }

    method AddTags(items: nat, news: seq<Tag>)
      requires Valid()
      modifies this
      ensures Valid() && readers == old(readers) && state == Apply(old(state), Event.AddTags(items, news))
    {
      var first := (totalWritten - items) % UINT64_RANGE;
      ghost var was := tags;
      for k := 0 to |news|
        invariant tags == was + Window(news[..k], first, totalWritten)
        invariant totalWritten == old(totalWritten) && readers == old(readers) && state == old(state)
      {
        assert news[..k + 1] == news[..k] + [news[k]];
        WindowAppend(news[..k], news[k], first, totalWritten);
        if news[k].offset < first || news[k].offset >= totalWritten {
        } else {
          tags := tags + [news[k]];
        }
      }
      assert news[..|news|] == news;
      state := Apply(state, Event.AddTags(items, news));
    }

    /** The items the slowest reader has read. */
    method ReadByAll() returns (read: nat)
      requires Valid()
      ensures read == Passed(state.readers, state.written)
    {
      read := totalWritten;
      for i := 0 to |readers|
        invariant read == Passed(state.readers[..i], state.written)
      {
        assert state.readers[..i + 1][..i] == state.readers[..i];
        var n := readers[i].totalRead;
        if n < read {
          read := n;
        }
      }
      assert state.readers[..|readers|] == state.readers;
    }

    /** The erase loop: t walks over the list, which shrinks under it. */
    method EraseBefore(read: nat)
      modifies `tags
      ensures tags == From(old(tags), read)
    {
      ghost var was := tags;
      ghost var seen := 0;
      var t := 0;
      while t < |tags|
        invariant seen <= |was| && t == |From(was[..seen], read)|
        invariant tags == From(was[..seen], read) + was[seen..]
        decreases |tags| - t
      {
        PruneStep(was, seen, read);
        if tags[t].offset < read {
          tags := tags[..t] + tags[t + 1..];
        } else {
          t := t + 1;
        }
        seen := seen + 1;
      }
      assert was[..seen] == was;
    }

    method PruneTags()
      requires Valid()
      modifies `tags, `state
      ensures Valid() && state == Apply(old(state), Event.PruneTags)
    {
      var read := ReadByAll();
      EraseBefore(read);
      state := Apply(state, Event.PruneTags);
    }

    method AddReader() returns (r: BufferReader)
      requires Valid()
      modifies this
      ensures fresh(r) && readers == old(readers) + [r]
      ensures Valid() && state == Apply(old(state), Attach) && r.totalRead == 0
    {
      r := new BufferReader();
      readers := readers + [r];
      state := Apply(state, Attach);
    }

    method GetTags(reader: BufferReader, items: nat) returns (ret: seq<Tag>)
      ensures ret == Window(tags, reader.totalRead, reader.totalRead + items)
    {
      ret := [];
      for k := 0 to |tags|
        invariant ret == Window(tags[..k], reader.totalRead, reader.totalRead + items)
      {
        assert tags[..k + 1] == tags[..k] + [tags[k]];
        WindowAppend(tags[..k], tags[k], reader.totalRead, reader.totalRead + items);
        if tags[k].offset >= reader.totalRead && tags[k].offset < reader.totalRead + items {
          ret := ret + [tags[k]];
        }
      }
      assert tags[..|tags|] == tags;
    }

    /** A work call of the block behind reader i that reads all the items whose tags it fetched. */
    method TakeTags(i: nat, items: nat) returns (ret: seq<Tag>)
      requires Valid() && i < |readers|
      modifies `state, readers[i]
      ensures Valid() && state == AfterTake(old(state), i, items)
      ensures state.readers[i].got == old(state).readers[i].got + ret
      ensures var from := old(readers[i].totalRead);
              ret == Window(tags, from, from + items) && readers[i].totalRead == from + items
    {
      ret := GetTags(readers[i], items);
      readers[i].PostRead(items);
      state := AfterTake(state, i, items);
    }
  }
}
