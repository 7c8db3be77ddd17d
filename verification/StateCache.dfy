/** The circular undo/redo cache of StateCache.py, against a bounded history with a cursor.
  */
module StateCache {
  import opened Arith
  import opened Sequences
  import opened Wrappers

  /** States before the cursor, oldest first; the state at it; states after it, next first. */
  datatype History<T> = History(past: seq<T>, current: T, future: seq<T>)

  // ----- the history

  /** A new state: the redo tail goes, and with it the oldest state if the past is full. */
  function Save<T>(h: History<T>, size: nat, x: T): History<T>
    requires 1 <= size
  {
    var all := h.past + [h.current];
    History(if |all| < size then all else all[|all| - (size - 1)..], x, [])
  }

  function Undo<T>(h: History<T>): History<T> {
    if h.past == [] then h
    else History(h.past[..|h.past| - 1], h.past[|h.past| - 1], [h.current] + h.future)
  }

  function Redo<T>(h: History<T>): History<T> {
    if h.future == [] then h
    else History(h.past + [h.current], h.future[0], h.future[1..])
  }

  lemma UndoRedoInverse<T>(h: History<T>)
    ensures h.past != [] ==> Redo(Undo(h)) == h
    ensures h.future != [] ==> Undo(Redo(h)) == h
  {
    if h.past != [] {
      assert h.past == h.past[..|h.past| - 1] + [h.past[|h.past| - 1]];
    }
    if h.future != [] {
      assert h.future == [h.future[0]] + h.future[1..];
    }
  }

  /** With nothing to undo or nothing to redo the history stays; otherwise the cursor moves by one state. */
  lemma CursorMoves<T>(h: History<T>)
    ensures h.past == [] ==> Undo(h) == h
    ensures h.future == [] ==> Redo(h) == h
    ensures h.past != [] ==> Undo(h).current == h.past[|h.past| - 1] && Undo(h).future == [h.current] + h.future
    ensures h.future != [] ==> Redo(h).current == h.future[0] && Redo(h).past == h.past + [h.current]
  {
  }

  datatype Command<T> = DoSave(x: T) | DoUndo | DoRedo

  function Apply<T>(h: History<T>, size: nat, c: Command<T>): History<T>
    requires 1 <= size
  {
    match c
    case DoSave(x) => Save(h, size, x)
    case DoUndo => Undo(h)
    case DoRedo => Redo(h)
  }

  function Run<T>(h: History<T>, size: nat, cs: seq<Command<T>>): History<T>
    requires 1 <= size
    decreases |cs|
  {
    if cs == [] then h else Run(Apply(h, size, cs[0]), size, cs[1..])
  }

  function Depth<T>(h: History<T>): nat { |h.past| + |h.future| }

  /** Over any run the cache offers at most size - 1 undos and redos together. */
  lemma {:induction false} RunKeepsBound<T>(h: History<T>, size: nat, cs: seq<Command<T>>)
    requires 1 <= size && Depth(h) <= size - 1
    ensures Depth(Run(h, size, cs)) <= size - 1
    decreases |cs|
  {
    if cs != [] {
      RunKeepsBound(Apply(h, size, cs[0]), size, cs[1..]);
    }
  }

  function SaveAll<T>(h: History<T>, size: nat, xs: seq<T>): History<T>
    requires 1 <= size
  {
    if xs == [] then h else Save(SaveAll(h, size, xs[..|xs| - 1]), size, xs[|xs| - 1])
  }

  function UndoAll<T>(h: History<T>, n: nat): History<T>
    decreases n
  {
    if n == 0 then h else UndoAll(Undo(h), n - 1)
  }

  function Last<T>(s: seq<T>, n: nat): (r: seq<T>)
    ensures |r| == if |s| < n then |s| else n
  {
    if |s| < n then s else s[|s| - n..]
  }

  lemma LastIsEnd<T>(s: seq<T>, n: nat, k: nat)
    requires k < |Last(s, n)|
    ensures |Last(s, n)| == |s| || |Last(s, n)| == n < |s|
    ensures Last(s, n)[k] == s[|s| - |Last(s, n)| + k]
  {
  }

  lemma LastOfLast<T>(s: seq<T>, x: T, n: nat)
    ensures Last(Last(s, n) + [x], n) == Last(s + [x], n)
  {
    if n <= |s| {
      assert Last(s, n) + [x] == (s + [x])[|s| - n..];
    }
  }

  lemma SaveKeepsLast<T>(h: History<T>, size: nat, x: T)
    requires 1 <= size && |h.past| <= size - 1
    ensures Save(h, size, x) == History(Last(h.past + [h.current], size - 1), x, [])
  {
  }

  /** After any saves the past is the most recent states, as many as fit. */
  lemma {:induction false} SavesKeepMostRecent<T>(h: History<T>, size: nat, xs: seq<T>)
    requires 1 <= size && Depth(h) <= size - 1 && xs != []
    ensures SaveAll(h, size, xs)
         == History(Last(h.past + [h.current] + xs[..|xs| - 1], size - 1), xs[|xs| - 1], [])
  {
    var init, x := xs[..|xs| - 1], xs[|xs| - 1];
    var before := h.past + [h.current];
    if init == [] {
      assert before + init == before;
      SaveKeepsLast(h, size, x);
    } else {
      SavesKeepMostRecent(h, size, init);
      OneMoreSaved(SaveAll(h, size, init), size, before, init, x);
    }
  }

  lemma OneMoreSaved<T>(g: History<T>, size: nat, before: seq<T>, saved: seq<T>, x: T)
    requires 1 <= size && saved != []
    requires g == History(Last(before + saved[..|saved| - 1], size - 1), saved[|saved| - 1], [])
    ensures Save(g, size, x) == History(Last(before + saved, size - 1), x, [])
  {
    var older, last := saved[..|saved| - 1], saved[|saved| - 1];
    SaveKeepsLast(g, size, x);
    LastOfLast(before + older, last, size - 1);
    ConcatAssociates(before, older, [last]);
    assert saved == older + [last];
  }

  /** As many undos as there were saves bring the saved-over state back, and leave the saved states to redo. */
  lemma {:induction false} UndoingSavesRestores<T>(h: History<T>, size: nat, xs: seq<T>)
    requires 1 <= size && |h.past| + |xs| <= size - 1 && xs != []
    ensures UndoAll(SaveAll(h, size, xs), |xs|) == History(h.past, h.current, xs)
  {
    var n := |xs|;
    SavesHaveRoom(h, size, xs);
    var walk := h.past + [h.current] + xs[..n - 1];
    UndoWalksBack(walk, xs[n - 1], [], n);
    assert walk[..|h.past|] == h.past && walk[|h.past|] == h.current && walk[|h.past| + 1..] == xs[..n - 1];
    assert xs[..n - 1] + [xs[n - 1]] + [] == xs;
  }

  lemma {:induction false} SavesHaveRoom<T>(h: History<T>, size: nat, xs: seq<T>)
    requires 1 <= size && |h.past| + |xs| <= size - 1 && xs != []
    ensures SaveAll(h, size, xs) == History(h.past + [h.current] + xs[..|xs| - 1], xs[|xs| - 1], [])
  {
    var init := xs[..|xs| - 1];
    if init == [] {
      assert h.past + [h.current] + init == h.past + [h.current];
    } else {
      SavesHaveRoom(h, size, init);
      assert h.past + [h.current] + init[..|init| - 1] + [init[|init| - 1]] == h.past + [h.current] + init;
    }
  }

  lemma {:induction false} UndoWalksBack<T>(past: seq<T>, x: T, future: seq<T>, n: nat)
    requires n <= |past|
    ensures UndoAll(History(past, x, future), n)
         == if n == 0 then History(past, x, future)
            else History(past[..|past| - n], past[|past| - n], past[|past| - n + 1..] + [x] + future)
  {
    if n != 0 {
      var init := past[..|past| - 1];
      UndoWalksBack(init, past[|past| - 1], [x] + future, n - 1);
      if n == 1 {
        assert past[|past| - n + 1..] + [x] + future == [x] + future;
      } else {
        assert init[|init| - (n - 1) + 1..] + [past[|past| - 1]] + ([x] + future)
            == past[|past| - n + 1..] + [x] + future;
        assert init[..|init| - (n - 1)] == past[..|past| - n];
      }
    }
  }

  // ----- the circular array

  /** d slots after, or before, slot i of n. */
  function Ahead(i: nat, d: nat, n: nat): nat
    requires i < n && d <= n
  {
    if i + d < n then i + d else i + d - n
  }

  function Behind(i: nat, d: nat, n: nat): nat
    requires i < n && d <= n
  {
    if d <= i then i - d else i + n - d
  }

  /** The counters and the array hold this history. */
  predicate Holds<T(==)>(states: seq<Option<T>>, index: nat, prev: nat, next: nat, h: History<T>) {
    && index < |states| && prev + next < |states|
    && |h.past| == prev && |h.future| == next
    && states[index] == Some(h.current)
    && (forall i :: 0 <= i < prev ==> states[Behind(index, prev - i, |states|)] == Some(h.past[i]))
    && forall i :: 0 <= i < next ==> states[Ahead(index, i + 1, |states|)] == Some(h.future[i])
  }

  lemma SaveHolds<T>(states: seq<Option<T>>, index: nat, prev: nat, next: nat, h: History<T>, x: T)
    requires Holds(states, index, prev, next, h)
    ensures var n := |states|;
            var at := Ahead(index, 1, n);
            at < n && Holds(states[at := Some(x)], at, if prev + 1 == n then n - 1 else prev + 1, 0, Save(h, n, x))
  {
    var n := |states|;
    var at := Ahead(index, 1, n);
    var p := if prev + 1 == n then n - 1 else prev + 1;
    SavedDepth(h, n, x);
    forall i | 0 <= i < p
      ensures states[at := Some(x)][Behind(at, p - i, n)] == Some(Save(h, n, x).past[i])
    {
      SavedSlot(states, index, prev, next, h, x, p - i - 1);
    }
  }

  lemma SavedDepth<T>(h: History<T>, n: nat, x: T)
    requires |h.past| < n
    ensures |Save(h, n, x).past| == if |h.past| + 1 == n then n - 1 else |h.past| + 1
    ensures Save(h, n, x).current == x && Save(h, n, x).future == []
  {
  }

  /** The state d before the one that is left is then d + 1 before the one saved. */
  lemma SavedSlot<T>(states: seq<Option<T>>, index: nat, prev: nat, next: nat, h: History<T>, x: T, d: nat)
    requires Holds(states, index, prev, next, h) && d < |Save(h, |states|, x).past|
    ensures var n, past := |states|, Save(h, |states|, x).past;
            var at := Ahead(index, 1, n);
            states[at := Some(x)][Behind(at, d + 1, n)] == Some(past[|past| - (d + 1)])
  {
    var n, past := |states|, Save(h, |states|, x).past;
    SavedDepth(h, n, x);
    SlotStays(index, d, n);
    assert past[|past| - (d + 1)] == (h.past + [h.current])[prev - d];
    if d > 0 {
      assert states[Behind(index, prev - (prev - d), n)] == Some(h.past[prev - d]);
    }
  }

  /** A slot d before the index is d + 1 before the next index, and is not that one. */
  lemma SlotStays(index: nat, d: nat, n: nat)
    requires index < n && d + 1 < n
    ensures Behind(Ahead(index, 1, n), d + 1, n) == Behind(index, d, n) != Ahead(index, 1, n)
  {
  }

  lemma UndoHolds<T>(states: seq<Option<T>>, index: nat, prev: nat, next: nat, h: History<T>)
    requires Holds(states, index, prev, next, h) && 0 < prev
    ensures Holds(states, Behind(index, 1, |states|), prev - 1, next + 1, Undo(h))
  {
    var n := |states|;
    var at := Behind(index, 1, n);
    assert states[Behind(index, prev - (prev - 1), n)] == Some(h.past[prev - 1]);
    forall i | 0 <= i < prev - 1 ensures states[Behind(at, prev - 1 - i, n)] == Some(h.past[i]) {
      assert Behind(at, prev - 1 - i, n) == Behind(index, prev - i, n);
    }
    forall i | 0 <= i < next + 1 ensures states[Ahead(at, i + 1, n)] == Some(([h.current] + h.future)[i]) {
      if i == 0 {
        assert Ahead(at, 1, n) == index;
      } else {
        assert Ahead(at, i + 1, n) == Ahead(index, i, n);
        assert states[Ahead(index, i - 1 + 1, n)] == Some(h.future[i - 1]);
      }
    }
  }

  lemma RedoHolds<T>(states: seq<Option<T>>, index: nat, prev: nat, next: nat, h: History<T>)
    requires Holds(states, index, prev, next, h) && 0 < next
    ensures Holds(states, Ahead(index, 1, |states|), prev + 1, next - 1, Redo(h))
  {
    var n := |states|;
    var at := Ahead(index, 1, n);
    assert states[Ahead(index, 0 + 1, n)] == Some(h.future[0]);
    forall i | 0 <= i < prev + 1 ensures states[Behind(at, prev + 1 - i, n)] == Some((h.past + [h.current])[i]) {
      if i == prev {
        assert Behind(at, 1, n) == index;
      } else {
        assert Behind(at, prev + 1 - i, n) == Behind(index, prev - i, n);
      }
    }
    forall i | 0 <= i < next - 1 ensures states[Ahead(at, i + 1, n)] == Some(h.future[1..][i]) {
      assert Ahead(at, i + 1, n) == Ahead(index, i + 1 + 1, n);
    }
  }

  lemma ModIsAhead(i: nat, d: nat, n: nat)
    requires i < n && d <= n
    ensures (i + d) % n == Ahead(i, d, n)
    ensures (i + n - d) % n == Behind(i, d, n)
  {
    if i + d < n {
      ModUnique(i + d, 0, i + d, n);
    } else {
      ModUnique(i + d, 1, i + d - n, n);
    }
    if d <= i {
      ModUnique(i + n - d, 1, i - d, n);
    } else {
      ModUnique(i + n - d, 0, i + n - d, n);
    }
  }

  class StateCache<T> {
    const states: array<Option<T>>
    var currentStateIndex: nat
    var numPrevStates: nat
    var numNextStates: nat
    ghost var history: History<T>

    ghost predicate Valid() reads this, states {
      Holds(states[..], currentStateIndex, numPrevStates, numNextStates, history)
    }

    constructor (size: nat, initial: T)
      requires 1 <= size
      ensures Valid() && fresh(states) && states.Length == size && history == History([], initial, [])
    {
      var s := new Option<T>[size](i => None);
      s[0] := Some(initial);
      states := s;
      currentStateIndex, numPrevStates, numNextStates := 0, 0, 0;
      history := History([], initial, []);
    }

    method SaveNewState(x: T)
      requires Valid()
      modifies this, states
      ensures Valid() && history == Save(old(history), states.Length, x)
    {
      SaveHolds(states[..], currentStateIndex, numPrevStates, numNextStates, history, x);
      ModIsAhead(currentStateIndex, 1, states.Length);
      currentStateIndex := (currentStateIndex + 1) % states.Length;
      ghost var after := states[..][currentStateIndex := Some(x)];
      states[currentStateIndex] := Some(x);
      assert states[..] == after;
      numPrevStates := numPrevStates + 1;
      if numPrevStates == states.Length {
        numPrevStates := states.Length - 1;
      }
      numNextStates := 0;
      history := Save(history, states.Length, x);
    }

    method GetCurrentState() returns (r: Option<T>)
      requires Valid()
      ensures r == Some(history.current)
    {
      r := states[currentStateIndex];
    }

    /** The previous state, or none when there is nothing to undo. */
    method GetPrevState() returns (r: Option<T>)
      requires Valid()
      modifies this
      ensures Valid() && history == Undo(old(history))
      ensures r == if old(history).past == [] then None else Some(history.current)
    {
      if numPrevStates > 0 {
        UndoHolds(states[..], currentStateIndex, numPrevStates, numNextStates, history);
        ModIsAhead(currentStateIndex, 1, states.Length);
        currentStateIndex := (currentStateIndex + states.Length - 1) % states.Length;
        numNextStates := numNextStates + 1;
        numPrevStates := numPrevStates - 1;
        history := Undo(history);
        r := GetCurrentState();
        return;
      }
      return None;
    }

    /** The next state, or none when there is nothing to redo. */
    method GetNextState() returns (r: Option<T>)
      requires Valid()
      modifies this
      ensures Valid() && history == Redo(old(history))
      ensures r == if old(history).future == [] then None else Some(history.current)
    {
      if numNextStates > 0 {
        RedoHolds(states[..], currentStateIndex, numPrevStates, numNextStates, history);
        ModIsAhead(currentStateIndex, 1, states.Length);
        currentStateIndex := (currentStateIndex + 1) % states.Length;
        numNextStates := numNextStates - 1;
        numPrevStates := numPrevStates + 1;
        history := Redo(history);
        r := GetCurrentState();
        return;
      }
      return None;
    }
  }
}
