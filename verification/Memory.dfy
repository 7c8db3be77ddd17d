/** Byte memory as the buffers use it: overwriting a range, memcpy and memmove. */
module Memory {
  import opened Arith

  newtype Byte = x: int | 0 <= x < 256

  /** The memory after `data` has been stored from position `at` on. */
  function Overwrite<T>(mem: seq<T>, at: nat, data: seq<T>): (r: seq<T>)
    requires at + |data| <= |mem|
    ensures |r| == |mem|
    ensures forall i :: 0 <= i < |mem| ==>
                          r[i] == if at <= i < at + |data| then data[i - at] else mem[i]
  {
    seq(|mem|, i requires 0 <= i < |mem| => if at <= i < at + |data| then data[i - at] else mem[i])
  }

  /** `data` lies in the memory from position `at` on. */
  predicate Stored<T(==)>(mem: seq<T>, at: nat, data: seq<T>) {
    at + |data| <= |mem| && mem[at..at + |data|] == data
  }

  /** An index of a buffer of `size` bytes that has run at most once past its end. */
  function Wrap(i: nat, size: nat): nat
    requires i < 2 * size
  {
    if i < size then i else i - size
  }

  lemma WrapIsCell(i: nat, size: nat)
    requires i < 2 * size
    ensures Wrap(i, size) == i % size
  {
    ModUnique(i, if i < size then 0 else 1, Wrap(i, size), size);
  }

  function Min(a: nat, b: nat): nat {
    if a <= b then a else b
  }

  lemma MinIsLeast(a: nat, b: nat, c: nat)
    ensures c <= Min(a, b) <==> c <= a && c <= b
  {
  }

  /** memcpy: source and destination must not overlap. */
  method MemCpy<T>(a: array<T>, dst: nat, src: nat, n: nat)
    requires dst + n <= a.Length && src + n <= a.Length
    requires n == 0 || dst + n <= src || src + n <= dst
    modifies a
    ensures a[..] == Overwrite(old(a[..]), dst, old(a[..])[src..src + n])
  {
    for k := 0 to n
      invariant forall i :: 0 <= i < a.Length ==>
                              a[i] == if dst <= i < dst + k then old(a[src + i - dst]) else old(a[i])
    {
      a[dst + k] := a[src + k];
    }
  }

  /** memmove: the ranges may overlap, so the copy starts from the side that is safe. */
  method MemMove<T>(a: array<T>, dst: nat, src: nat, n: nat)
    requires dst + n <= a.Length && src + n <= a.Length
    modifies a
    ensures a[..] == Overwrite(old(a[..]), dst, old(a[..])[src..src + n])
  {
    if dst <= src {
      MoveDown(a, dst, src, n);
    } else {
      MoveUp(a, dst, src, n);
    }
  }

  method MoveDown<T>(a: array<T>, dst: nat, src: nat, n: nat)
    requires dst <= src && src + n <= a.Length
    modifies a
    ensures a[..] == Overwrite(old(a[..]), dst, old(a[..])[src..src + n])
  {
    for k := 0 to n
      invariant forall i :: 0 <= i < a.Length ==>
                              a[i] == if dst <= i < dst + k then old(a[src + i - dst]) else old(a[i])
    {
      a[dst + k] := a[src + k];
    }
  }

  method MoveUp<T>(a: array<T>, dst: nat, src: nat, n: nat)
    requires src <= dst && dst + n <= a.Length
    modifies a
    ensures a[..] == Overwrite(old(a[..]), dst, old(a[..])[src..src + n])
  {
    for k := n downto 0
      invariant forall i :: 0 <= i < a.Length ==>
                              a[i] == if dst + k <= i < dst + n then old(a[src + i - dst]) else old(a[i])
    {
      a[dst + k] := a[src + k];
    }
  }
}
