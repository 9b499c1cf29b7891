/** Bytes, byte strings and the few operations on them that every module needs. */
module Bytes {
  type byte = bv8

  datatype Option<+T> = None | Some(value: T)

  function Min(a: int, b: int): int {
    if a <= b then a else b
  }

  /** `mem` with `data` written over it from `at` on. */
  function Splice<T>(mem: seq<T>, at: nat, data: seq<T>): (r: seq<T>)
    requires at + |data| <= |mem|
    ensures |r| == |mem|
    ensures forall a :: 0 <= a < |mem| ==> r[a] == if at <= a < at + |data| then data[a - at] else mem[a]
  {
    mem[..at] + data + mem[at + |data|..]
  }

  /** Writing two adjacent pieces is writing their concatenation. */
  lemma SpliceSplice<T>(mem: seq<T>, at: nat, first: seq<T>, second: seq<T>)
    requires at + |first| + |second| <= |mem|
    ensures Splice(Splice(mem, at, first), at + |first|, second) == Splice(mem, at, first + second)
  {}

  /** What was written is read back. */
  lemma SpliceRead<T>(mem: seq<T>, at: nat, data: seq<T>, from: nat, to: nat)
    requires at + |data| <= |mem| && from <= to <= |data|
    ensures Splice(mem, at, data)[at + from..at + to] == data[from..to]
  {}

  /** One more byte written. */
  lemma SpliceNext<T>(mem: seq<T>, at: nat, data: seq<T>, i: nat)
    requires i < |data| && at + |data| <= |mem|
    ensures Splice(mem, at, data[..i])[at + i := data[i]] == Splice(mem, at, data[..i + 1])
    ensures Splice(mem, at, data[..0]) == mem
  {}
}
