/** The dirty map `blocks_written` of src/main.c: 128 blocks, one bit each. */
module Bitmap {
  import opened Bytes

  const BLOCKS := 128
  const MAP_BYTES := 16

  type DirtyMap = m: seq<byte> | |m| == MAP_BYTES witness seq(MAP_BYTES, _ => 0)

  /** `1 << j`. */
  function Mask(j: nat): byte
    requires j < 8
  {
    if j == 0 then 0x01 else if j == 1 then 0x02 else if j == 2 then 0x04 else if j == 3 then 0x08
    else if j == 4 then 0x10 else if j == 5 then 0x20 else if j == 6 then 0x40 else 0x80
  }

  predicate Bit(m: byte, j: nat)
    requires j < 8
  {
    m & Mask(j) != 0
  }

  predicate IsDirty(m: DirtyMap, b: nat)
    requires b < BLOCKS
  {
    Bit(m[b / 8], b % 8)
  }

  function Mark(m: DirtyMap, b: nat): DirtyMap
    requires b < BLOCKS
  {
    m[b / 8 := m[b / 8] | Mask(b % 8)]
  }

  function Clear(m: DirtyMap, b: nat): DirtyMap
    requires b < BLOCKS
  {
    m[b / 8 := m[b / 8] & !Mask(b % 8)]
  }

  lemma BitAfter(m: byte, i: nat, j: nat)
    requires i < 8 && j < 8
    ensures Bit(m | Mask(i), j) <==> i == j || Bit(m, j)
    ensures Bit(m & !Mask(i), j) <==> i != j && Bit(m, j)
  {}

  lemma ZeroByte(m: byte)
    ensures m == 0 <==> forall j :: 0 <= j < 8 ==> !Bit(m, j)
  {
    assert m == m & (Mask(0) | Mask(1) | Mask(2) | Mask(3) | Mask(4) | Mask(5) | Mask(6) | Mask(7));
    if m != 0 {
      assert Bit(m, 0) || Bit(m, 1) || Bit(m, 2) || Bit(m, 3) || Bit(m, 4) || Bit(m, 5) || Bit(m, 6) || Bit(m, 7);
    }
  }

  /** Marking a block makes that block dirty and changes no other. */
  lemma MarkOne(m: DirtyMap, b: nat, c: nat)
    requires b < BLOCKS && c < BLOCKS
    ensures IsDirty(Mark(m, b), c) <==> b == c || IsDirty(m, c)
  {
    hide Bit, Mask;
    BitAfter(m[b / 8], b % 8, c % 8);
  }

  lemma ClearOne(m: DirtyMap, b: nat, c: nat)
    requires b < BLOCKS && c < BLOCKS
    ensures IsDirty(Clear(m, b), c) <==> b != c && IsDirty(m, c)
  {
    hide Bit, Mask;
    BitAfter(m[b / 8], b % 8, c % 8);
  }

  ghost function DirtySet(m: DirtyMap): set<int> {
    set b | 0 <= b < BLOCKS && IsDirty(m, b)
  }

  /** The lowest dirty block from `from` on, or -1. */
  function FirstDirty(m: DirtyMap, from: nat): (b: int)
    requires from <= BLOCKS
    ensures b == -1 || from <= b < BLOCKS
    decreases BLOCKS - from
  {
    if from == BLOCKS then -1 else if IsDirty(m, from) then from else FirstDirty(m, from + 1)
  }

  lemma {:induction false} FirstDirtyIsLowest(m: DirtyMap, from: nat)
    requires from <= BLOCKS
    ensures
      var b := FirstDirty(m, from);
      if b == -1 then forall c :: from <= c < BLOCKS ==> !IsDirty(m, c)
      else IsDirty(m, b) && forall c :: from <= c < b ==> !IsDirty(m, c)
    decreases BLOCKS - from
  {
    hide IsDirty;
    if from < BLOCKS && !IsDirty(m, from) {
      FirstDirtyIsLowest(m, from + 1);
    }
  }

  /** A map byte whose eight bits are clear is skipped. */
  lemma {:induction false} FirstDirtySkips(m: DirtyMap, from: nat, to: nat)
    requires from <= to <= BLOCKS
    requires forall c :: from <= c < to ==> !IsDirty(m, c)
    ensures FirstDirty(m, from) == FirstDirty(m, to)
    decreases BLOCKS - from
  {
    hide IsDirty;
    if from < to {
      FirstDirtySkips(m, from + 1, to);
    }
  }

  /** Clearing the block found takes exactly that block out of the dirty set. */
  lemma ClearFirst(m: DirtyMap)
    ensures FirstDirty(m, 0) == -1 <==> DirtySet(m) == {}
    ensures FirstDirty(m, 0) == -1 <==> m == seq(MAP_BYTES, _ => 0)
    ensures FirstDirty(m, 0) >= 0 ==>
              FirstDirty(m, 0) in DirtySet(m)
              && DirtySet(Clear(m, FirstDirty(m, 0))) == DirtySet(m) - {FirstDirty(m, 0)}
  {
    hide Bit, Mask;
    var b := FirstDirty(m, 0);
    FirstDirtyIsLowest(m, 0);
    if b >= 0 {
      assert b in DirtySet(m);
      forall c: nat | c < BLOCKS ensures IsDirty(Clear(m, b), c) <==> b != c && IsDirty(m, c) {
        ClearOne(m, b, c);
      }
      ZeroByte(m[b / 8]);
    } else {
      forall i | 0 <= i < MAP_BYTES ensures m[i] == 0 {
        forall j | 0 <= j < 8 ensures !Bit(m[i], j) {
          assert !IsDirty(m, i * 8 + j);
        }
        ZeroByte(m[i]);
      }
    }
  }
}
