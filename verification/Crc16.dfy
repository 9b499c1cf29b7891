/** The CRC-16 of src/usbdrv/usbdrvasm.S: the two register-level `usbCrc16` routines,
    the table form given as pseudo-code beside them, and `usbCrc16Append`.
    The reference is the bit-serial CRC of section 8.3.5 of USB 2.0, reflected. */
module Crc16 {
  import opened Bytes

  // ---------------------------------------------------------------- reference

  const POLY: bv16 := 0xa001

  /** One data bit, the low bit of `s`, enters the reflected shift register:
      the polynomial is added when it differs from the bit shifted out. */
  function ShiftBit(c: bv16, s: bv16): bv16 {
    (c >> 1) ^ (-((c ^ s) & 1) & POLY)
  }

  /** The four low bits of `s` enter the register, least significant bit first. */
  function ShiftNibble(c: bv16, s: bv16): bv16 {
    ShiftBit(ShiftBit(ShiftBit(ShiftBit(c, s), s >> 1), s >> 2), s >> 3)
  }

  function ShiftByte(c: bv16, s: bv16): bv16 {
    ShiftNibble(ShiftNibble(c, s), s >> 4)
  }

  /** A byte as the low half of a word. */
  function Wide(b: byte): bv16 { b as bv16 }

  /** The register, started at all ones, after the bytes of `data`. */
  function Register(data: seq<byte>): bv16 {
    if data == [] then 0xffff
    else ShiftByte(Register(data[..|data| - 1]), Wide(data[|data| - 1]))
  }

  /** The transmitted value is the complement of the register. */
  function Crc(data: seq<byte>): bv16 {
    !Register(data)
  }

  // ------------------------------------------------------ the table-free form

  /** The `table` function of the fast form, on an 8-bit `x`. */
  function Table(x: bv16): bv16 {
    (x << 6) ^ (x << 7) ^ (-Parity(x) & 0xc001)
  }

  function Parity(x: bv16): bv16 {
    (x ^ (x >> 1) ^ (x >> 2) ^ (x >> 3) ^ (x >> 4) ^ (x >> 5) ^ (x >> 6) ^ (x >> 7)) & 1
  }

  function TableStep(c: bv16, s: bv16): bv16 {
    Table((c ^ s) & 0xff) ^ (c >> 8)
  }

  // --------------------------------------------------------- turns of the loop

  /** One turn with no data bit: what the slow loop does once the byte is XORed in. */
  function Turn(c: bv16): bv16 {
    (c >> 1) ^ (-(c & 1) & POLY)
  }

  function Turns4(c: bv16): bv16 {
    Turn(Turn(Turn(Turn(c))))
  }

  lemma XorFirstNibble(c: bv16, s: bv16)
    ensures Turns4(c ^ s) == ShiftNibble(c, s) ^ (s >> 4)
  {}

  lemma XorSecondNibble(t: bv16, c: bv16, r: bv16)
    requires r < 16 && t == c ^ r
    ensures Turns4(t) == ShiftNibble(c, r)
  {}

  /** XORing the whole byte in first and feeding its bits one by one agree. */
  lemma XorFirst(c: bv16, s: bv16)
    requires s < 256
    ensures Turns4(Turns4(c ^ s)) == ShiftByte(c, s)
  {
    hide Turns4, ShiftNibble;
    XorFirstNibble(c, s);
    XorSecondNibble(Turns4(c ^ s), ShiftNibble(c, s), s >> 4);
  }

  lemma HighWaits(w: bv16)
    ensures Turns4(w) == Turns4(w & 0xff) ^ ((w >> 8) << 4)
  {}

  lemma HighArrives(t: bv16, u: bv16, high: bv16)
    requires high < 256 && t == u ^ (high << 4)
    ensures Turns4(t) == Turns4(u) ^ high
  {}

  lemma LowIsTable(x: bv16)
    requires x < 256
    ensures Turns4(Turns4(x)) == Table(x)
  {}

  lemma HighKept(c: bv16, s: bv16)
    requires s < 256
    ensures (c ^ s) >> 8 == c >> 8
  {}

  /** Eight turns: the table for the low byte, the high byte moved down. */
  lemma TableIsTurns(w: bv16, high: bv16)
    requires high == w >> 8
    ensures Turns4(Turns4(w)) == Table(w & 0xff) ^ high
  {
    hide Turns4, Table;
    HighWaits(w);
    HighArrives(Turns4(w), Turns4(w & 0xff), high);
    LowIsTable(w & 0xff);
  }

  lemma StepIsTurns(c: bv16, s: bv16, w: bv16, high: bv16)
    requires w == c ^ s && high == c >> 8 && high == w >> 8
    ensures TableStep(c, s) == Turns4(Turns4(w))
  {
    hide Turns4, Table;
    TableIsTurns(w, high);
  }

  /** The table form computes the bit-serial step. */
  lemma TableIsShift(c: bv16, s: bv16)
    requires s < 256
    ensures TableStep(c, s) == ShiftByte(c, s)
  {
    hide Turns4, ShiftByte, TableStep;
    XorFirst(c, s);
    HighKept(c, s);
    StepIsTurns(c, s, c ^ s, c >> 8);
  }

  // ----------------------------------------------------------- register level

  function Lo(w: bv16): byte { (w & 0xff) as byte }

  function Hi(w: bv16): byte { (w >> 8) as byte }

  /** The register pair resCrcH:resCrcL. */
  function Word(high: byte, low: byte): bv16 { ((high as bv16) << 8) | (low as bv16) }

  /** The `ror` instruction: the carry comes in at the top. */
  function Ror(r: byte, carry: bool): byte {
    (r >> 1) | (if carry then 0x80 else 0)
  }

  function LowBit(r: byte): bool { r & 1 == 1 }

  /** The slow form keeps the pair complemented. */
  function Complemented(high: byte, low: byte): bv16 { !Word(high, low) }

  /** XORing the data byte into the low register of the complemented pair. */
  lemma EorByte(high: byte, low: byte, b: byte)
    ensures Complemented(high, low ^ b) == Complemented(high, low) ^ Wide(b)
  {}

  /** Rotating a set carry into the complemented pair is a turn of the true register when
      a one falls out; when a zero falls out the polynomial is still to be added. */
  lemma RotateOne(high: byte, low: byte)
    requires LowBit(low)
    ensures Turn(Complemented(high, low)) == Complemented(Ror(high, true), Ror(low, LowBit(high)))
  {}

  lemma RotateZero(high: byte, low: byte)
    requires !LowBit(low)
    ensures Turn(Complemented(high, low)) ==
            Complemented(Ror(high, true) ^ Hi(POLY), Ror(low, LowBit(high)) ^ Lo(POLY))
  {}

  function Turns(c: bv16, k: nat): bv16
    decreases k
  {
    if k == 0 then c else Turn(Turns(c, k - 1))
  }

  lemma EightTurns(c: bv16)
    ensures Turns(c, 8) == Turns4(Turns4(c))
  {
    hide Turn;
    assert Turns(c, 1) == Turn(c);
    assert Turns(c, 2) == Turn(Turn(c));
    assert Turns(c, 4) == Turns4(c) by {
      assert Turns(c, 3) == Turn(Turns(c, 2));
    }
    assert Turns(c, 6) == Turn(Turn(Turns4(c))) by {
      assert Turns(c, 5) == Turn(Turns(c, 4));
    }
    assert Turns(c, 7) == Turn(Turns(c, 6));
  }

  lemma RegisterAppend(data: seq<byte>, b: byte)
    ensures Register(data + [b]) == ShiftByte(Register(data), Wide(b))
  {
    hide ShiftByte;
    assert (data + [b])[..|data|] == data;
  }

  lemma RegisterStep(data: seq<byte>, b: byte)
    ensures Register(data + [b]) == Turns4(Turns4(Register(data) ^ Wide(b)))
  {
    hide *;
    RegisterAppend(data, b);
    ByteFits(b);
    XorFirst(Register(data), Wide(b));
  }

  lemma ByteFits(b: byte)
    ensures Wide(b) < 256
  {}

  /** The body of the bit loop, entered with the carry set. */
  method BitTurn(high: byte, low: byte, carryIn: bool) returns (resCrcH: byte, resCrcL: byte)
    requires carryIn
    ensures Complemented(resCrcH, resCrcL) == Turn(Complemented(high, low))
  {
    hide Complemented, Turn, Ror, LowBit, Lo, Hi;
    if LowBit(low) {
      RotateOne(high, low);
    } else {
      RotateZero(high, low);
    }
    var carry := LowBit(high);
    resCrcH := Ror(high, carryIn);
    resCrcL := Ror(low, carry);
    carry := LowBit(low);
    if !carry {
      resCrcL, resCrcH := resCrcL ^ Lo(POLY), resCrcH ^ Hi(POLY);
    }
  }

  /** The bit loop: 224 is subtracted from the 8-bit counter until no borrow is left. */
  method BitLoop(high: byte, low: byte, carryIn: bool) returns (resCrcH: byte, resCrcL: byte)
    requires carryIn
    ensures Complemented(resCrcH, resCrcL) == Turns(Complemented(high, low), 8)
  {
    hide Complemented, Turn;
    var bitCnt, carry := 0, carryIn;
    resCrcH, resCrcL := high, low;
    ghost var k := 0;
    while carry
      invariant 0 <= k <= 8 && bitCnt == (32 * k) % 256 && carry == (k < 8)
      invariant Complemented(resCrcH, resCrcL) == Turns(Complemented(high, low), k)
      decreases 8 - k
    {
      resCrcH, resCrcL := BitTurn(resCrcH, resCrcL, carry);
      carry := bitCnt < 224;
      bitCnt := (bitCnt - 224) % 256;
      k := k + 1;
    }
  }

  /** The slow `usbCrc16`: with the pair complemented, the carry that is always set when a
      turn begins is the zero shifted into the true register. The byte counter, too, counts
      up to an 8-bit overflow. */
  method UsbCrc16Slow(data: array<byte>, from: nat, len: nat) returns (resCrcH: byte, resCrcL: byte)
    requires from + len <= data.Length && len <= 255
    ensures Word(resCrcH, resCrcL) == Crc(data[from..from + len])
  {
    hide Complemented, Turns, Turns4, Register, Crc, Wide;
    var ptr := from;
    resCrcL, resCrcH := 0, 0;
    StartsComplemented();
    assert data[from..ptr] == [];
    var argLen := 255 - len;
    var carry := argLen < 255;
    argLen := (argLen + 1) % 256;
    while carry
      invariant from <= ptr <= from + len
      invariant carry == (ptr < from + len) && (carry ==> argLen == 256 - (from + len - ptr))
      invariant Complemented(resCrcH, resCrcL) == Register(data[from..ptr])
      decreases from + len - ptr
    {
      var b := data[ptr];
      ptr := ptr + 1;
      RegisterStep(data[from..ptr - 1], b);
      assert data[from..ptr] == data[from..ptr - 1] + [b];
      EorByte(resCrcH, resCrcL, b);
      EightTurns(Complemented(resCrcH, resCrcL ^ b));
      resCrcL := resCrcL ^ b;
      resCrcH, resCrcL := BitLoop(resCrcH, resCrcL, carry);
      carry := argLen < 255;
      argLen := (argLen + 1) % 256;
    }
    CrcFromComplemented(resCrcH, resCrcL, data[from..from + len]);
  }

  lemma StartsComplemented()
    ensures Complemented(0, 0) == Register([])
  {}

  lemma Twice(w: bv16)
    ensures !!w == w
  {}

  lemma CrcFromComplemented(high: byte, low: byte, data: seq<byte>)
    requires Complemented(high, low) == Register(data)
    ensures Word(high, low) == Crc(data)
  {
    hide Word, Register;
    Twice(Word(high, low));
  }

  /** The parity of `x` as the fast form folds it: nibbles, then pairs, then an increment
      whose carry is the exclusive or of the two bits left. */
  method ParityOf(x: byte) returns (p: byte)
    ensures p as bv16 == Parity(x as bv16)
  {
    p := (x << 4) | (x >> 4);
    p := p ^ x;
    var scratch := p;
    p := p >> 1;
    p := p >> 1;
    p := p ^ scratch;
    p := p + 1;
    p := p >> 1;
    p := p & 1;
  }

  /** The two shifts of `x` under the previous high byte. */
  method ShiftIn(high: byte, x: byte, p: byte) returns (resCrcH: byte, resCrcL: byte)
    requires p == 0 || p == 1
    ensures Word(resCrcH, resCrcL) ==
            ((x as bv16) << 6) ^ ((x as bv16) << 7) ^ (-(p as bv16) & 0xc001) ^ (high as bv16)
  {
    var scratch := x;
    resCrcL := high;
    resCrcL := resCrcL ^ p;
    resCrcH := -p & 0xc0;
    var shifted: byte := 0;
    shifted, scratch := Ror(shifted, LowBit(scratch)), scratch >> 1;
    resCrcH := resCrcH ^ scratch;
    resCrcL := resCrcL ^ shifted;
    shifted, scratch := Ror(shifted, LowBit(scratch)), scratch >> 1;
    resCrcH := resCrcH ^ scratch;
    resCrcL := resCrcL ^ shifted;
  }

  /** One byte of the fast `usbCrc16`, instruction by instruction. */
  method FastByte(high: byte, low: byte, b: byte) returns (resCrcH: byte, resCrcL: byte)
    ensures Word(resCrcH, resCrcL) == TableStep(Word(high, low), Wide(b))
  {
    hide Parity, Word, Wide;
    var x := low ^ b;
    var p := ParityOf(x);
    ParityBit(x as bv16);
    resCrcH, resCrcL := ShiftIn(high, x, p);
    WordSplits(high, low, b);
  }

  lemma ParityBit(x: bv16)
    ensures Parity(x) == 0 || Parity(x) == 1
  {}

  lemma WordSplits(high: byte, low: byte, b: byte)
    ensures (Word(high, low) ^ Wide(b)) & 0xff == (low ^ b) as bv16
    ensures Word(high, low) >> 8 == high as bv16
  {}

  /** The fast `usbCrc16`: the length counts down to an 8-bit borrow. */
  method UsbCrc16Fast(data: array<byte>, from: nat, len: nat) returns (resCrcH: byte, resCrcL: byte)
    requires from + len <= data.Length && len <= 255
    ensures Word(resCrcH, resCrcL) == Crc(data[from..from + len])
  {
    hide Word, TableStep, ShiftByte, Register, Crc, Wide;
    var ptr := from;
    resCrcL, resCrcH := 0xff, 0xff;
    StartsAllOnes();
    assert data[from..ptr] == [];
    var borrow := len < 1;
    var argLen := (len - 1) % 256;
    while !borrow
      invariant from <= ptr <= from + len
      invariant borrow == (ptr == from + len) && (!borrow ==> argLen == from + len - ptr - 1)
      invariant Word(resCrcH, resCrcL) == Register(data[from..ptr])
      decreases from + len - ptr
    {
      var b := data[ptr];
      ptr := ptr + 1;
      RegisterAppend(data[from..ptr - 1], b);
      assert data[from..ptr] == data[from..ptr - 1] + [b];
      ByteFits(b);
      TableIsShift(Word(resCrcH, resCrcL), Wide(b));
      resCrcH, resCrcL := FastByte(resCrcH, resCrcL, b);
      borrow := argLen < 1;
      argLen := (argLen - 1) % 256;
    }
    ComplementBytes(resCrcH, resCrcL, data[from..from + len]);
    resCrcL := !resCrcL;
    resCrcH := !resCrcH;
  }

  lemma StartsAllOnes()
    ensures Word(0xff, 0xff) == Register([])
  {}

  lemma ComplementBytes(high: byte, low: byte, data: seq<byte>)
    requires Word(high, low) == Register(data)
    ensures Word(!high, !low) == Crc(data)
  {
    hide Register;
  }

  // ------------------------------------------------------------- the trailer

  /** The two bytes stored by `usbCrc16Append`, low byte first. */
  function Trailer(data: seq<byte>): (t: seq<byte>)
    ensures |t| == 2
  {
    [Lo(Crc(data)), Hi(Crc(data))]
  }

  lemma HalvesOfWord(high: byte, low: byte)
    ensures Lo(Word(high, low)) == low && Hi(Word(high, low)) == high
  {}

  /** `usbCrc16Append`: the pointer is left behind the data by `usbCrc16`. */
  method UsbCrc16Append(data: array<byte>, from: nat, len: nat)
    requires from + len + 2 <= data.Length && len <= 255
    modifies data
    ensures data[..] ==
            old(data[..from + len]) + Trailer(old(data[from..from + len])) + old(data[from + len + 2..])
  {
    hide Word, Crc, Lo, Hi;
    var resCrcH, resCrcL := UsbCrc16Slow(data, from, len);
    HalvesOfWord(resCrcH, resCrcL);
    data[from + len] := resCrcL;
    data[from + len + 1] := resCrcH;
  }

  const RESIDUE: bv16 := 0xb001

  /** Two more bytes bring the register to the residue exactly when they are its
      complement, low byte first. */
  lemma TwoBytesToResidue(c: bv16, p: byte, q: byte)
    ensures TableStep(TableStep(c, Wide(p)), Wide(q)) == RESIDUE <==> p == Lo(!c) && q == Hi(!c)
  {}

  lemma RegisterAppendTwo(data: seq<byte>, p: byte, q: byte)
    ensures Register(data + [p, q]) == TableStep(TableStep(Register(data), Wide(p)), Wide(q))
  {
    hide ShiftByte, TableStep, Register, Wide;
    assert data + [p, q] == (data + [p]) + [q];
    RegisterAppend(data, p);
    RegisterAppend(data + [p], q);
    ByteFits(p);
    ByteFits(q);
    TableIsShift(Register(data), Wide(p));
    TableIsShift(Register(data + [p]), Wide(q));
  }

  /** A receiver that runs the CRC over data and trailer sees the constant 0x4ffe exactly
      when the trailer is the one `usbCrc16Append` writes for that data. */
  lemma TrailerIffResidue(data: seq<byte>, t: seq<byte>)
    requires |t| == 2
    ensures Crc(data + t) == 0x4ffe <==> t == Trailer(data)
  {
    hide TableStep, Register, Wide, Lo, Hi;
    assert t == [t[0], t[1]];
    RegisterAppendTwo(data, t[0], t[1]);
    TwoBytesToResidue(Register(data), t[0], t[1]);
    ResidueComplement(Register(data + t));
  }

  lemma ResidueComplement(c: bv16)
    ensures !c == 0x4ffe <==> c == RESIDUE
  {}
}
