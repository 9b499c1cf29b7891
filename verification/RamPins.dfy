/** src/ram.c: the external SRAM behind ports A to D. Every port assignment is followed by
    what the chip does with the new levels, so a write strobe at a wrong moment or a stray
    address would show up in its memory. */
module RamPins {
  import opened Bytes

  const RAM_SIZE := 0x1_0000

  // bits of port D
  const WE: byte := 0x01
  const CE: byte := 0x08
  const OE: byte := 0x20

  /** The address the chip sees: A0-A7 on port B, A8-A13 on bits 2-7 of port C, A14 and
      A15 on bits 6 and 7 of port D. */
  function Lines(portB: byte, portC: byte, portD: byte): bv16 {
    (portB as bv16) | ((portC & 0xfc) as bv16 << 6) | ((portD & 0xc0) as bv16 << 8)
  }

  /** The chip's memory with `data` stored at `addr`. */
  function Stored(mem: seq<byte>, addr: bv16, data: byte): (r: seq<byte>)
    requires |mem| == RAM_SIZE
    ensures |r| == RAM_SIZE
  {
    mem[addr as int := data]
  }

  lemma StoredTwice(mem: seq<byte>, addr: bv16, data: byte)
    requires |mem| == RAM_SIZE
    ensures Stored(Stored(mem, addr, data), addr, data) == Stored(mem, addr, data)
  {}

  /** Chip enable and write enable are both low. */
  predicate Strobed(portD: byte) {
    portD & (WE | CE) == 0
  }

  lemma LinesKept(b: byte, c: byte, d: byte, e: byte)
    requires d & 0xc0 == e & 0xc0
    ensures Lines(b, c, d) == Lines(b, c, e)
  {}

  /** Lowering and raising the strobes one at a time, from idle and back: only in the middle
      of a write is the chip strobed. */
  lemma Strobes(d: byte)
    requires d & (WE | CE | OE) == WE | CE | OE
    ensures !Strobed(d & !CE) && (d & !CE) & 0xc0 == d & 0xc0
    ensures Strobed(d & !CE & !WE) && (d & !CE & !WE) & 0xc0 == d & 0xc0
    ensures !Strobed((d & !CE & !WE) | WE) && (d & !CE & !WE) | WE | CE == d
    ensures !Strobed(d & !CE & !OE) && (d & !CE & !OE) & 0xc0 == d & 0xc0
    ensures !Strobed((d & !CE & !OE) | OE) && (d & !CE & !OE) | OE | CE == d
    ensures !Strobed(d) && (d & !CE & !OE) & (CE | OE) == 0 && (d & !CE & !OE) & WE != 0
  {}

  class Ports {
    var dataDdr: byte
    var dataPort: byte
    var portB: byte
    var portC: byte
    var portD: byte
    var chip: seq<byte>

    ghost predicate Valid()
      reads this
    {
      |chip| == RAM_SIZE
    }

    /** Between accesses the three strobes are high. */
    ghost predicate Idle()
      reads this
    {
      Valid() && portD & (WE | CE | OE) == WE | CE | OE
    }

    /** With chip enable and write enable low the chip stores the data lines, which float
        unless port A drives them. */
    method Settle()
      requires Valid()
      modifies this`chip
      ensures Valid()
      ensures !Strobed(portD) ==> chip == old(chip)
      ensures Strobed(portD) && dataDdr == 0xff ==>
                chip == Stored(old(chip), Lines(portB, portC, portD), dataPort)
    {
      if Strobed(portD) {
        var level: byte := *;
        if dataDdr == 0xff {
          level := dataPort;
        }
        chip := Stored(chip, Lines(portB, portC, portD), level);
      }
    }

    /** The five assignments that both accesses make, and make twice. */
    method SetAddress(addr: bv16)
      requires Idle()
      modifies this`portB, this`portC, this`portD, this`chip
      ensures Idle() && chip == old(chip)
      ensures Lines(portB, portC, portD) == addr
      ensures portC & 0x03 == old(portC) & 0x03 && portD & 0x3f == old(portD) & 0x3f
    {
      portB := (addr & 0xff) as byte;
      Settle();
      portC := portC & 0x03;
      Settle();
      portC := portC | ((addr >> 6) & 0xfc) as byte;
      Settle();
      portD := portD & 0x3f;
      Settle();
      portD := portD | ((addr >> 8) & 0xc0) as byte;
      Settle();
    }

    /** `ram_write_byte` changes the addressed byte and no other, and leaves every port bit
        that is not an address line as it was. */
    method WriteByte(addr: bv16, data: byte)
      requires Idle()
      modifies this
      ensures Idle() && chip == Stored(old(chip), addr, data)
      ensures Lines(portB, portC, portD) == addr
      ensures portC & 0x03 == old(portC) & 0x03 && portD & 0x3f == old(portD) & 0x3f
    {
      hide Strobed, Lines, Stored;
      StoredTwice(chip, addr, data);
      SetAddress(addr);
      SetAddress(addr);
      Strobes(portD);
      LinesKept(portB, portC, portD, portD & !CE & !WE);
      dataDdr := 0xff;
      dataPort := data;
      portD := portD & !CE;
      Settle();
      portD := portD & !WE;
      Settle();
      dataDdr := 0xff;
      dataPort := data;
      Settle();
      portD := portD | WE;
      Settle();
      portD := portD | CE;
      Settle();
      dataDdr := 0;
    }

    /** What the chip drives onto port A: its byte at the address lines while it is enabled
        for output, otherwise nothing in particular. */
    method DataPin() returns (level: byte)
      requires Valid()
      ensures portD & (CE | OE) == 0 && portD & WE != 0 && dataDdr == 0 ==>
                level == chip[Lines(portB, portC, portD) as int]
    {
      level := *;
      if portD & (CE | OE) == 0 && portD & WE != 0 && dataDdr == 0 {
        level := chip[Lines(portB, portC, portD) as int];
      }
    }

    /** `ram_read_byte` returns the addressed byte and changes none. */
    method ReadByte(addr: bv16) returns (temp: byte)
      requires Idle()
      modifies this
      ensures Idle() && chip == old(chip) && temp == chip[addr as int]
      ensures portC & 0x03 == old(portC) & 0x03 && portD & 0x3f == old(portD) & 0x3f
    {
      hide Strobed, Lines;
      dataDdr := 0;
      SetAddress(addr);
      SetAddress(addr);
      Strobes(portD);
      LinesKept(portB, portC, portD, portD & !CE & !OE);
      portD := portD & !CE;
      Settle();
      portD := portD & !OE;
      Settle();
      temp := DataPin();
      temp := DataPin();
      temp := DataPin();
      portD := portD | OE;
      Settle();
      portD := portD | CE;
      Settle();
    }
  }
}
