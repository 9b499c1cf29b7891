/** src/ext_eeprom.c: block reads and writes over a bus that may fail at any step. */
module ExtEeprom {
  import opened Bytes
  import opened LoopEnds
  import opened PageSplit

  datatype TwiResult = TWI_OK | TWI_ERR

  /** The chip's address counter after `k` bytes of a sequential read. */
  function Counter(addr: nat, k: nat): (c: nat)
    ensures c < EEPROM_SIZE
  {
    (addr + k) % EEPROM_SIZE
  }

  lemma CounterNext(addr: nat, k: nat)
    ensures Counter(addr, k + 1) == (Counter(addr, k) + 1) % EEPROM_SIZE
    ensures addr < EEPROM_SIZE ==> Counter(addr, 0) == addr
  {}

  function Dword(d: bv32): (bytes: seq<byte>)
    ensures |bytes| == 4
  {
    [(d & 0xff) as byte, ((d >> 8) & 0xff) as byte, ((d >> 16) & 0xff) as byte, (d >> 24) as byte]
  }

  /** The chip on its bus, and the driver routines that talk to it. The bus may fail at any
      step; the chip stores a page write only when its stop condition arrives. */
  class Eeprom {
    var mem: seq<byte>
    /** The chip's address counter. */
    var pointer: nat
    /** The bytes of a page write since its address, not yet stored. */
    var latched: seq<byte>
    /** How many steps of the bus failed; the polls of a wait that ended well do not count. */
    ghost var failed: nat

    ghost predicate Valid()
      reads this
    {
      |mem| == EEPROM_SIZE && pointer < EEPROM_SIZE
    }

    constructor (contents: seq<byte>)
      requires |contents| == EEPROM_SIZE
      ensures Valid() && mem == contents && failed == 0
    {
      mem, pointer, latched, failed := contents, 0, [], 0;
    }

    /** One step of the bus: whether it succeeds is not up to the driver. */
    method BusStep() returns (ret: TwiResult)
      modifies this`failed
      ensures failed == old(failed) + if ret == TWI_OK then 0 else 1
    {
      ret := *;
      failed := failed + if ret == TWI_OK then 0 else 1;
    }

    /** A start condition drops an unfinished page write. */
    method Start() returns (ret: TwiResult)
      modifies this`latched, this`failed
      ensures latched == []
      ensures failed == old(failed) + if ret == TWI_OK then 0 else 1
    {
      latched := [];
      ret := BusStep();
    }

    method SendByte(b: byte) returns (ret: TwiResult)
      modifies this`latched, this`failed
      ensures ret == TWI_OK ==> latched == old(latched) + [b]
      ensures failed == old(failed) + if ret == TWI_OK then 0 else 1
    {
      ret := BusStep();
      if ret == TWI_OK {
        latched := latched + [b];
      }
    }

    method ReadByte() returns (ret: TwiResult, b: byte)
      requires Valid()
      modifies this`pointer, this`failed
      ensures Valid()
      ensures ret == TWI_OK ==> b == mem[old(pointer)] && pointer == (old(pointer) + 1) % EEPROM_SIZE
      ensures failed == old(failed) + if ret == TWI_OK then 0 else 1
    {
      b := 0;
      ret := BusStep();
      if ret == TWI_OK {
        b, pointer := mem[pointer], (pointer + 1) % EEPROM_SIZE;
      }
    }

    method Stop()
      requires Valid()
      modifies this`mem, this`latched
      ensures Valid() && mem == PageWrite(old(mem), old(pointer), old(latched))
      ensures latched == []
    {
      mem := PageWrite(mem, pointer, latched);
      latched := [];
    }

    method AddressWritePrefix(addr: nat) returns (ret: TwiResult)
      requires Valid() && addr < EEPROM_SIZE
      modifies this`pointer, this`latched, this`failed
      ensures Valid() && latched == []
      ensures ret == TWI_OK ==> pointer == addr
      ensures failed == old(failed) + if ret == TWI_OK then 0 else 1
    {
      ret := Start();
      if ret != TWI_OK { return; }
      ret := BusStep();
      if ret != TWI_OK { return; }
      var high := addr / 0x100;
      ret := BusStep();
      if ret != TWI_OK { return; }
      var low := addr % 0x100;
      ret := BusStep();
      if ret != TWI_OK { return; }
      pointer := high * 0x100 + low;
    }

    method AddressReadPrefix(addr: nat) returns (ret: TwiResult)
      requires Valid() && addr < EEPROM_SIZE
      modifies this`pointer, this`latched, this`failed
      ensures Valid() && latched == []
      ensures ret == TWI_OK ==> pointer == addr
      ensures failed == old(failed) + if ret == TWI_OK then 0 else 1
    {
      ret := AddressWritePrefix(addr);
      if ret != TWI_OK { return; }
      ret := Start();
      if ret != TWI_OK { return; }
      ret := BusStep();
    }

    method IsReady() returns (ret: TwiResult)
      requires Valid()
      modifies this
      ensures Valid() && mem == old(mem)
      ensures failed == old(failed) + if ret == TWI_OK then 0 else 1
    {
      ret := AddressReadPrefix(0);
      if ret != TWI_OK { return; }
      var temp;
      ret, temp := ReadByte();
      if ret != TWI_OK { return; }
      Stop();
    }

    /** At most eleven polls of a chip that is still busy: it fails only if they all do. */
    method Wait() returns (ret: TwiResult)
      requires Valid()
      modifies this
      ensures Valid() && mem == old(mem)
      ensures failed == old(failed) + if ret == TWI_OK then 0 else 11
    {
      ret := TWI_OK;
      var count := 0;
      var ready := IsReady();
      while ready != TWI_OK
        invariant Valid() && mem == old(mem) && 0 <= count <= 10 && ret == TWI_OK
        invariant failed == old(failed) + count + if ready == TWI_OK then 0 else 1
        decreases 10 - count, ready != TWI_OK
      {
        if count >= 10 {
          ret := TWI_ERR;
          break;
        }
        count := count + 1;
        ready := IsReady();
      }
      if ret == TWI_OK {
        failed := old(failed);
      }
    }

    method WritePage(data: array<byte>, from: nat, addr: nat, number: nat) returns (ret: TwiResult)
      requires Valid() && addr < EEPROM_SIZE && from + number <= data.Length && number <= 255
      modifies this
      ensures Valid()
      ensures ret == TWI_OK ==> mem == PageWrite(old(mem), addr, data[from..from + number])
      ensures ret == TWI_ERR ==> mem == old(mem)
      ensures failed >= old(failed) && (ret == TWI_OK <==> failed == old(failed))
    {
      var ready := Wait();
      if ready != TWI_OK { return TWI_ERR; }
      ret := AddressWritePrefix(addr);
      if ret != TWI_OK { return; }
      for i := 0 to number
        invariant Valid() && mem == old(mem) && pointer == addr && ret == TWI_OK && failed == old(failed)
        invariant latched == data[from..from + i]
      {
        ret := SendByte(data[from + i]);
        if ret != TWI_OK { return; }
      }
      Stop();
    }

    /** `ext_eeprom_write_block`, for all arguments on which its loop ends. A block that goes on
        at address 0 may be read on for almost a step behind its end. */
    method WriteBlock(data: array<byte>, addr: nat, number: nat) returns (ret: TwiResult)
      requires Valid() && addr < EEPROM_SIZE && number < EEPROM_SIZE
      requires Needed(addr, number) <= data.Length && Ends(addr, number)
      modifies this
      ensures Valid()
      ensures ret == TWI_OK || number == 0 ==>
                exists k: nat :: !GoesOn(addr, number, k)
                  && mem == Loop(old(mem), addr, data[..Needed(addr, number)], number, k)
      ensures ret == TWI_OK && NoOverflow(addr, number) ==>
                mem == Loop(old(mem), addr, data[..Needed(addr, number)], number, number)
      ensures ret == TWI_ERR && number > 0 ==>
                exists k: nat :: GoesOn(addr, number, k)
                  && mem == Loop(old(mem), addr, data[..Needed(addr, number)], number, k)
      ensures Total(addr, number) <= data.Length
      ensures CutsAtPages(addr, Total(addr, number)) ==> Total(addr, number) < EEPROM_SIZE
      ensures CutsAtPages(addr, Total(addr, number)) && ret == TWI_OK ==>
                mem == WrapSplice(old(mem), addr, data[..Total(addr, number)])
      ensures failed >= old(failed) && (number > 0 ==> (ret == TWI_OK <==> failed == old(failed)))
    {
      hide Loop, CutsAtPages, PageWrite, WrapSplice, Total, At, Step, Needed, NoOverflow, GoesOn, Ends;
      ghost var k;
      ret, k := WriteTurns(data, addr, number);
      TotalNeeded(addr, number);
      if ret == TWI_OK && NoOverflow(addr, number) {
        EndsByNumber(addr, number);
        SameEnd(old(mem), addr, data[..Needed(addr, number)], number, k, number);
      }
      if CutsAtPages(addr, Total(addr, number)) {
        EndsAtPages(addr, number);
        TotalFits(addr, number);
      }
      if ret == TWI_OK && CutsAtPages(addr, Total(addr, number)) {
        EndedIsSplice(old(mem), addr, data[..Needed(addr, number)], number, k);
        assert data[..Needed(addr, number)][..Total(addr, number)] == data[..Total(addr, number)];
      }
    }

    /** The loop. The result is not initialized; `k` counts the turns. */
    method WriteTurns(data: array<byte>, addr: nat, number: nat) returns (ret: TwiResult, ghost k: nat)
      requires Valid() && addr < EEPROM_SIZE && number < EEPROM_SIZE
      requires Needed(addr, number) <= data.Length && Ends(addr, number)
      modifies this
      ensures Valid() && mem == Loop(old(mem), addr, data[..Needed(addr, number)], number, k)
      ensures ret == TWI_OK || number == 0 ==> !GoesOn(addr, number, k)
      ensures ret == TWI_ERR && number > 0 ==> GoesOn(addr, number, k)
      ensures failed >= old(failed) && (number > 0 ==> (ret == TWI_OK <==> failed == old(failed)))
    {
      hide Loop, PageWrite, At, Needed, GoesOn, Ends;
      ghost var block := data[..Needed(addr, number)];
      ghost var end := EndsAt(addr, number);
      FirstCounter(addr, number);
      var currentAddr, currentNumber := addr, 0;
      ret := *;
      k := 0;
      LoopStarts(mem, addr, block, number);
      while currentNumber < number
        invariant Valid() && (k > 0 ==> ret == TWI_OK) && k <= end && (k == 0 ==> currentNumber == 0)
        invariant currentNumber == At(addr, number, k) && failed == old(failed)
        invariant currentAddr == (addr + currentNumber) % 0x1_0000
        invariant mem == Loop(old(mem), addr, block, number, k)
        decreases end - k
      {
        var toWrite := EEPROM_PAGE_SIZE - addr % EEPROM_PAGE_SIZE;
        if currentAddr + toWrite > addr + number {
          toWrite := addr + number - currentAddr;
        }
        StillGoing(addr, number, k);
        TurnOf(old(mem), addr, block, number, k, currentAddr, toWrite);
        PartOfPrefix(data[..], |block|, currentNumber, currentNumber + toWrite);
        assert data[..][..|block|] == block;
        ret := WritePage(data, currentNumber, currentAddr, toWrite);
        if ret != TWI_OK { return; }
        currentNumber := (currentNumber + toWrite) % 0x1_0000;
        currentAddr := (currentAddr + toWrite) % 0x1_0000;
        k := k + 1;
      }
      StillGoing(addr, number, k);
    }

    method WriteByte(addr: nat, b: byte) returns (ret: TwiResult)
      requires Valid() && addr < EEPROM_SIZE
      modifies this
      ensures Valid() && (ret == TWI_OK ==> mem == Splice(old(mem), addr, [b]))
      ensures ret == TWI_OK <==> failed == old(failed)
    {
      var data := new byte[1];
      data[0] := b;
      ret := WriteBlock(data, addr, 1);
      assert data[..1] == [b];
    }

    /** Two bytes, the low one at the lower address; the high one may go to address 0. */
    method WriteWord(addr: nat, word: bv16) returns (ret: TwiResult)
      requires Valid() && addr < EEPROM_SIZE
      modifies this
      ensures Valid()
      ensures ret == TWI_OK ==>
                mem == WrapSplice(old(mem), addr, [(word & 0xff) as byte, (word >> 8) as byte])
      ensures ret == TWI_OK <==> failed == old(failed)
    {
      hide WrapSplice, Loop;
      var data := new byte[2];
      var low, high := (word & 0xff) as byte, (word >> 8) as byte;
      data[0], data[1] := low, high;
      SmallBlock(addr, 2);
      ret := WriteBlock(data, addr, 2);
      assert data[..2] == [low, high];
    }

    /** The four bytes, wherever they start, except at 0xfffd: there two bytes of the stack
        behind them are written too, to addresses 1 and 2. */
    method WriteDword(addr: nat, dword: bv32) returns (ret: TwiResult)
      requires Valid() && addr < EEPROM_SIZE
      modifies this
      ensures Valid()
      ensures
        var bytes := Dword(dword);
        ret == TWI_OK ==>
          if addr != 0xfffd then mem == WrapSplice(old(mem), addr, bytes)
          else exists behind: seq<byte> :: |behind| == 2 && mem == WrapSplice(old(mem), addr, bytes + behind)
      ensures ret == TWI_OK <==> failed == old(failed)
    {
      hide WrapSplice, Loop;
      var data := new byte[6];
      var bytes := Dword(dword);
      data[0], data[1], data[2], data[3] := bytes[0], bytes[1], bytes[2], bytes[3];
      SmallBlock(addr, 4);
      ret := WriteBlock(data, addr, 4);
      assert data[..4] == bytes;
      ghost var behind := data[4..6];
      assert data[..6] == bytes + behind;
    }

    /** `ext_eeprom_read_block`: a sequential read, the last byte not acknowledged, for all
        lengths for which the loop ends. */
    method ReadBlock(data: array<byte>, addr: nat, number: nat) returns (ret: TwiResult)
      requires Valid() && addr < EEPROM_SIZE && 1 <= number <= data.Length && number <= 0x100
      modifies this, data
      ensures Valid() && mem == old(mem)
      ensures ret == TWI_OK ==> forall k :: 0 <= k < number ==> data[k] == mem[Counter(addr, k)]
      ensures data[number..] == old(data[number..])
      ensures failed >= old(failed) && (ret == TWI_OK <==> failed == old(failed))
    {
      hide Counter;
      CounterNext(addr, 0);
      var ready := Wait();
      if ready != TWI_OK { return TWI_ERR; }
      ret := AddressReadPrefix(addr);
      if ret != TWI_OK { return; }
      var b;
      for i := 0 to number - 1
        invariant Valid() && mem == old(mem) && latched == [] && pointer == Counter(addr, i) && failed == old(failed)
        invariant forall k :: 0 <= k < i ==> data[k] == mem[Counter(addr, k)]
        invariant data[number..] == old(data[number..])
      {
        CounterNext(addr, i);
        ret, b := ReadByte();
        if ret != TWI_OK { return; }
        data[i] := b;
      }
      ret, b := ReadByte();
      if ret != TWI_OK { return; }
      data[number - 1] := b;
      Stop();
    }
  }

  lemma PartOfPrefix(data: seq<byte>, n: nat, from: nat, to: nat)
    requires from <= to <= n <= |data|
    ensures data[..n][from..to] == data[from..to]
  {}
}
